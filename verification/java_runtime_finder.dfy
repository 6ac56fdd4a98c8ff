/** JavaRuntimeFinder: turning a candidate path into a runtime, merging the runtimes of
    every source without duplicates, ordering them, and choosing one.

    JavaRuntime's equals, compareTo and getMajorVersion are not part of this model; they
    appear as parameters: `key` (two runtimes are equal exactly when their keys are),
    `rank` (compareTo as a total preorder: a runtime sorts before another exactly when
    its rank is smaller) and `major`. */
module JavaRuntimeFinder {
  import opened Wrappers
  import opened FileSystems
  import opened JavaRuntimes
  import MinecraftJavaFinder

  // ---------------------------------------------------------------------------
  // A candidate path to a runtime

  /** normalizePath: a file (typically bin/java) stands for the directory two levels up;
      a directory named bin stands for its parent; anything else is already a root. A file
      with fewer than two ancestors has no grandparent, and gives None. */
  function NormalizePath(fs: FileSystem, target: Path): (r: Option<Path>)
    ensures r.Some? ==> r.value <= target && |target| - |r.value| <= 2
    ensures r.None? <==> IsFile(fs, target) && |target| < 2
  {
    if IsFile(fs, target) then
      if |target| < 2 then None else Some(target[..|target| - 2])
    else if Name(target) == "bin" then
      Some(target[..|target| - 1])
    else
      Some(target)
  }

  /** The directory whose release descriptor is read: the root if root/release is a
      file, otherwise root/jre. */
  function ReleaseDir(fs: FileSystem, root: Path): Path {
    if IsFile(fs, root + ["release"]) then root else root + ["jre"]
  }

  /** The bin folder: root/bin if it is a directory, otherwise root/jre/bin. */
  function BinFolder(fs: FileSystem, root: Path): Path {
    if IsDirectory(fs, root + ["bin"]) then root + ["bin"] else root + ["jre", "bin"]
  }

  /** getRuntimeFromPath: None (null) when the path has no root or neither bin folder is
      a directory; otherwise a runtime rooted at the bin folder's parent, described by the
      release descriptor if there is one, and assumed 64-bit with no version if not. */
  function RuntimeFromPath(fs: FileSystem, target: Path): (r: Option<Runtime>)
    ensures r.Some? ==> IsDirectory(fs, r.value.dir + ["bin"])
    ensures r.Some? ==> !r.value.minecraftBundled
    ensures r.Some? <==> (NormalizePath(fs, target).Some?
      && (IsDirectory(fs, NormalizePath(fs, target).value + ["bin"])
        || IsDirectory(fs, NormalizePath(fs, target).value + ["jre", "bin"])))
  {
    match NormalizePath(fs, target)
    case None => None
    case Some(root) =>
      var bin := BinFolder(fs, root);
      if !IsDirectory(fs, bin) then None
      else
        var dir := Parent(bin).value;
        assert dir + ["bin"] == bin;
        match ReadRelease(fs, ReleaseDir(fs, root))
        case None => Some(NewRuntime(dir, None, true))
        case Some(release) => Some(NewRuntime(dir, Some(release.version), release.isArch64Bit))
  }

  /** The root recorded for a runtime is the normalized path itself or its jre child, and
      the descriptor fields come from the release directory; a missing descriptor means no
      version and 64-bit. */
  lemma RuntimeRootAndRelease(fs: FileSystem, target: Path)
    requires RuntimeFromPath(fs, target).Some?
    ensures var root := NormalizePath(fs, target).value;
      var rt := RuntimeFromPath(fs, target).value;
      var release := ReadRelease(fs, ReleaseDir(fs, root));
      && (rt.dir == root <==> IsDirectory(fs, root + ["bin"]))
      && (rt.dir == root + ["jre"] <==> !IsDirectory(fs, root + ["bin"]))
      && (release.None? ==> rt.version.None? && rt.is64Bit)
      && (release.Some? ==> rt.version == Some(release.value.version) && rt.is64Bit == release.value.isArch64Bit)
  {
    var root := NormalizePath(fs, target).value;
    var rt := RuntimeFromPath(fs, target).value;
    if !IsDirectory(fs, root + ["bin"]) {
      assert rt.dir == root + ["jre"];
      assert |rt.dir| != |root|;
    } else {
      assert rt.dir == root;
      assert |rt.dir| != |root + ["jre"]|;
    }
  }

  /** The java executable, its bin directory and the install root all give the same
      runtime. */
  lemma ThreeFormsAgree(fs: FileSystem, root: Path, exe: string)
    requires IsDirectory(fs, root + ["bin"]) && !IsFile(fs, root + ["bin"])
    requires IsFile(fs, root + ["bin", exe])
    requires !IsFile(fs, root) && Name(root) != "bin"
    ensures NormalizePath(fs, root + ["bin", exe]) == Some(root)
    ensures NormalizePath(fs, root + ["bin"]) == Some(root)
    ensures NormalizePath(fs, root) == Some(root)
    ensures RuntimeFromPath(fs, root + ["bin", exe]) == RuntimeFromPath(fs, root + ["bin"])
      == RuntimeFromPath(fs, root)
    ensures RuntimeFromPath(fs, root).Some? && RuntimeFromPath(fs, root).value.dir == root
  {
    assert (root + ["bin", exe])[..|root| + 2 - 2] == root;
    assert (root + ["bin"])[..|root| + 1 - 1] == root;
    assert Name(root + ["bin"]) == "bin";
    RuntimeRootAndRelease(fs, root);
  }

  /** The system runtimes: getRuntimeFromPath of each candidate location, nulls dropped. */
  function SystemRuntimes(fs: FileSystem, candidates: seq<Path>): seq<Runtime> {
    Present(seq(|candidates|, i requires 0 <= i < |candidates| => RuntimeFromPath(fs, candidates[i])))
  }

  /** The system runtimes are exactly the runtimes the candidate locations give, and none
      of them is marked as bundled. */
  lemma SystemRuntimesMembers(fs: FileSystem, candidates: seq<Path>, x: Runtime)
    ensures x in SystemRuntimes(fs, candidates) <==>
      exists i :: 0 <= i < |candidates| && RuntimeFromPath(fs, candidates[i]) == Some(x)
    ensures x in SystemRuntimes(fs, candidates) ==> !x.minecraftBundled
  {
    var os := seq(|candidates|, i requires 0 <= i < |candidates| => RuntimeFromPath(fs, candidates[i]));
    assert forall i :: 0 <= i < |candidates| ==> os[i] == RuntimeFromPath(fs, candidates[i]);
    PresentMembers(os, x);
  }

  // ---------------------------------------------------------------------------
  // The union through a set

  function KeysOf<K(==)>(key: Runtime -> K, s: seq<Runtime>): set<K> {
    set i | 0 <= i < |s| :: key(s[i])
  }

  predicate DistinctKeys<K(==)>(key: Runtime -> K, s: seq<Runtime>) {
    forall i, j :: 0 <= i < j < |s| ==> key(s[i]) != key(s[j])
  }

  /** s[j] is the first element of s with its key. */
  predicate FirstOfKey<K(==)>(key: Runtime -> K, s: seq<Runtime>, j: int)
    requires 0 <= j < |s|
  {
    forall k :: 0 <= k < j ==> key(s[k]) != key(s[j])
  }

  lemma KeysOfSnoc<K>(key: Runtime -> K, s: seq<Runtime>, x: Runtime)
    ensures KeysOf(key, s + [x]) == KeysOf(key, s) + {key(x)}
  {
    var t := s + [x];
    forall k | k in KeysOf(key, t)
      ensures k in KeysOf(key, s) + {key(x)}
    {
      var i :| 0 <= i < |t| && key(t[i]) == k;
      if i < |s| {
        assert t[i] == s[i];
      }
    }
    forall k | k in KeysOf(key, s)
      ensures k in KeysOf(key, t)
    {
      var i :| 0 <= i < |s| && key(s[i]) == k;
      assert t[i] == s[i];
    }
    assert t[|s|] == x;
  }

  /** new HashSet(mc) then addAll: adding an element whose key is already present leaves
      the set unchanged, so of each key the first element survives. */
  function Dedup<K(==)>(key: Runtime -> K, xs: seq<Runtime>): (r: seq<Runtime>)
    ensures KeysOf(key, r) == KeysOf(key, xs)
    ensures DistinctKeys(key, r)
    ensures |r| <= |xs|
  {
    if |xs| == 0 then []
    else
      var d := Dedup(key, xs[..|xs| - 1]);
      var x := xs[|xs| - 1];
      KeysOfSnoc(key, xs[..|xs| - 1], x);
      assert xs[..|xs| - 1] + [x] == xs;
      if key(x) in KeysOf(key, d) then d
      else
        KeysOfSnoc(key, d, x);
        d + [x]
  }

  /** y occurs in xs, and no element before that occurrence has y's key. */
  predicate FirstOccurrence<K(==)>(key: Runtime -> K, xs: seq<Runtime>, y: Runtime) {
    exists j :: 0 <= j < |xs| && xs[j] == y && FirstOfKey(key, xs, j)
  }

  /** The union keeps exactly the first runtime of each key. */
  lemma {:induction false} DedupKeepsFirst<K>(key: Runtime -> K, xs: seq<Runtime>)
    ensures forall y :: y in Dedup(key, xs) <==> FirstOccurrence(key, xs, y)
  {
    if |xs| > 0 {
      var init := xs[..|xs| - 1];
      var x := xs[|xs| - 1];
      var d := Dedup(key, init);
      DedupKeepsFirst(key, init);
      var r := Dedup(key, xs);
      assert r == d || r == d + [x];
      forall y | y in r ensures FirstOccurrence(key, xs, y) {
        if y in d {
          var j :| 0 <= j < |init| && init[j] == y && FirstOfKey(key, init, j);
          assert xs[j] == y;
          assert FirstOfKey(key, xs, j) by {
            forall k | 0 <= k < j ensures key(xs[k]) != key(xs[j]) {
              assert xs[k] == init[k];
            }
          }
        } else {
          assert r == d + [x] && y == x && key(x) !in KeysOf(key, d);
          assert FirstOfKey(key, xs, |xs| - 1) by {
            forall k | 0 <= k < |xs| - 1 ensures key(xs[k]) != key(x) {
              assert xs[k] == init[k];
              assert key(init[k]) in KeysOf(key, init);
            }
          }
        }
      }
      forall y | FirstOccurrence(key, xs, y) ensures y in r {
        var j :| 0 <= j < |xs| && xs[j] == y && FirstOfKey(key, xs, j);
        if j < |init| {
          assert init[j] == xs[j];
          assert FirstOfKey(key, init, j) by {
            forall k | 0 <= k < j ensures key(init[k]) != key(init[j]) {
              assert init[k] == xs[k];
            }
          }
        } else {
          forall k | 0 <= k < |init| ensures key(init[k]) != key(x) {
            assert init[k] == xs[k];
          }
          assert key(x) !in KeysOf(key, init);
          assert r == d + [x];
        }
      }
    }
  }

  /** A list whose keys are already distinct passes through unchanged; in particular the
      union is idempotent. */
  lemma {:induction false} DedupDistinctUnchanged<K>(key: Runtime -> K, xs: seq<Runtime>)
    requires DistinctKeys(key, xs)
    ensures Dedup(key, xs) == xs
  {
    if |xs| > 0 {
      var init := xs[..|xs| - 1];
      var x := xs[|xs| - 1];
      DedupDistinctUnchanged(key, init);
      forall k | 0 <= k < |init| ensures key(init[k]) != key(x) {
        assert init[k] == xs[k];
      }
      assert key(x) !in KeysOf(key, init);
      assert init + [x] == xs;
    }
  }

  lemma DedupIdempotent<K>(key: Runtime -> K, xs: seq<Runtime>)
    ensures Dedup(key, Dedup(key, xs)) == Dedup(key, xs)
  {
    DedupDistinctUnchanged(key, Dedup(key, xs));
  }

  /** The union with a set of keys seen so far, as the HashSet does it. */
  method CollectDistinct<K(==)>(key: Runtime -> K, xs: seq<Runtime>) returns (r: seq<Runtime>)
    ensures r == Dedup(key, xs)
  {
    r := [];
    var seen: set<K> := {};
    var i := 0;
    while i < |xs|
      invariant 0 <= i <= |xs|
      invariant r == Dedup(key, xs[..i])
      invariant seen == KeysOf(key, r)
    {
      assert xs[..i + 1][..i] == xs[..i];
      if key(xs[i]) !in seen {
        KeysOfSnoc(key, r, xs[i]);
        r := r + [xs[i]];
        seen := seen + {key(xs[i])};
      }
      i := i + 1;
    }
    assert xs[..i] == xs;
  }

  // ---------------------------------------------------------------------------
  // Ordering

  predicate SortedBy(rank: Runtime -> int, s: seq<Runtime>) {
    forall i, j :: 0 <= i < j < |s| ==> rank(s[i]) <= rank(s[j])
  }

  /** Puts x after every element that does not rank above it. */
  function Insert(rank: Runtime -> int, x: Runtime, s: seq<Runtime>): (r: seq<Runtime>)
    ensures multiset(r) == multiset(s) + multiset{x}
  {
    if |s| == 0 then [x]
    else if rank(x) < rank(s[0]) then [x] + s
    else
      assert s == [s[0]] + s[1..];
      [s[0]] + Insert(rank, x, s[1..])
  }

  /** Inserting into a sorted list keeps it sorted. */
  lemma {:induction false} InsertSorted(rank: Runtime -> int, x: Runtime, s: seq<Runtime>)
    requires SortedBy(rank, s)
    ensures SortedBy(rank, Insert(rank, x, s))
  {
    if |s| > 0 && rank(s[0]) <= rank(x) {
      var rest := Insert(rank, x, s[1..]);
      InsertSorted(rank, x, s[1..]);
      forall i | 0 <= i < |rest| ensures rank(s[0]) <= rank(rest[i]) {
        assert rest[i] in multiset(rest);
        if rest[i] != x {
          assert rest[i] in multiset(s[1..]);
          var j :| 0 <= j < |s[1..]| && s[1..][j] == rest[i];
          assert s[j + 1] == rest[i];
        }
      }
    }
  }

  /** stream().sorted(): a stable sort by rank. */
  function SortByRank(rank: Runtime -> int, xs: seq<Runtime>): (r: seq<Runtime>)
    ensures SortedBy(rank, r)
    ensures multiset(r) == multiset(xs)
  {
    if |xs| == 0 then []
    else
      var sorted := SortByRank(rank, xs[..|xs| - 1]);
      assert xs[..|xs| - 1] + [xs[|xs| - 1]] == xs;
      InsertSorted(rank, xs[|xs| - 1], sorted);
      Insert(rank, xs[|xs| - 1], sorted)
  }

  /** Inserting adds exactly x's key, and keeps the keys distinct when x's is new. */
  lemma {:induction false} InsertKeys<K>(key: Runtime -> K, rank: Runtime -> int, x: Runtime, s: seq<Runtime>)
    ensures KeysOf(key, Insert(rank, x, s)) == KeysOf(key, s) + {key(x)}
    ensures DistinctKeys(key, s) && key(x) !in KeysOf(key, s) ==> DistinctKeys(key, Insert(rank, x, s))
  {
    if |s| == 0 {
      KeysOfSnoc(key, [], x);
    } else if rank(x) < rank(s[0]) {
      KeysOfCons(key, x, s);
    } else {
      var rest := Insert(rank, x, s[1..]);
      InsertKeys(key, rank, x, s[1..]);
      KeysOfCons(key, s[0], rest);
      KeysOfCons(key, s[0], s[1..]);
      assert s == [s[0]] + s[1..];
      if DistinctKeys(key, s) && key(x) !in KeysOf(key, s) {
        assert DistinctKeys(key, s[1..]);
        assert key(s[0]) !in KeysOf(key, rest);
        ConsDistinct(key, s[0], rest);
      }
    }
  }

  lemma KeysOfCons<K>(key: Runtime -> K, x: Runtime, s: seq<Runtime>)
    ensures KeysOf(key, [x] + s) == {key(x)} + KeysOf(key, s)
  {
    var t := [x] + s;
    forall k | k in KeysOf(key, t)
      ensures k in {key(x)} + KeysOf(key, s)
    {
      var i :| 0 <= i < |t| && key(t[i]) == k;
      if i > 0 {
        assert t[i] == s[i - 1];
      }
    }
    forall k | k in KeysOf(key, s)
      ensures k in KeysOf(key, t)
    {
      var i :| 0 <= i < |s| && key(s[i]) == k;
      assert t[i + 1] == s[i];
    }
    assert t[0] == x;
  }

  lemma ConsDistinct<K>(key: Runtime -> K, x: Runtime, s: seq<Runtime>)
    requires DistinctKeys(key, s) && key(x) !in KeysOf(key, s)
    ensures DistinctKeys(key, [x] + s)
  {
    var t := [x] + s;
    forall i, j | 0 <= i < j < |t|
      ensures key(t[i]) != key(t[j])
    {
      assert t[j] == s[j - 1];
      if i > 0 {
        assert t[i] == s[i - 1];
      } else {
        assert key(s[j - 1]) in KeysOf(key, s);
      }
    }
  }

  /** Sorting keeps the keys. */
  lemma {:induction false} SortKeepsKeys<K>(key: Runtime -> K, rank: Runtime -> int, xs: seq<Runtime>)
    ensures KeysOf(key, SortByRank(rank, xs)) == KeysOf(key, xs)
  {
    if |xs| > 0 {
      var init := xs[..|xs| - 1];
      var x := xs[|xs| - 1];
      var sorted := SortByRank(rank, init);
      assert init + [x] == xs;
      assert SortByRank(rank, xs) == Insert(rank, x, sorted);
      SortKeepsKeys(key, rank, init);
      InsertKeys(key, rank, x, sorted);
      KeysOfSnoc(key, init, x);
      calc {
        KeysOf(key, SortByRank(rank, xs));
        KeysOf(key, sorted) + {key(x)};
        KeysOf(key, init) + {key(x)};
        KeysOf(key, xs);
      }
    }
  }

  /** Sorting keeps distinct keys distinct. */
  lemma {:induction false} SortKeepsDistinct<K>(key: Runtime -> K, rank: Runtime -> int, xs: seq<Runtime>)
    requires DistinctKeys(key, xs)
    ensures DistinctKeys(key, SortByRank(rank, xs))
  {
    if |xs| > 0 {
      var init := xs[..|xs| - 1];
      var x := xs[|xs| - 1];
      assert DistinctKeys(key, init);
      SortKeepsDistinct(key, rank, init);
      SortKeepsKeys(key, rank, init);
      forall k | 0 <= k < |init| ensures key(init[k]) != key(x) {
        assert init[k] == xs[k];
      }
      assert key(x) !in KeysOf(key, SortByRank(rank, init));
      InsertKeys(key, rank, x, SortByRank(rank, init));
    }
  }

  /** A sorted list holds the same runtimes as the list sorted. */
  lemma SortSameMembers(rank: Runtime -> int, xs: seq<Runtime>)
    ensures forall x :: x in SortByRank(rank, xs) <==> x in xs
  {
    var r := SortByRank(rank, xs);
    assert forall x :: x in r <==> x in multiset(r);
    assert forall x :: x in xs <==> x in multiset(xs);
  }

  lemma {:induction false} InsertAtEnd(rank: Runtime -> int, x: Runtime, s: seq<Runtime>)
    requires SortedBy(rank, s)
    requires forall i :: 0 <= i < |s| ==> rank(s[i]) <= rank(x)
    ensures Insert(rank, x, s) == s + [x]
  {
    if |s| > 0 {
      InsertAtEnd(rank, x, s[1..]);
      assert [s[0]] + (s[1..] + [x]) == s + [x];
    }
  }

  /** Sorting a sorted list changes nothing, so sorting twice is sorting once. */
  lemma {:induction false} SortSortedUnchanged(rank: Runtime -> int, xs: seq<Runtime>)
    requires SortedBy(rank, xs)
    ensures SortByRank(rank, xs) == xs
  {
    if |xs| > 0 {
      var init := xs[..|xs| - 1];
      SortSortedUnchanged(rank, init);
      InsertAtEnd(rank, xs[|xs| - 1], init);
      assert init + [xs[|xs| - 1]] == xs;
    }
  }

  lemma SortIdempotent(rank: Runtime -> int, xs: seq<Runtime>)
    ensures SortByRank(rank, SortByRank(rank, xs)) == SortByRank(rank, xs)
  {
    SortSortedUnchanged(rank, SortByRank(rank, xs));
  }

  // ---------------------------------------------------------------------------
  // getAvailableRuntimes

  /** What the platform's finder reports: the launcher directories to search, the
      candidate java locations and the runtimes it found some other way. */
  datatype PlatformReport = PlatformReport(
    launcherDirectories: seq<Path>,
    candidateJavaLocations: seq<Path>,
    extraRuntimes: seq<Runtime>)

  /** getRuntimeFinder: Windows, macOS and Linux have a finder; other platforms do not. */
  predicate HasRuntimeFinder(platform: Platform) {
    platform != Other
  }

  /** Every runtime the three sources report, bundled first, then system, then extra. */
  function Discovered(fs: FileSystem, env: Environment, report: PlatformReport): seq<Runtime> {
    MinecraftJavaFinder.ScanLauncherDirectories(fs, env, report.launcherDirectories)
      + SystemRuntimes(fs, report.candidateJavaLocations)
      + report.extraRuntimes
  }

  /** getAvailableRuntimes: nothing without a finder or when waiting for the two scans
      fails (`joinFailed`); otherwise the union of the sources, sorted. */
  function AvailableRuntimes<K(==)>(fs: FileSystem, env: Environment, report: PlatformReport, joinFailed: bool,
                                key: Runtime -> K, rank: Runtime -> int): (r: seq<Runtime>)
    ensures SortedBy(rank, r)
    ensures DistinctKeys(key, r)
    ensures !HasRuntimeFinder(env.platform) || joinFailed ==> r == []
  {
    if !HasRuntimeFinder(env.platform) || joinFailed then []
    else
      var merged := Dedup(key, Discovered(fs, env, report));
      SortKeepsDistinct(key, rank, merged);
      SortByRank(rank, merged)
  }

  /** Every runtime any source reports is represented by exactly one runtime with its key,
      and what is returned was reported by some source. */
  lemma AvailableCoversDiscovered<K>(fs: FileSystem, env: Environment, report: PlatformReport,
                                     key: Runtime -> K, rank: Runtime -> int)
    requires HasRuntimeFinder(env.platform)
    ensures var r := AvailableRuntimes(fs, env, report, false, key, rank);
      && KeysOf(key, r) == KeysOf(key, Discovered(fs, env, report))
      && forall x :: x in r ==> x in Discovered(fs, env, report)
  {
    var all := Discovered(fs, env, report);
    var merged := Dedup(key, all);
    SortKeepsKeys(key, rank, merged);
    SortSameMembers(rank, merged);
    DedupKeepsFirst(key, all);
    forall x | x in merged ensures x in all {
      assert FirstOccurrence(key, all, x);
    }
  }

  /** A runtime found in a launcher directory wins over a system or extra runtime that is
      equal to it: the one returned for that key is one of the bundled ones. */
  lemma BundledWinsTies<K>(fs: FileSystem, env: Environment, report: PlatformReport,
                           key: Runtime -> K, rank: Runtime -> int, b: Runtime, y: Runtime)
    requires HasRuntimeFinder(env.platform)
    requires b in MinecraftJavaFinder.ScanLauncherDirectories(fs, env, report.launcherDirectories)
    requires y in AvailableRuntimes(fs, env, report, false, key, rank) && key(y) == key(b)
    ensures y in MinecraftJavaFinder.ScanLauncherDirectories(fs, env, report.launcherDirectories)
  {
    var mc := MinecraftJavaFinder.ScanLauncherDirectories(fs, env, report.launcherDirectories);
    var all := Discovered(fs, env, report);
    var merged := Dedup(key, all);
    SortSameMembers(rank, merged);
    var i :| 0 <= i < |merged| && merged[i] == y;
    DedupKeepsFirst(key, all);
    assert FirstOccurrence(key, all, y);
    var j :| 0 <= j < |all| && all[j] == y && FirstOfKey(key, all, j);
    var m :| 0 <= m < |mc| && mc[m] == b;
    assert all[m] == b;
    assert !(m < j);
    assert all[j] == mc[j];
  }

  // ---------------------------------------------------------------------------
  // Choosing a runtime

  /** The first element of a list with the given major version. */
  function FirstWithMajor(major: Runtime -> int, target: int, s: seq<Runtime>): (r: Option<nat>)
    ensures r.None? <==> forall i :: 0 <= i < |s| ==> major(s[i]) != target
    ensures r.Some? ==> (r.value < |s| && major(s[r.value]) == target
      && forall i :: 0 <= i < r.value ==> major(s[i]) != target)
  {
    if |s| == 0 then None
    else if major(s[0]) == target then Some(0)
    else
      match FirstWithMajor(major, target, s[1..])
      case None => None
      case Some(k) => Some(k + 1)
  }

  /** In a sorted list, the first runtime with a major version ranks no higher than any
      other runtime with it. */
  lemma FirstMatchRanksLowest(rank: Runtime -> int, major: Runtime -> int, target: int, s: seq<Runtime>, k: nat)
    requires SortedBy(rank, s)
    requires FirstWithMajor(major, target, s) == Some(k)
    ensures forall x :: x in s && major(x) == target ==> rank(s[k]) <= rank(x)
  {
    forall x | x in s && major(x) == target ensures rank(s[k]) <= rank(x) {
      var i :| 0 <= i < |s| && s[i] == x;
      assert k <= i;
    }
  }

  /** findBestJavaRuntime on a given list: the first runtime in sorted order with the
      target major version. */
  function FindBest(rank: Runtime -> int, major: Runtime -> int, target: int, runtimes: seq<Runtime>): (r: Option<Runtime>)
    ensures r.None? <==> forall x :: x in runtimes ==> major(x) != target
    ensures r.Some? ==> r.value in runtimes && major(r.value) == target
    ensures r.Some? ==> forall x :: x in runtimes && major(x) == target ==> rank(r.value) <= rank(x)
  {
    var sorted := SortByRank(rank, runtimes);
    SortSameMembers(rank, runtimes);
    match FirstWithMajor(major, target, sorted)
    case None => None
    case Some(k) =>
      FirstMatchRanksLowest(rank, major, target, sorted, k);
      Some(sorted[k])
  }

  /** findAnyJavaRuntime on a given list: the first runtime in sorted order. */
  function FindAny(rank: Runtime -> int, runtimes: seq<Runtime>): (r: Option<Runtime>)
    ensures r.None? <==> |runtimes| == 0
    ensures r.Some? ==> r.value in runtimes
    ensures r.Some? ==> forall x :: x in runtimes ==> rank(r.value) <= rank(x)
  {
    var sorted := SortByRank(rank, runtimes);
    SortSameMembers(rank, runtimes);
    assert |sorted| == |multiset(runtimes)| == |runtimes|;
    if |sorted| == 0 then None
    else
      assert forall x :: x in sorted ==> rank(sorted[0]) <= rank(x);
      Some(sorted[0])
  }

  /** findBestJavaRuntime and findAnyJavaRuntime sort the already sorted list again; that
      second sort changes nothing, so they choose the first matching runtime of the list
      getAvailableRuntimes returns. */
  lemma SelectionsUseAvailableOrder<K>(fs: FileSystem, env: Environment, report: PlatformReport, joinFailed: bool,
                                       key: Runtime -> K, rank: Runtime -> int, major: Runtime -> int, target: int)
    ensures var avail := AvailableRuntimes(fs, env, report, joinFailed, key, rank);
      var k := FirstWithMajor(major, target, avail);
      && (k.None? ==> FindBest(rank, major, target, avail).None?)
      && (k.Some? ==> FindBest(rank, major, target, avail) == Some(avail[k.value]))
      && FindAny(rank, avail) == (if |avail| == 0 then None else Some(avail[0]))
  {
    var avail := AvailableRuntimes(fs, env, report, joinFailed, key, rank);
    SortSortedUnchanged(rank, avail);
  }

  /** With no finder, or when the scans fail, nothing is found and nothing is chosen. */
  lemma NothingWithoutFinder<K>(fs: FileSystem, env: Environment, report: PlatformReport, joinFailed: bool,
                                key: Runtime -> K, rank: Runtime -> int, major: Runtime -> int, target: int)
    requires !HasRuntimeFinder(env.platform) || joinFailed
    ensures FindBest(rank, major, target, AvailableRuntimes(fs, env, report, joinFailed, key, rank)).None?
    ensures FindAny(rank, AvailableRuntimes(fs, env, report, joinFailed, key, rank)).None?
  {
  }
}
