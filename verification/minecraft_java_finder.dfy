/** MinecraftJavaFinder: the runtimes bundled by game launchers, found in two fixed
    directories and under each launcher directory's runtime folder. */
module MinecraftJavaFinder {
  import opened Wrappers
  import opened Strings
  import opened FileSystems
  import opened JavaRuntimes

  /** Where a macOS bundle keeps the runtime home inside the java directory. */
  const BundleHome: seq<string> := ["jre.bundle", "Contents", "Home"]

  /** potential.list(filter isDirectory): the listed names that are directories, in order. */
  function ChildDirectories(fs: FileSystem, dir: Path, names: seq<string>): (r: seq<string>)
    ensures |r| <= |names|
    ensures forall n :: n in r <==> n in names && IsDirectory(fs, dir + [n])
  {
    if |names| == 0 then []
    else
      var rest := ChildDirectories(fs, dir, names[1..]);
      assert names == [names[0]] + names[1..];
      if IsDirectory(fs, dir + [names[0]]) then [names[0]] + rest else rest
  }

  /** The java directory of a nested layout entry: entry/platform/entryName, with the
      bundle home appended on macOS. */
  function NestedJavaDir(platform: Platform, potential: Path, platformName: string): Path {
    var javaDir := potential + [platformName, Name(potential)];
    if platform == MacOsX then javaDir + BundleHome else javaDir
  }

  /** scanPotentialRuntime: an entry named jre-x... is a runtime rooted at the entry itself;
      any other entry must hold exactly one platform directory, and is a runtime only if
      the java directory under it has a readable release descriptor. */
  function ScanPotentialRuntime(fs: FileSystem, platform: Platform, potential: Path): (r: Option<Runtime>)
    ensures r.Some? ==> r.value.minecraftBundled
    ensures StartsWith(Name(potential), "jre-x") ==> r.Some? && r.value.dir == potential
  {
    var runtimeName := Name(potential);
    if StartsWith(runtimeName, "jre-x") then
      var is64Bit := runtimeName == "jre-x64";
      var release := ReadRelease(fs, potential);
      var version := if release.Some? then Some(release.value.version) else None;
      Some(NewRuntime(potential, version, is64Bit).(minecraftBundled := true))
    else
      match List(fs, potential)
      case None => None
      case Some(names) =>
        var children := ChildDirectories(fs, potential, names);
        if |children| != 1 then None
        else
          var javaDir := NestedJavaDir(platform, potential, children[0]);
          match ReadRelease(fs, javaDir)
          case None => None
          case Some(release) =>
            Some(NewRuntime(javaDir, Some(release.version), release.isArch64Bit).(minecraftBundled := true))
  }

  /** addJavaLocations: the directory counts only when it lists an entry named bin in any
      case and java.exe exists directly inside it; then it is scanned as a potential
      runtime and appended if it is one. */
  predicate HasJavaLocation(fs: FileSystem, dir: Path) {
    match List(fs, dir)
    case None => false
    case Some(names) =>
      (exists i :: 0 <= i < |names| && Lower(names[i]) == "bin") && Exists(fs, dir + ["java.exe"])
  }

  function AddJavaLocations(fs: FileSystem, platform: Platform, entries: seq<Runtime>, dir: Path): (r: seq<Runtime>)
    ensures |r| == |entries| + (if HasJavaLocation(fs, dir) && ScanPotentialRuntime(fs, platform, dir).Some? then 1 else 0)
    ensures r[..|entries|] == entries
    ensures |r| > |entries| ==> r[|entries|] == ScanPotentialRuntime(fs, platform, dir).value
  {
    if HasJavaLocation(fs, dir) then
      match ScanPotentialRuntime(fs, platform, dir)
      case None => entries
      case Some(runtime) => entries + [runtime]
    else entries
  }

  /** new File(System.getenv("APPDATA"), ".FoxFord\\java"): on Windows the backslash
      separates two names; elsewhere it is part of one name. An unset APPDATA leaves a
      relative path, which resolves against the working directory. */
  function FoxFordDir(env: Environment): Path {
    var base := if env.appData.Some? then env.appData.value else env.workingDir;
    if env.platform == Windows then base + [".FoxFord", "java"] else base + [".FoxFord\\java"]
  }

  /** new File("C:\\Program Files\\Eclipse Adoptium"): absolute on Windows, a relative
      single name elsewhere. */
  function AdoptiumDir(env: Environment): Path {
    if env.platform == Windows then ["C:", "Program Files", "Eclipse Adoptium"]
    else env.workingDir + ["C:\\Program Files\\Eclipse Adoptium"]
  }

  /** The runtimes among the listed entries of a runtime folder, in listing order. */
  function ScanEntries(fs: FileSystem, platform: Platform, folder: Path, names: seq<string>): seq<Runtime>
  {
    Present(EntryScans(fs, platform, folder, names))
  }

  /** scanPotentialRuntime of each listed entry of a runtime folder. */
  function EntryScans(fs: FileSystem, platform: Platform, folder: Path, names: seq<string>): (os: seq<Option<Runtime>>)
    ensures |os| == |names|
    ensures forall i :: 0 <= i < |names| ==> os[i] == ScanPotentialRuntime(fs, platform, folder + [names[i]])
  {
    seq(|names|, i requires 0 <= i < |names| => ScanPotentialRuntime(fs, platform, folder + [names[i]]))
  }

  /** The runtimes of one launcher directory's runtime folder, in listing order; a folder
      that cannot be listed contributes nothing. */
  function ScanFolder(fs: FileSystem, platform: Platform, install: Path): seq<Runtime> {
    var folder := install + ["runtime"];
    match List(fs, folder)
    case None => []
    case Some(names) => ScanEntries(fs, platform, folder, names)
  }

  /** The runtimes of each launcher directory's runtime folder, launcher by launcher. */
  function ScanInstalls(fs: FileSystem, platform: Platform, installs: seq<Path>): seq<Runtime>
  {
    Concat(FolderScans(fs, platform, installs))
  }

  /** The runtime folder scan of each launcher directory. */
  function FolderScans(fs: FileSystem, platform: Platform, installs: seq<Path>): (parts: seq<seq<Runtime>>)
    ensures |parts| == |installs|
    ensures forall k :: 0 <= k < |installs| ==> parts[k] == ScanFolder(fs, platform, installs[k])
  {
    seq(|installs|, k requires 0 <= k < |installs| => ScanFolder(fs, platform, installs[k]))
  }

  /** The fixed directories first, FoxFord before Adoptium. */
  function PriorityRuntimes(fs: FileSystem, env: Environment): seq<Runtime> {
    AddJavaLocations(fs, env.platform, AddJavaLocations(fs, env.platform, [], FoxFordDir(env)), AdoptiumDir(env))
  }

  /** scanLauncherDirectories, as a reference definition. */
  function ScanLauncherDirectories(fs: FileSystem, env: Environment, installs: seq<Path>): seq<Runtime> {
    PriorityRuntimes(fs, env) + ScanInstalls(fs, env.platform, installs)
  }

  lemma ScanEntriesStep(fs: FileSystem, platform: Platform, folder: Path, names: seq<string>, j: nat)
    requires j < |names|
    ensures var next := ScanPotentialRuntime(fs, platform, folder + [names[j]]);
      ScanEntries(fs, platform, folder, names[..j + 1])
        == ScanEntries(fs, platform, folder, names[..j]) + (if next.Some? then [next.value] else [])
  {
    var os := EntryScans(fs, platform, folder, names[..j + 1]);
    assert os[..j] == EntryScans(fs, platform, folder, names[..j]);
  }

  lemma ScanInstallsStep(fs: FileSystem, platform: Platform, installs: seq<Path>, i: nat)
    requires i < |installs|
    ensures ScanInstalls(fs, platform, installs[..i + 1])
      == ScanInstalls(fs, platform, installs[..i]) + ScanFolder(fs, platform, installs[i])
  {
    var parts := FolderScans(fs, platform, installs[..i + 1]);
    assert parts[..i] == FolderScans(fs, platform, installs[..i]);
  }

  /** The inner loop of scanLauncherDirectories: one launcher's runtime folder. */
  method CollectFolderRuntimes(fs: FileSystem, platform: Platform, install: Path) returns (found: seq<Runtime>)
    ensures found == ScanFolder(fs, platform, install)
  {
    var folder := install + ["runtime"];
    var listed := List(fs, folder);
    found := [];
    if listed.Some? {
      var names := listed.value;
      var j := 0;
      while j < |names|
        invariant 0 <= j <= |names|
        invariant found == ScanEntries(fs, platform, folder, names[..j])
      {
        var runtime := ScanPotentialRuntime(fs, platform, folder + [names[j]]);
        ScanEntriesStep(fs, platform, folder, names, j);
        if runtime.Some? {
          found := found + [runtime.value];
        }
        j := j + 1;
      }
      assert names[..j] == names;
    }
  }

  /** The outer loop of scanLauncherDirectories: the launcher directories in order. */
  method CollectInstallRuntimes(fs: FileSystem, platform: Platform, installs: seq<Path>) returns (entries: seq<Runtime>)
    ensures entries == ScanInstalls(fs, platform, installs)
  {
    entries := [];
    var i := 0;
    while i < |installs|
      invariant 0 <= i <= |installs|
      invariant entries == ScanInstalls(fs, platform, installs[..i])
    {
      ScanInstallsStep(fs, platform, installs, i);
      var found := CollectFolderRuntimes(fs, platform, installs[i]);
      entries := entries + found;
      i := i + 1;
    }
    assert installs[..i] == installs;
  }

  /** scanLauncherDirectories, with the loops of the source. */
  method CollectLauncherRuntimes(fs: FileSystem, env: Environment, installs: seq<Path>) returns (entries: seq<Runtime>)
    ensures entries == ScanLauncherDirectories(fs, env, installs)
  {
    entries := AddJavaLocations(fs, env.platform, [], FoxFordDir(env));
    entries := AddJavaLocations(fs, env.platform, entries, AdoptiumDir(env));
    var bundled := CollectInstallRuntimes(fs, env.platform, installs);
    entries := entries + bundled;
  }

  // ---------------------------------------------------------------------------
  // Properties

  /** A jre-x entry is 64-bit exactly when it is named jre-x64, and has a version exactly
      when its release descriptor is readable. */
  lemma FlatLayout(fs: FileSystem, platform: Platform, potential: Path)
    requires StartsWith(Name(potential), "jre-x")
    ensures var r := ScanPotentialRuntime(fs, platform, potential);
      && r.Some?
      && r.value.dir == potential
      && (r.value.is64Bit <==> Name(potential) == "jre-x64")
      && (r.value.version.Some? <==> ReadRelease(fs, potential).Some?)
      && (r.value.version.Some? ==> r.value.version.value == ReadRelease(fs, potential).value.version)
  {
  }

  /** Any other entry is a runtime exactly when it has one platform directory p and the
      java directory under p has a readable release descriptor; the runtime is then rooted
      at that java directory (entry/p/entryName, plus the bundle home on macOS), lies
      inside the entry, takes version and width from that descriptor, and its version is
      always known. */
  lemma NestedLayout(fs: FileSystem, platform: Platform, potential: Path)
    requires !StartsWith(Name(potential), "jre-x")
    ensures var r := ScanPotentialRuntime(fs, platform, potential);
      r.Some? <==>
        (exists p :: IsDirectory(fs, potential)
          && ChildDirectories(fs, potential, fs.listing[potential]) == [p]
          && ReadRelease(fs, NestedJavaDir(platform, potential, p)).Some?)
    ensures var r := ScanPotentialRuntime(fs, platform, potential);
      r.Some? ==>
        exists p :: (ChildDirectories(fs, potential, fs.listing[potential]) == [p]
          && var release := ReadRelease(fs, NestedJavaDir(platform, potential, p)).value;
             r == Some(Runtime(NestedJavaDir(platform, potential, p), Some(release.version), release.isArch64Bit, true)))
    ensures var r := ScanPotentialRuntime(fs, platform, potential);
      r.Some? ==>
        && r.value.version.Some?
        && potential < r.value.dir
        && |r.value.dir| == |potential| + (if platform == MacOsX then 5 else 2)
        && r.value.dir[|potential| + 1] == Name(potential)
        && ReadRelease(fs, r.value.dir) == Some(Release(r.value.version.value, r.value.is64Bit))
  {
    var r := ScanPotentialRuntime(fs, platform, potential);
    if r.Some? {
      var p := ChildDirectories(fs, potential, fs.listing[potential])[0];
      assert ChildDirectories(fs, potential, fs.listing[potential]) == [p];
      var dir := NestedJavaDir(platform, potential, p);
      assert dir[..|potential|] == potential;
    }
  }

  /** Two distinct platform directories make the entry ambiguous: no runtime. */
  lemma AmbiguousPlatformSkipped(fs: FileSystem, platform: Platform, potential: Path, p: string, q: string)
    requires !StartsWith(Name(potential), "jre-x")
    requires IsDirectory(fs, potential)
    requires p != q && p in fs.listing[potential] && q in fs.listing[potential]
    requires IsDirectory(fs, potential + [p]) && IsDirectory(fs, potential + [q])
    ensures ScanPotentialRuntime(fs, platform, potential) == None
  {
    var children := ChildDirectories(fs, potential, fs.listing[potential]);
    TwoMembers(children, p, q);
  }

  /** A directory laid out as an ordinary JDK, with java.exe beside a bin directory and a
      lib directory, passes the filter of addJavaLocations, yet scanPotentialRuntime sees
      two child directories and reports nothing: such a fixed directory contributes no
      runtime. */
  lemma JdkLayoutSkipped(fs: FileSystem, platform: Platform, entries: seq<Runtime>, dir: Path)
    requires !StartsWith(Name(dir), "jre-x")
    requires IsDirectory(fs, dir) && "bin" in fs.listing[dir] && "lib" in fs.listing[dir]
    requires IsDirectory(fs, dir + ["bin"]) && IsDirectory(fs, dir + ["lib"])
    requires IsFile(fs, dir + ["java.exe"])
    ensures HasJavaLocation(fs, dir)
    ensures AddJavaLocations(fs, platform, entries, dir) == entries
  {
    var names := fs.listing[dir];
    var i :| 0 <= i < |names| && names[i] == "bin";
    assert Lower(names[i]) == "bin";
    AmbiguousPlatformSkipped(fs, platform, dir, "bin", "lib");
  }

  /** A sequence holding two distinct values has at least two elements. */
  lemma TwoMembers(s: seq<string>, p: string, q: string)
    requires p != q && p in s && q in s
    ensures |s| >= 2
  {
    var i :| 0 <= i < |s| && s[i] == p;
    var j :| 0 <= j < |s| && s[j] == q;
    assert i != j;
  }

  /** The runtimes of a folder are exactly the scans of its listed entries that succeed. */
  lemma ScanEntriesMembers(fs: FileSystem, platform: Platform, folder: Path, names: seq<string>, r: Runtime)
    ensures r in ScanEntries(fs, platform, folder, names) <==>
      exists i :: 0 <= i < |names| && ScanPotentialRuntime(fs, platform, folder + [names[i]]) == Some(r)
  {
    PresentMembers(EntryScans(fs, platform, folder, names), r);
  }

  /** r is the runtime of some entry listed in the install's runtime folder. */
  predicate FoundIn(fs: FileSystem, platform: Platform, install: Path, r: Runtime) {
    var folder := install + ["runtime"];
    IsDirectory(fs, folder)
      && exists i :: 0 <= i < |fs.listing[folder]| && ScanPotentialRuntime(fs, platform, folder + [fs.listing[folder][i]]) == Some(r)
  }

  lemma ScanFolderMembers(fs: FileSystem, platform: Platform, install: Path, r: Runtime)
    ensures r in ScanFolder(fs, platform, install) <==> FoundIn(fs, platform, install, r)
  {
    var folder := install + ["runtime"];
    if IsDirectory(fs, folder) {
      ScanEntriesMembers(fs, platform, folder, fs.listing[folder], r);
    }
  }

  /** The bundled runtimes found under the launcher directories are exactly the successful
      scans of the entries listed in their runtime folders. */

  lemma ScanInstallsMembers(fs: FileSystem, platform: Platform, installs: seq<Path>, r: Runtime)
    ensures r in ScanInstalls(fs, platform, installs) <==>
      exists k :: 0 <= k < |installs| && FoundIn(fs, platform, installs[k], r)
  {
    ConcatMembers(FolderScans(fs, platform, installs), r);
    forall k | 0 <= k < |installs|
      ensures r in ScanFolder(fs, platform, installs[k]) <==> FoundIn(fs, platform, installs[k], r)
    {
      ScanFolderMembers(fs, platform, installs[k], r);
    }
  }

  /** Every runtime this class reports is marked as bundled. */
  lemma {:induction false} AllBundled(fs: FileSystem, env: Environment, installs: seq<Path>)
    ensures forall r :: r in ScanLauncherDirectories(fs, env, installs) ==> r.minecraftBundled
  {
    PriorityBundled(fs, env);
    forall r | r in ScanInstalls(fs, env.platform, installs)
      ensures r.minecraftBundled
    {
      ScanInstallsMembers(fs, env.platform, installs, r);
    }
  }

  /** The runtimes found in the two fixed directories are marked bundled. */
  lemma PriorityBundled(fs: FileSystem, env: Environment)
    ensures forall r :: r in PriorityRuntimes(fs, env) ==> r.minecraftBundled
  {
    var e0 := AddJavaLocations(fs, env.platform, [], FoxFordDir(env));
    var pri := PriorityRuntimes(fs, env);
    forall i | 0 <= i < |pri|
      ensures pri[i].minecraftBundled
    {
      if i < |e0| {
        assert pri[i] == e0[i];
      }
    }
  }


  /** The order of the result: at most two runtimes from the fixed directories, FoxFord
      first, and then the launcher directories' runtimes. */
  lemma PriorityFirst(fs: FileSystem, env: Environment, installs: seq<Path>)
    ensures var all := ScanLauncherDirectories(fs, env, installs);
      var pri := PriorityRuntimes(fs, env);
      && |pri| <= 2
      && all[..|pri|] == pri
      && all[|pri|..] == ScanInstalls(fs, env.platform, installs)
    ensures HasJavaLocation(fs, FoxFordDir(env)) && ScanPotentialRuntime(fs, env.platform, FoxFordDir(env)).Some? ==>
      ScanLauncherDirectories(fs, env, installs)[0] == ScanPotentialRuntime(fs, env.platform, FoxFordDir(env)).value
  {
  }
}
