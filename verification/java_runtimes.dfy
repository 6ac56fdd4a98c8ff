/** The runtime record the finders produce, and the platform they run on. */
module JavaRuntimes {
  import opened Wrappers
  import opened FileSystems

  /** JavaRuntime: the install root (the directory holding bin), the version from the
      release descriptor if there was one, the 64-bit flag, and whether the runtime was
      found among a launcher's bundled runtimes. */
  datatype Runtime = Runtime(dir: Path, version: Option<string>, is64Bit: bool, minecraftBundled: bool)

  /** new JavaRuntime(dir, version, is64Bit): not bundled until marked so. */
  function NewRuntime(dir: Path, version: Option<string>, is64Bit: bool): Runtime {
    Runtime(dir, version, is64Bit, false)
  }

  /** Environment.getPlatform. */
  datatype Platform = Windows | MacOsX | Linux | Other

  /** The environment the finders read: the platform, the APPDATA variable (None when it
      is unset) and the working directory that relative paths resolve against. */
  datatype Environment = Environment(platform: Platform, appData: Option<Path>, workingDir: Path)

  /** The present values, in order: a list of results with its nulls dropped, as both
      finders do when they collect runtimes. */
  function Present(os: seq<Option<Runtime>>): seq<Runtime> {
    if |os| == 0 then []
    else
      var earlier := Present(os[..|os| - 1]);
      match os[|os| - 1]
      case None => earlier
      case Some(runtime) => earlier + [runtime]
  }

  lemma {:induction false} PresentMembers(os: seq<Option<Runtime>>, x: Runtime)
    ensures x in Present(os) <==> exists i :: 0 <= i < |os| && os[i] == Some(x)
  {
    if |os| > 0 {
      var n := |os| - 1;
      var init := os[..n];
      PresentMembers(init, x);
      if x in Present(os) {
        if x in Present(init) {
          var i :| 0 <= i < |init| && init[i] == Some(x);
          assert os[i] == init[i];
        } else {
          assert os[n] == Some(x);
        }
      } else {
        forall i | 0 <= i < |os| ensures os[i] != Some(x) {
          if i < n {
            assert os[i] == init[i];
          }
        }
      }
    }
  }

  /** The lists of several scans, one after another. */
  function Concat(parts: seq<seq<Runtime>>): seq<Runtime> {
    if |parts| == 0 then [] else Concat(parts[..|parts| - 1]) + parts[|parts| - 1]
  }

  lemma {:induction false} ConcatMembers(parts: seq<seq<Runtime>>, x: Runtime)
    ensures x in Concat(parts) <==> exists k :: 0 <= k < |parts| && x in parts[k]
  {
    if |parts| > 0 {
      var n := |parts| - 1;
      var init := parts[..n];
      ConcatMembers(init, x);
      if x in Concat(parts) {
        if x in Concat(init) {
          var k :| 0 <= k < |init| && x in init[k];
          assert parts[k] == init[k];
        } else {
          assert x in parts[n];
        }
      } else {
        forall k | 0 <= k < |parts| ensures x !in parts[k] {
          if k < n {
            assert parts[k] == init[k];
          }
        }
      }
    }
  }
}
