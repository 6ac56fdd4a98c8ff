/** An abstract, read-only view of the disk as java.io.File sees it. A path is the
    sequence of names from the root (the empty sequence is the root itself), a
    directory lists its children in the order listFiles returns them, and a directory
    may hold a readable release descriptor. */
module FileSystems {
  import opened Wrappers

  type Path = seq<string>

  /** What JavaReleaseFile.parseFromRelease extracts from a readable release descriptor. */
  datatype Release = Release(version: string, isArch64Bit: bool)

  datatype FileSystem = FileSystem(
    files: set<Path>,
    listing: map<Path, seq<string>>,
    releases: map<Path, Release>)

  /** File.isFile. */
  predicate IsFile(fs: FileSystem, p: Path) {
    p in fs.files
  }

  /** File.isDirectory. */
  predicate IsDirectory(fs: FileSystem, p: Path) {
    p in fs.listing
  }

  /** File.exists. */
  predicate Exists(fs: FileSystem, p: Path) {
    IsFile(fs, p) || IsDirectory(fs, p)
  }

  /** File.getName: the last name, empty for the root. */
  function Name(p: Path): string {
    if |p| == 0 then "" else p[|p| - 1]
  }

  /** File.getParentFile: the path without its last name, or null for the root. */
  function Parent(p: Path): (r: Option<Path>)
    ensures r.Some? <==> |p| > 0
    ensures r.Some? ==> r.value + [Name(p)] == p
  {
    if |p| == 0 then None else Some(p[..|p| - 1])
  }

  /** The names a directory lists, or null (None) when the path is not a directory. */
  function List(fs: FileSystem, dir: Path): (r: Option<seq<string>>)
    ensures r.Some? <==> IsDirectory(fs, dir)
  {
    if dir in fs.listing then Some(fs.listing[dir]) else None
  }

  /** JavaReleaseFile.parseFromRelease(dir): the descriptor of dir, or null when it is
      missing or unreadable. */
  function ReadRelease(fs: FileSystem, dir: Path): Option<Release> {
    if dir in fs.releases then Some(fs.releases[dir]) else None
  }
}
