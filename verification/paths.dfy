/** Filesystem paths as sequences of components, standing in for Rust's
    `Path`/`PathBuf`. Component-wise comparison is what `PathBuf` equality does. */
module Paths {
  import opened Wrappers
  import Strings

  /** A path: whether it starts at the filesystem root, and its named components. */
  datatype Path = Path(absolute: bool, segments: seq<string>)

  /** `Path::parent`: drops the last component; the root and the empty relative path have none. */
  function Parent(p: Path): (r: Option<Path>)
    ensures r.Some? <==> |p.segments| > 0
    ensures r.Some? ==> r.value.absolute == p.absolute && r.value.segments + [p.segments[|p.segments| - 1]] == p.segments
  {
    if |p.segments| == 0 then None
    else Some(Path(p.absolute, p.segments[..|p.segments| - 1]))
  }

  /** `Path::file_name`: the last component. */
  function FileName(p: Path): (r: Option<string>)
    ensures r.Some? <==> |p.segments| > 0
    ensures r.Some? ==> r.value == p.segments[|p.segments| - 1]
  {
    if |p.segments| == 0 then None else Some(p.segments[|p.segments| - 1])
  }

  /** `PathBuf::join` with a relative path given by its components. */
  function Join(p: Path, rel: seq<string>): (r: Path)
    ensures r.absolute == p.absolute
    ensures |r.segments| == |p.segments| + |rel|
    ensures r.segments[..|p.segments|] == p.segments && r.segments[|p.segments|..] == rel
  {
    Path(p.absolute, p.segments + rel)
  }

  /** A path is its parent joined with its file name. */
  lemma ParentJoinFileName(p: Path)
    requires |p.segments| > 0
    ensures Join(Parent(p).value, [FileName(p).value]) == p
  {
  }

  /** The parent of a path joined with one more component is the path. */
  lemma JoinParent(p: Path, name: string)
    ensures Parent(Join(p, [name])) == Some(p)
    ensures FileName(Join(p, [name])) == Some(name)
  {
  }

  /** `Path::strip_prefix`: the relative remainder when `base` is a leading run of components. */
  function StripPrefix(p: Path, base: Path): (r: Option<Path>)
    ensures r.Some? ==> !r.value.absolute && Join(base, r.value.segments) == p
    ensures (exists rel :: Join(base, rel) == p) ==> r.Some?
  {
    var n := |base.segments|;
    if p.absolute == base.absolute && n <= |p.segments| && p.segments[..n] == base.segments then
      assert p.segments == p.segments[..n] + p.segments[n..];
      Some(Path(false, p.segments[n..]))
    else None
  }

  /** The ancestor of `p` with its first `k` components (`Path::ancestors`). */
  function Ancestor(p: Path, k: nat): (r: Path)
    requires k <= |p.segments|
    ensures r.absolute == p.absolute && r.segments == p.segments[..k]
  {
    Path(p.absolute, p.segments[..k])
  }

  /** `to_string_lossy`: components separated by `/`, with a leading `/` when absolute. */
  function Display(p: Path): string {
    (if p.absolute then "/" else "") + Strings.JoinSlash(p.segments)
  }
}
