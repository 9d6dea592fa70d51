/** Finding the workspace that governs a document, and the read-through
    cache of workspace snapshots (`BazelContext::workspace`). */
module Workspaces {
  import opened Wrappers
  import opened Paths
  import opened Types

  /** Name of the marker file whose contents redirect to the workspace root. */
  const MARKER_FILE := "DO_NOT_BUILD_HERE"

  /** The file names that make a document a WORKSPACE file. */
  const WORKSPACE_FILE_NAMES: seq<string> := ["WORKSPACE", "WORKSPACE.bazel"]

  /** `is_workspace_file`: a filesystem document named WORKSPACE or WORKSPACE.bazel. */
  predicate IsWorkspaceFile(uri: LspUrl) {
    uri.File? && FileName(uri.path).Some? && FileName(uri.path).value in WORKSPACE_FILE_NAMES
  }

  /** Whether a file is a WORKSPACE file depends only on its scheme and its
      last component, wherever it lives. */
  lemma WorkspaceFileByName(dir: Path, name: string)
    ensures IsWorkspaceFile(File(Join(dir, [name]))) <==> name == "WORKSPACE" || name == "WORKSPACE.bazel"
    ensures !IsWorkspaceFile(Starlark(Join(dir, [name]))) && !IsWorkspaceFile(Other(Join(dir, [name])))
  {
    JoinParent(dir, name);
  }

  /** The marker file inside the ancestor of `p` that keeps `k` components. */
  function MarkerPath(p: Path, k: nat): Path
    requires k <= |p.segments|
  {
    Join(Ancestor(p, k), [MARKER_FILE])
  }

  /** The ancestor of `p` with `k` components holds a marker file. */
  predicate Marked(p: Path, k: nat, fs: FileSystem)
    requires k <= |p.segments|
  {
    MarkerPath(p, k) in fs.existing
  }

  /** The marker search over the ancestors of `p` with fewer than `k`
      components, nearest first. The first marked ancestor decides: its
      marker's contents are the root, or reading it fails. */
  function SearchAncestors(p: Path, k: nat, fs: FileSystem): (r: Result<Option<Path>, Error>)
    requires k <= |p.segments|
    ensures r == Success(None) <==> forall j :: 0 <= j < k ==> !Marked(p, j, fs)
    ensures r.Success? && r.value.Some? ==>
      exists j :: 0 <= j < k && Marked(p, j, fs) && MarkerPath(p, j) in fs.contents
        && fs.contents[MarkerPath(p, j)] == r.value.value
        && forall i :: j < i < k ==> !Marked(p, i, fs)
    ensures r.Failure? ==>
      exists j :: 0 <= j < k && Marked(p, j, fs) && MarkerPath(p, j) !in fs.contents
        && r.error == ReadFailed(MarkerPath(p, j))
        && forall i :: j < i < k ==> !Marked(p, i, fs)
    decreases k
  {
    if k == 0 then Success(None)
    else if Marked(p, k - 1, fs) then
      var marker := MarkerPath(p, k - 1);
      if marker in fs.contents then Success(Some(fs.contents[marker]))
      else Failure(ReadFailed(marker))
    else SearchAncestors(p, k - 1, fs)
  }

  /** `infer_workspace_dir`: walks the strict ancestors of a filesystem
      document; any other document has no workspace. */
  function InferWorkspaceDir(current: LspUrl, fs: FileSystem): (r: Result<Option<Path>, Error>)
    ensures !current.File? ==> r == Success(None)
    ensures current.File? ==> r == SearchAncestors(current.path, |current.path.segments|, fs)
  {
    if current.File? then SearchAncestors(current.path, |current.path.segments|, fs)
    else Success(None)
  }

  /** The workspace directory a request uses: the explicit one when given,
      otherwise the inferred one. */
  function WorkspaceDir(explicit: Option<Path>, current: LspUrl, fs: FileSystem): Result<Option<Path>, Error> {
    if explicit.Some? then Success(explicit) else InferWorkspaceDir(current, fs)
  }

  /** `BazelContext::workspace`: returns the cached snapshot for the workspace
      directory, or asks the build tool once and caches its answer. Snapshots
      already cached are never replaced. */
  method GetWorkspace(cache: map<Path, Workspace>, explicit: Option<Path>, current: LspUrl, fs: FileSystem, client: Client)
    returns (r: Result<Option<Workspace>, Error>, cache': map<Path, Workspace>)
    ensures forall d :: d in cache ==> d in cache' && cache'[d] == cache[d]
    ensures WorkspaceDir(explicit, current, fs).Failure? ==>
      r == Failure(WorkspaceDir(explicit, current, fs).error) && cache' == cache
    ensures WorkspaceDir(explicit, current, fs) == Success(None) ==> r == Success(None) && cache' == cache
    ensures WorkspaceDir(explicit, current, fs).Success? && WorkspaceDir(explicit, current, fs).value.Some? ==>
      var d := WorkspaceDir(explicit, current, fs).value.value;
      && (d in cache ==> r == Success(Some(cache[d])) && cache' == cache)
      && (d !in cache && client.info(d).Some? ==>
            r == Success(Some(client.info(d).value)) && cache' == cache[d := client.info(d).value])
      && (d !in cache && client.info(d).None? ==> r == Failure(InfoFailed(d)) && cache' == cache)
    ensures r.Success? && r.value.Some? ==>
      var d := WorkspaceDir(explicit, current, fs).value.value;
      d in cache' && cache'[d] == r.value.value
  {
    cache' := cache;
    var dir := WorkspaceDir(explicit, current, fs);
    if dir.Failure? {
      r := Failure(dir.error);
      return;
    }
    if dir.value.None? {
      r := Success(None);
      return;
    }
    var d := dir.value.value;
    if d in cache {
      r := Success(Some(cache[d]));
      return;
    }
    var info := client.info(d);
    if info.None? {
      r := Failure(InfoFailed(d));
      return;
    }
    cache' := cache[d := info.value];
    r := Success(Some(cache'[d]));
  }
}
