/** `render_as_load` followed by `resolve_load` returns the file rendered:
    exactly for files in the current document's directory, and for files in
    other repositories when the workspace's repository tables agree. */
module RoundTrip {
  import opened Wrappers
  import opened Paths
  import opened Types
  import opened Resolve
  import opened Render
  import RenderProperties
  import Strings

  /** A file next to the current document renders as `:name`, and `:name`
      (parsed as a label without repository or package) resolves back to
      that file. */
  lemma SameDirectoryRoundTrip(target: Path, current: Path, ws: Option<Workspace>, workspaceRoot: Option<Path>, client: Client, host: Host)
    requires SameDirectory(File(target), File(current))
    requires target in host.fs.existing
    requires host.parseLabel(":" + FileName(target).value) == Some(Label(None, None, FileName(target).value))
    ensures RenderAsLoad(File(target), File(current), ws, workspaceRoot) == Success(":" + FileName(target).value)
    ensures ResolveLoad(":" + FileName(target).value, File(current), ws, client, host) == Success(File(target))
  {
    var name := FileName(target).value;
    var lbl := Label(None, None, name);
    assert ResolveFolder(lbl, File(current), ws, client) == Success(Parent(target).value);
    ParentJoinFileName(target);
  }

  /** A file of another repository renders as `@repo//dir:name`; that label
      resolves back to the file when the repository is not the workspace's
      own name, its apparent name maps to itself, and the repository's
      directory joined with the relative path is the file. */
  lemma RepositoryRoundTrip(target: Path, current: LspUrl, w: Workspace, workspaceRoot: Option<Path>, client: Client, host: Host,
                            repository: string, dir: seq<string>, name: string)
    requires !SameDirectory(File(target), current)
    requires w.repositoryForPath(target) == Some((repository, Path(false, dir + [name])))
    requires w.workspaceName != Some(repository)
    requires Translate(EffectiveMapping(Some(w), current, client), repository) == repository
    requires Join(w.repositoryPath(repository), dir + [name]) == target
    requires target in host.fs.existing
    requires host.parseLabel(AbsoluteLabelText(repository, Strings.JoinSlash(dir), name))
      == Some(Label(Some(Repository(repository)), Some(dir), name))
    ensures RenderAsLoad(File(target), current, Some(w), workspaceRoot)
      == Success(AbsoluteLabelText(repository, Strings.JoinSlash(dir), name))
    ensures ResolveLoad(AbsoluteLabelText(repository, Strings.JoinSlash(dir), name), current, Some(w), client, host)
      == Success(File(target))
  {
    RenderProperties.RendersKnownRepository(File(target), current, w, workspaceRoot, repository, dir, name);
    var lbl := Label(Some(Repository(repository)), Some(dir), name);
    var folder := Join(w.repositoryPath(repository), dir);
    assert ResolveFolder(lbl, current, Some(w), client) == Success(folder);
    assert Join(folder, [name]) == target by {
      assert w.repositoryPath(repository).segments + dir + [name] == w.repositoryPath(repository).segments + (dir + [name]);
    }
  }
}
