/** Rendering a file as the label a `load` statement would use
    (`render_as_load`), the inverse of `resolve_load`. */
module Render {
  import opened Wrappers
  import opened Paths
  import opened Types
  import Strings

  /** Both documents are files in the same directory. */
  predicate SameDirectory(target: LspUrl, current: LspUrl) {
    target.File? && current.File?
    && Parent(target.path).Some? && Parent(current.path).Some?
    && Parent(target.path) == Parent(current.path)
  }

  /** The repository and the repository-relative path a target file is
      rendered with: the workspace's reverse lookup first, then the path
      relative to the explicit workspace root, then the raw path. */
  function RepositoryAndPath(targetPath: Path, ws: Option<Workspace>, workspaceRoot: Option<Path>): (r: (Option<string>, Path))
    ensures r.0.Some? <==> ws.Some? && ws.value.repositoryForPath(targetPath).Some?
    ensures r.0.Some? ==> (r.0.value, r.1) == ws.value.repositoryForPath(targetPath).value
    ensures r.0.None? && workspaceRoot.Some? && StripPrefix(targetPath, workspaceRoot.value).Some? ==>
      !r.1.absolute && Join(workspaceRoot.value, r.1.segments) == targetPath
    ensures r.0.None? && (workspaceRoot.None? || StripPrefix(targetPath, workspaceRoot.value).None?) ==>
      r.1 == targetPath
  {
    if ws.Some? && ws.value.repositoryForPath(targetPath).Some? then
      var (repository, rel) := ws.value.repositoryForPath(targetPath).value;
      (Some(repository), rel)
    else if workspaceRoot.Some? && StripPrefix(targetPath, workspaceRoot.value).Some? then
      (None, StripPrefix(targetPath, workspaceRoot.value).value)
    else (None, targetPath)
  }

  /** The text `@repository//package:name`. */
  function AbsoluteLabelText(repository: string, package: string, name: string): string {
    "@" + repository + "//" + package + ":" + name
  }

  /** `render_as_load`. */
  function RenderAsLoad(target: LspUrl, current: LspUrl, ws: Option<Workspace>, workspaceRoot: Option<Path>): (r: Result<string, RenderLoadError>)
    ensures (r.Failure? && r.error.RenderWrongScheme?) <==> !target.File?
    ensures r.Failure? && r.error.RenderWrongScheme? ==> r.error == RenderWrongScheme(FILE_SCHEME, target, current)
    ensures SameDirectory(target, current) ==> r == Success(":" + FileName(target.path).value)
    ensures r.Failure? && r.error.MissingTargetFilename? ==> |r.error.path.segments| == 0
    ensures r.Success? ==> (Strings.StartsWith(r.value, ':') <==> SameDirectory(target, current))
    ensures r.Success? && !SameDirectory(target, current) ==> Strings.StartsWith(r.value, '@')
  {
    if SameDirectory(target, current) then
      match FileName(target.path)
      case Some(name) => Success(":" + name)
      case None => Failure(MissingTargetFilename(target.path))
    else if target.File? then
      var (repository, rel) := RepositoryAndPath(target.path, ws, workspaceRoot);
      match FileName(rel)
      case Some(name) =>
        var package := if Parent(rel).Some? then Display(Parent(rel).value) else "";
        Success(AbsoluteLabelText(repository.GetOr(""), package, name))
      case None => Failure(MissingTargetFilename(rel))
    else Failure(RenderWrongScheme(FILE_SCHEME, target, current))
  }
}

/** The precedence of `render_as_load` for targets outside the current
    document's directory. */
module RenderProperties {
  import opened Wrappers
  import opened Paths
  import opened Types
  import opened Render
  import Strings

  /** A repository known to the workspace is rendered with its name and the
      target's repository-relative directory. */
  lemma RendersKnownRepository(target: LspUrl, current: LspUrl, w: Workspace, workspaceRoot: Option<Path>, repository: string, dir: seq<string>, name: string)
    requires target.File? && !SameDirectory(target, current)
    requires w.repositoryForPath(target.path) == Some((repository, Path(false, dir + [name])))
    ensures RenderAsLoad(target, current, Some(w), workspaceRoot) ==
      Success(AbsoluteLabelText(repository, Strings.JoinSlash(dir), name))
  {
    var rel := Path(false, dir + [name]);
    assert (dir + [name])[..|dir|] == dir;
    assert Parent(rel) == Some(Path(false, dir));
    assert Display(Path(false, dir)) == Strings.JoinSlash(dir);
  }

  /** Without a known repository, a target under the explicit workspace root
      is rendered relative to that root with an empty repository, `@//dir:name`. */
  lemma RendersUnderWorkspaceRoot(target: LspUrl, current: LspUrl, ws: Option<Workspace>, root: Path, dir: seq<string>, name: string)
    requires target.File? && !SameDirectory(target, current)
    requires ws.None? || ws.value.repositoryForPath(target.path).None?
    requires target.path == Join(root, dir + [name])
    ensures RenderAsLoad(target, current, ws, Some(root)) == Success(AbsoluteLabelText("", Strings.JoinSlash(dir), name))
  {
    var rel := StripPrefix(target.path, root);
    assert rel.Some?;
    assert rel.value == Path(false, dir + [name]);
    assert (dir + [name])[..|dir|] == dir;
    assert Parent(rel.value) == Some(Path(false, dir));
    assert Display(Path(false, dir)) == Strings.JoinSlash(dir);
  }

  /** With neither, the raw path is used as the package, keeping its leading `/`. */
  lemma RendersRawPath(target: LspUrl, current: LspUrl, ws: Option<Workspace>, workspaceRoot: Option<Path>)
    requires target.File? && !SameDirectory(target, current)
    requires ws.None? || ws.value.repositoryForPath(target.path).None?
    requires workspaceRoot.None? || StripPrefix(target.path, workspaceRoot.value).None?
    requires |target.path.segments| > 0
    ensures RenderAsLoad(target, current, ws, workspaceRoot) ==
      Success(AbsoluteLabelText("", Display(Parent(target.path).value), FileName(target.path).value))
  {
  }
}
