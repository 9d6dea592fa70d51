/** Resolving a label to a directory (`resolve_folder`) and to an existing
    file (`resolve_load`), including the repository-mapping translation
    (`repo_mapping_for_file`). */
module Resolve {
  import opened Wrappers
  import opened Paths
  import opened Types

  /** The mapping's entry for `name`, if any (first match in listing order). */
  function MappingGet(mapping: RepoMapping, name: string): (r: Option<string>)
    ensures r.None? <==> forall i :: 0 <= i < |mapping| ==> mapping[i].0 != name
    ensures r.Some? ==> exists i :: 0 <= i < |mapping| && mapping[i] == (name, r.value)
  {
    if |mapping| == 0 then None
    else if mapping[0].0 == name then Some(mapping[0].1)
    else
      var r := MappingGet(mapping[1..], name);
      assert forall i :: 1 <= i < |mapping| ==> mapping[i] == mapping[1..][i - 1];
      r
  }

  /** `mapping.get(name).unwrap_or(name)`: the canonical name of an apparent
      repository name, the name itself when the mapping has no entry. */
  function Translate(mapping: RepoMapping, name: string): (r: string)
    ensures MappingGet(mapping, name).None? ==> r == name
    ensures MappingGet(mapping, name).Some? ==> (name, r) in mapping
    ensures forall c :: (name, c) in mapping ==> r == c
  {
    var m := MappingGet(mapping, name);
    if m.Some? then
      var i :| 0 <= i < |mapping| && mapping[i] == (name, m.value);
      assert mapping[i] in mapping;
      m.value
    else name
  }

  /** The repository a document belongs to, "" for the main repository. */
  function CurrentRepository(ws: Workspace, current: LspUrl): string {
    ws.repositoryForUrl(current).GetOr("")
  }

  /** `repo_mapping_for_file`: asks the build tool for the mapping of the
      document's own repository; `None` when the call fails. */
  function RepoMappingForFile(ws: Workspace, current: LspUrl, client: Client): (r: Option<RepoMapping>)
    ensures ws.repositoryForUrl(current).Some? ==> r == client.dumpRepoMapping(ws, ws.repositoryForUrl(current).value)
    ensures ws.repositoryForUrl(current).None? ==> r == client.dumpRepoMapping(ws, "")
  {
    client.dumpRepoMapping(ws, CurrentRepository(ws, current))
  }

  /** The mapping `resolve_folder` applies: a failed dump, or no workspace,
      degrades to the empty mapping. */
  function EffectiveMapping(ws: Option<Workspace>, current: LspUrl, client: Client): (r: RepoMapping)
    ensures ws.None? ==> r == []
    ensures ws.Some? && RepoMappingForFile(ws.value, current, client).None? ==> r == []
    ensures ws.Some? && RepoMappingForFile(ws.value, current, client).Some? ==>
      r == RepoMappingForFile(ws.value, current, client).value
  {
    if ws.Some? then RepoMappingForFile(ws.value, current, client).GetOr([]) else []
  }

  /** The root directory the label's package is resolved from, `None` when
      no root is known; an explicit repository needs a workspace. */
  function ResolveRoot(lbl: Label, current: LspUrl, ws: Option<Workspace>, client: Client): (r: Result<Option<Path>, ResolveLoadError>)
    ensures r.Failure? <==> lbl.repo.Some? && ws.None?
    ensures r.Failure? ==> r.error == UnknownRepository(lbl, lbl.repo.value.name)
    ensures r == Success(None) <==> lbl.repo.None? && ws.None?
    ensures lbl.repo.None? && ws.Some? ==>
      r == Success(Some(if ws.value.repositoryForUrl(current).Some?
                        then ws.value.repositoryPath(ws.value.repositoryForUrl(current).value)
                        else ws.value.root))
    ensures lbl.repo.Some? && ws.Some? && ws.value.workspaceName == Some(lbl.repo.value.name) ==>
      r == Success(Some(ws.value.root))
    ensures lbl.repo.Some? && ws.Some? && ws.value.workspaceName != Some(lbl.repo.value.name) ==>
      r == Success(Some(ws.value.repositoryPath(Translate(EffectiveMapping(ws, current, client), lbl.repo.value.name))))
  {
    match lbl.repo
    case None =>
      if ws.Some? && ws.value.repositoryForUrl(current).Some? then
        Success(Some(ws.value.repositoryPath(ws.value.repositoryForUrl(current).value)))
      else if ws.Some? then Success(Some(ws.value.root))
      else Success(None)
    case Some(repository) =>
      var remote := Translate(EffectiveMapping(ws, current, client), repository.name);
      if ws.Some? && ws.value.workspaceName == Some(repository.name) then Success(Some(ws.value.root))
      else if ws.Some? then Success(Some(ws.value.repositoryPath(remote)))
      else Failure(UnknownRepository(lbl, repository.name))
  }

  /** `resolve_folder`: the directory a label designates. A label with a
      package lies under the chosen repository root; a label without one is
      the current document's directory. */
  function ResolveFolder(lbl: Label, current: LspUrl, ws: Option<Workspace>, client: Client): (r: Result<Path, ResolveLoadError>)
    ensures (r.Failure? && r.error.UnknownRepository?) <==> lbl.repo.Some? && ws.None?
    ensures r.Failure? && r.error.UnknownRepository? ==> r.error == UnknownRepository(lbl, lbl.repo.value.name)
    ensures (r.Failure? && r.error.MissingWorkspaceRoot?) <==> lbl.repo.None? && ws.None? && lbl.package.Some?
    ensures lbl.package.Some? && r.Success? ==>
      |lbl.package.value| <= |r.value.segments|
      && r.value.segments[|r.value.segments| - |lbl.package.value|..] == lbl.package.value
    ensures lbl.package.None? && r.Success? ==> current.File? && Parent(current.path) == Some(r.value)
    ensures lbl.package.None? && (lbl.repo.None? || ws.Some?) ==>
      (r.Success? <==> current.File? && |current.path.segments| > 0)
      && (r.Failure? && current.File? ==> r.error == MissingCurrentFilePath(lbl))
      && (r.Failure? && !current.File? ==> r.error == WrongScheme(FILE_SCHEME, current))
  {
    var root :- ResolveRoot(lbl, current, ws, client);
    if lbl.package.Some? then
      if root.Some? then Success(Join(root.value, lbl.package.value))
      else Failure(MissingWorkspaceRoot(lbl))
    else
      match current
      case File(p) =>
        if Parent(p).Some? then Success(Parent(p).value) else Failure(MissingCurrentFilePath(lbl))
      case _ => Failure(WrongScheme(FILE_SCHEME, current))
  }

  /** The first of `folder/names[i]` that exists, trying the names in order. */
  function FirstExisting(folder: Path, names: seq<string>, fs: FileSystem): (r: Option<Path>)
    ensures r.None? <==> forall i :: 0 <= i < |names| ==> Join(folder, [names[i]]) !in fs.existing
    ensures r.Some? ==>
      r.value in fs.existing
      && (exists i :: 0 <= i < |names| && r.value == Join(folder, [names[i]])
            && forall j :: 0 <= j < i ==> Join(folder, [names[j]]) !in fs.existing)
    decreases |names|
  {
    if |names| == 0 then None
    else if Join(folder, [names[0]]) in fs.existing then Some(Join(folder, [names[0]]))
    else
      var r := FirstExisting(folder, names[1..], fs);
      assert forall i :: 1 <= i < |names| ==> names[i] == names[1..][i - 1];
      r
  }

  /** `resolve_load`: parses the text, resolves the label's directory, then
      returns the literally named file if it exists, else the first existing
      build file of the directory, else `TargetNotFound`. */
  function ResolveLoad(text: string, current: LspUrl, ws: Option<Workspace>, client: Client, host: Host): (r: Result<LspUrl, Error>)
    ensures r.Success? ==> r.value.File? && r.value.path in host.fs.existing
    ensures host.parseLabel(text).None? ==> r == Failure(InvalidLabel(text))
    ensures host.parseLabel(text).Some? ==>
      var lbl := host.parseLabel(text).value;
      var folder := ResolveFolder(lbl, current, ws, client);
      && (folder.Failure? ==> r == Failure(ResolveFailed(folder.error)))
      && (folder.Success? && Join(folder.value, [lbl.name]) in host.fs.existing ==>
            r == Success(File(Join(folder.value, [lbl.name]))))
      && (folder.Success? && Join(folder.value, [lbl.name]) !in host.fs.existing ==>
            (r.Success? ==> exists i :: 0 <= i < |host.buildFileNames|
                              && r.value.path == Join(folder.value, [host.buildFileNames[i]])
                              && forall j :: 0 <= j < i ==> Join(folder.value, [host.buildFileNames[j]]) !in host.fs.existing)
            && (r.Failure? <==> forall i :: 0 <= i < |host.buildFileNames| ==>
                                  Join(folder.value, [host.buildFileNames[i]]) !in host.fs.existing)
            && (r.Failure? ==> r.error == ResolveFailed(TargetNotFound(text))))
  {
    match host.parseLabel(text)
    case None => Failure(InvalidLabel(text))
    case Some(lbl) =>
      match ResolveFolder(lbl, current, ws, client)
      case Failure(e) => Failure(ResolveFailed(e))
      case Success(folder) =>
        var presumed := Join(folder, [lbl.name]);
        if presumed in host.fs.existing then Success(File(presumed))
        else
          match FirstExisting(folder, host.buildFileNames, host.fs)
          case Some(buildFile) => Success(File(buildFile))
          case None => Failure(ResolveFailed(TargetNotFound(text)))
  }
}

/** Properties of the resolution precedence. */
module ResolveProperties {
  import opened Wrappers
  import opened Paths
  import opened Types
  import opened Resolve

  /** A repository equal to the workspace's own name resolves to the workspace
      root. The comparison uses the name as written, before the mapping is
      applied, so a mapping entry for that name is never consulted. */
  lemma WorkspaceNameBeforeMapping(lbl: Label, current: LspUrl, w: Workspace, client: Client, pkg: seq<string>)
    requires lbl.repo.Some? && w.workspaceName == Some(lbl.repo.value.name)
    requires lbl.package == Some(pkg)
    ensures ResolveFolder(lbl, current, Some(w), client) == Success(Join(w.root, pkg))
  {
  }

  /** Any other repository goes through the mapping of the document's own
      repository: a mapped name picks the directory of its canonical name. */
  lemma MappedRepositoryDirectory(lbl: Label, current: LspUrl, w: Workspace, client: Client, pkg: seq<string>, canonical: string)
    requires lbl.repo.Some? && w.workspaceName != Some(lbl.repo.value.name)
    requires lbl.package == Some(pkg)
    requires RepoMappingForFile(w, current, client).Some?
    requires MappingGet(RepoMappingForFile(w, current, client).value, lbl.repo.value.name) == Some(canonical)
    ensures ResolveFolder(lbl, current, Some(w), client) == Success(Join(w.repositoryPath(canonical), pkg))
  {
  }

  /** A failed mapping dump, or a name the mapping lacks, falls back to the
      name as written. */
  lemma UnmappedRepositoryDirectory(lbl: Label, current: LspUrl, w: Workspace, client: Client, pkg: seq<string>)
    requires lbl.repo.Some? && w.workspaceName != Some(lbl.repo.value.name)
    requires lbl.package == Some(pkg)
    requires RepoMappingForFile(w, current, client).None?
      || MappingGet(RepoMappingForFile(w, current, client).value, lbl.repo.value.name).None?
    ensures ResolveFolder(lbl, current, Some(w), client) == Success(Join(w.repositoryPath(lbl.repo.value.name), pkg))
  {
  }

  /** Without a repository, a package resolves under the document's own
      repository when the workspace knows it, else under the workspace root. */
  lemma DocumentRepositoryDirectory(lbl: Label, current: LspUrl, w: Workspace, client: Client, pkg: seq<string>)
    requires lbl.repo.None? && lbl.package == Some(pkg)
    ensures w.repositoryForUrl(current).Some? ==>
      ResolveFolder(lbl, current, Some(w), client) == Success(Join(w.repositoryPath(w.repositoryForUrl(current).value), pkg))
    ensures w.repositoryForUrl(current).None? ==>
      ResolveFolder(lbl, current, Some(w), client) == Success(Join(w.root, pkg))
  {
  }

  /** A package-less label ignores the workspace and the client entirely,
      unless its repository cannot be looked up for lack of a workspace. */
  lemma PackagelessIgnoresWorkspace(lbl: Label, current: LspUrl, ws1: Option<Workspace>, ws2: Option<Workspace>, c1: Client, c2: Client)
    requires lbl.package.None?
    requires lbl.repo.None? || (ws1.Some? && ws2.Some?)
    ensures ResolveFolder(lbl, current, ws1, c1) == ResolveFolder(lbl, current, ws2, c2)
  {
  }
}
