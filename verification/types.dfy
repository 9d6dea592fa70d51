/** The values the resolver works on: labels, document URLs, the workspace
    snapshot, the build-tool client, the filesystem and the error kinds of
    `src/bazel.rs`. Collaborators whose code is not part of this model
    (label parsing, file classification, the workspace's repository tables,
    the build-tool process) are function-valued fields. */
module Types {
  import opened Wrappers
  import opened Paths

  /** The repository part of a label, `@name`. */
  datatype Repository = Repository(name: string)

  /** A parsed label: optional repository, optional package (its directory
      components) and the target name. */
  datatype Label = Label(repo: Option<Repository>, package: Option<seq<string>>, name: string)

  /** A document location as the language server sees it; only `File` is a
      filesystem location. Every variant has a path (`LspUrl::path`). */
  datatype LspUrl = File(path: Path) | Starlark(path: Path) | Other(path: Path)

  /** No apparent name is listed twice. */
  predicate DistinctKeys(m: seq<(string, string)>) {
    forall i, j :: 0 <= i < j < |m| ==> m[i].0 != m[j].0
  }

  /** The apparent-to-canonical repository name table, in the order the
      build tool lists it; a name absent from it maps to itself. Like the
      hash map it stands for, it holds each apparent name at most once. */
  type RepoMapping = m: seq<(string, string)> | DistinctKeys(m)

  /** A snapshot of one build workspace (`BazelWorkspace`). `repositoryPath` is
      total: every name is given a directory, known to the tool or not. */
  datatype Workspace = Workspace(
    root: Path,
    workspaceName: Option<string>,
    repositoryForUrl: LspUrl -> Option<string>,
    repositoryPath: string -> Path,
    repositoryForPath: Path -> Option<(string, Path)>,
    repositoryNames: seq<string>)

  /** The build-tool process (`BazelClient`); `None` is a failed call.
      `query` yields the lines of the query output. */
  datatype Client = Client(
    info: Path -> Option<Workspace>,
    query: (Workspace, string) -> Option<seq<string>>,
    dumpRepoMapping: (Workspace, string) -> Option<RepoMapping>)

  /** Classification of a file by its name (`FileType`). */
  datatype FileType = Build | Library | OtherFileType

  /** What a directory entry is: `is_dir()`, `is_file()`, or neither (a dangling link). */
  datatype EntryKind = Directory | RegularFile | Neither

  datatype Entry = Entry(name: string, kind: EntryKind)

  /** The filesystem: the paths that exist, the listing of each readable
      directory, and the contents (read as a path) of each readable file. */
  datatype FileSystem = FileSystem(
    existing: set<Path>,
    listing: map<Path, seq<Entry>>,
    contents: map<Path, Path>)

  /** The environment the context runs in: the filesystem, the file
      classifier, the ordered build-file names and the label parser. */
  datatype Host = Host(
    fs: FileSystem,
    fileType: Path -> FileType,
    buildFileNames: seq<string>,
    parseLabel: string -> Option<Label>)

  /** `ResolveLoadError`. */
  datatype ResolveLoadError =
    | MissingCurrentFilePath(forLabel: Label)
    | WrongScheme(expected: string, url: LspUrl)
    | MissingWorkspaceRoot(forLabel: Label)
    | UnknownRepository(forLabel: Label, repository: string)
    | TargetNotFound(text: string)

  /** `RenderLoadError`. */
  datatype RenderLoadError =
    | MissingTargetFilename(path: Path)
    | RenderWrongScheme(expected: string, target: LspUrl, current: LspUrl)

  /** Any failure an operation propagates with `?`. */
  datatype Error =
    | ResolveFailed(resolveError: ResolveLoadError)
    | InvalidLabel(labelText: string)
    | ReadDirFailed(dir: Path)
    | ReadFailed(file: Path)
    | InfoFailed(workspaceDir: Path)

  const FILE_SCHEME := "file://"
}
