# Bazel label resolution and completion, modelled in Dafny

This project models the label logic of `BazelContext` in the Bazel language
server (`src/bazel.rs`):

- how a label such as `@repo//pkg:name` or `:name` is resolved to a directory
  (`resolve_folder`) and then to an existing file (`resolve_load`);
- the inverse, how a file is rendered as the label a `load` statement uses
  (`render_as_load`);
- how partially typed label text is completed (`get_string_completion_options`,
  `get_filesystem_entries`, `query_buildable_targets`);
- how the workspace that governs a document is found (`infer_workspace_dir`)
  and cached (`workspace`), and `is_workspace_file`.

Everything is a pure function over immutable values, except the workspace
cache, which is a method that takes the cache map and returns the updated one.

Collaborators are abstract:

- The filesystem is a set of existing paths, a listing per readable
  directory, and the contents of readable files.
- Paths are sequences of components: `Parent` drops the last component and
  `FileName` is the last component.
- The workspace snapshot (`BazelWorkspace`) is a record. Its repository
  lookups are function-valued fields. `repositoryPath` is total, as in the
  source.
- The build-tool client (`info`, `query`, `dump_repo_mapping`) is a record of
  partial functions. `None` is a failed call.
- Label parsing, file classification and the ordered build-file names are
  inputs (the `Host` record). They come from `src/label.rs` and
  `src/file_type.rs`, which are not part of this model.

Files, one module per component:

| file | modules |
|---|---|
| `wrappers.dfy` | `Wrappers`: Option, Result |
| `strings.dfy` | `Strings`: `starts_with`, `ends_with`, `contains("//")`, `rfind`, `strip_prefix`, UTF-8 length |
| `paths.dfy` | `Paths`: `Path`, `parent`, `file_name`, `join`, `strip_prefix`, display |
| `types.dfy` | `Types`: labels, URLs, workspace, client, filesystem, error enums |
| `workspaces.dfy` | `Workspaces`: marker search, workspace cache, WORKSPACE files |
| `resolve.dfy` | `Resolve`, `ResolveProperties`: repository mapping, `resolve_folder`, `resolve_load` |
| `render.dfy` | `Render`, `RenderProperties`: `render_as_load` |
| `completion.dfy` | `Completion`, `CompletionProperties`: the completion engine |
| `roundtrip.dfy` | `RoundTrip`: render followed by resolve |

Three facts about the code that the contracts make explicit:

- With a workspace, `UnknownRepository` never occurs, because
  `get_repository_path` is total (src/bazel.rs:278-280): every repository
  name resolves to some directory. `UnknownRepository` occurs only when
  there is no workspace at all (`ResolveFolder`'s first postcondition).
- Completion propagates label and resolution errors with `?`
  (src/bazel.rs:330-331, 749-769); an unknown repository is not skipped.
  See `CompletionProperties.CompletionPropagatesUnknownRepository`.
- The target query pattern is the base text, plus `:` when it does not
  already end in one, plus `*` (src/bazel.rs:358-365, 420).

## Model

| member | source | states |
|---|---|---|
| `Strings.LastIndexOf` | src/bazel.rs:743-746 | `rfind`: the index holds the character and no later index does; none exactly when the character is absent |
| `Workspaces.WorkspaceFileByName` | src/bazel.rs:135-145 | a file is a WORKSPACE file exactly when its last component is `WORKSPACE` or `WORKSPACE.bazel`; non-file documents never are |
| `Workspaces.SearchAncestors` | src/bazel.rs:200-213 | the marker search finds nothing exactly when no strict ancestor holds `DO_NOT_BUILD_HERE`; otherwise the nearest marked ancestor decides: its marker's contents are the root, or reading the marker fails |
| `Workspaces.InferWorkspaceDir` | src/bazel.rs:200-213 | a non-file document has no workspace directory; a file document gets the marker search over all its strict ancestors |
| `Workspaces.GetWorkspace` | src/bazel.rs:170-198 | on a cache hit returns the cached snapshot and leaves the cache alone; on a miss calls `info` once and caches its answer, or fails with the cache unchanged; with no workspace directory returns none; cached entries are never replaced |
| `Resolve.MappingGet` | src/bazel.rs:270-272 | the mapping lookup finds an entry for the name exactly when one is listed |
| `Resolve.RepoMappingForFile` | src/bazel.rs:216-227 | the mapping is dumped for the document's repository, or for `""` when the workspace does not know it |
| `Resolve.Translate` | src/bazel.rs:270-272 | the canonical name is the mapping's entry for the name, or the name itself when there is none; since apparent names are unique, a listed entry determines the result |
| `Resolve.EffectiveMapping` | src/bazel.rs:264-269 | `resolve_folder` uses the dumped mapping of the document's repository; no workspace or a failed dump gives the empty mapping |
| `Resolve.ResolveRoot` | src/bazel.rs:245-291 | fails exactly for a repository without a workspace, with `UnknownRepository`; no root exactly without repository and workspace; without a repository the document's repository directory, else the workspace root; with one the workspace root when the name as written is the workspace name, else the directory of the translated name |
| `Resolve.ResolveFolder` | src/bazel.rs:230-316 | `UnknownRepository` exactly when the label has a repository and there is no workspace; `MissingWorkspaceRoot` exactly when there is no repository, no workspace and a package; a resolved package directory ends with the package; a package-less label resolves to the document's parent, or `MissingCurrentFilePath`, or `WrongScheme` for a non-file document |
| `ResolveProperties.WorkspaceNameBeforeMapping` | src/bazel.rs:264-278 | a repository equal to the workspace name, as written, resolves under the workspace root whatever the mapping says |
| `ResolveProperties.MappedRepositoryDirectory` | src/bazel.rs:264-285 | any other repository with a mapping entry resolves under the directory of its canonical name |
| `ResolveProperties.UnmappedRepositoryDirectory` | src/bazel.rs:264-285 | a failed mapping dump, or a name without an entry, resolves under the directory of the name as written |
| `ResolveProperties.DocumentRepositoryDirectory` | src/bazel.rs:245-259 | without a repository, a package resolves under the document's repository when the workspace knows it, else under the workspace root |
| `ResolveProperties.PackagelessIgnoresWorkspace` | src/bazel.rs:300-315 | a package-less label resolves the same whatever the workspace and client, unless a repository lookup fails for lack of a workspace |
| `Resolve.FirstExisting` | src/bazel.rs:536-543 | returns the first build-file candidate that exists, all earlier ones missing; none exactly when none exists |
| `Resolve.ResolveLoad` | src/bazel.rs:519-546 | returns only existing files; the literally named file wins; otherwise the first existing build file in order; otherwise `TargetNotFound` with the original text; parse and folder errors propagate |
| `Render.RepositoryAndPath` | src/bazel.rs:566-581 | the repository comes from the workspace's reverse lookup; otherwise the path relative to the explicit workspace root with no repository; otherwise the raw path |
| `Render.RenderAsLoad` | src/bazel.rs:548-606 | `WrongScheme` exactly for a non-file target; same-directory files render as `:name`; a rendering starts with `:` exactly in that case and with `@` otherwise; `MissingTargetFilename` only for a path with no components |
| `RenderProperties.RendersKnownRepository` | src/bazel.rs:571-595 | a file of a known repository renders as `@repo//dir:name` with its repository-relative directory |
| `RenderProperties.RendersUnderWorkspaceRoot` | src/bazel.rs:576-595 | without a known repository, a file under the explicit root renders as `@//dir:name` relative to that root |
| `RenderProperties.RendersRawPath` | src/bazel.rs:581-595 | with neither, the raw parent path, leading `/` included, is the package |
| `RoundTrip.SameDirectoryRoundTrip` | src/bazel.rs:556-563 | a file next to the document renders as `:name`, and resolving `:name` from the document returns that file |
| `RoundTrip.RepositoryRoundTrip` | src/bazel.rs:566-595 | a file of another repository renders as `@repo//dir:name`, which resolves back to the file when the repository tables are consistent |
| `Completion.FileOptions` | src/bazel.rs:755-765 | only loadable files in a `load` path, whatever the filename flag; no files exactly in a plain string with filenames off |
| `Completion.OptionsFor` | src/bazel.rs:731-767 | directories exactly when directory completion applies; targets exactly in plain strings with filename completion; files chosen from the kind and the filename flag |
| `Completion.BaseText` | src/bazel.rs:733-748 | the base text is a prefix of the typed text that is empty or ends in the separator, with no separator after it; non-empty whenever the separator occurs |
| `Completion.CompletionRootFor` | src/bazel.rs:733-748 | in the ambiguous case the root is the document's directory; otherwise the root is the base text, and it exists exactly when the separator occurs |
| `Completion.Glue` | src/bazel.rs:343-349 | folder and file insertions get no separator exactly when the base is empty or already ends with it, and one separator otherwise, so the spliced text has exactly one separator before the value |
| `Completion.TargetGlue` | src/bazel.rs:367-374 | target insertions always leave the spliced text ending in `:`, even after an empty base |
| `Completion.TargetPrefix` | src/bazel.rs:358-365 | the query prefix is the shortest extension of the base ending in `:` |
| `Completion.StripPrefixes` | src/bazel.rs:422-427 | every target is a query line minus the prefix; every line with the prefix yields its target |
| `Completion.QueryBuildableTargets` | src/bazel.rs:413-428 | no workspace or a failed query yields no targets; otherwise the targets are exactly the lines with the prefix stripped, queried as `prefix*` |
| `Completion.TargetCandidates` | src/bazel.rs:367-378 | one target candidate per name, in order, well placed after the base |
| `Completion.EntryCandidates` | src/bazel.rs:335-408 | each candidate is well placed and allowed by its entry; a directory gives a folder; a non-build file gives a file when the options admit it; a build file gives only targets, none when targets are off or the query fails; anything else gives nothing |
| `Completion.EntriesCandidates` | src/bazel.rs:335-410 | every candidate of a listing is well placed and is one that some entry of the listing yields |
| `Completion.EntriesCandidatesComplete` | src/bazel.rs:335-410 | every candidate of every entry is among the listing's candidates |
| `Completion.EntriesCandidatesExact` | src/bazel.rs:335-410 | a candidate is in a listing's answer exactly when some entry yields it |
| `Completion.TargetCandidatesQueried` | src/bazel.rs:361-380 | every target candidate is a target the build tool returned for the base's package; a failed query yields none |
| `Completion.ListDirectory` | src/bazel.rs:335-336 | listing fails exactly when the directory cannot be read |
| `Completion.GetFilesystemEntries` | src/bazel.rs:318-411 | every candidate's offset is the byte length of the base, 0 for a document directory; label and resolution errors propagate |
| `Completion.MappingNames` | src/bazel.rs:686-691 | the offered names are exactly the mapping's non-empty names, each offered once |
| `Completion.RepositoryCandidates` | src/bazel.rs:695-708 | each name gives `@name` inserting `@name//` at offset 0 |
| `Completion.RequestRepositoryCandidates` | src/bazel.rs:675-712 | none unless names are offered and a workspace exists; then exactly `@n` inserting `@n//` at offset 0 for each non-empty name of the dumped mapping, in order, or for each of the workspace's repository names when the dump fails |
| `Completion.GetStringCompletionOptions` | src/bazel.rs:666-774 | the repository candidates come first; every filesystem candidate of the completion root is included, or the listing's error is returned; nothing else is returned; every other candidate needs directory or file completion and sits after the base text; with both off, or with no separator to complete from, only repository names are returned |
| `CompletionProperties.BothEnabledIff` | src/bazel.rs:716-734 | directories and files are both completed exactly when the text has no `/`, no `:` and no leading `@` |
| `CompletionProperties.StillTypingRepository` | src/bazel.rs:716-731 | an `@` text without `//` completes no directories, files or targets |
| `CompletionProperties.RepositoryPrefixExamples` | src/bazel.rs:717-718 | `@foo` and `@foo/` enable neither directories nor files |
| `CompletionProperties.RootExistsWhenSeparated` | src/bazel.rs:733-748 | when exactly one of directories and files is completed, the separator is present and a root is found |
| `CompletionProperties.NoRepositoryNamesAfterSlash` | src/bazel.rs:675-678 | text starting with `@` and holding `/` gets no repository candidates |
| `CompletionProperties.RepositoryListFallback` | src/bazel.rs:680-708 | when the mapping dump fails, `@name` lists the workspace's own repository names and the request succeeds |
| `CompletionProperties.RepositoryNameOffered` | src/bazel.rs:896-929 | typing `@name` without `/` offers every non-empty apparent name of the dumped mapping as `@name` inserting `@name//` at offset 0 |
| `CompletionProperties.RequestIncludesDirectoryCandidates` | src/bazel.rs:741-770 | when the base text resolves to a readable directory, every candidate of its listing is in the answer |
| `CompletionProperties.RequestIncludesDocumentDirectoryCandidates` | src/bazel.rs:733-770 | in the bare-word case, every candidate of the document's readable directory is in the answer |
| `CompletionProperties.RepositoryRootFolderCompletion` | src/bazel.rs:932-966 | completing `@repo//` offers each subdirectory of the repository's directory as itself at the byte length of the typed text |
| `CompletionProperties.EmptyTextListsDocumentDirectory` | src/bazel.rs:970-997 | completing the empty text offers a non-build file of the document's directory as itself at offset 0 |
| `CompletionProperties.BuildFileTargetCandidate` | src/bazel.rs:358-378 | a build file with targets on yields a candidate for every query line carrying the prefix |
| `CompletionProperties.PackageTargetCompletion` | src/bazel.rs:1030-1062 | completing `pkg:` queries `pkg:*` and offers each target with the prefix removed, at the byte length of `pkg:` |
| `CompletionProperties.CompletionPropagatesUnknownRepository` | src/bazel.rs:318-329 | without a workspace, completing under `@name//` fails with `UnknownRepository` instead of skipping |

## Left out

- The collaborators are not modelled: `Label::parse`, `FileType::from_path`,
  `FileType::BUILD_FILE_NAMES` and the `BazelWorkspace` lookups. They live in
  files outside this model, so they are inputs.
- `BazelWorkspace::from_bazel_info` is folded into the client's `info`
  function: the cache only sees a workspace or a failure.
- `resolve_load`, `render_as_load` and `get_string_completion_options`
  obtain the workspace through `workspace`. In the model they take the
  obtained workspace as an argument, and `GetWorkspace` models the lookup.
  In `render_as_load` and `get_string_completion_options` an error from
  that lookup propagates before anything else happens. `resolve_load`
  parses the label first (src/bazel.rs:525) and looks up the workspace
  second (src/bazel.rs:526), so an unparsable label reports the parse error
  even when the lookup would also fail.
- `BazelClient::query` output is given already split into lines.
  `str::lines` is not modelled.
- The contents of the `DO_NOT_BUILD_HERE` marker are given as a path.
  Converting the string to a path is not modelled.
- `Url::from_file_path(..).unwrap()` in `resolve_load` is not modelled. It
  panics on relative paths; the model returns the path as a file URL.
- A target name is one path component. Names containing `/` are joined as a
  single component.
- `Path` normalisation is left out: `..`, `.` and repeated separators are
  not interpreted.
- A failing `read_dir` entry (`entry?`) is not modelled. A directory is
  either listed whole or not readable.
- The `HashMap` iteration order of the repository mapping is the order in
  which the client lists it.
- The repository mapping is a `HashMap`, so each apparent name occurs in it
  once. `RepoMapping` is a sequence restricted to distinct apparent names to
  match.
- How many times the build tool is called is not modelled. The client is a
  record of pure functions, so a repeated call is indistinguishable from a
  single one. The call counts the source's tests check for
  `dump_repo_mapping` and `query` (src/bazel.rs:890, 926, 962-964, 1059)
  are therefore not stated.
- The `RefCell`/`Rc` sharing of the cache is not modelled. The cache is a
  map passed in and returned.
- The process is not modelled: `lint_module`, `parse_file_with_contents`,
  the function-call location finder of `resolve_string_literal`,
  `get_load_contents`, `get_bazel_globals`, `try_get_environment`,
  `get_bazel_globals_names`, `get_build_language_proto` and the
  documentation tests. They need the Starlark parser and linter or the
  embedded protobuf catalogs.
- `Strings.Utf8Length`: the offset is the UTF-8 byte length, as `str::len`
  returns. The contract only bounds it between one and four bytes per
  character; `Strings.Utf8LengthAscii` gives the exact value for ASCII text.
