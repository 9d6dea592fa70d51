/** Completion of partially typed label text (`get_string_completion_options`,
    `get_filesystem_entries`, `query_buildable_targets`). */
module Completion {
  import opened Wrappers
  import opened Paths
  import opened Types
  import opened Strings
  import opened Resolve

  /** Where the string being completed appears: a `load` path or any other string. */
  datatype StringCompletionType = LoadPath | PlainString

  /** `CompletionItemKind`: repository (MODULE), directory (FOLDER), file (FILE), target (PROPERTY). */
  datatype CompletionKind = Module | Folder | FileItem | Property

  /** One candidate: shown value, text to insert, and the byte offset into the
      typed string at which the insertion text is spliced. */
  datatype StringCompletionResult = StringCompletionResult(value: string, insertText: string, insertTextOffset: nat, kind: CompletionKind)

  datatype FileCompletion = AllFiles | OnlyLoadable | NoFiles

  /** `FilesystemCompletionOptions`. */
  datatype Options = Options(directories: bool, files: FileCompletion, targets: bool)

  /** `FilesystemCompletionRoot`: an already resolved directory, or label text to resolve. */
  datatype CompletionRoot = RootPath(path: Path) | RootText(text: string)

  // ---------------------------------------------------------------------------
  // Classification of the typed text

  /** Repository names are offered for the empty text, `@`, an `@name`
      without `/`, and a bare word with neither `/` nor `:`. */
  predicate OfferRepositoryNames(s: string) {
    |s| == 0 || s == "@" || (StartsWith(s, '@') && '/' !in s) || ('/' !in s && ':' !in s)
  }

  /** Directories are completed once past the repository part and before any `:`. */
  predicate CompleteDirectories(s: string) {
    (!StartsWith(s, '@') || ContainsDoubleSlash(s)) && ':' !in s
  }

  /** Files are completed once past the repository part, unless a directory is being typed. */
  predicate CompleteFilenames(s: string) {
    (!StartsWith(s, '@') || ContainsDoubleSlash(s)) && ('/' !in s || ':' in s)
  }

  /** Targets are completed in plain strings wherever files are. */
  predicate CompleteTargets(kind: StringCompletionType, s: string) {
    kind == PlainString && CompleteFilenames(s)
  }

  /** Which files to list: only loadable ones in a `load` path (whatever the
      filename flag says), all or none in a plain string. */
  function FileOptions(kind: StringCompletionType, filenames: bool): (r: FileCompletion)
    ensures r == OnlyLoadable <==> kind == LoadPath
    ensures r == NoFiles <==> kind == PlainString && !filenames
  {
    match kind
    case LoadPath => OnlyLoadable
    case PlainString => if filenames then AllFiles else NoFiles
  }

  function OptionsFor(kind: StringCompletionType, s: string): (r: Options)
    ensures r.targets <==> kind == PlainString && CompleteFilenames(s)
    ensures r.directories == CompleteDirectories(s)
    ensures r.files == FileOptions(kind, CompleteFilenames(s))
  {
    Options(CompleteDirectories(s), FileOptions(kind, CompleteFilenames(s)), CompleteTargets(kind, s))
  }

  /** The separator whose last occurrence ends the completion root. */
  function Separator(s: string): char {
    if CompleteDirectories(s) then '/' else ':'
  }

  /** The typed text the candidates are rendered after: empty in the
      ambiguous bare-word case, otherwise everything up to and including the
      last separator. */
  function BaseText(s: string): (b: string)
    ensures IsPrefix(b, s)
    ensures b == "" || EndsWith(b, Separator(s))
    ensures !(CompleteDirectories(s) && CompleteFilenames(s)) ==>
      forall j :: |b| <= j < |s| ==> s[j] != Separator(s)
    ensures !(CompleteDirectories(s) && CompleteFilenames(s)) && Separator(s) in s ==> b != ""
  {
    if CompleteDirectories(s) && CompleteFilenames(s) then ""
    else
      match LastIndexOf(s, Separator(s))
      case Some(i) => s[..i + 1]
      case None => ""
  }

  /** The completion root: the document's directory in the ambiguous case,
      otherwise the base text (nothing when it has no separator). */
  function CompletionRootFor(doc: LspUrl, s: string): (r: Option<CompletionRoot>)
    ensures CompleteDirectories(s) && CompleteFilenames(s) ==>
      (r.Some? <==> Parent(doc.path).Some?) && (r.Some? ==> r.value == RootPath(Parent(doc.path).value))
    ensures !(CompleteDirectories(s) && CompleteFilenames(s)) ==>
      (r.Some? <==> Separator(s) in s) && (r.Some? ==> r.value == RootText(BaseText(s)))
  {
    if CompleteDirectories(s) && CompleteFilenames(s) then
      match Parent(doc.path)
      case Some(dir) => Some(RootPath(dir))
      case None => None
    else
      match LastIndexOf(s, Separator(s))
      case Some(i) => Some(RootText(s[..i + 1]))
      case None => None
  }

  // ---------------------------------------------------------------------------
  // Candidates

  /** The text a candidate is rendered after. */
  function RenderBase(root: CompletionRoot): string {
    match root
    case RootPath(_) => ""
    case RootText(t) => t
  }

  /** The separator a candidate's insertion needs after `base` so that the
      spliced text has exactly one `sep` before the value; none after an
      empty base or one already ending in `sep`. */
  function Glue(base: string, sep: char): (g: string)
    ensures g == "" || g == [sep]
    ensures base + g == "" || EndsWith(base + g, sep)
    ensures g == "" <==> base == "" || EndsWith(base, sep)
  {
    if base == "" || EndsWith(base, sep) then "" else [sep]
  }

  /** Target insertions always need a `:`, even after an empty base. */
  function TargetGlue(base: string): (g: string)
    ensures g == "" || g == ":"
    ensures EndsWith(base + g, ':')
    ensures g == ":" ==> !EndsWith(base, ':')
  {
    if EndsWith(base, ':') then "" else ":"
  }

  /** The shape every filesystem candidate has relative to its base text. */
  predicate WellPlaced(c: StringCompletionResult, base: string) {
    && c.insertTextOffset == Utf8Length(base)
    && match c.kind
       case Folder => c.insertText == Glue(base, '/') + c.value
       case FileItem => c.insertText == Glue(base, ':') + c.value
       case Property => c.insertText == TargetGlue(base) + c.value
       case Module => false
  }

  /** The candidate is one the directory entry `e` may yield under `opts`. */
  predicate FromEntry(c: StringCompletionResult, dir: Path, e: Entry, opts: Options, fileType: Path -> FileType) {
    match c.kind
    case Folder => e.kind == Directory && opts.directories && c.value == e.name
    case FileItem =>
      && e.kind == RegularFile && fileType(Join(dir, [e.name])) != Build && c.value == e.name
      && opts.files != NoFiles && (opts.files == OnlyLoadable ==> fileType(Join(dir, [e.name])) == Library)
    case Property => e.kind == RegularFile && fileType(Join(dir, [e.name])) == Build && opts.targets
    case Module => false
  }

  /** The query prefix for a package: the base text with a `:` appended
      unless it already ends in one — the shortest extension ending in `:`. */
  function TargetPrefix(base: string): (r: string)
    ensures IsPrefix(base, r) && EndsWith(r, ':') && |r| <= |base| + 1
    ensures EndsWith(base, ':') ==> r == base
  {
    base + TargetGlue(base)
  }

  /** The query output lines that start with `prefix`, with the prefix removed, in order. */
  function StripPrefixes(lines: seq<string>, prefix: string): (r: seq<string>)
    ensures |r| <= |lines|
    ensures forall t :: t in r ==> prefix + t in lines
    ensures forall l :: l in lines && IsPrefix(prefix, l) ==> l[|prefix|..] in r
    decreases |lines|
  {
    if |lines| == 0 then []
    else
      var rest := StripPrefixes(lines[1..], prefix);
      assert forall l :: l in lines[1..] ==> l in lines;
      assert forall l :: l in lines ==> l == lines[0] || l in lines[1..];
      match Strings.StripPrefix(lines[0], prefix)
      case Some(t) => [t] + rest
      case None => rest
  }

  /** `query_buildable_targets`: the target names the build tool lists for
      `prefix*`; nothing without a workspace or when the query fails. */
  function QueryBuildableTargets(prefix: string, ws: Option<Workspace>, client: Client): (r: Option<seq<string>>)
    ensures ws.None? ==> r.None?
    ensures ws.Some? ==> (r.None? <==> client.query(ws.value, prefix + "*").None?)
    ensures r.Some? ==> forall t :: t in r.value ==> prefix + t in client.query(ws.value, prefix + "*").value
    ensures r.Some? ==> forall l :: l in client.query(ws.value, prefix + "*").value && IsPrefix(prefix, l) ==>
      l[|prefix|..] in r.value
  {
    if ws.None? then None
    else
      match client.query(ws.value, prefix + "*")
      case None => None
      case Some(lines) => Some(StripPrefixes(lines, prefix))
  }

  /** One target candidate per target name. */
  function TargetCandidates(targets: seq<string>, base: string): (r: seq<StringCompletionResult>)
    ensures |r| == |targets|
    ensures forall i :: 0 <= i < |r| ==> r[i].value == targets[i] && r[i].kind == Property && WellPlaced(r[i], base)
  {
    seq(|targets|, i requires 0 <= i < |targets| =>
      StringCompletionResult(targets[i], TargetGlue(base) + targets[i], Utf8Length(base), Property))
  }

  /** The candidates one directory entry yields: a folder, a file, the
      targets of a build file, or nothing. */
  function EntryCandidates(dir: Path, e: Entry, base: string, ws: Option<Workspace>, opts: Options, client: Client, fileType: Path -> FileType)
    : (r: seq<StringCompletionResult>)
    ensures forall c :: c in r ==> WellPlaced(c, base) && FromEntry(c, dir, e, opts, fileType)
    ensures e.kind == Directory && opts.directories ==>
      r == [StringCompletionResult(e.name, Glue(base, '/') + e.name, Utf8Length(base), Folder)]
    ensures (&& e.kind == RegularFile && fileType(Join(dir, [e.name])) != Build && opts.files != NoFiles
             && (opts.files == OnlyLoadable ==> fileType(Join(dir, [e.name])) == Library)) ==>
      r == [StringCompletionResult(e.name, Glue(base, ':') + e.name, Utf8Length(base), FileItem)]
    ensures (&& e.kind == RegularFile && fileType(Join(dir, [e.name])) == Build && opts.targets
             && QueryBuildableTargets(TargetPrefix(base), ws, client).Some?) ==>
      var ts := QueryBuildableTargets(TargetPrefix(base), ws, client).value;
      |r| == |ts| && forall i :: 0 <= i < |ts| ==> r[i].value == ts[i]
    ensures (&& e.kind == RegularFile && fileType(Join(dir, [e.name])) == Build
             && (!opts.targets || QueryBuildableTargets(TargetPrefix(base), ws, client).None?)) ==> r == []
    ensures e.kind == Neither || (e.kind == Directory && !opts.directories) ==> r == []
  {
    var path := Join(dir, [e.name]);
    if e.kind == Directory && opts.directories then
      [StringCompletionResult(e.name, Glue(base, '/') + e.name, Utf8Length(base), Folder)]
    else if e.kind == RegularFile then
      if fileType(path) == Build then
        if opts.targets then
          match QueryBuildableTargets(TargetPrefix(base), ws, client)
          case Some(targets) => TargetCandidates(targets, base)
          case None => []
        else []
      else if opts.files == NoFiles then []
      else if opts.files == OnlyLoadable && fileType(path) != Library then []
      else [StringCompletionResult(e.name, Glue(base, ':') + e.name, Utf8Length(base), FileItem)]
    else []
  }

  /** The candidates of a whole directory listing, entry by entry in listing order. */
  function EntriesCandidates(dir: Path, es: seq<Entry>, base: string, ws: Option<Workspace>, opts: Options, client: Client, fileType: Path -> FileType)
    : (r: seq<StringCompletionResult>)
    ensures forall c :: c in r ==> WellPlaced(c, base)
    ensures forall c :: c in r ==> exists i :: 0 <= i < |es| && FromEntry(c, dir, es[i], opts, fileType)
    ensures forall c :: c in r ==> exists i :: 0 <= i < |es| && c in EntryCandidates(dir, es[i], base, ws, opts, client, fileType)
    decreases |es|
  {
    if |es| == 0 then []
    else
      var head := EntryCandidates(dir, es[0], base, ws, opts, client, fileType);
      var rest := EntriesCandidates(dir, es[1..], base, ws, opts, client, fileType);
      assert forall c :: c in rest ==> exists i :: 1 <= i < |es| && c in EntryCandidates(dir, es[i], base, ws, opts, client, fileType) by {
        forall c | c in rest
          ensures exists i :: 1 <= i < |es| && c in EntryCandidates(dir, es[i], base, ws, opts, client, fileType)
        {
          var k :| 0 <= k < |es[1..]| && c in EntryCandidates(dir, es[1..][k], base, ws, opts, client, fileType);
          assert es[1..][k] == es[k + 1];
        }
      }
      head + rest
  }

  /** Every candidate of every entry is among the listing's candidates. */
  lemma {:induction false} EntriesCandidatesComplete(dir: Path, es: seq<Entry>, base: string, ws: Option<Workspace>, opts: Options, client: Client, fileType: Path -> FileType, i: nat)
    requires i < |es|
    ensures forall c :: c in EntryCandidates(dir, es[i], base, ws, opts, client, fileType) ==>
      c in EntriesCandidates(dir, es, base, ws, opts, client, fileType)
    decreases |es|
  {
    if i > 0 {
      assert es[1..][i - 1] == es[i];
      EntriesCandidatesComplete(dir, es[1..], base, ws, opts, client, fileType, i - 1);
    }
  }

  /** A candidate belongs to a listing exactly when some entry of it yields that candidate. */
  lemma {:induction false} EntriesCandidatesExact(dir: Path, es: seq<Entry>, base: string, ws: Option<Workspace>, opts: Options, client: Client, fileType: Path -> FileType,
                                                  c: StringCompletionResult)
    ensures c in EntriesCandidates(dir, es, base, ws, opts, client, fileType) <==>
      exists i :: 0 <= i < |es| && c in EntryCandidates(dir, es[i], base, ws, opts, client, fileType)
  {
    if i :| 0 <= i < |es| && c in EntryCandidates(dir, es[i], base, ws, opts, client, fileType) {
      EntriesCandidatesComplete(dir, es, base, ws, opts, client, fileType, i);
    }
  }

  /** A target candidate of a listing names a target the build tool
      returned for the base's package: none exists when the query fails. */
  lemma {:induction false} TargetCandidatesQueried(dir: Path, es: seq<Entry>, base: string, ws: Option<Workspace>, opts: Options, client: Client, fileType: Path -> FileType)
    ensures forall c :: c in EntriesCandidates(dir, es, base, ws, opts, client, fileType) && c.kind == Property ==>
      && QueryBuildableTargets(TargetPrefix(base), ws, client).Some?
      && c.value in QueryBuildableTargets(TargetPrefix(base), ws, client).value
  {
    forall c | c in EntriesCandidates(dir, es, base, ws, opts, client, fileType) && c.kind == Property
      ensures QueryBuildableTargets(TargetPrefix(base), ws, client).Some?
      ensures c.value in QueryBuildableTargets(TargetPrefix(base), ws, client).value
    {
      var i :| 0 <= i < |es| && c in EntryCandidates(dir, es[i], base, ws, opts, client, fileType);
      var r := EntryCandidates(dir, es[i], base, ws, opts, client, fileType);
      var k :| 0 <= k < |r| && r[k] == c;
      var ts := QueryBuildableTargets(TargetPrefix(base), ws, client).value;
      assert r[k].value == ts[k];
    }
  }

  /** Lists a directory; a directory that cannot be read fails the request. */
  function ListDirectory(dir: Path, base: string, ws: Option<Workspace>, opts: Options, client: Client, host: Host)
    : (r: Result<seq<StringCompletionResult>, Error>)
    ensures r.Failure? <==> dir !in host.fs.listing
    ensures r.Failure? ==> r.error == ReadDirFailed(dir)
    ensures r.Success? ==> r.value == EntriesCandidates(dir, host.fs.listing[dir], base, ws, opts, client, host.fileType)
  {
    if dir in host.fs.listing then
      Success(EntriesCandidates(dir, host.fs.listing[dir], base, ws, opts, client, host.fileType))
    else Failure(ReadDirFailed(dir))
  }

  /** `get_filesystem_entries`: resolves the completion root to a directory
      and turns its entries into candidates. Label and resolution errors
      propagate. */
  function GetFilesystemEntries(from: CompletionRoot, current: LspUrl, ws: Option<Workspace>, opts: Options, client: Client, host: Host)
    : (r: Result<seq<StringCompletionResult>, Error>)
    ensures r.Success? ==> forall c :: c in r.value ==> WellPlaced(c, RenderBase(from))
    ensures from.RootPath? ==> r == ListDirectory(from.path, "", ws, opts, client, host)
    ensures from.RootText? && host.parseLabel(from.text).None? ==> r == Failure(InvalidLabel(from.text))
    ensures from.RootText? && host.parseLabel(from.text).Some? ==>
      var folder := ResolveFolder(host.parseLabel(from.text).value, current, ws, client);
      && (folder.Failure? ==> r == Failure(ResolveFailed(folder.error)))
      && (folder.Success? ==> r == ListDirectory(folder.value, from.text, ws, opts, client, host))
  {
    match from
    case RootPath(p) => ListDirectory(p, "", ws, opts, client, host)
    case RootText(t) =>
      match host.parseLabel(t)
      case None => Failure(InvalidLabel(t))
      case Some(lbl) =>
        match ResolveFolder(lbl, current, ws, client)
        case Failure(e) => Failure(ResolveFailed(e))
        case Success(folder) => ListDirectory(folder, t, ws, opts, client, host)
  }

  // ---------------------------------------------------------------------------
  // Repository names

  /** The non-empty apparent names of a repository mapping, in order. */
  function MappingNames(mapping: RepoMapping): (r: seq<string>)
    ensures forall n :: n in r ==> n != "" && exists i :: 0 <= i < |mapping| && mapping[i].0 == n
    ensures forall i :: 0 <= i < |mapping| && mapping[i].0 != "" ==> mapping[i].0 in r
    ensures forall i, j :: 0 <= i < j < |r| ==> r[i] != r[j]
    decreases |mapping|
  {
    if |mapping| == 0 then []
    else
      var rest := MappingNames(mapping[1..]);
      assert forall i :: 1 <= i < |mapping| ==> mapping[i] == mapping[1..][i - 1];
      assert forall k :: 0 <= k < |mapping[1..]| ==> mapping[1..][k].0 != mapping[0].0;
      assert forall j :: 0 <= j < |rest| ==> rest[j] != mapping[0].0 by {
        forall j | 0 <= j < |rest|
          ensures rest[j] != mapping[0].0
        {
          assert rest[j] in rest;
        }
      }
      if mapping[0].0 != "" then [mapping[0].0] + rest else rest
  }

  /** The repository names offered: the mapping's names when the mapping
      could be dumped, otherwise the workspace's own list. */
  function RepositoryNames(w: Workspace, mapping: Option<RepoMapping>): seq<string> {
    match mapping
    case Some(m) => MappingNames(m)
    case None => w.repositoryNames
  }

  /** `@name` candidates inserting `@name//` over the whole typed text. */
  function RepositoryCandidates(names: seq<string>): (r: seq<StringCompletionResult>)
    ensures |r| == |names|
    ensures forall i :: 0 <= i < |r| ==>
      r[i].kind == Module && r[i].insertTextOffset == 0
      && r[i].value == "@" + names[i] && r[i].insertText == r[i].value + "//"
  {
    seq(|names|, i requires 0 <= i < |names| =>
      StringCompletionResult("@" + names[i], "@" + names[i] + "//", 0, Module))
  }

  // ---------------------------------------------------------------------------
  // The request

  /** The repository candidates of a request. */
  function RequestRepositoryCandidates(doc: LspUrl, s: string, ws: Option<Workspace>, client: Client): (r: seq<StringCompletionResult>)
    ensures !OfferRepositoryNames(s) || ws.None? ==> r == []
    ensures forall c :: c in r ==> c.kind == Module && c.insertTextOffset == 0
    ensures OfferRepositoryNames(s) && ws.Some? && RepoMappingForFile(ws.value, doc, client).Some? ==>
      var names := MappingNames(RepoMappingForFile(ws.value, doc, client).value);
      |r| == |names| && forall i :: 0 <= i < |names| ==>
        r[i] == StringCompletionResult("@" + names[i], "@" + names[i] + "//", 0, Module)
    ensures OfferRepositoryNames(s) && ws.Some? && RepoMappingForFile(ws.value, doc, client).None? ==>
      var names := ws.value.repositoryNames;
      |r| == |names| && forall i :: 0 <= i < |names| ==>
        r[i] == StringCompletionResult("@" + names[i], "@" + names[i] + "//", 0, Module)
  {
    if OfferRepositoryNames(s) && ws.Some? then
      RepositoryCandidates(RepositoryNames(ws.value, RepoMappingForFile(ws.value, doc, client)))
    else []
  }

  /** `get_string_completion_options`: repository candidates, followed by
      the candidates of the completion root when directories or files are
      being completed. Filesystem and resolution errors propagate. */
  function GetStringCompletionOptions(doc: LspUrl, kind: StringCompletionType, s: string, ws: Option<Workspace>, client: Client, host: Host)
    : (r: Result<seq<StringCompletionResult>, Error>)
    ensures r.Success? ==> forall c :: c in r.value && c.kind == Module ==>
      OfferRepositoryNames(s) && ws.Some? && c.insertTextOffset == 0 && c.insertText == c.value + "//"
    ensures r.Success? ==> forall c :: c in r.value && c.kind != Module ==>
      (CompleteDirectories(s) || CompleteFilenames(s)) && WellPlaced(c, BaseText(s))
    ensures !CompleteDirectories(s) && !CompleteFilenames(s) ==>
      r == Success(RequestRepositoryCandidates(doc, s, ws, client))
    ensures r.Success? ==> RequestRepositoryCandidates(doc, s, ws, client) <= r.value
    ensures (CompleteDirectories(s) || CompleteFilenames(s)) && CompletionRootFor(doc, s).Some? ==>
      var entries := GetFilesystemEntries(CompletionRootFor(doc, s).value, doc, ws, OptionsFor(kind, s), client, host);
      && (entries.Failure? ==> r == Failure(entries.error))
      && (entries.Success? ==> r.Success? && forall c :: c in entries.value ==> c in r.value)
    ensures (CompleteDirectories(s) || CompleteFilenames(s)) && CompletionRootFor(doc, s).None? ==>
      r == Success(RequestRepositoryCandidates(doc, s, ws, client))
    ensures r.Success? ==> forall c :: c in r.value ==>
      || c in RequestRepositoryCandidates(doc, s, ws, client)
      || ((CompleteDirectories(s) || CompleteFilenames(s)) && CompletionRootFor(doc, s).Some? &&
          var entries := GetFilesystemEntries(CompletionRootFor(doc, s).value, doc, ws, OptionsFor(kind, s), client, host);
          entries.Success? && c in entries.value)
  {
    var names := RequestRepositoryCandidates(doc, s, ws, client);
    if CompleteDirectories(s) || CompleteFilenames(s) || CompleteTargets(kind, s) then
      match CompletionRootFor(doc, s)
      case None => Success(names)
      case Some(root) =>
        match GetFilesystemEntries(root, doc, ws, OptionsFor(kind, s), client, host)
        case Failure(e) => Failure(e)
        case Success(entries) =>
          assert RenderBase(root) == BaseText(s);
          Success(names + entries)
    else Success(names)
  }
}

/** Properties of the completion classifier and of whole requests. */
module CompletionProperties {
  import opened Wrappers
  import opened Paths
  import opened Types
  import opened Strings
  import opened Resolve
  import opened Completion

  /** Directories and files are both completed exactly when the text has no
      `/`, no `:` and does not start with `@` — the ambiguous bare word. */
  lemma BothEnabledIff(s: string)
    ensures CompleteDirectories(s) && CompleteFilenames(s) <==> '/' !in s && ':' !in s && !StartsWith(s, '@')
  {
    if ContainsDoubleSlash(s) {
      DoubleSlashHasSlash(s);
    }
  }

  /** While the repository name is still being typed (`@foo`, `@foo/`),
      nothing but repository names is completed. */
  lemma StillTypingRepository(s: string)
    requires StartsWith(s, '@') && !ContainsDoubleSlash(s)
    ensures !CompleteDirectories(s) && !CompleteFilenames(s)
    ensures !CompleteTargets(LoadPath, s) && !CompleteTargets(PlainString, s)
  {
  }

  /** The two cases named in the source's comment. */
  lemma RepositoryPrefixExamples()
    ensures !CompleteDirectories("@foo") && !CompleteFilenames("@foo")
    ensures !CompleteDirectories("@foo/") && !CompleteFilenames("@foo/")
  {
    var s := "@foo/";
    assert !ContainsDoubleSlash(s) by {
      forall i | 0 <= i < |s| - 1
        ensures !(s[i] == '/' && s[i + 1] == '/')
      {
      }
    }
    StillTypingRepository("@foo");
    StillTypingRepository(s);
  }

  /** When exactly one of directories and files is completed, the text holds
      the separator, so the completion root is always found. */
  lemma RootExistsWhenSeparated(doc: LspUrl, s: string)
    requires CompleteDirectories(s) != CompleteFilenames(s)
    ensures Separator(s) in s
    ensures CompletionRootFor(doc, s).Some? && CompletionRootFor(doc, s).value.RootText?
  {
  }

  /** Once the text starts with `@` and holds a `/`, no repository name is offered. */
  lemma NoRepositoryNamesAfterSlash(doc: LspUrl, kind: StringCompletionType, s: string, ws: Option<Workspace>, client: Client, host: Host)
    requires StartsWith(s, '@') && '/' in s
    ensures var r := GetStringCompletionOptions(doc, kind, s, ws, client, host);
      r.Success? ==> forall c :: c in r.value ==> c.kind != Module
  {
  }

  /** Typing `@name` without a `/` lists repository names; when the mapping
      dump fails the workspace's own repository list is used instead, and the
      request still succeeds. */
  lemma RepositoryListFallback(doc: LspUrl, kind: StringCompletionType, s: string, w: Workspace, client: Client, host: Host)
    requires StartsWith(s, '@') && '/' !in s
    requires RepoMappingForFile(w, doc, client).None?
    ensures GetStringCompletionOptions(doc, kind, s, Some(w), client, host) == Success(RepositoryCandidates(w.repositoryNames))
  {
    assert !ContainsDoubleSlash(s) by {
      if ContainsDoubleSlash(s) {
        DoubleSlashHasSlash(s);
      }
    }
  }

  /** Typing `@name` without a `/` offers every non-empty apparent name of the
      dumped mapping as `@name`, inserting `@name//` over the whole text. */
  lemma {:induction false} RepositoryNameOffered(doc: LspUrl, kind: StringCompletionType, s: string, w: Workspace, client: Client, host: Host,
                                                  m: RepoMapping, n: string)
    requires StartsWith(s, '@') && '/' !in s
    requires RepoMappingForFile(w, doc, client) == Some(m)
    requires n != "" && exists i :: 0 <= i < |m| && m[i].0 == n
    ensures var r := GetStringCompletionOptions(doc, kind, s, Some(w), client, host);
      r.Success? && StringCompletionResult("@" + n, "@" + n + "//", 0, Module) in r.value
  {
    assert !ContainsDoubleSlash(s) by {
      if ContainsDoubleSlash(s) {
        DoubleSlashHasSlash(s);
      }
    }
    var names := MappingNames(m);
    assert n in names;
    var k :| 0 <= k < |names| && names[k] == n;
    var cs := RequestRepositoryCandidates(doc, s, Some(w), client);
    assert cs[k] == StringCompletionResult("@" + n, "@" + n + "//", 0, Module);
    assert GetStringCompletionOptions(doc, kind, s, Some(w), client, host) == Success(cs);
  }

  /** When the text names a directory, every candidate of that directory's
      listing is in the answer. */
  lemma {:induction false} RequestIncludesDirectoryCandidates(doc: LspUrl, kind: StringCompletionType, s: string, ws: Option<Workspace>, client: Client, host: Host,
                                                               lbl: Label, dir: Path)
    requires CompleteDirectories(s) != CompleteFilenames(s)
    requires host.parseLabel(BaseText(s)) == Some(lbl)
    requires ResolveFolder(lbl, doc, ws, client) == Success(dir)
    requires dir in host.fs.listing
    ensures var r := GetStringCompletionOptions(doc, kind, s, ws, client, host);
      var entries := EntriesCandidates(dir, host.fs.listing[dir], BaseText(s), ws, OptionsFor(kind, s), client, host.fileType);
      r.Success? && forall c :: c in entries ==> c in r.value
  {
    RootExistsWhenSeparated(doc, s);
    assert CompletionRootFor(doc, s) == Some(RootText(BaseText(s)));
  }

  /** In the ambiguous bare-word case, every candidate of the document's own
      directory is in the answer. */
  lemma {:induction false} RequestIncludesDocumentDirectoryCandidates(doc: LspUrl, kind: StringCompletionType, s: string, ws: Option<Workspace>, client: Client, host: Host,
                                                                       dir: Path)
    requires CompleteDirectories(s) && CompleteFilenames(s)
    requires Parent(doc.path) == Some(dir) && dir in host.fs.listing
    ensures var r := GetStringCompletionOptions(doc, kind, s, ws, client, host);
      var entries := EntriesCandidates(dir, host.fs.listing[dir], "", ws, OptionsFor(kind, s), client, host.fileType);
      r.Success? && forall c :: c in entries ==> c in r.value
  {
    assert CompletionRootFor(doc, s) == Some(RootPath(dir));
  }

  /** Completing `@repo//` lists the repository's directory: a subdirectory
      is offered as itself, inserted after the typed text. */
  lemma {:induction false} RepositoryRootFolderCompletion(doc: LspUrl, kind: StringCompletionType, s: string, ws: Option<Workspace>, client: Client, host: Host,
                                                           lbl: Label, dir: Path, i: nat)
    requires StartsWith(s, '@') && ContainsDoubleSlash(s) && EndsWith(s, '/') && ':' !in s
    requires host.parseLabel(s) == Some(lbl)
    requires ResolveFolder(lbl, doc, ws, client) == Success(dir)
    requires dir in host.fs.listing && i < |host.fs.listing[dir]|
    requires host.fs.listing[dir][i].kind == Directory
    ensures GetStringCompletionOptions(doc, kind, s, ws, client, host).Success?
    ensures var name := host.fs.listing[dir][i].name;
      StringCompletionResult(name, name, Utf8Length(s), Folder) in GetStringCompletionOptions(doc, kind, s, ws, client, host).value
  {
    assert CompleteDirectories(s) && !CompleteFilenames(s) by {
      DoubleSlashHasSlash(s);
    }
    assert s[|s| - 1] in s;
    assert s[..|s|] == s;
    assert BaseText(s) == s;
    var es := host.fs.listing[dir];
    var name := es[i].name;
    var opts := OptionsFor(kind, s);
    assert Glue(s, '/') + name == name;
    assert EntryCandidates(dir, es[i], s, ws, opts, client, host.fileType)
      == [StringCompletionResult(name, name, Utf8Length(s), Folder)];
    EntriesCandidatesComplete(dir, es, s, ws, opts, client, host.fileType, i);
    RequestIncludesDirectoryCandidates(doc, kind, s, ws, client, host, lbl, dir);
  }

  /** Completing the empty text in a plain string lists the document's own
      directory: a non-build file there is offered as itself, inserted at
      offset 0. */
  lemma EmptyTextListsDocumentDirectory(doc: Path, ws: Option<Workspace>, client: Client, host: Host, dir: Path, i: nat)
    requires Parent(doc) == Some(dir)
    requires dir in host.fs.listing && i < |host.fs.listing[dir]|
    requires host.fs.listing[dir][i].kind == RegularFile
    requires host.fileType(Join(dir, [host.fs.listing[dir][i].name])) != Build
    ensures var r := GetStringCompletionOptions(File(doc), PlainString, "", ws, client, host);
      var name := host.fs.listing[dir][i].name;
      r.Success? && StringCompletionResult(name, name, 0, FileItem) in r.value
  {
    var es := host.fs.listing[dir];
    var name := es[i].name;
    var opts := OptionsFor(PlainString, "");
    assert opts.files == AllFiles;
    assert CompleteDirectories("") && CompleteFilenames("");
    assert CompletionRootFor(File(doc), "") == Some(RootPath(dir));
    var entries := EntriesCandidates(dir, es, "", ws, opts, client, host.fileType);
    assert GetFilesystemEntries(RootPath(dir), File(doc), ws, opts, client, host) == Success(entries);
    var names := RequestRepositoryCandidates(File(doc), "", ws, client);
    assert GetStringCompletionOptions(File(doc), PlainString, "", ws, client, host) == Success(names + entries);
    assert Glue("", ':') + name == name;
    assert Utf8Length("") == 0;
    assert EntryCandidates(dir, es[i], "", ws, opts, client, host.fileType)
      == [StringCompletionResult(name, name, 0, FileItem)];
    EntriesCandidatesComplete(dir, es, "", ws, opts, client, host.fileType, i);
  }

  /** A build file entry with targets enabled yields a candidate for every
      query line that starts with the target prefix. */
  lemma BuildFileTargetCandidate(dir: Path, e: Entry, base: string, w: Workspace, opts: Options, client: Client, fileType: Path -> FileType, line: string)
    requires e.kind == RegularFile && fileType(Join(dir, [e.name])) == Build && opts.targets
    requires client.query(w, TargetPrefix(base) + "*").Some?
    requires line in client.query(w, TargetPrefix(base) + "*").value && IsPrefix(TargetPrefix(base), line)
    ensures var t := line[|TargetPrefix(base)|..];
      StringCompletionResult(t, TargetGlue(base) + t, Utf8Length(base), Property)
        in EntryCandidates(dir, e, base, Some(w), opts, client, fileType)
  {
    var prefix := TargetPrefix(base);
    var ts := QueryBuildableTargets(prefix, Some(w), client).value;
    var t := line[|prefix|..];
    assert t in ts;
    var k :| 0 <= k < |ts| && ts[k] == t;
    var cs := EntryCandidates(dir, e, base, Some(w), opts, client, fileType);
    assert cs == TargetCandidates(ts, base);
    assert cs[k] == StringCompletionResult(t, TargetGlue(base) + t, Utf8Length(base), Property);
  }

  /** Completing `pkg:` in a plain string queries the package's targets with
      the pattern `pkg:*`; every query line starting with `pkg:` yields a
      target candidate with that prefix removed, inserted after the typed
      text. */
  lemma PackageTargetCompletion(doc: LspUrl, s: string, w: Workspace, client: Client, host: Host, lbl: Label, dir: Path, i: nat, line: string)
    requires EndsWith(s, ':') && !StartsWith(s, '@')
    requires host.parseLabel(s) == Some(lbl)
    requires ResolveFolder(lbl, doc, Some(w), client) == Success(dir)
    requires dir in host.fs.listing && i < |host.fs.listing[dir]|
    requires host.fs.listing[dir][i].kind == RegularFile
    requires host.fileType(Join(dir, [host.fs.listing[dir][i].name])) == Build
    requires client.query(w, s + "*").Some? && line in client.query(w, s + "*").value && IsPrefix(s, line)
    ensures GetStringCompletionOptions(doc, PlainString, s, Some(w), client, host).Success?
    ensures StringCompletionResult(line[|s|..], line[|s|..], Utf8Length(s), Property)
      in GetStringCompletionOptions(doc, PlainString, s, Some(w), client, host).value
  {
    assert ':' in s by { assert s[|s| - 1] in s; }
    assert s[..|s|] == s;
    assert !CompleteDirectories(s) && CompleteFilenames(s);
    assert BaseText(s) == s;
    assert TargetPrefix(s) == s && TargetGlue(s) == "";
    var es := host.fs.listing[dir];
    var opts := OptionsFor(PlainString, s);
    var t := line[|s|..];
    assert TargetGlue(s) + t == t;
    BuildFileTargetCandidate(dir, es[i], s, w, opts, client, host.fileType, line);
    EntriesCandidatesComplete(dir, es, s, Some(w), opts, client, host.fileType, i);
    RequestIncludesDirectoryCandidates(doc, PlainString, s, Some(w), client, host, lbl, dir);
  }

  /** An unknown repository is not skipped by completion: without a workspace,
      completing under `@name//` fails with `UnknownRepository`. */
  lemma CompletionPropagatesUnknownRepository(doc: LspUrl, kind: StringCompletionType, s: string, client: Client, host: Host, lbl: Label)
    requires CompleteDirectories(s) != CompleteFilenames(s)
    requires host.parseLabel(BaseText(s)) == Some(lbl) && lbl.repo.Some?
    ensures GetStringCompletionOptions(doc, kind, s, None, client, host)
      == Failure(ResolveFailed(UnknownRepository(lbl, lbl.repo.value.name)))
  {
    RootExistsWhenSeparated(doc, s);
  }
}
