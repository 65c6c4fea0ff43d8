/**
 * The incremental compiler's data, and the simple compiler it must be indistinguishable from: validate every file,
 * write every output, drop what the previous manifest recorded and this run does not produce.
 */
module BuildSpec {
  import opened Options
  import opened Lowering

  /**
   * Everything outside the compiler. A configuration is identified with its hash, which covers all that rendering
   * and output paths depend on; `render` and `renderIndex` include the formatter.
   */
  datatype Tools = Tools(
    parse: string -> Option<seq<NamespaceNode>>,
    hash: string -> string,
    render: (string, NamespaceNode) -> string,
    renderIndex: (string, seq<string>) -> string,
    outPath: (string, string) -> string,
    modelOut: string -> string)

  /** The hash tells texts apart, and outputs do not share paths. */
  ghost predicate ToolsOk(t: Tools) {
    && (forall a, b :: t.hash(a) == t.hash(b) ==> a == b)
    && (forall cfg, a, b :: t.outPath(cfg, a) == t.outPath(cfg, b) ==> a == b)
    && (forall cfg, a :: t.outPath(cfg, a) != t.modelOut(cfg))
  }

  datatype Input = Input(filename: string, source: string)
  datatype ParsedFile = ParsedFile(filename: string, source: string, namespaces: seq<NamespaceNode>)

  datatype Output = Output(path: string, contentHash: string)
  datatype FileEntry = FileEntry(
    sourceHash: string, namespaceNames: seq<string>, visibleNames: seq<string>, outputs: map<string, Output>)
  datatype Manifest = Manifest(configHash: string, files: map<string, FileEntry>, index: Option<Output>)

  /** The generated files and the stored manifest; `None` when it is missing or unreadable. */
  datatype Workspace = Workspace(disk: map<string, string>, manifest: Option<Manifest>)

  function LoadManifest(stored: Option<Manifest>, cfg: string): Manifest {
    if stored.Some? && stored.value.configHash == cfg then stored.value else Manifest(cfg, map[], None)
  }

  // ----- stages 1 and 2 -----

  function ParseAll(t: Tools, inputs: seq<Input>): seq<ParsedFile> {
    if inputs == [] then []
    else
      var before, last := ParseAll(t, inputs[..|inputs| - 1]), inputs[|inputs| - 1];
      match t.parse(last.source)
      case None => before
      case Some(namespaces) => before + [ParsedFile(last.filename, last.source, namespaces)]
  }

  ghost predicate DistinctFiles(inputs: seq<Input>) {
    forall i, j | 0 <= i < j < |inputs| :: inputs[i].filename != inputs[j].filename
  }

  ghost predicate DistinctParsed(parsed: seq<ParsedFile>) {
    forall i, j | 0 <= i < j < |parsed| :: parsed[i].filename != parsed[j].filename
  }

  ghost predicate Parses(t: Tools, inputs: seq<Input>) {
    forall x | x in inputs :: t.parse(x.source).Some?
  }

  /** No namespace name is declared in two files. */
  ghost predicate NoCrossFileDuplicates(parsed: seq<ParsedFile>) {
    forall p, q, a, b | p in parsed && q in parsed && a in p.namespaces && b in q.namespaces && a.name == b.name ::
      p.filename == q.filename
  }

  // ----- stage 3 -----

  function AllNamespaces(parsed: seq<ParsedFile>): seq<NamespaceNode> {
    if parsed == [] then []
    else AllNamespaces(parsed[..|parsed| - 1]) + parsed[|parsed| - 1].namespaces
  }

  function Names(nss: seq<NamespaceNode>): (names: seq<string>)
    ensures |names| == |nss| && forall i | 0 <= i < |nss| :: names[i] == nss[i].name
  {
    seq(|nss|, i requires 0 <= i < |nss| => nss[i].name)
  }

  function OwnNames(p: ParsedFile): set<string> {
    set n | n in p.namespaces :: n.name
  }

  /** The namespaces whose name is not in `own`. */
  function Siblings(all: seq<NamespaceNode>, own: set<string>): (r: seq<NamespaceNode>)
    ensures forall n :: n in r <==> n in all && n.name !in own
  {
    if all == [] then []
    else if all[0].name in own then Siblings(all[1..], own)
    else [all[0]] + Siblings(all[1..], own)
  }

  /** A file's own namespaces and then every sibling it can see: what `validateFile` lowers. */
  function Merged(p: ParsedFile, all: seq<NamespaceNode>): seq<NamespaceNode> {
    p.namespaces + Siblings(all, OwnNames(p))
  }

  function VisibleNames(p: ParsedFile, all: seq<NamespaceNode>): seq<string> {
    Names(p.namespaces) + Names(Siblings(all, OwnNames(p)))
  }

  /** Whether the previous run's output of `p` can be reused. */
  predicate Cached(t: Tools, prev: Manifest, p: ParsedFile, all: seq<NamespaceNode>) {
    p.filename in prev.files &&
    var e := prev.files[p.filename];
    e.sourceHash == t.hash(p.source) &&
    e.visibleNames == VisibleNames(p, all) &&
    forall n | n in e.namespaceNames :: n in e.outputs
  }

  /** Every file is valid next to its siblings: validation with no cache. */
  ghost predicate FullyValid(t: Tools, inputs: seq<Input>) {
    var parsed := ParseAll(t, inputs);
    Parses(t, inputs) && NoCrossFileDuplicates(parsed) &&
    forall p | p in parsed :: LowerOk(Merged(p, AllNamespaces(parsed)))
  }

  /** Only the files that are not served from the cache are valid next to their siblings. */
  ghost predicate IncrementallyValid(t: Tools, prev: Manifest, inputs: seq<Input>) {
    var parsed := ParseAll(t, inputs);
    var all := AllNamespaces(parsed);
    Parses(t, inputs) && NoCrossFileDuplicates(parsed) &&
    forall p | p in parsed && !Cached(t, prev, p, all) :: LowerOk(Merged(p, all))
  }

  // ----- stages 4 to 7, without a cache -----

  function OutputOf(t: Tools, cfg: string, ns: NamespaceNode): Output {
    Output(t.outPath(cfg, ns.name), t.hash(t.render(cfg, ns)))
  }

  function OutputsOf(t: Tools, cfg: string, nss: seq<NamespaceNode>): map<string, Output> {
    if nss == [] then map[]
    else
      var last := nss[|nss| - 1];
      OutputsOf(t, cfg, nss[..|nss| - 1])[last.name := OutputOf(t, cfg, last)]
  }

  function EntryOf(t: Tools, cfg: string, p: ParsedFile, all: seq<NamespaceNode>): FileEntry {
    FileEntry(t.hash(p.source), Names(p.namespaces), VisibleNames(p, all), OutputsOf(t, cfg, p.namespaces))
  }

  function FilesOf(t: Tools, cfg: string, parsed: seq<ParsedFile>, all: seq<NamespaceNode>): map<string, FileEntry> {
    if parsed == [] then map[]
    else
      var last := parsed[|parsed| - 1];
      FilesOf(t, cfg, parsed[..|parsed| - 1], all)[last.filename := EntryOf(t, cfg, last, all)]
  }

  function IndexText(t: Tools, cfg: string, all: seq<NamespaceNode>): string {
    t.renderIndex(cfg, Names(all))
  }

  /** The manifest a build of `inputs` leaves behind, whatever was there before. */
  function ManifestOf(t: Tools, cfg: string, inputs: seq<Input>): Manifest {
    var parsed := ParseAll(t, inputs);
    var all := AllNamespaces(parsed);
    Manifest(cfg, FilesOf(t, cfg, parsed, all), Some(Output(t.modelOut(cfg), t.hash(IndexText(t, cfg, all)))))
  }

  /** Path and text of every namespace file, in generation order. */
  function NamespaceFiles(t: Tools, cfg: string, nss: seq<NamespaceNode>): seq<(string, string)> {
    seq(|nss|, i requires 0 <= i < |nss| => (t.outPath(cfg, nss[i].name), t.render(cfg, nss[i])))
  }

  /** Everything a build produces: the namespace files, then the index. */
  function CleanFiles(t: Tools, cfg: string, inputs: seq<Input>): seq<(string, string)> {
    var all := AllNamespaces(ParseAll(t, inputs));
    NamespaceFiles(t, cfg, all) + [(t.modelOut(cfg), IndexText(t, cfg, all))]
  }

  function WriteAll(disk: map<string, string>, files: seq<(string, string)>): map<string, string> {
    if files == [] then disk
    else WriteAll(disk, files[..|files| - 1])[files[|files| - 1].0 := files[|files| - 1].1]
  }

  /** The paths among `files` whose text on disk is missing or different. */
  function Drift(disk: map<string, string>, files: seq<(string, string)>): seq<string> {
    if files == [] then []
    else
      var before, last := Drift(disk, files[..|files| - 1]), files[|files| - 1];
      if last.0 in disk && disk[last.0] == last.1 then before else before + [last.0]
  }

  /** The output paths of all file entries. */
  function EntryPaths(files: map<string, FileEntry>): set<string> {
    set f, n | f in files && n in files[f].outputs :: files[f].outputs[n].path
  }

  /** Every path a manifest records. */
  function RecordedPaths(m: Manifest): set<string> {
    EntryPaths(m.files) + (if m.index.Some? then {m.index.value.path} else {})
  }

  function Paths(files: seq<(string, string)>): set<string> {
    set x | x in files :: x.0
  }

  /** Recorded by the previous run, not produced by this one. */
  function Orphans(t: Tools, cfg: string, prev: Manifest, inputs: seq<Input>): set<string> {
    RecordedPaths(prev) - Paths(CleanFiles(t, cfg, inputs))
  }

  datatype Outcome =
    | NoInputs
    | Failed
    | Compiled(outputs: seq<string>, namespaces: seq<string>, orphaned: set<string>)

  /** The workspace after a build of `inputs` that uses no cache. */
  function CleanBuild(t: Tools, cfg: string, inputs: seq<Input>, ws: Workspace): Workspace {
    var orphans := Orphans(t, cfg, LoadManifest(ws.manifest, cfg), inputs);
    Workspace(WriteAll(ws.disk, CleanFiles(t, cfg, inputs)) - orphans, Some(ManifestOf(t, cfg, inputs)))
  }

  /** One run of the simple compiler. */
  ghost function CleanCompile(t: Tools, cfg: string, inputs: seq<Input>, dryRun: bool, ws: Workspace): (Workspace, Outcome) {
    if inputs == [] then (ws, NoInputs)
    else if !FullyValid(t, inputs) then (ws, Failed)
    else
      var outcome := Compiled(
        Drift(ws.disk, CleanFiles(t, cfg, inputs)),
        Names(AllNamespaces(ParseAll(t, inputs))),
        Orphans(t, cfg, LoadManifest(ws.manifest, cfg), inputs));
      (if dryRun then ws else CleanBuild(t, cfg, inputs, ws), outcome)
  }

  // ----- what earlier runs leave behind -----

  ghost predicate DiskHolds(disk: map<string, string>, files: seq<(string, string)>) {
    forall x | x in files :: x.0 in disk && disk[x.0] == x.1
  }

  /** The manifest and the disk are those of a build of `inputs`. */
  ghost predicate Records(t: Tools, ws: Workspace, inputs: seq<Input>) {
    ws.manifest.Some? && DistinctFiles(inputs) &&
    ws.manifest.value == ManifestOf(t, ws.manifest.value.configHash, inputs) &&
    DiskHolds(ws.disk, CleanFiles(t, ws.manifest.value.configHash, inputs))
  }

  /** `ws` is what a successful run over `inputs` left. */
  ghost predicate LeftBy(t: Tools, ws: Workspace, inputs: seq<Input>) {
    Records(t, ws, inputs) && inputs != [] && FullyValid(t, inputs)
  }

  ghost predicate Consistent(t: Tools, ws: Workspace) {
    ws.manifest.None? || exists inputs :: LeftBy(t, ws, inputs)
  }
}
