/**
 * The incremental compiler, stage by stage, proved to be the simple compiler of `BuildSpec`.
 *
 * Stages 1 to 3 read and judge: methods without effect that return the files' plans and the diagnostics. Stages 4 to 7
 * are the class, whose fields are the disk and the stored manifest. What it takes from the cache it may take because an
 * earlier build left the manifest; `TrustedCache` is what that comes to.
 */
module Build {
  import opened Options
  import opened Lowering
  import opened BuildSpec
  import opened BuildReports
  import opened BuildTheorems
  import opened BuildReuse

  // ----- stages 1 to 3: no effect on the workspace -----

  /** Syntax errors are collected; the files that parse go on. */
  method ParseInputFiles(t: Tools, inputs: seq<Input>) returns (parsed: seq<ParsedFile>, errors: seq<Diagnostic>)
    ensures parsed == ParseAll(t, inputs)
    ensures errors == ParseErrors(t, inputs)
    ensures errors == [] <==> Parses(t, inputs)
  {
    parsed, errors := [], [];
    for i := 0 to |inputs|
      invariant parsed == ParseAll(t, inputs[..i]) && errors == ParseErrors(t, inputs[..i])
    {
      assert inputs[..i + 1][..i] == inputs[..i];
      var file := t.parse(inputs[i].source);
      if file.Some? {
        parsed := parsed + [ParsedFile(inputs[i].filename, inputs[i].source, file.value)];
      } else {
        errors := errors + [Unparsable(inputs[i].filename)];
      }
    }
    assert inputs[..|inputs|] == inputs;
    NoParseErrors(t, inputs);
  }

  /** The scan's map holds, for every name of `before` and of `nss` in `p`, the first file that declares it. */
  ghost predicate Seen(firstSeen: map<string, ParsedFile>, before: seq<ParsedFile>, p: ParsedFile, nss: seq<NamespaceNode>) {
    forall n: string ::
      (n in firstSeen <==> FirstFile(before, n).Some? || Named(nss, n)) &&
      (n in firstSeen ==> firstSeen[n] == if FirstFile(before, n).Some? then FirstFile(before, n).value else p)
  }

  ghost predicate SeenAll(firstSeen: map<string, ParsedFile>, before: seq<ParsedFile>) {
    forall n: string ::
      (n in firstSeen <==> FirstFile(before, n).Some?) && (n in firstSeen ==> firstSeen[n] == FirstFile(before, n).value)
  }

  lemma SeenStarts(firstSeen: map<string, ParsedFile>, before: seq<ParsedFile>, p: ParsedFile)
    requires SeenAll(firstSeen, before)
    ensures Seen(firstSeen, before, p, [])
  {
  }

  lemma SeenEnds(firstSeen: map<string, ParsedFile>, parsed: seq<ParsedFile>, i: nat)
    requires i < |parsed| && Seen(firstSeen, parsed[..i], parsed[i], parsed[i].namespaces)
    ensures SeenAll(firstSeen, parsed[..i + 1])
  {
    assert parsed[..i + 1][..i] == parsed[..i];
  }

  lemma NamedMore(nss: seq<NamespaceNode>, k: nat, n: string)
    requires k < |nss|
    ensures Named(nss[..k + 1], n) <==> Named(nss[..k], n) || nss[k].name == n
  {
    assert nss[..k + 1] == nss[..k] + [nss[k]] && nss[k] in nss[..k + 1];
  }

  lemma SeenMore(firstSeen: map<string, ParsedFile>, before: seq<ParsedFile>, p: ParsedFile, nss: seq<NamespaceNode>, k: nat)
    requires k < |nss| && Seen(firstSeen, before, p, nss[..k])
    ensures var n := nss[k].name;
            Seen(if n in firstSeen then firstSeen else firstSeen[n := p], before, p, nss[..k + 1])
  {
    forall n: string ensures Named(nss[..k + 1], n) <==> Named(nss[..k], n) || nss[k].name == n {
      NamedMore(nss, k, n);
    }
  }

  method ScanFile(parsed: seq<ParsedFile>, i: nat, firstSeen0: map<string, ParsedFile>)
    returns (firstSeen: map<string, ParsedFile>, errors: seq<Diagnostic>)
    requires i < |parsed| && Seen(firstSeen0, parsed[..i], parsed[i], [])
    ensures Seen(firstSeen, parsed[..i], parsed[i], parsed[i].namespaces)
    ensures errors == DuplicatesOf(parsed, parsed[i], parsed[i].namespaces)
  {
    firstSeen, errors := firstSeen0, [];
    var p, nss := parsed[i], parsed[i].namespaces;
    for k := 0 to |nss|
      invariant Seen(firstSeen, parsed[..i], p, nss[..k]) && errors == DuplicatesOf(parsed, p, nss[..k])
    {
      var n := nss[k].name;
      assert nss[k] in nss && nss[..k + 1][..k] == nss[..k];
      FirstAt(parsed, i, n);
      SeenMore(firstSeen, parsed[..i], p, nss, k);
      if n in firstSeen && firstSeen[n].filename != p.filename {
        errors := errors + [DeclaredTwice(p.filename, n, firstSeen[n].filename)];
      } else if n !in firstSeen {
        firstSeen := firstSeen[n := p];
      }
    }
    assert nss[..|nss|] == nss;
  }

  /** One error for each namespace that an earlier file already declares. */
  method CollectDuplicateNamespaces(parsed: seq<ParsedFile>) returns (errors: seq<Diagnostic>)
    ensures errors == Duplicates(parsed, parsed)
    ensures errors == [] <==> NoCrossFileDuplicates(parsed)
  {
    errors := [];
    var firstSeen: map<string, ParsedFile> := map[];
    for i := 0 to |parsed|
      invariant SeenAll(firstSeen, parsed[..i]) && errors == Duplicates(parsed, parsed[..i])
    {
      assert parsed[..i + 1][..i] == parsed[..i];
      SeenStarts(firstSeen, parsed[..i], parsed[i]);
      var more;
      firstSeen, more := ScanFile(parsed, i, firstSeen);
      SeenEnds(firstSeen, parsed, i);
      errors := errors + more;
    }
    assert parsed[..|parsed|] == parsed;
    NoDuplicates(parsed);
  }

  /** Only the files that are not cached are lowered next to their siblings. */
  method ValidatePlans(plans: seq<FilePlan>, all: seq<NamespaceNode>) returns (errors: seq<Diagnostic>)
    ensures errors == Rejections(plans, all)
  {
    errors := [];
    for i := 0 to |plans|
      invariant errors == Rejections(plans[..i], all)
    {
      assert plans[..i + 1][..i] == plans[..i];
      if plans[i].cached {
        continue;
      }
      var model, error := Lower(Merged(plans[i].parsed, all));
      if error.Some? {
        errors := errors + [Rejected(plans[i].parsed.filename)];
      }
    }
    assert plans[..|plans|] == plans;
  }

  /** The whole front end: it reports nothing exactly when the incremental validation passes. */
  method FrontEnd(t: Tools, prev: Manifest, inputs: seq<Input>) returns (plans: seq<FilePlan>, errors: seq<Diagnostic>)
    ensures errors == Diagnostics(t, prev, inputs)
    ensures errors == [] <==> IncrementallyValid(t, prev, inputs)
    ensures plans == Plans(t, prev, ParseAll(t, inputs), AllNamespaces(ParseAll(t, inputs)))
  {
    var parsed, parseErrors := ParseInputFiles(t, inputs);
    var duplicates := CollectDuplicateNamespaces(parsed);
    var all := AllNamespaces(parsed);
    plans := Plans(t, prev, parsed, all);
    var rejections := ValidatePlans(plans, all);
    errors := parseErrors + duplicates + rejections;
    NoDiagnostics(t, prev, inputs);
  }

  // ----- what the cache may be trusted with -----

  /** A recorded output is the one rendering would give, and the disk has it. */
  ghost predicate Trusted(t: Tools, cfg: string, disk: map<string, string>, e: FileEntry, ns: NamespaceNode) {
    ns.name in e.outputs && e.outputs[ns.name].path == t.outPath(cfg, ns.name) ==>
      e.outputs[ns.name] == OutputOf(t, cfg, ns) &&
      t.outPath(cfg, ns.name) in disk && disk[t.outPath(cfg, ns.name)] == t.render(cfg, ns)
  }

  lemma {:induction false} OutputOfEach(t: Tools, cfg: string, nss: seq<NamespaceNode>, x: NamespaceNode)
    requires DistinctNamespaces(nss) && x in nss
    ensures x.name in OutputsOf(t, cfg, nss) && OutputsOf(t, cfg, nss)[x.name] == OutputOf(t, cfg, x)
  {
    var init, last := nss[..|nss| - 1], nss[|nss| - 1];
    assert forall y :: y in nss <==> y in init || y == last;
    if x != last {
      OutputOfEach(t, cfg, init, x);
      var i :| 0 <= i < |init| && init[i] == x;
      assert nss[i].name != nss[|nss| - 1].name;
    }
  }

  ghost predicate TrustedFile(t: Tools, cfg: string, disk: map<string, string>, prev: Manifest, p: ParsedFile) {
    p.filename in prev.files && forall ns | ns in p.namespaces :: Trusted(t, cfg, disk, prev.files[p.filename], ns)
  }

  /** Everything the plans take from the cache can be trusted. */
  ghost predicate TrustedCache(
    t: Tools, cfg: string, disk: map<string, string>, prev: Manifest, parsed: seq<ParsedFile>, all: seq<NamespaceNode>) {
    forall p | p in parsed && Cached(t, prev, p, all) :: TrustedFile(t, cfg, disk, prev, p)
  }

  lemma OneMoreFile(t: Tools, cfg: string, parsed: seq<ParsedFile>, all: seq<NamespaceNode>, i: nat)
    requires i < |parsed|
    ensures FilesOf(t, cfg, parsed[..i + 1], all) ==
            FilesOf(t, cfg, parsed[..i], all)[parsed[i].filename := EntryOf(t, cfg, parsed[i], all)]
    ensures AllNamespaces(parsed[..i + 1]) == AllNamespaces(parsed[..i]) + parsed[i].namespaces
  {
    assert parsed[..i + 1][..i] == parsed[..i];
  }

  /** A recorded index that reads like the new one is on disk. */
  ghost predicate TrustedIndex(t: Tools, cfg: string, disk: map<string, string>, prev: Manifest, names: seq<string>) {
    prev.index.Some? && prev.index.value == Output(t.modelOut(cfg), t.hash(t.renderIndex(cfg, names))) ==>
      t.modelOut(cfg) in disk && disk[t.modelOut(cfg)] == t.renderIndex(cfg, names)
  }

  lemma {:induction false} OldTextOnDisk(t: Tools, cfg: string, disk: map<string, string>, old_: seq<Input>, p: ParsedFile, ns: NamespaceNode)
    requires DiskHolds(disk, CleanFiles(t, cfg, old_)) && p in ParseAll(t, old_) && ns in p.namespaces
    ensures t.outPath(cfg, ns.name) in disk && disk[t.outPath(cfg, ns.name)] == t.render(cfg, ns)
  {
    AllMembers(ParseAll(t, old_));
    var all := AllNamespaces(ParseAll(t, old_));
    assert ns in all;
    var i :| 0 <= i < |all| && all[i] == ns;
    assert CleanFiles(t, cfg, old_)[i] in CleanFiles(t, cfg, old_);
  }

  /** Against the manifest of an earlier build, a cached file's recorded outputs can be trusted. */
  lemma {:induction false} CacheIsTrusted(t: Tools, ws: Workspace, old_: seq<Input>, p: ParsedFile, all: seq<NamespaceNode>)
    requires ToolsOk(t) && Records(t, ws, old_) && DistinctNamespaces(p.namespaces) && t.parse(p.source) == Some(p.namespaces)
    requires Cached(t, ws.manifest.value, p, all)
    ensures TrustedFile(t, ws.manifest.value.configHash, ws.disk, ws.manifest.value, p)
  {
    var cfg := ws.manifest.value.configHash;
    CachedFileIsOld(t, cfg, old_, p, all);
    forall ns | ns in p.namespaces ensures Trusted(t, cfg, ws.disk, ws.manifest.value.files[p.filename], ns) {
      OutputOfEach(t, cfg, p.namespaces, ns);
      OldTextOnDisk(t, cfg, ws.disk, old_, p, ns);
    }
  }

  lemma {:induction false} WholeCacheIsTrusted(t: Tools, ws: Workspace, old_: seq<Input>, inputs: seq<Input>)
    requires ToolsOk(t) && Records(t, ws, old_) && DistinctNamespaces(AllNamespaces(ParseAll(t, inputs)))
    ensures var parsed := ParseAll(t, inputs);
            TrustedCache(t, ws.manifest.value.configHash, ws.disk, ws.manifest.value, parsed, AllNamespaces(parsed))
  {
    var parsed := ParseAll(t, inputs);
    ParsedHolds(t, inputs);
    forall p | p in parsed && Cached(t, ws.manifest.value, p, AllNamespaces(parsed))
      ensures TrustedFile(t, ws.manifest.value.configHash, ws.disk, ws.manifest.value, p)
    {
      var i :| 0 <= i < |parsed| && parsed[i] == p;
      PrefixDistinct(parsed, i);
      SuffixDistinct(AllNamespaces(parsed[..i]), p.namespaces);
      CacheIsTrusted(t, ws, old_, p, AllNamespaces(parsed));
    }
  }

  /** All that the back end needs of the workspace and the inputs. */
  ghost predicate Ready(t: Tools, cfg: string, disk: map<string, string>, prev: Manifest, inputs: seq<Input>) {
    var all := AllNamespaces(ParseAll(t, inputs));
    DistinctNamespaces(all) && TrustedCache(t, cfg, disk, prev, ParseAll(t, inputs), all) &&
    TrustedIndex(t, cfg, disk, prev, Names(all)) && (prev.index.Some? ==> prev.index.value.path == t.modelOut(cfg))
  }

  lemma {:induction false} ReadyAgainst(t: Tools, ws: Workspace, old_: seq<Input>, inputs: seq<Input>)
    requires ToolsOk(t) && Records(t, ws, old_) && DistinctNamespaces(AllNamespaces(ParseAll(t, inputs)))
    ensures Ready(t, ws.manifest.value.configHash, ws.disk, ws.manifest.value, inputs)
  {
    WholeCacheIsTrusted(t, ws, old_, inputs);
  }

  /** A consistent workspace and valid inputs are all the back end needs. */
  lemma {:induction false} ConsistentIsReady(t: Tools, ws: Workspace, cfg: string, inputs: seq<Input>)
    requires ToolsOk(t) && Consistent(t, ws) && DistinctFiles(inputs) && inputs != [] && FullyValid(t, inputs)
    ensures Ready(t, cfg, ws.disk, LoadManifest(ws.manifest, cfg), inputs)
  {
    ValidIsDistinct(t, inputs);
    if ws.manifest.Some? && ws.manifest.value.configHash == cfg {
      var old_ :| LeftBy(t, ws, old_);
      ReadyAgainst(t, ws, old_, inputs);
    }
  }

  // ----- one more file in front of the rest -----

  lemma WriteOneMore(disk: map<string, string>, files: seq<(string, string)>, x: (string, string))
    ensures WriteAll(disk, files + [x]) == WriteAll(disk, files)[x.0 := x.1]
    ensures Drift(disk, files + [x]) ==
            if x.0 in disk && disk[x.0] == x.1 then Drift(disk, files) else Drift(disk, files) + [x.0]
  {
    assert (files + [x])[..|files|] == files;
  }

  /** Paths written before do not change what is found at a new path. */
  lemma UntouchedByEarlier(disk: map<string, string>, files: seq<(string, string)>, path: string)
    requires path !in Paths(files)
    ensures path in WriteAll(disk, files) <==> path in disk
    ensures path in disk ==> WriteAll(disk, files)[path] == disk[path]
  {
    WriteAllHolds(disk, files);
  }

  // ----- stages 4 to 7 -----

  class Compiler {
    var disk: map<string, string>
    var manifest: Option<Manifest>

    ghost function View(): Workspace
      reads this
    {
      Workspace(disk, manifest)
    }

    constructor (d: map<string, string>, m: Option<Manifest>)
      ensures View() == Workspace(d, m)
    {
      disk, manifest := d, m;
    }

    /** `writeIfChanged`, or `wouldWrite` on a dry run: whether the text differs, and the write if it is a real run. */
    method Write(path: string, text: string, dryRun: bool) returns (written: bool)
      modifies this`disk
      ensures written <==> !(path in old(disk) && old(disk)[path] == text)
      ensures disk == if dryRun then old(disk) else old(disk)[path := text]
    {
      if path in disk && disk[path] == text {
        assert disk[path := text] == disk;
        return false;
      }
      if !dryRun {
        disk := disk[path := text];
      }
      written := true;
    }

    /** One namespace: reuse the recorded output if there is one at the right path, otherwise render and write. */
    method EmitNamespace(t: Tools, cfg: string, ns: NamespaceNode, reuse: Option<FileEntry>, dryRun: bool)
      returns (output: Output, written: bool, served: bool)
      requires reuse.Some? ==> Trusted(t, cfg, disk, reuse.value, ns)
      modifies this`disk
      ensures served <==> Serves(t, cfg, reuse, ns.name)
      ensures output == OutputOf(t, cfg, ns)
      ensures written <==> !(t.outPath(cfg, ns.name) in old(disk) && old(disk)[t.outPath(cfg, ns.name)] == t.render(cfg, ns))
      ensures disk == if dryRun then old(disk) else old(disk)[t.outPath(cfg, ns.name) := t.render(cfg, ns)]
    {
      var outPath := t.outPath(cfg, ns.name);
      if reuse.Some? && ns.name in reuse.value.outputs && reuse.value.outputs[ns.name].path == outPath {
        output, written, served := reuse.value.outputs[ns.name], false, true;
        assert disk[outPath := t.render(cfg, ns)] == disk;
        return;
      }
      var text := t.render(cfg, ns);
      written := Write(outPath, text, dryRun);
      output, served := Output(outPath, t.hash(text)), false;
    }

    /** How far generation has come: `done` is on disk, and what differed was reported. */
    ghost predicate Generated(t: Tools, cfg: string, start: map<string, string>, dryRun: bool, done: seq<NamespaceNode>, written: seq<string>)
      reads this
    {
      disk == (if dryRun then start else WriteAll(start, NamespaceFiles(t, cfg, done))) &&
      written == Drift(start, NamespaceFiles(t, cfg, done))
    }

    /** One namespace after those of `done`: its output, and the report with its path if it differed. */
    method EmitNext(t: Tools, cfg: string, ns: NamespaceNode, reuse: Option<FileEntry>, dryRun: bool,
                    ghost start: map<string, string>, ghost done: seq<NamespaceNode>, reported: seq<string>)
      returns (output: Output, written: seq<string>, served: bool)
      requires reuse.Some? ==> Trusted(t, cfg, start, reuse.value, ns)
      requires Generated(t, cfg, start, dryRun, done, reported)
      requires t.outPath(cfg, ns.name) !in Paths(NamespaceFiles(t, cfg, done))
      modifies this`disk
      ensures output == OutputOf(t, cfg, ns) && (served <==> Serves(t, cfg, reuse, ns.name))
      ensures Generated(t, cfg, start, dryRun, done + [ns], written)
    {
      UntouchedByEarlier(start, NamespaceFiles(t, cfg, done), t.outPath(cfg, ns.name));
      var differed;
      output, differed, served := EmitNamespace(t, cfg, ns, reuse, dryRun);
      written := if differed then reported + [output.path] else reported;
      WriteOneMore(start, NamespaceFiles(t, cfg, done), (t.outPath(cfg, ns.name), t.render(cfg, ns)));
      FilesOfOneMore(t, cfg, done, ns);
    }

    /** The namespaces of one file, after those of `before`. */
    method EmitFile(t: Tools, cfg: string, nss: seq<NamespaceNode>, reuse: Option<FileEntry>, dryRun: bool,
                    ghost start: map<string, string>, ghost before: seq<NamespaceNode>, reported: seq<string>)
      returns (outputs: map<string, Output>, written: seq<string>, served: seq<string>)
      requires ToolsOk(t) && DistinctNamespaces(before + nss)
      requires reuse.Some? ==> forall ns | ns in nss :: Trusted(t, cfg, start, reuse.value, ns)
      requires Generated(t, cfg, start, dryRun, before, reported)
      modifies this`disk
      ensures outputs == OutputsOf(t, cfg, nss) && served == ServedOf(t, cfg, reuse, nss)
      ensures Generated(t, cfg, start, dryRun, before + nss, written)
    {
      outputs, written, served := map[], reported, [];
      assert before + nss[..0] == before;
      for i := 0 to |nss|
        invariant outputs == OutputsOf(t, cfg, nss[..i]) && served == ServedOf(t, cfg, reuse, nss[..i])
        invariant Generated(t, cfg, start, dryRun, before + nss[..i], written)
      {
        NewPath(t, cfg, before, nss, i);
        assert nss[i] in nss;
        var output, same;
        output, written, same := EmitNext(t, cfg, nss[i], reuse, dryRun, start, before + nss[..i], written);
        assert before + nss[..i] + [nss[i]] == before + nss[..i + 1];
        assert nss[..i + 1][..i] == nss[..i];
        outputs := outputs[nss[i].name := output];
        served := if same then served + [nss[i].name] else served;
      }
      assert nss[..|nss|] == nss;
    }

    /** One file's plan: its manifest entry, after everything of `before` has been generated. */
    method EmitPlan(t: Tools, cfg: string, plan: FilePlan, all: seq<NamespaceNode>, prev: Manifest, dryRun: bool,
                    ghost start: map<string, string>, ghost before: seq<NamespaceNode>, reported: seq<string>)
      returns (entry: FileEntry, written: seq<string>, served: seq<string>)
      requires ToolsOk(t) && (plan.cached ==> TrustedFile(t, cfg, start, prev, plan.parsed))
      requires DistinctNamespaces(before + plan.parsed.namespaces) && Generated(t, cfg, start, dryRun, before, reported)
      modifies this`disk
      ensures entry == EntryOf(t, cfg, plan.parsed, all)
      ensures served == ServedOf(t, cfg, ReuseFor(prev, plan), plan.parsed.namespaces)
      ensures Generated(t, cfg, start, dryRun, before + plan.parsed.namespaces, written)
    {
      var p := plan.parsed;
      var reuse := if plan.cached then Some(prev.files[p.filename]) else None;
      var outputs;
      outputs, written, served := EmitFile(t, cfg, p.namespaces, reuse, dryRun, start, before, reported);
      entry := FileEntry(t.hash(p.source), Names(p.namespaces), VisibleNames(p, all), outputs);
    }

    /** Stage 4 over all files. */
    method GenerateNamespaceOutputs(t: Tools, cfg: string, plans: seq<FilePlan>, all: seq<NamespaceNode>, prev: Manifest,
                                    dryRun: bool, ghost parsed: seq<ParsedFile>)
      returns (files: map<string, FileEntry>, written: seq<string>, served: seq<string>)
      requires ToolsOk(t) && TrustedCache(t, cfg, disk, prev, parsed, all)
      requires all == AllNamespaces(parsed) && DistinctNamespaces(all) && plans == Plans(t, prev, parsed, all)
      modifies this`disk
      ensures files == FilesOf(t, cfg, parsed, all) && served == Served(t, cfg, prev, plans)
      ensures Generated(t, cfg, old(disk), dryRun, all, written)
    {
      files, written, served := map[], [], [];
      for i := 0 to |plans|
        invariant files == FilesOf(t, cfg, parsed[..i], all) && served == Served(t, cfg, prev, plans[..i])
        invariant Generated(t, cfg, old(disk), dryRun, AllNamespaces(parsed[..i]), written)
      {
        OneMoreFile(t, cfg, parsed, all, i);
        PrefixDistinct(parsed, i);
        ServedOneMore(t, cfg, prev, plans, i);
        var entry, more;
        entry, written, more := EmitPlan(t, cfg, plans[i], all, prev, dryRun, old(disk), AllNamespaces(parsed[..i]), written);
        served := served + more;
        files := files[plans[i].parsed.filename := entry];
      }
      assert parsed[..|parsed|] == parsed && plans[..|plans|] == plans;
    }

    /** Stage 5: the index is written unless the manifest says the same text is already there. */
    method WriteAggregateIndex(t: Tools, cfg: string, names: seq<string>, prev: Manifest, dryRun: bool)
      returns (written: bool, contentHash: string)
      requires ToolsOk(t) && TrustedIndex(t, cfg, disk, prev, names)
      modifies this`disk
      ensures written <==> !(t.modelOut(cfg) in old(disk) && old(disk)[t.modelOut(cfg)] == t.renderIndex(cfg, names))
      ensures disk == if dryRun then old(disk) else old(disk)[t.modelOut(cfg) := t.renderIndex(cfg, names)]
      ensures contentHash == t.hash(t.renderIndex(cfg, names))
    {
      var text := t.renderIndex(cfg, names);
      contentHash := t.hash(text);
      if prev.index.Some? && prev.index.value.path == t.modelOut(cfg) && prev.index.value.contentHash == contentHash {
        assert disk[t.modelOut(cfg) := text] == disk;
        return false, contentHash;
      }
      written := Write(t.modelOut(cfg), text, dryRun);
    }

    /** Stage 6: delete what the previous manifest records and this run does not produce, and an index that has moved. */
    method RemoveOrphans(files: map<string, FileEntry>, modelOut: string, prev: Manifest, dryRun: bool) returns (orphaned: set<string>)
      modifies this`disk
      ensures var moved := if prev.index.Some? && prev.index.value.path != modelOut then {prev.index.value.path} else {};
              orphaned == (EntryPaths(prev.files) - (EntryPaths(files) + {modelOut})) + moved
      ensures disk == if dryRun then old(disk) else old(disk) - orphaned
    {
      orphaned := RemovePaths(EntryPaths(prev.files), EntryPaths(files) + {modelOut}, dryRun);
      if prev.index.Some? && prev.index.value.path != modelOut {
        if !dryRun {
          disk := disk - {prev.index.value.path};
        }
        orphaned := orphaned + {prev.index.value.path};
      }
    }

    method RemovePaths(recorded: set<string>, current: set<string>, dryRun: bool) returns (orphaned: set<string>)
      modifies this`disk
      ensures orphaned == recorded - current
      ensures disk == if dryRun then old(disk) else old(disk) - orphaned
    {
      orphaned := {};
      var todo := recorded;
      while todo != {}
        invariant todo <= recorded && orphaned == (recorded - todo) - current
        invariant disk == if dryRun then old(disk) else old(disk) - orphaned
        decreases |todo|
      {
        var path :| path in todo;
        if path !in current {
          if !dryRun {
            disk := disk - {path};
          }
          orphaned := orphaned + {path};
        }
        todo := todo - {path};
      }
    }

    /** Stages 4 and 5: every file of the build on disk, and everything that differed reported. */
    method WriteOutputs(t: Tools, cfg: string, plans: seq<FilePlan>, prev: Manifest, dryRun: bool, ghost inputs: seq<Input>)
      returns (files: map<string, FileEntry>, contentHash: string, written: seq<string>, served: seq<string>)
      requires ToolsOk(t) && Ready(t, cfg, disk, prev, inputs)
      requires plans == Plans(t, prev, ParseAll(t, inputs), AllNamespaces(ParseAll(t, inputs)))
      modifies this`disk
      ensures Manifest(cfg, files, Some(Output(t.modelOut(cfg), contentHash))) == ManifestOf(t, cfg, inputs)
      ensures written == Drift(old(disk), CleanFiles(t, cfg, inputs)) && served == Served(t, cfg, prev, plans)
      ensures disk == if dryRun then old(disk) else WriteAll(old(disk), CleanFiles(t, cfg, inputs))
    {
      ghost var parsed := ParseAll(t, inputs);
      var all := PlannedNamespaces(plans);
      PlannedIsAll(t, prev, parsed, AllNamespaces(parsed));
      files, written, served := GenerateNamespaceOutputs(t, cfg, plans, all, prev, dryRun, parsed);
      ghost var namespaceFiles := NamespaceFiles(t, cfg, all);
      NotANamespacePath(t, cfg, all);
      UntouchedByEarlier(old(disk), namespaceFiles, t.modelOut(cfg));
      var indexWritten;
      indexWritten, contentHash := WriteAggregateIndex(t, cfg, Names(all), prev, dryRun);
      if indexWritten {
        written := written + [t.modelOut(cfg)];
      }
      WriteOneMore(old(disk), namespaceFiles, (t.modelOut(cfg), IndexText(t, cfg, all)));
    }

    /** Stages 4 to 7. */
    method BackEnd(t: Tools, cfg: string, plans: seq<FilePlan>, prev: Manifest, dryRun: bool, ghost inputs: seq<Input>)
      returns (outcome: Outcome, served: seq<string>)
      requires ToolsOk(t) && DistinctFiles(inputs) && prev == LoadManifest(manifest, cfg) && Ready(t, cfg, disk, prev, inputs)
      requires plans == Plans(t, prev, ParseAll(t, inputs), AllNamespaces(ParseAll(t, inputs)))
      modifies this
      ensures View() == if dryRun then old(View()) else CleanBuild(t, cfg, inputs, old(View()))
      ensures outcome == Compiled(Drift(old(disk), CleanFiles(t, cfg, inputs)), Names(AllNamespaces(ParseAll(t, inputs))),
                                  Orphans(t, cfg, prev, inputs))
      ensures served == Served(t, cfg, prev, plans)
    {
      PlannedIsAll(t, prev, ParseAll(t, inputs), AllNamespaces(ParseAll(t, inputs)));
      OrphansAre(t, cfg, prev, inputs);
      var files, contentHash, written;
      files, contentHash, written, served := WriteOutputs(t, cfg, plans, prev, dryRun, inputs);
      assert files == ManifestOf(t, cfg, inputs).files;
      var orphaned := RemoveOrphans(files, t.modelOut(cfg), prev, dryRun);
      assert orphaned == Orphans(t, cfg, prev, inputs);
      if !dryRun {
        manifest := Some(Manifest(cfg, files, Some(Output(t.modelOut(cfg), contentHash))));
      }
      outcome := Compiled(written, Names(PlannedNamespaces(plans)), orphaned);
    }

    /**
     * The pipeline. On a consistent workspace it is one run of the simple compiler, with the same report; besides, it
     * says what it found wrong, or what it served from the cache: after a run with this configuration exactly the
     * unchanged files, and so, when nothing has changed, everything, with nothing written and nothing removed.
     */
    method Compile(t: Tools, cfg: string, inputs: seq<Input>, dryRun: bool)
      returns (outcome: Outcome, served: seq<string>, errors: seq<Diagnostic>)
      requires ToolsOk(t) && DistinctFiles(inputs) && Consistent(t, View())
      modifies this
      ensures (View(), outcome) == CleanCompile(t, cfg, inputs, dryRun, old(View()))
      ensures errors == if outcome.Failed? then Diagnostics(t, LoadManifest(old(manifest), cfg), inputs) else []
      ensures !outcome.Compiled? || !Recorded(old(manifest), cfg) ==> served == []
      ensures outcome.Compiled? && Recorded(old(manifest), cfg) ==>
                forall old_ | LeftBy(t, old(View()), old_) ::
                  served == UnchangedNames(t, old_, ParseAll(t, inputs), AllNamespaces(ParseAll(t, inputs)))
      ensures Recorded(old(manifest), cfg) && LeftBy(t, old(View()), inputs) ==>
                var names := Names(AllNamespaces(ParseAll(t, inputs)));
                outcome == Compiled([], names, {}) && served == names && View() == old(View())
    {
      if |inputs| == 0 {
        return NoInputs, [], [];
      }
      var prev := LoadManifest(manifest, cfg);
      ServedTells(t, View(), cfg, inputs, dryRun);
      SkippingIsSafe(t, View(), cfg, inputs);
      var plans;
      plans, errors := FrontEnd(t, prev, inputs);
      if errors != [] {
        return Failed, [], errors;
      }
      ConsistentIsReady(t, View(), cfg, inputs);
      outcome, served := BackEnd(t, cfg, plans, prev, dryRun, inputs);
    }
  }

  // ----- small facts the stages use -----

  lemma FilesOfOneMore(t: Tools, cfg: string, done: seq<NamespaceNode>, ns: NamespaceNode)
    ensures NamespaceFiles(t, cfg, done + [ns]) ==
            NamespaceFiles(t, cfg, done) + [(t.outPath(cfg, ns.name), t.render(cfg, ns))]
  {
  }

  lemma NewPath(t: Tools, cfg: string, before: seq<NamespaceNode>, nss: seq<NamespaceNode>, i: nat)
    requires ToolsOk(t) && DistinctNamespaces(before + nss) && i < |nss|
    ensures t.outPath(cfg, nss[i].name) !in Paths(NamespaceFiles(t, cfg, before + nss[..i]))
  {
    var files, all := NamespaceFiles(t, cfg, before + nss[..i]), before + nss;
    forall x | x in files ensures x.0 != t.outPath(cfg, nss[i].name) {
      var j :| 0 <= j < |files| && files[j] == x;
      assert all[j].name != all[|before| + i].name;
    }
  }

  lemma NotANamespacePath(t: Tools, cfg: string, nss: seq<NamespaceNode>)
    requires ToolsOk(t)
    ensures t.modelOut(cfg) !in Paths(NamespaceFiles(t, cfg, nss))
  {
    var files := NamespaceFiles(t, cfg, nss);
    forall x | x in files ensures x.0 != t.modelOut(cfg) {
      var j :| 0 <= j < |files| && files[j] == x;
      assert t.outPath(cfg, nss[j].name) != t.modelOut(cfg);
    }
  }

  /** With the index where it was, stage 6 removes exactly the orphans. */
  lemma OrphansAre(t: Tools, cfg: string, prev: Manifest, inputs: seq<Input>)
    requires DistinctFiles(inputs) && (prev.index.Some? ==> prev.index.value.path == t.modelOut(cfg))
    ensures EntryPaths(prev.files) - (EntryPaths(ManifestOf(t, cfg, inputs).files) + {t.modelOut(cfg)}) ==
            Orphans(t, cfg, prev, inputs)
  {
    RecordedIsProduced(t, cfg, inputs);
  }

  function PlannedNamespaces(plans: seq<FilePlan>): seq<NamespaceNode> {
    if plans == [] then [] else PlannedNamespaces(plans[..|plans| - 1]) + plans[|plans| - 1].parsed.namespaces
  }

  lemma {:induction false} PlannedIsAll(t: Tools, prev: Manifest, parsed: seq<ParsedFile>, all: seq<NamespaceNode>)
    ensures PlannedNamespaces(Plans(t, prev, parsed, all)) == AllNamespaces(parsed)
  {
    if parsed != [] {
      PlannedIsAll(t, prev, parsed[..|parsed| - 1], all);
      assert Plans(t, prev, parsed, all)[..|parsed| - 1] == Plans(t, prev, parsed[..|parsed| - 1], all);
    }
  }

  lemma {:induction false} AllPrefix(parsed: seq<ParsedFile>, i: nat)
    requires i <= |parsed|
    ensures AllNamespaces(parsed[..i]) <= AllNamespaces(parsed)
  {
    if i < |parsed| {
      AllPrefix(parsed[..|parsed| - 1], i);
      assert parsed[..|parsed| - 1][..i] == parsed[..i];
    } else {
      assert parsed[..i] == parsed;
    }
  }

  lemma SuffixDistinct(a: seq<NamespaceNode>, b: seq<NamespaceNode>)
    requires DistinctNamespaces(a + b)
    ensures DistinctNamespaces(b)
  {
    forall i, j | 0 <= i < j < |b| ensures b[i].name != b[j].name {
      assert (a + b)[|a| + i].name != (a + b)[|a| + j].name;
    }
  }

  lemma PrefixDistinct(parsed: seq<ParsedFile>, i: nat)
    requires i < |parsed| && DistinctNamespaces(AllNamespaces(parsed))
    ensures DistinctNamespaces(AllNamespaces(parsed[..i]) + parsed[i].namespaces)
  {
    AllPrefix(parsed, i + 1);
    assert parsed[..i + 1][..i] == parsed[..i];
    var some, all := AllNamespaces(parsed[..i + 1]), AllNamespaces(parsed);
    forall k, l | 0 <= k < l < |some| ensures some[k].name != some[l].name {
      assert some[k] == all[k] && some[l] == all[l];
    }
  }
}
