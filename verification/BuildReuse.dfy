/** That the cache is used: exactly the unchanged files are served from it, and a build of nothing new does nothing. */
module BuildReuse {
  import opened Options
  import opened Lowering
  import opened BuildSpec
  import opened BuildReports
  import opened BuildTheorems

  /** The file was there, with this text, and saw the same names in the same order. */
  predicate Unchanged(t: Tools, old_: seq<Input>, p: ParsedFile, all: seq<NamespaceNode>) {
    p in ParseAll(t, old_) && VisibleNames(p, AllNamespaces(ParseAll(t, old_))) == VisibleNames(p, all)
  }

  /** The names of all unchanged files, in order. */
  function UnchangedNames(t: Tools, old_: seq<Input>, parsed: seq<ParsedFile>, all: seq<NamespaceNode>): seq<string> {
    if parsed == [] then []
    else
      var last := parsed[|parsed| - 1];
      UnchangedNames(t, old_, parsed[..|parsed| - 1], all) + if Unchanged(t, old_, last, all) then Names(last.namespaces) else []
  }

  lemma OldFileEntry(t: Tools, cfg: string, old_: seq<Input>, p: ParsedFile)
    requires DistinctFiles(old_) && p in ParseAll(t, old_)
    ensures var files := ManifestOf(t, cfg, old_).files;
            p.filename in files && files[p.filename] == EntryOf(t, cfg, p, AllNamespaces(ParseAll(t, old_)))
  {
    ParsedHolds(t, old_);
    FilesHold(t, cfg, ParseAll(t, old_), AllNamespaces(ParseAll(t, old_)));
  }

  lemma OutputsForAll(t: Tools, cfg: string, nss: seq<NamespaceNode>)
    ensures forall n | n in Names(nss) :: n in OutputsOf(t, cfg, nss) && OutputsOf(t, cfg, nss)[n].path == t.outPath(cfg, n)
  {
    OutputsHold(t, cfg, nss);
    forall n | n in Names(nss) ensures exists x | x in nss :: x.name == n {
      var i :| 0 <= i < |nss| && Names(nss)[i] == n;
      assert nss[i] in nss;
    }
  }

  /** Against the manifest of a build of `old_`, a file is served if and only if it is unchanged. */
  lemma {:induction false} CachedIffUnchanged(t: Tools, cfg: string, old_: seq<Input>, p: ParsedFile, all: seq<NamespaceNode>)
    requires ToolsOk(t) && DistinctFiles(old_) && t.parse(p.source) == Some(p.namespaces)
    ensures Cached(t, ManifestOf(t, cfg, old_), p, all) <==> Unchanged(t, old_, p, all)
  {
    if Cached(t, ManifestOf(t, cfg, old_), p, all) {
      CachedFileIsOld(t, cfg, old_, p, all);
    } else if Unchanged(t, old_, p, all) {
      OldFileEntry(t, cfg, old_, p);
      OutputsForAll(t, cfg, p.namespaces);
    }
  }

  lemma {:induction false} AllServed(t: Tools, cfg: string, reuse: FileEntry, nss: seq<NamespaceNode>)
    requires forall n | n in Names(nss) :: Serves(t, cfg, Some(reuse), n)
    ensures ServedOf(t, cfg, Some(reuse), nss) == Names(nss)
  {
    if nss != [] {
      var init := nss[..|nss| - 1];
      assert Names(nss) == Names(init) + [nss[|nss| - 1].name];
      AllServed(t, cfg, reuse, init);
    }
  }

  lemma {:induction false} NoneServed(t: Tools, cfg: string, nss: seq<NamespaceNode>)
    ensures ServedOf(t, cfg, None, nss) == []
  {
    if nss != [] {
      NoneServed(t, cfg, nss[..|nss| - 1]);
    }
  }

  /** What a file contributes: all its names or none. */
  lemma FileServed(t: Tools, cfg: string, old_: seq<Input>, p: ParsedFile, all: seq<NamespaceNode>)
    requires ToolsOk(t) && DistinctFiles(old_) && t.parse(p.source) == Some(p.namespaces)
    ensures var prev := ManifestOf(t, cfg, old_);
            ServedOf(t, cfg, ReuseFor(prev, FilePlan(p, Cached(t, prev, p, all))), p.namespaces) ==
            if Unchanged(t, old_, p, all) then Names(p.namespaces) else []
  {
    CachedIffUnchanged(t, cfg, old_, p, all);
    if Unchanged(t, old_, p, all) {
      OldFileEntry(t, cfg, old_, p);
      OutputsForAll(t, cfg, p.namespaces);
      AllServed(t, cfg, EntryOf(t, cfg, p, AllNamespaces(ParseAll(t, old_))), p.namespaces);
    } else {
      NoneServed(t, cfg, p.namespaces);
    }
  }

  lemma {:induction false} ServedIsUnchanged(t: Tools, cfg: string, old_: seq<Input>, parsed: seq<ParsedFile>, all: seq<NamespaceNode>)
    requires ToolsOk(t) && DistinctFiles(old_) && forall p | p in parsed :: t.parse(p.source) == Some(p.namespaces)
    ensures var prev := ManifestOf(t, cfg, old_);
            Served(t, cfg, prev, Plans(t, prev, parsed, all)) == UnchangedNames(t, old_, parsed, all)
  {
    if parsed != [] {
      var prev, init, last := ManifestOf(t, cfg, old_), parsed[..|parsed| - 1], parsed[|parsed| - 1];
      assert Plans(t, prev, parsed, all)[..|parsed| - 1] == Plans(t, prev, init, all);
      ServedIsUnchanged(t, cfg, old_, init, all);
      FileServed(t, cfg, old_, last, all);
    }
  }

  lemma {:induction false} NothingServed(t: Tools, cfg: string, parsed: seq<ParsedFile>, all: seq<NamespaceNode>)
    ensures var prev := Manifest(cfg, map[], None); Served(t, cfg, prev, Plans(t, prev, parsed, all)) == []
  {
    if parsed != [] {
      var prev, init, last := Manifest(cfg, map[], None), parsed[..|parsed| - 1], parsed[|parsed| - 1];
      assert Plans(t, prev, parsed, all)[..|parsed| - 1] == Plans(t, prev, init, all);
      NothingServed(t, cfg, init, all);
      NoneServed(t, cfg, last.namespaces);
    }
  }

  // ----- nothing new -----

  lemma NamesJoin(a: seq<NamespaceNode>, b: seq<NamespaceNode>)
    ensures Names(a + b) == Names(a) + Names(b)
  {
  }

  lemma {:induction false} AllUnchanged(t: Tools, old_: seq<Input>, parsed: seq<ParsedFile>)
    requires forall p | p in parsed :: p in ParseAll(t, old_)
    ensures UnchangedNames(t, old_, parsed, AllNamespaces(ParseAll(t, old_))) == Names(AllNamespaces(parsed))
  {
    if parsed != [] {
      var init, last := parsed[..|parsed| - 1], parsed[|parsed| - 1];
      AllUnchanged(t, old_, init);
      assert last in parsed && Unchanged(t, old_, last, AllNamespaces(ParseAll(t, old_)));
      NamesJoin(AllNamespaces(init), last.namespaces);
    }
  }

  lemma {:induction false} NothingToWrite(disk: map<string, string>, files: seq<(string, string)>)
    requires DiskHolds(disk, files)
    ensures WriteAll(disk, files) == disk && Drift(disk, files) == []
  {
    if files != [] {
      assert files[|files| - 1] in files;
      NothingToWrite(disk, files[..|files| - 1]);
    }
  }

  /** A build of the inputs that the last build left recorded writes nothing and removes nothing. */
  lemma {:induction false} RebuildIsIdle(t: Tools, ws: Workspace, inputs: seq<Input>, dryRun: bool)
    requires ToolsOk(t) && LeftBy(t, ws, inputs)
    ensures CleanCompile(t, ws.manifest.value.configHash, inputs, dryRun, ws) ==
            (ws, Compiled([], Names(AllNamespaces(ParseAll(t, inputs))), {}))
  {
    var cfg := ws.manifest.value.configHash;
    NothingToWrite(ws.disk, CleanFiles(t, cfg, inputs));
    RecordedIsProduced(t, cfg, inputs);
    assert Orphans(t, cfg, ws.manifest.value, inputs) == {};
    assert ws.disk - {} == ws.disk;
  }

  /** What a successful run over `inputs` serves from the cache a run over `old_` left. */
  lemma {:induction false} ServedAfter(t: Tools, ws: Workspace, old_: seq<Input>, inputs: seq<Input>)
    requires ToolsOk(t) && LeftBy(t, ws, old_)
    ensures var parsed, m := ParseAll(t, inputs), ws.manifest.value;
            Served(t, m.configHash, m, Plans(t, m, parsed, AllNamespaces(parsed))) ==
            UnchangedNames(t, old_, parsed, AllNamespaces(parsed))
  {
    ParsedHolds(t, inputs);
    ServedIsUnchanged(t, ws.manifest.value.configHash, old_, ParseAll(t, inputs), AllNamespaces(ParseAll(t, inputs)));
  }

  /** There is a manifest of a run with this configuration. */
  predicate Recorded(manifest: Option<Manifest>, cfg: string) {
    manifest.Some? && manifest.value.configHash == cfg
  }

  lemma ServedTells(t: Tools, ws: Workspace, cfg: string, inputs: seq<Input>, dryRun: bool)
    requires ToolsOk(t)
    ensures var parsed, prev := ParseAll(t, inputs), LoadManifest(ws.manifest, cfg);
            var served := Served(t, cfg, prev, Plans(t, prev, parsed, AllNamespaces(parsed)));
            (!Recorded(ws.manifest, cfg) ==> served == []) &&
            (Recorded(ws.manifest, cfg) ==>
               forall old_ | LeftBy(t, ws, old_) :: served == UnchangedNames(t, old_, parsed, AllNamespaces(parsed))) &&
            (Recorded(ws.manifest, cfg) && LeftBy(t, ws, inputs) ==>
               served == Names(AllNamespaces(parsed)) &&
               CleanCompile(t, cfg, inputs, dryRun, ws) == (ws, Compiled([], Names(AllNamespaces(parsed)), {})))
  {
    var parsed := ParseAll(t, inputs);
    if Recorded(ws.manifest, cfg) {
      forall old_ | LeftBy(t, ws, old_)
        ensures Served(t, cfg, ws.manifest.value, Plans(t, ws.manifest.value, parsed, AllNamespaces(parsed))) ==
                UnchangedNames(t, old_, parsed, AllNamespaces(parsed))
      {
        ServedAfter(t, ws, old_, inputs);
      }
      if LeftBy(t, ws, inputs) {
        AllUnchanged(t, inputs, parsed);
        RebuildIsIdle(t, ws, inputs, dryRun);
      }
    } else {
      NothingServed(t, cfg, parsed, AllNamespaces(parsed));
    }
  }
}
