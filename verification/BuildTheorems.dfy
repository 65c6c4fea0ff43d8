/** Why skipping cached files is safe, and what any history of builds leaves on disk. */
module BuildTheorems {
  import opened Options
  import opened Lowering
  import opened LoweringTheorems
  import opened BuildSpec

  // ----- namespaces of a name, counted -----

  ghost function Count(s: seq<NamespaceNode>, n: string): nat {
    if s == [] then 0 else (if s[0].name == n then 1 else 0) + Count(s[1..], n)
  }

  lemma {:induction false} CountZero(s: seq<NamespaceNode>, n: string)
    ensures Count(s, n) == 0 <==> forall x | x in s :: x.name != n
  {
    if s != [] {
      CountZero(s[1..], n);
      assert forall x :: x in s <==> x == s[0] || x in s[1..];
    }
  }

  lemma {:induction false} CountConcat(a: seq<NamespaceNode>, b: seq<NamespaceNode>, n: string)
    ensures Count(a + b, n) == Count(a, n) + Count(b, n)
  {
    if a == [] {
      assert a + b == b;
    } else {
      assert (a + b)[1..] == a[1..] + b;
      CountConcat(a[1..], b, n);
    }
  }

  lemma {:induction false} CountSiblings(all: seq<NamespaceNode>, own: set<string>, n: string)
    ensures Count(Siblings(all, own), n) == if n in own then 0 else Count(all, n)
  {
    if all != [] {
      CountSiblings(all[1..], own, n);
      if all[0].name !in own {
        assert Siblings(all, own)[1..] == Siblings(all[1..], own);
      }
    }
  }

  lemma {:induction false} DistinctCountsOnce(s: seq<NamespaceNode>, n: string)
    requires DistinctNamespaces(s)
    ensures Count(s, n) <= 1
  {
    if s != [] {
      DistinctCountsOnce(s[1..], n);
      if s[0].name == n {
        forall x | x in s[1..] ensures x.name != n {
          var i :| 0 <= i < |s[1..]| && s[1..][i] == x;
          assert s[i + 1] == x;
        }
        CountZero(s[1..], n);
      }
    }
  }

  lemma {:induction false} RepeatCountsTwice(s: seq<NamespaceNode>, i: nat, j: nat)
    requires i < j < |s| && s[i].name == s[j].name
    ensures Count(s, s[i].name) >= 2
  {
    if i > 0 {
      RepeatCountsTwice(s[1..], i - 1, j - 1);
    } else {
      CountZero(s[1..], s[j].name);
      assert s[1..][j - 1] == s[j];
    }
  }

  lemma {:induction false} DistinctByCounts(f: seq<NamespaceNode>, g: seq<NamespaceNode>)
    requires DistinctNamespaces(f) && forall n :: Count(f, n) == Count(g, n)
    ensures DistinctNamespaces(g)
  {
    forall i, j | 0 <= i < j < |g| ensures g[i].name != g[j].name {
      if g[i].name == g[j].name {
        RepeatCountsTwice(g, i, j);
        DistinctCountsOnce(f, g[i].name);
      }
    }
  }

  lemma BothDistinct(f: seq<NamespaceNode>, g: seq<NamespaceNode>)
    requires forall n :: Count(f, n) == Count(g, n)
    ensures DistinctNamespaces(f) <==> DistinctNamespaces(g)
  {
    if DistinctNamespaces(f) {
      DistinctByCounts(f, g);
    }
    if DistinctNamespaces(g) {
      DistinctByCounts(g, f);
    }
  }

  // ----- files and namespaces -----

  lemma {:induction false} AllMembers(parsed: seq<ParsedFile>)
    ensures forall x :: x in AllNamespaces(parsed) <==> exists p | p in parsed :: x in p.namespaces
  {
    if parsed != [] {
      var init, last := parsed[..|parsed| - 1], parsed[|parsed| - 1];
      AllMembers(init);
      assert forall p :: p in parsed <==> p in init || p == last;
    }
  }

  /** The namespaces of all files in the order of the files, and within a file in its order. */
  lemma {:induction false} NamespacesInOrder(a: seq<ParsedFile>, p: ParsedFile, b: seq<ParsedFile>)
    ensures AllNamespaces(a + [p] + b) == AllNamespaces(a) + p.namespaces + AllNamespaces(b)
    decreases |b|
  {
    var whole := a + [p] + b;
    if b == [] {
      assert whole[..|whole| - 1] == a;
    } else {
      assert whole[..|whole| - 1] == a + [p] + b[..|b| - 1];
      NamespacesInOrder(a, p, b[..|b| - 1]);
    }
  }

  lemma DeclaredElsewhere(parsed: seq<ParsedFile>, p: ParsedFile, q: ParsedFile, n: string)
    requires NoCrossFileDuplicates(parsed) && p in parsed && q in parsed && p.filename != q.filename && n in OwnNames(p)
    ensures Count(q.namespaces, n) == 0
  {
    CountZero(q.namespaces, n);
  }

  lemma {:induction false} CountNowhere(parsed: seq<ParsedFile>, n: string)
    requires forall q | q in parsed :: Count(q.namespaces, n) == 0
    ensures Count(AllNamespaces(parsed), n) == 0
  {
    if parsed != [] {
      var init, last := parsed[..|parsed| - 1], parsed[|parsed| - 1];
      CountNowhere(init, n);
      assert last in parsed;
      CountConcat(AllNamespaces(init), last.namespaces, n);
    }
  }

  lemma SplitLast(parsed: seq<ParsedFile>)
    requires parsed != [] && DistinctParsed(parsed)
    ensures var init, last := parsed[..|parsed| - 1], parsed[|parsed| - 1];
            DistinctParsed(init) && (forall q | q in init :: q in parsed && q.filename != last.filename) &&
            forall q :: q in parsed <==> q in init || q == last
  {
  }

  /** A name declared in `p` is declared nowhere else. */
  lemma {:induction false} CountOwn(parsed: seq<ParsedFile>, p: ParsedFile, n: string)
    requires DistinctParsed(parsed) && NoCrossFileDuplicates(parsed) && p in parsed && n in OwnNames(p)
    ensures Count(AllNamespaces(parsed), n) == Count(p.namespaces, n)
  {
    var init, last := parsed[..|parsed| - 1], parsed[|parsed| - 1];
    SplitLast(parsed);
    CountConcat(AllNamespaces(init), last.namespaces, n);
    if p in init {
      CountOwn(init, p, n);
      DeclaredElsewhere(parsed, p, last, n);
    } else {
      forall q | q in init ensures Count(q.namespaces, n) == 0 {
        DeclaredElsewhere(parsed, p, q, n);
      }
      CountNowhere(init, n);
    }
  }

  /** What one file sees is a rearrangement of everything there is. */
  lemma {:induction false} MergedIsRearrangement(parsed: seq<ParsedFile>, p: ParsedFile)
    requires DistinctParsed(parsed) && NoCrossFileDuplicates(parsed) && p in parsed
    ensures forall x :: x in Merged(p, AllNamespaces(parsed)) <==> x in AllNamespaces(parsed)
    ensures forall n :: Count(Merged(p, AllNamespaces(parsed)), n) == Count(AllNamespaces(parsed), n)
  {
    var all := AllNamespaces(parsed);
    AllMembers(parsed);
    forall x ensures x in Merged(p, all) <==> x in all {
      if x in all && x.name in OwnNames(p) {
        var q :| q in parsed && x in q.namespaces;
        var mine :| mine in p.namespaces && mine.name == x.name;
      }
    }
    forall n ensures Count(Merged(p, all), n) == Count(all, n) {
      CountConcat(p.namespaces, Siblings(all, OwnNames(p)), n);
      CountSiblings(all, OwnNames(p), n);
      if n in OwnNames(p) {
        CountOwn(parsed, p, n);
      } else {
        CountZero(p.namespaces, n);
      }
    }
  }

  /** So each file's verdict is the verdict on the whole set of namespaces. */
  lemma {:induction false} EveryFileJudgesAll(parsed: seq<ParsedFile>, p: ParsedFile)
    requires DistinctParsed(parsed) && NoCrossFileDuplicates(parsed) && p in parsed
    ensures LowerOk(Merged(p, AllNamespaces(parsed))) <==> LowerOk(AllNamespaces(parsed))
    ensures LowerOk(AllNamespaces(parsed)) ==> DistinctNamespaces(AllNamespaces(parsed))
  {
    var all := AllNamespaces(parsed);
    var merged := Merged(p, all);
    MergedIsRearrangement(parsed, p);
    BothDistinct(merged, all);
    SameVerdict(all, merged);
  }

  // ----- inputs and manifests -----

  lemma {:induction false} ParsedHolds(t: Tools, inputs: seq<Input>)
    ensures forall p :: p in ParseAll(t, inputs) <==>
              Input(p.filename, p.source) in inputs && t.parse(p.source) == Some(p.namespaces)
    ensures DistinctFiles(inputs) ==> DistinctParsed(ParseAll(t, inputs))
  {
    if inputs != [] {
      var init, last := inputs[..|inputs| - 1], inputs[|inputs| - 1];
      ParsedHolds(t, init);
      assert forall x :: x in inputs <==> x in init || x == last;
      if DistinctFiles(inputs) {
        forall i | 0 <= i < |ParseAll(t, init)| ensures ParseAll(t, init)[i].filename != last.filename {
          var p := ParseAll(t, init)[i];
          assert Input(p.filename, p.source) in init;
          var j :| 0 <= j < |init| && init[j] == Input(p.filename, p.source);
          assert inputs[j].filename != inputs[|inputs| - 1].filename;
        }
      }
    }
  }

  lemma {:induction false} FilesHold(t: Tools, cfg: string, parsed: seq<ParsedFile>, all: seq<NamespaceNode>)
    requires DistinctParsed(parsed)
    ensures forall f | f in FilesOf(t, cfg, parsed, all) :: exists p | p in parsed :: p.filename == f
    ensures forall p | p in parsed ::
              p.filename in FilesOf(t, cfg, parsed, all) && FilesOf(t, cfg, parsed, all)[p.filename] == EntryOf(t, cfg, p, all)
  {
    if parsed != [] {
      var init, last := parsed[..|parsed| - 1], parsed[|parsed| - 1];
      SplitLast(parsed);
      FilesHold(t, cfg, init, all);
    }
  }

  /** A file served from the cache is, text and all, a file of the run that left the manifest. */
  lemma {:induction false} CachedFileIsOld(t: Tools, cfg: string, old_: seq<Input>, p: ParsedFile, all: seq<NamespaceNode>)
    requires ToolsOk(t) && DistinctFiles(old_) && t.parse(p.source) == Some(p.namespaces)
    requires Cached(t, ManifestOf(t, cfg, old_), p, all)
    ensures p in ParseAll(t, old_)
    ensures ManifestOf(t, cfg, old_).files[p.filename] == EntryOf(t, cfg, p, AllNamespaces(ParseAll(t, old_)))
  {
    var before := ParseAll(t, old_);
    ParsedHolds(t, old_);
    FilesHold(t, cfg, before, AllNamespaces(before));
    var q :| q in before && q.filename == p.filename;
    assert t.hash(q.source) == t.hash(p.source);
    assert q == p;
  }

  lemma {:induction false} CountByNames(f: seq<NamespaceNode>, g: seq<NamespaceNode>, n: string)
    requires Names(f) == Names(g)
    ensures Count(f, n) == Count(g, n)
  {
    if f != [] {
      assert Names(f)[0] == Names(g)[0];
      assert Names(f[1..]) == Names(f)[1..] == Names(g)[1..] == Names(g[1..]);
      CountByNames(f[1..], g[1..], n);
    }
  }

  /** A cached file still sees the names it saw then, so the names are the same altogether. */
  lemma {:induction false} CachedFileCounts(t: Tools, cfg: string, old_: seq<Input>, inputs: seq<Input>, p: ParsedFile)
    requires ToolsOk(t) && DistinctFiles(old_) && NoCrossFileDuplicates(ParseAll(t, old_))
    requires DistinctFiles(inputs) && NoCrossFileDuplicates(ParseAll(t, inputs)) && p in ParseAll(t, inputs)
    requires Cached(t, ManifestOf(t, cfg, old_), p, AllNamespaces(ParseAll(t, inputs)))
    ensures p in ParseAll(t, old_)
    ensures forall n :: Count(AllNamespaces(ParseAll(t, inputs)), n) == Count(AllNamespaces(ParseAll(t, old_)), n)
  {
    var now, before := ParseAll(t, inputs), ParseAll(t, old_);
    var all, all0 := AllNamespaces(now), AllNamespaces(before);
    ParsedHolds(t, inputs);
    ParsedHolds(t, old_);
    CachedFileIsOld(t, cfg, old_, p, all);
    MergedIsRearrangement(now, p);
    MergedIsRearrangement(before, p);
    MergedNames(p, all);
    MergedNames(p, all0);
    forall n ensures Count(all, n) == Count(all0, n) {
      CountByNames(Merged(p, all), Merged(p, all0), n);
      assert Count(Merged(p, all), n) == Count(all, n) && Count(Merged(p, all0), n) == Count(all0, n);
    }
  }

  lemma MergedNames(p: ParsedFile, all: seq<NamespaceNode>)
    ensures Names(Merged(p, all)) == VisibleNames(p, all)
  {
  }

  /** If every file is served from the cache, the set of namespaces is the one that was validated then. */
  lemma {:induction false} AllCachedIsValid(t: Tools, cfg: string, old_: seq<Input>, inputs: seq<Input>)
    requires ToolsOk(t) && DistinctFiles(old_) && FullyValid(t, old_)
    requires DistinctFiles(inputs) && NoCrossFileDuplicates(ParseAll(t, inputs)) && ParseAll(t, inputs) != []
    requires forall p | p in ParseAll(t, inputs) :: Cached(t, ManifestOf(t, cfg, old_), p, AllNamespaces(ParseAll(t, inputs)))
    ensures LowerOk(AllNamespaces(ParseAll(t, inputs)))
  {
    var now, before := ParseAll(t, inputs), ParseAll(t, old_);
    ParsedHolds(t, old_);
    forall p | p in now ensures p in before {
      CachedFileCounts(t, cfg, old_, inputs, p);
    }
    CachedFileCounts(t, cfg, old_, inputs, now[0]);
    EveryFileJudgesAll(before, now[0]);
    BothDistinct(AllNamespaces(now), AllNamespaces(before));
    SameNamesSameNamespaces(now, before);
    SameVerdict(AllNamespaces(now), AllNamespaces(before));
  }

  lemma {:induction false} SameNamesSameNamespaces(now: seq<ParsedFile>, before: seq<ParsedFile>)
    requires forall p | p in now :: p in before
    requires DistinctNamespaces(AllNamespaces(before))
    requires forall n :: Count(AllNamespaces(now), n) == Count(AllNamespaces(before), n)
    ensures forall x :: x in AllNamespaces(now) <==> x in AllNamespaces(before)
  {
    var all, all0 := AllNamespaces(now), AllNamespaces(before);
    AllMembers(now);
    AllMembers(before);
    forall x | x in all ensures x in all0 {
      var p :| p in now && x in p.namespaces;
    }
    forall x | x in all0 ensures x in all {
      CountZero(all0, x.name);
      CountZero(all, x.name);
      var y :| y in all && y.name == x.name;
      var i :| 0 <= i < |all0| && all0[i] == x;
      var j :| 0 <= j < |all0| && all0[j] == y;
      assert i == j;
    }
  }

  /**
   * Skipping the validation of cached files changes no verdict: against a workspace an earlier run left, the
   * incremental run finds an error exactly when validating every file would.
   */
  lemma {:induction false} SkippingIsSafe(t: Tools, ws: Workspace, cfg: string, inputs: seq<Input>)
    requires ToolsOk(t) && Consistent(t, ws) && DistinctFiles(inputs) && inputs != []
    ensures IncrementallyValid(t, LoadManifest(ws.manifest, cfg), inputs) <==> FullyValid(t, inputs)
  {
    var prev := LoadManifest(ws.manifest, cfg);
    var parsed := ParseAll(t, inputs);
    var all := AllNamespaces(parsed);
    ParsedHolds(t, inputs);
    if IncrementallyValid(t, prev, inputs) {
      FirstParses(t, inputs);
      if q :| q in parsed && !Cached(t, prev, q, all) {
        EveryFileJudgesAll(parsed, q);
      } else {
        assert Cached(t, prev, parsed[0], all);
        var old_ :| LeftBy(t, ws, old_);
        AllCachedIsValid(t, cfg, old_, inputs);
      }
      forall p | p in parsed ensures LowerOk(Merged(p, all)) {
        EveryFileJudgesAll(parsed, p);
      }
    }
  }

  lemma FirstParses(t: Tools, inputs: seq<Input>)
    requires inputs != [] && Parses(t, inputs)
    ensures ParseAll(t, inputs) != []
  {
    assert inputs[|inputs| - 1] in inputs;
  }

  // ----- the disk -----

  ghost predicate DistinctPaths(files: seq<(string, string)>) {
    forall i, j | 0 <= i < j < |files| :: files[i].0 != files[j].0
  }

  lemma {:induction false} WriteAllHolds(disk: map<string, string>, files: seq<(string, string)>)
    ensures WriteAll(disk, files).Keys == disk.Keys + Paths(files)
    ensures forall p | p in disk && p !in Paths(files) :: WriteAll(disk, files)[p] == disk[p]
    ensures DistinctPaths(files) ==> DiskHolds(WriteAll(disk, files), files)
  {
    if files != [] {
      var init, last := files[..|files| - 1], files[|files| - 1];
      WriteAllHolds(disk, init);
      assert forall x :: x in files <==> x in init || x == last;
      if DistinctPaths(files) {
        LastPathIsNew(files);
      }
    }
  }

  lemma LastPathIsNew(files: seq<(string, string)>)
    requires files != [] && DistinctPaths(files)
    ensures DistinctPaths(files[..|files| - 1])
    ensures forall x | x in files[..|files| - 1] :: x.0 != files[|files| - 1].0
  {
    var init := files[..|files| - 1];
    forall x | x in init ensures x.0 != files[|files| - 1].0 {
      var i :| 0 <= i < |init| && init[i] == x;
      assert files[i].0 != files[|files| - 1].0;
    }
  }

  lemma {:induction false} ValidIsDistinct(t: Tools, inputs: seq<Input>)
    requires DistinctFiles(inputs) && inputs != [] && FullyValid(t, inputs)
    ensures DistinctNamespaces(AllNamespaces(ParseAll(t, inputs)))
  {
    var parsed := ParseAll(t, inputs);
    ParsedHolds(t, inputs);
    FirstParses(t, inputs);
    assert parsed[0] in parsed;
    EveryFileJudgesAll(parsed, parsed[0]);
  }

  lemma CleanPathsDistinct(t: Tools, cfg: string, inputs: seq<Input>)
    requires ToolsOk(t) && DistinctFiles(inputs) && inputs != [] && FullyValid(t, inputs)
    ensures DistinctPaths(CleanFiles(t, cfg, inputs))
  {
    ValidIsDistinct(t, inputs);
    PathsDistinct(t, cfg, inputs);
  }

  lemma PathsDistinct(t: Tools, cfg: string, inputs: seq<Input>)
    requires ToolsOk(t) && DistinctNamespaces(AllNamespaces(ParseAll(t, inputs)))
    ensures DistinctPaths(CleanFiles(t, cfg, inputs))
  {
    var all, files := AllNamespaces(ParseAll(t, inputs)), CleanFiles(t, cfg, inputs);
    forall i, j | 0 <= i < j < |files| ensures files[i].0 != files[j].0 {
      if j < |all| {
        assert all[i].name != all[j].name;
      }
    }
  }

  /** After a successful run the disk holds exactly the clean build's files, plus what no run recorded. */
  lemma {:induction false} CleanBuildIsLeft(t: Tools, cfg: string, inputs: seq<Input>, ws: Workspace)
    requires ToolsOk(t) && DistinctFiles(inputs) && inputs != [] && FullyValid(t, inputs)
    ensures LeftBy(t, CleanBuild(t, cfg, inputs, ws), inputs)
    ensures var files, prev := CleanFiles(t, cfg, inputs), LoadManifest(ws.manifest, cfg);
            var disk' := CleanBuild(t, cfg, inputs, ws).disk;
            disk'.Keys == (ws.disk.Keys - RecordedPaths(prev)) + Paths(files) &&
            forall p | p in disk' && p !in Paths(files) :: disk'[p] == ws.disk[p]
  {
    CleanPathsDistinct(t, cfg, inputs);
    WriteAllHolds(ws.disk, CleanFiles(t, cfg, inputs));
    var files, next := CleanFiles(t, cfg, inputs), CleanBuild(t, cfg, inputs, ws);
    forall x | x in files ensures x.0 in Paths(files) {}
    assert DiskHolds(next.disk, files);
  }

  // ----- histories -----

  datatype Run = Run(cfg: string, inputs: seq<Input>, dryRun: bool)

  ghost function After(t: Tools, ws: Workspace, runs: seq<Run>): Workspace {
    if runs == [] then ws
    else
      var r := runs[|runs| - 1];
      CleanCompile(t, r.cfg, r.inputs, r.dryRun, After(t, ws, runs[..|runs| - 1])).0
  }

  ghost predicate Legal(runs: seq<Run>) {
    forall r | r in runs :: DistinctFiles(r.inputs)
  }

  /** The workspace stays consistent whatever is built, with whatever configurations, dry or not. */
  lemma {:induction false} HistoryConsistent(t: Tools, ws: Workspace, runs: seq<Run>)
    requires ToolsOk(t) && Consistent(t, ws) && Legal(runs)
    ensures Consistent(t, After(t, ws, runs))
  {
    if runs != [] {
      var init, r := runs[..|runs| - 1], runs[|runs| - 1];
      assert r in runs;
      HistoryConsistent(t, ws, init);
      if r.inputs != [] && FullyValid(t, r.inputs) && !r.dryRun {
        CleanBuildIsLeft(t, r.cfg, r.inputs, After(t, ws, init));
        assert LeftBy(t, After(t, ws, runs), r.inputs);
      }
    }
  }

  lemma {:induction false} OutputsHold(t: Tools, cfg: string, nss: seq<NamespaceNode>)
    ensures forall n :: n in OutputsOf(t, cfg, nss) <==> exists x | x in nss :: x.name == n
    ensures forall n | n in OutputsOf(t, cfg, nss) :: OutputsOf(t, cfg, nss)[n].path == t.outPath(cfg, n)
  {
    if nss != [] {
      var init, last := nss[..|nss| - 1], nss[|nss| - 1];
      OutputsHold(t, cfg, init);
      assert forall x :: x in nss <==> x in init || x == last;
    }
  }

  lemma EveryNamespaceHasFile(t: Tools, cfg: string, inputs: seq<Input>, x: NamespaceNode)
    requires x in AllNamespaces(ParseAll(t, inputs))
    ensures t.outPath(cfg, x.name) in Paths(CleanFiles(t, cfg, inputs))
  {
    var all, files := AllNamespaces(ParseAll(t, inputs)), CleanFiles(t, cfg, inputs);
    var i :| 0 <= i < |all| && all[i] == x;
    assert files[i] in files;
  }

  lemma {:induction false} EntryPathProduced(t: Tools, cfg: string, inputs: seq<Input>, p: ParsedFile, n: string)
    requires p in ParseAll(t, inputs) && n in OutputsOf(t, cfg, p.namespaces)
    ensures OutputsOf(t, cfg, p.namespaces)[n].path in Paths(CleanFiles(t, cfg, inputs))
  {
    OutputsHold(t, cfg, p.namespaces);
    AllMembers(ParseAll(t, inputs));
    var x :| x in p.namespaces && x.name == n;
    EveryNamespaceHasFile(t, cfg, inputs, x);
  }

  lemma {:induction false} RecordedWasProduced(t: Tools, cfg: string, inputs: seq<Input>, path: string)
    requires DistinctFiles(inputs) && path in RecordedPaths(ManifestOf(t, cfg, inputs))
    ensures path in Paths(CleanFiles(t, cfg, inputs))
  {
    var parsed := ParseAll(t, inputs);
    var m, files := ManifestOf(t, cfg, inputs), CleanFiles(t, cfg, inputs);
    if path == t.modelOut(cfg) {
      assert files[|files| - 1].0 == path;
    } else {
      ParsedHolds(t, inputs);
      FilesHold(t, cfg, parsed, AllNamespaces(parsed));
      var f, n :| f in m.files && n in m.files[f].outputs && m.files[f].outputs[n].path == path;
      var p :| p in parsed && p.filename == f;
      EntryPathProduced(t, cfg, inputs, p, n);
    }
  }

  lemma {:induction false} ProducedIsRecorded(t: Tools, cfg: string, inputs: seq<Input>, path: string)
    requires DistinctFiles(inputs) && path in Paths(CleanFiles(t, cfg, inputs))
    ensures path in RecordedPaths(ManifestOf(t, cfg, inputs))
  {
    var parsed := ParseAll(t, inputs);
    var all := AllNamespaces(parsed);
    var m, files := ManifestOf(t, cfg, inputs), CleanFiles(t, cfg, inputs);
    var i :| 0 <= i < |files| && files[i].0 == path;
    if i < |all| {
      ParsedHolds(t, inputs);
      FilesHold(t, cfg, parsed, all);
      AllMembers(parsed);
      assert all[i] in all;
      var p :| p in parsed && all[i] in p.namespaces;
      OutputsHold(t, cfg, p.namespaces);
      assert p.filename in m.files && all[i].name in m.files[p.filename].outputs;
    }
  }

  /** A manifest records exactly the paths its run produced. */
  lemma {:induction false} RecordedIsProduced(t: Tools, cfg: string, inputs: seq<Input>)
    requires DistinctFiles(inputs)
    ensures RecordedPaths(ManifestOf(t, cfg, inputs)) == Paths(CleanFiles(t, cfg, inputs))
  {
    forall path ensures path in RecordedPaths(ManifestOf(t, cfg, inputs)) <==> path in Paths(CleanFiles(t, cfg, inputs)) {
      if path in RecordedPaths(ManifestOf(t, cfg, inputs)) {
        RecordedWasProduced(t, cfg, inputs, path);
      }
      if path in Paths(CleanFiles(t, cfg, inputs)) {
        ProducedIsRecorded(t, cfg, inputs, path);
      }
    }
  }

  /** Every path any successful run of the history produced. */
  ghost function EverProduced(t: Tools, runs: seq<Run>): set<string> {
    if runs == [] then {}
    else
      var r := runs[|runs| - 1];
      EverProduced(t, runs[..|runs| - 1]) +
      (if r.inputs != [] && FullyValid(t, r.inputs) && !r.dryRun then Paths(CleanFiles(t, r.cfg, r.inputs)) else {})
  }

  /** One configuration throughout: whatever any run produced and is still there is recorded now. */
  lemma {:induction false} NothingStale(t: Tools, cfg: string, disk: map<string, string>, runs: seq<Run>)
    requires ToolsOk(t) && Legal(runs) && forall r | r in runs :: r.cfg == cfg
    ensures var ws := After(t, Workspace(disk, None), runs);
            (ws.manifest.Some? ==> ws.manifest.value.configHash == cfg) &&
            forall p | p in EverProduced(t, runs) && p in ws.disk :: p in RecordedPaths(LoadManifest(ws.manifest, cfg))
  {
    if runs != [] {
      var init, r := runs[..|runs| - 1], runs[|runs| - 1];
      assert r in runs;
      NothingStale(t, cfg, disk, init);
      var ws := After(t, Workspace(disk, None), init);
      if r.inputs != [] && FullyValid(t, r.inputs) && !r.dryRun {
        CleanBuildIsLeft(t, cfg, r.inputs, ws);
        RecordedIsProduced(t, cfg, r.inputs);
      }
    }
  }

  /**
   * Over any history of edits and compiles under one configuration that ends in a successful compile: the disk
   * holds every file of a clean build of the last inputs, and of all files any run ever generated, only those.
   */
  lemma {:induction false} DiskIsCleanBuild(t: Tools, cfg: string, disk: map<string, string>, runs: seq<Run>)
    requires ToolsOk(t) && Legal(runs) && runs != [] && forall r | r in runs :: r.cfg == cfg
    requires var r := runs[|runs| - 1]; r.inputs != [] && FullyValid(t, r.inputs) && !r.dryRun
    ensures var files := CleanFiles(t, cfg, runs[|runs| - 1].inputs);
            var disk' := After(t, Workspace(disk, None), runs).disk;
            DiskHolds(disk', files) && forall p | p in EverProduced(t, runs) && p in disk' :: p in Paths(files)
  {
    var init, r := runs[..|runs| - 1], runs[|runs| - 1];
    assert r in runs;
    NothingStale(t, cfg, disk, runs);
    CleanBuildIsLeft(t, cfg, r.inputs, After(t, Workspace(disk, None), init));
    RecordedIsProduced(t, cfg, r.inputs);
  }
}
