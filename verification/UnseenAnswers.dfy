/**
 * A question that explain recalls although its tree shows it nowhere.
 *
 * Whoever has one relation on a document has another one on it, by a stored userset. Tracing the second relation asks for
 * the first, is refused, and shows the tuple alone; asking for the first afterwards finds it answered. So what is recalled
 * need not stand earlier in the tree.
 */
module UnseenAnswers {
  import opened Options
  import opened Text
  import opened Tuples
  import opened Rewrites
  import opened Models
  import opened SmallModels
  import opened CheckRuns
  import opened ExplainRuns
  import opened ExplainTrees
  import opened ValidatedModels
  import opened RequestsThrow

  /** In namespace `d` the subjects of `a` are usersets of `b`, those of `b` users, and `p` is either. */
  function Docs(u: string, d: string, a: string, b: string, p: string): NamespaceDef {
    NamespaceDef(d, map[a := [d + ['.'] + b], b := [u]], map[p := Union([Computed(a), Computed(b)])])
  }

  function Defs(u: string, d: string, a: string, b: string, p: string): seq<NamespaceDef> {
    [NamespaceDef(u, map[], map[]), Docs(u, d, a, b, p)]
  }

  predicate Names(u: string, d: string, a: string, b: string, p: string) {
    IsName(u) && IsName(d) && IsName(a) && IsName(b) && IsName(p) && u != d && a != b && a != p && b != p
  }

  /** The one tuple: whoever has `b` on the object has `a` on it. */
  function Stored(d: string, a: string, b: string, id: string): RelationTuple {
    RelationTuple(ObjectRef(d, id), a, Userset(d, id, b))
  }

  function Asked(u: string, d: string, a: string, b: string, p: string, id: string): World {
    World(ByName(Defs(u, d, a, b, p)), [Stored(d, a, b, id)], Concrete(u, id))
  }

  lemma DocsByName(u: string, d: string, a: string, b: string, p: string)
    requires Names(u, d, a, b, p)
    ensures ByName(Defs(u, d, a, b, p)) == map[u := Defs(u, d, a, b, p)[0], d := Docs(u, d, a, b, p)]
  {
    ByNameOfTwo(Defs(u, d, a, b, p)[0], Docs(u, d, a, b, p));
  }

  lemma DocsOk(u: string, d: string, a: string, b: string, p: string, id: string)
    requires Names(u, d, a, b, p)
    ensures ModelOk(Defs(u, d, a, b, p)) && ConformingStore(Asked(u, d, a, b, p, id))
  {
    var model, users, docs := ByName(Defs(u, d, a, b, p)), Defs(u, d, a, b, p)[0], Docs(u, d, a, b, p);
    DocsByName(u, d, a, b, p);
    SubjectsOnlyOk(model, users);
    PlainSubject(u);
    UsersetType(d, b);
    assert RelationsOk(model, docs);
    assert ExprOk(model, docs, Union([Computed(a), Computed(b)]));
    OnePermissionOk(model, docs, p, Union([Computed(a), Computed(b)]));
    TwoDefsOk(users, docs);
    assert docs.relations[a][0] == d + ['.'] + b && Allows(ParseSubjectType(d + ['.'] + b), Stored(d, a, b, id).subject);
  }

  // ----- the request -----

  predicate Fresh(w: World, st: State, n: Node) {
    Key(w, n) !in st.memo && Key(w, n) !in st.visiting
  }

  /** What a refused relation leaves: its answer, and a direct node that shows the tuples and nothing behind them. */
  ghost predicate Refused(
    w: World, st: State, n: Node, stored: seq<RelationTuple>, memo: Answers, counters: Metrics, run: TraceRun) {
    run.trace == Some(DirectTrace(n.obj, n.relation, w.subject, stored, None, None, false)) &&
    run.state.memo == memo[Key(w, n) := false] && run.state.visiting == st.visiting && run.state.metrics == counters
  }

  lemma NothingStored(w: World, st: State, n: Node, depth: Depth)
    requires w.Rewrite(n) == Some(Direct) && ListByObjectRelation(w.tuples, n.obj, n.relation) == [] && Fresh(w, st, n)
    ensures Refused(w, st, n, [], st.memo, CountRead(ReachedBy(st, depth)).metrics, TraceNode(w, st, n, depth))
  {
    var st1 := CountRead(Enter(ReachedBy(st, depth), Key(w, n)));
    assert FindMatch(w, st1, [], depth) == MatchRun(st1, Some(NoMatch));
    DirectRefused(w, st, n, [], st1, depth);
  }

  lemma DirectRefused(w: World, st: State, n: Node, stored: seq<RelationTuple>, end: State, depth: Depth)
    requires w.Rewrite(n) == Some(Direct) && ListByObjectRelation(w.tuples, n.obj, n.relation) == stored && Fresh(w, st, n)
    requires FindMatch(w, CountRead(Enter(ReachedBy(st, depth), Key(w, n))), stored, depth) == MatchRun(end, Some(NoMatch))
    requires end.visiting == st.visiting + {Key(w, n)}
    ensures Refused(w, st, n, stored, end.memo, end.metrics, TraceNode(w, st, n, depth))
  {
    var t := DirectTrace(n.obj, n.relation, w.subject, stored, None, None, false);
    assert TraceExpr(w, Enter(ReachedBy(st, depth), Key(w, n)), n, Direct, depth) == TraceRun(end, Some(t));
    assert st.visiting + {Key(w, n)} - {Key(w, n)} == st.visiting;
  }

  lemma UsersetRefused(w: World, st: State, n: Node, t: RelationTuple, memo: Answers, counters: Metrics, depth: Depth)
    requires w.Rewrite(n) == Some(Direct) && ListByObjectRelation(w.tuples, n.obj, n.relation) == [t] && Fresh(w, st, n)
    requires t.subject.Userset?
    requires var st1 := CountRead(Enter(ReachedBy(st, depth), Key(w, n)));
             Refused(w, st1, UsersetNode(t.subject), [], memo, counters, TraceNode(w, st1, UsersetNode(t.subject), depth + 1))
    ensures Refused(w, st, n, [t], memo[Key(w, UsersetNode(t.subject)) := false], counters, TraceNode(w, st, n, depth))
  {
    var st1 := CountRead(Enter(ReachedBy(st, depth), Key(w, n)));
    var asked := TraceNode(w, st1, UsersetNode(t.subject), depth + 1);
    assert [t][1..] == [];
    assert FindMatch(w, st1, [t], depth) == FindMatch(w, asked.state, [], depth) == MatchRun(asked.state, Some(NoMatch));
    DirectRefused(w, st, n, [t], asked.state, depth);
  }

  lemma KeysDiffer(w: World, o: ObjectRef, r: string, r': string)
    requires Keyable(o) && r != r'
    ensures Key(w, Node(o, r)) != Key(w, Node(o, r'))
  {
    if Key(w, Node(o, r)) == Key(w, Node(o, r')) {
      MemoKeyInjective(o, r, o, r', w.subject);
    }
  }

  lemma OneChild(w: World, st: State, n: Node, e: UsersetExpr, depth: Depth)
    requires TraceExpr(w, st, n, e, depth).trace.Some?
    ensures var run := TraceExpr(w, st, n, e, depth);
            TraceChildren(w, st, n, [e], depth) == TracesRun(run.state, Some([run.trace.value]))
  {
    var run := TraceExpr(w, st, n, e, depth);
    assert [e][0] == e && [e][1..] == [];
    assert TraceChildren(w, run.state, n, [], depth) == TracesRun(run.state, Some([]));
    assert [run.trace.value] + [] == [run.trace.value];
  }

  lemma TwoComputed(w: World, st: State, n: Node, a: string, b: string, ta: Trace, depth: Depth)
    requires depth < MAX_DEPTH
    requires var run := TraceNode(w, st, Node(n.obj, a), depth + 1);
             run.trace == Some(ta) && Key(w, Node(n.obj, b)) in run.state.memo && run.state.memo[Key(w, Node(n.obj, b))] == false
    requires !ta.Allows()
    ensures var run := TraceNode(w, st, Node(n.obj, a), depth + 1);
            var reached := ReachedBy(run.state, depth + 1).metrics;
            TraceExpr(w, st, n, Union([Computed(a), Computed(b)]), depth).state.metrics ==
            reached.(cacheHits := reached.cacheHits + 1)
    ensures TraceExpr(w, st, n, Union([Computed(a), Computed(b)]), depth).trace ==
            Some(UnionTrace([ComputedTrace(a, ta, false), ComputedTrace(b, CachedTrace(Key(w, Node(n.obj, b)), false), false)], false))
  {
    var run := TraceNode(w, st, Node(n.obj, a), depth + 1);
    var tb := ComputedTrace(b, CachedTrace(Key(w, Node(n.obj, b)), false), false);
    var cs := [Computed(a), Computed(b)];
    assert cs[1..] == [Computed(b)] && [Computed(b)][1..] == [];
    var second := TraceExpr(w, run.state, n, Computed(b), depth);
    assert TraceNode(w, run.state, Node(n.obj, b), depth + 1).trace == Some(CachedTrace(Key(w, Node(n.obj, b)), false));
    assert second.trace == Some(tb);
    OneChild(w, run.state, n, Computed(b), depth);
    assert TraceExpr(w, st, n, Computed(a), depth) == TraceRun(run.state, Some(ComputedTrace(a, ta, false)));
    assert TraceChildren(w, st, n, cs, depth).traces == Some([ComputedTrace(a, ta, false)] + [tb]);
    assert [ComputedTrace(a, ta, false)] + [tb] == [ComputedTrace(a, ta, false), tb];
  }

  /**
   * On a validated model and a conforming store: the tree says that `b` was answered before, and no node of it answers
   * `b`. So a recalled question need not have been traced earlier in the tree; its account is behind the userset. Check
   * makes the same two tuple queries and one use of the memo, and reaches depth 2.
   */
  lemma {:induction false} RecalledUnseen(u: string, d: string, a: string, b: string, p: string, id: string)
    requires Names(u, d, a, b, p) && IsId(id)
    ensures ModelOk(Defs(u, d, a, b, p)) && ConformingStore(Asked(u, d, a, b, p, id))
    ensures var w, o := Asked(u, d, a, b, p, id), ObjectRef(d, id);
            TraceNode(w, INITIAL, Node(o, p), 0).trace == Some(UnionTrace([
              ComputedTrace(a, DirectTrace(o, a, w.subject, w.tuples, None, None, false), false),
              ComputedTrace(b, CachedTrace(Key(w, Node(o, b)), false), false)], false)) &&
            Key(w, Node(o, b)) !in Shown(w, Node(o, p), TraceNode(w, INITIAL, Node(o, p), 0).trace.value)
    ensures Request(Asked(u, d, a, b, p, id), ShortCircuit, Node(ObjectRef(d, id), p)).state.metrics ==
            Metrics(2, 0, 1, 2, false)
  {
    DocsOk(u, d, a, b, p, id);
    DocsByName(u, d, a, b, p);
    IdsHoldNoSeparator(id);
    NamesHoldNoSeparator(d);
    var w, o := Asked(u, d, a, b, p, id), ObjectRef(d, id);
    RunUnseen(w, o, a, b, p, Stored(d, a, b, id));
    UnionsOnly(u, d, a, b, p, id);
    NodeAlike(w, INITIAL, Node(o, p), 0);
  }

  lemma UnionsOnly(u: string, d: string, a: string, b: string, p: string, id: string)
    requires Names(u, d, a, b, p)
    ensures NothingToGrant(Asked(u, d, a, b, p, id))
  {
    DocsByName(u, d, a, b, p);
    var w := Asked(u, d, a, b, p, id);
    forall n: Node | w.Rewrite(n).Some? ensures UnionOnly(w.Rewrite(n).value) {
      assert w.Rewrite(n).value == Direct || w.Rewrite(n).value == Union([Computed(a), Computed(b)]);
    }
  }

  lemma RunUnseen(w: World, o: ObjectRef, a: string, b: string, p: string, t: RelationTuple)
    requires Keyable(o) && a != b && a != p && b != p
    requires w.Rewrite(Node(o, p)) == Some(Union([Computed(a), Computed(b)]))
    requires w.Rewrite(Node(o, a)) == Some(Direct) == w.Rewrite(Node(o, b))
    requires t == RelationTuple(o, a, Userset(o.namespace, o.id, b)) && w.tuples == [t]
    ensures TraceNode(w, INITIAL, Node(o, p), 0).trace == Some(UnionTrace([
              ComputedTrace(a, DirectTrace(o, a, w.subject, [t], None, None, false), false),
              ComputedTrace(b, CachedTrace(Key(w, Node(o, b)), false), false)], false))
    ensures Key(w, Node(o, b)) !in Shown(w, Node(o, p), TraceNode(w, INITIAL, Node(o, p), 0).trace.value)
    ensures Request(w, Full, Node(o, p)).state.metrics == Metrics(2, 0, 1, 2, false)
  {
    ExplainVerdict(w, Node(o, p));
    KeysDiffer(w, o, a, b);
    KeysDiffer(w, o, a, p);
    KeysDiffer(w, o, b, p);
    assert w.tuples[1..] == [];
    var st := Enter(ReachedBy(INITIAL, 0), Key(w, Node(o, p)));
    NothingStored(w, CountRead(Enter(ReachedBy(st, 1), Key(w, Node(o, a)))), Node(o, b), 2);
    UsersetRefused(w, st, Node(o, a), t, map[], Metrics(2, 0, 0, 2, false), 1);
    TwoComputed(w, st, Node(o, p), a, b, DirectTrace(o, a, w.subject, [t], None, None, false), 0);
    ShowsTwo(w, o, a, b, p, DirectTrace(o, a, w.subject, [t], None, None, false));
  }

  lemma ShowsTwo(w: World, o: ObjectRef, a: string, b: string, p: string, ta: Trace)
    requires ta.DirectTrace? && ta.matched.None?
    ensures Shown(w, Node(o, p), UnionTrace([ComputedTrace(a, ta, false),
              ComputedTrace(b, CachedTrace(Key(w, Node(o, b)), false), false)], false)) == {Key(w, Node(o, p)), Key(w, Node(o, a))}
  {
    var x, y := ComputedTrace(a, ta, false), ComputedTrace(b, CachedTrace(Key(w, Node(o, b)), false), false);
    assert [x, y][1..] == [y] && [y][1..] == [];
    assert Shown(w, Node(o, b), CachedTrace(Key(w, Node(o, b)), false)) == {};
    assert ShownBelow(w, Node(o, p), y) == {} && ShownOfChildren(w, Node(o, p), []) == {};
    assert ShownOfChildren(w, Node(o, p), [y]) == {};
    assert ShownBelow(w, Node(o, a), ta) == {} && Shown(w, Node(o, a), ta) == {Key(w, Node(o, a))};
    assert ShownBelow(w, Node(o, p), x) == {Key(w, Node(o, a))};
    assert ShownOfChildren(w, Node(o, p), [x, y]) == {Key(w, Node(o, a))};
    assert ShownBelow(w, Node(o, p), UnionTrace([x, y], false)) == {Key(w, Node(o, a))};
  }
}
