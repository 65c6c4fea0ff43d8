/** Where the depth cap bites: groups nested one in the other, the innermost with one user. */
module NestedGroups {
  import opened Options
  import opened Text
  import opened Tuples
  import opened Rewrites
  import opened Models
  import opened SmallModels
  import opened CheckRuns
  import opened ValidatedModels

  /** The groups are `g`, `gg`, `ggg` and so on. */
  function Id(i: nat): string {
    seq(i + 1, _ => 'g')
  }

  function Group(g: string, i: nat): ObjectRef {
    ObjectRef(g, Id(i))
  }

  /** The members of group `i` are those of the next one; the members of group `k` are `u`. */
  function MembersOf(g: string, r: string, u: SubjectRef, i: nat, k: nat): RelationTuple {
    RelationTuple(Group(g, i), r, if i < k then Userset(g, Id(i + 1), r) else u)
  }

  function Nested(g: string, r: string, u: SubjectRef, i: nat, k: nat): seq<RelationTuple>
    requires i <= k
    decreases k - i
  {
    [MembersOf(g, r, u, i, k)] + if i < k then Nested(g, r, u, i + 1, k) else []
  }

  /** A store of `k` nested groups and one that asks about the outermost. */
  predicate Chain(w: World, g: string, r: string, k: nat) {
    w.subject.Concrete? && w.tuples == Nested(g, r, w.subject, 0, k) && w.Rewrite(Node(ObjectRef(g, ""), r)) == Some(Direct)
  }

  lemma IdsDiffer(i: nat, j: nat)
    ensures Id(i) == Id(j) <==> i == j
  {
    assert |Id(i)| == i + 1 && |Id(j)| == j + 1;
  }

  lemma OneListed(g: string, r: string, u: SubjectRef, i: nat, k: nat, j: nat)
    ensures ListByObjectRelation([MembersOf(g, r, u, i, k)], Group(g, j), r) ==
            if i == j then [MembersOf(g, r, u, j, k)] else []
  {
    IdsDiffer(i, j);
    TuplesKeepOrder([], [], MembersOf(g, r, u, i, k), Group(g, j), r);
  }

  lemma {:induction false} NestedHolds(g: string, r: string, u: SubjectRef, i: nat, k: nat, j: nat)
    requires i <= k && j <= k
    ensures ListByObjectRelation(Nested(g, r, u, i, k), Group(g, j), r) ==
            if i <= j then [MembersOf(g, r, u, j, k)] else []
    decreases k - i
  {
    OneListed(g, r, u, i, k, j);
    var m := MembersOf(g, r, u, i, k);
    if i < k {
      NestedHolds(g, r, u, i + 1, k, j);
      TuplesKeepOrder([m], Nested(g, r, u, i + 1, k), m, Group(g, j), r);
    } else {
      assert [m] + [] == [m];
    }
  }

  // ----- derivable at any depth -----

  lemma SubjectGrants(w: World, g: string, r: string, k: nat, i: nat)
    requires w.subject.Concrete? && i <= k
    ensures var s := MembersOf(g, r, w.subject, i, k).subject;
            if i < k then s.Userset? && UsersetNode(s) == Node(Group(g, i + 1), r) else GrantsOutright(s, w.subject)
  {
  }

  lemma {:induction false} InStage(w: World, g: string, r: string, k: nat, i: nat)
    requires Chain(w, g, r, k) && i <= k
    ensures Node(Group(g, i), r) in Stage(w, k - i + 1)
    decreases k - i
  {
    if i < k {
      InStage(w, g, r, k, i + 1);
    }
    Stored(w, g, r, k, i);
    SubjectGrants(w, g, r, k, i);
    GrantedNext(w, k - i, Node(Group(g, i), r), MembersOf(g, r, w.subject, i, k).subject);
  }

  lemma Stored(w: World, g: string, r: string, k: nat, i: nat)
    requires Chain(w, g, r, k) && i <= k
    ensures ListByObjectRelation(w.tuples, Group(g, i), r) == [MembersOf(g, r, w.subject, i, k)]
    ensures MembersOf(g, r, w.subject, i, k) in w.tuples
  {
    NestedHolds(g, r, w.subject, 0, k, i);
    assert MembersOf(g, r, w.subject, i, k) in ListByObjectRelation(w.tuples, Group(g, i), r);
  }

  lemma GrantedNext(w: World, j: nat, n: Node, s: SubjectRef)
    requires w.Rewrite(n) == Some(Direct) && RelationTuple(n.obj, n.relation, s) in w.tuples
    requires GrantsOutright(s, w.subject) || (s.Userset? && UsersetNode(s) in Stage(w, j))
    ensures n in Stage(w, j + 1)
  {
    assert DirectIn(w, Stage(w, j), n, s);
  }

  // ----- found down to the cap -----

  function Min(a: nat, b: nat): nat { if a < b then a else b }

  /** The counters after asking about group `i` at depth `i`: one read per group, down to the cap. */
  function Counted(m: Metrics, i: nat, k: nat): Metrics
    requires i <= k && i <= 33
  {
    Metrics(m.tupleReads + (Min(k, 32) + 1 - i), m.parentLookups, m.cacheHits, Min(k, 33), m.hitMaxDepth || k > 32)
  }

  ghost predicate Ahead(w: World, st: State, g: string, r: string, i: nat) {
    st.metrics.maxDepth <= i && st.memo == map[] &&
    forall j: nat | j >= i :: Key(w, Node(Group(g, j), r)) !in st.visiting
  }

  lemma GroupKeysDiffer(w: World, g: string, r: string, i: nat, j: nat)
    requires ':' !in g && i != j
    ensures Key(w, Node(Group(g, i), r)) != Key(w, Node(Group(g, j), r))
  {
    assert |Id(i)| != |Id(j)|;
    if Key(w, Node(Group(g, i), r)) == Key(w, Node(Group(g, j), r)) {
      MemoKeyInjective(Group(g, i), r, Group(g, j), r, w.subject);
    }
  }

  lemma EntersAhead(w: World, g: string, r: string, st: State, i: nat)
    requires ':' !in g && Ahead(w, st, g, r, i)
    ensures Ahead(w, CountRead(Enter(ReachedBy(st, i), Key(w, Node(Group(g, i), r)))), g, r, i + 1)
  {
    forall j: nat | j >= i + 1
      ensures Key(w, Node(Group(g, j), r)) !in Enter(ReachedBy(st, i), Key(w, Node(Group(g, i), r))).visiting
    {
      GroupKeysDiffer(w, g, r, i, j);
    }
  }

  /** What asking the subject of a tuple comes to. */
  function Ask(w: World, mode: Mode, st: State, s: SubjectRef, depth: Depth): Run {
    if GrantsOutright(s, w.subject) then Run(st, Some(true))
    else if s.Userset? then CheckNode(w, mode, st, UsersetNode(s), depth + 1)
    else Run(st, Some(false))
  }

  lemma OneTuple(w: World, mode: Mode, st: State, t: RelationTuple, depth: Depth)
    ensures AnyTuple(w, mode, st, [t], depth) == Ask(w, mode, st, t.subject, depth)
  {
    assert [t][1..] == [];
    assert forall st': State :: AnyTuple(w, mode, st', [], depth) == Run(st', Some(false));
  }

  /** A question whose relation holds one tuple is decided by that tuple. */
  lemma OneTupleDecides(w: World, mode: Mode, st: State, n: Node, t: RelationTuple, depth: Depth)
    requires w.Rewrite(n) == Some(Direct) && ListByObjectRelation(w.tuples, n.obj, n.relation) == [t]
    requires Key(w, n) !in st.memo && Key(w, n) !in st.visiting
    ensures var asked := Ask(w, mode, CountRead(Enter(ReachedBy(st, depth), Key(w, n))), t.subject, depth);
            var run := CheckNode(w, mode, st, n, depth);
            run.verdict == asked.verdict && run.state.metrics == asked.state.metrics
  {
    OneTuple(w, mode, CountRead(Enter(ReachedBy(st, depth), Key(w, n))), t, depth);
  }

  /** The innermost group grants outright, any other one asks the next. */
  lemma ChainStep(w: World, mode: Mode, g: string, r: string, k: nat, st: State, i: nat)
    requires Chain(w, g, r, k) && i <= k && i <= 32 && Ahead(w, st, g, r, i)
    ensures var st1 := CountRead(Enter(ReachedBy(st, i), Key(w, Node(Group(g, i), r))));
            var run := CheckNode(w, mode, st, Node(Group(g, i), r), i);
            var next := if i == k then Run(st1, Some(true)) else CheckNode(w, mode, st1, Node(Group(g, i + 1), r), i + 1);
            run.verdict == next.verdict && run.state.metrics == next.state.metrics
  {
    var n, t := Node(Group(g, i), r), MembersOf(g, r, w.subject, i, k);
    Stored(w, g, r, k, i);
    OneTupleDecides(w, mode, st, n, t, i);
    if i < k {
      assert UsersetNode(t.subject) == Node(Group(g, i + 1), r);
    }
  }

  lemma {:induction false} ChainRun(w: World, mode: Mode, g: string, r: string, k: nat, st: State, i: nat)
    requires Chain(w, g, r, k) && ':' !in g && i <= k && i <= 33 && Ahead(w, st, g, r, i)
    ensures var run := CheckNode(w, mode, st, Node(Group(g, i), r), i);
            run.verdict == Some(k <= 32) && run.state.metrics == Counted(st.metrics, i, k)
    decreases 33 - i
  {
    if i <= 32 {
      ChainStep(w, mode, g, r, k, st, i);
      if i < k {
        EntersAhead(w, g, r, st, i);
        ChainRun(w, mode, g, r, k, CountRead(Enter(ReachedBy(st, i), Key(w, Node(Group(g, i), r)))), i + 1);
      }
    }
  }

  // ----- a model and stores that have such chains -----

  /** The members of a group are users, or all members of another group. */
  function Defs(u: string, g: string, r: string): seq<NamespaceDef> {
    [NamespaceDef(u, map[], map[]), NamespaceDef(g, map[r := [u, g + ['.'] + r]], map[])]
  }

  function Groups(u: string, g: string, r: string, id: string, k: nat): World {
    World(ByName(Defs(u, g, r)), Nested(g, r, Concrete(u, id), 0, k), Concrete(u, id))
  }

  predicate Names(u: string, g: string, r: string) {
    IsName(u) && IsName(g) && IsName(r) && u != g
  }

  lemma GroupsByName(u: string, g: string, r: string)
    requires Names(u, g, r)
    ensures ByName(Defs(u, g, r)) == map[u := Defs(u, g, r)[0], g := Defs(u, g, r)[1]]
  {
    ByNameOfTwo(Defs(u, g, r)[0], Defs(u, g, r)[1]);
  }

  lemma GroupsOk(u: string, g: string, r: string)
    requires Names(u, g, r)
    ensures ModelOk(Defs(u, g, r))
  {
    var model, users, groups := ByName(Defs(u, g, r)), Defs(u, g, r)[0], Defs(u, g, r)[1];
    GroupsByName(u, g, r);
    SubjectsOnlyOk(model, users);
    NoPermissionsOk(model, groups);
    PlainSubject(u);
    UsersetType(g, r);
    assert RelationsOk(model, groups);
    TwoDefsOk(users, groups);
  }

  lemma {:induction false} NestedConforms(u: string, g: string, r: string, id: string, i: nat, k: nat, t: RelationTuple)
    requires i <= k && t in Nested(g, r, Concrete(u, id), i, k)
    ensures t.obj.namespace == g && t.relation == r
    ensures t.subject == Concrete(u, id) || exists id' :: t.subject == Userset(g, id', r)
    decreases k - i
  {
    if t != MembersOf(g, r, Concrete(u, id), i, k) {
      NestedConforms(u, g, r, id, i + 1, k, t);
    }
  }

  lemma GroupsConform(u: string, g: string, r: string, id: string, k: nat)
    requires Names(u, g, r)
    ensures ConformingStore(Groups(u, g, r, id, k))
  {
    PlainSubject(u);
    UsersetType(g, r);
    GroupsByName(u, g, r);
    var w, subjects := Groups(u, g, r, id, k), [u, g + ['.'] + r];
    assert subjects[0] == u && subjects[1] == g + ['.'] + r;
    forall t | t in w.tuples ensures Conforms(w.model, t) {
      NestedConforms(u, g, r, id, 0, k, t);
      assert w.model[g].relations[r] == subjects;
      assert Allows(ParseSubjectType(subjects[0]), t.subject) || Allows(ParseSubjectType(subjects[1]), t.subject);
    }
  }

  /**
   * The cap, from both sides: on a validated model and a conforming store with `k` nested groups the user is always a
   * member of the outermost one, and either evaluator says so if and only if `k` is at most 32. One tuple query is made
   * for every group looked at, and the counters show how deep the request went and whether it was cut.
   */
  lemma {:induction false} CutBeyond32(u: string, g: string, r: string, id: string, k: nat, mode: Mode)
    requires Names(u, g, r)
    ensures ModelOk(Defs(u, g, r)) && ConformingStore(Groups(u, g, r, id, k))
    ensures var w, n := Groups(u, g, r, id, k), Node(Group(g, 0), r);
            n in Lfp(w) && Request(w, mode, n).verdict == Some(k <= 32) &&
            Request(w, mode, n).state.metrics ==
              if k <= 32 then Metrics(k + 1, 0, 0, k, false) else Metrics(33, 0, 0, 33, true)
  {
    GroupsOk(u, g, r);
    GroupsConform(u, g, r, id, k);
    GroupsByName(u, g, r);
    NamesHoldNoSeparator(g);
    var w := Groups(u, g, r, id, k);
    assert Chain(w, g, r, k);
    InStage(w, g, r, k, 0);
    ChainRun(w, mode, g, r, k, INITIAL, 0);
  }
}
