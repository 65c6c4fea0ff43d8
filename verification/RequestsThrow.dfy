/** When requests on a validated model can throw: exactly when some walk does not land, for explain and, on unions, for check. */
module RequestsThrow {
  import opened Options
  import opened Text
  import opened Tuples
  import opened Rewrites
  import opened Models
  import opened CheckRuns
  import opened CheckSoundness
  import opened ExplainRuns
  import opened ValidatedModels

  // ----- an undeclared question is never remembered -----

  ghost predicate Avoids(w: World, st: State, m: Node) {
    Key(w, m) !in st.memo && Key(w, m) !in st.visiting
  }

  ghost predicate Undeclared(w: World, m: Node) {
    KeyableWorld(w) && Keyable(m.obj) && w.Rewrite(m).None?
  }

  lemma {:induction false} NodeAvoids(w: World, mode: Mode, st: State, n: Node, depth: Level, m: Node)
    requires Undeclared(w, m) && Keyable(n.obj) && Avoids(w, st, m)
    ensures Avoids(w, CheckNode(w, mode, st, n, depth).state, m)
    decreases MAX_DEPTH + 1 - depth, 4
  {
    var key := Key(w, n);
    if depth <= MAX_DEPTH && key !in st.memo && key !in st.visiting && w.Rewrite(n).Some? {
      if key == Key(w, m) {
        MemoKeyInjective(n.obj, n.relation, m.obj, m.relation, w.subject);
      }
      ExprAvoids(w, mode, Enter(ReachedBy(st, depth), key), n, w.Rewrite(n).value, depth, m);
    }
  }

  lemma {:induction false} ExprAvoids(w: World, mode: Mode, st: State, n: Node, e: UsersetExpr, depth: Depth, m: Node)
    requires Undeclared(w, m) && Keyable(n.obj) && Avoids(w, st, m)
    ensures Avoids(w, Evaluate(w, mode, st, n, e, depth).state, m)
    decreases MAX_DEPTH + 1 - depth, 3, e
  {
    match e
    case Direct =>
      TuplesAvoid(w, mode, CountRead(st), ListByObjectRelation(w.tuples, n.obj, n.relation), depth, m);
    case Computed(r) => NodeAvoids(w, mode, st, Node(n.obj, r), depth + 1, m);
    case TupleToUserset(t, c) =>
      var parents := ListObjectsRelatedBy(w.tuples, n.obj, t);
      ParentsKeyable(w, n, t);
      ParentsAvoid(w, mode, CountParents(st), parents, c, depth, m);
    case Union(cs) => ChildrenAvoid(w, mode, st, n, cs, true, depth, m);
    case Intersection(cs) => ChildrenAvoid(w, mode, st, n, cs, false, depth, m);
    case Exclusion(base, subtract) =>
      ExprAvoids(w, mode, st, n, base, depth, m);
      ExprAvoids(w, mode, Evaluate(w, mode, st, n, base, depth).state, n, subtract, depth, m);
  }

  lemma ParentsKeyable(w: World, n: Node, t: string)
    requires KeyableWorld(w)
    ensures forall p | p in ListObjectsRelatedBy(w.tuples, n.obj, t) :: Keyable(p)
  {
    forall p | p in ListObjectsRelatedBy(w.tuples, n.obj, t) ensures Keyable(p) {
      assert RelationTuple(n.obj, t, Concrete(p.namespace, p.id)) in w.tuples;
    }
  }

  lemma {:induction false} ChildrenAvoid(
    w: World, mode: Mode, st: State, n: Node, cs: seq<UsersetExpr>, stop: bool, depth: Depth, m: Node)
    requires Undeclared(w, m) && Keyable(n.obj) && Avoids(w, st, m)
    ensures Avoids(w, EvaluateUntil(w, mode, st, n, cs, stop, depth).state, m)
    decreases MAX_DEPTH + 1 - depth, 3, cs
  {
    if cs != [] {
      ExprAvoids(w, mode, st, n, cs[0], depth, m);
      ChildrenAvoid(w, mode, Evaluate(w, mode, st, n, cs[0], depth).state, n, cs[1..], stop, depth, m);
    }
  }

  lemma {:induction false} ParentsAvoid(
    w: World, mode: Mode, st: State, parents: seq<ObjectRef>, c: string, depth: Depth, m: Node)
    requires Undeclared(w, m) && Avoids(w, st, m) && forall p | p in parents :: Keyable(p)
    ensures Avoids(w, AnyParent(w, mode, st, parents, c, depth).state, m)
    decreases MAX_DEPTH + 1 - depth, 1, |parents|
  {
    if parents != [] {
      NodeAvoids(w, mode, st, Node(parents[0], c), depth + 1, m);
      ParentsAvoid(w, mode, CheckNode(w, mode, st, Node(parents[0], c), depth + 1).state, parents[1..], c, depth, m);
    }
  }

  lemma {:induction false} TuplesAvoid(w: World, mode: Mode, st: State, stored: seq<RelationTuple>, depth: Depth, m: Node)
    requires Undeclared(w, m) && Avoids(w, st, m) && forall t | t in stored :: t in w.tuples
    ensures Avoids(w, AnyTuple(w, mode, st, stored, depth).state, m)
    decreases MAX_DEPTH + 1 - depth, 1, |stored|
  {
    if stored != [] {
      var s := stored[0].subject;
      assert stored[0] in stored;
      if s.Userset? {
        var first := CheckNode(w, mode, st, UsersetNode(s), depth + 1);
        NodeAvoids(w, mode, st, UsersetNode(s), depth + 1, m);
        TuplesAvoid(w, mode, first.state, stored[1..], depth, m);
      } else {
        TuplesAvoid(w, mode, st, stored[1..], depth, m);
      }
    }
  }

  // ----- so an evaluator that looks at every branch throws when it meets one -----

  predicate HasWalk(e: UsersetExpr, t: string, c: string)
    decreases e
  {
    match e
    case Direct | Computed(_) => false
    case TupleToUserset(t', c') => t' == t && c' == c
    case Union(cs) => exists i | 0 <= i < |cs| :: HasWalk(cs[i], t, c)
    case Intersection(cs) => exists i | 0 <= i < |cs| :: HasWalk(cs[i], t, c)
    case Exclusion(base, subtract) => HasWalk(base, t, c) || HasWalk(subtract, t, c)
  }

  lemma {:induction false} ParentThrows(w: World, st: State, parents: seq<ObjectRef>, depth: Depth, m: Node)
    requires Undeclared(w, m) && Avoids(w, st, m) && (forall p | p in parents :: Keyable(p)) && depth < MAX_DEPTH
    requires m.obj in parents
    ensures AnyParent(w, Full, st, parents, m.relation, depth).verdict.None?
    decreases |parents|
  {
    var first := Node(parents[0], m.relation);
    if first != m {
      NodeAvoids(w, Full, st, first, depth + 1, m);
      ParentThrows(w, CheckNode(w, Full, st, first, depth + 1).state, parents[1..], depth, m);
    }
  }

  lemma {:induction false} WalkThrows(w: World, st: State, n: Node, e: UsersetExpr, depth: Depth, t: string, m: Node)
    requires Undeclared(w, m) && Keyable(n.obj) && Avoids(w, st, m) && depth < MAX_DEPTH
    requires HasWalk(e, t, m.relation) && m.obj in ListObjectsRelatedBy(w.tuples, n.obj, t)
    ensures Evaluate(w, Full, st, n, e, depth).verdict.None?
    decreases e
  {
    match e
    case TupleToUserset(_, _) =>
      ParentsKeyable(w, n, t);
      ParentThrows(w, CountParents(st), ListObjectsRelatedBy(w.tuples, n.obj, t), depth, m);
    case Union(cs) =>
      var i :| 0 <= i < |cs| && HasWalk(cs[i], t, m.relation);
      ChildThrows(w, st, n, cs, true, depth, t, m, i);
    case Intersection(cs) =>
      var i :| 0 <= i < |cs| && HasWalk(cs[i], t, m.relation);
      ChildThrows(w, st, n, cs, false, depth, t, m, i);
    case Exclusion(base, subtract) =>
      if HasWalk(base, t, m.relation) {
        WalkThrows(w, st, n, base, depth, t, m);
      } else {
        ExprAvoids(w, Full, st, n, base, depth, m);
        WalkThrows(w, Evaluate(w, Full, st, n, base, depth).state, n, subtract, depth, t, m);
      }
  }

  lemma {:induction false} ChildThrows(
    w: World, st: State, n: Node, cs: seq<UsersetExpr>, stop: bool, depth: Depth, t: string, m: Node, i: nat)
    requires Undeclared(w, m) && Keyable(n.obj) && Avoids(w, st, m) && depth < MAX_DEPTH
    requires m.obj in ListObjectsRelatedBy(w.tuples, n.obj, t)
    requires i < |cs| && HasWalk(cs[i], t, m.relation)
    ensures EvaluateUntil(w, Full, st, n, cs, stop, depth).verdict.None?
    decreases cs
  {
    if i == 0 {
      WalkThrows(w, st, n, cs[0], depth, t, m);
    } else {
      var first := Evaluate(w, Full, st, n, cs[0], depth);
      ExprAvoids(w, Full, st, n, cs[0], depth, m);
      ChildThrows(w, first.state, n, cs[1..], stop, depth, t, m, i - 1);
    }
  }

  // ----- one conforming tuple is enough -----

  /** A walk that does not land, with the subject type it fails on. */
  lemma {:induction false} FailingWalk(model: Model, d: NamespaceDef, e: UsersetExpr) returns (t: string, c: string, s: string)
    requires !WalksLand(model, d, e)
    ensures HasWalk(e, t, c) && t in d.relations && s in d.relations[t] && !Lands(model, s, c)
    decreases e
  {
    match e
    case TupleToUserset(t', c') =>
      t, c := t', c';
      s :| s in d.relations[t] && !Lands(model, s, c);
    case Union(cs) =>
      var i :| 0 <= i < |cs| && !WalksLand(model, d, cs[i]);
      t, c, s := FailingWalk(model, d, cs[i]);
    case Intersection(cs) =>
      var i :| 0 <= i < |cs| && !WalksLand(model, d, cs[i]);
      t, c, s := FailingWalk(model, d, cs[i]);
    case Exclusion(base, subtract) =>
      t, c, s := FailingWalk(model, d, if WalksLand(model, d, base) then subtract else base);
  }

  /** A parent that is not the subject of the request. */
  function ParentId(subject: SubjectRef): string {
    if subject.Concrete? && subject.id == "parent" then "other" else "parent"
  }

  function OneTuple(model: Model, ns: string, t: string, s: string, subject: SubjectRef): World {
    World(model,
          [RelationTuple(ObjectRef(ns, "object"), t, Concrete(ParseSubjectType(s).namespace, ParentId(subject)))],
          subject)
  }

  lemma NamesAreKeyable(ns: string, id: string)
    requires IsName(ns) && (id == "object" || id == "parent" || id == "other")
    ensures Keyable(ObjectRef(ns, id))
  {
    NamesHoldNoSeparator(ns);
  }

  lemma OneTupleConforms(defs: seq<NamespaceDef>, ns: string, t: string, s: string, subject: SubjectRef)
    requires ModelOk(defs) && ns in ByName(defs) && t in ByName(defs)[ns].relations && s in ByName(defs)[ns].relations[t]
    requires ParseSubjectType(s).relation.None? && !ParseSubjectType(s).wildcard
    ensures var w := OneTuple(ByName(defs), ns, t, s, subject);
            ConformingStore(w) && KeyableWorld(w) && !GrantStored(w) && Keyable(ObjectRef(ns, "object"))
    ensures Keyable(ObjectRef(ParseSubjectType(s).namespace, ParentId(subject)))
  {
    DefinedIsOk(defs, ns);
    assert SubjectTypeOk(ByName(defs), s);
    NamesAreKeyable(ns, "object");
    NamesAreKeyable(ParseSubjectType(s).namespace, ParentId(subject));
    var w := OneTuple(ByName(defs), ns, t, s, subject);
    assert Allows(ParseSubjectType(s), w.tuples[0].subject);
    assert "parent" != "other" by { assert "parent"[0] != "other"[0]; }
  }

  /** A conforming store and a declared question about which an evaluator that looks at every branch throws. */
  lemma {:induction false} FailingRequest(defs: seq<NamespaceDef>, subject: SubjectRef) returns (w: World, n: Node)
    requires ModelOk(defs) && !AllWalksLand(ByName(defs))
    ensures w.model == ByName(defs) && w.subject == subject && ConformingStore(w) && w.Rewrite(n).Some? && !GrantStored(w)
    ensures Request(w, Full, n).verdict.None?
  {
    var model := ByName(defs);
    var ns :| ns in model && exists p | p in model[ns].permissions :: !WalksLand(model, model[ns], model[ns].permissions[p]);
    var p :| p in model[ns].permissions && !WalksLand(model, model[ns], model[ns].permissions[p]);
    var t, c, s := FailingWalk(model, model[ns], model[ns].permissions[p]);
    w, n := OneTuple(model, ns, t, s, subject), Node(ObjectRef(ns, "object"), p);
    OneTupleConforms(defs, ns, t, s, subject);
    var m := Node(ObjectRef(ParseSubjectType(s).namespace, ParentId(subject)), c);
    assert RelationTuple(n.obj, t, Concrete(m.obj.namespace, m.obj.id)) == w.tuples[0];
    OneThrows(w, n, t, m);
  }

  lemma OneThrows(w: World, n: Node, t: string, m: Node)
    requires Undeclared(w, m) && Keyable(n.obj) && w.Rewrite(n).Some?
    requires HasWalk(w.Rewrite(n).value, t, m.relation) && m.obj in ListObjectsRelatedBy(w.tuples, n.obj, t)
    ensures Request(w, Full, n).verdict.None?
  {
    if Key(w, n) == Key(w, m) {
      MemoKeyInjective(n.obj, n.relation, m.obj, m.relation, w.subject);
    }
    WalkThrows(w, Enter(ReachedBy(INITIAL, 0), Key(w, n)), n, w.Rewrite(n).value, 0, t, m);
  }

  // ----- explain -----

  ghost predicate ExplainAnswers(w: World, n: Node) {
    ConformingStore(w) && w.Rewrite(n).Some? ==> TraceNode(w, INITIAL, n, 0).trace.Some?
  }

  /**
   * On a validated model, explain answers every request about something declared, over every conforming store, if and only
   * if every walk finds its relation on all namespaces it can lead to.
   */
  lemma {:induction false} ExplainAnswersIffWalksLand(defs: seq<NamespaceDef>, subject: SubjectRef)
    requires ModelOk(defs)
    ensures AllWalksLand(ByName(defs)) <==>
            forall tuples: seq<RelationTuple>, n: Node :: ExplainAnswers(World(ByName(defs), tuples, subject), n)
  {
    if AllWalksLand(ByName(defs)) {
      forall tuples: seq<RelationTuple>, n: Node ensures ExplainAnswers(World(ByName(defs), tuples, subject), n) {
        var w := World(ByName(defs), tuples, subject);
        if ConformingStore(w) && w.Rewrite(n).Some? {
          CheckNeverThrows(defs, w, Full, n);
          ExplainVerdict(w, n);
        }
      }
    } else {
      var w, n := FailingRequest(defs, subject);
      ExplainVerdict(w, n);
      assert w == World(ByName(defs), w.tuples, subject);
      assert !ExplainAnswers(w, n);
    }
  }

  // ----- check, on unions -----

  ghost predicate NoneGranted(st: State) {
    forall k | k in st.memo :: !st.memo[k]
  }

  /** Nothing was granted, so the loops were never left early. */
  ghost predicate Alike(run: Run, full: Run) {
    run == full && run.verdict != Some(true) && NoneGranted(run.state)
  }

  ghost predicate NothingToGrant(w: World) {
    UnionOnlyModel(w) && !GrantStored(w)
  }

  lemma {:induction false} NodeAlike(w: World, st: State, n: Node, depth: Level)
    requires NothingToGrant(w) && NoneGranted(st)
    ensures Alike(CheckNode(w, ShortCircuit, st, n, depth), CheckNode(w, Full, st, n, depth))
    decreases MAX_DEPTH + 1 - depth, 4
  {
    var key := Key(w, n);
    if depth <= MAX_DEPTH && key !in st.memo && key !in st.visiting && w.Rewrite(n).Some? {
      ExprAlike(w, Enter(ReachedBy(st, depth), key), n, w.Rewrite(n).value, depth);
    }
  }

  lemma {:induction false} ExprAlike(w: World, st: State, n: Node, e: UsersetExpr, depth: Depth)
    requires NothingToGrant(w) && NoneGranted(st) && UnionOnly(e)
    ensures Alike(Evaluate(w, ShortCircuit, st, n, e, depth), Evaluate(w, Full, st, n, e, depth))
    decreases MAX_DEPTH + 1 - depth, 3, e
  {
    match e
    case Direct => TuplesAlike(w, CountRead(st), ListByObjectRelation(w.tuples, n.obj, n.relation), depth);
    case Computed(r) => NodeAlike(w, st, Node(n.obj, r), depth + 1);
    case TupleToUserset(t, c) => ParentsAlike(w, CountParents(st), ListObjectsRelatedBy(w.tuples, n.obj, t), c, depth);
    case Union(cs) => ChildrenAlike(w, st, n, cs, depth);
  }

  lemma {:induction false} ChildrenAlike(w: World, st: State, n: Node, cs: seq<UsersetExpr>, depth: Depth)
    requires NothingToGrant(w) && NoneGranted(st) && forall c | c in cs :: UnionOnly(c)
    ensures Alike(EvaluateUntil(w, ShortCircuit, st, n, cs, true, depth), EvaluateUntil(w, Full, st, n, cs, true, depth))
    decreases MAX_DEPTH + 1 - depth, 3, cs
  {
    if cs != [] {
      ExprAlike(w, st, n, cs[0], depth);
      ChildrenAlike(w, Evaluate(w, Full, st, n, cs[0], depth).state, n, cs[1..], depth);
    }
  }

  lemma {:induction false} ParentsAlike(w: World, st: State, parents: seq<ObjectRef>, c: string, depth: Depth)
    requires NothingToGrant(w) && NoneGranted(st)
    ensures Alike(AnyParent(w, ShortCircuit, st, parents, c, depth), AnyParent(w, Full, st, parents, c, depth))
    decreases MAX_DEPTH + 1 - depth, 1, |parents|
  {
    if parents != [] {
      NodeAlike(w, st, Node(parents[0], c), depth + 1);
      ParentsAlike(w, CheckNode(w, Full, st, Node(parents[0], c), depth + 1).state, parents[1..], c, depth);
    }
  }

  lemma {:induction false} TuplesAlike(w: World, st: State, stored: seq<RelationTuple>, depth: Depth)
    requires NothingToGrant(w) && NoneGranted(st) && forall t | t in stored :: t in w.tuples
    ensures Alike(AnyTuple(w, ShortCircuit, st, stored, depth), AnyTuple(w, Full, st, stored, depth))
    decreases MAX_DEPTH + 1 - depth, 1, |stored|
  {
    if stored != [] {
      var s := stored[0].subject;
      assert stored[0] in stored && !GrantsOutright(s, w.subject);
      if s.Userset? {
        NodeAlike(w, st, UsersetNode(s), depth + 1);
        TuplesAlike(w, CheckNode(w, Full, st, UsersetNode(s), depth + 1).state, stored[1..], depth);
      } else {
        TuplesAlike(w, st, stored[1..], depth);
      }
    }
  }

  ghost predicate CheckAnswers(w: World, n: Node) {
    ConformingStore(w) && w.Rewrite(n).Some? ==> Request(w, ShortCircuit, n).verdict.Some?
  }

  /** The same for check, on union-only models, for every subject. */
  lemma {:induction false} CheckAnswersIffWalksLand(defs: seq<NamespaceDef>, subject: SubjectRef)
    requires ModelOk(defs) && UnionOnlyModel(World(ByName(defs), [], subject))
    ensures AllWalksLand(ByName(defs)) <==>
            forall tuples: seq<RelationTuple>, n: Node :: CheckAnswers(World(ByName(defs), tuples, subject), n)
  {
    if AllWalksLand(ByName(defs)) {
      forall tuples: seq<RelationTuple>, n: Node ensures CheckAnswers(World(ByName(defs), tuples, subject), n) {
        var w := World(ByName(defs), tuples, subject);
        if ConformingStore(w) && w.Rewrite(n).Some? {
          CheckNeverThrows(defs, w, ShortCircuit, n);
        }
      }
    } else {
      var w, n := FailingRequest(defs, subject);
      assert w == World(ByName(defs), w.tuples, subject);
      SameRewrites(w, World(ByName(defs), [], subject));
      NodeAlike(w, INITIAL, n, 0);
      assert !CheckAnswers(w, n);
    }
  }

  lemma SameRewrites(w: World, v: World)
    requires w.model == v.model && UnionOnlyModel(v)
    ensures UnionOnlyModel(w)
  {
    forall n: Node | w.Rewrite(n).Some? ensures UnionOnly(w.Rewrite(n).value) {
      assert v.Rewrite(n) == w.Rewrite(n);
    }
  }
}
