/**
 * Two validated models with a walk that does not land.
 *
 * In both, documents are owned by users or organisations, and only organisations have members. On the first, viewing a
 * document walks from its owners to their members, and check throws for a document that a user owns. On the second, the
 * same walk stands behind an operand that is never true, and check never gets there.
 */
module MixedSubjects {
  import opened Options
  import opened Text
  import opened Tuples
  import opened Rewrites
  import opened Models
  import opened SmallModels
  import opened CheckRuns
  import opened ValidatedModels
  import opened RequestsThrow

  const USER := NamespaceDef("user", map[], map[])
  const ORG := NamespaceDef("org", map["member" := ["user"]], map[])
  const WALK := TupleToUserset("owner", "member")
  const OWNED := RelationTuple(ObjectRef("doc", "d"), "owner", Concrete("user", "u"))

  /** Owners are users or organisations; only the latter have members. */
  function Doc(view: UsersetExpr): NamespaceDef {
    NamespaceDef("doc", map["owner" := ["user", "org"]], map["view" := view])
  }

  function Defs(view: UsersetExpr): seq<NamespaceDef> {
    [USER, ORG, Doc(view)]
  }

  /** Nobody: the owners who are not owners; so the walk behind it is never looked at. */
  const NOBODY := Exclusion(Computed("owner"), Computed("owner"))
  const HIDDEN := Intersection([NOBODY, WALK])

  lemma NamesDiffer()
    ensures "user" != "org" && "user" != "doc" && "org" != "doc" && "owner" != "view" && "owner" != "member"
  {
    assert "user"[0] != "org"[0] && "user"[0] != "doc"[0] && "org"[0] != "doc"[0];
    assert "owner"[0] != "view"[0] && "owner"[0] != "member"[0];
  }

  lemma DefsByName(view: UsersetExpr)
    ensures ByName(Defs(view)) == map["user" := USER, "org" := ORG, "doc" := Doc(view)]
  {
    ByNameOfThree(USER, ORG, Doc(view));
  }

  lemma WalkOk(model: Model, view: UsersetExpr)
    requires "org" in model && model["org"] == ORG
    ensures ExprOk(model, Doc(view), WALK)
  {
    UserAndDoc();
    PlainLeads(model, "org", "member");
    assert "org" in Doc(view).relations["owner"];
  }

  lemma HiddenOk(model: Model, d: NamespaceDef)
    requires "owner" in d.relations && ExprOk(model, d, WALK)
    ensures ExprOk(model, d, HIDDEN)
  {
    assert ExprOk(model, d, NOBODY);
  }

  lemma DocOk(model: Model, view: UsersetExpr)
    requires "user" in model && "org" in model && model["org"] == ORG && (view == WALK || view == HIDDEN)
    ensures RelationsOk(model, Doc(view)) && PermissionsOk(model, Doc(view))
  {
    NamesDiffer();
    UserAndDoc();
    OwnerAndView();
    OneRelationOk(model, Doc(view), "owner", ["user", "org"]);
    WalkOk(model, view);
    HiddenOk(model, Doc(view));
    OnePermissionOk(model, Doc(view), "view", view);
  }

  lemma DefsOk(view: UsersetExpr)
    requires view == WALK || view == HIDDEN
    ensures ModelOk(Defs(view))
  {
    var model := ByName(Defs(view));
    NamesDiffer();
    UserAndDoc();
    OwnerAndView();
    DefsByName(view);
    SubjectsOnlyOk(model, USER);
    OneRelationOk(model, ORG, "member", ["user"]);
    NoPermissionsOk(model, ORG);
    DocOk(model, view);
    ThreeDefsOk(USER, ORG, Doc(view));
  }

  /** Users have no members, so the walk does not land. */
  lemma DoesNotLand(view: UsersetExpr)
    requires view == WALK || view == HIDDEN
    ensures !AllWalksLand(ByName(Defs(view)))
  {
    var model := ByName(Defs(view));
    DefsByName(view);
    UserAndDoc();
    PlainSubject("user");
    NamesDiffer();
    assert "user" in Doc(view).relations["owner"] && !Lands(model, "user", "member");
    assert !WalksLand(model, Doc(view), WALK);
    if view == HIDDEN {
      assert WALK in [NOBODY, WALK];
    }
    assert model["doc"].permissions["view"] == view;
  }

  // ----- thrown -----

  lemma OwnedConforms()
    ensures ConformingStore(World(ByName(Defs(WALK)), [OWNED], Concrete("user", "u")))
  {
    DefsByName(WALK);
    UserAndDoc();
    PlainSubject("user");
    assert "user" in Doc(WALK).relations["owner"];
    assert Allows(ParseSubjectType("user"), OWNED.subject);
  }

  /** A walk whose first parent lacks the relation. */
  lemma FirstParentThrows(w: World, n: Node, t: string, c: string, p: ObjectRef)
    requires w.Rewrite(n) == Some(TupleToUserset(t, c)) && ListObjectsRelatedBy(w.tuples, n.obj, t) == [p]
    requires w.Rewrite(Node(p, c)).None? && Key(w, n) != Key(w, Node(p, c))
    ensures Request(w, ShortCircuit, n).verdict == None
  {
    var st := CountParents(Enter(ReachedBy(INITIAL, 0), Key(w, n)));
    assert CheckNode(w, ShortCircuit, st, Node(p, c), 1).verdict == None;
    assert AnyParent(w, ShortCircuit, st, [p], c, 0).verdict == None;
  }

  lemma OwnedParents()
    ensures ListObjectsRelatedBy([OWNED], ObjectRef("doc", "d"), "owner") == [ObjectRef("user", "u")]
  {
    assert [OWNED][1..] == [];
  }

  /** An owner whose namespace lacks the walked relation is not skipped: the request throws. */
  lemma MixedSubjectsThrow()
    ensures ModelOk(Defs(WALK))
    ensures var w := World(ByName(Defs(WALK)), [OWNED], Concrete("user", "u"));
            ConformingStore(w) && Request(w, ShortCircuit, Node(ObjectRef("doc", "d"), "view")).verdict == None
  {
    DefsOk(WALK);
    OwnedConforms();
    DefsByName(WALK);
    NamesDiffer();
    var w := World(ByName(Defs(WALK)), [OWNED], Concrete("user", "u"));
    var n, m := Node(ObjectRef("doc", "d"), "view"), Node(ObjectRef("user", "u"), "member");
    MemoKeysDiffer(w, n, m);
    OwnedParents();
    FirstParentThrows(w, n, "owner", "member", m.obj);
  }

  lemma MemoKeysDiffer(w: World, n: Node, m: Node)
    requires n == Node(ObjectRef("doc", "d"), "view") && m == Node(ObjectRef("user", "u"), "member")
    ensures Key(w, n) != Key(w, m)
  {
    if Key(w, n) == Key(w, m) {
      MemoKeyInjective(n.obj, n.relation, m.obj, m.relation, w.subject);
    }
  }

  // ----- hidden -----

  /** Where subject types are bare names, conforming tuples have concrete subjects. */
  lemma BareNamesAreConcrete(w: World)
    requires ConformingStore(w)
    requires forall ns, r, s | ns in w.model && r in w.model[ns].relations && s in w.model[ns].relations[r] :: IsName(s)
    ensures forall t | t in w.tuples :: t.subject.Concrete?
  {
    forall t | t in w.tuples ensures t.subject.Concrete? {
      assert Conforms(w.model, t);
      var s :| s in w.model[t.obj.namespace].relations[t.relation] && Allows(ParseSubjectType(s), t.subject);
      PlainSubject(s);
    }
  }

  lemma OnlyConcreteSubjects(w: World)
    requires w.model == ByName(Defs(HIDDEN)) && ConformingStore(w)
    ensures forall t | t in w.tuples :: t.subject.Concrete?
  {
    DefsByName(HIDDEN);
    UserAndDoc();
    forall ns, r, s | ns in w.model && r in w.model[ns].relations && s in w.model[ns].relations[r] ensures IsName(s) {
      assert s == "user" || s == "org";
    }
    BareNamesAreConcrete(w);
  }

  lemma {:induction false} DirectAnswers(w: World, st: State, stored: seq<RelationTuple>, depth: Depth)
    requires forall t | t in stored :: t.subject.Concrete?
    ensures var run := AnyTuple(w, ShortCircuit, st, stored, depth); run.state == st && run.verdict.Some?
  {
    if stored != [] {
      assert stored[0] in stored;
      DirectAnswers(w, st, stored[1..], depth);
    }
  }

  lemma RelationsTellKeysApart(w: World, o: ObjectRef, r: string, r': string)
    requires Key(w, Node(o, r)) == Key(w, Node(o, r'))
    ensures r == r'
  {
    var head, tail := o.namespace + ":" + o.id + ".", "@" + FormatSubject(w.subject);
    assert Key(w, Node(o, r)) == head + r + tail && Key(w, Node(o, r')) == head + r' + tail;
    assert (head + r + tail)[|head|..|head + r|] == r;
    assert (head + r' + tail)[|head|..|head + r'|] == r';
  }

  /** A relation that is asked afresh answers from the stored tuples and is remembered. */
  lemma OwnerAnswers(w: World, st: State, o: ObjectRef)
    requires w.model == ByName(Defs(HIDDEN)) && ConformingStore(w) && o.namespace == "doc"
    requires Key(w, Node(o, "owner")) !in st.memo && Key(w, Node(o, "owner")) !in st.visiting
    ensures var run := CheckNode(w, ShortCircuit, st, Node(o, "owner"), 1);
            run.verdict.Some? && Key(w, Node(o, "owner")) in run.state.memo &&
            run.state.memo[Key(w, Node(o, "owner"))] == run.verdict.value
  {
    DefsByName(HIDDEN);
    NamesDiffer();
    OnlyConcreteSubjects(w);
    var st' := CountRead(Enter(ReachedBy(st, 1), Key(w, Node(o, "owner"))));
    DirectAnswers(w, st', ListByObjectRelation(w.tuples, o, "owner"), 1);
  }

  /** What is remembered when it is asked again excludes itself. */
  lemma ExcludesItself(w: World, st: State, n: Node, r: string, depth: Depth)
    requires depth < MAX_DEPTH
    requires var m := Node(n.obj, r); var run := CheckNode(w, ShortCircuit, st, m, depth + 1);
             run.verdict.Some? && Key(w, m) in run.state.memo && run.state.memo[Key(w, m)] == run.verdict.value
    ensures Evaluate(w, ShortCircuit, st, n, Exclusion(Computed(r), Computed(r)), depth).verdict == Some(false)
  {
    var first := CheckNode(w, ShortCircuit, st, Node(n.obj, r), depth + 1);
    assert Evaluate(w, ShortCircuit, st, n, Computed(r), depth) == first;
    if first.verdict == Some(true) {
      assert CheckNode(w, ShortCircuit, first.state, Node(n.obj, r), depth + 1).verdict == Some(true);
    }
  }

  lemma StopsAtFirst(w: World, st: State, n: Node, a: UsersetExpr, b: UsersetExpr, depth: Depth)
    requires Evaluate(w, ShortCircuit, st, n, a, depth).verdict == Some(false)
    ensures Evaluate(w, ShortCircuit, st, n, Intersection([a, b]), depth).verdict == Some(false)
  {
    assert [a, b][0] == a;
  }

  lemma ViewIsHidden(w: World, o: ObjectRef)
    requires w.model == ByName(Defs(HIDDEN)) && o.namespace == "doc"
    ensures w.Rewrite(Node(o, "view")) == Some(HIDDEN)
  {
    DefsByName(HIDDEN);
    NamesDiffer();
  }

  lemma OwnerIsFresh(w: World, o: ObjectRef)
    ensures Key(w, Node(o, "owner")) !in Enter(ReachedBy(INITIAL, 0), Key(w, Node(o, "view"))).visiting
  {
    NamesDiffer();
    if Key(w, Node(o, "view")) == Key(w, Node(o, "owner")) {
      RelationsTellKeysApart(w, o, "view", "owner");
    }
  }

  lemma HiddenIsFalse(w: World, st: State, n: Node)
    requires w.model == ByName(Defs(HIDDEN)) && ConformingStore(w) && n.obj.namespace == "doc"
    requires Key(w, Node(n.obj, "owner")) !in st.memo && Key(w, Node(n.obj, "owner")) !in st.visiting
    ensures Evaluate(w, ShortCircuit, st, n, HIDDEN, 0).verdict == Some(false)
  {
    OwnerAnswers(w, st, n.obj);
    ExcludesItself(w, st, n, "owner", 0);
    StopsAtFirst(w, st, n, NOBODY, WALK, 0);
  }

  lemma ViewAnswers(w: World, o: ObjectRef)
    requires w.model == ByName(Defs(HIDDEN)) && ConformingStore(w) && o.namespace == "doc"
    ensures Request(w, ShortCircuit, Node(o, "view")).verdict.Some?
  {
    var n := Node(o, "view");
    ViewIsHidden(w, o);
    OwnerIsFresh(w, o);
    HiddenIsFalse(w, Enter(ReachedBy(INITIAL, 0), Key(w, n)), n);
    RequestAnswers(w, n, HIDDEN);
  }

  lemma RequestAnswers(w: World, n: Node, e: UsersetExpr)
    requires w.Rewrite(n) == Some(e)
    requires Evaluate(w, ShortCircuit, Enter(ReachedBy(INITIAL, 0), Key(w, n)), n, e, 0).verdict.Some?
    ensures Request(w, ShortCircuit, n).verdict.Some?
  {
  }

  lemma PlainRelationAnswers(w: World, n: Node)
    requires ConformingStore(w) && w.model == ByName(Defs(HIDDEN)) && w.Rewrite(n) == Some(Direct)
    ensures Request(w, ShortCircuit, n).verdict.Some?
  {
    OnlyConcreteSubjects(w);
    var st := CountRead(Enter(ReachedBy(INITIAL, 0), Key(w, n)));
    DirectAnswers(w, st, ListByObjectRelation(w.tuples, n.obj, n.relation), 0);
  }

  /**
   * Why the theorem about check stops at unions: a validated model with a walk that does not land, on which no request of
   * any subject about anything declared throws, over any conforming store.
   */
  lemma HiddenWalkNeverThrows(tuples: seq<RelationTuple>, subject: SubjectRef, n: Node)
    ensures ModelOk(Defs(HIDDEN)) && !AllWalksLand(ByName(Defs(HIDDEN)))
    ensures CheckAnswers(World(ByName(Defs(HIDDEN)), tuples, subject), n)
  {
    DefsOk(HIDDEN);
    DoesNotLand(HIDDEN);
    DefsByName(HIDDEN);
    var w := World(ByName(Defs(HIDDEN)), tuples, subject);
    if ConformingStore(w) && w.Rewrite(n).Some? {
      if n.obj.namespace == "doc" && n.relation == "view" {
        ViewAnswers(w, n.obj);
      } else {
        PlainRelationAnswers(w, n);
      }
    }
  }
}
