/**
 * Models small enough to be written out: what validation asks of definitions with one relation or one permission.
 *
 * Name by name and definition by definition, so that a concrete model is accepted by a few calls: its names, its
 * subjects, the one expression of its one permission, and at last the list of its definitions. The names themselves are
 * those of the examples that use them.
 */
module SmallModels {
  import opened Options
  import opened Text
  import opened Rewrites
  import opened Models

  lemma UserAndDoc()
    ensures IsName("user") && IsName("doc") && IsName("org")
  {
  }

  lemma OwnerAndView()
    ensures IsName("owner") && IsName("view") && IsName("member")
  {
  }

  /** A bare name is read as the concrete subjects of that namespace. */
  lemma PlainSubject(s: string)
    requires IsName(s)
    ensures ParseSubjectType(s) == SubjectType(s, None, false)
  {
    NamesHoldNoSeparator(s);
    assert |s| >= 2 ==> s[|s| - 2..][1] == s[|s| - 1];
  }

  /** A dotted one as the usersets of that relation. */
  lemma UsersetType(g: string, r: string)
    requires IsName(g) && IsName(r)
    ensures ParseSubjectType(g + ['.'] + r) == SubjectType(g, Some(r), false)
  {
    NamesHoldNoSeparator(g);
    NamesHoldNoSeparator(r);
    var s := g + ['.'] + r;
    assert s[|s| - 1] == r[|r| - 1] && s[|s| - 2..][1] == s[|s| - 1];
    SplitOf(g, '.', r);
  }

  lemma PlainSubjects(model: Model, subjects: seq<string>)
    requires forall s | s in subjects :: IsName(s) && s in model
    ensures forall s | s in subjects :: SubjectTypeOk(model, s)
  {
    forall s | s in subjects ensures SubjectTypeOk(model, s) {
      PlainSubject(s);
    }
  }

  lemma PlainLeads(model: Model, s: string, c: string)
    requires IsName(s) && s in model && Declares(model[s], c)
    ensures Leads(model, s, c)
  {
    PlainSubject(s);
  }

  lemma OneRelationOk(model: Model, d: NamespaceDef, r: string, subjects: seq<string>)
    requires d.relations == map[r := subjects] && IsName(r)
    requires forall s | s in subjects :: IsName(s) && s in model
    ensures RelationsOk(model, d)
  {
    PlainSubjects(model, subjects);
  }

  lemma OnePermissionOk(model: Model, d: NamespaceDef, p: string, e: UsersetExpr)
    requires d.permissions == map[p := e] && IsName(p) && p !in d.relations && ExprOk(model, d, e)
    ensures PermissionsOk(model, d)
  {
  }

  lemma NoPermissionsOk(model: Model, d: NamespaceDef)
    requires d.permissions == map[]
    ensures PermissionsOk(model, d)
  {
  }

  /** A namespace that only provides subjects. */
  lemma SubjectsOnlyOk(model: Model, d: NamespaceDef)
    requires IsName(d.name) && d.relations == map[] && d.permissions == map[]
    ensures DefOk(model, d)
  {
  }

  lemma ByNameOfTwo(a: NamespaceDef, b: NamespaceDef)
    ensures ByName([a, b]) == map[a.name := a][b.name := b]
  {
    assert [a, b][..1] == [a] && [a][..0] == [];
    assert ByName([a]) == map[a.name := a];
  }

  lemma ByNameOfThree(a: NamespaceDef, b: NamespaceDef, c: NamespaceDef)
    ensures ByName([a, b, c]) == map[a.name := a][b.name := b][c.name := c]
  {
    assert [a, b, c][..2] == [a, b];
    ByNameOfTwo(a, b);
  }

  lemma TwoDefsOk(a: NamespaceDef, b: NamespaceDef)
    requires a.name != b.name
    requires DefOk(ByName([a, b]), a) && DefOk(ByName([a, b]), b)
    ensures ModelOk([a, b])
  {
  }

  lemma ThreeDefsOk(a: NamespaceDef, b: NamespaceDef, c: NamespaceDef)
    requires a.name != b.name && a.name != c.name && b.name != c.name
    requires var m := ByName([a, b, c]); DefOk(m, a) && DefOk(m, b) && DefOk(m, c)
    ensures ModelOk([a, b, c])
  {
  }
}
