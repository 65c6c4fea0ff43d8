/**
 * Relation tuples and their canonical text `<namespace>:<id>.<relation>@<subject>`.
 *
 * A subject is one object, all objects of a namespace, or everyone with a relation on an object; the three texts differ
 * in what follows the namespace. Names and identifiers hold none of the separators, so a text can be cut in one way only,
 * and the text of a tuple can serve as its key, in the store and in the evaluator's memo.
 */
module Tuples {
  import opened Options
  import opened Text

  datatype ObjectRef = ObjectRef(namespace: string, id: string)

  datatype SubjectRef =
    | Concrete(namespace: string, id: string)
    | Wildcard(namespace: string)
    | Userset(namespace: string, id: string, relation: string)

  datatype RelationTuple = RelationTuple(obj: ObjectRef, relation: string, subject: SubjectRef)

  predicate ValidObject(o: ObjectRef) {
    IsName(o.namespace) && IsId(o.id)
  }

  predicate ValidSubject(s: SubjectRef) {
    match s
    case Concrete(ns, id) => IsName(ns) && IsId(id)
    case Wildcard(ns) => IsName(ns)
    case Userset(ns, id, rel) => IsName(ns) && IsId(id) && IsName(rel)
  }

  predicate ValidTuple(t: RelationTuple) {
    ValidObject(t.obj) && IsName(t.relation) && ValidSubject(t.subject)
  }

  function FormatSubject(s: SubjectRef): string {
    match s
    case Concrete(ns, id) => ns + ":" + id
    case Wildcard(ns) => ns + ".*"
    case Userset(ns, id, rel) => ns + ":" + id + "." + rel
  }

  function StringifyTuple(t: RelationTuple): string {
    t.obj.namespace + ":" + t.obj.id + "." + t.relation + "@" + FormatSubject(t.subject)
  }

  /** The notation, written out: `ns:id.relation@` and then the subject in one of its three forms. */
  lemma Notation(o: ObjectRef, r: string, ns: string, id: string, rel: string)
    ensures StringifyTuple(RelationTuple(o, r, Concrete(ns, id))) == o.namespace + ":" + o.id + "." + r + "@" + ns + ":" + id
    ensures StringifyTuple(RelationTuple(o, r, Wildcard(ns))) == o.namespace + ":" + o.id + "." + r + "@" + ns + ".*"
    ensures StringifyTuple(RelationTuple(o, r, Userset(ns, id, rel))) ==
            o.namespace + ":" + o.id + "." + r + "@" + ns + ":" + id + "." + rel
  {
    var left := o.namespace + ":" + o.id + "." + r + "@";
    assert left + (ns + ":" + id) == left + ns + ":" + id;
    assert left + (ns + ".*") == left + ns + ".*";
    assert left + (ns + ":" + id + "." + rel) == left + ns + ":" + id + "." + rel;
  }

  /** `None` stands for the exception thrown on text that is not a subject. */
  function ParseSubject(input: string): Option<SubjectRef> {
    if EndsWith(input, ".*") then
      var namespace := input[..|input| - 2];
      if ':' in namespace then None else Checked(Wildcard(namespace))
    else
      match Split(input, ':')
      case None => None
      case Some((namespace, rest)) =>
        match Split(rest, '.')
        case Some((id, relation)) => Checked(Userset(namespace, id, relation))
        case None => Checked(Concrete(namespace, rest))
  }

  /** The schema check every parsed subject goes through. */
  function Checked(s: SubjectRef): Option<SubjectRef> {
    if ValidSubject(s) then Some(s) else None
  }

  function ParseTuple(input: string): Option<RelationTuple> {
    match Split(input, '@')
    case None => None
    case Some((left, right)) =>
      match Split(left, ':')
      case None => None
      case Some((namespace, idAndRelation)) =>
        match Split(idAndRelation, '.')
        case None => None
        case Some((id, relation)) =>
          var subject := ParseSubject(right);
          if subject.None? then None
          else
            var t := RelationTuple(ObjectRef(namespace, id), relation, subject.value);
            if ValidTuple(t) then Some(t) else None
  }

  /** A text that ends in something other than `*` is not a wildcard. */
  lemma NotWildcard(text: string)
    requires |text| > 0 && text[|text| - 1] != '*'
    ensures !EndsWith(text, ".*")
  {
    if |text| >= 2 {
      assert text[|text| - 2..][1] == text[|text| - 1];
    }
  }

  lemma ParseConcrete(ns: string, id: string)
    requires IsName(ns) && IsId(id)
    ensures ParseSubject(ns + ":" + id) == Some(Concrete(ns, id))
  {
    NamesHoldNoSeparator(ns);
    IdsHoldNoSeparator(id);
    NotWildcard(ns + [':'] + id);
    SplitOf(ns, ':', id);
  }

  lemma ParseWildcard(ns: string)
    requires IsName(ns)
    ensures ParseSubject(ns + ".*") == Some(Wildcard(ns))
  {
    NamesHoldNoSeparator(ns);
    var text := ns + ".*";
    assert text[|text| - 2..] == ".*";
    assert text[..|text| - 2] == ns;
  }

  lemma Associate(a: string, b: string, c: string)
    ensures a + b + c == a + (b + c)
  {
  }

  lemma ParseUserset(ns: string, id: string, rel: string)
    requires IsName(ns) && IsId(id) && IsName(rel)
    ensures ParseSubject(ns + ":" + id + "." + rel) == Some(Userset(ns, id, rel))
  {
    NamesHoldNoSeparator(ns);
    IdsHoldNoSeparator(id);
    NamesHoldNoSeparator(rel);
    var rest := id + "." + rel;
    UsersetText(ns, id, rel);
    NotWildcard(ns + ":" + rest);
    SplitOf(ns, ':', rest);
    SplitOf(id, '.', rel);
  }

  lemma UsersetText(ns: string, id: string, rel: string)
    ensures ns + ":" + id + "." + rel == ns + ":" + (id + "." + rel)
  {
    Associate(ns + ":", id, ".");
    Associate(ns + ":", id + ".", rel);
  }

  lemma ParseOfFormat(s: SubjectRef)
    requires ValidSubject(s)
    ensures ParseSubject(FormatSubject(s)) == Some(s)
  {
    match s {
      case Concrete(ns, id) => ParseConcrete(ns, id);
      case Wildcard(ns) => ParseWildcard(ns);
      case Userset(ns, id, rel) => ParseUserset(ns, id, rel);
    }
  }

  lemma FormatOfParse(input: string)
    ensures var s := ParseSubject(input); s.Some? ==> ValidSubject(s.value) && FormatSubject(s.value) == input
  {
    if ParseSubject(input).None? {
    } else if EndsWith(input, ".*") {
      assert input == input[..|input| - 2] + ".*";
    } else {
      var parts := Split(input, ':').value;
      var inner := Split(parts.1, '.');
      if inner.Some? {
        UsersetText(parts.0, inner.value.0, inner.value.1);
      }
    }
  }

  lemma TupleText(t: RelationTuple)
    ensures StringifyTuple(t) ==
            t.obj.namespace + ":" + (t.obj.id + "." + t.relation) + "@" + FormatSubject(t.subject)
  {
    UsersetText(t.obj.namespace, t.obj.id, t.relation);
  }

  /** Every valid tuple is read back from its own text. */
  lemma ParseOfStringify(t: RelationTuple)
    requires ValidTuple(t)
    ensures ParseTuple(StringifyTuple(t)) == Some(t)
  {
    var ns, id, rel := t.obj.namespace, t.obj.id, t.relation;
    NamesHoldNoSeparator(ns);
    IdsHoldNoSeparator(id);
    NamesHoldNoSeparator(rel);
    TupleText(t);
    var left := ns + ":" + (id + "." + rel);
    SplitOf(left, '@', FormatSubject(t.subject));
    SplitOf(ns, ':', id + "." + rel);
    SplitOf(id, '.', rel);
    ParseOfFormat(t.subject);
  }

  /** Every accepted text is the canonical text of the valid tuple it is read as. */
  lemma StringifyOfParse(input: string)
    ensures var t := ParseTuple(input); t.Some? ==> ValidTuple(t.value) && StringifyTuple(t.value) == input
  {
    if ParseTuple(input).Some? {
      FormatOfParse(Split(input, '@').value.1);
      TupleText(ParseTuple(input).value);
    }
  }

  /** So the text identifies a valid tuple. */
  lemma StringifyInjective(t: RelationTuple, u: RelationTuple)
    requires ValidTuple(t) && ValidTuple(u)
    requires StringifyTuple(t) == StringifyTuple(u)
    ensures t == u
  {
    ParseOfStringify(t);
    ParseOfStringify(u);
  }

  /** The text under which the evaluators memoise a question. */
  function MemoKey(obj: ObjectRef, relation: string, subject: SubjectRef): string {
    obj.namespace + ":" + obj.id + "." + relation + "@" + FormatSubject(subject)
  }

  /** A memo key is the text of the tuple that would answer the question outright. */
  lemma MemoKeyIsTuple(o: ObjectRef, r: string, subject: SubjectRef)
    ensures MemoKey(o, r, subject) == StringifyTuple(RelationTuple(o, r, subject))
  {
  }

  /** What memo keys rely on: the first `:` ends the namespace and the next `.` ends the id. */
  predicate Keyable(o: ObjectRef) {
    ':' !in o.namespace && '.' !in o.id
  }

  lemma ValidIsKeyable(o: ObjectRef)
    requires ValidObject(o)
    ensures Keyable(o)
  {
    NamesHoldNoSeparator(o.namespace);
    IdsHoldNoSeparator(o.id);
  }

  /**
   * Within one request the subject is fixed, so distinct questions have distinct memo keys,
   * whatever the relation is called.
   */
  lemma MemoKeyInjective(o: ObjectRef, r: string, o': ObjectRef, r': string, subject: SubjectRef)
    requires Keyable(o) && Keyable(o')
    requires MemoKey(o, r, subject) == MemoKey(o', r', subject)
    ensures o == o' && r == r'
  {
    var tail := "@" + FormatSubject(subject);
    KeyParts(o, r, subject);
    KeyParts(o', r', subject);
    SplitUnique(o.namespace, o.id + ['.'] + (r + tail), ':', o'.namespace, o'.id + ['.'] + (r' + tail));
    SplitUnique(o.id, r + tail, '.', o'.id, r' + tail);
    SuffixCancels(r, r', tail);
  }

  /** A memo key, cut where it can be cut again. */
  lemma KeyParts(o: ObjectRef, r: string, subject: SubjectRef)
    ensures MemoKey(o, r, subject) == o.namespace + [':'] + (o.id + ['.'] + (r + ("@" + FormatSubject(subject))))
  {
  }
}
