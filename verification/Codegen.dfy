/**
 * The generated modules.
 *
 * A reader of the builder calls stands for what evaluating such a module gives; the theorem is that the text of a
 * namespace evaluates to exactly the definition that validation lowered it to. Rendering is taken piece by piece, and
 * each piece reads back before any continuation.
 */
module Codegen {
  import opened Options
  import opened Text
  import opened Rewrites
  import opened Models
  import opened Lowering

  // ----- rendering -----

  function RenderExpr(e: ExprNode): string
    decreases e, 1
  {
    match e
    case Ref(name) => "computed('" + name + "')"
    case Ttu(t, c) => "tupleToUserset('" + t + "', '" + c + "')"
    case UnionNode(cs) => "union(" + RenderAll(cs) + ")"
    case IntersectionNode(cs) => "intersection(" + RenderAll(cs) + ")"
    case ExclusionNode(base, subtract) => "exclusion(" + RenderExpr(base) + ", " + RenderExpr(subtract) + ")"
  }

  function RenderAll(cs: seq<ExprNode>): string
    decreases cs, 0
  {
    if cs == [] then ""
    else if |cs| == 1 then RenderExpr(cs[0])
    else RenderExpr(cs[0]) + ", " + RenderAll(cs[1..])
  }

  // ----- reading -----

  function Expect(p: string, s: string): (r: Option<string>)
    ensures r.Some? ==> |r.value| + |p| == |s|
  {
    if p <= s then Some(s[|p|..]) else None
  }

  function ReadExpr(s: string): (r: Option<(UsersetExpr, string)>)
    ensures r.Some? ==> |r.value.1| < |s|
    decreases |s|, 0
  {
    if Expect("computed('", s).Some? then ReadComputed(Expect("computed('", s).value)
    else if Expect("tupleToUserset('", s).Some? then ReadWalk(Expect("tupleToUserset('", s).value)
    else if Expect("union(", s).Some? then
      var args := ReadArgs(Expect("union(", s).value);
      if args.None? then None else Some((Union(args.value.0), args.value.1))
    else if Expect("intersection(", s).Some? then
      var args := ReadArgs(Expect("intersection(", s).value);
      if args.None? then None else Some((Intersection(args.value.0), args.value.1))
    else if Expect("exclusion(", s).Some? then ReadExclusion(Expect("exclusion(", s).value)
    else None
  }

  function ReadComputed(s: string): (r: Option<(UsersetExpr, string)>)
    ensures r.Some? ==> |r.value.1| < |s|
  {
    match Split(s, '\'')
    case None => None
    case Some((name, after)) =>
      var rest := Expect(")", after);
      if rest.None? then None else Some((Computed(name), rest.value))
  }

  function ReadWalk(s: string): (r: Option<(UsersetExpr, string)>)
    ensures r.Some? ==> |r.value.1| < |s|
  {
    match Split(s, '\'')
    case None => None
    case Some((t, after)) =>
      var second := Expect(", '", after);
      if second.None? then None else
        match Split(second.value, '\'')
        case None => None
        case Some((c, end)) =>
          var rest := Expect(")", end);
          if rest.None? then None else Some((TupleToUserset(t, c), rest.value))
  }

  function ReadExclusion(s: string): (r: Option<(UsersetExpr, string)>)
    ensures r.Some? ==> |r.value.1| < |s|
    decreases |s|, 1
  {
    var base := ReadExpr(s);
    if base.None? || Expect(", ", base.value.1).None? then None else
      var subtract := ReadExpr(Expect(", ", base.value.1).value);
      if subtract.None? || Expect(")", subtract.value.1).None? then None
      else Some((Exclusion(base.value.0, subtract.value.0), Expect(")", subtract.value.1).value))
  }

  function ReadArgs(s: string): (r: Option<(seq<UsersetExpr>, string)>)
    ensures r.Some? ==> |r.value.1| < |s|
    decreases |s|, 2
  {
    if Expect(")", s).Some? then Some(([], Expect(")", s).value)) else ReadList(s)
  }

  function ReadList(s: string): (r: Option<(seq<UsersetExpr>, string)>)
    ensures r.Some? ==> |r.value.1| < |s|
    decreases |s|, 1
  {
    var first := ReadExpr(s);
    if first.None? then None
    else if Expect(")", first.value.1).Some? then Some(([first.value.0], Expect(")", first.value.1).value))
    else if Expect(", ", first.value.1).None? then None
    else
      var others := ReadList(Expect(", ", first.value.1).value);
      if others.None? then None else Some(([first.value.0] + others.value.0, others.value.1))
  }

  /** Names do not end the string literals they are put in. */
  predicate Quotable(e: ExprNode)
    decreases e
  {
    match e
    case Ref(name) => '\'' !in name
    case Ttu(t, c) => '\'' !in t && '\'' !in c
    case UnionNode(cs) => forall c | c in cs :: Quotable(c)
    case IntersectionNode(cs) => forall c | c in cs :: Quotable(c)
    case ExclusionNode(base, subtract) => Quotable(base) && Quotable(subtract)
  }

  // ----- reading back what was rendered -----

  lemma Skips(p: string, rest: string)
    ensures Expect(p, p + rest) == Some(rest)
  {
  }

  lemma Assoc3(a: string, b: string, c: string)
    ensures a + b + c == a + (b + c)
  {
  }

  lemma Assoc4(a: string, b: string, c: string, d: string)
    ensures a + b + c + d == a + (b + c + d)
  {
  }

  lemma Assoc5(a: string, b: string, c: string, d: string, e: string)
    ensures a + b + c + d + e == a + (b + (c + d + e))
  {
  }

  lemma Assoc6(a: string, b: string, c: string, d: string, e: string, f: string)
    ensures a + b + c + d + e + f == a + (b + (c + (d + (e + f))))
  {
    Assoc4(a, b, c, d);
    Assoc3(a, b + c + d, e + f);
    Assoc3(a + b + c + d, e, f);
    Assoc4(b, c, d, e + f);
    Assoc3(c, d, e + f);
    assert b + c + d + (e + f) == b + (c + (d + (e + f)));
  }

  /** A text that starts with another letter is not that call. */
  lemma OtherCall(p: string, q: string, rest: string)
    requires p != "" && q != "" && p[0] != q[0]
    ensures Expect(p, q + rest).None?
  {
    assert (q + rest)[0] == q[0];
  }

  lemma ComputedReadsBack(name: string, rest: string)
    requires '\'' !in name
    ensures ReadExpr("computed('" + name + "')" + rest) == Some((Computed(name), rest))
  {
    var after := ")" + rest;
    var body := name + ['\''] + after;
    assert "computed('" + name + "')" + rest == "computed('" + body;
    Skips("computed('", body);
    SplitOf(name, '\'', after);
    Skips(")", rest);
  }

  lemma WalkReadsBack(t: string, c: string, rest: string)
    requires '\'' !in t && '\'' !in c
    ensures ReadExpr("tupleToUserset('" + t + "', '" + c + "')" + rest) == Some((TupleToUserset(t, c), rest))
  {
    var end := ")" + rest;
    var second := c + ['\''] + end;
    var after := ", '" + second;
    var body := t + ['\''] + after;
    assert "tupleToUserset('" + t + "', '" + c + "')" + rest == "tupleToUserset('" + body;
    OtherCall("computed('", "tupleToUserset('", body);
    Skips("tupleToUserset('", body);
    SplitOf(t, '\'', after);
    Skips(", '", second);
    SplitOf(c, '\'', end);
    Skips(")", rest);
  }

  lemma CallReads(p: string, body: string)
    requires p == "union(" || p == "intersection(" || p == "exclusion("
    ensures ReadExpr(p + body) ==
            if p == "exclusion(" then ReadExclusion(body) else
              var args := ReadArgs(body);
              if args.None? then None
              else Some((if p == "union(" then Union(args.value.0) else Intersection(args.value.0), args.value.1))
  {
    Skips(p, body);
    OtherCall("computed('", p, body);
    OtherCall("tupleToUserset('", p, body);
    if p != "union(" {
      OtherCall("union(", p, body);
    }
    if p == "exclusion(" {
      OtherCall("intersection(", p, body);
    }
  }

  lemma NotClosed(e: ExprNode, rest: string)
    ensures Expect(")", RenderExpr(e) + rest).None?
  {
    assert |RenderExpr(e)| > 0 && RenderExpr(e)[0] != ')';
    assert (RenderExpr(e) + rest)[0] == RenderExpr(e)[0];
  }

  /** The rendered expression reads as what it was lowered to. */
  lemma {:induction false} ExprReadsBack(e: ExprNode, rest: string)
    requires Quotable(e)
    ensures ReadExpr(RenderExpr(e) + rest) == Some((LowerExpr(e), rest))
    decreases e, 1
  {
    match e
    case Ref(name) => ComputedReadsBack(name, rest);
    case Ttu(t, c) => WalkReadsBack(t, c, rest);
    case UnionNode(cs) =>
      ArgsReadBack(cs, rest);
      Assoc4("union(", RenderAll(cs), ")", rest);
      CallReads("union(", RenderAll(cs) + ")" + rest);
    case IntersectionNode(cs) =>
      ArgsReadBack(cs, rest);
      Assoc4("intersection(", RenderAll(cs), ")", rest);
      CallReads("intersection(", RenderAll(cs) + ")" + rest);
    case ExclusionNode(base, subtract) =>
      var last := ")" + rest;
      var middle := ", " + (RenderExpr(subtract) + last);
      Assoc6("exclusion(", RenderExpr(base), ", ", RenderExpr(subtract), ")", rest);
      CallReads("exclusion(", RenderExpr(base) + middle);
      ExprReadsBack(base, middle);
      Skips(", ", RenderExpr(subtract) + last);
      ExprReadsBack(subtract, last);
      Skips(")", rest);
  }

  /** What follows the first of some arguments. */
  function AfterFirst(cs: seq<ExprNode>, rest: string): string
    requires cs != []
  {
    if |cs| == 1 then ")" + rest else ", " + (RenderAll(cs[1..]) + ")" + rest)
  }

  lemma FirstApart(cs: seq<ExprNode>, rest: string)
    requires cs != []
    ensures RenderAll(cs) + ")" + rest == RenderExpr(cs[0]) + AfterFirst(cs, rest)
  {
    var first := RenderExpr(cs[0]);
    if |cs| == 1 {
      Assoc3(first, ")", rest);
    } else {
      var others := RenderAll(cs[1..]);
      Assoc5(first, ", ", others, ")", rest);
    }
  }

  lemma OneRead(s: string, e: UsersetExpr, others: string)
    requires ReadExpr(s) == Some((e, ", " + others)) && ReadList(others).Some?
    ensures ReadList(s) == Some(([e] + ReadList(others).value.0, ReadList(others).value.1))
  {
    OtherCall(")", ", ", others);
    Skips(", ", others);
  }

  lemma {:induction false} ArgsReadBack(cs: seq<ExprNode>, rest: string)
    requires forall c | c in cs :: Quotable(c)
    ensures ReadArgs(RenderAll(cs) + ")" + rest) == Some((LowerAll(cs), rest))
    decreases cs, 1
  {
    if cs == [] {
      assert RenderAll(cs) + ")" + rest == ")" + rest;
      Skips(")", rest);
    } else {
      ListReadsBack(cs, rest);
      FirstApart(cs, rest);
      NotClosed(cs[0], AfterFirst(cs, rest));
    }
  }

  lemma {:induction false} ListReadsBack(cs: seq<ExprNode>, rest: string)
    requires cs != [] && forall c | c in cs :: Quotable(c)
    ensures ReadList(RenderAll(cs) + ")" + rest) == Some((LowerAll(cs), rest))
    decreases cs, 0
  {
    assert cs[0] in cs;
    var s := RenderExpr(cs[0]) + AfterFirst(cs, rest);
    FirstApart(cs, rest);
    ExprReadsBack(cs[0], AfterFirst(cs, rest));
    if |cs| == 1 {
      assert LowerAll(cs) == [LowerExpr(cs[0])];
    } else {
      ListReadsBack(cs[1..], rest);
      OneRead(s, LowerExpr(cs[0]), RenderAll(cs[1..]) + ")" + rest);
    }
  }

  // ----- subject lists -----

  function SubjectLiteral(s: SubjectType): string {
    if s.relation.Some? then "'" + (s.namespace + "." + s.relation.value) + "'"
    else if s.wildcard then "'" + (s.namespace + ".*") + "'"
    else "'" + s.namespace + "'"
  }

  function RenderSubjects(subjects: seq<SubjectType>): string {
    if subjects == [] then ""
    else if |subjects| == 1 then SubjectLiteral(subjects[0])
    else SubjectLiteral(subjects[0]) + ", " + RenderSubjects(subjects[1..])
  }

  function ReadSubjects(s: string): (r: Option<(seq<string>, string)>)
    ensures r.Some? ==> |r.value.1| < |s|
  {
    if Expect("]", s).Some? then Some(([], Expect("]", s).value)) else ReadSubjectList(s)
  }

  function ReadSubjectList(s: string): (r: Option<(seq<string>, string)>)
    ensures r.Some? ==> |r.value.1| < |s|
    decreases |s|
  {
    var inner := Expect("'", s);
    if inner.None? || Split(inner.value, '\'').None? then None else
      var (name, after) := Split(inner.value, '\'').value;
      if Expect("]", after).Some? then Some(([name], Expect("]", after).value))
      else if Expect(", ", after).None? then None
      else
        var others := ReadSubjectList(Expect(", ", after).value);
        if others.None? then None else Some(([name] + others.value.0, others.value.1))
  }

  predicate SubjectsQuotable(subjects: seq<SubjectType>) {
    forall s | s in subjects :: '\'' !in SubjectToString(s)
  }

  lemma LiteralReads(s: SubjectType, after: string)
    requires '\'' !in SubjectToString(s)
    ensures var inner := Expect("'", SubjectLiteral(s) + after);
            inner.Some? && Split(inner.value, '\'') == Some((SubjectToString(s), after))
  {
    var name := SubjectToString(s);
    assert SubjectLiteral(s) == "'" + name + "'";
    assert "'" + name + "'" + after == "'" + (name + ['\''] + after);
    Skips("'", name + ['\''] + after);
    SplitOf(name, '\'', after);
  }

  lemma LastSubjectReads(s: SubjectType, rest: string)
    requires '\'' !in SubjectToString(s)
    ensures ReadSubjectList(SubjectLiteral(s) + ("]" + rest)) == Some(([SubjectToString(s)], rest))
  {
    LiteralReads(s, "]" + rest);
    Skips("]", rest);
  }

  lemma OneSubjectReads(s: SubjectType, others: string)
    requires '\'' !in SubjectToString(s) && ReadSubjectList(others).Some?
    ensures ReadSubjectList(SubjectLiteral(s) + (", " + others)) ==
            Some(([SubjectToString(s)] + ReadSubjectList(others).value.0, ReadSubjectList(others).value.1))
  {
    LiteralReads(s, ", " + others);
    OtherCall("]", ", ", others);
    Skips(", ", others);
  }

  lemma SubjectStringsSplit(subjects: seq<SubjectType>)
    requires subjects != [] && SubjectsQuotable(subjects)
    ensures SubjectStrings(subjects) == [SubjectToString(subjects[0])] + SubjectStrings(subjects[1..])
    ensures '\'' !in SubjectToString(subjects[0]) && SubjectsQuotable(subjects[1..])
  {
    assert subjects[0] in subjects;
  }

  lemma {:induction false} SubjectListReadsBack(subjects: seq<SubjectType>, rest: string)
    requires subjects != [] && SubjectsQuotable(subjects)
    ensures ReadSubjectList(RenderSubjects(subjects) + "]" + rest) == Some((SubjectStrings(subjects), rest))
  {
    SubjectStringsSplit(subjects);
    var first := SubjectLiteral(subjects[0]);
    if |subjects| == 1 {
      assert RenderSubjects(subjects) == first;
      Assoc3(first, "]", rest);
      LastSubjectReads(subjects[0], rest);
      assert SubjectStrings(subjects) == [SubjectToString(subjects[0])];
    } else {
      Assoc5(first, ", ", RenderSubjects(subjects[1..]), "]", rest);
      SubjectListReadsBack(subjects[1..], rest);
      OneSubjectReads(subjects[0], RenderSubjects(subjects[1..]) + "]" + rest);
    }
  }

  lemma SubjectsReadBack(subjects: seq<SubjectType>, rest: string)
    requires SubjectsQuotable(subjects)
    ensures ReadSubjects(RenderSubjects(subjects) + "]" + rest) == Some((SubjectStrings(subjects), rest))
  {
    var s := RenderSubjects(subjects) + "]" + rest;
    if subjects == [] {
      assert s == "]" + rest;
      Skips("]", rest);
    } else {
      SubjectListReadsBack(subjects, rest);
      assert s[0] == SubjectLiteral(subjects[0])[0] == '\'';
    }
  }

  // ----- the two records -----

  function RelationNodes(members: seq<MemberNode>): seq<MemberNode> {
    if members == [] then [] else
      var before, last := RelationNodes(members[..|members| - 1]), members[|members| - 1];
      if last.RelationNode? then before + [last] else before
  }

  function PermissionNodes(members: seq<MemberNode>): seq<MemberNode> {
    if members == [] then [] else
      var before, last := PermissionNodes(members[..|members| - 1]), members[|members| - 1];
      if last.PermissionNode? then before + [last] else before
  }

  lemma {:induction false} NodesOf(members: seq<MemberNode>)
    ensures forall m | m in RelationNodes(members) :: m in members && m.RelationNode?
    ensures forall m | m in PermissionNodes(members) :: m in members && m.PermissionNode?
  {
    if members != [] {
      NodesOf(members[..|members| - 1]);
    }
  }

  /** What follows the name on the line of a member. */
  function RenderBody(m: MemberNode): string {
    match m
    case RelationNode(_, subjects) => " { subjects: [" + RenderSubjects(subjects) + "] },"
    case PermissionNode(_, expr) => " " + RenderExpr(expr) + ","
  }

  function RenderMember(m: MemberNode): string {
    "        " + m.name + ":" + RenderBody(m)
  }

  /** The lines of some members, one line break between two of them. */
  function RenderLines(ms: seq<MemberNode>): string {
    if ms == [] then ""
    else if |ms| == 1 then RenderMember(ms[0])
    else RenderMember(ms[0]) + "\n" + RenderLines(ms[1..])
  }

  function RenderBlock(field: string, ms: seq<MemberNode>): string {
    if |ms| == 0 then "    " + field + ": {}," else "    " + field + ": {\n" + RenderLines(ms) + "\n    },"
  }

  datatype Record = Record(relations: map<string, seq<string>>, permissions: map<string, UsersetExpr>)

  function ReadRelationBody(s: string): (r: Option<(seq<string>, string)>)
    ensures r.Some? ==> |r.value.1| < |s|
  {
    var inner := Expect(" { subjects: [", s);
    if inner.None? then None else
      var subjects := ReadSubjects(inner.value);
      if subjects.None? || Expect(" },", subjects.value.1).None? then None
      else Some((subjects.value.0, Expect(" },", subjects.value.1).value))
  }

  function ReadPermissionBody(s: string): (r: Option<(UsersetExpr, string)>)
    ensures r.Some? ==> |r.value.1| < |s|
  {
    var inner := Expect(" ", s);
    if inner.None? then None else
      var e := ReadExpr(inner.value);
      if e.None? || Expect(",", e.value.1).None? then None
      else Some((e.value.0, Expect(",", e.value.1).value))
  }

  /** A line's assignment to one of the two records. */
  function ReadMember(relations: bool, s: string, acc: Record): (r: Option<(Record, string)>)
    ensures r.Some? ==> |r.value.1| < |s|
  {
    var inner := Expect("        ", s);
    if inner.None? || Split(inner.value, ':').None? then None else
      var (key, after) := Split(inner.value, ':').value;
      if relations then
        var body := ReadRelationBody(after);
        if body.None? then None else Some((acc.(relations := acc.relations[key := body.value.0]), body.value.1))
      else
        var body := ReadPermissionBody(after);
        if body.None? then None else Some((acc.(permissions := acc.permissions[key := body.value.0]), body.value.1))
  }

  function ReadLines(relations: bool, s: string, acc: Record): Option<(Record, string)>
    decreases |s|
  {
    var first := ReadMember(relations, s, acc);
    if first.None? then None
    else if Expect("\n    },", first.value.1).Some? then
      Some((first.value.0, Expect("\n    },", first.value.1).value))
    else if Expect("\n", first.value.1).None? then None
    else ReadLines(relations, Expect("\n", first.value.1).value, first.value.0)
  }

  function ReadBlock(relations: bool, s: string, acc: Record): Option<(Record, string)> {
    var field := if relations then "relations" else "permissions";
    var none := Expect("    " + field + ": {},", s);
    var some := Expect("    " + field + ": {\n", s);
    if none.Some? then Some((acc, none.value))
    else if some.Some? then ReadLines(relations, some.value, acc)
    else None
  }

  /** What a member assigns. */
  function Assign(m: MemberNode, acc: Record): Record {
    match m
    case RelationNode(name, subjects) => acc.(relations := acc.relations[name := SubjectStrings(subjects)])
    case PermissionNode(name, expr) => acc.(permissions := acc.permissions[name := LowerExpr(expr)])
  }

  function AssignAll(ms: seq<MemberNode>, acc: Record): Record {
    if ms == [] then acc else AssignAll(ms[1..], Assign(ms[0], acc))
  }

  predicate MemberQuotable(m: MemberNode) {
    ':' !in m.name && match m case RelationNode(_, subjects) => SubjectsQuotable(subjects) case PermissionNode(_, e) => Quotable(e)
  }

  lemma BodyReadsBack(m: MemberNode, rest: string)
    requires MemberQuotable(m)
    ensures m.RelationNode? ==> ReadRelationBody(RenderBody(m) + rest) == Some((SubjectStrings(m.subjects), rest))
    ensures m.PermissionNode? ==> ReadPermissionBody(RenderBody(m) + rest) == Some((LowerExpr(m.expr), rest))
  {
    match m
    case RelationNode(_, subjects) =>
      var last := " }," + rest;
      var body := RenderSubjects(subjects) + "]" + last;
      assert RenderBody(m) + rest == " { subjects: [" + body;
      Skips(" { subjects: [", body);
      SubjectsReadBack(subjects, last);
      Skips(" },", rest);
    case PermissionNode(_, e) =>
      Assoc4(" ", RenderExpr(e), ",", rest);
      Assoc3(RenderExpr(e), ",", rest);
      Skips(" ", RenderExpr(e) + ("," + rest));
      ExprReadsBack(e, "," + rest);
      Skips(",", rest);
  }

  lemma MemberReadsBack(m: MemberNode, rest: string, acc: Record)
    requires MemberQuotable(m)
    ensures ReadMember(m.RelationNode?, RenderMember(m) + rest, acc) == Some((Assign(m, acc), rest))
  {
    var body := RenderBody(m) + rest;
    Assoc5("        ", m.name, ":", RenderBody(m), rest);
    Assoc3(":", RenderBody(m), rest);
    Assoc3(m.name, ":", body);
    Skips("        ", m.name + ":" + body);
    assert ":" == [':'];
    SplitOf(m.name, ':', body);
    BodyReadsBack(m, rest);
  }

  /** A line is not the end of its block. */
  lemma MoreLines(ms: seq<MemberNode>, rest: string)
    requires ms != []
    ensures Expect("\n    },", "\n" + (RenderLines(ms) + rest)).None?
  {
    var s := "\n" + (RenderLines(ms) + rest);
    assert RenderLines(ms)[4] == RenderMember(ms[0])[4] == ' ';
    assert s[5] == ' ';
  }

  lemma {:induction false} LinesReadBack(relations: bool, ms: seq<MemberNode>, rest: string, acc: Record)
    requires ms != [] && forall m | m in ms :: MemberQuotable(m) && m.RelationNode? == relations
    ensures ReadLines(relations, RenderLines(ms) + "\n    }," + rest, acc) == Some((AssignAll(ms, acc), rest))
    decreases |ms|
  {
    assert ms[0] in ms;
    var first, end := RenderMember(ms[0]), "\n    },";
    if |ms| == 1 {
      Assoc3(first, end, rest);
      MemberReadsBack(ms[0], end + rest, acc);
      Skips(end, rest);
      assert ms[1..] == [];
    } else {
      var others := RenderLines(ms[1..]);
      Assoc5(first, "\n", others, end, rest);
      MemberReadsBack(ms[0], "\n" + (others + end + rest), acc);
      Assoc3(others, end, rest);
      MoreLines(ms[1..], end + rest);
      Skips("\n", others + end + rest);
      LinesReadBack(relations, ms[1..], rest, Assign(ms[0], acc));
    }
  }

  lemma BlockReadsBack(relations: bool, ms: seq<MemberNode>, rest: string, acc: Record)
    requires forall m | m in ms :: MemberQuotable(m) && m.RelationNode? == relations
    ensures ReadBlock(relations, RenderBlock(if relations then "relations" else "permissions", ms) + rest, acc) ==
            Some((AssignAll(ms, acc), rest))
  {
    var field := if relations then "relations" else "permissions";
    if ms == [] {
      Skips("    " + field + ": {},", rest);
    } else {
      var lines := RenderLines(ms) + "\n    }," + rest;
      Assoc4("    " + field + ": {\n", RenderLines(ms), "\n    },", rest);
      Skips("    " + field + ": {\n", lines);
      NotEmptyBlock(field, lines);
      LinesReadBack(relations, ms, rest, acc);
    }
  }

  lemma NotEmptyBlock(field: string, lines: string)
    ensures Expect("    " + field + ": {},", "    " + field + ": {\n" + lines).None?
  {
    var i := |"    " + field + ": {"|;
    assert ("    " + field + ": {},")[i] == '}';
    assert ("    " + field + ": {\n" + lines)[i] == '\n';
  }

  lemma {:induction false} AssignOneMore(ms: seq<MemberNode>, m: MemberNode, acc: Record)
    ensures AssignAll(ms + [m], acc) == Assign(m, AssignAll(ms, acc))
  {
    if ms == [] {
      assert ms + [m] == [m] && [m][1..] == [];
    } else {
      assert (ms + [m])[1..] == ms[1..] + [m];
      AssignOneMore(ms[1..], m, Assign(ms[0], acc));
    }
  }

  /** Assigning line by line gives the two records that lowering fills. */
  lemma {:induction false} LinesFillRelations(members: seq<MemberNode>, p: map<string, UsersetExpr>)
    ensures AssignAll(RelationNodes(members), Record(map[], p)) == Record(Relations(members), p)
    decreases |members|
  {
    if members != [] {
      var front, m := members[..|members| - 1], members[|members| - 1];
      LinesFillRelations(front, p);
      AssignOneMore(RelationNodes(front), m, Record(map[], p));
    }
  }

  lemma {:induction false} LinesFillPermissions(members: seq<MemberNode>, r: map<string, seq<string>>)
    ensures AssignAll(PermissionNodes(members), Record(r, map[])) == Record(r, Permissions(members))
    decreases |members|
  {
    if members != [] {
      var front, m := members[..|members| - 1], members[|members| - 1];
      LinesFillPermissions(front, r);
      AssignOneMore(PermissionNodes(front), m, Record(r, map[]));
    }
  }

  // ----- the definition -----

  function RenderDefinition(ns: NamespaceNode): string {
    "export const " + ns.name + " = defineNamespace('" + ns.name + "', {\n" +
    RenderBlock("relations", RelationNodes(ns.members)) + "\n" +
    RenderBlock("permissions", PermissionNodes(ns.members)) + "\n});\n"
  }

  /** The exported name and what is exported under it. */
  function ReadDefinition(s: string): Option<(string, NamespaceDef)> {
    var start := Expect("export const ", s);
    if start.None? || Split(start.value, ' ').None? then None else
      var (exported, after) := Split(start.value, ' ').value;
      var call := Expect("= defineNamespace('", after);
      if call.None? || Split(call.value, '\'').None? then None else
        var (name, body) := Split(call.value, '\'').value;
        ReadRecords(exported, name, body)
  }

  function ReadRecords(exported: string, name: string, body: string): Option<(string, NamespaceDef)> {
    var blocks := Expect(", {\n", body);
    if blocks.None? then None else
      var relations := ReadBlock(true, blocks.value, Record(map[], map[]));
      if relations.None? || Expect("\n", relations.value.1).None? then None else
        var permissions := ReadBlock(false, Expect("\n", relations.value.1).value, relations.value.0);
        if permissions.None? || permissions.value.1 != "\n});\n" then None
        else Some((exported, NamespaceDef(name, permissions.value.0.relations, permissions.value.0.permissions)))
  }

  predicate NamespaceQuotable(ns: NamespaceNode) {
    ' ' !in ns.name && '\'' !in ns.name && forall m | m in ns.members :: MemberQuotable(m)
  }

  lemma RecordsReadBack(ns: NamespaceNode)
    requires NamespaceQuotable(ns)
    ensures ReadRecords(ns.name, ns.name,
              ", {\n" + (RenderBlock("relations", RelationNodes(ns.members)) +
              ("\n" + (RenderBlock("permissions", PermissionNodes(ns.members)) + "\n});\n")))) ==
            Some((ns.name, LowerNamespace(ns)))
  {
    var acc := Record(map[], map[]);
    var relations, permissions := RelationNodes(ns.members), PermissionNodes(ns.members);
    var second := RenderBlock("permissions", permissions) + "\n});\n";
    NodesOf(ns.members);
    Skips(", {\n", RenderBlock("relations", relations) + ("\n" + second));
    BlockReadsBack(true, relations, "\n" + second, acc);
    Skips("\n", second);
    LinesFillRelations(ns.members, map[]);
    LinesFillPermissions(ns.members, Relations(ns.members));
    BlockReadsBack(false, permissions, "\n});\n", Record(Relations(ns.members), map[]));
  }

  /** The generated definition evaluates to the namespace that validation judged, under its own name. */
  lemma {:induction false} DefinitionReadsBack(ns: NamespaceNode)
    requires NamespaceQuotable(ns)
    ensures ReadDefinition(RenderDefinition(ns)) == Some((ns.name, LowerNamespace(ns)))
  {
    var r, p := RenderBlock("relations", RelationNodes(ns.members)), RenderBlock("permissions", PermissionNodes(ns.members));
    var body := ", {\n" + (r + ("\n" + (p + "\n});\n")));
    var after := "= defineNamespace('" + (ns.name + ['\''] + body);
    DefinitionText(ns.name, r, p);
    Skips("export const ", ns.name + [' '] + after);
    SplitOf(ns.name, ' ', after);
    Skips("= defineNamespace('", ns.name + ['\''] + body);
    SplitOf(ns.name, '\'', body);
    RecordsReadBack(ns);
  }

  lemma DefinitionText(name: string, r: string, p: string)
    ensures "export const " + name + " = defineNamespace('" + name + "', {\n" + r + "\n" + p + "\n});\n" ==
            "export const " + (name + [' '] + ("= defineNamespace('" + (name + ['\''] + (", {\n" + (r + ("\n" + (p + "\n});\n")))))))
  {
    var blocks := r + ("\n" + (p + "\n});\n"));
    assert "\n" + p + "\n});\n" == "\n" + (p + "\n});\n");
    assert r + "\n" + p + "\n});\n" == blocks;
    var head := "export const " + name + " = defineNamespace('" + name + "', {\n";
    assert head + r + "\n" + p + "\n});\n" == head + blocks;
    assert head == "export const " + (name + [' '] + ("= defineNamespace('" + (name + ['\''] + ", {\n")));
  }

  // ----- the imports -----

  /** The builders an expression calls when it is evaluated. */
  predicate Calls(e: UsersetExpr, builder: string)
    decreases e
  {
    match e
    case Direct => builder == "direct"
    case Computed(_) => builder == "computed"
    case TupleToUserset(_, _) => builder == "tupleToUserset"
    case Union(cs) => builder == "union" || SomeCalls(cs, builder)
    case Intersection(cs) => builder == "intersection" || SomeCalls(cs, builder)
    case Exclusion(base, subtract) => builder == "exclusion" || Calls(base, builder) || Calls(subtract, builder)
  }

  predicate SomeCalls(es: seq<UsersetExpr>, builder: string)
    decreases es
  {
    exists i | 0 <= i < |es| :: Calls(es[i], builder)
  }

  method Visit(e: ExprNode, used: set<string>) returns (now: set<string>)
    ensures forall b :: b in now <==> b in used || Calls(LowerExpr(e), b)
    decreases e
  {
    match e
    case Ref(_) => now := used + {"computed"};
    case Ttu(_, _) => now := used + {"tupleToUserset"};
    case UnionNode(cs) => now := VisitAll(e, cs, used + {"union"});
    case IntersectionNode(cs) => now := VisitAll(e, cs, used + {"intersection"});
    case ExclusionNode(base, subtract) =>
      now := Visit(base, used + {"exclusion"});
      now := Visit(subtract, now);
  }

  method VisitAll(e: ExprNode, cs: seq<ExprNode>, used: set<string>) returns (now: set<string>)
    requires e == UnionNode(cs) || e == IntersectionNode(cs)
    ensures forall b :: b in now <==> b in used || SomeCalls(LowerAll(cs), b)
    decreases e, 0
  {
    now := used;
    ghost var es := LowerAll(cs);
    for i := 0 to |cs|
      invariant forall b :: b in now <==> b in used || SomeCalls(es[..i], b)
    {
      now := Visit(cs[i], now);
      forall b ensures SomeCalls(es[..i + 1], b) <==> SomeCalls(es[..i], b) || Calls(es[i], b) {
      }
    }
    assert es[..|cs|] == es;
  }

  /** A namespace imports exactly the builders its definition calls. */
  method UsedBuilders(ns: NamespaceNode) returns (used: set<string>)
    ensures forall b :: b in used <==>
      b == "defineNamespace" || exists m | m in ns.members :: m.PermissionNode? && Calls(LowerExpr(m.expr), b)
  {
    used := {"defineNamespace"};
    for i := 0 to |ns.members|
      invariant forall b :: b in used <==>
        b == "defineNamespace" || exists m | m in ns.members[..i] :: m.PermissionNode? && Calls(LowerExpr(m.expr), b)
    {
      assert ns.members[..i + 1] == ns.members[..i] + [ns.members[i]];
      if ns.members[i].PermissionNode? {
        used := Visit(ns.members[i].expr, used);
      }
    }
    assert ns.members[..|ns.members|] == ns.members;
  }
}
