/**
 * The in-memory tuple store: a map keyed by canonical text, which on tuples that passed the schema is a set of tuples.
 *
 * Its methods do not look at the schema: of tuples that share a text the last one written stays. For valid tuples that
 * never happens to different ones, so writing adds to a set and deleting takes away from it. The two queries the
 * evaluators make go through the entries in insertion order.
 */
module TupleStore {
  import opened Tuples
  import opened Rewrites
  import opened JsMap

  /** The tuples of a store, in insertion order. */
  function Values(m: seq<(string, RelationTuple)>): seq<RelationTuple> {
    seq(|m|, i requires 0 <= i < |m| => m[i].1)
  }

  /** Every entry is under the text of its tuple, and no text occurs twice. */
  ghost predicate Keyed(m: seq<(string, RelationTuple)>) {
    DistinctKeys(m) && forall x | x in m :: x.0 == StringifyTuple(x.1)
  }

  /** The store of tuples that all passed the schema. */
  ghost predicate Canonical(m: seq<(string, RelationTuple)>) {
    Keyed(m) && forall x | x in m :: ValidTuple(x.1)
  }

  ghost function Contents(m: seq<(string, RelationTuple)>): set<RelationTuple> {
    set x | x in m :: x.1
  }

  lemma MemberOfContents(m: seq<(string, RelationTuple)>, t: RelationTuple)
    requires Keyed(m)
    ensures t in Contents(m) <==> (StringifyTuple(t), t) in m
    ensures t in Contents(m) <==> t in Values(m)
  {
    if t in Values(m) {
      var i :| 0 <= i < |m| && Values(m)[i] == t;
      assert m[i] in m;
    }
    if (StringifyTuple(t), t) in m {
      var i :| 0 <= i < |m| && m[i] == (StringifyTuple(t), t);
      assert Values(m)[i] == t;
    }
  }

  lemma PutAddsTuple(m: seq<(string, RelationTuple)>, t: RelationTuple)
    requires Canonical(m) && ValidTuple(t)
    ensures Canonical(Put(m, StringifyTuple(t), t))
    ensures Contents(Put(m, StringifyTuple(t), t)) == Contents(m) + {t}
  {
    var m' := Put(m, StringifyTuple(t), t);
    PutMembers(m, StringifyTuple(t), t);
    forall u ensures u in Contents(m') <==> u in Contents(m) || u == t {
      MemberOfContents(m, u);
      MemberOfContents(m', u);
      if ValidTuple(u) && StringifyTuple(u) == StringifyTuple(t) {
        StringifyInjective(t, u);
      }
    }
  }

  lemma DropRemovesTuple(m: seq<(string, RelationTuple)>, t: RelationTuple)
    requires Canonical(m) && ValidTuple(t)
    ensures Canonical(Drop(m, StringifyTuple(t)))
    ensures Contents(Drop(m, StringifyTuple(t))) == Contents(m) - {t}
  {
    var m' := Drop(m, StringifyTuple(t));
    DropKeepsDistinct(m, StringifyTuple(t));
    forall u ensures u in Contents(m') <==> u in Contents(m) && u != t {
      MemberOfContents(m, u);
      MemberOfContents(m', u);
      if ValidTuple(u) && StringifyTuple(u) == StringifyTuple(t) {
        StringifyInjective(t, u);
      }
    }
  }

  // ----- tuples that need not be valid -----

  function Texts(ts: seq<RelationTuple>): set<string> {
    set t | t in ts :: StringifyTuple(t)
  }

  /** Of tuples with the same text the last one counts. */
  predicate LastOfText(ts: seq<RelationTuple>, t: RelationTuple) {
    exists i | 0 <= i < |ts| :: ts[i] == t && StringifyTuple(t) !in Texts(ts[i + 1..])
  }

  function PutAll(m: seq<(string, RelationTuple)>, ts: seq<RelationTuple>): seq<(string, RelationTuple)>
    decreases |ts|
  {
    if ts == [] then m else PutAll(Put(m, StringifyTuple(ts[0]), ts[0]), ts[1..])
  }

  function DropAll(m: seq<(string, RelationTuple)>, ts: seq<RelationTuple>): seq<(string, RelationTuple)>
    decreases |ts|
  {
    if ts == [] then m else DropAll(Drop(m, StringifyTuple(ts[0])), ts[1..])
  }

  lemma TextsOfRest(ts: seq<RelationTuple>)
    requires ts != []
    ensures Texts(ts) == {StringifyTuple(ts[0])} + Texts(ts[1..])
  {
    assert forall t :: t in ts <==> t == ts[0] || t in ts[1..];
  }

  lemma LastOfRest(ts: seq<RelationTuple>, t: RelationTuple)
    requires ts != []
    ensures LastOfText(ts, t) <==> LastOfText(ts[1..], t) || (t == ts[0] && StringifyTuple(t) !in Texts(ts[1..]))
  {
    var rest := ts[1..];
    if i :| 0 <= i < |ts| && ts[i] == t && StringifyTuple(t) !in Texts(ts[i + 1..]) {
      if i > 0 {
        assert rest[i - 1] == t && rest[i..] == ts[i + 1..];
      }
    }
    if i :| 0 <= i < |rest| && rest[i] == t && StringifyTuple(t) !in Texts(rest[i + 1..]) {
      assert ts[i + 1] == t && rest[i + 1..] == ts[i + 1 + 1..];
    }
  }

  /** A write stores each text's last tuple and keeps what is under other texts. */
  lemma {:induction false} PutAllMembers(m: seq<(string, RelationTuple)>, ts: seq<RelationTuple>)
    requires Keyed(m)
    ensures Keyed(PutAll(m, ts))
    ensures forall x :: x in PutAll(m, ts) <==>
              x.0 == StringifyTuple(x.1) && (LastOfText(ts, x.1) || (x in m && x.0 !in Texts(ts)))
    decreases |ts|
  {
    if ts != [] {
      var text := StringifyTuple(ts[0]);
      PutMembers(m, text, ts[0]);
      PutAllMembers(Put(m, text, ts[0]), ts[1..]);
      TextsOfRest(ts);
      forall x ensures x in PutAll(m, ts) <==>
                       x.0 == StringifyTuple(x.1) && (LastOfText(ts, x.1) || (x in m && x.0 !in Texts(ts))) {
        LastOfRest(ts, x.1);
      }
    }
  }

  lemma {:induction false} PutAllAddsTuples(m: seq<(string, RelationTuple)>, ts: seq<RelationTuple>)
    requires Canonical(m) && forall t | t in ts :: ValidTuple(t)
    ensures Canonical(PutAll(m, ts)) && Contents(PutAll(m, ts)) == Contents(m) + set t | t in ts
    decreases |ts|
  {
    if ts != [] {
      PutAddsTuple(m, ts[0]);
      PutAllAddsTuples(Put(m, StringifyTuple(ts[0]), ts[0]), ts[1..]);
      assert (set t | t in ts) == {ts[0]} + set t | t in ts[1..];
    }
  }

  lemma {:induction false} DropAllMembers(m: seq<(string, RelationTuple)>, ts: seq<RelationTuple>)
    requires Keyed(m)
    ensures Keyed(DropAll(m, ts))
    ensures forall x :: x in DropAll(m, ts) <==> x in m && x.0 !in Texts(ts)
    decreases |ts|
  {
    if ts != [] {
      DropKeepsDistinct(m, StringifyTuple(ts[0]));
      DropAllMembers(Drop(m, StringifyTuple(ts[0])), ts[1..]);
      TextsOfRest(ts);
    }
  }

  lemma {:induction false} DropAllRemovesTuples(m: seq<(string, RelationTuple)>, ts: seq<RelationTuple>)
    requires Canonical(m) && forall t | t in ts :: ValidTuple(t)
    ensures Canonical(DropAll(m, ts)) && Contents(DropAll(m, ts)) == Contents(m) - set t | t in ts
    decreases |ts|
  {
    if ts != [] {
      DropRemovesTuple(m, ts[0]);
      DropAllRemovesTuples(Drop(m, StringifyTuple(ts[0])), ts[1..]);
      assert (set t | t in ts) == {ts[0]} + set t | t in ts[1..];
    }
  }

  lemma Regroup<T>(a: seq<T>, x: T, b: seq<T>)
    ensures a + ([x] + b) == a + [x] + b
  {
  }

  class InMemoryTupleRepository {
    var tuples: seq<(string, RelationTuple)>

    ghost predicate Valid()
      reads this
    {
      Keyed(tuples)
    }

    ghost function Stored(): set<RelationTuple>
      reads this
    {
      Contents(tuples)
    }

    constructor (seed: seq<RelationTuple>)
      ensures Valid() && forall x :: x in tuples <==> x.0 == StringifyTuple(x.1) && LastOfText(seed, x.1)
      ensures (forall t | t in seed :: ValidTuple(t)) ==> Canonical(tuples) && Stored() == set t | t in seed
    {
      tuples := [];
      new;
      Write(seed);
    }

    /** All stored tuples, in insertion order; each is listed once. */
    method All() returns (out: seq<RelationTuple>)
      requires Valid()
      ensures out == Values(tuples)
      ensures forall t :: t in out <==> t in Stored()
      ensures forall i, j | 0 <= i < j < |out| :: out[i] != out[j]
    {
      out := Values(tuples);
      forall t ensures t in out <==> t in Stored() {
        MemberOfContents(tuples, t);
      }
      forall i, j | 0 <= i < j < |out| ensures out[i] != out[j] {
        assert tuples[i] in tuples && tuples[j] in tuples;
      }
    }

    method Clear()
      modifies this
      ensures Valid() && Stored() == {}
    {
      tuples := [];
    }

    /** Any tuples, by their text; tuples that passed the schema are simply added to the set. */
    method Write(ts: seq<RelationTuple>)
      requires Valid()
      modifies this
      ensures Valid() && forall x :: x in tuples <==>
                x.0 == StringifyTuple(x.1) && (LastOfText(ts, x.1) || (x in old(tuples) && x.0 !in Texts(ts)))
      ensures Canonical(old(tuples)) && (forall t | t in ts :: ValidTuple(t)) ==>
                Canonical(tuples) && Stored() == old(Stored()) + set t | t in ts
    {
      for i := 0 to |ts|
        invariant PutAll(tuples, ts[i..]) == PutAll(old(tuples), ts)
      {
        assert ts[i..][1..] == ts[i + 1..];
        tuples := Put(tuples, StringifyTuple(ts[i]), ts[i]);
      }
      PutAllMembers(old(tuples), ts);
      if Canonical(old(tuples)) && forall t | t in ts :: ValidTuple(t) {
        PutAllAddsTuples(old(tuples), ts);
      }
    }

    method Delete(ts: seq<RelationTuple>)
      requires Valid()
      modifies this
      ensures Valid() && forall x :: x in tuples <==> x in old(tuples) && x.0 !in Texts(ts)
      ensures Canonical(old(tuples)) && (forall t | t in ts :: ValidTuple(t)) ==>
                Canonical(tuples) && Stored() == old(Stored()) - set t | t in ts
    {
      for i := 0 to |ts|
        invariant DropAll(tuples, ts[i..]) == DropAll(old(tuples), ts)
      {
        assert ts[i..][1..] == ts[i + 1..];
        tuples := Drop(tuples, StringifyTuple(ts[i]));
      }
      DropAllMembers(old(tuples), ts);
      if Canonical(old(tuples)) && forall t | t in ts :: ValidTuple(t) {
        DropAllRemovesTuples(old(tuples), ts);
      }
    }

    /** The first query of the evaluators. */
    method ListTuples(o: ObjectRef, relation: string) returns (out: seq<RelationTuple>)
      ensures out == ListByObjectRelation(Values(tuples), o, relation)
    {
      out := [];
      for i := 0 to |tuples|
        invariant out + ListByObjectRelation(Values(tuples)[i..], o, relation) ==
                  ListByObjectRelation(Values(tuples), o, relation)
      {
        var t := tuples[i].1;
        assert Values(tuples)[i..][0] == t && Values(tuples)[i..][1..] == Values(tuples)[i + 1..];
        if t.obj == o && t.relation == relation {
          Regroup(out, t, ListByObjectRelation(Values(tuples)[i + 1..], o, relation));
          out := out + [t];
        }
      }
      assert out + [] == out;
    }

    /** The second query: only concrete subjects are parents. */
    method ListParents(o: ObjectRef, relation: string) returns (out: seq<ObjectRef>)
      ensures out == ListObjectsRelatedBy(Values(tuples), o, relation)
    {
      out := [];
      for i := 0 to |tuples|
        invariant out + ListObjectsRelatedBy(Values(tuples)[i..], o, relation) ==
                  ListObjectsRelatedBy(Values(tuples), o, relation)
      {
        var t := tuples[i].1;
        assert Values(tuples)[i..][0] == t && Values(tuples)[i..][1..] == Values(tuples)[i + 1..];
        if t.obj == o && t.relation == relation && t.subject.Concrete? {
          var p := ObjectRef(t.subject.namespace, t.subject.id);
          Regroup(out, p, ListObjectsRelatedBy(Values(tuples)[i + 1..], o, relation));
          out := out + [p];
        }
      }
      assert out + [] == out;
    }
  }
}
