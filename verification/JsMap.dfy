/**
 * An insertion-ordered map, as its entries in iteration order.
 *
 * The program relies on two properties of such maps. Setting an existing key keeps its place, so rewriting a stored
 * tuple does not move it; deleting a key and setting it again moves it to the end, which is how the server feed tracks
 * how recent its snapshots are. Keys are compared as values.
 */
module JsMap {
  ghost predicate DistinctKeys<K, V>(m: seq<(K, V)>) {
    forall i, j | 0 <= i < j < |m| :: m[i].0 != m[j].0
  }

  predicate Has<K(==), V>(m: seq<(K, V)>, k: K) {
    exists i | 0 <= i < |m| :: m[i].0 == k
  }

  /** `set`: an existing key keeps its place, a new one goes last. */
  function Put<K(==), V>(m: seq<(K, V)>, k: K, v: V): (r: seq<(K, V)>)
    ensures !Has(m, k) ==> r == m + [(k, v)]
    ensures forall x | x in r :: x == (k, v) || x in m
  {
    if m == [] then [(k, v)]
    else if m[0].0 == k then [(k, v)] + m[1..]
    else [m[0]] + Put(m[1..], k, v)
  }

  /** `delete`: the other entries keep their order. */
  function Drop<K(==, !new), V(!new)>(m: seq<(K, V)>, k: K): (r: seq<(K, V)>)
    ensures forall x :: x in r <==> x in m && x.0 != k
  {
    if m == [] then []
    else if m[0].0 == k then Drop(m[1..], k)
    else [m[0]] + Drop(m[1..], k)
  }

  lemma {:induction false} DropKeepsDistinct<K(!new), V(!new)>(m: seq<(K, V)>, k: K)
    requires DistinctKeys(m)
    ensures DistinctKeys(Drop(m, k))
  {
    if m != [] {
      DropKeepsDistinct(m[1..], k);
      var rest := Drop(m[1..], k);
      forall j | 0 <= j < |rest| ensures m[0].0 != rest[j].0 {
        assert rest[j] in m[1..];
      }
    }
  }

  lemma {:induction false} DropAbsent<K(!new), V(!new)>(m: seq<(K, V)>, k: K)
    requires !Has(m, k)
    ensures Drop(m, k) == m
  {
    if m != [] {
      assert m[0].0 != k;
      forall i | 0 <= i < |m[1..]| ensures m[1..][i].0 != k {
        assert m[1..][i] == m[i + 1];
      }
      DropAbsent(m[1..], k);
    }
  }

  /** The members after a `set`: the new entry and the others with other keys. */
  lemma {:induction false} PutMembers<K(!new), V(!new)>(m: seq<(K, V)>, k: K, v: V)
    requires DistinctKeys(m)
    ensures DistinctKeys(Put(m, k, v))
    ensures forall x :: x in Put(m, k, v) <==> x == (k, v) || (x in m && x.0 != k)
  {
    if m != [] {
      assert forall x :: x in m <==> x == m[0] || x in m[1..];
      forall x | x in m[1..] ensures x.0 != m[0].0 {
        var j :| 0 <= j < |m[1..]| && m[1..][j] == x;
        assert m[j + 1] == x;
      }
      if m[0].0 != k {
        PutMembers(m[1..], k, v);
        var rest := Put(m[1..], k, v);
        forall j | 0 <= j < |rest| ensures m[0].0 != rest[j].0 {
          assert rest[j] in rest;
        }
      }
    }
  }
}
