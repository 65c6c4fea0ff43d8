/**
 * Character-level string operations used by the tuple notation, the model validator and the code generator.
 *
 * All three cut strings at separators: at the first occurrence of a character, found with `indexOf`, and the two slices
 * around it. What makes that unambiguous is that names and identifiers hold no separator, so the lemmas here are about
 * cutting a text that was put together from such parts.
 */
module Text {
  import opened Options

  /** Position of the first `c` in `s`, or -1. */
  function IndexOf(s: string, c: char): (i: int)
    ensures -1 <= i < |s|
    ensures i == -1 <==> c !in s
    ensures i >= 0 ==> s[i] == c && c !in s[..i]
  {
    if s == [] then -1
    else if s[0] == c then 0
    else
      var j := IndexOf(s[1..], c);
      assert s == [s[0]] + s[1..];
      if j == -1 then -1
      else
        assert s[..j + 1] == [s[0]] + s[1..][..j];
        j + 1
  }

  /** The first `c` of `a + [c] + b` is right after `a`, when `a` has none. */
  lemma IndexOfSeparator(a: string, c: char, b: string)
    requires c !in a
    ensures IndexOf(a + [c] + b, c) == |a|
  {
    var s := a + [c] + b;
    var i := IndexOf(s, c);
    assert s[|a|] == c;
    assert forall k | 0 <= k < |a| :: s[k] == a[k];
    assert forall k | 0 <= k < i :: s[..i][k] == s[k];
  }

  /** `s` before and after its first `c`, as two slices around `indexOf` give them. */
  function Split(s: string, c: char): (r: Option<(string, string)>)
    ensures r.None? <==> c !in s
    ensures r.Some? ==> c !in r.value.0 && s == r.value.0 + [c] + r.value.1
  {
    var i := IndexOf(s, c);
    if i == -1 then None else Some((s[..i], s[i + 1..]))
  }

  lemma SplitOf(a: string, c: char, b: string)
    requires c !in a
    ensures Split(a + [c] + b, c) == Some((a, b))
  {
    IndexOfSeparator(a, c, b);
    var s := a + [c] + b;
    assert s[..|a|] == a && s[|a| + 1..] == b;
  }

  /** Two strings that split at the same character split the same way, when neither left part holds it. */
  lemma SplitUnique(a: string, b: string, c: char, a': string, b': string)
    requires c !in a && c !in a'
    requires a + [c] + b == a' + [c] + b'
    ensures a == a' && b == b'
  {
    SplitOf(a, c, b);
    SplitOf(a', c, b');
  }

  lemma SuffixCancels(a: string, b: string, c: string)
    requires a + c == b + c
    ensures a == b
  {
    assert a == (a + c)[..|a + c| - |c|];
    assert b == (b + c)[..|b + c| - |c|];
  }

  predicate EndsWith(s: string, suffix: string) {
    |suffix| <= |s| && s[|s| - |suffix|..] == suffix
  }

  predicate IsLower(c: char) { 'a' <= c <= 'z' }

  predicate IsNameChar(c: char) { IsLower(c) || '0' <= c <= '9' || c == '_' }

  /** `[a-z][a-z0-9_]*`, the shape of every namespace, relation and permission name. */
  predicate IsName(s: string) {
    |s| > 0 && IsLower(s[0]) && forall i | 0 <= i < |s| :: IsNameChar(s[i])
  }

  predicate IsIdChar(c: char) { c != '.' && c != '@' && c != ':' && c != '*' }

  /** A non-empty string without any of the four separators of the tuple notation. */
  predicate IsId(s: string) {
    |s| > 0 && forall i | 0 <= i < |s| :: IsIdChar(s[i])
  }

  const LETTERS := {
    'a', 'b', 'c', 'd', 'e', 'f', 'g', 'h', 'i', 'j', 'k', 'l', 'm',
    'n', 'o', 'p', 'q', 'r', 's', 't', 'u', 'v', 'w', 'x', 'y', 'z'
  }
  const DIGITS := {'0', '1', '2', '3', '4', '5', '6', '7', '8', '9'}

  lemma Letters(c: char)
    ensures IsLower(c) <==> c in LETTERS
  {
  }

  lemma NameChars(c: char)
    ensures IsNameChar(c) <==> c in LETTERS || c in DIGITS || c == '_'
  {
    Letters(c);
  }

  /** A name is a small letter and then any small letters, digits and underscores. */
  lemma NameShape(s: string)
    ensures IsName(s) <==> s != "" && s[0] in LETTERS && forall c | c in s :: c in LETTERS || c in DIGITS || c == '_'
  {
    if s != "" {
      Letters(s[0]);
    }
    forall c ensures IsNameChar(c) <==> c in LETTERS || c in DIGITS || c == '_' {
      NameChars(c);
    }
  }

  /** An identifier is anything that is not empty and has none of the four separators. */
  lemma IdShape(s: string)
    ensures IsId(s) <==> s != "" && '.' !in s && '@' !in s && ':' !in s && '*' !in s
  {
    if s != "" && '.' !in s && '@' !in s && ':' !in s && '*' !in s {
      forall i | 0 <= i < |s| ensures IsIdChar(s[i]) {
        assert s[i] in s;
      }
    }
    if IsId(s) {
      IdsHoldNoSeparator(s);
    }
  }

  lemma NamesHoldNoSeparator(s: string)
    requires IsName(s)
    ensures '.' !in s && '@' !in s && ':' !in s && '*' !in s
  {
    forall i | 0 <= i < |s| ensures IsIdChar(s[i]) {
      assert IsNameChar(s[i]);
    }
  }

  lemma IdsHoldNoSeparator(s: string)
    requires IsId(s)
    ensures '.' !in s && '@' !in s && ':' !in s && '*' !in s
  {
    forall i | 0 <= i < |s| ensures s[i] != '.' && s[i] != '@' && s[i] != ':' && s[i] != '*' {
      assert IsIdChar(s[i]);
    }
  }
}
