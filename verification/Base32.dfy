/**
 * Base32 (RFC 4648, section 6) with the 32-bit shift accumulators of the program.
 *
 * The meaning is given in bits, most significant first: `Spread` writes numbers of a fixed width one after the other
 * and `Group` cuts bits into such numbers. Encoding spreads bytes, fills up with zeros and groups by five; decoding
 * spreads digits and groups by eight, dropping what does not fill a byte. The loops keep the bits that are pending in
 * the low end of the accumulator, so that what they have written followed by those bits is what they have read.
 */
module Base32 {
  type Byte = n: nat | n < 256
  type Digit = n: nat | n < 32
  type Positive = n: nat | n > 0 witness 1

  /** 32 characters. */
  type Alphabet = s: string | |s| == 32 witness "ABCDEFGHIJKLMNOPQRSTUVWXYZ234567"

  datatype Decoded = Bytes(bytes: seq<Byte>) | InvalidCharacter(c: char)

  const ALPHABET: Alphabet := "ABCDEFGHIJKLMNOPQRSTUVWXYZ234567"

  const WORD: nat := 0x1_0000_0000

  // ----- bits, most significant first -----

  function BitsOf(n: nat, width: nat): (b: seq<bool>)
    ensures |b| == width
    decreases width
  {
    if width == 0 then [] else BitsOf(n / 2, width - 1) + [n % 2 == 1]
  }

  function NumberOf(b: seq<bool>): nat {
    if b == [] then 0 else 2 * NumberOf(b[..|b| - 1]) + if b[|b| - 1] then 1 else 0
  }

  function Pow2(k: nat): (p: nat)
    ensures p > 0
  {
    if k == 0 then 1 else 2 * Pow2(k - 1)
  }

  function Zeros(n: nat): seq<bool> {
    seq(n, _ => false)
  }

  /** The bits of numbers written `width` bits each. */
  function Spread(ns: seq<nat>, width: nat): seq<bool> {
    if ns == [] then [] else BitsOf(ns[0], width) + Spread(ns[1..], width)
  }

  lemma {:induction false} SpreadLength(ns: seq<nat>, width: nat)
    ensures |Spread(ns, width)| == width * |ns|
  {
    if ns != [] {
      SpreadLength(ns[1..], width);
      assert width * |ns| == width * |ns[1..]| + width;
    }
  }

  /** The numbers that `width` bits at a time make; what does not fill a number is dropped. */
  function Group(b: seq<bool>, width: Positive): (ns: seq<nat>)
    decreases |b|
  {
    if |b| < width then [] else [NumberOf(b[..width])] + Group(b[width..], width)
  }

  lemma {:induction false} NumberOfBits(n: nat, width: nat)
    requires n < Pow2(width)
    ensures NumberOf(BitsOf(n, width)) == n
    decreases width
  {
    if width > 0 {
      var b := BitsOf(n, width);
      assert b[..|b| - 1] == BitsOf(n / 2, width - 1);
      NumberOfBits(n / 2, width - 1);
    }
  }

  lemma {:induction false} BitsOfNumber(b: seq<bool>)
    ensures NumberOf(b) < Pow2(|b|) && BitsOf(NumberOf(b), |b|) == b
  {
    if b != [] {
      BitsOfNumber(b[..|b| - 1]);
    }
  }

  lemma {:induction false} SpreadOfGroup(b: seq<bool>, width: Positive)
    ensures Spread(Group(b, width), width) <= b
    ensures |b| < |Spread(Group(b, width), width)| + width
    ensures forall i | 0 <= i < |Group(b, width)| :: Group(b, width)[i] < Pow2(width)
    decreases |b|
  {
    if |b| >= width {
      SpreadOfGroup(b[width..], width);
      BitsOfNumber(b[..width]);
      assert b == b[..width] + b[width..];
    }
  }

  lemma Associates(a: seq<bool>, b: seq<bool>, c: seq<bool>)
    ensures a + b + c == a + (b + c)
  {
  }

  lemma {:induction false} GroupOfSpread(ns: seq<nat>, width: Positive, rest: seq<bool>)
    requires |rest| < width && forall i | 0 <= i < |ns| :: ns[i] < Pow2(width)
    ensures Group(Spread(ns, width) + rest, width) == ns
  {
    if ns == [] {
      assert Spread(ns, width) + rest == rest;
    } else {
      GroupOfSpread(ns[1..], width, rest);
      NumberOfBits(ns[0], width);
      Associates(BitsOf(ns[0], width), Spread(ns[1..], width), rest);
    }
  }

  lemma {:induction false} SpreadAppend(ns: seq<nat>, n: nat, width: nat)
    ensures Spread(ns + [n], width) == Spread(ns, width) + BitsOf(n, width)
  {
    if ns == [] {
      assert [n][1..] == [];
    } else {
      SpreadAppend(ns[1..], n, width);
      assert (ns + [n])[1..] == ns[1..] + [n];
    }
  }

  // ----- what encoding and decoding mean -----

  function CharOf(d: Digit): char {
    ALPHABET[d]
  }

  function Chars(digits: seq<Digit>): (s: string)
    ensures |s| == |digits| && forall i | 0 <= i < |s| :: s[i] == CharOf(digits[i])
  {
    seq(|digits|, i requires 0 <= i < |digits| => CharOf(digits[i]))
  }

  /** How many more fill `n` up to a multiple of `unit`. */
  function Fill(n: nat, unit: Positive): nat {
    (unit - n % unit) % unit
  }

  lemma GroupsExactly(b: seq<bool>)
    requires |b| % 5 == 0
    ensures Spread(Group(b, 5), 5) == b
    ensures forall i | 0 <= i < |Group(b, 5)| :: Group(b, 5)[i] < 32
  {
    SpreadLength(Group(b, 5), 5);
    SpreadOfGroup(b, 5);
    assert Pow2(5) == 32;
  }

  lemma FillDivides(n: nat)
    ensures (n + Fill(n, 5)) % 5 == 0
  {
  }

  function Filled(bytes: seq<Byte>): (b: seq<bool>)
    ensures |b| == 8 * |bytes| + Fill(8 * |bytes|, 5) && |b| % 5 == 0
  {
    FillDivides(8 * |bytes|);
    SpreadLength(bytes, 8);
    Spread(bytes, 8) + Zeros(Fill(8 * |bytes|, 5))
  }

  /** The digits of a byte array: its bits, filled up with zeros, five at a time. */
  function Digits(bytes: seq<Byte>): (ds: seq<Digit>)
    ensures Spread(ds, 5) == Filled(bytes) && |Filled(bytes)| == 5 * |ds|
  {
    SpreadLength(Group(Filled(bytes), 5), 5);
    GroupsExactly(Filled(bytes));
    Group(Filled(bytes), 5)
  }

  lemma FillReaches(n: nat, k: nat)
    requires k <= Fill(n, 8)
    ensures (n + k) % 8 == 0 <==> k == Fill(n, 8)
  {
  }

  function Padded(s: string): (r: string)
    ensures |r| % 8 == 0
  {
    FillReaches(|s|, Fill(|s|, 8));
    s + seq(Fill(|s|, 8), _ => '=')
  }

  function Encode(bytes: seq<Byte>, padding: bool): (r: string)
    ensures padding ==> |r| % 8 == 0
  {
    var s := Chars(Digits(bytes));
    if padding then Padded(s) else s
  }

  function NoSpaces(s: string): string {
    if s == "" then "" else (if s[0] == ' ' then "" else [s[0]]) + NoSpaces(s[1..])
  }

  function NoPadding(s: string): string {
    if s != "" && s[|s| - 1] == '=' then NoPadding(s[..|s| - 1]) else s
  }

  /** The upper-case form of a character, which may be several. */
  type Casing = char -> string

  /** Casing leaves the alphabet alone and raises the ASCII letters; of other characters nothing is said. */
  ghost predicate RaisesAscii(upper: Casing) {
    forall c: char | c < 128 as char :: upper(c) == [if 'a' <= c <= 'z' then (c as int - 32) as char else c]
  }

  function UpperCase(upper: Casing, s: string): string {
    if s == "" then "" else upper(s[0]) + UpperCase(upper, s[1..])
  }

  function Canonical(upper: Casing, s: string): string {
    UpperCase(upper, NoPadding(NoSpaces(s)))
  }

  function IndexIn(s: string, c: char): (i: int)
    ensures -1 <= i < |s|
    ensures i >= 0 ==> s[i] == c && forall j | 0 <= j < i :: s[j] != c
    ensures i == -1 ==> forall j | 0 <= j < |s| :: s[j] != c
  {
    if s == "" then -1
    else if s[0] == c then 0
    else
      var i := IndexIn(s[1..], c);
      if i == -1 then -1 else i + 1
  }

  predicate IsDigit(alphabet: Alphabet, c: char) {
    IndexIn(alphabet, c) != -1
  }

  function ValueOf(alphabet: Alphabet, c: char): (d: Digit)
    requires IsDigit(alphabet, c)
  {
    IndexIn(alphabet, c)
  }

  predicate AllDigits(alphabet: Alphabet, s: string) {
    forall i | 0 <= i < |s| :: IsDigit(alphabet, s[i])
  }

  function Values(alphabet: Alphabet, s: string): (ds: seq<Digit>)
    requires AllDigits(alphabet, s)
    ensures |ds| == |s| && forall i | 0 <= i < |s| :: ds[i] == ValueOf(alphabet, s[i])
  {
    seq(|s|, i requires 0 <= i < |s| => ValueOf(alphabet, s[i]))
  }

  function FirstInvalid(alphabet: Alphabet, s: string): char
    requires !AllDigits(alphabet, s)
  {
    if !IsDigit(alphabet, s[0]) then s[0] else FirstInvalid(alphabet, s[1..])
  }

  /** The bytes that five bits a digit make, dropping what does not fill a byte. */
  function Unpacked(ds: seq<Digit>): (bytes: seq<Byte>)
    ensures |bytes| == 5 * |ds| / 8
  {
    SpreadLength(ds, 5);
    SpreadLength(Group(Spread(ds, 5), 8), 8);
    SpreadOfGroup(Spread(ds, 5), 8);
    assert Pow2(8) == 256;
    Group(Spread(ds, 5), 8)
  }

  function DecodedDigits(alphabet: Alphabet, s: string): Decoded
  {
    if AllDigits(alphabet, s) then Bytes(Unpacked(Values(alphabet, s))) else InvalidCharacter(FirstInvalid(alphabet, s))
  }

  function Decode(upper: Casing, str: string): Decoded {
    DecodedDigits(ALPHABET, Canonical(upper, str))
  }

  // ----- decoding undoes encoding -----

  lemma AlphabetChar(d: Digit)
    ensures CharOf(d) as int == if d < 26 then 'A' as int + d else '2' as int + d - 26
  {
  }

  lemma ValueOfChar(d: Digit)
    ensures IsDigit(ALPHABET, CharOf(d)) && ValueOf(ALPHABET, CharOf(d)) == d
  {
    var c := CharOf(d);
    assert ALPHABET[d] == c;
    var i := IndexIn(ALPHABET, c);
    assert i != -1;
    AlphabetChar(d);
    AlphabetChar(i);
    assert CharOf(i) == c;
  }

  lemma ValuesOfChars(alphabet: Alphabet, ds: seq<Digit>)
    requires alphabet == ALPHABET
    ensures AllDigits(alphabet, Chars(ds)) && Values(alphabet, Chars(ds)) == ds
  {
    forall i | 0 <= i < |ds| ensures IsDigit(alphabet, Chars(ds)[i]) && ValueOf(alphabet, Chars(ds)[i]) == ds[i] {
      ValueOfChar(ds[i]);
    }
  }

  lemma {:induction false} NoSpacesSame(s: string)
    requires forall i | 0 <= i < |s| :: s[i] != ' '
    ensures NoSpaces(s) == s
  {
    if s != "" {
      NoSpacesSame(s[1..]);
    }
  }

  lemma {:induction false} NoPaddingStrips(s: string, n: nat)
    requires s != "" ==> s[|s| - 1] != '='
    ensures NoPadding(s + seq(n, _ => '=')) == s
  {
    var padded := s + seq(n, _ => '=');
    if n == 0 {
      assert padded == s;
    } else {
      NoPaddingStrips(s, n - 1);
      assert padded[..|padded| - 1] == s + seq(n - 1, _ => '=');
    }
  }

  lemma {:induction false} UpperCaseSame(upper: Casing, s: string)
    requires RaisesAscii(upper) && forall i | 0 <= i < |s| :: s[i] < 'a'
    ensures UpperCase(upper, s) == s
  {
    if s != "" {
      UpperCaseSame(upper, s[1..]);
      assert upper(s[0]) == [s[0]];
    }
  }

  lemma CanonicalChars(upper: Casing, ds: seq<Digit>, n: nat)
    requires RaisesAscii(upper)
    ensures Canonical(upper, Chars(ds) + seq(n, _ => '=')) == Chars(ds)
  {
    var s := Chars(ds);
    forall i | 0 <= i < |s| ensures s[i] != ' ' && s[i] != '=' && s[i] < 'a' {
      AlphabetChar(ds[i]);
    }
    NoSpacesSame(s + seq(n, _ => '='));
    NoPaddingStrips(s, n);
    UpperCaseSame(upper, s);
  }

  // ----- what decoding does not look at -----

  lemma {:induction false} NoSpacesSplits(a: string, b: string)
    ensures NoSpaces(a + b) == NoSpaces(a) + NoSpaces(b)
  {
    if a == "" {
      assert a + b == b;
    } else {
      assert (a + b)[1..] == a[1..] + b;
      NoSpacesSplits(a[1..], b);
    }
  }

  /** A space anywhere makes no difference. */
  lemma {:induction false} SpacesAreIgnored(upper: Casing, a: string, b: string)
    ensures Decode(upper, a + " " + b) == Decode(upper, a + b)
  {
    NoSpacesSplits(a + " ", b);
    NoSpacesSplits(a, " ");
    NoSpacesSplits(a, b);
    assert NoSpaces(" ") == "" && NoSpaces(a) + "" == NoSpaces(a);
  }

  /** The same text but for ASCII letters that may be in lower case. */
  predicate Lowered(s: string, s': string) {
    |s| == |s'| &&
    forall i | 0 <= i < |s| :: s'[i] == s[i] || ('A' <= s[i] <= 'Z' && s'[i] as int == s[i] as int + 32)
  }

  lemma {:induction false} LoweredNoSpaces(s: string, s': string)
    requires Lowered(s, s')
    ensures Lowered(NoSpaces(s), NoSpaces(s'))
  {
    if s != "" {
      LoweredNoSpaces(s[1..], s'[1..]);
    }
  }

  lemma {:induction false} LoweredNoPadding(s: string, s': string)
    requires Lowered(s, s')
    ensures Lowered(NoPadding(s), NoPadding(s'))
    decreases |s|
  {
    if s != "" && s[|s| - 1] == '=' {
      LoweredNoPadding(s[..|s| - 1], s'[..|s| - 1]);
    }
  }

  lemma {:induction false} LoweredUpperCase(upper: Casing, s: string, s': string)
    requires RaisesAscii(upper) && Lowered(s, s')
    ensures UpperCase(upper, s) == UpperCase(upper, s')
  {
    if s != "" {
      assert upper(s'[0]) == upper(s[0]);
      LoweredUpperCase(upper, s[1..], s'[1..]);
    }
  }

  /** Nor does the case of ASCII letters. */
  lemma {:induction false} CaseIsIgnored(upper: Casing, s: string, s': string)
    requires RaisesAscii(upper) && Lowered(s, s')
    ensures Decode(upper, s') == Decode(upper, s)
  {
    LoweredNoSpaces(s, s');
    LoweredNoPadding(NoSpaces(s), NoSpaces(s'));
    LoweredUpperCase(upper, NoPadding(NoSpaces(s)), NoPadding(NoSpaces(s')));
  }

  lemma BytesFit(bytes: seq<Byte>)
    ensures forall i | 0 <= i < |bytes| :: bytes[i] < Pow2(8)
  {
    assert Pow2(8) == 256;
  }

  /** The filled-up bits give back the bytes: what was added never fills a byte. */
  lemma UnpackedDigits(bytes: seq<Byte>)
    ensures Unpacked(Digits(bytes)) == bytes
  {
    BytesFit(bytes);
    GroupOfSpread(bytes, 8, Zeros(Fill(8 * |bytes|, 5)));
  }

  lemma {:induction false} RoundTrip(upper: Casing, bytes: seq<Byte>, padding: bool)
    requires RaisesAscii(upper)
    ensures Decode(upper, Encode(bytes, padding)) == Bytes(bytes)
  {
    var ds := Digits(bytes);
    var n := if padding then Fill(|ds|, 8) else 0;
    assert Encode(bytes, padding) == Chars(ds) + seq(n, _ => '=');
    CanonicalChars(upper, ds, n);
    ValuesOfChars(ALPHABET, ds);
    UnpackedDigits(bytes);
  }

  /** Without padding it is as long as the bits need. */
  lemma {:induction false} UnpaddedLength(bytes: seq<Byte>)
    ensures 8 * |bytes| <= 5 * |Encode(bytes, false)| < 8 * |bytes| + 5
  {
    FillOf(8 * |bytes|, Fill(8 * |bytes|, 5), |Digits(bytes)|);
  }

  lemma SpreadInjective(a: seq<nat>, b: seq<nat>, width: Positive)
    requires Spread(a, width) == Spread(b, width)
    requires forall i | 0 <= i < |a| :: a[i] < Pow2(width)
    requires forall i | 0 <= i < |b| :: b[i] < Pow2(width)
    ensures a == b
  {
    GroupOfSpread(a, width, []);
    GroupOfSpread(b, width, []);
    assert Spread(a, width) + [] == Spread(a, width) && Spread(b, width) + [] == Spread(b, width);
  }

  lemma DigitsFit(ds: seq<Digit>)
    ensures forall i | 0 <= i < |ds| :: ds[i] < Pow2(5)
  {
    assert Pow2(5) == 32;
  }

  /** Digits are determined by the bits they write. */
  lemma DigitsOf(ds: seq<Digit>, bytes: seq<Byte>)
    requires Spread(ds, 5) == Filled(bytes)
    ensures ds == Digits(bytes)
  {
    DigitsFit(ds);
    DigitsFit(Digits(bytes));
    SpreadInjective(ds, Digits(bytes), 5);
  }

  /** The bits of digits that no byte holds. */
  function Leftover(ds: seq<Digit>): seq<bool> {
    SpreadLength(ds, 5);
    Spread(ds, 5)[8 * |Unpacked(ds)|..]
  }

  lemma LeftoverIsRest(ds: seq<Digit>)
    ensures Spread(ds, 5) == Spread(Unpacked(ds), 8) + Leftover(ds)
    ensures |Spread(ds, 5)| == 5 * |ds| && |Spread(Unpacked(ds), 8)| == 8 * |Unpacked(ds)|
  {
    SpreadLength(ds, 5);
    SpreadLength(Unpacked(ds), 8);
    SpreadOfGroup(Spread(ds, 5), 8);
    assert Spread(Unpacked(ds), 8) <= Spread(ds, 5);
  }

  lemma FillOf(n: nat, k: nat, m: nat)
    requires n + k == 5 * m
    ensures k < 5 ==> k == Fill(n, 5)
    ensures Fill(n, 5) < 5
  {
  }

  lemma SameTail(a: seq<bool>, b: seq<bool>, c: seq<bool>)
    ensures a + b == a + c <==> b == c
  {
    assert (a + b)[|a|..] == b && (a + c)[|a|..] == c;
  }

  /** Encoding what digits decode to gives them back exactly when what is left over is fewer than five zero bits. */
  lemma {:induction false} ReencodesExactly(ds: seq<Digit>)
    ensures Digits(Unpacked(ds)) == ds <==> |Leftover(ds)| < 5 && Leftover(ds) == Zeros(|Leftover(ds)|)
  {
    var bytes, rest := Unpacked(ds), Leftover(ds);
    LeftoverIsRest(ds);
    FillOf(8 * |bytes|, |rest|, |ds|);
    SameTail(Spread(bytes, 8), rest, Zeros(Fill(8 * |bytes|, 5)));
    assert Filled(bytes) == Spread(ds, 5) <==> rest == Zeros(Fill(8 * |bytes|, 5));
    if Filled(bytes) == Spread(ds, 5) {
      DigitsOf(ds, bytes);
    }
  }

  // ----- 32-bit arithmetic -----

  function Shl(v: nat, k: nat): nat {
    if k == 0 then v else 2 * Shl(v, k - 1)
  }

  /** `v >>> k`. */
  function Shr(v: nat, k: nat): nat
    decreases k
  {
    if k == 0 then v else Shr(v / 2, k - 1)
  }

  /** `(v << k) | x` in a 32-bit word, for an `x` of at most `k` bits: the low bits are free, so adding is the same. */
  function ShiftIn(v: nat, k: nat, x: nat): nat
    requires x < Pow2(k)
  {
    (Shl(v, k) + x) % WORD
  }

  lemma {:induction false} ShlBits(v: nat, width: nat, k: nat, x: nat)
    requires x < Pow2(k)
    ensures BitsOf(Shl(v, k) + x, width + k) == BitsOf(v, width) + BitsOf(x, k)
    decreases k
  {
    if k > 0 {
      ShlBits(v, width, k - 1, x / 2);
      Associates(BitsOf(v, width), BitsOf(x / 2, k - 1), [x % 2 == 1]);
      assert (Shl(v, k) + x) / 2 == Shl(v, k - 1) + x / 2;
    }
  }

  lemma {:induction false} ShrBits(v: nat, width: nat, k: nat)
    ensures BitsOf(v, width + k) == BitsOf(Shr(v, k), width) + BitsOf(v, k)
    decreases k
  {
    if k > 0 {
      ShrBits(v / 2, width, k - 1);
      Associates(BitsOf(Shr(v, k), width), BitsOf(v / 2, k - 1), [v % 2 == 1]);
    }
  }

  lemma Halve(n: nat, p: Positive)
    ensures (n % (2 * p)) / 2 == (n / 2) % p && (n % (2 * p)) % 2 == n % 2
  {
    var q, r := n / (2 * p), n % (2 * p);
    assert n == 2 * p * q + r;
    assert n == 2 * (p * q) + r;
    assert n / 2 == p * q + r / 2;
    Remainder(n / 2, p, q, r / 2);
  }

  lemma Remainder(n: nat, p: nat, q: nat, r: nat)
    requires r < p && n == p * q + r
    ensures n % p == r
  {
    NextMultiple(p, q, n / p);
    NextMultiple(p, n / p, q);
  }

  lemma NextMultiple(p: nat, a: nat, b: nat)
    ensures b > a ==> p * b >= p * a + p
  {
    if b > a {
      NextMultiple(p, a, b - 1);
      assert p * b == p * (b - 1) + p;
    }
  }

  /** Dropping high bits does not change low ones. */
  lemma {:induction false} LowBits(n: nat, m: nat, width: nat)
    requires width <= m
    ensures BitsOf(n % Pow2(m), width) == BitsOf(n, width)
    decreases width
  {
    if width > 0 {
      Halve(n, Pow2(m - 1));
      LowBits(n / 2, m - 1, width - 1);
    }
  }

  lemma Powers()
    ensures Pow2(5) == 32 && Pow2(8) == 256 && Pow2(32) == WORD
  {
    assert Pow2(8) == 256;
    assert Pow2(16) == 0x1_0000;
    assert Pow2(24) == 0x100_0000;
  }

  /** A word that takes in `k` bits: the wrap-around only loses bits that are not pending. */
  lemma ShiftInBits(v: nat, pending: nat, k: nat, x: nat)
    requires x < Pow2(k) && pending + k <= 32
    ensures BitsOf(ShiftIn(v, k, x), pending + k) == BitsOf(v, pending) + BitsOf(x, k)
  {
    Powers();
    ShlBits(v, pending, k, x);
    LowBits(Shl(v, k) + x, 32, pending + k);
  }

  /** The top `width` of the pending bits. */
  lemma TopBits(v: nat, width: nat, k: nat)
    ensures BitsOf(v, width + k) == BitsOf(Shr(v, k) % Pow2(width), width) + BitsOf(v, k)
  {
    ShrBits(v, width, k);
    LowBits(Shr(v, k), width, width);
  }

  // ----- the program -----

  /** The top pending bits leave as a number. */
  lemma Emit(ns: seq<nat>, n: nat, width: nat, value: nat, rest: nat)
    requires BitsOf(value, width + rest) == BitsOf(n, width) + BitsOf(value, rest)
    ensures Spread(ns + [n], width) + BitsOf(value, rest) == Spread(ns, width) + BitsOf(value, width + rest)
  {
    SpreadAppend(ns, n, width);
    Associates(Spread(ns, width), BitsOf(n, width), BitsOf(value, rest));
  }

  method PopDigit(value: nat, bits: nat, ghost ds: seq<Digit>) returns (d: Digit)
    requires bits >= 5
    ensures Spread(ds + [d], 5) + BitsOf(value, bits - 5) == Spread(ds, 5) + BitsOf(value, bits)
  {
    Powers();
    TopBits(value, 5, bits - 5);
    d := Shr(value, bits - 5) % 32;
    Emit(ds, d, 5, value, bits - 5);
  }

  method PopByte(value: nat, bits: nat, ghost bytes: seq<Byte>) returns (b: Byte)
    requires bits >= 8
    ensures Spread(bytes + [b], 8) + BitsOf(value, bits - 8) == Spread(bytes, 8) + BitsOf(value, bits)
  {
    Powers();
    TopBits(value, 8, bits - 8);
    b := Shr(value, bits - 8) % 256;
    Emit(bytes, b, 8, value, bits - 8);
  }

  /** `k` new bits join the pending ones. */
  lemma TakeBits(done: seq<bool>, all: seq<bool>, value: nat, bits: nat, k: nat, x: nat)
    requires done + BitsOf(value, bits) == all && x < Pow2(k) && bits + k <= 32
    ensures done + BitsOf(ShiftIn(value, k, x), bits + k) == all + BitsOf(x, k)
  {
    ShiftInBits(value, bits, k, x);
    Associates(done, BitsOf(value, bits), BitsOf(x, k));
  }

  lemma ZeroBits(k: nat)
    ensures BitsOf(0, k) == Zeros(k)
  {
  }

  lemma LastBits(value: nat, bits: nat)
    requires bits < 5
    ensures BitsOf(Shl(value, 5 - bits) % WORD % 32, 5) == BitsOf(value, bits) + Zeros(5 - bits)
  {
    Powers();
    LowBits(Shl(value, 5 - bits) % WORD, 5, 5);
    LowBits(Shl(value, 5 - bits), 32, 5);
    ShlBits(value, bits, 5 - bits, 0);
    ZeroBits(5 - bits);
  }

  /** The last digit takes the pending bits and zeros. */
  lemma LastDigit(ds: seq<Digit>, d: Digit, bytes: seq<Byte>, value: nat, bits: nat)
    requires 0 < bits < 5 && d == Shl(value, 5 - bits) % WORD % 32
    requires Spread(ds, 5) + BitsOf(value, bits) == Spread(bytes, 8)
    ensures ds + [d] == Digits(bytes)
  {
    SpreadAppend(ds, d, 5);
    LastBits(value, bits);
    SpreadLength(ds + [d], 5);
    SpreadLength(bytes, 8);
    Associates(Spread(ds, 5), BitsOf(value, bits), Zeros(5 - bits));
    FillOf(8 * |bytes|, 5 - bits, |ds| + 1);
    DigitsOf(ds + [d], bytes);
  }

  /** Nothing is pending. */
  lemma NoLastDigit(ds: seq<Digit>, bytes: seq<Byte>, value: nat)
    requires Spread(ds, 5) + BitsOf(value, 0) == Spread(bytes, 8)
    ensures ds == Digits(bytes)
  {
    assert Spread(ds, 5) + [] == Spread(ds, 5);
    SpreadLength(ds, 5);
    SpreadLength(bytes, 8);
    FillOf(8 * |bytes|, 0, |ds|);
    assert Spread(bytes, 8) + [] == Spread(bytes, 8);
    DigitsOf(ds, bytes);
  }

  method PushByte(value: nat, bits: nat, b: Byte, ghost done: seq<bool>, ghost bytes: seq<Byte>) returns (v: nat)
    requires done + BitsOf(value, bits) == Spread(bytes, 8) && bits < 5
    ensures done + BitsOf(v, bits + 8) == Spread(bytes + [b], 8)
  {
    Powers();
    SpreadAppend(bytes, b, 8);
    TakeBits(done, Spread(bytes, 8), value, bits, 8, b);
    v := ShiftIn(value, 8, b);
  }

  lemma CharsAppend(ds: seq<Digit>, d: Digit)
    ensures Chars(ds + [d]) == Chars(ds) + [CharOf(d)]
  {
  }

  method Base32Encode(arr: array<Byte>, padding: bool) returns (str: string)
    ensures str == Encode(arr[..], padding)
  {
    str := EncodeBits(arr);
    if padding {
      str := Pad(str);
    }
  }

  method EncodeBits(arr: array<Byte>) returns (str: string)
    ensures str == Chars(Digits(arr[..]))
  {
    var bits, value := 0, 0;
    str := "";
    ghost var ds: seq<Digit> := [];
    for i := 0 to arr.Length
      invariant 0 <= bits < 5 && str == Chars(ds)
      invariant Spread(ds, 5) + BitsOf(value, bits) == Spread(arr[..i], 8)
    {
      assert arr[..i + 1] == arr[..i] + [arr[i]];
      value := PushByte(value, bits, arr[i], Spread(ds, 5), arr[..i]);
      bits := bits + 8;
      ghost var all := Spread(arr[..i + 1], 8);
      while bits >= 5
        invariant 0 <= bits < 13 && str == Chars(ds)
        invariant Spread(ds, 5) + BitsOf(value, bits) == all
      {
        var d := PopDigit(value, bits, ds);
        CharsAppend(ds, d);
        str := str + [CharOf(d)];
        ds := ds + [d];
        bits := bits - 5;
      }
    }
    assert arr[..arr.Length] == arr[..];
    if bits > 0 {
      var d: Digit := Shl(value, 5 - bits) % WORD % 32;
      LastDigit(ds, d, arr[..], value, bits);
      str := str + [CharOf(d)];
    } else {
      NoLastDigit(ds, arr[..], value);
    }
  }

  method Pad(s: string) returns (str: string)
    ensures str == Padded(s)
  {
    str := s;
    ghost var n, all := 0, Fill(|s|, 8);
    FillReaches(|s|, 0);
    while |str| % 8 != 0
      invariant n <= all && str == s + seq(n, _ => '=') && (|str| % 8 == 0 <==> n == all)
      decreases all - n
    {
      str := str + "=";
      n := n + 1;
      FillReaches(|s|, n);
    }
  }

  lemma {:induction false} FirstInvalidIs(alphabet: Alphabet, s: string, i: nat)
    requires i < |s| && !IsDigit(alphabet, s[i]) && AllDigits(alphabet, s[..i])
    ensures !AllDigits(alphabet, s) && FirstInvalid(alphabet, s) == s[i]
  {
    if i > 0 {
      assert s[..i][0] == s[0];
      assert s[1..][..i - 1] == s[..i][1..];
      FirstInvalidIs(alphabet, s[1..], i - 1);
    }
  }

  lemma AllUnpacked(bytes: seq<Byte>, ds: seq<Digit>, value: nat, bits: nat)
    requires bits < 8 && Spread(bytes, 8) + BitsOf(value, bits) == Spread(ds, 5)
    ensures bytes == Unpacked(ds)
  {
    BytesFit(bytes);
    GroupOfSpread(bytes, 8, BitsOf(value, bits));
  }

  /** The digits of a valid prefix. */
  predicate Read(alphabet: Alphabet, s: string, i: nat, ds: seq<Digit>)
  {
    |ds| == i <= |s| && forall j | 0 <= j < i :: IsDigit(alphabet, s[j]) && ds[j] == ValueOf(alphabet, s[j])
  }

  lemma ReadMore(alphabet: Alphabet, s: string, i: nat, ds: seq<Digit>)
    requires i < |s| && Read(alphabet, s, i, ds)
    ensures if IsDigit(alphabet, s[i]) then Read(alphabet, s, i + 1, ds + [ValueOf(alphabet, s[i])])
            else DecodedDigits(alphabet, s) == InvalidCharacter(s[i])
  {
    if !IsDigit(alphabet, s[i]) {
      FirstInvalidIs(alphabet, s, i);
    }
  }

  lemma ReadAll(alphabet: Alphabet, s: string, bytes: seq<Byte>, ds: seq<Digit>, value: nat, bits: nat)
    requires Read(alphabet, s, |s|, ds)
    requires bits < 8 && Spread(bytes, 8) + BitsOf(value, bits) == Spread(ds, 5)
    ensures DecodedDigits(alphabet, s) == Bytes(bytes)
  {
    AllUnpacked(bytes, ds, value, bits);
    assert ds == Values(alphabet, s);
  }

  method PushDigit(value: nat, bits: nat, d: Digit, ghost done: seq<bool>, ghost ds: seq<Digit>) returns (v: nat)
    requires done + BitsOf(value, bits) == Spread(ds, 5) && bits < 8
    ensures done + BitsOf(v, bits + 5) == Spread(ds + [d], 5)
  {
    Powers();
    SpreadAppend(ds, d, 5);
    TakeBits(done, Spread(ds, 5), value, bits, 5, d);
    v := ShiftIn(value, 5, d);
  }

  method StripPadding(s: string) returns (r: string)
    ensures r == NoPadding(s)
  {
    var end := |s|;
    assert s[..end] == s;
    while end > 0 && s[end - 1] == '='
      invariant 0 <= end <= |s| && NoPadding(s[..end]) == NoPadding(s)
    {
      assert s[..end][..end - 1] == s[..end - 1];
      end := end - 1;
    }
    r := s[..end];
  }

  /** `upper` is what `toUpperCase` makes of a character. */
  method Base32Decode(upper: Casing, str: string) returns (r: Decoded)
    ensures r == Decode(upper, str)
  {
    var s := StripPadding(NoSpaces(str));
    s := UpperCase(upper, s);
    r := DecodeDigits(ALPHABET, s);
  }

  /** Writes the top byte of the pending bits. */
  method WriteByte(arr: array<Byte>, index: nat, value: nat, bits: nat, ghost done: seq<Byte>)
    returns (ghost now: seq<Byte>)
    requires index < arr.Length && bits >= 8 && arr[..index] == done
    modifies arr
    ensures arr[..index + 1] == now
    ensures Spread(now, 8) + BitsOf(value, bits - 8) == Spread(done, 8) + BitsOf(value, bits)
  {
    var b := PopByte(value, bits, done);
    arr[index] := b;
    now := done + [b];
  }

  /** How many whole bytes `n` digits hold. */
  function Whole(n: nat): nat {
    5 * n / 8
  }

  /** After `i` digits `index` bytes are written and `bits` bits are pending. */
  predicate Progress(index: nat, bits: nat, i: nat) {
    bits < 8 && 8 * index + bits == 5 * i
  }

  lemma Room(index: nat, bits: nat, i: nat, n: nat)
    requires Progress(index, bits, i) && i < n
    ensures bits + 5 < 8 ==> Progress(index, bits + 5, i + 1)
    ensures bits + 5 >= 8 ==> Progress(index + 1, bits - 3, i + 1) && index < Whole(n)
  {
  }

  lemma Full(index: nat, bits: nat, n: nat)
    requires Progress(index, bits, n)
    ensures index == Whole(n)
  {
  }

  method DecodeDigits(alphabet: Alphabet, s: string) returns (r: Decoded)
    ensures r == DecodedDigits(alphabet, s)
  {
    var arr := new Byte[Whole(|s|)];
    var bits, value, index := 0, 0, 0;
    ghost var ds: seq<Digit>, done: seq<Byte> := [], [];
    for i := 0 to |s|
      invariant Progress(index, bits, i) && index <= arr.Length && arr[..index] == done
      invariant Read(alphabet, s, i, ds)
      invariant Spread(done, 8) + BitsOf(value, bits) == Spread(ds, 5)
    {
      ReadMore(alphabet, s, i, ds);
      var idx := IndexIn(alphabet, s[i]);
      if idx == -1 {
        return InvalidCharacter(s[i]);
      }
      Room(index, bits, i, |s|);
      value := PushDigit(value, bits, idx, Spread(done, 8), ds);
      ds := ds + [idx];
      bits := bits + 5;
      if bits >= 8 {
        done := WriteByte(arr, index, value, bits, done);
        bits := bits - 8;
        index := index + 1;
      }
    }
    Full(index, bits, |s|);
    assert arr[..] == done;
    ReadAll(alphabet, s, done, ds, value, bits);
    r := Bytes(arr[..]);
  }
}
