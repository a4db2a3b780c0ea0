/** ULIDs: ten characters of time and sixteen of randomness (the sections Canonical String
    Representation and Sorting of the ULID specification). */
module Ulid {
  import opened Order

  const CROCKFORD: string := "0123456789ABCDEFGHJKMNPQRSTVWXYZ"

  const TIME_CHARACTERS: nat := 10

  const RANDOM_CHARACTERS: nat := 16

  predicate InAlphabet(s: string) {
    forall i :: 0 <= i < |s| ==> s[i] in CROCKFORD
  }

  type Byte = b: int | 0 <= b < 256

  // The encoding and its inverse ---------------------------------------------------------------

  /** `timestamp >>= 5n`, k times. */
  function Shifted(t: nat, k: nat): nat {
    if k == 0 then t else Shifted(t, k - 1) / 32
  }

  /** The low n base-32 digits of t, most significant first. */
  function Digits(t: nat, n: nat): (s: string)
    ensures |s| == n
  {
    if n == 0 then [] else [CROCKFORD[Shifted(t, n - 1) % 32]] + Digits(t, n - 1)
  }

  /** The value of a character in the alphabet. */
  function ValueOf(c: char): nat {
    PlaceIn(CROCKFORD, c)
  }

  function PlaceIn(s: string, c: char): nat {
    if |s| == 0 || s[0] == c then 0 else 1 + PlaceIn(s[1..], c)
  }

  function Decode(s: string): nat {
    if |s| == 0 then 0 else Decode(s[..|s| - 1]) * 32 + ValueOf(s[|s| - 1])
  }

  /** 32 to the n. */
  function Power(n: nat): (p: nat)
    ensures p > 0
  {
    if n == 0 then 1 else 32 * Power(n - 1)
  }

  /** The time loop. */
  method EncodeTime(now: nat) returns (value: string)
    ensures value == Digits(now, TIME_CHARACTERS) && InAlphabet(value)
  {
    AlphabetSize();
    hide CROCKFORD;
    var timestamp := now;
    value := "";
    for index := 0 to TIME_CHARACTERS
      invariant timestamp == Shifted(now, index) && value == Digits(now, index) && InAlphabet(value)
    {
      value := [CROCKFORD[timestamp % 32]] + value;
      timestamp := timestamp / 32;
    }
  }

  /** createUlid, given the time and the random bytes. */
  method CreateUlid(now: nat, random: seq<Byte>) returns (value: string)
    requires |random| == RANDOM_CHARACTERS
    ensures |value| == 26 && InAlphabet(value)
    ensures value[..TIME_CHARACTERS] == Digits(now, TIME_CHARACTERS)
    ensures |CROCKFORD| == 32 && forall i :: 0 <= i < RANDOM_CHARACTERS ==>
      value[TIME_CHARACTERS + i] == CROCKFORD[random[i] % 32]
  {
    AlphabetSize();
    hide CROCKFORD, Digits;
    value := EncodeTime(now);
    for index := 0 to RANDOM_CHARACTERS
      invariant |value| == TIME_CHARACTERS + index && value[..TIME_CHARACTERS] == Digits(now, TIME_CHARACTERS)
      invariant InAlphabet(value)
      invariant forall i :: 0 <= i < index ==> value[TIME_CHARACTERS + i] == CROCKFORD[random[i] % 32]
    {
      value := value + [CROCKFORD[random[index] % 32]];
    }
  }

  // The time comes back ------------------------------------------------------------------------

  lemma AlphabetSize()
    ensures |CROCKFORD| == 32
  {
  }

  lemma AlphabetAscends(i: nat, j: nat)
    requires i < j < |CROCKFORD|
    ensures CROCKFORD[i] < CROCKFORD[j]
  {
    Neighbours();
    AscendsFrom(i, j);
  }

  lemma Neighbours()
    ensures forall k :: 0 <= k < 31 ==> CROCKFORD[k] < CROCKFORD[k + 1]
  {
  }

  lemma {:induction false} AscendsFrom(i: nat, j: nat)
    requires i < j < |CROCKFORD| && forall k :: 0 <= k < 31 ==> CROCKFORD[k] < CROCKFORD[k + 1]
    ensures CROCKFORD[i] < CROCKFORD[j]
    decreases j
  {
    hide CROCKFORD;
    if i < j - 1 { AscendsFrom(i, j - 1); }
    assert CROCKFORD[j - 1] < CROCKFORD[j - 1 + 1] by { AlphabetSize(); }
  }

  lemma {:induction false} PlaceOf(s: string, k: nat)
    requires k < |s| && forall i :: 0 <= i < k ==> s[i] != s[k]
    ensures PlaceIn(s, s[k]) == k
  {
    if k > 0 {
      assert s[1..][k - 1] == s[k];
      PlaceOf(s[1..], k - 1);
    }
  }

  lemma ValueOfDigit(d: nat)
    requires d < |CROCKFORD|
    ensures ValueOf(CROCKFORD[d]) == d
  {
    forall i | 0 <= i < d ensures CROCKFORD[i] != CROCKFORD[d] { AlphabetAscends(i, d); }
    hide CROCKFORD;
    PlaceOf(CROCKFORD, d);
  }

  lemma {:induction false} ShiftedOnce(t: nat, k: nat)
    ensures Shifted(t / 32, k) == Shifted(t, k + 1)
  {
    if k > 0 { ShiftedOnce(t, k - 1); }
  }

  lemma {:induction false} DigitsFromRight(t: nat, n: nat)
    ensures Digits(t, n + 1) == Digits(t / 32, n) + [CROCKFORD[t % 32]]
  {
    hide CROCKFORD;
    if n > 0 {
      DigitsFromRight(t, n - 1);
      ShiftedOnce(t, n - 1);
    }
    AlphabetSize();
  }

  lemma Remainder(t: nat, p: nat)
    requires p > 0
    ensures (t / 32) % p * 32 + t % 32 == t % (32 * p)
  {
    var q, r := t / 32, t % 32;
    var a, b := q / p, q % p;
    assert q == p * a + b && t == 32 * q + r;
    assert t == (32 * p) * a + (32 * b + r);
    Unique(t, 32 * p, a, 32 * b + r);
  }

  lemma Unique(t: nat, m: nat, a: nat, r: nat)
    requires m > 0 && t == m * a + r && r < m
    ensures t % m == r
  {
    var d: int := t / m - a;
    assert t == m * (t / m) + t % m;
    assert m * d == r - t % m;
    assert d >= 1 ==> m * d >= m;
    assert d <= -1 ==> m * d + m <= 0;
  }

  lemma DecodeLast(s: string, c: char)
    ensures Decode(s + [c]) == Decode(s) * 32 + ValueOf(c)
  {
    hide ValueOf;
    assert (s + [c])[..|s|] == s;
  }

  lemma {:induction false} DecodeDigits(t: nat, n: nat)
    ensures Decode(Digits(t, n)) == t % Power(n)
  {
    hide CROCKFORD, ValueOf;
    if n > 0 {
      AlphabetSize();
      DigitsFromRight(t, n - 1);
      DecodeDigits(t / 32, n - 1);
      ValueOfDigit(t % 32);
      hide Digits;
      DecodeLast(Digits(t / 32, n - 1), CROCKFORD[t % 32]);
      hide Decode;
      Remainder(t, Power(n - 1));
    }
  }

  lemma FiftyBits()
    ensures Power(TIME_CHARACTERS) == 0x4_0000_0000_0000
  {
    assert Power(5) == 0x200_0000;
  }

  /** The prefix decodes to the time modulo 2 to the 50, hence to the time exactly below 2 to the 50. */
  lemma {:induction false} TimeDecodes(t: nat)
    ensures Decode(Digits(t, TIME_CHARACTERS)) == t % 0x4_0000_0000_0000
    ensures Decode(Digits(t, TIME_CHARACTERS)) == t <==> t < 0x4_0000_0000_0000
  {
    DecodeDigits(t, TIME_CHARACTERS);
    FiftyBits();
    hide Decode, Digits, Power;
  }

  // Sorting ------------------------------------------------------------------------------------

  lemma {:induction false} DecodeFromLeft(s: string)
    requires |s| > 0
    ensures Decode(s) == ValueOf(s[0]) * Power(|s| - 1) + Decode(s[1..])
  {
    hide ValueOf;
    var n := |s| - 1;
    if n > 0 {
      DecodeFromLeft(s[..n]);
      assert s[..n][1..] == s[1..][..n - 1] && s[..n][0] == s[0] && s[1..][n - 1] == s[n];
      Regroup(ValueOf(s[0]), Power(n - 1), Decode(s[1..][..n - 1]));
    } else {
      assert s[1..] == [] && s[..0] == [];
    }
  }

  lemma Regroup(v: nat, p: nat, d: nat)
    ensures (v * p + d) * 32 == v * (32 * p) + d * 32
  {
  }

  lemma {:induction false} DecodeBound(s: string)
    requires InAlphabet(s)
    ensures Decode(s) < Power(|s|)
  {
    if |s| > 0 {
      var n := |s| - 1;
      DecodeBound(s[..n]);
      CharacterIsDigit(s[n]);
    }
  }

  lemma CharacterIsDigit(c: char)
    requires c in CROCKFORD
    ensures ValueOf(c) < 32 && CROCKFORD[ValueOf(c)] == c
  {
    AlphabetSize();
    var d :| 0 <= d < |CROCKFORD| && CROCKFORD[d] == c;
    ValueOfDigit(d);
  }

  lemma CharacterOrder(c: char, d: char)
    requires c in CROCKFORD && d in CROCKFORD
    ensures c < d <==> ValueOf(c) < ValueOf(d)
    ensures c == d <==> ValueOf(c) == ValueOf(d)
  {
    CharacterIsDigit(c);
    CharacterIsDigit(d);
    AlphabetSize();
    if ValueOf(c) < ValueOf(d) { AlphabetAscends(ValueOf(c), ValueOf(d)); }
    if ValueOf(d) < ValueOf(c) { AlphabetAscends(ValueOf(d), ValueOf(c)); }
  }

  lemma LeadingDigit(v: nat, w: nat, p: nat, x: nat, y: nat)
    requires x < p && y < p
    ensures v < w ==> v * p + x < w * p + y
    ensures w < v ==> w * p + y < v * p + x
  {
    if v < w { assert w * p >= (v + 1) * p; }
    if w < v { assert v * p >= (w + 1) * p; }
  }

  lemma LexStep(a: string, b: string)
    requires |a| == |b| > 0
    ensures LexLess(a, b, CharBefore) <==> a[0] < b[0] || (a[0] == b[0] && LexLess(a[1..], b[1..], CharBefore))
  {
  }

  lemma FirstDecides(da: nat, db: nat, v: nat, w: nat, p: nat, x: nat, y: nat)
    requires da == v * p + x && db == w * p + y
    requires x < p && y < p
    ensures da < db <==> v < w || (v == w && x < y)
  {
    LeadingDigit(v, w, p, x, y);
  }

  lemma TailInAlphabet(s: string)
    requires InAlphabet(s) && |s| > 0
    ensures s[0] in CROCKFORD && InAlphabet(s[1..])
  {
    hide CROCKFORD;
  }

  lemma ValueStep(a: string, b: string)
    requires InAlphabet(a) && InAlphabet(b) && |a| == |b| > 0
    ensures Decode(a) < Decode(b) <==> a[0] < b[0] || (a[0] == b[0] && Decode(a[1..]) < Decode(b[1..]))
  {
    hide *;
    TailInAlphabet(a);
    TailInAlphabet(b);
    DecodeFromLeft(a);
    DecodeFromLeft(b);
    DecodeBound(a[1..]);
    DecodeBound(b[1..]);
    CharacterOrder(a[0], b[0]);
    FirstDecides(Decode(a), Decode(b), ValueOf(a[0]), ValueOf(b[0]), Power(|a| - 1), Decode(a[1..]), Decode(b[1..]));
  }

  /** Strings of one length sort as their values. */
  lemma {:induction false} LexIsValueOrder(a: string, b: string)
    requires InAlphabet(a) && InAlphabet(b) && |a| == |b|
    ensures LexLess(a, b, CharBefore) <==> Decode(a) < Decode(b)
  {
    if |a| == 0 {
      assert a == b;
    } else {
      hide *;
      TailInAlphabet(a);
      TailInAlphabet(b);
      LexIsValueOrder(a[1..], b[1..]);
      ValueStep(a, b);
      LexStep(a, b);
    }
  }

  lemma {:induction false} DigitsInAlphabet(t: nat, n: nat)
    ensures InAlphabet(Digits(t, n))
  {
    if n > 0 { DigitsInAlphabet(t, n - 1); }
  }

  /** For times below 2 to the 50, earlier times have lexicographically smaller prefixes, and only
      they. */
  lemma {:induction false} TimesSort(t: nat, u: nat)
    requires t < 0x4_0000_0000_0000 && u < 0x4_0000_0000_0000
    ensures LexLess(Digits(t, TIME_CHARACTERS), Digits(u, TIME_CHARACTERS), CharBefore) <==> t < u
  {
    TimeDecodes(t);
    TimeDecodes(u);
    DigitsInAlphabet(t, TIME_CHARACTERS);
    DigitsInAlphabet(u, TIME_CHARACTERS);
    hide Digits, Decode, InAlphabet, LexLess;
    LexIsValueOrder(Digits(t, TIME_CHARACTERS), Digits(u, TIME_CHARACTERS));
  }
}
