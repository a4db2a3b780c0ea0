/** Percentile ranks and the interpolated cutoff, over reals. */
module Percentiles {
  import opened Contracts

  // Ranks --------------------------------------------------------------------------------------

  function CountLess(values: seq<real>, v: real): (n: nat)
    ensures n <= |values|
  {
    if |values| == 0 then 0 else CountLess(values[..|values| - 1], v) + if values[|values| - 1] < v then 1 else 0
  }

  function CountEqual(values: seq<real>, v: real): (n: nat)
    ensures n <= |values|
  {
    if |values| == 0 then 0 else CountEqual(values[..|values| - 1], v) + if values[|values| - 1] == v then 1 else 0
  }

  /** How far up the list a value stands: those below it and half of the others equal to it. */
  function Standing(values: seq<real>, v: real): real {
    CountLess(values, v) as real + (if CountEqual(values, v) > 1 then CountEqual(values, v) - 1 else 0) as real / 2.0
  }

  function Denominator(n: nat): nat { if n > 2 then n - 1 else 1 }

  /** A percentile rank before the clamp to 100. */
  function Rank(values: seq<real>, v: real): real {
    Scale(Standing(values, v), Denominator(|values|) as real)
  }

  function Scale(x: real, d: real): real
    requires d > 0.0
  {
    100.0 * x / d
  }

  function Clamped(rank: real): real {
    if rank > 100.0 then 100.0 else rank
  }

  lemma {:induction false} CountsFit(values: seq<real>, v: real)
    ensures CountLess(values, v) + CountEqual(values, v) <= |values|
    ensures v in values <==> CountEqual(values, v) >= 1
  {
    if |values| > 0 {
      var n := |values| - 1;
      CountsFit(values[..n], v);
      assert v in values <==> v in values[..n] || v == values[n];
    }
  }

  /** A greater value has everything up to the smaller one below it. */
  lemma {:induction false} CountsGrow(values: seq<real>, v: real, w: real)
    requires v < w
    ensures CountLess(values, v) + CountEqual(values, v) <= CountLess(values, w)
  {
    if |values| > 0 { CountsGrow(values[..|values| - 1], v, w); }
  }

  lemma StandingBounds(values: seq<real>, v: real)
    requires v in values
    ensures 0.0 <= Standing(values, v) <= (|values| - 1) as real
  {
    CountsFit(values, v);
  }

  lemma Scaled(x: real, y: real, d: real)
    requires d > 0.0
    ensures x < y <==> Scale(x, d) < Scale(y, d)
    ensures Scale(d, d) == 100.0 && Scale(0.0, d) == 0.0
  {
    assert 100.0 * y / d - 100.0 * x / d == 100.0 * (y - x) / d;
    assert y - x > 0.0 ==> 100.0 * (y - x) / d > 0.0;
    assert y - x <= 0.0 ==> 100.0 * (y - x) / d <= 0.0;
  }

  /** Ranks lie in 0..100, so the clamp never acts. */
  lemma {:induction false} RankBounds(values: seq<real>, v: real)
    requires v in values
    ensures 0.0 <= Rank(values, v) <= 100.0 && Clamped(Rank(values, v)) == Rank(values, v)
  {
    StandingBounds(values, v);
    hide Standing, Scale;
    var d := Denominator(|values|) as real;
    Scaled(Standing(values, v), d, d);
    Scaled(0.0, Standing(values, v), d);
    Scaled(Standing(values, v), 0.0, d);
    Scaled(d, Standing(values, v), d);
  }

  /** Ranks follow the values exactly: greater for greater, equal for equal. */
  lemma {:induction false} RankOrder(values: seq<real>, v: real, w: real)
    requires v in values && w in values
    ensures v < w <==> Rank(values, v) < Rank(values, w)
  {
    if v < w { RankIncreases(values, v, w); } else if w < v { RankIncreases(values, w, v); }
  }

  lemma RankIncreases(values: seq<real>, v: real, w: real)
    requires v < w && v in values && w in values
    ensures Rank(values, v) < Rank(values, w)
  {
    CountsGrow(values, v, w);
    CountsFit(values, v);
    CountsFit(values, w);
    assert Standing(values, v) < Standing(values, w);
    hide Standing, Scale;
    Scaled(Standing(values, v), Standing(values, w), Denominator(|values|) as real);
  }

  // The sum of the ranks -----------------------------------------------------------------------

  function Below(values: seq<real>, v: real): real {
    CountLess(values, v) as real + CountEqual(values, v) as real / 2.0
  }

  function SumBelow(values: seq<real>, some: seq<real>): real {
    if |some| == 0 then 0.0 else SumBelow(values, some[..|some| - 1]) + Below(values, some[|some| - 1])
  }

  /** What one more value adds to the others' sum: those above it, and half of those equal. */
  lemma {:induction false} SumWithOneMore(values: seq<real>, x: real, some: seq<real>)
    ensures SumBelow(values + [x], some) == SumBelow(values, some) + |some| as real - Below(some, x)
  {
    if |some| > 0 {
      var n := |some| - 1;
      SumWithOneMore(values, x, some[..n]);
      assert (values + [x])[..|values + [x]| - 1] == values;
      assert Below(values + [x], some[n]) ==
        Below(values, some[n]) + (if x < some[n] then 1.0 else if x == some[n] then 0.5 else 0.0);
      assert Below(some, x) == Below(some[..n], x) + (if some[n] < x then 1.0 else if some[n] == x then 0.5 else 0.0);
    }
  }

  lemma BelowWithItself(before: seq<real>, x: real)
    ensures Below(before + [x], x) == Below(before, x) + 0.5
  {
    assert (before + [x])[..|before|] == before;
  }

  lemma SumStep(values: seq<real>, before: seq<real>, x: real)
    ensures SumBelow(values, before + [x]) == SumBelow(values, before) + Below(values, x)
  {
    assert (before + [x])[..|before|] == before;
  }

  lemma {:induction false} SumOfAll(values: seq<real>)
    ensures SumBelow(values, values) == HalfSquare(|values| as real)
  {
    if |values| > 0 {
      var n := |values| - 1;
      var before, x := values[..n], values[n];
      SumOfAll(before);
      SumWithOneMore(before, x, before);
      assert values == before + [x];
      BelowWithItself(before, x);
      SumStep(values, before, x);
      hide Below, SumBelow, HalfSquare;
      NextSquare(n as real);
    }
  }

  function HalfSquare(n: real): real { n * n / 2.0 }

  lemma NextSquare(n: real)
    ensures HalfSquare(n) + n + 0.5 == HalfSquare(n + 1.0)
  {
  }

  function SumRanks(values: seq<real>, some: seq<real>): real {
    if |some| == 0 then 0.0 else SumRanks(values, some[..|some| - 1]) + Rank(values, some[|some| - 1])
  }

  lemma {:induction false} RanksFromBelow(values: seq<real>, some: seq<real>)
    requires |values| >= 2 && forall i :: 0 <= i < |some| ==> some[i] in values
    ensures SumRanks(values, some) == Scale(SumBelow(values, some) - |some| as real / 2.0, (|values| - 1) as real)
  {
    var d := (|values| - 1) as real;
    if |some| > 0 {
      var n := |some| - 1;
      RanksFromBelow(values, some[..n]);
      CountsFit(values, some[n]);
      assert Standing(values, some[n]) == Below(values, some[n]) - 0.5;
      hide Below, Standing, Scale;
      AddScaled(SumBelow(values, some[..n]) - n as real / 2.0, Below(values, some[n]) - 0.5, d);
      assert |some| as real / 2.0 == n as real / 2.0 + 0.5;
    }
  }

  lemma AddScaled(x: real, y: real, d: real)
    requires d > 0.0
    ensures Scale(x, d) + Scale(y, d) == Scale(x + y, d)
  {
    assert 100.0 * (x + y) == 100.0 * x + 100.0 * y;
    Quotients(100.0 * x, 100.0 * y, d);
  }

  lemma Quotients(a: real, b: real, d: real)
    requires d > 0.0
    ensures a / d + b / d == (a + b) / d
  {
    var x, y := a / d, b / d;
    assert x * d == a && y * d == b;
    assert (x + y) * d == a + b;
    Cancel(x + y, d);
  }

  /** The ranks of n known values, two or more, sum to exactly 50 n. */
  lemma {:induction false} RankSum(values: seq<real>)
    requires |values| >= 2
    ensures SumRanks(values, values) == 50.0 * |values| as real
  {
    RanksFromBelow(values, values);
    SumOfAll(values);
    hide SumRanks, SumBelow, Scale, HalfSquare;
    FromHalfSquare(|values| as real, (|values| - 1) as real);
  }

  lemma FromHalfSquare(n: real, d: real)
    requires d > 0.0 && n == d + 1.0
    ensures Scale(HalfSquare(n) - n / 2.0, d) == 50.0 * n
  {
    HalfProduct(n, d);
    ScaleHalf(n * d, d);
    Cancel(n, d);
  }

  lemma HalfProduct(n: real, d: real)
    requires n == d + 1.0
    ensures HalfSquare(n) - n / 2.0 == n * d / 2.0
  {
    assert n * n == n * d + n;
  }

  lemma ScaleHalf(p: real, d: real)
    requires d > 0.0
    ensures Scale(p / 2.0, d) == 50.0 * (p / d)
  {
    var x := p / d;
    assert x * d == p;
    assert 100.0 * (p / 2.0) == 50.0 * x * d;
    Cancel(50.0 * x, d);
  }

  lemma Cancel(a: real, d: real)
    requires d > 0.0
    ensures a * d / d == a
  {
  }

  // The cutoff ---------------------------------------------------------------------------------

  function InsertReal(x: real, xs: seq<real>): seq<real> {
    if |xs| > 0 && xs[0] < x then [xs[0]] + InsertReal(x, xs[1..]) else [x] + xs
  }

  function SortReals(xs: seq<real>): (sorted: seq<real>)
    ensures |sorted| == |xs|
  {
    if |xs| == 0 then [] else
      assert forall x, ys :: |InsertReal(x, ys)| == |ys| + 1 by { forall x, ys { InsertLength(x, ys); } }
      InsertReal(xs[|xs| - 1], SortReals(xs[..|xs| - 1]))
  }

  lemma {:induction false} InsertLength(x: real, xs: seq<real>)
    ensures |InsertReal(x, xs)| == |xs| + 1
  {
    if |xs| > 0 && xs[0] < x { InsertLength(x, xs[1..]); }
  }

  ghost predicate Ascends(xs: seq<real>) {
    forall i, j :: 0 <= i < j < |xs| ==> xs[i] <= xs[j]
  }

  lemma {:induction false} InsertAscends(x: real, xs: seq<real>)
    requires Ascends(xs)
    ensures Ascends(InsertReal(x, xs))
    ensures forall y :: y in InsertReal(x, xs) <==> y == x || y in xs
  {
    if |xs| > 0 && xs[0] < x {
      var rest := InsertReal(x, xs[1..]);
      InsertAscends(x, xs[1..]);
      forall j | 0 <= j < |rest| ensures xs[0] <= rest[j] { assert rest[j] in rest; }
      assert forall y :: y in xs <==> y == xs[0] || y in xs[1..];
    }
  }

  lemma {:induction false} SortAscends(xs: seq<real>)
    ensures Ascends(SortReals(xs)) && forall y :: y in SortReals(xs) <==> y in xs
  {
    if |xs| > 0 {
      var n := |xs| - 1;
      SortAscends(xs[..n]);
      InsertAscends(xs[n], SortReals(xs[..n]));
      assert forall y :: y in xs <==> y in xs[..n] || y == xs[n];
    }
  }

  function Ceiling(x: real): int { -((-x).Floor) }

  /** The place in a sorted list of n + 1 values that the quantile q falls on. */
  function Position(n: nat, q: real): real { Times(n as real, q) }

  function Times(x: real, y: real): real { x * y }

  function Lower(n: nat, q: real): int { Position(n, q).Floor }

  function Upper(n: nat, q: real): int { Ceiling(Position(n, q)) }

  /** linear_percentile: interpolated between the two nearest ranks. */
  function LinearPercentile(values: seq<real>, q: real): Option<real>
    requires 0.0 <= q <= 1.0
  {
    var clean := SortReals(values);
    if |clean| == 0 then None
    else if |clean| == 1 then Some(clean[0])
    else
      PositionBounds(|clean| - 1, q);
      Some(Interpolated(clean, q))
  }

  function Interpolated(clean: seq<real>, q: real): real
    requires |clean| > 0 && 0 <= Lower(|clean| - 1, q) <= Upper(|clean| - 1, q) < |clean|
  {
    var n := |clean| - 1;
    var lower, upper := Lower(n, q), Upper(n, q);
    if lower == upper then clean[lower]
    else Blend(clean[lower], clean[upper], Position(n, q) - lower as real)
  }

  function Blend(a: real, b: real, t: real): real { a + Times(b - a, t) }

  lemma BlendBetween(a: real, b: real, t: real)
    requires a <= b && 0.0 <= t <= 1.0
    ensures a <= Blend(a, b, t) <= b
  {
    hide Times;
    Shrinks(b - a, t);
  }

  lemma Shrinks(x: real, t: real)
    requires x >= 0.0 && 0.0 <= t <= 1.0
    ensures 0.0 <= Times(x, t) <= x
  {
    assert x * (1.0 - t) >= 0.0;
    assert x * t == x - x * (1.0 - t);
  }

  lemma FloorBounds(p: real, n: nat)
    requires 0.0 <= p <= n as real
    ensures 0 <= p.Floor <= Ceiling(p) <= n && Ceiling(p) <= p.Floor + 1 && p.Floor as real <= p <= Ceiling(p) as real
  {
  }

  lemma PositionBounds(n: nat, q: real)
    requires 0.0 <= q <= 1.0
    ensures 0 <= Lower(n, q) <= Upper(n, q) <= n && Upper(n, q) <= Lower(n, q) + 1
    ensures 0.0 <= Position(n, q) - Lower(n, q) as real <= 1.0
  {
    hide Times;
    Shrinks(n as real, q);
    FloorBounds(Position(n, q), n);
  }

  lemma InterpolatedBetween(clean: seq<real>, q: real)
    requires Ascends(clean) && |clean| > 0 && 0.0 <= q <= 1.0
    ensures 0 <= Lower(|clean| - 1, q) <= Upper(|clean| - 1, q) < |clean|
    ensures clean[Lower(|clean| - 1, q)] <= Interpolated(clean, q) <= clean[Upper(|clean| - 1, q)]
  {
    var n := |clean| - 1;
    PositionBounds(n, q);
    hide Position, Lower, Upper, Blend;
    var lower, upper := Lower(n, q), Upper(n, q);
    assert lower < upper ==> clean[lower] <= clean[upper];
    if lower < upper { BlendBetween(clean[lower], clean[upper], Position(n, q) - lower as real); }
  }

  /** The cutoff lies between two places of the list, and between its ends. */
  ghost predicate Brackets(clean: seq<real>, lower: int, upper: int, cutoff: real) {
    && 0 <= lower <= upper < |clean|
    && clean[lower] <= cutoff <= clean[upper]
    && clean[0] <= cutoff <= clean[|clean| - 1]
  }

  /** The cutoff lies between the two ranks it interpolates, hence between least and greatest. */
  lemma {:induction false} CutoffBetween(values: seq<real>, q: real)
    requires |values| >= 1 && 0.0 <= q <= 1.0
    ensures LinearPercentile(values, q).Some?
    ensures Brackets(SortReals(values), Lower(|values| - 1, q), Upper(|values| - 1, q),
      LinearPercentile(values, q).value)
  {
    hide *;
    SortedAscends(values);
    PercentileCases(values, q);
    CutoffOfSorted(SortReals(values), q, LinearPercentile(values, q).value);
  }

  lemma SortedAscends(values: seq<real>)
    ensures Ascends(SortReals(values))
  {
    hide *;
    SortAscends(values);
  }

  lemma CutoffOfSorted(clean: seq<real>, q: real, cutoff: real)
    requires |clean| >= 1 && Ascends(clean) && 0.0 <= q <= 1.0
    requires 0 <= Lower(|clean| - 1, q) <= Upper(|clean| - 1, q) < |clean|
    requires cutoff == if |clean| == 1 then clean[0] else Interpolated(clean, q)
    ensures Brackets(clean, Lower(|clean| - 1, q), Upper(|clean| - 1, q), cutoff)
  {
    hide *;
    InterpolatedBetween(clean, q);
    BracketsBetween(clean, Lower(|clean| - 1, q), Upper(|clean| - 1, q), cutoff);
  }

  lemma BracketsBetween(clean: seq<real>, lower: int, upper: int, cutoff: real)
    requires Ascends(clean) && 0 <= lower <= upper < |clean| && clean[lower] <= cutoff <= clean[upper]
    ensures Brackets(clean, lower, upper, cutoff)
  {
    Ends(clean, lower);
    Ends(clean, upper);
  }

  lemma PercentileCases(values: seq<real>, q: real)
    requires |values| >= 1 && 0.0 <= q <= 1.0
    ensures 0 <= Lower(|values| - 1, q) <= Upper(|values| - 1, q) < |values|
    ensures LinearPercentile(values, q) ==
      Some(if |values| == 1 then SortReals(values)[0] else Interpolated(SortReals(values), q))
  {
    hide SortReals, Interpolated, Position, Lower, Upper;
    PositionBounds(|values| - 1, q);
  }

  lemma Ends(xs: seq<real>, i: int)
    requires Ascends(xs) && 0 <= i < |xs|
    ensures xs[0] <= xs[i] <= xs[|xs| - 1]
  {
  }

  // How many reach the cutoff ------------------------------------------------------------------

  function CountReach(values: seq<real>, c: real): nat {
    if |values| == 0 then 0 else CountReach(values[..|values| - 1], c) + if values[|values| - 1] >= c then 1 else 0
  }

  function CountExceed(values: seq<real>, c: real): nat {
    if |values| == 0 then 0 else CountExceed(values[..|values| - 1], c) + if values[|values| - 1] > c then 1 else 0
  }

  lemma {:induction false} CountConcat(a: seq<real>, b: seq<real>, c: real)
    ensures CountReach(a + b, c) == CountReach(a, c) + CountReach(b, c)
    ensures CountExceed(a + b, c) == CountExceed(a, c) + CountExceed(b, c)
    decreases |b|
  {
    if |b| == 0 {
      assert a + b == a;
    } else {
      CountConcat(a, b[..|b| - 1], c);
      assert (a + b)[..|a + b| - 1] == a + b[..|b| - 1];
    }
  }

  lemma CountOne(x: real, c: real)
    ensures CountReach([x], c) == (if x >= c then 1 else 0) && CountExceed([x], c) == (if x > c then 1 else 0)
  {
    assert [x][..0] == [];
  }

  lemma {:induction false} CountInsert(x: real, xs: seq<real>, c: real)
    ensures CountReach(InsertReal(x, xs), c) == CountReach(xs, c) + (if x >= c then 1 else 0)
    ensures CountExceed(InsertReal(x, xs), c) == CountExceed(xs, c) + (if x > c then 1 else 0)
  {
    CountOne(x, c);
    if |xs| > 0 && xs[0] < x {
      CountInsert(x, xs[1..], c);
      CountConcat([xs[0]], InsertReal(x, xs[1..]), c);
      CountConcat([xs[0]], xs[1..], c);
      assert [xs[0]] + xs[1..] == xs;
    } else {
      CountConcat([x], xs, c);
    }
  }

  lemma {:induction false} CountSorted(xs: seq<real>, c: real)
    ensures CountReach(SortReals(xs), c) == CountReach(xs, c) && CountExceed(SortReals(xs), c) == CountExceed(xs, c)
  {
    if |xs| > 0 {
      var n := |xs| - 1;
      CountSorted(xs[..n], c);
      CountInsert(xs[n], SortReals(xs[..n]), c);
    }
  }

  lemma {:induction false} CountTail(xs: seq<real>, k: nat, c: real)
    requires k <= |xs| && forall i :: k <= i < |xs| ==> xs[i] >= c
    ensures CountReach(xs, c) >= |xs| - k
    decreases |xs|
  {
    if k < |xs| { CountTail(xs[..|xs| - 1], k, c); }
  }

  lemma {:induction false} CountHead(xs: seq<real>, k: nat, c: real)
    requires k <= |xs| && forall i :: 0 <= i < k ==> xs[i] <= c
    ensures CountExceed(xs, c) <= |xs| - k
    decreases |xs|
  {
    if k < |xs| {
      CountHead(xs[..|xs| - 1], k, c);
    } else if |xs| > 0 {
      CountHead(xs[..|xs| - 1], |xs| - 1, c);
    }
  }

  /** At least n - ceil(q (n - 1)) values reach the cutoff, and at most n - 1 - floor(q (n - 1))
      exceed it. */
  lemma {:induction false} CutoffCounts(values: seq<real>, q: real)
    requires |values| >= 1 && 0.0 <= q <= 1.0
    ensures var n, cutoff := |values| - 1, LinearPercentile(values, q);
      && cutoff.Some?
      && CountReach(values, cutoff.value) >= n + 1 - Upper(n, q) >= 1
      && CountExceed(values, cutoff.value) <= n - Lower(n, q)
  {
    SortAscends(values);
    CutoffBetween(values, q);
    CountsAround(SortReals(values), LinearPercentile(values, q).value, Lower(|values| - 1, q), Upper(|values| - 1, q));
    hide LinearPercentile, SortReals, Lower, Upper, CountReach, CountExceed, Ascends;
    CountSorted(values, LinearPercentile(values, q).value);
  }

  lemma CountsAround(clean: seq<real>, cutoff: real, lower: nat, upper: nat)
    requires Ascends(clean) && lower <= upper < |clean| && clean[lower] <= cutoff <= clean[upper]
    ensures CountReach(clean, cutoff) >= |clean| - upper && CountExceed(clean, cutoff) <= |clean| - (lower + 1)
  {
    hide CountReach, CountExceed;
    CountTail(clean, upper, cutoff);
    CountHead(clean, lower + 1, cutoff);
  }
}
