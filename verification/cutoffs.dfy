/** What the interpolated cutoff is: proportional between its two neighbours, exact on evenly spaced
    values and at the values' own places, and no smaller for a greater quantile. */
module Cutoffs {
  import opened Contracts
  import opened Percentiles

  lemma Product(x: real, y: real)
    ensures Times(x, y) == x * y
  {
  }

  /** The place q (n - 1) and what of it lies past the rank below. */
  lemma PlaceOf(n: nat, q: real)
    requires 0.0 <= q <= 1.0
    ensures Position(n, q) == q * n as real
    ensures 0 <= Lower(n, q) <= n && Lower(n, q) == (q * n as real).Floor
    ensures Upper(n, q) == if Lower(n, q) as real == q * n as real then Lower(n, q) else Lower(n, q) + 1
  {
    hide Times;
    PositionBounds(n, q);
    PositionIs(n, q);
    CeilingOf(Position(n, q));
  }

  lemma Commutes(x: real, y: real)
    ensures x * y == y * x
  {
  }

  lemma CeilingOf(p: real)
    ensures Ceiling(p) == if p.Floor as real == p then p.Floor else p.Floor + 1
  {
  }

  /** At a place between the ranks, the cutoff minus the value ranked below is to the gap between the
      neighbours as the place minus its floor is to one; at a whole place it is the value there. */
  ghost predicate AtPlace(sorted: seq<real>, place: real, cutoff: real) {
    var below := place.Floor;
    && 0 <= below < |sorted|
    && (below as real == place ==> cutoff == sorted[below])
    && (below as real < place ==>
          below + 1 < |sorted| &&
          cutoff - sorted[below] == Times(sorted[below + 1] - sorted[below], place - below as real))
  }

  /** The cutoff stands at the place q (n - 1) of the sorted values, in proportion. */
  lemma {:induction false} CutoffIsProportional(values: seq<real>, q: real)
    requires |values| >= 1 && 0.0 <= q <= 1.0
    ensures LinearPercentile(values, q).Some?
    ensures AtPlace(SortReals(values), q * (|values| - 1) as real, LinearPercentile(values, q).value)
  {
    var n, sorted := |values| - 1, SortReals(values);
    PlaceOf(n, q);
    PositionBounds(n, q);
    PercentileCases(values, q);
    hide SortReals, LinearPercentile, Lower, Upper, Times, Interpolated;
    if Lower(n, q) < Upper(n, q) {
      InterpolatedAt(sorted, q);
    } else {
      InterpolatedOn(sorted, q);
    }
    PositionIs(n, q);
    InPlace(sorted, q * n as real, Lower(n, q), Upper(n, q), LinearPercentile(values, q).value);
  }

  lemma PositionIs(n: nat, q: real)
    ensures Position(n, q) == q * n as real
  {
    Product(n as real, q);
    Commutes(n as real, q);
  }

  lemma InPlace(sorted: seq<real>, place: real, lower: int, upper: int, cutoff: real)
    requires 0 <= lower <= upper < |sorted| && lower == place.Floor
    requires upper == if lower as real == place then lower else lower + 1
    requires cutoff ==
      if lower == upper then sorted[lower]
      else sorted[lower] + Times(sorted[upper] - sorted[lower], place - lower as real)
    ensures AtPlace(sorted, place, cutoff)
  {
    hide Times;
  }

  lemma InterpolatedAt(sorted: seq<real>, q: real)
    requires |sorted| > 0 && 0 <= Lower(|sorted| - 1, q) < Upper(|sorted| - 1, q) < |sorted|
    ensures var lower, upper := Lower(|sorted| - 1, q), Upper(|sorted| - 1, q);
      Interpolated(sorted, q) ==
      sorted[lower] + Times(sorted[upper] - sorted[lower], Position(|sorted| - 1, q) - lower as real)
  {
    hide Times, Lower, Upper, Position;
  }

  lemma InterpolatedOn(sorted: seq<real>, q: real)
    requires |sorted| > 0 && 0 <= Lower(|sorted| - 1, q) == Upper(|sorted| - 1, q) < |sorted|
    ensures Interpolated(sorted, q) == sorted[Lower(|sorted| - 1, q)]
  {
    hide Times, Lower, Upper, Position;
  }

  /** On evenly spaced values the cutoff is evenly spaced too. */
  lemma {:induction false} CutoffOfEvenlySpaced(values: seq<real>, q: real, a: real, d: real)
    requires |values| >= 1 && 0.0 <= q <= 1.0
    requires forall i :: 0 <= i < |values| ==> SortReals(values)[i] == a + d * i as real
    ensures var cutoff := LinearPercentile(values, q);
      cutoff.Some? && cutoff.value == a + d * (q * (|values| - 1) as real)
  {
    hide SortReals, LinearPercentile, AtPlace;
    CutoffIsProportional(values, q);
    var place := q * (|values| - 1) as real;
    EvenlyAt(SortReals(values), place, LinearPercentile(values, q).value, a, d);
    assert LinearPercentile(values, q).value == a + d * place;
  }

  lemma EvenlyAt(sorted: seq<real>, place: real, cutoff: real, a: real, d: real)
    requires AtPlace(sorted, place, cutoff) && forall i :: 0 <= i < |sorted| ==> sorted[i] == a + d * i as real
    ensures cutoff == a + d * place
  {
    hide Times;
    var below := place.Floor;
    if below as real < place {
      Product(sorted[below + 1] - sorted[below], place - below as real);
      OnLine(a, d, below as real, (below + 1) as real, place, sorted[below], sorted[below + 1], cutoff);
    }
  }

  lemma OnLine(a: real, d: real, x: real, y: real, p: real, lower: real, upper: real, cutoff: real)
    requires y == x + 1.0 && lower == a + d * x && upper == a + d * y && cutoff - lower == (upper - lower) * (p - x)
    ensures cutoff == a + d * p
  {
    assert d * y == d * x + d;
    assert upper - lower == d;
    assert d * (p - x) == d * p - d * x;
  }

  /** At the place of a value the cutoff is that value. */
  lemma {:induction false} CutoffAtValue(values: seq<real>, k: nat)
    requires |values| >= 2 && k < |values|
    ensures var q := k as real / (|values| - 1) as real;
      && 0.0 <= q <= 1.0 && LinearPercentile(values, q).Some?
      && LinearPercentile(values, q).value == SortReals(values)[k]
  {
    hide SortReals, LinearPercentile;
    var n := (|values| - 1) as real;
    var q, place := Quotient(k as real, n);
    CutoffIsProportional(values, q);
    hide AtPlace;
    AtWhole(SortReals(values), place, k, LinearPercentile(values, q).value);
  }

  lemma AtWhole(sorted: seq<real>, place: real, k: nat, cutoff: real)
    requires place == k as real && AtPlace(sorted, place, cutoff)
    ensures k < |sorted| && cutoff == sorted[k]
  {
    assert place.Floor == k;
  }

  lemma Quotient(x: real, n: real) returns (z: real, place: real)
    requires 0.0 <= x <= n && n > 0.0
    ensures z == x / n && 0.0 <= z <= 1.0 && place == x && place == z * n
  {
    z, place := x / n, x;
    assert z * n == x;
    assert z > 1.0 ==> (z - 1.0) * n > 0.0;
    assert z < 0.0 ==> (0.0 - z) * n > 0.0;
  }

  /** A greater quantile has no smaller cutoff. */
  lemma {:induction false} CutoffMonotone(values: seq<real>, q: real, r: real)
    requires |values| >= 1 && 0.0 <= q <= r <= 1.0
    ensures LinearPercentile(values, q).Some? && LinearPercentile(values, r).Some?
    ensures LinearPercentile(values, q).value <= LinearPercentile(values, r).value
  {
    hide SortReals, LinearPercentile, AtPlace;
    SortedAscends(values);
    CutoffIsProportional(values, q);
    CutoffIsProportional(values, r);
    PlacesOrdered(q, r, (|values| - 1) as real);
    InOrder(SortReals(values), q * (|values| - 1) as real, r * (|values| - 1) as real,
      LinearPercentile(values, q).value, LinearPercentile(values, r).value);
  }

  lemma PlacesOrdered(q: real, r: real, n: real)
    requires q <= r && n >= 0.0
    ensures q * n <= r * n
  {
    assert (r - q) * n >= 0.0;
  }

  lemma Within(sorted: seq<real>, place: real, cutoff: real)
    requires Ascends(sorted) && AtPlace(sorted, place, cutoff)
    ensures var below := place.Floor;
      sorted[below] <= cutoff <= sorted[if below as real < place then below + 1 else below]
  {
    hide Times;
    var below := place.Floor;
    if below as real < place {
      assert sorted[below] <= sorted[below + 1];
      Shrinks(sorted[below + 1] - sorted[below], place - below as real);
    }
  }

  lemma InOrder(sorted: seq<real>, p: real, r: real, x: real, y: real)
    requires Ascends(sorted) && p <= r && AtPlace(sorted, p, x) && AtPlace(sorted, r, y)
    ensures x <= y
  {
    hide Times;
    var i, j := p.Floor, r.Floor;
    Within(sorted, p, x);
    Within(sorted, r, y);
    if i < j {
      assert i + 1 < j ==> sorted[i + 1] <= sorted[j];
      assert sorted[i] <= sorted[j];
    } else if i as real < p {
      assert sorted[i] <= sorted[i + 1];
      LargerShare(sorted[i + 1] - sorted[i], p - i as real, r - i as real);
    }
  }

  lemma LargerShare(gap: real, t: real, u: real)
    requires gap >= 0.0 && t <= u
    ensures Times(gap, t) <= Times(gap, u)
  {
    assert gap * (u - t) >= 0.0;
    assert gap * u - gap * t == gap * (u - t);
  }
}
