/** Sorting and gathering rows: which orders of the input the results depend on. */
module ManifestSort {
  import opened Json
  import opened JsonOrder
  import opened Manifest

  // Sorting ------------------------------------------------------------------------------------

  lemma {:induction false} InsertByMultiset<T>(before: (T, T) -> bool, x: T, xs: seq<T>)
    ensures multiset(InsertBy(before, x, xs)) == multiset(xs) + multiset{x}
  {
    if |xs| > 0 && before(xs[0], x) {
      InsertByMultiset(before, x, xs[1..]);
      assert xs == [xs[0]] + xs[1..];
    }
  }

  /** Sorting keeps every element as often as it was there. */
  lemma {:induction false} SortByMultiset<T>(before: (T, T) -> bool, xs: seq<T>)
    ensures multiset(SortBy(before, xs)) == multiset(xs)
  {
    if |xs| > 0 {
      SortByMultiset(before, xs[1..]);
      InsertByMultiset(before, xs[0], SortBy(before, xs[1..]));
      assert xs == [xs[0]] + xs[1..];
    }
  }

  /** A strict order, total on these elements. */
  ghost predicate Orders<T(!new)>(before: (T, T) -> bool, xs: seq<T>) {
    && (forall x, y :: before(x, y) ==> !before(y, x))
    && (forall x, y, z :: before(x, y) && before(y, z) ==> before(x, z))
    && Total(before, xs)
  }

  ghost predicate Total<T>(before: (T, T) -> bool, xs: seq<T>) {
    forall i, j :: 0 <= i < |xs| && 0 <= j < |xs| && xs[i] != xs[j] ==> before(xs[i], xs[j]) || before(xs[j], xs[i])
  }

  ghost predicate InOrder<T>(before: (T, T) -> bool, xs: seq<T>) {
    forall i, j :: 0 <= i < j < |xs| ==> xs[i] == xs[j] || before(xs[i], xs[j])
  }

  lemma TotalOnMembers<T>(before: (T, T) -> bool, xs: seq<T>, ys: seq<T>)
    requires Total(before, xs) && forall y :: y in ys ==> y in xs
    ensures Total(before, ys)
  {
    forall i, j | 0 <= i < |ys| && 0 <= j < |ys| && ys[i] != ys[j]
      ensures before(ys[i], ys[j]) || before(ys[j], ys[i])
    {
      assert ys[i] in xs && ys[j] in xs;
    }
  }

  lemma {:induction false} InsertByInOrder<T(!new)>(before: (T, T) -> bool, x: T, xs: seq<T>)
    requires Orders(before, [x] + xs) && InOrder(before, xs)
    ensures InOrder(before, InsertBy(before, x, xs))
  {
    if |xs| > 0 {
      var all := [x] + xs;
      assert all[0] == x && all[1] == xs[0];
      if before(xs[0], x) {
        var others := InsertBy(before, x, xs[1..]);
        TotalOnMembers(before, all, [x] + xs[1..]);
        InsertByInOrder(before, x, xs[1..]);
        InsertByMultiset(before, x, xs[1..]);
        forall j | 0 <= j < |others| ensures xs[0] == others[j] || before(xs[0], others[j]) {
          assert others[j] in multiset(others);
          assert others[j] == x || others[j] in xs[1..];
        }
      }
    }
  }

  lemma {:induction false} SortByInOrder<T(!new)>(before: (T, T) -> bool, xs: seq<T>)
    requires Orders(before, xs)
    ensures InOrder(before, SortBy(before, xs))
  {
    if |xs| > 0 {
      var sorted := SortBy(before, xs[1..]);
      TotalOnMembers(before, xs, xs[1..]);
      SortByInOrder(before, xs[1..]);
      SortByMultiset(before, xs[1..]);
      forall y | y in [xs[0]] + sorted ensures y in xs {
        if y != xs[0] { assert y in multiset(sorted); }
      }
      TotalOnMembers(before, xs, [xs[0]] + sorted);
      InsertByInOrder(before, xs[0], sorted);
    }
  }

  lemma {:induction false} InOrderUnique<T(!new)>(before: (T, T) -> bool, xs: seq<T>, ys: seq<T>)
    requires forall x, y :: before(x, y) ==> !before(y, x)
    requires InOrder(before, xs) && InOrder(before, ys) && multiset(xs) == multiset(ys)
    ensures xs == ys
  {
    if |xs| == 0 {
      assert |multiset(ys)| == |ys|;
    } else {
      assert xs == [xs[0]] + xs[1..];
      assert xs[0] in multiset(xs);
      assert xs[0] in ys;
      assert ys == [ys[0]] + ys[1..];
      assert ys[0] in multiset(ys);
      assert ys[0] in xs;
      assert xs[0] == ys[0];
      assert multiset(xs[1..]) == multiset(xs) - multiset{xs[0]};
      assert multiset(ys[1..]) == multiset(ys) - multiset{ys[0]};
      InOrderUnique(before, xs[1..], ys[1..]);
    }
  }

  /** Under a total order the result depends on the elements only. */
  lemma {:induction false} SortByUnique<T(!new)>(before: (T, T) -> bool, xs: seq<T>, ys: seq<T>)
    requires Orders(before, xs) && multiset(xs) == multiset(ys)
    ensures SortBy(before, xs) == SortBy(before, ys)
  {
    forall y | y in ys ensures y in xs { assert y in multiset(ys); }
    TotalOnMembers(before, xs, ys);
    SortByInOrder(before, xs);
    SortByInOrder(before, ys);
    SortByMultiset(before, xs);
    SortByMultiset(before, ys);
    InOrderUnique(before, SortBy(before, xs), SortBy(before, ys));
  }

  lemma LessOrders()
    ensures forall a, b :: Less(a, b) ==> !Less(b, a)
    ensures forall a, b, c :: Less(a, b) && Less(b, c) ==> Less(a, c)
  {
    hide Less;
    forall a, b | Less(a, b) ensures !Less(b, a) { LessAsymmetric(a, b); }
    forall a, b, c | Less(a, b) && Less(b, c) ensures Less(a, c) { LessTransitive(a, b, c); }
  }

  // Gathering ----------------------------------------------------------------------------------

  lemma {:induction false} GatherConcat<S, T>(f: S -> seq<T>, xs: seq<S>, ys: seq<S>)
    ensures Gather(f, xs + ys) == Gather(f, xs) + Gather(f, ys)
    decreases |ys|
  {
    if |ys| == 0 {
      assert xs + ys == xs;
    } else {
      GatherConcat(f, xs, ys[..|ys| - 1]);
      assert (xs + ys)[..|xs + ys| - 1] == xs + ys[..|ys| - 1];
    }
  }

  lemma GatherOne<S, T>(f: S -> seq<T>, x: S)
    ensures Gather(f, [x]) == f(x)
  {
    assert [x][..0] == [];
  }

  lemma GatherAround<S, T>(f: S -> seq<T>, a: seq<S>, x: S, b: seq<S>)
    ensures multiset(Gather(f, a + [x] + b)) == multiset(Gather(f, a + b)) + multiset(f(x))
  {
    GatherConcat(f, a + [x], b);
    GatherConcat(f, a, [x]);
    GatherConcat(f, a, b);
    GatherOne(f, x);
    hide Gather;
    assert multiset(Gather(f, a + [x] + b)) == multiset(Gather(f, a)) + multiset(f(x)) + multiset(Gather(f, b));
  }

  lemma Without<S>(xs: seq<S>, k: nat)
    requires k < |xs|
    ensures xs == xs[..k] + [xs[k]] + xs[k + 1..]
    ensures multiset(xs) == multiset(xs[..k] + xs[k + 1..]) + multiset{xs[k]}
  {
    assert xs == xs[..k] + [xs[k]] + xs[k + 1..];
  }

  lemma GatherStep<S, T>(f: S -> seq<T>, xs: seq<S>, x: S)
    ensures Gather(f, xs + [x]) == Gather(f, xs) + f(x)
  {
    assert (xs + [x])[..|xs|] == xs;
  }

  /** What is gathered depends, up to order, on what it is gathered from up to order. */
  lemma {:induction false} GatherMultiset<S, T>(f: S -> seq<T>, xs: seq<S>, ys: seq<S>)
    requires multiset(xs) == multiset(ys)
    ensures multiset(Gather(f, xs)) == multiset(Gather(f, ys))
    decreases |xs|
  {
    hide Gather;
    if |xs| == 0 {
      assert |multiset(ys)| == |ys|;
      assert xs == ys;
    } else {
      var before, x := xs[..|xs| - 1], xs[|xs| - 1];
      assert x in multiset(xs);
      assert x in ys;
      var k :| 0 <= k < |ys| && ys[k] == x;
      var others := ys[..k] + ys[k + 1..];
      Without(ys, k);
      assert xs == before + [x];
      assert multiset(before) == multiset(xs) - multiset{x};
      assert multiset(others) == multiset(ys) - multiset{x};
      GatherMultiset(f, before, others);
      GatherStep(f, before, x);
      GatherAround(f, ys[..k], x, ys[k + 1..]);
    }
  }

  lemma {:induction false} GatherMembers<S, T>(f: S -> seq<T>, xs: seq<S>, y: T)
    ensures y in Gather(f, xs) <==> exists k :: 0 <= k < |xs| && y in f(xs[k])
  {
    if |xs| > 0 {
      var n := |xs| - 1;
      GatherMembers(f, xs[..n], y);
      if y in Gather(f, xs[..n]) {
        var k :| 0 <= k < n && y in f(xs[..n][k]);
        assert xs[k] == xs[..n][k];
      }
      if k :| 0 <= k < |xs| && y in f(xs[k]) {
        if k < n { assert xs[..n][k] == xs[k]; }
      }
    }
  }
}
