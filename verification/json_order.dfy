/** Sorting by key: the result is the one ascending arrangement of the members. */
module JsonOrder {
  import opened Order
  import opened Json

  lemma UnitOrder()
    ensures StrictOrder(UnitBefore)
  {
  }

  lemma LessAsymmetric(a: Text, b: Text)
    requires Less(a, b)
    ensures !Less(b, a) && a != b
  {
    UnitOrder();
    LexAsymmetric(a, b, UnitBefore);
  }

  lemma LessTotal(a: Text, b: Text)
    requires a != b
    ensures Less(a, b) || Less(b, a)
  {
    UnitOrder();
    LexTotal(a, b, UnitBefore);
  }

  lemma LessTransitive(a: Text, b: Text, c: Text)
    requires Less(a, b) && Less(b, c)
    ensures Less(a, c)
  {
    UnitOrder();
    LexTransitive(a, b, c, UnitBefore);
  }

  predicate KeyBefore<T>(a: Keyed<T>, b: Keyed<T>) {
    Less(a.key, b.key)
  }

  ghost predicate Sorted<T>(xs: seq<Keyed<T>>) {
    forall i, j :: 0 <= i < j < |xs| ==> Less(xs[i].key, xs[j].key)
  }

  lemma SortedDistinct<T>(xs: seq<Keyed<T>>)
    requires Sorted(xs)
    ensures DistinctKeys(xs)
  {
    forall i, j | 0 <= i < j < |xs| ensures xs[i].key != xs[j].key {
      LessAsymmetric(xs[i].key, xs[j].key);
    }
  }

  lemma {:induction false} InsertMembers<T>(x: Keyed<T>, xs: seq<Keyed<T>>, y: Keyed<T>)
    ensures |Insert(x, xs)| == |xs| + 1
    ensures y in Insert(x, xs) <==> y == x || y in xs
  {
    if |xs| > 0 && Less(xs[0].key, x.key) {
      InsertMembers(x, xs[1..], y);
      assert y in xs <==> y == xs[0] || y in xs[1..];
    }
  }

  lemma {:induction false} SortMembers<T>(xs: seq<Keyed<T>>, y: Keyed<T>)
    ensures |Sort(xs)| == |xs|
    ensures y in Sort(xs) <==> y in xs
  {
    if |xs| > 0 {
      SortMembers(xs[1..], y);
      InsertMembers(xs[0], Sort(xs[1..]), y);
      assert y in xs <==> y == xs[0] || y in xs[1..];
    }
  }

  lemma {:induction false} InsertSorted<T>(x: Keyed<T>, xs: seq<Keyed<T>>)
    requires Sorted(xs) && forall i :: 0 <= i < |xs| ==> xs[i].key != x.key
    ensures Sorted(Insert(x, xs))
  {
    if |xs| > 0 {
      if Less(xs[0].key, x.key) {
        var rest := Insert(x, xs[1..]);
        InsertSorted(x, xs[1..]);
        forall j | 0 <= j < |rest| ensures Less(xs[0].key, rest[j].key) {
          InsertMembers(x, xs[1..], rest[j]);
        }
      } else {
        LessTotal(xs[0].key, x.key);
        forall j | 0 < j < |xs| ensures Less(x.key, xs[j].key) {
          LessTransitive(x.key, xs[0].key, xs[j].key);
        }
      }
    }
  }

  lemma {:induction false} SortSorted<T>(xs: seq<Keyed<T>>)
    requires DistinctKeys(xs)
    ensures Sorted(Sort(xs))
  {
    if |xs| > 0 {
      SortSorted(xs[1..]);
      var rest := Sort(xs[1..]);
      forall i | 0 <= i < |rest| ensures rest[i].key != xs[0].key {
        SortMembers(xs[1..], rest[i]);
        var j :| 0 <= j < |xs[1..]| && xs[1..][j] == rest[i];
        assert xs[j + 1] == rest[i];
      }
      InsertSorted(xs[0], rest);
    }
  }

  lemma {:induction false} SortFixed<T>(xs: seq<Keyed<T>>)
    requires Sorted(xs)
    ensures Sort(xs) == xs
  {
    if |xs| > 0 {
      SortFixed(xs[1..]);
      if |xs| > 1 { LessAsymmetric(xs[0].key, xs[1].key); }
    }
  }

  /** Sorting depends on the members only, not on their order. */
  lemma {:induction false} SortUnique<T(!new)>(xs: seq<Keyed<T>>, ys: seq<Keyed<T>>)
    requires DistinctKeys(xs) && DistinctKeys(ys) && forall m :: m in xs <==> m in ys
    ensures Sort(xs) == Sort(ys)
  {
    SortSorted(xs);
    SortSorted(ys);
    forall a: Keyed<T>, b: Keyed<T> | KeyBefore(a, b) ensures !KeyBefore(b, a) { LessAsymmetric(a.key, b.key); }
    forall m ensures m in Sort(xs) <==> m in Sort(ys) {
      SortMembers(xs, m);
      SortMembers(ys, m);
    }
    SameMembers(Sort(xs), Sort(ys), KeyBefore);
  }

  // Sorting and mapping ------------------------------------------------------------------------

  function MapValues<A, B>(f: A -> B, xs: seq<Keyed<A>>): (ys: seq<Keyed<B>>)
    ensures |ys| == |xs| && forall i :: 0 <= i < |xs| ==> ys[i] == Keyed(xs[i].key, f(xs[i].value))
  {
    seq(|xs|, i requires 0 <= i < |xs| => Keyed(xs[i].key, f(xs[i].value)))
  }

  lemma {:induction false} InsertMap<A, B>(f: A -> B, x: Keyed<A>, xs: seq<Keyed<A>>)
    ensures MapValues(f, Insert(x, xs)) == Insert(Keyed(x.key, f(x.value)), MapValues(f, xs))
  {
    hide Less;
    if |xs| > 0 && Less(xs[0].key, x.key) {
      InsertMap(f, x, xs[1..]);
      assert MapValues(f, xs)[1..] == MapValues(f, xs[1..]);
    }
  }

  /** Sorting looks at keys only, so it commutes with a change of the values. */
  lemma {:induction false} SortMap<A, B>(f: A -> B, xs: seq<Keyed<A>>)
    ensures MapValues(f, Sort(xs)) == Sort(MapValues(f, xs))
  {
    hide Insert;
    if |xs| > 0 {
      SortMap(f, xs[1..]);
      InsertMap(f, xs[0], Sort(xs[1..]));
      assert MapValues(f, xs)[1..] == MapValues(f, xs[1..]);
    }
  }
}
