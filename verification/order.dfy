/** Ascending lists: a list without repetition in a given order is determined by its members. And the
    lexicographic order of lists. */
module Order {

  ghost predicate Asymmetric<T(!new)>(less: (T, T) -> bool) {
    forall x, y :: less(x, y) ==> !less(y, x)
  }

  ghost predicate Ascending<T>(xs: seq<T>, less: (T, T) -> bool) {
    forall i, j :: 0 <= i < j < |xs| ==> less(xs[i], xs[j])
  }

  lemma SameLast<T(!new)>(a: seq<T>, b: seq<T>, less: (T, T) -> bool)
    requires Asymmetric(less) && Ascending(a, less) && Ascending(b, less) && |a| > 0 && |b| > 0
    requires a[|a| - 1] in b && b[|b| - 1] in a
    ensures a[|a| - 1] == b[|b| - 1]
  {
    var i :| 0 <= i < |b| && b[i] == a[|a| - 1];
    var j :| 0 <= j < |a| && a[j] == b[|b| - 1];
    assert i < |b| - 1 ==> less(b[i], b[|b| - 1]);
    assert j < |a| - 1 ==> less(a[j], a[|a| - 1]);
  }

  lemma WithoutLast<T(!new)>(a: seq<T>, x: T, less: (T, T) -> bool)
    requires Asymmetric(less) && Ascending(a, less) && |a| > 0
    ensures x in a[..|a| - 1] <==> x in a && x != a[|a| - 1]
  {
    if x in a[..|a| - 1] {
      var i :| 0 <= i < |a| - 1 && a[i] == x;
      assert less(a[i], a[|a| - 1]);
    }
  }

  ghost predicate OneSet<T(!new)>(a: seq<T>, b: seq<T>) {
    forall x :: x in a <==> x in b
  }

  /** Lists with the same members still have them when the last, which they share, is dropped. */
  lemma SameWithoutLast<T(!new)>(a: seq<T>, b: seq<T>, less: (T, T) -> bool)
    requires Asymmetric(less) && Ascending(a, less) && Ascending(b, less) && OneSet(a, b) && |a| > 0 && |b| > 0
    ensures a[|a| - 1] == b[|b| - 1]
    ensures OneSet(a[..|a| - 1], b[..|b| - 1]) && Ascending(a[..|a| - 1], less) && Ascending(b[..|b| - 1], less)
  {
    var m, n := |a| - 1, |b| - 1;
    assert a[m] in a && b[n] in b;
    SameLast(a, b, less);
    forall x ensures x in a[..m] <==> x in b[..n] {
      WithoutLast(a, x, less);
      WithoutLast(b, x, less);
    }
  }

  lemma BothEmpty<T(!new)>(a: seq<T>, b: seq<T>)
    requires OneSet(a, b)
    ensures |a| == 0 <==> |b| == 0
  {
    if |a| > 0 { assert a[0] in a; }
    if |b| > 0 { assert b[0] in b; }
  }

  /** Two ascending lists with the same members are the same list. */
  lemma {:induction false} SameMembers<T(!new)>(a: seq<T>, b: seq<T>, less: (T, T) -> bool)
    requires Asymmetric(less) && Ascending(a, less) && Ascending(b, less) && OneSet(a, b)
    ensures a == b
    decreases |a|
  {
    hide Asymmetric, Ascending, OneSet;
    BothEmpty(a, b);
    if |a| > 0 {
      SameWithoutLast(a, b, less);
      SameMembers(a[..|a| - 1], b[..|b| - 1], less);
      assert a == a[..|a| - 1] + [a[|a| - 1]] && b == b[..|b| - 1] + [b[|b| - 1]];
    }
  }

  // Lexicographic order ------------------------------------------------------------------------

  /** Element by element, a prefix first. */
  predicate LexLess<T(==)>(a: seq<T>, b: seq<T>, less: (T, T) -> bool) {
    if |b| == 0 then false
    else if |a| == 0 then true
    else less(a[0], b[0]) || (a[0] == b[0] && LexLess(a[1..], b[1..], less))
  }

  ghost predicate StrictOrder<T(!new)>(less: (T, T) -> bool) {
    && Asymmetric(less)
    && (forall x, y :: x != y ==> less(x, y) || less(y, x))
    && (forall x, y, z :: less(x, y) && less(y, z) ==> less(x, z))
  }

  lemma {:induction false} LexAsymmetric<T(!new)>(a: seq<T>, b: seq<T>, less: (T, T) -> bool)
    requires StrictOrder(less) && LexLess(a, b, less)
    ensures !LexLess(b, a, less) && a != b
  {
    if |a| > 0 && a[0] == b[0] {
      assert !less(a[0], b[0]);
      LexAsymmetric(a[1..], b[1..], less);
    }
  }

  lemma {:induction false} LexTotal<T(!new)>(a: seq<T>, b: seq<T>, less: (T, T) -> bool)
    requires StrictOrder(less) && a != b
    ensures LexLess(a, b, less) || LexLess(b, a, less)
  {
    if |a| > 0 && |b| > 0 && a[0] == b[0] {
      assert a == [a[0]] + a[1..] && b == [b[0]] + b[1..];
      LexTotal(a[1..], b[1..], less);
    }
  }

  lemma {:induction false} LexTransitive<T(!new)>(a: seq<T>, b: seq<T>, c: seq<T>, less: (T, T) -> bool)
    requires StrictOrder(less) && LexLess(a, b, less) && LexLess(b, c, less)
    ensures LexLess(a, c, less)
  {
    if |a| > 0 && a[0] == b[0] && b[0] == c[0] {
      assert !less(a[0], b[0]) && !less(b[0], c[0]);
      LexTransitive(a[1..], b[1..], c[1..], less);
    }
  }

  predicate CharBefore(c: char, d: char) { c < d }

  lemma CharOrder()
    ensures StrictOrder(CharBefore)
  {
  }
}
