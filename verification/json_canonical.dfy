/** What canonical JSON preserves: a printed value is read back in normal form, and two values
    print alike exactly when they agree up to the order of keys. */
module JsonCanonical {
  import opened Contracts
  import opened Json
  import opened JsonOrder
  import opened JsonRoundTrip

  // Printing is printing the normal form -------------------------------------------------------

  lemma PlainSort(xs: seq<Keyed<Value>>)
    ensures PlainMembers(Sort(xs)) == Sort(PlainMembers(xs))
  {
    assert PlainMembers(xs) == MapValues(Plain, xs);
    assert PlainMembers(Sort(xs)) == MapValues(Plain, Sort(xs));
    SortMap(Plain, xs);
  }

  lemma {:induction false} PrintsNorm(v: Value)
    ensures Print(v) == Plain(Norm(v))
    decreases v, 1
  {
    match v
    case Arr(items) => ItemsPrintNorm(items);
    case Obj(members) =>
      MembersPrintNorm(members);
      PlainSort(NormMembers(members));
    case _ =>
  }

  lemma {:induction false} ItemsPrintNorm(items: seq<Value>)
    ensures PrintItems(items) == PlainItems(NormItems(items))
    decreases items, 0
  {
    hide Plain;
    if |items| > 0 {
      PrintsNorm(items[0]);
      ItemsPrintNorm(items[1..]);
      assert ([Norm(items[0])] + NormItems(items[1..]))[1..] == NormItems(items[1..]);
    }
  }

  lemma {:induction false} MembersPrintNorm(members: seq<Keyed<Value>>)
    ensures PrintMembers(members) == PlainMembers(NormMembers(members))
    decreases members, 0
  {
    hide Plain;
    if |members| > 0 {
      MembersPrintNorm(members[1..]);
      if members[0].value != Undefined {
        assert members[0].value < members[0];
        PrintsNorm(members[0].value);
        var first := Keyed(members[0].key, Norm(members[0].value));
        assert ([first] + NormMembers(members[1..]))[1..] == NormMembers(members[1..]);
      }
    }
  }

  // Normal values ------------------------------------------------------------------------------

  /** Nothing undefined, and the keys of every object ascending. */
  ghost predicate Normal(v: Value) {
    match v
    case Undefined => false
    case Number(t) => NumberText(t)
    case Arr(items) => forall i :: 0 <= i < |items| ==> Normal(items[i])
    case Obj(members) => Sorted(members) && forall i :: 0 <= i < |members| ==> Normal(members[i].value)
    case _ => true
  }

  /** The defined properties of an object, by place. */
  lemma {:induction false} NormMember(members: seq<Keyed<Value>>, m: Keyed<Value>)
    ensures m in NormMembers(members) <==>
      exists i :: 0 <= i < |members| && members[i].value != Undefined &&
        m == Keyed(members[i].key, Norm(members[i].value))
  {
    hide Norm;
    if |members| > 0 {
      var first, others := members[0], members[1..];
      NormMember(others, m);
      assert forall i :: 0 <= i < |others| ==> others[i] == members[i + 1];
      if i :|
        0 <= i < |members| && members[i].value != Undefined && m == Keyed(members[i].key, Norm(members[i].value))
      {
        if i > 0 { assert others[i - 1] == members[i]; }
      }
    }
  }

  lemma NormMemberAt(members: seq<Keyed<Value>>, i: nat)
    requires i < |members| && members[i].value != Undefined
    ensures Keyed(members[i].key, Norm(members[i].value)) in NormMembers(members)
  {
    hide Norm, NormMembers;
    NormMember(members, Keyed(members[i].key, Norm(members[i].value)));
  }

  lemma {:induction false} NormDistinct(members: seq<Keyed<Value>>)
    requires DistinctKeys(members)
    ensures DistinctKeys(NormMembers(members))
  {
    hide Norm;
    if |members| > 0 {
      NormDistinct(members[1..]);
      var others := NormMembers(members[1..]);
      forall j | 0 <= j < |others| ensures others[j].key != members[0].key {
        NormMember(members[1..], others[j]);
        var i :| 0 <= i < |members[1..]| && others[j].key == members[1..][i].key;
        assert members[1..][i] == members[i + 1];
      }
    }
  }

  lemma {:induction false} NormIsNormal(v: Value)
    requires WellFormed(v)
    ensures Normal(Norm(v))
    decreases v, 1
  {
    match v
    case Arr(items) => ItemsAreNormal(items);
    case Obj(members) => MembersAreNormal(members);
    case _ =>
  }

  lemma {:induction false} ItemsAreNormal(items: seq<Value>)
    requires forall i :: 0 <= i < |items| ==> WellFormed(items[i])
    ensures |NormItems(items)| == |items|
    ensures forall i :: 0 <= i < |items| ==> Normal(NormItems(items)[i]) && NormItems(items)[i] == Norm(items[i])
    decreases items, 0
  {
    hide Normal, WellFormed;
    if |items| > 0 {
      NormIsNormal(items[0]);
      ItemsAreNormal(items[1..]);
      assert forall i :: 0 < i < |items| ==> items[i] == items[1..][i - 1];
    }
  }

  lemma {:induction false} MembersAreNormal(members: seq<Keyed<Value>>)
    requires DistinctKeys(members) && forall i :: 0 <= i < |members| ==> WellFormed(members[i].value)
    ensures Normal(Obj(Sort(NormMembers(members))))
    decreases members, 0
  {
    hide NormMembers, WellFormed, Norm;
    var sorted := Sort(NormMembers(members));
    NormDistinct(members);
    SortSorted(NormMembers(members));
    forall k | 0 <= k < |sorted| ensures Normal(sorted[k].value) {
      SortMembers(NormMembers(members), sorted[k]);
      NormMember(members, sorted[k]);
      var i :| 0 <= i < |members| && members[i].value != Undefined && sorted[k].value == Norm(members[i].value);
      assert members[i].value < members[i];
      NormIsNormal(members[i].value);
    }
  }

  lemma {:induction false} NormalIsClean(v: Value)
    requires Normal(v)
    ensures Clean(v)
  {
    match v
    case Arr(items) =>
      forall i | 0 <= i < |items| ensures Clean(items[i]) { NormalIsClean(items[i]); }
    case Obj(members) =>
      SortedDistinct(members);
      forall i | 0 <= i < |members| ensures Clean(members[i].value) {
        assert members[i].value < members[i];
        NormalIsClean(members[i].value);
      }
    case _ =>
  }

  /** A value in normal form is its own normal form. */
  lemma {:induction false} NormalIsFixed(v: Value)
    requires Normal(v)
    ensures Norm(v) == v
    decreases v, 1
  {
    match v
    case Arr(items) => ItemsAreFixed(items);
    case Obj(members) =>
      MembersAreFixed(members);
      SortFixed(members);
    case _ =>
  }

  lemma {:induction false} ItemsAreFixed(items: seq<Value>)
    requires forall i :: 0 <= i < |items| ==> Normal(items[i])
    ensures NormItems(items) == items
    decreases items, 0
  {
    if |items| > 0 {
      NormalIsFixed(items[0]);
      ItemsAreFixed(items[1..]);
    }
  }

  lemma {:induction false} MembersAreFixed(members: seq<Keyed<Value>>)
    requires forall i :: 0 <= i < |members| ==> Normal(members[i].value)
    ensures NormMembers(members) == members
    decreases members, 0
  {
    if |members| > 0 {
      assert members[0].value < members[0];
      NormalIsFixed(members[0].value);
      MembersAreFixed(members[1..]);
    }
  }

  // The main results ---------------------------------------------------------------------------

  /** Parsing what canonicalJson prints gives the normal form. */
  lemma {:induction false} ParsePrint(v: Value)
    requires WellFormed(v)
    ensures Parse(Print(v)) == Some(Norm(v))
  {
    hide ParseValue, Plain, Norm, Print;
    PrintsNorm(v);
    NormIsNormal(v);
    NormalIsClean(Norm(v));
    ParsePlain(Norm(v), []);
    assert Plain(Norm(v)) + [] == Plain(Norm(v));
  }

  /** The normal form is a fixed point of normalising, of printing and of print-then-parse. */
  lemma {:induction false} NormFixedPoint(v: Value)
    requires WellFormed(v)
    ensures Norm(Norm(v)) == Norm(v) && Print(Norm(v)) == Print(v) && Parse(Print(Norm(v))) == Some(Norm(v))
  {
    hide Norm, Print, Parse;
    NormIsNormal(v);
    NormalIsFixed(Norm(v));
    PrintsNorm(v);
    PrintsNorm(Norm(v));
    ParsePrint(v);
  }

  predicate Nullish(v: Value) { v == Undefined || v == Null }

  /** The two values agree, whatever the order of their keys: an undefined property is absent and
      any other undefined value is null. */
  ghost predicate Same(v: Value, w: Value)
    decreases v, 1
  {
    match (v, w)
    case (Arr(a), Arr(b)) => |a| == |b| && forall i :: 0 <= i < |a| ==> Same(a[i], b[i])
    case (Obj(a), Obj(b)) =>
      && (forall i :: 0 <= i < |a| && a[i].value != Undefined ==> HasEqual(a[i], b))
      && (forall j :: 0 <= j < |b| && b[j].value != Undefined ==> EqualIn(a, b[j]))
    case _ => v == w || (Nullish(v) && Nullish(w))
  }

  ghost predicate HasEqual(m: Keyed<Value>, b: seq<Keyed<Value>>)
    decreases m, 0
  {
    exists j :: 0 <= j < |b| && b[j].value != Undefined && m.key == b[j].key && Same(m.value, b[j].value)
  }

  ghost predicate EqualIn(a: seq<Keyed<Value>>, m: Keyed<Value>)
    decreases a, 0
  {
    exists i :: 0 <= i < |a| && a[i].value != Undefined && a[i].key == m.key && Same(a[i].value, m.value)
  }

  lemma {:induction false} NormItemsAt(items: seq<Value>)
    ensures |NormItems(items)| == |items| && forall i :: 0 <= i < |items| ==> NormItems(items)[i] == Norm(items[i])
  {
    hide Norm;
    if |items| > 0 {
      NormItemsAt(items[1..]);
      assert forall i :: 0 < i < |items| ==> items[i] == items[1..][i - 1];
    }
  }

  ghost predicate ItemsAgree(a: seq<Value>, b: seq<Value>) {
    forall i :: 0 <= i < |a| && i < |b| ==> (Same(a[i], b[i]) <==> Norm(a[i]) == Norm(b[i]))
  }

  lemma SameItemsNorm(a: seq<Value>, b: seq<Value>)
    requires ItemsAgree(a, b)
    ensures Same(Arr(a), Arr(b)) <==> Norm(Arr(a)) == Norm(Arr(b))
  {
    NormItemsAt(a);
    NormItemsAt(b);
    if Norm(Arr(a)) == Norm(Arr(b)) { assert NormItems(a) == NormItems(b); }
    if Same(Arr(a), Arr(b)) { assert NormItems(a) == NormItems(b); }
  }

  lemma SameObjectNorm(a: seq<Keyed<Value>>, b: seq<Keyed<Value>>)
    requires DistinctKeys(a) && DistinctKeys(b) && ValuesAgree(a, b)
    ensures Same(Obj(a), Obj(b)) <==> Norm(Obj(a)) == Norm(Obj(b))
  {
    NormOfObject(a);
    NormOfObject(b);
    hide Norm, Same, ValuesAgree, NormMembers, Sort;
    if Same(Obj(a), Obj(b)) { SameMembersNorm(a, b); }
    if Norm(Obj(a)) == Norm(Obj(b)) { NormMembersSame(a, b); }
  }

  lemma NormOfObject(members: seq<Keyed<Value>>)
    ensures Norm(Obj(members)) == Obj(Sort(NormMembers(members)))
  {
  }

  lemma {:induction false} SameIsNorm(v: Value, w: Value)
    requires WellFormed(v) && WellFormed(w)
    ensures Same(v, w) <==> Norm(v) == Norm(w)
    decreases v, 1
  {
    match (v, w)
    case (Arr(a), Arr(b)) =>
      forall i | 0 <= i < |a| && i < |b| ensures Same(a[i], b[i]) <==> Norm(a[i]) == Norm(b[i]) {
        SameIsNorm(a[i], b[i]);
      }
      hide Same, Norm;
      SameItemsNorm(a, b);
    case (Obj(a), Obj(b)) =>
      forall i, j | 0 <= i < |a| && 0 <= j < |b|
        ensures Same(a[i].value, b[j].value) <==> Norm(a[i].value) == Norm(b[j].value)
      {
        assert a[i].value < a[i];
        SameIsNorm(a[i].value, b[j].value);
      }
      hide Same, Norm;
      SameObjectNorm(a, b);
    case _ =>
  }

  ghost predicate ValuesAgree(a: seq<Keyed<Value>>, b: seq<Keyed<Value>>) {
    forall i, j :: 0 <= i < |a| && 0 <= j < |b| ==>
      (Same(a[i].value, b[j].value) <==> Norm(a[i].value) == Norm(b[j].value))
  }

  /** The property's normal form is one of b's. */
  ghost predicate NormIn(m: Keyed<Value>, b: seq<Keyed<Value>>) {
    Keyed(m.key, Norm(m.value)) in NormMembers(b)
  }

  ghost predicate Covered(a: seq<Keyed<Value>>, b: seq<Keyed<Value>>) {
    forall i :: 0 <= i < |a| && a[i].value != Undefined ==> NormIn(a[i], b)
  }

  lemma CoveredMember(a: seq<Keyed<Value>>, b: seq<Keyed<Value>>, m: Keyed<Value>)
    requires Covered(a, b) && m in NormMembers(a)
    ensures m in NormMembers(b)
  {
    hide Norm, NormMembers;
    NormMember(a, m);
    var i :| 0 <= i < |a| && a[i].value != Undefined && m == Keyed(a[i].key, Norm(a[i].value));
    assert NormIn(a[i], b);
  }

  lemma HasEqualNorm(a: seq<Keyed<Value>>, i: nat, b: seq<Keyed<Value>>)
    requires i < |a| && ValuesAgree(a, b)
    ensures HasEqual(a[i], b) <==> NormIn(a[i], b)
  {
    hide Norm, NormMembers, Same;
    NormMember(b, Keyed(a[i].key, Norm(a[i].value)));
    if HasEqual(a[i], b) {
      var j :| 0 <= j < |b| && b[j].value != Undefined && a[i].key == b[j].key && Same(a[i].value, b[j].value);
      NormMemberAt(b, j);
    }
  }

  lemma EqualInNorm(a: seq<Keyed<Value>>, b: seq<Keyed<Value>>, j: nat)
    requires j < |b| && ValuesAgree(a, b)
    ensures EqualIn(a, b[j]) <==> NormIn(b[j], a)
  {
    hide Norm, NormMembers, Same;
    NormMember(a, Keyed(b[j].key, Norm(b[j].value)));
    if EqualIn(a, b[j]) {
      var i :| 0 <= i < |a| && a[i].value != Undefined && a[i].key == b[j].key && Same(a[i].value, b[j].value);
      NormMemberAt(a, i);
    }
  }

  lemma SameCovers(a: seq<Keyed<Value>>, b: seq<Keyed<Value>>)
    requires ValuesAgree(a, b)
    ensures Same(Obj(a), Obj(b)) <==> Covered(a, b) && Covered(b, a)
  {
    hide ValuesAgree, NormIn, HasEqual, EqualIn;
    forall i | 0 <= i < |a| ensures HasEqual(a[i], b) <==> NormIn(a[i], b) { HasEqualNorm(a, i, b); }
    forall j | 0 <= j < |b| ensures EqualIn(a, b[j]) <==> NormIn(b[j], a) { EqualInNorm(a, b, j); }
  }

  lemma SameMembersNorm(a: seq<Keyed<Value>>, b: seq<Keyed<Value>>)
    requires DistinctKeys(a) && DistinctKeys(b) && ValuesAgree(a, b) && Same(Obj(a), Obj(b))
    ensures Sort(NormMembers(a)) == Sort(NormMembers(b))
  {
    SameCovers(a, b);
    hide Same, Norm, NormMembers, Sort, Covered, ValuesAgree;
    NormDistinct(a);
    NormDistinct(b);
    forall m ensures m in NormMembers(a) <==> m in NormMembers(b) {
      if m in NormMembers(a) { CoveredMember(a, b, m); }
      if m in NormMembers(b) { CoveredMember(b, a, m); }
    }
    SortUnique(NormMembers(a), NormMembers(b));
  }

  lemma SortedAlike(a: seq<Keyed<Value>>, b: seq<Keyed<Value>>, m: Keyed<Value>)
    requires Sort(a) == Sort(b)
    ensures m in a <==> m in b
  {
    SortMembers(a, m);
    SortMembers(b, m);
  }

  lemma NormMembersSame(a: seq<Keyed<Value>>, b: seq<Keyed<Value>>)
    requires ValuesAgree(a, b) && Sort(NormMembers(a)) == Sort(NormMembers(b))
    ensures Same(Obj(a), Obj(b))
  {
    SameCovers(a, b);
    hide Norm, NormMembers, Sort, Same, ValuesAgree;
    forall i | 0 <= i < |a| && a[i].value != Undefined ensures NormIn(a[i], b) {
      NormMemberAt(a, i);
      SortedAlike(NormMembers(a), NormMembers(b), Keyed(a[i].key, Norm(a[i].value)));
    }
    forall j | 0 <= j < |b| && b[j].value != Undefined ensures NormIn(b[j], a) {
      NormMemberAt(b, j);
      SortedAlike(NormMembers(a), NormMembers(b), Keyed(b[j].key, Norm(b[j].value)));
    }
  }

  /** Two values print alike exactly when they agree up to the order of their keys. */
  lemma {:induction false} PrintAlike(v: Value, w: Value)
    requires WellFormed(v) && WellFormed(w)
    ensures Print(v) == Print(w) <==> Same(v, w)
    ensures Print(v) == Print(w) <==> Norm(v) == Norm(w)
  {
    hide Norm, Print, Parse, Same;
    PrintsNorm(v);
    PrintsNorm(w);
    ParsePrint(v);
    ParsePrint(w);
    SameIsNorm(v, w);
  }
}
