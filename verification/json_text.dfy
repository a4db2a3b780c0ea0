/** Canonical JSON is well-formed UTF-16, so it survives encoding to UTF-8 unchanged; and whatever
    the parser accepts is a proper value. */
module JsonText {
  import opened Contracts
  import opened Json
  import opened JsonRoundTrip
  import opened JsonCanonical

  // Surrogates ---------------------------------------------------------------------------------

  /** Every surrogate stands in a high and low pair. */
  predicate Paired(t: Text) {
    if |t| == 0 then true
    else if StartsPair(t) then Paired(t[2..])
    else !IsHigh(t[0]) && !IsLow(t[0]) && Paired(t[1..])
  }

  predicate NoSurrogates(t: Text) {
    forall i :: 0 <= i < |t| ==> !IsHigh(t[i]) && !IsLow(t[i])
  }

  lemma {:induction false} NoSurrogatesPaired(t: Text)
    requires NoSurrogates(t)
    ensures Paired(t)
  {
    if |t| > 0 {
      NoSurrogatesPaired(t[1..]);
    }
  }

  lemma {:induction false} PairedConcat(a: Text, b: Text)
    requires Paired(a) && Paired(b)
    ensures Paired(a + b)
    decreases |a|
  {
    if |a| == 0 {
      assert a + b == b;
    } else if StartsPair(a) {
      PairedConcat(a[2..], b);
      assert StartsPair(a + b) && (a + b)[2..] == a[2..] + b;
    } else {
      PairedConcat(a[1..], b);
      assert !StartsPair(a + b) && (a + b)[1..] == a[1..] + b;
    }
  }

  lemma PairedConcat3(a: Text, b: Text, c: Text)
    requires Paired(a) && Paired(b) && Paired(c)
    ensures Paired(a + b + c)
  {
    hide Paired;
    PairedConcat(a, b);
    PairedConcat(a + b, c);
  }

  lemma UnitPaired(u: Unit)
    ensures Paired(EscapeUnit(u))
  {
    NoSurrogatesPaired(EscapeUnit(u));
  }

  lemma {:induction false} EscapePaired(s: Text)
    ensures Paired(Escape(s))
    decreases |s|
  {
    if |s| > 0 {
      if StartsPair(s) {
        EscapePaired(s[2..]);
        EscapePair(s);
        assert Paired([s[0], s[1]]) by { assert [s[0], s[1]][2..] == []; }
        PairedConcat([s[0], s[1]], Escape(s[2..]));
      } else {
        EscapePaired(s[1..]);
        EscapeFirst(s);
        UnitPaired(s[0]);
        PairedConcat(EscapeUnit(s[0]), Escape(s[1..]));
      }
    }
  }

  lemma QuotePaired(s: Text)
    ensures Paired(Quote(s))
  {
    EscapePaired(s);
    NoSurrogatesPaired([QUOTE]);
    PairedConcat3([QUOTE], Escape(s), [QUOTE]);
  }

  lemma {:induction false} JoinPaired(parts: seq<Text>)
    requires forall i :: 0 <= i < |parts| ==> Paired(parts[i])
    ensures Paired(Join(parts))
  {
    if |parts| > 1 {
      JoinPaired(parts[1..]);
      NoSurrogatesPaired([COMMA]);
      PairedConcat3(parts[0], [COMMA], Join(parts[1..]));
    }
  }

  lemma LiteralsPaired()
    ensures Paired(NULL_TEXT) && Paired(TRUE_TEXT) && Paired(FALSE_TEXT) && Paired([COLON])
    ensures Paired([OPEN_BRACKET]) && Paired([CLOSE_BRACKET]) && Paired([OPEN_BRACE]) && Paired([CLOSE_BRACE])
  {
    NoSurrogatesPaired(NULL_TEXT);
    NoSurrogatesPaired(TRUE_TEXT);
    NoSurrogatesPaired(FALSE_TEXT);
    NoSurrogatesPaired([COLON]);
    NoSurrogatesPaired([OPEN_BRACKET]);
    NoSurrogatesPaired([CLOSE_BRACKET]);
    NoSurrogatesPaired([OPEN_BRACE]);
    NoSurrogatesPaired([CLOSE_BRACE]);
  }

  lemma NumberPaired(t: Text)
    requires NumberText(t)
    ensures Paired(t)
  {
    forall i | 0 <= i < |t| ensures !IsHigh(t[i]) && !IsLow(t[i]) { assert IsNumberUnit(t[i]); }
    NoSurrogatesPaired(t);
  }

  lemma {:induction false} PlainPaired(v: Value)
    requires Clean(v)
    ensures Paired(Plain(v))
  {
    hide Paired, Join, Quote, NumberText;
    LiteralsPaired();
    match v
    case Number(t) => NumberPaired(t);
    case Str(s) => QuotePaired(s);
    case Arr(items) =>
      forall i | 0 <= i < |items| ensures Paired(PlainItems(items)[i]) { PlainPaired(items[i]); }
      JoinPaired(PlainItems(items));
      PairedConcat3([OPEN_BRACKET], Join(PlainItems(items)), [CLOSE_BRACKET]);
    case Obj(members) =>
      var fields := Fields(PlainMembers(members));
      forall i | 0 <= i < |members| ensures Paired(fields[i]) {
        assert members[i].value < members[i];
        PlainPaired(members[i].value);
        QuotePaired(members[i].key);
        PairedConcat3(Quote(members[i].key), [COLON], Plain(members[i].value));
      }
      JoinPaired(fields);
      PairedConcat3([OPEN_BRACE], Join(fields), [CLOSE_BRACE]);
    case _ =>
  }

  /** Canonical JSON has no lone surrogate. */
  lemma {:induction false} PrintPaired(v: Value)
    requires WellFormed(v)
    ensures Paired(Print(v))
  {
    hide Paired, Plain, Norm, Clean;
    PrintsNorm(v);
    NormIsNormal(v);
    NormalIsClean(Norm(v));
    PlainPaired(Norm(v));
  }

  // What the parser accepts --------------------------------------------------------------------

  lemma {:induction false} PutMember(members: seq<Keyed<Value>>, m: Keyed<Value>, x: Keyed<Value>)
    requires DistinctKeys(members) && x in Put(members, m)
    ensures x == m || (x in members && x.key != m.key)
  {
    if |members| > 0 && members[0].key != m.key && x != members[0] {
      PutMember(members[1..], m, x);
    }
  }

  lemma {:induction false} PutDistinct(members: seq<Keyed<Value>>, m: Keyed<Value>)
    requires DistinctKeys(members)
    ensures DistinctKeys(Put(members, m))
  {
    if |members| > 0 && members[0].key != m.key {
      var others := Put(members[1..], m);
      PutDistinct(members[1..], m);
      forall j | 0 <= j < |others| ensures others[j].key != members[0].key {
        PutMember(members[1..], m, others[j]);
      }
    }
  }

  ghost predicate CleanValues(members: seq<Keyed<Value>>) {
    forall i :: 0 <= i < |members| ==> Clean(members[i].value)
  }

  lemma {:induction false} CollectClean(members: seq<Keyed<Value>>)
    requires CleanValues(members)
    ensures Clean(Obj(Collect(members)))
  {
    hide Put;
    if |members| > 0 {
      var before, last := members[..|members| - 1], members[|members| - 1];
      CollectClean(before);
      PutDistinct(Collect(before), last);
      forall x | x in Collect(members) ensures Clean(x.value) {
        PutMember(Collect(before), last, x);
      }
    }
  }

  /** What a key means in a text that repeats it: its last value. */
  function LastValue(members: seq<Keyed<Value>>, key: Text): Option<Value> {
    if |members| == 0 then None
    else if members[|members| - 1].key == key then Some(members[|members| - 1].value)
    else LastValue(members[..|members| - 1], key)
  }

  /** The keys, each where it stands first. */
  function FirstKeys(members: seq<Keyed<Value>>): seq<Text> {
    if |members| == 0 then []
    else
      var n := |members| - 1;
      var before := FirstKeys(members[..n]);
      if members[n].key in before then before else before + [members[n].key]
  }

  function KeysOf(members: seq<Keyed<Value>>): (keys: seq<Text>)
    ensures |keys| == |members| && forall i :: 0 <= i < |keys| ==> keys[i] == members[i].key
  {
    seq(|members|, i requires 0 <= i < |members| => members[i].key)
  }

  lemma {:induction false} PutKeys(members: seq<Keyed<Value>>, m: Keyed<Value>)
    ensures KeysOf(Put(members, m)) == if m.key in KeysOf(members) then KeysOf(members) else KeysOf(members) + [m.key]
  {
    if |members| > 0 && members[0].key != m.key {
      PutKeys(members[1..], m);
      assert KeysOf(members) == [members[0].key] + KeysOf(members[1..]);
      assert KeysOf(Put(members, m)) == [members[0].key] + KeysOf(Put(members[1..], m));
    }
  }

  lemma {:induction false} PutLookup(members: seq<Keyed<Value>>, m: Keyed<Value>, key: Text)
    ensures Lookup(Put(members, m), key) == if key == m.key then Some(m.value) else Lookup(members, key)
  {
    if |members| > 0 && members[0].key != m.key { PutLookup(members[1..], m, key); }
  }

  /** In an object read from a text each key stands where the text has it first, with the value the text
      gives it last. */
  lemma {:induction false} CollectTakesLast(members: seq<Keyed<Value>>, key: Text)
    ensures KeysOf(Collect(members)) == FirstKeys(members)
    ensures Lookup(Collect(members), key) == LastValue(members, key)
  {
    if |members| > 0 {
      var n := |members| - 1;
      CollectTakesLast(members[..n], key);
      PutKeys(Collect(members[..n]), members[n]);
      PutLookup(Collect(members[..n]), members[n], key);
    }
  }

  lemma {:induction false} ParseValueClean(text: Text)
    requires ParseValue(text).Done?
    ensures Clean(ParseValue(text).value)
    decreases |text|, 1
  {
    hide NumberText, ParseItems, ParseMembers, ParseString, Collect;
    var t := SkipSpace(text);
    if t[0] == OPEN_BRACKET {
      if ParseItems(t[1..]).Done? { ParseItemsClean(t[1..]); }
    } else if t[0] == OPEN_BRACE {
      if ParseMembers(t[1..]).Done? {
        ParseMembersClean(t[1..]);
        CollectClean(ParseMembers(t[1..]).value);
      }
    }
  }

  lemma {:induction false} ParseItemsClean(t: Text)
    requires ParseItems(t).Done?
    ensures Clean(Arr(ParseItems(t).value))
    decreases |t|, 2
  {
    hide ParseValue;
    ParseValueClean(t);
    var after := SkipSpace(ParseValue(t).rest);
    if after[0] == COMMA { ParseItemsClean(after[1..]); }
  }

  lemma {:induction false} ParseMembersClean(text: Text)
    requires ParseMembers(text).Done?
    ensures CleanValues(ParseMembers(text).value)
    decreases |text|, 2
  {
    hide ParseValue, ParseString, Clean;
    var t := SkipSpace(text);
    var colon := SkipSpace(ParseString(t[1..]).rest);
    ParseValueClean(colon[1..]);
    var after := SkipSpace(ParseValue(colon[1..]).rest);
    if after[0] == COMMA { ParseMembersClean(after[1..]); }
  }

  lemma {:induction false} CleanIsWellFormed(v: Value)
    requires Clean(v)
    ensures WellFormed(v)
  {
    match v
    case Arr(items) =>
      forall i | 0 <= i < |items| ensures WellFormed(items[i]) { CleanIsWellFormed(items[i]); }
    case Obj(members) =>
      forall i | 0 <= i < |members| ensures WellFormed(members[i].value) {
        assert members[i].value < members[i];
        CleanIsWellFormed(members[i].value);
      }
    case _ =>
  }

  /** Whatever JSON.parse accepts has nothing undefined, distinct keys and proper numbers, so its
      normal form can be printed and read back. */
  lemma {:induction false} ParseIsClean(t: Text)
    requires Parse(t).Some?
    ensures Clean(Parse(t).value) && Parse(Print(Parse(t).value)) == Some(Norm(Parse(t).value))
  {
    hide ParseValue, Print, Norm, WellFormed, Clean;
    ParseValueClean(t);
    CleanIsWellFormed(Parse(t).value);
    ParsePrint(Parse(t).value);
  }
}
