/** Parsing what the printer prints. */
module JsonRoundTrip {
  import opened Json

  // Strings ------------------------------------------------------------------------------------

  lemma HexDigits(u: Unit)
    ensures u == u / 0x1000 * 0x1000 + u / 0x100 % 16 * 0x100 + u / 0x10 % 16 * 0x10 + u % 16
    ensures u / 0x1000 < 16
  {
  }

  lemma ParseHexEscape(u: Unit, rest: Text)
    ensures ParseUnit(HexEscape(u) + rest) == Done(u, rest)
  {
    HexDigits(u);
    var a, b, c, d := HexDigit(u / 0x1000), HexDigit(u / 0x100 % 16), HexDigit(u / 0x10 % 16), HexDigit(u % 16);
    var t := [BACKSLASH, 117] + ([a, b, c, d] + rest);
    assert HexEscape(u) + rest == t;
    assert t[2..] == [a, b, c, d] + rest && t[2..][4..] == rest;
  }

  lemma ParseEscapedUnit(u: Unit, rest: Text)
    ensures |EscapeUnit(u)| > 0 && EscapeUnit(u)[0] != QUOTE
    ensures ParseUnit(EscapeUnit(u) + rest) == Done(u, rest)
  {
    var t := EscapeUnit(u) + rest;
    if EscapeUnit(u) == HexEscape(u) {
      ParseHexEscape(u, rest);
    } else if u == QUOTE || u == BACKSLASH || u < 32 {
      assert t[2..] == rest;
    } else {
      assert t[1..] == rest;
    }
  }

  lemma StringStep(u: Unit, encoded: Text, tail: Text, s: Text, rest: Text)
    requires |encoded| > 0 && encoded[0] != QUOTE && ParseUnit(encoded + tail) == Done(u, tail)
    requires ParseString(tail) == Done(s, rest)
    ensures ParseString(encoded + tail) == Done([u] + s, rest)
  {
    hide ParseUnit;
    assert (encoded + tail)[0] == encoded[0];
  }

  lemma ParseRawUnit(u: Unit, rest: Text)
    requires u >= 32 && u != QUOTE && u != BACKSLASH
    ensures ParseUnit([u] + rest) == Done(u, rest)
  {
    assert ([u] + rest)[1..] == rest;
  }

  lemma ParsePair(high: Unit, low: Unit, tail: Text, s: Text, rest: Text)
    requires StartsPair([high, low]) && ParseString(tail) == Done(s, rest)
    ensures ParseString([high, low] + tail) == Done([high, low] + s, rest)
  {
    hide ParseUnit;
    ParseRawUnit(low, tail);
    StringStep(low, [low], tail, s, rest);
    ParseRawUnit(high, [low] + tail);
    StringStep(high, [high], [low] + tail, [low] + s, rest);
    assert [high, low] + tail == [high] + ([low] + tail);
    assert [high, low] + s == [high] + ([low] + s);
  }

  predicate StartsPair(s: Text) {
    |s| > 1 && IsHigh(s[0]) && IsLow(s[1])
  }

  lemma EscapePair(s: Text)
    requires StartsPair(s)
    ensures Escape(s) == [s[0], s[1]] + Escape(s[2..]) && s == [s[0], s[1]] + s[2..]
  {
  }

  lemma EscapeFirst(s: Text)
    requires |s| > 0 && !StartsPair(s)
    ensures Escape(s) == EscapeUnit(s[0]) + Escape(s[1..]) && s == [s[0]] + s[1..]
  {
  }

  /** Every string is read back from its quoted form. */
  lemma {:induction false} ParseEscaped(s: Text, rest: Text)
    ensures ParseString(Escape(s) + [QUOTE] + rest) == Done(s, rest)
    decreases |s|
  {
    hide ParseUnit, EscapeUnit, ParseString, Escape;
    if |s| == 0 {
      ParseNothing(rest);
    } else if StartsPair(s) {
      ParseEscaped(s[2..], rest);
      var tail := Escape(s[2..]) + [QUOTE] + rest;
      EscapePair(s);
      ParsePair(s[0], s[1], tail, s[2..], rest);
      assert Escape(s) + [QUOTE] + rest == [s[0], s[1]] + tail;
    } else {
      ParseEscaped(s[1..], rest);
      var tail := Escape(s[1..]) + [QUOTE] + rest;
      EscapeFirst(s);
      ParseEscapedUnit(s[0], tail);
      StringStep(s[0], EscapeUnit(s[0]), tail, s[1..], rest);
      assert Escape(s) + [QUOTE] + rest == EscapeUnit(s[0]) + tail;
    }
  }

  lemma ParseNothing(rest: Text)
    ensures ParseString(Escape([]) + [QUOTE] + rest) == Done([], rest)
  {
    assert Escape([]) + [QUOTE] + rest == [QUOTE] + rest;
  }

  // Numbers ------------------------------------------------------------------------------------

  ghost predicate Ends(rest: Text) {
    |rest| == 0 || !IsNumberUnit(rest[0])
  }

  lemma NumberRunStops(t: Text, rest: Text)
    requires NumberText(t) && Ends(rest)
    ensures NumberRun(t + rest) == |t|
  {
    var all := t + rest;
    assert forall i :: 0 <= i < |t| ==> all[i] == t[i];
    assert |rest| > 0 ==> all[|t|] == rest[0];
  }

  // Printing in order --------------------------------------------------------------------------

  /** A value with nothing undefined, distinct keys and proper numbers. */
  ghost predicate Clean(v: Value) {
    match v
    case Undefined => false
    case Number(t) => NumberText(t)
    case Arr(items) => forall i :: 0 <= i < |items| ==> Clean(items[i])
    case Obj(members) => DistinctKeys(members) && forall i :: 0 <= i < |members| ==> Clean(members[i].value)
    case _ => true
  }

  /** Prints an object's properties in their own order. */
  function Plain(v: Value): Text {
    match v
    case Undefined => NULL_TEXT
    case Null => NULL_TEXT
    case Bool(b) => if b then TRUE_TEXT else FALSE_TEXT
    case Number(t) => t
    case Str(s) => Quote(s)
    case Arr(items) => [OPEN_BRACKET] + Join(PlainItems(items)) + [CLOSE_BRACKET]
    case Obj(members) => [OPEN_BRACE] + Join(Fields(PlainMembers(members))) + [CLOSE_BRACE]
  }

  function PlainItems(items: seq<Value>): (parts: seq<Text>)
    ensures |parts| == |items| && forall i :: 0 <= i < |items| ==> parts[i] == Plain(items[i])
  {
    if |items| == 0 then [] else [Plain(items[0])] + PlainItems(items[1..])
  }

  function PlainMembers(members: seq<Keyed<Value>>): (parts: seq<Keyed<Text>>)
    ensures |parts| == |members|
    ensures forall i :: 0 <= i < |members| ==> parts[i] == Keyed(members[i].key, Plain(members[i].value))
  {
    if |members| == 0 then [] else [Keyed(members[0].key, Plain(members[0].value))] + PlainMembers(members[1..])
  }

  lemma PlainHead(v: Value)
    requires Clean(v)
    ensures |Plain(v)| > 0 && !IsSpace(Plain(v)[0])
    ensures Plain(v)[0] != CLOSE_BRACKET && Plain(v)[0] != CLOSE_BRACE
  {
  }

  lemma SkipNothing(t: Text)
    requires |t| > 0 && !IsSpace(t[0])
    ensures SkipSpace(t) == t
  {
  }

  lemma {:induction false} CollectDistinct(members: seq<Keyed<Value>>)
    requires DistinctKeys(members)
    ensures Collect(members) == members
    decreases |members|
  {
    if |members| > 0 {
      var n := |members| - 1;
      CollectDistinct(members[..n]);
      PutNew(members[..n], members[n]);
      assert members == members[..n] + [members[n]];
    }
  }

  lemma {:induction false} PutNew(members: seq<Keyed<Value>>, m: Keyed<Value>)
    requires forall i :: 0 <= i < |members| ==> members[i].key != m.key
    ensures Put(members, m) == members + [m]
  {
    if |members| > 0 {
      PutNew(members[1..], m);
    }
  }

  // The round trip -----------------------------------------------------------------------------

  lemma ParseLiteral(v: Value, rest: Text)
    requires v == Null || v.Bool?
    ensures ParseValue(Plain(v) + rest) == Done(v, rest)
  {
    var t := Plain(v) + rest;
    SkipNothing(t);
    if v == Bool(false) { assert t[5..] == rest; } else { assert t[4..] == rest; }
  }

  lemma ParseNumber(n: Text, rest: Text)
    requires NumberText(n) && Ends(rest)
    ensures ParseValue(n + rest) == Done(Number(n), rest)
  {
    var t := n + rest;
    assert t[0] == n[0] && IsNumberUnit(n[0]);
    SkipNothing(t);
    NumberRunStops(n, rest);
    hide NumberText;
    assert t[..|n|] == n && t[|n|..] == rest;
    assert !(NULL_TEXT <= t) && !(TRUE_TEXT <= t) && !(FALSE_TEXT <= t);
  }

  lemma ParseQuoted(s: Text, rest: Text)
    ensures ParseValue(Quote(s) + rest) == Done(Str(s), rest)
  {
    var t := Quote(s) + rest;
    SkipNothing(t);
    assert t[1..] == Escape(s) + [QUOTE] + rest;
    ParseEscaped(s, rest);
  }

  lemma ParseArray(t: Text, items: seq<Value>, rest: Text)
    requires |t| > 0 && !IsSpace(t[0]) && t[0] != CLOSE_BRACKET && ParseItems(t) == Done(items, rest)
    ensures ParseValue([OPEN_BRACKET] + t) == Done(Arr(items), rest)
  {
    hide ParseItems;
    var all := [OPEN_BRACKET] + t;
    SkipNothing(all);
    SkipNothing(t);
    assert all[1..] == t;
  }

  lemma ParseObject(t: Text, members: seq<Keyed<Value>>, rest: Text)
    requires |t| > 0 && !IsSpace(t[0]) && t[0] != CLOSE_BRACE && ParseMembers(t) == Done(members, rest)
    ensures ParseValue([OPEN_BRACE] + t) == Done(Obj(Collect(members)), rest)
  {
    hide ParseMembers;
    var all := [OPEN_BRACE] + t;
    SkipNothing(all);
    SkipNothing(t);
    assert all[1..] == t;
  }

  lemma ParseEmpty(rest: Text)
    ensures ParseValue([OPEN_BRACKET] + ([CLOSE_BRACKET] + rest)) == Done(Arr([]), rest)
    ensures ParseValue([OPEN_BRACE] + ([CLOSE_BRACE] + rest)) == Done(Obj([]), rest)
  {
    var a, o := [CLOSE_BRACKET] + rest, [CLOSE_BRACE] + rest;
    var list, record := [OPEN_BRACKET] + a, [OPEN_BRACE] + o;
    SkipNothing(a);
    SkipNothing(o);
    SkipNothing(list);
    SkipNothing(record);
    assert list[1..] == a && record[1..] == o && a[1..] == rest && o[1..] == rest;
  }

  lemma {:induction false} ParsePlain(v: Value, rest: Text)
    requires Clean(v) && Ends(rest)
    ensures ParseValue(Plain(v) + rest) == Done(v, rest)
    decreases v, 1
  {
    hide ParseValue, ParseItems, ParseMembers, NumberText, Join;
    match v
    case Null => ParseLiteral(v, rest);
    case Bool(_) => ParseLiteral(v, rest);
    case Number(n) => ParseNumber(n, rest);
    case Str(s) => ParseQuoted(s, rest);
    case Arr(items) =>
      if |items| > 0 { ParsePlainItems(items, rest); }
      ParsePlainArray(items, rest);
    case Obj(members) =>
      if |members| > 0 { ParsePlainMembers(members, rest); }
      ParsePlainObject(members, rest);
  }

  lemma ParsePlainArray(items: seq<Value>, rest: Text)
    requires Clean(Arr(items))
    requires |items| > 0 ==> ParseItems(Join(PlainItems(items)) + [CLOSE_BRACKET] + rest) == Done(items, rest)
    ensures ParseValue(Plain(Arr(items)) + rest) == Done(Arr(items), rest)
  {
    hide ParseValue, ParseItems, Join;
    var tail := [CLOSE_BRACKET] + rest;
    var inner := Join(PlainItems(items)) + tail;
    assert Plain(Arr(items)) + rest == [OPEN_BRACKET] + inner;
    if |items| == 0 {
      assert Join([]) == [] by { JoinNone(); }
      assert inner == tail;
      ParseEmpty(rest);
    } else {
      assert inner == Join(PlainItems(items)) + [CLOSE_BRACKET] + rest;
      ItemsHead(items, tail);
      ParseArray(inner, items, rest);
    }
  }

  lemma JoinNone()
    ensures Join([]) == []
  {
  }

  lemma ParsePlainObject(members: seq<Keyed<Value>>, rest: Text)
    requires DistinctKeys(members)
    requires |members| > 0 ==>
      ParseMembers(Join(Fields(PlainMembers(members))) + [CLOSE_BRACE] + rest) == Done(members, rest)
    ensures ParseValue(Plain(Obj(members)) + rest) == Done(Obj(members), rest)
  {
    hide ParseValue, ParseMembers, Join, Escape;
    var tail := [CLOSE_BRACE] + rest;
    var inner := Join(Fields(PlainMembers(members))) + tail;
    assert Plain(Obj(members)) + rest == [OPEN_BRACE] + inner;
    if |members| == 0 {
      assert Fields(PlainMembers(members)) == [];
      JoinNone();
      assert inner == tail;
      ParseEmpty(rest);
    } else {
      assert inner == Join(Fields(PlainMembers(members))) + [CLOSE_BRACE] + rest;
      MembersText(members, rest);
      assert inner[0] == QUOTE;
      ParseObject(inner, members, rest);
      CollectDistinct(members);
    }
  }

  lemma JoinHead(parts: seq<Text>, tail: Text)
    requires |parts| > 0 && |parts[0]| > 0
    ensures |Join(parts) + tail| > 0 && (Join(parts) + tail)[0] == parts[0][0]
  {
  }

  lemma ItemsHead(items: seq<Value>, tail: Text)
    requires |items| > 0 && Clean(items[0])
    ensures |Join(PlainItems(items)) + tail| > 0
    ensures !IsSpace((Join(PlainItems(items)) + tail)[0])
    ensures (Join(PlainItems(items)) + tail)[0] != CLOSE_BRACKET
  {
    hide Plain, Join, Clean;
    PlainHead(items[0]);
    var parts := PlainItems(items);
    assert parts[0] == Plain(items[0]);
    JoinHead(parts, tail);
    assert (Join(parts) + tail)[0] == Plain(items[0])[0];
  }

  lemma {:induction false} ParsePlainItems(items: seq<Value>, rest: Text)
    requires |items| > 0 && forall i :: 0 <= i < |items| ==> Clean(items[i])
    ensures ParseItems(Join(PlainItems(items)) + [CLOSE_BRACKET] + rest) == Done(items, rest)
    decreases items, 0
  {
    var t := Join(PlainItems(items)) + [CLOSE_BRACKET] + rest;
    var first := Plain(items[0]);
    if |items| == 1 {
      var after := [CLOSE_BRACKET] + rest;
      assert t == first + after;
      ParsePlain(items[0], after);
      SkipNothing(after);
      assert after[1..] == rest;
      assert items == [items[0]];
    } else {
      var tail := Join(PlainItems(items[1..])) + [CLOSE_BRACKET] + rest;
      var after := [COMMA] + tail;
      assert t == first + after;
      ParsePlain(items[0], after);
      SkipNothing(after);
      assert after[1..] == tail;
      ParsePlainItems(items[1..], rest);
      assert items == [items[0]] + items[1..];
    }
  }

  /** One property and what follows it. */
  lemma ParseProperty(key: Text, v: Value, colon: Text, after: Text)
    requires colon == [COLON] + (Plain(v) + after)
    requires ParseValue(Plain(v) + after) == Done(v, after) && |after| > 0 && !IsSpace(after[0])
    ensures var t := [QUOTE] + (Escape(key) + [QUOTE] + colon);
      && (after[0] == CLOSE_BRACE ==> ParseMembers(t) == Done([Keyed(key, v)], after[1..]))
      && (after[0] == COMMA && ParseMembers(after[1..]).Done? ==>
            ParseMembers(t) == Done([Keyed(key, v)] + ParseMembers(after[1..]).value, ParseMembers(after[1..]).rest))
  {
    hide ParseValue, ParseString, Escape;
    var t := [QUOTE] + (Escape(key) + [QUOTE] + colon);
    SkipNothing(t);
    assert t[1..] == Escape(key) + [QUOTE] + colon;
    ParseEscaped(key, colon);
    SkipNothing(colon);
    assert colon[1..] == Plain(v) + after;
    SkipNothing(after);
  }

  lemma MembersText(members: seq<Keyed<Value>>, rest: Text)
    requires |members| > 0
    ensures var key, v := members[0].key, members[0].value;
      var after := if |members| == 1 then [CLOSE_BRACE] + rest
                   else [COMMA] + (Join(Fields(PlainMembers(members[1..]))) + [CLOSE_BRACE] + rest);
      Join(Fields(PlainMembers(members))) + [CLOSE_BRACE] + rest ==
        [QUOTE] + (Escape(key) + [QUOTE] + ([COLON] + (Plain(v) + after)))
  {
    hide Join, Plain, Escape;
    var key, v := members[0].key, members[0].value;
    var first := Quote(key) + [COLON] + Plain(v);
    var others := Fields(PlainMembers(members[1..]));
    FieldsStep(members);
    JoinStep(first, others);
    hide PlainMembers, Fields;
    Reassociate(Escape(key), Plain(v), Join(others), rest, |others| == 0);
  }

  lemma Reassociate(key: Text, value: Text, others: Text, rest: Text, last: bool)
    ensures var first := [QUOTE] + key + [QUOTE] + [COLON] + value;
      var after := if last then [CLOSE_BRACE] + rest else [COMMA] + (others + [CLOSE_BRACE] + rest);
      (if last then first else first + [COMMA] + others) + [CLOSE_BRACE] + rest ==
        [QUOTE] + (key + [QUOTE] + ([COLON] + (value + after)))
  {
  }

  lemma JoinStep(first: Text, others: seq<Text>)
    ensures Join([first] + others) == if |others| == 0 then first else first + [COMMA] + Join(others)
  {
    assert ([first] + others)[1..] == others;
  }

  lemma FieldsStep(members: seq<Keyed<Value>>)
    requires |members| > 0
    ensures Fields(PlainMembers(members)) ==
      [Quote(members[0].key) + [COLON] + Plain(members[0].value)] + Fields(PlainMembers(members[1..]))
    ensures |Fields(PlainMembers(members[1..]))| == |members| - 1
  {
    hide PlainMembers, Plain, Quote;
    var plain, others := PlainMembers(members), PlainMembers(members[1..]);
    assert forall i :: 0 <= i < |others| ==> others[i] == plain[i + 1];
  }

  /** What follows the first property. */
  function AfterFirst(members: seq<Keyed<Value>>, rest: Text): Text
    requires |members| > 0
  {
    if |members| == 1 then [CLOSE_BRACE] + rest
    else [COMMA] + (Join(Fields(PlainMembers(members[1..]))) + [CLOSE_BRACE] + rest)
  }

  lemma AfterFirstShape(members: seq<Keyed<Value>>, rest: Text)
    requires |members| > 0
    ensures var after := AfterFirst(members, rest);
      && |after| > 0 && !IsSpace(after[0]) && Ends(after)
      && (|members| == 1 ==> after[0] == CLOSE_BRACE && after[1..] == rest && members == [members[0]])
      && (|members| > 1 ==> after[0] == COMMA && members == [members[0]] + members[1..])
      && (|members| > 1 ==> after[1..] == Join(Fields(PlainMembers(members[1..]))) + [CLOSE_BRACE] + rest)
  {
    hide Join, Fields, PlainMembers;
  }

  lemma {:induction false} ParsePlainMembers(members: seq<Keyed<Value>>, rest: Text)
    requires |members| > 0 && forall i :: 0 <= i < |members| ==> Clean(members[i].value)
    ensures ParseMembers(Join(Fields(PlainMembers(members))) + [CLOSE_BRACE] + rest) == Done(members, rest)
    decreases members, 0
  {
    hide ParseMembers, ParseValue, Fields, Plain, PlainMembers, Join, AfterFirst, Ends, IsSpace, Escape;
    var key, v, after := members[0].key, members[0].value, AfterFirst(members, rest);
    assert Join(Fields(PlainMembers(members))) + [CLOSE_BRACE] + rest ==
      [QUOTE] + (Escape(key) + [QUOTE] + ([COLON] + (Plain(v) + after))) by {
      MembersText(members, rest);
      AfterFirstText(members, rest);
    }
    AfterFirstShape(members, rest);
    assert v < members[0];
    ParsePlain(v, after);
    ParseProperty(key, v, [COLON] + (Plain(v) + after), after);
    if |members| > 1 { ParsePlainMembers(members[1..], rest); }
  }

  lemma AfterFirstText(members: seq<Keyed<Value>>, rest: Text)
    requires |members| > 0
    ensures AfterFirst(members, rest) ==
      if |members| == 1 then [CLOSE_BRACE] + rest
      else [COMMA] + (Join(Fields(PlainMembers(members[1..]))) + [CLOSE_BRACE] + rest)
  {
  }
}
