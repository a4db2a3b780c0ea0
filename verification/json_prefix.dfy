/** Reading a text that is cut short: what a prefix of a printed object parses to, if anything. */
module JsonPrefix {
  import opened Contracts
  import opened Json
  import opened JsonRoundTrip

  // More text after a parsed value changes nothing ----------------------------------------------

  lemma {:induction false} SkipSpaceMore(t: Text, q: Text)
    requires SkipSpace(t) != []
    ensures SkipSpace(t + q) == SkipSpace(t) + q
  {
    if IsSpace(t[0]) {
      assert (t + q)[1..] == t[1..] + q;
      SkipSpaceMore(t[1..], q);
    }
  }

  lemma ParseHexMore(t: Text, q: Text)
    requires ParseHex(t).Done?
    ensures ParseHex(t + q) == Done(ParseHex(t).value, ParseHex(t).rest + q)
  {
    hide HexValue;
    assert (t + q)[4..] == t[4..] + q;
  }

  lemma ParseUnitMore(t: Text, q: Text)
    requires |t| > 0 && ParseUnit(t).Done?
    ensures ParseUnit(t + q) == Done(ParseUnit(t).value, ParseUnit(t).rest + q)
  {
    hide ParseHex;
    assert (t + q)[1..] == t[1..] + q;
    if |t| > 1 {
      assert (t + q)[2..] == t[2..] + q;
      if t[0] == BACKSLASH && t[1] == 117 { ParseHexMore(t[2..], q); }
    }
  }

  lemma {:induction false} ParseStringMore(t: Text, q: Text)
    requires ParseString(t).Done?
    ensures ParseString(t + q) == Done(ParseString(t).value, ParseString(t).rest + q)
    decreases |t|
  {
    hide ParseUnit;
    if t[0] == QUOTE {
      assert (t + q)[1..] == t[1..] + q;
    } else {
      ParseUnitMore(t, q);
      ParseStringMore(ParseUnit(t).rest, q);
    }
  }

  lemma {:induction false} NumberRunMore(t: Text, q: Text)
    requires NumberRun(t) < |t|
    ensures NumberRun(t + q) == NumberRun(t)
  {
    if IsNumberUnit(t[0]) {
      assert (t + q)[1..] == t[1..] + q;
      NumberRunMore(t[1..], q);
    }
  }

  /** A number at the very end of the text is the one thing that more text can change. */
  predicate Settled(r: Parsed<Value>) {
    r.Done? && (r.value.Number? ==> r.rest != [])
  }

  lemma ParseQuotedMore(t: Text, q: Text)
    requires |t| > 0 && t[0] == QUOTE && ParseValue(t).Done?
    ensures ParseValue(t + q) == Done(ParseValue(t).value, ParseValue(t).rest + q)
  {
    hide ParseString, ParseItems, ParseMembers, NumberText;
    var all := t + q;
    SkipNothing(t);
    SkipNothing(all);
    assert all[0] == t[0] && all[1..] == t[1..] + q;
    ParseStringMore(t[1..], q);
  }

  predicate StartsLiteral(t: Text) {
    NULL_TEXT <= t || TRUE_TEXT <= t || FALSE_TEXT <= t
  }

  lemma ParseLiteralMore(t: Text, q: Text)
    requires StartsLiteral(t)
    ensures ParseValue(t).Done? && ParseValue(t + q) == Done(ParseValue(t).value, ParseValue(t).rest + q)
  {
    hide ParseString, ParseItems, ParseMembers, NumberText, NumberRun;
    var all := t + q;
    assert t[0] == 110 || t[0] == 116 || t[0] == 102;
    SkipNothing(t);
    SkipNothing(all);
    assert all[0] == t[0] && all[4..] == t[4..] + q;
    if t[0] == 102 { assert all[5..] == t[5..] + q; }
  }

  lemma ParseNumberMore(t: Text, q: Text)
    requires |t| > 0 && IsNumberUnit(t[0]) && Settled(ParseValue(t))
    ensures ParseValue(t + q) == Done(ParseValue(t).value, ParseValue(t).rest + q)
  {
    hide ParseString, ParseItems, ParseMembers, NumberText, NumberRun;
    var all := t + q;
    SkipNothing(t);
    SkipNothing(all);
    assert all[0] == t[0];
    var n := NumberRun(t);
    assert ParseValue(t) == Done(Number(t[..n]), t[n..]);
    NumberRunMore(t, q);
    assert all[..n] == t[..n] && all[n..] == t[n..] + q;
  }

  /** What a value can start with. */
  lemma ScalarHead(t: Text)
    requires |t| > 0 && !IsSpace(t[0]) && t[0] != OPEN_BRACKET && t[0] != OPEN_BRACE && ParseValue(t).Done?
    ensures t[0] == QUOTE || StartsLiteral(t) || IsNumberUnit(t[0])
  {
    hide ParseString, ParseItems, ParseMembers, NumberText;
    SkipNothing(t);
    if t[0] != QUOTE && !StartsLiteral(t) { NumberHead(t[..NumberRun(t)]); }
  }

  lemma ParseScalarMore(t: Text, q: Text)
    requires |t| > 0 && !IsSpace(t[0]) && t[0] != OPEN_BRACKET && t[0] != OPEN_BRACE && Settled(ParseValue(t))
    ensures ParseValue(t + q) == Done(ParseValue(t).value, ParseValue(t).rest + q)
  {
    hide ParseValue, StartsLiteral;
    ScalarHead(t);
    if t[0] == QUOTE { ParseQuotedMore(t, q); }
    else if StartsLiteral(t) { ParseLiteralMore(t, q); }
    else { ParseNumberMore(t, q); }
  }

  lemma NumberHead(t: Text)
    requires NumberText(t)
    ensures IsNumberUnit(t[0])
  {
  }

  lemma {:induction false} ParseValueMore(text: Text, q: Text)
    requires Settled(ParseValue(text))
    ensures ParseValue(text + q) == Done(ParseValue(text).value, ParseValue(text).rest + q)
    decreases |text|, 1
  {
    var t := SkipSpace(text);
    SkipSpaceMore(text, q);
    SkipTwice(text);
    SkipNothing(t + q);
    assert ParseValue(text) == ParseValue(t) &&
      ParseValue(text + q) == ParseValue(t + q) by { SameAfterSpace(text, q); }
    hide ParseValue, ParseItems, ParseMembers;
    if t[0] == OPEN_BRACKET { ParseArrayMore(t, q); }
    else if t[0] == OPEN_BRACE { ParseObjectMore(t, q); }
    else { ParseScalarMore(t, q); }
  }

  lemma {:induction false} SkipTwice(text: Text)
    ensures SkipSpace(SkipSpace(text)) == SkipSpace(text)
    ensures SkipSpace(text) != [] ==> !IsSpace(SkipSpace(text)[0])
    ensures |SkipSpace(text)| <= |text|
  {
    if |text| > 0 && IsSpace(text[0]) { SkipTwice(text[1..]); }
  }

  lemma ParseSkipped(text: Text)
    ensures ParseValue(text) == ParseValue(SkipSpace(text))
  {
    hide ParseItems, ParseMembers, ParseString, NumberText, NumberRun, SkipSpace;
    SkipTwice(text);
  }

  lemma SameAfterSpace(text: Text, q: Text)
    requires SkipSpace(text) != []
    ensures ParseValue(text) == ParseValue(SkipSpace(text))
    ensures ParseValue(text + q) == ParseValue(SkipSpace(text) + q)
  {
    hide ParseValue;
    SkipTwice(text);
    SkipSpaceMore(text, q);
    SkipNothing(SkipSpace(text) + q);
    ParseSkipped(text);
    ParseSkipped(text + q);
  }

  lemma {:induction false} ParseArrayMore(t: Text, q: Text)
    requires |t| > 0 && t[0] == OPEN_BRACKET && ParseValue(t).Done?
    ensures ParseValue(t + q) == Done(ParseValue(t).value, ParseValue(t).rest + q)
    decreases |t|, 0
  {
    hide ParseItems, ParseMembers, NumberText;
    var all := t + q;
    SkipNothing(t);
    SkipNothing(all);
    assert all[0] == t[0] && all[1..] == t[1..] + q;
    assert SkipSpace(t[1..]) != [] by { ItemsNotEmpty(t[1..]); }
    SkipSpaceMore(t[1..], q);
    var inner := SkipSpace(t[1..]);
    if inner[0] == CLOSE_BRACKET {
      assert (inner + q)[1..] == inner[1..] + q;
    } else {
      ParseItemsMore(t[1..], q);
    }
  }

  lemma ValueNotEmpty(t: Text)
    requires ParseValue(t).Done?
    ensures SkipSpace(t) != []
  {
  }

  lemma ItemsNotEmpty(t: Text)
    ensures ParseItems(t).Done? ==> SkipSpace(t) != []
    ensures ParseMembers(t).Done? ==> SkipSpace(t) != []
  {
    hide ParseValue;
    if ParseItems(t).Done? { ValueNotEmpty(t); }
  }

  lemma {:induction false} ParseObjectMore(t: Text, q: Text)
    requires |t| > 0 && t[0] == OPEN_BRACE && ParseValue(t).Done?
    ensures ParseValue(t + q) == Done(ParseValue(t).value, ParseValue(t).rest + q)
    decreases |t|, 0
  {
    hide ParseItems, ParseMembers, NumberText;
    var all := t + q;
    SkipNothing(t);
    SkipNothing(all);
    assert all[0] == t[0] && all[1..] == t[1..] + q;
    assert SkipSpace(t[1..]) != [] by { ItemsNotEmpty(t[1..]); }
    SkipSpaceMore(t[1..], q);
    var inner := SkipSpace(t[1..]);
    if inner[0] == CLOSE_BRACE {
      assert (inner + q)[1..] == inner[1..] + q;
    } else {
      ParseMembersMore(t[1..], q);
    }
  }

  lemma {:induction false} ParseItemsMore(t: Text, q: Text)
    requires ParseItems(t).Done?
    ensures ParseItems(t + q) == Done(ParseItems(t).value, ParseItems(t).rest + q)
    decreases |t|, 2
  {
    hide ParseValue;
    var after := SkipSpace(ParseValue(t).rest);
    assert ParseValue(t).rest != [];
    ParseValueMore(t, q);
    SkipSpaceMore(ParseValue(t).rest, q);
    assert (after + q)[0] == after[0] && (after + q)[1..] == after[1..] + q;
    if after[0] == COMMA { ParseItemsMore(after[1..], q); }
  }

  lemma {:induction false} ParseMembersMore(text: Text, q: Text)
    requires ParseMembers(text).Done?
    ensures ParseMembers(text + q) == Done(ParseMembers(text).value, ParseMembers(text).rest + q)
    decreases |text|, 2
  {
    hide ParseValue, ParseString;
    var t := SkipSpace(text);
    SkipSpaceMore(text, q);
    assert (t + q)[0] == t[0] && (t + q)[1..] == t[1..] + q;
    ParseStringMore(t[1..], q);
    var rest := ParseString(t[1..]).rest;
    var colon := SkipSpace(rest);
    SkipSpaceMore(rest, q);
    assert (colon + q)[0] == colon[0] && (colon + q)[1..] == colon[1..] + q;
    assert ParseValue(colon[1..]).rest != [];
    ParseValueMore(colon[1..], q);
    var after := SkipSpace(ParseValue(colon[1..]).rest);
    SkipSpaceMore(ParseValue(colon[1..]).rest, q);
    assert (after + q)[0] == after[0] && (after + q)[1..] == after[1..] + q;
    if after[0] == COMMA { ParseMembersMore(after[1..], q); }
  }

  /** A prefix of a printed object and its newline either does not parse or parses to that object. */
  lemma {:induction false} PrefixOfObject(members: seq<Keyed<Value>>, n: nat)
    requires Clean(Obj(members)) && n <= |Plain(Obj(members)) + [10]|
    ensures var p := (Plain(Obj(members)) + [10])[..n]; Parse(p) == None || Parse(p) == Some(Obj(members))
  {
    var full := Plain(Obj(members)) + [10];
    var p, q := full[..n], full[n..];
    assert full == p + q;
    ParsePlain(Obj(members), [10]);
    if Parse(p).Some? {
      ObjectHead(members, p, q);
      hide ParseValue, Plain;
      ParseValueMore(p, q);
    }
  }

  /** What such a prefix parses to is not a number. */
  lemma ObjectHead(members: seq<Keyed<Value>>, p: Text, q: Text)
    requires Plain(Obj(members)) + [10] == p + q && ParseValue(p).Done?
    ensures Settled(ParseValue(p))
  {
    assert |p| > 0;
    assert p[0] == (p + q)[0] == OPEN_BRACE;
    hide ParseMembers, Join, Fields, PlainMembers;
    SkipNothing(p);
  }
}
