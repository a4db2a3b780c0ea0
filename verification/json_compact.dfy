/** Canonical JSON is compact: there is no white space but inside strings. */
module JsonCompact {
  import opened Json
  import opened JsonRoundTrip
  import opened JsonCanonical

  /** Where a reader of a JSON text is. */
  datatype Place = Outside | Inside | Escaping

  function Reading(place: Place, u: Unit): Place {
    match place
    case Outside => if u == QUOTE then Inside else Outside
    case Inside => if u == QUOTE then Outside else if u == BACKSLASH then Escaping else Inside
    case Escaping => Inside
  }

  function After(place: Place, t: Text): Place {
    if |t| == 0 then place else Reading(After(place, t[..|t| - 1]), t[|t| - 1])
  }

  /** The text leads back to where it started and has no white space outside strings. */
  ghost predicate Tight(place: Place, t: Text) {
    && After(place, t) == place
    && forall i :: 0 <= i < |t| && IsSpace(t[i]) ==> After(place, t[..i]) != Outside
  }

  lemma {:induction false} AfterConcat(place: Place, a: Text, b: Text)
    ensures After(place, a + b) == After(After(place, a), b)
  {
    if |b| == 0 {
      assert a + b == a;
    } else {
      var n := |b| - 1;
      AfterConcat(place, a, b[..n]);
      assert (a + b)[..|a + b| - 1] == a + b[..n];
    }
  }

  lemma TightConcat(place: Place, a: Text, b: Text)
    requires Tight(place, a) && Tight(place, b)
    ensures Tight(place, a + b)
  {
    hide After;
    AfterConcat(place, a, b);
    var t := a + b;
    forall i | 0 <= i < |t| && IsSpace(t[i]) ensures After(place, t[..i]) != Outside {
      if i < |a| {
        assert t[..i] == a[..i];
      } else {
        assert t[..i] == a + b[..i - |a|];
        AfterConcat(place, a, b[..i - |a|]);
      }
    }
  }

  lemma TightConcat3(place: Place, a: Text, b: Text, c: Text)
    requires Tight(place, a) && Tight(place, b) && Tight(place, c)
    ensures Tight(place, a + b + c)
  {
    hide Tight;
    TightConcat(place, a, b);
    TightConcat(place, a + b, c);
  }

  // Strings ------------------------------------------------------------------------------------

  lemma UnitTight(u: Unit)
    requires u != QUOTE && u != BACKSLASH
    ensures Tight(Inside, [u])
  {
    assert [u][..0] == [];
  }

  lemma PairTight(u: Unit)
    ensures Tight(Inside, [BACKSLASH, u])
  {
    assert [BACKSLASH, u][..1] == [BACKSLASH] && [BACKSLASH][..0] == [];
    assert After(Inside, [BACKSLASH]) == Escaping;
  }

  lemma HexTight(u: Unit)
    ensures Tight(Inside, HexEscape(u))
  {
    hide Tight;
    var t := HexEscape(u);
    PairTight(117);
    UnitTight(t[2]);
    UnitTight(t[3]);
    UnitTight(t[4]);
    UnitTight(t[5]);
    TightConcat3(Inside, [BACKSLASH, 117], [t[2]], [t[3]]);
    TightConcat3(Inside, [BACKSLASH, 117] + [t[2]] + [t[3]], [t[4]], [t[5]]);
    assert t == [BACKSLASH, 117] + [t[2]] + [t[3]] + [t[4]] + [t[5]];
  }

  lemma EscapeUnitTight(u: Unit)
    ensures Tight(Inside, EscapeUnit(u))
  {
    hide Tight, HexEscape;
    HexTight(u);
    if |EscapeUnit(u)| == 2 { PairTight(EscapeUnit(u)[1]); }
    if EscapeUnit(u) == [u] { UnitTight(u); }
  }

  lemma {:induction false} EscapeTight(s: Text)
    ensures Tight(Inside, Escape(s))
    decreases |s|
  {
    if |s| > 0 {
      hide Tight, EscapeUnit;
      if StartsPair(s) {
        EscapeTight(s[2..]);
        EscapePair(s);
        UnitTight(s[0]);
        UnitTight(s[1]);
        TightConcat3(Inside, [s[0]], [s[1]], Escape(s[2..]));
        assert [s[0], s[1]] == [s[0]] + [s[1]];
      } else {
        EscapeTight(s[1..]);
        EscapeFirst(s);
        EscapeUnitTight(s[0]);
        TightConcat(Inside, EscapeUnit(s[0]), Escape(s[1..]));
      }
    }
  }

  lemma QuoteTight(s: Text)
    ensures Tight(Outside, Quote(s))
  {
    EscapeTight(s);
    var e, t := Escape(s), Quote(s);
    hide Escape;
    assert After(Outside, [QUOTE]) == Inside by { assert [QUOTE][..0] == [] && Reading(Outside, QUOTE) == Inside; }
    AfterConcat(Outside, [QUOTE], e);
    assert t[..|t| - 1] == [QUOTE] + e && Reading(Inside, QUOTE) == Outside;
    forall i | 0 <= i < |t| && IsSpace(t[i]) ensures After(Outside, t[..i]) != Outside {
      assert t[..i] == [QUOTE] + e[..i - 1];
      AfterConcat(Outside, [QUOTE], e[..i - 1]);
    }
  }

  // Values -------------------------------------------------------------------------------------

  ghost predicate Solid(t: Text) {
    forall i :: 0 <= i < |t| ==> !IsSpace(t[i]) && t[i] != QUOTE
  }

  lemma {:induction false} SolidTight(t: Text)
    requires Solid(t)
    ensures Tight(Outside, t)
  {
    if |t| > 0 { SolidTight(t[..|t| - 1]); }
  }

  lemma {:induction false} JoinTight(parts: seq<Text>)
    requires forall i :: 0 <= i < |parts| ==> Tight(Outside, parts[i])
    ensures Tight(Outside, Join(parts))
  {
    if |parts| > 1 {
      hide Tight;
      JoinTight(parts[1..]);
      SolidTight([COMMA]);
      TightConcat3(Outside, parts[0], [COMMA], Join(parts[1..]));
    }
  }

  lemma LiteralsTight()
    ensures Tight(Outside, NULL_TEXT) && Tight(Outside, TRUE_TEXT) && Tight(Outside, FALSE_TEXT)
    ensures Tight(Outside, [COLON]) && Tight(Outside, [OPEN_BRACKET]) && Tight(Outside, [CLOSE_BRACKET])
    ensures Tight(Outside, [OPEN_BRACE]) && Tight(Outside, [CLOSE_BRACE])
  {
    hide Tight;
    SolidTight(NULL_TEXT);
    SolidTight(TRUE_TEXT);
    SolidTight(FALSE_TEXT);
    SolidTight([COLON]);
    SolidTight([OPEN_BRACKET]);
    SolidTight([CLOSE_BRACKET]);
    SolidTight([OPEN_BRACE]);
    SolidTight([CLOSE_BRACE]);
  }

  lemma NumberTight(t: Text)
    requires NumberText(t)
    ensures Tight(Outside, t)
  {
    hide Tight;
    forall i | 0 <= i < |t| ensures !IsSpace(t[i]) && t[i] != QUOTE { assert IsNumberUnit(t[i]); }
    SolidTight(t);
  }

  lemma {:induction false} PlainTight(v: Value)
    requires Clean(v)
    ensures Tight(Outside, Plain(v))
  {
    hide Tight, Join, Quote, NumberText;
    LiteralsTight();
    match v
    case Number(t) => NumberTight(t);
    case Str(s) => QuoteTight(s);
    case Arr(items) =>
      forall i | 0 <= i < |items| ensures Tight(Outside, PlainItems(items)[i]) { PlainTight(items[i]); }
      JoinTight(PlainItems(items));
      TightConcat3(Outside, [OPEN_BRACKET], Join(PlainItems(items)), [CLOSE_BRACKET]);
    case Obj(members) =>
      var fields := Fields(PlainMembers(members));
      forall i | 0 <= i < |members| ensures Tight(Outside, fields[i]) {
        assert members[i].value < members[i];
        PlainTight(members[i].value);
        QuoteTight(members[i].key);
        TightConcat3(Outside, Quote(members[i].key), [COLON], Plain(members[i].value));
      }
      JoinTight(fields);
      TightConcat3(Outside, [OPEN_BRACE], Join(fields), [CLOSE_BRACE]);
    case _ =>
  }

  /** Canonical JSON has white space only inside strings. */
  lemma {:induction false} PrintIsCompact(v: Value)
    requires WellFormed(v)
    ensures forall i :: 0 <= i < |Print(v)| && IsSpace(Print(v)[i]) ==> After(Outside, Print(v)[..i]) != Outside
  {
    assert Tight(Outside, Print(v)) by {
      hide Tight, Plain, Norm, Clean;
      PrintsNorm(v);
      NormIsNormal(v);
      NormalIsClean(Norm(v));
      PlainTight(Norm(v));
    }
    hide Print, After;
  }
}
