/** Which escape each code unit of a string gets (QuoteJSONString of the ECMAScript specification): the
    short one where there is one, lower-case hexadecimal for other controls and lone surrogates, and
    none otherwise. */
module JsonEscape {
  import opened Json

  function HexDigitValue(u: Unit): int { if u >= 97 then u as int - 87 else u as int - 48 }

  /** The value of four hexadecimal digits. */
  function HexValue(t: Text): int
    requires |t| == 4
  {
    HexDigitValue(t[0]) * 4096 + HexDigitValue(t[1]) * 256 + HexDigitValue(t[2]) * 16 + HexDigitValue(t[3])
  }

  predicate LowerHex(u: Unit) { 48 <= u <= 57 || 97 <= u <= 102 }

  /** The letter of a short escape. */
  function Short(u: Unit): string {
    match u
    case 8 => "b"
    case 9 => "t"
    case 10 => "n"
    case 12 => "f"
    case 13 => "r"
    case 34 => "\""
    case 92 => "\\"
    case _ => ""
  }

  lemma DigitBack(d: int)
    requires 0 <= d < 16
    ensures HexDigitValue(HexDigit(d)) == d && LowerHex(HexDigit(d))
  {
  }

  lemma SplitHex(u: int)
    requires 0 <= u < 0x1_0000
    ensures 0 <= u / 0x1000 < 16
    ensures u / 0x1000 * 4096 + u / 0x100 % 16 * 256 + u / 0x10 % 16 * 16 + u % 16 == u
  {
  }

  lemma HexOf(u: Unit)
    ensures var t := HexEscape(u);
      |t| == 6 && t[..2] == Ascii("\\u") && (forall i :: 2 <= i < 6 ==> LowerHex(t[i])) && HexValue(t[2..]) == u
  {
    hide HexDigit, HexDigitValue, LowerHex;
    SplitHex(u);
    DigitBack(u / 0x1000);
    DigitBack(u / 0x100 % 16);
    DigitBack(u / 0x10 % 16);
    DigitBack(u % 16);
  }

  /** The escape of one unit that is not part of a surrogate pair. */
  lemma {:induction false} EscapeOfUnit(u: Unit)
    ensures var t := Escape([u]);
      if Short(u) != "" then t == Ascii("\\" + Short(u))
      else if u < 32 || 0xD800 <= u < 0xE000 then
        && |t| == 6 && t[..2] == Ascii("\\u") && (forall i :: 2 <= i < 6 ==> LowerHex(t[i])) && HexValue(t[2..]) == u
      else t == [u]
  {
    HexOf(u);
    assert [u][1..] == [];
    assert Escape([u]) == EscapeUnit(u) + [] == EscapeUnit(u);
    hide HexEscape, HexValue;
  }

  /** A surrogate pair stands as it is, and everything else is escaped unit by unit. */
  lemma {:induction false} EscapeInPieces(s: Text)
    requires |s| > 0
    ensures if |s| > 1 && 0xD800 <= s[0] < 0xDC00 <= s[1] < 0xE000 then Escape(s) == [s[0], s[1]] + Escape(s[2..])
            else Escape(s) == Escape([s[0]]) + Escape(s[1..])
  {
    assert [s[0]][1..] == [];
    assert Escape([s[0]]) == EscapeUnit(s[0]) + [];
    hide EscapeUnit;
    if |s| > 1 && 0xD800 <= s[0] < 0xDC00 <= s[1] < 0xE000 { assert s[..2] == [s[0], s[1]]; }
  }
}
