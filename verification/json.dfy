/** Canonical JSON: the printer, and the grammar of RFC 8259 (sections 2 to 7) as a parser. Text is
    a list of UTF-16 code units, as in JavaScript, and a number is kept as its own text. */
module Json {
  import opened Contracts
  import opened Order

  type Unit = u: int | 0 <= u < 0x1_0000

  type Text = seq<Unit>

  function Ascii(s: string): (t: Text)
    ensures |t| == |s|
  {
    seq(|s|, i requires 0 <= i < |s| => if s[i] < 128 as char then s[i] as int else 63)
  }

  datatype Keyed<+T> = Keyed(key: Text, value: T)

  /** A JavaScript value; an object lists its properties in insertion order. */
  datatype Value =
    | Undefined
    | Null
    | Bool(b: bool)
    | Number(number: Text)
    | Str(text: Text)
    | Arr(items: seq<Value>)
    | Obj(members: seq<Keyed<Value>>)

  const QUOTE: Unit := 34
  const COMMA: Unit := 44
  const COLON: Unit := 58
  const BACKSLASH: Unit := 92
  const OPEN_BRACKET: Unit := 91
  const CLOSE_BRACKET: Unit := 93
  const OPEN_BRACE: Unit := 123
  const CLOSE_BRACE: Unit := 125

  const NULL_TEXT: Text := [110, 117, 108, 108]
  const TRUE_TEXT: Text := [116, 114, 117, 101]
  const FALSE_TEXT: Text := [102, 97, 108, 115, 101]

  /** The value of the first property with this key. */
  function Lookup<T>(members: seq<Keyed<T>>, key: Text): Option<T> {
    if |members| == 0 then None
    else if members[0].key == key then Some(members[0].value)
    else Lookup(members[1..], key)
  }

  // Sorting by key -----------------------------------------------------------------------------

  predicate UnitBefore(u: Unit, v: Unit) { u < v }

  /** The order of Array.prototype.sort on strings: by code unit, a prefix first. */
  predicate Less(a: Text, b: Text) { LexLess(a, b, UnitBefore) }

  function Insert<T>(x: Keyed<T>, xs: seq<Keyed<T>>): seq<Keyed<T>> {
    if |xs| == 0 then [x]
    else if Less(xs[0].key, x.key) then [xs[0]] + Insert(x, xs[1..])
    else [x] + xs
  }

  function Sort<T>(xs: seq<Keyed<T>>): seq<Keyed<T>> {
    if |xs| == 0 then [] else Insert(xs[0], Sort(xs[1..]))
  }

  // Strings ------------------------------------------------------------------------------------

  predicate IsHigh(u: Unit) { 0xD800 <= u < 0xDC00 }

  predicate IsLow(u: Unit) { 0xDC00 <= u < 0xE000 }

  function HexDigit(d: int): Unit
    requires 0 <= d < 16
  {
    if d < 10 then 48 + d else 87 + d
  }

  function HexEscape(u: Unit): Text {
    [BACKSLASH, 117, HexDigit(u / 0x1000), HexDigit(u / 0x100 % 16), HexDigit(u / 0x10 % 16), HexDigit(u % 16)]
  }

  function EscapeUnit(u: Unit): Text {
    if u == QUOTE || u == BACKSLASH then [BACKSLASH, u]
    else if u == 8 then [BACKSLASH, 98]
    else if u == 9 then [BACKSLASH, 116]
    else if u == 10 then [BACKSLASH, 110]
    else if u == 12 then [BACKSLASH, 102]
    else if u == 13 then [BACKSLASH, 114]
    else if u < 32 || IsHigh(u) || IsLow(u) then HexEscape(u)
    else [u]
  }

  /** A surrogate pair is written as it is, a lone surrogate as an escape. */
  function Escape(s: Text): Text {
    if |s| == 0 then []
    else if |s| > 1 && IsHigh(s[0]) && IsLow(s[1]) then s[..2] + Escape(s[2..])
    else EscapeUnit(s[0]) + Escape(s[1..])
  }

  function Quote(s: Text): Text {
    [QUOTE] + Escape(s) + [QUOTE]
  }

  // Numbers ------------------------------------------------------------------------------------

  predicate IsDigit(u: Unit) { 48 <= u <= 57 }

  /** The number that digits write. */
  function DigitsValue(t: Text): int {
    if |t| == 0 then 0 else DigitsValue(t[..|t| - 1]) * 10 + (t[|t| - 1] as int - 48)
  }

  predicate IsNumberUnit(u: Unit) {
    IsDigit(u) || u == 43 || u == 45 || u == 46 || u == 69 || u == 101
  }

  function DropDigits(t: Text): Text {
    if |t| > 0 && IsDigit(t[0]) then DropDigits(t[1..]) else t
  }

  predicate ExponentText(t: Text) {
    |t| == 0 ||
    ((t[0] == 69 || t[0] == 101) &&
     var digits := if |t| > 1 && (t[1] == 43 || t[1] == 45) then t[2..] else t[1..];
     |digits| > 0 && IsDigit(digits[0]) && DropDigits(digits) == [])
  }

  predicate FractionText(t: Text) {
    if |t| > 0 && t[0] == 46 then |t| > 1 && IsDigit(t[1]) && ExponentText(DropDigits(t[1..]))
    else ExponentText(t)
  }

  /** [ minus ] int [ frac ] [ exp ] */
  predicate NumberText(t: Text) {
    && |t| > 0 && (forall i :: 0 <= i < |t| ==> IsNumberUnit(t[i]))
    && var unsigned := if t[0] == 45 then t[1..] else t;
       |unsigned| > 0 && IsDigit(unsigned[0]) &&
         FractionText(if unsigned[0] == 48 then unsigned[1..] else DropDigits(unsigned))
  }

  // The printer --------------------------------------------------------------------------------

  function Join(parts: seq<Text>): Text {
    if |parts| == 0 then [] else if |parts| == 1 then parts[0] else parts[0] + [COMMA] + Join(parts[1..])
  }

  function Fields(members: seq<Keyed<Text>>): seq<Text> {
    seq(|members|, i requires 0 <= i < |members| => Quote(members[i].key) + [COLON] + members[i].value)
  }

  /** canonicalJson. */
  function Print(v: Value): Text {
    match v
    case Undefined => NULL_TEXT
    case Null => NULL_TEXT
    case Bool(b) => if b then TRUE_TEXT else FALSE_TEXT
    case Number(t) => t
    case Str(s) => Quote(s)
    case Arr(items) => [OPEN_BRACKET] + Join(PrintItems(items)) + [CLOSE_BRACKET]
    case Obj(members) => [OPEN_BRACE] + Join(Fields(Sort(PrintMembers(members)))) + [CLOSE_BRACE]
  }

  function PrintItems(items: seq<Value>): seq<Text> {
    if |items| == 0 then [] else [Print(items[0])] + PrintItems(items[1..])
  }

  /** The defined properties, each with its value printed. */
  function PrintMembers(members: seq<Keyed<Value>>): seq<Keyed<Text>> {
    if |members| == 0 then []
    else if members[0].value == Undefined then PrintMembers(members[1..])
    else [Keyed(members[0].key, Print(members[0].value))] + PrintMembers(members[1..])
  }

  // The normal form ----------------------------------------------------------------------------

  /** The value with undefined properties dropped, other undefined values null and keys sorted. */
  function Norm(v: Value): Value {
    match v
    case Undefined => Null
    case Arr(items) => Arr(NormItems(items))
    case Obj(members) => Obj(Sort(NormMembers(members)))
    case _ => v
  }

  function NormItems(items: seq<Value>): seq<Value> {
    if |items| == 0 then [] else [Norm(items[0])] + NormItems(items[1..])
  }

  function NormMembers(members: seq<Keyed<Value>>): seq<Keyed<Value>> {
    if |members| == 0 then []
    else if members[0].value == Undefined then NormMembers(members[1..])
    else [Keyed(members[0].key, Norm(members[0].value))] + NormMembers(members[1..])
  }

  ghost predicate DistinctKeys<T>(members: seq<Keyed<T>>) {
    forall i, j :: 0 <= i < j < |members| ==> members[i].key != members[j].key
  }

  /** An object has each key once, and every number has a number's text. */
  ghost predicate WellFormed(v: Value) {
    match v
    case Number(t) => NumberText(t)
    case Arr(items) => forall i :: 0 <= i < |items| ==> WellFormed(items[i])
    case Obj(members) => DistinctKeys(members) && forall i :: 0 <= i < |members| ==> WellFormed(members[i].value)
    case _ => true
  }

  // The parser ---------------------------------------------------------------------------------

  datatype Parsed<+T> = Fail | Done(value: T, rest: Text)

  predicate IsSpace(u: Unit) { u == 32 || u == 9 || u == 10 || u == 13 }

  function SkipSpace(t: Text): (r: Text)
    ensures |r| <= |t|
  {
    if |t| > 0 && IsSpace(t[0]) then SkipSpace(t[1..]) else t
  }

  function HexValue(u: Unit): Option<nat> {
    if IsDigit(u) then Some(u - 48)
    else if 97 <= u <= 102 then Some(u - 87)
    else if 65 <= u <= 70 then Some(u - 55)
    else None
  }

  function ParseHex(t: Text): (r: Parsed<Unit>)
    ensures r.Done? ==> |r.rest| < |t|
  {
    if |t| < 4 then Fail else
      var a, b, c, d := HexValue(t[0]), HexValue(t[1]), HexValue(t[2]), HexValue(t[3]);
      if a.None? || b.None? || c.None? || d.None? || a.value > 15 || b.value > 15 || c.value > 15 ||
        d.value > 15 then Fail
      else Done(a.value * 0x1000 + b.value * 0x100 + c.value * 0x10 + d.value, t[4..])
  }

  /** One character of a string, after any escape. */
  function ParseUnit(t: Text): (r: Parsed<Unit>)
    requires |t| > 0
    ensures r.Done? ==> |r.rest| < |t|
  {
    if t[0] != BACKSLASH then (if t[0] < 32 then Fail else Done(t[0], t[1..]))
    else if |t| == 1 then Fail
    else if t[1] == QUOTE || t[1] == BACKSLASH || t[1] == 47 then Done(t[1], t[2..])
    else if t[1] == 98 then Done(8, t[2..])
    else if t[1] == 116 then Done(9, t[2..])
    else if t[1] == 110 then Done(10, t[2..])
    else if t[1] == 102 then Done(12, t[2..])
    else if t[1] == 114 then Done(13, t[2..])
    else if t[1] == 117 then ParseHex(t[2..])
    else Fail
  }

  /** The rest of a string after its opening quote. */
  function ParseString(t: Text): (r: Parsed<Text>)
    ensures r.Done? ==> |r.rest| < |t|
    decreases |t|
  {
    if |t| == 0 then Fail
    else if t[0] == QUOTE then Done([], t[1..])
    else
      match ParseUnit(t)
      case Fail => Fail
      case Done(u, rest) =>
        match ParseString(rest)
        case Fail => Fail
        case Done(s, rest) => Done([u] + s, rest)
  }

  function NumberRun(t: Text): (n: nat)
    ensures n <= |t| && (forall i :: 0 <= i < n ==> IsNumberUnit(t[i])) && (n < |t| ==> !IsNumberUnit(t[n]))
  {
    if |t| == 0 || !IsNumberUnit(t[0]) then 0 else 1 + NumberRun(t[1..])
  }

  /** JSON.parse keeps the place of a repeated key but takes its last value. */
  function Put(members: seq<Keyed<Value>>, m: Keyed<Value>): seq<Keyed<Value>> {
    if |members| == 0 then [m]
    else if members[0].key == m.key then [m] + members[1..]
    else [members[0]] + Put(members[1..], m)
  }

  function Collect(members: seq<Keyed<Value>>): seq<Keyed<Value>> {
    if |members| == 0 then [] else Put(Collect(members[..|members| - 1]), members[|members| - 1])
  }

  function ParseValue(text: Text): (r: Parsed<Value>)
    ensures r.Done? ==> |r.rest| < |text|
    decreases |text|, 1
  {
    var t := SkipSpace(text);
    if |t| == 0 then Fail
    else if t[0] == QUOTE then
      match ParseString(t[1..]) case Fail => Fail case Done(s, rest) => Done(Str(s), rest)
    else if t[0] == OPEN_BRACKET then
      var inner := SkipSpace(t[1..]);
      if |inner| > 0 && inner[0] == CLOSE_BRACKET then Done(Arr([]), inner[1..])
      else match ParseItems(t[1..]) case Fail => Fail case Done(items, rest) => Done(Arr(items), rest)
    else if t[0] == OPEN_BRACE then
      var inner := SkipSpace(t[1..]);
      if |inner| > 0 && inner[0] == CLOSE_BRACE then Done(Obj([]), inner[1..])
      else match ParseMembers(t[1..]) case Fail => Fail case Done(members, rest) => Done(Obj(Collect(members)), rest)
    else if NULL_TEXT <= t then Done(Null, t[4..])
    else if TRUE_TEXT <= t then Done(Bool(true), t[4..])
    else if FALSE_TEXT <= t then Done(Bool(false), t[5..])
    else
      var n := NumberRun(t);
      if NumberText(t[..n]) then Done(Number(t[..n]), t[n..]) else Fail
  }

  /** One or more values separated by commas, up to the closing bracket. */
  function ParseItems(t: Text): (r: Parsed<seq<Value>>)
    ensures r.Done? ==> |r.rest| < |t|
    decreases |t|, 2
  {
    match ParseValue(t)
    case Fail => Fail
    case Done(v, rest) =>
      var after := SkipSpace(rest);
      if |after| == 0 then Fail
      else if after[0] == CLOSE_BRACKET then Done([v], after[1..])
      else if after[0] == COMMA then
        match ParseItems(after[1..]) case Fail => Fail case Done(items, rest) => Done([v] + items, rest)
      else Fail
  }

  /** One or more properties separated by commas, up to the closing brace. */
  function ParseMembers(text: Text): (r: Parsed<seq<Keyed<Value>>>)
    ensures r.Done? ==> |r.rest| < |text|
    decreases |text|, 2
  {
    var t := SkipSpace(text);
    if |t| == 0 || t[0] != QUOTE then Fail
    else
      match ParseString(t[1..])
      case Fail => Fail
      case Done(key, rest) =>
        var colon := SkipSpace(rest);
        if |colon| == 0 || colon[0] != COLON then Fail
        else
          match ParseValue(colon[1..])
          case Fail => Fail
          case Done(v, rest) =>
            var after := SkipSpace(rest);
            if |after| == 0 then Fail
            else if after[0] == CLOSE_BRACE then Done([Keyed(key, v)], after[1..])
            else if after[0] == COMMA then
              match ParseMembers(after[1..])
              case Fail => Fail
              case Done(members, rest) => Done([Keyed(key, v)] + members, rest)
            else Fail
  }

  /** JSON.parse on a whole text. */
  function Parse(t: Text): Option<Value> {
    match ParseValue(t)
    case Fail => None
    case Done(v, rest) => if SkipSpace(rest) == [] then Some(v) else None
  }
}
