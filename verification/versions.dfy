/** Choosing a fresh publish version from the snapshots and from the versions that earlier
    attempts left inside their workflow keys. */
module Versions {
  import opened Contracts

  const MAX_SAFE_INTEGER: nat := 0x1F_FFFF_FFFF_FFFF

  const KEY_PREFIX := "local-projection:"

  /** A database cell of unknown type: a number, a text, or anything else. */
  datatype Cell = Number(number: int) | Text(text: string) | Other

  predicate IsVersion(n: int) {
    0 < n <= MAX_SAFE_INTEGER
  }

  // Decimal text ---------------------------------------------------------------------------

  predicate IsDigit(c: char) {
    '0' <= c <= '9'
  }

  function DigitValue(c: char): nat
    requires IsDigit(c)
  {
    c as nat - '0' as nat
  }

  function Decimal(n: nat): (s: string)
    ensures |s| > 0 && forall i :: 0 <= i < |s| ==> IsDigit(s[i])
    ensures DecimalValue(s) == n
  {
    var last := ['0' + (n % 10) as char];
    if n < 10 then last else Decimal(n / 10) + last
  }

  function DecimalValue(s: string): nat
    requires forall i :: 0 <= i < |s| ==> IsDigit(s[i])
  {
    if |s| == 0 then 0 else 10 * DecimalValue(s[..|s| - 1]) + DigitValue(s[|s| - 1])
  }

  /** Length of the longest run of digits at the front. */
  function DigitRun(s: string): (n: nat)
    ensures n <= |s| && forall i :: 0 <= i < n ==> IsDigit(s[i])
    ensures n < |s| ==> !IsDigit(s[n])
  {
    if |s| == 0 || !IsDigit(s[0]) then 0 else 1 + DigitRun(s[1..])
  }

  // Workflow keys --------------------------------------------------------------------------

  function WorkflowKey(version: nat, projectionId: string): string {
    KEY_PREFIX + Decimal(version) + ":" + projectionId
  }

  /** The version a workflow key carries, if it has the shape `local-projection:<digits>:...`
      and the number is a positive safe integer. */
  function KeyVersion(key: string): (v: Option<nat>)
    ensures v.Some? ==> IsVersion(v.value)
  {
    if !(KEY_PREFIX <= key) then None else
      var rest := key[|KEY_PREFIX|..];
      var n := DigitRun(rest);
      if n == 0 || n == |rest| || rest[n] != ':' then None else
        var version := DecimalValue(rest[..n]);
        if IsVersion(version) then Some(version) else None
  }

  lemma DigitRunStops(digits: string, tail: string)
    requires forall i :: 0 <= i < |digits| ==> IsDigit(digits[i])
    requires |tail| > 0 && !IsDigit(tail[0])
    ensures DigitRun(digits + tail) == |digits|
  {
    var all := digits + tail;
    assert all[|digits|] == tail[0];
    assert forall i :: 0 <= i < |digits| ==> all[i] == digits[i];
  }

  /** A version written into a workflow key is read back out of it, whatever the projection id. */
  lemma {:induction false} KeyRoundTrip(version: nat, projectionId: string)
    requires IsVersion(version)
    ensures KeyVersion(WorkflowKey(version, projectionId)) == Some(version)
  {
    var key := WorkflowKey(version, projectionId);
    var tail := ":" + projectionId;
    var rest := key[|KEY_PREFIX|..];
    assert rest == Decimal(version) + tail;
    DigitRunStops(Decimal(version), tail);
    assert rest[..|Decimal(version)|] == Decimal(version);
  }

  predicate Digits(s: string) {
    |s| > 0 && forall i :: 0 <= i < |s| ==> IsDigit(s[i])
  }

  ghost predicate KeyOfVersion(key: string, digits: string, tail: string, version: nat) {
    key == KEY_PREFIX + digits + ":" + tail && Digits(digits) && DecimalValue(digits) == version && IsVersion(version)
  }

  lemma KeyParts(key: string, version: nat) returns (digits: string, tail: string)
    requires KeyVersion(key) == Some(version)
    ensures KeyOfVersion(key, digits, tail, version)
  {
    var rest := key[|KEY_PREFIX|..];
    var n := DigitRun(rest);
    digits, tail := rest[..n], rest[n + 1..];
    hide DecimalValue, DigitRun, IsVersion;
    assert rest == digits + [rest[n]] + tail;
    assert key == key[..|KEY_PREFIX|] + rest && key[..|KEY_PREFIX|] == KEY_PREFIX;
    assert [rest[n]] == ":";
    assert KEY_PREFIX + rest == KEY_PREFIX + digits + ":" + tail;
  }

  /** A key carries a version exactly when it is the prefix, decimal digits of that version and a colon,
      with anything behind it. */
  lemma {:induction false} KeyVersionWhen(key: string, version: nat)
    ensures KeyVersion(key) == Some(version) <==> exists digits, tail :: KeyOfVersion(key, digits, tail, version)
  {
    if KeyVersion(key) == Some(version) { var digits, tail := KeyParts(key, version); }
    if digits, tail :| KeyOfVersion(key, digits, tail, version) {
      var rest := digits + (":" + tail);
      assert key == KEY_PREFIX + rest && key[|KEY_PREFIX|..] == rest;
      DigitRunStops(digits, ":" + tail);
      assert rest[..|digits|] == digits && rest[|digits|] == ':';
    }
  }

  lemma {:induction false} KeysDiffer(v: nat, p: string, w: nat, q: string)
    requires IsVersion(v) && IsVersion(w)
    requires v != w || p != q
    ensures WorkflowKey(v, p) != WorkflowKey(w, q)
  {
    KeyRoundTrip(v, p);
    KeyRoundTrip(w, q);
    if v == w {
      var k, l := WorkflowKey(v, p), WorkflowKey(w, q);
      var front := |KEY_PREFIX + Decimal(v) + ":"|;
      assert k[front..] == p && l[front..] == q;
    }
  }

  // The next version -----------------------------------------------------------------------

  function SnapshotVersion(cell: Cell): Option<nat> {
    if cell.Number? && IsVersion(cell.number) then Some(cell.number) else None
  }

  function WorkflowVersion(cell: Cell): Option<nat> {
    if cell.Text? then KeyVersion(cell.text) else None
  }

  /** `v` is mentioned by some snapshot row or inside some workflow key. */
  ghost predicate Mentioned(v: nat, snapshots: seq<Cell>, keys: seq<Cell>) {
    || (exists c :: c in snapshots && SnapshotVersion(c) == Some(v))
    || (exists c :: c in keys && WorkflowVersion(c) == Some(v))
  }

  function Largest(cells: seq<Cell>, version: Cell -> Option<nat>): (m: nat)
    ensures forall c :: c in cells && version(c).Some? ==> version(c).value <= m
    ensures m == 0 || exists c :: c in cells && version(c) == Some(m)
  {
    if |cells| == 0 then 0 else
      var rest := Largest(cells[1..], version);
      assert forall c :: c in cells <==> c == cells[0] || c in cells[1..];
      if version(cells[0]).Some? && version(cells[0]).value > rest then version(cells[0]).value else rest
  }

  /** The least number above every version that any snapshot or any workflow key mentions. */
  function NextVersion(snapshots: seq<Cell>, keys: seq<Cell>): (v: nat)
    ensures v > 0
    ensures forall u: nat :: Mentioned(u, snapshots, keys) ==> u < v
    ensures v == 1 || Mentioned(v - 1, snapshots, keys)
  {
    var s := Largest(snapshots, SnapshotVersion);
    var k := Largest(keys, WorkflowVersion);
    (if s > k then s else k) + 1
  }
}
