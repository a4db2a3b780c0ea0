/** The integrity manifest of a logical dump: counts and hashes over its canonical JSON, with the
    audit events hashed as a chain. */
module Manifest {
  import opened Contracts
  import opened Json
  import opened JsonOrder
  import Versions

  /** A dump as the source's type has it: each table once, with its rows. */
  datatype LogicalDump = LogicalDump(schemaVersion: Value, tables: seq<Keyed<seq<Value>>>)

  function RowsValue(rows: seq<Value>): Value { Arr(rows) }

  function DumpFields(schemaVersion: Value, tables: Value): seq<Keyed<Value>> {
    [Keyed(Ascii("schema_version"), schemaVersion), Keyed(Ascii("tables"), tables)]
  }

  function DumpValue(d: LogicalDump): Value {
    Obj(DumpFields(d.schemaVersion, Obj(MapValues(RowsValue, d.tables))))
  }

  predicate AllObjects(rows: seq<Value>) {
    forall i :: 0 <= i < |rows| ==> rows[i].Obj?
  }

  predicate IsTable(v: Value) { v.Arr? && AllObjects(v.items) }

  function TableRows(v: Value): seq<Value> {
    if v.Arr? then v.items else []
  }

  /** A parsed text as a dump. */
  function ReadDump(v: Value): Option<LogicalDump> {
    if !v.Obj? then None
    else
      var version, tables := Lookup(v.members, Ascii("schema_version")), Lookup(v.members, Ascii("tables"));
      if version.None? || tables.None? || !tables.value.Obj? then None
      else if exists i :: 0 <= i < |tables.value.members| && !IsTable(tables.value.members[i].value) then None
      else Some(LogicalDump(version.value, MapValues(TableRows, tables.value.members)))
  }

  // Sorting rows -------------------------------------------------------------------------------

  function InsertBy<T>(before: (T, T) -> bool, x: T, xs: seq<T>): seq<T> {
    if |xs| > 0 && before(xs[0], x) then [xs[0]] + InsertBy(before, x, xs[1..]) else [x] + xs
  }

  /** Array.prototype.sort: equal elements keep their order. */
  function SortBy<T>(before: (T, T) -> bool, xs: seq<T>): seq<T> {
    if |xs| == 0 then [] else InsertBy(before, xs[0], SortBy(before, xs[1..]))
  }

  predicate PrintBefore(a: Value, b: Value) { Less(Print(a), Print(b)) }

  predicate TextBefore(a: Value, b: Value) { a.Str? && b.Str? && Less(a.text, b.text) }

  // Rows ---------------------------------------------------------------------------------------

  function Field(row: Value, name: string): Value {
    if !row.Obj? then Undefined
    else Lookup(row.members, Ascii(name)).GetOr(Undefined)
  }

  function DecimalText(n: nat): Text { Ascii(Versions.Decimal(n)) }

  function JoinStrings(items: seq<Value>): Text
    decreases items, 0
  {
    if |items| == 0 then []
    else
      var first := if items[0] == Null || items[0] == Undefined then [] else StringOf(items[0]);
      if |items| == 1 then first else first + [COMMA] + JoinStrings(items[1..])
  }

  /** String(v). */
  function StringOf(v: Value): Text
    decreases v, 1
  {
    match v
    case Undefined => Ascii("undefined")
    case Null => NULL_TEXT
    case Bool(b) => if b then TRUE_TEXT else FALSE_TEXT
    case Number(t) => t
    case Str(s) => s
    case Arr(items) => JoinStrings(items)
    case Obj(_) => Ascii("[object Object]")
  }

  /** Number(v) for the id of a row; ids are serial integers. */
  function IdNumber(v: Value): int {
    if v.Number? then DigitsValue(v.number) else if v.Str? then DigitsValue(v.text) else 0
  }

  function StableId(row: Value): Value {
    var stable, event := Field(row, "stable_id"), Field(row, "event_id");
    if stable != Undefined && stable != Null then stable
    else if event != Undefined && event != Null then event
    else Field(row, "id")
  }

  function IdText(row: Value): seq<Value> { [Str(StringOf(StableId(row)))] }

  /** What a row says about its content, absent fields undefined. */
  function ContentFact(row: Value): seq<Value> {
    [Obj([Keyed(Ascii("content_hash"), Field(row, "content_hash")),
          Keyed(Ascii("content_tree_hash"), Field(row, "content_tree_hash")),
          Keyed(Ascii("raw_ref"), Field(row, "raw_ref")),
          Keyed(Ascii("object_ref"), Field(row, "object_ref"))])]
  }

  function ObjectRef(v: Value): Value {
    Obj([Keyed(Ascii("namespace"), Field(v, "namespace")),
         Keyed(Ascii("content_hash"), Field(v, "content_hash")),
         Keyed(Ascii("version"), Field(v, "version")),
         Keyed(Ascii("rights_state"), Field(v, "rights_state")),
         Keyed(Ascii("deletion_state"), Field(v, "deletion_state"))])
  }

  predicate IsObjectRef(v: Value) {
    v.Obj? && Field(v, "namespace").Str? && Field(v, "content_hash").Str? && Field(v, "version").Str?
  }

  /** Every object reference inside a value, outermost first. */
  function ObjectRefs(v: Value): seq<Value>
    decreases v, 1
  {
    match v
    case Arr(items) => RefsOfItems(items)
    case Obj(members) => (if IsObjectRef(v) then [ObjectRef(v)] else []) + RefsOfMembers(members)
    case _ => []
  }

  function RefsOfItems(items: seq<Value>): seq<Value>
    decreases items, 0
  {
    if |items| == 0 then [] else RefsOfItems(items[..|items| - 1]) + ObjectRefs(items[|items| - 1])
  }

  function RefsOfMembers(members: seq<Keyed<Value>>): seq<Value>
    decreases members, 0
  {
    if |members| == 0 then []
    else
      var last := members[|members| - 1];
      assert last.value < last;
      RefsOfMembers(members[..|members| - 1]) + ObjectRefs(last.value)
  }

  // Tables -------------------------------------------------------------------------------------

  /** Array.prototype.flatMap. */
  function Gather<S, T>(f: S -> seq<T>, xs: seq<S>): seq<T> {
    if |xs| == 0 then [] else Gather(f, xs[..|xs| - 1]) + f(xs[|xs| - 1])
  }

  function RowsOf(table: Keyed<seq<Value>>): seq<Value> { table.value }

  function AllRows(tables: seq<Keyed<seq<Value>>>): seq<Value> { Gather(RowsOf, tables) }

  function RelationRowsOf(table: Keyed<seq<Value>>): seq<Value> {
    if EndsWith(table.key, Ascii("_rels")) || table.key == Ascii("edges") then table.value else []
  }

  function RelationRows(tables: seq<Keyed<seq<Value>>>): seq<Value> { Gather(RelationRowsOf, tables) }

  function ContentFacts(tables: seq<Keyed<seq<Value>>>): seq<Value> { Gather(ContentFact, AllRows(tables)) }

  function NamedRows(tables: seq<Keyed<seq<Value>>>, name: Text): seq<Value> {
    Lookup(tables, name).GetOr([])
  }

  predicate AuditBefore(a: Value, b: Value) {
    var left, right := StringOf(Field(a, "occurred_at")), StringOf(Field(b, "occurred_at"));
    Less(left, right) || (left == right && IdNumber(Field(a, "id")) < IdNumber(Field(b, "id")))
  }

  /** The audit events in the order they are chained. */
  function Audits(tables: seq<Keyed<seq<Value>>>): seq<Value> {
    SortBy(AuditBefore, NamedRows(tables, Ascii("audit_events")))
  }

  function SortedRows(rows: seq<Value>): Value { Arr(SortBy(PrintBefore, rows)) }

  function Projection(tables: seq<Keyed<seq<Value>>>): Value { Obj(MapValues(SortedRows, tables)) }

  // The manifest -------------------------------------------------------------------------------

  type Digest = Text -> Text

  function AuditChain(hash: Digest, audits: seq<Value>): Text {
    if |audits| == 0 then Ascii("phase1-audit-v1")
    else hash(AuditChain(hash, audits[..|audits| - 1]) + [COLON] + Print(audits[|audits| - 1]))
  }

  function CountOf(tables: seq<Keyed<seq<Value>>>, name: Text): Keyed<Value> {
    Keyed(name, Number(DecimalText(|NamedRows(tables, name)|)))
  }

  function IdHashOf(hash: Digest, tables: seq<Keyed<seq<Value>>>, name: Text): Keyed<Value> {
    Keyed(name, Str(hash(Print(Arr(SortBy(TextBefore, Gather(IdText, NamedRows(tables, name))))))))
  }

  /** The manifest without its own hash. The collections are the source's fixed list. */
  function Bare(hash: Digest, collections: seq<Text>, d: LogicalDump): seq<Keyed<Value>> {
    [Keyed(Ascii("format_version"), Number([50])),
     Keyed(Ascii("schema_version"), d.schemaVersion),
     Keyed(Ascii("collection_counts"),
       Obj(seq(|collections|, i requires 0 <= i < |collections| => CountOf(d.tables, collections[i])))),
     Keyed(Ascii("stable_id_hashes"),
       Obj(seq(|collections|, i requires 0 <= i < |collections| => IdHashOf(hash, d.tables, collections[i])))),
     Keyed(Ascii("canonical_projection_hash"), Str(hash(Print(Projection(d.tables))))),
     Keyed(Ascii("relation_hash"), Str(hash(Print(Arr(RelationRows(d.tables)))))),
     Keyed(Ascii("content_hash"), Str(hash(Print(Arr(ContentFacts(d.tables)))))),
     Keyed(Ascii("audit_chain_hash"), Str(AuditChain(hash, Audits(d.tables)))),
     Keyed(Ascii("object_ref_hash"), Str(hash(Print(Arr(SortBy(PrintBefore, Gather(ObjectRefs, AllRows(d.tables))))))))]
  }

  datatype IntegrityManifest = IntegrityManifest(bare: seq<Keyed<Value>>, manifestHash: Text)

  function ManifestValue(m: IntegrityManifest): Value {
    Obj(m.bare + [Keyed(Ascii("manifest_hash"), Str(m.manifestHash))])
  }

  function Build(hash: Digest, collections: seq<Text>, d: LogicalDump): IntegrityManifest {
    var bare := Bare(hash, collections, d);
    IntegrityManifest(bare, hash(Print(Obj(bare))))
  }

  /** createIntegrityManifest: the dump is printed and parsed before anything is hashed. */
  function CreateManifest(hash: Digest, collections: seq<Text>, d: LogicalDump): Option<IntegrityManifest> {
    match Parse(Print(DumpValue(d)))
    case None => None
    case Some(v) =>
      match ReadDump(v) case None => None case Some(normalized) => Some(Build(hash, collections, normalized))
  }

  // The two loops of the source that update a variable ------------------------------------------

  method ChainAudits(hash: Digest, audits: seq<Value>) returns (chain: Text)
    ensures chain == AuditChain(hash, audits)
  {
    chain := Ascii("phase1-audit-v1");
    for k := 0 to |audits|
      invariant chain == AuditChain(hash, audits[..k])
    {
      assert audits[..k + 1][..k] == audits[..k];
      chain := hash(chain + [COLON] + Print(audits[k]));
    }
    assert audits[..|audits|] == audits;
  }

  /** The list that object references are pushed onto. */
  class FactList {
    var facts: seq<Value>

    constructor ()
      ensures facts == []
    {
      facts := [];
    }

    method Discover(v: Value)
      modifies this
      ensures facts == old(facts) + ObjectRefs(v)
      decreases v, 1
    {
      hide IsObjectRef, ObjectRef, RefsOfItems, RefsOfMembers;
      match v
      case Arr(items) => DiscoverItems(items);
      case Obj(members) =>
        if IsObjectRef(v) { facts := facts + [ObjectRef(v)]; }
        DiscoverMembers(members);
      case _ =>
    }

    method DiscoverItems(items: seq<Value>)
      modifies this
      ensures facts == old(facts) + RefsOfItems(items)
      decreases items, 0
    {
      hide ObjectRefs;
      for k := 0 to |items|
        invariant facts == old(facts) + RefsOfItems(items[..k])
      {
        assert items[..k + 1][..k] == items[..k];
        Discover(items[k]);
      }
      assert items[..|items|] == items;
    }

    method DiscoverMembers(members: seq<Keyed<Value>>)
      modifies this
      ensures facts == old(facts) + RefsOfMembers(members)
      decreases members, 0
    {
      hide ObjectRefs;
      for k := 0 to |members|
        invariant facts == old(facts) + RefsOfMembers(members[..k])
      {
        assert members[..k + 1][..k] == members[..k];
        assert members[k].value < members[k];
        Discover(members[k].value);
      }
      assert members[..|members|] == members;
    }
  }
}
