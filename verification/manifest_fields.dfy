/** What each field of a manifest holds, said of the dump alone. */
module ManifestFields {
  import opened Contracts
  import opened Json
  import opened JsonOrder
  import opened Manifest
  import opened ManifestSort
  import opened ManifestDump
  import opened ManifestEvidence
  import opened ManifestMeaning
  import opened Envelope
  import Versions

  // The parts of a dump ------------------------------------------------------------------------

  /** The rows under a name: those of the table of that name, none if there is no such table. */
  ghost predicate Under(tables: Tables, name: Text, rows: seq<Value>) {
    && (forall k :: 0 <= k < |tables| && tables[k].key == name ==> tables[k].value == rows)
    && ((forall k :: 0 <= k < |tables| ==> tables[k].key != name) ==> rows == [])
  }

  lemma {:induction false} NamedUnder(tables: Tables, name: Text)
    requires DistinctKeys(tables)
    ensures Under(tables, name, NamedRows(tables, name))
  {
    if |tables| > 0 {
      if tables[0].key != name {
        NamedUnder(tables[1..], name);
        forall k | 0 <= k < |tables| && tables[k].key == name ensures tables[k].value == NamedRows(tables, name) {
          assert tables[1..][k - 1] == tables[k];
        }
      }
    }
  }

  function RowsInOrder(tables: Tables): seq<Value> {
    if |tables| == 0 then [] else tables[0].value + RowsInOrder(tables[1..])
  }

  /** The rows of the tables whose name ends in _rels, and of edges. */
  function RelationPart(tables: Tables): seq<Value> {
    if |tables| == 0 then []
    else
      var name := tables[0].key;
      var linking := (|name| >= 5 && name[|name| - 5..] == Ascii("_rels")) || name == Ascii("edges");
      (if linking then tables[0].value else []) + RelationPart(tables[1..])
  }

  /** Everything inside a value, itself first. */
  function Inside(v: Value): seq<Value>
    decreases v, 1
  {
    match v
    case Arr(items) => [v] + InsideItems(items)
    case Obj(members) => [v] + InsideMembers(members)
    case _ => [v]
  }

  function InsideItems(items: seq<Value>): seq<Value>
    decreases items, 0
  {
    if |items| == 0 then [] else InsideItems(items[..|items| - 1]) + Inside(items[|items| - 1])
  }

  function InsideMembers(members: seq<Keyed<Value>>): seq<Value>
    decreases members, 0
  {
    if |members| == 0 then []
    else
      var last := members[|members| - 1];
      assert last.value < last;
      InsideMembers(members[..|members| - 1]) + Inside(last.value)
  }

  /** The references among values: an object with three string fields, cut down to five fields. */
  function Refs(values: seq<Value>): seq<Value> {
    if |values| == 0 then []
    else
      var v := values[|values| - 1];
      Refs(values[..|values| - 1]) +
      if v.Obj? && Field(v, "namespace").Str? && Field(v, "content_hash").Str? && Field(v, "version").Str? then
        [Obj([Keyed(Ascii("namespace"), Field(v, "namespace")), Keyed(Ascii("content_hash"), Field(v, "content_hash")),
              Keyed(Ascii("version"), Field(v, "version")), Keyed(Ascii("rights_state"), Field(v, "rights_state")),
              Keyed(Ascii("deletion_state"), Field(v, "deletion_state"))])]
      else []
  }

  predicate Present(row: Value, name: string) {
    Field(row, name) != Undefined && Field(row, name) != Null
  }

  /** The id of a row as text: its stable id, else its event id, else its id. */
  function IdOf(row: Value): Text {
    if Present(row, "stable_id") then StringOf(Field(row, "stable_id"))
    else if Present(row, "event_id") then StringOf(Field(row, "event_id"))
    else StringOf(Field(row, "id"))
  }

  /** The same elements, none before an earlier one. */
  ghost predicate Arranged<T>(ys: seq<T>, xs: seq<T>, before: (T, T) -> bool) {
    multiset(ys) == multiset(xs) && forall i, j :: 0 <= i < j < |ys| ==> !before(ys[j], ys[i])
  }

  function Strings(texts: seq<Text>): (values: seq<Value>)
    ensures |values| == |texts| && forall k :: 0 <= k < |texts| ==> values[k] == Str(texts[k])
  {
    seq(|texts|, k requires 0 <= k < |texts| => Str(texts[k]))
  }

  function IdsOf(rows: seq<Value>): (ids: seq<Text>)
    ensures |ids| == |rows| && forall k :: 0 <= k < |rows| ==> ids[k] == IdOf(rows[k])
  {
    seq(|rows|, k requires 0 <= k < |rows| => IdOf(rows[k]))
  }

  function ContentsOf(rows: seq<Value>): (contents: seq<Value>)
    ensures |contents| == |rows|
    ensures forall k :: 0 <= k < |rows| ==> contents[k] == Obj(
      [Keyed(Ascii("content_hash"), Field(rows[k], "content_hash")),
       Keyed(Ascii("content_tree_hash"), Field(rows[k], "content_tree_hash")),
       Keyed(Ascii("raw_ref"), Field(rows[k], "raw_ref")), Keyed(Ascii("object_ref"), Field(rows[k], "object_ref"))])
  {
    seq(|rows|, k requires 0 <= k < |rows| => ContentFact(rows[k])[0])
  }

  // The functions of the model are these parts --------------------------------------------------

  lemma {:induction false} AllRowsInOrder(tables: Tables)
    ensures AllRows(tables) == RowsInOrder(tables)
  {
    if |tables| > 0 {
      AllRowsInOrder(tables[1..]);
      assert tables == [tables[0]] + tables[1..];
      GatherConcat(RowsOf, [tables[0]], tables[1..]);
      GatherOne(RowsOf, tables[0]);
    }
  }

  lemma {:induction false} RelationsInOrder(tables: Tables)
    ensures RelationRows(tables) == RelationPart(tables)
  {
    if |tables| > 0 {
      RelationsInOrder(tables[1..]);
      assert tables == [tables[0]] + tables[1..];
      GatherConcat(RelationRowsOf, [tables[0]], tables[1..]);
      GatherOne(RelationRowsOf, tables[0]);
      assert |Ascii("_rels")| == 5;
      hide Ascii;
    }
  }

  lemma {:induction false} RefsConcat(a: seq<Value>, b: seq<Value>)
    ensures Refs(a + b) == Refs(a) + Refs(b)
    decreases |b|
  {
    hide Field, Ascii;
    if |b| == 0 {
      assert a + b == a;
    } else {
      var n := |b| - 1;
      RefsConcat(a, b[..n]);
      assert (a + b)[..|a + b| - 1] == a + b[..n];
    }
  }

  lemma RefsOne(v: Value)
    ensures Refs([v]) == if IsObjectRef(v) then [ObjectRef(v)] else []
  {
    hide Field, Ascii;
    assert [v][..0] == [];
  }

  /** The references found inside a value are those among everything inside it. */
  lemma {:induction false} RefsInside(v: Value)
    ensures ObjectRefs(v) == Refs(Inside(v))
    decreases v, 1
  {
    hide Refs, IsObjectRef, ObjectRef;
    RefsOne(v);
    match v
    case Arr(items) =>
      RefsInsideItems(items);
      RefsConcat([v], InsideItems(items));
      NoRefOf(v);
    case Obj(members) =>
      RefsInsideMembers(members);
      RefsConcat([v], InsideMembers(members));
    case _ => NoRefOf(v);
  }

  lemma NoRefOf(v: Value)
    requires !v.Obj?
    ensures !IsObjectRef(v)
  {
  }

  lemma {:induction false} RefsInsideItems(items: seq<Value>)
    ensures RefsOfItems(items) == Refs(InsideItems(items))
    decreases items, 0
  {
    hide ObjectRefs, Inside;
    if |items| > 0 {
      var n := |items| - 1;
      RefsInsideItems(items[..n]);
      RefsInside(items[n]);
      RefsConcat(InsideItems(items[..n]), Inside(items[n]));
      hide Refs;
    }
  }

  lemma {:induction false} RefsInsideMembers(members: seq<Keyed<Value>>)
    ensures RefsOfMembers(members) == Refs(InsideMembers(members))
    decreases members, 0
  {
    hide ObjectRefs, Inside;
    if |members| > 0 {
      var n := |members| - 1;
      assert members[n].value < members[n];
      RefsInsideMembers(members[..n]);
      RefsInside(members[n].value);
      RefsConcat(InsideMembers(members[..n]), Inside(members[n].value));
      hide Refs;
    }
  }

  lemma {:induction false} RefsOfRows(rows: seq<Value>)
    ensures Gather(ObjectRefs, rows) == Refs(InsideItems(rows))
  {
    RefsInsideItems(rows);
    GatheredItems(rows);
  }

  lemma {:induction false} GatheredItems(rows: seq<Value>)
    ensures Gather(ObjectRefs, rows) == RefsOfItems(rows)
  {
    hide ObjectRefs;
    if |rows| > 0 { GatheredItems(rows[..|rows| - 1]); }
  }

  lemma {:induction false} ContentsGathered(rows: seq<Value>)
    ensures Gather(ContentFact, rows) == ContentsOf(rows)
  {
    hide Field, Ascii, ContentFact;
    if |rows| > 0 {
      var n := |rows| - 1;
      ContentsGathered(rows[..n]);
      OneContent(rows[n]);
      assert ContentsOf(rows) == ContentsOf(rows[..n]) + [ContentFact(rows[n])[0]] by { OneContentEach(rows); }
    }
  }

  lemma OneContent(row: Value)
    ensures |ContentFact(row)| == 1 && ContentFact(row) == [ContentFact(row)[0]]
  {
    hide Field, Ascii;
  }

  lemma OneContentEach(rows: seq<Value>)
    ensures forall k :: 0 <= k < |rows| ==> ContentsOf(rows)[k] == ContentFact(rows[k])[0]
  {
    hide Field, Ascii;
  }

  lemma {:induction false} IdsGathered(rows: seq<Value>)
    ensures Gather(IdText, rows) == Strings(IdsOf(rows))
  {
    hide StringOf, Field, Ascii;
    if |rows| > 0 { IdsGathered(rows[..|rows| - 1]); }
  }

  // Sorting under a weak order ------------------------------------------------------------------

  ghost predicate WeakOrder<T(!new)>(before: (T, T) -> bool) {
    && (forall x, y :: before(x, y) ==> !before(y, x))
    && (forall x, y, z :: !before(x, y) && !before(y, z) ==> !before(x, z))
  }

  ghost predicate NoInversion<T>(ys: seq<T>, before: (T, T) -> bool) {
    forall i, j :: 0 <= i < j < |ys| ==> !before(ys[j], ys[i])
  }

  lemma {:induction false} InsertInverts<T(!new)>(before: (T, T) -> bool, x: T, ys: seq<T>)
    requires WeakOrder(before) && NoInversion(ys, before)
    ensures NoInversion(InsertBy(before, x, ys), before)
  {
    if |ys| > 0 {
      if before(ys[0], x) {
        var others := InsertBy(before, x, ys[1..]);
        InsertInverts(before, x, ys[1..]);
        InsertByMultiset(before, x, ys[1..]);
        forall j | 0 <= j < |others| ensures !before(others[j], ys[0]) {
          assert others[j] in multiset(others);
          assert others[j] == x || others[j] in ys[1..];
        }
      } else {
        forall j | 0 <= j < |ys| ensures !before(ys[j], x) { assert j > 0 ==> !before(ys[j], ys[0]); }
      }
    }
  }

  lemma {:induction false} SortArranges<T(!new)>(before: (T, T) -> bool, xs: seq<T>)
    requires WeakOrder(before)
    ensures Arranged(SortBy(before, xs), xs, before)
  {
    hide WeakOrder;
    SortInverts(before, xs);
    SortByMultiset(before, xs);
  }

  lemma {:induction false} SortInverts<T(!new)>(before: (T, T) -> bool, xs: seq<T>)
    requires WeakOrder(before)
    ensures NoInversion(SortBy(before, xs), before)
  {
    hide WeakOrder;
    if |xs| > 0 {
      SortInverts(before, xs[1..]);
      InsertInverts(before, xs[0], SortBy(before, xs[1..]));
    }
  }

  lemma LessIsWeak()
    ensures WeakOrder(Less)
  {
    LessOrders();
    hide Less;
    forall x, y, z | !Less(x, y) && !Less(y, z) ensures !Less(x, z) {
      if x != y { LessTotal(x, y); }
      if y != z { LessTotal(y, z); }
    }
  }

  lemma PrintIsWeak()
    ensures WeakOrder(PrintBefore)
  {
    LessIsWeak();
    hide Less, Print;
  }

  /** Earlier by occurred_at, compared as text, and among equal times by the number of the id. */
  predicate Earlier(a: Value, b: Value) {
    var left, right := StringOf(Field(a, "occurred_at")), StringOf(Field(b, "occurred_at"));
    if left == right then IdNumber(Field(a, "id")) < IdNumber(Field(b, "id")) else Less(left, right)
  }

  lemma EarlierIsBefore(a: Value, b: Value)
    ensures Earlier(a, b) == AuditBefore(a, b)
  {
    hide StringOf, Field, Less, IdNumber;
    var left, right := StringOf(Field(a, "occurred_at")), StringOf(Field(b, "occurred_at"));
    if Less(left, right) { LessAsymmetric(left, right); }
  }

  lemma AuditIsWeak()
    ensures WeakOrder(AuditBefore)
  {
    LessOrders();
    LessIsWeak();
    hide StringOf, Field, Less, IdNumber;
    forall x, y, z | !AuditBefore(x, y) && !AuditBefore(y, z) ensures !AuditBefore(x, z) {
      AuditsChain(x, y, z);
    }
    forall x, y | AuditBefore(x, y) ensures !AuditBefore(y, x) {
      EarlierIsBefore(x, y);
      EarlierIsBefore(y, x);
    }
  }

  lemma AuditsChain(x: Value, y: Value, z: Value)
    requires !AuditBefore(x, y) && !AuditBefore(y, z)
    ensures !AuditBefore(x, z)
  {
    hide StringOf, Field, Less, IdNumber;
    var a, b, c :=
      StringOf(Field(x, "occurred_at")), StringOf(Field(y, "occurred_at")), StringOf(Field(z, "occurred_at"));
    LessIsWeak();
    if a != b { LessTotal(a, b); }
    if b != c { LessTotal(b, c); }
    if a == c && a != b { LessAsymmetric(b, a); }
  }

  lemma StringsCons(x: Text, xs: seq<Text>)
    ensures Strings([x] + xs) == [Str(x)] + Strings(xs)
  {
  }

  lemma {:induction false} InsertStrings(x: Text, xs: seq<Text>)
    ensures InsertBy(TextBefore, Str(x), Strings(xs)) == Strings(InsertBy(Less, x, xs))
  {
    hide Less, Strings;
    if |xs| > 0 {
      assert xs == [xs[0]] + xs[1..];
      StringsCons(xs[0], xs[1..]);
      assert Strings(xs)[1..] == Strings(xs[1..]);
      if Less(xs[0], x) {
        InsertStrings(x, xs[1..]);
        StringsCons(xs[0], InsertBy(Less, x, xs[1..]));
      }
    }
    if |xs| == 0 || !Less(xs[0], x) { StringsCons(x, xs); }
  }

  lemma {:induction false} SortStrings(xs: seq<Text>)
    ensures SortBy(TextBefore, Strings(xs)) == Strings(SortBy(Less, xs))
  {
    hide Less, TextBefore;
    if |xs| > 0 {
      assert Strings(xs)[1..] == Strings(xs[1..]) && Strings(xs)[0] == Str(xs[0]);
      SortStrings(xs[1..]);
      InsertStrings(xs[0], SortBy(Less, xs[1..]));
    }
  }

  // The fields ---------------------------------------------------------------------------------

  /** A field of a dump's manifest, looked up by its name. */
  function FieldIn(tools: Tools, d: LogicalDump, name: string): Value {
    match CreateManifest(tools.hash, tools.collections, d)
    case None => Undefined
    case Some(manifest) => Field(ManifestValue(manifest), name)
  }

  lemma {:induction false} LookupKey<T>(members: seq<Keyed<T>>, i: nat)
    requires DistinctKeys(members) && i < |members|
    ensures Lookup(members, members[i].key) == Some(members[i].value)
  {
    if i > 0 {
      assert members[0].key != members[i].key;
      LookupKey(members[1..], i - 1);
    }
  }

  /** The manifest's fields are those built from the normal dump. */
  lemma FieldAt(tools: Tools, d: LogicalDump, name: string, i: nat)
    requires ProperDump(d) && i < 10 && MANIFEST_KEYS[i] == Ascii(name)
    ensures var e := NormDump(d);
      var bare := Bare(tools.hash, tools.collections, e);
      FieldIn(tools, d, name) == if i < 9 then bare[i].value else Str(tools.hash(Print(Obj(bare))))
  {
    hide Bare, Print, Ascii, MANIFEST_KEYS, NormDump, ProperDump, Lookup;
    var e := NormDump(d);
    ManifestOfNormalForm(tools, d);
    MembersShape(tools.hash, tools.collections, e);
    BareShape(tools.hash, tools.collections, e);
    var members := ManifestMembers(Build(tools.hash, tools.collections, e));
    LookupKey(members, i);
  }

  lemma NormDistinct(d: LogicalDump)
    requires ProperDump(d)
    ensures DistinctKeys(NormDump(d).tables)
  {
    NormDumpIsNormal(d);
    SortedDistinct(NormDump(d).tables);
  }

  lemma NormTableOf(d: LogicalDump, k: nat) returns (j: nat)
    requires k < |d.tables|
    ensures var e := NormDump(d).tables;
      j < |e| && e[j].key == d.tables[k].key && |e[j].value| == |d.tables[k].value|
  {
    hide NormItems, Sort;
    var tables := MapValues(NormItems, d.tables);
    SortMembers(tables, tables[k]);
    j :| j < |Sort(tables)| && Sort(tables)[j] == tables[k];
    NormLength(d.tables[k].value);
  }

  lemma NormTableFrom(d: LogicalDump, j: nat) returns (k: nat)
    requires j < |NormDump(d).tables|
    ensures k < |d.tables| && NormDump(d).tables[j].key == d.tables[k].key
  {
    hide NormItems, Sort;
    var tables := MapValues(NormItems, d.tables);
    SortMembers(tables, Sort(tables)[j]);
    k :| k < |tables| && tables[k] == Sort(tables)[j];
  }

  lemma {:induction false} NormLength(rows: seq<Value>)
    ensures |NormItems(rows)| == |rows|
  {
    hide Norm;
    if |rows| > 0 { NormLength(rows[1..]); }
  }

  lemma NormTablesOf(d: LogicalDump, name: Text, rows: seq<Value>)
    requires ProperDump(d)
    ensures DistinctKeys(NormDump(d).tables)
    ensures Under(d.tables, name, rows) ==> |NamedRows(NormDump(d).tables, name)| == |rows|
  {
    NormDistinct(d);
    var e := NormDump(d).tables;
    NamedUnder(e, name);
    hide NamedRows, ProperDump, NormDump;
    if Under(d.tables, name, rows) {
      if k: nat :| k < |d.tables| && d.tables[k].key == name {
        var j := NormTableOf(d, k);
      } else {
        forall j | 0 <= j < |e| ensures e[j].key != name { var k := NormTableFrom(d, j); }
      }
    }
  }

  /** collection_counts maps each collection to the decimal number of its table's rows, 0 if it has
      no table. */
  lemma {:induction false} CollectionCounts(tools: Tools, d: LogicalDump, i: nat, rows: seq<Value>)
    requires ProperDump(d) && i < |tools.collections| && Under(d.tables, tools.collections[i], rows)
    ensures var counts := FieldIn(tools, d, "collection_counts");
      && counts.Obj? && |counts.members| == |tools.collections|
      && counts.members[i] == Keyed(tools.collections[i], Number(Ascii(Versions.Decimal(|rows|))))
  {
    FieldAt(tools, d, "collection_counts", 2);
    NormTablesOf(d, tools.collections[i], rows);
    hide FieldIn, Print, Ascii, MANIFEST_KEYS, NormDump, ProperDump, Under, NamedRows, SortBy, Gather, Projection;
    hide AuditChain, Audits, RelationRows, ContentFacts, AllRows;
  }

  /** stable_id_hashes maps each collection to the digest of the ascending list of its rows' ids. */
  lemma {:induction false} StableIdHashes(tools: Tools, d: LogicalDump, i: nat, rows: seq<Value>)
    requires ProperDump(d) && i < |tools.collections|
    requires Under(NormDump(d).tables, tools.collections[i], rows)
    ensures var hashes := FieldIn(tools, d, "stable_id_hashes");
      && hashes.Obj? && |hashes.members| == |tools.collections| && hashes.members[i].key == tools.collections[i]
      && exists ids :: Arranged(ids, IdsOf(rows), Less) &&
           hashes.members[i].value == Str(tools.hash(Print(Arr(Strings(ids)))))
  {
    var e := NormDump(d).tables;
    FieldAt(tools, d, "stable_id_hashes", 3);
    NormTablesOf(d, tools.collections[i], []);
    NamedUnder(e, tools.collections[i]);
    assert NamedRows(e, tools.collections[i]) == rows;
    IdsGathered(rows);
    SortStrings(IdsOf(rows));
    LessIsWeak();
    SortArranges(Less, IdsOf(rows));
    hide FieldIn, Print, Ascii, MANIFEST_KEYS, NormDump, ProperDump, Under, NamedRows, SortBy, Gather, Projection;
    hide AuditChain, Audits, RelationRows, ContentFacts, AllRows, Arranged, Strings, IdsOf, Less;
  }

  /** relation_hash is the digest of the rows of the relation tables, table after table. */
  lemma {:induction false} RelationHash(tools: Tools, d: LogicalDump)
    requires ProperDump(d)
    ensures FieldIn(tools, d, "relation_hash") == Str(tools.hash(Print(Arr(RelationPart(NormDump(d).tables)))))
  {
    FieldAt(tools, d, "relation_hash", 5);
    RelationsInOrder(NormDump(d).tables);
    hide FieldIn, Print, Ascii, MANIFEST_KEYS, NormDump, ProperDump, RelationRows, RelationPart, SortBy, Gather,
      Projection, AuditChain, Audits, ContentFacts, AllRows;
  }

  /** content_hash is the digest of what each row says of its content, row after row. */
  lemma {:induction false} ContentHash(tools: Tools, d: LogicalDump)
    requires ProperDump(d)
    ensures FieldIn(tools, d, "content_hash") ==
      Str(tools.hash(Print(Arr(ContentsOf(RowsInOrder(NormDump(d).tables))))))
  {
    FieldAt(tools, d, "content_hash", 6);
    AllRowsInOrder(NormDump(d).tables);
    ContentsGathered(RowsInOrder(NormDump(d).tables));
    hide FieldIn, Print, Ascii, MANIFEST_KEYS, NormDump, ProperDump, RelationRows, RowsInOrder, SortBy, Gather,
      Projection, AuditChain, Audits, AllRows, ContentsOf;
  }

  /** object_ref_hash is the digest of all references anywhere in the rows, ascending as printed. */
  lemma {:induction false} ObjectRefHash(tools: Tools, d: LogicalDump)
    requires ProperDump(d)
    ensures exists refs ::
      && Arranged(refs, Refs(InsideItems(RowsInOrder(NormDump(d).tables))), PrintBefore)
      && FieldIn(tools, d, "object_ref_hash") == Str(tools.hash(Print(Arr(refs))))
  {
    FieldAt(tools, d, "object_ref_hash", 8);
    AllRowsInOrder(NormDump(d).tables);
    RefsOfRows(RowsInOrder(NormDump(d).tables));
    PrintIsWeak();
    SortArranges(PrintBefore, Refs(InsideItems(RowsInOrder(NormDump(d).tables))));
    hide FieldIn, Print, Ascii, MANIFEST_KEYS, NormDump, ProperDump, RelationRows, RowsInOrder, SortBy, Gather,
      Projection, AuditChain, Audits, AllRows, Refs, InsideItems, Arranged, PrintBefore, ContentFacts;
  }

  /** The chain of hashes over these events. */
  ghost predicate Links(hash: Digest, events: seq<Value>, links: seq<Text>) {
    && |links| == |events| + 1 && links[0] == Ascii("phase1-audit-v1")
    && forall k :: 0 <= k < |events| ==> links[k + 1] == hash(links[k] + Ascii(":") + Print(events[k]))
  }

  lemma {:induction false} ChainLinks(hash: Digest, events: seq<Value>) returns (links: seq<Text>)
    ensures Links(hash, events, links) && links[|events|] == AuditChain(hash, events)
  {
    hide Print;
    if |events| == 0 {
      links := [Ascii("phase1-audit-v1")];
    } else {
      var n := |events| - 1;
      var before := ChainLinks(hash, events[..n]);
      links := before + [AuditChain(hash, events)];
      assert Ascii(":") == [COLON];
      hide Ascii;
      forall k | 0 <= k < |events| ensures links[k + 1] == hash(links[k] + Ascii(":") + Print(events[k])) {
        if k < n { assert events[..n][k] == events[k]; }
      }
    }
  }

  /** audit_chain_hash is the end of the chain over the audit events, earliest first. */
  lemma {:induction false} AuditChainHash(tools: Tools, d: LogicalDump, rows: seq<Value>)
    requires ProperDump(d) && Under(NormDump(d).tables, Ascii("audit_events"), rows)
    ensures exists events, links ::
      && Arranged(events, rows, Earlier) && Links(tools.hash, events, links)
      && FieldIn(tools, d, "audit_chain_hash") == Str(links[|events|])
  {
    var e := NormDump(d).tables;
    FieldAt(tools, d, "audit_chain_hash", 7);
    NormTablesOf(d, Ascii("audit_events"), []);
    NamedUnder(e, Ascii("audit_events"));
    assert NamedRows(e, Ascii("audit_events")) == rows;
    AuditIsWeak();
    SortArranges(AuditBefore, rows);
    var events := SortBy(AuditBefore, rows);
    hide FieldIn, Print, Ascii, MANIFEST_KEYS, NormDump, ProperDump, Under, NamedRows, SortBy, Gather, Projection;
    hide AuditChain, RelationRows, ContentFacts, AllRows, Less, AuditBefore, Earlier;
    forall i, j | 0 <= i < j < |events| ensures !Earlier(events[j], events[i]) {
      EarlierIsBefore(events[j], events[i]);
    }
    assert Arranged(events, rows, Earlier);
    var links := ChainLinks(tools.hash, events);
  }

  /** The tables, each with its rows ascending as printed. */
  ghost predicate Projected(e: Tables, tables: seq<Keyed<Value>>) {
    && |tables| == |e|
    && forall k :: 0 <= k < |tables| ==>
         tables[k].key == e[k].key && tables[k].value.Arr? && Arranged(tables[k].value.items, e[k].value, PrintBefore)
  }

  lemma ProjectionTables(e: Tables)
    ensures Projected(e, MapValues(SortedRows, e)) && Projection(e) == Obj(MapValues(SortedRows, e))
  {
    PrintIsWeak();
    var tables := MapValues(SortedRows, e);
    hide SortBy, WeakOrder, PrintBefore, Arranged;
    forall k | 0 <= k < |tables|
      ensures tables[k].value.Arr? && Arranged(tables[k].value.items, e[k].value, PrintBefore)
    {
      SortArranges(PrintBefore, e[k].value);
    }
  }

  /** canonical_projection_hash is the digest of the tables, each with its rows ascending as printed. */
  lemma {:induction false} ProjectionHash(tools: Tools, d: LogicalDump)
    requires ProperDump(d)
    ensures exists tables ::
      && Projected(NormDump(d).tables, tables)
      && FieldIn(tools, d, "canonical_projection_hash") == Str(tools.hash(Print(Obj(tables))))
  {
    FieldAt(tools, d, "canonical_projection_hash", 4);
    ProjectionTables(NormDump(d).tables);
    hide FieldIn, Print, Ascii, MANIFEST_KEYS, NormDump, ProperDump, SortBy, Gather, RelationRows, Projection;
    hide AuditChain, Audits, ContentFacts, AllRows, Projected;
  }

  lemma FieldKeyed(tools: Tools, d: LogicalDump, name: string, i: nat)
    requires ProperDump(d) && i < 9 && MANIFEST_KEYS[i] == Ascii(name)
    ensures var bare := Bare(tools.hash, tools.collections, NormDump(d));
      |bare| == 9 && bare[i] == Keyed(Ascii(name), FieldIn(tools, d, name))
  {
    FieldAt(tools, d, name, i);
    BareShape(tools.hash, tools.collections, NormDump(d));
    hide Bare, FieldIn, Ascii, MANIFEST_KEYS, NormDump, ProperDump;
  }

  /** The version and the schema version of a manifest. */
  lemma {:induction false} Versioned(tools: Tools, d: LogicalDump)
    requires ProperDump(d)
    ensures FieldIn(tools, d, "format_version") == Number(Ascii("2"))
    ensures FieldIn(tools, d, "schema_version") == Norm(d.schemaVersion)
  {
    hide Bare, FieldIn, Ascii, NormDump, ProperDump;
    FieldKeyed(tools, d, "format_version", 0);
    FieldKeyed(tools, d, "schema_version", 1);
    BareHeads(tools.hash, tools.collections, NormDump(d));
    NormVersion(d);
  }

  lemma NormVersion(d: LogicalDump)
    ensures NormDump(d).schemaVersion == Norm(d.schemaVersion)
  {
    hide Norm, NormTables;
  }

  lemma BareHeads(hash: Digest, collections: seq<Text>, e: LogicalDump)
    ensures |Bare(hash, collections, e)| == 9
    ensures Bare(hash, collections, e)[0].value == Number(Ascii("2"))
    ensures Bare(hash, collections, e)[1].value == e.schemaVersion
  {
    assert Ascii("2") == [50];
    hide Print, Ascii, SortBy, Gather, RelationRows, AuditChain, Audits, ContentFacts, AllRows, Less, Projection;
  }

  /** manifest_hash is the digest of the nine other fields, under their names. */
  lemma {:induction false} ManifestHash(tools: Tools, d: LogicalDump)
    requires ProperDump(d)
    ensures exists fields: seq<Keyed<Value>> ::
      && |fields| == 9 && FieldIn(tools, d, "manifest_hash") == Str(tools.hash(Print(Obj(fields))))
      && fields[0] == Keyed(Ascii("format_version"), FieldIn(tools, d, "format_version"))
      && fields[1] == Keyed(Ascii("schema_version"), FieldIn(tools, d, "schema_version"))
      && fields[2] == Keyed(Ascii("collection_counts"), FieldIn(tools, d, "collection_counts"))
      && fields[3] == Keyed(Ascii("stable_id_hashes"), FieldIn(tools, d, "stable_id_hashes"))
      && fields[4] == Keyed(Ascii("canonical_projection_hash"), FieldIn(tools, d, "canonical_projection_hash"))
      && fields[5] == Keyed(Ascii("relation_hash"), FieldIn(tools, d, "relation_hash"))
      && fields[6] == Keyed(Ascii("content_hash"), FieldIn(tools, d, "content_hash"))
      && fields[7] == Keyed(Ascii("audit_chain_hash"), FieldIn(tools, d, "audit_chain_hash"))
      && fields[8] == Keyed(Ascii("object_ref_hash"), FieldIn(tools, d, "object_ref_hash"))
  {
    hide Bare, FieldIn, Print, Ascii, NormDump, ProperDump;
    var fields := Bare(tools.hash, tools.collections, NormDump(d));
    FieldKeyed(tools, d, "format_version", 0);
    FieldKeyed(tools, d, "schema_version", 1);
    FieldKeyed(tools, d, "collection_counts", 2);
    FieldKeyed(tools, d, "stable_id_hashes", 3);
    FieldKeyed(tools, d, "canonical_projection_hash", 4);
    FieldKeyed(tools, d, "relation_hash", 5);
    FieldKeyed(tools, d, "content_hash", 6);
    FieldKeyed(tools, d, "audit_chain_hash", 7);
    FieldKeyed(tools, d, "object_ref_hash", 8);
    FieldAt(tools, d, "manifest_hash", 9);
  }
}
