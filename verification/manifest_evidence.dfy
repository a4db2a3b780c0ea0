/** What an integrity manifest pins down: exactly which dumps share one. */
module ManifestEvidence {
  import opened Json
  import opened JsonOrder
  import opened JsonCanonical
  import opened Manifest
  import opened ManifestSort
  import opened ManifestDump

  /** An ideal digest: injective, never the seed of the audit chain, and free of colons. */
  ghost predicate Ideal(hash: Digest) {
    && (forall s, t :: hash(s) == hash(t) ==> s == t)
    && (forall t :: hash(t) != Ascii("phase1-audit-v1") && COLON !in hash(t))
  }

  type Tables = seq<Keyed<seq<Value>>>

  /** The same tables, each with the same rows in some order. */
  ghost predicate SameTables(a: Tables, b: Tables) {
    |a| == |b| && forall i :: 0 <= i < |a| ==> a[i].key == b[i].key && multiset(a[i].value) == multiset(b[i].value)
  }

  /** What two dumps must share to have one manifest. Rows of a table may be in any order, except
      that relation rows, content facts and audit events are compared in order. */
  ghost predicate SameEvidence(d: LogicalDump, e: LogicalDump) {
    && d.schemaVersion == e.schemaVersion
    && SameTables(d.tables, e.tables)
    && RelationRows(d.tables) == RelationRows(e.tables)
    && ContentFacts(d.tables) == ContentFacts(e.tables)
    && Audits(d.tables) == Audits(e.tables)
  }

  // Printing is injective on normal values -----------------------------------------------------

  lemma PrintNormal(v: Value, w: Value)
    requires Normal(v) && Normal(w) && Print(v) == Print(w)
    ensures v == w
  {
    hide Print, Norm, WellFormed, Normal;
    NormalIsWellFormed(v);
    NormalIsWellFormed(w);
    PrintAlike(v, w);
    NormalIsFixed(v);
    NormalIsFixed(w);
  }

  lemma HashedAlike(hash: Digest, v: Value, w: Value)
    requires Ideal(hash) && WellFormed(v) && WellFormed(w) && hash(Print(v)) == hash(Print(w))
    ensures Norm(v) == Norm(w)
  {
    hide Print, Norm, WellFormed;
    PrintAlike(v, w);
  }

  // Objects with fixed fields ------------------------------------------------------------------

  ghost predicate SameKeys(a: seq<Keyed<Value>>, b: seq<Keyed<Value>>) {
    |a| == |b| && forall i :: 0 <= i < |a| ==> a[i].key == b[i].key
  }

  lemma FieldCarries(a: seq<Keyed<Value>>, b: seq<Keyed<Value>>, i: nat)
    requires SameKeys(a, b) && DistinctKeys(a) && Norm(Obj(a)) == Norm(Obj(b)) && i < |a| && a[i].value != Undefined
    ensures b[i].value != Undefined && Norm(a[i].value) == Norm(b[i].value)
  {
    NormOfObject(a);
    NormOfObject(b);
    hide Norm, NormMembers, Sort;
    var m := Keyed(a[i].key, Norm(a[i].value));
    NormMemberAt(a, i);
    SortedAlike(NormMembers(a), NormMembers(b), m);
    NormMember(b, m);
    var j :| 0 <= j < |b| && b[j].value != Undefined && m == Keyed(b[j].key, Norm(b[j].value));
    assert a[j].key == a[i].key;
  }

  /** Objects with the same fields agree, when they have one normal form, field by field. */
  lemma FieldsAgree(a: seq<Keyed<Value>>, b: seq<Keyed<Value>>, i: nat)
    requires SameKeys(a, b) && DistinctKeys(a) && Norm(Obj(a)) == Norm(Obj(b)) && i < |a|
    ensures a[i].value == Undefined <==> b[i].value == Undefined
    ensures a[i].value != Undefined ==> Norm(a[i].value) == Norm(b[i].value)
  {
    hide Norm;
    if a[i].value != Undefined { FieldCarries(a, b, i); }
    if b[i].value != Undefined { FieldCarries(b, a, i); }
  }

  /** An object with the template's fields, each absent or normal. */
  ghost predicate Shaped(v: Value, template: seq<Keyed<Value>>) {
    && v.Obj? && SameKeys(v.members, template)
    && forall i :: 0 <= i < |v.members| ==> v.members[i].value == Undefined || Normal(v.members[i].value)
  }

  lemma ShapedIsWellFormed(v: Value, template: seq<Keyed<Value>>)
    requires Shaped(v, template) && DistinctKeys(template)
    ensures WellFormed(v)
  {
    hide Normal;
    forall i | 0 <= i < |v.members| ensures WellFormed(v.members[i].value) {
      if v.members[i].value != Undefined { NormalIsWellFormed(v.members[i].value); }
    }
  }

  lemma ShapedAlike(v: Value, w: Value, template: seq<Keyed<Value>>)
    requires Shaped(v, template) && Shaped(w, template) && DistinctKeys(template) && Norm(v) == Norm(w)
    ensures v == w
  {
    hide Norm, Normal;
    forall i | 0 <= i < |v.members| ensures v.members[i] == w.members[i] {
      FieldsAgree(v.members, w.members, i);
      if v.members[i].value != Undefined {
        NormalIsFixed(v.members[i].value);
        NormalIsFixed(w.members[i].value);
      }
    }
  }

  lemma FieldIsNormal(row: Value, name: string)
    requires Normal(row)
    ensures Field(row, name) == Undefined || Normal(Field(row, name))
  {
    if row.Obj? && Lookup(row.members, Ascii(name)).Some? { LookupAt(row.members, Ascii(name)); }
  }

  function ContentTemplate(): (template: seq<Keyed<Value>>)
    ensures |template| == 4
  {
    ContentFact(Null)[0].members
  }

  function RefTemplate(): (template: seq<Keyed<Value>>)
    ensures |template| == 5
  {
    ObjectRef(Null).members
  }

  lemma TemplatesAreDistinct()
    ensures DistinctKeys(ContentTemplate()) && DistinctKeys(RefTemplate())
  {
    var c, r := ContentTemplate(), RefTemplate();
    assert |c[0].key| == 12 && |c[1].key| == 17 && |c[2].key| == 7 && |c[3].key| == 10;
    assert |r[0].key| == 9 && |r[1].key| == 12 && |r[2].key| == 7 && |r[3].key| == 12 && |r[4].key| == 14;
    assert r[1].key[0] == 99 && r[3].key[0] == 114;
  }

  lemma ContentIsShaped(row: Value)
    requires Normal(row)
    ensures Shaped(ContentFact(row)[0], ContentTemplate())
  {
    hide Normal, Field, Ascii;
    FieldIsNormal(row, "content_hash");
    FieldIsNormal(row, "content_tree_hash");
    FieldIsNormal(row, "raw_ref");
    FieldIsNormal(row, "object_ref");
  }

  lemma RefIsShaped(v: Value)
    requires Normal(v)
    ensures Shaped(ObjectRef(v), RefTemplate())
  {
    hide Normal, Field, Ascii;
    FieldIsNormal(v, "namespace");
    FieldIsNormal(v, "content_hash");
    FieldIsNormal(v, "version");
    FieldIsNormal(v, "rights_state");
    FieldIsNormal(v, "deletion_state");
  }

  lemma {:induction false} RefsAreShaped(v: Value, x: Value)
    requires Normal(v) && x in ObjectRefs(v)
    ensures Shaped(x, RefTemplate())
    decreases v, 1
  {
    hide IsObjectRef, ObjectRef, Shaped;
    match v
    case Arr(items) => RefsOfItemsAreShaped(items, x);
    case Obj(members) =>
      if x in RefsOfMembers(members) { RefsOfMembersAreShaped(members, x); } else { RefIsShaped(v); }
  }

  lemma {:induction false} RefsOfItemsAreShaped(items: seq<Value>, x: Value)
    requires (forall i :: 0 <= i < |items| ==> Normal(items[i])) && x in RefsOfItems(items)
    ensures Shaped(x, RefTemplate())
    decreases items, 0
  {
    hide Normal, Shaped, ObjectRefs;
    var n := |items| - 1;
    if x in RefsOfItems(items[..n]) { RefsOfItemsAreShaped(items[..n], x); } else { RefsAreShaped(items[n], x); }
  }

  lemma {:induction false} RefsOfMembersAreShaped(members: seq<Keyed<Value>>, x: Value)
    requires (forall i :: 0 <= i < |members| ==> Normal(members[i].value)) && x in RefsOfMembers(members)
    ensures Shaped(x, RefTemplate())
    decreases members, 0
  {
    hide Normal, Shaped, ObjectRefs;
    var n := |members| - 1;
    assert members[n].value < members[n];
    if x in RefsOfMembers(members[..n]) {
      RefsOfMembersAreShaped(members[..n], x);
    } else {
      RefsAreShaped(members[n].value, x);
    }
  }

  // The audit chain ----------------------------------------------------------------------------

  lemma SplitAtColon(a: Text, x: Text, b: Text, y: Text)
    requires a + [COLON] + x == b + [COLON] + y && COLON !in a && COLON !in b
    ensures a == b && x == y
  {
    var s := a + [COLON] + x;
    assert forall i :: 0 <= i < |a| ==> s[i] == a[i] && a[i] in a;
    assert forall i :: 0 <= i < |b| ==> s[i] == b[i] && b[i] in b;
    assert s[|a|] == COLON && s[|b|] == COLON;
    assert |a| == |b|;
    assert a == s[..|a|] && b == s[..|a|];
    assert x == s[|a| + 1..] && y == s[|a| + 1..];
  }

  lemma ChainHasNoColon(hash: Digest, audits: seq<Value>)
    requires Ideal(hash)
    ensures COLON !in AuditChain(hash, audits)
  {
  }

  /** Equal chain hashes come only from equal sequences of audit events. */
  lemma {:induction false} ChainInjective(hash: Digest, a: seq<Value>, b: seq<Value>)
    requires Ideal(hash) && (forall i :: 0 <= i < |a| ==> Normal(a[i])) && (forall i :: 0 <= i < |b| ==> Normal(b[i]))
    requires AuditChain(hash, a) == AuditChain(hash, b)
    ensures a == b
    decreases |a|
  {
    hide Print, Normal, Ascii;
    if |a| > 0 && |b| > 0 {
      var m, n := |a| - 1, |b| - 1;
      ChainHasNoColon(hash, a[..m]);
      ChainHasNoColon(hash, b[..n]);
      SplitAtColon(AuditChain(hash, a[..m]), Print(a[m]), AuditChain(hash, b[..n]), Print(b[n]));
      PrintNormal(a[m], b[n]);
      ChainInjective(hash, a[..m], b[..n]);
      assert a == a[..m] + [a[m]] && b == b[..n] + [b[n]];
    }
  }

  // Building from equal evidence ---------------------------------------------------------------

  lemma {:induction false} SameNamedRows(a: Tables, b: Tables, name: Text)
    requires SameTables(a, b)
    ensures multiset(NamedRows(a, name)) == multiset(NamedRows(b, name))
  {
    if |a| > 0 && a[0].key != name {
      assert forall i :: 0 <= i < |a[1..]| ==> a[1..][i] == a[i + 1] && b[1..][i] == b[i + 1];
      SameNamedRows(a[1..], b[1..], name);
    }
  }

  lemma {:induction false} SameAllRows(a: Tables, b: Tables)
    requires SameTables(a, b)
    ensures multiset(AllRows(a)) == multiset(AllRows(b))
  {
    if |a| > 0 {
      SameAllRows(a[..|a| - 1], b[..|b| - 1]);
    }
  }

  lemma PrintOrders(xs: seq<Value>)
    requires forall i, j :: 0 <= i < |xs| && 0 <= j < |xs| && Print(xs[i]) == Print(xs[j]) ==> xs[i] == xs[j]
    ensures Orders(PrintBefore, xs)
  {
    hide Print, Less;
    LessOrders();
    forall i, j | 0 <= i < |xs| && 0 <= j < |xs| && xs[i] != xs[j]
      ensures PrintBefore(xs[i], xs[j]) || PrintBefore(xs[j], xs[i])
    {
      LessTotal(Print(xs[i]), Print(xs[j]));
    }
    assert forall x, y, z :: PrintBefore(x, y) && PrintBefore(y, z) ==> PrintBefore(x, z);
  }

  lemma RowsOrdered(rows: seq<Value>)
    requires NormalRows(rows)
    ensures Orders(PrintBefore, rows)
  {
    hide Print, Normal, Orders;
    forall i, j | 0 <= i < |rows| && 0 <= j < |rows| && Print(rows[i]) == Print(rows[j]) ensures rows[i] == rows[j] {
      PrintNormal(rows[i], rows[j]);
    }
    PrintOrders(rows);
  }

  lemma SameProjection(a: Tables, b: Tables)
    requires SameTables(a, b) && forall i :: 0 <= i < |a| ==> NormalRows(a[i].value)
    ensures Projection(a) == Projection(b)
  {
    hide NormalRows, SortBy, Orders;
    var left, right := MapValues(SortedRows, a), MapValues(SortedRows, b);
    forall i | 0 <= i < |a| ensures left[i] == right[i] {
      RowsOrdered(a[i].value);
      SortByUnique(PrintBefore, a[i].value, b[i].value);
    }
  }

  lemma IdsOrdered(rows: seq<Value>)
    ensures Orders(TextBefore, Gather(IdText, rows))
  {
    hide StringOf, StableId, Less, Gather;
    LessOrders();
    var ids := Gather(IdText, rows);
    forall i | 0 <= i < |ids| ensures ids[i].Str? {
      GatherMembers(IdText, rows, ids[i]);
      var k :| 0 <= k < |rows| && ids[i] in IdText(rows[k]);
    }
    forall i, j | 0 <= i < |ids| && 0 <= j < |ids| && ids[i] != ids[j]
      ensures TextBefore(ids[i], ids[j]) || TextBefore(ids[j], ids[i])
    {
      LessTotal(ids[i].text, ids[j].text);
    }
    assert forall x, y, z :: TextBefore(x, y) && TextBefore(y, z) ==> TextBefore(x, z);
  }

  lemma SameIdHash(hash: Digest, a: Tables, b: Tables, name: Text)
    requires SameTables(a, b)
    ensures IdHashOf(hash, a, name) == IdHashOf(hash, b, name)
    ensures CountOf(a, name) == CountOf(b, name)
  {
    hide SameTables, NamedRows, Gather, SortBy, Orders, Print, DecimalText;
    SameNamedRows(a, b, name);
    assert |NamedRows(a, name)| == |multiset(NamedRows(a, name))|;
    assert |NamedRows(b, name)| == |multiset(NamedRows(b, name))|;
    GatherMultiset(IdText, NamedRows(a, name), NamedRows(b, name));
    IdsOrdered(NamedRows(a, name));
    SortByUnique(TextBefore, Gather(IdText, NamedRows(a, name)), Gather(IdText, NamedRows(b, name)));
  }

  ghost predicate NormalTables(tables: Tables) {
    forall i :: 0 <= i < |tables| ==> NormalRows(tables[i].value)
  }

  lemma AllRowsNormal(tables: Tables, row: Value)
    requires NormalTables(tables) && row in AllRows(tables)
    ensures Normal(row) && row.Obj?
  {
    hide Gather, Normal;
    GatherMembers(RowsOf, tables, row);
    var k :| 0 <= k < |tables| && row in RowsOf(tables[k]);
    assert NormalRows(tables[k].value);
  }

  lemma RefsOrdered(tables: Tables)
    requires NormalTables(tables)
    ensures Orders(PrintBefore, Gather(ObjectRefs, AllRows(tables)))
  {
    hide Gather, Normal, Orders, Print, Norm, Shaped, ObjectRefs, WellFormed, NormalTables, AllRows, RefTemplate,
      DistinctKeys;
    var refs := Gather(ObjectRefs, AllRows(tables));
    TemplatesAreDistinct();
    forall i | 0 <= i < |refs| ensures Shaped(refs[i], RefTemplate()) {
      GatherMembers(ObjectRefs, AllRows(tables), refs[i]);
      var k :| 0 <= k < |AllRows(tables)| && refs[i] in ObjectRefs(AllRows(tables)[k]);
      AllRowsNormal(tables, AllRows(tables)[k]);
      RefsAreShaped(AllRows(tables)[k], refs[i]);
    }
    forall i, j | 0 <= i < |refs| && 0 <= j < |refs| && Print(refs[i]) == Print(refs[j]) ensures refs[i] == refs[j] {
      ShapedIsWellFormed(refs[i], RefTemplate());
      ShapedIsWellFormed(refs[j], RefTemplate());
      PrintAlike(refs[i], refs[j]);
      ShapedAlike(refs[i], refs[j], RefTemplate());
    }
    PrintOrders(refs);
  }

  lemma SameRefs(a: Tables, b: Tables)
    requires SameTables(a, b) && NormalTables(a)
    ensures SortBy(PrintBefore, Gather(ObjectRefs, AllRows(a))) == SortBy(PrintBefore, Gather(ObjectRefs, AllRows(b)))
  {
    hide SameTables, NormalTables, Gather, SortBy, Orders, ObjectRefs, AllRows;
    SameAllRows(a, b);
    GatherMultiset(ObjectRefs, AllRows(a), AllRows(b));
    RefsOrdered(a);
    SortByUnique(PrintBefore, Gather(ObjectRefs, AllRows(a)), Gather(ObjectRefs, AllRows(b)));
  }

  lemma {:induction false} EvidenceBuilds(hash: Digest, collections: seq<Text>, d: LogicalDump, e: LogicalDump)
    requires NormalDump(d) && SameEvidence(d, e)
    ensures Build(hash, collections, d) == Build(hash, collections, e)
  {
    hide SameTables, NormalRows, Normal, SortBy, Gather, Print, Projection, CountOf, IdHashOf, Ascii, AuditChain,
      Audits, RelationRows, ContentFacts, AllRows;
    forall i | 0 <= i < |collections|
      ensures CountOf(d.tables, collections[i]) == CountOf(e.tables, collections[i])
      ensures IdHashOf(hash, d.tables, collections[i]) == IdHashOf(hash, e.tables, collections[i])
    {
      SameIdHash(hash, d.tables, e.tables, collections[i]);
    }
    SameProjection(d.tables, e.tables);
    SameRefs(d.tables, e.tables);
    BareAlike(hash, collections, d, e);
  }

  lemma BareAlike(hash: Digest, collections: seq<Text>, d: LogicalDump, e: LogicalDump)
    requires d.schemaVersion == e.schemaVersion && Projection(d.tables) == Projection(e.tables)
    requires RelationRows(d.tables) == RelationRows(e.tables) && ContentFacts(d.tables) == ContentFacts(e.tables)
    requires Audits(d.tables) == Audits(e.tables)
    requires SortBy(PrintBefore, Gather(ObjectRefs, AllRows(d.tables))) ==
      SortBy(PrintBefore, Gather(ObjectRefs, AllRows(e.tables)))
    requires forall i :: 0 <= i < |collections| ==>
      CountOf(d.tables, collections[i]) == CountOf(e.tables, collections[i])
    requires forall i :: 0 <= i < |collections| ==>
      IdHashOf(hash, d.tables, collections[i]) == IdHashOf(hash, e.tables, collections[i])
    ensures Bare(hash, collections, d) == Bare(hash, collections, e)
  {
    hide SortBy, Gather, Print, Projection, CountOf, IdHashOf, Ascii, AuditChain, Audits, RelationRows, ContentFacts,
      AllRows;
    var n := |collections|;
    assert seq(n, i requires 0 <= i < n => CountOf(d.tables, collections[i])) ==
      seq(n, i requires 0 <= i < n => CountOf(e.tables, collections[i]));
    assert seq(n, i requires 0 <= i < n => IdHashOf(hash, d.tables, collections[i])) ==
      seq(n, i requires 0 <= i < n => IdHashOf(hash, e.tables, collections[i]));
  }

  // Two facts about these definitions ----------------------------------------------------------

  /** Each unit as two units of 256 or more. */
  function Widened(t: Text): Text {
    seq(2 * |t|, i requires 0 <= i < 2 * |t| => if i % 2 == 0 then t[i / 2] / 256 + 256 else t[i / 2] % 256 + 256)
  }

  /** Ideal digests exist. */
  lemma {:induction false} IdealExists()
    ensures Ideal(Widened)
  {
    forall s, t | Widened(s) == Widened(t) ensures s == t {
      assert |Widened(s)| == 2 * |s| && |Widened(t)| == 2 * |t|;
      forall i | 0 <= i < |s| ensures s[i] == t[i] {
        assert Widened(s)[2 * i] == Widened(t)[2 * i] && Widened(s)[2 * i + 1] == Widened(t)[2 * i + 1];
        assert s[i] == s[i] / 256 * 256 + s[i] % 256 && t[i] == t[i] / 256 * 256 + t[i] % 256;
      }
    }
    forall t ensures Widened(t) != Ascii("phase1-audit-v1") && COLON !in Widened(t) {
      assert |Ascii("phase1-audit-v1")| == 15;
    }
  }

  function EdgesDump(rows: seq<Value>): LogicalDump {
    LogicalDump(Null, [Keyed(Ascii("edges"), rows)])
  }

  lemma EdgesRelations(rows: seq<Value>)
    ensures RelationRows(EdgesDump(rows).tables) == rows
  {
    GatherOne(RelationRowsOf, EdgesDump(rows).tables[0]);
  }

  /** Reordering the rows of a relation table changes the evidence. */
  lemma {:induction false} OrderOfRelationRows(r: Value, s: Value)
    requires Normal(r) && Normal(s) && r.Obj? && s.Obj? && r != s
    ensures var d, e := EdgesDump([r, s]), EdgesDump([s, r]);
      NormalDump(d) && NormalDump(e) && SameTables(d.tables, e.tables) && !SameEvidence(d, e)
  {
    hide Normal, Gather, Audits, ContentFacts, RelationRows;
    EdgesRelations([r, s]);
    EdgesRelations([s, r]);
    assert [r, s][0] != [s, r][0];
    assert multiset([r, s]) == multiset([s, r]);
    assert Normal(Null) by { NullIsNormal(); }
  }

  lemma NullIsNormal()
    ensures Normal(Null)
  {
  }
}
