/** The meaning of a manifest: two dumps have one manifest exactly when they share the evidence. */
module ManifestMeaning {
  import opened Json
  import opened JsonOrder
  import opened JsonCanonical
  import opened Manifest
  import opened ManifestSort
  import opened ManifestDump
  import opened ManifestEvidence
  import Versions

  // A manifest's printed text determines its fields ----------------------------------------------

  lemma {:induction false} LeadingZero(n: nat)
    ensures Versions.Decimal(n)[0] == '0' ==> n == 0
  {
    if n >= 10 { LeadingZero(n / 10); }
  }

  lemma DecimalDigits(n: nat)
    ensures |DecimalText(n)| > 0 && forall i :: 0 <= i < |DecimalText(n)| ==> IsDigit(DecimalText(n)[i])
    ensures DecimalText(n)[0] == 48 ==> n == 0
  {
    var s := Versions.Decimal(n);
    forall i | 0 <= i < |s| ensures IsDigit(Ascii(s)[i]) { assert Versions.IsDigit(s[i]); }
    if DecimalText(n)[0] == 48 {
      assert s[0] as int == 48;
      LeadingZero(n);
    }
  }

  lemma {:induction false} DropsAll(t: Text)
    requires forall i :: 0 <= i < |t| ==> IsDigit(t[i])
    ensures DropDigits(t) == []
  {
    if |t| > 0 { DropsAll(t[1..]); }
  }

  lemma DecimalIsNumber(n: nat)
    ensures NumberText(DecimalText(n))
  {
    DecimalDigits(n);
    var t := DecimalText(n);
    assert IsDigit(t[0]);
    DropsAll(t);
    if n == 0 { assert t[1..] == []; }
  }

  lemma TwoIsNumber()
    ensures NumberText([50])
  {
    DecimalIsNumber(2);
    assert DecimalText(2)[0] == 50;
  }

  ghost predicate DistinctTexts(texts: seq<Text>) {
    forall i, j :: 0 <= i < j < |texts| ==> texts[i] != texts[j]
  }

  const MANIFEST_KEYS: seq<Text> := [
    Ascii("format_version"), Ascii("schema_version"), Ascii("collection_counts"), Ascii("stable_id_hashes"),
    Ascii("canonical_projection_hash"), Ascii("relation_hash"), Ascii("content_hash"), Ascii("audit_chain_hash"),
    Ascii("object_ref_hash"), Ascii("manifest_hash")]

  /** The collections a manifest counts and hashes. */
  const COLLECTIONS: seq<Text> := [
    Ascii("users"), Ascii("media"), Ascii("sources"), Ascii("prompt_artifacts"), Ascii("taxonomy_nodes"),
      Ascii("page_records"),
    Ascii("locale_variants"), Ascii("edges"), Ascii("audit_events"), Ascii("module_envelopes"),
      Ascii("publication_snapshots"),
    Ascii("publication_states"), Ascii("active_publication_pointers"), Ascii("redirects"), Ascii("workflow_runs"),
    Ascii("deletion_requests")]

  /** Enough of a text to tell these names apart: its length and first unit. */
  function Mark(t: Text): (int, int) {
    (|t|, if |t| > 0 then t[0] else 0)
  }

  lemma MarksDiffer(texts: seq<Text>, marks: seq<(int, int)>)
    requires |texts| == |marks| && forall i :: 0 <= i < |texts| ==> Mark(texts[i]) == marks[i]
    requires forall i, j :: 0 <= i < j < |marks| ==> marks[i] != marks[j]
    ensures DistinctTexts(texts)
  {
    forall i, j | 0 <= i < j < |texts| ensures texts[i] != texts[j] {
      assert Mark(texts[i]) == marks[i] && Mark(texts[j]) == marks[j];
    }
  }

  lemma MarkOf(s: string)
    requires |s| > 0 && s[0] < 128 as char
    ensures Mark(Ascii(s)) == (|s|, s[0] as int)
  {
  }

  lemma ManifestKeysDistinct()
    ensures DistinctTexts(MANIFEST_KEYS)
  {
    var marks :=
      [(14, 102), (14, 115), (17, 99), (16, 115), (25, 99), (13, 114), (12, 99), (16, 97), (15, 111), (13, 109)];
    MarkOf("format_version");
    MarkOf("schema_version");
    MarkOf("collection_counts");
    MarkOf("stable_id_hashes");
    MarkOf("canonical_projection_hash");
    MarkOf("relation_hash");
    MarkOf("content_hash");
    MarkOf("audit_chain_hash");
    MarkOf("object_ref_hash");
    MarkOf("manifest_hash");
    hide Ascii, Mark;
    MarksDiffer(MANIFEST_KEYS, marks);
  }

  /** No collection is counted twice. */
  lemma {:induction false} CollectionsDistinct()
    ensures DistinctTexts(COLLECTIONS)
  {
    var marks := [
      (5, 117), (5, 109), (7, 115), (16, 112), (14, 116), (12, 112), (15, 108), (5, 101), (12, 97), (16, 109),
        (21, 112), (18, 112),
      (27, 97), (9, 114), (13, 119), (17, 100)];
    MarkOf("users");
    MarkOf("media");
    MarkOf("sources");
    MarkOf("prompt_artifacts");
    MarkOf("taxonomy_nodes");
    MarkOf("page_records");
    MarkOf("locale_variants");
    MarkOf("edges");
    MarkOf("audit_events");
    MarkOf("module_envelopes");
    MarkOf("publication_snapshots");
    MarkOf("publication_states");
    MarkOf("active_publication_pointers");
    MarkOf("redirects");
    MarkOf("workflow_runs");
    MarkOf("deletion_requests");
    hide Ascii, Mark;
    MarksDiffer(COLLECTIONS, marks);
  }

  /** The fields of a manifest, in order, under the manifest's keys. */
  lemma BareShape(hash: Digest, collections: seq<Text>, d: LogicalDump)
    ensures var bare := Bare(hash, collections, d);
      |bare| == 9 && forall i :: 0 <= i < 9 ==> bare[i].key == MANIFEST_KEYS[i]
  {
    hide Ascii, SortBy, Gather, Print, Projection, AuditChain, Audits, RelationRows, ContentFacts, AllRows;
  }

  function ManifestMembers(m: IntegrityManifest): seq<Keyed<Value>> {
    m.bare + [Keyed(Ascii("manifest_hash"), Str(m.manifestHash))]
  }

  lemma MembersShape(hash: Digest, collections: seq<Text>, d: LogicalDump)
    ensures var members := ManifestMembers(Build(hash, collections, d));
      && |members| == 10 && (forall i :: 0 <= i < 10 ==> members[i].key == MANIFEST_KEYS[i])
      && (forall i :: 0 <= i < 9 ==> members[i] == Bare(hash, collections, d)[i])
      && members[9].value.Str? && DistinctKeys(members)
  {
    BareShape(hash, collections, d);
    ManifestKeysDistinct();
    assert MANIFEST_KEYS[9] == Ascii("manifest_hash");
    hide Bare, Ascii, Print;
  }

  lemma CountsWellFormed(tables: Tables, collections: seq<Text>)
    requires DistinctTexts(collections)
    ensures WellFormed(Obj(seq(|collections|, i requires 0 <= i < |collections| => CountOf(tables, collections[i]))))
  {
    hide NumberText;
    var counts := seq(|collections|, i requires 0 <= i < |collections| => CountOf(tables, collections[i]));
    forall i | 0 <= i < |counts| ensures WellFormed(counts[i].value) {
      DecimalIsNumber(|NamedRows(tables, collections[i])|);
    }
    assert DistinctKeys(counts);
  }

  lemma IdHashesWellFormed(hash: Digest, tables: Tables, collections: seq<Text>)
    requires DistinctTexts(collections)
    ensures WellFormed(Obj(seq(|collections|,
      i requires 0 <= i < |collections| => IdHashOf(hash, tables, collections[i]))))
  {
    var hashes := seq(|collections|, i requires 0 <= i < |collections| => IdHashOf(hash, tables, collections[i]));
    assert DistinctKeys(hashes);
  }

  lemma BareWellFormed(hash: Digest, collections: seq<Text>, d: LogicalDump)
    requires DistinctTexts(collections) && WellFormed(d.schemaVersion)
    ensures forall i :: 0 <= i < |Bare(hash, collections, d)| ==> WellFormed(Bare(hash, collections, d)[i].value)
  {
    hide Ascii, SortBy, Gather, Print, Projection, AuditChain, Audits, RelationRows, ContentFacts, AllRows, NumberText,
      CountOf, IdHashOf;
    CountsWellFormed(d.tables, collections);
    IdHashesWellFormed(hash, d.tables, collections);
    TwoIsNumber();
  }

  lemma ManifestWellFormed(hash: Digest, collections: seq<Text>, d: LogicalDump)
    requires DistinctTexts(collections) && WellFormed(d.schemaVersion)
    ensures WellFormed(ManifestValue(Build(hash, collections, d)))
  {
    BareWellFormed(hash, collections, d);
    MembersShape(hash, collections, d);
    hide Bare, Ascii, NumberText;
    var members := ManifestMembers(Build(hash, collections, d));
    forall i | 0 <= i < |members| ensures WellFormed(members[i].value) {
      if i < 9 { assert members[i] == Bare(hash, collections, d)[i]; }
    }
  }

  /** The manifests' printed texts being equal, each field's normal form is. */
  lemma BareAgrees(hash: Digest, collections: seq<Text>, d: LogicalDump, e: LogicalDump, i: nat)
    requires DistinctTexts(collections) && WellFormed(d.schemaVersion) && WellFormed(e.schemaVersion) && i < 9
    requires Print(ManifestValue(Build(hash, collections, d))) == Print(ManifestValue(Build(hash, collections, e)))
    ensures |Bare(hash, collections, d)| == |Bare(hash, collections, e)| == 9
    ensures var a, b := Bare(hash, collections, d)[i].value, Bare(hash, collections, e)[i].value;
      (a == Undefined <==> b == Undefined) && (a != Undefined ==> Norm(a) == Norm(b))
  {
    hide Bare, Print, Norm, WellFormed, Ascii;
    ManifestWellFormed(hash, collections, d);
    ManifestWellFormed(hash, collections, e);
    var m, n := Build(hash, collections, d), Build(hash, collections, e);
    PrintAlike(ManifestValue(m), ManifestValue(n));
    MembersShape(hash, collections, d);
    MembersShape(hash, collections, e);
    BareShape(hash, collections, d);
    BareShape(hash, collections, e);
    FieldsAgree(ManifestMembers(m), ManifestMembers(n), i);
  }

  lemma NormText(a: Text, b: Text)
    requires Norm(Str(a)) == Norm(Str(b))
    ensures a == b
  {
  }

  // From equal hashes to equal rows ------------------------------------------------------------

  lemma ProjectionNormal(tables: Tables)
    requires NormalTables(tables) && Sorted(tables)
    ensures Normal(Projection(tables))
  {
    hide SortBy;
    var projected := MapValues(SortedRows, tables);
    forall i | 0 <= i < |tables| ensures Normal(projected[i].value) {
      var rows := tables[i].value;
      assert NormalRows(rows);
      SortByMultiset(PrintBefore, rows);
      forall k | 0 <= k < |SortBy(PrintBefore, rows)| ensures Normal(SortBy(PrintBefore, rows)[k]) {
        assert SortBy(PrintBefore, rows)[k] in multiset(rows);
      }
    }
  }

  lemma ProjectionSame(a: Tables, b: Tables)
    requires Projection(a) == Projection(b)
    ensures SameTables(a, b)
  {
    hide SortBy;
    var left, right := MapValues(SortedRows, a), MapValues(SortedRows, b);
    forall i | 0 <= i < |a| ensures a[i].key == b[i].key && multiset(a[i].value) == multiset(b[i].value) {
      assert left[i] == right[i];
      SortByMultiset(PrintBefore, a[i].value);
      SortByMultiset(PrintBefore, b[i].value);
    }
  }

  lemma RelationsNormal(tables: Tables)
    requires NormalTables(tables)
    ensures Normal(Arr(RelationRows(tables)))
  {
    hide Gather;
    forall i | 0 <= i < |RelationRows(tables)| ensures Normal(RelationRows(tables)[i]) {
      GatherMembers(RelationRowsOf, tables, RelationRows(tables)[i]);
      var k :| 0 <= k < |tables| && RelationRows(tables)[i] in RelationRowsOf(tables[k]);
      assert NormalRows(tables[k].value);
    }
  }

  lemma ContentShaped(tables: Tables, i: nat)
    requires NormalTables(tables) && i < |ContentFacts(tables)|
    ensures Shaped(ContentFacts(tables)[i], ContentTemplate()) && WellFormed(ContentFacts(tables)[i])
  {
    hide Gather, Shaped, AllRows, NormalTables, Normal, WellFormed;
    var x := ContentFacts(tables)[i];
    GatherMembers(ContentFact, AllRows(tables), x);
    var k :| 0 <= k < |AllRows(tables)| && x in ContentFact(AllRows(tables)[k]);
    AllRowsNormal(tables, AllRows(tables)[k]);
    ContentIsShaped(AllRows(tables)[k]);
    assert x == ContentFact(AllRows(tables)[k])[0];
    TemplatesAreDistinct();
    ShapedIsWellFormed(x, ContentTemplate());
  }

  lemma ContentSame(a: Tables, b: Tables)
    requires NormalTables(a) && NormalTables(b) && Norm(Arr(ContentFacts(a))) == Norm(Arr(ContentFacts(b)))
    ensures ContentFacts(a) == ContentFacts(b)
  {
    NormItemsAt(ContentFacts(a));
    NormItemsAt(ContentFacts(b));
    TemplatesAreDistinct();
    assert NormItems(ContentFacts(a)) == NormItems(ContentFacts(b));
    hide ContentFacts, Norm, NormItems, Shaped, NormalTables, DistinctKeys, ContentTemplate;
    forall i | 0 <= i < |ContentFacts(a)| ensures ContentFacts(a)[i] == ContentFacts(b)[i] {
      ContentShaped(a, i);
      ContentShaped(b, i);
      ShapedAlike(ContentFacts(a)[i], ContentFacts(b)[i], ContentTemplate());
    }
  }

  lemma AuditsNormal(tables: Tables)
    requires NormalTables(tables)
    ensures forall i :: 0 <= i < |Audits(tables)| ==> Normal(Audits(tables)[i])
  {
    hide SortBy, Lookup, Normal, Ascii;
    var rows := NamedRows(tables, Ascii("audit_events"));
    SortByMultiset(AuditBefore, rows);
    if Lookup(tables, Ascii("audit_events")).Some? { LookupAt(tables, Ascii("audit_events")); }
    forall i | 0 <= i < |Audits(tables)| ensures Normal(Audits(tables)[i]) {
      assert Audits(tables)[i] in multiset(rows);
      assert NormalRows(rows);
    }
  }

  lemma SchemaSame(hash: Digest, collections: seq<Text>, d: LogicalDump, e: LogicalDump)
    requires Normal(d.schemaVersion) && Normal(e.schemaVersion)
    requires Norm(Bare(hash, collections, d)[1].value) == Norm(Bare(hash, collections, e)[1].value)
    ensures d.schemaVersion == e.schemaVersion
  {
    hide Norm, Normal, Print, Ascii, SortBy, Gather, AuditChain, Projection;
    NormalIsFixed(d.schemaVersion);
    NormalIsFixed(e.schemaVersion);
  }

  lemma HashesSame(hash: Digest, collections: seq<Text>, d: LogicalDump, e: LogicalDump)
    requires forall i :: 4 <= i < 9 ==>
      Norm(Bare(hash, collections, d)[i].value) == Norm(Bare(hash, collections, e)[i].value)
    ensures hash(Print(Projection(d.tables))) == hash(Print(Projection(e.tables)))
    ensures hash(Print(Arr(RelationRows(d.tables)))) == hash(Print(Arr(RelationRows(e.tables))))
    ensures hash(Print(Arr(ContentFacts(d.tables)))) == hash(Print(Arr(ContentFacts(e.tables))))
    ensures AuditChain(hash, Audits(d.tables)) == AuditChain(hash, Audits(e.tables))
  {
    hide Norm, Print, Ascii, SortBy, Gather, AuditChain, Projection, RelationRows, ContentFacts, Audits, AllRows,
      CountOf, IdHashOf;
    var a, b := Bare(hash, collections, d), Bare(hash, collections, e);
    assert a[4].value.Str? && b[4].value.Str? && a[5].value.Str? && b[5].value.Str?;
    NormText(a[4].value.text, b[4].value.text);
    NormText(a[5].value.text, b[5].value.text);
    NormText(a[6].value.text, b[6].value.text);
    NormText(a[7].value.text, b[7].value.text);
  }

  lemma HashesOfPrinted(hash: Digest, collections: seq<Text>, d: LogicalDump, e: LogicalDump)
    requires DistinctTexts(collections) && WellFormed(d.schemaVersion) && WellFormed(e.schemaVersion)
    requires Normal(d.schemaVersion) && Normal(e.schemaVersion)
    requires Print(ManifestValue(Build(hash, collections, d))) == Print(ManifestValue(Build(hash, collections, e)))
    ensures d.schemaVersion == e.schemaVersion
    ensures hash(Print(Projection(d.tables))) == hash(Print(Projection(e.tables)))
    ensures hash(Print(Arr(RelationRows(d.tables)))) == hash(Print(Arr(RelationRows(e.tables))))
    ensures hash(Print(Arr(ContentFacts(d.tables)))) == hash(Print(Arr(ContentFacts(e.tables))))
    ensures AuditChain(hash, Audits(d.tables)) == AuditChain(hash, Audits(e.tables))
  {
    NormalIsDefined(d.schemaVersion);
    hide Normal, WellFormed, Print, Norm, Projection, RelationRows, ContentFacts, Audits, AuditChain;
    BareDefined(hash, collections, d);
    hide Bare, Build, ManifestValue, DistinctTexts;
    forall i | 0 <= i < 9
      ensures |Bare(hash, collections, d)| == |Bare(hash, collections, e)| == 9
      ensures Norm(Bare(hash, collections, d)[i].value) == Norm(Bare(hash, collections, e)[i].value)
    {
      BareAgrees(hash, collections, d, e, i);
    }
    SchemaSame(hash, collections, d, e);
    HashesSame(hash, collections, d, e);
  }

  lemma BareDefined(hash: Digest, collections: seq<Text>, d: LogicalDump)
    requires d.schemaVersion != Undefined
    ensures forall i :: 0 <= i < |Bare(hash, collections, d)| ==> Bare(hash, collections, d)[i].value != Undefined
  {
    hide Ascii, SortBy, Gather, Print, Projection, AuditChain, Audits, RelationRows, ContentFacts, AllRows, CountOf,
      IdHashOf;
  }

  lemma ProjectionSameHash(hash: Digest, d: LogicalDump, e: LogicalDump)
    requires Ideal(hash) && NormalDump(d) && NormalDump(e)
    requires hash(Print(Projection(d.tables))) == hash(Print(Projection(e.tables)))
    ensures SameTables(d.tables, e.tables)
  {
    hide Print, Normal, Projection, NormalRows, Sorted, SameTables;
    ProjectionNormal(d.tables);
    ProjectionNormal(e.tables);
    PrintNormal(Projection(d.tables), Projection(e.tables));
    ProjectionSame(d.tables, e.tables);
  }

  lemma RelationsSameHash(hash: Digest, d: LogicalDump, e: LogicalDump)
    requires Ideal(hash) && NormalDump(d) && NormalDump(e)
    requires hash(Print(Arr(RelationRows(d.tables)))) == hash(Print(Arr(RelationRows(e.tables))))
    ensures RelationRows(d.tables) == RelationRows(e.tables)
  {
    hide Print, Normal, RelationRows, NormalRows, Sorted;
    RelationsNormal(d.tables);
    RelationsNormal(e.tables);
    PrintNormal(Arr(RelationRows(d.tables)), Arr(RelationRows(e.tables)));
  }

  lemma ContentSameHash(hash: Digest, d: LogicalDump, e: LogicalDump)
    requires Ideal(hash) && NormalDump(d) && NormalDump(e)
    requires hash(Print(Arr(ContentFacts(d.tables)))) == hash(Print(Arr(ContentFacts(e.tables))))
    ensures ContentFacts(d.tables) == ContentFacts(e.tables)
  {
    hide Print, Normal, Norm, ContentFacts, NormalRows, Sorted, Shaped;
    forall i | 0 <= i < |ContentFacts(d.tables)| ensures WellFormed(ContentFacts(d.tables)[i]) {
      ContentShaped(d.tables, i);
    }
    forall i | 0 <= i < |ContentFacts(e.tables)| ensures WellFormed(ContentFacts(e.tables)[i]) {
      ContentShaped(e.tables, i);
    }
    HashedAlike(hash, Arr(ContentFacts(d.tables)), Arr(ContentFacts(e.tables)));
    ContentSame(d.tables, e.tables);
  }

  lemma PrintedAlikeShareEvidence(hash: Digest, collections: seq<Text>, d: LogicalDump, e: LogicalDump)
    requires Ideal(hash) && DistinctTexts(collections) && NormalDump(d) && NormalDump(e)
    requires Print(ManifestValue(Build(hash, collections, d))) == Print(ManifestValue(Build(hash, collections, e)))
    ensures SameEvidence(d, e)
  {
    NormalIsWellFormed(d.schemaVersion);
    NormalIsWellFormed(e.schemaVersion);
    HashesOfPrinted(hash, collections, d, e);
    hide Build, ManifestValue, Print, Norm, Normal, WellFormed, Projection, ContentFacts, RelationRows, Audits,
      AuditChain, Ideal, NormalRows, SameTables;
    ProjectionSameHash(hash, d, e);
    RelationsSameHash(hash, d, e);
    ContentSameHash(hash, d, e);
    AuditsNormal(d.tables);
    AuditsNormal(e.tables);
    ChainInjective(hash, Audits(d.tables), Audits(e.tables));
  }

  /** Two dumps have one manifest exactly when they share the evidence, and their manifests print
      alike only then. */
  lemma {:induction false} OneManifest(hash: Digest, collections: seq<Text>, d: LogicalDump, e: LogicalDump)
    requires Ideal(hash) && DistinctTexts(collections) && NormalDump(d) && NormalDump(e)
    ensures Print(ManifestValue(Build(hash, collections, d))) == Print(ManifestValue(Build(hash, collections, e))) <==>
      SameEvidence(d, e)
    ensures Build(hash, collections, d) == Build(hash, collections, e) <==> SameEvidence(d, e)
  {
    hide Build, Print, Ideal, NormalDump, SameEvidence;
    if Print(ManifestValue(Build(hash, collections, d))) == Print(ManifestValue(Build(hash, collections, e))) {
      PrintedAlikeShareEvidence(hash, collections, d, e);
    }
    if SameEvidence(d, e) { EvidenceBuilds(hash, collections, d, e); }
  }
}
