/** A dump and its normal form: what printing and parsing a dump gives. */
module ManifestDump {
  import opened Contracts
  import opened Json
  import opened JsonOrder
  import opened JsonRoundTrip
  import opened JsonCanonical
  import opened JsonText
  import opened Manifest

  /** The dumps of the source's type: each table once, its rows objects. */
  ghost predicate ProperDump(d: LogicalDump) {
    && WellFormed(d.schemaVersion) && d.schemaVersion != Undefined
    && DistinctKeys(d.tables)
    && forall i :: 0 <= i < |d.tables| ==> ProperRows(d.tables[i].value)
  }

  ghost predicate ProperRows(rows: seq<Value>) {
    AllObjects(rows) && forall i :: 0 <= i < |rows| ==> WellFormed(rows[i])
  }

  ghost predicate NormalDump(d: LogicalDump) {
    && Normal(d.schemaVersion)
    && Sorted(d.tables)
    && forall i :: 0 <= i < |d.tables| ==> NormalRows(d.tables[i].value)
  }

  ghost predicate NormalRows(rows: seq<Value>) {
    AllObjects(rows) && forall i :: 0 <= i < |rows| ==> Normal(rows[i])
  }

  function NormTables(tables: seq<Keyed<seq<Value>>>): seq<Keyed<seq<Value>>> {
    Sort(MapValues(NormItems, tables))
  }

  function NormDump(d: LogicalDump): LogicalDump {
    LogicalDump(Norm(d.schemaVersion), NormTables(d.tables))
  }

  lemma {:induction false} NormalIsWellFormed(v: Value)
    requires Normal(v)
    ensures WellFormed(v)
  {
    match v
    case Arr(items) =>
      forall i | 0 <= i < |items| ensures WellFormed(items[i]) { NormalIsWellFormed(items[i]); }
    case Obj(members) =>
      SortedDistinct(members);
      forall i | 0 <= i < |members| ensures WellFormed(members[i].value) {
        assert members[i].value < members[i];
        NormalIsWellFormed(members[i].value);
      }
    case _ =>
  }

  // Keys ---------------------------------------------------------------------------------------

  lemma DumpKeys()
    ensures Less(Ascii("schema_version"), Ascii("tables")) && Ascii("schema_version") != Ascii("tables")
  {
    assert Ascii("schema_version")[0] == 115 && Ascii("tables")[0] == 116;
  }

  lemma NormPair(version: Value, tables: Value)
    requires version != Undefined && tables != Undefined
    ensures Norm(Obj(DumpFields(version, tables))) == Obj(DumpFields(Norm(version), Norm(tables)))
  {
    hide Norm, Ascii, Less;
    DumpKeys();
    var fields := DumpFields(version, tables);
    NormPairMembers(fields);
    assert NormMembers(fields) == DumpFields(Norm(version), Norm(tables));
    SortFixed(DumpFields(Norm(version), Norm(tables)));
    NormOfObject(fields);
  }

  lemma NormPairMembers(fields: seq<Keyed<Value>>)
    requires |fields| == 2 && fields[0].value != Undefined && fields[1].value != Undefined
    ensures NormMembers(fields) ==
      [Keyed(fields[0].key, Norm(fields[0].value)), Keyed(fields[1].key, Norm(fields[1].value))]
  {
    hide Norm;
    var others := fields[1..];
    assert others[1..] == [];
    assert NormMembers(others) == [Keyed(others[0].key, Norm(others[0].value))] + NormMembers([]);
  }

  lemma {:induction false} NormTableMembers(tables: seq<Keyed<seq<Value>>>)
    ensures NormMembers(MapValues(RowsValue, tables)) == MapValues(RowsValue, MapValues(NormItems, tables))
  {
    if |tables| > 0 {
      NormTableMembers(tables[1..]);
      assert MapValues(RowsValue, tables)[1..] == MapValues(RowsValue, tables[1..]);
      assert MapValues(NormItems, tables)[1..] == MapValues(NormItems, tables[1..]);
      assert MapValues(RowsValue, MapValues(NormItems, tables))[1..] ==
        MapValues(RowsValue, MapValues(NormItems, tables[1..]));
    }
  }

  lemma NormOfDump(d: LogicalDump)
    requires d.schemaVersion != Undefined
    ensures Norm(DumpValue(d)) == DumpValue(NormDump(d))
  {
    hide Norm, NormMembers, NormItems, Sort, Ascii;
    NormPair(d.schemaVersion, Obj(MapValues(RowsValue, d.tables)));
    NormTableMembers(d.tables);
    NormOfObject(MapValues(RowsValue, d.tables));
    SortMap(RowsValue, MapValues(NormItems, d.tables));
  }

  lemma LookupPair(version: Value, tables: Value)
    ensures Lookup(DumpFields(version, tables), Ascii("schema_version")) == Some(version)
    ensures Lookup(DumpFields(version, tables), Ascii("tables")) == Some(tables)
  {
    DumpKeys();
    hide Ascii;
    var fields := DumpFields(version, tables);
    assert fields[1..][0] == fields[1];
  }

  /** A dump is read back from the value it is written as. */
  lemma ReadWritten(d: LogicalDump)
    requires forall i :: 0 <= i < |d.tables| ==> AllObjects(d.tables[i].value)
    ensures ReadDump(DumpValue(d)) == Some(d)
  {
    hide Ascii, Lookup;
    var tables := MapValues(RowsValue, d.tables);
    LookupPair(d.schemaVersion, Obj(tables));
    assert forall i :: 0 <= i < |tables| ==> IsTable(tables[i].value);
    assert MapValues(TableRows, tables) == d.tables;
  }

  // Proper and normal dumps --------------------------------------------------------------------

  lemma DumpIsWellFormed(d: LogicalDump)
    requires ProperDump(d)
    ensures WellFormed(DumpValue(d))
  {
    hide Ascii;
    DumpKeys();
    var tables := MapValues(RowsValue, d.tables);
    forall i | 0 <= i < |tables| ensures WellFormed(tables[i].value) {
      assert ProperRows(d.tables[i].value);
    }
    assert WellFormed(Obj(tables));
  }

  lemma NormRowsNormal(rows: seq<Value>)
    requires ProperRows(rows)
    ensures NormalRows(NormItems(rows))
  {
    hide Normal, WellFormed;
    NormItemsAt(rows);
    forall i | 0 <= i < |rows| ensures Normal(NormItems(rows)[i]) && NormItems(rows)[i].Obj? { NormIsNormal(rows[i]); }
  }

  lemma {:induction false} NormDumpIsNormal(d: LogicalDump)
    requires ProperDump(d)
    ensures NormalDump(NormDump(d))
  {
    hide Normal, WellFormed, ProperRows, NormalRows, Sort;
    NormIsNormal(d.schemaVersion);
    var tables := MapValues(NormItems, d.tables);
    SortSorted(tables);
    forall i | 0 <= i < |Sort(tables)| ensures NormalRows(Sort(tables)[i].value) {
      SortMembers(tables, Sort(tables)[i]);
      var j :| 0 <= j < |tables| && tables[j] == Sort(tables)[i];
      NormRowsNormal(d.tables[j].value);
    }
  }

  lemma NormalDumpIsFixed(d: LogicalDump)
    requires NormalDump(d)
    ensures NormDump(d) == d
  {
    hide Normal, Sort, NormItems;
    NormalIsFixed(d.schemaVersion);
    var tables := MapValues(NormItems, d.tables);
    forall i | 0 <= i < |tables| ensures tables[i] == d.tables[i] {
      assert NormalRows(d.tables[i].value);
      ItemsAreFixed(d.tables[i].value);
    }
    assert tables == d.tables;
    SortFixed(d.tables);
  }

  lemma NormalDumpIsProper(d: LogicalDump)
    requires NormalDump(d)
    ensures ProperDump(d)
  {
    hide Normal, WellFormed;
    NormalIsWellFormed(d.schemaVersion);
    SortedDistinct(d.tables);
    NormalIsDefined(d.schemaVersion);
    forall i | 0 <= i < |d.tables| ensures ProperRows(d.tables[i].value) {
      var rows := d.tables[i].value;
      assert NormalRows(rows);
      forall k | 0 <= k < |rows| ensures WellFormed(rows[k]) { NormalIsWellFormed(rows[k]); }
    }
  }

  lemma NormalIsDefined(v: Value)
    requires Normal(v)
    ensures v != Undefined
  {
  }

  /** Printing a proper dump, parsing the text and reading the value gives the normal dump. */
  lemma {:induction false} DumpRoundTrip(d: LogicalDump)
    requires ProperDump(d)
    ensures Parse(Print(DumpValue(d))) == Some(DumpValue(NormDump(d)))
    ensures ReadDump(DumpValue(NormDump(d))) == Some(NormDump(d))
  {
    hide Parse, Print, DumpValue, NormDump, WellFormed, ReadDump, NormalRows, ProperRows, Norm;
    DumpIsWellFormed(d);
    ParsePrint(DumpValue(d));
    NormOfDump(d);
    NormDumpIsNormal(d);
    RowsAreObjects(NormDump(d));
    ReadWritten(NormDump(d));
  }

  lemma RowsAreObjects(d: LogicalDump)
    requires NormalDump(d)
    ensures forall i :: 0 <= i < |d.tables| ==> AllObjects(d.tables[i].value)
  {
  }

  lemma {:induction false} LookupAt<T>(members: seq<Keyed<T>>, key: Text)
    requires Lookup(members, key).Some?
    ensures exists i :: 0 <= i < |members| && members[i] == Keyed(key, Lookup(members, key).value)
  {
    if members[0].key != key {
      LookupAt(members[1..], key);
      var i :| 0 <= i < |members[1..]| && members[1..][i] == Keyed(key, Lookup(members, key).value);
      assert members[i + 1] == members[1..][i];
    } else {
      assert members[0] == Keyed(key, members[0].value);
    }
  }

  /** A parsed text that is read as a dump is a proper one. */
  lemma {:induction false} ReadIsProper(v: Value)
    requires Clean(v) && ReadDump(v).Some?
    ensures ProperDump(ReadDump(v).value)
  {
    hide Ascii, Lookup;
    CleanIsWellFormed(v);
    LookupAt(v.members, Ascii("schema_version"));
    LookupAt(v.members, Ascii("tables"));
    var tables := Lookup(v.members, Ascii("tables")).value;
    assert WellFormed(tables);
    forall i | 0 <= i < |tables.members| ensures ProperRows(TableRows(tables.members[i].value)) {
      assert WellFormed(tables.members[i].value);
    }
  }
}
