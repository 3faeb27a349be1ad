/** The live index entries of a table are those of its live rows and no others, until an INSERT overwrites a row. */
module LiveEntries {
  import opened SortedMap
  import opened Records
  import opened Ast
  import opened Rows
  import opened IndexKeys
  import opened SqlState
  import opened IndexedTables
  import opened IndexAgreement
  import opened SqlSteps
  import opened CatalogTexts
  import opened RowWrites
  import opened ChangeAnswers
  import opened RunAnswers

  /** The key is an entry of a live row of the table. */
  ghost predicate OwnEntry(catalog: Catalog, live: map<string, string>, t: string, k: string)
    requires t in catalog.tables
  {
    exists p: KeyedRow :: LiveRow(live, TablePrefix(t), p) && k in RowEntries(catalog, catalog.tables[t], p.1)
  }

  ghost predicate NoStaleEntries(catalog: Catalog, m: map<string, Value>) {
    forall t, k :: t in catalog.tables && k in Live(m) && HasPrefix(k, IndexPrefix(t)) ==> OwnEntry(catalog, Live(m), t, k)
  }

  /** The entries of the live row under a key are among these. */
  ghost predicate Covers(catalog: Catalog, schema: TableSchema, m: map<string, Value>, key: string, keys: set<string>) {
    forall p: KeyedRow :: p.0 == key && LiveRow(Live(m), TablePrefix(schema.name), p) ==> RowEntries(catalog, schema, p.1) <= keys
  }

  /** A row and its entries as a write puts them. */
  ghost predicate PutWhole(catalog: Catalog, schema: TableSchema, pk: RowValue, v: Value, put: set<string>) {
    if v.Data? then
      && Deserialize(v.text).Some? && GoodRow(schema, Deserialize(v.text).value)
      && KeyOf(schema, Contents(Deserialize(v.text).value)) == pk && put == RowEntries(catalog, schema, Deserialize(v.text).value)
    else put == {}
  }

  /** Another row of a table stays live through a write. */
  lemma {:induction false} OtherStaysLive(catalog: Catalog, m: map<string, Value>, t: string, pk: RowValue,
                                          gone: set<string>, v: Value, put: set<string>,
                                          u: string, p: KeyedRow)
    requires GoodCatalog(catalog) && t in catalog.tables && u in catalog.tables
    requires EntriesOf(t, StorageString(pk), gone) && EntriesOf(t, StorageString(pk), put)
    requires p.0 != StorageKey(t, pk)
    ensures LiveRow(Live(RowWrite(m, gone, StorageKey(t, pk), v, put)), TablePrefix(u), p) <==> LiveRow(Live(m), TablePrefix(u), p)
  {
    hide RowWrite, Live, GoodCatalog, EntriesOf, Deserialize, HasPrefix, StorageKey, Shown;
    LiveRowShown(m, TablePrefix(u), p);
    LiveRowShown(RowWrite(m, gone, StorageKey(t, pk), v, put), TablePrefix(u), p);
    if HasPrefix(p.0, TablePrefix(u)) {
      assert RowKey(catalog, p.0);
      WriteShows(catalog, m, t, pk, gone, v, put, p.0);
    }
  }

  lemma {:induction false} LiveRowShown(m: map<string, Value>, prefix: string, p: KeyedRow)
    ensures LiveRow(Live(m), prefix, p) <==>
            HasPrefix(p.0, prefix) && Shown(m, p.0).Some? && Deserialize(Shown(m, p.0).value) == Some(p.1)
  {
    hide Deserialize, HasPrefix;
  }

  lemma {:induction false} LiveAfter(m: map<string, Value>, gone: set<string>, key: string, v: Value,
                                     put: set<string>, k: string)
    requires k != key
    ensures k in Live(RowWrite(m, gone, key, v, put)) <==> k in put || (k in Live(m) && k !in gone)
  {
  }

  /** What is live of an index after a write: what was put, and what was live and is not gone. */
  lemma {:induction false} EntriesAfter(catalog: Catalog, m: map<string, Value>, t: string, pk: RowValue,
                                        gone: set<string>, v: Value, put: set<string>,
                                        u: string, k: string)
    requires GoodCatalog(catalog) && t in catalog.tables && u in catalog.tables && HasPrefix(k, IndexPrefix(u))
    requires EntriesOf(t, StorageString(pk), gone) && EntriesOf(t, StorageString(pk), put)
    ensures k in Live(RowWrite(m, gone, StorageKey(t, pk), v, put)) <==> k in put || (k in Live(m) && k !in gone)
    ensures k in put ==> u == t
  {
    assert GoodSchema(t, catalog.tables[t]) && GoodSchema(u, catalog.tables[u]);
    hide HasPrefix, StorageString, TablePrefix, IndexPrefix, LastPiece, GoodName, RowWrite, Live;
    StorageKeyApart(t, StorageString(pk), u);
    if k in put {
      IndexKeyApart(t, k, u);
    }
    LiveAfter(m, gone, StorageKey(t, pk), v, put, k);
  }

  /** A write that takes out the entries of the row it replaces leaves no stale ones. */
  lemma {:induction false} WriteLeavesNone(catalog: Catalog, m: map<string, Value>, t: string, pk: RowValue,
                                           gone: set<string>, v: Value, put: set<string>)
    requires GoodCatalog(catalog) && NoStaleEntries(catalog, m) && t in catalog.tables
    requires EntriesOf(t, StorageString(pk), gone) && EntriesOf(t, StorageString(pk), put)
    requires PutWhole(catalog, catalog.tables[t], pk, v, put)
    requires Covers(catalog, catalog.tables[t], m, StorageKey(t, pk), gone + put)
    ensures NoStaleEntries(catalog, RowWrite(m, gone, StorageKey(t, pk), v, put))
  {
    var m', key := RowWrite(m, gone, StorageKey(t, pk), v, put), StorageKey(t, pk);
    hide GoodCatalog, RowWrite, Live, EntriesOf, LiveRow, RowEntries, HasPrefix, StorageKey, PutWhole, Covers;
    forall u, k | u in catalog.tables && k in Live(m') && HasPrefix(k, IndexPrefix(u))
      ensures OwnEntry(catalog, Live(m'), u, k)
    {
      EntriesAfter(catalog, m, t, pk, gone, v, put, u, k);
      if k in put {
        WrittenOwns(catalog, m, t, pk, gone, v, put, k);
      } else {
        var p: KeyedRow :| LiveRow(Live(m), TablePrefix(u), p) && k in RowEntries(catalog, catalog.tables[u], p.1);
        if p.0 != key {
          OtherStaysLive(catalog, m, t, pk, gone, v, put, u, p);
        } else {
          KeyIsCovered(catalog, m, t, u, pk, p, gone + put);
        }
      }
    }
  }

  lemma {:induction false} KeyIsCovered(catalog: Catalog, m: map<string, Value>, t: string, u: string, pk: RowValue,
                                        p: KeyedRow, keys: set<string>)
    requires GoodCatalog(catalog) && t in catalog.tables && u in catalog.tables
    requires Covers(catalog, catalog.tables[t], m, StorageKey(t, pk), keys) && p.0 == StorageKey(t, pk)
    requires LiveRow(Live(m), TablePrefix(u), p)
    ensures RowEntries(catalog, catalog.tables[u], p.1) <= keys
  {
    assert GoodSchema(t, catalog.tables[t]);
    PrefixOf(TablePrefix(t), StorageString(pk));
    hide HasPrefix, TablePrefix, StorageString, RowEntries, Deserialize, GoodName;
    OneTable(catalog, t, u, p.0);
  }

  /** An entry put with a row is the row's own. */
  lemma {:induction false} WrittenOwns(catalog: Catalog, m: map<string, Value>, t: string, pk: RowValue,
                                       gone: set<string>, v: Value, put: set<string>, k: string)
    requires GoodCatalog(catalog) && t in catalog.tables && k in put
    requires EntriesOf(t, StorageString(pk), gone) && EntriesOf(t, StorageString(pk), put)
    requires PutWhole(catalog, catalog.tables[t], pk, v, put)
    ensures OwnEntry(catalog, Live(RowWrite(m, gone, StorageKey(t, pk), v, put)), t, k)
  {
    hide GoodCatalog, RowWrite, EntriesOf, RowEntries, HasPrefix, GoodRow, Deserialize, StorageString, TablePrefix;
    hide KeyOf, Shown, Live, LiveRow;
    var key, m' := StorageKey(t, pk), RowWrite(m, gone, StorageKey(t, pk), v, put);
    PrefixOf(TablePrefix(t), StorageString(pk));
    assert RowKey(catalog, key);
    WriteShows(catalog, m, t, pk, gone, v, put, key);
    var p := (key, Deserialize(v.text).value);
    LiveRowShown(m', TablePrefix(t), p);
  }

  ghost predicate AllLive(m: map<string, Value>, t: string, rows: seq<KeyedRow>) {
    forall i :: 0 <= i < |rows| ==> LiveRow(Live(m), TablePrefix(t), rows[i])
  }

  /** A live row is what its text reads as. */
  lemma {:induction false} OneReading(m: map<string, Value>, prefix: string, p: KeyedRow, q: KeyedRow)
    requires LiveRow(Live(m), prefix, p) && p.0 == q.0
    ensures LiveRow(Live(m), prefix, q) <==> q == p
  {
  }

  lemma {:induction false} EraseLeavesNone(catalog: Catalog, schema: TableSchema, m: map<string, Value>, p: KeyedRow)
    requires GoodCatalog(catalog) && NoStaleEntries(catalog, m) && schema.name in catalog.tables
    requires catalog.tables[schema.name] == schema
    requires StoredRow(schema, p) && Covers(catalog, schema, m, p.0, RowEntries(catalog, schema, p.1))
    ensures NoStaleEntries(catalog, RowWrite(m, RowEntries(catalog, schema, p.1), p.0, Tombstone, {}))
  {
    hide NoStaleEntries, RowEntries, RowWrite, GoodRow, EntriesOf, StorageKey, IndexKey, Covers;
    GoodRowShape(schema, p.1);
    RowEntriesExact(catalog, schema, p.1);
    var pk, gone := KeyOf(schema, Contents(p.1)), RowEntries(catalog, schema, p.1);
    NoEntries(schema.name, StorageString(pk));
    assert gone + {} == gone;
    WriteLeavesNone(catalog, m, schema.name, pk, gone, Tombstone, {});
  }

  /** Erasing rows takes all their entries out. */
  lemma {:induction false} DeleteLeavesNone(catalog: Catalog, schema: TableSchema, m: map<string, Value>,
                                            rows: seq<KeyedRow>)
    requires GoodCatalog(catalog) && NoStaleEntries(catalog, m) && schema.name in catalog.tables
    requires catalog.tables[schema.name] == schema
    requires AllStored(schema, rows) && AllLive(m, schema.name, rows)
    ensures NoStaleEntries(catalog, DeleteAll(catalog, schema, m, rows))
  {
    hide NoStaleEntries, GoodCatalog, StoredRow, RowEntries, RowWrite, LiveRow, Live, Shown, HasPrefix;
    if rows != [] {
      var n := |rows| - 1;
      var mid, p := DeleteAll(catalog, schema, m, rows[..n]), rows[n];
      DeleteLeavesNone(catalog, schema, m, rows[..n]);
      forall q: KeyedRow | q.0 == p.0 && LiveRow(Live(mid), TablePrefix(schema.name), q)
        ensures q == p
      {
        LiveRowShown(mid, TablePrefix(schema.name), q);
        assert RowKey(catalog, q.0);
        ErasedShows(catalog, schema, m, rows[..n], q.0);
        LiveRowShown(m, TablePrefix(schema.name), q);
        OneReading(m, TablePrefix(schema.name), p, q);
      }
      EraseLeavesNone(catalog, schema, mid, p);
    }
  }

  lemma {:induction false} RewriteLeavesNone(catalog: Catalog, schema: TableSchema, m: map<string, Value>,
                                             p: KeyedRow, assignments: seq<Assignment>)
    requires GoodCatalog(catalog) && NoStaleEntries(catalog, m) && schema.name in catalog.tables
    requires catalog.tables[schema.name] == schema
    requires StoredRow(schema, p) && CleanAssignments(assignments) && Assigned(schema, p.1, assignments).Some?
    requires var r := Assigned(schema, p.1, assignments).value;
             Covers(catalog, schema, m, p.0, RowEntries(catalog, schema, p.1) + RowEntries(catalog, schema, r))
    ensures var r := Assigned(schema, p.1, assignments).value;
            NoStaleEntries(catalog, RowWrite(m, RowEntries(catalog, schema, p.1), p.0, Data(Serialize(r)), RowEntries(catalog, schema, r)))
  {
    hide NoStaleEntries, RowEntries, RowWrite, GoodRow, EntriesOf, StorageKey, IndexKey, Covers, Assigned;
    hide Serialize, Deserialize, CleanLiteral;
    GoodRowShape(schema, p.1);
    RowEntriesExact(catalog, schema, p.1);
    AssignedIsGood(schema, p.1, assignments);
    var r, pk := Assigned(schema, p.1, assignments).value, KeyOf(schema, Contents(p.1));
    RowEntriesExact(catalog, schema, r);
    GoodSerialized(schema, r);
    WriteLeavesNone(catalog, m, schema.name, pk, RowEntries(catalog, schema, p.1), Data(Serialize(r)), RowEntries(catalog, schema, r));
  }

  /** In the middle of an update the row under a key is the one found there, or what the assignments made of it. */
  lemma {:induction false} HalfUpdated(catalog: Catalog, schema: TableSchema, m: map<string, Value>,
                                       rows: seq<KeyedRow>, assignments: seq<Assignment>,
                                       p: KeyedRow, q: KeyedRow)
    requires GoodCatalog(catalog) && schema.name in catalog.tables && catalog.tables[schema.name] == schema
    requires AllStored(schema, rows) && OneRowAKey(rows) && CleanAssignments(assignments)
    requires StoredRow(schema, p) && LiveRow(Live(m), TablePrefix(schema.name), p) && forall i :: 0 <= i < |rows| && rows[i].0 == p.0 ==> rows[i].1 == p.1
    requires q.0 == p.0 && LiveRow(Live(UpdateAll(catalog, schema, m, rows, assignments).0), TablePrefix(schema.name), q)
    ensures q == p || Assigned(schema, p.1, assignments) == Some(q.1)
  {
    hide GoodCatalog, StoredRow, LiveRow, Live, Shown, HasPrefix, Assigned, UpdateAll, CleanLiteral, Serialize;
    hide Deserialize, Taken, OneRowAKey;
    var mid, prefix := UpdateAll(catalog, schema, m, rows, assignments).0, TablePrefix(schema.name);
    LiveRowShown(mid, prefix, q);
    assert RowKey(catalog, q.0);
    UpdatedShows(catalog, schema, m, rows, assignments, q.0);
    var done := rows[..Taken(schema, rows, assignments)];
    if i :| 0 <= i < |done| && done[i].0 == q.0 {
      assert done[i] == rows[i];
      AssignedReads(schema, p, assignments);
    } else {
      LiveRowShown(m, prefix, q);
      OneReading(m, prefix, p, q);
    }
  }

  lemma {:induction false} AssignedReads(schema: TableSchema, p: KeyedRow, assignments: seq<Assignment>)
    requires StoredRow(schema, p) && CleanAssignments(assignments)
    ensures Assigned(schema, p.1, assignments).Some? ==>
              Deserialize(Serialize(Assigned(schema, p.1, assignments).value)) == Assigned(schema, p.1, assignments)
  {
    hide GoodRow, Assigned, CleanLiteral, Deserialize, Serialize;
    if Assigned(schema, p.1, assignments).Some? {
      AssignedIsGood(schema, p.1, assignments);
      GoodSerialized(schema, Assigned(schema, p.1, assignments).value);
    }
  }

  /** Updating rows takes out all entries they no longer have. */
  lemma {:induction false} UpdateLeavesNone(catalog: Catalog, schema: TableSchema, m: map<string, Value>,
                                            rows: seq<KeyedRow>, assignments: seq<Assignment>)
    requires GoodCatalog(catalog) && NoStaleEntries(catalog, m) && schema.name in catalog.tables
    requires catalog.tables[schema.name] == schema
    requires AllStored(schema, rows) && OneRowAKey(rows) && AllLive(m, schema.name, rows) && CleanAssignments(assignments)
    ensures NoStaleEntries(catalog, UpdateAll(catalog, schema, m, rows, assignments).0)
  {
    hide NoStaleEntries, GoodCatalog, StoredRow, RowEntries, RowWrite, LiveRow, Live, Assigned, CleanAssignments, Serialize;
    if rows != [] {
      var n := |rows| - 1;
      var p := rows[n];
      var done := UpdateAll(catalog, schema, m, rows[..n], assignments);
      UpdateLeavesNone(catalog, schema, m, rows[..n], assignments);
      if done.1 && Assigned(schema, p.1, assignments).Some? {
        var keys := RowEntries(catalog, schema, p.1) + RowEntries(catalog, schema, Assigned(schema, p.1, assignments).value);
        forall q: KeyedRow | q.0 == p.0 && LiveRow(Live(done.0), TablePrefix(schema.name), q)
          ensures RowEntries(catalog, schema, q.1) <= keys
        {
          HalfUpdated(catalog, schema, m, rows[..n], assignments, p, q);
        }
        RewriteLeavesNone(catalog, schema, done.0, p, assignments);
      }
    }
  }

  lemma {:induction false} EntryHasColumn(catalog: Catalog, schema: TableSchema, row: Row, k: string) returns (c: string)
    requires GoodRow(schema, row) && k in RowEntries(catalog, schema, row)
    ensures c in IndexedColumns(catalog, schema.name) && c in Contents(row)
    ensures k == IndexKey(schema.name, c, Contents(row)[c], KeyOf(schema, Contents(row)))
  {
    GoodRowKey(schema, row);
    hide Contents, Find, KeyOf, IndexKey, IndexedColumns, CleanRow, WellTyped;
    c :| c in IndexedColumns(catalog, schema.name) && Find(row, c).Some?
         && IndexKey(schema.name, c, Find(row, c).value, PkOf(schema, row).value) == k;
    FindIsLookup(row, c);
  }

  /** All entries of a live row are live. */
  lemma {:induction false} EntriesAreLive(catalog: Catalog, m: map<string, Value>, t: string, p: KeyedRow, k: string)
    requires WellIndexed(catalog, m) && t in catalog.tables && LiveRow(Live(m), TablePrefix(t), p)
    requires k in RowEntries(catalog, catalog.tables[t], p.1)
    ensures k in Live(m) && HasPrefix(k, IndexPrefix(t))
    ensures LastPiece(k, ':') == StorageString(KeyOf(catalog.tables[t], Contents(p.1)))
  {
    var schema := catalog.tables[t];
    LiveRowIsStored(catalog, m, t, p);
    CatalogIsGood(catalog, m);
    assert IndexedRow(catalog, schema, Live(m), p.0);
    hide GoodRow, Contents, KeyOf, IndexKey, LastPiece, HasPrefix, WellIndexed, RowEntries, Deserialize;
    hide StorageString, GoodCatalog, IndexedColumns, EntriesFor;
    GoodRowShape(schema, p.1);
    RowEntriesExact(catalog, schema, p.1);
    var c := EntryHasColumn(catalog, schema, p.1, k);
  }

  /** Rows that share an entry are the same. */
  lemma {:induction false} EntryNamesRow(catalog: Catalog, m: map<string, Value>, m': map<string, Value>, t: string,
                                         p: KeyedRow, q: KeyedRow, k: string)
    requires WellIndexed(catalog, m) && WellIndexed(catalog, m') && t in catalog.tables
    requires LiveRow(Live(m), TablePrefix(t), p) && LiveRow(Live(m'), TablePrefix(t), q)
    requires k in RowEntries(catalog, catalog.tables[t], p.1) && k in RowEntries(catalog, catalog.tables[t], q.1)
    ensures p.0 == q.0
  {
    hide WellIndexed, LiveRow, RowEntries, GoodRow, LastPiece, StorageString;
    EntriesAreLive(catalog, m, t, p, k);
    EntriesAreLive(catalog, m', t, q, k);
    LiveRowIsStored(catalog, m, t, p);
    LiveRowIsStored(catalog, m', t, q);
  }

  lemma {:induction false} NotCoveredIsStale(catalog: Catalog, m: map<string, Value>, t: string, pk: RowValue,
                                             row: Row, m': map<string, Value>)
    requires WellIndexed(catalog, m) && t in catalog.tables && catalog.tables[t].name == t && GoodRow(catalog.tables[t], row)
    requires pk == KeyOf(catalog.tables[t], Contents(row))
    requires m' == RowWrite(m, {}, StorageKey(t, pk), Data(Serialize(row)), RowEntries(catalog, catalog.tables[t], row))
    requires WellIndexed(catalog, m')
    requires !Covers(catalog, catalog.tables[t], m, StorageKey(t, pk), RowEntries(catalog, catalog.tables[t], row))
    ensures !NoStaleEntries(catalog, m')
  {
    var schema, key := catalog.tables[t], StorageKey(t, pk);
    CatalogIsGood(catalog, m);
    RowEntriesExact(catalog, schema, row);
    hide WellIndexed, GoodCatalog, RowEntries, GoodRow, Serialize, Deserialize, RowWrite, EntriesOf, Live, LiveRow;
    hide HasPrefix, LastPiece, Shown, StorageKey, KeyOf;
    var put := RowEntries(catalog, schema, row);
    var p: KeyedRow :| p.0 == key && LiveRow(Live(m), TablePrefix(t), p) && !(RowEntries(catalog, schema, p.1) <= put);
    var k :| k in RowEntries(catalog, schema, p.1) && k !in put;
    EntriesAreLive(catalog, m, t, p, k);
    NoEntries(t, StorageString(pk));
    EntriesAfter(catalog, m, t, pk, {}, Data(Serialize(row)), put, t, k);
    if OwnEntry(catalog, Live(m'), t, k) {
      var q: KeyedRow :| LiveRow(Live(m'), TablePrefix(t), q) && k in RowEntries(catalog, schema, q.1);
      EntryNamesRow(catalog, m, m', t, p, q, k);
      GoodSerialized(schema, row);
      LiveRowShown(m', TablePrefix(t), q);
      OwnText(catalog, m, t, pk, row);
    }
  }

  lemma {:induction false} OwnText(catalog: Catalog, m: map<string, Value>, t: string, pk: RowValue, row: Row)
    requires GoodCatalog(catalog) && t in catalog.tables && catalog.tables[t].name == t && GoodRow(catalog.tables[t], row)
    requires pk == KeyOf(catalog.tables[t], Contents(row))
    ensures var key := StorageKey(t, pk);
            Shown(RowWrite(m, {}, key, Data(Serialize(row)), RowEntries(catalog, catalog.tables[t], row)), key) == Some(Serialize(row))
  {
    hide GoodCatalog, GoodRow, RowWrite, RowEntries, Serialize, Shown, HasPrefix, StorageString, TablePrefix, KeyOf;
    PrefixOf(TablePrefix(t), StorageString(pk));
    assert RowKey(catalog, StorageKey(t, pk));
    InsertedShows(catalog, catalog.tables[t], m, row, StorageKey(t, pk));
  }

  lemma {:induction false} CoveredLeavesNone(catalog: Catalog, m: map<string, Value>, t: string, pk: RowValue, row: Row)
    requires GoodCatalog(catalog) && NoStaleEntries(catalog, m) && t in catalog.tables
    requires catalog.tables[t].name == t && GoodRow(catalog.tables[t], row)
    requires pk == KeyOf(catalog.tables[t], Contents(row))
    requires Covers(catalog, catalog.tables[t], m, StorageKey(t, pk), RowEntries(catalog, catalog.tables[t], row))
    ensures NoStaleEntries(catalog, RowWrite(m, {}, StorageKey(t, pk), Data(Serialize(row)), RowEntries(catalog, catalog.tables[t], row)))
  {
    var schema := catalog.tables[t];
    hide GoodCatalog, NoStaleEntries, Covers, RowEntries, GoodRow, Serialize, Deserialize, RowWrite, StorageKey;
    hide EntriesOf, KeyOf;
    RowEntriesExact(catalog, schema, row);
    GoodSerialized(schema, row);
    NoEntries(t, StorageString(pk));
    assert {} + RowEntries(catalog, schema, row) == RowEntries(catalog, schema, row);
    WriteLeavesNone(catalog, m, t, pk, {}, Data(Serialize(row)), RowEntries(catalog, schema, row));
  }

  /** An INSERT leaves no stale entries exactly when it overwrites no live row that has an entry the new one has not. */
  lemma {:induction false} InsertLeavesNoneExactly(s: Sql, table: string, columns: seq<string>, values: seq<Expr>)
    requires Invariant(s) && NoStaleEntries(s.catalog, s.m) && table in s.catalog.tables
    requires CleanStatement(s, InsertInto(table, columns, values))
    requires RowToInsert(s.catalog.tables[table], columns, values).Some?
    ensures var schema := s.catalog.tables[table];
            var row := RowToInsert(schema, columns, values).value;
            NoStaleEntries(s.catalog, ExecInsert(s, table, columns, values).m) <==>
            Covers(s.catalog, schema, s.m, StorageKey(schema.name, PkOf(schema, row).value), RowEntries(s.catalog, schema, row))
  {
    InsertKeeps(s, table, columns, values);
    var schema := s.catalog.tables[table];
    assert GoodSchema(table, schema);
    InsertedIsGood(schema, columns, values);
    var row := RowToInsert(schema, columns, values).value;
    hide WellIndexed, GoodCatalog, NoStaleEntries, Covers, RowToInsert, RowEntries, GoodRow, Serialize, RowWrite;
    hide CleanStatement, PkOf, KeyOf;
    hide HasPrefix, TablePrefix, Live, LiveRow, StorageKey, StorageString, Contents;
    CatalogIsGood(s.catalog, s.m);
    GoodRowShape(schema, row);
    GoodRowKey(schema, row);
    var pk := KeyOf(schema, Contents(row));
    if Covers(s.catalog, schema, s.m, StorageKey(table, pk), RowEntries(s.catalog, schema, row)) {
      CoveredLeavesNone(s.catalog, s.m, table, pk, row);
    } else {
      NotCoveredIsStale(s.catalog, s.m, table, pk, row, ExecInsert(s, table, columns, values).m);
    }
  }

  lemma {:induction false} AllLiveOf(m: map<string, Value>, t: string, rows: seq<KeyedRow>)
    requires forall p :: p in rows ==> LiveRow(Live(m), TablePrefix(t), p)
    ensures AllLive(m, t, rows) && OneRowAKey(rows)
  {
    hide LiveRow;
    forall i, j | 0 <= i < |rows| && 0 <= j < |rows| && rows[i].0 == rows[j].0
      ensures rows[i].1 == rows[j].1
    {
      assert rows[i] in rows && rows[j] in rows;
      OneReading(m, TablePrefix(t), rows[i], rows[j]);
    }
  }

  lemma {:induction false} UpdateLeavesNoStale(s: Sql, table: string, assignments: seq<Assignment>, condition: Option<Expr>)
    requires Invariant(s) && NoStaleEntries(s.catalog, s.m) && CleanAssignments(assignments)
    ensures NoStaleEntries(s.catalog, ExecUpdate(s, table, assignments, condition).m)
  {
    if table in s.catalog.tables && condition.Some? {
      var schema := s.catalog.tables[table];
      assert GoodSchema(table, schema);
      hide GoodCatalog, NoStaleEntries, UpdateTargets, UpdateAll, CleanAssignments, LiveRow, StoredRow, Listing;
      hide AllLive, WellIndexed;
      CatalogIsGood(s.catalog, s.m);
      TargetsAreLive(s.catalog, s.m, table, condition.value);
      var r := UpdateTargets(s.catalog, Listing(s.m), schema, condition.value);
      if r.Some? {
        LiveAreStored(s.catalog, s.m, table, r.value);
        AllLiveOf(s.m, table, r.value);
        UpdateLeavesNone(s.catalog, schema, s.m, r.value, assignments);
      }
    }
  }

  lemma {:induction false} DeleteLeavesNoStale(s: Sql, table: string, condition: Option<Expr>)
    requires Invariant(s) && NoStaleEntries(s.catalog, s.m)
    ensures NoStaleEntries(s.catalog, ExecDelete(s, table, condition).m)
  {
    if table in s.catalog.tables && condition.Some? {
      var schema := s.catalog.tables[table];
      assert GoodSchema(table, schema);
      hide GoodCatalog, NoStaleEntries, FetchMatching, IsKeyLookup, DeleteAll, LiveRow, StoredRow, Listing;
      hide AllLive, WellIndexed;
      CatalogIsGood(s.catalog, s.m);
      FetchedAreLive(s.catalog, s.m, table, condition.value);
      var r := DeleteTargets(s.catalog, Listing(s.m), schema, condition.value);
      if r.Some? {
        LiveAreStored(s.catalog, s.m, table, r.value);
        AllLiveOf(s.m, table, r.value);
        DeleteLeavesNone(s.catalog, schema, s.m, r.value);
      }
    }
  }

  /** What is live under these prefixes is as before. */
  ghost predicate SameLive(catalog: Catalog, m: map<string, Value>, m': map<string, Value>) {
    && (forall k :: RowKey(catalog, k) ==> Shown(m', k) == Shown(m, k))
    && forall t, k :: t in catalog.tables && HasPrefix(k, IndexPrefix(t)) && k in Live(m') ==> k in Live(m)
  }

  lemma {:induction false} SameLeavesNone(catalog: Catalog, m: map<string, Value>, m': map<string, Value>)
    requires NoStaleEntries(catalog, m) && SameLive(catalog, m, m')
    ensures NoStaleEntries(catalog, m')
  {
    hide HasPrefix, LiveRow, RowEntries, Live, Shown;
    forall t, k | t in catalog.tables && k in Live(m') && HasPrefix(k, IndexPrefix(t))
      ensures OwnEntry(catalog, Live(m'), t, k)
    {
      assert OwnEntry(catalog, Live(m), t, k);
      var p: KeyedRow :| LiveRow(Live(m), TablePrefix(t), p) && k in RowEntries(catalog, catalog.tables[t], p.1);
      LiveRowShown(m, TablePrefix(t), p);
      LiveRowShown(m', TablePrefix(t), p);
      assert RowKey(catalog, p.0);
    }
  }

  lemma {:induction false} CatalogRecordSame(catalog: Catalog, m: map<string, Value>, name: string, rest: string,
                                             text: string)
    requires GoodCatalog(catalog) && (name == SCHEMA || name == INDEX_META)
    ensures SameLive(catalog, m, m[TablePrefix(name) + rest := Data(text)])
  {
    CatalogRecordHidden(catalog, m, name, rest, text);
    var key := TablePrefix(name) + rest;
    PrefixOf(TablePrefix(name), rest);
    hide HasPrefix, TablePrefix, IndexPrefix, GoodName;
    forall t | t in catalog.tables
      ensures !HasPrefix(key, IndexPrefix(t))
    {
      assert GoodSchema(t, catalog.tables[t]);
      ReservedApart(key, name, t);
    }
  }

  /** A new table has no entries yet. */
  lemma {:induction false} NewTableHasNone(catalog: Catalog, m: map<string, Value>, schema: TableSchema)
    requires WellIndexed(catalog, m) && NoStaleEntries(catalog, m) && schema.name !in catalog.tables && GoodName(schema.name)
    ensures NoStaleEntries(catalog.(tables := catalog.tables[schema.name := schema]), m)
  {
    var c' := catalog.(tables := catalog.tables[schema.name := schema]);
    hide HasPrefix, LiveRow, GoodName, KnownKey, GoodCatalog, RowsIndexed, EntriesReadable, IndexPrefix;
    hide TablePrefix, EntriesFor;
    forall t, k | t in c'.tables && k in Live(m) && HasPrefix(k, IndexPrefix(t))
      ensures OwnEntry(c', Live(m), t, k)
    {
      if t == schema.name {
        assert KnownKey(catalog, k);
        UnknownTableEmpty(catalog, k, t);
      } else {
        assert OwnEntry(catalog, Live(m), t, k);
        var p: KeyedRow :| LiveRow(Live(m), TablePrefix(t), p) && k in RowEntries(catalog, catalog.tables[t], p.1);
        assert k in RowEntries(c', c'.tables[t], p.1);
      }
    }
  }

  lemma {:induction false} CreateTableLeavesNone(s: Sql, schema: TableSchema)
    requires Invariant(s) && NoStaleEntries(s.catalog, s.m) && GoodName(schema.name)
    ensures var r := ExecCreateTable(s, schema); NoStaleEntries(r.catalog, r.m)
  {
    hide WellIndexed, NoStaleEntries, GoodName, SchemaText, GoodCatalog, TablePrefix;
    if CountPrimary(schema.columns) == 1 && schema.name !in s.catalog.tables {
      var c' := s.catalog.(tables := s.catalog.tables[schema.name := schema]);
      OneIsPrimary(schema.columns);
      NewTableHasNone(s.catalog, s.m, schema);
      NewTableKeeps(s.catalog, s.m, schema);
      CatalogIsGood(c', s.m);
      CatalogRecordSame(c', s.m, SCHEMA, schema.name, SchemaText(schema));
      SameLeavesNone(c', s.m, ExecCreateTable(s, schema).m);
    }
  }

  /** More indexes, more entries for each row. */
  lemma {:induction false} MoreEntries(catalog: Catalog, name: string, t: string, column: string, schema: TableSchema,
                                       row: Row)
    requires name !in catalog.indexes
    ensures var c' := catalog.(indexes := catalog.indexes[name := IndexSchema(name, t, column)]);
            && RowEntries(catalog, schema, row) <= RowEntries(c', schema, row)
            && (schema.name == t ==> EntriesFor(schema, {column}, row) <= RowEntries(c', schema, row))
  {
    NewColumns(catalog, name, t, column, schema.name);
    hide IndexedColumns, IndexKey, Find, PkOf;
  }

  /** Every built entry is one of a row of the scan. */
  lemma {:induction false} BuiltFromRow(schema: TableSchema, column: string, rows: seq<KeyedRow>,
                                        k: string) returns (p: KeyedRow)
    requires k in BuildKeys(schema, column, rows)
    ensures p in rows && k in EntriesFor(schema, {column}, p.1)
  {
    hide EntriesFor;
    var n := |rows| - 1;
    if k in EntriesFor(schema, {column}, rows[n].1) {
      p := rows[n];
    } else {
      p := BuiltFromRow(schema, column, rows[..n], k);
    }
  }

  /** What CREATE INDEX builds are entries of live rows. */
  lemma {:induction false} BuiltLeavesNone(catalog: Catalog, m: map<string, Value>, name: string, t: string,
                                           column: string, rows: seq<KeyedRow>)
    requires GoodCatalog(catalog) && NoStaleEntries(catalog, m) && t in catalog.tables && name !in catalog.indexes
    requires (forall p :: p in rows ==> LiveRow(Live(m), TablePrefix(t), p))
    requires forall k :: k in BuildKeys(catalog.tables[t], column, rows) ==> HasPrefix(k, IndexPrefix(t))
    ensures NoStaleEntries(catalog.(indexes := catalog.indexes[name := IndexSchema(name, t, column)]),
                           m + AllAs(BuildKeys(catalog.tables[t], column, rows), Data("")))
  {
    var c', keys := catalog.(indexes := catalog.indexes[name := IndexSchema(name, t, column)]), BuildKeys(catalog.tables[t], column, rows);
    var m' := m + AllAs(keys, Data(""));
    EntriesHidden(catalog, m, t, keys);
    hide HasPrefix, LiveRow, GoodName, RowEntries, EntriesFor, BuildKeys, TablePrefix, IndexPrefix, Shown, RowKey;
    forall u, k | u in c'.tables && k in Live(m') && HasPrefix(k, IndexPrefix(u))
      ensures OwnEntry(c', Live(m'), u, k)
    {
      assert GoodSchema(u, catalog.tables[u]) && GoodSchema(t, catalog.tables[t]);
      var p: KeyedRow;
      if k in keys {
        IndexKeyApart(t, k, u);
        p := BuiltFromRow(catalog.tables[t], column, rows, k);
      } else {
        assert k in Live(m) && OwnEntry(catalog, Live(m), u, k);
        p :| LiveRow(Live(m), TablePrefix(u), p) && k in RowEntries(catalog, catalog.tables[u], p.1);
      }
      MoreEntries(catalog, name, t, column, catalog.tables[u], p.1);
      SameRowLive(catalog, m, m', u, p);
    }
  }

  lemma {:induction false} SameRowLive(catalog: Catalog, m: map<string, Value>, m': map<string, Value>, u: string,
                                       p: KeyedRow)
    requires u in catalog.tables && LiveRow(Live(m), TablePrefix(u), p) && forall k :: RowKey(catalog, k) ==> Shown(m', k) == Shown(m, k)
    ensures LiveRow(Live(m'), TablePrefix(u), p)
  {
    LiveRowShown(m, TablePrefix(u), p);
    LiveRowShown(m', TablePrefix(u), p);
    hide Shown, HasPrefix, LiveRow, Deserialize;
    assert RowKey(catalog, p.0);
  }

  /** The rows CREATE INDEX visits are live. */
  lemma {:induction false} BuiltAreLive(catalog: Catalog, m: map<string, Value>, t: string, column: string)
    requires WellIndexed(catalog, m) && t in catalog.tables && HasColumn(catalog.tables[t], column)
    ensures var rows := ScanRows(Listing(m), TablePrefix(t));
            && rows.Some? && Built(catalog.tables[t], column, rows.value) == rows.value
            && forall p :: p in rows.value ==> LiveRow(Live(m), TablePrefix(t), p)
  {
    TableReadable(catalog, m, t);
    hide WellIndexed, ScanRows, Built, StoredRow, LiveRow, Listing, Readable, TablePrefix, HasColumn, Live;
    ScanExact(Listing(m), TablePrefix(t));
    LiveAreStored(catalog, m, t, ScanRows(Listing(m), TablePrefix(t)).value);
    StoredAreBuilt(catalog.tables[t], column, ScanRows(Listing(m), TablePrefix(t)).value);
  }

  lemma {:induction false} CreateIndexLeavesNone(s: Sql, name: string, table: string, column: string)
    requires Invariant(s) && NoStaleEntries(s.catalog, s.m)
    ensures var r := ExecCreateIndex(s, name, table, column); NoStaleEntries(r.catalog, r.m)
  {
    if table in s.catalog.tables && FindNamed(s.catalog.tables[table].columns, column).Some? && name !in s.catalog.indexes {
      var text := IndexText(IndexSchema(name, table, column));
      var m := s.m[TablePrefix(INDEX_META) + name := Data(text)];
      NamedIsColumn(s.catalog.tables[table], column);
      assert GoodSchema(table, s.catalog.tables[table]);
      hide GoodCatalog, ScanRows, BuildKeys, Built, Listing, IndexText, TablePrefix, HasPrefix, FindNamed;
      hide WellIndexed, HasColumn, AllAs, Live, LiveRow, NoStaleEntries;
      CatalogIsGood(s.catalog, s.m);
      CatalogRecordKeeps(s.catalog, s.m, INDEX_META, name, text);
      CatalogRecordSame(s.catalog, s.m, INDEX_META, name, text);
      SameLeavesNone(s.catalog, s.m, m);
      BuiltAreLive(s.catalog, m, table, column);
      BuiltAreEntries(s.catalog, m, table, column);
      BuiltLeavesNone(s.catalog, m, name, table, column, ScanRows(Listing(m), TablePrefix(table)).value);
    }
  }

  /** An INSERT that goes through overwrites no live row that has an entry the new one has not. */
  ghost predicate OverwritesNone(s: Sql, st: Statement) {
    st.InsertInto? && InsertGoes(s, st.table, st.columns, st.values) ==>
      var schema := s.catalog.tables[st.table];
      var row := RowToInsert(schema, st.columns, st.values).value;
      Covers(s.catalog, schema, s.m, StorageKey(schema.name, PkOf(schema, row).value), RowEntries(s.catalog, schema, row))
  }

  /** A clean statement leaves the live entries exactly those of the live rows, unless it is such an INSERT. */
  lemma {:induction false} LeavesNoneExactly(s: Sql, st: Statement)
    requires Invariant(s) && CleanStatement(s, st) && NoStaleEntries(s.catalog, s.m)
    ensures NoStaleEntries(Exec(s, st).catalog, Exec(s, st).m) <==> OverwritesNone(s, st)
  {
    hide WellIndexed, NoStaleEntries, Covers, RowToInsert, RowEntries, ExecCreateTable, ExecCreateIndex;
    hide ExecUpdate, ExecDelete, CleanLiteral, PkOf, RowWrite, Serialize;
    hide GoodName, GoodKey, CleanRow, StorageKey;
    match st
    case CreateTable(schema) =>
      CreateTableLeavesNone(s, schema);
    case CreateIndex(name, table, column) =>
      CreateIndexLeavesNone(s, name, table, column);
    case InsertInto(table, columns, values) =>
      if InsertGoes(s, table, columns, values) {
        InsertLeavesNoneExactly(s, table, columns, values);
      }
    case UpdateSet(table, assignments, condition) =>
      UpdateLeavesNoStale(s, table, assignments, condition);
      ExecCatalogs(s, st);
    case DeleteFrom(table, condition) =>
      DeleteLeavesNoStale(s, table, condition);
      ExecCatalogs(s, st);
  }

  lemma {:induction false} ExecCatalogs(s: Sql, st: Statement)
    ensures !st.CreateTable? && !st.CreateIndex? ==> Exec(s, st).catalog == s.catalog
  {
    hide UpdateTargets, DeleteTargets, UpdateAll, DeleteAll, RowToInsert, RowWrite, RowEntries, Serialize;
  }

  /** No INSERT of the run overwrites a live row that has an entry the new one has not. */
  ghost predicate NeverOverwrites(s: Sql, evs: seq<SqlEvent>) {
    forall i :: 0 <= i < |evs| && evs[i].Do? ==> OverwritesNone(HappenAll(s, evs[..i]), evs[i].statement)
  }

  lemma {:induction false} EventLeavesNone(s: Sql, ever: set<string>, ev: SqlEvent)
    requires Invariant(s) && CleanEvent(s, ever, ev) && NoStaleEntries(s.catalog, s.m) && (ev.Do? ==> OverwritesNone(s, ev.statement))
    ensures NoStaleEntries(Happen(s, ev).catalog, Happen(s, ev).m)
  {
    hide Invariant, Exec, CleanStatement, OverwritesNone, OwnEntry, HasPrefix;
    if ev.Do? {
      LeavesNoneExactly(s, ev.statement);
    }
  }

  /** Over every run of clean statements from an empty database, with the engine at work anywhere between them, in which
      no INSERT does that, the live entries of an index are exactly those of the live rows of its table. */
  lemma {:induction false} RunEntriesExact(evs: seq<SqlEvent>)
    requires CleanRun(EmptySql(), evs) && NeverOverwrites(EmptySql(), evs)
    ensures var s := HappenAll(EmptySql(), evs);
            forall t, k :: t in s.catalog.tables && HasPrefix(k, IndexPrefix(t)) ==> (k in Live(s.m) <==> OwnEntry(s.catalog, Live(s.m), t, k))
  {
    var s := HappenAll(EmptySql(), evs);
    EmptyIsIndexed();
    RunKeeps(EmptySql(), evs);
    RunLeavesNone(evs);
    hide Invariant, HappenAll, HasPrefix, LiveRow, RowEntries, Live, CleanRun, EmptySql;
    forall t, k | t in s.catalog.tables && HasPrefix(k, IndexPrefix(t)) && OwnEntry(s.catalog, Live(s.m), t, k)
      ensures k in Live(s.m)
    {
      var p: KeyedRow :| LiveRow(Live(s.m), TablePrefix(t), p) && k in RowEntries(s.catalog, s.catalog.tables[t], p.1);
      EntriesAreLive(s.catalog, s.m, t, p, k);
    }
  }

  lemma {:induction false} RunLeavesNone(evs: seq<SqlEvent>)
    requires CleanRun(EmptySql(), evs) && NeverOverwrites(EmptySql(), evs)
    ensures NoStaleEntries(HappenAll(EmptySql(), evs).catalog, HappenAll(EmptySql(), evs).m)
  {
    hide Invariant, CleanEvent, Happen, EverKnown, OverwritesNone, OwnEntry, HasPrefix;
    EmptyIsIndexed();
    if evs != [] {
      var n := |evs| - 1;
      forall i | 0 <= i < n
        ensures CleanEvent(HappenAll(EmptySql(), evs[..n][..i]), Ever(EmptySql(), evs[..n][..i]), evs[..n][i])
        ensures evs[..n][i].Do? ==> OverwritesNone(HappenAll(EmptySql(), evs[..n][..i]), evs[..n][i].statement)
      {
        assert evs[..n][..i] == evs[..i];
      }
      RunKeeps(EmptySql(), evs[..n]);
      RunLeavesNone(evs[..n]);
      EventLeavesNone(HappenAll(EmptySql(), evs[..n]), Ever(EmptySql(), evs[..n]), evs[n]);
    }
  }
}
