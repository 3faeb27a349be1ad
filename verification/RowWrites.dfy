/** What the statements that write leave of the stored rows, record by record. */
module RowWrites {
  import opened Seqs
  import opened SortedMap
  import opened Records
  import opened Rows
  import opened IndexKeys
  import opened SqlState
  import opened IndexedTables
  import opened SqlSteps
  import opened StatementMeanings

  /** The live text under a key. */
  function Shown(m: map<string, Value>, k: string): Option<string> {
    Lookup(Live(m), k)
  }

  /** A row's key of some table. */
  ghost predicate RowKey(catalog: Catalog, k: string) {
    exists u :: u in catalog.tables && HasPrefix(k, TablePrefix(u))
  }

  lemma {:induction false} ShownAfter(m: map<string, Value>, gone: set<string>, key: string, v: Value,
                                      put: set<string>, k: string)
    requires k !in gone && k !in put
    ensures Shown(RowWrite(m, gone, key, v, put), k) == if k == key then (if v.Data? then Some(v.text) else None) else Shown(m, k)
  {
  }

  /** Writing a row shows at its own key and at no other row's. */
  lemma {:induction false} WriteShows(catalog: Catalog, m: map<string, Value>, t: string, pk: RowValue,
                                      gone: set<string>, v: Value, put: set<string>, k: string)
    requires GoodCatalog(catalog) && t in catalog.tables && RowKey(catalog, k)
    requires EntriesOf(t, StorageString(pk), gone) && EntriesOf(t, StorageString(pk), put)
    ensures Shown(RowWrite(m, gone, StorageKey(t, pk), v, put), k) ==
            if k == StorageKey(t, pk) then (if v.Data? then Some(v.text) else None) else Shown(m, k)
  {
    var u :| u in catalog.tables && HasPrefix(k, TablePrefix(u));
    assert GoodSchema(t, catalog.tables[t]) && GoodSchema(u, catalog.tables[u]);
    hide HasPrefix, StorageString, TablePrefix, IndexPrefix, LastPiece, GoodName, StorageKey, RowWrite, Live, Shown;
    assert k !in gone && k !in put by {
      if k in gone || k in put {
        IndexKeyApart(t, k, u);
      }
    }
    ShownAfter(m, gone, StorageKey(t, pk), v, put, k);
  }

  /** Only the text under a key decides whether there is a row and which. */
  lemma {:induction false} RowAt(m: map<string, Value>, t: string, k: string)
    ensures var shown := Shown(m, k);
            && (k in RowsOf(Live(m), t) <==> HasPrefix(k, TablePrefix(t)) && shown.Some? && Deserialize(shown.value).Some?)
            && (k in RowsOf(Live(m), t) ==> RowsOf(Live(m), t)[k] == Contents(Deserialize(shown.value).value))
  {
    hide Deserialize, Contents, HasPrefix;
  }

  lemma {:induction false} SameTexts(m: map<string, Value>, m': map<string, Value>, t: string)
    requires forall k :: HasPrefix(k, TablePrefix(t)) ==> Shown(m', k) == Shown(m, k)
    ensures RowsOf(Live(m'), t) == RowsOf(Live(m), t)
  {
    hide Deserialize, Contents, HasPrefix, RowsOf, Shown;
    forall k
      ensures (k in RowsOf(Live(m'), t) <==> k in RowsOf(Live(m), t)) && (k in RowsOf(Live(m), t) ==> RowsOf(Live(m'), t)[k] == RowsOf(Live(m), t)[k])
    {
      RowAt(m, t, k);
      RowAt(m', t, k);
    }
  }

  /** A row's key is its table's and no other's. */
  lemma {:induction false} OneTable(catalog: Catalog, t: string, u: string, k: string)
    requires GoodCatalog(catalog) && t in catalog.tables && u in catalog.tables
    requires HasPrefix(k, TablePrefix(t)) && HasPrefix(k, TablePrefix(u))
    ensures t == u
  {
    assert GoodSchema(t, catalog.tables[t]) && GoodSchema(u, catalog.tables[u]);
    PrefixesDiffer(t, u, k);
  }

  /** The texts of all rows but those under some keys are as before. */
  ghost predicate TextsStay(catalog: Catalog, m: map<string, Value>, m': map<string, Value>, keys: set<string>) {
    forall k :: RowKey(catalog, k) && k !in keys ==> Shown(m', k) == Shown(m, k)
  }

  /** The rows of all other tables are as before. */
  ghost predicate OthersStay(catalog: Catalog, m: map<string, Value>, m': map<string, Value>, table: string) {
    forall u :: u in catalog.tables && u != table ==> RowsOf(Live(m'), u) == RowsOf(Live(m), u)
  }

  lemma {:induction false} TextsDecide(catalog: Catalog, m: map<string, Value>, m': map<string, Value>,
                                       keys: set<string>, table: string)
    requires GoodCatalog(catalog) && table in catalog.tables && TextsStay(catalog, m, m', keys)
    requires forall k :: k in keys ==> HasPrefix(k, TablePrefix(table))
    ensures OthersStay(catalog, m, m', table)
  {
    hide GoodCatalog, HasPrefix, RowsOf, Shown;
    forall u | u in catalog.tables && u != table
      ensures RowsOf(Live(m'), u) == RowsOf(Live(m), u)
    {
      forall k | HasPrefix(k, TablePrefix(u))
        ensures Shown(m', k) == Shown(m, k)
      {
        assert RowKey(catalog, k);
        if k in keys {
          OneTable(catalog, table, u, k);
        }
      }
      SameTexts(m, m', u);
    }
  }

  /** Rows with the same key are the same. */
  ghost predicate OneRowAKey(rows: seq<KeyedRow>) {
    forall i, j :: 0 <= i < |rows| && 0 <= j < |rows| && rows[i].0 == rows[j].0 ==> rows[i].1 == rows[j].1
  }

  ghost predicate AllStored(schema: TableSchema, rows: seq<KeyedRow>) {
    forall i :: 0 <= i < |rows| ==> StoredRow(schema, rows[i])
  }

  ghost predicate HasKey(rows: seq<KeyedRow>, k: string) {
    exists i :: 0 <= i < |rows| && rows[i].0 == k
  }

  function KeysOf(rows: seq<KeyedRow>): (keys: seq<string>)
    ensures |keys| == |rows| && forall i :: 0 <= i < |rows| ==> keys[i] == rows[i].0
  {
    seq(|rows|, i requires 0 <= i < |rows| => rows[i].0)
  }

  lemma {:induction false} OneErased(catalog: Catalog, schema: TableSchema, m: map<string, Value>, p: KeyedRow, k: string)
    requires GoodCatalog(catalog) && schema.name in catalog.tables && catalog.tables[schema.name] == schema
    requires RowKey(catalog, k)
    requires StoredRow(schema, p)
    ensures Shown(RowWrite(m, RowEntries(catalog, schema, p.1), p.0, Tombstone, {}), k) == if k == p.0 then None else Shown(m, k)
  {
    hide RowEntries, RowWrite, Shown, RowKey, GoodRow, EntriesOf, StorageKey, IndexKey;
    GoodRowShape(schema, p.1);
    RowEntriesExact(catalog, schema, p.1);
    var pk := KeyOf(schema, Contents(p.1));
    NoEntries(schema.name, StorageString(pk));
    WriteShows(catalog, m, schema.name, pk, RowEntries(catalog, schema, p.1), Tombstone, {}, k);
  }

  /** Erasing rows takes out exactly their records. */
  lemma {:induction false} ErasedShows(catalog: Catalog, schema: TableSchema, m: map<string, Value>,
                                       rows: seq<KeyedRow>, k: string)
    requires GoodCatalog(catalog) && schema.name in catalog.tables && catalog.tables[schema.name] == schema
    requires RowKey(catalog, k)
    requires AllStored(schema, rows)
    ensures Shown(DeleteAll(catalog, schema, m, rows), k) == if HasKey(rows, k) then None else Shown(m, k)
  {
    hide GoodCatalog, RowKey, StoredRow, RowWrite, RowEntries, Shown;
    if rows != [] {
      var n := |rows| - 1;
      ErasedShows(catalog, schema, m, rows[..n], k);
      OneErased(catalog, schema, DeleteAll(catalog, schema, m, rows[..n]), rows[n], k);
      assert HasKey(rows, k) <==> HasKey(rows[..n], k) || rows[n].0 == k by {
        if HasKey(rows[..n], k) {
          var i :| 0 <= i < n && rows[..n][i].0 == k;
          assert rows[i].0 == k;
        }
        if HasKey(rows, k) && rows[n].0 != k {
          var i :| 0 <= i < |rows| && rows[i].0 == k;
          assert rows[..n][i].0 == k;
        }
      }
    }
  }

  lemma {:induction false} OneRewritten(catalog: Catalog, schema: TableSchema, m: map<string, Value>, p: KeyedRow,
                                        assignments: seq<Assignment>, k: string)
    requires GoodCatalog(catalog) && schema.name in catalog.tables && catalog.tables[schema.name] == schema
    requires RowKey(catalog, k)
    requires StoredRow(schema, p) && Assigned(schema, p.1, assignments).Some?
    requires forall i :: 0 <= i < |assignments| ==> CleanLiteral(assignments[i].value)
    ensures var r := Assigned(schema, p.1, assignments).value;
            Shown(RowWrite(m, RowEntries(catalog, schema, p.1), p.0, Data(Serialize(r)), RowEntries(catalog, schema, r)), k) ==
            if k == p.0 then Some(Serialize(r)) else Shown(m, k)
  {
    hide RowEntries, RowWrite, Shown, RowKey, GoodRow, EntriesOf, StorageKey, IndexKey, Assigned, CleanLiteral, Serialize;
    GoodRowShape(schema, p.1);
    RowEntriesExact(catalog, schema, p.1);
    AssignedIsGood(schema, p.1, assignments);
    var r, pk := Assigned(schema, p.1, assignments).value, KeyOf(schema, Contents(p.1));
    RowEntriesExact(catalog, schema, r);
    WriteShows(catalog, m, schema.name, pk, RowEntries(catalog, schema, p.1), Data(Serialize(r)), RowEntries(catalog, schema, r), k);
  }

  /** What the records of some rows show after all have been rewritten. */
  ghost predicate ShowsRewritten(schema: TableSchema, m: map<string, Value>, rows: seq<KeyedRow>,
                                 assignments: seq<Assignment>, m': map<string, Value>, k: string) {
    if HasKey(rows, k) then
      forall i :: 0 <= i < |rows| && rows[i].0 == k ==>
        Assigned(schema, rows[i].1, assignments).Some? && Shown(m', k) == Some(Serialize(Assigned(schema, rows[i].1, assignments).value))
    else Shown(m', k) == Shown(m, k)
  }

  /** How far an update gets: it ends in front of the first row that refuses the assignments. */
  function Taken(schema: TableSchema, rows: seq<KeyedRow>, assignments: seq<Assignment>): (n: nat)
    ensures n <= |rows| && (forall i :: 0 <= i < n ==> Assigned(schema, rows[i].1, assignments).Some?)
    ensures n < |rows| ==> Assigned(schema, rows[n].1, assignments).None?
  {
    if rows == [] then 0
    else
      var n := Taken(schema, rows[..|rows| - 1], assignments);
      if n == |rows| - 1 && Assigned(schema, rows[n].1, assignments).Some? then n + 1 else n
  }

  lemma {:induction false} UpdateEnds(catalog: Catalog, schema: TableSchema, m: map<string, Value>,
                                      rows: seq<KeyedRow>, assignments: seq<Assignment>)
    ensures UpdateAll(catalog, schema, m, rows, assignments).1 <==> Taken(schema, rows, assignments) == |rows|
  {
    hide RowWrite, RowEntries, Assigned, Serialize;
    if rows != [] {
      UpdateEnds(catalog, schema, m, rows[..|rows| - 1], assignments);
    }
  }

  /** Updating rows rewrites the records of the rows it gets to. */
  lemma {:induction false} UpdatedShows(catalog: Catalog, schema: TableSchema, m: map<string, Value>,
                                        rows: seq<KeyedRow>, assignments: seq<Assignment>, k: string)
    requires GoodCatalog(catalog) && schema.name in catalog.tables && catalog.tables[schema.name] == schema
    requires RowKey(catalog, k)
    requires AllStored(schema, rows) && OneRowAKey(rows) && forall i :: 0 <= i < |assignments| ==> CleanLiteral(assignments[i].value)
    ensures var m' := UpdateAll(catalog, schema, m, rows, assignments).0;
            ShowsRewritten(schema, m, rows[..Taken(schema, rows, assignments)], assignments, m', k)
  {
    hide GoodCatalog, RowKey, StoredRow, RowWrite, RowEntries, Shown, Assigned, CleanLiteral, Serialize;
    if rows != [] {
      var l := |rows| - 1;
      UpdateEnds(catalog, schema, m, rows[..l], assignments);
      UpdatedShows(catalog, schema, m, rows[..l], assignments, k);
      var n := Taken(schema, rows[..l], assignments);
      if n == l && Assigned(schema, rows[l].1, assignments).Some? {
        var mid := UpdateAll(catalog, schema, m, rows[..l], assignments).0;
        OneRewritten(catalog, schema, mid, rows[l], assignments, k);
        TakeAll(rows);
        TakeAll(rows[..l]);
        OneMoreRewritten(schema, m, rows, assignments, mid, UpdateAll(catalog, schema, m, rows, assignments).0, k);
      } else {
        assert rows[..l][..n] == rows[..n];
      }
    }
  }

  lemma {:induction false} OneMoreRewritten(schema: TableSchema, m: map<string, Value>, rows: seq<KeyedRow>,
                                            assignments: seq<Assignment>,
                                            mid: map<string, Value>, m': map<string, Value>, k: string)
    requires rows != [] && OneRowAKey(rows)
    requires ShowsRewritten(schema, m, rows[..|rows| - 1], assignments, mid, k)
    requires var p := rows[|rows| - 1];
             && Assigned(schema, p.1, assignments).Some?
             && Shown(m', k) == if k == p.0 then Some(Serialize(Assigned(schema, p.1, assignments).value)) else Shown(mid, k)
    ensures ShowsRewritten(schema, m, rows, assignments, m', k)
  {
    hide Shown, Assigned, Serialize;
    var l := |rows| - 1;
    if k == rows[l].0 {
    } else if HasKey(rows, k) {
      var i :| 0 <= i < |rows| && rows[i].0 == k;
      assert rows[..l][i].0 == k;
      assert forall j :: 0 <= j < |rows| && rows[j].0 == k ==> j < l && rows[..l][j] == rows[j];
    } else {
      assert forall j :: 0 <= j < l ==> rows[..l][j] == rows[j];
    }
  }

  /** An INSERT's record, and nothing else of any table. */
  lemma {:induction false} InsertedShows(catalog: Catalog, schema: TableSchema, m: map<string, Value>, row: Row, k: string)
    requires GoodCatalog(catalog) && schema.name in catalog.tables && catalog.tables[schema.name] == schema
    requires RowKey(catalog, k)
    requires GoodRow(schema, row)
    ensures var key := StorageKey(schema.name, KeyOf(schema, Contents(row)));
            Shown(RowWrite(m, {}, key, Data(Serialize(row)), RowEntries(catalog, schema, row)), k) ==
            if k == key then Some(Serialize(row)) else Shown(m, k)
  {
    hide RowEntries, RowWrite, Shown, RowKey, EntriesOf, StorageKey, IndexKey, Serialize, GoodRow;
    GoodRowShape(schema, row);
    RowEntriesExact(catalog, schema, row);
    var pk := KeyOf(schema, Contents(row));
    NoEntries(schema.name, StorageString(pk));
    WriteShows(catalog, m, schema.name, pk, {}, Data(Serialize(row)), RowEntries(catalog, schema, row), k);
  }
}
