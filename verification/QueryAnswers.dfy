/** The rows a condition finds are the live rows it holds for, by a scan and through an index. */
module QueryAnswers {
  import opened Seqs
  import opened Order
  import opened SortedMap
  import opened Records
  import opened Ast
  import opened Rows
  import opened IndexKeys
  import opened SqlState
  import opened IndexedTables
  import opened IndexAgreement
  import opened Conditions
  import opened StatementMeanings

  /** A live row is a record whose text reads as that row. */
  lemma {:induction false} LiveRowReads(live: map<string, string>, t: string, p: KeyedRow)
    ensures LiveRow(live, TablePrefix(t), p) <==> p.0 in RowsOf(live, t) && Sorted(p.1) && Contents(p.1) == RowsOf(live, t)[p.0]
  {
    hide Deserialize, Sorted, Contents, HasPrefix;
    if p.0 in live && HasPrefix(p.0, TablePrefix(t)) && Deserialize(live[p.0]).Some? {
      var row := Deserialize(live[p.0]).value;
      DeserializedClean(live[p.0]);
      if Sorted(p.1) && Contents(p.1) == Contents(row) {
        ListingUnique(p.1, row);
      }
    }
  }

  /** Every row of a table is read from one of its live records. */
  lemma {:induction false} RowIsRead(live: map<string, string>, t: string, k: string) returns (p: KeyedRow)
    requires k in RowsOf(live, t)
    ensures p.0 == k && LiveRow(live, TablePrefix(t), p) && Sorted(p.1) && Contents(p.1) == RowsOf(live, t)[k]
  {
    p := (k, Deserialize(live[k]).value);
    hide Deserialize, Sorted, Contents, HasPrefix;
    LiveRowReads(live, t, p);
  }

  /** Filtering fails when the condition does on some row, and else keeps those it holds for. */
  lemma {:induction false} FilterExactly(rows: seq<KeyedRow>, e: Expr)
    requires forall p :: p in rows ==> Sorted(p.1)
    ensures Filter(rows, e).None? <==> exists p :: p in rows && Fails(Contents(p.1), e)
    ensures Filter(rows, e).Some? ==> forall p :: p in Filter(rows, e).value <==> p in rows && Holds(Contents(p.1), e)
  {
    hide Evaluate, Fails, Holds, Contents, Sorted;
    if rows != [] {
      var n := |rows| - 1;
      InitLast(rows);
      SnocMembers(rows[..n], rows[n]);
      FilterExactly(rows[..n], e);
      EvaluateExactly(rows[n].1, e);
      if Filter(rows[..n], e).Some? {
        SnocMembers(Filter(rows[..n], e).value, rows[n]);
      }
    }
  }

  /** A scan answers a query. */
  lemma {:induction false} ScanAnswers(store: seq<Record>, t: string, e: Expr)
    requires Sorted(store) && Readable(Live(Contents(store)), TablePrefix(t))
    ensures Selects(RowsOf(Live(Contents(store)), t), e, ScanMatching(store, t, e))
  {
    var live := Live(Contents(store));
    ScanExact(store, TablePrefix(t));
    hide ScanRows, Filter, Readable, Live, Contents, Sorted, LiveRow, RowsOf, Holds, Fails;
    var rows := ScanRows(store, TablePrefix(t)).value;
    forall p: KeyedRow
      ensures p in rows <==> p.0 in RowsOf(live, t) && Sorted(p.1) && Contents(p.1) == RowsOf(live, t)[p.0]
    {
      LiveRowReads(live, t, p);
    }
    FilterExactly(rows, e);
    if k :| k in RowsOf(live, t) && Fails(RowsOf(live, t)[k], e) {
      var p := RowIsRead(live, t, k);
      assert p in rows;
    }
  }

  /** A scan lists rows in the order of their keys. */
  lemma {:induction false} ScanAscends(store: seq<Record>, prefix: string)
    requires Sorted(store) && ScanRows(store, prefix).Some?
    ensures var rows := ScanRows(store, prefix).value;
            && (forall i, j :: 0 <= i < j < |rows| ==> Less(rows[i].0, rows[j].0))
            && forall i :: 0 <= i < |rows| ==> exists j :: 0 <= j < |store| && store[j].key == rows[i].0
  {
    hide Deserialize, HasPrefix, Less;
    if store != [] {
      var n := |store| - 1;
      ScanAscends(store[..n], prefix);
      var before, rows := ScanRows(store[..n], prefix).value, ScanRows(store, prefix).value;
      forall i | 0 <= i < |before|
        ensures exists j :: 0 <= j < n && store[j].key == before[i].0
      {
        var j :| 0 <= j < |store[..n]| && store[..n][j].key == before[i].0;
        assert store[j].key == before[i].0;
      }
      if rows != before {
        assert rows == before + [rows[|before|]] && rows[|before|].0 == store[n].key;
      }
    }
  }

  /** Filtering keeps the order. */
  lemma {:induction false} FilterAscends(rows: seq<KeyedRow>, e: Expr)
    requires Filter(rows, e).Some? && forall i, j :: 0 <= i < j < |rows| ==> Less(rows[i].0, rows[j].0)
    ensures var kept := Filter(rows, e).value;
            && (forall i, j :: 0 <= i < j < |kept| ==> Less(kept[i].0, kept[j].0))
            && forall p :: p in kept ==> p in rows
  {
    hide Evaluate, Less;
    if rows != [] {
      var n := |rows| - 1;
      FilterAscends(rows[..n], e);
      var before, kept := Filter(rows[..n], e).value, Filter(rows, e).value;
      if kept != before {
        assert kept == before + [rows[n]];
        forall i | 0 <= i < |before|
          ensures Less(before[i].0, rows[n].0)
        {
          assert before[i] in rows[..n];
        }
      }
    }
  }

  /** So a query that scans lists every row once, in the order of the keys. */
  lemma {:induction false} ScanListsInOrder(store: seq<Record>, t: string, e: Expr)
    requires Sorted(store) && ScanMatching(store, t, e).Some?
    ensures var r := ScanMatching(store, t, e).value; forall i, j :: 0 <= i < j < |r| ==> Less(r[i].0, r[j].0)
  {
    hide Sorted, Filter, ScanRows;
    ScanAscends(store, TablePrefix(t));
    FilterAscends(ScanRows(store, TablePrefix(t)).value, e);
  }

  /** An index is used exactly for a comparison, other than !=, of a column that has one with a literal. */
  lemma {:induction false} UsableExactly(catalog: Catalog, table: string, e: Expr, lookup: IndexLookup)
    ensures FindUsableIndex(catalog, table, e) == Some(lookup) <==>
              && e.Binary? && e.left == Identifier(lookup.column) && e.op == lookup.operator && Spells(e.right, lookup.value)
              && !e.op.NotEqual? && !e.op.And? && !e.op.Or?
              && exists n :: n in catalog.indexes && catalog.indexes[n].tableName == table && catalog.indexes[n].columnName == lookup.column
  {
  }

  /** A usable index answers comparisons with a literal it can find all matches for; without one any condition is answered. */
  predicate Answered(catalog: Catalog, schema: TableSchema, e: Expr) {
    UsableIsIndexable(catalog, schema.name, e);
    var lookup := FindUsableIndex(catalog, schema.name, e);
    lookup.Some? ==> Answerable(schema, lookup.value)
  }

  /** From a well indexed store a query finds exactly the live rows its condition holds for. */
  lemma {:induction false} QueryAnswered(catalog: Catalog, store: seq<Record>, t: string, e: Expr)
    requires WellIndexed(catalog, Contents(store)) && Sorted(store) && t in catalog.tables
    requires Answered(catalog, catalog.tables[t], e)
    ensures Selects(RowsOf(Live(Contents(store)), t), e, FetchMatching(catalog, store, catalog.tables[t], e))
  {
    TableReadable(catalog, Contents(store), t);
    UsableIsIndexable(catalog, t, e);
    ScanAnswers(store, t, e);
    var lookup := FindUsableIndex(catalog, t, e);
    hide WellIndexed, ScanMatching, IndexMatching, Answerable, RowsOf, Readable, Contents, Live, Sorted, Holds;
    hide Fails, FindUsableIndex;
    if lookup.Some? {
      IndexAgreesWithScan(catalog, store, t, lookup.value, e);
    }
  }

  /** The row's key is the last piece of a stored index key in the range. */
  ghost predicate LookedUp(store: seq<Record>, range: (string, string), t: string, key: string) {
    exists k :: k in Contents(store) && Between(range, k) && key == TablePrefix(t) + LastPiece(k, ':')
  }

  /** Whatever literal it is asked about, a query through an index fails when the condition does on a row it looks up,
      and else finds the looked up rows the condition holds for. */
  lemma {:induction false} IndexQueryExactly(catalog: Catalog, store: seq<Record>, t: string, lookup: IndexLookup, e: Expr)
    requires WellIndexed(catalog, Contents(store)) && Sorted(store) && t in catalog.tables
    requires FindUsableIndex(catalog, t, e) == Some(lookup) && Indexable(lookup.operator)
    ensures var r, rows, range := FetchMatching(catalog, store, catalog.tables[t], e), RowsOf(Live(Contents(store)), t), BuildIndexRange(t, lookup);
            && (r.None? <==> exists k :: k in rows && LookedUp(store, range, t, k) && Fails(rows[k], e))
            && (r.Some? ==> forall p :: p in r.value <==>
                  p.0 in rows && Sorted(p.1) && Contents(p.1) == rows[p.0] && LookedUp(store, range, t, p.0) && Holds(rows[p.0], e))
  {
    var schema, live, range := catalog.tables[t], Live(Contents(store)), BuildIndexRange(t, lookup);
    TableReadable(catalog, Contents(store), t);
    LookupReadable(catalog, store, t, lookup);
    LookupExact(store, range);
    hide WellIndexed, LookupIndex, BuildIndexRange, LiveRow, Readable, ReadableKey, Contents, Live, Sorted;
    hide TablePrefix, RowsOf;
    hide FetchRows, Filter, PrimaryKey, Holds, Fails, LastPiece, Between;
    var pks := LookupIndex(store, range);
    FetchExact(store, schema, pks);
    var rows := FetchRows(store, t, PrimaryKey(schema).value.dataType, pks).value;
    forall p: KeyedRow
      ensures p in rows <==> p.0 in RowsOf(live, t) && Sorted(p.1) && Contents(p.1) == RowsOf(live, t)[p.0] && LookedUp(store, range, t, p.0)
    {
      LiveRowReads(live, t, p);
    }
    FilterExactly(rows, e);
    if k :| k in RowsOf(live, t) && LookedUp(store, range, t, k) && Fails(RowsOf(live, t)[k], e) {
      var p := RowIsRead(live, t, k);
      assert p in rows;
    }
  }

  /** The places in the store of the index entries in a range that name a primary key. */
  ghost function EntryPlaces(store: seq<Record>, range: (string, string), pk: string): set<int> {
    set i | 0 <= i < |store| && Between(range, store[i].key) && LastPiece(store[i].key, ':') == pk
  }

  lemma {:induction false} OneMorePlace(store: seq<Record>, range: (string, string), pk: string)
    requires store != []
    ensures var n := |store| - 1;
            var found := Between(range, store[n].key) && LastPiece(store[n].key, ':') == pk;
            |EntryPlaces(store, range, pk)| == |EntryPlaces(store[..n], range, pk)| + if found then 1 else 0
  {
    hide Between, LastPiece;
    var n := |store| - 1;
    var before, now := EntryPlaces(store[..n], range, pk), EntryPlaces(store, range, pk);
    assert forall i :: 0 <= i < n ==> store[..n][i] == store[i];
    assert now == if n in now then before + {n} else before;
  }

  lemma {:induction false} LookedUpTimes(store: seq<Record>, range: (string, string), pk: string)
    ensures multiset(LookupIndex(store, range))[pk] == |EntryPlaces(store, range, pk)|
  {
    if store == [] {
      assert EntryPlaces(store, range, pk) == {};
    } else {
      OneMorePlace(store, range, pk);
      hide Between, LastPiece, EntryPlaces;
      LookedUpTimes(store[..|store| - 1], range, pk);
    }
  }

  lemma {:induction false} FetchedTimes(store: seq<Record>, schema: TableSchema, pks: seq<string>, p: KeyedRow, pk: string)
    requires Sorted(store) && PrimaryKey(schema).Some? && Readable(Live(Contents(store)), TablePrefix(schema.name))
    requires forall x :: x in pks ==> ReadableKey(schema, x)
    requires LiveRow(Live(Contents(store)), TablePrefix(schema.name), p) && p.0 == TablePrefix(schema.name) + pk
    ensures var r := FetchRows(store, schema.name, PrimaryKey(schema).value.dataType, pks);
            r.Some? && multiset(r.value)[p] == multiset(pks)[pk]
  {
    if pks != [] {
      var n := |pks| - 1;
      InitLast(pks);
      SnocMembers(pks[..n], pks[n]);
      assert pks[n] in pks;
      FetchedTimes(store, schema, pks[..n], p, pk);
      FetchOne(store, schema, pks[n]);
      hide Deserialize, Sorted, Contents, Live, ReadKey, StorageString, TablePrefix, PrimaryKey, LiveRow, HasPrefix;
      hide ReadableKey, Readable;
      Halves(TablePrefix(schema.name), pk);
      Halves(TablePrefix(schema.name), pks[n]);
    }
  }

  lemma {:induction false} FilteredTimes(rows: seq<KeyedRow>, e: Expr, p: KeyedRow)
    requires Filter(rows, e).Some? && Sorted(p.1)
    ensures multiset(Filter(rows, e).value)[p] == if Holds(Contents(p.1), e) then multiset(rows)[p] else 0
  {
    hide Evaluate, Holds, Contents, Sorted;
    if rows != [] {
      var n := |rows| - 1;
      InitLast(rows);
      FilteredTimes(rows[..n], e, p);
      if rows[n] == p {
        EvaluateExactly(p.1, e);
      }
    }
  }

  /** Through an index a matching row is listed once for every stored entry of it in the range, deleted entries included. */
  lemma {:induction false} IndexListsPerEntry(catalog: Catalog, store: seq<Record>, t: string, lookup: IndexLookup,
                                              e: Expr, p: KeyedRow, pk: string)
    requires WellIndexed(catalog, Contents(store)) && Sorted(store) && t in catalog.tables
    requires FindUsableIndex(catalog, t, e) == Some(lookup) && Indexable(lookup.operator)
    requires FetchMatching(catalog, store, catalog.tables[t], e).Some?
    requires LiveRow(Live(Contents(store)), TablePrefix(t), p) && p.0 == TablePrefix(t) + pk && Holds(Contents(p.1), e)
    ensures multiset(FetchMatching(catalog, store, catalog.tables[t], e).value)[p] == |EntryPlaces(store, BuildIndexRange(t, lookup), pk)|
  {
    var schema, live, range := catalog.tables[t], Live(Contents(store)), BuildIndexRange(t, lookup);
    TableReadable(catalog, Contents(store), t);
    LookupReadable(catalog, store, t, lookup);
    LiveRowReads(live, t, p);
    hide WellIndexed, LookupIndex, BuildIndexRange, LiveRow, Readable, ReadableKey, Contents, Live, Sorted;
    hide TablePrefix, RowsOf;
    hide FetchRows, Filter, PrimaryKey, Holds, Fails, EntryPlaces;
    var pks := LookupIndex(store, range);
    LookedUpTimes(store, range, pk);
    FetchedTimes(store, schema, pks, p, pk);
    FilteredTimes(FetchRows(store, t, PrimaryKey(schema).value.dataType, pks).value, e, p);
  }
}
