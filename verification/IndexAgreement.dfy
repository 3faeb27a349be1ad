/** The index path returns the rows the scan returns. */
module IndexAgreement {
  import opened Seqs
  import opened Order
  import opened SortedMap
  import opened Records
  import opened Decimal
  import opened Ast
  import opened Rows
  import opened IndexKeys
  import opened SqlState
  import opened IndexedTables

  /** `p` is a live row under the prefix. */
  ghost predicate LiveRow(live: map<string, string>, prefix: string, p: KeyedRow) {
    p.0 in live && HasPrefix(p.0, prefix) && Deserialize(live[p.0]) == Some(p.1)
  }

  ghost predicate Readable(live: map<string, string>, prefix: string) {
    forall k :: k in live && HasPrefix(k, prefix) ==> Deserialize(live[k]).Some?
  }

  lemma {:induction false} LiveSnoc(store: seq<Record>)
    requires Sorted(store) && store != []
    ensures var n := |store| - 1;
            var was, r := Live(Contents(store[..n])), store[n];
            && Sorted(store[..n]) && r.key !in was
            && Live(Contents(store)) == if r.value.Data? then was[r.key := r.value.text] else was
  {
    LastKeyNew(store);
    hide Sorted;
    var n := |store| - 1;
    LiveExtended(Contents(store[..n]), store[n].key, store[n].value);
  }

  lemma {:induction false} LastKeyNew(store: seq<Record>)
    requires Sorted(store) && store != []
    ensures Sorted(store[..|store| - 1]) && store[|store| - 1].key !in Contents(store[..|store| - 1])
  {
    var n := |store| - 1;
    ContentsLists(store[..n]);
    hide Less, Contents;
    LessIrreflexive(store[n].key);
  }

  lemma {:induction false} LiveExtended(m: map<string, Value>, k: string, v: Value)
    requires k !in m
    ensures k !in Live(m) && Live(m[k := v]) == if v.Data? then Live(m)[k := v.text] else Live(m)
  {
  }

  /** The scan finds exactly the live rows of the table. */
  lemma {:induction false} ScanExact(store: seq<Record>, prefix: string)
    requires Sorted(store) && Readable(Live(Contents(store)), prefix)
    ensures var r := ScanRows(store, prefix);
            r.Some? && forall p: KeyedRow :: p in r.value <==> LiveRow(Live(Contents(store)), prefix, p)
  {
    if store != [] {
      var n := |store| - 1;
      LiveSnoc(store);
      hide Deserialize, HasPrefix, Sorted, Contents, Live;
      var live, was := Live(Contents(store)), Live(Contents(store[..n]));
      assert forall k :: k in was ==> k in live && live[k] == was[k];
      ScanExact(store[..n], prefix);
      var rows, r := ScanRows(store[..n], prefix).value, store[n];
      if HasPrefix(r.key, prefix) && r.value.Data? {
        assert r.key in live && live[r.key] == r.value.text;
        var q := (r.key, Deserialize(r.value.text).value);
        SnocMembers(rows, q);
        assert forall p: KeyedRow :: LiveRow(live, prefix, p) <==> LiveRow(was, prefix, p) || p == q;
      } else {
        assert forall p: KeyedRow :: LiveRow(live, prefix, p) <==> LiveRow(was, prefix, p);
      }
    } else {
      assert Contents(store) == map[];
    }
  }

  lemma {:induction false} SnocMembers<T>(s: seq<T>, x: T)
    ensures forall p :: p in s + [x] <==> p in s || p == x
  {
  }

  /** The lookup finds exactly the last pieces of the stored keys in the range. */
  lemma {:induction false} LookupExact(store: seq<Record>, range: (string, string))
    requires Sorted(store)
    ensures forall k :: k in Contents(store) && Between(range, k) ==> LastPiece(k, ':') in LookupIndex(store, range)
    ensures forall x :: x in LookupIndex(store, range) ==>
              exists k :: k in Contents(store) && Between(range, k) && LastPiece(k, ':') == x
  {
    hide Between, LastPiece;
    if store != [] {
      var n := |store| - 1;
      LookupExact(store[..n], range);
      var key := store[n].key;
      assert key in Contents(store);
      forall x | x in LookupIndex(store, range)
        ensures exists k :: k in Contents(store) && Between(range, k) && LastPiece(k, ':') == x
      {
        if x in LookupIndex(store[..n], range) {
          var k :| k in Contents(store[..n]) && Between(range, k) && LastPiece(k, ':') == x;
          assert k in Contents(store);
        }
      }
    }
  }

  /** Fetching by readable keys finds exactly their live rows. */
  lemma {:induction false} FetchExact(store: seq<Record>, schema: TableSchema, pks: seq<string>)
    requires Sorted(store) && PrimaryKey(schema).Some? && Readable(Live(Contents(store)), TablePrefix(schema.name))
    requires forall pk :: pk in pks ==> ReadableKey(schema, pk)
    ensures var r := FetchRows(store, schema.name, PrimaryKey(schema).value.dataType, pks);
            r.Some? && forall p: KeyedRow :: p in r.value <==>
              LiveRow(Live(Contents(store)), TablePrefix(schema.name), p) && exists pk :: pk in pks && p.0 == TablePrefix(schema.name) + pk
  {
    if pks != [] {
      var n := |pks| - 1;
      InitLast(pks);
      SnocMembers(pks[..n], pks[n]);
      assert pks[n] in pks;
      FetchExact(store, schema, pks[..n]);
      FetchOne(store, schema, pks[n]);
      hide Deserialize, Sorted, Contents, Live, ReadKey, StorageString, TablePrefix, PrimaryKey, LiveRow, HasPrefix;
      hide ReadableKey, Readable;
    }
  }

  /** What one key adds to the fetched rows. */
  lemma {:induction false} FetchOne(store: seq<Record>, schema: TableSchema, pk: string)
    requires Sorted(store) && ReadableKey(schema, pk) && Readable(Live(Contents(store)), TablePrefix(schema.name))
    ensures var live, prefix := Live(Contents(store)), TablePrefix(schema.name);
            var v := ReadKey(PrimaryKey(schema).value.dataType, pk);
            && v.Some? && StorageKey(schema.name, v.value) == prefix + pk
            && match Find<Value>(store, prefix + pk)
               case Some(Data(text)) =>
                 Deserialize(text).Some? && forall p: KeyedRow :: p.0 == prefix + pk && LiveRow(live, prefix, p) <==> p == (prefix + pk, Deserialize(text).value)
               case _ => forall p: KeyedRow :: p.0 == prefix + pk ==> !LiveRow(live, prefix, p)
  {
    var prefix := TablePrefix(schema.name);
    FindIsLookup(store, prefix + pk);
    PrefixOf(prefix, pk);
    hide Deserialize, Sorted, Contents, Find, HasPrefix;
  }

  /** Filtering rows on which the condition has no error keeps exactly those that satisfy it. */
  lemma {:induction false} FilterExact(rows: seq<KeyedRow>, e: Expr)
    requires forall p: KeyedRow :: p in rows ==> Evaluate(p.1, e).Some?
    ensures var r := Filter(rows, e); r.Some? && forall p: KeyedRow :: p in r.value <==> p in rows && Evaluate(p.1, e) == Some(true)
  {
    hide Evaluate;
    if rows != [] {
      var n := |rows| - 1;
      InitLast(rows);
      SnocMembers(rows[..n], rows[n]);
      assert rows[n] in rows;
      FilterExact(rows[..n], e);
      SnocMembers(Filter(rows[..n], e).value, rows[n]);
    }
  }

  /** The literal has the column's type, and its range finds everything that matches. */
  predicate Answerable(schema: TableSchema, lookup: IndexLookup)
    requires Indexable(lookup.operator)
  {
    var c := FindNamed(schema.columns, lookup.column);
    && c.Some? && HasType(lookup.value, c.value.dataType)
    && (lookup.value.Words? ==> TextOrderSurvives(lookup.operator, lookup.value.text))
    && (lookup.value.Integer? ==> IsI64(lookup.value.number) && OrderSurvives(lookup.operator, lookup.value.number))
  }

  lemma {:induction false} FindNamedExact(columns: seq<Column>, name: string)
    requires FindNamed(columns, name).Some?
    ensures exists i :: 0 <= i < |columns| && columns[i] == FindNamed(columns, name).value && columns[i].name == name
  {
    if columns[0].name != name {
      FindNamedExact(columns[1..], name);
      var i :| 0 <= i < |columns[1..]| && columns[1..][i] == FindNamed(columns, name).value;
      assert columns[i + 1] == FindNamed(columns, name).value;
    }
  }

  lemma {:induction false} ValueInRow(schema: TableSchema, row: Row, name: string)
    requires GoodRow(schema, row) && FindNamed(schema.columns, name).Some?
    ensures name in Contents(row) && HasType(Contents(row)[name], FindNamed(schema.columns, name).value.dataType)
    ensures Find(row, name) == Some(Contents(row)[name]) && CleanValue(Contents(row)[name])
  {
    FindNamedExact(schema.columns, name);
    FindIsLookup(row, name);
    ContentsLists(row);
    var i :| 0 <= i < |row| && row[i].key == name;
    assert CleanEntry(row[i]);
  }

  /** On a good row the condition has no error, and what satisfies it has its entry in the range. */
  lemma {:induction false} MatchInRange(schema: TableSchema, row: Row, e: Expr, lookup: IndexLookup)
    requires GoodRow(schema, row)
    requires e.Binary? && e.left == Identifier(lookup.column) && e.op == lookup.operator && Indexable(e.op)
    requires Literal(e.right) == Some(lookup.value) && Answerable(schema, lookup)
    ensures lookup.column in Contents(row) && Evaluate(row, e).Some?
    ensures Evaluate(row, e) == Some(true) ==>
              Between(BuildIndexRange(schema.name, lookup),
                      IndexKey(schema.name, lookup.column, Contents(row)[lookup.column], KeyOf(schema, Contents(row))))
  {
    ValueInRow(schema, row, lookup.column);
    var w, pk := Contents(row)[lookup.column], KeyOf(schema, Contents(row));
    hide Padded, Between, BuildIndexRange, IndexKey, Find, Contents, FindNamed, WellTyped, KeyOf, CleanRow, TextOrderSurvives;
    if Evaluate(row, e) == Some(true) {
      match (w, lookup.value)
      case (Integer(a), Integer(b)) =>
        assert Satisfies(e.op, a, b);
        Survives(schema.name, lookup.column, e.op, b, a, pk);
      case (Words(a), Words(b)) =>
        assert TextSatisfies(e.op, a, b);
        TextSurvives(schema.name, lookup.column, e.op, b, a, pk);
      case _ =>
    }
  }

  lemma {:induction false} TableReadable(catalog: Catalog, m: map<string, Value>, t: string)
    requires WellIndexed(catalog, m) && t in catalog.tables
    ensures Readable(Live(m), TablePrefix(t)) && catalog.tables[t].name == t && PrimaryKey(catalog.tables[t]).Some?
  {
    hide GoodRow, Deserialize, HasPrefix, TablePrefix;
    assert GoodSchema(t, catalog.tables[t]);
    forall k | k in Live(m) && HasPrefix(k, TablePrefix(t))
      ensures Deserialize(Live(m)[k]).Some?
    {
      assert IndexedRow(catalog, catalog.tables[t], Live(m), k);
    }
  }

  /** Everything a lookup reads prints as a primary key of the table. */
  lemma {:induction false} LookupReadable(catalog: Catalog, store: seq<Record>, t: string, lookup: IndexLookup)
    requires WellIndexed(catalog, Contents(store)) && Sorted(store) && t in catalog.tables && Indexable(lookup.operator)
    ensures forall pk :: pk in LookupIndex(store, BuildIndexRange(t, lookup)) ==> ReadableKey(catalog.tables[t], pk)
  {
    var range := BuildIndexRange(t, lookup);
    LookupExact(store, range);
    hide ReadableKey, Between, BuildIndexRange, LastPiece, Contents, RowsIndexed, KeysKnown, Sorted;
    forall pk | pk in LookupIndex(store, range)
      ensures ReadableKey(catalog.tables[t], pk)
    {
      var k :| k in Contents(store) && Between(range, k) && LastPiece(k, ':') == pk;
      RangeStaysInBase(t, lookup, k);
      LongerPrefix(k, IndexPrefix(t), lookup.column + ":");
    }
  }

  /** A live row that satisfies the condition is found by its index entry. */
  lemma {:induction false} MatchIsLookedUp(catalog: Catalog, store: seq<Record>, t: string, lookup: IndexLookup, e: Expr, p: KeyedRow)
    requires WellIndexed(catalog, Contents(store)) && Sorted(store) && t in catalog.tables
    requires Indexable(lookup.operator) && lookup.column in IndexedColumns(catalog, t)
    requires e.Binary? && e.left == Identifier(lookup.column) && e.op == lookup.operator
    requires Literal(e.right) == Some(lookup.value) && Answerable(catalog.tables[t], lookup)
    requires LiveRow(Live(Contents(store)), TablePrefix(t), p) && Evaluate(p.1, e) == Some(true)
    ensures exists pk :: pk in LookupIndex(store, BuildIndexRange(t, lookup)) && p.0 == TablePrefix(t) + pk
  {
    var schema, live := catalog.tables[t], Live(Contents(store));
    assert GoodSchema(t, schema) && IndexedRow(catalog, schema, live, p.0);
    hide GoodRow, LastPiece, Between, BuildIndexRange, Contents, Evaluate, IndexKey, Answerable, HasPrefix, KeysKnown, EntriesReadable;
    var row := Contents(p.1);
    GoodRowShape(schema, p.1);
    var pk := KeyOf(schema, row);
    MatchInRange(schema, p.1, e, lookup);
    var k := IndexKey(t, lookup.column, row[lookup.column], pk);
    assert k in live;
    LookupExact(store, BuildIndexRange(t, lookup));
    PrimaryKeyOf(t, lookup.column, row[lookup.column], pk);
  }

  lemma {:induction false} RowsEvaluate(catalog: Catalog, m: map<string, Value>, t: string, lookup: IndexLookup, e: Expr, p: KeyedRow)
    requires WellIndexed(catalog, m) && t in catalog.tables && Indexable(lookup.operator)
    requires e.Binary? && e.left == Identifier(lookup.column) && e.op == lookup.operator
    requires Literal(e.right) == Some(lookup.value) && Answerable(catalog.tables[t], lookup)
    requires LiveRow(Live(m), TablePrefix(t), p)
    ensures Evaluate(p.1, e).Some?
  {
    assert IndexedRow(catalog, catalog.tables[t], Live(m), p.0);
    hide GoodRow, Deserialize, Evaluate, Answerable, IndexKey, HasPrefix;
    MatchInRange(catalog.tables[t], p.1, e, lookup);
  }

  /** Looking rows up through an index yields the same set of rows as scanning the table, both without error. */
  lemma {:induction false} IndexAgreesWithScan(catalog: Catalog, store: seq<Record>, t: string, lookup: IndexLookup, e: Expr)
    requires WellIndexed(catalog, Contents(store)) && Sorted(store) && t in catalog.tables
    requires FindUsableIndex(catalog, t, e) == Some(lookup) && Indexable(lookup.operator) && Answerable(catalog.tables[t], lookup)
    ensures var a, b := FetchMatching(catalog, store, catalog.tables[t], e), ScanMatching(store, t, e);
            a.Some? && b.Some? && forall p: KeyedRow :: p in a.value <==> p in b.value
  {
    var schema, live := catalog.tables[t], Live(Contents(store));
    TableReadable(catalog, Contents(store), t);
    LookupReadable(catalog, store, t, lookup);
    hide WellIndexed, LookupIndex, BuildIndexRange, Evaluate, LiveRow, Readable, ReadableKey, Answerable, Contents, Live, Sorted, TablePrefix;
    hide ScanRows, FetchRows, Filter, PrimaryKey;
    ScanExact(store, TablePrefix(t));
    var pks := LookupIndex(store, BuildIndexRange(t, lookup));
    FetchExact(store, schema, pks);
    var scanned, fetched := ScanRows(store, TablePrefix(t)).value, FetchRows(store, t, PrimaryKey(schema).value.dataType, pks).value;
    forall p | LiveRow(live, TablePrefix(t), p)
      ensures Evaluate(p.1, e).Some?
      ensures Evaluate(p.1, e) == Some(true) ==> exists pk :: pk in pks && p.0 == TablePrefix(t) + pk
    {
      RowsEvaluate(catalog, Contents(store), t, lookup, e, p);
      if Evaluate(p.1, e) == Some(true) {
        MatchIsLookedUp(catalog, store, t, lookup, e, p);
      }
    }
    FilterExact(scanned, e);
    FilterExact(fetched, e);
  }
}
