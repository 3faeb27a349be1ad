/** The catalog's records say what the catalog is, after every run. */
module CatalogRecords {
  import opened Seqs
  import opened SortedMap
  import opened Records
  import opened Text
  import opened Ast
  import opened Rows
  import opened IndexKeys
  import opened SqlState
  import opened IndexedTables
  import opened SqlSteps
  import opened CatalogTexts
  import opened RowWrites
  import opened ChangeAnswers
  import opened RunAnswers

  function SchemaKey(name: string): string {
    "__schema__:" + name
  }

  function IndexMetaKey(name: string): string {
    "__index_meta__:" + name
  }

  /** A record of each table with its schema's text, one of each index with its definition's, and no others. */
  ghost predicate CatalogStored(s: Sql) {
    && (forall t :: t in s.catalog.tables ==> s.catalog.tables[t].name == t && Shown(s.m, SchemaKey(t)) == Some(SchemaText(s.catalog.tables[t])))
    && (forall n :: n in s.catalog.indexes ==> s.catalog.indexes[n].name == n && Shown(s.m, IndexMetaKey(n)) == Some(IndexText(s.catalog.indexes[n])))
    && (forall t :: Shown(s.m, SchemaKey(t)).Some? ==> t in s.catalog.tables)
    && forall n :: Shown(s.m, IndexMetaKey(n)).Some? ==> n in s.catalog.indexes
  }

  /** A key of the catalog's own records. */
  ghost predicate CatalogKey(k: string) {
    HasPrefix(k, TablePrefix(SCHEMA)) || HasPrefix(k, TablePrefix(INDEX_META))
  }

  lemma {:induction false} CatalogKeys(name: string)
    ensures CatalogKey(SchemaKey(name)) && CatalogKey(IndexMetaKey(name))
    ensures SchemaKey(name) == TablePrefix(SCHEMA) + name && IndexMetaKey(name) == TablePrefix(INDEX_META) + name
  {
    assert TablePrefix(SCHEMA) == "__schema__:" && TablePrefix(INDEX_META) == "__index_meta__:";
    PrefixOf(TablePrefix(SCHEMA), name);
    PrefixOf(TablePrefix(INDEX_META), name);
  }

  lemma {:induction false} KindsDiffer(a: string, b: string)
    ensures SchemaKey(a) != IndexMetaKey(b)
  {
    assert SchemaKey(a)[2] == 's' && IndexMetaKey(b)[2] == 'i';
  }

  lemma {:induction false} NamesDiffer(a: string, b: string)
    requires a != b
    ensures SchemaKey(a) != SchemaKey(b) && IndexMetaKey(a) != IndexMetaKey(b)
  {
    Halves("__schema__:", a);
    Halves("__schema__:", b);
    Halves("__index_meta__:", a);
    Halves("__index_meta__:", b);
  }

  /** A catalog's key is no row's and no entry's. */
  lemma {:induction false} CatalogKeyApart(k: string, t: string)
    requires CatalogKey(k) && GoodName(t)
    ensures !HasPrefix(k, TablePrefix(t)) && !HasPrefix(k, IndexPrefix(t))
  {
    hide HasPrefix, TablePrefix, IndexPrefix, GoodName;
    if HasPrefix(k, TablePrefix(SCHEMA)) {
      ReservedApart(k, SCHEMA, t);
    } else {
      ReservedApart(k, INDEX_META, t);
    }
  }

  ghost predicate SameCatalogTexts(m: map<string, Value>, m': map<string, Value>) {
    forall k :: CatalogKey(k) ==> Shown(m', k) == Shown(m, k)
  }

  lemma {:induction false} StaysStored(s: Sql, m': map<string, Value>)
    requires CatalogStored(s) && SameCatalogTexts(s.m, m')
    ensures CatalogStored(s.(m := m'))
  {
    hide CatalogKey, SchemaKey, IndexMetaKey, Shown;
    forall name
      ensures Shown(m', SchemaKey(name)) == Shown(s.m, SchemaKey(name))
      ensures Shown(m', IndexMetaKey(name)) == Shown(s.m, IndexMetaKey(name))
    {
      CatalogKeys(name);
    }
  }

  /** Writing a row leaves the catalog's records. */
  lemma {:induction false} WriteSparesCatalog(m: map<string, Value>, t: string, pk: RowValue, gone: set<string>,
                                              v: Value, put: set<string>)
    requires GoodName(t) && EntriesOf(t, StorageString(pk), gone) && EntriesOf(t, StorageString(pk), put)
    ensures SameCatalogTexts(m, RowWrite(m, gone, StorageKey(t, pk), v, put))
  {
    hide HasPrefix, TablePrefix, IndexPrefix, GoodName, CatalogKey, LastPiece, StorageString;
    PrefixOf(TablePrefix(t), StorageString(pk));
    forall k | CatalogKey(k)
      ensures k != StorageKey(t, pk) && k !in gone && k !in put
    {
      CatalogKeyApart(k, t);
    }
  }

  lemma {:induction false} EraseSpares(catalog: Catalog, schema: TableSchema, m: map<string, Value>, p: KeyedRow)
    requires GoodCatalog(catalog) && schema.name in catalog.tables && catalog.tables[schema.name] == schema
    requires StoredRow(schema, p)
    ensures SameCatalogTexts(m, RowWrite(m, RowEntries(catalog, schema, p.1), p.0, Tombstone, {}))
  {
    assert GoodSchema(schema.name, schema);
    hide RowEntries, RowWrite, GoodRow, EntriesOf, StorageKey, IndexKey, SameCatalogTexts, GoodName;
    GoodRowShape(schema, p.1);
    RowEntriesExact(catalog, schema, p.1);
    var pk := KeyOf(schema, Contents(p.1));
    NoEntries(schema.name, StorageString(pk));
    WriteSparesCatalog(m, schema.name, pk, RowEntries(catalog, schema, p.1), Tombstone, {});
  }

  lemma {:induction false} DeleteSpares(catalog: Catalog, schema: TableSchema, m: map<string, Value>, rows: seq<KeyedRow>)
    requires GoodCatalog(catalog) && schema.name in catalog.tables && catalog.tables[schema.name] == schema
    requires AllStored(schema, rows)
    ensures SameCatalogTexts(m, DeleteAll(catalog, schema, m, rows))
  {
    hide GoodCatalog, StoredRow, RowEntries, RowWrite, Shown, CatalogKey;
    if rows != [] {
      var n := |rows| - 1;
      DeleteSpares(catalog, schema, m, rows[..n]);
      EraseSpares(catalog, schema, DeleteAll(catalog, schema, m, rows[..n]), rows[n]);
    }
  }

  lemma {:induction false} RewriteSpares(catalog: Catalog, schema: TableSchema, m: map<string, Value>, p: KeyedRow,
                                         assignments: seq<Assignment>)
    requires GoodCatalog(catalog) && schema.name in catalog.tables && catalog.tables[schema.name] == schema
    requires StoredRow(schema, p)
    requires CleanAssignments(assignments) && Assigned(schema, p.1, assignments).Some?
    ensures var r := Assigned(schema, p.1, assignments).value;
            SameCatalogTexts(m, RowWrite(m, RowEntries(catalog, schema, p.1), p.0, Data(Serialize(r)), RowEntries(catalog, schema, r)))
  {
    assert GoodSchema(schema.name, schema);
    hide RowEntries, RowWrite, GoodRow, EntriesOf, StorageKey, IndexKey, SameCatalogTexts, GoodName, Assigned;
    hide CleanLiteral, Serialize;
    GoodRowShape(schema, p.1);
    RowEntriesExact(catalog, schema, p.1);
    AssignedIsGood(schema, p.1, assignments);
    var r, pk := Assigned(schema, p.1, assignments).value, KeyOf(schema, Contents(p.1));
    RowEntriesExact(catalog, schema, r);
    WriteSparesCatalog(m, schema.name, pk, RowEntries(catalog, schema, p.1), Data(Serialize(r)), RowEntries(catalog, schema, r));
  }

  lemma {:induction false} UpdateSpares(catalog: Catalog, schema: TableSchema, m: map<string, Value>,
                                        rows: seq<KeyedRow>, assignments: seq<Assignment>)
    requires GoodCatalog(catalog) && schema.name in catalog.tables && catalog.tables[schema.name] == schema
    requires AllStored(schema, rows)
    requires CleanAssignments(assignments)
    ensures SameCatalogTexts(m, UpdateAll(catalog, schema, m, rows, assignments).0)
  {
    hide GoodCatalog, StoredRow, RowEntries, RowWrite, Shown, CatalogKey, Assigned, CleanAssignments, Serialize;
    if rows != [] {
      var n := |rows| - 1;
      UpdateSpares(catalog, schema, m, rows[..n], assignments);
      var done := UpdateAll(catalog, schema, m, rows[..n], assignments);
      if done.1 && Assigned(schema, rows[n].1, assignments).Some? {
        RewriteSpares(catalog, schema, done.0, rows[n], assignments);
      }
    }
  }

  lemma {:induction false} AllOf(schema: TableSchema, rows: seq<KeyedRow>)
    requires forall p :: p in rows ==> StoredRow(schema, p)
    ensures AllStored(schema, rows)
  {
  }

  /** INSERT, UPDATE and DELETE leave the catalog's records. */
  lemma {:induction false} InsertSpares(s: Sql, table: string, columns: seq<string>, values: seq<Expr>)
    requires Invariant(s) && CleanStatement(s, InsertInto(table, columns, values))
    ensures SameCatalogTexts(s.m, ExecInsert(s, table, columns, values).m)
  {
    if InsertGoes(s, table, columns, values) {
      var schema := s.catalog.tables[table];
      assert GoodSchema(table, schema);
      InsertedIsGood(schema, columns, values);
      var row := RowToInsert(schema, columns, values).value;
      hide WellIndexed, GoodCatalog, RowToInsert, RowEntries, GoodRow, Serialize, RowWrite, CleanStatement, PkOf;
      hide KeyOf, EntriesOf, SameCatalogTexts, GoodName;
      CatalogIsGood(s.catalog, s.m);
      GoodRowShape(schema, row);
      GoodRowKey(schema, row);
      var pk := KeyOf(schema, Contents(row));
      RowEntriesExact(s.catalog, schema, row);
      NoEntries(table, StorageString(pk));
      WriteSparesCatalog(s.m, table, pk, {}, Data(Serialize(row)), RowEntries(s.catalog, schema, row));
    }
  }

  lemma {:induction false} UpdateSetSpares(s: Sql, table: string, assignments: seq<Assignment>, condition: Option<Expr>)
    requires Invariant(s) && CleanAssignments(assignments)
    ensures SameCatalogTexts(s.m, ExecUpdate(s, table, assignments, condition).m)
  {
    if table in s.catalog.tables && condition.Some? {
      var schema := s.catalog.tables[table];
      assert GoodSchema(table, schema);
      hide GoodCatalog, UpdateTargets, UpdateAll, CleanAssignments, StoredRow, Listing, WellIndexed, CatalogKey, Shown;
      CatalogIsGood(s.catalog, s.m);
      TargetsAreLive(s.catalog, s.m, table, condition.value);
      var r := UpdateTargets(s.catalog, Listing(s.m), schema, condition.value);
      if r.Some? {
        LiveAreStored(s.catalog, s.m, table, r.value);
        AllOf(schema, r.value);
        UpdateSpares(s.catalog, schema, s.m, r.value, assignments);
      }
    }
  }

  lemma {:induction false} DeleteFromSpares(s: Sql, table: string, condition: Option<Expr>)
    requires Invariant(s)
    ensures SameCatalogTexts(s.m, ExecDelete(s, table, condition).m)
  {
    if table in s.catalog.tables && condition.Some? {
      var schema := s.catalog.tables[table];
      assert GoodSchema(table, schema);
      hide GoodCatalog, FetchMatching, IsKeyLookup, DeleteAll, StoredRow, Listing, WellIndexed, CatalogKey, Shown;
      CatalogIsGood(s.catalog, s.m);
      FetchedAreLive(s.catalog, s.m, table, condition.value);
      var r := DeleteTargets(s.catalog, Listing(s.m), schema, condition.value);
      if r.Some? {
        LiveAreStored(s.catalog, s.m, table, r.value);
        AllOf(schema, r.value);
        DeleteSpares(s.catalog, schema, s.m, r.value);
      }
    }
  }

  lemma {:induction false} OneTextMore(m: map<string, Value>, key: string, text: string)
    ensures forall k :: Shown(m[key := Data(text)], k) == if k == key then Some(text) else Shown(m, k)
  {
    forall k
      ensures Shown(m[key := Data(text)], k) == if k == key then Some(text) else Shown(m, k)
    {
      OneText(m, key, text, k);
    }
  }

  lemma {:induction false} OneText(m: map<string, Value>, key: string, text: string, k: string)
    ensures Shown(m[key := Data(text)], k) == if k == key then Some(text) else Shown(m, k)
  {
    assert Live(m[key := Data(text)]) == Live(m)[key := text];
  }

  /** One record more. */
  lemma {:induction false} OneSchemaMore(s: Sql, schema: TableSchema)
    requires CatalogStored(s) && schema.name !in s.catalog.tables
    ensures CatalogStored(Sql(s.catalog.(tables := s.catalog.tables[schema.name := schema]), s.m[SchemaKey(schema.name) := Data(SchemaText(schema))]))
  {
    hide SchemaKey, IndexMetaKey, SchemaText, IndexText, Shown;
    OneTextMore(s.m, SchemaKey(schema.name), SchemaText(schema));
    forall name
      ensures SchemaKey(schema.name) != IndexMetaKey(name) && (name != schema.name ==> SchemaKey(schema.name) != SchemaKey(name))
    {
      KindsDiffer(schema.name, name);
      if name != schema.name {
        NamesDiffer(name, schema.name);
      }
    }
  }

  lemma {:induction false} OneIndexMore(s: Sql, ix: IndexSchema)
    requires CatalogStored(s) && ix.name !in s.catalog.indexes
    ensures CatalogStored(Sql(s.catalog.(indexes := s.catalog.indexes[ix.name := ix]), s.m[IndexMetaKey(ix.name) := Data(IndexText(ix))]))
  {
    hide SchemaKey, IndexMetaKey, SchemaText, IndexText, Shown;
    OneTextMore(s.m, IndexMetaKey(ix.name), IndexText(ix));
    forall name
      ensures IndexMetaKey(ix.name) != SchemaKey(name) && (name != ix.name ==> IndexMetaKey(ix.name) != IndexMetaKey(name))
    {
      KindsDiffer(name, ix.name);
      if name != ix.name {
        NamesDiffer(name, ix.name);
      }
    }
  }

  lemma {:induction false} EntriesSpareCatalog(m: map<string, Value>, t: string, keys: set<string>)
    requires GoodName(t) && forall k :: k in keys ==> HasPrefix(k, IndexPrefix(t))
    ensures SameCatalogTexts(m, m + AllAs(keys, Data("")))
  {
    hide HasPrefix, IndexPrefix, TablePrefix, GoodName, CatalogKey;
    forall k | CatalogKey(k)
      ensures k !in keys
    {
      CatalogKeyApart(k, t);
    }
  }

  lemma {:induction false} CreateTableStores(s: Sql, schema: TableSchema)
    requires CatalogStored(s)
    ensures CatalogStored(ExecCreateTable(s, schema))
  {
    hide CatalogStored, SchemaText;
    CatalogKeys(schema.name);
    if schema.name !in s.catalog.tables {
      OneSchemaMore(s, schema);
    }
  }

  lemma {:induction false} BuiltSpares(catalog: Catalog, m: map<string, Value>, t: string, column: string)
    requires WellIndexed(catalog, m) && t in catalog.tables && HasColumn(catalog.tables[t], column)
    ensures var schema, rows := catalog.tables[t], ScanRows(Listing(m), TablePrefix(t));
            && schema.name == t && rows.Some?
            && SameCatalogTexts(m, m + AllAs(BuildKeys(schema, column, Built(schema, column, rows.value)), Data("")))
  {
    assert GoodSchema(t, catalog.tables[t]);
    hide WellIndexed, ScanRows, BuildKeys, Built, Listing, TablePrefix, IndexPrefix, HasPrefix, HasColumn, AllAs;
    hide GoodName, SameCatalogTexts;
    BuiltAreEntries(catalog, m, t, column);
    EntriesSpareCatalog(m, t, BuildKeys(catalog.tables[t], column, Built(catalog.tables[t], column, ScanRows(Listing(m), TablePrefix(t)).value)));
  }

  lemma {:induction false} IndexRecordStored(s: Sql, ix: IndexSchema)
    requires Invariant(s) && CatalogStored(s) && ix.name !in s.catalog.indexes
    ensures var m := s.m[TablePrefix(INDEX_META) + ix.name := Data(IndexText(ix))];
            WellIndexed(s.catalog, m) && CatalogStored(Sql(s.catalog.(indexes := s.catalog.indexes[ix.name := ix]), m))
  {
    hide CatalogStored, IndexText, TablePrefix, WellIndexed, CatalogKey, IndexMetaKey;
    CatalogKeys(ix.name);
    CatalogRecordKeeps(s.catalog, s.m, INDEX_META, ix.name, IndexText(ix));
    OneIndexMore(s, ix);
  }

  lemma {:induction false} CreateIndexStores(s: Sql, name: string, table: string, column: string)
    requires Invariant(s) && CatalogStored(s)
    ensures CatalogStored(ExecCreateIndex(s, name, table, column))
  {
    if table in s.catalog.tables && FindNamed(s.catalog.tables[table].columns, column).Some? && name !in s.catalog.indexes {
      hide HasPrefix, SchemaText, SameCatalogTexts, CatalogStored, ScanRows, BuildKeys, Built, Listing, IndexText;
      hide TablePrefix, FindNamed, WellIndexed, HasColumn, AllAs, CatalogKey, Shown, GoodCatalog;
      var ix := IndexSchema(name, table, column);
      NamedIsColumn(s.catalog.tables[table], column);
      IndexRecordStored(s, ix);
      var m := s.m[TablePrefix(INDEX_META) + name := Data(IndexText(ix))];
      BuiltSpares(s.catalog, m, table, column);
      StaysStored(Sql(s.catalog.(indexes := s.catalog.indexes[name := ix]), m), ExecCreateIndex(s, name, table, column).m);
    }
  }

  /** Every clean statement keeps the catalog's records what the catalog is. */
  lemma {:induction false} ExecStores(s: Sql, st: Statement)
    requires Invariant(s) && CleanStatement(s, st) && CatalogStored(s)
    ensures CatalogStored(Exec(s, st))
  {
    hide Invariant, CatalogStored, ExecCreateTable, ExecCreateIndex, SameCatalogTexts, CleanLiteral, RowToInsert;
    hide GoodName, GoodKey, CleanRow, UpdateTargets, DeleteTargets;
    hide RowWrite, RowEntries, Serialize, UpdateAll, DeleteAll, PkOf;
    match st
    case CreateTable(schema) =>
      CreateTableStores(s, schema);
    case CreateIndex(name, table, column) =>
      CreateIndexStores(s, name, table, column);
    case InsertInto(table, columns, values) =>
      InsertSpares(s, table, columns, values);
      StaysStored(s, ExecInsert(s, table, columns, values).m);
    case UpdateSet(table, assignments, condition) =>
      UpdateSetSpares(s, table, assignments, condition);
      StaysStored(s, ExecUpdate(s, table, assignments, condition).m);
    case DeleteFrom(table, condition) =>
      DeleteFromSpares(s, table, condition);
      StaysStored(s, ExecDelete(s, table, condition).m);
  }

  lemma {:induction false} EventStores(s: Sql, ever: set<string>, ev: SqlEvent)
    requires Invariant(s) && CleanEvent(s, ever, ev) && CatalogStored(s)
    ensures CatalogStored(Happen(s, ev))
  {
    hide Invariant, CatalogStored, Exec, CleanStatement;
    if ev.Do? {
      ExecStores(s, ev.statement);
    } else {
      StaysStored(s, ev.settled);
    }
  }

  lemma {:induction false} NothingStored()
    ensures CatalogStored(EmptySql())
  {
  }

  /** After every run of clean statements from an empty database, with the engine at work anywhere between them, the
      live records of the catalog are exactly those of its tables and indexes. */
  lemma {:induction false} RunStores(evs: seq<SqlEvent>)
    requires CleanRun(EmptySql(), evs)
    ensures CatalogStored(HappenAll(EmptySql(), evs))
  {
    hide Invariant, CleanEvent, Happen, EverKnown, CatalogStored;
    EmptyIsIndexed();
    NothingStored();
    if evs != [] {
      var n := |evs| - 1;
      forall i | 0 <= i < n
        ensures CleanEvent(HappenAll(EmptySql(), evs[..n][..i]), Ever(EmptySql(), evs[..n][..i]), evs[..n][i])
      {
        assert evs[..n][..i] == evs[..i];
      }
      RunKeeps(EmptySql(), evs[..n]);
      RunStores(evs[..n]);
      EventStores(HappenAll(EmptySql(), evs[..n]), Ever(EmptySql(), evs[..n]), evs[n]);
    }
  }

  /** Names that the catalog's texts do not take apart. */
  ghost predicate PlainCatalog(catalog: Catalog) {
    && (forall t :: t in catalog.tables ==>
          Free(t, '|') && forall i :: 0 <= i < |catalog.tables[t].columns| ==> PlainColumn(catalog.tables[t].columns[i]))
    && forall n :: n in catalog.indexes ==>
         Free(n, '|') && Free(catalog.indexes[n].tableName, '|') && Free(catalog.indexes[n].columnName, '|')
  }

  /** So the catalog can be read back from its records alone. */
  lemma {:induction false} CatalogReadsBack(s: Sql)
    requires CatalogStored(s) && PlainCatalog(s.catalog)
    ensures forall t :: t in s.catalog.tables <==> Shown(s.m, SchemaKey(t)).Some?
    ensures forall t :: t in s.catalog.tables ==> ParseSchema(Shown(s.m, SchemaKey(t)).value) == Some(s.catalog.tables[t])
    ensures forall n :: n in s.catalog.indexes <==> Shown(s.m, IndexMetaKey(n)).Some?
    ensures forall n :: n in s.catalog.indexes ==> ParseIndex(Shown(s.m, IndexMetaKey(n)).value) == Some(s.catalog.indexes[n])
  {
    hide PlainColumn, SchemaKey, IndexMetaKey, SchemaText, IndexText, ParseSchema, ParseIndex, Shown;
    forall t | t in s.catalog.tables
      ensures ParseSchema(SchemaText(s.catalog.tables[t])) == Some(s.catalog.tables[t])
    {
      SchemaRoundTrip(s.catalog.tables[t]);
    }
    forall n | n in s.catalog.indexes
      ensures ParseIndex(IndexText(s.catalog.indexes[n])) == Some(s.catalog.indexes[n])
    {
      IndexRoundTrip(s.catalog.indexes[n]);
    }
  }
}
