/** Every statement does to the tables what it means, in every run. */
module RunAnswers {
  import opened SortedMap
  import opened Records
  import opened Ast
  import opened Rows
  import opened IndexKeys
  import opened SqlState
  import opened IndexedTables
  import opened IndexAgreement
  import opened SqlSteps
  import opened CatalogTexts
  import opened StatementMeanings
  import opened RowWrites
  import opened QueryAnswers
  import opened InsertAnswers
  import opened ChangeAnswers

  ghost predicate OnlyKey(columns: seq<Column>, i: int) {
    0 <= i < |columns| && columns[i].primaryKey && forall j :: 0 <= j < |columns| && columns[j].primaryKey ==> j == i
  }

  /** Exactly one column is marked as the key. */
  ghost predicate OneKey(columns: seq<Column>) {
    exists i :: OnlyKey(columns, i)
  }

  lemma {:induction false} NoneCounted(columns: seq<Column>)
    ensures CountPrimary(columns) == 0 <==> forall i :: 0 <= i < |columns| ==> !columns[i].primaryKey
  {
    if columns != [] {
      NoneCounted(columns[1..]);
      assert forall i :: 0 < i < |columns| ==> columns[i] == columns[1..][i - 1];
      assert forall i :: 0 <= i < |columns[1..]| ==> columns[1..][i] == columns[i + 1];
    }
  }

  lemma {:induction false} KeyInTail(columns: seq<Column>, i: int)
    requires columns != [] && !columns[0].primaryKey
    ensures OnlyKey(columns, i + 1) <==> OnlyKey(columns[1..], i)
  {
    assert forall j :: 0 <= j < |columns[1..]| ==> columns[1..][j] == columns[j + 1];
    if OnlyKey(columns, i + 1) {
      forall j | 0 <= j < |columns[1..]| && columns[1..][j].primaryKey
        ensures j == i
      {
        assert columns[j + 1].primaryKey;
      }
    }
  }

  /** The count of CREATE TABLE is one exactly when one column is the key. */
  lemma {:induction false} OneCounted(columns: seq<Column>)
    ensures CountPrimary(columns) == 1 <==> OneKey(columns)
  {
    if columns != [] {
      if columns[0].primaryKey {
        NoneCounted(columns[1..]);
        assert forall i :: 0 < i < |columns| ==> columns[i] == columns[1..][i - 1];
        assert forall i :: 0 <= i < |columns[1..]| ==> columns[1..][i] == columns[i + 1];
        assert OnlyKey(columns, 0) <==> forall i :: 0 <= i < |columns[1..]| ==> !columns[1..][i].primaryKey;
      } else {
        OneCounted(columns[1..]);
        forall i
          ensures OnlyKey(columns, i + 1) <==> OnlyKey(columns[1..], i)
        {
          KeyInTail(columns, i);
        }
        assert forall i :: OnlyKey(columns, i) ==> OnlyKey(columns[1..], i - 1);
      }
    }
  }

  /** The tables and their rows are as before. */
  ghost predicate SameRows(s: Sql, s': Sql) {
    s'.catalog.tables == s.catalog.tables && forall t :: t in s.catalog.tables ==> RowsOf(Live(s'.m), t) == RowsOf(Live(s.m), t)
  }

  /** A statement about the rows of one table: what becomes of them, and that nothing becomes of any other. */
  ghost predicate OnlyTable(s: Sql, s': Sql, table: string) {
    s'.catalog == s.catalog && OthersStay(s.catalog, s.m, s'.m, table)
  }

  ghost predicate InsertDone(s: Sql, table: string, columns: seq<string>, values: seq<Expr>, s': Sql, ok: bool) {
    if table !in s.catalog.tables then s' == s && !ok
    else
      && OnlyTable(s, s', table)
      && InsertMeans(s.catalog.tables[table], columns, values, RowsOf(Live(s.m), table), RowsOf(Live(s'.m), table), ok)
  }

  ghost predicate UpdateDone(s: Sql, table: string, assignments: seq<Assignment>, condition: Option<Expr>, s': Sql,
                             ok: bool) {
    if table !in s.catalog.tables || condition.None? then s' == s && !ok
    else
      var schema := s.catalog.tables[table];
      && OnlyTable(s, s', table)
      && UpdateMeans(schema, condition.value, assignments, Scanned(s.catalog, schema, condition.value),
                     RowsOf(Live(s.m), table), RowsOf(Live(s'.m), table), ok)
  }

  ghost predicate DeleteDone(s: Sql, table: string, condition: Option<Expr>, s': Sql, ok: bool) {
    if table !in s.catalog.tables || condition.None? then s' == s && !ok
    else OnlyTable(s, s', table) && DeleteMeans(condition.value, RowsOf(Live(s.m), table), RowsOf(Live(s'.m), table), ok)
  }

  /** CREATE TABLE adds an empty table, when it has one key and its name is new. */
  ghost predicate CreateTableDone(s: Sql, schema: TableSchema, s': Sql) {
    if !OneKey(schema.columns) || schema.name in s.catalog.tables then s' == s
    else
      && s'.catalog == s.catalog.(tables := s.catalog.tables[schema.name := schema])
      && RowsOf(Live(s'.m), schema.name) == map[]
      && forall t :: t in s.catalog.tables ==> RowsOf(Live(s'.m), t) == RowsOf(Live(s.m), t)
  }

  /** What a statement means for the tables and their rows. */
  ghost predicate StatementMeans(s: Sql, st: Statement, s': Sql) {
    match st
    case CreateTable(schema) => CreateTableDone(s, schema, s')
    case CreateIndex(_, _, _) => SameRows(s, s')
    case InsertInto(table, columns, values) => exists ok :: InsertDone(s, table, columns, values, s', ok)
    case UpdateSet(table, assignments, condition) => exists ok :: UpdateDone(s, table, assignments, condition, s', ok)
    case DeleteFrom(table, condition) => exists ok :: DeleteDone(s, table, condition, s', ok)
  }

  /** The condition of an UPDATE or a DELETE is one its path answers. */
  ghost predicate AnsweredStatement(s: Sql, st: Statement) {
    match st
    case UpdateSet(table, _, condition) => table in s.catalog.tables && condition.Some? ==> Reachable(s.catalog, s.catalog.tables[table], condition.value)
    case DeleteFrom(table, condition) => table in s.catalog.tables && condition.Some? ==> Answered(s.catalog, s.catalog.tables[table], condition.value)
    case _ => true
  }

  /** Records of the catalog and index entries are nobody's rows. */
  lemma {:induction false} NoRowsTouched(catalog: Catalog, m: map<string, Value>, m': map<string, Value>)
    requires forall k :: RowKey(catalog, k) ==> Shown(m', k) == Shown(m, k)
    ensures forall t :: t in catalog.tables ==> RowsOf(Live(m'), t) == RowsOf(Live(m), t)
  {
    hide RowsOf, Shown, HasPrefix, Live;
    forall t | t in catalog.tables
      ensures RowsOf(Live(m'), t) == RowsOf(Live(m), t)
    {
      assert forall k :: HasPrefix(k, TablePrefix(t)) ==> RowKey(catalog, k);
      SameTexts(m, m', t);
    }
  }

  lemma {:induction false} CatalogRecordHidden(catalog: Catalog, m: map<string, Value>, name: string, rest: string,
                                               text: string)
    requires GoodCatalog(catalog) && (name == SCHEMA || name == INDEX_META)
    ensures forall k :: RowKey(catalog, k) ==> Shown(m[TablePrefix(name) + rest := Data(text)], k) == Shown(m, k)
  {
    var key := TablePrefix(name) + rest;
    PrefixOf(TablePrefix(name), rest);
    hide HasPrefix, TablePrefix, IndexPrefix, GoodName;
    forall k | RowKey(catalog, k)
      ensures k != key
    {
      var t :| t in catalog.tables && HasPrefix(k, TablePrefix(t));
      assert GoodSchema(t, catalog.tables[t]);
      ReservedApart(key, name, t);
    }
  }

  lemma {:induction false} EntriesHidden(catalog: Catalog, m: map<string, Value>, t: string, keys: set<string>)
    requires GoodCatalog(catalog) && t in catalog.tables && forall k :: k in keys ==> HasPrefix(k, IndexPrefix(t))
    ensures forall k :: RowKey(catalog, k) ==> Shown(m + AllAs(keys, Data("")), k) == Shown(m, k)
  {
    hide HasPrefix, TablePrefix, IndexPrefix, GoodName;
    forall k | RowKey(catalog, k)
      ensures k !in keys
    {
      var u :| u in catalog.tables && HasPrefix(k, TablePrefix(u));
      assert GoodSchema(u, catalog.tables[u]) && GoodSchema(t, catalog.tables[t]);
      if k in keys {
        IndexKeyApart(t, k, u);
      }
    }
  }

  /** No record is a row of a table that is not in the catalog. */
  lemma {:induction false} NewTableIsEmpty(catalog: Catalog, m: map<string, Value>, t: string)
    requires WellIndexed(catalog, m) && t !in catalog.tables && GoodName(t)
    ensures RowsOf(Live(m), t) == map[]
  {
    assert TablePrefix(t) == t + ":";
    hide HasPrefix, TablePrefix, IndexPrefix, GoodName, KnownKey, GoodCatalog, RowsIndexed, EntriesReadable, Deserialize;
    forall k | k in Live(m)
      ensures !HasPrefix(k, t + ":")
    {
      assert KnownKey(catalog, k);
      UnknownTableEmpty(catalog, k, t);
    }
  }

  lemma {:induction false} CreateTableAnswered(s: Sql, schema: TableSchema)
    requires Invariant(s) && GoodName(schema.name)
    ensures CreateTableDone(s, schema, ExecCreateTable(s, schema))
  {
    OneCounted(schema.columns);
    if CountPrimary(schema.columns) == 1 && schema.name !in s.catalog.tables {
      OneIsPrimary(schema.columns);
      var c' := s.catalog.(tables := s.catalog.tables[schema.name := schema]);
      hide OneKey, WellIndexed, GoodCatalog, RowsOf, Shown, SchemaText, GoodName, Live;
      NewTableKeeps(s.catalog, s.m, schema);
      CatalogIsGood(c', s.m);
      CatalogRecordHidden(c', s.m, SCHEMA, schema.name, SchemaText(schema));
      NoRowsTouched(c', s.m, ExecCreateTable(s, schema).m);
      NewTableIsEmpty(s.catalog, s.m, schema.name);
    }
  }

  /** What CREATE INDEX builds are entries of its table. */
  lemma {:induction false} BuiltAreEntries(catalog: Catalog, m: map<string, Value>, t: string, column: string)
    requires WellIndexed(catalog, m) && t in catalog.tables && HasColumn(catalog.tables[t], column)
    ensures var rows := ScanRows(Listing(m), TablePrefix(t));
            && rows.Some?
            && forall k :: k in BuildKeys(catalog.tables[t], column, Built(catalog.tables[t], column, rows.value)) ==> HasPrefix(k, IndexPrefix(t))
  {
    var schema := catalog.tables[t];
    TableReadable(catalog, m, t);
    hide WellIndexed, ScanRows, BuildKeys, Built, StoredRow, LiveRow, Listing, Readable, TablePrefix, IndexPrefix;
    hide HasPrefix, ReadableKey, HasColumn, Live;
    ScanExact(Listing(m), TablePrefix(t));
    var rows := ScanRows(Listing(m), TablePrefix(t)).value;
    forall p: KeyedRow | LiveRow(Live(m), TablePrefix(t), p)
      ensures StoredRow(schema, p)
    {
      LiveRowIsStored(catalog, m, t, p);
    }
    StoredAreBuilt(schema, column, rows);
    BuildKeysExact(schema, column, rows);
  }

  lemma {:induction false} BuiltHidden(catalog: Catalog, m: map<string, Value>, t: string, column: string)
    requires WellIndexed(catalog, m) && t in catalog.tables && HasColumn(catalog.tables[t], column)
    ensures var schema, rows := catalog.tables[t], ScanRows(Listing(m), TablePrefix(t));
            && schema.name == t && rows.Some?
            && forall k :: RowKey(catalog, k) ==> Shown(m + AllAs(BuildKeys(schema, column, Built(schema, column, rows.value)), Data("")), k) == Shown(m, k)
  {
    TableReadable(catalog, m, t);
    CatalogIsGood(catalog, m);
    hide WellIndexed, GoodCatalog, ScanRows, BuildKeys, Built, Listing, Readable, TablePrefix, IndexPrefix;
    hide HasPrefix, RowKey, Shown, HasColumn, Live, AllAs;
    BuiltAreEntries(catalog, m, t, column);
    EntriesHidden(catalog, m, t, BuildKeys(catalog.tables[t], column, Built(catalog.tables[t], column, ScanRows(Listing(m), TablePrefix(t)).value)));
  }

  lemma {:induction false} CreateIndexAnswered(s: Sql, name: string, table: string, column: string)
    requires Invariant(s)
    ensures SameRows(s, ExecCreateIndex(s, name, table, column))
  {
    if table in s.catalog.tables && FindNamed(s.catalog.tables[table].columns, column).Some? && name !in s.catalog.indexes {
      var text := IndexText(IndexSchema(name, table, column));
      NamedIsColumn(s.catalog.tables[table], column);
      hide GoodCatalog, ScanRows, BuildKeys, Built, Listing, IndexText, TablePrefix, HasPrefix, RowsOf, Shown;
      hide RowKey, FindNamed, WellIndexed, HasColumn, AllAs, Live;
      CatalogIsGood(s.catalog, s.m);
      CatalogRecordKeeps(s.catalog, s.m, INDEX_META, name, text);
      CatalogRecordHidden(s.catalog, s.m, INDEX_META, name, text);
      BuiltHidden(s.catalog, s.m[TablePrefix(INDEX_META) + name := Data(text)], table, column);
      NoRowsTouched(s.catalog, s.m, ExecCreateIndex(s, name, table, column).m);
    }
  }

  /** From a well indexed state every clean statement that is answered does what it means, and to no other row. */
  lemma {:induction false} StatementAnswered(s: Sql, st: Statement)
    requires Invariant(s) && CleanStatement(s, st) && AnsweredStatement(s, st)
    ensures StatementMeans(s, st, Exec(s, st))
  {
    match st
    case CreateTable(schema) =>
      CreateTableAnswered(s, schema);
    case CreateIndex(name, table, column) =>
      CreateIndexAnswered(s, name, table, column);
    case InsertInto(table, columns, values) =>
      InsertIsDone(s, table, columns, values);
    case UpdateSet(table, assignments, condition) =>
      UpdateIsDone(s, table, assignments, condition);
    case DeleteFrom(table, condition) =>
      DeleteIsDone(s, table, condition);
  }

  lemma {:induction false} InsertIsDone(s: Sql, table: string, columns: seq<string>, values: seq<Expr>)
    requires Invariant(s) && CleanStatement(s, InsertInto(table, columns, values))
    ensures InsertDone(s, table, columns, values, ExecInsert(s, table, columns, values), InsertGoes(s, table, columns, values))
  {
    hide WellIndexed, CleanStatement, InsertMeans, OthersStay, RowsOf, RowToInsert, RowWrite;
    if table in s.catalog.tables {
      InsertAnswered(s, table, columns, values);
    }
  }

  lemma {:induction false} UpdateIsDone(s: Sql, table: string, assignments: seq<Assignment>, condition: Option<Expr>)
    requires Invariant(s) && CleanStatement(s, UpdateSet(table, assignments, condition))
    requires AnsweredStatement(s, UpdateSet(table, assignments, condition))
    ensures UpdateDone(s, table, assignments, condition, ExecUpdate(s, table, assignments, condition), UpdateGoes(s, table, assignments, condition))
  {
    hide WellIndexed, UpdateMeans, OthersStay, TextsStay, RowsOf, UpdateTargets, UpdateAll, Reachable, Scanned;
    hide CleanLiteral, Listing;
    if table in s.catalog.tables && condition.Some? {
      UpdateAnswered(s, table, assignments, condition.value);
    }
  }

  lemma {:induction false} DeleteIsDone(s: Sql, table: string, condition: Option<Expr>)
    requires Invariant(s) && AnsweredStatement(s, DeleteFrom(table, condition))
    ensures DeleteDone(s, table, condition, ExecDelete(s, table, condition), DeleteGoes(s, table, condition))
  {
    hide WellIndexed, DeleteMeans, OthersStay, TextsStay, RowsOf, DeleteTargets, DeleteAll, Answered, Listing;
    if table in s.catalog.tables && condition.Some? {
      DeleteAnswered(s, table, condition.value);
    }
  }

  /** What happens to the store means what the statement means, and nothing when the engine is at work by itself. */
  ghost predicate EventMeans(s: Sql, ev: SqlEvent, s': Sql) {
    match ev
    case Do(st) => StatementMeans(s, st, s')
    case Settle(_) => s'.catalog == s.catalog && SameRows(s, s')
  }

  /** In every run of clean statements from an empty database, with the engine at work anywhere between them, every
      statement that is answered does what it means. */
  lemma {:induction false} RunAnswered(evs: seq<SqlEvent>, i: nat)
    requires CleanRun(EmptySql(), evs) && i < |evs|
    requires evs[i].Do? ==> AnsweredStatement(HappenAll(EmptySql(), evs[..i]), evs[i].statement)
    ensures EventMeans(HappenAll(EmptySql(), evs[..i]), evs[i], HappenAll(EmptySql(), evs[..i + 1]))
  {
    hide Invariant, CleanEvent, Exec, EverKnown, EmptySql, StatementMeans, AnsweredStatement, RowsOf, CleanStatement;
    EmptyIsIndexed();
    forall j | 0 <= j < i
      ensures CleanEvent(HappenAll(EmptySql(), evs[..i][..j]), Ever(EmptySql(), evs[..i][..j]), evs[..i][j])
    {
      assert evs[..i][..j] == evs[..j];
    }
    RunKeeps(EmptySql(), evs[..i]);
    var s := HappenAll(EmptySql(), evs[..i]);
    assert evs[..i + 1][..i] == evs[..i];
    assert CleanEvent(s, Ever(EmptySql(), evs[..i]), evs[i]);
    EventAnswered(s, Ever(EmptySql(), evs[..i]), evs[i]);
  }

  lemma {:induction false} EventAnswered(s: Sql, ever: set<string>, ev: SqlEvent)
    requires Invariant(s) && CleanEvent(s, ever, ev) && (ev.Do? ==> AnsweredStatement(s, ev.statement))
    ensures EventMeans(s, ev, Happen(s, ev))
  {
    hide Invariant, Exec, StatementMeans, AnsweredStatement, RowsOf, CleanStatement;
    if ev.Do? {
      StatementAnswered(s, ev.statement);
    }
  }

  /** And every query that is answered finds exactly the rows its condition holds for. */
  lemma {:induction false} RunThenQuery(evs: seq<SqlEvent>, t: string, e: Expr)
    requires CleanRun(EmptySql(), evs)
    requires var s := HappenAll(EmptySql(), evs); t in s.catalog.tables && Answered(s.catalog, s.catalog.tables[t], e)
    ensures var s := HappenAll(EmptySql(), evs);
            Selects(RowsOf(Live(s.m), t), e, FetchMatching(s.catalog, Listing(s.m), s.catalog.tables[t], e))
  {
    hide CleanRun, HappenAll, WellIndexed, FetchMatching, Answered, EmptySql, RowsOf, Selects;
    EmptyIsIndexed();
    RunKeeps(EmptySql(), evs);
    var s := HappenAll(EmptySql(), evs);
    QueryAnswered(s.catalog, Listing(s.m), t, e);
  }
}
