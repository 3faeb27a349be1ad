/** The executor: statements change the catalog and the stored records in place. */
module Executors {
  import opened Seqs
  import opened SortedMap
  import opened Records
  import opened Ast
  import opened Rows
  import opened IndexKeys
  import opened SqlState
  import opened IndexedTables
  import opened SqlSteps
  import opened StatementEffects
  import opened CatalogTexts
  import opened StatementMeanings
  import opened QueryAnswers
  import opened RunAnswers

  class Executor {
    var tables: map<string, TableSchema>
    var indexes: map<string, IndexSchema>
    /** The records of the engine in key order, as its full iterator yields them. */
    var store: seq<Record>

    function CatalogNow(): Catalog
      reads this
    {
      Catalog(tables, indexes)
    }

    function State(): Sql
      reads this
    {
      Sql(CatalogNow(), Contents(store))
    }

    constructor ()
      ensures Sorted(store) && State() == Sql(Catalog(map[], map[]), map[])
    {
      tables, indexes, store := map[], map[], [];
    }

    method Put(key: string, text: string)
      requires Sorted(store)
      modifies this`store
      ensures Sorted(store) && Contents(store) == old(Contents(store))[key := Data(text)]
    {
      InsertUpdates(store, key, Data(text));
      store := SortedMap.Insert(store, key, Data(text));
    }

    method Remove(key: string)
      requires Sorted(store)
      modifies this`store
      ensures Sorted(store) && Contents(store) == old(Contents(store))[key := Tombstone]
    {
      InsertUpdates(store, key, Tombstone);
      store := SortedMap.Insert(store, key, Tombstone);
    }

    method ScanTable(table: string) returns (rows: Option<seq<KeyedRow>>)
      ensures rows == ScanRows(store, TablePrefix(table))
    {
      var prefix := TablePrefix(table);
      var found: seq<KeyedRow> := [];
      for i := 0 to |store|
        invariant ScanRows(store[..i], prefix) == Some(found)
      {
        TakeNext(store, i);
        InitOfSnoc(store[..i], store[i]);
        if HasPrefix(store[i].key, prefix) && store[i].value.Data? {
          var row := ReadRow(store[i].value.text);
          if row.None? {
            ScanFails(store, prefix, i);
            return None;
          }
          found := found + [(store[i].key, row.value)];
        }
      }
      TakeAll(store);
      return Some(found);
    }

    method LookupKeys(lookup: IndexLookup, table: string) returns (keys: seq<string>)
      requires Indexable(lookup.operator)
      ensures keys == LookupIndex(store, BuildIndexRange(table, lookup))
    {
      var range := BuildIndexRange(table, lookup);
      keys := [];
      for i := 0 to |store|
        invariant keys == LookupIndex(store[..i], range)
      {
        TakeNext(store, i);
        InitOfSnoc(store[..i], store[i]);
        if Between(range, store[i].key) {
          keys := keys + [LastPiece(store[i].key, ':')];
        }
      }
      TakeAll(store);
    }

    method FetchByKeys(table: string, t: DataType, pks: seq<string>) returns (rows: Option<seq<KeyedRow>>)
      ensures rows == FetchRows(store, table, t, pks)
    {
      hide ReadKey, StorageKey, Find, Deserialize, Contents, Sorted;
      var found: seq<KeyedRow> := [];
      for i := 0 to |pks|
        invariant FetchRows(store, table, t, pks[..i]) == Some(found)
      {
        TakeNext(pks, i);
        InitOfSnoc(pks[..i], pks[i]);
        var pk := ReadKey(t, pks[i]);
        if pk.None? {
          FetchFails(store, table, t, pks, i);
          return None;
        }
        var key := StorageKey(table, pk.value);
        var value := Find<Value>(store, key);
        if value.Some? && value.value.Data? {
          var row := ReadRow(value.value.text);
          if row.None? {
            FetchFails(store, table, t, pks, i);
            return None;
          }
          found := found + [(key, row.value)];
        }
      }
      TakeAll(pks);
      return Some(found);
    }

    /** The rows that satisfy the condition: through an index when one is usable, else by scanning. */
    method FetchMatchingRows(schema: TableSchema, e: Expr) returns (rows: Option<seq<KeyedRow>>)
      ensures rows == FetchMatching(CatalogNow(), store, schema, e)
      ensures Sorted(store) && Invariant(State()) && schema.name in tables && tables[schema.name] == schema && Answered(CatalogNow(), schema, e) ==>
                Selects(RowsOf(Live(Contents(store)), schema.name), e, rows)
    {
      rows := FindRows(schema, e);
      if Sorted(store) && Invariant(State()) && schema.name in tables && tables[schema.name] == schema && Answered(CatalogNow(), schema, e) {
        QueryAnswered(CatalogNow(), store, schema.name, e);
      }
    }

    method FindRows(schema: TableSchema, e: Expr) returns (rows: Option<seq<KeyedRow>>)
      ensures rows == FetchMatching(CatalogNow(), store, schema, e)
    {
      UsableIsIndexable(CatalogNow(), schema.name, e);
      var lookup := FindUsableIndex(CatalogNow(), schema.name, e);
      var candidates: Option<seq<KeyedRow>>;
      if lookup.Some? {
        var pk := PrimaryKey(schema);
        if pk.None? {
          return None;
        }
        var keys := LookupKeys(lookup.value, schema.name);
        candidates := FetchByKeys(schema.name, pk.value.dataType, keys);
      } else {
        candidates := ScanTable(schema.name);
      }
      if candidates.None? {
        return None;
      }
      rows := FilterRows(candidates.value, e);
    }

    method FilterRows(rows: seq<KeyedRow>, e: Expr) returns (kept: Option<seq<KeyedRow>>)
      ensures kept == Filter(rows, e)
    {
      var found: seq<KeyedRow> := [];
      for i := 0 to |rows|
        invariant Filter(rows[..i], e) == Some(found)
      {
        TakeNext(rows, i);
        InitOfSnoc(rows[..i], rows[i]);
        var holds := Evaluate(rows[i].1, e);
        if holds.None? {
          FilterFails(rows, e, i);
          return None;
        }
        if holds.value {
          found := found + [rows[i]];
        }
      }
      TakeAll(rows);
      return Some(found);
    }

    /** Puts the row's entry of every index of its table; a missing column ends it, in whatever order they come. */
    method InsertIndexEntries(schema: TableSchema, row: Row) returns (ok: bool)
      requires Sorted(store)
      modifies this`store
      ensures Sorted(store)
      ensures EntriesWritten(CatalogNow(), schema, row, old(Contents(store)), Data(""), Contents(store))
      ensures ok <==> HasIndexed(CatalogNow(), schema, row)
    {
      hide IndexKey;
      var pk := PkOf(schema, row);
      if pk.None? {
        return false;
      }
      var todo := IndexedColumns(CatalogNow(), schema.name);
      ghost var all, was := todo, Contents(store);
      ghost var done: set<string> := {};
      NoEntriesYet(schema, row, was);
      while todo != {}
        invariant Sorted(store) && todo + done == all && HasColumns(row, done)
        invariant Contents(store) == was + AllAs(EntriesFor(schema, done, row), Data(""))
        decreases |todo|
      {
        var c :| c in todo;
        var value := Find(row, c);
        if value.None? {
          return false;
        }
        EntryAdded(schema, done, c, row, was, Data(""));
        Put(IndexKey(schema.name, c, value.value, pk.value), "");
        todo, done := todo - {c}, done + {c};
      }
      assert done == all;
      return true;
    }

    /** Deletes the row's entry of every index of its table. */
    method DeleteIndexEntries(schema: TableSchema, row: Row) returns (ok: bool)
      requires Sorted(store)
      modifies this`store
      ensures Sorted(store)
      ensures EntriesWritten(CatalogNow(), schema, row, old(Contents(store)), Tombstone, Contents(store))
      ensures ok <==> HasIndexed(CatalogNow(), schema, row)
    {
      hide IndexKey;
      var pk := PkOf(schema, row);
      if pk.None? {
        return false;
      }
      var todo := IndexedColumns(CatalogNow(), schema.name);
      ghost var all, was := todo, Contents(store);
      ghost var done: set<string> := {};
      NoEntriesYet(schema, row, was);
      while todo != {}
        invariant Sorted(store) && todo + done == all && HasColumns(row, done)
        invariant Contents(store) == was + AllAs(EntriesFor(schema, done, row), Tombstone)
        decreases |todo|
      {
        var c :| c in todo;
        var value := Find(row, c);
        if value.None? {
          return false;
        }
        EntryAdded(schema, done, c, row, was, Tombstone);
        Remove(IndexKey(schema.name, c, value.value, pk.value));
        todo, done := todo - {c}, done + {c};
      }
      assert done == all;
      return true;
    }

    method ExecuteCreateTable(schema: TableSchema) returns (ok: bool)
      requires Sorted(store)
      modifies this
      ensures Sorted(store) && State() == ExecCreateTable(old(State()), schema)
      ensures ok <==> CountPrimary(schema.columns) == 1 && schema.name !in old(tables)
      ensures ok <==> OneKey(schema.columns) && schema.name !in old(tables)
      ensures old(Invariant(State())) && GoodName(schema.name) ==> CreateTableDone(old(State()), schema, State())
    {
      hide Invariant, GoodName, CreateTableDone, OneKey, SchemaText;
      OneCounted(schema.columns);
      ghost var before := State();
      if Invariant(before) && GoodName(schema.name) {
        CreateTableAnswered(before, schema);
      }
      if CountPrimary(schema.columns) != 1 || schema.name in tables {
        return false;
      }
      tables := tables[schema.name := schema];
      Put(TablePrefix(SCHEMA) + schema.name, SchemaText(schema));
      return true;
    }

    method ExecuteCreateIndex(name: string, table: string, column: string) returns (ok: bool)
      requires Sorted(store)
      modifies this
      ensures Sorted(store) && State() == ExecCreateIndex(old(State()), name, table, column)
      ensures ok <==> IndexBuilds(old(State()), name, table, column)
      ensures old(Invariant(State())) ==> SameRows(old(State()), State())
    {
      ghost var before := State();
      ok := RegisterAndBuild(name, table, column);
      hide Invariant, SameRows, ExecCreateIndex, IndexBuilds;
      if Invariant(before) {
        CreateIndexAnswered(before, name, table, column);
      }
    }

    method RegisterAndBuild(name: string, table: string, column: string) returns (ok: bool)
      requires Sorted(store)
      modifies this
      ensures Sorted(store) && State() == ExecCreateIndex(old(State()), name, table, column)
      ensures ok <==> IndexBuilds(old(State()), name, table, column)
    {
      hide IndexText, ScanRows, EntriesFor, TablePrefix, Listing;
      if table !in tables || FindNamed(tables[table].columns, column).None? || name in indexes {
        return false;
      }
      var schema, ix := tables[table], IndexSchema(name, table, column);
      indexes := indexes[name := ix];
      Put(TablePrefix(INDEX_META) + name, IndexText(ix));
      ListingOf(store);
      var rows := ScanTable(schema.name);
      if rows.None? {
        return false;
      }
      ok := BuildIndex(schema, column, rows.value);
    }

    /** Puts an entry for every row of the scan, up to the first that lacks the column or its primary key. */
    method BuildIndex(schema: TableSchema, column: string, rows: seq<KeyedRow>) returns (ok: bool)
      requires Sorted(store)
      modifies this`store
      ensures Sorted(store)
      ensures Contents(store) == old(Contents(store)) + AllAs(BuildKeys(schema, column, Built(schema, column, rows)), Data(""))
      ensures ok <==> Built(schema, column, rows) == rows
    {
      hide IndexKey, Built;
      ghost var was := Contents(store);
      NoKeysYet(schema, column, was);
      for i := 0 to |rows|
        invariant Sorted(store) && AllHaveBoth(schema, column, rows[..i])
        invariant Contents(store) == was + AllAs(BuildKeys(schema, column, rows[..i]), Data(""))
      {
        var value, pk := Find(rows[i].1, column), PkOf(schema, rows[i].1);
        if value.None? || pk.None? {
          BuiltStops(schema, column, rows, i);
          return false;
        }
        TakeNext(rows, i);
        InitOfSnoc(rows[..i], rows[i]);
        KeyBuilt(schema, column, rows[..i + 1], was);
        Put(IndexKey(schema.name, column, value.value, pk.value), "");
      }
      TakeAll(rows);
      AllBuilt(schema, column, rows);
      return true;
    }

    /** The record, then its index entries; from a well indexed state it is the statement's function. */
    method ExecuteInsert(table: string, columns: seq<string>, values: seq<Expr>) returns (ok: bool)
      requires Sorted(store)
      modifies this`store
      ensures Sorted(store) && Inserts(old(State()), table, columns, values, Contents(store), ok)
      ensures old(Invariant(State())) ==>
                State() == ExecInsert(old(State()), table, columns, values) && (ok <==> InsertGoes(old(State()), table, columns, values))
      ensures old(Invariant(State())) && CleanStatement(old(State()), InsertInto(table, columns, values)) ==>
                InsertDone(old(State()), table, columns, values, State(), ok)
    {
      hide Invariant, HasIndexed, EntriesWritten, Serialize, FromPairs, PkOf, InsertGoes, InsertDone, CleanStatement, ExecInsert, Inserts;
      ghost var before := State();
      ok := InsertRow(table, columns, values);
      if Invariant(before) {
        InsertsIsExec(before, table, columns, values, Contents(store), ok);
        if CleanStatement(before, InsertInto(table, columns, values)) {
          InsertIsDone(before, table, columns, values);
        }
      }
    }

    method InsertRow(table: string, columns: seq<string>, values: seq<Expr>) returns (ok: bool)
      requires Sorted(store)
      modifies this`store
      ensures Sorted(store) && Inserts(old(State()), table, columns, values, Contents(store), ok)
    {
      hide HasIndexed, EntriesWritten, Serialize, FromPairs, PkOf;
      if table !in tables {
        return false;
      }
      var schema := tables[table];
      var names := if columns == [] then ColumnNames(schema) else columns;
      var literals := Literals(values);
      if literals.None? {
        return false;
      }
      var row := FromColumns(names, literals.value);
      if row.None? || !RowTypesOk(schema, row.value) || PkOf(schema, row.value).None? {
        return false;
      }
      Put(StorageKey(schema.name, PkOf(schema, row.value).value), Serialize(row.value));
      ok := InsertIndexEntries(schema, row.value);
    }

    /** Rewrites one row: its old entries out, the row, its new entries in. */
    method UpdateRow(schema: TableSchema, p: KeyedRow, assignments: seq<Assignment>) returns (ok: bool)
      requires Sorted(store)
      modifies this`store
      ensures Sorted(store)
      ensures RowChanged(CatalogNow(), schema, old(Contents(store)), p, Rewrite(assignments), Contents(store))
      ensures ok <==> Succeeds(CatalogNow(), schema, p, Rewrite(assignments))
    {
      hide Serialize, HasIndexed, EntriesWritten, Assigned, Contents, Sorted;
      var row := Assign(schema, p.1, assignments);
      if row.None? {
        return false;
      }
      ok := DeleteIndexEntries(schema, p.1);
      if !ok {
        return;
      }
      ghost var mid := Contents(store);
      Put(p.0, Serialize(row.value));
      ok := InsertIndexEntries(schema, row.value);
      assert EntriesWritten(CatalogNow(), schema, p.1, old(Contents(store)), Tombstone, mid);
    }

    /** Erases one row: its entries out, then the row. */
    method EraseRow(schema: TableSchema, p: KeyedRow) returns (ok: bool)
      requires Sorted(store)
      modifies this`store
      ensures Sorted(store)
      ensures RowChanged(CatalogNow(), schema, old(Contents(store)), p, Erase, Contents(store))
      ensures ok <==> Succeeds(CatalogNow(), schema, p, Erase)
    {
      hide HasIndexed, EntriesWritten, Contents, Sorted;
      ok := DeleteIndexEntries(schema, p.1);
      if !ok {
        return;
      }
      ghost var mid := Contents(store);
      Remove(p.0);
      assert EntriesWritten(CatalogNow(), schema, p.1, old(Contents(store)), Tombstone, mid);
    }

    method Assign(schema: TableSchema, row: Row, assignments: seq<Assignment>) returns (r: Option<Row>)
      ensures r == Assigned(schema, row, assignments)
    {
      var current := row;
      for i := 0 to |assignments|
        invariant Assigned(schema, row, assignments[..i]) == Some(current)
      {
        TakeNext(assignments, i);
        InitOfSnoc(assignments[..i], assignments[i]);
        var a := assignments[i];
        var pk, v, c := PrimaryKey(schema), Literal(a.value), FindNamed(schema.columns, a.column);
        var next := if pk.None? || v.None? || a.column == pk.value.name || (c.Some? && !HasType(v.value, c.value.dataType)) then None
                    else Update(current, a.column, v.value);
        if next.None? {
          AssignFails(schema, row, assignments, i);
          return None;
        }
        current := next.value;
      }
      TakeAll(assignments);
      return Some(current);
    }

    /** Row by row, as far as it gets; from a well indexed state it is the statement's function. */
    method ExecuteUpdate(table: string, assignments: seq<Assignment>, condition: Option<Expr>) returns (ok: bool)
      requires Sorted(store)
      modifies this`store
      ensures Sorted(store) && Updates(old(State()), table, assignments, condition, Contents(store), ok)
      ensures old(Invariant(State())) && CleanStatement(old(State()), UpdateSet(table, assignments, condition)) ==>
                State() == ExecUpdate(old(State()), table, assignments, condition)
                && (ok <==> UpdateGoes(old(State()), table, assignments, condition))
                && (AnsweredStatement(old(State()), UpdateSet(table, assignments, condition)) ==>
                      UpdateDone(old(State()), table, assignments, condition, State(), ok))
    {
      hide UpdateGoes, UpdateDone, AnsweredStatement, Invariant, Changes, UpdateTargets, CleanLiteral, ExecUpdate, Updates, Contents, Sorted;
      ghost var before := State();
      ok := UpdateMatching(table, assignments, condition);
      if Invariant(before) && CleanStatement(before, UpdateSet(table, assignments, condition)) {
        UpdatesIsExec(before, table, assignments, condition, Contents(store), ok);
        if AnsweredStatement(before, UpdateSet(table, assignments, condition)) {
          UpdateIsDone(before, table, assignments, condition);
        }
      }
    }

    method UpdateMatching(table: string, assignments: seq<Assignment>, condition: Option<Expr>) returns (ok: bool)
      requires Sorted(store)
      modifies this`store
      ensures Sorted(store) && Updates(old(State()), table, assignments, condition, Contents(store), ok)
    {
      hide RowsChanged, RowChanged, Succeeds, AllSucceed, Attempted, UpdateTargets, Listing, Contents, Sorted;
      if table !in tables || condition.None? {
        return false;
      }
      var schema := tables[table];
      ListingOf(store);
      var targets := FindTargets(schema, condition.value);
      if targets.None? {
        return false;
      }
      ok := UpdateRows(schema, targets.value, assignments);
    }

    method UpdateRows(schema: TableSchema, rows: seq<KeyedRow>, assignments: seq<Assignment>) returns (ok: bool)
      requires Sorted(store)
      modifies this`store
      ensures Sorted(store) && Changes(CatalogNow(), schema, old(Contents(store)), rows, Rewrite(assignments), Contents(store), ok)
    {
      hide RowChanged, Succeeds, Attempted, Contents, Sorted;
      ghost var was, change := Contents(store), Rewrite(assignments);
      for i := 0 to |rows|
        invariant Sorted(store) && AllSucceed(CatalogNow(), schema, rows[..i], change)
        invariant RowsChanged(CatalogNow(), schema, was, rows[..i], change, Contents(store))
      {
        ghost var mid := Contents(store);
        ok := UpdateRow(schema, rows[i], assignments);
        OneMoreChanged(CatalogNow(), schema, was, rows, i, change, mid, Contents(store));
        if !ok {
          AttemptedStops(CatalogNow(), schema, rows, change, i);
          return;
        }
      }
      TakeAll(rows);
      AttemptedAll(CatalogNow(), schema, rows, change);
      return true;
    }

    method FindTargets(schema: TableSchema, e: Expr) returns (targets: Option<seq<KeyedRow>>)
      ensures targets == UpdateTargets(CatalogNow(), store, schema, e)
    {
      hide FetchMatching;
      if IsKeyLookup(schema, e) {
        targets := KeyTarget(schema, e);
      } else {
        targets := FetchMatchingRows(schema, e);
      }
    }

    method KeyTarget(schema: TableSchema, e: Expr) returns (targets: Option<seq<KeyedRow>>)
      requires IsKeyLookup(schema, e)
      ensures targets == UpdateTargets(CatalogNow(), store, schema, e)
    {
      var key := StorageKey(schema.name, Literal(e.right).value);
      var value := Find<Value>(store, key);
      if value.None? || value.value.Tombstone? {
        return Some([]);
      }
      var row := ReadRow(value.value.text);
      targets := if row.None? then None else Some([(key, row.value)]);
    }

    /** Row by row, as far as it gets; from a well indexed state it is the statement's function. */
    method ExecuteDelete(table: string, condition: Option<Expr>) returns (ok: bool)
      requires Sorted(store)
      modifies this`store
      ensures Sorted(store) && Deletes(old(State()), table, condition, Contents(store), ok)
      ensures old(Invariant(State())) ==>
                State() == ExecDelete(old(State()), table, condition) && (ok <==> DeleteGoes(old(State()), table, condition))
                && (AnsweredStatement(old(State()), DeleteFrom(table, condition)) ==> DeleteDone(old(State()), table, condition, State(), ok))
    {
      hide DeleteGoes, DeleteDone, AnsweredStatement, Invariant, Changes, DeleteTargets, ExecDelete, Deletes, Contents, Sorted;
      ghost var before := State();
      ok := DeleteMatching(table, condition);
      if Invariant(before) {
        DeletesIsExec(before, table, condition, Contents(store), ok);
        if AnsweredStatement(before, DeleteFrom(table, condition)) {
          DeleteIsDone(before, table, condition);
        }
      }
    }

    method DeleteMatching(table: string, condition: Option<Expr>) returns (ok: bool)
      requires Sorted(store)
      modifies this`store
      ensures Sorted(store) && Deletes(old(State()), table, condition, Contents(store), ok)
    {
      hide RowsChanged, RowChanged, Succeeds, AllSucceed, Attempted, FetchMatching, IsKeyLookup, Listing, Contents, Sorted;
      if table !in tables || condition.None? {
        return false;
      }
      var schema := tables[table];
      ListingOf(store);
      var found := FetchMatchingRows(schema, condition.value);
      if found.None? {
        return false;
      }
      var rows := if IsKeyLookup(schema, condition.value) && found.value != [] then found.value[..1] else found.value;
      ok := EraseRows(schema, rows);
    }

    method EraseRows(schema: TableSchema, rows: seq<KeyedRow>) returns (ok: bool)
      requires Sorted(store)
      modifies this`store
      ensures Sorted(store) && Changes(CatalogNow(), schema, old(Contents(store)), rows, Erase, Contents(store), ok)
    {
      hide RowChanged, Succeeds, Attempted, Contents, Sorted;
      ghost var was := Contents(store);
      for i := 0 to |rows|
        invariant Sorted(store) && AllSucceed(CatalogNow(), schema, rows[..i], Erase)
        invariant RowsChanged(CatalogNow(), schema, was, rows[..i], Erase, Contents(store))
      {
        ghost var mid := Contents(store);
        ok := EraseRow(schema, rows[i]);
        OneMoreChanged(CatalogNow(), schema, was, rows, i, Erase, mid, Contents(store));
        if !ok {
          AttemptedStops(CatalogNow(), schema, rows, Erase, i);
          return;
        }
      }
      TakeAll(rows);
      AttemptedAll(CatalogNow(), schema, rows, Erase);
      return true;
    }
  }

  lemma {:induction false} ScanFails(store: seq<Record>, prefix: string, i: nat)
    requires i < |store| && ScanRows(store[..i + 1], prefix) == None
    ensures ScanRows(store, prefix) == None
  {
    if i + 1 < |store| {
      assert store[..|store| - 1][..i + 1] == store[..i + 1];
      ScanFails(store[..|store| - 1], prefix, i);
    } else {
      assert store[..i + 1] == store;
    }
  }

  lemma {:induction false} FetchFails(store: seq<Record>, table: string, t: DataType, pks: seq<string>, i: nat)
    requires i < |pks| && FetchRows(store, table, t, pks[..i + 1]) == None
    ensures FetchRows(store, table, t, pks) == None
  {
    if i + 1 < |pks| {
      assert pks[..|pks| - 1][..i + 1] == pks[..i + 1];
      FetchFails(store, table, t, pks[..|pks| - 1], i);
    } else {
      assert pks[..i + 1] == pks;
    }
  }

  lemma {:induction false} FilterFails(rows: seq<KeyedRow>, e: Expr, i: nat)
    requires i < |rows| && Filter(rows[..i + 1], e) == None
    ensures Filter(rows, e) == None
  {
    if i + 1 < |rows| {
      assert rows[..|rows| - 1][..i + 1] == rows[..i + 1];
      FilterFails(rows[..|rows| - 1], e, i);
    } else {
      assert rows[..i + 1] == rows;
    }
  }

  lemma {:induction false} AssignFails(schema: TableSchema, row: Row, assignments: seq<Assignment>, i: nat)
    requires i < |assignments| && Assigned(schema, row, assignments[..i + 1]) == None
    ensures Assigned(schema, row, assignments) == None
  {
    if i + 1 < |assignments| {
      assert assignments[..|assignments| - 1][..i + 1] == assignments[..i + 1];
      AssignFails(schema, row, assignments[..|assignments| - 1], i);
    } else {
      assert assignments[..i + 1] == assignments;
    }
  }

  lemma {:induction false} NoEntriesYet(schema: TableSchema, row: Row, m: map<string, Value>)
    ensures forall v: Value :: m + AllAs(EntriesFor(schema, {}, row), v) == m
  {
  }

  lemma {:induction false} EntryAdded(schema: TableSchema, done: set<string>, c: string, row: Row, m: map<string, Value>, v: Value)
    requires Find(row, c).Some? && PkOf(schema, row).Some?
    ensures var k := IndexKey(schema.name, c, Find(row, c).value, PkOf(schema, row).value);
            (m + AllAs(EntriesFor(schema, done, row), v))[k := v] == m + AllAs(EntriesFor(schema, done + {c}, row), v)
  {
    hide IndexKey, Find;
    var k := IndexKey(schema.name, c, Find(row, c).value, PkOf(schema, row).value);
    assert EntriesFor(schema, done + {c}, row) == EntriesFor(schema, done, row) + {k};
  }

  lemma {:induction false} NoKeysYet(schema: TableSchema, column: string, m: map<string, Value>)
    ensures m + AllAs(BuildKeys(schema, column, []), Data("")) == m
  {
  }

  lemma {:induction false} KeyBuilt(schema: TableSchema, column: string, rows: seq<KeyedRow>, m: map<string, Value>)
    requires rows != [] && Find(rows[|rows| - 1].1, column).Some? && PkOf(schema, rows[|rows| - 1].1).Some?
    ensures var row := rows[|rows| - 1].1;
            var k := IndexKey(schema.name, column, Find(row, column).value, PkOf(schema, row).value);
            (m + AllAs(BuildKeys(schema, column, rows[..|rows| - 1]), Data("")))[k := Data("")] == m + AllAs(BuildKeys(schema, column, rows), Data(""))
  {
    hide IndexKey, Find;
    var row := rows[|rows| - 1].1;
    var k := IndexKey(schema.name, column, Find(row, column).value, PkOf(schema, row).value);
    assert EntriesFor(schema, {column}, row) == {k};
  }
}
