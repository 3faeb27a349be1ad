/** What the writing statements do from any state, well indexed or not, and that from a well indexed one it is what
    the statements' functions say. */
module StatementEffects {
  import opened Seqs
  import opened SortedMap
  import opened Records
  import opened Ast
  import opened Rows
  import opened IndexKeys
  import opened SqlState
  import opened IndexedTables
  import opened IndexAgreement
  import opened SqlSteps

  predicate HasColumns(row: Row, columns: set<string>) {
    forall c :: c in columns ==> Find(row, c).Some?
  }

  /** The row has its primary key and a value for every index of its table. */
  predicate HasIndexed(catalog: Catalog, schema: TableSchema, row: Row) {
    PkOf(schema, row).Some? && HasColumns(row, IndexedColumns(catalog, schema.name))
  }

  /** The row's index entries are written with `v`: all of them, or, when a column is missing, the ones visited
      before it. */
  ghost predicate EntriesWritten(catalog: Catalog, schema: TableSchema, row: Row, m: map<string, Value>, v: Value, m': map<string, Value>) {
    if PkOf(schema, row).None? then m' == m
    else
      exists done: set<string> ::
        && done <= IndexedColumns(catalog, schema.name) && HasColumns(row, done)
        && (HasIndexed(catalog, schema, row) ==> done == IndexedColumns(catalog, schema.name))
        && m' == m + AllAs(EntriesFor(schema, done, row), v)
  }

  lemma {:induction false} AllWritten(catalog: Catalog, schema: TableSchema, row: Row, m: map<string, Value>, v: Value, m': map<string, Value>)
    requires HasIndexed(catalog, schema, row) && EntriesWritten(catalog, schema, row, m, v, m')
    ensures m' == m + AllAs(RowEntries(catalog, schema, row), v)
  {
  }

  /** What a statement makes of a row: it is rewritten with assignments, or erased. */
  datatype Change = Rewrite(assignments: seq<Assignment>) | Erase

  /** The change goes through for this row. */
  predicate Succeeds(catalog: Catalog, schema: TableSchema, p: KeyedRow, change: Change) {
    && HasIndexed(catalog, schema, p.1)
    && (change.Rewrite? ==>
          var r := Assigned(schema, p.1, change.assignments);
          r.Some? && HasIndexed(catalog, schema, r.value))
  }

  /** One row is changed: the old entries out, the record, the new entries in, as far as it gets. */
  ghost predicate RowChanged(catalog: Catalog, schema: TableSchema, m: map<string, Value>, p: KeyedRow, change: Change, m': map<string, Value>) {
    if change.Rewrite? && Assigned(schema, p.1, change.assignments).None? then m' == m
    else
      exists mid: map<string, Value> ::
        && EntriesWritten(catalog, schema, p.1, m, Tombstone, mid)
        && if !HasIndexed(catalog, schema, p.1) then m' == mid
           else if change.Erase? then m' == mid[p.0 := Tombstone]
           else
             var row := Assigned(schema, p.1, change.assignments).value;
             EntriesWritten(catalog, schema, row, mid[p.0 := Data(Serialize(row))], Data(""), m')
  }

  ghost predicate RowsChanged(catalog: Catalog, schema: TableSchema, m: map<string, Value>, rows: seq<KeyedRow>, change: Change, m': map<string, Value>) {
    if rows == [] then m' == m
    else
      var n := |rows| - 1;
      var before, last := rows[..n], rows[n];
      exists mid: map<string, Value> ::
        RowsChanged(catalog, schema, m, before, change, mid) && RowChanged(catalog, schema, mid, last, change, m')
  }

  /** The rows a change gets to: it ends with the first that it does not go through for. */
  function Attempted(catalog: Catalog, schema: TableSchema, rows: seq<KeyedRow>, change: Change): seq<KeyedRow> {
    if rows == [] then []
    else [rows[0]] + if Succeeds(catalog, schema, rows[0], change) then Attempted(catalog, schema, rows[1..], change) else []
  }

  ghost predicate AllSucceed(catalog: Catalog, schema: TableSchema, rows: seq<KeyedRow>, change: Change) {
    forall i :: 0 <= i < |rows| ==> Succeeds(catalog, schema, rows[i], change)
  }

  lemma {:induction false} AttemptedAll(catalog: Catalog, schema: TableSchema, rows: seq<KeyedRow>, change: Change)
    requires AllSucceed(catalog, schema, rows, change)
    ensures Attempted(catalog, schema, rows, change) == rows
  {
    hide Succeeds;
    if rows != [] {
      AttemptedAll(catalog, schema, rows[1..], change);
      HeadTail(rows);
    }
  }

  lemma {:induction false} AttemptedStops(catalog: Catalog, schema: TableSchema, rows: seq<KeyedRow>, change: Change, i: nat)
    requires i < |rows| && AllSucceed(catalog, schema, rows[..i], change) && !Succeeds(catalog, schema, rows[i], change)
    ensures Attempted(catalog, schema, rows, change) == rows[..i + 1]
  {
    hide Succeeds;
    if i > 0 {
      assert rows[..i][0] == rows[0];
      assert rows[1..][..i - 1] == rows[..i][1..];
      AttemptedStops(catalog, schema, rows[1..], change, i - 1);
      PrefixOfCons(rows, i);
    } else {
      assert rows[..1] == [rows[0]] + [];
    }
  }

  /** A statement over these rows: it changes those it gets to, and goes through when it gets through all. */
  ghost predicate Changes(catalog: Catalog, schema: TableSchema, m: map<string, Value>, rows: seq<KeyedRow>, change: Change, m': map<string, Value>, ok: bool) {
    && RowsChanged(catalog, schema, m, Attempted(catalog, schema, rows, change), change, m')
    && (ok <==> AllSucceed(catalog, schema, rows, change))
  }

  /** UPDATE from any state. */
  ghost predicate Updates(s: Sql, table: string, assignments: seq<Assignment>, condition: Option<Expr>, m': map<string, Value>, ok: bool) {
    if table !in s.catalog.tables || condition.None? then m' == s.m && !ok
    else
      var schema := s.catalog.tables[table];
      match UpdateTargets(s.catalog, Listing(s.m), schema, condition.value)
      case None => m' == s.m && !ok
      case Some(rows) => Changes(s.catalog, schema, s.m, rows, Rewrite(assignments), m', ok)
  }

  /** DELETE from any state. */
  ghost predicate Deletes(s: Sql, table: string, condition: Option<Expr>, m': map<string, Value>, ok: bool) {
    if table !in s.catalog.tables || condition.None? then m' == s.m && !ok
    else
      var schema := s.catalog.tables[table];
      match DeleteTargets(s.catalog, Listing(s.m), schema, condition.value)
      case None => m' == s.m && !ok
      case Some(rows) => Changes(s.catalog, schema, s.m, rows, Erase, m', ok)
  }

  /** INSERT from any state: the record, then its entries. */
  ghost predicate Inserts(s: Sql, table: string, columns: seq<string>, values: seq<Expr>, m': map<string, Value>, ok: bool) {
    if table !in s.catalog.tables || RowToInsert(s.catalog.tables[table], columns, values).None? then m' == s.m && !ok
    else
      var schema := s.catalog.tables[table];
      var row := RowToInsert(schema, columns, values).value;
      && EntriesWritten(s.catalog, schema, row, s.m[StorageKey(schema.name, PkOf(schema, row).value) := Data(Serialize(row))], Data(""), m')
      && (ok <==> HasIndexed(s.catalog, schema, row))
  }

  lemma {:induction false} TypedHasIndexed(catalog: Catalog, schema: TableSchema, row: Row)
    requires GoodCatalog(catalog) && schema.name in catalog.tables && catalog.tables[schema.name] == schema
    requires PkOf(schema, row).Some? && RowTypesOk(schema, row)
    ensures HasIndexed(catalog, schema, row)
  {
    hide Find, HasType;
    forall c | c in IndexedColumns(catalog, schema.name)
      ensures Find(row, c).Some?
    {
      IndexedIsColumn(catalog, schema, c);
    }
  }

  lemma {:induction false} InsertedHasIndexed(s: Sql, table: string, row: Row)
    requires Invariant(s) && table in s.catalog.tables
    requires PkOf(s.catalog.tables[table], row).Some? && RowTypesOk(s.catalog.tables[table], row)
    ensures HasIndexed(s.catalog, s.catalog.tables[table], row)
  {
    assert GoodSchema(table, s.catalog.tables[table]);
    CatalogIsGood(s.catalog, s.m);
    hide RowTypesOk, PkOf, HasIndexed;
    TypedHasIndexed(s.catalog, s.catalog.tables[table], row);
  }

  lemma {:induction false} GoodTypesOk(schema: TableSchema, row: Row)
    requires GoodRow(schema, row)
    ensures RowTypesOk(schema, row) && PkOf(schema, row).Some?
  {
    GoodRowKey(schema, row);
    hide CleanRow, GoodKey, Contents, Find;
    forall i | 0 <= i < |schema.columns|
      ensures Find(row, schema.columns[i].name).Some? && HasType(Find(row, schema.columns[i].name).value, schema.columns[i].dataType)
    {
      FindIsLookup(row, schema.columns[i].name);
    }
  }

  /** Stored rows, and what assignments make of them, have all their indexed columns. */
  lemma {:induction false} StoredHasIndexed(s: Sql, table: string, p: KeyedRow, assignments: seq<Assignment>)
    requires Invariant(s) && table in s.catalog.tables && StoredRow(s.catalog.tables[table], p)
    requires forall i :: 0 <= i < |assignments| ==> CleanLiteral(assignments[i].value)
    ensures var schema := s.catalog.tables[table];
            && HasIndexed(s.catalog, schema, p.1)
            && (Assigned(schema, p.1, assignments).Some? ==> HasIndexed(s.catalog, schema, Assigned(schema, p.1, assignments).value))
  {
    var schema := s.catalog.tables[table];
    assert GoodSchema(table, schema);
    CatalogIsGood(s.catalog, s.m);
    hide GoodRow, RowTypesOk, PkOf, HasIndexed, Assigned, CleanLiteral;
    GoodTypesOk(schema, p.1);
    TypedHasIndexed(s.catalog, schema, p.1);
    if Assigned(schema, p.1, assignments).Some? {
      AssignedIsGood(schema, p.1, assignments);
      GoodTypesOk(schema, Assigned(schema, p.1, assignments).value);
      TypedHasIndexed(s.catalog, schema, Assigned(schema, p.1, assignments).value);
    }
  }

  lemma {:induction false} TargetsStored(s: Sql, table: string, e: Expr)
    requires Invariant(s) && table in s.catalog.tables
    ensures var r := UpdateTargets(s.catalog, Listing(s.m), s.catalog.tables[table], e);
            r.Some? ==> forall p :: p in r.value ==> StoredRow(s.catalog.tables[table], p)
  {
    hide WellIndexed, UpdateTargets, LiveRow, StoredRow, Listing;
    TargetsAreLive(s.catalog, s.m, table, e);
    var r := UpdateTargets(s.catalog, Listing(s.m), s.catalog.tables[table], e);
    if r.Some? {
      LiveAreStored(s.catalog, s.m, table, r.value);
    }
  }

  lemma {:induction false} VictimsStored(s: Sql, table: string, e: Expr)
    requires Invariant(s) && table in s.catalog.tables
    ensures var r := DeleteTargets(s.catalog, Listing(s.m), s.catalog.tables[table], e);
            r.Some? ==> forall p :: p in r.value ==> StoredRow(s.catalog.tables[table], p)
  {
    hide WellIndexed, FetchMatching, IsKeyLookup, LiveRow, StoredRow, Listing;
    FetchedAreLive(s.catalog, s.m, table, e);
    var r := DeleteTargets(s.catalog, Listing(s.m), s.catalog.tables[table], e);
    if r.Some? {
      LiveAreStored(s.catalog, s.m, table, r.value);
    }
  }

  lemma {:induction false} UpdateStops(catalog: Catalog, schema: TableSchema, m: map<string, Value>, rows: seq<KeyedRow>, assignments: seq<Assignment>, i: nat)
    requires i < |rows| && !UpdateAll(catalog, schema, m, rows[..i + 1], assignments).1
    ensures UpdateAll(catalog, schema, m, rows, assignments) == UpdateAll(catalog, schema, m, rows[..i + 1], assignments)
  {
    if i + 1 < |rows| {
      assert rows[..|rows| - 1][..i + 1] == rows[..i + 1];
      UpdateStops(catalog, schema, m, rows[..|rows| - 1], assignments, i);
    } else {
      assert rows[..i + 1] == rows;
    }
  }

  lemma {:induction false} NothingGone(m: map<string, Value>, key: string, v: Value, put: set<string>)
    ensures m[key := v] + AllAs(put, Data("")) == RowWrite(m, {}, key, v, put)
  {
    assert m + AllAs({}, Tombstone) == m;
  }

  lemma {:induction false} NothingPut(m: map<string, Value>, gone: set<string>, key: string)
    ensures (m + AllAs(gone, Tombstone))[key := Tombstone] == RowWrite(m, gone, key, Tombstone, {})
  {
  }

  /** One stored row, changed all the way. */
  lemma {:induction false} RowChangedIs(catalog: Catalog, schema: TableSchema, m: map<string, Value>, p: KeyedRow, change: Change, m': map<string, Value>)
    requires RowChanged(catalog, schema, m, p, change, m') && Succeeds(catalog, schema, p, change)
    ensures var gone := RowEntries(catalog, schema, p.1);
            m' == if change.Erase? then RowWrite(m, gone, p.0, Tombstone, {})
                  else
                    var row := Assigned(schema, p.1, change.assignments).value;
                    RowWrite(m, gone, p.0, Data(Serialize(row)), RowEntries(catalog, schema, row))
  {
    hide HasIndexed, Assigned, RowEntries, Serialize, EntriesWritten;
    var mid: map<string, Value> :| && EntriesWritten(catalog, schema, p.1, m, Tombstone, mid)
        && if change.Erase? then m' == mid[p.0 := Tombstone]
           else
             var row := Assigned(schema, p.1, change.assignments).value;
             EntriesWritten(catalog, schema, row, mid[p.0 := Data(Serialize(row))], Data(""), m');
    AllWritten(catalog, schema, p.1, m, Tombstone, mid);
    if change.Erase? {
      NothingPut(m, RowEntries(catalog, schema, p.1), p.0);
    } else {
      var row := Assigned(schema, p.1, change.assignments).value;
      AllWritten(catalog, schema, row, mid[p.0 := Data(Serialize(row))], Data(""), m');
    }
  }

  lemma {:induction false} LastChanged(catalog: Catalog, schema: TableSchema, m: map<string, Value>, rows: seq<KeyedRow>, change: Change, m': map<string, Value>)
    returns (mid: map<string, Value>)
    requires rows != [] && RowsChanged(catalog, schema, m, rows, change, m')
    ensures RowsChanged(catalog, schema, m, rows[..|rows| - 1], change, mid)
    ensures RowChanged(catalog, schema, mid, rows[|rows| - 1], change, m')
  {
    hide RowChanged;
    var n := |rows| - 1;
    var before, last := rows[..n], rows[n];
    mid :| RowsChanged(catalog, schema, m, before, change, mid) && RowChanged(catalog, schema, mid, last, change, m');
  }

  lemma {:induction false} OneMoreChanged(catalog: Catalog, schema: TableSchema, m: map<string, Value>, rows: seq<KeyedRow>, i: nat, change: Change,
                                          mid: map<string, Value>, m': map<string, Value>)
    requires i < |rows| && RowsChanged(catalog, schema, m, rows[..i], change, mid) && RowChanged(catalog, schema, mid, rows[i], change, m')
    ensures RowsChanged(catalog, schema, m, rows[..i + 1], change, m')
  {
    hide RowChanged;
    TakeNext(rows, i);
    InitOfSnoc(rows[..i], rows[i]);
    var all := rows[..i + 1];
    var n := |all| - 1;
    var before, last := all[..n], all[n];
    assert RowsChanged(catalog, schema, m, before, change, mid) && RowChanged(catalog, schema, mid, last, change, m');
  }

  /** Rows that are all rewritten. */
  lemma {:induction false} AllUpdated(catalog: Catalog, schema: TableSchema, m: map<string, Value>, rows: seq<KeyedRow>, assignments: seq<Assignment>, m': map<string, Value>)
    requires AllSucceed(catalog, schema, rows, Rewrite(assignments)) && RowsChanged(catalog, schema, m, rows, Rewrite(assignments), m')
    ensures UpdateAll(catalog, schema, m, rows, assignments) == (m', true)
  {
    hide RowsChanged, RowChanged, HasIndexed, Assigned, RowEntries, RowWrite, Serialize;
    if rows == [] {
      NoneChanged(catalog, schema, m, Rewrite(assignments), m');
    } else {
      var n := |rows| - 1;
      var mid := LastChanged(catalog, schema, m, rows, Rewrite(assignments), m');
      AllUpdated(catalog, schema, m, rows[..n], assignments, mid);
      RowChangedIs(catalog, schema, mid, rows[n], Rewrite(assignments), m');
    }
  }

  lemma {:induction false} NoneChanged(catalog: Catalog, schema: TableSchema, m: map<string, Value>, change: Change, m': map<string, Value>)
    requires RowsChanged(catalog, schema, m, [], change, m')
    ensures m' == m
  {
  }

  /** Rows that are all erased. */
  lemma {:induction false} AllErased(catalog: Catalog, schema: TableSchema, m: map<string, Value>, rows: seq<KeyedRow>, m': map<string, Value>)
    requires AllSucceed(catalog, schema, rows, Erase) && RowsChanged(catalog, schema, m, rows, Erase, m')
    ensures DeleteAll(catalog, schema, m, rows) == m'
  {
    hide RowsChanged, RowChanged, HasIndexed, RowEntries, RowWrite;
    if rows == [] {
      NoneChanged(catalog, schema, m, Erase, m');
    } else {
      var n := |rows| - 1;
      var mid := LastChanged(catalog, schema, m, rows, Erase, m');
      AllErased(catalog, schema, m, rows[..n], mid);
      RowChangedIs(catalog, schema, mid, rows[n], Erase, m');
    }
  }

  /** The first row the change does not go through for. */
  lemma {:induction false} FirstFailure(catalog: Catalog, schema: TableSchema, rows: seq<KeyedRow>, change: Change) returns (i: nat)
    requires !AllSucceed(catalog, schema, rows, change)
    ensures i < |rows| && AllSucceed(catalog, schema, rows[..i], change) && !Succeeds(catalog, schema, rows[i], change)
  {
    hide Succeeds;
    i := 0;
    while Succeeds(catalog, schema, rows[i], change)
      invariant i < |rows| && AllSucceed(catalog, schema, rows[..i], change)
      decreases |rows| - i
    {
      i := i + 1;
    }
  }

  /** Rows that have their entries before and after: only a refused assignment stops the update. */
  ghost predicate Sound(catalog: Catalog, schema: TableSchema, rows: seq<KeyedRow>, assignments: seq<Assignment>) {
    forall i :: 0 <= i < |rows| ==>
      Succeeds(catalog, schema, rows[i], Rewrite(assignments)) || (HasIndexed(catalog, schema, rows[i].1) && Assigned(schema, rows[i].1, assignments).None?)
  }

  /** From a well indexed state an update is what its function says. */
  lemma {:induction false} ChangedIsUpdated(catalog: Catalog, schema: TableSchema, m: map<string, Value>, rows: seq<KeyedRow>, assignments: seq<Assignment>,
                                            m': map<string, Value>, ok: bool)
    requires Sound(catalog, schema, rows, assignments) && Changes(catalog, schema, m, rows, Rewrite(assignments), m', ok)
    ensures UpdateAll(catalog, schema, m, rows, assignments) == (m', ok)
  {
    hide RowsChanged, HasIndexed, Assigned, RowEntries, RowWrite, Serialize, EntriesWritten, Attempted;
    var change := Rewrite(assignments);
    if AllSucceed(catalog, schema, rows, change) {
      AttemptedAll(catalog, schema, rows, change);
      AllUpdated(catalog, schema, m, rows, assignments, m');
    } else {
      var i := FirstFailure(catalog, schema, rows, change);
      AttemptedStops(catalog, schema, rows, change, i);
      var mid := LastChanged(catalog, schema, m, rows[..i + 1], change, m');
      TakeNext(rows, i);
      InitOfSnoc(rows[..i], rows[i]);
      AllUpdated(catalog, schema, m, rows[..i], assignments, mid);
      UpdateStops(catalog, schema, m, rows, assignments, i);
    }
  }

  lemma {:induction false} TargetsSound(s: Sql, table: string, assignments: seq<Assignment>, e: Expr)
    requires Invariant(s) && table in s.catalog.tables && forall i :: 0 <= i < |assignments| ==> CleanLiteral(assignments[i].value)
    ensures var r := UpdateTargets(s.catalog, Listing(s.m), s.catalog.tables[table], e);
            r.Some? ==> Sound(s.catalog, s.catalog.tables[table], r.value, assignments)
  {
    hide Invariant, UpdateTargets, StoredRow, HasIndexed, Assigned, CleanLiteral, Listing;
    TargetsStored(s, table, e);
    var r := UpdateTargets(s.catalog, Listing(s.m), s.catalog.tables[table], e);
    if r.Some? {
      forall i | 0 <= i < |r.value|
        ensures Succeeds(s.catalog, s.catalog.tables[table], r.value[i], Rewrite(assignments)) ||
                (HasIndexed(s.catalog, s.catalog.tables[table], r.value[i].1) && Assigned(s.catalog.tables[table], r.value[i].1, assignments).None?)
      {
        assert r.value[i] in r.value;
        StoredHasIndexed(s, table, r.value[i], assignments);
      }
    }
  }

  /** UPDATE: from a well indexed state, with clean literals, the relation is the function. */
  lemma {:induction false} UpdatesIsExec(s: Sql, table: string, assignments: seq<Assignment>, condition: Option<Expr>, m': map<string, Value>, ok: bool)
    requires Invariant(s) && CleanStatement(s, UpdateSet(table, assignments, condition)) && Updates(s, table, assignments, condition, m', ok)
    ensures s.(m := m') == ExecUpdate(s, table, assignments, condition)
    ensures ok <==> UpdateGoes(s, table, assignments, condition)
  {
    hide Invariant, UpdateTargets, CleanLiteral, Listing, Changes, Sound, UpdateAll;
    if table in s.catalog.tables && condition.Some? {
      TargetsSound(s, table, assignments, condition.value);
      var r := UpdateTargets(s.catalog, Listing(s.m), s.catalog.tables[table], condition.value);
      if r.Some? {
        ChangedIsUpdated(s.catalog, s.catalog.tables[table], s.m, r.value, assignments, m', ok);
      }
    }
  }

  lemma {:induction false} VictimsSucceed(s: Sql, table: string, e: Expr)
    requires Invariant(s) && table in s.catalog.tables
    ensures var r := DeleteTargets(s.catalog, Listing(s.m), s.catalog.tables[table], e);
            r.Some? ==> AllSucceed(s.catalog, s.catalog.tables[table], r.value, Erase)
  {
    hide Invariant, DeleteTargets, StoredRow, HasIndexed, Listing;
    VictimsStored(s, table, e);
    var r := DeleteTargets(s.catalog, Listing(s.m), s.catalog.tables[table], e);
    if r.Some? {
      forall i | 0 <= i < |r.value|
        ensures Succeeds(s.catalog, s.catalog.tables[table], r.value[i], Erase)
      {
        assert r.value[i] in r.value;
        StoredHasIndexed(s, table, r.value[i], []);
      }
    }
  }

  /** DELETE: from a well indexed state the relation is the function. */
  lemma {:induction false} DeletesIsExec(s: Sql, table: string, condition: Option<Expr>, m': map<string, Value>, ok: bool)
    requires Invariant(s) && Deletes(s, table, condition, m', ok)
    ensures s.(m := m') == ExecDelete(s, table, condition)
    ensures ok <==> DeleteGoes(s, table, condition)
  {
    hide Invariant, DeleteTargets, Listing, AllSucceed, DeleteAll, RowsChanged, Attempted;
    if table in s.catalog.tables && condition.Some? {
      VictimsSucceed(s, table, condition.value);
      var r := DeleteTargets(s.catalog, Listing(s.m), s.catalog.tables[table], condition.value);
      if r.Some? {
        AttemptedAll(s.catalog, s.catalog.tables[table], r.value, Erase);
        AllErased(s.catalog, s.catalog.tables[table], s.m, r.value, m');
      }
    }
  }

  /** INSERT: from a well indexed state the relation is the function, and an accepted row gets all its entries. */
  lemma {:induction false} InsertsIsExec(s: Sql, table: string, columns: seq<string>, values: seq<Expr>, m': map<string, Value>, ok: bool)
    requires Invariant(s) && Inserts(s, table, columns, values, m', ok)
    ensures s.(m := m') == ExecInsert(s, table, columns, values)
    ensures ok <==> InsertGoes(s, table, columns, values)
  {
    hide Invariant, HasIndexed, EntriesWritten, RowEntries, Serialize, PkOf, RowTypesOk, FromPairs, Literals;
    if table in s.catalog.tables && RowToInsert(s.catalog.tables[table], columns, values).Some? {
      var schema := s.catalog.tables[table];
      var row := RowToInsert(schema, columns, values).value;
      InsertedHasIndexed(s, table, row);
      var key := StorageKey(schema.name, PkOf(schema, row).value);
      AllWritten(s.catalog, schema, row, s.m[key := Data(Serialize(row))], Data(""), m');
      NothingGone(s.m, key, Data(Serialize(row)), RowEntries(s.catalog, schema, row));
    }
  }
}
