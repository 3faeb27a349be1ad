/** The statements that write, as functions of the catalog and the raw map, and the runs they make up. */
module SqlSteps {
  import opened Seqs
  import opened Order
  import opened SortedMap
  import opened Records
  import opened Decimal
  import opened Text
  import opened Ast
  import opened Rows
  import opened IndexKeys
  import opened SqlState
  import opened IndexedTables
  import opened IndexAgreement
  import opened CatalogTexts

  /** The catalog and the raw map of the engine. */
  datatype Sql = Sql(catalog: Catalog, m: map<string, Value>)

  datatype Assignment = Assignment(column: string, value: Expr)

  datatype Statement =
    | CreateTable(schema: TableSchema)
    | CreateIndex(name: string, table: string, column: string)
    | InsertInto(table: string, columns: seq<string>, values: seq<Expr>)
    | UpdateSet(table: string, assignments: seq<Assignment>, condition: Option<Expr>)
    | DeleteFrom(table: string, condition: Option<Expr>)

  function CountPrimary(columns: seq<Column>): nat {
    if columns == [] then 0 else (if columns[0].primaryKey then 1 else 0) + CountPrimary(columns[1..])
  }

  function PkOf(schema: TableSchema, row: Row): Option<RowValue> {
    match PrimaryKey(schema)
    case None => None
    case Some(c) => Find(row, c.name)
  }

  /** The index entries of a row under some columns. */
  function EntriesFor(schema: TableSchema, columns: set<string>, row: Row): set<string> {
    match PkOf(schema, row)
    case None => {}
    case Some(pk) => set c | c in columns && Find(row, c).Some? :: IndexKey(schema.name, c, Find(row, c).value, pk)
  }

  function RowEntries(catalog: Catalog, schema: TableSchema, row: Row): set<string> {
    EntriesFor(schema, IndexedColumns(catalog, schema.name), row)
  }

  ghost function ExecCreateTable(s: Sql, schema: TableSchema): Sql {
    if CountPrimary(schema.columns) != 1 || schema.name in s.catalog.tables then s
    else
      Sql(s.catalog.(tables := s.catalog.tables[schema.name := schema]),
          s.m[TablePrefix(SCHEMA) + schema.name := Data(SchemaText(schema))])
  }

  function BuildKeys(schema: TableSchema, column: string, rows: seq<KeyedRow>): set<string> {
    if rows == [] then {}
    else BuildKeys(schema, column, rows[..|rows| - 1]) + EntriesFor(schema, {column}, rows[|rows| - 1].1)
  }

  /** The rows up to the first one that lacks the column or its primary key. */
  function Built(schema: TableSchema, column: string, rows: seq<KeyedRow>): seq<KeyedRow> {
    if rows == [] || Find(rows[0].1, column).None? || PkOf(schema, rows[0].1).None? then []
    else [rows[0]] + Built(schema, column, rows[1..])
  }

  /** Registers the index, then puts an entry for every row the scan finds, as far as rows have one. */
  ghost function ExecCreateIndex(s: Sql, name: string, table: string, column: string): Sql {
    if table !in s.catalog.tables || FindNamed(s.catalog.tables[table].columns, column).None? || name in s.catalog.indexes then s
    else
      var schema, ix := s.catalog.tables[table], IndexSchema(name, table, column);
      var m := s.m[TablePrefix(INDEX_META) + name := Data(IndexText(ix))];
      var rows := ScanRows(Listing(m), TablePrefix(schema.name));
      Sql(s.catalog.(indexes := s.catalog.indexes[name := ix]),
          if rows.None? then m else m + AllAs(BuildKeys(schema, column, Built(schema, column, rows.value)), Data("")))
  }

  /** Whether CREATE INDEX goes through: every row the scan finds has its entry. */
  ghost predicate IndexBuilds(s: Sql, name: string, table: string, column: string) {
    && table in s.catalog.tables && FindNamed(s.catalog.tables[table].columns, column).Some? && name !in s.catalog.indexes
    && var schema := s.catalog.tables[table];
       var m := s.m[TablePrefix(INDEX_META) + name := Data(IndexText(IndexSchema(name, table, column)))];
       var rows := ScanRows(Listing(m), TablePrefix(schema.name));
       rows.Some? && Built(schema, column, rows.value) == rows.value
  }

  function Literals(es: seq<Expr>): Option<seq<RowValue>> {
    if es == [] then Some([])
    else
      match (Literals(es[..|es| - 1]), Literal(es[|es| - 1]))
      case (Some(vs), Some(v)) => Some(vs + [v])
      case _ => None
  }

  predicate RowTypesOk(schema: TableSchema, row: Row) {
    forall i :: 0 <= i < |schema.columns| ==>
      Find(row, schema.columns[i].name).Some? && HasType(Find(row, schema.columns[i].name).value, schema.columns[i].dataType)
  }

  function ColumnNames(schema: TableSchema): seq<string> {
    seq(|schema.columns|, i requires 0 <= i < |schema.columns| => schema.columns[i].name)
  }

  /** The row an INSERT writes, when it passes the checks. */
  function RowToInsert(schema: TableSchema, columns: seq<string>, values: seq<Expr>): Option<Row> {
    var names := if columns == [] then ColumnNames(schema) else columns;
    match Literals(values)
    case None => None
    case Some(vs) =>
      if |names| != |vs| then None
      else
        var row := FromPairs(names, vs);
        if RowTypesOk(schema, row) && PkOf(schema, row).Some? then Some(row) else None
  }

  ghost function ExecInsert(s: Sql, table: string, columns: seq<string>, values: seq<Expr>): Sql {
    if table !in s.catalog.tables then s
    else
      var schema := s.catalog.tables[table];
      match RowToInsert(schema, columns, values)
      case None => s
      case Some(row) =>
        s.(m := RowWrite(s.m, {}, StorageKey(schema.name, PkOf(schema, row).value), Data(Serialize(row)), RowEntries(s.catalog, schema, row)))
  }

  /** Whether an INSERT goes through. */
  predicate InsertGoes(s: Sql, table: string, columns: seq<string>, values: seq<Expr>) {
    table in s.catalog.tables && RowToInsert(s.catalog.tables[table], columns, values).Some?
  }

  /** The row with the assignments made, when each passes the checks. */
  function Assigned(schema: TableSchema, row: Row, assignments: seq<Assignment>): Option<Row> {
    if assignments == [] then Some(row)
    else
      var a := assignments[|assignments| - 1];
      match (Assigned(schema, row, assignments[..|assignments| - 1]), PrimaryKey(schema), Literal(a.value))
      case (Some(r), Some(pk), Some(v)) =>
        if a.column == pk.name then None
        else
          var c := FindNamed(schema.columns, a.column);
          if c.Some? && !HasType(v, c.value.dataType) then None else Update(r, a.column, v)
      case _ => None
  }

  /** Rows are rewritten one by one; a refused assignment stops the statement where it is. */
  function UpdateAll(catalog: Catalog, schema: TableSchema, m: map<string, Value>, rows: seq<KeyedRow>, assignments: seq<Assignment>): (map<string, Value>, bool) {
    if rows == [] then (m, true)
    else
      var p := rows[|rows| - 1];
      var done := UpdateAll(catalog, schema, m, rows[..|rows| - 1], assignments);
      if !done.1 then done
      else
        match Assigned(schema, p.1, assignments)
        case None => (done.0, false)
        case Some(r) =>
          (RowWrite(done.0, RowEntries(catalog, schema, p.1), p.0, Data(Serialize(r)), RowEntries(catalog, schema, r)), true)
  }

  /** A condition "primary key = literal". */
  predicate IsKeyLookup(schema: TableSchema, e: Expr) {
    PrimaryKey(schema).Some? && e.Binary? && e.op.Equal? && e.left == Identifier(PrimaryKey(schema).value.name) && Literal(e.right).Some?
  }

  /** The rows an UPDATE is about: with a key lookup the one row under the key, whatever its type. */
  function UpdateTargets(catalog: Catalog, store: seq<Record>, schema: TableSchema, e: Expr): Option<seq<KeyedRow>> {
    if IsKeyLookup(schema, e) then
      var key := StorageKey(schema.name, Literal(e.right).value);
      match Find<Value>(store, key)
      case Some(Data(text)) =>
        (match Deserialize(text)
         case None => None
         case Some(row) => Some([(key, row)]))
      case _ => Some([])
    else FetchMatching(catalog, store, schema, e)
  }

  ghost function ExecUpdate(s: Sql, table: string, assignments: seq<Assignment>, condition: Option<Expr>): Sql {
    if table !in s.catalog.tables || condition.None? then s
    else
      var schema := s.catalog.tables[table];
      match UpdateTargets(s.catalog, Listing(s.m), schema, condition.value)
      case None => s
      case Some(rows) => s.(m := UpdateAll(s.catalog, schema, s.m, rows, assignments).0)
  }

  /** Whether an UPDATE goes through. */
  ghost predicate UpdateGoes(s: Sql, table: string, assignments: seq<Assignment>, condition: Option<Expr>) {
    && table in s.catalog.tables && condition.Some?
    && var targets := UpdateTargets(s.catalog, Listing(s.m), s.catalog.tables[table], condition.value);
       targets.Some? && UpdateAll(s.catalog, s.catalog.tables[table], s.m, targets.value, assignments).1
  }

  /** The rows a DELETE takes out: with a key lookup only the first one found. */
  function DeleteTargets(catalog: Catalog, store: seq<Record>, schema: TableSchema, e: Expr): Option<seq<KeyedRow>> {
    match FetchMatching(catalog, store, schema, e)
    case None => None
    case Some(rows) => Some(if IsKeyLookup(schema, e) && rows != [] then rows[..1] else rows)
  }

  function DeleteAll(catalog: Catalog, schema: TableSchema, m: map<string, Value>, rows: seq<KeyedRow>): map<string, Value> {
    if rows == [] then m
    else
      var p := rows[|rows| - 1];
      RowWrite(DeleteAll(catalog, schema, m, rows[..|rows| - 1]), RowEntries(catalog, schema, p.1), p.0, Tombstone, {})
  }

  ghost function ExecDelete(s: Sql, table: string, condition: Option<Expr>): Sql {
    if table !in s.catalog.tables || condition.None? then s
    else
      var schema := s.catalog.tables[table];
      match DeleteTargets(s.catalog, Listing(s.m), schema, condition.value)
      case None => s
      case Some(rows) => s.(m := DeleteAll(s.catalog, schema, s.m, rows))
  }

  /** Whether a DELETE goes through. */
  ghost predicate DeleteGoes(s: Sql, table: string, condition: Option<Expr>) {
    && table in s.catalog.tables && condition.Some?
    && DeleteTargets(s.catalog, Listing(s.m), s.catalog.tables[table], condition.value).Some?
  }

  ghost function Exec(s: Sql, st: Statement): Sql {
    match st
    case CreateTable(schema) => ExecCreateTable(s, schema)
    case CreateIndex(name, table, column) => ExecCreateIndex(s, name, table, column)
    case InsertInto(table, columns, values) => ExecInsert(s, table, columns, values)
    case UpdateSet(table, assignments, condition) => ExecUpdate(s, table, assignments, condition)
    case DeleteFrom(table, condition) => ExecDelete(s, table, condition)
  }

  predicate CleanLiteral(e: Expr) {
    Literal(e).Some? ==> CleanValue(Literal(e).value)
  }

  /** What the statement must keep to: names of tables without ':' and not reserved, texts without '|',
      integers of 64 bits, and inserted primary keys that an index entry gives back. */
  ghost predicate CleanStatement(s: Sql, st: Statement) {
    match st
    case CreateTable(schema) => GoodName(schema.name)
    case CreateIndex(name, table, column) => true
    case InsertInto(table, columns, values) =>
      (table in s.catalog.tables && RowToInsert(s.catalog.tables[table], columns, values).Some? ==>
         var row := RowToInsert(s.catalog.tables[table], columns, values).value;
         CleanRow(row) && GoodKey(StorageString(PkOf(s.catalog.tables[table], row).value)))
    case UpdateSet(table, assignments, condition) =>
      forall i :: 0 <= i < |assignments| ==> CleanLiteral(assignments[i].value)
    case DeleteFrom(table, condition) => true
  }

  ghost predicate Invariant(s: Sql) {
    WellIndexed(s.catalog, s.m)
  }

  lemma {:induction false} TypedIsReadable(schema: TableSchema, pk: RowValue)
    requires PrimaryKey(schema).Some? && HasType(pk, PrimaryKey(schema).value.dataType) && CleanValue(pk)
    ensures ReadableKey(schema, StorageString(pk))
  {
    hide PrimaryKey, ParseSigned, ToString;
    if pk.Integer? {
      ParseSignedToString(pk.number);
    }
  }

  /** A value of a clean row is clean. */
  lemma {:induction false} ValueIsClean(row: Row, name: string)
    requires Sorted(row) && CleanRow(row) && name in Contents(row)
    ensures CleanValue(Contents(row)[name])
  {
    ContentsLists(row);
    var i :| 0 <= i < |row| && row[i].key == name;
    assert CleanEntry(row[i]);
  }

  lemma {:induction false} KeyIsTyped(schema: TableSchema, row: map<string, RowValue>)
    requires PrimaryKey(schema).Some? && WellTyped(schema, row)
    ensures var c := PrimaryKey(schema).value;
            c.name in row && row[c.name] == KeyOf(schema, row) && HasType(row[c.name], c.dataType)
  {
    FindPrimaryExact(schema.columns);
    hide FindPrimary, HasType;
  }

  lemma {:induction false} GoodRowKey(schema: TableSchema, row: Row)
    requires GoodRow(schema, row)
    ensures PkOf(schema, row) == Some(KeyOf(schema, Contents(row)))
    ensures ReadableKey(schema, StorageString(KeyOf(schema, Contents(row))))
  {
    hide Contents, Find, Sorted, FindPrimary, ReadableKey, HasType, CleanRow, CleanValue, WellTyped, KeyOf, GoodKey;
    var name := PrimaryKey(schema).value.name;
    KeyIsTyped(schema, Contents(row));
    FindIsLookup(row, name);
    ValueIsClean(row, name);
    TypedIsReadable(schema, KeyOf(schema, Contents(row)));
  }

  /** The entries of a good row carry its key, and there is one for every indexed column. */
  lemma {:induction false} RowEntriesExact(catalog: Catalog, schema: TableSchema, row: Row)
    requires GoodRow(schema, row) && GoodCatalog(catalog)
    requires schema.name in catalog.tables && catalog.tables[schema.name] == schema
    ensures var pk := KeyOf(schema, Contents(row));
            && EntriesOf(schema.name, StorageString(pk), RowEntries(catalog, schema, row))
            && forall c :: c in IndexedColumns(catalog, schema.name) ==>
                 c in Contents(row) && IndexKey(schema.name, c, Contents(row)[c], pk) in RowEntries(catalog, schema, row)
  {
    GoodRowKey(schema, row);
    var pk := KeyOf(schema, Contents(row));
    hide IndexKey, LastPiece, HasPrefix, ReadableKey, Find, Contents, KeyOf, Sorted, CleanRow;
    forall k | k in RowEntries(catalog, schema, row)
      ensures HasPrefix(k, IndexPrefix(schema.name)) && LastPiece(k, ':') == StorageString(pk)
    {
      var c :| c in IndexedColumns(catalog, schema.name) && Find(row, c).Some? && IndexKey(schema.name, c, Find(row, c).value, pk) == k;
      IndexKeyPrefix(schema.name, c, Find(row, c).value, pk);
      PrimaryKeyOf(schema.name, c, Find(row, c).value, pk);
    }
    forall c | c in IndexedColumns(catalog, schema.name)
      ensures c in Contents(row) && IndexKey(schema.name, c, Contents(row)[c], pk) in RowEntries(catalog, schema, row)
    {
      IndexedIsColumn(catalog, schema, c);
      FindIsLookup(row, c);
    }
  }

  lemma {:induction false} IndexedIsColumn(catalog: Catalog, schema: TableSchema, c: string)
    requires GoodCatalog(catalog) && c in IndexedColumns(catalog, schema.name)
    requires schema.name in catalog.tables && catalog.tables[schema.name] == schema
    ensures HasColumn(schema, c)
  {
    var n :| n in catalog.indexes && catalog.indexes[n].tableName == schema.name && catalog.indexes[n].columnName == c;
  }

  lemma {:induction false} GoodSerialized(schema: TableSchema, row: Row)
    requires GoodRow(schema, row)
    ensures Deserialize(Serialize(row)) == Some(row)
  {
    CleanRowReadsBack(row);
  }

  /** Writing a good row with all its entries keeps the invariant, whatever entries of that key are dropped. */
  lemma {:induction false} WriteRowKeeps(catalog: Catalog, m: map<string, Value>, schema: TableSchema, row: Row, gone: set<string>)
    requires WellIndexed(catalog, m) && schema.name in catalog.tables && catalog.tables[schema.name] == schema && GoodRow(schema, row)
    requires EntriesOf(schema.name, StorageString(KeyOf(schema, Contents(row))), gone)
    ensures WellIndexed(catalog, RowWrite(m, gone, StorageKey(schema.name, KeyOf(schema, Contents(row))), Data(Serialize(row)), RowEntries(catalog, schema, row)))
  {
    hide GoodRow, RowEntries, Serialize, Deserialize, EntriesOf, ReadableKey, RowWrite, RowsIndexed, EntriesReadable, KeysKnown, IndexKey, KeyOf;
    GoodRowShape(schema, row);
    GoodRowKey(schema, row);
    RowEntriesExact(catalog, schema, row);
    GoodSerialized(schema, row);
    RowWriteKeeps(catalog, m, schema.name, KeyOf(schema, Contents(row)), gone, Data(Serialize(row)), RowEntries(catalog, schema, row));
  }

  lemma {:induction false} NoEntries(t: string, pk: string)
    ensures EntriesOf(t, pk, {})
  {
  }

  lemma {:induction false} InsertedIsGood(schema: TableSchema, columns: seq<string>, values: seq<Expr>)
    requires PrimaryKey(schema).Some? && RowToInsert(schema, columns, values).Some?
    requires var row := RowToInsert(schema, columns, values).value; CleanRow(row) && GoodKey(StorageString(PkOf(schema, row).value))
    ensures GoodRow(schema, RowToInsert(schema, columns, values).value)
  {
    hide Contents, Find, GoodKey, CleanRow, PkOf, RowTypesOk, FromPairs, Sorted, Literals, PrimaryKey;
    var row := RowToInsert(schema, columns, values).value;
    FromPairsExact(if columns == [] then ColumnNames(schema) else columns, Literals(values).value);
    TypesWellTyped(schema, row);
  }

  /** The insert's checks are what makes a row well typed and keyed. */
  lemma {:induction false} TypesWellTyped(schema: TableSchema, row: Row)
    requires Sorted(row) && PrimaryKey(schema).Some? && RowTypesOk(schema, row)
    ensures WellTyped(schema, Contents(row)) && PkOf(schema, row) == Some(KeyOf(schema, Contents(row)))
  {
    hide Contents, Find, Sorted;
    forall i | 0 <= i < |schema.columns|
      ensures schema.columns[i].name in Contents(row) && HasType(Contents(row)[schema.columns[i].name], schema.columns[i].dataType)
    {
      FindIsLookup(row, schema.columns[i].name);
    }
    FindPrimaryExact(schema.columns);
    FindIsLookup(row, PrimaryKey(schema).value.name);
  }

  lemma {:induction false} InsertKeeps(s: Sql, table: string, columns: seq<string>, values: seq<Expr>)
    requires Invariant(s) && CleanStatement(s, InsertInto(table, columns, values))
    ensures Invariant(ExecInsert(s, table, columns, values))
  {
    if table in s.catalog.tables && RowToInsert(s.catalog.tables[table], columns, values).Some? {
      var schema := s.catalog.tables[table];
      assert GoodSchema(table, schema);
      InsertedIsGood(schema, columns, values);
      var row := RowToInsert(schema, columns, values).value;
      hide GoodRow, RowToInsert, EntriesOf, RowWrite, CleanRow, GoodKey, RowEntries, Serialize;
      GoodRowKey(schema, row);
      NoEntries(table, StorageString(KeyOf(schema, Contents(row))));
      WriteRowKeeps(s.catalog, s.m, schema, row, {});
    }
  }

  /** A row as the statements take it from the store. */
  ghost predicate StoredRow(schema: TableSchema, p: KeyedRow) {
    GoodRow(schema, p.1) && p.0 == StorageKey(schema.name, KeyOf(schema, Contents(p.1)))
  }

  lemma {:induction false} AssignedTypes(schema: TableSchema, row: map<string, RowValue>, name: string, v: RowValue)
    requires WellTyped(schema, row) && name in row
    requires FindNamed(schema.columns, name).Some? ==> HasType(v, FindNamed(schema.columns, name).value.dataType)
    ensures WellTyped(schema, row[name := v])
  {
    forall i | 0 <= i < |schema.columns|
      ensures var c := schema.columns[i]; c.name in row[name := v] && HasType(row[name := v][c.name], c.dataType)
    {
      if schema.columns[i].name == name {
        NamedFound(schema.columns, i);
        FindNamedExact(schema.columns, name);
      }
    }
  }

  lemma {:induction false} NamedFound(columns: seq<Column>, i: nat)
    requires i < |columns|
    ensures FindNamed(columns, columns[i].name).Some?
  {
    if columns[0].name != columns[i].name {
      NamedFound(columns[1..], i - 1);
    }
  }

  /** Assignments keep a row good and its primary key as it is. */
  lemma {:induction false} AssignedIsGood(schema: TableSchema, row: Row, assignments: seq<Assignment>)
    requires GoodRow(schema, row) && forall i :: 0 <= i < |assignments| ==> CleanLiteral(assignments[i].value)
    requires Assigned(schema, row, assignments).Some?
    ensures var r := Assigned(schema, row, assignments).value;
            GoodRow(schema, r) && KeyOf(schema, Contents(r)) == KeyOf(schema, Contents(row))
  {
    if assignments != [] {
      var n := |assignments| - 1;
      AssignedIsGood(schema, row, assignments[..n]);
      var r, a := Assigned(schema, row, assignments[..n]).value, assignments[n];
      OneAssigned(schema, r, a.column, Literal(a.value).value);
    }
  }

  lemma {:induction false} OneAssigned(schema: TableSchema, r: Row, name: string, v: RowValue)
    requires GoodRow(schema, r) && CleanValue(v) && Update(r, name, v).Some? && name != PrimaryKey(schema).value.name
    requires FindNamed(schema.columns, name).Some? ==> HasType(v, FindNamed(schema.columns, name).value.dataType)
    ensures var q := Update(r, name, v).value; GoodRow(schema, q) && KeyOf(schema, Contents(q)) == KeyOf(schema, Contents(r))
  {
    hide Less, Find, Insert, CleanValue, HasType, FindNamed, GoodKey;
    UpdateExact(r, name, v);
    UpdateClean(r, name, v);
    AssignedTypes(schema, Contents(r), name, v);
  }

  lemma {:induction false} UpdateClean(r: Row, name: string, v: RowValue)
    requires Sorted(r) && CleanRow(r) && CleanValue(v) && Update(r, name, v).Some?
    ensures CleanRow(Update(r, name, v).value)
  {
    FindIsLookup(r, name);
    ContentsLists(r);
    var i :| 0 <= i < |r| && r[i].key == name;
    assert CleanEntry(r[i]);
    InsertClean(r, Entry(name, v));
  }

  /** Rewriting stored rows keeps the invariant, also when the statement stops half-way. */
  lemma {:induction false} UpdateAllKeeps(catalog: Catalog, schema: TableSchema, m: map<string, Value>, rows: seq<KeyedRow>, assignments: seq<Assignment>)
    requires WellIndexed(catalog, m) && schema.name in catalog.tables && catalog.tables[schema.name] == schema
    requires forall p :: p in rows ==> StoredRow(schema, p)
    requires forall i :: 0 <= i < |assignments| ==> CleanLiteral(assignments[i].value)
    ensures WellIndexed(catalog, UpdateAll(catalog, schema, m, rows, assignments).0)
  {
    hide WellIndexed, RowEntries, Serialize, RowWrite, EntriesOf, GoodRow, Assigned;
    if rows != [] {
      var n := |rows| - 1;
      assert rows[n] in rows;
      UpdateAllKeeps(catalog, schema, m, rows[..n], assignments);
      var done := UpdateAll(catalog, schema, m, rows[..n], assignments);
      if done.1 && Assigned(schema, rows[n].1, assignments).Some? {
        AssignedIsGood(schema, rows[n].1, assignments);
        var r := Assigned(schema, rows[n].1, assignments).value;
        CatalogIsGood(catalog, done.0);
        RowEntriesExact(catalog, schema, rows[n].1);
        WriteRowKeeps(catalog, done.0, schema, r, RowEntries(catalog, schema, rows[n].1));
      }
    }
  }

  lemma {:induction false} CatalogIsGood(catalog: Catalog, m: map<string, Value>)
    requires WellIndexed(catalog, m)
    ensures GoodCatalog(catalog)
  {
  }

  lemma {:induction false} DeleteRowKeeps(catalog: Catalog, m: map<string, Value>, schema: TableSchema, p: KeyedRow)
    requires WellIndexed(catalog, m) && schema.name in catalog.tables && catalog.tables[schema.name] == schema && StoredRow(schema, p)
    ensures WellIndexed(catalog, RowWrite(m, RowEntries(catalog, schema, p.1), p.0, Tombstone, {}))
  {
    hide GoodRow, RowEntries, EntriesOf, ReadableKey, RowWrite, RowsIndexed, EntriesReadable, KeysKnown, IndexKey, KeyOf;
    GoodRowShape(schema, p.1);
    GoodRowKey(schema, p.1);
    RowEntriesExact(catalog, schema, p.1);
    NoEntries(schema.name, StorageString(KeyOf(schema, Contents(p.1))));
    RowWriteKeeps(catalog, m, schema.name, KeyOf(schema, Contents(p.1)), RowEntries(catalog, schema, p.1), Tombstone, {});
  }

  lemma {:induction false} DeleteAllKeeps(catalog: Catalog, schema: TableSchema, m: map<string, Value>, rows: seq<KeyedRow>)
    requires WellIndexed(catalog, m) && schema.name in catalog.tables && catalog.tables[schema.name] == schema
    requires forall p :: p in rows ==> StoredRow(schema, p)
    ensures WellIndexed(catalog, DeleteAll(catalog, schema, m, rows))
  {
    hide WellIndexed, RowEntries, RowWrite, StoredRow;
    if rows != [] {
      var n := |rows| - 1;
      assert rows[n] in rows;
      DeleteAllKeeps(catalog, schema, m, rows[..n]);
      DeleteRowKeeps(catalog, DeleteAll(catalog, schema, m, rows[..n]), schema, rows[n]);
    }
  }

  lemma {:induction false} LiveRowIsStored(catalog: Catalog, m: map<string, Value>, t: string, p: KeyedRow)
    requires WellIndexed(catalog, m) && t in catalog.tables && LiveRow(Live(m), TablePrefix(t), p)
    ensures StoredRow(catalog.tables[t], p) && catalog.tables[t].name == t
  {
    hide GoodRow, Deserialize, IndexKey, HasPrefix, TablePrefix;
    assert GoodSchema(t, catalog.tables[t]);
    assert IndexedRow(catalog, catalog.tables[t], Live(m), p.0);
  }

  lemma {:induction false} FilterSubset(rows: seq<KeyedRow>, e: Expr)
    requires Filter(rows, e).Some?
    ensures forall p :: p in Filter(rows, e).value ==> p in rows
  {
    hide Evaluate;
    if rows != [] {
      FilterSubset(rows[..|rows| - 1], e);
    }
  }

  /** Whatever path finds them, the rows found are live rows of the table. */
  lemma {:induction false} FetchedAreLive(catalog: Catalog, m: map<string, Value>, t: string, e: Expr)
    requires WellIndexed(catalog, m) && t in catalog.tables
    ensures var r := FetchMatching(catalog, Listing(m), catalog.tables[t], e);
            r.Some? ==> forall p :: p in r.value ==> LiveRow(Live(m), TablePrefix(t), p)
  {
    var schema, store := catalog.tables[t], Listing(m);
    TableReadable(catalog, m, t);
    UsableIsIndexable(catalog, t, e);
    hide WellIndexed, Filter, FetchRows, ScanRows, LookupIndex, BuildIndexRange, LiveRow, Readable, ReadableKey, Listing, Sorted;
    var r := FetchMatching(catalog, store, schema, e);
    if r.Some? {
      var lookup := FindUsableIndex(catalog, t, e);
      if lookup.Some? {
        LookupReadable(catalog, store, t, lookup.value);
        var pks := LookupIndex(store, BuildIndexRange(t, lookup.value));
        FetchExact(store, schema, pks);
        FilterSubset(FetchRows(store, t, PrimaryKey(schema).value.dataType, pks).value, e);
      } else {
        ScanExact(store, TablePrefix(t));
        FilterSubset(ScanRows(store, TablePrefix(t)).value, e);
      }
    }
  }

  /** So is the row under a literal's key. */
  lemma {:induction false} KeyTargetLive(catalog: Catalog, m: map<string, Value>, t: string, e: Expr)
    requires WellIndexed(catalog, m) && t in catalog.tables && IsKeyLookup(catalog.tables[t], e)
    ensures var r := UpdateTargets(catalog, Listing(m), catalog.tables[t], e);
            r.Some? ==> forall p :: p in r.value ==> LiveRow(Live(m), TablePrefix(t), p)
  {
    var schema, store := catalog.tables[t], Listing(m);
    assert GoodSchema(t, schema);
    var lit := Literal(e.right).value;
    FindIsLookup(store, StorageKey(t, lit));
    PrefixOf(TablePrefix(t), StorageString(lit));
    hide WellIndexed, Listing, Deserialize, Sorted, Find, HasPrefix;
  }

  /** The rows an UPDATE is about are live. */
  lemma {:induction false} TargetsAreLive(catalog: Catalog, m: map<string, Value>, t: string, e: Expr)
    requires WellIndexed(catalog, m) && t in catalog.tables
    ensures var r := UpdateTargets(catalog, Listing(m), catalog.tables[t], e);
            r.Some? ==> forall p :: p in r.value ==> LiveRow(Live(m), TablePrefix(t), p)
  {
    hide WellIndexed, FetchMatching, IsKeyLookup, LiveRow;
    if IsKeyLookup(catalog.tables[t], e) {
      KeyTargetLive(catalog, m, t, e);
    } else {
      FetchedAreLive(catalog, m, t, e);
    }
  }

  lemma {:induction false} LiveAreStored(catalog: Catalog, m: map<string, Value>, t: string, rows: seq<KeyedRow>)
    requires WellIndexed(catalog, m) && t in catalog.tables && forall p :: p in rows ==> LiveRow(Live(m), TablePrefix(t), p)
    ensures forall p :: p in rows ==> StoredRow(catalog.tables[t], p)
  {
    hide WellIndexed, LiveRow, StoredRow;
    forall p | p in rows
      ensures StoredRow(catalog.tables[t], p)
    {
      LiveRowIsStored(catalog, m, t, p);
    }
  }

  lemma {:induction false} UpdateKeeps(s: Sql, table: string, assignments: seq<Assignment>, condition: Option<Expr>)
    requires Invariant(s) && CleanStatement(s, UpdateSet(table, assignments, condition))
    ensures Invariant(ExecUpdate(s, table, assignments, condition))
  {
    if table in s.catalog.tables && condition.Some? {
      var schema := s.catalog.tables[table];
      TableReadable(s.catalog, s.m, table);
      hide WellIndexed, StoredRow, UpdateTargets, UpdateAll, CleanLiteral, Readable, LiveRow;
      TargetsAreLive(s.catalog, s.m, table, condition.value);
      var r := UpdateTargets(s.catalog, Listing(s.m), schema, condition.value);
      if r.Some? {
        LiveAreStored(s.catalog, s.m, table, r.value);
        UpdateAllKeeps(s.catalog, schema, s.m, r.value, assignments);
      }
    }
  }

  lemma {:induction false} DeleteKeeps(s: Sql, table: string, condition: Option<Expr>)
    requires Invariant(s)
    ensures Invariant(ExecDelete(s, table, condition))
  {
    if table in s.catalog.tables && condition.Some? {
      var schema := s.catalog.tables[table];
      TableReadable(s.catalog, s.m, table);
      hide WellIndexed, StoredRow, FetchMatching, IsKeyLookup, DeleteAll, Readable, LiveRow;
      FetchedAreLive(s.catalog, s.m, table, condition.value);
      var r := DeleteTargets(s.catalog, Listing(s.m), schema, condition.value);
      if r.Some? {
        LiveAreStored(s.catalog, s.m, table, r.value);
        DeleteAllKeeps(s.catalog, schema, s.m, r.value);
      }
    }
  }

  lemma {:induction false} OneIsPrimary(columns: seq<Column>)
    requires CountPrimary(columns) == 1
    ensures FindPrimary(columns).Some?
  {
    if !columns[0].primaryKey {
      OneIsPrimary(columns[1..]);
    }
  }

  /** No key of a table that is not in the catalog is stored. */
  lemma {:induction false} UnknownTableEmpty(catalog: Catalog, k: string, t: string)
    requires GoodCatalog(catalog) && KnownKey(catalog, k) && GoodName(t) && t !in catalog.tables
    ensures !HasPrefix(k, TablePrefix(t)) && !HasPrefix(k, IndexPrefix(t))
  {
    assert Free(SCHEMA, ':') && Free(INDEX_META, ':') && Free(INDEX, ':') && TablePrefix(INDEX) == "__index__:";
    if HasPrefix(k, TablePrefix(SCHEMA)) {
      ReservedApart(k, SCHEMA, t);
    } else if HasPrefix(k, TablePrefix(INDEX_META)) {
      ReservedApart(k, INDEX_META, t);
    } else if u :| u in catalog.tables && HasPrefix(k, TablePrefix(u)) {
      assert GoodSchema(u, catalog.tables[u]);
      TakeDrop(k, |TablePrefix(u)|);
      StorageKeyApart(u, k[|TablePrefix(u)|..], t);
    } else {
      var u :| u in catalog.tables && HasPrefix(k, IndexPrefix(u));
      assert GoodSchema(u, catalog.tables[u]);
      IndexKeyApart(u, k, t);
    }
  }

  lemma {:induction false} ReservedApart(k: string, name: string, t: string)
    requires HasPrefix(k, TablePrefix(name)) && (name == SCHEMA || name == INDEX_META) && GoodName(t)
    ensures !HasPrefix(k, TablePrefix(t)) && !HasPrefix(k, IndexPrefix(t))
  {
    assert Free(SCHEMA, ':') && Free(INDEX_META, ':') && Free(INDEX, ':') && TablePrefix(INDEX) == "__index__:";
    if HasPrefix(k, TablePrefix(t)) {
      PrefixesDiffer(name, t, k);
    }
    if HasPrefix(k, IndexPrefix(t)) {
      LongerPrefix(k, TablePrefix(INDEX), TablePrefix(t));
      PrefixesDiffer(name, INDEX, k);
    }
  }

  /** A catalog record is no row and no entry. */
  lemma {:induction false} CatalogRecordKeeps(catalog: Catalog, m: map<string, Value>, name: string, rest: string, text: string)
    requires WellIndexed(catalog, m) && (name == SCHEMA || name == INDEX_META)
    ensures WellIndexed(catalog, m[TablePrefix(name) + rest := Data(text)])
  {
    var k := TablePrefix(name) + rest;
    PrefixOf(TablePrefix(name), rest);
    hide KnownKey, Deserialize, GoodRow, HasPrefix, IndexKey, ReadableKey, TablePrefix, IndexPrefix, LastPiece;
    var m' := m[k := Data(text)];
    forall t | t in catalog.tables
      ensures !HasPrefix(k, TablePrefix(t)) && !HasPrefix(k, IndexPrefix(t))
    {
      assert GoodSchema(t, catalog.tables[t]);
      ReservedApart(k, name, t);
    }
    forall t, j | t in catalog.tables && j in Live(m') && HasPrefix(j, TablePrefix(t))
      ensures IndexedRow(catalog, catalog.tables[t], Live(m'), j)
    {
      assert j != k && j in Live(m);
      assert IndexedRow(catalog, catalog.tables[t], Live(m), j);
    }
    ReservedKnown(catalog, k, name);
  }

  lemma {:induction false} ReservedKnown(catalog: Catalog, k: string, name: string)
    requires HasPrefix(k, TablePrefix(name)) && (name == SCHEMA || name == INDEX_META)
    ensures KnownKey(catalog, k)
  {
  }

  /** A new table in the catalog: nothing is stored for it yet. */
  lemma {:induction false} NewTableKeeps(catalog: Catalog, m: map<string, Value>, schema: TableSchema)
    requires WellIndexed(catalog, m) && schema.name !in catalog.tables && GoodName(schema.name) && PrimaryKey(schema).Some?
    ensures WellIndexed(catalog.(tables := catalog.tables[schema.name := schema]), m)
  {
    var c' := catalog.(tables := catalog.tables[schema.name := schema]);
    hide Deserialize, GoodRow, HasPrefix, IndexKey, ReadableKey, TablePrefix, IndexPrefix, LastPiece, GoodName;
    forall k | k in m
      ensures KnownKey(c', k) && !HasPrefix(k, TablePrefix(schema.name)) && !HasPrefix(k, IndexPrefix(schema.name))
    {
      assert KnownKey(catalog, k);
      UnknownTableEmpty(catalog, k, schema.name);
    }
    forall t, j | t in c'.tables && j in Live(m) && HasPrefix(j, TablePrefix(t))
      ensures IndexedRow(c', c'.tables[t], Live(m), j)
    {
      assert IndexedRow(catalog, catalog.tables[t], Live(m), j);
      assert IndexedColumns(c', c'.tables[t].name) == IndexedColumns(catalog, c'.tables[t].name);
    }
  }

  lemma {:induction false} CreateTableKeeps(s: Sql, schema: TableSchema)
    requires Invariant(s) && GoodName(schema.name)
    ensures Invariant(ExecCreateTable(s, schema))
  {
    hide WellIndexed, GoodName, TablePrefix, SchemaText;
    if CountPrimary(schema.columns) == 1 && schema.name !in s.catalog.tables {
      OneIsPrimary(schema.columns);
      NewTableKeeps(s.catalog, s.m, schema);
      CatalogRecordKeeps(s.catalog.(tables := s.catalog.tables[schema.name := schema]), s.m, SCHEMA, schema.name, SchemaText(schema));
    }
  }

  /** The row is stored properly and its entry under the column is among the keys. */
  ghost predicate HasEntry(schema: TableSchema, column: string, p: KeyedRow, keys: set<string>) {
    StoredRow(schema, p) && column in Contents(p.1) &&
    IndexKey(schema.name, column, Contents(p.1)[column], KeyOf(schema, Contents(p.1))) in keys
  }

  lemma {:induction false} BuildKeysExact(schema: TableSchema, column: string, rows: seq<KeyedRow>)
    requires HasColumn(schema, column) && forall p :: p in rows ==> StoredRow(schema, p)
    ensures forall p :: p in rows ==> HasEntry(schema, column, p, BuildKeys(schema, column, rows))
    ensures forall k :: k in BuildKeys(schema, column, rows) ==>
              HasPrefix(k, IndexPrefix(schema.name)) && ReadableKey(schema, LastPiece(k, ':'))
  {
    if rows != [] {
      var n := |rows| - 1;
      var p := rows[n];
      assert p in rows;
      InitLast(rows);
      SnocMembers(rows[..n], p);
      BuildKeysExact(schema, column, rows[..n]);
      OneBuilt(schema, column, p.1);
      hide GoodRow, HasPrefix, IndexKey, ReadableKey, LastPiece, EntriesFor, Contents, KeyOf, IndexPrefix;
    }
  }

  lemma {:induction false} OneBuilt(schema: TableSchema, column: string, row: Row)
    requires HasColumn(schema, column) && GoodRow(schema, row)
    ensures column in Contents(row)
    ensures EntriesFor(schema, {column}, row) == {IndexKey(schema.name, column, Contents(row)[column], KeyOf(schema, Contents(row)))}
    ensures forall k :: k in EntriesFor(schema, {column}, row) ==> HasPrefix(k, IndexPrefix(schema.name)) && ReadableKey(schema, LastPiece(k, ':'))
  {
    GoodRowKey(schema, row);
    FindIsLookup(row, column);
    var pk := KeyOf(schema, Contents(row));
    assert column in Contents(row);
    hide IndexKey, HasPrefix, ReadableKey, LastPiece, Find, Contents, KeyOf, Sorted, CleanRow;
    IndexKeyPrefix(schema.name, column, Contents(row)[column], pk);
    PrimaryKeyOf(schema.name, column, Contents(row)[column], pk);
  }

  /** Entries put beside the rows: no row changes, and the new index has all its entries. */
  lemma {:induction false} BuiltKeeps(catalog: Catalog, m: map<string, Value>, name: string, t: string, column: string, keys: set<string>)
    requires WellIndexed(catalog, m) && t in catalog.tables && name !in catalog.indexes && HasColumn(catalog.tables[t], column)
    requires forall k :: k in keys ==> HasPrefix(k, IndexPrefix(t)) && ReadableKey(catalog.tables[t], LastPiece(k, ':'))
    requires forall p: KeyedRow :: LiveRow(Live(m), TablePrefix(t), p) ==> HasEntry(catalog.tables[t], column, p, keys)
    ensures WellIndexed(catalog.(indexes := catalog.indexes[name := IndexSchema(name, t, column)]), m + AllAs(keys, Data("")))
  {
    var c' := catalog.(indexes := catalog.indexes[name := IndexSchema(name, t, column)]);
    var m' := m + AllAs(keys, Data(""));
    BuiltEntries(catalog, m, t, keys);
    hide Deserialize, GoodRow, HasPrefix, IndexKey, ReadableKey, TablePrefix, IndexPrefix, LastPiece, KeyOf, EntriesReadable, KeysKnown;
    BuiltCatalog(catalog, m, name, t, column, m');
    forall u, j | u in catalog.tables && j in Live(m') && HasPrefix(j, TablePrefix(u))
      ensures IndexedRow(c', catalog.tables[u], Live(m'), j)
    {
      assert GoodSchema(u, catalog.tables[u]) && GoodSchema(t, catalog.tables[t]);
      if j in keys {
        IndexKeyApart(t, j, u);
      }
      assert j in Live(m) && Live(m')[j] == Live(m)[j];
      BuiltRow(catalog, m, name, t, column, keys, u, j);
    }
  }

  lemma {:induction false} BuiltEntries(catalog: Catalog, m: map<string, Value>, t: string, keys: set<string>)
    requires WellIndexed(catalog, m) && t in catalog.tables
    requires forall k :: k in keys ==> HasPrefix(k, IndexPrefix(t)) && ReadableKey(catalog.tables[t], LastPiece(k, ':'))
    ensures EntriesReadable(catalog, m + AllAs(keys, Data(""))) && KeysKnown(catalog, m + AllAs(keys, Data("")))
  {
    hide HasPrefix, ReadableKey, TablePrefix, IndexPrefix, LastPiece, RowsIndexed;
    var m' := m + AllAs(keys, Data(""));
    forall u, k | u in catalog.tables && k in m' && HasPrefix(k, IndexPrefix(u))
      ensures ReadableKey(catalog.tables[u], LastPiece(k, ':'))
    {
      assert GoodSchema(u, catalog.tables[u]) && GoodSchema(t, catalog.tables[t]);
      if k in keys {
        IndexKeyApart(t, k, u);
      }
    }
  }

  lemma {:induction false} BuiltCatalog(catalog: Catalog, m: map<string, Value>, name: string, t: string, column: string, m': map<string, Value>)
    requires WellIndexed(catalog, m) && t in catalog.tables && name !in catalog.indexes && HasColumn(catalog.tables[t], column)
    requires EntriesReadable(catalog, m') && KeysKnown(catalog, m')
    ensures var c' := catalog.(indexes := catalog.indexes[name := IndexSchema(name, t, column)]);
            GoodCatalog(c') && EntriesReadable(c', m') && KeysKnown(c', m')
  {
    hide HasPrefix, ReadableKey, TablePrefix, IndexPrefix, LastPiece, RowsIndexed;
    var c' := catalog.(indexes := catalog.indexes[name := IndexSchema(name, t, column)]);
    forall k | k in m'
      ensures KnownKey(c', k)
    {
      assert KnownKey(catalog, k);
    }
  }

  lemma {:induction false} BuiltRow(catalog: Catalog, m: map<string, Value>, name: string, t: string, column: string, keys: set<string>, u: string, j: string)
    requires WellIndexed(catalog, m) && t in catalog.tables && u in catalog.tables && name !in catalog.indexes
    requires forall p: KeyedRow :: LiveRow(Live(m), TablePrefix(t), p) ==> HasEntry(catalog.tables[t], column, p, keys)
    requires var m' := m + AllAs(keys, Data("")); j in Live(m) && j in Live(m') && Live(m')[j] == Live(m)[j] && HasPrefix(j, TablePrefix(u))
    ensures var c' := catalog.(indexes := catalog.indexes[name := IndexSchema(name, t, column)]);
            IndexedRow(c', catalog.tables[u], Live(m + AllAs(keys, Data(""))), j)
  {
    var c' := catalog.(indexes := catalog.indexes[name := IndexSchema(name, t, column)]);
    hide Deserialize, GoodRow, HasPrefix, IndexKey, TablePrefix, EntriesReadable, KeysKnown, IndexedColumns, Contents;
    assert GoodSchema(u, catalog.tables[u]);
    assert IndexedRow(catalog, catalog.tables[u], Live(m), j);
    var p := (j, Deserialize(Live(m)[j]).value);
    assert u == t ==> LiveRow(Live(m), TablePrefix(t), p);
    NewColumns(catalog, name, t, column, u);
    GoodRowShape(catalog.tables[u], p.1);
  }

  lemma {:induction false} NewColumns(catalog: Catalog, name: string, t: string, column: string, u: string)
    requires name !in catalog.indexes
    ensures IndexedColumns(catalog.(indexes := catalog.indexes[name := IndexSchema(name, t, column)]), u) ==
            IndexedColumns(catalog, u) + if u == t then {column} else {}
  {
    var c' := catalog.(indexes := catalog.indexes[name := IndexSchema(name, t, column)]);
    forall c | c in IndexedColumns(catalog, u)
      ensures c in IndexedColumns(c', u)
    {
      var n :| n in catalog.indexes && catalog.indexes[n].tableName == u && catalog.indexes[n].columnName == c;
      assert c'.indexes[n] == catalog.indexes[n];
    }
    assert c'.indexes[name].columnName == column;
  }

  lemma {:induction false} NamedIsColumn(schema: TableSchema, column: string)
    requires FindNamed(schema.columns, column).Some?
    ensures HasColumn(schema, column)
  {
    FindNamedExact(schema.columns, column);
  }

  lemma {:induction false} StoredHasBoth(schema: TableSchema, column: string, p: KeyedRow)
    requires HasColumn(schema, column) && StoredRow(schema, p)
    ensures Find(p.1, column).Some? && PkOf(schema, p.1).Some?
  {
    GoodRowKey(schema, p.1);
    OneBuilt(schema, column, p.1);
    hide GoodRow, PkOf, EntriesFor, IndexKey, HasPrefix, ReadableKey, LastPiece, Contents, KeyOf;
    GoodRowShape(schema, p.1);
    FindIsLookup(p.1, column);
  }

  ghost predicate AllHaveBoth(schema: TableSchema, column: string, rows: seq<KeyedRow>) {
    forall i :: 0 <= i < |rows| ==> Find(rows[i].1, column).Some? && PkOf(schema, rows[i].1).Some?
  }

  lemma {:induction false} BuiltStops(schema: TableSchema, column: string, rows: seq<KeyedRow>, i: nat)
    requires i < |rows| && AllHaveBoth(schema, column, rows[..i])
    requires Find(rows[i].1, column).None? || PkOf(schema, rows[i].1).None?
    ensures Built(schema, column, rows) == rows[..i] && rows[..i] != rows
  {
    hide Find, PkOf;
    if i > 0 {
      assert rows[..i][0] == rows[0];
      assert rows[1..][..i - 1] == rows[..i][1..];
      BuiltStops(schema, column, rows[1..], i - 1);
      PrefixOfCons(rows, i - 1);
    } else {
      assert rows[..0] == [];
    }
  }

  lemma {:induction false} AllBuilt(schema: TableSchema, column: string, rows: seq<KeyedRow>)
    requires AllHaveBoth(schema, column, rows)
    ensures Built(schema, column, rows) == rows
  {
    hide Find, PkOf;
    if rows != [] {
      AllBuilt(schema, column, rows[1..]);
      HeadTail(rows);
    }
  }

  lemma {:induction false} StoredAreBuilt(schema: TableSchema, column: string, rows: seq<KeyedRow>)
    requires HasColumn(schema, column) && forall p :: p in rows ==> StoredRow(schema, p)
    ensures Built(schema, column, rows) == rows
  {
    hide StoredRow, HasColumn, Find, PkOf, Built;
    forall i | 0 <= i < |rows|
      ensures Find(rows[i].1, column).Some? && PkOf(schema, rows[i].1).Some?
    {
      StoredHasBoth(schema, column, rows[i]);
    }
    AllBuilt(schema, column, rows);
  }

  lemma {:induction false} CreateIndexKeeps(s: Sql, name: string, table: string, column: string)
    requires Invariant(s)
    ensures Invariant(ExecCreateIndex(s, name, table, column))
  {
    if table in s.catalog.tables && FindNamed(s.catalog.tables[table].columns, column).Some? && name !in s.catalog.indexes {
      var schema := s.catalog.tables[table];
      var m := s.m[TablePrefix(INDEX_META) + name := Data(IndexText(IndexSchema(name, table, column)))];
      CatalogRecordKeeps(s.catalog, s.m, INDEX_META, name, IndexText(IndexSchema(name, table, column)));
      FindNamedExact(schema.columns, column);
      TableReadable(s.catalog, m, table);
      ScanExact(Listing(m), TablePrefix(table));
      var rows := ScanRows(Listing(m), TablePrefix(table)).value;
      hide WellIndexed, ScanRows, BuildKeys, StoredRow, LiveRow, Listing, Readable, IndexText, TablePrefix, IndexPrefix, HasPrefix, ReadableKey;
      forall p: KeyedRow | LiveRow(Live(m), TablePrefix(table), p)
        ensures StoredRow(schema, p)
      {
        LiveRowIsStored(s.catalog, m, table, p);
      }
      StoredAreBuilt(schema, column, rows);
      BuildKeysExact(schema, column, rows);
      BuiltKeeps(s.catalog, m, name, table, column, BuildKeys(schema, column, rows));
    }
  }

  /** Every clean statement keeps every live row of every table fully indexed. */
  lemma {:induction false} ExecKeeps(s: Sql, st: Statement)
    requires Invariant(s) && CleanStatement(s, st)
    ensures Invariant(Exec(s, st))
  {
    hide Invariant, ExecCreateTable, ExecCreateIndex, ExecInsert, ExecUpdate, ExecDelete, GoodName;
    match st
    case CreateTable(schema) => CreateTableKeeps(s, schema);
    case CreateIndex(name, table, column) => CreateIndexKeeps(s, name, table, column);
    case InsertInto(table, columns, values) => InsertKeeps(s, table, columns, values);
    case UpdateSet(table, assignments, condition) => UpdateKeeps(s, table, assignments, condition);
    case DeleteFrom(table, condition) => DeleteKeeps(s, table, condition);
  }

  /** All keys a store has had, tombstoned ones included, are fit for the catalog. */
  ghost predicate EverKnown(catalog: Catalog, ever: set<string>) {
    WellIndexed(catalog, AllAs(ever, Tombstone))
  }

  lemma {:induction false} EverGrows(catalog: Catalog, ever: set<string>, m: map<string, Value>)
    requires EverKnown(catalog, ever) && WellIndexed(catalog, m)
    ensures EverKnown(catalog, ever + m.Keys)
  {
    hide KnownKey, ReadableKey, GoodCatalog, HasPrefix, IndexedRow;
  }

  lemma {:induction false} SameTables(catalog: Catalog, catalog': Catalog, ever: set<string>)
    requires EverKnown(catalog, ever) && GoodCatalog(catalog') && catalog'.tables == catalog.tables
    ensures EverKnown(catalog', ever)
  {
    hide ReadableKey, GoodCatalog, HasPrefix, IndexedRow;
  }

  lemma {:induction false} ExecTables(s: Sql, st: Statement)
    requires !st.CreateTable?
    ensures Exec(s, st).catalog.tables == s.catalog.tables
  {
    hide ScanRows, BuildKeys, Built, RowToInsert, UpdateTargets, DeleteTargets, UpdateAll, DeleteAll, Serialize, RowEntries, RowWrite, AllAs;
  }

  lemma {:induction false} CreateTableKnows(s: Sql, schema: TableSchema, ever: set<string>)
    requires EverKnown(s.catalog, ever) && GoodName(schema.name)
    ensures EverKnown(ExecCreateTable(s, schema).catalog, ever)
  {
    hide WellIndexed, GoodName, TablePrefix, SchemaText, AllAs;
    if CountPrimary(schema.columns) == 1 && schema.name !in s.catalog.tables {
      OneIsPrimary(schema.columns);
      NewTableKeeps(s.catalog, AllAs(ever, Tombstone), schema);
    }
  }

  lemma {:induction false} ExecKnows(s: Sql, st: Statement, ever: set<string>)
    requires Invariant(s) && CleanStatement(s, st) && EverKnown(s.catalog, ever)
    ensures EverKnown(Exec(s, st).catalog, ever)
  {
    ExecKeeps(s, st);
    CatalogIsGood(Exec(s, st).catalog, Exec(s, st).m);
    hide Invariant, WellIndexed, EverKnown, GoodCatalog, ExecCreateTable, ExecCreateIndex, ExecInsert, ExecUpdate, ExecDelete, GoodName;
    if st.CreateTable? {
      CreateTableKnows(s, st.schema, ever);
    } else {
      hide Exec;
      ExecTables(s, st);
      SameTables(s.catalog, Exec(s, st).catalog, ever);
    }
  }

  /** What happens to the store: a statement, or whatever the engine does to the raw map by itself. */
  datatype SqlEvent = Do(statement: Statement) | Settle(settled: map<string, Value>)

  ghost function Happen(s: Sql, ev: SqlEvent): Sql {
    match ev
    case Do(st) => Exec(s, st)
    case Settle(settled) => s.(m := settled)
  }

  /** A statement is clean; the engine by itself forgets some tombstones, or brings some back, and nothing else. */
  ghost predicate CleanEvent(s: Sql, ever: set<string>, ev: SqlEvent) {
    match ev
    case Do(st) => CleanStatement(s, st)
    case Settle(settled) => Live(settled) == Live(s.m) && settled.Keys <= ever
  }

  /** Tombstones of keys the store has had may come and go. */
  lemma {:induction false} SettlingKeeps(catalog: Catalog, m: map<string, Value>, m': map<string, Value>, ever: set<string>)
    requires WellIndexed(catalog, m) && EverKnown(catalog, ever) && Live(m') == Live(m) && m'.Keys <= ever
    ensures WellIndexed(catalog, m')
  {
    hide KnownKey, ReadableKey, GoodCatalog, RowsIndexed, HasPrefix;
    var e := AllAs(ever, Tombstone);
    assert forall k :: k in m' ==> k in m'.Keys && k in e;
  }

  lemma {:induction false} EventKeeps(s: Sql, ever: set<string>, ev: SqlEvent)
    requires Invariant(s) && EverKnown(s.catalog, ever) && CleanEvent(s, ever, ev)
    ensures var r := Happen(s, ev); Invariant(r) && EverKnown(r.catalog, ever + r.m.Keys)
  {
    hide WellIndexed, Exec, CleanStatement, Live, EverKnown;
    if ev.Do? {
      ExecKeeps(s, ev.statement);
      ExecKnows(s, ev.statement, ever);
    } else {
      SettlingKeeps(s.catalog, s.m, ev.settled, ever);
    }
    EverGrows(Happen(s, ev).catalog, ever, Happen(s, ev).m);
  }

  ghost function HappenAll(s: Sql, evs: seq<SqlEvent>): Sql {
    if evs == [] then s else Happen(HappenAll(s, evs[..|evs| - 1]), evs[|evs| - 1])
  }

  /** Every key the store has had so far. */
  ghost function Ever(s: Sql, evs: seq<SqlEvent>): set<string> {
    if evs == [] then s.m.Keys else Ever(s, evs[..|evs| - 1]) + HappenAll(s, evs).m.Keys
  }

  ghost predicate CleanRun(s: Sql, evs: seq<SqlEvent>) {
    forall i :: 0 <= i < |evs| ==> CleanEvent(HappenAll(s, evs[..i]), Ever(s, evs[..i]), evs[i])
  }

  /** Every run of clean statements, with the engine at work anywhere between them, keeps the invariant. */
  lemma {:induction false} RunKeeps(s: Sql, evs: seq<SqlEvent>)
    requires Invariant(s) && CleanRun(s, evs)
    ensures Invariant(HappenAll(s, evs)) && EverKnown(HappenAll(s, evs).catalog, Ever(s, evs))
  {
    hide Invariant, CleanEvent, Happen, EverKnown;
    if evs == [] {
      AtFirst(s);
    } else {
      var n := |evs| - 1;
      forall i | 0 <= i < n
        ensures CleanEvent(HappenAll(s, evs[..n][..i]), Ever(s, evs[..n][..i]), evs[..n][i])
      {
        assert evs[..n][..i] == evs[..i];
      }
      RunKeeps(s, evs[..n]);
      EventKeeps(HappenAll(s, evs[..n]), Ever(s, evs[..n]), evs[n]);
    }
  }

  lemma {:induction false} AtFirst(s: Sql)
    requires Invariant(s)
    ensures EverKnown(s.catalog, s.m.Keys)
  {
    hide KnownKey, ReadableKey, GoodCatalog, HasPrefix, IndexedRow;
  }

  function EmptySql(): Sql {
    Sql(Catalog(map[], map[]), map[])
  }

  lemma {:induction false} EmptyIsIndexed()
    ensures Invariant(EmptySql())
  {
  }

  /** From an empty database, after every run of clean statements with the engine at work anywhere between them, an index
      lookup answers an answerable comparison with the rows a scan answers with. */
  lemma {:induction false} IndexPathEqualsScanPath(evs: seq<SqlEvent>, t: string, lookup: IndexLookup, e: Expr)
    requires CleanRun(EmptySql(), evs)
    requires var s := HappenAll(EmptySql(), evs);
             && t in s.catalog.tables && FindUsableIndex(s.catalog, t, e) == Some(lookup)
             && Indexable(lookup.operator) && Answerable(s.catalog.tables[t], lookup)
    ensures var s := HappenAll(EmptySql(), evs);
            var a, b := FetchMatching(s.catalog, Listing(s.m), s.catalog.tables[t], e), ScanMatching(Listing(s.m), t, e);
            a.Some? && b.Some? && forall p :: p in a.value <==> p in b.value
  {
    hide CleanRun, HappenAll, WellIndexed, FetchMatching, ScanMatching, Answerable, FindUsableIndex, EmptySql;
    EmptyIsIndexed();
    RunKeeps(EmptySql(), evs);
    var s := HappenAll(EmptySql(), evs);
    IndexAgreesWithScan(s.catalog, Listing(s.m), t, lookup, e);
  }

  lemma {:induction false} SameText(v: RowValue, w: RowValue, t: DataType)
    requires HasType(v, t) && HasType(w, t) && StorageString(v) == StorageString(w)
    ensures v == w
  {
    if v.Integer? {
      ToStringInjective(v.number, w.number);
    }
  }

  /** A good row satisfies "primary key = literal" exactly when it is stored under the literal's key. */
  lemma {:induction false} KeyConditionExact(schema: TableSchema, p: KeyedRow, e: Expr)
    requires StoredRow(schema, p) && IsKeyLookup(schema, e) && HasType(Literal(e.right).value, PrimaryKey(schema).value.dataType)
    ensures Evaluate(p.1, e) == Some(p.0 == StorageKey(schema.name, Literal(e.right).value))
  {
    var pk, lit, c := KeyOf(schema, Contents(p.1)), Literal(e.right).value, PrimaryKey(schema).value;
    FindPrimaryExact(schema.columns);
    FindIsLookup(p.1, c.name);
    hide Contents, Find, StorageString, CleanRow, GoodKey;
    assert HasType(pk, c.dataType) && Find(p.1, c.name) == Some(pk);
    if StorageKey(schema.name, pk) == StorageKey(schema.name, lit) {
      Halves(TablePrefix(schema.name), StorageString(pk));
      Halves(TablePrefix(schema.name), StorageString(lit));
      SameText(pk, lit, c.dataType);
    }
  }

  /** The primary-key fast path finds the rows a scan finds, when the literal has the key's type. */
  lemma {:induction false} KeyPathEqualsScanPath(s: Sql, t: string, e: Expr)
    requires Invariant(s) && t in s.catalog.tables && IsKeyLookup(s.catalog.tables[t], e)
    requires HasType(Literal(e.right).value, PrimaryKey(s.catalog.tables[t]).value.dataType)
    ensures var a, b := UpdateTargets(s.catalog, Listing(s.m), s.catalog.tables[t], e), ScanMatching(Listing(s.m), t, e);
            a.Some? && b.Some? && forall p :: p in a.value <==> p in b.value
  {
    var schema, store, live := s.catalog.tables[t], Listing(s.m), Live(s.m);
    TableReadable(s.catalog, s.m, t);
    ScanExact(store, TablePrefix(t));
    var rows := ScanRows(store, TablePrefix(t)).value;
    var key := StorageKey(t, Literal(e.right).value);
    FindIsLookup(store, key);
    PrefixOf(TablePrefix(t), StorageString(Literal(e.right).value));
    hide WellIndexed, StoredRow, Listing, Evaluate, ScanRows, Sorted, Find, Deserialize, HasPrefix, StorageString, TablePrefix;
    forall p | LiveRow(live, TablePrefix(t), p)
      ensures Evaluate(p.1, e) == Some(p.0 == key)
    {
      LiveRowIsStored(s.catalog, s.m, t, p);
      KeyConditionExact(schema, p, e);
    }
    FilterExact(rows, e);
  }
}
