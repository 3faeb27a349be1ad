/** What the statements mean on plain tables: maps from record keys to rows, and rows maps from columns to values. */
module StatementMeanings {
  import opened Order
  import opened SortedMap
  import opened Ast
  import opened Rows
  import opened IndexKeys
  import opened SqlState
  import opened SqlSteps
  import opened Conditions

  type PlainRow = map<string, RowValue>

  type PlainTable = map<string, PlainRow>

  /** The rows of a table under their keys, as the live records read. */
  function RowsOf(live: map<string, string>, t: string): PlainTable {
    map k | k in live && HasPrefix(k, t + ":") && Deserialize(live[k]).Some? :: Contents(Deserialize(live[k]).value)
  }

  /** The keys of the rows a condition holds for. */
  ghost function Matching(rows: PlainTable, e: Expr): set<string> {
    set k | k in rows && Holds(rows[k], e)
  }

  ghost function Without(rows: PlainTable, keys: set<string>): PlainTable {
    map k | k in rows && k !in keys :: rows[k]
  }

  /** A query fails when its condition fails on some row, and else finds the rows the condition holds for. */
  ghost predicate Selects(rows: PlainTable, e: Expr, r: Option<seq<KeyedRow>>) {
    if exists k :: k in rows && Fails(rows[k], e) then r.None?
    else
      && r.Some?
      && forall p: KeyedRow :: p in r.value <==> p.0 in rows && Sorted(p.1) && Contents(p.1) == rows[p.0] && Holds(rows[p.0], e)
  }

  /** The first column marked as the key. */
  ghost predicate IsPrimary(schema: TableSchema, i: int) {
    0 <= i < |schema.columns| && schema.columns[i].primaryKey && forall j :: 0 <= j < i ==> !schema.columns[j].primaryKey
  }

  /** The columns an INSERT gives values for: those it lists, or all of the table in their order. */
  function Slots(schema: TableSchema, columns: seq<string>): nat {
    if columns == [] then |schema.columns| else |columns|
  }

  function Slot(schema: TableSchema, columns: seq<string>, i: nat): string
    requires i < Slots(schema, columns)
  {
    if columns == [] then schema.columns[i].name else columns[i]
  }

  /** The last place of a column. */
  ghost predicate LastSlot(schema: TableSchema, columns: seq<string>, name: string, i: int) {
    && 0 <= i < Slots(schema, columns) && Slot(schema, columns, i) == name
    && forall j :: i < j < Slots(schema, columns) ==> Slot(schema, columns, j) != name
  }

  predicate IsLiteral(e: Expr) {
    e.Number? || e.Text?
  }

  /** A literal of the column's type. */
  predicate Suits(e: Expr, c: Column) {
    if c.dataType.IntegerType? then e.Number? else e.Text?
  }

  /** The last literal given for the column is one of its type. */
  ghost predicate Supplied(schema: TableSchema, columns: seq<string>, values: seq<Expr>, c: Column)
    requires |values| == Slots(schema, columns)
  {
    exists i :: LastSlot(schema, columns, c.name, i) && Suits(values[i], c)
  }

  /** As many literals as columns, and every column of the table gets one of its type. */
  ghost predicate Insertable(schema: TableSchema, columns: seq<string>, values: seq<Expr>) {
    && (exists i :: IsPrimary(schema, i))
    && |values| == Slots(schema, columns)
    && (forall i :: 0 <= i < |values| ==> IsLiteral(values[i]))
    && forall i :: 0 <= i < |schema.columns| ==> Supplied(schema, columns, values, schema.columns[i])
  }

  /** The row has the listed columns, each with the last literal given for it. */
  ghost predicate Given(schema: TableSchema, columns: seq<string>, values: seq<Expr>, row: PlainRow)
    requires |values| == Slots(schema, columns)
  {
    && (forall c :: c in row ==> exists i :: LastSlot(schema, columns, c, i))
    && forall i :: 0 <= i < |values| && LastSlot(schema, columns, Slot(schema, columns, i), i) ==>
         Slot(schema, columns, i) in row && Spells(values[i], row[Slot(schema, columns, i)])
  }

  /** INSERT puts the given row under its key, in place of what was there; a refused one changes nothing. */
  ghost predicate InsertMeans(schema: TableSchema, columns: seq<string>, values: seq<Expr>, rows: PlainTable,
                              rows': PlainTable, ok: bool) {
    && (ok <==> Insertable(schema, columns, values))
    && if !ok then rows' == rows
       else
         exists row, i ::
           && Given(schema, columns, values, row) && IsPrimary(schema, i) && schema.columns[i].name in row
           && rows' == rows[StorageKey(schema.name, row[schema.columns[i].name]) := row]
  }

  ghost predicate LastFor(assignments: seq<Assignment>, column: string, i: int) {
    0 <= i < |assignments| && assignments[i].column == column && forall j :: i < j < |assignments| ==> assignments[j].column != column
  }

  /** Literals of the columns' types for columns the row has, and none for the primary key. */
  ghost predicate Assignable(schema: TableSchema, row: PlainRow, assignments: seq<Assignment>) {
    forall i :: 0 <= i < |assignments| ==>
      var a := assignments[i];
      && IsLiteral(a.value) && a.column in row
      && (forall j :: IsPrimary(schema, j) ==> schema.columns[j].name != a.column)
      && forall j :: 0 <= j < |schema.columns| && schema.columns[j].name == a.column ==> Suits(a.value, schema.columns[j])
  }

  /** Every assigned column has the last literal assigned to it, and all others are as before. */
  ghost predicate Reassigned(row: PlainRow, assignments: seq<Assignment>, row': PlainRow) {
    && row'.Keys == row.Keys
    && (forall i :: 0 <= i < |assignments| && LastFor(assignments, assignments[i].column, i) ==>
          assignments[i].column in row' && Spells(assignments[i].value, row'[assignments[i].column]))
    && forall c :: c in row && (forall i :: !LastFor(assignments, c, i)) ==> row'[c] == row[c]
  }

  /** The rows under these keys are reassigned, and the others are as before. */
  ghost predicate Rewritten(rows: PlainTable, assignments: seq<Assignment>, keys: seq<string>, rows': PlainTable) {
    && rows'.Keys == rows.Keys
    && forall k :: k in rows ==> if k in keys then Reassigned(rows[k], assignments, rows'[k]) else rows'[k] == rows[k]
  }

  ghost predicate Ascending(keys: seq<string>) {
    forall i, j :: 0 <= i < j < |keys| ==> Less(keys[i], keys[j])
  }

  /** The first `n` of the rows found are rewritten; then all are, or the next one refuses the assignments. */
  ghost predicate UpdateStopsAt(schema: TableSchema, e: Expr, assignments: seq<Assignment>, rows: PlainTable,
                                rows': PlainTable, ok: bool,
                                found: seq<string>, n: nat) {
    && (forall k :: k in found <==> k in rows && Holds(rows[k], e))
    && n <= |found| && (ok <==> n == |found|)
    && (forall i :: 0 <= i < |found| ==> i <= n ==> (Assignable(schema, rows[found[i]], assignments) <==> i < n))
    && Rewritten(rows, assignments, found[..n], rows')
  }

  /** UPDATE rewrites the rows the condition holds for, as far as they take the assignments; in the order of their keys
      when they are found by a scan. */
  ghost predicate UpdateMeans(schema: TableSchema, e: Expr, assignments: seq<Assignment>, scanned: bool,
                              rows: PlainTable, rows': PlainTable, ok: bool) {
    if exists k :: k in rows && Fails(rows[k], e) then rows' == rows && !ok
    else
      exists found, n: nat :: UpdateStopsAt(schema, e, assignments, rows, rows', ok, found, n) && (scanned ==> Ascending(found))
  }

  /** DELETE leaves the rows the condition does not hold for. */
  ghost predicate DeleteMeans(e: Expr, rows: PlainTable, rows': PlainTable, ok: bool) {
    if exists k :: k in rows && Fails(rows[k], e) then rows' == rows && !ok
    else ok && rows' == Without(rows, Matching(rows, e))
  }
}
