/** Catalog, statements' ingredients and the two ways to find rows, as functions of the stored records. */
module SqlState {
  import opened Order
  import opened SortedMap
  import opened Records
  import opened Decimal
  import opened Ast
  import opened Rows
  import opened IndexKeys

  datatype DataType = IntegerType | TextType

  datatype Column = Column(name: string, dataType: DataType, primaryKey: bool)

  datatype TableSchema = TableSchema(name: string, columns: seq<Column>)

  datatype IndexSchema = IndexSchema(name: string, tableName: string, columnName: string)

  datatype Catalog = Catalog(tables: map<string, TableSchema>, indexes: map<string, IndexSchema>)

  /** The first column marked as primary key. */
  function FindPrimary(columns: seq<Column>): Option<Column> {
    if columns == [] then None
    else if columns[0].primaryKey then Some(columns[0])
    else FindPrimary(columns[1..])
  }

  function PrimaryKey(schema: TableSchema): Option<Column> {
    FindPrimary(schema.columns)
  }

  /** The first column of a name. */
  function FindNamed(columns: seq<Column>, name: string): Option<Column> {
    if columns == [] then None
    else if columns[0].name == name then Some(columns[0])
    else FindNamed(columns[1..], name)
  }

  /** The columns of a table that have an index. */
  function IndexedColumns(catalog: Catalog, table: string): set<string> {
    set n | n in catalog.indexes && catalog.indexes[n].tableName == table :: catalog.indexes[n].columnName
  }

  function Literal(e: Expr): Option<RowValue> {
    match e
    case Number(n) => Some(Integer(n))
    case Text(s) => Some(Words(s))
    case _ => None
  }

  predicate HasType(v: RowValue, t: DataType) {
    v.Integer? <==> t.IntegerType?
  }

  function TablePrefix(table: string): string {
    table + ":"
  }

  function StorageKey(table: string, pk: RowValue): string {
    TablePrefix(table) + StorageString(pk)
  }

  function CompareValues(op: BinaryOperator, v: RowValue, e: Expr): Option<bool> {
    match (v, e)
    case (Integer(a), Number(b)) =>
      (match op
       case Equal => Some(a == b)
       case NotEqual => Some(a != b)
       case GreaterThan => Some(a > b)
       case GreaterThanOrEqual => Some(a >= b)
       case LessThan => Some(a < b)
       case LessThanOrEqual => Some(a <= b)
       case _ => None)
    case (Words(a), Text(b)) =>
      (match op
       case Equal => Some(a == b)
       case NotEqual => Some(a != b)
       case GreaterThan => Some(Less(b, a))
       case GreaterThanOrEqual => Some(!Less(a, b))
       case LessThan => Some(Less(a, b))
       case LessThanOrEqual => Some(!Less(b, a))
       case _ => None)
    case _ => None
  }

  /** A condition on a row; None is an error: no such column, other types, or no condition at all. */
  function Evaluate(row: Row, e: Expr): Option<bool> {
    match e
    case Binary(left, And, right) =>
      (match Evaluate(row, left)
       case Some(true) => Evaluate(row, right)
       case other => other)
    case Binary(left, Or, right) =>
      (match Evaluate(row, left)
       case Some(false) => Evaluate(row, right)
       case other => other)
    case Binary(Identifier(column), op, right) =>
      (match Find(row, column)
       case None => None
       case Some(v) => CompareValues(op, v, right))
    case _ => None
  }

  /** A row with the key it is stored under. */
  type KeyedRow = (string, Row)

  /** The scan: every live record under the prefix; None where a row cannot be read. */
  function ScanRows(store: seq<Record>, prefix: string): Option<seq<KeyedRow>> {
    if store == [] then Some([])
    else
      var r := store[|store| - 1];
      match ScanRows(store[..|store| - 1], prefix)
      case None => None
      case Some(rows) =>
        if !HasPrefix(r.key, prefix) || r.value.Tombstone? then Some(rows)
        else
          match Deserialize(r.value.text)
          case None => None
          case Some(row) => Some(rows + [(r.key, row)])
  }

  /** The index lookup: the primary keys of all entries in the range, tombstones included. */
  function LookupIndex(store: seq<Record>, range: (string, string)): seq<string> {
    if store == [] then []
    else
      var key := store[|store| - 1].key;
      LookupIndex(store[..|store| - 1], range) + if Between(range, key) then [LastPiece(key, ':')] else []
  }

  /** A primary key read from text, as its column's type wants it. */
  function ReadKey(t: DataType, pk: string): Option<RowValue> {
    if t.TextType? then Some(Words(pk))
    else
      match ParseSigned(pk)
      case None => None
      case Some(i) => Some(Integer(i))
  }

  /** Fetching rows by primary key; missing and deleted ones are passed over. */
  function FetchRows(store: seq<Record>, table: string, t: DataType, pks: seq<string>): Option<seq<KeyedRow>> {
    if pks == [] then Some([])
    else
      match (FetchRows(store, table, t, pks[..|pks| - 1]), ReadKey(t, pks[|pks| - 1]))
      case (Some(rows), Some(pk)) =>
        var key := StorageKey(table, pk);
        (match Find<Value>(store, key)
         case Some(Data(text)) =>
           (match Deserialize(text)
            case None => None
            case Some(row) => Some(rows + [(key, row)]))
         case _ => Some(rows))
      case _ => None
  }

  function Filter(rows: seq<KeyedRow>, e: Expr): Option<seq<KeyedRow>> {
    if rows == [] then Some([])
    else
      var p := rows[|rows| - 1];
      match (Filter(rows[..|rows| - 1], e), Evaluate(p.1, e))
      case (Some(kept), Some(holds)) => Some(if holds then kept + [p] else kept)
      case _ => None
  }

  /** A comparison of an indexed column with a literal. */
  function FindUsableIndex(catalog: Catalog, table: string, e: Expr): Option<IndexLookup> {
    match e
    case Binary(Identifier(column), op, right) =>
      if Indexable(op) && Literal(right).Some? && column in IndexedColumns(catalog, table)
      then Some(IndexLookup(column, op, Literal(right).value))
      else None
    case _ => None
  }

  /** The rows of a scan that satisfy the condition. */
  function ScanMatching(store: seq<Record>, table: string, e: Expr): Option<seq<KeyedRow>> {
    match ScanRows(store, TablePrefix(table))
    case None => None
    case Some(rows) => Filter(rows, e)
  }

  function IndexMatching(store: seq<Record>, table: string, t: DataType, lookup: IndexLookup, e: Expr): Option<seq<KeyedRow>>
    requires Indexable(lookup.operator)
  {
    match FetchRows(store, table, t, LookupIndex(store, BuildIndexRange(table, lookup)))
    case None => None
    case Some(rows) => Filter(rows, e)
  }

  lemma {:induction false} UsableIsIndexable(catalog: Catalog, table: string, e: Expr)
    ensures FindUsableIndex(catalog, table, e).Some? ==> Indexable(FindUsableIndex(catalog, table, e).value.operator)
  {
  }

  /** Through an index when there is one, else by scanning; the condition is applied again either way. */
  function FetchMatching(catalog: Catalog, store: seq<Record>, schema: TableSchema, e: Expr): Option<seq<KeyedRow>> {
    UsableIsIndexable(catalog, schema.name, e);
    match (FindUsableIndex(catalog, schema.name, e), PrimaryKey(schema))
    case (Some(lookup), Some(pk)) => IndexMatching(store, schema.name, pk.dataType, lookup, e)
    case (Some(_), None) => None
    case _ => ScanMatching(store, schema.name, e)
  }

  function AllAs(keys: set<string>, v: Value): map<string, Value> {
    map k | k in keys :: v
  }
}
