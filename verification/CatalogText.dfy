/** The catalog's records: schemas and indexes as text. */
module CatalogTexts {
  import opened Seqs
  import opened SortedMap
  import opened Text
  import opened Rows
  import opened SqlState

  /** Name, type and, for the primary key, a mark. */
  function ColumnText(c: Column): string {
    Join([c.name, if c.dataType.IntegerType? then "INTEGER" else "TEXT", if c.primaryKey then "PK" else ""], ':')
  }

  function ColumnTexts(cs: seq<Column>): (ts: seq<string>)
    ensures |ts| == |cs| && forall i :: 0 <= i < |cs| ==> ts[i] == ColumnText(cs[i])
  {
    seq(|cs|, i requires 0 <= i < |cs| => ColumnText(cs[i]))
  }

  function SchemaText(schema: TableSchema): string {
    schema.name + ['|'] + Join(ColumnTexts(schema.columns), ',')
  }

  function IndexText(ix: IndexSchema): string {
    Join([ix.name, ix.tableName, ix.columnName], '|')
  }

  /** A column read back; None where the program stops. */
  function ParseColumn(s: string): Option<Column> {
    var parts := SplitOn(s, ':');
    if |parts| < 2 then None
    else
      var primary := |parts| > 2 && parts[2] == "PK";
      if parts[1] == "INTEGER" then Some(Column(parts[0], IntegerType, primary))
      else if parts[1] == "TEXT" then Some(Column(parts[0], TextType, primary))
      else None
  }

  function ParseColumns(parts: seq<string>): Option<seq<Column>> {
    if parts == [] then Some([])
    else
      match (ParseColumns(parts[..|parts| - 1]), ParseColumn(parts[|parts| - 1]))
      case (Some(cs), Some(c)) => Some(cs + [c])
      case _ => None
  }

  function ParseSchema(s: string): Option<TableSchema> {
    match SplitOnce(s, '|')
    case None => None
    case Some((name, columns)) =>
      if columns == "" then Some(TableSchema(name, []))
      else
        match ParseColumns(SplitOn(columns, ','))
        case None => None
        case Some(cs) => Some(TableSchema(name, cs))
  }

  /** Three fields; more are ignored, fewer are an error. */
  function ParseIndex(s: string): Option<IndexSchema> {
    var parts := SplitOn(s, '|');
    if |parts| < 3 then None else Some(IndexSchema(parts[0], parts[1], parts[2]))
  }

  predicate PlainColumn(c: Column) {
    Free(c.name, ':') && Free(c.name, ',')
  }

  lemma {:induction false} ColumnRoundTrip(c: Column)
    requires PlainColumn(c)
    ensures ParseColumn(ColumnText(c)) == Some(c)
  {
    SplitJoin([c.name, if c.dataType.IntegerType? then "INTEGER" else "TEXT", if c.primaryKey then "PK" else ""], ':');
  }

  lemma {:induction false} ColumnTextFree(c: Column)
    requires PlainColumn(c)
    ensures Free(ColumnText(c), ',') && ColumnText(c) != ""
  {
    var kind, mark := if c.dataType.IntegerType? then "INTEGER" else "TEXT", if c.primaryKey then "PK" else "";
    var parts := [c.name, kind, mark];
    assert parts[1..] == [kind, mark] && [kind, mark][1..] == [mark];
    assert Join([mark], ':') == mark && Join([kind, mark], ':') == kind + [':'] + mark;
    assert ColumnText(c) == c.name + [':'] + (kind + [':'] + mark);
  }

  lemma {:induction false} ColumnsRoundTrip(cs: seq<Column>)
    requires forall i :: 0 <= i < |cs| ==> PlainColumn(cs[i])
    ensures ParseColumns(ColumnTexts(cs)) == Some(cs)
  {
    hide ColumnText, ParseColumn, PlainColumn;
    if cs != [] {
      var n := |cs| - 1;
      ColumnsRoundTrip(cs[..n]);
      ColumnRoundTrip(cs[n]);
      assert ColumnTexts(cs)[..n] == ColumnTexts(cs[..n]);
      InitLast(cs);
    }
  }

  lemma {:induction false} JoinNotEmpty(parts: seq<string>, sep: char)
    requires parts != [] && parts[0] != ""
    ensures Join(parts, sep) != ""
  {
  }

  /** A schema survives its text form, the primary-key mark of each column included. */
  lemma {:induction false} SchemaRoundTrip(schema: TableSchema)
    requires Free(schema.name, '|') && forall i :: 0 <= i < |schema.columns| ==> PlainColumn(schema.columns[i])
    ensures ParseSchema(SchemaText(schema)) == Some(schema)
  {
    hide ColumnText, PlainColumn, ParseColumns;
    var ts := ColumnTexts(schema.columns);
    SplitOnceField(schema.name, Join(ts, ','), '|');
    if schema.columns != [] {
      forall i | 0 <= i < |ts|
        ensures Free(ts[i], ',') && ts[i] != ""
      {
        ColumnTextFree(schema.columns[i]);
      }
      JoinNotEmpty(ts, ',');
      SplitJoin(ts, ',');
      ColumnsRoundTrip(schema.columns);
    }
  }

  lemma {:induction false} IndexRoundTrip(ix: IndexSchema)
    requires Free(ix.name, '|') && Free(ix.tableName, '|') && Free(ix.columnName, '|')
    ensures ParseIndex(IndexText(ix)) == Some(ix)
  {
    SplitJoin([ix.name, ix.tableName, ix.columnName], '|');
  }
}
