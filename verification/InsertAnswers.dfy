/** From a well indexed state INSERT does to the tables what it means. */
module InsertAnswers {
  import opened SortedMap
  import opened Records
  import opened Ast
  import opened Rows
  import opened IndexKeys
  import opened SqlState
  import opened IndexedTables
  import opened SqlSteps
  import opened Conditions
  import opened StatementMeanings
  import opened RowWrites

  lemma {:induction false} PrimaryExactly(schema: TableSchema)
    ensures PrimaryKey(schema).Some? <==> exists i :: IsPrimary(schema, i)
    ensures forall i :: IsPrimary(schema, i) ==> PrimaryKey(schema) == Some(schema.columns[i])
  {
    FirstMarked(schema.columns);
    if PrimaryKey(schema).Some? {
      var i :| 0 <= i < |schema.columns| && schema.columns[i] == PrimaryKey(schema).value && schema.columns[i].primaryKey
               && forall j :: 0 <= j < i ==> !schema.columns[j].primaryKey;
      assert IsPrimary(schema, i);
      forall j | IsPrimary(schema, j)
        ensures j == i
      {
      }
    }
  }

  lemma {:induction false} FirstMarked(columns: seq<Column>)
    ensures FindPrimary(columns).Some? ==>
              exists i :: 0 <= i < |columns| && columns[i] == FindPrimary(columns).value && columns[i].primaryKey
                          && forall j :: 0 <= j < i ==> !columns[j].primaryKey
    ensures FindPrimary(columns).None? ==> forall i :: 0 <= i < |columns| ==> !columns[i].primaryKey
  {
    if columns != [] && !columns[0].primaryKey {
      FirstMarked(columns[1..]);
      if FindPrimary(columns).Some? {
        var i :| 0 <= i < |columns[1..]| && columns[1..][i] == FindPrimary(columns).value && columns[1..][i].primaryKey
                 && forall j :: 0 <= j < i ==> !columns[1..][j].primaryKey;
        assert columns[i + 1] == FindPrimary(columns).value;
        assert forall j :: 0 < j < i + 1 ==> columns[j] == columns[1..][j - 1];
      } else {
        assert forall i :: 0 < i < |columns| ==> columns[i] == columns[1..][i - 1];
      }
    }
  }

  lemma {:induction false} LiteralExactly(e: Expr)
    ensures Literal(e).Some? <==> IsLiteral(e)
    ensures Literal(e).Some? ==> Spells(e, Literal(e).value) && forall c: Column :: Suits(e, c) <==> HasType(Literal(e).value, c.dataType)
  {
  }

  lemma {:induction false} SpellsOne(e: Expr, v: RowValue)
    requires Spells(e, v)
    ensures Literal(e) == Some(v)
  {
  }

  lemma {:induction false} LiteralsExactly(es: seq<Expr>)
    ensures Literals(es).Some? <==> forall i :: 0 <= i < |es| ==> IsLiteral(es[i])
    ensures Literals(es).Some? ==>
              |Literals(es).value| == |es| && forall i :: 0 <= i < |es| ==> Literal(es[i]) == Some(Literals(es).value[i])
  {
    if es != [] {
      var n := |es| - 1;
      LiteralsExactly(es[..n]);
      LiteralExactly(es[n]);
      assert forall i :: 0 <= i < n ==> es[..n][i] == es[i];
    }
  }

  ghost predicate LastAt(names: seq<string>, name: string, i: int) {
    0 <= i < |names| && names[i] == name && forall j :: i < j < |names| ==> names[j] != name
  }

  /** A repeated column keeps its last value. */
  lemma {:induction false} LastWins(names: seq<string>, vs: seq<RowValue>)
    requires |names| == |vs|
    ensures forall c :: c in ColumnMap(names, vs) <==> exists i :: LastAt(names, c, i)
    ensures forall i :: 0 <= i < |names| && LastAt(names, names[i], i) ==> names[i] in ColumnMap(names, vs) && ColumnMap(names, vs)[names[i]] == vs[i]
  {
    if names != [] {
      var n := |names| - 1;
      LastWins(names[..n], vs[..n]);
      forall c, i
        ensures LastAt(names, c, i) <==> if i == n then c == names[n] else c != names[n] && LastAt(names[..n], c, i)
      {
        assert forall j :: 0 <= j < n ==> names[..n][j] == names[j];
      }
      var before, now := ColumnMap(names[..n], vs[..n]), ColumnMap(names, vs);
      forall c
        ensures c in now <==> exists i :: LastAt(names, c, i)
      {
        if c == names[n] {
          assert LastAt(names, c, n);
        } else if c in before {
          var i :| LastAt(names[..n], c, i);
          assert LastAt(names, c, i);
        }
      }
      forall i | 0 <= i < |names| && LastAt(names, names[i], i)
        ensures names[i] in now && now[names[i]] == vs[i]
      {
        if i < n {
          assert names[..n][i] == names[i] && LastAt(names[..n], names[i], i) && vs[..n][i] == vs[i];
        }
      }
    }
  }

  lemma {:induction false} SlotsAreNames(schema: TableSchema, columns: seq<string>) returns (names: seq<string>)
    ensures names == if columns == [] then ColumnNames(schema) else columns
    ensures |names| == Slots(schema, columns) && forall i :: 0 <= i < |names| ==> names[i] == Slot(schema, columns, i)
    ensures forall c, i :: LastSlot(schema, columns, c, i) <==> LastAt(names, c, i)
  {
    names := if columns == [] then ColumnNames(schema) else columns;
  }

  /** Paired rows are the given ones. */
  lemma {:induction false} PairedIsGiven(schema: TableSchema, columns: seq<string>, values: seq<Expr>)
    requires Literals(values).Some? && |values| == Slots(schema, columns)
    ensures |Literals(values).value| == |values|
    ensures var names := if columns == [] then ColumnNames(schema) else columns;
            Given(schema, columns, values, ColumnMap(names, Literals(values).value))
  {
    var names := SlotsAreNames(schema, columns);
    LiteralsExactly(values);
    var vs := Literals(values).value;
    LastWins(names, vs);
    hide Slot, Slots, ColumnMap, ColumnNames, Literals, LastSlot, LastAt, IsLiteral;
    var row := ColumnMap(names, vs);
    forall i | 0 <= i < |values| && LastSlot(schema, columns, Slot(schema, columns, i), i)
      ensures Slot(schema, columns, i) in row && Spells(values[i], row[Slot(schema, columns, i)])
    {
      assert names[i] == Slot(schema, columns, i);
      LiteralExactly(values[i]);
    }
  }

  lemma {:induction false} SlotInRow(schema: TableSchema, columns: seq<string>, values: seq<Expr>, row: PlainRow,
                                     c: string, i: int)
    requires |values| == Slots(schema, columns) && Given(schema, columns, values, row) && LastSlot(schema, columns, c, i)
    ensures c in row && Spells(values[i], row[c])
  {
    assert Slot(schema, columns, i) == c;
  }

  lemma {:induction false} TypeExactly(schema: TableSchema, columns: seq<string>, values: seq<Expr>, row: Row, c: Column)
    requires Sorted(row) && |values| == Slots(schema, columns) && Given(schema, columns, values, Contents(row))
    ensures (Find(row, c.name).Some? && HasType(Find(row, c.name).value, c.dataType)) <==> Supplied(schema, columns, values, c)
  {
    FindIsLookup(row, c.name);
    hide Sorted, Contents, Find, Slots, LastSlot, HasType, Suits, Spells;
    forall i | LastSlot(schema, columns, c.name, i)
      ensures c.name in Contents(row) && (Suits(values[i], c) <==> HasType(Contents(row)[c.name], c.dataType))
    {
      SlotInRow(schema, columns, values, Contents(row), c.name, i);
      SpellsOne(values[i], Contents(row)[c.name]);
      LiteralExactly(values[i]);
    }
  }

  /** A row passes the checks exactly when every column of the table got a literal of its type. */
  lemma {:induction false} TypesExactly(schema: TableSchema, columns: seq<string>, values: seq<Expr>, row: Row)
    requires Sorted(row) && |values| == Slots(schema, columns) && Given(schema, columns, values, Contents(row))
    ensures RowTypesOk(schema, row) <==> forall i :: 0 <= i < |schema.columns| ==> Supplied(schema, columns, values, schema.columns[i])
  {
    hide Sorted, Contents, Find, Slots, Given, Supplied;
    forall i | 0 <= i < |schema.columns|
      ensures (Find(row, schema.columns[i].name).Some? && HasType(Find(row, schema.columns[i].name).value, schema.columns[i].dataType)) <==>
              Supplied(schema, columns, values, schema.columns[i])
    {
      TypeExactly(schema, columns, values, row, schema.columns[i]);
    }
  }

  /** The insert's checks accept exactly the insertable statements, and the row is the given one. */
  lemma {:induction false} RowToInsertExactly(schema: TableSchema, columns: seq<string>, values: seq<Expr>)
    ensures RowToInsert(schema, columns, values).Some? <==> Insertable(schema, columns, values)
    ensures Insertable(schema, columns, values) ==>
              var row := RowToInsert(schema, columns, values).value; Sorted(row) && Given(schema, columns, values, Contents(row))
  {
    hide RowTypesOk, Given, Supplied, Contents, Sorted, PkOf, IsLiteral, Literals, Slots, Slot, LastSlot, LastAt;
    hide ColumnMap, ColumnNames, FromPairs, IsPrimary, PrimaryKey;
    PrimaryExactly(schema);
    LiteralsExactly(values);
    var names := SlotsAreNames(schema, columns);
    if Literals(values).Some? && |values| == Slots(schema, columns) {
      var vs := Literals(values).value;
      FromPairsExact(names, vs);
      PairedIsGiven(schema, columns, values);
      var row := FromPairs(names, vs);
      TypesExactly(schema, columns, values, row);
      if RowTypesOk(schema, row) {
        TypedHasKey(schema, row);
      }
    }
  }

  lemma {:induction false} TypedHasKey(schema: TableSchema, row: Row)
    requires RowTypesOk(schema, row)
    ensures PkOf(schema, row).Some? <==> PrimaryKey(schema).Some?
  {
    hide HasType, Find;
    if PrimaryKey(schema).Some? {
      FindPrimaryExact(schema.columns);
    }
  }

  /** An INSERT shows at the key of its row and nowhere else. */
  lemma {:induction false} InsertTexts(s: Sql, table: string, columns: seq<string>,
                                       values: seq<Expr>) returns (key: string, row: Row)
    requires Invariant(s) && table in s.catalog.tables && CleanStatement(s, InsertInto(table, columns, values))
    requires RowToInsert(s.catalog.tables[table], columns, values).Some?
    ensures RowToInsert(s.catalog.tables[table], columns, values) == Some(row) && GoodRow(s.catalog.tables[table], row)
    ensures key == StorageKey(table, KeyOf(s.catalog.tables[table], Contents(row))) && HasPrefix(key, TablePrefix(table))
    ensures var m' := ExecInsert(s, table, columns, values).m; Shown(m', key) == Some(Serialize(row)) && TextsStay(s.catalog, s.m, m', {key})
  {
    var schema := s.catalog.tables[table];
    assert GoodSchema(table, schema);
    CatalogIsGood(s.catalog, s.m);
    InsertedIsGood(schema, columns, values);
    row := RowToInsert(schema, columns, values).value;
    hide GoodRow, RowToInsert, RowWrite, CleanRow, GoodKey, RowEntries, Serialize, Shown, GoodCatalog, WellIndexed;
    GoodRowKey(schema, row);
    GoodRowShape(schema, row);
    var pk := KeyOf(schema, Contents(row));
    key := StorageKey(table, pk);
    PrefixOf(TablePrefix(table), StorageString(pk));
    forall k | RowKey(s.catalog, k)
      ensures Shown(ExecInsert(s, table, columns, values).m, k) == if k == key then Some(Serialize(row)) else Shown(s.m, k)
    {
      InsertedShows(s.catalog, schema, s.m, row, k);
    }
    assert RowKey(s.catalog, key);
  }

  /** One row more, in place of what was under its key. */
  lemma {:induction false} RowsWithOne(m: map<string, Value>, m': map<string, Value>, t: string, key: string, row: Row)
    requires HasPrefix(key, TablePrefix(t)) && Shown(m', key) == Some(Serialize(row))
    requires Deserialize(Serialize(row)) == Some(row)
    requires forall k :: HasPrefix(k, TablePrefix(t)) && k != key ==> Shown(m', k) == Shown(m, k)
    ensures RowsOf(Live(m'), t) == RowsOf(Live(m), t)[key := Contents(row)]
  {
    hide Deserialize, Serialize, Contents, HasPrefix, RowsOf, Shown;
    forall k
      ensures k in RowsOf(Live(m'), t) <==> k in RowsOf(Live(m), t)[key := Contents(row)]
      ensures k in RowsOf(Live(m'), t) ==> RowsOf(Live(m'), t)[k] == RowsOf(Live(m), t)[key := Contents(row)][k]
    {
      RowAt(m, t, k);
      RowAt(m', t, k);
    }
  }

  /** INSERT puts exactly the row it gives, under its key, or is refused and changes nothing. */
  lemma {:induction false} InsertAnswered(s: Sql, table: string, columns: seq<string>, values: seq<Expr>)
    requires Invariant(s) && table in s.catalog.tables && CleanStatement(s, InsertInto(table, columns, values))
    ensures var schema, m' := s.catalog.tables[table], ExecInsert(s, table, columns, values).m;
            && InsertMeans(schema, columns, values, RowsOf(Live(s.m), table), RowsOf(Live(m'), table), RowToInsert(schema, columns, values).Some?)
            && OthersStay(s.catalog, s.m, m', table)
  {
    var schema, m' := s.catalog.tables[table], ExecInsert(s, table, columns, values).m;
    RowToInsertExactly(schema, columns, values);
    PrimaryExactly(schema);
    if RowToInsert(schema, columns, values).Some? {
      var key, row := InsertTexts(s, table, columns, values);
      CatalogIsGood(s.catalog, s.m);
      GoodSerialized(schema, row);
      hide CleanStatement, RowToInsert, WellIndexed, GoodCatalog, Serialize, Deserialize, RowsOf, Shown, HasPrefix;
      hide ExecInsert, Insertable, Given;
      TextsDecide(s.catalog, s.m, m', {key}, table);
      forall k | HasPrefix(k, TablePrefix(table)) && k != key
        ensures Shown(m', k) == Shown(s.m, k)
      {
        assert RowKey(s.catalog, k);
      }
      RowsWithOne(s.m, m', table, key, row);
      var i := InsertedKey(schema, row);
    }
  }

  lemma {:induction false} InsertedKey(schema: TableSchema, row: Row) returns (i: int)
    requires GoodRow(schema, row)
    ensures IsPrimary(schema, i) && schema.columns[i].name in Contents(row)
    ensures Contents(row)[schema.columns[i].name] == KeyOf(schema, Contents(row))
  {
    PrimaryExactly(schema);
    KeyIsTyped(schema, Contents(row));
    i :| IsPrimary(schema, i);
  }
}
