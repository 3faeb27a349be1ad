/** From a well indexed state UPDATE and DELETE do to the tables what they mean. */
module ChangeAnswers {
  import opened Order
  import opened SortedMap
  import opened Records
  import opened Ast
  import opened Rows
  import opened IndexKeys
  import opened SqlState
  import opened IndexedTables
  import opened IndexAgreement
  import opened SqlSteps
  import opened Conditions
  import opened StatementMeanings
  import opened RowWrites
  import opened QueryAnswers
  import opened InsertAnswers

  ghost predicate CleanAssignments(assignments: seq<Assignment>) {
    forall i :: 0 <= i < |assignments| ==> CleanLiteral(assignments[i].value)
  }

  /** On a stored row the first column of a name decides for all columns of that name. */
  lemma {:induction false} FirstDecides(schema: TableSchema, row: PlainRow, name: string, e: Expr)
    requires WellTyped(schema, row) && IsLiteral(e)
    ensures (FindNamed(schema.columns, name).Some? ==> HasType(Literal(e).value, FindNamed(schema.columns, name).value.dataType)) <==>
            forall j :: 0 <= j < |schema.columns| && schema.columns[j].name == name ==> Suits(e, schema.columns[j])
  {
    if FindNamed(schema.columns, name).Some? {
      FindNamedExact(schema.columns, name);
    }
    forall j | 0 <= j < |schema.columns| && schema.columns[j].name == name
      ensures FindNamed(schema.columns, name).Some?
    {
      NamedFound(schema.columns, j);
    }
  }

  /** One assignment passes the checks. */
  ghost predicate Fits(schema: TableSchema, row: PlainRow, a: Assignment) {
    && IsLiteral(a.value) && a.column in row
    && (forall j :: IsPrimary(schema, j) ==> schema.columns[j].name != a.column)
    && forall j :: 0 <= j < |schema.columns| && schema.columns[j].name == a.column ==> Suits(a.value, schema.columns[j])
  }

  lemma {:induction false} OneMoreAssignable(schema: TableSchema, row: PlainRow, assignments: seq<Assignment>)
    requires assignments != []
    ensures var n := |assignments| - 1;
            Assignable(schema, row, assignments) <==> Assignable(schema, row, assignments[..n]) && Fits(schema, row, assignments[n])
  {
    hide IsPrimary, Suits, IsLiteral;
    var n := |assignments| - 1;
    assert forall i :: 0 <= i < n ==> assignments[..n][i] == assignments[i];
  }

  lemma {:induction false} SameColumns(schema: TableSchema, row: PlainRow, row': PlainRow, a: Assignment)
    requires row.Keys == row'.Keys
    ensures Fits(schema, row, a) <==> Fits(schema, row', a)
  {
    assert a.column in row <==> a.column in row.Keys;
    assert a.column in row' <==> a.column in row'.Keys;
  }

  lemma {:induction false} OneMoreReassigned(row: PlainRow, assignments: seq<Assignment>, mid: PlainRow, v: RowValue)
    requires assignments != [] && Reassigned(row, assignments[..|assignments| - 1], mid)
    requires assignments[|assignments| - 1].column in row && Spells(assignments[|assignments| - 1].value, v)
    ensures Reassigned(row, assignments, mid[assignments[|assignments| - 1].column := v])
  {
    var n := |assignments| - 1;
    var before, name := assignments[..n], assignments[n].column;
    forall c, i
      ensures LastFor(assignments, c, i) <==> if i == n then c == name else c != name && LastFor(before, c, i)
    {
      assert forall j :: 0 <= j < n ==> before[j] == assignments[j];
    }
    hide LastFor, Spells;
    var row' := mid[name := v];
    assert name in mid.Keys;
    assert row'.Keys == row.Keys;
    forall i | 0 <= i < |assignments| && LastFor(assignments, assignments[i].column, i)
      ensures assignments[i].column in row' && Spells(assignments[i].value, row'[assignments[i].column])
    {
      if i < n {
        assert before[i] == assignments[i];
      }
    }
    forall c | c in row && forall i :: !LastFor(assignments, c, i)
      ensures row'[c] == row[c]
    {
      assert LastFor(assignments, c, n) <==> c == name;
      assert forall i :: !LastFor(before, c, i);
    }
  }

  /** The assignments are accepted exactly when each fits the row, and make the row they mean. */
  lemma {:induction false} AssignedExactly(schema: TableSchema, row: Row, assignments: seq<Assignment>)
    requires GoodRow(schema, row) && CleanAssignments(assignments)
    ensures Assigned(schema, row, assignments).Some? <==> Assignable(schema, Contents(row), assignments)
    ensures Assigned(schema, row, assignments).Some? ==>
              Reassigned(Contents(row), assignments, Contents(Assigned(schema, row, assignments).value))
  {
    if assignments != [] {
      var n := |assignments| - 1;
      var a := assignments[n];
      AssignedExactly(schema, row, assignments[..n]);
      OneMoreAssignable(schema, Contents(row), assignments);
      PrimaryExactly(schema);
      LiteralExactly(a.value);
      if Assigned(schema, row, assignments[..n]).Some? {
        var r := Assigned(schema, row, assignments[..n]).value;
        AssignedIsGood(schema, row, assignments[..n]);
        GoodRowShape(schema, r);
        SameColumns(schema, Contents(row), Contents(r), a);
        OneAssignedExactly(schema, r, a);
        hide GoodRow, Assignable, Reassigned, Contents, Literal, IsLiteral, Suits, HasType, IsPrimary, Fits;
        hide CleanLiteral, Update, PrimaryKey, FindNamed;
        if Fits(schema, Contents(r), a) {
          OneMoreReassigned(Contents(row), assignments, Contents(r), Literal(a.value).value);
        }
      }
    }
  }

  /** What one assignment does to a good row. */
  lemma {:induction false} OneAssignedExactly(schema: TableSchema, r: Row, a: Assignment)
    requires GoodRow(schema, r)
    ensures var q := match (PrimaryKey(schema), Literal(a.value))
                     case (Some(pk), Some(v)) =>
                       if a.column == pk.name then None
                       else
                         var c := FindNamed(schema.columns, a.column);
                         if c.Some? && !HasType(v, c.value.dataType) then None else Update(r, a.column, v)
                     case _ => None;
            && (q.Some? <==> Fits(schema, Contents(r), a))
            && (q.Some? ==> a.column in Contents(r) && Spells(a.value, Literal(a.value).value) && Contents(q.value) == Contents(r)[a.column := Literal(a.value).value])
  {
    PrimaryExactly(schema);
    LiteralExactly(a.value);
    hide Contents, Update, CleanRow, GoodKey, FindNamed, PrimaryKey, Spells, Suits, HasType;
    if IsLiteral(a.value) {
      FirstDecides(schema, Contents(r), a.column, a.value);
      UpdateExact(r, a.column, Literal(a.value).value);
    }
  }

  /** What is found is stored, and one row under each key. */
  lemma {:induction false} SelectedAreStored(catalog: Catalog, m: map<string, Value>, t: string, e: Expr,
                                             found: seq<KeyedRow>)
    requires WellIndexed(catalog, m) && t in catalog.tables && Selects(RowsOf(Live(m), t), e, Some(found))
    ensures AllStored(catalog.tables[t], found) && OneRowAKey(found)
    ensures forall p :: p in found ==> HasPrefix(p.0, TablePrefix(t))
  {
    hide WellIndexed, StoredRow, RowsOf, LiveRow, Sorted, Contents, Live, Holds, Fails, HasPrefix;
    forall p | p in found
      ensures StoredRow(catalog.tables[t], p) && HasPrefix(p.0, TablePrefix(t))
    {
      LiveRowReads(Live(m), t, p);
      LiveRowIsStored(catalog, m, t, p);
      LiveRowPrefix(Live(m), t, p);
    }
    forall i, j | 0 <= i < |found| && 0 <= j < |found| && found[i].0 == found[j].0
      ensures found[i].1 == found[j].1
    {
      assert found[i] in found && found[j] in found;
      ListingUnique(found[i].1, found[j].1);
    }
  }

  lemma {:induction false} LiveRowPrefix(live: map<string, string>, t: string, p: KeyedRow)
    requires LiveRow(live, TablePrefix(t), p)
    ensures HasPrefix(p.0, TablePrefix(t))
  {
  }

  lemma {:induction false} FoundKey(found: seq<KeyedRow>, k: string)
    ensures HasKey(found, k) <==> k in KeysOf(found)
  {
    if HasKey(found, k) {
      var i :| 0 <= i < |found| && found[i].0 == k;
      assert KeysOf(found)[i] == k;
    }
  }

  ghost function KeySet(found: seq<KeyedRow>): set<string> {
    set k | k in KeysOf(found)
  }

  lemma {:induction false} FoundPrefix(found: seq<KeyedRow>, n: nat)
    requires n <= |found|
    ensures KeysOf(found[..n]) == KeysOf(found)[..n]
  {
  }

  /** The keys found are those of the rows the condition holds for. */
  lemma {:induction false} FoundHold(rows: PlainTable, e: Expr, found: seq<KeyedRow>)
    requires Selects(rows, e, Some(found)) && forall k :: k in rows ==> exists row: Row :: Sorted(row) && Contents(row) == rows[k]
    ensures forall k :: k in KeysOf(found) <==> k in rows && Holds(rows[k], e)
  {
    hide Sorted, Contents, Holds, Fails;
    forall k
      ensures k in KeysOf(found) <==> k in rows && Holds(rows[k], e)
    {
      if k in KeysOf(found) {
        var i :| 0 <= i < |found| && KeysOf(found)[i] == k;
        assert found[i] in found;
      }
      if k in rows && Holds(rows[k], e) {
        var row: Row :| Sorted(row) && Contents(row) == rows[k];
        assert (k, row) in found;
        var i :| 0 <= i < |found| && found[i] == (k, row);
        assert KeysOf(found)[i] == k;
      }
    }
  }

  lemma {:induction false} RowsAreSorted(live: map<string, string>, t: string)
    ensures forall k :: k in RowsOf(live, t) ==> exists row: Row :: Sorted(row) && Contents(row) == RowsOf(live, t)[k]
  {
    hide RowsOf, Sorted, Contents, LiveRow;
    forall k | k in RowsOf(live, t)
      ensures exists row: Row :: Sorted(row) && Contents(row) == RowsOf(live, t)[k]
    {
      var p := RowIsRead(live, t, k);
      assert Sorted(p.1) && Contents(p.1) == RowsOf(live, t)[k];
    }
  }

  /** Rows whose texts are gone are gone, and only they. */
  lemma {:induction false} RowsWithout(m: map<string, Value>, m': map<string, Value>, t: string, keys: set<string>)
    requires forall k :: HasPrefix(k, TablePrefix(t)) ==> Shown(m', k) == if k in keys then None else Shown(m, k)
    ensures RowsOf(Live(m'), t) == Without(RowsOf(Live(m), t), keys)
  {
    hide RowsOf, Live, Shown, HasPrefix, Deserialize, Contents;
    var rows, rows' := RowsOf(Live(m), t), RowsOf(Live(m'), t);
    forall k
      ensures k in rows' <==> k in rows && k !in keys
      ensures k in rows' ==> rows'[k] == rows[k]
    {
      RowAt(m, t, k);
      RowAt(m', t, k);
    }
  }

  /** Erasing rows leaves all other texts. */
  lemma {:induction false} ErasedTexts(catalog: Catalog, m: map<string, Value>, t: string, found: seq<KeyedRow>)
    requires GoodCatalog(catalog) && t in catalog.tables && AllStored(catalog.tables[t], found)
    ensures var m' := DeleteAll(catalog, catalog.tables[t], m, found);
            && (forall k :: RowKey(catalog, k) ==> Shown(m', k) == if k in KeySet(found) then None else Shown(m, k))
            && TextsStay(catalog, m, m', KeySet(found))
  {
    assert GoodSchema(t, catalog.tables[t]);
    var schema := catalog.tables[t];
    hide GoodCatalog, StoredRow, DeleteAll, RowsOf, Live, Shown, HasPrefix, HasKey, GoodSchema, RowKey;
    forall k | RowKey(catalog, k)
      ensures Shown(DeleteAll(catalog, schema, m, found), k) == if k in KeySet(found) then None else Shown(m, k)
    {
      ErasedShows(catalog, schema, m, found, k);
      FoundKey(found, k);
    }
  }

  lemma {:induction false} PrefixedKeys(found: seq<KeyedRow>, prefix: string)
    requires forall p :: p in found ==> HasPrefix(p.0, prefix)
    ensures forall k :: k in KeySet(found) ==> HasPrefix(k, prefix)
  {
    hide HasPrefix;
    forall k | k in KeySet(found)
      ensures HasPrefix(k, prefix)
    {
      var i :| 0 <= i < |found| && KeysOf(found)[i] == k;
      assert found[i] in found;
    }
  }

  /** Erased rows are gone, and only they. */
  lemma {:induction false} ErasedRows(catalog: Catalog, m: map<string, Value>, t: string, found: seq<KeyedRow>)
    requires GoodCatalog(catalog) && t in catalog.tables && AllStored(catalog.tables[t], found)
    requires forall p :: p in found ==> HasPrefix(p.0, TablePrefix(t))
    ensures var m', rows := DeleteAll(catalog, catalog.tables[t], m, found), RowsOf(Live(m), t);
            && RowsOf(Live(m'), t) == Without(rows, KeySet(found))
            && TextsStay(catalog, m, m', KeySet(found)) && OthersStay(catalog, m, m', t)
  {
    hide KeySet, GoodCatalog, AllStored, DeleteAll, RowsOf, Live, Shown, HasPrefix, TextsStay, OthersStay;
    ErasedTexts(catalog, m, t, found);
    PrefixedKeys(found, TablePrefix(t));
    var m' := DeleteAll(catalog, catalog.tables[t], m, found);
    assert forall k :: HasPrefix(k, TablePrefix(t)) ==> RowKey(catalog, k);
    TextsDecide(catalog, m, m', KeySet(found), t);
    RowsWithout(m, m', t, KeySet(found));
  }

  /** A key lookup finds at most one row. */
  lemma {:induction false} KeyLookupFindsOne(catalog: Catalog, m: map<string, Value>, t: string, e: Expr,
                                             found: seq<KeyedRow>)
    requires WellIndexed(catalog, m) && t in catalog.tables && Selects(RowsOf(Live(m), t), e, Some(found))
    requires IsKeyLookup(catalog.tables[t], e)
    ensures forall i, j :: 0 <= i < |found| && 0 <= j < |found| ==> found[i] == found[j]
  {
    SelectedAreStored(catalog, m, t, e, found);
    var schema := catalog.tables[t];
    hide WellIndexed, RowsOf, Sorted, Contents, GoodRow, StorageString, Fails;
    forall i, j | 0 <= i < |found| && 0 <= j < |found|
      ensures found[i].0 == found[j].0
    {
      assert found[i] in found && found[j] in found;
      KeyIsLiteral(schema, found[i], e);
      KeyIsLiteral(schema, found[j], e);
    }
  }

  lemma {:induction false} KeyIsLiteral(schema: TableSchema, p: KeyedRow, e: Expr)
    requires StoredRow(schema, p) && IsKeyLookup(schema, e) && Holds(Contents(p.1), e)
    ensures p.0 == StorageKey(schema.name, Literal(e.right).value)
  {
    GoodRowShape(schema, p.1);
    KeyIsTyped(schema, Contents(p.1));
    hide Contents, GoodRow, StorageString, PrimaryKey, WellTyped;
    var w :| Spells(e.right, w) && Admits(Equal, Contents(p.1)[PrimaryKey(schema).value.name], w);
    SpellsOne(e.right, w);
  }

  /** Of rows that are all the same the first stands for all. */
  lemma {:induction false} FirstIsAll(found: seq<KeyedRow>, victims: seq<KeyedRow>)
    requires victims == found ||
             (found != [] && victims == found[..1] && forall i, j :: 0 <= i < |found| && 0 <= j < |found| ==> found[i] == found[j])
    ensures KeySet(victims) == KeySet(found)
    ensures forall p :: p in victims ==> p in found
  {
    if victims != found {
      assert KeysOf(victims)[0] == KeysOf(found)[0];
    }
  }

  /** The rows a DELETE takes out are stored, and are all that its condition holds for. */
  lemma {:induction false} VictimsMatch(catalog: Catalog, m: map<string, Value>, t: string, e: Expr,
                                        found: seq<KeyedRow>, victims: seq<KeyedRow>)
    requires WellIndexed(catalog, m) && t in catalog.tables && Selects(RowsOf(Live(m), t), e, Some(found))
    requires victims == if IsKeyLookup(catalog.tables[t], e) && found != [] then found[..1] else found
    ensures AllStored(catalog.tables[t], victims) && KeySet(victims) == Matching(RowsOf(Live(m), t), e)
    ensures forall p :: p in victims ==> HasPrefix(p.0, TablePrefix(t))
  {
    hide WellIndexed, RowsOf, Live, IsKeyLookup, Holds, Fails, Sorted, Contents, HasPrefix, StoredRow, KeysOf;
    SelectedAreStored(catalog, m, t, e, found);
    if IsKeyLookup(catalog.tables[t], e) {
      KeyLookupFindsOne(catalog, m, t, e, found);
    }
    FirstIsAll(found, victims);
    RowsAreSorted(Live(m), t);
    FoundHold(RowsOf(Live(m), t), e, found);
    assert KeySet(found) == Matching(RowsOf(Live(m), t), e);
  }

  /** Erasing the rows found leaves those the condition does not hold for. */
  lemma {:induction false} DeleteFound(catalog: Catalog, m: map<string, Value>, t: string, e: Expr, found: seq<KeyedRow>)
    requires WellIndexed(catalog, m) && t in catalog.tables && Selects(RowsOf(Live(m), t), e, Some(found))
    ensures var schema, rows := catalog.tables[t], RowsOf(Live(m), t);
            var victims := if IsKeyLookup(schema, e) && found != [] then found[..1] else found;
            var m' := DeleteAll(catalog, schema, m, victims);
            && RowsOf(Live(m'), t) == Without(rows, Matching(rows, e))
            && TextsStay(catalog, m, m', Matching(rows, e)) && OthersStay(catalog, m, m', t)
  {
    hide Selects, Without, Matching, WellIndexed, GoodCatalog, RowsOf, Live, IsKeyLookup, DeleteAll, HasPrefix;
    hide TextsStay, OthersStay, AllStored, KeySet;
    CatalogIsGood(catalog, m);
    var victims := if IsKeyLookup(catalog.tables[t], e) && found != [] then found[..1] else found;
    VictimsMatch(catalog, m, t, e, found, victims);
    ErasedRows(catalog, m, t, victims);
  }

  /** DELETE leaves exactly the rows its condition does not hold for; when the condition fails on a row it changes nothing. */
  lemma {:induction false} DeleteAnswered(s: Sql, table: string, e: Expr)
    requires Invariant(s) && table in s.catalog.tables && Answered(s.catalog, s.catalog.tables[table], e)
    ensures var schema, m' := s.catalog.tables[table], ExecDelete(s, table, Some(e)).m;
            && DeleteMeans(e, RowsOf(Live(s.m), table), RowsOf(Live(m'), table), DeleteTargets(s.catalog, Listing(s.m), schema, e).Some?)
            && TextsStay(s.catalog, s.m, m', Matching(RowsOf(Live(s.m), table), e))
            && OthersStay(s.catalog, s.m, m', table)
  {
    hide Matching, Without, GoodCatalog, FetchMatching, RowsOf, Live, IsKeyLookup, Holds, Fails, DeleteAll;
    hide Listing, Shown, Sorted, Contents, RowKey, WellIndexed, Answered;
    QueryAnswered(s.catalog, Listing(s.m), table, e);
    var r := FetchMatching(s.catalog, Listing(s.m), s.catalog.tables[table], e);
    if r.Some? {
      DeleteFound(s.catalog, s.m, table, e, r.value);
    }
  }

  /** A rewritten record reads as the row the assignments make. */
  lemma {:induction false} RewrittenRow(schema: TableSchema, m: map<string, Value>, m': map<string, Value>, t: string,
                                        assignments: seq<Assignment>, p: KeyedRow)
    requires StoredRow(schema, p) && CleanAssignments(assignments) && Assigned(schema, p.1, assignments).Some?
    requires HasPrefix(p.0, TablePrefix(t))
    requires Shown(m', p.0) == Some(Serialize(Assigned(schema, p.1, assignments).value))
    ensures p.0 in RowsOf(Live(m'), t) && Reassigned(Contents(p.1), assignments, RowsOf(Live(m'), t)[p.0])
  {
    AssignedIsGood(schema, p.1, assignments);
    AssignedExactly(schema, p.1, assignments);
    hide GoodRow, CleanLiteral, Assigned, Serialize, Deserialize, RowsOf, Live, Shown, HasPrefix, Contents;
    hide Reassigned, KeyOf;
    GoodSerialized(schema, Assigned(schema, p.1, assignments).value);
    RowAt(m', t, p.0);
  }

  /** The rows found, with their keys. */
  ghost predicate FoundIn(rows: PlainTable, found: seq<KeyedRow>) {
    forall p :: p in found ==> p.0 in rows && Contents(p.1) == rows[p.0]
  }

  /** What the records show is what the rows are. */
  lemma {:induction false} RewrittenRows(schema: TableSchema, m: map<string, Value>, m': map<string, Value>,
                                         t: string, assignments: seq<Assignment>, done: seq<KeyedRow>)
    requires AllStored(schema, done) && CleanAssignments(assignments) && FoundIn(RowsOf(Live(m), t), done)
    requires forall k :: HasPrefix(k, TablePrefix(t)) ==> ShowsRewritten(schema, m, done, assignments, m', k)
    ensures Rewritten(RowsOf(Live(m), t), assignments, KeysOf(done), RowsOf(Live(m'), t))
  {
    hide StoredRow, CleanAssignments, Assigned, Serialize, RowsOf, Live, Shown, HasPrefix, Contents, Reassigned;
    hide KeysOf, Deserialize;
    var rows, rows' := RowsOf(Live(m), t), RowsOf(Live(m'), t);
    forall k
      ensures k in rows' <==> k in rows
      ensures k in rows ==> if k in KeysOf(done) then Reassigned(rows[k], assignments, rows'[k]) else rows'[k] == rows[k]
    {
      RowAt(m, t, k);
      RowAt(m', t, k);
      FoundKey(done, k);
      if i :| 0 <= i < |done| && done[i].0 == k {
        assert done[i] in done;
        RewrittenRow(schema, m, m', t, assignments, done[i]);
      }
    }
    assert forall k :: k in rows.Keys <==> k in rows'.Keys;
  }

  lemma {:induction false} UpdatedTexts(catalog: Catalog, m: map<string, Value>, t: string, found: seq<KeyedRow>,
                                        assignments: seq<Assignment>)
    requires GoodCatalog(catalog) && t in catalog.tables && AllStored(catalog.tables[t], found)
    requires OneRowAKey(found) && CleanAssignments(assignments)
    ensures var schema := catalog.tables[t];
            var (m', ok) := UpdateAll(catalog, schema, m, found, assignments);
            var n := Taken(schema, found, assignments);
            && (ok <==> n == |found|) && TextsStay(catalog, m, m', KeySet(found))
            && forall k :: RowKey(catalog, k) ==> ShowsRewritten(schema, m, found[..n], assignments, m', k)
  {
    assert GoodSchema(t, catalog.tables[t]);
    var schema := catalog.tables[t];
    hide GoodCatalog, StoredRow, UpdateAll, Shown, HasPrefix, GoodSchema, RowKey, Taken, Assigned, Serialize;
    hide CleanLiteral, KeysOf, HasKey, OneRowAKey, AllStored;
    var m', n := UpdateAll(catalog, schema, m, found, assignments).0, Taken(schema, found, assignments);
    UpdateEnds(catalog, schema, m, found, assignments);
    forall k | RowKey(catalog, k)
      ensures ShowsRewritten(schema, m, found[..n], assignments, m', k)
      ensures k !in KeySet(found) ==> Shown(m', k) == Shown(m, k)
    {
      UpdatedShows(catalog, schema, m, found, assignments, k);
      FoundKey(found, k);
      FewerKeys(found, n, k);
    }
  }

  lemma {:induction false} FewerKeys(found: seq<KeyedRow>, n: nat, k: string)
    requires n <= |found|
    ensures HasKey(found[..n], k) ==> HasKey(found, k)
  {
    if i :| 0 <= i < n && found[..n][i].0 == k {
      assert found[i].0 == k;
    }
  }

  /** Updating the rows found rewrites them as far as they take the assignments. */
  lemma {:induction false} UpdateFound(catalog: Catalog, m: map<string, Value>, t: string, e: Expr,
                                       found: seq<KeyedRow>, assignments: seq<Assignment>)
    requires WellIndexed(catalog, m) && t in catalog.tables && Selects(RowsOf(Live(m), t), e, Some(found))
    requires CleanAssignments(assignments)
    ensures var schema, rows := catalog.tables[t], RowsOf(Live(m), t);
            var (m', ok) := UpdateAll(catalog, schema, m, found, assignments);
            && UpdateStopsAt(schema, e, assignments, rows, RowsOf(Live(m'), t), ok, KeysOf(found), Taken(schema, found, assignments))
            && TextsStay(catalog, m, m', Matching(rows, e)) && OthersStay(catalog, m, m', t)
  {
    hide WellIndexed, GoodCatalog, RowsOf, Live, Holds, Fails, Sorted, Contents, HasPrefix, StoredRow, KeysOf;
    hide UpdateAll, Taken, Assigned, Assignable;
    hide CleanAssignments, TextsStay, OthersStay, ShowsRewritten, Rewritten;
    CatalogIsGood(catalog, m);
    var schema, rows := catalog.tables[t], RowsOf(Live(m), t);
    var (m', ok) := UpdateAll(catalog, schema, m, found, assignments);
    var n := Taken(schema, found, assignments);
    SelectedAreStored(catalog, m, t, e, found);
    RowsAreSorted(Live(m), t);
    FoundHold(rows, e, found);
    assert KeySet(found) == Matching(rows, e);
    PrefixedKeys(found, TablePrefix(t));
    UpdatedTexts(catalog, m, t, found, assignments);
    TextsDecide(catalog, m, m', KeySet(found), t);
    assert forall k :: HasPrefix(k, TablePrefix(t)) ==> RowKey(catalog, k);
    RewrittenRows(schema, m, m', t, assignments, found[..n]);
    FoundPrefix(found, n);
    forall i | 0 <= i < |found|
      ensures Assignable(schema, rows[KeysOf(found)[i]], assignments) <==> Assigned(schema, found[i].1, assignments).Some?
    {
      assert found[i] in found;
      AssignedOfStored(schema, found[i], assignments);
    }
  }

  lemma {:induction false} AssignedOfStored(schema: TableSchema, p: KeyedRow, assignments: seq<Assignment>)
    requires StoredRow(schema, p) && CleanAssignments(assignments)
    ensures Assigned(schema, p.1, assignments).Some? <==> Assignable(schema, Contents(p.1), assignments)
  {
    AssignedExactly(schema, p.1, assignments);
  }

  /** What an UPDATE's path asks of its condition: a key lookup, that the literal has the key's type; an index, that
      its range finds every match; a scan, nothing. */
  predicate Reachable(catalog: Catalog, schema: TableSchema, e: Expr) {
    if IsKeyLookup(schema, e) then HasType(Literal(e.right).value, PrimaryKey(schema).value.dataType)
    else Answered(catalog, schema, e)
  }

  /** The rows come in the order of their keys: there is one, or they are scanned. */
  predicate Scanned(catalog: Catalog, schema: TableSchema, e: Expr) {
    IsKeyLookup(schema, e) || FindUsableIndex(catalog, schema.name, e).None?
  }

  /** The rows an UPDATE is about are those its condition holds for. */
  lemma {:induction false} TargetsAnswered(s: Sql, table: string, e: Expr)
    requires Invariant(s) && table in s.catalog.tables && Reachable(s.catalog, s.catalog.tables[table], e)
    ensures Selects(RowsOf(Live(s.m), table), e, UpdateTargets(s.catalog, Listing(s.m), s.catalog.tables[table], e))
  {
    var schema := s.catalog.tables[table];
    if IsKeyLookup(schema, e) {
      TableReadable(s.catalog, s.m, table);
      ScanAnswers(Listing(s.m), table, e);
      KeyPathEqualsScanPath(s, table, e);
    } else {
      QueryAnswered(s.catalog, Listing(s.m), table, e);
    }
  }

  /** With a literal of the other type the condition fails on every row, but the key path looks the literal's text up. */
  lemma {:induction false} OtherTypeFails(schema: TableSchema, row: PlainRow, e: Expr)
    requires PrimaryKey(schema).Some? && WellTyped(schema, row) && IsKeyLookup(schema, e)
    requires !HasType(Literal(e.right).value, PrimaryKey(schema).value.dataType)
    ensures Fails(row, e)
  {
    KeyIsTyped(schema, row);
    hide WellTyped, PrimaryKey;
    forall w | Spells(e.right, w)
      ensures Literal(e.right) == Some(w)
    {
      SpellsOne(e.right, w);
    }
  }

  lemma {:induction false} EmptyHasNoKey(s: Sql, table: string, e: Expr)
    requires Invariant(s) && table in s.catalog.tables && IsKeyLookup(s.catalog.tables[table], e)
    ensures var r := UpdateTargets(s.catalog, Listing(s.m), s.catalog.tables[table], e);
            r.Some? && (RowsOf(Live(s.m), table) == map[] ==> r.value == [])
  {
    var schema := s.catalog.tables[table];
    TableReadable(s.catalog, s.m, table);
    var lit := Literal(e.right).value;
    var key := StorageKey(table, lit);
    FindIsLookup(Listing(s.m), key);
    PrefixOf(TablePrefix(table), StorageString(lit));
    RowAt(s.m, table, key);
    hide WellIndexed, Listing, Deserialize, Sorted, Find, HasPrefix, StorageString, TablePrefix, Contents;
  }

  /** The key path of UPDATE answers "primary key = literal" exactly when the literal has the key's type or the table is empty. */
  lemma {:induction false} KeyPathExactly(s: Sql, table: string, e: Expr)
    requires Invariant(s) && table in s.catalog.tables && IsKeyLookup(s.catalog.tables[table], e)
    ensures Selects(RowsOf(Live(s.m), table), e, UpdateTargets(s.catalog, Listing(s.m), s.catalog.tables[table], e)) <==>
            HasType(Literal(e.right).value, PrimaryKey(s.catalog.tables[table]).value.dataType) || RowsOf(Live(s.m), table) == map[]
  {
    var schema, rows := s.catalog.tables[table], RowsOf(Live(s.m), table);
    EmptyHasNoKey(s, table, e);
    if HasType(Literal(e.right).value, PrimaryKey(schema).value.dataType) {
      TargetsAnswered(s, table, e);
    } else {
      hide Invariant, UpdateTargets, Live, Fails, Holds, HasType, WellTyped, GoodRow, LiveRow, Sorted, Contents;
      hide RowsOf, PrimaryKey, Listing;
      forall k | k in rows
        ensures Fails(rows[k], e)
      {
        var p := RowIsRead(Live(s.m), table, k);
        LiveRowIsStored(s.catalog, s.m, table, p);
        GoodRowShape(schema, p.1);
        OtherTypeFails(schema, rows[k], e);
      }
      SomeKey(rows);
    }
  }

  lemma {:induction false} SomeKey(rows: PlainTable)
    ensures rows == map[] || exists k :: k in rows
  {
  }

  lemma {:induction false} TargetsAscend(s: Sql, table: string, e: Expr)
    requires Invariant(s) && table in s.catalog.tables && Reachable(s.catalog, s.catalog.tables[table], e)
    requires Scanned(s.catalog, s.catalog.tables[table], e)
    requires UpdateTargets(s.catalog, Listing(s.m), s.catalog.tables[table], e).Some?
    ensures Ascending(KeysOf(UpdateTargets(s.catalog, Listing(s.m), s.catalog.tables[table], e).value))
  {
    var schema := s.catalog.tables[table];
    TableReadable(s.catalog, s.m, table);
    hide WellIndexed, ScanMatching, Listing, Less, Sorted, Find, Deserialize;
    if !IsKeyLookup(schema, e) {
      ScanListsInOrder(Listing(s.m), table, e);
    }
  }

  lemma {:induction false} StopsMeans(schema: TableSchema, e: Expr, assignments: seq<Assignment>, scanned: bool,
                                      rows: PlainTable, rows': PlainTable, ok: bool,
                                      targets: seq<KeyedRow>, n: nat)
    requires Selects(rows, e, Some(targets)) && (scanned ==> Ascending(KeysOf(targets)))
    requires UpdateStopsAt(schema, e, assignments, rows, rows', ok, KeysOf(targets), n)
    ensures UpdateMeans(schema, e, assignments, scanned, rows, rows', ok)
  {
    hide UpdateStopsAt, Ascending, KeysOf;
  }

  /** UPDATE rewrites exactly the rows its condition holds for, as far as they take the assignments; when the condition
      fails on a row it changes nothing. */
  lemma {:induction false} UpdateAnswered(s: Sql, table: string, assignments: seq<Assignment>, e: Expr)
    requires Invariant(s) && table in s.catalog.tables && CleanAssignments(assignments)
    requires Reachable(s.catalog, s.catalog.tables[table], e)
    ensures var schema, m' := s.catalog.tables[table], ExecUpdate(s, table, assignments, Some(e)).m;
            var rows, targets := RowsOf(Live(s.m), table), UpdateTargets(s.catalog, Listing(s.m), schema, e);
            && UpdateMeans(schema, e, assignments, Scanned(s.catalog, schema, e), rows, RowsOf(Live(m'), table),
                           targets.Some? && UpdateAll(s.catalog, schema, s.m, targets.value, assignments).1)
            && TextsStay(s.catalog, s.m, m', Matching(rows, e)) && OthersStay(s.catalog, s.m, m', table)
  {
    hide GoodCatalog, UpdateTargets, RowsOf, Live, Holds, Fails, UpdateAll, Listing, Shown, Sorted, Contents;
    hide RowKey, WellIndexed, Reachable, Scanned;
    hide UpdateStopsAt, Matching, CleanAssignments, Ascending, KeysOf, Taken;
    var schema := s.catalog.tables[table];
    TargetsAnswered(s, table, e);
    var rows, targets := RowsOf(Live(s.m), table), UpdateTargets(s.catalog, Listing(s.m), schema, e);
    if targets.Some? {
      hide UpdateMeans, Selects, TextsStay, OthersStay;
      if Scanned(s.catalog, schema, e) {
        TargetsAscend(s, table, e);
      }
      UpdateFound(s.catalog, s.m, table, e, targets.value, assignments);
      var (m', ok) := UpdateAll(s.catalog, schema, s.m, targets.value, assignments);
      StopsMeans(schema, e, assignments, Scanned(s.catalog, schema, e), rows, RowsOf(Live(m'), table), ok, targets.value, Taken(schema, targets.value, assignments));
    }
  }
}
