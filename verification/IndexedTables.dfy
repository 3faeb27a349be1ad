/** The invariant between tables and their indexes, and why every write of a row keeps it. */
module IndexedTables {
  import opened Seqs
  import opened SortedMap
  import opened Records
  import opened Text
  import opened Rows
  import opened IndexKeys
  import opened SqlState

  const INDEX: string := "__index__"
  const SCHEMA: string := "__schema__"
  const INDEX_META: string := "__index_meta__"

  /** A table name without the separator that is none of the names the engine keeps its own records under. */
  predicate GoodName(name: string) {
    Free(name, ':') && name != INDEX && name != SCHEMA && name != INDEX_META
  }

  /** Every column of the table has a value of its type. */
  predicate WellTyped(schema: TableSchema, row: map<string, RowValue>) {
    forall i :: 0 <= i < |schema.columns| ==>
      var c := schema.columns[i]; c.name in row && HasType(row[c.name], c.dataType)
  }

  function KeyOf(schema: TableSchema, row: map<string, RowValue>): RowValue
    requires PrimaryKey(schema).Some? && WellTyped(schema, row)
  {
    FindPrimaryExact(schema.columns);
    row[PrimaryKey(schema).value.name]
  }

  lemma {:induction false} FindPrimaryExact(columns: seq<Column>)
    requires FindPrimary(columns).Some?
    ensures exists i :: 0 <= i < |columns| && columns[i] == FindPrimary(columns).value
  {
    if !columns[0].primaryKey {
      FindPrimaryExact(columns[1..]);
      var i :| 0 <= i < |columns[1..]| && columns[1..][i] == FindPrimary(columns).value;
      assert columns[i + 1] == FindPrimary(columns).value;
    }
  }

  ghost predicate GoodRow(schema: TableSchema, row: Row) {
    && Sorted(row) && CleanRow(row) && PrimaryKey(schema).Some? && WellTyped(schema, Contents(row))
    && GoodKey(StorageString(KeyOf(schema, Contents(row))))
  }

  ghost predicate GoodSchema(name: string, schema: TableSchema) {
    schema.name == name && GoodName(name) && PrimaryKey(schema).Some?
  }

  ghost predicate HasColumn(schema: TableSchema, name: string) {
    exists i :: 0 <= i < |schema.columns| && schema.columns[i].name == name
  }

  ghost predicate GoodCatalog(catalog: Catalog) {
    && (forall t :: t in catalog.tables ==> GoodSchema(t, catalog.tables[t]))
    && (forall n :: n in catalog.indexes ==>
          var ix := catalog.indexes[n];
          ix.tableName in catalog.tables && HasColumn(catalog.tables[ix.tableName], ix.columnName))
  }

  function IndexPrefix(table: string): string {
    "__index__:" + TablePrefix(table)
  }

  /** The text is what a primary key of this table prints as. */
  ghost predicate ReadableKey(schema: TableSchema, pk: string) {
    PrimaryKey(schema).Some? && ReadKey(PrimaryKey(schema).value.dataType, pk).Some? &&
    StorageString(ReadKey(PrimaryKey(schema).value.dataType, pk).value) == pk
  }

  /** The live record under `k` is a row of the table, stored under its own key, with all its index entries. */
  ghost predicate IndexedRow(catalog: Catalog, schema: TableSchema, live: map<string, string>, k: string)
    requires k in live
  {
    && Deserialize(live[k]).Some? && var row := Deserialize(live[k]).value;
    && GoodRow(schema, row)
    && k == StorageKey(schema.name, KeyOf(schema, Contents(row)))
    && forall c :: c in IndexedColumns(catalog, schema.name) ==>
         c in Contents(row) && IndexKey(schema.name, c, Contents(row)[c], KeyOf(schema, Contents(row))) in live
  }

  /** Every stored key belongs to a table, to an index of a table, or to the catalog's own records. */
  ghost predicate KnownKey(catalog: Catalog, k: string) {
    || HasPrefix(k, TablePrefix(SCHEMA)) || HasPrefix(k, TablePrefix(INDEX_META))
    || (exists t :: t in catalog.tables && HasPrefix(k, TablePrefix(t)))
    || (exists t :: t in catalog.tables && HasPrefix(k, IndexPrefix(t)))
  }

  ghost predicate RowsIndexed(catalog: Catalog, live: map<string, string>) {
    forall t, k :: t in catalog.tables && k in live && HasPrefix(k, TablePrefix(t)) ==>
      IndexedRow(catalog, catalog.tables[t], live, k)
  }

  ghost predicate EntriesReadable(catalog: Catalog, m: map<string, Value>) {
    forall t, k :: t in catalog.tables && k in m && HasPrefix(k, IndexPrefix(t)) ==>
      ReadableKey(catalog.tables[t], LastPiece(k, ':'))
  }

  ghost predicate KeysKnown(catalog: Catalog, m: map<string, Value>) {
    forall k :: k in m ==> KnownKey(catalog, k)
  }

  /** The invariant of the SQL layer over the raw map of the engine. */
  ghost predicate WellIndexed(catalog: Catalog, m: map<string, Value>) {
    GoodCatalog(catalog) && RowsIndexed(catalog, Live(m)) && EntriesReadable(catalog, m) && KeysKnown(catalog, m)
  }

  /** A prefix that ends with the separator is read off a key unambiguously. */
  lemma {:induction false} PrefixesDiffer(a: string, b: string, k: string)
    requires Free(a, ':') && Free(b, ':') && HasPrefix(k, TablePrefix(a)) && HasPrefix(k, TablePrefix(b))
    ensures a == b
  {
    TakeDrop(k, |TablePrefix(a)|);
    TakeDrop(k, |TablePrefix(b)|);
    SplitOnceField(a, k[|TablePrefix(a)|..], ':');
    SplitOnceField(b, k[|TablePrefix(b)|..], ':');
  }

  lemma {:induction false} PrefixOf(p: string, rest: string)
    ensures HasPrefix(p + rest, p)
  {
  }

  lemma {:induction false} LongerPrefix(k: string, p: string, q: string)
    requires HasPrefix(k, p + q)
    ensures HasPrefix(k, p) && HasPrefix(k[|p|..], q)
  {
    assert k[..|p|] == k[..|p + q|][..|p|];
    assert k[|p|..][..|q|] == k[..|p + q|][|p|..];
  }

  /** An index key begins with its table's index prefix. */
  lemma {:induction false} IndexKeyPrefix(t: string, c: string, v: RowValue, pk: RowValue)
    ensures HasPrefix(IndexKey(t, c, v, pk), IndexPrefix(t))
  {
    var rest := EncodeIndexValue(v) + ":" + StorageString(pk);
    hide EncodeIndexValue, StorageString, HasPrefix;
    ConcatAssociates(IndexPrefix(t), c + ":", rest);
    PrefixOf(IndexPrefix(t), c + ":" + rest);
  }

  /** An index key is no row key of any table, and no index key of another table. */
  lemma {:induction false} IndexKeyApart(t: string, k: string, u: string)
    requires GoodName(t) && GoodName(u) && HasPrefix(k, IndexPrefix(t))
    ensures !HasPrefix(k, TablePrefix(u))
    ensures HasPrefix(k, IndexPrefix(u)) ==> t == u
  {
    assert Free(INDEX, ':') && TablePrefix(INDEX) == "__index__:";
    assert IndexPrefix(t) == TablePrefix(INDEX) + TablePrefix(t) && IndexPrefix(u) == TablePrefix(INDEX) + TablePrefix(u);
    LongerPrefix(k, TablePrefix(INDEX), TablePrefix(t));
    if HasPrefix(k, TablePrefix(u)) {
      PrefixesDiffer(INDEX, u, k);
    }
    if HasPrefix(k, IndexPrefix(u)) {
      LongerPrefix(k, TablePrefix(INDEX), TablePrefix(u));
      PrefixesDiffer(t, u, k[|TablePrefix(INDEX)|..]);
    }
  }

  lemma {:induction false} StorageKeyApart(t: string, pk: string, u: string)
    requires GoodName(t) && GoodName(u)
    ensures var k := TablePrefix(t) + pk; HasPrefix(k, TablePrefix(t)) && (HasPrefix(k, TablePrefix(u)) ==> u == t) && !HasPrefix(k, IndexPrefix(u))
  {
    var k := TablePrefix(t) + pk;
    PrefixOf(TablePrefix(t), pk);
    if HasPrefix(k, TablePrefix(u)) {
      PrefixesDiffer(t, u, k);
    }
    if HasPrefix(k, IndexPrefix(u)) {
      IndexKeyApart(u, k, t);
    }
  }

  /** Keys that are index entries of one row: of this table, with this primary key. */
  ghost predicate EntriesOf(t: string, pk: string, keys: set<string>) {
    forall k :: k in keys ==> HasPrefix(k, IndexPrefix(t)) && LastPiece(k, ':') == pk
  }

  /** A write of one row: some of its entries marked deleted, the row written or deleted, some entries put. */
  function RowWrite(m: map<string, Value>, gone: set<string>, key: string, v: Value, put: set<string>): map<string, Value> {
    (m + AllAs(gone, Tombstone))[key := v] + AllAs(put, Data(""))
  }

  /** What the row written must be: good, stored under this key, with all its entries put. */
  ghost predicate GoodWrite(catalog: Catalog, schema: TableSchema, pk: RowValue, v: Value, put: set<string>) {
    v.Data? ==>
      && Deserialize(v.text).Some? && var row := Deserialize(v.text).value;
      && GoodRow(schema, row) && KeyOf(schema, Contents(row)) == pk
      && forall c :: c in IndexedColumns(catalog, schema.name) ==>
           c in Contents(row) && IndexKey(schema.name, c, Contents(row)[c], pk) in put
  }

  lemma {:induction false} WriteKeepsEntries(catalog: Catalog, m: map<string, Value>, t: string, pk: RowValue, gone: set<string>, v: Value, put: set<string>)
    requires WellIndexed(catalog, m) && t in catalog.tables
    requires ReadableKey(catalog.tables[t], StorageString(pk))
    requires EntriesOf(t, StorageString(pk), gone) && EntriesOf(t, StorageString(pk), put)
    ensures EntriesReadable(catalog, RowWrite(m, gone, StorageKey(t, pk), v, put))
  {
    hide ReadableKey, LastPiece, StorageString, IndexPrefix, TablePrefix, HasPrefix, RowsIndexed, KnownKey;
    var m' := RowWrite(m, gone, StorageKey(t, pk), v, put);
    forall u, k | u in catalog.tables && k in m' && HasPrefix(k, IndexPrefix(u))
      ensures ReadableKey(catalog.tables[u], LastPiece(k, ':'))
    {
      assert GoodSchema(t, catalog.tables[t]) && GoodSchema(u, catalog.tables[u]);
      StorageKeyApart(t, StorageString(pk), u);
      if k in gone || k in put {
        IndexKeyApart(t, k, u);
      }
    }
  }

  lemma {:induction false} WriteKeepsKeys(catalog: Catalog, m: map<string, Value>, t: string, pk: RowValue, gone: set<string>, v: Value, put: set<string>)
    requires KeysKnown(catalog, m) && t in catalog.tables
    requires EntriesOf(t, StorageString(pk), gone) && EntriesOf(t, StorageString(pk), put)
    ensures KeysKnown(catalog, RowWrite(m, gone, StorageKey(t, pk), v, put))
  {
    hide LastPiece, StorageString, IndexPrefix, TablePrefix, HasPrefix;
    PrefixOf(TablePrefix(t), StorageString(pk));
  }

  /** A row other than the one written keeps its record and its entries. */
  lemma {:induction false} OtherRowStays(catalog: Catalog, m: map<string, Value>, t: string, pk: RowValue, gone: set<string>, v: Value, put: set<string>, u: string, k: string)
    requires WellIndexed(catalog, m) && t in catalog.tables && u in catalog.tables
    requires EntriesOf(t, StorageString(pk), gone) && EntriesOf(t, StorageString(pk), put)
    requires var m' := RowWrite(m, gone, StorageKey(t, pk), v, put); k in Live(m') && k != StorageKey(t, pk) && HasPrefix(k, TablePrefix(u))
    ensures IndexedRow(catalog, catalog.tables[u], Live(RowWrite(m, gone, StorageKey(t, pk), v, put)), k)
  {
    hide LastPiece, StorageString, IndexPrefix, TablePrefix, HasPrefix, GoodRow, Deserialize, KnownKey, EntriesReadable, IndexKey;
    var m' := RowWrite(m, gone, StorageKey(t, pk), v, put);
    assert GoodSchema(t, catalog.tables[t]) && GoodSchema(u, catalog.tables[u]);
    assert k !in gone && k !in put by {
      if k in gone || k in put {
        IndexKeyApart(t, k, u);
      }
    }
    assert k in Live(m) && Live(m')[k] == Live(m)[k];
    assert IndexedRow(catalog, catalog.tables[u], Live(m), k);
    var row := Contents(Deserialize(Live(m)[k]).value);
    GoodRowShape(catalog.tables[u], Deserialize(Live(m)[k]).value);
    var pk' := KeyOf(catalog.tables[u], row);
    forall c | c in IndexedColumns(catalog, u)
      ensures IndexKey(u, c, row[c], pk') in Live(m')
    {
      EntryStays(catalog, m, t, pk, gone, v, put, u, c, row[c], pk');
    }
  }

  lemma {:induction false} GoodRowShape(schema: TableSchema, row: Row)
    requires GoodRow(schema, row)
    ensures PrimaryKey(schema).Some? && WellTyped(schema, Contents(row))
    ensures GoodKey(StorageString(KeyOf(schema, Contents(row))))
  {
  }

  lemma {:induction false} EntryStays(catalog: Catalog, m: map<string, Value>, t: string, pk: RowValue, gone: set<string>, v: Value, put: set<string>,
                                      u: string, c: string, w: RowValue, pk': RowValue)
    requires GoodName(t) && GoodName(u) && Free(StorageString(pk'), ':')
    requires EntriesOf(t, StorageString(pk), gone) && EntriesOf(t, StorageString(pk), put)
    requires IndexKey(u, c, w, pk') in Live(m) && StorageKey(u, pk') != StorageKey(t, pk)
    ensures IndexKey(u, c, w, pk') in Live(RowWrite(m, gone, StorageKey(t, pk), v, put))
  {
    var e := IndexKey(u, c, w, pk');
    IndexKeyPrefix(u, c, w, pk');
    PrimaryKeyOf(u, c, w, pk');
    hide LastPiece, IndexPrefix, HasPrefix, IndexKey, StorageString;
    if e in gone {
      IndexKeyApart(t, e, u);
    }
    IndexKeyApart(u, e, t);
    StorageKeyApart(t, StorageString(pk), t);
  }

  /** Every write of a row keeps every live row fully indexed. */
  lemma {:induction false} RowWriteKeeps(catalog: Catalog, m: map<string, Value>, t: string, pk: RowValue, gone: set<string>, v: Value, put: set<string>)
    requires WellIndexed(catalog, m) && t in catalog.tables
    requires ReadableKey(catalog.tables[t], StorageString(pk))
    requires EntriesOf(t, StorageString(pk), gone) && EntriesOf(t, StorageString(pk), put)
    requires GoodWrite(catalog, catalog.tables[t], pk, v, put)
    ensures WellIndexed(catalog, RowWrite(m, gone, StorageKey(t, pk), v, put))
  {
    var m' := RowWrite(m, gone, StorageKey(t, pk), v, put);
    WriteKeepsEntries(catalog, m, t, pk, gone, v, put);
    WriteKeepsKeys(catalog, m, t, pk, gone, v, put);
    hide EntriesReadable, KeysKnown, IndexedRow, EntriesOf, GoodWrite, ReadableKey;
    forall u, k | u in catalog.tables && k in Live(m') && HasPrefix(k, TablePrefix(u))
      ensures IndexedRow(catalog, catalog.tables[u], Live(m'), k)
    {
      if k == StorageKey(t, pk) {
        WrittenRow(catalog, m, t, pk, gone, v, put, u);
      } else {
        OtherRowStays(catalog, m, t, pk, gone, v, put, u, k);
      }
    }
  }

  lemma {:induction false} WrittenRow(catalog: Catalog, m: map<string, Value>, t: string, pk: RowValue, gone: set<string>, v: Value, put: set<string>, u: string)
    requires GoodCatalog(catalog) && t in catalog.tables && u in catalog.tables && HasPrefix(StorageKey(t, pk), TablePrefix(u))
    requires EntriesOf(t, StorageString(pk), put) && GoodWrite(catalog, catalog.tables[t], pk, v, put)
    requires StorageKey(t, pk) in Live(RowWrite(m, gone, StorageKey(t, pk), v, put))
    ensures IndexedRow(catalog, catalog.tables[u], Live(RowWrite(m, gone, StorageKey(t, pk), v, put)), StorageKey(t, pk))
  {
    hide GoodRow, IndexKey, HasPrefix, TablePrefix, IndexPrefix, LastPiece, Deserialize, GoodName, KeyOf, IndexedColumns;
    hide RowWrite, Live, EntriesOf, StorageKey;
    assert GoodSchema(t, catalog.tables[t]) && GoodSchema(u, catalog.tables[u]);
    WrittenKey(t, pk, u, put);
    WrittenLive(m, gone, StorageKey(t, pk), v, put);
  }

  lemma {:induction false} WrittenKey(t: string, pk: RowValue, u: string, put: set<string>)
    requires GoodName(t) && GoodName(u) && HasPrefix(StorageKey(t, pk), TablePrefix(u)) && EntriesOf(t, StorageString(pk), put)
    ensures u == t && StorageKey(t, pk) !in put
  {
    hide HasPrefix, StorageString, TablePrefix, IndexPrefix, LastPiece, GoodName;
    StorageKeyApart(t, StorageString(pk), u);
    StorageKeyApart(t, StorageString(pk), t);
  }

  /** What a write puts is live; what it writes is live when it is data. */
  lemma {:induction false} WrittenLive(m: map<string, Value>, gone: set<string>, key: string, v: Value, put: set<string>)
    requires key !in put
    ensures var live := Live(RowWrite(m, gone, key, v, put));
            && (forall e :: e in put ==> e in live)
            && (key in live <==> v.Data?) && (v.Data? ==> live[key] == v.text)
  {
  }
}
