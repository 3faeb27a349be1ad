/** The table manager's state and its steps, as functions. */
module ManagerState {
  import opened Seqs
  import opened Records
  import opened KWay
  import opened Decimal
  import opened TableBuilder
  import opened Splitting
  import opened Selection
  import opened Leveling
  import opened Manifests

  const CHECKPOINT_INTERVAL: nat := 10

  /** The level lists, the two manifest files, the table files, and the counter behind fresh paths. */
  datatype Manager = Manager(
    l0: seq<SSTable>, l1: seq<SSTable>, l2: seq<SSTable>,
    log: string, checkpoint: string, operations: nat,
    disk: map<string, StoredFile>, nextId: nat)

  function TablePath(level: Level, id: nat): string {
    match level
    case L0 => "sst_l0_" + Digits(id) + ".bin"
    case L1 => "sst_l1_" + Digits(id) + ".bin"
    case L2 => "sst_l2_" + Digits(id) + ".bin"
  }

  function NewTable(m: Medium, level: Level, id: nat, records: seq<Record>, expected: nat): SSTable
    requires records != []
  {
    var f := WriteFile(m, records, expected);
    SSTable(TablePath(level, id), f.blocks, f.bloom, level,
            records[0].key, records[|records| - 1].key, m.fileBytes(records, expected))
  }

  /** One table a group, under consecutive ids. */
  function CreatedTables(m: Medium, level: Level, id: nat, groups: seq<seq<Record>>): (ts: seq<SSTable>)
    requires NoneEmpty(groups)
    ensures |ts| == |groups|
    ensures forall i :: 0 <= i < |ts| ==> ts[i] == NewTable(m, level, id + i, groups[i], TARGET_TABLE_SIZE)
  {
    seq(|groups|, i requires 0 <= i < |groups| => NewTable(m, level, id + i, groups[i], TARGET_TABLE_SIZE))
  }

  function Store(disk: map<string, StoredFile>, ts: seq<SSTable>): map<string, StoredFile> {
    if ts == [] then disk
    else Store(disk, ts[..|ts| - 1])[ts[|ts| - 1].path := StoredFile(ts[|ts| - 1].blocks, ts[|ts| - 1].bloom)]
  }

  function FullCount(groups: seq<seq<Record>>): nat {
    if groups == [] then 0
    else FullCount(groups[..|groups| - 1]) + if Full(groups[|groups| - 1]) then 1 else 0
  }

  /** The records a compaction of these tables emits, oldest table first. */
  ghost function MergedRecords(tables: seq<SSTable>, drop: bool): seq<Record> {
    Listing(Emitted(Overlay(Stack(tables)), drop))
  }

  ghost function WrittenTables(m: Medium, s: Manager, tables: seq<SSTable>, level: Level, drop: bool): seq<SSTable> {
    var merged := MergedRecords(tables, drop);
    SplitExact(merged);
    CreatedTables(m, level, s.nextId, Split(merged))
  }

  ghost function WriteMerged(m: Medium, s: Manager, tables: seq<SSTable>, level: Level, drop: bool): Manager {
    s.(disk := Store(s.disk, WrittenTables(m, s, tables, level, drop)),
       nextId := s.nextId + 1 + FullCount(Split(MergedRecords(tables, drop))))
  }

  function AppendRecord(s: Manager, r: ManifestRecord): Manager {
    s.(log := s.log + Serialize(r), operations := s.operations + 1)
  }

  function LevelList(s: Manager, level: Level): seq<SSTable> {
    match level
    case L0 => s.l0
    case L1 => s.l1
    case L2 => s.l2
  }

  function WithLevel(s: Manager, level: Level, ts: seq<SSTable>): Manager {
    match level
    case L0 => s.(l0 := ts)
    case L1 => s.(l1 := ts)
    case L2 => s.(l2 := ts)
  }

  function WithTable(s: Manager, t: SSTable): Manager {
    AppendRecord(WithLevel(s, t.level, LevelList(s, t.level) + [t]), AddRecord(t))
  }

  function AllTables(s: Manager): seq<SSTable> {
    s.l0 + s.l1 + s.l2
  }

  function AddRecords(ts: seq<SSTable>): (rs: seq<ManifestRecord>)
    ensures |rs| == |ts|
    ensures forall i :: 0 <= i < |ts| ==> rs[i] == AddRecord(ts[i])
  {
    seq(|ts|, i requires 0 <= i < |ts| => AddRecord(ts[i]))
  }

  function Checkpoint(s: Manager): Manager {
    s.(checkpoint := FileText(AddRecords(AllTables(s))), log := "", operations := 0)
  }

  function InstallTable(s: Manager, t: SSTable): Manager {
    var a := WithTable(s, t);
    if a.operations >= CHECKPOINT_INTERVAL then Checkpoint(a) else a
  }

  /** Either the table's line is appended and the manifest has had fewer than ten records since it was last rewritten,
      or it is rewritten from the lists, and the log begins anew. */
  lemma {:induction false} InstallBounds(s: Manager, t: SSTable)
    ensures var r := InstallTable(s, t);
            && r.operations < 10
            && if r.operations == 0 then r.log == "" && r.checkpoint == FileText(AddRecords(r.l0 + r.l1 + r.l2))
               else r.operations == s.operations + 1 && r.checkpoint == s.checkpoint
                    && r.log == s.log + Serialize(AddRecord(t))
  {
    hide FileText;
  }

  function InstallTables(s: Manager, ts: seq<SSTable>): Manager {
    if ts == [] then s else InstallTable(InstallTables(s, ts[..|ts| - 1]), ts[|ts| - 1])
  }

  function RemoveAt<T>(s: seq<T>, i: nat): seq<T>
    requires i < |s|
  {
    s[..i] + s[i + 1..]
  }

  /** Takes a table out of its level, logs it and deletes its file. */
  function WithoutTable(s: Manager, level: Level, i: nat): Manager
    requires i < |LevelList(s, level)|
  {
    var path := LevelList(s, level)[i].path;
    AppendRecord(WithLevel(s, level, RemoveAt(LevelList(s, level), i)), ManifestRecord.RemoveTable(path))
      .(disk := s.disk - {path})
  }

  /** Strictly descending indices, so that each removal leaves the next index in place. */
  predicate Descending(idxs: seq<nat>, n: nat) {
    && (forall p, q :: 0 <= p < q < |idxs| ==> idxs[q] < idxs[p])
    && (idxs != [] ==> idxs[0] < n)
  }

  function RemoveTables(s: Manager, level: Level, idxs: seq<nat>): Manager
    requires Descending(idxs, |LevelList(s, level)|)
    decreases |idxs|
  {
    if idxs == [] then s else RemoveTables(WithoutTable(s, level, idxs[0]), level, idxs[1..])
  }

  function InsertDescending(c: seq<nat>, x: nat): seq<nat> {
    if c == [] || c[0] <= x then [x] + c else [c[0]] + InsertDescending(c[1..], x)
  }

  function SortDescending(c: seq<nat>): seq<nat> {
    if c == [] then [] else InsertDescending(SortDescending(c[..|c| - 1]), c[|c| - 1])
  }

  /** The tables an L0 compaction writes; an id is spent on a path that stays unused. */
  ghost function OutputL0(m: Medium, s: Manager, c: seq<nat>): seq<SSTable>
    requires InRange(s.l0, c)
  {
    WrittenTables(m, s.(nextId := s.nextId + 1), Pick(s.l0, c), L1, false)
  }

  ghost function WrittenL0(m: Medium, s: Manager, c: seq<nat>): Manager
    requires InRange(s.l0, c)
  {
    WriteMerged(m, s.(nextId := s.nextId + 1), Pick(s.l0, c), L1, false)
  }

  /** L0 to L1: the chosen tables are merged in the order of the choice and leave L0. */
  ghost function SizeTieredCompactL0(m: Medium, s: Manager, c: seq<nat>): Manager
    requires InRange(s.l0, c) && Distinct(c)
  {
    SortDescendingExact(c, |s.l0|);
    if c == [] then s
    else InstallTables(RemoveTables(WrittenL0(m, s, c), L0, SortDescending(c)), OutputL0(m, s, c))
  }

  /** What takes part in an L1 to L2 compaction: the older tables of L2 first, the table of L1 last. */
  function InputL1(s: Manager, i: nat, overlaps: seq<nat>): seq<SSTable>
    requires i < |s.l1| && InRange(s.l2, overlaps)
  {
    Pick(s.l2, overlaps) + [s.l1[i]]
  }

  ghost function OutputL1(m: Medium, s: Manager, i: nat, overlaps: seq<nat>): seq<SSTable>
    requires i < |s.l1| && InRange(s.l2, overlaps)
  {
    WrittenTables(m, s.(nextId := s.nextId + 1), InputL1(s, i, overlaps), L2, true)
  }

  ghost function WrittenL1(m: Medium, s: Manager, i: nat, overlaps: seq<nat>): Manager
    requires i < |s.l1| && InRange(s.l2, overlaps)
  {
    WriteMerged(m, s.(nextId := s.nextId + 1), InputL1(s, i, overlaps), L2, true)
  }

  predicate Ascending(c: seq<nat>) {
    forall p, q :: 0 <= p < q < |c| ==> c[p] < c[q]
  }

  /** L1 to L2: one table with the tables of L2 it overlaps, tombstones dropped. */
  ghost function CompactL1ToL2(m: Medium, s: Manager, i: nat, overlaps: seq<nat>): Manager
    requires i < |s.l1| && InRange(s.l2, overlaps) && Ascending(overlaps)
  {
    var s1 := WrittenL1(m, s, i, overlaps);
    RemoveTablesFrame(s1, L2, Reverse(overlaps));
    InstallTables(WithoutTable(RemoveTables(s1, L2, Reverse(overlaps)), L1, i), OutputL1(m, s, i, overlaps))
  }

  lemma {:induction false} InsertDescendingExact(c: seq<nat>, x: nat)
    requires (forall p, q :: 0 <= p < q < |c| ==> c[q] < c[p]) && x !in c
    ensures var r := InsertDescending(c, x);
            (forall p, q :: 0 <= p < q < |r| ==> r[q] < r[p]) && (forall y :: y in r <==> y in c || y == x)
  {
    if c != [] && c[0] > x {
      InsertDescendingExact(c[1..], x);
      HeadTail(c);
      var t := InsertDescending(c[1..], x);
      forall q | 0 <= q < |t|
        ensures t[q] < c[0]
      {
        assert t[q] in t;
      }
      assert forall y :: y in [c[0]] + t <==> y == c[0] || y in t;
      assert forall y :: y in c <==> y == c[0] || y in c[1..];
    }
  }

  /** Sorting distinct indices: the same indices, strictly descending. */
  lemma {:induction false} SortDescendingExact(c: seq<nat>, n: nat)
    requires Distinct(c) && forall p :: 0 <= p < |c| ==> c[p] < n
    ensures Descending(SortDescending(c), n) && forall y :: y in SortDescending(c) <==> y in c
  {
    if c != [] {
      var k := |c| - 1;
      SortDescendingExact(c[..k], n);
      InsertDescendingExact(SortDescending(c[..k]), c[k]);
      InitLast(c);
      var r := SortDescending(c);
      assert forall y :: y in c <==> y in c[..k] || y == c[k];
      assert r[0] in r;
    }
  }

  /** Removing tables of one level leaves the other levels, the checkpoint and the counter alone. */
  lemma {:induction false} RemoveTablesFrame(s: Manager, level: Level, idxs: seq<nat>)
    requires Descending(idxs, |LevelList(s, level)|)
    ensures var r := RemoveTables(s, level, idxs);
            && (forall other: Level :: other != level ==> LevelList(r, other) == LevelList(s, other))
            && r.checkpoint == s.checkpoint && r.nextId == s.nextId
    decreases |idxs|
  {
    if idxs != [] {
      RemoveTablesFrame(WithoutTable(s, level, idxs[0]), level, idxs[1..]);
    }
  }

  lemma {:induction false} UnchosenConcat<T>(a: seq<T>, b: seq<T>, c: seq<nat>)
    requires forall x :: x in c ==> x < |a|
    ensures Unchosen(a + b, c) == Unchosen(a, c) + b
  {
    if b == [] {
      assert a + b == a;
    } else {
      var n := |b| - 1;
      UnchosenConcat(a, b[..n], c);
      assert (a + b)[..|a + b| - 1] == a + b[..n];
      InitLast(b);
      ConcatAssociates(Unchosen(a, c), b[..n], [b[n]]);
    }
  }

  lemma {:induction false} UnchosenSameSet<T>(s: seq<T>, c: seq<nat>, d: seq<nat>)
    requires forall x :: x in c <==> x in d
    ensures Unchosen(s, c) == Unchosen(s, d)
  {
    if s != [] {
      UnchosenSameSet(s[..|s| - 1], c, d);
    }
  }

  /** An index beyond the list chooses nothing. */
  lemma {:induction false} UnchosenBeyond<T>(s: seq<T>, c: seq<nat>, x: nat)
    requires x >= |s|
    ensures Unchosen(s, [x] + c) == Unchosen(s, c)
  {
    if s != [] {
      UnchosenBeyond(s[..|s| - 1], c, x);
    }
  }

  lemma {:induction false} RemoveLargest<T>(s: seq<T>, i: nat, c: seq<nat>)
    requires i < |s| && forall x :: x in c ==> x < i
    ensures Unchosen(RemoveAt(s, i), c) == Unchosen(s, [i] + c)
  {
    UnchosenConcat(s[..i], s[i + 1..], c);
    UnchosenConcat(s[..i + 1], s[i + 1..], [i] + c);
    TakeDrop(s, i + 1);
    UnchosenBeyond(s[..i], c, i);
    assert s[..i + 1][..i] == s[..i];
  }

  /** Removal by descending index leaves exactly the unchosen tables, in their old order. */
  lemma {:induction false} RemovedLevel(s: Manager, level: Level, idxs: seq<nat>)
    requires Descending(idxs, |LevelList(s, level)|)
    ensures LevelList(RemoveTables(s, level, idxs), level) == Unchosen(LevelList(s, level), idxs)
    decreases |idxs|
  {
    if idxs == [] {
      UnchosenNone(LevelList(s, level));
    } else {
      var r := WithoutTable(s, level, idxs[0]);
      RemovedLevel(r, level, idxs[1..]);
      RemoveLargest(LevelList(s, level), idxs[0], idxs[1..]);
      HeadTail(idxs);
    }
  }

  lemma {:induction false} UnchosenNone<T>(s: seq<T>)
    ensures Unchosen(s, []) == s
  {
    if s != [] {
      UnchosenNone(s[..|s| - 1]);
      InitLast(s);
    }
  }

  /** The two steps on the level lists. */
  lemma {:induction false} InstalledLevels(s: Manager, level: Level, ts: seq<SSTable>)
    requires forall i :: 0 <= i < |ts| ==> ts[i].level == level
    ensures var r := InstallTables(s, ts);
            && LevelList(r, level) == LevelList(s, level) + ts
            && (forall other: Level :: other != level ==> LevelList(r, other) == LevelList(s, other))
            && r.disk == s.disk && r.nextId == s.nextId
  {
    if ts != [] {
      InstalledLevels(s, level, ts[..|ts| - 1]);
      InitLast(ts);
      ConcatAssociates(LevelList(s, level), ts[..|ts| - 1], [ts[|ts| - 1]]);
    }
  }

  /** The level lists after an L0 compaction. */
  lemma {:induction false} CompactedL0(m: Medium, s: Manager, c: seq<nat>)
    requires InRange(s.l0, c) && Distinct(c) && c != []
    ensures var r := SizeTieredCompactL0(m, s, c);
            r.l0 == Unchosen(s.l0, c) && r.l1 == s.l1 + OutputL0(m, s, c) && r.l2 == s.l2
  {
    var d := SortDescending(c);
    SortDescendingExact(c, |s.l0|);
    UnchosenSameSet(s.l0, d, c);
    MovedToL1(WrittenL0(m, s, c), d, OutputL0(m, s, c));
  }

  lemma {:induction false} MovedToL1(s: Manager, d: seq<nat>, created: seq<SSTable>)
    requires Descending(d, |s.l0|) && forall i :: 0 <= i < |created| ==> created[i].level == L1
    ensures var r := InstallTables(RemoveTables(s, L0, d), created);
            r.l0 == Unchosen(s.l0, d) && r.l1 == s.l1 + created && r.l2 == s.l2
  {
    RemovedLevel(s, L0, d);
    RemoveTablesFrame(s, L0, d);
    var removed := RemoveTables(s, L0, d);
    InstalledLevels(removed, L1, created);
    var r := InstallTables(removed, created);
    assert LevelList(removed, L1) == s.l1 && LevelList(removed, L2) == s.l2;
    assert LevelList(r, L0) == removed.l0 && LevelList(r, L2) == removed.l2;
  }

  /** The level lists after an L1 compaction. */
  lemma {:induction false} CompactedL1(m: Medium, s: Manager, i: nat, overlaps: seq<nat>)
    requires i < |s.l1| && InRange(s.l2, overlaps) && Ascending(overlaps)
    ensures var r := CompactL1ToL2(m, s, i, overlaps);
            r.l0 == s.l0 && r.l1 == RemoveAt(s.l1, i) && r.l2 == Unchosen(s.l2, overlaps) + OutputL1(m, s, i, overlaps)
  {
    var d := Reverse(overlaps);
    ReverseSameSet(overlaps);
    UnchosenSameSet(s.l2, d, overlaps);
    MovedToL2(WrittenL1(m, s, i, overlaps), i, d, OutputL1(m, s, i, overlaps));
  }

  lemma {:induction false} MovedToL2(s: Manager, i: nat, d: seq<nat>, created: seq<SSTable>)
    requires i < |s.l1| && Descending(d, |s.l2|) && forall j :: 0 <= j < |created| ==> created[j].level == L2
    ensures var removed := RemoveTables(s, L2, d);
            && removed.l1 == s.l1
            && var r := InstallTables(WithoutTable(removed, L1, i), created);
               r.l0 == s.l0 && r.l1 == RemoveAt(s.l1, i) && r.l2 == Unchosen(s.l2, d) + created
  {
    RemovedFromL2(s, d);
    InstalledInL2(WithoutTable(RemoveTables(s, L2, d), L1, i), created);
  }

  lemma {:induction false} RemovedFromL2(s: Manager, d: seq<nat>)
    requires Descending(d, |s.l2|)
    ensures var r := RemoveTables(s, L2, d); r.l0 == s.l0 && r.l1 == s.l1 && r.l2 == Unchosen(s.l2, d)
  {
    RemovedLevel(s, L2, d);
    RemoveTablesFrame(s, L2, d);
    var r := RemoveTables(s, L2, d);
    assert LevelList(r, L0) == s.l0 && LevelList(r, L1) == s.l1;
  }

  lemma {:induction false} InstalledInL2(s: Manager, created: seq<SSTable>)
    requires forall j :: 0 <= j < |created| ==> created[j].level == L2
    ensures var r := InstallTables(s, created); r.l0 == s.l0 && r.l1 == s.l1 && r.l2 == s.l2 + created
  {
    InstalledLevels(s, L2, created);
    var r := InstallTables(s, created);
    assert LevelList(r, L0) == s.l0 && LevelList(r, L1) == s.l1;
  }

  lemma {:induction false} ReverseSameSet(c: seq<nat>)
    ensures forall x :: x in Reverse(c) <==> x in c
  {
    forall x | x in c
      ensures x in Reverse(c)
    {
      var i :| 0 <= i < |c| && c[i] == x;
      assert Reverse(c)[|c| - 1 - i] == x;
    }
  }
}
