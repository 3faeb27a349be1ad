/** The table manager: its lists, its manifest and its files change in place. */
module Managers {
  import opened Seqs
  import opened Order
  import opened SortedMap
  import opened Records
  import opened KWay
  import opened MergeIterators
  import opened TableBuilder
  import opened Splitting
  import opened Selection
  import opened Leveling
  import opened Manifests
  import opened ManagerState
  import opened Picker
  import opened Compactions

  lemma {:induction false} CreatedSnoc(m: Medium, level: Level, id: nat, groups: seq<seq<Record>>, g: seq<Record>)
    requires NoneEmpty(groups) && g != []
    ensures CreatedTables(m, level, id, groups + [g]) ==
            CreatedTables(m, level, id, groups) + [NewTable(m, level, id + |groups|, g, TARGET_TABLE_SIZE)]
  {
  }

  lemma {:induction false} StoreSnoc(disk: map<string, StoredFile>, ts: seq<SSTable>, t: SSTable)
    ensures Store(disk, ts + [t]) == Store(disk, ts)[t.path := StoredFile(t.blocks, t.bloom)]
  {
    InitOfSnoc(ts, t);
  }

  /** The state of the splitting loop: closed groups, the open one, and what they came from. */
  ghost predicate Splits(groups: seq<seq<Record>>, current: seq<Record>, out: seq<Record>) {
    && NoneEmpty(groups)
    && Concat(groups) + current == out
    && (forall i :: 0 <= i < |groups| ==> Full(groups[i]) && !Full(groups[i][..|groups[i]| - 1]))
    && !Full(current)
    && FullCount(groups) == |groups|
  }

  lemma {:induction false} SplitsStart()
    ensures Splits([], [], [])
  {
    assert Weight([]) == 0;
  }

  lemma {:induction false} SplitsGrow(groups: seq<seq<Record>>, current: seq<Record>, out: seq<Record>, r: Record)
    requires Splits(groups, current, out)
    ensures Weight(current + [r]) == Weight(current) + Estimate(r)
    ensures !Full(current + [r]) ==> Splits(groups, current + [r], out + [r])
    ensures Full(current + [r]) ==> Splits(groups + [current + [r]], [], out + [r])
  {
    InitOfSnoc(current, r);
    ConcatAssociates(Concat(groups), current, [r]);
    var g := current + [r];
    if Full(g) {
      InitOfSnoc(groups, g);
      ConcatNothing(out + [r]);
      forall i | 0 <= i < |groups + [g]|
        ensures (groups + [g])[i] != [] && Full((groups + [g])[i]) && !Full((groups + [g])[i][..|(groups + [g])[i]| - 1])
      {
      }
      assert Weight([]) == 0;
    }
  }

  function Closed(groups: seq<seq<Record>>, current: seq<Record>): seq<seq<Record>> {
    if current == [] then groups else groups + [current]
  }

  /** When the loop ends, the groups are the split of everything emitted. */
  lemma {:induction false} SplitsEnd(groups: seq<seq<Record>>, current: seq<Record>, out: seq<Record>)
    requires Splits(groups, current, out)
    ensures Closed(groups, current) == Split(out) && FullCount(Split(out)) == |groups| && NoneEmpty(groups)
  {
    SplitExact(out);
    ClosedShape(groups, current, out);
    hide SplitShape, Split, Concat;
    ShapeUnique(Closed(groups, current), Split(out));
    if current != [] {
      InitOfSnoc(groups, current);
    }
  }

  lemma {:induction false} ReplayNothing(disk: map<string, StoredFile>)
    ensures Replay([], disk) == Levels([], [], [])
  {
  }

  lemma {:induction false} ClosedShape(groups: seq<seq<Record>>, current: seq<Record>, out: seq<Record>)
    requires Splits(groups, current, out)
    ensures SplitShape(Closed(groups, current)) && Concat(Closed(groups, current)) == out
  {
    hide Full;
    if current == [] {
      ConcatNothing(Concat(groups));
    } else {
      InitOfSnoc(groups, current);
      LastOpen(current);
    }
  }

  lemma {:induction false} LastOpen(g: seq<Record>)
    requires g != [] && !Full(g)
    ensures !Full(g[..|g| - 1])
  {
    WeightMonotone(g, |g| - 1);
  }

  /** The written side of the splitting loop: one table a closed group, and the id of the open file. */
  ghost predicate Writing(m: Medium, before: Manager, level: Level, groups: seq<seq<Record>>, created: seq<SSTable>, id: nat, now: Manager) {
    && NoneEmpty(groups) && id == before.nextId + |groups|
    && created == CreatedTables(m, level, before.nextId, groups)
    && now == before.(disk := Store(before.disk, created), nextId := id + 1)
  }

  lemma {:induction false} WritingStart(m: Medium, before: Manager, level: Level)
    ensures Writing(m, before, level, [], [], before.nextId, before.(nextId := before.nextId + 1))
  {
  }

  lemma {:induction false} WritingStep(m: Medium, before: Manager, level: Level, groups: seq<seq<Record>>, created: seq<SSTable>, id: nat, now: Manager,
                                       g: seq<Record>, t: SSTable)
    requires Writing(m, before, level, groups, created, id, now)
    requires g != [] && t == NewTable(m, level, id, g, TARGET_TABLE_SIZE)
    ensures now.nextId == id + 1 && NoneEmpty(groups + [g]) && created + [t] == CreatedTables(m, level, before.nextId, groups + [g])
    ensures var stored := now.disk[TablePath(level, id) := StoredFile(t.blocks, t.bloom)];
            stored == Store(before.disk, created + [t]) &&
            Writing(m, before, level, groups + [g], created + [t], id + 1, now.(disk := stored, nextId := id + 2))
  {
    CreatedSnoc(m, level, before.nextId, groups, g);
    hide CreatedTables;
    StoreSnoc(before.disk, created, t);
  }

  /** The open group with its running size and its first and last key. */
  predicate Open(current: seq<Record>, estimated: nat, minKey: Option<string>, maxKey: Option<string>) {
    && estimated == Weight(current)
    && (current == [] ==> minKey == None)
    && (current != [] ==> minKey == Some(current[0].key) && maxKey == Some(current[|current| - 1].key))
  }

  lemma {:induction false} OpenStep(current: seq<Record>, estimated: nat, minKey: Option<string>, maxKey: Option<string>, r: Record)
    requires Open(current, estimated, minKey, maxKey)
    ensures Open(current + [r], estimated + Estimate(r), if minKey.None? then Some(r.key) else minKey, Some(r.key))
    ensures var grown := current + [r];
            (if minKey.None? then r.key else minKey.value) == grown[0].key && r.key == grown[|grown| - 1].key
            && estimated + Estimate(r) == Weight(grown)
  {
    InitOfSnoc(current, r);
  }

  lemma {:induction false} OpenEnds(current: seq<Record>, estimated: nat, minKey: Option<string>, maxKey: Option<string>)
    requires Open(current, estimated, minKey, maxKey)
    ensures estimated == Weight(current)
    ensures current != [] ==> minKey == Some(current[0].key) && maxKey == Some(current[|current| - 1].key)
  {
  }

  lemma {:induction false} OpenStart(maxKey: Option<string>)
    ensures Open([], 0, None, maxKey)
  {
  }

  lemma {:induction false} WrittenAll(m: Medium, before: Manager, tables: seq<SSTable>, level: Level, drop: bool,
                                      groups: seq<seq<Record>>, current: seq<Record>, out: seq<Record>,
                                      created: seq<SSTable>, id: nat, now: Manager)
    requires Writing(m, before, level, groups, created, id, now) && Splits(groups, current, out)
    requires out == MergedRecords(tables, drop)
    ensures Weight(current) > 0 <==> current != []
    ensures current == [] ==>
              created == WrittenTables(m, before, tables, level, drop) && now == WriteMerged(m, before, tables, level, drop)
    ensures current != [] ==>
              var t := NewTable(m, level, id, current, TARGET_TABLE_SIZE);
              && created + [t] == WrittenTables(m, before, tables, level, drop)
              && now.(disk := now.disk[TablePath(level, id) := StoredFile(t.blocks, t.bloom)]) == WriteMerged(m, before, tables, level, drop)
  {
    hide Splits, Store, NewTable, MergedRecords, CreatedTables;
    SplitsEnd(groups, current, out);
    if current != [] {
      WritingStep(m, before, level, groups, created, id, now, current, NewTable(m, level, id, current, TARGET_TABLE_SIZE));
    }
  }

  lemma {:induction false} MergedIs(tables: seq<SSTable>, drop: bool, out: seq<Record>)
    requires Sorted(out) && Contents(out) == Emitted(Overlay(Stack(tables)), drop)
    ensures out == MergedRecords(tables, drop)
  {
    ListingUnique(out, MergedRecords(tables, drop));
  }

  lemma {:induction false} InputsSorted(s: Manager, i: nat, overlaps: seq<nat>)
    requires AllSorted(Stack(s.l1)) && AllSorted(Stack(s.l2)) && i < |s.l1| && InRange(s.l2, overlaps)
    ensures AllSorted(Stack(InputL1(s, i, overlaps)))
  {
    hide Sorted, RecordsOf;
    var tables := InputL1(s, i, overlaps);
    forall j | 0 <= j < |tables|
      ensures Sorted(Stack(tables)[j])
    {
      if j < |overlaps| {
        assert Stack(tables)[j] == Stack(s.l2)[overlaps[j]];
      } else {
        assert Stack(tables)[j] == Stack(s.l1)[i];
      }
    }
  }

  class SSTableManager {
    const medium: Medium
    var l0: seq<SSTable>
    var l1: seq<SSTable>
    var l2: seq<SSTable>
    var log: string
    var checkpoint: string
    var operations: nat
    var disk: map<string, StoredFile>
    var nextId: nat

    function State(): Manager
      reads this
    {
      Manager(l0, l1, l2, log, checkpoint, operations, disk, nextId)
    }

    /** A manager over what is on disk, before the manifest is replayed. */
    constructor (medium: Medium, log: string, checkpoint: string, disk: map<string, StoredFile>, nextId: nat)
      ensures this.medium == medium
      ensures State() == Manager([], [], [], log, checkpoint, 0, disk, nextId)
    {
      this.medium := medium;
      l0, l1, l2 := [], [], [];
      this.log, this.checkpoint, operations := log, checkpoint, 0;
      this.disk, this.nextId := disk, nextId;
    }

    method NextId() returns (id: nat)
      modifies this
      ensures id == old(nextId) && State() == old(State()).(nextId := id + 1)
    {
      id, nextId := nextId, nextId + 1;
    }

    method AppendRecord(r: ManifestRecord)
      modifies this
      ensures State() == ManagerState.AppendRecord(old(State()), r)
    {
      log, operations := log + Serialize(r), operations + 1;
    }

    method RegisterTable(t: SSTable)
      modifies this
      ensures State() == WithLevel(old(State()), t.level, LevelList(old(State()), t.level) + [t])
    {
      match t.level
      case L0 => l0 := l0 + [t];
      case L1 => l1 := l1 + [t];
      case L2 => l2 := l2 + [t];
    }

    method AddTable(t: SSTable)
      modifies this
      ensures State() == WithTable(old(State()), t)
    {
      RegisterTable(t);
      AppendRecord(AddRecord(t));
    }

    method CheckpointManifest()
      modifies this
      ensures State() == Checkpoint(old(State()))
    {
      checkpoint := FileText(AddRecords(l0 + l1 + l2));
      log, operations := "", 0;
    }

    method InstallTable(t: SSTable)
      modifies this
      ensures State() == ManagerState.InstallTable(old(State()), t)
    {
      AddTable(t);
      if operations >= CHECKPOINT_INTERVAL {
        CheckpointManifest();
      }
    }

    method InstallTables(ts: seq<SSTable>)
      modifies this
      ensures State() == ManagerState.InstallTables(old(State()), ts)
    {
      for i := 0 to |ts|
        invariant State() == ManagerState.InstallTables(old(State()), ts[..i])
      {
        assert ts[..i + 1][..i] == ts[..i];
        InstallTable(ts[i]);
      }
      assert ts[..|ts|] == ts;
    }

    method RemoveTable(level: Level, i: nat)
      requires i < |LevelList(State(), level)|
      modifies this
      ensures State() == WithoutTable(old(State()), level, i)
    {
      var path := LevelList(State(), level)[i].path;
      match level {
        case L0 => l0 := RemoveAt(l0, i);
        case L1 => l1 := RemoveAt(l1, i);
        case L2 => l2 := RemoveAt(l2, i);
      }
      AppendRecord(ManifestRecord.RemoveTable(path));
      disk := disk - {path};
    }

    /** Removal by descending index. */
    method RemoveTables(level: Level, idxs: seq<nat>)
      requires Descending(idxs, |LevelList(State(), level)|)
      modifies this
      ensures State() == ManagerState.RemoveTables(old(State()), level, idxs)
    {
      for i := 0 to |idxs|
        invariant Descending(idxs[i..], |LevelList(State(), level)|)
        invariant ManagerState.RemoveTables(State(), level, idxs[i..]) == ManagerState.RemoveTables(old(State()), level, idxs)
      {
        assert idxs[i..][1..] == idxs[i + 1..];
        RemoveTable(level, idxs[i]);
      }
    }

    /** Writes one merged table. */
    method FinalizeWriter(path: string, level: Level, records: seq<Record>, minKey: string, maxKey: string) returns (t: SSTable)
      requires records != [] && minKey == records[0].key && maxKey == records[|records| - 1].key
      modifies this
      ensures forall i :: path == TablePath(level, i) ==> t == NewTable(medium, level, i, records, TARGET_TABLE_SIZE)
      ensures State() == old(State()).(disk := old(disk)[path := StoredFile(t.blocks, t.bloom)])
      ensures t.path == path
    {
      var f := WriteFile(medium, records, TARGET_TABLE_SIZE);
      disk := disk[path := f];
      t := SSTable(path, f.blocks, f.bloom, level, minKey, maxKey, medium.fileBytes(records, TARGET_TABLE_SIZE));
    }

    /** Writes one merged table and takes the id of the next. */
    method CloseTable(level: Level, id: nat, records: seq<Record>, minKey: string, maxKey: string) returns (t: SSTable, next: nat)
      requires records != [] && minKey == records[0].key && maxKey == records[|records| - 1].key
      modifies this
      ensures t == NewTable(medium, level, id, records, TARGET_TABLE_SIZE) && next == old(nextId)
      ensures State() == old(State()).(disk := old(disk)[TablePath(level, id) := StoredFile(t.blocks, t.bloom)], nextId := next + 1)
    {
      t := FinalizeWriter(TablePath(level, id), level, records, minKey, maxKey);
      next := NextId();
    }

    /** Merges the tables and cuts the merged stream at the target size; ids are taken as paths are needed. */
    method WriteMergedTables(tables: seq<SSTable>, level: Level, dropTombstones: bool) returns (created: seq<SSTable>)
      requires AllSorted(Stack(tables))
      modifies this
      ensures State() == WriteMerged(medium, old(State()), tables, level, dropTombstones)
      ensures created == WrittenTables(medium, old(State()), tables, level, dropTombstones)
    {
      hide Drained, NextOf, Splits, Store, Writing, WriteMerged, WrittenTables, NewTable, WriteFile, TablePath, Weight, Estimate;
      hide Open, Stack, RecordsOf, Sorted, AllSorted, Overlay, Emitted, Contents, MergedRecords, Less, Concat;
      ghost var before := State();
      var merge := new MergeIterator(Stack(tables), dropTombstones);
      created := [];
      var id := NextId();
      var current: seq<Record> := [];
      var minKey: Option<string>, maxKey: Option<string> := None, None;
      var estimated: nat := 0;
      ghost var groups: seq<seq<Record>>, out: seq<Record> := [], [];
      ghost var all, m := merge.Remaining(), merge.Remaining();
      DrainStart(all, dropTombstones);
      SplitsStart();
      OpenStart(maxKey);
      WritingStart(medium, before, level);
      var r := merge.Next();
      ghost var rest := merge.Remaining();
      while r.Some?
        invariant merge.Valid() && rest == merge.Remaining() && fresh(merge) && fresh(merge.sources)
        invariant merge.dropTombstones == dropTombstones
        invariant Drained(all, dropTombstones, out, m) && NextOf(m, dropTombstones, r, rest)
        invariant Splits(groups, current, out) && Open(current, estimated, minKey, maxKey)
        invariant Writing(medium, before, level, groups, created, id, State())
        decreases m.Keys
      {
        var record := r.value;
        SplitsGrow(groups, current, out, record);
        OpenStep(current, estimated, minKey, maxKey, record);
        if minKey.None? {
          minKey := Some(record.key);
        }
        maxKey := Some(record.key);
        current, estimated := current + [record], estimated + Estimate(record);
        if estimated >= TARGET_TABLE_SIZE {
          ghost var now := State();
          var t, next := CloseTable(level, id, current, minKey.value, maxKey.value);
          WritingStep(medium, before, level, groups, created, id, now, current, t);
          id := next;
          created, groups := created + [t], groups + [current];
          current, estimated, minKey := [], 0, None;
          OpenStart(maxKey);
        }
        DrainStep(all, dropTombstones, out, m, record, rest);
        RestShrinks(m, dropTombstones, record, rest);
        out, m := out + [record], rest;
        r := merge.Next();
        rest := merge.Remaining();
      }
      DrainEnd(all, dropTombstones, out, m, rest);
      MergedIs(tables, dropTombstones, out);
      OpenEnds(current, estimated, minKey, maxKey);
      WrittenAll(medium, before, tables, level, dropTombstones, groups, current, out, created, id, State());
      if estimated > 0 {
        var t := FinalizeWriter(TablePath(level, id), level, current, minKey.value, maxKey.value);
        created := created + [t];
      }
    }

    method SizeTieredCompactL0(candidate: seq<nat>)
      requires AllSorted(Stack(l0)) && InRange(l0, candidate) && Distinct(candidate)
      modifies this
      ensures State() == ManagerState.SizeTieredCompactL0(medium, old(State()), candidate)
    {
      hide WrittenTables, Split, MergedRecords, ManagerState.RemoveTables, ManagerState.InstallTables;
      if candidate == [] {
        return;
      }
      var tables := Pick(l0, candidate);
      StackPick(l0, candidate);
      var unused := NextId();
      var created := WriteMergedTables(tables, L1, false);
      SortDescendingExact(candidate, |l0|);
      RemoveTables(L0, SortDescending(candidate));
      InstallTables(created);
    }

    method CompactL1ToL2(i: nat, overlaps: seq<nat>)
      requires AllSorted(Stack(l1)) && AllSorted(Stack(l2))
      requires i < |l1| && InRange(l2, overlaps) && Ascending(overlaps)
      modifies this
      ensures State() == ManagerState.CompactL1ToL2(medium, old(State()), i, overlaps)
    {
      hide WrittenTables, Split, MergedRecords, ManagerState.RemoveTables, ManagerState.InstallTables;
      var tables := InputL1(State(), i, overlaps);
      InputsSorted(State(), i, overlaps);
      var unused := NextId();
      var created := WriteMergedTables(tables, L2, true);
      RemoveTablesFrame(State(), L2, Reverse(overlaps));
      RemoveTables(L2, Reverse(overlaps));
      RemoveTable(L1, i);
      InstallTables(created);
    }

    method FindSizeTieredCandidates() returns (inputs: seq<nat>)
      ensures inputs == Picker.FindSizeTieredCandidates(l0)
    {
      var indexed := SortBySize(l0);
      for i := 0 to |indexed|
        invariant FirstWindow(indexed, i) == FirstWindow(indexed, 0)
      {
        if i + SIZE_TIERED_MIN_TABLES <= |indexed| && WindowFits(indexed, i) {
          return [indexed[i].index, indexed[i + 1].index, indexed[i + 2].index];
        }
      }
      return [];
    }

    method PickL0() returns (candidate: Option<seq<nat>>)
      ensures candidate == Picker.PickL0(l0)
    {
      var inputs := FindSizeTieredCandidates();
      candidate := if inputs == [] then None else Some(inputs);
    }

    /** L0 is compacted when the picker finds a candidate, then L1 when it is long. */
    method MaybeCompact()
      requires ValidMedium(medium) && ValidLevels(medium, State())
      modifies this
      ensures State() == Compactions.MaybeCompact(medium, old(State()))
    {
      hide ValidLevels, ManagerState.SizeTieredCompactL0, ManagerState.CompactL1ToL2;
      LevelsSorted(medium, State());
      CandidatesExact(l0);
      PickedL0Keeps(medium, State());
      var candidate := PickL0();
      if candidate.Some? {
        SizeTieredCompactL0(candidate.value);
      }
      LevelsSorted(medium, State());
      var overlaps := PickL1(l1, l2);
      if overlaps.Some? {
        OverlapIndicesExact(l2, l1[0].minKey, l1[0].maxKey);
        CompactL1ToL2(0, overlaps.value);
      }
    }

    /** Start-up: the checkpoint's records, then the log's. */
    method LoadManifest()
      requires l0 == [] && l1 == [] && l2 == []
      modifies this
      ensures var d := Replay(Load(checkpoint) + Load(log), disk);
              State() == old(State()).(l0 := d.l0, l1 := d.l1, l2 := d.l2)
    {
      hide Load, Replay;
      var records := Load(checkpoint) + Load(log);
      ReplayNothing(disk);
      for i := 0 to |records|
        invariant var d := Replay(records[..i], disk);
                  State() == old(State()).(l0 := d.l0, l1 := d.l1, l2 := d.l2)
      {
        TakeNext(records, i);
        ReplayAppend(records[..i], records[i], disk);
        LoadTableMetadata(records[i]);
      }
      TakeAll(records);
    }

    method LoadTableMetadata(r: ManifestRecord)
      modifies this
      ensures var d := Levels(old(l0), old(l1), old(l2));
              var d' := if r.AddTable? && r.path in disk then Push(d, LoadedTable(r, disk[r.path])) else d;
              State() == old(State()).(l0 := d'.l0, l1 := d'.l1, l2 := d'.l2)
    {
      if r.AddTable? && r.path in disk {
        RegisterTable(LoadedTable(r, disk[r.path]));
      }
    }
  }
}
