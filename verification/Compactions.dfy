/** What compactions do to the map a reader sees. */
module Compactions {
  import opened Seqs
  import opened Order
  import opened SortedMap
  import opened Records
  import opened KWay
  import opened BloomFilters
  import opened TableBuilder
  import opened Splitting
  import opened Selection
  import opened Leveling
  import opened ManagerState
  import opened Durability
  import opened DurableCompaction
  import opened Picker

  /** The raw map of the three levels: L0 over L1 over L2, and in a level the later table over the earlier. */
  ghost function Raw(s: Manager): map<string, Value> {
    Overlay(Stack(s.l2)) + Overlay(Stack(s.l1)) + Overlay(Stack(s.l0))
  }

  ghost predicate AscendingRanges(ts: seq<SSTable>) {
    forall i, j :: 0 <= i < j < |ts| ==> Less(ts[i].maxKey, ts[j].minKey)
  }

  lemma {:induction false} CreatedStack(m: Medium, level: Level, id: nat, groups: seq<seq<Record>>)
    requires ValidMedium(m) && NoneEmpty(groups) && AllSorted(groups)
    ensures Stack(CreatedTables(m, level, id, groups)) == groups
    ensures AllValid(m.hasher, CreatedTables(m, level, id, groups))
  {
    hide NewTable, ValidTable, RecordsOf, Sorted;
    forall i | 0 <= i < |groups|
      ensures RecordsOf(NewTable(m, level, id + i, groups[i], TARGET_TABLE_SIZE)) == groups[i]
      ensures ValidTable(m.hasher, NewTable(m, level, id + i, groups[i], TARGET_TABLE_SIZE))
    {
      NewTableValid(m, level, id + i, groups[i]);
    }
  }

  lemma {:induction false} NewTableValid(m: Medium, level: Level, id: nat, g: seq<Record>)
    requires ValidMedium(m) && Sorted(g) && g != []
    ensures RecordsOf(NewTable(m, level, id, g, TARGET_TABLE_SIZE)) == g
    ensures ValidTable(m.hasher, NewTable(m, level, id, g, TARGET_TABLE_SIZE))
  {
    WriteFileExact(m, g, TARGET_TABLE_SIZE);
  }

  /** Tables over groups whose keys ascend have ascending ranges. */
  lemma {:induction false} RangesAscend(h: Hasher, ts: seq<SSTable>, groups: seq<seq<Record>>)
    requires AllValid(h, ts) && Stack(ts) == groups
    requires forall i, j, x, y :: 0 <= i < j < |groups| && 0 <= x < |groups[i]| && 0 <= y < |groups[j]| ==>
               Less(groups[i][x].key, groups[j][y].key)
    ensures AscendingRanges(ts)
  {
    hide RecordsOf, Less;
    forall i, j | 0 <= i < j < |ts|
      ensures Less(ts[i].maxKey, ts[j].minKey)
    {
      assert RecordsOf(ts[i]) == groups[i] && RecordsOf(ts[j]) == groups[j];
      assert Less(groups[i][|groups[i]| - 1].key, groups[j][0].key);
    }
  }

  /** The written tables are exactly the split of what the merge emits; their ranges ascend. */
  lemma {:induction false} WrittenExact(m: Medium, s: Manager, tables: seq<SSTable>, level: Level, drop: bool)
    requires ValidMedium(m)
    ensures var ts := WrittenTables(m, s, tables, level, drop);
            && Stack(ts) == Split(MergedRecords(tables, drop))
            && AllValid(m.hasher, ts) && AscendingRanges(ts)
            && Overlay(Stack(ts)) == Emitted(Overlay(Stack(tables)), drop)
            && (!drop ==> Overlay(Stack(ts)) == Overlay(Stack(tables)))
  {
    hide Split, AllValid, AscendingRanges, Overlay, Concat, Sorted, Stack, AllSorted, ValidMedium;
    var merged := MergedRecords(tables, drop);
    SplitExact(merged);
    GroupsAscend(Split(merged));
    OverlayOfGroups(Split(merged));
    CreatedStack(m, level, s.nextId, Split(merged));
    RangesAscend(m.hasher, WrittenTables(m, s, tables, level, drop), Split(merged));
  }

  /** L0 to L1 keeps the raw map for every key-safe candidate. */
  lemma {:induction false} CompactL0KeepsRaw(m: Medium, s: Manager, c: seq<nat>)
    requires ValidMedium(m) && InRange(s.l0, c) && Distinct(c) && KeySafe(Stack(s.l0), c)
    ensures Raw(SizeTieredCompactL0(m, s, c)) == Raw(s)
    ensures SizeTieredCompactL0(m, s, c).l2 == s.l2
  {
    hide InstallTables, RemoveTables, WrittenTables, Overlay, Split, MergedRecords, Emitted, AllValid;
    hide AscendingRanges, KeySafe;
    if c != [] {
      CompactedL0(m, s, c);
      WrittenExact(m, s.(nextId := s.nextId + 1), Pick(s.l0, c), L1, false);
      StackConcat(s.l1, OutputL0(m, s, c));
      OverlayConcat(Stack(s.l1), Stack(OutputL0(m, s, c)));
      StackPick(s.l0, c);
      StackUnchosen(s.l0, c);
      SafeMergeKeeps(Stack(s.l0), c);
      hide OutputL0;
      Regroup(Overlay(Stack(s.l2)), Overlay(Stack(s.l1)), Overlay(Pick(Stack(s.l0), c)), Overlay(Unchosen(Stack(s.l0), c)));
    }
  }

  lemma {:induction false} Regroup(a: map<string, Value>, b: map<string, Value>, c: map<string, Value>,
                                   d: map<string, Value>)
    ensures a + (b + c) + d == a + b + (c + d)
  {
  }

  /** L1 to L2 of the oldest L1 table and the L2 tables its range meets keeps the visible map, and keeps L2
      disjoint and free of tombstones. */
  lemma {:induction false} CompactL1KeepsLive(m: Medium, s: Manager)
    requires ValidMedium(m) && s.l1 != [] && BottomLevel(m.hasher, s.l2) && ValidTable(m.hasher, s.l1[0])
    ensures var overlaps := OverlapIndices(s.l2, s.l1[0].minKey, s.l1[0].maxKey);
            InRange(s.l2, overlaps) && Ascending(overlaps) &&
            var r := CompactL1ToL2(m, s, 0, overlaps);
            Live(Raw(r)) == Live(Raw(s)) && BottomLevel(m.hasher, r.l2)
  {
    hide ValidTable;
    var t := s.l1[0];
    var c := OverlapIndices(s.l2, t.minKey, t.maxKey);
    OverlapIndicesExact(s.l2, t.minKey, t.maxKey);
    CompactedL1(m, s, 0, c);
    var outs := OutputL1(m, s, 0, c);
    OutputCompacts(m, s, c);
    CompactionKeepsBottom(m.hasher, s.l2, t, outs);
    CompactionKeepsLive(m.hasher, s.l2, t, outs);
    hide CompactL1ToL2, Overlay, OutputL1, BottomLevel, OverlapIndices;
    OldestFirst(s.l1);
    var rest := Overlay(Stack(s.l1[1..]));
    LiveUnder(Overlay(Stack(Unchosen(s.l2, c) + outs)), Overlay(Stack(s.l2)) + Contents(RecordsOf(t)), rest + Overlay(Stack(s.l0)));
    UnionAssociates(Overlay(Stack(Unchosen(s.l2, c) + outs)), rest, Overlay(Stack(s.l0)));
    Regroup3(Overlay(Stack(s.l2)), Contents(RecordsOf(t)), rest, Overlay(Stack(s.l0)));
  }

  lemma {:induction false} Regroup3(a: map<string, Value>, b: map<string, Value>, c: map<string, Value>,
                                    d: map<string, Value>)
    ensures a + b + (c + d) == a + (b + c) + d
  {
  }

  lemma {:induction false} OldestFirst(ts: seq<SSTable>)
    requires ts != []
    ensures Overlay(Stack(ts)) == Contents(RecordsOf(ts[0])) + Overlay(Stack(ts[1..]))
    ensures RemoveAt(ts, 0) == ts[1..]
  {
    HeadTail(ts);
    StackConcat([ts[0]], ts[1..]);
    assert Stack([ts[0]]) == [RecordsOf(ts[0])];
    OverlayConcat([RecordsOf(ts[0])], Stack(ts[1..]));
    OverlaySingle(RecordsOf(ts[0]));
    assert RemoveAt(ts, 0) == ts[1..];
  }

  lemma {:induction false} OutputCompacts(m: Medium, s: Manager, c: seq<nat>)
    requires ValidMedium(m) && s.l1 != [] && InRange(s.l2, c)
    ensures CompactsTo(m.hasher, s.l2, s.l1[0], c, OutputL1(m, s, 0, c))
  {
    hide WrittenTables, Overlay, Split, MergedRecords, Emitted, AllValid, Less;
    WrittenExact(m, s.(nextId := s.nextId + 1), InputL1(s, 0, c), L2, true);
    StackConcat(Pick(s.l2, c), [s.l1[0]]);
    assert Stack([s.l1[0]]) == [RecordsOf(s.l1[0])];
  }

  /** The first half of maybe_compact, also run by a flush. */
  ghost function PickedL0(m: Medium, s: Manager): Manager {
    CandidatesExact(s.l0);
    match PickL0(s.l0)
    case None => s
    case Some(c) => SizeTieredCompactL0(m, s, c)
  }

  ghost function PickedL1(m: Medium, s: Manager): Manager {
    match PickL1(s.l1, s.l2)
    case None => s
    case Some(c) =>
      OverlapIndicesExact(s.l2, s.l1[0].minKey, s.l1[0].maxKey);
      CompactL1ToL2(m, s, 0, c)
  }

  /** The candidate the picker would take does not put an older record above a newer one. */
  ghost predicate PickIsSafe(l0: seq<SSTable>) {
    CandidatesExact(l0);
    match PickL0(l0)
    case None => true
    case Some(c) => KeySafe(Stack(l0), c)
  }

  /** What every step keeps of the level lists. */
  ghost predicate ValidLevels(m: Medium, s: Manager) {
    AllValid(m.hasher, s.l0) && AllValid(m.hasher, s.l1) && BottomLevel(m.hasher, s.l2)
  }

  lemma {:induction false} ValidSorted(h: Hasher, ts: seq<SSTable>)
    requires AllValid(h, ts)
    ensures AllSorted(Stack(ts))
  {
  }

  lemma {:induction false} LevelsSorted(m: Medium, s: Manager)
    requires ValidLevels(m, s)
    ensures AllSorted(Stack(s.l0)) && AllSorted(Stack(s.l1)) && AllSorted(Stack(s.l2))
  {
    ValidSorted(m.hasher, s.l0);
    ValidSorted(m.hasher, s.l1);
    ValidSorted(m.hasher, s.l2);
  }

  lemma {:induction false} ValidConcat(h: Hasher, a: seq<SSTable>, b: seq<SSTable>)
    requires AllValid(h, a) && AllValid(h, b)
    ensures AllValid(h, a + b)
  {
  }

  lemma {:induction false} ValidUnchosen(h: Hasher, ts: seq<SSTable>, c: seq<nat>)
    requires AllValid(h, ts)
    ensures AllValid(h, Unchosen(ts, c))
  {
    forall i | 0 <= i < |Unchosen(ts, c)|
      ensures ValidTable(h, Unchosen(ts, c)[i])
    {
      var j := UnchosenMember(ts, c, i);
    }
  }

  lemma {:induction false} ValidRemoved(h: Hasher, ts: seq<SSTable>, i: nat)
    requires AllValid(h, ts) && i < |ts|
    ensures AllValid(h, RemoveAt(ts, i))
  {
  }

  lemma {:induction false} CompactL0KeepsLevels(m: Medium, s: Manager, c: seq<nat>)
    requires ValidMedium(m) && ValidLevels(m, s) && InRange(s.l0, c) && Distinct(c) && c != []
    ensures ValidLevels(m, SizeTieredCompactL0(m, s, c))
  {
    hide AllValid, BottomLevel, SizeTieredCompactL0, WrittenTables, Overlay, Emitted, Split, MergedRecords, AscendingRanges;
    CompactedL0(m, s, c);
    WrittenExact(m, s.(nextId := s.nextId + 1), Pick(s.l0, c), L1, false);
    ValidConcat(m.hasher, s.l1, OutputL0(m, s, c));
    ValidUnchosen(m.hasher, s.l0, c);
  }

  /** An L0 compaction keeps the levels valid, and for a safe candidate the raw map as it is. */
  lemma {:induction false} PickedL0Keeps(m: Medium, s: Manager)
    requires ValidMedium(m) && ValidLevels(m, s)
    ensures ValidLevels(m, PickedL0(m, s))
    ensures PickIsSafe(s.l0) ==> Raw(PickedL0(m, s)) == Raw(s)
  {
    CandidatesExact(s.l0);
    hide ValidLevels, SizeTieredCompactL0, FindSizeTieredCandidates, SimilarThree, KeySafe, Raw;
    if PickL0(s.l0).Some? {
      CompactL0KeepsLevels(m, s, PickL0(s.l0).value);
      if PickIsSafe(s.l0) {
        CompactL0KeepsRaw(m, s, PickL0(s.l0).value);
      }
    }
  }

  /** An L1 compaction keeps the levels valid and the visible map as it is. */
  lemma {:induction false} PickedL1Keeps(m: Medium, s: Manager)
    requires ValidMedium(m) && ValidLevels(m, s)
    ensures ValidLevels(m, PickedL1(m, s)) && Live(Raw(PickedL1(m, s))) == Live(Raw(s))
  {
    hide BottomLevel, CompactL1ToL2, WrittenTables, Raw, Live, ValidTable;
    var p := PickL1(s.l1, s.l2);
    if p.Some? {
      OverlapIndicesExact(s.l2, s.l1[0].minKey, s.l1[0].maxKey);
      hide OverlapIndices;
      CompactL1KeepsLive(m, s);
      CompactedL1(m, s, 0, p.value);
      ValidRemoved(m.hasher, s.l1, 0);
    }
  }

  /** The sizes of the files the L0 merge of the picked candidate writes fit. */
  ghost predicate PickedL0Fits(m: Medium, s: Manager) {
    CandidatesExact(s.l0);
    match PickL0(s.l0)
    case None => true
    case Some(c) => MergeFits(m, Pick(s.l0, c), false)
  }

  ghost predicate PickedL1Fits(m: Medium, s: Manager) {
    match PickL1(s.l1, s.l2)
    case None => true
    case Some(c) =>
      OverlapIndicesExact(s.l2, s.l1[0].minKey, s.l1[0].maxKey);
      MergeFits(m, InputL1(s, 0, c), true)
  }

  lemma {:induction false} PickedL0Durable(m: Medium, s: Manager)
    requires ValidMedium(m) && Durable(m, s) && PickedL0Fits(m, s)
    ensures Durable(m, PickedL0(m, s))
  {
    hide Durable, SizeTieredCompactL0, MergeFits, FindSizeTieredCandidates, SimilarThree;
    CandidatesExact(s.l0);
    if PickL0(s.l0).Some? {
      CompactionL0Durable(m, s, PickL0(s.l0).value);
    }
  }

  lemma {:induction false} PickedL1Durable(m: Medium, s: Manager)
    requires ValidMedium(m) && Durable(m, s) && PickedL1Fits(m, s)
    ensures Durable(m, PickedL1(m, s))
  {
    hide Durable, CompactL1ToL2, MergeFits;
    var p := PickL1(s.l1, s.l2);
    if p.Some? {
      OverlapIndicesExact(s.l2, s.l1[0].minKey, s.l1[0].maxKey);
      CompactionL1Durable(m, s, 0, p.value);
    }
  }

  ghost function MaybeCompact(m: Medium, s: Manager): Manager {
    PickedL1(m, PickedL0(m, s))
  }

  /** The first half moves the first window of similar sizes, when there is one, and nothing else. */
  lemma {:induction false} PickedL0Moves(m: Medium, s: Manager)
    ensures var r := PickedL0(m, s);
            if forall a, b, c :: !SizeWindow(s.l0, a, b, c) then r == s
            else
              exists a, b, c ::
                && SizeWindow(s.l0, a, b, c) && (forall x, y, z :: SizeWindow(s.l0, x, y, z) ==> !BySize(s.l0, x, a))
                && InRange(s.l0, [a, b, c]) && r.l0 == Unchosen(s.l0, [a, b, c]) && r.l1 == s.l1 + OutputL0(m, s, [a, b, c]) && r.l2 == s.l2
  {
    FirstWindowPicked(s.l0);
    CandidatesExact(s.l0);
    hide FindSizeTieredCandidates, SizeWindow, SimilarThree, SizeTieredCompactL0, OutputL0, BySize, Unchosen;
    var c := FindSizeTieredCandidates(s.l0);
    if c != [] {
      CompactedL0(m, s, c);
      assert c == [c[0], c[1], c[2]];
    }
  }

  /** The second half moves the oldest table of L1, with those of L2 it overlaps, when L1 has four tables or more. */
  lemma {:induction false} PickedL1Moves(m: Medium, s: Manager)
    ensures var r := PickedL1(m, s);
            if |s.l1| < 4 then r == s
            else
              var c := OverlapIndices(s.l2, s.l1[0].minKey, s.l1[0].maxKey);
              && InRange(s.l2, c) && r.l0 == s.l0 && r.l1 == s.l1[1..] && r.l2 == Unchosen(s.l2, c) + OutputL1(m, s, 0, c)
  {
    hide OutputL1, CompactL1ToL2, Unchosen, OverlapIndices;
    if |s.l1| >= 4 {
      var c := OverlapIndices(s.l2, s.l1[0].minKey, s.l1[0].maxKey);
      OverlapIndicesExact(s.l2, s.l1[0].minKey, s.l1[0].maxKey);
      CompactedL1(m, s, 0, c);
      assert RemoveAt(s.l1, 0) == s.l1[1..];
    }
  }

  /** A background compaction keeps the levels valid and the visible map as it is. */
  lemma {:induction false} MaybeCompactKeeps(m: Medium, s: Manager)
    requires ValidMedium(m) && ValidLevels(m, s) && PickIsSafe(s.l0)
    ensures ValidLevels(m, MaybeCompact(m, s)) && Live(Raw(MaybeCompact(m, s))) == Live(Raw(s))
  {
    PickedL0Keeps(m, s);
    PickedL1Keeps(m, PickedL0(m, s));
  }

  lemma {:induction false} MaybeCompactDurable(m: Medium, s: Manager)
    requires ValidMedium(m) && Durable(m, s) && PickedL0Fits(m, s) && PickedL1Fits(m, PickedL0(m, s))
    ensures Durable(m, MaybeCompact(m, s))
  {
    hide Durable, PickedL0, PickedL1, PickedL0Fits, PickedL1Fits;
    PickedL0Durable(m, s);
    PickedL1Durable(m, PickedL0(m, s));
  }
}
