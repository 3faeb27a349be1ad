/** A run of the engine that loses a write because the L0 picker lists its tables by size and not by age. */
module PickOrder {
  import opened Seqs
  import opened Order
  import opened SortedMap
  import opened Records
  import opened KWay
  import opened Utf8
  import opened WriteAheadLog
  import opened Decimal
  import opened TableBuilder
  import opened Splitting
  import opened Selection
  import opened Leveling
  import opened ManagerState
  import opened Durability
  import opened Picker
  import opened PlainFiles
  import opened Compactions
  import opened EngineState
  import opened Recovery

  /** Three writes of one key, each flushed to a table of its own. */
  function ThreeWrites(k: string, a: string, b: string, d: string): seq<Op> {
    [PutOp(k, a), FlushOp, PutOp(k, b), FlushOp, PutOp(k, d), FlushOp]
  }

  lemma {:induction false} RunTwo(c: Setup, db: Db, ops: seq<Op>, p: Op, q: Op)
    ensures Run(c, db, ops + [p]) == Step(c, Run(c, db, ops), p)
    ensures Run(c, db, ops + [p, q]) == Step(c, Step(c, Run(c, db, ops), p), q)
  {
    hide Step;
    InitOfSnoc(ops, p);
    assert ops + [p, q] == ops + [p] + [q];
    InitOfSnoc(ops + [p], q);
  }

  lemma {:induction false} ApplyTwo(spec: map<string, string>, ops: seq<Op>, p: Op, q: Op)
    ensures ApplyAll(spec, ops + [p, q]) == Apply(Apply(ApplyAll(spec, ops), p), q)
  {
    hide Apply;
    InitOfSnoc(ops, p);
    assert ops + [p, q] == ops + [p] + [q];
    InitOfSnoc(ops + [p], q);
  }

  /** Two tables are never picked. */
  lemma {:induction false} FewTablesStay(m: Medium, s: Manager)
    requires |s.l0| < 3
    ensures PickL0(s.l0) == None && PickedL0(m, s) == s
  {
    hide FindSizeTieredCandidates;
    CandidatesExact(s.l0);
  }

  /** The manager after one write with its flush, before a pick. */
  function Written(c: Setup, s: Manager, k: string, v: string): Manager {
    Flushed(c.medium, s, Single(k, v))
  }

  lemma {:induction false} PutThenFlush(c: Setup, db: Db, k: string, v: string)
    requires db.memtable == [] && c.limit > 1
    ensures var r := Step(c, Step(c, db, PutOp(k, v)), FlushOp);
            r.memtable == [] && r.tables == PickedL0(c.medium, Written(c, db.tables, k, v))
  {
    hide PickedL0, Flushed;
    assert Insert(db.memtable, k, Data(v)) == Single(k, v) by {
      assert [Entry(k, Data(v))] + [] == [Entry(k, Data(v))];
    }
  }

  /** The three tables of the run. */
  function ThreeTables(c: Setup, id: nat, k: string, a: string, b: string, d: string): Manager {
    Written(c, Written(c, Written(c, Fresh(id).tables, k, a), k, b), k, d)
  }

  /** The run after two of its writes, each flushed. */
  lemma {:induction false} TwoFlushes(c: Setup, id: nat, k: string, a: string, b: string, d: string)
    requires c.limit > 1
    ensures var ops := ThreeWrites(k, a, b, d);
            var one, two := Run(c, Fresh(id), ops[..2]), Run(c, Fresh(id), ops[..4]);
            && one.memtable == [] && one.tables == Written(c, Fresh(id).tables, k, a)
            && two.memtable == [] && two.tables == Written(c, Written(c, Fresh(id).tables, k, a), k, b)
  {
    hide Step, PickedL0, FlushedTable;
    var ops, w1 := ThreeWrites(k, a, b, d), [PutOp(k, a), FlushOp];
    assert [] + [PutOp(k, a), FlushOp] == w1 == ops[..2] && w1 + [PutOp(k, b), FlushOp] == ops[..4];
    RunTwo(c, Fresh(id), [], PutOp(k, a), FlushOp);
    RunTwo(c, Fresh(id), w1, PutOp(k, b), FlushOp);
    hide Run;
    NothingRun(c, id);
    PutThenFlush(c, Fresh(id), k, a);
    FewTablesStay(c.medium, Written(c, Fresh(id).tables, k, a));
    PutThenFlush(c, Run(c, Fresh(id), w1), k, b);
    FewTablesStay(c.medium, Written(c, Written(c, Fresh(id).tables, k, a), k, b));
  }

  lemma {:induction false} ThreeFlushes(c: Setup, id: nat, k: string, a: string, b: string, d: string)
    requires c.limit > 1
    ensures var r := Run(c, Fresh(id), ThreeWrites(k, a, b, d));
            r.memtable == [] && r.tables == PickedL0(c.medium, ThreeTables(c, id, k, a, b, d))
  {
    hide Step, PickedL0, FlushedTable;
    var ops := ThreeWrites(k, a, b, d);
    assert ops[..4] + [PutOp(k, d), FlushOp] == ops;
    RunTwo(c, Fresh(id), ops[..4], PutOp(k, d), FlushOp);
    hide Run;
    TwoFlushes(c, id, k, a, b, d);
    PutThenFlush(c, Run(c, Fresh(id), ops[..4]), k, d);
  }

  lemma {:induction false} NothingRun(c: Setup, id: nat)
    ensures Run(c, Fresh(id), []) == Fresh(id)
  {
  }

  /** The files shrink with age and stay within the picker's ratio. */
  predicate Shrinking(c: Setup, k: string, a: string, b: string, d: string) {
    var f := c.medium.fileBytes;
    && f(Single(k, d), 1) < f(Single(k, b), 1) < f(Single(k, a), 1)
    && WithinRatio(f(Single(k, d), 1), f(Single(k, a), 1))
  }

  lemma {:induction false} ThreeTablesHold(c: Setup, id: nat, k: string, a: string, b: string, d: string)
    requires ValidMedium(c.medium) && Shrinking(c, k, a, b, d)
    ensures var s := ThreeTables(c, id, k, a, b, d);
            && s.l1 == [] && s.l2 == [] && Stack(s.l0) == [Single(k, a), Single(k, b), Single(k, d)]
            && ValidLevels(c.medium, s) && PickL0(s.l0) == Some([2, 1, 0])
  {
    hide ValidTable, RecordsOf, Sorted, FilterCovers, WriteFile, PickL0, Less, FilterFor;
    SingleSorted(k, a);
    SingleSorted(k, b);
    SingleSorted(k, d);
    FlushedTableValid(c.medium, id, Single(k, a));
    FlushedTableValid(c.medium, id + 1, Single(k, b));
    FlushedTableValid(c.medium, id + 2, Single(k, d));
    ShrinkingPicked(ThreeTables(c, id, k, a, b, d).l0);
  }

  lemma {:induction false} MergedShowsOldest(m: Medium, s: Manager, k: string, a: string, b: string, d: string)
    requires ValidMedium(m) && s.l1 == [] && s.l2 == [] && PickL0(s.l0) == Some([2, 1, 0])
    requires Stack(s.l0) == [Single(k, a), Single(k, b), Single(k, d)]
    ensures Lookup(Raw(PickedL0(m, s)), k) == Some(Data(a))
  {
    hide SizeTieredCompactL0, PickL0, FindSizeTieredCandidates, SimilarThree, Merged, KeySafe, Overlay, OutputL0, Pick, ValidMedium, Sorted, Raw;
    CandidatesExact(s.l0);
    SingleSorted(k, a);
    SingleSorted(k, b);
    SingleSorted(k, d);
    NewestFirstShowsOldest(Stack(s.l0), k);
    MergedIsRaw(m, s, [2, 1, 0]);
  }

  /** The oldest of the three values comes back, whatever they are. */
  lemma {:induction false} OldestComesBack(c: Setup, id: nat, k: string, a: string, b: string, d: string)
    requires ValidMedium(c.medium) && c.limit > 1 && Shrinking(c, k, a, b, d)
    ensures Lookup(RawDb(Run(c, Fresh(id), ThreeWrites(k, a, b, d))), k) == Some(Data(a))
  {
    var s := ThreeTables(c, id, k, a, b, d);
    ThreeFlushes(c, id, k, a, b, d);
    ThreeTablesHold(c, id, k, a, b, d);
    hide Run, ThreeTables, ThreeWrites, Shrinking, ValidMedium, ValidLevels, PickedL0, PickL0, Raw, Stack;
    MergedShowsOldest(c.medium, s, k, a, b, d);
    NothingOver(Raw(PickedL0(c.medium, s)));
  }

  lemma {:induction false} MergedIsRaw(m: Medium, s: Manager, c: seq<nat>)
    requires ValidMedium(m) && InRange(s.l0, c) && Distinct(c) && c != [] && s.l1 == [] && s.l2 == []
    ensures InRange(Stack(s.l0), c) && Raw(SizeTieredCompactL0(m, s, c)) == Merged(Stack(s.l0), c)
  {
    hide SizeTieredCompactL0, WrittenTables, Overlay, Emitted, Split, MergedRecords, AllValid, AscendingRanges;
    CompactedL0(m, s, c);
    WrittenExact(m, s.(nextId := s.nextId + 1), Pick(s.l0, c), L1, false);
    StackPick(s.l0, c);
    StackUnchosen(s.l0, c);
    hide OutputL0, Unchosen;
    NothingBefore(OutputL0(m, s, c));
    NothingBelow(SizeTieredCompactL0(m, s, c));
  }

  /** With an empty bottom level the map is that of the two upper ones. */
  lemma {:induction false} NothingBelow(s: Manager)
    requires s.l2 == []
    ensures Raw(s) == Overlay(Stack(s.l1)) + Overlay(Stack(s.l0))
  {
    assert Overlay(Stack(s.l2)) == map[];
  }

  lemma {:induction false} LastWriteIsSpec(k: string, a: string, b: string, d: string)
    ensures ApplyAll(map[], ThreeWrites(k, a, b, d)) == map[k := d]
  {
    var w1, w2 := [PutOp(k, a), FlushOp], [PutOp(k, a), FlushOp, PutOp(k, b), FlushOp];
    assert [] + [PutOp(k, a), FlushOp] == w1 && w1 + [PutOp(k, b), FlushOp] == w2;
    assert w2 + [PutOp(k, d), FlushOp] == ThreeWrites(k, a, b, d);
    ApplyTwo(map[], [], PutOp(k, a), FlushOp);
    ApplyTwo(map[], w1, PutOp(k, b), FlushOp);
    ApplyTwo(map[], w2, PutOp(k, d), FlushOp);
    assert ApplyAll(map[], []) == map[];
  }

  /** Wherever files shrink within the ratio, three flushed writes of one key end with the first of them. */
  lemma {:induction false} SizeOrderLosesNewest(c: Setup, id: nat, k: string, a: string, b: string, d: string)
    requires ValidMedium(c.medium) && c.limit > 1 && Shrinking(c, k, a, b, d)
    ensures !Shows(c, Run(c, Fresh(id), ThreeWrites(k, a, b, d)), ApplyAll(map[], ThreeWrites(k, a, b, d)))
  {
    hide Run, ValidDb, ValidMedium;
    OldestComesBack(c, id, k, a, b, d);
    LastWriteIsSpec(k, a, b, d);
    var r := Run(c, Fresh(id), ThreeWrites(k, a, b, d));
    assert a != d;
    assert Live(RawDb(r))[k] == a;
  }

  lemma {:induction false} AsciiLength(s: string)
    requires forall i :: 0 <= i < |s| ==> s[i] as int < 0x80
    ensures Length(s) == |s|
  {
    if s != [] {
      AsciiLength(s[1..]);
    }
  }

  /** Short texts in files whose bytes are counted. */
  predicate Short(k: string, v: string) {
    Length(k) == 1 && Length(v) <= 4
  }

  lemma {:induction false} SizeFits(k: string, v: string, n: nat)
    requires Short(k, v)
    ensures PlainMedium().fileBytes(Single(k, v), n) <= U64_MAX
  {
    hide Length, PlainMedium, Single, FilterSize;
    OneSize(k, v, n);
    FilterIsSmall();
  }

  lemma {:induction false} AfterPut(c: Setup, db: Db, k: string, v: string)
    requires db.memtable == [] && c.limit > 1
    ensures var r := Step(c, db, PutOp(k, v)); r.memtable == Single(k, v) && r.tables == db.tables
    ensures FittingStep(c, db, PutOp(k, v))
  {
    hide FlushFits, AppendCommand;
    assert Insert(db.memtable, k, Data(v)) == Single(k, v) by {
      assert [Entry(k, Data(v))] + [] == [Entry(k, Data(v))];
    }
  }

  /** A write and its flush fit when the merge the flush starts does. */
  lemma {:induction false} PairFits(c: Setup, db: Db, k: string, v: string)
    requires c.medium == PlainMedium() && db.memtable == [] && c.limit > 1 && Short(k, v)
    requires PickedL0Fits(c.medium, Written(c, db.tables, k, v))
    ensures FittingStep(c, db, PutOp(k, v)) && FittingStep(c, Step(c, db, PutOp(k, v)), FlushOp)
  {
    hide PickedL0Fits, Step, Short, PlainMedium, Flushed;
    AfterPut(c, db, k, v);
    SizeFits(k, v, 1);
    assert |Single(k, v)| == 1;
  }

  lemma {:induction false} FewFit(m: Medium, s: Manager)
    requires |s.l0| < 3
    ensures PickedL0Fits(m, s)
  {
    FewTablesStay(m, s);
    hide PickL0;
  }

  lemma {:induction false} OverlayThree(k: string, a: string, b: string, d: string)
    ensures Overlay([Single(k, d), Single(k, b), Single(k, a)]) == map[k := Data(a)]
  {
    SingleSorted(k, a);
    SingleSorted(k, b);
    SingleSorted(k, d);
    hide Contents;
    var x, y, z := Single(k, d), Single(k, b), Single(k, a);
    assert [x, y, z] == [x] + [y] + [z];
    OverlayConcat([x] + [y], [z]);
    OverlayConcat([x], [y]);
    OverlaySingle(x);
    OverlaySingle(y);
    OverlaySingle(z);
  }

  /** What the merge of the three tables emits. */
  lemma {:induction false} MergesToOldest(ts: seq<SSTable>, k: string, a: string, b: string, d: string)
    requires Stack(ts) == [Single(k, d), Single(k, b), Single(k, a)]
    ensures MergedRecords(ts, false) == Single(k, a)
  {
    OverlayThree(k, a, b, d);
    SingleSorted(k, a);
    hide Overlay, Stack, Sorted, Contents;
    ListingUnique(MergedRecords(ts, false), Single(k, a));
  }

  lemma {:induction false} OneGroup(r: Record)
    ensures Split([r]) == [[r]]
  {
    assert [r][..0] == [] && Split([]) == [];
    assert [] + [[r]] == [[r]];
  }

  lemma {:induction false} NewestFirst(l0: seq<SSTable>, k: string, a: string, b: string, d: string)
    requires Stack(l0) == [Single(k, a), Single(k, b), Single(k, d)]
    ensures InRange(l0, [2, 1, 0]) && Stack(Pick(l0, [2, 1, 0])) == [Single(k, d), Single(k, b), Single(k, a)]
  {
    hide RecordsOf, Single;
    assert |l0| == |Stack(l0)| == 3;
    StackPick(l0, [2, 1, 0]);
  }

  lemma {:induction false} OldestFits(ts: seq<SSTable>, k: string, a: string, b: string, d: string)
    requires Stack(ts) == [Single(k, d), Single(k, b), Single(k, a)] && Short(k, a)
    ensures MergeFits(PlainMedium(), ts, false)
  {
    hide Stack, Short, PlainMedium, MergedRecords, Split;
    MergesToOldest(ts, k, a, b, d);
    OneGroup(Single(k, a)[0]);
    SizeFits(k, a, TARGET_TABLE_SIZE);
  }

  lemma {:induction false} ThirdFits(c: Setup, id: nat, k: string, a: string, b: string, d: string)
    requires c.medium == PlainMedium() && Shrinking(c, k, a, b, d) && Short(k, a)
    ensures PickedL0Fits(c.medium, ThreeTables(c, id, k, a, b, d))
  {
    var s := ThreeTables(c, id, k, a, b, d);
    hide ThreeTables, Shrinking, PlainMedium, ValidMedium, ValidLevels, PickL0, Stack, Short, MergeFits, Single, SimilarThree, FindSizeTieredCandidates;
    PlainIsValid();
    ThreeTablesHold(c, id, k, a, b, d);
    NewestFirst(s.l0, k, a, b, d);
    OldestFits(Pick(s.l0, [2, 1, 0]), k, a, b, d);
    CandidatesExact(s.l0);
  }

  lemma {:induction false} PlainShrinks(c: Setup)
    requires c.medium == PlainMedium()
    ensures Shrinking(c, "k", "aaaa", "bbb", "cc")
    ensures Short("k", "aaaa") && Short("k", "bbb") && Short("k", "cc")
  {
    hide Length, PlainMedium, Single, FilterSize;
    AsciiLength("k");
    AsciiLength("aaaa");
    AsciiLength("bbb");
    AsciiLength("cc");
    OneSize("k", "aaaa", 1);
    OneSize("k", "bbb", 1);
    OneSize("k", "cc", 1);
  }

  lemma {:induction false} PlainWrite(key: string, value: string)
    requires Short(key, value) && CleanKey(key)
    ensures Admissible(PutOp(key, value)) && Admissible(FlushOp)
  {
  }

  /** All six steps fit. */
  lemma {:induction false} StepsFit(c: Setup, id: nat, k: string, a: string, b: string, d: string, i: nat)
    requires c.medium == PlainMedium() && c.limit > 1 && Shrinking(c, k, a, b, d) && Short(k, a) && Short(k, b) && Short(k, d) && i < 6
    ensures var ops := ThreeWrites(k, a, b, d); FittingStep(c, Run(c, Fresh(id), ops[..i]), ops[i])
  {
    hide Step, PickedL0Fits, PickedL0, FlushedTable, Shrinking, Short, PlainMedium, FittingStep;
    var ops := ThreeWrites(k, a, b, d);
    TwoFlushes(c, id, k, a, b, d);
    RunPrefix(c, Fresh(id), ops, i);
    hide Run;
    NothingRun(c, id);
    if i < 2 {
      FewFit(c.medium, Written(c, Fresh(id).tables, k, a));
      PairFits(c, Fresh(id), k, a);
    } else if i < 4 {
      FewFit(c.medium, Written(c, Written(c, Fresh(id).tables, k, a), k, b));
      PairFits(c, Run(c, Fresh(id), ops[..2]), k, b);
    } else {
      ThirdFits(c, id, k, a, b, d);
      PairFits(c, Run(c, Fresh(id), ops[..4]), k, d);
    }
  }

  lemma {:induction false} RunPrefix(c: Setup, db: Db, ops: seq<Op>, i: nat)
    requires 0 < i <= |ops| || i == 0
    ensures i > 0 ==> Run(c, db, ops[..i]) == Step(c, Run(c, db, ops[..i - 1]), ops[i - 1])
    ensures ops[..0] == []
  {
    hide Step;
    if i > 0 {
      assert ops[..i][..i - 1] == ops[..i - 1];
    }
  }

  /** So the assumption of safe picks cannot be dropped: here is a run, over files of true sizes, that meets everything else
      the recovery theorem asks and does not show its writes. */
  lemma {:induction false} SafePicksAreNeeded(id: nat) returns (c: Setup, ops: seq<Op>)
    ensures ValidMedium(c.medium) && c.medium == PlainMedium()
    ensures forall i :: 0 <= i < |ops| ==> FittingStep(c, Run(c, Fresh(id), ops[..i]), ops[i]) && Admissible(ops[i])
    ensures !Shows(c, Run(c, Fresh(id), ops), ApplyAll(map[], ops))
  {
    hide Run, FittingStep, ValidMedium, Shows, ApplyAll, Shrinking, PlainMedium, Admissible, Fresh, Short;
    c := Setup(PlainMedium(), _ => 0, 1000);
    ops := ThreeWrites("k", "aaaa", "bbb", "cc");
    PlainIsValid();
    PlainShrinks(c);
    SizeOrderLosesNewest(c, id, "k", "aaaa", "bbb", "cc");
    PlainWrite("k", "aaaa");
    PlainWrite("k", "bbb");
    PlainWrite("k", "cc");
    forall i | 0 <= i < |ops|
      ensures FittingStep(c, Run(c, Fresh(id), ops[..i]), ops[i]) && Admissible(ops[i])
    {
      StepsFit(c, id, "k", "aaaa", "bbb", "cc", i);
    }
  }
}
