/** A run with shutdowns in which a crash inside a merge loses a key: the condition of the crash theorems is met by some runs
    and not by others. */
module LostKeys {
  import opened Seqs
  import opened SortedMap
  import opened Records
  import opened Utf8
  import opened Commands
  import opened WriteAheadLog
  import opened TableBuilder
  import opened Selection
  import opened Leveling
  import opened ManagerState
  import opened Durability
  import opened Picker
  import opened Compactions
  import opened EngineState
  import opened Recovery
  import opened Strays
  import opened PlainFiles
  import opened PickOrder
  import opened CrashAnswers
  import opened CrashFlushes
  import opened L0Crashes
  import opened CrashRuns

  /** All tables in L0, of one size, each with one record; nothing in the memtable and nothing in the log. */
  ghost predicate Stage(c: Setup, db: Db, ts: seq<seq<Record>>, parts: seq<seq<Command>>) {
    && c.medium == PlainMedium() && c.limit == 1000
    && db.memtable == [] && Joined(parts) == []
    && Stack(db.tables.l0) == ts && db.tables.l1 == [] && db.tables.l2 == [] && OneSized(db.tables.l0)
  }

  /** The size of every table the run writes. */
  predicate OneSized(ts: seq<SSTable>) {
    forall i :: 0 <= i < |ts| ==> ts[i].fileSize == 109 + FilterSize()
  }

  lemma {:induction false} ShortText(k: string)
    requires |k| == 1 && k[0] as int < 0x80
    ensures Short(k, "x") && Length(k) == 1 && Length("x") == 1
  {
    hide Length;
    AsciiLength(k);
    AsciiLength("x");
  }

  lemma {:induction false} FewPicksSafe(m: Medium, s: Manager)
    requires |s.l0| < 3
    ensures PickIsSafe(s.l0) && PickedL0Fits(m, s) && PickedL0(m, s) == s
  {
    FewTablesStay(m, s);
    FewFit(m, s);
    hide PickL0;
  }

  predicate PlainKey(k: string) {
    |k| == 1 && k[0] as int < 0x80 && CleanKey(k)
  }

  /** The write is safe, fits and is admissible, and leaves the record in the memtable. */
  lemma {:induction false} PutStage(c: Setup, db: Db, ts: seq<seq<Record>>, parts: seq<seq<Command>>, k: string)
    requires Stage(c, db, ts, parts) && PlainKey(k)
    ensures GoodStep(c, db, PutOp(k, "x"))
    ensures var r := Step(c, db, PutOp(k, "x")); r.memtable == Single(k, "x") && r.tables == db.tables
    ensures Step(c, db, PutOp(k, "x")).wal == AppendCommand(c.crc, db.wal, Set(k, "x"))
  {
    ShortText(k);
    PlainWrite(k, "x");
    AfterPut(c, db, k, "x");
    hide AppendCommand, PlainMedium, FlushFits, FlushIsSafe, Admissible, Short;
    assert |Single(k, "x")| == 1;
  }

  lemma {:induction false} FlushedSize(id: nat, k: string)
    requires |k| == 1 && k[0] as int < 0x80
    ensures FlushedTable(PlainMedium(), id, Single(k, "x")).fileSize == 109 + FilterSize()
  {
    ShortText(k);
    OneSize(k, "x", 1);
    hide PlainMedium, WriteFile, FilterFor, FilterSize, Length;
    assert |Single(k, "x")| == 1;
  }

  lemma {:induction false} FlushedStack(m: Medium, s: Manager, k: string)
    requires ValidMedium(m)
    ensures var f := Flushed(m, s, Single(k, "x"));
            Stack(f.l0) == Stack(s.l0) + [Single(k, "x")] && f.l0 == s.l0 + [FlushedTable(m, s.nextId, Single(k, "x"))]
            && f.l1 == s.l1 && f.l2 == s.l2
  {
    var data := Single(k, "x");
    var t := FlushedTable(m, s.nextId, data);
    SingleSorted(k, "x");
    FlushedTableValid(m, s.nextId, data);
    hide ValidMedium, WriteFile, Sorted, RecordsOf, FlushedTable, Single;
    StackConcat(s.l0, [t]);
    assert Stack([t]) == [data];
  }

  lemma {:induction false} FlushedStage(m: Medium, s: Manager, k: string)
    requires m == PlainMedium() && |k| == 1 && k[0] as int < 0x80 && OneSized(s.l0)
    ensures var f := Flushed(m, s, Single(k, "x"));
            && Stack(f.l0) == Stack(s.l0) + [Single(k, "x")] && f.l1 == s.l1 && f.l2 == s.l2 && OneSized(f.l0)
  {
    PlainIsValid();
    hide PlainMedium, ValidMedium, Flushed, FlushedTable, FilterSize, Single, Stack;
    FlushedSize(s.nextId, k);
    FlushedStack(m, s, k);
  }

  lemma {:induction false} ReopenedStage(m: Medium, s: Manager)
    requires Durable(m, s) && OneSized(s.l0) && s.l1 == [] && s.l2 == []
    ensures var r := Reopened(s); Stack(r.l0) == Stack(s.l0) && OneSized(r.l0) && r.l1 == [] && r.l2 == []
  {
    ReopenedLevels(m, s);
    ReloadedExact(m, s.disk, s.l0);
    hide Reopened, Durable, Backed, AllValid;
  }

  /** What a good run asks of one step. */
  ghost predicate GoodStep(c: Setup, db: Db, op: Op) {
    SafeStep(c, db, op) && FittingStep(c, db, op) && Admissible(op)
  }

  /** The database with one record in the memtable and few tables. */
  ghost predicate Ready(c: Setup, db: Db, k: string) {
    c.medium == PlainMedium() && |db.tables.l0| < 2 && |k| == 1 && k[0] as int < 0x80 && db.memtable == Single(k, "x")
  }

  lemma {:induction false} ReadyFlush(c: Setup, db: Db, k: string)
    requires Ready(c, db, k)
    ensures db.memtable != [] && Flush(c, db) == db.(memtable := [], tables := Flushed(c.medium, db.tables, Single(k, "x")))
  {
    var f := Flushed(c.medium, db.tables, Single(k, "x"));
    assert |f.l0| < 3 by {
      hide PlainMedium, FlushedTable;
    }
    hide PlainMedium, PickedL0, Flushed;
    FewPicksSafe(c.medium, f);
  }

  lemma {:induction false} ReadyFits(c: Setup, db: Db, k: string)
    requires Ready(c, db, k)
    ensures FlushIsSafe(c, db) && FlushFits(c, db)
  {
    var f := Flushed(c.medium, db.tables, Single(k, "x"));
    assert |f.l0| < 3 by {
      hide PlainMedium, FlushedTable;
    }
    hide PlainMedium, PickIsSafe, PickedL0Fits, PickedL0, Short, Flushed;
    ShortText(k);
    SizeFits(k, "x", 1);
    FewPicksSafe(c.medium, f);
    assert |Single(k, "x")| == 1;
  }

  /** A shutdown is safe then, and fits. */
  lemma {:induction false} ShutFits(c: Setup, db: Db, k: string)
    requires Ready(c, db, k)
    ensures GoodStep(c, db, ShutdownOp)
  {
    hide PlainMedium, Single, FlushIsSafe, FlushFits, Ready, PickedL0Fits, PickedL1Fits, PickedL0, PickIsSafe, Write, AppendCommand, Insert;
    ReadyFits(c, db, k);
  }

  lemma {:induction false} ShutIsRestart(c: Setup, db: Db, f: Manager)
    requires db.memtable != [] && Flush(c, db) == db.(memtable := [], tables := f)
    ensures Step(c, db, ShutdownOp) == Restart(c, Db([], f, CheckpointLog(ResetLog(db.wal))))
  {
    hide Flush, Restart;
  }

  lemma {:induction false} EmptyRestart(c: Setup, db: Db)
    requires LoadAll(c.crc, OpenLog(db.wal.segments)) == Some([])
    ensures var r := Restart(c, db); r.memtable == [] && r.tables == Reopened(db.tables) && LoadAll(c.crc, r.wal) == Some([])
  {
    NothingReplayed();
    hide LoadAll, OpenLog;
  }

  /** What is there after the shutdown and the restart. */
  lemma {:induction false} ShutLeaves(c: Setup, db: Db, spec: map<string, string>, parts: seq<seq<Command>>, k: string)
    requires Ready(c, db, k) && Shows(c, db, spec) && Recovers(c, db, spec, parts)
    ensures var r, f := Step(c, db, ShutdownOp), Flushed(c.medium, db.tables, Single(k, "x"));
            r.memtable == [] && r.tables == Reopened(f) && LoadAll(c.crc, r.wal) == Some([])
  {
    OpenedUp(c, db, spec, parts);
    hide Shows, Recovers, Durable, Flush, Flushed, HoldsLog, LoadAll, OpenLog, CheckpointLog, ResetLog, Joined, ValidLevels, Single, Step, Restart, Ready;
    var parts' := ShutdownHolds(c.crc, db.wal, parts);
    LoadExact(c.crc, OpenLog(CheckpointLog(ResetLog(db.wal)).segments), parts');
    ReadyFlush(c, db, k);
    var f := Flushed(c.medium, db.tables, Single(k, "x"));
    ShutIsRestart(c, db, f);
    EmptyRestart(c, Db([], f, CheckpointLog(ResetLog(db.wal))));
  }

  lemma {:induction false} ShutDurable(c: Setup, db: Db, spec: map<string, string>, parts: seq<seq<Command>>, k: string)
    requires Ready(c, db, k) && Shows(c, db, spec) && Recovers(c, db, spec, parts)
    ensures Durable(c.medium, Flushed(c.medium, db.tables, Single(k, "x")))
  {
    PlainIsValid();
    ReadyFits(c, db, k);
    ReadyFlush(c, db, k);
    hide Shows, Recovers, Durable, Flush, Flushed, PlainMedium, ValidMedium, FlushFits, FlushIsSafe;
    FlushedStaysDurable(c, db, spec, parts);
  }

  /** The write takes the stage to a ready database. */
  lemma {:induction false} PutReady(c: Setup, db: Db, spec: map<string, string>, parts: seq<seq<Command>>, ts: seq<seq<Record>>, k: string)
    returns (mid: seq<seq<Command>>)
    requires Stage(c, db, ts, parts) && |ts| < 2 && PlainKey(k) && Shows(c, db, spec) && Recovers(c, db, spec, parts)
    ensures var p := Step(c, db, PutOp(k, "x"));
            Ready(c, p, k) && p.tables == db.tables && Shows(c, p, spec[k := "x"]) && Recovers(c, p, spec[k := "x"], mid)
  {
    PlainIsValid();
    PutStage(c, db, ts, parts, k);
    assert |db.tables.l0| == |Stack(db.tables.l0)| < 2;
    hide Shows, PlainMedium, ValidMedium, SafeStep, FittingStep, Admissible, Step, Recovers, Joined, Single, Stack;
    mid := StepRecovers(c, db, spec, parts, PutOp(k, "x"));
  }

  lemma {:induction false} ReadyStage(c: Setup, p: Db, spec: map<string, string>, parts: seq<seq<Command>>, ts: seq<seq<Record>>, k: string)
    requires Ready(c, p, k) && c.limit == 1000 && Shows(c, p, spec) && Recovers(c, p, spec, parts)
    requires Stack(p.tables.l0) == ts && p.tables.l1 == [] && p.tables.l2 == [] && OneSized(p.tables.l0)
    ensures var r := Step(c, p, ShutdownOp);
            forall last :: Joined(last) == [] ==> Stage(c, r, ts + [Single(k, "x")], last)
    ensures LoadAll(c.crc, Step(c, p, ShutdownOp).wal) == Some([])
  {
    hide Shows, PlainMedium, Step, Recovers, Flushed, OneSized, Joined, LoadAll, Stack, Durable, Reopened;
    FlushedStage(c.medium, p.tables, k);
    ShutLeaves(c, p, spec, parts, k);
    ShutDurable(c, p, spec, parts, k);
    ReopenedStage(c.medium, Flushed(c.medium, p.tables, Single(k, "x")));
  }

  /** One write and one shutdown add one table. */
  lemma {:induction false} NextStage(c: Setup, db: Db, spec: map<string, string>, parts: seq<seq<Command>>, ts: seq<seq<Record>>, k: string)
    returns (parts': seq<seq<Command>>)
    requires Stage(c, db, ts, parts) && |ts| < 2 && PlainKey(k) && Shows(c, db, spec) && Recovers(c, db, spec, parts)
    ensures var r := Step(c, Step(c, db, PutOp(k, "x")), ShutdownOp);
            Shows(c, r, spec[k := "x"]) && Recovers(c, r, spec[k := "x"], parts') && Stage(c, r, ts + [Single(k, "x")], parts')
    ensures GoodStep(c, db, PutOp(k, "x")) && GoodStep(c, Step(c, db, PutOp(k, "x")), ShutdownOp)
  {
    hide Shows, PlainMedium, ValidMedium, SafeStep, FittingStep, Admissible, Step, Recovers, OneSized, Joined, LoadAll, Single, Ready;
    PlainIsValid();
    PutStage(c, db, ts, parts, k);
    var p := Step(c, db, PutOp(k, "x"));
    var mid := PutReady(c, db, spec, parts, ts, k);
    ReadyStage(c, p, spec[k := "x"], mid, ts, k);
    hide Stage, Stack;
    ShutFits(c, p, k);
    parts' := StepRecovers(c, p, spec[k := "x"], mid, ShutdownOp);
    HeldIsLoaded(c, Step(c, p, ShutdownOp), spec[k := "x"], parts');
  }

  lemma {:induction false} HeldIsLoaded(c: Setup, db: Db, spec: map<string, string>, parts: seq<seq<Command>>)
    requires Recovers(c, db, spec, parts)
    ensures LoadAll(c.crc, db.wal) == Some(Joined(parts))
  {
    hide LoadAll, Joined, Durable, Logged, LastWins, CleanLogged, HoldsLog;
    LoadExact(c.crc, db.wal, parts);
  }

  /** Two keys written and shut down, one in the memtable. */
  function TwoShutdowns(): seq<Op> {
    [PutOp("a", "x"), ShutdownOp, PutOp("b", "x"), ShutdownOp, PutOp("c", "x")]
  }

  lemma {:induction false} FreshStage(c: Setup, id: nat) returns (parts: seq<seq<Command>>)
    requires c.medium == PlainMedium() && c.limit == 1000
    ensures Stage(c, Fresh(id), [], parts) && Shows(c, Fresh(id), map[]) && Recovers(c, Fresh(id), map[], parts)
  {
    hide PlainMedium, Shows, Recovers, OpenLog, Joined, LoadAll, HoldsLog;
    parts := FreshShows(c, id);
    var empty := EmptyLogHolds(c.crc, map[]);
    LoadExact(c.crc, OpenLog(map[]), empty);
    HeldIsLoaded(c, Fresh(id), map[], parts);
    assert Stack([]) == [];
  }

  /** The run up to its last write. */
  lemma {:induction false} FourSteps(c: Setup, id: nat) returns (parts: seq<seq<Command>>)
    requires c.medium == PlainMedium() && c.limit == 1000
    ensures var ops := TwoShutdowns();
            && (forall i :: 0 <= i < 4 ==> GoodStep(c, Run(c, Fresh(id), ops[..i]), ops[i]))
            && var db, spec := Run(c, Fresh(id), ops[..4]), map["a" := "x", "b" := "x"];
               Stage(c, db, [Single("a", "x"), Single("b", "x")], parts) && Shows(c, db, spec) && Recovers(c, db, spec, parts)
  {
    hide PlainMedium, Shows, Recovers, Stage, Step, GoodStep, Single;
    var ops := TwoShutdowns();
    NothingRun(c, id);
    RunPrefix(c, Fresh(id), ops, 1);
    RunPrefix(c, Fresh(id), ops, 2);
    RunPrefix(c, Fresh(id), ops, 3);
    RunPrefix(c, Fresh(id), ops, 4);
    hide Run, Fresh;
    parts := FreshStage(c, id);
    parts := NextStage(c, Run(c, Fresh(id), ops[..0]), map[], parts, [], "a");
    assert [] + [Single("a", "x")] == [Single("a", "x")];
    parts := NextStage(c, Run(c, Fresh(id), ops[..2]), map["a" := "x"], parts, [Single("a", "x")], "b");
    assert [Single("a", "x")] + [Single("b", "x")] == [Single("a", "x"), Single("b", "x")];
    assert map[]["a" := "x"] == map["a" := "x"] && map["a" := "x"]["b" := "x"] == map["a" := "x", "b" := "x"];
  }

  /** The log knows the last key alone. */
  lemma {:induction false} LastLogged(c: Setup, db: Db, spec: map<string, string>, parts: seq<seq<Command>>, ts: seq<seq<Record>>,
                                      mid: seq<seq<Command>>)
    requires Stage(c, db, ts, parts) && Shows(c, db, spec) && Recovers(c, db, spec, parts)
    requires Recovers(c, Step(c, db, PutOp("c", "x")), spec["c" := "x"], mid)
    ensures Logged(mid) == map["c" := Data("x")]
  {
    ShownIsSorted(c, db, spec);
    NothingReplayed();
    ShortText("c");
    PlainWrite("c", "x");
    PutStage(c, db, ts, parts, "c");
    WrittenLogged(c, db, spec, parts, mid);
  }

  lemma {:induction false} WrittenLogged(c: Setup, db: Db, spec: map<string, string>, parts: seq<seq<Command>>, mid: seq<seq<Command>>)
    requires Recovers(c, db, spec, parts) && Sorted(db.memtable) && Writable(Set("c", "x")) && Logged(parts) == map[]
    requires Step(c, db, PutOp("c", "x")).wal == AppendCommand(c.crc, db.wal, Set("c", "x"))
    requires Recovers(c, Step(c, db, PutOp("c", "x")), spec["c" := "x"], mid)
    ensures Logged(mid) == map["c" := Data("x")]
  {
    hide Step, HoldsLog, Durable, LastWins, CleanLogged, AppendCommand, Writable, Sorted, Logged, Contents, Insert;
    var own := AppendLogged(c, db, spec, parts, Set("c", "x"));
    SameLogged(c.crc, AppendCommand(c.crc, db.wal, Set("c", "x")), own, mid);
  }

  function Three(): seq<seq<Record>> {
    [Single("a", "x"), Single("b", "x"), Single("c", "x")]
  }

  lemma {:induction false} ThreeKeys(k: string)
    ensures forall i :: 0 <= i < 3 ==> (HasKey(Three()[i], k) <==> k == ["a", "b", "c"][i])
  {
    SingleSorted("a", "x");
    SingleSorted("b", "x");
    SingleSorted("c", "x");
    hide Single, Contents, Sorted;
  }

  /** Tables without a common key may be merged in any order. */
  lemma {:induction false} ThreeSafe(c: seq<nat>)
    requires InRange(Three(), c) && Distinct(c)
    ensures KeySafe(Three(), c)
  {
    hide HasKey, Single;
    forall p, k | 0 <= p < |c| && Newest(Three(), c[p], k)
      ensures !Overtaken(Three(), c, p, k)
    {
      ThreeKeys(k);
      assert c[p] in c;
    }
  }

  /** Three tables of one size are picked. */
  lemma {:induction false} ThreePicked(l0: seq<SSTable>) returns (choice: seq<nat>)
    requires |l0| == 3 && OneSized(l0)
    ensures PickL0(l0) == Some(choice) && InRange(l0, choice) && Distinct(choice) && |choice| == 3
    ensures forall j :: 0 <= j < 3 ==> j in choice
  {
    hide FindSizeTieredCandidates;
    CandidatesExact(l0);
    assert SimilarThree(l0, 0, 1, 2) by {
      hide FilterSize;
    }
    choice := FindSizeTieredCandidates(l0);
    Everyone(choice);
  }

  lemma {:induction false} Everyone(c: seq<nat>)
    requires |c| == 3 && Distinct(c) && forall p :: 0 <= p < 3 ==> c[p] < 3
    ensures forall j :: 0 <= j < 3 ==> j in c
  {
    assert c[0] != c[1] && c[0] != c[2] && c[1] != c[2];
    assert c[0] in c && c[1] in c && c[2] in c;
  }

  /** With all three tables gone and none listed the levels hold nothing. */
  lemma {:induction false} NothingLeft(m: Medium, s: Manager, c: seq<nat>)
    requires ReachedL0(m, s, c, |SortDescending(c)|, 0) && Stack(s.l0) == Three() && s.l1 == [] && s.l2 == []
    requires forall j :: 0 <= j < 3 ==> j in c
    ensures Lookup(RawL0(m, s, c, |SortDescending(c)|, 0, Stack(s.l0)), "a") == None
  {
    var d := SortDescending(c);
    SortDescendingExact(c, |s.l0|);
    TakeAll(d);
    hide SortDescending, OutputL0, Three, HasKey, Overlay;
    assert |s.l0| == |Stack(s.l0)| == 3;
    UnchosenLacks(Stack(s.l0), d, "a");
    NothingAgain(m, s, c);
    NothingBelowL0(s);
  }

  lemma {:induction false} NothingBelowL0(s: Manager)
    requires s.l1 == [] && s.l2 == []
    ensures Under(s) == map[]
  {
    assert Stack([]) == [];
  }

  /** Two tables in L0, the third record in the memtable and alone in the log. */
  ghost predicate BeforeMerge(c: Setup, db: Db, spec: map<string, string>, parts: seq<seq<Command>>) {
    && Shows(c, db, spec) && Recovers(c, db, spec, parts) && Logged(parts) == map["c" := Data("x")]
    && db.memtable == Single("c", "x") && Stack(db.tables.l0) == [Single("a", "x"), Single("b", "x")]
    && db.tables.l1 == [] && db.tables.l2 == [] && OneSized(db.tables.l0)
  }

  lemma {:induction false} FifthPut(c: Setup, db: Db, parts: seq<seq<Command>>) returns (mid: seq<seq<Command>>)
    requires var spec := map["a" := "x", "b" := "x"];
             Stage(c, db, [Single("a", "x"), Single("b", "x")], parts) && Shows(c, db, spec) && Recovers(c, db, spec, parts)
    ensures GoodStep(c, db, PutOp("c", "x"))
    ensures BeforeMerge(c, Step(c, db, PutOp("c", "x")), map["a" := "x", "b" := "x", "c" := "x"], mid)
  {
    var ts, spec := [Single("a", "x"), Single("b", "x")], map["a" := "x", "b" := "x"];
    PlainIsValid();
    hide PlainMedium, ValidMedium, Shows, Recovers, Step, Single, OneSized, Logged, Joined, Stack, SafeStep, FittingStep, Admissible;
    PutStage(c, db, ts, parts, "c");
    mid := StepRecovers(c, db, spec, parts, PutOp("c", "x"));
    LastLogged(c, db, spec, parts, ts, mid);
    assert spec["c" := "x"] == map["a" := "x", "b" := "x", "c" := "x"];
  }

  lemma {:induction false} FifthStep(c: Setup, id: nat) returns (mid: seq<seq<Command>>)
    requires c.medium == PlainMedium() && c.limit == 1000
    ensures var ops := TwoShutdowns();
            && (forall i :: 0 <= i < 5 ==> GoodStep(c, Run(c, Fresh(id), ops[..i]), ops[i]))
            && BeforeMerge(c, Run(c, Fresh(id), ops), map["a" := "x", "b" := "x", "c" := "x"], mid)
  {
    var ops := TwoShutdowns();
    RunPrefix(c, Fresh(id), ops, 5);
    TakeAll(ops);
    hide PlainMedium, Shows, Recovers, Step, Single, Run, Fresh, Stage, BeforeMerge, GoodStep;
    var parts := FourSteps(c, id);
    mid := FifthPut(c, Run(c, Fresh(id), ops[..4]), parts);
  }

  lemma {:induction false} GoodAll(c: Setup, db: Db, ops: seq<Op>)
    requires forall i :: 0 <= i < |ops| ==> GoodStep(c, Run(c, db, ops[..i]), ops[i])
    ensures GoodRun(c, db, ops)
  {
    hide SafeStep, FittingStep, Admissible, Run;
  }

  lemma {:induction false} WrittenMap()
    ensures ApplyAll(map[], TwoShutdowns()) == map["a" := "x", "b" := "x", "c" := "x"]
  {
    var ops := TwoShutdowns();
    assert ops == ops[..4] + [ops[4]] && ops[..4] == ops[..2] + [ops[2], ops[3]] && ops[..2] == [] + [ops[0], ops[1]];
    ApplyTwo(map[], [], ops[0], ops[1]);
    ApplyTwo(map[], ops[..2], ops[2], ops[3]);
    assert ApplyAll(map[], []) == map[];
    assert ApplyAll(map[], ops) == Apply(ApplyAll(map[], ops[..4]), ops[4]);
  }

  /** The database in the middle of its flush: the third table listed, the merge about to begin. */
  function Flushing(c: Setup, db: Db): Db
    requires db.memtable != []
  {
    db.(tables := Flushed(c.medium, db.tables, db.memtable))
  }

  lemma {:induction false} ThreeInAll(t: Manager, s: Manager)
    requires Stack(t.l0) == Stack(s.l0) + [Single("c", "x")] && Stack(s.l0) == [Single("a", "x"), Single("b", "x")]
    ensures Stack(t.l0) == Three() && |t.l0| == 3
  {
    hide Single, RecordsOf;
    assert |Stack(t.l0)| == |t.l0|;
    assert [Single("a", "x"), Single("b", "x")] + [Single("c", "x")] == Three();
  }

  lemma {:induction false} AboutToMerge(c: Setup, db: Db, spec: map<string, string>, parts: seq<seq<Command>>)
    requires c.medium == PlainMedium() && BeforeMerge(c, db, spec, parts) && ListedBut(db.tables, {})
    ensures db.memtable != [] && var d := Flushing(c, db);
            && Shows(c, d, spec) && Recovers(c, d, spec, parts)
            && Stack(d.tables.l0) == Three() && |d.tables.l0| == 3 && OneSized(d.tables.l0) && d.tables.l1 == [] && d.tables.l2 == []
  {
    PlainIsValid();
    ShortText("c");
    SizeFits("c", "x", 1);
    assert |Single("c", "x")| == 1;
    hide PlainMedium, ValidMedium, Shows, Recovers, ListedBut, Flushed, OneSized, Logged, Single, Stack, Three, Short, Length;
    FlushedInBetween(c, db, spec, parts);
    FlushedStage(c.medium, db.tables, "c");
    ThreeInAll(Flushing(c, db).tables, db.tables);
  }

  /** The key is gone when the merge has removed its tables and the process stops. */
  lemma {:induction false} LostInMerge(c: Setup, d: Db, spec: map<string, string>, parts: seq<seq<Command>>, choice: seq<nat>, strays: seq<SSTable>)
    requires c.medium == PlainMedium() && Shows(c, d, spec) && Recovers(c, d, spec, parts) && Logged(parts) == map["c" := Data("x")]
    requires Stack(d.tables.l0) == Three() && |d.tables.l0| == 3 && d.tables.l1 == [] && d.tables.l2 == []
    requires InRange(d.tables.l0, choice) && Distinct(choice) && forall j :: 0 <= j < 3 ==> j in choice
    requires ReachedL0(c.medium, d.tables, choice, |SortDescending(choice)|, 0)
    requires forall o :: o in strays ==> IsStray(AfterL0(c, d, choice, |SortDescending(choice)|, 0).tables, o)
    ensures Answer(Search(c.medium.hasher, Adopt(AfterL0(c, d, choice, |SortDescending(choice)|, 0), strays), "a")) == None
  {
    PlainIsValid();
    hide PlainMedium, ValidMedium, Shows, Recovers, Logged, SortDescending, IsStray, RawL0, ReachedL0, Three, Stack, AfterL0, Search;
    NothingLeft(c.medium, d.tables, choice);
    L0CrashAnswers(c, d, spec, parts, choice, |SortDescending(choice)|, 0, strays, "a");
  }

  lemma {:induction false} MergeBegins(m: Medium, s: Manager, choice: seq<nat>)
    requires InRange(s.l0, choice) && Distinct(choice)
    ensures ReachedL0(m, s, choice, |SortDescending(choice)|, 0)
  {
    hide OutputL0, SortDescending;
  }

  /** The picker makes this choice, which is safe; after a crash with all its tables removed and none listed the key is not
      found, whatever unlisted files start-up picks up. */
  ghost predicate LosesInMerge(c: Setup, d: Db, choice: seq<nat>, key: string) {
    && PickL0(d.tables.l0) == Some(choice) && PickIsSafe(d.tables.l0)
    && ReachedL0(c.medium, d.tables, choice, |SortDescending(choice)|, 0)
    && var r := AfterL0(c, d, choice, |SortDescending(choice)|, 0);
       forall strays: seq<SSTable> :: (forall o :: o in strays ==> IsStray(r.tables, o)) ==>
         Answer(Search(c.medium.hasher, Adopt(r, strays), key)) == None
  }

  lemma {:induction false} FiveOps()
    ensures |TwoShutdowns()| == 5
  {
  }

  lemma {:induction false} MergeLoses(c: Setup, db: Db, spec: map<string, string>, parts: seq<seq<Command>>) returns (choice: seq<nat>)
    requires c.medium == PlainMedium() && BeforeMerge(c, db, spec, parts) && ListedBut(db.tables, {})
    ensures db.memtable != [] && LosesInMerge(c, Flushing(c, db), choice, "a")
  {
    assert Logged(parts) == map["c" := Data("x")];
    hide PlainMedium, Shows, Recovers, Logged, BeforeMerge, Flushing, Three, OneSized, ListedBut, LosesInMerge, Stack;
    AboutToMerge(c, db, spec, parts);
    choice := PickedLoses(c, Flushing(c, db), spec, parts);
  }

  lemma {:induction false} PickedLoses(c: Setup, d: Db, spec: map<string, string>, parts: seq<seq<Command>>) returns (choice: seq<nat>)
    requires c.medium == PlainMedium() && Shows(c, d, spec) && Recovers(c, d, spec, parts) && Logged(parts) == map["c" := Data("x")]
    requires Stack(d.tables.l0) == Three() && |d.tables.l0| == 3 && OneSized(d.tables.l0) && d.tables.l1 == [] && d.tables.l2 == []
    ensures LosesInMerge(c, d, choice, "a")
  {
    hide PlainMedium, Shows, Recovers, Logged, SortDescending, IsStray, Stack, AfterL0, Search, Three, OneSized, PickL0, PickIsSafe,
         ReachedL0, Adopt, Answer;
    choice := ThreePicked(d.tables.l0);
    ThreeIsSafe(d.tables.l0, choice);
    MergeBegins(c.medium, d.tables, choice);
    forall strays: seq<SSTable> | forall o :: o in strays ==> IsStray(AfterL0(c, d, choice, |SortDescending(choice)|, 0).tables, o)
      ensures Answer(Search(c.medium.hasher, Adopt(AfterL0(c, d, choice, |SortDescending(choice)|, 0), strays), "a")) == None
    {
      LostInMerge(c, d, spec, parts, choice, strays);
    }
  }

  lemma {:induction false} ThreeIsSafe(l0: seq<SSTable>, choice: seq<nat>)
    requires Stack(l0) == Three() && |l0| == 3 && PickL0(l0) == Some(choice) && InRange(l0, choice) && Distinct(choice)
    ensures PickIsSafe(l0)
  {
    hide KeySafe, PickL0, Stack, FindSizeTieredCandidates, SimilarThree;
    CandidatesExact(l0);
    ThreeSafe(choice);
  }

  lemma {:induction false} GoodFive(c: Setup, id: nat) returns (parts: seq<seq<Command>>)
    requires c.medium == PlainMedium() && c.limit == 1000
    ensures var ops := TwoShutdowns();
            && GoodRun(c, Fresh(id), ops) && ListedBut(Run(c, Fresh(id), ops).tables, {})
            && BeforeMerge(c, Run(c, Fresh(id), ops), map["a" := "x", "b" := "x", "c" := "x"], parts)
  {
    FiveOps();
    PlainIsValid();
    hide PlainMedium, ValidMedium, Run, Fresh, GoodStep, GoodRun, BeforeMerge, TwoShutdowns, ListedBut;
    parts := FifthStep(c, id);
    GoodAll(c, Fresh(id), TwoShutdowns());
    RunListed(c, id, TwoShutdowns());
  }

  /** So the condition on the log cannot be dropped: here is a good run, over files of true sizes, with shutdowns in it. In the
      flush that follows the picker makes a safe choice; when the process stops after the merge has removed the chosen
      tables and before it lists the new one, a key that was written and never deleted is not found again. */
  lemma {:induction false} LostAfterShutdown(id: nat) returns (c: Setup, ops: seq<Op>, choice: seq<nat>)
    ensures ValidMedium(c.medium) && c.medium == PlainMedium() && GoodRun(c, Fresh(id), ops)
    ensures Lookup(ApplyAll(map[], ops), "a") == Some("x")
    ensures var db := Run(c, Fresh(id), ops); db.memtable != [] && LosesInMerge(c, Flushing(c, db), choice, "a")
  {
    hide PlainMedium, ValidMedium, Run, Fresh, GoodStep, GoodRun, BeforeMerge, TwoShutdowns, LosesInMerge, Flushing, ApplyAll;
    c := Setup(PlainMedium(), _ => 0, 1000);
    ops := TwoShutdowns();
    PlainIsValid();
    WrittenMap();
    var parts := GoodFive(c, id);
    choice := MergeLoses(c, Run(c, Fresh(id), ops), map["a" := "x", "b" := "x", "c" := "x"], parts);
  }
}
