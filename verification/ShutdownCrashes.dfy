/** A crash inside a shutdown, when the open segment of the log is emptied and the earlier ones are deleted one by one. */
module ShutdownCrashes {
  import opened Seqs
  import opened SortedMap
  import opened Records
  import opened Utf8
  import opened Commands
  import opened WriteAheadLog
  import opened Durability
  import opened Compactions
  import opened EngineState
  import opened Recovery
  import opened TornWrites
  import opened CrashAnswers

  /** The log with its open segment emptied and its first `k` segments deleted. */
  function MidShutdown(log: Log, k: nat): Log {
    log.(segments := map i | i in ResetLog(log).segments && i >= k :: ResetLog(log).segments[i])
  }

  /** The commands of the segments left that a restart gets to: it looks for segment 1 to go on from segment 0. */
  function LeftBehind(parts: seq<seq<Command>>, k: nat): seq<Command>
    requires parts != [] && k < |parts|
  {
    if k < 2 then Joined(parts[k..|parts| - 1]) else []
  }

  lemma {:induction false} JoinedFront(parts: seq<seq<Command>>)
    ensures Joined([[]] + parts) == Joined(parts)
  {
    var none: seq<Command> := [];
    if parts == [] {
      assert [none][..0] == [] && Joined([none][..0]) == [];
      assert [none] + [] == [none];
    } else {
      var n := |parts| - 1;
      JoinedFront(parts[..n]);
      assert ([none] + parts)[..|[none] + parts| - 1] == [none] + parts[..n];
    }
  }

  lemma {:induction false} JoinedBack(parts: seq<seq<Command>>)
    ensures Joined(parts + [[]]) == Joined(parts)
  {
    var none: seq<Command> := [];
    InitOfSnoc(parts, none);
    ConcatNothing(Joined(parts));
  }

  /** What the segments hold then, from the first that a restart asks for. */
  function Remaining(parts: seq<seq<Command>>, k: nat): seq<seq<Command>>
    requires parts != [] && k < |parts| && k < 2
  {
    (if k == 0 then [] else [[]]) + parts[k..|parts| - 1] + [[]]
  }

  lemma {:induction false} RemainingJoined(parts: seq<seq<Command>>, k: nat)
    requires parts != [] && k < |parts| && k < 2
    ensures Joined(Remaining(parts, k)) == LeftBehind(parts, k)
  {
    var rest := parts[k..|parts| - 1];
    if k == 0 {
      assert [] + rest == rest;
    } else {
      JoinedFront(rest);
    }
    JoinedBack((if k == 0 then [] else [[]]) + rest);
  }

  lemma {:induction false} RemainingAt(parts: seq<seq<Command>>, k: nat, i: nat)
    requires parts != [] && k < |parts| && k < 2 && i < |parts|
    ensures |Remaining(parts, k)| == |parts|
    ensures Remaining(parts, k)[i] == if k <= i < |parts| - 1 then parts[i] else []
  {
  }

  lemma {:induction false} LeftFile(log: Log, k: nat, i: nat)
    ensures var files := MidShutdown(log, k).segments;
            if i == log.current || i < k then FileOr(files, i) == []
            else FileOr(files, i) == FileOr(log.segments, i) && (i in files <==> i in log.segments)
  {
  }

  lemma {:induction false} RemainingHeld(crc: Checksum, log: Log, parts: seq<seq<Command>>, k: nat, i: nat)
    requires HoldsLog(crc, log, parts) && k <= log.current && k < 2 && i <= log.current
    ensures |Remaining(parts, k)| == |parts| && HoldsSegment(crc, MidShutdown(log, k).segments, i, Remaining(parts, k)[i])
  {
    assert HoldsSegment(crc, log.segments, i, parts[i]);
    RemainingAt(parts, k, i);
    LeftFile(log, k, i);
    hide SegmentOf, MidShutdown, Remaining, FileOr;
    if !(k <= i < log.current) {
      EmptySegment(crc, MidShutdown(log, k).segments, i);
    }
  }

  /** With at most one segment deleted a restart looks into all that are left. */
  lemma {:induction false} LeftDiscovered(crc: Checksum, log: Log, parts: seq<seq<Command>>, k: nat)
    requires HoldsLog(crc, log, parts) && k <= log.current && k < 2
    ensures var files := MidShutdown(log, k).segments;
            && Discover(files, 0) >= log.current && OpenLog(files) == Log(files, Discover(files, 0), |FileOr(files, Discover(files, 0))|, 0)
            && forall i :: i > log.current ==> FileOr(files, i) == []
  {
    var files := MidShutdown(log, k).segments;
    DiscoverExact(files, 0);
    hide HoldsSegment;
    var d := Discover(files, 0);
    assert d + 1 !in files && d >= log.current;
    assert files[d := FileOr(files, d)] == files;
  }

  lemma {:induction false} AllRemaining(crc: Checksum, log: Log, parts: seq<seq<Command>>, k: nat)
    requires HoldsLog(crc, log, parts) && k <= log.current && k < 2
    ensures LoadFirst(crc, MidShutdown(log, k).segments, log.current + 1) == Some(LeftBehind(parts, k))
  {
    hide HoldsSegment, LoadFirst, Joined, MidShutdown, Remaining, LeftBehind;
    var files, rest := MidShutdown(log, k).segments, Remaining(parts, k);
    RemainingAt(parts, k, 0);
    forall i | 0 <= i < |rest|
      ensures HoldsSegment(crc, files, i, rest[i])
    {
      RemainingHeld(crc, log, parts, k, i);
    }
    LoadParts(crc, files, rest);
    RemainingJoined(parts, k);
  }

  lemma {:induction false} FoundAgain(crc: Checksum, log: Log, parts: seq<seq<Command>>, k: nat)
    requires HoldsLog(crc, log, parts) && k <= log.current && k < 2
    ensures LoadAll(crc, OpenLog(MidShutdown(log, k).segments)) == Some(LeftBehind(parts, k))
  {
    var files := MidShutdown(log, k).segments;
    LeftDiscovered(crc, log, parts, k);
    AllRemaining(crc, log, parts, k);
    HoldsShape(crc, log, parts);
    hide HoldsLog, LoadFirst, MidShutdown, OpenLog, Discover, FileOr, LeftBehind;
    LoadBeyond(crc, files, log.current + 1, Discover(files, 0) + 1);
  }

  /** With more deleted it starts a new log. */
  lemma {:induction false} NotFound(crc: Checksum, log: Log, k: nat)
    requires 2 <= k
    ensures LoadAll(crc, OpenLog(MidShutdown(log, k).segments)) == Some([])
  {
    var files := MidShutdown(log, k).segments;
    assert 1 !in files && Discover(files, 0) == 0 && FileOr(files, 0) == [];
    assert OpenLog(files) == Log(files[0 := []], 0, 0, 0);
    NothingParses(crc);
    hide ParseSegment, MidShutdown, OpenLog;
    BothNothing(ParseSegment(crc, []));
    assert LoadFirst(crc, files[0 := []], 1) == Both(LoadFirst(crc, files[0 := []], 0), ParseSegment(crc, []));
  }

  /** What a restart loads after a crash in the middle of a shutdown. */
  lemma {:induction false} LeftIsLoaded(crc: Checksum, log: Log, parts: seq<seq<Command>>, k: nat)
    requires HoldsLog(crc, log, parts) && k <= log.current
    ensures k < |parts| && LoadAll(crc, OpenLog(MidShutdown(log, k).segments)) == Some(LeftBehind(parts, k))
  {
    hide LoadAll, OpenLog, MidShutdown, HoldsSegment, Joined;
    if k < 2 {
      FoundAgain(crc, log, parts, k);
    } else {
      NotFound(crc, log, k);
    }
  }

  /** Older commands over newer tables: harmless exactly when they say what the tables show. */
  lemma {:induction false} ReplayedOver(raw: map<string, Value>, logged: map<string, Value>, spec: map<string, string>)
    requires Live(raw) == spec
    ensures Live(raw + logged) == spec <==> LastWins(logged, spec)
  {
    if LastWins(logged, spec) {
      forall k | k in logged
        ensures Lookup(spec, k) == Seen(logged[k])
      {
      }
      assert Live(raw + logged) == spec;
    } else {
      var k :| k in logged && Lookup(spec, k) != Seen(logged[k]);
      assert Lookup(Live(raw + logged), k) == Seen(logged[k]);
    }
  }

  /** A crash inside a shutdown, the memtable flushed, the open segment emptied and the first `k` segments deleted: the restart
      shows the map if and only if the last command of each key, among the commands it still loads, says what the map
      says. */
  lemma {:induction false} ShutdownCrashExactly(c: Setup, f: Db, spec: map<string, string>, parts: seq<seq<Command>>, k: nat)
    requires Shows(c, f, spec) && Recovers(c, f, spec, parts) && f.memtable == [] && k <= f.wal.current
    ensures parts != [] && k < |parts|
    ensures Live(RawDb(Restart(c, f.(wal := MidShutdown(f.wal, k))))) == spec <==>
            LastWins(Contents(Replayed(LeftBehind(parts, k))), spec)
  {
    var left := MidShutdown(f.wal, k);
    OpenedUp(c, f, spec, parts);
    LeftIsLoaded(c.crc, f.wal, parts, k);
    hide Durable, HoldsLog, ValidLevels, MidShutdown, LeftBehind, LoadAll, OpenLog, Restart, Raw, Reopened, Contents, Replayed, LastWins;
    RestartWith(c, f, left, LeftBehind(parts, k));
    ReopenedKeeps(c.medium, f.tables);
    NothingReplayed();
    NothingOver(Raw(f.tables));
    ReplayedOver(Raw(f.tables), Contents(Replayed(LeftBehind(parts, k))), spec);
  }

  /** While the log has one segment no crash inside a shutdown shows. */
  lemma {:induction false} OneSegmentIsSafe(c: Setup, f: Db, spec: map<string, string>, parts: seq<seq<Command>>)
    requires Shows(c, f, spec) && Recovers(c, f, spec, parts) && f.memtable == [] && f.wal.current == 0
    ensures Live(RawDb(Restart(c, f.(wal := MidShutdown(f.wal, 0))))) == spec
  {
    ShutdownCrashExactly(c, f, spec, parts, 0);
    OpenedUp(c, f, spec, parts);
    hide Shows, Recovers, Durable, ValidLevels, MidShutdown, Restart, Raw, RawDb;
    assert parts[0..0] == [] && Joined([]) == [];
    NothingReplayed();
  }

  lemma {:induction false} JoinedConcat(a: seq<seq<Command>>, b: seq<seq<Command>>)
    ensures Joined(a + b) == Joined(a) + Joined(b)
  {
    if b == [] {
      ConcatNothing(a);
      ConcatNothing(Joined(a));
    } else {
      var n := |b| - 1;
      JoinedConcat(a, b[..n]);
      assert (a + b)[..|a| + n] == a + b[..n];
      ConcatAssociates(Joined(a), Joined(b[..n]), b[n]);
    }
  }

  /** The log when, later on, segments have been written anew up to the first of those left. */
  ghost predicate GrownBack(crc: Checksum, log: Log, k: nat, files: map<nat, Bytes>, anew: seq<seq<Command>>) {
    && |anew| == k && (forall i :: 0 <= i < k ==> i in files && HoldsSegment(crc, files, i, anew[i]))
    && (forall i :: i >= k ==> FileOr(files, i) == FileOr(MidShutdown(log, k).segments, i))
    && (forall i :: i >= k ==> (i in files <==> i in MidShutdown(log, k).segments))
  }

  lemma {:induction false} GrownSegment(crc: Checksum, log: Log, parts: seq<seq<Command>>, k: nat, files: map<nat, Bytes>,
                                        anew: seq<seq<Command>>, i: nat)
    requires HoldsLog(crc, log, parts) && 2 <= k <= log.current && GrownBack(crc, log, k, files, anew) && i < log.current
    ensures HoldsSegment(crc, files, i, if i < k then anew[i] else parts[i])
  {
    assert HoldsSegment(crc, log.segments, i, parts[i]);
    LeftFile(log, k, i);
    hide SegmentOf, MidShutdown, FileOr;
  }

  lemma {:induction false} GrownHeld(crc: Checksum, log: Log, parts: seq<seq<Command>>, k: nat, files: map<nat, Bytes>,
                                     anew: seq<seq<Command>>, i: nat)
    requires HoldsLog(crc, log, parts) && 2 <= k <= log.current && GrownBack(crc, log, k, files, anew) && i < log.current
    ensures |parts| == log.current + 1 && |anew + parts[k..log.current]| == log.current
    ensures HoldsSegment(crc, files, i, (anew + parts[k..log.current])[i])
  {
    GrownSegment(crc, log, parts, k, files, anew, i);
    HoldsShape(crc, log, parts);
    assert |anew| == k;
    hide HoldsSegment, HoldsLog, GrownBack;
    Spliced(anew, parts, log.current, i);
  }

  lemma {:induction false} DiscoveredFrom(files: map<nat, Bytes>, n: nat)
    requires n > 0 && forall i :: 1 <= i <= n ==> i in files
    ensures Discover(files, 0) >= n
    ensures OpenLog(files) == Log(files, Discover(files, 0), |FileOr(files, Discover(files, 0))|, 0)
  {
    DiscoverExact(files, 0);
    var d := Discover(files, 0);
    assert d + 1 !in files;
    assert files[d := FileOr(files, d)] == files;
  }

  lemma {:induction false} LoadsFrom(crc: Checksum, files: map<nat, Bytes>, n: nat)
    requires n > 0 && (forall i :: 1 <= i <= n ==> i in files) && forall i :: i >= n ==> FileOr(files, i) == []
    ensures LoadAll(crc, OpenLog(files)) == LoadFirst(crc, files, n)
  {
    DiscoveredFrom(files, n);
    hide OpenLog, Discover, FileOr, LoadFirst;
    LoadBeyond(crc, files, n, Discover(files, 0) + 1);
  }

  lemma {:induction false} GrownFile(crc: Checksum, log: Log, parts: seq<seq<Command>>, k: nat, files: map<nat, Bytes>,
                                     anew: seq<seq<Command>>, i: nat)
    requires HoldsLog(crc, log, parts) && 2 <= k <= log.current && GrownBack(crc, log, k, files, anew)
    ensures i <= log.current ==> i in files
    ensures i >= log.current ==> FileOr(files, i) == []
  {
    LeftFile(log, k, i);
    hide HoldsSegment;
  }

  lemma {:induction false} GrownFiles(crc: Checksum, log: Log, parts: seq<seq<Command>>, k: nat, files: map<nat, Bytes>, anew: seq<seq<Command>>)
    requires HoldsLog(crc, log, parts) && 2 <= k <= log.current && GrownBack(crc, log, k, files, anew)
    ensures forall i :: 1 <= i <= log.current ==> i in files
    ensures forall i :: i >= log.current ==> FileOr(files, i) == []
  {
    hide HoldsLog, GrownBack, FileOr;
    forall i: nat
      ensures i <= log.current ==> i in files
      ensures i >= log.current ==> FileOr(files, i) == []
    {
      GrownFile(crc, log, parts, k, files, anew, i);
    }
  }

  lemma {:induction false} GrownLoaded(crc: Checksum, log: Log, parts: seq<seq<Command>>, k: nat, files: map<nat, Bytes>, anew: seq<seq<Command>>)
    requires HoldsLog(crc, log, parts) && 2 <= k <= log.current && GrownBack(crc, log, k, files, anew) && |parts| == log.current + 1
    ensures LoadFirst(crc, files, log.current) == Some(Joined(anew) + Joined(parts[k..log.current]))
  {
    var all := anew + parts[k..log.current];
    JoinedConcat(anew, parts[k..log.current]);
    hide HoldsSegment, HoldsLog, GrownBack, LoadFirst, Joined;
    GrownHeld(crc, log, parts, k, files, anew, 0);
    forall i | 0 <= i < |all|
      ensures HoldsSegment(crc, files, i, all[i])
    {
      GrownHeld(crc, log, parts, k, files, anew, i);
    }
    LoadParts(crc, files, all);
  }

  /** Once the log has grown back to them, the segments that an interrupted shutdown left are replayed behind the newer
      commands. */
  lemma {:induction false} LeftSegmentsReturn(crc: Checksum, log: Log, parts: seq<seq<Command>>, k: nat, files: map<nat, Bytes>,
                                              anew: seq<seq<Command>>)
    requires HoldsLog(crc, log, parts) && 2 <= k <= log.current && GrownBack(crc, log, k, files, anew)
    ensures |parts| == log.current + 1
    ensures LoadAll(crc, OpenLog(files)) == Some(Joined(anew) + Joined(parts[k..log.current]))
  {
    HoldsShape(crc, log, parts);
    GrownFiles(crc, log, parts, k, files, anew);
    hide HoldsLog, GrownBack, OpenLog, FileOr, LoadAll, LoadFirst, Joined;
    GrownLoaded(crc, log, parts, k, files, anew);
    LoadsFrom(crc, files, log.current);
  }
}
