/** A crash inside an append to the log: the restart shows the map before the write, or after it. */
module TornWrites {
  import opened Seqs
  import opened SortedMap
  import opened Records
  import opened Utf8
  import opened Commands
  import opened WriteAheadLog
  import opened Manifests
  import opened Durability
  import opened Compactions
  import opened EngineState
  import opened Recovery

  /** A cut behind the frames of `cs` leaves all of them. */
  lemma {:induction false} NoneEarlier(crc: Checksum, cs: seq<Command>, c: Command, n: nat)
    requires |SegmentOf(crc, cs)| <= n
    ensures Whole(crc, cs + [c], n) >= |cs|
  {
    hide Frame;
    if cs != [] {
      TailOfSnoc(cs, c);
      NoneEarlier(crc, cs[1..], c, n - |Frame(crc, cs[0])|);
    }
  }

  /** A cut behind all frames but the last one leaves all commands but the last one, unless it cuts nothing. */
  lemma {:induction false} WholeButLast(crc: Checksum, cs: seq<Command>, c: Command, n: nat)
    requires |SegmentOf(crc, cs)| <= n <= |SegmentOf(crc, cs + [c])|
    ensures (cs + [c])[..Whole(crc, cs + [c], n)] == if n == |SegmentOf(crc, cs + [c])| then cs + [c] else cs
  {
    hide Whole, SegmentOf;
    NoneEarlier(crc, cs, c, n);
    WholeExact(crc, cs + [c], n);
    TakeAll(cs + [c]);
    InitOfSnoc(cs, c);
  }

  lemma {:induction false} LoadBeyond(crc: Checksum, segments: map<nat, Bytes>, n: nat, d: nat)
    requires n <= d && forall i :: n <= i < d ==> FileOr(segments, i) == []
    ensures LoadFirst(crc, segments, d) == LoadFirst(crc, segments, n)
  {
    if n < d {
      LoadBeyond(crc, segments, n, d - 1);
      assert FileOr(segments, d - 1) == [];
      NothingParses(crc);
      BothNothing(LoadFirst(crc, segments, d - 1));
    }
  }

  /** A restart reads a torn log to where the crash left it. */
  lemma {:induction false} TornReopens(crc: Checksum, log: Log, parts: seq<seq<Command>>, n: nat)
    requires HoldsLog(crc, log, parts) && n <= |log.segments[log.current]|
    ensures LoadAll(crc, OpenLog(Torn(log, n).segments)) == LoadAll(crc, Torn(log, n))
  {
    hide HoldsSegment, LoadFirst;
    var files := Torn(log, n).segments;
    DiscoverExact(files, 0);
    var d := Discover(files, 0);
    assert d + 1 !in files && forall i :: i in files <==> i in log.segments;
    assert d >= log.current;
    assert files[d := FileOr(files, d)] == files;
    LoadBeyond(crc, files, log.current + 1, d + 1);
  }

  /** The log with `command` half appended: the open segment is cut somewhere in the new frame, or not at all. */
  ghost predicate InLastFrame(c: Setup, wal: Log, command: Command, n: nat) {
    var after := AppendCommand(c.crc, wal, command);
    after.current in after.segments &&
    |after.segments[after.current]| - |Frame(c.crc, command)| <= n <= |after.segments[after.current]|
  }

  /** What the segment that takes the next frame holds before it. */
  function Holding(crc: Checksum, wal: Log, parts: seq<seq<Command>>, command: Command): seq<Command>
    requires |parts| == wal.current + 1
  {
    if wal.size + |Frame(crc, command)| > SEGMENT_SIZE then [] else parts[wal.current]
  }

  lemma {:induction false} LastAppended(crc: Checksum, wal: Log, parts: seq<seq<Command>>, command: Command)
    requires |parts| == wal.current + 1
    ensures var all, before := Appended(crc, wal, parts, command), Holding(crc, wal, parts, command);
            all != [] && all[|all| - 1] == before + [command] && Joined(all[..|all| - 1]) + before == Joined(parts)
  {
    hide Frame;
    var k := wal.current;
    InitOfSnoc(parts, [command]);
    InitOfSnoc(parts[..k], parts[k] + [command]);
    assert [] + [command] == [command];
    ConcatNothing(Joined(parts));
  }

  /** What such a log loads: the commands before, or those and the new one. */
  lemma {:induction false} TornAppendLoads(c: Setup, wal: Log, parts: seq<seq<Command>>, command: Command, n: nat)
    requires HoldsLog(c.crc, wal, parts) && Writable(command) && InLastFrame(c, wal, command, n)
    ensures var after := AppendCommand(c.crc, wal, command);
            LoadAll(c.crc, OpenLog(Torn(after, n).segments)) ==
            Some(if n == |after.segments[after.current]| then Joined(parts) + [command] else Joined(parts))
  {
    var after, parts' := AppendCommand(c.crc, wal, command), Appended(c.crc, wal, parts, command);
    var before := Holding(c.crc, wal, parts, command);
    HoldsShape(c.crc, wal, parts);
    AppendHolds(c.crc, wal, parts, command);
    TornReopens(c.crc, after, parts', n);
    TornLoad(c.crc, after, parts', n);
    LastHeld(c.crc, after, parts');
    LastAppended(c.crc, wal, parts, command);
    SegmentAppend(c.crc, before, command);
    hide AppendCommand, Appended, Holding, HoldsLog, Torn, OpenLog, LoadAll, Joined, Whole, Frame, SegmentOf;
    WholeButLast(c.crc, before, command, n);
    ConcatAssociates(Joined(parts'[..after.current]), before, [command]);
  }

  lemma {:induction false} LastHeld(crc: Checksum, log: Log, parts: seq<seq<Command>>)
    requires HoldsLog(crc, log, parts)
    ensures log.current in log.segments && |parts| == log.current + 1
    ensures log.segments[log.current] == SegmentOf(crc, parts[log.current])
  {
    assert HoldsSegment(crc, log.segments, log.current, parts[log.current]);
  }

  lemma {:induction false} RestartWith(c: Setup, db: Db, wal: Log, commands: seq<Command>)
    requires LoadAll(c.crc, OpenLog(wal.segments)) == Some(commands)
    ensures Restart(c, db.(wal := wal)) == Db(Replayed(commands), Reopened(db.tables), OpenLog(wal.segments))
  {
    hide LoadAll, OpenLog, Replay, Replayed, Load;
  }

  function Written(spec: map<string, string>, command: Command): map<string, string>
    requires command.Set? || command.Del?
  {
    if command.Set? then spec[command.key := command.value] else spec - {command.key}
  }

  /** What such a restart shows, by the commands it loads. */
  lemma {:induction false} LoadedShows(c: Setup, db: Db, wal: Log, commands: seq<Command>, spec: map<string, string>)
    requires ValidLevels(c.medium, db.tables) && Durable(c.medium, db.tables)
    requires LoadAll(c.crc, OpenLog(wal.segments)) == Some(commands)
    requires Live(Raw(db.tables) + Contents(Replayed(commands))) == spec
    ensures Shows(c, Restart(c, db.(wal := wal)), spec)
  {
    hide LoadAll, OpenLog, Replayed, Restart, Durable, ValidLevels, Raw, Contents, Reopened;
    RestartWith(c, db, wal, commands);
    ReopenedKeeps(c.medium, db.tables);
    ReplayedSorted(commands);
  }

  lemma {:induction false} LoggedShows(c: Setup, db: Db, spec: map<string, string>, parts: seq<seq<Command>>)
    requires Shows(c, db, spec) && Recovers(c, db, spec, parts)
    ensures ValidLevels(c.medium, db.tables) && Durable(c.medium, db.tables) && HoldsLog(c.crc, db.wal, parts)
    ensures Live(Raw(db.tables) + Logged(parts)) == spec
  {
    hide HoldsLog, Durable, ValidLevels, Raw, Contents, Logged;
    LoggedDecides(Raw(db.tables), Contents(db.memtable), Logged(parts));
  }

  /** A crash inside the append of a write, wherever it cuts the frame: the restart shows the map before the
      write, or after it when the whole frame was there. */
  lemma {:induction false} TornWriteShows(c: Setup, db: Db, spec: map<string, string>, parts: seq<seq<Command>>, command: Command, n: nat)
    requires Shows(c, db, spec) && Recovers(c, db, spec, parts) && Writable(command) && InLastFrame(c, db.wal, command, n)
    ensures var after := AppendCommand(c.crc, db.wal, command);
            Shows(c, Restart(c, db.(wal := Torn(after, n))),
                  if n == |after.segments[after.current]| then Written(spec, command) else spec)
  {
    var after := AppendCommand(c.crc, db.wal, command);
    LoggedShows(c, db, spec, parts);
    TornAppendLoads(c, db.wal, parts, command, n);
    hide Shows, Recovers, HoldsLog, InLastFrame, AppendCommand, Torn, OpenLog, LoadAll, Restart, Durable, ValidLevels, Raw, Contents, Joined, Replayed;
    if n == |after.segments[after.current]| {
      ReplayedAppend(Joined(parts), command);
      LiveUpdate(Raw(db.tables), Logged(parts), command.key, ValueOf(command));
      LoadedShows(c, db, Torn(after, n), Joined(parts) + [command], Written(spec, command));
    } else {
      LoadedShows(c, db, Torn(after, n), Joined(parts), spec);
    }
  }
}
