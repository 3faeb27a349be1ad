/** The write-ahead log: framed commands in numbered segments, rotated at a size limit. */
module WriteAheadLog {
  import opened Seqs
  import opened SortedMap
  import opened Utf8
  import opened Words
  import opened Commands

  const SEGMENT_SIZE: nat := 1024 * 1024

  /** Checksum and length of the payload, then the payload. */
  function Frame(crc: Checksum, c: Command): (b: Bytes)
    ensures |b| == 8 + |Serialize(crc, c)|
  {
    var p := Serialize(crc, c);
    BE32(crc(p)) + BE32(|p|) + p
  }

  function SegmentOf(crc: Checksum, cs: seq<Command>): Bytes {
    if cs == [] then [] else Frame(crc, cs[0]) + SegmentOf(crc, cs[1..])
  }

  function Consed(c: Command, cs: Option<seq<Command>>): Option<seq<Command>> {
    match cs
    case None => None
    case Some(t) => Some([c] + t)
  }

  function Both(a: Option<seq<Command>>, b: Option<seq<Command>>): Option<seq<Command>> {
    if a.Some? && b.Some? then Some(a.value + b.value) else None
  }

  /** The commands of one segment: reading stops at the first frame that is cut short or fails its checksum;
      a payload that is no command is skipped. None is the index error that stops the program. */
  function ParseSegment(crc: Checksum, b: Bytes): Option<seq<Command>>
    decreases |b|
  {
    if |b| < 8 then Some([])
    else
      var end := 8 + Word32(b[4..8]);
      if end > |b| || Word32(b[..4]) != crc(b[8..end]) then Some([])
      else
        match Deserialize(crc, b[8..end])
        case Panics => None
        case Rejected => ParseSegment(crc, b[end..])
        case Parsed(c, _) => Consed(c, ParseSegment(crc, b[end..]))
  }

  /** A write whose payload length fits the frame's 32 bits. */
  predicate Writable(c: Command) {
    (c.Set? || c.Del?) && 4 + |Body(c)| < WORD32
  }

  predicate AllWritable(cs: seq<Command>) {
    forall i :: 0 <= i < |cs| ==> Writable(cs[i])
  }

  lemma {:induction false} FrameSlices(crc: Checksum, c: Command, rest: Bytes)
    ensures var b, p := Frame(crc, c) + rest, Serialize(crc, c);
            && b[..4] == BE32(crc(p)) && b[4..8] == BE32(|p|) && b[8..8 + |p|] == p && b[8 + |p|..] == rest
  {
    hide Serialize, BE32;
  }

  /** Reading one frame whose payload is whole and whose checksum is right. */
  lemma {:induction false} ReadFrame(crc: Checksum, b: Bytes, p: Bytes)
    requires |b| >= 8 + |p| && |p| < WORD32
    requires b[..4] == BE32(crc(p)) && b[4..8] == BE32(|p|) && b[8..8 + |p|] == p
    ensures ParseSegment(crc, b) ==
            match Deserialize(crc, p)
            case Panics => None
            case Rejected => ParseSegment(crc, b[8 + |p|..])
            case Parsed(c, _) => Consed(c, ParseSegment(crc, b[8 + |p|..]))
  {
    hide BE32, Word32, Deserialize;
    Word32RoundTrip(crc(p));
    Word32RoundTrip(|p|);
  }

  lemma {:induction false} WritableFits(crc: Checksum, c: Command)
    requires Writable(c)
    ensures Fits(c) && |Serialize(crc, c)| < WORD32
  {
  }

  /** A frame gives back its command, whatever follows. */
  lemma {:induction false} ParseFrame(crc: Checksum, c: Command, rest: Bytes)
    requires Writable(c)
    ensures ParseSegment(crc, Frame(crc, c) + rest) == Consed(c, ParseSegment(crc, rest))
  {
    hide Serialize, BE32, Word32, Deserialize, Frame, ParseSegment;
    var p := Serialize(crc, c);
    WritableFits(crc, c);
    FrameSlices(crc, c, rest);
    ReadFrame(crc, Frame(crc, c) + rest, p);
    ReadsBack(crc, c, []);
    ConcatNothing(p);
  }

  lemma {:induction false} ParseSegmentOf(crc: Checksum, cs: seq<Command>, tail: Bytes)
    requires AllWritable(cs)
    ensures ParseSegment(crc, SegmentOf(crc, cs) + tail) == Both(Some(cs), ParseSegment(crc, tail))
  {
    hide ParseSegment, Frame;
    if cs == [] {
      assert SegmentOf(crc, cs) + tail == tail;
      BothNothing(ParseSegment(crc, tail));
    } else {
      ConcatAssociates(Frame(crc, cs[0]), SegmentOf(crc, cs[1..]), tail);
      ParseFrame(crc, cs[0], SegmentOf(crc, cs[1..]) + tail);
      ParseSegmentOf(crc, cs[1..], tail);
      PrependBoth(cs, ParseSegment(crc, tail));
    }
  }

  lemma {:induction false} BothNothing(x: Option<seq<Command>>)
    ensures Both(Some([]), x) == x && Both(x, Some([])) == x
  {
    if x.Some? {
      assert [] + x.value == x.value && x.value + [] == x.value;
    }
  }

  lemma {:induction false} PrependBoth(cs: seq<Command>, x: Option<seq<Command>>)
    requires cs != []
    ensures Consed(cs[0], Both(Some(cs[1..]), x)) == Both(Some(cs), x)
  {
    HeadTail(cs);
    if x.Some? {
      ConcatAssociates([cs[0]], cs[1..], x.value);
    }
  }

  /** A frame cut anywhere gives nothing. */
  lemma {:induction false} TornFrame(crc: Checksum, c: Command, n: nat)
    requires Writable(c) && n < |Frame(crc, c)|
    ensures ParseSegment(crc, Frame(crc, c)[..n]) == Some([])
  {
    hide Serialize, BE32, Frame, Word32;
    var f, p := Frame(crc, c), Serialize(crc, c);
    WritableFits(crc, c);
    FrameSlices(crc, c, []);
    ConcatNothing(f);
    if n >= 8 {
      assert f[..n][4..8] == f[4..8];
      Word32RoundTrip(|p|);
    }
  }

  /** How many frames lie whole in the first `n` bytes. */
  function Whole(crc: Checksum, cs: seq<Command>, n: nat): (k: nat)
    ensures k <= |cs|
  {
    if cs == [] || n < |Frame(crc, cs[0])| then 0 else 1 + Whole(crc, cs[1..], n - |Frame(crc, cs[0])|)
  }

  lemma {:induction false} WholeExact(crc: Checksum, cs: seq<Command>, n: nat)
    ensures var k := Whole(crc, cs, n);
            |SegmentOf(crc, cs[..k])| <= n && (k < |cs| ==> |SegmentOf(crc, cs[..k + 1])| > n)
  {
    hide Frame;
    if cs != [] {
      assert cs[..1] == [cs[0]] && [cs[0]][1..] == [] && SegmentOf(crc, []) == [];
      assert SegmentOf(crc, [cs[0]]) == Frame(crc, cs[0]) + [];
      if n >= |Frame(crc, cs[0])| {
        var k := Whole(crc, cs[1..], n - |Frame(crc, cs[0])|);
        WholeExact(crc, cs[1..], n - |Frame(crc, cs[0])|);
        assert cs[..k + 1][1..] == cs[1..][..k];
        if k + 1 < |cs| {
          assert cs[..k + 2][1..] == cs[1..][..k + 1];
        }
      }
    }
  }

  /** A segment cut at any byte gives exactly the commands whose frames lie whole before the cut. */
  lemma {:induction false} TornTail(crc: Checksum, cs: seq<Command>, n: nat)
    requires AllWritable(cs) && n <= |SegmentOf(crc, cs)|
    ensures ParseSegment(crc, SegmentOf(crc, cs)[..n]) == Some(cs[..Whole(crc, cs, n)])
  {
    hide ParseSegment, Frame;
    if cs == [] {
      ParseSegmentOf(crc, [], []);
      NothingParses(crc);
    } else {
      var f, rest := Frame(crc, cs[0]), SegmentOf(crc, cs[1..]);
      PrefixOfConcat(f, rest, n);
      if n < |f| {
        TornFrame(crc, cs[0], n);
      } else {
        ParseFrame(crc, cs[0], rest[..n - |f|]);
        TornTail(crc, cs[1..], n - |f|);
        var k := Whole(crc, cs[1..], n - |f|);
        PrefixOfCons(cs, k);
      }
    }
  }

  lemma {:induction false} NothingParses(crc: Checksum)
    ensures ParseSegment(crc, []) == Some([]) && forall s: Bytes :: s[..0] == []
  {
  }

  lemma {:induction false} SegmentAppend(crc: Checksum, cs: seq<Command>, c: Command)
    ensures SegmentOf(crc, cs + [c]) == SegmentOf(crc, cs) + Frame(crc, c)
  {
    hide Frame;
    if cs == [] {
      assert [c][1..] == [] && [] + [c] == [c];
      assert SegmentOf(crc, [c]) == Frame(crc, c) + [];
    } else {
      SegmentAppend(crc, cs[1..], c);
      assert (cs + [c])[1..] == cs[1..] + [c] && (cs + [c])[0] == cs[0];
      ConcatAssociates(Frame(crc, cs[0]), SegmentOf(crc, cs[1..]), Frame(crc, c));
    }
  }

  /** The segment files, the one open for appending, the size kept for it, and how far checkpoints went. */
  datatype Log = Log(segments: map<nat, Bytes>, current: nat, size: nat, checkpointed: nat)

  function FileOr(segments: map<nat, Bytes>, i: nat): Bytes {
    if i in segments then segments[i] else []
  }

  ghost function After(segments: map<nat, Bytes>, s: nat): set<nat> {
    set k | k in segments && k > s
  }

  lemma {:induction false} AfterShrinks(segments: map<nat, Bytes>, s: nat)
    requires s + 1 in segments
    ensures After(segments, s + 1) < After(segments, s)
  {
    assert s + 1 in After(segments, s) && s + 1 !in After(segments, s + 1);
  }

  /** The last of the contiguous segments from `s` on. */
  function Discover(segments: map<nat, Bytes>, s: nat): nat
    decreases After(segments, s)
  {
    if s + 1 in segments then
      AfterShrinks(segments, s);
      Discover(segments, s + 1)
    else s
  }

  function OpenLog(segments: map<nat, Bytes>): Log {
    var s := Discover(segments, 0);
    Log(segments[s := FileOr(segments, s)], s, |FileOr(segments, s)|, 0)
  }

  /** The next segment is opened for appending, and its size taken to be zero. */
  function Rotate(log: Log): Log {
    var s := log.current + 1;
    log.(segments := log.segments[s := FileOr(log.segments, s)], current := s, size := 0)
  }

  function AppendFrame(crc: Checksum, log: Log, c: Command): Log {
    log.(segments := log.segments[log.current := FileOr(log.segments, log.current) + Frame(crc, c)],
         size := log.size + |Frame(crc, c)|)
  }

  function AppendCommand(crc: Checksum, log: Log, c: Command): Log {
    AppendFrame(crc, if log.size + |Frame(crc, c)| > SEGMENT_SIZE then Rotate(log) else log, c)
  }

  /** Empties the open segment; the kept size stays. */
  function ResetLog(log: Log): Log {
    log.(segments := log.segments[log.current := []])
  }

  /** Deletes the segments before the open one that no earlier checkpoint deleted. */
  function CheckpointLog(log: Log): Log {
    if log.current == 0 then log
    else
      log.(segments := map k | k in log.segments && !(log.checkpointed <= k < log.current) :: log.segments[k],
           checkpointed := log.current)
  }

  /** The commands of the first `n` segments; a missing one is skipped. */
  function LoadFirst(crc: Checksum, segments: map<nat, Bytes>, n: nat): Option<seq<Command>> {
    if n == 0 then Some([])
    else
      Both(LoadFirst(crc, segments, n - 1),
           if n - 1 in segments then ParseSegment(crc, segments[n - 1]) else Some([]))
  }

  function LoadAll(crc: Checksum, log: Log): Option<seq<Command>> {
    LoadFirst(crc, log.segments, log.current + 1)
  }

  function Joined(parts: seq<seq<Command>>): seq<Command> {
    if parts == [] then [] else Joined(parts[..|parts| - 1]) + parts[|parts| - 1]
  }

  /** Segment `i` holds exactly `cs`, and outgrows the limit only for a single command. */
  ghost predicate HoldsSegment(crc: Checksum, segments: map<nat, Bytes>, i: nat, cs: seq<Command>) {
    && FileOr(segments, i) == SegmentOf(crc, cs) && AllWritable(cs)
    && (|FileOr(segments, i)| <= SEGMENT_SIZE || |cs| == 1)
    && (i !in segments ==> cs == [])
  }

  /** The log of a running engine holds the commands `parts`, segment by segment. */
  ghost predicate HoldsLog(crc: Checksum, log: Log, parts: seq<seq<Command>>) {
    && |parts| == log.current + 1 && log.checkpointed == 0
    && (forall i :: 0 <= i < |parts| ==> HoldsSegment(crc, log.segments, i, parts[i]))
    && (forall i :: 1 <= i <= log.current ==> i in log.segments)
    && log.current in log.segments && log.size == |log.segments[log.current]|
    && (forall i :: i in log.segments && i > log.current ==> log.segments[i] == [])
  }

  lemma {:induction false} LoadParts(crc: Checksum, segments: map<nat, Bytes>, parts: seq<seq<Command>>)
    requires forall i :: 0 <= i < |parts| ==> HoldsSegment(crc, segments, i, parts[i])
    ensures LoadFirst(crc, segments, |parts|) == Some(Joined(parts))
  {
    if parts != [] {
      var n := |parts| - 1;
      LoadParts(crc, segments, parts[..n]);
      assert HoldsSegment(crc, segments, n, parts[n]);
      ParseSegmentOf(crc, parts[n], []);
      ConcatNothing(SegmentOf(crc, parts[n]));
      NothingParses(crc);
      ConcatNothing(parts[n]);
    }
  }

  /** Loading returns exactly the commands held, in order, across all segments. */
  lemma {:induction false} LoadExact(crc: Checksum, log: Log, parts: seq<seq<Command>>)
    requires HoldsLog(crc, log, parts)
    ensures LoadAll(crc, log) == Some(Joined(parts))
  {
    LoadParts(crc, log.segments, parts);
  }

  /** The log after a crash that left the last segment with its first `n` bytes. */
  function Torn(log: Log, n: nat): Log
    requires log.current in log.segments && n <= |log.segments[log.current]|
  {
    log.(segments := log.segments[log.current := log.segments[log.current][..n]])
  }

  lemma {:induction false} TornLoad(crc: Checksum, log: Log, parts: seq<seq<Command>>, n: nat)
    requires HoldsLog(crc, log, parts) && n <= |log.segments[log.current]|
    ensures var last := parts[log.current];
            LoadAll(crc, Torn(log, n)) == Some(Joined(parts[..log.current]) + last[..Whole(crc, last, n)])
  {
    var k := log.current;
    assert HoldsSegment(crc, log.segments, k, parts[k]);
    forall i | 0 <= i < k
      ensures HoldsSegment(crc, Torn(log, n).segments, i, parts[i])
    {
      assert HoldsSegment(crc, log.segments, i, parts[i]);
    }
    LoadParts(crc, Torn(log, n).segments, parts[..k]);
    TornTail(crc, parts[k], n);
  }

  function Appended(crc: Checksum, log: Log, parts: seq<seq<Command>>, c: Command): seq<seq<Command>>
    requires |parts| == log.current + 1
  {
    if log.size + |Frame(crc, c)| > SEGMENT_SIZE then parts + [[c]]
    else parts[..log.current] + [parts[log.current] + [c]]
  }

  lemma {:induction false} JoinedAppended(crc: Checksum, log: Log, parts: seq<seq<Command>>, c: Command)
    requires |parts| == log.current + 1
    ensures Joined(Appended(crc, log, parts, c)) == Joined(parts) + [c]
  {
    var k := log.current;
    InitOfSnoc(parts, [c]);
    InitOfSnoc(parts[..k], parts[k] + [c]);
    ConcatAssociates(Joined(parts[..k]), parts[k], [c]);
  }

  lemma {:induction false} SegmentGrows(crc: Checksum, segments: map<nat, Bytes>, i: nat, cs: seq<Command>, c: Command)
    requires HoldsSegment(crc, segments, i, cs) && Writable(c)
    requires cs == [] || |FileOr(segments, i)| + |Frame(crc, c)| <= SEGMENT_SIZE
    ensures HoldsSegment(crc, segments[i := FileOr(segments, i) + Frame(crc, c)], i, cs + [c])
  {
    SegmentAppend(crc, cs, c);
    assert AllWritable(cs + [c]);
  }

  lemma {:induction false} SegmentStays(crc: Checksum, segments: map<nat, Bytes>, i: nat, cs: seq<Command>, j: nat, b: Bytes)
    requires HoldsSegment(crc, segments, i, cs) && i != j
    ensures HoldsSegment(crc, segments[j := b], i, cs)
  {
  }

  lemma {:induction false} RotateHolds(crc: Checksum, log: Log, parts: seq<seq<Command>>)
    requires HoldsLog(crc, log, parts)
    ensures HoldsLog(crc, Rotate(log), parts + [[]])
  {
    var r := Rotate(log);
    forall i | 0 <= i < |parts + [[]]|
      ensures HoldsSegment(crc, r.segments, i, (parts + [[]])[i])
    {
      if i < |parts| {
        SegmentStays(crc, log.segments, i, parts[i], r.current, FileOr(log.segments, r.current));
      }
    }
  }

  lemma {:induction false} AppendFrameHolds(crc: Checksum, log: Log, parts: seq<seq<Command>>, c: Command)
    requires HoldsLog(crc, log, parts) && Writable(c)
    requires parts[log.current] == [] || log.size + |Frame(crc, c)| <= SEGMENT_SIZE
    ensures HoldsLog(crc, AppendFrame(crc, log, c), parts[..log.current] + [parts[log.current] + [c]])
  {
    hide HoldsSegment;
    var k := log.current;
    var parts' := parts[..k] + [parts[k] + [c]];
    SegmentGrows(crc, log.segments, k, parts[k], c);
    forall i | 0 <= i < |parts'|
      ensures HoldsSegment(crc, AppendFrame(crc, log, c).segments, i, parts'[i])
    {
      if i < k {
        SegmentStays(crc, log.segments, i, parts[i], k, FileOr(log.segments, k) + Frame(crc, c));
      }
    }
  }

  /** Appending adds exactly one command at the end, rotating or not. */
  lemma {:induction false} AppendHolds(crc: Checksum, log: Log, parts: seq<seq<Command>>, c: Command)
    requires HoldsLog(crc, log, parts) && Writable(c)
    ensures HoldsLog(crc, AppendCommand(crc, log, c), Appended(crc, log, parts, c))
    ensures Joined(Appended(crc, log, parts, c)) == Joined(parts) + [c]
  {
    JoinedAppended(crc, log, parts, c);
    if log.size + |Frame(crc, c)| > SEGMENT_SIZE {
      RotateHolds(crc, log, parts);
      AppendFrameHolds(crc, Rotate(log), parts + [[]], c);
      InitOfSnoc(parts, []);
      assert [] + [c] == [c];
    } else {
      AppendFrameHolds(crc, log, parts, c);
    }
  }

  lemma {:induction false} DiscoverExact(segments: map<nat, Bytes>, s: nat)
    ensures var d := Discover(segments, s);
            d >= s && (forall i :: s < i <= d ==> i in segments) && d + 1 !in segments
    decreases After(segments, s)
  {
    if s + 1 in segments {
      AfterShrinks(segments, s);
      DiscoverExact(segments, s + 1);
    }
  }

  lemma {:induction false} JoinedPadded(parts: seq<seq<Command>>, n: nat)
    ensures Joined(parts + seq(n, _ => [])) == Joined(parts)
  {
    var pad := seq(n, _ => []);
    if n == 0 {
      ConcatNothing(parts);
    } else {
      JoinedPadded(parts, n - 1);
      assert (parts + pad)[..|parts| + n - 1] == parts + seq(n - 1, _ => []);
      ConcatNothing(Joined(parts));
    }
  }

  lemma {:induction false} EmptySegment(crc: Checksum, segments: map<nat, Bytes>, i: nat)
    requires FileOr(segments, i) == []
    ensures HoldsSegment(crc, segments, i, [])
  {
  }

  /** A restart finds the log as the crash left it. */
  lemma {:induction false} ReopenHolds(crc: Checksum, log: Log, parts: seq<seq<Command>>) returns (parts': seq<seq<Command>>)
    requires HoldsLog(crc, log, parts)
    ensures HoldsLog(crc, OpenLog(log.segments), parts') && Joined(parts') == Joined(parts)
  {
    hide HoldsSegment;
    DiscoverExact(log.segments, 0);
    var d := Discover(log.segments, 0);
    assert d + 1 !in log.segments;
    parts' := parts + seq(d - log.current, _ => []);
    JoinedPadded(parts, d - log.current);
    var r := OpenLog(log.segments);
    assert r.segments == log.segments by {
      assert d in log.segments;
    }
    forall i | 0 <= i < |parts'|
      ensures HoldsSegment(crc, r.segments, i, parts'[i])
    {
      if i > log.current {
        EmptySegment(crc, r.segments, i);
      }
    }
  }

  /** Where every segment is empty a restart starts an empty log. */
  lemma {:induction false} EmptyLogHolds(crc: Checksum, segments: map<nat, Bytes>) returns (parts: seq<seq<Command>>)
    requires forall i :: i in segments ==> segments[i] == []
    ensures HoldsLog(crc, OpenLog(segments), parts) && Joined(parts) == []
  {
    DiscoverExact(segments, 0);
    var r := OpenLog(segments);
    parts := [] + seq(r.current + 1, _ => []);
    JoinedPadded([], r.current + 1);
    forall i | 0 <= i < |parts|
      ensures HoldsSegment(crc, r.segments, i, parts[i])
    {
      EmptySegment(crc, r.segments, i);
    }
  }

  /** After a shutdown emptied the log, a restart finds no command. */
  lemma {:induction false} ShutdownHolds(crc: Checksum, log: Log, parts: seq<seq<Command>>) returns (parts': seq<seq<Command>>)
    requires HoldsLog(crc, log, parts)
    ensures HoldsLog(crc, OpenLog(CheckpointLog(ResetLog(log)).segments), parts') && Joined(parts') == []
  {
    hide HoldsSegment, OpenLog, Joined;
    var r := CheckpointLog(ResetLog(log)).segments;
    forall i | i in r
      ensures r[i] == []
    {
      assert i in ResetLog(log).segments;
    }
    parts' := EmptyLogHolds(crc, r);
  }

  class Storage {
    const crc: Checksum
    var segments: map<nat, Bytes>
    var current: nat
    var size: nat
    var checkpointed: nat

    function State(): Log
      reads this
    {
      Log(segments, current, size, checkpointed)
    }

    /** Opens the last contiguous segment for appending. */
    constructor (crc: Checksum, files: map<nat, Bytes>)
      ensures this.crc == crc && State() == OpenLog(files)
    {
      var segment := 0;
      while segment + 1 in files
        invariant Discover(files, segment) == Discover(files, 0)
        decreases After(files, segment)
      {
        AfterShrinks(files, segment);
        segment := segment + 1;
      }
      this.crc := crc;
      segments, current := files[segment := FileOr(files, segment)], segment;
      size, checkpointed := |FileOr(files, segment)|, 0;
    }

    method RotateSegment()
      modifies this
      ensures State() == Rotate(old(State()))
    {
      current := current + 1;
      segments := segments[current := FileOr(segments, current)];
      size := 0;
    }

    method Append(c: Command)
      modifies this
      ensures State() == AppendCommand(crc, old(State()), c)
    {
      var bytes := Serialize(crc, c);
      if size + |bytes| + 8 > SEGMENT_SIZE {
        RotateSegment();
      }
      var frame := BE32(crc(bytes)) + BE32(|bytes|) + bytes;
      segments := segments[current := FileOr(segments, current) + frame];
      size := size + |bytes| + 8;
    }

    method LoadSegment(bytes: Bytes) returns (commands: Option<seq<Command>>)
      ensures commands == ParseSegment(crc, bytes)
    {
      hide Word32, Deserialize, Both, Consed;
      var found: seq<Command> := [];
      var position := 0;
      assert bytes[0..] == bytes;
      BothNothing(ParseSegment(crc, bytes));
      while position + 8 <= |bytes|
        invariant position <= |bytes|
        invariant Both(Some(found), ParseSegment(crc, bytes[position..])) == ParseSegment(crc, bytes)
        decreases |bytes| - position
      {
        var checksum, length := Word32(bytes[position..position + 4]), Word32(bytes[position + 4..position + 8]);
        var start := position + 8;
        StepSlices(bytes, position, start + length);
        BothNothing(Some(found));
        if start + length > |bytes| || checksum != crc(bytes[start..start + length]) {
          return Some(found);
        }
        NonePropagates(Some(found));
        match Deserialize(crc, bytes[start..start + length]) {
          case Panics => return None;
          case Rejected =>
          case Parsed(c, _) =>
            SnocBoth(found, c, ParseSegment(crc, bytes[start + length..]));
            found := found + [c];
        }
        position := start + length;
      }
      BothNothing(Some(found));
      return Some(found);
    }

    /** Every segment up to the open one; a deleted one is skipped. */
    method Load() returns (commands: Option<seq<Command>>)
      ensures commands == LoadAll(crc, State())
    {
      commands := Some([]);
      for segment := 0 to current + 1
        invariant commands == LoadFirst(crc, segments, segment)
      {
        BothNothing(commands);
        if segment in segments {
          var more := LoadSegment(segments[segment]);
          commands := Both(commands, more);
        }
      }
    }

    method Reset()
      modifies this
      ensures State() == ResetLog(old(State()))
    {
      segments := segments[current := []];
    }

    method Checkpoint()
      modifies this
      ensures State() == CheckpointLog(old(State()))
    {
      if current == 0 {
        return;
      }
      ghost var all := segments;
      var segment := checkpointed;
      while segment < current
        invariant current == old(current) && size == old(size) && checkpointed == old(checkpointed)
        invariant checkpointed <= segment && (segment <= current || segment == checkpointed)
        invariant segments == map k | k in all && !(checkpointed <= k < segment) :: all[k]
      {
        segments := segments - {segment};
        segment := segment + 1;
      }
      assert segments == CheckpointLog(old(State())).segments;
      checkpointed := current;
    }
  }

  lemma {:induction false} StepSlices(b: Bytes, i: nat, j: nat)
    requires i + 8 <= |b|
    ensures b[i..][..4] == b[i..i + 4] && b[i..][4..8] == b[i + 4..i + 8]
    ensures i + 8 <= j <= |b| ==> b[i..][8..j - i] == b[i + 8..j] && b[i..][j - i..] == b[j..]
  {
  }

  lemma {:induction false} NonePropagates(a: Option<seq<Command>>)
    ensures Both(a, None) == None && forall c :: Consed(c, None) == None
  {
  }

  lemma {:induction false} SnocBoth(found: seq<Command>, c: Command, rest: Option<seq<Command>>)
    ensures Both(Some(found), Consed(c, rest)) == Both(Some(found + [c]), rest)
  {
    if rest.Some? {
      ConcatAssociates(found, [c], rest.value);
    }
  }
}
