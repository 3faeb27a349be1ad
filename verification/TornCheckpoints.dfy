/** A crash while the manifest's checkpoint is written over the old one: which tables a restart misses, and when that
    shows. */
module TornCheckpoints {
  import opened Seqs
  import opened SortedMap
  import opened Records
  import opened Tables
  import opened TableBuilder
  import opened Selection
  import opened Leveling
  import opened Manifests
  import opened ManagerState
  import opened Durability
  import opened DurableSteps
  import opened Compactions
  import opened Recovery
  import opened TakenOut
  import opened Strays
  import opened CrashAnswers
  import opened TornManifests
  import opened CrashLevels

  /** What the old checkpoint alone rebuilds. */
  function OldLevels(s: Manager): Levels {
    Replay(Load(s.checkpoint), s.disk)
  }

  /** How many of a list's tables lie in front of the cut, when the list begins behind `a` others. */
  function Before(cut: nat, a: nat, ts: seq<SSTable>): (r: nat)
    ensures r <= |ts|
  {
    if cut <= a then 0 else if cut - a >= |ts| then |ts| else cut - a
  }

  /** The first `j` tables, and those behind the first `from`. */
  function Ends<T>(ts: seq<T>, j: nat, from: nat): seq<T>
    requires j <= |ts| && from <= |ts|
  {
    ts[..j] + ts[from..]
  }

  ghost predicate OldFits(s: Manager) {
    |OldLevels(s).l0| <= |s.l0| && |OldLevels(s).l1| <= |s.l1| && |OldLevels(s).l2| <= |s.l2|
  }

  /** The lists with the first `cut` tables of the new checkpoint and those the log names. */
  function Halfway(s: Manager, cut: nat): Manager
    requires OldFits(s)
  {
    s.(l0 := Ends(s.l0, Before(cut, 0, s.l0), |OldLevels(s).l0|),
       l1 := Ends(s.l1, Before(cut, |s.l0|, s.l1), |OldLevels(s).l1|),
       l2 := Ends(s.l2, Before(cut, |s.l0| + |s.l1|, s.l2), |OldLevels(s).l2|))
  }

  /** The front of the lists, as far as the new checkpoint goes. */
  function Front(s: Manager, cut: nat): Manager {
    s.(l0 := s.l0[..Before(cut, 0, s.l0)], l1 := s.l1[..Before(cut, |s.l0|, s.l1)],
       l2 := s.l2[..Before(cut, |s.l0| + |s.l1|, s.l2)])
  }

  lemma {:induction false} TakeConcat<T>(a: seq<T>, b: seq<T>, n: nat)
    requires n <= |a| + |b|
    ensures (a + b)[..n] == if n <= |a| then a[..n] + b[..0] else a[..|a|] + b[..n - |a|]
  {
  }

  lemma {:induction false} FrontTables(s: Manager, cut: nat)
    requires cut <= |AllTables(s)|
    ensures AllTables(s)[..cut] == AllTables(Front(s, cut))
  {
    TakeConcat(s.l0 + s.l1, s.l2, cut);
    if cut <= |s.l0 + s.l1| {
      TakeConcat(s.l0, s.l1, cut);
    } else {
      assert (s.l0 + s.l1)[..|s.l0 + s.l1|] == s.l0[..|s.l0|] + s.l1[..|s.l1|];
    }
  }

  lemma {:induction false} FrontRecords(ts: seq<SSTable>, cut: nat)
    requires cut <= |ts|
    ensures AddRecords(ts)[..cut] == AddRecords(ts[..cut])
  {
  }

  lemma {:induction false} FrontReplay(m: Medium, s: Manager, cut: nat)
    requires TablesDurable(m, s) && cut <= |AllTables(s)|
    ensures Replay(AddRecords(AllTables(s))[..cut], s.disk) == ReloadedLevels(Front(s, cut))
  {
    FrontTables(s, cut);
    FrontRecords(AllTables(s), cut);
    LevelInAll(s, L0);
    LevelInAll(s, L1);
    LevelInAll(s, L2);
    var f := Front(s, cut);
    assert forall t :: t in AllTables(f) ==> t in AllTables(s);
    hide Replay, ReloadedLevels, Backed, AddRecords;
    CheckpointReplay(f);
  }

  /** The old checkpoint rebuilds the front of each list, the log the rest. */
  lemma {:induction false} OldAndNew(m: Medium, s: Manager)
    requires Durable(m, s)
    ensures OldFits(s)
    ensures var o, g := OldLevels(s), Replay(Load(s.log), s.disk);
            && g.l0 == Reloaded(s.l0[|o.l0|..], s.disk) && g.l1 == Reloaded(s.l1[|o.l1|..], s.disk)
            && g.l2 == Reloaded(s.l2[|o.l2|..], s.disk)
  {
    ReplayConcat(Load(s.checkpoint), Load(s.log), s.disk);
    hide Replay, Load, Backed;
    var o, g := OldLevels(s), Replay(Load(s.log), s.disk);
    RestOf(s.l0, s.disk, o.l0, g.l0);
    RestOf(s.l1, s.disk, o.l1, g.l1);
    RestOf(s.l2, s.disk, o.l2, g.l2);
  }

  lemma {:induction false} RestOf(ts: seq<SSTable>, disk: map<string, StoredFile>, a: seq<SSTable>, b: seq<SSTable>)
    requires Reloaded(ts, disk) == a + b
    ensures |a| <= |ts| && b == Reloaded(ts[|a|..], disk)
  {
    assert |a + b| == |ts|;
    forall i | 0 <= i < |b|
      ensures b[i] == Reloaded(ts[|a|..], disk)[i]
    {
      assert b[i] == (a + b)[|a| + i] == Reloaded(ts, disk)[|a| + i];
    }
  }

  lemma {:induction false} ReloadedEnds(ts: seq<SSTable>, j: nat, from: nat, disk: map<string, StoredFile>)
    requires j <= |ts| && from <= |ts|
    ensures Reloaded(ts[..j], disk) + Reloaded(ts[from..], disk) == Reloaded(Ends(ts, j, from), disk)
  {
    ReloadedConcat(ts[..j], ts[from..], disk);
  }

  /** The manager whose lists are those of `s`, reloaded from its files. */
  function Rebuilt(s: Manager): Manager {
    var d := ReloadedLevels(s);
    s.(l0 := d.l0, l1 := d.l1, l2 := d.l2)
  }

  lemma {:induction false} AppendedIsHalfway(s: Manager, cut: nat, g: Levels)
    requires OldFits(s)
    requires var o := OldLevels(s);
             && g.l0 == Reloaded(s.l0[|o.l0|..], s.disk) && g.l1 == Reloaded(s.l1[|o.l1|..], s.disk)
             && g.l2 == Reloaded(s.l2[|o.l2|..], s.disk)
    ensures JoinLevels(ReloadedLevels(Front(s, cut)), g) == ReloadedLevels(Halfway(s, cut))
  {
    hide Reloaded, OldLevels, Ends;
    var o := OldLevels(s);
    ReloadedEnds(s.l0, Before(cut, 0, s.l0), |o.l0|, s.disk);
    ReloadedEnds(s.l1, Before(cut, |s.l0|, s.l1), |o.l1|, s.disk);
    ReloadedEnds(s.l2, Before(cut, |s.l0| + |s.l1|, s.l2), |o.l2|, s.disk);
  }

  /** A restart over a checkpoint cut off anywhere finds, but for a size, the tables the lines in front of the cut and
      the log name; a table both name it finds twice. */
  lemma {:induction false} TornCheckpointFinds(m: Medium, s: Manager, n: nat)
    requires Durable(m, s) && n <= |FileText(AddRecords(AllTables(s)))|
    ensures OldFits(s) && LinesRead(s, n) <= |AllTables(s)|
    ensures AlikeManagers(Reopened(TornCheckpoint(s, n)), Rebuilt(Halfway(s, LinesRead(s, n))))
  {
    var rs := AddRecords(AllTables(s));
    CheckpointRecords(m, s);
    hide Clean, Backed, FileText, Load, Replay, Alike;
    TornText(rs, n);
    OldAndNew(m, s);
    var x, y := Load(FileText(rs)[..n]), Load(s.log);
    var cut := LinesRead(s, n);
    LikeConcat(x, rs[..cut], y, s.disk);
    FrontReplay(m, s, cut);
    ReplayConcat(rs[..cut], y, s.disk);
    AppendedIsHalfway(s, cut, Replay(y, s.disk));
  }

  /** What only precedes: records that differ in sizes, and the same ones behind. */
  lemma {:induction false} LikeConcat(a: seq<ManifestRecord>, b: seq<ManifestRecord>, y: seq<ManifestRecord>, disk: map<string, StoredFile>)
    requires LikeRecords(a, b)
    ensures var p, q := Replay(a + y, disk), Replay(b + y, disk); Alike(p.l0, q.l0) && Alike(p.l1, q.l1) && Alike(p.l2, q.l2)
  {
    ReplayLike(a, b, disk);
    ReplayConcat(a, y, disk);
    ReplayConcat(b, y, disk);
  }

  lemma {:induction false} EndsInList<T>(ts: seq<T>, j: nat, from: nat)
    requires j <= |ts| && from <= |ts|
    ensures forall t :: t in Ends(ts, j, from) ==> t in ts
    ensures forall i :: 0 <= i < |ts| && !(j <= i < from) ==> ts[i] in Ends(ts, j, from)
  {
    var e := Ends(ts, j, from);
    forall i | 0 <= i < |ts| && !(j <= i < from)
      ensures ts[i] in e
    {
      assert if i < j then e[i] == ts[i] else e[j + i - from] == ts[i];
    }
  }

  lemma {:induction false} RebuiltList(m: Medium, s: Manager, level: Level, j: nat, from: nat)
    requires TablesDurable(m, s) && j <= |LevelList(s, level)| && from <= |LevelList(s, level)|
    ensures var e := Ends(LevelList(s, level), j, from);
            Stack(Reloaded(e, s.disk)) == Stack(e) && AllValid(m.hasher, Reloaded(e, s.disk)) && Paths(Reloaded(e, s.disk)) == Paths(e)
  {
    var e := Ends(LevelList(s, level), j, from);
    LevelInAll(s, level);
    EndsInList(LevelList(s, level), j, from);
    hide Backed, Reloaded, Ends, AllTables;
    ReloadedExact(m, s.disk, e);
    SamePathSets(m, s.disk, e);
  }

  /** What is found is sound, and shows what the halved lists do. */
  lemma {:induction false} HalfwayLists(m: Medium, s: Manager, cut: nat)
    requires Durable(m, s) && OldFits(s)
    ensures var h, r := Halfway(s, cut), Rebuilt(Halfway(s, cut));
            ValidLists(m.hasher, r) && Raw(r) == Raw(h) && Paths(AllTables(r)) == Paths(AllTables(h)) && r.disk == s.disk
  {
    hide Backed, Reloaded, Ends, Overlay, Stack, AllValid, OldLevels, Paths;
    RebuiltList(m, s, L0, Before(cut, 0, s.l0), |OldLevels(s).l0|);
    RebuiltList(m, s, L1, Before(cut, |s.l0|, s.l1), |OldLevels(s).l1|);
    RebuiltList(m, s, L2, Before(cut, |s.l0| + |s.l1|, s.l2), |OldLevels(s).l2|);
    PathsOfLevels(Halfway(s, cut));
    PathsOfLevels(Rebuilt(Halfway(s, cut)));
  }

  /** All tables of all levels in the order of age that lookups go by, oldest first. */
  function ByAge(s: Manager): seq<seq<Record>> {
    Stack(s.l2) + Stack(s.l1) + Stack(s.l0)
  }

  lemma {:induction false} ByAgeIsRaw(s: Manager)
    ensures Overlay(ByAge(s)) == Raw(s)
  {
    hide Stack, Overlay;
    OverlayConcat(Stack(s.l2), Stack(s.l1));
    OverlayConcat(Stack(s.l2) + Stack(s.l1), Stack(s.l0));
  }

  function Span(a: nat, b: nat): seq<nat> {
    if a < b then seq(b - a, i requires 0 <= i => a + i) else []
  }

  function Raised(c: seq<nat>, n: nat): seq<nat> {
    seq(|c|, i requires 0 <= i < |c| => c[i] + n)
  }

  /** The tables, counted through all levels from the oldest, that the old checkpoint names and the lines in front of the
      cut do not. */
  function Missing(s: Manager, cut: nat): seq<nat> {
    var o := OldLevels(s);
    Span(Before(cut, |s.l0| + |s.l1|, s.l2), |o.l2|)
    + Raised(Span(Before(cut, |s.l0|, s.l1), |o.l1|), |s.l2|)
    + Raised(Span(Before(cut, 0, s.l0), |o.l0|), |s.l2| + |s.l1|)
  }

  lemma {:induction false} InSpan(a: nat, b: nat)
    ensures forall i :: i in Span(a, b) <==> a <= i < b
  {
    forall i | a <= i < b
      ensures i in Span(a, b)
    {
      assert Span(a, b)[i - a] == i;
    }
  }

  lemma {:induction false} InRaised(c: seq<nat>, n: nat)
    ensures forall i :: i in Raised(c, n) <==> i >= n && i - n in c
  {
    forall i: nat | i >= n && i - n in c
      ensures i in Raised(c, n)
    {
      var j :| 0 <= j < |c| && c[j] == i - n;
      assert Raised(c, n)[j] == i;
    }
  }

  lemma {:induction false} UnchosenSpan<T>(ts: seq<T>, a: nat, b: nat)
    requires a <= b <= |ts|
    ensures Unchosen(ts, Span(a, b)) == ts[..a] + ts[b..]
  {
    InSpan(a, b);
    hide Span;
    if |ts| == b {
      UnchosenTail(ts, a, Span(a, b));
      assert ts[b..] == [];
      ConcatNothing(ts[..a]);
    } else {
      var n := |ts| - 1;
      UnchosenSpan(ts[..n], a, b);
      assert ts[..n][..a] == ts[..a];
      assert ts[b..] == ts[..n][b..] + [ts[n]];
      ConcatAssociates(ts[..a], ts[..n][b..], [ts[n]]);
    }
  }

  lemma {:induction false} UnchosenTail<T>(ts: seq<T>, a: nat, c: seq<nat>)
    requires a <= |ts| && forall i :: 0 <= i < |ts| ==> (i in c <==> a <= i)
    ensures Unchosen(ts, c) == ts[..a]
  {
    if ts != [] {
      var n := |ts| - 1;
      if a <= n {
        UnchosenTail(ts[..n], a, c);
        assert ts[..n][..a] == ts[..a];
        ConcatNothing(ts[..a]);
      } else {
        UnchosenTail(ts[..n], n, c);
        TakeAll(ts[..n]);
        InitLast(ts);
        TakeAll(ts);
      }
    }
  }

  ghost predicate Below(c: seq<nat>, n: nat) {
    forall i :: i in c ==> i < n
  }

  lemma {:induction false} SpanBelow(a: nat, b: nat, n: nat)
    requires b <= n
    ensures Below(Span(a, b), n)
  {
    InSpan(a, b);
  }

  lemma {:induction false} BothBelow(x: seq<nat>, y: seq<nat>, a: nat, b: nat)
    requires Below(x, a) && Below(y, b)
    ensures Below(x + Raised(y, a), a + b)
  {
    InRaised(y, a);
  }

  lemma {:induction false} UnchosenOfConcat<T>(a: seq<T>, b: seq<T>, ca: seq<nat>, cb: seq<nat>)
    requires Below(ca, |a|)
    ensures Unchosen(a + b, ca + Raised(cb, |a|)) == Unchosen(a, ca) + Unchosen(b, cb)
  {
    InRaised(cb, |a|);
    var c := ca + Raised(cb, |a|);
    if b == [] {
      assert a + b == a;
      ConcatNothing(Unchosen(a, ca));
      UnchosenSame(a, c, ca);
    } else {
      var n := |b| - 1;
      UnchosenOfConcat(a, b[..n], ca, cb);
      assert (a + b)[..|a| + n] == a + b[..n] && (a + b)[|a| + n] == b[n];
      ConcatAssociates(Unchosen(a, ca), Unchosen(b[..n], cb), if n in cb then [] else [b[n]]);
    }
  }

  lemma {:induction false} UnchosenSame<T>(s: seq<T>, c: seq<nat>, d: seq<nat>)
    requires forall i :: 0 <= i < |s| ==> (i in c <==> i in d)
    ensures Unchosen(s, c) == Unchosen(s, d)
  {
    if s != [] {
      UnchosenSame(s[..|s| - 1], c, d);
    }
  }

  lemma {:induction false} Twice(a: map<string, Value>, b: map<string, Value>, c: map<string, Value>)
    ensures (a + b) + (b + c) == a + (b + c)
  {
  }

  /** A table listed twice shows no other value than one listed once. */
  lemma {:induction false} EndsOverlay(ts: seq<seq<Record>>, j: nat, from: nat)
    requires j <= |ts| && from <= |ts|
    ensures Overlay(Ends(ts, j, from)) == Overlay(Unchosen(ts, Span(j, from)))
  {
    hide Overlay, Unchosen;
    if j <= from {
      UnchosenSpan(ts, j, from);
    } else {
      UnchosenNone(ts);
      var a, b, c := ts[..from], ts[from..j], ts[j..];
      assert ts[..j] == a + b && ts[from..] == b + c && ts == a + (b + c);
      OverlayConcat(a + b, b + c);
      OverlayConcat(a, b);
      OverlayConcat(b, c);
      OverlayConcat(a, b + c);
      Twice(Overlay(a), Overlay(b), Overlay(c));
    }
  }

  lemma {:induction false} StackEnds(ts: seq<SSTable>, j: nat, from: nat)
    requires j <= |ts| && from <= |ts|
    ensures Stack(Ends(ts, j, from)) == Ends(Stack(ts), j, from)
  {
    hide RecordsOf;
  }

  lemma {:induction false} EndsRaw(ts: seq<SSTable>, j: nat, from: nat)
    requires j <= |ts| && from <= |ts|
    ensures Overlay(Stack(Ends(ts, j, from))) == Overlay(Unchosen(Stack(ts), Span(j, from))) && Below(Span(j, from), |ts|)
  {
    hide Overlay, Stack, Span, Unchosen, Ends;
    StackEnds(ts, j, from);
    EndsOverlay(Stack(ts), j, from);
    SpanBelow(j, from, |ts|);
  }

  lemma {:induction false} HalfwayRaw(s: Manager, cut: nat)
    requires OldFits(s)
    ensures Raw(Halfway(s, cut)) == Overlay(Unchosen(ByAge(s), Missing(s, cut)))
  {
    hide OldLevels, Before, Overlay, Stack, Span, Unchosen, Ends, Below, Raised;
    var o := OldLevels(s);
    var j0, j1, j2 := Before(cut, 0, s.l0), Before(cut, |s.l0|, s.l1), Before(cut, |s.l0| + |s.l1|, s.l2);
    EndsRaw(s.l0, j0, |o.l0|);
    EndsRaw(s.l1, j1, |o.l1|);
    EndsRaw(s.l2, j2, |o.l2|);
    ThreeUnchosen(Stack(s.l2), Stack(s.l1), Stack(s.l0), Span(j2, |o.l2|), Span(j1, |o.l1|), Span(j0, |o.l0|));
  }

  lemma {:induction false} ThreeUnchosen(a: seq<seq<Record>>, b: seq<seq<Record>>, c: seq<seq<Record>>, x: seq<nat>, y: seq<nat>, z: seq<nat>)
    requires Below(x, |a|) && Below(y, |b|)
    ensures Overlay(Unchosen(a + b + c, x + Raised(y, |a|) + Raised(z, |a| + |b|))) ==
            Overlay(Unchosen(a, x)) + Overlay(Unchosen(b, y)) + Overlay(Unchosen(c, z))
  {
    hide Overlay, Unchosen, Raised, Below;
    UnchosenOfConcat(a, b, x, y);
    BothBelow(x, y, |a|, |b|);
    UnchosenOfConcat(a + b, c, x + Raised(y, |a|), z);
    OverlayConcat(Unchosen(a, x), Unchosen(b, y));
    OverlayConcat(Unchosen(a, x) + Unchosen(b, y), Unchosen(c, z));
  }

  /** The raw map that a restart finds over the torn checkpoint is that of the tables not missing. */
  lemma {:induction false} TornCheckpointRaw(m: Medium, s: Manager, n: nat)
    requires Durable(m, s) && n <= |FileText(AddRecords(AllTables(s)))|
    ensures var found := Reopened(TornCheckpoint(s, n));
            ValidLists(m.hasher, found) && Raw(found) == Overlay(Unchosen(ByAge(s), Missing(s, LinesRead(s, n))))
  {
    var cut := LinesRead(s, n);
    TornCheckpointFinds(m, s, n);
    hide Durable, Reopened, TornCheckpoint, AlikeManagers, OldFits, Halfway, Raw, Overlay, Missing, ByAge, ValidLists, LinesRead;
    HalfwayLists(m, s, cut);
    HalfwayRaw(s, cut);
    AlikeShow(m.hasher, Reopened(TornCheckpoint(s, n)), Rebuilt(Halfway(s, cut)));
  }

  lemma {:induction false} ByAgeSorted(m: Medium, s: Manager)
    requires ValidLists(m.hasher, s)
    ensures AllSorted(ByAge(s))
  {
    ValidSorted(m.hasher, s.l0);
    ValidSorted(m.hasher, s.l1);
    ValidSorted(m.hasher, s.l2);
    hide Stack, AllValid, Sorted;
  }

  /** The exact condition at every cut: for every content the tables may have, a restart over it shows what one over the
      finished checkpoint does, for every key but the empty one that the log does not know, if and only if the log knows
      every key whose newest record lies in a table the cut leaves out. */
  lemma {:induction false} TornCheckpointExactly(m: Medium, s: Manager, n: nat, logged: set<string>)
    requires Durable(m, s) && ValidLists(m.hasher, s) && n <= |FileText(AddRecords(AllTables(s)))|
    ensures var out := Missing(s, LinesRead(s, n));
            && Raw(Reopened(TornCheckpoint(s, n))) == Overlay(Unchosen(ByAge(s), out)) && Raw(s) == Overlay(ByAge(s))
            && (NewestLogged(ByAge(s), out, logged) <==>
                forall us: seq<seq<Record>> :: SameKeys(ByAge(s), us) ==> Agree(Overlay(Unchosen(us, out)), Overlay(us), logged))
  {
    hide Durable, Reopened, TornCheckpoint, Raw, Overlay, Missing, ByAge, ValidLists, LinesRead, NewestLogged, Agree, SameKeys;
    TornCheckpointRaw(m, s, n);
    ByAgeIsRaw(s);
    ByAgeSorted(m, s);
    TakenOutExactly(ByAge(s), Missing(s, LinesRead(s, n)), logged);
  }

  /** The log knows every key of the tables from `a` up to `b`. */
  ghost predicate SpanLogged(ts: seq<SSTable>, a: nat, b: nat, logged: map<string, Value>) {
    forall i, k :: a <= i < b && i < |ts| && HasKey(RecordsOf(ts[i]), k) ==> k in logged
  }

  /** The log knows every key of the tables the cut leaves out. */
  ghost predicate MissingLogged(s: Manager, cut: nat, logged: map<string, Value>) {
    var o := OldLevels(s);
    && SpanLogged(s.l0, Before(cut, 0, s.l0), |o.l0|, logged)
    && SpanLogged(s.l1, Before(cut, |s.l0|, s.l1), |o.l1|, logged)
    && SpanLogged(s.l2, Before(cut, |s.l0| + |s.l1|, s.l2), |o.l2|, logged)
  }

  lemma {:induction false} EndsElsewhere(ts: seq<SSTable>, j: nat, from: nat, logged: map<string, Value>, k: string)
    requires j <= |ts| && from <= |ts| && SpanLogged(ts, j, from, logged) && k !in logged
    ensures Lookup(Overlay(Stack(Ends(ts, j, from))), k) == Lookup(Overlay(Stack(ts)), k)
  {
    hide Overlay, Stack, Span, Unchosen, Ends, HasKey, RecordsOf;
    InSpan(j, from);
    EndsRaw(ts, j, from);
    StackUnchosen(ts, Span(j, from));
    KeyElsewhere(ts, Span(j, from), k);
  }

  /** Who is listed in `s` and not in the halved list is in the span between. */
  lemma {:induction false} LeftOut(ts: seq<SSTable>, j: nat, from: nat, logged: map<string, Value>, p: string, blocks: seq<Block>, k: string)
    requires j <= |ts| && from <= |ts| && SpanLogged(ts, j, from, logged)
    requires p in Paths(ts) && p !in Paths(Ends(ts, j, from)) && (forall t :: t in ts && t.path == p ==> t.blocks == blocks)
    requires HasKey(Flatten(blocks), k)
    ensures k in logged
  {
    var t :| t in ts && t.path == p;
    var i :| 0 <= i < |ts| && ts[i] == t;
    EndsInList(ts, j, from);
    hide Ends, Flatten, HasKey;
    assert j <= i < from;
  }

  /** No list of the halved manager has the path. */
  ghost predicate Unlisted(s: Manager, cut: nat, p: string)
    requires OldFits(s)
  {
    var h := Halfway(s, cut);
    p !in Paths(h.l0) && p !in Paths(h.l1) && p !in Paths(h.l2)
  }

  lemma {:induction false} UnlistedStray(s: Manager, cut: nat, x: SSTable)
    requires OldFits(s)
    requires var r := Rebuilt(Halfway(s, cut)); Paths(AllTables(r)) == Paths(AllTables(Halfway(s, cut))) && IsStray(r, x)
    ensures Unlisted(s, cut, x.path) && x.path in s.disk && x.blocks == s.disk[x.path].blocks
    ensures x.path !in Paths(AllTables(s)) ==> IsStray(s, x)
  {
    PathsOfLevels(Halfway(s, cut));
    hide Paths, Ends, OldLevels, Before, ReloadedLevels;
  }

  lemma {:induction false} UnlistedLogged(s: Manager, cut: nat, logged: map<string, Value>, p: string, k: string)
    requires OldFits(s) && MissingLogged(s, cut, logged) && Unlisted(s, cut, p) && p in Paths(AllTables(s)) && p in s.disk
    requires forall t :: t in s.l0 || t in s.l1 || t in s.l2 ==> t.path in s.disk && t.blocks == s.disk[t.path].blocks
    requires HasKey(Flatten(s.disk[p].blocks), k)
    ensures k in logged
  {
    PathsOfLevels(s);
    hide Paths, Ends, OldLevels, Before, SpanLogged, Flatten, HasKey, AllTables;
    var o, b := OldLevels(s), s.disk[p].blocks;
    if p in Paths(s.l0) {
      LeftOut(s.l0, Before(cut, 0, s.l0), |o.l0|, logged, p, b, k);
    } else if p in Paths(s.l1) {
      LeftOut(s.l1, Before(cut, |s.l0|, s.l1), |o.l1|, logged, p, b, k);
    } else {
      LeftOut(s.l2, Before(cut, |s.l0| + |s.l1|, s.l2), |o.l2|, logged, p, b, k);
    }
  }

  lemma {:induction false} HalfwayStrays(m: Medium, s: Manager, cut: nat, logged: map<string, Value>)
    requires Durable(m, s) && OldFits(s) && MissingLogged(s, cut, logged) && StraysLogged(s, logged)
    ensures StraysLogged(Rebuilt(Halfway(s, cut)), logged)
  {
    HalfwayLists(m, s, cut);
    LevelsBacked(m, s);
    hide Durable, Rebuilt, Halfway, OldFits, MissingLogged, Unlisted, Paths, HasKey, AllTables, Raw, ValidLists, IsStray, Flatten;
    forall x, k | IsStray(Rebuilt(Halfway(s, cut)), x) && HasKey(RecordsOf(x), k)
      ensures k in logged
    {
      UnlistedStray(s, cut, x);
      if x.path in Paths(AllTables(s)) {
        UnlistedLogged(s, cut, logged, x.path, k);
      } else {
        assert IsStray(s, x) && HasKey(RecordsOf(x), k);
      }
    }
  }

  /** A listed table's blocks are those of its file. */
  lemma {:induction false} LevelsBacked(m: Medium, s: Manager)
    requires Durable(m, s)
    ensures forall t :: t in s.l0 || t in s.l1 || t in s.l2 ==> t.path in s.disk && t.blocks == s.disk[t.path].blocks
  {
    LevelInAll(s, L0);
    LevelInAll(s, L1);
    LevelInAll(s, L2);
    hide AllTables, ManifestDurable, ValidTable;
    forall t | t in s.l0 || t in s.l1 || t in s.l2
      ensures t.path in s.disk && t.blocks == s.disk[t.path].blocks
    {
      assert Backed(m, s.disk, t);
    }
  }

  lemma {:induction false} HalfwaySame(s: Manager, cut: nat, logged: map<string, Value>, k: string)
    requires OldFits(s) && MissingLogged(s, cut, logged) && k !in logged
    ensures Lookup(Raw(Halfway(s, cut)), k) == Lookup(Raw(s), k)
  {
    hide Overlay, Stack, Ends, OldLevels, SpanLogged, Before, Raw;
    var o := OldLevels(s);
    EndsElsewhere(s.l0, Before(cut, 0, s.l0), |o.l0|, logged, k);
    EndsElsewhere(s.l1, Before(cut, |s.l0|, s.l1), |o.l1|, logged, k);
    EndsElsewhere(s.l2, Before(cut, |s.l0| + |s.l1|, s.l2), |o.l2|, logged, k);
    RawByLevel(s, Halfway(s, cut), k);
  }

  lemma {:induction false} HalfwaySurvives(m: Medium, base: Manager, s: Manager, cut: nat, logged: map<string, Value>)
    requires Durable(m, s) && OldFits(s) && SameUnlogged(base, s, logged) && StraysLogged(s, logged) && MissingLogged(s, cut, logged)
    ensures Survivable(m, base, Rebuilt(Halfway(s, cut)), logged)
  {
    HalfwayLists(m, s, cut);
    hide Durable, Rebuilt, Halfway, OldFits, MissingLogged, Raw, ValidLists, StraysLogged, Paths;
    HalfwayStrays(m, s, cut, logged);
    forall k | k !in logged
      ensures Lookup(Raw(Rebuilt(Halfway(s, cut))), k) == Lookup(Raw(base), k)
    {
      HalfwaySame(s, cut, logged, k);
    }
  }

  /** A checkpoint cut off anywhere, when the log knows every key of the tables it leaves out. */
  lemma {:induction false} TornCheckpointSurvives(m: Medium, base: Manager, s: Manager, n: nat, logged: map<string, Value>)
    requires Durable(m, s) && n <= |FileText(AddRecords(AllTables(s)))| && SameUnlogged(base, s, logged) && StraysLogged(s, logged)
    requires MissingLogged(s, LinesRead(s, n), logged)
    ensures Survivable(m, base, Reopened(TornCheckpoint(s, n)), logged)
  {
    hide Durable, Reopened, TornCheckpoint, AlikeManagers, Rebuilt, Halfway, OldFits, MissingLogged, SameUnlogged, StraysLogged, Survivable, LinesRead;
    TornCheckpointFinds(m, s, n);
    HalfwaySurvives(m, base, s, LinesRead(s, n), logged);
    AlikeSurvives(m, base, Reopened(TornCheckpoint(s, n)), Rebuilt(Halfway(s, LinesRead(s, n))), logged);
  }
}
