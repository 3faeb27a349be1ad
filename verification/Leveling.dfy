/** The level invariants, and the L1 to L2 compaction that drops tombstones and keeps the visible map. */
module Leveling {
  import opened Order
  import opened SortedMap
  import opened Records
  import opened KWay
  import opened BloomFilters
  import opened TableBuilder
  import opened Selection

  function Stack(ts: seq<SSTable>): (r: seq<seq<Record>>)
    ensures |r| == |ts| && forall i :: 0 <= i < |ts| ==> r[i] == RecordsOf(ts[i])
  {
    seq(|ts|, i requires 0 <= i < |ts| => RecordsOf(ts[i]))
  }

  lemma {:induction false} StackConcat(a: seq<SSTable>, b: seq<SSTable>)
    ensures Stack(a + b) == Stack(a) + Stack(b)
  {
  }

  lemma {:induction false} StackPick(ts: seq<SSTable>, c: seq<nat>)
    requires InRange(ts, c)
    ensures Stack(Pick(ts, c)) == Pick(Stack(ts), c)
  {
  }

  lemma {:induction false} StackUnchosen(ts: seq<SSTable>, c: seq<nat>)
    ensures Stack(Unchosen(ts, c)) == Unchosen(Stack(ts), c)
  {
    if ts != [] {
      var n := |ts| - 1;
      StackUnchosen(ts[..n], c);
      assert Stack(ts)[..n] == Stack(ts[..n]);
      StackConcat(Unchosen(ts[..n], c), if n in c then [] else [ts[n]]);
      assert Stack([ts[n]]) == [RecordsOf(ts[n])];
    }
  }

  ghost predicate AllValid(h: Hasher, ts: seq<SSTable>) {
    forall i :: 0 <= i < |ts| ==> ValidTable(h, ts[i])
  }

  /** The ranges of two tables have nothing in common. */
  predicate Apart(a: SSTable, b: SSTable) {
    Less(a.maxKey, b.minKey) || Less(b.maxKey, a.minKey)
  }

  ghost predicate PairwiseApart(ts: seq<SSTable>) {
    forall i, j :: 0 <= i < j < |ts| ==> Apart(ts[i], ts[j])
  }

  ghost predicate NoTombstone(rs: seq<Record>) {
    forall i :: 0 <= i < |rs| ==> rs[i].value.Data?
  }

  /** The bottom level: valid tables with pairwise disjoint ranges and no tombstone. */
  ghost predicate BottomLevel(h: Hasher, l2: seq<SSTable>) {
    && AllValid(h, l2) && PairwiseApart(l2)
    && forall i :: 0 <= i < |l2| ==> NoTombstone(RecordsOf(l2[i]))
  }

  /** The picker's overlap selection: ascending indices of the tables whose range meets [minKey, maxKey]. */
  function OverlapIndices(l2: seq<SSTable>, minKey: string, maxKey: string): seq<nat> {
    if l2 == [] then []
    else
      var n := |l2| - 1;
      OverlapIndices(l2[..n], minKey, maxKey) + if Overlaps(l2[n], minKey, maxKey) then [n] else []
  }

  lemma {:induction false} OverlapIndicesExact(l2: seq<SSTable>, minKey: string, maxKey: string)
    ensures var c := OverlapIndices(l2, minKey, maxKey);
            && InRange(l2, c)
            && (forall p, q :: 0 <= p < q < |c| ==> c[p] < c[q])
            && (forall i :: 0 <= i < |l2| ==> (i in c <==> Overlaps(l2[i], minKey, maxKey)))
  {
    if l2 != [] {
      var n := |l2| - 1;
      OverlapIndicesExact(l2[..n], minKey, maxKey);
      var b := OverlapIndices(l2[..n], minKey, maxKey);
      var c := OverlapIndices(l2, minKey, maxKey);
      assert forall i :: i in c <==> i in b || (i == n && Overlaps(l2[n], minKey, maxKey));
      assert forall i :: 0 <= i < n ==> l2[..n][i] == l2[i];
    }
  }

  lemma {:induction false} RangeOrdered(h: Hasher, t: SSTable)
    requires ValidTable(h, t)
    ensures !Less(t.maxKey, t.minKey)
  {
    var rs := RecordsOf(t);
    if |rs| > 1 {
      LessAsymmetric(rs[0].key, rs[|rs| - 1].key);
    } else {
      LessIrreflexive(rs[0].key);
    }
  }

  /** All keys of a map lie to one side of a table's range. */
  ghost predicate OneSide(u: SSTable, m: map<string, Value>) {
    (forall k :: k in m ==> Less(u.maxKey, k)) || (forall k :: k in m ==> Less(k, u.minKey))
  }

  lemma {:induction false} KeysBeyond(h: Hasher, u: SSTable, t: SSTable)
    requires ValidTable(h, u) && ValidTable(h, t)
    ensures Less(u.maxKey, t.minKey) ==> forall k :: k in Contents(RecordsOf(t)) ==> Less(u.maxKey, k)
    ensures Less(t.maxKey, u.minKey) ==> forall k :: k in Contents(RecordsOf(t)) ==> Less(k, u.minKey)
  {
    forall k | k in Contents(RecordsOf(t))
      ensures Less(u.maxKey, t.minKey) ==> Less(u.maxKey, k)
      ensures Less(t.maxKey, u.minKey) ==> Less(k, u.minKey)
    {
      KeysInRange(h, t, k);
      LessTotal(t.minKey, k);
      LessTotal(k, t.maxKey);
      if Less(u.maxKey, t.minKey) && Less(t.minKey, k) {
        LessTransitive(u.maxKey, t.minKey, k);
      }
      if Less(t.maxKey, u.minKey) && Less(k, t.maxKey) {
        LessTransitive(k, t.maxKey, u.minKey);
      }
    }
  }

  /** A table `u` that does not meet `t` stays on the same side of every table `v` that does. */
  lemma {:induction false} SameSide(h: Hasher, u: SSTable, t: SSTable, v: SSTable)
    requires ValidTable(h, u) && ValidTable(h, t) && ValidTable(h, v)
    requires Apart(u, v) && Overlaps(v, t.minKey, t.maxKey)
    ensures Less(u.maxKey, t.minKey) ==> Less(u.maxKey, v.minKey)
    ensures Less(t.maxKey, u.minKey) ==> Less(v.maxKey, u.minKey)
  {
    RangeOrdered(h, u);
    if Less(u.maxKey, t.minKey) && Less(v.maxKey, u.minKey) {
      LessTotal(u.minKey, u.maxKey);
      var low := if u.minKey == u.maxKey then u.maxKey else u.minKey;
      if Less(u.minKey, u.maxKey) {
        LessTransitive(v.maxKey, u.minKey, u.maxKey);
      }
      LessTransitive(v.maxKey, u.maxKey, t.minKey);
    }
    if Less(t.maxKey, u.minKey) && Less(u.maxKey, v.minKey) {
      LessTotal(u.minKey, u.maxKey);
      if Less(u.minKey, u.maxKey) {
        LessTransitive(t.maxKey, u.minKey, u.maxKey);
      }
      LessTransitive(t.maxKey, u.maxKey, v.minKey);
    }
  }

  /** The picked range joins its overlapping ranges into one interval: a table left behind lies wholly
      to one side of every key that takes part. */
  lemma {:induction false} LeftOnOneSide(h: Hasher, l2: seq<SSTable>, t: SSTable, j: nat)
    requires AllValid(h, l2) && PairwiseApart(l2) && ValidTable(h, t)
    requires j < |l2| && !Overlaps(l2[j], t.minKey, t.maxKey)
    ensures var c := OverlapIndices(l2, t.minKey, t.maxKey);
            InRange(l2, c) && OneSide(l2[j], Overlay(Stack(Pick(l2, c)) + [RecordsOf(t)]))
  {
    hide ValidTable, Less, Overlay, Contents, RecordsOf, OverlapIndices;
    var c, u := OverlapIndices(l2, t.minKey, t.maxKey), l2[j];
    OverlapIndicesExact(l2, t.minKey, t.maxKey);
    var tables := Stack(Pick(l2, c)) + [RecordsOf(t)];
    forall k | k in Overlay(tables)
      ensures Less(u.maxKey, t.minKey) ==> Less(u.maxKey, k)
      ensures Less(t.maxKey, u.minKey) ==> Less(k, u.minKey)
    {
      var p := OverlayOrigin(tables, k);
      if p < |c| {
        assert c[p] in c;
        SameSide(h, u, t, l2[c[p]]);
        KeysBeyond(h, u, l2[c[p]]);
      } else {
        KeysBeyond(h, u, t);
      }
    }
  }

  lemma {:induction false} OutsideIsAbsent(h: Hasher, u: SSTable, m: map<string, Value>)
    requires ValidTable(h, u) && OneSide(u, m)
    ensures forall k :: k in m ==> k !in Contents(RecordsOf(u))
  {
    forall k | k in m && k in Contents(RecordsOf(u))
      ensures false
    {
      KeysInRange(h, u, k);
    }
  }

  /** Tables with disjoint ranges share no key, so any choice among them is safe. */
  lemma {:induction false} ApartIsSafe(h: Hasher, ts: seq<SSTable>, c: seq<nat>)
    requires AllValid(h, ts) && PairwiseApart(ts) && InRange(ts, c) && Distinct(c)
    ensures KeySafe(Stack(ts), c)
  {
    forall i, j, k | 0 <= i < |ts| && 0 <= j < |ts| && i != j && HasKey(Stack(ts)[i], k)
      ensures !HasKey(Stack(ts)[j], k)
    {
      if HasKey(Stack(ts)[j], k) {
        ApartKeys(h, ts[if i < j then i else j], ts[if i < j then j else i], k);
      }
    }
  }

  lemma {:induction false} ApartKeys(h: Hasher, a: SSTable, b: SSTable, k: string)
    requires ValidTable(h, a) && ValidTable(h, b) && Apart(a, b)
    ensures !(k in Contents(RecordsOf(a)) && k in Contents(RecordsOf(b)))
  {
    if k in Contents(RecordsOf(a)) && k in Contents(RecordsOf(b)) {
      KeysInRange(h, a, k);
      KeysInRange(h, b, k);
      LessTotal(k, a.maxKey);
      LessTotal(k, b.maxKey);
      if Less(a.maxKey, b.minKey) && Less(k, a.maxKey) {
        LessTransitive(k, a.maxKey, b.minKey);
      }
      if Less(b.maxKey, a.minKey) && Less(k, b.maxKey) {
        LessTransitive(k, b.maxKey, a.minKey);
      }
    }
  }

  lemma {:induction false} UnchosenMember<T>(s: seq<T>, c: seq<nat>, i: nat) returns (j: nat)
    requires i < |Unchosen(s, c)|
    ensures j < |s| && j !in c && s[j] == Unchosen(s, c)[i]
  {
    var n := |s| - 1;
    if i < |Unchosen(s[..n], c)| {
      j := UnchosenMember(s[..n], c, i);
    } else {
      j := n;
    }
  }

  lemma {:induction false} UnchosenApart(ts: seq<SSTable>, c: seq<nat>)
    requires PairwiseApart(ts)
    ensures PairwiseApart(Unchosen(ts, c))
  {
    if ts != [] {
      var n := |ts| - 1;
      UnchosenApart(ts[..n], c);
      var u := Unchosen(ts[..n], c);
      forall i | 0 <= i < |u|
        ensures Apart(u[i], ts[n])
      {
        var j := UnchosenMember(ts[..n], c, i);
      }
    }
  }

  /** The whole of an L1 to L2 compaction on the level lists: `outs` are the tables written. */
  ghost predicate CompactsTo(h: Hasher, l2: seq<SSTable>, t: SSTable, c: seq<nat>, outs: seq<SSTable>)
    requires InRange(l2, c)
  {
    && AllValid(h, outs)
    && (forall i, j :: 0 <= i < j < |outs| ==> Less(outs[i].maxKey, outs[j].minKey))
    && Overlay(Stack(outs)) == Emitted(Overlay(Stack(Pick(l2, c)) + [RecordsOf(t)]), true)
  }

  lemma {:induction false} OutKeys(h: Hasher, outs: seq<SSTable>, i: nat, k: string)
    requires AllValid(h, outs) && i < |outs| && k in Contents(RecordsOf(outs[i]))
    requires forall i, j :: 0 <= i < j < |outs| ==> Less(outs[i].maxKey, outs[j].minKey)
    ensures k in Overlay(Stack(outs)) && Overlay(Stack(outs))[k] == Contents(RecordsOf(outs[i]))[k]
  {
    forall j | i < j < |outs|
      ensures k !in Contents(Stack(outs)[j])
    {
      ApartKeys(h, outs[i], outs[j], k);
    }
    OverlayValue(Stack(outs), i, k);
  }

  lemma {:induction false} OutRange(h: Hasher, t: SSTable)
    requires ValidTable(h, t)
    ensures t.minKey in Contents(RecordsOf(t)) && t.maxKey in Contents(RecordsOf(t))
  {
    ContentsLists(RecordsOf(t));
  }

  /** The compaction keeps the bottom level disjoint and free of tombstones. */
  lemma {:induction false} CompactionKeepsBottom(h: Hasher, l2: seq<SSTable>, t: SSTable, outs: seq<SSTable>)
    requires BottomLevel(h, l2) && ValidTable(h, t)
    requires var c := OverlapIndices(l2, t.minKey, t.maxKey); InRange(l2, c) && CompactsTo(h, l2, t, c, outs)
    ensures BottomLevel(h, Unchosen(l2, OverlapIndices(l2, t.minKey, t.maxKey)) + outs)
  {
    hide ValidTable, OverlapIndices, Unchosen, Overlay, NoTombstone, Contents, RecordsOf;
    var c := OverlapIndices(l2, t.minKey, t.maxKey);
    OverlapIndicesExact(l2, t.minKey, t.maxKey);
    var kept := Unchosen(l2, c);
    UnchosenApart(l2, c);
    forall i | 0 <= i < |kept|
      ensures ValidTable(h, kept[i]) && NoTombstone(RecordsOf(kept[i]))
    {
      var j := UnchosenMember(l2, c, i);
    }
    forall i, o | 0 <= i < |kept| && 0 <= o < |outs|
      ensures Apart(kept[i], outs[o])
    {
      var j := UnchosenMember(l2, c, i);
      LeftOnOneSide(h, l2, t, j);
      OutRange(h, outs[o]);
      OutKeys(h, outs, o, outs[o].minKey);
      OutKeys(h, outs, o, outs[o].maxKey);
    }
    forall o | 0 <= o < |outs|
      ensures NoTombstone(RecordsOf(outs[o]))
    {
      OutsLive(h, outs, o, Overlay(Stack(Pick(l2, c)) + [RecordsOf(t)]));
    }
  }

  lemma {:induction false} OutsLive(h: Hasher, outs: seq<SSTable>, o: nat, m: map<string, Value>)
    requires AllValid(h, outs) && o < |outs| && Overlay(Stack(outs)) == Emitted(m, true)
    requires forall i, j :: 0 <= i < j < |outs| ==> Less(outs[i].maxKey, outs[j].minKey)
    ensures NoTombstone(RecordsOf(outs[o]))
  {
    var rs := RecordsOf(outs[o]);
    ContentsLists(rs);
    forall i | 0 <= i < |rs|
      ensures rs[i].value.Data?
    {
      OutKeys(h, outs, o, rs[i].key);
    }
  }

  /** Two raw maps that show the same show the same under anything newer. */
  lemma {:induction false} LiveUnder(a: map<string, Value>, b: map<string, Value>, newer: map<string, Value>)
    requires Live(a) == Live(b)
    ensures Live(a + newer) == Live(b + newer)
  {
    forall k | k in Live(a + newer)
      ensures k in Live(b + newer) && Live(b + newer)[k] == Live(a + newer)[k]
    {
      assert k !in newer ==> k in Live(a);
    }
    forall k | k in Live(b + newer)
      ensures k in Live(a + newer)
    {
      assert k !in newer ==> k in Live(b);
    }
  }

  /** Dropping tombstones from a part no older table reaches shows nothing new. */
  lemma {:induction false} LiveDropped(kept: map<string, Value>, m: map<string, Value>)
    requires forall k :: k in m ==> k !in kept
    ensures Live(kept + m) == Live(kept + Emitted(m, true))
  {
  }

  /** The compaction keeps what the two levels show, though it drops tombstones. */
  lemma {:induction false} CompactionKeepsLive(h: Hasher, l2: seq<SSTable>, t: SSTable, outs: seq<SSTable>)
    requires BottomLevel(h, l2) && ValidTable(h, t)
    requires var c := OverlapIndices(l2, t.minKey, t.maxKey); InRange(l2, c) && CompactsTo(h, l2, t, c, outs)
    ensures var c := OverlapIndices(l2, t.minKey, t.maxKey);
            Live(Overlay(Stack(Unchosen(l2, c) + outs))) == Live(Overlay(Stack(l2)) + Contents(RecordsOf(t)))
  {
    var c := OverlapIndices(l2, t.minKey, t.maxKey);
    OverlapIndicesExact(l2, t.minKey, t.maxKey);
    ApartIsSafe(h, l2, c);
    SafeMergeKeeps(Stack(l2), c);
    var kept, chosen := Overlay(Unchosen(Stack(l2), c)), Overlay(Pick(Stack(l2), c));
    var m := Overlay(Stack(Pick(l2, c)) + [RecordsOf(t)]);
    StackPick(l2, c);
    StackUnchosen(l2, c);
    StackConcat(Unchosen(l2, c), outs);
    OverlayConcat(Stack(Unchosen(l2, c)), Stack(outs));
    OverlayConcat(Stack(Pick(l2, c)), [RecordsOf(t)]);
    OverlaySingle(RecordsOf(t));
    forall k | k in m
      ensures k !in kept
    {
      if k in kept {
        KeptIsOutside(h, l2, t, k);
      }
    }
    LiveDropped(kept, m);
    DisjointCommute(chosen, kept, Contents(RecordsOf(t)));
  }

  lemma {:induction false} DisjointCommute(chosen: map<string, Value>, kept: map<string, Value>, t: map<string, Value>)
    requires forall k :: k in chosen + t ==> k !in kept
    ensures (chosen + kept) + t == kept + (chosen + t)
  {
  }

  lemma {:induction false} KeptIsOutside(h: Hasher, l2: seq<SSTable>, t: SSTable, k: string)
    requires BottomLevel(h, l2) && ValidTable(h, t)
    requires InRange(l2, OverlapIndices(l2, t.minKey, t.maxKey))
    requires k in Overlay(Unchosen(Stack(l2), OverlapIndices(l2, t.minKey, t.maxKey)))
    ensures k !in Overlay(Stack(Pick(l2, OverlapIndices(l2, t.minKey, t.maxKey))) + [RecordsOf(t)])
  {
    var c := OverlapIndices(l2, t.minKey, t.maxKey);
    OverlapIndicesExact(l2, t.minKey, t.maxKey);
    var i := OverlayOrigin(Unchosen(Stack(l2), c), k);
    var j := UnchosenMember(Stack(l2), c, i);
    LeftOnOneSide(h, l2, t, j);
    OutsideIsAbsent(h, l2[j], Overlay(Stack(Pick(l2, c)) + [RecordsOf(t)]));
  }
}
