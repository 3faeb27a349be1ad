/** Which L0 tables a compaction takes: three of similar size, by the smallest window of the sizes. */
module Picker {
  import opened Seqs
  import opened SortedMap
  import opened Records
  import opened TableBuilder
  import opened Selection
  import opened Leveling

  const SIZE_TIERED_MIN_TABLES: nat := 3
  const L1_COMPACTION_THRESHOLD: nat := 4

  datatype Sized = Sized(index: nat, size: nat)

  /** A stable insertion: behind everything that is not larger. */
  function InsertBySize(s: seq<Sized>, x: Sized): (r: seq<Sized>)
    ensures |r| == |s| + 1
  {
    if s == [] || x.size < s[0].size then [x] + s else [s[0]] + InsertBySize(s[1..], x)
  }

  function SortBySize(ts: seq<SSTable>): (r: seq<Sized>)
    ensures |r| == |ts|
  {
    if ts == [] then []
    else InsertBySize(SortBySize(ts[..|ts| - 1]), Sized(|ts| - 1, ts[|ts| - 1].fileSize))
  }

  /** Sizes ascend; among equal sizes the older table comes first. */
  predicate Ranked(a: Sized, b: Sized) {
    a.size < b.size || (a.size == b.size && a.index < b.index)
  }

  ghost predicate RankedAll(s: seq<Sized>) {
    forall i, j :: 0 <= i < j < |s| ==> Ranked(s[i], s[j])
  }

  lemma {:induction false} InsertBySizeExact(s: seq<Sized>, x: Sized)
    requires RankedAll(s) && forall y :: y in s ==> y.index < x.index
    ensures RankedAll(InsertBySize(s, x))
    ensures forall y :: y in InsertBySize(s, x) <==> y in s || y == x
  {
    if s == [] || x.size < s[0].size {
      assert forall y :: y in [x] + s <==> y in s || y == x;
    } else {
      InsertBySizeExact(s[1..], x);
      HeadTail(s);
      var t := InsertBySize(s[1..], x);
      forall j | 0 <= j < |t|
        ensures Ranked(s[0], t[j])
      {
        assert t[j] in t;
        assert s[0] in s;
      }
      assert forall y :: y in [s[0]] + t <==> y == s[0] || y in t;
      assert forall y :: y in s <==> y == s[0] || y in s[1..];
    }
  }

  /** The sort lists every table once, with its size, smallest first. */
  lemma {:induction false} SortBySizeExact(ts: seq<SSTable>)
    ensures RankedAll(SortBySize(ts))
    ensures forall y :: y in SortBySize(ts) <==> y.index < |ts| && y.size == ts[y.index].fileSize
  {
    if ts != [] {
      var n := |ts| - 1;
      SortBySizeExact(ts[..n]);
      var s, x := SortBySize(ts[..n]), Sized(n, ts[n].fileSize);
      InsertBySizeExact(s, x);
      forall y | y in SortBySize(ts)
        ensures y.index < |ts| && y.size == ts[y.index].fileSize
      {
        if y != x {
          assert y in s;
        }
      }
      forall y: Sized | y.index < |ts| && y.size == ts[y.index].fileSize
        ensures y in SortBySize(ts)
      {
        if y.index < n {
          assert y in s;
        }
      }
    }
  }

  /** Largest over smallest is at most 1.5; a smallest size of zero never qualifies. */
  predicate WithinRatio(min: nat, max: nat) {
    min > 0 && 2 * max <= 3 * min
  }

  predicate WindowFits(s: seq<Sized>, i: nat)
    requires i + SIZE_TIERED_MIN_TABLES <= |s|
  {
    WithinRatio(s[i].size, s[i + SIZE_TIERED_MIN_TABLES - 1].size)
  }

  function FirstWindow(s: seq<Sized>, i: nat): seq<nat>
    decreases |s| - i
  {
    if i + SIZE_TIERED_MIN_TABLES > |s| then []
    else if WindowFits(s, i) then [s[i].index, s[i + 1].index, s[i + 2].index]
    else FirstWindow(s, i + 1)
  }

  function FindSizeTieredCandidates(l0: seq<SSTable>): seq<nat> {
    FirstWindow(SortBySize(l0), 0)
  }

  /** The first window that fits from a place on. */
  ghost predicate FirstFit(s: seq<Sized>, from: nat, j: int) {
    && from <= j && j + SIZE_TIERED_MIN_TABLES <= |s| && WindowFits(s, j)
    && forall i :: from <= i < j ==> !WindowFits(s, i)
  }

  lemma {:induction false} FirstWindowExact(s: seq<Sized>, i: nat)
    requires i <= |s|
    ensures FirstWindow(s, i) == [] <==>
            forall j :: i <= j && j + SIZE_TIERED_MIN_TABLES <= |s| ==> !WindowFits(s, j)
    decreases |s| - i
  {
    hide WindowFits;
    if i + SIZE_TIERED_MIN_TABLES <= |s| && !WindowFits(s, i) {
      FirstWindowExact(s, i + 1);
    }
  }

  lemma {:induction false} FirstWindowAt(s: seq<Sized>, i: nat) returns (j: nat)
    requires i <= |s| && FirstWindow(s, i) != []
    ensures FirstFit(s, i, j) && FirstWindow(s, i) == [s[j].index, s[j + 1].index, s[j + 2].index]
    decreases |s| - i
  {
    hide WindowFits;
    if WindowFits(s, i) {
      j := i;
    } else {
      j := FirstWindowAt(s, i + 1);
    }
  }

  /** Three tables whose sizes are within the ratio, whatever their ages. */
  ghost predicate SimilarThree(l0: seq<SSTable>, a: nat, b: nat, c: nat) {
    && a < |l0| && b < |l0| && c < |l0| && a != b && a != c && b != c
    && l0[a].fileSize <= l0[b].fileSize <= l0[c].fileSize
    && l0[a].fileSize > 0 && 2 * l0[c].fileSize <= 3 * l0[a].fileSize
  }

  /** A table comes before another in the order of sizes, the older one first among equal sizes. */
  ghost predicate BySize(l0: seq<SSTable>, a: nat, b: nat)
    requires a < |l0| && b < |l0|
  {
    l0[a].fileSize < l0[b].fileSize || (l0[a].fileSize == l0[b].fileSize && a < b)
  }

  /** With no table in between. */
  ghost predicate NextBySize(l0: seq<SSTable>, a: nat, b: nat)
    requires a < |l0| && b < |l0|
  {
    BySize(l0, a, b) && forall x :: 0 <= x < |l0| && BySize(l0, a, x) ==> !BySize(l0, x, b)
  }

  /** Three tables next to each other in the order of sizes, the last at most half again as large as the first. */
  ghost predicate SizeWindow(l0: seq<SSTable>, a: nat, b: nat, c: nat) {
    && a < |l0| && b < |l0| && c < |l0| && NextBySize(l0, a, b) && NextBySize(l0, b, c)
    && l0[a].fileSize > 0 && 2 * l0[c].fileSize <= 3 * l0[a].fileSize
  }

  lemma {:induction false} WindowIsSimilar(l0: seq<SSTable>, j: nat)
    requires j + SIZE_TIERED_MIN_TABLES <= |SortBySize(l0)| && WindowFits(SortBySize(l0), j)
    ensures var s := SortBySize(l0); SimilarThree(l0, s[j].index, s[j + 1].index, s[j + 2].index)
  {
    SortBySizeExact(l0);
    hide SortBySize;
    var s := SortBySize(l0);
    assert s[j] in s && s[j + 1] in s && s[j + 2] in s;
    assert Ranked(s[j], s[j + 1]) && Ranked(s[j + 1], s[j + 2]) && Ranked(s[j], s[j + 2]);
  }

  lemma {:induction false} CandidateFits(l0: seq<SSTable>)
    ensures var r := FindSizeTieredCandidates(l0);
            r == [] || (|r| == 3 && SimilarThree(l0, r[0], r[1], r[2]))
  {
    var s, r := SortBySize(l0), FindSizeTieredCandidates(l0);
    hide FirstWindow, SortBySize, SimilarThree;
    if r != [] {
      var j := FirstWindowAt(s, 0);
      WindowIsSimilar(l0, j);
    }
  }

  /** A candidate is found exactly when some three tables are of similar size; it is three such tables,
      smallest first: the order of sizes, not of ages. */
  lemma {:induction false} CandidatesExact(l0: seq<SSTable>)
    ensures var r := FindSizeTieredCandidates(l0);
            && InRange(l0, r) && Distinct(r)
            && (r != [] ==> |r| == 3 && SimilarThree(l0, r[0], r[1], r[2]))
            && (r != [] <==> exists a, b, c :: SimilarThree(l0, a, b, c))
  {
    var r := FindSizeTieredCandidates(l0);
    CandidateFits(l0);
    hide FindSizeTieredCandidates, SimilarThree;
    if r != [] {
      SimilarIndices(l0, r);
    }
    forall a, b, c | SimilarThree(l0, a, b, c)
      ensures r != []
    {
      SimilarIsFound(l0, a, b, c);
    }
  }

  lemma {:induction false} PlacesRank(l0: seq<SSTable>, p: nat, q: nat)
    requires p < |SortBySize(l0)| && q < |SortBySize(l0)|
    ensures var s := SortBySize(l0);
            s[p].index < |l0| && s[q].index < |l0| && (BySize(l0, s[p].index, s[q].index) <==> p < q)
  {
    SortBySizeExact(l0);
    hide SortBySize;
    var s := SortBySize(l0);
    assert s[p] in s && s[q] in s;
    if p < q {
      assert Ranked(s[p], s[q]);
    } else if q < p {
      assert Ranked(s[q], s[p]);
    }
  }

  /** Next in the order of sizes is next in the sorted list. */
  lemma {:induction false} NextIsNext(l0: seq<SSTable>, p: nat, q: nat)
    requires p < |SortBySize(l0)| && q < |SortBySize(l0)|
    ensures var s := SortBySize(l0); s[p].index < |l0| && s[q].index < |l0| && (NextBySize(l0, s[p].index, s[q].index) <==> q == p + 1)
  {
    PlacesRank(l0, p, q);
    hide SortBySize, BySize;
    var s := SortBySize(l0);
    if q == p + 1 {
      forall x | 0 <= x < |l0| && BySize(l0, s[p].index, x)
        ensures !BySize(l0, x, s[q].index)
      {
        var y := RankPosition(l0, x);
        PlacesRank(l0, p, y);
        PlacesRank(l0, y, q);
      }
    } else if p < q {
      PlacesRank(l0, p, p + 1);
      PlacesRank(l0, p + 1, q);
      assert BySize(l0, s[p].index, s[p + 1].index);
    }
  }

  /** The windows of the sorted list are the windows by size. */
  lemma {:induction false} WindowsAgree(l0: seq<SSTable>, p: nat, q: nat, r: nat)
    requires var s := SortBySize(l0); p < |s| && q < |s| && r < |s|
    ensures var s := SortBySize(l0);
            SizeWindow(l0, s[p].index, s[q].index, s[r].index) <==> q == p + 1 && r == p + 2 && WindowFits(s, p)
  {
    SortBySizeExact(l0);
    hide SortBySize, NextBySize;
    var s := SortBySize(l0);
    NextIsNext(l0, p, q);
    NextIsNext(l0, q, r);
    assert s[p] in s && s[r] in s;
  }

  lemma {:induction false} FirstIsLowest(l0: seq<SSTable>) returns (j: nat)
    requires FindSizeTieredCandidates(l0) != []
    ensures var s := SortBySize(l0); FirstFit(s, 0, j) && FindSizeTieredCandidates(l0) == [s[j].index, s[j + 1].index, s[j + 2].index]
    ensures var s := SortBySize(l0); SizeWindow(l0, s[j].index, s[j + 1].index, s[j + 2].index)
    ensures forall a, b, c :: SizeWindow(l0, a, b, c) ==> !BySize(l0, a, SortBySize(l0)[j].index)
  {
    hide FirstWindow, SortBySize, NextBySize, BySize, WindowFits;
    var s := SortBySize(l0);
    j := FirstWindowAt(s, 0);
    WindowsAgree(l0, j, j + 1, j + 2);
    PlacesRank(l0, j, j);
    forall a, b, c | SizeWindow(l0, a, b, c)
      ensures !BySize(l0, a, s[j].index)
    {
      var p := WindowPlace(l0, a, b, c);
      PlacesRank(l0, p, j);
    }
  }

  /** The picked tables are the first window in the order of sizes; none are picked exactly when there is no window. */
  lemma {:induction false} FirstWindowPicked(l0: seq<SSTable>)
    ensures var r := FindSizeTieredCandidates(l0);
            && (r == [] <==> forall a, b, c :: !SizeWindow(l0, a, b, c))
            && (r != [] ==> |r| == 3 && SizeWindow(l0, r[0], r[1], r[2]) &&
                            forall a, b, c :: SizeWindow(l0, a, b, c) ==> !BySize(l0, a, r[0]))
  {
    FirstWindowExact(SortBySize(l0), 0);
    hide FirstWindow, SortBySize, SizeWindow, BySize, WindowFits;
    if FindSizeTieredCandidates(l0) != [] {
      var j := FirstIsLowest(l0);
    }
    forall a, b, c | SizeWindow(l0, a, b, c)
      ensures FindSizeTieredCandidates(l0) != []
    {
      var p := WindowPlace(l0, a, b, c);
    }
  }

  lemma {:induction false} WindowPlace(l0: seq<SSTable>, a: nat, b: nat, c: nat) returns (p: nat)
    requires SizeWindow(l0, a, b, c)
    ensures var s := SortBySize(l0); p + SIZE_TIERED_MIN_TABLES <= |s| && s[p].index == a && WindowFits(s, p)
  {
    hide SortBySize, BySize, WindowFits;
    p := RankPosition(l0, a);
    var q := RankPosition(l0, b);
    var r := RankPosition(l0, c);
    WindowsAgree(l0, p, q, r);
  }

  lemma {:induction false} SimilarIsFound(l0: seq<SSTable>, a: nat, b: nat, c: nat)
    requires SimilarThree(l0, a, b, c)
    ensures FindSizeTieredCandidates(l0) != []
  {
    FirstWindowExact(SortBySize(l0), 0);
    var j := WindowOf(l0, a, b, c);
  }

  lemma {:induction false} SimilarIndices(l0: seq<SSTable>, r: seq<nat>)
    requires |r| == 3 && SimilarThree(l0, r[0], r[1], r[2])
    ensures InRange(l0, r) && Distinct(r)
  {
  }

  lemma {:induction false} RankPosition(l0: seq<SSTable>, a: nat) returns (p: nat)
    requires a < |l0|
    ensures var s := SortBySize(l0); p < |s| && s[p] == Sized(a, l0[a].fileSize)
  {
    SortBySizeExact(l0);
    var s := SortBySize(l0);
    assert Sized(a, l0[a].fileSize) in s;
    p :| 0 <= p < |s| && s[p] == Sized(a, l0[a].fileSize);
  }

  /** The window that starts at the smallest of three similar tables fits. */
  lemma {:induction false} WindowOf(l0: seq<SSTable>, a: nat, b: nat, c: nat) returns (j: nat)
    requires SimilarThree(l0, a, b, c)
    ensures var s := SortBySize(l0); j + SIZE_TIERED_MIN_TABLES <= |s| && WindowFits(s, j)
  {
    SortBySizeExact(l0);
    hide SortBySize;
    var s := SortBySize(l0);
    var p := RankPosition(l0, a);
    var q := RankPosition(l0, b);
    var r := RankPosition(l0, c);
    j := if p < q && p < r then p else if q < p && q < r then q else r;
    var last := if p >= q && p >= r then p else if q >= p && q >= r then q else r;
    assert j + 2 <= last;
    assert j != p ==> s[j].size == s[p].size by {
      if j != p {
        assert Ranked(s[j], s[p]);
      }
    }
    assert s[last].size == l0[c].fileSize by {
      if last != r {
        assert Ranked(s[r], s[last]);
      }
    }
    if j + 2 < last {
      assert Ranked(s[j + 2], s[last]);
    }
  }

  function PickL0(l0: seq<SSTable>): Option<seq<nat>> {
    var inputs := FindSizeTieredCandidates(l0);
    if inputs == [] then None else Some(inputs)
  }

  /** The oldest table of a long L1 and the tables of L2 its range meets. */
  function PickL1(l1: seq<SSTable>, l2: seq<SSTable>): Option<seq<nat>> {
    if |l1| < L1_COMPACTION_THRESHOLD then None
    else Some(OverlapIndices(l2, l1[0].minKey, l1[0].maxKey))
  }

  lemma {:induction false} ShrinkingPicked(l0: seq<SSTable>)
    requires |l0| == 3 && l0[2].fileSize < l0[1].fileSize < l0[0].fileSize
    requires WithinRatio(l0[2].fileSize, l0[0].fileSize)
    ensures PickL0(l0) == Some([2, 1, 0])
  {
    CandidatesExact(l0);
    hide FindSizeTieredCandidates;
    assert SimilarThree(l0, 2, 1, 0);
    var r := FindSizeTieredCandidates(l0);
    assert |r| == 3 && r[0] == 2 && r[1] == 1 && r[2] == 0;
    assert r == [2, 1, 0];
  }

  /** Merged in the order newest to oldest, tables with a common key show its oldest value. */
  lemma {:induction false} NewestFirstShowsOldest(ts: seq<seq<Record>>, k: string)
    requires |ts| == 3 && HasKey(ts[0], k) && HasKey(ts[1], k) && HasKey(ts[2], k)
    ensures InRange(ts, [2, 1, 0]) && !KeySafe(ts, [2, 1, 0])
    ensures Lookup(Overlay(ts), k) == Some(Contents(ts[2])[k])
    ensures Lookup(Merged(ts, [2, 1, 0]), k) == Some(Contents(ts[0])[k])
  {
    var c: seq<nat> := [2, 1, 0];
    hide HasKey, Overlay, Contents;
    OverlayHeld(ts, 2, k);
    OverlayHeld(Pick(ts, c), 2, k);
    assert c[0] == 2 && c[1] == 1 && c[2] == 0;
    UnchosenLacks(ts, c, k);
    assert Newest(ts, c[0], k);
    assert HasKey(ts[c[1]], k);
    assert Overtaken(ts, c, 0, k);
    assert !KeySafe(ts, c);
    assert Merged(ts, c) == Overlay(Pick(ts, c)) + Overlay(Unchosen(ts, c));
  }

  lemma {:induction false} OverlayHeld(ts: seq<seq<Record>>, i: nat, k: string)
    requires |ts| == i + 1 && HasKey(ts[i], k)
    ensures k in Overlay(ts) && Overlay(ts)[k] == Contents(ts[i])[k]
  {
    OverlayValue(ts, i, k);
  }
}
