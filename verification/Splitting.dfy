/** Cutting merged output into tables of bounded estimated size. */
module Splitting {
  import opened Seqs
  import opened Order
  import opened SortedMap
  import opened Records
  import opened Utf8
  import opened Tables
  import opened TableBuilder

  const TARGET_TABLE_SIZE: nat := 200

  /** The size estimate of a record: lengths in bytes plus a flat overhead. */
  function Estimate(r: Record): nat {
    if r.value.Data? then Length(r.key) + Length(r.value.text) + 32 else Length(r.key) + 16
  }

  function Weight(group: seq<Record>): nat {
    if group == [] then 0 else Weight(group[..|group| - 1]) + Estimate(group[|group| - 1])
  }

  predicate Full(group: seq<Record>) {
    Weight(group) >= TARGET_TABLE_SIZE
  }

  /** The loop of write_merged_tables: a table that has reached the target is closed. */
  function SplitStep(groups: seq<seq<Record>>, r: Record): seq<seq<Record>> {
    if groups == [] || Full(groups[|groups| - 1]) then groups + [[r]]
    else groups[..|groups| - 1] + [groups[|groups| - 1] + [r]]
  }

  function Split(records: seq<Record>): seq<seq<Record>> {
    if records == [] then [] else SplitStep(Split(records[..|records| - 1]), records[|records| - 1])
  }

  /** Every group but the last has reached the target, and each is below it without its final record. */
  ghost predicate SplitShape(groups: seq<seq<Record>>) {
    && NoneEmpty(groups)
    && (forall i :: 0 <= i < |groups| - 1 ==> Full(groups[i]))
    && (forall i :: 0 <= i < |groups| ==> !Full(groups[i][..|groups[i]| - 1]))
  }

  /** The bytes a list of records is estimated at: those of the keys and texts, and 32 more for each record, or 16 for
      each tombstone. */
  ghost function Bytes(group: seq<Record>): nat {
    if group == [] then 0
    else
      |Encode(group[0].key)| + Bytes(group[1..]) +
      match group[0].value
      case Data(text) => |Encode(text)| + 32
      case Tombstone => 16
  }

  /** No group is empty, every group but the last has 200 bytes or more, and none has without its final record. */
  ghost predicate CutAt200(groups: seq<seq<Record>>) {
    && (forall i :: 0 <= i < |groups| ==> groups[i] != [] && Bytes(groups[i][..|groups[i]| - 1]) < 200)
    && forall i :: 0 <= i < |groups| - 1 ==> Bytes(groups[i]) >= 200
  }

  lemma {:induction false} BytesSnoc(group: seq<Record>, r: Record)
    ensures Bytes(group + [r]) == Bytes(group) + Bytes([r])
  {
    if group == [] {
      assert [] + [r] == [r];
    } else {
      BytesSnoc(group[1..], r);
      TailOfSnoc(group, r);
    }
  }

  lemma {:induction false} WeightIsBytes(group: seq<Record>)
    ensures Weight(group) == Bytes(group)
  {
    hide Encode;
    if group != [] {
      var n := |group| - 1;
      WeightIsBytes(group[..n]);
      InitLast(group);
      BytesSnoc(group[..n], group[n]);
      assert Bytes([group[n]]) == Estimate(group[n]);
    }
  }

  /** The shape in bytes. */
  lemma {:induction false} ShapeInBytes(groups: seq<seq<Record>>)
    ensures SplitShape(groups) <==> CutAt200(groups)
  {
    hide Weight, Bytes;
    forall group
      ensures Weight(group) == Bytes(group)
    {
      WeightIsBytes(group);
    }
  }

  lemma {:induction false} SplitStepShape(groups: seq<seq<Record>>, r: Record)
    requires SplitShape(groups)
    ensures SplitShape(SplitStep(groups, r)) && Concat(SplitStep(groups, r)) == Concat(groups) + [r]
  {
    hide Full, Concat;
    if groups == [] || Full(groups[|groups| - 1]) {
      ConcatOpen(groups, r);
      SingleInit(r);
      NothingIsNotFull();
    } else {
      ConcatGrow(groups, r);
      InitOfSnoc(groups[|groups| - 1], r);
    }
  }

  lemma {:induction false} SingleInit(r: Record)
    ensures [r][..0] == []
  {
  }

  lemma {:induction false} NothingIsNotFull()
    ensures !Full([])
  {
  }

  /** Splitting loses and reorders nothing, and cuts at 200 bytes. */
  lemma {:induction false} SplitExact(records: seq<Record>)
    ensures Concat(Split(records)) == records && SplitShape(Split(records)) && CutAt200(Split(records))
  {
    ShapeInBytes(Split(records));
    hide CutAt200;
    if records != [] {
      SplitExact(records[..|records| - 1]);
      SplitStepShape(Split(records[..|records| - 1]), records[|records| - 1]);
      InitLast(records);
    }
  }

  lemma {:induction false} WeightMonotone(a: seq<Record>, n: nat)
    requires n <= |a|
    ensures Weight(a[..n]) <= Weight(a)
  {
    if n < |a| {
      WeightMonotone(a[..|a| - 1], n);
      assert a[..|a| - 1][..n] == a[..n];
    } else {
      assert a[..n] == a;
    }
  }

  lemma {:induction false} ShorterIsLighter(b: seq<Record>, n: nat)
    requires n < |b| && !Full(b[..|b| - 1])
    ensures !Full(b[..n])
  {
    WeightMonotone(b[..|b| - 1], n);
    assert b[..|b| - 1][..n] == b[..n];
  }

  lemma {:induction false} FirstGroupFits(a: seq<seq<Record>>, b: seq<seq<Record>>)
    requires SplitShape(a) && SplitShape(b) && Concat(a) == Concat(b) && a != [] && b != []
    ensures |a[0]| >= |b[0]|
  {
    hide Full, Concat;
    ConcatFront(a);
    ConcatFront(b);
    NothingBehind(a);
    if |a[0]| < |b[0]| && |a| > 1 {
      PrefixesNest(a[0], Concat(a[1..]), b[0], Concat(b[1..]));
      ShorterIsLighter(b[0], |a[0]|);
    }
  }

  lemma {:induction false} NothingBehind(a: seq<seq<Record>>)
    ensures |a| == 1 ==> Concat(a[1..]) == []
  {
  }

  /** The shape determines the split: there is one way to cut a list. */
  lemma {:induction false} ShapeUnique(a: seq<seq<Record>>, b: seq<seq<Record>>)
    requires SplitShape(a) && SplitShape(b) && Concat(a) == Concat(b)
    ensures a == b
  {
    if a == [] || b == [] {
      ConcatEmpty(a);
      ConcatEmpty(b);
    } else {
      FirstGroupFits(a, b);
      FirstGroupFits(b, a);
      ConcatFront(a);
      ConcatFront(b);
      assert a[0] == Concat(a)[..|a[0]|] && b[0] == Concat(b)[..|b[0]|];
      assert Concat(a[1..]) == Concat(a)[|a[0]|..] && Concat(b[1..]) == Concat(b)[|b[0]|..];
      ShapeUnique(a[1..], b[1..]);
      HeadTail(a);
      HeadTail(b);
    }
  }

  /** So does cutting at 200 bytes. */
  lemma {:induction false} SplitUnique(a: seq<seq<Record>>, b: seq<seq<Record>>)
    requires CutAt200(a) && CutAt200(b) && Concat(a) == Concat(b)
    ensures a == b
  {
    hide CutAt200, SplitShape;
    ShapeInBytes(a);
    ShapeInBytes(b);
    ShapeUnique(a, b);
  }

  lemma {:induction false} ConcatEmpty(a: seq<seq<Record>>)
    requires NoneEmpty(a)
    ensures Concat(a) == [] <==> a == []
  {
    if a != [] {
      ConcatFront(a);
    }
  }

  /** Groups of a sorted list are sorted, and their keys ascend from group to group. */
  lemma {:induction false} GroupsAscend(groups: seq<seq<Record>>)
    requires Sorted(Concat(groups))
    ensures AllSorted(groups)
    ensures forall i, j, x, y :: 0 <= i < j < |groups| && 0 <= x < |groups[i]| && 0 <= y < |groups[j]| ==>
              Less(groups[i][x].key, groups[j][y].key)
  {
    if groups != [] {
      var n := |groups| - 1;
      SortedParts(Concat(groups[..n]), groups[n]);
      GroupsAscend(groups[..n]);
      forall i, x, y | 0 <= i < n && 0 <= x < |groups[i]| && 0 <= y < |groups[n]|
        ensures Less(groups[i][x].key, groups[n][y].key)
      {
        var p := ConcatIndex(groups[..n], i, x);
      }
    }
  }

  lemma {:induction false} ConcatIndex(groups: seq<seq<Record>>, i: nat, x: nat) returns (p: nat)
    requires i < |groups| && x < |groups[i]|
    ensures p < |Concat(groups)| && Concat(groups)[p] == groups[i][x]
  {
    var n := |groups| - 1;
    if i == n {
      p := |Concat(groups[..n])| + x;
    } else {
      p := ConcatIndex(groups[..n], i, x);
    }
  }

  lemma {:induction false} OverlayOfGroups(groups: seq<seq<Record>>)
    ensures Overlay(groups) == Contents(Concat(groups))
  {
    if groups != [] {
      OverlayOfGroups(groups[..|groups| - 1]);
      ContentsConcat(Concat(groups[..|groups| - 1]), groups[|groups| - 1]);
    }
  }
}
