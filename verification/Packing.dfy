/** Where blocks end: a table's records are packed in the one way that fills blocks of forty bytes from the front. */
module Packing {
  import opened Seqs
  import opened Records
  import opened Utf8
  import opened TableBuilder

  /** The bytes some records take in a block: thirteen for each, its key and its text. */
  ghost function BlockBytes(part: seq<Record>): nat {
    if part == [] then 0
    else
      13 + |Encode(part[0].key)| + BlockBytes(part[1..]) +
      match part[0].value
      case Data(text) => |Encode(text)|
      case Tombstone => 0
  }

  /** The first record of one block does not fit behind the other. */
  ghost predicate Overflows(part: seq<Record>, next: seq<Record>) {
    next != [] && BlockBytes(part + [next[0]]) > 40
  }

  /** Only a block of a single record takes more than forty bytes, and every block would with the record behind it. */
  ghost predicate PackedAt40(parts: seq<seq<Record>>) {
    && (forall i :: 0 <= i < |parts| ==> parts[i] != [] && (|parts[i]| == 1 || BlockBytes(parts[i]) <= 40))
    && forall i :: 0 < i < |parts| ==> Overflows(parts[i - 1], parts[i])
  }

  lemma {:induction false} BytesSnoc(part: seq<Record>, r: Record)
    ensures BlockBytes(part + [r]) == BlockBytes(part) + BlockBytes([r])
  {
    if part == [] {
      assert [] + [r] == [r];
    } else {
      BytesSnoc(part[1..], r);
      TailOfSnoc(part, r);
    }
  }

  lemma {:induction false} OneRecord(r: Record)
    ensures BlockBytes([r]) == RecordBytes(r)
  {
    assert [r][1..] == [];
  }

  lemma {:induction false} PartIsBytes(part: seq<Record>)
    ensures PartBytes(part) == BlockBytes(part)
  {
    hide RecordBytes;
    if part != [] {
      var n := |part| - 1;
      PartIsBytes(part[..n]);
      InitLast(part);
      BytesSnoc(part[..n], part[n]);
      OneRecord(part[n]);
    }
  }

  lemma {:induction false} OpenedPacked(parts: seq<seq<Record>>, r: Record)
    requires PackedAt40(parts) && (parts == [] || BlockBytes(parts[|parts| - 1] + [r]) > 40)
    ensures PackedAt40(parts + [[r]])
  {
    hide BlockBytes;
  }

  lemma {:induction false} GrownPacked(parts: seq<seq<Record>>, r: Record)
    requires PackedAt40(parts) && parts != [] && BlockBytes(parts[|parts| - 1] + [r]) <= 40
    ensures PackedAt40(parts[..|parts| - 1] + [parts[|parts| - 1] + [r]])
  {
    hide BlockBytes;
    var n := |parts| - 1;
    var grown := parts[..n] + [parts[n] + [r]];
    forall i | 0 < i <= n
      ensures Overflows(grown[i - 1], grown[i])
    {
      assert Overflows(parts[i - 1], parts[i]) && grown[i][0] == parts[i][0];
    }
  }

  /** Packing loses and reorders nothing, and fills blocks up to forty bytes. */
  lemma {:induction false} PackExact(records: seq<Record>)
    ensures Concat(Pack(records)) == records && PackedAt40(Pack(records))
  {
    PackConcat(records);
    if records != [] {
      var n := |records| - 1;
      var parts, r := Pack(records[..n]), records[n];
      PackExact(records[..n]);
      hide PackedAt40, BlockBytes, PartBytes, RecordBytes;
      if parts != [] {
        PartIsBytes(parts[|parts| - 1]);
        BytesSnoc(parts[|parts| - 1], r);
        OneRecord(r);
      }
      if parts == [] || PartBytes(parts[|parts| - 1]) + RecordBytes(r) > BLOCK_SIZE {
        OpenedPacked(parts, r);
      } else {
        GrownPacked(parts, r);
      }
    }
  }

  lemma {:induction false} LongerIsHeavier(part: seq<Record>, n: nat)
    requires n <= |part|
    ensures BlockBytes(part[..n]) <= BlockBytes(part)
  {
    if n < |part| {
      var l := |part| - 1;
      LongerIsHeavier(part[..l], n);
      assert part[..l][..n] == part[..n];
      InitLast(part);
      BytesSnoc(part[..l], part[l]);
    } else {
      TakeAll(part);
    }
  }

  /** Of two packings of the same records neither first block is longer. */
  lemma {:induction false} FirstBlockFits(a: seq<seq<Record>>, b: seq<seq<Record>>)
    requires PackedAt40(a) && PackedAt40(b) && Concat(a) == Concat(b) && a != [] && b != []
    ensures |a[0]| >= |b[0]|
  {
    hide BlockBytes, Concat;
    ConcatFront(a);
    ConcatFront(b);
    NothingBehind(a);
    if |a[0]| < |b[0]| {
      var n := |a[0]|;
      PrefixesNest(a[0], Concat(a[1..]), b[0], Concat(b[1..]));
      if |a| > 1 {
        assert Overflows(a[0], a[1]);
        NextRecord(a);
        assert b[0][n] == Concat(b)[n];
        TakeNext(b[0], n);
        LongerIsHeavier(b[0], n + 1);
      }
    }
  }

  lemma {:induction false} NothingBehind(a: seq<seq<Record>>)
    ensures |a| == 1 ==> Concat(a[1..]) == []
  {
  }

  lemma {:induction false} NextRecord(a: seq<seq<Record>>)
    requires |a| > 1 && a[1] != []
    ensures |Concat(a)| > |a[0]| && Concat(a)[|a[0]|] == a[1][0]
  {
    ConcatFront(a);
    ConcatFront(a[1..]);
  }

  lemma {:induction false} EmptyPacking(parts: seq<seq<Record>>)
    requires PackedAt40(parts)
    ensures Concat(parts) == [] <==> parts == []
  {
    if parts != [] {
      ConcatFront(parts);
    }
  }

  lemma {:induction false} TailPacked(a: seq<seq<Record>>)
    requires a != [] && PackedAt40(a)
    ensures PackedAt40(a[1..])
  {
    hide BlockBytes;
    forall i | 0 < i < |a[1..]|
      ensures Overflows(a[1..][i - 1], a[1..][i])
    {
      assert Overflows(a[i], a[i + 1]);
    }
  }

  /** There is one way to pack a list. */
  lemma {:induction false} PackUnique(a: seq<seq<Record>>, b: seq<seq<Record>>)
    requires PackedAt40(a) && PackedAt40(b) && Concat(a) == Concat(b)
    ensures a == b
  {
    if a == [] || b == [] {
      EmptyPacking(a);
      EmptyPacking(b);
    } else {
      FirstBlockFits(a, b);
      FirstBlockFits(b, a);
      ConcatFront(a);
      ConcatFront(b);
      TailPacked(a);
      TailPacked(b);
      hide PackedAt40, Concat;
      assert a[0] == Concat(a)[..|a[0]|] && b[0] == Concat(b)[..|b[0]|];
      assert Concat(a[1..]) == Concat(a)[|a[0]|..] && Concat(b[1..]) == Concat(b)[|b[0]|..];
      PackUnique(a[1..], b[1..]);
      HeadTail(a);
      HeadTail(b);
    }
  }
}
