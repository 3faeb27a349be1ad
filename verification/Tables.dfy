/** A table file as readers see it: blocks of sorted records behind a sparse index of start keys. */
module Tables {
  import opened Seqs
  import opened Order
  import opened SortedMap
  import opened Records

  datatype Block = Block(startKey: string, offset: nat, records: seq<Record>)

  function Flatten(blocks: seq<Block>): seq<Record> {
    if blocks == [] then [] else blocks[0].records + Flatten(blocks[1..])
  }

  /** The records of the table ascend strictly, each block is indexed under its first key, offsets differ. */
  ghost predicate ValidBlocks(blocks: seq<Block>) {
    && Sorted(Flatten(blocks))
    && (forall i :: 0 <= i < |blocks| ==> blocks[i].records != [] && blocks[i].startKey == blocks[i].records[0].key)
    && (forall i, j :: 0 <= i < j < |blocks| ==> blocks[i].offset < blocks[j].offset)
  }

  lemma {:induction false} FlattenConcat(a: seq<Block>, b: seq<Block>)
    ensures Flatten(a + b) == Flatten(a) + Flatten(b)
  {
    if a == [] {
      assert a + b == b;
    } else {
      FlattenConcat(a[1..], b);
      assert (a + b)[1..] == a[1..] + b;
      ConcatAssociates(a[0].records, Flatten(a[1..]), Flatten(b));
    }
  }

  lemma {:induction false} FlattenSplit(blocks: seq<Block>, i: nat)
    requires i < |blocks|
    ensures Flatten(blocks) == Flatten(blocks[..i]) + blocks[i].records + Flatten(blocks[i + 1..])
    ensures Flatten(blocks[i..]) == blocks[i].records + Flatten(blocks[i + 1..])
  {
    FlattenConcat(blocks[..i], blocks[i..]);
    assert blocks == blocks[..i] + blocks[i..];
    assert blocks[i..][1..] == blocks[i + 1..];
  }

  lemma {:induction false} SortedParts(a: seq<Record>, b: seq<Record>)
    requires Sorted(a + b)
    ensures Sorted(a) && Sorted(b)
    ensures forall i, j :: 0 <= i < |a| && 0 <= j < |b| ==> Less(a[i].key, b[j].key)
  {
    var c := a + b;
    forall i, j | 0 <= i < j < |a|
      ensures Less(a[i].key, a[j].key)
    {
      assert c[i] == a[i] && c[j] == a[j];
    }
    forall i, j | 0 <= i < j < |b|
      ensures Less(b[i].key, b[j].key)
    {
      assert c[|a| + i] == b[i] && c[|a| + j] == b[j];
    }
    forall i, j | 0 <= i < |a| && 0 <= j < |b|
      ensures Less(a[i].key, b[j].key)
    {
      assert c[i] == a[i] && c[|a| + j] == b[j];
    }
  }

  lemma {:induction false} FindConcat(a: seq<Record>, b: seq<Record>, key: string)
    ensures Find(a + b, key) == if Find(a, key).Some? then Find(a, key) else Find(b, key)
  {
    if a == [] {
      assert a + b == b;
    } else {
      FindConcat(a[1..], b, key);
      assert (a + b)[1..] == a[1..] + b;
    }
  }

  lemma {:induction false} FindAbsent(a: seq<Record>, key: string)
    requires forall i :: 0 <= i < |a| ==> a[i].key != key
    ensures Find(a, key) == None
  {
    if a != [] {
      FindAbsent(a[1..], key);
    }
  }

  lemma {:induction false} FindAt(a: seq<Record>, i: nat)
    requires Sorted(a) && i < |a|
    ensures Find(a, a[i].key) == Some(a[i].value)
  {
    Strict();
    if i > 0 {
      FindAt(a[1..], i - 1);
    }
  }

  /** Where the sparse index sends a reader: the last block whose start key is not above the key. */
  ghost predicate IsBlockFor(blocks: seq<Block>, key: string, r: Option<nat>) {
    match r
    case None => blocks != [] ==> Less(key, blocks[0].startKey)
    case Some(i) =>
      && i < |blocks| && !Less(key, blocks[i].startKey)
      && (i + 1 < |blocks| ==> Less(key, blocks[i + 1].startKey))
  }

  method FindBlockIndex(blocks: seq<Block>, key: string) returns (candidate: Option<nat>)
    ensures IsBlockFor(blocks, key, candidate)
  {
    candidate := None;
    for i := 0 to |blocks|
      invariant candidate == if i == 0 then None else Some(i - 1)
      invariant forall j :: 0 <= j < i ==> !Less(key, blocks[j].startKey)
    {
      if !Less(key, blocks[i].startKey) {
        candidate := Some(i);
      } else {
        break;
      }
    }
  }

  /** A key below a sorted list is not in it, nor is one above it. */
  lemma {:induction false} FindOutside(a: seq<Record>, key: string)
    requires Sorted(a)
    requires a != [] ==> Less(key, a[0].key) || Less(a[|a| - 1].key, key)
    ensures Find(a, key) == None
  {
    Strict();
    forall i | 0 <= i < |a|
      ensures a[i].key != key
    {
    }
    FindAbsent(a, key);
  }

  /** Around the block the index names: what lies before is below the key, what lies behind is above. */
  lemma {:induction false} AroundBlock(blocks: seq<Block>, key: string, i: nat)
    requires ValidBlocks(blocks) && IsBlockFor(blocks, key, Some(i))
    ensures var before, here, after := Flatten(blocks[..i]), blocks[i].records, Flatten(blocks[i + 1..]);
            && Flatten(blocks) == before + here + after
            && Sorted(before) && Sorted(here) && Sorted(after)
            && (before != [] ==> Less(before[|before| - 1].key, key))
            && (after != [] ==> Less(key, after[0].key))
  {
    FlattenSplit(blocks, i);
    var before, here, after := Flatten(blocks[..i]), blocks[i].records, Flatten(blocks[i + 1..]);
    SortedParts(before + here, after);
    SortedParts(before, here);
    if before != [] {
      LessTotal(key, here[0].key);
      if key != here[0].key {
        LessTransitive(before[|before| - 1].key, here[0].key, key);
      }
    }
    if after != [] {
      assert blocks[i + 1..][0] == blocks[i + 1];
    }
  }

  /** The block the index names decides for the whole table. */
  lemma {:induction false} SparseIndexDecides(blocks: seq<Block>, key: string, r: Option<nat>)
    requires ValidBlocks(blocks) && IsBlockFor(blocks, key, r)
    ensures Find(Flatten(blocks), key) == if r.Some? then Find(blocks[r.value].records, key) else None
  {
    if r.None? {
      if blocks != [] {
        assert Flatten(blocks)[0] == blocks[0].records[0];
      }
      FindOutside(Flatten(blocks), key);
    } else {
      var i := r.value;
      AroundBlock(blocks, key, i);
      var before, here, after := Flatten(blocks[..i]), blocks[i].records, Flatten(blocks[i + 1..]);
      FindOutside(before, key);
      FindOutside(after, key);
      FindConcat(before + here, after, key);
      FindConcat(before, here, key);
    }
  }

  /** The manager's search: scan the one block the index names. */
  method SearchSSTable(blocks: seq<Block>, key: string) returns (r: Option<Value>)
    requires ValidBlocks(blocks)
    ensures r == Lookup(Contents(Flatten(blocks)), key)
  {
    FindIsLookup(Flatten(blocks), key);
    var block := FindBlockIndex(blocks, key);
    SparseIndexDecides(blocks, key, block);
    if block.None? {
      return None;
    }
    var records := blocks[block.value].records;
    for i := 0 to |records|
      invariant forall j :: 0 <= j < i ==> records[j].key != key
    {
      if records[i].key == key {
        BlockSorted(blocks, block.value);
        FindAt(records, i);
        return Some(records[i].value);
      }
    }
    FindAbsent(records, key);
    return None;
  }

  lemma {:induction false} BlockSorted(blocks: seq<Block>, i: nat)
    requires ValidBlocks(blocks) && i < |blocks|
    ensures Sorted(blocks[i].records)
  {
    FlattenSplit(blocks, i);
    SortedParts(Flatten(blocks[..i]) + blocks[i].records, Flatten(blocks[i + 1..]));
    SortedParts(Flatten(blocks[..i]), blocks[i].records);
  }

  /** The engine's search inside one block. */
  method BinarySearchBlock(records: seq<Record>, key: string) returns (r: Option<Value>)
    requires Sorted(records)
    ensures r == Find(records, key)
  {
    var lo, hi := 0, |records|;
    while lo < hi
      invariant 0 <= lo <= hi <= |records|
      invariant forall i :: 0 <= i < lo ==> Less(records[i].key, key)
      invariant forall i :: hi <= i < |records| ==> Less(key, records[i].key)
    {
      var mid := lo + (hi - lo) / 2;
      if records[mid].key == key {
        FindAt(records, mid);
        return Some(records[mid].value);
      } else if Less(records[mid].key, key) {
        forall i | lo <= i < mid
          ensures Less(records[i].key, key)
        {
          LessTransitive(records[i].key, records[mid].key, key);
        }
        lo := mid + 1;
      } else {
        LessTotal(records[mid].key, key);
        forall i | mid < i < hi
          ensures Less(key, records[i].key)
        {
          LessTransitive(key, records[mid].key, records[i].key);
        }
        hi := mid;
      }
    }
    Strict();
    FindAbsent(records, key);
    return None;
  }

  /** The part of a table from a key on. */
  function From(records: seq<Record>, key: string): seq<Record> {
    if records == [] then []
    else if Less(records[0].key, key) then From(records[1..], key)
    else records
  }

  /** From(records, key) is exactly the records that are not below the key. */
  lemma {:induction false} FromIsExact(records: seq<Record>, key: string)
    requires Sorted(records)
    ensures var n := |records| - |From(records, key)|;
            && 0 <= n && From(records, key) == records[n..]
            && (forall i :: 0 <= i < n ==> Less(records[i].key, key))
            && (forall i :: n <= i < |records| ==> !Less(records[i].key, key))
  {
    if records != [] {
      if Less(records[0].key, key) {
        FromIsExact(records[1..], key);
      } else {
        forall i | 0 <= i < |records|
          ensures !Less(records[i].key, key)
        {
          if i > 0 && Less(records[i].key, key) {
            LessTransitive(records[0].key, records[i].key, key);
          }
        }
      }
    }
  }

  /** A cursor over a table file that loads one block at a time. */
  class SSTableIterator {
    const blocks: seq<Block>
    var currentBlock: Option<nat>
    var blockRecords: seq<Record>
    var currentRecord: nat

    ghost predicate Valid()
      reads this
    {
      && ValidBlocks(blocks) && currentRecord <= |blockRecords|
      && (currentBlock.None? ==> blockRecords == [])
      && (currentBlock.Some? ==> currentBlock.value < |blocks| && blockRecords == blocks[currentBlock.value].records)
    }

    /** What the cursor has still to yield. */
    ghost function Remaining(): seq<Record>
      requires Valid()
      reads this
    {
      blockRecords[currentRecord..] + Flatten(blocks[if currentBlock.Some? then currentBlock.value + 1 else 0..])
    }

    constructor (blocks: seq<Block>)
      requires ValidBlocks(blocks)
      ensures Valid() && this.blocks == blocks && Remaining() == Flatten(blocks)
    {
      this.blocks, currentBlock, blockRecords, currentRecord := blocks, None, [], 0;
    }

    /** Loads the block behind the current one; there is none when the answer is false. */
    method LoadNextBlock() returns (loaded: bool)
      requires Valid() && currentRecord == |blockRecords|
      modifies this
      ensures Valid() && Remaining() == old(Remaining())
      ensures if loaded then currentRecord == 0 && blockRecords != [] else Remaining() == []
      ensures loaded ==> currentBlock.Some? && (old(currentBlock).Some? ==> currentBlock.value > old(currentBlock).value)
    {
      var next := if currentBlock.Some? then currentBlock.value + 1 else 0;
      if next >= |blocks| {
        return false;
      }
      FlattenSplit(blocks, next);
      currentBlock, blockRecords, currentRecord := Some(next), blocks[next].records, 0;
      return true;
    }

    method Next() returns (r: Option<Record>)
      requires Valid()
      modifies this
      ensures Valid()
      ensures old(Remaining()) == if r.Some? then [r.value] + Remaining() else []
      ensures r.None? ==> Remaining() == []
    {
      while true
        invariant Valid() && Remaining() == old(Remaining())
        decreases if currentRecord < |blockRecords| then 0 else 1
      {
        if currentRecord < |blockRecords| {
          r := Some(blockRecords[currentRecord]);
          currentRecord := currentRecord + 1;
          return;
        }
        var loaded := LoadNextBlock();
        if !loaded {
          return None;
        }
      }
    }

    /** Moves the cursor: exactly the records from `key` on remain. */
    method Seek(key: string)
      requires Valid()
      modifies this
      ensures Valid() && Remaining() == From(Flatten(blocks), key)
    {
      var at := FindBlockIndex(blocks, key);
      if at.Some? {
        currentBlock, blockRecords := at, blocks[at.value].records;
        var position := 0;
        while position < |blockRecords| && Less(blockRecords[position].key, key)
          invariant position <= |blockRecords|
          invariant position > 0 ==> Less(blockRecords[position - 1].key, key)
        {
          position := position + 1;
        }
        currentRecord := position;
        SeekLands(blocks, key, at.value, position);
      } else {
        currentBlock, blockRecords, currentRecord := None, [], 0;
        SeekBeforeFirst(blocks, key);
      }
    }
  }

  lemma {:induction false} SeekLands(blocks: seq<Block>, key: string, i: nat, n: nat)
    requires ValidBlocks(blocks) && IsBlockFor(blocks, key, Some(i)) && n <= |blocks[i].records|
    requires n > 0 ==> Less(blocks[i].records[n - 1].key, key)
    requires n < |blocks[i].records| ==> !Less(blocks[i].records[n].key, key)
    ensures blocks[i].records[n..] + Flatten(blocks[i + 1..]) == From(Flatten(blocks), key)
  {
    AroundBlock(blocks, key, i);
    FromInParts(Flatten(blocks[..i]), blocks[i].records, Flatten(blocks[i + 1..]), key, n);
  }

  lemma {:induction false} FromInParts(before: seq<Record>, here: seq<Record>, after: seq<Record>, key: string, n: nat)
    requires Sorted(before) && Sorted(here) && n <= |here|
    requires before != [] ==> Less(before[|before| - 1].key, key)
    requires n > 0 ==> Less(here[n - 1].key, key)
    requires n < |here| ==> !Less(here[n].key, key)
    requires after != [] ==> Less(key, after[0].key)
    ensures From(before + here + after, key) == here[n..] + after
  {
    AllBelow(before, key);
    AllBelow(here[..n], key);
    var rest := here[n..] + after;
    if n == |here| && after != [] {
      LessAsymmetric(key, after[0].key);
      assert rest[0] == after[0];
    }
    FromAfter(before, here[..n], rest, key);
    Regroup(before, here, n, after);
  }

  lemma {:induction false} Regroup<T>(a: seq<T>, s: seq<T>, n: nat, c: seq<T>)
    requires n <= |s|
    ensures a + s + c == a + (s[..n] + (s[n..] + c))
  {
  }

  lemma {:induction false} FromAfter(a: seq<Record>, b: seq<Record>, rest: seq<Record>, key: string)
    requires forall i :: 0 <= i < |a| ==> Less(a[i].key, key)
    requires forall i :: 0 <= i < |b| ==> Less(b[i].key, key)
    requires rest != [] ==> !Less(rest[0].key, key)
    ensures From(a + (b + rest), key) == rest
  {
    FromSkips(a, b + rest, key);
    FromSkips(b, rest, key);
  }

  lemma {:induction false} AllBelow(a: seq<Record>, key: string)
    requires Sorted(a) && (a != [] ==> Less(a[|a| - 1].key, key))
    ensures forall i :: 0 <= i < |a| ==> Less(a[i].key, key)
  {
    forall i | 0 <= i < |a| - 1
      ensures Less(a[i].key, key)
    {
      LessTransitive(a[i].key, a[|a| - 1].key, key);
    }
  }

  lemma {:induction false} FromSkips(a: seq<Record>, b: seq<Record>, key: string)
    requires forall i :: 0 <= i < |a| ==> Less(a[i].key, key)
    ensures From(a + b, key) == From(b, key)
  {
    if a == [] {
      assert a + b == b;
    } else {
      FromSkips(a[1..], b, key);
      assert (a + b)[1..] == a[1..] + b;
    }
  }

  lemma {:induction false} SeekBeforeFirst(blocks: seq<Block>, key: string)
    requires ValidBlocks(blocks) && IsBlockFor(blocks, key, None)
    ensures From(Flatten(blocks), key) == Flatten(blocks)
  {
    Strict();
  }
}
