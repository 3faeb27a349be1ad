/** How a sorted list of records becomes a table: blocks of bounded size, their offsets, the filter. */
module TableBuilder {
  import opened Seqs
  import opened Order
  import opened SortedMap
  import opened Records
  import opened Utf8
  import opened BloomFilters
  import opened Tables

  const BLOCK_SIZE: nat := 40
  const HEADER_SIZE: nat := 8

  datatype Level = L0 | L1 | L2

  /** What the model takes from its surroundings: the hasher, the filter sizing, and byte counts on disk. */
  datatype Medium = Medium(
    hasher: Hasher,
    filterBits: nat -> nat,
    filterHashes: nat -> nat,
    blockBytes: seq<Record> -> nat,
    fileBytes: (seq<Record>, nat) -> nat)

  ghost predicate ValidMedium(m: Medium) {
    && (forall n :: n >= 1 ==> m.filterBits(n) > 0)
    && (forall part :: part != [] ==> m.blockBytes(part) > 0)
  }

  /** The length of a record on disk: checksum, kind, two lengths, key and value. */
  function RecordBytes(r: Record): nat {
    13 + Length(r.key) + if r.value.Data? then Length(r.value.text) else 0
  }

  function PartBytes(part: seq<Record>): nat {
    if part == [] then 0 else PartBytes(part[..|part| - 1]) + RecordBytes(part[|part| - 1])
  }

  /** The writer's step: a record that does not fit the open block opens the next one. */
  function PackStep(parts: seq<seq<Record>>, r: Record): seq<seq<Record>> {
    if parts == [] || PartBytes(parts[|parts| - 1]) + RecordBytes(r) > BLOCK_SIZE then parts + [[r]]
    else parts[..|parts| - 1] + [parts[|parts| - 1] + [r]]
  }

  function Pack(records: seq<Record>): seq<seq<Record>> {
    if records == [] then [] else PackStep(Pack(records[..|records| - 1]), records[|records| - 1])
  }

  function Concat(parts: seq<seq<Record>>): seq<Record> {
    if parts == [] then [] else Concat(parts[..|parts| - 1]) + parts[|parts| - 1]
  }

  predicate NoneEmpty(parts: seq<seq<Record>>) {
    forall i :: 0 <= i < |parts| ==> parts[i] != []
  }

  /** Packing writes no empty block behind the first ... */
  lemma {:induction false} PackNoneEmpty(records: seq<Record>)
    ensures NoneEmpty(Pack(records))
  {
    if records != [] {
      PackNoneEmpty(records[..|records| - 1]);
      PackStepNoneEmpty(Pack(records[..|records| - 1]), records[|records| - 1]);
    }
  }

  lemma {:induction false} PackStepNoneEmpty(parts: seq<seq<Record>>, r: Record)
    requires NoneEmpty(parts)
    ensures NoneEmpty(PackStep(parts, r))
  {
    forall i | 0 <= i < |PackStep(parts, r)|
      ensures PackStep(parts, r)[i] != []
    {
    }
  }

  /** ... and loses and reorders nothing. */
  lemma {:induction false} PackConcat(records: seq<Record>)
    ensures Concat(Pack(records)) == records
  {
    hide PackStep, Concat;
    NothingPacked();
    if records != [] {
      var n := |records| - 1;
      PackConcat(records[..n]);
      ConcatStep(Pack(records[..n]), records[n]);
      InitLast(records);
    }
  }

  lemma {:induction false} NothingPacked()
    ensures Concat([]) == [] && Pack([]) == []
  {
  }

  lemma {:induction false} ConcatStep(parts: seq<seq<Record>>, r: Record)
    ensures Concat(PackStep(parts, r)) == Concat(parts) + [r]
  {
    ConcatOpen(parts, r);
    if parts != [] {
      ConcatGrow(parts, r);
    }
  }

  lemma {:induction false} ConcatOpen(parts: seq<seq<Record>>, r: Record)
    ensures Concat(parts + [[r]]) == Concat(parts) + [r]
  {
    assert (parts + [[r]])[..|parts|] == parts;
  }

  lemma {:induction false} ConcatGrow(parts: seq<seq<Record>>, r: Record)
    requires parts != []
    ensures Concat(parts[..|parts| - 1] + [parts[|parts| - 1] + [r]]) == Concat(parts) + [r]
  {
    var n := |parts| - 1;
    var grown := parts[..n] + [parts[n] + [r]];
    assert grown[..n] == parts[..n] && grown[n] == parts[n] + [r];
    assert Concat(parts[..n]) + (parts[n] + [r]) == Concat(parts[..n]) + parts[n] + [r];
  }

  function Layout(m: Medium, parts: seq<seq<Record>>, offset: nat): seq<Block>
    requires NoneEmpty(parts)
  {
    if parts == [] then []
    else [Block(parts[0][0].key, offset, parts[0])] + Layout(m, parts[1..], offset + m.blockBytes(parts[0]))
  }

  /** The first record of a file may be too large for a block; then an empty, unindexed block precedes it. */
  function FirstOffset(m: Medium, records: seq<Record>): nat {
    HEADER_SIZE + if records != [] && RecordBytes(records[0]) > BLOCK_SIZE then m.blockBytes([]) else 0
  }

  function FileBlocks(m: Medium, records: seq<Record>): seq<Block> {
    PackNoneEmpty(records);
    Layout(m, Pack(records), FirstOffset(m, records))
  }

  lemma {:induction false} LayoutBlocks(m: Medium, parts: seq<seq<Record>>, offset: nat)
    requires ValidMedium(m) && NoneEmpty(parts)
    ensures var bs := Layout(m, parts, offset);
            && |bs| == |parts|
            && (forall i :: 0 <= i < |bs| ==> bs[i].records == parts[i] && bs[i].startKey == parts[i][0].key && bs[i].offset >= offset)
            && (forall i, j :: 0 <= i < j < |bs| ==> bs[i].offset < bs[j].offset)
  {
    if parts != [] {
      LayoutBlocks(m, parts[1..], offset + m.blockBytes(parts[0]));
    }
  }

  lemma {:induction false} ConcatFront(parts: seq<seq<Record>>)
    requires parts != []
    ensures Concat(parts) == parts[0] + Concat(parts[1..])
  {
    var n := |parts| - 1;
    if n > 0 {
      ConcatFront(parts[..n]);
      var inner := parts[1..][..n - 1];
      assert parts[..n][1..] == inner && parts[1..][n - 1] == parts[n];
      assert parts[0] + Concat(inner) + parts[n] == parts[0] + (Concat(inner) + parts[n]);
    }
  }

  lemma {:induction false} LayoutFlattens(m: Medium, parts: seq<seq<Record>>, offset: nat)
    requires NoneEmpty(parts)
    ensures Flatten(Layout(m, parts, offset)) == Concat(parts)
  {
    if parts != [] {
      ConcatFront(parts);
      LayoutFlattens(m, parts[1..], offset + m.blockBytes(parts[0]));
      assert Layout(m, parts, offset)[1..] == Layout(m, parts[1..], offset + m.blockBytes(parts[0]));
    }
  }

  function Keys(records: seq<Record>): seq<string> {
    seq(|records|, i requires 0 <= i < |records| => records[i].key)
  }

  /** A table file: its indexed blocks and its filter. */
  datatype StoredFile = StoredFile(blocks: seq<Block>, bloom: Bloom)

  ghost predicate FilterCovers(h: Hasher, bloom: Bloom, records: seq<Record>) {
    forall i :: 0 <= i < |records| ==> Holds(h, bloom, records[i].key)
  }

  function FilterFor(m: Medium, expected: nat, records: seq<Record>): Bloom {
    var n := if expected < 1 then 1 else expected;
    if m.filterBits(n) > 0 then FilterOf(m.hasher, m.filterBits(n), m.filterHashes(n), Keys(records))
    else Bloom([], m.filterHashes(n), 0)
  }

  lemma {:induction false} FilterForCovers(m: Medium, expected: nat, records: seq<Record>)
    requires ValidMedium(m)
    ensures FilterCovers(m.hasher, FilterFor(m, expected, records), records)
  {
    var n := if expected < 1 then 1 else expected;
    FilterHoldsItsKeys(m.hasher, m.filterBits(n), m.filterHashes(n), Keys(records));
    forall i | 0 <= i < |records|
      ensures Holds(m.hasher, FilterFor(m, expected, records), records[i].key)
    {
      assert Keys(records)[i] in Keys(records);
    }
  }

  /** Writing records to a file, as write_sstable and a finished writer do. */
  function WriteFile(m: Medium, records: seq<Record>, expected: nat): StoredFile {
    StoredFile(FileBlocks(m, records), FilterFor(m, expected, records))
  }

  /** What is written is a valid file of exactly these records. */
  lemma {:induction false} WriteFileExact(m: Medium, records: seq<Record>, expected: nat)
    requires ValidMedium(m) && Sorted(records)
    ensures var f := WriteFile(m, records, expected);
            Flatten(f.blocks) == records && ValidBlocks(f.blocks) && FilterCovers(m.hasher, f.bloom, records)
  {
    PackNoneEmpty(records);
    PackConcat(records);
    LayoutFlattens(m, Pack(records), FirstOffset(m, records));
    LayoutBlocks(m, Pack(records), FirstOffset(m, records));
    FilterForCovers(m, expected, records);
  }

  datatype SSTable = SSTable(
    path: string, blocks: seq<Block>, bloom: Bloom, level: Level, minKey: string, maxKey: string, fileSize: nat)

  function RecordsOf(t: SSTable): seq<Record> {
    Flatten(t.blocks)
  }

  /** Every table in the engine: sorted, not empty, ranged by its first and last key, filtered soundly. */
  ghost predicate ValidTable(h: Hasher, t: SSTable) {
    var rs := RecordsOf(t);
    && ValidBlocks(t.blocks) && rs != []
    && t.minKey == rs[0].key && t.maxKey == rs[|rs| - 1].key
    && FilterCovers(h, t.bloom, rs)
  }

  /** The range of a table is inclusive at both ends. */
  predicate Overlaps(t: SSTable, minKey: string, maxKey: string) {
    !(Less(t.maxKey, minKey) || Less(maxKey, t.minKey))
  }

  predicate ContainsKeyRange(t: SSTable, key: string) {
    !Less(key, t.minKey) && !Less(t.maxKey, key)
  }

  /** The keys of a valid table lie in its range. */
  lemma {:induction false} KeysInRange(h: Hasher, t: SSTable, key: string)
    requires ValidTable(h, t) && key in Contents(RecordsOf(t))
    ensures ContainsKeyRange(t, key) && Holds(h, t.bloom, key)
  {
    var rs := RecordsOf(t);
    ContentsLists(rs);
    var i :| 0 <= i < |rs| && rs[i].key == key;
    Strict();
  }
}
