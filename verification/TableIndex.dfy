/** The nested block index of a table file, and its bytes. */
module TableIndexes {
  import opened Seqs
  import opened SortedMap
  import opened Utf8
  import opened Words

  /** A block's start key, its place in the file, and the places of its records. */
  datatype BlockMeta = BlockMeta(startKey: string, offset: nat, recordOffset: seq<Entry<nat>>)

  datatype SSTableIndex = SSTableIndex(offsets: seq<Entry<nat>>, blocks: seq<BlockMeta>)

  function KeyBytes(key: string): Bytes {
    BE32(|Encode(key)|) + Encode(key)
  }

  function EntryBytes(e: Entry<nat>): Bytes {
    KeyBytes(e.key) + BE64(e.value)
  }

  function EntriesBytes(es: seq<Entry<nat>>): Bytes {
    if es == [] then [] else EntryBytes(es[0]) + EntriesBytes(es[1..])
  }

  function MetaBytes(m: BlockMeta): Bytes {
    KeyBytes(m.startKey) + BE64(m.offset) + BE32(|m.recordOffset|) + EntriesBytes(m.recordOffset)
  }

  function MetasBytes(ms: seq<BlockMeta>): Bytes {
    if ms == [] then [] else MetaBytes(ms[0]) + MetasBytes(ms[1..])
  }

  /** The bytes of an index; the flat offsets are not written. */
  function SerializeIndex(index: SSTableIndex): Bytes {
    BE32(|index.blocks|) + MetasBytes(index.blocks)
  }

  /** Something read off the front of some bytes, and the bytes behind it. */
  datatype Read<+T> = Read(value: T, rest: Bytes)

  function ReadWord32(b: Bytes): Option<Read<nat>> {
    if |b| < 4 then None else Some(Read(Word32(b[..4]), b[4..]))
  }

  function ReadWord64(b: Bytes): Option<Read<nat>> {
    if |b| < 8 then None else Some(Read(Word64(b[..8]), b[8..]))
  }

  function ReadKey(b: Bytes): Option<Read<string>> {
    match ReadWord32(b)
    case None => None
    case Some(n) =>
      if |n.rest| < n.value then None
      else
        match Decode(n.rest[..n.value])
        case None => None
        case Some(key) => Some(Read(key, n.rest[n.value..]))
  }

  /** `n` record entries put into a sorted map; None is an index error, which stops the program. */
  function ReadEntries(b: Bytes, n: nat, into: seq<Entry<nat>>): Option<Read<seq<Entry<nat>>>>
    decreases n
  {
    if n == 0 then Some(Read(into, b))
    else
      match ReadKey(b)
      case None => None
      case Some(key) =>
        match ReadWord64(key.rest)
        case None => None
        case Some(off) => ReadEntries(off.rest, n - 1, Insert(into, key.value, off.value))
  }

  function ReadMeta(b: Bytes): Option<Read<BlockMeta>> {
    match ReadKey(b)
    case None => None
    case Some(key) =>
      match ReadWord64(key.rest)
      case None => None
      case Some(off) =>
        match ReadWord32(off.rest)
        case None => None
        case Some(count) =>
          match ReadEntries(count.rest, count.value, [])
          case None => None
          case Some(es) => Some(Read(BlockMeta(key.value, off.value, es.value), es.rest))
  }

  function ReadMetas(b: Bytes, n: nat, into: seq<BlockMeta>): Option<seq<BlockMeta>>
    decreases n
  {
    if n == 0 then Some(into)
    else
      match ReadMeta(b)
      case None => None
      case Some(m) => ReadMetas(m.rest, n - 1, into + [m.value])
  }

  function DeserializeIndex(b: Bytes): Option<SSTableIndex> {
    match ReadWord32(b)
    case None => None
    case Some(n) =>
      match ReadMetas(n.rest, n.value, [])
      case None => None
      case Some(ms) => Some(SSTableIndex([], ms))
  }

  lemma {:induction false} Word32Reads(n: nat, rest: Bytes)
    requires n < WORD32
    ensures ReadWord32(BE32(n) + rest) == Some(Read(n, rest))
  {
    hide BE32, Word32;
    Word32RoundTrip(n);
    Halves(BE32(n), rest);
  }

  lemma {:induction false} Word64Reads(n: nat, rest: Bytes)
    requires n < WORD64
    ensures ReadWord64(BE64(n) + rest) == Some(Read(n, rest))
  {
    Word64RoundTrip(n);
    Halves(BE64(n), rest);
  }

  predicate FitsKey(key: string) {
    |Encode(key)| < WORD32
  }

  lemma {:induction false} KeyReads(key: string, rest: Bytes)
    requires FitsKey(key)
    ensures ReadKey(KeyBytes(key) + rest) == Some(Read(key, rest))
  {
    hide BE32, ReadWord32, Encode, Decode;
    ConcatAssociates(BE32(|Encode(key)|), Encode(key), rest);
    Word32Reads(|Encode(key)|, Encode(key) + rest);
    Halves(Encode(key), rest);
    DecodeEncode(key);
  }

  predicate FitsEntries(es: seq<Entry<nat>>) {
    |es| < WORD32 && forall i :: 0 <= i < |es| ==> FitsKey(es[i].key) && es[i].value < WORD64
  }

  lemma {:induction false} EntryReads(e: Entry<nat>, rest: Bytes)
    requires FitsKey(e.key) && e.value < WORD64
    ensures var k := ReadKey(EntryBytes(e) + rest);
            k.Some? && k.value.value == e.key && ReadWord64(k.value.rest) == Some(Read(e.value, rest))
  {
    hide BE64, KeyBytes, ReadKey, ReadWord64;
    ConcatAssociates(KeyBytes(e.key), BE64(e.value), rest);
    KeyReads(e.key, BE64(e.value) + rest);
    Word64Reads(e.value, rest);
  }

  lemma {:induction false} EntriesRead(es: seq<Entry<nat>>, into: seq<Entry<nat>>, rest: Bytes)
    requires Sorted(into + es)
    requires forall i :: 0 <= i < |es| ==> FitsKey(es[i].key) && es[i].value < WORD64
    ensures ReadEntries(EntriesBytes(es) + rest, |es|, into) == Some(Read(into + es, rest))
  {
    hide FitsKey, EntryBytes, ReadKey, ReadWord64;
    if es == [] {
      ConcatNothing(into);
      assert EntriesBytes(es) + rest == rest;
    } else {
      ConcatAssociates(EntryBytes(es[0]), EntriesBytes(es[1..]), rest);
      EntryReads(es[0], EntriesBytes(es[1..]) + rest);
      HeadTail(es);
      ConcatAssociates(into, [es[0]], es[1..]);
      SortedPrefix(into + [es[0]], es[1..]);
      InsertAbove(into, es[0]);
      EntriesRead(es[1..], into + [es[0]], rest);
    }
  }

  lemma {:induction false} SortedPrefix(a: seq<Entry<nat>>, b: seq<Entry<nat>>)
    requires Sorted(a + b)
    ensures Sorted(a)
  {
    assert forall i :: 0 <= i < |a| ==> (a + b)[i] == a[i];
  }

  predicate FitsMeta(m: BlockMeta) {
    FitsKey(m.startKey) && m.offset < WORD64 && FitsEntries(m.recordOffset) && Sorted(m.recordOffset)
  }

  lemma {:induction false} RegroupMeta(a: Bytes, b: Bytes, c: Bytes, d: Bytes, rest: Bytes)
    ensures (a + b + c + d) + rest == a + (b + (c + (d + rest)))
  {
  }

  lemma {:induction false} MetaReads(m: BlockMeta, rest: Bytes)
    requires FitsMeta(m)
    ensures ReadMeta(MetaBytes(m) + rest) == Some(Read(m, rest))
  {
    hide KeyBytes, BE64, BE32, EntriesBytes, ReadKey, ReadWord64, ReadWord32, ReadEntries, FitsKey, Sorted;
    var a, b, c, d := KeyBytes(m.startKey), BE64(m.offset), BE32(|m.recordOffset|), EntriesBytes(m.recordOffset);
    RegroupMeta(a, b, c, d, rest);
    KeyReads(m.startKey, b + (c + (d + rest)));
    Word64Reads(m.offset, c + (d + rest));
    Word32Reads(|m.recordOffset|, d + rest);
    assert [] + m.recordOffset == m.recordOffset;
    EntriesRead(m.recordOffset, [], rest);
  }

  lemma {:induction false} MetasRead(ms: seq<BlockMeta>, into: seq<BlockMeta>)
    requires forall i :: 0 <= i < |ms| ==> FitsMeta(ms[i])
    ensures ReadMetas(MetasBytes(ms), |ms|, into) == Some(into + ms)
  {
    hide FitsMeta, MetaBytes, ReadMeta;
    if ms == [] {
      ConcatNothing(into);
    } else {
      MetaReads(ms[0], MetasBytes(ms[1..]));
      MetasRead(ms[1..], into + [ms[0]]);
      HeadTail(ms);
      ConcatAssociates(into, [ms[0]], ms[1..]);
    }
  }

  /** Counts and lengths fit 32 bits and places fit 64. */
  predicate FitsIndex(index: SSTableIndex) {
    |index.blocks| < WORD32 && forall i :: 0 <= i < |index.blocks| ==> FitsMeta(index.blocks[i])
  }

  /** The nested index survives its bytes; the flat offsets come back empty, whatever they were. */
  lemma {:induction false} IndexRoundTrip(index: SSTableIndex)
    requires FitsIndex(index)
    ensures DeserializeIndex(SerializeIndex(index)) == Some(SSTableIndex([], index.blocks))
  {
    hide ReadWord32, BE32, MetasBytes, ReadMetas, FitsMeta;
    Word32Reads(|index.blocks|, MetasBytes(index.blocks));
    MetasRead(index.blocks, []);
    assert [] + index.blocks == index.blocks;
  }

  /** The loop of the deserializer over one block's records. */
  method ReadRecordOffsets(bytes: Bytes, start: nat, count: nat) returns (r: Option<(seq<Entry<nat>>, nat)>)
    requires start <= |bytes|
    ensures match ReadEntries(bytes[start..], count, [])
            case None => r == None
            case Some(x) => r.Some? && r.value.0 == x.value && start <= r.value.1 <= |bytes| && bytes[r.value.1..] == x.rest
  {
    hide ReadKey, ReadWord64;
    var offsets: seq<Entry<nat>> := [];
    var i := start;
    for k := 0 to count
      invariant start <= i <= |bytes|
      invariant ReadEntries(bytes[i..], count - k, offsets) == ReadEntries(bytes[start..], count, [])
    {
      var key := ReadKey(bytes[i..]);
      if key.None? {
        return None;
      }
      KeySuffix(bytes, i);
      var j := |bytes| - |key.value.rest|;
      var off := ReadWord64(bytes[j..]);
      if off.None? {
        return None;
      }
      Word64Suffix(bytes, j);
      i := j + 8;
      offsets := Insert(offsets, key.value.value, off.value.value);
    }
    return Some((offsets, i));
  }

  lemma {:induction false} KeySuffix(b: Bytes, i: nat)
    requires i <= |b| && ReadKey(b[i..]).Some?
    ensures var r := ReadKey(b[i..]).value.rest; |r| <= |b| - i && b[|b| - |r|..] == r
  {
  }

  lemma {:induction false} Word64Suffix(b: Bytes, i: nat)
    requires i <= |b| && ReadWord64(b[i..]).Some?
    ensures i + 8 <= |b| && ReadWord64(b[i..]).value.rest == b[i + 8..]
  {
  }

  method ReadIndex(bytes: Bytes) returns (index: Option<SSTableIndex>)
    ensures index == DeserializeIndex(bytes)
  {
    hide ReadKey, ReadWord64, ReadEntries, Word32;
    if |bytes| < 4 {
      return None;
    }
    var blockCount := Word32(bytes[..4]);
    var i := 4;
    var blocks: seq<BlockMeta> := [];
    for n := 0 to blockCount
      invariant 4 <= i <= |bytes|
      invariant ReadMetas(bytes[i..], blockCount - n, blocks) == ReadMetas(bytes[4..], blockCount, [])
    {
      var key := ReadKey(bytes[i..]);
      if key.None? {
        return None;
      }
      KeySuffix(bytes, i);
      var j := |bytes| - |key.value.rest|;
      var off := ReadWord64(bytes[j..]);
      if off.None? {
        return None;
      }
      Word64Suffix(bytes, j);
      if |bytes| < j + 12 {
        return None;
      }
      var count := Word32(bytes[j + 8..j + 12]);
      assert ReadWord32(bytes[j + 8..]) == Some(Read(count, bytes[j + 12..])) by {
        assert bytes[j + 8..][..4] == bytes[j + 8..j + 12] && bytes[j + 8..][4..] == bytes[j + 12..];
      }
      var es := ReadRecordOffsets(bytes, j + 12, count);
      if es.None? {
        return None;
      }
      blocks := blocks + [BlockMeta(key.value.value, off.value.value, es.value.0)];
      i := es.value.1;
    }
    return Some(SSTableIndex([], blocks));
  }
}
