/** Table files whose bytes can be counted by hand: nothing is compressed, and every key falls on the same filter bits. */
module PlainFiles {
  import opened Seqs
  import opened SortedMap
  import opened Records
  import opened Utf8
  import opened BloomFilters
  import opened TableBuilder
  import opened TableCodec
  import opened TableIndexes
  import opened TableFiles
  import opened TableRoundTrips

  function PlainCodec(): Codec {
    Codec(_ => 0, b => b, b => Some(b))
  }

  /** A number as that many zeros and a one. */
  function Strokes(n: nat): (b: Bytes)
    ensures |b| == n + 1
  {
    if n == 0 then [1] else [0] + Strokes(n - 1)
  }

  function AllStrokes(ns: seq<nat>): Bytes {
    if ns == [] then [] else Strokes(ns[0]) + AllStrokes(ns[1..])
  }

  function Count(b: Bytes): seq<nat> {
    if b == [] then []
    else
      var rest := Count(b[1..]);
      if b[0] == 1 then [0] + rest
      else if rest == [] then [] else [rest[0] + 1] + rest[1..]
  }

  lemma {:induction false} CountStrokes(n: nat, b: Bytes)
    ensures Count(Strokes(n) + b) == [n] + Count(b)
  {
    if n == 0 {
      assert ([1] + b)[1..] == b;
    } else {
      CountStrokes(n - 1, b);
      ConcatAssociates([0], Strokes(n - 1), b);
      assert ([0] + (Strokes(n - 1) + b))[1..] == Strokes(n - 1) + b;
    }
  }

  lemma {:induction false} CountAll(ns: seq<nat>)
    ensures Count(AllStrokes(ns)) == ns
  {
    if ns != [] {
      CountAll(ns[1..]);
      CountStrokes(ns[0], AllStrokes(ns[1..]));
      HeadTail(ns);
    }
  }

  /** A framing of the filter: all its numbers in strokes. */
  function PlainFraming(): Framing {
    Framing((bits: seq<nat>, hashes: nat, n: nat) => AllStrokes([hashes, n] + bits),
            b => var ns := Count(b); if |ns| < 2 then None else Some((ns[2..], ns[0], ns[1])))
  }

  lemma {:induction false} PlainFrames()
    ensures ValidFraming(PlainFraming())
  {
    forall bits: seq<nat>, hashes: nat, n: nat
      ensures Count(AllStrokes([hashes, n] + bits)) == [hashes, n] + bits
    {
      CountAll([hashes, n] + bits);
    }
    forall bits: seq<nat>, hashes: nat, n: nat
      ensures ([hashes, n] + bits)[2..] == bits
    {
    }
  }

  function PlainHasher(): Hasher {
    Hasher(_ => 0, _ => 0)
  }

  /** The medium with the true sizes of these files. */
  function PlainMedium(): Medium {
    ByteMedium(PlainCodec(), PlainFraming(), PlainHasher(), _ => 8, _ => 2)
  }

  lemma {:induction false} PlainIsValid()
    ensures ValidMedium(PlainMedium()) && ValidCodec(PlainCodec()) && ValidFraming(PlainFraming())
  {
    PlainFrames();
    hide FileImage, BlockImage, Images;
    BytesCount(PlainCodec(), PlainFraming(), PlainHasher(), _ => 8, _ => 2, [], 0);
  }

  function Single(k: string, v: string): seq<Record> {
    [Entry(k, Data(v))]
  }

  lemma {:induction false} SingleSorted(k: string, v: string)
    ensures Sorted(Single(k, v)) && Contents(Single(k, v)) == map[k := Data(v)]
  {
    ContentsAppend([], Entry(k, Data(v)));
    assert [] + Single(k, v) == Single(k, v);
  }

  /** The index entry of a file with one record. */
  function OnlyMeta(k: string): BlockMeta {
    BlockMeta(k, HEADER_SIZE, [Entry(k, HEADER_SIZE + BLOCK_HEADER_SIZE)])
  }

  /** The writer over one record that fits a block. */
  lemma {:induction false} OneAppended(r: Record)
    requires RecordBytes(r) <= BLOCK_SIZE
    ensures var x, w := PlainCodec(), AppendAll(PlainCodec(), [r]);
            && w.file == Header() && w.singleBlock == Image(x.crc, r)
            && w.blocks == [BlockMeta(r.key, HEADER_SIZE, [])] && w.currentOffsets == OnlyMeta(r.key).recordOffset
  {
    hide Image;
    assert [r][..0] == [];
    assert AppendAll(PlainCodec(), []) == NewWriter();
  }

  lemma {:induction false} OneFinished(r: Record)
    requires RecordBytes(r) <= BLOCK_SIZE
    ensures var x := PlainCodec();
            var w := FinishData(x, AppendAll(x, [r]));
            && |w.file| == HEADER_SIZE + 12 + RecordBytes(r)
            && FinishedIndex(x, AppendAll(x, [r]), []) ==
               SSTableIndex([], [OnlyMeta(r.key)])
  {
    OneAppended(r);
    hide Image, AppendAll;
    var x := PlainCodec();
    assert Image(x.crc, r) != [];
    var m := OnlyMeta(r.key);
    assert FinishData(x, AppendAll(x, [r])).blocks == [m];
    assert [m][..0] == [] && SortMetas([m]) == InsertMeta([], m) == [] + [m] == [m];
  }

  lemma {:induction false} IndexSize(k: string)
    ensures |SerializeIndex(SSTableIndex([], [OnlyMeta(k)]))| == 32 + 2 * Length(k)
  {
    var m := OnlyMeta(k);
    assert m.recordOffset[1..] == [] && EntriesBytes(m.recordOffset) == EntryBytes(m.recordOffset[0]) + [];
    assert [m][1..] == [] && MetasBytes([m]) == MetaBytes(m) + [];
  }

  /** Whatever its key, a file with one record has the filter with the first bit set. */
  lemma {:induction false} OneFilter(r: Record, n: nat)
    ensures FilterFor(PlainMedium(), n, [r]) == Bloom(seq(8, i => i == 0), 2, 8)
  {
    var h, key, none := PlainHasher(), r.key, seq(8, _ => false);
    assert Keys([r]) == [key] && [key][..0] == [] && FilterBits(h, 8, 2, []) == none;
    assert h.At(key, 0) == 0 && h.At(key, 1) == 0;
    assert SetBits(h, none, key, 0) == none;
    assert SetBits(h, none, key, 1) == none[0 := true];
    assert SetBits(h, none, key, 2) == none[0 := true][0 := true] == seq(8, i => i == 0);
  }

  function FilterSize(): nat {
    |SerializeBloom(PlainFraming(), Bloom(seq(8, i => i == 0), 2, 8))|
  }

  lemma {:induction false} FilterIsSmall()
    ensures FilterSize() <= 1000
  {
    var bits := seq(8, i => i == 0);
    var bytes := ToBytes(bits);
    assert |bytes| == 1 && bytes[0] <= 255;
    assert [2, 8] + bytes == [2, 8, bytes[0]];
    assert [2, 8, bytes[0]][1..] == [8, bytes[0]] && [8, bytes[0]][1..] == [bytes[0]] && [bytes[0]][1..] == [];
    assert AllStrokes([bytes[0]]) == Strokes(bytes[0]) + [];
    assert AllStrokes([8, bytes[0]]) == Strokes(8) + AllStrokes([bytes[0]]);
  }

  /** The size of a file with one record. */
  lemma {:induction false} OneSize(k: string, v: string, n: nat)
    requires 13 + Length(k) + Length(v) <= BLOCK_SIZE
    ensures PlainMedium().fileBytes(Single(k, v), n) == 105 + 3 * Length(k) + Length(v) + FilterSize()
  {
    var x, f, r := PlainCodec(), PlainFraming(), Single(k, v)[0];
    assert Single(k, v) == [r];
    OneFinished(r);
    IndexSize(k);
    OneFilter(r, n);
    hide AppendAll, FinishData, FinishedIndex, SerializeIndex, SerializeBloom, FilterFor, ValidMedium, Header;
    BytesCount(x, f, PlainHasher(), _ => 8, _ => 2, [r], n);
  }
}
