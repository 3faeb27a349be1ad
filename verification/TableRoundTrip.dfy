/** Finishing a table file, reading it back, and why everything comes back. */
module TableRoundTrips {
  import opened Seqs
  import opened Order
  import opened SortedMap
  import opened Records
  import opened Utf8
  import opened Words
  import opened BloomFilters
  import opened Tables
  import opened TableBuilder
  import opened TableCodec
  import opened TableIndexes
  import opened TableFiles

  /** bincode's framing of the filter's three fields, and its inverse. */
  datatype Framing = Framing(pack: (seq<nat>, nat, nat) -> Bytes, unpack: Bytes -> Option<(seq<nat>, nat, nat)>)

  ghost predicate ValidFraming(f: Framing) {
    forall bits: seq<nat>, hashes: nat, n: nat :: f.unpack(f.pack(bits, hashes, n)) == Some((bits, hashes, n))
  }

  function SerializeBloom(f: Framing, b: Bloom): Bytes {
    f.pack(ToBytes(b.bits), b.numHashes, b.exactNumBits)
  }

  function DeserializeBloom(f: Framing, b: Bytes): Option<Bloom> {
    match f.unpack(b)
    case None => None
    case Some(t) => Some(Restore(t.0, t.1, t.2))
  }

  /** A stable sort by start key. */
  function InsertMeta(ms: seq<BlockMeta>, m: BlockMeta): seq<BlockMeta> {
    if ms == [] || !Less(m.startKey, ms[|ms| - 1].startKey) then ms + [m]
    else InsertMeta(ms[..|ms| - 1], m) + [ms[|ms| - 1]]
  }

  function SortMetas(ms: seq<BlockMeta>): seq<BlockMeta> {
    if ms == [] then [] else InsertMeta(SortMetas(ms[..|ms| - 1]), ms[|ms| - 1])
  }

  /** The places of index and filter. */
  datatype FooterMetadata = FooterMetadata(indexOffset: nat, indexSize: nat, bloomOffset: nat, bloomSize: nat)

  const FOOTER_SIZE: nat := 32

  function FooterBytes(f: FooterMetadata): (b: Bytes)
    ensures |b| == FOOTER_SIZE
  {
    LE64(f.indexOffset) + LE64(f.indexSize) + LE64(f.bloomOffset) + LE64(f.bloomSize)
  }

  function ParseFooter(b: Bytes): FooterMetadata
    requires |b| >= FOOTER_SIZE
  {
    FooterMetadata(WordLE64(b[0..8]), WordLE64(b[8..16]), WordLE64(b[16..24]), WordLE64(b[24..32]))
  }

  predicate FitsFooter(f: FooterMetadata) {
    f.indexOffset < WORD64 && f.indexSize < WORD64 && f.bloomOffset < WORD64 && f.bloomSize < WORD64
  }

  lemma {:induction false} FooterRoundTrip(f: FooterMetadata)
    requires FitsFooter(f)
    ensures ParseFooter(FooterBytes(f)) == f
  {
    hide Header, LE64, WordLE64;
    WordLE64RoundTrip(f.indexOffset);
    WordLE64RoundTrip(f.indexSize);
    WordLE64RoundTrip(f.bloomOffset);
    WordLE64RoundTrip(f.bloomSize);
    Quarters(LE64(f.indexOffset), LE64(f.indexSize), LE64(f.bloomOffset), LE64(f.bloomSize));
  }

  lemma {:induction false} Quarters(a: Bytes, b: Bytes, c: Bytes, d: Bytes)
    requires |a| == |b| == |c| == |d| == 8
    ensures var s := a + b + c + d; s[0..8] == a && s[8..16] == b && s[16..24] == c && s[24..32] == d
  {
  }

  /** The records part of the file, as the writer leaves it before the index. */
  function FinishData(x: Codec, w: Writer): Writer {
    if w.singleBlock == [] then w else WriteOpenBlock(x, w)
  }

  /** Index, filter and footer behind the data. */
  function Trailer(data: Bytes, index: Bytes, bloom: Bytes): Bytes {
    data + index + bloom + FooterBytes(FooterMetadata(|data|, |index|, |data| + |index|, |bloom|)) + LE64(FOOTER_SIZE)
  }

  function FinishedIndex(x: Codec, w: Writer, offsets: seq<Entry<nat>>): SSTableIndex {
    SSTableIndex(offsets, SortMetas(FinishData(x, w).blocks))
  }

  /** The whole file for a list of records. */
  function FileImage(x: Codec, f: Framing, rs: seq<Record>, bloom: Bloom): Bytes {
    var w := AppendAll(x, rs);
    Trailer(FinishData(x, w).file, SerializeIndex(FinishedIndex(x, w, [])), SerializeBloom(f, bloom))
  }

  /** The medium that counts the bytes this codec and this framing produce. */
  function ByteMedium(x: Codec, f: Framing, hasher: Hasher, bits: nat -> nat, hashes: nat -> nat): Medium {
    var uncounted := Medium(hasher, bits, hashes, part => 0, (rs, n) => 0);
    uncounted.(blockBytes := part => |BlockImage(x, Images(x.crc, part))|,
               fileBytes := (rs, n) => |FileImage(x, f, rs, FilterFor(uncounted, n, rs))|)
  }

  /** It is a medium as the engine's theorems ask for: its counts are those of the files as they are written. */
  lemma {:induction false} BytesCount(x: Codec, f: Framing, hasher: Hasher, bits: nat -> nat, hashes: nat -> nat, rs: seq<Record>, n: nat)
    requires forall k :: k >= 1 ==> bits(k) > 0
    ensures var m := ByteMedium(x, f, hasher, bits, hashes);
            ValidMedium(m) && Counts(m, x) && m.fileBytes(rs, n) == |FileImage(x, f, rs, FilterFor(m, n, rs))|
  {
    hide FileImage, Images;
    var m := ByteMedium(x, f, hasher, bits, hashes);
    assert forall part :: m.blockBytes(part) == |BlockImage(x, Images(x.crc, part))|;
  }

  predicate HeaderOk(file: Bytes) {
    |file| >= HEADER_SIZE && file[..HEADER_SIZE] == Header()
  }

  /** The footer of a file; None stands for an error return or a stop of the program. */
  function ReadFooter(file: Bytes): Option<FooterMetadata> {
    if !HeaderOk(file) then None
    else
      var size := WordLE64(file[|file| - 8..]);
      if |file| < 8 + size || size < FOOTER_SIZE then None
      else Some(ParseFooter(file[|file| - 8 - size..|file| - 8]))
  }

  function Slice(file: Bytes, offset: nat, size: nat): Option<Bytes> {
    if offset + size > |file| then None else Some(file[offset..offset + size])
  }

  function LoadIndexFromFooter(file: Bytes): Option<SSTableIndex> {
    match ReadFooter(file)
    case None => None
    case Some(footer) =>
      match Slice(file, footer.indexOffset, footer.indexSize)
      case None => None
      case Some(b) => DeserializeIndex(b)
  }

  function LoadBloomFromFooter(f: Framing, file: Bytes): Option<Bloom> {
    match ReadFooter(file)
    case None => None
    case Some(footer) =>
      match Slice(file, footer.bloomOffset, footer.bloomSize)
      case None => None
      case Some(b) => DeserializeBloom(f, b)
  }

  /** A file that holds nothing but the header, as a merge that ends on a full table leaves behind, gives neither an
      index nor a filter: its header is read as the length of its footer. */
  lemma {:induction false} HeaderAloneFails(f: Framing)
    ensures LoadIndexFromFooter(Header()) == None && LoadBloomFromFooter(f, Header()) == None
  {
    var file := Header();
    assert file[..HEADER_SIZE] == file && file[|file| - 8..] == file;
    assert WordLE64(file) > 0;
  }

  /** Reading one block at an offset; a corrupt block reads as empty. */
  function ReadBlockAt(x: Codec, file: Bytes, offset: nat): Option<seq<Record>> {
    if !HeaderOk(file) then None
    else
      match ReadBlockData(x, file, offset)
      case Whole(data, _) => ParseRecords(x.crc, data)
      case Corrupt => Some([])
      case Resized => Some([])
      case Short => None
      case Stops => None
  }

  /** What reading all blocks up to the index yields. */
  datatype Gathered = Gathered(data: Bytes) | CorruptBlock | Failed

  function ReadBlocks(x: Codec, file: Bytes, pos: nat, end: nat, into: Bytes): Gathered
    decreases |file| - pos
  {
    if pos >= end then Gathered(into)
    else
      match ReadBlockData(x, file, pos)
      case Whole(data, next) => ReadBlocks(x, file, next, end, into + data)
      case Corrupt => CorruptBlock
      case _ => Failed
  }

  /** Reading a whole table: one corrupt block makes it read as empty. */
  function ReadSSTable(x: Codec, file: Bytes): Option<seq<Record>> {
    match ReadFooter(file)
    case None => None
    case Some(footer) =>
      match ReadBlocks(x, file, HEADER_SIZE, footer.indexOffset, [])
      case Gathered(data) => ParseRecords(x.crc, data)
      case CorruptBlock => Some([])
      case Failed => None
  }

  function JoinBytes(chunks: seq<Bytes>): Bytes {
    if chunks == [] then [] else JoinBytes(chunks[..|chunks| - 1]) + chunks[|chunks| - 1]
  }

  /** All the chunks of the file, the gap included. */
  function Chunks(x: Codec, rs: seq<Record>): seq<Bytes> {
    Gap(rs) + PartImages(x, Pack(rs))
  }

  /** Every length fits its field, and the file is below 2^63 bytes. */
  ghost predicate FitsTable(x: Codec, f: Framing, rs: seq<Record>, bloom: Bloom) {
    && |rs| < WORD32 && AllFit(rs)
    && (forall i :: 0 <= i < |Chunks(x, rs)| ==> FitsBlock(x, Chunks(x, rs)[i]))
    && 2 * |FileImage(x, f, rs, bloom)| < WORD64
  }

  lemma {:induction false} ReadsRun(x: Codec, chunks: seq<Bytes>, i: nat, rest: Bytes)
    requires ValidCodec(x) && forall j :: 0 <= j < |chunks| ==> FitsBlock(x, chunks[j])
    requires i <= |chunks|
    ensures var file, end := Header() + BlockRun(x, chunks) + rest, HEADER_SIZE + |BlockRun(x, chunks)|;
            |BlockRun(x, chunks[..i])| <= |BlockRun(x, chunks)| &&
            ReadBlocks(x, file, HEADER_SIZE, end, []) ==
            ReadBlocks(x, file, HEADER_SIZE + |BlockRun(x, chunks[..i])|, end, JoinBytes(chunks[..i]))
  {
    hide Header, BlockImage, ReadBlockData, FitsBlock, ReadBlocks;
    if i > 0 {
      ReadsRun(x, chunks, i - 1, rest);
      RunSplit(x, chunks, i - 1, rest);
      var a, c := Header() + BlockRun(x, chunks[..i - 1]), chunks[i - 1];
      TakeNext(chunks, i - 1);
      InitOfSnoc(chunks[..i - 1], c);
      BlockReadsBack(a, x, c, BlockRun(x, chunks[i..]) + rest);
      NextBlock(x, Header() + BlockRun(x, chunks) + rest, |a|, HEADER_SIZE + |BlockRun(x, chunks)|, JoinBytes(chunks[..i - 1]), c, |a| + |BlockImage(x, c)|);
    } else {
      assert chunks[..0] == [];
    }
  }

  lemma {:induction false} NextBlock(x: Codec, file: Bytes, pos: nat, end: nat, into: Bytes, data: Bytes, next: nat)
    requires pos < end && ReadBlockData(x, file, pos) == Whole(data, next)
    ensures ReadBlocks(x, file, pos, end, into) == ReadBlocks(x, file, next, end, into + data)
  {
  }

  /** One block of a run, with what lies before and behind it. */
  lemma {:induction false} RunSplit(x: Codec, chunks: seq<Bytes>, i: nat, rest: Bytes)
    requires i < |chunks|
    ensures var a, b, z := BlockRun(x, chunks[..i]), BlockImage(x, chunks[i]), BlockRun(x, chunks[i + 1..]);
            BlockRun(x, chunks) == a + b + z && Header() + BlockRun(x, chunks) + rest == (Header() + a) + b + (z + rest)
  {
    hide Header, BlockImage;
    var a, b, z := BlockRun(x, chunks[..i]), BlockImage(x, chunks[i]), BlockRun(x, chunks[i + 1..]);
    TakeDrop(chunks, i + 1);
    TakeNext(chunks, i);
    BlockRunConcat(x, chunks[..i + 1], chunks[i + 1..]);
    BlockRunSnoc(x, chunks[..i], chunks[i]);
    RegroupMiddle(Header(), a, b, z, rest);
  }

  lemma {:induction false} JoinConcat(a: seq<Bytes>, b: seq<Bytes>)
    ensures JoinBytes(a + b) == JoinBytes(a) + JoinBytes(b)
  {
    if b == [] {
      ConcatNothing(a);
      ConcatNothing(JoinBytes(a));
    } else {
      var n := |b| - 1;
      JoinConcat(a, b[..n]);
      InitLast(b);
      ConcatAssociates(a, b[..n], [b[n]]);
      InitOfSnoc(a + b[..n], b[n]);
      ConcatAssociates(JoinBytes(a), JoinBytes(b[..n]), b[n]);
    }
  }

  lemma {:induction false} JoinedImages(x: Codec, parts: seq<seq<Record>>)
    ensures JoinBytes(PartImages(x, parts)) == Images(x.crc, Concat(parts))
  {
    if parts != [] {
      var n := |parts| - 1;
      JoinedImages(x, parts[..n]);
      assert PartImages(x, parts)[..n] == PartImages(x, parts[..n]);
      ImagesConcat(x.crc, Concat(parts[..n]), parts[n]);
    }
  }

  lemma {:induction false} JoinedGap(rs: seq<Record>)
    ensures JoinBytes(Gap(rs)) == []
  {
    var none: Bytes := [];
    assert [none][..0] == [];
    assert JoinBytes([none][..0]) == [];
  }

  /** The bytes of all chunks are the bytes of all records. */
  lemma {:induction false} ChunksJoin(x: Codec, rs: seq<Record>)
    ensures JoinBytes(Chunks(x, rs)) == Images(x.crc, rs)
  {
    JoinConcat(Gap(rs), PartImages(x, Pack(rs)));
    JoinedGap(rs);
    JoinedImages(x, Pack(rs));
    PackConcat(rs);
    assert [] + Images(x.crc, rs) == Images(x.crc, rs);
  }

  lemma {:induction false} InsertMetaLast(ms: seq<BlockMeta>, m: BlockMeta)
    requires ms != [] ==> Less(ms[|ms| - 1].startKey, m.startKey)
    ensures InsertMeta(ms, m) == ms + [m]
  {
    if ms != [] {
      LessAsymmetric(ms[|ms| - 1].startKey, m.startKey);
    }
  }

  lemma {:induction false} SortedMetasStay(ms: seq<BlockMeta>)
    requires forall i, j :: 0 <= i < j < |ms| ==> Less(ms[i].startKey, ms[j].startKey)
    ensures SortMetas(ms) == ms
  {
    if ms != [] {
      var n := |ms| - 1;
      SortedMetasStay(ms[..n]);
      InsertMetaLast(ms[..n], ms[n]);
      InitLast(ms);
    }
  }

  /** What the finished writer has written, and its index: one entry a block, in file order. */
  lemma {:induction false} FinishedExact(m: Medium, x: Codec, rs: seq<Record>)
    requires Counts(m, x) && ValidMedium(m) && Sorted(rs)
    ensures var w := FinishData(x, AppendAll(x, rs));
            w.file == Header() + BlockRun(x, Chunks(x, rs)) && w.blocks == MetasOf(FileBlocks(m, rs)) == SortMetas(w.blocks)
  {
    WriterProgress(m, x, rs);
    PackEmpty(rs);
    hide Header, Image, FirstOffset, Layout, AppendAll, Pack;
    var w, parts := AppendAll(x, rs), Pack(rs);
    if rs == [] {
      EmptyFile(m, x);
    } else {
      OpenNotEmpty(m, x, rs, parts, w);
      WriteSettles(m, x, rs, parts, w);
      BlockRunConcat(x, Gap(rs), PartImages(x, parts));
      ConcatAssociates(Header(), BlockRun(x, Gap(rs)), BlockRun(x, PartImages(x, parts)));
    }
    MetasAscend(m, rs);
    SortedMetasStay(MetasOf(FileBlocks(m, rs)));
  }

  lemma {:induction false} EmptyFile(m: Medium, x: Codec)
    ensures Header() + BlockRun(x, Chunks(x, [])) == Header() && MetasOf(FileBlocks(m, [])) == []
  {
    assert Pack([]) == [] && PartImages(x, []) == [] && Chunks(x, []) == [];
  }

  lemma {:induction false} OpenNotEmpty(m: Medium, x: Codec, rs: seq<Record>, parts: seq<seq<Record>>, w: Writer)
    requires Progress(m, x, rs, parts, w) && parts != []
    ensures w.singleBlock != []
  {
    ImagesLength(x.crc, parts[|parts| - 1]);
    assert PartBytes(parts[|parts| - 1]) > 0;
  }

  lemma {:induction false} MetasAscend(m: Medium, rs: seq<Record>)
    requires ValidMedium(m) && Sorted(rs)
    ensures var ms := MetasOf(FileBlocks(m, rs)); forall i, j :: 0 <= i < j < |ms| ==> Less(ms[i].startKey, ms[j].startKey)
  {
    hide FileBlocks, ValidBlocks, FilterCovers, FilterFor, Less, ValidMedium, Sorted, Flatten, RecordPlaces;
    WriteFileExact(m, rs, 1);
    var bs := FileBlocks(m, rs);
    forall i, j | 0 <= i < j < |bs|
      ensures Less(bs[i].startKey, bs[j].startKey)
    {
      StartKeysAscend(bs, i, j);
    }
  }

  lemma {:induction false} StartKeysAscend(bs: seq<Block>, i: nat, j: nat)
    requires ValidBlocks(bs) && i < j < |bs|
    ensures Less(bs[i].startKey, bs[j].startKey)
  {
    FlattenSplit(bs, j);
    FlattenSplit(bs[..j], i);
    SortedParts(Flatten(bs[..j]) + bs[j].records, Flatten(bs[j + 1..]));
    SortedParts(Flatten(bs[..j]), bs[j].records);
    var before := Flatten(bs[..j][..i]);
    assert Flatten(bs[..j])[|before|] == bs[i].records[0];
  }

  lemma {:induction false} TrailerReads(data: Bytes, index: Bytes, bloom: Bytes)
    requires |data| >= HEADER_SIZE && data[..HEADER_SIZE] == Header() && |Trailer(data, index, bloom)| < WORD64
    ensures var file := Trailer(data, index, bloom);
            ReadFooter(file) == Some(FooterMetadata(|data|, |index|, |data| + |index|, |bloom|))
            && Slice(file, |data|, |index|) == Some(index) && Slice(file, |data| + |index|, |bloom|) == Some(bloom)
  {
    hide Header, LE64, WordLE64, FooterBytes, ParseFooter;
    var footer := FooterMetadata(|data|, |index|, |data| + |index|, |bloom|);
    WordLE64RoundTrip(FOOTER_SIZE);
    FooterRoundTrip(footer);
    TrailerSlices(data, index, bloom, FooterBytes(footer), LE64(FOOTER_SIZE));
  }

  lemma {:induction false} TrailerSlices(data: Bytes, index: Bytes, bloom: Bytes, footer: Bytes, size: Bytes)
    requires |footer| == FOOTER_SIZE && |size| == 8 && |data| >= HEADER_SIZE
    ensures var file, n := data + index + bloom + footer + size, |data| + |index|;
            && file[|file| - 8..] == size && file[|file| - 8 - FOOTER_SIZE..|file| - 8] == footer
            && file[|data|..n] == index && file[n..n + |bloom|] == bloom
            && file[..HEADER_SIZE] == data[..HEADER_SIZE]
  {
  }

  /** The data section: header and chunks. */
  function DataOf(x: Codec, rs: seq<Record>): Bytes {
    Header() + BlockRun(x, Chunks(x, rs))
  }

  function IndexOf(m: Medium, rs: seq<Record>): SSTableIndex {
    SSTableIndex([], MetasOf(FileBlocks(m, rs)))
  }

  /** The file is its data section, its nested index, its filter and its footer. */
  lemma {:induction false} ImageForm(m: Medium, x: Codec, f: Framing, rs: seq<Record>, bloom: Bloom)
    requires Counts(m, x) && ValidMedium(m) && Sorted(rs)
    ensures FileImage(x, f, rs, bloom) == Trailer(DataOf(x, rs), SerializeIndex(IndexOf(m, rs)), SerializeBloom(f, bloom))
  {
    FinishedExact(m, x, rs);
  }

  lemma {:induction false} TrailerLeads(data: Bytes, index: Bytes, bloom: Bytes) returns (rest: Bytes)
    ensures Trailer(data, index, bloom) == data + rest
  {
    hide LE64, FooterBytes;
    var footer := FooterBytes(FooterMetadata(|data|, |index|, |data| + |index|, |bloom|));
    rest := index + bloom + footer + LE64(FOOTER_SIZE);
    RegroupTrailer(data, index, bloom, footer, LE64(FOOTER_SIZE));
  }

  lemma {:induction false} DataLeads(m: Medium, x: Codec, f: Framing, rs: seq<Record>, bloom: Bloom) returns (rest: Bytes)
    requires Counts(m, x) && ValidMedium(m) && Sorted(rs)
    ensures FileImage(x, f, rs, bloom) == DataOf(x, rs) + rest && HeaderOk(FileImage(x, f, rs, bloom))
  {
    hide Header, Counts, FileImage, SerializeIndex, SerializeBloom, Trailer, BlockRun, Chunks;
    ImageForm(m, x, f, rs, bloom);
    rest := TrailerLeads(DataOf(x, rs), SerializeIndex(IndexOf(m, rs)), SerializeBloom(f, bloom));
    HeaderFirst(BlockRun(x, Chunks(x, rs)), rest);
  }

  lemma {:induction false} RegroupTrailer(a: Bytes, b: Bytes, c: Bytes, d: Bytes, e: Bytes)
    ensures a + b + c + d + e == a + (b + c + d + e)
  {
  }

  lemma {:induction false} HeaderFirst(a: Bytes, b: Bytes)
    ensures HeaderOk(Header() + a + b) && (Header() + a)[..HEADER_SIZE] == Header()
  {
    hide Header;
  }

  /** The footer leads to index and filter. */
  lemma {:induction false} FooterLeads(m: Medium, x: Codec, f: Framing, rs: seq<Record>, bloom: Bloom)
    requires Counts(m, x) && ValidMedium(m) && Sorted(rs) && FitsTable(x, f, rs, bloom)
    ensures var data, index, bl := DataOf(x, rs), SerializeIndex(IndexOf(m, rs)), SerializeBloom(f, bloom);
            var file := FileImage(x, f, rs, bloom);
            ReadFooter(file) == Some(FooterMetadata(|data|, |index|, |data| + |index|, |bl|))
            && Slice(file, |data|, |index|) == Some(index) && Slice(file, |data| + |index|, |bl|) == Some(bl)
  {
    hide Header, Counts, FileImage, SerializeIndex, SerializeBloom, Trailer, BlockRun, Chunks, ReadFooter, Slice, IndexOf;
    ImageForm(m, x, f, rs, bloom);
    HeaderFirst(BlockRun(x, Chunks(x, rs)), []);
    TrailerReads(DataOf(x, rs), SerializeIndex(IndexOf(m, rs)), SerializeBloom(f, bloom));
  }

  /** Reading the data section of any file that begins with it. */
  lemma {:induction false} DataReadsBack(x: Codec, rs: seq<Record>, rest: Bytes)
    requires ValidCodec(x) && AllFit(rs) && forall i :: 0 <= i < |Chunks(x, rs)| ==> FitsBlock(x, Chunks(x, rs)[i])
    ensures ReadBlocks(x, DataOf(x, rs) + rest, HEADER_SIZE, |DataOf(x, rs)|, []) == Gathered(Images(x.crc, rs))
    ensures ParseRecords(x.crc, Images(x.crc, rs)) == Some(rs)
  {
    hide Header, Chunks, BlockRun, FitsBlock, Images, AllFit, ParseRecords;
    var chunks := Chunks(x, rs);
    ReadsRun(x, chunks, |chunks|, rest);
    TakeAll(chunks);
    ChunksJoin(x, rs);
    ParseImages(x.crc, rs);
  }

  /** Writing a table and reading the whole of it back returns the records. */
  lemma {:induction false} TableReadsBack(m: Medium, x: Codec, f: Framing, rs: seq<Record>, bloom: Bloom)
    requires ValidCodec(x) && Counts(m, x) && ValidMedium(m) && Sorted(rs) && FitsTable(x, f, rs, bloom)
    ensures ReadSSTable(x, FileImage(x, f, rs, bloom)) == Some(rs)
  {
    hide DataOf, FileImage, ReadFooter, Slice, SerializeIndex, SerializeBloom, IndexOf, Counts, ValidMedium, ValidCodec, Sorted;
    hide AllFit, FitsBlock, ReadBlocks, Images, ParseRecords, Chunks;
    FooterLeads(m, x, f, rs, bloom);
    var rest := DataLeads(m, x, f, rs, bloom);
    DataReadsBack(x, rs, rest);
  }

  lemma {:induction false} LayoutPlace(m: Medium, x: Codec, parts: seq<seq<Record>>, offset: nat, i: nat)
    requires Counts(m, x) && NoneEmpty(parts) && i < |parts|
    ensures var bs := Layout(m, parts, offset);
            |bs| == |parts| && bs[i].records == parts[i] && bs[i].offset == offset + |BlockRun(x, PartImages(x, parts[..i]))|
    decreases |parts|
  {
    hide Header, BlockImage, Images;
    if i == 0 {
      assert parts[..0] == [] && PartImages(x, []) == [];
      LayoutCount(m, parts, offset);
    } else {
      var size := m.blockBytes(parts[0]);
      LayoutPlace(m, x, parts[1..], offset + size, i - 1);
      RunFront(x, parts[..i]);
      assert parts[..i][1..] == parts[1..][..i - 1] && parts[..i][0] == parts[0];
    }
  }

  lemma {:induction false} LayoutCount(m: Medium, parts: seq<seq<Record>>, offset: nat)
    requires NoneEmpty(parts)
    ensures |Layout(m, parts, offset)| == |parts|
  {
    if parts != [] {
      LayoutCount(m, parts[1..], offset + m.blockBytes(parts[0]));
    }
  }

  lemma {:induction false} GapSize(m: Medium, x: Codec, rs: seq<Record>)
    requires Counts(m, x)
    ensures FirstOffset(m, rs) == HEADER_SIZE + |BlockRun(x, Gap(rs))|
  {
    var none: Bytes := [];
    BlockRunSnoc(x, [], none);
    assert [] + [none] == [none];
    assert Images(x.crc, []) == [];
    assert m.blockBytes([]) == |BlockImage(x, none)|;
  }

  /** Block `b` is the one at position `j` of the data section's chunks. */
  ghost predicate LiesAt(x: Codec, rs: seq<Record>, b: Block, j: nat) {
    && j < |Chunks(x, rs)| && Chunks(x, rs)[j] == Images(x.crc, b.records)
    && b.offset == HEADER_SIZE + |BlockRun(x, Chunks(x, rs)[..j])|
  }

  lemma {:induction false} GapChunks(x: Codec, rs: seq<Record>, i: nat)
    requires i < |Pack(rs)|
    ensures var g, chunks := |Gap(rs)|, Chunks(x, rs);
            && g + i < |chunks| && chunks[g + i] == Images(x.crc, Pack(rs)[i])
            && |BlockRun(x, chunks[..g + i])| == |BlockRun(x, Gap(rs))| + |BlockRun(x, PartImages(x, Pack(rs)[..i]))|
  {
    hide BlockRun, Images, Pack;
    var images := PartImages(x, Pack(rs));
    assert Chunks(x, rs)[..|Gap(rs)| + i] == Gap(rs) + images[..i];
    assert images[..i] == PartImages(x, Pack(rs)[..i]);
    BlockRunConcat(x, Gap(rs), PartImages(x, Pack(rs)[..i]));
  }

  /** The i-th block lies at its chunk's place. */
  lemma {:induction false} BlockPlace(m: Medium, x: Codec, rs: seq<Record>, i: nat)
    requires Counts(m, x) && i < |FileBlocks(m, rs)| == |Pack(rs)|
    ensures LiesAt(x, rs, FileBlocks(m, rs)[i], |Gap(rs)| + i) && FileBlocks(m, rs)[i].records == Pack(rs)[i]
  {
    PackNoneEmpty(rs);
    LayoutPlace(m, x, Pack(rs), FirstOffset(m, rs), i);
    GapSize(m, x, rs);
    GapChunks(x, rs, i);
    hide Layout, FirstOffset, BlockRun, Images, Chunks, Counts, Pack, Gap;
  }

  lemma {:induction false} PartsFit(rs: seq<Record>, i: nat)
    requires AllFit(rs) && i < |Pack(rs)|
    ensures AllFit(Pack(rs)[i])
  {
    PackConcat(rs);
    var parts := Pack(rs);
    hide Header, FitsRecord, Pack;
    MembersFit(parts, i);
  }

  lemma {:induction false} MembersFit(parts: seq<seq<Record>>, i: nat)
    requires AllFit(Concat(parts)) && i < |parts|
    ensures AllFit(parts[i])
  {
    hide Header, FitsRecord;
    var n := |parts| - 1;
    var all := Concat(parts);
    if i == n {
      assert forall j :: 0 <= j < |parts[n]| ==> parts[n][j] == all[|Concat(parts[..n])| + j];
    } else {
      assert forall j :: 0 <= j < |Concat(parts[..n])| ==> Concat(parts[..n])[j] == all[j];
      MembersFit(parts[..n], i);
    }
  }

  lemma {:induction false} ReadsAtPlace(x: Codec, file: Bytes, a: Bytes, rs: seq<Record>, rest: Bytes)
    requires ValidCodec(x) && AllFit(rs) && FitsBlock(x, Images(x.crc, rs)) && HeaderOk(file)
    requires file == a + BlockImage(x, Images(x.crc, rs)) + rest
    ensures ReadBlockAt(x, file, |a|) == Some(rs)
  {
    hide BlockImage, Images, ReadBlockData, ParseRecords, HeaderOk;
    BlockReadsBack(a, x, Images(x.crc, rs), rest);
    ParseImages(x.crc, rs);
  }

  lemma {:induction false} FitsParts(x: Codec, f: Framing, rs: seq<Record>, bloom: Bloom, b: Block, j: nat)
    requires FitsTable(x, f, rs, bloom) && LiesAt(x, rs, b, j)
    ensures AllFit(rs) && FitsBlock(x, Images(x.crc, b.records))
  {
  }

  lemma {:induction false} ReadsChunk(x: Codec, rs: seq<Record>, b: Block, j: nat, rest: Bytes)
    requires ValidCodec(x) && AllFit(b.records) && FitsBlock(x, Images(x.crc, b.records)) && LiesAt(x, rs, b, j)
    requires HeaderOk(DataOf(x, rs) + rest)
    ensures ReadBlockAt(x, DataOf(x, rs) + rest, b.offset) == Some(b.records)
  {
    hide Header, Chunks, BlockRun, Images, BlockImage, ReadBlockAt, ValidCodec, AllFit, FitsBlock, HeaderOk;
    var chunks := Chunks(x, rs);
    RunSplit(x, chunks, j, rest);
    ReadsAtPlace(x, DataOf(x, rs) + rest, Header() + BlockRun(x, chunks[..j]), b.records, BlockRun(x, chunks[j + 1..]) + rest);
  }

  /** Each indexed offset decodes to its own block's records, an unindexed first block or not. */
  lemma {:induction false} BlockReadsAtOffset(m: Medium, x: Codec, f: Framing, rs: seq<Record>, bloom: Bloom, i: nat)
    requires ValidCodec(x) && Counts(m, x) && ValidMedium(m) && Sorted(rs) && FitsTable(x, f, rs, bloom)
    requires i < |FileBlocks(m, rs)|
    ensures var b := FileBlocks(m, rs)[i]; ReadBlockAt(x, FileImage(x, f, rs, bloom), b.offset) == Some(b.records)
  {
    hide FileImage, Pack, FileBlocks, Chunks, BlockRun, Images, FitsBlock, ReadBlockAt, DataOf, LiesAt, FitsTable;
    hide ValidCodec, Counts, ValidMedium, HeaderOk, ValidBlocks, AllFit, Sorted, Gap;
    PackCounts(m, rs);
    BlockPlace(m, x, rs, i);
    FitsParts(x, f, rs, bloom, FileBlocks(m, rs)[i], |Gap(rs)| + i);
    PartsFit(rs, i);
    var rest := DataLeads(m, x, f, rs, bloom);
    ReadsChunk(x, rs, FileBlocks(m, rs)[i], |Gap(rs)| + i, rest);
  }

  ghost predicate Places(es: seq<Entry<nat>>, part: seq<Record>, at: nat, end: nat) {
    Sorted(es) && |es| == |part| && forall i :: 0 <= i < |es| ==> es[i].key == part[i].key && at <= es[i].value <= end
  }

  lemma {:induction false} PlacesExact(part: seq<Record>, at: nat)
    requires Sorted(part)
    ensures Places(RecordPlaces(part, at), part, at, at + PartBytes(part))
  {
    hide Places, Sorted, PartBytes;
    PartBytesGrow(part);
    if part == [] {
      NoPlaces(at, at + PartBytes(part));
    } else {
      var n := |part| - 1;
      SortedInit(part);
      PlacesExact(part[..n], at);
      NextPlace(RecordPlaces(part[..n], at), part, at, at + PartBytes(part[..n]), at + PartBytes(part));
    }
  }

  lemma {:induction false} PartBytesGrow(part: seq<Record>)
    ensures part != [] ==> PartBytes(part[..|part| - 1]) <= PartBytes(part)
  {
  }

  lemma {:induction false} SortedInit(part: seq<Record>)
    requires part != [] && Sorted(part)
    ensures Sorted(part[..|part| - 1])
  {
  }

  lemma {:induction false} NoPlaces(at: nat, end: nat)
    ensures Places(RecordPlaces([], at), [], at, end)
  {
  }

  lemma {:induction false} NextPlace(es: seq<Entry<nat>>, part: seq<Record>, at: nat, end: nat, end': nat)
    requires part != [] && Sorted(part) && at <= end <= end' && Places(es, part[..|part| - 1], at, end)
    ensures Places(Insert(es, part[|part| - 1].key, end), part, at, end')
  {
    var n := |part| - 1;
    hide Less, Insert;
    var e: Entry<nat> := Entry(part[n].key, end);
    SortedAlike(es, e, part);
    InsertAbove(es, e);
    assert forall i :: 0 <= i < n ==> (es + [e])[i] == es[i];
  }

  /** Entries under the keys of a sorted list are sorted. */
  lemma {:induction false} SortedAlike(es: seq<Entry<nat>>, e: Entry<nat>, part: seq<Record>)
    requires |part| == |es| + 1 && Sorted(part) && e.key == part[|es|].key
    requires forall i :: 0 <= i < |es| ==> es[i].key == part[i].key
    ensures Sorted(es + [e])
  {
    hide Less;
  }

  lemma {:induction false} MetaFits(b: Block, limit: nat)
    requires Sorted(b.records) && AllFit(b.records) && b.records != [] && b.startKey == b.records[0].key
    requires |b.records| < WORD32 && PartBytes(b.records) < WORD32 && b.offset < limit && limit + 12 + WORD32 <= WORD64
    ensures FitsMeta(MetaOf(b))
  {
    PlacesExact(b.records, b.offset + BLOCK_HEADER_SIZE);
    assert FitsRecord(b.records[0]);
    hide Header, PartBytes, RecordPlaces, Sorted;
    assert forall i :: 0 <= i < |b.records| ==> FitsRecord(b.records[i]);
  }

  lemma {:induction false} ConcatCounts(parts: seq<seq<Record>>)
    requires NoneEmpty(parts)
    ensures |parts| <= |Concat(parts)| && forall i :: 0 <= i < |parts| ==> |parts[i]| <= |Concat(parts)|
  {
    if parts != [] {
      ConcatCounts(parts[..|parts| - 1]);
    }
  }

  lemma {:induction false} PackCounts(m: Medium, rs: seq<Record>)
    requires ValidMedium(m) && Sorted(rs)
    ensures |FileBlocks(m, rs)| == |Pack(rs)| <= |rs| && ValidBlocks(FileBlocks(m, rs))
    ensures forall i :: 0 <= i < |Pack(rs)| ==> |Pack(rs)[i]| <= |rs|
  {
    PackNoneEmpty(rs);
    PackConcat(rs);
    ConcatCounts(Pack(rs));
    LayoutCount(m, Pack(rs), FirstOffset(m, rs));
    WriteFileExact(m, rs, 1);
  }

  lemma {:induction false} RunLonger(x: Codec, chunks: seq<Bytes>, i: nat)
    requires i <= |chunks|
    ensures |BlockRun(x, chunks[..i])| <= |BlockRun(x, chunks)|
  {
    TakeDrop(chunks, i);
    BlockRunConcat(x, chunks[..i], chunks[i..]);
  }

  lemma {:induction false} ChunkEnds(x: Codec, rs: seq<Record>, b: Block, j: nat)
    requires LiesAt(x, rs, b, j)
    ensures b.offset <= |DataOf(x, rs)|
  {
    RunLonger(x, Chunks(x, rs), j);
  }

  lemma {:induction false} BlockOf(m: Medium, rs: seq<Record>, i: nat)
    requires ValidMedium(m) && Sorted(rs) && i < |FileBlocks(m, rs)|
    ensures var b := FileBlocks(m, rs)[i]; Sorted(b.records) && b.records != [] && b.startKey == b.records[0].key
  {
    PackCounts(m, rs);
    BlockSorted(FileBlocks(m, rs), i);
  }

  /** The index entry of a block fits when the file does. */
  lemma {:induction false} EntryFits(m: Medium, x: Codec, f: Framing, rs: seq<Record>, bloom: Bloom, i: nat)
    requires Counts(m, x) && ValidMedium(m) && Sorted(rs) && FitsTable(x, f, rs, bloom) && i < |FileBlocks(m, rs)|
    requires |rs| < WORD32 && 2 * |DataOf(x, rs)| < WORD64
    ensures FitsMeta(MetaOf(FileBlocks(m, rs)[i]))
  {
    hide Pack, FileBlocks, Chunks, DataOf, Images, FitsMeta, Sorted, Counts, ValidMedium, ValidBlocks, AllFit, Gap, LiesAt, FitsTable;
    var b := FileBlocks(m, rs)[i];
    PackCounts(m, rs);
    BlockOf(m, rs, i);
    BlockPlace(m, x, rs, i);
    ChunkEnds(x, rs, b, |Gap(rs)| + i);
    FitsParts(x, f, rs, bloom, b, |Gap(rs)| + i);
    PartsFit(rs, i);
    ImagesLength(x.crc, b.records);
    MetaFits(b, |DataOf(x, rs)| + 1);
  }

  /** The index of a fitting table fits. */
  lemma {:induction false} IndexFits(m: Medium, x: Codec, f: Framing, rs: seq<Record>, bloom: Bloom)
    requires Counts(m, x) && ValidMedium(m) && Sorted(rs) && FitsTable(x, f, rs, bloom)
    ensures FitsIndex(IndexOf(m, rs))
  {
    PackCounts(m, rs);
    var rest := DataLeads(m, x, f, rs, bloom);
    hide FileImage, Pack, FileBlocks, Chunks, DataOf, FitsMeta, Sorted, Counts, ValidMedium, AllFit, FitsBlock, HeaderOk, ValidBlocks;
    forall i | 0 <= i < |FileBlocks(m, rs)|
      ensures FitsMeta(MetaOf(FileBlocks(m, rs)[i]))
    {
      EntryFits(m, x, f, rs, bloom, i);
    }
  }

  /** A restart gets the nested index and the filter back. */
  lemma {:induction false} IndexAndFilterReadBack(m: Medium, x: Codec, f: Framing, rs: seq<Record>, bloom: Bloom)
    requires ValidFraming(f) && Counts(m, x) && ValidMedium(m) && Sorted(rs) && FitsTable(x, f, rs, bloom)
    requires |bloom.bits| == bloom.exactNumBits
    ensures LoadIndexFromFooter(FileImage(x, f, rs, bloom)) == Some(IndexOf(m, rs))
    ensures LoadBloomFromFooter(f, FileImage(x, f, rs, bloom)) == Some(bloom)
  {
    hide FileImage, DataOf, ReadFooter, Slice, SerializeIndex, DeserializeIndex, FitsIndex, IndexOf, FitsTable, Counts, ValidMedium, Sorted;
    hide SerializeBloom, DeserializeBloom;
    FooterLeads(m, x, f, rs, bloom);
    IndexFits(m, x, f, rs, bloom);
    IndexRoundTrip(IndexOf(m, rs));
    EmptyOffsets(m, rs);
    BloomReadsBack(f, bloom);
  }

  lemma {:induction false} EmptyOffsets(m: Medium, rs: seq<Record>)
    ensures SSTableIndex([], IndexOf(m, rs).blocks) == IndexOf(m, rs)
  {
  }

  lemma {:induction false} BloomReadsBack(f: Framing, bloom: Bloom)
    requires ValidFraming(f) && |bloom.bits| == bloom.exactNumBits
    ensures DeserializeBloom(f, SerializeBloom(f, bloom)) == Some(bloom)
  {
    BloomRoundTrip(bloom);
  }
}
