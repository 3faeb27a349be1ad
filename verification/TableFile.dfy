/** A whole table file: what the writer puts there and what the readers get back. */
module TableFiles {
  import opened Seqs
  import opened SortedMap
  import opened Records
  import opened Utf8
  import opened Tables
  import opened TableBuilder
  import opened TableCodec
  import opened TableIndexes

  /** "ARCH" and the format version. */
  function Header(): (b: Bytes)
    ensures |b| == HEADER_SIZE
  {
    [0x41, 0x52, 0x43, 0x48, 0, 0, 0, 1]
  }

  const BLOCK_HEADER_SIZE: nat := 12

  /** Blocks behind each other, each holding one chunk of bytes. */
  function BlockRun(x: Codec, chunks: seq<Bytes>): Bytes {
    if chunks == [] then [] else BlockRun(x, chunks[..|chunks| - 1]) + BlockImage(x, chunks[|chunks| - 1])
  }

  function PartImages(x: Codec, parts: seq<seq<Record>>): (r: seq<Bytes>)
    ensures |r| == |parts| && forall i :: 0 <= i < |parts| ==> r[i] == Images(x.crc, parts[i])
  {
    seq(|parts|, i requires 0 <= i < |parts| => Images(x.crc, parts[i]))
  }

  /** A first record too large for a block is preceded by an empty block. */
  function Gap(rs: seq<Record>): seq<Bytes> {
    if rs != [] && RecordBytes(rs[0]) > BLOCK_SIZE then [[]] else []
  }

  /** Where the records of a block lie: counted in uncompressed bytes behind the block's header. */
  function RecordPlaces(part: seq<Record>, at: nat): seq<Entry<nat>> {
    if part == [] then []
    else
      var init := part[..|part| - 1];
      Insert<nat>(RecordPlaces(init, at), part[|part| - 1].key, at + PartBytes(init))
  }

  function MetaOf(b: Block): BlockMeta {
    BlockMeta(b.startKey, b.offset, RecordPlaces(b.records, b.offset + BLOCK_HEADER_SIZE))
  }

  function MetasOf(bs: seq<Block>): (ms: seq<BlockMeta>)
    ensures |ms| == |bs| && forall i :: 0 <= i < |bs| ==> ms[i] == MetaOf(bs[i])
  {
    seq(|bs|, i requires 0 <= i < |bs| => MetaOf(bs[i]))
  }

  /** The medium counts bytes as this codec produces them. */
  ghost predicate Counts(m: Medium, x: Codec) {
    forall part: seq<Record> :: m.blockBytes(part) == |BlockImage(x, Images(x.crc, part))|
  }

  /** The writer's fields; the flat offsets and the filter are kept beside them. */
  datatype Writer = Writer(
    file: Bytes, fileOffset: nat, currentOffsets: seq<Entry<nat>>,
    blockSize: nat, singleBlock: Bytes, blocks: seq<BlockMeta>, isNewBlock: bool)

  function NewWriter(): Writer {
    Writer(Header(), HEADER_SIZE, [], 0, [], [], true)
  }

  /** The last index entry gets the places collected for it. */
  function SettleLast(w: Writer): Writer {
    if w.blocks == [] then w
    else
      var n := |w.blocks| - 1;
      w.(blocks := w.blocks[..n] + [w.blocks[n].(recordOffset := w.currentOffsets)], currentOffsets := [])
  }

  function WriteOpenBlock(x: Codec, w: Writer): Writer {
    var b := BlockImage(x, w.singleBlock);
    SettleLast(w.(file := w.file + b, fileOffset := w.fileOffset + |b|)).(singleBlock := [], blockSize := 0, isNewBlock := true)
  }

  function AppendTo(x: Codec, w: Writer, r: Record): Writer {
    var image := Image(x.crc, r);
    var w1 := if w.blockSize + |image| > BLOCK_SIZE then WriteOpenBlock(x, w) else w;
    var w2 := if w1.isNewBlock then w1.(blocks := w1.blocks + [BlockMeta(r.key, w1.fileOffset, [])], isNewBlock := false) else w1;
    w2.(currentOffsets := Insert<nat>(w2.currentOffsets, r.key, w2.fileOffset + BLOCK_HEADER_SIZE + |w2.singleBlock|),
        singleBlock := w2.singleBlock + image, blockSize := w2.blockSize + |image|)
  }

  function AppendAll(x: Codec, rs: seq<Record>): Writer {
    if rs == [] then NewWriter() else AppendTo(x, AppendAll(x, rs[..|rs| - 1]), rs[|rs| - 1])
  }

  /** The blocks in file order and the bytes they take, when all records are appended. */
  ghost predicate Progress(m: Medium, x: Codec, rs: seq<Record>, parts: seq<seq<Record>>, w: Writer) {
    NoneEmpty(parts) &&
    if parts == [] then w == NewWriter()
    else
      var n, first := |parts| - 1, FirstOffset(m, rs);
      var at := first + |BlockRun(x, PartImages(x, parts[..n]))|;
      && w.file == Header() + BlockRun(x, Gap(rs)) + BlockRun(x, PartImages(x, parts[..n]))
      && w.fileOffset == |w.file| == at && !w.isNewBlock
      && w.singleBlock == Images(x.crc, parts[n]) && w.blockSize == PartBytes(parts[n])
      && w.currentOffsets == RecordPlaces(parts[n], at + BLOCK_HEADER_SIZE)
      && w.blocks == MetasOf(Layout(m, parts[..n], first)) + [BlockMeta(parts[n][0].key, at, [])]
  }

  lemma {:induction false} BlockRunSnoc(x: Codec, chunks: seq<Bytes>, c: Bytes)
    ensures BlockRun(x, chunks + [c]) == BlockRun(x, chunks) + BlockImage(x, c)
  {
    InitOfSnoc(chunks, c);
  }

  lemma {:induction false} BlockRunConcat(x: Codec, a: seq<Bytes>, b: seq<Bytes>)
    ensures BlockRun(x, a + b) == BlockRun(x, a) + BlockRun(x, b)
  {
    hide BlockImage;
    if b == [] {
      ConcatNothing(a);
      ConcatNothing(BlockRun(x, a));
    } else {
      var n := |b| - 1;
      BlockRunConcat(x, a, b[..n]);
      InitLast(b);
      ConcatAssociates(a, b[..n], [b[n]]);
      BlockRunSnoc(x, a + b[..n], b[n]);
      ConcatAssociates(BlockRun(x, a), BlockRun(x, b[..n]), BlockImage(x, b[n]));
    }
  }

  lemma {:induction false} LayoutOne(m: Medium, x: Codec, p: seq<Record>, offset: nat)
    requires p != []
    ensures Layout(m, [p], offset) == [Block(p[0].key, offset, p)] && BlockRun(x, PartImages(x, [])) == []
  {
    assert [p][1..] == [] && PartImages(x, []) == [];
  }

  lemma {:induction false} LayoutSnoc(m: Medium, x: Codec, parts: seq<seq<Record>>, p: seq<Record>, offset: nat)
    requires Counts(m, x) && NoneEmpty(parts) && p != []
    ensures NoneEmpty(parts + [p])
    ensures Layout(m, parts + [p], offset) ==
            Layout(m, parts, offset) + [Block(p[0].key, offset + |BlockRun(x, PartImages(x, parts))|, p)]
    decreases |parts|
  {
    hide BlockImage, Images, BlockRun, PartImages;
    if parts == [] {
      LayoutOne(m, x, p, offset);
      assert [] + [p] == [p];
    } else {
      var size := m.blockBytes(parts[0]);
      RunFront(x, parts);
      LayoutSnoc(m, x, parts[1..], p, offset + size);
      TailOfSnoc(parts, p);
      hide Counts;
      ConcatAssociates([Block(parts[0][0].key, offset, parts[0])], Layout(m, parts[1..], offset + size),
                       [Block(p[0].key, offset + |BlockRun(x, PartImages(x, parts))|, p)]);
    }
  }

  lemma {:induction false} RunFront(x: Codec, parts: seq<seq<Record>>)
    requires parts != []
    ensures |BlockRun(x, PartImages(x, parts))| ==
            |BlockImage(x, Images(x.crc, parts[0]))| + |BlockRun(x, PartImages(x, parts[1..]))|
  {
    hide BlockImage, Images;
    var first := Images(x.crc, parts[0]);
    assert PartImages(x, parts) == [first] + PartImages(x, parts[1..]);
    BlockRunConcat(x, [first], PartImages(x, parts[1..]));
    BlockRunSnoc(x, [], first);
    assert [] + [first] == [first];
  }

  lemma {:induction false} PartImagesSnoc(x: Codec, parts: seq<seq<Record>>, p: seq<Record>)
    ensures PartImages(x, parts + [p]) == PartImages(x, parts) + [Images(x.crc, p)]
  {
  }

  lemma {:induction false} MetasSnoc(bs: seq<Block>, b: Block)
    ensures MetasOf(bs + [b]) == MetasOf(bs) + [MetaOf(b)]
  {
  }

  /** The record fits the open block. */
  lemma {:induction false} GrowProgress(m: Medium, x: Codec, rs: seq<Record>, parts: seq<seq<Record>>, w: Writer, r: Record)
    requires Progress(m, x, rs, parts, w) && parts != []
    requires w.blockSize + RecordBytes(r) <= BLOCK_SIZE
    ensures var n := |parts| - 1; Progress(m, x, rs, parts[..n] + [parts[n] + [r]], AppendTo(x, w, r))
  {
    hide Image, FirstOffset, Insert, Layout, BlockRun, RecordBytes, PartImages, MetasOf;
    var n := |parts| - 1;
    var p := parts[n];
    InitOfSnoc(p, r);
    InitOfSnoc(parts[..n], p + [r]);
    GrownPart(x, p, r, w.fileOffset + BLOCK_HEADER_SIZE);
    var parts' := parts[..n] + [p + [r]];
    assert |parts'| == |parts| && parts'[n][0] == p[0];
  }

  lemma {:induction false} GrownPart(x: Codec, p: seq<Record>, r: Record, at: nat)
    ensures Images(x.crc, p + [r]) == Images(x.crc, p) + Image(x.crc, r)
    ensures PartBytes(p + [r]) == PartBytes(p) + RecordBytes(r)
    ensures |Images(x.crc, p)| == PartBytes(p)
    ensures RecordPlaces(p + [r], at) == Insert<nat>(RecordPlaces(p, at), r.key, at + PartBytes(p))
  {
    hide Image, RecordBytes, Insert;
    InitOfSnoc(p, r);
    ImagesLength(x.crc, p);
  }

  /** The state with the open block written and its index entry settled. */
  ghost predicate Settled(m: Medium, x: Codec, rs: seq<Record>, parts: seq<seq<Record>>, w: Writer) {
    && NoneEmpty(parts)
    && w.file == Header() + BlockRun(x, Gap(rs)) + BlockRun(x, PartImages(x, parts))
    && w.fileOffset == |w.file| == FirstOffset(m, rs) + |BlockRun(x, PartImages(x, parts))|
    && w.isNewBlock && w.singleBlock == [] && w.blockSize == 0 && w.currentOffsets == []
    && w.blocks == MetasOf(Layout(m, parts, FirstOffset(m, rs)))
  }

  lemma {:induction false} WriteSettles(m: Medium, x: Codec, rs: seq<Record>, parts: seq<seq<Record>>, w: Writer)
    requires Counts(m, x) && Progress(m, x, rs, parts, w) && parts != []
    ensures Settled(m, x, rs, parts, WriteOpenBlock(x, w))
  {
    hide FirstOffset, BlockImage, PartImages, RecordPlaces, MetasOf, Layout, BlockRun, Images, PartBytes;
    var n, first := |parts| - 1, FirstOffset(m, rs);
    var closed, p := parts[..n], parts[n];
    InitLast(parts);
    PartImagesSnoc(x, closed, p);
    BlockRunSnoc(x, PartImages(x, closed), Images(x.crc, p));
    ConcatAssociates(Header() + BlockRun(x, Gap(rs)), BlockRun(x, PartImages(x, closed)), BlockImage(x, Images(x.crc, p)));
    LayoutSnoc(m, x, closed, p, first);
    var b := Block(p[0].key, w.fileOffset, p);
    MetasSnoc(Layout(m, closed, first), b);
    InitOfSnoc(MetasOf(Layout(m, closed, first)), BlockMeta(p[0].key, w.fileOffset, []));
  }

  /** The record opens a block behind settled ones. */
  lemma {:induction false} OpenProgress(m: Medium, x: Codec, rs: seq<Record>, parts: seq<seq<Record>>, w: Writer, r: Record)
    requires Settled(m, x, rs, parts, w)
    ensures var at := w.fileOffset;
            var w' := w.(blocks := w.blocks + [BlockMeta(r.key, at, [])], isNewBlock := false,
                         currentOffsets := Insert<nat>([], r.key, at + BLOCK_HEADER_SIZE), singleBlock := Image(x.crc, r), blockSize := RecordBytes(r));
            Progress(m, x, rs, parts + [[r]], w')
  {
    hide FirstOffset, BlockRun, PartImages, MetasOf, Layout;
    InitOfSnoc(parts, [r]);
    assert [r][..0] == [];
    assert Images(x.crc, [r]) == [] + Image(x.crc, r) == Image(x.crc, r) && PartBytes([r]) == RecordBytes(r);
    assert PartBytes([]) == 0 && RecordPlaces([], w.fileOffset + BLOCK_HEADER_SIZE) == [];
    assert RecordPlaces([r], w.fileOffset + BLOCK_HEADER_SIZE) == Insert<nat>([], r.key, w.fileOffset + BLOCK_HEADER_SIZE);
  }

  /** Nothing but the header, or the header and an empty block. */
  lemma {:induction false} StartSettled(m: Medium, x: Codec, r: Record)
    requires Counts(m, x)
    ensures var w := NewWriter();
            Settled(m, x, [r], [], if RecordBytes(r) > BLOCK_SIZE then WriteOpenBlock(x, w) else w)
  {
    hide BlockImage, Image;
    var none: Bytes := [];
    BlockRunSnoc(x, [], none);
    assert [] + [none] == [none];
    assert Images(x.crc, []) == [];
    assert m.blockBytes([]) == |BlockImage(x, [])|;
    assert PartImages(x, []) == [];
    ConcatNothing(Header() + BlockRun(x, Gap([r])));
    ConcatNothing(Header());
    assert [] + BlockImage(x, []) == BlockImage(x, []);
    assert MetasOf([]) == [];
  }

  lemma {:induction false} AppendOpens(x: Codec, w: Writer, r: Record)
    requires w.isNewBlock && w.singleBlock == [] && w.blockSize == 0 && w.currentOffsets == [] && RecordBytes(r) <= BLOCK_SIZE
    ensures AppendTo(x, w, r) == Opened(x, w, r)
  {
    assert [] + Image(x.crc, r) == Image(x.crc, r);
  }

  function Opened(x: Codec, w: Writer, r: Record): Writer {
    w.(blocks := w.blocks + [BlockMeta(r.key, w.fileOffset, [])], isNewBlock := false,
       currentOffsets := Insert<nat>([], r.key, w.fileOffset + BLOCK_HEADER_SIZE), singleBlock := Image(x.crc, r), blockSize := RecordBytes(r))
  }

  lemma {:induction false} AppendAfterWrite(x: Codec, w: Writer, r: Record)
    requires w.blockSize + RecordBytes(r) > BLOCK_SIZE && (w.blocks == [] ==> w.currentOffsets == [])
    ensures AppendTo(x, w, r) == Opened(x, WriteOpenBlock(x, w), r)
  {
    assert [] + Image(x.crc, r) == Image(x.crc, r);
  }

  lemma {:induction false} SameFirst(m: Medium, x: Codec, a: seq<Record>, b: seq<Record>, parts: seq<seq<Record>>, w: Writer)
    requires a != [] && b != [] && a[0] == b[0] && Progress(m, x, a, parts, w)
    ensures Progress(m, x, b, parts, w)
  {
    hide Layout, BlockRun, PartImages, MetasOf, RecordPlaces, Images, PartBytes, RecordBytes;
    assert FirstOffset(m, a) == FirstOffset(m, b) && Gap(a) == Gap(b);
  }

  lemma {:induction false} PackEmpty(rs: seq<Record>)
    ensures Pack(rs) == [] <==> rs == []
  {
  }

  /** The writer packs the records into blocks as the packing function does. */
  lemma {:induction false} WriterProgress(m: Medium, x: Codec, rs: seq<Record>)
    requires Counts(m, x)
    ensures Progress(m, x, rs, Pack(rs), AppendAll(x, rs))
  {
    if rs != [] {
      var n := |rs| - 1;
      WriterProgress(m, x, rs[..n]);
      PackEmpty(rs[..n]);
      if n == 0 {
        FirstAppended(m, x, rs);
      } else {
        NextAppended(m, x, rs);
      }
    }
  }

  lemma {:induction false} FirstAppended(m: Medium, x: Codec, rs: seq<Record>)
    requires Counts(m, x) && |rs| == 1
    ensures Progress(m, x, rs, Pack(rs), AppendAll(x, rs))
  {
    var r := rs[0];
    assert rs == [r] && rs[..0] == [];
    assert Pack(rs[..0]) == [] && Pack(rs) == [[r]] == [] + [[r]];
    var w := NewWriter();
    assert AppendAll(x, rs) == AppendTo(x, w, r);
    StartSettled(m, x, r);
    hide Progress, Settled, Image, RecordBytes;
    if RecordBytes(r) > BLOCK_SIZE {
      OpenProgress(m, x, rs, [], WriteOpenBlock(x, w), r);
      AppendAfterWrite(x, w, r);
    } else {
      OpenProgress(m, x, rs, [], w, r);
      AppendOpens(x, w, r);
    }
  }

  lemma {:induction false} NextAppended(m: Medium, x: Codec, rs: seq<Record>)
    requires Counts(m, x) && |rs| > 1 && Progress(m, x, rs[..|rs| - 1], Pack(rs[..|rs| - 1]), AppendAll(x, rs[..|rs| - 1]))
    ensures Progress(m, x, rs, Pack(rs), AppendAll(x, rs))
  {
    var n := |rs| - 1;
    var parts, w, r := Pack(rs[..n]), AppendAll(x, rs[..n]), rs[n];
    PackEmpty(rs[..n]);
    hide Settled, RecordBytes, PartBytes, AppendTo, Layout, BlockRun, PartImages, MetasOf, RecordPlaces, Images, FirstOffset;
    SameFirst(m, x, rs[..n], rs, parts, w);
    assert w.blockSize == PartBytes(parts[|parts| - 1]) && w.blocks != [];
    hide Progress;
    if w.blockSize + RecordBytes(r) > BLOCK_SIZE {
      WriteSettles(m, x, rs, parts, w);
      OpenProgress(m, x, rs, parts, WriteOpenBlock(x, w), r);
      AppendAfterWrite(x, w, r);
    } else {
      GrowProgress(m, x, rs, parts, w, r);
    }
  }
}
