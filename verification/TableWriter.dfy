/** Writing a table file record by record, and the loops that read it. */
module TableWriters {
  import opened Seqs
  import opened SortedMap
  import opened Records
  import opened Utf8
  import opened Words
  import opened BloomFilters
  import opened TableBuilder
  import opened TableCodec
  import opened TableIndexes
  import opened TableFiles
  import opened TableRoundTrips

  class SSTableWriter {
    const codec: Codec
    const framing: Framing
    const bloom: BloomFilter
    var file: Bytes
    var offsets: seq<Entry<nat>>
    var fileOffset: nat
    var currentOffsets: seq<Entry<nat>>
    var blockSize: nat
    var singleBlock: Bytes
    var blocks: seq<BlockMeta>
    var isNewBlock: bool

    function State(): Writer
      reads this
    {
      Writer(file, fileOffset, currentOffsets, blockSize, singleBlock, blocks, isNewBlock)
    }

    constructor (codec: Codec, framing: Framing, bloom: BloomFilter)
      ensures State() == NewWriter() && offsets == []
      ensures this.codec == codec && this.framing == framing && this.bloom == bloom
    {
      this.codec, this.framing, this.bloom := codec, framing, bloom;
      file, fileOffset := Header(), HEADER_SIZE;
      offsets, currentOffsets, blockSize, singleBlock, blocks, isNewBlock := [], [], 0, [], [], true;
    }

    /** Writes the open block and settles its index entry. */
    method WriteBlock()
      modifies this
      ensures State() == WriteOpenBlock(codec, old(State())) && offsets == old(offsets)
    {
      var image := BlockImage(codec, singleBlock);
      file, fileOffset := file + image, fileOffset + |image|;
      if blocks != [] {
        var n := |blocks| - 1;
        blocks, currentOffsets := blocks[..n] + [blocks[n].(recordOffset := currentOffsets)], [];
      }
      singleBlock, blockSize, isNewBlock := [], 0, true;
    }

    method Append(key: string, value: Value)
      requires |bloom.bits| > 0
      modifies this, bloom
      ensures State() == AppendTo(codec, old(State()), Entry(key, value))
      ensures bloom.bits == SetBits(bloom.hasher, old(bloom.bits), key, bloom.numHashes)
    {
      hide WriteOpenBlock, Insert, SetBits, Image, Holds, FilterOf;
      var record := Image(codec.crc, Entry(key, value));
      if blockSize + |record| > BLOCK_SIZE {
        WriteBlock();
      }
      if isNewBlock {
        blocks, isNewBlock := blocks + [BlockMeta(key, fileOffset, [])], false;
      }
      var place: nat := fileOffset + BLOCK_HEADER_SIZE + |singleBlock|;
      currentOffsets, offsets := Insert(currentOffsets, key, place), Insert(offsets, key, place);
      var _ := bloom.Insert(key);
      singleBlock, blockSize := singleBlock + record, blockSize + |record|;
    }

    /** The last block, the index, the filter and the footer. */
    method Finish() returns (index: SSTableIndex)
      modifies this
      ensures index == FinishedIndex(codec, old(State()), offsets)
      ensures file == Trailer(FinishData(codec, old(State())).file, SerializeIndex(index), SerializeBloom(framing, bloom.Value()))
    {
      hide WriteOpenBlock, SerializeIndex, SerializeBloom, FooterBytes, LE64;
      if singleBlock != [] {
        WriteBlock();
      }
      blocks := SortMetas(blocks);
      index := SSTableIndex(offsets, blocks);
      var indexOffset, serialized := |file|, SerializeIndex(index);
      file := file + serialized;
      var bloomOffset, filter := |file|, SerializeBloom(framing, bloom.Value());
      file := file + filter;
      file := file + FooterBytes(FooterMetadata(indexOffset, |serialized|, bloomOffset, |filter|));
      file := file + LE64(FOOTER_SIZE);
    }
  }

  /** Writing a whole list: the file is the image of the list, the index has its nested blocks. */
  method WriteSSTable(codec: Codec, framing: Framing, m: Medium, rs: seq<Record>) returns (file: Bytes, index: SSTableIndex)
    requires ValidMedium(m)
    ensures file == FileImage(codec, framing, rs, FilterFor(m, |rs|, rs))
    ensures index.blocks == FinishedIndex(codec, AppendAll(codec, rs), []).blocks
  {
    hide AppendTo, SetBits, FinishData, SerializeBloom;
    var n := if |rs| < 1 then 1 else |rs|;
    var bloom := new BloomFilter.WithSize(m.hasher, m.filterBits(n), m.filterHashes(n));
    var writer := new SSTableWriter(codec, framing, bloom);
    for i := 0 to |rs|
      invariant writer.codec == codec && writer.framing == framing && writer.bloom == bloom
      invariant bloom.hasher == m.hasher && bloom.Value() == FilterOf(m.hasher, m.filterBits(n), m.filterHashes(n), Keys(rs)[..i])
      invariant writer.State() == AppendAll(codec, rs[..i])
    {
      TakeNext(rs, i);
      InitOfSnoc(rs[..i], rs[i]);
      TakeNext(Keys(rs), i);
      InitOfSnoc(Keys(rs)[..i], Keys(rs)[i]);
      writer.Append(rs[i].key, rs[i].value);
    }
    TakeAll(rs);
    TakeAll(Keys(rs));
    index := writer.Finish();
    file := writer.file;
  }

  lemma {:induction false} ConsSnoc(a: seq<Record>, r: Record, rest: Option<seq<Record>>)
    ensures Onto(a, TableCodec.Consed(r, rest)) == Onto(a + [r], rest)
  {
    if rest.Some? {
      ConcatAssociates(a, [r], rest.value);
    }
  }

  function Onto(a: seq<Record>, rest: Option<seq<Record>>): Option<seq<Record>> {
    match rest
    case None => None
    case Some(t) => Some(a + t)
  }

  lemma {:induction false} RecordSlices(b: Bytes, i: nat)
    requires i + 13 <= |b|
    ensures b[i..][..4] == b[i..i + 4] && b[i..][4] == b[i + 4] && b[i..][5..9] == b[i + 5..i + 9] && b[i..][9..13] == b[i + 9..i + 13]
  {
  }

  lemma {:induction false} SliceAfter(b: Bytes, i: nat, j: nat, k: nat)
    requires i <= j <= k <= |b|
    ensures b[i..][j - i..k - i] == b[j..k] && b[i..][k - i..] == b[k..]
  {
  }

  /** The loop that parses the records of a block. */
  method ParseBlock(crc: Bytes -> Word, block: Bytes) returns (r: Option<seq<Record>>)
    ensures r == ParseRecords(crc, block)
  {
    hide Word32, Decode, TableCodec.Consed, ValueOf;
    var result: seq<Record> := [];
    var i := 0;
    assert block[0..] == block;
    OntoNothing(ParseRecords(crc, block));
    while i + 13 <= |block|
      invariant i <= |block|
      invariant Onto(result, ParseRecords(crc, block[i..])) == ParseRecords(crc, block)
      decreases |block| - i
    {
      RecordSlices(block, i);
      var storedCrc, recordType := Word32(block[i..i + 4]), block[i + 4];
      var keyLen, valLen := Word32(block[i + 5..i + 9]), Word32(block[i + 9..i + 13]);
      var keyStart := i + 13;
      var keyEnd := keyStart + keyLen;
      OntoSome(result);
      if keyEnd > |block| {
        return Some(result);
      }
      SliceAfter(block, i, keyStart, keyEnd);
      var key := Decode(block[keyStart..keyEnd]);
      if key.None? {
        return None;
      }
      var end := keyEnd + valLen;
      if (recordType != DATA && recordType != DELETED) || end > |block| {
        return Some(result);
      }
      SliceAfter(block, i, keyEnd, end);
      SliceAfter(block, i, i + 4, end);
      var value := ValueOf(recordType, block[keyEnd..end]);
      if value.None? {
        return None;
      }
      ConsSnoc(result, Entry(key.value, value.value), ParseRecords(crc, block[end..]));
      if crc(block[i + 4..end]) == storedCrc {
        result := result + [Entry(key.value, value.value)];
      }
      i := end;
    }
    OntoSome(result);
    return Some(result);
  }

  lemma {:induction false} OntoNothing(x: Option<seq<Record>>)
    ensures Onto([], x) == x
  {
    if x.Some? {
      assert [] + x.value == x.value;
    }
  }

  lemma {:induction false} OntoSome(a: seq<Record>)
    ensures Onto(a, Some([])) == Some(a)
  {
    ConcatNothing(a);
  }

  /** The loop over the blocks of a whole table. */
  method ReadTable(codec: Codec, file: Bytes) returns (r: Option<seq<Record>>)
    ensures r == ReadSSTable(codec, file)
  {
    hide ReadBlockData;
    var footer := ReadFooter(file);
    if footer.None? {
      return None;
    }
    var pos, bytes: Bytes := HEADER_SIZE, [];
    var dataEnd := footer.value.indexOffset;
    while pos < dataEnd
      invariant ReadBlocks(codec, file, pos, dataEnd, bytes) == ReadBlocks(codec, file, HEADER_SIZE, dataEnd, [])
      decreases |file| - pos
    {
      BlockEnds(codec, file, pos);
      match ReadBlockData(codec, file, pos) {
        case Whole(data, next) =>
          bytes, pos := bytes + data, next;
        case Corrupt => return Some([]);
        case Resized => return None;
        case Short => return None;
        case Stops => return None;
      }
    }
    r := ParseBlock(codec.crc, bytes);
  }

  lemma {:induction false} BlockEnds(x: Codec, file: Bytes, pos: nat)
    ensures var b := ReadBlockData(x, file, pos); b.Whole? ==> pos < b.next <= |file|
  {
  }
}
