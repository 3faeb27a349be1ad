/** Records and blocks as bytes in a table file. */
module TableCodec {
  import opened Seqs
  import opened SortedMap
  import opened Records
  import opened Utf8
  import opened Words
  import opened TableBuilder

  /** The checksum and the compressor; of the compressor only that decompressing undoes it is used. */
  datatype Codec = Codec(crc: Bytes -> Word, compress: Bytes -> Bytes, decompress: Bytes -> Option<Bytes>)

  ghost predicate ValidCodec(x: Codec) {
    forall b: Bytes :: x.decompress(x.compress(b)) == Some(b)
  }

  const DATA: Byte := 1
  const DELETED: Byte := 0

  function TagOf(v: Value): Byte {
    if v.Data? then DATA else DELETED
  }

  function ValueBytes(v: Value): Bytes {
    if v.Data? then Encode(v.text) else []
  }

  function Payload(r: Record): Bytes {
    [TagOf(r.value)] + BE32(|Encode(r.key)|) + BE32(|ValueBytes(r.value)|) + (Encode(r.key) + ValueBytes(r.value))
  }

  /** A record on disk: checksum of the payload, then the payload. */
  function Image(crc: Bytes -> Word, r: Record): (b: Bytes)
    ensures |b| == RecordBytes(r)
  {
    BE32(crc(Payload(r))) + Payload(r)
  }

  function Images(crc: Bytes -> Word, rs: seq<Record>): Bytes {
    if rs == [] then [] else Images(crc, rs[..|rs| - 1]) + Image(crc, rs[|rs| - 1])
  }

  /** Key and value fit their 32-bit length fields. */
  predicate FitsRecord(r: Record) {
    |Encode(r.key)| < WORD32 && |ValueBytes(r.value)| < WORD32
  }

  predicate AllFit(rs: seq<Record>) {
    forall i :: 0 <= i < |rs| ==> FitsRecord(rs[i])
  }

  function Consed(r: Record, rs: Option<seq<Record>>): Option<seq<Record>> {
    match rs
    case None => None
    case Some(t) => Some([r] + t)
  }

  /** The record parser: it ends where a record is cut short or of no known kind, skips one that fails its
      checksum, and stops the program (None) at text that is not UTF-8. */
  function ParseRecords(crc: Bytes -> Word, b: Bytes): Option<seq<Record>>
    decreases |b|
  {
    if |b| < 13 then Some([])
    else
      var keyEnd := 13 + Word32(b[5..9]);
      var end := keyEnd + Word32(b[9..13]);
      if keyEnd > |b| then Some([])
      else
        match Decode(b[13..keyEnd])
        case None => None
        case Some(key) =>
          if (b[4] != DATA && b[4] != DELETED) || end > |b| then Some([])
          else
            match ValueOf(b[4], b[keyEnd..end])
            case None => None
            case Some(value) =>
              if crc(b[4..end]) == Word32(b[..4]) then Consed(Entry(key, value), ParseRecords(crc, b[end..]))
              else ParseRecords(crc, b[end..])
  }

  function ValueOf(tag: Byte, b: Bytes): Option<Value> {
    if tag == DELETED then Some(Tombstone)
    else
      match Decode(b)
      case None => None
      case Some(text) => Some(Data(text))
  }

  lemma {:induction false} ImageSlices(crc: Bytes -> Word, r: Record, rest: Bytes)
    ensures var b, k, v := Image(crc, r) + rest, Encode(r.key), ValueBytes(r.value);
            && |Image(crc, r)| == 13 + |k| + |v|
            && b[..4] == BE32(crc(Payload(r))) && b[4] == TagOf(r.value)
            && b[5..9] == BE32(|k|) && b[9..13] == BE32(|v|)
            && b[13..13 + |k|] == k && b[13 + |k|..13 + |k| + |v|] == v
            && b[4..13 + |k| + |v|] == Payload(r) && b[13 + |k| + |v|..] == rest
  {
    hide Encode, ValueBytes;
    var k, v := Encode(r.key), ValueBytes(r.value);
    assert Payload(r) == [TagOf(r.value)] + BE32(|k|) + BE32(|v|) + (k + v);
    FieldSlices(BE32(crc(Payload(r))), TagOf(r.value), BE32(|k|), BE32(|v|), k, v, rest);
    Halves(Image(crc, r), rest);
  }

  lemma {:induction false} ParseOne(crc: Bytes -> Word, b: Bytes, key: string, value: Value)
    requires var k, v := |Encode(key)|, |ValueBytes(value)|;
             && |b| >= 13 + k + v && k < WORD32 && v < WORD32
             && b[..4] == BE32(crc(b[4..13 + k + v])) && b[4] == TagOf(value)
             && b[5..9] == BE32(k) && b[9..13] == BE32(v)
             && b[13..13 + k] == Encode(key) && b[13 + k..13 + k + v] == ValueBytes(value)
    ensures ParseRecords(crc, b) == Consed(Entry(key, value), ParseRecords(crc, b[13 + |Encode(key)| + |ValueBytes(value)|..]))
  {
    hide BE32, Word32, Encode, Decode, Consed;
    var k, v := |Encode(key)|, |ValueBytes(value)|;
    Word32RoundTrip(crc(b[4..13 + k + v]));
    Word32RoundTrip(k);
    Word32RoundTrip(v);
    DecodeEncode(key);
    if value.Data? {
      DecodeEncode(value.text);
    }
    assert ValueOf(TagOf(value), ValueBytes(value)) == Some(value);
  }

  /** A record reads back, whatever follows it. */
  lemma {:induction false} ParseImage(crc: Bytes -> Word, r: Record, rest: Bytes)
    requires FitsRecord(r)
    ensures ParseRecords(crc, Image(crc, r) + rest) == Consed(r, ParseRecords(crc, rest))
  {
    ImageSlices(crc, r, rest);
    hide Image, Payload, BE32, ParseRecords, ValueBytes, TagOf;
    ParseOne(crc, Image(crc, r) + rest, r.key, r.value);
  }

  lemma {:induction false} ImagesFront(crc: Bytes -> Word, rs: seq<Record>)
    requires rs != []
    ensures Images(crc, rs) == Image(crc, rs[0]) + Images(crc, rs[1..])
  {
    hide Image;
    var n := |rs| - 1;
    if n == 0 {
      ConcatNothing(Image(crc, rs[0]));
      assert rs[1..] == [] && rs[..0] == [];
      assert Images(crc, rs[..0]) == [] && [] + Image(crc, rs[0]) == Image(crc, rs[0]);
    } else {
      ImagesFront(crc, rs[..n]);
      assert rs[..n][1..] == rs[1..][..n - 1];
      ConcatAssociates(Image(crc, rs[0]), Images(crc, rs[1..][..n - 1]), Image(crc, rs[n]));
    }
  }

  /** Every list of records that fits reads back. */
  lemma {:induction false} ParseImages(crc: Bytes -> Word, rs: seq<Record>)
    requires AllFit(rs)
    ensures ParseRecords(crc, Images(crc, rs)) == Some(rs)
  {
    hide ParseRecords, Image, FitsRecord;
    if rs == [] {
      NothingRead(crc);
    } else {
      ImagesFront(crc, rs);
      ParseImage(crc, rs[0], Images(crc, rs[1..]));
      ParseImages(crc, rs[1..]);
      HeadTail(rs);
    }
  }

  lemma {:induction false} NothingRead(crc: Bytes -> Word)
    ensures ParseRecords(crc, []) == Some([])
  {
  }

  lemma {:induction false} ImagesLength(crc: Bytes -> Word, rs: seq<Record>)
    ensures |Images(crc, rs)| == PartBytes(rs)
  {
    if rs != [] {
      ImagesLength(crc, rs[..|rs| - 1]);
    }
  }

  lemma {:induction false} ImagesConcat(crc: Bytes -> Word, a: seq<Record>, b: seq<Record>)
    ensures Images(crc, a + b) == Images(crc, a) + Images(crc, b)
  {
    hide Image;
    if b == [] {
      ConcatNothing(a);
      ConcatNothing(Images(crc, a));
    } else {
      var n := |b| - 1;
      ImagesConcat(crc, a, b[..n]);
      ConcatAssociates(a, b[..n], [b[n]]);
      InitLast(b);
      InitOfSnoc(a + b[..n], b[n]);
      ConcatAssociates(Images(crc, a), Images(crc, b[..n]), Image(crc, b[n]));
    }
  }

  /** A block on disk: compressed length, original length, checksum of the compressed bytes, those bytes. */
  function BlockImage(x: Codec, data: Bytes): (b: Bytes)
    ensures |b| == 12 + |x.compress(data)|
  {
    var c := x.compress(data);
    BE32(|c|) + BE32(|data|) + BE32(x.crc(c)) + c
  }

  /** Compressed and original length fit their fields. */
  predicate FitsBlock(x: Codec, data: Bytes) {
    |data| < WORD32 && |x.compress(data)| < WORD32
  }

  /** Reading a block: its bytes, a failed checksum, a wrong original length, a short file, or a stop. */
  datatype BlockRead = Whole(data: Bytes, next: nat) | Corrupt | Resized | Short | Stops

  function ReadBlockData(x: Codec, file: Bytes, offset: nat): BlockRead {
    if offset + 12 > |file| then Short
    else
      var end := offset + 12 + Word32(file[offset..offset + 4]);
      if end > |file| then Short
      else
        var c := file[offset + 12..end];
        if x.crc(c) != Word32(file[offset + 8..offset + 12]) then Corrupt
        else
          match x.decompress(c)
          case None => Stops
          case Some(data) =>
            if |data| != Word32(file[offset + 4..offset + 8]) then Resized else Whole(data, end)
  }

  lemma {:induction false} BlockSlices(a: Bytes, x: Codec, data: Bytes, rest: Bytes)
    ensures var f, n, c := a + BlockImage(x, data) + rest, |a|, x.compress(data);
            && f[n..n + 4] == BE32(|c|) && f[n + 4..n + 8] == BE32(|data|) && f[n + 8..n + 12] == BE32(x.crc(c))
            && n + 12 + |c| <= |f| && f[n + 12..n + 12 + |c|] == c
  {
    hide BE32;
  }

  /** A written block reads back wherever it lies in the file. */
  lemma {:induction false} BlockReadsBack(a: Bytes, x: Codec, data: Bytes, rest: Bytes)
    requires ValidCodec(x) && FitsBlock(x, data)
    ensures ReadBlockData(x, a + BlockImage(x, data) + rest, |a|) == Whole(data, |a| + |BlockImage(x, data)|)
  {
    hide BE32, Word32;
    BlockSlices(a, x, data, rest);
    Word32RoundTrip(|x.compress(data)|);
    Word32RoundTrip(|data|);
    Word32RoundTrip(x.crc(x.compress(data)));
    hide BlockImage;
  }
}
