/** The commands and their bytes in the write-ahead log. */
module Commands {
  import opened Seqs
  import opened Utf8
  import opened Words

  datatype Command =
    | Set(key: string, value: string)
    | Get(key: string)
    | Del(key: string)
    | Exit
    | Invalid
    | Compact
    | Scan(start: string, end: string)

  type Checksum = Bytes -> Word

  /** What deserialize does with some bytes; an index out of range stops the program. */
  datatype Outcome = Parsed(command: Command, used: nat) | Rejected | Panics

  const SET: Byte := 1
  const DEL: Byte := 2

  /** Only writes have a body. */
  function Body(c: Command): Bytes {
    match c
    case Set(key, value) =>
      [SET] + BE32(|Encode(key)|) + BE32(|Encode(value)|) + (Encode(key) + Encode(value))
    case Del(key) => [DEL] + BE32(|Encode(key)|) + Encode(key)
    case _ => []
  }

  function Serialize(crc: Checksum, c: Command): Bytes {
    BE32(crc(Body(c))) + Body(c)
  }

  /** The arm of a Set: thirteen bytes of header are read although only nine were checked for. */
  function DeserializeSet(crc: Checksum, b: Bytes): Outcome
    requires |b| >= 5
  {
    if |b| < 9 then Rejected
    else if |b| < 13 then Panics
    else
      var keyLen, valLen := Word32(b[5..9]), Word32(b[9..13]);
      var total := 13 + keyLen + valLen;
      if |b| < total then Rejected
      else
        match (Decode(b[13..13 + keyLen]), Decode(b[13 + keyLen..total]))
        case (Some(key), Some(value)) =>
          if crc(b[4..total]) != Word32(b[..4]) then Rejected else Parsed(Set(key, value), total)
        case _ => Rejected
  }

  function DeserializeDel(crc: Checksum, b: Bytes): Outcome
    requires |b| >= 5
  {
    if |b| < 9 then Rejected
    else
      var total := 9 + Word32(b[5..9]);
      if |b| < total then Rejected
      else
        match Decode(b[9..total])
        case Some(key) =>
          if crc(b[4..total]) != Word32(b[..4]) then Rejected else Parsed(Del(key), total)
        case None => Rejected
  }

  function Deserialize(crc: Checksum, b: Bytes): Outcome {
    if |b| < 5 then Rejected
    else if b[4] == SET then DeserializeSet(crc, b)
    else if b[4] == DEL then DeserializeDel(crc, b)
    else Rejected
  }

  /** A write whose lengths fit their 32-bit fields. */
  predicate Fits(c: Command) {
    match c
    case Set(key, value) => |Encode(key)| < WORD32 && |Encode(value)| < WORD32
    case Del(key) => |Encode(key)| < WORD32
    case _ => false
  }

  lemma {:induction false} SetLayout(crc: Checksum, key: string, value: string, rest: Bytes)
    ensures var b, k, v := Serialize(crc, Set(key, value)) + rest, Encode(key), Encode(value);
            && |Serialize(crc, Set(key, value))| == 13 + |k| + |v|
            && b[..4] == BE32(crc(Body(Set(key, value)))) && b[4] == SET
            && b[5..9] == BE32(|k|) && b[9..13] == BE32(|v|)
            && b[13..13 + |k|] == k && b[13 + |k|..13 + |k| + |v|] == v
            && b[4..13 + |k| + |v|] == Body(Set(key, value))
  {
    hide Encode;
    var k, v := Encode(key), Encode(value);
    assert Body(Set(key, value)) == [SET] + BE32(|k|) + BE32(|v|) + (k + v);
    FieldSlices(BE32(crc(Body(Set(key, value)))), SET, BE32(|k|), BE32(|v|), k, v, rest);
  }

  lemma {:induction false} DelLayout(crc: Checksum, key: string, rest: Bytes)
    ensures var b, k := Serialize(crc, Del(key)) + rest, Encode(key);
            && |Serialize(crc, Del(key))| == 9 + |k|
            && b[..4] == BE32(crc(Body(Del(key)))) && b[4] == DEL
            && b[5..9] == BE32(|k|) && b[9..9 + |k|] == k
            && b[4..9 + |k|] == Body(Del(key))
  {
    hide Encode;
    var k := Encode(key);
    assert Body(Del(key)) == [DEL] + BE32(|k|) + k;
    DelSlices(BE32(crc(Body(Del(key)))), DEL, BE32(|k|), k, rest);
  }

  lemma {:induction false} DelSlices(h: Bytes, s: Byte, p: Bytes, x: Bytes, rest: Bytes)
    requires |h| == 4 && |p| == 4
    ensures var b := h + ([s] + p + x) + rest;
            && b[..4] == h && b[4] == s && b[5..9] == p && b[9..9 + |x|] == x
            && b[4..9 + |x|] == [s] + p + x
  {
  }

  lemma {:induction false} SetAccepted(crc: Checksum, b: Bytes, key: string, value: string)
    requires var k, v := |Encode(key)|, |Encode(value)|;
             && |b| >= 13 + k + v && k < WORD32 && v < WORD32
             && b[..4] == BE32(crc(b[4..13 + k + v]))
             && b[5..9] == BE32(k) && b[9..13] == BE32(v)
             && b[13..13 + k] == Encode(key) && b[13 + k..13 + k + v] == Encode(value)
    ensures DeserializeSet(crc, b) == Parsed(Set(key, value), 13 + |Encode(key)| + |Encode(value)|)
  {
    hide BE32, Word32, Encode, Decode;
    var k, v := |Encode(key)|, |Encode(value)|;
    Word32RoundTrip(crc(b[4..13 + k + v]));
    Word32RoundTrip(k);
    Word32RoundTrip(v);
    DecodeEncode(key);
    DecodeEncode(value);
  }

  lemma {:induction false} DelAccepted(crc: Checksum, b: Bytes, key: string)
    requires var k := |Encode(key)|;
             && |b| >= 9 + k && k < WORD32
             && b[..4] == BE32(crc(b[4..9 + k])) && b[5..9] == BE32(k) && b[9..9 + k] == Encode(key)
    ensures DeserializeDel(crc, b) == Parsed(Del(key), 9 + |Encode(key)|)
  {
    hide BE32, Word32, Encode, Decode;
    var k := |Encode(key)|;
    Word32RoundTrip(crc(b[4..9 + k]));
    Word32RoundTrip(k);
    DecodeEncode(key);
  }

  /** A serialized write reads back, whatever follows it. */
  lemma {:induction false} ReadsBack(crc: Checksum, c: Command, rest: Bytes)
    requires Fits(c)
    ensures Deserialize(crc, Serialize(crc, c) + rest) == Parsed(c, |Serialize(crc, c)|)
  {
    match c
    case Set(key, value) =>
      SetLayout(crc, key, value, rest);
      hide Serialize, Body, BE32, DeserializeSet;
      SetAccepted(crc, Serialize(crc, c) + rest, key, value);
    case Del(key) =>
      DelLayout(crc, key, rest);
      hide Serialize, Body, BE32, DeserializeDel;
      DelAccepted(crc, Serialize(crc, c) + rest, key);
  }

  lemma {:induction false} SetPieces(b: Bytes, k: nat, v: nat)
    requires |b| >= 13 + k + v
    ensures b[4..13 + k + v] == [b[4]] + b[5..9] + b[9..13] + (b[13..13 + k] + b[13 + k..13 + k + v])
    ensures b[..13 + k + v] == b[..4] + b[4..13 + k + v]
  {
  }

  lemma {:induction false} SetParsed(crc: Checksum, b: Bytes)
    requires |b| >= 5 && b[4] == SET && DeserializeSet(crc, b).Parsed?
    ensures var r := DeserializeSet(crc, b);
            && Fits(r.command) && r.used <= |b| && b[..r.used] == Serialize(crc, r.command)
  {
    hide BE32, Word32, Encode, Decode;
    var r := DeserializeSet(crc, b);
    var n, k, v := r.used, Word32(b[5..9]), Word32(b[9..13]);
    EncodeDecode(b[13..13 + k], r.command.key);
    EncodeDecode(b[13 + k..n], r.command.value);
    BytesOfWord32(b[5..9]);
    BytesOfWord32(b[9..13]);
    BytesOfWord32(b[..4]);
    SetPieces(b, k, v);
  }

  lemma {:induction false} DelParsed(crc: Checksum, b: Bytes)
    requires |b| >= 5 && b[4] == DEL && DeserializeDel(crc, b).Parsed?
    ensures var r := DeserializeDel(crc, b);
            && Fits(r.command) && r.used <= |b| && b[..r.used] == Serialize(crc, r.command)
  {
    hide BE32, Word32, Encode, Decode;
    var r := DeserializeDel(crc, b);
    EncodeDecode(b[9..r.used], r.command.key);
    BytesOfWord32(b[5..9]);
    BytesOfWord32(b[..4]);
    DelPieces(b, r.used);
  }

  lemma {:induction false} DelPieces(b: Bytes, n: nat)
    requires 9 <= n <= |b|
    ensures b[4..n] == [b[4]] + b[5..9] + b[9..n]
    ensures b[..n] == b[..4] + b[4..n]
  {
  }

  /** Bytes are accepted as a command exactly when they begin with its serialization. */
  lemma {:induction false} ParsedExactly(crc: Checksum, b: Bytes, c: Command, n: nat)
    ensures Deserialize(crc, b) == Parsed(c, n) <==> Fits(c) && n <= |b| && b[..n] == Serialize(crc, c)
  {
    hide DeserializeSet, DeserializeDel, Serialize, Fits;
    if Deserialize(crc, b) == Parsed(c, n) {
      if b[4] == SET {
        SetParsed(crc, b);
      } else {
        DelParsed(crc, b);
      }
    }
    if Fits(c) && n <= |b| && b[..n] == Serialize(crc, c) {
      ReadsBack(crc, c, b[n..]);
      TakeDrop(b, n);
    }
  }

  /** It stops the program exactly on the header of a Set cut in its second length. */
  lemma {:induction false} PanicsExactly(crc: Checksum, b: Bytes)
    ensures Deserialize(crc, b).Panics? <==> 9 <= |b| < 13 && b[4] == SET
  {
  }
}
