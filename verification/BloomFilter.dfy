/** The Bloom filter of a table: no false negatives, before and after its byte form. */
module BloomFilters {

  const WORD: int := 0x1_0000_0000_0000_0000

  /** The two passes of the default hasher over an item; nothing is assumed about them. */
  datatype Hasher = Hasher(first: string -> nat, second: string -> nat) {
    /** The i-th hash: wrapping add and multiply on 64 bits. */
    function At(item: string, i: nat): nat {
      ((first(item) + i) % WORD) * second(item) % WORD
    }
  }

  lemma {:induction false} Multiples(x: int, d: int, k: int)
    ensures (x + WORD * k) % WORD == x % WORD
    ensures x % WORD == (x + d) % WORD <==> d % WORD == 0
  {
  }

  /** Wrapping in between does not matter: a hash is the sum times the second pass, modulo 2^64. */
  lemma {:induction false} HashIsProduct(h: Hasher, item: string, i: nat)
    ensures h.At(item, i) == (h.first(item) + i) * h.second(item) % WORD
  {
    var a, b := h.first(item) + i, h.second(item);
    var q, r := a / WORD, a % WORD;
    assert a * b == r * b + WORD * (q * b) by {
      assert a == WORD * q + r;
    }
    Multiples(r * b, 0, q * b);
  }

  /** Each probe is the one before plus the second pass; two fall on the same hash exactly when the second pass, as often
      as they are apart, is a multiple of 2^64. */
  lemma {:induction false} ProbesAdvance(h: Hasher, item: string, i: nat, j: nat)
    requires i <= j
    ensures h.At(item, j) == (h.At(item, i) + (j - i) * h.second(item)) % WORD
    ensures h.At(item, i) == h.At(item, j) <==> (j - i) * h.second(item) % WORD == 0
  {
    HashIsProduct(h, item, i);
    HashIsProduct(h, item, j);
    var x, d := (h.first(item) + i) * h.second(item), (j - i) * h.second(item);
    assert (h.first(item) + j) * h.second(item) == x + d;
    hide Hasher.At;
    Multiples(x, d, 0);
    ModOfSum(x, d);
  }

  lemma {:induction false} ModOfSum(x: int, d: int)
    ensures (x % WORD + d) % WORD == (x + d) % WORD
  {
  }

  datatype Bloom = Bloom(bits: seq<bool>, numHashes: nat, exactNumBits: nat)

  predicate Probe(h: Hasher, b: Bloom, item: string, i: nat)
    requires |b.bits| > 0
  {
    b.bits[h.At(item, i) % |b.bits|]
  }

  /** The filter answers "maybe present". */
  predicate Holds(h: Hasher, b: Bloom, item: string) {
    |b.bits| > 0 && forall i :: 0 <= i < b.numHashes ==> Probe(h, b, item, i)
  }

  ghost predicate ProbesAt(h: Hasher, item: string, n: nat, size: nat, p: nat)
    requires size > 0
  {
    exists i :: 0 <= i < n && h.At(item, i) % size == p
  }

  /** What inserting an item does to the bits: its positions are set, the others keep their value. */
  ghost predicate InsertedBits(h: Hasher, before: Bloom, item: string, n: nat, after: seq<bool>)
    requires |before.bits| > 0
  {
    && |after| == |before.bits|
    && (forall p :: 0 <= p < |after| ==> (after[p] <==> before.bits[p] || ProbesAt(h, item, n, |after|, p)))
  }

  /** The bits after the first `n` probes of an item are set. */
  function SetBits(h: Hasher, bits: seq<bool>, item: string, n: nat): (r: seq<bool>)
    requires |bits| > 0
    ensures |r| == |bits|
  {
    if n == 0 then bits else SetBits(h, bits, item, n - 1)[h.At(item, n - 1) % |bits| := true]
  }

  function FilterBits(h: Hasher, numBits: nat, numHashes: nat, keys: seq<string>): (r: seq<bool>)
    requires numBits > 0
    ensures |r| == numBits
  {
    if keys == [] then seq(numBits, _ => false)
    else SetBits(h, FilterBits(h, numBits, numHashes, keys[..|keys| - 1]), keys[|keys| - 1], numHashes)
  }

  /** The filter of a list of keys: every key inserted in turn. */
  function FilterOf(h: Hasher, numBits: nat, numHashes: nat, keys: seq<string>): Bloom
    requires numBits > 0
  {
    Bloom(FilterBits(h, numBits, numHashes, keys), numHashes, numBits)
  }

  class BloomFilter {
    const hasher: Hasher
    var bits: seq<bool>
    const numHashes: nat
    const exactNumBits: nat

    function Value(): Bloom
      reads this
    {
      Bloom(bits, numHashes, exactNumBits)
    }

    constructor WithSize(hasher: Hasher, numBits: nat, numHashes: nat)
      ensures this.hasher == hasher
      ensures Value() == Bloom(seq(numBits, _ => false), numHashes, numBits)
    {
      this.hasher := hasher;
      bits := seq(numBits, _ => false);
      this.numHashes, exactNumBits := numHashes, numBits;
    }

    /** Sets the positions of the item; `fresh` tells that one of them was still clear. */
    method Insert(item: string) returns (isNew: bool)
      requires |bits| > 0
      modifies this
      ensures bits == SetBits(hasher, old(bits), item, numHashes)
      ensures isNew == !Holds(hasher, old(Value()), item)
      ensures Holds(hasher, Value(), item)
      ensures forall other :: Holds(hasher, old(Value()), other) ==> Holds(hasher, Value(), other)
    {
      var contained := true;
      ghost var before := Value();
      for i := 0 to numHashes
        invariant bits == SetBits(hasher, before.bits, item, i)
        invariant InsertedBits(hasher, before, item, i, bits)
        invariant contained == forall j :: 0 <= j < i ==> Probe(hasher, before, item, j)
      {
        var idx := hasher.At(item, i) % |bits|;
        ProbedBefore(hasher, before, item, i, bits);
        if !bits[idx] {
          contained := false;
        }
        bits := bits[idx := true];
      }
      isNew := !contained;
      InsertedHolds(hasher, before, item, bits);
    }

    method Contains(item: string) returns (r: bool)
      requires |bits| > 0
      ensures r == Holds(hasher, Value(), item)
    {
      for i := 0 to numHashes
        invariant forall j :: 0 <= j < i ==> Probe(hasher, Value(), item, j)
      {
        if !bits[hasher.At(item, i) % |bits|] {
          assert !Probe(hasher, Value(), item, i);
          return false;
        }
      }
      return true;
    }
  }

  /** One more probe set; it reads as set before only if it was, or if an earlier probe fell there. */
  lemma {:induction false} ProbedBefore(h: Hasher, before: Bloom, item: string, i: nat, bits: seq<bool>)
    requires |before.bits| > 0 && InsertedBits(h, before, item, i, bits)
    ensures InsertedBits(h, before, item, i + 1, bits[h.At(item, i) % |bits| := true])
    ensures !bits[h.At(item, i) % |bits|] ==> !Probe(h, before, item, i)
    ensures bits[h.At(item, i) % |bits|] && !Probe(h, before, item, i) ==>
              exists j :: 0 <= j < i && !Probe(h, before, item, j)
  {
    var size, idx := |bits|, h.At(item, i) % |bits|;
    forall p | 0 <= p < size
      ensures ProbesAt(h, item, i + 1, size, p) <==> ProbesAt(h, item, i, size, p) || p == idx
    {
      if ProbesAt(h, item, i, size, p) {
        var j :| 0 <= j < i && h.At(item, j) % size == p;
      }
    }
    if bits[idx] && !before.bits[idx] {
      var j :| 0 <= j < i && h.At(item, j) % size == idx;
      assert !Probe(h, before, item, j);
    }
  }

  lemma {:induction false} InsertedHolds(h: Hasher, before: Bloom, item: string, bits: seq<bool>)
    requires |before.bits| > 0 && InsertedBits(h, before, item, before.numHashes, bits)
    ensures Holds(h, before.(bits := bits), item)
    ensures forall other :: Holds(h, before, other) ==> Holds(h, before.(bits := bits), other)
  {
    forall i | 0 <= i < before.numHashes
      ensures bits[h.At(item, i) % |bits|]
    {
      assert ProbesAt(h, item, before.numHashes, |bits|, h.At(item, i) % |bits|);
    }
    forall other, i | Holds(h, before, other) && 0 <= i < before.numHashes
      ensures Probe(h, before.(bits := bits), other, i)
    {
      assert Probe(h, before, other, i);
    }
  }

  lemma {:induction false} InsertedBySetBits(h: Hasher, before: Bloom, item: string, n: nat)
    requires |before.bits| > 0
    ensures InsertedBits(h, before, item, n, SetBits(h, before.bits, item, n))
  {
    if n > 0 {
      InsertedBySetBits(h, before, item, n - 1);
      ProbedBefore(h, before, item, n - 1, SetBits(h, before.bits, item, n - 1));
    }
  }

  /** A filter has no false negatives. */
  lemma {:induction false} FilterHoldsItsKeys(h: Hasher, numBits: nat, numHashes: nat, keys: seq<string>)
    requires numBits > 0
    ensures forall k :: k in keys ==> Holds(h, FilterOf(h, numBits, numHashes, keys), k)
  {
    if keys != [] {
      var n := |keys| - 1;
      FilterHoldsItsKeys(h, numBits, numHashes, keys[..n]);
      var before := FilterOf(h, numBits, numHashes, keys[..n]);
      InsertedBySetBits(h, before, keys[n], numHashes);
      InsertedHolds(h, before, keys[n], SetBits(h, before.bits, keys[n], numHashes));
      assert forall k :: k in keys <==> k in keys[..n] || k == keys[n];
    }
  }

  method BuildFilter(hasher: Hasher, numBits: nat, numHashes: nat, keys: seq<string>) returns (b: Bloom)
    requires numBits > 0
    ensures b == FilterOf(hasher, numBits, numHashes, keys)
    ensures forall k :: k in keys ==> Holds(hasher, b, k)
  {
    var filter := new BloomFilter.WithSize(hasher, numBits, numHashes);
    for i := 0 to |keys|
      invariant filter.Value() == FilterOf(hasher, numBits, numHashes, keys[..i]) && filter.hasher == hasher
      invariant forall k :: k in keys[..i] ==> Holds(hasher, filter.Value(), k)
    {
      var _ := filter.Insert(keys[i]);
      assert keys[..i + 1] == keys[..i] + [keys[i]] && keys[..i + 1][..i] == keys[..i];
    }
    assert keys[..|keys|] == keys;
    b := filter.Value();
  }

  /** BitVec::to_bytes: eight bits a byte, the first bit highest, the last byte padded with clear bits. */
  function BitAt(bits: seq<bool>, i: nat): nat {
    if i < |bits| && bits[i] then 1 else 0
  }

  function ByteAt(bits: seq<bool>, i: nat): nat {
    128 * BitAt(bits, i) + 64 * BitAt(bits, i + 1) + 32 * BitAt(bits, i + 2) + 16 * BitAt(bits, i + 3)
    + 8 * BitAt(bits, i + 4) + 4 * BitAt(bits, i + 5) + 2 * BitAt(bits, i + 6) + BitAt(bits, i + 7)
  }

  function ToBytes(bits: seq<bool>): seq<nat> {
    seq((|bits| + 7) / 8, i requires i >= 0 => ByteAt(bits, 8 * i))
  }

  /** BitVec::from_bytes: eight bits a byte, so the length is a multiple of eight. */
  function FromBytes(bytes: seq<nat>): seq<bool> {
    if bytes == [] then [] else EightBits(bytes[0]) + FromBytes(bytes[1..])
  }

  function EightBits(b: nat): seq<bool> {
    [b / 128 % 2 == 1, b / 64 % 2 == 1, b / 32 % 2 == 1, b / 16 % 2 == 1,
     b / 8 % 2 == 1, b / 4 % 2 == 1, b / 2 % 2 == 1, b % 2 == 1]
  }

  /** Reading a serialized filter: the bits are cut back to the stored exact count. */
  function Restore(bytes: seq<nat>, numHashes: nat, exactNumBits: nat): Bloom {
    var bits := FromBytes(bytes);
    Bloom(if |bits| > exactNumBits then bits[..exactNumBits] else bits, numHashes, exactNumBits)
  }

  lemma {:induction false} FromBytesLength(bytes: seq<nat>)
    ensures |FromBytes(bytes)| == 8 * |bytes|
  {
    if bytes != [] {
      FromBytesLength(bytes[1..]);
    }
  }

  /** The binary digits of an octet. */
  lemma {:induction false} OctetDigits(a: nat, b: nat, c: nat, d: nat, e: nat, f: nat, g: nat, h: nat, n: nat)
    requires a < 2 && b < 2 && c < 2 && d < 2 && e < 2 && f < 2 && g < 2 && h < 2
    requires n == 128 * a + 64 * b + 32 * c + 16 * d + 8 * e + 4 * f + 2 * g + h
    ensures EightBits(n) == [a == 1, b == 1, c == 1, d == 1, e == 1, f == 1, g == 1, h == 1]
  {
    assert n / 128 == a && n / 64 == 2 * a + b && n / 32 == 4 * a + 2 * b + c;
    assert n / 16 == 8 * a + 4 * b + 2 * c + d;
    assert n / 8 == 16 * a + 8 * b + 4 * c + 2 * d + e;
    assert n / 4 == 32 * a + 16 * b + 8 * c + 4 * d + 2 * e + f;
    assert n / 2 == 64 * a + 32 * b + 16 * c + 8 * d + 4 * e + 2 * f + g;
  }

  lemma {:induction false} ByteAtBits(bits: seq<bool>)
    ensures forall j :: 0 <= j < 8 ==> EightBits(ByteAt(bits, 0))[j] == (j < |bits| && bits[j])
  {
    OctetDigits(BitAt(bits, 0), BitAt(bits, 1), BitAt(bits, 2), BitAt(bits, 3),
                BitAt(bits, 4), BitAt(bits, 5), BitAt(bits, 6), BitAt(bits, 7), ByteAt(bits, 0));
  }

  lemma {:induction false} ByteAtShift(bits: seq<bool>, n: nat, i: nat)
    requires n <= |bits|
    ensures ByteAt(bits, n + i) == ByteAt(bits[n..], i)
  {
  }

  lemma {:induction false} ToBytesStep(bits: seq<bool>)
    requires bits != []
    ensures ToBytes(bits) == [ByteAt(bits, 0)] + ToBytes(bits[if |bits| < 8 then |bits| else 8..])
  {
    if |bits| > 8 {
      var rest := ToBytes(bits[8..]);
      assert |ToBytes(bits)| == 1 + |rest|;
      forall i | 0 <= i < |rest|
        ensures ToBytes(bits)[i + 1] == rest[i]
      {
        ByteAtShift(bits, 8, 8 * i);
      }
    }
  }

  lemma {:induction false} FromToBytes(bits: seq<bool>)
    ensures |FromBytes(ToBytes(bits))| >= |bits| && FromBytes(ToBytes(bits))[..|bits|] == bits
  {
    if bits != [] {
      var n := if |bits| < 8 then |bits| else 8;
      FromToBytes(bits[n..]);
      ToBytesStep(bits);
      ByteAtBits(bits);
      var bytes, head := ToBytes(bits), EightBits(ByteAt(bits, 0));
      assert FromBytes(bytes) == head + FromBytes(bytes[1..]) && bytes[1..] == ToBytes(bits[n..]);
      assert head[..n] == bits[..n];
      PrefixOfParts(bits, n, head, FromBytes(bytes[1..]));
    }
  }

  lemma {:induction false} PrefixOfParts(bits: seq<bool>, n: nat, head: seq<bool>, rest: seq<bool>)
    requires n <= |bits| && n <= |head| && (n < |bits| ==> n == |head|)
    requires head[..n] == bits[..n] && |rest| >= |bits| - n && rest[..|bits| - n] == bits[n..]
    ensures (head + rest)[..|bits|] == bits
  {
    forall i | 0 <= i < |bits|
      ensures (head + rest)[i] == bits[i]
    {
      if i < n {
        assert head[..n][i] == bits[..n][i];
      } else {
        assert rest[..|bits| - n][i - n] == bits[n..][i - n];
      }
    }
  }

  /** The byte form keeps the filter, so it keeps every answer. */
  lemma {:induction false} BloomRoundTrip(b: Bloom)
    requires |b.bits| == b.exactNumBits
    ensures Restore(ToBytes(b.bits), b.numHashes, b.exactNumBits) == b
  {
    FromToBytes(b.bits);
    FromBytesLength(ToBytes(b.bits));
  }
}
