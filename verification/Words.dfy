/** Machine words as bytes. */
module Words {
  import opened Utf8

  const WORD32: nat := 0x1_0000_0000
  const WORD64: nat := 0x1_0000_0000_0000_0000

  type Word = n: nat | n < WORD32

  function Octet(n: nat): Byte {
    n % 0x100
  }

  /** u32::to_be_bytes after an `as u32` cast. */
  function BE32(n: nat): (b: Bytes)
    ensures |b| == 4
  {
    [Octet(n / 0x100_0000), Octet(n / 0x1_0000), Octet(n / 0x100), Octet(n)]
  }

  /** u32::from_be_bytes */
  function Word32(b: Bytes): Word
    requires |b| == 4
  {
    (b[0] as nat) * 0x100_0000 + (b[1] as nat) * 0x1_0000 + (b[2] as nat) * 0x100 + b[3]
  }

  lemma {:induction false} Word32RoundTrip(n: nat)
    ensures Word32(BE32(n)) == n % WORD32
  {
    var a, b, c := n / 0x100, n / 0x1_0000, n / 0x100_0000;
    assert a / 0x100 == b && b / 0x100 == c && c / 0x100 == n / WORD32;
    assert n == a * 0x100 + n % 0x100 && a == b * 0x100 + a % 0x100;
    assert b == c * 0x100 + b % 0x100 && c == n / WORD32 * 0x100 + c % 0x100;
  }

  /** Every four bytes are the bytes of their word. */
  lemma {:induction false} BytesOfWord32(b: Bytes)
    requires |b| == 4
    ensures BE32(Word32(b)) == b
  {
    var n: nat, w: nat, x: nat, y: nat := Word32(b), b[0], b[1], b[2];
    assert n / 0x100_0000 == w && n / 0x1_0000 == w * 0x100 + x && n / 0x100 == w * 0x1_0000 + x * 0x100 + y;
  }

  /** u64::to_be_bytes */
  function BE64(n: nat): (b: Bytes)
    ensures |b| == 8
  {
    BE32(n / WORD32) + BE32(n)
  }

  function Word64(b: Bytes): nat
    requires |b| == 8
  {
    Word32(b[..4]) * WORD32 + Word32(b[4..])
  }

  lemma {:induction false} Word64RoundTrip(n: nat)
    requires n < WORD64
    ensures Word64(BE64(n)) == n
  {
    hide BE32, Word32;
    Word32RoundTrip(n / WORD32);
    Word32RoundTrip(n);
    assert BE64(n)[..4] == BE32(n / WORD32) && BE64(n)[4..] == BE32(n);
  }

  function Backwards(b: Bytes): (r: Bytes)
    ensures |r| == |b|
  {
    seq(|b|, i requires 0 <= i < |b| => b[|b| - 1 - i])
  }

  /** u64::to_le_bytes */
  function LE64(n: nat): (b: Bytes)
    ensures |b| == 8
  {
    Backwards(BE64(n))
  }

  /** u64::from_le_bytes */
  function WordLE64(b: Bytes): nat
    requires |b| == 8
  {
    Word64(Backwards(b))
  }

  lemma {:induction false} WordLE64RoundTrip(n: nat)
    requires n < WORD64
    ensures WordLE64(LE64(n)) == n
  {
    Word64RoundTrip(n);
    assert Backwards(Backwards(BE64(n))) == BE64(n);
  }

  /** Where the parts of a checksummed, kind-tagged pair of strings lie. */
  lemma {:induction false} FieldSlices(h: Bytes, s: Byte, p: Bytes, q: Bytes, x: Bytes, y: Bytes, rest: Bytes)
    requires |h| == 4 && |p| == 4 && |q| == 4
    ensures var b := h + ([s] + p + q + (x + y)) + rest;
            && b[..4] == h && b[4] == s && b[5..9] == p && b[9..13] == q
            && b[13..13 + |x|] == x && b[13 + |x|..13 + |x| + |y|] == y
            && b[4..13 + |x| + |y|] == [s] + p + q + (x + y)
  {
  }
}
