/** Bytes of text and of machine words. */
module Utf8 {
  import opened Order
  import opened SortedMap

  type Byte = n: nat | n < 256

  type Bytes = seq<Byte>

  predicate IsScalar(n: int) {
    0 <= n < 0xD800 || 0xE000 <= n < 0x11_0000
  }

  function EncodeScalar(n: nat): (b: Bytes)
    requires n < 0x11_0000
    ensures 1 <= |b| <= 4
  {
    if n < 0x80 then [n]
    else if n < 0x800 then [0xC0 + n / 0x40, 0x80 + n % 0x40]
    else if n < 0x1_0000 then [0xE0 + n / 0x1000, 0x80 + n / 0x40 % 0x40, 0x80 + n % 0x40]
    else [0xF0 + n / 0x4_0000, 0x80 + n / 0x1000 % 0x40, 0x80 + n / 0x40 % 0x40, 0x80 + n % 0x40]
  }

  /** str::as_bytes */
  function Encode(s: string): Bytes {
    if s == [] then [] else EncodeScalar(s[0] as int) + Encode(s[1..])
  }

  /** str::len */
  function Length(s: string): nat {
    |Encode(s)|
  }

  function Low6(b: Byte): nat {
    b % 0x40
  }

  /** The number a leading byte and its continuation bytes spell, with the count of bytes used. */
  function Spelled(b: Bytes): (nat, nat)
    requires b != []
  {
    if b[0] < 0xC0 || |b| < 2 then (b[0], 1)
    else if b[0] < 0xE0 || |b| < 3 then ((b[0] - 0xC0) * 0x40 + Low6(b[1]), 2)
    else if b[0] < 0xF0 || |b| < 4 then ((b[0] - 0xE0) * 0x1000 + Low6(b[1]) * 0x40 + Low6(b[2]), 3)
    else ((b[0] - 0xF0) * 0x4_0000 + Low6(b[1]) * 0x1000 + Low6(b[2]) * 0x40 + Low6(b[3]), 4)
  }

  /** The first scalar of a byte string, in its shortest encoding, with the count of bytes used. */
  function FirstScalar(b: Bytes): (r: Option<(nat, nat)>)
    requires b != []
    ensures r.Some? ==> IsScalar(r.value.0) && r.value.1 <= |b| && EncodeScalar(r.value.0) == b[..r.value.1]
  {
    var (n, used) := Spelled(b);
    if IsScalar(n) && used <= |b| && EncodeScalar(n) == b[..used] then Some((n, used)) else None
  }

  /** String::from_utf8: only the shortest encodings of scalar values are accepted. */
  function Decode(b: Bytes): Option<string> {
    if b == [] then Some("")
    else
      match FirstScalar(b)
      case None => None
      case Some((n, used)) => Prepend(n as char, Decode(b[used..]))
  }

  function Prepend(c: char, s: Option<string>): Option<string> {
    if s.Some? then Some([c] + s.value) else None
  }

  /** A number is made of its six-bit digits. */
  lemma {:induction false} SixBits(n: nat)
    ensures n == n / 0x40 * 0x40 + n % 0x40
    ensures n / 0x40 == n / 0x1000 * 0x40 + n / 0x40 % 0x40
    ensures n / 0x1000 == n / 0x4_0000 * 0x40 + n / 0x1000 % 0x40
  {
  }

  lemma {:induction false} Low6Of(x: nat)
    requires x < 0x40
    ensures Low6(0x80 + x) == x
  {
  }

  lemma {:induction false} SpelledScalar(n: nat, rest: Bytes)
    requires n < 0x11_0000
    ensures Spelled(EncodeScalar(n) + rest) == (n, |EncodeScalar(n)|)
  {
    var e := EncodeScalar(n);
    var b := e + rest;
    SixBits(n);
    Low6Of(n % 0x40);
    Low6Of(n / 0x40 % 0x40);
    Low6Of(n / 0x1000 % 0x40);
    assert forall i :: 0 <= i < |e| ==> b[i] == e[i];
  }

  /** Reading back what was written gives the same text. */
  lemma {:induction false} DecodeEncode(s: string)
    ensures Decode(Encode(s)) == Some(s)
  {
    if s != [] {
      var head := EncodeScalar(s[0] as int);
      SpelledScalar(s[0] as int, Encode(s[1..]));
      DecodeEncode(s[1..]);
      assert Encode(s)[..|head|] == head && Encode(s)[|head|..] == Encode(s[1..]);
      assert [s[0]] + s[1..] == s;
    }
  }

  lemma {:induction false} EncodeCons(c: char, rest: string)
    ensures Encode([c] + rest) == EncodeScalar(c as int) + Encode(rest)
  {
    assert ([c] + rest)[1..] == rest;
  }

  lemma {:induction false} DecodeStep(b: Bytes, s: string) returns (n: nat, used: nat, rest: string)
    requires b != [] && Decode(b) == Some(s)
    ensures IsScalar(n) && 0 < used <= |b| && EncodeScalar(n) == b[..used]
    ensures Decode(b[used..]) == Some(rest) && s == [n as char] + rest
  {
    n, used := FirstScalar(b).value.0, FirstScalar(b).value.1;
    rest := Decode(b[used..]).value;
  }

  /** What decodes is the encoding of its text. */
  lemma {:induction false} EncodeDecode(b: Bytes, s: string)
    requires Decode(b) == Some(s)
    ensures Encode(s) == b
    decreases |b|
  {
    if b != [] {
      var n, used, rest := DecodeStep(b, s);
      EncodeDecode(b[used..], rest);
      EncodeCons(n as char, rest);
      assert b == b[..used] + b[used..];
    }
  }

  /** The byte order that str::cmp uses. */
  predicate LessBytes(a: Bytes, b: Bytes) {
    b != [] && (a == [] || a[0] < b[0] || (a[0] == b[0] && LessBytes(a[1..], b[1..])))
  }

  lemma {:induction false} LessBytesUnderPrefix(p: Bytes, a: Bytes, b: Bytes)
    ensures LessBytes(p + a, p + b) <==> LessBytes(a, b)
  {
    if p == [] {
      assert p + a == a && p + b == b;
    } else {
      LessBytesUnderPrefix(p[1..], a, b);
      assert (p + a)[1..] == p[1..] + a && (p + b)[1..] == p[1..] + b;
    }
  }

  lemma {:induction false} LessBytesBeforeSuffix(a: Bytes, b: Bytes, k: nat, x: Bytes, y: Bytes)
    requires k < |a| && k < |b| && a[..k] == b[..k] && a[k] < b[k]
    ensures LessBytes(a + x, b + y) && !LessBytes(b + y, a + x)
  {
    if k > 0 {
      assert a[0] == a[..k][0] && b[0] == b[..k][0];
      assert a[1..][..k - 1] == a[..k][1..] && b[1..][..k - 1] == b[..k][1..];
      LessBytesBeforeSuffix(a[1..], b[1..], k - 1, x, y);
      assert (a + x)[1..] == a[1..] + x && (b + y)[1..] == b[1..] + y;
    }
  }

  /** Of two scalars the smaller one has, at the first byte that differs, the smaller byte. */
  lemma {:induction false} ScalarOrder(m: nat, n: nat) returns (k: nat)
    requires m < n < 0x11_0000
    ensures k < |EncodeScalar(m)| && k < |EncodeScalar(n)|
    ensures EncodeScalar(m)[..k] == EncodeScalar(n)[..k] && EncodeScalar(m)[k] < EncodeScalar(n)[k]
  {
    var a, b := EncodeScalar(m), EncodeScalar(n);
    k := 0;
    if |a| == |b| {
      k := FirstDifference(m, n, |a|);
    }
  }

  /** In base 64 the last digit decides between numbers that agree in front of it. */
  lemma {:induction false} DigitOrder(m: nat, n: nat)
    requires m < n
    ensures m / 0x40 <= n / 0x40 && (m / 0x40 == n / 0x40 ==> m % 0x40 < n % 0x40)
    ensures m / 0x40 / 0x40 == m / 0x1000 && n / 0x40 / 0x40 == n / 0x1000
    ensures m / 0x1000 / 0x40 == m / 0x4_0000 && n / 0x1000 / 0x40 == n / 0x4_0000
  {
  }

  lemma {:induction false} DifferenceOfTwo(m: nat, n: nat) returns (k: nat)
    requires 0x80 <= m < n < 0x800
    ensures k < 2 && EncodeScalar(m)[..k] == EncodeScalar(n)[..k] && EncodeScalar(m)[k] < EncodeScalar(n)[k]
  {
    DigitOrder(m, n);
    k := if m / 0x40 == n / 0x40 then 1 else 0;
  }

  lemma {:induction false} DifferenceOfThree(m: nat, n: nat) returns (k: nat)
    requires 0x800 <= m < n < 0x1_0000
    ensures k < 3 && EncodeScalar(m)[..k] == EncodeScalar(n)[..k] && EncodeScalar(m)[k] < EncodeScalar(n)[k]
  {
    DigitOrder(m, n);
    if m / 0x40 == n / 0x40 {
      k := 2;
    } else {
      DigitOrder(m / 0x40, n / 0x40);
      k := if m / 0x1000 == n / 0x1000 then 1 else 0;
    }
  }

  lemma {:induction false} DifferenceOfFour(m: nat, n: nat) returns (k: nat)
    requires 0x1_0000 <= m < n < 0x11_0000
    ensures k < 4 && EncodeScalar(m)[..k] == EncodeScalar(n)[..k] && EncodeScalar(m)[k] < EncodeScalar(n)[k]
  {
    DigitOrder(m, n);
    if m / 0x40 == n / 0x40 {
      k := 3;
    } else {
      DigitOrder(m / 0x40, n / 0x40);
      if m / 0x1000 == n / 0x1000 {
        k := 2;
      } else {
        DigitOrder(m / 0x1000, n / 0x1000);
        k := if m / 0x4_0000 == n / 0x4_0000 then 1 else 0;
      }
    }
  }

  lemma {:induction false} FirstDifference(m: nat, n: nat, width: nat) returns (k: nat)
    requires m < n < 0x11_0000 && width == |EncodeScalar(m)| == |EncodeScalar(n)|
    ensures k < width
    ensures EncodeScalar(m)[..k] == EncodeScalar(n)[..k] && EncodeScalar(m)[k] < EncodeScalar(n)[k]
  {
    if width == 1 {
      k := 0;
    } else if width == 2 {
      k := DifferenceOfTwo(m, n);
    } else if width == 3 {
      k := DifferenceOfThree(m, n);
    } else {
      k := DifferenceOfFour(m, n);
    }
  }

  /** Comparing strings by their UTF-8 bytes is comparing them by their characters. */
  lemma {:induction false} Utf8OrderIsCharOrder(a: string, b: string)
    ensures LessBytes(Encode(a), Encode(b)) <==> Less(a, b)
  {
    if a != [] && b != [] {
      if a[0] == b[0] {
        Utf8OrderIsCharOrder(a[1..], b[1..]);
        LessBytesUnderPrefix(EncodeScalar(a[0] as int), Encode(a[1..]), Encode(b[1..]));
      } else if a[0] < b[0] {
        var k := ScalarOrder(a[0] as int, b[0] as int);
        LessBytesBeforeSuffix(EncodeScalar(a[0] as int), EncodeScalar(b[0] as int), k, Encode(a[1..]), Encode(b[1..]));
      } else {
        var k := ScalarOrder(b[0] as int, a[0] as int);
        LessBytesBeforeSuffix(EncodeScalar(b[0] as int), EncodeScalar(a[0] as int), k, Encode(b[1..]), Encode(a[1..]));
      }
    }
  }
}
