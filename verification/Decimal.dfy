/** Decimal text: printing, zero padding and parsing of integers. */
module Decimal {
  import opened Order
  import opened SortedMap

  const I64_MIN: int := -0x8000_0000_0000_0000
  const I64_MAX: int := 0x7fff_ffff_ffff_ffff
  const U64_MAX: int := 0xffff_ffff_ffff_ffff

  function Digit(d: nat): char
    requires d < 10
  {
    ('0' as int + d) as char
  }

  predicate IsDigit(c: char) {
    '0' <= c <= '9'
  }

  predicate AllDigits(s: string) {
    forall i :: 0 <= i < |s| ==> IsDigit(s[i])
  }

  function Digits(n: nat): string {
    if n < 10 then [Digit(n)] else Digits(n / 10) + [Digit(n % 10)]
  }

  function ToString(i: int): string {
    if i < 0 then "-" + Digits(-i) else Digits(i)
  }

  function Value(s: string): nat
    requires AllDigits(s)
  {
    if s == [] then 0 else 10 * Value(s[..|s| - 1]) + (s[|s| - 1] as int - '0' as int)
  }

  /** Parsing into an unsigned integer: an optional plus sign, at least one digit, no overflow. */
  function ParseUnsigned(s: string): Option<nat> {
    var t := if |s| > 1 && s[0] == '+' then s[1..] else s;
    if t != [] && AllDigits(t) && Value(t) <= U64_MAX then Some(Value(t)) else None
  }

  /** Parsing into a signed integer: an optional sign, at least one digit, no overflow. */
  function ParseSigned(s: string): Option<int> {
    var t := if |s| > 1 && (s[0] == '+' || s[0] == '-') then s[1..] else s;
    if t == [] || !AllDigits(t) then None
    else
      var v: int := if s[0] == '-' then -(Value(t) as int) else Value(t);
      if I64_MIN <= v <= I64_MAX then Some(v) else None
  }

  lemma {:induction false} DigitsValue(n: nat)
    ensures Digits(n) != [] && AllDigits(Digits(n)) && Value(Digits(n)) == n
  {
    var d := Digits(n);
    if n < 10 {
      assert Value(d[..0]) == 0;
    } else {
      DigitsValue(n / 10);
      assert d[..|d| - 1] == Digits(n / 10);
    }
  }

  /** The digits printed are the only ones of that value without a zero in front. */
  lemma {:induction false} DigitsPlain(s: string)
    requires s != [] && AllDigits(s) && (|s| == 1 || s[0] != '0')
    ensures Digits(Value(s)) == s
  {
    var n := |s| - 1;
    if n > 0 {
      DigitsPlain(s[..n]);
      NotZero(s[..n]);
      assert s == s[..n] + [s[n]];
    } else {
      assert Value(s[..0]) == 0;
      assert s == [s[0]];
    }
  }

  lemma {:induction false} NotZero(s: string)
    requires s != [] && AllDigits(s) && s[0] != '0'
    ensures Value(s) > 0
  {
    if |s| > 1 {
      NotZero(s[..|s| - 1]);
    }
  }

  lemma {:induction false} ParseUnsignedDigits(n: nat)
    requires n <= U64_MAX
    ensures ParseUnsigned(Digits(n)) == Some(n)
  {
    DigitsValue(n);
  }

  /** Printing and parsing a 64-bit integer gives it back. */
  lemma {:induction false} ParseSignedToString(i: int)
    requires I64_MIN <= i <= I64_MAX
    ensures ParseSigned(ToString(i)) == Some(i)
  {
    hide Digits, Value;
    if i < 0 {
      DigitsValue(-i);
      assert ToString(i)[1..] == Digits(-i);
    } else {
      DigitsValue(i);
    }
  }

  lemma {:induction false} DigitsInjective(m: nat, n: nat)
    requires Digits(m) == Digits(n)
    ensures m == n
  {
    DigitsValue(m);
    DigitsValue(n);
  }

  lemma {:induction false} SignShows(i: int)
    ensures ToString(i) != [] && (ToString(i)[0] == '-' <==> i < 0)
  {
    DigitsValue(if i < 0 then -i else i);
    assert i >= 0 ==> IsDigit(Digits(i)[0]);
  }

  lemma {:induction false} ToStringInjective(i: int, j: int)
    requires ToString(i) == ToString(j)
    ensures i == j
  {
    SignShows(i);
    SignShows(j);
    if i < 0 {
      assert ToString(i)[1..] == Digits(-i) && ToString(j)[1..] == Digits(-j);
      DigitsInjective(-i, -j);
    } else {
      DigitsInjective(i, j);
    }
  }

  function Zeros(n: nat): string {
    if n == 0 then [] else ['0'] + Zeros(n - 1)
  }

  /** Printing to a minimal width of 20: the sign first, then zeros, then the digits. */
  function Padded(i: int): string {
    var sign := if i < 0 then "-" else "";
    var digits := Digits(if i < 0 then -i else i);
    sign + Zeros(if |sign| + |digits| < 20 then 20 - |sign| - |digits| else 0) + digits
  }

  function Pow10(w: nat): nat {
    if w == 0 then 1 else 10 * Pow10(w - 1)
  }

  /** The last `w` decimal digits of a number. */
  function Fixed(n: nat, w: nat): (s: string)
    ensures |s| == w
  {
    if w == 0 then [] else Fixed(n / 10, w - 1) + [Digit(n % 10)]
  }

  lemma {:induction false} FixedIsPadded(n: nat, w: nat)
    requires n < Pow10(w) && w > 0
    ensures |Digits(n)| <= w && Fixed(n, w) == Zeros(w - |Digits(n)|) + Digits(n)
  {
    if n < 10 {
      FixedSmall(n, w);
    } else {
      FixedIsPadded(n / 10, w - 1);
    }
  }

  lemma {:induction false} FixedSmall(n: nat, w: nat)
    requires n < 10 && w > 0
    ensures Fixed(n, w) == Zeros(w - 1) + [Digit(n)]
  {
    FixedZero(w - 1);
  }

  lemma {:induction false} FixedZero(w: nat)
    ensures Fixed(0, w) == Zeros(w)
  {
    if w > 0 {
      FixedZero(w - 1);
      ZerosBack(w - 1);
    }
  }

  lemma {:induction false} ZerosBack(w: nat)
    ensures Zeros(w) + ['0'] == ['0'] + Zeros(w)
  {
    if w > 0 {
      ZerosBack(w - 1);
      assert Zeros(w) + ['0'] == ['0'] + (Zeros(w - 1) + ['0']);
    }
  }

  /** Numbers of one width compare as their digit strings do. */
  lemma {:induction false} FixedOrder(m: nat, n: nat, w: nat)
    requires m < n < Pow10(w)
    ensures Less(Fixed(m, w), Fixed(n, w))
  {
    if m / 10 == n / 10 {
      LessUnderPrefix(Fixed(m / 10, w - 1), [Digit(m % 10)], [Digit(n % 10)]);
    } else {
      FixedOrder(m / 10, n / 10, w - 1);
      LessBeforeSuffix(Fixed(m / 10, w - 1), Fixed(n / 10, w - 1), [Digit(m % 10)], [Digit(n % 10)]);
    }
  }

  lemma {:induction false} PowersOfTen()
    ensures Pow10(19) == 10_000_000_000_000_000_000 && Pow10(20) == 100_000_000_000_000_000_000
  {
    assert Pow10(5) == 100_000;
    assert Pow10(10) == 10_000_000_000;
    assert Pow10(15) == 1_000_000_000_000_000;
  }

  /** The padded form of a 64-bit integer is always 20 characters. */
  lemma {:induction false} PaddedForm(i: int)
    requires I64_MIN <= i <= I64_MAX
    ensures Padded(i) == if i < 0 then "-" + Fixed(-i, 19) else Fixed(i, 20)
    ensures |Padded(i)| == 20
  {
    PowersOfTen();
    if i < 0 {
      PaddedParts("-", -i, 19);
    } else {
      PaddedParts("", i, 20);
    }
  }

  lemma {:induction false} PaddedParts(sign: string, n: nat, w: nat)
    requires n < Pow10(w) && w > 0
    ensures |Digits(n)| <= w && sign + Zeros(w - |Digits(n)|) + Digits(n) == sign + Fixed(n, w)
  {
    FixedIsPadded(n, w);
  }
}
