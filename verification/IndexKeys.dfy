/** Keys of secondary-index entries, and the key ranges that index lookups scan. */
module IndexKeys {
  import opened Seqs
  import opened Order
  import opened Decimal
  import opened Text
  import opened Ast
  import opened Rows

  /** char::MAX */
  const LAST: char := '\U{10FFFF}'

  function EncodeIndexValue(v: RowValue): string {
    match v
    case Integer(i) => Padded(i)
    case Words(s) => s
  }

  function StorageString(v: RowValue): string {
    match v
    case Integer(i) => ToString(i)
    case Words(s) => s
  }

  /** Everything before the value: __index__:table:column: */
  function IndexBase(table: string, column: string): string {
    "__index__:" + (table + ":") + (column + ":")
  }

  function IndexKey(table: string, column: string, value: RowValue, pk: RowValue): string {
    IndexBase(table, column) + (EncodeIndexValue(value) + ":" + StorageString(pk))
  }

  /** A comparison of a column with a literal. */
  datatype IndexLookup = IndexLookup(column: string, operator: BinaryOperator, value: RowValue)

  predicate Indexable(op: BinaryOperator) {
    op.Equal? || op.GreaterThan? || op.GreaterThanOrEqual? || op.LessThan? || op.LessThanOrEqual?
  }

  /** The bounds behind the base: start inclusive, end exclusive. */
  function ValueRange(op: BinaryOperator, encoded: string): (string, string)
    requires Indexable(op)
  {
    var exact := encoded + ":";
    match op
    case Equal => (exact, exact + [LAST])
    case GreaterThan => (exact + [LAST], [LAST])
    case GreaterThanOrEqual => (exact, [LAST])
    case LessThan => ("", exact)
    case LessThanOrEqual => ("", exact + [LAST])
  }

  function BuildIndexRange(table: string, lookup: IndexLookup): (string, string)
    requires Indexable(lookup.operator)
  {
    var base, r := IndexBase(table, lookup.column), ValueRange(lookup.operator, EncodeIndexValue(lookup.value));
    (base + r.0, base + r.1)
  }

  predicate Between(range: (string, string), key: string) {
    !Less(key, range.0) && Less(key, range.1)
  }

  /** What the operator means on integers. */
  predicate Satisfies(op: BinaryOperator, w: int, v: int)
    requires Indexable(op)
  {
    match op
    case Equal => w == v
    case GreaterThan => w > v
    case GreaterThanOrEqual => w >= v
    case LessThan => w < v
    case LessThanOrEqual => w <= v
  }

  /** A primary key that does not begin with the last character. */
  predicate ScannableKey(pk: string) {
    pk == "" || pk[0] < LAST
  }

  lemma {:induction false} BetweenUnderBase(base: string, r: (string, string), k: string)
    ensures Between((base + r.0, base + r.1), base + k) <==> Between(r, k)
  {
    LessUnderPrefix(base, k, r.0);
    LessUnderPrefix(base, k, r.1);
  }

  /** Both bounds and the key compare by the value's encoding when that differs. */
  lemma {:induction false} SmallerValue(op: BinaryOperator, e: string, f: string, pk: string)
    requires Indexable(op) && |e| == |f| && Less(e, f) && e != "" && e[0] < LAST
    ensures Between(ValueRange(op, f), e + ":" + pk) <==> op.LessThan? || op.LessThanOrEqual?
  {
    LessBeforeSuffix(e, f, ":" + pk, ":");
    LessBeforeSuffix(e, f, ":" + pk, ":" + [LAST]);
    assert e + (":" + pk) == e + ":" + pk && f + (":" + [LAST]) == f + ":" + [LAST];
    var k := e + ":" + pk;
    if op.LessThan? || op.LessThanOrEqual? {
      assert !Less(k, "");
    }
  }

  lemma {:induction false} LargerValue(op: BinaryOperator, e: string, f: string, pk: string)
    requires Indexable(op) && |e| == |f| && Less(f, e) && e != "" && e[0] < LAST
    ensures Between(ValueRange(op, f), e + ":" + pk) <==> op.GreaterThan? || op.GreaterThanOrEqual?
  {
    LessBeforeSuffix(f, e, ":", ":" + pk);
    LessBeforeSuffix(f, e, ":" + [LAST], ":" + pk);
    assert e + (":" + pk) == e + ":" + pk && f + (":" + [LAST]) == f + ":" + [LAST];
    var k := e + ":" + pk;
    LessAsymmetric(f + ":", k);
    LessAsymmetric(f + ":" + [LAST], k);
    assert k[0] == e[0];
    assert Less(k, [LAST]);
  }

  /** Which ranges hold the entry of an equal value: those of the operators that admit equality, unless the primary
      key begins with the last character, which puts the entry behind its value. */
  predicate EqualHeld(op: BinaryOperator, pk: string) {
    if ScannableKey(pk) then op.Equal? || op.GreaterThanOrEqual? || op.LessThanOrEqual?
    else op.GreaterThan? || op.GreaterThanOrEqual?
  }

  lemma {:induction false} KeyBelowLast(pk: string)
    ensures Less(pk, [LAST]) <==> ScannableKey(pk)
  {
    if !ScannableKey(pk) {
      assert !Less(pk[1..], "");
    }
  }

  lemma {:induction false} SameValue(op: BinaryOperator, e: string, pk: string)
    requires Indexable(op) && (e == "" || e[0] < LAST)
    ensures Between(ValueRange(op, e), e + ":" + pk) <==> EqualHeld(op, pk)
  {
    var p := e + ":";
    var k := p + pk;
    assert p + "" == p;
    LessUnderPrefix(p, pk, "");
    LessUnderPrefix(p, pk, [LAST]);
    KeyBelowLast(pk);
    assert k[0] == if e == "" then ':' else e[0];
    assert Less(k, [LAST]);
  }

  lemma {:induction false} FirstCharacter(i: int)
    requires IsI64(i)
    ensures Padded(i) != "" && Padded(i)[0] < LAST
  {
    PaddedForm(i);
    if i >= 0 {
      FixedDigits(i, 20);
    }
  }

  lemma {:induction false} FixedDigits(n: nat, w: nat)
    ensures AllDigits(Fixed(n, w))
  {
    if w > 0 {
      FixedDigits(n / 10, w - 1);
    }
  }

  lemma {:induction false} SignedBelow(m: int, n: int)
    requires IsI64(m) && IsI64(n) && m < 0 <= n
    ensures Less(Padded(m), Padded(n))
  {
    PaddedForm(m);
    PaddedForm(n);
    FixedDigits(n, 20);
    assert Padded(m)[0] == '-' && IsDigit(Padded(n)[0]);
  }

  /** The encoding orders integers as numbers, except that negative ones come in reverse. */
  lemma {:induction false} PaddedOrder(m: int, n: int)
    requires IsI64(m) && IsI64(n) && m < n
    ensures if n < 0 then Less(Padded(n), Padded(m)) else Less(Padded(m), Padded(n))
  {
    PowersOfTen();
    PaddedForm(m);
    PaddedForm(n);
    if m >= 0 {
      FixedOrder(m, n, 20);
    } else if n < 0 {
      FixedOrder(-n, -m, 19);
      LessUnderPrefix("-", Fixed(-n, 19), Fixed(-m, 19));
    } else {
      SignedBelow(m, n);
    }
  }

  /** How the encodings of two integers compare decides whether an entry lies in a range. */
  lemma {:induction false} IntegerEntry(table: string, column: string, op: BinaryOperator, v: int, w: int, pk: RowValue)
    requires Indexable(op) && IsI64(v) && IsI64(w)
    ensures var e, f := Padded(w), Padded(v);
            Between(BuildIndexRange(table, IndexLookup(column, op, Integer(v))), IndexKey(table, column, Integer(w), pk)) <==>
            if w == v then EqualHeld(op, StorageString(pk))
            else if Less(e, f) then op.LessThan? || op.LessThanOrEqual?
            else op.GreaterThan? || op.GreaterThanOrEqual?
  {
    var e, f, p := Padded(w), Padded(v), StorageString(pk);
    BetweenUnderBase(IndexBase(table, column), ValueRange(op, f), e + ":" + p);
    FirstCharacter(w);
    PaddedForm(v);
    PaddedForm(w);
    hide Padded, ValueRange, Between, IndexBase;
    if w == v {
      SameValue(op, e, p);
    } else {
      LessTotal(e, f);
      if w < v {
        PaddedOrder(w, v);
      } else {
        PaddedOrder(v, w);
      }
      if Less(e, f) {
        SmallerValue(op, e, f, p);
      } else {
        LessIrreflexive(e);
        LargerValue(op, e, f, p);
      }
    }
  }

  /** For a literal that is not negative the range holds exactly the entries of other values that satisfy the
      comparison, and those of the equal value as their primary keys admit. */
  lemma {:induction false} RangeHolds(table: string, column: string, op: BinaryOperator, v: int, w: int, pk: RowValue)
    requires Indexable(op) && IsI64(v) && v >= 0 && IsI64(w)
    ensures Between(BuildIndexRange(table, IndexLookup(column, op, Integer(v))), IndexKey(table, column, Integer(w), pk))
            <==> if w == v then EqualHeld(op, StorageString(pk)) else Satisfies(op, w, v)
  {
    hide Padded, IndexKey, BuildIndexRange, Between, EqualHeld;
    IntegerEntry(table, column, op, v, w, pk);
    if w < v {
      PaddedOrder(w, v);
    } else if v < w {
      PaddedOrder(v, w);
      LessAsymmetric(Padded(v), Padded(w));
    }
  }

  /** The range holds the entries with this primary key exactly as their values satisfy the comparison. */
  ghost predicate RangeFits(table: string, column: string, op: BinaryOperator, v: int, pk: RowValue)
    requires Indexable(op)
  {
    forall w: int :: IsI64(w) ==>
      (Between(BuildIndexRange(table, IndexLookup(column, op, Integer(v))), IndexKey(table, column, Integer(w), pk)) <==> Satisfies(op, w, v))
  }

  /** For a literal that is not negative it does so, over every 64-bit column value, exactly when the primary key does
      not begin with the last character, or the operator draws its line in front of the literal. */
  lemma {:induction false} RangeExact(table: string, column: string, op: BinaryOperator, v: int, pk: RowValue)
    requires Indexable(op) && IsI64(v) && v >= 0
    ensures RangeFits(table, column, op, v, pk) <==> ScannableKey(StorageString(pk)) || op.GreaterThanOrEqual? || op.LessThan?
  {
    hide IndexKey, BuildIndexRange, Between;
    forall w: int | IsI64(w)
      ensures Between(BuildIndexRange(table, IndexLookup(column, op, Integer(v))), IndexKey(table, column, Integer(w), pk))
              <==> if w == v then EqualHeld(op, StorageString(pk)) else Satisfies(op, w, v)
    {
      RangeHolds(table, column, op, v, w, pk);
    }
  }

  /** No entry that satisfies the comparison lies outside the range. */
  ghost predicate RangeComplete(table: string, column: string, op: BinaryOperator, v: int, pk: RowValue)
    requires Indexable(op)
  {
    forall w: int :: IsI64(w) && Satisfies(op, w, v) ==>
      Between(BuildIndexRange(table, IndexLookup(column, op, Integer(v))), IndexKey(table, column, Integer(w), pk))
  }

  /** When the order of the encodings lets every match through. */
  predicate OrderSurvives(op: BinaryOperator, v: int) {
    v >= 0 || op.Equal?
    || ((op.GreaterThan? || op.GreaterThanOrEqual?) && v == -1)
    || ((op.LessThan? || op.LessThanOrEqual?) && v == I64_MIN)
  }

  /** An entry of an equal value that satisfies the comparison is in the range. */
  predicate EqualSurvives(op: BinaryOperator, pk: string) {
    ScannableKey(pk) || !(op.Equal? || op.LessThanOrEqual?)
  }

  /** Which literals give a complete range: exactly those that are not negative, and the few at the edges; where the
      primary key begins with the last character, none for the two operators that end their range behind an equal value. */
  lemma {:induction false} RangeCompleteExactly(table: string, column: string, op: BinaryOperator, v: int, pk: RowValue)
    requires Indexable(op) && IsI64(v)
    ensures RangeComplete(table, column, op, v, pk) <==> OrderSurvives(op, v) && EqualSurvives(op, StorageString(pk))
  {
    hide Padded, IndexKey, BuildIndexRange, Between;
    if !EqualSurvives(op, StorageString(pk)) {
      IntegerEntry(table, column, op, v, v, pk);
      assert IsI64(v) && Satisfies(op, v, v);
    } else if OrderSurvives(op, v) {
      forall w: int | IsI64(w) && Satisfies(op, w, v)
        ensures Between(BuildIndexRange(table, IndexLookup(column, op, Integer(v))), IndexKey(table, column, Integer(w), pk))
      {
        Survives(table, column, op, v, w, pk);
      }
    } else {
      var w := if op.LessThan? || op.LessThanOrEqual? then v - 1 else v + 1;
      IntegerEntry(table, column, op, v, w, pk);
      if w < v {
        PaddedOrder(w, v);
        LessAsymmetric(Padded(v), Padded(w));
      } else {
        PaddedOrder(v, w);
      }
      assert IsI64(w) && Satisfies(op, w, v);
    }
  }

  lemma {:induction false} Survives(table: string, column: string, op: BinaryOperator, v: int, w: int, pk: RowValue)
    requires Indexable(op) && IsI64(v) && IsI64(w) && EqualSurvives(op, StorageString(pk)) && OrderSurvives(op, v) && Satisfies(op, w, v)
    ensures Between(BuildIndexRange(table, IndexLookup(column, op, Integer(v))), IndexKey(table, column, Integer(w), pk))
  {
    hide Padded, IndexKey, BuildIndexRange, Between;
    IntegerEntry(table, column, op, v, w, pk);
    if w < v {
      PaddedOrder(w, v);
    } else if v < w {
      PaddedOrder(v, w);
      LessAsymmetric(Padded(v), Padded(w));
    }
  }

  /** Equality on text finds the entry of an equal text, whatever that contains, exactly when the primary key does
      not begin with the last character. */
  lemma {:induction false} TextEqualityFound(table: string, column: string, s: string, pk: RowValue)
    ensures Between(BuildIndexRange(table, IndexLookup(column, Equal, Words(s))), IndexKey(table, column, Words(s), pk))
            <==> ScannableKey(StorageString(pk))
  {
    var p, k := s + ":", StorageString(pk);
    BetweenUnderBase(IndexBase(table, column), ValueRange(Equal, s), p + k);
    LessUnderPrefix(p, k, "");
    LessUnderPrefix(p, k, [LAST]);
    assert p + "" == p;
    KeyBelowLast(k);
  }

  /** What the operator means on texts. */
  predicate TextSatisfies(op: BinaryOperator, w: string, s: string)
    requires Indexable(op)
  {
    match op
    case Equal => w == s
    case GreaterThan => Less(s, w)
    case GreaterThanOrEqual => !Less(w, s)
    case LessThan => Less(w, s)
    case LessThanOrEqual => !Less(s, w)
  }

  /** A primary key text that an index entry gives back. */
  predicate GoodKey(pk: string) {
    Free(pk, ':') && ScannableKey(pk)
  }

  predicate TextBetween(table: string, column: string, op: BinaryOperator, s: string, w: string, pk: RowValue)
    requires Indexable(op)
  {
    Between(BuildIndexRange(table, IndexLookup(column, op, Words(s))), IndexKey(table, column, Words(w), pk))
  }

  /** No entry, of any row, whose text satisfies the comparison lies outside the range. */
  ghost predicate TextRangeComplete(table: string, column: string, op: BinaryOperator, s: string)
    requires Indexable(op)
  {
    forall w: string, pk: RowValue :: GoodKey(StorageString(pk)) && TextSatisfies(op, w, s) ==> TextBetween(table, column, op, s, w, pk)
  }

  /** Every character sorts above the separator, or is the separator in front of the last character. */
  predicate AboveSeparator(s: string) {
    forall i :: 0 <= i < |s| ==> HighAt(s, i)
  }

  predicate HighAt(s: string, i: nat)
    requires i < |s|
  {
    s[i] > ':' || (s[i] == ':' && i + 1 < |s| && s[i + 1] == LAST)
  }

  /** The operators and literals for which text ranges let every match through. */
  predicate TextOrderSurvives(op: BinaryOperator, s: string) {
    op.Equal? || ((op.LessThan? || op.LessThanOrEqual?) && AboveSeparator(s))
  }

  lemma {:induction false} TextUnderBase(table: string, column: string, op: BinaryOperator, s: string, w: string, pk: RowValue)
    requires Indexable(op)
    ensures TextBetween(table, column, op, s, w, pk) <==> Between(ValueRange(op, s), w + ":" + StorageString(pk))
  {
    BetweenUnderBase(IndexBase(table, column), ValueRange(op, s), w + ":" + StorageString(pk));
  }

  /** Where two ordered texts part: one ends, or has the smaller character. */
  lemma {:induction false} PartingPlace(w: string, s: string) returns (i: nat)
    requires Less(w, s)
    ensures i <= |w| && i < |s| && w[..i] == s[..i] && (i == |w| || w[i] < s[i])
  {
    if w == "" || w[0] < s[0] {
      i := 0;
    } else {
      var j := PartingPlace(w[1..], s[1..]);
      i := j + 1;
      PrefixOfCons(s, j);
      assert [w[0]] + w[1..][..j] == w[..i];
    }
  }

  lemma {:induction false} SplitAtPlace(w: string, i: nat, rest: string)
    requires i <= |w|
    ensures w + rest == w[..i] + (w[i..] + rest)
  {
  }

  /** A smaller text's entry sorts below the end of the range. */
  lemma {:induction false} SmallerText(s: string, w: string, pk: string, tail: string)
    requires Less(w, s) && AboveSeparator(s) && ScannableKey(pk)
    ensures Less(w + (":" + pk), s + (":" + tail))
  {
    var i := PartingPlace(w, s);
    SplitAtPlace(w, i, ":" + pk);
    SplitAtPlace(s, i, ":" + tail);
    var x, y := w[i..] + (":" + pk), s[i..] + (":" + tail);
    LessUnderPrefix(s[..i], x, y);
    assert y[0] == s[i];
    if i == |w| {
      assert x == ":" + pk;
      assert HighAt(s, i);
      assert i + 1 < |s| ==> s[i..][1] == s[i + 1] && y[1] == s[i..][1];
      assert y != [] && y[0] == s[i];
      SeparatorBelow(pk, y);
    } else {
      assert x[0] == w[i];
    }
  }

  lemma {:induction false} SeparatorBelow(pk: string, y: string)
    requires ScannableKey(pk) && y != [] && (y[0] > ':' || (y[0] == ':' && |y| > 1 && y[1] == LAST))
    ensures Less(":" + pk, y)
  {
    assert (":" + pk)[1..] == pk;
    assert |y| > 1 ==> y[1..][0] == y[1];
  }

  lemma {:induction false} TextSurvives(table: string, column: string, op: BinaryOperator, s: string, w: string, pk: RowValue)
    requires Indexable(op) && TextOrderSurvives(op, s) && TextSatisfies(op, w, s) && ScannableKey(StorageString(pk))
    ensures TextBetween(table, column, op, s, w, pk)
  {
    var k := StorageString(pk);
    if op.Equal? {
      TextEqualityFound(table, column, s, pk);
    } else {
      TextUnderBase(table, column, op, s, w, pk);
      assert w + ":" + k == w + (":" + k) && s + ":" == s + (":" + "") && s + ":" + [LAST] == s + (":" + [LAST]);
      LessTotal(w, s);
      if w == s {
        LessUnderPrefix(s, ":" + k, ":" + [LAST]);
        LessUnderPrefix(":", k, [LAST]);
        LessIrreflexive(s);
      } else {
        SmallerText(s, w, k, if op.LessThan? then "" else [LAST]);
      }
    }
  }

  function Lasts(n: nat): string {
    if n == 0 then "" else [LAST] + Lasts(n - 1)
  }

  lemma {:induction false} LastsAbove(r: string, n: nat)
    requires |r| < n
    ensures Less(r, Lasts(n)) && Free(Lasts(n), ':')
  {
    if r != "" {
      LastsAbove(r[1..], n - 1);
      assert Lasts(n)[1..] == Lasts(n - 1);
    } else if n > 1 {
      LastsAbove("", n - 1);
    }
  }

  /** Above every text that does not begin with the last character lies a good primary key. */
  lemma {:induction false} KeyAbove(r: string) returns (pk: string)
    requires r != "" && r[0] < LAST
    ensures GoodKey(pk) && Less(r, pk)
  {
    if r[0] == ':' {
      pk := ";";
    } else {
      pk := [r[0]] + Lasts(|r|);
      LastsAbove(r[1..], |r|);
      assert pk[1..] == Lasts(|r|);
    }
  }

  /** A range that ends at a literal with a low character misses the text in front of that character. */
  lemma {:induction false} PrefixMissed(op: BinaryOperator, s: string, i: nat) returns (pk: string)
    requires (op.LessThan? || op.LessThanOrEqual?) && i < |s|
    requires !HighAt(s, i)
    ensures GoodKey(pk) && Less(s[..i], s) && !Between(ValueRange(op, s), s[..i] + ":" + pk)
  {
    var p, tail := s[..i], if op.LessThan? then "" else [LAST];
    var rest := s[i..] + (":" + tail);
    SplitAtPlace(s, i, ":" + tail);
    assert ValueRange(op, s).1 == s + (":" + tail);
    SplitAtPlace(s, i, "");
    assert s + "" == s && p + "" == p && s[i..] + "" == s[i..];
    LessUnderPrefix(p, "", s[i..]);
    assert rest[0] == s[i];
    if s[i] < ':' {
      pk := "";
    } else {
      pk := KeyAbove(rest[1..]) by {
        assert rest[1..][0] == if i + 1 < |s| then s[i + 1] else ':';
      }
      LessAsymmetric(rest[1..], pk);
    }
    assert p + ":" + pk == p + (":" + pk) && (":" + pk)[1..] == pk;
    LessUnderPrefix(p, ":" + pk, rest);
  }

  /** A range that starts at a literal misses its extension by a low character. */
  lemma {:induction false} ExtensionMissed(op: BinaryOperator, s: string, pk: string)
    requires op.GreaterThan? || op.GreaterThanOrEqual?
    ensures Less(s, s + "!") && !Between(ValueRange(op, s), s + "!" + ":" + pk)
  {
    assert s + "" == s;
    LessUnderPrefix(s, "", "!");
    var x, y := "!" + (":" + pk), if op.GreaterThan? then ":" + [LAST] else ":";
    LessUnderPrefix(s, x, y);
    assert s + "!" + ":" + pk == s + x && ValueRange(op, s).0 == s + y;
  }

  /** Which operators and literals give a complete text range, for all rows with good primary keys: equality
      always, an upper bound exactly when its characters stay above the separator, a lower bound never. */
  lemma {:induction false} TextRangeCompleteExactly(table: string, column: string, op: BinaryOperator, s: string)
    requires Indexable(op)
    ensures TextRangeComplete(table, column, op, s) <==> TextOrderSurvives(op, s)
  {
    hide TextBetween, ValueRange, Between;
    if TextOrderSurvives(op, s) {
      forall w: string, pk: RowValue | GoodKey(StorageString(pk)) && TextSatisfies(op, w, s)
        ensures TextBetween(table, column, op, s, w, pk)
      {
        TextSurvives(table, column, op, s, w, pk);
      }
    } else if op.LessThan? || op.LessThanOrEqual? {
      var i :| 0 <= i < |s| && !HighAt(s, i);
      var pk := PrefixMissed(op, s, i);
      TextUnderBase(table, column, op, s, s[..i], Words(pk));
      LessAsymmetric(s[..i], s);
      assert StorageString(Words(pk)) == pk && TextSatisfies(op, s[..i], s);
    } else {
      ExtensionMissed(op, s, "");
      TextUnderBase(table, column, op, s, s + "!", Words(""));
      LessAsymmetric(s, s + "!");
      assert GoodKey("") && StorageString(Words("")) == "" && TextSatisfies(op, s + "!", s);
    }
  }

  predicate HasPrefix(k: string, p: string) {
    |p| <= |k| && k[..|p|] == p
  }

  /** What lies at or above a string and below an extension of it begins with that string. */
  lemma {:induction false} PrefixBetween(p: string, x: string, k: string)
    requires !Less(k, p) && Less(k, p + x)
    ensures HasPrefix(k, p)
  {
    if p != [] {
      assert (p + x)[0] == p[0] && (p + x)[1..] == p[1..] + x;
      PrefixBetween(p[1..], x, k[1..]);
      HeadTail(k);
      HeadTail(p);
      PrefixOfCons2(k, p);
    }
  }

  lemma {:induction false} PrefixOfCons2(k: string, p: string)
    requires k != [] && p != [] && k[0] == p[0] && HasPrefix(k[1..], p[1..])
    ensures HasPrefix(k, p)
  {
    assert k[..|p|] == [k[0]] + k[1..][..|p| - 1];
  }

  lemma {:induction false} AboveExtension(p: string, y: string, k: string)
    requires !Less(k, p + y)
    ensures !Less(k, p)
  {
    ConcatNothing(p);
    if Less(k, p) && y != [] {
      LessUnderPrefix(p, [], y);
      LessTransitive(k, p, p + y);
    }
  }

  /** A lookup reads only entries of its table and column. */
  lemma {:induction false} RangeStaysInBase(table: string, lookup: IndexLookup, k: string)
    requires Indexable(lookup.operator) && Between(BuildIndexRange(table, lookup), k)
    ensures HasPrefix(k, IndexBase(table, lookup.column))
  {
    hide IndexBase;
    var base, r := IndexBase(table, lookup.column), ValueRange(lookup.operator, EncodeIndexValue(lookup.value));
    AboveExtension(base, r.0, k);
    PrefixBetween(base, r.1, k);
  }

  /** str::rsplit(sep).next(): what follows the last separator. */
  function LastPiece(s: string, sep: char): string {
    if s == [] || s[|s| - 1] == sep then "" else LastPiece(s[..|s| - 1], sep) + [s[|s| - 1]]
  }

  /** The primary key is read off an entry's key when it holds no separator. */
  lemma {:induction false} LastPieceExact(a: string, pk: string, sep: char)
    requires Free(pk, sep)
    ensures LastPiece(a + [sep] + pk, sep) == pk
  {
    var s := a + [sep] + pk;
    if pk == [] {
      assert s[|s| - 1] == sep;
    } else {
      var n := |pk| - 1;
      assert s[..|s| - 1] == a + [sep] + pk[..n];
      LastPieceExact(a, pk[..n], sep);
      InitLast(pk);
    }
  }

  lemma {:induction false} LastPieceFree(s: string, sep: char)
    ensures Free(LastPiece(s, sep), sep)
  {
    if s != [] && s[|s| - 1] != sep {
      LastPieceFree(s[..|s| - 1], sep);
    }
  }

  /** The primary key is read off an entry's key exactly when it holds no separator. */
  lemma {:induction false} PrimaryKeyOf(table: string, column: string, value: RowValue, pk: RowValue)
    ensures LastPiece(IndexKey(table, column, value, pk), ':') == StorageString(pk) <==> Free(StorageString(pk), ':')
  {
    var p := StorageString(pk);
    var a := IndexBase(table, column) + EncodeIndexValue(value);
    LastPieceFree(IndexKey(table, column, value, pk), ':');
    if Free(p, ':') {
      assert IndexKey(table, column, value, pk) == a + [':'] + p;
      LastPieceExact(a, p, ':');
    }
  }
}
