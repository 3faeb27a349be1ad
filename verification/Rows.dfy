/** Rows and their text form. */
module Rows {
  import opened Seqs
  import opened Order
  import opened SortedMap
  import opened Decimal
  import opened Text

  datatype RowValue = Integer(number: int) | Words(text: string)

  /** A row: its columns with their values, in column order. */
  type Row = seq<Entry<RowValue>>

  function ValueText(v: RowValue): string {
    match v
    case Integer(i) => "i:" + ToString(i)
    case Words(s) => "t:" + s
  }

  function PairText(e: Entry<RowValue>): string {
    e.key + ['='] + ValueText(e.value)
  }

  function Pairs(row: Row): (ps: seq<string>)
    ensures |ps| == |row| && forall i :: 0 <= i < |row| ==> ps[i] == PairText(row[i])
  {
    seq(|row|, i requires 0 <= i < |row| => PairText(row[i]))
  }

  function Serialize(row: Row): string {
    Join(Pairs(row), '|')
  }

  /** str::split_once on one character. */
  function SplitOnce(s: string, c: char): Option<(string, string)> {
    if s == [] then None
    else if s[0] == c then Some(("", s[1..]))
    else
      match SplitOnce(s[1..], c)
      case None => None
      case Some(p) => Some(([s[0]] + p.0, p.1))
  }

  /** A typed value; None where the program stops. */
  function ParseValue(s: string): Option<RowValue> {
    if |s| >= 2 && s[..2] == "i:" then
      match ParseSigned(s[2..])
      case None => None
      case Some(i) => Some(Integer(i))
    else if |s| >= 2 && s[..2] == "t:" then Some(Words(s[2..]))
    else None
  }

  function ParsePair(s: string): Option<Entry<RowValue>> {
    match SplitOnce(s, '=')
    case None => None
    case Some(p) =>
      match ParseValue(p.1)
      case None => None
      case Some(v) => Some(Entry(p.0, v))
  }

  function ParsePairs(parts: seq<string>): Option<Row> {
    if parts == [] then Some([])
    else
      match (ParsePairs(parts[..|parts| - 1]), ParsePair(parts[|parts| - 1]))
      case (Some(row), Some(e)) => Some(Insert(row, e.key, e.value))
      case _ => None
  }

  /** Reading a row back; None where the program stops. */
  function Deserialize(s: string): Option<Row> {
    if s == "" then Some([]) else ParsePairs(SplitOn(s, '|'))
  }

  predicate IsI64(i: int) {
    I64_MIN <= i <= I64_MAX
  }

  predicate CleanValue(v: RowValue) {
    match v
    case Integer(i) => IsI64(i)
    case Words(s) => Free(s, '|')
  }

  predicate CleanEntry(e: Entry<RowValue>) {
    Free(e.key, '|') && Free(e.key, '=') && CleanValue(e.value)
  }

  /** No bar in a name or text, no equals sign in a name, integers of 64 bits. */
  predicate CleanRow(row: Row) {
    forall i :: 0 <= i < |row| ==> CleanEntry(row[i])
  }

  lemma {:induction false} SplitOnceField(a: string, b: string, c: char)
    requires Free(a, c)
    ensures SplitOnce(a + [c] + b, c) == Some((a, b))
  {
    if a == [] {
      assert a + [c] + b == [c] + b;
    } else {
      SplitOnceField(a[1..], b, c);
      assert (a + [c] + b)[1..] == a[1..] + [c] + b;
      HeadTail(a);
    }
  }

  lemma {:induction false} SplitOnceParts(s: string, c: char)
    requires SplitOnce(s, c).Some?
    ensures var p := SplitOnce(s, c).value; Free(p.0, c) && s == p.0 + [c] + p.1
  {
    if s[0] != c {
      SplitOnceParts(s[1..], c);
      HeadTail(s);
    }
  }

  lemma {:induction false} ParseValueText(v: RowValue)
    requires v.Integer? ==> IsI64(v.number)
    ensures ParseValue(ValueText(v)) == Some(v)
  {
    match v
    case Integer(i) =>
      ParseSignedToString(i);
      assert ValueText(v)[2..] == ToString(i);
    case Words(s) =>
      assert ValueText(v)[2..] == s;
  }

  lemma {:induction false} PairReads(e: Entry<RowValue>)
    requires CleanEntry(e)
    ensures ParsePair(PairText(e)) == Some(e)
  {
    SplitOnceField(e.key, ValueText(e.value), '=');
    ParseValueText(e.value);
  }

  lemma {:induction false} ToStringFree(i: int, c: char)
    requires !IsDigit(c) && c != '-'
    ensures Free(ToString(i), c)
  {
    DigitsValue(if i < 0 then -i else i);
  }

  lemma {:induction false} PairFree(e: Entry<RowValue>)
    requires CleanEntry(e)
    ensures Free(PairText(e), '|')
  {
    if e.value.Integer? {
      ToStringFree(e.value.number, '|');
    }
  }

  lemma {:induction false} PairsRead(row: Row)
    requires Sorted(row) && CleanRow(row)
    ensures ParsePairs(Pairs(row)) == Some(row)
  {
    hide CleanEntry, PairText, ParsePair;
    if row != [] {
      var n := |row| - 1;
      PairsRead(row[..n]);
      PairReads(row[n]);
      assert Pairs(row)[..n] == Pairs(row[..n]);
      InitLast(row);
      InsertAbove(row[..n], row[n]);
    }
  }

  lemma {:induction false} JoinedNotEmpty(row: Row)
    requires row != []
    ensures Serialize(row) != ""
  {
    assert Pairs(row)[0] != "";
  }

  /** Rows whose names and texts are free of the separators read back. */
  lemma {:induction false} CleanRowReadsBack(row: Row)
    requires Sorted(row) && CleanRow(row)
    ensures Deserialize(Serialize(row)) == Some(row)
  {
    hide PairText, CleanEntry;
    if row != [] {
      JoinedNotEmpty(row);
      forall i | 0 <= i < |row|
        ensures Free(Pairs(row)[i], '|')
      {
        PairFree(row[i]);
      }
      SplitJoin(Pairs(row), '|');
      PairsRead(row);
    }
  }

  lemma {:induction false} ParsedPairClean(s: string)
    requires Free(s, '|') && ParsePair(s).Some?
    ensures CleanEntry(ParsePair(s).value)
  {
    SplitOnceParts(s, '=');
    var p := SplitOnce(s, '=').value;
    assert s == p.0 + ['='] + p.1;
    assert forall i :: 0 <= i < |p.0| ==> p.0[i] == s[i];
    assert forall i :: 0 <= i < |p.1| ==> p.1[i] == s[|p.0| + 1 + i];
  }

  lemma {:induction false} InsertClean(row: Row, e: Entry<RowValue>)
    requires CleanRow(row) && CleanEntry(e)
    ensures CleanRow(Insert(row, e.key, e.value))
  {
    hide CleanEntry, Less;
    if row != [] {
      InsertClean(row[1..], e);
    }
  }

  lemma {:induction false} ParsedPairsClean(parts: seq<string>)
    requires AllFree(parts, '|') && ParsePairs(parts).Some?
    ensures CleanRow(ParsePairs(parts).value) && Sorted(ParsePairs(parts).value)
  {
    hide CleanEntry, Insert, Less, ParsePair;
    if parts != [] {
      var n := |parts| - 1;
      ParsedPairsClean(parts[..n]);
      ParsedPairClean(parts[n]);
      var row, e := ParsePairs(parts[..n]).value, ParsePair(parts[n]).value;
      InsertClean(row, e);
      InsertUpdates(row, e.key, e.value);
    }
  }

  /** What is read is always a clean row. */
  lemma {:induction false} DeserializedClean(s: string)
    requires Deserialize(s).Some?
    ensures CleanRow(Deserialize(s).value) && Sorted(Deserialize(s).value)
  {
    if s != "" {
      SplitPartsFree(s, '|');
      ParsedPairsClean(SplitOn(s, '|'));
    }
  }

  /** Exactly the clean rows survive their text form. */
  lemma {:induction false} RowRoundTripExactly(row: Row)
    requires Sorted(row)
    ensures Deserialize(Serialize(row)) == Some(row) <==> CleanRow(row)
  {
    if CleanRow(row) {
      CleanRowReadsBack(row);
    }
    if Deserialize(Serialize(row)) == Some(row) {
      DeserializedClean(Serialize(row));
    }
  }

  /** Changes an existing column; an unknown one is an error. */
  function Update(row: Row, column: string, value: RowValue): Option<Row> {
    if Find(row, column).Some? then Some(Insert(row, column, value)) else None
  }

  /** A successful update changes one value and no name. */
  lemma {:induction false} UpdateExact(row: Row, column: string, value: RowValue)
    requires Sorted(row)
    ensures Update(row, column, value).Some? <==> column in Contents(row)
    ensures column in Contents(row) ==>
              var r := Update(row, column, value).value;
              Sorted(r) && Contents(r) == Contents(row)[column := value] && Contents(r).Keys == Contents(row).Keys
  {
    FindIsLookup(row, column);
    InsertUpdates(row, column, value);
  }

  function ColumnMap(columns: seq<string>, values: seq<RowValue>): map<string, RowValue>
    requires |columns| == |values|
  {
    if columns == [] then map[]
    else
      var n := |columns| - 1;
      ColumnMap(columns[..n], values[..n])[columns[n] := values[n]]
  }

  function FromPairs(columns: seq<string>, values: seq<RowValue>): Row
    requires |columns| == |values|
  {
    if columns == [] then []
    else
      var n := |columns| - 1;
      Insert(FromPairs(columns[..n], values[..n]), columns[n], values[n])
  }

  lemma {:induction false} FromPairsExact(columns: seq<string>, values: seq<RowValue>)
    requires |columns| == |values|
    ensures Sorted(FromPairs(columns, values)) && Contents(FromPairs(columns, values)) == ColumnMap(columns, values)
  {
    if columns != [] {
      var n := |columns| - 1;
      FromPairsExact(columns[..n], values[..n]);
      InsertUpdates(FromPairs(columns[..n], values[..n]), columns[n], values[n]);
    }
  }

  /** Pairs the columns with the values; a repeated column keeps its last value. */
  method FromColumns(columns: seq<string>, values: seq<RowValue>) returns (row: Option<Row>)
    ensures row.Some? <==> |columns| == |values|
    ensures row.Some? ==> row.value == FromPairs(columns, values)
    ensures row.Some? ==> Sorted(row.value) && Contents(row.value) == ColumnMap(columns, values)
  {
    if |columns| != |values| {
      return None;
    }
    var r: Row := [];
    for i := 0 to |columns|
      invariant r == FromPairs(columns[..i], values[..i])
    {
      TakeNext(columns, i);
      TakeNext(values, i);
      InitOfSnoc(columns[..i], columns[i]);
      InitOfSnoc(values[..i], values[i]);
      r := Insert(r, columns[i], values[i]);
    }
    TakeAll(columns);
    TakeAll(values);
    FromPairsExact(columns, values);
    return Some(r);
  }

  /** The loop that reads a row. */
  method ReadRow(input: string) returns (row: Option<Row>)
    ensures row == Deserialize(input)
  {
    if input == "" {
      return Some([]);
    }
    var parts := SplitOn(input, '|');
    var r: Row := [];
    for i := 0 to |parts|
      invariant ParsePairs(parts[..i]) == Some(r)
    {
      TakeNext(parts, i);
      InitOfSnoc(parts[..i], parts[i]);
      var e := ParsePair(parts[i]);
      if e.None? {
        FailsForGood(parts, i);
        return None;
      }
      r := Insert(r, e.value.key, e.value.value);
    }
    TakeAll(parts);
    return Some(r);
  }

  lemma {:induction false} FailsForGood(parts: seq<string>, i: nat)
    requires i < |parts| && ParsePair(parts[i]) == None
    ensures ParsePairs(parts) == None
  {
    if i < |parts| - 1 {
      FailsForGood(parts[..|parts| - 1], i);
    }
  }
}
