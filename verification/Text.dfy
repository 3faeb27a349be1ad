/** The string operations of the standard library that the text formats rely on. */
module Text {

  /** str::split on one character. */
  function SplitOn(s: string, sep: char): (parts: seq<string>)
    ensures parts != []
  {
    if s == [] then [""]
    else if s[0] == sep then [""] + SplitOn(s[1..], sep)
    else
      var rest := SplitOn(s[1..], sep);
      [[s[0]] + rest[0]] + rest[1..]
  }

  /** slice::join */
  function Join(parts: seq<string>, sep: char): string {
    if parts == [] then ""
    else if |parts| == 1 then parts[0]
    else parts[0] + [sep] + Join(parts[1..], sep)
  }

  predicate Free(s: string, c: char) {
    forall i :: 0 <= i < |s| ==> s[i] != c
  }

  predicate AllFree(parts: seq<string>, c: char) {
    forall i :: 0 <= i < |parts| ==> Free(parts[i], c)
  }

  function Count(s: string, c: char): nat {
    if s == [] then 0 else (if s[0] == c then 1 else 0) + Count(s[1..], c)
  }

  lemma {:induction false} SplitOnCount(s: string, sep: char)
    ensures |SplitOn(s, sep)| == Count(s, sep) + 1
  {
    if s != [] {
      SplitOnCount(s[1..], sep);
    }
  }

  lemma {:induction false} CountConcat(a: string, b: string, c: char)
    ensures Count(a + b, c) == Count(a, c) + Count(b, c)
  {
    if a == [] {
      assert a + b == b;
    } else {
      CountConcat(a[1..], b, c);
      assert (a + b)[1..] == a[1..] + b;
    }
  }

  lemma {:induction false} FreeIsCountZero(s: string, c: char)
    ensures Free(s, c) <==> Count(s, c) == 0
  {
    if s != [] {
      FreeIsCountZero(s[1..], c);
      assert s == [s[0]] + s[1..];
    }
  }

  /** A first field without the separator splits off whole. */
  lemma {:induction false} SplitOnField(a: string, b: string, sep: char)
    requires Free(a, sep)
    ensures SplitOn(a + [sep] + b, sep) == [a] + SplitOn(b, sep)
  {
    if a == [] {
      assert a + [sep] + b == [sep] + b;
    } else {
      SplitOnField(a[1..], b, sep);
      assert (a + [sep] + b)[1..] == a[1..] + [sep] + b;
      assert [a[0]] + a[1..] == a;
    }
  }

  lemma {:induction false} SplitOnFree(a: string, sep: char)
    requires Free(a, sep)
    ensures SplitOn(a, sep) == [a]
  {
    if a != [] {
      SplitOnFree(a[1..], sep);
      assert [a[0]] + a[1..] == a;
    }
  }

  /** Splitting undoes joining when no part holds the separator. */
  lemma {:induction false} SplitJoin(parts: seq<string>, sep: char)
    requires parts != [] && AllFree(parts, sep)
    ensures SplitOn(Join(parts, sep), sep) == parts
  {
    if |parts| == 1 {
      SplitOnFree(parts[0], sep);
    } else {
      SplitOnField(parts[0], Join(parts[1..], sep), sep);
      SplitJoin(parts[1..], sep);
      assert parts == [parts[0]] + parts[1..];
    }
  }

  /** The parts hold no separator ... */
  lemma {:induction false} SplitPartsFree(s: string, sep: char)
    ensures AllFree(SplitOn(s, sep), sep)
  {
    if s != [] {
      SplitPartsFree(s[1..], sep);
    }
  }

  /** ... and no character the text does not hold. */
  lemma {:induction false} SplitKeepsFree(s: string, sep: char, c: char)
    requires Free(s, c)
    ensures AllFree(SplitOn(s, sep), c)
  {
    if s != [] {
      SplitKeepsFree(s[1..], sep, c);
    }
  }

  /** Joining undoes splitting. */
  lemma {:induction false} JoinSplit(s: string, sep: char)
    ensures Join(SplitOn(s, sep), sep) == s
  {
    if s != [] {
      var rest := SplitOn(s[1..], sep);
      JoinSplit(s[1..], sep);
      assert s == [s[0]] + s[1..];
      if s[0] == sep {
        assert ([""] + rest)[1..] == rest;
      } else {
        assert ([[s[0]] + rest[0]] + rest[1..])[1..] == rest[1..];
      }
    }
  }

  /** char::is_whitespace */
  predicate IsWhitespace(c: char) {
    var n := c as int;
    0x09 <= n <= 0x0D || n == 0x20 || n == 0x85 || n == 0xA0 || n == 0x1680 || 0x2000 <= n <= 0x200A
    || n == 0x2028 || n == 0x2029 || n == 0x202F || n == 0x205F || n == 0x3000
  }

  function TrimStart(s: string): string {
    if s != [] && IsWhitespace(s[0]) then TrimStart(s[1..]) else s
  }

  function TrimEnd(s: string): string {
    if s != [] && IsWhitespace(s[|s| - 1]) then TrimEnd(s[..|s| - 1]) else s
  }

  /** str::trim */
  function Trim(s: string): string {
    TrimEnd(TrimStart(s))
  }

  lemma {:induction false} TrimStartFree(s: string, c: char)
    requires Free(s, c)
    ensures Free(TrimStart(s), c)
  {
    if s != [] {
      TrimStartFree(s[1..], c);
    }
  }

  lemma {:induction false} TrimEndFree(s: string, c: char)
    requires Free(s, c)
    ensures Free(TrimEnd(s), c)
    ensures TrimEnd(s) != "" ==> !IsWhitespace(TrimEnd(s)[|TrimEnd(s)| - 1])
  {
    if s != [] {
      TrimEndFree(s[..|s| - 1], c);
    }
  }

  /** Trimming adds no character and leaves no white space at the end. */
  lemma {:induction false} TrimExact(s: string, c: char)
    requires Free(s, c)
    ensures Free(Trim(s), c)
    ensures Trim(s) != "" ==> !IsWhitespace(Trim(s)[|Trim(s)| - 1])
  {
    TrimStartFree(s, c);
    TrimEndFree(TrimStart(s), c);
  }

  /** BufRead::lines: the pieces between newlines, a final empty piece left out, a carriage return cut. */
  function Lines(text: string): seq<string> {
    var parts := SplitOn(text, '\n');
    var whole := if parts[|parts| - 1] == "" then parts[..|parts| - 1] else parts;
    seq(|whole|, i requires 0 <= i < |whole| => CutReturn(whole[i]))
  }

  function CutReturn(s: string): string {
    if s != [] && s[|s| - 1] == '\r' then s[..|s| - 1] else s
  }

  /** Lines hold no newline. */
  lemma {:induction false} LinesFree(text: string)
    ensures AllFree(Lines(text), '\n')
  {
    hide SplitOn;
    SplitPartsFree(text, '\n');
    var parts := SplitOn(text, '\n');
    forall i | 0 <= i < |Lines(text)|
      ensures Free(Lines(text)[i], '\n')
    {
      assert Free(parts[i], '\n') && Lines(text)[i] == CutReturn(parts[i]);
    }
  }

  /** A text whose last line is closed. */
  predicate Closed(text: string) {
    text == "" || text[|text| - 1] == '\n'
  }

  /** The pieces of a closed text end with an empty one ... */
  lemma {:induction false} SplitOnClosed(text: string)
    requires Closed(text)
    ensures var parts := SplitOn(text, '\n'); parts[|parts| - 1] == "" && (text != [] ==> |parts| > 1)
  {
    if text != [] {
      assert text[1..] != [] ==> text[1..][|text[1..]| - 1] == '\n';
      SplitOnClosed(text[1..]);
    }
  }

  /** ... which gives way to what is appended. */
  lemma {:induction false} SplitOnAppend(text: string, more: string)
    requires Closed(text)
    ensures var parts := SplitOn(text, '\n'); SplitOn(text + more, '\n') == parts[..|parts| - 1] + SplitOn(more, '\n')
  {
    if text == [] {
      assert text + more == more;
    } else {
      var rest := text[1..];
      assert rest != [] ==> rest[|rest| - 1] == '\n';
      SplitOnAppend(rest, more);
      SplitOnClosed(rest);
      assert text == [text[0]] + rest && text + more == [text[0]] + (rest + more);
      SplitOnHead(text[0], rest);
      SplitOnHead(text[0], rest + more);
      if text[0] != '\n' {
        FirstPieceStays(text[0], SplitOn(rest, '\n'), SplitOn(more, '\n'));
      }
    }
  }

  lemma {:induction false} FirstPieceStays(c: char, p: seq<string>, q: seq<string>)
    requires |p| > 1
    ensures var r, s := p[..|p| - 1] + q, [[c] + p[0]] + p[1..];
            [[c] + r[0]] + r[1..] == s[..|s| - 1] + q
  {
  }

  lemma {:induction false} SplitOnHead(c: char, s: string)
    ensures SplitOn([c] + s, '\n') ==
            if c == '\n' then [""] + SplitOn(s, '\n') else [[c] + SplitOn(s, '\n')[0]] + SplitOn(s, '\n')[1..]
  {
    assert ([c] + s)[1..] == s;
  }

  /** Appending a line to a closed text adds exactly that line. */
  lemma {:induction false} LinesAppend(text: string, line: string)
    requires Closed(text) && Free(line, '\n')
    ensures Lines(text + line + "\n") == Lines(text) + [CutReturn(line)] && Closed(text + line + "\n")
  {
    SplitOnClosed(text);
    SplitOnAppend(text, line + "\n");
    SplitOnField(line, "", '\n');
    assert line + ['\n'] + "" == line + "\n" && text + (line + "\n") == text + line + "\n";
    var p := SplitOn(text, '\n');
    var q := SplitOn(text + line + "\n", '\n');
    assert q == p[..|p| - 1] + [line, ""];
    assert q[..|q| - 1] == p[..|p| - 1] + [line];
  }
}
