/** A manifest file cut off in the middle of a line: what still loads, and what the cut does to the next record. */
module ManifestTears {
  import opened SortedMap
  import opened Seqs
  import opened Decimal
  import opened Text
  import opened Manifests

  /** The same record, but perhaps for the file size of an addition. */
  predicate ButForSize(a: ManifestRecord, b: ManifestRecord) {
    a == b || (a.AddTable? && b.AddTable? && a == b.(fileSize := a.fileSize))
  }

  /** What a line cut off may be taken for: the record itself but for its file size, or some removal for a removal. */
  predicate TakenFor(a: ManifestRecord, b: ManifestRecord) {
    ButForSize(a, b) || (a.RemoveTable? && b.RemoveTable?)
  }

  function Listed(x: Option<ManifestRecord>): seq<ManifestRecord> {
    match x
    case None => []
    case Some(r) => [r]
  }

  lemma {:induction false} TrimEndPrefix(s: string) returns (m: nat)
    requires s != "" && !IsWhitespace(s[0])
    ensures 1 <= m <= |s| && TrimEnd(s) == s[..m]
  {
    if IsWhitespace(s[|s| - 1]) {
      m := TrimEndPrefix(s[..|s| - 1]);
      assert s[..|s| - 1][..m] == s[..m];
    } else {
      m := |s|;
    }
  }

  /** A line that does not begin with white space is read without some of its end, if anything. */
  lemma {:induction false} ReadPrefix(s: string) returns (m: nat)
    requires s != "" && !IsWhitespace(s[0])
    ensures 1 <= m <= |s| && Trim(CutReturn(s)) == s[..m]
  {
    var t := CutReturn(s);
    assert t != "" && t[0] == s[0] by {
      assert IsWhitespace('\r');
    }
    m := TrimEndPrefix(t);
    assert t[..m] == s[..m];
  }

  lemma {:induction false} CutInFirst(a: string, rest: string, m: nat)
    ensures m <= |a| ==> (a + rest)[..m] == a[..m]
    ensures |a| < m <= |a + rest| ==> (a + rest)[..m] == a + rest[..m - |a|]
  {
  }

  lemma {:induction false} JoinHead(fs: seq<string>, sep: char)
    requires |fs| > 1
    ensures Join(fs, sep) == fs[0] + ([sep] + Join(fs[1..], sep))
  {
    ConcatAssociates(fs[0], [sep], Join(fs[1..], sep));
  }

  /** Whole parts of a list, and a prefix of the next one. */
  ghost predicate CutParts(parts: seq<string>, fs: seq<string>) {
    && 0 < |parts| <= |fs| && (forall i :: 0 <= i < |parts| - 1 ==> parts[i] == fs[i])
    && parts[|parts| - 1] <= fs[|parts| - 1]
  }

  lemma {:induction false} CutFirst(fs: seq<string>, m: nat)
    requires fs != [] && m <= |fs[0]|
    ensures CutParts([fs[0][..m]], fs)
  {
  }

  /** The parts of a cut join are cut parts. */
  lemma {:induction false} PrefixSplit(fs: seq<string>, sep: char, m: nat)
    requires fs != [] && AllFree(fs, sep) && m <= |Join(fs, sep)|
    ensures CutParts(SplitOn(Join(fs, sep)[..m], sep), fs)
    decreases |fs|, 1
  {
    hide SplitOn, CutParts;
    if |fs| == 1 {
      SplitOnFree(fs[0][..m], sep);
      CutFirst(fs, m);
    } else {
      var rest := Join(fs[1..], sep);
      JoinHead(fs, sep);
      hide Join;
      CutInFirst(fs[0], [sep] + rest, m);
      if m <= |fs[0]| {
        SplitOnFree(fs[0][..m], sep);
        CutFirst(fs, m);
      } else {
        LaterSplit(fs, sep, m - |fs[0]| - 1);
      }
    }
  }

  lemma {:induction false} LaterSplit(fs: seq<string>, sep: char, k: nat)
    requires |fs| > 1 && AllFree(fs, sep) && k <= |Join(fs[1..], sep)|
    ensures CutParts(SplitOn(fs[0] + ([sep] + Join(fs[1..], sep))[..k + 1], sep), fs)
    decreases |fs|, 0
  {
    hide Join, SplitOn, CutParts;
    var rest := Join(fs[1..], sep);
    PrefixSplit(fs[1..], sep, k);
    FirstWhole(fs[0], rest, k, sep);
    FirstInFront(fs, SplitOn(rest[..k], sep));
  }

  lemma {:induction false} FirstWhole(a: string, rest: string, k: nat, sep: char)
    requires Free(a, sep) && k <= |rest|
    ensures SplitOn(a + ([sep] + rest)[..k + 1], sep) == [a] + SplitOn(rest[..k], sep)
  {
    hide SplitOn;
    assert ([sep] + rest)[..k + 1] == [sep] + rest[..k];
    ConcatAssociates(a, [sep], rest[..k]);
    SplitOnField(a, rest[..k], sep);
  }

  lemma {:induction false} FirstInFront(fs: seq<string>, q: seq<string>)
    requires fs != [] && CutParts(q, fs[1..])
    ensures CutParts([fs[0]] + q, fs)
  {
  }

  /** A cut line is nothing, or what a cut may be taken for. */
  lemma {:induction false} CutLine(r: ManifestRecord, n: nat)
    requires Clean(r) && 1 <= n <= |Line(r)|
    ensures var d := Deserialize(CutReturn(Line(r)[..n])); d.Some? ==> TakenFor(d.value, r)
  {
    var fs, s := Fields(r), Line(r)[..n];
    LineStart(r);
    var m := ReadPrefix(s);
    assert s[..m] == Line(r)[..m];
    PrefixSplit(fs, '|', m);
    hide SplitOn, Trim, Join, Digits, CutReturn, Clean;
    var parts := SplitOn(Line(r)[..m], '|');
    KeywordPrefix(parts[0]);
  }

  lemma {:induction false} LineStart(r: ManifestRecord)
    ensures Line(r) != "" && !IsWhitespace(Line(r)[0]) && Line(r)[0] == if r.AddTable? then 'A' else 'R'
  {
    var fs := Fields(r);
    JoinHead(fs, '|');
    assert "ADD"[0] == 'A' && "REMOVE"[0] == 'R' && fs[0] == if r.AddTable? then "ADD" else "REMOVE";
    assert Line(r)[0] == fs[0][0];
    assert !IsWhitespace('A') && !IsWhitespace('R');
  }

  lemma {:induction false} KeywordPrefix(p: string)
    ensures p <= "ADD" ==> p != "REMOVE"
    ensures p <= "REMOVE" ==> p != "ADD"
  {
    assert |"REMOVE"| > |"ADD"|;
    assert "ADD"[0] != "REMOVE"[0];
  }

  /** The open end of a text is one more line. */
  lemma {:induction false} LinesTorn(text: string, p: string)
    requires Closed(text) && p != "" && Free(p, '\n')
    ensures Lines(text + p) == Lines(text) + [CutReturn(p)]
  {
    SplitOnClosed(text);
    SplitOnAppend(text, p);
    SplitOnFree(p, '\n');
    hide SplitOn;
    var parts := SplitOn(text, '\n');
    assert SplitOn(text + p, '\n') == parts[..|parts| - 1] + [p];
  }

  lemma {:induction false} LoadTorn(text: string, p: string)
    requires Closed(text) && p != "" && Free(p, '\n')
    ensures Load(text + p) == Load(text) + Listed(Deserialize(CutReturn(p)))
  {
    LinesTorn(text, p);
    InitOfSnoc(Lines(text), CutReturn(p));
    hide Lines, Deserialize;
  }

  /** A record of which only the first `n` characters were appended loads whole, or but for its size, or not at all. */
  lemma {:induction false} TornAppend(text: string, r: ManifestRecord, n: nat) returns (x: Option<ManifestRecord>)
    requires Closed(text) && Clean(r) && n <= |Serialize(r)|
    ensures Load(text + Serialize(r)[..n]) == Load(text) + Listed(x)
    ensures x.Some? ==> TakenFor(x.value, r)
  {
    if n == 0 {
      assert text + Serialize(r)[..0] == text;
      x := None;
    } else if n == |Serialize(r)| {
      TakeAll(Serialize(r));
      LoadAppend(text, r);
      x := Some(r);
    } else {
      var p := Line(r)[..n];
      assert Serialize(r)[..n] == p;
      JoinFree(Fields(r), '|', '\n');
      LoadTorn(text, p);
      CutLine(r, n);
      x := Deserialize(CutReturn(p));
    }
  }

  /** Behind the beginning of a line no record of its own is read. */
  lemma {:induction false} Swallowed(p: string, r: ManifestRecord)
    requires p != "" && !IsWhitespace(p[0]) && Clean(r)
    ensures Deserialize(CutReturn(p + Line(r))) != Some(r)
  {
    SwallowedTrim(p, r);
    SwallowedParts(p, r);
    hide SplitOn, Trim, CutReturn, Join, Digits, LevelNamed, ParseUnsigned, Clean;
  }

  /** One part too many, or another keyword. */
  lemma {:induction false} SwallowedParts(p: string, r: ManifestRecord)
    requires p != "" && Clean(r)
    ensures var parts := SplitOn(p + Line(r), '|');
            |parts| > |Fields(r)| || (|parts| == |Fields(r)| && parts[0] == p + Fields(r)[0] != Fields(r)[0])
  {
    var fs := Fields(r);
    JoinCount(fs, '|');
    TotalCountFree(fs, '|');
    CountConcat(p, Line(r), '|');
    SplitOnCount(p + Line(r), '|');
    FreeIsCountZero(p, '|');
    hide SplitOn, Count, TotalCount;
    if Free(p, '|') {
      JoinHead(fs, '|');
      hide Join;
      ConcatAssociates(p, fs[0], ['|'] + Join(fs[1..], '|'));
      ConcatAssociates(p + fs[0], ['|'], Join(fs[1..], '|'));
      KeyWordFree(p, fs[0], r);
      SplitOnField(p + fs[0], Join(fs[1..], '|'), '|');
    }
  }

  lemma {:induction false} KeyWordFree(p: string, k: string, r: ManifestRecord)
    requires Free(p, '|') && p != "" && k == Fields(r)[0]
    ensures Free(p + k, '|') && p + k != k
  {
  }

  lemma {:induction false} SwallowedTrim(p: string, r: ManifestRecord)
    requires p != "" && !IsWhitespace(p[0]) && Clean(r)
    ensures Trim(CutReturn(p + Line(r))) == p + Line(r)
  {
    LineIsTrimmed(r);
    LineEnds(r);
    var s := p + Line(r);
    assert s[|s| - 1] == Line(r)[|Line(r)| - 1] && s[0] == p[0];
  }

  lemma {:induction false} LineEnds(r: ManifestRecord)
    requires Clean(r)
    ensures Line(r) != "" && !IsWhitespace(Line(r)[|Line(r)| - 1]) && Line(r)[|Line(r)| - 1] != '\r'
  {
    LineIsTrimmed(r);
    LineStart(r);
    TrimExact(Line(r), '\n') by {
      JoinFree(Fields(r), '|', '\n');
    }
    assert IsWhitespace('\r');
  }

  lemma {:induction false} Rejoined(text: string, p: string, r: ManifestRecord)
    ensures text + p + Serialize(r) == text + (p + Line(r)) + "\n"
  {
    hide Line;
  }

  lemma {:induction false} LoadSwallowed(text: string, p: string, r: ManifestRecord)
    requires Closed(text) && p != "" && Free(p, '\n') && Clean(r)
    ensures Load(text + p + Serialize(r)) == Load(text) + Listed(Deserialize(CutReturn(p + Line(r))))
  {
    JoinFree(Fields(r), '|', '\n');
    hide Line, Lines, Deserialize, CutReturn;
    LinesAppend(text, p + Line(r));
    Rejoined(text, p, r);
    InitOfSnoc(Lines(text), CutReturn(p + Line(r)));
  }

  /** The record appended behind a torn one is lost, unless nothing of that was left. */
  lemma {:induction false} TornSwallows(text: string, torn: ManifestRecord, n: nat, r: ManifestRecord)
    requires Closed(text) && Clean(torn) && Clean(r) && n <= |Line(torn)|
    ensures var p := Serialize(torn)[..n]; Load(text + p + Serialize(r)) == Load(text + p) + [r] <==> n == 0
  {
    hide Deserialize, Lines, Load, Closed, CutReturn, Join;
    var p := Line(torn)[..n];
    assert Serialize(torn)[..n] == p;
    if n == 0 {
      assert text + p == text;
      LoadAppend(text, r);
    } else {
      JoinFree(Fields(torn), '|', '\n');
      LineStart(torn);
      LoadTorn(text, p);
      LoadSwallowed(text, p, r);
      Swallowed(p, r);
      LastLost(Load(text), Listed(Deserialize(CutReturn(p))), Deserialize(CutReturn(p + Line(r))), r);
    }
  }

  lemma {:induction false} LastLost(a: seq<ManifestRecord>, b: seq<ManifestRecord>, x: Option<ManifestRecord>, r: ManifestRecord)
    requires x != Some(r)
    ensures a + Listed(x) != a + b + [r]
  {
    if x.Some? && b == [] {
      assert (a + Listed(x))[|a|] == x.value && (a + b + [r])[|a|] == r;
    } else {
      assert |a + Listed(x)| != |a + b + [r]|;
    }
  }
}
