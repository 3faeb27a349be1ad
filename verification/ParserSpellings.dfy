/** The parser sees nothing but the tokens: however an expression is spelled and spaced, it parses to the same tree. */
module ParserSpellings {
  import opened SortedMap
  import opened Text
  import opened Ast
  import opened Lexers
  import opened Parsers
  import opened ParserRoundTrips

  /** The text reads as these tokens, of which the last is its end. */
  ghost predicate Lexed(other: Alphabet, s: string, ts: seq<Token>)
    decreases |ts|
  {
    && ts != [] && NextToken(other, s).Some? && NextToken(other, s).value.0 == ts[0]
    && var more := NextToken(other, s).value.1;
       if |ts| == 1 then ts[0] == EOF && more == "" else Lexed(other, more, ts[1..])
  }

  /** The parser has these tokens in front of it. */
  ghost predicate Ahead(other: Alphabet, p: Cursor, ts: seq<Token>) {
    && ts != [] && p.token == ts[0]
    && if |ts| == 1 then p == Cursor(EOF, "") else Lexed(other, p.rest, ts[1..])
  }

  /** Two spellings of one aggregate, in front of a parenthesis. */
  ghost predicate SameCall(ts: seq<Token>, us: seq<Token>, i: nat)
    requires i < |ts| == |us|
  {
    && i + 1 < |ts| && ts[i + 1] == LParen && us[i + 1] == LParen && ts[i].Ident? && us[i].Ident?
    && exists kind :: Cased(ts[i].name, AggregateText(kind)) && Cased(us[i].name, AggregateText(kind))
  }

  /** The same tokens, but for the letter case of aggregates. */
  ghost predicate Similar(ts: seq<Token>, us: seq<Token>) {
    |ts| == |us| && forall i :: 0 <= i < |ts| ==> ts[i] == us[i] || SameCall(ts, us, i)
  }

  ghost predicate AlikeFor(other: Alphabet, p: Cursor, q: Cursor, ts: seq<Token>, us: seq<Token>) {
    Ahead(other, p, ts) && Ahead(other, q, us) && Similar(ts, us)
  }

  /** Two places the parser cannot tell apart. */
  ghost predicate Alike(other: Alphabet, p: Cursor, q: Cursor) {
    exists ts, us :: AlikeFor(other, p, q, ts, us)
  }

  lemma {:induction false} StepAhead(other: Alphabet, p: Cursor, ts: seq<Token>)
    requires Ahead(other, p, ts)
    ensures Step(other, p).Some? && Ahead(other, Step(other, p).value, if |ts| == 1 then ts else ts[1..])
  {
    if |ts| == 1 {
      EmptyReads(other);
    } else {
      hide NextToken;
      assert Lexed(other, p.rest, ts[1..]);
    }
  }

  lemma {:induction false} SimilarTail(ts: seq<Token>, us: seq<Token>)
    requires Similar(ts, us) && |ts| > 1
    ensures Similar(ts[1..], us[1..])
    ensures ts[0] == us[0] || SameCall(ts, us, 0)
  {
    hide Cased;
    forall i | 0 <= i < |ts| - 1
      ensures ts[1..][i] == us[1..][i] || SameCall(ts[1..], us[1..], i)
    {
      assert ts[1..][i] == ts[i + 1] && us[1..][i] == us[i + 1];
      if ts[i + 1] != us[i + 1] {
        assert SameCall(ts, us, i + 1);
        assert ts[1..][i + 1] == ts[i + 2] && us[1..][i + 1] == us[i + 2];
      }
    }
  }

  /** Both name the same aggregate. */
  lemma {:induction false} SameAggregate(a: string, b: string)
    requires exists kind :: Cased(a, AggregateText(kind)) && Cased(b, AggregateText(kind))
    ensures AggregateNamed(a) == AggregateNamed(b)
  {
    hide AggregateNamed, Cased;
    var kind :| Cased(a, AggregateText(kind)) && Cased(b, AggregateText(kind));
    AggregateExactly(kind, a);
    AggregateExactly(kind, b);
  }

  /** Alike places stay alike, and their tokens are the same unless both call the same aggregate. */
  lemma {:induction false} StepAlike(other: Alphabet, p: Cursor, q: Cursor)
    requires Alike(other, p, q)
    ensures Step(other, p).Some? && Step(other, q).Some? && Alike(other, Step(other, p).value, Step(other, q).value)
    ensures p.token == q.token ||
            (p.token.Ident? && q.token.Ident? && AggregateNamed(p.token.name) == AggregateNamed(q.token.name)
             && Step(other, p).value.token == LParen && Step(other, q).value.token == LParen)
  {
    var ts: seq<Token>, us: seq<Token> :| AlikeFor(other, p, q, ts, us);
    hide Step, AggregateNamed, Cased, Lexed;
    StepAhead(other, p, ts);
    StepAhead(other, q, us);
    if |ts| > 1 {
      SimilarTail(ts, us);
      if ts[0] != us[0] {
        SameAggregate(ts[0].name, us[0].name);
        assert ts[1..][0] == ts[1] && us[1..][0] == us[1];
      }
      assert AlikeFor(other, Step(other, p).value, Step(other, q).value, ts[1..], us[1..]);
    } else {
      assert AlikeFor(other, Step(other, p).value, Step(other, q).value, ts, us);
    }
  }

  /** Two parses that end alike with the same tree, or both fail. */
  ghost predicate SameParse(other: Alphabet, r: Parsed, r': Parsed) {
    if r.None? then r'.None? else r'.Some? && r'.value.0 == r.value.0 && Alike(other, r.value.1, r'.value.1)
  }

  lemma {:induction false} ExpectAlike(other: Alphabet, p: Cursor, q: Cursor, t: Token)
    requires Alike(other, p, q) && !t.Ident?
    ensures Expect(other, p, t).Some? <==> Expect(other, q, t).Some?
    ensures Expect(other, p, t).Some? ==> Alike(other, Expect(other, p, t).value, Expect(other, q, t).value)
  {
    hide Step, Alike, AggregateNamed;
    StepAlike(other, p, q);
  }

  lemma {:induction false} ExpressionAlike(other: Alphabet, p: Cursor, q: Cursor)
    requires Alike(other, p, q)
    ensures SameParse(other, ParseExpression(other, p), ParseExpression(other, q))
    decreases Measure(p), 6
  {
    OrAlike(other, p, q);
  }

  lemma {:induction false} OrAlike(other: Alphabet, p: Cursor, q: Cursor)
    requires Alike(other, p, q)
    ensures SameParse(other, ParseOr(other, p), ParseOr(other, q))
    decreases Measure(p), 5
  {
    hide Alike, ParseAnd, Step;
    AndAlike(other, p, q);
    var l, l' := ParseAnd(other, p), ParseAnd(other, q);
    if l.Some? {
      OrLoopAlike(other, l.value.0, l.value.1, l'.value.1);
    }
  }

  lemma {:induction false} OrLoopAlike(other: Alphabet, left: Expr, p: Cursor, q: Cursor)
    requires Alike(other, p, q)
    ensures SameParse(other, OrLoop(other, left, p), OrLoop(other, left, q))
    decreases Measure(p), 4
  {
    hide Alike, ParseAnd, Step, AggregateNamed;
    StepAlike(other, p, q);
    if p.token == Word(Keyword.Or) {
      var p', q' := Step(other, p).value, Step(other, q).value;
      AndAlike(other, p', q');
      var r, r' := ParseAnd(other, p'), ParseAnd(other, q');
      if r.Some? {
        OrLoopAlike(other, Binary(left, BinaryOperator.Or, r.value.0), r.value.1, r'.value.1);
      }
    }
  }

  lemma {:induction false} AndAlike(other: Alphabet, p: Cursor, q: Cursor)
    requires Alike(other, p, q)
    ensures SameParse(other, ParseAnd(other, p), ParseAnd(other, q))
    decreases Measure(p), 3
  {
    hide Alike, ParseComparison, Step;
    ComparisonAlike(other, p, q);
    var l, l' := ParseComparison(other, p), ParseComparison(other, q);
    if l.Some? {
      AndLoopAlike(other, l.value.0, l.value.1, l'.value.1);
    }
  }

  lemma {:induction false} AndLoopAlike(other: Alphabet, left: Expr, p: Cursor, q: Cursor)
    requires Alike(other, p, q)
    ensures SameParse(other, AndLoop(other, left, p), AndLoop(other, left, q))
    decreases Measure(p), 2
  {
    hide Alike, ParseComparison, Step, AggregateNamed;
    StepAlike(other, p, q);
    if p.token == Word(Keyword.And) {
      var p', q' := Step(other, p).value, Step(other, q).value;
      ComparisonAlike(other, p', q');
      var r, r' := ParseComparison(other, p'), ParseComparison(other, q');
      if r.Some? {
        AndLoopAlike(other, Binary(left, BinaryOperator.And, r.value.0), r.value.1, r'.value.1);
      }
    }
  }

  lemma {:induction false} ParenthesizedAlike(other: Alphabet, p: Cursor, q: Cursor)
    requires Alike(other, p, q) && p.token == LParen && q.token == LParen
    ensures SameParse(other, ParseParenthesized(other, p), ParseParenthesized(other, q))
    decreases Measure(p), 0
  {
    hide Alike, ParseExpression, Step, Expect, AggregateNamed;
    StepAlike(other, p, q);
    var p', q' := Step(other, p).value, Step(other, q).value;
    ExpressionAlike(other, p', q');
    var e, e' := ParseExpression(other, p'), ParseExpression(other, q');
    if e.Some? {
      ExpectAlike(other, e.value.1, e'.value.1, RParen);
    }
  }

  lemma {:induction false} ComparisonAlike(other: Alphabet, p: Cursor, q: Cursor)
    requires Alike(other, p, q)
    ensures SameParse(other, ParseComparison(other, p), ParseComparison(other, q))
    decreases Measure(p), 2
  {
    hide Alike, ParsePrimary, ParseParenthesized, Step, AggregateNamed;
    StepAlike(other, p, q);
    if p.token == LParen {
      ParenthesizedAlike(other, p, q);
    } else {
      PrimaryAlike(other, p, q);
      var l, l' := ParsePrimary(other, p), ParsePrimary(other, q);
      if l.Some? {
        var c, c' := l.value.1, l'.value.1;
        StepAlike(other, c, c');
        if ComparisonOf(c.token).Some? {
          PrimaryAlike(other, Step(other, c).value, Step(other, c').value);
        }
      }
    }
  }

  lemma {:induction false} PrimaryAlike(other: Alphabet, p: Cursor, q: Cursor)
    requires Alike(other, p, q)
    ensures SameParse(other, ParsePrimary(other, p), ParsePrimary(other, q))
    decreases Measure(p), 1
  {
    hide Alike, ParseParenthesized, ParseAggregate, Step, AggregateNamed;
    StepAlike(other, p, q);
    if p.token == LParen {
      ParenthesizedAlike(other, p, q);
    } else if p.token.Ident? {
      var p', q' := Step(other, p).value, Step(other, q).value;
      StepAlike(other, p', q');
      if p'.token == LParen {
        CallAlike(other, p.token.name, q.token.name, p', q');
      }
    }
  }

  lemma {:induction false} CallAlike(other: Alphabet, a: string, b: string, p: Cursor, q: Cursor)
    requires Alike(other, p, q) && AggregateNamed(a) == AggregateNamed(b)
    ensures SameParse(other, ParseAggregate(other, a, p), ParseAggregate(other, b, q))
  {
    hide Alike, Step, Expect, AggregateNamed;
    ExpectAlike(other, p, q, LParen);
    if Expect(other, p, LParen).Some? && AggregateNamed(a).Some? {
      var p', q' := Expect(other, p, LParen).value, Expect(other, q, LParen).value;
      if AggregateNamed(a).value.Count? {
        ExpectAlike(other, p', q', Star);
        if Expect(other, p', Star).Some? {
          ExpectAlike(other, Expect(other, p', Star).value, Expect(other, q', Star).value, RParen);
        }
      } else {
        ColumnAlike(other, p', q');
      }
    }
  }

  /** The column of a call, and the closing parenthesis. */
  lemma {:induction false} ColumnAlike(other: Alphabet, p: Cursor, q: Cursor)
    requires Alike(other, p, q)
    ensures p.token.Ident? <==> q.token.Ident?
    ensures p.token.Ident? ==>
              var c, c' := Step(other, p).value, Step(other, q).value;
              && Step(other, p).Some? && Step(other, q).Some?
              && (Expect(other, c, RParen).Some? <==> Expect(other, c', RParen).Some?)
              && (Expect(other, c, RParen).Some? ==>
                    p.token == q.token && Alike(other, Expect(other, c, RParen).value, Expect(other, c', RParen).value))
  {
    hide Alike, Step, AggregateNamed;
    StepAlike(other, p, q);
    ExpectAlike(other, Step(other, p).value, Step(other, q).value, RParen);
  }

  /** Texts with the same tokens, but for the letter case of aggregates, parse to the same tree or both fail. */
  lemma {:induction false} OnlyTokensCount(other: Alphabet, s: string, s': string, ts: seq<Token>, us: seq<Token>)
    requires Lexed(other, s, ts) && Lexed(other, s', us) && Similar(ts, us)
    ensures ParseWhole(other, s) == ParseWhole(other, s')
  {
    assert AlikeFor(other, Step(other, Cursor(EOF, s)).value, Step(other, Cursor(EOF, s')).value, ts, us);
    hide NextToken, Lexed, ParseExpression, Cased, AggregateNamed, Similar;
    var p, q := Step(other, Cursor(EOF, s)).value, Step(other, Cursor(EOF, s')).value;
    ExpressionAlike(other, p, q);
    var r, r' := ParseExpression(other, p), ParseExpression(other, q);
    if r.Some? {
      hide Step;
      StepAlike(other, r.value.1, r'.value.1);
    }
  }

  /** Spellings of the tokens one behind the other, with white space where it is wanted or needed. */
  ghost predicate Spelling(s: string, ts: seq<Token>)
    decreases |ts|
  {
    if ts == [] then AllWhite(s)
    else
      exists space, w, more ::
        s == space + (w + more) && AllWhite(space) && Spelled(ts[0], w) && Ends(ts[0], more) && Spelling(more, ts[1..])
  }

  lemma {:induction false} SpelledIsToken(t: Token, w: string)
    requires Spelled(t, w)
    ensures t != EOF && t != Ident("")
  {
  }

  lemma {:induction false} EndOfTokens(ts: seq<Token>)
    requires ts != []
    ensures (ts + [EOF])[1..] == ts[1..] + [EOF] && (ts + [EOF])[0] == ts[0]
  {
  }

  /** A spelling is lexed into the tokens it spells. */
  lemma {:induction false} SpellingLexed(other: Alphabet, s: string, ts: seq<Token>)
    requires Spelling(s, ts)
    ensures Lexed(other, s, ts + [EOF])
    decreases |ts|
  {
    hide NextToken, Spelled, Ends, AllWhite;
    if ts == [] {
      EndReads(other, s);
    } else {
      var space, w, more :| s == space + (w + more) && AllWhite(space) && Spelled(ts[0], w) && Ends(ts[0], more) && Spelling(more, ts[1..]);
      SpellingLexed(other, more, ts[1..]);
      SpelledIsToken(ts[0], w);
      SplitReads(other, s, ts[0], more, space, w);
      EndOfTokens(ts);
    }
  }

  lemma {:induction false} PrintedLexed(other: Alphabet, ts: seq<Token>)
    requires AllPrintable(ts)
    ensures Lexed(other, PrintTokens(ts), ts + [EOF])
  {
    hide NextToken, Printable, TokenText;
    if ts == [] {
      EmptyReads(other);
    } else {
      PrintedLexed(other, ts[1..]);
      PrintedStart(ts[1..]);
      TokenReads(other, ts[0], PrintTokens(ts[1..]));
      EndOfTokens(ts);
    }
  }

  lemma {:induction false} SimilarEnds(ts: seq<Token>, us: seq<Token>)
    requires Similar(ts, us)
    ensures Similar(ts + [EOF], us + [EOF])
  {
    hide Cased;
    forall i | 0 <= i < |ts|
      ensures (ts + [EOF])[i] == (us + [EOF])[i] || SameCall(ts + [EOF], us + [EOF], i)
    {
      if ts[i] != us[i] {
        assert SameCall(ts, us, i);
        assert (ts + [EOF])[i + 1] == ts[i + 1] && (us + [EOF])[i + 1] == us[i + 1];
      }
    }
  }

  /** An expression the parser can return is parsed back from every spelling of its tokens: keywords and aggregates in
      any letter case, numbers with zeros in front, any white space, and none where none is needed. */
  lemma {:induction false} AnySpellingParses(other: Alphabet, e: Expr, us: seq<Token>, s: string)
    requires Returnable(e, false) && Similar(Tokens(e, 0), us) && Spelling(s, us)
    ensures ParseWhole(other, s) == Some(e)
  {
    hide Lexed, Similar, ParseWhole, Printable, Tokens, Spelling;
    TokensPrintable(e, 0);
    PrintedLexed(other, Tokens(e, 0));
    SpellingLexed(other, s, us);
    SimilarEnds(Tokens(e, 0), us);
    OnlyTokensCount(other, Render(e), s, Tokens(e, 0) + [EOF], us + [EOF]);
    ExpressionRoundTrip(other, e);
  }
}
