/** Printing an expression with the fewest parentheses, and parsing it back. */
module ParserRoundTrips {
  import opened Seqs
  import opened SortedMap
  import opened Decimal
  import opened Text
  import opened Ast
  import opened Lexers
  import opened Parsers

  /** A name as a tree holds it; the lexer reads a letter beyond ASCII as an empty name. */
  predicate NameOk(name: string, emptyToo: bool) {
    GoodName(name) || (emptyToo && name == "")
  }

  predicate Atom(e: Expr, emptyToo: bool) {
    match e
    case Identifier(name) => NameOk(name, emptyToo)
    case Number(n) => 0 <= n <= I64_MAX
    case Text(s) => Free(s, '\'')
    case Aggregate(kind, Wildcard) => kind.Count?
    case Aggregate(kind, Identifier(name)) => !kind.Count? && NameOk(name, emptyToo)
    case _ => false
  }

  predicate Connective(op: BinaryOperator) {
    op.And? || op.Or?
  }

  /** The trees the parser can return: comparisons of an atom with an atom or a parenthesized expression,
      joined by AND and OR in any shape. */
  predicate Returnable(e: Expr, emptyToo: bool) {
    e.Binary? &&
    if Connective(e.op) then Returnable(e.left, emptyToo) && Returnable(e.right, emptyToo)
    else Atom(e.left, emptyToo) && (Atom(e.right, emptyToo) || Returnable(e.right, emptyToo))
  }

  function AggregateText(kind: AggregateFunction): string {
    match kind
    case Count => "COUNT"
    case Min => "MIN"
    case Max => "MAX"
    case Sum => "SUM"
    case Avg => "AVG"
  }

  function ComparisonToken(op: BinaryOperator): Token
    requires !Connective(op)
  {
    match op
    case Equal => Eq
    case NotEqual => Ne
    case GreaterThan => Gt
    case GreaterThanOrEqual => Ge
    case LessThan => Lt
    case LessThanOrEqual => Le
  }

  function AtomTokens(e: Expr): seq<Token> {
    match e
    case Identifier(name) => [Ident(name)]
    case Number(n) => [Num(n)]
    case Text(s) => [Str(s)]
    case Aggregate(kind, argument) =>
      [Ident(AggregateText(kind)), LParen, if argument.Identifier? then Ident(argument.name) else Star, RParen]
    case _ => []
  }

  /** How tightly the operator binds: OR, AND, comparison. */
  function Precedence(op: BinaryOperator): nat {
    match op
    case Or => 0
    case And => 1
    case _ => 2
  }

  /** The tokens of an expression where `level` is the loosest operator allowed without parentheses. */
  function Tokens(e: Expr, level: nat): seq<Token>
    requires Returnable(e, false) && level <= 2
    decreases e, level
  {
    if Precedence(e.op) < level then [LParen] + Tokens(e, 0) + [RParen]
    else if e.op.Or? then Tokens(e.left, 0) + [Word(Keyword.Or)] + Tokens(e.right, 1)
    else if e.op.And? then Tokens(e.left, 1) + [Word(Keyword.And)] + Tokens(e.right, 2)
    else AtomTokens(e.left) + [ComparisonToken(e.op)] + OperandTokens(e.right)
  }

  function OperandTokens(e: Expr): seq<Token>
    requires Atom(e, false) || Returnable(e, false)
    decreases e, 3
  {
    if Returnable(e, false) then [LParen] + Tokens(e, 0) + [RParen] else AtomTokens(e)
  }

  function PrintTokens(ts: seq<Token>): string {
    if ts == [] then "" else " " + TokenText(ts[0]) + PrintTokens(ts[1..])
  }

  /** The text of an expression. */
  function Render(e: Expr): string
    requires Returnable(e, false)
  {
    PrintTokens(Tokens(e, 0))
  }

  /** The parser in front of these tokens. */
  function At(ts: seq<Token>): Cursor {
    if ts == [] then Cursor(EOF, "") else Cursor(ts[0], PrintTokens(ts[1..]))
  }

  predicate AllPrintable(ts: seq<Token>) {
    forall i :: 0 <= i < |ts| ==> Printable(ts[i])
  }

  lemma {:induction false} EmptyReads(other: Alphabet)
    ensures NextToken(other, "") == Some((EOF, ""))
  {
  }

  lemma {:induction false} PrintedStart(ts: seq<Token>)
    ensures SpaceFirst(PrintTokens(ts))
  {
  }

  /** Passing a token is dropping it from the list. */
  lemma {:induction false} StepAt(other: Alphabet, ts: seq<Token>)
    requires ts != [] && AllPrintable(ts)
    ensures Step(other, At(ts)) == Some(At(ts[1..]))
  {
    hide NextToken, Printable, TokenText;
    StepInto(other, ts[1..], ts[0]);
  }

  lemma {:induction false} StepInto(other: Alphabet, ts: seq<Token>, before: Token)
    requires AllPrintable(ts)
    ensures Step(other, Cursor(before, PrintTokens(ts))) == Some(At(ts))
  {
    hide NextToken, Printable, TokenText;
    if ts == [] {
      EmptyReads(other);
    } else {
      PrintedStart(ts[1..]);
      TokenReads(other, ts[0], PrintTokens(ts[1..]));
    }
  }

  lemma {:induction false} CapitalAggregate(kind: AggregateFunction)
    ensures AggregateText(kind) != "" && forall i :: 0 <= i < |AggregateText(kind)| ==> 'A' <= AggregateText(kind)[i] <= 'Z'
  {
  }

  lemma {:induction false} UpperAggregate(kind: AggregateFunction, w: string)
    ensures AggregateNamed(w) == Some(kind) <==> Upper(w) == AggregateText(kind)
  {
    hide Upper;
    match kind
    case Count => assert AggregateText(kind) == "COUNT";
    case Min => assert AggregateText(kind) == "MIN";
    case Max => assert AggregateText(kind) == "MAX";
    case Sum => assert AggregateText(kind) == "SUM";
    case Avg => assert AggregateText(kind) == "AVG";
  }

  /** A name calls an aggregate exactly when it spells it, in whatever letter case. */
  lemma {:induction false} AggregateExactly(kind: AggregateFunction, w: string)
    ensures AggregateNamed(w) == Some(kind) <==> Cased(w, AggregateText(kind))
  {
    CapitalAggregate(kind);
    UpperExactly(w, AggregateText(kind));
    hide AggregateNamed, AggregateText, Upper, Cased;
    UpperAggregate(kind, w);
  }

  lemma {:induction false} NotKeyword(kind: AggregateFunction, k: Keyword)
    ensures AggregateText(kind) != KeywordText(k)
  {
  }

  /** No spelling of an aggregate is a keyword. */
  lemma {:induction false} AggregateName(kind: AggregateFunction, w: string)
    requires Cased(w, AggregateText(kind))
    ensures GoodName(w)
  {
    CapitalAggregate(kind);
    CasedIsWord(w, AggregateText(kind));
    UpperExactly(w, AggregateText(kind));
    hide AggregateText, KeywordText, Upper, Cased;
    forall k: Keyword
      ensures !Cased(w, KeywordText(k))
    {
      CapitalKeyword(k);
      UpperExactly(w, KeywordText(k));
      NotKeyword(kind, k);
    }
  }

  lemma {:induction false} PlainCase(s: string)
    ensures Cased(s, s)
  {
  }

  lemma {:induction false} AtomPrintable(e: Expr)
    requires Atom(e, false)
    ensures AtomTokens(e) != [] && AllPrintable(AtomTokens(e))
  {
    hide GoodName;
    GoodNotEmpty();
    if e.Aggregate? {
      PlainCase(AggregateText(e.kind));
      AggregateName(e.kind, AggregateText(e.kind));
    }
  }

  lemma {:induction false} GoodNotEmpty()
    ensures !GoodName("")
  {
  }

  lemma {:induction false} PrintableConcat(a: seq<Token>, t: Token, b: seq<Token>)
    requires AllPrintable(a) && Printable(t) && AllPrintable(b)
    ensures AllPrintable(a + [t] + b)
  {
    hide Printable;
  }

  lemma {:induction false} PrintableWrapped(a: seq<Token>)
    requires AllPrintable(a)
    ensures AllPrintable([LParen] + a + [RParen])
  {
    hide Printable;
    assert Printable(LParen) && Printable(RParen) by {
      SymbolsPrintable();
    }
  }

  lemma {:induction false} SymbolsPrintable()
    ensures Printable(LParen) && Printable(RParen) && Printable(Word(Keyword.And)) && Printable(Word(Keyword.Or))
    ensures forall op: BinaryOperator {:trigger ComparisonToken(op)} :: !Connective(op) ==> Printable(ComparisonToken(op))
  {
  }

  lemma {:induction false} TokensPrintable(e: Expr, level: nat)
    requires Returnable(e, false) && level <= 2
    ensures AllPrintable(Tokens(e, level))
    decreases e, level
  {
    hide AllPrintable, Printable, AtomTokens, Atom;
    SymbolsPrintable();
    if Precedence(e.op) < level {
      TokensPrintable(e, 0);
      PrintableWrapped(Tokens(e, 0));
    } else if e.op.Or? {
      TokensPrintable(e.left, 0);
      TokensPrintable(e.right, 1);
      PrintableConcat(Tokens(e.left, 0), Word(Keyword.Or), Tokens(e.right, 1));
    } else if e.op.And? {
      TokensPrintable(e.left, 1);
      TokensPrintable(e.right, 2);
      PrintableConcat(Tokens(e.left, 1), Word(Keyword.And), Tokens(e.right, 2));
    } else {
      AtomPrintable(e.left);
      OperandPrintable(e.right);
      PrintableConcat(AtomTokens(e.left), ComparisonToken(e.op), OperandTokens(e.right));
    }
  }

  lemma {:induction false} OperandPrintable(e: Expr)
    requires Atom(e, false) || Returnable(e, false)
    ensures AllPrintable(OperandTokens(e))
    decreases e, 3
  {
    hide AllPrintable, Atom;
    if Returnable(e, false) {
      TokensPrintable(e, 0);
      PrintableWrapped(Tokens(e, 0));
    } else {
      AtomPrintable(e);
    }
  }

  /** What may stand behind an operand: the end, a closing parenthesis, AND or OR. */
  predicate Follows(ts: seq<Token>) {
    AllPrintable(ts) && (ts == [] || ts[0] == RParen || ts[0] == Word(Keyword.And) || ts[0] == Word(Keyword.Or))
  }

  lemma {:induction false} TailOf(t: Token, ts: seq<Token>)
    ensures ([t] + ts)[1..] == ts && ([t] + ts)[0] == t
  {
  }

  /** Reading an atom, with anything but an opening parenthesis behind it. */
  lemma {:induction false} AtomParses(other: Alphabet, e: Expr, ts: seq<Token>)
    requires Atom(e, false) && AllPrintable(ts) && (ts == [] || ts[0] != LParen)
    ensures At(AtomTokens(e) + ts).token != LParen
    ensures ParsePrimary(other, At(AtomTokens(e) + ts)) == Some((e, At(ts)))
  {
    hide NextToken, Step, AllPrintable, GoodName, PrintTokens;
    AtomPrintable(e);
    if e.Aggregate? {
      CallParses(other, e, ts);
    } else {
      var t := AtomTokens(e)[0];
      TailOf(t, ts);
      PrintableCons(AtomTokens(e), ts);
      StepAt(other, AtomTokens(e) + ts);
      assert AtomTokens(e) + ts == [t] + ts;
    }
  }

  lemma {:induction false} PrintableCons(a: seq<Token>, b: seq<Token>)
    requires AllPrintable(a) && AllPrintable(b)
    ensures AllPrintable(a + b)
  {
    hide Printable;
  }

  lemma {:induction false} StepCons(other: Alphabet, t: Token, ts: seq<Token>)
    requires Printable(t) && AllPrintable(ts)
    ensures At([t] + ts).token == t && Step(other, At([t] + ts)) == Some(At(ts))
  {
    hide Step, NextToken, PrintTokens, Printable;
    TailOf(t, ts);
    StepAt(other, [t] + ts);
  }

  /** The four tokens of a call, passed one by one. */
  lemma {:induction false} CallSteps(other: Alphabet, name: string, e: Expr, p: Cursor, c1: Cursor, c2: Cursor, c3: Cursor, c4: Cursor)
    requires e.Aggregate? && Atom(e, false) && AggregateNamed(name) == Some(e.kind)
    requires p.token == Ident(name) && Step(other, p) == Some(c1)
    requires c1.token == LParen && Step(other, c1) == Some(c2)
    requires c2.token == (if e.argument.Identifier? then Ident(e.argument.name) else Star) && Step(other, c2) == Some(c3)
    requires c3.token == RParen && Step(other, c3) == Some(c4)
    ensures ParsePrimary(other, p) == Some((e, c4))
  {
    hide Step, AggregateNamed, GoodName;
  }

  lemma {:induction false} CallParses(other: Alphabet, e: Expr, ts: seq<Token>)
    requires e.Aggregate? && Atom(e, false) && AllPrintable(ts)
    ensures At(AtomTokens(e) + ts).token != LParen
    ensures ParsePrimary(other, At(AtomTokens(e) + ts)) == Some((e, At(ts)))
  {
    hide Step, PrintTokens, Printable, AggregateNamed, AggregateText, At, ParsePrimary, Atom;
    var name := AggregateText(e.kind);
    var argument := if e.argument.Identifier? then Ident(e.argument.name) else Star;
    AtomPrintable(e);
    PlainCase(name);
    AggregateExactly(e.kind, name);
    FourSteps(other, Ident(name), LParen, argument, RParen, ts);
    CallSteps(other, name, e, At([Ident(name), LParen, argument, RParen] + ts),
              At([LParen, argument, RParen] + ts), At([argument, RParen] + ts), At([RParen] + ts), At(ts));
  }

  lemma {:induction false} FourSteps(other: Alphabet, a: Token, b: Token, c: Token, d: Token, ts: seq<Token>)
    requires AllPrintable([a, b, c, d]) && AllPrintable(ts)
    ensures At([a, b, c, d] + ts).token == a && Step(other, At([a, b, c, d] + ts)) == Some(At([b, c, d] + ts))
    ensures At([b, c, d] + ts).token == b && Step(other, At([b, c, d] + ts)) == Some(At([c, d] + ts))
    ensures At([c, d] + ts).token == c && Step(other, At([c, d] + ts)) == Some(At([d] + ts))
    ensures At([d] + ts).token == d && Step(other, At([d] + ts)) == Some(At(ts))
  {
    hide Step, PrintTokens, Printable, At;
    var four := [a, b, c, d];
    assert Printable(four[0]) && Printable(four[1]) && Printable(four[2]) && Printable(four[3]);
    assert [a, b, c, d] + ts == [a] + ([b, c, d] + ts) && [b, c, d] + ts == [b] + ([c, d] + ts) && [c, d] + ts == [c] + ([d] + ts);
    StepCons(other, d, ts);
    PrintableCons([d], ts);
    StepCons(other, c, [d] + ts);
    PrintableCons([c, d], ts);
    StepCons(other, b, [c, d] + ts);
    PrintableCons([b, c, d], ts);
    StepCons(other, a, [b, c, d] + ts);
  }

  /** Reading an operand of a comparison. */
  lemma {:induction false} OperandParses(other: Alphabet, e: Expr, ts: seq<Token>)
    requires (Atom(e, false) || Returnable(e, false)) && Follows(ts)
    ensures ParsePrimary(other, At(OperandTokens(e) + ts)) == Some((e, At(ts)))
    decreases e, 21
  {
    hide NextToken, Step, PrintTokens, Printable, At, ParseParenthesized, Atom;
    if Returnable(e, false) {
      WrappedParses(other, e, ts);
    } else {
      AtomParses(other, e, ts);
    }
  }

  /** Reading a parenthesized expression. */
  lemma {:induction false} WrappedParses(other: Alphabet, e: Expr, ts: seq<Token>)
    requires Returnable(e, false) && AllPrintable(ts)
    ensures var all := [LParen] + Tokens(e, 0) + [RParen] + ts;
            At(all).token == LParen && ParseParenthesized(other, At(all)) == Some((e, At(ts)))
    decreases e, 15
  {
    hide NextToken, Step, PrintTokens, At, AllPrintable, Returnable, Tokens, ParseOr;
    var inner := Tokens(e, 0) + ([RParen] + ts);
    SymbolsPrintable();
    TokensPrintable(e, 0);
    OnePrintable(RParen);
    PrintableCons([RParen], ts);
    PrintableCons(Tokens(e, 0), [RParen] + ts);
    RegroupWrapped(Tokens(e, 0), ts);
    StepCons(other, LParen, inner);
    CloseFollows(ts);
    OrParses(other, e, [RParen] + ts);
    StepCons(other, RParen, ts);
  }

  lemma {:induction false} OnePrintable(t: Token)
    requires Printable(t)
    ensures AllPrintable([t])
  {
  }

  lemma {:induction false} RegroupWrapped(a: seq<Token>, ts: seq<Token>)
    ensures [LParen] + a + [RParen] + ts == [LParen] + (a + ([RParen] + ts))
  {
  }

  lemma {:induction false} CloseFollows(ts: seq<Token>)
    requires AllPrintable(ts)
    ensures Follows([RParen] + ts) && At([RParen] + ts).token == RParen
  {
    assert ([RParen] + ts)[0] == RParen;
  }

  lemma {:induction false} RegroupThree(a: seq<Token>, t: Token, b: seq<Token>, ts: seq<Token>)
    ensures a + [t] + b + ts == a + ([t] + (b + ts))
  {
  }

  /** A comparison, or anything in parentheses. */
  lemma {:induction false} ComparisonParses(other: Alphabet, e: Expr, ts: seq<Token>)
    requires Returnable(e, false) && Follows(ts)
    ensures ParseComparison(other, At(Tokens(e, 2) + ts)) == Some((e, At(ts)))
    decreases e, if Connective(e.op) then 20 else 5
  {
    hide NextToken, Step, PrintTokens, At, AllPrintable, ParsePrimary, ParseParenthesized, AtomTokens, OperandTokens, Printable;
    if Connective(e.op) {
      WrappedParses(other, e, ts);
    } else {
      var op, right := ComparisonToken(e.op), OperandTokens(e.right);
      SymbolsPrintable();
      RegroupThree(AtomTokens(e.left), op, right, ts);
      OperandPrintable(e.right);
      PrintableCons(right, ts);
      OnePrintable(op);
      PrintableCons([op], right + ts);
      TailOf(op, right + ts);
      AtomParses(other, e.left, [op] + (right + ts));
      StepCons(other, op, right + ts);
      OperandParses(other, e.right, ts);
    }
  }

  /** A conjunction leaves the parser in the loop over ANDs, with the whole of it read. */
  lemma {:induction false} AndParses(other: Alphabet, e: Expr, ts: seq<Token>)
    requires Returnable(e, false) && Follows(ts)
    ensures ParseAnd(other, At(Tokens(e, 1) + ts)) == AndLoop(other, e, At(ts))
    decreases e, if e.op.Or? then 25 else 10
  {
    hide NextToken, Step, PrintTokens, At, AllPrintable, ParseComparison, Printable;
    if e.op.And? {
      var l, r := Tokens(e.left, 1), Tokens(e.right, 2);
      SymbolsPrintable();
      RegroupThree(l, Word(Keyword.And), r, ts);
      TokensPrintable(e.right, 2);
      PrintableCons(r, ts);
      ConnectiveFollows(Word(Keyword.And), r + ts);
      AndParses(other, e.left, [Word(Keyword.And)] + (r + ts));
      StepCons(other, Word(Keyword.And), r + ts);
      ComparisonParses(other, e.right, ts);
      AndLoopStep(other, e.left, e.right, [Word(Keyword.And)] + (r + ts), r + ts, ts);
    } else {
      SameTokens(e);
      ComparisonParses(other, e, ts);
    }
  }

  lemma {:induction false} SameTokens(e: Expr)
    requires Returnable(e, false) && !e.op.And?
    ensures Tokens(e, 1) == Tokens(e, 2)
  {
  }

  lemma {:induction false} AndLoopStep(other: Alphabet, l: Expr, r: Expr, ts: seq<Token>, us: seq<Token>, vs: seq<Token>)
    requires At(ts).token == Word(Keyword.And) && Step(other, At(ts)) == Some(At(us)) && ParseComparison(other, At(us)) == Some((r, At(vs)))
    ensures AndLoop(other, l, At(ts)) == AndLoop(other, Binary(l, BinaryOperator.And, r), At(vs))
  {
    hide Step, ParseComparison, At;
  }

  lemma {:induction false} OrLoopStep(other: Alphabet, l: Expr, r: Expr, ts: seq<Token>, us: seq<Token>, vs: seq<Token>)
    requires At(ts).token == Word(Keyword.Or) && Step(other, At(ts)) == Some(At(us)) && ParseAnd(other, At(us)) == Some((r, At(vs)))
    ensures OrLoop(other, l, At(ts)) == OrLoop(other, Binary(l, BinaryOperator.Or, r), At(vs))
  {
    hide Step, ParseAnd, At;
  }

  lemma {:induction false} ConnectiveFollows(t: Token, ts: seq<Token>)
    requires (t == Word(Keyword.And) || t == Word(Keyword.Or)) && AllPrintable(ts)
    ensures Follows([t] + ts) && At([t] + ts).token == t
  {
    TailOf(t, ts);
  }

  /** A disjunction leaves the parser in the loop over ORs. */
  lemma {:induction false} OrLoopReached(other: Alphabet, e: Expr, ts: seq<Token>)
    requires Returnable(e, false) && Follows(ts) && At(ts).token != Word(Keyword.And)
    ensures ParseOr(other, At(Tokens(e, 0) + ts)) == OrLoop(other, e, At(ts))
    decreases e, 11
  {
    hide NextToken, Step, PrintTokens, At, AllPrintable, ParseAnd, Printable;
    if e.op.Or? {
      var l, r := Tokens(e.left, 0), Tokens(e.right, 1);
      SymbolsPrintable();
      RegroupThree(l, Word(Keyword.Or), r, ts);
      TokensPrintable(e.right, 1);
      PrintableCons(r, ts);
      ConnectiveFollows(Word(Keyword.Or), r + ts);
      OrLoopReached(other, e.left, [Word(Keyword.Or)] + (r + ts));
      StepCons(other, Word(Keyword.Or), r + ts);
      AndParses(other, e.right, ts);
      AndLoopEnds(other, e.right, ts);
      OrLoopStep(other, e.left, e.right, [Word(Keyword.Or)] + (r + ts), r + ts, ts);
    } else {
      SameTokensAtAnd(e);
      AndParses(other, e, ts);
      AndLoopEnds(other, e, ts);
    }
  }

  lemma {:induction false} SameTokensAtAnd(e: Expr)
    requires Returnable(e, false) && !e.op.Or?
    ensures Tokens(e, 0) == Tokens(e, 1)
  {
  }

  lemma {:induction false} AndLoopEnds(other: Alphabet, e: Expr, ts: seq<Token>)
    requires At(ts).token != Word(Keyword.And)
    ensures AndLoop(other, e, At(ts)) == Some((e, At(ts)))
  {
  }

  /** An expression in front of the end or a closing parenthesis. */
  lemma {:induction false} OrParses(other: Alphabet, e: Expr, ts: seq<Token>)
    requires Returnable(e, false) && Follows(ts) && At(ts).token != Word(Keyword.And) && At(ts).token != Word(Keyword.Or)
    ensures ParseExpression(other, At(Tokens(e, 0) + ts)) == Some((e, At(ts)))
    decreases e, 12
  {
    hide At, Tokens, ParseOr;
    OrLoopReached(other, e, ts);
  }

  /** Printing and parsing an expression the parser can return gives it back, and nothing is left over. */
  lemma {:induction false} ExpressionRoundTrip(other: Alphabet, e: Expr)
    requires Returnable(e, false)
    ensures ParseWhole(other, Render(e)) == Some(e)
  {
    hide Step, ParseExpression, PrintTokens, Printable, Tokens;
    TokensPrintable(e, 0);
    StepInto(other, Tokens(e, 0), EOF);
    NothingFollows();
    OrParses(other, e, []);
    ConcatNothing(Tokens(e, 0));
  }

  lemma {:induction false} NothingFollows()
    ensures Follows([]) && At([]).token == EOF
  {
  }

  lemma {:induction false} StepGood(other: Alphabet, p: Cursor)
    ensures Step(other, p).Some? ==> GoodToken(Step(other, p).value.token)
  {
    TokensAreGood(other, p.rest);
  }

  /** What the parser returns is returnable: for each parsing function. */
  lemma {:induction false} ExpressionReturns(other: Alphabet, p: Cursor)
    requires GoodToken(p.token) && ParseExpression(other, p).Some?
    ensures var r := ParseExpression(other, p).value; Returnable(r.0, true) && GoodToken(r.1.token)
    decreases Measure(p), 6
  {
    OrReturns(other, p);
  }

  lemma {:induction false} OrReturns(other: Alphabet, p: Cursor)
    requires GoodToken(p.token) && ParseOr(other, p).Some?
    ensures var r := ParseOr(other, p).value; Returnable(r.0, true) && GoodToken(r.1.token)
    decreases Measure(p), 5
  {
    hide Step, NextToken, GoodToken, ParseAnd, Returnable;
    AndReturns(other, p);
    var l := ParseAnd(other, p).value;
    OrLoopReturns(other, l.0, l.1);
  }

  lemma {:induction false} OrLoopReturns(other: Alphabet, left: Expr, p: Cursor)
    requires GoodToken(p.token) && Returnable(left, true) && OrLoop(other, left, p).Some?
    ensures var r := OrLoop(other, left, p).value; Returnable(r.0, true) && GoodToken(r.1.token)
    decreases Measure(p), 4
  {
    hide Step, NextToken, GoodToken, ParseAnd;
    if p.token == Word(Keyword.Or) {
      var q := Step(other, p).value;
      StepGood(other, p);
      AndReturns(other, q);
      var r := ParseAnd(other, q).value;
      OrLoopReturns(other, Binary(left, BinaryOperator.Or, r.0), r.1);
    }
  }

  lemma {:induction false} AndReturns(other: Alphabet, p: Cursor)
    requires GoodToken(p.token) && ParseAnd(other, p).Some?
    ensures var r := ParseAnd(other, p).value; Returnable(r.0, true) && GoodToken(r.1.token)
    decreases Measure(p), 3
  {
    hide Step, NextToken, GoodToken, ParseComparison, Returnable;
    ComparisonReturns(other, p);
    var l := ParseComparison(other, p).value;
    AndLoopReturns(other, l.0, l.1);
  }

  lemma {:induction false} AndLoopReturns(other: Alphabet, left: Expr, p: Cursor)
    requires GoodToken(p.token) && Returnable(left, true) && AndLoop(other, left, p).Some?
    ensures var r := AndLoop(other, left, p).value; Returnable(r.0, true) && GoodToken(r.1.token)
    decreases Measure(p), 2
  {
    hide Step, NextToken, GoodToken, ParseComparison;
    if p.token == Word(Keyword.And) {
      var q := Step(other, p).value;
      StepGood(other, p);
      ComparisonReturns(other, q);
      var r := ParseComparison(other, q).value;
      AndLoopReturns(other, Binary(left, BinaryOperator.And, r.0), r.1);
    }
  }

  lemma {:induction false} ParenthesizedReturns(other: Alphabet, p: Cursor)
    requires p.token == LParen && ParseParenthesized(other, p).Some?
    ensures var r := ParseParenthesized(other, p).value; Returnable(r.0, true) && GoodToken(r.1.token)
    decreases Measure(p), 0
  {
    hide Step, NextToken, GoodToken, Returnable, ParseExpression;
    var q := Step(other, p).value;
    StepGood(other, p);
    ExpressionReturns(other, q);
    StepGood(other, ParseExpression(other, q).value.1);
  }

  lemma {:induction false} ComparisonReturns(other: Alphabet, p: Cursor)
    requires GoodToken(p.token) && ParseComparison(other, p).Some?
    ensures var r := ParseComparison(other, p).value; Returnable(r.0, true) && GoodToken(r.1.token)
    decreases Measure(p), 2
  {
    hide Step, NextToken, GoodToken, ParsePrimary, ParseParenthesized, Atom;
    if p.token == LParen {
      ParenthesizedReturns(other, p);
    } else {
      PrimaryReturns(other, p);
      var l := ParsePrimary(other, p).value;
      StepGood(other, l.1);
      PrimaryReturns(other, Step(other, l.1).value);
    }
  }

  lemma {:induction false} PrimaryReturns(other: Alphabet, p: Cursor)
    requires GoodToken(p.token) && ParsePrimary(other, p).Some?
    ensures var r := ParsePrimary(other, p).value;
            (Atom(r.0, true) || (p.token == LParen && Returnable(r.0, true))) && GoodToken(r.1.token)
    decreases Measure(p), 1
  {
    hide Step, NextToken, ParseParenthesized, ParseAggregate, Returnable, GoodName;
    if p.token == LParen {
      ParenthesizedReturns(other, p);
    } else {
      StepGood(other, p);
      if p.token.Ident? && Step(other, p).value.token == LParen {
        AggregateReturns(other, p.token.name, Step(other, p).value);
      }
    }
  }

  lemma {:induction false} AggregateReturns(other: Alphabet, name: string, p: Cursor)
    requires ParseAggregate(other, name, p).Some?
    ensures var r := ParseAggregate(other, name, p).value; Atom(r.0, true) && GoodToken(r.1.token)
  {
    hide NextToken, GoodName, AggregateNamed, Step;
    StepGood(other, p);
    var q := Step(other, p).value;
    StepGood(other, q);
    StepGood(other, Step(other, q).value);
  }

  predicate NamedAtom(e: Expr) {
    match e
    case Identifier(name) => name != ""
    case Aggregate(_, Identifier(name)) => name != ""
    case _ => true
  }

  /** No identifier of the tree is empty. */
  predicate Named(e: Expr) {
    if e.Binary? then Named(e.left) && Named(e.right) else NamedAtom(e)
  }

  lemma {:induction false} NamedReturnable(e: Expr)
    requires Named(e) && Returnable(e, true)
    ensures Returnable(e, false)
  {
    hide GoodName;
    if Connective(e.op) {
      NamedReturnable(e.left);
      NamedReturnable(e.right);
    } else if Returnable(e.right, true) {
      NamedReturnable(e.right);
    }
  }

  lemma {:induction false} WholeIsParsed(other: Alphabet, s: string)
    ensures ParseWhole(other, s).Some? ==> ParseText(other, s) == ParseWhole(other, s)
  {
    hide ParseExpression, Step;
  }

  /** The trees some text parses to are exactly the returnable ones. */
  lemma {:induction false} ParsedExactly(other: Alphabet, e: Expr)
    requires Named(e)
    ensures Returnable(e, false) <==> exists s :: ParseText(other, s) == Some(e)
  {
    if Returnable(e, false) {
      ExpressionRoundTrip(other, e);
      WholeIsParsed(other, Render(e));
    }
    if s :| ParseText(other, s) == Some(e) {
      StepGood(other, Cursor(EOF, s));
      ExpressionReturns(other, Step(other, Cursor(EOF, s)).value);
      NamedReturnable(e);
    }
  }
}
