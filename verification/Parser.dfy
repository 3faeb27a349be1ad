/** The precedence parser for expressions, over the lexer's tokens. */
module Parsers {
  import opened SortedMap
  import opened Ast
  import opened Lexers

  /** The current token and the input behind it. */
  datatype Cursor = Cursor(token: Token, rest: string)

  type Alphabet = char -> bool

  /** Tokens that took at least one character weigh one. */
  function Weight(t: Token): nat {
    if t == EOF || t == Ident("") then 0 else 1
  }

  /** What is left to read; it shrinks whenever a token of weight is passed. */
  function Measure(p: Cursor): nat {
    2 * |p.rest| + Weight(p.token)
  }

  function Step(other: Alphabet, p: Cursor): (r: Option<Cursor>)
    ensures r.Some? ==> Measure(r.value) <= 2 * |p.rest| <= Measure(p)
  {
    match NextToken(other, p.rest)
    case None => None
    case Some(n) => Some(Cursor(n.0, n.1))
  }

  /** Passes an expected token; another one stops the program. */
  function Expect(other: Alphabet, p: Cursor, t: Token): (r: Option<Cursor>)
    ensures r.Some? ==> Measure(r.value) <= Measure(p)
  {
    if p.token == t then Step(other, p) else None
  }

  /** An expression and the place behind it; None where the parser stops the program. */
  type Parsed = Option<(Expr, Cursor)>

  function ParseExpression(other: Alphabet, p: Cursor): (r: Parsed)
    ensures r.Some? ==> Measure(r.value.1) <= Measure(p)
    decreases Measure(p), 6
  {
    ParseOr(other, p)
  }

  function ParseOr(other: Alphabet, p: Cursor): (r: Parsed)
    ensures r.Some? ==> Measure(r.value.1) <= Measure(p)
    decreases Measure(p), 5
  {
    match ParseAnd(other, p)
    case None => None
    case Some(l) => OrLoop(other, l.0, l.1)
  }

  function OrLoop(other: Alphabet, left: Expr, p: Cursor): (r: Parsed)
    ensures r.Some? ==> Measure(r.value.1) <= Measure(p)
    decreases Measure(p), 4
  {
    if p.token != Word(Keyword.Or) then Some((left, p))
    else
      match Step(other, p)
      case None => None
      case Some(q) =>
        match ParseAnd(other, q)
        case None => None
        case Some(r) => OrLoop(other, Binary(left, BinaryOperator.Or, r.0), r.1)
  }

  function ParseAnd(other: Alphabet, p: Cursor): (r: Parsed)
    ensures r.Some? ==> Measure(r.value.1) <= Measure(p)
    decreases Measure(p), 3
  {
    match ParseComparison(other, p)
    case None => None
    case Some(l) => AndLoop(other, l.0, l.1)
  }

  function AndLoop(other: Alphabet, left: Expr, p: Cursor): (r: Parsed)
    ensures r.Some? ==> Measure(r.value.1) <= Measure(p)
    decreases Measure(p), 2
  {
    if p.token != Word(Keyword.And) then Some((left, p))
    else
      match Step(other, p)
      case None => None
      case Some(q) =>
        match ParseComparison(other, q)
        case None => None
        case Some(r) => AndLoop(other, Binary(left, BinaryOperator.And, r.0), r.1)
  }

  /** The inside of parentheses, and the closing one. */
  function ParseParenthesized(other: Alphabet, p: Cursor): (r: Parsed)
    requires p.token == LParen
    ensures r.Some? ==> Measure(r.value.1) <= Measure(p)
    decreases Measure(p), 0
  {
    match Step(other, p)
    case None => None
    case Some(q) =>
      match ParseExpression(other, q)
      case None => None
      case Some(e) =>
        match Expect(other, e.1, RParen)
        case None => None
        case Some(end) => Some((e.0, end))
  }

  /** A parenthesized expression needs no operator behind it; anything else does. */
  function ParseComparison(other: Alphabet, p: Cursor): (r: Parsed)
    ensures r.Some? ==> Measure(r.value.1) <= Measure(p)
    decreases Measure(p), 2
  {
    if p.token == LParen then ParseParenthesized(other, p)
    else
      match ParsePrimary(other, p)
      case None => None
      case Some(l) =>
        match ComparisonOf(l.1.token)
        case None => None
        case Some(op) =>
          match Step(other, l.1)
          case None => None
          case Some(q) =>
            match ParsePrimary(other, q)
            case None => None
            case Some(r) => Some((Binary(l.0, op, r.0), r.1))
  }

  function ParsePrimary(other: Alphabet, p: Cursor): (r: Parsed)
    ensures r.Some? ==> Measure(r.value.1) <= Measure(p)
    decreases Measure(p), 1
  {
    match p.token
    case LParen => ParseParenthesized(other, p)
    case Num(n) => Behind(Step(other, p), Number(n))
    case Str(s) => Behind(Step(other, p), Expr.Text(s))
    case Ident(name) =>
      (match Step(other, p)
       case None => None
       case Some(q) => if q.token == LParen then ParseAggregate(other, name, q) else Some((Identifier(name), q)))
    case _ => None
  }

  function Behind(p: Option<Cursor>, e: Expr): (r: Parsed) {
    match p
    case None => None
    case Some(q) => Some((e, q))
  }

  function AggregateNamed(name: string): Option<AggregateFunction> {
    var u := Upper(name);
    if u == "COUNT" then Some(AggregateFunction.Count)
    else if u == "MIN" then Some(Min)
    else if u == "MAX" then Some(Max)
    else if u == "SUM" then Some(Sum)
    else if u == "AVG" then Some(Avg)
    else None
  }

  /** COUNT takes a star, the others a column. */
  function ParseAggregate(other: Alphabet, name: string, p: Cursor): (r: Parsed)
    ensures r.Some? ==> Measure(r.value.1) <= Measure(p)
  {
    match (Expect(other, p, LParen), AggregateNamed(name))
    case (Some(q), Some(kind)) =>
      if kind.Count? then
        match Expect(other, q, Star)
        case None => None
        case Some(x) => Behind(Expect(other, x, RParen), Aggregate(kind, Wildcard))
      else if q.token.Ident? then
        match Step(other, q)
        case None => None
        case Some(x) => Behind(Expect(other, x, RParen), Aggregate(kind, Identifier(q.token.name)))
      else None
    case _ => None
  }

  function ComparisonOf(t: Token): Option<BinaryOperator> {
    match t
    case Eq => Some(Equal)
    case Ne => Some(NotEqual)
    case Gt => Some(GreaterThan)
    case Ge => Some(GreaterThanOrEqual)
    case Lt => Some(LessThan)
    case Le => Some(LessThanOrEqual)
    case _ => None
  }

  /** Lexing and parsing a text; what follows the expression is not looked at. */
  function ParseText(other: Alphabet, s: string): Option<Expr> {
    match Step(other, Cursor(EOF, s))
    case None => None
    case Some(p) =>
      match ParseExpression(other, p)
      case None => None
      case Some(r) => Some(r.0)
  }

  /** Parsing a text that is an expression and nothing more. */
  function ParseWhole(other: Alphabet, s: string): Option<Expr> {
    match Step(other, Cursor(EOF, s))
    case None => None
    case Some(p) =>
      match ParseExpression(other, p)
      case Some((e, q)) => if q.token == EOF then Some(e) else None
      case None => None
  }

  class SQLParser {
    const lexer: Lexer
    var currentToken: Token

    ghost predicate Valid()
      reads this, lexer
    {
      lexer.Valid()
    }

    function State(): Cursor
      requires Valid()
      reads this, lexer
    {
      Cursor(currentToken, lexer.Rest())
    }

    /** A parser before its first token is read. */
    constructor (lexer: Lexer)
      requires lexer.Valid()
      ensures Valid() && this.lexer == lexer && State() == Cursor(EOF, lexer.Rest())
    {
      this.lexer := lexer;
      currentToken := EOF;
    }

    method Advance() returns (ok: bool)
      requires Valid()
      modifies this, lexer
      ensures Valid() && ok == Step(lexer.other, old(State())).Some?
      ensures ok ==> State() == Step(lexer.other, old(State())).value
    {
      var token := lexer.Next();
      if token.None? {
        return false;
      }
      currentToken := token.value;
      return true;
    }

    method ExpectToken(t: Token) returns (ok: bool)
      requires Valid()
      modifies this, lexer
      ensures Valid() && ok == Expect(lexer.other, old(State()), t).Some?
      ensures ok ==> State() == Expect(lexer.other, old(State()), t).value
    {
      if currentToken != t {
        return false;
      }
      ok := Advance();
    }

    /** The answer of a parsing method: None stops the program, else the parser stands behind the expression. */
    ghost predicate Answers(e: Option<Expr>, r: Parsed)
      requires Valid()
      reads this, lexer
    {
      match r
      case None => e == None
      case Some(p) => e == Some(p.0) && State() == p.1
    }

    method Expression() returns (e: Option<Expr>)
      requires Valid()
      modifies this, lexer
      ensures Valid() && Answers(e, ParseExpression(lexer.other, old(State())))
      decreases Measure(State()), 6
    {
      e := Disjunction();
    }

    method Disjunction() returns (e: Option<Expr>)
      requires Valid()
      modifies this, lexer
      ensures Valid() && Answers(e, ParseOr(lexer.other, old(State())))
      decreases Measure(State()), 5
    {
      hide ParseAnd, NextToken, Step;
      var first := Conjunction();
      if first.None? {
        return None;
      }
      var left := first.value;
      while currentToken == Word(Keyword.Or)
        invariant Valid() && Measure(State()) <= old(Measure(State()))
        invariant OrLoop(lexer.other, left, State()) == ParseOr(lexer.other, old(State()))
        decreases Measure(State())
      {
        var ok := Advance();
        if !ok {
          return None;
        }
        var right := Conjunction();
        if right.None? {
          return None;
        }
        left := Binary(left, BinaryOperator.Or, right.value);
      }
      return Some(left);
    }

    method Conjunction() returns (e: Option<Expr>)
      requires Valid()
      modifies this, lexer
      ensures Valid() && Answers(e, ParseAnd(lexer.other, old(State())))
      decreases Measure(State()), 3
    {
      hide ParseComparison, NextToken, Step;
      var first := Comparison();
      if first.None? {
        return None;
      }
      var left := first.value;
      while currentToken == Word(Keyword.And)
        invariant Valid() && Measure(State()) <= old(Measure(State()))
        invariant AndLoop(lexer.other, left, State()) == ParseAnd(lexer.other, old(State()))
        decreases Measure(State())
      {
        var ok := Advance();
        if !ok {
          return None;
        }
        var right := Comparison();
        if right.None? {
          return None;
        }
        left := Binary(left, BinaryOperator.And, right.value);
      }
      return Some(left);
    }

    method Parenthesized() returns (e: Option<Expr>)
      requires Valid() && currentToken == LParen
      modifies this, lexer
      ensures Valid() && Answers(e, ParseParenthesized(lexer.other, old(State())))
      decreases Measure(State()), 0
    {
      hide ParseExpression, NextToken;
      var ok := Advance();
      if !ok {
        return None;
      }
      e := Expression();
      if e.None? {
        return None;
      }
      ok := ExpectToken(RParen);
      if !ok {
        return None;
      }
    }

    method Comparison() returns (e: Option<Expr>)
      requires Valid()
      modifies this, lexer
      ensures Valid() && Answers(e, ParseComparison(lexer.other, old(State())))
      decreases Measure(State()), 2
    {
      hide ParsePrimary, ParseParenthesized, NextToken;
      if currentToken == LParen {
        e := Parenthesized();
        return;
      }
      var left := Primary();
      if left.None? {
        return None;
      }
      var op := ComparisonOf(currentToken);
      if op.None? {
        return None;
      }
      var ok := Advance();
      if !ok {
        return None;
      }
      var right := Primary();
      if right.None? {
        return None;
      }
      return Some(Binary(left.value, op.value, right.value));
    }

    method Primary() returns (e: Option<Expr>)
      requires Valid()
      modifies this, lexer
      ensures Valid() && Answers(e, ParsePrimary(lexer.other, old(State())))
      decreases Measure(State()), 1
    {
      hide ParseParenthesized, NextToken, ParseAggregate;
      match currentToken {
        case LParen =>
          e := Parenthesized();
        case Num(n) =>
          var ok := Advance();
          e := if ok then Some(Number(n)) else None;
        case Str(s) =>
          var ok := Advance();
          e := if ok then Some(Expr.Text(s)) else None;
        case Ident(name) =>
          var ok := Advance();
          if !ok {
            return None;
          }
          if currentToken == LParen {
            e := AggregateCall(name);
          } else {
            e := Some(Identifier(name));
          }
        case _ =>
          e := None;
      }
    }

    method AggregateCall(name: string) returns (e: Option<Expr>)
      requires Valid()
      modifies this, lexer
      ensures Valid() && Answers(e, ParseAggregate(lexer.other, name, old(State())))
    {
      hide NextToken, AggregateNamed;
      var ok := ExpectToken(LParen);
      if !ok {
        return None;
      }
      var kind := AggregateNamed(name);
      if kind.None? {
        return None;
      }
      var argument := Wildcard;
      if kind.value.Count? {
        ok := ExpectToken(Star);
      } else if currentToken.Ident? {
        argument := Identifier(currentToken.name);
        ok := Advance();
      } else {
        return None;
      }
      if !ok {
        return None;
      }
      ok := ExpectToken(RParen);
      e := if ok then Some(Aggregate(kind.value, argument)) else None;
    }
  }
}
