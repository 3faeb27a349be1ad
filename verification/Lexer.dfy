/** Tokens, and the lexer that reads them off the input one by one. */
module Lexers {
  import opened Seqs
  import opened SortedMap
  import opened Decimal
  import opened Text

  datatype Keyword =
    | Select | Insert | Delete | Update | Create | Set | From | Where | Into | Values | Table | Order | By | Limit
    | Asc | Desc | Index | On | And | Or | Primary | Key | Group | Having | Distinct

  datatype Token =
    | Word(keyword: Keyword)
    | Ident(name: string)
    | Num(number: int)
    | Str(text: string)
    | Star | Eq | Ne | Gt | Ge | Lt | Le
    | LParen | RParen | Comma | Semicolon
    | EOF

  predicate IsAsciiLetter(c: char) {
    'a' <= c <= 'z' || 'A' <= c <= 'Z'
  }

  predicate IsWordChar(c: char) {
    IsAsciiLetter(c) || IsDigit(c) || c == '_'
  }

  /** The codes of the characters a word consists of. */
  lemma {:induction false} WordCodes(c: char)
    ensures IsWordChar(c) <==> 48 <= c as int <= 57 || 65 <= c as int <= 90 || c as int == 95 || 97 <= c as int <= 122
  {
  }

  /** char::is_alphabetic; beyond ASCII it is whatever `other` says. */
  predicate IsAlphabetic(other: char -> bool, c: char) {
    IsAsciiLetter(c) || (c as int >= 0x80 && other(c))
  }

  function UpperChar(c: char): char {
    if 'a' <= c <= 'z' then (c as int - 32) as char else c
  }

  /** str::to_ascii_uppercase */
  function Upper(s: string): (u: string)
    ensures |u| == |s|
  {
    seq(|s|, i requires 0 <= i < |s| => UpperChar(s[i]))
  }

  function EarlyKeyword(u: string): Option<Keyword> {
    if u == "SELECT" then Some(Select)
    else if u == "INSERT" then Some(Insert)
    else if u == "DELETE" then Some(Delete)
    else if u == "UPDATE" then Some(Update)
    else if u == "CREATE" then Some(Create)
    else if u == "SET" then Some(Set)
    else if u == "FROM" then Some(From)
    else if u == "WHERE" then Some(Where)
    else None
  }

  function MiddleKeyword(u: string): Option<Keyword> {
    if u == "INTO" then Some(Into)
    else if u == "VALUES" then Some(Values)
    else if u == "TABLE" then Some(Table)
    else if u == "ORDER" then Some(Order)
    else if u == "BY" then Some(By)
    else if u == "LIMIT" then Some(Limit)
    else if u == "ASC" then Some(Asc)
    else if u == "DESC" then Some(Desc)
    else None
  }

  function LateKeyword(u: string): Option<Keyword> {
    if u == "INDEX" then Some(Index)
    else if u == "ON" then Some(On)
    else if u == "AND" then Some(And)
    else if u == "OR" then Some(Or)
    else if u == "PRIMARY" then Some(Primary)
    else if u == "KEY" then Some(Key)
    else if u == "GROUP" then Some(Group)
    else if u == "HAVING" then Some(Having)
    else if u == "DISTINCT" then Some(Distinct)
    else None
  }

  function LookupKeyword(name: string): Token {
    var u := Upper(name);
    match (EarlyKeyword(u), MiddleKeyword(u), LateKeyword(u))
    case (Some(k), _, _) => Word(k)
    case (_, Some(k), _) => Word(k)
    case (_, _, Some(k)) => Word(k)
    case _ => Ident(name)
  }

  /** How many leading characters are white space, word characters, digits, not a quote. */
  function Spaces(s: string): (n: nat)
    ensures n <= |s| && (n < |s| ==> !IsWhitespace(s[n]))
  {
    if s != [] && IsWhitespace(s[0]) then 1 + Spaces(s[1..]) else 0
  }

  function WordLength(s: string): (n: nat)
    ensures n <= |s| && (n < |s| ==> !IsWordChar(s[n])) && forall i :: 0 <= i < n ==> IsWordChar(s[i])
  {
    if s != [] && IsWordChar(s[0]) then 1 + WordLength(s[1..]) else 0
  }

  function DigitCount(s: string): (n: nat)
    ensures n <= |s| && (n < |s| ==> !IsDigit(s[n])) && AllDigits(s[..n])
  {
    if s != [] && IsDigit(s[0]) then
      var n := DigitCount(s[1..]);
      assert s[..n + 1] == [s[0]] + s[1..][..n];
      1 + n
    else 0
  }

  function QuoteFree(s: string): (n: nat)
    ensures n <= |s| && (n < |s| ==> s[n] == '\'') && Free(s[..n], '\'')
  {
    if s != [] && s[0] != '\'' then
      var n := QuoteFree(s[1..]);
      assert s[..n + 1] == [s[0]] + s[1..][..n];
      1 + n
    else 0
  }

  /** The next token and what is left of the input; None where the lexer stops the program. */
  function NextToken(other: char -> bool, s: string): (r: Option<(Token, string)>)
    ensures r.Some? ==> |r.value.1| <= |s|
    ensures r.Some? && r.value.0 != EOF && r.value.0 != Ident("") ==> |r.value.1| < |s|
  {
    var t := s[Spaces(s)..];
    if t == [] then Some((EOF, []))
    else if IsAlphabetic(other, t[0]) || t[0] == '_' then
      var n := WordLength(t);
      LookupEmpty();
      assert n == 0 ==> t[..n] == "";
      Some((LookupKeyword(t[..n]), t[n..]))
    else if IsDigit(t[0]) then
      var n := DigitCount(t);
      if Value(t[..n]) > I64_MAX then None else Some((Num(Value(t[..n])), t[n..]))
    else if t[0] == '\'' then
      var n := QuoteFree(t[1..]);
      Some((Str(t[1..][..n]), if n < |t| - 1 then t[n + 2..] else []))
    else if t[0] == '*' then Some((Star, t[1..]))
    else if t[0] == '=' then Some((Eq, t[1..]))
    else if t[0] == '!' then if |t| > 1 && t[1] == '=' then Some((Ne, t[2..])) else None
    else if t[0] == '>' then if |t| > 1 && t[1] == '=' then Some((Ge, t[2..])) else Some((Gt, t[1..]))
    else if t[0] == '<' then if |t| > 1 && t[1] == '=' then Some((Le, t[2..])) else Some((Lt, t[1..]))
    else if t[0] == '(' then Some((LParen, t[1..]))
    else if t[0] == ')' then Some((RParen, t[1..]))
    else if t[0] == ',' then Some((Comma, t[1..]))
    else if t[0] == ';' then Some((Semicolon, t[1..]))
    else None
  }

  lemma {:induction false} LookupEmpty()
    ensures LookupKeyword("") == Ident("")
  {
    assert Upper("") == "";
  }

  function KeywordText(k: Keyword): string {
    match k
    case Select => "SELECT" case Insert => "INSERT" case Delete => "DELETE" case Update => "UPDATE"
    case Create => "CREATE" case Set => "SET" case From => "FROM" case Where => "WHERE" case Into => "INTO"
    case Values => "VALUES" case Table => "TABLE" case Order => "ORDER" case By => "BY" case Limit => "LIMIT"
    case Asc => "ASC" case Desc => "DESC" case Index => "INDEX" case On => "ON" case And => "AND" case Or => "OR"
    case Primary => "PRIMARY" case Key => "KEY" case Group => "GROUP" case Having => "HAVING" case Distinct => "DISTINCT"
  }

  /** The text in capitals, or with small letters for some of them. */
  predicate Cased(w: string, capitals: string) {
    |w| == |capitals| && forall i :: 0 <= i < |w| ==> w[i] == capitals[i] || w[i] as int == capitals[i] as int + 32
  }

  /** A name the lexer reads as an identifier: no keyword in any letter case. */
  predicate GoodName(name: string) {
    && name != "" && !IsDigit(name[0])
    && (forall i :: 0 <= i < |name| ==> IsWordChar(name[i]))
    && forall k: Keyword :: !Cased(name, KeywordText(k))
  }

  /** A token the lexer can produce. */
  predicate GoodToken(t: Token) {
    match t
    case Ident(name) => name == "" || GoodName(name)
    case Num(n) => 0 <= n <= I64_MAX
    case Str(s) => Free(s, '\'')
    case _ => true
  }

  lemma {:induction false} QuoteStep(input: string, i: nat)
    requires i < |input| && input[i] != '\''
    ensures QuoteFree(input[i..]) == 1 + QuoteFree(input[i + 1..])
  {
    assert input[i..][1..] == input[i + 1..] && input[i..][0] == input[i];
  }

  lemma {:induction false} QuoteEnd(input: string, i: nat)
    requires i <= |input| && (i < |input| ==> input[i] == '\'')
    ensures QuoteFree(input[i..]) == 0
  {
  }

  /** The parts of what is left at a quote, `n` characters before the closing one or the end. */
  lemma {:induction false} StringSlices(input: string, i: nat, n: nat)
    requires i + 1 + n <= |input|
    ensures input[i..][1..] == input[i + 1..] && input[i..][1..][..n] == input[i + 1..i + 1 + n]
    ensures i + 2 + n <= |input| ==> input[i..][n + 2..] == input[i + n + 2..]
    ensures i + 1 + n == |input| ==> input[i + 1 + n..] == []
  {
  }

  lemma {:induction false} KeywordOrName(name: string)
    ensures LookupKeyword(name) == Ident(name) || LookupKeyword(name).Word?
  {
    hide Upper, EarlyKeyword, MiddleKeyword, LateKeyword;
  }

  function TokenText(t: Token): string {
    match t
    case Word(k) => KeywordText(k)
    case Ident(name) => name
    case Num(n) => ToString(n)
    case Str(s) => "'" + s + "'"
    case Star => "*" case Eq => "=" case Ne => "!=" case Gt => ">" case Ge => ">=" case Lt => "<" case Le => "<="
    case LParen => "(" case RParen => ")" case Comma => "," case Semicolon => ";" case EOF => ""
  }

  /** A token with a text of its own. */
  predicate Printable(t: Token) {
    GoodToken(t) && t != EOF && t != Ident("")
  }

  predicate SpaceFirst(more: string) {
    more == "" || more[0] == ' '
  }

  predicate AllWhite(s: string) {
    forall i :: 0 <= i < |s| ==> IsWhitespace(s[i])
  }

  /** The texts that stand for a token: keywords in any letter case, numbers with any zeros in front. */
  predicate Spelled(t: Token, w: string) {
    match t
    case Word(k) => Cased(w, KeywordText(k))
    case Ident(name) => GoodName(name) && w == name
    case Num(n) => w != "" && AllDigits(w) && Value(w) == n <= I64_MAX
    case Str(s) => Free(s, '\'') && w == "'" + s + "'"
    case EOF => false
    case _ => w == TokenText(t)
  }

  /** What may stand directly behind a token without becoming part of it. */
  predicate Ends(t: Token, more: string) {
    match t
    case Word(_) => more == "" || !IsWordChar(more[0])
    case Ident(_) => more == "" || !IsWordChar(more[0])
    case Num(_) => more == "" || !IsDigit(more[0])
    case Gt => more == "" || more[0] != '='
    case Lt => more == "" || more[0] != '='
    case _ => true
  }

  /** A string that is never closed. */
  predicate Unclosed(t: Token, w: string, more: string) {
    t.Str? && Free(t.text, '\'') && w == "'" + t.text && more == ""
  }

  /** A letter beyond ASCII, in front of which the lexer reads an empty name. */
  predicate StrangeLetter(other: char -> bool, more: string) {
    more != "" && more[0] as int >= 0x80 && other(more[0]) && !IsWhitespace(more[0])
  }

  /** White space, the token's text `w`, and what is left. */
  ghost predicate Splits(other: char -> bool, s: string, t: Token, more: string, space: string, w: string) {
    && s == space + (w + more) && AllWhite(space)
    && if t == EOF then w == "" && more == ""
       else if t == Ident("") then w == "" && StrangeLetter(other, more)
       else (Spelled(t, w) && Ends(t, more)) || Unclosed(t, w, more)
  }

  /** The text begins, behind any white space, with this token. */
  ghost predicate Begins(other: char -> bool, s: string, t: Token, more: string) {
    exists space, w :: Splits(other, s, t, more, space, w)
  }

  lemma {:induction false} CapitalKeyword(k: Keyword)
    ensures KeywordText(k) != "" && forall i :: 0 <= i < |KeywordText(k)| ==> 'A' <= KeywordText(k)[i] <= 'Z'
  {
  }

  /** Upper-casing gives capitals exactly for their spellings. */
  lemma {:induction false} UpperExactly(w: string, capitals: string)
    requires forall i :: 0 <= i < |capitals| ==> 'A' <= capitals[i] <= 'Z'
    ensures Upper(w) == capitals <==> Cased(w, capitals)
  {
    forall i | 0 <= i < |w| && i < |capitals|
      ensures Upper(w)[i] == capitals[i] <==> w[i] == capitals[i] || w[i] as int == capitals[i] as int + 32
    {
      OneLetter(w[i], capitals[i]);
    }
    if Upper(w) == capitals {
      assert forall i :: 0 <= i < |w| ==> Upper(w)[i] == capitals[i];
    }
  }

  lemma {:induction false} OneLetter(c: char, capital: char)
    requires 'A' <= capital <= 'Z'
    ensures UpperChar(c) == capital <==> c == capital || c as int == capital as int + 32
  {
  }

  predicate IsEarly(k: Keyword) {
    k.Select? || k.Insert? || k.Delete? || k.Update? || k.Create? || k.Set? || k.From? || k.Where?
  }

  lemma {:induction false} EarlyReads(k: Keyword)
    requires IsEarly(k)
    ensures EarlyKeyword(KeywordText(k)) == Some(k)
  {
  }

  lemma {:induction false} EarlyFound(u: string)
    ensures var k := EarlyKeyword(u); k.Some? ==> IsEarly(k.value) && u == KeywordText(k.value)
  {
  }

  predicate IsMiddle(k: Keyword) {
    k.Into? || k.Values? || k.Table? || k.Order? || k.By? || k.Limit? || k.Asc? || k.Desc?
  }

  lemma {:induction false} MiddleReads(k: Keyword)
    requires IsMiddle(k)
    ensures MiddleKeyword(KeywordText(k)) == Some(k)
  {
  }

  lemma {:induction false} MiddleFound(u: string)
    ensures var k := MiddleKeyword(u); k.Some? ==> IsMiddle(k.value) && u == KeywordText(k.value)
  {
  }

  predicate IsLate(k: Keyword) {
    k.Index? || k.On? || k.And? || k.Or? || k.Primary? || k.Key? || k.Group? || k.Having? || k.Distinct?
  }

  lemma {:induction false} LateReads(k: Keyword)
    requires IsLate(k)
    ensures LateKeyword(KeywordText(k)) == Some(k)
  {
  }

  lemma {:induction false} LateFound(u: string)
    ensures var k := LateKeyword(u); k.Some? ==> IsLate(k.value) && u == KeywordText(k.value)
  {
  }

  lemma {:induction false} TextsDiffer(j: Keyword, k: Keyword)
    requires KeywordText(j) == KeywordText(k)
    ensures j == k
  {
  }

  /** A word is a keyword exactly when it spells it, in whatever letter case. */
  lemma {:induction false} KeywordExactly(k: Keyword, w: string)
    ensures LookupKeyword(w) == Word(k) <==> Cased(w, KeywordText(k))
  {
    CapitalKeyword(k);
    UpperExactly(w, KeywordText(k));
    hide EarlyKeyword, MiddleKeyword, LateKeyword, KeywordText, Upper, Cased;
    var u := Upper(w);
    EarlyFound(u);
    MiddleFound(u);
    LateFound(u);
    if IsEarly(k) {
      EarlyReads(k);
    } else if IsMiddle(k) {
      MiddleReads(k);
    } else {
      LateReads(k);
    }
    forall j: Keyword | KeywordText(j) == KeywordText(k)
      ensures j == k
    {
      TextsDiffer(j, k);
    }
  }

  /** Every other word is an identifier as it stands. */
  lemma {:induction false} OtherWordsAreNames(w: string)
    ensures LookupKeyword(w) == Ident(w) <==> forall k: Keyword :: !Cased(w, KeywordText(k))
  {
    KeywordOrName(w);
    hide LookupKeyword, KeywordText, Cased;
    forall k: Keyword
      ensures LookupKeyword(w) == Word(k) <==> Cased(w, KeywordText(k))
    {
      KeywordExactly(k, w);
    }
    if LookupKeyword(w).Word? {
      assert LookupKeyword(w) == Word(LookupKeyword(w).keyword);
    }
  }

  /** Words of letters, digits and underscores that do not begin with a digit are keywords or good names. */
  lemma {:induction false} WordExactly(w: string, t: Token)
    requires w != "" && !IsDigit(w[0]) && forall i :: 0 <= i < |w| ==> IsWordChar(w[i])
    ensures LookupKeyword(w) == t <==> (t.Word? || t.Ident?) && Spelled(t, w)
  {
    KeywordOrName(w);
    OtherWordsAreNames(w);
    hide LookupKeyword, KeywordText, Cased, IsWordChar, IsDigit;
    if t.Word? {
      KeywordExactly(t.keyword, w);
    }
  }

  lemma {:induction false} CasedIsWord(w: string, capitals: string)
    requires Cased(w, capitals) && capitals != "" && forall i :: 0 <= i < |capitals| ==> 'A' <= capitals[i] <= 'Z'
    ensures w != "" && !IsDigit(w[0]) && forall i :: 0 <= i < |w| ==> IsWordChar(w[i]) && IsAsciiLetter(w[i])
  {
  }

  lemma {:induction false} SpelledWord(t: Token, w: string)
    requires (t.Word? || t.Ident?) && Spelled(t, w)
    ensures w != "" && !IsDigit(w[0]) && forall i :: 0 <= i < |w| ==> IsWordChar(w[i])
  {
    if t.Word? {
      CapitalKeyword(t.keyword);
      hide KeywordText;
      CasedIsWord(w, KeywordText(t.keyword));
    }
  }

  lemma {:induction false} SpacesOf(space: string, text: string)
    requires AllWhite(space) && (text == "" || !IsWhitespace(text[0]))
    ensures Spaces(space + text) == |space| && (space + text)[|space|..] == text
  {
    hide IsWhitespace;
    if space == "" {
      assert space + text == text;
    } else {
      assert (space + text)[1..] == space[1..] + text && (space + text)[0] == space[0];
      SpacesOf(space[1..], text);
    }
  }

  lemma {:induction false} SpacesAreWhite(s: string)
    ensures AllWhite(s[..Spaces(s)])
  {
    hide IsWhitespace;
    if s != [] && IsWhitespace(s[0]) {
      SpacesAreWhite(s[1..]);
      assert s[..Spaces(s)] == [s[0]] + s[1..][..Spaces(s[1..])];
    }
  }

  lemma {:induction false} WordOf(text: string, more: string)
    requires (forall i :: 0 <= i < |text| ==> IsWordChar(text[i])) && (more == "" || !IsWordChar(more[0]))
    ensures WordLength(text + more) == |text|
  {
    hide IsWordChar;
    if text == [] {
      assert text + more == more;
    } else {
      assert (text + more)[1..] == text[1..] + more && (text + more)[0] == text[0];
      WordOf(text[1..], more);
    }
  }

  lemma {:induction false} DigitsOf(text: string, more: string)
    requires AllDigits(text) && (more == "" || !IsDigit(more[0]))
    ensures DigitCount(text + more) == |text|
  {
    hide IsDigit;
    if text == [] {
      assert text + more == more;
    } else {
      assert (text + more)[1..] == text[1..] + more && (text + more)[0] == text[0];
      DigitsOf(text[1..], more);
    }
  }

  lemma {:induction false} QuotedOf(text: string, more: string)
    requires Free(text, '\'') && (more == "" || more[0] == '\'')
    ensures QuoteFree(text + more) == |text|
  {
    if text == [] {
      assert text + more == more;
    } else {
      assert (text + more)[1..] == text[1..] + more && (text + more)[0] == text[0];
      QuotedOf(text[1..], more);
    }
  }

  /** A number's or a word's first character. */
  lemma {:induction false} WordCharFacts(c: char)
    requires IsWordChar(c)
    ensures !IsWhitespace(c)
    ensures !IsDigit(c) ==> IsAsciiLetter(c) || c == '_'
    ensures IsDigit(c) ==> !IsAsciiLetter(c) && c != '_' && c as int < 0x80
  {
  }

  lemma {:induction false} WordReads(other: char -> bool, s: string, t: Token, more: string, space: string, w: string)
    requires s == space + (w + more) && AllWhite(space) && (t.Word? || t.Ident?) && Spelled(t, w) && Ends(t, more)
    ensures NextToken(other, s) == Some((t, more))
  {
    SpelledWord(t, w);
    WordExactly(w, t);
    WordCharFacts(w[0]);
    hide LookupKeyword, KeywordText, Cased, IsWhitespace, IsWordChar, IsDigit, AllWhite, Spelled;
    assert (w + more)[0] == w[0];
    SpacesOf(space, w + more);
    WordOf(w, more);
    Halves(w, more);
  }

  lemma {:induction false} NumberReads(other: char -> bool, s: string, n: int, more: string, space: string, w: string)
    requires s == space + (w + more) && AllWhite(space) && Spelled(Num(n), w) && Ends(Num(n), more)
    ensures NextToken(other, s) == Some((Num(n), more))
  {
    assert IsDigit(w[0]);
    WordCharFacts(w[0]);
    hide LookupKeyword, IsWhitespace, IsWordChar, IsDigit, AllWhite, AllDigits, Value;
    assert (w + more)[0] == w[0];
    SpacesOf(space, w + more);
    DigitsOf(w, more);
    Halves(w, more);
  }

  lemma {:induction false} QuoteFacts()
    ensures !IsWhitespace('\'') && !IsAsciiLetter('\'') && !IsDigit('\'')
  {
  }

  lemma {:induction false} StringReads(other: char -> bool, s: string, text: string, more: string, space: string)
    requires s == space + ("'" + text + "'" + more) && AllWhite(space) && Free(text, '\'')
    ensures NextToken(other, s) == Some((Str(text), more))
  {
    QuoteFacts();
    hide QuoteFree, Spaces, WordLength, DigitCount, LookupKeyword, IsWhitespace, IsDigit, IsAsciiLetter, AllWhite, Free, Value;
    var t := "'" + text + "'" + more;
    SpacesOf(space, t);
    assert t[1..] == text + ("'" + more) && t[0] == '\'';
    QuotedOf(text, "'" + more);
    Halves(text, "'" + more);
    assert t[|text| + 2..] == more;
  }

  lemma {:induction false} UnclosedReads(other: char -> bool, s: string, text: string, space: string)
    requires s == space + ("'" + text) && AllWhite(space) && Free(text, '\'')
    ensures NextToken(other, s) == Some((Str(text), ""))
  {
    QuoteFacts();
    hide QuoteFree, Spaces, WordLength, DigitCount, LookupKeyword, IsWhitespace, IsDigit, IsAsciiLetter, AllWhite, Free, Value;
    var t := "'" + text;
    SpacesOf(space, t);
    assert t[1..] == text && t[0] == '\'';
    ConcatNothing(text);
    QuotedOf(text, "");
    TakeAll(text);
  }

  predicate Symbol(t: Token) {
    !t.Word? && !t.Ident? && !t.Num? && !t.Str? && t != EOF
  }

  lemma {:induction false} SymbolFacts(t: Token)
    requires Symbol(t)
    ensures TokenText(t) != "" && !IsWhitespace(TokenText(t)[0])
  {
  }

  lemma {:induction false} SymbolReads(other: char -> bool, s: string, t: Token, more: string, space: string)
    requires s == space + (TokenText(t) + more) && AllWhite(space) && Symbol(t) && Ends(t, more)
    ensures NextToken(other, s) == Some((t, more))
  {
    SymbolFacts(t);
    hide LookupKeyword, KeywordText, NextToken, Spaces, IsWhitespace, AllWhite, TokenText;
    var text := TokenText(t);
    assert (text + more)[0] == text[0];
    SpacesOf(space, text + more);
    Halves(text, more);
    if t.Ne? || t.Ge? || t.Le? {
      DoubleReads(other, t, s, text + more);
    } else {
      SingleReads(other, t, s, text + more);
    }
  }

  lemma {:induction false} DoubleReads(other: char -> bool, t: Token, input: string, s: string)
    requires (t.Ne? || t.Ge? || t.Le?) && input[Spaces(input)..] == s
    requires TokenText(t) <= s
    ensures |TokenText(t)| == 2 && NextToken(other, input) == Some((t, s[2..]))
  {
    hide LookupKeyword, KeywordText, WordLength, DigitCount, QuoteFree, Value, IsWhitespace, Spaces;
    assert s[0] == TokenText(t)[0] && s[1] == TokenText(t)[1];
  }

  lemma {:induction false} SingleReads(other: char -> bool, t: Token, input: string, s: string)
    requires Symbol(t) && !(t.Ne? || t.Ge? || t.Le?)
    requires input[Spaces(input)..] == s && TokenText(t) <= s && Ends(t, s[|TokenText(t)|..])
    ensures |TokenText(t)| == 1 && NextToken(other, input) == Some((t, s[1..]))
  {
    hide LookupKeyword, KeywordText, WordLength, DigitCount, QuoteFree, Value, IsWhitespace, Spaces;
    assert s[0] == TokenText(t)[0];
    assert |s| > 1 ==> s[1..][0] == s[1];
  }

  lemma {:induction false} EndReads(other: char -> bool, s: string)
    requires AllWhite(s)
    ensures NextToken(other, s) == Some((EOF, ""))
  {
    hide IsWhitespace, AllWhite;
    ConcatNothing(s);
    SpacesOf(s, "");
  }

  lemma {:induction false} StrangeFacts(other: char -> bool, c: char)
    requires c as int >= 0x80
    ensures IsAlphabetic(other, c) <==> other(c)
    ensures !IsWordChar(c)
  {
  }

  lemma {:induction false} StrangeReads(other: char -> bool, s: string, more: string, space: string)
    requires s == space + more && AllWhite(space) && StrangeLetter(other, more)
    ensures NextToken(other, s) == Some((Ident(""), more))
  {
    StrangeFacts(other, more[0]);
    LookupEmpty();
    hide IsWhitespace, AllWhite, LookupKeyword, IsWordChar, IsAlphabetic;
    SpacesOf(space, more);
    assert WordLength(more) == 0;
  }

  /** Whatever spells a token reads as that token. */
  lemma {:induction false} SplitReads(other: char -> bool, s: string, t: Token, more: string, space: string, w: string)
    requires Splits(other, s, t, more, space, w)
    ensures NextToken(other, s) == Some((t, more))
  {
    hide NextToken, AllWhite, StrangeLetter, Cased, KeywordText, GoodName, AllDigits, Value, Free;
    if t == EOF {
      assert s == space;
      EndReads(other, s);
    } else if t == Ident("") {
      assert w + more == more;
      StrangeReads(other, s, more, space);
    } else if Unclosed(t, w, more) {
      ConcatNothing(w);
      UnclosedReads(other, s, t.text, space);
    } else if t.Word? || t.Ident? {
      WordReads(other, s, t, more, space, w);
    } else if t.Num? {
      NumberReads(other, s, t.number, more, space, w);
    } else if t.Str? {
      StringReads(other, s, t.text, more, space);
    } else {
      SymbolReads(other, s, t, more, space);
    }
  }

  /** What is read is spelled in front of what is left. */
  lemma {:induction false} ReadSplits(other: char -> bool, s: string) returns (space: string, w: string)
    requires NextToken(other, s).Some?
    ensures var r := NextToken(other, s).value; Splits(other, s, r.0, r.1, space, w)
  {
    hide AllWhite, GoodName, KeywordText, LookupKeyword, WordLength, DigitCount, QuoteFree, Value, Spelled, Ends, Unclosed, StrangeLetter;
    space := s[..Spaces(s)];
    var text := s[Spaces(s)..];
    SpacesAreWhite(s);
    TakeDrop(s, Spaces(s));
    var r := NextToken(other, s).value;
    w := text[..|text| - |r.1|];
    if text == "" {
    } else if IsAlphabetic(other, text[0]) || text[0] == '_' {
      w := WordSplits(other, s, text);
    } else if IsDigit(text[0]) {
      w := NumberSplits(other, s, text);
    } else if text[0] == '\'' {
      w := StringSplits(other, s, text);
    } else {
      w := SymbolSplits(other, s, text);
    }
    assert space + (w + r.1) == s;
  }

  /** A token and its text at the beginning of a text without white space in front. */
  ghost predicate Reads(other: char -> bool, text: string, t: Token, more: string, w: string) {
    && text == w + more && t != EOF
    && if t == Ident("") then w == "" && StrangeLetter(other, more)
       else (Spelled(t, w) && Ends(t, more)) || Unclosed(t, w, more)
  }

  lemma {:induction false} WordSplits(other: char -> bool, s: string, text: string) returns (w: string)
    requires text == s[Spaces(s)..] && text != "" && (IsAlphabetic(other, text[0]) || text[0] == '_')
    ensures var r := NextToken(other, s); r.Some? && Reads(other, text, r.value.0, r.value.1, w)
  {
    var n := WordLength(text);
    w := text[..n];
    TakeDrop(text, n);
    assert !IsWhitespace(text[0]);
    assert !IsDigit(text[0]);
    LookupEmpty();
    if n == 0 {
      assert !IsWordChar(text[0]);
      assert w == "" && text[n..] == text;
    } else {
      assert w[0] == text[0];
      KeywordOrName(w);
      WordExactly(w, LookupKeyword(w));
      hide LookupKeyword, KeywordText, Cased, Spelled, IsWhitespace, IsDigit, IsAlphabetic;
      assert n < |text| ==> text[n..][0] == text[n];
    }
  }

  lemma {:induction false} NumberSplits(other: char -> bool, s: string, text: string) returns (w: string)
    requires text == s[Spaces(s)..] && text != "" && IsDigit(text[0]) && NextToken(other, s).Some?
    ensures var r := NextToken(other, s).value; Reads(other, text, r.0, r.1, w)
  {
    var n := DigitCount(text);
    w := text[..n];
    TakeDrop(text, n);
    hide Value;
    assert n > 0;
    assert n < |text| ==> text[n..][0] == text[n];
  }

  lemma {:induction false} QuotedParts(text: string, n: nat)
    requires text != "" && n <= |text| - 1
    ensures n == |text| - 1 ==> text == [text[0]] + text[1..][..n] + ""
    ensures n < |text| - 1 ==> text == [text[0]] + text[1..][..n] + [text[1..][n]] + text[n + 2..]
  {
  }

  lemma {:induction false} StringSplits(other: char -> bool, s: string, text: string) returns (w: string)
    requires text == s[Spaces(s)..] && text != "" && text[0] == '\''
    ensures var r := NextToken(other, s); r.Some? && Reads(other, text, r.value.0, r.value.1, w)
  {
    QuoteFacts();
    hide LookupKeyword, WordLength, DigitCount, IsWhitespace, IsDigit, IsAsciiLetter, Value, Spaces, QuoteFree, Free;
    var n := QuoteFree(text[1..]);
    QuotedParts(text, n);
    w := if n < |text| - 1 then "'" + text[1..][..n] + "'" else "'" + text[1..][..n];
  }

  lemma {:induction false} SymbolSplits(other: char -> bool, s: string, text: string) returns (w: string)
    requires text == s[Spaces(s)..] && text != "" && NextToken(other, s).Some?
    requires !IsAlphabetic(other, text[0]) && text[0] != '_' && !IsDigit(text[0]) && text[0] != '\''
    ensures var r := NextToken(other, s).value; Reads(other, text, r.0, r.1, w)
  {
    hide LookupKeyword, WordLength, DigitCount, QuoteFree, IsWhitespace, IsDigit, IsAlphabetic, Value, Spaces;
    var t := NextToken(other, s).value.0;
    assert Symbol(t);
    w := TokenText(t);
    if t.Ne? || t.Ge? || t.Le? {
      TakeDrop(text, 2);
      assert text[..2] == w;
    } else {
      TakeDrop(text, 1);
      assert text[..1] == w;
      assert |text| > 1 ==> text[1..][0] == text[1];
    }
  }

  /** The lexer reads a token exactly where the text begins with one of its spellings. */
  lemma {:induction false} LexesExactly(other: char -> bool, s: string, t: Token, more: string)
    ensures NextToken(other, s) == Some((t, more)) <==> Begins(other, s, t, more)
  {
    hide NextToken, Splits;
    if NextToken(other, s) == Some((t, more)) {
      var space, w := ReadSplits(other, s);
    }
    if Begins(other, s, t, more) {
      var space, w :| Splits(other, s, t, more, space, w);
      SplitReads(other, s, t, more, space, w);
    }
  }

  lemma {:induction false} TokensAreGood(other: char -> bool, s: string)
    ensures NextToken(other, s).Some? ==> GoodToken(NextToken(other, s).value.0)
  {
    hide NextToken, AllWhite, StrangeLetter, Cased, KeywordText, GoodName, AllDigits, Value, Free;
    if NextToken(other, s).Some? {
      var space, w := ReadSplits(other, s);
    }
  }

  /** A printed token, set off by spaces, reads back. */
  lemma {:induction false} TokenReads(other: char -> bool, t: Token, more: string)
    requires Printable(t) && SpaceFirst(more)
    ensures NextToken(other, " " + TokenText(t) + more) == Some((t, more))
  {
    PrintedSpells(t, more);
    hide Spelled, Ends, NextToken, Printable, TokenText;
    assert " " + TokenText(t) + more == " " + (TokenText(t) + more);
    SplitReads(other, " " + TokenText(t) + more, t, more, " ", TokenText(t));
  }

  lemma {:induction false} PrintedSpells(t: Token, more: string)
    requires Printable(t) && SpaceFirst(more)
    ensures Spelled(t, TokenText(t)) && Ends(t, more) && t != EOF && t != Ident("") && AllWhite(" ")
  {
    hide KeywordText;
    if t.Num? {
      DigitsValue(t.number);
    }
  }

  class Lexer {
    const other: char -> bool
    const input: string
    var position: nat

    ghost predicate Valid()
      reads this
    {
      position <= |input|
    }

    function Rest(): string
      requires Valid()
      reads this
    {
      input[position..]
    }

    constructor (other: char -> bool, input: string)
      ensures Valid() && Rest() == input && this.other == other
    {
      this.other, this.input, position := other, input, 0;
    }

    method SkipWhitespace()
      requires Valid()
      modifies this
      ensures Valid() && Rest() == old(Rest())[Spaces(old(Rest()))..]
    {
      while position < |input| && IsWhitespace(input[position])
        invariant old(position) <= position <= |input|
        invariant Spaces(old(Rest())) == position - old(position) + Spaces(input[position..])
      {
        assert input[position..][1..] == input[position + 1..];
        position := position + 1;
      }
    }

    method ReadIdentifier() returns (name: string)
      requires Valid()
      modifies this
      ensures Valid() && var n := WordLength(old(Rest())); name == old(Rest())[..n] && Rest() == old(Rest())[n..]
    {
      var start := position;
      while position < |input| && IsWordChar(input[position])
        invariant start <= position <= |input|
        invariant WordLength(old(Rest())) == position - start + WordLength(input[position..])
      {
        assert input[position..][1..] == input[position + 1..];
        position := position + 1;
      }
      name := input[start..position];
    }

    /** None when the number does not fit 64 bits, which stops the program. */
    method ReadNumber() returns (number: Option<int>)
      requires Valid() && Rest() != [] && IsDigit(Rest()[0])
      modifies this
      ensures Valid() && var n := DigitCount(old(Rest()));
              && Rest() == old(Rest())[n..]
              && number == if Value(old(Rest())[..n]) > I64_MAX then None else Some(Value(old(Rest())[..n]))
    {
      var start := position;
      while position < |input| && IsDigit(input[position])
        invariant start <= position <= |input|
        invariant DigitCount(old(Rest())) == position - start + DigitCount(input[position..])
      {
        assert input[position..][1..] == input[position + 1..];
        position := position + 1;
      }
      var text := input[start..position];
      assert text == old(Rest())[..position - start];
      number := if Value(text) > I64_MAX then None else Some(Value(text));
    }

    /** Up to the closing quote, or to the end when there is none. */
    method ReadString() returns (text: string)
      requires Valid() && Rest() != []
      modifies this
      ensures Valid() && var t := old(Rest()); var n := QuoteFree(t[1..]);
              text == t[1..][..n] && Rest() == if n < |t| - 1 then t[n + 2..] else []
    {
      hide Free, QuoteFree;
      ghost var from := position;
      position := position + 1;
      var start := position;
      StringSlices(input, from, 0);
      while position < |input| && input[position] != '\''
        invariant start <= position <= |input|
        invariant QuoteFree(input[start..]) == position - start + QuoteFree(input[position..])
      {
        QuoteStep(input, position);
        position := position + 1;
      }
      text := input[start..position];
      QuoteEnd(input, position);
      StringSlices(input, from, position - start);
      if position < |input| {
        position := position + 1;
      }
    }

    /** Reads the token the text begins with; None where no token begins, which stops the program. */
    method Next() returns (token: Option<Token>)
      requires Valid()
      modifies this
      ensures Valid() && match NextToken(other, old(Rest()))
                         case None => token == None
                         case Some(r) => token == Some(r.0) && Rest() == r.1
      ensures match token
              case None => forall t, more :: !Begins(other, old(Rest()), t, more)
              case Some(t) => Begins(other, old(Rest()), t, Rest())
    {
      ghost var s := Rest();
      hide NextToken, Begins;
      token := Read();
      forall t, more
        ensures NextToken(other, s) == Some((t, more)) <==> Begins(other, s, t, more)
      {
        LexesExactly(other, s, t, more);
      }
    }

    method Read() returns (token: Option<Token>)
      requires Valid()
      modifies this
      ensures Valid() && match NextToken(other, old(Rest()))
                         case None => token == None
                         case Some(r) => token == Some(r.0) && Rest() == r.1
    {
      hide LookupKeyword, IsWordChar, IsDigit, IsWhitespace, Value;
      SkipWhitespace();
      if position == |input| {
        return Some(EOF);
      }
      var t := Rest();
      var ch := input[position];
      if IsAlphabetic(other, ch) || ch == '_' {
        var identifier := ReadIdentifier();
        return Some(LookupKeyword(identifier));
      } else if IsDigit(ch) {
        var number := ReadNumber();
        return if number.None? then None else Some(Num(number.value));
      } else if ch == '\'' {
        var text := ReadString();
        return Some(Str(text));
      }
      var double := position + 1 < |input| && input[position + 1] == '=';
      var symbol :=
        match ch
        case '*' => Some(Star)
        case '=' => Some(Eq)
        case '!' => if double then Some(Ne) else None
        case '>' => Some(if double then Ge else Gt)
        case '<' => Some(if double then Le else Lt)
        case '(' => Some(LParen)
        case ')' => Some(RParen)
        case ',' => Some(Comma)
        case ';' => Some(Semicolon)
        case _ => None;
      if symbol.Some? {
        position := position + if symbol.value in {Ne, Ge, Le} then 2 else 1;
      }
      return symbol;
    }
  }
}
