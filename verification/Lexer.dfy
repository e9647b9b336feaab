/**
 The lexer: what it reads off the remaining characters, and the object whose
 position, line and column its loops advance.
 */
module Lexers {
  import opened Bytes
  import opened Wrappers
  import opened Values
  import opened Syntax

  datatype LexError = LexError(line: nat, column: nat)

  /** A token and the characters after it. */
  datatype Lexed = Lexed(token: Token, rest: string)

  /** `str::parse::<f64>`, which this model does not look into. */
  type FloatParser = string -> Option<u64>

  // ----- characters -----

  predicate IsWhitespace(c: char) {
    c == ' ' || c == '\t' || c == '\n' || c == '\r' || c as int == 12
  }

  predicate IsDigit(c: char) {
    '0' <= c <= '9'
  }

  predicate IsLetter(c: char) {
    'a' <= c <= 'z' || 'A' <= c <= 'Z'
  }

  predicate StartsWord(c: char) {
    IsLetter(c) || c == '_'
  }

  predicate InWord(c: char) {
    IsLetter(c) || IsDigit(c) || c == '_'
  }

  function Upper(s: string): (r: string)
    ensures |r| == |s|
  {
    seq(|s|, i requires 0 <= i < |s| => if 'a' <= s[i] <= 'z' then (s[i] as int - 32) as char else s[i])
  }

  /** How many leading characters have the property. */
  function Run(s: string, wanted: char -> bool): (n: nat)
    ensures n <= |s| && forall i :: 0 <= i < n ==> wanted(s[i])
    ensures n < |s| ==> !wanted(s[n])
  {
    if s == [] || !wanted(s[0]) then 0 else
      var n := Run(s[1..], wanted);
      assert forall i :: 0 < i < n + 1 ==> s[i] == s[1..][i - 1];
      n + 1
  }

  predicate Begins(s: string, c: char) {
    s != [] && s[0] == c
  }

  // ----- keywords -----

  predicate Same(a: string, b: string) {
    a == b
  }

  /** The keyword a word is, whatever its case. */
  function KeywordOf(word: string): Option<Keyword> {
    var w := Upper(word);
    if Same(w, "NULL") then Some(KwNull) else if Same(w, "TRUE") then Some(KwTrue)
    else if Same(w, "FALSE") then Some(KwFalse) else if Same(w, "MATCH") then Some(KwMatch)
    else if Same(w, "WHERE") then Some(KwWhere) else if Same(w, "RETURN") then Some(KwReturn)
    else if Same(w, "CREATE") then Some(KwCreate) else if Same(w, "INSERT") then Some(KwInsert)
    else if Same(w, "DELETE") then Some(KwDelete) else if Same(w, "SET") then Some(KwSet)
    else if Same(w, "REMOVE") then Some(KwRemove) else if Same(w, "DROP") then Some(KwDrop)
    else if Same(w, "GRAPH") then Some(KwGraph) else if Same(w, "TYPE") then Some(KwType)
    else if Same(w, "NODE") then Some(KwNode) else if Same(w, "EDGE") then Some(KwEdge)
    else if Same(w, "NOT") then Some(KwNot) else if Same(w, "AND") then Some(KwAnd)
    else if Same(w, "OR") then Some(KwOr) else if Same(w, "XOR") then Some(KwXor)
    else if Same(w, "IS") then Some(KwIs) else if Same(w, "IN") then Some(KwIn)
    else if Same(w, "LIKE") then Some(KwLike) else if Same(w, "AS") then Some(KwAs)
    else if Same(w, "BY") then Some(KwBy) else if Same(w, "ORDER") then Some(KwOrder)
    else if Same(w, "ASC") then Some(KwAsc) else if Same(w, "DESC") then Some(KwDesc)
    else if Same(w, "LIMIT") then Some(KwLimit) else if Same(w, "OFFSET") then Some(KwOffset)
    else if Same(w, "GROUP") then Some(KwGroup) else if Same(w, "HAVING") then Some(KwHaving)
    else if Same(w, "WITH") then Some(KwWith) else if Same(w, "LET") then Some(KwLet)
    else if Same(w, "FOR") then Some(KwFor) else if Same(w, "FILTER") then Some(KwFilter)
    else if Same(w, "CALL") then Some(KwCall) else if Same(w, "YIELD") then Some(KwYield)
    else if Same(w, "OPTIONAL") then Some(KwOptional) else if Same(w, "MANDATORY") then Some(KwMandatory)
    else if Same(w, "EXISTS") then Some(KwExists) else if Same(w, "CASE") then Some(KwCase)
    else if Same(w, "WHEN") then Some(KwWhen) else if Same(w, "THEN") then Some(KwThen)
    else if Same(w, "ELSE") then Some(KwElse) else if Same(w, "END") then Some(KwEnd)
    else if Same(w, "UNION") then Some(KwUnion) else if Same(w, "INTERSECT") then Some(KwIntersect)
    else if Same(w, "EXCEPT") then Some(KwExcept) else if Same(w, "ALL") then Some(KwAll)
    else if Same(w, "DISTINCT") then Some(KwDistinct) else if Same(w, "COUNT") then Some(KwCount)
    else if Same(w, "SUM") then Some(KwSum) else if Same(w, "AVG") then Some(KwAvg)
    else if Same(w, "MIN") then Some(KwMin) else if Same(w, "MAX") then Some(KwMax)
    else if Same(w, "COLLECT") then Some(KwCollect) else if Same(w, "WALK") then Some(KwWalk)
    else if Same(w, "TRAIL") then Some(KwTrail) else if Same(w, "SIMPLE") then Some(KwSimple)
    else if Same(w, "ACYCLIC") then Some(KwAcyclic) else if Same(w, "SHORTEST") then Some(KwShortest)
    else if Same(w, "PATH") then Some(KwPath) else if Same(w, "ANY") then Some(KwAny)
    else if Same(w, "COMMIT") then Some(KwCommit) else if Same(w, "ROLLBACK") then Some(KwRollback)
    else if Same(w, "BEGIN") then Some(KwBegin) else if Same(w, "IF") then Some(KwIf)
    else if Same(w, "DETACH") then Some(KwDetach) else if Same(w, "NODETACH") then Some(KwNodetach)
    else if Same(w, "COST") then Some(KwCost) else if Same(w, "OF") then Some(KwOf)
    else if Same(w, "TO") then Some(KwTo) else if Same(w, "FROM") then Some(KwFrom)
    else if Same(w, "INDEX") then Some(KwIndex) else if Same(w, "UNIQUE") then Some(KwUnique)
    else if Same(w, "ON") then Some(KwOn) else if Same(w, "LIST") then Some(KwList)
    else None
  }

  // ----- the routines, on the remaining characters -----

  /** After `--`: up to the end of the line. */
  function LexLineComment(s: string): Lexed {
    var n := Run(s, (c: char) => c != '\n');
    Lexed(Comment(s[..n]), s[n..])
  }

  /** After the opening mark: up to the first closing one. */
  function LexBlockComment(text: string, s: string): Option<Lexed>
    decreases |s|
  {
    if s == [] then None
    else if s[0] == '*' && Begins(s[1..], '/') then Some(Lexed(Comment(text), s[2..]))
    else LexBlockComment(text + [s[0]], s[1..])
  }

  /** After the opening quote: a doubled quote stands for one. */
  function LexString(text: string, s: string): Option<Lexed>
    decreases |s|
  {
    if s == [] then None
    else if s[0] != '\'' then LexString(text + [s[0]], s[1..])
    else if Begins(s[1..], '\'') then LexString(text + "'", s[2..])
    else Some(Lexed(StringLit(text), s[1..]))
  }

  function DigitValue(c: char): nat
    requires IsDigit(c)
  {
    c as int - '0' as int
  }

  function DigitsValue(s: string): nat
    requires forall i :: 0 <= i < |s| ==> IsDigit(s[i])
  {
    if s == [] then 0 else 10 * DigitsValue(s[..|s| - 1]) + DigitValue(s[|s| - 1])
  }

  /** Digits, and a fraction if a digit follows the dot: how far they extend, and whether there is a fraction. */
  function MantissaExtent(s: string): (r: (nat, bool))
    ensures r.0 <= |s|
    ensures s != [] && IsDigit(s[0]) ==> 0 < r.0
    ensures !r.1 ==> r.0 == Run(s, IsDigit)
  {
    var whole := Run(s, IsDigit);
    if whole + 1 < |s| && s[whole] == '.' && IsDigit(s[whole + 1]) then (whole + 1 + Run(s[whole + 1..], IsDigit), true)
    else (whole, false)
  }

  /** An exponent, from its mark on: None without digits. */
  function ExponentExtent(s: string): (r: Option<nat>)
    requires s != []
    ensures r.Some? ==> 1 < r.value <= |s|
  {
    var start := if Begins(s[1..], '+') || Begins(s[1..], '-') then 2 else 1;
    var digits := Run(s[start..], IsDigit);
    if digits == 0 then None else Some(start + digits)
  }

  /** How far a number extends, and whether it is a float; None for an exponent without digits. */
  function NumberExtent(s: string): (r: Option<(nat, bool)>)
    requires s != [] && IsDigit(s[0])
    ensures r.Some? ==> 0 < r.value.0 <= |s|
    ensures r.Some? && !r.value.1 ==> r.value.0 == Run(s, IsDigit)
  {
    var (mantissa, dotted) := MantissaExtent(s);
    if Begins(s[mantissa..], 'e') || Begins(s[mantissa..], 'E') then
      match ExponentExtent(s[mantissa..])
      case None => None
      case Some(n) => Some((mantissa + n, true))
    else Some((mantissa, dotted))
  }

  function LexNumber(s: string, floats: FloatParser): Option<Lexed>
    requires s != [] && IsDigit(s[0])
  {
    match NumberExtent(s)
    case None => None
    case Some((n, true)) =>
      (match floats(s[..n]) case Some(bits) => Some(Lexed(FloatLit(bits), s[n..])) case None => None)
    case Some((n, false)) =>
      if DigitsValue(s[..n]) <= I64_MAX then Some(Lexed(IntegerLit(DigitsValue(s[..n])), s[n..])) else None
  }

  function WordToken(word: string): Token {
    match KeywordOf(word) case Some(k) => Kw(k) case None => Ident(word)
  }

  function LexWord(s: string): Lexed {
    var n := Run(s, InWord);
    Lexed(WordToken(s[..n]), s[n..])
  }

  /** After `$`. */
  function LexParameter(s: string): Option<Lexed> {
    if s == [] || !StartsWord(s[0]) then None
    else
      var n := Run(s, InWord);
      Some(Lexed(Param(s[..n]), s[n..]))
  }

  /** The operators and delimiters of one character that start no longer one. */
  function SingleOf(c: char): Option<Symbol> {
    match c
    case '+' => Some(Plus)
    case '*' => Some(Star)
    case '/' => Some(Slash)
    case '%' => Some(Percent)
    case '~' => Some(Tilde)
    case '(' => Some(LParen)
    case ')' => Some(RParen)
    case '[' => Some(LBracket)
    case ']' => Some(RBracket)
    case '{' => Some(LBrace)
    case '}' => Some(RBrace)
    case ',' => Some(Comma)
    case ':' => Some(Colon)
    case ';' => Some(Semicolon)
    case '@' => Some(At)
    case '=' => Some(Equals)
    case _ => None
  }

  /** What `<` starts, and how many characters more it takes. */
  function AngleOf(next: string): (r: (Symbol, nat))
    ensures r.1 <= |next|
  {
    if Begins(next, '=') then (LessEquals, 1)
    else if Begins(next, '>') then (NotEquals, 1)
    else if Begins(next, '-') then (LeftArrow, 1)
    else (LessThan, 0)
  }

  /** The operator or delimiter the characters begin with, and its length. */
  function SymbolOf(s: string): (r: Option<(Symbol, nat)>)
    requires s != []
    ensures r.Some? ==> 0 < r.value.1 <= |s|
  {
    var next := s[1..];
    if SingleOf(s[0]).Some? then Some((SingleOf(s[0]).value, 1))
    else
      match s[0]
      case '.' => if Begins(next, '.') then Some((DoubleDot, 2)) else Some((Dot, 1))
      case '|' => if Begins(next, '|') then Some((DoublePipe, 2)) else None
      case '!' => if Begins(next, '=') then Some((NotEquals, 2)) else None
      case '<' => Some((AngleOf(next).0, 1 + AngleOf(next).1))
      case '>' => if Begins(next, '=') then Some((GreaterEquals, 2)) else Some((GreaterThan, 1))
      case '-' => if Begins(next, '>') then Some((Arrow, 2)) else Some((Minus, 1))
      case _ => None
  }

  /** How a symbol is written. */
  predicate Spells(t: Symbol, text: string) {
    match t
    case Plus => text == "+"
    case Minus => text == "-"
    case Star => text == "*"
    case Slash => text == "/"
    case Percent => text == "%"
    case Equals => text == "="
    case NotEquals => text == "!=" || text == "<>"
    case LessThan => text == "<"
    case GreaterThan => text == ">"
    case LessEquals => text == "<="
    case GreaterEquals => text == ">="
    case DoublePipe => text == "||"
    case Dot => text == "."
    case DoubleDot => text == ".."
    case Arrow => text == "->"
    case LeftArrow => text == "<-"
    case Tilde => text == "~"
    case LParen => text == "("
    case RParen => text == ")"
    case LBracket => text == "["
    case RBracket => text == "]"
    case LBrace => text == "{"
    case RBrace => text == "}"
    case Comma => text == ","
    case Colon => text == ":"
    case Semicolon => text == ";"
    case At => text == "@"
  }

  lemma SpellingSize(t: Symbol, text: string)
    requires Spells(t, text)
    ensures 1 <= |text| <= 2
  {
  }

  lemma SingleStarts(t: Symbol, c: char, s: string)
    requires s != [] && c == s[0] && Spells(t, [c])
    ensures SymbolOf(s).Some?
  {
    assert [c][0] == c;
  }

  lemma PairRead(t: Symbol, c: char, d: char, s: string)
    requires |s| > 1 && c == s[0] && d == s[1] && Spells(t, [c, d])
    ensures SymbolOf(s).Some? && SymbolOf(s).value.1 == 2
  {
    assert [c, d][0] == c && [c, d][1] == d;
    assert s[1..][0] == d;
  }

  lemma SymbolSpelled(s: string)
    requires s != [] && SymbolOf(s).Some?
    ensures Spells(SymbolOf(s).value.0, s[..SymbolOf(s).value.1])
  {
    assert s[..1] == [s[0]];
    assert |s| > 1 ==> s[..2] == [s[0], s[1]] && s[1..][0] == s[1];
  }

  /** The symbol read is written by the characters taken, and no longer one is written at their start. */
  lemma {:induction false} SymbolIsLongest(s: string)
    requires s != []
    ensures SymbolOf(s).Some? ==> Spells(SymbolOf(s).value.0, s[..SymbolOf(s).value.1])
    ensures forall t, text :: Spells(t, text) && text <= s ==> SymbolOf(s).Some? && |text| <= SymbolOf(s).value.1
  {
    hide SymbolOf, Spells;
    if SymbolOf(s).Some? {
      SymbolSpelled(s);
    }
    forall t, text | Spells(t, text) && text <= s ensures SymbolOf(s).Some? && |text| <= SymbolOf(s).value.1 {
      SpellingSize(t, text);
      if |text| == 1 {
        assert text == [s[0]];
        SingleStarts(t, s[0], s);
      } else {
        assert text == [s[0], s[1]];
        PairRead(t, s[0], s[1], s);
      }
    }
  }

  /** `next_token`, where no whitespace precedes it. */
  function LexToken(s: string, floats: FloatParser): Option<Lexed> {
    if s == [] then Some(Lexed(Eof, s))
    else if s[0] == '-' && Begins(s[1..], '-') then Some(LexLineComment(s[2..]))
    else if s[0] == '/' && Begins(s[1..], '*') then LexBlockComment([], s[2..])
    else if s[0] == '\'' then LexString([], s[1..])
    else if IsDigit(s[0]) then LexNumber(s, floats)
    else if StartsWord(s[0]) then Some(LexWord(s))
    else if s[0] == '$' then LexParameter(s[1..])
    else match SymbolOf(s) case Some((symbol, n)) => Some(Lexed(Sym(symbol), s[n..])) case None => None
  }

  function NextToken(s: string, floats: FloatParser): Option<Lexed> {
    LexToken(s[Run(s, IsWhitespace)..], floats)
  }

  lemma {:induction false} BlockCommentShrinks(text: string, s: string)
    ensures LexBlockComment(text, s).Some? ==> |LexBlockComment(text, s).value.rest| < |s|
    decreases |s|
  {
    if s != [] && !(s[0] == '*' && Begins(s[1..], '/')) {
      BlockCommentShrinks(text + [s[0]], s[1..]);
    }
  }

  lemma {:induction false} StringShrinks(text: string, s: string)
    ensures LexString(text, s).Some? ==> |LexString(text, s).value.rest| < |s|
    decreases |s|
  {
    if s != [] {
      if s[0] != '\'' {
        StringShrinks(text + [s[0]], s[1..]);
      } else if Begins(s[1..], '\'') {
        StringShrinks(text + "'", s[2..]);
      }
    }
  }

  lemma {:induction false} BlockCommentToken(text: string, s: string)
    ensures LexBlockComment(text, s).Some? ==> LexBlockComment(text, s).value.token.Comment?
    decreases |s|
  {
    if s != [] && !(s[0] == '*' && Begins(s[1..], '/')) {
      BlockCommentToken(text + [s[0]], s[1..]);
    }
  }

  lemma {:induction false} StringToken(text: string, s: string)
    ensures LexString(text, s).Some? ==> LexString(text, s).value.token.StringLit?
    decreases |s|
  {
    if s != [] {
      if s[0] != '\'' {
        StringToken(text + [s[0]], s[1..]);
      } else if Begins(s[1..], '\'') {
        StringToken(text + "'", s[2..]);
      }
    }
  }

  /** Where characters are left, a token consumes some and is not Eof. */
  lemma TokenShrinks(s: string, floats: FloatParser)
    requires s != [] && LexToken(s, floats).Some?
    ensures LexToken(s, floats).value.token != Eof && |LexToken(s, floats).value.rest| < |s|
  {
    hide KeywordOf, SymbolOf, LexBlockComment, LexString, NumberExtent, DigitsValue;
    var more := if |s| >= 2 then s[2..] else [];
    BlockCommentToken([], more);
    BlockCommentShrinks([], more);
    StringToken([], s[1..]);
    StringShrinks([], s[1..]);
  }

  /** All tokens, the last one Eof. */
  function Tokenize(s: string, floats: FloatParser): Option<seq<Token>>
    decreases |s|
  {
    var start := s[Run(s, IsWhitespace)..];
    match LexToken(start, floats)
    case None => None
    case Some(lexed) =>
      if start == [] then Some([Eof])
      else
        TokenShrinks(start, floats);
        match Tokenize(lexed.rest, floats) case None => None case Some(ts) => Some([lexed.token] + ts)
  }

  // ----- the lexer -----

  /** Lines are counted from one, by the newlines before the position. */
  function LineAfter(read: string): nat {
    if read == [] then 1 else LineAfter(read[..|read| - 1]) + (if read[|read| - 1] == '\n' then 1 else 0)
  }

  /** Columns are counted from one, from the last newline on. */
  function ColumnAfter(read: string): nat {
    if read == [] || read[|read| - 1] == '\n' then 1 else ColumnAfter(read[..|read| - 1]) + 1
  }

  lemma {:induction false} RunStep(s: string, wanted: char -> bool, n: nat)
    requires n <= |s| && forall i :: 0 <= i < n ==> wanted(s[i])
    requires n < |s| ==> !wanted(s[n])
    ensures Run(s, wanted) == n
  {
    if n > 0 {
      RunStep(s[1..], wanted, n - 1);
    }
  }

  class Lexer {
    const input: string
    const floats: FloatParser
    var pos: nat
    var line: nat
    var column: nat

    constructor (input: string, floats: FloatParser)
      ensures this.input == input && this.floats == floats && pos == 0 && Valid()
    {
      this.input := input;
      this.floats := floats;
      pos, line, column := 0, 1, 1;
    }

    /** The span is that of the position. */
    ghost predicate Valid()
      reads this
    {
      pos <= |input| && line == LineAfter(input[..pos]) && column == ColumnAfter(input[..pos])
    }

    function Rest(): string
      requires pos <= |input|
      reads this
    {
      input[pos..]
    }

    method Advance() returns (c: char)
      requires Valid() && pos < |input|
      modifies this
      ensures Valid() && pos == old(pos) + 1 && c == input[old(pos)] && Rest() == old(Rest())[1..]
    {
      assert input[..pos + 1][..pos] == input[..pos];
      c := input[pos];
      pos := pos + 1;
      if c == '\n' {
        line, column := line + 1, 1;
      } else {
        column := column + 1;
      }
    }

    /** Reads the leading characters that have the property. */
    method TakeWhile(wanted: char -> bool) returns (text: string)
      requires Valid()
      modifies this
      ensures Valid() && text == old(Rest())[..Run(old(Rest()), wanted)] && Rest() == old(Rest())[Run(old(Rest()), wanted)..]
      ensures pos == old(pos) + |text|
    {
      ghost var s := Rest();
      text := [];
      while pos < |input| && wanted(input[pos])
        invariant Valid() && pos == old(pos) + |text|
        invariant text == s[..|text|] && Rest() == s[|text|..]
        invariant forall i :: 0 <= i < |text| ==> wanted(s[i])
      {
        assert s[|text|] == input[pos];
        var c := Advance();
        text := text + [c];
      }
      RunStep(s, wanted, |text|);
    }

    method SkipWhitespace()
      requires Valid()
      modifies this
      ensures Valid() && Rest() == old(Rest())[Run(old(Rest()), IsWhitespace)..] && old(pos) <= pos
    {
      var skipped := TakeWhile(IsWhitespace);
    }

    /** The method's result and position are what the routine reads off the characters. */
    ghost predicate Reads(spec: Option<Lexed>, r: Result<Token, LexError>)
      requires pos <= |input|
      reads this
    {
      if r.Success? then spec == Some(Lexed(r.value, Rest())) else spec == None
    }

    method LexStringLiteral() returns (r: Result<Token, LexError>)
      requires Valid() && Begins(Rest(), '\'')
      modifies this
      ensures Valid() && old(pos) < pos && Reads(LexString([], old(Rest())[1..]), r)
    {
      var line', column' := line, column;
      var quote := Advance();
      var text: string := [];
      ghost var s := Rest();
      while true
        invariant Valid() && old(pos) < pos && LexString(text, Rest()) == LexString([], s)
        decreases |input| - pos
      {
        if pos == |input| {
          return Failure(LexError(line', column'));
        }
        TwoStep(Rest());
        var c := Advance();
        if c != '\'' {
          text := text + [c];
        } else if pos < |input| && input[pos] == '\'' {
          var second := Advance();
          text := text + "'";
        } else {
          return Success(StringLit(text));
        }
      }
    }

    method LexBlock() returns (r: Result<Token, LexError>)
      requires Valid() && |Rest()| >= 2
      modifies this
      ensures Valid() && old(pos) < pos && Reads(LexBlockComment([], old(Rest())[2..]), r)
    {
      var line', column' := line, column;
      TwoStep(Rest());
      var slash := Advance();
      var star := Advance();
      var text: string := [];
      ghost var s := Rest();
      while true
        invariant Valid() && old(pos) < pos && LexBlockComment(text, Rest()) == LexBlockComment([], s)
        decreases |input| - pos
      {
        if pos == |input| {
          return Failure(LexError(line', column'));
        }
        TwoStep(Rest());
        if input[pos] == '*' && pos + 1 < |input| && input[pos + 1] == '/' {
          var c := Advance();
          var d := Advance();
          return Success(Comment(text));
        }
        var c := Advance();
        text := text + [c];
      }
    }

    method LexLine() returns (r: Result<Token, LexError>)
      requires Valid() && |Rest()| >= 2
      modifies this
      ensures Valid() && old(pos) < pos && Reads(Some(LexLineComment(old(Rest())[2..])), r)
    {
      TwoStep(Rest());
      var c := Advance();
      var d := Advance();
      var text := TakeWhile((c: char) => c != '\n');
      return Success(Comment(text));
    }

    /** What lies between a position and the current one is the text. */
    ghost predicate Taken(s: string, p: nat, text: string)
      requires pos <= |input|
      reads this
    {
      |text| <= |s| && text == s[..|text|] && Rest() == s[|text|..] && pos == p + |text|
    }

    method ScanMantissa() returns (text: string, dotted: bool)
      requires Valid()
      modifies this
      ensures Valid() && Taken(old(Rest()), old(pos), text) && (|text|, dotted) == MantissaExtent(old(Rest()))
    {
      hide Run, LineAfter, ColumnAfter, IsDigit, MantissaExtent, StartsFraction;
      ghost var s := Rest();
      text := TakeWhile(IsDigit);
      ghost var afterDigits := Rest();
      MantissaIs(s, |text|, afterDigits);
      dotted := AtFraction();
      if dotted {
        var fraction := ScanFraction();
        TakenTwice(s, afterDigits, text, fraction);
        text := text + fraction;
      }
    }

    /** A dot and a digit come next. */
    method AtFraction() returns (r: bool)
      requires Valid()
      ensures r == StartsFraction(Rest())
    {
      hide IsDigit, LineAfter, ColumnAfter;
      r := pos + 1 < |input| && input[pos] == '.' && IsDigit(input[pos + 1]);
    }

    /** The dot and the digits after it. */
    method ScanFraction() returns (text: string)
      requires Valid() && Rest() != []
      modifies this
      ensures Valid() && Taken(old(Rest()), old(pos), text) && |text| == 1 + Run(old(Rest())[1..], IsDigit)
    {
      hide Run, LineAfter, ColumnAfter, IsDigit;
      ghost var s := Rest();
      var dot := Advance();
      ghost var afterDot := Rest();
      var digits := TakeWhile(IsDigit);
      TakenTwice(s, afterDot, [dot], digits);
      text := [dot] + digits;
    }

    /** The mark and an optional sign. */
    method ScanMark() returns (text: string)
      requires Valid() && Rest() != []
      modifies this
      ensures Valid() && Taken(old(Rest()), old(pos), text) && |text| == MarkExtent(old(Rest()))
    {
      hide LineAfter, ColumnAfter;
      ghost var s := Rest();
      var mark := Advance();
      text := [mark];
      ghost var afterMark := Rest();
      if pos < |input| && (input[pos] == '+' || input[pos] == '-') {
        var sign := Advance();
        TakenTwice(s, afterMark, text, [sign]);
        text := text + [sign];
      }
    }

    /** From the mark on: an optional sign and digits. */
    method ScanExponent() returns (text: string, found: bool)
      requires Valid() && Rest() != []
      modifies this
      ensures Valid() && Taken(old(Rest()), old(pos), text)
      ensures ExponentExtent(old(Rest())) == if found then Some(|text|) else None
    {
      hide Run, LineAfter, ColumnAfter, IsDigit, ExponentExtent;
      ghost var s := Rest();
      text := ScanMark();
      ghost var afterSign := Rest();
      ExponentIs(s, |text|, afterSign);
      var digits := TakeWhile(IsDigit);
      TakenTwice(s, afterSign, text, digits);
      found := digits != [];
      text := text + digits;
    }

    /** The digits, an optional fraction and an optional exponent. */
    method ScanNumber() returns (ok: bool, text: string, isFloat: bool)
      requires Valid() && Rest() != [] && IsDigit(Rest()[0])
      modifies this
      ensures Valid() && Taken(old(Rest()), old(pos), text)
      ensures NumberExtent(old(Rest())) == if ok then Some((|text|, isFloat)) else None
    {
      hide MantissaExtent, ExponentExtent;
      ghost var s := Rest();
      var mantissa, dotted := ScanMantissa();
      ghost var rest := Rest();
      if pos < |input| && (input[pos] == 'e' || input[pos] == 'E') {
        var exponent, found := ScanExponent();
        TakenTwice(s, rest, mantissa, exponent);
        return found, mantissa + exponent, true;
      }
      return true, mantissa, dotted;
    }

    method LexNumberLiteral() returns (r: Result<Token, LexError>)
      requires Valid() && Rest() != [] && IsDigit(Rest()[0])
      modifies this
      ensures Valid() && old(pos) <= pos && Reads(LexNumber(old(Rest()), floats), r)
    {
      hide NumberExtent, DigitsValue;
      var ok, text, isFloat := ScanNumber();
      if !ok {
        return Failure(LexError(line, column));
      }
      if isFloat {
        var bits := floats(text);
        return if bits.Some? then Success(FloatLit(bits.value)) else Failure(LexError(line, column));
      }
      var n := DigitsValue(text);
      return if n <= I64_MAX then Success(IntegerLit(n)) else Failure(LexError(line, column));
    }

    method LexWordOrKeyword() returns (r: Result<Token, LexError>)
      requires Valid() && Rest() != []
      modifies this
      ensures Valid() && old(pos) <= pos && Reads(Some(LexWord(old(Rest()))), r)
    {
      hide KeywordOf;
      var word := TakeWhile(InWord);
      return Success(WordToken(word));
    }

    method LexParameterName() returns (r: Result<Token, LexError>)
      requires Valid() && Rest() != []
      modifies this
      ensures Valid() && old(pos) < pos && Reads(LexParameter(old(Rest())[1..]), r)
    {
      var dollar := Advance();
      if pos == |input| || !StartsWord(input[pos]) {
        return Failure(LexError(line, column));
      }
      var name := TakeWhile(InWord);
      return Success(Param(name));
    }

    /** Takes the character if it is the next one. */
    method MatchNext(wanted: char) returns (matched: bool)
      requires Valid()
      modifies this
      ensures Valid() && matched == Begins(old(Rest()), wanted)
      ensures pos == old(pos) + (if matched then 1 else 0)
      ensures Rest() == old(Rest())[if matched then 1 else 0..]
    {
      hide LineAfter, ColumnAfter;
      matched := pos < |input| && input[pos] == wanted;
      if matched {
        var c := Advance();
      }
    }

    /** The longest operator or delimiter that the characters begin with, if there is one. */
    method LexSymbol() returns (r: Result<Token, LexError>)
      requires Valid() && Rest() != []
      modifies this
      ensures Valid() && old(pos) <= pos
      ensures Reads((match SymbolOf(old(Rest())) case Some((s, n)) => Some(Lexed(Sym(s), old(Rest())[n..])) case None => None), r)
      ensures r.Success? ==> r.value.Sym? && Spells(r.value.sym, input[old(pos)..pos])
      ensures forall t, text :: Spells(t, text) && text <= old(Rest()) ==> r.Success? && |text| <= pos - old(pos)
    {
      hide Spells, SymbolOf, LineAfter, ColumnAfter;
      ghost var s := Rest();
      SymbolIsLongest(s);
      r := ReadSymbol();
      if r.Success? {
        assert input[old(pos)..pos] == s[..pos - old(pos)];
      }
    }

    method ReadSymbol() returns (r: Result<Token, LexError>)
      requires Valid() && Rest() != []
      modifies this
      ensures Valid() && old(pos) <= pos
      ensures r.Failure? <==> SymbolOf(old(Rest())).None?
      ensures r.Success? ==> SymbolOf(old(Rest())).Some? && r.value == Sym(SymbolOf(old(Rest())).value.0)
                             && pos == old(pos) + SymbolOf(old(Rest())).value.1 && Rest() == old(Rest())[pos - old(pos)..]
    {
      hide LineAfter, ColumnAfter;
      ghost var s := Rest();
      var c := Advance();
      var single := SingleOf(c);
      if single.Some? {
        return Success(Sym(single.value));
      }
      r := ReadPair(s, c);
    }

    /** Characters that may be followed by another one of the same operator. */
    method ReadPair(ghost s: string, c: char) returns (r: Result<Token, LexError>)
      requires Valid() && s != [] && c == s[0] && Rest() == s[1..] && SingleOf(c).None?
      modifies this
      ensures Valid() && old(pos) <= pos
      ensures r.Failure? <==> SymbolOf(s).None?
      ensures r.Success? ==> SymbolOf(s).Some? && r.value == Sym(SymbolOf(s).value.0)
                             && pos == old(pos) + SymbolOf(s).value.1 - 1 && Rest() == s[SymbolOf(s).value.1..]
    {
      hide LineAfter, ColumnAfter;
      var two := false;
      if c == '.' {
        two := MatchNext('.');
        return Success(Sym(if two then DoubleDot else Dot));
      }
      if c == '|' {
        two := MatchNext('|');
        return if two then Success(Sym(DoublePipe)) else Failure(LexError(line, column));
      }
      if c == '!' {
        two := MatchNext('=');
        return if two then Success(Sym(NotEquals)) else Failure(LexError(line, column));
      }
      if c == '>' {
        two := MatchNext('=');
        return Success(Sym(if two then GreaterEquals else GreaterThan));
      }
      if c == '-' {
        two := MatchNext('>');
        return Success(Sym(if two then Arrow else Minus));
      }
      if c == '<' {
        r := ReadAngle();
        return;
      }
      return Failure(LexError(line, column));
    }

    /** After `<`: the alternatives are tried in turn. */
    method ReadAngle() returns (r: Result<Token, LexError>)
      requires Valid()
      modifies this
      ensures Valid() && r == Success(Sym(AngleOf(old(Rest())).0))
      ensures pos == old(pos) + AngleOf(old(Rest())).1 && Rest() == old(Rest())[AngleOf(old(Rest())).1..]
    {
      hide LineAfter, ColumnAfter;
      var two := MatchNext('=');
      if two {
        return Success(Sym(LessEquals));
      }
      two := MatchNext('>');
      if two {
        return Success(Sym(NotEquals));
      }
      two := MatchNext('-');
      return Success(Sym(if two then LeftArrow else LessThan));
    }

    /** One token, after any whitespace. */
    method Next() returns (r: Result<Token, LexError>)
      requires Valid()
      modifies this
      ensures Valid() && old(pos) <= pos && Reads(NextToken(old(Rest()), floats), r)
    {
      hide LexToken;
      SkipWhitespace();
      r := OneToken();
    }

    method OneToken() returns (r: Result<Token, LexError>)
      requires Valid()
      modifies this
      ensures Valid() && old(pos) <= pos && Reads(LexToken(old(Rest()), floats), r)
    {
      hide SymbolOf, LexBlockComment, LexString, LexNumber, LexWord, LexParameter, LexLineComment, Run, LineAfter,
        ColumnAfter;
      if pos == |input| {
        return Success(Eof);
      }
      TwoStep(Rest());
      var c := input[pos];
      var second := if pos + 1 < |input| then Some(input[pos + 1]) else None;
      if c == '-' && second == Some('-') {
        r := LexLine();
      } else if c == '/' && second == Some('*') {
        r := LexBlock();
      } else if c == '\'' {
        r := LexStringLiteral();
      } else if IsDigit(c) {
        r := LexNumberLiteral();
      } else if StartsWord(c) {
        r := LexWordOrKeyword();
      } else if c == '$' {
        r := LexParameterName();
      } else {
        r := LexSymbol();
      }
    }

    /** All tokens up to and including Eof, or the first error. */
    method TokenizeAll() returns (r: Result<seq<Token>, LexError>)
      requires Valid()
      modifies this
      ensures Valid()
      ensures r.Success? <==> Tokenize(old(Rest()), floats).Some?
      ensures r.Success? ==> Tokenize(old(Rest()), floats) == Some(r.value)
    {
      hide NextToken, Tokenize, LineAfter, ColumnAfter, Prepend;
      ghost var s := Rest();
      var tokens: seq<Token> := [];
      PrependTwice([], [], Tokenize(s, floats));
      while true
        invariant Valid() && Tokenize(s, floats) == Prepend(tokens, Tokenize(Rest(), floats))
        decreases |input| - pos
      {
        TokenizeStep(Rest(), floats);
        ghost var before := Rest();
        var next := Next();
        if next.Failure? {
          PrependTwice(tokens, [], None);
          return Failure(next.error);
        }
        PrependTwice(tokens, [next.value], if next.value == Eof then Some([]) else Tokenize(Rest(), floats));
        tokens := tokens + [next.value];
        if next.value == Eof {
          return Success(tokens);
        }
      }
    }
  }

  lemma PrependTwice(a: seq<Token>, b: seq<Token>, more: Option<seq<Token>>)
    ensures Prepend(a, Prepend(b, more)) == Prepend(a + b, more)
    ensures Prepend([], more) == more && Prepend(a, None) == None
    ensures Prepend(a, Some([])) == Some(a)
    ensures Prepend(a, Some(b)) == Some(a + b)
  {
    if more.Some? {
      assert a + (b + more.value) == (a + b) + more.value && [] + more.value == more.value;
    }
    assert a + [] == a;
  }

  function Prepend(tokens: seq<Token>, more: Option<seq<Token>>): Option<seq<Token>> {
    match more case None => None case Some(ts) => Some(tokens + ts)
  }

  lemma TokenizeStep(s: string, floats: FloatParser)
    ensures Tokenize(s, floats) ==
              match NextToken(s, floats)
              case None => None
              case Some(l) => if l.token == Eof then Some([Eof]) else Prepend([l.token], Tokenize(l.rest, floats))
    ensures NextToken(s, floats).Some? && NextToken(s, floats).value.token != Eof ==> |NextToken(s, floats).value.rest| < |s|
  {
    hide LexString, LexBlockComment, SymbolOf, NumberExtent, KeywordOf, DigitsValue;
    var start := s[Run(s, IsWhitespace)..];
    if start != [] && LexToken(start, floats).Some? {
      TokenShrinks(start, floats);
    }
  }

  function MarkExtent(s: string): (n: nat)
    requires s != []
    ensures n <= |s|
  {
    if Begins(s[1..], '+') || Begins(s[1..], '-') then 2 else 1
  }

  lemma ExponentIs(s: string, n: nat, rest: string)
    requires s != [] && n == MarkExtent(s) && rest == s[n..]
    ensures ExponentExtent(s) == (if Run(rest, IsDigit) == 0 then None else Some(n + Run(rest, IsDigit)))
  {
    hide IsDigit, Run;
  }

  predicate StartsFraction(s: string) {
    |s| > 1 && s[0] == '.' && IsDigit(s[1])
  }

  lemma MantissaIs(s: string, n: nat, rest: string)
    requires n == Run(s, IsDigit) && rest == s[n..]
    ensures MantissaExtent(s) == (if StartsFraction(rest) then (n + 1 + Run(rest[1..], IsDigit), true) else (n, false))
  {
    hide IsDigit, Run;
    assert rest != [] ==> rest[1..] == s[n + 1..];
  }

  lemma TakenTwice(s: string, rest: string, a: string, b: string)
    requires |a| <= |s| && a == s[..|a|] && rest == s[|a|..] && |b| <= |rest| && b == rest[..|b|]
    ensures |a + b| <= |s| && a + b == s[..|a + b|] && rest[|b|..] == s[|a + b|..]
  {
  }

  lemma TwoStep(s: string)
    ensures |s| >= 2 ==> s[1..][1..] == s[2..] && s[1..][0] == s[1]
  {
  }
}
