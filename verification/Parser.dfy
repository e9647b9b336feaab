/**
 The recursive-descent parser as an object: a position and a depth counter that
 its methods advance in place. Every success consumes tokens, never moves past
 the end, and restores the depth; without EXISTS subqueries the expression
 methods compute exactly what the grammar functions say.
 */
module Parsers {
  import opened Bytes
  import opened Wrappers
  import opened Values
  import opened Syntax
  import opened Grammar

  /** Where parsing failed: an index into the tokens. */
  datatype ParseError = ParseError(at: nat)

  type ParseResult<T> = Result<T, ParseError>

  function WithoutComments(ts: seq<Token>): seq<Token> {
    if ts == [] then [] else (if ts[0].Comment? then [] else [ts[0]]) + WithoutComments(ts[1..])
  }

  /** The comments are left out and everything else stays, in order. */
  lemma {:induction false} CommentsDropped(a: seq<Token>, b: seq<Token>, t: Token)
    ensures WithoutComments([t]) == if t.Comment? then [] else [t]
    ensures WithoutComments(a + b) == WithoutComments(a) + WithoutComments(b)
  {
    assert [t][1..] == [];
    if a == [] {
      assert a + b == b;
    } else {
      assert (a + b)[0] == a[0] && (a + b)[1..] == a[1..] + b;
      CommentsDropped(a[1..], b, t);
    }
  }

  /** No EXISTS keyword among the tokens read. */
  ghost predicate NoExists(ts: seq<Token>, from: nat, to: nat) {
    forall i :: from <= i < to && i < |ts| ==> ts[i] != Kw(KwExists)
  }

  /** The result and the remaining tokens are what the grammar function says. */
  ghost predicate Agrees<T(!new)>(spec: Parse<T>, r: ParseResult<T>, rest: seq<Token>) {
    if r.Success? then spec == Some(Parsed(r.value, rest)) else spec == None
  }

  function LowerCase(c: char): char {
    if 'A' <= c <= 'Z' then (c as int + 32) as char else c
  }

  /** `eq_ignore_ascii_case`. */
  predicate SameIgnoringCase(a: string, b: string) {
    |a| == |b| && forall i :: 0 <= i < |a| ==> LowerCase(a[i]) == LowerCase(b[i])
  }

  /** Letters may differ by their case, everything else must be the same. */
  lemma CaseIgnored(a: string, b: string)
    ensures SameIgnoringCase(a, b) <==>
              && |a| == |b|
              && forall i :: 0 <= i < |a| ==>
                   || a[i] == b[i] || ('A' <= a[i] <= 'Z' && b[i] as int == a[i] as int + 32)
                   || ('A' <= b[i] <= 'Z' && a[i] as int == b[i] as int + 32)
  {
  }

  function EndOf(ts: seq<Token>): (n: nat)
    ensures n <= |ts|
  {
    if ts == [] || ts[0] == Eof then 0 else 1 + EndOf(ts[1..])
  }

  lemma {:induction false} BeforeEnd(ts: seq<Token>, i: nat)
    requires i <= EndOf(ts)
    ensures i < EndOf(ts) <==> i < |ts| && ts[i] != Eof
  {
    if i > 0 {
      BeforeEnd(ts[1..], i - 1);
    }
  }

  lemma Advanced(ts: seq<Token>, pos: nat, n: nat)
    requires pos + n <= |ts|
    ensures ts[pos..][n..] == ts[pos + n..]
    ensures pos < |ts| ==> ts[pos..] != [] && Peek(ts[pos..]) == ts[pos]
    ensures pos == |ts| ==> ts[pos..] == [] && Peek(ts[pos..]) == Eof
  {
  }

  class Parser {
    const tokens: seq<Token>
    var pos: nat
    var depth: nat

    constructor (all: seq<Token>)
      ensures tokens == WithoutComments(all) && pos == 0 && depth == 0
    {
      tokens := WithoutComments(all);
      pos := 0;
      depth := 0;
    }

    /** Where the first Eof stands. */
    ghost function End(): (n: nat)
      ensures n <= |tokens|
    {
      EndOf(tokens)
    }

    /** The tokens still to be read. */
    function Rest(): seq<Token>
      requires pos <= |tokens|
      reads this
    {
      tokens[pos..]
    }

    /** From `p` and `d` the parser moved forward, not past the Eof; on success by `least` tokens or more, back at depth `d`. */
    ghost predicate Moved(p: nat, d: nat, ok: bool, least: nat)
      reads this
    {
      p <= pos <= End() && (ok ==> p + least <= pos && depth == d)
    }

    function Next(): Token
      requires pos <= |tokens|
      reads this
    {
      if pos < |tokens| then tokens[pos] else Eof
    }

    function NextAt(offset: nat): Token
      requires pos <= |tokens|
      reads this
    {
      if pos + offset < |tokens| then tokens[pos + offset] else Eof
    }

    method Advance()
      requires pos <= End()
      modifies this`pos
      ensures old(pos) <= pos <= End()
      ensures old(Next()) != Eof ==> pos == old(pos) + 1 && Rest() == old(Rest())[1..]
      ensures old(Next()) == Eof ==> pos == old(pos)
    {
      BeforeEnd(tokens, pos);
      if Next() != Eof {
        Advanced(tokens, pos, 1);
        pos := pos + 1;
      }
    }

    method MatchToken(expected: Token) returns (matched: bool)
      requires pos <= End() && expected != Eof
      modifies this`pos
      ensures matched <==> old(Next()) == expected
      ensures matched ==> pos == old(pos) + 1 <= End() && Rest() == old(Rest())[1..]
      ensures !matched ==> pos == old(pos)
    {
      if Next() == expected {
        Advance();
        return true;
      }
      return false;
    }

    method Expect(expected: Token) returns (r: ParseResult<()>)
      requires pos <= End() && expected != Eof
      modifies this`pos
      ensures r.Success? <==> old(Next()) == expected
      ensures r.Success? ==> pos == old(pos) + 1 <= End() && Rest() == old(Rest())[1..]
      ensures r.Failure? ==> pos == old(pos)
    {
      var matched := MatchToken(expected);
      return if matched then Success(()) else Failure(ParseError(pos));
    }

    /** An error leaves the counter raised, as the code does. */
    method EnterDepth() returns (r: ParseResult<()>)
      modifies this`depth
      ensures depth == old(depth) + 1 && (r.Success? <==> depth <= MAX_DEPTH)
    {
      depth := depth + 1;
      return if depth > MAX_DEPTH then Failure(ParseError(pos)) else Success(());
    }

    method ExpectIdent() returns (r: ParseResult<string>)
      requires pos <= End()
      modifies this`pos
      ensures r.Success? <==> old(Next()).Ident?
      ensures r.Success? ==> pos == old(pos) + 1 <= End() && Rest() == old(Rest())[1..] && r.value == old(Next()).name
      ensures r.Failure? ==> pos == old(pos)
    {
      if Next().Ident? {
        var name := Next().name;
        Advance();
        return Success(name);
      }
      return Failure(ParseError(pos));
    }

    method ExpectIdentOrKeyword() returns (r: ParseResult<string>)
      requires pos <= End()
      modifies this`pos
      ensures r.Success? <==> NameOf(old(Next())).Some?
      ensures r.Success? ==> pos == old(pos) + 1 <= End() && Rest() == old(Rest())[1..]
                             && Some(r.value) == NameOf(old(Next()))
      ensures r.Failure? ==> pos == old(pos)
    {
      hide KeywordName;
      var name := NameOf(Next());
      if name.None? {
        return Failure(ParseError(pos));
      }
      Advance();
      return Success(name.value);
    }

    // ----- expressions -----

    /** `parse_expression`. */
    method ParseExpr() returns (r: ParseResult<Expression>)
      requires pos <= End()
      modifies this
      ensures Moved(old(pos), old(depth), r.Success?, 1)
      ensures NoExists(tokens, old(pos), pos) ==> Agrees(ParseExpression(old(Rest()), old(depth)), r, Rest())
      decreases |tokens| - pos, 50
    {
      hide ParseAt;
      r := ParseLevel(OR);
    }

    /** One rung of the ladder. */
    method ParseLevel(level: nat) returns (r: ParseResult<Expression>)
      requires pos <= End() && level <= PRIMARY
      modifies this
      ensures Moved(old(pos), old(depth), r.Success?, 1)
      ensures NoExists(tokens, old(pos), pos) ==> Agrees(ParseAt(level, old(Rest()), old(depth)), r, Rest())
      decreases |tokens| - pos, 41 - 2 * level
    {
      hide ParseAt, Agrees;
      if Folded(level) {
        r := ParseFoldedLevel(level);
      } else if level == NOT {
        r := ParseNot();
      } else if level == COMPARISON {
        r := ParseComparison();
      } else if level == UNARY {
        r := ParseUnary();
      } else if level == POSTFIX {
        r := ParsePostfix();
      } else {
        PrimaryLevel(Rest(), depth);
        r := ParsePrimaryExpr();
      }
    }

    /** OR, XOR, AND, `||`, the additive and the multiplicative operators: the left operand is rebuilt at every turn. */
    method ParseFoldedLevel(level: nat) returns (r: ParseResult<Expression>)
      requires pos <= End() && Folded(level)
      modifies this
      ensures Moved(old(pos), old(depth), r.Success?, 1)
      ensures NoExists(tokens, old(pos), pos) ==> Agrees(ParseAt(level, old(Rest()), old(depth)), r, Rest())
      decreases |tokens| - pos, 40 - 2 * level
    {
      hide ParseAt, FoldRest;
      ghost var spec := ParseAt(level, Rest(), depth);
      FoldedLevel(level, Rest(), depth);
      var left :- ParseLevel(level + 1);
      while Operator(level, Next()).Some?
        invariant old(pos) + 1 <= pos <= End() && depth == old(depth)
        invariant NoExists(tokens, old(pos), pos) ==> FoldRest(level, left, Rest(), depth) == spec
        decreases |tokens| - pos
      {
        var op := Operator(level, Next()).value;
        FoldTurn(level, left, Rest(), depth);
        Advanced(tokens, pos, 1);
        Advance();
        var right :- ParseLevel(level + 1);
        left := Expression.Binary(left, op, right);
      }
      FoldTurn(level, left, Rest(), depth);
      return Success(left);
    }

    method ParseNot() returns (r: ParseResult<Expression>)
      requires pos <= End()
      modifies this
      ensures Moved(old(pos), old(depth), r.Success?, 1)
      ensures NoExists(tokens, old(pos), pos) ==> Agrees(ParseAt(NOT, old(Rest()), old(depth)), r, Rest())
      decreases |tokens| - pos, 40 - 2 * NOT
    {
      hide ParseAt;
      NotLevel(Rest(), depth);
      Advanced(tokens, pos, 0);
      if Next() == Kw(KwNot) {
        Advance();
        var _ :- EnterDepth();
        var operand :- ParseLevel(NOT);
        depth := depth - 1;
        return Success(Unary(Not, operand));
      }
      r := ParseLevel(COMPARISON);
    }

    /** At most one comparison operator in the chain; IS NULL, IN and LIKE may follow one another. */
    method ParseComparison() returns (r: ParseResult<Expression>)
      requires pos <= End()
      modifies this
      ensures Moved(old(pos), old(depth), r.Success?, 1)
      ensures NoExists(tokens, old(pos), pos) ==> Agrees(ParseAt(COMPARISON, old(Rest()), old(depth)), r, Rest())
      decreases |tokens| - pos, 40 - 2 * COMPARISON
    {
      hide ParseAt, CompareRest, EndOf, NullTest;
      ghost var spec := ParseAt(COMPARISON, Rest(), depth);
      ComparisonLevel(Rest(), depth);
      var left :- ParseLevel(CONCAT);
      var compared := false;
      while true
        invariant old(pos) + 1 <= pos <= End() && depth == old(depth)
        invariant NoExists(tokens, old(pos), pos) ==> CompareRest(left, Rest(), compared, depth) == spec
        decreases |tokens| - pos
      {
        CompareTurn(left, Rest(), compared, depth);
        Advanced(tokens, pos, 0);
        if ComparisonOperator(Next()).Some? {
          if compared {
            return Failure(ParseError(pos));
          }
          compared := true;
          var op := ComparisonOperator(Next()).value;
          var right :- ParseRightSide();
          left := Expression.Binary(left, op, right);
        } else if Next() == Kw(KwIs) {
          left :- ParseNullTest(left);
        } else if Next() == Kw(KwIn) {
          var list :- ParseRightSide();
          left := In(left, list);
        } else if Next() == Kw(KwLike) {
          var pattern :- ParseRightSide();
          left := Like(left, pattern);
        } else {
          return Success(left);
        }
      }
    }

    /** The operand after the operator the parser stands at. */
    method ParseRightSide() returns (r: ParseResult<Expression>)
      requires pos <= End() && Next() != Eof
      modifies this
      ensures Moved(old(pos), old(depth), r.Success?, 2)
      ensures NoExists(tokens, old(pos), pos) ==> Agrees(ParseAt(CONCAT, old(Rest())[1..], old(depth)), r, Rest())
      decreases |tokens| - pos, 40 - 2 * COMPARISON
    {
      hide ParseAt, EndOf;
      Advance();
      r := ParseLevel(CONCAT);
    }

    method ParseNullTest(left: Expression) returns (r: ParseResult<Expression>)
      requires pos <= End() && pos < |tokens| && Next() == Kw(KwIs)
      modifies this`pos
      ensures old(pos) < pos <= End()
      ensures r.Success? <==> NullTest(left, old(Rest())).Some?
      ensures r.Success? ==> NullTest(left, old(Rest())) == Some(Parsed(r.value, Rest()))
    {
      var ts := Rest();
      Twice(Rest());
      Advanced(tokens, pos, 1);
      Advance();
      Advanced(tokens, pos, 0);
      var negated := MatchToken(Kw(KwNot));
      Advanced(tokens, pos, 0);
      var _ :- Expect(Kw(KwNull));
      return Success(if negated then IsNotNull(left) else IsNull(left));
    }

    method ParseUnary() returns (r: ParseResult<Expression>)
      requires pos <= End()
      modifies this
      ensures Moved(old(pos), old(depth), r.Success?, 1)
      ensures NoExists(tokens, old(pos), pos) ==> Agrees(ParseAt(UNARY, old(Rest()), old(depth)), r, Rest())
      decreases |tokens| - pos, 40 - 2 * UNARY
    {
      hide ParseAt;
      UnaryLevel(Rest(), depth);
      Advanced(tokens, pos, 0);
      if PrefixOperator(Next()).Some? {
        var op := PrefixOperator(Next()).value;
        Advance();
        var _ :- EnterDepth();
        var operand :- ParseLevel(UNARY);
        depth := depth - 1;
        return Success(Unary(op, operand));
      }
      r := ParseLevel(POSTFIX);
    }

    method ParsePostfix() returns (r: ParseResult<Expression>)
      requires pos <= End()
      modifies this
      ensures Moved(old(pos), old(depth), r.Success?, 1)
      ensures NoExists(tokens, old(pos), pos) ==> Agrees(ParseAt(POSTFIX, old(Rest()), old(depth)), r, Rest())
      decreases |tokens| - pos, 40 - 2 * POSTFIX
    {
      hide ParseAt, PostfixRest, EndOf, NameOf;
      ghost var spec := ParseAt(POSTFIX, Rest(), depth);
      PostfixLevel(Rest(), depth);
      var e :- ParseLevel(PRIMARY);
      while Next() == Sym(Dot)
        invariant old(pos) + 1 <= pos <= End() && depth == old(depth)
        invariant NoExists(tokens, old(pos), pos) ==> PostfixRest(e, Rest()) == spec
        decreases |tokens| - pos
      {
        PostfixTurn(e, Rest());
        Twice(Rest());
        Advanced(tokens, pos, 1);
        Advance();
        Advanced(tokens, pos, 0);
        var property :- ExpectIdentOrKeyword();
        e := PropertyAccess(e, property);
      }
      Advanced(tokens, pos, 0);
      PostfixTurn(e, Rest());
      return Success(e);
    }

    // ----- primaries -----

    method ParsePrimaryExpr() returns (r: ParseResult<Expression>)
      requires pos <= End()
      modifies this
      ensures Moved(old(pos), old(depth), r.Success?, 1)
      ensures NoExists(tokens, old(pos), pos) ==> Agrees(ParsePrimary(old(Rest()), old(depth)), r, Rest())
      decreases |tokens| - pos, 20
    {
      hide ParsePrimary, AtomOf, AggregateOf, Agrees;
      ghost var ts := Rest();
      Advanced(tokens, pos, 0);
      EofIsNothing();
      var t := Next();
      if AtomOf(t).Some? {
        AtomPrimary(ts, depth);
        Advance();
        Succeeds(Parsed(AtomOf(t).value, Rest()));
        return Success(AtomOf(t).value);
      }
      if AggregateOf(t).Some? {
        if NextAt(1) == Sym(LParen) {
          r := ParseAggregateExpr(AggregateOf(t).value);
        } else {
          r := ParseKeywordName();
        }
      } else if t == Sym(LParen) {
        r := ParseParenthesized();
      } else if t == Sym(LBracket) {
        r := ParseListExpr();
      } else if t == Sym(LBrace) {
        r := ParseMapLiteral();
      } else if t == Kw(KwCase) {
        r := ParseCaseExpr();
      } else if t == Kw(KwExists) {
        r := ParseExists();
      } else if t == Kw(KwType) {
        TypePrimary(ts, depth);
        Advance();
        r := ParseCallRest("type");
      } else if t.Ident? {
        IdentPrimary(ts, depth);
        Advance();
        r := ParseCallRest(t.name);
      } else {
        NoPrimary(ts, depth);
        r := Failure(ParseError(pos));
        Fails<Expression>(r, Rest());
      }
    }

    /** An aggregate keyword that no parenthesis follows is a name. */
    method ParseKeywordName() returns (r: ParseResult<Expression>)
      requires pos <= End() && pos < |tokens| && AtomOf(Next()).None? && AggregateOf(Next()).Some? && NextAt(1) != Sym(LParen)
      modifies this`pos
      ensures Moved(old(pos), old(depth), r.Success?, 1)
      ensures Agrees(ParsePrimary(old(Rest()), old(depth)), r, Rest())
    {
      Advanced(tokens, pos, 1);
      Advanced(tokens, pos + 1, 0);
      AggregatePrimary(Rest(), depth);
      var name := NameOf(Next()).value;
      Advance();
      return Success(Identifier(name));
    }

    method ParseParenthesized() returns (r: ParseResult<Expression>)
      requires pos <= End() && pos < |tokens| && Next() == Sym(LParen)
      modifies this
      ensures Moved(old(pos), old(depth), r.Success?, 1)
      ensures NoExists(tokens, old(pos), pos) ==> Agrees(ParsePrimary(old(Rest()), old(depth)), r, Rest())
      decreases |tokens| - pos, 15
    {
      hide ParsePrimary, ParseExpression, EndOf;
      ParenPrimary(Rest(), depth);
      Advanced(tokens, pos, 1);
      var _ :- EnterDepth();
      Advance();
      var inner :- ParseExpr();
      Advanced(tokens, pos, 0);
      var _ :- Expect(Sym(RParen));
      depth := depth - 1;
      return Success(inner);
    }

    method ParseListExpr() returns (r: ParseResult<Expression>)
      requires pos <= End() && pos < |tokens| && Next() == Sym(LBracket)
      modifies this
      ensures Moved(old(pos), old(depth), r.Success?, 1)
      ensures NoExists(tokens, old(pos), pos) ==> Agrees(ParsePrimary(old(Rest()), old(depth)), r, Rest())
      decreases |tokens| - pos, 15
    {
      hide ParsePrimary, ParseEnclosed;
      ListPrimary(Rest(), depth);
      Advanced(tokens, pos, 1);
      Advance();
      var items :- ParseList(Sym(RBracket));
      return Success(ListExpr(items));
    }

    /** Comma-separated expressions up to the closing token, which is consumed. */
    method ParseList(close: Token) returns (r: ParseResult<seq<Expression>>)
      requires pos <= End() && (close == Sym(RBracket) || close == Sym(RParen))
      modifies this
      ensures Moved(old(pos), old(depth), r.Success?, 1)
      ensures NoExists(tokens, old(pos), pos) ==> Agrees(ParseEnclosed(old(Rest()), close, old(depth)), r, Rest())
      decreases |tokens| - pos, 60
    {
      hide ParseItems, ParseExpression, EndOf;
      ghost var ts := Rest();
      Advanced(tokens, pos, 0);
      var items: seq<Expression> := [];
      if Next() != close {
        items :- ParseItemList();
      }
      Advanced(tokens, pos, 0);
      var _ :- Expect(close);
      return Success(items);
    }

    method ParseItemList() returns (r: ParseResult<seq<Expression>>)
      requires pos <= End()
      modifies this
      ensures Moved(old(pos), old(depth), r.Success?, 1)
      ensures NoExists(tokens, old(pos), pos) ==> Agrees(ParseItems([], old(Rest()), old(depth)), r, Rest())
      decreases |tokens| - pos, 55
    {
      hide ParseItems, ParseExpression;
      ghost var spec := ParseItems([], Rest(), depth);
      ItemsTurn([], Rest(), depth);
      var first :- ParseExpr();
      var items := [first];
      assert [] + [first] == items;
      while Next() == Sym(Comma)
        invariant old(pos) + 1 <= pos <= End() && depth == old(depth)
        invariant NoExists(tokens, old(pos), pos) ==> ItemsAfter(items, Rest(), depth) == spec
        decreases |tokens| - pos
      {
        Advanced(tokens, pos, 1);
        Advance();
        ItemsTurn(items, Rest(), depth);
        var item :- ParseExpr();
        items := items + [item];
      }
      Advanced(tokens, pos, 0);
      return Success(items);
    }

    method ParseMapLiteral() returns (r: ParseResult<Expression>)
      requires pos <= End() && pos < |tokens| && Next() == Sym(LBrace)
      modifies this
      ensures Moved(old(pos), old(depth), r.Success?, 1)
      ensures NoExists(tokens, old(pos), pos) ==> Agrees(ParsePrimary(old(Rest()), old(depth)), r, Rest())
      decreases |tokens| - pos, 15
    {
      hide ParsePrimary, ParseEntries;
      MapPrimary(Rest(), depth);
      Advanced(tokens, pos, 1);
      Advance();
      var entries :- ParseBraced(false);
      return Success(MapExpr(entries));
    }

    /** `key: value` entries up to the closing brace, which is consumed. */
    method ParseBraced(keywords: bool) returns (r: ParseResult<seq<Entry>>)
      requires pos <= End()
      modifies this
      ensures Moved(old(pos), old(depth), r.Success?, 1)
      ensures NoExists(tokens, old(pos), pos) ==> Agrees(Braced(old(Rest()), keywords, old(depth)), r, Rest())
      decreases |tokens| - pos, 60
    {
      hide ParseEntries;
      Advanced(tokens, pos, 0);
      var entries: seq<Entry> := [];
      if Next() != Sym(RBrace) {
        entries :- ParseEntryList(keywords);
      }
      Advanced(tokens, pos, 0);
      var _ :- Expect(Sym(RBrace));
      return Success(entries);
    }

    method ParseEntryList(keywords: bool) returns (r: ParseResult<seq<Entry>>)
      requires pos <= End()
      modifies this
      ensures Moved(old(pos), old(depth), r.Success?, 1)
      ensures NoExists(tokens, old(pos), pos) ==> Agrees(ParseEntries([], old(Rest()), keywords, old(depth)), r, Rest())
      decreases |tokens| - pos, 58
    {
      hide ParseEntries, ParseExpression;
      ghost var spec := ParseEntries([], Rest(), keywords, depth);
      EntriesTurn([], Rest(), keywords, depth);
      var first :- ParseEntry(keywords);
      var entries := [first];
      assert [] + [first] == entries;
      while Next() == Sym(Comma)
        invariant old(pos) + 1 <= pos <= End() && depth == old(depth)
        invariant NoExists(tokens, old(pos), pos) ==> EntriesAfter(entries, Rest(), keywords, depth) == spec
        decreases |tokens| - pos
      {
        Advanced(tokens, pos, 1);
        Advance();
        EntriesTurn(entries, Rest(), keywords, depth);
        var entry :- ParseEntry(keywords);
        entries := entries + [entry];
      }
      Advanced(tokens, pos, 0);
      return Success(entries);
    }

    /** One entry; only pattern property maps take keywords as keys. */
    method ParseEntry(keywords: bool) returns (r: ParseResult<Entry>)
      requires pos <= End()
      modifies this
      ensures Moved(old(pos), old(depth), r.Success?, 1)
      ensures NoExists(tokens, old(pos), pos) ==> Agrees(OneEntry(old(Rest()), keywords, old(depth)), r, Rest())
      decreases |tokens| - pos, 56
    {
      hide ParseExpression, KeyOf;
      Twice(Rest());
      var key :- ParseKey(keywords);
      Advanced(tokens, pos, 0);
      var _ :- Expect(Sym(Colon));
      var value :- ParseExpr();
      return Success(Entry(key, value));
    }

    method ParseKey(keywords: bool) returns (r: ParseResult<string>)
      requires pos <= End()
      modifies this`pos
      ensures Moved(old(pos), depth, r.Success?, 1)
      ensures r.Success? <==> KeyOf(Peek(old(Rest())), keywords).Some?
      ensures r.Success? ==> KeyOf(Peek(old(Rest())), keywords) == Some(r.value) && old(Rest()) != [] && Rest() == old(Rest())[1..]
    {
      hide KeywordName;
      Advanced(tokens, pos, 0);
      if keywords {
        r := ExpectIdentOrKeyword();
      } else {
        r := ExpectIdent();
      }
    }

    /** `parse_property_map`, in patterns. */
    method ParsePropertyMapTokens() returns (r: ParseResult<seq<Entry>>)
      requires pos <= End()
      modifies this
      ensures Moved(old(pos), old(depth), r.Success?, 2)
      ensures NoExists(tokens, old(pos), pos) ==> Agrees(ParsePropertyMap(old(Rest()), old(depth)), r, Rest())
      decreases |tokens| - pos, 70
    {
      hide ParseEntries;
      Advanced(tokens, pos, 0);
      Twice(Rest());
      var _ :- Expect(Sym(LBrace));
      r := ParseBraced(true);
    }

    method ParseCallRest(name: string) returns (r: ParseResult<Expression>)
      requires pos <= End()
      modifies this
      ensures Moved(old(pos), old(depth), r.Success?, 0)
      ensures NoExists(tokens, old(pos), pos) ==> Agrees(ParseCall(name, old(Rest()), old(depth)), r, Rest())
      decreases |tokens| - pos, 65
    {
      hide ParseEnclosed;
      Advanced(tokens, pos, 0);
      var call := MatchToken(Sym(LParen));
      if !call {
        return Success(Identifier(name));
      }
      var args :- ParseList(Sym(RParen));
      return Success(FunctionCall(name, args));
    }

    method ParseAggregateExpr(f: AggregateFunction) returns (r: ParseResult<Expression>)
      requires pos <= End() && pos < |tokens| && AggregateOf(Next()) == Some(f) && NextAt(1) == Sym(LParen)
      modifies this
      ensures Moved(old(pos), old(depth), r.Success?, 1)
      ensures NoExists(tokens, old(pos), pos) ==> Agrees(ParsePrimary(old(Rest()), old(depth)), r, Rest())
      decreases |tokens| - pos, 15
    {
      hide ParsePrimary, ParseAggregate, AtomOf, AggregateOf;
      EofIsNothing();
      Advanced(tokens, pos, 2);
      AggregateCall(Rest(), f, depth);
      Twice(Rest());
      Advanced(tokens, pos, 1);
      Advanced(tokens, pos + 1, 0);
      Advance();
      Advance();
      r := ParseAggregateArg(f);
    }

    method ParseAggregateArg(f: AggregateFunction) returns (r: ParseResult<Expression>)
      requires pos <= End()
      modifies this
      ensures Moved(old(pos), old(depth), r.Success?, 1)
      ensures NoExists(tokens, old(pos), pos) ==> Agrees(ParseAggregate(f, old(Rest()), old(depth)), r, Rest())
      decreases |tokens| - pos, 65
    {
      hide ParseExpression;
      Advanced(tokens, pos, 0);
      Twice(Rest());
      var star := MatchToken(Sym(Star));
      if star {
        Advanced(tokens, pos, 0);
        var _ :- Expect(Sym(RParen));
        return Success(Aggregate(f, false, None));
      }
      r := ParseAggregateOperand(f);
    }

    method ParseAggregateOperand(f: AggregateFunction) returns (r: ParseResult<Expression>)
      requires pos <= End() && Next() != Sym(Star)
      modifies this
      ensures Moved(old(pos), old(depth), r.Success?, 1)
      ensures NoExists(tokens, old(pos), pos) ==> Agrees(ParseAggregate(f, old(Rest()), old(depth)), r, Rest())
      decreases |tokens| - pos, 64
    {
      hide ParseExpression, ParseAggregate;
      Advanced(tokens, pos, 0);
      OperandTurn(f, Rest(), depth);
      var distinct := MatchToken(Kw(KwDistinct));
      r := ParseOperandRest(f, distinct);
    }

    method ParseOperandRest(f: AggregateFunction, distinct: bool) returns (r: ParseResult<Expression>)
      requires pos <= End()
      modifies this
      ensures Moved(old(pos), old(depth), r.Success?, 1)
      ensures NoExists(tokens, old(pos), pos) ==> Agrees(OperandRest(f, distinct, old(Rest()), old(depth)), r, Rest())
      decreases |tokens| - pos, 63
    {
      hide ParseExpression;
      Advanced(tokens, pos, 0);
      var arg: Option<Expression> := None;
      if Next() != Sym(RParen) {
        var e :- ParseExpr();
        arg := Some(e);
      }
      Advanced(tokens, pos, 0);
      var _ :- Expect(Sym(RParen));
      return Success(Aggregate(f, distinct, arg));
    }

    method ParseCaseExpr() returns (r: ParseResult<Expression>)
      requires pos <= End() && pos < |tokens| && Next() == Kw(KwCase)
      modifies this
      ensures Moved(old(pos), old(depth), r.Success?, 1)
      ensures NoExists(tokens, old(pos), pos) ==> Agrees(ParsePrimary(old(Rest()), old(depth)), r, Rest())
      decreases |tokens| - pos, 15
    {
      hide ParsePrimary, ParseExpression, ParseArms;
      CasePrimary(Rest(), depth);
      Advanced(tokens, pos, 1);
      Advance();
      Advanced(tokens, pos, 0);
      var subject: Option<Expression> := None;
      if Next() != Kw(KwWhen) {
        var e :- ParseExpr();
        subject := Some(e);
      }
      r := ParseBranchList(subject);
    }

    method ParseBranchList(subject: Option<Expression>) returns (r: ParseResult<Expression>)
      requires pos <= End()
      modifies this
      ensures Moved(old(pos), old(depth), r.Success?, 1)
      ensures NoExists(tokens, old(pos), pos) ==> Agrees(ParseBranches(subject, old(Rest()), old(depth)), r, Rest())
      decreases |tokens| - pos, 65
    {
      hide ParseArms, ParseBranches, AfterArms, EndOf;
      BranchesTurn(subject, Rest(), depth);
      var arms :- ParseArmList();
      r := ParseElseAndEnd(subject, arms);
    }

    method ParseElseAndEnd(subject: Option<Expression>, arms: seq<Arm>) returns (r: ParseResult<Expression>)
      requires pos <= End()
      modifies this
      ensures Moved(old(pos), old(depth), r.Success?, 1)
      ensures NoExists(tokens, old(pos), pos) ==> Agrees(AfterArms(subject, arms, old(Rest()), old(depth)), r, Rest())
      decreases |tokens| - pos, 64
    {
      hide ParseExpression, EndOf;
      Advanced(tokens, pos, 0);
      var otherwise: Option<Expression> := None;
      var else_ := MatchToken(Kw(KwElse));
      if else_ {
        var e :- ParseExpr();
        otherwise := Some(e);
      }
      Advanced(tokens, pos, 0);
      var _ :- Expect(Kw(KwEnd));
      return Success(Case(subject, arms, otherwise));
    }

    method ParseArmList() returns (r: ParseResult<seq<Arm>>)
      requires pos <= End()
      modifies this
      ensures Moved(old(pos), old(depth), r.Success?, 0)
      ensures NoExists(tokens, old(pos), pos) ==> Agrees(ParseArms([], old(Rest()), old(depth)), r, Rest())
      decreases |tokens| - pos, 60
    {
      hide ParseArms, ParseExpression, EndOf;
      ghost var spec := ParseArms([], Rest(), depth);
      var arms: seq<Arm> := [];
      while Next() == Kw(KwWhen)
        invariant old(pos) <= pos <= End() && depth == old(depth)
        invariant NoExists(tokens, old(pos), pos) ==> ParseArms(arms, Rest(), depth) == spec
        decreases |tokens| - pos
      {
        ArmsTurn(arms, Rest(), depth);
        Advanced(tokens, pos, 1);
        Advance();
        var condition :- ParseExpr();
        Advanced(tokens, pos, 0);
        var _ :- Expect(Kw(KwThen));
        var result :- ParseExpr();
        arms := arms + [Arm(condition, result)];
      }
      Advanced(tokens, pos, 0);
      ArmsTurn(arms, Rest(), depth);
      return Success(arms);
    }

    /** EXISTS { statement }. */
    method ParseExists() returns (r: ParseResult<Expression>)
      requires pos <= End() && pos < |tokens| && Next() == Kw(KwExists)
      modifies this
      ensures Moved(old(pos), old(depth), r.Success?, 1)
      ensures !NoExists(tokens, old(pos), pos)
      decreases |tokens| - pos, 15
    {
      Advance();
      var _ :- Expect(Sym(LBrace));
      var statement :- ParseStatement();
      var _ :- Expect(Sym(RBrace));
      return Success(Exists(statement));
    }

    predicate IsEdgeStart()
      requires pos <= |tokens|
      reads this
    {
      Next() == Sym(LeftArrow) || Next() == Sym(Arrow) || (Next() == Sym(Minus) && NextAt(1) == Sym(LBracket))
    }

    // ----- statements, recognized -----

    /** The top-level loop: every turn consumes a statement, so it ends. */
    method Parse() returns (r: ParseResult<seq<Statement>>)
      requires pos <= End()
      modifies this
      ensures Moved(old(pos), old(depth), r.Success?, 0)
      ensures r.Success? ==> pos == End() && forall i :: 0 <= i < |r.value| ==> r.value[i].tokens != []
    {
      var statements: seq<Statement> := [];
      while Next() != Eof
        invariant old(pos) <= pos <= End() && depth == old(depth)
        invariant forall i :: 0 <= i < |statements| ==> statements[i].tokens != []
        decreases |tokens| - pos
      {
        var statement :- ParseStatement();
        statements := statements + [statement];
        var _ := MatchToken(Sym(Semicolon));
      }
      BeforeEnd(tokens, pos);
      return Success(statements);
    }

    method ParseStatement() returns (r: ParseResult<Statement>)
      requires pos <= End()
      modifies this
      ensures Moved(old(pos), old(depth), r.Success?, 1)
      ensures r.Success? ==> r.value.tokens == tokens[old(pos)..pos]
      decreases |tokens| - pos, 90
    {
      var start := pos;
      var _ :- ParseStatementBody();
      return Success(Statement(tokens[start..pos]));
    }

    method ParseStatementBody() returns (r: ParseResult<()>)
      requires pos <= End()
      modifies this
      ensures Moved(old(pos), old(depth), r.Success?, 1)
      decreases |tokens| - pos, 89
    {
      var t := Next();
      if t == Kw(KwMatch) {
        r := ParseMatchStatement();
      } else if t == Kw(KwOptional) {
        Advance();
        r := ParseMatchStatement();
      } else if t == Kw(KwReturn) {
        r := ParseReturnStatement();
      } else if t == Kw(KwWith) {
        r := ParseWithStatement();
      } else if t == Kw(KwCall) {
        r := ParseCallStatement();
      } else if t == Kw(KwInsert) {
        r := ParseInsertStatement();
      } else if t == Kw(KwSet) {
        r := ParseSetStatement();
      } else if t == Kw(KwDelete) || t == Kw(KwDetach) {
        r := ParseDeleteStatement();
      } else if t == Kw(KwRemove) {
        r := ParseRemoveStatement();
      } else if t == Kw(KwCreate) {
        r := ParseCreateStatement();
      } else if t == Kw(KwDrop) {
        r := ParseDropStatement();
      } else if t == Kw(KwList) {
        r := ParseListStatement();
      } else {
        r := Failure(ParseError(pos));
      }
    }

    method ParseMatchStatement() returns (r: ParseResult<()>)
      requires pos <= End()
      modifies this
      ensures Moved(old(pos), old(depth), r.Success?, 1)
      decreases |tokens| - pos, 88
    {
      var _ :- Expect(Kw(KwMatch));
      var _ :- ParseGraphPattern();
      var _ :- ParseOptionalWhere();
      var _ :- ParseOptionalOrderBy();
      var _ :- ParseLimitOffset();
      r := MaybeParseComposite();
    }

    method ParseReturnStatement() returns (r: ParseResult<()>)
      requires pos <= End()
      modifies this
      ensures Moved(old(pos), old(depth), r.Success?, 1)
      decreases |tokens| - pos, 88
    {
      var _ :- Expect(Kw(KwReturn));
      var distinct := MatchToken(Kw(KwDistinct));
      var _ :- ParseReturnItems();
      var _ :- ParseGroupHaving();
      var _ :- ParseOptionalOrderBy();
      var _ :- ParseLimitOffset();
      r := MaybeParseComposite();
    }

    method ParseGroupHaving() returns (r: ParseResult<()>)
      requires pos <= End()
      modifies this
      ensures Moved(old(pos), old(depth), r.Success?, 0)
      decreases |tokens| - pos, 61
    {
      if Next() == Kw(KwGroup) {
        var _ :- ParseGroupByClause();
      }
      var having := MatchToken(Kw(KwHaving));
      if having {
        var condition :- ParseExpr();
      }
      return Success(());
    }

    method ParseWithStatement() returns (r: ParseResult<()>)
      requires pos <= End()
      modifies this
      ensures Moved(old(pos), old(depth), r.Success?, 1)
      decreases |tokens| - pos, 88
    {
      var _ :- Expect(Kw(KwWith));
      var distinct := MatchToken(Kw(KwDistinct));
      var _ :- ParseReturnItems();
      var _ :- ParseOptionalWhere();
      var _ :- ParseOptionalOrderBy();
      r := ParseLimitOffset();
    }

    method ParseCallStatement() returns (r: ParseResult<()>)
      requires pos <= End()
      modifies this
      ensures Moved(old(pos), old(depth), r.Success?, 1)
      decreases |tokens| - pos, 88
    {
      hide EndOf;
      var _ :- Expect(Kw(KwCall));
      var name :- ExpectIdent();
      while Next() == Sym(Dot)
        invariant old(pos) + 1 <= pos <= End() && depth == old(depth)
        decreases |tokens| - pos
      {
        Advance();
        var part :- ExpectIdent();
      }
      var open := MatchToken(Sym(LParen));
      if open {
        var args :- ParseList(Sym(RParen));
      }
      r := ParseOptionalYield();
    }

    method ParseOptionalYield() returns (r: ParseResult<()>)
      requires pos <= End()
      modifies this`pos
      ensures Moved(old(pos), old(depth), r.Success?, 0)
    {
      var yielding := MatchToken(Kw(KwYield));
      if yielding {
        var item :- ExpectIdent();
        while Next() == Sym(Comma)
          invariant old(pos) + 1 <= pos <= End() && depth == old(depth)
          decreases |tokens| - pos
        {
          Advance();
          var next :- ExpectIdent();
        }
      }
      return Success(());
    }

    method ParseInsertStatement() returns (r: ParseResult<()>)
      requires pos <= End()
      modifies this
      ensures Moved(old(pos), old(depth), r.Success?, 1)
      decreases |tokens| - pos, 88
    {
      var _ :- Expect(Kw(KwInsert));
      var _ :- ParsePathPattern();
      while Next() == Sym(Comma)
        invariant old(pos) + 1 <= pos <= End() && depth == old(depth)
        decreases |tokens| - pos
      {
        Advance();
        var _ :- ParsePathPattern();
      }
      return Success(());
    }

    method ParseSetStatement() returns (r: ParseResult<()>)
      requires pos <= End()
      modifies this
      ensures Moved(old(pos), old(depth), r.Success?, 1)
      decreases |tokens| - pos, 88
    {
      var _ :- Expect(Kw(KwSet));
      var _ :- ParseSetItem();
      while Next() == Sym(Comma)
        invariant old(pos) + 1 <= pos <= End() && depth == old(depth)
        decreases |tokens| - pos
      {
        Advance();
        var _ :- ParseSetItem();
      }
      return Success(());
    }

    method ParseSetItem() returns (r: ParseResult<()>)
      requires pos <= End()
      modifies this
      ensures Moved(old(pos), old(depth), r.Success?, 1)
      decreases |tokens| - pos, 60
    {
      var target :- ParseTargetExpr();
      var label_ := MatchToken(Sym(Colon));
      if label_ {
        var name :- ExpectIdent();
        return Success(());
      }
      var _ :- Expect(Sym(Equals));
      var value :- ParseExpr();
      return Success(());
    }

    method ParseDeleteStatement() returns (r: ParseResult<()>)
      requires pos <= End()
      modifies this
      ensures Moved(old(pos), old(depth), r.Success?, 1)
      decreases |tokens| - pos, 88
    {
      var detach := MatchToken(Kw(KwDetach));
      var _ :- Expect(Kw(KwDelete));
      var target :- ParseExpr();
      while Next() == Sym(Comma)
        invariant old(pos) + 1 <= pos <= End() && depth == old(depth)
        decreases |tokens| - pos
      {
        Advance();
        var next :- ParseExpr();
      }
      return Success(());
    }

    method ParseRemoveStatement() returns (r: ParseResult<()>)
      requires pos <= End()
      modifies this
      ensures Moved(old(pos), old(depth), r.Success?, 1)
      decreases |tokens| - pos, 88
    {
      var _ :- Expect(Kw(KwRemove));
      var _ :- ParseRemoveItem();
      while Next() == Sym(Comma)
        invariant old(pos) + 1 <= pos <= End() && depth == old(depth)
        decreases |tokens| - pos
      {
        Advance();
        var _ :- ParseRemoveItem();
      }
      return Success(());
    }

    method ParseRemoveItem() returns (r: ParseResult<()>)
      requires pos <= End()
      modifies this
      ensures Moved(old(pos), old(depth), r.Success?, 1)
      decreases |tokens| - pos, 60
    {
      var target :- ParseTargetExpr();
      var label_ := MatchToken(Sym(Colon));
      if label_ {
        var name :- ExpectIdent();
      } else if !target.PropertyAccess? {
        return Failure(ParseError(pos));
      }
      return Success(());
    }

    method ParseCreateStatement() returns (r: ParseResult<()>)
      requires pos <= End()
      modifies this
      ensures Moved(old(pos), old(depth), r.Success?, 1)
      decreases |tokens| - pos, 88
    {
      var _ :- Expect(Kw(KwCreate));
      if Next() == Kw(KwUnique) || Next() == Kw(KwIndex) {
        r := ParseCreateIndexRest();
      } else {
        var _ :- Expect(Kw(KwGraph));
        var typed := MatchToken(Kw(KwType));
        var _ :- ParseIfNotExists();
        var name :- ExpectIdent();
        if typed || Next() == Sym(LBrace) {
          var _ :- ParseGraphTypeDef();
        }
        return Success(());
      }
    }

    method ParseCreateIndexRest() returns (r: ParseResult<()>)
      requires pos <= End()
      modifies this`pos
      ensures Moved(old(pos), old(depth), r.Success?, 1)
    {
      hide EndOf;
      var unique := MatchToken(Kw(KwUnique));
      var _ :- Expect(Kw(KwIndex));
      var _ :- ParseIfNotExists();
      var name :- ExpectIdentOrKeyword();
      var _ :- Expect(Kw(KwFor));
      var _ :- ParseIndexedEntity();
      var _ :- Expect(Kw(KwOn));
      r := ParseIndexedProperties();
    }

    method ParseIndexedEntity() returns (r: ParseResult<()>)
      requires pos <= End()
      modifies this`pos
      ensures Moved(old(pos), old(depth), r.Success?, 1)
    {
      var _ :- Expect(Sym(LParen));
      var variable :- ExpectIdentOrKeyword();
      var labelled := MatchToken(Sym(Colon));
      if labelled {
        var name :- ExpectIdentOrKeyword();
      }
      r := Expect(Sym(RParen));
    }

    method ParseIndexedProperties() returns (r: ParseResult<()>)
      requires pos <= End()
      modifies this`pos
      ensures Moved(old(pos), old(depth), r.Success?, 1)
    {
      var _ :- Expect(Sym(LParen));
      var _ :- ParseIndexedProperty();
      while Next() == Sym(Comma)
        invariant old(pos) + 1 <= pos <= End() && depth == old(depth)
        decreases |tokens| - pos
      {
        Advance();
        var _ :- ParseIndexedProperty();
      }
      r := Expect(Sym(RParen));
    }

    method ParseIndexedProperty() returns (r: ParseResult<()>)
      requires pos <= End()
      modifies this`pos
      ensures Moved(old(pos), old(depth), r.Success?, 1)
    {
      var first :- ExpectIdentOrKeyword();
      var dotted := MatchToken(Sym(Dot));
      if dotted {
        var property :- ExpectIdentOrKeyword();
      }
      return Success(());
    }

    method ParseDropStatement() returns (r: ParseResult<()>)
      requires pos <= End()
      modifies this`pos
      ensures Moved(old(pos), old(depth), r.Success?, 1)
    {
      hide EndOf;
      var _ :- Expect(Kw(KwDrop));
      var index := MatchToken(Kw(KwIndex));
      if !index {
        var _ :- Expect(Kw(KwGraph));
      }
      var _ :- ParseIfExists();
      if index {
        var name :- ExpectIdentOrKeyword();
      } else {
        var name :- ExpectIdent();
      }
      return Success(());
    }

    method ParseIfExists() returns (r: ParseResult<()>)
      requires pos <= End()
      modifies this`pos
      ensures Moved(old(pos), old(depth), r.Success?, 0)
    {
      var conditional := MatchToken(Kw(KwIf));
      if conditional {
        var _ :- Expect(Kw(KwExists));
      }
      return Success(());
    }

    method ParseListStatement() returns (r: ParseResult<()>)
      requires pos <= End()
      modifies this`pos
      ensures Moved(old(pos), old(depth), r.Success?, 1)
    {
      var _ :- Expect(Kw(KwList));
      var graph := MatchToken(Kw(KwGraph));
      if graph {
        if Next().Ident? && (SameIgnoringCase(Next().name, "s") || SameIgnoringCase(Next().name, "graphs")) {
          Advance();
        }
      } else if Next().Ident? && SameIgnoringCase(Next().name, "graphs") {
        Advance();
      } else {
        return Failure(ParseError(pos));
      }
      return Success(());
    }

    method ParseIfNotExists() returns (r: ParseResult<()>)
      requires pos <= End()
      modifies this`pos
      ensures Moved(old(pos), old(depth), r.Success?, 0)
    {
      var conditional := MatchToken(Kw(KwIf));
      if conditional {
        var _ :- Expect(Kw(KwNot));
        var _ :- Expect(Kw(KwExists));
      }
      return Success(());
    }

    method ParseTargetExpr() returns (r: ParseResult<Expression>)
      requires pos <= End()
      modifies this`pos
      ensures Moved(old(pos), old(depth), r.Success?, 1)
    {
      var name :- ExpectIdent();
      var e := Identifier(name);
      while Next() == Sym(Dot)
        invariant old(pos) + 1 <= pos <= End() && depth == old(depth)
        decreases |tokens| - pos
      {
        Advance();
        var property :- ExpectIdentOrKeyword();
        e := PropertyAccess(e, property);
      }
      return Success(e);
    }

    method ParseGraphTypeDef() returns (r: ParseResult<()>)
      requires pos <= End()
      modifies this`pos
      ensures Moved(old(pos), old(depth), r.Success?, 2)
    {
      var _ :- Expect(Sym(LBrace));
      while Next() != Sym(RBrace) && Next() != Eof
        invariant old(pos) + 1 <= pos <= End()
        decreases |tokens| - pos
      {
        var node := MatchToken(Kw(KwNode));
        if !node {
          var _ :- Expect(Kw(KwEdge));
        }
        var _ :- ParseTypeDecl(node);
        var _ := MatchToken(Sym(Comma));
      }
      var _ :- Expect(Sym(RBrace));
      return Success(());
    }

    method ParseTypeDecl(node: bool) returns (r: ParseResult<()>)
      requires pos <= End()
      modifies this`pos
      ensures Moved(old(pos), old(depth), r.Success?, 0)
    {
      while Next() == Sym(Colon)
        invariant old(pos) <= pos <= End()
        decreases |tokens| - pos
      {
        Advance();
        var name :- ExpectIdent();
      }
      if !node {
        var from := MatchToken(Kw(KwFrom));
        if from {
          var source :- ExpectIdent();
        }
        var to := MatchToken(Kw(KwTo));
        if to {
          var target :- ExpectIdent();
        }
      }
      if Next() == Sym(LBrace) {
        var _ :- ParsePropertyDecls();
      }
      return Success(());
    }

    method ParsePropertyDecls() returns (r: ParseResult<()>)
      requires pos <= End()
      modifies this`pos
      ensures Moved(old(pos), old(depth), r.Success?, 2)
    {
      var _ :- Expect(Sym(LBrace));
      while Next() != Sym(RBrace) && Next() != Eof
        invariant old(pos) + 1 <= pos <= End()
        decreases |tokens| - pos
      {
        var name :- ExpectIdent();
        var _ :- Expect(Sym(Colon));
        var type_ :- ExpectIdent();
        var required := MatchToken(Kw(KwNot));
        if required {
          var _ :- Expect(Kw(KwNull));
        }
        var _ := MatchToken(Sym(Comma));
      }
      var _ :- Expect(Sym(RBrace));
      return Success(());
    }

    /** UNION, INTERSECT and EXCEPT nest to the right, under the same depth limit as expressions. */
    method MaybeParseComposite() returns (r: ParseResult<()>)
      requires pos <= End()
      modifies this
      ensures Moved(old(pos), old(depth), r.Success?, 0)
      decreases |tokens| - pos, 91
    {
      if Next() != Kw(KwUnion) && Next() != Kw(KwIntersect) && Next() != Kw(KwExcept) {
        return Success(());
      }
      Advance();
      var _ :- EnterDepth();
      var all := MatchToken(Kw(KwAll));
      var right :- ParseStatement();
      depth := depth - 1;
      return Success(());
    }

    method ParseGraphPattern() returns (r: ParseResult<()>)
      requires pos <= End()
      modifies this
      ensures Moved(old(pos), old(depth), r.Success?, 0)
      decreases |tokens| - pos, 84
    {
      var _ :- ParsePathPattern();
      while Next() == Sym(Comma)
        invariant old(pos) + 0 <= pos <= End() && depth == old(depth)
        decreases |tokens| - pos
      {
        Advance();
        var _ :- ParsePathPattern();
      }
      return Success(());
    }

    /** A path pattern may be empty. */
    method ParsePathPattern() returns (r: ParseResult<()>)
      requires pos <= End()
      modifies this
      ensures Moved(old(pos), old(depth), r.Success?, 0)
      decreases |tokens| - pos, 82
    {
      if Next() == Kw(KwWalk) || Next() == Kw(KwTrail) || Next() == Kw(KwSimple) || Next() == Kw(KwAcyclic) {
        Advance();
      }
      if Next() == Sym(LParen) {
        var _ :- ParseNodePattern();
      }
      while IsEdgeStart()
        invariant old(pos) <= pos <= End() && depth == old(depth)
        decreases |tokens| - pos
      {
        var _ :- ParseEdgePattern();
        if Next() == Sym(LParen) {
          var _ :- ParseNodePattern();
        }
      }
      r := ParseOptionalQuantifier();
    }

    method ParseNodePattern() returns (r: ParseResult<()>)
      requires pos <= End()
      modifies this
      ensures Moved(old(pos), old(depth), r.Success?, 1)
      decreases |tokens| - pos, 80
    {
      var _ :- Expect(Sym(LParen));
      var _ :- ParsePatternBody(Sym(RParen));
      r := Expect(Sym(RParen));
    }

    /** Variable, labels and properties of a node or an edge; an identifier is the variable only before `:`, `{` or the end. */
    method ParsePatternBody(close: Token) returns (r: ParseResult<()>)
      requires pos <= End()
      modifies this
      ensures Moved(old(pos), old(depth), r.Success?, 0)
      decreases |tokens| - pos, 78
    {
      if Next().Ident? && NextAt(1) in {Sym(Colon), close, Sym(LBrace)} {
        Advance();
      }
      while Next() == Sym(Colon)
        invariant old(pos) <= pos <= End() && depth == old(depth)
        decreases |tokens| - pos
      {
        Advance();
        var name :- ExpectIdent();
      }
      if Next() == Sym(LBrace) {
        var properties :- ParsePropertyMapTokens();
      }
      return Success(());
    }

    method ParseEdgePattern() returns (r: ParseResult<()>)
      requires pos <= End()
      modifies this
      ensures Moved(old(pos), old(depth), r.Success?, 1)
      decreases |tokens| - pos, 80
    {
      if Next() == Sym(LeftArrow) {
        Advance();
        if Next() == Sym(LBracket) {
          var _ :- ParseEdgeBody();
          var _ :- Expect(Sym(Minus));
        }
      } else if Next() == Sym(Arrow) {
        Advance();
      } else {
        var _ :- Expect(Sym(Minus));
        var _ :- ParseEdgeBody();
        if Next() != Sym(Arrow) {
          var _ :- Expect(Sym(Minus));
        } else {
          Advance();
        }
      }
      r := ParseOptionalQuantifier();
    }

    method ParseEdgeBody() returns (r: ParseResult<()>)
      requires pos <= End()
      modifies this
      ensures Moved(old(pos), old(depth), r.Success?, 2)
      decreases |tokens| - pos, 79
    {
      var _ :- Expect(Sym(LBracket));
      var _ :- ParsePatternBody(Sym(RBracket));
      r := Expect(Sym(RBracket));
    }

    /** `{n}`, `{n,}`, `{,m}` or `{n,m}` with n at most m; anything else after the brace is left alone. */
    method ParseOptionalQuantifier() returns (r: ParseResult<()>)
      requires pos <= End()
      modifies this`pos
      ensures Moved(old(pos), old(depth), r.Success?, 0)
    {
      if Next() != Sym(LBrace) || !(NextAt(1).IntegerLit? || NextAt(1) == Sym(Comma)) {
        return Success(());
      }
      Advance();
      var least: Option<int> :- ParseBound();
      var most := least;
      var comma := MatchToken(Sym(Comma));
      if comma {
        most :- ParseBound();
      }
      if least.Some? && most.Some? && most.value < least.value {
        return Failure(ParseError(pos));
      }
      r := Expect(Sym(RBrace));
    }

    method ParseBound() returns (r: ParseResult<Option<int>>)
      requires pos <= End()
      modifies this`pos
      ensures Moved(old(pos), old(depth), r.Success?, 0)
    {
      if !Next().IntegerLit? {
        return Success(None);
      }
      var n := Next().n;
      Advance();
      return if n < 0 then Failure(ParseError(pos)) else Success(Some(n));
    }

    method ParseOptionalWhere() returns (r: ParseResult<()>)
      requires pos <= End()
      modifies this
      ensures Moved(old(pos), old(depth), r.Success?, 0)
      decreases |tokens| - pos, 60
    {
      var where_ := MatchToken(Kw(KwWhere));
      if where_ {
        var condition :- ParseExpr();
      }
      return Success(());
    }

    method ParseOptionalOrderBy() returns (r: ParseResult<()>)
      requires pos <= End()
      modifies this
      ensures Moved(old(pos), old(depth), r.Success?, 0)
      decreases |tokens| - pos, 60
    {
      var order := MatchToken(Kw(KwOrder));
      if order {
        var _ :- Expect(Kw(KwBy));
        var _ :- ParseOrderByItem();
        while Next() == Sym(Comma)
          invariant old(pos) + 1 <= pos <= End() && depth == old(depth)
          decreases |tokens| - pos
        {
          Advance();
          var _ :- ParseOrderByItem();
        }
      }
      return Success(());
    }

    method ParseOrderByItem() returns (r: ParseResult<()>)
      requires pos <= End()
      modifies this
      ensures Moved(old(pos), old(depth), r.Success?, 1)
      decreases |tokens| - pos, 58
    {
      var key :- ParseExpr();
      var descending := MatchToken(Kw(KwDesc));
      if !descending {
        var _ := MatchToken(Kw(KwAsc));
      }
      return Success(());
    }

    method ParseLimitOffset() returns (r: ParseResult<()>)
      requires pos <= End()
      modifies this
      ensures Moved(old(pos), old(depth), r.Success?, 0)
      decreases |tokens| - pos, 60
    {
      var limited := MatchToken(Kw(KwLimit));
      if limited {
        var count :- ParseExpr();
      }
      var skipped := MatchToken(Kw(KwOffset));
      if skipped {
        var count :- ParseExpr();
      }
      return Success(());
    }

    method ParseGroupByClause() returns (r: ParseResult<()>)
      requires pos <= End()
      modifies this
      ensures Moved(old(pos), old(depth), r.Success?, 1)
      decreases |tokens| - pos, 60
    {
      var _ :- Expect(Kw(KwGroup));
      var _ :- Expect(Kw(KwBy));
      var e :- ParseExpr();
      while Next() == Sym(Comma)
        invariant old(pos) + 1 <= pos <= End() && depth == old(depth)
        decreases |tokens| - pos
      {
        Advance();
        var next :- ParseExpr();
      }
      return Success(());
    }

    method ParseReturnItems() returns (r: ParseResult<()>)
      requires pos <= End()
      modifies this
      ensures Moved(old(pos), old(depth), r.Success?, 1)
      decreases |tokens| - pos, 60
    {
      var _ :- ParseReturnItem();
      while Next() == Sym(Comma)
        invariant old(pos) + 1 <= pos <= End() && depth == old(depth)
        decreases |tokens| - pos
      {
        Advance();
        var _ :- ParseReturnItem();
      }
      return Success(());
    }

    method ParseReturnItem() returns (r: ParseResult<()>)
      requires pos <= End()
      modifies this
      ensures Moved(old(pos), old(depth), r.Success?, 1)
      decreases |tokens| - pos, 58
    {
      var e :- ParseExpr();
      var named := MatchToken(Kw(KwAs));
      if named {
        var name :- ExpectIdentOrKeyword();
      }
      return Success(());
    }
  }

  // ----- one turn of each loop -----

  lemma PrimaryLevel(ts: seq<Token>, depth: nat)
    ensures ParseAt(PRIMARY, ts, depth) == ParsePrimary(ts, depth)
  {
    hide ParsePrimary;
  }

  lemma FoldedLevel(level: nat, ts: seq<Token>, depth: nat)
    requires Folded(level)
    ensures ParseAt(level, ts, depth) ==
              match ParseAt(level + 1, ts, depth) case None => None case Some(p) => FoldRest(level, p.value, p.rest, depth)
  {
    hide FoldRest, ParsePrimary;
  }

  lemma FoldTurn(level: nat, left: Expression, ts: seq<Token>, depth: nat)
    requires Folded(level)
    ensures FoldRest(level, left, ts, depth) ==
              match Operator(level, Peek(ts))
              case None => Some(Parsed(left, ts))
              case Some(op) =>
                match ParseAt(level + 1, ts[1..], depth)
                case None => None
                case Some(p) => FoldRest(level, Expression.Binary(left, op, p.value), p.rest, depth)
  {
    hide ParseAt;
  }

  lemma NotLevel(ts: seq<Token>, depth: nat)
    ensures ParseAt(NOT, ts, depth) ==
              if Peek(ts) != Kw(KwNot) then ParseAt(COMPARISON, ts, depth)
              else if depth + 1 > MAX_DEPTH then None
              else
                match ParseAt(NOT, ts[1..], depth + 1)
                case None => None
                case Some(p) => Some(Parsed(Unary(Not, p.value), p.rest))
  {
    hide CompareRest, FoldRest;
  }

  lemma ComparisonLevel(ts: seq<Token>, depth: nat)
    ensures ParseAt(COMPARISON, ts, depth) ==
              match ParseAt(CONCAT, ts, depth) case None => None case Some(p) => CompareRest(p.value, p.rest, false, depth)
  {
    hide CompareRest, FoldRest;
  }

  /** IS [NOT] NULL. */
  function NullTest(left: Expression, ts: seq<Token>): Parse<Expression>
    requires Peek(ts) == Kw(KwIs)
  {
    if Peek(ts[1..]) == Kw(KwNot) then
      if Peek(ts[2..]) == Kw(KwNull) then Some(Parsed(IsNotNull(left), ts[3..])) else None
    else if Peek(ts[1..]) == Kw(KwNull) then Some(Parsed(IsNull(left), ts[2..]))
    else None
  }

  lemma {:induction false} CompareTurn(left: Expression, ts: seq<Token>, compared: bool, depth: nat)
    ensures CompareRest(left, ts, compared, depth) ==
              match ComparisonOperator(Peek(ts))
              case Some(op) =>
                if compared then None
                else
                  (match ParseAt(CONCAT, ts[1..], depth)
                   case None => None
                   case Some(p) => CompareRest(Expression.Binary(left, op, p.value), p.rest, true, depth))
              case None =>
                if Peek(ts) == Kw(KwIs) then
                  (match NullTest(left, ts) case None => None case Some(p) => CompareRest(p.value, p.rest, compared, depth))
                else if Peek(ts) == Kw(KwIn) then
                  (match ParseAt(CONCAT, ts[1..], depth)
                   case None => None
                   case Some(p) => CompareRest(In(left, p.value), p.rest, compared, depth))
                else if Peek(ts) == Kw(KwLike) then
                  (match ParseAt(CONCAT, ts[1..], depth)
                   case None => None
                   case Some(p) => CompareRest(Like(left, p.value), p.rest, compared, depth))
                else Some(Parsed(left, ts))
  {
    hide ParseAt;
  }

  lemma UnaryLevel(ts: seq<Token>, depth: nat)
    ensures ParseAt(UNARY, ts, depth) ==
              match PrefixOperator(Peek(ts))
              case None => ParseAt(POSTFIX, ts, depth)
              case Some(op) =>
                if depth + 1 > MAX_DEPTH then None
                else
                  match ParseAt(UNARY, ts[1..], depth + 1)
                  case None => None
                  case Some(p) => Some(Parsed(Unary(op, p.value), p.rest))
  {
    hide PostfixRest;
  }

  lemma PostfixLevel(ts: seq<Token>, depth: nat)
    ensures ParseAt(POSTFIX, ts, depth) ==
              match ParseAt(PRIMARY, ts, depth) case None => None case Some(p) => PostfixRest(p.value, p.rest)
  {
    hide PostfixRest, ParsePrimary;
  }

  lemma PostfixTurn(e: Expression, ts: seq<Token>)
    ensures PostfixRest(e, ts) ==
              if Peek(ts) != Sym(Dot) then Some(Parsed(e, ts))
              else
                match NameOf(Peek(ts[1..]))
                case None => None
                case Some(name) => PostfixRest(PropertyAccess(e, name), ts[2..])
  {
    hide NameOf;
  }

  lemma Twice(ts: seq<Token>)
    ensures |ts| >= 2 ==> ts[1..][1..] == ts[2..]
    ensures |ts| >= 3 ==> ts[2..][1..] == ts[3..]
  {
  }

  lemma Succeeds<T(!new)>(p: Parsed<T>)
    ensures Agrees(Some(p), Success(p.value), p.rest)
  {
  }

  lemma Fails<T(!new)>(r: ParseResult<T>, rest: seq<Token>)
    requires r.Failure?
    ensures Agrees(None, r, rest)
  {
  }

  // ----- primaries by their first token -----

  lemma AtomPrimary(ts: seq<Token>, depth: nat)
    requires ts != [] && AtomOf(ts[0]).Some?
    ensures ParsePrimary(ts, depth) == Some(Parsed(AtomOf(ts[0]).value, ts[1..]))
  {
    hide AtomOf, AggregateOf, ParseExpression, ParseCase, ParseEntries, ParseCall, ParseAggregate, ParseEnclosed;
  }

  lemma EofIsNothing()
    ensures AtomOf(Eof).None? && AggregateOf(Eof).None?
  {
  }

  /** An aggregate after its DISTINCT, if any. */
  function OperandRest(f: AggregateFunction, distinct: bool, ts: seq<Token>, depth: nat): Parse<Expression> {
    if Peek(ts) == Sym(RParen) then Some(Parsed(Aggregate(f, distinct, None), ts[1..]))
    else
      match ParseExpression(ts, depth)
      case None => None
      case Some(p) =>
        if Peek(p.rest) == Sym(RParen) then Some(Parsed(Aggregate(f, distinct, Some(p.value)), p.rest[1..])) else None
  }

  lemma OperandTurn(f: AggregateFunction, ts: seq<Token>, depth: nat)
    requires Peek(ts) != Sym(Star)
    ensures ParseAggregate(f, ts, depth) ==
              if Peek(ts) == Kw(KwDistinct) then OperandRest(f, true, ts[1..], depth) else OperandRest(f, false, ts, depth)
  {
    hide ParseExpression;
  }

  lemma AggregatePrimary(ts: seq<Token>, depth: nat)
    requires ts != [] && AtomOf(ts[0]).None? && AggregateOf(ts[0]).Some? && Peek(ts[1..]) != Sym(LParen)
    ensures NameOf(ts[0]).Some? && ParsePrimary(ts, depth) == Some(Parsed(Identifier(NameOf(ts[0]).value), ts[1..]))
  {
    hide ParseExpression, ParseCase, ParseEntries, ParseCall, ParseAggregate, ParseEnclosed;
  }

  lemma AggregateCall(ts: seq<Token>, f: AggregateFunction, depth: nat)
    requires |ts| >= 2 && AggregateOf(ts[0]) == Some(f) && ts[1] == Sym(LParen)
    ensures ParsePrimary(ts, depth) == ParseAggregate(f, ts[2..], depth)
  {
    hide ParseExpression, ParseCase, ParseEntries, ParseCall, ParseAggregate, ParseEnclosed;
  }

  lemma ParenPrimary(ts: seq<Token>, depth: nat)
    requires ts != [] && ts[0] == Sym(LParen)
    ensures ParsePrimary(ts, depth) ==
              if depth + 1 > MAX_DEPTH then None
              else
                match ParseExpression(ts[1..], depth + 1)
                case None => None
                case Some(p) => if Peek(p.rest) == Sym(RParen) then Some(Parsed(p.value, p.rest[1..])) else None
  {
    hide ParseExpression, ParseCase, ParseEntries, ParseCall, ParseAggregate, ParseEnclosed;
  }

  lemma ListPrimary(ts: seq<Token>, depth: nat)
    requires ts != [] && ts[0] == Sym(LBracket)
    ensures ParsePrimary(ts, depth) ==
              match ParseEnclosed(ts[1..], Sym(RBracket), depth)
              case None => None
              case Some(p) => Some(Parsed(ListExpr(p.value), p.rest))
  {
    hide ParseExpression, ParseCase, ParseEntries, ParseCall, ParseAggregate, ParseEnclosed;
  }

  /** The entries of a map after its opening brace. */
  function Braced(ts: seq<Token>, keywords: bool, depth: nat): Parse<seq<Entry>> {
    if Peek(ts) == Sym(RBrace) then Some(Parsed([], ts[1..]))
    else
      match ParseEntries([], ts, keywords, depth)
      case None => None
      case Some(p) => if Peek(p.rest) == Sym(RBrace) then Some(Parsed(p.value, p.rest[1..])) else None
  }

  lemma MapPrimary(ts: seq<Token>, depth: nat)
    requires ts != [] && ts[0] == Sym(LBrace)
    ensures ParsePrimary(ts, depth) ==
              match Braced(ts[1..], false, depth) case None => None case Some(p) => Some(Parsed(MapExpr(p.value), p.rest))
  {
    hide ParseExpression, ParseCase, ParseEntries, ParseCall, ParseAggregate, ParseEnclosed;
    Twice(ts);
  }

  lemma CasePrimary(ts: seq<Token>, depth: nat)
    requires ts != [] && ts[0] == Kw(KwCase)
    ensures ParsePrimary(ts, depth) == ParseCase(ts[1..], depth)
  {
    hide ParseExpression, ParseCase, ParseEntries, ParseCall, ParseAggregate, ParseEnclosed;
  }

  lemma TypePrimary(ts: seq<Token>, depth: nat)
    requires ts != [] && ts[0] == Kw(KwType)
    ensures ParsePrimary(ts, depth) == ParseCall("type", ts[1..], depth)
  {
    hide ParseExpression, ParseCase, ParseEntries, ParseCall, ParseAggregate, ParseEnclosed;
  }

  lemma IdentPrimary(ts: seq<Token>, depth: nat)
    requires ts != [] && ts[0].Ident?
    ensures ParsePrimary(ts, depth) == ParseCall(ts[0].name, ts[1..], depth)
  {
    hide ParseExpression, ParseCase, ParseEntries, ParseCall, ParseAggregate, ParseEnclosed;
  }

  lemma NoPrimary(ts: seq<Token>, depth: nat)
    requires var t := Peek(ts);
             && AtomOf(t).None? && AggregateOf(t).None? && !t.Ident?
             && t !in {Sym(LParen), Sym(LBracket), Sym(LBrace), Kw(KwCase), Kw(KwType)}
    ensures ParsePrimary(ts, depth) == None
  {
    hide ParseExpression, ParseCase, ParseEntries, ParseCall, ParseAggregate, ParseEnclosed;
  }

  // ----- one turn of the list loops -----

  function ItemsAfter(items: seq<Expression>, ts: seq<Token>, depth: nat): Parse<seq<Expression>> {
    if Peek(ts) == Sym(Comma) then ParseItems(items, ts[1..], depth) else Some(Parsed(items, ts))
  }

  lemma ItemsTurn(items: seq<Expression>, ts: seq<Token>, depth: nat)
    ensures ParseItems(items, ts, depth) ==
              match ParseExpression(ts, depth)
              case None => None
              case Some(p) => ItemsAfter(items + [p.value], p.rest, depth)
  {
    hide ParseExpression;
  }

  function KeyOf(t: Token, keywords: bool): (key: Option<string>)
    ensures t == Eof ==> key == None
  {
    if keywords then NameOf(t) else if t.Ident? then Some(t.name) else None
  }

  function OneEntry(ts: seq<Token>, keywords: bool, depth: nat): Parse<Entry> {
    var key :- KeyOf(Peek(ts), keywords);
    if Peek(ts[1..]) != Sym(Colon) then None
    else
      match ParseExpression(ts[2..], depth)
      case None => None
      case Some(p) => Some(Parsed(Entry(key, p.value), p.rest))
  }

  function EntriesAfter(entries: seq<Entry>, ts: seq<Token>, keywords: bool, depth: nat): Parse<seq<Entry>> {
    if Peek(ts) == Sym(Comma) then ParseEntries(entries, ts[1..], keywords, depth) else Some(Parsed(entries, ts))
  }

  lemma EntriesTurn(entries: seq<Entry>, ts: seq<Token>, keywords: bool, depth: nat)
    ensures ParseEntries(entries, ts, keywords, depth) ==
              match OneEntry(ts, keywords, depth)
              case None => None
              case Some(p) => EntriesAfter(entries + [p.value], p.rest, keywords, depth)
  {
    hide ParseExpression, NameOf;
  }

  /** A CASE expression after its arms. */
  function AfterArms(subject: Option<Expression>, arms: seq<Arm>, ts: seq<Token>, depth: nat): Parse<Expression> {
    if Peek(ts) == Kw(KwElse) then
      match ParseExpression(ts[1..], depth)
      case None => None
      case Some(p) =>
        if Peek(p.rest) == Kw(KwEnd) then Some(Parsed(Case(subject, arms, Some(p.value)), p.rest[1..])) else None
    else if Peek(ts) == Kw(KwEnd) then Some(Parsed(Case(subject, arms, None), ts[1..]))
    else None
  }

  lemma {:induction false} BranchesTurn(subject: Option<Expression>, ts: seq<Token>, depth: nat)
    ensures ParseBranches(subject, ts, depth) ==
              match ParseArms([], ts, depth)
              case None => None
              case Some(p) => AfterArms(subject, p.value, p.rest, depth)
  {
    hide ParseArms, ParseExpression;
  }

  lemma ArmsTurn(arms: seq<Arm>, ts: seq<Token>, depth: nat)
    ensures ParseArms(arms, ts, depth) ==
              if Peek(ts) != Kw(KwWhen) then Some(Parsed(arms, ts))
              else
                match ParseExpression(ts[1..], depth)
                case None => None
                case Some(c) =>
                  if Peek(c.rest) != Kw(KwThen) then None
                  else
                    match ParseExpression(c.rest[1..], depth)
                    case None => None
                    case Some(p) => ParseArms(arms + [Arm(c.value, p.value)], p.rest, depth)
  {
    hide ParseExpression;
  }
}
