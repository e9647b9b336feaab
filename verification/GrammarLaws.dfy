/** What the ladder of the grammar means: which operator binds tighter, how deep expressions may nest. */
module GrammarLaws {
  import opened Wrappers
  import opened Values
  import opened Syntax
  import opened Grammar
  import opened Printer
  import opened ParserRoundTrip

  // ----- precedence -----

  /** How an operator is written, apart from the grammar's and the printer's tables. */
  function Written(op: BinaryOp): Token {
    match op
    case Or => Kw(KwOr)
    case Xor => Kw(KwXor)
    case And => Kw(KwAnd)
    case Eq => Sym(Equals)
    case Neq => Sym(NotEquals)
    case Lt => Sym(LessThan)
    case Gt => Sym(GreaterThan)
    case Le => Sym(LessEquals)
    case Ge => Sym(GreaterEquals)
    case Concat => Sym(DoublePipe)
    case Add => Sym(Plus)
    case Sub => Sym(Minus)
    case Mul => Sym(Star)
    case Div => Sym(Slash)
    case Mod => Sym(Percent)
  }

  predicate Comparing(op: BinaryOp) {
    op.Eq? || op.Neq? || op.Lt? || op.Gt? || op.Le? || op.Ge?
  }

  /** How tightly an operator binds: OR least, then XOR, AND, comparisons, `||`, sums, products. */
  function Binding(op: BinaryOp): nat {
    match op
    case Or => 1
    case Xor => 2
    case And => 3
    case Concat => 5
    case Add => 6
    case Sub => 6
    case Mul => 7
    case Div => 7
    case Mod => 7
    case _ => 4
  }

  lemma LevelsAsBound(op: BinaryOp, other: BinaryOp)
    ensures OperatorToken(op) == Written(op)
    ensures BinaryLevel(op) < BinaryLevel(other) <==> Binding(op) < Binding(other)
    ensures BinaryLevel(op) < PRIMARY && (BinaryLevel(op) == COMPARISON <==> Comparing(op))
    ensures BinaryLevel(op) < UNARY && BinaryLevel(op) != NOT && (BinaryLevel(op) < NOT <==> op.Or? || op.Xor? || op.And?)
  {
  }

  /** Three names with two operators between them. */
  function Chain(a: string, op: BinaryOp, b: string, op': BinaryOp, c: string): seq<Token> {
    [Ident(a), Written(op), Ident(b), Written(op'), Ident(c)]
  }

  lemma NamePrinted(a: string, level: nat, depth: nat)
    requires level <= PRIMARY
    ensures Print(Identifier(a), level) == [Ident(a)] == PrintCompared(Identifier(a)) && Producible(Identifier(a))
    ensures Within(Identifier(a), level, depth) && WithinCompared(Identifier(a), depth)
    ensures !Compared(Identifier(a)) && Level(Identifier(a)) == PRIMARY
  {
  }

  function Named(a: string, op: BinaryOp, b: string): Expression {
    Expression.Binary(Identifier(a), op, Identifier(b))
  }

  lemma PairPrinted(a: string, op: BinaryOp, b: string, level: nat)
    requires level <= BinaryLevel(op)
    ensures Print(Named(a, op, b), level) == [Ident(a), Written(op), Ident(b)]
    ensures Producible(Named(a, op, b)) && Within(Named(a, op, b), level, 0)
    ensures Level(Named(a, op, b)) == BinaryLevel(op) && (Compared(Named(a, op, b)) <==> Comparing(op))
    ensures Comparing(op) || BinaryLevel(op) < COMPARISON || PrintCompared(Named(a, op, b)) == Print(Named(a, op, b), level)
    ensures Comparing(op) || BinaryLevel(op) < COMPARISON || WithinCompared(Named(a, op, b), 0)
  {
    LevelsAsBound(op, op);
    NamePrinted(a, BinaryLevel(op), 0);
    NamePrinted(b, BinaryLevel(op) + 1, 0);
    hide BinaryLevel, OperatorToken, Comparing, Written;
    assert PrintCompared(Identifier(a)) == [Ident(a)] && WithinCompared(Identifier(a), 0);
    assert [Ident(a)] + [Written(op)] + [Ident(b)] == [Ident(a), Written(op), Ident(b)];
  }

  lemma LeftPrinted(a: string, op: BinaryOp, b: string, op': BinaryOp, c: string)
    requires Binding(op') <= Binding(op) && !(Comparing(op) && Comparing(op'))
    ensures var e := Expression.Binary(Named(a, op, b), op', Identifier(c));
            Print(e, OR) == Chain(a, op, b, op', c) && Producible(e) && Within(e, OR, 0)
  {
    LevelsAsBound(op, op');
    LevelsAsBound(op', op);
    PairPrinted(a, op, b, BinaryLevel(op'));
    NamePrinted(c, BinaryLevel(op') + 1, 0);
    hide BinaryLevel, OperatorToken, Comparing, Written, Print, PrintCompared, Binding, Named, WithinCompared;
    hide Within;
    var e := Expression.Binary(Named(a, op, b), op', Identifier(c));
    assert [Ident(a), Written(op), Ident(b)] + [Written(op')] + [Ident(c)] == Chain(a, op, b, op', c);
  }

  lemma RightPrinted(a: string, op: BinaryOp, b: string, op': BinaryOp, c: string)
    requires Binding(op) < Binding(op')
    ensures var e := Expression.Binary(Identifier(a), op, Named(b, op', c));
            Print(e, OR) == Chain(a, op, b, op', c) && Producible(e) && Within(e, OR, 0)
  {
    LevelsAsBound(op, op');
    PairPrinted(b, op', c, BinaryLevel(op) + 1);
    NamePrinted(a, BinaryLevel(op), 0);
    assert PrintCompared(Identifier(a)) == [Ident(a)] && WithinCompared(Identifier(a), 0);
    hide BinaryLevel, OperatorToken, Written, Named;
    assert [Ident(a)] + [Written(op)] + [Ident(b), Written(op'), Ident(c)] == Chain(a, op, b, op', c);
  }

  /**
   Between two operators the one that binds tighter takes the middle operand,
   the left one where both bind alike; of two comparisons the second is an error.
   */
  lemma Precedence(a: string, op: BinaryOp, b: string, op': BinaryOp, c: string, rest: seq<Token>)
    requires !Continues(OR, Peek(rest))
    ensures var r := ParseExpression(Chain(a, op, b, op', c) + rest, 0);
            if Comparing(op) && Comparing(op') then r == None
            else if Binding(op) < Binding(op') then
              r == Some(Parsed(Expression.Binary(Identifier(a), op, Named(b, op', c)), rest))
            else r == Some(Parsed(Expression.Binary(Named(a, op, b), op', Identifier(c)), rest))
  {
    hide ParseExpression, Continues, Print, Producible, Within, Named, Chain;
    if Comparing(op) && Comparing(op') {
      SecondComparison(a, op, b, op', c, rest);
    } else if Binding(op) < Binding(op') {
      RightPrinted(a, op, b, op', c);
      ParseInvertsPrint(Expression.Binary(Identifier(a), op, Named(b, op', c)), 0, rest);
    } else {
      LeftPrinted(a, op, b, op', c);
      ParseInvertsPrint(Expression.Binary(Named(a, op, b), op', Identifier(c)), 0, rest);
    }
  }

  lemma SecondComparison(a: string, op: BinaryOp, b: string, op': BinaryOp, c: string, rest: seq<Token>)
    requires Comparing(op) && Comparing(op')
    ensures ParseExpression(Chain(a, op, b, op', c) + rest, 0) == None
  {
    LevelsAsBound(op, op');
    LevelsAsBound(op', op);
    NamePrinted(a, COMPARISON, 0);
    NamePrinted(b, CONCAT, 0);
    var more := [Ident(c)] + rest;
    assert Bare(Identifier(a)) == [Ident(a)] && Print(Identifier(b), CONCAT) == [Ident(b)];
    ChainedComparisonRejected(Identifier(a), op, Identifier(b), op', 0, more);
    var ts := [Ident(a)] + ([Written(op)] + ([Ident(b)] + ([Written(op')] + more)));
    assert Chain(a, op, b, op', c) + rest == ts;
    assert Peek(ts) == Ident(a);
    hide *;
    NothingRead(COMPARISON, ts, 0, a);
  }

  /** What a level cannot read, no looser one can. */
  lemma {:induction false} NothingRead(level: nat, ts: seq<Token>, depth: nat, a: string)
    requires level <= PRIMARY && ParseAt(level, ts, depth) == None && Peek(ts) == Ident(a)
    ensures ParseExpression(ts, depth) == None
    decreases level
  {
    hide Peek;
    if level > OR {
      assert ParseAt(level - 1, ts, depth) == None;
      NothingRead(level - 1, ts, depth, a);
    }
  }

  /** NOT takes a comparison whole, and binds tighter than AND, XOR and OR. */
  lemma NotPrecedence(a: string, op: BinaryOp, b: string, rest: seq<Token>)
    requires !Continues(OR, Peek(rest))
    ensures ParseExpression([Kw(KwNot), Ident(a), Written(op), Ident(b)] + rest, 0) ==
              Some(Parsed(if op.And? || op.Or? || op.Xor? then Expression.Binary(Unary(Not, Identifier(a)), op, Identifier(b))
                          else Unary(Not, Named(a, op, b)), rest))
  {
    NotPrinted(a, op, b);
    hide ParseExpression, Continues, Print, Producible, Within, Named;
    if op.And? || op.Or? || op.Xor? {
      ParseInvertsPrint(Expression.Binary(Unary(Not, Identifier(a)), op, Identifier(b)), 0, rest);
    } else {
      ParseInvertsPrint(Unary(Not, Named(a, op, b)), 0, rest);
    }
  }

  lemma PrefixPrinted(op: UnaryOp, a: string)
    requires op.Not? || op.Neg?
    ensures var e := Unary(op, Identifier(a));
            && Bare(e) == [if op.Not? then Kw(KwNot) else Sym(Minus), Ident(a)]
            && Level(e) == (if op.Not? then NOT else UNARY) && Producible(e) && WithinBare(e, 0) && !Compared(e)
  {
    NamePrinted(a, NOT, 1);
    NamePrinted(a, UNARY, 1);
    hide Print, Within;
    assert [Kw(KwNot)] + [Ident(a)] == [Kw(KwNot), Ident(a)] && [Sym(Minus)] + [Ident(a)] == [Sym(Minus), Ident(a)];
  }

  lemma NotPrinted(a: string, op: BinaryOp, b: string)
    ensures var e := if op.And? || op.Or? || op.Xor? then Expression.Binary(Unary(Not, Identifier(a)), op, Identifier(b))
                     else Unary(Not, Named(a, op, b));
            Print(e, OR) == [Kw(KwNot), Ident(a), Written(op), Ident(b)] && Producible(e) && Within(e, OR, 0)
  {
    LevelsAsBound(op, op);
    NamePrinted(b, BinaryLevel(op) + 1, 0);
    var not := Unary(Not, Identifier(a));
    PrefixPrinted(Not, a);
    if op.And? || op.Or? || op.Xor? {
      assert Print(not, BinaryLevel(op)) == Bare(not) && Within(not, BinaryLevel(op), 0);
      hide Written, BinaryLevel;
      assert [Kw(KwNot), Ident(a)] + [Written(op)] + [Ident(b)] == [Kw(KwNot), Ident(a), Written(op), Ident(b)];
    } else {
      PairPrinted(a, op, b, NOT);
      PairWithin(a, op, b);
      var e := Unary(Not, Named(a, op, b));
      hide Named, Written, BinaryLevel;
      assert Bare(e) == [Kw(KwNot)] + Print(Named(a, op, b), NOT);
      assert [Kw(KwNot)] + [Ident(a), Written(op), Ident(b)] == [Kw(KwNot), Ident(a), Written(op), Ident(b)];
      assert Producible(e) && WithinBare(e, 0);
    }
  }

  lemma PairWithin(a: string, op: BinaryOp, b: string)
    requires NOT <= BinaryLevel(op)
    ensures Within(Named(a, op, b), NOT, 1)
  {
    LevelsAsBound(op, op);
    NamePrinted(a, BinaryLevel(op), 1);
    NamePrinted(b, BinaryLevel(op) + 1, 1);
    hide BinaryLevel;
  }

  /** A sign binds tighter than any operator between two operands, and looser than a dot. */
  lemma SignPrecedence(a: string, op: BinaryOp, b: string, p: string, rest: seq<Token>)
    requires !Continues(OR, Peek(rest))
    ensures ParseExpression([Sym(Minus), Ident(a), Written(op), Ident(b)] + rest, 0) ==
              Some(Parsed(Expression.Binary(Unary(Neg, Identifier(a)), op, Identifier(b)), rest))
    ensures ParseExpression([Sym(Minus), Ident(a), Sym(Dot), Ident(p)] + rest, 0) ==
              Some(Parsed(Unary(Neg, PropertyAccess(Identifier(a), p)), rest))
  {
    SignPrinted(a, op, b);
    SignedAccess(a, p);
    hide ParseExpression, Continues, Print, Producible, Within;
    ParseInvertsPrint(Expression.Binary(Unary(Neg, Identifier(a)), op, Identifier(b)), 0, rest);
    ParseInvertsPrint(Unary(Neg, PropertyAccess(Identifier(a), p)), 0, rest);
  }

  lemma SignPrinted(a: string, op: BinaryOp, b: string)
    ensures var e := Expression.Binary(Unary(Neg, Identifier(a)), op, Identifier(b));
            Print(e, OR) == [Sym(Minus), Ident(a), Written(op), Ident(b)] && Producible(e) && Within(e, OR, 0)
  {
    LevelsAsBound(op, op);
    NamePrinted(b, BinaryLevel(op) + 1, 0);
    var minus := Unary(Neg, Identifier(a));
    PrefixPrinted(Neg, a);
    assert Print(minus, BinaryLevel(op)) == Bare(minus) == PrintCompared(minus);
    assert Within(minus, BinaryLevel(op), 0) && WithinCompared(minus, 0);
    hide Written, BinaryLevel;
    assert [Sym(Minus), Ident(a)] + [Written(op)] + [Ident(b)] == [Sym(Minus), Ident(a), Written(op), Ident(b)];
  }

  lemma SignedAccess(a: string, p: string)
    ensures var e := Unary(Neg, PropertyAccess(Identifier(a), p));
            Print(e, OR) == [Sym(Minus), Ident(a), Sym(Dot), Ident(p)] && Producible(e) && Within(e, OR, 0)
  {
    var access, e := PropertyAccess(Identifier(a), p), Unary(Neg, PropertyAccess(Identifier(a), p));
    NamePrinted(a, POSTFIX, 1);
    assert Bare(access) == [Ident(a)] + [Sym(Dot), Ident(p)] == [Ident(a), Sym(Dot), Ident(p)];
    assert WithinBare(access, 1) && Level(access) == POSTFIX;
    assert Print(access, UNARY) == Bare(access) && Within(access, UNARY, 1);
    assert Bare(e) == [Sym(Minus)] + Print(access, UNARY) && WithinBare(e, 0) && Level(e) == UNARY;
    assert [Sym(Minus)] + [Ident(a), Sym(Dot), Ident(p)] == [Sym(Minus), Ident(a), Sym(Dot), Ident(p)];
  }

  // ----- nesting -----

  /** A result of a level that nothing continues is the result of the whole ladder. */
  lemma {:induction false} Lifted(level: nat, ts: seq<Token>, depth: nat)
    requires level <= PRIMARY && Opens(Peek(ts), level)
    requires ParseAt(level, ts, depth).Some? ==> !Continues(OR, Peek(ParseAt(level, ts, depth).value.rest))
    ensures ParseExpression(ts, depth) == ParseAt(level, ts, depth)
    decreases level
  {
    if level > OR {
      Descends(level - 1, ts, depth);
      OpensLower(Peek(ts), level, level - 1);
      var r := ParseAt(level, ts, depth);
      if r.Some? {
        StopsEverywhere(level - 1, r.value.value, r.value.rest, depth);
      }
      hide ParseAt, Opens, Continues, FoldRest, CompareRest, PostfixRest;
      Lifted(level - 1, ts, depth);
    }
  }

  lemma StopsEverywhere(level: nat, e: Expression, rest: seq<Token>, depth: nat)
    requires !Continues(OR, Peek(rest))
    ensures Folded(level) ==> FoldRest(level, e, rest, depth) == Some(Parsed(e, rest))
    ensures CompareRest(e, rest, false, depth) == Some(Parsed(e, rest)) && PostfixRest(e, rest) == Some(Parsed(e, rest))
  {
  }

  function Times(n: nat, t: Token): seq<Token> {
    if n == 0 then [] else [t] + Times(n - 1, t)
  }

  function Applied(n: nat, op: UnaryOp, e: Expression): Expression {
    if n == 0 then e else Unary(op, Applied(n - 1, op, e))
  }

  lemma {:induction false} NotsAt(n: nat, a: string, rest: seq<Token>, depth: nat)
    requires !Continues(OR, Peek(rest)) && depth <= MAX_DEPTH
    ensures ParseAt(NOT, Times(n, Kw(KwNot)) + ([Ident(a)] + rest), depth) ==
              if depth + n <= MAX_DEPTH then Some(Parsed(Applied(n, Not, Identifier(a)), rest)) else None
  {
    var ts := Times(n, Kw(KwNot)) + ([Ident(a)] + rest);
    if n == 0 {
      assert ts == [Ident(a)] + rest;
      NameAt(NOT, a, rest, depth);
    } else {
      var more := Times(n - 1, Kw(KwNot)) + ([Ident(a)] + rest);
      assert ts == [Kw(KwNot)] + more;
      Front(Kw(KwNot), more);
      if depth < MAX_DEPTH {
        NotsAt(n - 1, a, rest, depth + 1);
      }
    }
  }

  lemma NameAt(level: nat, a: string, rest: seq<Token>, depth: nat)
    requires level <= PRIMARY && !Continues(OR, Peek(rest))
    ensures ParseAt(level, [Ident(a)] + rest, depth) == Some(Parsed(Identifier(a), rest))
  {
    NamePrinted(a, level, depth);
    hide ParseAt, Continues, Print, Within;
    NoLonger(level, Peek(rest));
    ParsePrinted(Identifier(a), level, depth, rest);
    Stops(level, Identifier(a), rest, depth);
  }

  lemma NoLonger(level: nat, t: Token)
    requires !Continues(OR, t)
    ensures !Continues(level, t) && !Continues(level + 1, t)
  {
  }

  /** At most 256 NOTs may stand in front of a name. */
  lemma NotsReadIff(n: nat, a: string, rest: seq<Token>)
    requires !Continues(OR, Peek(rest))
    ensures ParseExpression(Times(n, Kw(KwNot)) + ([Ident(a)] + rest), 0) ==
              if n <= 256 then Some(Parsed(Applied(n, Not, Identifier(a)), rest)) else None
  {
    var ts := Times(n, Kw(KwNot)) + ([Ident(a)] + rest);
    NotsAt(n, a, rest, 0);
    assert Peek(ts) == if n > 0 then Kw(KwNot) else Ident(a);
    hide ParseAt, Continues, ParseExpression, Times;
    Lifted(NOT, ts, 0);
  }

  lemma {:induction false} SignsAt(n: nat, a: string, rest: seq<Token>, depth: nat)
    requires !Continues(OR, Peek(rest)) && depth <= MAX_DEPTH
    ensures ParseAt(UNARY, Times(n, Sym(Minus)) + ([Ident(a)] + rest), depth) ==
              if depth + n <= MAX_DEPTH then Some(Parsed(Applied(n, Neg, Identifier(a)), rest)) else None
  {
    var ts := Times(n, Sym(Minus)) + ([Ident(a)] + rest);
    if n == 0 {
      assert ts == [Ident(a)] + rest;
      NameAt(UNARY, a, rest, depth);
    } else {
      var more := Times(n - 1, Sym(Minus)) + ([Ident(a)] + rest);
      assert ts == [Sym(Minus)] + more;
      Front(Sym(Minus), more);
      if depth < MAX_DEPTH {
        SignsAt(n - 1, a, rest, depth + 1);
      }
    }
  }

  /** At most 256 signs may stand in front of a name. */
  lemma SignsReadIff(n: nat, a: string, rest: seq<Token>)
    requires !Continues(OR, Peek(rest))
    ensures ParseExpression(Times(n, Sym(Minus)) + ([Ident(a)] + rest), 0) ==
              if n <= 256 then Some(Parsed(Applied(n, Neg, Identifier(a)), rest)) else None
  {
    var ts := Times(n, Sym(Minus)) + ([Ident(a)] + rest);
    SignsAt(n, a, rest, 0);
    assert Peek(ts) == if n > 0 then Sym(Minus) else Ident(a);
    hide ParseAt, Continues, ParseExpression, Times;
    Lifted(UNARY, ts, 0);
  }

  /** A name in parentheses, nested. */
  function Nested(n: nat, a: string, rest: seq<Token>): seq<Token> {
    if n == 0 then [Ident(a)] + rest else [Sym(LParen)] + Nested(n - 1, a, [Sym(RParen)] + rest)
  }

  lemma {:induction false} NestedAt(n: nat, a: string, rest: seq<Token>, depth: nat)
    requires !Continues(OR, Peek(rest)) && depth <= MAX_DEPTH
    ensures ParseExpression(Nested(n, a, rest), depth) ==
              if depth + n <= MAX_DEPTH then Some(Parsed(Identifier(a), rest)) else None
    decreases n
  {
    var ts := Nested(n, a, rest);
    if n == 0 {
      NameAt(PRIMARY, a, rest, depth);
      Front(Ident(a), rest);
    } else {
      var inner := [Sym(RParen)] + rest;
      Front(Sym(LParen), Nested(n - 1, a, inner));
      Front(Sym(RParen), rest);
      if depth < MAX_DEPTH {
        NestedAt(n - 1, a, inner, depth + 1);
        ParenStep(Nested(n - 1, a, inner), depth);
      } else {
        NoDeeper(Nested(n - 1, a, inner), depth);
      }
      AtPrimary(ts, depth);
    }
    hide ParseAt, ParsePrimary, ParseExpression, Nested, Continues;
    Lifted(PRIMARY, ts, depth);
  }

  lemma NoDeeper(ts: seq<Token>, depth: nat)
    requires depth + 1 > MAX_DEPTH
    ensures ParsePrimary([Sym(LParen)] + ts, depth) == None
  {
    Front(Sym(LParen), ts);
  }

  /** At most 256 parentheses may be nested. */
  lemma NestedReadIff(n: nat, a: string, rest: seq<Token>)
    requires !Continues(OR, Peek(rest))
    ensures ParseExpression(Nested(n, a, rest), 0) == if n <= 256 then Some(Parsed(Identifier(a), rest)) else None
  {
    hide ParseExpression, Nested, Continues;
    NestedAt(n, a, rest, 0);
  }
}
