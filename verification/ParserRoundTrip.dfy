/** Parsing inverts printing, for every expression the grammar can produce. */
module ParserRoundTrip {
  import opened Bytes
  import opened Wrappers
  import opened Values
  import opened Syntax
  import opened Grammar
  import opened Printer

  /** The grammar can produce the expression; EXISTS holds a statement and is not covered. */
  predicate Producible(e: Expression)
    decreases e
  {
    match e
    case Lit(lit) => lit.LitInteger? || lit.LitFloat? || lit.LitString? || lit.LitBool? || lit.LitNull?
    case Identifier(_) => true
    case Parameter(_) => true
    case PropertyAccess(t, _) => Producible(t)
    case FunctionCall(_, args) => forall i | 0 <= i < |args| :: Producible(args[i])
    case Binary(l, _, r) => Producible(l) && Producible(r)
    case Unary(_, o) => Producible(o)
    case IsNull(o) => Producible(o)
    case IsNotNull(o) => Producible(o)
    case In(o, l) => Producible(o) && Producible(l)
    case Like(o, p) => Producible(o) && Producible(p)
    case Case(subject, arms, otherwise) =>
      && (match subject case Some(s) => Producible(s) case None => arms != [])
      && (forall i | 0 <= i < |arms| :: Producible(arms[i].condition) && Producible(arms[i].result))
      && (otherwise.Some? ==> Producible(otherwise.value))
    case Aggregate(_, _, arg) => arg.Some? ==> Producible(arg.value)
    case ListExpr(items) => forall i | 0 <= i < |items| :: Producible(items[i])
    case MapExpr(entries) => forall i | 0 <= i < |entries| :: Producible(entries[i].value)
    case Exists(_) => false
  }

  // ----- depth -----

  /** Printed at the level, the expression nests no deeper than the limit. */
  predicate Within(e: Expression, level: nat, depth: nat)
    decreases e, 1
  {
    if Level(e) < level then depth + 1 <= MAX_DEPTH && WithinBare(e, depth + 1) else WithinBare(e, depth)
  }

  predicate WithinCompared(e: Expression, depth: nat)
    decreases e, 1
  {
    if Level(e) < COMPARISON || Compared(e) then depth + 1 <= MAX_DEPTH && WithinBare(e, depth + 1) else WithinBare(e, depth)
  }

  predicate WithinBare(e: Expression, depth: nat)
    decreases e, 0
  {
    match e
    case PropertyAccess(t, _) => Within(t, POSTFIX, depth)
    case FunctionCall(_, args) => forall i | 0 <= i < |args| :: Within(args[i], OR, depth)
    case Binary(l, op, r) =>
      && (if BinaryLevel(op) == COMPARISON then WithinCompared(l, depth) else Within(l, BinaryLevel(op), depth))
      && Within(r, BinaryLevel(op) + 1, depth)
    case Unary(op, o) => depth + 1 <= MAX_DEPTH && Within(o, if op == Not then NOT else UNARY, depth + 1)
    case IsNull(o) => Within(o, COMPARISON, depth)
    case IsNotNull(o) => Within(o, COMPARISON, depth)
    case In(o, l) => Within(o, COMPARISON, depth) && Within(l, CONCAT, depth)
    case Like(o, p) => Within(o, COMPARISON, depth) && Within(p, CONCAT, depth)
    case Case(subject, arms, otherwise) =>
      && (subject.Some? ==> Within(subject.value, OR, depth))
      && (forall i | 0 <= i < |arms| :: Within(arms[i].condition, OR, depth) && Within(arms[i].result, OR, depth))
      && (otherwise.Some? ==> Within(otherwise.value, OR, depth))
    case Aggregate(_, _, arg) => arg.Some? ==> Within(arg.value, OR, depth)
    case ListExpr(items) => forall i | 0 <= i < |items| :: Within(items[i], OR, depth)
    case MapExpr(entries) => forall i | 0 <= i < |entries| :: Within(entries[i].value, OR, depth)
    case _ => true
  }

  // ----- what can follow, what can start -----

  /** The token continues an expression at some level of the ladder from `level` up. */
  predicate Continues(level: nat, t: Token) {
    match t
    case Kw(KwOr) => level <= OR
    case Kw(KwXor) => level <= XOR
    case Kw(KwAnd) => level <= AND
    case Kw(KwIs) => level <= COMPARISON
    case Kw(KwIn) => level <= COMPARISON
    case Kw(KwLike) => level <= COMPARISON
    case Sym(Equals) => level <= COMPARISON
    case Sym(NotEquals) => level <= COMPARISON
    case Sym(LessThan) => level <= COMPARISON
    case Sym(GreaterThan) => level <= COMPARISON
    case Sym(LessEquals) => level <= COMPARISON
    case Sym(GreaterEquals) => level <= COMPARISON
    case Sym(DoublePipe) => level <= CONCAT
    case Sym(Plus) => level <= ADDITION
    case Sym(Minus) => level <= ADDITION
    case Sym(Star) => level <= MULTIPLICATION
    case Sym(Slash) => level <= MULTIPLICATION
    case Sym(Percent) => level <= MULTIPLICATION
    case Sym(Dot) => level <= POSTFIX
    case Sym(LParen) => true
    case _ => false
  }

  /** A token that starts a printed expression at the level. */
  predicate Opens(t: Token, level: nat) {
    || t.IntegerLit? || t.FloatLit? || t.StringLit? || t.Ident? || t.Param?
    || (t.Sym? && (t.sym.LParen? || t.sym.LBracket? || t.sym.LBrace? || (level <= UNARY && (t.sym.Minus? || t.sym.Plus?))))
    || (t.Kw? && KeywordOpens(t.kw, level))
  }

  predicate KeywordOpens(k: Keyword, level: nat) {
    || k.KwTrue? || k.KwFalse? || k.KwNull? || k.KwCase? || k.KwCount? || k.KwSum? || k.KwAvg? || k.KwMin? || k.KwMax? || k.KwCollect?
    || (level <= NOT && k.KwNot?)
  }

  /** What the loops of the level do once the expression has been read. */
  function Finish(level: nat, e: Expression, rest: seq<Token>, depth: nat): Parse<Expression> {
    if Folded(level) then FoldRest(level, e, rest, depth)
    else if level == COMPARISON then CompareRest(e, rest, Compared(e) && Level(e) == COMPARISON, depth)
    else if level == POSTFIX then PostfixRest(e, rest)
    else Some(Parsed(e, rest))
  }

  lemma Stops(level: nat, e: Expression, rest: seq<Token>, depth: nat)
    requires !Continues(level, Peek(rest))
    ensures Finish(level, e, rest, depth) == Some(Parsed(e, rest))
  {
  }

  /** How the parser starts at a level: at the next one, then its own loop. */
  lemma Descends(level: nat, ts: seq<Token>, depth: nat)
    requires level < PRIMARY && Opens(Peek(ts), level + 1)
    ensures ParseAt(level, ts, depth) ==
              match ParseAt(level + 1, ts, depth)
              case None => None
              case Some(p) =>
                if Folded(level) then FoldRest(level, p.value, p.rest, depth)
                else if level == COMPARISON then CompareRest(p.value, p.rest, false, depth)
                else if level == POSTFIX then PostfixRest(p.value, p.rest)
                else Some(p)
  {
  }

  lemma OpensLower(t: Token, level: nat, lower: nat)
    requires Opens(t, level) && lower <= level
    ensures Opens(t, lower)
  {
  }

  /** The operand a printed expression starts with, if it starts with one. */
  function Leading(e: Expression): Option<Expression> {
    match e
    case Binary(l, _, _) => Some(l)
    case PropertyAccess(t, _) => Some(t)
    case IsNull(o) => Some(o)
    case IsNotNull(o) => Some(o)
    case In(o, _) => Some(o)
    case Like(o, _) => Some(o)
    case _ => None
  }

  lemma LeadingFirst(e: Expression)
    requires Producible(e) && Leading(e).Some?
    ensures var o := Leading(e).value;
            var first := if Level(o) < Level(e) || (e.Binary? && Level(e) == COMPARISON && Compared(o))
                         then [Sym(LParen)] + Bare(o) else Bare(o);
            first <= Bare(e) && Producible(o)
  {
  }

  lemma SelfOpens(e: Expression)
    requires Producible(e) && Leading(e).None?
    ensures Bare(e) != [] && Opens(Bare(e)[0], Level(e))
  {
    hide Print, PrintItems, PrintEntries, PrintArms;
  }

  lemma {:induction false} BareOpens(e: Expression)
    requires Producible(e)
    ensures Bare(e) != [] && Opens(Bare(e)[0], Level(e))
    decreases e, 0
  {
    hide Bare, Producible, Level, Compared, Opens;
    match Leading(e)
    case None => SelfOpens(e);
    case Some(o) =>
      LeadingFirst(e);
      ParenthesisOpens(Level(e));
      if !([Sym(LParen)] + Bare(o) <= Bare(e)) {
        BareOpens(o);
        OpensLower(Bare(o)[0], Level(o), Level(e));
      }
  }

  lemma ParenthesisOpens(level: nat)
    ensures Opens(Sym(LParen), level)
  {
  }

  lemma {:induction false} PrintOpens(e: Expression, level: nat)
    requires Producible(e) && level <= PRIMARY
    ensures Print(e, level) != [] && Opens(Print(e, level)[0], level)
    decreases e, 1
  {
    hide Bare, Producible, Opens;
    BareOpens(e);
    ParenthesisOpens(level);
    if Level(e) >= level {
      OpensLower(Bare(e)[0], Level(e), level);
    }
  }

  /** The first token of a printed expression, whatever follows. */
  lemma PrintPeek(e: Expression, level: nat, rest: seq<Token>)
    requires Producible(e) && level <= PRIMARY
    ensures Opens(Peek(Print(e, level) + rest), level) && Print(e, level) + rest != []
  {
    PrintOpens(e, level);
    hide Print;
    assert (Print(e, level) + rest)[0] == Print(e, level)[0];
  }

  lemma Front(t: Token, rest: seq<Token>)
    ensures Peek([t] + rest) == t && ([t] + rest)[1..] == rest && [t] + rest != []
  {
  }

  // ----- the ladder -----

  /**
   Printing at a level and parsing at it, where the next token continues no
   tighter level, reads exactly the printed tokens and goes on with the level's
   own loop.
   */
  lemma {:induction false} ParsePrinted(e: Expression, level: nat, depth: nat, rest: seq<Token>)
    requires level <= PRIMARY && Producible(e) && Within(e, level, depth) && !Continues(level + 1, Peek(rest))
    ensures ParseAt(level, Print(e, level) + rest, depth) == Finish(level, e, rest, depth)
    decreases e, 100, if Level(e) < level then 22 - level else Level(e) - level
  {
    hide ParseAt, FoldRest, CompareRest, PostfixRest, Bare, WithinBare, ParsePrimary, Producible, Continues, Level, Opens;
    if Level(e) == level {
      ParseBare(e, depth, rest);
    } else if level < PRIMARY {
      PrintPeek(e, level + 1, rest);
      LowerContinues(level + 1, Peek(rest));
      Descends(level, Print(e, level + 1) + rest, depth);
      ParsePrinted(e, level + 1, depth, rest);
      Stops(level + 1, e, rest, depth);
    } else {
      ParseParenthesized(e, depth, rest);
    }
  }

  lemma ParenShape(e: Expression, rest: seq<Token>)
    ensures [Sym(LParen)] + Bare(e) + [Sym(RParen)] + rest == [Sym(LParen)] + (Bare(e) + ([Sym(RParen)] + rest))
    ensures Print(e, OR) == Bare(e)
  {
    hide Bare;
  }

  lemma ParenStep(ts: seq<Token>, depth: nat)
    requires depth + 1 <= MAX_DEPTH
    ensures ParsePrimary([Sym(LParen)] + ts, depth) ==
              match ParseExpression(ts, depth + 1)
              case None => None
              case Some(p) => if Peek(p.rest) == Sym(RParen) then Some(Parsed(p.value, p.rest[1..])) else None
  {
    Front(Sym(LParen), ts);
    hide ParseExpression;
  }

  lemma {:induction false} ParseParenthesized(e: Expression, depth: nat, rest: seq<Token>)
    requires Level(e) < PRIMARY && Producible(e) && depth + 1 <= MAX_DEPTH && WithinBare(e, depth + 1)
    ensures ParseAt(PRIMARY, [Sym(LParen)] + Bare(e) + [Sym(RParen)] + rest, depth) == Some(Parsed(e, rest))
    decreases e, 100, 11
  {
    hide ParseAt, ParsePrimary, ParseExpression, FoldRest, Bare, WithinBare, Print, Finish, Producible;
    var close := [Sym(RParen)] + rest;
    ParenShape(e, rest);
    Front(Sym(RParen), rest);
    ParsePrinted(e, OR, depth + 1, close);
    Stops(OR, e, close, depth + 1);
    AtPrimary([Sym(LParen)] + (Bare(e) + close), depth);
    AtPrimary(Bare(e) + close, depth + 1);
    ParenStep(Bare(e) + close, depth);
  }

  lemma AtPrimary(ts: seq<Token>, depth: nat)
    ensures ParseAt(PRIMARY, ts, depth) == ParsePrimary(ts, depth)
    ensures ParseExpression(ts, depth) == ParseAt(OR, ts, depth)
  {
    hide ParsePrimary, FoldRest;
  }

  /** Without parentheses, at the expression's own level. */
  lemma {:induction false} ParseBare(e: Expression, depth: nat, rest: seq<Token>)
    requires Producible(e) && WithinBare(e, depth) && !Continues(Level(e) + 1, Peek(rest))
    ensures ParseAt(Level(e), Bare(e) + rest, depth) == Finish(Level(e), e, rest, depth)
    decreases e, 99
  {
    hide ParseAt, FoldRest, CompareRest, PostfixRest, Bare, ParsePrimary, Print;
    match e
    case Binary(_, op, _) => if BinaryLevel(op) == COMPARISON { ParseCompared(e, depth, rest); } else { ParseFolded(e, depth, rest); }
    case Unary(_, _) => ParsePrefixed(e, depth, rest);
    case IsNull(_) => ParseNullTest(e, depth, rest);
    case IsNotNull(_) => ParseNullTest(e, depth, rest);
    case In(_, _) => ParseMembership(e, depth, rest);
    case Like(_, _) => ParseMembership(e, depth, rest);
    case PropertyAccess(_, _) => ParseAccess(e, depth, rest);
    case Exists(_) =>
    case _ =>
      AtPrimary(Bare(e) + rest, depth);
      ParseAtom(e, depth, rest);
  }

  lemma FoldStep(level: nat, left: Expression, op: BinaryOp, ts: seq<Token>, depth: nat)
    requires Folded(level) && BinaryLevel(op) == level
    ensures FoldRest(level, left, [OperatorToken(op)] + ts, depth) ==
              match ParseAt(level + 1, ts, depth)
              case None => None
              case Some(p) => FoldRest(level, Expression.Binary(left, op, p.value), p.rest, depth)
    ensures !Continues(level + 1, OperatorToken(op))
  {
    Front(OperatorToken(op), ts);
    hide ParseAt;
  }

  lemma {:induction false} ParseFolded(e: Expression, depth: nat, rest: seq<Token>)
    requires e.Binary? && BinaryLevel(e.op) != COMPARISON
    requires Producible(e) && WithinBare(e, depth) && !Continues(Level(e) + 1, Peek(rest))
    ensures ParseAt(Level(e), Bare(e) + rest, depth) == Finish(Level(e), e, rest, depth)
    decreases e, 98
  {
    var level := BinaryLevel(e.op);
    var right := Print(e.right, level + 1) + rest;
    assert Bare(e) + rest == Print(e.left, level) + ([OperatorToken(e.op)] + right);
    assert Within(e.left, level, depth) && Within(e.right, level + 1, depth) && Producible(e.left) && Producible(e.right);
    hide ParseAt, FoldRest, Bare, WithinBare, Producible, Print, Within;
    FoldStep(level, e.left, e.op, right, depth);
    Front(OperatorToken(e.op), right);
    ParsePrinted(e.left, level, depth, [OperatorToken(e.op)] + right);
    ParsePrinted(e.right, level + 1, depth, rest);
    Stops(level + 1, e.right, rest, depth);
  }

  lemma {:induction false} ParsePrefixed(e: Expression, depth: nat, rest: seq<Token>)
    requires e.Unary? && Producible(e) && WithinBare(e, depth) && !Continues(Level(e) + 1, Peek(rest))
    ensures ParseAt(Level(e), Bare(e) + rest, depth) == Finish(Level(e), e, rest, depth)
    decreases e, 98
  {
    var level := Level(e);
    var t := match e.uop case Not => Kw(KwNot) case Neg => Sym(Minus) case Pos => Sym(Plus);
    var inner := Print(e.operand, level) + rest;
    assert Bare(e) + rest == [t] + inner;
    assert Within(e.operand, level, depth + 1) && Producible(e.operand);
    hide Bare, WithinBare, Producible, Print, Within, FoldRest, CompareRest;
    Front(t, inner);
    ParsePrinted(e.operand, level, depth + 1, rest);
    Stops(level, e.operand, rest, depth + 1);
  }

  lemma {:induction false} ParseAccess(e: Expression, depth: nat, rest: seq<Token>)
    requires e.PropertyAccess? && Producible(e) && WithinBare(e, depth) && !Continues(Level(e) + 1, Peek(rest))
    ensures ParseAt(Level(e), Bare(e) + rest, depth) == Finish(Level(e), e, rest, depth)
    decreases e, 98
  {
    var more := [Ident(e.property)] + rest;
    assert Bare(e) + rest == Print(e.target, POSTFIX) + ([Sym(Dot)] + more);
    assert Within(e.target, POSTFIX, depth) && Producible(e.target);
    hide ParseAt, Bare, WithinBare, Producible, Print, Within;
    Front(Sym(Dot), more);
    Front(Ident(e.property), rest);
    assert ([Sym(Dot)] + more)[2..] == rest;
    ParsePrinted(e.target, POSTFIX, depth, [Sym(Dot)] + more);
  }

  // ----- comparisons -----

  /** The left operand of a comparison operator is read with no comparison before it. */
  lemma {:induction false} ParseLeft(e: Expression, depth: nat, rest: seq<Token>)
    requires Producible(e) && WithinCompared(e, depth) && !Continues(CONCAT, Peek(rest))
    ensures ParseAt(COMPARISON, PrintCompared(e) + rest, depth) == CompareRest(e, rest, false, depth)
    decreases e, 101
  {
    hide ParseAt, CompareRest, Bare, WithinBare;
    NotCompared(e);
    if Compared(e) {
      ParseLeftParenthesized(e, depth, rest);
    } else {
      ParsePrinted(e, COMPARISON, depth, rest);
    }
  }

  lemma NotCompared(e: Expression)
    ensures Compared(e) ==> Level(e) == COMPARISON
  {
  }

  lemma {:induction false} ParseLeftParenthesized(e: Expression, depth: nat, rest: seq<Token>)
    requires Level(e) == COMPARISON && Producible(e) && depth + 1 <= MAX_DEPTH && WithinBare(e, depth + 1)
    requires !Continues(CONCAT, Peek(rest))
    ensures ParseAt(COMPARISON, [Sym(LParen)] + Bare(e) + [Sym(RParen)] + rest, depth) == CompareRest(e, rest, false, depth)
    decreases e, 100, 50
  {
    var ts := [Sym(LParen)] + Bare(e) + [Sym(RParen)] + rest;
    assert Peek(ts) == Sym(LParen);
    hide ParseAt, CompareRest, FoldRest, PostfixRest, Bare, WithinBare, Compared;
    ParsePrinted(e, CONCAT, depth, rest);
    assert Print(e, CONCAT) + rest == ts;
    Stops(CONCAT, e, rest, depth);
    Descends(COMPARISON, ts, depth);
  }

  lemma CompareStep(left: Expression, op: BinaryOp, ts: seq<Token>, depth: nat)
    requires BinaryLevel(op) == COMPARISON
    ensures CompareRest(left, [OperatorToken(op)] + ts, false, depth) ==
              match ParseAt(CONCAT, ts, depth)
              case None => None
              case Some(p) => CompareRest(Expression.Binary(left, op, p.value), p.rest, true, depth)
    ensures !Continues(CONCAT, OperatorToken(op))
  {
    Front(OperatorToken(op), ts);
    hide ParseAt;
  }

  lemma CompareShape(e: Expression, depth: nat, rest: seq<Token>)
    requires e.Binary? && BinaryLevel(e.op) == COMPARISON && Producible(e) && WithinBare(e, depth)
    ensures Bare(e) + rest == PrintCompared(e.left) + ([OperatorToken(e.op)] + (Print(e.right, CONCAT) + rest))
    ensures WithinCompared(e.left, depth) && Within(e.right, CONCAT, depth) && Producible(e.left) && Producible(e.right)
    ensures Compared(e) && Level(e) == COMPARISON
  {
    hide Print, PrintCompared, Within, WithinCompared;
  }

  lemma {:induction false} ParseCompared(e: Expression, depth: nat, rest: seq<Token>)
    requires e.Binary? && BinaryLevel(e.op) == COMPARISON
    requires Producible(e) && WithinBare(e, depth) && !Continues(CONCAT, Peek(rest))
    ensures ParseAt(COMPARISON, Bare(e) + rest, depth) == Finish(COMPARISON, e, rest, depth)
    decreases e, 98
  {
    hide ParseAt, CompareRest, FoldRest, Bare, WithinBare, Producible, Print, Within, PrintCompared, WithinCompared,
      Compared, Level,
      Continues;
    var right := Print(e.right, CONCAT) + rest;
    CompareShape(e, depth, rest);
    CompareStep(e.left, e.op, right, depth);
    Front(OperatorToken(e.op), right);
    ParseLeft(e.left, depth, [OperatorToken(e.op)] + right);
    LowerContinues(CONCAT, Peek(rest));
    ParsePrinted(e.right, CONCAT, depth, rest);
    Stops(CONCAT, e.right, rest, depth);
  }

  lemma LowerContinues(level: nat, t: Token)
    requires !Continues(level, t)
    ensures !Continues(level + 1, t)
  {
  }

  lemma NullStep(left: Expression, ts: seq<Token>, compared: bool, depth: nat)
    ensures CompareRest(left, [Kw(KwIs), Kw(KwNull)] + ts, compared, depth) == CompareRest(IsNull(left), ts, compared, depth)
    ensures CompareRest(left, [Kw(KwIs), Kw(KwNot), Kw(KwNull)] + ts, compared, depth) ==
              CompareRest(IsNotNull(left), ts, compared, depth)
  {
    var a, b := [Kw(KwIs), Kw(KwNull)] + ts, [Kw(KwIs), Kw(KwNot), Kw(KwNull)] + ts;
    assert Peek(a) == Kw(KwIs) && Peek(a[1..]) == Kw(KwNull) && a[2..] == ts;
    assert Peek(b) == Kw(KwIs) && Peek(b[1..]) == Kw(KwNot) && Peek(b[2..]) == Kw(KwNull) && b[3..] == ts;
  }

  lemma {:induction false} ParseNullTest(e: Expression, depth: nat, rest: seq<Token>)
    requires e.IsNull? || e.IsNotNull?
    requires Producible(e) && WithinBare(e, depth) && !Continues(CONCAT, Peek(rest))
    ensures ParseAt(COMPARISON, Bare(e) + rest, depth) == Finish(COMPARISON, e, rest, depth)
    decreases e, 98
  {
    var more := (if e.IsNull? then [Kw(KwIs), Kw(KwNull)] else [Kw(KwIs), Kw(KwNot), Kw(KwNull)]) + rest;
    assert Bare(e) + rest == Print(e.inner, COMPARISON) + more;
    assert Within(e.inner, COMPARISON, depth) && Producible(e.inner) && Peek(more) == Kw(KwIs);
    assert Compared(e) == Compared(e.inner);
    hide ParseAt, CompareRest, Bare, WithinBare, Producible, Print, Within, Compared;
    NullStep(e.inner, rest, Compared(e.inner), depth);
    ParsePrinted(e.inner, COMPARISON, depth, more);
    NotCompared(e.inner);
  }

  lemma MemberStep(left: Expression, ts: seq<Token>, compared: bool, depth: nat)
    ensures CompareRest(left, [Kw(KwIn)] + ts, compared, depth) ==
              match ParseAt(CONCAT, ts, depth)
              case None => None
              case Some(p) => CompareRest(In(left, p.value), p.rest, compared, depth)
    ensures CompareRest(left, [Kw(KwLike)] + ts, compared, depth) ==
              match ParseAt(CONCAT, ts, depth)
              case None => None
              case Some(p) => CompareRest(Like(left, p.value), p.rest, compared, depth)
  {
    Front(Kw(KwIn), ts);
    Front(Kw(KwLike), ts);
    hide ParseAt;
  }

  lemma MemberShape(e: Expression, depth: nat, rest: seq<Token>)
    requires (e.In? || e.Like?) && Producible(e) && WithinBare(e, depth)
    ensures var t, r := if e.In? then Kw(KwIn) else Kw(KwLike), if e.In? then e.list else e.pattern;
            && Bare(e) + rest == Print(e.operand, COMPARISON) + ([t] + (Print(r, CONCAT) + rest))
            && Within(e.operand, COMPARISON, depth) && Within(r, CONCAT, depth) && Producible(e.operand) && Producible(r)
    ensures Compared(e) == Compared(e.operand)
  {
    hide Print, Within;
  }

  lemma {:induction false} ParseMembership(e: Expression, depth: nat, rest: seq<Token>)
    requires e.In? || e.Like?
    requires Producible(e) && WithinBare(e, depth) && !Continues(CONCAT, Peek(rest))
    ensures ParseAt(COMPARISON, Bare(e) + rest, depth) == Finish(COMPARISON, e, rest, depth)
    decreases e, 98
  {
    hide ParseAt, CompareRest, FoldRest, Bare, WithinBare, Producible, Print, Within, Compared;
    var t := if e.In? then Kw(KwIn) else Kw(KwLike);
    var r := if e.In? then e.list else e.pattern;
    var right := Print(r, CONCAT) + rest;
    MemberShape(e, depth, rest);
    MemberStep(e.operand, right, Compared(e.operand), depth);
    Front(t, right);
    ParsePrinted(e.operand, COMPARISON, depth, [t] + right);
    NotCompared(e.operand);
    ParsePrinted(r, CONCAT, depth, rest);
    Stops(CONCAT, r, rest, depth);
  }

  // ----- primaries -----

  /** In a position where the expression ends at a token that continues nothing. */
  lemma {:induction false} ParseWhole(e: Expression, depth: nat, rest: seq<Token>)
    requires Producible(e) && Within(e, OR, depth) && !Continues(OR, Peek(rest))
    ensures ParseExpression(Print(e, OR) + rest, depth) == Some(Parsed(e, rest))
    ensures Opens(Peek(Print(e, OR) + rest), OR)
    decreases e, 102
  {
    hide ParseAt, FoldRest, Bare, WithinBare;
    PrintPeek(e, OR, rest);
    ParsePrinted(e, OR, depth, rest);
    Stops(OR, e, rest, depth);
    AtPrimary(Print(e, OR) + rest, depth);
  }

  /** What follows the first of several comma-separated parts. */
  function AfterFirst<T>(parts: seq<T>, later: seq<Token>, rest: seq<Token>): seq<Token> {
    if |parts| == 1 then rest else [Sym(Comma)] + (later + rest)
  }

  lemma ItemsShape(es: seq<Expression>, rest: seq<Token>)
    requires es != []
    ensures PrintItems(es) + rest == Print(es[0], OR) + AfterFirst(es, PrintItems(es[1..]), rest)
  {
    hide Print;
  }

  lemma ItemsStep(items: seq<Expression>, e: Expression, ts: seq<Token>, more: seq<Token>, depth: nat)
    requires ParseExpression(ts, depth) == Some(Parsed(e, more))
    ensures ParseItems(items, ts, depth) ==
              if Peek(more) == Sym(Comma) then ParseItems(items + [e], more[1..], depth) else Some(Parsed(items + [e], more))
  {
    hide ParseExpression;
  }

  lemma {:induction false} ParsePrintedItems(items: seq<Expression>, es: seq<Expression>, depth: nat, rest: seq<Token>)
    requires es != [] && forall i :: 0 <= i < |es| ==> Producible(es[i]) && Within(es[i], OR, depth)
    requires !Continues(OR, Peek(rest)) && Peek(rest) != Sym(Comma)
    ensures ParseItems(items, PrintItems(es) + rest, depth) == Some(Parsed(items + es, rest))
    ensures Opens(Peek(PrintItems(es) + rest), OR)
    decreases es, 103
  {
    hide ParseExpression, Print, Within, Producible, PrintItems, ParseItems, Opens;
    var later := PrintItems(es[1..]);
    var more := AfterFirst(es, later, rest);
    ItemsShape(es, rest);
    Front(Sym(Comma), later + rest);
    ParseWhole(es[0], depth, more);
    ItemsStep(items, es[0], PrintItems(es) + rest, more, depth);
    if |es| > 1 {
      ParsePrintedItems(items + [es[0]], es[1..], depth, rest);
      assert items + [es[0]] + es[1..] == items + es;
    } else {
      assert items + [es[0]] == items + es;
    }
  }

  /** The items of a list or an argument list, with the closing token. */
  lemma {:induction false} ParsePrintedList(es: seq<Expression>, close: Token, depth: nat, rest: seq<Token>)
    requires forall i :: 0 <= i < |es| ==> Producible(es[i]) && Within(es[i], OR, depth)
    requires close == Sym(RBracket) || close == Sym(RParen)
    ensures ParseEnclosed(PrintItems(es) + [close] + rest, close, depth) == Some(Parsed(es, rest))
    decreases es, 104
  {
    Front(close, rest);
    hide ParseItems, Print, Within, Producible;
    if es == [] {
      assert PrintItems(es) + [close] + rest == [close] + rest;
    } else {
      hide PrintItems;
      assert PrintItems(es) + [close] + rest == PrintItems(es) + ([close] + rest);
      ParsePrintedItems([], es, depth, [close] + rest);
      assert [] + es == es;
    }
  }

  lemma EntriesShape(es: seq<Entry>, rest: seq<Token>)
    requires es != []
    ensures PrintEntries(es) + rest ==
              [Ident(es[0].key), Sym(Colon)] + (Print(es[0].value, OR) + AfterFirst(es, PrintEntries(es[1..]), rest))
  {
    hide Print;
  }

  lemma EntriesStep(entries: seq<Entry>, entry: Entry, ts: seq<Token>, more: seq<Token>, keywords: bool, depth: nat)
    requires ParseExpression(ts, depth) == Some(Parsed(entry.value, more))
    ensures ParseEntries(entries, [Ident(entry.key), Sym(Colon)] + ts, keywords, depth) ==
              if Peek(more) == Sym(Comma) then ParseEntries(entries + [entry], more[1..], keywords, depth)
              else Some(Parsed(entries + [entry], more))
  {
    hide ParseExpression;
    var all := [Ident(entry.key), Sym(Colon)] + ts;
    assert Peek(all) == Ident(entry.key) && Peek(all[1..]) == Sym(Colon) && all[2..] == ts;
  }

  lemma {:induction false} ParsePrintedEntries(entries: seq<Entry>, es: seq<Entry>, keywords: bool, depth: nat,
                                               rest: seq<Token>)
    requires es != [] && forall i :: 0 <= i < |es| ==> Producible(es[i].value) && Within(es[i].value, OR, depth)
    requires !Continues(OR, Peek(rest)) && Peek(rest) != Sym(Comma)
    ensures ParseEntries(entries, PrintEntries(es) + rest, keywords, depth) == Some(Parsed(entries + es, rest))
    ensures PrintEntries(es) + rest != [] && Peek(PrintEntries(es) + rest).Ident?
    decreases es, 103
  {
    hide ParseExpression, Print, Within, Producible, PrintEntries, ParseEntries, Opens;
    var later := PrintEntries(es[1..]);
    var more := AfterFirst(es, later, rest);
    EntriesShape(es, rest);
    Front(Sym(Comma), later + rest);
    ParseWhole(es[0].value, depth, more);
    EntriesStep(entries, es[0], Print(es[0].value, OR) + more, more, keywords, depth);
    if |es| > 1 {
      ParsePrintedEntries(entries + [es[0]], es[1..], keywords, depth, rest);
      assert entries + [es[0]] + es[1..] == entries + es;
    } else {
      assert entries + [es[0]] == entries + es;
    }
  }

  lemma ArmsShape(arms: seq<Arm>, rest: seq<Token>)
    ensures arms == [] ==> PrintArms(arms) + rest == rest
    ensures arms != [] ==> PrintArms(arms) + rest == PrintArm(arms[0]) + (PrintArms(arms[1..]) + rest)
  {
    hide PrintArm;
  }

  lemma ArmKeywordsStop()
    ensures !Continues(OR, Kw(KwElse)) && !Continues(OR, Kw(KwEnd)) && !Continues(OR, Kw(KwWhen))
  {
  }

  lemma NoMoreArms(arms: seq<Arm>, ts: seq<Token>, depth: nat)
    requires Peek(ts) != Kw(KwWhen)
    ensures ParseArms(arms, ts, depth) == Some(Parsed(arms, ts))
  {
  }

  lemma {:induction false} ParsePrintedArms(before: seq<Arm>, arms: seq<Arm>, depth: nat, rest: seq<Token>)
    requires forall i :: 0 <= i < |arms| ==> Producible(arms[i].condition) && Within(arms[i].condition, OR, depth)
    requires forall i :: 0 <= i < |arms| ==> Producible(arms[i].result) && Within(arms[i].result, OR, depth)
    requires Peek(rest) == Kw(KwElse) || Peek(rest) == Kw(KwEnd)
    ensures ParseArms(before, PrintArms(arms) + rest, depth) == Some(Parsed(before + arms, rest))
    ensures !Continues(OR, Peek(PrintArms(arms) + rest))
    ensures arms != [] ==> Peek(PrintArms(arms) + rest) == Kw(KwWhen)
    decreases arms, 103
  {
    hide ParseArms, PrintArms, PrintArm, Producible, Within, Continues, KeywordOpens;
    ArmsShape(arms, rest);
    ArmKeywordsStop();
    if arms == [] {
      NoMoreArms(before, rest, depth);
      assert before + arms == before;
    } else {
      ParsePrintedArms(before + [arms[0]], arms[1..], depth, rest);
      ParsePrintedArm(before, arms[0], depth, PrintArms(arms[1..]) + rest);
      assert before + [arms[0]] + arms[1..] == before + arms;
    }
  }

  lemma ArmShape(arm: Arm, later: seq<Token>)
    ensures PrintArm(arm) + later ==
              [Kw(KwWhen)] + (Print(arm.condition, OR) + ([Kw(KwThen)] + (Print(arm.result, OR) + later)))
  {
    hide Print;
  }

  lemma ArmStep(before: seq<Arm>, arm: Arm, ts: seq<Token>, ts': seq<Token>, later: seq<Token>, depth: nat)
    requires ParseExpression(ts, depth) == Some(Parsed(arm.condition, [Kw(KwThen)] + ts'))
    requires ParseExpression(ts', depth) == Some(Parsed(arm.result, later))
    ensures ParseArms(before, [Kw(KwWhen)] + ts, depth) == ParseArms(before + [arm], later, depth)
  {
    hide ParseExpression;
    Front(Kw(KwWhen), ts);
    Front(Kw(KwThen), ts');
  }

  lemma {:induction false} ParsePrintedArm(before: seq<Arm>, arm: Arm, depth: nat, later: seq<Token>)
    requires Producible(arm.condition) && Within(arm.condition, OR, depth)
    requires Producible(arm.result) && Within(arm.result, OR, depth)
    requires !Continues(OR, Peek(later))
    ensures ParseArms(before, PrintArm(arm) + later, depth) == ParseArms(before + [arm], later, depth)
    ensures Peek(PrintArm(arm) + later) == Kw(KwWhen)
    decreases arm, 103
  {
    hide ParseExpression, ParseArms, Print, Within, Producible, PrintArm, Opens;
    var result := Print(arm.result, OR) + later;
    var condition := Print(arm.condition, OR) + ([Kw(KwThen)] + result);
    ArmShape(arm, later);
    Front(Kw(KwWhen), condition);
    Front(Kw(KwThen), result);
    ParseWhole(arm.condition, depth, [Kw(KwThen)] + result);
    ParseWhole(arm.result, depth, later);
    ArmStep(before, arm, condition, result, later, depth);
  }

  lemma AtomStep(t: Token, e: Expression, rest: seq<Token>, depth: nat)
    requires AtomOf(t) == Some(e) || (e.Identifier? && t == Ident(e.name) && Peek(rest) != Sym(LParen))
    ensures ParsePrimary([t] + rest, depth) == Some(Parsed(e, rest))
  {
    Front(t, rest);
  }

  lemma {:induction false} ParseAtom(e: Expression, depth: nat, rest: seq<Token>)
    requires Level(e) == PRIMARY && Producible(e) && WithinBare(e, depth) && Peek(rest) != Sym(LParen)
    ensures ParsePrimary(Bare(e) + rest, depth) == Some(Parsed(e, rest))
    decreases e, 98
  {
    match e {
      case FunctionCall(_, _) =>
        hide *;
        ParseFunction(e, depth, rest);
      case Case(_, _, _) =>
        hide *;
        ParsePrintedCase(e, depth, rest);
      case Aggregate(_, _, _) =>
        hide *;
        ParsePrintedAggregate(e, depth, rest);
      case ListExpr(_) =>
        hide *;
        ParseList(e, depth, rest);
      case MapExpr(_) =>
        hide *;
        ParseMap(e, depth, rest);
      case Lit(lit) =>
        hide ParsePrimary;
        AtomStep(LiteralToken(lit), e, rest, depth);
      case Parameter(name) =>
        hide ParsePrimary;
        AtomStep(Param(name), e, rest, depth);
      case Identifier(name) =>
        hide ParsePrimary;
        AtomStep(Ident(name), e, rest, depth);
    }
  }

  lemma ListShape(e: Expression, depth: nat, rest: seq<Token>)
    requires e.ListExpr? && Producible(e) && WithinBare(e, depth)
    ensures Bare(e) + rest == [Sym(LBracket)] + (PrintItems(e.items) + [Sym(RBracket)] + rest)
    ensures forall i :: 0 <= i < |e.items| ==> Producible(e.items[i]) && Within(e.items[i], OR, depth)
  {
    hide PrintItems, Within;
  }

  lemma ListStep(items: seq<Expression>, ts: seq<Token>, rest: seq<Token>, depth: nat)
    requires ParseEnclosed(ts, Sym(RBracket), depth) == Some(Parsed(items, rest))
    ensures ParsePrimary([Sym(LBracket)] + ts, depth) == Some(Parsed(ListExpr(items), rest))
  {
    hide ParseEnclosed;
    Front(Sym(LBracket), ts);
  }

  lemma {:induction false} ParseList(e: Expression, depth: nat, rest: seq<Token>)
    requires e.ListExpr? && Producible(e) && WithinBare(e, depth)
    ensures ParsePrimary(Bare(e) + rest, depth) == Some(Parsed(e, rest))
    decreases e, 97
  {
    hide *;
    ListShape(e, depth, rest);
    ParsePrintedList(e.items, Sym(RBracket), depth, rest);
    ListStep(e.items, PrintItems(e.items) + [Sym(RBracket)] + rest, rest, depth);
  }

  lemma CallShape(e: Expression, depth: nat, rest: seq<Token>)
    requires e.FunctionCall? && Producible(e) && WithinBare(e, depth)
    ensures Bare(e) + rest == [Ident(e.name)] + ([Sym(LParen)] + (PrintItems(e.args) + [Sym(RParen)] + rest))
    ensures forall i :: 0 <= i < |e.args| ==> Producible(e.args[i]) && Within(e.args[i], OR, depth)
  {
    hide PrintItems, Within;
  }

  lemma CallStep(name: string, args: seq<Expression>, ts: seq<Token>, rest: seq<Token>, depth: nat)
    requires ParseEnclosed(ts, Sym(RParen), depth) == Some(Parsed(args, rest))
    ensures ParsePrimary([Ident(name)] + ([Sym(LParen)] + ts), depth) == Some(Parsed(FunctionCall(name, args), rest))
  {
    hide ParseEnclosed;
    Front(Ident(name), [Sym(LParen)] + ts);
    Front(Sym(LParen), ts);
  }

  lemma {:induction false} ParseFunction(e: Expression, depth: nat, rest: seq<Token>)
    requires e.FunctionCall? && Producible(e) && WithinBare(e, depth)
    ensures ParsePrimary(Bare(e) + rest, depth) == Some(Parsed(e, rest))
    decreases e, 97
  {
    hide *;
    CallShape(e, depth, rest);
    ParsePrintedList(e.args, Sym(RParen), depth, rest);
    CallStep(e.name, e.args, PrintItems(e.args) + [Sym(RParen)] + rest, rest, depth);
  }

  lemma MapShape(e: Expression, depth: nat, rest: seq<Token>)
    requires e.MapExpr? && Producible(e) && WithinBare(e, depth)
    ensures Bare(e) + rest == [Sym(LBrace)] + (PrintEntries(e.entries) + ([Sym(RBrace)] + rest))
    ensures e.entries == [] ==> PrintEntries(e.entries) + ([Sym(RBrace)] + rest) == [Sym(RBrace)] + rest
    ensures forall i :: 0 <= i < |e.entries| ==> Producible(e.entries[i].value) && Within(e.entries[i].value, OR, depth)
  {
    hide Within;
  }

  lemma MapStep(entries: seq<Entry>, ts: seq<Token>, rest: seq<Token>, depth: nat)
    requires entries == [] ==> ts == [Sym(RBrace)] + rest
    requires entries != [] ==> Peek(ts).Ident? && ParseEntries([], ts, false, depth) == Some(Parsed(entries, [Sym(RBrace)] + rest))
    ensures ParsePrimary([Sym(LBrace)] + ts, depth) == Some(Parsed(MapExpr(entries), rest))
  {
    hide ParseEntries;
    Front(Sym(LBrace), ts);
    Front(Sym(RBrace), rest);
    assert ([Sym(LBrace)] + ([Sym(RBrace)] + rest))[2..] == rest;
  }

  lemma {:induction false} ParseMap(e: Expression, depth: nat, rest: seq<Token>)
    requires e.MapExpr? && Producible(e) && WithinBare(e, depth)
    ensures ParsePrimary(Bare(e) + rest, depth) == Some(Parsed(e, rest))
    decreases e, 97
  {
    hide ParseEntries, Bare, PrintEntries, ParsePrimary, Producible, WithinBare, Within;
    var close := [Sym(RBrace)] + rest;
    MapShape(e, depth, rest);
    Front(Sym(RBrace), rest);
    if e.entries != [] {
      ParsePrintedEntries([], e.entries, false, depth, close);
      assert [] + e.entries == e.entries;
    }
    MapStep(e.entries, PrintEntries(e.entries) + close, rest, depth);
  }

  /** What stands between the parentheses of an aggregate, and the closing one. */
  function AggregateTail(e: Expression, rest: seq<Token>): seq<Token>
    requires e.Aggregate?
  {
    (if e.distinct then [Kw(KwDistinct)] else if e.arg.None? then [Sym(Star)] else [])
    + ((match e.arg case Some(a) => Print(a, OR) case None => []) + ([Sym(RParen)] + rest))
  }

  lemma AggregateShape(e: Expression, rest: seq<Token>)
    requires e.Aggregate?
    ensures Bare(e) + rest == [Kw(AggregateKeyword(e.function_))] + ([Sym(LParen)] + AggregateTail(e, rest))
  {
    hide Print;
  }

  lemma {:induction false} AggregateStep(f: AggregateFunction, ts: seq<Token>, depth: nat)
    ensures ParsePrimary([Kw(AggregateKeyword(f))] + ([Sym(LParen)] + ts), depth) == ParseAggregate(f, ts, depth)
  {
    hide ParseAggregate, ParseExpression, ParseEnclosed, ParseEntries, ParseCase, ParseCall;
    var all := [Kw(AggregateKeyword(f))] + ([Sym(LParen)] + ts);
    Front(Kw(AggregateKeyword(f)), [Sym(LParen)] + ts);
    Front(Sym(LParen), ts);
    assert all[2..] == ts;
  }

  lemma {:induction false} ParsePrintedAggregate(e: Expression, depth: nat, rest: seq<Token>)
    requires e.Aggregate? && Producible(e) && WithinBare(e, depth)
    ensures ParsePrimary(Bare(e) + rest, depth) == Some(Parsed(e, rest))
    decreases e, 97
  {
    hide *;
    AggregateShape(e, rest);
    AggregateStep(e.function_, AggregateTail(e, rest), depth);
    ParseAggregateRest(e, depth, rest);
  }

  lemma {:induction false} ParseAggregateRest(e: Expression, depth: nat, rest: seq<Token>)
    requires e.Aggregate? && Producible(e) && WithinBare(e, depth)
    ensures ParseAggregate(e.function_, AggregateTail(e, rest), depth) == Some(Parsed(e, rest))
    decreases e, 96
  {
    hide ParseExpression, Print, Bare, Within;
    var close := [Sym(RParen)] + rest;
    var arg := (match e.arg case Some(a) => Print(a, OR) case None => []) + close;
    var inner := AggregateTail(e, rest);
    Front(Sym(RParen), rest);
    match e.arg
    case Some(a) =>
      ParseWhole(a, depth, close);
      if e.distinct {
        Front(Kw(KwDistinct), arg);
      } else {
        assert inner == arg;
      }
    case None =>
      assert arg == close;
      if e.distinct {
        Front(Kw(KwDistinct), close);
      } else {
        Front(Sym(Star), close);
        assert ([Sym(Star)] + close)[2..] == rest;
      }
  }

  function PrintElse(otherwise: Option<Expression>): seq<Token> {
    match otherwise case Some(o) => [Kw(KwElse)] + Print(o, OR) case None => []
  }

  lemma {:induction false} ParseElse(subject: Option<Expression>, arms: seq<Arm>, otherwise: Option<Expression>,
                                     ts: seq<Token>,
                                     depth: nat, rest: seq<Token>)
    requires otherwise.Some? ==> Producible(otherwise.value) && Within(otherwise.value, OR, depth)
    requires ParseArms([], ts, depth) == Some(Parsed(arms, PrintElse(otherwise) + ([Kw(KwEnd)] + rest)))
    ensures ParseBranches(subject, ts, depth) == Some(Parsed(Case(subject, arms, otherwise), rest))
    decreases otherwise, 103
  {
    var end := [Kw(KwEnd)] + rest;
    Front(Kw(KwEnd), rest);
    hide ParseExpression, Print, ParseArms;
    match otherwise
    case Some(o) =>
      assert PrintElse(otherwise) + end == [Kw(KwElse)] + (Print(o, OR) + end);
      Front(Kw(KwElse), Print(o, OR) + end);
      ParseWhole(o, depth, end);
    case None => assert PrintElse(otherwise) + end == end;
  }

  function PrintSubject(subject: Option<Expression>): seq<Token> {
    match subject case Some(s) => Print(s, OR) case None => []
  }

  lemma CaseShape(e: Expression, depth: nat, rest: seq<Token>)
    requires e.Case? && Producible(e) && WithinBare(e, depth)
    ensures Bare(e) + rest ==
              [Kw(KwCase)] + (PrintSubject(e.subject) + (PrintArms(e.arms) + (PrintElse(e.otherwise) + ([Kw(KwEnd)] + rest))))
    ensures e.subject.None? ==> e.arms != []
    ensures e.subject.Some? ==> Producible(e.subject.value) && Within(e.subject.value, OR, depth)
    ensures e.otherwise.Some? ==> Producible(e.otherwise.value) && Within(e.otherwise.value, OR, depth)
    ensures forall i :: 0 <= i < |e.arms| ==> Producible(e.arms[i].condition) && Within(e.arms[i].condition, OR, depth)
    ensures forall i :: 0 <= i < |e.arms| ==> Producible(e.arms[i].result) && Within(e.arms[i].result, OR, depth)
  {
    hide Print, PrintArms, Within;
  }

  lemma ElseOpens(otherwise: Option<Expression>, rest: seq<Token>)
    ensures var ts := PrintElse(otherwise) + ([Kw(KwEnd)] + rest);
            Peek(ts) == Kw(KwElse) || Peek(ts) == Kw(KwEnd)
  {
    hide Print;
  }

  lemma CaseStep(ts: seq<Token>, depth: nat)
    ensures ParsePrimary([Kw(KwCase)] + ts, depth) == ParseCase(ts, depth)
  {
    hide ParseCase;
    Front(Kw(KwCase), ts);
  }

  lemma SubjectStep(subject: Expression, ts: seq<Token>, more: seq<Token>, depth: nat)
    requires ParseExpression(ts, depth) == Some(Parsed(subject, more)) && Opens(Peek(ts), OR)
    ensures ParseCase(ts, depth) == ParseBranches(Some(subject), more, depth)
  {
    hide ParseExpression, ParseBranches;
  }

  lemma NoSubjectStep(ts: seq<Token>, depth: nat)
    requires Peek(ts) == Kw(KwWhen)
    ensures ParseCase(ts, depth) == ParseBranches(None, ts, depth)
  {
    hide ParseBranches;
  }

  lemma {:induction false} ParsePrintedCase(e: Expression, depth: nat, rest: seq<Token>)
    requires e.Case? && Producible(e) && WithinBare(e, depth)
    ensures ParsePrimary(Bare(e) + rest, depth) == Some(Parsed(e, rest))
    decreases e, 97
  {
    hide *;
    var tail := PrintElse(e.otherwise) + ([Kw(KwEnd)] + rest);
    var arms := PrintArms(e.arms) + tail;
    CaseShape(e, depth, rest);
    ElseOpens(e.otherwise, rest);
    ParsePrintedArms([], e.arms, depth, tail);
    assert [] + e.arms == e.arms;
    ParseElse(e.subject, e.arms, e.otherwise, arms, depth, rest);
    CaseStep(PrintSubject(e.subject) + arms, depth);
    SubjectIs(e.subject, arms);
    match e.subject
    case Some(s) =>
      ParseWhole(s, depth, arms);
      SubjectStep(s, Print(s, OR) + arms, arms, depth);
    case None => NoSubjectStep(arms, depth);
  }

  lemma SubjectIs(subject: Option<Expression>, arms: seq<Token>)
    ensures PrintSubject(subject) + arms == match subject case Some(s) => Print(s, OR) + arms case None => arms
  {
    hide Print;
  }

  /**
   Parsing inverts printing: for every expression the grammar can produce whose
   printed form stays within the depth limit, followed by a token that cannot
   continue an expression, the parser returns that very expression and consumes
   exactly its tokens.
   */
  lemma ParseInvertsPrint(e: Expression, depth: nat, rest: seq<Token>)
    requires Producible(e) && Within(e, OR, depth) && !Continues(OR, Peek(rest))
    ensures ParseExpression(Print(e, OR) + rest, depth) == Some(Parsed(e, rest))
  {
    hide *;
    ParseWhole(e, depth, rest);
  }

  /** A chain with a second comparison operator is rejected. */
  lemma ChainedComparisonRejected(a: Expression, op: BinaryOp, b: Expression, op': BinaryOp, depth: nat, rest: seq<Token>)
    requires BinaryLevel(op) == COMPARISON && BinaryLevel(op') == COMPARISON && Level(a) > COMPARISON
    requires Producible(a) && WithinBare(a, depth) && Producible(b) && Within(b, CONCAT, depth)
    ensures ParseAt(COMPARISON, Bare(a) + ([OperatorToken(op)] + (Print(b, CONCAT) + ([OperatorToken(op')] + rest))), depth) == None
  {
    hide ParseAt, CompareRest, FoldRest, Bare, WithinBare, Producible, Print, Within, Compared;
    var second := [OperatorToken(op')] + rest;
    var right := Print(b, CONCAT) + second;
    NotCompared(a);
    NotBetween(a, depth);
    CompareStep(a, op, right, depth);
    Front(OperatorToken(op), right);
    ParseLeft(a, depth, [OperatorToken(op)] + right);
    CompareStep(b, op', rest, depth);
    Front(OperatorToken(op'), rest);
    LowerContinues(CONCAT, OperatorToken(op'));
    ParsePrinted(b, CONCAT, depth, second);
    Stops(CONCAT, b, second, depth);
    SecondRejected(Expression.Binary(a, op, b), op', rest, depth);
  }

  lemma NotBetween(a: Expression, depth: nat)
    requires Level(a) > COMPARISON && WithinBare(a, depth)
    ensures WithinCompared(a, depth) && PrintCompared(a) == Bare(a)
  {
    NotCompared(a);
    hide WithinBare, Bare;
  }

  lemma SecondRejected(left: Expression, op: BinaryOp, ts: seq<Token>, depth: nat)
    requires BinaryLevel(op) == COMPARISON
    ensures CompareRest(left, [OperatorToken(op)] + ts, true, depth) == None
  {
    Front(OperatorToken(op), ts);
    hide ParseAt;
  }

  function Nots(n: nat): seq<Token> {
    if n == 0 then [] else [Kw(KwNot)] + Nots(n - 1)
  }

  /** Prefix operators nested beyond the limit are rejected, whatever they are applied to. */
  lemma {:induction false} DeepNotRejected(n: nat, ts: seq<Token>, depth: nat)
    requires depth <= MAX_DEPTH < depth + n
    ensures ParseAt(NOT, Nots(n) + ts, depth) == None
  {
    assert Nots(n) + ts == [Kw(KwNot)] + (Nots(n - 1) + ts);
    Front(Kw(KwNot), Nots(n - 1) + ts);
    if depth < MAX_DEPTH {
      DeepNotRejected(n - 1, ts, depth + 1);
    }
  }
}
