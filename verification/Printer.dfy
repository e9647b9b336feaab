/**
 A precedence-aware printer of expressions, with parentheses only where the
 ladder needs them.
 */
module Printer {
  import opened Bytes
  import opened Wrappers
  import opened Values
  import opened Syntax
  import opened Grammar

  function BinaryLevel(op: BinaryOp): nat {
    match op
    case Or => OR
    case Xor => XOR
    case And => AND
    case Concat => CONCAT
    case Add => ADDITION
    case Sub => ADDITION
    case Mul => MULTIPLICATION
    case Div => MULTIPLICATION
    case Mod => MULTIPLICATION
    case _ => COMPARISON
  }

  function OperatorToken(op: BinaryOp): Token {
    match op
    case Or => Kw(KwOr)
    case Xor => Kw(KwXor)
    case And => Kw(KwAnd)
    case Concat => Sym(DoublePipe)
    case Add => Sym(Plus)
    case Sub => Sym(Minus)
    case Mul => Sym(Star)
    case Div => Sym(Slash)
    case Mod => Sym(Percent)
    case Eq => Sym(Equals)
    case Neq => Sym(NotEquals)
    case Lt => Sym(LessThan)
    case Gt => Sym(GreaterThan)
    case Le => Sym(LessEquals)
    case Ge => Sym(GreaterEquals)
  }

  /** The level of the ladder that builds the expression. */
  function Level(e: Expression): (level: nat)
    ensures level <= PRIMARY
  {
    match e
    case Binary(_, op, _) => BinaryLevel(op)
    case Unary(op, _) => if op == Not then NOT else UNARY
    case IsNull(_) => COMPARISON
    case IsNotNull(_) => COMPARISON
    case In(_, _) => COMPARISON
    case Like(_, _) => COMPARISON
    case PropertyAccess(_, _) => POSTFIX
    case _ => PRIMARY
  }

  /** Its chain of comparisons, printed without parentheses, has a comparison operator. */
  predicate Compared(e: Expression)
    decreases e
  {
    match e
    case Binary(_, op, _) => BinaryLevel(op) == COMPARISON
    case IsNull(o) => Compared(o)
    case IsNotNull(o) => Compared(o)
    case In(o, _) => Compared(o)
    case Like(o, _) => Compared(o)
    case _ => false
  }

  function AggregateKeyword(f: AggregateFunction): Keyword {
    match f
    case Count => KwCount
    case Sum => KwSum
    case Avg => KwAvg
    case Min => KwMin
    case Max => KwMax
    case Collect => KwCollect
  }

  function LiteralToken(lit: Literal): Token {
    match lit
    case LitInteger(i) => IntegerLit(i)
    case LitFloat(f) => FloatLit(f)
    case LitString(s) => StringLit(s)
    case LitBool(b) => if b then Kw(KwTrue) else Kw(KwFalse)
    case _ => Kw(KwNull)
  }

  /** As an operand where the ladder is at `level`. */
  function Print(e: Expression, level: nat): seq<Token>
    decreases e, 1
  {
    if Level(e) < level then [Sym(LParen)] + Bare(e) + [Sym(RParen)] else Bare(e)
  }

  /** As the left operand of a comparison operator, which may follow no other one. */
  function PrintCompared(e: Expression): seq<Token>
    decreases e, 1
  {
    if Level(e) < COMPARISON || Compared(e) then [Sym(LParen)] + Bare(e) + [Sym(RParen)] else Bare(e)
  }

  function Bare(e: Expression): seq<Token>
    decreases e, 0
  {
    match e
    case Lit(lit) => [LiteralToken(lit)]
    case Identifier(name) => [Ident(name)]
    case Parameter(name) => [Param(name)]
    case PropertyAccess(t, p) => Print(t, POSTFIX) + [Sym(Dot), Ident(p)]
    case FunctionCall(name, args) => [Ident(name), Sym(LParen)] + PrintItems(args) + [Sym(RParen)]
    case Binary(l, op, r) =>
      (if BinaryLevel(op) == COMPARISON then PrintCompared(l) else Print(l, BinaryLevel(op)))
      + [OperatorToken(op)] + Print(r, BinaryLevel(op) + 1)
    case Unary(op, o) =>
      (match op
       case Not => [Kw(KwNot)] + Print(o, NOT)
       case Neg => [Sym(Minus)] + Print(o, UNARY)
       case Pos => [Sym(Plus)] + Print(o, UNARY))
    case IsNull(o) => Print(o, COMPARISON) + [Kw(KwIs), Kw(KwNull)]
    case IsNotNull(o) => Print(o, COMPARISON) + [Kw(KwIs), Kw(KwNot), Kw(KwNull)]
    case In(o, l) => Print(o, COMPARISON) + [Kw(KwIn)] + Print(l, CONCAT)
    case Like(o, p) => Print(o, COMPARISON) + [Kw(KwLike)] + Print(p, CONCAT)
    case Case(subject, arms, otherwise) =>
      [Kw(KwCase)] + (match subject case Some(s) => Print(s, OR) case None => []) + PrintArms(arms)
      + (match otherwise case Some(o) => [Kw(KwElse)] + Print(o, OR) case None => []) + [Kw(KwEnd)]
    case Aggregate(f, distinct, arg) =>
      [Kw(AggregateKeyword(f)), Sym(LParen)]
      + (if distinct then [Kw(KwDistinct)] else if arg.None? then [Sym(Star)] else [])
      + (match arg case Some(a) => Print(a, OR) case None => []) + [Sym(RParen)]
    case ListExpr(items) => [Sym(LBracket)] + PrintItems(items) + [Sym(RBracket)]
    case MapExpr(entries) => [Sym(LBrace)] + PrintEntries(entries) + [Sym(RBrace)]
    case Exists(_) => []
  }

  function PrintItems(es: seq<Expression>): seq<Token>
    decreases es
  {
    if es == [] then []
    else Print(es[0], OR) + (if |es| == 1 then [] else [Sym(Comma)] + PrintItems(es[1..]))
  }

  function PrintEntries(entries: seq<Entry>): seq<Token>
    decreases entries
  {
    if entries == [] then []
    else
      [Ident(entries[0].key), Sym(Colon)] + Print(entries[0].value, OR)
      + (if |entries| == 1 then [] else [Sym(Comma)] + PrintEntries(entries[1..]))
  }

  function PrintArms(arms: seq<Arm>): seq<Token>
    decreases arms
  {
    if arms == [] then [] else PrintArm(arms[0]) + PrintArms(arms[1..])
  }

  function PrintArm(arm: Arm): seq<Token>
    decreases arm
  {
    [Kw(KwWhen)] + Print(arm.condition, OR) + [Kw(KwThen)] + Print(arm.result, OR)
  }
}
