/**
 What the expression parser computes, as functions on the remaining tokens: a
 ladder of precedence levels, loops that fold to the left, one comparison per
 chain, and a depth limit on parentheses and prefix operators.
 */
module Grammar {
  import opened Bytes
  import opened Wrappers
  import opened Values
  import opened Syntax

  const MAX_DEPTH: nat := 256

  // The levels of the ladder.
  const OR: nat := 0
  const XOR: nat := 1
  const AND: nat := 2
  const NOT: nat := 3
  const COMPARISON: nat := 4
  const CONCAT: nat := 5
  const ADDITION: nat := 6
  const MULTIPLICATION: nat := 7
  const UNARY: nat := 8
  const POSTFIX: nat := 9
  const PRIMARY: nat := 10

  /** A construct and the tokens after it. */
  datatype Parsed<T> = Parsed(value: T, rest: seq<Token>)

  type Parse<T> = Option<Parsed<T>>

  /** Past the end there is only Eof. */
  function Peek(ts: seq<Token>): Token {
    if ts == [] then Eof else ts[0]
  }

  /** The operator of a left-folded level, if the token is one. */
  function Operator(level: nat, t: Token): Option<BinaryOp> {
    match t
    case Kw(KwOr) => if level == OR then Some(Or) else None
    case Kw(KwXor) => if level == XOR then Some(Xor) else None
    case Kw(KwAnd) => if level == AND then Some(And) else None
    case Sym(DoublePipe) => if level == CONCAT then Some(Concat) else None
    case Sym(Plus) => if level == ADDITION then Some(Add) else None
    case Sym(Minus) => if level == ADDITION then Some(Sub) else None
    case Sym(Star) => if level == MULTIPLICATION then Some(Mul) else None
    case Sym(Slash) => if level == MULTIPLICATION then Some(Div) else None
    case Sym(Percent) => if level == MULTIPLICATION then Some(Mod) else None
    case _ => None
  }

  function ComparisonOperator(t: Token): Option<BinaryOp> {
    match t
    case Sym(Equals) => Some(Eq)
    case Sym(NotEquals) => Some(Neq)
    case Sym(LessThan) => Some(Lt)
    case Sym(GreaterThan) => Some(Gt)
    case Sym(LessEquals) => Some(Le)
    case Sym(GreaterEquals) => Some(Ge)
    case _ => None
  }

  function PrefixOperator(t: Token): Option<UnaryOp> {
    match t
    case Sym(Minus) => Some(Neg)
    case Sym(Plus) => Some(Pos)
    case _ => None
  }

  /** A property name: an identifier or one of the keywords allowed there, in lower case. */
  function NameOf(t: Token): Option<string> {
    match t
    case Ident(name) => Some(name)
    case Kw(k) => KeywordName(k)
    case _ => None
  }

  function KeywordName(k: Keyword): Option<string> {
    match k
    case KwMatch => Some("match") case KwReturn => Some("return") case KwWhere => Some("where")
    case KwInsert => Some("insert") case KwCreate => Some("create") case KwSet => Some("set")
    case KwDelete => Some("delete") case KwDetach => Some("detach") case KwRemove => Some("remove")
    case KwDrop => Some("drop") case KwWith => Some("with") case KwOrder => Some("order") case KwBy => Some("by")
    case KwLimit => Some("limit") case KwOffset => Some("offset") case KwAsc => Some("asc") case KwDesc => Some("desc")
    case KwDistinct => Some("distinct") case KwAs => Some("as") case KwAnd => Some("and") case KwOr => Some("or")
    case KwNot => Some("not") case KwXor => Some("xor") case KwIs => Some("is") case KwNull => Some("null")
    case KwTrue => Some("true") case KwFalse => Some("false") case KwIn => Some("in") case KwExists => Some("exists")
    case KwCase => Some("case") case KwWhen => Some("when") case KwThen => Some("then") case KwElse => Some("else")
    case KwEnd => Some("end") case KwUnion => Some("union") case KwAll => Some("all") case KwOptional => Some("optional")
    case KwCall => Some("call") case KwYield => Some("yield") case KwLike => Some("like") case KwNode => Some("node")
    case KwEdge => Some("edge") case KwGraph => Some("graph") case KwType => Some("type") case KwGroup => Some("group")
    case KwHaving => Some("having") case KwLet => Some("let") case KwFor => Some("for") case KwFilter => Some("filter")
    case KwCount => Some("count") case KwSum => Some("sum") case KwAvg => Some("avg") case KwMin => Some("min")
    case KwMax => Some("max") case KwCollect => Some("collect") case KwPath => Some("path") case KwCost => Some("cost")
    case KwFrom => Some("from") case KwTo => Some("to")
    case _ => None
  }

  function AggregateOf(t: Token): Option<AggregateFunction> {
    match t
    case Kw(KwCount) => Some(Count)
    case Kw(KwSum) => Some(Sum)
    case Kw(KwAvg) => Some(Avg)
    case Kw(KwMin) => Some(Min)
    case Kw(KwMax) => Some(Max)
    case Kw(KwCollect) => Some(Collect)
    case _ => None
  }

  /** The literal or parameter a single token is. */
  function AtomOf(t: Token): Option<Expression> {
    match t
    case IntegerLit(n) => Some(Lit(LitInteger(n)))
    case FloatLit(f) => Some(Lit(LitFloat(f)))
    case StringLit(s) => Some(Lit(LitString(s)))
    case Kw(KwTrue) => Some(Lit(LitBool(true)))
    case Kw(KwFalse) => Some(Lit(LitBool(false)))
    case BoolLit(b) => Some(Lit(LitBool(b)))
    case Kw(KwNull) => Some(Lit(LitNull))
    case NullLit => Some(Lit(LitNull))
    case Param(name) => Some(Expression.Parameter(name))
    case Sym(Star) => Some(Identifier("*"))
    case _ => None
  }

  predicate Folded(level: nat) {
    level == OR || level == XOR || level == AND || level == CONCAT || level == ADDITION || level == MULTIPLICATION
  }

  // ----- the ladder -----

  function ParseExpression(ts: seq<Token>, depth: nat): (r: Parse<Expression>)
    ensures r.Some? ==> |r.value.rest| < |ts|
    decreases |ts|, 30
  {
    ParseAt(OR, ts, depth)
  }

  function ParseAt(level: nat, ts: seq<Token>, depth: nat): (r: Parse<Expression>)
    requires level <= PRIMARY
    ensures r.Some? ==> |r.value.rest| < |ts|
    decreases |ts|, 20 - level
  {
    if Folded(level) then
      var left :- ParseAt(level + 1, ts, depth);
      FoldRest(level, left.value, left.rest, depth)
    else if level == NOT then
      if Peek(ts) == Kw(KwNot) then
        if depth + 1 > MAX_DEPTH then None
        else
          var operand :- ParseAt(NOT, ts[1..], depth + 1);
          Some(Parsed(Unary(Not, operand.value), operand.rest))
      else ParseAt(COMPARISON, ts, depth)
    else if level == COMPARISON then
      var left :- ParseAt(CONCAT, ts, depth);
      CompareRest(left.value, left.rest, false, depth)
    else if level == UNARY then
      match PrefixOperator(Peek(ts))
      case Some(op) =>
        if depth + 1 > MAX_DEPTH then None
        else
          var operand :- ParseAt(UNARY, ts[1..], depth + 1);
          Some(Parsed(Unary(op, operand.value), operand.rest))
      case None => ParseAt(POSTFIX, ts, depth)
    else if level == POSTFIX then
      var primary :- ParseAt(PRIMARY, ts, depth);
      PostfixRest(primary.value, primary.rest)
    else ParsePrimary(ts, depth)
  }

  /** The loop of a left-folded level. */
  function FoldRest(level: nat, left: Expression, ts: seq<Token>, depth: nat): (r: Parse<Expression>)
    requires Folded(level)
    ensures r.Some? ==> |r.value.rest| <= |ts|
    decreases |ts|, 0
  {
    match Operator(level, Peek(ts))
    case None => Some(Parsed(left, ts))
    case Some(op) =>
      var right :- ParseAt(level + 1, ts[1..], depth);
      FoldRest(level, Expression.Binary(left, op, right.value), right.rest, depth)
  }

  /** The comparison loop: a second comparison operator in one chain is an error. */
  function CompareRest(left: Expression, ts: seq<Token>, compared: bool, depth: nat): (r: Parse<Expression>)
    ensures r.Some? ==> |r.value.rest| <= |ts|
    decreases |ts|, 0
  {
    match ComparisonOperator(Peek(ts))
    case Some(op) =>
      if compared then None
      else
        var right :- ParseAt(CONCAT, ts[1..], depth);
        CompareRest(Expression.Binary(left, op, right.value), right.rest, true, depth)
    case None =>
      match Peek(ts)
      case Kw(KwIs) =>
        if Peek(ts[1..]) == Kw(KwNot) then
          if Peek(ts[2..]) == Kw(KwNull) then CompareRest(IsNotNull(left), ts[3..], compared, depth) else None
        else if Peek(ts[1..]) == Kw(KwNull) then CompareRest(IsNull(left), ts[2..], compared, depth)
        else None
      case Kw(KwIn) =>
        var list :- ParseAt(CONCAT, ts[1..], depth);
        CompareRest(In(left, list.value), list.rest, compared, depth)
      case Kw(KwLike) =>
        var pattern :- ParseAt(CONCAT, ts[1..], depth);
        CompareRest(Like(left, pattern.value), pattern.rest, compared, depth)
      case _ => Some(Parsed(left, ts))
  }

  function PostfixRest(e: Expression, ts: seq<Token>): (r: Parse<Expression>)
    ensures r.Some? ==> |r.value.rest| <= |ts|
    decreases |ts|, 0
  {
    if Peek(ts) != Sym(Dot) then Some(Parsed(e, ts))
    else
      match NameOf(Peek(ts[1..]))
      case Some(name) => PostfixRest(PropertyAccess(e, name), ts[2..])
      case None => None
  }

  function ParsePrimary(ts: seq<Token>, depth: nat): (r: Parse<Expression>)
    ensures r.Some? ==> |r.value.rest| < |ts|
    decreases |ts|, 5
  {
    var t := Peek(ts);
    if AtomOf(t).Some? then Some(Parsed(AtomOf(t).value, ts[1..]))
    else if AggregateOf(t).Some? then
      if Peek(ts[1..]) == Sym(LParen) then ParseAggregate(AggregateOf(t).value, ts[2..], depth)
      else Some(Parsed(Identifier(NameOf(t).value), ts[1..]))
    else
      match t
      case Sym(LParen) =>
        if depth + 1 > MAX_DEPTH then None
        else
          var inner :- ParseExpression(ts[1..], depth + 1);
          if Peek(inner.rest) == Sym(RParen) then Some(Parsed(inner.value, inner.rest[1..])) else None
      case Sym(LBracket) =>
        var items :- ParseEnclosed(ts[1..], Sym(RBracket), depth);
        Some(Parsed(ListExpr(items.value), items.rest))
      case Sym(LBrace) =>
        if Peek(ts[1..]) == Sym(RBrace) then Some(Parsed(MapExpr([]), ts[2..]))
        else
          var entries :- ParseEntries([], ts[1..], false, depth);
          if Peek(entries.rest) == Sym(RBrace) then Some(Parsed(MapExpr(entries.value), entries.rest[1..])) else None
      case Kw(KwCase) => ParseCase(ts[1..], depth)
      case Kw(KwType) => ParseCall("type", ts[1..], depth)
      case Ident(name) => ParseCall(name, ts[1..], depth)
      case _ => None
  }

  /** An identifier, or a function call if an argument list follows. */
  function ParseCall(name: string, ts: seq<Token>, depth: nat): (r: Parse<Expression>)
    ensures r.Some? ==> |r.value.rest| <= |ts|
    decreases |ts|, 4
  {
    if Peek(ts) != Sym(LParen) then Some(Parsed(Identifier(name), ts))
    else
      var args :- ParseEnclosed(ts[1..], Sym(RParen), depth);
      Some(Parsed(FunctionCall(name, args.value), args.rest))
  }

  /** After the parenthesis of an aggregate. */
  function ParseAggregate(f: AggregateFunction, ts: seq<Token>, depth: nat): (r: Parse<Expression>)
    ensures r.Some? ==> |r.value.rest| < |ts|
    decreases |ts|, 40
  {
    if Peek(ts) == Sym(Star) then
      if Peek(ts[1..]) == Sym(RParen) then Some(Parsed(Aggregate(f, false, None), ts[2..])) else None
    else
      var distinct := Peek(ts) == Kw(KwDistinct);
      var ts' := if distinct then ts[1..] else ts;
      if Peek(ts') == Sym(RParen) then Some(Parsed(Aggregate(f, distinct, None), ts'[1..]))
      else
        var arg :- ParseExpression(ts', depth);
        if Peek(arg.rest) == Sym(RParen) then Some(Parsed(Aggregate(f, distinct, Some(arg.value)), arg.rest[1..])) else None
  }

  /** After CASE. */
  function ParseCase(ts: seq<Token>, depth: nat): (r: Parse<Expression>)
    ensures r.Some? ==> |r.value.rest| < |ts|
    decreases |ts|, 40
  {
    if Peek(ts) == Kw(KwWhen) then ParseBranches(None, ts, depth)
    else
      var subject :- ParseExpression(ts, depth);
      ParseBranches(Some(subject.value), subject.rest, depth)
  }

  function ParseBranches(subject: Option<Expression>, ts: seq<Token>, depth: nat): (r: Parse<Expression>)
    ensures r.Some? ==> |r.value.rest| < |ts|
    decreases |ts|, 35
  {
    var arms :- ParseArms([], ts, depth);
    if Peek(arms.rest) == Kw(KwElse) then
      var otherwise :- ParseExpression(arms.rest[1..], depth);
      if Peek(otherwise.rest) == Kw(KwEnd) then
        Some(Parsed(Case(subject, arms.value, Some(otherwise.value)), otherwise.rest[1..]))
      else None
    else if Peek(arms.rest) == Kw(KwEnd) then Some(Parsed(Case(subject, arms.value, None), arms.rest[1..]))
    else None
  }

  function ParseArms(arms: seq<Arm>, ts: seq<Token>, depth: nat): (r: Parse<seq<Arm>>)
    ensures r.Some? ==> |r.value.rest| <= |ts|
    decreases |ts|, 33
  {
    if Peek(ts) != Kw(KwWhen) then Some(Parsed(arms, ts))
    else
      var condition :- ParseExpression(ts[1..], depth);
      if Peek(condition.rest) != Kw(KwThen) then None
      else
        var result :- ParseExpression(condition.rest[1..], depth);
        ParseArms(arms + [Arm(condition.value, result.value)], result.rest, depth)
  }

  /** Expressions separated by commas up to a closing token, which is consumed. */
  function ParseEnclosed(ts: seq<Token>, close: Token, depth: nat): (r: Parse<seq<Expression>>)
    requires close == Sym(RBracket) || close == Sym(RParen)
    ensures r.Some? ==> |r.value.rest| < |ts|
    decreases |ts|, 40
  {
    if Peek(ts) == close then Some(Parsed([], ts[1..]))
    else
      var items :- ParseItems([], ts, depth);
      if Peek(items.rest) == close then Some(Parsed(items.value, items.rest[1..])) else None
  }

  function ParseItems(items: seq<Expression>, ts: seq<Token>, depth: nat): (r: Parse<seq<Expression>>)
    ensures r.Some? ==> |r.value.rest| < |ts|
    decreases |ts|, 35
  {
    var item :- ParseExpression(ts, depth);
    if Peek(item.rest) == Sym(Comma) then ParseItems(items + [item.value], item.rest[1..], depth)
    else Some(Parsed(items + [item.value], item.rest))
  }

  /** `key: value` entries separated by commas; pattern property maps also allow keywords as keys. */
  function ParseEntries(entries: seq<Entry>, ts: seq<Token>, keywords: bool, depth: nat): (r: Parse<seq<Entry>>)
    ensures r.Some? ==> |r.value.rest| < |ts|
    decreases |ts|, 35
  {
    var key :- if keywords then NameOf(Peek(ts)) else if Peek(ts).Ident? then Some(Peek(ts).name) else None;
    if Peek(ts[1..]) != Sym(Colon) then None
    else
      var value :- ParseExpression(ts[2..], depth);
      if Peek(value.rest) == Sym(Comma) then ParseEntries(entries + [Entry(key, value.value)], value.rest[1..], keywords, depth)
      else Some(Parsed(entries + [Entry(key, value.value)], value.rest))
  }

  /** `parse_property_map`. */
  function ParsePropertyMap(ts: seq<Token>, depth: nat): (r: Parse<seq<Entry>>)
    ensures r.Some? ==> |r.value.rest| < |ts|
  {
    if Peek(ts) != Sym(LBrace) then None
    else if Peek(ts[1..]) == Sym(RBrace) then Some(Parsed([], ts[2..]))
    else
      var entries :- ParseEntries([], ts[1..], true, depth);
      if Peek(entries.rest) == Sym(RBrace) then Some(Parsed(entries.value, entries.rest[1..])) else None
  }
}
