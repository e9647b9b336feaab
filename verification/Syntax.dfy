/** GQL tokens and expressions. */
module Syntax {
  import opened Bytes
  import opened Wrappers
  import opened Values

  datatype Keyword =
    | KwMatch | KwWhere | KwReturn | KwCreate | KwInsert | KwDelete | KwSet | KwRemove | KwDrop | KwGraph | KwType
    | KwNode | KwEdge | KwTrue | KwFalse | KwNull | KwNot | KwAnd | KwOr | KwXor | KwIs | KwIn | KwLike | KwAs | KwBy
    | KwOrder | KwAsc | KwDesc | KwLimit | KwOffset | KwGroup | KwHaving | KwWith | KwLet | KwFor | KwFilter | KwCall
    | KwYield | KwOptional | KwMandatory | KwExists | KwCase | KwWhen | KwThen | KwElse | KwEnd | KwUnion | KwIntersect
    | KwExcept | KwAll | KwDistinct | KwCount | KwSum | KwAvg | KwMin | KwMax | KwCollect | KwWalk | KwTrail | KwSimple
    | KwAcyclic | KwShortest | KwPath | KwAny | KwCommit | KwRollback | KwBegin | KwIf | KwDetach | KwNodetach | KwCost
    | KwOf | KwTo | KwFrom | KwIndex | KwUnique | KwOn | KwList

  datatype Symbol =
    | Plus | Minus | Star | Slash | Percent | Equals | NotEquals | LessThan | GreaterThan | LessEquals | GreaterEquals
    | DoublePipe | Dot | DoubleDot | Arrow | LeftArrow | Tilde | LParen | RParen | LBracket | RBracket | LBrace | RBrace
    | Comma | Colon | Semicolon | At

  datatype Token =
    | Kw(kw: Keyword)
    | Sym(sym: Symbol)
    | IntegerLit(n: i64)
    | FloatLit(bits: u64)
    | StringLit(s: string)
    | BoolLit(b: bool)
    | NullLit
    | Ident(name: string)
    | Param(name: string)
    | Eof
    | Comment(text: string)

  datatype BinaryOp = Add | Sub | Mul | Div | Mod | And | Or | Xor | Concat | Eq | Neq | Lt | Gt | Le | Ge

  datatype UnaryOp = Not | Neg | Pos

  datatype AggregateFunction = Count | Sum | Avg | Min | Max | Collect

  datatype Literal =
    | LitInteger(i: i64)
    | LitFloat(bits: u64)
    | LitString(s: string)
    | LitBool(b: bool)
    | LitNull
    | LitTemporal(text: string)
    | LitList(items: seq<Literal>)
    | LitMap(entries: seq<LiteralEntry>)

  datatype LiteralEntry = LiteralEntry(key: string, value: Literal)

  /** A statement inside `EXISTS { }`, known by the tokens it was parsed from. */
  datatype Statement = Statement(tokens: seq<Token>)

  datatype Expression =
    | Lit(lit: Literal)
    | Identifier(name: string)
    | PropertyAccess(target: Expression, property: string)
    | FunctionCall(name: string, args: seq<Expression>)
    | Binary(left: Expression, op: BinaryOp, right: Expression)
    | Unary(uop: UnaryOp, operand: Expression)
    | Case(subject: Option<Expression>, arms: seq<Arm>, otherwise: Option<Expression>)
    | Exists(subquery: Statement)
    | Aggregate(function_: AggregateFunction, distinct: bool, arg: Option<Expression>)
    | ListExpr(items: seq<Expression>)
    | MapExpr(entries: seq<Entry>)
    | Parameter(name: string)
    | IsNull(inner: Expression)
    | IsNotNull(inner: Expression)
    | In(operand: Expression, list: Expression)
    | Like(operand: Expression, pattern: Expression)

  /** `WHEN condition THEN result`. */
  datatype Arm = Arm(condition: Expression, result: Expression)

  datatype Entry = Entry(key: string, value: Expression)
}
