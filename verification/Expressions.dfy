/** Rows, and the evaluation of an expression against a row: three-valued, short-circuiting, with errors. */
module Expressions {
  import opened Bytes
  import opened Wrappers
  import opened Values
  import opened Syntax

  /** A row: column names and as many values. */
  datatype Record = Record(columns: seq<string>, values: seq<Value>)

  predicate RecordOk(r: Record) {
    |r.columns| == |r.values|
  }

  /** The position of the first column with the name. */
  function Position(columns: seq<string>, name: string): (p: Option<nat>)
    ensures p.Some? ==> p.value < |columns| && columns[p.value] == name && forall i :: 0 <= i < p.value ==> columns[i] != name
    ensures p.None? ==> name !in columns
  {
    if columns == [] then None
    else if columns[0] == name then Some(0)
    else
      match Position(columns[1..], name)
      case None => None
      case Some(p) => Some(p + 1)
  }

  function Get(r: Record, name: string): Option<Value>
    requires RecordOk(r)
  {
    match Position(r.columns, name)
    case None => None
    case Some(p) => Some(r.values[p])
  }

  /** Rows under one list of columns. */
  datatype ResultSet = ResultSet(columns: seq<string>, rows: seq<seq<Value>>)

  ghost predicate RowsOk(rs: ResultSet) {
    forall i :: 0 <= i < |rs.rows| ==> |rs.rows[i]| == |rs.columns|
  }

  function RowOf(rs: ResultSet, i: nat): (r: Record)
    requires RowsOk(rs) && i < |rs.rows|
    ensures RecordOk(r)
  {
    Record(rs.columns, rs.rows[i])
  }

  datatype EvalError = UnknownIdentifier | TypeError | ExpressionError | NotImplemented

  type Eval = Result<Value, EvalError>

  /** What this model does not compute: built-in functions and floating-point arithmetic. */
  datatype Runtime = Runtime(
    call: (string, seq<Value>) -> Eval,
    floatOp: (BinaryOp, u64, u64) -> u64,
    toFloat: i64 -> u64)

  function EvalLiteral(lit: Literal): Eval {
    match lit
    case LitInteger(i) => Success(Integer(i))
    case LitFloat(f) => Success(Float(f))
    case LitString(s) => Success(Str(s))
    case LitBool(b) => Success(Bool(b))
    case LitNull => Success(Null)
    case LitTemporal(_) => Failure(NotImplemented)
    case LitList(items) =>
      var vs :- EvalLiterals(items);
      Success(List(vs))
    case LitMap(entries) =>
      var m :- EvalLiteralMap(entries);
      Success(Map(m))
  }

  function EvalLiterals(items: seq<Literal>): Result<seq<Value>, EvalError> {
    if items == [] then Success([])
    else
      var v :- EvalLiteral(items[0]);
      var rest :- EvalLiterals(items[1..]);
      Success([v] + rest)
  }

  /** Later entries with a key replace earlier ones. */
  function EvalLiteralMap(entries: seq<LiteralEntry>): Result<Props, EvalError> {
    if entries == [] then Success(map[])
    else
      var n := |entries| - 1;
      var m :- EvalLiteralMap(entries[..n]);
      var v :- EvalLiteral(entries[n].value);
      Success(m[entries[n].key := v])
  }

  // ----- operators -----

  predicate IsFloatZero(v: Value) {
    v.Float? && IsZero(v.bits)
  }

  /** The code's `/` and `%` truncate toward zero. */
  function TruncDiv(a: int, b: int): int
    requires b != 0
  {
    var q := (if a < 0 then -a else a) / (if b < 0 then -b else b);
    if (a < 0) == (b < 0) then q else -q
  }

  function IntegerOp(op: BinaryOp, a: i64, b: i64): int {
    match op
    case Add => a + b
    case Sub => a - b
    case Mul => a * b
    case Div => if b == 0 then 0 else TruncDiv(a, b)
    case _ => if b == 0 then 0 else a - b * TruncDiv(a, b)
  }

  function EvalArithmetic(op: BinaryOp, lv: Value, rv: Value, rt: Runtime): Eval {
    match (lv, rv)
    case (Integer(a), Integer(b)) =>
      var n := IntegerOp(op, a, b);
      if I64_MIN <= n <= I64_MAX && !(op.Mod? && a == I64_MIN && b == -1) then Success(Integer(n))
      else Failure(ExpressionError)
    case (Float(a), Float(b)) => Success(Float(rt.floatOp(op, a, b)))
    case (Integer(a), Float(b)) => Success(Float(rt.floatOp(op, rt.toFloat(a), b)))
    case (Float(a), Integer(b)) => Success(Float(rt.floatOp(op, a, rt.toFloat(b))))
    case _ => Failure(TypeError)
  }

  datatype Ordering = Below | Same | Above

  function CompareInts(a: int, b: int): Ordering {
    if a < b then Below else if a == b then Same else Above
  }

  function CompareFloats(a: u64, b: u64): Option<Ordering> {
    if IsNaN(a) || IsNaN(b) then None
    else if IsZero(a) && IsZero(b) then Some(Same)
    else Some(CompareInts(FloatRank(a), FloatRank(b)))
  }

  function CompareStrings(a: string, b: string): Ordering {
    if a == b then Same else if Less(Utf8(a), Utf8(b)) then Below else Above
  }

  function EvalComparison(op: BinaryOp, lv: Value, rv: Value, rt: Runtime): Eval {
    var ord :- match (lv, rv)
      case (Integer(a), Integer(b)) => Success(Some(CompareInts(a, b)))
      case (Float(a), Float(b)) => Success(CompareFloats(a, b))
      case (Integer(a), Float(b)) => Success(CompareFloats(rt.toFloat(a), b))
      case (Float(a), Integer(b)) => Success(CompareFloats(a, rt.toFloat(b)))
      case (Str(a), Str(b)) => Success(Some(CompareStrings(a, b)))
      case (Null, _) => Success(None)
      case (_, Null) => Success(None)
      case _ => Failure(TypeError);
    match ord
    case None => Success(Null)
    case Some(o) =>
      Success(Bool(match op
        case Lt => o.Below?
        case Gt => o.Above?
        case Le => !o.Above?
        case _ => !o.Below?))
  }

  function ThreeAnd(lv: Value, rv: Value): Value {
    if lv == Bool(false) || rv == Bool(false) then Bool(false)
    else if lv == Bool(true) && rv == Bool(true) then Bool(true)
    else Null
  }

  function ThreeOr(lv: Value, rv: Value): Value {
    if lv == Bool(true) || rv == Bool(true) then Bool(true)
    else if lv == Bool(false) && rv == Bool(false) then Bool(false)
    else Null
  }

  function EvalBinary(op: BinaryOp, lv: Value, rv: Value, rt: Runtime): Eval {
    match op
    case Eq => Success(Bool(ValueEq(lv, rv)))
    case Neq => Success(Bool(!ValueEq(lv, rv)))
    case Lt => EvalComparison(op, lv, rv, rt)
    case Gt => EvalComparison(op, lv, rv, rt)
    case Le => EvalComparison(op, lv, rv, rt)
    case Ge => EvalComparison(op, lv, rv, rt)
    case Add => EvalArithmetic(op, lv, rv, rt)
    case Sub => EvalArithmetic(op, lv, rv, rt)
    case Mul => EvalArithmetic(op, lv, rv, rt)
    case Div => if rv == Integer(0) || IsFloatZero(rv) then Failure(ExpressionError) else EvalArithmetic(op, lv, rv, rt)
    case Mod => if rv == Integer(0) || IsFloatZero(rv) then Failure(ExpressionError) else EvalArithmetic(op, lv, rv, rt)
    case And => Success(ThreeAnd(lv, rv))
    case Or => Success(ThreeOr(lv, rv))
    case Xor => Success(if lv.Bool? && rv.Bool? then Bool(lv.b != rv.b) else Null)
    case Concat =>
      match (lv, rv)
      case (Str(a), Str(b)) => Success(Str(a + b))
      case (List(a), List(b)) => Success(List(a + b))
      case _ => Failure(TypeError)
  }

  function NegateFloat(bits: u64): u64 {
    if bits < SIGN_BIT then bits + SIGN_BIT else bits - SIGN_BIT
  }

  function EvalUnary(op: UnaryOp, v: Value): Eval {
    match op
    case Not =>
      (match v
       case Bool(b) => Success(Bool(!b))
       case Null => Success(Null)
       case _ => Failure(TypeError))
    case Neg =>
      (match v
       case Integer(i) => if i == I64_MIN then Failure(ExpressionError) else Success(Integer(-i))
       case Float(f) => Success(Float(NegateFloat(f)))
       case Null => Success(Null)
       case _ => Failure(TypeError))
    case Pos =>
      (match v
       case Integer(_) => Success(v)
       case Float(_) => Success(v)
       case Null => Success(Null)
       case _ => Failure(TypeError))
  }

  function PropertyOf(v: Value, property: string): Value {
    match v
    case Map(m) => if property in m then m[property] else Null
    case NodeVal(_, _, m) => if property in m then m[property] else Null
    case EdgeVal(_, _, _, _, m) => if property in m then m[property] else Null
    case _ => Null
  }

  predicate Contains(items: seq<Value>, v: Value) {
    exists i | 0 <= i < |items| :: ValueEq(items[i], v)
  }

  // ----- evaluation -----

  /** `evaluate`. */
  function Evaluate(e: Expression, r: Record, rt: Runtime): Eval
    requires RecordOk(r)
    decreases e
  {
    match e
    case Lit(lit) => EvalLiteral(lit)
    case Identifier(name) =>
      (match Get(r, name)
       case Some(v) => Success(v)
       case None => Failure(UnknownIdentifier))
    case PropertyAccess(target, property) =>
      var column := if target.Identifier? then Get(r, target.name + "." + property) else None;
      var bare := if target.Identifier? then Get(r, property) else None;
      if column.Some? then Success(column.value)
      else if bare.Some? then Success(bare.value)
      else
        var obj :- Evaluate(target, r, rt);
        Success(PropertyOf(obj, property))
    case Binary(left, op, right) =>
      var lv :- Evaluate(left, r, rt);
      if op.And? && lv == Bool(false) then Success(Bool(false))
      else if op.Or? && lv == Bool(true) then Success(Bool(true))
      else
        var rv :- Evaluate(right, r, rt);
        EvalBinary(op, lv, rv, rt)
    case Unary(op, operand) =>
      var v :- Evaluate(operand, r, rt);
      EvalUnary(op, v)
    case IsNull(inner) =>
      var v :- Evaluate(inner, r, rt);
      Success(Bool(v.Null?))
    case IsNotNull(inner) =>
      var v :- Evaluate(inner, r, rt);
      Success(Bool(!v.Null?))
    case In(operand, list) =>
      var v :- Evaluate(operand, r, rt);
      var l :- Evaluate(list, r, rt);
      if l.List? then Success(Bool(Contains(l.items, v))) else Failure(TypeError)
    case FunctionCall(name, args) =>
      var vs :- EvaluateAll(args, r, rt);
      rt.call(name, vs)
    case Aggregate(f, _, arg) =>
      (match arg
       case Some(inner) => Evaluate(inner, r, rt)
       case None => Success(if f.Count? then Integer(1) else Null))
    case ListExpr(items) =>
      var vs :- EvaluateAll(items, r, rt);
      Success(List(vs))
    case MapExpr(entries) =>
      var m :- EvaluateEntries(entries, r, rt);
      Success(Map(m))
    case Case(subject, _, _) =>
      (match subject
       case Some(s) =>
         var v :- Evaluate(s, r, rt);
         EvaluateArms(Some(v), e, 0, r, rt)
       case None => EvaluateArms(None, e, 0, r, rt))
    case Exists(_) => Failure(NotImplemented)
    case Parameter(_) => Failure(NotImplemented)
    case Like(_, _) => Failure(NotImplemented)
  }

  function EvaluateAll(es: seq<Expression>, r: Record, rt: Runtime): Result<seq<Value>, EvalError>
    requires RecordOk(r)
    decreases es
  {
    if es == [] then Success([])
    else
      var v :- Evaluate(es[0], r, rt);
      var rest :- EvaluateAll(es[1..], r, rt);
      Success([v] + rest)
  }

  function EvaluateEntries(entries: seq<Entry>, r: Record, rt: Runtime): Result<Props, EvalError>
    requires RecordOk(r)
    decreases entries
  {
    if entries == [] then Success(map[])
    else
      var n := |entries| - 1;
      var m :- EvaluateEntries(entries[..n], r, rt);
      var v :- Evaluate(entries[n].value, r, rt);
      Success(m[entries[n].key := v])
  }

  /** The first arm from `i` on whose condition equals the subject, or is true when there is none. */
  function EvaluateArms(subject: Option<Value>, c: Expression, i: nat, r: Record, rt: Runtime): Eval
    requires RecordOk(r) && c.Case? && i <= |c.arms|
    decreases c, |c.arms| - i
  {
    if i == |c.arms| then
      match c.otherwise
      case Some(e) => Evaluate(e, r, rt)
      case None => Success(Null)
    else
      var w :- Evaluate(c.arms[i].condition, r, rt);
      var hit := match subject case Some(v) => ValueEq(v, w) case None => w == Bool(true);
      if hit then Evaluate(c.arms[i].result, r, rt) else EvaluateArms(subject, c, i + 1, r, rt)
  }
}
