/**
 What the operators of the query language mean: comparison, three-valued logic,
 integer arithmetic, IN and CASE, in terms of numbers, strings and truth values.
 */
module ExpressionLaws {
  import opened Bytes
  import opened Wrappers
  import opened Values
  import opened Syntax
  import opened Expressions

  // ----- the number a float stands for -----

  function Pow2(n: nat): nat {
    if n == 0 then 1 else 2 * Pow2(n - 1)
  }

  /** The magnitude of a binary64 pattern times 2^1074, a whole number; infinity lies above every finite one. */
  function Scaled(m: nat): nat {
    var exponent, fraction := m / 0x10_0000_0000_0000, m % 0x10_0000_0000_0000;
    if exponent == 0 then fraction else (0x10_0000_0000_0000 + fraction) * Pow2(exponent - 1)
  }

  /** The number a float other than NaN stands for, times 2^1074. */
  function FloatNumber(bits: u64): int {
    if bits < SIGN_BIT then Scaled(bits) else 0 - Scaled(bits - SIGN_BIT) as int
  }

  lemma Pow2Positive(n: nat)
    ensures Pow2(n) > 0
  {
  }

  lemma ScaledStep(m: nat)
    ensures Scaled(m) < Scaled(m + 1)
  {
    var unit := 0x10_0000_0000_0000;
    var e, f := m / unit, m % unit;
    if f + 1 < unit {
      assert (m + 1) / unit == e && (m + 1) % unit == f + 1;
      if e > 0 {
        Pow2Positive(e - 1);
        assert (unit + (f + 1)) * Pow2(e - 1) == (unit + f) * Pow2(e - 1) + Pow2(e - 1);
      }
    } else {
      assert m + 1 == (e + 1) * unit;
      assert (m + 1) / unit == e + 1 && (m + 1) % unit == 0;
      Pow2Positive(e);
      if e > 0 {
        Pow2Positive(e - 1);
        assert unit * Pow2(e) == (unit + unit) * Pow2(e - 1);
        assert (unit + unit) * Pow2(e - 1) == (unit + f) * Pow2(e - 1) + Pow2(e - 1);
      }
    }
  }

  lemma {:induction false} ScaledIncreasing(m: nat, n: nat)
    requires m < n
    ensures Scaled(m) < Scaled(n)
    decreases n - m
  {
    ScaledStep(m);
    if m + 1 < n {
      ScaledIncreasing(m + 1, n);
    }
  }

  lemma ScaledZero()
    ensures Scaled(0) == 0
  {
  }

  lemma RankOrder(a: u64, b: u64)
    requires FloatRank(a) < FloatRank(b)
    ensures FloatNumber(a) < FloatNumber(b)
  {
    hide Scaled;
    ScaledZero();
    if a < SIGN_BIT {
      ScaledIncreasing(a, b);
    } else if b >= SIGN_BIT {
      ScaledIncreasing(b - SIGN_BIT, a - SIGN_BIT);
    } else {
      if a > SIGN_BIT {
        ScaledIncreasing(0, a - SIGN_BIT);
      }
      if b > 0 {
        ScaledIncreasing(0, b);
      }
    }
  }

  /** Sign and magnitude order floats as the numbers they stand for, and equality is equality of numbers. */
  lemma FloatsAreNumbers(a: u64, b: u64)
    requires !IsNaN(a) && !IsNaN(b)
    ensures FloatRank(a) < FloatRank(b) <==> FloatNumber(a) < FloatNumber(b)
    ensures FloatEq(a, b) <==> FloatNumber(a) == FloatNumber(b)
  {
    hide Scaled;
    ScaledZero();
    if FloatRank(a) < FloatRank(b) {
      RankOrder(a, b);
    } else if FloatRank(b) < FloatRank(a) {
      RankOrder(b, a);
    }
  }

  // ----- the order of strings -----

  /** They agree before position `i`, and there `a` ends or has the smaller character. */
  predicate CharSmallerAt(a: string, b: string, i: nat) {
    && i <= |a| && i < |b|
    && (forall k :: 0 <= k < i ==> a[k] == b[k])
    && (i == |a| || a[i] < b[i])
  }

  /** The first character in which they differ is smaller, or `a` ends and `b` goes on. */
  ghost predicate StringBefore(a: string, b: string) {
    exists i :: 0 <= i <= |a| && CharSmallerAt(a, b, i)
  }

  lemma Digits64(n: nat)
    ensures n == n / 0x40 * 0x40 + n % 0x40
    ensures n == n / 0x1000 * 0x1000 + n / 0x40 % 0x40 * 0x40 + n % 0x40
    ensures n == n / 0x4_0000 * 0x4_0000 + n / 0x1000 % 0x40 * 0x1000 + n / 0x40 % 0x40 * 0x40 + n % 0x40
  {
    assert n / 0x40 / 0x40 == n / 0x1000 && n / 0x1000 / 0x40 == n / 0x4_0000;
  }

  lemma SameWidthOrder(c: char, d: char)
    requires c < d && |Utf8Char(c)| == |Utf8Char(d)|
    ensures Less(Utf8Char(c), Utf8Char(d))
  {
    var a, b := Utf8Char(c), Utf8Char(d);
    Digits64(c as int);
    Digits64(d as int);
    if a[0] < b[0] {
      assert SmallerAt(a, b, 0);
    } else if a[1] < b[1] {
      assert SmallerAt(a, b, 1);
    } else if a[2] < b[2] {
      assert SmallerAt(a, b, 2);
    } else {
      assert SmallerAt(a, b, 3);
    }
  }

  lemma CharOrder(c: char, d: char, x: Bytes, y: Bytes)
    requires c < d
    ensures Less(Utf8Char(c) + x, Utf8Char(d) + y)
  {
    if |Utf8Char(c)| == |Utf8Char(d)| {
      SameWidthOrder(c, d);
      LessSplit(Utf8Char(c), x, Utf8Char(d), y);
    } else {
      assert SmallerAt(Utf8Char(c) + x, Utf8Char(d) + y, 0);
    }
  }

  lemma SameHeadBefore(a: string, b: string)
    requires a != [] && b != [] && a[0] == b[0]
    ensures StringBefore(a, b) <==> StringBefore(a[1..], b[1..])
  {
    if StringBefore(a[1..], b[1..]) {
      var i :| 0 <= i <= |a| - 1 && CharSmallerAt(a[1..], b[1..], i);
      forall k | 0 <= k < i + 1 ensures a[k] == b[k] {
        assert k > 0 ==> a[1..][k - 1] == b[1..][k - 1];
      }
      assert CharSmallerAt(a, b, i + 1);
    }
    if StringBefore(a, b) {
      var i :| 0 <= i <= |a| && CharSmallerAt(a, b, i);
      assert CharSmallerAt(a[1..], b[1..], i - 1);
    }
  }

  /** The bytes of UTF-8 order strings as their characters do. */
  lemma {:induction false} Utf8Order(a: string, b: string)
    ensures Less(Utf8(a), Utf8(b)) <==> StringBefore(a, b)
    decreases |a|
  {
    hide Utf8Char;
    if b == [] {
      assert !StringBefore(a, b);
    } else if a == [] {
      assert SmallerAt(Utf8(a), Utf8(b), 0);
      assert CharSmallerAt(a, b, 0);
    } else if a[0] == b[0] {
      LessCommonHead(Utf8Char(a[0]), Utf8(a[1..]), Utf8(b[1..]));
      Utf8Order(a[1..], b[1..]);
      SameHeadBefore(a, b);
    } else {
      FirstDiffers(a, b);
      if a[0] < b[0] {
        CharOrder(a[0], b[0], Utf8(a[1..]), Utf8(b[1..]));
      } else {
        CharOrder(b[0], a[0], Utf8(b[1..]), Utf8(a[1..]));
        LessAsymmetric(Utf8(b), Utf8(a));
      }
    }
  }

  lemma FirstDiffers(a: string, b: string)
    requires a != [] && b != [] && a[0] != b[0]
    ensures StringBefore(a, b) <==> a[0] < b[0]
  {
    if a[0] < b[0] {
      assert CharSmallerAt(a, b, 0);
    }
  }

  // ----- comparison -----

  predicate Numeric(v: Value) {
    v.Integer? || v.Float?
  }

  function FloatOf(v: Value, rt: Runtime): u64
    requires Numeric(v)
  {
    if v.Integer? then rt.toFloat(v.i) else v.bits
  }

  /** The two values have an order: two strings, two integers, or two numbers neither of which is a NaN. */
  predicate Ordered(x: Value, y: Value, rt: Runtime) {
    || (x.Str? && y.Str?)
    || (x.Integer? && y.Integer?)
    || (Numeric(x) && Numeric(y) && !IsNaN(FloatOf(x, rt)) && !IsNaN(FloatOf(y, rt)))
  }

  /** `x` comes before `y`: by their characters, as integers, or as floats, to which a lone integer is converted. */
  ghost predicate Before(x: Value, y: Value, rt: Runtime)
    requires Ordered(x, y, rt)
  {
    if x.Str? then StringBefore(x.s, y.s)
    else if x.Integer? && y.Integer? then x.i < y.i
    else FloatNumber(FloatOf(x, rt)) < FloatNumber(FloatOf(y, rt))
  }

  predicate IsComparison(op: BinaryOp) {
    op.Lt? || op.Gt? || op.Le? || op.Ge?
  }

  /** The operands evaluate to these values. */
  ghost predicate Operands(a: Expression, b: Expression, x: Value, y: Value, r: Record, rt: Runtime)
    requires RecordOk(r)
  {
    Evaluate(a, r, rt) == Success(x) && Evaluate(b, r, rt) == Success(y)
  }

  lemma BinaryStep(a: Expression, op: BinaryOp, b: Expression, x: Value, y: Value, r: Record, rt: Runtime)
    requires RecordOk(r) && Operands(a, b, x, y, r, rt)
    ensures Evaluate(Expression.Binary(a, op, b), r, rt) == EvalBinary(op, x, y, rt)
  {
    hide EvalComparison, EvalArithmetic, ValueEq;
  }

  lemma NullsCompare(op: BinaryOp, x: Value, y: Value, rt: Runtime)
    requires IsComparison(op)
    ensures x.Null? || y.Null? ==> EvalComparison(op, x, y, rt) == Success(Null)
    ensures Numeric(x) && Numeric(y) && !Ordered(x, y, rt) ==> EvalComparison(op, x, y, rt) == Success(Null)
    ensures EvalComparison(op, x, y, rt) == Failure(TypeError) <==>
              !x.Null? && !y.Null? && !(x.Str? && y.Str?) && !(Numeric(x) && Numeric(y))
  {
    hide CompareStrings, FloatRank;
  }

  lemma OrderedCompare(op: BinaryOp, x: Value, y: Value, rt: Runtime)
    requires IsComparison(op) && Ordered(x, y, rt)
    ensures EvalComparison(op, x, y, rt) == Success(Bool(
              match op
              case Lt => Before(x, y, rt)
              case Gt => Before(y, x, rt)
              case Le => !Before(y, x, rt)
              case _ => !Before(x, y, rt)))
  {
    hide FloatRank, FloatNumber, StringBefore, CompareStrings;
    if x.Str? {
      StringOrder(x.s, y.s);
    } else if !(x.Integer? && y.Integer?) {
      var a, b := FloatOf(x, rt), FloatOf(y, rt);
      FloatsAreNumbers(a, b);
      FloatsAreNumbers(b, a);
      ZeroRanks(a, b);
    }
  }

  lemma ZeroRanks(a: u64, b: u64)
    ensures IsZero(a) && IsZero(b) ==> FloatRank(a) == FloatRank(b)
  {
  }

  lemma StringOrder(a: string, b: string)
    ensures StringBefore(a, b) <==> CompareStrings(a, b).Below?
    ensures StringBefore(b, a) <==> CompareStrings(a, b).Above?
    ensures a == b <==> CompareStrings(a, b).Same?
  {
    hide Less, Utf8, StringBefore;
    Utf8Order(a, b);
    Utf8Order(b, a);
    if Less(Utf8(a), Utf8(b)) {
      LessAsymmetric(Utf8(a), Utf8(b));
    }
    if Less(Utf8(b), Utf8(a)) {
      LessAsymmetric(Utf8(b), Utf8(a));
    }
    LessTotal(Utf8(a), Utf8(b));
    if Utf8(a) == Utf8(b) {
      Utf8Injective(a, b);
    }
  }

  /**
   Comparison: `<` is true exactly when the left value comes before the right one,
   `>` exactly when the right one does, `<=` and `>=` are their opposites; a null
   or a NaN gives null, and values of unrelated types are an error.
   */
  lemma ComparisonMeaning(a: Expression, op: BinaryOp, b: Expression, x: Value, y: Value, r: Record, rt: Runtime)
    requires RecordOk(r) && Operands(a, b, x, y, r, rt) && IsComparison(op)
    ensures var v := Evaluate(Expression.Binary(a, op, b), r, rt);
            && (Ordered(x, y, rt) ==> v == Success(Bool(
                  match op
                  case Lt => Before(x, y, rt)
                  case Gt => Before(y, x, rt)
                  case Le => !Before(y, x, rt)
                  case _ => !Before(x, y, rt))))
            && (v == Success(Null) <==> x.Null? || y.Null? || (Numeric(x) && Numeric(y) && !Ordered(x, y, rt)))
            && (v == Failure(TypeError) <==>
                  !x.Null? && !y.Null? && !(x.Str? && y.Str?) && !(Numeric(x) && Numeric(y)))
  {
    hide Evaluate, EvalComparison, Before;
    BinaryStep(a, op, b, x, y, r, rt);
    NullsCompare(op, x, y, rt);
    if Ordered(x, y, rt) {
      OrderedCompare(op, x, y, rt);
    }
  }

  /** Of two ordered values one comes first or neither does; neither means equal numbers or equal strings. */
  lemma OrderIsTotal(x: Value, y: Value, rt: Runtime)
    requires Ordered(x, y, rt)
    ensures Ordered(y, x, rt) && !(Before(x, y, rt) && Before(y, x, rt))
    ensures x.Str? == y.Str? && x.Integer? == y.Integer? && x.Float? == y.Float? ==>
              (!Before(x, y, rt) && !Before(y, x, rt) <==> ValueEq(x, y))
  {
    hide FloatNumber, FloatRank, FloatEq, StringBefore, CompareStrings;
    if x.Str? {
      StringOrder(x.s, y.s);
    } else if x.Float? && y.Float? {
      FloatsAreNumbers(x.bits, y.bits);
    }
  }

  // ----- truth -----

  /** The truth values are ordered false, unknown, true. */
  function Truth(v: Value): int
    requires v.Bool? || v.Null?
  {
    if v == Bool(true) then 2 else if v == Bool(false) then 0 else 1
  }

  predicate IsTruth(v: Value) {
    v.Bool? || v.Null?
  }

  /** AND is the least and OR the greatest of the truth values of its operands; XOR knows only known values. */
  lemma LogicMeaning(a: Expression, op: BinaryOp, b: Expression, x: Value, y: Value, r: Record, rt: Runtime)
    requires RecordOk(r) && Operands(a, b, x, y, r, rt) && IsTruth(x) && IsTruth(y)
    requires op.And? || op.Or? || op.Xor?
    ensures var v := Evaluate(Expression.Binary(a, op, b), r, rt);
            && v.Success? && IsTruth(v.value)
            && (op.And? ==> Truth(v.value) == if Truth(x) < Truth(y) then Truth(x) else Truth(y))
            && (op.Or? ==> Truth(v.value) == if Truth(x) < Truth(y) then Truth(y) else Truth(x))
            && (op.Xor? ==> (v.value.Null? <==> x.Null? || y.Null?) && (x.Bool? && y.Bool? ==> v.value == Bool(x.b != y.b)))
  {
    hide Evaluate;
    BinaryStep(a, op, b, x, y, r, rt);
  }

  /** A false left side decides AND, and a true one OR, whatever the right side does; an error on the left is the result. */
  lemma ShortCircuit(a: Expression, op: BinaryOp, b: Expression, r: Record, rt: Runtime)
    requires RecordOk(r)
    ensures var (v, left) := (Evaluate(Expression.Binary(a, op, b), r, rt), Evaluate(a, r, rt));
            && (left.Failure? ==> v == left)
            && (op.And? && left == Success(Bool(false)) ==> v == Success(Bool(false)))
            && (op.Or? && left == Success(Bool(true)) ==> v == Success(Bool(true)))
            && (Evaluate(b, r, rt).Failure? && left.Success?
                && !(op.And? && left == Success(Bool(false))) && !(op.Or? && left == Success(Bool(true))) ==>
                  v == Evaluate(b, r, rt))
  {
    hide EvalBinary;
  }

  /** An operand of AND or OR that is no truth value counts as unknown. */
  lemma OddOperandsAreUnknown(a: Expression, op: BinaryOp, b: Expression, x: Value, y: Value, r: Record, rt: Runtime)
    requires RecordOk(r) && Operands(a, b, x, y, r, rt) && (op.And? || op.Or? || op.Xor?)
    ensures Evaluate(Expression.Binary(a, op, b), r, rt) ==
              EvalBinary(op, if IsTruth(x) then x else Null, if IsTruth(y) then y else Null, rt)
  {
    hide Evaluate;
    BinaryStep(a, op, b, x, y, r, rt);
  }

  lemma UnaryMeaning(op: UnaryOp, a: Expression, x: Value, r: Record, rt: Runtime)
    requires RecordOk(r) && Evaluate(a, r, rt) == Success(x)
    ensures var v := Evaluate(Unary(op, a), r, rt);
            && (op.Not? ==> if IsTruth(x) then v.Success? && IsTruth(v.value) && Truth(v.value) == 2 - Truth(x)
                            else v == Failure(TypeError))
            && (!op.Not? && x.Null? ==> v == Success(Null))
            && (!op.Not? && !x.Null? && !Numeric(x) ==> v == Failure(TypeError))
            && (op.Pos? && Numeric(x) ==> v == Success(x))
            && (op.Neg? && x.Integer? ==>
                  v == if 0 - x.i <= I64_MAX then Success(Integer(0 - x.i)) else Failure(ExpressionError))
            && (op.Neg? && x.Float? ==> v.Success? && v.value.Float? && NegatedFloat(x.bits, v.value.bits))
  {
    hide Scaled;
  }

  /** The pattern of the opposite number: the sign bit differs and nothing else. */
  ghost predicate NegatedFloat(bits: u64, opposite: u64) {
    && opposite % SIGN_BIT == bits % SIGN_BIT && (opposite < SIGN_BIT <==> bits >= SIGN_BIT)
    && (IsNaN(opposite) <==> IsNaN(bits)) && FloatNumber(opposite) == -FloatNumber(bits)
  }

  lemma NullTestMeaning(a: Expression, x: Value, r: Record, rt: Runtime)
    requires RecordOk(r) && Evaluate(a, r, rt) == Success(x)
    ensures Evaluate(IsNull(a), r, rt) == Success(Bool(x == Null))
    ensures Evaluate(IsNotNull(a), r, rt) == Success(Bool(x != Null))
  {
  }

  // ----- equality -----

  /** Two scalars are equal exactly when they are of one type and the same value, floats by the numbers they stand for. */
  lemma ScalarEquality(x: Value, y: Value)
    requires !x.List? && !x.Map? && !x.NodeVal? && !x.EdgeVal?
    ensures ValueEq(x, y) <==>
              if x.Float? && y.Float? then !IsNaN(x.bits) && !IsNaN(y.bits) && FloatNumber(x.bits) == FloatNumber(y.bits)
              else x == y
  {
    hide FloatNumber, FloatEq;
    if x.Float? && y.Float? {
      if IsNaN(x.bits) || IsNaN(y.bits) {
        NaNsDiffer(x.bits, y.bits);
      } else {
        FloatsAreNumbers(x.bits, y.bits);
      }
    }
  }

  lemma NaNsDiffer(a: u64, b: u64)
    requires IsNaN(a) || IsNaN(b)
    ensures !FloatEq(a, b)
  {
  }

  /** `=` and `<>` never fail on values, and are each other's opposites. */
  lemma EqualityMeaning(a: Expression, b: Expression, x: Value, y: Value, r: Record, rt: Runtime)
    requires RecordOk(r) && Operands(a, b, x, y, r, rt)
    ensures Evaluate(Expression.Binary(a, Eq, b), r, rt) == Success(Bool(ValueEq(x, y)))
    ensures Evaluate(Expression.Binary(a, Neq, b), r, rt) == Success(Bool(!ValueEq(x, y)))
  {
    hide Evaluate, ValueEq;
    BinaryStep(a, Eq, b, x, y, r, rt);
    BinaryStep(a, Neq, b, x, y, r, rt);
  }

  // ----- integers -----

  predicate InRange(n: int) {
    -0x8000_0000_0000_0000 <= n <= 0x7FFF_FFFF_FFFF_FFFF
  }

  /** Quotient and remainder of a division that truncates toward zero. */
  ghost predicate Truncated(a: int, b: int, q: int, m: int) {
    && a == b * q + m
    && (0 <= m < b || 0 <= m < -b || 0 >= m > b || 0 >= m > -b)
    && (m > 0 ==> a > 0) && (m < 0 ==> a < 0)
  }

  lemma MultipleIsLarge(b: int, d: int)
    requires d != 0
    ensures b > 0 ==> b * d >= b || b * d <= -b
    ensures b < 0 ==> b * d >= -b || b * d <= b
  {
    if d > 0 {
      assert b > 0 ==> b * d >= b * 1;
      assert b < 0 ==> b * d <= b * 1;
    } else {
      assert b > 0 ==> b * d <= b * -1;
      assert b < 0 ==> b * d >= b * -1;
    }
  }

  lemma SmallMultiple(b: int, d: int)
    requires -b < b * d < b || b < b * d < -b
    ensures d == 0
  {
    if d != 0 {
      MultipleIsLarge(b, d);
    }
  }

  lemma TruncatedOnce(a: int, b: int, q: int, m: int, q': int, m': int)
    requires Truncated(a, b, q, m) && Truncated(a, b, q', m')
    ensures q == q' && m == m'
  {
    Spread(b, q, q');
    assert b * (q - q') == m' - m;
    SmallMultiple(b, q - q');
  }

  lemma Spread(b: int, q: int, q': int)
    ensures b * (q - q') == b * q - b * q'
  {
  }

  lemma Opposites(b: int, q: int)
    ensures b * -q == -(b * q) && -b * q == -(b * q) && -b * -q == b * q
  {
  }

  lemma SignedProduct(b: int, n: int, q: int, negative: bool)
    requires n == if b < 0 then -b else b
    ensures b * (if negative == (b < 0) then q else -q) == if negative then -(n * q) else n * q
  {
    Opposites(b, q);
    Opposites(n, q);
  }

  lemma Truncates(a: int, b: int)
    requires b != 0
    ensures Truncated(a, b, TruncDiv(a, b), a - b * TruncDiv(a, b))
  {
    var m, n := if a < 0 then -a else a, if b < 0 then -b else b;
    var q := m / n;
    var t := TruncDiv(a, b);
    assert t == if (a < 0) == (b < 0) then q else -q;
    EuclidParts(m, n);
    SignedProduct(b, n, q, a < 0);
    var p, p' := b * t, n * q;
    TruncatedParts(a, b, t, p, p');
  }

  lemma TruncatedParts(a: int, b: int, q: int, p: int, p': int)
    requires b != 0 && p == b * q && p == (if a < 0 then -p' else p')
    requires 0 <= (if a < 0 then -a else a) - p' < (if b < 0 then -b else b)
    requires p' >= 0
    ensures Truncated(a, b, q, a - p)
  {
  }

  lemma EuclidParts(m: nat, n: nat)
    requires n > 0
    ensures 0 <= m - n * (m / n) < n && 0 <= n * (m / n)
  {
    assert m == n * (m / n) + m % n;
  }

  predicate IsArithmetic(op: BinaryOp) {
    op.Add? || op.Sub? || op.Mul? || op.Div? || op.Mod?
  }

  /** Integers add, subtract and multiply exactly, or fail where the result is no 64-bit integer. */
  lemma IntegerMeaning(a: Expression, op: BinaryOp, b: Expression, i: i64, j: i64, r: Record, rt: Runtime)
    requires RecordOk(r) && Operands(a, b, Integer(i), Integer(j), r, rt) && (op.Add? || op.Sub? || op.Mul?)
    ensures var n := if op.Add? then i + j else if op.Sub? then i - j else i * j;
            Evaluate(Expression.Binary(a, op, b), r, rt) ==
              if InRange(n) then Success(Integer(n)) else Failure(ExpressionError)
  {
    hide Evaluate;
    BinaryStep(a, op, b, Integer(i), Integer(j), r, rt);
  }

  /**
   Division truncates toward zero and the remainder has the sign of the dividend;
   a zero divisor, and the least integer by minus one, are errors of both.
   */
  lemma DivisionMeaning(a: Expression, b: Expression, i: i64, j: i64, q: int, m: int, r: Record, rt: Runtime)
    requires RecordOk(r) && Operands(a, b, Integer(i), Integer(j), r, rt)
    requires j != 0 ==> Truncated(i, j, q, m)
    ensures var fails := j == 0 || (i == -0x8000_0000_0000_0000 && j == -1);
            && Evaluate(Expression.Binary(a, Div, b), r, rt) == (if fails then Failure(ExpressionError) else Success(Integer(q)))
            && Evaluate(Expression.Binary(a, Mod, b), r, rt) == (if fails then Failure(ExpressionError) else Success(Integer(m)))
            && (!fails ==> InRange(q) && InRange(m))
  {
    hide Evaluate;
    BinaryStep(a, Div, b, Integer(i), Integer(j), r, rt);
    BinaryStep(a, Mod, b, Integer(i), Integer(j), r, rt);
    if j != 0 {
      Truncates(i, j);
      TruncatedOnce(i, j, q, m, TruncDiv(i, j), i - j * TruncDiv(i, j));
      QuotientSmall(i, j, q, m);
    }
  }

  lemma QuotientSmall(a: i64, b: i64, q: int, m: int)
    requires b != 0 && Truncated(a, b, q, m)
    ensures InRange(m) && (InRange(q) <==> !(a == -0x8000_0000_0000_0000 && b == -1))
  {
    if b == 1 || b == -1 {
      assert m == 0;
    } else {
      DoubledQuotient(b, q, b * q);
    }
  }

  lemma DoubledQuotient(b: int, q: int, p: int)
    requires p == b * q && b != 0 && b != 1 && b != -1
    ensures q >= 0 ==> p >= 2 * q || p <= -2 * q
    ensures q <= 0 ==> p <= 2 * q || p >= -2 * q
  {
    if q >= 0 {
      assert b > 1 ==> b * q >= 2 * q;
      assert b < -1 ==> b * q <= -2 * q;
    } else {
      assert b > 1 ==> b * q <= 2 * q;
      assert b < -1 ==> b * q >= -2 * q;
    }
  }

  /**
   With a float operand the float operation is applied, an integer operand
   converted, in the order of the operands, except that a zero divisor fails; on
   anything but numbers arithmetic is a type error.
   */
  lemma FloatMeaning(a: Expression, op: BinaryOp, b: Expression, x: Value, y: Value, r: Record, rt: Runtime)
    requires RecordOk(r) && Operands(a, b, x, y, r, rt) && IsArithmetic(op) && !(x.Integer? && y.Integer?)
    ensures var v := Evaluate(Expression.Binary(a, op, b), r, rt);
            var zero := (y.Integer? && y.i == 0) || (y.Float? && y.bits % SIGN_BIT == 0);
            && ((op.Div? || op.Mod?) && zero ==> v == Failure(ExpressionError))
            && (!((op.Div? || op.Mod?) && zero) ==>
                  v == if Numeric(x) && Numeric(y) then Success(Float(rt.floatOp(op, FloatOf(x, rt), FloatOf(y, rt))))
                       else Failure(TypeError))
  {
    hide Evaluate;
    BinaryStep(a, op, b, x, y, r, rt);
  }

  lemma ConcatMeaning(a: Expression, b: Expression, x: Value, y: Value, r: Record, rt: Runtime)
    requires RecordOk(r) && Operands(a, b, x, y, r, rt)
    ensures var v := Evaluate(Expression.Binary(a, Concat, b), r, rt);
            && (x.Str? && y.Str? ==> v.Success? && v.value.Str? && |v.value.s| == |x.s| + |y.s|
                                     && x.s <= v.value.s && v.value.s[|x.s|..] == y.s)
            && (x.List? && y.List? ==> v.Success? && v.value.List? && |v.value.items| == |x.items| + |y.items|
                                       && x.items <= v.value.items && v.value.items[|x.items|..] == y.items)
            && (!(x.Str? && y.Str?) && !(x.List? && y.List?) ==> v == Failure(TypeError))
  {
    hide Evaluate;
    BinaryStep(a, Concat, b, x, y, r, rt);
  }

  // ----- IN and CASE -----

  /** IN is true exactly when some item equals the operand; anything but a list is an error. */
  lemma InMeaning(a: Expression, list: Expression, x: Value, l: Value, r: Record, rt: Runtime)
    requires RecordOk(r) && Operands(a, list, x, l, r, rt)
    ensures var v := Evaluate(In(a, list), r, rt);
            && (l.List? ==> v.Success? && v.value.Bool? && (v.value.b <==> exists y :: y in l.items && ValueEq(y, x)))
            && (!l.List? ==> v == Failure(TypeError))
  {
    hide ValueEq;
    if l.List? {
      if y :| y in l.items && ValueEq(y, x) {
        assert Contains(l.items, x);
      }
    }
  }

  /** The value an arm's condition has to equal, or has to be where there is no subject. */
  ghost predicate Hits(subject: Option<Value>, condition: Value) {
    match subject
    case Some(v) => ValueEq(v, condition)
    case None => condition == Bool(true)
  }

  /** No arm before the k-th hits, and the conditions of all of them have values. */
  ghost predicate PassedOver(subject: Option<Value>, arms: seq<Arm>, k: nat, r: Record, rt: Runtime)
    requires RecordOk(r) && k <= |arms|
  {
    forall i :: 0 <= i < k ==>
      Evaluate(arms[i].condition, r, rt).Success? && !Hits(subject, Evaluate(arms[i].condition, r, rt).value)
  }

  lemma {:induction false} ArmsMeaning(subject: Option<Value>, c: Expression, i: nat, k: nat, r: Record, rt: Runtime)
    requires RecordOk(r) && c.Case? && i <= k <= |c.arms| && PassedOver(subject, c.arms, k, r, rt)
    ensures EvaluateArms(subject, c, i, r, rt) == EvaluateArms(subject, c, k, r, rt)
    decreases k - i
  {
    hide Evaluate, ValueEq;
    if i < k {
      ArmsMeaning(subject, c, i + 1, k, r, rt);
    }
  }

  lemma CaseStarts(c: Expression, subject: Option<Value>, r: Record, rt: Runtime)
    requires RecordOk(r) && c.Case?
    requires if c.subject.None? then subject == None
             else subject.Some? && Evaluate(c.subject.value, r, rt) == Success(subject.value)
    ensures Evaluate(c, r, rt) == EvaluateArms(subject, c, 0, r, rt)
  {
    hide EvaluateArms;
  }

  /**
   CASE: the first arm whose condition equals the subject, or is true where there
   is no subject, gives the result, and a failing condition before it the error;
   where no arm hits, the ELSE part does, or null without one.
   */
  lemma CaseMeaning(c: Expression, subject: Option<Value>, k: nat, r: Record, rt: Runtime)
    requires RecordOk(r) && c.Case? && k <= |c.arms|
    requires if c.subject.None? then subject == None
             else subject.Some? && Evaluate(c.subject.value, r, rt) == Success(subject.value)
    requires PassedOver(subject, c.arms, k, r, rt)
    ensures k == |c.arms| ==>
              Evaluate(c, r, rt) == if c.otherwise.Some? then Evaluate(c.otherwise.value, r, rt) else Success(Null)
    ensures k < |c.arms| && Evaluate(c.arms[k].condition, r, rt).Failure? ==>
              Evaluate(c, r, rt) == Evaluate(c.arms[k].condition, r, rt)
    ensures k < |c.arms| && Evaluate(c.arms[k].condition, r, rt).Success?
            && Hits(subject, Evaluate(c.arms[k].condition, r, rt).value) ==>
              Evaluate(c, r, rt) == Evaluate(c.arms[k].result, r, rt)
  {
    hide Evaluate, ValueEq;
    CaseStarts(c, subject, r, rt);
    ArmsMeaning(subject, c, 0, k, r, rt);
  }

  /** The first arm that hits or fails, or the number of arms: every CASE is of one of the three kinds. */
  lemma {:induction false} FirstArm(subject: Option<Value>, c: Expression, from: nat, r: Record, rt: Runtime) returns (k: nat)
    requires RecordOk(r) && c.Case? && from <= |c.arms| && PassedOver(subject, c.arms, from, r, rt)
    ensures from <= k <= |c.arms| && PassedOver(subject, c.arms, k, r, rt)
    ensures k < |c.arms| ==> var w := Evaluate(c.arms[k].condition, r, rt); w.Failure? || Hits(subject, w.value)
    decreases |c.arms| - from
  {
    hide Evaluate, ValueEq;
    k := from;
    if k < |c.arms| {
      var w := Evaluate(c.arms[k].condition, r, rt);
      if w.Success? && !Hits(subject, w.value) {
        k := FirstArm(subject, c, from + 1, r, rt);
      }
    }
  }

  // ----- names, properties and collections -----

  /** A name has the value of the first column that bears it, and is an error where none does. */
  lemma NameMeaning(name: string, r: Record, rt: Runtime)
    requires RecordOk(r)
    ensures Evaluate(Identifier(name), r, rt) == Failure(UnknownIdentifier) <==> name !in r.columns
    ensures forall i :: 0 <= i < |r.columns| && r.columns[i] == name && name !in r.columns[..i] ==>
              Evaluate(Identifier(name), r, rt) == Success(r.values[i])
  {
    forall i | 0 <= i < |r.columns| && r.columns[i] == name && name !in r.columns[..i]
      ensures Position(r.columns, name) == Some(i)
    {
      assert forall p :: 0 <= p < i ==> r.columns[p] in r.columns[..i];
    }
  }

  /** A property of a map, a node or an edge is its entry or null; anything else has only null properties. */
  lemma PropertyMeaning(target: Expression, p: string, x: Value, r: Record, rt: Runtime)
    requires RecordOk(r) && !target.Identifier? && Evaluate(target, r, rt) == Success(x)
    ensures var v := Evaluate(PropertyAccess(target, p), r, rt);
            && (x.Map? ==> v == Success(if p in x.entries then x.entries[p] else Null))
            && (x.NodeVal? ==> v == Success(if p in x.nodeProps then x.nodeProps[p] else Null))
            && (x.EdgeVal? ==> v == Success(if p in x.edgeProps then x.edgeProps[p] else Null))
            && (!x.Map? && !x.NodeVal? && !x.EdgeVal? ==> v == Success(Null))
  {
  }

  /** A list expression evaluates item by item, in order, and fails with the first error. */
  lemma {:induction false} ItemsMeaning(es: seq<Expression>, r: Record, rt: Runtime)
    requires RecordOk(r)
    ensures var vs := EvaluateAll(es, r, rt);
            && (vs.Success? ==> |vs.value| == |es| && forall i :: 0 <= i < |es| ==> Evaluate(es[i], r, rt) == Success(vs.value[i]))
            && (vs.Failure? ==> exists i :: 0 <= i < |es| && Evaluate(es[i], r, rt) == Failure(vs.error)
                                            && forall j :: 0 <= j < i ==> Evaluate(es[j], r, rt).Success?)
    decreases |es|
  {
    hide Evaluate;
    if es != [] {
      ItemsMeaning(es[1..], r, rt);
      var head, tail := Evaluate(es[0], r, rt), EvaluateAll(es[1..], r, rt);
      if head.Success? && tail.Failure? {
        var i :| 0 <= i < |es| - 1 && Evaluate(es[1..][i], r, rt) == Failure(tail.error)
                 && forall j :: 0 <= j < i ==> Evaluate(es[1..][j], r, rt).Success?;
        assert es[1..][i] == es[i + 1];
        forall j | 0 <= j < i + 1 ensures Evaluate(es[j], r, rt).Success? {
          assert j > 0 ==> es[1..][j - 1] == es[j];
        }
      }
    }
  }

  /** The i-th entry is the last one with its key. */
  predicate LastOfKey(entries: seq<Entry>, i: int) {
    0 <= i < |entries| && forall j :: i < j < |entries| ==> entries[j].key != entries[i].key
  }

  lemma LastShrinks(entries: seq<Entry>, i: int)
    requires LastOfKey(entries, i) && i < |entries| - 1
    ensures LastOfKey(entries[..|entries| - 1], i) && entries[|entries| - 1].key != entries[i].key
  {
  }

  /** A map expression: it has the keys of its entries, each with the value of the last entry that bears it. */
  lemma {:induction false} EntriesMeaning(entries: seq<Entry>, r: Record, rt: Runtime)
    requires RecordOk(r) && EvaluateEntries(entries, r, rt).Success?
    ensures var m := EvaluateEntries(entries, r, rt).value;
            && (forall k :: k in m ==> exists i :: LastOfKey(entries, i) && entries[i].key == k)
            && (forall i :: LastOfKey(entries, i) ==>
                  entries[i].key in m && Evaluate(entries[i].value, r, rt) == Success(m[entries[i].key]))
    decreases |entries|
  {
    hide Evaluate;
    if entries != [] {
      var n := |entries| - 1;
      EntriesMeaning(entries[..n], r, rt);
      hide LastOfKey;
      var m := EvaluateEntries(entries, r, rt).value;
      forall i | LastOfKey(entries, i)
        ensures entries[i].key in m && Evaluate(entries[i].value, r, rt) == Success(m[entries[i].key])
      {
        LastInside(entries, i);
        if i < n {
          LastShrinks(entries, i);
        }
      }
      forall k | k in m ensures exists i :: LastOfKey(entries, i) && entries[i].key == k {
        if k == entries[n].key {
          TopIsLast(entries);
        } else {
          var i :| LastOfKey(entries[..n], i) && entries[..n][i].key == k;
          LastGrows(entries, i);
        }
      }
    }
  }

  lemma LastInside(entries: seq<Entry>, i: int)
    requires LastOfKey(entries, i)
    ensures 0 <= i < |entries|
  {
  }

  lemma TopIsLast(entries: seq<Entry>)
    requires entries != []
    ensures LastOfKey(entries, |entries| - 1)
  {
  }

  lemma LastGrows(entries: seq<Entry>, i: int)
    requires entries != [] && LastOfKey(entries[..|entries| - 1], i) && entries[i].key != entries[|entries| - 1].key
    ensures LastOfKey(entries, i) && entries[..|entries| - 1][i] == entries[i]
  {
    var n := |entries| - 1;
    forall j | i < j < |entries| ensures entries[j].key != entries[i].key {
      assert j < n ==> entries[..n][j] == entries[j];
    }
  }
}
