/**
 The byte-comparable encoding of property values used in index keys: an order
 embedding of value tuples whose encodings delimit themselves.
 */
module ValueCodec {
  import opened Bytes
  import opened Values

  /** `bincode::serialize` on the values that have no comparable form. */
  type Codec = Value -> Bytes

  const U32_RADIX: nat := 0x1_0000_0000

  /** `byte ^ 0x80`. */
  function FlipTopBit(b: byte): byte {
    if b < 0x80 then b + 0x80 else b - 0x80
  }

  function TwosComplement(i: i64): u64 {
    if i < 0 then i + 0x1_0000_0000_0000_0000 else i
  }

  function EncodeInteger(i: i64): (r: Bytes)
    ensures |r| == 8
  {
    var bytes := U64Bytes(TwosComplement(i));
    [FlipTopBit(bytes[0])] + bytes[1..]
  }

  function FloatImage(bits: u64): u64 {
    if FloatNonNegative(bits) then (if bits < SIGN_BIT then bits + SIGN_BIT else bits - SIGN_BIT)
    else U64_MAX - bits
  }

  /** NUL becomes `00 01`; the end of a string is `00 00`. */
  function Escape(s: Bytes): Bytes {
    if s == [] then []
    else (if s[0] == 0 then [0, 1] else [s[0]]) + Escape(s[1..])
  }

  const END: Bytes := [0, 0]

  function U32Bytes(n: nat): (r: Bytes)
    ensures |r| == 4
  {
    Radix8();
    BigEndian(n % U32_RADIX, 4)
  }

  function Tag(v: Value): byte {
    match v
    case Null => 0
    case Bool(_) => 1
    case Integer(_) => 2
    case Float(_) => 3
    case Str(_) => 4
    case _ => 0xFF
  }

  /** What follows the tag. */
  function Payload(v: Value, codec: Codec): Bytes {
    match v
    case Null => []
    case Bool(b) => [if b then 1 else 0]
    case Integer(i) => EncodeInteger(i)
    case Float(f) => U64Bytes(FloatImage(f))
    case Str(s) => Escape(Utf8(s)) + END
    case _ => U32Bytes(|codec(v)|) + codec(v)
  }

  /** `encode_value_comparable`. */
  function EncodeValue(v: Value, codec: Codec): Bytes {
    [Tag(v)] + Payload(v, codec)
  }

  /** `encode_values`, and `encode_properties` on the indexed properties in order. */
  function EncodeValues(vs: seq<Value>, codec: Codec): Bytes {
    if vs == [] then [] else EncodeValue(vs[0], codec) + EncodeValues(vs[1..], codec)
  }

  // ----- which values, in which order -----

  /** Scalars on which byte order is value order: no NaN, and no negative zero. */
  predicate Ordinary(v: Value) {
    match v
    case Null => true
    case Bool(_) => true
    case Integer(_) => true
    case Float(f) => !IsNaN(f) && f != SIGN_BIT
    case Str(_) => true
    case _ => false
  }

  predicate AllOrdinary(vs: seq<Value>) {
    forall i :: 0 <= i < |vs| ==> Ordinary(vs[i])
  }

  predicate IsScalar(v: Value) {
    v.Null? || v.Bool? || v.Integer? || v.Float? || v.Str?
  }

  /** Null before booleans, then integers, floats, strings, and everything else last. */
  predicate EarlierType(a: Value, b: Value) {
    match a
    case Null => !b.Null?
    case Bool(_) => !b.Null? && !b.Bool?
    case Integer(_) => b.Float? || b.Str? || !IsScalar(b)
    case Float(_) => b.Str? || !IsScalar(b)
    case Str(_) => !IsScalar(b)
    case _ => false
  }

  /** Type first, then value; strings by their UTF-8 bytes, as Rust compares them. */
  predicate ValueLess(a: Value, b: Value) {
    EarlierType(a, b) ||
    match (a, b)
    case (Bool(x), Bool(y)) => !x && y
    case (Integer(x), Integer(y)) => x < y
    case (Float(x), Float(y)) => FloatRank(x) < FloatRank(y)
    case (Str(x), Str(y)) => Less(Utf8(x), Utf8(y))
    case _ => false
  }

  predicate TupleLess(a: seq<Value>, b: seq<Value>)
    requires |a| == |b|
  {
    a != [] && (ValueLess(a[0], b[0]) || (a[0] == b[0] && TupleLess(a[1..], b[1..])))
  }

  /** The serialized form fits its 32-bit length field. */
  ghost predicate Fits(v: Value, codec: Codec) {
    |codec(v)| < U32_RADIX
  }

  ghost predicate AllFit(vs: seq<Value>, codec: Codec) {
    forall i :: 0 <= i < |vs| ==> Fits(vs[i], codec)
  }

  // ----- integers and floats -----

  /** Adding half the range to the top byte adds half the range to the number. */
  lemma {:induction false} TopByteShift(s: Bytes, b: byte)
    requires s != []
    ensures b as int == s[0] as int + 0x80 ==> FromBigEndian([b] + s[1..]) == FromBigEndian(s) + 0x80 * Radix(|s| - 1)
    ensures b as int == s[0] as int - 0x80 ==> FromBigEndian([b] + s[1..]) == FromBigEndian(s) - 0x80 * Radix(|s| - 1)
  {
    var t, n := [b] + s[1..], |s| - 1;
    if n > 0 {
      TopByteShift(s[..n], b);
      assert t[..n] == [b] + s[..n][1..];
    } else {
      assert s[..0] == [] && t[..0] == [];
      assert FromBigEndian(t) == b && FromBigEndian(s) == s[0];
    }
  }

  /** Flipping the sign bit maps the signed order to the unsigned one. */
  lemma IntegerImage(i: i64)
    ensures EncodeInteger(i) == U64Bytes(i + 0x8000_0000_0000_0000)
  {
    var u := TwosComplement(i);
    var s := U64Bytes(u);
    var t := EncodeInteger(i);
    Radix8();
    assert Radix(7) == 0x100_0000_0000_0000;
    U64RoundTrip(u);
    TopByteShift(s, FlipTopBit(s[0]));
    U64Onto(t);
  }

  lemma FloatImageOrder(a: u64, b: u64)
    requires !IsNaN(a) && a != SIGN_BIT && !IsNaN(b) && b != SIGN_BIT
    ensures FloatImage(a) < FloatImage(b) <==> FloatRank(a) < FloatRank(b)
    ensures FloatImage(a) == FloatImage(b) <==> a == b
  {
  }

  lemma FloatImageInjective(a: u64, b: u64)
    requires !IsNaN(a) && !IsNaN(b) && FloatImage(a) == FloatImage(b)
    ensures a == b
  {
  }

  // ----- strings -----

  lemma LessFirst(p: byte, x: Bytes, q: byte, y: Bytes)
    ensures Less([p] + x, [q] + y) <==> p < q || (p == q && Less(x, y))
  {
    LessSplit([p], x, [q], y);
    LessSingle(p, q);
  }

  /** The escaped, terminated form of a string, followed by anything. */
  function Closed(s: Bytes, x: Bytes): Bytes {
    Escape(s) + END + x
  }

  lemma ClosedStep(s: Bytes, x: Bytes)
    ensures s == [] ==> Closed(s, x) == [0] + ([0] + x)
    ensures s != [] && s[0] == 0 ==> Closed(s, x) == [0] + ([1] + Closed(s[1..], x))
    ensures s != [] && s[0] != 0 ==> Closed(s, x) == [s[0]] + Closed(s[1..], x)
  {
    if s != [] {
      var head: Bytes := if s[0] == 0 then [0, 1] else [s[0]];
      var rest := Escape(s[1..]);
      assert head + rest + END + x == head + (rest + END + x);
    }
  }

  lemma {:induction false} ClosedOrder(s: Bytes, x: Bytes, t: Bytes, y: Bytes)
    requires s != t
    ensures Less(Closed(s, x), Closed(t, y)) <==> Less(s, t)
  {
    ClosedStep(s, x);
    ClosedStep(t, y);
    hide Closed, Escape;
    if s == [] {
      PrefixAtMost(s, t);
      if t[0] == 0 {
        LessFirst(0, [0] + x, 0, [1] + Closed(t[1..], y));
        LessFirst(0, x, 1, Closed(t[1..], y));
      } else {
        LessFirst(0, [0] + x, t[0], Closed(t[1..], y));
      }
    } else if t == [] {
      PrefixAtMost(t, s);
      LessAsymmetric(t, s);
      if s[0] == 0 {
        LessFirst(0, [1] + Closed(s[1..], x), 0, [0] + y);
        LessFirst(1, Closed(s[1..], x), 0, y);
      } else {
        LessFirst(s[0], Closed(s[1..], x), 0, [0] + y);
      }
    } else {
      assert s == [s[0]] + s[1..] && t == [t[0]] + t[1..];
      LessFirst(s[0], s[1..], t[0], t[1..]);
      if s[0] == t[0] {
        ClosedOrder(s[1..], x, t[1..], y);
        if s[0] == 0 {
          LessFirst(0, [1] + Closed(s[1..], x), 0, [1] + Closed(t[1..], y));
          LessFirst(1, Closed(s[1..], x), 1, Closed(t[1..], y));
        } else {
          LessFirst(s[0], Closed(s[1..], x), t[0], Closed(t[1..], y));
        }
      } else if s[0] == 0 {
        LessFirst(0, [1] + Closed(s[1..], x), t[0], Closed(t[1..], y));
      } else if t[0] == 0 {
        LessFirst(s[0], Closed(s[1..], x), 0, [1] + Closed(t[1..], y));
      } else {
        LessFirst(s[0], Closed(s[1..], x), t[0], Closed(t[1..], y));
      }
    }
  }

  lemma TailsEqual(p: byte, x: Bytes, q: byte, y: Bytes)
    requires [p] + x == [q] + y
    ensures p == q && x == y
  {
    assert ([p] + x)[0] == p && ([q] + y)[0] == q;
    assert ([p] + x)[1..] == x && ([q] + y)[1..] == y;
  }

  lemma {:induction false} ClosedDelimits(s: Bytes, x: Bytes, t: Bytes, y: Bytes)
    requires Closed(s, x) == Closed(t, y)
    ensures s == t && x == y
  {
    if s == [] && t == [] {
      ClosedStep(s, x);
      ClosedStep(t, y);
      hide Closed;
      TailsEqual(0, [0] + x, 0, [0] + y);
      TailsEqual(0, x, 0, y);
    } else if s != [] && t != [] {
      ClosedStep(s, x);
      ClosedStep(t, y);
      hide Closed;
      var p := if s[0] == 0 then [1] + Closed(s[1..], x) else Closed(s[1..], x);
      var q := if t[0] == 0 then [1] + Closed(t[1..], y) else Closed(t[1..], y);
      TailsEqual(s[0], p, t[0], q);
      if s[0] == 0 {
        TailsEqual(1, Closed(s[1..], x), 1, Closed(t[1..], y));
      }
      ClosedDelimits(s[1..], x, t[1..], y);
      assert s == [s[0]] + s[1..] && t == [t[0]] + t[1..];
    } else {
      ClosedMismatch(s, x, t, y);
    }
  }

  lemma ClosedMismatch(s: Bytes, x: Bytes, t: Bytes, y: Bytes)
    requires s == [] || t == []
    requires Closed(s, x) == Closed(t, y)
    ensures s == t
  {
    ClosedStep(s, x);
    ClosedStep(t, y);
    hide Closed;
    if s != [] {
      var p := if s[0] == 0 then [1] + Closed(s[1..], x) else Closed(s[1..], x);
      TailsEqual(s[0], p, 0, [0] + y);
      TailsEqual(1, Closed(s[1..], x), 0, y);
    } else if t != [] {
      var q := if t[0] == 0 then [1] + Closed(t[1..], y) else Closed(t[1..], y);
      TailsEqual(0, [0] + x, t[0], q);
      TailsEqual(0, x, 1, Closed(t[1..], y));
    }
  }

  // ----- single values -----

  lemma SplitEqualLengths(a: Bytes, x: Bytes, b: Bytes, y: Bytes)
    requires a + x == b + y && |a| == |b|
    ensures a == b && x == y
  {
    assert (a + x)[..|a|] == a && (b + y)[..|b|] == b;
    assert (a + x)[|a|..] == x && (b + y)[|b|..] == y;
  }

  lemma U32Injective(m: nat, n: nat)
    requires m < U32_RADIX && n < U32_RADIX && U32Bytes(m) == U32Bytes(n)
    ensures m == n
  {
    hide BigEndian, Radix;
    Radix8();
    BigEndianInjective(m, n, 4);
  }

  lemma OpaqueDelimits(p: Bytes, x: Bytes, q: Bytes, y: Bytes)
    requires |p| < U32_RADIX && |q| < U32_RADIX
    requires U32Bytes(|p|) + p + x == U32Bytes(|q|) + q + y
    ensures p == q && x == y
  {
    hide U32Bytes;
    var m, n := U32Bytes(|p|), U32Bytes(|q|);
    assert m + p + x == m + (p + x) && n + q + y == n + (q + y);
    SplitEqualLengths(m, p + x, n, q + y);
    U32Injective(|p|, |q|);
    SplitEqualLengths(p, x, q, y);
  }

  lemma PayloadDelimits(a: Value, x: Bytes, b: Value, y: Bytes, codec: Codec)
    requires Fits(a, codec) && Fits(b, codec) && Tag(a) == Tag(b)
    requires Payload(a, codec) + x == Payload(b, codec) + y
    ensures Payload(a, codec) == Payload(b, codec) && x == y
    ensures a.Str? ==> a == b
  {
    hide EncodeInteger, U64Bytes, Escape, Utf8, FloatImage, U32Bytes, BigEndian;
    var p, q := Payload(a, codec), Payload(b, codec);
    if a.Str? {
      assert p + x == Closed(Utf8(a.s), x) && q + y == Closed(Utf8(b.s), y);
      ClosedDelimits(Utf8(a.s), x, Utf8(b.s), y);
      Utf8Injective(a.s, b.s);
    } else if Tag(a) == 0xFF {
      OpaqueDelimits(codec(a), x, codec(b), y);
    } else {
      SplitEqualLengths(p, x, q, y);
    }
  }

  /** No encoding can be mistaken for a part of another one, whatever follows them. */
  lemma ValueDelimits(a: Value, x: Bytes, b: Value, y: Bytes, codec: Codec)
    requires Fits(a, codec) && Fits(b, codec)
    requires EncodeValue(a, codec) + x == EncodeValue(b, codec) + y
    ensures EncodeValue(a, codec) == EncodeValue(b, codec) && x == y
    ensures Tag(a) == Tag(b)
    ensures a.Str? ==> a == b
  {
    hide Tag, Payload, Fits;
    var p, q := Payload(a, codec), Payload(b, codec);
    assert EncodeValue(a, codec) + x == [Tag(a)] + (p + x) && EncodeValue(b, codec) + y == [Tag(b)] + (q + y);
    TailsEqual(Tag(a), p + x, Tag(b), q + y);
    PayloadDelimits(a, x, b, y, codec);
  }

  /** Equal encodings of scalars with no NaN mean equal values; negative zero stands apart from zero. */
  lemma ScalarInjective(a: Value, b: Value, codec: Codec)
    requires Tag(a) != 0xFF && Fits(a, codec) && Fits(b, codec)
    requires a.Float? ==> !IsNaN(a.bits)
    requires b.Float? ==> !IsNaN(b.bits)
    requires EncodeValue(a, codec) == EncodeValue(b, codec)
    ensures a == b
  {
    TailsEqual(Tag(a), Payload(a, codec), Tag(b), Payload(b, codec));
    if a.Str? {
      PayloadDelimits(a, [], b, [], codec);
    }
    hide EncodeInteger, U64Bytes, Escape, Utf8, FloatImage, EncodeValue;
    match a
    case Integer(i) =>
      IntegerImage(i);
      IntegerImage(b.i);
      U64RoundTrip(i + 0x8000_0000_0000_0000);
      U64RoundTrip(b.i + 0x8000_0000_0000_0000);
    case Float(f) =>
      U64RoundTrip(FloatImage(f));
      U64RoundTrip(FloatImage(b.bits));
      FloatImageInjective(f, b.bits);
    case _ =>
  }

  lemma IntegerOrder(i: i64, j: i64)
    ensures Less(EncodeInteger(i), EncodeInteger(j)) <==> i < j
  {
    IntegerImage(i);
    IntegerImage(j);
    U64Order(i + 0x8000_0000_0000_0000, j + 0x8000_0000_0000_0000);
  }

  lemma FixedWidthOrder(p: Bytes, x: Bytes, q: Bytes, y: Bytes)
    requires |p| == |q| && p != q
    ensures Less(p + x, q + y) <==> Less(p, q)
  {
    LessSplit(p, x, q, y);
  }

  /** The byte order of two different values' encodings is their order, whatever follows them. */
  lemma ValueOrder(a: Value, x: Bytes, b: Value, y: Bytes, codec: Codec)
    requires (Ordinary(a) && Ordinary(b) && a != b) || Tag(a) != Tag(b)
    requires Fits(a, codec) && Fits(b, codec)
    ensures Less(EncodeValue(a, codec) + x, EncodeValue(b, codec) + y) <==> ValueLess(a, b)
  {
    var p, q := Payload(a, codec), Payload(b, codec);
    assert EncodeValue(a, codec) + x == [Tag(a)] + (p + x) && EncodeValue(b, codec) + y == [Tag(b)] + (q + y);
    LessFirst(Tag(a), p + x, Tag(b), q + y);
    if Tag(a) == Tag(b) {
      if p == q {
        ScalarInjective(a, b, codec);
      }
      match a
      case Str(s) =>
        assert p + x == Closed(Utf8(s), x) && q + y == Closed(Utf8(b.s), y);
        if Utf8(s) == Utf8(b.s) {
          Utf8Injective(s, b.s);
        }
        ClosedOrder(Utf8(s), x, Utf8(b.s), y);
      case Integer(i) =>
        FixedWidthOrder(p, x, q, y);
        IntegerOrder(i, b.i);
      case Float(f) =>
        FixedWidthOrder(p, x, q, y);
        U64Order(FloatImage(f), FloatImage(b.bits));
        FloatImageOrder(f, b.bits);
      case Bool(v) =>
        FixedWidthOrder(p, x, q, y);
        LessSingle(if v then 1 else 0, if b.b then 1 else 0);
      case Null =>
    }
  }

  // ----- tuples -----

  /** A tuple's encoding is never a proper prefix of another one's of the same length. */
  lemma {:induction false} TupleDelimits(vs: seq<Value>, x: Bytes, ws: seq<Value>, y: Bytes, codec: Codec)
    requires |vs| == |ws| && AllFit(vs, codec) && AllFit(ws, codec)
    requires EncodeValues(vs, codec) + x == EncodeValues(ws, codec) + y
    ensures EncodeValues(vs, codec) == EncodeValues(ws, codec) && x == y
    ensures forall i :: 0 <= i < |vs| ==> EncodeValue(vs[i], codec) == EncodeValue(ws[i], codec)
  {
    hide EncodeValue, Fits;
    if vs != [] {
      var v, w := EncodeValue(vs[0], codec), EncodeValue(ws[0], codec);
      var rest, rest' := EncodeValues(vs[1..], codec), EncodeValues(ws[1..], codec);
      assert v + rest + x == v + (rest + x) && w + rest' + y == w + (rest' + y);
      ValueDelimits(vs[0], rest + x, ws[0], rest' + y, codec);
      TupleDelimits(vs[1..], x, ws[1..], y, codec);
      forall i | 0 <= i < |vs| ensures EncodeValue(vs[i], codec) == EncodeValue(ws[i], codec) {
        if i > 0 {
          assert EncodeValue(vs[1..][i - 1], codec) == EncodeValue(ws[1..][i - 1], codec);
        }
      }
    } else {
      assert EncodeValues(vs, codec) + x == x && EncodeValues(ws, codec) + y == y;
    }
  }

  /**
   Order embedding: the byte order of two tuples' encodings, each followed by
   anything, is the order of the tuples.
   */
  lemma {:induction false} TupleOrder(vs: seq<Value>, x: Bytes, ws: seq<Value>, y: Bytes, codec: Codec)
    requires |vs| == |ws| && vs != ws && AllOrdinary(vs) && AllOrdinary(ws) && AllFit(vs, codec) && AllFit(ws, codec)
    ensures Less(EncodeValues(vs, codec) + x, EncodeValues(ws, codec) + y) <==> TupleLess(vs, ws)
  {
    hide EncodeValue, Fits, Ordinary, ValueLess, Less;
    var v, w := EncodeValue(vs[0], codec), EncodeValue(ws[0], codec);
    var rest, rest' := EncodeValues(vs[1..], codec), EncodeValues(ws[1..], codec);
    assert v + rest + x == v + (rest + x) && w + rest' + y == w + (rest' + y);
    if vs[0] == ws[0] {
      LessCommonHead(v, rest + x, rest' + y);
      assert vs == [vs[0]] + vs[1..] && ws == [ws[0]] + ws[1..];
      TupleOrder(vs[1..], x, ws[1..], y, codec);
      ValueLessIrreflexive(vs[0]);
    } else {
      ValueOrder(vs[0], rest + x, ws[0], rest' + y, codec);
    }
  }

  lemma ValueLessIrreflexive(v: Value)
    ensures !ValueLess(v, v)
  {
  }

  /** Negative zero equals zero but is encoded apart from it, below every other float. */
  lemma NegativeZeroApart(codec: Codec)
    ensures ValueEq(Float(0), Float(SIGN_BIT))
    ensures EncodeValue(Float(0), codec) != EncodeValue(Float(SIGN_BIT), codec)
  {
    U64Order(FloatImage(SIGN_BIT), FloatImage(0));
    var a, b := EncodeValue(Float(0), codec), EncodeValue(Float(SIGN_BIT), codec);
    assert a[1..] == U64Bytes(FloatImage(0)) && b[1..] == U64Bytes(FloatImage(SIGN_BIT));
    LessAsymmetric(b[1..], a[1..]);
  }
}
