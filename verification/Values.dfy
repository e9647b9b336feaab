/** The values a property can hold, UTF-8, and Rust's derived equality on values. */
module Values {
  import opened Bytes
  import opened OrderedStore

  const I64_MIN: int := -0x8000_0000_0000_0000
  const I64_MAX: int := 0x7FFF_FFFF_FFFF_FFFF

  type i64 = x: int | -0x8000_0000_0000_0000 <= x <= 0x7FFF_FFFF_FFFF_FFFF

  /** A UUID: its sixteen bytes and its text determine each other. */
  type Uuid = u: Bytes | |u| == 16 witness [0, 0, 0, 0, 0, 0, 0, 0, 0, 0, 0, 0, 0, 0, 0, 0]

  type Props = map<string, Value>

  /** Floats are kept as their 64-bit patterns; dates and times as opaque numbers. */
  datatype Value =
    | Null
    | Bool(b: bool)
    | Integer(i: i64)
    | Float(bits: u64)
    | Str(s: string)
    | Binary(bytes: Bytes)
    | Date(day: int)
    | Time(nanos: int)
    | Timestamp(instant: int)
    | Duration(months: int, days: int, rest: int)
    | List(items: seq<Value>)
    | Map(entries: Props)
    | NodeVal(nodeId: Uuid, labels: seq<string>, nodeProps: Props)
    | EdgeVal(edgeId: Uuid, edgeLabel: string, sourceId: Uuid, targetId: Uuid, edgeProps: Props)

  // ----- floats -----

  const SIGN_BIT: nat := 0x8000_0000_0000_0000
  const INFINITY_BITS: nat := 0x7FF0_0000_0000_0000

  predicate IsNaN(bits: u64) {
    bits % SIGN_BIT > INFINITY_BITS
  }

  predicate IsZero(bits: u64) {
    bits % SIGN_BIT == 0
  }

  /** `==` on floats: NaN differs from itself and the two zeros are equal. */
  predicate FloatEq(a: u64, b: u64) {
    !IsNaN(a) && !IsNaN(b) && (a == b || (IsZero(a) && IsZero(b)))
  }

  /** `>= 0.0`, which holds of negative zero. */
  predicate FloatNonNegative(bits: u64) {
    !IsNaN(bits) && (bits < SIGN_BIT || IsZero(bits))
  }

  /** The order of floats other than NaN and negative zero: sign, then magnitude. */
  function FloatRank(bits: u64): int {
    if bits < SIGN_BIT then bits else SIGN_BIT - bits
  }

  // ----- equality -----

  /** The derived `PartialEq`. */
  predicate ValueEq(a: Value, b: Value)
    decreases a
  {
    match (a, b)
    case (Float(x), Float(y)) => FloatEq(x, y)
    case (List(xs), List(ys)) => |xs| == |ys| && forall i :: 0 <= i < |xs| ==> ValueEq(xs[i], ys[i])
    case (Map(m), Map(n)) => m.Keys == n.Keys && forall k :: k in m ==> ValueEq(m[k], n[k])
    case (NodeVal(i, ls, m), NodeVal(j, ks, n)) =>
      i == j && ls == ks && m.Keys == n.Keys && forall k :: k in m ==> ValueEq(m[k], n[k])
    case (EdgeVal(i, l, s, t, m), EdgeVal(j, k, u, v, n)) =>
      i == j && l == k && s == u && t == v && m.Keys == n.Keys && forall x :: x in m ==> ValueEq(m[x], n[x])
    case _ => a == b
  }

  // ----- UTF-8 -----

  function Utf8Char(c: char): (r: Bytes)
    ensures |r| > 0
  {
    var n := c as int;
    if n < 0x80 then [n]
    else if n < 0x800 then [0xC0 + n / 0x40, 0x80 + n % 0x40]
    else if n < 0x1_0000 then [0xE0 + n / 0x1000, 0x80 + n / 0x40 % 0x40, 0x80 + n % 0x40]
    else [0xF0 + n / 0x4_0000, 0x80 + n / 0x1000 % 0x40, 0x80 + n / 0x40 % 0x40, 0x80 + n % 0x40]
  }

  function Utf8(s: string): Bytes {
    if s == [] then [] else Utf8Char(s[0]) + Utf8(s[1..])
  }

  /** How many bytes a character takes, from its first byte. */
  function Utf8Width(first: byte): nat {
    if first < 0x80 then 1 else if first < 0xE0 then 2 else if first < 0xF0 then 3 else 4
  }

  function CodePoint(r: Bytes): int
    requires r != [] && |r| >= Utf8Width(r[0])
  {
    var first: int := r[0];
    match Utf8Width(r[0])
    case 1 => first
    case 2 => (first - 0xC0) * 0x40 + Low(r, 1)
    case 3 => (first - 0xE0) * 0x1000 + Low(r, 1) * 0x40 + Low(r, 2)
    case _ => (first - 0xF0) * 0x4_0000 + Low(r, 1) * 0x1000 + Low(r, 2) * 0x40 + Low(r, 3)
  }

  /** The six bits a continuation byte carries. */
  function Low(r: Bytes, i: nat): int
    requires i < |r|
  {
    r[i] as int - 0x80
  }

  lemma Utf8CharDecodes(c: char, x: Bytes)
    ensures Utf8Width((Utf8Char(c) + x)[0]) == |Utf8Char(c)|
    ensures CodePoint(Utf8Char(c) + x) == c as int
  {
    var n := c as int;
    assert n / 0x40 / 0x40 == n / 0x1000 && n / 0x1000 / 0x40 == n / 0x4_0000;
  }

  lemma Utf8CharDelimits(c: char, d: char, x: Bytes, y: Bytes)
    requires Utf8Char(c) + x == Utf8Char(d) + y
    ensures c == d && x == y
  {
    Utf8CharDecodes(c, x);
    Utf8CharDecodes(d, y);
    hide Utf8Char, CodePoint, Utf8Width;
    assert x == (Utf8Char(c) + x)[|Utf8Char(c)|..] && y == (Utf8Char(d) + y)[|Utf8Char(d)|..];
  }

  lemma {:induction false} Utf8Injective(s: string, t: string)
    requires Utf8(s) == Utf8(t)
    ensures s == t
  {
    if s != [] && t != [] {
      Utf8CharDelimits(s[0], t[0], Utf8(s[1..]), Utf8(t[1..]));
      Utf8Injective(s[1..], t[1..]);
      assert s == [s[0]] + s[1..] && t == [t[0]] + t[1..];
    }
  }

  // ----- the order of strings in a BTreeMap or BTreeSet -----

  lemma LeastString(s: set<string>)
    requires s != {}
    ensures exists k :: k in s && forall x :: x in s ==> AtMost(Utf8(k), Utf8(x))
    ensures forall a, b | a in s && b in s && AtMost(Utf8(a), Utf8(b)) && AtMost(Utf8(b), Utf8(a)) :: a == b
  {
    var images := set x | x in s :: Utf8(x);
    var w :| w in s;
    assert Utf8(w) in images;
    LeastExists(images);
    var least :| least in images && forall y :: y in images ==> AtMost(least, y);
    var k :| k in s && Utf8(k) == least;
    assert forall x :: x in s ==> Utf8(x) in images;
    LeastUnique(images);
    forall a, b | a in s && b in s && AtMost(Utf8(a), Utf8(b)) && AtMost(Utf8(b), Utf8(a)) ensures a == b {
      Utf8Injective(a, b);
    }
  }

  /** A set of strings in iteration order. */
  function SortedStrings(s: set<string>): (r: seq<string>)
    ensures |r| == |s| && forall k :: k in s <==> k in r
    ensures forall i, j :: 0 <= i < j < |r| ==> r[i] != r[j]
  {
    if s == {} then []
    else
      LeastString(s);
      var k :| k in s && forall x | x in s :: AtMost(Utf8(k), Utf8(x));
      [k] + SortedStrings(s - {k})
  }
}
