/**
 Byte strings under the order RocksDB's default comparator gives them, and
 the big-endian integers whose byte order is their numeric order.
 */
module Bytes {

  type byte = b: int | 0 <= b < 256
  type Bytes = seq<byte>

  /** `a` and `b` agree before position `i`, and `a` ends there or has the smaller byte. */
  predicate SmallerAt(a: Bytes, b: Bytes, i: nat) {
    && i <= |a| && i < |b|
    && (forall k :: 0 <= k < i ==> a[k] == b[k])
    && (i == |a| || a[i] < b[i])
  }

  /** Strict lexicographic order: the first difference decides, and a proper prefix comes first. */
  predicate Less(a: Bytes, b: Bytes) {
    exists i :: 0 <= i <= |a| && SmallerAt(a, b, i)
  }

  predicate AtMost(a: Bytes, b: Bytes) {
    a == b || Less(a, b)
  }

  lemma LessTransitive(a: Bytes, b: Bytes, c: Bytes)
    requires Less(a, b) && Less(b, c)
    ensures Less(a, c)
  {
    var i :| 0 <= i <= |a| && SmallerAt(a, b, i);
    var j :| 0 <= j <= |b| && SmallerAt(b, c, j);
    assert SmallerAt(a, c, if i < j then i else j);
  }

  /** The length of the longest common prefix. */
  function Agreement(a: Bytes, b: Bytes): (n: nat)
    ensures n <= |a| && n <= |b| && forall k :: 0 <= k < n ==> a[k] == b[k]
    ensures n < |a| && n < |b| ==> a[n] != b[n]
  {
    if a == [] || b == [] || a[0] != b[0] then 0 else
      var n := Agreement(a[1..], b[1..]);
      assert forall k :: 0 < k < n + 1 ==> a[k] == a[1..][k - 1] && b[k] == b[1..][k - 1];
      n + 1
  }

  lemma LessTotal(a: Bytes, b: Bytes)
    ensures Less(a, b) || a == b || Less(b, a)
  {
    var n := Agreement(a, b);
    if n == |a| == |b| {
      assert a == b;
    } else if n == |a| || (n < |b| && a[n] < b[n]) {
      assert SmallerAt(a, b, n);
    } else {
      assert SmallerAt(b, a, n);
    }
  }

  lemma LessAsymmetric(a: Bytes, b: Bytes)
    requires Less(a, b)
    ensures !Less(b, a) && a != b
  {
    if Less(b, a) {
      LessTransitive(a, b, a);
    }
  }

  lemma LessSingle(p: byte, q: byte)
    ensures Less([p], [q]) <==> p < q
  {
    if p < q {
      assert SmallerAt([p], [q], 0);
    }
  }

  /** Comparing two strings whose heads have the same length: the heads decide, then the tails. */
  lemma LessSplit(a: Bytes, x: Bytes, b: Bytes, y: Bytes)
    requires |a| == |b|
    ensures Less(a + x, b + y) <==> Less(a, b) || (a == b && Less(x, y))
  {
    var n := |a|;
    if Less(a + x, b + y) {
      var i :| 0 <= i <= |a + x| && SmallerAt(a + x, b + y, i);
      if i < n {
        forall k | 0 <= k < i ensures a[k] == b[k] {
          assert (a + x)[k] == (b + y)[k];
        }
        assert SmallerAt(a, b, i);
      } else {
        forall k | 0 <= k < n ensures a[k] == b[k] {
          assert (a + x)[k] == (b + y)[k];
        }
        forall k | 0 <= k < i - n ensures x[k] == y[k] {
          assert (a + x)[n + k] == (b + y)[n + k];
        }
        assert SmallerAt(x, y, i - n);
      }
    }
    if Less(a, b) {
      var i :| 0 <= i <= |a| && SmallerAt(a, b, i);
      assert SmallerAt(a + x, b + y, i);
    } else if a == b && Less(x, y) {
      var i :| 0 <= i <= |x| && SmallerAt(x, y, i);
      assert SmallerAt(a + x, b + y, n + i);
    }
  }

  lemma LessCommonHead(p: Bytes, x: Bytes, y: Bytes)
    ensures Less(p + x, p + y) <==> Less(x, y)
  {
    LessSplit(p, x, p, y);
  }

  lemma PrefixAtMost(p: Bytes, s: Bytes)
    requires p <= s
    ensures AtMost(p, s)
  {
    if p != s {
      assert SmallerAt(p, s, |p|);
    }
  }

  /**
   The strings that extend a prefix are contiguous: whatever lies between two
   of them extends it too. Every prefix scan of the store relies on this.
   */
  lemma PrefixConvex(p: Bytes, a: Bytes, b: Bytes, c: Bytes)
    requires p <= a && p <= c
    requires AtMost(a, b) && AtMost(b, c)
    ensures p <= b
  {
    if b != a && b != c {
      var i :| 0 <= i <= |a| && SmallerAt(a, b, i);
      var j :| 0 <= j <= |b| && SmallerAt(b, c, j);
      assert i >= |p| || j >= |p|;
    }
  }

  /** If neither string is a prefix of the other, what follows them cannot change their order. */
  lemma LessDecided(a: Bytes, x: Bytes, b: Bytes, y: Bytes)
    requires !(a <= b) && !(b <= a)
    ensures Less(a + x, b + y) <==> Less(a, b)
  {
    var n := Agreement(a, b);
    assert n < |a| && n < |b|;
    assert (a + x)[n] == a[n] && (b + y)[n] == b[n];
    if Less(a + x, b + y) {
      var i :| 0 <= i <= |a + x| && SmallerAt(a + x, b + y, i);
      assert SmallerAt(a, b, n);
    }
    if Less(a, b) {
      var i :| 0 <= i <= |a| && SmallerAt(a, b, i);
      assert SmallerAt(a + x, b + y, n);
    }
  }

  /** Two prefixes of one string are comparable. */
  lemma PrefixesComparable(a: Bytes, b: Bytes, s: Bytes)
    requires a <= s && b <= s
    ensures |a| <= |b| ==> a <= b
    ensures |b| <= |a| ==> b <= a
  {
    if |a| <= |b| {
      assert s[..|b|][..|a|] == s[..|a|];
    } else {
      assert s[..|a|][..|b|] == s[..|b|];
    }
  }

  // ----- big-endian integers -----

  const U64_MAX: nat := 0xFFFF_FFFF_FFFF_FFFF

  type u64 = n: nat | n <= U64_MAX

  /** Number of values a `width`-byte integer can take. */
  function Radix(width: nat): (r: nat)
    ensures r > 0
  {
    if width == 0 then 1 else 256 * Radix(width - 1)
  }

  function BigEndian(n: nat, width: nat): (r: Bytes)
    requires n < Radix(width)
    ensures |r| == width
  {
    if width == 0 then [] else BigEndian(n / 256, width - 1) + [n % 256]
  }

  function FromBigEndian(s: Bytes): (n: nat)
    ensures n < Radix(|s|)
  {
    if s == [] then 0 else 256 * FromBigEndian(s[..|s| - 1]) + s[|s| - 1]
  }

  lemma {:induction false} BigEndianRoundTrip(n: nat, width: nat)
    requires n < Radix(width)
    ensures FromBigEndian(BigEndian(n, width)) == n
  {
    if width > 0 {
      BigEndianRoundTrip(n / 256, width - 1);
      assert BigEndian(n, width)[..width - 1] == BigEndian(n / 256, width - 1);
    }
  }

  lemma BigEndianInjective(m: nat, n: nat, width: nat)
    requires m < Radix(width) && n < Radix(width) && BigEndian(m, width) == BigEndian(n, width)
    ensures m == n
  {
    BigEndianRoundTrip(m, width);
    BigEndianRoundTrip(n, width);
  }

  lemma {:induction false} FromBigEndianRoundTrip(s: Bytes)
    ensures BigEndian(FromBigEndian(s), |s|) == s
  {
    if s != [] {
      var n := FromBigEndian(s);
      assert n / 256 == FromBigEndian(s[..|s| - 1]) && n % 256 == s[|s| - 1];
      FromBigEndianRoundTrip(s[..|s| - 1]);
    }
  }

  lemma {:induction false} BigEndianOrder(a: nat, b: nat, width: nat)
    requires a < Radix(width) && b < Radix(width)
    ensures Less(BigEndian(a, width), BigEndian(b, width)) <==> a < b
  {
    if width > 0 {
      BigEndianOrder(a / 256, b / 256, width - 1);
      LessSplit(BigEndian(a / 256, width - 1), [a % 256], BigEndian(b / 256, width - 1), [b % 256]);
      LessSingle(a % 256, b % 256);
      BigEndianRoundTrip(a / 256, width - 1);
      BigEndianRoundTrip(b / 256, width - 1);
    }
  }

  lemma Radix8()
    ensures Radix(8) == U64_MAX + 1 && Radix(4) == 0x1_0000_0000 && Radix(2) == 0x1_0000
  {
    assert Radix(1) == 256 && Radix(2) == 0x1_0000 && Radix(3) == 0x100_0000;
    assert Radix(5) == 0x100_0000_0000 && Radix(6) == 0x1_0000_0000_0000;
  }

  /** `u64::to_be_bytes`. */
  function U64Bytes(n: u64): (r: Bytes)
    ensures |r| == 8
  {
    Radix8();
    BigEndian(n, 8)
  }

  /** `u64::from_be_bytes`, on exactly eight bytes. */
  function U64Value(s: Bytes): u64
    requires |s| == 8
  {
    Radix8();
    FromBigEndian(s)
  }

  lemma U64RoundTrip(n: u64)
    ensures U64Value(U64Bytes(n)) == n
  {
    Radix8();
    BigEndianRoundTrip(n, 8);
  }

  lemma U64Onto(s: Bytes)
    requires |s| == 8
    ensures U64Bytes(U64Value(s)) == s
  {
    Radix8();
    FromBigEndianRoundTrip(s);
  }

  lemma U64Order(a: u64, b: u64)
    ensures Less(U64Bytes(a), U64Bytes(b)) <==> a < b
  {
    Radix8();
    BigEndianOrder(a, b, 8);
  }
}
