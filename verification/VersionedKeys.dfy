/**
 Versioned keys, `key ++ !timestamp`, and what a column family full of them
 means: for every key, its versions by timestamp.
 */
module VersionedKeys {
  import opened Bytes
  import opened OrderedStore
  import opened Wrappers

  /** The inverted timestamp makes the newest version of a key sort first. */
  function EncodeVersionedKey(key: Bytes, timestamp: u64): Bytes {
    key + U64Bytes(U64_MAX - timestamp)
  }

  function DecodeVersionedTimestamp(versionedKey: Bytes): Option<u64> {
    if |versionedKey| < 8 then None
    else Some(U64_MAX - U64Value(versionedKey[|versionedKey| - 8..]))
  }

  function ExtractKeyPrefix(versionedKey: Bytes): Bytes {
    if |versionedKey| >= 8 then versionedKey[..|versionedKey| - 8] else versionedKey
  }

  lemma VersionedKeyRoundTrip(key: Bytes, timestamp: u64)
    ensures DecodeVersionedTimestamp(EncodeVersionedKey(key, timestamp)) == Some(timestamp)
    ensures ExtractKeyPrefix(EncodeVersionedKey(key, timestamp)) == key
  {
    var k := EncodeVersionedKey(key, timestamp);
    assert k[|k| - 8..] == U64Bytes(U64_MAX - timestamp);
    U64RoundTrip(U64_MAX - timestamp);
  }

  /** Every string of at least eight bytes is the versioned key of exactly one key and timestamp. */
  lemma VersionedKeyOnto(k: Bytes)
    requires |k| >= 8
    ensures k == EncodeVersionedKey(ExtractKeyPrefix(k), DecodeVersionedTimestamp(k).value)
  {
    U64Onto(k[|k| - 8..]);
  }

  lemma VersionedKeyOrder(key: Bytes, a: u64, b: u64)
    ensures Less(EncodeVersionedKey(key, a), EncodeVersionedKey(key, b)) <==> a > b
  {
    LessCommonHead(key, U64Bytes(U64_MAX - a), U64Bytes(U64_MAX - b));
    U64Order(U64_MAX - a, U64_MAX - b);
  }

  // ----- tables -----

  type Table = map<Bytes, Bytes>

  /** Every stored key carries a timestamp. */
  ghost predicate Versioned(t: Table) {
    forall k :: k in t ==> |k| >= 8
  }

  ghost function UserKeys(t: Table): set<Bytes> {
    set k | k in t :: ExtractKeyPrefix(k)
  }

  /** No key extends another one, as with the 32-byte node and edge keys. */
  ghost predicate PrefixFree(keys: set<Bytes>) {
    forall a, b :: a in keys && b in keys && a <= b ==> a == b
  }

  function Timestamp(k: Bytes): u64
    requires |k| >= 8
  {
    DecodeVersionedTimestamp(k).value
  }

  /** The newest version of `key` at or before `ts`, found by counting down. */
  ghost function Newest(t: Table, key: Bytes, ts: u64): (r: Option<u64>)
    ensures r.Some? ==> r.value <= ts && EncodeVersionedKey(key, r.value) in t
    decreases ts
  {
    if EncodeVersionedKey(key, ts) in t then Some(ts)
    else if ts == 0 then None
    else Newest(t, key, ts - 1)
  }

  lemma {:induction false} NewestIsGreatest(t: Table, key: Bytes, ts: u64, u: u64)
    requires u <= ts && EncodeVersionedKey(key, u) in t
    ensures Newest(t, key, ts).Some? && u <= Newest(t, key, ts).value
    decreases ts
  {
    if EncodeVersionedKey(key, ts) !in t {
      NewestIsGreatest(t, key, ts - 1, u);
    }
  }

  /** What a reader at snapshot `ts` sees of `key`; an empty value is a tombstone. */
  ghost function Visible(t: Table, key: Bytes, ts: u64): Option<Bytes> {
    match Newest(t, key, ts)
    case None => None
    case Some(u) =>
      var v := t[EncodeVersionedKey(key, u)];
      if v == [] then None else Some(v)
  }

  /** `k` is the version a reader at `ts` sees of its key. */
  ghost predicate IsNewest(t: Table, k: Bytes, ts: u64) {
    |k| >= 8 && Newest(t, ExtractKeyPrefix(k), ts) == Some(Timestamp(k))
  }

  lemma NewestOfStored(t: Table, k: Bytes, ts: u64)
    requires k in t && |k| >= 8 && Timestamp(k) <= ts
    ensures Newest(t, ExtractKeyPrefix(k), ts).Some?
    ensures Timestamp(k) <= Newest(t, ExtractKeyPrefix(k), ts).value
  {
    VersionedKeyOnto(k);
    NewestIsGreatest(t, ExtractKeyPrefix(k), ts, Timestamp(k));
  }

  /** Two versions of one key: the newer one sorts first. */
  lemma NewerSortsFirst(a: Bytes, b: Bytes)
    requires |a| >= 8 && |b| >= 8 && ExtractKeyPrefix(a) == ExtractKeyPrefix(b)
    ensures Less(a, b) <==> Timestamp(a) > Timestamp(b)
    ensures a == b <==> Timestamp(a) == Timestamp(b)
  {
    VersionedKeyOnto(a);
    VersionedKeyOnto(b);
    VersionedKeyOrder(ExtractKeyPrefix(a), Timestamp(a), Timestamp(b));
  }

  /** With prefix-free keys, no foreign key sorts between two versions of one key. */
  lemma VersionsContiguous(t: Table, a: Bytes, b: Bytes, c: Bytes)
    requires Versioned(t) && PrefixFree(UserKeys(t))
    requires a in t && b in t && c in t
    requires AtMost(a, b) && AtMost(b, c) && ExtractKeyPrefix(a) == ExtractKeyPrefix(c)
    ensures ExtractKeyPrefix(b) == ExtractKeyPrefix(a)
  {
    var p, q := ExtractKeyPrefix(a), ExtractKeyPrefix(b);
    PrefixConvex(p, a, b, c);
    PrefixesComparable(p, q, b);
    assert p in UserKeys(t) && q in UserKeys(t);
  }

  /** With prefix-free keys, versions of different keys sort as the keys do. */
  lemma KeysDecideOrder(t: Table, a: Bytes, b: Bytes)
    requires Versioned(t) && PrefixFree(UserKeys(t)) && a in t && b in t
    requires ExtractKeyPrefix(a) != ExtractKeyPrefix(b)
    ensures Less(a, b) <==> Less(ExtractKeyPrefix(a), ExtractKeyPrefix(b))
  {
    var p, q := ExtractKeyPrefix(a), ExtractKeyPrefix(b);
    assert p in UserKeys(t) && q in UserKeys(t);
    assert a == p + a[|p|..] && b == q + b[|q|..];
    LessDecided(p, a[|p|..], q, b[|q|..]);
  }

  /** Where every scan of a key, or of a key prefix, starts. */
  function ScanStart(prefix: Bytes): Bytes {
    EncodeVersionedKey(prefix, U64_MAX)
  }

  lemma ZerosComeFirst(s: Bytes)
    requires |s| >= 8
    ensures AtMost(U64Bytes(0), s)
  {
    var head := s[..8];
    U64Onto(head);
    assert s == head + s[8..] && U64Bytes(0) == U64Bytes(0) + [];
    if U64Value(head) == 0 {
      PrefixAtMost(U64Bytes(0), s);
    } else {
      U64Order(0, U64Value(head));
      LessSplit(U64Bytes(0), [], head, s[8..]);
    }
  }

  lemma ScanStartComesFirst(prefix: Bytes, k: Bytes)
    requires |k| >= 8 && prefix <= ExtractKeyPrefix(k)
    ensures AtMost(ScanStart(prefix), k)
  {
    assert k == prefix + k[|prefix|..];
    ZerosComeFirst(k[|prefix|..]);
    LessCommonHead(prefix, U64Bytes(0), k[|prefix|..]);
  }

  /**
   Once a scan meets a key outside its prefix nothing after it is inside, so
   stopping there loses nothing.
   */
  lemma ScanMayStop(t: Table, prefix: Bytes, b: Bytes, c: Bytes)
    requires Versioned(t) && PrefixFree(UserKeys(t)) && b in t && c in t
    requires AtMost(ScanStart(prefix), b) && AtMost(b, c)
    requires !(prefix <= ExtractKeyPrefix(b))
    ensures !(prefix <= ExtractKeyPrefix(c))
  {
    assert ExtractKeyPrefix(b) in UserKeys(t) && ExtractKeyPrefix(c) in UserKeys(t);
    if prefix <= ExtractKeyPrefix(c) {
      assert prefix <= c;
      PrefixConvex(prefix, ScanStart(prefix), b, c);
      PrefixesComparable(prefix, ExtractKeyPrefix(b), b);
    }
  }
}
