/**
 What a scan of a key prefix over versioned keys returns, whatever the keys,
 and exactly when that is the live keys in order.
 */
module PrefixScans {
  import opened Bytes
  import opened OrderedStore
  import opened Wrappers
  import opened VersionedKeys

  // ----- what a scan should return -----

  ghost function LiveKeys(t: Table, prefix: Bytes, ts: u64): set<Bytes> {
    set k | k in UserKeys(t) && prefix <= k && Visible(t, k, ts).Some?
  }

  /** Every key with the prefix that is live at `ts`, once, in key order, with its value. */
  ghost function LiveScan(t: Table, prefix: Bytes, ts: u64): seq<(Bytes, Bytes)> {
    var ks := SortedKeys(LiveKeys(t, prefix, ts));
    assert forall i :: 0 <= i < |ks| ==> ks[i] in ks;
    seq(|ks|, i requires 0 <= i < |ks| => (ks[i], Visible(t, ks[i], ts).value))
  }

  // ----- what it returns -----

  /** The walk of a prefix gets as far as `k`: no version of a key outside the prefix stands between its start and `k`. */
  ghost predicate Reached(t: Table, prefix: Bytes, k: Bytes) {
    && prefix <= ExtractKeyPrefix(k)
    && forall x :: x in t && AtMost(ScanStart(prefix), x) && Less(x, k) ==> prefix <= ExtractKeyPrefix(x)
  }

  /** The last version at or before `ts` that stands before `k` is of the same key. */
  ghost predicate Repeats(t: Table, k: Bytes, ts: u64)
    requires Versioned(t)
  {
    exists j :: j in t && ExtractKeyPrefix(j) == ExtractKeyPrefix(k) && Less(j, k) && Timestamp(j) <= ts
                && forall x :: x in t && Less(j, x) && Less(x, k) && Timestamp(x) <= ts ==>
                     ExtractKeyPrefix(x) == ExtractKeyPrefix(k)
  }

  ghost predicate Reported(t: Table, prefix: Bytes, ts: u64, k: Bytes)
    requires Versioned(t)
  {
    k in t && Reached(t, prefix, k) && Timestamp(k) <= ts && !Repeats(t, k, ts) && t[k] != []
  }

  ghost function ReportedKeys(t: Table, prefix: Bytes, ts: u64): set<Bytes>
    requires Versioned(t)
  {
    set k | k in t && Reported(t, prefix, ts, k)
  }

  ghost function Pairs(t: Table, ks: seq<Bytes>): (r: seq<(Bytes, Bytes)>)
    requires forall k :: k in ks ==> k in t
  {
    seq(|ks|, i requires 0 <= i < |ks| => (assert ks[i] in ks; (ExtractKeyPrefix(ks[i]), t[ks[i]])))
  }

  /** The reported versions in store order, each under its key. */
  ghost function Scan(t: Table, prefix: Bytes, ts: u64): seq<(Bytes, Bytes)>
    requires Versioned(t)
  {
    Pairs(t, SortedKeys(ReportedKeys(t, prefix, ts)))
  }

  // ----- when the two agree -----

  /** The version a reader at `ts` sees of a live key with the prefix. */
  ghost predicate IsLive(t: Table, prefix: Bytes, ts: u64, k: Bytes) {
    k in t && prefix <= ExtractKeyPrefix(k) && IsNewest(t, k, ts) && t[k] != []
  }

  /**
   No version a scan reports is an old one, no live version stands behind a key
   outside the prefix, and the reported versions stand in the order of their keys.
   */
  ghost predicate Orderly(t: Table, prefix: Bytes, ts: u64)
    requires Versioned(t)
  {
    && (forall k :: Reported(t, prefix, ts, k) ==> IsNewest(t, k, ts))
    && (forall k :: IsLive(t, prefix, ts, k) ==> Reached(t, prefix, k))
    && (forall a, b :: Reported(t, prefix, ts, a) && Reported(t, prefix, ts, b) && Less(a, b) ==>
          AtMost(ExtractKeyPrefix(a), ExtractKeyPrefix(b)))
  }

  /** The newest version repeats nothing. */
  lemma NewestReported(t: Table, prefix: Bytes, ts: u64, k: Bytes)
    requires Versioned(t) && IsLive(t, prefix, ts, k) && Reached(t, prefix, k)
    ensures Reported(t, prefix, ts, k)
  {
    hide Newest, ExtractKeyPrefix, DecodeVersionedTimestamp, Less;
    NewestAtMost(t, k, ts);
    forall j | j in t && ExtractKeyPrefix(j) == ExtractKeyPrefix(k) && Less(j, k) && Timestamp(j) <= ts ensures false {
      NewerSortsFirst(j, k);
      NewestOfStored(t, j, ts);
    }
  }

  lemma NewestAtMost(t: Table, k: Bytes, ts: u64)
    requires IsNewest(t, k, ts)
    ensures Timestamp(k) <= ts
  {
  }

  /** Two newest versions of one key are one. */
  lemma NewestOnce(t: Table, a: Bytes, b: Bytes, ts: u64)
    requires IsNewest(t, a, ts) && IsNewest(t, b, ts) && ExtractKeyPrefix(a) == ExtractKeyPrefix(b)
    ensures a == b
  {
    NewerSortsFirst(a, b);
  }

  lemma LiveVersion(t: Table, prefix: Bytes, ts: u64, u: Bytes) returns (k: Bytes)
    requires Versioned(t) && u in LiveKeys(t, prefix, ts)
    ensures IsLive(t, prefix, ts, k) && ExtractKeyPrefix(k) == u && Visible(t, u, ts) == Some(t[k])
  {
    var n := Newest(t, u, ts).value;
    k := EncodeVersionedKey(u, n);
    VersionedKeyRoundTrip(u, n);
  }

  lemma LiveVersionKey(t: Table, prefix: Bytes, ts: u64, k: Bytes)
    requires Versioned(t) && IsLive(t, prefix, ts, k)
    ensures ExtractKeyPrefix(k) in LiveKeys(t, prefix, ts) && Visible(t, ExtractKeyPrefix(k), ts) == Some(t[k])
  {
    VersionedKeyOnto(k);
    assert ExtractKeyPrefix(k) in UserKeys(t);
  }

  ghost function Firsts(c: seq<(Bytes, Bytes)>): (r: seq<Bytes>)
    ensures |r| == |c| && forall i :: 0 <= i < |c| ==> r[i] == c[i].0
  {
    seq(|c|, i requires 0 <= i < |c| => c[i].0)
  }

  lemma Lengths(t: Table, prefix: Bytes, ts: u64)
    requires Versioned(t)
    ensures |Scan(t, prefix, ts)| == |SortedKeys(ReportedKeys(t, prefix, ts))|
    ensures |LiveScan(t, prefix, ts)| == |SortedKeys(LiveKeys(t, prefix, ts))|
  {
    hide ReportedKeys, LiveKeys;
  }

  lemma LiveAt(t: Table, prefix: Bytes, ts: u64, i: nat)
    requires i < |SortedKeys(LiveKeys(t, prefix, ts))|
    ensures var u := SortedKeys(LiveKeys(t, prefix, ts))[i];
            && u in LiveKeys(t, prefix, ts)
            && Visible(t, u, ts).Some?
            && i < |LiveScan(t, prefix, ts)| && LiveScan(t, prefix, ts)[i] == (u, Visible(t, u, ts).value)
  {
    hide Visible;
    assert SortedKeys(LiveKeys(t, prefix, ts))[i] in LiveKeys(t, prefix, ts);
  }

  lemma ReportedAt(t: Table, prefix: Bytes, ts: u64, i: nat)
    requires Versioned(t) && i < |SortedKeys(ReportedKeys(t, prefix, ts))|
    ensures var k := SortedKeys(ReportedKeys(t, prefix, ts))[i];
            && Reported(t, prefix, ts, k)
            && |Scan(t, prefix, ts)| == |SortedKeys(ReportedKeys(t, prefix, ts))|
            && Scan(t, prefix, ts)[i] == (ExtractKeyPrefix(k), t[k])
  {
    hide Reported;
    assert SortedKeys(ReportedKeys(t, prefix, ts))[i] in ReportedKeys(t, prefix, ts);
  }

  lemma ReportedIndex(t: Table, prefix: Bytes, ts: u64, k: Bytes) returns (i: nat)
    requires Versioned(t) && Reported(t, prefix, ts, k)
    ensures i < |SortedKeys(ReportedKeys(t, prefix, ts))| && SortedKeys(ReportedKeys(t, prefix, ts))[i] == k
    ensures i < |Scan(t, prefix, ts)| && Scan(t, prefix, ts)[i] == (ExtractKeyPrefix(k), t[k])
  {
    hide Reached, Repeats, Less;
    assert k in ReportedKeys(t, prefix, ts);
    i :| 0 <= i < |SortedKeys(ReportedKeys(t, prefix, ts))| && SortedKeys(ReportedKeys(t, prefix, ts))[i] == k;
    ReportedAt(t, prefix, ts, i);
  }

  lemma OrderlyListed(t: Table, prefix: Bytes, ts: u64, i: nat)
    requires Versioned(t) && Orderly(t, prefix, ts) && i < |Scan(t, prefix, ts)|
    ensures Scan(t, prefix, ts)[i].0 in LiveKeys(t, prefix, ts)
  {
    hide Reported, Reached, IsNewest, ExtractKeyPrefix, LiveKeys, Scan, Less, ReportedKeys;
    Lengths(t, prefix, ts);
    ReportedAt(t, prefix, ts, i);
    var k := SortedKeys(ReportedKeys(t, prefix, ts))[i];
    ReportedIsLive(t, prefix, ts, k);
    LiveVersionKey(t, prefix, ts, k);
  }

  lemma OrderlySorted(t: Table, prefix: Bytes, ts: u64, i: nat, j: nat)
    requires Versioned(t) && Orderly(t, prefix, ts) && i < j < |Scan(t, prefix, ts)|
    ensures Less(Scan(t, prefix, ts)[i].0, Scan(t, prefix, ts)[j].0)
  {
    hide Reported, Reached, IsNewest, ExtractKeyPrefix, LiveKeys, Scan, Less, ReportedKeys;
    var ks := SortedKeys(ReportedKeys(t, prefix, ts));
    Lengths(t, prefix, ts);
    SortedKeysSorted(ReportedKeys(t, prefix, ts));
    ReportedAt(t, prefix, ts, i);
    ReportedAt(t, prefix, ts, j);
    KeysDiffer(t, ks[i], ks[j], ts);
  }

  lemma OrderlyKeys(t: Table, prefix: Bytes, ts: u64)
    requires Versioned(t) && Orderly(t, prefix, ts)
    ensures Firsts(Scan(t, prefix, ts)) == SortedKeys(LiveKeys(t, prefix, ts))
  {
    hide Reported, Reached, IsLive, IsNewest, ExtractKeyPrefix, LiveKeys, Scan, Less, Visible;
    var c := Scan(t, prefix, ts);
    SortedKeysSorted(LiveKeys(t, prefix, ts));
    forall i | 0 <= i < |c| ensures Firsts(c)[i] in LiveKeys(t, prefix, ts) {
      OrderlyListed(t, prefix, ts, i);
    }
    forall u | u in LiveKeys(t, prefix, ts) ensures u in Firsts(c) {
      var k := LiveVersion(t, prefix, ts, u);
      NewestReported(t, prefix, ts, k);
      var i := ReportedIndex(t, prefix, ts, k);
      assert Firsts(c)[i] == u;
    }
    forall i, j | 0 <= i < j < |c| ensures Less(Firsts(c)[i], Firsts(c)[j]) {
      OrderlySorted(t, prefix, ts, i, j);
    }
    SortedUnique(Firsts(c), SortedKeys(LiveKeys(t, prefix, ts)));
  }

  lemma ReportedIsLive(t: Table, prefix: Bytes, ts: u64, k: Bytes)
    requires Versioned(t) && Reported(t, prefix, ts, k) && IsNewest(t, k, ts)
    ensures IsLive(t, prefix, ts, k)
  {
  }

  lemma KeysDiffer(t: Table, a: Bytes, b: Bytes, ts: u64)
    requires IsNewest(t, a, ts) && IsNewest(t, b, ts) && Less(a, b)
    requires AtMost(ExtractKeyPrefix(a), ExtractKeyPrefix(b))
    ensures Less(ExtractKeyPrefix(a), ExtractKeyPrefix(b))
  {
    hide Newest;
    if ExtractKeyPrefix(a) == ExtractKeyPrefix(b) {
      NewestOnce(t, a, b, ts);
      LessAsymmetric(a, b);
    }
  }

  lemma OrderlyScan(t: Table, prefix: Bytes, ts: u64)
    requires Versioned(t) && Orderly(t, prefix, ts)
    ensures Scan(t, prefix, ts) == LiveScan(t, prefix, ts)
  {
    hide Reported, Reached, IsNewest, ExtractKeyPrefix, LiveKeys, Scan, LiveScan, Visible, Less;
    var c, live := Scan(t, prefix, ts), LiveScan(t, prefix, ts);
    OrderlyKeys(t, prefix, ts);
    Lengths(t, prefix, ts);
    assert |c| == |Firsts(c)| == |live|;
    forall i | 0 <= i < |c| ensures c[i] == live[i] {
      ReportedAt(t, prefix, ts, i);
      LiveAt(t, prefix, ts, i);
      var k := SortedKeys(ReportedKeys(t, prefix, ts))[i];
      ReportedIsLive(t, prefix, ts, k);
      LiveVersionKey(t, prefix, ts, k);
      assert Firsts(c)[i] == c[i].0;
    }
  }

  /** Where the scan is the live scan, its keys stand in order, each once. */
  lemma ScanKeysSorted(t: Table, prefix: Bytes, ts: u64, a: Bytes, b: Bytes)
    requires Versioned(t) && Scan(t, prefix, ts) == LiveScan(t, prefix, ts)
    requires Reported(t, prefix, ts, a) && Reported(t, prefix, ts, b) && Less(a, b)
    ensures Less(ExtractKeyPrefix(a), ExtractKeyPrefix(b))
  {
    hide Reported, ExtractKeyPrefix, LiveKeys, Scan, LiveScan, Visible, Less;
    SortedKeysSorted(ReportedKeys(t, prefix, ts));
    SortedKeysSorted(LiveKeys(t, prefix, ts));
    Lengths(t, prefix, ts);
    var i := ReportedIndex(t, prefix, ts, a);
    var j := ReportedIndex(t, prefix, ts, b);
    LiveAt(t, prefix, ts, i);
    LiveAt(t, prefix, ts, j);
    SortedPosition(SortedKeys(ReportedKeys(t, prefix, ts)), i, j);
    SortedPosition(SortedKeys(LiveKeys(t, prefix, ts)), i, j);
  }

  /** Where the scan is the live scan, the live version of a key it lists was reached. */
  lemma ListedReached(t: Table, prefix: Bytes, ts: u64, k: Bytes)
    requires Versioned(t) && Scan(t, prefix, ts) == LiveScan(t, prefix, ts) && IsLive(t, prefix, ts, k)
    ensures Reached(t, prefix, k)
  {
    hide IsNewest, ExtractKeyPrefix, LiveKeys, Scan, LiveScan, Visible, Less, Repeats, ReportedKeys, Reached;
    LiveVersionKey(t, prefix, ts, k);
    var u := ExtractKeyPrefix(k);
    Lengths(t, prefix, ts);
    var i :| 0 <= i < |SortedKeys(LiveKeys(t, prefix, ts))| && SortedKeys(LiveKeys(t, prefix, ts))[i] == u;
    LiveAt(t, prefix, ts, i);
    ReportedAt(t, prefix, ts, i);
    var r := SortedKeys(ReportedKeys(t, prefix, ts))[i];
    NotNewer(t, k, r, ts);
    ReachedEarlier(t, prefix, k, r);
  }

  lemma ReachedEarlier(t: Table, prefix: Bytes, k: Bytes, r: Bytes)
    requires Reached(t, prefix, r) && prefix <= ExtractKeyPrefix(k) && (k == r || Less(k, r))
    ensures Reached(t, prefix, k)
  {
    hide Less, ExtractKeyPrefix;
    forall x | x in t && AtMost(ScanStart(prefix), x) && Less(x, k) ensures prefix <= ExtractKeyPrefix(x) {
      if Less(k, r) {
        LessTransitive(x, k, r);
      }
    }
  }

  lemma NotNewer(t: Table, k: Bytes, r: Bytes, ts: u64)
    requires Versioned(t) && IsNewest(t, k, ts) && r in t && Timestamp(r) <= ts
    requires ExtractKeyPrefix(r) == ExtractKeyPrefix(k)
    ensures r == k || Less(k, r)
  {
    hide Newest;
    NewestOfStored(t, r, ts);
    NewerSortsFirst(k, r);
  }

  /** The scan lists the live keys in order if and only if the stored versions are orderly. */
  lemma ScanExactIff(t: Table, prefix: Bytes, ts: u64)
    requires Versioned(t)
    ensures Scan(t, prefix, ts) == LiveScan(t, prefix, ts) <==> Orderly(t, prefix, ts)
  {
    hide IsNewest, ExtractKeyPrefix, LiveKeys, Scan, LiveScan, Less, Reached, Repeats;
    if Orderly(t, prefix, ts) {
      OrderlyScan(t, prefix, ts);
    } else if Scan(t, prefix, ts) == LiveScan(t, prefix, ts) {
      forall k | IsLive(t, prefix, ts, k) ensures Reached(t, prefix, k) {
        ListedReached(t, prefix, ts, k);
      }
      forall a, b | Reported(t, prefix, ts, a) && Reported(t, prefix, ts, b) && Less(a, b)
        ensures AtMost(ExtractKeyPrefix(a), ExtractKeyPrefix(b))
      {
        ScanKeysSorted(t, prefix, ts, a, b);
      }
      forall k | Reported(t, prefix, ts, k) ensures IsNewest(t, k, ts) {
        ListedNewest(t, prefix, ts, k);
      }
    }
  }

  lemma ListedNewest(t: Table, prefix: Bytes, ts: u64, k: Bytes)
    requires Versioned(t) && Scan(t, prefix, ts) == LiveScan(t, prefix, ts) && Reported(t, prefix, ts, k)
    ensures IsNewest(t, k, ts)
  {
    hide IsNewest, ExtractKeyPrefix, LiveKeys, Scan, LiveScan, Visible, Less, Repeats, Reached;
    var i := ReportedIndex(t, prefix, ts, k);
    var u := ExtractKeyPrefix(k);
    Lengths(t, prefix, ts);
    LiveAt(t, prefix, ts, i);
    assert SortedKeys(LiveKeys(t, prefix, ts))[i] == u;
    assert u in LiveKeys(t, prefix, ts);
    var c := LiveVersion(t, prefix, ts, u);
    ListedReached(t, prefix, ts, c);
    NewestReported(t, prefix, ts, c);
    NotNewer(t, c, k, ts);
    if Less(c, k) {
      ScanKeysSorted(t, prefix, ts, c, k);
      LessAsymmetric(u, u);
    }
  }

  /** With prefix-free keys every scan is orderly. */
  lemma PrefixFreeOrderly(t: Table, prefix: Bytes, ts: u64)
    requires Versioned(t) && PrefixFree(UserKeys(t))
    ensures Orderly(t, prefix, ts)
  {
    hide IsNewest, ExtractKeyPrefix, Less, PrefixFree, UserKeys;
    forall k | Reported(t, prefix, ts, k) ensures IsNewest(t, k, ts) {
      if !IsNewest(t, k, ts) {
        OlderRepeats(t, k, ts);
      }
    }
    forall k | IsLive(t, prefix, ts, k) ensures Reached(t, prefix, k) {
      PrefixFreeReached(t, prefix, k);
    }
    forall a, b | Reported(t, prefix, ts, a) && Reported(t, prefix, ts, b) && Less(a, b)
      ensures AtMost(ExtractKeyPrefix(a), ExtractKeyPrefix(b))
    {
      if ExtractKeyPrefix(a) != ExtractKeyPrefix(b) {
        KeysDecideOrder(t, a, b);
      }
    }
  }

  /** A version that is not the newest stands behind a newer one. */
  lemma NewerVersion(t: Table, k: Bytes, ts: u64) returns (c: Bytes)
    requires Versioned(t) && k in t && Timestamp(k) <= ts && !IsNewest(t, k, ts)
    ensures c in t && ExtractKeyPrefix(c) == ExtractKeyPrefix(k) && Less(c, k) && Timestamp(c) <= ts
  {
    NewestOfStored(t, k, ts);
    c := EncodeVersionedKey(ExtractKeyPrefix(k), Newest(t, ExtractKeyPrefix(k), ts).value);
    VersionedKeyRoundTrip(ExtractKeyPrefix(k), Newest(t, ExtractKeyPrefix(k), ts).value);
    NewerSortsFirst(c, k);
  }

  /** With prefix-free keys an older version stands right behind a newer one of its key. */
  lemma OlderRepeats(t: Table, k: Bytes, ts: u64)
    requires Versioned(t) && PrefixFree(UserKeys(t)) && k in t && Timestamp(k) <= ts && !IsNewest(t, k, ts)
    ensures Repeats(t, k, ts)
  {
    hide IsNewest, ExtractKeyPrefix, Less, PrefixFree, UserKeys;
    var c := NewerVersion(t, k, ts);
    forall x | x in t && Less(c, x) && Less(x, k) ensures ExtractKeyPrefix(x) == ExtractKeyPrefix(k) {
      VersionsContiguous(t, c, x, k);
    }
  }

  lemma PrefixFreeReached(t: Table, prefix: Bytes, k: Bytes)
    requires Versioned(t) && PrefixFree(UserKeys(t)) && k in t && prefix <= ExtractKeyPrefix(k)
    ensures Reached(t, prefix, k)
  {
    hide ExtractKeyPrefix, Less, PrefixFree, UserKeys;
    forall x | x in t && AtMost(ScanStart(prefix), x) && Less(x, k) ensures prefix <= ExtractKeyPrefix(x) {
      if !(prefix <= ExtractKeyPrefix(x)) {
        ScanMayStop(t, prefix, x, k);
      }
    }
  }

  /** The versions of `a` at 3, deleted, and at 1, with a version at 4 of a longer key between them. */
  ghost function RevivalTable(): Table {
    map[EncodeVersionedKey([97], 3) := [], EncodeVersionedKey(EncodeVersionedKey([97], 2), 4) := [9],
        EncodeVersionedKey([97], 1) := [1]]
  }

  lemma RevivalOrder()
    ensures var d, b, a := EncodeVersionedKey([97], 3), EncodeVersionedKey(EncodeVersionedKey([97], 2), 4),
              EncodeVersionedKey([97], 1);
            Less(d, b) && Less(b, a)
  {
    hide Less;
    var d, e, a := EncodeVersionedKey([97], 3), EncodeVersionedKey([97], 2), EncodeVersionedKey([97], 1);
    var y := U64Bytes(U64_MAX - 4);
    VersionedKeyOrder([97], 3, 2);
    VersionedKeyOrder([97], 2, 1);
    LessSplit(d, [], e, y);
    LessSplit(e, y, a, []);
    assert d + [] == d && a + [] == a;
  }

  /** Without prefix-free keys a scan can list a deleted key, with an older value. */
  lemma ExtendingKeyRevives()
    ensures var t := RevivalTable();
            Versioned(t) && Visible(t, [97], 5) == None && ([97], [1]) in Scan(t, [97], 5)
  {
    hide U64Bytes, U64Value, ExtractKeyPrefix, DecodeVersionedTimestamp, Less, Scan;
    var d, b, a := EncodeVersionedKey([97], 3), EncodeVersionedKey(EncodeVersionedKey([97], 2), 4), EncodeVersionedKey([97], 1);
    var t := RevivalTable();
    VersionedKeyRoundTrip([97], 3);
    VersionedKeyRoundTrip(EncodeVersionedKey([97], 2), 4);
    VersionedKeyRoundTrip([97], 1);
    RevivalOrder();
    LessAsymmetric(d, b);
    LessAsymmetric(b, a);
    RevivalDeleted();
    assert |EncodeVersionedKey([97], 2)| == 9 && b in t;
    forall j | j in t && ExtractKeyPrefix(j) == [97] && Less(j, a) ensures j == d {
      if j == a {
        LessAsymmetric(a, a);
      }
    }
    assert !Repeats(t, a, 5);
    assert Reached(t, [97], a);
    var i := ReportedIndex(t, [97], 5, a);
    assert Scan(t, [97], 5)[i] == ([97], [1]);
  }

  lemma RevivalDeleted()
    ensures Visible(RevivalTable(), [97], 5) == None
  {
    hide U64Bytes, U64Value, ExtractKeyPrefix, DecodeVersionedTimestamp;
    var t := RevivalTable();
    assert |EncodeVersionedKey(EncodeVersionedKey([97], 2), 4)| == 17;
    VersionedKeyRoundTrip([97], 3);
    forall u: u64 | 3 <= u <= 5 ensures EncodeVersionedKey([97], u) in t <==> u == 3 {
      assert |EncodeVersionedKey([97], u)| == 9;
      VersionedKeyRoundTrip([97], u);
      VersionedKeyRoundTrip([97], 1);
    }
    assert Newest(t, [97], 3) == Some(3);
    assert Newest(t, [97], 4) == Some(3);
    assert EncodeVersionedKey([97], 3) != EncodeVersionedKey([97], 1) by {
      VersionedKeyRoundTrip([97], 1);
    }
    assert t[EncodeVersionedKey([97], 3)] == [];
  }

  // ----- the walk -----

  /** Everything before position `i` is inside the prefix. */
  ghost predicate WalkedInside(t: Table, prefix: Bytes, i: nat) {
    var iter := KeysFrom(t.Keys, ScanStart(prefix));
    i <= |iter| && forall j :: 0 <= j < i ==> prefix <= ExtractKeyPrefix(iter[j])
  }

  lemma WalkReaches(t: Table, prefix: Bytes, i: nat)
    requires WalkedInside(t, prefix, i + 1)
    ensures Reached(t, prefix, KeysFrom(t.Keys, ScanStart(prefix))[i])
  {
    hide KeysFrom, ExtractKeyPrefix, Less;
    var iter := KeysFrom(t.Keys, ScanStart(prefix));
    forall x | x in t && AtMost(ScanStart(prefix), x) && Less(x, iter[i]) ensures prefix <= ExtractKeyPrefix(x) {
      var n := KeyMet(t.Keys, ScanStart(prefix), x);
      MetInOrder(t.Keys, ScanStart(prefix), n, i);
    }
  }

  /** Where the walk ends, every version it can reach has been met. */
  lemma WalkEnds(t: Table, prefix: Bytes, i: nat, k: Bytes)
    requires Versioned(t) && WalkedInside(t, prefix, i) && k in t && Reached(t, prefix, k)
    requires var iter := KeysFrom(t.Keys, ScanStart(prefix));
             i < |iter| ==> !(prefix <= ExtractKeyPrefix(iter[i]))
    ensures k in KeysFrom(t.Keys, ScanStart(prefix))[..i]
  {
    hide KeysFrom, ExtractKeyPrefix, Less;
    ScanStartComesFirst(prefix, k);
    var iter := KeysFrom(t.Keys, ScanStart(prefix));
    var n := KeyMet(t.Keys, ScanStart(prefix), k);
    assert i < |iter| ==> iter[i] in iter;
    if n >= i {
      MetInOrder(t.Keys, ScanStart(prefix), i, n);
    }
  }

  /** The key of the last entry at or before `ts`: what the scan keeps in its last-key variable. */
  ghost function LastSeen(iter: seq<Bytes>, ts: u64): (r: Option<Bytes>)
    requires forall k :: k in iter ==> |k| >= 8
  {
    if iter == [] then None
    else if Timestamp(iter[|iter| - 1]) <= ts then Some(ExtractKeyPrefix(iter[|iter| - 1]))
    else LastSeen(iter[..|iter| - 1], ts)
  }

  lemma {:induction false} LastSeenWitness(iter: seq<Bytes>, ts: u64) returns (n: nat)
    requires forall k :: k in iter ==> |k| >= 8
    requires LastSeen(iter, ts).Some?
    ensures n < |iter| && Timestamp(iter[n]) <= ts && LastSeen(iter, ts) == Some(ExtractKeyPrefix(iter[n]))
    ensures forall j :: n < j < |iter| ==> Timestamp(iter[j]) > ts
  {
    n := |iter| - 1;
    if Timestamp(iter[n]) > ts {
      n := LastSeenWitness(iter[..n], ts);
    }
  }

  lemma {:induction false} LastSeenSomething(iter: seq<Bytes>, ts: u64, j: nat)
    requires forall k :: k in iter ==> |k| >= 8
    requires j < |iter| && Timestamp(iter[j]) <= ts
    ensures LastSeen(iter, ts).Some?
  {
    var n := |iter| - 1;
    if Timestamp(iter[n]) > ts {
      LastSeenSomething(iter[..n], ts, j);
    }
  }

  lemma RepeatsWereSeen(t: Table, prefix: Bytes, iter: seq<Bytes>, i: nat, ts: u64, j: Bytes)
    requires Versioned(t) && iter == KeysFrom(t.Keys, ScanStart(prefix))
    requires i < |iter| && prefix <= ExtractKeyPrefix(iter[i])
    requires j in t && ExtractKeyPrefix(j) == ExtractKeyPrefix(iter[i]) && Less(j, iter[i]) && Timestamp(j) <= ts
    requires forall x :: x in t && Less(j, x) && Less(x, iter[i]) && Timestamp(x) <= ts ==>
               ExtractKeyPrefix(x) == ExtractKeyPrefix(iter[i])
    ensures LastSeen(iter[..i], ts) == Some(ExtractKeyPrefix(iter[i]))
  {
    hide KeysFrom, ExtractKeyPrefix, DecodeVersionedTimestamp, Less, LastSeen, Timestamp, ScanStart;
    ScanStartComesFirst(prefix, j);
    var n := KeyMet(t.Keys, ScanStart(prefix), j);
    MetInOrder(t.Keys, ScanStart(prefix), n, i);
    LastSeenSomething(iter[..i], ts, n);
    var m := LastSeenWitness(iter[..i], ts);
    MetInOrder(t.Keys, ScanStart(prefix), n, m);
    MetInOrder(t.Keys, ScanStart(prefix), m, i);
    assert iter[m] in iter;
  }

  lemma SeenAreRepeated(t: Table, prefix: Bytes, iter: seq<Bytes>, i: nat, ts: u64)
    requires Versioned(t) && iter == KeysFrom(t.Keys, ScanStart(prefix)) && i < |iter|
    requires LastSeen(iter[..i], ts) == Some(ExtractKeyPrefix(iter[i]))
    ensures Repeats(t, iter[i], ts)
  {
    hide KeysFrom, ExtractKeyPrefix, DecodeVersionedTimestamp, Less, LastSeen, Timestamp, ScanStart;
    var m := LastSeenWitness(iter[..i], ts);
    MetInOrder(t.Keys, ScanStart(prefix), m, i);
    assert iter[m] in iter;
    forall x | x in t && Less(iter[m], x) && Less(x, iter[i]) && Timestamp(x) <= ts ensures false {
      LaterThanStart(ScanStart(prefix), iter[m], x);
      var p := KeyMet(t.Keys, ScanStart(prefix), x);
      MetInOrder(t.Keys, ScanStart(prefix), m, p);
      MetInOrder(t.Keys, ScanStart(prefix), p, i);
    }
  }

  /** The last-key variable tells whether the next version repeats the last one seen. */
  lemma ScanStepKnowsRepeats(t: Table, prefix: Bytes, i: nat, ts: u64)
    requires Versioned(t)
    requires var iter := KeysFrom(t.Keys, ScanStart(prefix)); i < |iter| && prefix <= ExtractKeyPrefix(iter[i])
    ensures var iter := KeysFrom(t.Keys, ScanStart(prefix));
            Repeats(t, iter[i], ts) <==> LastSeen(iter[..i], ts) == Some(ExtractKeyPrefix(iter[i]))
  {
    hide KeysFrom, ExtractKeyPrefix, DecodeVersionedTimestamp, Less, LastSeen, Timestamp, ScanStart;
    var iter := KeysFrom(t.Keys, ScanStart(prefix));
    var k := iter[i];
    if Repeats(t, k, ts) {
      var j :| j in t && ExtractKeyPrefix(j) == ExtractKeyPrefix(k) && Less(j, k) && Timestamp(j) <= ts
               && forall x :: x in t && Less(j, x) && Less(x, k) && Timestamp(x) <= ts ==>
                    ExtractKeyPrefix(x) == ExtractKeyPrefix(k);
      RepeatsWereSeen(t, prefix, iter, i, ts, j);
    } else if LastSeen(iter[..i], ts) == Some(ExtractKeyPrefix(k)) {
      SeenAreRepeated(t, prefix, iter, i, ts);
    }
  }

  lemma LaterThanStart(start: Bytes, a: Bytes, b: Bytes)
    requires AtMost(start, a) && Less(a, b)
    ensures AtMost(start, b)
  {
    if start != a {
      LessTransitive(start, a, b);
    }
  }

  /** What a prefix scan knows before position `i`: `taken` are the versions whose pairs it has listed. */
  ghost predicate ScanState(t: Table, prefix: Bytes, i: nat, ts: u64, taken: seq<Bytes>, lastKey: Option<Bytes>)
    requires Versioned(t)
  {
    var iter := KeysFrom(t.Keys, ScanStart(prefix));
    && WalkedInside(t, prefix, i)
    && lastKey == LastSeen(iter[..i], ts)
    && StrictlySorted(taken)
    && forall k :: k in taken <==> k in iter[..i] && Reported(t, prefix, ts, k)
  }

  lemma ScanBegins(t: Table, prefix: Bytes, ts: u64)
    requires Versioned(t)
    ensures ScanState(t, prefix, 0, ts, [], None)
  {
  }

  lemma ScanGoesOn(t: Table, prefix: Bytes, i: nat, ts: u64, taken: seq<Bytes>, lastKey: Option<Bytes>)
    requires Versioned(t) && ScanState(t, prefix, i, ts, taken, lastKey) && i < |KeysFrom(t.Keys, ScanStart(prefix))|
    requires prefix <= ExtractKeyPrefix(KeysFrom(t.Keys, ScanStart(prefix))[i])
    ensures WalkedInside(t, prefix, i + 1)
  {
    hide KeysFrom, ExtractKeyPrefix, Reported, LastSeen;
  }

  lemma LastSeenStep(iter: seq<Bytes>, i: nat, ts: u64)
    requires i < |iter| && forall k :: k in iter ==> |k| >= 8
    ensures LastSeen(iter[..i + 1], ts) ==
              if Timestamp(iter[i]) <= ts then Some(ExtractKeyPrefix(iter[i])) else LastSeen(iter[..i], ts)
  {
    hide ExtractKeyPrefix, DecodeVersionedTimestamp;
    assert iter[..i + 1][..i] == iter[..i];
  }

  lemma ScanStep(t: Table, prefix: Bytes, i: nat, ts: u64, taken: seq<Bytes>, lastKey: Option<Bytes>)
    requires Versioned(t) && ScanState(t, prefix, i, ts, taken, lastKey) && WalkedInside(t, prefix, i + 1)
    ensures var k := KeysFrom(t.Keys, ScanStart(prefix))[i];
            var key := ExtractKeyPrefix(k);
            if lastKey != Some(key) && Timestamp(k) <= ts then
              ScanState(t, prefix, i + 1, ts, if t[k] == [] then taken else taken + [k], Some(key))
            else
              ScanState(t, prefix, i + 1, ts, taken, lastKey)
  {
    hide KeysFrom, ExtractKeyPrefix, DecodeVersionedTimestamp, Less, Reached, Repeats, LastSeen, Timestamp, ScanStart;
    var iter := KeysFrom(t.Keys, ScanStart(prefix));
    var k := iter[i];
    WalkReaches(t, prefix, i);
    ScanStepKnowsRepeats(t, prefix, i, ts);
    LastSeenStep(iter, i, ts);
    assert iter[..i + 1] == iter[..i] + [k];
    MetLast(t.Keys, ScanStart(prefix), taken, i);
  }

  lemma MetLast(keys: set<Bytes>, start: Bytes, taken: seq<Bytes>, i: nat)
    requires i < |KeysFrom(keys, start)| && StrictlySorted(taken)
    requires forall k :: k in taken ==> k in KeysFrom(keys, start)[..i]
    ensures StrictlySorted(taken + [KeysFrom(keys, start)[i]])
  {
    hide KeysFrom, Less;
    var iter := KeysFrom(keys, start);
    forall n | 0 <= n < |taken| ensures Less(taken[n], iter[i]) {
      assert taken[n] in taken;
      var m :| 0 <= m < i && iter[..i][m] == taken[n];
      MetInOrder(keys, start, m, i);
    }
  }

  lemma ScanDone(t: Table, prefix: Bytes, i: nat, ts: u64, taken: seq<Bytes>, lastKey: Option<Bytes>)
    requires Versioned(t) && ScanState(t, prefix, i, ts, taken, lastKey)
    requires var iter := KeysFrom(t.Keys, ScanStart(prefix));
             i < |iter| ==> !(prefix <= ExtractKeyPrefix(iter[i]))
    ensures taken == SortedKeys(ReportedKeys(t, prefix, ts))
  {
    hide KeysFrom, ExtractKeyPrefix, DecodeVersionedTimestamp, Less, Repeats, Reached, LastSeen;
    SortedKeysSorted(ReportedKeys(t, prefix, ts));
    forall k | k in ReportedKeys(t, prefix, ts) ensures k in taken {
      WalkEnds(t, prefix, i, k);
    }
    SortedUnique(taken, SortedKeys(ReportedKeys(t, prefix, ts)));
  }
}
