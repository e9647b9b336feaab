/**
 Garbage collection of versions: what is garbage at a watermark, what the
 collector takes, and what readers can notice of it.
 */
module VersionGc {
  import opened Bytes
  import opened OrderedStore
  import opened Wrappers
  import opened VersionedKeys
  import opened PrefixScans

  /** A version inside the prefix that is at or before the watermark and not the newest such. */
  ghost predicate IsGarbage(t: Table, k: Bytes, prefix: Bytes, watermark: u64)
    requires Versioned(t) && k in t
  {
    prefix <= ExtractKeyPrefix(k) && Timestamp(k) <= watermark && !IsNewest(t, k, watermark)
  }

  ghost function Garbage(t: Table, prefix: Bytes, watermark: u64): set<Bytes>
    requires Versioned(t)
  {
    set k | k in t && IsGarbage(t, k, prefix, watermark)
  }

  /** Removing garbage, all of it or some, leaves the newest version of every key at or above the watermark. */
  lemma {:induction false} NewestSurvivesGc(t: Table, prefix: Bytes, watermark: u64, removed: set<Bytes>, key: Bytes,
                                            ts: u64)
    requires Versioned(t) && watermark <= ts && removed <= Garbage(t, prefix, watermark)
    ensures Newest(t - removed, key, ts) == Newest(t, key, ts)
    decreases ts
  {
    hide U64Bytes, U64Value, ExtractKeyPrefix, DecodeVersionedTimestamp;
    var t' := t - removed;
    var k := EncodeVersionedKey(key, ts);
    VersionedKeyRoundTrip(key, ts);
    if ts > watermark {
      assert k in t <==> k in t';
      if k !in t {
        NewestSurvivesGc(t, prefix, watermark, removed, key, ts - 1);
      }
    } else if Newest(t, key, ts).Some? {
      var u := Newest(t, key, ts).value;
      VersionedKeyRoundTrip(key, u);
      assert EncodeVersionedKey(key, u) in t';
      NewestIsGreatest(t', key, ts, u);
      NewestIsGreatest(t, key, ts, Newest(t', key, ts).value);
    } else if Newest(t', key, ts).Some? {
      NewestIsGreatest(t, key, ts, Newest(t', key, ts).value);
    }
  }

  /** Removing garbage, all of it or some, changes no visible value and no live scan at or above the watermark. */
  lemma GcInvisible(t: Table, gcPrefix: Bytes, watermark: u64, removed: set<Bytes>, ts: u64)
    requires Versioned(t) && watermark <= ts && removed <= Garbage(t, gcPrefix, watermark)
    ensures var t' := t - removed;
            && (forall key :: Visible(t', key, ts) == Visible(t, key, ts))
            && (forall prefix :: LiveScan(t', prefix, ts) == LiveScan(t, prefix, ts))
  {
    var t' := t - removed;
    forall key ensures Visible(t', key, ts) == Visible(t, key, ts) {
      NewestSurvivesGc(t, gcPrefix, watermark, removed, key, ts);
    }
    forall prefix ensures LiveScan(t', prefix, ts) == LiveScan(t, prefix, ts) {
      forall k | k in LiveKeys(t, prefix, ts) ensures k in LiveKeys(t', prefix, ts) {
        VersionedKeyRoundTrip(k, Newest(t', k, ts).value);
        assert ExtractKeyPrefix(EncodeVersionedKey(k, Newest(t', k, ts).value)) in UserKeys(t');
      }
      assert LiveKeys(t', prefix, ts) == LiveKeys(t, prefix, ts);
    }
  }

  /** The newest version at or before the watermark is kept, and a second run finds nothing to remove. */
  lemma GcIdempotent(t: Table, prefix: Bytes, watermark: u64)
    requires Versioned(t)
    ensures var t' := t - Garbage(t, prefix, watermark);
            && (forall k :: k in t && IsNewest(t, k, watermark) ==> k in t')
            && Garbage(t', prefix, watermark) == {}
  {
    var t' := t - Garbage(t, prefix, watermark);
    forall k | k in t' ensures !IsGarbage(t', k, prefix, watermark) {
      NewestSurvivesGc(t, prefix, watermark, Garbage(t, prefix, watermark), ExtractKeyPrefix(k), watermark);
      assert !IsGarbage(t, k, prefix, watermark);
    }
  }

  lemma NewestNoneIff(t: Table, key: Bytes, ts: u64)
    ensures Newest(t, key, ts) == None <==> forall u: u64 :: u <= ts ==> EncodeVersionedKey(key, u) !in t
  {
    hide EncodeVersionedKey;
    if u: u64 :| u <= ts && EncodeVersionedKey(key, u) in t {
      NewestIsGreatest(t, key, ts, u);
    }
  }

  /** A version older than garbage of the same key is garbage. */
  lemma OlderIsGarbage(t: Table, prefix: Bytes, watermark: u64, key: Bytes, old_: u64, newer: u64)
    requires Versioned(t) && old_ < newer
    requires EncodeVersionedKey(key, old_) in t && EncodeVersionedKey(key, newer) in Garbage(t, prefix, watermark)
    ensures EncodeVersionedKey(key, old_) in Garbage(t, prefix, watermark)
  {
    hide U64Bytes, U64Value, ExtractKeyPrefix, DecodeVersionedTimestamp;
    VersionedKeyRoundTrip(key, old_);
    VersionedKeyRoundTrip(key, newer);
    NewestIsGreatest(t, key, watermark, newer);
  }

  /**
   What collection does to a reader at any timestamp: if the version it saw is
   garbage it sees nothing afterwards, and otherwise what it saw before.
   */
  lemma GcReadExactly(t: Table, prefix: Bytes, watermark: u64, key: Bytes, ts: u64)
    requires Versioned(t)
    ensures var g := Garbage(t, prefix, watermark);
            Visible(t - g, key, ts) ==
              if Newest(t, key, ts).Some? && EncodeVersionedKey(key, Newest(t, key, ts).value) in g then None
              else Visible(t, key, ts)
  {
    hide EncodeVersionedKey, IsGarbage;
    var g := Garbage(t, prefix, watermark);
    var t' := t - g;
    NewestNoneIff(t, key, ts);
    NewestNoneIff(t', key, ts);
    if Newest(t, key, ts).Some? {
      var u := Newest(t, key, ts).value;
      if EncodeVersionedKey(key, u) in g {
        forall w: u64 | w <= ts ensures EncodeVersionedKey(key, w) !in t' {
          if EncodeVersionedKey(key, w) in t {
            NewestIsGreatest(t, key, ts, w);
            if w < u {
              OlderIsGarbage(t, prefix, watermark, key, w, u);
            }
          }
        }
      } else {
        NewestIsGreatest(t', key, ts, u);
        NewestIsGreatest(t, key, ts, Newest(t', key, ts).value);
      }
    }
  }

  /** Below the watermark collection can be seen: a reader loses the version it had. */
  lemma GcVisibleBelowWatermark()
    ensures var t: Table := map[EncodeVersionedKey([7], 1) := [1], EncodeVersionedKey([7], 2) := [2]];
            Versioned(t) && Visible(t, [7], 1) == Some([1]) && Visible(t - Garbage(t, [], 2), [7], 1) == None
  {
    var a, b := EncodeVersionedKey([7], 1), EncodeVersionedKey([7], 2);
    var t: Table := map[a := [1], b := [2]];
    VersionedKeyRoundTrip([7], 1);
    VersionedKeyRoundTrip([7], 2);
    VersionedKeyRoundTrip([7], 0);
    assert b in t && Newest(t, [7], 2) == Some(2);
    assert IsGarbage(t, a, [], 2);
    var t' := t - Garbage(t, [], 2);
    assert a !in t' && EncodeVersionedKey([7], 0) !in t';
    assert Newest(t', [7], 0) == None;
  }

  // ----- what the collector takes -----

  /** A version at or before the watermark stands before `k`, with nothing but versions of its key between. */
  ghost predicate Follows(t: Table, k: Bytes, watermark: u64)
    requires Versioned(t)
  {
    exists j :: j in t && ExtractKeyPrefix(j) == ExtractKeyPrefix(k) && Less(j, k) && Timestamp(j) <= watermark
                && forall x :: x in t && Less(j, x) && Less(x, k) ==> ExtractKeyPrefix(x) == ExtractKeyPrefix(k)
  }

  ghost predicate IsTaken(t: Table, prefix: Bytes, watermark: u64, k: Bytes)
    requires Versioned(t)
  {
    k in t && Reached(t, prefix, k) && Timestamp(k) <= watermark && Follows(t, k, watermark)
  }

  ghost function Taken(t: Table, prefix: Bytes, watermark: u64): set<Bytes>
    requires Versioned(t)
  {
    set k | k in t && IsTaken(t, prefix, watermark, k)
  }

  /** Whatever the keys, the collector takes nothing but garbage. */
  lemma TakenIsGarbage(t: Table, prefix: Bytes, watermark: u64)
    requires Versioned(t)
    ensures Taken(t, prefix, watermark) <= Garbage(t, prefix, watermark)
  {
    hide Newest, ExtractKeyPrefix, DecodeVersionedTimestamp, Less;
    forall k | k in Taken(t, prefix, watermark) ensures k in Garbage(t, prefix, watermark) {
      var j :| j in t && ExtractKeyPrefix(j) == ExtractKeyPrefix(k) && Less(j, k) && Timestamp(j) <= watermark;
      NewerSortsFirst(j, k);
      NewestOfStored(t, j, watermark);
    }
  }

  /** With prefix-free keys it takes all of it. */
  lemma PrefixFreeTaken(t: Table, prefix: Bytes, watermark: u64)
    requires Versioned(t) && PrefixFree(UserKeys(t))
    ensures Taken(t, prefix, watermark) == Garbage(t, prefix, watermark)
  {
    hide IsNewest, ExtractKeyPrefix, DecodeVersionedTimestamp, Less, PrefixFree, UserKeys, Reached;
    TakenIsGarbage(t, prefix, watermark);
    forall k | k in Garbage(t, prefix, watermark) ensures k in Taken(t, prefix, watermark) {
      PrefixFreeReached(t, prefix, k);
      var c := NewerVersion(t, k, watermark);
      forall x | x in t && Less(c, x) && Less(x, k) ensures ExtractKeyPrefix(x) == ExtractKeyPrefix(k) {
        VersionsContiguous(t, c, x, k);
      }
    }
  }

  /** Without them garbage can stay: a version of a longer key stands before the older version. */
  lemma ExtendingKeyKeepsGarbage()
    ensures var a, t := EncodeVersionedKey([97], 1), RevivalTable();
            Versioned(t) && a in Garbage(t, [97], 5) && a !in Taken(t, [97], 5)
  {
    hide U64Bytes, U64Value, ExtractKeyPrefix, DecodeVersionedTimestamp, Less, Newest;
    var d, b, a := EncodeVersionedKey([97], 3), EncodeVersionedKey(EncodeVersionedKey([97], 2), 4), EncodeVersionedKey([97], 1);
    var t := RevivalTable();
    VersionedKeyRoundTrip([97], 3);
    VersionedKeyRoundTrip(EncodeVersionedKey([97], 2), 4);
    VersionedKeyRoundTrip([97], 1);
    RevivalOrder();
    assert |EncodeVersionedKey([97], 2)| == 9 && b in t && d in t;
    NewestOfStored(t, d, 5);
    forall j | j in t && ExtractKeyPrefix(j) == [97] && Less(j, a) ensures j == d {
      if j == a {
        LessAsymmetric(a, a);
      }
    }
    assert !Follows(t, a, 5);
  }

  // ----- the walk -----

  /** The versions of one key right before position `i` reach back to one at or before the watermark. */
  ghost predicate RunSeen(iter: seq<Bytes>, i: nat, watermark: u64)
    requires 0 < i <= |iter| && forall k :: k in iter ==> |k| >= 8
  {
    exists n :: 0 <= n < i && Timestamp(iter[n]) <= watermark
                && forall m :: n <= m < i ==> ExtractKeyPrefix(iter[m]) == ExtractKeyPrefix(iter[i - 1])
  }

  /** What the collector knows before position `i`. */
  ghost predicate GcState(t: Table, prefix: Bytes, i: nat, watermark: u64, toDelete: seq<Bytes>, lastKey: Option<Bytes>,
                          foundVisible: bool)
    requires Versioned(t)
  {
    var iter := KeysFrom(t.Keys, ScanStart(prefix));
    && WalkedInside(t, prefix, i)
    && lastKey == (if i == 0 then None else Some(ExtractKeyPrefix(iter[i - 1])))
    && (i > 0 ==> (foundVisible <==> RunSeen(iter, i, watermark)))
    && StrictlySorted(toDelete)
    && (forall k :: k in toDelete <==> k in iter[..i] && IsTaken(t, prefix, watermark, k))
  }

  /** The collector's variables tell whether the next version follows one at or before the watermark. */
  lemma GcStepKnowsFollows(t: Table, prefix: Bytes, i: nat, watermark: u64)
    requires Versioned(t) && WalkedInside(t, prefix, i + 1)
    ensures var iter := KeysFrom(t.Keys, ScanStart(prefix));
            Follows(t, iter[i], watermark) <==>
              i > 0 && ExtractKeyPrefix(iter[i - 1]) == ExtractKeyPrefix(iter[i]) && RunSeen(iter, i, watermark)
  {
    hide KeysFrom, ExtractKeyPrefix, DecodeVersionedTimestamp, Less;
    var iter := KeysFrom(t.Keys, ScanStart(prefix));
    var k := iter[i];
    if Follows(t, k, watermark) {
      var j :| j in t && ExtractKeyPrefix(j) == ExtractKeyPrefix(k) && Less(j, k) && Timestamp(j) <= watermark
               && forall x :: x in t && Less(j, x) && Less(x, k) ==> ExtractKeyPrefix(x) == ExtractKeyPrefix(k);
      ScanStartComesFirst(prefix, j);
      var n := KeyMet(t.Keys, ScanStart(prefix), j);
      MetInOrder(t.Keys, ScanStart(prefix), n, i);
      forall m | n <= m < i ensures ExtractKeyPrefix(iter[m]) == ExtractKeyPrefix(k) {
        MetInOrder(t.Keys, ScanStart(prefix), n, m);
        MetInOrder(t.Keys, ScanStart(prefix), m, i);
        assert iter[m] in iter;
      }
    } else if i > 0 && ExtractKeyPrefix(iter[i - 1]) == ExtractKeyPrefix(k) && RunSeen(iter, i, watermark) {
      var n :| 0 <= n < i && Timestamp(iter[n]) <= watermark
               && forall m :: n <= m < i ==> ExtractKeyPrefix(iter[m]) == ExtractKeyPrefix(iter[i - 1]);
      MetInOrder(t.Keys, ScanStart(prefix), n, i);
      assert iter[n] in iter;
      forall x | x in t && Less(iter[n], x) && Less(x, k) ensures ExtractKeyPrefix(x) == ExtractKeyPrefix(k) {
        LaterThanStart(ScanStart(prefix), iter[n], x);
        var p := KeyMet(t.Keys, ScanStart(prefix), x);
        MetInOrder(t.Keys, ScanStart(prefix), n, p);
        MetInOrder(t.Keys, ScanStart(prefix), p, i);
      }
    }
  }

  lemma RunGrows(iter: seq<Bytes>, i: nat, watermark: u64)
    requires i < |iter| && forall k :: k in iter ==> |k| >= 8
    ensures RunSeen(iter, i + 1, watermark) <==>
              Timestamp(iter[i]) <= watermark
              || (i > 0 && ExtractKeyPrefix(iter[i - 1]) == ExtractKeyPrefix(iter[i]) && RunSeen(iter, i, watermark))
  {
    hide ExtractKeyPrefix, DecodeVersionedTimestamp;
    if RunSeen(iter, i + 1, watermark) {
      var n :| 0 <= n < i + 1 && Timestamp(iter[n]) <= watermark
               && forall m :: n <= m < i + 1 ==> ExtractKeyPrefix(iter[m]) == ExtractKeyPrefix(iter[i]);
      assert n < i ==> ExtractKeyPrefix(iter[i - 1]) == ExtractKeyPrefix(iter[i]);
    }
  }

  lemma GcBegins(t: Table, prefix: Bytes, watermark: u64)
    requires Versioned(t)
    ensures GcState(t, prefix, 0, watermark, [], None, false)
  {
  }

  lemma GcGoesOn(t: Table, prefix: Bytes, i: nat, watermark: u64, toDelete: seq<Bytes>, lastKey: Option<Bytes>,
                 foundVisible: bool)
    requires Versioned(t) && GcState(t, prefix, i, watermark, toDelete, lastKey, foundVisible)
    requires i < |KeysFrom(t.Keys, ScanStart(prefix))|
    requires prefix <= ExtractKeyPrefix(KeysFrom(t.Keys, ScanStart(prefix))[i])
    ensures WalkedInside(t, prefix, i + 1)
  {
    hide KeysFrom, ExtractKeyPrefix, IsTaken, RunSeen;
  }

  lemma GcStep(t: Table, prefix: Bytes, i: nat, watermark: u64, toDelete: seq<Bytes>, lastKey: Option<Bytes>,
               foundVisible: bool)
    requires Versioned(t) && GcState(t, prefix, i, watermark, toDelete, lastKey, foundVisible) && WalkedInside(t, prefix, i + 1)
    ensures var k := KeysFrom(t.Keys, ScanStart(prefix))[i];
            var key := ExtractKeyPrefix(k);
            var found := lastKey == Some(key) && foundVisible;
            if Timestamp(k) <= watermark then
              GcState(t, prefix, i + 1, watermark, if found then toDelete + [k] else toDelete, Some(key), true)
            else
              GcState(t, prefix, i + 1, watermark, toDelete, Some(key), found)
  {
    hide KeysFrom, ExtractKeyPrefix, DecodeVersionedTimestamp, Less, Reached, Follows, RunSeen;
    var iter := KeysFrom(t.Keys, ScanStart(prefix));
    WalkReaches(t, prefix, i);
    GcStepKnowsFollows(t, prefix, i, watermark);
    RunGrows(iter, i, watermark);
    assert iter[..i + 1] == iter[..i] + [iter[i]];
    MetLast(t.Keys, ScanStart(prefix), toDelete, i);
  }

  lemma GcDone(t: Table, prefix: Bytes, i: nat, watermark: u64, toDelete: seq<Bytes>, lastKey: Option<Bytes>,
               foundVisible: bool)
    requires Versioned(t) && GcState(t, prefix, i, watermark, toDelete, lastKey, foundVisible)
    requires var iter := KeysFrom(t.Keys, ScanStart(prefix));
             i < |iter| ==> !(prefix <= ExtractKeyPrefix(iter[i]))
    ensures toDelete == SortedKeys(Taken(t, prefix, watermark))
  {
    hide KeysFrom, ExtractKeyPrefix, DecodeVersionedTimestamp, Less, Reached, Follows, RunSeen;
    SortedKeysSorted(Taken(t, prefix, watermark));
    forall k | k in Taken(t, prefix, watermark) ensures k in toDelete {
      WalkEnds(t, prefix, i, k);
    }
    SortedUnique(toDelete, SortedKeys(Taken(t, prefix, watermark)));
  }
}
