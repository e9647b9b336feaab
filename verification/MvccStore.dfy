/**
 `MvccStore`: versioned reads, prefix scans, batch writes and version garbage
 collection over byte-level column families.
 */
module MvccStores {
  import opened Bytes
  import opened OrderedStore
  import opened Wrappers
  import opened VersionedKeys
  import opened PrefixScans
  import opened VersionGc

  datatype MvccError = Internal

  type MvccResult<T> = Result<T, MvccError>

  type Tables = map<string, Table>

  /** One operation of a batch; no value means a tombstone. */
  datatype VersionedWrite = VersionedWrite(cf: string, key: Bytes, value: Option<Bytes>)

  const TOMBSTONE: Bytes := []

  function IsTombstone(value: Bytes): bool {
    value == []
  }

  function StoredValue(value: Option<Bytes>): Bytes {
    match value
    case Some(v) => v
    case None => TOMBSTONE
  }

  ghost predicate AllVersioned(tables: Tables) {
    forall cf :: cf in tables ==> Versioned(tables[cf])
  }

  ghost predicate FamiliesExist(tables: Tables, writes: seq<VersionedWrite>) {
    forall w :: w in writes ==> w.cf in tables
  }

  /** The tables after a batch of writes at one timestamp. */
  ghost function Install(tables: Tables, writes: seq<VersionedWrite>, ts: u64): (r: Tables)
    requires FamiliesExist(tables, writes)
    ensures r.Keys == tables.Keys
  {
    if writes == [] then tables
    else
      var last := writes[|writes| - 1];
      var before := Install(tables, writes[..|writes| - 1], ts);
      before[last.cf := before[last.cf][EncodeVersionedKey(last.key, ts) := StoredValue(last.value)]]
  }

  lemma {:induction false} InstallVersioned(tables: Tables, writes: seq<VersionedWrite>, ts: u64)
    requires FamiliesExist(tables, writes) && AllVersioned(tables)
    ensures AllVersioned(Install(tables, writes, ts))
  {
    if writes != [] {
      InstallVersioned(tables, writes[..|writes| - 1], ts);
    }
  }

  // ----- interrupted reads -----

  /** A foreign key sorts between the start of a read of `key` and the version it should return. */
  ghost predicate Interrupted(t: Table, key: Bytes, ts: u64) {
    && Newest(t, key, ts).Some?
    && exists k :: k in t && ExtractKeyPrefix(k) != key && AtMost(ScanStart(key), k)
                   && Less(k, EncodeVersionedKey(key, Newest(t, key, ts).value))
  }

  lemma PrefixFreeNeverInterrupted(t: Table, key: Bytes, ts: u64)
    requires Versioned(t) && PrefixFree(UserKeys(t))
    ensures !Interrupted(t, key, ts)
  {
    if Newest(t, key, ts).Some? {
      var c := EncodeVersionedKey(key, Newest(t, key, ts).value);
      VersionedKeyRoundTrip(key, Newest(t, key, ts).value);
      forall k | k in t && AtMost(ScanStart(key), k) && Less(k, c) ensures ExtractKeyPrefix(k) == key {
        PrefixConvex(key, ScanStart(key), k, c);
        PrefixesComparable(key, ExtractKeyPrefix(k), k);
        assert ExtractKeyPrefix(k) in UserKeys(t) && ExtractKeyPrefix(c) in UserKeys(t);
      }
    }
  }

  /** Without prefix-free keys a committed value can be unreadable: `ab` hides the older key `a`. */
  lemma ExtendingKeyHidesVersion()
    ensures var t: Table := map[EncodeVersionedKey([97], 1) := [1], EncodeVersionedKey([97, 98], 2) := [2]];
            Versioned(t) && Visible(t, [97], 5) == Some([1]) && Interrupted(t, [97], 5)
  {
    var a, b := EncodeVersionedKey([97], 1), EncodeVersionedKey([97, 98], 2);
    var t: Table := map[a := [1], b := [2]];
    VersionedKeyRoundTrip([97], 1);
    VersionedKeyRoundTrip([97, 98], 2);
    forall u: u64 | 1 < u <= 5 ensures EncodeVersionedKey([97], u) !in t {
      VersionedKeyRoundTrip([97], u);
    }
    assert Newest(t, [97], 2) == Some(1);
    assert Newest(t, [97], 3) == Some(1);
    assert Newest(t, [97], 4) == Some(1);
    FirstByteBigEndian();
    var x, y := U64Bytes(U64_MAX - 1), U64Bytes(U64_MAX - 2);
    assert a == [97] + x && b == [97] + ([98] + y);
    LessCommonHead([97], [98] + y, x);
    LessCommonHead([97], U64Bytes(0), [98] + y);
    ZerosComeFirst([98] + y);
    assert SmallerAt([98] + y, x, 0);
    assert b in t && ExtractKeyPrefix(b) != [97];
  }

  lemma FirstByteBigEndian()
    ensures U64Bytes(U64_MAX - 1)[0] == 255
  {
    U64Order(0xFEFF_FFFF_FFFF_FFFF, U64_MAX - 1);
    Radix8();
    var x := U64Bytes(U64_MAX - 1);
    assert FromBigEndian(x) == U64_MAX - 1 by { U64RoundTrip(U64_MAX - 1); }
    assert FromBigEndian(x[..7]) == 0xFF_FFFF_FFFF_FFFF;
    assert x[..7][..6] == x[..6] && FromBigEndian(x[..6]) == 0xFFFF_FFFF_FFFF;
    assert x[..6][..5] == x[..5] && FromBigEndian(x[..5]) == 0xFF_FFFF_FFFF;
    assert x[..5][..4] == x[..4] && FromBigEndian(x[..4]) == 0xFFFF_FFFF;
    assert x[..4][..3] == x[..3] && FromBigEndian(x[..3]) == 0xFF_FFFF;
    assert x[..3][..2] == x[..2] && FromBigEndian(x[..2]) == 0xFFFF;
    assert x[..2][..1] == x[..1] && FromBigEndian(x[..1]) == 0xFF;
  }

  // ----- why the loops of the store are right -----

  /** The first version of the key at or before the snapshot is the one to return. */
  lemma ReadFindsNewest(t: Table, key: Bytes, ts: u64, i: nat)
    requires Versioned(t) && i < |KeysFrom(t.Keys, ScanStart(key))|
    requires forall j :: 0 <= j < i ==> Passed(t, key, ts, j)
    requires ExtractKeyPrefix(KeysFrom(t.Keys, ScanStart(key))[i]) == key
    requires Timestamp(KeysFrom(t.Keys, ScanStart(key))[i]) <= ts
    ensures IsNewest(t, KeysFrom(t.Keys, ScanStart(key))[i], ts)
    ensures !Interrupted(t, key, ts)
  {
    hide FromBigEndian, BigEndian, Less, SortedKeys, Newest;
    var iter := KeysFrom(t.Keys, ScanStart(key));
    var k := iter[i];
    NewestOfStored(t, k, ts);
    var c := EncodeVersionedKey(key, Newest(t, key, ts).value);
    VersionedKeyRoundTrip(key, Newest(t, key, ts).value);
    ScanStartComesFirst(key, c);
    var j := KeyMet(t.Keys, ScanStart(key), c);
    NewerSortsFirst(c, k);
    MetInOrder(t.Keys, ScanStart(key), j, i);
    assert j < i ==> Passed(t, key, ts, j);
    forall x | x in t && AtMost(ScanStart(key), x) && Less(x, c) ensures ExtractKeyPrefix(x) == key {
      var n := KeyMet(t.Keys, ScanStart(key), x);
      MetInOrder(t.Keys, ScanStart(key), n, i);
      assert Passed(t, key, ts, n);
    }
  }

  /** The read has passed a version of the key that is too new for the snapshot. */
  ghost predicate Passed(t: Table, key: Bytes, ts: u64, j: nat)
    requires Versioned(t)
  {
    var iter := KeysFrom(t.Keys, ScanStart(key));
    j < |iter| && ExtractKeyPrefix(iter[j]) == key && Timestamp(iter[j]) > ts
  }

  lemma ReadCutShort(t: Table, key: Bytes, ts: u64, i: nat)
    requires Versioned(t) && i <= |KeysFrom(t.Keys, ScanStart(key))|
    requires forall j :: 0 <= j < i ==> Passed(t, key, ts, j)
    requires i < |KeysFrom(t.Keys, ScanStart(key))| ==>
               ExtractKeyPrefix(KeysFrom(t.Keys, ScanStart(key))[i]) != key
    ensures Interrupted(t, key, ts) || Visible(t, key, ts) == None
  {
    hide FromBigEndian, BigEndian, Less, SortedKeys, Newest;
    var iter := KeysFrom(t.Keys, ScanStart(key));
    if Newest(t, key, ts).Some? {
      var c := EncodeVersionedKey(key, Newest(t, key, ts).value);
      VersionedKeyRoundTrip(key, Newest(t, key, ts).value);
      ScanStartComesFirst(key, c);
      var j := KeyMet(t.Keys, ScanStart(key), c);
      assert j < i ==> Passed(t, key, ts, j);
      MetInOrder(t.Keys, ScanStart(key), i, j);
    }
  }

  // ----- the loops -----

  /** Builds the batch, or gives up at the first missing column family. */
  method BuildBatch(tables: Tables, writes: seq<VersionedWrite>, timestamp: u64) returns (batch: Option<Tables>)
    ensures batch.Some? <==> FamiliesExist(tables, writes)
    ensures FamiliesExist(tables, writes) ==> batch == Some(Install(tables, writes, timestamp))
  {
    var pending := tables;
    var i := 0;
    while i < |writes|
      invariant 0 <= i <= |writes|
      invariant FamiliesExist(tables, writes[..i])
      invariant pending == Install(tables, writes[..i], timestamp)
    {
      var w := writes[i];
      if w.cf !in tables {
        return None;
      }
      assert writes[..i + 1][..i] == writes[..i];
      pending := pending[w.cf := pending[w.cf][EncodeVersionedKey(w.key, timestamp) := StoredValue(w.value)]];
      i := i + 1;
    }
    assert writes[..i] == writes;
    return Some(pending);
  }

  method ScanVersions(t: Table, prefix: Bytes, snapshotTs: u64) returns (results: seq<(Bytes, Bytes)>)
    requires Versioned(t)
    ensures results == Scan(t, prefix, snapshotTs)
  {
    hide FromBigEndian, BigEndian, Less, ScanState, WalkedInside, Reported, ReportedKeys, KeysFrom, ExtractKeyPrefix;
    var iter := KeysFrom(t.Keys, ScanStart(prefix));
    results := [];
    var lastKey: Option<Bytes> := None;
    ghost var taken: seq<Bytes> := [];
    var i := 0;
    ScanBegins(t, prefix, snapshotTs);
    while i < |iter|
      invariant 0 <= i <= |iter| && ScanState(t, prefix, i, snapshotTs, taken, lastKey)
      invariant (forall k :: k in taken ==> k in t) && results == Pairs(t, taken)
    {
      var k := iter[i];
      var keyPrefix := ExtractKeyPrefix(k);
      if !(prefix <= keyPrefix) {
        break;
      }
      ScanGoesOn(t, prefix, i, snapshotTs, taken, lastKey);
      ScanStep(t, prefix, i, snapshotTs, taken, lastKey);
      if lastKey != Some(keyPrefix) && Timestamp(k) <= snapshotTs {
        lastKey := Some(keyPrefix);
        if !IsTombstone(t[k]) {
          results := results + [(keyPrefix, t[k])];
          taken := taken + [k];
        }
      }
      i := i + 1;
    }
    ScanDone(t, prefix, i, snapshotTs, taken, lastKey);
  }

  method FindGarbage(t: Table, prefix: Bytes, watermark: u64) returns (toDelete: seq<Bytes>)
    requires Versioned(t)
    ensures (set k | k in toDelete) == Taken(t, prefix, watermark) && |toDelete| == |Taken(t, prefix, watermark)|
  {
    hide FromBigEndian, BigEndian, Less, GcState, WalkedInside, Taken, KeysFrom, ExtractKeyPrefix;
    var iter := KeysFrom(t.Keys, ScanStart(prefix));
    toDelete := [];
    var lastKey: Option<Bytes> := None;
    var foundVisible := false;
    var i := 0;
    GcBegins(t, prefix, watermark);
    while i < |iter|
      invariant 0 <= i <= |iter| && GcState(t, prefix, i, watermark, toDelete, lastKey, foundVisible)
    {
      var k := iter[i];
      var keyPrefix := ExtractKeyPrefix(k);
      if !(prefix <= keyPrefix) {
        break;
      }
      GcGoesOn(t, prefix, i, watermark, toDelete, lastKey, foundVisible);
      GcStep(t, prefix, i, watermark, toDelete, lastKey, foundVisible);
      if lastKey != Some(keyPrefix) {
        lastKey := Some(keyPrefix);
        foundVisible := false;
      }
      if Timestamp(k) <= watermark {
        if foundVisible {
          toDelete := toDelete + [k];
        } else {
          foundVisible := true;
        }
      }
      i := i + 1;
    }
    GcDone(t, prefix, i, watermark, toDelete, lastKey, foundVisible);
  }

  method ReadVersion(t: Table, key: Bytes, snapshotTs: u64) returns (value: Option<Bytes>)
    requires Versioned(t)
    ensures value == if Interrupted(t, key, snapshotTs) then None else Visible(t, key, snapshotTs)
  {
    hide FromBigEndian, BigEndian, Less, SortedKeys, Newest;
    var iter := KeysFrom(t.Keys, ScanStart(key));
    var i := 0;
    while i < |iter|
      invariant 0 <= i <= |iter| && forall j :: 0 <= j < i ==> Passed(t, key, snapshotTs, j)
    {
      var k := iter[i];
      if ExtractKeyPrefix(k) != key {
        break;
      }
      if Timestamp(k) <= snapshotTs {
        ReadFindsNewest(t, key, snapshotTs, i);
        VersionedKeyOnto(k);
        return if IsTombstone(t[k]) then None else Some(t[k]);
      }
      i := i + 1;
    }
    ReadCutShort(t, key, snapshotTs, i);
    return None;
  }

  // ----- the store -----

  class MvccStore {
    var tables: Tables

    constructor (families: set<string>)
      ensures AllVersioned(tables) && tables == map cf | cf in families :: map[]
    {
      tables := map cf | cf in families :: map[];
    }

    method PutAt(cf: string, key: Bytes, value: Bytes, timestamp: u64) returns (r: MvccResult<()>)
      requires AllVersioned(tables)
      modifies this
      ensures AllVersioned(tables)
      ensures cf !in old(tables) ==> r == Failure(Internal) && tables == old(tables)
      ensures cf in old(tables) ==>
                r == Success(()) && tables == Install(old(tables), [VersionedWrite(cf, key, Some(value))], timestamp)
    {
      if cf !in tables {
        return Failure(Internal);
      }
      ghost var w := VersionedWrite(cf, key, Some(value));
      assert [w][..0] == [];
      tables := tables[cf := tables[cf][EncodeVersionedKey(key, timestamp) := value]];
      return Success(());
    }

    method DeleteAt(cf: string, key: Bytes, timestamp: u64) returns (r: MvccResult<()>)
      requires AllVersioned(tables)
      modifies this
      ensures AllVersioned(tables)
      ensures cf !in old(tables) ==> r == Failure(Internal) && tables == old(tables)
      ensures cf in old(tables) ==>
                r == Success(()) && tables == Install(old(tables), [VersionedWrite(cf, key, None)], timestamp)
    {
      r := PutAt(cf, key, TOMBSTONE, timestamp);
      ghost var w, w' := VersionedWrite(cf, key, None), VersionedWrite(cf, key, Some(TOMBSTONE));
      assert [w][..0] == [] && [w'][..0] == [];
    }

    /** All the writes take effect, or, when a column family is missing, none does. */
    method BatchWriteAt(writes: seq<VersionedWrite>, timestamp: u64) returns (r: MvccResult<()>)
      requires AllVersioned(tables)
      modifies this
      ensures AllVersioned(tables)
      ensures FamiliesExist(old(tables), writes) ==> r == Success(()) && tables == Install(old(tables), writes, timestamp)
      ensures !FamiliesExist(old(tables), writes) ==> r == Failure(Internal) && tables == old(tables)
    {
      var batch := BuildBatch(tables, writes, timestamp);
      match batch
      case Some(written) =>
        InstallVersioned(tables, writes, timestamp);
        tables := written;
        return Success(());
      case None => return Failure(Internal);
    }

    /**
     Walks the versions of `key`, newest first, and stops at the first foreign
     key. It returns what the reader should see unless a foreign key interrupts.
     */
    method GetAt(cf: string, key: Bytes, snapshotTs: u64) returns (r: MvccResult<Option<Bytes>>)
      requires AllVersioned(tables)
      ensures cf !in tables ==> r == Failure(Internal)
      ensures cf in tables ==>
                r == Success(if Interrupted(tables[cf], key, snapshotTs) then None
                             else Visible(tables[cf], key, snapshotTs))
      ensures cf in tables && PrefixFree(UserKeys(tables[cf])) ==> r == Success(Visible(tables[cf], key, snapshotTs))
    {
      if cf !in tables {
        return Failure(Internal);
      }
      if PrefixFree(UserKeys(tables[cf])) {
        PrefixFreeNeverInterrupted(tables[cf], key, snapshotTs);
      }
      var value := ReadVersion(tables[cf], key, snapshotTs);
      return Success(value);
    }

    method PrefixScanAt(cf: string, prefix: Bytes, snapshotTs: u64) returns (r: MvccResult<seq<(Bytes, Bytes)>>)
      requires AllVersioned(tables)
      ensures cf !in tables ==> r == Failure(Internal)
      ensures cf in tables ==> r == Success(Scan(tables[cf], prefix, snapshotTs))
      ensures cf in tables ==>
                (r == Success(LiveScan(tables[cf], prefix, snapshotTs)) <==> Orderly(tables[cf], prefix, snapshotTs))
      ensures cf in tables && PrefixFree(UserKeys(tables[cf])) ==> r == Success(LiveScan(tables[cf], prefix, snapshotTs))
    {
      hide Scan, LiveScan, Orderly;
      if cf !in tables {
        return Failure(Internal);
      }
      ScanExactIff(tables[cf], prefix, snapshotTs);
      if PrefixFree(UserKeys(tables[cf])) {
        PrefixFreeOrderly(tables[cf], prefix, snapshotTs);
      }
      var results := ScanVersions(tables[cf], prefix, snapshotTs);
      return Success(results);
    }

    /** Removes versions that no reader at or above the watermark can see, with prefix-free keys all of them, and counts them. */
    method GcBefore(cf: string, prefix: Bytes, watermark: u64) returns (r: MvccResult<nat>)
      requires AllVersioned(tables)
      modifies this
      ensures AllVersioned(tables)
      ensures cf !in old(tables) ==> r == Failure(Internal) && tables == old(tables)
      ensures cf in old(tables) ==>
                && tables == old(tables)[cf := old(tables)[cf] - Taken(old(tables)[cf], prefix, watermark)]
                && r == Success(|Taken(old(tables)[cf], prefix, watermark)|)
                && Taken(old(tables)[cf], prefix, watermark) <= Garbage(old(tables)[cf], prefix, watermark)
      ensures cf in old(tables) && PrefixFree(UserKeys(old(tables)[cf])) ==>
                Taken(old(tables)[cf], prefix, watermark) == Garbage(old(tables)[cf], prefix, watermark)
    {
      hide Taken, Garbage, UserKeys, PrefixFree, SortedKeys, Write;
      if cf !in tables {
        return Failure(Internal);
      }
      TakenIsGarbage(tables[cf], prefix, watermark);
      if PrefixFree(UserKeys(tables[cf])) {
        PrefixFreeTaken(tables[cf], prefix, watermark);
      }
      var toDelete := FindGarbage(tables[cf], prefix, watermark);
      var batch := DeleteAll(toDelete);
      WriteDeletes(tables[cf], toDelete, batch);
      tables := tables[cf := Write(tables[cf], batch)];
      return Success(|toDelete|);
    }
  }
}
