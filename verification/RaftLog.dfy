/**
 The Raft log kept in a column family under big-endian indices, and the plain
 indexed log it refines.
 */
module RaftLog {
  import opened Bytes
  import opened OrderedStore
  import opened Wrappers

  datatype LogId = LogId(term: u64, leader: u64, index: u64)

  /** A log entry; its stored bytes determine it, so the column family holds the entry itself. */
  datatype Entry = Entry(logId: LogId, payload: Bytes)

  type Table = map<Bytes, Entry>

  datatype Store = Store(log: Table, lastPurged: Option<LogId>)

  /** Every entry lies under its own index. */
  ghost predicate Keyed(t: Table) {
    forall k :: k in t ==> |k| == 8 && t[k].logId.index == U64Value(k)
  }

  // ----- what the operations do to the table -----

  function AppendAll(t: Table, entries: seq<Entry>): Table {
    if entries == [] then t
    else
      var n := |entries| - 1;
      AppendAll(t, entries[..n])[U64Bytes(entries[n].logId.index) := entries[n]]
  }

  /** After deleting every entry at or above an index. */
  function Below(t: Table, from: u64): Table {
    map k | k in t && Less(k, U64Bytes(from)) :: t[k]
  }

  /** The end key of a purge: one above the index, or the index itself if it is the greatest. */
  function PurgeEnd(upto: u64): u64 {
    if upto < U64_MAX then upto + 1 else U64_MAX
  }

  /** After deleting every entry below the end key of a purge. */
  function Above(t: Table, upto: u64): Table {
    map k | k in t && !Less(k, U64Bytes(PurgeEnd(upto))) :: t[k]
  }

  predicate Selected(k: Bytes, start: u64, end: Option<u64>) {
    AtMost(U64Bytes(start), k) && (end.Some? ==> Less(k, U64Bytes(end.value)))
  }

  function KeysInRange(t: Table, start: u64, end: Option<u64>): (r: seq<Bytes>)
    ensures forall k :: k in r <==> k in t && Selected(k, start, end)
  {
    SortedKeys(set k | k in t && Selected(k, start, end))
  }

  function EntriesAt(t: Table, ks: seq<Bytes>): (r: seq<Entry>)
    requires forall k :: k in ks ==> k in t
    ensures |r| == |ks| && forall i :: 0 <= i < |ks| ==> r[i] == t[ks[i]]
  {
    if ks == [] then [] else EntriesAt(t, ks[..|ks| - 1]) + [t[ks[|ks| - 1]]]
  }

  lemma KeyIndex(a: Bytes, i: u64)
    requires |a| == 8
    ensures Less(a, U64Bytes(i)) <==> U64Value(a) < i
    ensures AtMost(U64Bytes(i), a) <==> i <= U64Value(a)
  {
    U64Onto(a);
    U64Order(U64Value(a), i);
    U64Order(i, U64Value(a));
  }

  lemma {:induction false} AppendKeeps(t: Table, entries: seq<Entry>)
    requires Keyed(t)
    ensures Keyed(AppendAll(t, entries))
  {
    if entries != [] {
      var n := |entries| - 1;
      AppendKeeps(t, entries[..n]);
      U64RoundTrip(entries[n].logId.index);
    }
  }

  // ----- the indexed log -----

  /** A log whose first entry comes just above the last purged index. */
  datatype IndexedLog = IndexedLog(purged: Option<LogId>, entries: seq<Entry>)

  function Base(purged: Option<LogId>): nat {
    if purged.None? then 0 else purged.value.index + 1
  }

  function Next(l: IndexedLog): nat {
    Base(l.purged) + |l.entries|
  }

  /** The table holds exactly the entries, at consecutive indices from `base`. */
  ghost predicate Holds(t: Table, base: nat, entries: seq<Entry>) {
    && base + |entries| <= U64_MAX + 1
    && (forall k :: k in t <==> |k| == 8 && base <= U64Value(k) < base + |entries|)
    && (forall k :: k in t ==> t[k] == entries[U64Value(k) - base])
    && (forall i :: 0 <= i < |entries| ==> entries[i].logId.index == base + i)
  }

  ghost predicate Refines(s: Store, l: IndexedLog) {
    s.lastPurged == l.purged && Holds(s.log, Base(l.purged), l.entries)
  }

  lemma HoldsKeyed(t: Table, base: nat, entries: seq<Entry>)
    requires Holds(t, base, entries)
    ensures Keyed(t)
  {
  }

  function Clamp(n: int, low: nat, high: nat): (r: nat)
    requires low <= high
    ensures low <= r <= high
  {
    if n < low then low else if n > high then high else n
  }

  /** The entries at indices from `start` up to but not including `end`. */
  function Slice(l: IndexedLog, start: u64, end: Option<u64>): seq<Entry> {
    var base, n := Base(l.purged), |l.entries|;
    var low := Clamp(start - base, 0, n);
    var high := if end.None? then n else Clamp(end.value - base, low, n);
    l.entries[low..high]
  }

  // ----- reading -----

  /** The keys of consecutive indices. */
  function KeyRun(low: nat, high: nat): (r: seq<Bytes>)
    requires low <= high <= U64_MAX + 1
    ensures |r| == high - low && forall i :: 0 <= i < |r| ==> r[i] == U64Bytes(low + i)
    decreases high - low
  {
    if low == high then [] else KeyRun(low, high - 1) + [U64Bytes(high - 1)]
  }

  lemma KeyRunSorted(low: nat, high: nat)
    requires low <= high <= U64_MAX + 1
    ensures StrictlySorted(KeyRun(low, high))
    ensures forall k :: k in KeyRun(low, high) <==> |k| == 8 && low <= U64Value(k) < high
  {
    hide KeyRun, U64Bytes, U64Value, Less;
    var r := KeyRun(low, high);
    forall i, j | 0 <= i < j < |r| ensures Less(r[i], r[j]) {
      U64Order(low + i, low + j);
    }
    forall k ensures k in r <==> |k| == 8 && low <= U64Value(k) < high {
      if k in r {
        var i :| 0 <= i < |r| && r[i] == k;
        U64RoundTrip(low + i);
      }
      if |k| == 8 && low <= U64Value(k) < high {
        U64Onto(k);
        assert r[U64Value(k) - low] in r;
      }
    }
  }

  predicate InBounds(index: nat, start: u64, end: Option<u64>) {
    start <= index && (end.Some? ==> index < end.value)
  }

  lemma SelectedIndex(k: Bytes, start: u64, end: Option<u64>)
    requires |k| == 8
    ensures Selected(k, start, end) <==> InBounds(U64Value(k), start, end)
  {
    KeyIndex(k, start);
    if end.Some? {
      KeyIndex(k, end.value);
    }
  }

  /** What a refining store holds under a key. */
  lemma StoredAt(s: Store, l: IndexedLog, k: Bytes)
    requires Refines(s, l)
    ensures k in s.log <==> |k| == 8 && Base(l.purged) <= U64Value(k) < Next(l)
    ensures k in s.log ==> s.log[k] == l.entries[U64Value(k) - Base(l.purged)]
    ensures Next(l) <= U64_MAX + 1
  {
    hide U64Value;
  }

  /** In a refining store the keys of a range are consecutive. */
  lemma {:induction false} RangeKeys(s: Store, l: IndexedLog, start: u64, end: Option<u64>, low: nat, high: nat)
    requires Refines(s, l) && low <= high && Base(l.purged) <= low && high <= Next(l) <= U64_MAX + 1
    requires forall i: nat :: Base(l.purged) <= i < Next(l) ==> (low <= i < high <==> InBounds(i, start, end))
    ensures KeysInRange(s.log, start, end) == KeyRun(low, high)
  {
    hide SortedKeys, StrictlySorted, Less, U64Value, KeyRun, Selected, Holds, Refines;
    KeyRunSorted(low, high);
    KeysInRangeSorted(s.log, start, end);
    forall k ensures k in KeysInRange(s.log, start, end) <==> k in KeyRun(low, high) {
      StoredAt(s, l, k);
      if |k| == 8 {
        SelectedIndex(k, start, end);
      }
    }
    SortedUnique(KeysInRange(s.log, start, end), KeyRun(low, high));
  }

  lemma {:induction false} RunEntries(s: Store, l: IndexedLog, low: nat, high: nat)
    requires Refines(s, l) && Base(l.purged) <= low <= high <= Next(l) <= U64_MAX + 1
    ensures forall k :: k in KeyRun(low, high) ==> k in s.log
    ensures EntriesAt(s.log, KeyRun(low, high)) == l.entries[low - Base(l.purged)..high - Base(l.purged)]
  {
    hide Holds, Refines, U64Value, U64Bytes, KeyRun, EntriesAt, StrictlySorted;
    var ks := KeyRun(low, high);
    KeyRunSorted(low, high);
    forall i | 0 <= i < |ks| ensures ks[i] in s.log && s.log[ks[i]] == l.entries[low - Base(l.purged) + i] {
      StoredAt(s, l, ks[i]);
      U64RoundTrip(low + i);
    }
    forall k | k in ks ensures k in s.log {
      StoredAt(s, l, k);
    }
  }

  /** A range read of a store that refines a log is the slice of the log. */
  lemma {:induction false} RangeReadIsSlice(s: Store, l: IndexedLog, start: u64, end: Option<u64>)
    requires Refines(s, l)
    ensures EntriesAt(s.log, KeysInRange(s.log, start, end)) == Slice(l, start, end)
  {
    hide Holds, Refines, EntriesAt, KeysInRange, KeyRun, SortedKeys, U64Bytes, U64Value;
    var base, n := Base(l.purged), |l.entries|;
    var low := Clamp(start - base, 0, n);
    var high := if end.None? then n else Clamp(end.value - base, low, n);
    var first, past := base + low, base + high;
    NextFits(s, l);
    RangeKeys(s, l, start, end, first, past);
    RunEntries(s, l, first, past);
  }

  lemma NextFits(s: Store, l: IndexedLog)
    requires Refines(s, l)
    ensures Next(l) <= U64_MAX + 1
  {
  }

  lemma AtMostOrLess(a: Bytes, b: Bytes)
    ensures AtMost(a, b) <==> !Less(b, a)
  {
    LessTotal(a, b);
    if Less(b, a) {
      LessAsymmetric(b, a);
    }
  }

  lemma {:induction false} RangeScanStops(t: Table, start: u64, end: Option<u64>, i: nat)
    requires Keyed(t)
    requires var iter := KeysFrom(t.Keys, U64Bytes(start));
             && i <= |iter|
             && (end.Some? ==> forall k :: k in iter[..i] ==> |k| == 8 && U64Value(k) < end.value)
             && (i < |iter| ==> end.Some? && |iter[i]| == 8 && U64Value(iter[i]) >= end.value)
    ensures KeysFrom(t.Keys, U64Bytes(start))[..i] == KeysInRange(t, start, end)
  {
    hide SortedKeys, Less, U64Value, U64Bytes;
    var iter := KeysFrom(t.Keys, U64Bytes(start));
    KeysFromExactly(t.Keys, U64Bytes(start));
    SortedKeysSorted(set k | k in t && Selected(k, start, end));
    forall k ensures k in iter[..i] <==> k in t && Selected(k, start, end) {
      if k in t {
        SelectedIndex(k, start, end);
        KeyIndex(k, start);
        if Selected(k, start, end) {
          MetBefore(t.Keys, start, end, i, k);
        }
      }
    }
    SortedUnique(iter[..i], KeysInRange(t, start, end));
  }

  /** A selected key comes before the place where the scan stopped. */
  lemma MetBefore(keys: set<Bytes>, start: u64, end: Option<u64>, i: nat, k: Bytes)
    requires |k| == 8 && k in keys && Selected(k, start, end)
    requires var iter := KeysFrom(keys, U64Bytes(start));
             i <= |iter| && (i < |iter| ==> end.Some? && |iter[i]| == 8 && U64Value(iter[i]) >= end.value)
    ensures k in KeysFrom(keys, U64Bytes(start))[..i]
  {
    hide SortedKeys, Less, U64Value, U64Bytes, KeysFrom;
    var iter := KeysFrom(keys, U64Bytes(start));
    var j := KeyMet(keys, U64Bytes(start), k);
    if i < |iter| {
      SelectedBelow(k, iter[i], start, end);
      MetInOrder(keys, U64Bytes(start), j, i);
    }
    assert iter[..i][j] == k;
  }

  lemma SelectedBelow(k: Bytes, x: Bytes, start: u64, end: Option<u64>)
    requires |k| == 8 && Selected(k, start, end) && |x| == 8 && end.Some? && U64Value(x) >= end.value
    ensures Less(k, x)
  {
    hide Less, U64Value;
    SelectedIndex(k, start, end);
    KeyIndex(k, U64Value(x));
    U64Onto(x);
  }

  /** A range read gives exactly the stored entries with an index in the range, in ascending order. */
  lemma {:induction false} RangeReadExact(t: Table, start: u64, end: Option<u64>)
    requires Keyed(t)
    ensures var r := EntriesAt(t, KeysInRange(t, start, end));
            && (forall e :: e in r <==> (exists k :: k in t && t[k] == e
                                          && start <= e.logId.index && (end.Some? ==> e.logId.index < end.value)))
            && forall i, j :: 0 <= i < j < |r| ==> r[i].logId.index < r[j].logId.index
  {
    hide EntriesAt, SortedKeys, Less, U64Value, KeysInRange, Selected;
    var ks := KeysInRange(t, start, end);
    var r := EntriesAt(t, ks);
    forall k | k in t ensures k in ks <==> start <= t[k].logId.index && (end.Some? ==> t[k].logId.index < end.value) {
      SelectedIndex(k, start, end);
    }
    forall e ensures e in r <==> exists k :: k in t && t[k] == e
                                  && start <= e.logId.index && (end.Some? ==> e.logId.index < end.value) {
      if e in r {
        var i :| 0 <= i < |r| && r[i] == e;
        assert ks[i] in ks && t[ks[i]] == e;
      }
      if k :| k in t && t[k] == e && start <= e.logId.index && (end.Some? ==> e.logId.index < end.value) {
        var i :| 0 <= i < |ks| && ks[i] == k;
        assert r[i] == e;
      }
    }
    KeysInRangeSorted(t, start, end);
    forall i, j | 0 <= i < j < |r| ensures r[i].logId.index < r[j].logId.index {
      assert ks[i] in ks && ks[j] in ks;
      KeyIndex(ks[i], U64Value(ks[j]));
      U64Onto(ks[j]);
    }
  }

  lemma KeysInRangeSorted(t: Table, start: u64, end: Option<u64>)
    ensures StrictlySorted(KeysInRange(t, start, end))
  {
    SortedKeysSorted(set k | k in t && Selected(k, start, end));
  }

  datatype LogState = LogState(lastPurged: Option<LogId>, last: Option<LogId>)

  /** The last entry is the one whose key no stored key exceeds; with nothing stored it is the purged one. */
  ghost predicate Reports(s: Store, state: LogState) {
    && state.lastPurged == s.lastPurged
    && (s.log == map[] ==> state.last == s.lastPurged)
    && (s.log != map[] ==>
          exists k :: k in s.log && (forall x :: x in s.log ==> AtMost(x, k)) && state.last == Some(s.log[k].logId))
  }

  /** On a store that refines a log, what the state reports is the last entry, or the purged id when the log is empty. */
  lemma StateIsLast(s: Store, l: IndexedLog, state: LogState)
    requires Refines(s, l) && Reports(s, state)
    ensures state == LogState(l.purged, if l.entries == [] then l.purged else Some(l.entries[|l.entries| - 1].logId))
  {
    hide Holds, Refines, AtMost;
    RefinesPurged(s, l);
    LogEmptyIff(s, l);
    if l.entries != [] {
      var k :| k in s.log && (forall x :: x in s.log ==> AtMost(x, k)) && state.last == Some(s.log[k].logId);
      GreatestIsLast(s, l, k);
    }
  }

  lemma LogEmptyIff(s: Store, l: IndexedLog)
    requires Refines(s, l)
    ensures s.log == map[] <==> l.entries == []
  {
    RefinesPurged(s, l);
    hide Holds, Refines, U64Value, U64Bytes;
    if l.entries == [] {
      forall k ensures k !in s.log {
        StoredAt(s, l, k);
      }
    } else {
      U64RoundTrip(Next(l) - 1);
      StoredAt(s, l, U64Bytes(Next(l) - 1));
    }
  }

  lemma GreatestIsLast(s: Store, l: IndexedLog, k: Bytes)
    requires Refines(s, l) && l.entries != [] && k in s.log && forall x :: x in s.log ==> AtMost(x, k)
    ensures s.log[k] == l.entries[|l.entries| - 1]
  {
    hide Holds, Refines, AtMost, Less, U64Value, U64Bytes;
    RefinesPurged(s, l);
    var index := Next(l) - 1;
    U64RoundTrip(index);
    StoredAt(s, l, U64Bytes(index));
    StoredAt(s, l, k);
    assert AtMost(U64Bytes(index), k);
    KeyIndex(k, index);
    assert U64Value(k) == index;
  }

  lemma RefinesPurged(s: Store, l: IndexedLog)
    requires Refines(s, l)
    ensures s.lastPurged == l.purged && Next(l) <= U64_MAX + 1
  {
  }

  /** The last key of an iterator is not exceeded by any other. */
  lemma LastIsGreatest(keys: set<Bytes>)
    requires keys != {}
    ensures var ks := SortedKeys(keys);
            |ks| > 0 && ks[|ks| - 1] in keys && forall x :: x in keys ==> AtMost(x, ks[|ks| - 1])
  {
    hide SortedKeys, Less;
    var ks := SortedKeys(keys);
    var some :| some in keys;
    assert some in ks;
    SortedKeysSorted(keys);
    forall x | x in keys ensures AtMost(x, ks[|ks| - 1]) {
      var i :| 0 <= i < |ks| && ks[i] == x;
    }
  }

  lemma LastReported(s: Store)
    ensures var ks := SortedKeys(s.log.Keys);
            Reports(s, LogState(s.lastPurged, if ks == [] then s.lastPurged else Some(s.log[ks[|ks| - 1]].logId)))
  {
    hide SortedKeys, AtMost;
    if s.log != map[] {
      LastIsGreatest(s.log.Keys);
    }
  }

  // ----- appending -----

  /** The entries carry the consecutive indices from the next one on. */
  ghost predicate Follows(l: IndexedLog, entries: seq<Entry>) {
    && Next(l) + |entries| <= U64_MAX + 1
    && forall i :: 0 <= i < |entries| ==> entries[i].logId.index == Next(l) + i
  }

  lemma {:induction false} AppendRefines(s: Store, l: IndexedLog, entries: seq<Entry>)
    requires Refines(s, l) && Follows(l, entries)
    ensures Refines(Store(AppendAll(s.log, entries), s.lastPurged), IndexedLog(l.purged, l.entries + entries))
  {
    hide Holds, Refines, U64Bytes;
    if entries == [] {
      assert l.entries + entries == l.entries;
    } else {
      var n := |entries| - 1;
      AppendRefines(s, l, entries[..n]);
      AppendOne(Store(AppendAll(s.log, entries[..n]), s.lastPurged), IndexedLog(l.purged, l.entries + entries[..n]), entries[n]);
      assert l.entries + entries[..n] + [entries[n]] == l.entries + entries;
    }
  }

  lemma AppendOne(s: Store, l: IndexedLog, e: Entry)
    requires Refines(s, l) && Next(l) <= U64_MAX && e.logId.index == Next(l)
    ensures Refines(Store(s.log[U64Bytes(e.logId.index) := e], s.lastPurged), IndexedLog(l.purged, l.entries + [e]))
  {
    hide U64Value, U64Bytes;
    var key := U64Bytes(e.logId.index);
    U64RoundTrip(e.logId.index);
    forall k | |k| == 8 && U64Value(k) == e.logId.index ensures k == key {
      U64Onto(k);
    }
  }

  // ----- deleting a conflicting suffix -----

  function TakeBelow(l: IndexedLog, from: u64): IndexedLog {
    IndexedLog(l.purged, l.entries[..Clamp(from - Base(l.purged), 0, |l.entries|)])
  }

  lemma DeleteRefines(s: Store, l: IndexedLog, from: u64)
    requires Refines(s, l)
    ensures Refines(Store(Below(s.log, from), s.lastPurged), TakeBelow(l, from))
  {
    hide U64Value, U64Bytes, Less;
    forall k | |k| == 8 ensures Less(k, U64Bytes(from)) <==> U64Value(k) < from {
      KeyIndex(k, from);
    }
  }

  // ----- purging a prefix -----

  function DropUpto(l: IndexedLog, id: LogId): IndexedLog {
    IndexedLog(Some(id), l.entries[Clamp(id.index + 1 - Base(l.purged), 0, |l.entries|)..])
  }

  /**
   A purge leaves a log starting just above the purged index if and only if it
   does not go back below an earlier purge of a non-empty log, and does not
   purge up to the greatest index while an entry is stored there.
   */
  lemma PurgeRefinesIff(s: Store, l: IndexedLog, id: LogId)
    requires Refines(s, l)
    ensures Refines(Store(Above(s.log, id.index), Some(id)), DropUpto(l, id)) <==>
              && (l.entries == [] || Base(l.purged) <= id.index + 1)
              && (id.index < U64_MAX || U64Bytes(U64_MAX) !in s.log)
  {
    hide Refines, Holds, DropUpto, Above;
    if (l.entries == [] || Base(l.purged) <= id.index + 1) && (id.index < U64_MAX || U64Bytes(U64_MAX) !in s.log) {
      PurgeRefines(s, l, id);
    }
    if l.entries != [] && Base(l.purged) > id.index + 1 {
      PurgeBackwards(s, l, id);
    }
    if id.index == U64_MAX && U64Bytes(U64_MAX) in s.log {
      PurgeAtMax(s, l, id);
    }
  }

  lemma AboveKeys(t: Table, upto: u64)
    requires Keyed(t)
    ensures forall k :: k in Above(t, upto) <==> k in t && U64Value(k) >= PurgeEnd(upto)
  {
    hide U64Value, U64Bytes, Less;
    forall k | k in t ensures Less(k, U64Bytes(PurgeEnd(upto))) <==> U64Value(k) < PurgeEnd(upto) {
      KeyIndex(k, PurgeEnd(upto));
    }
  }

  lemma MaxKey(k: Bytes)
    requires |k| == 8 && U64Value(k) == U64_MAX
    ensures k == U64Bytes(U64_MAX)
  {
    hide U64Value, U64Bytes;
    U64Onto(k);
  }

  lemma PurgeRefines(s: Store, l: IndexedLog, id: LogId)
    requires Refines(s, l)
    requires l.entries == [] || Base(l.purged) <= id.index + 1
    requires id.index < U64_MAX || U64Bytes(U64_MAX) !in s.log
    ensures Refines(Store(Above(s.log, id.index), Some(id)), DropUpto(l, id))
  {
    hide U64Value, U64Bytes, Less, Above;
    HoldsKeyed(s.log, Base(l.purged), l.entries);
    AboveKeys(s.log, id.index);
    AboveValues(s.log, id.index);
    var t, l' := Above(s.log, id.index), DropUpto(l, id);
    forall k | k in s.log && U64Value(k) == U64_MAX ensures id.index < U64_MAX {
      MaxKey(k);
    }
    if l.entries == [] {
      assert t == map[];
    }
  }

  lemma AboveValues(t: Table, upto: u64)
    ensures forall k :: k in Above(t, upto) ==> Above(t, upto)[k] == t[k]
  {
    hide U64Bytes, Less;
  }

  lemma PurgeBackwards(s: Store, l: IndexedLog, id: LogId)
    requires Refines(s, l) && l.entries != [] && Base(l.purged) > id.index + 1
    ensures !Refines(Store(Above(s.log, id.index), Some(id)), DropUpto(l, id))
  {
    hide Above, U64Bytes;
    assert DropUpto(l, id).entries[0].logId.index == Base(l.purged);
  }

  lemma PurgeAtMax(s: Store, l: IndexedLog, id: LogId)
    requires Refines(s, l) && id.index == U64_MAX && U64Bytes(U64_MAX) in s.log
    ensures !Refines(Store(Above(s.log, id.index), Some(id)), DropUpto(l, id))
  {
    hide U64Value, U64Bytes, Less, Above;
    HoldsKeyed(s.log, Base(l.purged), l.entries);
    AboveKeys(s.log, id.index);
    U64RoundTrip(U64_MAX);
    assert U64Bytes(U64_MAX) in Above(s.log, id.index);
  }

  // ----- runs -----

  datatype Step =
    | Append(entries: seq<Entry>)
    | DeleteConflict(from: u64)
    | Purge(id: LogId)

  /** The calls Raft makes: entries that follow on, and purges that move forward, below the greatest index. */
  ghost predicate Allowed(l: IndexedLog, step: Step) {
    match step
    case Append(entries) => Follows(l, entries)
    case DeleteConflict(_) => true
    case Purge(id) => Base(l.purged) <= id.index + 1 && id.index < U64_MAX
  }

  function Apply(s: Store, step: Step): Store {
    match step
    case Append(entries) => Store(AppendAll(s.log, entries), s.lastPurged)
    case DeleteConflict(from) => Store(Below(s.log, from), s.lastPurged)
    case Purge(id) => Store(Above(s.log, id.index), Some(id))
  }

  function ApplyIndexed(l: IndexedLog, step: Step): IndexedLog {
    match step
    case Append(entries) => IndexedLog(l.purged, l.entries + entries)
    case DeleteConflict(from) => TakeBelow(l, from)
    case Purge(id) => DropUpto(l, id)
  }

  function Run(steps: seq<Step>): Store {
    if steps == [] then Store(map[], None) else Apply(Run(steps[..|steps| - 1]), steps[|steps| - 1])
  }

  function RunIndexed(steps: seq<Step>): IndexedLog {
    if steps == [] then IndexedLog(None, [])
    else ApplyIndexed(RunIndexed(steps[..|steps| - 1]), steps[|steps| - 1])
  }

  /**
   In every run the stored indices are one interval that starts just above the
   last purged index, and the entries are those of the indexed log.
   */
  lemma {:induction false} RunRefines(steps: seq<Step>)
    requires forall i :: 0 <= i < |steps| ==> Allowed(RunIndexed(steps[..i]), steps[i])
    ensures Refines(Run(steps), RunIndexed(steps))
  {
    hide Refines, Allowed, Apply, ApplyIndexed;
    if steps == [] {
      EmptyRefines();
    } else {
      var n := |steps| - 1;
      forall i | 0 <= i < n ensures Allowed(RunIndexed(steps[..n][..i]), steps[..n][i]) {
        assert steps[..n][..i] == steps[..i];
      }
      RunRefines(steps[..n]);
      StepRefines(Run(steps[..n]), RunIndexed(steps[..n]), steps[n]);
    }
  }

  lemma EmptyRefines()
    ensures Refines(Store(map[], None), IndexedLog(None, []))
  {
  }

  lemma {:induction false} StepRefines(s: Store, l: IndexedLog, step: Step)
    requires Refines(s, l) && Allowed(l, step)
    ensures Refines(Apply(s, step), ApplyIndexed(l, step))
  {
    hide Refines, Follows, AppendAll, Below, Above, TakeBelow, DropUpto;
    match step
    case Append(entries) => AppendRefines(s, l, entries);
    case DeleteConflict(from) => DeleteRefines(s, l, from);
    case Purge(id) => PurgeRefinesIff(s, l, id);
  }

  // ----- the store as an object -----

  lemma EntriesAtPlus(t: Table, ks: seq<Bytes>, k: Bytes)
    requires k in t && forall x :: x in ks ==> x in t
    ensures EntriesAt(t, ks + [k]) == EntriesAt(t, ks) + [t[k]]
  {
    assert (ks + [k])[..|ks|] == ks;
  }

  lemma FromKeyed(t: Table, start: u64)
    requires Keyed(t)
    ensures forall k :: k in KeysFrom(t.Keys, U64Bytes(start)) ==> k in t && |k| == 8
  {
    hide U64Value, U64Bytes, SortedKeys;
  }

  lemma AllFromZero(t: Table)
    requires Keyed(t)
    ensures forall k :: k in KeysFrom(t.Keys, U64Bytes(0)) <==> k in t
  {
    hide U64Value, U64Bytes, Less, SortedKeys;
    KeysFromExactly(t.Keys, U64Bytes(0));
    forall k | k in t ensures AtMost(U64Bytes(0), k) {
      KeyIndex(k, 0);
    }
  }

  method CollectBelow(iter: seq<Bytes>, end: Bytes) returns (keys: seq<Bytes>)
    ensures forall k :: k in keys <==> k in iter && Less(k, end)
  {
    hide Less;
    keys := [];
    var i := 0;
    while i < |iter|
      invariant 0 <= i <= |iter|
      invariant forall k :: k in keys <==> k in iter[..i] && Less(k, end)
    {
      assert iter[..i + 1] == iter[..i] + [iter[i]];
      if Less(iter[i], end) {
        keys := keys + [iter[i]];
      }
      i := i + 1;
    }
    assert iter[..i] == iter;
  }

  datatype Bound = Included(index: u64) | Excluded(index: u64) | Unbounded

  class RocksLogStore {
    var log: Table
    var lastPurged: Option<LogId>

    function Now(): Store
      reads this
    {
      Store(log, lastPurged)
    }

    constructor ()
      ensures Now() == Run([])
    {
      log, lastPurged := map[], None;
    }

    method AppendToLog(entries: seq<Entry>)
      modifies this`log
      ensures Now() == Apply(old(Now()), Append(entries))
    {
      var i := 0;
      while i < |entries|
        invariant 0 <= i <= |entries| && log == AppendAll(old(log), entries[..i])
      {
        assert entries[..i + 1][..i] == entries[..i];
        log := log[U64Bytes(entries[i].logId.index) := entries[i]];
        i := i + 1;
      }
      assert entries[..i] == entries;
    }

    /** Deletes the given keys one by one. */
    method DeleteKeys(keys: seq<Bytes>)
      modifies this`log
      ensures log == old(log) - (set k | k in keys)
    {
      var i := 0;
      while i < |keys|
        invariant 0 <= i <= |keys| && log == old(log) - (set k | k in keys[..i])
      {
        assert keys[..i + 1] == keys[..i] + [keys[i]];
        log := log - {keys[i]};
        i := i + 1;
      }
      assert keys[..i] == keys;
    }

    method DeleteConflictLogsSince(id: LogId)
      modifies this`log
      ensures Now() == Apply(old(Now()), DeleteConflict(id.index))
    {
      var start := U64Bytes(id.index);
      var keys := KeysFrom(log.Keys, start);
      KeysFromExactly(log.Keys, start);
      forall k: Bytes ensures AtMost(start, k) <==> !Less(k, start) {
        AtMostOrLess(start, k);
      }
      DeleteKeys(keys);
      assert log == Below(old(log), id.index);
    }

    method PurgeLogsUpto(id: LogId)
      requires Keyed(log)
      modifies this
      ensures Now() == Apply(old(Now()), Purge(id))
    {
      hide Less, SortedKeys, KeysFrom, Keyed;
      lastPurged := Some(id);
      var end := U64Bytes(PurgeEnd(id.index));
      AllFromZero(log);
      var keys := CollectBelow(KeysFrom(log.Keys, U64Bytes(0)), end);
      DeleteKeys(keys);
      assert log == Above(old(log), id.index);
    }

    /** The scan from `start` that stops at the first index not below `end`. */
    method ReadLogEntries(start: u64, end: Option<u64>) returns (r: seq<Entry>)
      requires Keyed(log)
      ensures r == EntriesAt(log, KeysInRange(log, start, end))
    {
      hide KeysFrom, KeysInRange, Keyed, U64Value, U64Bytes;
      var iter := KeysFrom(log.Keys, U64Bytes(start));
      FromKeyed(log, start);
      r := [];
      var i := 0;
      while i < |iter|
        invariant 0 <= i <= |iter| && r == EntriesAt(log, iter[..i])
        invariant end.Some? ==> forall k :: k in iter[..i] ==> U64Value(k) < end.value
      {
        assert iter[i] in iter;
        var index := U64Value(iter[i]);
        if end.Some? && index >= end.value {
          break;
        }
        assert iter[..i + 1] == iter[..i] + [iter[i]];
        EntriesAtPlus(log, iter[..i], iter[i]);
        r := r + [log[iter[i]]];
        i := i + 1;
      }
      RangeScanStops(log, start, end, i);
    }

    method TryGetLogEntries(low: Bound, high: Bound) returns (r: seq<Entry>)
      requires Keyed(log)
      requires low.Excluded? ==> low.index < U64_MAX
      requires high.Included? ==> high.index < U64_MAX
      ensures forall e :: e in r <==>
                (exists k :: k in log && log[k] == e && (low.Included? ==> low.index <= e.logId.index)
                             && (low.Excluded? ==> low.index < e.logId.index)
                             && (high.Included? ==> e.logId.index <= high.index)
                             && (high.Excluded? ==> e.logId.index < high.index))
      ensures forall i, j :: 0 <= i < j < |r| ==> r[i].logId.index < r[j].logId.index
    {
      var start := match low case Included(s) => s case Excluded(s) => s + 1 case Unbounded => 0;
      var end := match high case Included(e) => Some(e + 1) case Excluded(e) => Some(e) case Unbounded => None;
      hide EntriesAt, KeysInRange, Keyed;
      r := ReadLogEntries(start, end);
      RangeReadExact(log, start, end);
    }

    /** Seeks to the last entry; with none, the purged id is the last one. */
    method GetLogState() returns (state: LogState)
      ensures Reports(Now(), state)
    {
      hide SortedKeys, Reports;
      LastReported(Now());
      var ks := SortedKeys(log.Keys);
      var lastId := if ks == [] then None else Some(log[ks[|ks| - 1]].logId);
      state := LogState(lastPurged, if lastId.Some? then lastId else lastPurged);
    }
  }
}
