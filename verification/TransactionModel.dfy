/**
 Optimistic transactions as a state machine: begin, buffered writes, commit with
 conflict check and pruned conflict table, rollback, and whole runs of these.
 Each step is one call of the transaction manager or of a transaction.
 */
module TransactionModel {
  import opened Bytes
  import opened OrderedStore
  import opened Wrappers
  import opened VersionedKeys
  import opened MvccStores

  datatype TxState = Active | Committed | RolledBack

  datatype TxError = Mvcc(error: MvccError) | WriteConflict | NotActive | AlreadyCommitted

  type TxResult<T> = Result<T, TxError>

  datatype Tx = Tx(id: u64, snapshotTs: u64, state: TxState, writes: seq<VersionedWrite>)

  type KeyRef = (string, Bytes)

  const GC_THRESHOLD: nat := 10_000

  function KeyList(writes: seq<VersionedWrite>): seq<KeyRef> {
    seq(|writes|, i requires 0 <= i < |writes| => (writes[i].cf, writes[i].key))
  }

  function WriteKeys(writes: seq<VersionedWrite>): set<KeyRef> {
    set w | w in writes :: (w.cf, w.key)
  }

  lemma KeyListIsWriteKeys(writes: seq<VersionedWrite>, k: KeyRef)
    ensures k in KeyList(writes) <==> k in WriteKeys(writes)
  {
    if k in WriteKeys(writes) {
      var w :| w in writes && k == (w.cf, w.key);
      var i :| 0 <= i < |writes| && writes[i] == w;
      assert KeyList(writes)[i] == k;
    }
  }

  /** The value the last write to a key buffers: nothing if none, `Some(None)` for a delete. */
  function LastWrite(writes: seq<VersionedWrite>, cf: string, key: Bytes): (r: Option<Option<Bytes>>)
    ensures r.Some? <==> (cf, key) in WriteKeys(writes)
  {
    if writes == [] then None
    else
      var w := writes[|writes| - 1];
      assert WriteKeys(writes) == WriteKeys(writes[..|writes| - 1]) + {(w.cf, w.key)};
      if w.cf == cf && w.key == key then Some(w.value)
      else LastWrite(writes[..|writes| - 1], cf, key)
  }

  // ----- the manager -----

  /** A committed transaction; `watermark` is the highest pruning watermark when it committed. */
  datatype CommitRecord = CommitRecord(ts: u64, snapshotTs: u64, writes: seq<VersionedWrite>, watermark: nat)

  type ConflictTable = map<u64, seq<KeyRef>>

  /** `history` and `watermark` only record what happened; the code keeps neither. */
  datatype Manager = Manager(
    families: set<string>,
    counter: u64,
    committedWrites: ConflictTable,
    gcWatermark: u64,
    history: seq<CommitRecord>,
    watermark: nat)

  function Max(a: nat, b: nat): nat {
    if a < b then b else a
  }

  function Retain(table: ConflictTable, watermark: nat): ConflictTable {
    map ts | ts in table && ts > watermark :: table[ts]
  }

  /** A transaction still in the conflict table committed a common key after the snapshot. */
  ghost predicate Conflicts(table: ConflictTable, snapshotTs: u64, keys: set<KeyRef>) {
    exists ts, k :: ts in table && ts > snapshotTs && k in table[ts] && k in keys
  }

  ghost predicate FamiliesKnown(m: Manager, writes: seq<VersionedWrite>) {
    forall w :: w in writes ==> w.cf in m.families
  }

  /** The watermark of the automatic pruning at the end of a commit, if the table has grown too large. */
  function AutoPrune(table: ConflictTable, ts: u64): Option<nat> {
    if |table| > GC_THRESHOLD then Some(if ts >= GC_THRESHOLD then ts - GC_THRESHOLD else 0) else None
  }

  function Recorded(m: Manager, tx: Tx): Manager
    requires m.counter < U64_MAX
  {
    var ts := m.counter;
    var table := m.committedWrites[ts := KeyList(tx.writes)];
    var record := CommitRecord(ts, tx.snapshotTs, tx.writes, m.watermark);
    match AutoPrune(table, ts)
    case None => m.(counter := ts + 1, committedWrites := table, history := m.history + [record])
    case Some(w) => m.(counter := ts + 1, committedWrites := Retain(table, w), history := m.history + [record],
                       watermark := Max(m.watermark, w))
  }

  ghost function BeginStep(m: Manager): (Manager, Tx)
    requires 0 < m.counter < U64_MAX
  {
    (m.(counter := m.counter + 1), Tx(m.counter, m.counter - 1, Active, []))
  }

  ghost function CommitStep(m: Manager, tx: Tx): (Manager, Tx, TxResult<u64>)
    requires m.counter < U64_MAX
  {
    if tx.state != Active then (m, tx, Failure(AlreadyCommitted))
    else if Conflicts(m.committedWrites, tx.snapshotTs, WriteKeys(tx.writes)) then (m, tx, Failure(WriteConflict))
    else if !FamiliesKnown(m, tx.writes) then (m.(counter := m.counter + 1), tx, Failure(Mvcc(Internal)))
    else (Recorded(m, tx), tx.(state := Committed), Success(m.counter))
  }

  function RollbackStep(tx: Tx): (Tx, TxResult<()>) {
    if tx.state != Active then (tx, Failure(NotActive)) else (tx.(state := RolledBack), Success(()))
  }

  function WriteStep(tx: Tx, w: VersionedWrite): (Tx, TxResult<()>) {
    if tx.state != Active then (tx, Failure(NotActive)) else (tx.(writes := tx.writes + [w]), Success(()))
  }

  function PruneStep(m: Manager, watermark: u64): Manager {
    m.(committedWrites := Retain(m.committedWrites, watermark), gcWatermark := watermark,
       watermark := Max(m.watermark, watermark))
  }

  // ----- reads -----

  function Normalized(value: Option<Bytes>): Option<Bytes> {
    if StoredValue(value) == [] then None else value
  }

  /** What the committed history says a snapshot sees: the newest commit at or before it that wrote the key. */
  function HistoryRead(history: seq<CommitRecord>, cf: string, key: Bytes, ts: u64): Option<Bytes> {
    if history == [] then None
    else
      var last := history[|history| - 1];
      if last.ts <= ts && LastWrite(last.writes, cf, key).Some? then
        Normalized(LastWrite(last.writes, cf, key).value)
      else
        HistoryRead(history[..|history| - 1], cf, key, ts)
  }

  function ReadStep(m: Manager, tx: Tx, cf: string, key: Bytes): TxResult<Option<Bytes>> {
    if tx.state != Active then Failure(NotActive)
    else if LastWrite(tx.writes, cf, key).Some? then Success(LastWrite(tx.writes, cf, key).value)
    else if cf !in m.families then Failure(Mvcc(Internal))
    else Success(HistoryRead(m.history, cf, key, tx.snapshotTs))
  }

  ghost predicate Increasing(history: seq<CommitRecord>) {
    forall i, j :: 0 <= i < j < |history| ==> history[i].ts < history[j].ts
  }

  /** Record `i` is the newest at or before `ts` that wrote the key. */
  ghost predicate NewestWriter(history: seq<CommitRecord>, i: nat, cf: string, key: Bytes, ts: u64) {
    && i < |history| && history[i].ts <= ts && (cf, key) in WriteKeys(history[i].writes)
    && forall j :: 0 <= j < |history| && history[j].ts <= ts && (cf, key) in WriteKeys(history[j].writes) ==>
         history[j].ts <= history[i].ts
  }

  /** A snapshot read returns the last write of the newest transaction at or before it that wrote the key. */
  lemma {:induction false} HistoryReadIsNewest(history: seq<CommitRecord>, cf: string, key: Bytes, ts: u64)
    requires Increasing(history)
    ensures forall i: nat :: NewestWriter(history, i, cf, key, ts) ==>
              HistoryRead(history, cf, key, ts) == Normalized(LastWrite(history[i].writes, cf, key).value)
    ensures (forall i :: 0 <= i < |history| && history[i].ts <= ts ==> (cf, key) !in WriteKeys(history[i].writes)) ==>
              HistoryRead(history, cf, key, ts) == None
  {
    if history != [] {
      var n := |history| - 1;
      HistoryReadIsNewest(history[..n], cf, key, ts);
      forall i: nat | NewestWriter(history, i, cf, key, ts)
        ensures HistoryRead(history, cf, key, ts) == Normalized(LastWrite(history[i].writes, cf, key).value)
      {
        if i != n {
          assert NewestWriter(history[..n], i, cf, key, ts);
        }
      }
    }
  }

  /** Commits after the snapshot do not change what it sees. */
  lemma {:induction false} LaterCommitsInvisible(history: seq<CommitRecord>, more: seq<CommitRecord>, cf: string,
                                                 key: Bytes, ts: u64)
    requires forall r :: r in more ==> r.ts > ts
    ensures HistoryRead(history + more, cf, key, ts) == HistoryRead(history, cf, key, ts)
  {
    if more == [] {
      assert history + more == history;
    } else {
      var n := |more| - 1;
      assert more[n] in more;
      assert (history + more)[..|history + more| - 1] == history + more[..n];
      LaterCommitsInvisible(history, more[..n], cf, key, ts);
    }
  }

  // ----- the byte-level store the history leaves behind -----

  ghost predicate HistoryKnown(families: set<string>, history: seq<CommitRecord>) {
    forall r, w :: r in history && w in r.writes ==> w.cf in families
  }

  /** The column families after every commit's batch. */
  ghost function Replay(families: set<string>, history: seq<CommitRecord>): (tables: Tables)
    requires HistoryKnown(families, history)
    ensures tables.Keys == families
  {
    if history == [] then map cf | cf in families :: map[]
    else
      var last := history[|history| - 1];
      assert last in history;
      Install(Replay(families, history[..|history| - 1]), last.writes, last.ts)
  }

  lemma AppendRecord(families: set<string>, history: seq<CommitRecord>, record: CommitRecord)
    requires HistoryKnown(families, history) && Increasing(history)
    requires forall r :: r in history ==> r.ts < record.ts
    requires forall w :: w in record.writes ==> w.cf in families
    ensures HistoryKnown(families, history + [record]) && Increasing(history + [record])
    ensures FamiliesExist(Replay(families, history), record.writes)
    ensures Replay(families, history + [record]) == Install(Replay(families, history), record.writes, record.ts)
  {
    hide Install;
    assert (history + [record])[..|history|] == history;
    assert forall i :: 0 <= i < |history| ==> history[i] in history;
  }

  lemma {:induction false} ReplayVersioned(families: set<string>, history: seq<CommitRecord>)
    requires HistoryKnown(families, history)
    ensures AllVersioned(Replay(families, history))
  {
    if history != [] {
      var n := |history| - 1;
      assert history[n] in history;
      ReplayVersioned(families, history[..n]);
      InstallVersioned(Replay(families, history[..n]), history[n].writes, history[n].ts);
    }
  }

  /** A batch adds one version per key it writes, holding the last write to it. */
  lemma {:induction false} InstallEntry(tables: Tables, writes: seq<VersionedWrite>, ts: u64, cf: string, key: Bytes, u: u64)
    requires FamiliesExist(tables, writes) && cf in tables
    ensures var k := EncodeVersionedKey(key, u);
            var t' := Install(tables, writes, ts)[cf];
            if u == ts && LastWrite(writes, cf, key).Some? then
              k in t' && t'[k] == StoredValue(LastWrite(writes, cf, key).value)
            else
              (k in t' <==> k in tables[cf]) && (k in t' ==> t'[k] == tables[cf][k])
  {
    if writes != [] {
      var n := |writes| - 1;
      var w := writes[n];
      InstallEntry(tables, writes[..n], ts, cf, key, u);
      if w.cf == cf {
        var a, b := EncodeVersionedKey(key, u), EncodeVersionedKey(w.key, ts);
        if a == b {
          VersionedKeyRoundTrip(key, u);
          VersionedKeyRoundTrip(w.key, ts);
        }
      }
    }
  }

  lemma {:induction false} ReplayTimestamps(families: set<string>, history: seq<CommitRecord>, cf: string, key: Bytes,
                                            u: u64)
    requires HistoryKnown(families, history) && cf in families
    requires EncodeVersionedKey(key, u) in Replay(families, history)[cf]
    ensures exists i :: 0 <= i < |history| && history[i].ts == u
  {
    if history != [] {
      var n := |history| - 1;
      assert history[n] in history;
      InstallEntry(Replay(families, history[..n]), history[n].writes, history[n].ts, cf, key, u);
      if u != history[n].ts {
        ReplayTimestamps(families, history[..n], cf, key, u);
        var i :| 0 <= i < n && history[..n][i].ts == u;
        assert history[i].ts == u;
      }
    }
  }

  /** The versions a commit adds are newer than all the others, so only it changes what is newest. */
  lemma {:induction false} NewestAfterInstall(tables: Tables, writes: seq<VersionedWrite>, ts: u64, cf: string, key: Bytes,
                                              snapshot: u64)
    requires FamiliesExist(tables, writes) && cf in tables
    requires forall u: u64 :: u >= ts ==> EncodeVersionedKey(key, u) !in tables[cf]
    ensures Newest(Install(tables, writes, ts)[cf], key, snapshot) ==
              if ts <= snapshot && LastWrite(writes, cf, key).Some? then Some(ts) else Newest(tables[cf], key, snapshot)
    decreases snapshot
  {
    InstallEntry(tables, writes, ts, cf, key, snapshot);
    if snapshot > 0 {
      NewestAfterInstall(tables, writes, ts, cf, key, snapshot - 1);
    }
  }

  /**
   The byte-level store refines the history: reading the newest visible version
   of a key is reading the newest commit that wrote it.
   */
  lemma {:induction false} ReplayVisible(families: set<string>, history: seq<CommitRecord>, cf: string, key: Bytes, ts: u64)
    requires HistoryKnown(families, history) && Increasing(history) && cf in families
    ensures Visible(Replay(families, history)[cf], key, ts) == HistoryRead(history, cf, key, ts)
  {
    if history == [] {
      EmptyTable(key, ts);
    } else {
      var n := |history| - 1;
      var last := history[n];
      assert last in history;
      var before := Replay(families, history[..n]);
      ReplayVisible(families, history[..n], cf, key, ts);
      forall u: u64 | u >= last.ts ensures EncodeVersionedKey(key, u) !in before[cf] {
        if EncodeVersionedKey(key, u) in before[cf] {
          ReplayTimestamps(families, history[..n], cf, key, u);
        }
      }
      NewestAfterInstall(before, last.writes, last.ts, cf, key, ts);
      if Newest(Replay(families, history)[cf], key, ts).Some? {
        InstallEntry(before, last.writes, last.ts, cf, key, Newest(Replay(families, history)[cf], key, ts).value);
      }
    }
  }

  lemma {:induction false} EmptyTable(key: Bytes, ts: u64)
    ensures Newest(map[], key, ts) == None
    decreases ts
  {
    if ts > 0 {
      EmptyTable(key, ts - 1);
    }
  }
}
