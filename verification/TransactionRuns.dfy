/**
 Whole runs of the transaction manager with any number of interleaved
 transactions: snapshot isolation and first committer wins.
 */
module TransactionRuns {
  import opened Bytes
  import opened Wrappers
  import opened VersionedKeys
  import opened MvccStores
  import opened TransactionModel

  /** The manager and every transaction begun so far, by position. */
  datatype State = State(manager: Manager, txs: seq<Tx>)

  datatype Op =
    | Begin
    | Write(tx: nat, write: VersionedWrite)
    | Commit(tx: nat)
    | Rollback(tx: nat)
    | GcCommittedWrites(watermark: u64)

  ghost function Init(families: set<string>): State {
    State(Manager(families, 1, map[], 0, [], 0), [])
  }

  /** One call; a call on a transaction that was never begun cannot be made and does nothing. */
  ghost function Step(s: State, op: Op): State
    requires 0 < s.manager.counter < U64_MAX
  {
    match op
    case Begin =>
      var (m, tx) := BeginStep(s.manager);
      State(m, s.txs + [tx])
    case Write(i, w) =>
      if i < |s.txs| then s.(txs := s.txs[i := WriteStep(s.txs[i], w).0]) else s
    case Commit(i) =>
      if i < |s.txs| then
        var (m, tx, _) := CommitStep(s.manager, s.txs[i]);
        State(m, s.txs[i := tx])
      else s
    case Rollback(i) =>
      if i < |s.txs| then s.(txs := s.txs[i := RollbackStep(s.txs[i]).0]) else s
    case GcCommittedWrites(w) => s.(manager := PruneStep(s.manager, w))
  }

  /** The oracle still has timestamps for a run of this length. */
  ghost predicate Enough(s: State, ops: seq<Op>) {
    0 < s.manager.counter && s.manager.counter + |ops| <= U64_MAX
  }

  lemma StepUsesAtMostOne(s: State, op: Op)
    requires 0 < s.manager.counter < U64_MAX
    ensures s.manager.counter <= Step(s, op).manager.counter <= s.manager.counter + 1
  {
  }

  ghost function Run(s: State, ops: seq<Op>): State
    requires Enough(s, ops)
    decreases |ops|
  {
    if ops == [] then s
    else
      StepUsesAtMostOne(s, ops[0]);
      Run(Step(s, ops[0]), ops[1..])
  }

  // ----- the invariant -----

  ghost predicate Overlap(earlier: CommitRecord, later: CommitRecord) {
    later.snapshotTs < earlier.ts < later.ts
  }

  ghost predicate Disjoint(a: CommitRecord, b: CommitRecord) {
    WriteKeys(a.writes) !! WriteKeys(b.writes)
  }

  ghost predicate HistoryInv(m: Manager) {
    && m.counter > 0
    && Increasing(m.history)
    && (forall r :: r in m.history ==> r.snapshotTs < r.ts < m.counter)
  }

  /** The conflict table holds exactly the commits that pruning has not removed. */
  ghost predicate TableInv(m: Manager) {
    && (forall ts :: ts in m.committedWrites ==> exists r :: r in m.history && r.ts == ts)
    && (forall r :: r in m.history && r.ts in m.committedWrites ==> m.committedWrites[r.ts] == KeyList(r.writes))
    && (forall r :: r in m.history && r.ts !in m.committedWrites ==> r.ts <= m.watermark)
  }

  /** Overlapping commits touch different keys, unless the later one began before the pruning watermark. */
  ghost predicate FirstCommitterWins(m: Manager) {
    forall a, b :: a in m.history && b in m.history && Overlap(a, b) && b.snapshotTs >= b.watermark ==> Disjoint(a, b)
  }

  ghost predicate TxsInv(s: State) {
    forall tx :: tx in s.txs ==> tx.snapshotTs < s.manager.counter
  }

  ghost predicate Inv(s: State) {
    HistoryInv(s.manager) && TableInv(s.manager) && FirstCommitterWins(s.manager) && TxsInv(s)
  }

  /**
   The conflict check is exact: it reports a conflict just when a transaction
   that committed after the snapshot, and is still in the table, wrote a common key.
   */
  lemma ConflictExact(m: Manager, snapshotTs: u64, keys: set<KeyRef>)
    requires TableInv(m)
    ensures Conflicts(m.committedWrites, snapshotTs, keys) <==>
              exists r :: r in m.history && r.ts in m.committedWrites && r.ts > snapshotTs && !(WriteKeys(r.writes) !! keys)
  {
    if Conflicts(m.committedWrites, snapshotTs, keys) {
      var ts, k :| ts in m.committedWrites && ts > snapshotTs && k in m.committedWrites[ts] && k in keys;
      var r :| r in m.history && r.ts == ts;
      KeyListIsWriteKeys(r.writes, k);
    }
    if r :| r in m.history && r.ts in m.committedWrites && r.ts > snapshotTs && !(WriteKeys(r.writes) !! keys) {
      var k :| k in WriteKeys(r.writes) && k in keys;
      KeyListIsWriteKeys(r.writes, k);
      assert k in m.committedWrites[r.ts];
    }
  }

  /** At or above the watermark pruning loses nothing: conflict if and only if a later committer wrote a common key. */
  lemma ConflictExactAboveWatermark(m: Manager, snapshotTs: u64, keys: set<KeyRef>)
    requires TableInv(m) && snapshotTs >= m.watermark
    ensures Conflicts(m.committedWrites, snapshotTs, keys) <==>
              exists r :: r in m.history && r.ts > snapshotTs && !(WriteKeys(r.writes) !! keys)
  {
    ConflictExact(m, snapshotTs, keys);
    if r :| r in m.history && r.ts > snapshotTs && !(WriteKeys(r.writes) !! keys) {
      assert r.ts in m.committedWrites;
    }
  }

  lemma RetainKeepsTable(m: Manager, w: nat)
    requires HistoryInv(m) && TableInv(m)
    ensures HistoryInv(Pruned(m, w)) && TableInv(Pruned(m, w))
  {
    var m' := Pruned(m, w);
    forall ts | ts in m'.committedWrites ensures exists r :: r in m'.history && r.ts == ts {
      assert ts in m.committedWrites;
    }
  }

  /** The manager after a commit, before any automatic pruning. */
  ghost function BeforePrune(m: Manager, tx: Tx): Manager
    requires m.counter < U64_MAX
  {
    m.(counter := m.counter + 1, committedWrites := m.committedWrites[m.counter := KeyList(tx.writes)],
       history := m.history + [CommitRecord(m.counter, tx.snapshotTs, tx.writes, m.watermark)])
  }

  lemma CommitAddsEntry(m: Manager, tx: Tx)
    requires HistoryInv(m) && TableInv(m) && m.counter < U64_MAX && tx.snapshotTs < m.counter
    ensures HistoryInv(BeforePrune(m, tx)) && TableInv(BeforePrune(m, tx))
  {
    hide KeyList;
    var record := CommitRecord(m.counter, tx.snapshotTs, tx.writes, m.watermark);
    var m1 := BeforePrune(m, tx);
    assert forall r :: r in m1.history <==> r in m.history || r == record;
    forall t | t in m1.committedWrites ensures exists r :: r in m1.history && r.ts == t {
      if t == m.counter {
        assert record in m1.history && record.ts == t;
      } else {
        var r :| r in m.history && r.ts == t;
        assert r in m1.history;
      }
    }
  }

  ghost function Pruned(m: Manager, w: nat): Manager {
    m.(committedWrites := Retain(m.committedWrites, w), watermark := Max(m.watermark, w))
  }

  lemma RecordedIsPruned(m: Manager, tx: Tx)
    requires m.counter < U64_MAX
    ensures var prune := AutoPrune(BeforePrune(m, tx).committedWrites, m.counter);
            Recorded(m, tx) == if prune.Some? then Pruned(BeforePrune(m, tx), prune.value) else BeforePrune(m, tx)
  {
    hide KeyList, Retain, Max;
  }

  lemma CommitKeepsHistory(m: Manager, tx: Tx)
    requires HistoryInv(m) && TableInv(m) && m.counter < U64_MAX && tx.snapshotTs < m.counter
    ensures HistoryInv(Recorded(m, tx)) && TableInv(Recorded(m, tx))
  {
    CommitAddsEntry(m, tx);
    var m1 := BeforePrune(m, tx);
    var prune := AutoPrune(m1.committedWrites, m.counter);
    if prune.Some? {
      RetainKeepsTable(m1, prune.value);
    }
    RecordedIsPruned(m, tx);
    hide BeforePrune, TableInv, Recorded;
  }

  lemma CommitKeepsWinners(m: Manager, tx: Tx)
    requires HistoryInv(m) && TableInv(m) && FirstCommitterWins(m) && m.counter < U64_MAX
    requires tx.snapshotTs < m.counter
    requires !Conflicts(m.committedWrites, tx.snapshotTs, WriteKeys(tx.writes))
    ensures FirstCommitterWins(Recorded(m, tx))
  {
    var record := CommitRecord(m.counter, tx.snapshotTs, tx.writes, m.watermark);
    if tx.snapshotTs >= m.watermark {
      ConflictExactAboveWatermark(m, tx.snapshotTs, WriteKeys(tx.writes));
    }
    assert Recorded(m, tx).history == m.history + [record];
    forall a, b | a in m.history + [record] && b in m.history + [record] && Overlap(a, b) && b.snapshotTs >= b.watermark
      ensures Disjoint(a, b)
    {
      if b == record && a in m.history {
        assert a.ts > tx.snapshotTs;
      }
    }
  }

  lemma StepKeepsTxs(s: State, op: Op)
    requires Inv(s) && s.manager.counter < U64_MAX
    ensures TxsInv(Step(s, op))
  {
    assert s.manager.counter > 0;
    hide HistoryInv, TableInv, FirstCommitterWins, Conflicts, Retain, KeyList;
    var s' := Step(s, op);
    forall i | 0 <= i < |s'.txs| ensures s'.txs[i].snapshotTs < s'.manager.counter {
      assert i < |s.txs| ==> s.txs[i] in s.txs;
    }
  }

  ghost predicate ManagerInv(m: Manager) {
    HistoryInv(m) && TableInv(m) && FirstCommitterWins(m)
  }

  lemma CounterKeepsManager(m: Manager)
    requires ManagerInv(m) && m.counter < U64_MAX
    ensures ManagerInv(m.(counter := m.counter + 1))
  {
    assert FirstCommitterWins(m.(counter := m.counter + 1));
  }

  lemma PruneKeepsManager(m: Manager, w: u64)
    requires ManagerInv(m)
    ensures ManagerInv(PruneStep(m, w))
  {
    RetainKeepsTable(m, w);
    assert PruneStep(m, w) == Pruned(m, w).(gcWatermark := w);
    hide Retain;
    assert TableInv(PruneStep(m, w)) && FirstCommitterWins(PruneStep(m, w));
  }

  lemma CommitKeepsManager(m: Manager, tx: Tx)
    requires ManagerInv(m) && m.counter < U64_MAX && tx.snapshotTs < m.counter
    ensures ManagerInv(CommitStep(m, tx).0)
  {
    if CommitStep(m, tx).2.Success? {
      CommitKeepsHistory(m, tx);
      CommitKeepsWinners(m, tx);
    } else {
      CounterKeepsManager(m);
    }
    hide HistoryInv, TableInv, FirstCommitterWins, Conflicts, WriteKeys, Recorded;
  }

  lemma StepKeepsInv(s: State, op: Op)
    requires Inv(s) && s.manager.counter < U64_MAX
    ensures Inv(Step(s, op))
  {
    StepKeepsTxs(s, op);
    CounterKeepsManager(s.manager);
    if op.Commit? && op.tx < |s.txs| {
      assert s.txs[op.tx] in s.txs;
      CommitKeepsManager(s.manager, s.txs[op.tx]);
    } else if op.GcCommittedWrites? {
      PruneKeepsManager(s.manager, op.watermark);
    }
    hide HistoryInv, TableInv, FirstCommitterWins, TxsInv, CommitStep, PruneStep;
  }

  lemma {:induction false} RunKeepsInv(s: State, ops: seq<Op>)
    requires Inv(s) && Enough(s, ops)
    ensures Inv(Run(s, ops))
    decreases |ops|
  {
    if ops != [] {
      StepUsesAtMostOne(s, ops[0]);
      StepKeepsInv(s, ops[0]);
      RunKeepsInv(Step(s, ops[0]), ops[1..]);
    }
  }

  lemma ReachableInv(families: set<string>, ops: seq<Op>)
    requires |ops| < U64_MAX
    ensures Inv(Run(Init(families), ops))
  {
    RunKeepsInv(Init(families), ops);
  }

  // ----- first committer wins -----

  /**
   In every reachable state a commit by an active transaction whose snapshot is
   at or above the pruning watermark is refused if and only if some transaction
   that committed after its snapshot wrote one of its keys.
   */
  lemma WriteConflictExact(families: set<string>, ops: seq<Op>, i: nat)
    requires |ops| < U64_MAX - 1
    requires i < |Run(Init(families), ops).txs|
    ensures var s := Run(Init(families), ops);
            var tx := s.txs[i];
            s.manager.counter < U64_MAX &&
            (tx.state == Active && tx.snapshotTs >= s.manager.watermark ==>
               (CommitStep(s.manager, tx).2 == Failure(WriteConflict) <==>
                exists r :: r in s.manager.history && r.ts > tx.snapshotTs && !(WriteKeys(r.writes) !! WriteKeys(tx.writes))))
  {
    ReachableInv(families, ops);
    RunCounter(Init(families), ops);
    var s := Run(Init(families), ops);
    if s.txs[i].snapshotTs >= s.manager.watermark {
      ConflictExactAboveWatermark(s.manager, s.txs[i].snapshotTs, WriteKeys(s.txs[i].writes));
    }
  }

  lemma {:induction false} RunCounter(s: State, ops: seq<Op>)
    requires Enough(s, ops)
    ensures s.manager.counter <= Run(s, ops).manager.counter <= s.manager.counter + |ops|
    decreases |ops|
  {
    if ops != [] {
      StepUsesAtMostOne(s, ops[0]);
      RunCounter(Step(s, ops[0]), ops[1..]);
    }
  }

  /** Two committed transactions that overlapped in time wrote disjoint sets of keys. */
  lemma OverlappingCommitsDisjoint(families: set<string>, ops: seq<Op>, a: CommitRecord, b: CommitRecord)
    requires |ops| < U64_MAX
    requires var h := Run(Init(families), ops).manager.history; a in h && b in h
    requires Overlap(a, b) && b.snapshotTs >= b.watermark
    ensures Disjoint(a, b)
  {
    ReachableInv(families, ops);
  }

  /** Two transactions that began and wrote the same key, and the first of them committed. */
  ghost function RaceState(w: VersionedWrite): State {
    State(Manager({w.cf}, 4, map[3 := [(w.cf, w.key)]], 0, [CommitRecord(3, 0, [w], 0)], 0),
          [Tx(1, 0, Committed, [w]), Tx(2, 1, Active, [w])])
  }

  lemma RaceSteps(w: VersionedWrite)
    ensures Step(Init({w.cf}), Begin).manager.counter == 2
    ensures Step(Step(Init({w.cf}), Begin), Begin) ==
              State(Manager({w.cf}, 3, map[], 0, [], 0), [Tx(1, 0, Active, []), Tx(2, 1, Active, [])])
  {
    assert Step(Init({w.cf}), Begin).txs == [Tx(1, 0, Active, [])];
    assert [Tx(1, 0, Active, [])] + [Tx(2, 1, Active, [])] == [Tx(1, 0, Active, []), Tx(2, 1, Active, [])];
  }

  lemma RaceWrites(w: VersionedWrite)
    ensures var s := State(Manager({w.cf}, 3, map[], 0, [], 0), [Tx(1, 0, Active, []), Tx(2, 1, Active, [])]);
            && Step(s, Write(0, w)).manager == s.manager
            && Step(Step(s, Write(0, w)), Write(1, w)) ==
                 State(s.manager, [Tx(1, 0, Active, [w]), Tx(2, 1, Active, [w])])
  {
    assert [] + [w] == [w];
    var s := State(Manager({w.cf}, 3, map[], 0, [], 0), [Tx(1, 0, Active, []), Tx(2, 1, Active, [])]);
    assert Step(s, Write(0, w)).txs == [Tx(1, 0, Active, [w]), Tx(2, 1, Active, [])];
    assert Step(Step(s, Write(0, w)), Write(1, w)).txs == [Tx(1, 0, Active, [w]), Tx(2, 1, Active, [w])];
  }

  lemma RaceCommit(w: VersionedWrite)
    ensures Step(State(Manager({w.cf}, 3, map[], 0, [], 0), [Tx(1, 0, Active, [w]), Tx(2, 1, Active, [w])]), Commit(0)) ==
              RaceState(w)
  {
    var m := Manager({w.cf}, 3, map[], 0, [], 0);
    assert KeyList([w]) == [(w.cf, w.key)];
    assert Recorded(m, Tx(1, 0, Active, [w])) == RaceState(w).manager;
    assert CommitStep(m, Tx(1, 0, Active, [w])).2.Success?;
  }

  lemma RunOne(s: State, ops: seq<Op>)
    requires Enough(s, ops) && ops != []
    ensures s.manager.counter < U64_MAX && Enough(Step(s, ops[0]), ops[1..])
    ensures Run(s, ops) == Run(Step(s, ops[0]), ops[1..])
  {
    StepUsesAtMostOne(s, ops[0]);
  }

  lemma RaceReachable(w: VersionedWrite)
    ensures Run(Init({w.cf}), [Begin, Begin, Write(0, w), Write(1, w), Commit(0)]) == RaceState(w)
  {
    RaceSteps(w);
    RaceWrites(w);
    RaceCommit(w);
    hide Step, Run;
    var ops := [Begin, Begin, Write(0, w), Write(1, w), Commit(0)];
    RunOne(Init({w.cf}), ops);
    RunOne(Step(Init({w.cf}), Begin), ops[1..]);
    var s := State(Manager({w.cf}, 3, map[], 0, [], 0), [Tx(1, 0, Active, []), Tx(2, 1, Active, [])]);
    assert ops[1..][1..] == [Write(0, w), Write(1, w), Commit(0)];
    RunOne(s, [Write(0, w), Write(1, w), Commit(0)]);
    assert [Write(0, w), Write(1, w), Commit(0)][1..] == [Write(1, w), Commit(0)];
    RunOne(Step(s, Write(0, w)), [Write(1, w), Commit(0)]);
    assert [Write(1, w), Commit(0)][1..] == [Commit(0)];
    RunOne(State(s.manager, [Tx(1, 0, Active, [w]), Tx(2, 1, Active, [w])]), [Commit(0)]);
    assert [Commit(0)][1..] == [];
    RunEmpty(RaceState(w));
  }

  lemma RunEmpty(s: State)
    requires Enough(s, [])
    ensures Run(s, []) == s
  {
  }

  /** Below the watermark an update can be lost: pruning with a future watermark forgets the first committer. */
  lemma PrunedConflictLost(w: VersionedWrite)
    ensures CommitStep(RaceState(w).manager, RaceState(w).txs[1]).2 == Failure(WriteConflict)
    ensures var s := Step(RaceState(w), GcCommittedWrites(100));
            s.txs[1].snapshotTs < s.manager.watermark && CommitStep(s.manager, s.txs[1]).2.Success?
  {
    assert (w.cf, w.key) in WriteKeys([w]);
    assert RaceState(w).manager.committedWrites[3] == [(w.cf, w.key)];
    assert (w.cf, w.key) in RaceState(w).manager.committedWrites[3];
    assert Step(RaceState(w), GcCommittedWrites(100)).manager.committedWrites == map[];
  }

  // ----- snapshot isolation -----

  /** The operation belongs to transaction `i`. */
  ghost predicate OwnOp(op: Op, i: nat) {
    match op
    case Write(j, _) => i == j
    case Commit(j) => i == j
    case Rollback(j) => i == j
    case _ => false
  }

  lemma SnapshotIsOld(s: State, i: nat)
    requires Inv(s) && i < |s.txs|
    ensures s.txs[i].snapshotTs < s.manager.counter
  {
    assert s.txs[i] in s.txs;
  }

  /** A step of another transaction leaves this one alone and adds at most one commit, with the counter's timestamp. */
  lemma StepLeavesOthers(s: State, op: Op, i: nat)
    requires 0 < s.manager.counter < U64_MAX && i < |s.txs| && !OwnOp(op, i)
    ensures var s' := Step(s, op);
            && i < |s'.txs| && s'.txs[i] == s.txs[i] && s'.manager.families == s.manager.families
            && (s'.manager.history == s.manager.history
                || exists r: CommitRecord :: r.ts == s.manager.counter && s'.manager.history == s.manager.history + [r])
  {
    hide Conflicts, Retain, FamiliesKnown, KeyList;
    if op.Commit? && op.tx < |s.txs| && CommitStep(s.manager, s.txs[op.tx]).2.Success? {
      var record := CommitRecord(s.manager.counter, s.txs[op.tx].snapshotTs, s.txs[op.tx].writes, s.manager.watermark);
      assert Step(s, op).manager.history == s.manager.history + [record];
    }
  }

  lemma StepStable(s: State, op: Op, i: nat, cf: string, key: Bytes)
    requires Inv(s) && s.manager.counter < U64_MAX && i < |s.txs| && !OwnOp(op, i)
    ensures i < |Step(s, op).txs| && Step(s, op).txs[i] == s.txs[i]
    ensures ReadStep(Step(s, op).manager, s.txs[i], cf, key) == ReadStep(s.manager, s.txs[i], cf, key)
  {
    hide Inv, Step, Conflicts, HistoryRead, LastWrite;
    SnapshotIsOld(s, i);
    StepLeavesOthers(s, op, i);
    var before, after := s.manager.history, Step(s, op).manager.history;
    if after != before {
      var record := after[|before|];
      LaterCommitsInvisible(before, [record], cf, key, s.txs[i].snapshotTs);
    }
  }

  /**
   Whatever the other transactions do, begin, write, commit, roll back, prune, in
   any order and number, a transaction keeps reading the same value of every key.
   */
  lemma {:induction false} ReadsAreStable(s: State, ops: seq<Op>, i: nat, cf: string, key: Bytes)
    requires Inv(s) && Enough(s, ops) && i < |s.txs|
    requires forall op :: op in ops ==> !OwnOp(op, i)
    ensures i < |Run(s, ops).txs| && Run(s, ops).txs[i] == s.txs[i]
    ensures ReadStep(Run(s, ops).manager, s.txs[i], cf, key) == ReadStep(s.manager, s.txs[i], cf, key)
    decreases |ops|
  {
    if ops != [] {
      StepUsesAtMostOne(s, ops[0]);
      StepKeepsInv(s, ops[0]);
      StepStable(s, ops[0], i, cf, key);
      ReadsAreStable(Step(s, ops[0]), ops[1..], i, cf, key);
    }
  }

  /** A transaction reads its own last write to a key, whatever anyone else did in between. */
  lemma ReadsOwnWrite(s: State, w: VersionedWrite, ops: seq<Op>, i: nat)
    requires Inv(s) && s.manager.counter + |ops| < U64_MAX && i < |s.txs| && s.txs[i].state == Active
    requires forall op :: op in ops ==> !OwnOp(op, i)
    ensures Enough(Step(s, Write(i, w)), ops)
    ensures i < |Run(Step(s, Write(i, w)), ops).txs|
    ensures ReadStep(Run(Step(s, Write(i, w)), ops).manager, Run(Step(s, Write(i, w)), ops).txs[i], w.cf, w.key) ==
              Success(w.value)
  {
    StepKeepsInv(s, Write(i, w));
    var s' := Step(s, Write(i, w));
    assert s'.txs[i].writes[|s'.txs[i].writes| - 1] == w;
    ReadsAreStable(s', ops, i, w.cf, w.key);
  }

  /**
   A commit installs exactly the last buffered write of each key: a transaction
   begun right after it reads that write, and every other key as it was before.
   */
  lemma {:induction false} CommitInstalls(s: State, i: nat, cf: string, key: Bytes)
    requires Inv(s) && s.manager.counter < U64_MAX - 1 && i < |s.txs| && cf in s.manager.families
    requires CommitStep(s.manager, s.txs[i]).2.Success?
    ensures var s' := Step(Step(s, Commit(i)), Begin);
            var reader := s'.txs[|s'.txs| - 1];
            ReadStep(s'.manager, reader, cf, key) ==
              if (cf, key) in WriteKeys(s.txs[i].writes)
              then Success(Normalized(LastWrite(s.txs[i].writes, cf, key).value))
              else Success(HistoryRead(s.manager.history, cf, key, s.manager.counter))
  {
    hide Inv, Conflicts, HistoryRead, LastWrite, Normalized;
    CommitSeenFrom(s, i, cf, key, s.manager.counter);
  }

  /** A run only appends to the history. */
  lemma {:induction false} HistoryGrows(s: State, ops: seq<Op>)
    requires Enough(s, ops)
    ensures s.manager.history <= Run(s, ops).manager.history
    ensures Run(s, ops).manager.families == s.manager.families
    decreases |ops|
  {
    hide Step;
    if ops != [] {
      StepUsesAtMostOne(s, ops[0]);
      StepGrows(s, ops[0]);
      HistoryGrows(Step(s, ops[0]), ops[1..]);
    }
  }

  lemma StepGrows(s: State, op: Op)
    requires 0 < s.manager.counter < U64_MAX
    ensures s.manager.history <= Step(s, op).manager.history && Step(s, op).manager.families == s.manager.families
  {
    hide Conflicts, FamiliesKnown, KeyList, Retain;
  }

  /** Commits that did not write the key change no read of it. */
  lemma {:induction false} UnwrittenUnchanged(history: seq<CommitRecord>, more: seq<CommitRecord>, cf: string,
                                              key: Bytes, ts: u64)
    requires forall r :: r in more ==> (cf, key) !in WriteKeys(r.writes)
    ensures HistoryRead(history + more, cf, key, ts) == HistoryRead(history, cf, key, ts)
  {
    hide WriteKeys, LastWrite, Normalized;
    if more == [] {
      assert history + more == history;
    } else {
      var n := |more| - 1;
      assert more[n] in more;
      assert (history + more)[..|history + more| - 1] == history + more[..n];
      UnwrittenUnchanged(history, more[..n], cf, key, ts);
    }
  }

  /**
   A commit is visible to every later transaction: whatever runs after it, a
   transaction begun then reads its last write of the key, unless a still later
   commit wrote the key.
   */
  lemma VisibleToLater(s: State, i: nat, ops: seq<Op>, cf: string, key: Bytes)
    requires Inv(s) && s.manager.counter + |ops| + 1 < U64_MAX && i < |s.txs| && cf in s.manager.families
    requires CommitStep(s.manager, s.txs[i]).2.Success? && (cf, key) in WriteKeys(s.txs[i].writes)
    ensures var s1 := Step(s, Commit(i));
            && Enough(s1, ops) && s1.manager.history <= Run(s1, ops).manager.history
            && Run(s1, ops).manager.counter < U64_MAX
            && var later := Run(s1, ops);
            && 0 < later.manager.counter
            && var s2 := Step(later, Begin);
            && s2.txs != []
            && ((forall r :: r in later.manager.history[|s1.manager.history|..] ==> (cf, key) !in WriteKeys(r.writes)) ==>
                  ReadStep(s2.manager, s2.txs[|s2.txs| - 1], cf, key)
                    == Success(Normalized(LastWrite(s.txs[i].writes, cf, key).value)))
  {
    hide Inv, Conflicts, HistoryRead, WriteKeys, LastWrite, Normalized, FamiliesKnown;
    CounterPositive(s);
    var s1 := Step(s, Commit(i));
    StepUsesAtMostOne(s, Commit(i));
    StepGrows(s, Commit(i));
    HistoryGrows(s1, ops);
    RunCounter(s1, ops);
    var later := Run(s1, ops);
    var h, more := s1.manager.history, later.manager.history[|s1.manager.history|..];
    assert later.manager.history == h + more;
    if forall r :: r in more ==> (cf, key) !in WriteKeys(r.writes) {
      UnwrittenUnchanged(h, more, cf, key, later.manager.counter - 1);
      CommitSeenFrom(s, i, cf, key, later.manager.counter - 1);
      BeginReads(later, cf, key);
      CommitCounts(s, i);
    }
  }

  lemma CounterPositive(s: State)
    requires Inv(s)
    ensures s.manager.counter > 0
  {
  }

  lemma CommitCounts(s: State, i: nat)
    requires 0 < s.manager.counter < U64_MAX && i < |s.txs| && CommitStep(s.manager, s.txs[i]).2.Success?
    ensures Step(s, Commit(i)).manager.counter == s.manager.counter + 1
  {
    hide Conflicts, FamiliesKnown, KeyList, Retain;
  }

  lemma BeginReads(s: State, cf: string, key: Bytes)
    requires 0 < s.manager.counter < U64_MAX && cf in s.manager.families
    ensures var s' := Step(s, Begin);
            s'.txs != [] && ReadStep(s'.manager, s'.txs[|s'.txs| - 1], cf, key)
              == Success(HistoryRead(s.manager.history, cf, key, s.manager.counter - 1))
  {
    hide HistoryRead;
  }

  /**
   What a writer reads of its own write is what the next transaction reads after
   the commit, if and only if the write did not put the empty string, which the
   store takes for a deletion.
   */
  lemma OwnReadSurvivesCommit(s: State, i: nat, cf: string, key: Bytes)
    requires Inv(s) && s.manager.counter < U64_MAX - 1 && i < |s.txs| && cf in s.manager.families
    requires CommitStep(s.manager, s.txs[i]).2.Success? && (cf, key) in WriteKeys(s.txs[i].writes)
    ensures var s' := Step(Step(s, Commit(i)), Begin);
            ReadStep(s'.manager, s'.txs[|s'.txs| - 1], cf, key) == ReadStep(s.manager, s.txs[i], cf, key) <==>
              LastWrite(s.txs[i].writes, cf, key).value != Some([])
  {
    CommitInstalls(s, i, cf, key);
  }

  /**
   Which timestamps a commit is visible from: the counter's value at the commit
   and later. A transaction's snapshot is always earlier, so it never changes; a
   `Snapshot` is taken at the counter itself, and the next commit shows in it.
   */
  lemma CommitSeenFrom(s: State, i: nat, cf: string, key: Bytes, ts: u64)
    requires Inv(s) && s.manager.counter < U64_MAX && i < |s.txs| && CommitStep(s.manager, s.txs[i]).2.Success?
    ensures HistoryRead(Step(s, Commit(i)).manager.history, cf, key, ts) ==
              if ts >= s.manager.counter && (cf, key) in WriteKeys(s.txs[i].writes)
              then Normalized(LastWrite(s.txs[i].writes, cf, key).value)
              else HistoryRead(s.manager.history, cf, key, ts)
  {
    var record := CommitRecord(s.manager.counter, s.txs[i].snapshotTs, s.txs[i].writes, s.manager.watermark);
    var h := s.manager.history + [record];
    assert Step(s, Commit(i)).manager.history == h;
    assert h[..|h| - 1] == s.manager.history;
  }
}
