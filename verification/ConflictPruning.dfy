/**
 What the pruning at the end of a commit costs: the conflict table stays small,
 and no conflict with a recent transaction is lost.
 */
module ConflictPruning {
  import opened Bytes
  import opened Wrappers
  import opened VersionedKeys
  import opened MvccStores
  import opened TransactionModel
  import opened TransactionRuns

  ghost predicate NoPruneCalls(ops: seq<Op>) {
    forall op :: op in ops ==> !op.GcCommittedWrites?
  }

  /** The pruned timestamps lie 10000 or more behind the counter, and the table holds timestamps below it. */
  ghost predicate PrunedFarBehind(m: Manager) {
    && (m.watermark == 0 || m.watermark + 10_000 < m.counter)
    && (forall ts :: ts in m.committedWrites ==> ts < m.counter)
  }

  lemma StepPrunesFarBehind(s: State, op: Op)
    requires 0 < s.manager.counter < U64_MAX && PrunedFarBehind(s.manager) && !op.GcCommittedWrites?
    ensures PrunedFarBehind(Step(s, op).manager)
  {
    hide Conflicts, FamiliesKnown, KeyList;
  }

  lemma {:induction false} RunPrunesFarBehind(s: State, ops: seq<Op>)
    requires Enough(s, ops) && PrunedFarBehind(s.manager) && NoPruneCalls(ops)
    ensures PrunedFarBehind(Run(s, ops).manager)
    decreases |ops|
  {
    hide Step, PrunedFarBehind;
    if ops != [] {
      StepUsesAtMostOne(s, ops[0]);
      assert ops[0] in ops;
      StepPrunesFarBehind(s, ops[0]);
      RunPrunesFarBehind(Step(s, ops[0]), ops[1..]);
    }
  }

  /** Unless a caller prunes, everything pruned lies more than 10000 timestamps behind the counter. */
  lemma OnlyOldIsPruned(families: set<string>, ops: seq<Op>)
    requires |ops| < U64_MAX && NoPruneCalls(ops)
    ensures var m := Run(Init(families), ops).manager;
            m.watermark == 0 || m.watermark + 10_000 < m.counter
  {
    RunPrunesFarBehind(Init(families), ops);
  }

  /**
   So, unless a caller prunes, a commit by an active transaction whose snapshot is
   at most 10000 timestamps behind the counter is refused if and only if some
   transaction that committed after its snapshot wrote one of its keys. While no
   more than 10000 timestamps have been issued that is every transaction.
   */
  lemma RecentConflictsExact(families: set<string>, ops: seq<Op>, i: nat)
    requires |ops| < U64_MAX - 1 && NoPruneCalls(ops)
    requires i < |Run(Init(families), ops).txs|
    ensures var s := Run(Init(families), ops);
            var tx := s.txs[i];
            s.manager.counter < U64_MAX &&
            (tx.state == Active && s.manager.counter <= tx.snapshotTs + 10_000 ==>
               (CommitStep(s.manager, tx).2 == Failure(WriteConflict) <==>
                exists r :: r in s.manager.history && r.ts > tx.snapshotTs && !(WriteKeys(r.writes) !! WriteKeys(tx.writes))))
  {
    hide Run, CommitStep, WriteKeys;
    OnlyOldIsPruned(families, ops);
    WriteConflictExact(families, ops, i);
  }

  // ----- the size of the table -----

  lemma SubsetSize<T>(a: set<T>, b: set<T>)
    requires a <= b
    ensures |a| <= |b|
  {
    assert b == a + (b - a);
  }

  lemma {:induction false} TimestampsSize(table: ConflictTable, low: nat, high: nat)
    requires low <= high <= U64_MAX + 1 && forall ts :: ts in table ==> low <= ts < high
    ensures |table| <= high - low
    decreases high - low
  {
    if low == high {
      assert table == map[];
    } else {
      var top: u64 := high - 1;
      var rest := map ts | ts in table && ts != top :: table[ts];
      TimestampsSize(rest, low, top);
      SubsetSize(table.Keys, rest.Keys + {top});
    }
  }

  ghost predicate TableSmall(m: Manager) {
    |m.committedWrites| <= 10_000 && forall ts :: ts in m.committedWrites ==> ts < m.counter
  }

  lemma RetainSize(table: ConflictTable, w: nat)
    ensures |Retain(table, w)| <= |table|
  {
    SubsetSize(Retain(table, w).Keys, table.Keys);
  }

  lemma CommitKeepsSmall(m: Manager, tx: Tx)
    requires TableSmall(m) && m.counter < U64_MAX
    ensures TableSmall(Recorded(m, tx))
  {
    hide KeyList;
    var ts := m.counter;
    var table := m.committedWrites[ts := KeyList(tx.writes)];
    if AutoPrune(table, ts).Some? {
      var w := AutoPrune(table, ts).value;
      TimestampsSize(Retain(table, w), w + 1, ts + 1);
    }
  }

  lemma StepKeepsSmall(s: State, op: Op)
    requires 0 < s.manager.counter < U64_MAX && TableSmall(s.manager)
    ensures TableSmall(Step(s, op).manager)
  {
    hide Conflicts, FamiliesKnown, Recorded;
    if op.Commit? && op.tx < |s.txs| {
      CommitKeepsSmall(s.manager, s.txs[op.tx]);
    } else if op.GcCommittedWrites? {
      RetainSize(s.manager.committedWrites, op.watermark);
    }
  }

  lemma {:induction false} RunKeepsSmall(s: State, ops: seq<Op>)
    requires Enough(s, ops) && TableSmall(s.manager)
    ensures TableSmall(Run(s, ops).manager)
    decreases |ops|
  {
    hide Step, TableSmall;
    if ops != [] {
      StepUsesAtMostOne(s, ops[0]);
      StepKeepsSmall(s, ops[0]);
      RunKeepsSmall(Step(s, ops[0]), ops[1..]);
    }
  }

  /** In every run the conflict table holds at most 10000 commits. */
  lemma TableBounded(families: set<string>, ops: seq<Op>)
    requires |ops| < U64_MAX
    ensures |Run(Init(families), ops).manager.committedWrites| <= 10_000
  {
    RunKeepsSmall(Init(families), ops);
  }

  /** A commit forgets nothing while the table holds fewer than 10000 commits. */
  lemma SmallTableKept(m: Manager, tx: Tx)
    requires m.counter < U64_MAX && CommitStep(m, tx).2.Success? && |m.committedWrites| < 10_000
    ensures CommitStep(m, tx).0.committedWrites.Keys == m.committedWrites.Keys + {m.counter}
    ensures CommitStep(m, tx).0.watermark == m.watermark
  {
    hide Conflicts, FamiliesKnown, KeyList;
    var table := m.committedWrites[m.counter := KeyList(tx.writes)];
    assert table.Keys == m.committedWrites.Keys + {m.counter};
    if m.counter in m.committedWrites {
      assert table.Keys == m.committedWrites.Keys;
    }
    assert |table.Keys| <= |m.committedWrites.Keys| + 1;
  }

  // ----- transactions that ended, and commits that fail -----

  /**
   A transaction that committed or was rolled back stays as it is whatever is
   called, and every call on it fails: no write joins it and no commit of it
   enters the history.
   */
  lemma EndedIsOver(s: State, op: Op, i: nat)
    requires 0 < s.manager.counter < U64_MAX && i < |s.txs| && s.txs[i].state != Active
    ensures i < |Step(s, op).txs| && Step(s, op).txs[i] == s.txs[i]
    ensures OwnOp(op, i) ==> Step(s, op) == s
    ensures CommitStep(s.manager, s.txs[i]).2 == Failure(AlreadyCommitted)
    ensures RollbackStep(s.txs[i]).1 == Failure(NotActive)
    ensures op.Write? ==> WriteStep(s.txs[i], op.write).1 == Failure(NotActive)
  {
    hide Conflicts, FamiliesKnown, Recorded, Retain;
    if OwnOp(op, i) {
      assert s.txs[i := s.txs[i]] == s.txs;
    }
  }

  lemma {:induction false} EndedStaysOver(s: State, ops: seq<Op>, i: nat)
    requires Enough(s, ops) && i < |s.txs| && s.txs[i].state != Active
    ensures i < |Run(s, ops).txs| && Run(s, ops).txs[i] == s.txs[i]
    decreases |ops|
  {
    hide Step;
    if ops != [] {
      StepUsesAtMostOne(s, ops[0]);
      EndedIsOver(s, ops[0], i);
      EndedStaysOver(Step(s, ops[0]), ops[1..], i);
    }
  }

  /** A rollback ends an active transaction as rolled back and leaves the manager alone. */
  lemma RollbackEnds(s: State, ops: seq<Op>, i: nat)
    requires Enough(s, ops) && s.manager.counter < U64_MAX && i < |s.txs| && s.txs[i].state == Active
    ensures Step(s, Rollback(i)).manager == s.manager && Enough(Step(s, Rollback(i)), ops)
    ensures i < |Run(Step(s, Rollback(i)), ops).txs|
    ensures Run(Step(s, Rollback(i)), ops).txs[i] == s.txs[i].(state := RolledBack)
  {
    EndedStaysOver(Step(s, Rollback(i)), ops, i);
  }

  /**
   Which error a commit fails with, and that a failed one changes nothing but,
   when the batch is refused, the counter.
   */
  lemma CommitFails(m: Manager, tx: Tx)
    requires m.counter < U64_MAX
    ensures var (m', tx', r) := CommitStep(m, tx);
            && (r == Failure(AlreadyCommitted) <==> tx.state != Active)
            && (r == Failure(WriteConflict) <==>
                  tx.state == Active && Conflicts(m.committedWrites, tx.snapshotTs, WriteKeys(tx.writes)))
            && (r == Failure(Mvcc(Internal)) <==>
                  && tx.state == Active
                  && !Conflicts(m.committedWrites, tx.snapshotTs, WriteKeys(tx.writes))
                  && exists w :: w in tx.writes && w.cf !in m.families)
            && (r.Failure? ==> tx' == tx && m' == m.(counter := m'.counter))
            && (r.Failure? ==> m'.counter == if r == Failure(Mvcc(Internal)) then m.counter + 1 else m.counter)
            && (r.Success? ==> tx' == tx.(state := Committed) && r.value == m.counter && m'.counter == m.counter + 1)
            && (r.Success? ==> m'.history == m.history + [CommitRecord(m.counter, tx.snapshotTs, tx.writes, m.watermark)])
            && m'.families == m.families && m'.gcWatermark == m.gcWatermark
  {
    hide Conflicts, KeyList, Retain;
  }
}
