/** The coordinator and its decision log as they are: objects updated call by call. */
module TwoPhaseCommit {
  import opened Wrappers
  import opened TwoPhaseModel
  import opened TwoPhaseSafety

  class DecisionLog {
    var entries: seq<LogEntry>

    constructor ()
      ensures entries == []
    {
      entries := [];
    }

    method LogPrepare(tx: TxId, participants: seq<PartitionId>)
      modifies this
      ensures entries == old(entries) + [Prepare(tx, participants)]
    {
      entries := entries + [Prepare(tx, participants)];
    }

    method LogCommit(tx: TxId)
      modifies this
      ensures entries == old(entries) + [Commit(tx)]
    {
      entries := entries + [Commit(tx)];
    }

    method LogAbort(tx: TxId)
      modifies this
      ensures entries == old(entries) + [Abort(tx)]
    {
      entries := entries + [Abort(tx)];
    }

    /** Transactions with a prepare record and no decision, each once, in the table's own order. */
    method InDoubtTransactions() returns (r: seq<TxId>)
      ensures forall tx :: tx in r <==> InDoubt(entries, tx)
      ensures forall i, j :: 0 <= i < j < |r| ==> r[i] != r[j]
    {
      var prepared: map<TxId, bool> := map[];
      var i := 0;
      while i < |entries|
        invariant i <= |entries|
        invariant forall tx :: tx in prepared && prepared[tx] <==> InDoubt(entries[..i], tx)
        invariant forall tx :: tx in prepared && !prepared[tx] <==> Commit(tx) in entries[..i] || Abort(tx) in entries[..i]
      {
        InDoubtPlus(entries[..i], entries[i]);
        assert entries[..i + 1] == entries[..i] + [entries[i]];
        match entries[i] {
          case Prepare(tx, _) =>
            if tx !in prepared {
              prepared := prepared[tx := true];
            }
          case Commit(tx) => prepared := prepared[tx := false];
          case Abort(tx) => prepared := prepared[tx := false];
        }
        i := i + 1;
      }
      assert entries[..i] == entries;
      r := [];
      var left := prepared.Keys;
      while left != {}
        invariant left <= prepared.Keys
        invariant forall tx :: tx in r <==> tx in prepared && tx !in left && prepared[tx]
        invariant forall i, j :: 0 <= i < j < |r| ==> r[i] != r[j]
        decreases |left|
      {
        var tx :| tx in left;
        left := left - {tx};
        if prepared[tx] {
          r := r + [tx];
        }
      }
    }
  }

  lemma InDoubtPlus(log: seq<LogEntry>, e: LogEntry)
    ensures forall tx | tx != e.tx :: InDoubt(log + [e], tx) <==> InDoubt(log, tx)
    ensures e.Prepare? ==> (InDoubt(log + [e], e.tx) <==> Commit(e.tx) !in log && Abort(e.tx) !in log)
    ensures !e.Prepare? ==> !InDoubt(log + [e], e.tx)
  {
    forall tx | tx != e.tx ensures InDoubt(log + [e], tx) <==> InDoubt(log, tx) {
      assert forall x: LogEntry :: x.tx == tx ==> (x in log + [e] <==> x in log);
    }
    if e.Prepare? {
      assert Prepare(e.tx, e.participants) in log + [e];
    }
  }

  lemma LogOfPlus(t: Trace, e: Event)
    ensures LogOf(t + [e]) == LogOf(t) + (if e.Logged? then [e.entry] else [])
  {
    assert (t + [e])[..|t|] == t;
  }

  class TwoPhaseCoordinator {
    const handles: set<PartitionId>
    const log: DecisionLog
    var next: TxId
    var transactions: map<TxId, TxRecord>
    /** Everything logged and every message sent, in order. */
    ghost var trace: Trace

    ghost function Now(): State
      reads this
    {
      State(next, transactions, trace)
    }

    /** The log holds what the trace wrote, and the coordinator is in a state some run reaches. */
    ghost predicate Valid()
      reads this, log
    {
      log.entries == LogOf(trace) && Inv(handles, Now())
    }

    constructor (handles: set<PartitionId>)
      ensures Valid() && fresh(log) && this.handles == handles && Now() == INITIAL
    {
      this.handles := handles;
      log := new DecisionLog();
      next, transactions, trace := 1, map[], [];
      new;
      InitialInv(handles);
    }

    method BeginDistributedTx() returns (id: TxId)
      requires Valid()
      modifies this
      ensures Valid() && Now() == Begin(old(Now()))
      ensures id == old(next) && id !in old(transactions)
    {
      hide Inv;
      BeginKeeps(handles, Now());
      NextIsNew(handles, Now());
      id := next;
      next := next + 1;
      transactions := transactions[id := TxRecord(Initiated, [])];
    }

    /** The participants' votes, in the order asked, are given. */
    method PrepareAll(tx: TxId, ids: seq<PartitionId>, votes: nat -> Vote) returns (r: Result<bool, TxError>)
      requires Valid()
      modifies this, log
      ensures Valid() && (Now(), r) == PrepareTx(handles, old(Now()), tx, ids, votes)
    {
      hide Inv, AskAll, LogOf;
      PrepareKeeps(handles, Now(), tx, ids, votes);
      if tx !in transactions {
        return Failure(CoordinatorFailed);
      }
      var state := transactions[tx].state;
      if !state.Initiated? {
        return Failure(Refusal(state));
      }
      transactions := transactions[tx := TxRecord(Preparing, ids)];
      log.LogPrepare(tx, ids);
      LogOfPlus(trace, Logged(Prepare(tx, ids)));
      trace := trace + [Logged(Prepare(tx, ids))];
      r := AskInTurn(tx, ids, votes);
      assert old(trace) + ([Logged(Prepare(tx, ids))] + AskAll(handles, tx, ids, votes, 0).events) == trace;
      if r.Success? {
        transactions := transactions[tx := TxRecord(if r.value then Prepared else Preparing, ids)];
      }
      Overwritten(old(transactions), tx, TxRecord(Preparing, ids), transactions[tx]);
    }

    /** Contacting each participant until one does not vote yes. */
    method AskInTurn(tx: TxId, ids: seq<PartitionId>, votes: nat -> Vote) returns (r: Result<bool, TxError>)
      requires log.entries == LogOf(trace)
      modifies this`trace
      ensures log.entries == LogOf(trace)
      ensures trace == old(trace) + AskAll(handles, tx, ids, votes, 0).events && r == AskAll(handles, tx, ids, votes, 0).outcome
    {
      hide LogOf;
      ghost var asking := AskAll(handles, tx, ids, votes, 0);
      var i := 0;
      while i < |ids|
        invariant i <= |ids| && log.entries == LogOf(trace)
        invariant trace + AskAll(handles, tx, ids, votes, i).events == old(trace) + asking.events
        invariant AskAll(handles, tx, ids, votes, i).outcome == asking.outcome
      {
        if ids[i] !in handles {
          return Failure(ParticipantFailed(ids[i]));
        }
        LogOfPlus(trace, Asked(tx, ids[i], votes(i)));
        trace := trace + [Asked(tx, ids[i], votes(i))];
        match votes(i) {
          case Yes =>
          case No => return Success(false);
          case Silent(e) => return Failure(e);
        }
        i := i + 1;
      }
      r := Success(true);
    }

    method CommitAll(tx: TxId, replies: nat -> Reply) returns (failure: Option<TxError>)
      requires Valid()
      modifies this, log
      ensures Valid() && (Now(), failure) == CommitTx(handles, old(Now()), tx, replies)
    {
      hide Inv, TellCommits, LogOf;
      CommitKeeps(handles, Now(), tx, replies);
      if tx !in transactions {
        return Some(CoordinatorFailed);
      }
      var record := transactions[tx];
      if !record.state.Prepared? {
        return Some(Refusal(record.state));
      }
      var ids := record.participants;
      transactions := transactions[tx := TxRecord(Committing, ids)];
      log.LogCommit(tx);
      LogOfPlus(trace, Logged(Commit(tx)));
      trace := trace + [Logged(Commit(tx))];
      failure := TellEachCommit(tx, ids, replies);
      assert old(trace) + ([Logged(Commit(tx))] + TellCommits(handles, tx, ids, replies, 0).events) == trace;
      if failure.None? {
        transactions := transactions[tx := TxRecord(Committed, ids)];
      }
      Overwritten(old(transactions), tx, TxRecord(Committing, ids), transactions[tx]);
    }

    method TellEachCommit(tx: TxId, ids: seq<PartitionId>, replies: nat -> Reply) returns (failure: Option<TxError>)
      requires log.entries == LogOf(trace)
      modifies this`trace
      ensures log.entries == LogOf(trace)
      ensures trace == old(trace) + TellCommits(handles, tx, ids, replies, 0).events
      ensures failure == TellCommits(handles, tx, ids, replies, 0).failure
    {
      hide LogOf;
      ghost var telling := TellCommits(handles, tx, ids, replies, 0);
      var i := 0;
      while i < |ids|
        invariant i <= |ids| && log.entries == LogOf(trace)
        invariant trace + TellCommits(handles, tx, ids, replies, i).events == old(trace) + telling.events
        invariant TellCommits(handles, tx, ids, replies, i).failure == telling.failure
      {
        if ids[i] !in handles {
          return Some(ParticipantFailed(ids[i]));
        }
        LogOfPlus(trace, ToldCommit(tx, ids[i], replies(i)));
        trace := trace + [ToldCommit(tx, ids[i], replies(i))];
        if replies(i).Refused? {
          return Some(replies(i).error);
        }
        i := i + 1;
      }
      failure := None;
    }

    method AbortAll(tx: TxId, replies: nat -> Reply) returns (failure: Option<TxError>)
      requires Valid()
      modifies this, log
      ensures Valid() && (Now(), failure) == AbortTx(handles, old(Now()), tx, replies)
    {
      hide Inv, TellAborts, LogOf;
      AbortKeeps(handles, Now(), tx, replies);
      if tx !in transactions {
        return Some(CoordinatorFailed);
      }
      var record := transactions[tx];
      if record.state.Committed? || record.state.Aborted? {
        return Some(Refusal(record.state));
      }
      var ids := record.participants;
      transactions := transactions[tx := TxRecord(Aborting, ids)];
      log.LogAbort(tx);
      LogOfPlus(trace, Logged(Abort(tx)));
      trace := trace + [Logged(Abort(tx))];
      TellEachAbort(tx, ids, replies);
      assert old(trace) + ([Logged(Abort(tx))] + TellAborts(handles, tx, ids, replies, 0)) == trace;
      transactions := transactions[tx := TxRecord(Aborted, ids)];
      Overwritten(old(transactions), tx, TxRecord(Aborting, ids), transactions[tx]);
      failure := None;
    }

    /** A participant's failure to abort stops nothing. */
    method TellEachAbort(tx: TxId, ids: seq<PartitionId>, replies: nat -> Reply)
      requires log.entries == LogOf(trace)
      modifies this`trace
      ensures log.entries == LogOf(trace)
      ensures trace == old(trace) + TellAborts(handles, tx, ids, replies, 0)
    {
      hide LogOf;
      ghost var telling := TellAborts(handles, tx, ids, replies, 0);
      var i := 0;
      while i < |ids|
        invariant i <= |ids| && log.entries == LogOf(trace)
        invariant trace + TellAborts(handles, tx, ids, replies, i) == old(trace) + telling
      {
        if ids[i] in handles {
          LogOfPlus(trace, ToldAbort(tx, ids[i], replies(i)));
          trace := trace + [ToldAbort(tx, ids[i], replies(i))];
        }
        i := i + 1;
      }
    }

    /** The in-doubt transactions: precisely those that are `Preparing` or `Prepared`, each once. */
    method Recover() returns (r: seq<TxId>)
      requires Valid()
      ensures forall tx :: tx in r <==>
                tx in transactions && (transactions[tx].state.Preparing? || transactions[tx].state.Prepared?)
      ensures forall i, j :: 0 <= i < j < |r| ==> r[i] != r[j]
    {
      hide Inv, LogOf, InDoubt;
      r := log.InDoubtTransactions();
      forall tx ensures tx in r <==> tx in transactions && (transactions[tx].state.Preparing? || transactions[tx].state.Prepared?) {
        InDoubtInState(handles, Now(), tx);
      }
    }

    method StateOf(tx: TxId) returns (state: Option<TxState>)
      ensures state == if tx in transactions then Some(transactions[tx].state) else None
    {
      if tx in transactions {
        state := Some(transactions[tx].state);
      } else {
        state := None;
      }
    }
  }

  lemma Overwritten(m: map<TxId, TxRecord>, tx: TxId, a: TxRecord, b: TxRecord)
    ensures m[tx := a][tx := b] == m[tx := b]
  {
  }

  lemma NextIsNew(handles: set<PartitionId>, s: State)
    requires Inv(handles, s)
    ensures s.next !in s.txs
  {
  }
}
