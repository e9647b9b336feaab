/**
 What each call of the coordinator sends and answers, message by message, and
 that decisions reach the participants.
 */
module TwoPhaseOutcomes {
  import opened Wrappers
  import opened TwoPhaseModel
  import opened TwoPhaseSafety

  // ----- preparing -----

  /** The first `n` participants are known and vote yes. */
  predicate YesUpTo(handles: set<PartitionId>, ids: seq<PartitionId>, votes: nat -> Vote, n: nat) {
    n <= |ids| && forall k :: 0 <= k < n ==> ids[k] in handles && votes(k) == Yes
  }

  lemma {:induction false} AskMeaning(handles: set<PartitionId>, tx: TxId, ids: seq<PartitionId>, votes: nat -> Vote, i: nat,
                                      n: nat)
    requires i <= n <= |ids| && YesUpTo(handles, ids, votes, n)
    requires n < |ids| ==> !(ids[n] in handles && votes(n) == Yes)
    ensures var a := AskAll(handles, tx, ids, votes, i);
            && a.events == seq(n - i, k requires 0 <= k < n - i => Asked(tx, ids[i + k], Yes))
                           + (if n < |ids| && ids[n] in handles then [Asked(tx, ids[n], votes(n))] else [])
            && a.outcome == if n == |ids| then Success(true)
                            else if ids[n] !in handles then Failure(ParticipantFailed(ids[n]))
                            else if votes(n).No? then Success(false)
                            else Failure(votes(n).error)
    decreases n - i
  {
    if i < n {
      AskMeaning(handles, tx, ids, votes, i + 1, n);
      assert seq(n - i, k requires 0 <= k < n - i => Asked(tx, ids[i + k], Yes)) ==
             [Asked(tx, ids[i], Yes)] + seq(n - i - 1, k requires 0 <= k < n - i - 1 => Asked(tx, ids[i + 1 + k], Yes));
    }
  }

  /**
   Preparing logs the intent, then asks the participants in order and stops at the
   first that is unknown or answers otherwise than yes; it answers true if and only
   if there is none, false for a no, and else the failure.
   */
  lemma {:induction false} PrepareMeaning(handles: set<PartitionId>, s: State, tx: TxId, ids: seq<PartitionId>,
                                          votes: nat -> Vote, n: nat)
    requires tx in s.txs && s.txs[tx].state.Initiated?
    requires YesUpTo(handles, ids, votes, n) && (n < |ids| ==> !(ids[n] in handles && votes(n) == Yes))
    ensures var (s', r) := PrepareTx(handles, s, tx, ids, votes);
            && s'.trace == s.trace + ([Logged(Prepare(tx, ids))]
                 + (seq(n, k requires 0 <= k < n => Asked(tx, ids[k], Yes))
                    + (if n < |ids| && ids[n] in handles then [Asked(tx, ids[n], votes(n))] else [])))
            && s'.next == s.next
            && s'.txs == s.txs[tx := TxRecord(if n == |ids| then Prepared else Preparing, ids)]
            && r == if n == |ids| then Success(true)
                    else if ids[n] !in handles then Failure(ParticipantFailed(ids[n]))
                    else if votes(n).No? then Success(false)
                    else Failure(votes(n).error)
  {
    AskMeaning(handles, tx, ids, votes, 0, n);
    assert seq(n, k requires 0 <= k < n => Asked(tx, ids[k], Yes)) ==
           seq(n - 0, k requires 0 <= k < n - 0 => Asked(tx, ids[0 + k], Yes));
  }

  // ----- committing -----

  predicate DoneUpTo(handles: set<PartitionId>, ids: seq<PartitionId>, replies: nat -> Reply, n: nat) {
    n <= |ids| && forall k :: 0 <= k < n ==> ids[k] in handles && replies(k) == Done
  }

  lemma {:induction false} TellMeaning(handles: set<PartitionId>, tx: TxId, ids: seq<PartitionId>, replies: nat -> Reply,
                                       i: nat, n: nat)
    requires i <= n <= |ids| && DoneUpTo(handles, ids, replies, n)
    requires n < |ids| ==> !(ids[n] in handles && replies(n) == Done)
    ensures var a := TellCommits(handles, tx, ids, replies, i);
            && a.events == seq(n - i, k requires 0 <= k < n - i => ToldCommit(tx, ids[i + k], Done))
                           + (if n < |ids| && ids[n] in handles then [ToldCommit(tx, ids[n], replies(n))] else [])
            && a.failure == if n == |ids| then None
                            else if ids[n] !in handles then Some(ParticipantFailed(ids[n]))
                            else Some(replies(n).error)
    decreases n - i
  {
    if i < n {
      TellMeaning(handles, tx, ids, replies, i + 1, n);
      assert seq(n - i, k requires 0 <= k < n - i => ToldCommit(tx, ids[i + k], Done)) ==
             [ToldCommit(tx, ids[i], Done)]
             + seq(n - i - 1, k requires 0 <= k < n - i - 1 => ToldCommit(tx, ids[i + 1 + k], Done));
    }
  }

  /**
   Committing logs the decision, then tells the participants in order and stops at
   the first that is unknown or fails; the transaction is committed if and only if
   there is none.
   */
  lemma {:induction false} CommitMeaning(handles: set<PartitionId>, s: State, tx: TxId, replies: nat -> Reply, n: nat)
    requires tx in s.txs && s.txs[tx].state.Prepared?
    requires var ids := s.txs[tx].participants;
             DoneUpTo(handles, ids, replies, n) && (n < |ids| ==> !(ids[n] in handles && replies(n) == Done))
    ensures var ids := s.txs[tx].participants;
            var (s', failure) := CommitTx(handles, s, tx, replies);
            && s'.trace == s.trace + ([Logged(Commit(tx))]
                 + (seq(n, k requires 0 <= k < n => ToldCommit(tx, ids[k], Done))
                    + (if n < |ids| && ids[n] in handles then [ToldCommit(tx, ids[n], replies(n))] else [])))
            && s'.next == s.next
            && s'.txs == s.txs[tx := TxRecord(if n == |ids| then Committed else Committing, ids)]
            && failure == if n == |ids| then None
                          else if ids[n] !in handles then Some(ParticipantFailed(ids[n]))
                          else Some(replies(n).error)
  {
    var ids := s.txs[tx].participants;
    TellMeaning(handles, tx, ids, replies, 0, n);
    assert seq(n, k requires 0 <= k < n => ToldCommit(tx, ids[k], Done)) ==
           seq(n - 0, k requires 0 <= k < n - 0 => ToldCommit(tx, ids[0 + k], Done));
  }

  // ----- aborting -----

  /** The positions of the known participants from the i-th on, in order. */
  ghost predicate KnownFrom(handles: set<PartitionId>, ids: seq<PartitionId>, i: nat, at: seq<nat>) {
    && (forall a :: 0 <= a < |at| ==> i <= at[a] < |ids|)
    && (forall a, b :: 0 <= a < b < |at| ==> at[a] < at[b])
    && (forall k :: i <= k < |ids| ==> (k in at <==> ids[k] in handles))
  }

  /** The messages to the participants at these positions. */
  ghost function AbortsAt(tx: TxId, ids: seq<PartitionId>, replies: nat -> Reply, at: seq<nat>): (t: Trace)
    requires forall a :: 0 <= a < |at| ==> at[a] < |ids|
    ensures |t| == |at| && forall a :: 0 <= a < |at| ==> t[a] == ToldAbort(tx, ids[at[a]], replies(at[a]))
  {
    seq(|at|, a requires 0 <= a < |at| => ToldAbort(tx, ids[at[a]], replies(at[a])))
  }

  lemma KnownStep(handles: set<PartitionId>, ids: seq<PartitionId>, i: nat, rest: seq<nat>)
    requires i < |ids| && KnownFrom(handles, ids, i + 1, rest)
    ensures KnownFrom(handles, ids, i, if ids[i] in handles then [i] + rest else rest)
  {
    var at := if ids[i] in handles then [i] + rest else rest;
    forall k | i <= k < |ids| ensures k in at <==> ids[k] in handles {
      assert k in at <==> (k == i && ids[i] in handles) || k in rest;
      assert i !in rest;
    }
  }

  lemma Bounded(handles: set<PartitionId>, ids: seq<PartitionId>, i: nat, at: seq<nat>)
    requires KnownFrom(handles, ids, i, at)
    ensures forall a :: 0 <= a < |at| ==> at[a] < |ids|
  {
  }

  lemma {:induction false} AbortsAtStep(tx: TxId, ids: seq<PartitionId>, replies: nat -> Reply, i: nat, rest: seq<nat>)
    requires i < |ids| && forall a :: 0 <= a < |rest| ==> rest[a] < |ids|
    ensures AbortsAt(tx, ids, replies, [i] + rest) == [ToldAbort(tx, ids[i], replies(i))] + AbortsAt(tx, ids, replies, rest)
  {
  }

  lemma {:induction false} AbortsMeaning(handles: set<PartitionId>, tx: TxId, ids: seq<PartitionId>, replies: nat -> Reply,
                                         i: nat) returns (at: seq<nat>)
    requires i <= |ids|
    ensures KnownFrom(handles, ids, i, at)
    ensures TellAborts(handles, tx, ids, replies, i) == AbortsAt(tx, ids, replies, at)
    decreases |ids| - i
  {
    if i == |ids| {
      at := [];
    } else {
      var rest := AbortsMeaning(handles, tx, ids, replies, i + 1);
      KnownStep(handles, ids, i, rest);
      at := if ids[i] in handles then [i] + rest else rest;
      Bounded(handles, ids, i + 1, rest);
      hide KnownFrom, AbortsAt;
      if ids[i] in handles {
        AbortsAtStep(tx, ids, replies, i, rest);
      }
    }
  }

  /** An abort tells every known participant, in order, once for each time it is named, whatever they answer. */
  lemma {:induction false} AbortMeaning(handles: set<PartitionId>, s: State, tx: TxId, replies: nat -> Reply)
    returns (at: seq<nat>)
    requires tx in s.txs && !s.txs[tx].state.Committed? && !s.txs[tx].state.Aborted?
    ensures var ids := s.txs[tx].participants;
            && KnownFrom(handles, ids, 0, at)
            && AbortTx(handles, s, tx, replies) ==
                 (State(s.next, s.txs[tx := TxRecord(Aborted, ids)],
                    s.trace + ([Logged(Abort(tx))] + AbortsAt(tx, ids, replies, at))),
                  None)
  {
    at := AbortsMeaning(handles, tx, s.txs[tx].participants, replies, 0);
  }

  /** In every run, each known participant of an aborted transaction was told to abort. */
  lemma AbortReachesAll(handles: set<PartitionId>, steps: seq<Step>, tx: TxId, p: PartitionId)
    requires tx in Run(handles, steps).txs && Run(handles, steps).txs[tx].state.Aborted?
    requires p in Run(handles, steps).txs[tx].participants && p in handles
    ensures exists r :: ToldAbort(tx, p, r) in Run(handles, steps).trace
  {
    hide Run;
    RunKeeps(handles, steps);
    var s := Run(handles, steps);
    assert Agrees(handles, s.trace, tx, s.txs[tx]);
    var e :| e in s.trace && e.ToldAbort? && e.tx == tx && e.p == p;
    assert e == ToldAbort(tx, p, e.reply);
  }

  /** In every run, each participant of a committed transaction was told to commit and did. */
  lemma CommitReachesAll(handles: set<PartitionId>, steps: seq<Step>, tx: TxId, p: PartitionId)
    requires tx in Run(handles, steps).txs && Run(handles, steps).txs[tx].state.Committed?
    requires p in Run(handles, steps).txs[tx].participants
    ensures ToldCommit(tx, p, Done) in Run(handles, steps).trace
  {
    hide Run;
    RunKeeps(handles, steps);
    var s := Run(handles, steps);
    assert Agrees(handles, s.trace, tx, s.txs[tx]);
  }

  // ----- calls out of turn -----

  /** A call that comes out of turn changes nothing and says why. */
  lemma OutOfTurn(handles: set<PartitionId>, s: State, tx: TxId, ids: seq<PartitionId>, votes: nat -> Vote, replies: nat -> Reply)
    ensures tx !in s.txs || s.txs[tx].state != Initiated ==>
              var (s', r) := PrepareTx(handles, s, tx, ids, votes);
              s' == s && r == Failure(if tx in s.txs && s.txs[tx].state == Committed then AlreadyCommitted
                                      else if tx in s.txs && s.txs[tx].state == Aborted then AlreadyAborted else CoordinatorFailed)
    ensures tx !in s.txs || s.txs[tx].state != Prepared ==>
              var (s', r) := CommitTx(handles, s, tx, replies);
              s' == s && r == Some(if tx in s.txs && s.txs[tx].state == Committed then AlreadyCommitted
                                   else if tx in s.txs && s.txs[tx].state == Aborted then AlreadyAborted else CoordinatorFailed)
    ensures tx !in s.txs || s.txs[tx].state == Committed || s.txs[tx].state == Aborted ==>
              var (s', r) := AbortTx(handles, s, tx, replies);
              s' == s && r == Some(if tx in s.txs && s.txs[tx].state == Committed then AlreadyCommitted
                                   else if tx in s.txs && s.txs[tx].state == Aborted then AlreadyAborted else CoordinatorFailed)
  {
  }
}
