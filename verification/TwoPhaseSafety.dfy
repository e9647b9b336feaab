/** Two-phase commit: every step keeps the invariant, and what follows in every run. */
module TwoPhaseSafety {
  import opened Wrappers
  import opened TwoPhaseModel

  // ----- the shape of what a step appends -----

  lemma {:induction false} AskShape(handles: set<PartitionId>, tx: TxId, ids: seq<PartitionId>, votes: nat -> Vote, i: nat)
    requires i <= |ids|
    ensures var a := AskAll(handles, tx, ids, votes, i);
            && |a.events| <= |ids| - i
            && (forall k :: 0 <= k < |a.events| ==> a.events[k] == Asked(tx, ids[i + k], votes(i + k)))
            && (forall k :: 0 <= k < |a.events| - 1 ==> a.events[k].vote == Yes)
            && (a.outcome == Success(true) ==>
                  |a.events| == |ids| - i && (forall k :: i <= k < |ids| ==> votes(k) == Yes && ids[k] in handles))
    decreases |ids| - i
  {
    if i < |ids| && ids[i] in handles && votes(i) == Yes {
      AskShape(handles, tx, ids, votes, i + 1);
      var rest := AskAll(handles, tx, ids, votes, i + 1);
      var a := AskAll(handles, tx, ids, votes, i);
      assert a.events == [Asked(tx, ids[i], Yes)] + rest.events;
      forall k | 0 < k < |a.events| ensures a.events[k] == Asked(tx, ids[i + k], votes(i + k)) {
        assert a.events[k] == rest.events[k - 1];
      }
    }
  }

  lemma {:induction false} TellShape(handles: set<PartitionId>, tx: TxId, ids: seq<PartitionId>, replies: nat -> Reply,
                                     i: nat)
    requires i <= |ids|
    ensures var a := TellCommits(handles, tx, ids, replies, i);
            && |a.events| <= |ids| - i
            && (forall k :: 0 <= k < |a.events| ==> a.events[k] == ToldCommit(tx, ids[i + k], replies(i + k)))
            && (forall k :: 0 <= k < |a.events| - 1 ==> a.events[k].reply == Done)
            && (a.failure.None? ==> |a.events| == |ids| - i && forall k :: i <= k < |ids| ==> replies(k) == Done)
            && ((a.failure.Some? && forall k :: i <= k < |ids| ==> ids[k] in handles) ==>
                  a.events != [] && a.events[|a.events| - 1].reply.Refused?)
    decreases |ids| - i
  {
    if i < |ids| && ids[i] in handles && replies(i) == Done {
      TellShape(handles, tx, ids, replies, i + 1);
      var rest := TellCommits(handles, tx, ids, replies, i + 1);
      var a := TellCommits(handles, tx, ids, replies, i);
      assert a.events == [ToldCommit(tx, ids[i], Done)] + rest.events;
      forall k | 0 < k < |a.events| ensures a.events[k] == ToldCommit(tx, ids[i + k], replies(i + k)) {
        assert a.events[k] == rest.events[k - 1];
      }
    }
  }

  lemma {:induction false} AbortShape(handles: set<PartitionId>, tx: TxId, ids: seq<PartitionId>,
                                      replies: nat -> Reply, i: nat)
    requires i <= |ids|
    ensures forall e :: e in TellAborts(handles, tx, ids, replies, i) ==> e.ToldAbort? && e.tx == tx && e.p in ids
    ensures forall k :: i <= k < |ids| && ids[k] in handles ==>
              ToldAbort(tx, ids[k], replies(k)) in TellAborts(handles, tx, ids, replies, i)
    decreases |ids| - i
  {
    if i < |ids| {
      AbortShape(handles, tx, ids, replies, i + 1);
    }
  }

  // ----- every step keeps the invariant -----

  lemma BeginKeeps(handles: set<PartitionId>, s: State)
    requires Inv(handles, s)
    ensures Inv(handles, Begin(s))
  {
    hide Orderly;
    assert s.next !in s.txs;
    forall tx | tx in Begin(s).txs ensures Agrees(handles, s.trace, tx, Begin(s).txs[tx]) {
      if tx == s.next {
        assert Quiet(s.trace, tx);
      }
    }
  }

  lemma {:induction false} AsksJustified(t: Trace, tx: TxId, ids: seq<PartitionId>, asked: Trace)
    requires Quiet(t, tx)
    requires forall k :: 0 <= k < |asked| ==> asked[k].Asked? && asked[k].tx == tx && asked[k].p in ids
    requires forall k :: 0 <= k < |asked| - 1 ==> asked[k].vote == Yes
    ensures var es := [Logged(Prepare(tx, ids))] + asked;
            forall k :: 0 <= k < |es| ==> Justified(t + es[..k], es[k])
  {
    var es := [Logged(Prepare(tx, ids))] + asked;
    forall k | 0 <= k < |es| ensures Justified(t + es[..k], es[k]) {
      var before := t + es[..k];
      if k == 0 {
        assert before == t;
      } else {
        assert es[k] == asked[k - 1];
        assert es[..k] == [es[0]] + asked[..k - 1];
        assert es[0] in before;
        assert Intended(before, tx, ids);
        assert NoDissent(before, tx);
      }
    }
  }

  lemma {:induction false} AskedAgrees(handles: set<PartitionId>, t: Trace, tx: TxId, ids: seq<PartitionId>, asked: Trace)
    requires Quiet(t, tx)
    requires forall k :: 0 <= k < |asked| ==> asked[k].Asked? && asked[k].tx == tx
    ensures Agrees(handles, t + ([Logged(Prepare(tx, ids))] + asked), tx, TxRecord(Preparing, ids))
    ensures (|asked| == |ids| && (forall k :: 0 <= k < |ids| ==> asked[k] == Asked(tx, ids[k], Yes) && ids[k] in handles)) ==>
              Agrees(handles, t + ([Logged(Prepare(tx, ids))] + asked), tx, TxRecord(Prepared, ids))
  {
    var es := [Logged(Prepare(tx, ids))] + asked;
    var t' := t + es;
    assert es[0] in t';
    assert forall e :: e in es ==> e == es[0] || e in asked;
    assert forall e :: e in t' && TxOf(e) == tx ==> e in es;
    assert forall k :: 0 <= k < |asked| ==> asked[k] in asked;
    assert forall e :: e in asked ==> e in t';
  }

  lemma AskEach(handles: set<PartitionId>, tx: TxId, ids: seq<PartitionId>, votes: nat -> Vote)
    ensures var a := AskAll(handles, tx, ids, votes, 0);
            && (forall k :: 0 <= k < |a.events| ==> a.events[k].Asked? && a.events[k].tx == tx && a.events[k].p in ids)
            && (forall k :: 0 <= k < |a.events| - 1 ==> a.events[k].vote == Yes)
            && (a.outcome == Success(true) ==>
                  |a.events| == |ids| && forall k :: 0 <= k < |ids| ==> a.events[k] == Asked(tx, ids[k], Yes) && ids[k] in handles)
  {
    hide AskAll;
    AskShape(handles, tx, ids, votes, 0);
  }

  function AskEvents(handles: set<PartitionId>, tx: TxId, ids: seq<PartitionId>, votes: nat -> Vote): Trace {
    [Logged(Prepare(tx, ids))] + AskAll(handles, tx, ids, votes, 0).events
  }

  lemma AskTold(handles: set<PartitionId>, t: Trace, tx: TxId, ids: seq<PartitionId>, votes: nat -> Vote)
    requires Quiet(t, tx)
    ensures var es := AskEvents(handles, tx, ids, votes);
            && (forall k :: 0 <= k < |es| ==> Justified(t + es[..k], es[k]))
            && (forall e :: e in es ==> TxOf(e) == tx)
            && (var state := if AskAll(handles, tx, ids, votes, 0).outcome == Success(true) then Prepared else Preparing;
                Agrees(handles, t + es, tx, TxRecord(state, ids)))
  {
    hide Agrees, Justified, AskAll;
    var a := AskAll(handles, tx, ids, votes, 0);
    AskEach(handles, tx, ids, votes);
    AsksJustified(t, tx, ids, a.events);
    AskedAgrees(handles, t, tx, ids, a.events);
  }

  lemma InitiatedQuiet(handles: set<PartitionId>, s: State, tx: TxId)
    requires Inv(handles, s) && tx in s.txs && s.txs[tx].state.Initiated?
    ensures Quiet(s.trace, tx)
  {
    assert Agrees(handles, s.trace, tx, s.txs[tx]);
  }

  lemma PrepareKeeps(handles: set<PartitionId>, s: State, tx: TxId, ids: seq<PartitionId>, votes: nat -> Vote)
    requires Inv(handles, s)
    ensures Inv(handles, PrepareTx(handles, s, tx, ids, votes).0)
  {
    hide Inv, Agrees, Justified, AskAll, Quiet;
    if tx in s.txs && s.txs[tx].state.Initiated? {
      InitiatedQuiet(handles, s, tx);
      AskTold(handles, s.trace, tx, ids, votes);
      var state := if AskAll(handles, tx, ids, votes, 0).outcome == Success(true) then Prepared else Preparing;
      InvAfter(handles, s, tx, TxRecord(state, ids), AskEvents(handles, tx, ids, votes));
    }
  }

  lemma {:induction false} TellsJustified(handles: set<PartitionId>, t: Trace, tx: TxId, ids: seq<PartitionId>, told: Trace)
    requires Agrees(handles, t, tx, TxRecord(Prepared, ids))
    requires forall k :: 0 <= k < |told| ==> told[k].ToldCommit? && told[k].tx == tx && told[k].p in ids
    requires forall k :: 0 <= k < |told| - 1 ==> told[k].reply == Done
    ensures var es := [Logged(Commit(tx))] + told;
            forall k :: 0 <= k < |es| ==> Justified(t + es[..k], es[k])
  {
    var es := [Logged(Commit(tx))] + told;
    forall k | 0 <= k < |es| ensures Justified(t + es[..k], es[k]) {
      var before := t + es[..k];
      assert Intended(t, tx, ids);
      if k == 0 {
        assert before == t;
      } else {
        assert es[k] == told[k - 1];
        assert es[..k] == [es[0]] + told[..k - 1];
        assert es[0] in before;
        assert Intended(before, tx, ids);
        assert !CommitFailed(before, tx);
      }
    }
  }

  lemma {:induction false} AllTold(handles: set<PartitionId>, t: Trace, tx: TxId, ids: seq<PartitionId>, told: Trace)
    requires Agrees(handles, t, tx, TxRecord(Prepared, ids))
    requires |told| == |ids| && forall k :: 0 <= k < |ids| ==> told[k] == ToldCommit(tx, ids[k], Done)
    ensures Agrees(handles, t + ([Logged(Commit(tx))] + told), tx, TxRecord(Committed, ids))
  {
    var es := [Logged(Commit(tx))] + told;
    var t' := t + es;
    assert es[0] in t';
    forall e | e in t' ensures e in t || e == es[0] || (e in told && e.ToldCommit? && e.reply == Done) {
    }
    assert forall x :: Intended(t', tx, x) ==> Intended(t, tx, x);
    forall p | p in ids ensures ToldCommit(tx, p, Done) in t' {
      var k :| 0 <= k < |ids| && ids[k] == p;
      assert told[k] in told;
    }
  }

  lemma {:induction false} SomeRefused(handles: set<PartitionId>, t: Trace, tx: TxId, ids: seq<PartitionId>, told: Trace)
    requires Agrees(handles, t, tx, TxRecord(Prepared, ids))
    requires forall k :: 0 <= k < |told| ==> told[k].ToldCommit? && told[k].tx == tx
    requires told != [] && told[|told| - 1].reply.Refused?
    ensures Agrees(handles, t + ([Logged(Commit(tx))] + told), tx, TxRecord(Committing, ids))
  {
    var es := [Logged(Commit(tx))] + told;
    var t' := t + es;
    assert es[0] in t';
    forall e | e in t' ensures e in t || e == es[0] || (e in told && e.ToldCommit?) {
    }
    assert told[|told| - 1] in told;
    assert told[|told| - 1] in t';
    assert CommitFailed(t', tx);
    assert forall x :: Intended(t', tx, x) ==> Intended(t, tx, x);
  }

  lemma PreparedParts(handles: set<PartitionId>, s: State, tx: TxId)
    requires Inv(handles, s) && tx in s.txs && s.txs[tx].state.Prepared?
    ensures Agrees(handles, s.trace, tx, TxRecord(Prepared, s.txs[tx].participants))
    ensures forall k :: 0 <= k < |s.txs[tx].participants| ==> s.txs[tx].participants[k] in handles
  {
    assert Agrees(handles, s.trace, tx, s.txs[tx]);
    assert s.txs[tx] == TxRecord(Prepared, s.txs[tx].participants);
  }

  function CommitEvents(handles: set<PartitionId>, tx: TxId, ids: seq<PartitionId>, replies: nat -> Reply): Trace {
    [Logged(Commit(tx))] + TellCommits(handles, tx, ids, replies, 0).events
  }

  lemma TellAll(handles: set<PartitionId>, tx: TxId, ids: seq<PartitionId>, replies: nat -> Reply)
    requires forall k :: 0 <= k < |ids| ==> ids[k] in handles
    ensures var a := TellCommits(handles, tx, ids, replies, 0);
            && (forall k :: 0 <= k < |a.events| ==> a.events[k].ToldCommit? && a.events[k].tx == tx && a.events[k].p in ids)
            && (forall k :: 0 <= k < |a.events| - 1 ==> a.events[k].reply == Done)
            && (a.failure.None? ==> |a.events| == |ids| && forall k :: 0 <= k < |ids| ==> a.events[k] == ToldCommit(tx, ids[k], Done))
            && (a.failure.Some? ==> a.events != [] && a.events[|a.events| - 1].reply.Refused?)
  {
    hide TellCommits;
    TellShape(handles, tx, ids, replies, 0);
  }

  lemma {:induction false} CommitTold(handles: set<PartitionId>, t: Trace, tx: TxId, ids: seq<PartitionId>,
                                      replies: nat -> Reply)
    requires Agrees(handles, t, tx, TxRecord(Prepared, ids)) && forall k :: 0 <= k < |ids| ==> ids[k] in handles
    ensures var es := CommitEvents(handles, tx, ids, replies);
            && (forall k :: 0 <= k < |es| ==> Justified(t + es[..k], es[k]))
            && (forall e :: e in es ==> TxOf(e) == tx)
            && (var state := if TellCommits(handles, tx, ids, replies, 0).failure.None? then Committed else Committing;
                Agrees(handles, t + es, tx, TxRecord(state, ids)))
  {
    hide Agrees, Justified, TellCommits;
    var a := TellCommits(handles, tx, ids, replies, 0);
    TellAll(handles, tx, ids, replies);
    TellsJustified(handles, t, tx, ids, a.events);
    if a.failure.None? {
      AllTold(handles, t, tx, ids, a.events);
    } else {
      SomeRefused(handles, t, tx, ids, a.events);
    }
  }

  lemma CommitKeeps(handles: set<PartitionId>, s: State, tx: TxId, replies: nat -> Reply)
    requires Inv(handles, s)
    ensures Inv(handles, CommitTx(handles, s, tx, replies).0)
  {
    hide Inv, Agrees, Justified, TellCommits;
    if tx in s.txs && s.txs[tx].state.Prepared? {
      PreparedParts(handles, s, tx);
      var ids := s.txs[tx].participants;
      CommitTold(handles, s.trace, tx, ids, replies);
      var state := if TellCommits(handles, tx, ids, replies, 0).failure.None? then Committed else Committing;
      InvAfter(handles, s, tx, TxRecord(state, ids), CommitEvents(handles, tx, ids, replies));
    }
  }

  lemma {:induction false} AbortsJustified(handles: set<PartitionId>, t: Trace, tx: TxId, r: TxRecord, told: Trace)
    requires Agrees(handles, t, tx, r) && !r.state.Committed? && !r.state.Aborted?
    requires forall k :: 0 <= k < |told| ==> told[k].ToldAbort? && told[k].tx == tx && told[k].p in r.participants
    ensures var es := [Logged(Abort(tx))] + told;
            forall k :: 0 <= k < |es| ==> Justified(t + es[..k], es[k])
  {
    var es := [Logged(Abort(tx))] + told;
    forall k | 0 <= k < |es| ensures Justified(t + es[..k], es[k]) {
      var before := t + es[..k];
      if k == 0 {
        assert before == t;
      } else {
        assert es[k] == told[k - 1];
        assert es[0] in before;
        assert Intended(t, tx, r.participants);
        assert Intended(before, tx, r.participants);
      }
    }
  }

  lemma {:induction false} AbortedAgrees(handles: set<PartitionId>, t: Trace, tx: TxId, r: TxRecord, told: Trace)
    requires Agrees(handles, t, tx, r)
    requires forall k :: 0 <= k < |told| ==> told[k].ToldAbort?
    requires forall p :: p in r.participants && p in handles ==> AbortTold(told, tx, p)
    ensures Agrees(handles, t + ([Logged(Abort(tx))] + told), tx, TxRecord(Aborted, r.participants))
  {
    var es := [Logged(Abort(tx))] + told;
    assert es[0] in t + es;
    forall p | p in r.participants && p in handles ensures AbortTold(t + es, tx, p) {
      var e :| e in told && e.ToldAbort? && e.tx == tx && e.p == p;
      assert e in t + es;
    }
    assert forall ids :: Intended(t + es, tx, ids) ==> Intended(t, tx, ids);
  }

  lemma RecordAgrees(handles: set<PartitionId>, s: State, tx: TxId)
    requires Inv(handles, s) && tx in s.txs
    ensures Agrees(handles, s.trace, tx, s.txs[tx])
  {
  }

  lemma AbortKeeps(handles: set<PartitionId>, s: State, tx: TxId, replies: nat -> Reply)
    requires Inv(handles, s)
    ensures Inv(handles, AbortTx(handles, s, tx, replies).0)
  {
    hide Inv, Agrees, Justified, TellAborts;
    if tx in s.txs && !s.txs[tx].state.Committed? && !s.txs[tx].state.Aborted? {
      var r := s.txs[tx];
      var told := TellAborts(handles, tx, r.participants, replies, 0);
      AbortShape(handles, tx, r.participants, replies, 0);
      forall p | p in r.participants && p in handles ensures AbortTold(told, tx, p) {
        var k :| 0 <= k < |r.participants| && r.participants[k] == p;
        assert ToldAbort(tx, p, replies(k)) in told;
      }
      RecordAgrees(handles, s, tx);
      AbortsJustified(handles, s.trace, tx, r, told);
      AbortedAgrees(handles, s.trace, tx, r, told);
      InvAfter(handles, s, tx, TxRecord(Aborted, r.participants), [Logged(Abort(tx))] + told);
    }
  }

  lemma ApplyKeeps(handles: set<PartitionId>, s: State, step: Step)
    requires Inv(handles, s)
    ensures Inv(handles, Apply(handles, s, step))
  {
    hide Inv, PrepareTx, CommitTx, AbortTx, Begin;
    match step
    case BeginStep => BeginKeeps(handles, s);
    case PrepareStep(tx, ids, votes) => PrepareKeeps(handles, s, tx, ids, votes);
    case CommitStep(tx, replies) => CommitKeeps(handles, s, tx, replies);
    case AbortStep(tx, replies) => AbortKeeps(handles, s, tx, replies);
  }

  lemma InitialInv(handles: set<PartitionId>)
    ensures Inv(handles, INITIAL)
  {
  }

  lemma {:induction false} RunKeeps(handles: set<PartitionId>, steps: seq<Step>)
    ensures Inv(handles, Run(handles, steps))
  {
    hide Inv, Apply;
    if steps == [] {
      InitialInv(handles);
    } else {
      var n := |steps| - 1;
      RunKeeps(handles, steps[..n]);
      ApplyKeeps(handles, Run(handles, steps[..n]), steps[n]);
    }
  }

  // ----- what holds in every run -----

  /** The i-th event comes after what it needs: the trace up to a crash point is orderly too. */
  lemma {:induction false} Prefix(t: Trace, n: nat)
    requires Orderly(t) && n <= |t|
    ensures Orderly(t[..n])
  {
    hide Justified;
    forall i | 0 <= i < n ensures Justified(t[..n][..i], t[..n][i]) {
      assert t[..n][..i] == t[..i];
    }
  }

  /**
   A commit is logged only after the intent to prepare was, every participant
   the intent names has voted yes since, and no one asked has answered otherwise.
   */
  lemma CommitOnlyAfterAllYes(handles: set<PartitionId>, steps: seq<Step>, tx: TxId, i: nat)
    requires var t := Run(handles, steps).trace;
             i < |t| && t[i] == Logged(Commit(tx))
    ensures var t := Run(handles, steps).trace;
            exists ids :: Intended(t[..i], tx, ids) && AllYes(t[..i], tx, ids) && NoDissent(t[..i], tx)
  {
    hide Run, Intended, AllYes, NoDissent;
    RunKeeps(handles, steps);
    var t := Run(handles, steps).trace;
    assert Justified(t[..i], t[i]);
  }

  /** No participant is told to commit before the commit is logged, nor to abort before the abort is. */
  lemma ToldOnlyAfterLogged(handles: set<PartitionId>, steps: seq<Step>, i: nat)
    requires i < |Run(handles, steps).trace|
    ensures var t := Run(handles, steps).trace;
            && (t[i].ToldCommit? ==> Logged(Commit(t[i].tx)) in t[..i] && Logged(Abort(t[i].tx)) !in t[..i])
            && (t[i].ToldAbort? ==> Logged(Abort(t[i].tx)) in t[..i])
  {
    hide Run;
    RunKeeps(handles, steps);
    var t := Run(handles, steps).trace;
    assert Justified(t[..i], t[i]);
  }

  /** Some participant was told to commit and another to abort, or both decisions were logged. */
  ghost predicate Split(t: Trace, tx: TxId) {
    || (Logged(Commit(tx)) in t && Logged(Abort(tx)) in t)
    || ((exists p, r :: ToldCommit(tx, p, r) in t) && exists p, r :: ToldAbort(tx, p, r) in t)
  }

  lemma {:induction false} LoggedBefore(t: Trace, tx: TxId)
    requires Orderly(t)
    ensures (exists p, r :: ToldCommit(tx, p, r) in t) ==> Logged(Commit(tx)) in t
    ensures (exists p, r :: ToldAbort(tx, p, r) in t) ==> Logged(Abort(tx)) in t
  {
    if p, r :| ToldCommit(tx, p, r) in t {
      var i :| 0 <= i < |t| && t[i] == ToldCommit(tx, p, r);
      assert Justified(t[..i], t[i]);
    }
    if p, r :| ToldAbort(tx, p, r) in t {
      var i :| 0 <= i < |t| && t[i] == ToldAbort(tx, p, r);
      assert Justified(t[..i], t[i]);
    }
  }

  lemma Earlier(t: Trace, i: nat, j: nat)
    requires i < |t| && j < |t|
    ensures j < i ==> t[j] in t[..i]
  {
  }

  /** In a trace with both decisions, the abort came after a failed delivery of the commit. */
  lemma {:induction false} BothMeansFailed(t: Trace, tx: TxId)
    requires Orderly(t) && Logged(Commit(tx)) in t && Logged(Abort(tx)) in t
    ensures CommitFailed(t, tx)
  {
    var i :| 0 <= i < |t| && t[i] == Logged(Commit(tx));
    var j :| 0 <= j < |t| && t[j] == Logged(Abort(tx));
    Earlier(t, i, j);
    assert Justified(t[..i], t[i]);
    assert Justified(t[..j], t[j]);
    assert t[i] in t[..j];
    assert forall e :: e in t[..j] ==> e in t;
  }

  /**
   Atomicity, exactly: a transaction is split if and only if a delivery of its
   commit failed and it was aborted afterwards; so never while no participant
   that voted yes fails a commit.
   */
  lemma SplitIffFailedThenAborted(handles: set<PartitionId>, steps: seq<Step>, tx: TxId)
    ensures var t := Run(handles, steps).trace;
            Split(t, tx) <==> CommitFailed(t, tx) && Logged(Abort(tx)) in t
  {
    hide Run;
    RunKeeps(handles, steps);
    var t := Run(handles, steps).trace;
    LoggedBefore(t, tx);
    if Split(t, tx) {
      BothMeansFailed(t, tx);
    }
    if CommitFailed(t, tx) {
      var e :| e in t && e.ToldCommit? && e.tx == tx && e.reply.Refused?;
      assert ToldCommit(tx, e.p, e.reply) in t;
    }
  }

  /** Both decisions end up logged exactly when the abort is called in state `Committing`. */
  lemma AbortSplitsIffCommitting(handles: set<PartitionId>, steps: seq<Step>, tx: TxId, replies: nat -> Reply)
    requires var s := Run(handles, steps);
             !(Logged(Commit(tx)) in s.trace && Logged(Abort(tx)) in s.trace)
    ensures var s := Run(handles, steps);
            var t := AbortTx(handles, s, tx, replies).0.trace;
            (Logged(Commit(tx)) in t && Logged(Abort(tx)) in t) <==> (tx in s.txs && s.txs[tx].state.Committing?)
  {
    hide Run;
    RunKeeps(handles, steps);
    var s := Run(handles, steps);
    if tx in s.txs {
      assert Agrees(handles, s.trace, tx, s.txs[tx]);
      var es := [Logged(Abort(tx))] + TellAborts(handles, tx, s.txs[tx].participants, replies, 0);
      AbortShape(handles, tx, s.txs[tx].participants, replies, 0);
      hide TellAborts;
      assert es[0] in s.trace + es;
    }
  }

  /** A transaction whose commit was logged is `Committing` exactly when a delivery failed and no abort followed. */
  lemma CommittingIffDeliveryFailed(handles: set<PartitionId>, steps: seq<Step>, tx: TxId)
    requires Logged(Commit(tx)) in Run(handles, steps).trace
    ensures var s := Run(handles, steps);
            && tx in s.txs
            && (s.txs[tx].state.Committing? <==> CommitFailed(s.trace, tx) && Logged(Abort(tx)) !in s.trace)
            && (s.txs[tx].state.Committed? <==> !CommitFailed(s.trace, tx))
  {
    hide Run;
    RunKeeps(handles, steps);
    var s := Run(handles, steps);
    assert TxOf(Logged(Commit(tx))) == tx;
    assert Agrees(handles, s.trace, tx, s.txs[tx]);
    if s.txs[tx].state.Aborted? {
      BothMeansFailed(s.trace, tx);
    }
  }

  // ----- recovery -----

  /** A prepare record and no decision. */
  ghost predicate InDoubt(log: seq<LogEntry>, tx: TxId) {
    && (exists ids :: Prepare(tx, ids) in log)
    && Commit(tx) !in log && Abort(tx) !in log
  }

  lemma {:induction false} InDoubtOf(t: Trace, tx: TxId)
    ensures InDoubt(LogOf(t), tx) <==> (exists ids :: Intended(t, tx, ids)) && !Decided(t, tx)
  {
    hide LogOf;
    LogContains(t, Commit(tx));
    LogContains(t, Abort(tx));
    forall ids ensures Prepare(tx, ids) in LogOf(t) <==> Intended(t, tx, ids) {
      LogContains(t, Prepare(tx, ids));
    }
  }

  /** The log leaves in doubt precisely the transactions that are `Preparing` or `Prepared`. */
  lemma InDoubtInState(handles: set<PartitionId>, s: State, tx: TxId)
    requires Inv(handles, s)
    ensures InDoubt(LogOf(s.trace), tx) <==> tx in s.txs && (s.txs[tx].state.Preparing? || s.txs[tx].state.Prepared?)
  {
    hide InDoubt;
    InDoubtOf(s.trace, tx);
    if tx in s.txs {
      assert Agrees(handles, s.trace, tx, s.txs[tx]);
    }
    assert forall ids :: TxOf(Logged(Prepare(tx, ids))) == tx;
  }

  /**
   Crash after any event: the log then in doubt names no transaction that some
   participant was told to commit or abort, and every undecided one that some
   participant was asked to prepare.
   */
  lemma CrashRecovery(handles: set<PartitionId>, steps: seq<Step>, n: nat, i: nat)
    requires n <= |Run(handles, steps).trace| && i < n
    ensures var t := Run(handles, steps).trace;
            && (t[i].ToldCommit? || t[i].ToldAbort? ==> !InDoubt(LogOf(t[..n]), t[i].tx))
            && (t[i].Asked? ==> (InDoubt(LogOf(t[..n]), t[i].tx) <==> !Decided(t[..n], t[i].tx)))
  {
    hide Run, InDoubt;
    RunKeeps(handles, steps);
    var t := Run(handles, steps).trace;
    assert Justified(t[..i], t[i]);
    InDoubtOf(t[..n], TxOf(t[i]));
    assert forall e :: e in t[..i] ==> e in t[..n];
    if t[i].Asked? {
      var ids :| Intended(t[..i], t[i].tx, ids);
      assert Intended(t[..n], t[i].tx, ids);
    }
  }

  // ----- a run that splits a transaction -----

  /** Begin, prepare with a yes, a failed delivery of the commit, then an abort. */
  function SplittingRun(p: PartitionId, e: TxError): seq<Step> {
    [BeginStep, PrepareStep(1, [p], (i: nat) => Yes), CommitStep(1, (i: nat) => Refused(e)), AbortStep(1, (i: nat) => Done)]
  }

  lemma {:induction false} SplittingStates(p: PartitionId, e: TxError)
    ensures var h, ids := {p}, [p];
            var started := State(2, map[1 := TxRecord(Initiated, [])], []);
            var prepared := State(2, map[1 := TxRecord(Prepared, ids)], [Logged(Prepare(1, ids)), Asked(1, p, Yes)]);
            var committing := State(2, map[1 := TxRecord(Committing, ids)],
                                    prepared.trace + [Logged(Commit(1)), ToldCommit(1, p, Refused(e))]);
            && Begin(INITIAL) == started
            && PrepareTx(h, started, 1, ids, (i: nat) => Yes).0 == prepared
            && CommitTx(h, prepared, 1, (i: nat) => Refused(e)).0 == committing
            && AbortTx(h, committing, 1, (i: nat) => Done).0.trace ==
                 committing.trace + [Logged(Abort(1)), ToldAbort(1, p, Done)]
  {
    var ids := [p];
    var yes, refused, done := (i: nat) => Yes, (i: nat) => Refused(e), (i: nat) => Done;
    assert AskAll({p}, 1, ids, yes, 1) == Asking([], Success(true));
    assert AskAll({p}, 1, ids, yes, 0).events == [Asked(1, p, Yes)];
    assert TellCommits({p}, 1, ids, refused, 0).events == [ToldCommit(1, p, Refused(e))];
    assert TellAborts({p}, 1, ids, done, 1) == [];
    assert TellAborts({p}, 1, ids, done, 0) == [ToldAbort(1, p, Done)];
    var started: map<TxId, TxRecord> := map[1 := TxRecord(Initiated, [])];
    assert started[1 := TxRecord(Prepared, ids)] == map[1 := TxRecord(Prepared, ids)];
    assert map[1 := TxRecord(Prepared, ids)][1 := TxRecord(Committing, ids)] == map[1 := TxRecord(Committing, ids)];
  }

  /** A transaction does get split: one participant, a failed delivery and an abort are enough. */
  lemma {:induction false} SplitHappens(p: PartitionId, e: TxError)
    ensures Split(Run({p}, SplittingRun(p, e)).trace, 1)
  {
    var steps := SplittingRun(p, e);
    hide PrepareTx, CommitTx, AbortTx, Begin, Split;
    SplittingStates(p, e);
    assert steps[..0] == [] && steps[..1][..0] == [] && steps[..2][..1] == steps[..1] && steps[..3][..2] == steps[..2];
    assert steps[..4] == steps && steps[..4][..3] == steps[..3];
    assert Run({p}, steps[..1]) == Begin(INITIAL);
    assert Run({p}, steps[..2]) == PrepareTx({p}, Run({p}, steps[..1]), 1, [p], (i: nat) => Yes).0;
    assert Run({p}, steps[..3]) == CommitTx({p}, Run({p}, steps[..2]), 1, (i: nat) => Refused(e)).0;
    assert Run({p}, steps) == AbortTx({p}, Run({p}, steps[..3]), 1, (i: nat) => Done).0;
    BothLoggedSplit(Run({p}, steps).trace, 1);
  }

  lemma BothLoggedSplit(t: Trace, tx: TxId)
    requires Logged(Commit(tx)) in t && Logged(Abort(tx)) in t
    ensures Split(t, tx)
  {
  }
}
