/**
 Two-phase commit as a state machine: the transaction table, and the trace of
 what was logged and of every message to a participant, in order.
 */
module TwoPhaseModel {
  import opened Wrappers

  type TxId = nat
  type PartitionId = string

  datatype TxError = ParticipantFailed(partition: PartitionId) | Timeout | AlreadyCommitted | AlreadyAborted | CoordinatorFailed

  datatype TxState = Initiated | Preparing | Prepared | Committing | Committed | Aborting | Aborted

  datatype TxRecord = TxRecord(state: TxState, participants: seq<PartitionId>)

  datatype LogEntry =
    | Prepare(tx: TxId, participants: seq<PartitionId>)
    | Commit(tx: TxId)
    | Abort(tx: TxId)

  /** What a participant answers when asked to prepare. */
  datatype Vote = Yes | No | Silent(error: TxError)

  /** What it answers when told to commit or to abort. */
  datatype Reply = Done | Refused(error: TxError)

  datatype Event =
    | Logged(entry: LogEntry)
    | Asked(tx: TxId, p: PartitionId, vote: Vote)
    | ToldCommit(tx: TxId, p: PartitionId, reply: Reply)
    | ToldAbort(tx: TxId, p: PartitionId, reply: Reply)

  type Trace = seq<Event>

  function TxOf(e: Event): TxId {
    if e.Logged? then e.entry.tx else e.tx
  }

  datatype State = State(next: TxId, txs: map<TxId, TxRecord>, trace: Trace)

  const INITIAL: State := State(1, map[], [])

  /** The entries a trace wrote, in order: the log after a crash at its end. */
  function LogOf(t: Trace): seq<LogEntry> {
    if t == [] then []
    else
      var n := |t| - 1;
      LogOf(t[..n]) + (if t[n].Logged? then [t[n].entry] else [])
  }

  lemma {:induction false} LogContains(t: Trace, entry: LogEntry)
    ensures entry in LogOf(t) <==> Logged(entry) in t
  {
    if t != [] {
      var n := |t| - 1;
      LogContains(t[..n], entry);
      assert t == t[..n] + [t[n]];
    }
  }

  // ----- the steps -----

  function Begin(s: State): State {
    State(s.next + 1, s.txs[s.next := TxRecord(Initiated, [])], s.trace)
  }

  datatype Asking = Asking(events: Trace, outcome: Result<bool, TxError>)

  /** Asking participants from the i-th on, stopping at the first that does not vote yes. */
  function AskAll(handles: set<PartitionId>, tx: TxId, ids: seq<PartitionId>, votes: nat -> Vote, i: nat): Asking
    requires i <= |ids|
    decreases |ids| - i
  {
    if i == |ids| then Asking([], Success(true))
    else if ids[i] !in handles then Asking([], Failure(ParticipantFailed(ids[i])))
    else
      var asked := Asked(tx, ids[i], votes(i));
      match votes(i)
      case Yes =>
        var rest := AskAll(handles, tx, ids, votes, i + 1);
        Asking([asked] + rest.events, rest.outcome)
      case No => Asking([asked], Success(false))
      case Silent(e) => Asking([asked], Failure(e))
  }

  function Refusal(state: TxState): TxError {
    match state
    case Committed => AlreadyCommitted
    case Aborted => AlreadyAborted
    case _ => CoordinatorFailed
  }

  function PrepareTx(handles: set<PartitionId>, s: State, tx: TxId, ids: seq<PartitionId>, votes: nat -> Vote)
    : (State, Result<bool, TxError>)
  {
    if tx !in s.txs then (s, Failure(CoordinatorFailed))
    else if !s.txs[tx].state.Initiated? then (s, Failure(Refusal(s.txs[tx].state)))
    else
      var asking := AskAll(handles, tx, ids, votes, 0);
      var state := if asking.outcome == Success(true) then Prepared else Preparing;
      (State(s.next, s.txs[tx := TxRecord(state, ids)], s.trace + ([Logged(Prepare(tx, ids))] + asking.events)),
       asking.outcome)
  }

  datatype Telling = Telling(events: Trace, failure: Option<TxError>)

  /** Telling participants from the i-th on to commit, stopping at the first failure. */
  function TellCommits(handles: set<PartitionId>, tx: TxId, ids: seq<PartitionId>, replies: nat -> Reply, i: nat): Telling
    requires i <= |ids|
    decreases |ids| - i
  {
    if i == |ids| then Telling([], None)
    else if ids[i] !in handles then Telling([], Some(ParticipantFailed(ids[i])))
    else
      var told := ToldCommit(tx, ids[i], replies(i));
      match replies(i)
      case Done =>
        var rest := TellCommits(handles, tx, ids, replies, i + 1);
        Telling([told] + rest.events, rest.failure)
      case Refused(e) => Telling([told], Some(e))
  }

  function CommitTx(handles: set<PartitionId>, s: State, tx: TxId, replies: nat -> Reply): (State, Option<TxError>) {
    if tx !in s.txs then (s, Some(CoordinatorFailed))
    else if !s.txs[tx].state.Prepared? then (s, Some(Refusal(s.txs[tx].state)))
    else
      var ids := s.txs[tx].participants;
      var telling := TellCommits(handles, tx, ids, replies, 0);
      var state := if telling.failure.None? then Committed else Committing;
      (State(s.next, s.txs[tx := TxRecord(state, ids)], s.trace + ([Logged(Commit(tx))] + telling.events)),
       telling.failure)
  }

  /** Telling every known participant from the i-th on to abort, whatever they answer. */
  function TellAborts(handles: set<PartitionId>, tx: TxId, ids: seq<PartitionId>, replies: nat -> Reply, i: nat): Trace
    requires i <= |ids|
    decreases |ids| - i
  {
    if i == |ids| then []
    else
      (if ids[i] in handles then [ToldAbort(tx, ids[i], replies(i))] else [])
      + TellAborts(handles, tx, ids, replies, i + 1)
  }

  function AbortTx(handles: set<PartitionId>, s: State, tx: TxId, replies: nat -> Reply): (State, Option<TxError>) {
    if tx !in s.txs then (s, Some(CoordinatorFailed))
    else if s.txs[tx].state.Committed? || s.txs[tx].state.Aborted? then (s, Some(Refusal(s.txs[tx].state)))
    else
      var ids := s.txs[tx].participants;
      (State(s.next, s.txs[tx := TxRecord(Aborted, ids)],
             s.trace + ([Logged(Abort(tx))] + TellAborts(handles, tx, ids, replies, 0))),
       None)
  }

  /** One call on the coordinator, with the answers the participants give during it. */
  datatype Step =
    | BeginStep
    | PrepareStep(tx: TxId, ids: seq<PartitionId>, votes: nat -> Vote)
    | CommitStep(tx: TxId, replies: nat -> Reply)
    | AbortStep(tx: TxId, replies: nat -> Reply)

  function Apply(handles: set<PartitionId>, s: State, step: Step): State {
    match step
    case BeginStep => Begin(s)
    case PrepareStep(tx, ids, votes) => PrepareTx(handles, s, tx, ids, votes).0
    case CommitStep(tx, replies) => CommitTx(handles, s, tx, replies).0
    case AbortStep(tx, replies) => AbortTx(handles, s, tx, replies).0
  }

  function Run(handles: set<PartitionId>, steps: seq<Step>): State {
    if steps == [] then INITIAL
    else
      var n := |steps| - 1;
      Apply(handles, Run(handles, steps[..n]), steps[n])
  }

  // ----- what a trace says of a transaction -----

  predicate Quiet(t: Trace, tx: TxId) {
    forall e :: e in t ==> TxOf(e) != tx
  }

  predicate Decided(t: Trace, tx: TxId) {
    Logged(Commit(tx)) in t || Logged(Abort(tx)) in t
  }

  predicate Intended(t: Trace, tx: TxId, ids: seq<PartitionId>) {
    Logged(Prepare(tx, ids)) in t
  }

  predicate AllYes(t: Trace, tx: TxId, ids: seq<PartitionId>) {
    forall p :: p in ids ==> Asked(tx, p, Yes) in t
  }

  /** No participant answered anything but yes. */
  predicate NoDissent(t: Trace, tx: TxId) {
    forall e :: e in t && e.Asked? && e.tx == tx ==> e.vote == Yes
  }

  /** The delivery of the commit to some participant failed. */
  predicate CommitFailed(t: Trace, tx: TxId) {
    exists e :: e in t && e.ToldCommit? && e.tx == tx && e.reply.Refused?
  }

  predicate AbortTold(t: Trace, tx: TxId, p: PartitionId) {
    exists e :: e in t && e.ToldAbort? && e.tx == tx && e.p == p
  }

  predicate NoneTold(t: Trace, tx: TxId) {
    forall e :: e in t && TxOf(e) == tx ==> !e.ToldCommit? && !e.ToldAbort?
  }

  /**
   What must have happened before an event. A commit is logged only when every
   participant named in the logged intent has voted yes and nothing was decided;
   a participant hears of a decision only after it is logged; an abort after a
   commit needs a failed delivery.
   */
  ghost predicate Justified(t: Trace, e: Event) {
    match e
    case Logged(Prepare(tx, _)) => Quiet(t, tx)
    case Logged(Commit(tx)) =>
      !Decided(t, tx) && NoDissent(t, tx) && exists ids :: Intended(t, tx, ids) && AllYes(t, tx, ids)
    case Logged(Abort(tx)) => Logged(Abort(tx)) !in t && (Logged(Commit(tx)) in t ==> CommitFailed(t, tx))
    case Asked(tx, p, _) => !Decided(t, tx) && NoDissent(t, tx) && exists ids :: Intended(t, tx, ids) && p in ids
    case ToldCommit(tx, p, _) =>
      && Logged(Commit(tx)) in t && Logged(Abort(tx)) !in t && !CommitFailed(t, tx)
      && exists ids :: Intended(t, tx, ids) && p in ids
    case ToldAbort(tx, p, _) => Logged(Abort(tx)) in t && exists ids :: Intended(t, tx, ids) && p in ids
  }

  /** Every event was justified when it happened. */
  ghost predicate Orderly(t: Trace) {
    forall i :: 0 <= i < |t| ==> Justified(t[..i], t[i])
  }

  lemma {:induction false} OrderlyPlus(t: Trace, es: Trace)
    requires Orderly(t) && forall k :: 0 <= k < |es| ==> Justified(t + es[..k], es[k])
    ensures Orderly(t + es)
  {
    hide Justified;
    forall i | 0 <= i < |t + es| ensures Justified((t + es)[..i], (t + es)[i]) {
      if i < |t| {
        assert (t + es)[..i] == t[..i];
      } else {
        assert (t + es)[..i] == t + es[..i - |t|];
      }
    }
  }

  // ----- the invariant -----

  /** The record of a transaction and the trace agree. */
  ghost predicate Agrees(handles: set<PartitionId>, t: Trace, tx: TxId, r: TxRecord) {
    && (forall ids :: Intended(t, tx, ids) ==> ids == r.participants)
    && (match r.state
        case Initiated => Quiet(t, tx) && r.participants == []
        case Preparing => Intended(t, tx, r.participants) && !Decided(t, tx) && NoneTold(t, tx)
        case Prepared =>
          && Intended(t, tx, r.participants) && !Decided(t, tx) && NoneTold(t, tx)
          && AllYes(t, tx, r.participants) && NoDissent(t, tx)
          && (forall p :: p in r.participants ==> p in handles)
        case Committing =>
          Intended(t, tx, r.participants) && Logged(Commit(tx)) in t && Logged(Abort(tx)) !in t && CommitFailed(t, tx)
        case Committed =>
          && Intended(t, tx, r.participants) && Logged(Commit(tx)) in t && Logged(Abort(tx)) !in t && !CommitFailed(t, tx)
          && (forall p :: p in r.participants ==> ToldCommit(tx, p, Done) in t)
        case Aborting => false
        case Aborted => Logged(Abort(tx)) in t && forall p :: p in r.participants && p in handles ==> AbortTold(t, tx, p))
  }

  ghost predicate Inv(handles: set<PartitionId>, s: State) {
    && Orderly(s.trace)
    && (forall tx :: tx in s.txs ==> tx < s.next)
    && (forall tx :: tx !in s.txs ==> Quiet(s.trace, tx))
    && (forall tx :: tx in s.txs ==> Agrees(handles, s.trace, tx, s.txs[tx]))
  }

  /** Events of one transaction do not concern another. */
  lemma {:induction false} AgreesElsewhere(handles: set<PartitionId>, t: Trace, es: Trace, tx: TxId, r: TxRecord)
    requires Agrees(handles, t, tx, r) && forall e :: e in es ==> TxOf(e) != tx
    ensures Agrees(handles, t + es, tx, r)
  {
    assert forall e :: TxOf(e) == tx ==> (e in t + es <==> e in t);
    assert forall e :: e in t ==> e in t + es;
    if CommitFailed(t + es, tx) {
      var e :| e in t + es && e.ToldCommit? && e.tx == tx && e.reply.Refused?;
      assert e in t;
    }
    forall p | AbortTold(t, tx, p) ensures AbortTold(t + es, tx, p) {
      var e :| e in t && e.ToldAbort? && e.tx == tx && e.p == p;
      assert e in t + es;
    }
    assert forall ids :: Intended(t + es, tx, ids) == Intended(t, tx, ids);
  }

  /** A step that appends events of one transaction keeps the invariant if its own record does. */
  lemma {:induction false} InvAfter(handles: set<PartitionId>, s: State, tx: TxId, r: TxRecord, es: Trace)
    requires Inv(handles, s) && tx in s.txs
    requires forall e :: e in es ==> TxOf(e) == tx
    requires forall k :: 0 <= k < |es| ==> Justified(s.trace + es[..k], es[k])
    requires Agrees(handles, s.trace + es, tx, r)
    ensures Inv(handles, State(s.next, s.txs[tx := r], s.trace + es))
  {
    hide Agrees, Justified, Orderly;
    OrderlyPlus(s.trace, es);
    var s' := State(s.next, s.txs[tx := r], s.trace + es);
    forall x | x in s'.txs ensures Agrees(handles, s'.trace, x, s'.txs[x]) {
      if x != tx {
        AgreesElsewhere(handles, s.trace, es, x, s.txs[x]);
      }
    }
  }
}
