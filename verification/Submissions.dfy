/**
 * The submission and challenge services, statement by statement. Between two statements of one
 * request the other sessions take whatever steps they like: each method is given those steps and
 * is a run of the acceptance protocol whatever they are.
 */
module Submissions {
  import opened Common
  import opened Acceptance
  import opened AcceptanceRuns

  /** What the other sessions do at the n-th pause of a request. */
  type Schedule = nat -> seq<Step>

  datatype SubmitReply =
    | Evaluated(id: RowId) | NoEvaluation | Missing | Denied | InvalidTransition(from: Status) | Raised

  /** No other session has begun anything, and none will. */
  ghost predicate Alone(s: State, others: Schedule) {
    s.txns == map[] && forall n :: others(n) == []
  }

  predicate Mine(step: Step, txn: TxnId) {
    !step.AddChallenge? && !step.HackathonsChange? && step.txn == txn
  }

  class Database {
    const h: Digest
    var state: State

    constructor (h: Digest)
      ensures Valid() && state == INITIAL && this.h == h
    {
      this.h := h;
      state := INITIAL;
      new;
      InitialIsReachable(h);
    }

    ghost predicate Valid()
      reads this
    {
      Reachable(h, state)
    }

    /** One statement of this request, which began in state `since`. */
    method Do(step: Step, ghost since: State)
      requires Valid() && Possible(state, step) && Evolves(since, state)
      modifies this
      ensures Valid() && state == Apply(h, old(state), step)
      ensures Inv(h, state) && Evolves(since, state)
    {
      hide Inv, Evolves, Reachable, Apply, Possible;
      ReachableIsInv(h, state);
      StepKeeps(h, state, step);
      ReachableStep(h, state, step);
      EvolvesOn(since, state, Apply(h, state, step));
      state := Apply(h, state, step);
    }

    /** Other sessions' steps, as far as the locks let them. */
    method Others(steps: seq<Step>, mine: TxnId, ghost since: State)
      requires Valid() && Evolves(since, state)
      modifies this
      ensures Valid() && Inv(h, state) && Evolves(since, state) && Evolves(old(state), state)
      ensures mine in state.txns <==> mine in old(state).txns
      ensures mine in state.txns ==> state.txns[mine] == old(state).txns[mine]
      ensures mine in state.answers <==> mine in old(state).answers
      ensures steps == [] ==> state == old(state)
    {
      hide Inv, Evolves, Reachable, Apply, Possible;
      ReachableIsInv(h, state);
      Stutters(state);
      for i := 0 to |steps|
        invariant Valid() && Inv(h, state) && Evolves(old(state), state) && Evolves(since, state)
        invariant mine in state.txns <==> mine in old(state).txns
        invariant mine in state.txns ==> state.txns[mine] == old(state).txns[mine]
        invariant mine in state.answers <==> mine in old(state).answers
        invariant i == 0 ==> state == old(state)
      {
        if Possible(state, steps[i]) && !Mine(steps[i], mine) {
          ghost var before := state;
          Do(steps[i], old(state));
          OthersLeaveAlone(h, before, steps[i], mine);
          StepKeeps(h, before, steps[i]);
          EvolvesOn(since, before, state);
        }
      }
    }

    /** The row a SELECT by participant and key returns. */
    method FindByIdempotency(req: CreateRequest) returns (found: Option<RowId>)
      ensures Finds(state, req, found)
    {
      var todo := state.rows.Keys;
      while todo != {}
        invariant todo <= state.rows.Keys
        invariant forall id | id in state.rows && id !in todo :: !HasKey(state.rows[id], req.participant, req.key)
      {
        var id :| id in todo;
        if HasKey(state.rows[id], req.participant, req.key) {
          return Some(id);
        }
        todo := todo - {id};
      }
      return None;
    }
  }

  lemma OthersLeaveAlone(h: Digest, s: State, step: Step, mine: TxnId)
    requires Possible(s, step) && !Mine(step, mine)
    ensures mine in Apply(h, s, step).txns <==> mine in s.txns
    ensures mine in s.txns ==> Apply(h, s, step).txns[mine] == s.txns[mine]
    ensures mine in Apply(h, s, step).answers <==> mine in s.answers
  {
    hide Finds, InsertFree, HasKey, Unlocked, RowUnlocked, NotClosing, Gate, ReplayOrConflict, NewRow, Forget, Become,
      Respond;
    if !step.AddChallenge? && !step.HackathonsChange? {
      OthersStay(s, step.txn, mine);
    }
  }

  lemma OthersStay(s: State, t: TxnId, mine: TxnId)
    requires t != mine
    ensures forall r: State | r.txns == s.txns && r.answers == s.answers ::
              && LeavesAlone(r, Forget(r, t), mine)
              && (forall x :: LeavesAlone(r, Become(r, t, x), mine))
              && (forall req, reply :: LeavesAlone(r, Respond(r, t, req, reply), mine))
  {
  }

  predicate LeavesAlone(s: State, s': State, mine: TxnId) {
    && (mine in s'.txns <==> mine in s.txns)
    && (mine in s.txns ==> s'.txns[mine] == s.txns[mine])
    && (mine in s'.answers <==> mine in s.answers)
  }

  /** The transaction is over; its reply, if any, is on record and right; a new row is the one it made. */
  ghost predicate Finished(h: Digest, s: State, t: TxnId, req: CreateRequest, id: RowId, reply: Option<Reply>) {
    && t !in s.txns
    && (t in s.answers <==> reply.Some?)
    && (reply.Some? ==> s.answers[t] == Answer(req, reply.value) && AnswerOk(h, s, s.answers[t]))
    && (reply.Some? && reply.value.Accepted? ==> reply.value.id == id)
  }

  function ReplyOn(s: State, t: TxnId): Option<Reply> {
    if t in s.answers then Some(s.answers[t].reply) else None
  }

  lemma RepliesAreRight(h: Digest, s: State, t: TxnId, req: CreateRequest, id: RowId)
    requires Inv(h, s) && t !in s.txns
    requires t in s.answers ==>
               s.answers[t].req == req && (s.answers[t].reply.Accepted? ==> s.answers[t].reply.id == id)
    ensures Finished(h, s, t, req, id, ReplyOn(s, t))
  {
  }

  /** What a create does when nothing interferes: replay or refuse a key that is there, ask the gate, add the row. */
  ghost predicate CreatedAlone(h: Digest, s: State, req: CreateRequest, id: RowId, s': State, reply: Option<Reply>) {
    && s'.challenges == s.challenges && s'.evaluations == s.evaluations && s'.txns == s.txns
    && (forall found | Finds(s, req, Some(found)) ::
          reply == Some(ReplayOrConflict(h, s.rows[found], found, req)) && s'.rows == s.rows)
    && (Finds(s, req, None) && Gate(s, req.challenge).Some? ==> reply == Gate(s, req.challenge) && s'.rows == s.rows)
    && (Finds(s, req, None) && Gate(s, req.challenge).None? ==>
          reply == Some(Accepted(id)) && s'.rows == s.rows[id := NewRow(h, req)])
  }

  /**
   * Creates a submission. No reply means an exception reached the client: a lock was not granted,
   * or the commit failed.
   */
  method Create(db: Database, t: TxnId, req: CreateRequest, id: RowId, others: Schedule, commits: bool)
    returns (reply: Option<Reply>)
    requires db.Valid() && Fresh(db.state, t)
    modifies db
    ensures db.Valid() && Evolves(old(db.state), db.state)
    ensures Finished(db.h, db.state, t, req, id, reply)
    ensures reply == Some(Accepted(id)) ==> id !in old(db.state).rows
    // Undisturbed: a row with the participant's key answers by its fingerprint, and nothing is written.
    ensures Alone(old(db.state), others) && commits && id !in old(db.state).rows ==>
              forall f | f in old(db.state).rows && req.key.Some?
                && old(db.state).rows[f].key == req.key && old(db.state).rows[f].participant == req.participant ::
                && db.state.rows == old(db.state).rows
                && reply == Some(if old(db.state).rows[f].fingerprint == Some(db.h(req.challenge, req.metadata))
                                 then Replayed(f) else KeyConflict)
    // Undisturbed and without such a row: a published challenge of an open hackathon takes the row as requested.
    ensures Alone(old(db.state), others) && commits && id !in old(db.state).rows
            && (forall f | f in old(db.state).rows && req.key.Some? ::
                  old(db.state).rows[f].key != req.key || old(db.state).rows[f].participant != req.participant) ==>
              var c, challenges := req.challenge, old(db.state).challenges;
              if c in challenges && challenges[c] == Published && c in old(db.state).open then
                && reply == Some(Accepted(id))
                && db.state.rows == old(db.state).rows[id :=
                     Row(c, req.participant, req.metadata, req.artifact, req.key,
                         if req.key.Some? then Some(db.h(c, req.metadata)) else None, Created)]
              else
                && reply == Some(if c in challenges && challenges[c] == Closed then ClosedConflict else NotFound)
                && db.state.rows == old(db.state).rows
    ensures Alone(old(db.state), others) && commits && id !in old(db.state).rows ==>
              && db.state.challenges == old(db.state).challenges && db.state.evaluations == old(db.state).evaluations
              && db.state.txns == map[]
  {
    hide Inv, Evolves, Reachable, Finished, CreatedAlone, Alone;
    ghost var begun := db.state;
    reply := CreateSteps(db, t, req, id, others, commits);
    if Alone(begun, others) && commits && id !in begun.rows {
      CreatedAloneMeans(db.h, begun, req, id, db.state, reply);
      AloneIsAlone(begun, others);
    }
  }

  lemma AloneIsAlone(s: State, others: Schedule)
    requires Alone(s, others)
    ensures s.txns == map[]
  {
  }

  lemma CreatedAloneMeans(
    h: Digest, s: State, req: CreateRequest, id: RowId, s': State, reply: Option<Reply>)
    requires Reachable(h, s) && CreatedAlone(h, s, req, id, s', reply)
    ensures forall f | f in s.rows && req.key.Some?
              && s.rows[f].key == req.key && s.rows[f].participant == req.participant ::
              && s'.rows == s.rows
              && reply == Some(if s.rows[f].fingerprint == Some(h(req.challenge, req.metadata))
                               then Replayed(f) else KeyConflict)
    ensures (forall f | f in s.rows && req.key.Some? ::
               s.rows[f].key != req.key || s.rows[f].participant != req.participant) ==>
              var c := req.challenge;
              if c in s.challenges && s.challenges[c] == Published && c in s.open then
                && reply == Some(Accepted(id))
                && s'.rows == s.rows[id :=
                     Row(c, req.participant, req.metadata, req.artifact, req.key,
                         if req.key.Some? then Some(h(c, req.metadata)) else None, Created)]
              else
                && reply == Some(if c in s.challenges && s.challenges[c] == Closed then ClosedConflict else NotFound)
                && s'.rows == s.rows
    ensures s'.challenges == s.challenges && s'.evaluations == s.evaluations && s'.txns == s.txns
  {
    hide Reachable, Inv;
    ReachableIsInv(h, s);
    InvGives(h, s);
    forall f | f in s.rows && req.key.Some? && s.rows[f].key == req.key && s.rows[f].participant == req.participant
      ensures Finds(s, req, Some(f)) && s.rows[f].fingerprint.Some?
    {
    }
    if forall f | f in s.rows && req.key.Some? :: s.rows[f].key != req.key || s.rows[f].participant != req.participant {
      assert Finds(s, req, None);
    }
  }

  /** The statements of a create, one by one. */
  method CreateSteps(db: Database, t: TxnId, req: CreateRequest, id: RowId, others: Schedule, commits: bool)
    returns (reply: Option<Reply>)
    requires db.Valid() && Fresh(db.state, t)
    modifies db
    ensures db.Valid() && Evolves(old(db.state), db.state)
    ensures Finished(db.h, db.state, t, req, id, reply)
    ensures reply == Some(Accepted(id)) ==> id !in old(db.state).rows
    ensures Alone(old(db.state), others) && commits && id !in old(db.state).rows ==>
              CreatedAlone(db.h, old(db.state), req, id, db.state, reply)
  {
    hide Inv, Evolves, Reachable, AnswerOk, Finds, HasKey, Finished, Gate, CreatedAlone;
    ghost var begun := db.state;
    Stutters(begun);
    var found := db.FindByIdempotency(req);
    db.Do(Lookup(t, req, found), begun);
    if found.Some? {
      RepliesAreRight(db.h, db.state, t, req, id);
      ReplayedAlone(db.h, begun, t, req, found.value, id);
      return ReplyOn(db.state, t);
    }
    db.Others(others(0), t, begun);
    if !NotClosing(db.state, req.challenge) {
      db.Do(Abandon(t), begun);
      RepliesAreRight(db.h, db.state, t, req, id);
      return None;
    }
    ghost var looked := db.state;
    db.Do(Admit(t), begun);
    AdmitEffect(db.h, looked, t);
    if t in db.state.answers {
      RepliesAreRight(db.h, db.state, t, req, id);
      RefusedAlone(db.h, begun, looked, t, req, id);
      return ReplyOn(db.state, t);
    }
    ghost var admitted := db.state;
    if Alone(begun, others) && id !in begun.rows {
      MayInsertAlone(begun, looked, admitted, t, req, id);
    }
    db.Others(others(1), t, begun);
    reply := InsertAndCommit(db, t, req, id, others, commits, begun);
    AcceptedAlone(db.h, begun, looked, admitted, t, req, id, db.state, reply);
  }

  lemma ReplayedAlone(h: Digest, s: State, t: TxnId, req: CreateRequest, found: RowId, id: RowId)
    requires Reachable(h, s) && Possible(s, Lookup(t, req, Some(found)))
    ensures var s' := Apply(h, s, Lookup(t, req, Some(found)));
            s.txns == map[] ==> CreatedAlone(h, s, req, id, s', ReplyOn(s', t))
  {
    hide Reachable, OneEvaluationEach, TxnsOk, AnswersOk, AcceptedOnce;
    ReachableIsInv(h, s);
    forall other | Finds(s, req, Some(other)) ensures other == found {
      assert HasKey(s.rows[other], s.rows[found].participant, s.rows[found].key);
    }
  }

  lemma RefusedAlone(h: Digest, s: State, looked: State, t: TxnId, req: CreateRequest, id: RowId)
    requires Finds(s, req, None) && t in looked.txns && looked.txns[t] == Looked(req) && Possible(looked, Admit(t))
    requires t !in looked.answers
    ensures var s' := Apply(h, looked, Admit(t));
            s.txns == map[] && looked == Become(s, t, Looked(req)) && t in s'.answers ==>
              CreatedAlone(h, s, req, id, s', ReplyOn(s', t))
  {
    KeyIsAbsent(s, req);
    if looked == Become(s, t, Looked(req)) {
      GateFrame(s, looked, req.challenge);
    }
  }

  lemma KeyIsAbsent(s: State, req: CreateRequest)
    requires Finds(s, req, None)
    ensures forall found :: !Finds(s, req, Some(found))
  {
  }

  /** The row is committed, and nothing else has changed. */
  ghost predicate InsertedAlone(
    h: Digest, s: State, t: TxnId, req: CreateRequest, id: RowId, s': State, reply: Option<Reply>) {
    && s'.challenges == s.challenges && s'.evaluations == s.evaluations && s'.txns == Forget(s, t).txns
    && s'.rows == s.rows[id := NewRow(h, req)] && reply == Some(Accepted(id))
  }

  /** With no other transaction about, nothing blocks the row. */
  lemma MayInsertAlone(s: State, looked: State, admitted: State, t: TxnId, req: CreateRequest, id: RowId)
    requires Finds(s, req, None) && id !in s.rows && s.txns == map[]
    requires looked == Become(s, t, Looked(req)) && admitted == Become(looked, t, Admitted(req))
    ensures Finds(admitted, req, None) && InsertFree(admitted, req, id)
    ensures Gate(looked, req.challenge) == Gate(s, req.challenge)
  {
    GateFrame(s, looked, req.challenge);
  }

  lemma AcceptedAlone(
    h: Digest, s: State, looked: State, admitted: State, t: TxnId, req: CreateRequest, id: RowId, s': State,
    reply: Option<Reply>)
    requires Finds(s, req, None)
    ensures s.txns == map[] && looked == Become(s, t, Looked(req)) && admitted == Become(looked, t, Admitted(req))
            && Gate(s, req.challenge).None? && InsertedAlone(h, admitted, t, req, id, s', reply)
            ==> CreatedAlone(h, s, req, id, s', reply)
  {
    KeyIsAbsent(s, req);
  }

  lemma AdmitEffect(h: Digest, s: State, t: TxnId)
    requires Possible(s, Admit(t)) && t !in s.answers
    ensures var s' := Apply(h, s, Admit(t));
            if t in s'.answers then t !in s'.txns && s'.answers[t].req == s.txns[t].req
              && !s'.answers[t].reply.Accepted?
            else t in s'.txns && s' == Become(s, t, Admitted(s.txns[t].req)) && Gate(s, s.txns[t].req.challenge).None?
  {
  }

  /** With the challenge's shared lock held: the row, the commit, and what a collision of keys comes to. */
  method InsertAndCommit(
    db: Database, t: TxnId, req: CreateRequest, id: RowId, others: Schedule, commits: bool, ghost begun: State)
    returns (reply: Option<Reply>)
    requires db.Valid() && Evolves(begun, db.state)
    requires t in db.state.txns && db.state.txns[t] == Admitted(req) && t !in db.state.answers
    modifies db
    ensures db.Valid() && Evolves(begun, db.state)
    ensures Finished(db.h, db.state, t, req, id, reply)
    ensures reply == Some(Accepted(id)) ==> id !in begun.rows
    ensures others(2) == [] && commits && Finds(old(db.state), req, None) && InsertFree(old(db.state), req, id) ==>
              InsertedAlone(db.h, old(db.state), t, req, id, db.state, reply)
    // Nothing in the way: the row has every field of the request, and its fingerprint if there is a key.
    ensures others(2) == [] && commits && Finds(old(db.state), req, None) && InsertFree(old(db.state), req, id) ==>
              && reply == Some(Accepted(id))
              && db.state.rows == old(db.state).rows[id :=
                   Row(req.challenge, req.participant, req.metadata, req.artifact, req.key,
                       if req.key.Some? then Some(db.h(req.challenge, req.metadata)) else None, Created)]
  {
    hide Inv, Evolves, Reachable, AnswerOk, Finds, InsertFree, HasKey, NewRow, Finished, Apply, InsertedAlone;
    ghost var before := db.state;
    var clash := db.FindByIdempotency(req);
    if clash.None? && !InsertFree(db.state, req, id) {
      db.Do(Abandon(t), begun);
      EndEffect(db.h, before, Abandon(t));
      RepliesAreRight(db.h, db.state, t, req, id);
      return None;
    }
    db.Do(Insert(t, id, clash), begun);
    InsertEffect(db.h, before, t, id, clash);
    db.Others(others(2), t, begun);
    ghost var inserted := db.state;
    if clash.None? {
      var last := if commits then CommitCreate(t) else Abandon(t);
      db.Do(last, begun);
      EndEffect(db.h, inserted, last);
      NoSuchRowBefore(db.h, begun, inserted, t);
      CommittedAlone(db.h, before, t, req, id);
    } else {
      ClashIsNoAbsence(before, req, clash.value);
      var again := db.FindByIdempotency(req);
      LoserFindsWinner(db.h, db.state, t);
      db.Do(LookAgain(t, again), begun);
      EndEffect(db.h, inserted, LookAgain(t, again));
    }
    RepliesAreRight(db.h, db.state, t, req, id);
    reply := ReplyOn(db.state, t);
    InsertedMeans(db.h, before, t, req, id, db.state, reply);
  }

  lemma InsertedMeans(
    h: Digest, s: State, t: TxnId, req: CreateRequest, id: RowId, s': State, reply: Option<Reply>)
    ensures InsertedAlone(h, s, t, req, id, s', reply) ==>
              && reply == Some(Accepted(id))
              && s'.rows == s.rows[id :=
                   Row(req.challenge, req.participant, req.metadata, req.artifact, req.key,
                       if req.key.Some? then Some(h(req.challenge, req.metadata)) else None, Created)]
  {
  }

  lemma ClashIsNoAbsence(s: State, req: CreateRequest, found: RowId)
    requires Finds(s, req, Some(found))
    ensures !Finds(s, req, None)
  {
  }

  lemma InsertEffect(h: Digest, s: State, t: TxnId, id: RowId, clash: Option<RowId>)
    requires Possible(s, Insert(t, id, clash))
    ensures var req := s.txns[t].req;
            Apply(h, s, Insert(t, id, clash)) == Become(s, t, if clash.Some? then Collided(req) else Inserted(req, id))
  {
  }

  /** The transaction ends, with the reply its last step gives. */
  lemma EndEffect(h: Digest, s: State, step: Step)
    requires Possible(s, step) && (step.CommitCreate? || step.LookAgain? || step.Abandon?) && step.txn !in s.answers
    ensures var t, s' := step.txn, Apply(h, s, step);
            && t !in s'.txns
            && (step.Abandon? ==> t !in s'.answers)
            && (step.CommitCreate? ==>
                  t in s'.answers && s'.answers[t] == Answer(s.txns[t].req, Accepted(s.txns[t].id)))
            && (step.LookAgain? && t in s'.answers ==>
                  s'.answers[t].req == s.txns[t].req && !s'.answers[t].reply.Accepted?)
  {
  }

  lemma CommittedAlone(h: Digest, s: State, t: TxnId, req: CreateRequest, id: RowId)
    requires t in s.txns && s.txns[t] == Admitted(req)
    ensures var s1 := Become(s, t, Inserted(req, id));
            Possible(s1, CommitCreate(t)) &&
            var s2 := Apply(h, s1, CommitCreate(t)); InsertedAlone(h, s, t, req, id, s2, ReplyOn(s2, t))
  {
  }

  lemma NoSuchRowBefore(h: Digest, begun: State, s: State, t: TxnId)
    requires Evolves(begun, s) && Reachable(h, s) && t in s.txns && s.txns[t].Inserted?
    ensures s.txns[t].id !in begun.rows
  {
    hide Reachable;
    ReachableIsInv(h, s);
    assert TxnOk(s, s.txns[t]);
  }

  /** What the client is told when its update found no CREATED row of its own. */
  function ReplyForLoser(s: State, actor: Participant, id: RowId, target: Status): SubmitReply {
    if id !in s.rows then Missing
    else if s.rows[id].participant != actor then Denied
    else if target == Submitted && s.rows[id].status == Submitted then
      if id in s.evaluations then Evaluated(id) else NoEvaluation
    else InvalidTransition(s.rows[id].status)
  }

  /** The move is done, whoever did it: the submission has the target status, and a submitted one its one evaluation. */
  predicate MoveDone(s: State, actor: Participant, id: RowId, target: Status) {
    && id in s.rows && s.rows[id].participant == actor && s.rows[id].status == target
    && s.evaluations[id] == if target == Submitted then 1 else 0
  }

  /** What a move does when nothing interferes: the owner's CREATED row moves and is judged once, any other stays. */
  ghost predicate MovedAlone(s: State, actor: Participant, id: RowId, target: Status, s': State, reply: SubmitReply) {
    && s'.challenges == s.challenges && s'.txns == s.txns && s'.answers == s.answers
    && if id in s.rows && s.rows[id].participant == actor && s.rows[id].status == Created then
         && reply == Evaluated(id) && s'.rows == s.rows[id := s.rows[id].(status := target)]
         && s'.evaluations == if target == Submitted then s.evaluations + multiset{id} else s.evaluations
       else
         reply == ReplyForLoser(s, actor, id, target) && s'.rows == s.rows && s'.evaluations == s.evaluations
  }

  /**
   * Moves a submission to SUBMITTED, queueing its evaluation, or to CANCELLED; a repeated submit
   * gets the evaluation that is there.
   */
  method Transition(
    db: Database, t: TxnId, actor: Participant, id: RowId, target: Status, others: Schedule, commits: bool)
    returns (reply: SubmitReply)
    requires db.Valid() && Fresh(db.state, t) && (target == Submitted || target == Cancelled)
    modifies db
    ensures db.Valid() && Evolves(old(db.state), db.state) && t !in db.state.txns
    ensures reply.Evaluated? ==> reply.id == id && MoveDone(db.state, actor, id, target)
    ensures reply != Raised && !reply.Evaluated? ==> reply == ReplyForLoser(db.state, actor, id, target) != NoEvaluation
    ensures reply.InvalidTransition? && id in old(db.state).rows ==> reply.from != Created
    ensures reply != Raised ==>
              && (reply == Missing <==> id !in db.state.rows)
              && (reply == Denied <==> id in db.state.rows && db.state.rows[id].participant != actor)
              && (target == Submitted ==>
                    (reply == Evaluated(id) <==>
                       && id in db.state.rows && db.state.rows[id].participant == actor
                       && db.state.rows[id].status == Submitted))
              && (reply.Evaluated? ==> reply.id == id && db.state.rows[id].status == target
                                       && db.state.evaluations[id] == if target == Submitted then 1 else 0)
              && (reply.InvalidTransition? ==> reply.from == db.state.rows[id].status)
              && reply != NoEvaluation
    // Undisturbed: exactly the owner's CREATED row moves, and a submitted one gets one evaluation.
    ensures Alone(old(db.state), others) && commits ==>
              var rows, evaluations := old(db.state).rows, old(db.state).evaluations;
              if id in rows && rows[id].participant == actor && rows[id].status == Created then
                && reply == Evaluated(id) && db.state.rows == rows[id := rows[id].(status := target)]
                && db.state.evaluations == if target == Submitted then evaluations + multiset{id} else evaluations
              else
                db.state.rows == rows && db.state.evaluations == evaluations && reply != Raised
    ensures Alone(old(db.state), others) && commits ==> MovedAlone(old(db.state), actor, id, target, db.state, reply)
  {
    hide Inv, Evolves, Reachable, TxnOk, OneEvaluationEach, RowUnlocked, RowEvolves, MoveDone, Apply, MovedAlone;
    ghost var begun := db.state;
    StateFacts(db.h, begun);
    if Alone(begun, others) {
      AloneMayMove(begun, id);
    }
    if id in db.state.rows && !RowUnlocked(db.state, id) {
      return Raised; // the row lock was not granted
    }
    if id in db.state.rows {
      db.Do(Move(t, actor, id, target), begun);
      MoveEffect(db.h, begun, t, actor, id, target);
    }
    ghost var read := db.state;
    db.Others(others(0), t, begun);
    StateFacts(db.h, db.state);
    if t in db.state.txns {
      ghost var moving := db.state;
      HeldRow(moving, moving.txns[t]);
      if !commits {
        db.Do(Abandon(t), begun);
        OverIsOver(db.h, moving, Abandon(t));
        return Raised;
      }
      db.Do(CommitMove(t), begun);
      OverIsOver(db.h, moving, CommitMove(t));
      RowsFollow(begun, moving, id);
      MoveCommitted(db.h, moving, t);
      MoveCommittedAlone(db.h, begun, t, actor, id, target);
      DoneMeans(db.state, actor, id, target);
      if Alone(begun, others) {
        MovedMeans(begun, actor, id, target, db.state, Evaluated(id));
      }
      return Evaluated(id);
    }
    if id in read.rows {
      RowsFollow(read, db.state, id);
    }
    LoserIsTold(db.state, actor, id, target);
    LosesAlone(db.h, begun, t, actor, id, target);
    ReplyMeans(db.state, actor, id, target);
    reply := ReplyForLoser(db.state, actor, id, target);
    if Alone(begun, others) {
      MovedMeans(begun, actor, id, target, db.state, reply);
    }
  }

  lemma ReplyMeans(s: State, actor: Participant, id: RowId, target: Status)
    requires OneEvaluationEach(s)
    ensures var reply := ReplyForLoser(s, actor, id, target);
            && (reply == Missing <==> id !in s.rows)
            && (reply == Denied <==> id in s.rows && s.rows[id].participant != actor)
            && (reply == Evaluated(id) <==>
                  && id in s.rows && s.rows[id].participant == actor
                  && target == Submitted && s.rows[id].status == Submitted)
            && (reply.Evaluated? ==> reply.id == id && s.evaluations[id] == 1)
            && (reply.InvalidTransition? ==> id in s.rows && reply.from == s.rows[id].status)
            && reply != NoEvaluation && reply != Raised
  {
  }

  lemma DoneMeans(s: State, actor: Participant, id: RowId, target: Status)
    requires MoveDone(s, actor, id, target)
    ensures id in s.rows && s.rows[id].participant == actor && s.rows[id].status == target
    ensures s.evaluations[id] == if target == Submitted then 1 else 0
  {
  }

  lemma MovedMeans(s: State, actor: Participant, id: RowId, target: Status, s': State, reply: SubmitReply)
    requires MovedAlone(s, actor, id, target, s', reply)
    ensures if id in s.rows && s.rows[id].participant == actor && s.rows[id].status == Created then
              && reply == Evaluated(id) && s'.rows == s.rows[id := s.rows[id].(status := target)]
              && s'.evaluations == if target == Submitted then s.evaluations + multiset{id} else s.evaluations
            else
              s'.rows == s.rows && s'.evaluations == s.evaluations
  {
  }

  lemma AloneMayMove(s: State, id: RowId)
    requires s.txns == map[]
    ensures RowUnlocked(s, id)
  {
  }

  lemma MoveCommittedAlone(h: Digest, s: State, t: TxnId, actor: Participant, id: RowId, target: Status)
    requires OneEvaluationEach(s) && Possible(s, Move(t, actor, id, target))
    requires s.rows[id].participant == actor && s.rows[id].status == Created
    ensures var s1 := Apply(h, s, Move(t, actor, id, target));
            Possible(s1, CommitMove(t)) && MovedAlone(s, actor, id, target, Apply(h, s1, CommitMove(t)), Evaluated(id))
  {
    assert s.evaluations[id] == 0;
  }

  lemma LosesAlone(h: Digest, s: State, t: TxnId, actor: Participant, id: RowId, target: Status)
    requires !(id in s.rows && s.rows[id].participant == actor && s.rows[id].status == Created)
    ensures MovedAlone(s, actor, id, target, s, ReplyForLoser(s, actor, id, target))
    ensures Possible(s, Move(t, actor, id, target)) ==> Apply(h, s, Move(t, actor, id, target)) == s
  {
  }

  lemma MoveEffect(h: Digest, s: State, t: TxnId, actor: Participant, id: RowId, target: Status)
    requires Possible(s, Move(t, actor, id, target))
    ensures var s' := Apply(h, s, Move(t, actor, id, target));
            && s'.rows == s.rows && s'.answers == s.answers
            && if s.rows[id].participant == actor && s.rows[id].status == Created
               then t in s'.txns && s'.txns[t] == Moving(id, target) else t !in s'.txns
  {
  }

  lemma OverIsOver(h: Digest, s: State, step: Step)
    requires Possible(s, step) && (step.Abandon? || step.CommitMove? || step.CommitClose?)
    ensures step.txn !in Apply(h, s, step).txns
  {
  }

  lemma MoveCommitted(h: Digest, s: State, t: TxnId)
    requires Inv(h, s) && Possible(s, CommitMove(t))
    ensures MoveDone(Apply(h, s, CommitMove(t)), s.rows[s.txns[t].id].participant, s.txns[t].id, s.txns[t].target)
  {
    hide KeysUnique, FingerprintsKept, AnswersOk, AcceptedOnce, Compatible;
    assert TxnOk(s, s.txns[t]);
  }

  /** A submitted submission is never without its evaluation. */
  lemma LoserIsTold(s: State, actor: Participant, id: RowId, target: Status)
    requires OneEvaluationEach(s)
    ensures ReplyForLoser(s, actor, id, target) != NoEvaluation
    ensures ReplyForLoser(s, actor, id, target).Evaluated? ==> target == Submitted && MoveDone(s, actor, id, target)
  {
  }

  lemma StateFacts(h: Digest, s: State)
    requires Reachable(h, s)
    ensures Inv(h, s) && OneEvaluationEach(s) && Evolves(s, s)
    ensures forall t | t in s.txns :: TxnOk(s, s.txns[t])
  {
    hide KeysUnique, FingerprintsKept, AnswersOk, AcceptedOnce, Compatible, Reachable;
    ReachableIsInv(h, s);
  }

  /** A row seen in a state keeps its owner, and once it has left CREATED it never is CREATED again. */
  lemma RowsFollow(s: State, s': State, id: RowId)
    requires Evolves(s, s') && id in s.rows
    ensures id in s'.rows && s'.rows[id].participant == s.rows[id].participant
    ensures s.rows[id].status != Created ==> s'.rows[id].status == s.rows[id].status
  {
  }

  datatype UpdateReply = Updated | NoSuchSubmission | NotYours | NotCreated | UpdateRaised

  /** What is checked when the row is read, and not again. */
  function ReadCheck(s: State, actor: Participant, id: RowId): (refusal: Option<UpdateReply>)
    ensures refusal == None <==> id in s.rows && s.rows[id].participant == actor && s.rows[id].status == Created
  {
    if id !in s.rows then Some(NoSuchSubmission)
    else if s.rows[id].participant != actor then Some(NotYours)
    else if s.rows[id].status != Created then Some(NotCreated)
    else None
  }

  /**
   * Updates metadata or artifact of a submission. Whatever other sessions do in between, success
   * means that the row was CREATED when it was read and has the fields that were to change.
   */
  method UpdateCreated(
    db: Database, t: TxnId, actor: Participant, id: RowId, edit: Edit, others: Schedule, commits: bool)
    returns (reply: UpdateReply)
    requires db.Valid() && Fresh(db.state, t)
    modifies db
    ensures db.Valid() && Evolves(old(db.state), db.state) && t !in db.state.txns
    ensures reply == Updated ==>
              var read := old(db.state).rows;
              && id in read && read[id].participant == actor && read[id].status == Created && id in db.state.rows
              && (edit.metadata.Some? && edit.metadata.value != read[id].metadata ==>
                    db.state.rows[id].metadata == edit.metadata.value)
              && (edit.artifact.Some? && edit.artifact != read[id].artifact ==>
                    db.state.rows[id].artifact == edit.artifact)
    ensures reply != Updated && reply != UpdateRaised ==> db.state == old(db.state)
    ensures reply == NoSuchSubmission <==> id !in old(db.state).rows
    ensures reply == NotYours <==> id in old(db.state).rows && old(db.state).rows[id].participant != actor
    ensures reply == NotCreated <==>
              && id in old(db.state).rows && old(db.state).rows[id].participant == actor
              && old(db.state).rows[id].status != Created
    // Undisturbed: the owner's CREATED row gets the given fields, and nothing else changes.
    ensures Alone(old(db.state), others) && commits ==>
              var rows := old(db.state).rows;
              if id in rows && rows[id].participant == actor && rows[id].status == Created then
                && reply == Updated
                && db.state.rows == rows[id := rows[id].(
                     metadata := if edit.metadata.Some? then edit.metadata.value else rows[id].metadata,
                     artifact := if edit.artifact.Some? then edit.artifact else rows[id].artifact)]
                && db.state.challenges == old(db.state).challenges
                && db.state.evaluations == old(db.state).evaluations && db.state.txns == old(db.state).txns
              else db.state == old(db.state)
  {
    hide Inv, Evolves, Reachable, TxnOk, Apply, RowUnlocked;
    ghost var begun := db.state;
    StateFacts(db.h, begun);
    var refusal := ReadCheck(db.state, actor, id);
    if refusal.Some? {
      return refusal.value;
    }
    db.Do(ReadForEdit(t, actor, id, edit), begun);
    EditEffect(db.h, begun, t, actor, id, edit);
    db.Others(others(0), t, begun);
    ghost var editing := db.state;
    RowsFollow(begun, editing, id);
    if !RowUnlocked(db.state, id) || !commits {
      db.Do(Abandon(t), begun);
      OverIsOver(db.h, editing, Abandon(t));
      return UpdateRaised;
    }
    db.Do(WriteEdit(t), begun);
    WriteEffect(db.h, editing, t);
    return Updated;
  }

  lemma EditEffect(h: Digest, s: State, t: TxnId, actor: Participant, id: RowId, edit: Edit)
    requires Possible(s, ReadForEdit(t, actor, id, edit)) && ReadCheck(s, actor, id) == None
    ensures Edited(s.rows[id], Changes(s.rows[id], edit)) == Edited(s.rows[id], edit)
    ensures var s' := s.(txns := s.txns[t := Editing(id, Changes(s.rows[id], edit))]);
            && Apply(h, s, ReadForEdit(t, actor, id, edit)) == s'
            && (s.txns == map[] ==> RowUnlocked(s', id) && Forget(s', t).txns == map[])
  {
  }

  lemma WriteEffect(h: Digest, s: State, t: TxnId)
    requires Possible(s, WriteEdit(t))
    ensures var x := s.txns[t];
            var s' := Apply(h, s, WriteEdit(t));
            && s' == Forget(s.(rows := s.rows[x.id := Edited(s.rows[x.id], x.edit)]), t) && t !in s'.txns
            && Edited(s'.rows[x.id], x.edit) == s'.rows[x.id]
  {
  }

  datatype CloseReply = NowClosed | Unknown | NotOrganizer | NotOwner | NotPublished | LockRefused | CloseRaised

  /** What a close does when nothing interferes: the owner closes a published challenge and nothing else changes. */
  ghost predicate ClosedAlone(
    s: State, isOrganizer: bool, isOwner: bool, c: ChallengeId, s': State, reply: CloseReply) {
    && s'.rows == s.rows && s'.evaluations == s.evaluations && s'.txns == s.txns && s'.answers == s.answers
    && s'.challenges == (if isOrganizer && isOwner && IsPublished(s, c) then s.challenges[c := Closed]
      else s.challenges)
    && (reply == NotOrganizer <==> !isOrganizer)
    && (reply == Unknown <==> isOrganizer && c !in s.challenges)
    && (reply == NotOwner <==> isOrganizer && c in s.challenges && !isOwner)
    && (reply == NotPublished <==> isOrganizer && isOwner && c in s.challenges && s.challenges[c] == Draft)
    && (reply == NowClosed <==> isOrganizer && isOwner && c in s.challenges && s.challenges[c] != Draft)
  }

  lemma AloneMayClose(s: State, c: ChallengeId)
    requires s.txns == map[]
    ensures Unlocked(s, c)
  {
  }

  /** The lock is taken, and then the challenge closes, or it is given back. */
  lemma ClosesAlone(h: Digest, s: State, t: TxnId, c: ChallengeId)
    requires IsPublished(s, c) && Possible(s, LockForClose(t, c)) && s.txns == map[]
    ensures var s1 := Apply(h, s, LockForClose(t, c));
            && Possible(s1, CommitClose(t)) && ClosedAlone(s, true, true, c, Apply(h, s1, CommitClose(t)), NowClosed)
            && Possible(s1, Abandon(t)) && ClosedAlone(s, true, false, c, Apply(h, s1, Abandon(t)), NotOwner)
  {
  }

  /** Closes a challenge under its exclusive lock, which waits out every create that holds the shared one. */
  method CloseChallenge(
    db: Database, t: TxnId, isOrganizer: bool, isOwner: bool, c: ChallengeId, others: Schedule, commits: bool)
    returns (reply: CloseReply)
    requires db.Valid() && Fresh(db.state, t)
    modifies db
    ensures db.Valid() && Evolves(old(db.state), db.state) && t !in db.state.txns
    ensures reply == NowClosed ==> isOrganizer && isOwner && IsClosed(db.state, c) && Unlocked(db.state, c)
    ensures reply == Unknown ==> c !in db.state.challenges
    ensures reply == NotPublished ==> c in db.state.challenges && db.state.challenges[c] == Draft
    ensures Alone(old(db.state), others) && commits ==>
            ClosedAlone(old(db.state), isOrganizer, isOwner, c, db.state, reply)
    // Undisturbed: the owning organizer closes a published challenge, and nothing else changes.
    ensures Alone(old(db.state), others) && commits ==>
              var challenges := old(db.state).challenges;
              && db.state.rows == old(db.state).rows && db.state.evaluations == old(db.state).evaluations
              && db.state.challenges ==
                 (if isOrganizer && isOwner && c in challenges && challenges[c] == Published
                  then challenges[c := Closed] else challenges)
              && reply ==
                 if !isOrganizer then NotOrganizer else if c !in challenges then Unknown
                 else if !isOwner then NotOwner else if challenges[c] == Draft then NotPublished else NowClosed
  {
    hide Inv, Evolves, Reachable, TxnOk, Apply, Unlocked, ClosedAlone;
    reply := CloseSteps(db, t, isOrganizer, isOwner, c, others, commits);
    ClosedMeans(old(db.state), isOrganizer, isOwner, c, db.state, reply);
  }

  lemma ClosedMeans(s: State, isOrganizer: bool, isOwner: bool, c: ChallengeId, s': State, reply: CloseReply)
    ensures ClosedAlone(s, isOrganizer, isOwner, c, s', reply) ==>
              && s'.rows == s.rows && s'.evaluations == s.evaluations
              && s'.challenges ==
                 (if isOrganizer && isOwner && c in s.challenges && s.challenges[c] == Published
                  then s.challenges[c := Closed] else s.challenges)
              && reply ==
                 if !isOrganizer then NotOrganizer else if c !in s.challenges then Unknown
                 else if !isOwner then NotOwner else if s.challenges[c] == Draft then NotPublished else NowClosed
  {
  }

  /** The statements of a close, one by one. */
  method CloseSteps(
    db: Database, t: TxnId, isOrganizer: bool, isOwner: bool, c: ChallengeId, others: Schedule, commits: bool)
    returns (reply: CloseReply)
    requires db.Valid() && Fresh(db.state, t)
    modifies db
    ensures db.Valid() && Evolves(old(db.state), db.state) && t !in db.state.txns
    ensures reply == NowClosed ==> isOrganizer && isOwner && IsClosed(db.state, c) && Unlocked(db.state, c)
    ensures reply == Unknown ==> c !in db.state.challenges
    ensures reply == NotPublished ==> c in db.state.challenges && db.state.challenges[c] == Draft
    ensures Alone(old(db.state), others) && commits ==>
            ClosedAlone(old(db.state), isOrganizer, isOwner, c, db.state, reply)
  {
    hide Inv, Evolves, Reachable, TxnOk, Apply, Unlocked;
    ghost var begun := db.state;
    StateFacts(db.h, begun);
    if Alone(begun, others) {
      AloneMayClose(begun, c);
    }
    if !isOrganizer {
      return NotOrganizer;
    }
    if c !in db.state.challenges {
      return Unknown;
    }
    if !Unlocked(db.state, c) {
      return LockRefused;
    }
    db.Do(LockForClose(t, c), begun);
    LockEffect(db.h, begun, t, c);
    if Alone(begun, others) && IsPublished(begun, c) {
      ClosesAlone(db.h, begun, t, c);
    }
    ghost var locked := db.state;
    if !isOwner {
      if t in db.state.txns {
        db.Do(Abandon(t), begun);
        OverIsOver(db.h, locked, Abandon(t));
      }
      return NotOwner;
    }
    if t !in db.state.txns {
      return if db.state.challenges[c] == Closed then NowClosed else NotPublished;
    }
    db.Others(others(0), t, begun);
    locked := db.state;
    var last := if commits then CommitClose(t) else Abandon(t);
    db.Do(last, begun);
    OverIsOver(db.h, locked, last);
    if !commits {
      return CloseRaised;
    }
    CloseEffect(db.h, locked, t);
    StateFacts(db.h, db.state);
    LockedIsPublished(db.h, db.state, c);
    return NowClosed;
  }

  lemma LockEffect(h: Digest, s: State, t: TxnId, c: ChallengeId)
    requires Possible(s, LockForClose(t, c))
    ensures var s' := Apply(h, s, LockForClose(t, c));
            if s.challenges[c] == Published then t in s'.txns && s'.txns[t] == Closing(c)
              && s'.challenges == s.challenges
            else s' == s
  {
  }

  lemma CloseEffect(h: Digest, s: State, t: TxnId)
    requires Possible(s, CommitClose(t))
    ensures IsClosed(Apply(h, s, CommitClose(t)), s.txns[t].challenge)
  {
  }
}
