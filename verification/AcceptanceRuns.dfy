/** What the acceptance protocol guarantees over whole runs, and the two races it leaves open. */
module AcceptanceRuns {
  import opened Common
  import opened Acceptance

  /**
   * However creates, submits, cancels, edits and closes interleave: all creates that got a
   * submission for one key of a participant got the same one, only one of them by making it, and
   * they all had its fingerprint; a create that was refused for the key had another fingerprint.
   */
  lemma KeysAreIdempotent(h: Digest, s: State, t: TxnId, u: TxnId)
    requires Reachable(h, s) && t in s.answers && u in s.answers
    requires s.answers[t].req.key.Some? && s.answers[t].req.key == s.answers[u].req.key
    requires s.answers[t].req.participant == s.answers[u].req.participant
    ensures var a, b := s.answers[t].req, s.answers[u].req;
            var x, y := s.answers[t].reply, s.answers[u].reply;
            (x.Accepted? || x.Replayed?) && (y.Accepted? || y.Replayed?) ==>
              && x.id == y.id && x.id in s.rows
              && s.rows[x.id].participant == a.participant && s.rows[x.id].key == a.key
              && s.rows[x.id].fingerprint == Some(h(a.challenge, a.metadata))
              && h(a.challenge, a.metadata) == h(b.challenge, b.metadata)
              && (x.Accepted? && y.Accepted? ==> t == u)
    ensures (s.answers[t].reply.Accepted? || s.answers[t].reply.Replayed?) && s.answers[u].reply.KeyConflict? ==>
              h(s.answers[t].req.challenge, s.answers[t].req.metadata)
              != h(s.answers[u].req.challenge, s.answers[u].req.metadata)
  {
    hide Reachable;
    if s.answers[t].reply.Accepted? || s.answers[t].reply.Replayed? {
      if s.answers[u].reply.Accepted? || s.answers[u].reply.Replayed? {
        BothGotIt(h, s, t, u, s.answers[t].reply.id, s.answers[u].reply.id);
      } else if s.answers[u].reply.KeyConflict? {
        OneWasRefused(h, s, t, u, s.answers[t].reply.id);
      }
    }
  }

  /** A participant's key names at most one submission. */
  lemma OneRowPerKey(h: Digest, s: State)
    requires Reachable(h, s)
    ensures forall a, b | a in s.rows && b in s.rows && s.rows[a].key.Some?
              && s.rows[a].key == s.rows[b].key && s.rows[a].participant == s.rows[b].participant :: a == b
  {
    hide OneEvaluationEach, TxnsOk, AnswersOk, IsRun, After, Reachable;
    ReachableIsInv(h, s);
    forall a, b | a in s.rows && b in s.rows && s.rows[a].key.Some?
      && s.rows[a].key == s.rows[b].key && s.rows[a].participant == s.rows[b].participant
      ensures a == b
    {
      assert HasKey(s.rows[a], s.rows[b].participant, s.rows[b].key);
    }
  }

  lemma BothGotIt(h: Digest, s: State, t: TxnId, u: TxnId, i: RowId, j: RowId)
    requires Reachable(h, s) && t in s.answers && u in s.answers && SameKey(s.answers[t].req, s.answers[u].req)
    requires Returned(s.answers[t], i) && Returned(s.answers[u], j)
    ensures i == j && i in s.rows && s.rows[i].participant == s.answers[t].req.participant
    ensures s.rows[i].key == s.answers[t].req.key
    ensures s.rows[i].fingerprint == Some(h(s.answers[t].req.challenge, s.answers[t].req.metadata))
    ensures s.rows[i].fingerprint == Some(h(s.answers[u].req.challenge, s.answers[u].req.metadata))
    ensures s.answers[t].reply.Accepted? && s.answers[u].reply.Accepted? ==> t == u
  {
    hide OneEvaluationEach, TxnsOk, IsRun, After, Reachable;
    ReachableIsInv(h, s);
    assert AnswerOk(h, s, s.answers[t]) && AnswerOk(h, s, s.answers[u]);
    assert HasKey(s.rows[i], s.rows[j].participant, s.rows[j].key);
  }

  lemma OneWasRefused(h: Digest, s: State, t: TxnId, u: TxnId, i: RowId)
    requires Reachable(h, s) && t in s.answers && u in s.answers && SameKey(s.answers[t].req, s.answers[u].req)
    requires Returned(s.answers[t], i) && s.answers[u].reply == KeyConflict
    ensures h(s.answers[t].req.challenge, s.answers[t].req.metadata)
            != h(s.answers[u].req.challenge, s.answers[u].req.metadata)
  {
    hide OneEvaluationEach, TxnsOk, IsRun, After, Reachable;
    ReachableIsInv(h, s);
    assert AnswerOk(h, s, s.answers[t]) && AnswerOk(h, s, s.answers[u]);
    var digest := h(s.answers[u].req.challenge, s.answers[u].req.metadata);
    var j :| Finds(s, s.answers[u].req, Some(j)) && s.rows[j].fingerprint != Some(digest);
    assert HasKey(s.rows[i], s.rows[j].participant, s.rows[j].key);
  }

  /**
   * A submission that a step adds is the row its create asked for: its challenge, participant,
   * metadata, artifact and key, the fingerprint if it has a key, and status CREATED.
   */
  lemma CommittedRows(h: Digest, s: State, step: Step)
    requires Reachable(h, s) && Possible(s, step)
    ensures forall id | id in Apply(h, s, step).rows && id !in s.rows ::
              && step.CommitCreate? && step.txn in s.txns && s.txns[step.txn].Inserted? && s.txns[step.txn].id == id
              && var req := s.txns[step.txn].req;
                 Apply(h, s, step).rows[id] ==
                   Row(req.challenge, req.participant, req.metadata, req.artifact, req.key,
                       if req.key.Some? then Some(h(req.challenge, req.metadata)) else None, Created)
    ensures step.CommitCreate? ==> s.txns[step.txn].id !in s.rows && s.txns[step.txn].id in Apply(h, s, step).rows
  {
    hide Inv, Finds, InsertFree, HasKey, RowUnlocked, Compatible, Reachable;
    ReachableIsInv(h, s);
    InvGives(h, s);
    if step.CommitCreate? {
      assert TxnOk(s, s.txns[step.txn]);
    } else if !step.CommitMove? && !step.WriteEdit? {
      RowsUntouched(h, s, step);
    }
  }

  /** The loser of a race for a key always finds the winner's row: the integrity error is never raised to the client. */
  lemma LoserFindsWinner(h: Digest, s: State, t: TxnId)
    requires Reachable(h, s) && t in s.txns && s.txns[t].Collided?
    ensures !Possible(s, LookAgain(t, None))
    ensures exists id :: Possible(s, LookAgain(t, Some(id)))
  {
    hide KeysUnique, OneEvaluationEach, AnswersOk, IsRun, After;
    ReachableIsInv(h, s);
    assert TxnOk(s, s.txns[t]);
    var id :| Finds(s, s.txns[t].req, Some(id));
    assert Possible(s, LookAgain(t, Some(id)));
  }

  /**
   * Once a create has a submission for a key, every later retry finds that submission, open
   * challenge or not: the same request gets it again, another request is refused.
   */
  lemma RetriesReplay(
    h: Digest, s: State, t: TxnId, id: RowId, steps: seq<Step>, u: TxnId, req: CreateRequest, found: Option<RowId>)
    requires Reachable(h, s) && t in s.answers
    requires s.answers[t].reply == Accepted(id) || s.answers[t].reply == Replayed(id)
    requires req.key.Some? && s.answers[t].req.key == req.key && s.answers[t].req.participant == req.participant
    requires IsRun(h, s, steps)
    requires Possible(After(h, s, steps), Lookup(u, req, found))
    ensures found == Some(id)
    ensures var first := s.answers[t].req;
            var s' := Apply(h, After(h, s, steps), Lookup(u, req, found));
            u in s'.answers && s'.answers[u].reply ==
              if h(first.challenge, first.metadata) == h(req.challenge, req.metadata) then Replayed(id) else KeyConflict
  {
    hide OneEvaluationEach, TxnsOk, IsRun, After;
    ReachableIsInv(h, s);
    RunKeeps(h, s, steps);
    var s1 := After(h, s, steps);
    assert AnswerOk(h, s1, s1.answers[t]);
    assert HasKey(s1.rows[id], req.participant, req.key);
    assert HasKey(s1.rows[id], s1.rows[found.value].participant, s1.rows[found.value].key);
  }

  /**
   * A submission is SUBMITTED exactly when it has one evaluation, and the evaluations' unique index
   * never has to refuse one.
   */
  lemma SubmittedIsEvaluatedOnce(h: Digest, s: State, id: RowId)
    requires Reachable(h, s)
    ensures s.evaluations[id] <= 1
    ensures s.evaluations[id] == 1 <==> id in s.rows && s.rows[id].status == Submitted
    ensures forall t | t in s.txns && s.txns[t].Moving? && s.txns[t].id == id :: id !in s.evaluations
  {
    hide KeysUnique, AnswersOk, IsRun, After;
    ReachableIsInv(h, s);
    assert forall t | t in s.txns :: TxnOk(s, s.txns[t]);
  }

  /** The domain's transition table. */
  function AllowedTransitions(current: Status): set<Status> {
    if current == Created then {Submitted, Cancelled, Failed} else {}
  }

  /**
   * Submissions are never lost and never change owner, challenge or key; over any run a status
   * stays or makes one move of the transition table, so a terminal status is for good.
   */
  lemma StatusesFollowTheTable(h: Digest, s: State, steps: seq<Step>, id: RowId)
    requires Reachable(h, s) && IsRun(h, s, steps) && id in s.rows
    ensures var s' := After(h, s, steps);
            && id in s'.rows
            && s'.rows[id].participant == s.rows[id].participant && s'.rows[id].challenge == s.rows[id].challenge
            && s'.rows[id].key == s.rows[id].key && s'.rows[id].fingerprint == s.rows[id].fingerprint
            && (s'.rows[id].status == s.rows[id].status || s'.rows[id].status in AllowedTransitions(s.rows[id].status))
            && (s.rows[id].status != Created ==> s'.rows[id].status == s.rows[id].status)
  {
    hide Inv, IsRun, After;
    ReachableIsInv(h, s);
    RunKeeps(h, s, steps);
  }

  // ---------------------------------------------------------------- after a challenge closed

  function RowsOf(s: State, c: ChallengeId): set<RowId> {
    set id | id in s.rows && s.rows[id].challenge == c
  }

  predicate IsClosed(s: State, c: ChallengeId) {
    c in s.challenges && s.challenges[c] == Closed
  }

  /** A publish that read this challenge as a draft has not written yet. */
  predicate StalePublish(s: State, c: ChallengeId) {
    exists t | t in s.txns :: s.txns[t] == Publishing(c)
  }

  /** Three kinds of step write rows. */
  lemma RowsUntouched(h: Digest, s: State, step: Step)
    requires Possible(s, step) && !step.CommitCreate? && !step.CommitMove? && !step.WriteEdit?
    ensures Apply(h, s, step).rows == s.rows
  {
    hide Finds, InsertFree, HasKey, Unlocked, RowUnlocked, NotClosing, Gate, ReplayOrConflict, NewRow;
  }

  /** Publishes and edits are only begun on what was read as a draft or as CREATED. */
  predicate BegunWell(s: State, x: Txn) {
    && (x.Publishing? ==> x.challenge in s.challenges && s.challenges[x.challenge] == Draft)
    && (x.Editing? ==> x.id in s.rows && s.rows[x.id].status == Created)
  }

  lemma NewTxns(h: Digest, s: State, step: Step)
    requires Possible(s, step)
    ensures forall t | t in Apply(h, s, step).txns ::
              var x := Apply(h, s, step).txns[t]; BegunWell(s, x) || (t in s.txns && s.txns[t] == x)
  {
    hide Finds, InsertFree, HasKey, Unlocked, RowUnlocked, NotClosing, Gate, ReplayOrConflict, NewRow;
  }

  /** A submission is only ever committed while its challenge is published. */
  lemma NewRowsArePublished(h: Digest, s: State, step: Step)
    requires Inv(h, s) && Possible(s, step)
    ensures forall id | id in Apply(h, s, step).rows && id !in s.rows ::
              IsPublished(s, Apply(h, s, step).rows[id].challenge)
  {
    hide Inv, Finds, InsertFree, HasKey, RowUnlocked, Compatible;
    InvGives(h, s);
    if step.CommitCreate? {
      assert TxnOk(s, s.txns[step.txn]);
    } else if !step.CommitMove? && !step.WriteEdit? {
      RowsUntouched(h, s, step);
    }
  }

  /** Only a stale publish changes the status of a closed challenge. */
  lemma OnlyPublishReopens(h: Digest, s: State, step: Step, c: ChallengeId)
    requires Possible(s, step) && IsClosed(s, c) && !StalePublish(s, c)
    ensures IsClosed(Apply(h, s, step), c)
  {
    hide Finds, InsertFree, HasKey, Unlocked, RowUnlocked, NotClosing, Gate, ReplayOrConflict, NewRow;
    if step.WritePublished? {
      assert s.txns[step.txn] == Publishing(s.txns[step.txn].challenge);
    }
  }

  lemma NoNewPublish(h: Digest, s: State, step: Step, c: ChallengeId)
    requires Possible(s, step) && IsClosed(s, c) && !StalePublish(s, c)
    ensures !StalePublish(Apply(h, s, step), c)
  {
    hide Possible, Apply;
    NewTxns(h, s, step);
  }

  lemma ClosedStepKeeps(h: Digest, s: State, step: Step, c: ChallengeId)
    requires Inv(h, s) && Possible(s, step) && IsClosed(s, c) && !StalePublish(s, c)
    ensures var s' := Apply(h, s, step); IsClosed(s', c) && !StalePublish(s', c) && RowsOf(s', c) == RowsOf(s, c)
  {
    hide Inv, Possible, Apply, StalePublish;
    StepKeeps(h, s, step);
    NewRowsArePublished(h, s, step);
    OnlyPublishReopens(h, s, step, c);
    NoNewPublish(h, s, step, c);
  }

  lemma {:induction false} ClosedRunKeeps(h: Digest, s: State, steps: seq<Step>, c: ChallengeId)
    requires Inv(h, s) && IsRun(h, s, steps) && IsClosed(s, c) && !StalePublish(s, c)
    ensures IsClosed(After(h, s, steps), c) && RowsOf(After(h, s, steps), c) == RowsOf(s, c)
    decreases |steps|
  {
    hide Inv, Possible, Apply, StalePublish, IsClosed, RowsOf;
    if steps != [] {
      ClosedStepKeeps(h, s, steps[0], c);
      StepKeeps(h, s, steps[0]);
      ClosedRunKeeps(h, Apply(h, s, steps[0]), steps[1..], c);
    }
  }

  lemma {:induction false} Unused(used: set<nat>) returns (n: nat)
    ensures forall x | x in used :: x < n
    decreases used
  {
    if used == {} {
      n := 0;
    } else {
      var x :| x in used;
      var m := Unused(used - {x});
      n := if m <= x then x + 1 else m;
      assert used == (used - {x}) + {x};
    }
  }

  lemma {:induction false} OneMoreStep(h: Digest, s: State, steps: seq<Step>, step: Step)
    requires IsRun(h, s, steps) && Possible(After(h, s, steps), step)
    ensures IsRun(h, s, steps + [step]) && After(h, s, steps + [step]) == Apply(h, After(h, s, steps), step)
    decreases |steps|
  {
    hide Possible, Apply;
    if steps == [] {
      assert steps + [step] == [step];
      NoMoreSteps(h, Apply(h, s, step));
    } else {
      OneMoreStep(h, Apply(h, s, steps[0]), steps[1..], step);
      assert (steps + [step])[1..] == steps[1..] + [step];
    }
  }

  lemma NoMoreSteps(h: Digest, s: State)
    ensures IsRun(h, s, []) && After(h, s, []) == s
  {
  }

  /** Publish the challenge late and open its hackathon: its gate is open again. */
  lemma LatePublish(h: Digest, s: State, t: TxnId, c: ChallengeId) returns (steps: seq<Step>)
    requires Inv(h, s) && IsClosed(s, c) && t in s.txns && s.txns[t] == Publishing(c)
    ensures IsRun(h, s, steps)
    ensures After(h, s, steps) == Forget(s, t).(challenges := s.challenges[c := Published], open := {c})
  {
    hide Inv, IsRun, After, Unlocked;
    LockedIsPublished(h, s, c);
    NoMoreSteps(h, s);
    OneMoreStep(h, s, [], WritePublished(t));
    OneMoreStep(h, s, [] + [WritePublished(t)], HackathonsChange({c}));
    steps := [] + [WritePublished(t)] + [HackathonsChange({c})];
  }

  /** A keyless create, alone, of a challenge whose gate is open. */
  lemma KeylessCreate(h: Digest, s: State, t: TxnId, req: CreateRequest, id: RowId) returns (steps: seq<Step>)
    requires Fresh(s, t) && req.key.None? && Gate(s, req.challenge).None? && NotClosing(s, req.challenge)
    requires id !in s.rows && forall u | u in s.txns && s.txns[u].Inserted? :: s.txns[u].id != id
    ensures IsRun(h, s, steps)
    ensures After(h, s, steps) == Respond(s.(rows := s.rows[id := NewRow(h, req)]), t, req, Accepted(id))
  {
    hide IsRun, After, Gate, NewRow, Finds;
    KeylessFindsNothing(s, req);
    NoMoreSteps(h, s);
    var s1, s2, s3 := Become(s, t, Looked(req)), Become(s, t, Admitted(req)), Become(s, t, Inserted(req, id));
    OneMoreStep(h, s, [], Lookup(t, req, None));
    assert Apply(h, s, Lookup(t, req, None)) == s1;
    assert NotClosing(s1, req.challenge);
    OneMoreStep(h, s, [] + [Lookup(t, req, None)], Admit(t));
    GateFrame(s, s1, req.challenge);
    assert Apply(h, s1, Admit(t)) == s2;
    KeylessFindsNothing(s2, req);
    assert InsertFree(s2, req, id);
    OneMoreStep(h, s, [] + [Lookup(t, req, None)] + [Admit(t)], Insert(t, id, None));
    assert Apply(h, s2, Insert(t, id, None)) == s3;
    assert Forget(s3, t).txns == Forget(s, t).txns;
    OneMoreStep(h, s, [] + [Lookup(t, req, None)] + [Admit(t)] + [Insert(t, id, None)], CommitCreate(t));
    steps := [] + [Lookup(t, req, None)] + [Admit(t)] + [Insert(t, id, None)] + [CommitCreate(t)];
  }

  lemma GateFrame(s: State, s': State, c: ChallengeId)
    requires s'.challenges == s.challenges && s'.open == s.open
    ensures Gate(s', c) == Gate(s, c)
  {
  }

  lemma {:induction false} RunThenRun(h: Digest, s: State, first: seq<Step>, second: seq<Step>)
    requires IsRun(h, s, first) && IsRun(h, After(h, s, first), second)
    ensures IsRun(h, s, first + second) && After(h, s, first + second) == After(h, After(h, s, first), second)
    decreases |first|
  {
    hide Possible, Apply;
    if first == [] {
      assert first + second == second;
    } else {
      RunThenRun(h, Apply(h, s, first[0]), first[1..], second);
      assert (first + second)[1..] == first[1..] + second;
    }
  }

  /** What a stale publish lets happen: the challenge is open again and takes a new submission. */
  lemma LateAcceptance(h: Digest, s: State, t: TxnId, c: ChallengeId) returns (steps: seq<Step>)
    requires Inv(h, s) && IsClosed(s, c) && t in s.txns && s.txns[t] == Publishing(c)
    ensures IsRun(h, s, steps) && RowsOf(After(h, s, steps), c) > RowsOf(s, c)
  {
    hide Inv, IsRun, After, RowsOf, Unlocked;
    InvGives(h, s);
    LockedIsPublished(h, s, c);
    StaysUnlocked(s, t, c);
    var first := LatePublish(h, s, t, c);
    var s1 := After(h, s, first);
    var held := set u | u in s.txns && s.txns[u].Inserted? :: s.txns[u].id;
    var id := Unused(s.rows.Keys + held);
    assert id !in held && id !in s.rows.Keys;
    var req := CreateRequest(0, c, map[], None, None);
    assert forall u | u in s1.txns && s1.txns[u].Inserted? :: s1.txns[u].id in held;
    var second := KeylessCreate(h, s1, t, req, id);
    RunThenRun(h, s, first, second);
    steps := first + second;
    OneMoreRow(s, After(h, s, steps), c, id);
  }

  lemma StaysUnlocked(s: State, t: TxnId, c: ChallengeId)
    requires Unlocked(s, c)
    ensures NotClosing(Forget(s, t), c)
  {
  }

  lemma OneMoreRow(s: State, s': State, c: ChallengeId, id: RowId)
    requires id !in s.rows && id in s'.rows && s'.rows[id].challenge == c
    requires forall other | other in s.rows :: other in s'.rows && s'.rows[other] == s.rows[other]
    ensures RowsOf(s', c) > RowsOf(s, c)
  {
    assert id in RowsOf(s', c) && id !in RowsOf(s, c);
  }

  lemma LockedIsPublished(h: Digest, s: State, c: ChallengeId)
    requires Inv(h, s) && !IsPublished(s, c)
    ensures Unlocked(s, c)
  {
    hide Inv;
    InvGives(h, s);
    forall u | u in s.txns ensures !ClosesLock(s.txns[u], c) && !SharesLock(s.txns[u], c) {
      assert TxnOk(s, s.txns[u]);
    }
  }

  lemma KeylessFindsNothing(s: State, req: CreateRequest)
    requires req.key.None?
    ensures Finds(s, req, None)
  {
  }

  /**
   * After a close commits no submission to the challenge is committed, whatever runs next, if and
   * only if no publish that still saw the challenge as a draft is waiting to write: publishing
   * reads without a lock and writes whatever it finds.
   */
  lemma ClosedForGood(h: Digest, s: State, c: ChallengeId)
    requires Reachable(h, s) && IsClosed(s, c)
    ensures (forall steps | IsRun(h, s, steps) :: RowsOf(After(h, s, steps), c) == RowsOf(s, c)) <==>
            !StalePublish(s, c)
  {
    hide Inv, IsRun, After, RowsOf, IsClosed;
    ReachableIsInv(h, s);
    if StalePublish(s, c) {
      var t :| t in s.txns && s.txns[t] == Publishing(c);
      var steps := LateAcceptance(h, s, t, c);
      assert RowsOf(After(h, s, steps), c) != RowsOf(s, c);
    } else {
      forall steps | IsRun(h, s, steps) ensures RowsOf(After(h, s, steps), c) == RowsOf(s, c) {
        ClosedRunKeeps(h, s, steps, c);
      }
    }
  }

  lemma ReachableStep(h: Digest, s: State, step: Step)
    requires Reachable(h, s) && Possible(s, step)
    ensures Reachable(h, Apply(h, s, step))
  {
    hide IsRun, After, Possible, Apply;
    var steps :| IsRun(h, INITIAL, steps) && After(h, INITIAL, steps) == s;
    OneMoreStep(h, INITIAL, steps, step);
  }

  /**
   * That race is real: two publishes read the draft, one writes, the challenge closes, and the
   * other is still to write.
   */
  lemma StalePublishIsReachable(h: Digest, c: ChallengeId) returns (s: State)
    ensures Reachable(h, s) && IsClosed(s, c) && StalePublish(s, c)
  {
    hide IsRun, After, Reachable, Finds, InsertFree, Gate, NewRow, ReplayOrConflict;
    InitialIsReachable(h);
    ReachableStep(h, INITIAL, AddChallenge(c));
    var s1 := INITIAL.(challenges := map[c := Draft]);
    assert Apply(h, INITIAL, AddChallenge(c)) == s1;
    ReachableStep(h, s1, ReadForPublish(0, c));
    var s2 := s1.(txns := map[0 := Publishing(c)]);
    assert Apply(h, s1, ReadForPublish(0, c)) == s2;
    ReachableStep(h, s2, ReadForPublish(1, c));
    var s3 := s2.(txns := map[0 := Publishing(c), 1 := Publishing(c)]);
    assert Apply(h, s2, ReadForPublish(1, c)) == s3;
    ReachableStep(h, s3, WritePublished(0));
    var s4 := s3.(challenges := map[c := Published], txns := map[1 := Publishing(c)]);
    assert Apply(h, s3, WritePublished(0)) == s4;
    ReachableStep(h, s4, LockForClose(2, c));
    var s5 := s4.(txns := map[1 := Publishing(c), 2 := Closing(c)]);
    assert Apply(h, s4, LockForClose(2, c)) == s5;
    ReachableStep(h, s5, CommitClose(2));
    s := s5.(challenges := map[c := Closed], txns := map[1 := Publishing(c)]);
    assert Apply(h, s5, CommitClose(2)) == s;
    assert s.txns[1] == Publishing(c);
  }

  lemma InitialIsReachable(h: Digest)
    ensures Reachable(h, INITIAL)
  {
    NoMoreSteps(h, INITIAL);
  }

  // ---------------------------------------------------------------- after a submission left CREATED

  predicate Left(s: State, id: RowId) {
    id in s.rows && s.rows[id].status != Created
  }

  predicate EditsTo(s: State, x: Txn, id: RowId)
    requires id in s.rows
  {
    && x.Editing? && x.id == id
    && ((x.edit.metadata.Some? && x.edit.metadata.value != s.rows[id].metadata)
        || (x.edit.artifact.Some? && x.edit.artifact != s.rows[id].artifact))
  }

  /** An edit that saw the submission CREATED still has other metadata or another artifact to write. */
  predicate StaleEdit(s: State, id: RowId)
    requires id in s.rows
  {
    exists t | t in s.txns :: EditsTo(s, s.txns[t], id)
  }

  predicate SameContent(s: State, s': State, id: RowId) {
    && id in s.rows && id in s'.rows
    && s'.rows[id].metadata == s.rows[id].metadata && s'.rows[id].artifact == s.rows[id].artifact
  }

  lemma FrozenStepKeeps(h: Digest, s: State, step: Step, id: RowId)
    requires Inv(h, s) && Possible(s, step) && Left(s, id) && !StaleEdit(s, id)
    ensures SameContent(s, Apply(h, s, step), id)
  {
    hide Inv, Finds, InsertFree, HasKey, RowUnlocked, Compatible;
    InvGives(h, s);
    if step.CommitCreate? || step.WriteEdit? {
      assert TxnOk(s, s.txns[step.txn]);
      assert !EditsTo(s, s.txns[step.txn], id);
    } else if !step.CommitMove? {
      RowsUntouched(h, s, step);
    }
  }

  lemma NoNewEdit(h: Digest, s: State, step: Step, id: RowId)
    requires Possible(s, step) && Left(s, id) && !StaleEdit(s, id) && SameContent(s, Apply(h, s, step), id)
    ensures !StaleEdit(Apply(h, s, step), id)
  {
    hide Possible, Apply;
    NewTxns(h, s, step);
    var s' := Apply(h, s, step);
    forall t | t in s'.txns ensures !EditsTo(s', s'.txns[t], id) {
      assert t in s.txns ==> !EditsTo(s, s.txns[t], id);
    }
  }

  lemma {:induction false} FrozenRunKeeps(h: Digest, s: State, steps: seq<Step>, id: RowId)
    requires Inv(h, s) && IsRun(h, s, steps) && Left(s, id) && !StaleEdit(s, id)
    ensures SameContent(s, After(h, s, steps), id)
    decreases |steps|
  {
    hide Inv, Possible, Apply, StaleEdit;
    if steps != [] {
      StepKeeps(h, s, steps[0]);
      FrozenStepKeeps(h, s, steps[0], id);
      NoNewEdit(h, s, steps[0], id);
      FrozenRunKeeps(h, Apply(h, s, steps[0]), steps[1..], id);
    }
  }

  /** The row is not locked, so nothing stops the stale edit. */
  lemma LateEdit(h: Digest, s: State, t: TxnId, id: RowId)
    requires Inv(h, s) && Left(s, id) && t in s.txns && EditsTo(s, s.txns[t], id)
    ensures IsRun(h, s, [WriteEdit(t)]) && !SameContent(s, After(h, s, [WriteEdit(t)]), id)
  {
    hide Inv, IsRun, After;
    InvGives(h, s);
    assert forall u | u in s.txns :: TxnOk(s, s.txns[u]);
    NoMoreSteps(h, s);
    OneMoreStep(h, s, [], WriteEdit(t));
    assert [] + [WriteEdit(t)] == [WriteEdit(t)];
  }

  /**
   * Metadata and artifact of a submission that is no longer CREATED are frozen, whatever runs next,
   * if and only if no edit that still saw it CREATED is waiting to write something else: an edit checks
   * the status when it reads and not when it writes.
   */
  lemma ContentFrozen(h: Digest, s: State, id: RowId)
    requires Reachable(h, s) && Left(s, id)
    ensures (forall steps | IsRun(h, s, steps) :: SameContent(s, After(h, s, steps), id)) <==> !StaleEdit(s, id)
  {
    hide Inv, IsRun, After, SameContent;
    ReachableIsInv(h, s);
    if StaleEdit(s, id) {
      var t :| t in s.txns && EditsTo(s, s.txns[t], id);
      LateEdit(h, s, t, id);
    } else {
      forall steps | IsRun(h, s, steps) ensures SameContent(s, After(h, s, steps), id) {
        FrozenRunKeeps(h, s, steps, id);
      }
    }
  }

  /** A challenge of an open hackathon, published. */
  lemma PublishedIsReachable(h: Digest, c: ChallengeId) returns (s: State)
    ensures Reachable(h, s) && s == INITIAL.(challenges := map[c := Published], open := {c})
  {
    hide IsRun, After, Reachable, Finds, InsertFree, Gate, NewRow, ReplayOrConflict;
    InitialIsReachable(h);
    ReachableStep(h, INITIAL, AddChallenge(c));
    var s1 := INITIAL.(challenges := map[c := Draft]);
    assert Apply(h, INITIAL, AddChallenge(c)) == s1;
    ReachableStep(h, s1, ReadForPublish(0, c));
    var s2 := s1.(txns := map[0 := Publishing(c)]);
    assert Apply(h, s1, ReadForPublish(0, c)) == s2;
    ReachableStep(h, s2, WritePublished(0));
    var s3 := INITIAL.(challenges := map[c := Published]);
    assert Apply(h, s2, WritePublished(0)) == s3;
    ReachableStep(h, s3, HackathonsChange({c}));
    s := s3.(open := {c});
  }

  /** The steps that follow one another from a reachable state lead to a reachable state. */
  lemma ReachableRun(h: Digest, s: State, steps: seq<Step>)
    requires Reachable(h, s) && IsRun(h, s, steps)
    ensures Reachable(h, After(h, s, steps))
  {
    hide IsRun, After;
    var first :| IsRun(h, INITIAL, first) && After(h, INITIAL, first) == s;
    RunThenRun(h, INITIAL, first, steps);
  }

  /** An edit reads the CREATED row, a submit moves it and commits, and the edit is still to write. */
  lemma EditThenMove(h: Digest, s: State, id: RowId, edit: Edit) returns (s': State)
    requires Reachable(h, s) && id in s.rows && s.rows[id].status == Created && id !in s.evaluations
    requires Fresh(s, 1) && Fresh(s, 2) && s.txns == map[]
    requires (edit.metadata.Some? && edit.metadata.value != s.rows[id].metadata)
             || (edit.artifact.Some? && edit.artifact != s.rows[id].artifact)
    ensures Reachable(h, s') && Left(s', id) && StaleEdit(s', id)
  {
    hide Reachable, Finds, InsertFree, Gate, NewRow, ReplayOrConflict;
    var actor := s.rows[id].participant;
    ReachableStep(h, s, ReadForEdit(1, actor, id, edit));
    var changes := Changes(s.rows[id], edit);
    var s1 := s.(txns := map[1 := Editing(id, changes)]);
    assert Apply(h, s, ReadForEdit(1, actor, id, edit)) == s1;
    ReachableStep(h, s1, Move(2, actor, id, Submitted));
    var s2 := s.(txns := map[1 := Editing(id, changes), 2 := Moving(id, Submitted)]);
    assert Apply(h, s1, Move(2, actor, id, Submitted)) == s2;
    ReachableStep(h, s2, CommitMove(2));
    s' := Apply(h, s2, CommitMove(2));
    assert s'.txns[1] == Editing(id, changes) && s'.rows[id] == s.rows[id].(status := Submitted);
    assert EditsTo(s', s'.txns[1], id);
  }

  /** That race is real too, for every edit that would change what was created. */
  lemma StaleEditIsReachable(h: Digest, id: RowId, req: CreateRequest, edit: Edit) returns (s: State)
    requires req.key.None?
    requires (edit.metadata.Some? && edit.metadata.value != req.metadata)
             || (edit.artifact.Some? && edit.artifact != req.artifact)
    ensures Reachable(h, s) && Left(s, id) && StaleEdit(s, id)
  {
    hide Reachable, IsRun, After, Gate, Edited, StaleEdit;
    var s0 := PublishedIsReachable(h, req.challenge);
    ReachableIsInv(h, s0);
    var steps := KeylessCreate(h, s0, 0, req, id);
    ReachableRun(h, s0, steps);
    var s1 := After(h, s0, steps);
    s := EditThenMove(h, s1, id, edit);
  }
}
