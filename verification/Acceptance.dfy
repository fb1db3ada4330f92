/**
 * Submission acceptance as interleaved transaction steps: creates with idempotency keys, submits,
 * cancels and edits of submissions, and the publishing and closing of challenges, under the row
 * locks and the unique index of the database. Uncommitted work lives in the transactions.
 */
module Acceptance {
  import opened Common

  type ChallengeId = nat
  type Participant = nat
  type RowId = nat
  type TxnId = nat
  type Key = string
  type Metadata = map<string, string>
  type Fingerprint = string
  type ArtifactKey = string

  /** The digest of a create request, of which nothing is assumed. */
  type Digest = (ChallengeId, Metadata) -> Fingerprint

  datatype ChallengeStatus = Draft | Published | Closed
  datatype Status = Created | Submitted | Cancelled | Failed

  datatype Row = Row(
    challenge: ChallengeId, participant: Participant, metadata: Metadata, artifact: Option<ArtifactKey>,
    key: Option<Key>, fingerprint: Option<Fingerprint>, status: Status)

  datatype CreateRequest = CreateRequest(
    participant: Participant, challenge: ChallengeId, metadata: Metadata, key: Option<Key>,
    artifact: Option<ArtifactKey>)

  /** The fields an update or an attach writes. */
  datatype Edit = Edit(metadata: Option<Metadata>, artifact: Option<ArtifactKey>)

  datatype Reply = Accepted(id: RowId) | Replayed(id: RowId) | KeyConflict | ClosedConflict | NotFound
  datatype Answer = Answer(req: CreateRequest, reply: Reply)

  datatype Txn =
    | Looked(req: CreateRequest)                // saw no row with its key; no lock
    | Admitted(req: CreateRequest)              // holds the challenge's shared lock
    | Inserted(req: CreateRequest, id: RowId)   // and has an uncommitted row
    | Collided(req: CreateRequest)              // the unique index refused the row; rolled back
    | Closing(challenge: ChallengeId)           // holds the challenge's exclusive lock
    | Publishing(challenge: ChallengeId)        // saw a draft; no lock
    | Moving(id: RowId, target: Status)         // holds the row's lock, its status not yet committed
    | Editing(id: RowId, edit: Edit)            // saw a CREATED row, what is to change; no lock

  datatype State = State(
    challenges: map<ChallengeId, ChallengeStatus>,
    open: set<ChallengeId>,                     // challenges of published hackathons
    rows: map<RowId, Row>,                      // committed submissions
    evaluations: multiset<RowId>,               // committed evaluations, by submission
    txns: map<TxnId, Txn>,
    answers: map<TxnId, Answer>)                // history: what finished creates replied

  const INITIAL := State(map[], {}, map[], multiset{}, map[], map[])

  datatype Step =
    | AddChallenge(challenge: ChallengeId)
    | HackathonsChange(open: set<ChallengeId>)
    | Lookup(txn: TxnId, req: CreateRequest, found: Option<RowId>)
    | Admit(txn: TxnId)
    | Insert(txn: TxnId, id: RowId, clash: Option<RowId>)
    | CommitCreate(txn: TxnId)
    | LookAgain(txn: TxnId, found: Option<RowId>)
    | LockForClose(txn: TxnId, challenge: ChallengeId)
    | CommitClose(txn: TxnId)
    | ReadForPublish(txn: TxnId, challenge: ChallengeId)
    | WritePublished(txn: TxnId)
    | Move(txn: TxnId, actor: Participant, id: RowId, target: Status)
    | CommitMove(txn: TxnId)
    | ReadForEdit(txn: TxnId, actor: Participant, id: RowId, edit: Edit)
    | WriteEdit(txn: TxnId)
    | Abandon(txn: TxnId)                       // rollback or crash

  predicate HasKey(row: Row, participant: Participant, key: Option<Key>) {
    key.Some? && row.key == key && row.participant == participant
  }

  /** What a SELECT by participant and key may return. */
  predicate Finds(s: State, req: CreateRequest, found: Option<RowId>) {
    if found.Some? then found.value in s.rows && HasKey(s.rows[found.value], req.participant, req.key)
    else forall id | id in s.rows :: !HasKey(s.rows[id], req.participant, req.key)
  }

  predicate SharesLock(x: Txn, challenge: ChallengeId) {
    (x.Admitted? || x.Inserted?) && x.req.challenge == challenge
  }

  predicate ClosesLock(x: Txn, challenge: ChallengeId) {
    x.Closing? && x.challenge == challenge
  }

  predicate NotClosing(s: State, challenge: ChallengeId) {
    forall t | t in s.txns :: !ClosesLock(s.txns[t], challenge)
  }

  predicate Unlocked(s: State, challenge: ChallengeId) {
    forall t | t in s.txns :: !ClosesLock(s.txns[t], challenge) && !SharesLock(s.txns[t], challenge)
  }

  predicate RowUnlocked(s: State, id: RowId) {
    forall t | t in s.txns :: !(s.txns[t].Moving? && s.txns[t].id == id)
  }

  /** An uncommitted row blocks inserting its key a second time, and has taken its id. */
  predicate InsertFree(s: State, req: CreateRequest, id: RowId) {
    && id !in s.rows
    && forall t | t in s.txns && s.txns[t].Inserted? ::
         s.txns[t].id != id && !SameKey(s.txns[t].req, req)
  }

  predicate SameKey(a: CreateRequest, b: CreateRequest) {
    a.key.Some? && a.key == b.key && a.participant == b.participant
  }

  predicate Fresh(s: State, txn: TxnId) {
    txn !in s.txns && txn !in s.answers
  }

  predicate Possible(s: State, step: Step) {
    match step
    case AddChallenge(c) => c !in s.challenges
    case HackathonsChange(open) => true
    case Lookup(t, req, found) => Fresh(s, t) && Finds(s, req, found)
    case Admit(t) => t in s.txns && s.txns[t].Looked? && NotClosing(s, s.txns[t].req.challenge)
    case Insert(t, id, clash) =>
      && t in s.txns && s.txns[t].Admitted?
      && Finds(s, s.txns[t].req, clash) && (clash.None? ==> InsertFree(s, s.txns[t].req, id))
    case CommitCreate(t) => t in s.txns && s.txns[t].Inserted?
    case LookAgain(t, found) => t in s.txns && s.txns[t].Collided? && Finds(s, s.txns[t].req, found)
    case LockForClose(t, c) => Fresh(s, t) && c in s.challenges && Unlocked(s, c)
    case CommitClose(t) => t in s.txns && s.txns[t].Closing?
    case ReadForPublish(t, c) => Fresh(s, t) && c in s.challenges
    case WritePublished(t) => t in s.txns && s.txns[t].Publishing? && Unlocked(s, s.txns[t].challenge)
    case Move(t, actor, id, target) =>
      Fresh(s, t) && id in s.rows && RowUnlocked(s, id) && (target == Submitted || target == Cancelled)
    case CommitMove(t) => t in s.txns && s.txns[t].Moving? && s.txns[t].id in s.rows
    case ReadForEdit(t, actor, id, edit) => Fresh(s, t) && id in s.rows
    case WriteEdit(t) => t in s.txns && s.txns[t].Editing? && s.txns[t].id in s.rows && RowUnlocked(s, s.txns[t].id)
    case Abandon(t) => t in s.txns
  }

  function Forget(s: State, txn: TxnId): State {
    s.(txns := map t | t in s.txns && t != txn :: s.txns[t])
  }

  function Become(s: State, txn: TxnId, x: Txn): State {
    s.(txns := s.txns[txn := x])
  }

  function Respond(s: State, txn: TxnId, req: CreateRequest, reply: Reply): State {
    Forget(s, txn).(answers := s.answers[txn := Answer(req, reply)])
  }

  /** The fingerprint a replay is compared with. */
  function Stored(h: Digest, row: Row): Fingerprint {
    if row.fingerprint.Some? then row.fingerprint.value else h(row.challenge, row.metadata)
  }

  function ReplayOrConflict(h: Digest, row: Row, id: RowId, req: CreateRequest): Reply {
    if Stored(h, row) != h(req.challenge, req.metadata) then KeyConflict else Replayed(id)
  }

  /** What an edit writes of a row it read: the fields whose new value is another. */
  function Changes(row: Row, edit: Edit): Edit {
    Edit(if edit.metadata == Some(row.metadata) then None else edit.metadata,
         if edit.artifact == row.artifact then None else edit.artifact)
  }

  function Edited(row: Row, edit: Edit): Row {
    row.(metadata := if edit.metadata.Some? then edit.metadata.value else row.metadata,
         artifact := if edit.artifact.Some? then edit.artifact else row.artifact)
  }

  function NewRow(h: Digest, req: CreateRequest): Row {
    Row(req.challenge, req.participant, req.metadata, req.artifact, req.key,
        if req.key.Some? then Some(h(req.challenge, req.metadata)) else None, Created)
  }

  /** Why the gate refuses a create, if it does: only a published challenge of a published hackathon takes one. */
  function Gate(s: State, challenge: ChallengeId): (refusal: Option<Reply>)
    ensures refusal == None <==> IsPublished(s, challenge) && challenge in s.open
    ensures refusal == Some(ClosedConflict) <==> challenge in s.challenges && s.challenges[challenge] == Closed
    ensures refusal == None || refusal == Some(ClosedConflict) || refusal == Some(NotFound)
  {
    if challenge !in s.challenges then Some(NotFound)
    else if s.challenges[challenge] == Closed then Some(ClosedConflict)
    else if challenge !in s.open || s.challenges[challenge] != Published then Some(NotFound)
    else None
  }

  function Apply(h: Digest, s: State, step: Step): State
    requires Possible(s, step)
  {
    match step
    case AddChallenge(c) => s.(challenges := s.challenges[c := Draft])
    case HackathonsChange(open) => s.(open := open)
    case Lookup(t, req, found) =>
      if found.Some? then Respond(s, t, req, ReplayOrConflict(h, s.rows[found.value], found.value, req))
      else Become(s, t, Looked(req))
    case Admit(t) =>
      var req := s.txns[t].req;
      var refusal := Gate(s, req.challenge);
      if refusal.Some? then Respond(s, t, req, refusal.value) else Become(s, t, Admitted(req))
    case Insert(t, id, clash) =>
      var req := s.txns[t].req;
      Become(s, t, if clash.Some? then Collided(req) else Inserted(req, id))
    case CommitCreate(t) =>
      var x := s.txns[t];
      Respond(s.(rows := s.rows[x.id := NewRow(h, x.req)]), t, x.req, Accepted(x.id))
    case LookAgain(t, found) =>
      var req := s.txns[t].req;
      if found.Some? then Respond(s, t, req, ReplayOrConflict(h, s.rows[found.value], found.value, req))
      else Forget(s, t) // the integrity error is raised
    case LockForClose(t, c) =>
      if s.challenges[c] == Published then Become(s, t, Closing(c)) else s
    case CommitClose(t) =>
      Forget(s.(challenges := s.challenges[s.txns[t].challenge := Closed]), t)
    case ReadForPublish(t, c) =>
      if s.challenges[c] == Draft then Become(s, t, Publishing(c)) else s
    case WritePublished(t) =>
      Forget(s.(challenges := s.challenges[s.txns[t].challenge := Published]), t)
    case Move(t, actor, id, target) =>
      if s.rows[id].participant == actor && s.rows[id].status == Created then Become(s, t, Moving(id, target)) else s
    case CommitMove(t) =>
      var id, target := s.txns[t].id, s.txns[t].target;
      // the unique index on evaluations refuses a second one, and the transaction rolls back
      if target == Submitted && id in s.evaluations then Forget(s, t)
      else
        Forget(s.(rows := s.rows[id := s.rows[id].(status := target)],
                  evaluations := if target == Submitted then s.evaluations + multiset{id} else s.evaluations), t)
    case ReadForEdit(t, actor, id, edit) =>
      if s.rows[id].participant == actor && s.rows[id].status == Created
      then Become(s, t, Editing(id, Changes(s.rows[id], edit)))
      else s
    case WriteEdit(t) =>
      var id := s.txns[t].id;
      Forget(s.(rows := s.rows[id := Edited(s.rows[id], s.txns[t].edit)]), t)
    case Abandon(t) => Forget(s, t)
  }

  predicate IsRun(h: Digest, s: State, steps: seq<Step>)
    decreases |steps|
  {
    steps == [] || (Possible(s, steps[0]) && IsRun(h, Apply(h, s, steps[0]), steps[1..]))
  }

  function After(h: Digest, s: State, steps: seq<Step>): State
    requires IsRun(h, s, steps)
    decreases |steps|
  {
    if steps == [] then s else After(h, Apply(h, s, steps[0]), steps[1..])
  }

  // ---------------------------------------------------------------- the invariant

  ghost predicate KeysUnique(s: State) {
    forall a, b | a in s.rows && b in s.rows && HasKey(s.rows[a], s.rows[b].participant, s.rows[b].key) :: a == b
  }

  ghost predicate FingerprintsKept(s: State) {
    forall a | a in s.rows :: s.rows[a].key.Some? <==> s.rows[a].fingerprint.Some?
  }

  /** A submission is SUBMITTED exactly when it has one evaluation, and otherwise it has none. */
  ghost predicate OneEvaluationEach(s: State) {
    forall id: RowId ::
      s.evaluations[id] == if id in s.rows && s.rows[id].status == Submitted then 1 else 0
  }

  ghost predicate IsPublished(s: State, c: ChallengeId) {
    c in s.challenges && s.challenges[c] == Published
  }

  ghost predicate TxnOk(s: State, x: Txn) {
    match x
    case Looked(req) => true
    case Admitted(req) => IsPublished(s, req.challenge)
    case Inserted(req, id) => IsPublished(s, req.challenge) && id !in s.rows && Finds(s, req, None)
    case Collided(req) => exists id :: Finds(s, req, Some(id))
    case Closing(c) => IsPublished(s, c)
    case Publishing(c) => c in s.challenges
    case Moving(id, target) =>
      id in s.rows && s.rows[id].status == Created && (target == Submitted || target == Cancelled)
    case Editing(id, edit) => id in s.rows
  }

  /** What two transactions may hold side by side. */
  ghost predicate Compatible(x: Txn, y: Txn) {
    && (x.Inserted? && y.Inserted? ==> x.id != y.id && !SameKey(x.req, y.req))
    && (x.Closing? ==> !ClosesLock(y, x.challenge) && !SharesLock(y, x.challenge))
    && (x.Moving? && y.Moving? ==> x.id != y.id)
  }

  ghost predicate TxnsOk(s: State) {
    && (forall t | t in s.txns :: TxnOk(s, s.txns[t]) && t !in s.answers)
    && (forall t, u | t in s.txns && u in s.txns && t != u :: Compatible(s.txns[t], s.txns[u]))
  }

  ghost predicate AnswerOk(h: Digest, s: State, a: Answer) {
    var digest := h(a.req.challenge, a.req.metadata);
    match a.reply
    case Accepted(id) =>
      && id in s.rows && s.rows[id].challenge == a.req.challenge && s.rows[id].participant == a.req.participant
      && s.rows[id].key == a.req.key && (a.req.key.Some? ==> s.rows[id].fingerprint == Some(digest))
    case Replayed(id) => Finds(s, a.req, Some(id)) && s.rows[id].fingerprint == Some(digest)
    case KeyConflict => exists id :: Finds(s, a.req, Some(id)) && s.rows[id].fingerprint != Some(digest)
    case _ => true
  }

  ghost predicate AnswersOk(h: Digest, s: State) {
    forall t | t in s.answers :: AnswerOk(h, s, s.answers[t])
  }

  ghost predicate AcceptedOnce(s: State) {
    forall t, u | t in s.answers && u in s.answers && t != u && s.answers[t].reply.Accepted? ::
      s.answers[u].reply != s.answers[t].reply
  }

  ghost predicate Inv(h: Digest, s: State) {
    && KeysUnique(s) && FingerprintsKept(s) && OneEvaluationEach(s) && TxnsOk(s)
    && AnswersOk(h, s) && AcceptedOnce(s)
  }

  // ---------------------------------------------------------------- what every step keeps

  /** Committed rows stay, keep their identity, and leave CREATED at most once; replies stay. */
  ghost predicate Evolves(s: State, s': State) {
    && (forall id | id in s.rows :: id in s'.rows && RowEvolves(s.rows[id], s'.rows[id]))
    && (forall t | t in s.answers :: t in s'.answers && s'.answers[t] == s.answers[t])
    && s.challenges.Keys <= s'.challenges.Keys
  }

  predicate RowEvolves(a: Row, b: Row) {
    && b.challenge == a.challenge && b.participant == a.participant && b.key == a.key && b.fingerprint == a.fingerprint
    && (b.status == a.status || (a.status == Created && (b.status == Submitted || b.status == Cancelled)))
  }

  /** Answers that were right stay right while the rows evolve. */
  lemma AnswersStayOk(h: Digest, s: State, s': State)
    requires AnswersOk(h, s) && Evolves(s, s')
    ensures forall t | t in s.answers :: AnswerOk(h, s', s'.answers[t])
  {
    forall t | t in s.answers ensures AnswerOk(h, s', s'.answers[t]) {
      var a := s.answers[t];
      assert AnswerOk(h, s, a);
      if a.reply.KeyConflict? {
        var digest := h(a.req.challenge, a.req.metadata);
        var id :| Finds(s, a.req, Some(id)) && s.rows[id].fingerprint != Some(digest);
        assert Finds(s', a.req, Some(id)) && s'.rows[id].fingerprint != Some(digest);
      }
    }
  }

  /** A replay is compared with the fingerprint that was stored, which every keyed row has. */
  lemma ReplyIsOk(h: Digest, s: State, req: CreateRequest, found: RowId)
    requires FingerprintsKept(s) && Finds(s, req, Some(found))
    ensures AnswerOk(h, s, Answer(req, ReplayOrConflict(h, s.rows[found], found, req)))
  {
    var row := s.rows[found];
    var digest := h(req.challenge, req.metadata);
    assert row.fingerprint.Some?;
    if Stored(h, row) != digest {
      assert Finds(s, req, Some(found)) && row.fingerprint != Some(digest);
    }
  }

  // Each change to the state, on its own, keeps the invariant.

  lemma ForgetKeeps(h: Digest, s: State, t: TxnId)
    requires Inv(h, s)
    ensures Inv(h, Forget(s, t)) && Evolves(s, Forget(s, t))
  {
    hide KeysUnique, FingerprintsKept, OneEvaluationEach, AcceptedOnce, Compatible;
    var s' := Forget(s, t);
    SameRows(h, s, s');
  }

  /** Nothing but the transactions and the challenges differs. */
  lemma SameRows(h: Digest, s: State, s': State)
    requires Inv(h, s) && s'.rows == s.rows && s'.evaluations == s.evaluations && s'.answers == s.answers
    ensures KeysUnique(s') && FingerprintsKept(s') && OneEvaluationEach(s') && AnswersOk(h, s') && AcceptedOnce(s')
  {
    hide TxnsOk, Compatible;
    forall t | t in s'.answers ensures AnswerOk(h, s', s'.answers[t]) {
      assert AnswerOk(h, s, s.answers[t]);
      AnswerFrame(h, s, s', s.answers[t]);
    }
  }

  lemma AnswerFrame(h: Digest, s: State, s': State, a: Answer)
    requires s'.rows == s.rows && AnswerOk(h, s, a)
    ensures AnswerOk(h, s', a)
  {
    var digest := h(a.req.challenge, a.req.metadata);
    if a.reply.KeyConflict? {
      var id :| Finds(s, a.req, Some(id)) && s.rows[id].fingerprint != Some(digest);
      assert Finds(s', a.req, Some(id)) && s'.rows[id].fingerprint != Some(digest);
    }
  }

  lemma TxnFrame(s: State, s': State, x: Txn)
    requires s'.rows == s.rows && s'.challenges == s.challenges && TxnOk(s, x)
    ensures TxnOk(s', x)
  {
    if x.Collided? {
      var id :| Finds(s, x.req, Some(id));
      assert Finds(s', x.req, Some(id));
    }
  }

  /** A transaction may begin or move on when what it now holds suits the others. */
  lemma BecomeKeeps(h: Digest, s: State, t: TxnId, x: Txn)
    requires Inv(h, s) && TxnOk(s, x) && t !in s.answers
    requires forall u | u in s.txns && u != t :: Compatible(x, s.txns[u]) && Compatible(s.txns[u], x)
    ensures Inv(h, Become(s, t, x)) && Evolves(s, Become(s, t, x))
  {
    hide KeysUnique, FingerprintsKept, OneEvaluationEach, AcceptedOnce, AnswersOk, AnswerOk, Compatible, TxnOk;
    var s' := Become(s, t, x);
    SameRows(h, s, s');
    forall u | u in s'.txns ensures TxnOk(s', s'.txns[u]) {
      TxnFrame(s, s', s'.txns[u]);
    }
  }

  lemma RespondKeeps(h: Digest, s: State, t: TxnId, req: CreateRequest, reply: Reply)
    requires Inv(h, s) && t !in s.answers && AnswerOk(h, s, Answer(req, reply))
    requires reply.Accepted? ==> forall u | u in s.answers :: s.answers[u].reply != reply
    ensures Inv(h, Respond(s, t, req, reply)) && Evolves(s, Respond(s, t, req, reply))
  {
    hide KeysUnique, FingerprintsKept, OneEvaluationEach, AnswerOk, Compatible, TxnOk;
    ForgetKeeps(h, s, t);
    var s0, s' := Forget(s, t), Respond(s, t, req, reply);
    SameRows(h, s, s0);
    forall u | u in s'.answers ensures AnswerOk(h, s', s'.answers[u]) {
      AnswerFrame(h, s, s', s'.answers[u]);
    }
    forall u | u in s'.txns ensures TxnOk(s', s'.txns[u]) {
      TxnFrame(s0, s', s'.txns[u]);
    }
    SameRowFacts(s0, s');
  }

  lemma SameRowFacts(s: State, s': State)
    requires s'.rows == s.rows && s'.evaluations == s.evaluations
    requires KeysUnique(s) && FingerprintsKept(s) && OneEvaluationEach(s)
    ensures KeysUnique(s') && FingerprintsKept(s') && OneEvaluationEach(s')
  {
  }

  /** A transaction that neither holds an uncommitted row nor moves one is indifferent to rows that evolve. */
  lemma TxnEvolves(s: State, s': State, x: Txn)
    requires TxnOk(s, x) && Evolves(s, s') && s'.challenges == s.challenges
    requires x.Inserted? ==> x.id !in s'.rows && Finds(s', x.req, None)
    requires x.Moving? ==> s'.rows[x.id].status == Created
    ensures TxnOk(s', x)
  {
    if x.Collided? {
      var id :| Finds(s, x.req, Some(id));
      assert Finds(s', x.req, Some(id));
    }
  }

  lemma NewRowIsUnique(h: Digest, s: State, req: CreateRequest, id: RowId)
    requires id !in s.rows && Finds(s, req, None)
    requires KeysUnique(s) && FingerprintsKept(s) && OneEvaluationEach(s)
    ensures var s' := s.(rows := s.rows[id := NewRow(h, req)]);
            KeysUnique(s') && FingerprintsKept(s') && OneEvaluationEach(s')
  {
  }

  lemma NewRowEvolves(h: Digest, s: State, req: CreateRequest, id: RowId)
    requires id !in s.rows
    ensures Evolves(s, s.(rows := s.rows[id := NewRow(h, req)]))
  {
  }

  /** A new row whose key no other row has. */
  lemma NewRowKeeps(h: Digest, s: State, req: CreateRequest, id: RowId)
    requires Inv(h, s) && id !in s.rows && Finds(s, req, None)
    requires forall u | u in s.txns && s.txns[u].Inserted? :: s.txns[u].id != id && !SameKey(s.txns[u].req, req)
    ensures var s' := s.(rows := s.rows[id := NewRow(h, req)]); Inv(h, s') && Evolves(s, s')
  {
    hide Compatible, KeysUnique, FingerprintsKept, OneEvaluationEach, AnswerOk, TxnOk, Evolves, AcceptedOnce;
    var s' := s.(rows := s.rows[id := NewRow(h, req)]);
    NewRowIsUnique(h, s, req, id);
    NewRowEvolves(h, s, req, id);
    AnswersStayOk(h, s, s');
    SameAnswers(s, s');
    forall u | u in s'.txns ensures TxnOk(s', s'.txns[u]) {
      HeldRow(s, s.txns[u]);
      TxnEvolves(s, s', s.txns[u]);
    }
  }

  /** What a transaction that is in order knows of the rows. */
  lemma HeldRow(s: State, x: Txn)
    requires TxnOk(s, x)
    ensures x.Inserted? ==> x.id !in s.rows && Finds(s, x.req, None)
    ensures x.Moving? ==> x.id in s.rows && s.rows[x.id].status == Created
  {
  }

  lemma SameAnswers(s: State, s': State)
    requires AcceptedOnce(s) && s'.answers == s.answers
    ensures AcceptedOnce(s')
  {
  }

  /** Either the row is judged now, or its being SUBMITTED is no news. */
  predicate Judges(s: State, id: RowId, row: Row, judged: multiset<RowId>)
    requires id in s.rows
  {
    judged == if row.status == Submitted && s.rows[id].status != Submitted then s.evaluations + multiset{id}
              else s.evaluations
  }

  lemma ChangedRowIsUnique(s: State, id: RowId, row: Row, judged: multiset<RowId>)
    requires id in s.rows && RowEvolves(s.rows[id], row) && Judges(s, id, row, judged)
    requires KeysUnique(s) && FingerprintsKept(s) && OneEvaluationEach(s)
    ensures var s' := s.(rows := s.rows[id := row], evaluations := judged);
            KeysUnique(s') && FingerprintsKept(s') && OneEvaluationEach(s')
  {
  }

  lemma ChangedRowEvolves(s: State, id: RowId, row: Row, judged: multiset<RowId>)
    requires id in s.rows && RowEvolves(s.rows[id], row)
    ensures Evolves(s, s.(rows := s.rows[id := row], evaluations := judged))
  {
  }

  /** A change to a row that keeps its identity, and that no transaction is about to move. */
  lemma ChangedRowKeeps(h: Digest, s: State, id: RowId, row: Row, judged: multiset<RowId>)
    requires Inv(h, s) && id in s.rows && RowEvolves(s.rows[id], row) && RowUnlocked(s, id)
             && Judges(s, id, row, judged)
    ensures var s' := s.(rows := s.rows[id := row], evaluations := judged); Inv(h, s') && Evolves(s, s')
  {
    hide Compatible, KeysUnique, FingerprintsKept, OneEvaluationEach, AnswerOk, TxnOk, Evolves, AcceptedOnce, Judges;
    var s' := s.(rows := s.rows[id := row], evaluations := judged);
    ChangedRowIsUnique(s, id, row, judged);
    ChangedRowEvolves(s, id, row, judged);
    AnswersStayOk(h, s, s');
    SameAnswers(s, s');
    forall u | u in s'.txns ensures TxnOk(s', s'.txns[u]) {
      HeldRow(s, s.txns[u]);
      TxnEvolves(s, s', s.txns[u]);
    }
  }

  /** A challenge may close, and may be published again, whenever no one holds its lock. */
  lemma ChallengeKeeps(h: Digest, s: State, c: ChallengeId, status: ChallengeStatus)
    requires Inv(h, s) && Unlocked(s, c)
    ensures var s' := s.(challenges := s.challenges[c := status]); Inv(h, s') && Evolves(s, s')
  {
    hide Compatible, KeysUnique, FingerprintsKept, OneEvaluationEach, AcceptedOnce, AnswersOk, AnswerOk;
    var s' := s.(challenges := s.challenges[c := status]);
    SameRows(h, s, s');
    forall u | u in s'.txns ensures TxnOk(s', s'.txns[u]) {
      var x := s.txns[u];
      assert TxnOk(s, x);
      if x.Collided? {
        var found :| Finds(s, x.req, Some(found));
        assert Finds(s', x.req, Some(found));
      }
    }
  }

  // Each step keeps it.

  lemma LookupKeeps(h: Digest, s: State, t: TxnId, req: CreateRequest, found: Option<RowId>)
    requires Inv(h, s) && t !in s.answers && Finds(s, req, found)
    ensures found.Some? ==>
              var s' := Respond(s, t, req, ReplayOrConflict(h, s.rows[found.value], found.value, req));
              Inv(h, s') && Evolves(s, s')
  {
    hide Inv, Evolves, AnswerOk;
    if found.Some? {
      InvGives(h, s);
      ReplyIsOk(h, s, req, found.value);
      RespondKeeps(h, s, t, req, ReplayOrConflict(h, s.rows[found.value], found.value, req));
    }
  }

  lemma InvGives(h: Digest, s: State)
    requires Inv(h, s)
    ensures FingerprintsKept(s)
    ensures forall t | t in s.txns :: TxnOk(s, s.txns[t]) && t !in s.answers
    ensures forall t, u | t in s.txns && u in s.txns && t != u :: Compatible(s.txns[t], s.txns[u])
  {
  }

  lemma AdmitKeeps(h: Digest, s: State, t: TxnId)
    requires Inv(h, s) && Possible(s, Admit(t))
    ensures var s' := Apply(h, s, Admit(t)); Inv(h, s') && Evolves(s, s')
  {
    hide Inv, Evolves;
    InvGives(h, s);
    var req := s.txns[t].req;
    var refusal := Gate(s, req.challenge);
    if refusal.Some? {
      RespondKeeps(h, s, t, req, refusal.value);
    } else {
      BecomeKeeps(h, s, t, Admitted(req));
    }
  }

  lemma InsertKeeps(h: Digest, s: State, t: TxnId, id: RowId, clash: Option<RowId>)
    requires Inv(h, s) && Possible(s, Insert(t, id, clash))
    ensures var s' := Apply(h, s, Insert(t, id, clash)); Inv(h, s') && Evolves(s, s')
  {
    hide Inv, Evolves, KeysUnique, HasKey;
    InvGives(h, s);
    var req := s.txns[t].req;
    assert TxnOk(s, s.txns[t]);
    if clash.Some? {
      assert Finds(s, req, Some(clash.value));
      BecomeKeeps(h, s, t, Collided(req));
    } else {
      forall u | u in s.txns && u != t
        ensures Compatible(Inserted(req, id), s.txns[u]) && Compatible(s.txns[u], Inserted(req, id))
      {
        assert Compatible(s.txns[u], s.txns[t]);
      }
      BecomeKeeps(h, s, t, Inserted(req, id));
    }
  }

  /** The uncommitted row is not there yet, no other transaction holds one like it, and no reply names it. */
  lemma AboutToCommit(h: Digest, s: State, t: TxnId)
    requires Inv(h, s) && t in s.txns && s.txns[t].Inserted?
    ensures var x := s.txns[t]; x.id !in s.rows && Finds(s, x.req, None) && IsPublished(s, x.req.challenge)
    ensures var x := s.txns[t]; forall u | u in s.txns && u != t && s.txns[u].Inserted? ::
              s.txns[u].id != x.id && !SameKey(s.txns[u].req, x.req)
    ensures forall u | u in s.answers :: s.answers[u].reply != Accepted(s.txns[t].id)
  {
    hide KeysUnique, FingerprintsKept, OneEvaluationEach, AcceptedOnce, HasKey, Finds;
    InvGives(h, s);
    assert TxnOk(s, s.txns[t]);
    forall u | u in s.txns && u != t && s.txns[u].Inserted?
      ensures s.txns[u].id != s.txns[t].id && !SameKey(s.txns[u].req, s.txns[t].req)
    {
      assert Compatible(s.txns[u], s.txns[t]);
    }
    forall u | u in s.answers ensures s.answers[u].reply != Accepted(s.txns[t].id) {
      assert AnswerOk(h, s, s.answers[u]);
    }
  }

  lemma CommitCreateKeeps(h: Digest, s: State, t: TxnId)
    requires Inv(h, s) && Possible(s, CommitCreate(t))
    ensures var s' := Apply(h, s, CommitCreate(t)); Inv(h, s') && Evolves(s, s')
  {
    hide Inv, Evolves, HasKey, Finds, SameKey;
    var x, s0 := s.txns[t], Forget(s, t);
    InvGives(h, s);
    AboutToCommit(h, s, t);
    ForgetKeeps(h, s, t);
    FindsFrame(s, s0, x.req);
    NewRowKeeps(h, s0, x.req, x.id);
    var s1 := s0.(rows := s0.rows[x.id := NewRow(h, x.req)]);
    RespondKeeps(h, s1, t, x.req, Accepted(x.id));
    assert Forget(s1, t) == s1;
    var s' := Apply(h, s, CommitCreate(t));
    assert s' == Respond(s1, t, x.req, Accepted(x.id));
    EvolvesOn(s, s0, s1);
    EvolvesOn(s, s1, s');
  }

  lemma FindsFrame(s: State, s': State, req: CreateRequest)
    requires s'.rows == s.rows && Finds(s, req, None)
    ensures Finds(s', req, None)
  {
  }

  lemma CloseAndPublishKeep(h: Digest, s: State, step: Step)
    requires Inv(h, s) && Possible(s, step)
    requires step.AddChallenge? || step.LockForClose? || step.CommitClose? || step.ReadForPublish?
             || step.WritePublished?
    ensures var s' := Apply(h, s, step); Inv(h, s') && Evolves(s, s')
  {
    hide Inv, Evolves, HasKey, Finds;
    InvGives(h, s);
    match step
    case AddChallenge(c) =>
      forall u | u in s.txns ensures !ClosesLock(s.txns[u], c) && !SharesLock(s.txns[u], c) {
        assert TxnOk(s, s.txns[u]);
      }
      ChallengeKeeps(h, s, c, Draft);
    case LockForClose(t, c) =>
      if s.challenges[c] == Published { BecomeKeeps(h, s, t, Closing(c)); } else { Stutters(s); }
    case ReadForPublish(t, c) =>
      if s.challenges[c] == Draft { BecomeKeeps(h, s, t, Publishing(c)); } else { Stutters(s); }
    case CommitClose(t) =>
      var c := s.txns[t].challenge;
      ForgetKeeps(h, s, t);
      forall u | u in Forget(s, t).txns ensures !ClosesLock(s.txns[u], c) && !SharesLock(s.txns[u], c) {
        assert Compatible(s.txns[t], s.txns[u]);
      }
      ChallengeKeeps(h, Forget(s, t), c, Closed);
      EvolvesOn(s, Forget(s, t), Apply(h, s, step));
    case WritePublished(t) =>
      ForgetKeeps(h, s, t);
      ChallengeKeeps(h, Forget(s, t), s.txns[t].challenge, Published);
      EvolvesOn(s, Forget(s, t), Apply(h, s, step));
  }

  lemma Stutters(s: State)
    ensures Evolves(s, s)
  {
  }

  lemma EvolvesOn(a: State, b: State, c: State)
    requires Evolves(a, b) && Evolves(b, c)
    ensures Evolves(a, c)
  {
  }

  lemma MovesAndEditsKeep(h: Digest, s: State, step: Step)
    requires Inv(h, s) && Possible(s, step)
    requires step.Move? || step.CommitMove? || step.ReadForEdit? || step.WriteEdit?
    ensures var s' := Apply(h, s, step); Inv(h, s') && Evolves(s, s')
  {
    hide Inv, Evolves, HasKey, Finds;
    InvGives(h, s);
    match step
    case Move(t, actor, id, target) =>
      if s.rows[id].participant == actor && s.rows[id].status == Created { BecomeKeeps(h, s, t, Moving(id, target)); }
      else { Stutters(s); }
    case ReadForEdit(t, actor, id, edit) =>
      if s.rows[id].participant == actor && s.rows[id].status == Created {
        BecomeKeeps(h, s, t, Editing(id, Changes(s.rows[id], edit)));
      }
      else { Stutters(s); }
    case CommitMove(t) =>
      var x, s0 := s.txns[t], Forget(s, t);
      ForgetKeeps(h, s, t);
      assert TxnOk(s, x);
      forall u | u in s0.txns ensures !(s0.txns[u].Moving? && s0.txns[u].id == x.id) {
        assert Compatible(s.txns[u], x);
      }
      if !(x.target == Submitted && x.id in s.evaluations) {
        var judged := if x.target == Submitted then s.evaluations + multiset{x.id} else s.evaluations;
        ChangedRowKeeps(h, s0, x.id, s.rows[x.id].(status := x.target), judged);
        EvolvesOn(s, s0, Apply(h, s, step));
      }
    case WriteEdit(t) =>
      var x, s0 := s.txns[t], Forget(s, t);
      ForgetKeeps(h, s, t);
      ChangedRowKeeps(h, s0, x.id, Edited(s.rows[x.id], x.edit), s.evaluations);
      assert Apply(h, s, step) == s0.(rows := s0.rows[x.id := Edited(s.rows[x.id], x.edit)],
        evaluations := s.evaluations);
      EvolvesOn(s, s0, Apply(h, s, step));
  }

  lemma HackathonsKeep(h: Digest, s: State, open: set<ChallengeId>)
    requires Inv(h, s)
    ensures Inv(h, s.(open := open)) && Evolves(s, s.(open := open))
  {
    hide Compatible, TxnOk, KeysUnique, FingerprintsKept, OneEvaluationEach, AcceptedOnce, AnswersOk, AnswerOk;
    var s' := s.(open := open);
    SameRows(h, s, s');
    forall u | u in s'.txns ensures TxnOk(s', s'.txns[u]) {
      TxnFrame(s, s', s.txns[u]);
    }
  }

  lemma StepKeeps(h: Digest, s: State, step: Step)
    requires Inv(h, s) && Possible(s, step)
    ensures Inv(h, Apply(h, s, step)) && Evolves(s, Apply(h, s, step))
  {
    hide Inv, Evolves, TxnOk, Compatible, Finds, Gate, ReplayOrConflict;
    InvGives(h, s);
    match step
    case HackathonsChange(open) => HackathonsKeep(h, s, open);
    case Lookup(t, req, found) =>
      if found.Some? { LookupKeeps(h, s, t, req, found); } else { LookedKeeps(h, s, t, req); }
    case Admit(t) => AdmitKeeps(h, s, t);
    case Insert(t, id, clash) => InsertKeeps(h, s, t, id, clash);
    case CommitCreate(t) => CommitCreateKeeps(h, s, t);
    case LookAgain(t, found) =>
      if found.Some? { LookupKeeps(h, s, t, s.txns[t].req, found); } else { ForgetKeeps(h, s, t); }
    case Abandon(t) => ForgetKeeps(h, s, t);
    case AddChallenge(_) => CloseAndPublishKeep(h, s, step);
    case LockForClose(_, _) => CloseAndPublishKeep(h, s, step);
    case CommitClose(_) => CloseAndPublishKeep(h, s, step);
    case ReadForPublish(_, _) => CloseAndPublishKeep(h, s, step);
    case WritePublished(_) => CloseAndPublishKeep(h, s, step);
    case Move(_, _, _, _) => MovesAndEditsKeep(h, s, step);
    case CommitMove(_) => MovesAndEditsKeep(h, s, step);
    case ReadForEdit(_, _, _, _) => MovesAndEditsKeep(h, s, step);
    case WriteEdit(_) => MovesAndEditsKeep(h, s, step);
  }

  lemma LookedKeeps(h: Digest, s: State, t: TxnId, req: CreateRequest)
    requires Inv(h, s) && t !in s.answers && t !in s.txns
    ensures var s' := Become(s, t, Looked(req)); Inv(h, s') && Evolves(s, s')
  {
    hide Inv, Evolves;
    BecomeKeeps(h, s, t, Looked(req));
  }

  // ---------------------------------------------------------------- what holds of every run

  lemma {:induction false} RunKeeps(h: Digest, s: State, steps: seq<Step>)
    requires Inv(h, s) && IsRun(h, s, steps)
    ensures Inv(h, After(h, s, steps)) && Evolves(s, After(h, s, steps))
    decreases |steps|
  {
    hide Inv, Evolves, Possible, Apply;
    if steps == [] {
      Stutters(s);
    } else {
      StepKeeps(h, s, steps[0]);
      var s1 := Apply(h, s, steps[0]);
      RunKeeps(h, s1, steps[1..]);
      EvolvesOn(s, s1, After(h, s, steps));
    }
  }

  lemma InitialIsInv(h: Digest)
    ensures Inv(h, INITIAL)
  {
  }

  /** A state that some run reaches. */
  ghost predicate Reachable(h: Digest, s: State) {
    exists steps :: IsRun(h, INITIAL, steps) && After(h, INITIAL, steps) == s
  }

  lemma ReachableIsInv(h: Digest, s: State)
    requires Reachable(h, s)
    ensures Inv(h, s)
  {
    hide Inv, IsRun, After;
    InitialIsInv(h);
    var steps :| IsRun(h, INITIAL, steps) && After(h, INITIAL, steps) == s;
    RunKeeps(h, INITIAL, steps);
  }

  /** The row a create was answered with. */
  predicate Returned(a: Answer, id: RowId) {
    a.reply == Accepted(id) || a.reply == Replayed(id)
  }
}
