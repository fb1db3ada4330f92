/**
 * The blob-first artifact protocol as interleaved steps: requests that upload, commit, compensate
 * and replace; reconcilers that snapshot, scan and delete; crashes; and a clock.
 */
module ArtifactProtocol {
  import opened Common

  type Key = nat
  type RowId = nat
  type RequestId = nat
  type ScanId = nat

  /** Where a create, update or attach request stands. */
  datatype Request =
    | Begun(row: RowId, previous: Option<Key>)
    | Uploaded(row: RowId, previous: Option<Key>, key: Key)
    | Committed(replaced: Option<Key>)   // the replaced blob is still to be dropped
    | Failed(orphan: Key)                // its commit raised, the uploaded blob is still to be deleted

  /** Where one reconciliation pass stands. */
  datatype Scan = Scan(refs: set<Key>, snapAt: real, clockAt: Option<real>, listed: set<Key>, doomed: set<Key>)

  datatype State = State(
    clock: real,
    rows: map<RowId, Option<Key>>,       // committed artifact keys
    blobs: map<Key, real>,               // stored blobs with their modification times
    requests: map<RequestId, Request>,
    scans: map<ScanId, Scan>,
    putAt: map<Key, real>,               // history: modification time of every key ever put
    commitAt: map<Key, real>,            // history: when a key was committed
    home: map<Key, RowId>,               // history: to which row it was committed
    lost: set<Key>)                      // history: keys that were committed while their request was told otherwise

  /**
   * `commitDelay` bounds commit time minus modification time, `snapshotDelay` bounds the
   * reconciler's clock minus the time of its reference snapshot, `grace` is its grace window.
   */
  datatype Timing = Timing(commitDelay: real, snapshotDelay: real, grace: real)

  datatype Step =
    | Tick(elapsed: real)
    | Begin(req: RequestId, row: RowId)
    | Upload(req: RequestId, key: Key, mtime: real)
    | Commit(req: RequestId)
    | CommitFails(req: RequestId)
    | CommitLost(req: RequestId)         // committed, but the acknowledgement is lost
    | Compensate(req: RequestId, works: bool)
    | DropReplaced(req: RequestId, works: bool)
    | Crash(req: RequestId)
    | Snapshot(scan: ScanId)
    | ReadClock(scan: ScanId)
    | ListKey(scan: ScanId, key: Key)
    | Examine(scan: ScanId, key: Key)
    | DeleteDoomed(scan: ScanId, key: Key, works: bool)
    | EndScan(scan: ScanId)

  const INITIAL := State(0.0, map[], map[], map[], map[], map[], map[], map[], {})

  function Referenced(s: State): set<Key> {
    set row | row in s.rows && s.rows[row].Some? :: s.rows[row].value
  }

  predicate Possible(s: State, step: Step) {
    match step
    case Tick(elapsed) => elapsed >= 0.0
    case Begin(req, row) => req !in s.requests
    case Upload(req, key, mtime) =>
      req in s.requests && s.requests[req].Begun? && key !in s.putAt && mtime <= s.clock
    case Commit(req) => req in s.requests && s.requests[req].Uploaded?
    case CommitFails(req) => req in s.requests && s.requests[req].Uploaded?
    case CommitLost(req) => req in s.requests && s.requests[req].Uploaded?
    case Compensate(req, works) => req in s.requests && s.requests[req].Failed?
    case DropReplaced(req, works) => req in s.requests && s.requests[req].Committed?
    case Crash(req) => req in s.requests
    case Snapshot(scan) => scan !in s.scans
    case ReadClock(scan) => scan in s.scans && s.scans[scan].clockAt.None?
    case ListKey(scan, key) => scan in s.scans && s.scans[scan].clockAt.Some? && key in s.blobs
    case Examine(scan, key) => scan in s.scans && s.scans[scan].clockAt.Some? && key in s.scans[scan].listed
    case DeleteDoomed(scan, key, works) => scan in s.scans && key in s.scans[scan].doomed
    case EndScan(scan) => scan in s.scans
  }

  predicate CommitsInTime(t: Timing, s: State, key: Key) {
    key in s.putAt && s.clock - s.putAt[key] <= t.commitDelay
  }

  /** The two timing assumptions; every other step may happen at any time. */
  predicate Timely(t: Timing, s: State, step: Step)
    requires Possible(s, step)
  {
    match step
    case Commit(req) => CommitsInTime(t, s, s.requests[req].key)
    case CommitLost(req) => CommitsInTime(t, s, s.requests[req].key)
    case ReadClock(scan) => s.clock - s.scans[scan].snapAt <= t.snapshotDelay
    case _ => true
  }

  function Delete(s: State, key: Key, works: bool): State {
    if works then s.(blobs := Without(s.blobs, key)) else s
  }

  /** The row refers to the key from now on. */
  function TakeHold(s: State, row: RowId, key: Key): State {
    s.(rows := s.rows[row := Some(key)], commitAt := s.commitAt[key := s.clock], home := s.home[key := row])
  }

  function Apply(t: Timing, s: State, step: Step): State
    requires Possible(s, step)
  {
    match step
    case Tick(elapsed) => s.(clock := s.clock + elapsed)
    case Begin(req, row) =>
      s.(requests := s.requests[req := Begun(row, if row in s.rows then s.rows[row] else None)])
    case Upload(req, key, mtime) =>
      var r := s.requests[req];
      s.(blobs := s.blobs[key := mtime], putAt := s.putAt[key := mtime],
         requests := s.requests[req := Uploaded(r.row, r.previous, key)])
    case Commit(req) =>
      var r := s.requests[req];
      TakeHold(s, r.row, r.key).(requests := s.requests[req := Committed(r.previous)])
    case CommitLost(req) =>
      var r := s.requests[req];
      TakeHold(s, r.row, r.key).(requests := s.requests[req := Failed(r.key)], lost := s.lost + {r.key})
    case CommitFails(req) => s.(requests := s.requests[req := Failed(s.requests[req].key)])
    case Compensate(req, works) =>
      Delete(s, s.requests[req].orphan, works).(requests := Without(s.requests, req))
    case DropReplaced(req, works) =>
      var replaced := s.requests[req].replaced;
      (if replaced.Some? then Delete(s, replaced.value, works) else s).(requests := Without(s.requests, req))
    case Crash(req) => s.(requests := Without(s.requests, req))
    case Snapshot(scan) => s.(scans := s.scans[scan := Scan(Referenced(s), s.clock, None, {}, {})])
    case ReadClock(scan) => s.(scans := s.scans[scan := s.scans[scan].(clockAt := Some(s.clock))])
    case ListKey(scan, key) =>
      s.(scans := s.scans[scan := s.scans[scan].(listed := s.scans[scan].listed + {key})])
    case Examine(scan, key) =>
      var x := s.scans[scan];
      var rest := x.(listed := x.listed - {key});
      var spared := key in x.refs || (key in s.blobs && x.clockAt.value - s.blobs[key] < t.grace);
      s.(scans := s.scans[scan := if spared then rest else rest.(doomed := x.doomed + {key})])
    case DeleteDoomed(scan, key, works) =>
      var x := s.scans[scan];
      Delete(s, key, works).(scans := s.scans[scan := x.(doomed := x.doomed - {key})])
    case EndScan(scan) => s.(scans := Without(s.scans, scan))
  }

  predicate IsRun(t: Timing, s: State, steps: seq<Step>)
    decreases |steps|
  {
    steps == [] ||
    (Possible(s, steps[0]) && Timely(t, s, steps[0]) && IsRun(t, Apply(t, s, steps[0]), steps[1..]))
  }

  function After(t: Timing, s: State, steps: seq<Step>): State
    requires IsRun(t, s, steps)
    decreases |steps|
  {
    if steps == [] then s else After(t, Apply(t, s, steps[0]), steps[1..])
  }

  /** Every committed artifact key has its blob. */
  predicate NoDanglingKey(s: State) {
    forall row | row in s.rows && s.rows[row].Some? :: s.rows[row].value in s.blobs
  }

  // ---------------------------------------------------------------- the inductive invariant

  /** A committed key without its blob was committed while its request was told otherwise. */
  ghost predicate OnlyLostDangle(s: State) {
    forall row | row in s.rows && s.rows[row].Some? :: s.rows[row].value in s.blobs || s.rows[row].value in s.lost
  }

  ghost predicate Known(s: State) {
    && (forall k | k in s.blobs :: k in s.putAt && s.blobs[k] == s.putAt[k])
    && (forall k | k in s.commitAt :: k in s.putAt && k in s.home)
    && (forall k | k in s.putAt :: s.putAt[k] <= s.clock)
    && (forall k | k in s.lost :: k in s.commitAt)
  }

  /** A committed key belongs to one row for ever. */
  ghost predicate Homed(s: State) {
    forall row | row in s.rows && s.rows[row].Some? ::
      var k := s.rows[row].value;
      k in s.commitAt && k in s.home && s.home[k] == row
  }

  ghost predicate CommittedInTime(t: Timing, s: State) {
    forall k | k in s.commitAt && k in s.putAt ::
      s.commitAt[k] <= s.clock && s.commitAt[k] - s.putAt[k] <= t.commitDelay
  }

  /** Committed once, but no longer referenced by its row. */
  ghost predicate Retired(s: State, k: Key) {
    k in s.commitAt && k in s.home && !(s.home[k] in s.rows && s.rows[s.home[k]] == Some(k))
  }

  ghost predicate PreviousKnown(s: State, row: RowId, previous: Option<Key>) {
    previous.Some? ==> previous.value in s.commitAt && previous.value in s.home && s.home[previous.value] == row
  }

  ghost predicate RequestOk(t: Timing, s: State, r: Request) {
    match r
    case Begun(row, previous) => PreviousKnown(s, row, previous)
    case Uploaded(row, previous, key) =>
      && PreviousKnown(s, row, previous)
      && key in s.putAt && key !in s.commitAt
      && (key !in s.blobs ==> s.clock - s.putAt[key] >= t.grace)
    case Committed(replaced) => replaced.Some? ==> Retired(s, replaced.value)
    case Failed(orphan) => orphan in s.putAt && (orphan in s.commitAt ==> orphan in s.lost)
  }

  function Holds(r: Request): Option<Key> {
    match r
    case Uploaded(row, previous, key) => Some(key)
    case Failed(orphan) => Some(orphan)
    case _ => None
  }

  ghost predicate Exclusive(s: State) {
    forall a, b | a in s.requests && b in s.requests && a != b && Holds(s.requests[a]).Some? ::
      Holds(s.requests[a]) != Holds(s.requests[b])
  }

  ghost predicate ScanOk(t: Timing, s: State, x: Scan) {
    && x.snapAt <= s.clock
    && (x.clockAt.Some? ==> x.snapAt <= x.clockAt.value <= s.clock && x.clockAt.value - x.snapAt <= t.snapshotDelay)
    && (x.clockAt.None? ==> x.listed == {} && x.doomed == {})
    && (forall k | k in x.listed :: k in s.putAt)
    && (forall k | k in x.doomed :: k in s.putAt && k !in x.refs)
    && (forall k | k in x.doomed && k in s.blobs && k in s.putAt :: x.clockAt.value - s.putAt[k] >= t.grace)
    && (forall row | row in s.rows && s.rows[row].Some? ::
          var k := s.rows[row].value;
          k in x.refs || (k in s.commitAt && x.snapAt <= s.commitAt[k]))
  }

  ghost predicate AllRequestsOk(t: Timing, s: State) {
    forall a | a in s.requests :: RequestOk(t, s, s.requests[a])
  }

  ghost predicate AllScansOk(t: Timing, s: State) {
    forall x | x in s.scans :: ScanOk(t, s, s.scans[x])
  }

  ghost predicate Inv(t: Timing, s: State) {
    && OnlyLostDangle(s)
    && Known(s)
    && Homed(s)
    && CommittedInTime(t, s)
    && AllRequestsOk(t, s)
    && Exclusive(s)
    && AllScansOk(t, s)
  }

  ghost predicate Sound(t: Timing) {
    t.commitDelay >= 0.0 && t.snapshotDelay >= 0.0 && t.commitDelay + t.snapshotDelay < t.grace
  }

  lemma TickKeeps(t: Timing, s: State, elapsed: real)
    requires Inv(t, s) && elapsed >= 0.0
    ensures Inv(t, s.(clock := s.clock + elapsed))
  {
    var s' := s.(clock := s.clock + elapsed);
    forall a | a in s'.requests ensures RequestOk(t, s', s'.requests[a]) {
      assert RequestOk(t, s, s.requests[a]);
    }
    forall x | x in s'.scans ensures ScanOk(t, s', s'.scans[x]) {
      assert ScanOk(t, s, s.scans[x]);
    }
  }

  /** Deleting a blob that no row references, or a lost one, and that no request is about to commit breaks nothing. */
  lemma DeleteKeeps(t: Timing, s: State, key: Key, works: bool)
    requires Inv(t, s)
    requires key in Referenced(s) ==> key in s.lost
    requires forall a | a in s.requests && s.requests[a].Uploaded? && s.requests[a].key == key && key in s.putAt ::
               s.clock - s.putAt[key] >= t.grace
    ensures Inv(t, Delete(s, key, works))
  {
    var s' := Delete(s, key, works);
    forall row | row in s'.rows && s'.rows[row].Some?
      ensures s'.rows[row].value in s'.blobs || s'.rows[row].value in s'.lost
    {
      assert s.rows[row].value in Referenced(s);
    }
    forall a | a in s'.requests ensures RequestOk(t, s', s'.requests[a]) {
      assert RequestOk(t, s, s.requests[a]);
    }
    forall x | x in s'.scans ensures ScanOk(t, s', s'.scans[x]) {
      assert ScanOk(t, s, s.scans[x]);
    }
  }

  /** Forgetting a request, or replacing it by one that is in order and holds no new key, breaks nothing. */
  lemma RequestChangeKeeps(t: Timing, s: State, req: RequestId, r: Request)
    requires Inv(t, s) && RequestOk(t, s, r)
    requires Holds(r).Some? ==> req in s.requests && Holds(s.requests[req]) == Holds(r)
    ensures Inv(t, s.(requests := s.requests[req := r]))
  {
    var s' := s.(requests := s.requests[req := r]);
    forall a | a in s'.requests ensures RequestOk(t, s', s'.requests[a]) {
      if a != req { assert RequestOk(t, s, s.requests[a]); }
    }
    forall x | x in s'.scans ensures ScanOk(t, s', s'.scans[x]) {
      assert ScanOk(t, s, s.scans[x]);
    }
  }

  lemma ForgetKeeps(t: Timing, s: State, req: RequestId)
    requires Inv(t, s)
    ensures Inv(t, s.(requests := Without(s.requests, req)))
  {
    var s' := s.(requests := Without(s.requests, req));
    forall a | a in s'.requests ensures RequestOk(t, s', s'.requests[a]) {
      assert RequestOk(t, s, s.requests[a]);
    }
    forall x | x in s'.scans ensures ScanOk(t, s', s'.scans[x]) {
      assert ScanOk(t, s, s.scans[x]);
    }
  }

  /** Whether a scan is in order does not depend on requests, other scans or homes. */
  lemma ScanOkFrame(t: Timing, s: State, s': State)
    requires s'.clock == s.clock && s'.rows == s.rows && s'.blobs == s.blobs
    requires s'.putAt == s.putAt && s'.commitAt == s.commitAt
    ensures forall x :: ScanOk(t, s, x) ==> ScanOk(t, s', x)
  {
  }

  lemma ScanChangeKeeps(t: Timing, s: State, scan: ScanId, x: Scan)
    requires Inv(t, s) && ScanOk(t, s, x)
    ensures Inv(t, s.(scans := s.scans[scan := x]))
  {
    hide ScanOk;
    var s' := s.(scans := s.scans[scan := x]);
    ScanOkFrame(t, s, s');
    forall a | a in s'.requests ensures RequestOk(t, s', s'.requests[a]) {
      assert RequestOk(t, s, s.requests[a]);
    }
    forall y | y in s'.scans ensures ScanOk(t, s', s'.scans[y]) {
      if y != scan { assert ScanOk(t, s, s.scans[y]); }
      assert ScanOk(t, s, s'.scans[y]);
    }
  }

  lemma EndScanKeeps(t: Timing, s: State, scan: ScanId)
    requires Inv(t, s)
    ensures Inv(t, s.(scans := Without(s.scans, scan)))
  {
    var s' := s.(scans := Without(s.scans, scan));
    forall a | a in s'.requests ensures RequestOk(t, s', s'.requests[a]) {
      assert RequestOk(t, s, s.requests[a]);
    }
    forall y | y in s'.scans ensures ScanOk(t, s', s'.scans[y]) {
      assert ScanOk(t, s, s.scans[y]);
    }
  }

  lemma UploadKeepsRequests(t: Timing, s: State, req: RequestId, key: Key, mtime: real)
    requires Inv(t, s) && Possible(s, Upload(req, key, mtime))
    ensures var s' := Apply(t, s, Upload(req, key, mtime)); AllRequestsOk(t, s') && Exclusive(s')
  {
    hide ScanOk, AllScansOk, OnlyLostDangle, CommittedInTime;
    var s' := Apply(t, s, Upload(req, key, mtime));
    forall a | a in s'.requests ensures RequestOk(t, s', s'.requests[a]) {
      assert RequestOk(t, s, s.requests[a]);
    }
    forall a, b | a in s'.requests && b in s'.requests && a != b && Holds(s'.requests[a]).Some?
      ensures Holds(s'.requests[a]) != Holds(s'.requests[b])
    {
      assert RequestOk(t, s, s.requests[a]) && RequestOk(t, s, s.requests[b]);
    }
  }

  lemma UploadKeepsScans(t: Timing, s: State, req: RequestId, key: Key, mtime: real)
    requires Inv(t, s) && Possible(s, Upload(req, key, mtime))
    ensures AllScansOk(t, Apply(t, s, Upload(req, key, mtime)))
  {
    hide RequestOk, AllRequestsOk, Exclusive, OnlyLostDangle, CommittedInTime;
    var s' := Apply(t, s, Upload(req, key, mtime));
    forall x | x in s'.scans ensures ScanOk(t, s', s'.scans[x]) {
      assert ScanOk(t, s, s.scans[x]);
    }
  }

  lemma UploadKeeps(t: Timing, s: State, req: RequestId, key: Key, mtime: real)
    requires Inv(t, s) && Possible(s, Upload(req, key, mtime))
    ensures Inv(t, Apply(t, s, Upload(req, key, mtime)))
  {
    hide RequestOk, AllRequestsOk, Exclusive, ScanOk, AllScansOk;
    UploadKeepsRequests(t, s, req, key, mtime);
    UploadKeepsScans(t, s, req, key, mtime);
  }

  /** A key is committed while its blob is there: reconciliation waits out the grace window. */
  lemma CommitFinds(t: Timing, s: State, req: RequestId)
    requires Inv(t, s) && Sound(t) && req in s.requests && s.requests[req].Uploaded?
    requires CommitsInTime(t, s, s.requests[req].key)
    ensures var key := s.requests[req].key;
            key in s.blobs && key in s.putAt && key !in s.commitAt && s.clock - s.putAt[key] <= t.commitDelay
  {
    hide Exclusive, ScanOk, AllScansOk, OnlyLostDangle, CommittedInTime;
    assert RequestOk(t, s, s.requests[req]);
  }

  lemma CommitKeepsRequests(t: Timing, s: State, step: Step)
    requires Inv(t, s) && Possible(s, step) && (step.Commit? || step.CommitLost?)
    requires s.requests[step.req].key !in s.commitAt
    ensures var s' := Apply(t, s, step); AllRequestsOk(t, s') && Exclusive(s')
  {
    hide ScanOk, AllScansOk, OnlyLostDangle, CommittedInTime, Known, Homed;
    var s' := Apply(t, s, step);
    assert RequestOk(t, s, s.requests[step.req]);
    forall a | a in s'.requests ensures RequestOk(t, s', s'.requests[a]) {
      assert RequestOk(t, s, s.requests[a]);
      assert a != step.req ==> Holds(s.requests[a]) != Holds(s.requests[step.req]);
    }
  }

  lemma CommitKeepsScans(t: Timing, s: State, step: Step)
    requires Inv(t, s) && Possible(s, step) && (step.Commit? || step.CommitLost?)
    requires s.requests[step.req].key !in s.commitAt
    ensures AllScansOk(t, Apply(t, s, step))
  {
    hide RequestOk, AllRequestsOk, Exclusive, OnlyLostDangle, CommittedInTime, Known;
    var s' := Apply(t, s, step);
    forall x | x in s'.scans ensures ScanOk(t, s', s'.scans[x]) {
      assert ScanOk(t, s, s.scans[x]);
    }
  }

  lemma CommitKeeps(t: Timing, s: State, step: Step)
    requires Inv(t, s) && Sound(t) && Possible(s, step) && Timely(t, s, step) && (step.Commit? || step.CommitLost?)
    ensures Inv(t, Apply(t, s, step))
  {
    hide RequestOk, AllRequestsOk, Exclusive, ScanOk, AllScansOk;
    CommitFinds(t, s, step.req);
    CommitKeepsRequests(t, s, step);
    CommitKeepsScans(t, s, step);
  }

  /** A doomed key that still has its blob is not referenced: its commit would have fallen inside the grace window. */
  lemma DoomedIsUnreferenced(t: Timing, s: State, scan: ScanId, key: Key)
    requires Inv(t, s) && Sound(t) && scan in s.scans && key in s.scans[scan].doomed
    ensures key in s.blobs || key !in s.lost ==> key !in Referenced(s)
    ensures key in s.blobs && key in s.putAt ==> s.clock - s.putAt[key] >= t.grace
  {
    var x := s.scans[scan];
    assert ScanOk(t, s, x);
    forall row | row in s.rows && s.rows[row].Some? && (key in s.blobs || key !in s.lost)
      ensures s.rows[row].value != key
    {
      var k := s.rows[row].value;
      assert k in s.putAt && k in s.commitAt && (k in s.blobs || k in s.lost);
      assert k in s.blobs && k !in x.refs ==> x.clockAt.None? || x.clockAt.value - s.putAt[k] < t.grace;
    }
  }

  lemma SnapshotOk(t: Timing, s: State)
    requires Inv(t, s)
    ensures ScanOk(t, s, Scan(Referenced(s), s.clock, None, {}, {}))
  {
    forall row | row in s.rows && s.rows[row].Some? ensures s.rows[row].value in Referenced(s) {}
  }

  lemma DropDoomed(t: Timing, s: State, scan: ScanId, key: Key)
    requires Inv(t, s) && scan in s.scans
    ensures ScanOk(t, s, s.scans[scan].(doomed := s.scans[scan].doomed - {key}))
  {
    assert ScanOk(t, s, s.scans[scan]);
  }

  lemma ScanStepOk(t: Timing, s: State, step: Step)
    requires Inv(t, s) && Possible(s, step) && Timely(t, s, step)
    requires step.ReadClock? || step.ListKey? || step.Examine?
    ensures step.scan in Apply(t, s, step).scans
    ensures ScanOk(t, s, Apply(t, s, step).scans[step.scan])
  {
    assert ScanOk(t, s, s.scans[step.scan]);
  }

  lemma CompensateKeeps(t: Timing, s: State, req: RequestId, works: bool)
    requires Inv(t, s) && Possible(s, Compensate(req, works))
    ensures Inv(t, Apply(t, s, Compensate(req, works)))
  {
    hide Inv, Referenced;
    var key := s.requests[req].orphan;
    OrphanMayGo(t, s, req);
    DeleteKeeps(t, s, key, works);
    ForgetKeeps(t, Delete(s, key, works), req);
  }

  lemma DropReplacedKeeps(t: Timing, s: State, req: RequestId, works: bool)
    requires Inv(t, s) && Possible(s, DropReplaced(req, works))
    ensures Inv(t, Apply(t, s, DropReplaced(req, works)))
  {
    hide Inv, Referenced;
    var replaced := s.requests[req].replaced;
    if replaced.Some? {
      ReplacedMayGo(t, s, req);
      DeleteKeeps(t, s, replaced.value, works);
      ForgetKeeps(t, Delete(s, replaced.value, works), req);
    } else {
      ForgetKeeps(t, s, req);
    }
  }

  lemma DeleteDoomedKeeps(t: Timing, s: State, scan: ScanId, key: Key, works: bool)
    requires Inv(t, s) && Sound(t) && Possible(s, DeleteDoomed(scan, key, works))
    ensures Inv(t, Apply(t, s, DeleteDoomed(scan, key, works)))
  {
    hide Inv, Referenced, ScanOk;
    var gone := Delete(s, key, works);
    DoomedMayGo(t, s, scan, key);
    DeleteKeeps(t, s, key, works);
    DropDoomed(t, gone, scan, key);
    ScanChangeKeeps(t, gone, scan, Apply(t, s, DeleteDoomed(scan, key, works)).scans[scan]);
  }

  lemma ScanStepKeeps(t: Timing, s: State, step: Step)
    requires Inv(t, s) && Possible(s, step) && Timely(t, s, step)
    requires step.ReadClock? || step.ListKey? || step.Examine?
    ensures Inv(t, Apply(t, s, step))
  {
    hide Inv, ScanOk;
    ScanStepOk(t, s, step);
    ScanChangeKeeps(t, s, step.scan, Apply(t, s, step).scans[step.scan]);
  }

  /** Every step keeps the invariant, provided the grace window exceeds the two delays together. */
  lemma StepKeeps(t: Timing, s: State, step: Step)
    requires Sound(t) && Inv(t, s) && Possible(s, step) && Timely(t, s, step)
    ensures Inv(t, Apply(t, s, step))
  {
    hide Inv, ScanOk, Referenced, Delete;
    match step
    case Tick(elapsed) => TickKeeps(t, s, elapsed);
    case Begin(req, row) =>
      BeginOk(t, s, row);
      RequestChangeKeeps(t, s, req, Begun(row, if row in s.rows then s.rows[row] else None));
    case Upload(req, key, mtime) => UploadKeeps(t, s, req, key, mtime);
    case Commit(_) => CommitKeeps(t, s, step);
    case CommitLost(_) => CommitKeeps(t, s, step);
    case CommitFails(req) =>
      RequestIsOk(t, s, req);
      RequestChangeKeeps(t, s, req, Failed(s.requests[req].key));
    case Compensate(req, works) => CompensateKeeps(t, s, req, works);
    case DropReplaced(req, works) => DropReplacedKeeps(t, s, req, works);
    case Crash(req) => ForgetKeeps(t, s, req);
    case Snapshot(scan) =>
      SnapshotOk(t, s);
      ScanChangeKeeps(t, s, scan, Scan(Referenced(s), s.clock, None, {}, {}));
    case ReadClock(_) => ScanStepKeeps(t, s, step);
    case ListKey(_, _) => ScanStepKeeps(t, s, step);
    case Examine(_, _) => ScanStepKeeps(t, s, step);
    case DeleteDoomed(scan, key, works) => DeleteDoomedKeeps(t, s, scan, key, works);
    case EndScan(scan) => EndScanKeeps(t, s, scan);
  }

  lemma BeginOk(t: Timing, s: State, row: RowId)
    requires Inv(t, s)
    ensures RequestOk(t, s, Begun(row, if row in s.rows then s.rows[row] else None))
  {
  }

  lemma RequestIsOk(t: Timing, s: State, req: RequestId)
    requires Inv(t, s) && req in s.requests
    ensures RequestOk(t, s, s.requests[req])
  {
  }

  lemma OrphanMayGo(t: Timing, s: State, req: RequestId)
    requires Inv(t, s) && req in s.requests && s.requests[req].Failed?
    ensures var key := s.requests[req].orphan;
            && (key in Referenced(s) ==> key in s.lost)
            && (forall a | a in s.requests && s.requests[a].Uploaded? :: s.requests[a].key != key)
  {
    assert RequestOk(t, s, s.requests[req]);
    var key := s.requests[req].orphan;
    forall a | a in s.requests && s.requests[a].Uploaded? ensures s.requests[a].key != key {
      assert Holds(s.requests[req]) != Holds(s.requests[a]);
    }
  }

  lemma ReplacedMayGo(t: Timing, s: State, req: RequestId)
    requires Inv(t, s) && req in s.requests && s.requests[req].Committed? && s.requests[req].replaced.Some?
    ensures var key := s.requests[req].replaced.value;
            && key !in Referenced(s)
            && (forall a | a in s.requests && s.requests[a].Uploaded? :: s.requests[a].key != key)
  {
    assert RequestOk(t, s, s.requests[req]);
    forall a | a in s.requests && s.requests[a].Uploaded? ensures s.requests[a].key != s.requests[req].replaced.value {
      assert RequestOk(t, s, s.requests[a]);
    }
  }

  lemma DoomedMayGo(t: Timing, s: State, scan: ScanId, key: Key)
    requires Inv(t, s) && Sound(t) && scan in s.scans && key in s.scans[scan].doomed
    ensures key in s.blobs || key !in s.lost ==> key !in Referenced(s)
    ensures forall a | a in s.requests && s.requests[a].Uploaded? && s.requests[a].key == key && key in s.putAt ::
              s.clock - s.putAt[key] >= t.grace
  {
    DoomedIsUnreferenced(t, s, scan, key);
    forall a | a in s.requests && s.requests[a].Uploaded? && s.requests[a].key == key && key in s.putAt
      ensures s.clock - s.putAt[key] >= t.grace
    {
      assert RequestOk(t, s, s.requests[a]);
    }
  }

  // ---------------------------------------------------------------- whole runs

  lemma InitialInv(t: Timing)
    ensures Inv(t, INITIAL)
  {
  }

  lemma {:induction false} RunKeeps(t: Timing, s: State, steps: seq<Step>)
    requires Sound(t) && Inv(t, s) && IsRun(t, s, steps)
    ensures Inv(t, After(t, s, steps))
    decreases |steps|
  {
    hide Inv, Apply, Possible, Timely;
    if steps != [] {
      StepKeeps(t, s, steps[0]);
      RunKeeps(t, Apply(t, s, steps[0]), steps[1..]);
    }
  }

  /**
   * No run, however interleaved and wherever requests crash, leaves a committed key without its
   * blob, except keys whose commit took hold while the request was told that it failed.
   */
  lemma NoRunDangles(t: Timing, steps: seq<Step>)
    requires Sound(t) && IsRun(t, INITIAL, steps)
    ensures var s := After(t, INITIAL, steps);
            && (forall row | row in s.rows && s.rows[row].Some? ::
                  s.rows[row].value in s.blobs || s.rows[row].value in s.lost)
            && (s.lost == {} ==> NoDanglingKey(s))
  {
    InitialInv(t);
    RunKeeps(t, INITIAL, steps);
  }

  lemma FirstStep(t: Timing, s: State, step: Step, rest: seq<Step>)
    requires Possible(s, step) && Timely(t, s, step) && IsRun(t, Apply(t, s, step), rest)
    ensures IsRun(t, s, [step] + rest) && After(t, s, [step] + rest) == After(t, Apply(t, s, step), rest)
  {
    assert ([step] + rest)[1..] == rest;
  }

  /** Key 7 is uploaded for row 0, and the longest commit delay has passed. */
  function UploadedLate(t: Timing): State {
    State(t.commitDelay, map[], map[7 := 0.0], map[0 := Uploaded(0, None, 7)], map[], map[7 := 0.0], map[], map[], {})
  }

  /** The key was committed just after a reference snapshot, and the longest snapshot delay has passed. */
  function CommittedLate(t: Timing): State {
    State(t.commitDelay + t.snapshotDelay, map[0 := Some(7)], map[7 := 0.0], map[0 := Committed(None)],
          map[0 := Scan({}, t.commitDelay, None, {}, {})], map[7 := 0.0], map[7 := t.commitDelay], map[7 := 0], {})
  }

  lemma RaceUpload(t: Timing, rest: seq<Step>) returns (steps: seq<Step>)
    requires t.commitDelay >= 0.0 && IsRun(t, UploadedLate(t), rest)
    ensures IsRun(t, INITIAL, steps) && After(t, INITIAL, steps) == After(t, UploadedLate(t), rest)
  {
    var s1 := Apply(t, INITIAL, Begin(0, 0));
    var s2 := Apply(t, s1, Upload(0, 7, 0.0));
    assert Apply(t, s2, Tick(t.commitDelay)) == UploadedLate(t);
    hide Apply, IsRun, After;
    FirstStep(t, s2, Tick(t.commitDelay), rest);
    FirstStep(t, s1, Upload(0, 7, 0.0), [Tick(t.commitDelay)] + rest);
    steps := [Begin(0, 0)] + ([Upload(0, 7, 0.0)] + ([Tick(t.commitDelay)] + rest));
    FirstStep(t, INITIAL, Begin(0, 0), [Upload(0, 7, 0.0)] + ([Tick(t.commitDelay)] + rest));
  }

  lemma RaceCommit(t: Timing, rest: seq<Step>) returns (steps: seq<Step>)
    requires t.snapshotDelay >= 0.0 && IsRun(t, CommittedLate(t), rest)
    ensures IsRun(t, UploadedLate(t), steps) && After(t, UploadedLate(t), steps) == After(t, CommittedLate(t), rest)
  {
    var s3 := UploadedLate(t);
    assert Referenced(s3) == {};
    var s4 := Apply(t, s3, Snapshot(0));
    var s5 := Apply(t, s4, Commit(0));
    assert Apply(t, s5, Tick(t.snapshotDelay)) == CommittedLate(t);
    hide Apply, IsRun, After;
    FirstStep(t, s5, Tick(t.snapshotDelay), rest);
    FirstStep(t, s4, Commit(0), [Tick(t.snapshotDelay)] + rest);
    steps := [Snapshot(0)] + ([Commit(0)] + ([Tick(t.snapshotDelay)] + rest));
    FirstStep(t, s3, Snapshot(0), [Commit(0)] + ([Tick(t.snapshotDelay)] + rest));
  }

  /** The reconciler of `CommittedLate` with this clock reading, these listed and these doomed keys. */
  function Scanning(t: Timing, clockAt: Option<real>, listed: set<Key>, doomed: set<Key>): State {
    CommittedLate(t).(scans := map[0 := Scan({}, t.commitDelay, clockAt, listed, doomed)])
  }

  lemma ScanEffects(t: Timing)
    requires t.commitDelay + t.snapshotDelay >= t.grace
    ensures var late, s6 := Some(t.commitDelay + t.snapshotDelay), CommittedLate(t);
            var s7, s8, s9 := Scanning(t, late, {}, {}), Scanning(t, late, {7}, {}), Scanning(t, late, {}, {7});
            && Possible(s6, ReadClock(0)) && Apply(t, s6, ReadClock(0)) == s7
            && Possible(s7, ListKey(0, 7)) && Apply(t, s7, ListKey(0, 7)) == s8
            && Possible(s8, Examine(0, 7)) && Apply(t, s8, Examine(0, 7)) == s9
  {
    var none: set<Key> := {};
    assert none + {7} == {7} && {7} - {7} == none;
  }

  lemma RaceDelete(t: Timing) returns (steps: seq<Step>)
    requires t.commitDelay + t.snapshotDelay >= t.grace
    ensures IsRun(t, CommittedLate(t), steps) && !NoDanglingKey(After(t, CommittedLate(t), steps))
            && After(t, CommittedLate(t), steps).lost == {}
  {
    var late, s6 := Some(t.commitDelay + t.snapshotDelay), CommittedLate(t);
    var s7, s8, s9 := Scanning(t, late, {}, {}), Scanning(t, late, {7}, {}), Scanning(t, late, {}, {7});
    var s10 := Apply(t, s9, DeleteDoomed(0, 7, true));
    ScanEffects(t);
    NoSteps(t, s10);
    RowWithoutBlob(s10, 0);
    hide Apply, IsRun, After, NoDanglingKey;
    FirstStep(t, s9, DeleteDoomed(0, 7, true), []);
    FirstStep(t, s8, Examine(0, 7), [DeleteDoomed(0, 7, true)] + []);
    FirstStep(t, s7, ListKey(0, 7), [Examine(0, 7)] + ([DeleteDoomed(0, 7, true)] + []));
    steps := [ReadClock(0)] + ([ListKey(0, 7)] + ([Examine(0, 7)] + ([DeleteDoomed(0, 7, true)] + [])));
    FirstStep(t, s6, ReadClock(0), [ListKey(0, 7)] + ([Examine(0, 7)] + ([DeleteDoomed(0, 7, true)] + [])));
  }

  /**
   * A commit right after the reference snapshot, as late as allowed; the reconciler's clock,
   * read as late as allowed, then sees the uploaded blob as old.
   */
  lemma RacingRun(t: Timing) returns (steps: seq<Step>)
    requires t.commitDelay >= 0.0 && t.snapshotDelay >= 0.0 && t.commitDelay + t.snapshotDelay >= t.grace
    ensures IsRun(t, INITIAL, steps) && !NoDanglingKey(After(t, INITIAL, steps)) && After(t, INITIAL, steps).lost == {}
  {
    steps := RaceDelete(t);
    steps := RaceCommit(t, steps);
    steps := RaceUpload(t, steps);
  }

  lemma NoSteps(t: Timing, s: State)
    ensures IsRun(t, s, []) && After(t, s, []) == s
  {
  }

  lemma RowWithoutBlob(s: State, row: RowId)
    requires row in s.rows && s.rows[row].Some? && s.rows[row].value !in s.blobs
    ensures !NoDanglingKey(s)
  {
  }

  /**
   * As long as acknowledgements arrive, the protocol is safe exactly when the grace window exceeds
   * the two delays together.
   */
  lemma GraceWindowIsExact(t: Timing)
    requires t.commitDelay >= 0.0 && t.snapshotDelay >= 0.0
    ensures (forall steps | IsRun(t, INITIAL, steps) && After(t, INITIAL, steps).lost == {} ::
               NoDanglingKey(After(t, INITIAL, steps)))
            <==> t.commitDelay + t.snapshotDelay < t.grace
  {
    hide IsRun, After, NoDanglingKey;
    if t.commitDelay + t.snapshotDelay < t.grace {
      forall steps | IsRun(t, INITIAL, steps) && After(t, INITIAL, steps).lost == {}
        ensures NoDanglingKey(After(t, INITIAL, steps))
      {
        NoRunDangles(t, steps);
      }
    } else {
      var steps := RacingRun(t);
    }
  }

  // ---------------------------------------------------------------- lost acknowledgements

  /** A request that was told that the commit of this key failed has not compensated yet. */
  predicate AboutToCompensate(s: State, key: Key) {
    exists a | a in s.requests :: s.requests[a] == Failed(key)
  }

  /** As long as the row refers to the key, its blob is there. */
  predicate HasBlob(s: State, row: RowId, key: Key) {
    row in s.rows && s.rows[row] == Some(key) ==> key in s.blobs
  }

  lemma SafeStepKeeps(t: Timing, s: State, step: Step, row: RowId, key: Key)
    requires Inv(t, s) && Sound(t) && Possible(s, step)
    requires key in s.commitAt && HasBlob(s, row, key) && !AboutToCompensate(s, key)
    ensures var s' := Apply(t, s, step); key in s'.commitAt && HasBlob(s', row, key)
  {
    hide Inv, Sound, ScanOk, Referenced, Without;
    NothingTakesIt(t, s, row, key);
    if step.Compensate? || step.DropReplaced? || step.DeleteDoomed? {
      assert Apply(t, s, step).rows == s.rows && Apply(t, s, step).commitAt == s.commitAt;
      SafeDelete(t, s, step, row, key);
    }
  }

  lemma SafeDelete(t: Timing, s: State, step: Step, row: RowId, key: Key)
    requires Inv(t, s) && Sound(t) && Possible(s, step)
    requires step.Compensate? || step.DropReplaced? || step.DeleteDoomed?
    requires key in s.commitAt && HasBlob(s, row, key) && !AboutToCompensate(s, key)
    ensures HasBlob(Apply(t, s, step), row, key)
  {
    hide Inv, Sound, ScanOk, Referenced;
    NothingTakesIt(t, s, row, key);
    if row in s.rows && s.rows[row] == Some(key) {
      IsReferenced(s, row);
    }
    if step.DeleteDoomed? {
      DoomedMayGo(t, s, step.scan, step.key);
    }
  }

  lemma IsReferenced(s: State, row: RowId)
    requires row in s.rows && s.rows[row].Some?
    ensures s.rows[row].value in Referenced(s)
  {
  }

  /** No request holds a committed key to commit it again or to drop it while its row refers to it. */
  lemma NothingTakesIt(t: Timing, s: State, row: RowId, key: Key)
    requires Inv(t, s) && key in s.commitAt
    ensures forall a | a in s.requests && s.requests[a].Uploaded? :: s.requests[a].key != key
    ensures row in s.rows && s.rows[row] == Some(key) ==>
              forall a | a in s.requests && s.requests[a].Committed? :: s.requests[a].replaced != Some(key)
  {
    hide ScanOk, AllScansOk, OnlyLostDangle, CommittedInTime, Exclusive;
    assert forall a | a in s.requests :: RequestOk(t, s, s.requests[a]);
  }

  lemma NoNewCompensation(t: Timing, s: State, step: Step, key: Key)
    requires Inv(t, s) && Possible(s, step) && key in s.commitAt && !AboutToCompensate(s, key)
    ensures !AboutToCompensate(Apply(t, s, step), key)
  {
    hide Inv, Referenced;
    NothingTakesIt(t, s, 0, key);
    var s' := Apply(t, s, step);
    forall a | a in s'.requests ensures s'.requests[a] != Failed(key) {
      assert a in s.requests ==> s.requests[a] != Failed(key);
    }
  }

  lemma {:induction false} SafeRunKeeps(t: Timing, s: State, steps: seq<Step>, row: RowId, key: Key)
    requires Inv(t, s) && Sound(t) && IsRun(t, s, steps)
    requires key in s.commitAt && HasBlob(s, row, key) && !AboutToCompensate(s, key)
    ensures HasBlob(After(t, s, steps), row, key)
    decreases |steps|
  {
    hide Inv, Sound, Possible, Timely, Apply, HasBlob, AboutToCompensate;
    if steps != [] {
      StepKeeps(t, s, steps[0]);
      SafeStepKeeps(t, s, steps[0], row, key);
      NoNewCompensation(t, s, steps[0], key);
      SafeRunKeeps(t, Apply(t, s, steps[0]), steps[1..], row, key);
    }
  }

  lemma CompensationTakesIt(t: Timing, s: State, req: RequestId, row: RowId, key: Key)
    requires req in s.requests && s.requests[req] == Failed(key) && row in s.rows && s.rows[row] == Some(key)
    ensures IsRun(t, s, [Compensate(req, true)]) && !HasBlob(After(t, s, [Compensate(req, true)]), row, key)
  {
    assert [Compensate(req, true)][1..] == [];
  }

  /**
   * The blob of a committed key is safe in every run, as long as its row refers to it, if and only
   * if no request that was told that its commit failed is still to compensate.
   */
  lemma CommittedBlobIsSafe(t: Timing, s: State, row: RowId, key: Key)
    requires Inv(t, s) && Sound(t) && row in s.rows && s.rows[row] == Some(key) && key in s.blobs
    ensures (forall steps | IsRun(t, s, steps) :: HasBlob(After(t, s, steps), row, key)) <==> !AboutToCompensate(s, key)
  {
    hide Sound, IsRun, After, HasBlob;
    if AboutToCompensate(s, key) {
      var req :| req in s.requests && s.requests[req] == Failed(key);
      CompensationTakesIt(t, s, req, row, key);
    } else {
      assert key in s.commitAt && HasBlob(s, row, key) by { HasItNow(s, row, key); }
      forall steps | IsRun(t, s, steps) ensures HasBlob(After(t, s, steps), row, key) {
        SafeRunKeeps(t, s, steps, row, key);
      }
    }
  }

  lemma HasItNow(s: State, row: RowId, key: Key)
    requires key in s.blobs
    ensures HasBlob(s, row, key)
  {
  }

  /** A lost acknowledgement does make a committed key dangle, whatever the delays and the grace window. */
  lemma LostCommitDangles(t: Timing) returns (steps: seq<Step>)
    requires t.commitDelay >= 0.0
    ensures IsRun(t, INITIAL, steps) && !NoDanglingKey(After(t, INITIAL, steps))
  {
    var s1 := Apply(t, INITIAL, Begin(0, 0));
    var s2 := Apply(t, s1, Upload(0, 7, 0.0));
    var s3 := Apply(t, s2, CommitLost(0));
    var s4 := Apply(t, s3, Compensate(0, true));
    assert s4.rows == map[0 := Some(7)] && 7 !in s4.blobs;
    NoSteps(t, s4);
    hide Apply, IsRun, After;
    FirstStep(t, s3, Compensate(0, true), []);
    FirstStep(t, s2, CommitLost(0), [Compensate(0, true)] + []);
    FirstStep(t, s1, Upload(0, 7, 0.0), [CommitLost(0)] + ([Compensate(0, true)] + []));
    steps := [Begin(0, 0)] + ([Upload(0, 7, 0.0)] + ([CommitLost(0)] + ([Compensate(0, true)] + [])));
    FirstStep(t, INITIAL, Begin(0, 0), [Upload(0, 7, 0.0)] + ([CommitLost(0)] + ([Compensate(0, true)] + [])));
    RowWithoutBlob(s4, 0);
  }
}
