/**
 * In-process request coalescing: one running computation per key, whose outcome every caller that
 * joins it shares. Callers interleave at their awaits. A future is named after the call that made it.
 */
module Coalescer {
  import opened Common

  type Key = string
  type CallId = nat
  datatype Outcome = Result(value: int) | Raised(error: string)
  datatype Stats = Stats(submissions: nat, computations: nat, joins: nat, failures: nat)

  datatype Call =
    | Leading(key: Key)                                    // awaiting its computation
    | Joined(key: Key, leader: CallId)                     // awaiting the leader's future, shielded
    | Returned(key: Key, leader: CallId, outcome: Outcome) // got an outcome: its own, or its leader's
    | Cancelled(key: Key)

  datatype State = State(
    inflight: map<Key, CallId>,
    futures: map<CallId, Option<Outcome>>,
    stats: Stats,
    calls: map<CallId, Call>)                              // history: every call ever made

  const INITIAL := State(map[], map[], Stats(0, 0, 0, 0), map[])

  datatype Step =
    | Begin(call: CallId, key: Key)
    | Complete(call: CallId, outcome: Outcome)
    | Wake(call: CallId)
    | Cancel(call: CallId)

  predicate Possible(s: State, step: Step) {
    match step
    case Begin(c, key) => c !in s.calls
    case Complete(c, outcome) => c in s.calls && s.calls[c].Leading?
    case Wake(c) =>
      c in s.calls && s.calls[c].Joined? && s.calls[c].leader in s.futures && s.futures[s.calls[c].leader].Some?
    case Cancel(c) => c in s.calls && (s.calls[c].Leading? || s.calls[c].Joined?)
  }

  function Apply(s: State, step: Step): State
    requires Possible(s, step)
  {
    var stats := s.stats;
    match step
    case Begin(c, key) =>
      if key in s.inflight then
        s.(stats := stats.(submissions := stats.submissions + 1, joins := stats.joins + 1),
           calls := s.calls[c := Joined(key, s.inflight[key])])
      else
        s.(stats := stats.(submissions := stats.submissions + 1, computations := stats.computations + 1),
           calls := s.calls[c := Leading(key)], inflight := s.inflight[key := c], futures := s.futures[c := None])
    case Complete(c, outcome) =>
      var key := s.calls[c].key;
      s.(stats := if outcome.Raised? then stats.(failures := stats.failures + 1) else stats,
         futures := s.futures[c := Some(outcome)], inflight := Without(s.inflight, key),
         calls := s.calls[c := Returned(key, c, outcome)])
    case Wake(c) =>
      var x := s.calls[c];
      s.(calls := s.calls[c := Returned(x.key, x.leader, s.futures[x.leader].value)])
    case Cancel(c) =>
      // a cancelled leader removes its key but does not resolve its future
      var x := s.calls[c];
      s.(inflight := if x.Leading? then Without(s.inflight, x.key)
        else s.inflight, calls := s.calls[c := Cancelled(x.key)])
  }

  predicate IsRun(s: State, steps: seq<Step>)
    decreases |steps|
  {
    steps == [] || (Possible(s, steps[0]) && IsRun(Apply(s, steps[0]), steps[1..]))
  }

  function After(s: State, steps: seq<Step>): State
    requires IsRun(s, steps)
    decreases |steps|
  {
    if steps == [] then s else After(Apply(s, steps[0]), steps[1..])
  }

  /** The coalescer's methods are its code between two awaits. */
  class InProcessCoalescer {
    var inflight: map<Key, CallId>
    var futures: map<CallId, Option<Outcome>>
    var stats: Stats
    ghost var calls: map<CallId, Call>

    ghost function Value(): State
      reads this
    {
      State(inflight, futures, stats, calls)
    }

    ghost predicate Valid()
      reads this
    {
      Inv(Value())
    }

    constructor ()
      ensures Valid() && Value() == INITIAL
    {
      inflight, futures, stats, calls := map[], map[], Stats(0, 0, 0, 0), map[];
    }

    /** Up to the await: join what is in flight, or lead a new computation. */
    method Start(c: CallId, key: Key) returns (joined: Option<CallId>)
      requires Valid() && c !in calls
      modifies this
      ensures Valid() && Value() == Apply(old(Value()), Begin(c, key))
      ensures joined == if key in old(inflight) then Some(old(inflight)[key]) else None
      ensures stats.submissions == old(stats.submissions) + 1 && stats.failures == old(stats.failures)
      ensures key in old(inflight) ==>
                && stats.joins == old(stats.joins) + 1 && stats.computations == old(stats.computations)
                && calls == old(calls)[c := Joined(key, old(inflight)[key])]
                && inflight == old(inflight) && futures == old(futures)
      ensures key !in old(inflight) ==>
                && stats.joins == old(stats.joins) && stats.computations == old(stats.computations) + 1
                && calls == old(calls)[c := Leading(key)]
                && inflight == old(inflight)[key := c] && futures == old(futures)[c := None]
    {
      hide Inv;
      ghost var before := Value();
      StepKeeps(before, Begin(c, key));
      stats := stats.(submissions := stats.submissions + 1);
      if key in inflight {
        stats := stats.(joins := stats.joins + 1);
        calls := calls[c := Joined(key, inflight[key])];
        return Some(inflight[key]);
      }
      futures := futures[c := None];
      inflight := inflight[key := c];
      stats := stats.(computations := stats.computations + 1);
      calls := calls[c := Leading(key)];
      return None;
    }

    /** After the computation: resolve the future and free the key, in one go. */
    method Finish(c: CallId, key: Key, outcome: Outcome)
      requires Valid() && c in calls && calls[c] == Leading(key)
      modifies this
      ensures Valid() && Value() == Apply(old(Value()), Complete(c, outcome))
      ensures inflight.Keys == old(inflight).Keys - {key}
      ensures forall k | k in inflight :: inflight[k] == old(inflight)[k]
      ensures futures == old(futures)[c := Some(outcome)] && calls == old(calls)[c := Returned(key, c, outcome)]
      ensures stats == old(stats).(failures := old(stats.failures) + if outcome.Raised? then 1 else 0)
    {
      hide Inv;
      ghost var before := Value();
      StepKeeps(before, Complete(c, outcome));
      if outcome.Raised? {
        stats := stats.(failures := stats.failures + 1);
      }
      futures := futures[c := Some(outcome)];
      inflight := Without(inflight, key);
      calls := calls[c := Returned(key, c, outcome)];
    }
  }

  // ---------------------------------------------------------------- the invariant

  /** The keys in flight are exactly those of the leading calls, one call a key. */
  ghost predicate OneLeaderPerKey(s: State) {
    && (forall k | k in s.inflight :: s.inflight[k] in s.calls && s.calls[s.inflight[k]] == Leading(k))
    && (forall c | c in s.calls && s.calls[c].Leading? ::
      s.calls[c].key in s.inflight && s.inflight[s.calls[c].key] == c)
  }

  /** What a call knows of the future it leads, joined or returned from. */
  ghost predicate CallOk(s: State, c: CallId, x: Call) {
    match x
    case Leading(key) => c in s.futures && s.futures[c] == None
    case Joined(key, leader) => c !in s.futures && leader in s.futures && leader in s.calls
      && s.calls[leader].key == key
    case Returned(key, leader, outcome) =>
      && leader in s.futures && s.futures[leader] == Some(outcome)
      && leader in s.calls && s.calls[leader] == Returned(key, leader, outcome)
    case Cancelled(key) => c in s.futures ==> s.futures[c] == None
  }

  ghost predicate CallsOk(s: State) {
    && (forall c | c in s.calls :: CallOk(s, c, s.calls[c]))
    && s.futures.Keys <= s.calls.Keys
    && (forall c | c in s.futures :: !s.calls[c].Joined?)
    && (forall c | c in s.futures && s.calls[c].Returned? :: s.calls[c].leader == c)
  }

  function Failures(s: State): set<CallId> {
    set c | c in s.futures && s.futures[c].Some? && s.futures[c].value.Raised?
  }

  ghost predicate Counted(s: State) {
    && s.stats.submissions == |s.calls| && s.stats.computations == |s.futures|
    && s.stats.submissions == s.stats.computations + s.stats.joins
    && s.stats.failures == |Failures(s)|
  }

  ghost predicate Inv(s: State) {
    OneLeaderPerKey(s) && CallsOk(s) && Counted(s)
  }

  lemma StepKeeps(s: State, step: Step)
    requires Inv(s) && Possible(s, step)
    ensures Inv(Apply(s, step))
  {
    hide OneLeaderPerKey, CallsOk, Counted;
    StepKeepsCount(s, step);
    StepKeepsCalls(s, step);
  }

  lemma LeaderFacts(s: State, c: CallId)
    requires OneLeaderPerKey(s) && CallsOk(s)
    ensures c !in s.calls ==> c !in s.futures
    ensures c in s.calls && s.calls[c].Leading? ==> c in s.futures && s.futures[c] == None
  {
    assert c in s.calls ==> CallOk(s, c, s.calls[c]);
  }

  lemma StepKeepsCalls(s: State, step: Step)
    requires OneLeaderPerKey(s) && CallsOk(s) && Possible(s, step)
    ensures OneLeaderPerKey(Apply(s, step)) && CallsOk(Apply(s, step))
  {
    hide CallOk, CallsOk;
    LeaderFacts(s, step.call);
    match step
    case Begin(c, key) => BeginKeeps(s, c, key);
    case Complete(c, outcome) => CompleteKeeps(s, c, outcome);
    case Wake(c) => ReturnKeeps(s, c);
    case Cancel(c) => CancelKeeps(s, c);
  }

  lemma BeginKeeps(s: State, c: CallId, key: Key)
    requires OneLeaderPerKey(s) && CallsOk(s) && c !in s.calls && c !in s.futures
    ensures CallsOk(Apply(s, Begin(c, key)))
  {
    var s' := Apply(s, Begin(c, key));
    forall a | a in s'.calls ensures CallOk(s', a, s'.calls[a]) {
      if a in s.calls {
        assert CallOk(s, a, s.calls[a]);
      } else if key in s.inflight {
        assert CallOk(s, s.inflight[key], s.calls[s.inflight[key]]);
      }
    }
  }

  lemma CompleteKeeps(s: State, c: CallId, outcome: Outcome)
    requires CallsOk(s) && Possible(s, Complete(c, outcome))
    ensures CallsOk(Apply(s, Complete(c, outcome)))
  {
    var s' := Apply(s, Complete(c, outcome));
    forall a | a in s'.calls ensures CallOk(s', a, s'.calls[a]) {
      assert CallOk(s, a, s.calls[a]) && CallOk(s, c, s.calls[c]);
    }
  }

  lemma ReturnKeeps(s: State, c: CallId)
    requires CallsOk(s) && Possible(s, Wake(c))
    ensures CallsOk(Apply(s, Wake(c)))
  {
    var s' := Apply(s, Wake(c));
    forall a | a in s'.calls ensures CallOk(s', a, s'.calls[a]) {
      assert CallOk(s, a, s.calls[a]);
      if a == c {
        var leader := s.calls[c].leader;
        assert CallOk(s, leader, s.calls[leader]);
      }
    }
  }

  lemma CancelKeeps(s: State, c: CallId)
    requires CallsOk(s) && Possible(s, Cancel(c))
    ensures CallsOk(Apply(s, Cancel(c)))
  {
    var s' := Apply(s, Cancel(c));
    forall a | a in s'.calls ensures CallOk(s', a, s'.calls[a]) {
      assert CallOk(s, a, s.calls[a]);
    }
  }

  lemma FailuresFollow(s: State, step: Step)
    requires Possible(s, step)
    requires step.Begin? ==> step.call !in s.futures
    requires step.Complete? ==> step.call in s.futures && s.futures[step.call] == None
    ensures |Failures(Apply(s, step))| == |Failures(s)| + if step.Complete? && step.outcome.Raised? then 1 else 0
  {
    hide Without;
    var failed := step.Complete? && step.outcome.Raised?;
    assert Failures(Apply(s, step)) == if failed then Failures(s) + {step.call} else Failures(s);
  }

  lemma StepKeepsCount(s: State, step: Step)
    requires OneLeaderPerKey(s) && CallsOk(s) && Counted(s) && Possible(s, step)
    ensures Counted(Apply(s, step))
  {
    hide OneLeaderPerKey, CallsOk, Without, Failures;
    LeaderFacts(s, step.call);
    FailuresFollow(s, step);
  }

  lemma {:induction false} RunKeeps(s: State, steps: seq<Step>)
    requires Inv(s) && IsRun(s, steps)
    ensures Inv(After(s, steps))
    decreases |steps|
  {
    hide Inv, Possible, Apply;
    if steps != [] {
      StepKeeps(s, steps[0]);
      RunKeeps(Apply(s, steps[0]), steps[1..]);
    }
  }

  // ---------------------------------------------------------------- what callers rely on

  lemma SubsetSize(a: set<CallId>, b: set<CallId>)
    requires a <= b
    ensures |a| <= |b|
  {
    assert b == a + (b - a);
  }

  /**
   * In every reachable state: at most one computation runs per key; every submission is a
   * computation or a join; an unresolved future is in flight unless its leader was cancelled; and
   * every caller that returned got the one outcome its leader returned for the same key.
   */
  lemma CoalescingIsSound(steps: seq<Step>)
    requires IsRun(INITIAL, steps)
    ensures var s := After(INITIAL, steps);
            && (forall a, b | a in s.calls && b in s.calls && s.calls[a].Leading? && s.calls[a] == s.calls[b] :: a == b)
            && s.stats.submissions == |s.calls| == s.stats.computations + s.stats.joins
            && s.stats.computations == |s.futures|
            && s.stats.failures == |set f | f in s.futures && s.futures[f].Some? && s.futures[f].value.Raised?|
            && s.stats.failures <= s.stats.computations
            && s.futures.Keys <= s.calls.Keys
            && (forall f | f in s.futures :: s.futures[f].None? <==> f in s.inflight.Values || s.calls[f].Cancelled?)
            && (forall c | c in s.calls && s.calls[c].Returned? ::
                  var x := s.calls[c];
                  x.leader in s.futures && s.futures[x.leader] == Some(x.outcome)
                  && x.leader in s.calls && s.calls[x.leader] == Returned(x.key, x.leader, x.outcome))
  {
    hide IsRun, After;
    InitialIsInv();
    RunKeeps(INITIAL, steps);
    var s := After(INITIAL, steps);
    SubsetSize(Failures(s), s.futures.Keys);
    assert Failures(s) == set f | f in s.futures && s.futures[f].Some? && s.futures[f].value.Raised?;
    forall f | f in s.futures ensures s.futures[f].None? <==> f in s.inflight.Values || s.calls[f].Cancelled? {
      assert CallOk(s, f, s.calls[f]);
    }
    assert forall c | c in s.calls && s.calls[c].Returned? :: CallOk(s, c, s.calls[c]);
  }

  lemma InitialIsInv()
    ensures Inv(INITIAL)
  {
  }

  // ---------------------------------------------------------------- cancelled leaders

  /** The call waits on a future whose leader was cancelled. */
  predicate Stranded(s: State, c: CallId) {
    && c in s.calls && s.calls[c].Joined? && s.calls[c].leader in s.calls && s.calls[s.calls[c].leader].Cancelled?
  }

  predicate HasReturned(s: State, c: CallId) {
    c in s.calls && s.calls[c].Returned?
  }

  predicate IsCancelled(s: State, c: CallId) {
    c in s.calls && s.calls[c].Cancelled?
  }

  lemma StrandedStays(s: State, step: Step, c: CallId)
    requires CallsOk(s) && Possible(s, step) && (Stranded(s, c) || IsCancelled(s, c))
    ensures Stranded(Apply(s, step), c) || IsCancelled(Apply(s, step), c)
  {
    if Stranded(s, c) {
      assert CallOk(s, c, s.calls[c]) && CallOk(s, s.calls[c].leader, s.calls[s.calls[c].leader]);
    }
  }

  lemma {:induction false} StrandedForGood(s: State, steps: seq<Step>, c: CallId)
    requires Inv(s) && IsRun(s, steps) && (Stranded(s, c) || IsCancelled(s, c))
    ensures !HasReturned(After(s, steps), c)
    decreases |steps|
  {
    hide Possible, Apply, CallsOk, OneLeaderPerKey, Counted;
    if steps != [] {
      StepKeeps(s, steps[0]);
      StrandedStays(s, steps[0], c);
      StrandedForGood(Apply(s, steps[0]), steps[1..], c);
    }
  }

  /** A joiner whose leader is still at work, or done, can be woken. */
  lemma CanReturn(s: State, c: CallId) returns (steps: seq<Step>)
    requires Inv(s) && c in s.calls && s.calls[c].Joined? && !Stranded(s, c)
    ensures IsRun(s, steps) && HasReturned(After(s, steps), c)
  {
    var leader := s.calls[c].leader;
    assert CallOk(s, c, s.calls[c]) && CallOk(s, leader, s.calls[leader]);
    if s.calls[leader].Leading? {
      steps := [Complete(leader, Result(0)), Wake(c)];
      var s1 := Apply(s, steps[0]);
      assert steps[1..] == [Wake(c)];
      WakeReturns(s1, c);
    } else {
      steps := [Wake(c)];
      WakeReturns(s, c);
    }
  }

  lemma WakeReturns(s: State, c: CallId)
    requires Possible(s, Wake(c))
    ensures IsRun(s, [Wake(c)]) && HasReturned(After(s, [Wake(c)]), c)
  {
    assert [Wake(c)][1..] == [];
  }

  /**
   * A waiting caller can still get an outcome if and only if its leader was not cancelled:
   * cancellation is no Exception, so the future a cancelled leader leaves behind is never resolved.
   */
  lemma JoinersReturnUnlessStranded(s: State, c: CallId)
    requires Inv(s) && c in s.calls && s.calls[c].Joined?
    ensures (exists steps :: IsRun(s, steps) && HasReturned(After(s, steps), c)) <==> !Stranded(s, c)
  {
    hide Inv, IsRun, After, Stranded, HasReturned;
    if Stranded(s, c) {
      forall steps | IsRun(s, steps) ensures !HasReturned(After(s, steps), c) {
        StrandedForGood(s, steps, c);
      }
    } else {
      var steps := CanReturn(s, c);
      assert IsRun(s, steps) && HasReturned(After(s, steps), c);
    }
  }

  /** It does occur: a second caller joins, and the first is cancelled. */
  lemma StrandedIsReachable(key: Key)
    ensures var steps := [Begin(0, key), Begin(1, key), Cancel(0)];
            IsRun(INITIAL, steps) && Stranded(After(INITIAL, steps), 1)
  {
    var steps := [Begin(0, key), Begin(1, key), Cancel(0)];
    var s1 := INITIAL.(inflight := map[key := 0], futures := map[0 := None], stats := Stats(1, 1, 0, 0),
      calls := map[0 := Leading(key)]);
    var s2 := s1.(stats := Stats(2, 1, 1, 0), calls := map[0 := Leading(key), 1 := Joined(key, 0)]);
    var s3 := s2.(inflight := map[], calls := map[0 := Cancelled(key), 1 := Joined(key, 0)]);
    assert Apply(INITIAL, Begin(0, key)) == s1;
    assert Apply(s1, Begin(1, key)) == s2;
    assert Apply(s2, Cancel(0)) == s3;
    hide Apply;
    assert steps[1..] == [Begin(1, key), Cancel(0)] && [Begin(1, key), Cancel(0)][1..] == [Cancel(0)]
      && [Cancel(0)][1..] == [];
    assert IsRun(s3, []) && After(s3, []) == s3;
    assert IsRun(s2, [Cancel(0)]) && After(s2, [Cancel(0)]) == s3;
    assert IsRun(s1, [Begin(1, key), Cancel(0)]) && After(s1, [Begin(1, key), Cancel(0)]) == s3;
    assert IsRun(INITIAL, steps) && After(INITIAL, steps) == s3;
  }
}
