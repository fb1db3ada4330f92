/**
 * Storing a submission's artifact, statement by statement: put the blob, commit its key, and then
 * drop the replaced blob, or take the new one back.
 */
module ArtifactUpdates {
  import opened Common
  import opened ArtifactProtocol

  /** A commit takes hold and says so, or fails, or takes hold although the caller sees it fail. */
  datatype CommitOutcome = Acknowledged | RolledBack | Unacknowledged

  class ArtifactStore {
    const timing: Timing
    var state: State

    /** Some run of the protocol led here. */
    ghost predicate Valid()
      reads this
    {
      Sound(timing) && exists steps :: IsRun(timing, INITIAL, steps) && After(timing, INITIAL, steps) == state
    }

    constructor (timing: Timing)
      requires Sound(timing)
      ensures Valid() && state == INITIAL && this.timing == timing
    {
      this.timing := timing;
      state := INITIAL;
      new;
      assert IsRun(timing, INITIAL, []) && After(timing, INITIAL, []) == state;
    }

    method Do(step: Step)
      requires Valid() && Possible(state, step) && Timely(timing, state, step)
      modifies this
      ensures Valid() && state == Apply(timing, old(state), step)
    {
      hide IsRun, After, Possible, Timely, Apply, Sound;
      ghost var steps :| IsRun(timing, INITIAL, steps) && After(timing, INITIAL, steps) == state;
      RunOneMore(timing, INITIAL, steps, step);
      state := Apply(timing, state, step);
    }

    /**
     * Stores an artifact for a new or an existing submission, from bytes (`mtime` is now) or from a
     * staged file (`mtime` is when it was staged). All or nothing: the row has the new key and the
     * replaced blob is gone, or rows and blobs are what they were; a delete that does not work
     * leaves an orphan and nothing worse. The exception is a commit that took hold unacknowledged:
     * the row has the new key and the blob is taken back.
     */
    method Store(req: RequestId, row: RowId, key: Key, mtime: real, outcome: CommitOutcome, deleteWorks: bool)
      returns (ok: bool)
      requires Valid() && req !in state.requests && key !in state.putAt
      requires mtime <= state.clock && state.clock - mtime <= timing.commitDelay
      modifies this
      ensures Valid() && ok == outcome.Acknowledged?
      ensures state.requests == old(state.requests) && state.clock == old(state.clock)
              && state.scans == old(state.scans)
      ensures state.lost == if outcome.Unacknowledged? then old(state.lost) + {key} else old(state.lost)
      ensures state.lost == {} ==> NoDanglingKey(state)
      ensures state.rows == if outcome.RolledBack? then old(state.rows) else old(state.rows)[row := Some(key)]
      ensures state.blobs ==
              var put := old(state.blobs)[key := mtime];
              if !deleteWorks then put
              else if !outcome.Acknowledged? then old(state.blobs)
              else if row in old(state.rows) && old(state.rows)[row].Some? then Without(put, old(state.rows)[row].value)
              else put
    {
      hide Inv, Sound, Apply, NoDanglingKey;
      ghost var before := state;
      ValidIsInv(this);
      NewKeyIsNew(timing, before, key);
      PutSteps(timing, before, req, row, key, mtime);
      Do(Begin(req, row));
      Do(Upload(req, key, mtime));
      if outcome.Acknowledged? {
        CommitSteps(timing, before, state, req, row, key, deleteWorks);
        Do(Commit(req));
        Do(DropReplaced(req, deleteWorks));
      } else {
        var commit := if outcome.RolledBack? then CommitFails(req) else CommitLost(req);
        FailSteps(timing, before, state, commit, row, key, deleteWorks);
        Do(commit);
        Do(Compensate(req, deleteWorks));
      }
      ValidIsInv(this);
      InvMeansNoDangling(timing, state);
      return outcome.Acknowledged?;
    }
  }

  /** The blob is put, and the request remembers which blob it replaces. */
  predicate IsPut(before: State, s: State, req: RequestId, row: RowId, key: Key, mtime: real) {
    && s.rows == before.rows && s.clock == before.clock && s.scans == before.scans && s.lost == before.lost
    && s.blobs == before.blobs[key := mtime] && key in s.putAt && s.putAt[key] == mtime
    && s.requests == before.requests[req := Uploaded(row, if row in before.rows then before.rows[row] else None, key)]
  }

  lemma PutSteps(t: Timing, s: State, req: RequestId, row: RowId, key: Key, mtime: real)
    requires req !in s.requests && key !in s.putAt && mtime <= s.clock
    ensures Possible(s, Begin(req, row)) && Possible(Apply(t, s, Begin(req, row)), Upload(req, key, mtime))
    ensures IsPut(s, Apply(t, Apply(t, s, Begin(req, row)), Upload(req, key, mtime)), req, row, key, mtime)
  {
  }

  lemma CommitSteps(t: Timing, before: State, s: State, req: RequestId, row: RowId, key: Key, works: bool)
    requires key in s.putAt && IsPut(before, s, req, row, key, s.putAt[key]) && req !in before.requests
    ensures Possible(s, Commit(req)) && Possible(Apply(t, s, Commit(req)), DropReplaced(req, works))
    ensures var s' := Apply(t, Apply(t, s, Commit(req)), DropReplaced(req, works));
            && s'.requests == before.requests && s'.clock == before.clock && s'.scans == before.scans
            && s'.lost == before.lost && s'.rows == before.rows[row := Some(key)]
            && s'.blobs == if works && row in before.rows && before.rows[row].Some?
                           then Without(s.blobs, before.rows[row].value) else s.blobs
  {
  }

  lemma FailSteps(t: Timing, before: State, s: State, commit: Step, row: RowId, key: Key, works: bool)
    requires (commit.CommitFails? || commit.CommitLost?) && commit.req !in before.requests && key !in before.blobs
    requires key in s.putAt && IsPut(before, s, commit.req, row, key, s.putAt[key])
    ensures Possible(s, commit) && Possible(Apply(t, s, commit), Compensate(commit.req, works))
    ensures var s' := Apply(t, Apply(t, s, commit), Compensate(commit.req, works));
            && s'.requests == before.requests && s'.clock == before.clock && s'.scans == before.scans
            && s'.lost == (if commit.CommitLost? then before.lost + {key} else before.lost)
            && s'.rows == (if commit.CommitLost? then before.rows[row := Some(key)] else before.rows)
            && s'.blobs == if works then before.blobs else s.blobs
  {
  }

  lemma ValidIsInv(store: ArtifactStore)
    requires store.Valid()
    ensures Inv(store.timing, store.state)
  {
    hide Inv, IsRun, After, Sound;
    var steps :| IsRun(store.timing, INITIAL, steps) && After(store.timing, INITIAL, steps) == store.state;
    InitialInv(store.timing);
    RunKeeps(store.timing, INITIAL, steps);
  }

  lemma InvMeansNoDangling(t: Timing, s: State)
    requires Inv(t, s)
    ensures s.lost == {} ==> NoDanglingKey(s)
  {
  }

  lemma NewKeyIsNew(t: Timing, s: State, key: Key)
    requires Inv(t, s) && key !in s.putAt
    ensures key !in s.blobs && forall row | row in s.rows && s.rows[row].Some? :: s.rows[row].value != key
  {
  }

  lemma {:induction false} RunOneMore(t: Timing, s: State, steps: seq<Step>, step: Step)
    requires IsRun(t, s, steps) && Possible(After(t, s, steps), step) && Timely(t, After(t, s, steps), step)
    ensures IsRun(t, s, steps + [step]) && After(t, s, steps + [step]) == Apply(t, After(t, s, steps), step)
    decreases |steps|
  {
    hide Possible, Timely, Apply;
    if steps == [] {
      assert steps + [step] == [step];
      JustOne(t, s, step);
    } else {
      RunOneMore(t, Apply(t, s, steps[0]), steps[1..], step);
      assert (steps + [step])[1..] == steps[1..] + [step];
    }
  }

  lemma JustOne(t: Timing, s: State, step: Step)
    requires Possible(s, step) && Timely(t, s, step)
    ensures IsRun(t, s, [step]) && After(t, s, [step]) == Apply(t, s, step)
  {
    assert [step][1..] == [];
  }
}
