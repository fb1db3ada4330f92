/** Orphan reconciliation and compensating deletes over an artifact store. */
module Reconcile {
  import opened Common

  /** Object storage: blobs with modification times, and keys on which an operation raises. */
  class BlobStorage {
    var blobs: map<string, real>
    const undeletable: set<string>
    const unreachable: set<string>

    constructor (blobs: map<string, real>, undeletable: set<string>, unreachable: set<string>)
      ensures this.blobs == blobs && this.undeletable == undeletable && this.unreachable == unreachable
    {
      this.blobs := blobs;
      this.undeletable := undeletable;
      this.unreachable := unreachable;
    }

    method Delete(key: string) returns (removed: bool, raised: bool)
      modifies this
      ensures raised <==> key in undeletable
      ensures removed <==> !raised && key in old(blobs)
      ensures blobs == if raised then old(blobs) else Without(old(blobs), key)
    {
      raised := key in undeletable;
      removed := !raised && key in blobs;
      if !raised {
        blobs := Without(blobs, key);
      }
    }

    /** Every key under the prefix, once, in no particular order. */
    method IterKeys(prefix: string) returns (keys: seq<string>)
      ensures Distinct(keys)
      ensures forall k :: k in keys <==> k in blobs && prefix <= k
    {
      keys := [];
      var todo := set k | k in blobs && prefix <= k;
      while todo != {}
        invariant Distinct(keys)
        invariant forall k :: k in keys || k in todo <==> k in blobs && prefix <= k
        invariant forall k | k in todo :: k !in keys
      {
        var k :| k in todo;
        keys := keys + [k];
        todo := todo - {k};
      }
    }
  }

  ghost predicate Distinct(s: seq<string>) {
    forall i, j | 0 <= i < j < |s| :: s[i] != s[j]
  }

  datatype ReconcileReport = ReconcileReport(
    scanned: nat, referenced: nat, orphanCandidates: nat, deleted: seq<string>,
    missingReferenced: set<string>, skippedYoung: seq<string>,
    existsErrors: set<string>, deleteErrors: seq<string>)

  /** What one pass does with a key under the prefix. */
  datatype Verdict = Referenced | Young | Deleted | DeleteRaised | Spared

  /** The settings of one pass and the faults of the store it runs on. */
  datatype Pass = Pass(refs: set<string>, grace: real, clock: real, delete: bool, undeletable: set<string>)

  function VerdictOn(p: Pass, mtime: real, key: string): Verdict {
    if key in p.refs then Referenced
    else if p.clock - mtime < p.grace then Young
    else if !p.delete then Spared
    else if key in p.undeletable then DeleteRaised
    else Deleted
  }

  predicate Gets(p: Pass, blobs: map<string, real>, key: string, v: Verdict) {
    key in blobs && VerdictOn(p, blobs[key], key) == v
  }

  /** The keys of a verdict, in scan order. */
  function Judged(p: Pass, blobs: map<string, real>, keys: seq<string>, v: Verdict): seq<string> {
    if keys == [] then []
    else
      var front, last := keys[..|keys| - 1], keys[|keys| - 1];
      if Gets(p, blobs, last, v) then Judged(p, blobs, front, v) + [last] else Judged(p, blobs, front, v)
  }

  function RefSet(referencedKeys: seq<Option<string>>): set<string> {
    set k | k in referencedKeys && k.Some? && k.value != "" :: k.value
  }

  /** The store after one pass. */
  function Reconciled(p: Pass, blobs: map<string, real>, prefix: string): map<string, real> {
    map k | k in blobs && !(prefix <= k && VerdictOn(p, blobs[k], k) == Deleted) :: blobs[k]
  }

  /** Referenced keys without a blob, and those whose existence could not be told. */
  method FindMissing(storage: BlobStorage, refs: set<string>) returns (missing: set<string>, errors: set<string>)
    ensures missing == refs - storage.blobs.Keys - storage.unreachable
    ensures errors == refs * storage.unreachable
  {
    missing, errors := {}, {};
    var todo := refs;
    while todo != {}
      invariant todo <= refs
      invariant missing == (refs - todo) - storage.blobs.Keys - storage.unreachable
      invariant errors == (refs - todo) * storage.unreachable
    {
      var key :| key in todo;
      if key in storage.unreachable {
        errors := errors + {key};
      } else if key !in storage.blobs {
        missing := missing + {key};
      }
      todo := todo - {key};
    }
  }

  method ReconcileOrphans(
    storage: BlobStorage, referencedKeys: seq<Option<string>>, prefix: string, grace: real, clock: real, delete: bool)
    returns (report: ReconcileReport, ghost keys: seq<string>, ghost p: Pass)
    modifies storage
    ensures p == Pass(RefSet(referencedKeys), grace, clock, delete, storage.undeletable)
    ensures Distinct(keys) && (forall k :: k in keys <==> k in old(storage.blobs) && prefix <= k)
    ensures storage.blobs == Reconciled(p, old(storage.blobs), prefix)
    ensures report.scanned == |keys| && report.referenced == |p.refs|
    ensures report.orphanCandidates == |keys| - |Judged(p, old(storage.blobs), keys, Referenced)|
    ensures report.deleted == Judged(p, old(storage.blobs), keys, Deleted)
    ensures report.skippedYoung == Judged(p, old(storage.blobs), keys, Young)
    ensures report.deleteErrors == Judged(p, old(storage.blobs), keys, DeleteRaised)
    ensures report.missingReferenced == p.refs - old(storage.blobs).Keys - storage.unreachable
    ensures report.existsErrors == p.refs * storage.unreachable
    ensures forall k | Some(k) in referencedKeys && k != "" && k in old(storage.blobs) ::
              k in storage.blobs && k !in report.deleted
    ensures forall k :: k in report.deleted <==>
              && k in old(storage.blobs) && prefix <= k && !(Some(k) in referencedKeys && k != "")
              && clock - old(storage.blobs)[k] >= grace && delete && k !in storage.undeletable
    ensures forall k :: k in storage.blobs <==> k in old(storage.blobs) && k !in report.deleted
    ensures forall k | k in storage.blobs :: storage.blobs[k] == old(storage.blobs)[k]
    ensures forall k :: k in report.skippedYoung <==>
              && k in old(storage.blobs) && prefix <= k && !(Some(k) in referencedKeys && k != "")
              && clock - old(storage.blobs)[k] < grace
    ensures forall k :: k in report.deleteErrors <==>
              && k in old(storage.blobs) && prefix <= k && !(Some(k) in referencedKeys && k != "")
              && clock - old(storage.blobs)[k] >= grace && delete && k in storage.undeletable
    ensures forall k :: k in report.missingReferenced <==>
              Some(k) in referencedKeys && k != "" && k !in old(storage.blobs) && k !in storage.unreachable
    ensures forall k :: k in report.existsErrors <==> Some(k) in referencedKeys && k != "" && k in storage.unreachable
    ensures report.scanned == |set k | k in old(storage.blobs) && prefix <= k|
    ensures report.orphanCandidates ==
              |set k | k in old(storage.blobs) && prefix <= k && !(Some(k) in referencedKeys && k != "")|
    ensures Distinct(report.deleted) && Distinct(report.skippedYoung) && Distinct(report.deleteErrors)
  {
    hide Judged, Distinct, RefSet;
    var refs := RefSet(referencedKeys);
    p := Pass(refs, grace, clock, delete, storage.undeletable);
    ghost var before := storage.blobs;
    var missing, errors := FindMissing(storage, refs);
    var listing := storage.IterKeys(prefix);
    keys := listing;
    NothingJudged(p, before);
    assert listing[..0] == [];
    var scanned, orphans := 0, 0;
    var deleted, young, failed := [], [], [];
    for i := 0 to |listing|
      invariant scanned == i
      invariant orphans == i - |Judged(p, before, listing[..i], Referenced)|
      invariant deleted == Judged(p, before, listing[..i], Deleted)
      invariant young == Judged(p, before, listing[..i], Young)
      invariant failed == Judged(p, before, listing[..i], DeleteRaised)
      invariant forall k :: k in storage.blobs <==> k in before && k !in deleted
      invariant forall k | k in storage.blobs :: storage.blobs[k] == before[k]
    {
      var key := listing[i];
      JudgeNext(p, before, listing, i);
      InPrefix(listing, i, p, before);
      scanned := scanned + 1;
      if key in refs {
        continue;
      }
      orphans := orphans + 1;
      var mtime := storage.blobs[key];
      if clock - mtime < grace {
        young := young + [key];
        continue;
      }
      if !delete {
        continue;
      }
      var removed, raised := storage.Delete(key);
      if raised {
        failed := failed + [key];
      } else if removed {
        deleted := deleted + [key];
      }
    }
    assert listing[..|listing|] == listing;
    forall k | k in before && prefix <= k ensures k in deleted <==> VerdictOn(p, before[k], k) == Deleted {
      JudgedMembers(p, before, listing, Deleted, k);
    }
    forall k | k in deleted ensures prefix <= k && k in before {
      JudgedMembers(p, before, listing, Deleted, k);
    }
    RefSetMeans(referencedKeys);
    VerdictsMean(referencedKeys, p, before, listing, prefix);
    CountsMean(referencedKeys, p, before, listing, prefix);
    JudgedDistinct(p, before, listing, Deleted);
    JudgedDistinct(p, before, listing, Young);
    JudgedDistinct(p, before, listing, DeleteRaised);
    report := ReconcileReport(scanned, |refs|, orphans, deleted, missing, young, errors, failed);
  }

  /**
   * Two passes in a row with the same references and clock: the second finds just what the first
   * left, and deletes nothing.
   */
  method ReconcileTwice(
    storage: BlobStorage, referencedKeys: seq<Option<string>>, prefix: string, grace: real, clock: real, delete: bool)
    returns (first: ReconcileReport, second: ReconcileReport)
    modifies storage
    ensures second.deleted == []
    ensures second.scanned == first.scanned - |first.deleted|
    ensures forall k :: k in second.skippedYoung <==> k in first.skippedYoung
    ensures forall k :: k in second.deleteErrors <==> k in first.deleteErrors
    ensures forall k | k in old(storage.blobs) :: k in storage.blobs <==> k !in first.deleted
  {
    hide Distinct, VerdictOn, Gets, Judged;
    ghost var blobs := storage.blobs;
    ghost var keys, p, left, q;
    first, keys, p := ReconcileOrphans(storage, referencedKeys, prefix, grace, clock, delete);
    ghost var rest := storage.blobs;
    second, left, q := ReconcileOrphans(storage, referencedKeys, prefix, grace, clock, delete);
    SecondPass(p, blobs, prefix, keys, left);
  }

  method CompensateDelete(storage: BlobStorage, key: Option<string>) returns (removed: bool)
    modifies storage
    ensures storage.blobs ==
            if key.Some? && key.value != "" && key.value !in storage.undeletable
            then Without(old(storage.blobs), key.value) else old(storage.blobs)
    ensures removed <==>
              && key.Some? && key.value != ""
              && key.value !in storage.undeletable && key.value in old(storage.blobs)
  {
    if key.None? || key.value == "" {
      return false;
    }
    var raised;
    removed, raised := storage.Delete(key.value);
  }

  // ---------------------------------------------------------------- proofs

  lemma {:induction false} JudgedMembers(p: Pass, blobs: map<string, real>, keys: seq<string>, v: Verdict, k: string)
    ensures k in Judged(p, blobs, keys, v) <==> k in keys && Gets(p, blobs, k, v)
  {
    if keys != [] {
      JudgedMembers(p, blobs, keys[..|keys| - 1], v, k);
      assert keys == keys[..|keys| - 1] + [keys[|keys| - 1]];
    }
  }

  lemma RefSetMeans(referencedKeys: seq<Option<string>>)
    ensures forall k :: k in RefSet(referencedKeys) <==> Some(k) in referencedKeys && k != ""
  {
    forall k ensures k in RefSet(referencedKeys) <==> Some(k) in referencedKeys && k != "" {
      assert Some(k) in referencedKeys && k != "" ==> Some(k).value in RefSet(referencedKeys);
    }
  }

  /** What the verdicts on the scanned keys mean in terms of the references, the clock and the faults. */
  lemma VerdictsMean(
    referencedKeys: seq<Option<string>>, p: Pass, blobs: map<string, real>, keys: seq<string>, prefix: string)
    requires p.refs == RefSet(referencedKeys) && (forall k :: k in keys <==> k in blobs && prefix <= k)
    ensures forall k :: k in Judged(p, blobs, keys, Referenced) <==>
              k in blobs && prefix <= k && Some(k) in referencedKeys && k != ""
    ensures forall k :: k in Judged(p, blobs, keys, Deleted) <==>
              && k in blobs && prefix <= k && !(Some(k) in referencedKeys && k != "")
              && p.clock - blobs[k] >= p.grace && p.delete && k !in p.undeletable
    ensures forall k :: k in Judged(p, blobs, keys, Young) <==>
              && k in blobs && prefix <= k && !(Some(k) in referencedKeys && k != "")
              && p.clock - blobs[k] < p.grace
    ensures forall k :: k in Judged(p, blobs, keys, DeleteRaised) <==>
              && k in blobs && prefix <= k && !(Some(k) in referencedKeys && k != "")
              && p.clock - blobs[k] >= p.grace && p.delete && k in p.undeletable
  {
    hide Judged, RefSet;
    RefSetMeans(referencedKeys);
    forall k
      ensures k in Judged(p, blobs, keys, Referenced) <==>
                k in blobs && prefix <= k && Some(k) in referencedKeys && k != ""
      ensures k in Judged(p, blobs, keys, Deleted) <==>
                && k in blobs && prefix <= k && !(Some(k) in referencedKeys && k != "")
                && p.clock - blobs[k] >= p.grace && p.delete && k !in p.undeletable
      ensures k in Judged(p, blobs, keys, Young) <==>
                && k in blobs && prefix <= k && !(Some(k) in referencedKeys && k != "")
                && p.clock - blobs[k] < p.grace
      ensures k in Judged(p, blobs, keys, DeleteRaised) <==>
                && k in blobs && prefix <= k && !(Some(k) in referencedKeys && k != "")
                && p.clock - blobs[k] >= p.grace && p.delete && k in p.undeletable
    {
      JudgedMembers(p, blobs, keys, Referenced, k);
      JudgedMembers(p, blobs, keys, Deleted, k);
      JudgedMembers(p, blobs, keys, Young, k);
      JudgedMembers(p, blobs, keys, DeleteRaised, k);
    }
  }

  /** How many keys were scanned, and how many of them no row names. */
  lemma CountsMean(
    referencedKeys: seq<Option<string>>, p: Pass, blobs: map<string, real>, keys: seq<string>, prefix: string)
    requires p.refs == RefSet(referencedKeys)
    requires Distinct(keys) && (forall k :: k in keys <==> k in blobs && prefix <= k)
    ensures |keys| == |set k | k in blobs && prefix <= k|
    ensures |keys| - |Judged(p, blobs, keys, Referenced)|
            == |set k | k in blobs && prefix <= k && !(Some(k) in referencedKeys && k != "")|
  {
    hide Judged, Distinct, RefSet;
    VerdictsMean(referencedKeys, p, blobs, keys, prefix);
    var named := Judged(p, blobs, keys, Referenced);
    JudgedDistinct(p, blobs, keys, Referenced);
    DistinctSize(keys);
    DistinctSize(named);
    var scanned := set k | k in blobs && prefix <= k;
    var orphans := set k | k in blobs && prefix <= k && !(Some(k) in referencedKeys && k != "");
    var listed, rows := set k | k in keys, set k | k in named;
    assert scanned == listed;
    assert rows <= scanned && orphans == scanned - rows;
  }

  lemma NothingJudged(p: Pass, blobs: map<string, real>)
    ensures forall v :: Judged(p, blobs, [], v) == []
  {
  }

  /** Looking at one more key adds it to the keys of its verdict and to no others. */
  lemma JudgeNext(p: Pass, blobs: map<string, real>, keys: seq<string>, i: nat)
    requires i < |keys|
    ensures forall v :: Judged(p, blobs, keys[..i + 1], v)
                        == if Gets(p, blobs, keys[i], v) then Judged(p, blobs, keys[..i], v) + [keys[i]]
                           else Judged(p, blobs, keys[..i], v)
  {
    assert keys[..i + 1][..i] == keys[..i];
  }

  /** A key not yet looked at has not been deleted. */
  lemma InPrefix(keys: seq<string>, i: nat, p: Pass, blobs: map<string, real>)
    requires i < |keys| && Distinct(keys)
    ensures keys[i] !in Judged(p, blobs, keys[..i], Deleted)
  {
    JudgedMembers(p, blobs, keys[..i], Deleted, keys[i]);
  }

  /** Every scanned key is accounted for by exactly one verdict. */
  lemma {:induction false} VerdictsAccountForAll(p: Pass, blobs: map<string, real>, keys: seq<string>)
    requires forall k | k in keys :: k in blobs
    ensures |keys| == |Judged(p, blobs, keys, Referenced)| + |Judged(p, blobs, keys, Young)|
            + |Judged(p, blobs, keys, Deleted)|
                      + |Judged(p, blobs, keys, DeleteRaised)| + |Judged(p, blobs, keys, Spared)|
    decreases |keys|
  {
    if keys != [] {
      var n := |keys| - 1;
      VerdictsAccountForAll(p, blobs, keys[..n]);
      JudgeNext(p, blobs, keys, n);
      assert keys[..n + 1] == keys;
    }
  }

  /**
   * With working deletes, what is left under the prefix is what is referenced and what is young;
   * a referenced blob is never deleted, and a second pass changes nothing more.
   */
  lemma ReconcileIsFixpoint(p: Pass, blobs: map<string, real>, prefix: string)
    ensures var left := Reconciled(p, blobs, prefix);
            && (forall k :: k in left && prefix <= k <==>
                  k in blobs && prefix <= k &&
                  (k in p.refs || p.clock - blobs[k] < p.grace || !p.delete || k in p.undeletable))
            && (forall k | k in blobs && (k in p.refs || !(prefix <= k)) :: k in left)
            && Reconciled(p, left, prefix) == left
            && (forall k | k in left && prefix <= k :: VerdictOn(p, left[k], k) != Deleted)
  {
  }

  /** Distinct keys are as many as their set. */
  lemma {:induction false} DistinctSize(keys: seq<string>)
    requires Distinct(keys)
    ensures |set k | k in keys| == |keys|
  {
    var elements := set k | k in keys;
    if keys != [] {
      var n := |keys| - 1;
      DistinctSize(keys[..n]);
      assert keys == keys[..n] + [keys[n]];
      assert elements == (set k | k in keys[..n]) + {keys[n]};
    }
  }

  lemma {:induction false} JudgedDistinct(p: Pass, blobs: map<string, real>, keys: seq<string>, v: Verdict)
    requires Distinct(keys)
    ensures Distinct(Judged(p, blobs, keys, v))
  {
    if keys != [] {
      var n := |keys| - 1;
      JudgedDistinct(p, blobs, keys[..n], v);
      JudgedMembers(p, blobs, keys[..n], v, keys[n]);
    }
  }

  lemma {:induction false} NoneJudged(p: Pass, blobs: map<string, real>, keys: seq<string>, v: Verdict)
    requires forall k | k in keys :: !Gets(p, blobs, k, v)
    ensures Judged(p, blobs, keys, v) == []
  {
    hide Gets;
    if keys != [] {
      NoneJudged(p, blobs, keys[..|keys| - 1], v);
    }
  }

  /** Distinct keys less distinct keys among them are as many as the difference says. */
  lemma Remaining(keys: seq<string>, gone: seq<string>, left: seq<string>)
    requires Distinct(keys) && Distinct(gone) && Distinct(left)
    requires forall k | k in gone :: k in keys
    requires forall k :: k in left <==> k in keys && k !in gone
    ensures |left| == |keys| - |gone|
  {
    hide Distinct;
    DistinctSize(keys);
    DistinctSize(left);
    DistinctSize(gone);
    var all, removed := set k | k in keys, set k | k in gone;
    assert removed <= all && (set k | k in left) == all - removed;
  }

  /** A key that a pass leaves gets the verdict it got, which was not that it be deleted. */
  lemma SameVerdict(p: Pass, blobs: map<string, real>, prefix: string, k: string)
    requires prefix <= k
    ensures var rest := Reconciled(p, blobs, prefix);
            && !Gets(p, rest, k, Deleted)
            && (forall v | v != Deleted :: Gets(p, rest, k, v) <==> Gets(p, blobs, k, v))
            && (k in rest <==> k in blobs && !Gets(p, blobs, k, Deleted))
  {
    hide VerdictOn;
  }

  lemma OutsideStays(p: Pass, blobs: map<string, real>, prefix: string, k: string)
    requires k in blobs && !(prefix <= k)
    ensures k in Reconciled(p, blobs, prefix)
  {
    hide VerdictOn;
  }

  /** What the second of two passes finds among the keys that the first one left. */
  lemma SecondPass(p: Pass, blobs: map<string, real>, prefix: string, keys: seq<string>, left: seq<string>)
    requires Distinct(keys) && (forall k :: k in keys <==> k in blobs && prefix <= k)
    requires Distinct(left) && (forall k :: k in left <==> k in Reconciled(p, blobs, prefix) && prefix <= k)
    ensures var rest := Reconciled(p, blobs, prefix);
            && Judged(p, rest, left, Deleted) == []
            && |left| == |keys| - |Judged(p, blobs, keys, Deleted)|
            && (forall k :: k in Judged(p, rest, left, Young) <==> k in Judged(p, blobs, keys, Young))
            && (forall k :: k in Judged(p, rest, left, DeleteRaised) <==> k in Judged(p, blobs, keys, DeleteRaised))
            && (forall k | k in blobs :: k in rest <==> k !in Judged(p, blobs, keys, Deleted))
  {
    hide Distinct, VerdictOn, Judged, Gets, Reconciled;
    var rest, gone := Reconciled(p, blobs, prefix), Judged(p, blobs, keys, Deleted);
    forall v, k | v != Deleted ensures k in Judged(p, rest, left, v) <==> k in Judged(p, blobs, keys, v) {
      JudgedMembers(p, rest, left, v, k);
      JudgedMembers(p, blobs, keys, v, k);
      if prefix <= k { SameVerdict(p, blobs, prefix, k); }
      GetsIn(p, blobs, k, v);
    }
    forall k ensures k in gone <==> k in keys && Gets(p, blobs, k, Deleted) {
      JudgedMembers(p, blobs, keys, Deleted, k);
    }
    forall k | k in left ensures !Gets(p, rest, k, Deleted) {
      SameVerdict(p, blobs, prefix, k);
    }
    NoneJudged(p, rest, left, Deleted);
    forall k ensures k in left <==> k in keys && k !in gone {
      if prefix <= k { SameVerdict(p, blobs, prefix, k); }
    }
    forall k | k in blobs ensures k in rest <==> k !in gone {
      if prefix <= k { SameVerdict(p, blobs, prefix, k); } else { OutsideStays(p, blobs, prefix, k); }
    }
    JudgedDistinct(p, blobs, keys, Deleted);
    Remaining(keys, gone, left);
  }

  lemma GetsIn(p: Pass, blobs: map<string, real>, k: string, v: Verdict)
    ensures Gets(p, blobs, k, v) ==> k in blobs
    ensures forall prefix :: Gets(p, Reconciled(p, blobs, prefix), k, v) ==> k in Reconciled(p, blobs, prefix)
  {
    hide Reconciled;
  }

  /** A later pass with the same references leaves the same whether or not an earlier one ran. */
  lemma EarlierPassMakesNoDifference(p: Pass, later: real, blobs: map<string, real>, prefix: string)
    requires p.clock <= later
    ensures Reconciled(p.(clock := later), Reconciled(p, blobs, prefix), prefix) == Reconciled(p.(clock := later),
            blobs, prefix)
  {
    var q := p.(clock := later);
    var twice, once := Reconciled(q, Reconciled(p, blobs, prefix), prefix), Reconciled(q, blobs, prefix);
    forall k ensures k in twice <==> k in once {
      if k in blobs {
        assert VerdictOn(p, blobs[k], k) == Deleted ==> VerdictOn(q, blobs[k], k) == Deleted;
      }
    }
  }
}
