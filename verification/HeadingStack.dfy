/** The heading stack computes the outline of the headings seen so far. */
module HeadingStack {
  import opened Units

  ghost function Below(hs: seq<HeadingMark>, level: nat): seq<HeadingMark> {
    if hs == [] then []
    else
      var front, h := hs[..|hs| - 1], hs[|hs| - 1];
      Below(front, level) + (if h.level < level then [h] else [])
  }

  method PushHeading(stack0: seq<HeadingMark>, h: HeadingMark, ghost hs: seq<HeadingMark>)
    returns (stack: seq<HeadingMark>)
    requires stack0 == Outline(hs)
    ensures stack == Outline(hs + [h])
    ensures LevelsIncrease(stack)
  {
    stack := stack0;
    OutlineIncreases(hs);
    while stack != [] && stack[|stack| - 1].level >= h.level
      invariant LevelsIncrease(stack)
      invariant Below(stack, h.level) == Below(stack0, h.level)
    {
      stack := stack[..|stack| - 1];
    }
    AllBelow(stack, h.level);
    OutlineStep(hs, h);
    stack := stack + [h];
    OutlineIncreases(hs + [h]);
  }

  lemma {:induction false} AllBelow(hs: seq<HeadingMark>, level: nat)
    requires LevelsIncrease(hs)
    requires hs == [] || hs[|hs| - 1].level < level
    ensures Below(hs, level) == hs
  {
    if hs != [] {
      AllBelow(hs[..|hs| - 1], level);
    }
  }

  lemma {:induction false} OpenAmongIsOpen(hs: seq<HeadingMark>, n: nat)
    requires n <= |hs|
    ensures forall h | h in OpenAmong(hs, n) :: exists k | 0 <= k < n :: hs[k] == h && IsOpen(hs, k)
    ensures LevelsIncrease(OpenAmong(hs, n))
  {
    if n > 0 {
      OpenAmongIsOpen(hs, n - 1);
      var prev := OpenAmong(hs, n - 1);
      if IsOpen(hs, n - 1) {
        forall h | h in prev ensures h.level < hs[n - 1].level {
          var k :| 0 <= k < n - 1 && hs[k] == h && IsOpen(hs, k);
        }
      }
    }
  }

  /** Levels strictly increase along an outline. */
  lemma OutlineIncreases(hs: seq<HeadingMark>)
    ensures LevelsIncrease(Outline(hs))
  {
    OpenAmongIsOpen(hs, |hs|);
  }

  lemma {:induction false} OpenAmongAfter(hs: seq<HeadingMark>, h: HeadingMark, n: nat)
    requires n <= |hs|
    ensures OpenAmong(hs + [h], n) == Below(OpenAmong(hs, n), h.level)
  {
    if n > 0 {
      OpenAmongAfter(hs, h, n - 1);
      var all, prev := hs + [h], OpenAmong(hs, n - 1);
      assert IsOpen(all, n - 1) <==> IsOpen(hs, n - 1) && hs[n - 1].level < h.level by {
        assert all[|hs|] == h;
        if IsOpen(all, n - 1) {
          forall m | n - 1 < m < |hs| ensures hs[n - 1].level < hs[m].level {
            assert all[m] == hs[m];
          }
        }
      }
      assert all[n - 1] == hs[n - 1];
      if IsOpen(hs, n - 1) {
        assert OpenAmong(hs, n)[..|prev|] == prev;
      } else {
        assert OpenAmong(hs, n) == prev && OpenAmong(all, n) == OpenAmong(all, n - 1);
      }
    }
  }

  /** A new heading closes every open heading of its own level or deeper, and opens itself. */
  lemma OutlineStep(hs: seq<HeadingMark>, h: HeadingMark)
    ensures Outline(hs + [h]) == Below(Outline(hs), h.level) + [h]
  {
    OpenAmongAfter(hs, h, |hs|);
    assert IsOpen(hs + [h], |hs|);
  }

  /** A heading is in the outline exactly when no later heading closes it. */
  lemma {:induction false} OutlineMembers(hs: seq<HeadingMark>, n: nat)
    requires n <= |hs|
    ensures forall h :: h in OpenAmong(hs, n) <==> exists k | 0 <= k < n :: hs[k] == h && IsOpen(hs, k)
  {
    if n > 0 {
      OutlineMembers(hs, n - 1);
      forall h ensures h in OpenAmong(hs, n) <==> exists k | 0 <= k < n :: hs[k] == h && IsOpen(hs, k) {
        if h in OpenAmong(hs, n - 1) {
          var k :| 0 <= k < n - 1 && hs[k] == h && IsOpen(hs, k);
        }
      }
    }
  }
}
