/** Greedy packing of consecutive units under a character budget. */
module Packing {
  import opened Text
  import opened Units

  function Flatten(groups: seq<seq<LogicalUnit>>): seq<LogicalUnit> {
    if groups == [] then [] else groups[0] + Flatten(groups[1..])
  }

  /** The test by which a unit may join the group built so far. */
  predicate Joins(group: seq<LogicalUnit>, u: LogicalUnit, maxChars: nat)
    requires group != []
  {
    u.charEnd as int - group[0].charStart <= maxChars && u.charStart >= group[|group| - 1].charStart
  }

  /** Every unit of the group joined it in turn. */
  ghost predicate Grown(group: seq<LogicalUnit>, maxChars: nat) {
    && group != []
    && (forall k | 1 <= k < |group| :: Joins(group[..k], group[k], maxChars))
  }

  /** Each group takes as many units as may join it, so the next group begins with one that may not. */
  ghost predicate Greedy(groups: seq<seq<LogicalUnit>>, maxChars: nat) {
    && (forall g | 0 <= g < |groups| :: Grown(groups[g], maxChars))
    && (forall g | 0 <= g < |groups| - 1 :: MustBreak(groups[g], groups[g + 1], maxChars))
  }

  ghost predicate MustBreak(group: seq<LogicalUnit>, next: seq<LogicalUnit>, maxChars: nat) {
    group != [] && next != [] && !Joins(group, next[0], maxChars)
  }

  method Pack(units: seq<LogicalUnit>, maxChars: nat) returns (groups: seq<seq<LogicalUnit>>)
    ensures Flatten(groups) == units
    ensures Greedy(groups, maxChars)
    ensures forall group | group in groups :: group != []
    // A unit joined its group: the group still spans at most the budget, and the unit comes no earlier.
    ensures forall g, k | 0 <= g < |groups| && 1 <= k < |groups[g]| ::
              && groups[g][k].charEnd - groups[g][0].charStart <= maxChars
              && groups[g][k].charStart >= groups[g][k - 1].charStart
    // The first unit of the next group could not.
    ensures forall g | 0 <= g < |groups| - 1 ::
              || groups[g + 1][0].charEnd - groups[g][0].charStart > maxChars
              || groups[g + 1][0].charStart < groups[g][|groups[g]| - 1].charStart
  {
    hide Greedy, Grown, Joins, MustBreak;
    groups := [];
    var current: seq<LogicalUnit> := [];
    NoGroups(maxChars);
    for i := 0 to |units|
      invariant Flatten(groups) + current == units[..i]
      invariant Greedy(groups, maxChars)
      invariant current == [] ==> groups == []
      invariant current != [] ==> Grown(current, maxChars) && Closed(groups, current, maxChars)
    {
      var u := units[i];
      assert units[..i + 1] == units[..i] + [u];
      if current == [] {
        current := [u];
        BeginGroup(groups, [], u, maxChars);
      } else if Joins(current, u, maxChars) {
        GrowOne(groups, current, u, maxChars);
        current := current + [u];
      } else {
        CloseGroup(groups, current, maxChars);
        BeginGroup(groups + [current], current, u, maxChars);
        groups := groups + [current];
        current := [u];
      }
    }
    assert units[..|units|] == units;
    if current != [] {
      CloseGroup(groups, current, maxChars);
      groups := groups + [current];
    }
    GreedyMeans(groups, maxChars);
  }

  lemma GreedyMeans(groups: seq<seq<LogicalUnit>>, maxChars: nat)
    requires Greedy(groups, maxChars)
    ensures forall group | group in groups :: group != []
    ensures forall g, k | 0 <= g < |groups| && 1 <= k < |groups[g]| ::
              && groups[g][k].charEnd - groups[g][0].charStart <= maxChars
              && groups[g][k].charStart >= groups[g][k - 1].charStart
    ensures forall g | 0 <= g < |groups| - 1 ::
              || groups[g + 1][0].charEnd - groups[g][0].charStart > maxChars
              || groups[g + 1][0].charStart < groups[g][|groups[g]| - 1].charStart
  {
    forall g, k | 0 <= g < |groups| && 1 <= k < |groups[g]|
      ensures groups[g][k].charEnd - groups[g][0].charStart <= maxChars
      ensures groups[g][k].charStart >= groups[g][k - 1].charStart
    {
      assert Grown(groups[g], maxChars);
      assert Joins(groups[g][..k], groups[g][k], maxChars);
    }
    forall g | 0 <= g < |groups| - 1
      ensures || groups[g + 1][0].charEnd - groups[g][0].charStart > maxChars
              || groups[g + 1][0].charStart < groups[g][|groups[g]| - 1].charStart
    {
      assert MustBreak(groups[g], groups[g + 1], maxChars);
    }
  }

  /** The last of the groups ends where the current one begins because it had to. */
  ghost predicate Closed(groups: seq<seq<LogicalUnit>>, current: seq<LogicalUnit>, maxChars: nat) {
    groups == [] || MustBreak(groups[|groups| - 1], current, maxChars)
  }

  lemma NoGroups(maxChars: nat)
    ensures Greedy([], maxChars)
  {
  }

  lemma BeginGroup(groups: seq<seq<LogicalUnit>>, previous: seq<LogicalUnit>, u: LogicalUnit, maxChars: nat)
    requires groups == [] || (groups[|groups| - 1] == previous != [] && !Joins(previous, u, maxChars))
    ensures Grown([u], maxChars) && Closed(groups, [u], maxChars)
  {
  }

  lemma CloseGroup(groups: seq<seq<LogicalUnit>>, current: seq<LogicalUnit>, maxChars: nat)
    requires Greedy(groups, maxChars) && Grown(current, maxChars) && Closed(groups, current, maxChars)
    ensures Greedy(groups + [current], maxChars)
    ensures Flatten(groups + [current]) == Flatten(groups) + current
  {
    hide Grown, MustBreak;
    FlattenAppend(groups, current);
    var all := groups + [current];
    forall g | 0 <= g < |all| - 1 ensures MustBreak(all[g], all[g + 1], maxChars) {
      if g + 1 < |groups| {
        assert MustBreak(groups[g], groups[g + 1], maxChars);
      }
    }
  }

  lemma GrowOne(groups: seq<seq<LogicalUnit>>, group: seq<LogicalUnit>, u: LogicalUnit, maxChars: nat)
    requires Grown(group, maxChars) && Joins(group, u, maxChars) && Closed(groups, group, maxChars)
    ensures Grown(group + [u], maxChars) && Closed(groups, group + [u], maxChars)
  {
    var all := group + [u];
    forall k | 1 <= k < |all| ensures Joins(all[..k], all[k], maxChars) {
      if k < |group| {
        assert Joins(group[..k], group[k], maxChars);
        assert all[..k] == group[..k];
      } else {
        assert all[..k] == group;
      }
    }
  }

  lemma {:induction false} FlattenAppend(groups: seq<seq<LogicalUnit>>, last: seq<LogicalUnit>)
    ensures Flatten(groups + [last]) == Flatten(groups) + last
  {
    if groups == [] {
      assert Flatten([last]) == last + Flatten([]);
    } else {
      assert (groups + [last])[1..] == groups[1..] + [last];
      FlattenAppend(groups[1..], last);
    }
  }

  // ---------------------------------------------------------------- optimality

  function GroupLength(group: seq<LogicalUnit>): int {
    if group == [] then 0 else group[|group| - 1].charEnd - group[0].charStart
  }

  /** Units in document order, each within the budget. */
  ghost predicate Packable(units: seq<LogicalUnit>, maxChars: nat) {
    && Ordered(UnitSpans(units))
    && (forall k | 0 <= k < |units| :: units[k].charEnd - units[k].charStart <= maxChars)
  }

  lemma PackableOrder(units: seq<LogicalUnit>, maxChars: nat, i: nat, j: nat)
    requires Packable(units, maxChars) && i <= j < |units|
    ensures units[i].charStart <= units[j].charStart && units[i].charEnd <= units[j].charEnd
  {
    var spans := UnitSpans(units);
    assert spans[i].lo < spans[i].hi && spans[j].lo < spans[j].hi;
    if i < j {
      assert spans[i].hi <= spans[j].lo;
    }
  }

  /** Every group fits the budget. */
  lemma GreedyFits(units: seq<LogicalUnit>, groups: seq<seq<LogicalUnit>>, maxChars: nat, g: nat)
    requires Packable(units, maxChars) && Flatten(groups) == units && Greedy(groups, maxChars) && g < |groups|
    ensures groups[g] != [] && GroupLength(groups[g]) <= maxChars
  {
    var group := groups[g];
    assert Grown(group, maxChars);
    if |group| == 1 {
      GroupAt(groups, g);
      var at := GroupStart(groups, g);
      assert group[0] == units[at..at + 1][0] == units[at];
    } else {
      assert Joins(group[..|group| - 1], group[|group| - 1], maxChars);
    }
  }

  /** Where group `g` begins among the flattened units. */
  function GroupStart(groups: seq<seq<LogicalUnit>>, g: nat): nat
    requires g <= |groups|
  {
    if g == 0 then 0 else |groups[0]| + GroupStart(groups[1..], g - 1)
  }

  lemma {:induction false} GroupAt(groups: seq<seq<LogicalUnit>>, g: nat)
    requires g < |groups|
    ensures GroupStart(groups, g + 1) == GroupStart(groups, g) + |groups[g]| <= |Flatten(groups)|
    ensures Flatten(groups)[GroupStart(groups, g)..GroupStart(groups, g + 1)] == groups[g]
  {
    var flat := Flatten(groups);
    assert flat[|groups[0]|..] == Flatten(groups[1..]);
    if g > 0 {
      GroupAt(groups[1..], g - 1);
      var lo, hi := GroupStart(groups[1..], g - 1), GroupStart(groups[1..], g);
      assert flat[|groups[0]| + lo..|groups[0]| + hi] == flat[|groups[0]|..][lo..hi];
    }
  }

  lemma {:induction false} GroupsEnd(groups: seq<seq<LogicalUnit>>)
    ensures GroupStart(groups, |groups|) == |Flatten(groups)|
  {
    if groups != [] {
      GroupsEnd(groups[1..]);
    }
  }

  lemma GreedyTail(gs: seq<seq<LogicalUnit>>, maxChars: nat)
    requires gs != [] && Greedy(gs, maxChars)
    ensures Greedy(gs[1..], maxChars)
  {
    hide Grown, MustBreak;
    forall g | 0 <= g < |gs[1..]| - 1 ensures MustBreak(gs[1..][g], gs[1..][g + 1], maxChars) {
      assert MustBreak(gs[g + 1], gs[g + 1 + 1], maxChars);
    }
  }

  /** A greedy group is followed by a unit that may not join it. */
  lemma NextMustBreak(gs: seq<seq<LogicalUnit>>, maxChars: nat)
    requires gs != [] && Greedy(gs, maxChars) && |gs[0]| < |Flatten(gs)|
    ensures gs[0] != [] && !Joins(gs[0], Flatten(gs)[|gs[0]|], maxChars)
  {
    assert Grown(gs[0], maxChars);
    hide Joins;
    assert Flatten(gs)[|gs[0]|..] == Flatten(gs[1..]);
    assert gs[1..] != [];
    assert MustBreak(gs[0], gs[0 + 1], maxChars);
    assert Flatten(gs)[|gs[0]|] == Flatten(gs[1..])[0] == gs[1][0];
  }

  /** The first greedy group reaches at least as far as a fitting group that begins no later. */
  lemma FirstGroupReaches(
    units: seq<LogicalUnit>, maxChars: nat, i: nat, j: nat, mine: seq<seq<LogicalUnit>>, first: seq<LogicalUnit>)
    requires Packable(units, maxChars) && j <= i < |units|
    requires mine != [] && Flatten(mine) == units[i..] && Greedy(mine, maxChars)
    requires j + |first| <= |units| && first == units[j..j + |first|] && GroupLength(first) <= maxChars
    requires i < j + |first|
    ensures i + |mine[0]| >= j + |first|
  {
    assert Grown(mine[0], maxChars);
    var i', j' := i + |mine[0]|, j + |first|;
    assert mine[0] == Flatten(mine)[..|mine[0]|] == units[i..i'];
    hide Greedy, Packable, Grown, Flatten;
    assert first[0] == units[j] && first[|first| - 1] == units[j' - 1];
    assert mine[0][0] == units[i] && mine[0][|mine[0]| - 1] == units[i' - 1];
    PackableOrder(units, maxChars, j, i);
    if i' < j' {
      PackableOrder(units, maxChars, i', j' - 1);
      PackableOrder(units, maxChars, i' - 1, i');
      assert Flatten(mine)[|mine[0]|] == units[i'];
      NextMustBreak(mine, maxChars);
      assert false;
    }
  }

  /**
   * Greedy stays ahead: greedy groups of the units from `i` on are no more than any fitting
   * groups of the units from `j <= i` on.
   */
  lemma {:induction false} GreedyStaysAhead(
    units: seq<LogicalUnit>, maxChars: nat, i: nat, j: nat,
    mine: seq<seq<LogicalUnit>>, other: seq<seq<LogicalUnit>>)
    requires Packable(units, maxChars) && j <= i <= |units|
    requires Flatten(mine) == units[i..] && Greedy(mine, maxChars)
    requires Flatten(other) == units[j..]
    requires forall g | 0 <= g < |other| :: GroupLength(other[g]) <= maxChars
    ensures |mine| <= |other|
    decreases |other|
  {
    if mine == [] {
    } else {
      assert Grown(mine[0], maxChars);
      hide Grown, Joins, Packable;
      assert i < |units| by {
        assert |units[i..]| >= |mine[0]|;
      }
      var first, j' := other[0], j + |other[0]|;
      assert Flatten(other[1..]) == units[j'..] by {
        assert units[j..][|first|..] == units[j'..];
      }
      if j' <= i {
        GreedyStaysAhead(units, maxChars, i, j', mine, other[1..]);
        assert |mine| <= |other| - 1;
      } else {
        var i' := i + |mine[0]|;
        assert Flatten(mine[1..]) == units[i'..] by {
          assert units[i..][|mine[0]|..] == units[i'..];
        }
        FirstGroupReaches(units, maxChars, i, j, mine, first);
        GreedyTail(mine, maxChars);
        GreedyStaysAhead(units, maxChars, i', j', mine[1..], other[1..]);
      }
    }
  }

  /** No order-preserving partition that fits the budget has fewer groups. */
  lemma GreedyIsOptimal(
    units: seq<LogicalUnit>, maxChars: nat, mine: seq<seq<LogicalUnit>>, other: seq<seq<LogicalUnit>>)
    requires Packable(units, maxChars)
    requires Flatten(mine) == units && Greedy(mine, maxChars)
    requires Flatten(other) == units && forall g | 0 <= g < |other| :: GroupLength(other[g]) <= maxChars
    ensures |mine| <= |other|
    ensures forall g | 0 <= g < |mine| :: mine[g] != [] && GroupLength(mine[g]) <= maxChars
  {
    assert units[0..] == units;
    GreedyStaysAhead(units, maxChars, 0, 0, mine, other);
    forall g | 0 <= g < |mine| ensures mine[g] != [] && GroupLength(mine[g]) <= maxChars {
      GreedyFits(units, mine, maxChars, g);
    }
  }
}
