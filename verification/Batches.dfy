/** Grouping planned nodes by dependency level with a counting sort. */
module Batches {
  import opened Sequences

  predicate Leveled(s: seq<nat>, levels: seq<nat>) {
    forall i | 0 <= i < |s| :: s[i] < |levels|
  }

  /** The nodes of `s` whose level is `l`, in order. `levels` maps a node to its level. */
  function AtLevel(s: seq<nat>, levels: seq<nat>, l: nat): seq<nat>
    requires Leveled(s, levels)
  {
    if s == [] then []
    else
      var v := s[|s| - 1];
      var rest := AtLevel(s[..|s| - 1], levels, l);
      if levels[v] == l then rest + [v] else rest
  }

  lemma {:induction false} AtLevelMembers(s: seq<nat>, levels: seq<nat>, l: nat)
    requires Leveled(s, levels)
    ensures forall v: nat :: v in AtLevel(s, levels, l) <==> v in s && levels[v] == l
  {
    if s != [] {
      AtLevelMembers(s[..|s| - 1], levels, l);
      assert s == s[..|s| - 1] + [s[|s| - 1]];
    }
  }

  /** A level keeps the order of the list. */
  lemma {:induction false} AtLevelRestricts(s: seq<nat>, levels: seq<nat>, l: nat)
    requires Leveled(s, levels)
    ensures AtLevel(s, levels, l) == Restrict(s, set v: nat | v < |levels| && levels[v] == l)
  {
    if s != [] {
      AtLevelRestricts(s[..|s| - 1], levels, l);
    }
  }

  /** How many nodes of `s` lie on the first `l` levels. */
  function Before(s: seq<nat>, levels: seq<nat>, l: nat): (n: nat)
    requires Leveled(s, levels)
  {
    if l == 0 then 0 else Before(s, levels, l - 1) + |AtLevel(s, levels, l - 1)|
  }

  lemma AtLevelStep(s: seq<nat>, levels: seq<nat>, i: nat, l: nat)
    requires Leveled(s, levels)
    requires i < |s|
    ensures AtLevel(s[..i + 1], levels, l) ==
            AtLevel(s[..i], levels, l) + if levels[s[i]] == l then [s[i]] else []
  {
    assert s[..i + 1][..i] == s[..i];
  }

  lemma {:induction false} AtLevelPrefix(s: seq<nat>, levels: seq<nat>, i: nat, l: nat)
    requires Leveled(s, levels)
    requires i <= |s|
    ensures |AtLevel(s[..i], levels, l)| <= |AtLevel(s, levels, l)|
    decreases |s| - i
  {
    if i < |s| {
      AtLevelStep(s, levels, i, l);
      AtLevelPrefix(s, levels, i + 1, l);
    } else {
      assert s[..i] == s;
    }
  }

  lemma {:induction false} BeforeMonotone(s: seq<nat>, levels: seq<nat>, l: nat, m: nat)
    requires Leveled(s, levels)
    requires l <= m
    ensures Before(s, levels, l) <= Before(s, levels, m)
    ensures l < m ==> Before(s, levels, l) + |AtLevel(s, levels, l)| <= Before(s, levels, m)
  {
    if l + 1 < m {
      BeforeMonotone(s, levels, l, m - 1);
    }
  }

  /** Each node is on one level, so the levels add up to the whole list. */
  lemma {:induction false} BeforeAdds(s: seq<nat>, levels: seq<nat>, i: nat, l: nat)
    requires Leveled(s, levels)
    requires i < |s|
    ensures Before(s[..i + 1], levels, l) == Before(s[..i], levels, l) + if levels[s[i]] < l then 1 else 0
  {
    if l > 0 {
      BeforeAdds(s, levels, i, l - 1);
      AtLevelStep(s, levels, i, l - 1);
    }
  }

  lemma {:induction false} BeforeEmpty(levels: seq<nat>, l: nat)
    ensures Before([], levels, l) == 0
  {
    if l > 0 {
      BeforeEmpty(levels, l - 1);
    }
  }

  lemma BeforeAll(s: seq<nat>, levels: seq<nat>, count: nat)
    requires Leveled(s, levels) && forall k | 0 <= k < |s| :: levels[s[k]] < count
    ensures Before(s, levels, count) == |s|
  {
    BeforeEmpty(levels, count);
    assert s[..0] == [];
    for i := 0 to |s|
      invariant Before(s[..i], levels, count) == i
    {
      BeforeAdds(s, levels, i, count);
    }
    assert s[..|s|] == s;
  }

  /** First pass: `counts[l + 1]` is the size of level `l`. */
  method CountLevels(s: seq<nat>, levels: seq<nat>, count: nat) returns (counts: seq<nat>)
    requires Leveled(s, levels) && forall k | 0 <= k < |s| :: levels[s[k]] < count
    ensures |counts| == count + 1 && counts[0] == 0
    ensures forall m | 0 < m <= count :: counts[m] == |AtLevel(s, levels, m - 1)|
  {
    counts := seq(count + 1, _ => 0);
    assert s[..0] == [];
    for i := 0 to |s|
      invariant |counts| == count + 1 && counts[0] == 0
      invariant forall m | 0 < m <= count :: counts[m] == |AtLevel(s[..i], levels, m - 1)|
    {
      hide AtLevel;
      var own := levels[s[i]];
      ghost var before := counts;
      counts := counts[own + 1 := counts[own + 1] + 1];
      forall m | 0 < m <= count ensures counts[m] == |AtLevel(s[..i + 1], levels, m - 1)| {
        AtLevelStep(s, levels, i, m - 1);
        assert before[m] == |AtLevel(s[..i], levels, m - 1)|;
      }
    }
    assert s[..|s|] == s;
  }

  method Largest(counts: seq<nat>) returns (m: nat)
    ensures forall j | 0 <= j < |counts| :: counts[j] <= m
    ensures m == 0 || exists j | 0 <= j < |counts| :: counts[j] == m
  {
    m := 0;
    for i := 0 to |counts|
      invariant forall j | 0 <= j < i :: counts[j] <= m
      invariant m == 0 || exists j | 0 <= j < i :: counts[j] == m
    {
      if m < counts[i] {
        m := counts[i];
      }
    }
  }

  /** Second pass: running sums turn level sizes into level offsets. */
  method PartialSums(ghost s: seq<nat>, ghost levels: seq<nat>, counts: seq<nat>) returns (offsets: seq<nat>)
    requires Leveled(s, levels)
    requires counts != [] && counts[0] == 0
    requires forall m | 0 < m < |counts| :: counts[m] == |AtLevel(s, levels, m - 1)|
    ensures |offsets| == |counts|
    ensures forall l | 0 <= l < |offsets| :: offsets[l] == Before(s, levels, l)
  {
    hide AtLevel;
    offsets := [counts[0]];
    for l := 1 to |counts|
      invariant |offsets| == l
      invariant forall m | 0 <= m < l :: offsets[m] == Before(s, levels, m)
    {
      offsets := offsets + [offsets[l - 1] + counts[l]];
    }
  }

  /** The run of level `l` after the first `i` nodes have been placed. */
  ghost predicate Placed(s: seq<nat>, levels: seq<nat>, i: nat, l: nat, placed: seq<nat>, cursor: nat)
    requires i <= |s| && Leveled(s, levels)
  {
    && cursor == Before(s, levels, l) + |AtLevel(s[..i], levels, l)|
    && cursor <= |placed|
    && placed[Before(s, levels, l)..cursor] == AtLevel(s[..i], levels, l)
  }

  ghost predicate AllPlaced(s: seq<nat>, levels: seq<nat>, count: nat, i: nat, placed: seq<nat>, cursor: seq<nat>)
    requires i <= |s| && Leveled(s, levels) && count <= |cursor|
  {
    forall l | 0 <= l < count :: Placed(s, levels, i, l, placed, cursor[l])
  }

  /** The cursor of the next node's level still has room before the level ends. */
  lemma Room(s: seq<nat>, levels: seq<nat>, count: nat, i: nat)
    requires Leveled(s, levels) && forall k | 0 <= k < |s| :: levels[s[k]] < count
    requires i < |s|
    ensures var own := levels[s[i]];
      Before(s, levels, own) + |AtLevel(s[..i], levels, own)| <
      Before(s, levels, own) + |AtLevel(s, levels, own)| <= |s|
  {
    var own := levels[s[i]];
    AtLevelStep(s, levels, i, own);
    AtLevelPrefix(s, levels, i + 1, own);
    BeforeMonotone(s, levels, own, count);
    BeforeAll(s, levels, count);
  }

  lemma PlaceOwn(s: seq<nat>, levels: seq<nat>, i: nat, placed: seq<nat>, cursor: nat)
    requires i < |s| && Leveled(s, levels)
    requires Placed(s, levels, i, levels[s[i]], placed, cursor) && cursor < |placed|
    ensures Placed(s, levels, i + 1, levels[s[i]], placed[cursor := s[i]], cursor + 1)
  {
    var own := levels[s[i]];
    AtLevelStep(s, levels, i, own);
    hide AtLevel, Before;
    var b := Before(s, levels, own);
    assert placed[cursor := s[i]][b..cursor + 1] == placed[b..cursor] + [s[i]];
  }

  /** A write outside the run of level `l` leaves the run alone. */
  lemma PlaceOther(s: seq<nat>, levels: seq<nat>, count: nat, i: nat, l: nat, placed: seq<nat>, cursor: nat, at: nat)
    requires Leveled(s, levels) && forall k | 0 <= k < |s| :: levels[s[k]] < count
    requires i < |s| && l < count && l != levels[s[i]] && at < |placed|
    requires Placed(s, levels, i, l, placed, cursor)
    requires at == Before(s, levels, levels[s[i]]) + |AtLevel(s[..i], levels, levels[s[i]])|
    ensures Placed(s, levels, i + 1, l, placed[at := s[i]], cursor)
  {
    var own := levels[s[i]];
    AtLevelStep(s, levels, i, l);
    AtLevelPrefix(s, levels, i, l);
    Room(s, levels, count, i);
    if l < own {
      BeforeMonotone(s, levels, l, own);
    } else {
      BeforeMonotone(s, levels, own, l);
    }
    hide AtLevel, Before;
    var b := Before(s, levels, l);
    assert placed[at := s[i]][b..cursor] == placed[b..cursor];
  }

  /** One step of the third pass keeps every level's run. */
  lemma PlaceStep(s: seq<nat>, levels: seq<nat>, count: nat, i: nat, placed: seq<nat>, cursor: seq<nat>)
    requires Leveled(s, levels) && forall k | 0 <= k < |s| :: levels[s[k]] < count
    requires i < |s| == |placed| && |cursor| == count + 1
    requires AllPlaced(s, levels, count, i, placed, cursor)
    ensures var own := levels[s[i]];
      && cursor[own] < |placed|
      && AllPlaced(s, levels, count, i + 1, placed[cursor[own] := s[i]], cursor[own := cursor[own] + 1])
  {
    hide AtLevel, Before;
    var own := levels[s[i]];
    var at := cursor[own];
    assert Placed(s, levels, i, own, placed, at);
    Room(s, levels, count, i);
    PlaceOwn(s, levels, i, placed, at);
    forall l | 0 <= l < count && l != own ensures Placed(s, levels, i + 1, l, placed[at := s[i]], cursor[l]) {
      PlaceOther(s, levels, count, i, l, placed, cursor[l], at);
    }
    hide Placed;
  }

  lemma PlaceStart(s: seq<nat>, levels: seq<nat>, count: nat, l: nat)
    requires Leveled(s, levels) && forall k | 0 <= k < |s| :: levels[s[k]] < count
    requires l < count
    ensures Placed(s, levels, 0, l, seq(|s|, _ => 0), Before(s, levels, l))
  {
    BeforeAll(s, levels, count);
    BeforeMonotone(s, levels, l, count);
    assert s[..0] == [];
  }

  lemma PlaceEnd(s: seq<nat>, levels: seq<nat>, l: nat, placed: seq<nat>, cursor: nat)
    requires Leveled(s, levels) && Placed(s, levels, |s|, l, placed, cursor)
    ensures cursor == Before(s, levels, l + 1)
    ensures placed[Before(s, levels, l)..cursor] == AtLevel(s, levels, l)
  {
    assert s[..|s|] == s;
  }

  /** Level `l` occupies `[offsets[l], offsets[l + 1])` and holds its nodes in planned order. */
  ghost predicate IsBatch(s: seq<nat>, levels: seq<nat>, l: nat, placed: seq<nat>, offsets: seq<nat>)
    requires Leveled(s, levels)
  {
    && l + 1 < |offsets| && offsets[l] <= offsets[l + 1] <= |placed|
    && placed[offsets[l]..offsets[l + 1]] == AtLevel(s, levels, l)
  }

  /** Third pass: each node goes to its level's cursor. */
  method PlaceNodes(s: seq<nat>, levels: seq<nat>, count: nat, offsets: seq<nat>) returns (placed: seq<nat>)
    requires Leveled(s, levels) && forall k | 0 <= k < |s| :: levels[s[k]] < count
    requires |offsets| == count + 1 && forall l | 0 <= l <= count :: offsets[l] == Before(s, levels, l)
    ensures |placed| == |s|
    ensures forall l | 0 <= l < count :: IsBatch(s, levels, l, placed, offsets)
  {
    hide AtLevel, Before, Placed, IsBatch;
    placed := seq(|s|, _ => 0);
    var cursor := offsets;
    forall l | 0 <= l < count ensures Placed(s, levels, 0, l, placed, cursor[l]) {
      PlaceStart(s, levels, count, l);
    }
    for i := 0 to |s|
      invariant |cursor| == count + 1 && |placed| == |s|
      invariant AllPlaced(s, levels, count, i, placed, cursor)
    {
      PlaceStep(s, levels, count, i, placed, cursor);
      var own := levels[s[i]];
      placed := placed[cursor[own] := s[i]];
      cursor := cursor[own := cursor[own] + 1];
    }
    forall l | 0 <= l < count ensures IsBatch(s, levels, l, placed, offsets) {
      PlacedIsBatch(s, levels, count, l, placed, cursor[l], offsets);
    }
  }

  lemma PlacedIsBatch(s: seq<nat>, levels: seq<nat>, count: nat, l: nat, placed: seq<nat>, cursor: nat,
                      offsets: seq<nat>)
    requires Leveled(s, levels) && l < count
    requires |offsets| == count + 1 && forall m | 0 <= m <= count :: offsets[m] == Before(s, levels, m)
    requires Placed(s, levels, |s|, l, placed, cursor)
    ensures IsBatch(s, levels, l, placed, offsets)
  {
    PlaceEnd(s, levels, l, placed, cursor);
  }

  /** The counting sort, and the size of the largest batch. */
  method DependencyBatches(s: seq<nat>, levels: seq<nat>, count: nat)
    returns (placed: seq<nat>, offsets: seq<nat>, maximum: nat)
    requires Leveled(s, levels) && forall k | 0 <= k < |s| :: levels[s[k]] < count
    ensures |offsets| == count + 1 && offsets[0] == 0 && offsets[count] == |placed| == |s|
    ensures forall l | 0 <= l < count :: IsBatch(s, levels, l, placed, offsets)
    ensures forall l | 0 <= l < count :: |AtLevel(s, levels, l)| <= maximum
    ensures maximum == 0 || exists l | 0 <= l < count :: |AtLevel(s, levels, l)| == maximum
  {
    hide AtLevel, IsBatch;
    var counts := CountLevels(s, levels, count);
    maximum := Largest(counts);
    offsets := PartialSums(s, levels, counts);
    BeforeAll(s, levels, count);
    placed := PlaceNodes(s, levels, count, offsets);
    forall l | 0 <= l < count ensures |AtLevel(s, levels, l)| <= maximum {
      assert counts[l + 1] == |AtLevel(s, levels, l + 1 - 1)|;
    }
    if maximum != 0 {
      var j :| 0 <= j < |counts| && counts[j] == maximum;
      assert |AtLevel(s, levels, j - 1)| == maximum;
    }
  }
}
