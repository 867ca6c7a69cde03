/** What a transform plan means: which nodes a set of dirty nodes affects, and why subtree intervals may be used. */
module Planning {
  import opened Sequences
  import opened Polytrees

  /** Every node that has a member of `d` at or above it. */
  ghost function Affected(t: Forest, d: set<nat>): set<nat> {
    set v: nat | v < t.Size() && t.Ancestors(v) * d != {}
  }

  /** The dirty nodes with no dirty proper ancestor. */
  ghost function DirtyRoots(t: Forest, d: set<nat>): set<nat> {
    set v: nat | v < t.Size() && t.Ancestors(v) * d == {v}
  }

  /** The nodes below the roots `r`, parents before children. */
  ghost function Planned(t: Forest, r: set<nat>): seq<nat> {
    Restrict(t.order, Affected(t, r))
  }

  /** `r` is the topmost dirty node at or above `v`. */
  ghost predicate IsOwner(t: Forest, d: set<nat>, v: nat, r: nat) {
    v < t.Size() && r in DirtyRoots(t, d) && r in t.Ancestors(v)
  }

  lemma {:induction false} OwnerExists(t: Forest, d: set<nat>, v: nat) returns (r: nat)
    requires v in Affected(t, d)
    ensures IsOwner(t, d, v, r)
    decreases t.Rank(v)
  {
    if t.HasParent(v) && t.parent[v] in Affected(t, d) {
      r := OwnerExists(t, d, t.parent[v]);
    } else {
      assert t.Ancestors(v) * d == {v};
      r := v;
    }
  }

  /** Every affected node belongs to one dirty root only. */
  lemma OwnerUnique(t: Forest, d: set<nat>, v: nat, r: nat, s: nat)
    requires IsOwner(t, d, v, r) && IsOwner(t, d, v, s)
    ensures r == s
  {
    AncestorsComparable(t, r, s, v);
    assert r in t.Ancestors(r) * d && s in t.Ancestors(s) * d;
    assert r in t.Ancestors(s) ==> r in t.Ancestors(s) * d;
    assert s in t.Ancestors(r) ==> s in t.Ancestors(r) * d;
  }

  /** A dirty node below another is redundant: the roots alone affect the same nodes. */
  lemma RootsSuffice(t: Forest, d: set<nat>)
    ensures Affected(t, DirtyRoots(t, d)) == Affected(t, d)
    ensures Planned(t, DirtyRoots(t, d)) == Planned(t, d)
  {
    forall v | v in Affected(t, d)
      ensures v in Affected(t, DirtyRoots(t, d))
    {
      var r := OwnerExists(t, d, v);
      assert r in t.Ancestors(v) * DirtyRoots(t, d);
    }
    forall v | v in Affected(t, DirtyRoots(t, d))
      ensures v in Affected(t, d)
    {
      var r :| r in t.Ancestors(v) * DirtyRoots(t, d);
      assert r in t.Ancestors(r) * d;
      assert r in t.Ancestors(v) * d;
    }
  }

  // ----- subtree intervals -----

  /** `e` is one past the last topological position of the nodes `s`. */
  ghost predicate EndsAt(t: Forest, s: set<nat>, e: nat) {
    (forall u | u in s :: t.Rank(u) < e) && (exists u | u in s :: t.Rank(u) + 1 == e)
  }

  ghost predicate IsSubtreeEnd(t: Forest, v: nat, e: nat) {
    EndsAt(t, t.Descendants(v), e)
  }

  lemma EndsAtUnion(t: Forest, a: set<nat>, b: set<nat>, endA: nat, endB: nat)
    requires EndsAt(t, a, endA) && EndsAt(t, b, endB)
    ensures EndsAt(t, a + b, if endA < endB then endB else endA)
  {
    hide Topology.Valid;
    var u :| u in a && t.Rank(u) + 1 == endA;
    var w :| w in b && t.Rank(w) + 1 == endB;
    assert u in a + b && w in a + b;
  }

  /** A subtree lies inside the interval from its root's position to its end. */
  lemma SubtreeInInterval(t: Forest, v: nat, e: nat)
    requires v < t.Size() && IsSubtreeEnd(t, v, e)
    ensures t.Rank(v) < e <= t.Size()
    ensures t.Descendants(v) <= Elements(t.order[t.Rank(v)..e])
  {
    var r := t.Rank(v);
    assert v in t.order && v in t.Descendants(v);
    var last :| last in t.Descendants(v) && t.Rank(last) + 1 == e;
    assert last in t.order;
    forall u | u in t.Descendants(v)
      ensures u in t.order[r..e]
    {
      AncestorsClosed(t, v, u);
      assert u in t.order;
      assert t.order[r..e][t.Rank(u) - r] == u;
    }
  }

  /** The interval `[first, last)` of the topological order is the subtree of `v`. */
  ghost predicate IsInterval(t: Forest, v: nat, first: nat, last: nat) {
    first < last <= t.Size() && Elements(t.order[first..last]) == t.Descendants(v)
  }

  /** Counting decides contiguity: a subtree fills its interval exactly when it has as many nodes as the interval. */
  lemma SizeDecidesInterval(t: Forest, v: nat, e: nat)
    requires v < t.Size() && IsSubtreeEnd(t, v, e)
    ensures e == t.Rank(v) + |t.Descendants(v)| <==> IsInterval(t, v, t.Rank(v), e)
  {
    SubtreeInInterval(t, v, e);
    var slice := t.order[t.Rank(v)..e];
    DistinctCardinality(slice);
    if t.Descendants(v) < Elements(slice) {
      SubsetSmaller(t.Descendants(v), Elements(slice));
    }
  }

  /** The child of `a` on the path down to `u`. */
  ghost function Toward(t: Forest, a: nat, u: nat): (c: nat)
    requires u < t.Size() && a in t.Ancestors(u) && u != a
    ensures t.HasParent(c) && t.parent[c] == a && c in t.Ancestors(u)
    decreases t.Rank(u)
  {
    if t.parent[u] == a then u else Toward(t, a, t.parent[u])
  }

  /** What the reverse pass has gathered for `a` once all positions from `i` on are done. */
  ghost function Gathered(t: Forest, a: nat, i: nat): set<nat> {
    set u: nat | u < t.Size() && a in t.Ancestors(u) && (u == a || t.Rank(Toward(t, a, u)) >= i)
  }

  lemma GatheredStart(t: Forest, a: nat)
    requires a < t.Size()
    ensures Gathered(t, a, t.Size()) == {a}
  {
    forall u: nat | u < t.Size() && a in t.Ancestors(u) && u != a
      ensures t.Rank(Toward(t, a, u)) < t.Size()
    {
      assert Toward(t, a, u) in t.order;
    }
  }

  lemma GatheredAll(t: Forest, a: nat, i: nat)
    requires a < t.Size() && i <= t.Rank(a) + 1
    ensures Gathered(t, a, i) == t.Descendants(a)
  {
  }

  /** Position `i` hands the finished subtree of its node to the node's parent and leaves every other total alone. */
  lemma GatheredStep(t: Forest, a: nat, i: nat)
    requires a < t.Size() && i < t.Size()
    ensures var node := t.order[i];
      if t.HasParent(node) && t.parent[node] == a then
        && Gathered(t, a, i) == Gathered(t, a, i + 1) + t.Descendants(node)
        && Gathered(t, a, i + 1) !! t.Descendants(node)
      else
        Gathered(t, a, i) == Gathered(t, a, i + 1)
  {
    var node := t.order[i];
    forall u: nat | u < t.Size() && a in t.Ancestors(u) && u != a
      ensures t.Rank(Toward(t, a, u)) == i ==> Toward(t, a, u) == node
    {
      if t.Rank(Toward(t, a, u)) == i {
        assert t.order[i] == Toward(t, a, u);
      }
    }
    if t.HasParent(node) && t.parent[node] == a {
      forall u | u in t.Descendants(node)
        ensures u in Gathered(t, a, i) && u !in Gathered(t, a, i + 1)
      {
        TowardIs(t, node, u);
      }
    }
  }

  lemma {:induction false} TowardIs(t: Forest, c: nat, u: nat)
    requires u < t.Size() && c in t.Ancestors(u) && t.HasParent(c)
    ensures t.parent[c] in t.Ancestors(u) && u != t.parent[c]
    ensures Toward(t, t.parent[c], u) == c
    decreases t.Rank(u)
  {
    AncestorsClosed(t, c, u);
    assert t.parent[c] in t.Ancestors(c);
    if u != c {
      TowardIs(t, c, t.parent[u]);
    }
  }

  /** `size` and `end` describe what has been gathered for `a` from position `i` on. */
  ghost predicate Totals(t: Forest, a: nat, i: nat, end: nat, size: nat) {
    size == |Gathered(t, a, i)| && EndsAt(t, Gathered(t, a, i), end)
  }

  lemma TotalsStart(t: Forest, a: nat)
    requires a < t.Size()
    ensures Totals(t, a, t.Size(), t.Rank(a) + 1, 1)
  {
    GatheredStart(t, a);
    assert a in Gathered(t, a, t.Size());
  }

  /** The parent absorbs the totals of the node at position `i`. */
  lemma TotalsAbsorb(t: Forest, i: nat, end: nat, size: nat, childEnd: nat, childSize: nat)
    requires i < t.Size() && t.HasParent(t.order[i])
    requires Totals(t, t.parent[t.order[i]], i + 1, end, size)
    requires Totals(t, t.order[i], i + 1, childEnd, childSize)
    ensures Totals(t, t.parent[t.order[i]], i, if end < childEnd then childEnd else end, size + childSize)
  {
    var node := t.order[i];
    var p := t.parent[node];
    GatheredAll(t, node, i + 1);
    GatheredStep(t, p, i);
    EndsAtUnion(t, Gathered(t, p, i + 1), t.Descendants(node), end, childEnd);
  }

  lemma TotalsKeep(t: Forest, i: nat, a: nat, end: nat, size: nat)
    requires i < t.Size() && a < t.Size()
    requires t.HasParent(t.order[i]) ==> t.parent[t.order[i]] != a
    requires Totals(t, a, i + 1, end, size)
    ensures Totals(t, a, i, end, size)
  {
    GatheredStep(t, a, i);
  }

  /** The finished totals are the subtree's size and end. */
  lemma TotalsDone(t: Forest, a: nat, end: nat, size: nat)
    requires a < t.Size() && Totals(t, a, 0, end, size)
    ensures IsSubtreeEnd(t, a, end) && size == |t.Descendants(a)|
  {
    GatheredAll(t, a, 0);
  }

  // ----- what the cached metadata of a workspace must say about a topology -----

  ghost predicate AreRanks(t: Forest, ranks: seq<nat>) {
    |ranks| == t.Size() && forall v: nat | v < t.Size() :: ranks[v] == t.Rank(v)
  }

  ghost predicate AreSubtrees(t: Forest, ends: seq<nat>, sizes: seq<nat>) {
    && |ends| == |sizes| == t.Size()
    && (forall v: nat | v < t.Size() :: IsSubtreeEnd(t, v, ends[v]))
    && (forall v: nat | v < t.Size() :: sizes[v] == |t.Descendants(v)|)
  }

  /** `width` is the size of the largest level. */
  ghost predicate AreLevels(t: Forest, levels: seq<nat>, width: nat) {
    && |levels| == t.Size()
    && (forall v: nat | v < t.Size() :: levels[v] == t.Depth(v))
    && (forall d: nat | d < |t.levels| :: |t.levels[d]| <= width)
    && (width == 0 || exists d: nat | d < |t.levels| :: |t.levels[d]| == width)
  }

  /** Every subtree fills its interval of the topological order. */
  ghost predicate AreIntervals(t: Forest, ranks: seq<nat>, ends: seq<nat>)
    requires |ranks| == |ends| == t.Size()
  {
    forall v: nat | v < t.Size() :: IsInterval(t, v, ranks[v], ends[v])
  }

  // ----- expanding the dirty frontier -----

  /** Expansion has dealt with the first `h` positions: lists, stamps and owners agree on what is affected there. */
  ghost predicate Expanded(t: Forest, d: set<nat>, h: nat, nodes: seq<nat>, roots: seq<nat>,
                           stamps: seq<nat>, owners: seq<nat>, epoch: nat)
    requires h <= t.Size()
  {
    && nodes == Restrict(t.order[..h], Affected(t, d))
    && roots == Restrict(t.order[..h], DirtyRoots(t, d))
    && Stamps(t, d, h, stamps, owners, epoch)
  }

  ghost predicate Stamps(t: Forest, d: set<nat>, h: nat, stamps: seq<nat>, owners: seq<nat>, epoch: nat) {
    && |stamps| == |owners| == t.Size()
    && (forall v: nat | v < t.Size() :: stamps[v] == epoch <==> v in Affected(t, d) && t.Rank(v) < h)
    && (forall v: nat | v < t.Size() && stamps[v] == epoch && v in Affected(t, d) :: IsOwner(t, d, v, owners[v]))
  }

  /** No affected subtree is cut by position `h`. */
  ghost predicate Uncut(t: Forest, d: set<nat>, h: nat) {
    forall u, w | u in Affected(t, d) && t.Rank(u) < h && w in t.Descendants(u) :: t.Rank(w) < h
  }

  lemma RootsAffected(t: Forest, d: set<nat>)
    ensures DirtyRoots(t, d) <= Affected(t, d)
  {
    assert forall v | v in DirtyRoots(t, d) :: v in t.Ancestors(v) * d;
  }

  /** Below position `r`, only subtrees that start before `h` are affected. */
  lemma AffectedBefore(t: Forest, d: set<nat>, h: nat, r: nat, v: nat)
    requires Uncut(t, d, h) && v in Affected(t, d) && t.Rank(v) < r
    requires forall a | a in d && a < t.Size() && t.Rank(a) < r :: t.Rank(a) < h
    ensures t.Rank(v) < h
  {
    var a :| a in t.Ancestors(v) * d;
    AncestorsClosed(t, a, v);
    assert a in t.Ancestors(a) * d && v in t.Descendants(a);
  }

  /** Between `h` and the next dirty node nothing is affected. */
  lemma NothingBetween(t: Forest, d: set<nat>, h: nat, r: nat)
    requires h <= r <= t.Size() && Uncut(t, d, h)
    requires forall a | a in d && a < t.Size() && t.Rank(a) < r :: t.Rank(a) < h
    ensures Restrict(t.order[..r], Affected(t, d)) == Restrict(t.order[..h], Affected(t, d))
    ensures Restrict(t.order[..r], DirtyRoots(t, d)) == Restrict(t.order[..h], DirtyRoots(t, d))
  {
    var gap := t.order[h..r];
    forall v | v in gap ensures v !in Affected(t, d) {
      if v in Affected(t, d) { AffectedBefore(t, d, h, r, v); }
    }
    assert t.order[..r] == t.order[..h] + gap;
    RootsAffected(t, d);
    RestrictConcat(t.order[..h], gap, Affected(t, d));
    RestrictConcat(t.order[..h], gap, DirtyRoots(t, d));
    RestrictNone(gap, Affected(t, d));
    RestrictNone(gap, DirtyRoots(t, d));
  }

  /** A dirty node no earlier subtree covers is a dirty root and owns its whole subtree. */
  lemma FreshRoot(t: Forest, d: set<nat>, h: nat, c: nat)
    requires c in d && c < t.Size() && h <= t.Rank(c) && Uncut(t, d, h)
    requires forall a | a in d && a < t.Size() && t.Rank(a) < t.Rank(c) :: t.Rank(a) < h
    ensures c in DirtyRoots(t, d)
    ensures forall u | u in t.Descendants(c) :: u in Affected(t, d) && IsOwner(t, d, u, c)
    ensures forall u | u in t.Descendants(c) && u in DirtyRoots(t, d) :: u == c
  {
    forall a | a in t.Ancestors(c) * d ensures a == c {
      AncestorsClosed(t, a, c);
      assert a in t.Ancestors(a) * d && c in t.Descendants(a);
    }
    assert t.Ancestors(c) * d == {c};
    forall u | u in t.Descendants(c)
      ensures u in Affected(t, d) && IsOwner(t, d, u, c)
      ensures u in DirtyRoots(t, d) ==> u == c
    {
      assert c in t.Ancestors(u) * d;
      if u in DirtyRoots(t, d) { OwnerUnique(t, d, u, u, c); }
    }
  }

  /** Appending the interval of an uncovered candidate extends the node list to the interval's end. */
  lemma IntervalNodes(t: Forest, d: set<nat>, h: nat, c: nat, e: nat)
    requires c in d && c < t.Size() && h <= t.Rank(c) && Uncut(t, d, h)
    requires IsInterval(t, c, t.Rank(c), e)
    requires forall a | a in d && a < t.Size() && t.Rank(a) < t.Rank(c) :: t.Rank(a) < h
    ensures Restrict(t.order[..e], Affected(t, d)) ==
            Restrict(t.order[..h], Affected(t, d)) + t.order[t.Rank(c)..e]
    ensures forall v | v in t.order[t.Rank(c)..e] :: v in Affected(t, d) && IsOwner(t, d, v, c)
  {
    var r := t.Rank(c);
    var slice := t.order[r..e];
    NothingBetween(t, d, h, r);
    FreshRoot(t, d, h, c);
    IntervalHead(t, c, e);
    hide Affected, DirtyRoots, IsOwner, IsInterval, Uncut, Topology.Valid, Topology.Descendants, Restrict;
    RestrictConcat(t.order[..r], slice, Affected(t, d));
    RestrictAll(slice, Affected(t, d));
  }

  lemma IntervalHead(t: Forest, c: nat, e: nat)
    requires c < t.Size() && IsInterval(t, c, t.Rank(c), e)
    ensures var slice := t.order[t.Rank(c)..e];
      slice != [] && slice[0] == c && Distinct(slice) && forall u | u in slice :: u in t.Descendants(c)
    ensures t.order[..e] == t.order[..t.Rank(c)] + t.order[t.Rank(c)..e]
  {
    OrderDistinct(t);
    var slice := t.order[t.Rank(c)..e];
    assert forall u | u in slice :: u in Elements(slice);
  }

  /** The same interval contributes one dirty root, the candidate. */
  lemma IntervalRoots(t: Forest, d: set<nat>, h: nat, c: nat, e: nat)
    requires c in d && c < t.Size() && h <= t.Rank(c) && Uncut(t, d, h)
    requires IsInterval(t, c, t.Rank(c), e)
    requires forall a | a in d && a < t.Size() && t.Rank(a) < t.Rank(c) :: t.Rank(a) < h
    ensures Restrict(t.order[..e], DirtyRoots(t, d)) == Restrict(t.order[..h], DirtyRoots(t, d)) + [c]
  {
    var r := t.Rank(c);
    var slice := t.order[r..e];
    NothingBetween(t, d, h, r);
    FreshRoot(t, d, h, c);
    IntervalHead(t, c, e);
    hide Affected, DirtyRoots, IsInterval, Uncut, Topology.Valid, Topology.Descendants, Restrict;
    RestrictFirst(slice, DirtyRoots(t, d));
    RestrictConcat(t.order[..r], slice, DirtyRoots(t, d));
  }

  /** The end of an uncovered candidate's interval cuts no affected subtree, and what is new before it is the
      interval. */
  lemma IntervalUncut(t: Forest, d: set<nat>, h: nat, c: nat, e: nat)
    requires c in d && c < t.Size() && h <= t.Rank(c) && Uncut(t, d, h)
    requires IsInterval(t, c, t.Rank(c), e)
    requires forall a | a in d && a < t.Size() && t.Rank(a) < t.Rank(c) :: t.Rank(a) < h
    ensures forall v | v in Affected(t, d) && h <= t.Rank(v) < e :: v in t.order[t.Rank(c)..e]
    ensures Uncut(t, d, e)
  {
    var r := t.Rank(c);
    var slice := t.order[r..e];
    forall v | v in Affected(t, d) && h <= t.Rank(v) < e ensures v in slice {
      if t.Rank(v) < r {
        AffectedBefore(t, d, h, r, v);
        assert false;
      }
      assert slice[t.Rank(v) - r] == v;
    }
    forall u, w | u in Affected(t, d) && t.Rank(u) < e && w in t.Descendants(u) ensures t.Rank(w) < e {
      if t.Rank(u) >= h {
        assert u in Elements(slice);
        AncestorsClosed(t, u, w);
        assert w in Elements(slice);
      }
    }
  }

  /** One interval of the expansion: lists grow by the interval and the root, stamps and owners by its nodes. */
  lemma ExpandInterval(t: Forest, d: set<nat>, h: nat, c: nat, e: nat, nodes: seq<nat>, roots: seq<nat>,
                       stamps: seq<nat>, owners: seq<nat>, stamps': seq<nat>, owners': seq<nat>, epoch: nat)
    requires c in d && c < t.Size() && h <= t.Rank(c) && Uncut(t, d, h)
    requires IsInterval(t, c, t.Rank(c), e)
    requires forall a | a in d && a < t.Size() && t.Rank(a) < t.Rank(c) :: t.Rank(a) < h
    requires Expanded(t, d, h, nodes, roots, stamps, owners, epoch)
    requires |stamps'| == |owners'| == t.Size()
    requires forall v: nat | v < t.Size() ::
      && stamps'[v] == (if v in t.order[t.Rank(c)..e] then epoch else stamps[v])
      && owners'[v] == (if v in t.order[t.Rank(c)..e] then c else owners[v])
    ensures Expanded(t, d, e, nodes + t.order[t.Rank(c)..e], roots + [c], stamps', owners', epoch)
    ensures Uncut(t, d, e)
  {
    IntervalNodes(t, d, h, c, e);
    IntervalRoots(t, d, h, c, e);
    IntervalUncut(t, d, h, c, e);
    var slice := t.order[t.Rank(c)..e];
    assert forall v | v in slice :: t.Rank(v) < e;
  }

  /** Once every dirty node is covered, the whole order is. */
  lemma ExpansionComplete(t: Forest, d: set<nat>, h: nat, nodes: seq<nat>, roots: seq<nat>,
                          stamps: seq<nat>, owners: seq<nat>, epoch: nat)
    requires h <= t.Size() && Uncut(t, d, h)
    requires forall a | a in d && a < t.Size() :: t.Rank(a) < h
    requires Expanded(t, d, h, nodes, roots, stamps, owners, epoch)
    ensures Expanded(t, d, t.Size(), nodes, roots, stamps, owners, epoch)
  {
    NothingBetween(t, d, h, t.Size());
    forall v | v in Affected(t, d) ensures t.Rank(v) < h {
      AffectedBefore(t, d, h, t.Size(), v);
    }
  }

  /** With candidates in rank order, whatever lies before candidate `k` has been covered already. */
  lemma EarlierCovered(t: Forest, candidates: seq<nat>, k: nat, h: nat)
    requires k < |candidates|
    requires forall i, j | 0 <= i < j < |candidates| :: t.Rank(candidates[i]) <= t.Rank(candidates[j])
    requires forall j | 0 <= j < k :: t.Rank(candidates[j]) < h
    ensures forall a | a in Elements(candidates) && t.Rank(a) < t.Rank(candidates[k]) :: t.Rank(a) < h
  {
    hide Topology.Valid;
    forall a | a in candidates && t.Rank(a) < t.Rank(candidates[k]) ensures t.Rank(a) < h {
      var j :| 0 <= j < |candidates| && candidates[j] == a;
    }
  }

  lemma AllCovered(t: Forest, candidates: seq<nat>, h: nat)
    requires forall j | 0 <= j < |candidates| :: t.Rank(candidates[j]) < h
    ensures forall a | a in Elements(candidates) :: t.Rank(a) < h
  {
    hide Topology.Valid;
    forall a | a in candidates ensures t.Rank(a) < h {
      var j :| 0 <= j < |candidates| && candidates[j] == a;
    }
  }

  lemma ExpansionStart(t: Forest, d: set<nat>, stamps: seq<nat>, owners: seq<nat>, epoch: nat)
    requires |stamps| == |owners| == t.Size() && forall v | 0 <= v < |stamps| :: stamps[v] != epoch
    ensures Expanded(t, d, 0, [], [], stamps, owners, epoch)
    ensures Uncut(t, d, 0)
  {
  }

  /** The stamp of a dirty node tells whether it has been covered. */
  lemma StampTells(t: Forest, d: set<nat>, h: nat, nodes: seq<nat>, roots: seq<nat>,
                   stamps: seq<nat>, owners: seq<nat>, epoch: nat, v: nat)
    requires v in d && v < t.Size() && h <= t.Size()
    requires Expanded(t, d, h, nodes, roots, stamps, owners, epoch)
    ensures |stamps| == t.Size() && (stamps[v] == epoch <==> t.Rank(v) < h)
  {
    DirtyIsAffected(t, d, v);
  }

  lemma DirtyIsAffected(t: Forest, d: set<nat>, v: nat)
    requires v in d && v < t.Size()
    ensures v in Affected(t, d)
  {
    assert v in t.Ancestors(v) * d;
  }

  lemma IntervalBounds(t: Forest, v: nat, first: nat, last: nat)
    requires IsInterval(t, v, first, last)
    ensures first < last <= t.Size() == |t.order|
    ensures forall u | u in t.order[first..last] :: u < t.Size()
  {
  }

  lemma AdjacentSorted(s: seq<nat>, key: seq<nat>)
    requires forall i | 0 <= i < |s| :: s[i] < |key|
    requires forall i | 0 <= i < |s| - 1 :: key[s[i]] <= key[s[i + 1]]
    ensures forall i, j | 0 <= i < j < |s| :: key[s[i]] <= key[s[j]]
  {
    forall i, j | 0 <= i < j < |s| ensures key[s[i]] <= key[s[j]] {
      for k := i to j
        invariant key[s[i]] <= key[s[k]]
      {
      }
    }
  }

  // ----- the full scan -----

  /** A node is affected exactly when it is dirty or its parent is affected. */
  lemma AffectedByParent(t: Forest, d: set<nat>, v: nat)
    requires v < t.Size()
    ensures v in Affected(t, d) <==> v in d || (t.HasParent(v) && t.parent[v] in Affected(t, d))
    ensures v in DirtyRoots(t, d) <==> v in d && !(t.HasParent(v) && t.parent[v] in Affected(t, d))
  {
    if t.HasParent(v) {
      var p := t.parent[v];
      assert t.Ancestors(v) * d == t.Ancestors(p) * d + ({v} * d);
      assert v !in t.Ancestors(p) by {
        if v in t.Ancestors(p) { AncestorsClosed(t, v, p); }
      }
    }
  }

  lemma ScanSkip(t: Forest, d: set<nat>, i: nat, nodes: seq<nat>, roots: seq<nat>,
                 stamps: seq<nat>, owners: seq<nat>, epoch: nat)
    requires i < t.Size() && t.order[i] !in Affected(t, d)
    requires Expanded(t, d, i, nodes, roots, stamps, owners, epoch)
    ensures Expanded(t, d, i + 1, nodes, roots, stamps, owners, epoch)
  {
    hide Restrict, Affected, DirtyRoots, IsOwner, Topology.Valid;
    RootsAffected(t, d);
    OrderInRange(t);
    RestrictStep(t.order, i, Affected(t, d));
    RestrictStep(t.order, i, DirtyRoots(t, d));
    OneAtRank(t, i);
  }

  lemma OneAtRank(t: Forest, i: nat)
    requires i < t.Size()
    ensures i < |t.order| && forall v: nat | v < t.Size() && t.Rank(v) == i :: v == t.order[i]
  {
  }

  lemma StampNode(t: Forest, d: set<nat>, i: nat, stamps: seq<nat>, owners: seq<nat>, epoch: nat, owner: nat)
    requires i < t.Size() && t.order[i] in Affected(t, d) && IsOwner(t, d, t.order[i], owner)
    requires Stamps(t, d, i, stamps, owners, epoch)
    ensures Stamps(t, d, i + 1, stamps[t.order[i] := epoch], owners[t.order[i] := owner], epoch)
  {
    assert forall v: nat | v < t.Size() && t.Rank(v) == i :: v == t.order[i];
    hide Affected, DirtyRoots, IsOwner, Topology.Valid;
  }

  lemma ScanTake(t: Forest, d: set<nat>, i: nat, nodes: seq<nat>, roots: seq<nat>,
                 stamps: seq<nat>, owners: seq<nat>, epoch: nat, owner: nat)
    requires i < t.Size() && t.order[i] in Affected(t, d) && IsOwner(t, d, t.order[i], owner)
    requires Expanded(t, d, i, nodes, roots, stamps, owners, epoch)
    ensures var node := t.order[i];
      Expanded(t, d, i + 1, nodes + [node], if node in DirtyRoots(t, d) then roots + [node] else roots,
               stamps[node := epoch], owners[node := owner], epoch)
  {
    StampNode(t, d, i, stamps, owners, epoch, owner);
    RestrictStep(t.order, i, Affected(t, d));
    RestrictStep(t.order, i, DirtyRoots(t, d));
    hide Restrict, Affected, DirtyRoots, IsOwner, Stamps;
  }

  /** What the scan reads off the stamps of the parent. */
  lemma ScanReads(t: Forest, d: set<nat>, i: nat, nodes: seq<nat>, roots: seq<nat>,
                  stamps: seq<nat>, owners: seq<nat>, epoch: nat)
    requires i < t.Size()
    requires Expanded(t, d, i, nodes, roots, stamps, owners, epoch)
    ensures |stamps| == |owners| == t.Size()
    ensures var node := t.order[i];
      var parentAffected := t.HasParent(node) && stamps[t.parent[node]] == epoch;
      && (node in Affected(t, d) <==> node in d || parentAffected)
      && (node in DirtyRoots(t, d) <==> node in d && !parentAffected)
      && (node in Affected(t, d) ==> IsOwner(t, d, node, if parentAffected then owners[t.parent[node]] else node))
  {
    AffectedByParent(t, d, t.order[i]);
  }

  // ----- scopes -----

  /** After a complete expansion, stamp and owner single out the dirty roots. */
  lemma OwnRoot(t: Forest, d: set<nat>, nodes: seq<nat>, roots: seq<nat>,
                stamps: seq<nat>, owners: seq<nat>, epoch: nat, v: nat)
    requires v < t.Size()
    requires Expanded(t, d, t.Size(), nodes, roots, stamps, owners, epoch)
    ensures |stamps| == |owners| == t.Size()
    ensures stamps[v] == epoch && owners[v] == v <==> v in DirtyRoots(t, d)
  {
    RootsAffected(t, d);
    if v in DirtyRoots(t, d) {
      OwnerUnique(t, d, v, v, owners[v]);
    }
  }

  /** Filtering affected nodes by selected owners keeps exactly the selected subtrees. */
  lemma OwnersSelect(t: Forest, d: set<nat>, scope: set<nat>, owners: seq<nat>, kept: set<nat>)
    requires scope <= DirtyRoots(t, d) && |owners| == t.Size()
    requires forall v | v in Affected(t, d) :: IsOwner(t, d, v, owners[v])
    requires forall v | v in Affected(t, d) :: v in kept <==> owners[v] in scope
    ensures Restrict(Planned(t, d), kept) == Planned(t, scope)
  {
    forall v: nat ensures v in Affected(t, d) * kept <==> v in Affected(t, scope) {
      if v in Affected(t, scope) {
        var r :| r in t.Ancestors(v) * scope;
        assert r in t.Ancestors(r) * d;
        assert v in Affected(t, d) by { assert r in t.Ancestors(v) * d; }
        OwnerUnique(t, d, v, r, owners[v]);
      } else if v in Affected(t, d) * kept {
        assert owners[v] in t.Ancestors(v) * scope;
      }
    }
    RestrictTwice(t.order, Affected(t, d), kept);
    assert Affected(t, d) * kept == Affected(t, scope);
  }

  // ----- the shortcuts -----

  lemma CleanPlan(t: Forest, stamps: seq<nat>, owners: seq<nat>, epoch: nat)
    requires |stamps| == |owners| == t.Size() && forall v | 0 <= v < |stamps| :: stamps[v] != epoch
    ensures Expanded(t, {}, t.Size(), [], [], stamps, owners, epoch)
  {
    RestrictNone(t.order[..t.Size()], {});
    assert Affected(t, {}) == {} && DirtyRoots(t, {}) == {};
  }

  /** A duplicate-free frontier as long as the node count names every node. */
  lemma FrontierIsAll(t: Forest, frontier: seq<nat>)
    requires Distinct(frontier) && |frontier| == t.Size()
    requires forall i | 0 <= i < |frontier| :: frontier[i] < t.Size()
    ensures forall v: nat :: v in Elements(frontier) <==> v < t.Size()
  {
    OrderDistinct(t);
    DistinctCardinality(frontier);
    DistinctCardinality(t.order);
    var some, all := Elements(frontier), Elements(t.order);
    forall v: nat | v in some ensures v in all {
      var i :| 0 <= i < |frontier| && frontier[i] == v;
      assert v in t.order;
    }
    if some != all {
      SubsetSmaller(some, all);
    }
    forall v: nat ensures v in all <==> v < t.Size() {
      assert v in all <==> v in t.order;
    }
  }

  /** When every node is dirty, the cached order and the cached roots are the plan. */
  lemma AllDirty(t: Forest, d: set<nat>)
    requires forall v: nat :: v in d <==> v < t.Size()
    ensures Planned(t, d) == t.order
    ensures Elements(t.roots) == DirtyRoots(t, d)
  {
    OrderDistinct(t);
    forall v | v in t.order ensures v in Affected(t, d) {
      DirtyIsAffected(t, d, v);
    }
    RestrictAll(t.order, Affected(t, d));
    forall v: nat | v < t.Size() ensures v in DirtyRoots(t, d) <==> v in t.roots {
      AffectedByParent(t, d, v);
      if t.HasParent(v) { DirtyIsAffected(t, d, t.parent[v]); }
    }
  }

  lemma OrderInRange(t: Forest)
    ensures |t.order| == t.Size()
    ensures forall i | 0 <= i < t.Size() :: t.order[i] < t.Size()
    ensures forall v: nat | t.HasParent(v) :: t.parent[v] < t.Size()
  {
  }

  /** The complete expansion, spelled out. */
  lemma WholeExpansion(t: Forest, d: set<nat>, nodes: seq<nat>, roots: seq<nat>,
                       stamps: seq<nat>, owners: seq<nat>, epoch: nat)
    requires Expanded(t, d, t.Size(), nodes, roots, stamps, owners, epoch)
    ensures nodes == Planned(t, d) && roots == Restrict(t.order, DirtyRoots(t, d))
    ensures |owners| == t.Size()
    ensures forall i | 0 <= i < |nodes| :: nodes[i] < t.Size() && nodes[i] in Affected(t, d)
    ensures forall i | 0 <= i < |roots| :: roots[i] < t.Size()
    ensures forall v | v in Affected(t, d) :: v < t.Size() && IsOwner(t, d, v, owners[v]) && owners[v] < t.Size()
  {
    assert t.order[..t.Size()] == t.order;
    assert forall i | 0 <= i < |nodes| :: nodes[i] in nodes;
    assert forall i | 0 <= i < |roots| :: roots[i] in roots;
  }

  lemma ScopeInOrder(t: Forest, d: set<nat>, scope: set<nat>)
    requires scope <= DirtyRoots(t, d)
    ensures Restrict(Restrict(t.order, DirtyRoots(t, d)), scope) == Restrict(t.order, scope)
  {
    RestrictTwice(t.order, DirtyRoots(t, d), scope);
    assert DirtyRoots(t, d) * scope == scope;
  }

  /** The affected nodes whose owner is in `scope`. */
  ghost function OwnedBy(t: Forest, d: set<nat>, owners: seq<nat>, scope: set<nat>): set<nat> {
    set v | v in Affected(t, d) && v < |owners| && owners[v] in scope
  }

  lemma SelectedLists(t: Forest, d: set<nat>, nodes: seq<nat>, roots: seq<nat>, stamps: seq<nat>, owners: seq<nat>,
                      epoch: nat, scope: set<nat>)
    requires Expanded(t, d, t.Size(), nodes, roots, stamps, owners, epoch) && scope <= DirtyRoots(t, d)
    ensures Restrict(roots, scope) == Restrict(t.order, scope)
    ensures Restrict(nodes, OwnedBy(t, d, owners, scope)) == Planned(t, scope)
  {
    WholeExpansion(t, d, nodes, roots, stamps, owners, epoch);
    hide Expanded, Affected, DirtyRoots, IsOwner, Topology.Valid, Restrict, Planned;
    ScopeInOrder(t, d, scope);
    OwnersSelect(t, d, scope, owners, OwnedBy(t, d, owners, scope));
  }

  lemma SelectedAt(t: Forest, d: set<nat>, nodes: seq<nat>, roots: seq<nat>, stamps: seq<nat>, owners: seq<nat>,
                   epoch: nat, selected: seq<nat>, scope: set<nat>)
    requires Expanded(t, d, t.Size(), nodes, roots, stamps, owners, epoch) && |selected| == t.Size()
    requires forall v: nat | v < t.Size() :: selected[v] == epoch <==> v in scope
    ensures forall i | 0 <= i < |roots| :: roots[i] < |selected|
    ensures forall i | 0 <= i < |roots| :: selected[roots[i]] == epoch <==> roots[i] in scope
    ensures forall i | 0 <= i < |nodes| :: nodes[i] < |owners| && owners[nodes[i]] < |selected|
    ensures forall i | 0 <= i < |nodes| ::
      selected[owners[nodes[i]]] == epoch <==> nodes[i] in OwnedBy(t, d, owners, scope)
  {
    WholeExpansion(t, d, nodes, roots, stamps, owners, epoch);
    hide Expanded, Affected, DirtyRoots, IsOwner, Topology.Valid, Restrict, Planned;
  }

  lemma RootsDistinct(t: Forest)
    ensures Distinct(t.roots)
  {
  }

  /** Picking a set of nodes out of the order lists each once. */
  lemma RootsInOrder(t: Forest, r: set<nat>)
    requires forall v | v in r :: v < t.Size()
    ensures Distinct(Restrict(t.order, r)) && Elements(Restrict(t.order, r)) == r
  {
    OrderDistinct(t);
    RestrictDistinct(t.order, r);
  }

  lemma RootsWithin(t: Forest, d: set<nat>, r: set<nat>)
    requires r <= DirtyRoots(t, d)
    ensures forall v | v in r :: v < t.Size()
  {
  }
}
