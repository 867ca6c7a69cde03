/** The frozen forest the runtime works on: a parent array with its cached evaluation plan. */
module Polytrees {
  import opened Sequences

  /** Node handles are unsigned 32-bit; the largest value marks "no parent". */
  const INVALID_NODE: nat := 0xFFFF_FFFF

  /** `rank` is the inverse of `order`: the library stores only the order, a workspace recomputes the inverse. */
  datatype Topology = Topology(parent: seq<nat>, order: seq<nat>, rank: seq<nat>, roots: seq<nat>,
                               levels: seq<seq<nat>>)
  {
    function Size(): nat { |parent| }

    predicate HasParent(v: nat) { v < |parent| && parent[v] != INVALID_NODE }

    /** The position of `v` in the topological order. */
    function Rank(v: nat): nat { if v < |rank| then rank[v] else 0 }

    /** The order lists every node once, parents before children. */
    ghost predicate Ordered() {
      && |parent| <= INVALID_NODE
      && |order| == |rank| == |parent|
      && (forall i: nat | i < |order| :: order[i] < |parent| && rank[order[i]] == i)
      && (forall v: nat | v < |parent| :: rank[v] < |order| && order[rank[v]] == v)
      && (forall v: nat | HasParent(v) :: parent[v] < |parent| && rank[parent[v]] < rank[v])
    }

    /** `v` and everything above it. */
    ghost function Ancestors(v: nat): (s: set<nat>)
      requires Ordered()
      ensures v in s
      decreases Rank(v)
    {
      {v} + (if HasParent(v) then Ancestors(parent[v]) else {})
    }

    ghost function Descendants(a: nat): (s: set<nat>)
      requires Ordered()
    {
      set v: nat | v < |parent| && a in Ancestors(v)
    }

    ghost function Depth(v: nat): nat
      requires Ordered()
      decreases Rank(v)
    {
      if HasParent(v) then Depth(parent[v]) + 1 else 0
    }

    ghost function AtDepth(d: nat): set<nat>
      requires Ordered()
    {
      set v: nat | v < |parent| && Depth(v) == d
    }

    ghost predicate RootsListed() {
      && Distinct(roots)
      && (forall v: nat :: v in roots <==> v < |parent| && parent[v] == INVALID_NODE)
    }

    /** Dependency level `d` is the depth-`d` part of the topological order. */
    ghost predicate LevelsListed()
      requires Ordered()
    {
      && (forall v: nat | v < |parent| :: Depth(v) < |levels|)
      && (forall d: nat | d < |levels| :: levels[d] == Restrict(order, AtDepth(d)))
    }

    ghost predicate Valid() {
      Ordered() && RootsListed() && LevelsListed()
    }

    /** The world transform of `v` recomputed from scratch: local transforms composed from the root down. */
    ghost function Fold<T>(compose: (T, T) -> T, local: seq<T>, v: nat): T
      requires Ordered() && v < |parent| == |local|
      decreases Rank(v)
    {
      if HasParent(v) then compose(Fold(compose, local, parent[v]), local[v]) else local[v]
    }
  }

  type Forest = t: Topology | t.Valid() witness Topology([], [], [], [], [])

  /** A topology object: its identity is its address, and its shape never changes. */
  class Polytree {
    const shape: Forest
    constructor (shape: Forest)
      ensures this.shape == shape
    {
      this.shape := shape;
    }
  }

  lemma OrderDistinct(t: Forest)
    ensures Distinct(t.order)
    ensures forall v: nat :: v in t.order <==> v < t.Size()
  {
    forall v: nat | v < t.Size() ensures v in t.order {
      assert t.order[t.Rank(v)] == v;
    }
  }

  lemma DepthBelowLevels(t: Forest)
    ensures forall v: nat | v < t.Size() :: t.Depth(v) < |t.levels|
  {
  }

  lemma LevelMembers(t: Forest, d: nat)
    requires d < |t.levels|
    ensures forall v: nat :: v in t.levels[d] <==> v < t.Size() && t.Depth(v) == d
  {
    OrderDistinct(t);
    assert t.levels[d] == Restrict(t.order, t.AtDepth(d));
  }

  lemma LevelIndices(t: Forest, d: nat)
    requires d < |t.levels|
    ensures forall k | 0 <= k < |t.levels[d]| :: t.levels[d][k] < t.Size() && t.Depth(t.levels[d][k]) == d
    ensures forall v: nat | v < t.Size() && t.Depth(v) == d :: exists k :: 0 <= k < |t.levels[d]| && t.levels[d][k] == v
  {
    LevelMembers(t, d);
    hide Topology.Ordered, Topology.LevelsListed, Topology.RootsListed;
    assert forall k | 0 <= k < |t.levels[d]| :: t.levels[d][k] in t.levels[d];
  }

  /** Ancestors of an ancestor are ancestors, and rank never increases going up. */
  lemma {:induction false} AncestorsClosed(t: Forest, a: nat, v: nat)
    requires v < t.Size() && a in t.Ancestors(v)
    ensures a < t.Size()
    ensures t.Ancestors(a) <= t.Ancestors(v)
    ensures t.Rank(a) <= t.Rank(v) && (t.Rank(a) == t.Rank(v) ==> a == v)
    ensures t.Depth(a) <= t.Depth(v) && (t.Depth(a) == t.Depth(v) ==> a == v)
    decreases t.Rank(v)
  {
    if a != v {
      AncestorsClosed(t, a, t.parent[v]);
    }
  }

  /** Two ancestors of one node lie on one path. */
  lemma {:induction false} AncestorsComparable(t: Forest, a: nat, b: nat, v: nat)
    requires v < t.Size() && a in t.Ancestors(v) && b in t.Ancestors(v)
    ensures a in t.Ancestors(b) || b in t.Ancestors(a)
    decreases t.Rank(v)
  {
    if a != v && b != v {
      AncestorsComparable(t, a, b, t.parent[v]);
    } else if a == v {
      AncestorsClosed(t, b, v);
    } else {
      AncestorsClosed(t, a, v);
    }
  }

  /** Recomputation from scratch reads only the locals on the path to the root. */
  lemma {:induction false} FoldReadsAncestors<T>(t: Forest, compose: (T, T) -> T, a: seq<T>, b: seq<T>, v: nat)
    requires v < t.Size() == |a| == |b|
    requires forall u | u in t.Ancestors(v) && u < t.Size() :: a[u] == b[u]
    ensures t.Fold(compose, a, v) == t.Fold(compose, b, v)
    decreases t.Rank(v)
  {
    if t.HasParent(v) {
      FoldReadsAncestors(t, compose, a, b, t.parent[v]);
    }
  }
}
