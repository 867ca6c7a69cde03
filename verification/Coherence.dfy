/** Cache coherence: a node with nothing dirty at or above it holds the world a recomputation from its root gives. */
module Coherence {
  import opened Sequences
  import opened Polytrees
  import opened TransformStates
  import opened Planning
  import opened Workspaces
  import opened Evaluation

  ghost predicate CoherentAt<T>(t: Forest, compose: (T, T) -> T, records: seq<Record<T>>, v: nat)
    requires v < t.Size() == |records|
  {
    records[v].world == t.Fold(compose, Locals(records), v)
  }

  ghost predicate Coherent<T>(t: Forest, compose: (T, T) -> T, records: seq<Record<T>>) {
    && |records| == t.Size()
    && forall v: nat | v < t.Size() && v !in Affected(t, Dirty(records)) :: CoherentAt(t, compose, records, v)
  }

  /** A coherent state with an exact frontier. */
  ghost predicate Sound<T>(t: Forest, compose: (T, T) -> T, s: State<T>) {
    s.Valid() && Coherent(t, compose, s.records)
  }

  lemma CleanAbove(t: Forest, d: set<nat>, a: nat, v: nat)
    requires v < t.Size() && v !in Affected(t, d) && a in t.Ancestors(v)
    ensures a < t.Size() && a !in d && a !in Affected(t, d)
  {
    AncestorsClosed(t, a, v);
    assert t.Ancestors(v) * d == {};
    assert t.Ancestors(a) * d == {};
  }

  /** A node whose path to the root is neither dirty nor changed keeps its world. */
  lemma UnchangedCoherent<T>(t: Forest, compose: (T, T) -> T, a: seq<Record<T>>, b: seq<Record<T>>, v: nat)
    requires |a| == |b| == t.Size() && v < t.Size() && CoherentAt(t, compose, a, v)
    requires forall u | u in t.Ancestors(v) && u < t.Size() :: a[u].local == b[u].local
    requires a[v].world == b[v].world
    ensures CoherentAt(t, compose, b, v)
  {
    FoldReadsAncestors(t, compose, Locals(a), Locals(b), v);
  }

  /** Local edits and dirty marks never break coherence. */
  lemma TouchSound<T>(t: Forest, compose: (T, T) -> T, s: State<T>, v: nat, r: Record<T>)
    requires Sound(t, compose, s) && v < t.Size() && s.revision < MAX64
    requires r.dirty && r.world == s.records[v].world
    ensures Sound(t, compose, Touch(s, v, r))
  {
    TouchKeepsValid(s, v, r);
    var a, b := s.records, Touch(s, v, r).records;
    forall u: nat | u < t.Size() && u !in Affected(t, Dirty(b)) ensures CoherentAt(t, compose, b, u) {
      forall x | x in t.Ancestors(u) ensures x < t.Size() && x != v && x !in Dirty(a) {
        CleanAbove(t, Dirty(b), x, u);
      }
      assert t.Ancestors(u) * Dirty(a) == {};
      UnchangedCoherent(t, compose, a, b, u);
    }
  }

  // ----- evaluation -----

  lemma SettledDirty<T>(t: Forest, compose: (T, T) -> T, before: seq<Record<T>>, after: seq<Record<T>>,
                        nodes: set<nat>, revision: nat)
    requires Settled(t, compose, before, after, nodes, revision)
    ensures Dirty(after) == Dirty(before) - nodes
    ensures Locals(after) == Locals(before)
  {
    forall v: nat | v < t.Size() ensures after[v].dirty == (before[v].dirty && v !in nodes)
                                 ensures after[v].local == before[v].local
    {
      assert SettledAt(t, compose, before, after, nodes, revision, v);
    }
  }

  /** Members of an evaluated scope with nothing dirty left above them are coherent, from the top down. */
  lemma {:induction false} SettledCoherentAt<T>(t: Forest, compose: (T, T) -> T, before: seq<Record<T>>,
                                               after: seq<Record<T>>, r: set<nat>, revision: nat, v: nat)
    requires Coherent(t, compose, before)
    requires Settled(t, compose, before, after, Affected(t, r), revision)
    requires v < t.Size() && v !in Affected(t, Dirty(after))
    ensures CoherentAt(t, compose, after, v)
    decreases t.Rank(v)
  {
    SettledDirty(t, compose, before, after, Affected(t, r), revision);
    assert SettledAt(t, compose, before, after, Affected(t, r), revision, v);
    if v in Affected(t, r) {
      if t.HasParent(v) {
        CleanAbove(t, Dirty(after), t.parent[v], v);
        SettledCoherentAt(t, compose, before, after, r, revision, t.parent[v]);
      }
    } else {
      forall x | x in t.Ancestors(v) ensures x !in Dirty(before) {
        CleanAbove(t, r, x, v);
        CleanAbove(t, Dirty(after), x, v);
      }
      assert t.Ancestors(v) * Dirty(before) == {};
      assert forall u: nat | u < t.Size() :: Locals(before)[u] == before[u].local && Locals(after)[u] == after[u].local;
      UnchangedCoherent(t, compose, before, after, v);
    }
  }

  /** The nodes a plan may hold: whole subtrees of some current dirty roots, in topological order. */
  ghost predicate IsScope(t: Forest, d: set<nat>, nodes: seq<nat>) {
    exists r: set<nat> :: r <= DirtyRoots(t, d) && nodes == Planned(t, r)
  }

  lemma EvaluatedRecords<T>(t: Forest, compose: (T, T) -> T, s: State<T>, r: set<nat>)
    requires |s.records| == t.Size()
    ensures InRange(t, Planned(t, r))
    ensures var s' := Evaluated(t, compose, s, Planned(t, r));
      Settled(t, compose, s.records, s'.records, Affected(t, r), s'.revision)
  {
    PlannedAscends(t, r);
    RecomputeSettles(t, compose, s.records, Planned(t, r), Evaluated(t, compose, s, Planned(t, r)).revision);
  }

  /** Evaluating dirty subtrees keeps the frontier exact and the cache coherent; it clears exactly those subtrees. */
  lemma EvaluatedSound<T>(t: Forest, compose: (T, T) -> T, s: State<T>, r: set<nat>)
    requires Sound(t, compose, s)
    requires Planned(t, r) != [] ==> s.revision < MAX64
    ensures InRange(t, Planned(t, r))
    ensures var s' := Evaluated(t, compose, s, Planned(t, r));
      && Sound(t, compose, s')
      && Dirty(s'.records) == Dirty(s.records) - Affected(t, r)
      && Locals(s'.records) == Locals(s.records)
      && (forall v: nat | v < t.Size() && v !in Affected(t, r) :: s'.records[v] == s.records[v])
  {
    EvaluatedRecords(t, compose, s, r);
    var s' := Evaluated(t, compose, s, Planned(t, r));
    SettledDirty(t, compose, s.records, s'.records, Affected(t, r), s'.revision);
    RestrictDistinct(s.frontier, Dirty(s'.records));
    assert Elements(s'.frontier) == Dirty(s'.records);
    forall v: nat | v < t.Size() && v !in Affected(t, Dirty(s'.records)) ensures CoherentAt(t, compose, s'.records, v) {
      SettledCoherentAt(t, compose, s.records, s'.records, r, s'.revision, v);
    }
    forall v: nat | v < t.Size() && v !in Affected(t, r) ensures s'.records[v] == s.records[v] {
      assert SettledAt(t, compose, s.records, s'.records, Affected(t, r), s'.revision, v);
    }
  }

  lemma CleanCoherent<T>(t: Forest, compose: (T, T) -> T, records: seq<Record<T>>)
    requires Coherent(t, compose, records) && Dirty(records) == {}
    ensures forall v: nat | v < t.Size() :: CoherentAt(t, compose, records, v)
  {
    assert forall v: nat | v < t.Size() :: t.Ancestors(v) * {} == {};
  }

  lemma PlannedCovers<T>(t: Forest, records: seq<Record<T>>)
    requires |records| == t.Size()
    ensures Dirty(records) <= Affected(t, Dirty(records))
    ensures Planned(t, Dirty(records)) != [] ==> Dirty(records) != {}
  {
    var d := Dirty(records);
    forall v | v in d ensures v in Affected(t, d) { DirtyIsAffected(t, d, v); }
    PlannedAscends(t, d);
    if Planned(t, d) != [] {
      assert Planned(t, d)[0] in Elements(Planned(t, d));
    }
  }

  /** After a full plan nothing is dirty and every world is the recomputed one. */
  lemma FullEvaluation<T>(t: Forest, compose: (T, T) -> T, s: State<T>)
    requires Sound(t, compose, s)
    requires Dirty(s.records) != {} ==> s.revision < MAX64
    ensures InRange(t, Planned(t, Dirty(s.records)))
    ensures var s' := Evaluated(t, compose, s, Planned(t, Dirty(s.records)));
      && Sound(t, compose, s') && s'.frontier == []
      && (forall v: nat | v < t.Size() :: CoherentAt(t, compose, s'.records, v))
  {
    hide Evaluated, Recompute, Planned, Affected, Topology.Valid, CoherentAt;
    PlannedCovers(t, s.records);
    EvaluatedSound(t, compose, s, Dirty(s.records));
    var s' := Evaluated(t, compose, s, Planned(t, Dirty(s.records)));
    assert Dirty(s'.records) == {};
    FrontierInRange(s');
    CleanCoherent(t, compose, s'.records);
  }
}
