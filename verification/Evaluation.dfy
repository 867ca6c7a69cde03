/** Evaluating a plan: the sequential sink, the level-parallel executor path, and the reference both must meet. */
module Evaluation {
  import opened Sequences
  import opened Polytrees
  import opened TransformStates
  import opened Planning
  import opened Batches
  import opened Workspaces

  datatype EvaluationResult = EvaluationResult(error: TransformError, changed: seq<nat>, worldRevision: nat)

  /** The world of `v` given its parent's current world. */
  function World<T>(t: Forest, compose: (T, T) -> T, records: seq<Record<T>>, v: nat): T
    requires v < t.Size() == |records|
  {
    if t.HasParent(v) then compose(records[t.parent[v]].world, records[v].local) else records[v].local
  }

  ghost predicate InRange(t: Forest, nodes: seq<nat>) {
    forall i | 0 <= i < |nodes| :: nodes[i] < t.Size()
  }

  /** Parents come before their children, and no node repeats. */
  ghost predicate RankAscending(t: Forest, nodes: seq<nat>) {
    InRange(t, nodes) && forall i, j | 0 <= i < j < |nodes| :: t.Rank(nodes[i]) < t.Rank(nodes[j])
  }

  /** The effect of pushing `nodes` through the evaluation sink, left to right. */
  function Recompute<T>(t: Forest, compose: (T, T) -> T, records: seq<Record<T>>, nodes: seq<nat>, revision: nat)
    : (r: seq<Record<T>>)
    requires |records| == t.Size() && InRange(t, nodes)
    ensures |r| == |records|
  {
    if nodes == [] then records
    else
      var prior := Recompute(t, compose, records, nodes[..|nodes| - 1], revision);
      var v := nodes[|nodes| - 1];
      prior[v := prior[v].(world := World(t, compose, prior, v), worldRevision := revision, dirty := false)]
  }

  lemma RecomputeStep<T>(t: Forest, compose: (T, T) -> T, records: seq<Record<T>>, nodes: seq<nat>, revision: nat,
                         i: nat)
    requires |records| == t.Size() && InRange(t, nodes) && i < |nodes|
    ensures var prior := Recompute(t, compose, records, nodes[..i], revision);
      Recompute(t, compose, records, nodes[..i + 1], revision) ==
      prior[nodes[i] := prior[nodes[i]].(
        world := World(t, compose, prior, nodes[i]), worldRevision := revision, dirty := false)]
  {
    assert nodes[..i + 1][..i] == nodes[..i];
  }

  /** The order-free description of an evaluated batch: members get the world their parent's final world gives them,
      everything else is untouched. */
  ghost predicate Settled<T>(t: Forest, compose: (T, T) -> T, before: seq<Record<T>>, after: seq<Record<T>>,
                             nodes: set<nat>, revision: nat)
  {
    && |before| == |after| == t.Size()
    && forall v: nat | v < t.Size() :: SettledAt(t, compose, before, after, nodes, revision, v)
  }

  ghost predicate SettledAt<T>(t: Forest, compose: (T, T) -> T, before: seq<Record<T>>, after: seq<Record<T>>,
                               nodes: set<nat>, revision: nat, v: nat)
    requires |before| == |after| == t.Size() && v < t.Size()
  {
    after[v] ==
      if v in nodes then
        Record(before[v].local, World(t, compose, after, v), before[v].localRevision, revision, false)
      else before[v]
  }

  /** In rank order the sink settles exactly its nodes. */
  lemma {:induction false} RecomputeSettles<T>(t: Forest, compose: (T, T) -> T, records: seq<Record<T>>,
                                              nodes: seq<nat>, revision: nat)
    requires |records| == t.Size() && RankAscending(t, nodes)
    ensures Settled(t, compose, records, Recompute(t, compose, records, nodes, revision), Elements(nodes), revision)
  {
    if nodes != [] {
      var front, v := nodes[..|nodes| - 1], nodes[|nodes| - 1];
      RecomputeSettles(t, compose, records, front, revision);
      var prior := Recompute(t, compose, records, front, revision);
      var after := Recompute(t, compose, records, nodes, revision);
      assert Elements(nodes) == Elements(front) + {v};
      forall u: nat | u < t.Size() ensures SettledAt(t, compose, records, after, Elements(nodes), revision, u) {
        assert SettledAt(t, compose, records, prior, Elements(front), revision, u);
        if u in front {
          var i :| 0 <= i < |front| && front[i] == u;
          assert nodes[i] == u;
          assert t.HasParent(u) ==> t.parent[u] != v;
        } else if u == v {
          assert t.HasParent(v) ==> t.parent[v] != v;
        }
      }
    }
  }

  /** There is only one settled outcome. */
  lemma {:induction false} SettledUniqueAt<T>(t: Forest, compose: (T, T) -> T, before: seq<Record<T>>,
                                             a: seq<Record<T>>, b: seq<Record<T>>,
                                             nodes: set<nat>, revision: nat, v: nat)
    requires Settled(t, compose, before, a, nodes, revision) && Settled(t, compose, before, b, nodes, revision)
    requires v < t.Size()
    ensures a[v] == b[v]
    decreases t.Rank(v)
  {
    assert SettledAt(t, compose, before, a, nodes, revision, v) && SettledAt(t, compose, before, b, nodes, revision, v);
    if t.HasParent(v) {
      SettledUniqueAt(t, compose, before, a, b, nodes, revision, t.parent[v]);
    }
  }

  lemma SettledUnique<T>(t: Forest, compose: (T, T) -> T, before: seq<Record<T>>,
                         a: seq<Record<T>>, b: seq<Record<T>>, nodes: set<nat>, revision: nat)
    requires Settled(t, compose, before, a, nodes, revision) && Settled(t, compose, before, b, nodes, revision)
    ensures a == b
  {
    forall v: nat | v < t.Size() ensures a[v] == b[v] {
      SettledUniqueAt(t, compose, before, a, b, nodes, revision, v);
    }
  }

  /** Rank order with every rank below `k`. */
  ghost predicate AscendsBelow(t: Forest, nodes: seq<nat>, k: nat) {
    RankAscending(t, nodes) && forall i | 0 <= i < |nodes| :: t.Rank(nodes[i]) < k
  }

  lemma AscendsAppend(t: Forest, nodes: seq<nat>, k: nat)
    requires AscendsBelow(t, nodes, k) && k < t.Size()
    ensures AscendsBelow(t, nodes + [t.order[k]], k + 1) && AscendsBelow(t, nodes, k + 1)
  {
  }

  lemma AscendsNil(t: Forest)
    ensures AscendsBelow(t, [], 0)
  {
  }

  /** Selecting from the topological order keeps rank order. */
  lemma {:induction false} RestrictAscends(t: Forest, k: nat, keep: set<nat>)
    requires k <= |t.order|
    ensures AscendsBelow(t, Restrict(t.order[..k], keep), k)
  {
    hide AscendsBelow, Restrict, Topology.Ordered, Topology.LevelsListed, Topology.RootsListed;
    if k > 0 {
      RestrictAscends(t, k - 1, keep);
      OrderInRange(t);
      RestrictStep(t.order, k - 1, keep);
      var front := Restrict(t.order[..k - 1], keep);
      AscendsAppend(t, front, k - 1);
      assert front + [] == front;
    } else {
      AscendsNil(t);
      RestrictNone(t.order[..0], keep);
    }
  }

  lemma PlannedAscends(t: Forest, r: set<nat>)
    ensures RankAscending(t, Planned(t, r))
    ensures Elements(Planned(t, r)) == Affected(t, r)
  {
    assert t.order[..t.Size()] == t.order;
    RestrictAscends(t, t.Size(), Affected(t, r));
    OrderDistinct(t);
  }

  // ----- the value-level meaning of an accepted evaluation -----

  function Evaluated<T>(t: Forest, compose: (T, T) -> T, s: State<T>, nodes: seq<nat>): State<T>
    requires |s.records| == t.Size() && InRange(t, nodes)
  {
    var revision := s.revision + if nodes == [] then 0 else 1;
    var records := Recompute(t, compose, s.records, nodes, revision);
    State(records, Restrict(s.frontier, Dirty(records)), revision, s.mutationGeneration,
          Increment64(s.evaluationGeneration))
  }

  /** Why a plan is turned away, in the order the checks run. */
  function Rejection<T>(topology: Polytree, s: State<T>, plan: EvaluationPlan, workspaceGeneration: nat): TransformError
  {
    if plan.topology != topology then TopologyMismatch
    else if plan.workspace == null || workspaceGeneration != plan.workspaceGeneration
      || plan.sourceRevision != s.revision || plan.mutationGeneration != s.mutationGeneration
      || plan.evaluationGeneration != s.evaluationGeneration then StalePlan
    else if plan.nodeCount != 0 && s.revision == MAX64 then RevisionExhausted
    else Ok
  }

  /** A plan is accepted exactly when it is for this topology, every counter it was built under is still what it was,
      and the clock has a revision for its worlds if it has any; otherwise the first of these that fails is reported. */
  lemma RejectionMeans<T>(topology: Polytree, s: State<T>, plan: EvaluationPlan, workspaceGeneration: nat)
    ensures var error := Rejection(topology, s, plan, workspaceGeneration);
      var own := plan.topology == topology;
      var current := plan.workspace != null && plan.workspaceGeneration == workspaceGeneration
                     && plan.sourceRevision == s.revision && plan.mutationGeneration == s.mutationGeneration
                     && plan.evaluationGeneration == s.evaluationGeneration;
      var room := plan.nodeCount == 0 || s.revision != MAX64;
      && (error == Ok <==> own && current && room)
      && (error == TopologyMismatch <==> !own)
      && (error == StalePlan <==> own && !current)
      && (error == RevisionExhausted <==> own && current && !room)
  {
  }

  /** What an accepted evaluation does to the state: its nodes get, under one new revision, the composition of their own
      local with their parent's new world; the frontier loses them and keeps its order; everything else stays, and the
      evaluation generation moves even when there was nothing to do. */
  lemma EvaluatedMeans<T>(t: Forest, compose: (T, T) -> T, s: State<T>, nodes: seq<nat>)
    requires |s.records| == t.Size() && RankAscending(t, nodes)
    ensures var r := Evaluated(t, compose, s, nodes);
      && |r.records| == t.Size()
      && r.revision == (if nodes == [] then s.revision else s.revision + 1)
      && r.mutationGeneration == s.mutationGeneration && r.evaluationGeneration != s.evaluationGeneration
      && (forall v: nat | v < t.Size() && v !in nodes :: r.records[v] == s.records[v])
      && (forall v: nat | v < t.Size() && v in nodes ::
            && r.records[v].local == s.records[v].local && r.records[v].localRevision == s.records[v].localRevision
            && r.records[v].worldRevision == s.revision + 1 && !r.records[v].dirty
            && r.records[v].world ==
               if t.HasParent(v) then compose(r.records[t.parent[v]].world, s.records[v].local)
               else s.records[v].local)
      && (forall v: nat :: v in r.frontier <==> v in s.frontier && v < t.Size() && r.records[v].dirty)
      && (forall k | 0 <= k <= |s.frontier| :: Restrict(s.frontier[..k], Dirty(r.records)) <= r.frontier)
  {
    var r := Evaluated(t, compose, s, nodes);
    RecomputeSettles(t, compose, s.records, nodes, r.revision);
    hide Recompute, Restrict, RankAscending;
    forall v: nat | v < t.Size()
      ensures v !in nodes ==> r.records[v] == s.records[v]
      ensures v in nodes ==> nodes != [] && r.records[v] == Record(s.records[v].local, World(t, compose, r.records, v),
                                                                   s.records[v].localRevision, r.revision, false)
    {
      assert SettledAt(t, compose, s.records, r.records, Elements(nodes), r.revision, v);
    }
    forall k | 0 <= k <= |s.frontier| ensures Restrict(s.frontier[..k], Dirty(r.records)) <= r.frontier {
      assert s.frontier == s.frontier[..k] + s.frontier[k..];
      RestrictConcat(s.frontier[..k], s.frontier[k..], Dirty(r.records));
    }
  }

  /** What the plan's view shows now. */
  function PlanNodes(plan: EvaluationPlan): seq<nat>
    reads plan.workspace
  {
    if plan.workspace == null then [] else Span(plan.workspace.OrderedNodes(plan.partial), plan.nodeCount)
  }

  /** The plan's view does not reach past the end of its list. */
  predicate Readable(plan: EvaluationPlan)
    reads plan.workspace
  {
    plan.workspace != null ==> plan.nodeCount <= |plan.workspace.OrderedNodes(plan.partial)|
  }

  function PlanGeneration(plan: EvaluationPlan): nat
    reads plan.workspace
  {
    if plan.workspace == null then 0 else plan.workspace.generation
  }

  /** Pushes one node through the sink. */
  method PushNode<T>(topology: Polytree, state: TransformState<T>, compose: (T, T) -> T, node: nat, revision: nat)
    requires node < topology.shape.Size() == |state.records|
    modifies state`records
    ensures state.records == old(state.records)[node := old(state.records)[node].(
              world := World(topology.shape, compose, old(state.records), node),
              worldRevision := revision, dirty := false)]
  {
    var parent := topology.shape.parent[node];
    var target := state.records[node];
    var world := target.local;
    if parent != INVALID_NODE {
      world := compose(state.records[parent].world, target.local);
    }
    state.records := state.records[node := target.(world := world, worldRevision := revision, dirty := false)];
  }

  /** Pushes the nodes through the sink, left to right. */
  method PushAll<T>(topology: Polytree, state: TransformState<T>, compose: (T, T) -> T, nodes: seq<nat>, revision: nat)
    requires |state.records| == topology.shape.Size() && InRange(topology.shape, nodes)
    modifies state`records
    ensures state.records == Recompute(topology.shape, compose, old(state.records), nodes, revision)
  {
    assert nodes[..0] == [];
    assert Recompute(topology.shape, compose, old(state.records), nodes[..0], revision) == old(state.records);
    hide Topology.Valid, Recompute;
    for i := 0 to |nodes|
      invariant state.records == Recompute(topology.shape, compose, old(state.records), nodes[..i], revision)
    {
      RecomputeStep(topology.shape, compose, old(state.records), nodes, revision, i);
      PushNode(topology, state, compose, nodes[i], revision);
    }
    assert nodes[..|nodes|] == nodes;
  }

  /** The sequential evaluator. */
  method Evaluate<T>(topology: Polytree, state: TransformState<T>, plan: EvaluationPlan, compose: (T, T) -> T)
    returns (result: EvaluationResult)
    requires state.Value().Valid()
    requires Rejection(topology, state.Value(), plan, PlanGeneration(plan)) == Ok ==>
               Readable(plan) && |state.records| == topology.shape.Size() && InRange(topology.shape, PlanNodes(plan))
    modifies state
    ensures result.error == Rejection(topology, old(state.Value()), plan, PlanGeneration(plan))
    ensures result.error != Ok ==> state.Value() == old(state.Value()) && result.changed == []
    ensures result.error == Ok ==>
              && state.Value() == Evaluated(topology.shape, compose, old(state.Value()), PlanNodes(plan))
              && result.changed == PlanNodes(plan)
    ensures result.worldRevision == state.revision
  {
    hide Topology.Valid, Recompute, World, Restrict, RankAscending, Workspace.MetadataFor, AreSubtrees, AreIntervals;
    if plan.topology != topology {
      return EvaluationResult(TopologyMismatch, [], state.revision);
    }
    if plan.workspace == null || plan.workspace.generation != plan.workspaceGeneration
      || plan.sourceRevision != state.revision || plan.mutationGeneration != state.mutationGeneration
      || plan.evaluationGeneration != state.evaluationGeneration {
      return EvaluationResult(StalePlan, [], state.revision);
    }
    if plan.nodeCount != 0 && state.revision == MAX64 {
      return EvaluationResult(RevisionExhausted, [], state.revision);
    }
    var nodes := PlanNodes(plan);
    FrontierInRange(state.Value());
    var revision := state.BeginEvaluation(nodes != []);
    PushAll(topology, state, compose, nodes, revision);
    state.CompactDirtyFrontier();
    return EvaluationResult(Ok, nodes, revision);
  }

  // ----- the level-parallel path -----

  /** Worker writes so far: nodes in `done` have the world their parent's current world gives them. */
  ghost predicate WorldsDone<T>(t: Forest, compose: (T, T) -> T, before: seq<Record<T>>, after: seq<Record<T>>,
                                done: set<nat>)
  {
    && |before| == |after| == t.Size()
    && forall v: nat | v < t.Size() ::
      after[v] == if v in done then before[v].(world := World(t, compose, after, v)) else before[v]
  }

  /** One worker write. It reads a shallower node and writes its own, so it disturbs no finished node. */
  lemma WorkerWrite<T>(t: Forest, compose: (T, T) -> T, before: seq<Record<T>>, records: seq<Record<T>>,
                       done: set<nat>, v: nat)
    requires WorldsDone(t, compose, before, records, done) && v < t.Size()
    requires forall u: nat | u < t.Size() && u in done :: t.Depth(u) <= t.Depth(v)
    ensures WorldsDone(t, compose, before, records[v := records[v].(world := World(t, compose, records, v))],
                       done + {v})
  {
    var after := records[v := records[v].(world := World(t, compose, records, v))];
    forall u: nat | u < t.Size() && u in done + {v}
      ensures World(t, compose, after, u) == World(t, compose, records, u)
    {
      if t.HasParent(u) {
        assert t.Depth(t.parent[u]) < t.Depth(u);
      }
    }
  }

  /** The worker callback over one level, in whatever order the writes of its chunks interleave. */
  method RunLevel<T>(topology: Polytree, state: TransformState<T>, compose: (T, T) -> T, writes: seq<nat>,
                     ghost level: nat, ghost before: seq<Record<T>>, ghost done: set<nat>)
    requires InRange(topology.shape, writes)
    requires forall i | 0 <= i < |writes| :: topology.shape.Depth(writes[i]) == level
    requires forall u: nat | u < topology.shape.Size() && u in done :: topology.shape.Depth(u) <= level
    requires WorldsDone(topology.shape, compose, before, state.records, done)
    modifies state`records
    ensures |state.records| == topology.shape.Size()
    ensures WorldsDone(topology.shape, compose, before, state.records, done + Elements(writes))
  {
    ghost var t := topology.shape;
    assert done + Elements(writes[..0]) == done;
    for i := 0 to |writes|
      invariant WorldsDone(t, compose, before, state.records, done + Elements(writes[..i]))
    {
      var node := writes[i];
      WorkerWrite(t, compose, before, state.records, done + Elements(writes[..i]), node);
      assert Elements(writes[..i + 1]) == Elements(writes[..i]) + {node};
      assert done + Elements(writes[..i + 1]) == done + Elements(writes[..i]) + {node};
      var parent := topology.shape.parent[node];
      var target := state.records[node];
      var world := if parent == INVALID_NODE then target.local
                   else compose(state.records[parent].world, target.local);
      state.records := state.records[node := target.(world := world)];
    }
    assert writes[..|writes|] == writes;
  }

  /** The nodes of `s` above level `l`. */
  ghost function Above(t: Forest, s: seq<nat>, l: nat): set<nat> {
    set v | v in s && t.Depth(v) < l
  }

  lemma AboveStep(t: Forest, s: seq<nat>, levels: seq<nat>, l: nat, writes: seq<nat>)
    requires InRange(t, s) && Leveled(s, levels)
    requires |levels| == t.Size() && forall v: nat | v < t.Size() :: levels[v] == t.Depth(v)
    requires multiset(writes) == multiset(AtLevel(s, levels, l))
    ensures Above(t, s, l + 1) == Above(t, s, l) + Elements(writes)
    ensures InRange(t, writes) && forall i | 0 <= i < |writes| :: t.Depth(writes[i]) == l
  {
    SameElements(writes, AtLevel(s, levels, l));
    AtLevelMembers(s, levels, l);
    forall i | 0 <= i < |writes| ensures writes[i] < t.Size() && t.Depth(writes[i]) == l {
      assert writes[i] in Elements(writes);
    }
    forall v | v in s ensures v < t.Size() {
    }
    assert forall v: nat :: v in Elements(writes) <==> v in s && v < t.Size() && t.Depth(v) == l;
  }

  /** The serial commit after the last level. */
  method Commit<T>(state: TransformState<T>, nodes: seq<nat>, revision: nat)
    requires forall i | 0 <= i < |nodes| :: nodes[i] < |state.records|
    modifies state`records
    ensures |state.records| == |old(state.records)|
    ensures forall v: nat | v < |state.records| ::
      state.records[v] == if v in nodes then old(state.records)[v].(worldRevision := revision, dirty := false)
                          else old(state.records)[v]
  {
    for i := 0 to |nodes|
      invariant |state.records| == |old(state.records)|
      invariant forall v: nat | v < |state.records| ::
        state.records[v] == if v in nodes[..i] then old(state.records)[v].(worldRevision := revision, dirty := false)
                            else old(state.records)[v]
    {
      assert nodes[..i + 1] == nodes[..i] + [nodes[i]];
      state.records := state.records[nodes[i] := state.records[nodes[i]].(worldRevision := revision, dirty := false)];
    }
    assert nodes[..|nodes|] == nodes;
  }

  /** Committed worker writes settle the batch. */
  lemma CommittedSettles<T>(t: Forest, compose: (T, T) -> T, before: seq<Record<T>>, worlds: seq<Record<T>>,
                            after: seq<Record<T>>, nodes: seq<nat>, revision: nat)
    requires WorldsDone(t, compose, before, worlds, Elements(nodes))
    requires |after| == t.Size() && forall v: nat | v < t.Size() ::
      after[v] == if v in nodes then worlds[v].(worldRevision := revision, dirty := false) else worlds[v]
    ensures Settled(t, compose, before, after, Elements(nodes), revision)
  {
    forall v: nat | v < t.Size() ensures SettledAt(t, compose, before, after, Elements(nodes), revision, v) {
      assert World(t, compose, after, v) == World(t, compose, worlds, v);
    }
  }

  /** A plan whose workspace still holds it: its nodes are in topological order and the metadata is for its topology. */
  ghost predicate Genuine(topology: Polytree, plan: EvaluationPlan)
    reads plan.workspace
  {
    plan.workspace != null ==>
      && plan.workspace.Valid() && plan.workspace.topologyIdentity == topology
      && RankAscending(topology.shape, PlanNodes(plan))
  }

  /** An executor may run the writes of one level in any order. */
  ghost predicate AnyOrder(schedule: (nat, seq<nat>) -> seq<nat>) {
    forall l: nat, s: seq<nat> :: multiset(schedule(l, s)) == multiset(s)
  }

  /** Runs all levels, a barrier between each two. */
  method RunLevels<T>(topology: Polytree, state: TransformState<T>, compose: (T, T) -> T, nodes: seq<nat>,
                      ghost levels: seq<nat>, placed: seq<nat>, offsets: seq<nat>,
                      schedule: (nat, seq<nat>) -> seq<nat>)
    requires InRange(topology.shape, nodes) && Leveled(nodes, levels) && AnyOrder(schedule)
    requires |levels| == topology.shape.Size() == |state.records|
    requires forall v: nat | v < topology.shape.Size() :: levels[v] == topology.shape.Depth(v)
    requires |offsets| == |topology.shape.levels| + 1
    requires forall l | 0 <= l < |topology.shape.levels| :: IsBatch(nodes, levels, l, placed, offsets)
    modifies state`records
    ensures |state.records| == topology.shape.Size()
    ensures WorldsDone(topology.shape, compose, old(state.records), state.records, Elements(nodes))
  {
    ghost var t, before := topology.shape, state.records;
    hide AtLevel, WorldsDone, Topology.Valid;
    assert WorldsDone(t, compose, before, before, Above(t, nodes, 0)) by { NothingDone(t, compose, before, nodes); }
    for level := 0 to |offsets| - 1
      invariant |state.records| == t.Size()
      invariant WorldsDone(t, compose, before, state.records, Above(t, nodes, level))
    {
      assert IsBatch(nodes, levels, level, placed, offsets);
      var batch := placed[offsets[level]..offsets[level + 1]];
      var writes := schedule(level, batch);
      AboveStep(t, nodes, levels, level, writes);
      RunLevel(topology, state, compose, writes, level, before, Above(t, nodes, level));
    }
    DepthBelowLevels(t);
    assert Above(t, nodes, |t.levels|) == Elements(nodes);
  }

  lemma NothingDone<T>(t: Forest, compose: (T, T) -> T, records: seq<Record<T>>, nodes: seq<nat>)
    requires |records| == t.Size()
    ensures WorldsDone(t, compose, records, records, Above(t, nodes, 0))
  {
  }

  /** The batch proper: workers write worlds level by level, then the commit publishes revisions and clean flags. */
  method CommitLevels<T>(topology: Polytree, state: TransformState<T>, workspace: Workspace, nodes: seq<nat>,
                         compose: (T, T) -> T, schedule: (nat, seq<nat>) -> seq<nat>)
    requires state.Value().Valid() && |state.records| == topology.shape.Size()
    requires RankAscending(topology.shape, nodes) && AnyOrder(schedule)
    requires nodes != [] ==> state.revision < MAX64
    requires workspace.Valid() && workspace.topologyIdentity == topology && Leveled(nodes, workspace.dependencyLevel)
    requires |workspace.dependencyOffsets| == |topology.shape.levels| + 1
    requires forall l | 0 <= l < |topology.shape.levels| ::
      IsBatch(nodes, workspace.dependencyLevel, l, workspace.dependencyNodes, workspace.dependencyOffsets)
    modifies state
    ensures state.Value() == Evaluated(topology.shape, compose, old(state.Value()), nodes)
  {
    hide Topology.Valid, AreSubtrees, AreIntervals, AreRanks, AtLevel, IsBatch, WorldsDone, Settled, Recompute;
    FrontierInRange(state.Value());
    ghost var before := state.records;
    var revision := state.BeginEvaluation(nodes != []);
    RunLevels(topology, state, compose, nodes, workspace.dependencyLevel,
              workspace.dependencyNodes, workspace.dependencyOffsets, schedule);
    ghost var worlds := state.records;
    Commit(state, nodes, revision);
    CommittedSettles(topology.shape, compose, before, worlds, state.records, nodes, revision);
    RecomputeSettles(topology.shape, compose, before, nodes, revision);
    SettledUnique(topology.shape, compose, before, state.records,
                  Recompute(topology.shape, compose, before, nodes, revision), Elements(nodes), revision);
    state.CompactDirtyFrontier();
  }

  lemma AscendingInRange(topology: Polytree, plan: EvaluationPlan)
    requires plan.workspace != null
    ensures RankAscending(topology.shape, PlanNodes(plan)) ==> InRange(topology.shape, PlanNodes(plan))
  {
  }

  /** The parallel evaluator: for every executor schedule, the outcome of the sequential one. */
  method EvaluateParallel<T>(topology: Polytree, state: TransformState<T>, plan: EvaluationPlan, compose: (T, T) -> T,
                             workerCount: nat, minimumGrain: nat, schedule: (nat, seq<nat>) -> seq<nat>)
    returns (result: EvaluationResult)
    requires state.Value().Valid() && AnyOrder(schedule)
    requires Rejection(topology, state.Value(), plan, PlanGeneration(plan)) == Ok ==>
               Readable(plan) && |state.records| == topology.shape.Size() && Genuine(topology, plan)
    modifies state, plan.workspace
    ensures result.error == Rejection(topology, old(state.Value()), plan, old(PlanGeneration(plan)))
    ensures result.error != Ok ==> state.Value() == old(state.Value()) && result.changed == []
    ensures result.error == Ok ==>
              && state.Value() == Evaluated(topology.shape, compose, old(state.Value()), old(PlanNodes(plan)))
              && result.changed == old(PlanNodes(plan))
    ensures result.worldRevision == state.revision
    ensures PlanNodes(plan) == old(PlanNodes(plan)) && PlanGeneration(plan) == old(PlanGeneration(plan))
    ensures plan.workspace != null ==> var w := plan.workspace;
      && (old(w.Valid()) ==> w.Valid()) && w.generation == old(w.generation)
      && w.topologyIdentity == old(w.topologyIdentity)
      && w.affectedNodes == old(w.affectedNodes) && w.selectedNodes == old(w.selectedNodes)
  {
    hide AreSubtrees, AreIntervals, AreRanks, AtLevel, IsBatch, Evaluated, Topology.Valid, Workspace.Stamped,
      RankAscending;
    if plan.workspace != null { AscendingInRange(topology, plan); }
    if plan.topology != topology {
      return EvaluationResult(TopologyMismatch, [], state.revision);
    }
    if plan.workspace == null || plan.workspace.generation != plan.workspaceGeneration
      || plan.sourceRevision != state.revision || plan.mutationGeneration != state.mutationGeneration
      || plan.evaluationGeneration != state.evaluationGeneration {
      return EvaluationResult(StalePlan, [], state.revision);
    }
    if plan.nodeCount != 0 && state.revision == MAX64 {
      return EvaluationResult(RevisionExhausted, [], state.revision);
    }
    var nodes := PlanNodes(plan);
    var grain := if minimumGrain < 1 then 1 else minimumGrain;
    if |nodes| / grain < 2 || workerCount == 0 || plan.workspace.maximumLevelWidth / grain < 2 {
      result := Evaluate(topology, state, plan, compose);
      return;
    }
    var maximum := plan.workspace.PrepareDependencyBatches(topology, nodes);
    if maximum / grain < 2 {
      result := Evaluate(topology, state, plan, compose);
      return;
    }
    CommitLevels(topology, state, plan.workspace, nodes, compose, schedule);
    return EvaluationResult(Ok, nodes, state.revision);
  }
}
