/** Handing changed worlds to the engine: the directly collected batch against the revision scan. */
module Synchronization {
  import opened Options
  import opened Sequences
  import opened Polytrees
  import opened TransformStates
  import opened Planning
  import opened Workspaces
  import opened Evaluation
  import opened Coherence
  import opened ActiveMotionSets
  import opened LocalEdits
  import opened MotionAdvance

  /** The nodes whose world is newer than revision `since`. */
  function Changed<T>(records: seq<Record<T>>, since: nat): set<nat> {
    set v: nat | v < |records| && records[v].worldRevision > since
  }

  /** The revision scan: every node in topological order, keeping the newer ones. */
  method ChangedNodesSince<T>(t: Forest, records: seq<Record<T>>, since: nat) returns (changed: seq<nat>)
    requires |records| == t.Size()
    ensures changed == Restrict(t.order, Changed(records, since))
  {
    hide Topology.Valid, Restrict;
    OrderDistinct(t);
    OrderIndices(t);
    RestrictNone(t.order[..0], Changed(records, since));
    changed := [];
    for i := 0 to |t.order|
      invariant changed == Restrict(t.order[..i], Changed(records, since))
    {
      RestrictStep(t.order, i, Changed(records, since));
      if records[t.order[i]].worldRevision > since {
        changed := changed + [t.order[i]];
      }
    }
    assert t.order[..|t.order|] == t.order;
  }

  lemma OrderIndices(t: Forest)
    ensures forall i: nat | i < |t.order| :: t.order[i] < t.Size()
  {
  }

  // ----- what evaluations and edits do to world revisions -----

  /** An evaluation gives its nodes the new revision and leaves the others theirs. */
  lemma EvaluationStamps<T>(t: Forest, compose: (T, T) -> T, s: State<T>, r: set<nat>)
    requires |s.records| == t.Size() && s.Clocked()
    ensures InRange(t, Planned(t, r))
    ensures var s' := Evaluated(t, compose, s, Planned(t, r));
      && s'.Clocked() && |s'.records| == t.Size() && s.revision <= s'.revision
      && forall since: nat | since <= s.revision ::
           Changed(s'.records, since) == Changed(s.records, since) + Elements(Planned(t, r))
  {
    var nodes := Planned(t, r);
    PlannedAscends(t, r);
    var s' := Evaluated(t, compose, s, nodes);
    RecomputeSettles(t, compose, s.records, nodes, s'.revision);
    hide Planned, Recompute, Affected, RankAscending;
    assert nodes != [] || Elements(nodes) == {};
    forall v: nat | v < t.Size()
      ensures s'.records[v].localRevision == s.records[v].localRevision
      ensures s'.records[v].worldRevision == if v in Elements(nodes) then s'.revision else s.records[v].worldRevision
    {
      assert SettledAt(t, compose, s.records, s'.records, Elements(nodes), s'.revision, v);
    }
    forall v | v in Elements(nodes) ensures v < t.Size() && s'.revision > s.revision {
      var i :| 0 <= i < |nodes| && nodes[i] == v;
    }
  }

  /** Local edits are invisible to the scan. */
  lemma {:induction false} EditsStamps<T>(s: State<T>, us: seq<Entry<T>>)
    requires Within(us, |s.records|) && s.revision + |us| <= MAX64 && s.Clocked()
    ensures EditAll(s, us).Clocked()
    ensures forall since: nat :: Changed(EditAll(s, us).records, since) == Changed(s.records, since)
  {
    if us != [] {
      EditsStamps(s, us[..|us| - 1]);
    }
    forall v: nat | v < |s.records| ensures EditAll(s, us).records[v].worldRevision == s.records[v].worldRevision {
      EditAllAt(s, us, v);
    }
  }

  lemma AdvanceStamps<T>(t: Forest, compose: (T, T) -> T, s: State<T>, us: seq<Entry<T>>, since: nat)
    requires |s.records| == t.Size() && s.Clocked() && since <= s.revision
    requires Within(us, t.Size()) && s.revision + |us| <= MAX64
    ensures var s', nodes := Advanced(t, compose, s, us), Planned(t, Dirty(EditAll(s, us).records));
      && s'.Clocked() && |s'.records| == t.Size() && s.revision <= s'.revision && InRange(t, nodes)
      && Changed(s'.records, since) == Changed(s.records, since) + Elements(nodes)
  {
    EditsStamps(s, us);
    EvaluationStamps(t, compose, EditAll(s, us), Dirty(EditAll(s, us).records));
    hide EditAll, Evaluated, Planned, Changed;
  }

  // ----- the direct batch -----

  /** A stamp equals the epoch exactly for the nodes collected since the last synchronisation. */
  ghost predicate Collected(changes: seq<nat>, stamps: seq<nat>, epoch: nat) {
    && 0 < epoch <= MAX64 && Distinct(changes)
    && (forall i | 0 <= i < |changes| :: changes[i] < |stamps|)
    && (forall v: nat | v < |stamps| :: stamps[v] <= epoch && (stamps[v] == epoch <==> v in changes))
  }

  lemma CollectOne(changes: seq<nat>, stamps: seq<nat>, epoch: nat, v: nat)
    requires Collected(changes, stamps, epoch) && v < |stamps|
    ensures stamps[v] != epoch ==> Collected(changes + [v], stamps[v := epoch], epoch)
    ensures stamps[v] == epoch ==> v in changes
    ensures Elements(changes + [v]) == Elements(changes) + {v}
  {
  }

  /** Sorting the batch by rank gives exactly the scan's order. */
  lemma SortedIsScan(t: Forest, changes: seq<nat>, sorted: seq<nat>, ranks: seq<nat>, changed: set<nat>)
    requires AreRanks(t, ranks) && Distinct(changes) && Elements(changes) == changed
    requires forall v | v in changed :: v < t.Size()
    requires multiset(sorted) == multiset(changes)
    requires forall i, j | 0 <= i < j < |sorted| ::
      sorted[i] < |ranks| && sorted[j] < |ranks| && ranks[sorted[i]] <= ranks[sorted[j]]
    ensures sorted == Restrict(t.order, changed)
  {
    SameElements(sorted, changes);
    var scan := Restrict(t.order, changed);
    var leq := (a: nat, b: nat) => t.Rank(a) <= t.Rank(b);
    assert t.order[..t.Size()] == t.order;
    RestrictAscends(t, t.Size(), changed);
    OrderDistinct(t);
    RestrictDistinct(t.order, changed);
    forall v ensures v in scan <==> v in sorted {
      assert v in Elements(sorted) <==> v in Elements(changes);
    }
    DistinctSame(sorted, scan);
    InOrder(t, sorted, ranks);
    ScanAntisymmetric(t, scan);
    SortedUnique(scan, sorted, leq);
  }

  lemma InOrder(t: Forest, sorted: seq<nat>, ranks: seq<nat>)
    requires AreRanks(t, ranks)
    requires forall i, j | 0 <= i < j < |sorted| ::
      sorted[i] < |ranks| && sorted[j] < |ranks| && ranks[sorted[i]] <= ranks[sorted[j]]
    ensures SortedBy(sorted, (a: nat, b: nat) => t.Rank(a) <= t.Rank(b))
  {
  }

  lemma ScanAntisymmetric(t: Forest, scan: seq<nat>)
    requires RankAscending(t, scan)
    ensures Antisymmetric(scan, (a: nat, b: nat) => t.Rank(a) <= t.Rank(b))
    ensures SortedBy(scan, (a: nat, b: nat) => t.Rank(a) <= t.Rank(b))
  {
    forall x, y | x in scan && y in scan && t.Rank(x) == t.Rank(y) ensures x == y {
      var i :| 0 <= i < |scan| && scan[i] == x;
      var j :| 0 <= j < |scan| && scan[j] == y;
    }
  }

  /** Distinct lists with the same members are arrangements of each other. */
  lemma DistinctSame(a: seq<nat>, b: seq<nat>)
    requires Distinct(a) && Distinct(b) && forall v :: v in a <==> v in b
    ensures multiset(a) == multiset(b)
  {
    DistinctCounts(a);
    DistinctCounts(b);
    forall v ensures multiset(a)[v] == multiset(b)[v] {
      assert v in multiset(a) <==> v in a;
      assert v in multiset(b) <==> v in b;
    }
  }

  /** An entity bound to a node, and how it sits relative to it. */
  datatype Binding<T> = Binding(entity: nat, nodeToTarget: T)

  datatype Write<T> = Write(entity: nat, world: T)

  /** The nodes some entity is bound to. */
  function Bound<T>(bindings: seq<Option<Binding<T>>>): set<nat> {
    set v: nat | v < |bindings| && bindings[v].Some?
  }

  /** The writer was called for the bound nodes among `changed`, in their order, each time with the node's entity and
      the node's world placed for it. */
  ghost predicate AreWrites<T>(changed: seq<nat>, bindings: seq<Option<Binding<T>>>, records: seq<Record<T>>,
                               place: (T, T) -> T, written: seq<Write<T>>)
    requires |bindings| == |records|
  {
    var bound: seq<nat> := Restrict(changed, Bound(bindings));
    && |written| == |bound|
    && forall k | 0 <= k < |bound| ::
         && bound[k] < |bindings| && bindings[bound[k]].Some?
         && written[k] == Write(bindings[bound[k]].value.entity,
                                place(records[bound[k]].world, bindings[bound[k]].value.nodeToTarget))
  }

  // ----- what a frame does to the scene -----

  /** What the controllers ask for before a step. */
  datatype Commands<T, V> = Commands(locals: seq<Entry<T>>, motions: seq<Entry<V>>)

  /** What fixed steps move forward: the transform state, the tick and the motions. */
  datatype Moment<T, V> = Moment(state: State<T>, tick: nat, active: Motions<V>)

  /** One fixed step: completed, or turned away with everything as it was. */
  ghost function Stepped<T, V>(topology: Polytree, integrate: (T, V, FixedStep) -> T, compose: (T, T) -> T, delta: int,
                               m: Moment<T, V>): (r: Moment<T, V>)
    requires |m.state.records| == topology.shape.Size()
    ensures |r.state.records| == topology.shape.Size() && r.active == m.active
  {
    if Preflight(topology, m.state, m.active, FixedStep(m.tick, delta)) == NoError then
      var us := Integrated(m.state, m.active.records, integrate, FixedStep(m.tick, delta));
      AdvancedSize(topology.shape, compose, m.state, us);
      m.(state := Advanced(topology.shape, compose, m.state, us), tick := m.tick + 1)
    else m
  }

  /** A batch of motion commands: refused as a whole for an unknown node, and otherwise as if applied one by one. */
  ghost predicate Commanded<V>(before: Motions<V>, updates: seq<Entry<V>>, stationary: V -> bool, after: Motions<V>) {
    && after.topology == before.topology && after.nodeCount == before.nodeCount
    && if exists i :: 0 <= i < |updates| && updates[i].node >= before.nodeCount then after.records == before.records
       else Ascending(after.records) && View(after.records) == SetAll(View(before.records), updates, stationary)
  }

  /** The controllers' commands, then one step. */
  ghost predicate StepLeads<T, V>(topology: Polytree, integrate: (T, V, FixedStep) -> T, compose: (T, T) -> T,
                                  stationary: V -> bool, delta: int, m: Moment<T, V>, c: Commands<T, V>,
                                  m': Moment<T, V>)
  {
    && Commanded(m.active, c.motions, stationary, m'.active)
    && var written := TryEdits(m.state, c.locals);
    && |written.records| == topology.shape.Size()
    && m' == Stepped(topology, integrate, compose, delta, Moment(written, m.tick, m'.active))
  }

  ghost predicate FrameTrace<T, V>(topology: Polytree, integrate: (T, V, FixedStep) -> T, compose: (T, T) -> T,
                                   stationary: V -> bool, delta: int, trace: seq<Moment<T, V>>,
                                   commands: nat -> Commands<T, V>)
  {
    forall k: nat | k < |trace| - 1 ::
      StepLeads(topology, integrate, compose, stationary, delta, trace[k], commands(k), trace[k + 1])
  }

  /** An evaluation outside a step: everything dirty, unless the clock is used up. */
  ghost function Refreshed<T>(t: Forest, compose: (T, T) -> T, s: State<T>): State<T>
    requires |s.records| == t.Size()
  {
    if Dirty(s.records) != {} && s.revision == MAX64 then s else Reevaluated(t, compose, s)
  }

  lemma AdvancedSize<T>(t: Forest, compose: (T, T) -> T, s: State<T>, us: seq<Entry<T>>)
    requires |s.records| == t.Size() && Within(us, t.Size()) && s.revision + |us| <= MAX64
    ensures |Advanced(t, compose, s, us).records| == t.Size()
  {
    hide Topology.Valid, Planned;
    PlannedAscends(t, Dirty(EditAll(s, us).records));
    EvaluatedClock(t, compose, EditAll(s, us), Planned(t, Dirty(EditAll(s, us).records)));
  }

  /** Nothing dirty, and every world the recomputed one. */
  ghost predicate UpToDate<T>(t: Forest, compose: (T, T) -> T, s: State<T>) {
    && s.frontier == [] && |s.records| == t.Size()
    && forall v: nat | v < t.Size() :: CoherentAt(t, compose, s.records, v)
  }

  /** Nothing stands against a step from tick `tick` and state `s`. */
  ghost predicate Taken<T, V>(topology: Polytree, delta: int, tick: nat, s: State<T>, active: Motions<V>) {
    && delta > 0 && tick != MAX64 && active.topology == topology
    && |s.records| == topology.shape.Size() && active.nodeCount == topology.shape.Size()
    && (forall i | 0 <= i < |active.records| :: active.records[i].node < topology.shape.Size())
    && s.revision + Needs(s, |active.records|) <= MAX64
  }

  lemma StepSettles<T, V>(topology: Polytree, integrate: (T, V, FixedStep) -> T, compose: (T, T) -> T,
                          stationary: V -> bool, delta: int, m: Moment<T, V>, c: Commands<T, V>, m': Moment<T, V>)
    requires Sound(topology.shape, compose, m.state) && m.state.revision <= MAX64 && Ascending(m.active.records)
    requires StepLeads(topology, integrate, compose, stationary, delta, m, c, m')
    ensures Sound(topology.shape, compose, m'.state) && m'.state.revision <= MAX64 && Ascending(m'.active.records)
    ensures m'.tick == m.tick || (m'.tick == m.tick + 1 && UpToDate(topology.shape, compose, m'.state))
    ensures m'.tick == m.tick + 1 <==> Taken(topology, delta, m.tick, TryEdits(m.state, c.locals), m'.active)
    ensures m'.tick == m.tick ==> m'.state == TryEdits(m.state, c.locals)
    ensures Taken(topology, delta, m.tick, TryEdits(m.state, c.locals), m'.active) ==>
              m'.state.revision == TryEdits(m.state, c.locals).revision +
                                   Needs(TryEdits(m.state, c.locals), |m'.active.records|)
  {
    hide Topology.Valid, Sound, Advanced, Integrated, CoherentAt, TryEdits, View, SetAll, Ascending;
    PreflightMeans(topology, TryEdits(m.state, c.locals), m'.active, FixedStep(m.tick, delta));
    TrySound(topology.shape, compose, m.state, c.locals);
    var mid := Moment(TryEdits(m.state, c.locals), m.tick, m'.active);
    if Preflight(topology, mid.state, mid.active, FixedStep(mid.tick, delta)) == NoError {
      Admitted(topology, mid.state, mid.active, integrate, FixedStep(mid.tick, delta));
      AdvancedMeans(topology.shape, compose, mid.state, mid.active.records, integrate, FixedStep(mid.tick, delta));
      AdvancedSize(topology.shape, compose, mid.state,
                   Integrated(mid.state, mid.active.records, integrate, FixedStep(mid.tick, delta)));
    }
  }

  /** Whatever the controllers command, the scene stays sound through a frame, and every step that is not turned away
      leaves it clean with all worlds right. */
  lemma {:induction false} FrameSettles<T, V>(topology: Polytree, integrate: (T, V, FixedStep) -> T,
                                              compose: (T, T) -> T, stationary: V -> bool, delta: int,
                                              trace: seq<Moment<T, V>>, commands: nat -> Commands<T, V>, k: nat)
    requires FrameTrace(topology, integrate, compose, stationary, delta, trace, commands) && k < |trace|
    requires Sound(topology.shape, compose, trace[0].state) && Ascending(trace[0].active.records)
    ensures Sound(topology.shape, compose, trace[k].state) && trace[k].state.revision <= MAX64
    ensures Ascending(trace[k].active.records)
    ensures k > 0 ==>
              || trace[k].tick == trace[k - 1].tick
              || (trace[k].tick == trace[k - 1].tick + 1 && UpToDate(topology.shape, compose, trace[k].state))
    ensures k > 0 ==>
      var tick, active, s := trace[k - 1].tick, trace[k].active, TryEdits(trace[k - 1].state, commands(k - 1).locals);
      trace[k].tick == tick + 1 <==>
        && delta > 0 && tick != MAX64 && active.topology == topology
        && |s.records| == topology.shape.Size() && active.nodeCount == topology.shape.Size()
        && (forall i | 0 <= i < |active.records| :: active.records[i].node < topology.shape.Size())
        && s.revision + |active.records| + (if s.frontier != [] || active.records != [] then 1 else 0) <= MAX64
  {
    hide Topology.Valid, StepLeads, UpToDate, Ascending;
    if k > 0 {
      FrameSettles(topology, integrate, compose, stationary, delta, trace, commands, k - 1);
      assert StepLeads(topology, integrate, compose, stationary, delta, trace[k - 1], commands(k - 1),
            trace[k - 1 + 1]);
      hide Sound;
      StepSettles(topology, integrate, compose, stationary, delta, trace[k - 1], commands(k - 1), trace[k]);
    }
  }

  /** So does the evaluation of a frame without steps. */
  lemma RefreshSettles<T>(t: Forest, compose: (T, T) -> T, s: State<T>)
    requires Sound(t, compose, s) && |s.records| == t.Size()
    ensures Dirty(s.records) == {} || s.revision < MAX64 ==> UpToDate(t, compose, Refreshed(t, compose, s))
    ensures Dirty(s.records) != {} && s.revision >= MAX64 ==> Refreshed(t, compose, s) == s
  {
    hide Topology.Valid, CoherentAt, Evaluated;
    ClockFits(s);
    if Dirty(s.records) == {} || s.revision < MAX64 {
      FullEvaluation(t, compose, s);
      PlannedAscends(t, Dirty(s.records));
      EvaluatedClock(t, compose, s, Planned(t, Dirty(s.records)));
    }
  }

  class SceneSynchronizer<T, V> {
    const topology: Polytree
    const state: TransformState<T>
    const workspace: Workspace
    const sequence: FixedStepSequence
    const compose: (T, T) -> T
    const maxCatchUpSteps: nat
    var bindings: seq<Option<Binding<T>>>
    var topologicalRank: seq<nat>
    var evaluatedChanges: seq<nat>
    var evaluatedStamp: seq<nat>
    var evaluatedEpoch: nat
    var directBatchValid: bool
    var lastSynchronizedRevision: nat
    var accumulator: int

    ghost function Repr(): set<object> { {this, state, workspace, sequence} }

    /** While the direct batch is valid it has collected exactly what the scan would find. */
    ghost predicate Valid()
      reads Repr()
    {
      var t := topology.shape;
      && state.Value().Valid() && state.Value().Clocked() && |state.records| == t.Size() && workspace.Valid()
      && AreRanks(t, topologicalRank) && |evaluatedStamp| == |bindings| == t.Size()
      && lastSynchronizedRevision <= state.revision
      && Collected(evaluatedChanges, evaluatedStamp, evaluatedEpoch)
      && (directBatchValid ==> Elements(evaluatedChanges) == Changed(state.records, lastSynchronizedRevision))
      && sequence.delta > 0 && 0 <= accumulator
    }

    /** A runtime fresh from its first freeze has no world revision past zero. */
    constructor (topology: Polytree, state: TransformState<T>, workspace: Workspace, sequence: FixedStepSequence,
                 compose: (T, T) -> T, maxCatchUpSteps: nat)
      requires state.Value().Valid() && state.Value().Clocked() && |state.records| == topology.shape.Size()
      requires workspace.Valid() && sequence.delta > 0
      requires forall v: nat | v < |state.records| :: state.records[v].worldRevision == 0
      ensures Valid() && this.topology == topology && this.state == state
    {
      this.topology, this.state, this.workspace, this.sequence := topology, state, workspace, sequence;
      this.compose, this.maxCatchUpSteps := compose, maxCatchUpSteps;
      bindings := seq(topology.shape.Size(), _ => None);
      topologicalRank := seq(topology.shape.Size(), _ => 0);
      evaluatedChanges, evaluatedStamp, evaluatedEpoch := [], seq(topology.shape.Size(), _ => 0), 1;
      directBatchValid, lastSynchronizedRevision, accumulator := true, 0, 0;
      new;
      RankNodes();
      assert Changed(state.records, 0) == {};
    }

    method RankNodes()
      requires |topologicalRank| == topology.shape.Size()
      modifies this`topologicalRank
      ensures AreRanks(topology.shape, topologicalRank)
    {
      var t := topology.shape;
      for index := 0 to t.Size()
        invariant |topologicalRank| == t.Size()
        invariant forall v: nat | v < t.Size() && t.Rank(v) < index :: topologicalRank[v] == t.Rank(v)
      {
        topologicalRank := topologicalRank[t.order[index] := index];
      }
    }

    method QueueEvaluated(changed: seq<nat>)
      requires Collected(evaluatedChanges, evaluatedStamp, evaluatedEpoch)
      requires forall i | 0 <= i < |changed| :: changed[i] < |evaluatedStamp|
      modifies this`evaluatedChanges, this`evaluatedStamp
      ensures Collected(evaluatedChanges, evaluatedStamp, evaluatedEpoch) && |evaluatedStamp| == |old(evaluatedStamp)|
      ensures Elements(evaluatedChanges) == old(Elements(evaluatedChanges)) + Elements(changed)
    {
      hide Collected;
      for i := 0 to |changed|
        invariant Collected(evaluatedChanges, evaluatedStamp, evaluatedEpoch) &&
              |evaluatedStamp| == |old(evaluatedStamp)|
        invariant Elements(evaluatedChanges) == old(Elements(evaluatedChanges)) + Elements(changed[..i])
      {
        var node := changed[i];
        CollectOne(evaluatedChanges, evaluatedStamp, evaluatedEpoch, node);
        assert changed[..i + 1] == changed[..i] + [node];
        if evaluatedStamp[node] != evaluatedEpoch {
          evaluatedStamp := evaluatedStamp[node := evaluatedEpoch];
          evaluatedChanges := evaluatedChanges + [node];
        }
      }
      assert changed[..|changed|] == changed;
    }

    /** Plans and evaluates everything dirty; a failure invalidates the direct batch and touches nothing else. */
    method EvaluateDirty()
      requires Valid()
      modifies this`evaluatedChanges, this`evaluatedStamp, this`directBatchValid, state, workspace
      ensures Valid() && state.Value() == Refreshed(topology.shape, compose, old(state.Value()))
      ensures directBatchValid ==
              old(directBatchValid && (Dirty(state.records) == {} || state.revision < MAX64))
    {
      hide Topology.Valid, Planned, Evaluated, Changed, Collected, AreRanks, State.Valid, State.Clocked,
        Workspace.Valid;
      ghost var before, t := state.Value(), topology.shape;
      ClockFits(before);
      EvaluationStamps(t, compose, before, Dirty(before.records));
      var status, changed, worldRevision := PlanAndEvaluate(topology, state, workspace, compose);
      if status == Ok {
        ReevaluatedValid(t, compose, before);
        QueueEvaluated(changed);
      } else {
        directBatchValid := false;
      }
    }

    /** Where the scene stands. */
    function Now(active: ActiveMotionSet<V>): Moment<T, V>
      reads state, sequence, active
    {
      Moment(state.Value(), sequence.nextTick, active.Value())
    }

    /** The controllers' commands: each local may be refused, the motions are applied as one batch. */
    method RunControllers(active: ActiveMotionSet<V>, commands: Commands<T, V>, stationary: V -> bool)
      requires Valid() && active.Valid(stationary)
      modifies state, active
      ensures Valid() && active.Valid(stationary)
      ensures state.Value() == TryEdits(old(state.Value()), commands.locals)
      ensures Commanded(old(active.Value()), commands.motions, stationary, active.Value())
    {
      hide TryEdits, Changed, View, SetAll, Topology.Valid, State.Clocked;
      ghost var before := state.Value();
      TryLocals(state, commands.locals);
      TryStamps(before, commands.locals);
      var error, reserved := active.ApplyBatch(commands.motions, stationary);
      AscendingWhenMoving(active.records, active.nodeCount, stationary);
    }

    /** One fixed step of motion. */
    method AdvanceStep(active: ActiveMotionSet<V>, integrate: (T, V, FixedStep) -> T)
      requires Valid()
      modifies this`evaluatedChanges, this`evaluatedStamp, this`directBatchValid, state, workspace, sequence
      ensures Valid()
      ensures Now(active) == Stepped(topology, integrate, compose, sequence.delta, old(Now(active)))
      ensures sequence.nextTick == old(sequence.nextTick) + 1 <==>
                && old(sequence.nextTick) != MAX64 && active.topologyIdentity == topology
                && active.nodeCount == topology.shape.Size()
                && (forall i | 0 <= i < |active.records| :: active.records[i].node < topology.shape.Size())
                && old(state.revision) + |active.records| +
                   (if old(state.dirtyNodes) != [] || active.records != [] then 1 else 0) <= MAX64
      ensures sequence.nextTick == old(sequence.nextTick) ==> state.Value() == old(state.Value())
      ensures directBatchValid ==
              old(directBatchValid &&
                  Preflight(topology, state.Value(), active.Value(), sequence.NextStep()) == NoError)
    {
      hide Topology.Valid, Planned, Advanced, EditAll, Changed, Collected, AreRanks, Preflight, State.Clocked,
        State.Valid, Integrated, Workspace.Valid, ActiveMotionSet.Valid;
      ghost var before, t := state.Value(), topology.shape;
      var result := Advance(topology, state, active, sequence, workspace, integrate, compose);
      if result.error == NoError {
        ghost var us := Integrated(before, active.records, integrate, old(sequence.NextStep()));
        Admitted(topology, before, active.Value(), integrate, old(sequence.NextStep()));
        AdvanceStamps(t, compose, before, us, lastSynchronizedRevision);
        AdvancedValid(t, compose, before, us);
        QueueEvaluated(result.changed);
      } else {
        directBatchValid := false;
      }
    }

    /** A correction from outside: an edit, invisible to both ways of collecting. */
    method CorrectLocal(node: nat, local: T) returns (applied: bool)
      requires Valid()
      modifies state
      ensures Valid() && applied == (EditError(old(state.Value()), node) == Ok)
      ensures state.Value() == if applied then Edit(old(state.Value()), node, local) else old(state.Value())
    {
      var error := state.SetLocal(node, local);
      assert Changed(state.records, lastSynchronizedRevision) == old(Changed(state.records, lastSynchronizedRevision));
      return error == Ok;
    }

    method ResetEvaluatedBatch()
      requires Collected(evaluatedChanges, evaluatedStamp, evaluatedEpoch)
      modifies this`evaluatedChanges, this`evaluatedStamp, this`evaluatedEpoch, this`directBatchValid
      ensures Collected(evaluatedChanges, evaluatedStamp, evaluatedEpoch) && |evaluatedStamp| == |old(evaluatedStamp)|
      ensures evaluatedChanges == [] && directBatchValid
    {
      evaluatedChanges := [];
      evaluatedEpoch := Increment64(evaluatedEpoch);
      if evaluatedEpoch == 0 {
        evaluatedStamp := seq(|evaluatedStamp|, _ => 0);
        evaluatedEpoch := Increment64(evaluatedEpoch);
      }
      directBatchValid := true;
    }

    /** The direct batch, sorted by rank, or the revision scan: the same list. */
    method CollectChanged() returns (changed: seq<nat>)
      requires Valid()
      ensures changed == Restrict(topology.shape.order, Changed(state.records, lastSynchronizedRevision))
      ensures forall i | 0 <= i < |changed| :: changed[i] < topology.shape.Size()
    {
      ghost var t, newer := topology.shape, Changed(state.records, lastSynchronizedRevision);
      hide Topology.Valid, AreRanks, Restrict, Collected, Distinct;
      if directBatchValid {
        CollectedFits(t, evaluatedChanges, evaluatedStamp, evaluatedEpoch, topologicalRank);
        changed := SortByRank(evaluatedChanges, topologicalRank);
        ChangedFits(t, state.records, lastSynchronizedRevision);
        SortedIsScan(t, evaluatedChanges, changed, topologicalRank, newer);
      } else {
        changed := ChangedNodesSince(topology.shape, state.records, lastSynchronizedRevision);
      }
      ScanInRange(t, changed, newer);
    }

    /** Calls the writer for the bound nodes among `changed`. */
    method WriteAll(changed: seq<nat>, place: (T, T) -> T) returns (written: seq<Write<T>>)
      requires |bindings| == |state.records| && forall i | 0 <= i < |changed| :: changed[i] < |state.records|
      ensures AreWrites(changed, bindings, state.records, place, written)
    {
      hide Restrict;
      RestrictNone(changed[..0], Bound(bindings));
      written := [];
      for i := 0 to |changed|
        invariant AreWrites(changed[..i], bindings, state.records, place, written)
      {
        RestrictStep(changed, i, Bound(bindings));
        var target := bindings[changed[i]];
        if target.Some? {
          written := written + [Write(target.value.entity,
                                      place(state.records[changed[i]].world, target.value.nodeToTarget))];
        }
      }
      assert changed[..|changed|] == changed;
    }

    /** Whichever way the nodes are collected, the writer gets exactly those the revision scan finds, in its order. */
    method Synchronize(place: (T, T) -> T) returns (changed: seq<nat>, written: seq<Write<T>>)
      requires Valid()
      modifies this`evaluatedChanges, this`evaluatedStamp, this`evaluatedEpoch, this`directBatchValid,
               this`lastSynchronizedRevision
      ensures Valid() && directBatchValid
      ensures changed == Restrict(topology.shape.order, Changed(state.records, old(lastSynchronizedRevision)))
      ensures (forall i | 0 <= i < |changed| :: changed[i] < topology.shape.Size())
      ensures AreWrites(changed, bindings, state.records, place, written)
      ensures var bound: seq<nat> := Restrict(changed, set v: nat | v < |bindings| && bindings[v].Some?);
        && |written| == |bound|
        && forall k | 0 <= k < |bound| ::
             && bound[k] < |bindings| && bindings[bound[k]].Some?
             && written[k].entity == bindings[bound[k]].value.entity
             && written[k].world == place(state.records[bound[k]].world, bindings[bound[k]].value.nodeToTarget)
      ensures lastSynchronizedRevision == state.revision
    {
      hide Topology.Valid, AreRanks, Restrict, Collected, State.Valid, State.Clocked;
      changed := CollectChanged();
      written := WriteAll(changed, place);
      NothingNewer(state.Value());
      lastSynchronizedRevision := state.revision;
      ResetEvaluatedBatch();
    }

    /** Takes in the time that has passed, up to the configured backlog, and counts the whole steps in it. */
    method CountSteps(frameDelta: int) returns (steps: nat)
      requires sequence.delta > 0 && 0 <= accumulator
      modifies this`accumulator
      ensures steps <= maxCatchUpSteps && 0 <= accumulator - sequence.delta * steps < sequence.delta
      ensures var available := old(accumulator) + if frameDelta > 0 then frameDelta else 0;
        accumulator ==
        if available > sequence.delta * maxCatchUpSteps then sequence.delta * maxCatchUpSteps else available
    {
      var maximumBacklog := sequence.delta * maxCatchUpSteps;
      accumulator := accumulator + if frameDelta > 0 then frameDelta else 0;
      if accumulator > maximumBacklog {
        accumulator := maximumBacklog;
      }
      var available := accumulator / sequence.delta;
      StepsFit(accumulator, sequence.delta, maxCatchUpSteps);
      steps := if available < maxCatchUpSteps then available else maxCatchUpSteps;
    }

    /** One frame: at most `maxCatchUpSteps` whole steps are run, each after what its controllers command; what is
        left is less than a step, and time beyond the configured backlog is dropped. */
    method AdvanceFrame(frameDelta: int, active: ActiveMotionSet<V>, commands: nat -> Commands<T, V>,
                        stationary: V -> bool,
                        integrate: (T, V, FixedStep) -> T, place: (T, T) -> T)
      returns (steps: nat, changed: seq<nat>, written: seq<Write<T>>, ghost trace: seq<Moment<T, V>>)
      requires Valid() && active.Valid(stationary)
      modifies Repr(), active
      ensures Valid() && active.Valid(stationary) && directBatchValid && lastSynchronizedRevision == state.revision
      ensures |trace| == steps + 1 && trace[0] == old(Now(active))
      ensures FrameTrace(topology, integrate, compose, stationary, sequence.delta, trace, commands)
      ensures Now(active) ==
              if steps == 0 && old(state.dirtyNodes) != [] then
                old(Now(active)).(state := Refreshed(topology.shape, compose, old(state.Value())))
              else trace[steps]
      ensures 0 <= accumulator < sequence.delta && steps <= maxCatchUpSteps
      ensures var available := old(accumulator) + if frameDelta > 0 then frameDelta else 0;
        steps * sequence.delta + accumulator ==
        if available > sequence.delta * maxCatchUpSteps then sequence.delta * maxCatchUpSteps else available
      ensures changed == Restrict(topology.shape.order, Changed(state.records, old(lastSynchronizedRevision)))
      ensures (forall i | 0 <= i < |changed| :: changed[i] < topology.shape.Size())
      ensures bindings == old(bindings) && |bindings| == |state.records|
      ensures AreWrites(changed, bindings, state.records, place, written)
    {
      hide Topology.Valid, AreRanks, Collected, Restrict, AreWrites, State.Valid, State.Clocked, Stepped, Refreshed,
        Workspace.Valid, Commanded, TryEdits, ActiveMotionSet.Valid;
      steps := CountSteps(frameDelta);
      ghost var since, whole := lastSynchronizedRevision, accumulator;
      trace := [Now(active)];
      for i := 0 to steps
        invariant |trace| == i + 1 && trace[0] == old(Now(active)) && trace[i] == Now(active)
        invariant FrameTrace(topology, integrate, compose, stationary, sequence.delta, trace, commands)
        invariant active.Valid(stationary)
        invariant Valid() && lastSynchronizedRevision == since && accumulator == whole && bindings == old(bindings)
      {
        RunControllers(active, commands(i), stationary);
        AdvanceStep(active, integrate);
        trace := trace + [Now(active)];
      }
      accumulator := accumulator - sequence.delta * steps;
      if steps == 0 && state.dirtyNodes != [] {
        EvaluateDirty();
      }
      changed, written := Synchronize(place);
    }
  }

  lemma AscendingWhenMoving<V>(records: seq<Entry<V>>, nodes: nat, stationary: V -> bool)
    requires Moving(records, nodes, stationary)
    ensures Ascending(records)
  {
  }

  /** Local edits, refused or not, are invisible to the scan. */
  lemma {:induction false} TryStamps<T>(s: State<T>, us: seq<Entry<T>>)
    requires s.Clocked()
    ensures var r := TryEdits(s, us);
      && r.Clocked() && |r.records| == |s.records| && s.revision <= r.revision
      && forall since: nat :: Changed(r.records, since) == Changed(s.records, since)
  {
    if us != [] {
      TryStamps(s, us[..|us| - 1]);
      var prior, u := TryEdits(s, us[..|us| - 1]), us[|us| - 1];
      if EditError(prior, u.node) == Ok {
        forall since: nat
          ensures Changed(Edit(prior, u.node, u.state).records, since) == Changed(prior.records, since)
        {
        }
      }
    }
  }

  lemma NothingNewer<T>(s: State<T>)
    requires s.Clocked()
    ensures Changed(s.records, s.revision) == {}
  {
  }

  lemma ChangedFits<T>(t: Forest, records: seq<Record<T>>, since: nat)
    requires |records| == t.Size()
    ensures forall v | v in Changed(records, since) :: v < t.Size()
  {
  }

  method SortByRank(changes: seq<nat>, ranks: seq<nat>) returns (sorted: seq<nat>)
    requires forall i | 0 <= i < |changes| :: changes[i] < |ranks|
    ensures multiset(sorted) == multiset(changes)
    ensures forall i, j | 0 <= i < j < |sorted| ::
      sorted[i] < |ranks| && sorted[j] < |ranks| && ranks[sorted[i]] <= ranks[sorted[j]]
  {
    var leq := (a: nat, b: nat) => RankOf(ranks, a) <= RankOf(ranks, b);
    RanksTotal(Elements(changes), ranks);
    sorted := Sort(changes, leq);
    assert forall i, j | 0 <= i < j < |sorted| :: leq(sorted[i], sorted[j]);
    RankedWithin(sorted, changes, ranks);
  }

  function RankOf(ranks: seq<nat>, v: nat): nat { if v < |ranks| then ranks[v] else 0 }

  lemma StepsFit(time: int, delta: int, steps: nat)
    requires 0 <= time <= delta * steps && delta > 0
    ensures 0 <= time / delta <= steps
    ensures 0 <= time - delta * (time / delta) < delta
  {
    var q := time / delta;
    assert delta * q <= delta * steps;
    SmallerFactor(delta, q, steps);
  }

  lemma SmallerFactor(d: nat, a: int, b: int)
    requires d > 0 && d * a <= d * b
    ensures a <= b
  {
    assert d * (b - a) >= 0;
  }

  lemma RanksTotal(s: set<nat>, ranks: seq<nat>)
    ensures TotalOn(s, (a: nat, b: nat) => RankOf(ranks, a) <= RankOf(ranks, b))
  {
  }

  lemma CollectedFits(t: Forest, changes: seq<nat>, stamps: seq<nat>, epoch: nat, ranks: seq<nat>)
    requires Collected(changes, stamps, epoch) && AreRanks(t, ranks) && |stamps| == t.Size()
    ensures Distinct(changes) && |ranks| == t.Size()
    ensures forall i | 0 <= i < |changes| :: changes[i] < |ranks|
  {
  }

  lemma RankedWithin(sorted: seq<nat>, changes: seq<nat>, ranks: seq<nat>)
    requires Elements(sorted) == Elements(changes) && forall i | 0 <= i < |changes| :: changes[i] < |ranks|
    requires forall i, j | 0 <= i < j < |sorted| :: RankOf(ranks, sorted[i]) <= RankOf(ranks, sorted[j])
    ensures forall i, j | 0 <= i < j < |sorted| ::
      sorted[i] < |ranks| && sorted[j] < |ranks| && ranks[sorted[i]] <= ranks[sorted[j]]
  {
    forall i | 0 <= i < |sorted| ensures sorted[i] < |ranks| {
      assert sorted[i] in Elements(changes);
      var k :| 0 <= k < |changes| && changes[k] == sorted[i];
    }
  }

  lemma ScanInRange(t: Forest, changed: seq<nat>, newer: set<nat>)
    requires changed == Restrict(t.order, newer)
    ensures forall i | 0 <= i < |changed| :: changed[i] < t.Size()
  {
    OrderDistinct(t);
    assert forall i | 0 <= i < |changed| :: changed[i] in changed;
  }

  /** What a passed preflight promises. */
  lemma Admitted<T, V>(topology: Polytree, s: State<T>, active: Motions<V>, integrate: (T, V, FixedStep) -> T,
                       step: FixedStep)
    requires Preflight(topology, s, active, step) == NoError
    ensures |s.records| == topology.shape.Size() && Within(active.records, topology.shape.Size())
    ensures var us := Integrated(s, active.records, integrate, step);
      Within(us, topology.shape.Size()) && s.revision + Needs(s, |us|) <= MAX64
  {
  }

  lemma ClockFits<T>(s: State<T>)
    requires s.Valid()
    ensures s.revision <= MAX64
  {
  }

  lemma ReevaluatedValid<T>(t: Forest, compose: (T, T) -> T, s: State<T>)
    requires s.Valid() && |s.records| == t.Size() && (Dirty(s.records) != {} ==> s.revision < MAX64)
    ensures Reevaluated(t, compose, s).Valid()
  {
    var d := Dirty(s.records);
    PlannedEmpty(t, d);
    PlannedAscends(t, d);
    EvaluatedRecords(t, compose, s, d);
    var s' := Reevaluated(t, compose, s);
    SettledDirty(t, compose, s.records, s'.records, Affected(t, d), s'.revision);
    RestrictDistinct(s.frontier, Dirty(s'.records));
    assert Elements(s'.frontier) == Dirty(s'.records);
  }

  lemma AdvancedValid<T>(t: Forest, compose: (T, T) -> T, s: State<T>, us: seq<Entry<T>>)
    requires s.Valid() && |s.records| == t.Size() && Within(us, t.Size()) && s.revision + Needs(s, |us|) <= MAX64
    ensures Advanced(t, compose, s, us).Valid()
  {
    EditAllSound(t, compose, s, us);
    WorkIff(s, us);
    ReevaluatedValid(t, compose, EditAll(s, us));
  }
}
