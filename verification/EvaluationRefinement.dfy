/** The classes carry out the runs: transform state, workspaces and plans on one side, the run model on the other. */
module EvaluationRefinements {
  import opened Sequences
  import opened Polytrees
  import opened TransformStates
  import opened Planning
  import opened Workspaces
  import opened Evaluation
  import Evaluators = Evaluation
  import opened Coherence
  import opened EvaluationRuns

  ghost predicate WorkspaceFits(buffer: Buffer, workspace: Workspace)
    reads workspace
  {
    && workspace.Valid() && workspace.generation == Generation(buffer.builds)
    && workspace.affectedNodes == buffer.affected && workspace.selectedNodes == buffer.selected
  }

  ghost predicate PlanFits(token: Token, plan: EvaluationPlan, topology: Polytree, workspaces: seq<Workspace>) {
    && token.workspace < |workspaces|
    && plan.topology == topology && plan.workspace == workspaces[token.workspace]
    && plan.workspaceGeneration == Generation(token.build)
    && plan.partial == token.partial && plan.nodeCount == token.length
    && plan.sourceRevision == token.sourceRevision
    && plan.mutationGeneration == token.mutationGeneration && plan.evaluationGeneration == token.evaluationGeneration
  }

  /** The workspace of a plan that is still its last one is set up for the plan's topology. */
  ghost predicate OwnTopology(token: Token, buffers: seq<Buffer>, topology: Polytree, workspaces: seq<Workspace>)
    reads workspaces
  {
    token.workspace < |buffers| && token.workspace < |workspaces| && token.build == buffers[token.workspace].builds ==>
      workspaces[token.workspace].topologyIdentity == topology
  }

  /** `sys` is what the state, the workspaces and the held plans amount to. */
  ghost predicate Represents<T>(sys: System<T>, topology: Polytree, state: TransformState<T>,
                                workspaces: seq<Workspace>,
                                plans: seq<EvaluationPlan>)
    reads state, workspaces
  {
    && sys.state == state.Value() && |sys.buffers| == |workspaces| && |sys.tokens| == |plans|
    && (forall i, j | 0 <= i < j < |workspaces| :: workspaces[i] != workspaces[j])
    && (forall w | 0 <= w < |workspaces| :: WorkspaceFits(sys.buffers[w], workspaces[w]))
    && (forall k | 0 <= k < |plans| :: PlanFits(sys.tokens[k], plans[k], topology, workspaces))
    && (forall k | 0 <= k < |plans| :: OwnTopology(sys.tokens[k], sys.buffers, topology, workspaces))
  }

  /** Fresh objects are the start of a run. */
  lemma FreshRepresents<T>(topology: Polytree, state: TransformState<T>, workspaces: seq<Workspace>)
    requires forall i, j | 0 <= i < j < |workspaces| :: workspaces[i] != workspaces[j]
    requires forall w | 0 <= w < |workspaces| ::
      workspaces[w].Valid() && workspaces[w].generation == 0 &&
          workspaces[w].affectedNodes == workspaces[w].selectedNodes == []
    ensures Represents(Started(state.Value(), |workspaces|), topology, state, workspaces, [])
  {
  }

  /** How an evaluation is to be carried out: serially, or by a pool under some schedule. */
  datatype Executor = Serial | Pool(workerCount: nat, minimumGrain: nat, schedule: (nat, seq<nat>) -> seq<nat>)

  ghost predicate Usable(executor: Executor) { executor.Pool? ==> AnyOrder(executor.schedule) }

  /** The evaluator refuses a plan exactly when its counters or the clock are against it. */
  lemma RefusalAgrees<T>(sys: System<T>, topology: Polytree, state: TransformState<T>, workspaces: seq<Workspace>,
                         plans: seq<EvaluationPlan>, k: nat)
    requires Represents(sys, topology, state, workspaces, plans) && k < |plans|
    ensures k < |sys.tokens|
    ensures Rejection(topology, state.Value(), plans[k], PlanGeneration(plans[k])) == Ok <==>
            Current(sys, k) && (sys.tokens[k].length == 0 || sys.state.revision != MAX64)
    ensures PlanNodes(plans[k]) == Shown(sys, k)
    ensures Readable(plans[k]) <==> sys.tokens[k].length <= |Borrowed(sys, k)|
  {
    hide Workspace.Valid;
    assert PlanFits(sys.tokens[k], plans[k], topology, workspaces);
    assert WorkspaceFits(sys.buffers[sys.tokens[k].workspace], workspaces[sys.tokens[k].workspace]);
  }

  /** A timely plan that is not refused is the workspace's own. */
  lemma AcceptedGenuine<T>(sys: System<T>, topology: Polytree, state: TransformState<T>, workspaces: seq<Workspace>,
                           plans: seq<EvaluationPlan>, compose: (T, T) -> T, k: nat)
    requires Represents(sys, topology, state, workspaces, plans) && k < |plans|
    requires Invariant(topology.shape, compose, sys) && Timely(sys, Evaluate(k))
    requires Rejection(topology, state.Value(), plans[k], PlanGeneration(plans[k])) == Ok
    ensures Readable(plans[k]) && |state.records| == topology.shape.Size() && Genuine(topology, plans[k])
    ensures InRange(topology.shape, PlanNodes(plans[k])) && Evaluates(topology.shape, sys, k)
  {
    hide Workspace.Valid, Topology.Valid, Planned, DirtyRoots;
    RefusalAgrees(sys, topology, state, workspaces, plans, k);
    CurrentIsOwn(topology.shape, compose, sys, k);
    SizeKnown(topology.shape, compose, sys.state);
    var token := sys.tokens[k];
    assert PlanFits(token, plans[k], topology, workspaces) && OwnTopology(token, sys.buffers, topology, workspaces);
    assert WorkspaceFits(sys.buffers[token.workspace], workspaces[token.workspace]);
    var r: set<nat> :| r <= DirtyRoots(topology.shape, Dirty(sys.state.records)) &&
          Shown(sys, k) == Planned(topology.shape, r);
    PlannedAscends(topology.shape, r);
  }

  method EvaluatePlan<T>(topology: Polytree, state: TransformState<T>, workspaces: seq<Workspace>,
                         plans: seq<EvaluationPlan>, compose: (T, T) -> T, k: nat, executor: Executor,
                         ghost sys: System<T>)
    returns (result: EvaluationResult)
    requires Represents(sys, topology, state, workspaces, plans) && k < |plans| && Usable(executor)
    requires Invariant(topology.shape, compose, sys) && Timely(sys, Evaluate(k)) &&
          |sys.state.records| == topology.shape.Size()
    modifies state, workspaces
    ensures Represents(Next(topology.shape, compose, sys, Evaluate(k)), topology, state, workspaces, plans)
    ensures result.error == Ok <==> Evaluates(topology.shape, sys, k)
    ensures result.changed == if result.error == Ok then Shown(sys, k) else []
  {
    hide Workspace.Valid, Topology.Valid, Evaluated, Shown, Current, Lag, Generation, Invariant, Rejection;
    var plan := plans[k];
    RefusalAgrees(sys, topology, state, workspaces, plans, k);
    assert PlanFits(sys.tokens[k], plan, topology, workspaces);
    if Rejection(topology, state.Value(), plan, PlanGeneration(plan)) == Ok {
      AcceptedGenuine(sys, topology, state, workspaces, plans, compose, k);
    }
    assert state.Value().Valid() by { InvariantSound(topology.shape, compose, sys); }
    match executor {
      case Serial => result := Evaluators.Evaluate(topology, state, plan, compose);
      case Pool(workers, grain, schedule) =>
        result := EvaluateParallel(topology, state, plan, compose, workers, grain, schedule);
    }
  }

  method BuildPlan<T>(topology: Polytree, state: TransformState<T>, workspaces: seq<Workspace>,
                      plans: seq<EvaluationPlan>, compose: (T, T) -> T, w: nat, scope: seq<nat>, partial: bool,
                      ghost sys: System<T>)
    returns (held: seq<EvaluationPlan>)
    requires Represents(sys, topology, state, workspaces, plans) && w < |workspaces|
    requires state.Value().Valid() && |sys.state.records| == topology.shape.Size()
    modifies workspaces
    ensures Represents(Next(topology.shape, compose, sys, if partial then BuildPartial(w, scope) else BuildFull(w)),
                       topology, state, workspaces, held)
  {
    hide Workspace.Valid, Topology.Valid, Planned, DirtyRoots, Generation;
    GenerationAdvances(sys.buffers[w].builds);
    assert WorkspaceFits(sys.buffers[w], workspaces[w]);
    var outcome := workspaces[w].MakePlan(topology, state, scope, partial);
    held := if outcome.Success? then plans + [outcome.plan] else plans;
  }

  /** A workspace may serve other topologies and other states in between; its old plans find that out. */
  method BuildElsewhere<T>(topology: Polytree, state: TransformState<T>, workspaces: seq<Workspace>,
                           plans: seq<EvaluationPlan>, compose: (T, T) -> T, w: nat, other: Polytree,
                           otherState: TransformState<T>, scope: seq<nat>, partial: bool, ghost sys: System<T>)
    requires Represents(sys, topology, state, workspaces, plans) && w < |workspaces|
    requires otherState.Value().Valid() && |sys.state.records| == topology.shape.Size()
    requires forall token | token in sys.tokens && token.workspace < |sys.buffers| ::
      token.build <= sys.buffers[token.workspace].builds
    modifies workspaces
    ensures var sys' := if |otherState.records| != other.shape.Size() then sys
                        else Next(topology.shape, compose, sys,
                                  Step.BuildElsewhere(w, workspaces[w].affectedNodes, workspaces[w].selectedNodes));
      Represents(sys', topology, state, workspaces, plans)
  {
    hide Workspace.Valid, Topology.Valid, Planned, DirtyRoots, Generation;
    GenerationAdvances(sys.buffers[w].builds);
    assert WorkspaceFits(sys.buffers[w], workspaces[w]);
    var outcome := workspaces[w].MakePlan(other, otherState, scope, partial);
  }

  /** One step of a run, carried out. */
  method Drive<T>(topology: Polytree, state: TransformState<T>, workspaces: seq<Workspace>, plans: seq<EvaluationPlan>,
                  compose: (T, T) -> T, step: Step<T>, executor: Executor, ghost sys: System<T>)
    returns (held: seq<EvaluationPlan>)
    requires Represents(sys, topology, state, workspaces, plans) && Usable(executor) && !step.BuildElsewhere?
    requires Invariant(topology.shape, compose, sys) && Timely(sys, step) &&
          |sys.state.records| == topology.shape.Size()
    modifies state, workspaces
    ensures Represents(Next(topology.shape, compose, sys, step), topology, state, workspaces, held)
  {
    hide Workspace.Valid, Topology.Valid, Evaluated, Planned, Invariant, Evaluates, Issue, Fill, ScopeAccepted, Edit,
      Mark;
    assert state.Value().Valid() by { InvariantSound(topology.shape, compose, sys); }
    held := plans;
    match step {
      case EditLocal(v, local) =>
        var error := state.SetLocal(v, local);
      case MarkDirty(v) =>
        var error := state.MarkDirty(v);
      case BuildFull(w) =>
        if w < |workspaces| {
          held := BuildPlan(topology, state, workspaces, plans, compose, w, [], false, sys);
        }
      case BuildPartial(w, scope) =>
        if w < |workspaces| {
          held := BuildPlan(topology, state, workspaces, plans, compose, w, scope, true, sys);
        }
      case Evaluate(k) =>
        if k < |plans| {
          var result := EvaluatePlan(topology, state, workspaces, plans, compose, k, executor, sys);
        } else {
          NoSuchPlan(topology.shape, compose, sys, k);
        }
    }
  }

  lemma NoSuchPlan<T>(t: Forest, compose: (T, T) -> T, sys: System<T>, k: nat)
    requires k >= |sys.tokens| && |sys.state.records| == t.Size()
    ensures Next(t, compose, sys, Evaluate(k)) == sys
  {
  }

  /** A whole run, carried out on fresh workspaces, serially or by a pool: the objects end where the run model says,
      so a node with nothing dirty at or above it holds the recomputed world. */
  method DriveRun<T>(topology: Polytree, state: TransformState<T>, workspaces: seq<Workspace>, compose: (T, T) -> T,
                     steps: seq<Step<T>>, executor: Executor)
    returns (plans: seq<EvaluationPlan>)
    requires Represents(Started(state.Value(), |workspaces|), topology, state, workspaces, [])
    requires Sound(topology.shape, compose, state.Value()) && |state.records| == topology.shape.Size() &&
          Usable(executor)
    requires forall i | 0 <= i < |steps| :: !steps[i].BuildElsewhere?
    requires TimelyRun(topology.shape, compose, Started(state.Value(), |workspaces|), steps)
    modifies state, workspaces
    ensures Represents(Run(topology.shape, compose, old(Started(state.Value(), |workspaces|)), steps),
                       topology, state, workspaces, plans)
    ensures state.Value().Valid() && |state.records| == topology.shape.Size()
    ensures forall v: nat | v < topology.shape.Size() && topology.shape.Ancestors(v) * Dirty(state.records) == {} ::
              state.records[v].world == topology.shape.Fold(compose, Locals(state.records), v)
  {
    hide Workspace.Valid, Next, Represents, Timely;
    ghost var t, start := topology.shape, Started(state.Value(), |workspaces|);
    plans := [];
    ghost var sys := start;
    for i := 0 to |steps|
      invariant |sys.state.records| == t.Size()
      invariant Represents(sys, topology, state, workspaces, plans) && Invariant(t, compose, sys)
      invariant TimelyRun(t, compose, sys, steps[i..])
      invariant Run(t, compose, sys, steps[i..]) == Run(t, compose, start, steps)
    {
      assert steps[i..][0] == steps[i] && steps[i..][1..] == steps[i + 1..];
      NextKeeps(t, compose, sys, steps[i]);
      NextSize(t, compose, sys, steps[i]);
      plans := Drive(topology, state, workspaces, plans, compose, steps[i], executor, sys);
      sys := Next(t, compose, sys, steps[i]);
    }
    RunCoherence(t, compose, start.state, |workspaces|, steps);
    RepresentsState(sys, topology, state, workspaces, plans);
    InvariantSound(t, compose, sys);
  }

  lemma RepresentsState<T>(sys: System<T>, topology: Polytree, state: TransformState<T>, workspaces: seq<Workspace>,
                           plans: seq<EvaluationPlan>)
    requires Represents(sys, topology, state, workspaces, plans)
    ensures sys.state == state.Value()
  {
  }
}
