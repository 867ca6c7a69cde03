/** The fixed-step advance: integrate every moving node, write the locals back, re-evaluate the scene, count the
    tick. */
module MotionAdvance {
  import opened Sequences
  import opened Polytrees
  import opened TransformStates
  import opened Planning
  import opened Workspaces
  import opened Evaluation
  import opened Coherence
  import opened ActiveMotionSets
  import Runs = EvaluationRuns

  datatype FixedStep = FixedStep(tick: nat, delta: int)

  datatype AdvanceResult = AdvanceResult(error: MotionError, status: TransformError, integrated: seq<nat>,
                                         changed: seq<nat>, step: FixedStep, worldRevision: nat)

  class FixedStepSequence {
    const delta: int
    var nextTick: nat

    constructor (delta: int, initialTick: nat)
      ensures this.delta == delta && nextTick == initialTick
    {
      this.delta := delta;
      nextTick := initialTick;
    }

    function NextStep(): FixedStep
      reads this
    {
      FixedStep(nextTick, delta)
    }

    method Complete()
      modifies this
      ensures nextTick == Increment64(old(nextTick))
    {
      nextTick := Increment64(nextTick);
    }
  }

  function MapTransformError(error: TransformError): MotionError {
    match error
    case Ok => NoError
    case StateSizeMismatch => SizeMismatch
    case TopologyMismatch => OtherTopology
    case RevisionExhausted => ClockExhausted
    case _ => TransformFailure
  }

  // ----- writing a list of locals -----

  ghost predicate Within<V>(us: seq<Entry<V>>, nodes: nat) {
    forall i | 0 <= i < |us| :: us[i].node < nodes
  }

  function NodesOf<V>(us: seq<Entry<V>>): seq<nat> {
    seq(|us|, i requires 0 <= i < |us| => us[i].node)
  }

  /** Local edits, one after the other. */
  function EditAll<T>(s: State<T>, us: seq<Entry<T>>): (r: State<T>)
    requires Within(us, |s.records|) && s.revision + |us| <= MAX64
    ensures |r.records| == |s.records| && r.revision == s.revision + |us|
  {
    if us == [] then s
    else
      var prior := EditAll(s, us[..|us| - 1]);
      Edit(prior, us[|us| - 1].node, us[|us| - 1].state)
  }

  /** Each edited record changes once; everything else keeps its record; worlds are not touched. */
  ghost predicate EditedAt<T>(s: State<T>, us: seq<Entry<T>>, r: State<T>, v: nat)
    requires v < |s.records| == |r.records|
  {
    && r.records[v].world == s.records[v].world
    && r.records[v].worldRevision == s.records[v].worldRevision
    && (!Touches(us, v) ==> r.records[v] == s.records[v])
    && (Touches(us, v) ==> r.records[v].dirty && r.records[v].local == us[Last(us, v)].state)
  }

  lemma {:induction false} EditAllAt<T>(s: State<T>, us: seq<Entry<T>>, v: nat)
    requires Within(us, |s.records|) && s.revision + |us| <= MAX64 && v < |s.records|
    ensures EditedAt(s, us, EditAll(s, us), v)
  {
    if us != [] {
      EditAllAt(s, us[..|us| - 1], v);
      TouchesFront(us, v);
    }
  }

  lemma {:induction false} EditAllSound<T>(t: Forest, compose: (T, T) -> T, s: State<T>, us: seq<Entry<T>>)
    requires Within(us, |s.records|) && s.revision + |us| <= MAX64
    ensures s.Valid() ==> EditAll(s, us).Valid()
    ensures Sound(t, compose, s) ==> Sound(t, compose, EditAll(s, us))
  {
    hide Sound;
    if us != [] {
      var front, u := us[..|us| - 1], us[|us| - 1];
      EditAllSound(t, compose, s, front);
      var prior := EditAll(s, front);
      if prior.Valid() { TouchKeepsValid(prior, u.node, Edit(prior, u.node, u.state).records[u.node]); }
      if Sound(t, compose, prior) {
        EditSound(t, compose, prior, u.node, u.state);
      }
    }
  }

  lemma EditSound<T>(t: Forest, compose: (T, T) -> T, s: State<T>, v: nat, local: T)
    requires Sound(t, compose, s) && v < |s.records| && s.revision < MAX64
    ensures Sound(t, compose, Edit(s, v, local))
  {
    TouchSound(t, compose, s, v, Edit(s, v, local).records[v]);
  }

  lemma EditAllDirty<T>(s: State<T>, us: seq<Entry<T>>)
    requires Within(us, |s.records|) && s.revision + |us| <= MAX64
    ensures Dirty(EditAll(s, us).records) == Dirty(s.records) + Elements(NodesOf(us))
  {
    var r := EditAll(s, us);
    forall v: nat | v < |s.records| ensures r.records[v].dirty <==> s.records[v].dirty || v in Elements(NodesOf(us)) {
      EditAllAt(s, us, v);
      NodesTouched(us, v);
    }
    forall v | v in Elements(NodesOf(us)) ensures v < |s.records| {
      NodesTouched(us, v);
    }
  }

  lemma NodesTouched<V>(us: seq<Entry<V>>, v: nat)
    ensures v in Elements(NodesOf(us)) <==> Touches(us, v)
  {
    if Touches(us, v) {
      var i :| 0 <= i < |us| && us[i].node == v;
      assert NodesOf(us)[i] == v;
    }
  }

  lemma EditAllStep<T>(s: State<T>, us: seq<Entry<T>>, i: nat)
    requires i < |us| && Within(us[..i + 1], |s.records|) && s.revision + i < MAX64
    ensures Within(us[..i], |s.records|)
    ensures EditAll(s, us[..i + 1]) == Edit(EditAll(s, us[..i]), us[i].node, us[i].state)
  {
    assert us[..i + 1][..i] == us[..i];
    forall j | 0 <= j < i ensures us[..i][j].node < |s.records| {
      assert us[..i + 1][j] == us[j];
    }
  }

  /** The second phase: writes the prepared locals in order and stops at the first one the state refuses. */
  method ApplyLocals<T>(state: TransformState<T>, us: seq<Entry<T>>)
    returns (error: TransformError, integrated: seq<nat>)
    requires state.Value().Valid()
    modifies state
    ensures state.Value().Valid()
    ensures |integrated| <= |us| && integrated == NodesOf(us)[..|integrated|]
    ensures Within(us[..|integrated|], |old(state.records)|) && old(state.revision) + |integrated| <= MAX64
    ensures state.Value() == EditAll(old(state.Value()), us[..|integrated|])
    ensures error == if |integrated| == |us| then Ok
                     else EditError(state.Value(), us[|integrated|].node)
    ensures |integrated| < |us| ==> error != Ok
  {
    error, integrated := Ok, [];
    ghost var before := state.Value();
    assert us[..0] == [];
    while |integrated| < |us|
      invariant state.Value().Valid()
      invariant |integrated| <= |us| && integrated == NodesOf(us)[..|integrated|]
      invariant Within(us[..|integrated|], |before.records|) && before.revision + |integrated| <= MAX64
      invariant state.Value() == EditAll(before, us[..|integrated|])
      decreases |us| - |integrated|
    {
      var i := |integrated|;
      error := state.SetLocal(us[i].node, us[i].state);
      if error != Ok {
        return;
      }
      assert us[..i + 1] == us[..i] + [us[i]];
      EditAllStep(before, us, i);
      integrated := integrated + [us[i].node];
    }
    error := Ok;
  }

  // ----- one step -----

  /** What integrating the active records against the present locals gives. */
  function Integrated<T, V>(s: State<T>, moving: seq<Entry<V>>, integrate: (T, V, FixedStep) -> T, step: FixedStep)
    : (us: seq<Entry<T>>)
    requires Within(moving, |s.records|)
    ensures |us| == |moving| && NodesOf(us) == NodesOf(moving)
  {
    seq(|moving|, i requires 0 <= i < |moving| && moving[i].node < |s.records| =>
      Entry(moving[i].node, integrate(s.records[moving[i].node].local, moving[i].state, step)))
  }

  /** The revisions a step needs: one per moving node, and one for the worlds when anything is or becomes dirty. */
  function Needs<T>(s: State<T>, moving: nat): nat {
    moving + if s.frontier != [] || moving > 0 then 1 else 0
  }

  method Integrate<T, V>(state: TransformState<T>, moving: seq<Entry<V>>, integrate: (T, V, FixedStep) -> T,
                         step: FixedStep)
    returns (us: seq<Entry<T>>)
    requires Within(moving, |state.records|)
    ensures us == Integrated(state.Value(), moving, integrate, step)
  {
    us := [];
    for i := 0 to |moving|
      invariant us == Integrated(state.Value(), moving, integrate, step)[..i]
    {
      us := us + [Entry(moving[i].node, integrate(state.records[moving[i].node].local, moving[i].state, step))];
    }
  }

  /** The state a full plan and its evaluation leave. */
  ghost function Reevaluated<T>(t: Forest, compose: (T, T) -> T, s: State<T>): State<T>
    requires |s.records| == t.Size()
  {
    PlannedAscends(t, Dirty(s.records));
    Evaluated(t, compose, s, Planned(t, Dirty(s.records)))
  }

  /** The state a completed step leaves. */
  ghost function Advanced<T>(t: Forest, compose: (T, T) -> T, s: State<T>, us: seq<Entry<T>>): State<T>
    requires |s.records| == t.Size() && Within(us, t.Size()) && s.revision + |us| <= MAX64
  {
    Reevaluated(t, compose, EditAll(s, us))
  }

  /** The planning and evaluation half of a step. */
  method PlanAndEvaluate<T>(topology: Polytree, state: TransformState<T>, workspace: Workspace, compose: (T, T) -> T)
    returns (status: TransformError, changed: seq<nat>, worldRevision: nat)
    requires state.Value().Valid() && workspace.Valid()
    modifies state, workspace
    ensures workspace.Valid()
    ensures status == if |old(state.records)| != topology.shape.Size() then StateSizeMismatch
                      else if Dirty(old(state.records)) != {} && old(state.revision) == MAX64 then RevisionExhausted
                      else Ok
    ensures status != Ok ==> state.Value() == old(state.Value()) && changed == []
    ensures status == Ok ==>
              && state.Value() == Reevaluated(topology.shape, compose, old(state.Value()))
              && changed == Planned(topology.shape, Dirty(old(state.records)))
    ensures worldRevision == state.revision
  {
    hide Planned, Evaluated, Topology.Valid, Affected, DirtyRoots, IsOwner;
    var outcome := workspace.MakePlan(topology, state, [], false);
    if outcome.Failure? {
      return outcome.error, [], state.revision;
    }
    PlannedEmpty(topology.shape, Dirty(state.records));
    PlannedAscends(topology.shape, Dirty(state.records));
    assert PlanNodes(outcome.plan) == Planned(topology.shape, Dirty(state.records));
    assert Rejection(topology, state.Value(), outcome.plan, PlanGeneration(outcome.plan)) ==
           if PlanNodes(outcome.plan) != [] && state.revision == MAX64 then RevisionExhausted else Ok;
    hide RankAscending;
    var evaluated := Evaluate(topology, state, outcome.plan, compose);
    return evaluated.error, evaluated.changed, evaluated.worldRevision;
  }

  lemma PlannedEmpty(t: Forest, d: set<nat>)
    requires forall v | v in d :: v < t.Size()
    ensures Planned(t, d) == [] <==> d == {}
  {
    PlannedAscends(t, d);
    if d != {} {
      var v :| v in d;
      DirtyIsAffected(t, d, v);
      assert v in Elements(Planned(t, d));
    }
    if Planned(t, d) != [] {
      assert Planned(t, d)[0] in Elements(Planned(t, d));
    }
  }

  /** A step has worlds to write exactly when something was dirty or is moving. */
  lemma WorkIff<T>(s: State<T>, us: seq<Entry<T>>)
    requires s.Valid() && Within(us, |s.records|) && s.revision + |us| <= MAX64
    ensures Dirty(EditAll(s, us).records) == {} <==> s.frontier == [] && us == []
  {
    FrontierInRange(s);
    EditAllDirty(s, us);
    if us != [] {
      assert Touches(us, us[0].node);
      NodesTouched(us, us[0].node);
    }
  }

  /** Everything after the preflight, with each of its own failure exits. It fails exactly when the clock lacks the
      revisions the step needs, or the state does not fit the topology. */
  method Carry<T, V>(topology: Polytree, state: TransformState<T>, moving: seq<Entry<V>>, sequence: FixedStepSequence,
                     workspace: Workspace, integrate: (T, V, FixedStep) -> T, compose: (T, T) -> T)
    returns (result: AdvanceResult)
    requires state.Value().Valid() && workspace.Valid() && Within(moving, |state.records|)
    modifies state, workspace, sequence
    ensures workspace.Valid()
    ensures result.error == NoError <==>
              |old(state.records)| == topology.shape.Size()
              && old(state.revision) + Needs(old(state.Value()), |moving|) <= MAX64
    ensures result.error == NoError <==> result.status == Ok
    ensures result.error == NoError || result.error == SizeMismatch || result.error == ClockExhausted
    ensures result.error == SizeMismatch ==> |old(state.records)| != topology.shape.Size()
    ensures result.error == NoError ==>
      var us := Integrated(old(state.Value()), moving, integrate, old(sequence.NextStep()));
      && state.Value() == Advanced(topology.shape, compose, old(state.Value()), us)
      && result.integrated == NodesOf(moving)
      && result.changed == Planned(topology.shape, Dirty(EditAll(old(state.Value()), us).records))
      && result.worldRevision == state.revision
    ensures sequence.nextTick ==
              if result.error == NoError then Increment64(old(sequence.nextTick)) else old(sequence.nextTick)
    ensures result.step == old(sequence.NextStep())
  {
    var step := sequence.NextStep();
    ghost var before := state.Value();
    var us := Integrate(state, moving, integrate, step);
    var status, integrated := ApplyLocals(state, us);
    if status != Ok {
      FirstRefusal(before, us, |integrated|, status);
      return AdvanceResult(MapTransformError(status), status, integrated, [], step, state.revision);
    }
    assert us[..|us|] == us && NodesOf(us)[..|us|] == NodesOf(us);
    WorkIff(before, us);
    hide EditAll, Planned, Reevaluated, Topology.Valid, Integrated, Within;
    var changed, worldRevision;
    status, changed, worldRevision := PlanAndEvaluate(topology, state, workspace, compose);
    if status != Ok {
      return AdvanceResult(MapTransformError(status), status, integrated, [], step, state.revision);
    }
    sequence.Complete();
    return AdvanceResult(NoError, Ok, integrated, changed, step, worldRevision);
  }

  /** With every handle in range only the clock can refuse a local. */
  lemma FirstRefusal<T>(s: State<T>, us: seq<Entry<T>>, k: nat, status: TransformError)
    requires Within(us, |s.records|) && k < |us| && s.revision + k <= MAX64 && Within(us[..k], |s.records|)
    requires status != Ok && status == EditError(EditAll(s, us[..k]), us[k].node)
    ensures status == RevisionExhausted && s.revision + |us| > MAX64
  {
  }

  /** Why a step is turned away before anything is touched, in the order the checks run. */
  function Preflight<T, V>(topology: Polytree, s: State<T>, active: Motions<V>, step: FixedStep): MotionError {
    var t := topology.shape;
    if step.delta <= 0 then InvalidStep
    else if step.tick == MAX64 then TickExhausted
    else if active.topology != topology then OtherTopology
    else if |s.records| != t.Size() || active.nodeCount != t.Size() then SizeMismatch
    else if exists i :: 0 <= i < |active.records| && active.records[i].node >= t.Size() then InvalidHandle
    else if s.revision + Needs(s, |active.records|) > MAX64 then ClockExhausted
    else NoError
  }

  /** The refusals in the order they are looked for: each is given exactly when it applies and none before it does. */
  lemma PreflightMeans<T, V>(topology: Polytree, s: State<T>, active: Motions<V>, step: FixedStep)
    ensures var error, n := Preflight(topology, s, active, step), topology.shape.Size();
      var timed, fits := step.delta > 0 && step.tick != MAX64, |s.records| == n && active.nodeCount == n;
      var known := forall i | 0 <= i < |active.records| :: active.records[i].node < n;
      var room := s.revision + |active.records| + (if s.frontier != [] || active.records != [] then 1 else 0) <= MAX64;
      && (error == InvalidStep <==> step.delta <= 0)
      && (error == TickExhausted <==> step.delta > 0 && step.tick == MAX64)
      && (error == OtherTopology <==> timed && active.topology != topology)
      && (error == SizeMismatch <==> timed && active.topology == topology && !fits)
      && (error == InvalidHandle <==> timed && active.topology == topology && fits && !known)
      && (error == ClockExhausted <==> timed && active.topology == topology && fits && known && !room)
      && (error == NoError <==> timed && active.topology == topology && fits && known && room)
      && error != TransformFailure
  {
  }

  /** The fixed-step advance. It completes exactly when time moves forward, the tick is not used up, the motions are
      those of this topology, the sizes fit, every handle is known, and the clock has a revision for every moving node
      and one for the worlds when anything is dirty or moving. */
  method Advance<T, V>(topology: Polytree, state: TransformState<T>, active: ActiveMotionSet<V>,
                       sequence: FixedStepSequence, workspace: Workspace,
                       integrate: (T, V, FixedStep) -> T, compose: (T, T) -> T)
    returns (result: AdvanceResult)
    requires state.Value().Valid() && workspace.Valid()
    modifies state, workspace, sequence
    ensures workspace.Valid()
    ensures result.error == Preflight(topology, old(state.Value()), active.Value(), old(sequence.NextStep()))
    ensures result.error == NoError <==>
              && sequence.delta > 0 && old(sequence.nextTick) != MAX64 && active.topologyIdentity == topology
              && |old(state.records)| == topology.shape.Size() && active.nodeCount == topology.shape.Size()
              && (forall i | 0 <= i < |active.records| :: active.records[i].node < topology.shape.Size())
              && old(state.revision) + |active.records| +
                 (if old(state.dirtyNodes) != [] || active.records != [] then 1 else 0) <= MAX64
    ensures result.error != NoError ==>
              && state.Value() == old(state.Value()) && unchanged(workspace)
              && sequence.nextTick == old(sequence.nextTick)
              && result == AdvanceResult(result.error, Ok, [], [], old(sequence.NextStep()), old(state.revision))
    ensures result.error == NoError ==>
      && |old(state.records)| == topology.shape.Size()
      && Within(active.records, topology.shape.Size())
      && var us := Integrated(old(state.Value()), active.records, integrate, old(sequence.NextStep()));
      && old(state.revision) + |us| <= MAX64
      && state.Value() == Advanced(topology.shape, compose, old(state.Value()), us)
      && result == AdvanceResult(NoError, Ok, NodesOf(active.records),
                                 Planned(topology.shape, Dirty(EditAll(old(state.Value()), us).records)),
                                 old(sequence.NextStep()), state.revision)
      && sequence.nextTick == old(sequence.nextTick) + 1
  {
    var step := sequence.NextStep();
    if step.delta <= 0 {
      return AdvanceResult(InvalidStep, Ok, [], [], step, state.revision);
    }
    if step.tick == MAX64 {
      return AdvanceResult(TickExhausted, Ok, [], [], step, state.revision);
    }
    if active.topologyIdentity != topology {
      return AdvanceResult(OtherTopology, Ok, [], [], step, state.revision);
    }
    var nodeTotal := topology.shape.Size();
    if |state.records| != nodeTotal || active.nodeCount != nodeTotal {
      return AdvanceResult(SizeMismatch, Ok, [], [], step, state.revision);
    }
    if exists i :: 0 <= i < |active.records| && active.records[i].node >= nodeTotal {
      return AdvanceResult(InvalidHandle, Ok, [], [], step, state.revision);
    }
    var needsWorldRevision := state.dirtyNodes != [] || active.records != [];
    var remaining := MAX64 - state.revision;
    if |active.records| > remaining || (needsWorldRevision && remaining - |active.records| == 0) {
      return AdvanceResult(ClockExhausted, Ok, [], [], step, state.revision);
    }
    result := Carry(topology, state, active.records, sequence, workspace, integrate, compose);
  }

  // ----- what a completed step means -----

  lemma MovedLocal<T, V>(s: State<T>, moving: seq<Entry<V>>, integrate: (T, V, FixedStep) -> T, step: FixedStep, v: nat)
    requires Ascending(moving) && Within(moving, |s.records|) && s.revision + |moving| <= MAX64 && v < |s.records|
    ensures var us := Integrated(s, moving, integrate, step);
      EditAll(s, us).records[v].local ==
      if v in View(moving) then integrate(s.records[v].local, View(moving)[v], step) else s.records[v].local
  {
    var us := Integrated(s, moving, integrate, step);
    EditAllAt(s, us, v);
    ViewNodes(moving, v);
    NodesTouched(us, v);
    NodesTouched(moving, v);
    if Touches(us, v) {
      var i := Last(us, v);
      assert moving[i].node == v;
      ViewMembers(moving);
    }
  }

  /** A completed step: each moving node's local is its old one integrated, every other local is untouched, nothing is
      dirty, every world is the recomputed one, and the clock moved by one per moving node plus one for the worlds. */
  lemma AdvancedMeans<T, V>(t: Forest, compose: (T, T) -> T, s: State<T>, moving: seq<Entry<V>>,
                            integrate: (T, V, FixedStep) -> T, step: FixedStep)
    requires Sound(t, compose, s) && |s.records| == t.Size()
    requires Ascending(moving) && Within(moving, t.Size()) && s.revision + Needs(s, |moving|) <= MAX64
    ensures var s' := Advanced(t, compose, s, Integrated(s, moving, integrate, step));
      && Sound(t, compose, s') && s'.frontier == []
      && s'.revision == s.revision + Needs(s, |moving|)
      && (forall v: nat | v < t.Size() :: CoherentAt(t, compose, s'.records, v))
      && (forall v: nat | v < t.Size() :: s'.records[v].local ==
            if v in View(moving) then integrate(s.records[v].local, View(moving)[v], step) else s.records[v].local)
  {
    var us := Integrated(s, moving, integrate, step);
    var edited := EditAll(s, us);
    hide Evaluated, Recompute, Planned, Affected, Topology.Valid, CoherentAt, Coherent, Integrated, View, EditAll;
    EditAllSound(t, compose, s, us);
    WorkIff(s, us);
    FrontierInRange(edited);
    PlannedEmpty(t, Dirty(edited.records));
    PlannedAscends(t, Dirty(edited.records));
    FullEvaluation(t, compose, edited);
    EvaluatedSound(t, compose, edited, Dirty(edited.records));
    var s' := Advanced(t, compose, s, us);
    EvaluatedClock(t, compose, edited, Planned(t, Dirty(edited.records)));
    forall v: nat | v < t.Size()
      ensures s'.records[v].local ==
              if v in View(moving) then integrate(s.records[v].local, View(moving)[v], step) else s.records[v].local
    {
      MovedLocal(s, moving, integrate, step, v);
      assert Locals(s'.records)[v] == Locals(edited.records)[v];
    }
  }

  lemma EvaluatedClock<T>(t: Forest, compose: (T, T) -> T, s: State<T>, nodes: seq<nat>)
    requires |s.records| == t.Size() && InRange(t, nodes)
    ensures Evaluated(t, compose, s, nodes).revision == s.revision + if nodes == [] then 0 else 1
    ensures |Evaluated(t, compose, s, nodes).records| == t.Size()
  {
  }

  // ----- a step as a run -----

  /** The edits of a step, then a full plan on workspace `w`, then its evaluation through token `k`. */
  function StepsOf<T>(us: seq<Entry<T>>, w: nat, k: nat): seq<Runs.Step<T>> {
    EditSteps(us) + [Runs.BuildFull(w), Runs.Evaluate(k)]
  }

  function EditSteps<T>(us: seq<Entry<T>>): seq<Runs.Step<T>> {
    seq(|us|, i requires 0 <= i < |us| => Runs.EditLocal(us[i].node, us[i].state))
  }

  lemma EditNext<T>(t: Forest, compose: (T, T) -> T, sys: Runs.System<T>, u: Entry<T>)
    requires |sys.state.records| == t.Size() && u.node < t.Size() && sys.state.revision < MAX64
    ensures Runs.Next(t, compose, sys, Runs.EditLocal(u.node, u.state)) ==
            sys.(state := Edit(sys.state, u.node, u.state))
  {
    hide Topology.Valid, Edit;
  }

  lemma {:induction false} EditRun<T>(t: Forest, compose: (T, T) -> T, sys: Runs.System<T>, us: seq<Entry<T>>)
    requires |sys.state.records| == t.Size() && Within(us, t.Size()) && sys.state.revision + |us| <= MAX64
    ensures Runs.Run(t, compose, sys, EditSteps(us)) == sys.(state := EditAll(sys.state, us))
  {
    hide Topology.Valid, Runs.Next, Edit;
    if us != [] {
      var front, u := us[..|us| - 1], us[|us| - 1];
      var before := sys.(state := EditAll(sys.state, front));
      EditRun(t, compose, sys, front);
      var last := Runs.EditLocal(u.node, u.state);
      assert EditSteps(us) == EditSteps(front) + [last];
      hide Runs.Run;
      Runs.RunConcat(t, compose, sys, EditSteps(front), [last]);
      Runs.RunOne(t, compose, before, last);
      EditNext(t, compose, before, u);
    }
  }

  /** A completed step is one of the runs of local edits, plans and evaluations, so whatever holds over all those runs
      holds over runs with motion steps in them. */
  lemma AdvanceIsRun<T>(t: Forest, compose: (T, T) -> T, sys: Runs.System<T>, us: seq<Entry<T>>, w: nat)
    requires sys.state.Valid() && |sys.state.records| == t.Size() && Within(us, t.Size()) && w < |sys.buffers|
    requires sys.state.revision + Needs(sys.state, |us|) <= MAX64
    ensures Runs.Run(t, compose, sys, StepsOf(us, w, |sys.tokens|)).state == Advanced(t, compose, sys.state, us)
    ensures Runs.TimelyRun(t, compose, sys, StepsOf(us, w, |sys.tokens|))
  {
    var edited := sys.(state := EditAll(sys.state, us));
    var build, evaluate := Runs.BuildFull(w), Runs.Evaluate(|sys.tokens|);
    EditRun(t, compose, sys, us);
    WorkIff(sys.state, us);
    RebuildIsRun(t, compose, edited, w);
    hide Runs.Next, EditAll, Reevaluated;
    Runs.RunConcat(t, compose, sys, EditSteps(us), [build, evaluate]);
    assert [build, evaluate] == [build] + [evaluate];
    Runs.RunConcat(t, compose, edited, [build], [evaluate]);
    Runs.RunOne(t, compose, edited, build);
    Runs.RunOne(t, compose, Runs.Next(t, compose, edited, build), evaluate);
    Runs.BuildsTimely(t, compose, sys, EditSteps(us));
    Runs.BuildsTimely(t, compose, edited, [build]);
    assert Runs.TimelyRun(t, compose, Runs.Next(t, compose, edited, build), [evaluate]) by {
      assert [evaluate][1..] == [];
    }
    Runs.TimelyConcat(t, compose, edited, [build], [evaluate]);
    Runs.TimelyConcat(t, compose, sys, EditSteps(us), [build, evaluate]);
  }

  lemma RebuildIsRun<T>(t: Forest, compose: (T, T) -> T, sys: Runs.System<T>, w: nat)
    requires |sys.state.records| == t.Size() && w < |sys.buffers|
    requires Dirty(sys.state.records) != {} ==> sys.state.revision < MAX64
    ensures var built := Runs.Next(t, compose, sys, Runs.BuildFull(w));
      && |built.state.records| == t.Size()
      && Runs.Next(t, compose, built, Runs.Evaluate(|sys.tokens|)).state == Reevaluated(t, compose, sys.state)
      && Runs.Timely(built, Runs.Evaluate(|sys.tokens|))
  {
    hide Planned, Evaluated, Affected, Topology.Valid, RankAscending, Runs.Generation;
    var nodes, k := Planned(t, Dirty(sys.state.records)), |sys.tokens|;
    PlannedEmpty(t, Dirty(sys.state.records));
    PlannedInRange(t, Dirty(sys.state.records));
    var built := Runs.Issue(sys, w, false, nodes, []);
    assert Runs.Current(built, k);
    assert Runs.Borrowed(built, k) == nodes && Runs.Shown(built, k) == nodes;
    assert Runs.Evaluates(t, built, k);
    hide Runs.Issue, Runs.Evaluates, Runs.Shown;
    assert Runs.Next(t, compose, sys, Runs.BuildFull(w)) == built;
  }

  lemma PlannedInRange(t: Forest, d: set<nat>)
    ensures InRange(t, Planned(t, d))
  {
    PlannedAscends(t, d);
  }
}
