/** Why plans must be timely: after whole laps of its workspace's epoch a plan passes every check and shows the
    beginning of another plan's list. */
module EvaluationLimits {
  import opened Sequences
  import opened Polytrees
  import opened TransformStates
  import opened Planning
  import opened Workspaces
  import opened Evaluation
  import opened Coherence
  import opened EvaluationRuns

  /** Two roots, 0 and 1, and 2 below 1. */
  const SHAPE: Topology := Topology([INVALID_NODE, INVALID_NODE, 1], [0, 1, 2], [0, 1, 2], [0, 1], [[0, 1], [2]])

  lemma ShapePaths()
    ensures SHAPE.Ordered()
    ensures SHAPE.Ancestors(0) == {0} && SHAPE.Ancestors(1) == {1} && SHAPE.Ancestors(2) == {1, 2}
    ensures SHAPE.Depth(0) == 0 && SHAPE.Depth(1) == 0 && SHAPE.Depth(2) == 1
  {
    assert !SHAPE.HasParent(0) && !SHAPE.HasParent(1) && SHAPE.HasParent(2) && SHAPE.parent[2] == 1;
  }

  /** Picking out of the three nodes in order. */
  lemma Picked(keep: set<nat>)
    ensures Restrict([0, 1, 2], keep) ==
            (if 0 in keep then [0] else []) + (if 1 in keep then [1] else []) + (if 2 in keep then [2] else [])
  {
    var order: seq<nat> := [0, 1, 2];
    assert order[..0] == [] && order[..1] == [0] && order[..2] == [0, 1] && order[..3] == order;
    RestrictStep(order, 0, keep);
    RestrictStep(order, 1, keep);
    RestrictStep(order, 2, keep);
  }

  lemma ShapeValid()
    ensures SHAPE.Valid()
  {
    hide Topology.Ordered, Topology.Ancestors, Topology.Depth;
    ShapePaths();
    Picked(SHAPE.AtDepth(0));
    Picked(SHAPE.AtDepth(1));
  }

  function Shape(): (t: Forest)
    ensures t == SHAPE
  {
    ShapeValid();
    SHAPE
  }

  lemma ShapePlans()
    ensures Planned(Shape(), {0}) == [0] && Planned(Shape(), {1}) == [1, 2]
    ensures DirtyRoots(Shape(), {0, 1}) == {0, 1}
  {
    ShapePaths();
    assert Affected(Shape(), {0}) == {0};
    assert Affected(Shape(), {1}) == {1, 2};
    Picked({0});
    Picked({1, 2});
  }

  function Sum(x: int, y: int): int { x + y }

  /** The state a first freeze leaves when the three nodes have been authored with local zero, one after the other. */
  function FrozenState(): State<int> {
    State([Record(0, 0, 1, 0, true), Record(0, 0, 2, 0, true), Record(0, 0, 3, 0, true)], [0, 1, 2], 3, 1, 0)
  }

  lemma FrozenSound()
    ensures FrozenState().Valid() && Sound(Shape(), Sum, FrozenState())
    ensures |FrozenState().records| == Shape().Size() == 3
  {
    assert Elements(FrozenState().frontier) == {0, 1, 2} == Dirty(FrozenState().records);
    AllDirtySound(Shape(), Sum, FrozenState());
  }

  /** First everything is planned and evaluated. */
  function Refresh(): seq<Step<int>> { [BuildFull(0), Evaluate(0)] }

  function Rest(): State<int> {
    State([Record(0, 0, 1, 4, false), Record(0, 0, 2, 4, false), Record(0, 0, 3, 4, false)], [], 4, 1, 1)
  }

  function Resting(): System<int> {
    System(Rest(), [Buffer(1, [0, 1, 2], [])], [Token(0, 1, false, 3, 3, 1, 0)])
  }

  lemma RefreshPlan()
    ensures Dirty(FrozenState().records) == {0, 1, 2} && Planned(Shape(), {0, 1, 2}) == [0, 1, 2]
  {
    hide Topology.Valid, Planned, DirtyRoots;
    AllDirty(Shape(), {0, 1, 2});
  }

  lemma RefreshWorlds()
    ensures InRange(Shape(), [0, 1, 2]) && Evaluated(Shape(), Sum, FrozenState(), [0, 1, 2]) == Rest()
  {
    ShapePaths();
    var nodes: seq<nat> := [0, 1, 2];
    assert nodes[..0] == [] && nodes[..1] == [0] && nodes[..2] == [0, 1] && nodes[..3] == nodes;
    RecomputeStep(Shape(), Sum, FrozenState().records, nodes, 4, 0);
    RecomputeStep(Shape(), Sum, FrozenState().records, nodes, 4, 1);
    RecomputeStep(Shape(), Sum, FrozenState().records, nodes, 4, 2);
    assert Recompute(Shape(), Sum, FrozenState().records, nodes, 4) == Rest().records;
    assert Dirty(Rest().records) == {};
    RestrictNone(FrozenState().frontier, {});
  }

  lemma RefreshRun()
    ensures Run(Shape(), Sum, Started(FrozenState(), 1), Refresh()) == Resting()
    ensures TimelyRun(Shape(), Sum, Started(FrozenState(), 1), Refresh())
  {
    FrozenSound();
    RefreshPlan();
    RefreshWorlds();
    hide Planned, Evaluated;
    var start := Started(FrozenState(), 1);
    var built := Next(Shape(), Sum, start, BuildFull(0));
    assert built == System(FrozenState(), [Buffer(1, [0, 1, 2], [])], [Token(0, 1, false, 3, 3, 1, 0)]);
    assert Shown(built, 0) == [0, 1, 2];
    assert Evaluates(Shape(), built, 0);
    assert Refresh()[1..] == [Evaluate(0)] && Refresh()[1..][1..] == [];
  }

  /** Then both roots are edited. */
  function Edited(): State<int> { Edit(Edit(Rest(), 0, 1), 1, 1) }

  lemma EditedDirty()
    ensures Dirty(Edited().records) == {0, 1} && |Edited().records| == 3 && Edited().revision == 6
  {
  }

  function Edits(): seq<Step<int>> { [EditLocal(0, 1), EditLocal(1, 1)] }

  /** `n` plans for the second root. */
  function Again(n: nat): seq<Step<int>> { seq(n, _ => BuildPartial(0, [1])) }

  lemma ScopesAccepted()
    ensures ScopeAccepted(Shape(), {0, 1}, [0]) && ScopeAccepted(Shape(), {0, 1}, [1])
    ensures Elements([0 as nat]) == {0} && Elements([1 as nat]) == {1}
  {
    ShapePlans();
  }

  lemma {:induction false} AgainRun(sys: System<int>, n: nat)
    requires sys.state == Edited() && |sys.buffers| == 1
    ensures var end := Run(Shape(), Sum, sys, Again(n));
      && end.state == Edited() && |end.buffers| == 1 && end.buffers[0].builds == sys.buffers[0].builds + n
      && sys.tokens <= end.tokens && (n > 0 ==> end.buffers[0].selected == [1, 2])
    ensures TimelyRun(Shape(), Sum, sys, Again(n))
    decreases n
  {
    if n > 0 {
      EditedDirty();
      ScopesAccepted();
      ShapePlans();
      assert Again(n)[0] == BuildPartial(0, [1]) && Again(n)[1..] == Again(n - 1);
      hide Planned, ScopeAccepted, Edited, Shape;
      var next := Next(Shape(), Sum, sys, BuildPartial(0, [1]));
      assert next == Issue(sys, 0, true, Planned(Shape(), {0, 1}), [1, 2]);
      hide Next;
      AgainRun(next, n - 1);
      if n == 1 { assert Again(0) == []; }
    }
  }

  /** The whole run: evaluate everything, edit both roots, plan for the first, and plan whole laps for the second. */
  function Late(laps: nat): seq<Step<int>> {
    Refresh() + Edits() + [BuildPartial(0, [0])] + Again(laps * MAX64)
  }

  /** For every number of laps a freshly frozen scene has a run that is timely up to its last step; that step evaluates
      the partial plan whole laps after it was built, every check passes, and a node with nothing dirty at or above it
      keeps a wrong world. */
  lemma TimelinessIsNeeded(laps: nat)
    requires laps >= 1
    ensures Sound(Shape(), Sum, FrozenState()) && |FrozenState().records| == Shape().Size()
    ensures TimelyRun(Shape(), Sum, Started(FrozenState(), 1), Late(laps))
    ensures var sys := Run(Shape(), Sum, Started(FrozenState(), 1), Late(laps));
      && |sys.state.records| == 3 && |sys.tokens| > 1 && |sys.buffers| == 1 && sys.tokens[1].workspace == 0
      && Lag(sys, 1) == laps * MAX64 && Evaluates(Shape(), sys, 1)
      && var end := Next(Shape(), Sum, sys, Evaluate(1)).state;
      && |end.records| == 3 && Shape().Ancestors(2) * Dirty(end.records) == {}
      && end.records[2].world != Shape().Fold(Sum, Locals(end.records), 2)
  {
    hide Run, TimelyRun, Next, Shape, Edited, Again, Late, Edits, Evaluates, Generation, Sound, Current, Sum, Refresh,
      Topology.Fold, Topology.Ancestors, Dirty, Locals;
    FrozenSound();
    EditedDirty();
    RefreshRun();
    EditsRun();
    var edited := Resting().(state := Edited());
    FirstPlan(edited);
    var planned := Next(Shape(), Sum, edited, BuildPartial(0, [0]));
    AgainRun(planned, laps * MAX64);
    var sys := Run(Shape(), Sum, planned, Again(laps * MAX64));
    LateIs(laps, Started(FrozenState(), 1), edited, planned);
    GenerationRepeats(2, 2 + laps * MAX64);
    WholeLap(laps);
    assert sys.tokens[1] == planned.tokens[1];
    LastStep(sys);
  }

  lemma WholeLap(laps: nat)
    ensures (laps * MAX64) % MAX64 == 0
  {
  }

  lemma EditsRun()
    ensures Run(Shape(), Sum, Resting(), Edits()) == Resting().(state := Edited())
    ensures TimelyRun(Shape(), Sum, Resting(), Edits())
  {
    var one := Next(Shape(), Sum, Resting(), EditLocal(0, 1));
    var two := Next(Shape(), Sum, one, EditLocal(1, 1));
    assert Edits()[1..] == [EditLocal(1, 1)] && Edits()[1..][1..] == [];
    assert one.state == Edit(Rest(), 0, 1);
    assert two.state == Edited();
  }

  function FirstToken(): Token { Token(0, 2, true, 1, 6, Edited().mutationGeneration, Edited().evaluationGeneration) }

  lemma FirstPlan(edited: System<int>)
    requires edited == Resting().(state := Edited())
    ensures var planned := Next(Shape(), Sum, edited, BuildPartial(0, [0]));
      && planned.state == Edited() && |planned.buffers| == 1 && planned.buffers[0].builds == 2
      && |planned.tokens| == 2 && planned.tokens[1] == FirstToken()
  {
    EditedDirty();
    ScopesAccepted();
    ShapePlans();
  }

  lemma LateIs(laps: nat, start: System<int>, edited: System<int>, planned: System<int>)
    requires |start.state.records| == |edited.state.records| == |planned.state.records| == 3
    requires Run(Shape(), Sum, start, Refresh()) == Resting() && TimelyRun(Shape(), Sum, start, Refresh())
    requires Run(Shape(), Sum, Resting(), Edits()) == edited && TimelyRun(Shape(), Sum, Resting(), Edits())
    requires Next(Shape(), Sum, edited, BuildPartial(0, [0])) == planned
    requires TimelyRun(Shape(), Sum, planned, Again(laps * MAX64))
    ensures Run(Shape(), Sum, start, Late(laps)) == Run(Shape(), Sum, planned, Again(laps * MAX64))
    ensures TimelyRun(Shape(), Sum, start, Late(laps))
  {
    hide Edits, Again, Next, Refresh;
    var first, plan := Refresh() + Edits(), [BuildPartial(0, [0])];
    RunConcat(Shape(), Sum, start, Refresh(), Edits());
    TimelyConcat(Shape(), Sum, start, Refresh(), Edits());
    RunOne(Shape(), Sum, edited, BuildPartial(0, [0]));
    RunConcat(Shape(), Sum, start, first, plan);
    RunConcat(Shape(), Sum, start, first + plan, Again(laps * MAX64));
    BuildsTimely(Shape(), Sum, edited, plan);
    TimelyConcat(Shape(), Sum, start, first, plan);
    TimelyConcat(Shape(), Sum, start, first + plan, Again(laps * MAX64));
  }

  lemma LastStep(sys: System<int>)
    requires sys.state == Edited() && |sys.buffers| == 1 && sys.buffers[0].selected == [1, 2] && |sys.tokens| > 1
    requires Generation(sys.buffers[0].builds) == Generation(2) && sys.tokens[1] == FirstToken()
    ensures Evaluates(Shape(), sys, 1)
    ensures var end := Next(Shape(), Sum, sys, Evaluate(1)).state;
      && |end.records| == 3 && Shape().Ancestors(2) * Dirty(end.records) == {}
      && end.records[2].world != Shape().Fold(Sum, Locals(end.records), 2)
  {
    EditedDirty();
    ShapePaths();
    assert Shown(sys, 1) == [1];
    OneNode();
    assert Evaluates(Shape(), sys, 1);
    var end := Next(Shape(), Sum, sys, Evaluate(1)).state;
    assert end == Evaluated(Shape(), Sum, Edited(), [1]);
    assert Dirty(end.records) == {0};
    assert Locals(end.records)[1] == 1 && Locals(end.records)[2] == 0;
    assert Shape().Fold(Sum, Locals(end.records), 1) == 1;
    assert Shape().Fold(Sum, Locals(end.records), 2) == 1;
  }

  lemma OneNode()
    ensures InRange(Shape(), [1])
    ensures var r := Recompute(Shape(), Sum, Edited().records, [1], 7);
      r == Edited().records[1 := Edited().records[1].(world := 1, worldRevision := 7, dirty := false)]
  {
    var nodes: seq<nat> := [1];
    assert nodes[..0] == [] && nodes[..1] == nodes;
    RecomputeStep(Shape(), Sum, Edited().records, nodes, 7, 0);
    ShapePaths();
  }
}
