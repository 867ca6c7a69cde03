/** Why histories must be timely too: from the empty scene, one late evaluation can leave a wrong world. */
module SceneLimits {
  import opened Options
  import opened Sequences
  import opened Polytrees
  import opened TransformStates
  import opened Planning
  import opened Coherence
  import opened AuthoringScenes
  import opened SceneFreezes
  import opened SceneRuns
  import opened EvaluationLimits
  import Runs = EvaluationRuns

  function Last<T>(run: seq<History<T>>): History<T>
    requires run != []
  {
    run[|run| - 1]
  }

  function WithSystem<T>(h: History<T>, k: nat, system: Runs.System<T>): History<T>
    requires k < |h.scenes|
  {
    h.(scenes := h.scenes[k := h.scenes[k].(system := system)])
  }

  lemma Extend<T>(compose: (T, T) -> T, run: seq<History<T>>, events: seq<Event<T>>, e: Event<T>, h: History<T>)
    requires IsHistory(compose, run, events)
    requires Whole(compose, Last(run)) ==> Leads(compose, Last(run), e, h)
    ensures IsHistory(compose, run + [h], events + [e])
    ensures TimelyHistory(run, events) && TimelyEvent(Last(run), e) ==> TimelyHistory(run + [h], events + [e])
  {
    hide Whole, Leads, TimelyEvent;
    var run', events' := run + [h], events + [e];
    forall i | 0 <= i < |events'|
      ensures Whole(compose, run'[i]) ==> Leads(compose, run'[i], events'[i], run'[i + 1])
    {
      if i < |events| { assert run'[i] == run[i] && run'[i + 1] == run[i + 1] && events'[i] == events[i]; }
    }
  }

  /** One operation of a runtime is one event of a history. */
  lemma StepIsEvent<T>(compose: (T, T) -> T, h: History<T>, k: nat, step: Runs.Step<T>)
    requires Whole(compose, h) && k < |h.scenes|
    requires |h.scenes[k].system.state.records| == h.scenes[k].shape.Size()
    ensures Leads(compose, h, Operate(k, step),
                  WithSystem(h, k, Runs.Next(h.scenes[k].shape, compose, h.scenes[k].system, step)))
  {
    hide Whole, Runs.Next;
  }

  /** What can be run on a runtime can be made part of any history that has it. */
  lemma {:induction false} RunIsHistory<T>(compose: (T, T) -> T, run: seq<History<T>>, events: seq<Event<T>>, k: nat,
                                          steps: seq<Runs.Step<T>>)
    returns (run': seq<History<T>>, events': seq<Event<T>>)
    requires IsHistory(compose, run, events) && TimelyHistory(run, events) && k < |Last(run).scenes|
    requires |Last(run).scenes[k].system.state.records| == Last(run).scenes[k].shape.Size()
    requires Runs.TimelyRun(Last(run).scenes[k].shape, compose, Last(run).scenes[k].system, steps)
    ensures IsHistory(compose, run', events') && TimelyHistory(run', events') && run'[0] == run[0]
    ensures Last(run') ==
            WithSystem(Last(run), k, Runs.Run(Last(run).scenes[k].shape, compose, Last(run).scenes[k].system, steps))
    decreases |steps|
  {
    HistorySizes(compose, run, events);
    hide IsHistory, TimelyHistory, Whole, Leads, Runs.Next, Runs.Timely;
    var h, t, sys := Last(run), Last(run).scenes[k].shape, Last(run).scenes[k].system;
    if steps == [] {
      assert WithSystem(h, k, sys) == h;
      return run, events;
    }
    Runs.NextSize(t, compose, sys, steps[0]);
    var next := WithSystem(h, k, Runs.Next(t, compose, sys, steps[0]));
    if Whole(compose, h) { StepIsEvent(compose, h, k, steps[0]); }
    Extend(compose, run, events, Operate(k, steps[0]), next);
    run', events' := RunIsHistory(compose, run + [next], events + [Operate(k, steps[0])], k, steps[1..]);
  }

  lemma HistorySizes<T>(compose: (T, T) -> T, run: seq<History<T>>, events: seq<Event<T>>)
    requires IsHistory(compose, run, events)
    ensures |run| == |events| + 1
  {
  }

  // ----- the history -----

  const EMPTY: Authoring<int> := Authoring(map[], map[], 0)
  const FIRST: Authoring<int> := Authoring(map[1 := 0], map[1 := AuthoringRecord(0, 1)], 1)
  const SECOND: Authoring<int> :=
    Authoring(map[1 := 0, 2 := 0], map[1 := AuthoringRecord(0, 1), 2 := AuthoringRecord(0, 2)], 2)
  const AUTHORED: Authoring<int> :=
    Authoring(map[1 := 0, 2 := 0, 3 := 2],
              map[1 := AuthoringRecord(0, 1), 2 := AuthoringRecord(0, 2), 3 := AuthoringRecord(0, 3)], 3)

  function FrozenScene(): Runtime<int> { Runtime(Shape(), [1, 2, 3], FrozenState(), [1, 2, 3]) }

  lemma ShapeParents()
    ensures Shape().Size() == 3 && !Shape().HasParent(0) && !Shape().HasParent(1)
    ensures Shape().HasParent(2) && Shape().parent[2] == 1
  {
  }

  lemma ShapeFits()
    ensures FreezesTo(AUTHORED, Shape(), [1, 2, 3])
  {
    ShapeParents();
    hide Shape, Topology.Valid;
    var ids: seq<nat> := [1, 2, 3];
    assert Distinct(ids) && Elements(ids) == AUTHORED.parents.Keys;
  }

  lemma FreezeFits()
    ensures AUTHORED.records.Keys == AUTHORED.parents.Keys && FreezesTo(AUTHORED, Shape(), [1, 2, 3])
    ensures IsFreeze(AUTHORED, Shape(), [1, 2, 3], None, FrozenScene())
  {
    ShapeFits();
    FrozenSound();
    hide Shape, Topology.Valid, Sound, State.Valid, FreezesTo;
  }

  lemma Authored() returns (run: seq<History<int>>, events: seq<Event<int>>)
    ensures IsHistory(Sum, run, events) && TimelyHistory(run, events)
    ensures run[0] == History(EMPTY, []) && Last(run) == History(AUTHORED, [Fresh(FrozenScene(), 1)])
  {
    hide Whole, Sum;
    run, events := [History(EMPTY, [])], [];
    assert IsHistory(Sum, run, events) && TimelyHistory(run, events);
    hide IsHistory, TimelyHistory;
    var first, second, third := InsertRoot(1, 0, true), InsertRoot(2, 0, true), InsertChild(3, 2, 0, true);
    assert NextAuthoring(EMPTY, first) == FIRST;
    assert NextAuthoring(FIRST, second) == SECOND;
    assert NextAuthoring(SECOND, third) == AUTHORED;
    hide NextAuthoring;
    Extend(Sum, run, events, Author(first), History(FIRST, []));
    run, events := run + [History(FIRST, [])], events + [Author(first)];
    Extend(Sum, run, events, Author(second), History(SECOND, []));
    run, events := run + [History(SECOND, [])], events + [Author(second)];
    Extend(Sum, run, events, Author(third), History(AUTHORED, []));
    run, events := run + [History(AUTHORED, [])], events + [Author(third)];
    FreezeFits();
    var freeze, last := FreezeNew(Shape(), [1, 2, 3], FrozenScene(), 1), History(AUTHORED, [Fresh(FrozenScene(), 1)]);
    hide FrozenState, Shape, FreezesTo, IsFreeze;
    assert [] + [Fresh(FrozenScene(), 1)] == [Fresh(FrozenScene(), 1)];
    Extend(Sum, run, events, freeze, last);
    run, events := run + [last], events + [freeze];
  }

  /** For every number of laps there is a history from the empty scene, timely up to its last event, after which a node
      with nothing dirty at or above it holds a wrong world. */
  lemma TimelyHistoriesAreNeeded(laps: nat) returns (run: seq<History<int>>, events: seq<Event<int>>)
    requires laps >= 1
    ensures IsHistory(Sum, run, events) && run[0] == History(EMPTY, [])
    ensures |events| > 0 && TimelyHistory(run[..|events|], events[..|events| - 1])
    ensures events[|events| - 1] == Operate(0, Runs.Evaluate(1))
    ensures |run[|events| - 1].scenes| == 1 && |Last(run).scenes| == 1
    ensures var sys := run[|events| - 1].scenes[0].system;
      && |sys.tokens| > 1 && |sys.buffers| == 1 && sys.tokens[1].workspace == 0 && Runs.Lag(sys, 1) == laps * MAX64
    ensures var scene := Last(run).scenes[0];
      && scene.shape == Shape() && |scene.system.state.records| == 3
      && Shape().Ancestors(2) * Dirty(scene.system.state.records) == {}
      && scene.system.state.records[2].world != Shape().Fold(Sum, Locals(scene.system.state.records), 2)
  {
    hide IsHistory, TimelyHistory, Whole, Leads, Runs.Next, Runs.Run, Runs.TimelyRun, Runs.Evaluates, FrozenState, Sum,
      Late, Topology.Fold, Topology.Ancestors, Dirty, Locals, Sound, Shape;
    TimelinessIsNeeded(laps);
    var before, done := Authored();
    before, done := RunIsHistory(Sum, before, done, 0, Late(laps));
    HistorySizes(Sum, before, done);
    var h := Last(before);
    var sys := h.scenes[0].system;
    SizeOfShape();
    var after := WithSystem(h, 0, Runs.Next(Shape(), Sum, sys, Runs.Evaluate(1)));
    if Whole(Sum, h) { StepIsEvent(Sum, h, 0, Runs.Evaluate(1)); }
    Extend(Sum, before, done, Operate(0, Runs.Evaluate(1)), after);
    run, events := before + [after], done + [Operate(0, Runs.Evaluate(1))];
    assert run[..|events|] == before && events[..|events| - 1] == done;
  }

  lemma SizeOfShape()
    ensures Shape().Size() == 3
  {
  }
}
