/** Whole histories: authoring edits, freezes of any earlier runtime, and operations on every runtime, interleaved. */
module SceneRuns {
  import opened Options
  import opened Sequences
  import opened Polytrees
  import opened TransformStates
  import opened Planning
  import opened Evaluation
  import opened Coherence
  import opened AuthoringScenes
  import opened SceneFreezes
  import Runs = EvaluationRuns

  /** A runtime scene together with the workspaces and held plans that operate on it. */
  datatype Scene<T> = Scene(shape: Forest, ids: seq<nat>, authoringRevisions: seq<nat>, system: Runs.System<T>) {
    function Value(): Runtime<T> { Runtime(shape, ids, system.state, authoringRevisions) }
  }

  datatype History<T> = History(authoring: Authoring<T>, scenes: seq<Scene<T>>)

  datatype Event<T> =
    | Author(op: AuthoringOp<T>)
    | Operate(scene: nat, step: Runs.Step<T>)
    | FreezeNew(shape: Forest, ids: seq<nat>, frozen: Runtime<T>, workspaces: nat)
    | FreezeAgain(previous: nat, shape: Forest, ids: seq<nat>, frozen: Runtime<T>, workspaces: nat)

  function Fresh<T>(r: Runtime<T>, workspaces: nat): Scene<T> {
    Scene(r.shape, r.ids, r.authoringRevisions, Runs.Started(r.state, workspaces))
  }

  /** One event leads from `h` to `h'`. */
  ghost predicate Leads<T>(compose: (T, T) -> T, h: History<T>, e: Event<T>, h': History<T>)
    requires Whole(compose, h)
  {
    match e
    case Author(op) =>
      Legal(h.authoring, op) && h' == h.(authoring := NextAuthoring(h.authoring, op))
    case Operate(i, step) =>
      && i < |h.scenes|
      && (SceneSize(compose, h, i);
          h' == h.(scenes := h.scenes[i := h.scenes[i].(
            system := Runs.Next(h.scenes[i].shape, compose, h.scenes[i].system, step))]))
    case FreezeNew(t, ids, r, workspaces) =>
      && FreezesTo(h.authoring, t, ids) && IsFreeze(h.authoring, t, ids, None, r)
      && h' == h.(scenes := h.scenes + [Fresh(r, workspaces)])
    case FreezeAgain(i, t, ids, r, workspaces) =>
      && i < |h.scenes|
      && (SceneSize(compose, h, i);
          && FreezesTo(h.authoring, t, ids) && IsFreeze(h.authoring, t, ids, Some(h.scenes[i].Value()), r)
          && h' == h.(scenes := h.scenes + [Fresh(r, workspaces)]))
  }

  ghost predicate WholeScene<T>(compose: (T, T) -> T, a: Authoring<T>, scene: Scene<T>) {
    Linked(scene.Value(), a) && Runs.Invariant(scene.shape, compose, scene.system)
  }

  /** The authoring scene is coupled; every runtime is coherent, its held plans are honest, and it is tied to the
      authoring history. */
  ghost predicate Whole<T>(compose: (T, T) -> T, h: History<T>) {
    h.authoring.Coupled() && forall i | 0 <= i < |h.scenes| :: WholeScene(compose, h.authoring, h.scenes[i])
  }

  lemma SceneSize<T>(compose: (T, T) -> T, h: History<T>, i: nat)
    requires Whole(compose, h) && i < |h.scenes|
    ensures WellFormed(h.scenes[i].Value()) && |h.scenes[i].system.state.records| == h.scenes[i].shape.Size()
  {
    assert WholeScene(compose, h.authoring, h.scenes[i]);
  }

  lemma {:induction false} RecomputeKeepsLocals<T>(t: Forest, compose: (T, T) -> T, records: seq<Record<T>>,
                                                  nodes: seq<nat>, revision: nat)
    requires |records| == t.Size() && InRange(t, nodes)
    ensures var r := Recompute(t, compose, records, nodes, revision);
      forall v: nat | v < t.Size() :: r[v].local == records[v].local && r[v].localRevision == records[v].localRevision
  {
    if nodes != [] {
      RecomputeKeepsLocals(t, compose, records, nodes[..|nodes| - 1], revision);
    }
  }

  /** Operating a runtime keeps it tied to the authoring history. */
  lemma OperateKeeps<T>(compose: (T, T) -> T, a: Authoring<T>, scene: Scene<T>, step: Runs.Step<T>)
    requires WholeScene(compose, a, scene) && Runs.Timely(scene.system, step)
    ensures |scene.system.state.records| == scene.shape.Size()
    ensures WholeScene(compose, a, scene.(system := Runs.Next(scene.shape, compose, scene.system, step)))
  {
    var t, sys := scene.shape, scene.system;
    Runs.SizeKnown(t, compose, sys.state);
    Runs.NextKeeps(t, compose, sys, step);
    var next := Runs.Next(t, compose, sys, step);
    Runs.NextSize(t, compose, sys, step);
    if step.Evaluate? && next != sys {
      var nodes := Runs.Shown(sys, step.token);
      RecomputeKeepsLocals(t, compose, sys.state.records, nodes, sys.state.revision + if nodes == [] then 0 else 1);
    }
    RuntimeKeepsLink(scene.Value(), a, next.state);
  }

  lemma FreshWhole<T>(compose: (T, T) -> T, a: Authoring<T>, r: Runtime<T>, workspaces: nat)
    requires Linked(r, a) && Sound(r.shape, compose, r.state)
    ensures WholeScene(compose, a, Fresh(r, workspaces))
  {
    assert Fresh(r, workspaces).Value() == r;
  }

  /** No plan is evaluated whole laps of its workspace's epoch after it was built. */
  predicate TimelyEvent<T>(h: History<T>, e: Event<T>) {
    e.Operate? && e.scene < |h.scenes| ==> Runs.Timely(h.scenes[e.scene].system, e.step)
  }

  lemma EventKeeps<T>(compose: (T, T) -> T, h: History<T>, e: Event<T>, h': History<T>)
    requires Whole(compose, h) && Leads(compose, h, e, h') && TimelyEvent(h, e)
    ensures Whole(compose, h')
  {
    match e
    case Author(op) =>
      NextFollows(h.authoring, op);
      forall i | 0 <= i < |h.scenes| ensures WholeScene(compose, h'.authoring, h'.scenes[i]) {
        assert WholeScene(compose, h.authoring, h.scenes[i]);
        AuthoringKeepsLink(h.scenes[i].Value(), h.authoring, h'.authoring);
      }
    case Operate(k, step) =>
      SceneSize(compose, h, k);
      assert WholeScene(compose, h.authoring, h.scenes[k]);
      OperateKeeps(compose, h.authoring, h.scenes[k], step);
      forall i | 0 <= i < |h'.scenes| ensures WholeScene(compose, h'.authoring, h'.scenes[i]) {
        assert i != k ==> WholeScene(compose, h.authoring, h.scenes[i]);
      }
    case FreezeNew(t, ids, r, workspaces) =>
      FreezeCoherent(h.authoring, t, ids, compose, None, r);
      FreshWhole(compose, h.authoring, r, workspaces);
    case FreezeAgain(k, t, ids, r, workspaces) =>
      SceneSize(compose, h, k);
      assert WholeScene(compose, h.authoring, h.scenes[k]);
      FreezeCoherent(h.authoring, t, ids, compose, Some(h.scenes[k].Value()), r);
      FreshWhole(compose, h.authoring, r, workspaces);
  }

  /** A run of events. */
  ghost predicate IsHistory<T>(compose: (T, T) -> T, run: seq<History<T>>, events: seq<Event<T>>) {
    && |run| == |events| + 1
    && forall i | 0 <= i < |events| :: Whole(compose, run[i]) ==> Leads(compose, run[i], events[i], run[i + 1])
  }

  predicate TimelyHistory<T>(run: seq<History<T>>, events: seq<Event<T>>) {
    |run| > |events| && forall i | 0 <= i < |events| :: TimelyEvent(run[i], events[i])
  }

  /** From an empty authoring scene, every timely history keeps every runtime coherent. */
  lemma {:induction false} HistoryKeeps<T>(compose: (T, T) -> T, run: seq<History<T>>, events: seq<Event<T>>, i: nat)
    requires IsHistory(compose, run, events) && TimelyHistory(run, events) && i <= |events|
    requires run[0] == History(Authoring(map[], map[], 0), [])
    ensures Whole(compose, run[i])
  {
    if i > 0 {
      HistoryKeeps(compose, run, events, i - 1);
      assert Leads(compose, run[i - 1], events[i - 1], run[i - 1 + 1]);
      EventKeeps(compose, run[i - 1], events[i - 1], run[i]);
    }
  }

  /** In particular a node with no dirty ancestor-or-self holds, in every runtime at every moment, the recomputed
      world. */
  lemma HistoryCoherence<T>(compose: (T, T) -> T, run: seq<History<T>>, events: seq<Event<T>>, i: nat, k: nat, v: nat)
    requires IsHistory(compose, run, events) && TimelyHistory(run, events) && i <= |events|
    requires run[0] == History(Authoring(map[], map[], 0), [])
    requires k < |run[i].scenes| && v < run[i].scenes[k].shape.Size()
    ensures var scene := run[i].scenes[k];
      var records := scene.system.state.records;
      && |records| == scene.shape.Size()
      && (scene.shape.Ancestors(v) * Dirty(records) == {} ==>
            records[v].world == scene.shape.Fold(compose, Locals(records), v))
  {
    HistoryKeeps(compose, run, events, i);
    var scene := run[i].scenes[k];
    assert WholeScene(compose, run[i].authoring, scene);
    Runs.SizeKnown(scene.shape, compose, scene.system.state);
    if scene.shape.Ancestors(v) * Dirty(scene.system.state.records) == {} {
      assert v !in Affected(scene.shape, Dirty(scene.system.state.records));
      assert CoherentAt(scene.shape, compose, scene.system.state.records, v);
    }
  }
}
