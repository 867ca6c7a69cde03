/** What frames amount to over time: which steps are taken, and that the engine shows the worlds of the scene. */
module SynchronizedFrames {
  import opened Options
  import opened Sequences
  import opened Polytrees
  import opened TransformStates
  import opened Planning
  import opened Evaluation
  import opened Coherence
  import opened ActiveMotionSets
  import opened LocalEdits
  import opened MotionAdvance
  import opened Synchronization

  // ----- a frame with room takes all its steps -----

  ghost predicate Fitting<V>(topology: Polytree, active: Motions<V>) {
    && active.topology == topology && active.nodeCount == topology.shape.Size() && Ascending(active.records)
    && forall i | 0 <= i < |active.records| :: active.records[i].node < active.nodeCount
  }

  lemma {:induction false} AscendingShort<V>(s: seq<Entry<V>>, n: nat)
    requires Ascending(s) && forall i | 0 <= i < |s| :: s[i].node < n
    ensures |s| <= n
  {
    if s != [] {
      var front := s[..|s| - 1];
      assert forall i | 0 <= i < |front| :: front[i] == s[i];
      AscendingShort(front, s[|s| - 1].node);
    }
  }

  /** Commands leave the motions on known nodes. */
  lemma CommandedFits<V>(topology: Polytree, before: Motions<V>, updates: seq<Entry<V>>, stationary: V -> bool,
                         after: Motions<V>)
    requires Fitting(topology, before) && Commanded(before, updates, stationary, after)
    ensures Fitting(topology, after) && |after.records| <= topology.shape.Size()
  {
    hide View, SetAll;
    forall i | 0 <= i < |after.records| ensures after.records[i].node < after.nodeCount {
      if !exists j :: 0 <= j < |updates| && updates[j].node >= before.nodeCount {
        var n := after.records[i].node;
        ViewNodes(after.records, n);
        ViewNodes(before.records, n);
        SetAllAt(View(before.records), updates, stationary, n);
      }
    }
    AscendingShort(after.records, topology.shape.Size());
  }

  /** What a batch of motion commands leaves a node with: the state of the last command for it, nothing if that one is
      stationary, and what it had if there is none. */
  lemma CommandedLast<V>(before: Motions<V>, updates: seq<Entry<V>>, stationary: V -> bool, after: Motions<V>, n: nat)
    requires Commanded(before, updates, stationary, after)
    requires forall i | 0 <= i < |updates| :: updates[i].node < before.nodeCount
    ensures if Touches(updates, n) then
              var state := updates[Last(updates, n)].state;
              if stationary(state) then n !in View(after.records)
              else n in View(after.records) && View(after.records)[n] == state
            else (n in View(after.records) <==> n in View(before.records)) &&
                 (n in View(before.records) ==> View(after.records)[n] == View(before.records)[n])
  {
    hide View, SetAll;
    SetAllAt(View(before.records), updates, stationary, n);
  }

  lemma {:induction false} TryRevision<T>(s: State<T>, us: seq<Entry<T>>)
    ensures s.revision <= TryEdits(s, us).revision <= s.revision + |us|
    ensures |TryEdits(s, us).records| == |s.records|
  {
    if us != [] {
      TryRevision(s, us[..|us| - 1]);
    }
  }

  lemma OneStep<T, V>(topology: Polytree, integrate: (T, V, FixedStep) -> T, compose: (T, T) -> T,
                      stationary: V -> bool, delta: int, m: Moment<T, V>, c: Commands<T, V>, m': Moment<T, V>)
    requires Sound(topology.shape, compose, m.state) && m.state.revision <= MAX64 && Fitting(topology, m.active)
    requires StepLeads(topology, integrate, compose, stationary, delta, m, c, m')
    requires delta > 0 && m.tick < MAX64
    requires m.state.revision + |c.locals| + topology.shape.Size() + 1 <= MAX64
    ensures Sound(topology.shape, compose, m'.state) && Fitting(topology, m'.active)
    ensures m'.tick == m.tick + 1 && UpToDate(topology.shape, compose, m'.state)
    ensures m'.state.revision <= m.state.revision + |c.locals| + topology.shape.Size() + 1
  {
    hide Topology.Valid, Sound, UpToDate, TryEdits, Commanded, Stepped, View, SetAll, Ascending, Fitting;
    TryRevision(m.state, c.locals);
    FittingMeans(topology, m.active);
    CommandedFits(topology, m.active, c.motions, stationary, m'.active);
    FittingMeans(topology, m'.active);
    StepSettles(topology, integrate, compose, stationary, delta, m, c, m');
  }

  lemma FittingMeans<V>(topology: Polytree, active: Motions<V>)
    requires Fitting(topology, active)
    ensures active.topology == topology && active.nodeCount == topology.shape.Size() && Ascending(active.records)
    ensures forall i | 0 <= i < |active.records| :: active.records[i].node < topology.shape.Size()
  {
  }

  /** When the tick and the clock have room for it, a frame takes every one of its steps, whatever the controllers
      command, and the scene is up to date after each. */
  lemma {:induction false} FrameCompletes<T, V>(topology: Polytree, integrate: (T, V, FixedStep) -> T,
                                                compose: (T, T) -> T, stationary: V -> bool, delta: int,
                                                trace: seq<Moment<T, V>>, commands: nat -> Commands<T, V>,
                                                locals: nat, k: nat)
    requires FrameTrace(topology, integrate, compose, stationary, delta, trace, commands) && k < |trace|
    requires Sound(topology.shape, compose, trace[0].state) && Fitting(topology, trace[0].active) && delta > 0
    requires forall i :: |commands(i).locals| <= locals
    requires trace[0].tick + k <= MAX64
    requires trace[0].state.revision + k * (locals + topology.shape.Size() + 1) <= MAX64
    ensures Sound(topology.shape, compose, trace[k].state) && Fitting(topology, trace[k].active)
    ensures trace[k].tick == trace[0].tick + k
    ensures trace[k].state.revision <= trace[0].state.revision + k * (locals + topology.shape.Size() + 1)
    ensures k > 0 ==> UpToDate(topology.shape, compose, trace[k].state)
  {
    hide Topology.Valid, StepLeads, UpToDate, Fitting, Sound;
    if k > 0 {
      var cost := locals + topology.shape.Size() + 1;
      assert k * cost == (k - 1) * cost + cost;
      FrameCompletes(topology, integrate, compose, stationary, delta, trace, commands, locals, k - 1);
      assert StepLeads(topology, integrate, compose, stationary, delta, trace[k - 1], commands(k - 1),
            trace[k - 1 + 1]);
      OneStep(topology, integrate, compose, stationary, delta, trace[k - 1], commands(k - 1), trace[k]);
    }
  }

  // ----- what the engine shows -----

  /** What the entities show after the writer calls `ws`. */
  function Told<T>(shown: map<nat, T>, ws: seq<Write<T>>): map<nat, T> {
    if ws == [] then shown else Told(shown, ws[..|ws| - 1])[ws[|ws| - 1].entity := ws[|ws| - 1].world]
  }

  /** The entity bound to `v`, if there is one, shows the node's world. */
  ghost predicate ShownAt<T>(shown: map<nat, T>, bindings: seq<Option<Binding<T>>>, records: seq<Record<T>>,
                             place: (T, T) -> T, v: nat)
    requires v < |bindings| == |records|
  {
    bindings[v].Some? ==>
      var b := bindings[v].value;
      b.entity in shown && shown[b.entity] == place(records[v].world, b.nodeToTarget)
  }

  /** Every world that was evaluated by revision `since` is shown. */
  ghost predicate Mirrors<T>(shown: map<nat, T>, bindings: seq<Option<Binding<T>>>, records: seq<Record<T>>,
                             place: (T, T) -> T, since: nat)
  {
    && |bindings| == |records|
    && forall v: nat | v < |records| && 0 < records[v].worldRevision <= since ::
         ShownAt(shown, bindings, records, place, v)
  }

  /** No entity is bound to two nodes. */
  ghost predicate BoundApart<T>(bindings: seq<Option<Binding<T>>>) {
    forall v, w | 0 <= v < |bindings| && 0 <= w < |bindings| && bindings[v].Some? && bindings[w].Some?
          && bindings[v].value.entity == bindings[w].value.entity :: v == w
  }

  /** A world that was never evaluated is dirty. */
  ghost predicate Counted<T>(s: State<T>) {
    forall v: nat | v < |s.records| && s.records[v].worldRevision == 0 :: s.records[v].dirty
  }

  lemma {:induction false} ToldAt<T>(shown: map<nat, T>, ws: seq<Write<T>>, entity: nat, x: T)
    requires forall k | 0 <= k < |ws| && ws[k].entity == entity :: ws[k].world == x
    ensures var told := Told(shown, ws);
      if exists k :: 0 <= k < |ws| && ws[k].entity == entity then entity in told && told[entity] == x
      else (entity in told <==> entity in shown) && (entity in shown ==> told[entity] == shown[entity])
  {
    if ws != [] {
      var front := ws[..|ws| - 1];
      assert forall k | 0 <= k < |front| :: front[k] == ws[k];
      ToldAt(shown, front, entity, x);
      if ws[|ws| - 1].entity != entity {
        if k :| 0 <= k < |ws| && ws[k].entity == entity { assert front[k].entity == entity; }
        if k :| 0 <= k < |front| && front[k].entity == entity { assert ws[k].entity == entity; }
      }
    }
  }

  /** Writing what changed since the last synchronisation makes everything evaluated visible. */
  lemma WritesMirror<T>(t: Forest, shown: map<nat, T>, bindings: seq<Option<Binding<T>>>, records: seq<Record<T>>,
                        place: (T, T) -> T, since: nat, changed: seq<nat>, written: seq<Write<T>>, v: nat)
    requires |records| == t.Size() && Mirrors(shown, bindings, records, place, since) && BoundApart(bindings)
    requires changed == Restrict(t.order, Changed(records, since))
    requires AreWrites(changed, bindings, records, place, written)
    requires v < |records| && records[v].worldRevision > 0
    ensures ShownAt(Told(shown, written), bindings, records, place, v)
  {
    if bindings[v].Some? {
      hide Topology.Valid, Restrict, Told;
      OrderDistinct(t);
      var b, bound := bindings[v].value, Restrict(changed, Bound(bindings));
      forall k | 0 <= k < |written| && written[k].entity == b.entity
        ensures bound[k] == v && written[k].world == place(records[v].world, b.nodeToTarget)
      {
        assert bindings[bound[k]].Some? && bindings[bound[k]].value.entity == b.entity;
      }
      ToldAt(shown, written, b.entity, place(records[v].world, b.nodeToTarget));
      if records[v].worldRevision > since {
        assert v in changed && v in Bound(bindings);
        var k :| 0 <= k < |bound| && bound[k] == v;
        assert written[k].entity == b.entity;
      } else {
        assert ShownAt(shown, bindings, records, place, v);
        assert forall k | 0 <= k < |bound| :: bound[k] in changed;
      }
    }
  }

  // ----- worlds change only under a new revision -----

  /** From `s` to `s'` a world changes only together with its revision, which is then past the clock of `s`; no node
      becomes clean without being evaluated. */
  ghost predicate Ages<T>(s: State<T>, s': State<T>) {
    && |s.records| == |s'.records| && s.revision <= s'.revision
    && forall v: nat | v < |s.records| :: AgesAt(s, s', v)
  }

  ghost predicate AgesAt<T>(s: State<T>, s': State<T>, v: nat)
    requires v < |s.records| == |s'.records|
  {
    var a, b := s.records[v], s'.records[v];
    || (b.world == a.world && b.worldRevision == a.worldRevision && (a.dirty ==> b.dirty))
    || b.worldRevision > s.revision
  }

  lemma AgesTrans<T>(a: State<T>, b: State<T>, c: State<T>)
    requires Ages(a, b) && Ages(b, c)
    ensures Ages(a, c)
  {
    forall v: nat | v < |a.records| ensures AgesAt(a, c, v) {
      assert AgesAt(a, b, v) && AgesAt(b, c, v);
    }
  }

  lemma AgesMirror<T>(s: State<T>, s': State<T>, shown: map<nat, T>, bindings: seq<Option<Binding<T>>>,
                      place: (T, T) -> T, since: nat)
    requires Ages(s, s') && Mirrors(shown, bindings, s.records, place, since) && since <= s.revision && Counted(s)
    ensures Mirrors(shown, bindings, s'.records, place, since) && Counted(s')
  {
    forall v: nat | v < |s.records|
      ensures 0 < s'.records[v].worldRevision <= since ==> ShownAt(shown, bindings, s'.records, place, v)
      ensures s'.records[v].worldRevision == 0 ==> s'.records[v].dirty
    {
      assert AgesAt(s, s', v);
      if 0 < s.records[v].worldRevision <= since { assert ShownAt(shown, bindings, s.records, place, v); }
    }
  }

  lemma {:induction false} TryAges<T>(s: State<T>, us: seq<Entry<T>>)
    ensures Ages(s, TryEdits(s, us))
  {
    if us != [] {
      var prior, u := TryEdits(s, us[..|us| - 1]), us[|us| - 1];
      TryAges(s, us[..|us| - 1]);
      if EditError(prior, u.node) == Ok {
        forall v: nat | v < |prior.records| ensures AgesAt(prior, Edit(prior, u.node, u.state), v) { }
        AgesTrans(s, prior, Edit(prior, u.node, u.state));
      }
    }
  }

  lemma EditAllAges<T>(s: State<T>, us: seq<Entry<T>>)
    requires Within(us, |s.records|) && s.revision + |us| <= MAX64
    ensures Ages(s, EditAll(s, us))
  {
    forall v: nat | v < |s.records| ensures AgesAt(s, EditAll(s, us), v) {
      EditAllAt(s, us, v);
    }
  }

  lemma ReevaluatedAges<T>(t: Forest, compose: (T, T) -> T, s: State<T>)
    requires |s.records| == t.Size()
    ensures Ages(s, Reevaluated(t, compose, s))
  {
    var d := Dirty(s.records);
    var nodes, s' := Planned(t, d), Reevaluated(t, compose, s);
    hide Planned, Recompute, Topology.Valid;
    PlannedAscends(t, d);
    RecomputeSettles(t, compose, s.records, nodes, s'.revision);
    forall v: nat | v < |s.records| ensures AgesAt(s, s', v) {
      assert SettledAt(t, compose, s.records, s'.records, Elements(nodes), s'.revision, v);
      if v in nodes { assert nodes != []; }
    }
  }

  lemma SteppedAges<T, V>(topology: Polytree, integrate: (T, V, FixedStep) -> T, compose: (T, T) -> T, delta: int,
                          m: Moment<T, V>)
    requires |m.state.records| == topology.shape.Size()
    ensures Ages(m.state, Stepped(topology, integrate, compose, delta, m).state)
  {
    hide Reevaluated, EditAll, Topology.Valid;
    if Preflight(topology, m.state, m.active, FixedStep(m.tick, delta)) == NoError {
      Admitted(topology, m.state, m.active, integrate, FixedStep(m.tick, delta));
      var us := Integrated(m.state, m.active.records, integrate, FixedStep(m.tick, delta));
      EditAllAges(m.state, us);
      ReevaluatedAges(topology.shape, compose, EditAll(m.state, us));
      AgesTrans(m.state, EditAll(m.state, us), Reevaluated(topology.shape, compose, EditAll(m.state, us)));
    } else {
      AgesSame(m.state);
    }
  }

  lemma AgesSame<T>(s: State<T>)
    ensures Ages(s, s)
  {
  }

  lemma {:induction false} FrameAges<T, V>(topology: Polytree, integrate: (T, V, FixedStep) -> T, compose: (T, T) -> T,
                                           stationary: V -> bool, delta: int, trace: seq<Moment<T, V>>,
                                           commands: nat -> Commands<T, V>, k: nat)
    requires FrameTrace(topology, integrate, compose, stationary, delta, trace, commands) && k < |trace|
    ensures Ages(trace[0].state, trace[k].state)
  {
    if k == 0 {
      AgesSame(trace[0].state);
    } else {
      hide Ages, TryEdits, Stepped, Commanded;
      FrameAges(topology, integrate, compose, stationary, delta, trace, commands, k - 1);
      var m, c := trace[k - 1], commands(k - 1);
      assert StepLeads(topology, integrate, compose, stationary, delta, m, c, trace[k - 1 + 1]);
      var written := TryEdits(m.state, c.locals);
      TryAges(m.state, c.locals);
      SteppedAges(topology, integrate, compose, delta, Moment(written, m.tick, trace[k].active));
      AgesTrans(m.state, written, trace[k].state);
      AgesTrans(trace[0].state, m.state, trace[k].state);
    }
  }

  /** The state a frame ends in: after its steps, or after the one evaluation of a frame without steps. */
  ghost predicate EndsIn<T, V>(t: Forest, compose: (T, T) -> T, trace: seq<Moment<T, V>>, end: State<T>)
    requires trace != []
  {
    || end == trace[|trace| - 1].state
    || (|trace| == 1 && |trace[0].state.records| == t.Size() && end == Refreshed(t, compose, trace[0].state))
  }

  lemma EndAges<T, V>(topology: Polytree, integrate: (T, V, FixedStep) -> T, compose: (T, T) -> T,
                      stationary: V -> bool, delta: int, trace: seq<Moment<T, V>>,
                      commands: nat -> Commands<T, V>, end: State<T>)
    requires FrameTrace(topology, integrate, compose, stationary, delta, trace, commands) && trace != []
    requires EndsIn(topology.shape, compose, trace, end)
    ensures Ages(trace[0].state, end)
  {
    hide Ages, FrameTrace, Reevaluated;
    FrameAges(topology, integrate, compose, stationary, delta, trace, commands, |trace| - 1);
    if end != trace[|trace| - 1].state {
      ReevaluatedAges(topology.shape, compose, trace[0].state);
    }
  }

  /** One frame after another: if before a frame the entities show every world evaluated by the last synchronisation,
      then after it they show every world evaluated at all; so when the frame leaves the scene up to date, every bound
      entity shows the world recomputed from its root, placed for it. */
  lemma FrameMirrors<T, V>(topology: Polytree, integrate: (T, V, FixedStep) -> T, compose: (T, T) -> T,
                           stationary: V -> bool, delta: int, trace: seq<Moment<T, V>>, commands: nat -> Commands<T, V>,
                           end: State<T>, shown: map<nat, T>, bindings: seq<Option<Binding<T>>>, place: (T, T) -> T,
                           since: nat, changed: seq<nat>, written: seq<Write<T>>)
    requires FrameTrace(topology, integrate, compose, stationary, delta, trace, commands) && trace != []
    requires EndsIn(topology.shape, compose, trace, end)
    requires |bindings| == |end.records| == topology.shape.Size()
    requires BoundApart(bindings) && Mirrors(shown, bindings, trace[0].state.records, place, since)
    requires Counted(trace[0].state) && since <= trace[0].state.revision
    requires changed == Restrict(topology.shape.order, Changed(end.records, since))
    requires AreWrites(changed, bindings, end.records, place, written)
    ensures Mirrors(Told(shown, written), bindings, end.records, place, end.revision) && Counted(end)
    ensures end.Valid() && UpToDate(topology.shape, compose, end) ==>
              forall v: nat | v < topology.shape.Size() && bindings[v].Some? ::
                && bindings[v].value.entity in Told(shown, written)
                && Told(shown, written)[bindings[v].value.entity] ==
                   place(topology.shape.Fold(compose, Locals(end.records), v), bindings[v].value.nodeToTarget)
  {
    hide FrameTrace, EndsIn, Ages, Told, Restrict, AreWrites, BoundApart;
    EndAges(topology, integrate, compose, stationary, delta, trace, commands, end);
    AgesMirror(trace[0].state, end, shown, bindings, place, since);
    forall v: nat | v < |end.records| && end.records[v].worldRevision > 0
      ensures ShownAt(Told(shown, written), bindings, end.records, place, v)
    {
      WritesMirror(topology.shape, shown, bindings, end.records, place, since, changed, written, v);
    }
    if end.Valid() && UpToDate(topology.shape, compose, end) {
      FrontierInRange(end);
      forall v: nat | v < topology.shape.Size() && bindings[v].Some?
        ensures bindings[v].value.entity in Told(shown, written)
        ensures Told(shown, written)[bindings[v].value.entity] ==
                place(topology.shape.Fold(compose, Locals(end.records), v), bindings[v].value.nodeToTarget)
      {
        assert CoherentAt(topology.shape, compose, end.records, v);
        assert v !in Dirty(end.records);
        assert ShownAt(Told(shown, written), bindings, end.records, place, v);
      }
    }
  }
}
