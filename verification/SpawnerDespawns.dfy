/** A despawn that is reported as succeeded has despawned its entities. */
module SpawnerDespawns {
  import opened Options
  import opened Spawners
  import opened SpawnerAnswers

  /** From the entity spawn to the unbinding a living instance holds the ticket of its entities. */
  ghost predicate Keyed(r: Record) {
    !r.terminalSpawnFailure && Rank(Unbinding) <= Rank(r.phase) <= Rank(Spawning) ==> r.ticket.ValidTicket?
  }

  /** A despawn that is past its entities, with no failure to report so far but those of the cleanup. */
  ghost predicate Clear(r: Record) {
    Decided(r) && Rank(r.phase) < Rank(DespawningEntities) && r.despawnFailure.error == NoDespawnError
  }

  /** `e` tells the component that the entities of record `id` are despawned, and the record waits for it. */
  ghost predicate Completes(w: Component, e: Event, id: nat) {
    && e.DespawnCompleted? && e.request == id && e.generation == w.generation && id in w.instances
    && w.instances[id].phase.DespawningEntities? && w.instances[id].ticket == ValidTicket(e.ticketId)
  }

  /** A record gets past its entities without a failure, and is reported as despawned, only when their despawn is
      completed. */
  ghost predicate Honest(base: Record, h: Handled, completed: bool) {
    match h.record
    case Some(r) =>
      && Keyed(r) && r.despawnRequest == base.despawnRequest
      && (Clear(r) ==> completed || Clear(base))
      && forall j | 0 <= j < |h.notices| :: !h.notices[j].DespawnSucceeded?
    case None =>
      forall j | 0 <= j < |h.notices| && h.notices[j].DespawnSucceeded? ::
        h.notices[j].despawn == base.despawnRequest && (completed || Clear(base))
  }

  lemma OutHonest(r: Record, top: Phase, ticket: Ticket, a: Answers, before: DespawnFailure, h: Handled)
    requires DespawningGoesOut(r, top, ticket, a, before, h)
    requires h.record.Some? ==> h.record.value.despawnRequest == r.despawnRequest
    requires Rank(Releasing) < Rank(top) <= Rank(DetachingControllers)
    requires Rank(top) > Rank(DespawningEntities) ==> ticket.ValidTicket?
    requires top.CleanupResetting? && before.error == NoDespawnError ==> Clear(r)
    ensures Honest(r, h, top.DespawningEntities?)
  {
    hide Decided;
    if h.record.None? {
      var t: DespawnFailure :| TroubleIs(top, ticket, a, before, h, t) && |h.notices| == 1
        && Reports(h.notices[0], r, t);
    }
  }

  lemma FailingHonest(r: Record, top: Phase, ticket: Ticket, a: Answers, cause: SpawnFailure, h: Handled,
                      completed: bool)
    requires FailingGoesOut(r, top, ticket, a, cause, h)
    requires h.record.Some? ==> h.record.value.despawnRequest == r.despawnRequest
    ensures Honest(r, h, completed)
  {
  }

  lemma CommandHonest(r: Record, result: ResultCode, boundary: Boundary, a: Answers, n: nat)
    requires Shaped(r, n) && r.pending != 0 && Keyed(r)
    ensures Honest(r, OnCommand(r, result, boundary, a, n), false)
  {
    hide OnCommand, FailingGoesOut, DespawningGoesOut, Honest;
    var h := OnCommand(r, result, boundary, a, n);
    CommandMoves(r, result, boundary, a, n);
    if Rank(r.phase) > Rank(Active) {
      OpeningHonest(r, result, boundary, a, n);
    } else {
      ClosingHonest(r, result, boundary, a, n);
    }
  }

  lemma OpeningHonest(r: Record, result: ResultCode, boundary: Boundary, a: Answers, n: nat)
    requires Shaped(r, n) && r.pending != 0 && Keyed(r) && Rank(r.phase) > Rank(Active)
    ensures Honest(r, OnCommand(r, result, boundary, a, n), false)
  {
    hide OnCommand, FailingGoesOut, FailedFor, RefusedFor;
    var h := OnCommand(r, result, boundary, a, n);
    CommandMoves(r, result, boundary, a, n);
    var cause := OpeningMeans(r, result, boundary, a, n);
    if Fails(r, r.ticket, a, cause, h) {
      FailingHonest(r, DetachingControllers, r.ticket, a, cause, h, false);
    } else if Fails(r, InvalidTicket, a, cause, h) {
      FailingHonest(r, DetachingControllers, InvalidTicket, a, cause, h, false);
    }
  }

  lemma ClosingHonest(r: Record, result: ResultCode, boundary: Boundary, a: Answers, n: nat)
    requires Shaped(r, n) && r.pending != 0 && Keyed(r) && Rank(r.phase) <= Rank(Active)
    ensures Honest(r, OnCommand(r, result, boundary, a, n), false)
  {
    hide OnCommand, FailingGoesOut, DespawningGoesOut;
    var h := OnCommand(r, result, boundary, a, n);
    CommandMoves(r, result, boundary, a, n);
    ClosingMeans(r, result, boundary, a, n);
    var cause := if result == Success then r.spawnFailure else r.spawnFailure.(cleanupResult := result);
    if r.phase.Releasing? {
    } else if r.terminalSpawnFailure {
      FailingHonest(r, r.phase, r.ticket, a, cause, h, false);
    } else if r.phase.CleanupResetting? {
      OutHonest(r, r.phase, r.ticket, a, if result == Success then r.despawnFailure
                                         else r.despawnFailure.(cleanupResult := result), h);
    } else {
      OutHonest(r, r.phase, r.ticket, a, if result == Success then r.despawnFailure else Failed(result), h);
    }
  }

  lemma CollectedHonest(r: Record, error: SpawnError, declarations: nat, a: Answers, n: nat)
    requires Shaped(r, n) && r.phase.Spawning? && Keyed(r) && n > 0
    ensures Honest(r, OnCollected(r, error, declarations, a, n), false)
  {
    hide OnCollected, FailingGoesOut, RefusedFor;
    var h := OnCollected(r, error, declarations, a, n);
    CollectedMoves(r, error, declarations, a, n);
    var cause := CollectedMeans(r, error, declarations, a, n);
    if Fails(r, r.ticket, a, cause, h) { FailingHonest(r, DetachingControllers, r.ticket, a, cause, h, false); }
  }

  lemma DespawnedHonest(r: Record, a: Answers, n: nat)
    requires Shaped(r, n) && r.phase.DespawningEntities? && n > 0
    ensures Honest(r, OnDespawned(r, a, n), true)
  {
    hide OnDespawned, FailingGoesOut, DespawningGoesOut;
    var h := OnDespawned(r, a, n);
    DespawnedMoves(r, a, n);
    DespawnedMeans(r, a, n);
    if r.terminalSpawnFailure {
      FailingHonest(r, DespawningEntities, r.ticket, a, r.spawnFailure, h, true);
    } else {
      OutHonest(r, DespawningEntities, r.ticket, a, r.despawnFailure, h);
    }
  }

  lemma DespawnHonest(r: Record, despawn: nat, a: Answers, n: nat)
    requires Shaped(r, n) && r.phase.Active? && Keyed(r) && despawn > 0 && n > 0
    ensures Honest(r.(despawnRequest := despawn), BeginDespawn(r, despawn, a, n), false)
  {
    hide BeginDespawn, DespawningGoesOut;
    var base, h := r.(despawnRequest := despawn), BeginDespawn(r, despawn, a, n);
    DespawnMoves(r, despawn, a, n);
    DespawnMeans(r, despawn, a, n);
    if !(r.controllersAttached && a.detach.Accepted?) {
      var refused := Failed(if a.detach.Refused? then a.detach.code else SceneNotFound);
      OutHonest(base, DetachingControllers, r.ticket, a,
                if r.controllersAttached then refused else r.despawnFailure, h);
    }
  }

  // ----- one event -----

  ghost predicate AllKeyed(w: Component) { forall id | id in w.instances :: Keyed(w.instances[id]) }

  /** Whoever is clear of its entities after the event was so before, or is what the event completes. */
  ghost predicate ClearedBy(w: Component, e: Event, id: nat, despawn: nat) {
    id in w.instances && w.instances[id].despawnRequest == despawn && (Clear(w.instances[id]) || Completes(w, e, id))
  }

  ghost predicate Progress(w: Component, e: Event, w': Component) {
    && AllKeyed(w') && w.notices <= w'.notices
    && (forall id | id in w'.instances && Clear(w'.instances[id]) ::
          ClearedBy(w, e, id, w'.instances[id].despawnRequest))
    && forall j | |w.notices| <= j < |w'.notices| && w'.notices[j].DespawnSucceeded? ::
         exists id :: ClearedBy(w, e, id, w'.notices[j].despawn)
  }

  lemma PutProgress(w: Component, e: Event, id: nat, base: Record, h: Handled, completed: bool, w': Component)
    requires id in w.instances && AllKeyed(w) && Honest(base, h, completed)
    requires Clear(base) || completed ==> base == w.instances[id]
    requires completed ==> Completes(w, e, id)
    requires w'.instances == Put(w, id, h).instances && w'.notices == w.notices + h.notices
    ensures Progress(w, e, w')
  {
    hide Clear, Completes, Keyed;
    forall i | i in w'.instances && i != id ensures i in w.instances && w'.instances[i] == w.instances[i] { }
    forall j | |w.notices| <= j < |w'.notices| && w'.notices[j].DespawnSucceeded?
      ensures exists i :: ClearedBy(w, e, i, w'.notices[j].despawn)
    {
      assert w'.notices[j] == h.notices[j - |w.notices|];
      assert ClearedBy(w, e, id, w'.notices[j].despawn);
    }
  }

  /** A failing spawn is nobody's despawn. */
  lemma FailsQuietly(r: Record, a: Answers, failure: SpawnFailure, h: Handled)
    requires Fails(r, NoTicket, a, failure, h)
    ensures h.record.Some? ==> Keyed(h.record.value) && !Clear(h.record.value)
    ensures forall j | 0 <= j < |h.notices| :: !h.notices[j].DespawnSucceeded?
  {
  }

  lemma SpawnProgress(w: Component, e: Event)
    requires AllKeyed(w) && e.Spawn?
    ensures Progress(w, e, Next(w, e))
  {
    hide Next, Fails;
    var w', id := Next(w, e), w.nextSpawn;
    var failure := SpawnRequestMeans(w, e);
    if e.gate == NoSpawnError && e.finite && e.sceneFound && e.reservation.Reserved? && !e.answers.reset.Accepted? {
      var r: Record, h: Handled :| r.request == id && r.lease == e.reservation.lease
        && Fails(r, NoTicket, e.answers, failure, h) && w'.notices == w.notices + h.notices
        && (id in w'.instances <==> h.record.Some?) && (h.record.Some? ==> w'.instances[id] == h.record.value);
      FailsQuietly(r, e.answers, failure, h);
    }
    hide Clear, Keyed;
    forall i | i in w'.instances && i != id ensures i in w.instances && w'.instances[i] == w.instances[i] { }
  }

  lemma RecordKnown(w: Component, id: nat)
    requires Sane(w) && AllKeyed(w) && id in w.instances
    ensures Shaped(w.instances[id], w.nextCommand) && Keyed(w.instances[id]) && w.nextCommand > 0 && w.nextDespawn > 0
  {
    hide Invariant;
    FirstIds(w);
    assert RecordFits(w, id);
  }

  lemma DespawnProgress(w: Component, e: Event)
    requires Sane(w) && AllKeyed(w) && e.Despawn?
    ensures Progress(w, e, Next(w, e))
  {
    hide Next, Put, BeginDespawn, Sane, Shaped, Keyed, Clear, Honest;
    DespawnRequestMeans(w, e);
    var w', d := Next(w, e), w.nextDespawn;
    if w'.instances == w.instances {
      forall id | id in w'.instances && Clear(w'.instances[id])
        ensures ClearedBy(w, e, id, w'.instances[id].despawnRequest) { }
    }
    if id :| id in w.instances && w.instances[id].lease == e.lease && w.instances[id].phase.Active?
             && w' == Put(w.(nextDespawn := d + 1), id, BeginDespawn(w.instances[id], d, e.answers, w.nextCommand)) {
      var r, h := w.instances[id], BeginDespawn(w.instances[id], d, e.answers, w.nextCommand);
      RecordKnown(w, id);
      DespawnHonest(r, d, e.answers, w.nextCommand);
      PutSame(w, w.(nextDespawn := d + 1), id, h);
      ActiveNotClear(r.(despawnRequest := d));
      PutProgress(w, e, id, r.(despawnRequest := d), h, false, w');
    }
  }

  lemma PutSame(w: Component, v: Component, id: nat, h: Handled)
    requires v.instances == w.instances && v.notices == w.notices
    ensures Put(v, id, h).instances == Put(w, id, h).instances && Put(v, id, h).notices == w.notices + h.notices
  {
  }

  lemma ActiveNotClear(r: Record)
    requires r.phase.Active?
    ensures !Clear(r)
  {
  }

  lemma Unmoved(w: Component, e: Event, w': Component)
    requires AllKeyed(w) && w'.instances == w.instances && w'.notices == w.notices
    ensures Progress(w, e, w')
  {
    hide Clear, Keyed;
  }

  lemma CompletionProgress(w: Component, e: Event)
    requires Sane(w) && AllKeyed(w) && (e.SpawnCompleted? || e.DespawnCompleted?)
    ensures Progress(w, e, Next(w, e))
  {
    hide Next, Put, OnCollected, OnDespawned, Sane, Shaped, Keyed, Clear, Honest, Progress;
    var w' := Next(w, e);
    if w' == w { Unmoved(w, e, w'); return; }
    match e
    case SpawnCompleted(generation, c, a) =>
      CompletionsReach(w, generation, c, 0, a);
      RecordKnown(w, c.request);
      CollectedHonest(w.instances[c.request], c.error, c.declarations, a, w.nextCommand);
      var h := OnCollected(w.instances[c.request], c.error, c.declarations, a, w.nextCommand);
      PutSame(w, w, c.request, h);
      PutProgress(w, e, c.request, w.instances[c.request], h, false, w');
    case DespawnCompleted(generation, id, ticketId, a) =>
      CompletionsReach(w, generation, Completion(id, 0, NoSpawnError, 0), ticketId, a);
      RecordKnown(w, id);
      DespawnedHonest(w.instances[id], a, w.nextCommand);
      var h := OnDespawned(w.instances[id], a, w.nextCommand);
      PutSame(w, w, id, h);
      PutProgress(w, e, id, w.instances[id], h, true, w');
  }

  lemma CommandProgress(w: Component, e: Event)
    requires Sane(w) && AllKeyed(w) && e.CommandCompleted?
    ensures Progress(w, e, Next(w, e))
  {
    hide Next, Put, OnCommand, Sane, Shaped, Keyed, Clear, Honest, Progress;
    var w', command, a := Next(w, e), e.command, e.answers;
    if id :| command != 0 && id in w.instances && w.instances[id].pending == command
             && w.instances[id].pendingType == e.commandType {
      ResultReaches(w, id, command, e.commandType, e.result, a);
      RecordKnown(w, id);
      var h := OnCommand(w.instances[id], e.result, w.callbacks[id].boundary, a, w.nextCommand);
      CommandHonest(w.instances[id], e.result, w.callbacks[id].boundary, a, w.nextCommand);
      PutSame(w, w, id, h);
      PutProgress(w, e, id, w.instances[id], h, false, w');
    } else {
      ResultIgnored(w, command, e.commandType, e.result, a);
      Unmoved(w, e, w');
    }
  }

  lemma NextProgress(w: Component, e: Event)
    requires Sane(w) && AllKeyed(w)
    ensures Progress(w, e, Next(w, e))
  {
    hide Sane, AllKeyed, Progress, OnSpawn, OnDespawn, OnSpawnCompleted, OnDespawnCompleted, OnCommandCompleted;
    match e
    case Spawn(_, _, _, _, _) => SpawnProgress(w, e);
    case Despawn(_, _, _, _) => DespawnProgress(w, e);
    case SpawnCompleted(_, _, _) => CompletionProgress(w, e);
    case DespawnCompleted(_, _, _, _) => CompletionProgress(w, e);
    case CommandCompleted(_, _, _, _) => CommandProgress(w, e);
    case _ => Unmoved(w, e, Next(w, e));
  }

  // ----- whole runs -----

  /** Before moment `i` the entities of the instance that despawn request `d` was for were despawned, and the component
      was told so under their ticket. */
  ghost predicate EntitiesGone(run: seq<Component>, events: seq<Event>, i: nat, d: nat) {
    exists k, id :: 0 <= k < i && k < |events| && k < |run|
      && Completes(run[k], events[k], id) && run[k].instances[id].despawnRequest == d
  }

  ghost predicate Told(run: seq<Component>, events: seq<Event>, i: nat)
    requires i < |run|
  {
    && AllKeyed(run[i])
    && (forall id | id in run[i].instances && Clear(run[i].instances[id]) ::
          EntitiesGone(run, events, i, run[i].instances[id].despawnRequest))
    && forall j | 0 <= j < |run[i].notices| && run[i].notices[j].DespawnSucceeded? ::
         EntitiesGone(run, events, i, run[i].notices[j].despawn)
  }

  lemma GoneLater(run: seq<Component>, events: seq<Event>, i: nat, d: nat)
    requires EntitiesGone(run, events, i, d)
    ensures EntitiesGone(run, events, i + 1, d)
  {
  }

  lemma ToldNext(run: seq<Component>, events: seq<Event>, i: nat)
    requires i < |events| && i + 1 < |run| && Told(run, events, i) && Progress(run[i], events[i], run[i + 1])
    ensures Told(run, events, i + 1)
  {
    hide Clear, Completes, Keyed, EntitiesGone;
    forall id, d | ClearedBy(run[i], events[i], id, d) ensures EntitiesGone(run, events, i + 1, d) {
      if Completes(run[i], events[i], id) {
        GoneNow(run, events, i, id);
      } else {
        GoneLater(run, events, i, d);
      }
    }
    var notices := run[i + 1].notices;
    forall j | 0 <= j < |notices| && notices[j].DespawnSucceeded?
      ensures EntitiesGone(run, events, i + 1, notices[j].despawn)
    {
      if j < |run[i].notices| {
        assert notices[j] == run[i].notices[j];
        GoneLater(run, events, i, run[i].notices[j].despawn);
      }
    }
  }

  lemma GoneNow(run: seq<Component>, events: seq<Event>, i: nat, id: nat)
    requires i < |events| && i < |run| && Completes(run[i], events[i], id)
    ensures EntitiesGone(run, events, i + 1, run[i].instances[id].despawnRequest)
  {
  }

  lemma {:induction false} RunTold(run: seq<Component>, events: seq<Event>, generation: nat, topologySize: nat, i: nat)
    requires IsRun(run, events) && run[0] == Start(generation, topologySize) && topologySize > 0 && i <= |events|
    ensures Told(run, events, i)
  {
    hide Next, Sane, Enabled, Told, Progress;
    if i == 0 {
      StartTold(run, events, generation, topologySize);
    } else {
      RunTold(run, events, generation, topologySize, i - 1);
      RunKeeps(run, events, generation, topologySize, i - 1);
      assert run[i - 1 + 1] == Next(run[i - 1], events[i - 1]);
      assert AllKeyed(run[i - 1]) by { ToldKeyed(run, events, i - 1); }
      NextProgress(run[i - 1], events[i - 1]);
      ToldNext(run, events, i - 1);
    }
  }

  lemma StartTold(run: seq<Component>, events: seq<Event>, generation: nat, topologySize: nat)
    requires |run| > 0 && run[0] == Start(generation, topologySize)
    ensures Told(run, events, 0)
  {
  }

  lemma ToldKeyed(run: seq<Component>, events: seq<Event>, i: nat)
    requires i < |run| && Told(run, events, i)
    ensures AllKeyed(run[i])
  {
  }

  /** Whenever an owner has been told that a despawn succeeded, the entities of its instance had been despawned before:
      their despawn was waited for and its completion came under their own ticket. */
  lemma SuccessDespawnsEntities(run: seq<Component>, events: seq<Event>, generation: nat, topologySize: nat, i: nat,
                                j: nat)
    requires IsRun(run, events) && run[0] == Start(generation, topologySize) && topologySize > 0 && i <= |events|
    requires j < |run[i].notices| && run[i].notices[j].DespawnSucceeded?
    ensures exists k, id :: 0 <= k < i
              && Completes(run[k], events[k], id)
              && run[k].instances[id].despawnRequest == run[i].notices[j].despawn
  {
    RunTold(run, events, generation, topologySize, i);
    assert EntitiesGone(run, events, i, run[i].notices[j].despawn);
  }
}
