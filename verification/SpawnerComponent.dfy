/** The spawner component as it runs: the handlers, with their chains of submissions, over mutable records. */
module SpawnerComponents {
  import opened Options
  import opened Spawners
  import Answered = SpawnerAnswers

  lemma PutTwice(w: Component, id: nat, r: Record, h: Handled)
    ensures Put(w.(instances := w.instances[id := r]), id, h) == Put(w, id, h)
  {
    assert w.instances[id := r] - {id} == w.instances - {id};
  }

  lemma FailedIsNotSpawning(r: Record, failure: SpawnFailure, a: Answers, n: nat)
    requires !r.phase.Spawning?
    ensures FailSpawn(r, failure, a, n).record.Some? ==> !FailSpawn(r, failure, a, n).record.value.phase.Spawning?
  {
  }

  lemma NotActive(r: Record, n: nat)
    requires Shaped(r, n) && r.pending != 0
    ensures !r.phase.Active? && !r.phase.Spawning? && !r.phase.DespawningEntities?
  {
  }

  lemma OnlyPlacingSpawns(r: Record, result: ResultCode, boundary: Boundary, a: Answers, n: nat)
    requires Shaped(r, n) && r.pending != 0 && (!r.phase.Placing? || result != Success)
    ensures var h := OnCommand(r, result, boundary, a, n);
      h.record.Some? ==> !h.record.value.phase.Spawning?
  {
    hide FailSpawn, Unbind, EntityDespawn, Release;
    var r' := r.(pending := 0);
    FailedIsNotSpawning(r', SceneFailure(result), a, n);
    FailedIsNotSpawning(r', ControllerFailure(result), a, n);
    FailedIsNotSpawning(r', SpawnFailure(SpawnCancelled, Success, Success), a, n);
    FailedIsNotSpawning(r', Refusal(a.place, SceneFailure), a, n);
    FailedIsNotSpawning(r'.(declarations := 0), Refusal(a.attach, ControllerFailure), a, n);
    if Rank(r.phase) < Rank(Active) {
      BackwardMoves(r, result, boundary, a, n);
    }
  }

  /** Only the entity spawn leads to the spawning phase; every other answer leaves the callbacks alone. */
  lemma PlainAnswer(w: Component, id: nat, result: ResultCode, a: Answers)
    requires id in w.instances && id in w.callbacks
    requires Shaped(w.instances[id], w.nextCommand) && w.instances[id].pending != 0
    requires !w.instances[id].phase.Placing? || result != Success
    ensures Answer1(w, id, result, a) ==
            Put(w, id, OnCommand(w.instances[id], result, w.callbacks[id].boundary, a, w.nextCommand))
  {
    hide OnCommand, Put, Shaped;
    OnlyPlacingSpawns(w.instances[id], result, w.callbacks[id].boundary, a, w.nextCommand);
  }

  /** What one answer does to a component: its record comes closer to its end, or goes and leaves one notice; success is
      told when the record becomes active; nobody else notices. */
  ghost predicate Moved(w: Component, id: nat, w': Component)
    requires id in w.instances
  {
    var r := w.instances[id];
    && (forall i | i in w.instances && i != id :: i in w'.instances && w'.instances[i] == w.instances[i])
    && (forall i | i in w'.instances && i != id :: i in w.instances)
    && if id in w'.instances then
         && Rank(w'.instances[id].phase) < Rank(r.phase) && w'.instances[id].request == r.request
         && w'.notices ==
            w.notices + if w'.instances[id].phase.Active? then [SpawnSucceeded(r.request, r.lease)] else []
       else
         && |w'.notices| == |w.notices| + 1 && w.notices <= w'.notices
         && var notice := w'.notices[|w.notices|];
         if Decided(r) then About(notice) == DespawnOf(r.despawnRequest)
         else notice.SpawnFailed? && notice.request == r.request
  }

  lemma PutMoves(w: Component, id: nat, h: Handled)
    requires id in w.instances && Moves(w.instances[id], h, w.nextCommand)
    ensures Moved(w, id, Put(w, id, h))
  {
  }

  lemma ClosingMoves(w: Component, id: nat, result: ResultCode, a: Answers, h: Handled)
    requires id in w.instances && Shaped(w.instances[id], w.nextCommand) && w.instances[id].pending != 0
    requires h == OnCommand(w.instances[id], result, Cancelable, a, w.nextCommand)
    ensures Moved(w, id, Put(w, id, h))
  {
    hide OnCommand;
    CommandMoves(w.instances[id], result, Cancelable, a, w.nextCommand);
    PutMoves(w, id, h);
  }

  lemma AnswerMoves(w: Component, id: nat, result: ResultCode, a: Answers)
    requires id in w.instances && id in w.callbacks
    requires Shaped(w.instances[id], w.nextCommand) && w.instances[id].pending != 0
    ensures Moved(w, id, Answer1(w, id, result, a))
  {
    hide OnCommand;
    CommandMoves(w.instances[id], result, w.callbacks[id].boundary, a, w.nextCommand);
  }

  /** The record as the handlers leave it, if they leave it. */
  function Left(instances: map<nat, Record>, id: nat): Handled {
    Handled(if id in instances then Some(instances[id]) else None, [], 0)
  }

  lemma ClosingGoesOut(w: Component, id: nat, result: ResultCode, a: Answers)
    requires id in w.instances && Shaped(w.instances[id], w.nextCommand) && w.instances[id].pending != 0
    requires Rank(w.instances[id].phase) < Rank(Active)
    ensures var r := w.instances[id];
      var h := OnCommand(r, result, Cancelable, a, w.nextCommand);
      Answered.GoesOut(r.phase, r.ticket, a, Left(Put(w, id, h).instances, id))
  {
    hide OnCommand;
    Answered.ClosingMeans(w.instances[id], result, Cancelable, a, w.nextCommand);
  }

  /** The record of `id`, or when it is gone the last notice, blames the command that came to `result`: it keeps the
      result, and a controller's failure goes by the name its owner knows. */
  ghost predicate Blames(instances: map<nat, Record>, notices: seq<Notice>, id: nat, controllers: bool,
                         result: ResultCode) {
    && (id !in instances ==> notices != [] && notices[|notices| - 1].SpawnFailed?)
    && var told := if id in instances then instances[id].spawnFailure else notices[|notices| - 1].failure;
    && told.sceneResult == result
    && if controllers then Answered.Names(told.error, result) else told.error == SceneCommandFailed
  }

  /** A failed command is what a spawn reports. */
  lemma OpeningBlames(w: Component, id: nat, result: ResultCode, a: Answers)
    requires id in w.instances && id in w.callbacks && result != Success
    requires Shaped(w.instances[id], w.nextCommand) && w.instances[id].pending != 0
    requires Rank(w.instances[id].phase) > Rank(Active)
    ensures var w' := Answer1(w, id, result, a);
      Blames(w'.instances, w'.notices, id, w.instances[id].phase.AttachingControllers?, result)
  {
    hide OnCommand;
    var cause := Answered.OpeningMeans(w.instances[id], result, w.callbacks[id].boundary, a, w.nextCommand);
  }

  class Spawner {
    const generation: nat
    const topologySize: nat
    var nextSpawnRequest: nat
    var nextDespawnRequest: nat
    var nextCommand: nat
    var instances: map<nat, Record>
    var callbacks: map<nat, Callback>
    var queued: set<Completion>
    var notices: seq<Notice>
    ghost var cancelled: set<nat>

    ghost function Value(): Component
      reads this
    {
      Component(generation, topologySize, nextSpawnRequest, nextDespawnRequest, nextCommand, instances, callbacks,
                queued, cancelled, notices)
    }

    constructor (generation: nat, topologySize: nat)
      ensures Value() == Start(generation, topologySize)
    {
      this.generation, this.topologySize := generation, topologySize;
      nextSpawnRequest, nextDespawnRequest, nextCommand := 1, 1, 1;
      instances, callbacks, queued, notices, cancelled := map[], map[], {}, [], {};
    }

    method Submit(id: nat, phase: Phase, commandType: CommandType)
      requires id in instances
      modifies this`instances, this`nextCommand
      ensures Value() == Put(old(Value()), id, Await(old(instances[id]), phase, commandType, old(nextCommand)))
    {
      assert notices + [] == notices;
      instances := instances[id := instances[id].(phase := phase, pending := nextCommand, pendingType := commandType)];
      nextCommand := nextCommand + 1;
    }

    method FinishRelease(id: nat, result: ResultCode)
      requires id in instances
      modifies this`instances, this`notices
      ensures Value() == Put(old(Value()), id,
            Handled(None, [FinalNotice(old(instances[id]), result)], old(nextCommand)))
      ensures var r := old(instances[id]);
        && id !in instances && |notices| == |old(notices)| + 1 && old(notices) <= notices
        && var notice := notices[|old(notices)|];
        && About(notice) == (if r.terminalSpawnFailure then SpawnOf(r.request) else DespawnOf(r.despawnRequest))
        && !notice.SpawnSucceeded?
        && (notice.DespawnSucceeded? <==>
              && !r.terminalSpawnFailure && result == Success
              && r.despawnFailure.error == NoDespawnError && r.despawnFailure.cleanupResult == Success)
    {
      var notice := FinalNotice(instances[id], result);
      instances := instances - {id};
      notices := notices + [notice];
    }

    method SubmitRelease(id: nat, a: Answers)
      requires id in instances
      modifies this`instances, this`notices, this`nextCommand
      ensures Value() == Put(old(Value()), id, Release(old(instances[id]), a, old(nextCommand)))
    {
      if !a.release.Accepted? {
        FinishRelease(id, Code(a.release));
        return;
      }
      Submit(id, Releasing, ReleaseSlot);
    }

    method SubmitCleanupReset(id: nat, a: Answers)
      requires id in instances
      modifies this`instances, this`notices, this`nextCommand
      ensures Value() == Put(old(Value()), id, CleanupReset(old(instances[id]), a, old(nextCommand)))
    {
      var r := instances[id];
      if !a.cleanup.Accepted? {
        var blamed := Blame(r, Code(a.cleanup), r.despawnFailure.(cleanupResult := Code(a.cleanup)));
        PutTwice(Value(), id, blamed, Release(blamed, a, nextCommand));
        instances := instances[id := blamed];
        SubmitRelease(id, a);
        return;
      }
      Submit(id, CleanupResetting, ResetSlot);
    }

    method BeginEntityDespawn(id: nat, a: Answers)
      requires id in instances
      modifies this`instances, this`notices, this`nextCommand
      ensures Value() == Put(old(Value()), id, EntityDespawn(old(instances[id]), a, old(nextCommand)))
    {
      var r := instances[id];
      if !r.ticket.ValidTicket? {
        SubmitCleanupReset(id, a);
        return;
      }
      if !a.despawnService {
        var failure := DespawnFailure(DespawnServiceUnavailable, Success, Success);
        var blamed := Blame(r, ConstructionFailed, failure).(ticket := NoTicket);
        PutTwice(Value(), id, blamed, CleanupReset(blamed, a, nextCommand));
        instances := instances[id := blamed];
        SubmitCleanupReset(id, a);
        return;
      }
      assert notices + [] == notices;
      instances := instances[id := r.(phase := DespawningEntities)];
    }

    method SubmitUnbind(id: nat, a: Answers)
      requires id in instances
      modifies this`instances, this`notices, this`nextCommand
      ensures Value() == Put(old(Value()), id, Unbind(old(instances[id]), a, old(nextCommand)))
    {
      var r := instances[id];
      if !a.unbind.Accepted? {
        var blamed := Blame(r, Code(a.unbind), CommandFailure(Code(a.unbind)));
        PutTwice(Value(), id, blamed, EntityDespawn(blamed, a, nextCommand));
        instances := instances[id := blamed];
        BeginEntityDespawn(id, a);
        return;
      }
      Submit(id, Unbinding, UnbindSlot);
    }

    method BeginSpawnFailure(id: nat, failure: SpawnFailure, a: Answers)
      requires id in instances
      modifies this`instances, this`notices, this`nextCommand
      ensures Value() == Put(old(Value()), id, FailSpawn(old(instances[id]), failure, a, old(nextCommand)))
    {
      var r := instances[id];
      if r.terminalSpawnFailure {
        assert notices + [] == notices && instances[id := r] == instances;
        return;
      }
      var failed := r.(terminalSpawnFailure := true, spawnFailure := failure);
      PutTwice(Value(), id, failed, Unbind(failed, a, nextCommand));
      instances := instances[id := failed];
      SubmitUnbind(id, a);
    }

    method SubmitReset(id: nat, a: Answers)
      requires id in instances
      modifies this`instances, this`notices, this`nextCommand
      ensures Value() == Put(old(Value()), id, Reset(old(instances[id]), a, old(nextCommand)))
    {
      if !a.reset.Accepted? {
        BeginSpawnFailure(id, Refusal(a.reset, SceneFailure), a);
        return;
      }
      Submit(id, Resetting, ResetSlot);
    }

    method SubmitPlace(id: nat, a: Answers)
      requires id in instances
      modifies this`instances, this`notices, this`nextCommand
      ensures Value() == Put(old(Value()), id, Place(old(instances[id]), a, old(nextCommand)))
    {
      if !a.place.Accepted? {
        BeginSpawnFailure(id, Refusal(a.place, SceneFailure), a);
        return;
      }
      Submit(id, Placing, PlaceSlot);
    }

    /** Starts the entity spawn; the callbacks learn the ticket. */
    method BeginEntitySpawn(id: nat, a: Answers)
      requires id in instances && id in callbacks && !instances[id].phase.Spawning?
      modifies this`instances, this`notices, this`nextCommand, this`callbacks
      ensures var h := EntitySpawn(old(instances[id]), old(callbacks[id].boundary), a, old(nextCommand));
        Value() == Ticketed(Put(old(Value()), id, h), id, h)
    {
      var r := instances[id];
      FailedIsNotSpawning(r, SpawnFailure(SpawnCancelled, Success, Success), a, nextCommand);
      FailedIsNotSpawning(r, SpawnFailure(SpawnServiceUnavailable, Success, Success), a, nextCommand);
      hide FailSpawn;
      if callbacks[id].boundary == Cancelled {
        BeginSpawnFailure(id, SpawnFailure(SpawnCancelled, Success, Success), a);
        return;
      }
      if !a.spawnService {
        BeginSpawnFailure(id, SpawnFailure(SpawnServiceUnavailable, Success, Success), a);
        return;
      }
      if a.ticket.None? {
        var unusable := r.(ticket := InvalidTicket);
        FailedIsNotSpawning(unusable, SpawnFailure(O3deSpawnFailed, Success, Success), a, nextCommand);
        PutTwice(Value(), id, unusable,
                 FailSpawn(unusable, SpawnFailure(O3deSpawnFailed, Success, Success), a, nextCommand));
        instances := instances[id := unusable];
        BeginSpawnFailure(id, SpawnFailure(O3deSpawnFailed, Success, Success), a);
        return;
      }
      assert notices + [] == notices;
      instances := instances[id := r.(ticket := ValidTicket(a.ticket.value), phase := Spawning)];
      callbacks := callbacks[id := callbacks[id].(ticket := a.ticket)];
    }

    method SubmitBind(id: nat, a: Answers)
      requires id in instances
      modifies this`instances, this`notices, this`nextCommand
      ensures Value() == Put(old(Value()), id, Bind(old(instances[id]), a, old(nextCommand)))
    {
      if !a.bind.Accepted? {
        BeginSpawnFailure(id, Refusal(a.bind, SceneFailure), a);
        return;
      }
      Submit(id, Binding, BindSlot);
    }

    method SubmitAttachControllers(id: nat, a: Answers)
      requires id in instances
      modifies this`instances, this`notices, this`nextCommand
      ensures Value() == Put(old(Value()), id, Attach(old(instances[id]), a, old(nextCommand)))
    {
      var handed := instances[id].(declarations := 0);
      PutTwice(Value(), id, handed, Attach(instances[id], a, nextCommand));
      instances := instances[id := handed];
      if !a.attach.Accepted? {
        BeginSpawnFailure(id, Refusal(a.attach, ControllerFailure), a);
        return;
      }
      Submit(id, AttachingControllers, AttachControllers);
    }

    method SubmitDetachControllers(id: nat, a: Answers)
      requires id in instances
      modifies this`instances, this`notices, this`nextCommand
      ensures Value() == Put(old(Value()), id, Detach(old(instances[id]), a, old(nextCommand)))
    {
      var r := instances[id];
      if a.detach.Accepted? {
        Submit(id, DetachingControllers, DetachControllers);
        return;
      }
      var failed := r.(despawnFailure := CommandFailure(Code(a.detach)));
      if a.detach.Refused? {
        failed := failed.(controllersAttached := false);
      }
      PutTwice(Value(), id, failed, Unbind(failed, a, nextCommand));
      instances := instances[id := failed];
      SubmitUnbind(id, a);
    }

    method Activated(id: nat)
      requires id in instances
      modifies this`instances, this`notices
      ensures Value() == Put(old(Value()), id, Spawned(old(instances[id]), nextCommand))
    {
      instances := instances[id := instances[id].(phase := Active)];
      notices := notices + [SpawnSucceeded(instances[id].request, instances[id].lease)];
    }

    method OnBound(id: nat, a: Answers)
      requires id in instances
      modifies this`instances, this`notices, this`nextCommand
      ensures Value() == Put(old(Value()), id, if old(instances[id]).declarations != 0
                                               then Attach(old(instances[id]), a, old(nextCommand))
                                               else Spawned(old(instances[id]), old(nextCommand)))
    {
      hide Attach, Put;
      if instances[id].declarations != 0 {
        SubmitAttachControllers(id, a);
      } else {
        Activated(id);
      }
    }

    method OnAttached(id: nat)
      requires id in instances
      modifies this`instances, this`notices
      ensures Value() == Put(old(Value()), id, Spawned(old(instances[id]).(controllersAttached := true), nextCommand))
    {
      var attached := instances[id].(controllersAttached := true);
      PutTwice(Value(), id, attached, Spawned(attached, nextCommand));
      instances := instances[id := attached];
      Activated(id);
    }

    /** A command result for a record on its way out. */
    method HandleClosing(id: nat, result: ResultCode, a: Answers)
      requires id in instances && Shaped(instances[id], nextCommand) && instances[id].pending != 0
      requires Rank(instances[id].phase) < Rank(Active)
      modifies this`instances, this`notices, this`nextCommand
      ensures forall boundary ::
        Value() == Put(old(Value()), id, OnCommand(old(instances[id]), result, boundary, a, old(nextCommand)))
      ensures Moved(old(Value()), id, Value())
      ensures Answered.GoesOut(old(instances[id].phase), old(instances[id].ticket), a, Left(instances, id))
    {
      ClosingGoesOut(Value(), id, result, a);
      hide Moved, Moves, Answered.GoesOut;
      ghost var before, h := Value(), OnCommand(instances[id], result, Cancelable, a, nextCommand);
      NotActive(instances[id], nextCommand);
      hide Unbind, EntityDespawn, Release, Put, Shaped, Blame, CommandFailure, FinalNotice, Expected;
      var r := instances[id].(pending := 0);
      match r.phase {
        case DetachingControllers =>
          r := r.(controllersAttached := false);
          if result != Success {
            r := r.(despawnFailure := CommandFailure(result));
          }
          PutTwice(before, id, r, h);
          instances := instances[id := r];
          SubmitUnbind(id, a);
        case Unbinding =>
          r := if result == Success then r else Blame(r, result, CommandFailure(result));
          PutTwice(before, id, r, h);
          instances := instances[id := r];
          BeginEntityDespawn(id, a);
        case CleanupResetting =>
          r := if result == Success then r else Blame(r, result, r.despawnFailure.(cleanupResult := result));
          PutTwice(before, id, r, h);
          instances := instances[id := r];
          SubmitRelease(id, a);
        case Releasing =>
          PutTwice(before, id, r, h);
          instances := instances[id := r];
          FinishRelease(id, result);
      }
      ClosingMoves(before, id, result, a, h);
    }

    /** A command result for a record on its way to the active phase. */
    method HandleOpening(id: nat, result: ResultCode, a: Answers)
      requires id in instances && id in callbacks
      requires Shaped(instances[id], nextCommand) && instances[id].pending != 0
      requires Rank(instances[id].phase) > Rank(Active)
      modifies this`instances, this`notices, this`nextCommand, this`callbacks
      ensures Value() == Answer1(old(Value()), id, result, a)
      ensures Moved(old(Value()), id, Value())
      ensures result != Success ==>
                Blames(instances, notices, id, old(instances[id].phase.AttachingControllers?), result)
    {
      AnswerMoves(Value(), id, result, a);
      if result != Success { OpeningBlames(Value(), id, result, a); }
      hide Moved, Blames;
      ghost var before, h := Value(), OnCommand(instances[id], result, callbacks[id].boundary, a, nextCommand);
      var r := instances[id].(pending := 0);
      if !r.phase.Placing? || result != Success {
        PlainAnswer(before, id, result, a);
        hide Answer1;
      }
      PutTwice(before, id, r, h);
      instances := instances[id := r];
      hide FailSpawn, Place, EntitySpawn, Attach, Spawned, Put, Ticketed, SceneFailure, ControllerFailure;
      match r.phase {
        case Resetting =>
          if result != Success {
            BeginSpawnFailure(id, SceneFailure(result), a);
          } else if callbacks[id].boundary == Cancelled {
            BeginSpawnFailure(id, SpawnFailure(SpawnCancelled, Success, Success), a);
          } else {
            SubmitPlace(id, a);
          }
        case Placing =>
          if result != Success {
            BeginSpawnFailure(id, SceneFailure(result), a);
          } else {
            BeginEntitySpawn(id, a);
          }
        case Binding =>
          if result != Success {
            BeginSpawnFailure(id, SceneFailure(result), a);
          } else {
            OnBound(id, a);
          }
        case AttachingControllers =>
          if result != Success {
            BeginSpawnFailure(id, ControllerFailure(result), a);
          } else {
            OnAttached(id);
          }
      }
    }

    method OnScenePolytreeCommandCompleted(command: nat, commandType: CommandType, result: ResultCode, a: Answers)
      requires Sane(Value()) && command != 0
      modifies this`instances, this`notices, this`nextCommand, this`callbacks
      ensures Value() == Next(old(Value()), CommandCompleted(command, commandType, result, a))
      ensures Sane(Value())
    {
      NextKeeps(Value(), CommandCompleted(command, commandType, result, a));
      hide Invariant, OnCommand, Put, Ticketed, Sane, Shaped;
      if id :| id in instances && instances[id].pending == command {
        assert Waits(Value(), id, command);
        ResultFindsRecord(Value(), id, command, commandType, result, a);
        hide OnCommandCompleted;
        if instances[id].pendingType == commandType {
          if Rank(instances[id].phase) > Rank(Active) {
            HandleOpening(id, result, a);
          } else {
            NotActive(instances[id], nextCommand);
            PlainAnswer(Value(), id, result, a);
            HandleClosing(id, result, a);
          }
        }
      }
    }

    method OnScenePolytreeSpawnCompleted(spawnerGeneration: nat, c: Completion, a: Answers)
      requires Sane(Value()) && c in queued
      modifies this`instances, this`notices, this`nextCommand
      ensures Value() == Next(old(Value()), SpawnCompleted(spawnerGeneration, c, a))
      ensures Sane(Value())
    {
      NextKeeps(Value(), SpawnCompleted(spawnerGeneration, c, a));
      hide Invariant, FailSpawn, Bind, Sane, Put;
      if spawnerGeneration != generation || c.request !in instances || !instances[c.request].phase.Spawning?
         || instances[c.request].ticket != ValidTicket(c.ticket) {
        return;
      }
      if c.error != NoSpawnError {
        BeginSpawnFailure(c.request, SpawnFailure(c.error, SpawnResult(c.error), Success), a);
        return;
      }
      var r := instances[c.request].(declarations := c.declarations);
      PutTwice(Value(), c.request, r, Bind(r, a, nextCommand));
      instances := instances[c.request := r];
      SubmitBind(c.request, a);
    }

    method OnScenePolytreeDespawnCompleted(spawnerGeneration: nat, request: nat, ticketId: nat, a: Answers)
      requires Sane(Value())
      modifies this`instances, this`notices, this`nextCommand
      ensures Value() == Next(old(Value()), DespawnCompleted(spawnerGeneration, request, ticketId, a))
      ensures Sane(Value())
    {
      NextKeeps(Value(), DespawnCompleted(spawnerGeneration, request, ticketId, a));
      hide Invariant, CleanupReset, Sane, Put;
      if spawnerGeneration != generation || request !in instances || !instances[request].phase.DespawningEntities?
         || instances[request].ticket != ValidTicket(ticketId) {
        return;
      }
      var r := instances[request].(ticket := NoTicket);
      PutTwice(Value(), request, r, CleanupReset(r, a, nextCommand));
      instances := instances[request := r];
      SubmitCleanupReset(request, a);
    }

    method RequestSpawn(gate: SpawnError, finite: bool, sceneFound: bool, reservation: Reservation, a: Answers)
      returns (request: nat)
      requires Sane(Value()) && Enabled(Value(), Spawn(gate, finite, sceneFound, reservation, a))
      modifies this
      ensures Value() == Next(old(Value()), Spawn(gate, finite, sceneFound, reservation, a))
      ensures Sane(Value()) && request == old(nextSpawnRequest)
    {
      ghost var e := Spawn(gate, finite, sceneFound, reservation, a);
      NextKeeps(Value(), e);
      hide Invariant, Reset, Sane, Enabled;
      request := nextSpawnRequest;
      nextSpawnRequest := nextSpawnRequest + 1;
      if gate != NoSpawnError {
        notices := notices + [SpawnFailed(request, SpawnFailure(gate, Success, Success))];
      } else if !finite {
        notices := notices + [SpawnFailed(request, SpawnFailure(InvalidPlacement, Success, Success))];
      } else if !sceneFound {
        notices := notices + [SpawnFailed(request, SpawnFailure(NotReady, Success, Success))];
      } else if reservation.NotReserved? {
        notices := notices + [SpawnFailed(request, ReservationFailure(reservation.code))];
      } else {
        var r := NewRecord(request, reservation.lease);
        callbacks := callbacks[request := Callback(Cancelable, NoSpawnError, 0, None)];
        PutTwice(Value(), request, r, Reset(r, a, nextCommand));
        instances := instances[request := r];
        SubmitReset(request, a);
      }
    }

    method RequestDespawn(closed: DespawnError, instanceGeneration: nat, lease: nat, a: Answers) returns (request: nat)
      requires Sane(Value())
      modifies this`instances, this`notices, this`nextCommand, this`nextDespawnRequest
      ensures Value() == Next(old(Value()), Despawn(closed, instanceGeneration, lease, a))
      ensures Sane(Value()) && request == old(nextDespawnRequest)
    {
      ghost var before, e := Value(), Despawn(closed, instanceGeneration, lease, a);
      NextKeeps(before, e);
      FirstIds(before);
      hide Invariant, Sane, Detach, Unbind, Put;
      request := nextDespawnRequest;
      nextDespawnRequest := nextDespawnRequest + 1;
      if closed != NoDespawnError {
        notices := notices + [DespawnFailed(request, lease, DespawnFailure(closed, Success, Success))];
        return;
      }
      if id :| instanceGeneration == generation && id in instances && instances[id].lease == lease {
        assert Leases(before, id, lease);
        ghost var found :| Leases(before, found, lease) && OnDespawn(before, e) == DespawnAt(before, found, e);
        assert found == id;
        if !instances[id].phase.Active? {
          notices := notices + [DespawnFailed(request, lease, DespawnFailure(InstanceNotActive, Success, Success))];
          return;
        }
        var r := instances[id].(terminalSpawnFailure := false, despawnRequest := request);
        PutTwice(Value(), id, r, BeginDespawn(instances[id], request, a, nextCommand));
        instances := instances[id := r];
        if r.controllersAttached {
          SubmitDetachControllers(id, a);
        } else {
          SubmitUnbind(id, a);
        }
      } else {
        assert instanceGeneration != generation || !exists id :: Leases(before, id, lease);
        notices := notices + [DespawnFailed(request, lease, DespawnFailure(StaleInstance, Success, Success))];
      }
    }

    /** Grants a cancellation only while the boundary can still be won, and the request then never succeeds. */
    method CancelSpawn(spawnerGeneration: nat, request: nat) returns (granted: bool)
      requires Sane(Value())
      modifies this`callbacks, this`cancelled
      ensures granted == Cancels(old(Value()), spawnerGeneration, request)
      ensures Value() == Next(old(Value()), Cancel(spawnerGeneration, request))
      ensures Sane(Value()) && (granted ==> !Succeeded(notices, request))
    {
      NextKeeps(Value(), Cancel(spawnerGeneration, request));
      if spawnerGeneration != generation || request !in instances || request !in callbacks
         || instances[request].phase.Active? || instances[request].terminalSpawnFailure {
        return false;
      }
      granted := callbacks[request].boundary == Cancelable;
      if granted {
        callbacks := callbacks[request := callbacks[request].(boundary := Cancelled)];
        cancelled := cancelled + {request};
      }
    }

    /** The pre-insertion callback: wins the boundary or does nothing. */
    method PreparePrefabInstance(request: nat, problem: SpawnError)
      requires Sane(Value()) && request in callbacks && callbacks[request].ticket.Some?
      modifies this`callbacks
      ensures Value() == Next(old(Value()), Prepare(request, problem)) && Sane(Value())
    {
      NextKeeps(Value(), Prepare(request, problem));
      var state := callbacks[request];
      if state.boundary != Cancelable {
        return;
      }
      state := state.(boundary := Committed);
      if problem != NoSpawnError {
        if state.error == NoSpawnError {
          state := state.(error := problem);
        }
      } else {
        state := state.(prepared := topologySize);
      }
      callbacks := callbacks[request := state];
    }

    /** The completion callback: reads the boundary, the preparation error and the prepared hierarchy, and queues
        the result. */
    method CollectPrefabBindings(request: nat, entities: bool, problem: SpawnError, declarations: nat)
      requires Sane(Value()) && request in callbacks && callbacks[request].ticket.Some?
      modifies this`queued
      ensures Value() == Next(old(Value()), Collect(request, entities, problem, declarations)) && Sane(Value())
    {
      NextKeeps(Value(), Collect(request, entities, problem, declarations));
      hide Sane;
      var state := callbacks[request];
      var error := problem;
      if state.boundary == Cancelled {
        error := SpawnCancelled;
      } else if state.error != NoSpawnError {
        error := state.error;
      } else if !entities {
        error := O3deSpawnFailed;
      } else if state.prepared != topologySize {
        error := HierarchyMismatch;
      }
      queued := queued + {Completion(request, state.ticket.value, error,
                                     if error == NoSpawnError then declarations else 0)};
    }
  }
}
