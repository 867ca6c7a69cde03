/** Where an answer takes a spawner record and what its owner is told, phase by phase, without the handlers. */
module SpawnerAnswers {
  import opened Options
  import opened Spawners

  // ----- the way out -----

  /** Whether a record on its way out can wait at `stop`: the submission is accepted, or there are entities to despawn
      and somebody to do it. */
  predicate Open(stop: Phase, ticket: Ticket, a: Answers) {
    match stop
    case Unbinding => a.unbind.Accepted?
    case DespawningEntities => ticket.ValidTicket? && a.despawnService
    case CleanupResetting => a.cleanup.Accepted?
    case Releasing => a.release.Accepted?
    case _ => false
  }

  /** The way out from `top` leads to the first stop below it that is open, and with none open to the end. No stop is
      skipped: until the entities are despawned the record keeps its ticket. */
  ghost predicate GoesOut(top: Phase, ticket: Ticket, a: Answers, h: Handled) {
    match h.record
    case Some(r) =>
      && Rank(r.phase) < Rank(top) && Open(r.phase, ticket, a)
      && (forall stop: Phase | Rank(r.phase) < Rank(stop) < Rank(top) :: !Open(stop, ticket, a))
      && (r.phase.Unbinding? || r.phase.DespawningEntities? ==> r.ticket == ticket)
    case None => forall stop: Phase | Rank(stop) < Rank(top) :: !Open(stop, ticket, a)
  }

  /** On the way out from `top` the record has come past `stop` without waiting there. */
  predicate Passed(stop: Phase, top: Phase, h: Handled) {
    Rank(stop) < Rank(top) && (h.record.Some? ==> Rank(h.record.value.phase) < Rank(stop))
  }

  /** What a submission that is not accepted comes to. */
  ghost predicate ComesTo(answer: Answer, code: ResultCode) {
    if answer.Refused? then code == answer.code else code == SceneNotFound
  }

  /** The cleanup result of a failed spawn: the last trouble on the way out, and `before` without trouble. */
  ghost predicate CleanupIs(top: Phase, ticket: Ticket, a: Answers, before: ResultCode, h: Handled, told: ResultCode) {
    if Passed(Releasing, top, h) && !ComesTo(a.release, Success) then ComesTo(a.release, told)
    else if Passed(CleanupResetting, top, h) then ComesTo(a.cleanup, told)
    else if Passed(DespawningEntities, top, h) && ticket.ValidTicket? then told == ConstructionFailed
    else if Passed(Unbinding, top, h) then ComesTo(a.unbind, told)
    else told == before
  }

  /** A failed spawn on its way out keeps its cause, and reports it once, at the end. */
  ghost predicate FailingGoesOut(r: Record, top: Phase, ticket: Ticket, a: Answers, cause: SpawnFailure, h: Handled) {
    && GoesOut(top, ticket, a, h)
    && match h.record
       case Some(r') =>
         && h.notices == [] && r'.terminalSpawnFailure
         && r'.spawnFailure.error == cause.error && r'.spawnFailure.sceneResult == cause.sceneResult
         && CleanupIs(top, ticket, a, cause.cleanupResult, h, r'.spawnFailure.cleanupResult)
       case None =>
         && |h.notices| == 1 && h.notices[0].SpawnFailed? && h.notices[0].request == r.request
         && var told := h.notices[0].failure;
         && told.error == cause.error && told.sceneResult == cause.sceneResult
         && CleanupIs(top, ticket, a, cause.cleanupResult, h, told.cleanupResult)
  }

  /** What a despawn has to report when the way out is behind it: the last failed command, or the missing service, with
      the last failed cleanup. */
  ghost predicate TroubleIs(top: Phase, ticket: Ticket, a: Answers, before: DespawnFailure, h: Handled,
                            told: DespawnFailure) {
    var missed, refused := Passed(DespawningEntities, top, h) && ticket.ValidTicket?, Passed(Unbinding, top, h);
    && (missed ==> told.error == DespawnServiceUnavailable && told.sceneResult == Success)
    && (!missed && refused ==> told.error == DespawnCommandFailed && ComesTo(a.unbind, told.sceneResult))
    && (!missed && !refused ==> told.error == before.error && told.sceneResult == before.sceneResult)
    && if Passed(Releasing, top, h) && !ComesTo(a.release, Success) then ComesTo(a.release, told.cleanupResult)
       else if Passed(CleanupResetting, top, h) then ComesTo(a.cleanup, told.cleanupResult)
       else if missed then told.cleanupResult == Success
       else if refused then ComesTo(a.unbind, told.cleanupResult)
       else told.cleanupResult == before.cleanupResult
  }

  /** The notice that a despawn with the trouble `t` ends in: success exactly without trouble. */
  ghost predicate Reports(notice: Notice, r: Record, t: DespawnFailure) {
    if t.error == NoDespawnError && t.cleanupResult == Success then
      notice == DespawnSucceeded(r.despawnRequest, r.lease)
    else
      && notice.DespawnFailed? && notice.despawn == r.despawnRequest && notice.lease == r.lease
      && notice.cause.error == (if t.error == NoDespawnError then CleanupFailed else t.error)
      && notice.cause.sceneResult == t.sceneResult && notice.cause.cleanupResult == t.cleanupResult
  }

  /** A despawn on its way out notes what goes wrong, and reports it once, at the end. */
  ghost predicate DespawningGoesOut(r: Record, top: Phase, ticket: Ticket, a: Answers, before: DespawnFailure,
                                    h: Handled)
  {
    && GoesOut(top, ticket, a, h)
    && match h.record
       case Some(r') =>
         h.notices == [] && !r'.terminalSpawnFailure && TroubleIs(top, ticket, a, before, h, r'.despawnFailure)
       case None => exists t: DespawnFailure ::
         TroubleIs(top, ticket, a, before, h, t) && |h.notices| == 1 && Reports(h.notices[0], r, t)
  }

  // ----- the handlers follow it -----

  lemma CodeComes(answer: Answer)
    ensures forall code :: !answer.Accepted? ==> (ComesTo(answer, code) <==> code == Code(answer))
  {
  }

  lemma ReleaseOut(r: Record, a: Answers, n: nat)
    ensures var h := Release(r, a, n);
      if r.terminalSpawnFailure then FailingGoesOut(r, CleanupResetting, r.ticket, a, r.spawnFailure, h)
      else DespawningGoesOut(r, CleanupResetting, r.ticket, a, r.despawnFailure, h)
  {
    if !r.terminalSpawnFailure && !a.release.Accepted? {
      var told := if Code(a.release) == Success then r.despawnFailure
                  else r.despawnFailure.(cleanupResult := Code(a.release));
      assert TroubleIs(CleanupResetting, r.ticket, a, r.despawnFailure, Release(r, a, n), told);
    }
  }

  lemma CleanupOut(r: Record, a: Answers, n: nat)
    ensures var h := CleanupReset(r, a, n);
      if r.terminalSpawnFailure then FailingGoesOut(r, DespawningEntities, r.ticket, a, r.spawnFailure, h)
      else DespawningGoesOut(r, DespawningEntities, r.ticket, a, r.despawnFailure, h)
  {
    if !a.cleanup.Accepted? {
      hide Release;
      var blamed := Blame(r, Code(a.cleanup), r.despawnFailure.(cleanupResult := Code(a.cleanup)));
      var h := Release(blamed, a, n);
      ReleaseOut(blamed, a, n);
      if !r.terminalSpawnFailure && h.record.None? {
        var t :| TroubleIs(CleanupResetting, r.ticket, a, blamed.despawnFailure, h, t) && |h.notices| == 1
          && Reports(h.notices[0], blamed, t);
        assert TroubleIs(DespawningEntities, r.ticket, a, r.despawnFailure, h, t);
      }
    }
  }

  lemma EntityDespawnOut(r: Record, a: Answers, n: nat)
    ensures var h := EntityDespawn(r, a, n);
      if r.terminalSpawnFailure then FailingGoesOut(r, Unbinding, r.ticket, a, r.spawnFailure, h)
      else DespawningGoesOut(r, Unbinding, r.ticket, a, r.despawnFailure, h)
  {
    if !r.ticket.ValidTicket? || !a.despawnService {
      hide CleanupReset;
      var missed := DespawnFailure(DespawnServiceUnavailable, Success, Success);
      var next := if r.ticket.ValidTicket? then Blame(r, ConstructionFailed, missed).(ticket := NoTicket) else r;
      var h := CleanupReset(next, a, n);
      CleanupOut(next, a, n);
      if !r.terminalSpawnFailure && h.record.None? {
        var t :| TroubleIs(DespawningEntities, next.ticket, a, next.despawnFailure, h, t) && |h.notices| == 1
          && Reports(h.notices[0], next, t);
        assert TroubleIs(Unbinding, r.ticket, a, r.despawnFailure, h, t);
      }
    }
  }

  lemma FailingPastUnbind(r: Record, a: Answers, code: ResultCode, h: Handled)
    requires !a.unbind.Accepted? && ComesTo(a.unbind, code)
    requires FailingGoesOut(r, Unbinding, r.ticket, a, r.spawnFailure.(cleanupResult := code), h)
    ensures FailingGoesOut(r, DetachingControllers, r.ticket, a, r.spawnFailure, h)
  {
  }

  lemma DespawningPastUnbind(r: Record, a: Answers, code: ResultCode, h: Handled)
    requires !a.unbind.Accepted? && ComesTo(a.unbind, code)
    requires DespawningGoesOut(r, Unbinding, r.ticket, a, CommandFailure(code), h)
    ensures DespawningGoesOut(r, DetachingControllers, r.ticket, a, r.despawnFailure, h)
  {
    if h.record.None? {
      var t :| TroubleIs(Unbinding, r.ticket, a, CommandFailure(code), h, t) && |h.notices| == 1
        && Reports(h.notices[0], r, t);
      assert TroubleIs(DetachingControllers, r.ticket, a, r.despawnFailure, h, t);
    }
  }

  lemma UnbindOut(r: Record, a: Answers, n: nat)
    ensures var h := Unbind(r, a, n);
      if r.terminalSpawnFailure then FailingGoesOut(r, DetachingControllers, r.ticket, a, r.spawnFailure, h)
      else DespawningGoesOut(r, DetachingControllers, r.ticket, a, r.despawnFailure, h)
  {
    if !a.unbind.Accepted? {
      hide EntityDespawn, Code, FailingGoesOut, DespawningGoesOut, CommandFailure;
      CodeComes(a.unbind);
      var code := Code(a.unbind);
      var blamed := Blame(r, code, CommandFailure(code));
      var h := EntityDespawn(blamed, a, n);
      EntityDespawnOut(blamed, a, n);
      if r.terminalSpawnFailure {
        SameFailure(blamed, r, Unbinding, r.ticket, a, blamed.spawnFailure, h);
        FailingPastUnbind(r, a, code, h);
      } else {
        SameDespawn(blamed, r, Unbinding, r.ticket, a, blamed.despawnFailure, h);
        DespawningPastUnbind(r, a, code, h);
      }
    }
  }

  /** What the failure of a backward command is recorded as. */
  function Failed(result: ResultCode): DespawnFailure { DespawnFailure(DespawnCommandFailed, result, result) }

  /** A command result for a record on its way out. From the controllers' detachment it goes on below it, to the
      unbinding first; from the unbinding to the despawn of its entities; from the cleanup to the release; from there
      it is gone. A failed command is reported and stops nothing. */
  lemma ClosingMeans(r: Record, result: ResultCode, boundary: Boundary, a: Answers, n: nat)
    requires Shaped(r, n) && r.pending != 0 && Rank(r.phase) < Rank(Active)
    ensures var h := OnCommand(r, result, boundary, a, n);
      var cause := if result == Success then r.spawnFailure else r.spawnFailure.(cleanupResult := result);
      match r.phase
      case DetachingControllers =>
        && DespawningGoesOut(r, DetachingControllers, r.ticket, a,
                             if result == Success then r.despawnFailure else Failed(result), h)
        && (h.record.Some? ==> !h.record.value.controllersAttached)
      case Unbinding =>
        if r.terminalSpawnFailure then FailingGoesOut(r, Unbinding, r.ticket, a, cause, h)
        else DespawningGoesOut(r, Unbinding, r.ticket, a,
                               if result == Success then r.despawnFailure else Failed(result), h)
      case CleanupResetting =>
        if r.terminalSpawnFailure then FailingGoesOut(r, CleanupResetting, r.ticket, a, cause, h)
        else DespawningGoesOut(r, CleanupResetting, r.ticket, a,
                               if result == Success then r.despawnFailure
                               else r.despawnFailure.(cleanupResult := result), h)
      case Releasing =>
        && h.record.None? && |h.notices| == 1
        && if r.terminalSpawnFailure then h.notices == [SpawnFailed(r.request, cause)]
           else Reports(h.notices[0], r, if result == Success then r.despawnFailure
                                         else r.despawnFailure.(cleanupResult := result))
  {
    hide DespawningGoesOut, FailingGoesOut, Unbind, EntityDespawn, Release;
    var r' := r.(pending := 0);
    match r.phase
    case DetachingControllers =>
      var detached := r'.(controllersAttached := false);
      var next := if result == Success then detached else detached.(despawnFailure := CommandFailure(result));
      UnbindOut(next, a, n);
      UnbindKeepsControllers(next, a, n);
      SameDespawn(next, r, DetachingControllers, r.ticket, a, next.despawnFailure, Unbind(next, a, n));
    case Unbinding =>
      var next := if result == Success then r' else Blame(r', result, CommandFailure(result));
      EntityDespawnOut(next, a, n);
      if !r.terminalSpawnFailure {
        SameDespawn(next, r, Unbinding, r.ticket, a, next.despawnFailure, EntityDespawn(next, a, n));
      } else {
        SameFailure(next, r, Unbinding, r.ticket, a, next.spawnFailure, EntityDespawn(next, a, n));
      }
    case CleanupResetting =>
      var next := if result == Success then r' else Blame(r', result, r'.despawnFailure.(cleanupResult := result));
      ReleaseOut(next, a, n);
      if !r.terminalSpawnFailure {
        SameDespawn(next, r, CleanupResetting, r.ticket, a, next.despawnFailure, Release(next, a, n));
      } else {
        SameFailure(next, r, CleanupResetting, r.ticket, a, next.spawnFailure, Release(next, a, n));
      }
    case Releasing =>
  }

  lemma SameFailure(r: Record, base: Record, top: Phase, ticket: Ticket, a: Answers, cause: SpawnFailure, h: Handled)
    requires FailingGoesOut(r, top, ticket, a, cause, h) && r.request == base.request
    ensures FailingGoesOut(base, top, ticket, a, cause, h)
  {
  }

  /** Whose record it is decides what a despawn reports about. */
  lemma SameDespawn(r: Record, base: Record, top: Phase, ticket: Ticket, a: Answers, before: DespawnFailure, h: Handled)
    requires DespawningGoesOut(r, top, ticket, a, before, h)
    requires r.despawnRequest == base.despawnRequest && r.lease == base.lease
    ensures DespawningGoesOut(base, top, ticket, a, before, h)
  {
    if h.record.None? {
      var t :| TroubleIs(top, ticket, a, before, h, t) && |h.notices| == 1 && Reports(h.notices[0], r, t);
      assert Reports(h.notices[0], base, t);
    }
  }

  lemma UnbindKeepsControllers(r: Record, a: Answers, n: nat)
    ensures Unbind(r, a, n).record.Some? ==>
              Unbind(r, a, n).record.value.controllersAttached == r.controllersAttached
  {
  }

  /** The entities of a despawned or failed instance are gone: the cleanup follows, without their ticket. */
  lemma DespawnedMeans(r: Record, a: Answers, n: nat)
    requires Shaped(r, n) && r.phase.DespawningEntities?
    ensures var h := OnDespawned(r, a, n);
      && (if r.terminalSpawnFailure then FailingGoesOut(r, DespawningEntities, r.ticket, a, r.spawnFailure, h)
          else DespawningGoesOut(r, DespawningEntities, r.ticket, a, r.despawnFailure, h))
      && (h.record.Some? ==> h.record.value.ticket.NoTicket?)
  {
    var next := r.(ticket := NoTicket);
    CleanupOut(next, a, n);
    if r.terminalSpawnFailure {
      SameFailing(next, r, a, CleanupReset(next, a, n));
    } else {
      TicketSpent(next, r, a, CleanupReset(next, a, n));
      SameDespawn(next, r, DespawningEntities, r.ticket, a, r.despawnFailure, CleanupReset(next, a, n));
    }
  }

  /** Below the despawn of the entities the ticket no longer matters. */
  lemma SameFailing(r: Record, base: Record, a: Answers, h: Handled)
    requires FailingGoesOut(r, DespawningEntities, r.ticket, a, base.spawnFailure, h) && r.request == base.request
    ensures FailingGoesOut(base, DespawningEntities, base.ticket, a, base.spawnFailure, h)
  {
  }

  lemma TicketSpent(r: Record, base: Record, a: Answers, h: Handled)
    requires DespawningGoesOut(r, DespawningEntities, r.ticket, a, base.despawnFailure, h)
    ensures DespawningGoesOut(r, DespawningEntities, base.ticket, a, base.despawnFailure, h)
  {
    if h.record.None? {
      var t :| TroubleIs(DespawningEntities, r.ticket, a, base.despawnFailure, h, t) && |h.notices| == 1
        && Reports(h.notices[0], r, t);
      assert TroubleIs(DespawningEntities, base.ticket, a, base.despawnFailure, h, t);
    }
  }

  /** An accepted despawn request first has the controllers detached, if there are any and the detachment is accepted;
      otherwise the record goes on to the unbinding at once. */
  lemma DespawnMeans(r: Record, despawn: nat, a: Answers, n: nat)
    requires Shaped(r, n) && r.phase.Active?
    ensures var h, base := BeginDespawn(r, despawn, a, n), r.(despawnRequest := despawn);
      if r.controllersAttached && a.detach.Accepted? then
        h == Handled(Some(base.(phase := DetachingControllers, pending := n, pendingType := DetachControllers,
                                terminalSpawnFailure := false)), [], n + 1)
      else
        var refused := Failed(if a.detach.Refused? then a.detach.code else SceneNotFound);
        && DespawningGoesOut(base, DetachingControllers, r.ticket, a,
                             if r.controllersAttached then refused else r.despawnFailure, h)
        && (a.detach.Refused? && h.record.Some? ==> !h.record.value.controllersAttached)
  {
    if !(r.controllersAttached && a.detach.Accepted?) {
      var base, code := r.(despawnRequest := despawn), Code(a.detach);
      var next := base.(terminalSpawnFailure := false);
      if r.controllersAttached {
        next := next.(despawnFailure := CommandFailure(code));
        if a.detach.Refused? { next := next.(controllersAttached := false); }
      }
      UnbindOut(next, a, n);
      UnbindKeepsControllers(next, a, n);
      hide Unbind;
      assert BeginDespawn(r, despawn, a, n) == Unbind(next, a, n);
      SameDespawn(next, base, DetachingControllers, r.ticket, a, next.despawnFailure, Unbind(next, a, n));
    }
  }

  // ----- the way forward -----

  /** How a controller's failure is named to the owner; any other result is a failed command. */
  ghost predicate Names(error: SpawnError, result: ResultCode) {
    && (error == ControllerFactoryNotFound <==> result == ControllerFactoryMissing)
    && (error == InvalidControllerConfiguration <==> result == ControllerBadConfiguration)
    && (error == ControllerTargetNotFound <==> result == ControllerTargetMissing)
    && (error == CrossInstanceControllerTarget <==> result == ControllerTargetOutside)
    && (error == ControllerWriteConflict <==> result == ControllerWriteConflictCode)
    && (error == ControllerConstructionFailed <==> result == ControllerConstruction)
    && (error == SceneCommandFailed || error == ControllerFactoryNotFound || error == InvalidControllerConfiguration
        || error == ControllerTargetNotFound || error == CrossInstanceControllerTarget
        || error == ControllerWriteConflict || error == ControllerConstructionFailed)
  }

  /** The cause of a spawn that a refused submission ends. */
  ghost predicate RefusedFor(answer: Answer, controllers: bool, cause: SpawnFailure) {
    && cause.cleanupResult == Success
    && match answer
       case Refused(code) =>
         && cause.sceneResult == code
         && if controllers then Names(cause.error, code) else cause.error == SceneCommandFailed
       case _ => cause.error == NotReady && cause.sceneResult == Success
  }

  /** The cause of a spawn that a failed command ends. */
  ghost predicate FailedFor(result: ResultCode, controllers: bool, cause: SpawnFailure) {
    && cause.cleanupResult == Success && cause.sceneResult == result
    && if controllers then Names(cause.error, result) else cause.error == SceneCommandFailed
  }

  /** The spawn has failed for `cause`, and the record goes on to the unbinding. */
  ghost predicate Fails(r: Record, ticket: Ticket, a: Answers, cause: SpawnFailure, h: Handled) {
    FailingGoesOut(r, DetachingControllers, ticket, a, cause, h)
  }

  ghost predicate WaitsIn(r: Record, h: Handled, n: nat, phase: Phase, command: CommandType) {
    && h.record.Some? && h.notices == [] && h.nextCommand == n + 1 && h.record.value.ticket == r.ticket
    && h.record.value.phase == phase && h.record.value.pending == n && h.record.value.pendingType == command
    && !h.record.value.terminalSpawnFailure
  }

  ghost predicate Succeeds(r: Record, h: Handled) {
    && h.record.Some? && h.record.value.phase.Active? && h.record.value.ticket == r.ticket
    && h.notices == [SpawnSucceeded(r.request, r.lease)]
  }

  lemma FailOut(r: Record, base: Record, failure: SpawnFailure, a: Answers, n: nat)
    requires !r.terminalSpawnFailure && r.request == base.request
    ensures Fails(base, r.ticket, a, failure, FailSpawn(r, failure, a, n))
  {
    hide Unbind;
    UnbindOut(r.(terminalSpawnFailure := true, spawnFailure := failure), a, n);
  }

  lemma ControllerNamed(result: ResultCode)
    ensures FailedFor(result, true, ControllerFailure(result)) && FailedFor(result, false, SceneFailure(result))
    ensures forall answer: Answer ::
              && (!answer.Accepted? ==> RefusedFor(answer, false, Refusal(answer, SceneFailure)))
              && (!answer.Accepted? ==> RefusedFor(answer, true, Refusal(answer, ControllerFailure)))
  {
  }

  /** A command result for a record on its way to the active phase. A failed command ends the spawn, and so does a
      cancellation that is seen after the reset or the placement; otherwise the next step is taken, unless its
      submission is refused. */
  lemma OpeningMeans(r: Record, result: ResultCode, boundary: Boundary, a: Answers, n: nat)
    returns (cause: SpawnFailure)
    requires Shaped(r, n) && r.pending != 0 && Rank(r.phase) > Rank(Active)
    ensures var h := OnCommand(r, result, boundary, a, n);
      if result != Success then
        FailedFor(result, r.phase.AttachingControllers?, cause) && Fails(r, r.ticket, a, cause, h)
      else match r.phase
      case Resetting =>
        if boundary == Cancelled then
          cause == SpawnFailure(SpawnCancelled, Success, Success) && Fails(r, r.ticket, a, cause, h)
        else if a.place.Accepted? then WaitsIn(r, h, n, Placing, PlaceSlot)
        else RefusedFor(a.place, false, cause) && Fails(r, r.ticket, a, cause, h)
      case Placing =>
        if boundary == Cancelled then
          cause == SpawnFailure(SpawnCancelled, Success, Success) && Fails(r, r.ticket, a, cause, h)
        else if !a.spawnService then
          cause == SpawnFailure(SpawnServiceUnavailable, Success, Success) && Fails(r, r.ticket, a, cause, h)
        else if a.ticket.None? then
          cause == SpawnFailure(O3deSpawnFailed, Success, Success) && Fails(r, InvalidTicket, a, cause, h)
        else
          && h.record.Some? && h.notices == [] && h.record.value.phase.Spawning?
          && h.record.value.ticket == ValidTicket(a.ticket.value) && !h.record.value.terminalSpawnFailure
      case Binding =>
        if r.declarations == 0 then Succeeds(r, h)
        else if a.attach.Accepted? then WaitsIn(r, h, n, AttachingControllers, AttachControllers)
        else RefusedFor(a.attach, true, cause) && Fails(r, r.ticket, a, cause, h)
      case AttachingControllers => Succeeds(r, h) && h.record.value.controllersAttached
  {
    hide Unbind, FailSpawn, Fails, Names, FailedFor, RefusedFor, ControllerFailure, SceneFailure, Refusal, Shaped;
    NotResting(r, n);
    ControllerNamed(result);
    var r', cancelled := r.(pending := 0), SpawnFailure(SpawnCancelled, Success, Success);
    cause := cancelled;
    if result != Success {
      cause := if r.phase.AttachingControllers? then ControllerFailure(result) else SceneFailure(result);
      FailOut(r', r, cause, a, n);
    } else if (r.phase.Resetting? || r.phase.Placing?) && boundary == Cancelled {
      FailOut(r', r, cause, a, n);
    } else if r.phase.Resetting? {
      cause := Refusal(a.place, SceneFailure);
      FailOut(r', r, cause, a, n);
    } else if r.phase.Placing? {
      cause := SpawnFailure(if !a.spawnService then SpawnServiceUnavailable else O3deSpawnFailed, Success, Success);
      FailOut(r', r, cause, a, n);
      FailOut(r'.(ticket := InvalidTicket), r, cause, a, n);
    } else if r.phase.Binding? && r.declarations != 0 {
      cause := Refusal(a.attach, ControllerFailure);
      FailOut(r'.(declarations := 0), r, cause, a, n);
    }
  }

  lemma NotResting(r: Record, n: nat)
    requires Shaped(r, n) && r.pending != 0 && Rank(r.phase) > Rank(Active)
    ensures !r.terminalSpawnFailure && !r.phase.Spawning?
  {
  }

  /** A completed entity spawn: an error ends the spawn, otherwise the entities are bound. */
  lemma CollectedMeans(r: Record, error: SpawnError, declarations: nat, a: Answers, n: nat)
    returns (cause: SpawnFailure)
    requires Shaped(r, n) && r.phase.Spawning?
    ensures var h := OnCollected(r, error, declarations, a, n);
      if error != NoSpawnError then
        && cause.error == error && cause.cleanupResult == Success && Fails(r, r.ticket, a, cause, h)
        && cause.sceneResult == (if error == InvalidTransform then InvalidTransformCode
                                 else if error == InvalidControllerConfiguration then ControllerBadConfiguration
                                 else InvalidBindingCode)
      else if a.bind.Accepted? then WaitsIn(r, h, n, Binding, BindSlot) && h.record.value.declarations == declarations
      else RefusedFor(a.bind, false, cause) && Fails(r, r.ticket, a, cause, h)
  {
    hide Unbind, FailSpawn;
    cause := if error != NoSpawnError then SpawnFailure(error, SpawnResult(error), Success)
             else Refusal(a.bind, SceneFailure);
    FailOut(r, r, cause, a, n);
    FailOut(r.(declarations := declarations), r, cause, a, n);
  }

  // ----- what reaches the component -----

  /** A spawn request is turned away for the first reason there is, and told so at once; otherwise there is a record for
      it under the leased slot, whose reset is under way, or which is failing because the reset was refused. */
  lemma SpawnRequestMeans(w: Component, e: Event) returns (failure: SpawnFailure)
    requires e.Spawn?
    ensures var w', id := Next(w, e), w.nextSpawn;
      && w'.nextSpawn == id + 1 && w'.nextDespawn == w.nextDespawn
      && w'.queued == w.queued && w'.cancelled == w.cancelled
      && (forall other | other != id :: other in w'.instances <==> other in w.instances)
      && (forall other | other in w.instances && other != id :: w'.instances[other] == w.instances[other])
      && if e.gate != NoSpawnError || !e.finite || !e.sceneFound || e.reservation.NotReserved? then
           && w' == w.(nextSpawn := id + 1, notices := w.notices + [SpawnFailed(id, failure)])
           && failure.cleanupResult == Success
           && if e.gate != NoSpawnError then failure.error == e.gate && failure.sceneResult == Success
              else if !e.finite then failure.error == InvalidPlacement && failure.sceneResult == Success
              else if !e.sceneFound then failure.error == NotReady && failure.sceneResult == Success
              else
                && failure.sceneResult == e.reservation.code
                && failure.error == if e.reservation.code == SlotUnavailable then NoCapacity else SceneCommandFailed
         else
           && w'.callbacks == w.callbacks[id := Callback(Cancelable, NoSpawnError, 0, None)]
           && if e.answers.reset.Accepted? then
                && id in w'.instances && w'.notices == w.notices && w'.nextCommand == w.nextCommand + 1
                && var r := w'.instances[id];
                && r.phase.Resetting? && r.pending == w.nextCommand && r.pendingType == CommandType.ResetSlot
                && r.request == id && r.lease == e.reservation.lease && r.ticket.NoTicket? && r.despawnRequest == 0
                && !r.terminalSpawnFailure && !r.controllersAttached && r.despawnFailure.error == NoDespawnError
                && r.despawnFailure.cleanupResult == Success
              else exists r: Record, h: Handled ::
                && r.request == id && r.lease == e.reservation.lease
                && RefusedFor(e.answers.reset, false, failure) && Fails(r, NoTicket, e.answers, failure, h)
                && w'.notices == w.notices + h.notices
                && (id in w'.instances <==> h.record.Some?)
                && (h.record.Some? ==> w'.instances[id] == h.record.value)
  {
    hide FailSpawn, Fails;
    failure := SpawnRefusal(e);
    if e.gate == NoSpawnError && e.finite && e.sceneFound && e.reservation.Reserved? {
      var r := NewRecord(w.nextSpawn, e.reservation.lease);
      var h := Reset(r, e.answers, w.nextCommand);
      if e.answers.reset.Accepted? {
        assert w.notices + h.notices == w.notices;
      } else {
        failure := Refusal(e.answers.reset, SceneFailure);
        ControllerNamed(Success);
        FailOut(r, r, failure, e.answers, w.nextCommand);
        assert r.request == w.nextSpawn && r.lease == e.reservation.lease &&
               Fails(r, NoTicket, e.answers, failure, h);
      }
    }
  }

  /** A despawn request is turned away for the first reason there is; otherwise the one active record of the lease takes
      it. */
  lemma DespawnRequestMeans(w: Component, e: Event)
    requires Sane(w) && e.Despawn?
    ensures var w', d := Next(w, e), w.nextDespawn;
      var refused := (error: DespawnError) =>
        w.(nextDespawn := d + 1,
           notices := w.notices + [DespawnFailed(d, e.lease, DespawnFailure(error, Success, Success))]);
      if e.closed != NoDespawnError then w' == refused(e.closed)
      else if e.generation != w.generation || forall id | id in w.instances :: w.instances[id].lease != e.lease then
        w' == refused(StaleInstance)
      else if forall id | id in w.instances && w.instances[id].lease == e.lease :: !w.instances[id].phase.Active? then
        w' == refused(InstanceNotActive)
      else exists id ::
        && id in w.instances && w.instances[id].lease == e.lease && w.instances[id].phase.Active?
        && w' == Put(w.(nextDespawn := d + 1), id, BeginDespawn(w.instances[id], d, e.answers, w.nextCommand))
  {
    hide BeginDespawn, Put;
    FirstIds(w);
    assert forall id | id in w.instances && w.instances[id].lease == e.lease :: Leases(w, id, e.lease);
    if e.closed == NoDespawnError && e.generation == w.generation && exists id :: Leases(w, id, e.lease) {
      var id :| Leases(w, id, e.lease) && OnDespawn(w, e) == DespawnAt(w, id, e);
      assert forall other | other in w.instances && w.instances[other].lease == e.lease :: other == id;
    }
  }

  /** A cancellation is granted exactly to a known request that has neither succeeded nor failed and whose boundary
      nobody has won; it wins the boundary and changes nothing else. */
  lemma CancelMeans(w: Component, generation: nat, id: nat)
    ensures var w' := Next(w, Cancel(generation, id));
      if generation == w.generation && id in w.instances && !w.instances[id].phase.Active?
         && !w.instances[id].terminalSpawnFailure && id in w.callbacks && w.callbacks[id].boundary == Cancelable then
        && w' == w.(callbacks := w'.callbacks, cancelled := w.cancelled + {id})
        && w'.callbacks == w.callbacks[id := w.callbacks[id].(boundary := Cancelled)]
      else w' == w
  {
  }

  /** The callback before insertion commits a boundary nobody has won. It notes the prepared hierarchy, or the first
      problem. */
  lemma PrepareMeans(w: Component, id: nat, problem: SpawnError)
    ensures var w' := Next(w, Prepare(id, problem));
      if id in w.callbacks && w.callbacks[id].ticket.Some? && w.callbacks[id].boundary == Cancelable then
        && w' == w.(callbacks := w'.callbacks) && w'.callbacks.Keys == w.callbacks.Keys
        && (forall other | other in w.callbacks && other != id :: w'.callbacks[other] == w.callbacks[other])
        && var was, now := w.callbacks[id], w'.callbacks[id];
        && now.boundary == Committed && now.ticket == was.ticket
        && now.prepared == (if problem == NoSpawnError then w.topologySize else was.prepared)
        && now.error == if problem != NoSpawnError && was.error == NoSpawnError then problem else was.error
      else w' == w
  {
  }

  /** The completion callback queues one completion under the ticket it was started with. It reports success only of a
      hierarchy that was prepared whole, by a spawn that was not cancelled, without a problem before or after. */
  lemma CollectMeans(w: Component, id: nat, entities: bool, problem: SpawnError, declarations: nat)
    requires w.topologySize > 0
    ensures var w' := Next(w, Collect(id, entities, problem, declarations));
      if id in w.callbacks && w.callbacks[id].ticket.Some? then
        exists c ::
          && w' == w.(queued := w.queued + {c})
          && c.request == id && c.ticket == w.callbacks[id].ticket.value
          && var cb := w.callbacks[id];
          && (c.error == NoSpawnError <==>
                && cb.boundary != Cancelled && cb.error == NoSpawnError && entities
                && cb.prepared == w.topologySize && problem == NoSpawnError)
          && (cb.boundary == Cancelled ==> c.error == SpawnCancelled)
          && (cb.boundary != Cancelled && cb.error != NoSpawnError ==> c.error == cb.error)
          && (cb.boundary != Cancelled && cb.error == NoSpawnError && !entities ==> c.error == O3deSpawnFailed)
          && (cb.boundary != Cancelled && cb.error == NoSpawnError && entities && cb.prepared != w.topologySize ==>
                c.error == HierarchyMismatch)
          && (cb.boundary != Cancelled && cb.error == NoSpawnError && entities && cb.prepared == w.topologySize ==>
                c.error == problem)
          && c.declarations == if c.error == NoSpawnError then declarations else 0
      else w' == w
  {
    if id in w.callbacks && w.callbacks[id].ticket.Some? {
      var error := CollectError(w.callbacks[id], w.topologySize, entities, problem);
      var c := Completion(id, w.callbacks[id].ticket.value, error, if error == NoSpawnError then declarations else 0);
      assert Next(w, Collect(id, entities, problem, declarations)) == w.(queued := w.queued + {c});
    }
  }

  /** A completion reaches the record that waits for it under the same generation and ticket, and nobody otherwise. */
  lemma CompletionsReach(w: Component, generation: nat, c: Completion, ticketId: nat, a: Answers)
    ensures var w' := Next(w, SpawnCompleted(generation, c, a));
      if c in w.queued && generation == w.generation && c.request in w.instances
         && w.instances[c.request].phase == Spawning && w.instances[c.request].ticket == ValidTicket(c.ticket) then
        w' == Put(w, c.request, OnCollected(w.instances[c.request], c.error, c.declarations, a, w.nextCommand))
      else w' == w
    ensures var w' := Next(w, DespawnCompleted(generation, c.request, ticketId, a));
      if generation == w.generation && c.request in w.instances
         && w.instances[c.request].phase == DespawningEntities
         && w.instances[c.request].ticket == ValidTicket(ticketId) then
        w' == Put(w, c.request, OnDespawned(w.instances[c.request], a, w.nextCommand))
      else w' == w
  {
    hide Put, OnCollected, OnDespawned;
  }

  /** A command result reaches the record that waits for this command of this type; only a started entity spawn tells
      its callbacks anything, its ticket. */
  lemma ResultReaches(w: Component, id: nat, command: nat, commandType: CommandType, result: ResultCode, a: Answers)
    requires Sane(w) && id in w.instances && command != 0
    requires w.instances[id].pending == command && w.instances[id].pendingType == commandType
    ensures id in w.callbacks
    ensures var w' := Next(w, CommandCompleted(command, commandType, result, a));
      var h := OnCommand(w.instances[id], result, w.callbacks[id].boundary, a, w.nextCommand);
      && w' == Put(w, id, h).(callbacks := w'.callbacks)
      && if h.record.Some? && h.record.value.phase == Spawning && h.record.value.ticket.ValidTicket? then
           w'.callbacks == w.callbacks[id := w.callbacks[id].(ticket := Some(h.record.value.ticket.id))]
         else w'.callbacks == w.callbacks
  {
    hide Sane, OnCommand, Invariant;
    assert Spawners.Waits(w, id, command);
    ResultFindsRecord(w, id, command, commandType, result, a);
  }

  /** A result nobody waits for, or of another command type, changes nothing. */
  lemma ResultIgnored(w: Component, command: nat, commandType: CommandType, result: ResultCode, a: Answers)
    requires Sane(w)
    requires command == 0 || forall id | id in w.instances && w.instances[id].pending == command ::
               w.instances[id].pendingType != commandType
    ensures Next(w, CommandCompleted(command, commandType, result, a)) == w
  {
    hide Sane, OnCommand, Invariant, Answer1;
    if id :| command != 0 && Spawners.Waits(w, id, command) {
      ResultFindsRecord(w, id, command, commandType, result, a);
    }
  }
}
