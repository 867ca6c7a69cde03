/** The spawner's asynchronous instance state machine: reserve, reset, place, spawn, bind, attach, and the way back. */
module Spawners {
  import opened Options

  datatype ResultCode =
    | Success
    | SceneNotFound
    | ConstructionFailed
    | SlotUnavailable
    | InvalidTransformCode
    | InvalidBindingCode
    | ControllerFactoryMissing
    | ControllerBadConfiguration
    | ControllerTargetMissing
    | ControllerTargetOutside
    | ControllerWriteConflictCode
    | ControllerConstruction
    | OtherCode(code: nat)

  datatype SpawnError =
    | NoSpawnError
    | SpawnCancelled
    | NotReady
    | ShuttingDown
    | ExternalRequestsDisabled
    | InvalidPlacement
    | NoCapacity
    | SceneCommandFailed
    | SpawnServiceUnavailable
    | O3deSpawnFailed
    | HierarchyMismatch
    | InvalidTransform
    | InvalidControllerConfiguration
    | ControllerFactoryNotFound
    | ControllerTargetNotFound
    | CrossInstanceControllerTarget
    | ControllerWriteConflict
    | ControllerConstructionFailed
    | OtherSpawnError(code: nat)

  datatype DespawnError = NoDespawnError | DespawnNotReady | DespawnShuttingDown | StaleInstance | InstanceNotActive
                        | DespawnCommandFailed | DespawnServiceUnavailable | CleanupFailed

  datatype SpawnFailure = SpawnFailure(error: SpawnError, sceneResult: ResultCode, cleanupResult: ResultCode)
  datatype DespawnFailure = DespawnFailure(error: DespawnError, sceneResult: ResultCode, cleanupResult: ResultCode)

  /** What a request's owner is told. */
  datatype Notice =
    | SpawnSucceeded(request: nat, lease: nat)
    | SpawnFailed(request: nat, failure: SpawnFailure)
    | DespawnSucceeded(despawn: nat, lease: nat)
    | DespawnFailed(despawn: nat, lease: nat, cause: DespawnFailure)

  datatype Boundary = Cancelable | Cancelled | Committed

  datatype Phase = Resetting | Placing | Spawning | Binding | AttachingControllers | Active
                 | DetachingControllers | Unbinding | DespawningEntities | CleanupResetting | Releasing

  datatype CommandType = ResetSlot | PlaceSlot | BindSlot | AttachControllers | DetachControllers | UnbindSlot
                       | ReleaseSlot

  datatype Ticket = NoTicket | InvalidTicket | ValidTicket(id: nat)

  /** `pending` is the command the record waits for; zero is the empty command id. */
  datatype Record = Record(
    request: nat, lease: nat, phase: Phase, pending: nat, pendingType: CommandType, ticket: Ticket, declarations: nat,
    spawnFailure: SpawnFailure, despawnRequest: nat, despawnFailure: DespawnFailure,
    terminalSpawnFailure: bool, controllersAttached: bool)

  /** How the services answer the submissions one handler may make. */
  datatype Answer = Unavailable | Refused(code: ResultCode) | Accepted

  datatype Answers = Answers(
    reset: Answer, place: Answer, bind: Answer, attach: Answer, detach: Answer, unbind: Answer,
    cleanup: Answer, release: Answer, spawnService: bool, ticket: Option<nat>, despawnService: bool)

  /** A handler leaves the record waiting or gone, tells the owner something or not, and may have used a command id. */
  datatype Handled = Handled(record: Option<Record>, notices: seq<Notice>, nextCommand: nat)

  function Code(answer: Answer): ResultCode {
    if answer.Refused? then answer.code else SceneNotFound
  }

  function SceneFailure(result: ResultCode): SpawnFailure { SpawnFailure(SceneCommandFailed, result, Success) }

  function ControllerFailure(result: ResultCode): SpawnFailure {
    var error := match result
      case ControllerFactoryMissing => ControllerFactoryNotFound
      case ControllerBadConfiguration => InvalidControllerConfiguration
      case ControllerTargetMissing => ControllerTargetNotFound
      case ControllerTargetOutside => CrossInstanceControllerTarget
      case ControllerWriteConflictCode => ControllerWriteConflict
      case ControllerConstruction => ControllerConstructionFailed
      case _ => SceneCommandFailed;
    SpawnFailure(error, result, Success)
  }

  function Refusal(answer: Answer, failure: ResultCode -> SpawnFailure): SpawnFailure {
    if answer.Refused? then failure(answer.code) else SpawnFailure(NotReady, Success, Success)
  }

  function Await(r: Record, phase: Phase, commandType: CommandType, n: nat): Handled {
    Handled(Some(r.(phase := phase, pending := n, pendingType := commandType)), [], n + 1)
  }

  // ----- the way back -----

  function FinalNotice(r: Record, result: ResultCode): Notice {
    if r.terminalSpawnFailure then
      SpawnFailed(r.request, if result == Success then r.spawnFailure else r.spawnFailure.(cleanupResult := result))
    else
      var failure := if result == Success then r.despawnFailure else r.despawnFailure.(cleanupResult := result);
      if failure.error != NoDespawnError || failure.cleanupResult != Success then
        DespawnFailed(r.despawnRequest, r.lease,
                      if failure.error == NoDespawnError then failure.(error := CleanupFailed) else failure)
      else DespawnSucceeded(r.despawnRequest, r.lease)
  }

  /** A cleanup step went wrong; a failed spawn keeps its cause and only notes the cleanup. */
  function Blame(r: Record, cleanup: ResultCode, despawn: DespawnFailure): Record {
    if r.terminalSpawnFailure then r.(spawnFailure := r.spawnFailure.(cleanupResult := cleanup))
    else r.(despawnFailure := despawn)
  }

  function Release(r: Record, a: Answers, n: nat): Handled {
    if a.release.Accepted? then Await(r, Releasing, ReleaseSlot, n)
    else Handled(None, [FinalNotice(r, Code(a.release))], n)
  }

  function CleanupReset(r: Record, a: Answers, n: nat): Handled {
    if a.cleanup.Accepted? then Await(r, CleanupResetting, ResetSlot, n)
    else Release(Blame(r, Code(a.cleanup), r.despawnFailure.(cleanupResult := Code(a.cleanup))), a, n)
  }

  function EntityDespawn(r: Record, a: Answers, n: nat): Handled {
    if !r.ticket.ValidTicket? then CleanupReset(r, a, n)
    else if a.despawnService then Handled(Some(r.(phase := DespawningEntities)), [], n)
    else
      var failure := DespawnFailure(DespawnServiceUnavailable, Success, Success);
      CleanupReset(Blame(r, ConstructionFailed, failure).(ticket := NoTicket), a, n)
  }

  function CommandFailure(code: ResultCode): DespawnFailure { DespawnFailure(DespawnCommandFailed, code, code) }

  function Unbind(r: Record, a: Answers, n: nat): Handled {
    if a.unbind.Accepted? then Await(r, Unbinding, UnbindSlot, n)
    else EntityDespawn(Blame(r, Code(a.unbind), CommandFailure(Code(a.unbind))), a, n)
  }

  function FailSpawn(r: Record, failure: SpawnFailure, a: Answers, n: nat): Handled {
    if r.terminalSpawnFailure then Handled(Some(r), [], n)
    else Unbind(r.(terminalSpawnFailure := true, spawnFailure := failure), a, n)
  }

  // ----- the way forward -----

  function Reset(r: Record, a: Answers, n: nat): Handled {
    if a.reset.Accepted? then Await(r, Resetting, ResetSlot, n) else FailSpawn(r, Refusal(a.reset, SceneFailure), a, n)
  }

  function Place(r: Record, a: Answers, n: nat): Handled {
    if a.place.Accepted? then Await(r, Placing, PlaceSlot, n) else FailSpawn(r, Refusal(a.place, SceneFailure), a, n)
  }

  function EntitySpawn(r: Record, boundary: Boundary, a: Answers, n: nat): Handled {
    if boundary == Cancelled then FailSpawn(r, SpawnFailure(SpawnCancelled, Success, Success), a, n)
    else if !a.spawnService then FailSpawn(r, SpawnFailure(SpawnServiceUnavailable, Success, Success), a, n)
    else if a.ticket.None? then
      FailSpawn(r.(ticket := InvalidTicket), SpawnFailure(O3deSpawnFailed, Success, Success), a, n)
    else Handled(Some(r.(ticket := ValidTicket(a.ticket.value), phase := Spawning)), [], n)
  }

  function Bind(r: Record, a: Answers, n: nat): Handled {
    if a.bind.Accepted? then Await(r, Binding, BindSlot, n) else FailSpawn(r, Refusal(a.bind, SceneFailure), a, n)
  }

  function Attach(r: Record, a: Answers, n: nat): Handled {
    if a.attach.Accepted? then Await(r.(declarations := 0), AttachingControllers, AttachControllers, n)
    else FailSpawn(r.(declarations := 0), Refusal(a.attach, ControllerFailure), a, n)
  }

  function Detach(r: Record, a: Answers, n: nat): Handled {
    match a.detach
    case Accepted => Await(r, DetachingControllers, DetachControllers, n)
    case Unavailable => Unbind(r.(despawnFailure := CommandFailure(SceneNotFound)), a, n)
    case Refused(code) =>
      Unbind(r.(controllersAttached := false, despawnFailure := CommandFailure(code)), a, n)
  }

  function Spawned(r: Record, n: nat): Handled {
    Handled(Some(r.(phase := Active)), [SpawnSucceeded(r.request, r.lease)], n)
  }

  function SpawnResult(error: SpawnError): ResultCode {
    match error
    case InvalidTransform => InvalidTransformCode
    case InvalidControllerConfiguration => ControllerBadConfiguration
    case _ => InvalidBindingCode
  }

  function OnCollected(r: Record, error: SpawnError, declarations: nat, a: Answers, n: nat): Handled {
    if error != NoSpawnError then FailSpawn(r, SpawnFailure(error, SpawnResult(error), Success), a, n)
    else Bind(r.(declarations := declarations), a, n)
  }

  function OnDespawned(r: Record, a: Answers, n: nat): Handled {
    CleanupReset(r.(ticket := NoTicket), a, n)
  }

  function OnCommand(before: Record, result: ResultCode, boundary: Boundary, a: Answers, n: nat): Handled {
    var r := before.(pending := 0);
    match r.phase
    case Resetting =>
      if result != Success then FailSpawn(r, SceneFailure(result), a, n)
      else if boundary == Cancelled then FailSpawn(r, SpawnFailure(SpawnCancelled, Success, Success), a, n)
      else Place(r, a, n)
    case Placing =>
      if result != Success then FailSpawn(r, SceneFailure(result), a, n)
      else EntitySpawn(r, boundary, a, n)
    case Binding =>
      if result != Success then FailSpawn(r, SceneFailure(result), a, n)
      else if r.declarations != 0 then Attach(r, a, n)
      else Spawned(r, n)
    case AttachingControllers =>
      if result != Success then FailSpawn(r, ControllerFailure(result), a, n)
      else Spawned(r.(controllersAttached := true), n)
    case DetachingControllers =>
      var detached := r.(controllersAttached := false);
      Unbind(if result == Success then detached else detached.(despawnFailure := CommandFailure(result)), a, n)
    case Unbinding =>
      EntityDespawn(if result == Success then r else Blame(r, result, CommandFailure(result)), a, n)
    case CleanupResetting =>
      Release(if result == Success then r else Blame(r, result, r.despawnFailure.(cleanupResult := result)), a, n)
    case Releasing => Handled(None, [FinalNotice(r, result)], n)
    case _ => Handled(Some(r), [], n)
  }

  function BeginDespawn(r: Record, despawn: nat, a: Answers, n: nat): Handled {
    var r' := r.(terminalSpawnFailure := false, despawnRequest := despawn);
    if r.controllersAttached then Detach(r', a, n) else Unbind(r', a, n)
  }

  // ----- one record -----

  function Rank(phase: Phase): nat {
    match phase
    case Resetting => 11 case Placing => 10 case Spawning => 9 case Binding => 8 case AttachingControllers => 7
    case Active => 6 case DetachingControllers => 5 case Unbinding => 4 case DespawningEntities => 3
    case CleanupResetting => 2 case Releasing => 1
  }

  function Expected(phase: Phase): Option<CommandType> {
    match phase
    case Resetting => Some(ResetSlot) case Placing => Some(PlaceSlot) case Binding => Some(BindSlot)
    case AttachingControllers => Some(AttachControllers) case DetachingControllers => Some(DetachControllers)
    case Unbinding => Some(UnbindSlot) case CleanupResetting => Some(ResetSlot) case Releasing => Some(ReleaseSlot)
    case _ => None
  }

  /** The spawn outcome has been told: it succeeded. */
  predicate Decided(r: Record) { !r.terminalSpawnFailure && Rank(r.phase) <= Rank(Active) }

  /** Only a committed spawn gets here. */
  predicate Past(r: Record) { !r.terminalSpawnFailure && Rank(r.phase) <= Rank(Binding) }

  /** Exactly one operation is outstanding unless the record is active, and the flags fit the phase. */
  predicate Shaped(r: Record, nextCommand: nat) {
    && (Expected(r.phase).Some? ==> 0 < r.pending < nextCommand && r.pendingType == Expected(r.phase).value)
    && (Expected(r.phase).None? ==> r.pending == 0)
    && (r.phase.Spawning? || r.phase.DespawningEntities? ==> r.ticket.ValidTicket?)
    && (r.terminalSpawnFailure ==> Rank(r.phase) <= Rank(Unbinding))
    && (r.despawnRequest != 0 ==> Decided(r))
    && (Decided(r) && !r.phase.Active? ==> r.despawnRequest != 0)
  }

  /** A record taken up by a despawn request leaves the active phase in the same step. */
  predicate Rested(r: Record) { r.phase.Active? ==> r.despawnRequest == 0 }

  /** What one handler may do to a record: strictly lower its rank or remove it, tell the spawn outcome exactly when it
      becomes decided or the failed record goes, and the despawn outcome exactly when a despawned record goes. A spawn
      that has not failed takes every phase in turn; it skips the attachment when it has no controllers. */
  predicate Moves(r: Record, h: Handled, n: nat) {
    && n <= h.nextCommand <= n + 1
    && match h.record
       case Some(r') =>
         && Shaped(r', h.nextCommand) && Rested(r') && (r'.pending == 0 || r'.pending == n)
         && r'.request == r.request && r'.lease == r.lease && r'.despawnRequest == r.despawnRequest
         && Rank(r'.phase) < Rank(r.phase)
         && (Past(r') ==> Past(r) || r.phase.Spawning?)
         && (Decided(r) ==> Decided(r'))
         && (!Decided(r) && !r'.terminalSpawnFailure ==>
               if r.phase.Binding? && r.declarations == 0 then r'.phase.Active?
               else Rank(r'.phase) == Rank(r.phase) - 1)
         && (r'.phase.Active? && r.phase.AttachingControllers? ==> r'.controllersAttached)
         && h.notices == (if Decided(r') && !Decided(r) then [SpawnSucceeded(r.request, r.lease)] else [])
       case None =>
         |h.notices| == 1 &&
         if Decided(r) then r.despawnRequest != 0 && About(h.notices[0]) == DespawnOf(r.despawnRequest)
         else h.notices[0].SpawnFailed? && h.notices[0].request == r.request
  }

  datatype Subject = SpawnOf(request: nat) | DespawnOf(despawn: nat)

  function About(notice: Notice): Subject {
    match notice
    case SpawnSucceeded(request, _) => SpawnOf(request)
    case SpawnFailed(request, _) => SpawnOf(request)
    case DespawnSucceeded(despawn, _) => DespawnOf(despawn)
    case DespawnFailed(despawn, _, _) => DespawnOf(despawn)
  }

  /** `r` is `base` on its way out: nothing outstanding, and the flags say which outcome is owed. */
  predicate Closing(base: Record, r: Record) {
    && r.pending == 0 && r.request == base.request && r.lease == base.lease && r.despawnRequest == base.despawnRequest
    && (r.terminalSpawnFailure <==> !Decided(base)) && (r.despawnRequest != 0 <==> Decided(base))
  }

  lemma ReleaseMoves(base: Record, r: Record, a: Answers, n: nat)
    requires Closing(base, r) && Rank(base.phase) > Rank(Releasing) && n > 0
    ensures Moves(base, Release(r, a, n), n)
  {
  }

  lemma CleanupMoves(base: Record, r: Record, a: Answers, n: nat)
    requires Closing(base, r) && Rank(base.phase) > Rank(CleanupResetting) && n > 0
    ensures Moves(base, CleanupReset(r, a, n), n)
  {
    hide Release;
    ReleaseMoves(base, Blame(r, Code(a.cleanup), r.despawnFailure.(cleanupResult := Code(a.cleanup))), a, n);
  }

  lemma EntityDespawnMoves(base: Record, r: Record, a: Answers, n: nat)
    requires Closing(base, r) && Rank(base.phase) > Rank(DespawningEntities) && n > 0
    ensures Moves(base, EntityDespawn(r, a, n), n)
  {
    hide CleanupReset;
    CleanupMoves(base, r, a, n);
    var failure := DespawnFailure(DespawnServiceUnavailable, Success, Success);
    CleanupMoves(base, Blame(r, ConstructionFailed, failure).(ticket := NoTicket), a, n);
  }

  lemma UnbindMoves(base: Record, r: Record, a: Answers, n: nat)
    requires Closing(base, r) && Rank(base.phase) > Rank(Unbinding) && n > 0
    ensures Moves(base, Unbind(r, a, n), n)
  {
    hide EntityDespawn;
    EntityDespawnMoves(base, Blame(r, Code(a.unbind), CommandFailure(Code(a.unbind))), a, n);
  }

  /** `r` is `base` before its spawn is decided. */
  predicate Pending(base: Record, r: Record) {
    && r.pending == 0 && r.request == base.request && r.lease == base.lease
    && r.despawnRequest == base.despawnRequest == 0
    && !r.terminalSpawnFailure && Rank(base.phase) > Rank(Active)
  }

  lemma FailMoves(base: Record, r: Record, failure: SpawnFailure, a: Answers, n: nat)
    requires Pending(base, r) && n > 0
    ensures var h := FailSpawn(r, failure, a, n);
      Moves(base, h, n) && (h.record.Some? ==> h.record.value.terminalSpawnFailure)
  {
    hide Unbind, Moves;
    UnbindMoves(base, r.(terminalSpawnFailure := true, spawnFailure := failure), a, n);
    UnbindKeepsFlag(r.(terminalSpawnFailure := true, spawnFailure := failure), a, n);
  }

  lemma UnbindKeepsFlag(r: Record, a: Answers, n: nat)
    ensures Unbind(r, a, n).record.Some? ==> Unbind(r, a, n).record.value.terminalSpawnFailure == r.terminalSpawnFailure
  {
  }

  lemma PlaceMoves(base: Record, r: Record, a: Answers, n: nat)
    requires Pending(base, r) && base.phase.Resetting? && n > 0
    ensures Moves(base, Place(r, a, n), n)
  {
    hide FailSpawn;
    FailMoves(base, r, Refusal(a.place, SceneFailure), a, n);
  }

  lemma EntitySpawnMoves(base: Record, r: Record, boundary: Boundary, a: Answers, n: nat)
    requires Pending(base, r) && base.phase.Placing? && n > 0
    ensures Moves(base, EntitySpawn(r, boundary, a, n), n)
  {
    hide FailSpawn;
    FailMoves(base, r, SpawnFailure(SpawnCancelled, Success, Success), a, n);
    FailMoves(base, r, SpawnFailure(SpawnServiceUnavailable, Success, Success), a, n);
    FailMoves(base, r.(ticket := InvalidTicket), SpawnFailure(O3deSpawnFailed, Success, Success), a, n);
  }

  lemma AttachMoves(base: Record, r: Record, a: Answers, n: nat)
    requires Pending(base, r) && base.phase.Binding? && !base.terminalSpawnFailure && base.declarations != 0 && n > 0
    ensures Moves(base, Attach(r, a, n), n)
  {
    hide FailSpawn;
    FailMoves(base, r.(declarations := 0), Refusal(a.attach, ControllerFailure), a, n);
  }

  lemma ForwardMoves(r: Record, result: ResultCode, boundary: Boundary, a: Answers, n: nat)
    requires Shaped(r, n) && r.pending != 0 && Rank(r.phase) > Rank(Active)
    ensures Moves(r, OnCommand(r, result, boundary, a, n), n)
  {
    hide FailSpawn, Place, EntitySpawn, Attach;
    var r' := r.(pending := 0);
    FailMoves(r, r', SceneFailure(result), a, n);
    FailMoves(r, r', ControllerFailure(result), a, n);
    FailMoves(r, r', SpawnFailure(SpawnCancelled, Success, Success), a, n);
    if r.phase.Resetting? { PlaceMoves(r, r', a, n); }
    if r.phase.Placing? { EntitySpawnMoves(r, r', boundary, a, n); }
    if r.phase.Binding? && r.declarations != 0 { AttachMoves(r, r', a, n); }
  }

  lemma BackwardMoves(r: Record, result: ResultCode, boundary: Boundary, a: Answers, n: nat)
    requires Shaped(r, n) && r.pending != 0 && Rank(r.phase) < Rank(Active)
    ensures Moves(r, OnCommand(r, result, boundary, a, n), n)
  {
    hide Unbind, EntityDespawn, Release;
    var r' := r.(pending := 0);
    match r.phase
    case DetachingControllers =>
      var detached := r'.(controllersAttached := false);
      UnbindMoves(r, if result == Success then detached else detached.(despawnFailure := CommandFailure(result)), a, n);
    case Unbinding =>
      EntityDespawnMoves(r, if result == Success then r' else Blame(r', result, CommandFailure(result)), a, n);
    case CleanupResetting =>
      ReleaseMoves(r, if result == Success then r'
                      else Blame(r', result, r'.despawnFailure.(cleanupResult := result)), a, n);
    case Releasing =>
  }

  /** Every command result moves the record it was for. */
  lemma CommandMoves(r: Record, result: ResultCode, boundary: Boundary, a: Answers, n: nat)
    requires Shaped(r, n) && r.pending != 0
    ensures Moves(r, OnCommand(r, result, boundary, a, n), n)
  {
    hide OnCommand, Moves;
    if Rank(r.phase) > Rank(Active) {
      ForwardMoves(r, result, boundary, a, n);
    } else {
      BackwardMoves(r, result, boundary, a, n);
    }
  }

  lemma CollectedMoves(r: Record, error: SpawnError, declarations: nat, a: Answers, n: nat)
    requires Shaped(r, n) && r.phase.Spawning? && n > 0
    ensures var h := OnCollected(r, error, declarations, a, n);
      Moves(r, h, n) && (error != NoSpawnError && h.record.Some? ==> !Past(h.record.value))
  {
    hide FailSpawn;
    FailMoves(r, r, SpawnFailure(error, SpawnResult(error), Success), a, n);
    FailMoves(r, r.(declarations := declarations), Refusal(a.bind, SceneFailure), a, n);
  }

  lemma DespawnedMoves(r: Record, a: Answers, n: nat)
    requires Shaped(r, n) && r.phase.DespawningEntities? && n > 0
    ensures Moves(r, OnDespawned(r, a, n), n)
  {
    hide CleanupReset;
    CleanupMoves(r, r.(ticket := NoTicket), a, n);
  }

  lemma DespawnMoves(r: Record, despawn: nat, a: Answers, n: nat)
    requires Shaped(r, n) && r.phase.Active? && despawn > 0 && n > 0
    ensures Moves(r.(despawnRequest := despawn), BeginDespawn(r, despawn, a, n), n)
  {
    hide Unbind;
    var r' := r.(terminalSpawnFailure := false, despawnRequest := despawn);
    UnbindMoves(r', r', a, n);
    UnbindMoves(r', r'.(despawnFailure := CommandFailure(SceneNotFound)), a, n);
    UnbindMoves(r', r'.(controllersAttached := false, despawnFailure := CommandFailure(Code(a.detach))), a, n);
  }

  // ----- the component -----

  /** What a spawn shares with its callbacks. `prepared` counts the hierarchy entities found before insertion. */
  datatype Callback = Callback(boundary: Boundary, error: SpawnError, prepared: nat, ticket: Option<nat>)

  /** A spawn completion on its way to the main thread. */
  datatype Completion = Completion(request: nat, ticket: nat, error: SpawnError, declarations: nat)

  datatype Component = Component(
    generation: nat, topologySize: nat, nextSpawn: nat, nextDespawn: nat, nextCommand: nat,
    instances: map<nat, Record>, callbacks: map<nat, Callback>, queued: set<Completion>, cancelled: set<nat>,
    notices: seq<Notice>)

  datatype Reservation = Reserved(lease: nat) | NotReserved(code: ResultCode)

  /** Anything that can reach the component, in any order; completions may come late, twice or not at all. */
  datatype Event =
    | Spawn(gate: SpawnError, finite: bool, sceneFound: bool, reservation: Reservation, answers: Answers)
    | Despawn(closed: DespawnError, generation: nat, lease: nat, answers: Answers)
    | Cancel(generation: nat, request: nat)
    | Prepare(request: nat, problem: SpawnError)
    | Collect(request: nat, entities: bool, problem: SpawnError, declarations: nat)
    | SpawnCompleted(generation: nat, completion: Completion, answers: Answers)
    | DespawnCompleted(generation: nat, request: nat, ticketId: nat, answers: Answers)
    | CommandCompleted(command: nat, commandType: CommandType, result: ResultCode, answers: Answers)

  function NewRecord(request: nat, lease: nat): Record {
    Record(request, lease, Resetting, 0, ResetSlot, NoTicket, 0, SpawnFailure(NoSpawnError, Success, Success),
           0, DespawnFailure(NoDespawnError, Success, Success), false, false)
  }

  function Put(w: Component, id: nat, h: Handled): Component {
    w.(instances := if h.record.Some? then w.instances[id := h.record.value] else w.instances - {id},
       notices := w.notices + h.notices, nextCommand := h.nextCommand)
  }

  function ReservationFailure(code: ResultCode): SpawnFailure {
    SpawnFailure(if code == SlotUnavailable then NoCapacity else SceneCommandFailed, code, Success)
  }

  /** Why a spawn request gets no slot. */
  function SpawnRefusal(e: Event): SpawnFailure
    requires e.Spawn?
  {
    if e.gate != NoSpawnError then SpawnFailure(e.gate, Success, Success)
    else if !e.finite then SpawnFailure(InvalidPlacement, Success, Success)
    else if !e.sceneFound then SpawnFailure(NotReady, Success, Success)
    else if e.reservation.NotReserved? then ReservationFailure(e.reservation.code)
    else SpawnFailure(NoSpawnError, Success, Success)
  }

  function OnSpawn(w: Component, e: Event): Component
    requires e.Spawn?
  {
    var id := w.nextSpawn;
    var w' := w.(nextSpawn := id + 1);
    if e.gate == NoSpawnError && e.finite && e.sceneFound && e.reservation.Reserved? then
      Put(w'.(callbacks := w.callbacks[id := Callback(Cancelable, NoSpawnError, 0, None)]), id,
          Reset(NewRecord(id, e.reservation.lease), e.answers, w.nextCommand))
    else w'.(notices := w.notices + [SpawnFailed(id, SpawnRefusal(e))])
  }

  ghost predicate Leases(w: Component, id: nat, lease: nat) { id in w.instances && w.instances[id].lease == lease }

  ghost function OnDespawn(w: Component, e: Event): Component
    requires e.Despawn?
  {
    var d := w.nextDespawn;
    var w' := w.(nextDespawn := d + 1);
    if e.closed != NoDespawnError then
      w'.(notices := w.notices + [DespawnFailed(d, e.lease, DespawnFailure(e.closed, Success, Success))])
    else if e.generation != w.generation || !exists id :: Leases(w, id, e.lease) then
      w'.(notices := w.notices + [DespawnFailed(d, e.lease, DespawnFailure(StaleInstance, Success, Success))])
    else
      var id :| Leases(w, id, e.lease);
      DespawnAt(w, id, e)
  }

  function DespawnAt(w: Component, id: nat, e: Event): Component
    requires e.Despawn? && id in w.instances
  {
    var d := w.nextDespawn;
    var w' := w.(nextDespawn := d + 1);
    if !w.instances[id].phase.Active? then
      w'.(notices := w.notices + [DespawnFailed(d, e.lease, DespawnFailure(InstanceNotActive, Success, Success))])
    else Put(w', id, BeginDespawn(w.instances[id], d, e.answers, w.nextCommand))
  }

  /** Whether a cancel request is granted. */
  predicate Cancels(w: Component, generation: nat, id: nat) {
    && generation == w.generation && id in w.instances && id in w.callbacks
    && !w.instances[id].phase.Active? && !w.instances[id].terminalSpawnFailure
    && w.callbacks[id].boundary.Cancelable?
  }

  function OnCancel(w: Component, generation: nat, id: nat): Component {
    if Cancels(w, generation, id) then
      w.(callbacks := w.callbacks[id := w.callbacks[id].(boundary := Cancelled)], cancelled := w.cancelled + {id})
    else w
  }

  function OnPrepare(w: Component, id: nat, problem: SpawnError): Component {
    if id in w.callbacks && w.callbacks[id].ticket.Some? && w.callbacks[id].boundary.Cancelable? then
      var cb := w.callbacks[id].(boundary := Committed);
      w.(callbacks := w.callbacks[id := if problem == NoSpawnError then cb.(prepared := w.topologySize)
                                        else if cb.error == NoSpawnError then cb.(error := problem) else cb])
    else w
  }

  /** What the completion callback reports for the entities it sees. */
  function CollectError(cb: Callback, topologySize: nat, entities: bool, problem: SpawnError): SpawnError {
    if cb.boundary.Cancelled? then SpawnCancelled
    else if cb.error != NoSpawnError then cb.error
    else if !entities then O3deSpawnFailed
    else if cb.prepared != topologySize then HierarchyMismatch
    else problem
  }

  function OnCollect(w: Component, id: nat, entities: bool, problem: SpawnError, declarations: nat): Component {
    if id in w.callbacks && w.callbacks[id].ticket.Some? then
      var error := CollectError(w.callbacks[id], w.topologySize, entities, problem);
      w.(queued := w.queued + {Completion(id, w.callbacks[id].ticket.value, error,
                                          if error == NoSpawnError then declarations else 0)})
    else w
  }

  function OnSpawnCompleted(w: Component, generation: nat, c: Completion, a: Answers): Component {
    if c in w.queued && generation == w.generation && c.request in w.instances
       && w.instances[c.request].phase.Spawning? && w.instances[c.request].ticket == ValidTicket(c.ticket) then
      Put(w, c.request, OnCollected(w.instances[c.request], c.error, c.declarations, a, w.nextCommand))
    else w
  }

  function OnDespawnCompleted(w: Component, generation: nat, id: nat, ticketId: nat, a: Answers): Component {
    if generation == w.generation && id in w.instances
       && w.instances[id].phase.DespawningEntities? && w.instances[id].ticket == ValidTicket(ticketId) then
      Put(w, id, OnDespawned(w.instances[id], a, w.nextCommand))
    else w
  }

  ghost predicate Waits(w: Component, id: nat, command: nat) { id in w.instances && w.instances[id].pending == command }

  /** A command result handled; starting the entity spawn hands its ticket to the callbacks. */
  function Answer1(w: Component, id: nat, result: ResultCode, a: Answers): Component
    requires id in w.instances && id in w.callbacks
  {
    var h := OnCommand(w.instances[id], result, w.callbacks[id].boundary, a, w.nextCommand);
    Ticketed(Put(w, id, h), id, h)
  }

  function Ticketed(w: Component, id: nat, h: Handled): Component
    requires id in w.callbacks
  {
    if h.record.Some? && h.record.value.phase.Spawning? && h.record.value.ticket.ValidTicket? then
      w.(callbacks := w.callbacks[id := w.callbacks[id].(ticket := Some(h.record.value.ticket.id))])
    else w
  }

  ghost function OnCommandCompleted(w: Component, command: nat, commandType: CommandType, result: ResultCode,
                                    a: Answers)
    : Component
  {
    if command != 0 && exists id :: Waits(w, id, command) then
      var id :| Waits(w, id, command);
      if w.instances[id].pendingType == commandType && id in w.callbacks then Answer1(w, id, result, a) else w
    else w
  }

  ghost function Next(w: Component, e: Event): Component {
    match e
    case Spawn(_, _, _, _, _) => OnSpawn(w, e)
    case Despawn(_, _, _, _) => OnDespawn(w, e)
    case Cancel(generation, id) => OnCancel(w, generation, id)
    case Prepare(id, problem) => OnPrepare(w, id, problem)
    case Collect(id, entities, problem, declarations) => OnCollect(w, id, entities, problem, declarations)
    case SpawnCompleted(generation, c, a) => OnSpawnCompleted(w, generation, c, a)
    case DespawnCompleted(generation, id, ticketId, a) => OnDespawnCompleted(w, generation, id, ticketId, a)
    case CommandCompleted(command, commandType, result, a) => OnCommandCompleted(w, command, commandType, result, a)
  }

  // ----- the invariant -----

  function Count(notices: seq<Notice>, s: Subject): nat {
    if notices == [] then 0
    else Count(notices[..|notices| - 1], s) + if About(notices[|notices| - 1]) == s then 1 else 0
  }

  ghost predicate Succeeded(notices: seq<Notice>, id: nat) {
    exists i :: 0 <= i < |notices| && notices[i].SpawnSucceeded? && notices[i].request == id
  }

  ghost predicate Held(w: Component, d: nat) { exists id :: id in w.instances && w.instances[id].despawnRequest == d }

  /** How many outcomes the owner of spawn request `id` has been told. */
  function SpawnDue(w: Component, id: nat): nat {
    if id == 0 || id >= w.nextSpawn then 0
    else if id in w.instances then if Decided(w.instances[id]) then 1 else 0
    else 1
  }

  ghost function DespawnDue(w: Component, d: nat): nat {
    if d == 0 || d >= w.nextDespawn || Held(w, d) then 0 else 1
  }

  ghost predicate RecordFits(w: Component, id: nat)
    requires id in w.instances
  {
    var r := w.instances[id];
    && 0 < id < w.nextSpawn && r.request == id && Shaped(r, w.nextCommand) && r.despawnRequest < w.nextDespawn
    && id in w.callbacks && (Past(r) ==> w.callbacks[id].boundary.Committed?)
  }

  ghost predicate Records(w: Component) {
    w.nextSpawn > 0 && w.nextDespawn > 0 && w.nextCommand > 0 && w.topologySize > 0
    && forall id | id in w.instances :: RecordFits(w, id)
  }

  ghost predicate Callbacks(w: Component) {
    && (forall id | id in w.callbacks ::
          id < w.nextSpawn && (w.callbacks[id].prepared != 0 ==> w.callbacks[id].boundary.Committed?))
    && (forall c | c in w.queued && c.error == NoSpawnError ::
          c.request in w.callbacks && w.callbacks[c.request].boundary.Committed?)
    && (forall id | id in w.cancelled :: id in w.callbacks && w.callbacks[id].boundary.Cancelled?)
  }

  ghost predicate SpawnsTold(w: Component) { forall id :: Count(w.notices, SpawnOf(id)) == SpawnDue(w, id) }

  ghost predicate SuccessCommitted(w: Component) {
    forall id | Succeeded(w.notices, id) ::
      && id in w.callbacks && w.callbacks[id].boundary.Committed?
      && (id in w.instances ==> Decided(w.instances[id]))
  }

  ghost predicate DespawnsTold(w: Component) { forall d :: Count(w.notices, DespawnOf(d)) == DespawnDue(w, d) }

  ghost predicate Apart(w: Component) {
    forall i, j | i in w.instances && j in w.instances && i != j ::
      && w.instances[i].lease != w.instances[j].lease
      && (w.instances[i].pending == w.instances[j].pending ==> w.instances[i].pending == 0)
      && (w.instances[i].despawnRequest == w.instances[j].despawnRequest ==> w.instances[i].despawnRequest == 0)
  }

  ghost predicate Invariant(w: Component) {
    Records(w) && Callbacks(w) && SpawnsTold(w) && SuccessCommitted(w) && DespawnsTold(w) && Apart(w)
  }

  lemma CountAppend(notices: seq<Notice>, n: Notice, s: Subject)
    ensures Count(notices + [n], s) == Count(notices, s) + if About(n) == s then 1 else 0
    ensures notices + [] == notices
  {
    assert (notices + [n])[..|notices|] == notices;
  }

  lemma SucceededAppend(notices: seq<Notice>, n: Notice, id: nat)
    ensures Succeeded(notices + [n], id) <==> Succeeded(notices, id) || (n.SpawnSucceeded? && n.request == id)
  {
    var more := notices + [n];
    assert more[|notices|] == n;
    if Succeeded(notices, id) {
      var i :| 0 <= i < |notices| && notices[i].SpawnSucceeded? && notices[i].request == id;
      assert more[i] == notices[i];
    }
  }

  // ----- one record moves -----

  ghost predicate MoveFits(w: Component, id: nat, h: Handled) {
    && id in w.instances && Moves(w.instances[id], h, w.nextCommand)
    && (h.record.Some? && Past(h.record.value) ==> id in w.callbacks && w.callbacks[id].boundary.Committed?)
  }

  lemma MoveRecords(w: Component, id: nat, h: Handled)
    requires Records(w) && MoveFits(w, id, h)
    ensures Records(Put(w, id, h))
  {
    var w' := Put(w, id, h);
    forall i | i in w'.instances ensures RecordFits(w', i) {
      assert RecordFits(w, i);
    }
  }

  lemma MoveApart(w: Component, id: nat, h: Handled)
    requires Records(w) && Apart(w) && MoveFits(w, id, h)
    ensures Apart(Put(w, id, h))
  {
    assert forall i | i in w.instances :: RecordFits(w, i);
  }

  /** At most one notice, and whom it concerns. */
  lemma MoveTells(w: Component, id: nat, h: Handled)
    requires Records(w) && MoveFits(w, id, h)
    ensures h.notices == [] || h.notices == [h.notices[0]]
    ensures var base := w.instances[id];
      h.notices == [] <==> h.record.Some? && (Decided(base) || !Decided(h.record.value))
    ensures h.notices != [] ==> var base, x := w.instances[id], h.notices[0];
      && About(x) == (if Decided(base) then DespawnOf(base.despawnRequest) else SpawnOf(id))
      && (x.SpawnSucceeded? ==> h.record.Some? && !Decided(base) && Decided(h.record.value))
  {
    assert RecordFits(w, id);
  }

  lemma CountAfter(notices: seq<Notice>, more: seq<Notice>, s: Subject)
    requires |more| <= 1
    ensures Count(notices + more, s) == Count(notices, s) + if more != [] && About(more[0]) == s then 1 else 0
  {
    if more == [] {
      assert notices + more == notices;
    } else {
      assert more == [more[0]];
      CountAppend(notices, more[0], s);
    }
  }

  lemma SpawnDueAfter(w: Component, id: nat, h: Handled, i: nat)
    requires Records(w) && MoveFits(w, id, h)
    ensures |h.notices| <= 1
    ensures SpawnDue(Put(w, id, h), i) ==
            SpawnDue(w, i) + if h.notices != [] && About(h.notices[0]) == SpawnOf(i) then 1 else 0
  {
    assert RecordFits(w, id);
    MoveTells(w, id, h);
    hide Moves;
  }

  lemma MoveSpawns(w: Component, id: nat, h: Handled)
    requires Records(w) && SpawnsTold(w) && MoveFits(w, id, h)
    ensures SpawnsTold(Put(w, id, h))
  {
    var w' := Put(w, id, h);
    forall i ensures Count(w'.notices, SpawnOf(i)) == SpawnDue(w', i) {
      assert Count(w.notices, SpawnOf(i)) == SpawnDue(w, i);
      hide Count, SpawnDue, Records, MoveFits;
      SpawnDueAfter(w, id, h, i);
      CountAfter(w.notices, h.notices, SpawnOf(i));
    }
  }

  lemma HeldAfter(w: Component, id: nat, h: Handled, d: nat)
    requires Records(w) && Apart(w) && MoveFits(w, id, h) && d != 0
    ensures Held(Put(w, id, h), d) <==> Held(w, d) && !(h.record.None? && w.instances[id].despawnRequest == d)
  {
    var w' := Put(w, id, h);
    if Held(w, d) {
      var i :| i in w.instances && w.instances[i].despawnRequest == d;
      if i != id {
        assert i in w'.instances && w'.instances[i].despawnRequest == d;
        assert w.instances[id].despawnRequest != d;
      } else if h.record.Some? {
        assert id in w'.instances && w'.instances[id].despawnRequest == d;
      }
    }
    if Held(w', d) {
      var i :| i in w'.instances && w'.instances[i].despawnRequest == d;
      assert i in w.instances && w.instances[i].despawnRequest == d;
    }
  }

  lemma DespawnDueAfter(w: Component, id: nat, h: Handled, d: nat)
    requires Records(w) && Apart(w) && MoveFits(w, id, h)
    ensures |h.notices| <= 1
    ensures DespawnDue(Put(w, id, h), d) ==
            DespawnDue(w, d) + if h.notices != [] && About(h.notices[0]) == DespawnOf(d) then 1 else 0
  {
    assert RecordFits(w, id);
    MoveTells(w, id, h);
    assert w.instances[id].despawnRequest != 0 ==> Held(w, w.instances[id].despawnRequest);
    if d != 0 { HeldAfter(w, id, h, d); }
    hide Apart, Held;
  }

  lemma MoveDespawns(w: Component, id: nat, h: Handled)
    requires Records(w) && DespawnsTold(w) && Apart(w) && MoveFits(w, id, h)
    ensures DespawnsTold(Put(w, id, h))
  {
    var w' := Put(w, id, h);
    forall d ensures Count(w'.notices, DespawnOf(d)) == DespawnDue(w', d) {
      assert Count(w.notices, DespawnOf(d)) == DespawnDue(w, d);
      hide Count, DespawnDue, Records, MoveFits, Apart;
      DespawnDueAfter(w, id, h, d);
      CountAfter(w.notices, h.notices, DespawnOf(d));
    }
  }

  lemma MoveSuccess(w: Component, id: nat, h: Handled)
    requires Records(w) && SuccessCommitted(w) && MoveFits(w, id, h)
    ensures SuccessCommitted(Put(w, id, h))
  {
    var w' := Put(w, id, h);
    assert RecordFits(w, id);
    MoveTells(w, id, h);
    forall i | Succeeded(w'.notices, i)
      ensures i in w'.callbacks && w'.callbacks[i].boundary.Committed?
      ensures i in w'.instances ==> Decided(w'.instances[i])
    {
      assert w.notices + [] == w.notices;
      if h.notices != [] { SucceededAppend(w.notices, h.notices[0], i); }
    }
  }

  lemma MoveKeeps(w: Component, id: nat, h: Handled)
    requires Invariant(w) && MoveFits(w, id, h)
    ensures Invariant(Put(w, id, h))
  {
    hide Records, Callbacks, SpawnsTold, SuccessCommitted, DespawnsTold, Apart, MoveFits;
    MoveRecords(w, id, h);
    MoveApart(w, id, h);
    MoveSpawns(w, id, h);
    MoveDespawns(w, id, h);
    MoveSuccess(w, id, h);
    PutKeepsCallbacks(w, id, h);
  }

  lemma PutKeepsCallbacks(w: Component, id: nat, h: Handled)
    requires Callbacks(w)
    ensures Callbacks(Put(w, id, h))
  {
  }

  // ----- a record appears, a despawn is accepted, a boundary moves -----

  function Add(w: Component, r: Record, nextCommand: nat): Component {
    var id := w.nextSpawn;
    w.(nextSpawn := id + 1, nextCommand := nextCommand, instances := w.instances[id := r],
       callbacks := w.callbacks[id := Callback(Cancelable, NoSpawnError, 0, None)])
  }

  lemma AddKeeps(w: Component, r: Record, nextCommand: nat)
    requires Invariant(w) && w.nextCommand <= nextCommand && Shaped(r, nextCommand)
    requires r.request == w.nextSpawn && !Past(r) && r.despawnRequest == 0
    requires r.pending == 0 || r.pending >= w.nextCommand
    requires forall id :: !Leases(w, id, r.lease)
    ensures Invariant(Add(w, r, nextCommand))
  {
    var w' := Add(w, r, nextCommand);
    AddApart(w, r, nextCommand);
    AddTold(w, r, nextCommand);
    hide Apart, SpawnsTold, DespawnsTold;
    assert forall id | id in w.instances :: RecordFits(w, id);
    forall id | id in w'.instances ensures RecordFits(w', id) { }
  }

  lemma AddTold(w: Component, r: Record, nextCommand: nat)
    requires Records(w) && SpawnsTold(w) && DespawnsTold(w) && !Past(r) && r.despawnRequest == 0
    ensures SpawnsTold(Add(w, r, nextCommand)) && DespawnsTold(Add(w, r, nextCommand))
  {
    var w' := Add(w, r, nextCommand);
    assert forall id | id in w.instances :: RecordFits(w, id);
    forall id ensures Count(w'.notices, SpawnOf(id)) == SpawnDue(w', id) {
      assert Count(w.notices, SpawnOf(id)) == SpawnDue(w, id);
    }
    forall d ensures Count(w'.notices, DespawnOf(d)) == DespawnDue(w', d) {
      assert Count(w.notices, DespawnOf(d)) == DespawnDue(w, d);
      if d != 0 { HeldSame(w, w', d); }
    }
  }

  lemma AddApart(w: Component, r: Record, nextCommand: nat)
    requires Records(w) && Apart(w) && r.despawnRequest == 0 && (r.pending == 0 || r.pending >= w.nextCommand)
    requires forall id :: !Leases(w, id, r.lease)
    ensures Apart(Add(w, r, nextCommand))
  {
    forall id | id in w.instances
      ensures w.instances[id].lease != r.lease && w.instances[id].pending < w.nextCommand
    {
      assert !Leases(w, id, r.lease) && RecordFits(w, id);
    }
  }

  /** Holding only depends on the nonzero despawn requests of the records. */
  lemma HeldSame(w: Component, w': Component, d: nat)
    requires forall id | id in w.instances ::
      id in w'.instances && w'.instances[id].despawnRequest == w.instances[id].despawnRequest
    requires forall id | id in w'.instances && w'.instances[id].despawnRequest == d :: id in w.instances
    ensures Held(w, d) <==> Held(w', d)
  {
    if Held(w, d) {
      var id :| id in w.instances && w.instances[id].despawnRequest == d;
      assert id in w'.instances && w'.instances[id].despawnRequest == d;
    }
  }

  /** An immediate refusal of a spawn. */
  lemma SpawnRefusedKeeps(w: Component, failure: SpawnFailure)
    requires Invariant(w)
    ensures Invariant(w.(nextSpawn := w.nextSpawn + 1, notices := w.notices + [SpawnFailed(w.nextSpawn, failure)]))
  {
    var n := SpawnFailed(w.nextSpawn, failure);
    var w' := w.(nextSpawn := w.nextSpawn + 1, notices := w.notices + [n]);
    assert forall id | id in w.instances :: RecordFits(w, id);
    forall id | id in w'.instances ensures RecordFits(w', id) { }
    forall id ensures Count(w'.notices, SpawnOf(id)) == SpawnDue(w', id) {
      assert Count(w.notices, SpawnOf(id)) == SpawnDue(w, id);
      CountAppend(w.notices, n, SpawnOf(id));
    }
    forall d ensures Count(w'.notices, DespawnOf(d)) == DespawnDue(w', d) {
      assert Count(w.notices, DespawnOf(d)) == DespawnDue(w, d);
      CountAppend(w.notices, n, DespawnOf(d));
      HeldSame(w, w', d);
    }
    forall id | Succeeded(w'.notices, id) ensures Succeeded(w.notices, id) {
      SucceededAppend(w.notices, n, id);
    }
  }

  /** An immediate refusal of a despawn. */
  lemma DespawnRefusedKeeps(w: Component, lease: nat, cause: DespawnFailure)
    requires Invariant(w)
    ensures Invariant(w.(nextDespawn := w.nextDespawn + 1,
                         notices := w.notices + [DespawnFailed(w.nextDespawn, lease, cause)]))
  {
    var n := DespawnFailed(w.nextDespawn, lease, cause);
    var w' := w.(nextDespawn := w.nextDespawn + 1, notices := w.notices + [n]);
    assert forall id | id in w.instances :: RecordFits(w, id);
    forall id | id in w'.instances ensures RecordFits(w', id) { }
    forall id ensures Count(w'.notices, SpawnOf(id)) == SpawnDue(w', id) {
      assert Count(w.notices, SpawnOf(id)) == SpawnDue(w, id);
      CountAppend(w.notices, n, SpawnOf(id));
    }
    forall d ensures Count(w'.notices, DespawnOf(d)) == DespawnDue(w', d) {
      assert Count(w.notices, DespawnOf(d)) == DespawnDue(w, d);
      CountAppend(w.notices, n, DespawnOf(d));
      HeldSame(w, w', d);
    }
    forall id | Succeeded(w'.notices, id) ensures Succeeded(w.notices, id) {
      SucceededAppend(w.notices, n, id);
    }
  }

  function Hold(w: Component, id: nat): Component
    requires id in w.instances
  {
    w.(nextDespawn := w.nextDespawn + 1,
       instances := w.instances[id := w.instances[id].(despawnRequest := w.nextDespawn)])
  }

  /** An active record takes the despawn request; nothing is due for it yet. */
  lemma HoldKeeps(w: Component, id: nat)
    requires Invariant(w) && id in w.instances && w.instances[id].phase.Active? && w.instances[id].despawnRequest == 0
    ensures Invariant(Hold(w, id))
  {
    var w' := Hold(w, id);
    assert forall i | i in w.instances :: RecordFits(w, i);
    forall i | i in w'.instances ensures RecordFits(w', i) { }
    forall i ensures Count(w'.notices, SpawnOf(i)) == SpawnDue(w', i) {
      assert Count(w.notices, SpawnOf(i)) == SpawnDue(w, i);
    }
    forall d ensures Count(w'.notices, DespawnOf(d)) == DespawnDue(w', d) {
      assert Count(w.notices, DespawnOf(d)) == DespawnDue(w, d);
      if d == w.nextDespawn {
        assert id in w'.instances && w'.instances[id].despawnRequest == d;
      } else if d != 0 {
        HeldElsewhere(w, id, d);
      }
    }
  }

  lemma HeldElsewhere(w: Component, id: nat, d: nat)
    requires id in w.instances && w.instances[id].despawnRequest == 0 && d != 0 && d != w.nextDespawn
    ensures Held(w, d) <==> Held(Hold(w, id), d)
  {
    var w' := Hold(w, id);
    if Held(w, d) {
      var i :| i in w.instances && w.instances[i].despawnRequest == d;
      assert i in w'.instances && w'.instances[i].despawnRequest == d;
    }
    if Held(w', d) {
      var i :| i in w'.instances && w'.instances[i].despawnRequest == d;
      assert i in w.instances && w.instances[i].despawnRequest == d;
    }
  }

  /** Callbacks may be updated as long as a decided boundary stays as it is. */
  lemma BoundaryKeeps(w: Component, id: nat, cb: Callback, more: set<nat>)
    requires Invariant(w) && id in w.callbacks
    requires !w.callbacks[id].boundary.Cancelable? ==> cb.boundary == w.callbacks[id].boundary
    requires cb.prepared != 0 ==> cb.boundary.Committed?
    requires more <= {id} && (more != {} ==> cb.boundary.Cancelled?)
    ensures Invariant(w.(callbacks := w.callbacks[id := cb], cancelled := w.cancelled + more))
  {
    var w' := w.(callbacks := w.callbacks[id := cb], cancelled := w.cancelled + more);
    assert forall i | i in w.instances :: RecordFits(w, i);
    forall i | i in w'.instances ensures RecordFits(w', i) { }
    forall i ensures Count(w'.notices, SpawnOf(i)) == SpawnDue(w', i) {
      assert Count(w.notices, SpawnOf(i)) == SpawnDue(w, i);
    }
    forall d ensures Count(w'.notices, DespawnOf(d)) == DespawnDue(w', d) {
      assert Count(w.notices, DespawnOf(d)) == DespawnDue(w, d);
      HeldSame(w, w', d);
    }
  }

  lemma CollectKeeps(w: Component, id: nat, entities: bool, problem: SpawnError, declarations: nat)
    requires Invariant(w)
    ensures Invariant(OnCollect(w, id, entities, problem, declarations))
    ensures OnCollect(w, id, entities, problem, declarations).instances == w.instances
  {
    var w' := OnCollect(w, id, entities, problem, declarations);
    assert forall i | i in w.instances :: RecordFits(w, i);
    forall i | i in w'.instances ensures RecordFits(w', i) { }
    forall i ensures Count(w'.notices, SpawnOf(i)) == SpawnDue(w', i) {
      assert Count(w.notices, SpawnOf(i)) == SpawnDue(w, i);
    }
    forall d ensures Count(w'.notices, DespawnOf(d)) == DespawnDue(w', d) {
      assert Count(w.notices, DespawnOf(d)) == DespawnDue(w, d);
      HeldSame(w, w', d);
    }
  }

  // ----- every event -----

  /** The invariant, at rest. */
  ghost predicate Sane(w: Component) {
    Invariant(w) && forall id | id in w.instances :: Rested(w.instances[id])
  }

  lemma MoveRested(w: Component, id: nat, base: Record, h: Handled)
    requires (forall i | i in w.instances && i != id :: Rested(w.instances[i])) && Moves(base, h, w.nextCommand)
    ensures forall i | i in Put(w, id, h).instances :: Rested(Put(w, id, h).instances[i])
  {
  }

  /** A reserved slot is not the slot of a living instance. */
  ghost predicate Enabled(w: Component, e: Event) {
    e.Spawn? && e.reservation.Reserved? ==> forall id :: !Leases(w, id, e.reservation.lease)
  }

  lemma SpawnKeeps(w: Component, e: Event)
    requires Sane(w) && e.Spawn? && Enabled(w, e)
    ensures Sane(OnSpawn(w, e))
  {
    hide Invariant, Reset, FailSpawn;
    if e.gate == NoSpawnError && e.finite && e.sceneFound && e.reservation.Reserved? {
      var r := NewRecord(w.nextSpawn, e.reservation.lease);
      assert forall id :: !Leases(w, id, r.lease);
      BornKeeps(w, r, e.answers);
      assert OnSpawn(w, e) == Born(w, r, e.answers);
    } else {
      SpawnRefusedKeeps(w, SpawnRefusal(e));
    }
  }

  function Born(w: Component, r: Record, a: Answers): Component {
    Put(w.(nextSpawn := w.nextSpawn + 1,
           callbacks := w.callbacks[w.nextSpawn := Callback(Cancelable, NoSpawnError, 0, None)]),
        w.nextSpawn, Reset(r, a, w.nextCommand))
  }

  /** A new record waits for its reset, or is already failing. */
  lemma BornKeeps(w: Component, r: Record, a: Answers)
    requires Sane(w) && r == NewRecord(w.nextSpawn, r.lease)
    requires forall id :: !Leases(w, id, r.lease)
    ensures Sane(Born(w, r, a))
  {
    hide Invariant, FailSpawn, Moves;
    var id, n, h := w.nextSpawn, w.nextCommand, Reset(r, a, w.nextCommand);
    FirstIds(w);
    if a.reset.Accepted? {
      AddKeeps(w, h.record.value, n + 1);
      assert w.notices + [] == w.notices;
      assert Born(w, r, a) == Add(w, h.record.value, n + 1);
    } else {
      BornFailing(w, r, a);
    }
  }

  lemma BornFailing(w: Component, r: Record, a: Answers)
    requires Sane(w) && r == NewRecord(w.nextSpawn, r.lease) && !a.reset.Accepted?
    requires forall id :: !Leases(w, id, r.lease)
    ensures Sane(Born(w, r, a))
  {
    hide Invariant, FailSpawn, Moves, Add;
    FirstIds(w);
    var id, n, h := w.nextSpawn, w.nextCommand, Reset(r, a, w.nextCommand);
    var base := r.(phase := Spawning, ticket := ValidTicket(0));
    var w1 := Add(w, base, n);
    AddKeeps(w, base, n);
    AddFields(w, base, n);
    FailMoves(base, r, Refusal(a.reset, SceneFailure), a, n);
    FailedIsNew(base, h, n);
    MoveKeeps(w1, id, h);
    MoveRested(w1, id, base, h);
    BornIsPut(w, base, r, a);
  }

  lemma AddFields(w: Component, r: Record, n: nat)
    ensures Add(w, r, n).nextCommand == n && w.nextSpawn in Add(w, r, n).instances
    ensures Add(w, r, n).instances[w.nextSpawn] == r
    ensures forall i | i in Add(w, r, n).instances && i != w.nextSpawn ::
      i in w.instances && Add(w, r, n).instances[i] == w.instances[i]
  {
  }

  lemma BornIsPut(w: Component, base: Record, r: Record, a: Answers)
    ensures Born(w, r, a) == Put(Add(w, base, w.nextCommand), w.nextSpawn, Reset(r, a, w.nextCommand))
  {
    hide Reset;
  }

  lemma FailedIsNew(base: Record, h: Handled, n: nat)
    requires Moves(base, h, n) && (h.record.Some? ==> h.record.value.terminalSpawnFailure)
    ensures h.record.Some? ==> !Past(h.record.value)
  {
  }

  lemma FirstIds(w: Component)
    requires Invariant(w)
    ensures Records(w) && Apart(w)
    ensures w.nextCommand > 0 && w.nextDespawn > 0
    ensures forall id | id in w.instances :: RecordFits(w, id)
  {
  }

  lemma DespawnKeeps(w: Component, e: Event)
    requires Sane(w) && e.Despawn?
    ensures Sane(OnDespawn(w, e))
  {
    var d := w.nextDespawn;
    hide Invariant, Moves;
    if e.closed != NoDespawnError {
      DespawnRefusedKeeps(w, e.lease, DespawnFailure(e.closed, Success, Success));
    } else if e.generation != w.generation || !exists id :: Leases(w, id, e.lease) {
      DespawnRefusedKeeps(w, e.lease, DespawnFailure(StaleInstance, Success, Success));
    } else {
      var id :| Leases(w, id, e.lease) && OnDespawn(w, e) == DespawnAt(w, id, e);
      DespawnAtKeeps(w, id, e);
    }
  }

  lemma DespawnAtKeeps(w: Component, id: nat, e: Event)
    requires Sane(w) && e.Despawn? && id in w.instances
    ensures Sane(DespawnAt(w, id, e))
  {
    hide Invariant, Moves, BeginDespawn;
    assert Rested(w.instances[id]);
    var d := w.nextDespawn;
    if !w.instances[id].phase.Active? {
      DespawnRefusedKeeps(w, e.lease, DespawnFailure(InstanceNotActive, Success, Success));
    } else {
      FirstIds(w);
      assert RecordFits(w, id);
      var h := BeginDespawn(w.instances[id], d, e.answers, w.nextCommand);
      HoldKeeps(w, id);
      DespawnMoves(w.instances[id], d, e.answers, w.nextCommand);
      MoveKeeps(Hold(w, id), id, h);
      assert DespawnAt(w, id, e) == Put(Hold(w, id), id, h);
      MoveRested(Hold(w, id), id, w.instances[id].(despawnRequest := d), h);
    }
  }

  lemma CommandKeeps(w: Component, id: nat, result: ResultCode, a: Answers)
    requires Sane(w) && id in w.instances && id in w.callbacks && w.instances[id].pending != 0
    ensures Sane(Answer1(w, id, result, a))
  {
    FirstIds(w);
    assert RecordFits(w, id);
    var r, n := w.instances[id], w.nextCommand;
    var h := OnCommand(r, result, w.callbacks[id].boundary, a, n);
    hide Invariant, Moves, OnCommand;
    CommandMoves(r, result, w.callbacks[id].boundary, a, n);
    StaysPast(r, h, n);
    MoveKeeps(w, id, h);
    MoveRested(w, id, r, h);
    var w' := Put(w, id, h);
    CallbackFits(w, id);
    if h.record.Some? && h.record.value.phase.Spawning? && h.record.value.ticket.ValidTicket? {
      BoundaryKeeps(w', id, w.callbacks[id].(ticket := Some(h.record.value.ticket.id)), {});
      assert w'.cancelled + {} == w'.cancelled;
    }
  }

  lemma CallbackFits(w: Component, id: nat)
    requires Invariant(w) && id in w.callbacks
    ensures w.callbacks[id].prepared != 0 ==> w.callbacks[id].boundary.Committed?
  {
  }

  lemma StaysPast(r: Record, h: Handled, n: nat)
    requires Shaped(r, n) && r.pending != 0 && Moves(r, h, n)
    ensures h.record.Some? && Past(h.record.value) ==> Past(r)
  {
  }

  lemma SpawnCompletedKeeps(w: Component, generation: nat, c: Completion, a: Answers)
    requires Sane(w)
    ensures Sane(OnSpawnCompleted(w, generation, c, a))
  {
    if OnSpawnCompleted(w, generation, c, a) != w && c in w.queued && c.request in w.instances {
      FirstIds(w);
      assert RecordFits(w, c.request);
      var r, n := w.instances[c.request], w.nextCommand;
      var h := OnCollected(r, c.error, c.declarations, a, n);
      assert c.error == NoSpawnError ==> w.callbacks[c.request].boundary.Committed?;
      hide Invariant, Moves, OnCollected;
      CollectedMoves(r, c.error, c.declarations, a, n);
      MoveKeeps(w, c.request, h);
      MoveRested(w, c.request, r, h);
    }
  }

  lemma DespawnCompletedKeeps(w: Component, generation: nat, id: nat, ticketId: nat, a: Answers)
    requires Sane(w)
    ensures Sane(OnDespawnCompleted(w, generation, id, ticketId, a))
  {
    if OnDespawnCompleted(w, generation, id, ticketId, a) != w && id in w.instances {
      FirstIds(w);
      assert RecordFits(w, id);
      var r, n := w.instances[id], w.nextCommand;
      var h := OnDespawned(r, a, n);
      DespawnedMoves(r, a, n);
      StaysPastDespawned(r, h, n);
      hide Invariant, Moves, OnDespawned;
      MoveKeeps(w, id, h);
      MoveRested(w, id, r, h);
    }
  }

  lemma StaysPastDespawned(r: Record, h: Handled, n: nat)
    requires r.phase.DespawningEntities? && Moves(r, h, n)
    ensures h.record.Some? && Past(h.record.value) ==> Past(r)
  {
  }

  lemma NextKeeps(w: Component, e: Event)
    requires Sane(w) && Enabled(w, e)
    ensures Sane(Next(w, e))
  {
    hide Invariant, OnSpawn, OnDespawn, OnCollect, OnSpawnCompleted, OnDespawnCompleted, Answer1, Enabled;
    match e
    case Spawn(_, _, _, _, _) => SpawnKeeps(w, e);
    case Despawn(_, _, _, _) => DespawnKeeps(w, e);
    case Cancel(generation, id) =>
      if Cancels(w, generation, id) {
        CallbackFits(w, id);
        BoundaryKeeps(w, id, w.callbacks[id].(boundary := Cancelled), {id});
      }
    case Prepare(id, problem) =>
      FirstIds(w);
      if OnPrepare(w, id, problem) != w && id in w.callbacks {
        BoundaryKeeps(w, id, OnPrepare(w, id, problem).callbacks[id], {});
        assert w.cancelled + {} == w.cancelled;
      }
    case Collect(id, entities, problem, declarations) => CollectKeeps(w, id, entities, problem, declarations);
    case SpawnCompleted(generation, c, a) => SpawnCompletedKeeps(w, generation, c, a);
    case DespawnCompleted(generation, id, ticketId, a) => DespawnCompletedKeeps(w, generation, id, ticketId, a);
    case CommandCompleted(command, commandType, result, a) =>
      if command != 0 && exists id :: Waits(w, id, command) {
        var id :| Waits(w, id, command) && OnCommandCompleted(w, command, commandType, result, a) ==
          if w.instances[id].pendingType == commandType && id in w.callbacks then Answer1(w, id, result, a) else w;
        if id in w.callbacks { CommandKeeps(w, id, result, a); }
      }
  }

  // ----- whole runs -----

  function Start(generation: nat, topologySize: nat): Component {
    Component(generation, topologySize, 1, 1, 1, map[], map[], {}, {}, [])
  }

  ghost predicate IsRun(run: seq<Component>, events: seq<Event>) {
    && |run| == |events| + 1
    && forall i | 0 <= i < |events| :: Enabled(run[i], events[i]) && run[i + 1] == Next(run[i], events[i])
  }

  lemma {:induction false} RunKeeps(run: seq<Component>, events: seq<Event>, generation: nat, topologySize: nat, i: nat)
    requires IsRun(run, events) && run[0] == Start(generation, topologySize) && topologySize > 0 && i <= |events|
    ensures Sane(run[i])
  {
    hide Next, Sane, Enabled;
    if i == 0 {
      StartSane(generation, topologySize);
    } else {
      RunKeeps(run, events, generation, topologySize, i - 1);
      assert run[i - 1 + 1] == Next(run[i - 1], events[i - 1]);
      NextKeeps(run[i - 1], events[i - 1]);
    }
  }

  lemma StartSane(generation: nat, topologySize: nat)
    requires topologySize > 0
    ensures Sane(Start(generation, topologySize))
  {
  }

  /** After any sequence of requests, cancellations, callbacks, completions and command results: no request's owner has
      been told two outcomes; a request whose record is gone has had exactly one, and one whose record is still on its
      way has had none; and no cancelled request has succeeded. */
  lemma OutcomesAreUnique(run: seq<Component>, events: seq<Event>, generation: nat, topologySize: nat, i: nat)
    requires IsRun(run, events) && run[0] == Start(generation, topologySize) && topologySize > 0 && i <= |events|
    ensures var w := run[i];
      && (forall id: nat | 0 < id < w.nextSpawn :: Count(w.notices, SpawnOf(id)) ==
            if id in w.instances && !Decided(w.instances[id]) then 0 else 1)
      && (forall d: nat | 0 < d < w.nextDespawn :: Count(w.notices, DespawnOf(d)) == if Held(w, d) then 0 else 1)
      && (forall id | id in w.cancelled :: !Succeeded(w.notices, id))
  {
    RunKeeps(run, events, generation, topologySize, i);
    var w := run[i];
    forall id: nat | 0 < id < w.nextSpawn
      ensures Count(w.notices, SpawnOf(id)) == if id in w.instances && !Decided(w.instances[id]) then 0 else 1
    {
      assert Count(w.notices, SpawnOf(id)) == SpawnDue(w, id);
    }
    forall d: nat | 0 < d < w.nextDespawn
      ensures Count(w.notices, DespawnOf(d)) == if Held(w, d) then 0 else 1
    {
      assert Count(w.notices, DespawnOf(d)) == DespawnDue(w, d);
    }
  }

  /** Granting a cancellation settles the matter: whatever happens before or after, the request never succeeds. */
  lemma {:induction false} CancelExcludesSuccess(run: seq<Component>, events: seq<Event>, generation: nat,
                                                topologySize: nat, k: nat, i: nat)
    requires IsRun(run, events) && run[0] == Start(generation, topologySize) && topologySize > 0
    requires k < |events| && events[k].Cancel? && Cancels(run[k], events[k].generation, events[k].request)
    requires i <= |events|
    ensures !Succeeded(run[i].notices, events[k].request)
  {
    var id := events[k].request;
    assert run[k + 1] == Next(run[k], events[k]);
    assert id in run[k + 1].cancelled;
    if i > k {
      CancelledStays(run, events, id, k + 1, i);
      OutcomesAreUnique(run, events, generation, topologySize, i);
    } else {
      OutcomesAreUnique(run, events, generation, topologySize, k + 1);
      if Succeeded(run[i].notices, id) { ToldStays(run, events, id, i, k + 1); }
    }
  }

  lemma NextGrows(w: Component, e: Event, id: nat)
    ensures w.cancelled <= Next(w, e).cancelled
    ensures w.notices <= Next(w, e).notices
  {
    hide OnCommand, OnCollected, OnDespawned, BeginDespawn, Reset;
  }

  lemma {:induction false} CancelledStays(run: seq<Component>, events: seq<Event>, id: nat, k: nat, i: nat)
    requires IsRun(run, events) && k <= i <= |events| && id in run[k].cancelled
    ensures id in run[i].cancelled
    decreases i
  {
    hide Next;
    if i > k {
      CancelledStays(run, events, id, k, i - 1);
      assert run[i - 1 + 1] == Next(run[i - 1], events[i - 1]);
      NextGrows(run[i - 1], events[i - 1], id);
    }
  }

  lemma {:induction false} ToldStays(run: seq<Component>, events: seq<Event>, id: nat, k: nat, i: nat)
    requires IsRun(run, events) && k <= i <= |events| && Succeeded(run[k].notices, id)
    ensures Succeeded(run[i].notices, id)
    decreases i
  {
    hide Next;
    if i > k {
      ToldStays(run, events, id, k, i - 1);
      assert run[i - 1 + 1] == Next(run[i - 1], events[i - 1]);
      NextGrows(run[i - 1], events[i - 1], id);
      var j :| 0 <= j < |run[i - 1].notices| && run[i - 1].notices[j].SpawnSucceeded? &&
            run[i - 1].notices[j].request == id;
      assert run[i].notices[j] == run[i - 1].notices[j];
    }
  }

  // ----- progress -----

  /** `e` answers the operation record `id` waits for. */
  predicate AnswerTo(w: Component, id: nat, e: Event)
    requires id in w.instances
  {
    var r := w.instances[id];
    match e
    case CommandCompleted(command, commandType, _, _) => command == r.pending != 0 && commandType == r.pendingType
    case SpawnCompleted(generation, c, _) =>
      generation == w.generation && c in w.queued && c.request == id && r.phase.Spawning? &&
          r.ticket == ValidTicket(c.ticket)
    case DespawnCompleted(generation, request, ticketId, _) =>
      generation == w.generation && request == id && r.phase.DespawningEntities? && r.ticket == ValidTicket(ticketId)
    case _ => false
  }

  /** An answered record is gone or strictly closer to its end, so five answers settle any spawn and five any
      despawn. */
  lemma AnswerDescends(w: Component, id: nat, e: Event)
    requires Sane(w) && id in w.instances && AnswerTo(w, id, e)
    ensures id in Next(w, e).instances ==> Rank(Next(w, e).instances[id].phase) < Rank(w.instances[id].phase)
  {
    FirstIds(w);
    assert RecordFits(w, id);
    var r, n := w.instances[id], w.nextCommand;
    hide Invariant, OnCommand, OnCollected, OnDespawned;
    match e
    case CommandCompleted(command, commandType, result, a) =>
      CommandMoves(r, result, w.callbacks[id].boundary, a, n);
      ResultFindsRecord(w, id, command, commandType, result, a);
      DescendsTo(w, id, OnCommand(r, result, w.callbacks[id].boundary, a, n), Next(w, e));
    case SpawnCompleted(generation, c, a) =>
      CollectedMoves(r, c.error, c.declarations, a, n);
      DescendsTo(w, id, OnCollected(r, c.error, c.declarations, a, n), Next(w, e));
    case DespawnCompleted(generation, request, ticketId, a) =>
      DespawnedMoves(r, a, n);
      DescendsTo(w, id, OnDespawned(r, a, n), Next(w, e));
  }

  lemma SameWaiter(w: Component, i: nat, j: nat)
    requires Apart(w) && i in w.instances && Waits(w, j, w.instances[i].pending) && w.instances[i].pending != 0
    ensures i == j
  {
  }

  /** A command result reaches the one record that waits for the command. */
  lemma ResultFindsRecord(w: Component, id: nat, command: nat, commandType: CommandType, result: ResultCode, a: Answers)
    requires Sane(w) && Waits(w, id, command) && command != 0
    ensures id in w.callbacks && Shaped(w.instances[id], w.nextCommand)
    ensures OnCommandCompleted(w, command, commandType, result, a) ==
            if w.instances[id].pendingType == commandType then Answer1(w, id, result, a) else w
  {
    FirstIds(w);
    assert RecordFits(w, id);
    hide Invariant, Answer1;
    var found :| Waits(w, found, command) && OnCommandCompleted(w, command, commandType, result, a) ==
      if w.instances[found].pendingType == commandType && found in w.callbacks then Answer1(w, found, result, a) else w;
    SameWaiter(w, id, found);
  }

  lemma DescendsTo(w: Component, id: nat, h: Handled, w': Component)
    requires id in w.instances && Moves(w.instances[id], h, w.nextCommand) && w'.instances == Put(w, id, h).instances
    ensures id in w'.instances ==> Rank(w'.instances[id].phase) < Rank(w.instances[id].phase)
  {
  }

  /** A record at rest in any phase but the active one has exactly one operation outstanding. */
  lemma OneOutstanding(w: Component, id: nat)
    requires Sane(w) && id in w.instances && !w.instances[id].phase.Active?
    ensures var r := w.instances[id];
      && (r.pending != 0 <==> !r.phase.Spawning? && !r.phase.DespawningEntities?)
      && (r.pending == 0 ==> r.ticket.ValidTicket?)
      && (r.pending != 0 ==>
            forall other | other in w.instances && other != id :: w.instances[other].pending != r.pending)
  {
    assert RecordFits(w, id);
  }
}
