/** Deciding, before anything is touched, whether a list of controller declarations can be attached. */
module ControllerPreparation {
  import opened ControllerTargets

  datatype AttachCode =
    | Success
    | StaleHandle
    | ControllersActive
    | FactoryNotFound
    | InvalidConfiguration
    | TargetNotFound
    | TargetOutsideInstance
    | WriteConflict
    | ConstructionFailed

  /** What a target reference resolves to inside the instance's slot. */
  datatype Resolution = Resolved(node: nat) | OutsideInstance | Unresolved

  datatype Mode = Granted(access: Access) | UnknownMode

  /** A declared target: its slot name (zero is empty) and either an entity or a binding id. */
  datatype Reference = Reference(slot: nat, usesEntity: bool, usesBinding: bool, mode: Mode, resolution: Resolution)

  /** A declared controller; names and type ids are ordered as their texts are, zero being empty or null. `factory` says
      whether a factory for exactly this type is found. */
  datatype Declaration = Declaration(executionOrder: int, provider: nat, id: nat, typeId: nat, configured: bool,
                                     factory: bool, targets: seq<Reference>)

  predicate DeclarationOrder(a: Declaration, b: Declaration) {
    if a.executionOrder != b.executionOrder then a.executionOrder < b.executionOrder
    else if a.provider != b.provider then a.provider < b.provider
    else if a.id != b.id then a.id < b.id
    else a.typeId <= b.typeId
  }

  // ----- what may be attached -----

  ghost predicate UniqueId(ds: seq<Declaration>, k: nat)
    requires k < |ds|
  {
    forall i | 0 <= i < |ds| && i != k :: ds[i].id != ds[k].id
  }

  /** The declaration is complete, and no other one has its id. */
  ghost predicate Complete(ds: seq<Declaration>, k: nat)
    requires k < |ds|
  {
    ds[k].id != 0 && ds[k].typeId != 0 && ds[k].configured && ds[k].targets != [] && UniqueId(ds, k)
  }

  ghost predicate WellReferenced(refs: seq<Reference>, j: nat)
    requires j < |refs|
  {
    && refs[j].slot != 0 && refs[j].usesEntity != refs[j].usesBinding && refs[j].mode.Granted?
    && forall i | 0 <= i < |refs| && i != j :: refs[i].slot != refs[j].slot
  }

  /** The reference resolves to a node none of the earlier references names. */
  ghost predicate NewNode(refs: seq<Reference>, j: nat)
    requires j < |refs| && refs[j].resolution.Resolved?
  {
    forall i | 0 <= i < j :: refs[i].resolution != refs[j].resolution
  }

  predicate Claims(ref: Reference, n: nat) {
    ref.mode == Granted(ReadWrite) && ref.resolution == Resolved(n)
  }

  /** A write reference before reference `j` of declaration `k` names node `n`. */
  ghost predicate TakenBefore(ds: seq<Declaration>, k: nat, j: nat, n: nat) {
    exists a: nat, b: nat :: Before(ds, a, b, k, j) && Claims(ds[a].targets[b], n)
  }

  predicate Before(ds: seq<Declaration>, a: nat, b: nat, k: nat, j: nat) {
    a < |ds| && b < |ds[a].targets| && (a < k || (a == k && b < j))
  }

  ghost predicate ReferenceOk(ds: seq<Declaration>, owners: seq<nat>, k: nat, j: nat)
    requires k < |ds| && j < |ds[k].targets|
  {
    var ref := ds[k].targets[j];
    && WellReferenced(ds[k].targets, j)
    && ref.resolution.Resolved? && ref.resolution.node < |owners| && NewNode(ds[k].targets, j)
    && (ref.mode.access.ReadWrite? ==>
          owners[ref.resolution.node] == 0 && !TakenBefore(ds, k, j, ref.resolution.node))
  }

  ghost predicate DeclarationOk(ds: seq<Declaration>, owners: seq<nat>, k: nat)
    requires k < |ds|
  {
    && Complete(ds, k) && ds[k].factory
    && forall j | 0 <= j < |ds[k].targets| :: ReferenceOk(ds, owners, k, j)
  }

  /** Every declaration is complete, every target resolves once, and no node gets two writers. */
  ghost predicate Attachable(ds: seq<Declaration>, owners: seq<nat>) {
    forall k | 0 <= k < |ds| :: DeclarationOk(ds, owners, k)
  }

  ghost predicate InNodes(ds: seq<Declaration>, nodes: nat) {
    forall k, j | 0 <= k < |ds| && 0 <= j < |ds[k].targets| && ds[k].targets[j].resolution.Resolved? ::
      ds[k].targets[j].resolution.node < nodes
  }

  /** `code` names something wrong with reference `j` of declaration `k`. */
  ghost predicate ReferenceFault(ds: seq<Declaration>, owners: seq<nat>, k: nat, j: nat, code: AttachCode)
    requires k < |ds| && j < |ds[k].targets|
  {
    var ref := ds[k].targets[j];
    match code
    case InvalidConfiguration =>
      !WellReferenced(ds[k].targets, j) || (ref.resolution.Resolved? && !NewNode(ds[k].targets, j))
    case TargetOutsideInstance => ref.resolution.OutsideInstance?
    case TargetNotFound => ref.resolution.Unresolved?
    case WriteConflict =>
      && ref.resolution.Resolved? && ref.mode == Granted(ReadWrite)
      && ref.resolution.node < |owners|
      && (owners[ref.resolution.node] != 0 || TakenBefore(ds, k, j, ref.resolution.node))
    case _ => false
  }

  ghost predicate DeclarationFault(ds: seq<Declaration>, owners: seq<nat>, k: nat, code: AttachCode)
    requires k < |ds|
  {
    || (code == InvalidConfiguration && !Complete(ds, k))
    || (code == FactoryNotFound && !ds[k].factory)
    || (exists j :: 0 <= j < |ds[k].targets| && ReferenceFault(ds, owners, k, j, code))
  }

  lemma TakenNext(ds: seq<Declaration>, k: nat, j: nat, n: nat)
    requires k < |ds| && j < |ds[k].targets|
    ensures TakenBefore(ds, k, j + 1, n) <==> TakenBefore(ds, k, j, n) || Claims(ds[k].targets[j], n)
  {
    if TakenBefore(ds, k, j, n) {
      var a: nat, b: nat :| Before(ds, a, b, k, j) && Claims(ds[a].targets[b], n);
      assert Before(ds, a, b, k, j + 1);
    }
    if Claims(ds[k].targets[j], n) {
      assert Before(ds, k, j, k, j + 1);
    }
    if TakenBefore(ds, k, j + 1, n) {
      var a: nat, b: nat :| Before(ds, a, b, k, j + 1) && Claims(ds[a].targets[b], n);
      assert Before(ds, a, b, k, j) || (a == k && b == j);
    }
  }

  lemma TakenWrap(ds: seq<Declaration>, k: nat, n: nat)
    requires k < |ds|
    ensures TakenBefore(ds, k + 1, 0, n) <==> TakenBefore(ds, k, |ds[k].targets|, n)
    ensures !TakenBefore(ds, 0, 0, n)
  {
    if TakenBefore(ds, k, |ds[k].targets|, n) {
      var a: nat, b: nat :| Before(ds, a, b, k, |ds[k].targets|) && Claims(ds[a].targets[b], n);
      assert Before(ds, a, b, k + 1, 0);
    }
    if TakenBefore(ds, k + 1, 0, n) {
      var a: nat, b: nat :| Before(ds, a, b, k + 1, 0) && Claims(ds[a].targets[b], n);
      assert Before(ds, a, b, k, |ds[k].targets|);
    }
  }

  /** `pending` marks exactly the nodes taken so far. */
  ghost predicate Marks(ds: seq<Declaration>, pending: seq<nat>, k: nat, j: nat) {
    forall n: nat | n < |pending| :: pending[n] != 0 <==> TakenBefore(ds, k, j, n)
  }

  /** Checks the references of one declaration, marking the nodes it will write. */
  method CheckReferences(ds: seq<Declaration>, owners: seq<nat>, k: nat, before: seq<nat>)
    returns (code: AttachCode, pending: seq<nat>)
    requires k < |ds| && InNodes(ds, |owners|) && |before| == |owners| && Marks(ds, before, k, 0)
    ensures code == Success ==>
              && (forall j | 0 <= j < |ds[k].targets| :: ReferenceOk(ds, owners, k, j))
              && |pending| == |owners| && Marks(ds, pending, k, |ds[k].targets|)
    ensures code != Success ==>
              exists j :: 0 <= j < |ds[k].targets| && ReferenceFault(ds, owners, k, j, code) &&
                  !ReferenceOk(ds, owners, k, j)
  {
    hide TakenBefore, WellReferenced, NewNode;
    var refs := ds[k].targets;
    pending := before;
    for j := 0 to |refs|
      invariant forall i | 0 <= i < j :: ReferenceOk(ds, owners, k, i)
      invariant |pending| == |owners| && Marks(ds, pending, k, j)
    {
      code, pending := CheckReference(ds, owners, k, j, pending);
      if code != Success {
        return;
      }
    }
    code := Success;
  }

  method CheckReference(ds: seq<Declaration>, owners: seq<nat>, k: nat, j: nat, before: seq<nat>)
    returns (code: AttachCode, pending: seq<nat>)
    requires k < |ds| && j < |ds[k].targets| && InNodes(ds, |owners|)
    requires |before| == |owners| && Marks(ds, before, k, j)
    ensures code == Success ==> ReferenceOk(ds, owners, k, j) && |pending| == |owners| && Marks(ds, pending, k, j + 1)
    ensures code != Success ==> ReferenceFault(ds, owners, k, j, code) && !ReferenceOk(ds, owners, k, j)
  {
    hide TakenBefore;
    var refs := ds[k].targets;
    var ref := refs[j];
    pending := before;
    if ref.slot == 0 || ref.usesEntity == ref.usesBinding
      || (exists i :: 0 <= i < |refs| && i != j && refs[i].slot == ref.slot)
       || ref.mode.UnknownMode? {
      return InvalidConfiguration, pending;
    }
    if !ref.resolution.Resolved? {
      return if ref.resolution.OutsideInstance? then TargetOutsideInstance else TargetNotFound, pending;
    }
    if exists i :: 0 <= i < j && refs[i].resolution == ref.resolution {
      return InvalidConfiguration, pending;
    }
    var node := ref.resolution.node;
    if ref.mode.access == ReadWrite {
      if owners[node] != 0 || pending[node] != 0 {
        return WriteConflict, pending;
      }
      pending := pending[node := k + 1];
    }
    forall n: nat | n < |pending| ensures pending[n] != 0 <==> TakenBefore(ds, k, j + 1, n) {
      TakenNext(ds, k, j, n);
    }
    return Success, pending;
  }

  /** The preparation pass: succeeds exactly when the declarations can be attached, and otherwise names a fault. */
  method Prepare(ds: seq<Declaration>, owners: seq<nat>) returns (code: AttachCode)
    requires InNodes(ds, |owners|)
    ensures code == Success <==> Attachable(ds, owners)
    ensures code != Success ==> exists k :: 0 <= k < |ds| && DeclarationFault(ds, owners, k, code)
  {
    hide TakenBefore, ReferenceOk, ReferenceFault, WellReferenced, NewNode;
    var pending := seq(|owners|, _ => 0);
    forall n: nat | n < |pending| ensures !TakenBefore(ds, 0, 0, n) {
      if ds != [] { TakenWrap(ds, 0, n); } else { NothingTaken(ds, n); }
    }
    for k := 0 to |ds|
      invariant forall i | 0 <= i < k :: DeclarationOk(ds, owners, i)
      invariant |pending| == |owners| && Marks(ds, pending, k, 0)
    {
      var d := ds[k];
      if d.id == 0 || d.typeId == 0 || !d.configured || d.targets == []
         || (exists i :: 0 <= i < |ds| && i != k && ds[i].id == d.id) {
        assert !DeclarationOk(ds, owners, k) && DeclarationFault(ds, owners, k, InvalidConfiguration);
        return InvalidConfiguration;
      }
      if !d.factory {
        assert !DeclarationOk(ds, owners, k) && DeclarationFault(ds, owners, k, FactoryNotFound);
        return FactoryNotFound;
      }
      code, pending := CheckReferences(ds, owners, k, pending);
      if code != Success {
        assert !DeclarationOk(ds, owners, k) && DeclarationFault(ds, owners, k, code);
        return;
      }
      forall n: nat | n < |pending| ensures pending[n] != 0 <==> TakenBefore(ds, k + 1, 0, n) {
        TakenWrap(ds, k, n);
      }
    }
    code := Success;
  }

  lemma NothingTaken(ds: seq<Declaration>, n: nat)
    ensures !TakenBefore(ds, 0, 0, n)
  {
  }
}
