/** Leasing slots: handles carry the slot's generation, and a release moves the generation on. */
module SlotLeases {
  import opened Generations

  datatype Slot = Slot(generation: nat, reserved: bool)

  datatype Partition = Partition(id: nat, slots: seq<Slot>)

  datatype Spawner = Spawner(partition: nat, generation: nat)

  datatype Handle = Handle(spawner: Spawner, slot: nat, generation: nat)

  datatype LeaseCode = Leased | PartitionMismatch | SlotUnavailable | StaleHandle | ControllersActive

  /** The spawner names partition `p`: it is well-formed, and `p` is the first partition with its id. */
  predicate IsNamed(ps: seq<Partition>, spawner: Spawner, p: nat) {
    && spawner.partition != 0 && spawner.generation == 1 && p < |ps| && ps[p].id == spawner.partition
    && forall q | 0 <= q < p :: ps[q].id != spawner.partition
  }

  predicate HasFree(slots: seq<Slot>) { exists i :: 0 <= i < |slots| && !slots[i].reserved }

  /** The first partition with the spawner's id, or the number of partitions. */
  function FindPartition(ps: seq<Partition>, spawner: Spawner): (p: nat)
    ensures p <= |ps| && (p < |ps| ==> spawner == Spawner(ps[p].id, 1) && IsNamed(ps, spawner, p))
    ensures p == |ps| ==> forall q :: !IsNamed(ps, spawner, q)
  {
    if spawner.partition == 0 || spawner.generation != 1 then |ps| else FirstPartition(ps, spawner.partition)
  }

  function FirstPartition(ps: seq<Partition>, id: nat): (p: nat)
    ensures p <= |ps| && (p < |ps| ==> ps[p].id == id)
    ensures forall q | 0 <= q < p :: ps[q].id != id
  {
    if ps == [] then 0 else if ps[0].id == id then 0 else FirstPartition(ps[1..], id) + 1
  }

  /** Whether the handle resolves. */
  predicate Resolves(ps: seq<Partition>, h: Handle) {
    var p := FindPartition(ps, h.spawner);
    p < |ps| && h.slot < |ps[p].slots| && ps[p].slots[h.slot].reserved && ps[p].slots[h.slot].generation == h.generation
  }

  /** Generations are 32-bit and never zero. */
  ghost predicate Sound(ps: seq<Partition>) {
    forall p, i | 0 <= p < |ps| && 0 <= i < |ps[p].slots| :: 0 < ps[p].slots[i].generation <= MAX32
  }

  function PutSlot(ps: seq<Partition>, p: nat, i: nat, slot: Slot): seq<Partition>
    requires p < |ps| && i < |ps[p].slots|
  {
    ps[p := ps[p].(slots := ps[p].slots[i := slot])]
  }

  lemma {:induction false} SamePartition(ps: seq<Partition>, qs: seq<Partition>, id: nat)
    requires |ps| == |qs| && forall p | 0 <= p < |ps| :: ps[p].id == qs[p].id
    ensures FirstPartition(ps, id) == FirstPartition(qs, id)
  {
    if ps != [] {
      SamePartition(ps[1..], qs[1..], id);
    }
  }

  /** Changing one slot leaves every handle on another slot as it was. */
  lemma OtherHandles(ps: seq<Partition>, p: nat, i: nat, slot: Slot, h: Handle)
    requires p < |ps| && i < |ps[p].slots|
    ensures FindPartition(PutSlot(ps, p, i, slot), h.spawner) == FindPartition(ps, h.spawner)
    ensures FindPartition(ps, h.spawner) != p || h.slot != i ==>
          (Resolves(PutSlot(ps, p, i, slot), h) <==> Resolves(ps, h))
    ensures FindPartition(ps, h.spawner) == p && h.slot == i ==>
              (Resolves(PutSlot(ps, p, i, slot), h) <==> slot.reserved && slot.generation == h.generation)
  {
    SamePartition(ps, PutSlot(ps, p, i, slot), h.spawner.partition);
  }

  /** Two resolving handles of one spawner are on different slots unless they are the same handle. */
  lemma NoAliasing(ps: seq<Partition>, a: Handle, b: Handle)
    requires Resolves(ps, a) && Resolves(ps, b)
    requires FindPartition(ps, a.spawner) == FindPartition(ps, b.spawner) && a.slot == b.slot
    ensures a == b
  {
  }

  class SlotTable {
    var partitions: seq<Partition>

    ghost predicate Valid()
      reads this
    {
      Sound(partitions)
    }

    constructor (partitions: seq<Partition>)
      requires forall p, i | 0 <= p < |partitions| && 0 <= i < |partitions[p].slots| ::
        partitions[p].slots[i] == Slot(1, false)
      ensures Valid() && this.partitions == partitions
    {
      this.partitions := partitions;
    }

    /** Leases the first free slot; the new handle resolves, and so does every handle that did before. */
    method ReserveSlot(spawner: Spawner) returns (code: LeaseCode, h: Handle)
      requires Valid()
      modifies this
      ensures Valid()
      ensures code == NextCode(old(partitions), Reserve(spawner)) &&
            partitions == Next(old(partitions), Reserve(spawner))
      ensures code == Leased <==>
                exists p: nat :: IsNamed(old(partitions), spawner, p) && HasFree(old(partitions)[p].slots)
      ensures code == Leased ==> h.spawner == spawner && !Resolves(old(partitions), h) && Resolves(partitions, h)
      ensures forall other | Resolves(old(partitions), other) :: Resolves(partitions, other)
      ensures forall other | Resolves(partitions, other) && !Resolves(old(partitions), other) ::
        code == Leased && other == h
    {
      h := Handle(spawner, 0, 0);
      ReserveMeans(partitions, spawner);
      var p := FindPartition(partitions, spawner);
      if p == |partitions| {
        return PartitionMismatch, h;
      }
      var i := FirstFree(partitions[p].slots);
      if i == |partitions[p].slots| {
        return SlotUnavailable, h;
      }
      var slot := partitions[p].slots[i];
      ghost var before := partitions;
      partitions := PutSlot(partitions, p, i, slot.(reserved := true));
      h := Handle(spawner, i, slot.generation);
      forall other ensures Resolves(before, other) ==> Resolves(partitions, other)
                   ensures Resolves(partitions, other) && !Resolves(before, other) ==> other == h
      {
        OtherHandles(before, p, i, slot.(reserved := true), other);
      }
      OtherHandles(before, p, i, slot.(reserved := true), h);
      return Leased, h;
    }

    /** Resetting takes the handles and refusals of a release but keeps the lease; what it clears belongs to the
        scene. */
    method ResetSlot(h: Handle, hasControllers: bool) returns (code: LeaseCode)
      requires Valid()
      ensures code == NextCode(partitions, Reset(h, hasControllers))
      ensures partitions == Next(partitions, Reset(h, hasControllers))
    {
      if !Resolves(partitions, h) {
        return StaleHandle;
      }
      if hasControllers {
        return ControllersActive;
      }
      return Leased;
    }

    /** Releases the slot of a resolving handle without controllers; exactly that handle stops resolving. */
    method ReleaseSlot(h: Handle, hasControllers: bool) returns (code: LeaseCode)
      requires Valid()
      modifies this
      ensures Valid()
      ensures code == NextCode(old(partitions), Release(h, hasControllers))
      ensures partitions == Next(old(partitions), Release(h, hasControllers))
      ensures code == Leased ==> forall other :: Resolves(partitions, other) <==>
                Resolves(old(partitions), other) &&
                !(FindPartition(old(partitions), other.spawner) == FindPartition(old(partitions), h.spawner) &&
                    other.slot == h.slot)
      ensures code != Leased ==> partitions == old(partitions)
    {
      if !Resolves(partitions, h) {
        return StaleHandle;
      }
      if hasControllers {
        return ControllersActive;
      }
      var p := FindPartition(partitions, h.spawner);
      var slot := partitions[p].slots[h.slot];
      ghost var before := partitions;
      var free := Slot(NextGeneration(slot.generation), false);
      partitions := PutSlot(partitions, p, h.slot, free);
      forall other
        ensures Resolves(partitions, other) <==>
                Resolves(before, other) && !(FindPartition(before, other.spawner) == p && other.slot == h.slot)
      {
        OtherHandles(before, p, h.slot, free, other);
      }
      return Leased;
    }
  }

  function FirstFree(slots: seq<Slot>): (i: nat)
    ensures i <= |slots| && (i < |slots| ==> !slots[i].reserved)
    ensures forall k | 0 <= k < i :: slots[k].reserved
  {
    if slots == [] then 0 else if !slots[0].reserved then 0 else FirstFree(slots[1..]) + 1
  }

  // ----- runs -----

  datatype Operation =
    | Reserve(spawner: Spawner)
    | Reset(handle: Handle, hasControllers: bool)
    | Release(handle: Handle, hasControllers: bool)

  function NextCode(ps: seq<Partition>, op: Operation): LeaseCode {
    match op
    case Reserve(spawner) =>
      var p := FindPartition(ps, spawner);
      if p == |ps| then PartitionMismatch
      else if FirstFree(ps[p].slots) == |ps[p].slots| then SlotUnavailable else Leased
    case Reset(h, hasControllers) => HandleCode(ps, h, hasControllers)
    case Release(h, hasControllers) => HandleCode(ps, h, hasControllers)
  }

  function HandleCode(ps: seq<Partition>, h: Handle, hasControllers: bool): LeaseCode {
    if !Resolves(ps, h) then StaleHandle else if hasControllers then ControllersActive else Leased
  }

  function Next(ps: seq<Partition>, op: Operation): seq<Partition> {
    if NextCode(ps, op) != Leased then ps
    else match op
      case Reserve(spawner) =>
        var p := FindPartition(ps, spawner);
        var i := FirstFree(ps[p].slots);
        PutSlot(ps, p, i, ps[p].slots[i].(reserved := true))
      case Reset(_, _) => ps
      case Release(h, _) =>
        var p := FindPartition(ps, h.spawner);
        PutSlot(ps, p, h.slot, Slot(NextGeneration(ps[p].slots[h.slot].generation), false))
  }

  /** A reservation is refused only for a partition nobody knows or one without a free slot; otherwise the first free
      slot of the named partition is leased under the generation it has, and nothing else changes. */
  lemma ReserveMeans(ps: seq<Partition>, spawner: Spawner)
    ensures var code := NextCode(ps, Reserve(spawner));
      && (code == PartitionMismatch <==> forall p: nat :: !IsNamed(ps, spawner, p))
      && (code == SlotUnavailable <==> exists p: nat :: IsNamed(ps, spawner, p) && !HasFree(ps[p].slots))
      && (code == Leased <==> exists p: nat :: IsNamed(ps, spawner, p) && HasFree(ps[p].slots))
    ensures var qs := Next(ps, Reserve(spawner));
      if NextCode(ps, Reserve(spawner)) != Leased then qs == ps
      else exists p: nat, i: nat ::
        && IsNamed(ps, spawner, p) && i < |ps[p].slots| && !ps[p].slots[i].reserved
        && (forall k | 0 <= k < i :: ps[p].slots[k].reserved)
        && qs == ps[p := Partition(ps[p].id, ps[p].slots[i := Slot(ps[p].slots[i].generation, true)])]
  {
    var p := FindPartition(ps, spawner);
    if p < |ps| {
      NamedOnce(ps, spawner, p);
      var i := FirstFree(ps[p].slots);
      if i < |ps[p].slots| {
        assert !ps[p].slots[i].reserved;
      }
    }
  }

  lemma NamedOnce(ps: seq<Partition>, spawner: Spawner, p: nat)
    requires IsNamed(ps, spawner, p)
    ensures forall q: nat | IsNamed(ps, spawner, q) :: q == p
    ensures FindPartition(ps, spawner) == p
  {
  }

  /** A handle resolves to the slot it names while that slot is leased under the handle's generation. */
  lemma ResolvesMeans(ps: seq<Partition>, h: Handle)
    ensures Resolves(ps, h) <==> exists p: nat ::
              && IsNamed(ps, h.spawner, p) && h.slot < |ps[p].slots|
              && ps[p].slots[h.slot] == Slot(h.generation, true)
  {
    var p := FindPartition(ps, h.spawner);
    if p < |ps| { NamedOnce(ps, h.spawner, p); }
  }

  /** Resets and releases refuse a handle that does not resolve, then one whose instance has controllers. A release
      frees the slot and moves its generation on; a reset leaves the leases alone. */
  lemma ReturnMeans(ps: seq<Partition>, h: Handle, hasControllers: bool)
    ensures forall op | op in {Reset(h, hasControllers), Release(h, hasControllers)} ::
              && (NextCode(ps, op) == StaleHandle <==> !Resolves(ps, h))
              && (NextCode(ps, op) == ControllersActive <==> Resolves(ps, h) && hasControllers)
              && (NextCode(ps, op) == Leased <==> Resolves(ps, h) && !hasControllers)
    ensures Next(ps, Reset(h, hasControllers)) == ps
    ensures var qs := Next(ps, Release(h, hasControllers));
      if !Resolves(ps, h) || hasControllers then qs == ps
      else exists p: nat ::
        && IsNamed(ps, h.spawner, p) && h.slot < |ps[p].slots|
        && qs == ps[p := Partition(ps[p].id, ps[p].slots[h.slot :=
                   Slot(if h.generation < MAX32 then h.generation + 1 else 1, false)])]
  {
  }

  function Run(ps: seq<Partition>, ops: seq<Operation>): seq<Partition> {
    if ops == [] then ps else Next(Run(ps, ops[..|ops| - 1]), ops[|ops| - 1])
  }

  /** Whether `op` releases slot `i` of partition `p`. */
  predicate Hits(ps: seq<Partition>, op: Operation, p: nat, i: nat) {
    op.Release? && NextCode(ps, op) == Leased && FindPartition(ps, op.handle.spawner) == p && op.handle.slot == i
  }

  /** How often the slot is released in a run. */
  function Releases(ps: seq<Partition>, ops: seq<Operation>, p: nat, i: nat): nat {
    if ops == [] then 0
    else Releases(ps, ops[..|ops| - 1], p, i) +
         if Hits(Run(ps, ops[..|ops| - 1]), ops[|ops| - 1], p, i) then 1 else 0
  }

  ghost predicate SameShape(ps: seq<Partition>, qs: seq<Partition>) {
    |ps| == |qs| && forall p | 0 <= p < |ps| :: ps[p].id == qs[p].id && |ps[p].slots| == |qs[p].slots|
  }

  lemma NextShape(ps: seq<Partition>, op: Operation, p: nat, i: nat)
    requires p < |ps| && i < |ps[p].slots|
    ensures SameShape(ps, Next(ps, op))
    ensures Next(ps, op)[p].slots[i].generation ==
            if Hits(ps, op, p, i) then NextGeneration(ps[p].slots[i].generation) else ps[p].slots[i].generation
    ensures ps[p].slots[i].reserved && !Hits(ps, op, p, i) ==> Next(ps, op)[p].slots[i].reserved
  {
  }

  lemma {:induction false} RunGeneration(ps: seq<Partition>, ops: seq<Operation>, p: nat, i: nat)
    requires Sound(ps) && p < |ps| && i < |ps[p].slots|
    ensures SameShape(ps, Run(ps, ops))
    ensures Run(ps, ops)[p].slots[i].generation == Later(ps[p].slots[i].generation, Releases(ps, ops, p, i))
    ensures ps[p].slots[i].reserved && Releases(ps, ops, p, i) == 0 ==> Run(ps, ops)[p].slots[i].reserved
  {
    if ops == [] {
      LaterSame(ps[p].slots[i].generation, 0);
    } else {
      var front := ops[..|ops| - 1];
      RunGeneration(ps, front, p, i);
      NextShape(Run(ps, front), ops[|ops| - 1], p, i);
      LaterNext(ps[p].slots[i].generation, Releases(ps, front, p, i));
    }
  }

  /** A handle that resolves now resolves after any run exactly when its slot is leased and has been released a multiple
      of 2^32 - 1 times: it keeps resolving until it is released, and a released handle stays dead until the slot has
      been released, its own release counted, 2^32 - 1 times. */
  lemma HandleAfterRun(ps: seq<Partition>, ops: seq<Operation>, h: Handle)
    requires Sound(ps) && Resolves(ps, h)
    ensures var p := FindPartition(ps, h.spawner);
      var n := Releases(ps, ops, p, h.slot);
      && p < |Run(ps, ops)| && h.slot < |Run(ps, ops)[p].slots|
      && (Resolves(Run(ps, ops), h) <==> Run(ps, ops)[p].slots[h.slot].reserved && n % MAX32 == 0)
      && (n == 0 ==> Resolves(Run(ps, ops), h))
      && (0 < n < MAX32 ==> !Resolves(Run(ps, ops), h))
  {
    var p := FindPartition(ps, h.spawner);
    RunGeneration(ps, ops, p, h.slot);
    SamePartition(ps, Run(ps, ops), h.spawner.partition);
    LaterSame(h.generation, Releases(ps, ops, p, h.slot));
    SmallCount(Releases(ps, ops, p, h.slot));
  }

  /** Generations never reach zero. */
  lemma {:induction false} RunSound(ps: seq<Partition>, ops: seq<Operation>)
    requires Sound(ps)
    ensures Sound(Run(ps, ops))
  {
    if ops != [] {
      RunSound(ps, ops[..|ops| - 1]);
    }
  }

  // ----- a released handle that resolves again -----

  /** A scene with one slot, in use. */
  function OneSlot(generation: nat): seq<Partition> { [Partition(1, [Slot(generation, true)])] }

  const OWNER := Spawner(1, 1)

  /** The slot is released and leased again, `n` times. */
  function Recycle(n: nat): seq<Operation> {
    if n == 0 then []
    else Recycle(n - 1) + [Release(Handle(OWNER, 0, Later(1, n - 1)), false), Reserve(OWNER)]
  }

  lemma OneCycle(g: nat)
    ensures var h := Handle(OWNER, 0, g);
      && Hits(OneSlot(g), Release(h, false), 0, 0)
      && Next(Next(OneSlot(g), Release(h, false)), Reserve(OWNER)) == OneSlot(NextGeneration(g))
  {
    hide NextGeneration;
    assert FindPartition(OneSlot(g), OWNER) == 0;
    var freed := PutSlot(OneSlot(g), 0, 0, Slot(NextGeneration(g), false));
    assert OneSlot(g)[0].slots[0 := Slot(NextGeneration(g), false)] == [Slot(NextGeneration(g), false)];
    assert freed[0].slots[0 := Slot(NextGeneration(g), true)] == [Slot(NextGeneration(g), true)];
    assert freed == [Partition(1, [Slot(NextGeneration(g), false)])];
    assert FindPartition(freed, OWNER) == 0 && FirstFree(freed[0].slots) == 0;
  }

  lemma {:induction false} RecycleRun(n: nat)
    ensures Run(OneSlot(1), Recycle(n)) == OneSlot(Later(1, n)) && Releases(OneSlot(1), Recycle(n), 0, 0) == n
  {
    hide Later, NextGeneration;
    if n == 0 {
      LaterSame(1, 0);
    } else {
      RecycleRun(n - 1);
      var ps, g := OneSlot(1), Later(1, n - 1);
      var release, reserve := Release(Handle(OWNER, 0, g), false), Reserve(OWNER);
      OneCycle(g);
      LaterNext(1, n - 1);
      var half := Recycle(n - 1) + [release];
      assert half[..|half| - 1] == Recycle(n - 1);
      assert Recycle(n) == half + [reserve] && Recycle(n)[..|Recycle(n)| - 1] == half;
      assert Run(ps, half) == Next(OneSlot(g), release);
      assert Run(ps, Recycle(n)) == Next(Run(ps, half), reserve);
    }
  }

  /** After 2^32 - 1 releases of its slot, its own among them, a released handle resolves again; likewise after any
      multiple of that. */
  lemma ReleasedResolvesAgain(laps: nat)
    ensures var h, ps, ops := Handle(OWNER, 0, 1), OneSlot(1), Recycle(laps * MAX32);
      && Sound(ps) && Resolves(ps, h) && Releases(ps, ops, 0, 0) == laps * MAX32
      && (laps > 0 ==> ops != [] && ops[0] == Release(h, false)) && Resolves(Run(ps, ops), h)
  {
    hide Run, Releases, Recycle, Next;
    RecycleRun(laps * MAX32);
    LaterSame(1, laps * MAX32);
    WholeLaps(laps);
    if laps > 0 { RecycleFirst(laps * MAX32); }
    assert FindPartition(OneSlot(1), OWNER) == 0;
  }

  lemma {:induction false} RecycleFirst(n: nat)
    requires n > 0
    ensures Recycle(n) != [] && Recycle(n)[0] == Release(Handle(OWNER, 0, 1), false)
  {
    if n == 1 { LaterSame(1, 0); } else { RecycleFirst(n - 1); }
  }
}
