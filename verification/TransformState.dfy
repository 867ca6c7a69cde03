/** Runtime transform records, the exact frontier of directly dirty nodes, and the shared revision clock. */
module TransformStates {
  import opened Sequences
  import opened Polytrees

  /** Revisions and generations are unsigned 64-bit counters. */
  const MAX64: nat := 0xFFFF_FFFF_FFFF_FFFF

  /** Unchecked `++` on an unsigned 64-bit counter. */
  function Increment64(x: nat): nat { if x == MAX64 then 0 else x + 1 }

  lemma Increment64Wraps(x: nat)
    requires x <= MAX64
    ensures Increment64(x) == (x + 1) % (MAX64 + 1) && Increment64(x) != x
  {
  }

  datatype TransformError =
    | Ok
    | InvalidNode
    | StateSizeMismatch
    | InvalidScope
    | StalePlan
    | TopologyMismatch
    | RevisionExhausted

  datatype Record<T> = Record(local: T, world: T, localRevision: nat, worldRevision: nat, dirty: bool)

  function Dirty<T>(records: seq<Record<T>>): set<nat> {
    set v: nat | v < |records| && records[v].dirty
  }

  function Locals<T>(records: seq<Record<T>>): seq<T> {
    seq(|records|, v requires 0 <= v < |records| => records[v].local)
  }

  /** The value of a transform state. */
  datatype State<T> = State(records: seq<Record<T>>, frontier: seq<nat>, revision: nat,
                            mutationGeneration: nat, evaluationGeneration: nat)
  {
    /** The frontier names every directly dirty node, once. */
    ghost predicate Exact() {
      Distinct(frontier) && Elements(frontier) == Dirty(records)
    }

    /** No record carries a revision later than the clock. */
    ghost predicate Clocked() {
      forall v: nat | v < |records| ::
        records[v].localRevision <= revision && records[v].worldRevision <= revision
    }

    ghost predicate Valid() {
      Exact() && revision <= MAX64
    }
  }

  /** A successful local edit, or a successful dirty mark when `local` repeats the stored value and revision. */
  function Touch<T>(s: State<T>, v: nat, r: Record<T>): State<T>
    requires v < |s.records| && s.revision < MAX64
  {
    State(s.records[v := r],
          if s.records[v].dirty then s.frontier else s.frontier + [v],
          s.revision + 1, Increment64(s.mutationGeneration), s.evaluationGeneration)
  }

  function Edit<T>(s: State<T>, v: nat, local: T): State<T>
    requires v < |s.records| && s.revision < MAX64
  {
    Touch(s, v, s.records[v].(local := local, localRevision := s.revision + 1, dirty := true))
  }

  function Mark<T>(s: State<T>, v: nat): State<T>
    requires v < |s.records| && s.revision < MAX64
  {
    Touch(s, v, s.records[v].(dirty := true))
  }

  /** What a local edit or a dirty mark reports. */
  function EditError<T>(s: State<T>, v: nat): TransformError {
    if v >= |s.records| then InvalidNode else if s.revision >= MAX64 then RevisionExhausted else Ok
  }

  lemma TouchKeepsValid<T>(s: State<T>, v: nat, r: Record<T>)
    requires s.Valid() && v < |s.records| && s.revision < MAX64 && r.dirty
    ensures Touch(s, v, r).Valid()
    ensures Dirty(Touch(s, v, r).records) == Dirty(s.records) + {v}
  {
    var s' := Touch(s, v, r);
    if !s.records[v].dirty {
      assert v !in Elements(s.frontier);
    }
    assert Elements(s'.frontier) == Elements(s.frontier) + {v};
  }

  lemma FrontierInRange<T>(s: State<T>)
    requires s.Valid()
    ensures forall i | 0 <= i < |s.frontier| :: s.frontier[i] < |s.records|
    ensures s.frontier == [] <==> Dirty(s.records) == {}
    ensures Elements(s.frontier) == Dirty(s.records)
  {
    assert forall i | 0 <= i < |s.frontier| :: s.frontier[i] in Elements(s.frontier);
    if s.frontier != [] {
      assert s.frontier[0] in Dirty(s.records);
    }
  }

  class TransformState<T> {
    var records: seq<Record<T>>
    var dirtyNodes: seq<nat>
    var revision: nat
    var mutationGeneration: nat
    var evaluationGeneration: nat

    function Value(): State<T>
      reads this
    {
      State(records, dirtyNodes, revision, mutationGeneration, evaluationGeneration)
    }

    /** The frontier starts as the dirty records in handle order. */
    constructor (records: seq<Record<T>>, revision: nat)
      requires revision <= MAX64
      ensures Value().Valid()
      ensures this.records == records && this.revision == revision
      ensures mutationGeneration == 1 && evaluationGeneration == 0
      ensures forall i, j | 0 <= i < j < |dirtyNodes| :: dirtyNodes[i] < dirtyNodes[j]
    {
      this.records := records;
      this.revision := revision;
      dirtyNodes := [];
      mutationGeneration := 1;
      evaluationGeneration := 0;
      new;
      for node := 0 to |records|
        invariant this.records == records && this.revision == revision
        invariant mutationGeneration == 1 && evaluationGeneration == 0
        invariant forall i, j | 0 <= i < j < |dirtyNodes| :: dirtyNodes[i] < dirtyNodes[j]
        invariant forall v: nat :: v in dirtyNodes <==> v < node && records[v].dirty
      {
        assert forall i | 0 <= i < |dirtyNodes| :: dirtyNodes[i] in dirtyNodes;
        if records[node].dirty {
          dirtyNodes := dirtyNodes + [node];
        }
      }
      assert Elements(dirtyNodes) == Dirty(records);
    }

    method SetLocal(node: nat, local: T) returns (error: TransformError)
      requires Value().Valid()
      modifies this
      ensures Value().Valid()
      ensures error == EditError(old(Value()), node)
      ensures Value() == if error == Ok then Edit(old(Value()), node, local) else old(Value())
      ensures error == if node >= |old(records)| then InvalidNode
                       else if old(revision) == MAX64 then RevisionExhausted else Ok
      ensures error == Ok ==>
        && |records| == |old(records)| && revision == old(revision) + 1
        && records[node].local == local && records[node].localRevision == revision && records[node].dirty
        && records[node].world == old(records[node].world)
        && records[node].worldRevision == old(records[node].worldRevision)
        && (forall v | 0 <= v < |records| && v != node :: records[v] == old(records)[v])
        && dirtyNodes == old(dirtyNodes) + (if old(records[node].dirty) then [] else [node])
        && mutationGeneration != old(mutationGeneration) && evaluationGeneration == old(evaluationGeneration)
    {
      if node >= |records| {
        return InvalidNode;
      }
      if revision == MAX64 {
        return RevisionExhausted;
      }
      ghost var before := Value();
      TouchKeepsValid(before, node, Edit(before, node, local).records[node]);
      if !records[node].dirty {
        dirtyNodes := dirtyNodes + [node];
      }
      revision := revision + 1;
      mutationGeneration := Increment64(mutationGeneration);
      records := records[node := records[node].(local := local, localRevision := revision, dirty := true)];
      return Ok;
    }

    method MarkDirty(node: nat) returns (error: TransformError)
      requires Value().Valid()
      modifies this
      ensures Value().Valid()
      ensures error == EditError(old(Value()), node)
      ensures Value() == if error == Ok then Mark(old(Value()), node) else old(Value())
      ensures error == if node >= |old(records)| then InvalidNode
                       else if old(revision) == MAX64 then RevisionExhausted else Ok
      ensures error == Ok ==>
        && |records| == |old(records)| && revision == old(revision) + 1
        && records[node].local == old(records[node].local) && records[node].dirty
        && records[node].localRevision == old(records[node].localRevision)
        && records[node].world == old(records[node].world)
        && records[node].worldRevision == old(records[node].worldRevision)
        && (forall v | 0 <= v < |records| && v != node :: records[v] == old(records)[v])
        && dirtyNodes == old(dirtyNodes) + (if old(records[node].dirty) then [] else [node])
        && mutationGeneration != old(mutationGeneration) && evaluationGeneration == old(evaluationGeneration)
    {
      if node >= |records| {
        return InvalidNode;
      }
      if revision == MAX64 {
        return RevisionExhausted;
      }
      ghost var before := Value();
      TouchKeepsValid(before, node, Mark(before, node).records[node]);
      if !records[node].dirty {
        dirtyNodes := dirtyNodes + [node];
      }
      revision := revision + 1;
      mutationGeneration := Increment64(mutationGeneration);
      records := records[node := records[node].(dirty := true)];
      return Ok;
    }

    /** Opens an evaluation batch and returns its world revision. */
    method BeginEvaluation(hasWork: bool) returns (batch: nat)
      requires hasWork ==> revision < MAX64
      modifies this
      ensures Value() == old(Value()).(evaluationGeneration := Increment64(old(evaluationGeneration)),
                                       revision := batch)
      ensures batch == old(revision) + if hasWork then 1 else 0
      ensures evaluationGeneration != old(evaluationGeneration)
    {
      evaluationGeneration := Increment64(evaluationGeneration);
      if hasWork {
        revision := revision + 1;
      }
      return revision;
    }

    /** Drops the nodes that are no longer dirty from the frontier, keeping the others in place. */
    method CompactDirtyFrontier()
      requires forall v | v in dirtyNodes :: v < |records|
      modifies this`dirtyNodes
      ensures dirtyNodes == Restrict(old(dirtyNodes), Dirty(records))
    {
      var kept := [];
      for i := 0 to |dirtyNodes|
        invariant dirtyNodes == old(dirtyNodes)
        invariant kept == Restrict(dirtyNodes[..i], Dirty(records))
      {
        assert dirtyNodes[..i + 1][..i] == dirtyNodes[..i];
        assert dirtyNodes[i] in dirtyNodes;
        if records[dirtyNodes[i]].dirty {
          kept := kept + [dirtyNodes[i]];
        }
      }
      assert dirtyNodes[..|dirtyNodes|] == dirtyNodes;
      dirtyNodes := kept;
    }
  }
}
