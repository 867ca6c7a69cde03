/** The authoring side: an ordered mutable forest and one local-transform record per stable node. */
module AuthoringScenes {
  import opened TransformStates

  /** Stable ids are nonzero; zero marks "no parent". */
  const INVALID_STABLE_NODE: nat := 0

  datatype MutationOutcome = Done | RevisionsExhausted | Refused

  datatype AuthoringRecord<T> = AuthoringRecord(local: T, localRevision: nat)

  /** The value of an authoring scene. `parents` is the mutable forest as a map from id to parent id. */
  datatype Authoring<T> = Authoring(parents: map<nat, nat>, records: map<nat, AuthoringRecord<T>>, revision: nat) {

    /** Every node has a record, and no record is ahead of the clock. */
    ghost predicate Coupled() {
      && INVALID_STABLE_NODE !in parents
      && records.Keys == parents.Keys
      && revision <= MAX64
      && (forall id | id in records :: records[id].localRevision <= revision)
    }
  }

  /** Authoring operations, each with what the topology library answers: a fresh id, whether it accepts the mutation,
      or the ids a subtree removal takes out. */
  datatype AuthoringOp<T> =
    | InsertRoot(id: nat, local: T, accepted: bool)
    | InsertChild(id: nat, parent: nat, local: T, accepted: bool)
    | SetLocal(id: nat, local: T)
    | Reparent(id: nat, newParent: nat, accepted: bool)
    | DetachToRoot(id: nat, accepted: bool)
    | EraseSubtree(id: nat, removed: set<nat>)

  /** What the library may answer. */
  predicate Legal<T>(a: Authoring<T>, op: AuthoringOp<T>) {
    match op
    case InsertRoot(id, _, _) => id != INVALID_STABLE_NODE && id !in a.parents
    case InsertChild(id, parent, _, accepted) =>
      id != INVALID_STABLE_NODE && id !in a.parents && (accepted ==> parent in a.parents)
    case SetLocal(_, _) => true
    case Reparent(id, newParent, accepted) => accepted ==> id in a.parents && newParent in a.parents
    case DetachToRoot(id, accepted) => accepted ==> id in a.parents
    case EraseSubtree(id, removed) =>
      id in a.parents ==>
        id in removed && removed <= a.parents.Keys && IsSubtree(a, id, removed)
  }

  /** Besides `id` itself, a node belongs exactly if its parent does. */
  predicate IsSubtree<T>(a: Authoring<T>, id: nat, removed: set<nat>) {
    forall v | v in a.parents && v != id :: v in removed <==> a.parents[v] in removed
  }

  /** In a forest, that leaves one set only: what is erased is determined by the node. */
  lemma {:induction false} ErasedAt<T>(a: Authoring<T>, id: nat, r: set<nat>, s: set<nat>, depth: map<nat, nat>, v: nat)
    requires a.Coupled() && id in a.parents && v in a.parents
    requires Legal(a, EraseSubtree(id, r)) && Legal(a, EraseSubtree(id, s))
    requires forall u | u in a.parents ::
      u in depth && (a.parents[u] in a.parents ==> a.parents[u] in depth && depth[a.parents[u]] < depth[u])
    ensures v in r <==> v in s
    decreases if v in depth then depth[v] else 0
  {
    if v != id && a.parents[v] in a.parents {
      ErasedAt(a, id, r, s, depth, a.parents[v]);
    }
  }

  function ParentOf<T>(a: Authoring<T>, id: nat): nat {
    if id in a.parents then a.parents[id] else INVALID_STABLE_NODE
  }

  function Outcome<T>(a: Authoring<T>, op: AuthoringOp<T>): MutationOutcome {
    var exhausted := a.revision == MAX64;
    match op
    case InsertRoot(_, _, accepted) =>
      if exhausted then RevisionsExhausted else if accepted then Done else Refused
    case InsertChild(_, _, _, accepted) =>
      if exhausted then RevisionsExhausted else if accepted then Done else Refused
    case SetLocal(id, _) =>
      if id !in a.parents then Refused else if exhausted then RevisionsExhausted else Done
    case Reparent(id, newParent, accepted) =>
      if ParentOf(a, id) != newParent && exhausted then RevisionsExhausted else if accepted then Done else Refused
    case DetachToRoot(id, accepted) =>
      if ParentOf(a, id) != INVALID_STABLE_NODE && exhausted then RevisionsExhausted
      else if accepted then Done else Refused
    case EraseSubtree(id, _) =>
      if exhausted then RevisionsExhausted else if id in a.parents then Done else Refused
  }

  /** The scene after an operation; anything but `Done` leaves it as it was. */
  function NextAuthoring<T>(a: Authoring<T>, op: AuthoringOp<T>): Authoring<T>
    requires Legal(a, op)
  {
    if Outcome(a, op) != Done then a
    else
      match op
      case InsertRoot(id, local, _) =>
        Authoring(a.parents[id := INVALID_STABLE_NODE],
                  a.records[id := AuthoringRecord(local, a.revision + 1)], a.revision + 1)
      case InsertChild(id, parent, local, _) =>
        Authoring(a.parents[id := parent], a.records[id := AuthoringRecord(local, a.revision + 1)], a.revision + 1)
      case SetLocal(id, local) =>
        Authoring(a.parents, a.records[id := AuthoringRecord(local, a.revision + 1)], a.revision + 1)
      case Reparent(id, newParent, _) =>
        Authoring(a.parents[id := newParent], a.records,
                  if a.parents[id] != newParent then a.revision + 1 else a.revision)
      case DetachToRoot(id, _) =>
        Authoring(a.parents[id := INVALID_STABLE_NODE], a.records,
                  if a.parents[id] != INVALID_STABLE_NODE then a.revision + 1 else a.revision)
      case EraseSubtree(id, removed) =>
        Authoring(a.parents - removed, a.records - removed, a.revision + 1)
  }

  /** In a linear history every later record is an earlier one or was written after the earlier clock. */
  ghost predicate Follows<T>(a: Authoring<T>, b: Authoring<T>) {
    && a.revision <= b.revision
    && forall id | id in b.records ::
      || (id in a.records && b.records[id] == a.records[id])
      || a.revision < b.records[id].localRevision
  }

  lemma NextFollows<T>(a: Authoring<T>, op: AuthoringOp<T>)
    requires a.Coupled() && Legal(a, op)
    ensures NextAuthoring(a, op).Coupled() && Follows(a, NextAuthoring(a, op))
  {
    if Outcome(a, op) == Done && op.EraseSubtree? {
      assert a.records.Keys - op.removed == a.parents.Keys - op.removed;
    }
  }

  // ----- what the operations do -----

  /** `b` differs from `a` only in the parent of `id`, which may be new. */
  ghost predicate Moved<T>(a: Authoring<T>, b: Authoring<T>, id: nat, parent: nat) {
    && b.parents.Keys == a.parents.Keys + {id} && id in b.parents && b.parents[id] == parent
    && forall other | other in a.parents && other != id :: other in b.parents && b.parents[other] == a.parents[other]
  }

  /** `b` differs from `a` only in the record of `id`, written under the next revision. */
  ghost predicate Rewritten<T>(a: Authoring<T>, b: Authoring<T>, id: nat, local: T) {
    && b.revision == a.revision + 1
    && b.records.Keys == a.records.Keys + {id} && id in b.records
    && b.records[id] == AuthoringRecord(local, a.revision + 1)
    && forall other | other in a.records && other != id :: other in b.records && b.records[other] == a.records[other]
  }

  /** When an operation is done, when the clock stops it, and that it changes nothing otherwise. */
  lemma OperationDone<T>(a: Authoring<T>, op: AuthoringOp<T>)
    requires a.Coupled() && Legal(a, op)
    ensures Outcome(a, op) != Done ==> NextAuthoring(a, op) == a
    ensures Outcome(a, op) == Done <==> match op
              case InsertRoot(_, _, accepted) => accepted && a.revision < MAX64
              case InsertChild(_, _, _, accepted) => accepted && a.revision < MAX64
              case SetLocal(id, _) => id in a.parents && a.revision < MAX64
              case Reparent(id, parent, accepted) => accepted && (a.parents[id] == parent || a.revision < MAX64)
              case DetachToRoot(id, accepted) =>
                accepted && (a.parents[id] == INVALID_STABLE_NODE || a.revision < MAX64)
              case EraseSubtree(id, _) => id in a.parents && a.revision < MAX64
    ensures Outcome(a, op) == RevisionsExhausted <==> a.revision == MAX64 && match op
              case SetLocal(id, _) => id in a.parents
              case Reparent(id, parent, _) => (if id in a.parents then a.parents[id] else INVALID_STABLE_NODE) != parent
              case DetachToRoot(id, _) => id in a.parents && a.parents[id] != INVALID_STABLE_NODE
              case _ => true
  {
  }

  /** What an operation that is done has changed, and that it has changed nothing else. */
  lemma OperationMeans<T>(a: Authoring<T>, op: AuthoringOp<T>)
    requires a.Coupled() && Legal(a, op) && Outcome(a, op) == Done
    ensures var b := NextAuthoring(a, op);
      match op
      case InsertRoot(id, local, _) => Moved(a, b, id, INVALID_STABLE_NODE) && Rewritten(a, b, id, local)
      case InsertChild(id, parent, local, _) => Moved(a, b, id, parent) && Rewritten(a, b, id, local)
      case SetLocal(id, local) => b.parents == a.parents && Rewritten(a, b, id, local)
      case Reparent(id, parent, _) =>
        && Moved(a, b, id, parent) && b.records == a.records
        && b.revision == a.revision + if a.parents[id] == parent then 0 else 1
      case DetachToRoot(id, _) =>
        && Moved(a, b, id, INVALID_STABLE_NODE) && b.records == a.records
        && b.revision == a.revision + if a.parents[id] == INVALID_STABLE_NODE then 0 else 1
      case EraseSubtree(id, removed) =>
        && b.revision == a.revision + 1
        && b.parents.Keys == a.parents.Keys - removed && b.records.Keys == b.parents.Keys
        && forall v | v in b.parents :: b.parents[v] == a.parents[v] && b.records[v] == a.records[v]
  {
    if op.EraseSubtree? {
      assert a.records.Keys - op.removed == a.parents.Keys - op.removed;
    }
  }

  class AuthoringScene<T> {
    var parents: map<nat, nat>
    var records: map<nat, AuthoringRecord<T>>
    var revision: nat

    function Value(): Authoring<T>
      reads this
    {
      Authoring(parents, records, revision)
    }

    constructor ()
      ensures Value() == Authoring(map[], map[], 0) && Value().Coupled()
    {
      parents, records, revision := map[], map[], 0;
    }

    /** Gives a freshly inserted node its record. */
    method InsertRecord(id: nat, local: T)
      requires revision < MAX64
      modifies this`records, this`revision
      ensures revision == old(revision) + 1 && records == old(records)[id := AuthoringRecord(local, revision)]
    {
      revision := revision + 1;
      records := records[id := AuthoringRecord(local, revision)];
    }

    method DoInsertRoot(id: nat, local: T, accepted: bool) returns (outcome: MutationOutcome)
      requires Value().Coupled() && Legal(Value(), InsertRoot(id, local, accepted))
      modifies this
      ensures Value().Coupled() && Value() == NextAuthoring(old(Value()), InsertRoot(id, local, accepted))
      ensures outcome == Outcome(old(Value()), InsertRoot(id, local, accepted))
    {
      NextFollows(Value(), InsertRoot(id, local, accepted));
      if revision == MAX64 {
        return RevisionsExhausted;
      }
      if !accepted {
        return Refused;
      }
      parents := parents[id := INVALID_STABLE_NODE];
      InsertRecord(id, local);
      return Done;
    }

    method DoInsertChild(id: nat, parent: nat, local: T, accepted: bool) returns (outcome: MutationOutcome)
      requires Value().Coupled() && Legal(Value(), InsertChild(id, parent, local, accepted))
      modifies this
      ensures Value().Coupled() && Value() == NextAuthoring(old(Value()), InsertChild(id, parent, local, accepted))
      ensures outcome == Outcome(old(Value()), InsertChild(id, parent, local, accepted))
    {
      NextFollows(Value(), InsertChild(id, parent, local, accepted));
      if revision == MAX64 {
        return RevisionsExhausted;
      }
      if !accepted {
        return Refused;
      }
      parents := parents[id := parent];
      InsertRecord(id, local);
      return Done;
    }

    method DoSetLocal(id: nat, local: T) returns (outcome: MutationOutcome)
      requires Value().Coupled()
      modifies this
      ensures Value().Coupled() && Value() == NextAuthoring(old(Value()), SetLocal(id, local))
      ensures outcome == Outcome(old(Value()), SetLocal(id, local))
    {
      NextFollows(Value(), SetLocal(id, local));
      if id !in parents {
        return Refused;
      }
      if revision == MAX64 {
        return RevisionsExhausted;
      }
      revision := revision + 1;
      records := records[id := AuthoringRecord(local, revision)];
      return Done;
    }

    /** Moving a node under the parent it already has reorders it without touching the scene clock. */
    method DoReparent(id: nat, newParent: nat, accepted: bool) returns (outcome: MutationOutcome)
      requires Value().Coupled() && Legal(Value(), Reparent(id, newParent, accepted))
      modifies this
      ensures Value().Coupled() && Value() == NextAuthoring(old(Value()), Reparent(id, newParent, accepted))
      ensures outcome == Outcome(old(Value()), Reparent(id, newParent, accepted))
    {
      NextFollows(Value(), Reparent(id, newParent, accepted));
      var oldParent := if id in parents then parents[id] else INVALID_STABLE_NODE;
      if oldParent != newParent && revision == MAX64 {
        return RevisionsExhausted;
      }
      if !accepted {
        return Refused;
      }
      parents := parents[id := newParent];
      if oldParent != newParent {
        revision := revision + 1;
      }
      return Done;
    }

    method DoDetachToRoot(id: nat, accepted: bool) returns (outcome: MutationOutcome)
      requires Value().Coupled() && Legal(Value(), DetachToRoot(id, accepted))
      modifies this
      ensures Value().Coupled() && Value() == NextAuthoring(old(Value()), DetachToRoot(id, accepted))
      ensures outcome == Outcome(old(Value()), DetachToRoot(id, accepted))
    {
      NextFollows(Value(), DetachToRoot(id, accepted));
      var parentChanges := id in parents && parents[id] != INVALID_STABLE_NODE;
      if parentChanges && revision == MAX64 {
        return RevisionsExhausted;
      }
      if !accepted {
        return Refused;
      }
      parents := parents[id := INVALID_STABLE_NODE];
      if parentChanges {
        revision := revision + 1;
      }
      return Done;
    }

    method DoEraseSubtree(id: nat, removed: set<nat>) returns (outcome: MutationOutcome)
      requires Value().Coupled() && Legal(Value(), EraseSubtree(id, removed))
      modifies this
      ensures Value().Coupled() && Value() == NextAuthoring(old(Value()), EraseSubtree(id, removed))
      ensures outcome == Outcome(old(Value()), EraseSubtree(id, removed))
    {
      NextFollows(Value(), EraseSubtree(id, removed));
      if revision == MAX64 {
        return RevisionsExhausted;
      }
      if id !in parents {
        return Refused;
      }
      parents := parents - removed;
      records := map node | node in records && node in parents :: records[node];
      assert records == old(records) - removed;
      revision := revision + 1;
      return Done;
    }
  }
}
