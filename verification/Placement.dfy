/** Placing a spawned instance before its entities exist, against what the engine later evaluates for the placed
    slot. */
module Placements {
  import opened Sequences
  import opened Polytrees
  import opened TransformStates
  import opened Planning
  import opened Evaluation
  import opened Coherence
  import opened ActiveMotionSets
  import opened MotionAdvance
  import opened LocalEdits
  import opened PrefabTopologies

  /** A normalised list: every parent is an earlier node. */
  ghost predicate ParentsEarlier<T>(nodes: seq<Node<T>>) {
    forall k | 0 <= k < |nodes| && nodes[k].parent != "" :: IndexOf(nodes, nodes[k].parent) < k
  }

  /** The world an entity is given before insertion. */
  ghost function LogicalWorld<T>(nodes: seq<Node<T>>, compose: (T, T) -> T, placement: T, k: nat): T
    requires ParentsEarlier(nodes) && k < |nodes|
  {
    if nodes[k].parent == "" then compose(placement, nodes[k].local)
    else compose(LogicalWorld(nodes, compose, placement, IndexOf(nodes, nodes[k].parent)), nodes[k].local)
  }

  /** A root is placed, and any other entity is composed with the entity its parent's name finds first. */
  lemma LogicalWorldMeans<T>(nodes: seq<Node<T>>, compose: (T, T) -> T, placement: T, k: nat, p: nat)
    requires ParentsEarlier(nodes) && k < |nodes|
    ensures nodes[k].parent == "" ==>
              LogicalWorld(nodes, compose, placement, k) == compose(placement, nodes[k].local)
    ensures nodes[k].parent != "" && p < |nodes| && nodes[p].id == nodes[k].parent
            && (forall q | 0 <= q < p :: nodes[q].id != nodes[k].parent) ==>
              && p < k
              && LogicalWorld(nodes, compose, placement, k) ==
                 compose(LogicalWorld(nodes, compose, placement, p), nodes[k].local)
  {
    var index := IndexOf(nodes, nodes[k].parent);
    assert index < p && index < |nodes| ==> nodes[index].id == nodes[k].parent;
  }

  /** The pre-insertion pass: one world per node, in list order, each from its parent's entry. */
  method PrepareWorlds<T>(nodes: seq<Node<T>>, compose: (T, T) -> T, placement: T) returns (worlds: seq<T>)
    requires ParentsEarlier(nodes)
    ensures |worlds| == |nodes|
    ensures forall k | 0 <= k < |nodes| :: worlds[k] == LogicalWorld(nodes, compose, placement, k)
  {
    worlds := [];
    for index := 0 to |nodes|
      invariant |worlds| == index
      invariant forall k | 0 <= k < index :: worlds[k] == LogicalWorld(nodes, compose, placement, k)
    {
      var parentWorld := placement;
      if nodes[index].parent != "" {
        parentWorld := worlds[IndexOf(nodes, nodes[index].parent)];
      }
      worlds := worlds + [compose(parentWorld, nodes[index].local)];
    }
  }

  /** `handles` are the scene nodes of one slot: shaped like the list, with the list's roots as scene roots. */
  ghost predicate Instantiated<T>(t: Forest, nodes: seq<Node<T>>, handles: seq<nat>) {
    && ParentsEarlier(nodes) && |handles| == |nodes| && Distinct(handles)
    && forall k | 0 <= k < |nodes| ::
         && handles[k] < t.Size()
         && (nodes[k].parent == "" ==> !t.HasParent(handles[k]))
         && (nodes[k].parent != "" ==>
               t.HasParent(handles[k]) && t.parent[handles[k]] == handles[IndexOf(nodes, nodes[k].parent)])
  }

  /** What resetting and then placing a slot leaves as the local of node `k`. */
  function PlacedLocal<T>(nodes: seq<Node<T>>, compose: (T, T) -> T, placement: T, k: nat): T
    requires k < |nodes|
  {
    if nodes[k].parent == "" then compose(placement, nodes[k].local) else nodes[k].local
  }

  /** The recomputed worlds of the placed slot are the prepared ones, for any composition: every parent chain is
      composed in the same order. */
  lemma {:induction false} PlacedWorld<T>(t: Forest, nodes: seq<Node<T>>, handles: seq<nat>, compose: (T, T) -> T,
                                         placement: T, locals: seq<T>, k: nat)
    requires Instantiated(t, nodes, handles) && |locals| == t.Size() && k < |nodes|
    requires forall j | 0 <= j < |nodes| :: locals[handles[j]] == PlacedLocal(nodes, compose, placement, j)
    ensures t.Fold(compose, locals, handles[k]) == LogicalWorld(nodes, compose, placement, k)
  {
    if nodes[k].parent != "" {
      PlacedWorld(t, nodes, handles, compose, placement, locals, IndexOf(nodes, nodes[k].parent));
    }
  }

  // ----- resetting and placing -----

  function InitialEdits<T>(nodes: seq<Node<T>>, handles: seq<nat>): seq<Entry<T>>
    requires |nodes| == |handles|
  {
    seq(|nodes|, k requires 0 <= k < |nodes| => Entry(handles[k], nodes[k].local))
  }

  /** The placed locals of the roots among the first `k` nodes, in order. */
  function RootEdits<T>(nodes: seq<Node<T>>, handles: seq<nat>, compose: (T, T) -> T, placement: T,
                        k: nat): seq<Entry<T>>
    requires k <= |nodes| == |handles|
  {
    if k == 0 then []
    else
      RootEdits(nodes, handles, compose, placement, k - 1) +
      if nodes[k - 1].parent == "" then [Entry(handles[k - 1], compose(placement, nodes[k - 1].local))] else []
  }

  /** Stops the slot's motions and puts the initial locals back, as far as the clock goes. */
  method ClearSlot<T, V>(nodes: seq<Node<T>>, handles: seq<nat>, state: TransformState<T>, active: ActiveMotionSet<V>,
                         ghost stationary: V -> bool)
    requires |nodes| == |handles| && forall k | 0 <= k < |handles| :: handles[k] < |state.records|
    requires state.Value().Valid()
    requires active.Valid(stationary) && active.nodeCount == |state.records|
    modifies state, active
    ensures state.Value().Valid() && active.Valid(stationary)
    ensures state.Value() == TryEdits(old(state.Value()), InitialEdits(nodes, handles))
    ensures View(active.records) == old(View(active.records)) - Elements(handles)
  {
    hide View, State.Valid, TryEdits;
    assert InitialEdits(nodes, handles)[..0] == [];
    NoEdits(state.Value());
    ghost var before, size := state.Value(), |state.records|;
    for k := 0 to |nodes|
      invariant state.Value().Valid() && active.Valid(stationary) && |state.records| == size
      invariant state.Value() == TryEdits(before, InitialEdits(nodes, handles)[..k])
      invariant View(active.records) == old(View(active.records)) - Elements(handles[..k])
    {
      assert handles[..k + 1] == handles[..k] + [handles[k]];
      assert Elements(handles[..k + 1]) == Elements(handles[..k]) + {handles[k]};
      assert InitialEdits(nodes, handles)[..k + 1] ==
             InitialEdits(nodes, handles)[..k] + [Entry(handles[k], nodes[k].local)];
      MoreEdits(before, InitialEdits(nodes, handles)[..k], Entry(handles[k], nodes[k].local));
      var refused := active.Deactivate(handles[k], stationary);
      var error := state.SetLocal(handles[k], nodes[k].local);
    }
    assert handles[..|handles|] == handles;
    assert InitialEdits(nodes, handles)[..|nodes|] == InitialEdits(nodes, handles);
  }

  lemma NoEdits<T>(s: State<T>)
    ensures TryEdits(s, []) == s
  {
  }

  lemma MoreEdits<T>(s: State<T>, us: seq<Entry<T>>, u: Entry<T>)
    ensures var prior := TryEdits(s, us);
      TryEdits(s, us + [u]) == if EditError(prior, u.node) == Ok then Edit(prior, u.node, u.state) else prior
  {
    assert (us + [u])[..|us + [u]| - 1] == us;
  }

  /** Composes the placement into the slot's roots. It succeeds exactly when the clock has a revision for every root;
      from the first refusal on nothing is written. */
  method PlaceSlot<T>(t: Forest, nodes: seq<Node<T>>, handles: seq<nat>, state: TransformState<T>, compose: (T, T) -> T,
                      placement: T, found: bool, finite: bool)
    returns (code: PlaceCode)
    requires Instantiated(t, nodes, handles) && |state.records| == t.Size() && state.Value().Valid()
    modifies state
    ensures state.Value().Valid() && |state.records| == t.Size()
    ensures var edits := RootEdits(nodes, handles, compose, placement, |nodes|);
      && code == (if !found then StaleSlot
                  else if finite && old(state.revision) + |edits| <= MAX64 then Placed else Unplaceable)
      && state.Value() == if found && finite then TryEdits(old(state.Value()), edits) else old(state.Value())
  {
    hide State.Valid, Topology.Valid, ParentsEarlier, Distinct, Instantiated, TryEdits, RootEdits;
    if !found {
      return StaleSlot;
    }
    if !finite {
      return Unplaceable;
    }
    HandlesIn(t, nodes, handles);
    ghost var before := state.Value();
    ClockRange(before);
    NoEdits(before);
    RootsStep(nodes, handles, compose, placement, 0);
    var applied := true;
    for k := 0 to |nodes|
      invariant state.Value().Valid() && |state.records| == t.Size()
      invariant Within(RootEdits(nodes, handles, compose, placement, k), t.Size())
      invariant state.Value() == TryEdits(before, RootEdits(nodes, handles, compose, placement, k))
      invariant applied <==> before.revision + |RootEdits(nodes, handles, compose, placement, k)| <= MAX64
    {
      ghost var edits := RootEdits(nodes, handles, compose, placement, k);
      RootsStep(nodes, handles, compose, placement, k + 1);
      TryClock(before, edits);
      if t.parent[handles[k]] == INVALID_NODE {
        MoreEdits(before, edits, Entry(handles[k], compose(placement, nodes[k].local)));
        if applied {
          var error := state.SetLocal(handles[k], compose(placement, nodes[k].local));
          applied := error == Ok;
        }
      }
    }
    return if applied then Placed else Unplaceable;
  }

  datatype PlaceCode = Placed | StaleSlot | Unplaceable

  lemma ClockRange<T>(s: State<T>)
    requires s.Valid()
    ensures s.revision <= MAX64
  {
  }

  lemma RootsStep<T>(nodes: seq<Node<T>>, handles: seq<nat>, compose: (T, T) -> T, placement: T, k: nat)
    requires k <= |nodes| == |handles|
    ensures RootEdits(nodes, handles, compose, placement, 0) == []
    ensures k > 0 && nodes[k - 1].parent == "" ==>
              RootEdits(nodes, handles, compose, placement, k) ==
              RootEdits(nodes, handles, compose, placement, k - 1) +
              [Entry(handles[k - 1], compose(placement, nodes[k - 1].local))]
    ensures k > 0 && nodes[k - 1].parent != "" ==>
              RootEdits(nodes, handles, compose, placement, k) == RootEdits(nodes, handles, compose, placement, k - 1)
  {
  }

  lemma HandlesIn<T>(t: Forest, nodes: seq<Node<T>>, handles: seq<nat>)
    requires Instantiated(t, nodes, handles)
    ensures |handles| == |nodes| && Distinct(handles)
    ensures forall k | 0 <= k < |nodes| ::
      handles[k] < t.Size() && (t.parent[handles[k]] == INVALID_NODE <==> nodes[k].parent == "")
  {
    hide ParentsEarlier, Topology.Ordered, Topology.RootsListed, Topology.LevelsListed;
  }

  // ----- agreement -----

  /** The state a reset and then placed slot is in. */
  function ResetAndPlaced<T>(nodes: seq<Node<T>>, handles: seq<nat>, compose: (T, T) -> T, placement: T,
                             s: State<T>): State<T>
    requires |nodes| == |handles|
  {
    TryEdits(TryEdits(s, InitialEdits(nodes, handles)), RootEdits(nodes, handles, compose, placement, |nodes|))
  }

  /** `e` places one of the roots among the first `k` nodes. */
  ghost predicate PlacesRoot<T>(nodes: seq<Node<T>>, handles: seq<nat>, compose: (T, T) -> T, placement: T, k: nat,
                                e: Entry<T>)
    requires k <= |nodes| == |handles|
  {
    exists i :: 0 <= i < k && nodes[i].parent == "" && e == Entry(handles[i], compose(placement, nodes[i].local))
  }

  lemma {:induction false} RootEditsEntries<T>(nodes: seq<Node<T>>, handles: seq<nat>, compose: (T, T) -> T,
                                               placement: T, k: nat)
    requires k <= |nodes| == |handles|
    ensures var us := RootEdits(nodes, handles, compose, placement, k);
      && |us| <= k
      && (forall x | 0 <= x < |us| :: PlacesRoot(nodes, handles, compose, placement, k, us[x]))
      && (forall i | 0 <= i < k && nodes[i].parent == "" :: Touches(us, handles[i]))
  {
    if k > 0 {
      RootEditsEntries(nodes, handles, compose, placement, k - 1);
      var prior, us := RootEdits(nodes, handles, compose, placement, k - 1),
            RootEdits(nodes, handles, compose, placement, k);
      forall i | 0 <= i < k && nodes[i].parent == "" ensures Touches(us, handles[i]) {
        if i < k - 1 {
          var x :| 0 <= x < |prior| && prior[x].node == handles[i];
          assert us[x] == prior[x];
        } else {
          assert us[|us| - 1].node == handles[i];
        }
      }
      forall x | 0 <= x < |us| ensures PlacesRoot(nodes, handles, compose, placement, k, us[x]) {
        if x < |prior| {
          assert us[x] == prior[x];
          assert PlacesRoot(nodes, handles, compose, placement, k - 1, us[x]);
        } else {
          assert us[x] == Entry(handles[k - 1], compose(placement, nodes[k - 1].local));
        }
      }
    }
  }

  /** The initial locals, each under its own handle. */
  lemma InitialLocal<T>(nodes: seq<Node<T>>, handles: seq<nat>, s: State<T>, k: nat)
    requires |nodes| == |handles| && Distinct(handles) && k < |nodes|
    requires forall j | 0 <= j < |handles| :: handles[j] < |s.records|
    requires s.revision + |nodes| <= MAX64
    ensures var r := EditAll(s, InitialEdits(nodes, handles));
      |r.records| == |s.records| && r.records[handles[k]].local == nodes[k].local
  {
    var us := InitialEdits(nodes, handles);
    assert us[k].node == handles[k];
    EditAllAt(s, us, handles[k]);
    assert us[Last(us, handles[k])].node == handles[Last(us, handles[k])];
  }

  /** Then the placement goes into the roots and nowhere else. */
  lemma RootLocal<T>(nodes: seq<Node<T>>, handles: seq<nat>, compose: (T, T) -> T, placement: T, s: State<T>, k: nat)
    requires |nodes| == |handles| && Distinct(handles) && k < |nodes|
    requires forall j | 0 <= j < |handles| :: handles[j] < |s.records|
    requires Within(RootEdits(nodes, handles, compose, placement, |nodes|), |s.records|)
    requires s.revision + |RootEdits(nodes, handles, compose, placement, |nodes|)| <= MAX64
    requires s.records[handles[k]].local == nodes[k].local
    ensures var r := EditAll(s, RootEdits(nodes, handles, compose, placement, |nodes|));
      |r.records| == |s.records| && r.records[handles[k]].local == PlacedLocal(nodes, compose, placement, k)
  {
    var us := RootEdits(nodes, handles, compose, placement, |nodes|);
    RootEditsEntries(nodes, handles, compose, placement, |nodes|);
    EditAllAt(s, us, handles[k]);
    if Touches(us, handles[k]) {
      var x := Last(us, handles[k]);
      assert PlacesRoot(nodes, handles, compose, placement, |nodes|, us[x]);
      var i :| 0 <= i < |nodes| && nodes[i].parent == "" &&
            us[x] == Entry(handles[i], compose(placement, nodes[i].local));
      assert i == k;
    }
  }

  lemma RootsWithin<T>(nodes: seq<Node<T>>, handles: seq<nat>, compose: (T, T) -> T, placement: T, size: nat)
    requires |nodes| == |handles| && forall j | 0 <= j < |handles| :: handles[j] < size
    ensures Within(RootEdits(nodes, handles, compose, placement, |nodes|), size)
    ensures |RootEdits(nodes, handles, compose, placement, |nodes|)| <= |nodes|
  {
    RootEditsEntries(nodes, handles, compose, placement, |nodes|);
  }

  /** With revisions to spare, reset and placement leave a coherent scene with the placed locals. */
  lemma PlacedState<T>(t: Forest, nodes: seq<Node<T>>, handles: seq<nat>, compose: (T, T) -> T, placement: T,
                       s: State<T>)
    requires Instantiated(t, nodes, handles) && Sound(t, compose, s) && |s.records| == t.Size()
    requires s.revision + |nodes| + |RootEdits(nodes, handles, compose, placement, |nodes|)| <= MAX64
    ensures var r := ResetAndPlaced(nodes, handles, compose, placement, s);
      && Sound(t, compose, r) && |r.records| == t.Size()
      && r.revision == s.revision + |nodes| + |RootEdits(nodes, handles, compose, placement, |nodes|)|
      && forall k | 0 <= k < |nodes| ::
           && handles[k] < t.Size() && r.records[handles[k]].local == PlacedLocal(nodes, compose, placement, k)
           && r.records[handles[k]].local ==
              if nodes[k].parent == "" then compose(placement, nodes[k].local) else nodes[k].local
  {
    hide Topology.Valid, Instantiated, Sound, RootEdits, TryEdits;
    HandlesIn(t, nodes, handles);
    var initial, roots := InitialEdits(nodes, handles), RootEdits(nodes, handles, compose, placement, |nodes|);
    RootsWithin(nodes, handles, compose, placement, t.Size());
    TryClock(s, initial);
    EditAllSound(t, compose, s, initial);
    var cleared := EditAll(s, initial);
    TryClock(cleared, roots);
    EditAllSound(t, compose, cleared, roots);
    forall k | 0 <= k < |nodes|
      ensures EditAll(cleared, roots).records[handles[k]].local == PlacedLocal(nodes, compose, placement, k)
    {
      InitialLocal(nodes, handles, s, k);
      RootLocal(nodes, handles, compose, placement, cleared, k);
    }
  }

  /** Reset, place and evaluate a slot of a coherent scene: every entity of the instance was given, before it existed,
      exactly the world the engine now holds for its node. */
  lemma PlacementAgrees<T>(t: Forest, nodes: seq<Node<T>>, handles: seq<nat>, compose: (T, T) -> T, placement: T,
                           s: State<T>, k: nat)
    requires Instantiated(t, nodes, handles) && Sound(t, compose, s) && |s.records| == t.Size() && k < |nodes|
    requires s.revision + |nodes| + |RootEdits(nodes, handles, compose, placement, |nodes|)| < MAX64
    ensures var placed := ResetAndPlaced(nodes, handles, compose, placement, s);
      && |placed.records| == t.Size() && |Reevaluated(t, compose, placed).records| == t.Size()
      && handles[k] < t.Size()
      && Reevaluated(t, compose, placed).records[handles[k]].world == LogicalWorld(nodes, compose, placement, k)
  {
    hide Topology.Valid, LogicalWorld, ParentsEarlier, ResetAndPlaced, RootEdits, Instantiated, PlacedLocal;
    HandlesIn(t, nodes, handles);
    PlacedState(t, nodes, handles, compose, placement, s);
    var placed := ResetAndPlaced(nodes, handles, compose, placement, s);
    PlannedAscends(t, Dirty(placed.records));
    FullEvaluation(t, compose, placed);
    EvaluatedSound(t, compose, placed, Dirty(placed.records));
    var after := Reevaluated(t, compose, placed);
    assert CoherentAt(t, compose, after.records, handles[k]);
    PlacedWorld(t, nodes, handles, compose, placement, Locals(placed.records), k);
  }

  /** A slot's reset and placement touch no node of another slot. */
  lemma ElsewhereKept<T>(nodes: seq<Node<T>>, handles: seq<nat>, compose: (T, T) -> T, placement: T, s: State<T>,
                         v: nat)
    requires |nodes| == |handles| && v < |s.records| && v !in handles
    ensures var r := ResetAndPlaced(nodes, handles, compose, placement, s);
      |r.records| == |s.records| && r.records[v] == s.records[v]
  {
    var initial := InitialEdits(nodes, handles);
    assert forall i | 0 <= i < |initial| :: initial[i].node == handles[i];
    TryElsewhere(s, initial, v);
    RootEditsEntries(nodes, handles, compose, placement, |nodes|);
    TryElsewhere(TryEdits(s, initial), RootEdits(nodes, handles, compose, placement, |nodes|), v);
  }
}
