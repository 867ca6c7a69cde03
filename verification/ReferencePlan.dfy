/** The planner the workspace speeds up: one scan of the whole topological order. */
module ReferencePlans {
  import opened Sequences
  import opened Polytrees
  import opened TransformStates
  import opened Planning
  import opened Workspaces

  /** `flags` tells which of the nodes at the first `h` positions are affected. */
  ghost predicate Flagged(t: Forest, d: set<nat>, flags: seq<bool>, h: nat) {
    |flags| == t.Size() && forall v: nat | v < t.Size() :: flags[v] <==> v in Affected(t, d) && t.Rank(v) < h
  }

  lemma FlagNext(t: Forest, d: set<nat>, flags: seq<bool>, h: nat)
    requires Flagged(t, d, flags, h) && h < t.Size()
    ensures var node := t.order[h];
      && node < t.Size() && (t.HasParent(node) ==> t.parent[node] < t.Size())
      && var hit := node in d || (t.HasParent(node) && flags[t.parent[node]]);
      && (hit <==> node in Affected(t, d))
      && Flagged(t, d, flags[node := hit], h + 1)
  {
    AffectedByParent(t, d, t.order[h]);
  }

  /** A node is affected when it is dirty or its parent is affected; parents come first, so one pass decides all. */
  method FullScanPlan<T>(topology: Polytree, state: TransformState<T>) returns (ordered: seq<nat>)
    requires |state.records| == topology.shape.Size()
    ensures ordered == Planned(topology.shape, Dirty(state.records))
  {
    var t := topology.shape;
    ghost var d := Dirty(state.records);
    hide Topology.Valid, Affected, Restrict;
    var flags := seq(t.Size(), _ => false);
    assert Flagged(t, d, flags, 0);
    RestrictNone(t.order[..0], Affected(t, d));
    ordered := [];
    hide Flagged;
    OrderLength(t);
    for h := 0 to t.Size()
      invariant |flags| == t.Size() && Flagged(t, d, flags, h)
      invariant ordered == Restrict(t.order[..h], Affected(t, d))
    {
      FlagNext(t, d, flags, h);
      RestrictStep(t.order, h, Affected(t, d));
      var node := t.order[h];
      var parentAffected := t.parent[node] != INVALID_NODE && flags[t.parent[node]];
      var nodeAffected := state.records[node].dirty || parentAffected;
      flags := flags[node := nodeAffected];
      if nodeAffected {
        ordered := ordered + [node];
      }
    }
    assert t.order[..t.Size()] == t.order;
  }

  lemma OrderLength(t: Forest)
    ensures |t.order| == t.Size()
  {
  }

  /** Whatever state the workspace is in, its full plan lists the nodes the reference scan lists, in the same order. */
  method PlansAgree<T>(topology: Polytree, state: TransformState<T>, workspace: Workspace)
    returns (incremental: seq<nat>, reference: seq<nat>)
    requires workspace.Valid() && state.Value().Valid() && |state.records| == topology.shape.Size()
    modifies workspace
    ensures incremental == reference
  {
    hide Planned, Topology.Valid;
    var outcome := workspace.MakePlan(topology, state, [], false);
    incremental := workspace.OrderedNodes(false);
    reference := FullScanPlan(topology, state);
  }
}
