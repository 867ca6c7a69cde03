/** Building one slot's nodes in the authoring scene, and finding them again in the frozen forest. */
module SlotInstantiations {
  import opened Sequences
  import opened Polytrees
  import opened TransformStates
  import opened AuthoringScenes
  import opened SceneFreezes
  import opened PrefabTopologies
  import opened Placements

  /** The ids the topology library is about to issue: new, nonzero and different. */
  ghost predicate Issuable<T>(a: Authoring<T>, issue: seq<nat>) {
    Distinct(issue) && forall k | 0 <= k < |issue| :: issue[k] != INVALID_STABLE_NODE && issue[k] !in a.parents
  }

  /** The authoring scene holds the first `k` nodes of the list under the issued ids. */
  ghost predicate Holds<T>(a: Authoring<T>, nodes: seq<Node<T>>, issue: seq<nat>, k: nat)
    requires k <= |nodes| == |issue|
  {
    forall j | 0 <= j < k :: HoldsAt(a, nodes, issue, j)
  }

  ghost predicate HoldsAt<T>(a: Authoring<T>, nodes: seq<Node<T>>, issue: seq<nat>, j: nat)
    requires j < |nodes| == |issue|
  {
    && issue[j] in a.parents && issue[j] in a.records && a.records[issue[j]].local == nodes[j].local
    && (nodes[j].parent == "" ==> a.parents[issue[j]] == INVALID_STABLE_NODE)
    && (nodes[j].parent != "" ==>
          IndexOf(nodes, nodes[j].parent) < j && a.parents[issue[j]] == issue[IndexOf(nodes, nodes[j].parent)])
  }

  lemma {:induction false} IndexInPrefix<T>(nodes: seq<Node<T>>, k: nat, id: string)
    requires k <= |nodes|
    ensures IndexOf(nodes[..k], id) < k <==> IndexOf(nodes, id) < k
    ensures IndexOf(nodes, id) < k ==> IndexOf(nodes[..k], id) == IndexOf(nodes, id)
  {
    if k > 0 && nodes[0].id != id {
      assert nodes[..k][1..] == nodes[1..][..k - 1];
      IndexInPrefix(nodes[1..], k - 1, id);
    }
  }

  /** Inserts the nodes in list order, each under the already inserted node its parent names. It succeeds exactly when
      every parent is earlier in the list and the scene clock has a revision for every node. */
  method InstantiateTopology<T>(scene: AuthoringScene<T>, nodes: seq<Node<T>>, issue: seq<nat>) returns (ok: bool)
    requires scene.Value().Coupled() && |issue| == |nodes| && Issuable(scene.Value(), issue)
    modifies scene
    ensures scene.Value().Coupled()
    ensures ok <==> ParentsEarlier(nodes) && old(scene.revision) + |nodes| <= MAX64
    ensures ok ==> Holds(scene.Value(), nodes, issue, |nodes|)
    ensures Keeps(old(scene.Value()), scene.Value())
  {
    hide Authoring.Coupled, Holds, Keeps, IndexOf;
    var before := scene.Value();
    NothingHeld(before, nodes, issue);
    BeforeKept(before);
    for k := 0 to |nodes|
      invariant scene.Value().Coupled() && scene.revision == before.revision + k <= MAX64
      invariant Holds(scene.Value(), nodes, issue, k)
      invariant forall j | 0 <= j < k && nodes[j].parent != "" :: IndexOf(nodes, nodes[j].parent) < j
      invariant forall j | k <= j < |issue| :: issue[j] !in scene.parents
      invariant forall j | 0 <= j < k :: issue[j] in scene.parents
      invariant Keeps(before, scene.Value())
    {
      ghost var was := scene.Value();
      ClockBound(was);
      var outcome: MutationOutcome;
      IndexInPrefix(nodes, k, nodes[k].parent);
      var parent := IndexOf(nodes[..k], nodes[k].parent);
      if nodes[k].parent == "" {
        outcome := scene.DoInsertRoot(issue[k], nodes[k].local, true);
      } else if parent < k {
        outcome := scene.DoInsertChild(issue[k], issue[parent], nodes[k].local, true);
      } else {
        return false;
      }
      if outcome != Done {
        return false;
      }
      HoldsNext(was, scene.Value(), nodes, issue, k);
      KeepsNext(before, was, scene.Value(), issue[k]);
    }
    return true;
  }

  /** What `a` has, `b` has unchanged. */
  ghost predicate Keeps<T>(a: Authoring<T>, b: Authoring<T>) {
    && (forall id | id in a.parents :: id in b.parents && b.parents[id] == a.parents[id])
    && (forall id | id in a.records :: id in b.records && b.records[id] == a.records[id])
  }

  lemma BeforeKept<T>(a: Authoring<T>)
    requires a.Coupled()
    ensures a.revision <= MAX64 && Keeps(a, a)
  {
  }

  lemma NothingHeld<T>(a: Authoring<T>, nodes: seq<Node<T>>, issue: seq<nat>)
    requires |nodes| == |issue|
    ensures Holds(a, nodes, issue, 0)
  {
  }

  lemma KeepsNext<T>(a: Authoring<T>, b: Authoring<T>, c: Authoring<T>, id: nat)
    requires Keeps(a, b) && id !in b.parents && b.Coupled()
    requires forall x | x in b.parents :: x in c.parents && (x != id ==> c.parents[x] == b.parents[x])
    requires forall x | x in b.records :: x in c.records && (x != id ==> c.records[x] == b.records[x])
    ensures Keeps(a, c)
  {
  }

  lemma ClockBound<T>(a: Authoring<T>)
    requires a.Coupled()
    ensures a.revision <= MAX64
  {
  }

  /** The node just inserted is held, and the earlier ones still are. */
  lemma HoldsNext<T>(a: Authoring<T>, b: Authoring<T>, nodes: seq<Node<T>>, issue: seq<nat>, k: nat)
    requires k < |nodes| == |issue| && Holds(a, nodes, issue, k) && Distinct(issue)
    requires nodes[k].parent != "" ==> IndexOf(nodes, nodes[k].parent) < k
    requires var parent :=
        if nodes[k].parent == "" then INVALID_STABLE_NODE else issue[IndexOf(nodes, nodes[k].parent)];
      && b.parents == a.parents[issue[k] := parent]
      && b.records == a.records[issue[k] := AuthoringRecord(nodes[k].local, a.revision + 1)]
    ensures Holds(b, nodes, issue, k + 1)
  {
    forall j | 0 <= j < k ensures HoldsAt(b, nodes, issue, j) {
      assert HoldsAt(a, nodes, issue, j);
    }
  }

  /** In any freeze of the scene the slot's nodes are where their ids went, shaped like the list. */
  lemma FrozenSlot<T>(a: Authoring<T>, t: Forest, ids: seq<nat>, nodes: seq<Node<T>>, issue: seq<nat>,
                      handles: seq<nat>)
    requires FreezesTo(a, t, ids) && |issue| == |nodes| == |handles| && Distinct(issue)
    requires Holds(a, nodes, issue, |nodes|) && INVALID_STABLE_NODE !in a.parents
    requires forall k | 0 <= k < |handles| :: handles[k] == Handle(ids, issue[k])
    ensures Instantiated(t, nodes, handles)
  {
    forall k | 0 <= k < |nodes| ensures handles[k] < t.Size() && ids[handles[k]] == issue[k] {
      assert HoldsAt(a, nodes, issue, k);
      assert issue[k] in Elements(ids);
    }
    forall k | 0 <= k < |nodes|
      ensures nodes[k].parent == "" ==> !t.HasParent(handles[k])
      ensures nodes[k].parent != "" ==> IndexOf(nodes, nodes[k].parent) < k
      ensures nodes[k].parent != "" ==>
                t.HasParent(handles[k]) && t.parent[handles[k]] == handles[IndexOf(nodes, nodes[k].parent)]
    {
      FrozenNode(a, t, ids, nodes, issue, handles, k);
    }
  }

  lemma FrozenNode<T>(a: Authoring<T>, t: Forest, ids: seq<nat>, nodes: seq<Node<T>>, issue: seq<nat>,
                      handles: seq<nat>, k: nat)
    requires FreezesTo(a, t, ids) && k < |issue| == |nodes| == |handles|
    requires Holds(a, nodes, issue, |nodes|) && INVALID_STABLE_NODE !in a.parents
    requires forall j | 0 <= j < |handles| :: handles[j] < t.Size() && ids[handles[j]] == issue[j]
    ensures nodes[k].parent == "" ==> !t.HasParent(handles[k])
    ensures nodes[k].parent != "" ==>
              IndexOf(nodes, nodes[k].parent) < k &&
              t.HasParent(handles[k]) && t.parent[handles[k]] == handles[IndexOf(nodes, nodes[k].parent)]
  {
    assert HoldsAt(a, nodes, issue, k);
    var v := handles[k];
    assert a.parents[ids[v]] == StableParent(t, ids, v);
    if t.HasParent(v) {
      assert ids[t.parent[v]] in a.parents;
    }
    if nodes[k].parent != "" {
      var p := IndexOf(nodes, nodes[k].parent);
      assert HoldsAt(a, nodes, issue, p);
    }
  }

  /** A normal form has its parents earlier, so it can be instantiated. */
  lemma NormalFormPlaces<T>(nodes: seq<Node<T>>, result: seq<Node<T>>)
    requires IsTopology(nodes) && IsNormalForm(nodes, result)
    ensures ParentsEarlier(result)
  {
    NormalFormStable(nodes, result);
    forall k | 0 <= k < |result| && result[k].parent != "" ensures IndexOf(result, result[k].parent) < k {
      ParentsFirst(nodes, result, k);
      var p :| 0 <= p < k && result[p].id == result[k].parent;
    }
  }
}
