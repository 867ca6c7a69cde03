/** The evaluation workspace: cached topology metadata, epoch stamps, and the four planning branches. */
module Workspaces {
  import opened Sequences
  import opened Polytrees
  import opened TransformStates
  import opened Planning
  import opened Batches

  /** A plan borrows its node lists from the workspace. What it keeps of a list is which one and how long it was; the
      counters are to tell whether what is there now is still what was planned. */
  datatype EvaluationPlan = EvaluationPlan(
    partial: bool, rootCount: nat, nodeCount: nat,
    sourceRevision: nat, mutationGeneration: nat, evaluationGeneration: nat,
    topology: Polytree?, workspace: Workspace?, workspaceGeneration: nat)

  /** What a borrowed view of length `n` shows of a list that has at least `n` entries. */
  function Span(list: seq<nat>, n: nat): seq<nat> {
    if n <= |list| then list[..n] else list
  }

  datatype PlanOutcome = Success(plan: EvaluationPlan) | Failure(error: TransformError)

  class Workspace {
    var affected: seq<nat>
    var owner: seq<nat>
    var selected: seq<nat>
    var topologicalRank: seq<nat>
    var subtreeEnd: seq<nat>
    var subtreeSize: seq<nat>
    var dependencyLevel: seq<nat>
    var dependencyNodes: seq<nat>
    var dependencyOffsets: seq<nat>
    var dirtyRoots: seq<nat>
    var affectedNodes: seq<nat>
    var selectedDirtyRoots: seq<nat>
    var selectedNodes: seq<nat>
    var topologyIdentity: Polytree?
    var subtreesAreContiguous: bool
    var maximumLevelWidth: nat
    var generation: nat

    constructor ()
      ensures Valid() && topologyIdentity == null && generation == 0
    {
      affected, owner, selected := [], [], [];
      topologicalRank, subtreeEnd, subtreeSize, dependencyLevel := [], [], [], [];
      dependencyNodes, dependencyOffsets := [], [];
      dirtyRoots, affectedNodes, selectedDirtyRoots, selectedNodes := [], [], [], [];
      topologyIdentity, subtreesAreContiguous, maximumLevelWidth, generation := null, false, 0, 0;
    }

    /** No stamp is ahead of the epoch. */
    ghost predicate Stamped()
      reads this
    {
      && generation <= MAX64
      && (forall v | 0 <= v < |affected| :: affected[v] <= generation)
      && (forall v | 0 <= v < |selected| :: selected[v] <= generation)
    }

    /** Nothing carries the current epoch yet. */
    ghost predicate Fresh()
      reads this
    {
      && (forall v | 0 <= v < |affected| :: affected[v] != generation)
      && (forall v | 0 <= v < |selected| :: selected[v] != generation)
    }

    ghost predicate MetadataFor(t: Forest)
      reads this
    {
      && |affected| == |owner| == |selected| == |subtreeEnd| == t.Size()
      && AreRanks(t, topologicalRank) && AreSubtrees(t, subtreeEnd, subtreeSize)
      && AreLevels(t, dependencyLevel, maximumLevelWidth)
      && (subtreesAreContiguous <==> AreIntervals(t, topologicalRank, subtreeEnd))
    }

    ghost predicate Valid()
      reads this
    {
      Stamped() && (topologyIdentity != null ==> MetadataFor(topologyIdentity.shape))
    }

    // ----- metadata -----

    method RankPass(t: Forest)
      requires |topologicalRank| == |subtreeEnd| == t.Size()
      modifies this`topologicalRank, this`subtreeEnd
      ensures AreRanks(t, topologicalRank)
      ensures |subtreeEnd| == t.Size() && forall v: nat | v < t.Size() :: subtreeEnd[v] == t.Rank(v) + 1
    {
      for position := 0 to t.Size()
        invariant |topologicalRank| == |subtreeEnd| == t.Size()
        invariant forall v: nat | v < t.Size() && t.Rank(v) < position ::
          topologicalRank[v] == t.Rank(v) && subtreeEnd[v] == t.Rank(v) + 1
      {
        var node := t.order[position];
        topologicalRank := topologicalRank[node := position];
        subtreeEnd := subtreeEnd[node := position + 1];
      }
    }

    /** Children hand their totals to their parents in reverse topological order. */
    method ReversePass(t: Forest)
      requires |subtreeEnd| == |subtreeSize| == t.Size()
      requires forall v: nat | v < t.Size() :: subtreeEnd[v] == t.Rank(v) + 1 && subtreeSize[v] == 1
      modifies this`subtreeEnd, this`subtreeSize
      ensures AreSubtrees(t, subtreeEnd, subtreeSize)
      ensures |subtreeEnd| == |subtreeSize| == t.Size()
    {
      hide Totals, IsSubtreeEnd;
      forall v: nat | v < t.Size() ensures Totals(t, v, t.Size(), subtreeEnd[v], subtreeSize[v]) {
        TotalsStart(t, v);
      }
      var i := t.Size();
      while i > 0
        invariant 0 <= i <= t.Size()
        invariant |subtreeEnd| == |subtreeSize| == t.Size()
        invariant forall v: nat | v < t.Size() :: Totals(t, v, i, subtreeEnd[v], subtreeSize[v])
      {
        i := i - 1;
        var node := t.order[i];
        forall v: nat | v < t.Size() && !(t.HasParent(node) && t.parent[node] == v)
          ensures Totals(t, v, i, subtreeEnd[v], subtreeSize[v])
        {
          TotalsKeep(t, i, v, subtreeEnd[v], subtreeSize[v]);
        }
        if t.HasParent(node) {
          var p := t.parent[node];
          TotalsAbsorb(t, i, subtreeEnd[p], subtreeSize[p], subtreeEnd[node], subtreeSize[node]);
          subtreeEnd := subtreeEnd[p := if subtreeEnd[p] < subtreeEnd[node] then subtreeEnd[node] else subtreeEnd[p]];
          subtreeSize := subtreeSize[p := subtreeSize[p] + subtreeSize[node]];
        }
      }
      forall v: nat | v < t.Size()
        ensures IsSubtreeEnd(t, v, subtreeEnd[v]) && subtreeSize[v] == |t.Descendants(v)|
      {
        TotalsDone(t, v, subtreeEnd[v], subtreeSize[v]);
      }
    }

    method LevelPass(t: Forest)
      requires |dependencyLevel| == t.Size()
      modifies this`dependencyLevel, this`maximumLevelWidth
      ensures AreLevels(t, dependencyLevel, maximumLevelWidth)
    {
      maximumLevelWidth := 0;
      for level := 0 to |t.levels|
        invariant |dependencyLevel| == t.Size()
        invariant forall v: nat | v < t.Size() && t.Depth(v) < level :: dependencyLevel[v] == t.Depth(v)
        invariant forall d: nat | d < level :: |t.levels[d]| <= maximumLevelWidth
        invariant maximumLevelWidth == 0 || exists d: nat | d < level :: |t.levels[d]| == maximumLevelWidth
      {
        if maximumLevelWidth < |t.levels[level]| {
          maximumLevelWidth := |t.levels[level]|;
        }
        LabelLevel(t, level);
      }
    }

    method LabelLevel(t: Forest, level: nat)
      requires |dependencyLevel| == t.Size() && level < |t.levels|
      requires forall v: nat | v < t.Size() && t.Depth(v) < level :: dependencyLevel[v] == t.Depth(v)
      modifies this`dependencyLevel
      ensures |dependencyLevel| == t.Size()
      ensures forall v: nat | v < t.Size() && t.Depth(v) <= level :: dependencyLevel[v] == t.Depth(v)
    {
      hide Topology.Ordered, Topology.LevelsListed, Topology.RootsListed, Topology.Depth;
      var nodes := t.levels[level];
      LevelIndices(t, level);
      for i := 0 to |nodes|
        invariant |dependencyLevel| == t.Size()
        invariant forall v: nat | v < t.Size() && t.Depth(v) < level :: dependencyLevel[v] == t.Depth(v)
        invariant forall k | 0 <= k < i :: dependencyLevel[nodes[k]] == level
      {
        dependencyLevel := dependencyLevel[nodes[i] := level];
      }
      forall v: nat | v < t.Size() && t.Depth(v) == level ensures dependencyLevel[v] == level {
        var k :| 0 <= k < |nodes| && nodes[k] == v;
      }
    }

    method CheckContiguity(t: Forest)
      requires AreRanks(t, topologicalRank) && AreSubtrees(t, subtreeEnd, subtreeSize)
      modifies this`subtreesAreContiguous
      ensures subtreesAreContiguous <==> AreIntervals(t, topologicalRank, subtreeEnd)
    {
      hide IsInterval, IsSubtreeEnd, Topology.Ordered, Topology.LevelsListed;
      OrderDistinct(t);
      subtreesAreContiguous := forall node | node in t.order ::
        subtreeEnd[node] == topologicalRank[node] + subtreeSize[node];
      forall v: nat | v < t.Size()
        ensures subtreeEnd[v] == topologicalRank[v] + subtreeSize[v] <==>
                IsInterval(t, v, topologicalRank[v], subtreeEnd[v])
      {
        SizeDecidesInterval(t, v, subtreeEnd[v]);
      }
    }

    /** Opens a new epoch; when the counter wraps, old stamps are erased so none can equal the new epoch. */
    method OpenEpoch()
      requires Stamped()
      modifies this`generation, this`affected, this`selected
      ensures Stamped() && generation > 0
      ensures generation == if old(generation) == MAX64 then 1 else old(generation) + 1
      ensures |affected| == |old(affected)| && |selected| == |old(selected)|
      ensures Fresh()
    {
      generation := Increment64(generation);
      if generation == 0 {
        affected := seq(|affected|, _ => 0);
        selected := seq(|selected|, _ => 0);
        generation := Increment64(generation);
      }
    }

    method Rebuild(topology: Polytree)
      requires generation <= MAX64
      modifies this
      ensures topologyIdentity == topology && MetadataFor(topology.shape)
      ensures generation == old(generation)
      ensures forall v | 0 <= v < |affected| :: affected[v] == 0
      ensures forall v | 0 <= v < |selected| :: selected[v] == 0
    {
      hide Topology.Ordered, Topology.LevelsListed, Topology.RootsListed, Topology.Depth, Topology.Descendants;
      hide AreLevels, AreRanks, AreIntervals, AreSubtrees, IsInterval, IsSubtreeEnd;
      var t := topology.shape;
      topologyIdentity := topology;
      affected := seq(t.Size(), _ => 0);
      owner := seq(t.Size(), _ => INVALID_NODE);
      selected := seq(t.Size(), _ => 0);
      topologicalRank := seq(t.Size(), _ => 0);
      subtreeEnd := seq(t.Size(), _ => 0);
      subtreeSize := seq(t.Size(), _ => 1);
      dependencyLevel := seq(t.Size(), _ => 0);
      RankPass(t);
      ReversePass(t);
      LevelPass(t);
      CheckContiguity(t);
    }

    method Prepare(topology: Polytree)
      requires Valid()
      modifies this
      ensures Valid() && topologyIdentity == topology
      ensures generation == if old(generation) == MAX64 then 1 else old(generation) + 1
      ensures generation > 0 && Fresh()
      ensures dirtyRoots == affectedNodes == selectedDirtyRoots == selectedNodes == []
    {
      hide Topology.Ordered, Topology.LevelsListed, Topology.RootsListed, Topology.Depth, Topology.Descendants;
      hide AreLevels, AreRanks, AreIntervals, IsInterval, IsSubtreeEnd;
      OpenEpoch();
      if topologyIdentity != topology || |topologicalRank| != topology.shape.Size() {
        Rebuild(topology);
      }
      dirtyRoots, affectedNodes, selectedDirtyRoots, selectedNodes := [], [], [], [];
    }

    // ----- the planning branches -----

    /** The lists, stamps and owners cover the first `h` topological positions for the dirty set `d`. */
    ghost predicate ExpandedTo(t: Forest, d: set<nat>, h: nat)
      requires h <= t.Size()
      reads this
    {
      Expanded(t, d, h, affectedNodes, dirtyRoots, affected, owner, generation)
    }

    /** Stamps a subtree interval with its owner and appends it. */
    method AppendInterval(nodes: seq<nat>, candidate: nat)
      requires |owner| == |affected| && forall v | v in nodes :: v < |affected|
      modifies this`affected, this`owner, this`affectedNodes
      ensures affectedNodes == old(affectedNodes) + nodes
      ensures |owner| == |affected| == |old(affected)|
      ensures forall v: nat | v < |affected| ::
        && affected[v] == (if v in nodes then generation else old(affected)[v])
        && owner[v] == (if v in nodes then candidate else old(owner)[v])
    {
      for i := 0 to |nodes|
        invariant affectedNodes == old(affectedNodes) + nodes[..i]
        invariant |owner| == |affected| == |old(affected)|
        invariant forall v: nat | v < |affected| ::
          && affected[v] == (if v in nodes[..i] then generation else old(affected)[v])
          && owner[v] == (if v in nodes[..i] then candidate else old(owner)[v])
      {
        var node := nodes[i];
        assert node in nodes;
        assert nodes[..i + 1] == nodes[..i] + [node];
        affected := affected[node := generation];
        owner := owner[node := candidate];
        affectedNodes := affectedNodes + [node];
      }
      assert nodes[..|nodes|] == nodes;
    }

    /** Sorts the frontier by rank unless it already is, as edits in topological order leave it. */
    method SortCandidates(frontier: seq<nat>) returns (candidates: seq<nat>)
      requires forall i | 0 <= i < |frontier| :: frontier[i] < |topologicalRank|
      ensures Elements(candidates) == Elements(frontier)
      ensures forall i | 0 <= i < |candidates| :: candidates[i] < |topologicalRank|
      ensures forall i, j | 0 <= i < j < |candidates| ::
        topologicalRank[candidates[i]] <= topologicalRank[candidates[j]]
    {
      var rank := topologicalRank;
      var before := (a: nat, b: nat) => a < |rank| && b < |rank| && rank[a] <= rank[b];
      if forall i | 0 <= i < |frontier| - 1 :: rank[frontier[i]] <= rank[frontier[i + 1]] {
        candidates := frontier;
        AdjacentSorted(frontier, rank);
      } else {
        candidates := Sort(frontier, before);
        forall i | 0 <= i < |candidates| ensures candidates[i] < |rank| {
          assert candidates[i] in Elements(candidates);
        }
      }
    }

    /** Covers one candidate: unless an earlier subtree did, the candidate is a dirty root and brings its interval. */
    method CoverCandidate(t: Forest, candidate: nat, ghost d: set<nat>, ghost h: nat) returns (ghost h': nat)
      requires MetadataFor(t) && subtreesAreContiguous && Stamped()
      requires candidate in d && candidate < t.Size()
      requires h <= t.Size() && ExpandedTo(t, d, h) && Uncut(t, d, h)
      requires forall a | a in d && t.Rank(a) < t.Rank(candidate) :: t.Rank(a) < h
      modifies this`affected, this`owner, this`affectedNodes, this`dirtyRoots
      ensures MetadataFor(t) && Stamped()
      ensures h <= h' <= t.Size() && ExpandedTo(t, d, h') && Uncut(t, d, h')
      ensures t.Rank(candidate) < h'
    {
      hide AreLevels, AreSubtrees, Topology.Valid, Expanded, IsInterval, Uncut;
      StampTells(t, d, h, affectedNodes, dirtyRoots, affected, owner, generation, candidate);
      if affected[candidate] == generation {
        return h;
      }
      var first, last := topologicalRank[candidate], subtreeEnd[candidate];
      assert IsInterval(t, candidate, first, last);
      IntervalBounds(t, candidate, first, last);
      ghost var stamps, owners, nodes := affected, owner, affectedNodes;
      AppendInterval(t.order[first..last], candidate);
      ExpandInterval(t, d, h, candidate, last, nodes, dirtyRoots, stamps, owners, affected, owner, generation);
      dirtyRoots := dirtyRoots + [candidate];
      h' := last;
    }

    method PlanByInterval(t: Forest, frontier: seq<nat>)
      requires MetadataFor(t) && subtreesAreContiguous && Stamped()
      requires forall i | 0 <= i < |frontier| :: frontier[i] < t.Size()
      requires affectedNodes == dirtyRoots == [] && Fresh()
      modifies this`affected, this`owner, this`affectedNodes, this`dirtyRoots
      ensures MetadataFor(t) && Stamped()
      ensures ExpandedTo(t, Elements(frontier), t.Size())
    {
      hide AreLevels, AreSubtrees, AreIntervals, Expanded, Topology.Valid, Uncut, Elements;
      ghost var d := Elements(frontier);
      var candidates := SortCandidates(frontier);
      ghost var h := 0;
      ExpansionStart(t, d, affected, owner, generation);
      for k := 0 to |candidates|
        invariant MetadataFor(t) && Stamped()
        invariant h <= t.Size() && ExpandedTo(t, d, h) && Uncut(t, d, h)
        invariant forall j | 0 <= j < k :: t.Rank(candidates[j]) < h
      {
        MemberAt(candidates, k);
        EarlierCovered(t, candidates, k, h);
        h := CoverCandidate(t, candidates[k], d, h);
      }
      AllCovered(t, candidates, h);
      ExpansionComplete(t, d, h, affectedNodes, dirtyRoots, affected, owner, generation);
    }

    /** The fallback for orders without contiguous subtrees: one pass over the whole order. */
    method PlanByScan<T>(t: Forest, records: seq<Record<T>>)
      requires MetadataFor(t) && Stamped() && |records| == t.Size()
      requires affectedNodes == dirtyRoots == [] && Fresh()
      modifies this`affected, this`owner, this`affectedNodes, this`dirtyRoots
      ensures MetadataFor(t) && Stamped()
      ensures ExpandedTo(t, Dirty(records), t.Size())
    {
      hide AreLevels, AreSubtrees, AreIntervals, AreRanks, Expanded, Affected, DirtyRoots, IsOwner, Topology.Valid;
      ghost var d := Dirty(records);
      ExpansionStart(t, d, affected, owner, generation);
      OrderInRange(t);
      for i := 0 to t.Size()
        invariant MetadataFor(t) && Stamped() && ExpandedTo(t, d, i)
      {
        var node := t.order[i];
        ScanReads(t, d, i, affectedNodes, dirtyRoots, affected, owner, generation);
        var parentAffected := t.HasParent(node) && affected[t.parent[node]] == generation;
        if !records[node].dirty && !parentAffected {
          ScanSkip(t, d, i, affectedNodes, dirtyRoots, affected, owner, generation);
        } else {
          var root := if parentAffected then owner[t.parent[node]] else node;
          ScanTake(t, d, i, affectedNodes, dirtyRoots, affected, owner, generation, root);
          affected := affected[node := generation];
          owner := owner[node := root];
          affectedNodes := affectedNodes + [node];
          if !parentAffected {
            dirtyRoots := dirtyRoots + [node];
          }
        }
      }
    }

    /** A scope is valid when its entries are different dirty roots; valid entries get the selection stamp. */
    method SelectScope(t: Forest, scope: seq<nat>, ghost d: set<nat>) returns (valid: bool)
      requires MetadataFor(t) && Stamped() && ExpandedTo(t, d, t.Size())
      requires forall v | 0 <= v < |selected| :: selected[v] != generation
      modifies this`selected
      ensures MetadataFor(t) && Stamped()
      ensures valid <==> Distinct(scope) && Elements(scope) <= DirtyRoots(t, d)
      ensures valid ==> forall v: nat | v < t.Size() :: selected[v] == generation <==> v in scope
    {
      hide AreLevels, AreSubtrees, AreIntervals, AreRanks, Expanded, Affected, IsOwner, Topology.Valid;
      for i := 0 to |scope|
        invariant MetadataFor(t) && Stamped()
        invariant Distinct(scope[..i]) && Elements(scope[..i]) <= DirtyRoots(t, d)
        invariant forall v: nat | v < t.Size() :: selected[v] == generation <==> v in scope[..i]
      {
        var root := scope[i];
        assert scope[..i + 1] == scope[..i] + [root];
        if root < t.Size() {
          OwnRoot(t, d, affectedNodes, dirtyRoots, affected, owner, generation, root);
        }
        if root >= |selected| || selected[root] == generation || affected[root] != generation || owner[root] != root {
          assert root in Elements(scope);
          if root < t.Size() && selected[root] == generation {
            var j :| 0 <= j < i && scope[..i][j] == root;
            assert scope[j] == scope[i];
          }
          return false;
        }
        selected := selected[root := generation];
      }
      assert scope[..|scope|] == scope;
      return true;
    }

    /** Copies the selected roots, in order. */
    method FilterRoots(ghost scope: set<nat>)
      requires forall i | 0 <= i < |dirtyRoots| :: dirtyRoots[i] < |selected|
      requires forall i | 0 <= i < |dirtyRoots| :: selected[dirtyRoots[i]] == generation <==> dirtyRoots[i] in scope
      modifies this`selectedDirtyRoots
      ensures selectedDirtyRoots == Restrict(dirtyRoots, scope)
    {
      hide Restrict;
      selectedDirtyRoots := [];
      RestrictNone(dirtyRoots[..0], scope);
      for i := 0 to |dirtyRoots|
        invariant selectedDirtyRoots == Restrict(dirtyRoots[..i], scope)
      {
        RestrictStep(dirtyRoots, i, scope);
        if selected[dirtyRoots[i]] == generation {
          selectedDirtyRoots := selectedDirtyRoots + [dirtyRoots[i]];
        }
      }
      assert dirtyRoots[..|dirtyRoots|] == dirtyRoots;
    }

    /** Copies the affected nodes whose owner is selected, in order. */
    method FilterNodes(ghost kept: set<nat>)
      requires forall i | 0 <= i < |affectedNodes| :: affectedNodes[i] < |owner| && owner[affectedNodes[i]] < |selected|
      requires forall i | 0 <= i < |affectedNodes| ::
        selected[owner[affectedNodes[i]]] == generation <==> affectedNodes[i] in kept
      modifies this`selectedNodes
      ensures selectedNodes == Restrict(affectedNodes, kept)
    {
      hide Restrict;
      selectedNodes := [];
      RestrictNone(affectedNodes[..0], kept);
      for i := 0 to |affectedNodes|
        invariant selectedNodes == Restrict(affectedNodes[..i], kept)
      {
        RestrictStep(affectedNodes, i, kept);
        if selected[owner[affectedNodes[i]]] == generation {
          selectedNodes := selectedNodes + [affectedNodes[i]];
        }
      }
      assert affectedNodes[..|affectedNodes|] == affectedNodes;
    }

    method FilterSelected(t: Forest, ghost d: set<nat>, ghost scope: set<nat>)
      requires |selected| == t.Size() && ExpandedTo(t, d, t.Size())
      requires scope <= DirtyRoots(t, d)
      requires forall v: nat | v < t.Size() :: selected[v] == generation <==> v in scope
      modifies this`selectedDirtyRoots, this`selectedNodes
      ensures selectedDirtyRoots == Restrict(t.order, scope)
      ensures selectedNodes == Planned(t, scope)
    {
      ghost var kept := OwnedBy(t, d, owner, scope);
      SelectedLists(t, d, affectedNodes, dirtyRoots, affected, owner, generation, scope);
      SelectedAt(t, d, affectedNodes, dirtyRoots, affected, owner, generation, selected, scope);
      hide *;
      FilterRoots(scope);
      FilterNodes(kept);
    }

    /** Clean, all-dirty, interval or scan: whichever branch runs, the lists are those of the dirty set. */
    method Expand<T>(t: Forest, state: TransformState<T>, partial: bool)
      requires MetadataFor(t) && Stamped() && Fresh() && affectedNodes == dirtyRoots == []
      requires state.Value().Valid() && |state.records| == t.Size()
      modifies this`affected, this`owner, this`affectedNodes, this`dirtyRoots
      ensures MetadataFor(t) && Stamped()
      ensures affectedNodes == Planned(t, Dirty(state.records))
      ensures Distinct(dirtyRoots) && Elements(dirtyRoots) == DirtyRoots(t, Dirty(state.records))
      ensures partial || Dirty(state.records) == {} || |state.dirtyNodes| != t.Size() ==>
                ExpandedTo(t, Dirty(state.records), t.Size())
    {
      hide AreLevels, AreSubtrees, AreIntervals, AreRanks, Expanded, Affected, DirtyRoots, Topology.Valid;
      ghost var d := Dirty(state.records);
      FrontierInRange(state.Value());
      if state.dirtyNodes == [] {
        CleanPlan(t, affected, owner, generation);
      } else if !partial && |state.dirtyNodes| == t.Size() {
        FrontierIsAll(t, state.dirtyNodes);
        AllDirty(t, d);
        RootsDistinct(t);
        dirtyRoots := t.roots;
        affectedNodes := t.order;
        return;
      } else if subtreesAreContiguous {
        PlanByInterval(t, state.dirtyNodes);
      } else {
        PlanByScan(t, state.records);
      }
      WholeExpansion(t, d, affectedNodes, dirtyRoots, affected, owner, generation);
      RootsWithin(t, d, DirtyRoots(t, d));
      RootsInOrder(t, DirtyRoots(t, d));
    }

    function OrderedNodes(partial: bool): seq<nat>
      reads this
    {
      if partial then selectedNodes else affectedNodes
    }

    function PlanRoots(partial: bool): seq<nat>
      reads this
    {
      if partial then selectedDirtyRoots else dirtyRoots
    }

    /** A full plan holds what the dirty set affects; a partial plan holds the subtrees of its scope, and a scope is
        accepted exactly when it lists different dirty roots. */
    method MakePlan<T>(topology: Polytree, state: TransformState<T>, scope: seq<nat>, partial: bool)
      returns (outcome: PlanOutcome)
      requires Valid() && state.Value().Valid()
      modifies this
      ensures Valid()
      ensures |state.records| != topology.shape.Size() ==>
                outcome == Failure(StateSizeMismatch) && unchanged(this)
      ensures |state.records| == topology.shape.Size() ==>
                var t, d := topology.shape, Dirty(state.records);
                && topologyIdentity == topology
                && generation == (if old(generation) == MAX64 then 1 else old(generation) + 1)
                && (outcome.Success? <==> partial ==> Distinct(scope) && Elements(scope) <= DirtyRoots(t, d))
                && (outcome.Failure? ==> outcome.error == InvalidScope)
                && affectedNodes == Planned(t, d)
                && selectedNodes == (if partial && outcome.Success? then Planned(t, Elements(scope)) else [])
                && (outcome.Success? ==>
                      && outcome.plan == EvaluationPlan(partial, |PlanRoots(partial)|, |OrderedNodes(partial)|,
                                                        state.revision, state.mutationGeneration,
                                                        state.evaluationGeneration, topology, this, generation)
                      && OrderedNodes(partial) == Planned(t, if partial then Elements(scope) else d)
                      && (partial ==> PlanRoots(partial) == Restrict(t.order, Elements(scope)))
                      && (!partial && |state.dirtyNodes| != t.Size() ==>
                            PlanRoots(partial) == Restrict(t.order, DirtyRoots(t, d)))
                      && Distinct(PlanRoots(partial))
                      && Elements(PlanRoots(partial)) == if partial then Elements(scope) else DirtyRoots(t, d))
    {
      hide AreLevels, AreSubtrees, AreIntervals, AreRanks, Expanded, Affected, DirtyRoots, Topology.Valid;
      var t := topology.shape;
      if |state.records| != t.Size() {
        return Failure(StateSizeMismatch);
      }
      Prepare(topology);
      Expand(t, state, partial);
      if partial {
        ghost var d := Dirty(state.records);
        var valid := SelectScope(t, scope, d);
        if !valid {
          return Failure(InvalidScope);
        }
        FilterSelected(t, d, Elements(scope));
        RootsWithin(t, d, Elements(scope));
        RootsInOrder(t, Elements(scope));
      } else if |state.dirtyNodes| != t.Size() {
        WholeExpansion(t, Dirty(state.records), affectedNodes, dirtyRoots, affected, owner, generation);
      }
      return Success(EvaluationPlan(partial, |PlanRoots(partial)|, |OrderedNodes(partial)|, state.revision,
                                    state.mutationGeneration, state.evaluationGeneration, topology, this, generation));
    }

    /** Packs the ordered nodes by dependency level and stamps them with the current epoch. */
    method PrepareDependencyBatches(topology: Polytree, nodes: seq<nat>) returns (maximum: nat)
      requires Valid() && topologyIdentity == topology
      requires forall i | 0 <= i < |nodes| :: nodes[i] < topology.shape.Size()
      modifies this`affected, this`dependencyNodes, this`dependencyOffsets
      ensures Valid()
      ensures Leveled(nodes, dependencyLevel)
      ensures |dependencyOffsets| == |topology.shape.levels| + 1
      ensures forall l | 0 <= l < |topology.shape.levels| ::
                IsBatch(nodes, dependencyLevel, l, dependencyNodes, dependencyOffsets)
      ensures forall l | 0 <= l < |topology.shape.levels| :: |AtLevel(nodes, dependencyLevel, l)| <= maximum
      ensures maximum == 0 ||
              exists l | 0 <= l < |topology.shape.levels| :: |AtLevel(nodes, dependencyLevel, l)| == maximum
    {
      hide AreSubtrees, AreIntervals, AreRanks, IsBatch, AtLevel;
      for i := 0 to |nodes|
        invariant Valid() && |affected| == topology.shape.Size()
      {
        affected := affected[nodes[i] := generation];
      }
      DepthBelowLevels(topology.shape);
      dependencyNodes, dependencyOffsets, maximum :=
        DependencyBatches(nodes, dependencyLevel, |topology.shape.levels|);
    }
  }
}
