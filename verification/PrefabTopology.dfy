/** Validating a list of node descriptors and putting it into its one normal form. */
module PrefabTopologies {
  import opened Sequences
  import opened Names

  datatype Node<T> = Node(id: string, parent: string, local: T, finite: bool)

  datatype TopologyCode = EmptyHierarchy | InvalidBinding | InvalidTransform | DuplicateBinding | DanglingParent | Cycle

  datatype TopologyResult<T> = Normal(nodes: seq<Node<T>>) | Faulty(code: TopologyCode, binding: string)

  // ----- what a topology is -----

  ghost predicate WellFormedNodes<T>(nodes: seq<Node<T>>) {
    forall i | 0 <= i < |nodes| :: nodes[i].id != "" && nodes[i].finite
  }

  ghost predicate UniqueIds<T>(nodes: seq<Node<T>>) {
    forall i, j | 0 <= i < j < |nodes| :: nodes[i].id != nodes[j].id
  }

  ghost predicate HasId<T>(nodes: seq<Node<T>>, id: string) {
    exists i :: 0 <= i < |nodes| && nodes[i].id == id
  }

  ghost predicate NoDangling<T>(nodes: seq<Node<T>>) {
    forall i | 0 <= i < |nodes| && nodes[i].parent != "" :: HasId(nodes, nodes[i].parent)
  }

  /** Going to the parent always lowers the rank. */
  ghost predicate Ranked<T>(nodes: seq<Node<T>>, rank: map<string, nat>) {
    forall i | 0 <= i < |nodes| ::
      nodes[i].id in rank &&
      (nodes[i].parent != "" ==> nodes[i].parent in rank && rank[nodes[i].parent] < rank[nodes[i].id])
  }

  ghost predicate Acyclic<T>(nodes: seq<Node<T>>) {
    exists rank: map<string, nat> :: Ranked(nodes, rank)
  }

  ghost predicate IsTopology<T>(nodes: seq<Node<T>>) {
    nodes != [] && WellFormedNodes(nodes) && UniqueIds(nodes) && NoDangling(nodes) && Acyclic(nodes)
  }

  ghost predicate DepthAt<T>(node: Node<T>, d: map<string, nat>) {
    && node.id in d
    && (node.parent == "" ==> d[node.id] == 0)
    && (node.parent != "" ==> node.parent in d && d[node.id] == d[node.parent] + 1)
  }

  /** `d` gives every node its distance from its root. */
  ghost predicate Depths<T>(nodes: seq<Node<T>>, d: map<string, nat>) {
    forall i | 0 <= i < |nodes| :: DepthAt(nodes[i], d)
  }

  predicate DepthOrder<T>(d: map<string, nat>, a: Node<T>, b: Node<T>) {
    var da, db := if a.id in d then d[a.id] else 0, if b.id in d then d[b.id] else 0;
    if da != db then da < db else LexLeq(a.id, b.id)
  }

  /** `result` is `nodes` arranged by depth and, within a depth, by name. */
  ghost predicate IsNormalForm<T>(nodes: seq<Node<T>>, result: seq<Node<T>>) {
    && multiset(result) == multiset(nodes)
    && exists d: map<string, nat> ::
         Depths(nodes, d) && SortedBy(result, (a: Node<T>, b: Node<T>) => DepthOrder(d, a, b))
  }

  lemma DepthsRank<T>(nodes: seq<Node<T>>, d: map<string, nat>)
    requires Depths(nodes, d)
    ensures Ranked(nodes, d) && Acyclic(nodes)
  {
    forall i | 0 <= i < |nodes|
      ensures nodes[i].id in d
      ensures nodes[i].parent != "" ==> (nodes[i].parent in d && d[nodes[i].parent] < d[nodes[i].id])
    {
      assert DepthAt(nodes[i], d);
    }
    assert Ranked(nodes, d);
  }

  /** Depths are unique. */
  lemma {:induction false} DepthsUnique<T>(nodes: seq<Node<T>>, d: map<string, nat>, e: map<string, nat>, i: nat)
    requires NoDangling(nodes) && Depths(nodes, d) && Depths(nodes, e) && i < |nodes|
    ensures nodes[i].id in d && nodes[i].id in e && d[nodes[i].id] == e[nodes[i].id]
    decreases if nodes[i].id in d then d[nodes[i].id] else 0
  {
    assert DepthAt(nodes[i], d) && DepthAt(nodes[i], e);
    if nodes[i].parent != "" {
      assert HasId(nodes, nodes[i].parent);
      var p :| 0 <= p < |nodes| && nodes[p].id == nodes[i].parent;
      DepthsUnique(nodes, d, e, p);
    }
  }

  lemma MemberIndex<T>(a: seq<T>, b: seq<T>, i: nat) returns (j: nat)
    requires multiset(a) == multiset(b) && i < |a|
    ensures j < |b| && b[j] == a[i]
  {
    SameElements(a, b);
    assert a[i] in Elements(b);
    j :| 0 <= j < |b| && b[j] == a[i];
  }

  lemma SameDepths<T>(a: seq<Node<T>>, b: seq<Node<T>>, d: map<string, nat>)
    requires multiset(a) == multiset(b) && Depths(a, d)
    ensures Depths(b, d)
  {
    forall i | 0 <= i < |b| ensures DepthAt(b[i], d) {
      var j := MemberIndex(b, a, i);
    }
  }

  /** Being a topology depends only on which nodes there are. */
  lemma SameTopology<T>(a: seq<Node<T>>, b: seq<Node<T>>)
    requires multiset(a) == multiset(b) && IsTopology(a)
    ensures IsTopology(b)
  {
    SameElements(a, b);
    SameFormed(a, b);
    SameDangling(a, b);
    SameAcyclic(a, b);
    SameUnique(a, b);
  }

  lemma SameFormed<T>(a: seq<Node<T>>, b: seq<Node<T>>)
    requires multiset(a) == multiset(b) && WellFormedNodes(a)
    ensures WellFormedNodes(b)
  {
    forall i | 0 <= i < |b| ensures b[i].id != "" && b[i].finite {
      var j := MemberIndex(b, a, i);
    }
  }

  lemma SameDangling<T>(a: seq<Node<T>>, b: seq<Node<T>>)
    requires multiset(a) == multiset(b) && NoDangling(a)
    ensures NoDangling(b)
  {
    forall i | 0 <= i < |b| && b[i].parent != "" ensures HasId(b, b[i].parent) {
      var j := MemberIndex(b, a, i);
      assert HasId(a, a[j].parent);
      var p :| 0 <= p < |a| && a[p].id == a[j].parent;
      var q := MemberIndex(a, b, p);
    }
  }

  lemma SameAcyclic<T>(a: seq<Node<T>>, b: seq<Node<T>>)
    requires multiset(a) == multiset(b) && Acyclic(a)
    ensures Acyclic(b)
  {
    var rank :| Ranked(a, rank);
    assert Ranked(b, rank) by {
      forall i | 0 <= i < |b|
        ensures b[i].id in rank && (b[i].parent != "" ==> b[i].parent in rank && rank[b[i].parent] < rank[b[i].id])
      {
        var j := MemberIndex(b, a, i);
      }
    }
  }

  lemma SameUnique<T>(a: seq<Node<T>>, b: seq<Node<T>>)
    requires multiset(a) == multiset(b) && UniqueIds(a)
    ensures UniqueIds(b)
  {
    assert Distinct(a);
    SameElements(a, b);
    forall i, j | 0 <= i < j < |b| ensures b[i].id != b[j].id {
      var p := MemberIndex(b, a, i);
      var q := MemberIndex(b, a, j);
      assert p < q || q < p;
    }
  }

  // ----- properties of the normal form -----

  lemma OrderTotal<T>(s: set<Node<T>>, d: map<string, nat>)
    ensures TotalOn(s, (a: Node<T>, b: Node<T>) => DepthOrder(d, a, b))
  {
    var leq := (a: Node<T>, b: Node<T>) => DepthOrder(d, a, b);
    forall x, y | x in s && y in s ensures leq(x, y) || leq(y, x) { LexTotal(x.id, y.id); }
    forall x, y, z | x in s && y in s && z in s && leq(x, y) && leq(y, z) ensures leq(x, z) {
      if LexLeq(x.id, y.id) && LexLeq(y.id, z.id) { LexTransitive(x.id, y.id, z.id); }
    }
  }

  lemma OrderStrict<T>(nodes: seq<Node<T>>, d: map<string, nat>)
    requires UniqueIds(nodes)
    ensures Antisymmetric(nodes, (a: Node<T>, b: Node<T>) => DepthOrder(d, a, b))
  {
    forall x, y | x in nodes && y in nodes && DepthOrder(d, x, y) && DepthOrder(d, y, x) ensures x == y {
      LexTotal(x.id, y.id);
      var i :| 0 <= i < |nodes| && nodes[i] == x;
      var j :| 0 <= j < |nodes| && nodes[j] == y;
    }
  }

  /** With the same depths the order is the same. */
  lemma OrderAgrees<T>(nodes: seq<Node<T>>, result: seq<Node<T>>, d: map<string, nat>, e: map<string, nat>)
    requires NoDangling(nodes) && Depths(nodes, d) && Depths(nodes, e) && multiset(result) == multiset(nodes)
    requires SortedBy(result, (a: Node<T>, b: Node<T>) => DepthOrder(d, a, b))
    ensures SortedBy(result, (a: Node<T>, b: Node<T>) => DepthOrder(e, a, b))
  {
    forall i | 0 <= i < |result| ensures result[i].id in d && result[i].id in e && d[result[i].id] == e[result[i].id] {
      var j := MemberIndex(result, nodes, i);
      DepthsUnique(nodes, d, e, j);
    }
    var leq := (a: Node<T>, b: Node<T>) => DepthOrder(d, a, b);
    forall i, j | 0 <= i < j < |result| ensures DepthOrder(e, result[i], result[j]) {
      assert leq(result[i], result[j]);
    }
  }

  /** The normal form depends only on the multiset of the descriptors. */
  lemma NormalFormUnique<T>(a: seq<Node<T>>, b: seq<Node<T>>, ra: seq<Node<T>>, rb: seq<Node<T>>)
    requires multiset(a) == multiset(b) && IsTopology(a)
    requires IsNormalForm(a, ra) && IsNormalForm(b, rb)
    ensures ra == rb
  {
    var d: map<string, nat> :| Depths(a, d) && SortedBy(ra, (x: Node<T>, y: Node<T>) => DepthOrder(d, x, y));
    var e: map<string, nat> :| Depths(b, e) && SortedBy(rb, (x: Node<T>, y: Node<T>) => DepthOrder(e, x, y));
    SameTopology(a, b);
    SameDepths(a, b, d);
    OrderAgrees(b, rb, e, d);
    SameUnique(a, ra);
    OrderStrict(ra, d);
    SortedUnique(ra, rb, (x: Node<T>, y: Node<T>) => DepthOrder(d, x, y));
  }

  /** Normalising a normal form changes nothing. */
  lemma NormalFormStable<T>(nodes: seq<Node<T>>, result: seq<Node<T>>)
    requires IsTopology(nodes) && IsNormalForm(nodes, result)
    ensures IsTopology(result) && IsNormalForm(result, result)
  {
    var d: map<string, nat> :| Depths(nodes, d) && SortedBy(result, (x: Node<T>, y: Node<T>) => DepthOrder(d, x, y));
    SameTopology(nodes, result);
    SameDepths(nodes, result, d);
  }

  /** Every parent comes before its children. */
  lemma ParentsFirst<T>(nodes: seq<Node<T>>, result: seq<Node<T>>, i: nat)
    requires IsTopology(nodes) && IsNormalForm(nodes, result)
    requires i < |result| && result[i].parent != ""
    ensures exists p :: 0 <= p < i && result[p].id == result[i].parent
  {
    NormalFormStable(nodes, result);
    var d: map<string, nat> :| Depths(result, d) && SortedBy(result, (x: Node<T>, y: Node<T>) => DepthOrder(d, x, y));
    assert HasId(result, result[i].parent);
    var p :| 0 <= p < |result| && result[p].id == result[i].parent;
    assert DepthAt(result[i], d) && DepthAt(result[p], d);
    DeeperLater(result, d, i);
  }

  lemma DeeperLater<T>(result: seq<Node<T>>, d: map<string, nat>, i: nat)
    requires Depths(result, d) && SortedBy(result, (x: Node<T>, y: Node<T>) => DepthOrder(d, x, y)) && i < |result|
    ensures forall q | i < q < |result| ::
      DepthAt(result[i], d) && DepthAt(result[q], d) && d[result[i].id] <= d[result[q].id]
  {
    var leq := (x: Node<T>, y: Node<T>) => DepthOrder(d, x, y);
    forall q | i < q < |result|
      ensures DepthAt(result[i], d) && DepthAt(result[q], d) && d[result[i].id] <= d[result[q].id]
    {
      assert leq(result[i], result[q]);
    }
  }

  // ----- the procedure -----

  /** The first node with this id, or the number of nodes. */
  function IndexOf<T>(nodes: seq<Node<T>>, id: string): (i: nat)
    ensures i <= |nodes| && (i < |nodes| ==> nodes[i].id == id)
    ensures forall k | 0 <= k < i :: nodes[k].id != id
  {
    if nodes == [] then 0 else if nodes[0].id == id then 0 else IndexOf(nodes[1..], id) + 1
  }

  /** Nodes sorted by name, with different names. */
  ghost predicate Alphabetical<T>(nodes: seq<Node<T>>) {
    UniqueIds(nodes) && forall i, j | 0 <= i < j < |nodes| :: LexLeq(nodes[i].id, nodes[j].id)
  }

  /** The binary search finds a name that is there. */
  method FindNode<T>(nodes: seq<Node<T>>, id: string) returns (k: nat)
    requires Alphabetical(nodes)
    ensures k <= |nodes|
    ensures HasId(nodes, id) <==> k < |nodes| && nodes[k].id == id
  {
    k := 0;
    var hi := |nodes|;
    while k < hi
      invariant k <= hi <= |nodes|
      invariant forall i | 0 <= i < k :: !LexLeq(id, nodes[i].id)
      invariant forall i | hi <= i < |nodes| :: LexLeq(id, nodes[i].id)
    {
      var mid := (k + hi) / 2;
      if LexLeq(id, nodes[mid].id) {
        UpperHalf(nodes, id, mid);
        hi := mid;
      } else {
        LowerHalf(nodes, id, mid);
        k := mid + 1;
      }
    }
    LexSelf(id);
    if HasId(nodes, id) {
      var i :| 0 <= i < |nodes| && nodes[i].id == id;
      assert i >= k;
      LexTotal(nodes[k].id, nodes[i].id);
    }
  }

  lemma UpperHalf<T>(nodes: seq<Node<T>>, id: string, mid: nat)
    requires Alphabetical(nodes) && mid < |nodes| && LexLeq(id, nodes[mid].id)
    ensures forall i | mid <= i < |nodes| :: LexLeq(id, nodes[i].id)
  {
    forall i | mid < i < |nodes| ensures LexLeq(id, nodes[i].id) {
      LexTransitive(id, nodes[mid].id, nodes[i].id);
    }
  }

  lemma LowerHalf<T>(nodes: seq<Node<T>>, id: string, mid: nat)
    requires Alphabetical(nodes) && mid < |nodes| && !LexLeq(id, nodes[mid].id)
    ensures forall i | 0 <= i <= mid :: !LexLeq(id, nodes[i].id)
  {
    forall i | 0 <= i <= mid ensures !LexLeq(id, nodes[i].id) {
      if LexLeq(id, nodes[i].id) { UpperHalf(nodes, id, i); }
    }
  }

  // ----- looking for cycles -----

  /** Finished nodes have depths, and their parents are finished. */
  ghost predicate Finished<T>(nodes: seq<Node<T>>, state: seq<nat>, d: map<string, nat>) {
    && |state| == |nodes| && (forall i | 0 <= i < |nodes| :: state[i] <= 2)
    && forall i | 0 <= i < |nodes| && state[i] == 2 :: DepthAt(nodes[i], d)
  }

  /** Every name with a depth is the name of a finished node. */
  ghost predicate OnlyFinished<T>(nodes: seq<Node<T>>, state: seq<nat>, d: map<string, nat>) {
    && |state| == |nodes|
    && forall i | 0 <= i < |nodes| && nodes[i].id in d :: state[i] == 2
  }

  /** The nodes being visited rank above `index`. */
  ghost predicate Above<T>(nodes: seq<Node<T>>, state: seq<nat>, rank: map<string, nat>, index: nat)
    requires index < |nodes| == |state|
  {
    Ranked(nodes, rank) && forall i | 0 <= i < |nodes| && state[i] == 1 :: rank[nodes[i].id] > rank[nodes[index].id]
  }

  ghost function Unvisited(state: seq<nat>): set<nat> {
    set i: nat | i < |state| && state[i] == 0
  }

  lemma UnvisitedShrinks(state: seq<nat>, i: nat)
    requires i < |state| && state[i] == 0
    ensures |Unvisited(state[i := 1])| < |Unvisited(state)|
  {
    assert Unvisited(state[i := 1]) == Unvisited(state) - {i};
  }

  ghost predicate Visited<T>(nodes: seq<Node<T>>, state: seq<nat>, d: map<string, nat>) {
    Finished(nodes, state, d) && OnlyFinished(nodes, state, d)
  }

  ghost predicate CanClimb<T>(nodes: seq<Node<T>>, state: seq<nat>, index: nat)
    requires index < |nodes| == |state|
  {
    exists rank: map<string, nat> :: Above(nodes, state, rank, index)
  }

  lemma VisitedSizes<T>(nodes: seq<Node<T>>, state: seq<nat>, d: map<string, nat>)
    requires Visited(nodes, state, d)
    ensures |state| == |nodes| && forall i | 0 <= i < |nodes| :: state[i] <= 2
  {
  }

  lemma EnterVisited<T>(nodes: seq<Node<T>>, state: seq<nat>, d: map<string, nat>, index: nat)
    requires Visited(nodes, state, d) && index < |nodes| == |state| && state[index] == 0
    ensures Visited(nodes, state[index := 1], d)
  {
  }

  /** A node gets its depth: zero for a root, one more than its parent's otherwise. */
  lemma FinishVisited<T>(nodes: seq<Node<T>>, state: seq<nat>, d: map<string, nat>, index: nat, depth: nat)
    requires Alphabetical(nodes) && Visited(nodes, state, d) && index < |nodes| == |state| && state[index] == 1
    requires nodes[index].parent == "" ==> depth == 0
    requires nodes[index].parent != "" ==> nodes[index].parent in d && depth == d[nodes[index].parent] + 1
    ensures Visited(nodes, state[index := 2], d[nodes[index].id := depth])
  {
    var id := nodes[index].id;
    hide LexLeq;
    assert forall i | 0 <= i < |nodes| && i != index :: nodes[i].id != id;
    assert id !in d;
    assert forall i | 0 <= i < |nodes| && state[i] == 2 :: DepthAt(nodes[i], d);
  }

  lemma FinishedDepth<T>(nodes: seq<Node<T>>, state: seq<nat>, d: map<string, nat>, index: nat)
    requires Visited(nodes, state, d) && index < |nodes| == |state| && state[index] == 2
    ensures nodes[index].id in d
  {
    assert DepthAt(nodes[index], d);
  }

  lemma CannotClimb<T>(nodes: seq<Node<T>>, state: seq<nat>, index: nat)
    requires index < |nodes| == |state| && state[index] == 1
    ensures !CanClimb(nodes, state, index)
  {
  }

  lemma ClimbToParent<T>(nodes: seq<Node<T>>, state: seq<nat>, index: nat, parent: nat)
    requires index < |nodes| == |state| && parent < |nodes| && state[index] == 0 && CanClimb(nodes, state, index)
    requires nodes[index].parent != "" && nodes[parent].id == nodes[index].parent
    ensures CanClimb(nodes, state[index := 1], parent)
  {
    var rank: map<string, nat> :| Above(nodes, state, rank, index);
    assert Above(nodes, state[index := 1], rank, parent);
  }

  /** The memoised descent to the root. It succeeds when no cycle is above, and then gives every node it passed its
      depth; in a graph without cycles it cannot fail. */
  method Visit<T>(nodes: seq<Node<T>>, index: nat, state: seq<nat>, ghost d: map<string, nat>)
    returns (ok: bool, after: seq<nat>, ghost e: map<string, nat>)
    requires Alphabetical(nodes) && NoDangling(nodes) && index < |nodes|
    requires Visited(nodes, state, d)
    ensures |after| == |state| == |nodes|
    ensures ok ==> Visited(nodes, after, e) && after[index] == 2
    ensures ok ==> forall i | 0 <= i < |nodes| :: after[i] == 1 <==> state[i] == 1
    ensures forall i | 0 <= i < |nodes| && state[i] != 0 :: after[i] != 0
    ensures CanClimb(nodes, state, index) ==> ok
    decreases |Unvisited(state)|
  {
    hide Visited, CanClimb, Unvisited, Alphabetical, NoDangling, HasId, LexLeq;
    VisitedSizes(nodes, state, d);
    after, e := state, d;
    if state[index] == 1 {
      CannotClimb(nodes, state, index);
      return false, after, e;
    }
    if state[index] == 2 {
      return true, after, e;
    }
    UnvisitedShrinks(state, index);
    EnterVisited(nodes, state, d, index);
    after := after[index := 1];
    var parentId := nodes[index].parent;
    if parentId == "" {
      FinishVisited(nodes, after, d, index, 0);
      e := d[nodes[index].id := 0];
      after := after[index := 2];
      return true, after, e;
    }
    ParentNamed(nodes, index);
    var parent := FindNode(nodes, parentId);
    if CanClimb(nodes, state, index) { ClimbToParent(nodes, state, index, parent); }
    ok, after, e := Visit(nodes, parent, after, d);
    if ok {
      FinishedDepth(nodes, after, e, parent);
      FinishVisited(nodes, after, e, index, e[parentId] + 1);
      e := e[nodes[index].id := e[parentId] + 1];
    }
    after := after[index := 2];
  }

  lemma ParentNamed<T>(nodes: seq<Node<T>>, index: nat)
    requires NoDangling(nodes) && index < |nodes| && nodes[index].parent != ""
    ensures HasId(nodes, nodes[index].parent)
  {
  }

  // ----- depths -----

  /** Memoised depths are zero or right. */
  ghost predicate Memo<T>(nodes: seq<Node<T>>, depths: seq<nat>, d: map<string, nat>)
    requires Depths(nodes, d)
  {
    && |depths| == |nodes|
    && forall i | 0 <= i < |nodes| ::
         DepthAt(nodes[i], d) && (depths[i] == 0 || depths[i] == d[nodes[i].id])
  }

  /** The memoised depth recursion. */
  method DepthOf<T>(nodes: seq<Node<T>>, index: nat, depths: seq<nat>, ghost d: map<string, nat>)
    returns (depth: nat, after: seq<nat>)
    requires Alphabetical(nodes) && NoDangling(nodes) && Depths(nodes, d)
    requires index < |nodes| && Memo(nodes, depths, d)
    ensures Memo(nodes, after, d) && depth == after[index] == d[nodes[index].id]
    ensures forall i | 0 <= i < |nodes| && depths[i] != 0 :: after[i] == depths[i]
    decreases if nodes[index].id in d then d[nodes[index].id] else 0
  {
    assert DepthAt(nodes[index], d);
    after := depths;
    if depths[index] != 0 || nodes[index].parent == "" {
      return depths[index], after;
    }
    assert HasId(nodes, nodes[index].parent);
    var parent := FindNode(nodes, nodes[index].parent);
    var parentDepth;
    parentDepth, after := DepthOf(nodes, parent, after, d);
    after := after[index := parentDepth + 1];
    return after[index], after;
  }

  method AllDepths<T>(nodes: seq<Node<T>>, ghost d: map<string, nat>) returns (depthOf: map<string, nat>)
    requires Alphabetical(nodes) && NoDangling(nodes) && Depths(nodes, d)
    ensures Depths(nodes, depthOf)
  {
    hide Alphabetical, NoDangling;
    assert forall i | 0 <= i < |nodes| :: DepthAt(nodes[i], d);
    var depths := seq(|nodes|, _ => 0);
    depthOf := map[];
    for index := 0 to |nodes|
      invariant Memo(nodes, depths, d)
      invariant forall i | 0 <= i < index :: nodes[i].id in depthOf
      invariant forall id | id in depthOf :: id in d && depthOf[id] == d[id]
    {
      var depth;
      depth, depths := DepthOf(nodes, index, depths, d);
      depthOf := depthOf[nodes[index].id := depth];
    }
    ParentsHaveDepth(nodes, d, depthOf);
  }

  lemma ParentsHaveDepth<T>(nodes: seq<Node<T>>, d: map<string, nat>, e: map<string, nat>)
    requires Depths(nodes, d) && NoDangling(nodes)
    requires forall i | 0 <= i < |nodes| :: nodes[i].id in e
    requires forall id | id in e :: id in d && e[id] == d[id]
    ensures Depths(nodes, e)
  {
    forall i | 0 <= i < |nodes| ensures DepthAt(nodes[i], e) {
      assert DepthAt(nodes[i], d);
      if nodes[i].parent != "" {
        assert HasId(nodes, nodes[i].parent);
      }
    }
  }

  // ----- the whole check -----

  /** What is reported for a list that is no topology: the first check it fails. */
  ghost function Fault<T>(nodes: seq<Node<T>>): set<TopologyCode> {
    if nodes == [] then {EmptyHierarchy}
    else if !WellFormedNodes(nodes) then
      if exists i :: 0 <= i < |nodes| && IsFirstFault(nodes, i) && nodes[i].id == "" then {InvalidBinding}
      else {InvalidTransform}
    else if !UniqueIds(nodes) then {DuplicateBinding}
    else if !NoDangling(nodes) then {DanglingParent}
    else {Cycle}
  }

  ghost predicate IsFirstFault<T>(nodes: seq<Node<T>>, i: nat)
    requires i < |nodes|
  {
    (nodes[i].id == "" || !nodes[i].finite) && forall j | 0 <= j < i :: nodes[j].id != "" && nodes[j].finite
  }

  predicate NameOrder<T>(a: Node<T>, b: Node<T>) { LexLeq(a.id, b.id) }

  lemma NameTotal<T>(s: set<Node<T>>)
    ensures TotalOn(s, (a: Node<T>, b: Node<T>) => NameOrder(a, b))
  {
    var leq := (a: Node<T>, b: Node<T>) => NameOrder(a, b);
    forall x, y | x in s && y in s ensures leq(x, y) || leq(y, x) { LexTotal(x.id, y.id); }
    forall x, y, z | x in s && y in s && z in s && leq(x, y) && leq(y, z) ensures leq(x, z) {
      LexTransitive(x.id, y.id, z.id);
    }
  }

  /** In a sorted list equal names are neighbours. */
  lemma NeighboursSuffice<T>(nodes: seq<Node<T>>)
    requires forall i, j | 0 <= i < j < |nodes| :: LexLeq(nodes[i].id, nodes[j].id)
    requires forall i | 0 < i < |nodes| :: nodes[i - 1].id != nodes[i].id
    ensures Alphabetical(nodes)
  {
    forall i, j | 0 <= i < j < |nodes| ensures nodes[i].id != nodes[j].id {
      LexTotal(nodes[i].id, nodes[i + 1].id);
      assert nodes[i + 1 - 1].id != nodes[i + 1].id;
      LexTotal(nodes[i + 1].id, nodes[j].id);
    }
  }

  method SortByName<T>(nodes: seq<Node<T>>) returns (sorted: seq<Node<T>>)
    ensures multiset(sorted) == multiset(nodes)
    ensures forall i, j | 0 <= i < j < |sorted| :: LexLeq(sorted[i].id, sorted[j].id)
  {
    var leq := (a: Node<T>, b: Node<T>) => NameOrder(a, b);
    NameTotal(Elements(nodes));
    sorted := Sort(nodes, leq);
    assert forall i, j | 0 <= i < j < |sorted| :: leq(sorted[i], sorted[j]);
  }

  /** Visits every node; stops at the first one with a cycle above it. */
  method FindCycle<T>(nodes: seq<Node<T>>) returns (found: bool, at: nat, ghost d: map<string, nat>)
    requires Alphabetical(nodes) && NoDangling(nodes)
    ensures found <==> !Acyclic(nodes)
    ensures !found ==> Depths(nodes, d)
    ensures found ==> at < |nodes|
  {
    hide Alphabetical, NoDangling;
    var state := seq(|nodes|, _ => 0);
    d := map[];
    for index := 0 to |nodes|
      invariant Visited(nodes, state, d)
      invariant forall i | 0 <= i < |nodes| :: state[i] != 1
      invariant forall i | 0 <= i < index :: state[i] == 2
    {
      ghost var before := state;
      if Acyclic(nodes) {
        var rank: map<string, nat> :| Ranked(nodes, rank);
        assert Above(nodes, before, rank, index);
      }
      var ok;
      ok, state, d := Visit(nodes, index, state, d);
      if !ok {
        return true, index, d;
      }
    }
    assert forall i | 0 <= i < |nodes| :: DepthAt(nodes[i], d);
    DepthsRank(nodes, d);
    return false, 0, d;
  }

  method FirstInvalid<T>(nodes: seq<Node<T>>) returns (at: nat)
    ensures at <= |nodes|
    ensures at == |nodes| <==> WellFormedNodes(nodes)
    ensures at < |nodes| ==> IsFirstFault(nodes, at)
  {
    at := 0;
    while at < |nodes| && nodes[at].id != "" && nodes[at].finite
      invariant at <= |nodes| && forall j | 0 <= j < at :: nodes[j].id != "" && nodes[j].finite
    {
      at := at + 1;
    }
  }

  method FirstDuplicate<T>(nodes: seq<Node<T>>) returns (at: nat)
    requires forall i, j | 0 <= i < j < |nodes| :: LexLeq(nodes[i].id, nodes[j].id)
    ensures at <= |nodes|
    ensures at == |nodes| <==> Alphabetical(nodes)
    ensures at == |nodes| <==> UniqueIds(nodes)
    ensures at < |nodes| ==> at > 0 && nodes[at - 1].id == nodes[at].id
  {
    at := 0;
    while at < |nodes| && (at == 0 || nodes[at - 1].id != nodes[at].id)
      invariant at <= |nodes| && forall i | 0 < i < at :: nodes[i - 1].id != nodes[i].id
    {
      at := at + 1;
    }
    if at == |nodes| {
      NeighboursSuffice(nodes);
    }
  }

  method FirstDangling<T>(nodes: seq<Node<T>>) returns (at: nat)
    requires Alphabetical(nodes)
    ensures at <= |nodes|
    ensures at == |nodes| <==> NoDangling(nodes)
    ensures at < |nodes| ==> nodes[at].parent != "" && !HasId(nodes, nodes[at].parent)
  {
    hide Alphabetical, HasId;
    at := 0;
    while at < |nodes|
      invariant at <= |nodes| && forall i | 0 <= i < at && nodes[i].parent != "" :: HasId(nodes, nodes[i].parent)
    {
      if nodes[at].parent != "" {
        var parent := FindNode(nodes, nodes[at].parent);
        if parent == |nodes| || nodes[parent].id != nodes[at].parent {
          return;
        }
      }
      at := at + 1;
    }
  }

  /** What is wrong with the node a rejection names: it is the first malformed one, shares its name with another one, or
      has a parent nobody is called. */
  ghost predicate Blames<T>(nodes: seq<Node<T>>, code: TopologyCode, binding: string) {
    match code
    case EmptyHierarchy => nodes == []
    case InvalidBinding => exists i :: 0 <= i < |nodes| && IsFirstFault(nodes, i) && nodes[i].id == binding == ""
    case InvalidTransform =>
      binding != "" && exists i :: 0 <= i < |nodes| && IsFirstFault(nodes, i) && nodes[i].id == binding
    case DuplicateBinding => exists i, j :: 0 <= i < j < |nodes| && nodes[i].id == binding && nodes[j].id == binding
    case DanglingParent =>
      exists i :: 0 <= i < |nodes| && nodes[i].id == binding && nodes[i].parent != "" && !HasId(nodes, nodes[i].parent)
    case Cycle => HasId(nodes, binding)
  }

  lemma DropOne<T>(s: seq<T>, i: nat)
    requires i < |s|
    ensures multiset(s[..i] + s[i + 1..]) == multiset(s) - multiset{s[i]}
  {
    assert s == s[..i] + [s[i]] + s[i + 1..];
  }

  /** Two entries of a list are two entries of every arrangement of it. */
  lemma PairCarries<T>(a: seq<T>, b: seq<T>, p: nat, q: nat)
    requires multiset(a) == multiset(b) && p < q < |a|
    ensures exists i, j :: 0 <= i < |b| && 0 <= j < |b| && i != j && b[i] == a[p] && b[j] == a[q]
  {
    var i := MemberIndex(a, b, p);
    var restA, restB := a[..p] + a[p + 1..], b[..i] + b[i + 1..];
    DropOne(a, p);
    DropOne(b, i);
    assert restA[q - 1] == a[q];
    var j := MemberIndex(restA, restB, q - 1);
    assert b[if j < i then j else j + 1] == a[q];
  }

  lemma DuplicateBlamed<T>(nodes: seq<Node<T>>, sorted: seq<Node<T>>, at: nat)
    requires multiset(sorted) == multiset(nodes) && 0 < at < |sorted| && sorted[at - 1].id == sorted[at].id
    ensures Blames(nodes, DuplicateBinding, sorted[at].id)
  {
    PairCarries(sorted, nodes, at - 1, at);
    var i, j :| 0 <= i < |nodes| && 0 <= j < |nodes| && i != j && nodes[i] == sorted[at - 1] && nodes[j] == sorted[at];
    var first, second := if i < j then i else j, if i < j then j else i;
    assert nodes[first].id == sorted[at].id && nodes[second].id == sorted[at].id;
  }

  lemma OtherBlamed<T>(nodes: seq<Node<T>>, sorted: seq<Node<T>>, at: nat)
    requires multiset(sorted) == multiset(nodes) && at < |sorted|
    ensures HasId(nodes, sorted[at].id)
    ensures sorted[at].parent != "" && !HasId(sorted, sorted[at].parent) ==>
              Blames(nodes, DanglingParent, sorted[at].id)
  {
    var i := MemberIndex(sorted, nodes, at);
    if HasId(nodes, sorted[at].parent) {
      var k :| 0 <= k < |nodes| && nodes[k].id == sorted[at].parent;
      var l := MemberIndex(nodes, sorted, k);
    }
  }

  /** The checks see the sorted list; what they find holds of the list as given. */
  lemma ChecksCarryOver<T>(nodes: seq<Node<T>>, sorted: seq<Node<T>>)
    requires multiset(sorted) == multiset(nodes)
    ensures UniqueIds(sorted) <==> UniqueIds(nodes)
    ensures NoDangling(sorted) <==> NoDangling(nodes)
    ensures Acyclic(sorted) <==> Acyclic(nodes)
  {
    hide UniqueIds, NoDangling, Acyclic;
    if UniqueIds(sorted) { SameUnique(sorted, nodes); }
    if UniqueIds(nodes) { SameUnique(nodes, sorted); }
    if NoDangling(sorted) { SameDangling(sorted, nodes); }
    if NoDangling(nodes) { SameDangling(nodes, sorted); }
    if Acyclic(sorted) { SameAcyclic(sorted, nodes); }
    if Acyclic(nodes) { SameAcyclic(nodes, sorted); }
  }

  method SortByDepth<T>(nodes: seq<Node<T>>, depthOf: map<string, nat>) returns (sorted: seq<Node<T>>)
    ensures multiset(sorted) == multiset(nodes)
    ensures SortedBy(sorted, (a: Node<T>, b: Node<T>) => DepthOrder(depthOf, a, b))
  {
    OrderTotal(Elements(nodes), depthOf);
    sorted := Sort(nodes, (a: Node<T>, b: Node<T>) => DepthOrder(depthOf, a, b));
  }

  /** Succeeds exactly on topologies, and then returns the one normal form; otherwise reports the first failed check. */
  method ValidateAndNormalize<T>(nodes: seq<Node<T>>) returns (result: TopologyResult<T>)
    ensures result.Normal? <==> IsTopology(nodes)
    ensures result.Normal? ==> IsNormalForm(nodes, result.nodes)
    ensures result.Faulty? ==> result.code in Fault(nodes) && Blames(nodes, result.code, result.binding)
  {
    hide Depths, UniqueIds, NoDangling, Acyclic, Alphabetical, WellFormedNodes, SortedBy;
    if nodes == [] {
      return Faulty(EmptyHierarchy, "");
    }
    var at := FirstInvalid(nodes);
    if at < |nodes| {
      FirstFaultKnown(nodes, at);
      assert nodes[at].id == "" ==> Blames(nodes, InvalidBinding, "");
      assert nodes[at].id != "" ==> Blames(nodes, InvalidTransform, nodes[at].id);
      return Faulty(if nodes[at].id == "" then InvalidBinding else InvalidTransform, nodes[at].id);
    }
    var sorted := SortByName(nodes);
    ChecksCarryOver(nodes, sorted);
    at := FirstDuplicate(sorted);
    if at < |sorted| {
      DuplicateBlamed(nodes, sorted, at);
      return Faulty(DuplicateBinding, sorted[at].id);
    }
    at := FirstDangling(sorted);
    if at < |sorted| {
      OtherBlamed(nodes, sorted, at);
      return Faulty(DanglingParent, sorted[at].id);
    }
    var found;
    ghost var d;
    found, at, d := FindCycle(sorted);
    if found {
      OtherBlamed(nodes, sorted, at);
      return Faulty(Cycle, sorted[at].id);
    }
    var depthOf := AllDepths(sorted, d);
    var arranged := SortByDepth(sorted, depthOf);
    SameDepths(sorted, nodes, depthOf);
    return Normal(arranged);
  }

  lemma FirstFaultKnown<T>(nodes: seq<Node<T>>, at: nat)
    requires at < |nodes| && IsFirstFault(nodes, at)
    ensures forall i | 0 <= i < |nodes| && IsFirstFault(nodes, i) :: i == at
    ensures !WellFormedNodes(nodes)
  {
  }
}
