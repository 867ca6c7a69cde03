/** The sparse set of moving nodes: single updates, per-record batches, and the sort/coalesce/merge batch. */
module ActiveMotionSets {
  import opened Sequences
  import opened Polytrees
  import opened TransformStates

  datatype MotionError =
    | NoError
    | InvalidHandle
    | InvalidStep
    | TickExhausted
    | SizeMismatch
    | OtherTopology
    | ClockExhausted
    | TransformFailure

  /** An active record, and equally an update: a node with a motion state. */
  datatype Entry<V> = Entry(node: nat, state: V)

  datatype Numbered<V> = Numbered(update: Entry<V>, inputOrder: nat)

  ghost predicate Ascending<V>(s: seq<Entry<V>>) {
    forall i, j | 0 <= i < j < |s| :: s[i].node < s[j].node
  }

  /** Which node moves how. */
  function View<V>(s: seq<Entry<V>>): map<nat, V> {
    if s == [] then map[] else View(s[..|s| - 1])[s[|s| - 1].node := s[|s| - 1].state]
  }

  /** One update: a stationary state removes the node, a moving one records it. */
  function SetOne<V>(m: map<nat, V>, u: Entry<V>, stationary: V -> bool): map<nat, V> {
    if stationary(u.state) then m - {u.node} else m[u.node := u.state]
  }

  /** The updates applied one after the other. */
  function SetAll<V>(m: map<nat, V>, us: seq<Entry<V>>, stationary: V -> bool): map<nat, V> {
    if us == [] then m else SetOne(SetAll(m, us[..|us| - 1], stationary), us[|us| - 1], stationary)
  }

  ghost predicate Touches<V>(us: seq<Entry<V>>, n: nat) {
    exists i :: 0 <= i < |us| && us[i].node == n
  }

  /** The position of the last update for `n`. */
  ghost function Last<V>(us: seq<Entry<V>>, n: nat): (i: nat)
    requires Touches(us, n)
    ensures i < |us| && us[i].node == n
    ensures forall j | i < j < |us| :: us[j].node != n
  {
    if us[|us| - 1].node == n then |us| - 1
    else
      TouchesFront(us, n);
      Last(us[..|us| - 1], n)
  }

  // ----- views -----

  lemma TouchesFront<V>(s: seq<Entry<V>>, n: nat)
    requires s != []
    ensures Touches(s, n) <==> Touches(s[..|s| - 1], n) || s[|s| - 1].node == n
  {
    var front := s[..|s| - 1];
    if Touches(front, n) {
      var i :| 0 <= i < |front| && front[i].node == n;
      assert s[i].node == n;
    }
    if Touches(s, n) {
      var i :| 0 <= i < |s| && s[i].node == n;
      assert i < |front| ==> front[i].node == n;
    }
  }

  lemma {:induction false} ViewNodes<V>(s: seq<Entry<V>>, n: nat)
    ensures n in View(s) <==> Touches(s, n)
  {
    if s != [] {
      TouchesFront(s, n);
      ViewNodes(s[..|s| - 1], n);
    }
  }

  lemma LastIsNew<V>(s: seq<Entry<V>>)
    requires s != [] && Ascending(s)
    ensures s[|s| - 1].node !in View(s[..|s| - 1])
    ensures View(s[..|s| - 1]) == View(s) - {s[|s| - 1].node}
  {
    var front := s[..|s| - 1];
    assert forall i | 0 <= i < |front| :: front[i] == s[i];
    Untouched(front, s[|s| - 1].node);
  }

  lemma {:induction false} ViewMembers<V>(s: seq<Entry<V>>)
    requires Ascending(s)
    ensures forall i | 0 <= i < |s| :: s[i].node in View(s) && View(s)[s[i].node] == s[i].state
    ensures |View(s)| == |s|
  {
    if s != [] {
      LastIsNew(s);
      ViewMembers(s[..|s| - 1]);
    }
  }

  /** The last entry carries the largest node of the view. */
  lemma LastAgrees<V>(a: seq<Entry<V>>, b: seq<Entry<V>>)
    requires Ascending(a) && Ascending(b) && View(a) == View(b) && a != [] && b != []
    ensures a[|a| - 1] == b[|b| - 1]
  {
    var la, lb := a[|a| - 1], b[|b| - 1];
    ViewNodes(a, lb.node);
    ViewNodes(b, la.node);
    var i :| 0 <= i < |b| && b[i].node == la.node;
    var j :| 0 <= j < |a| && a[j].node == lb.node;
  }

  /** An ascending list is determined by its view. */
  lemma {:induction false} ViewDetermines<V>(a: seq<Entry<V>>, b: seq<Entry<V>>)
    requires Ascending(a) && Ascending(b) && View(a) == View(b)
    ensures a == b
  {
    ViewMembers(a);
    ViewMembers(b);
    if a != [] && b != [] {
      LastAgrees(a, b);
      LastIsNew(a);
      LastIsNew(b);
      ViewDetermines(a[..|a| - 1], b[..|b| - 1]);
      assert a == a[..|a| - 1] + [a[|a| - 1]] && b == b[..|b| - 1] + [b[|b| - 1]];
    }
  }

  /** A list without moving updates for `n` leaves `n` alone, and setting `n` first or last is then the same. */
  lemma {:induction false} SetAllElsewhere<V>(m: map<nat, V>, us: seq<Entry<V>>, stationary: V -> bool, n: nat, v: V)
    requires !Touches(us, n)
    ensures SetAll(m[n := v], us, stationary) == SetAll(m, us, stationary)[n := v]
    ensures n in SetAll(m, us, stationary) <==> n in m
    ensures n in m ==> SetAll(m, us, stationary)[n] == m[n]
  {
    if us != [] {
      var front := us[..|us| - 1];
      TouchesFront(us, n);
      SetAllElsewhere(m, front, stationary, n, v);
    }
  }

  /** What all the updates together do to one node is what its last update does. */
  lemma {:induction false} SetAllAt<V>(m: map<nat, V>, us: seq<Entry<V>>, stationary: V -> bool, n: nat)
    ensures var r := SetAll(m, us, stationary);
      if Touches(us, n) then
        var v := us[Last(us, n)].state;
        if stationary(v) then n !in r else n in r && r[n] == v
      else (n in r <==> n in m) && (n in m ==> r[n] == m[n])
  {
    if us != [] {
      var front, last := us[..|us| - 1], us[|us| - 1];
      SetAllAt(m, front, stationary, n);
      TouchesFront(us, n);
    }
  }

  // ----- editing one record -----

  lemma {:induction false} ViewConcat<V>(a: seq<Entry<V>>, b: seq<Entry<V>>)
    ensures View(a + b) == View(a) + View(b)
  {
    if b == [] {
      assert a + b == a;
    } else {
      assert (a + b)[..|a + b| - 1] == a + b[..|b| - 1];
      ViewConcat(a, b[..|b| - 1]);
    }
  }

  lemma ViewOne<V>(e: Entry<V>)
    ensures View([e]) == map[e.node := e.state]
  {
    assert [e][..0] == [];
  }

  lemma Untouched<V>(s: seq<Entry<V>>, n: nat)
    requires forall i | 0 <= i < |s| :: s[i].node != n
    ensures !Touches(s, n) && n !in View(s)
  {
    ViewNodes(s, n);
  }

  lemma MapSplice<V>(a: map<nat, V>, b: map<nat, V>, n: nat, v: V)
    requires n !in b
    ensures a + map[n := v] + b == (a + b)[n := v]
    ensures n !in a ==> a + b == (a + map[n := v] + b) - {n}
  {
  }

  lemma InsertAscends<V>(s: seq<Entry<V>>, p: nat, e: Entry<V>)
    requires Ascending(s) && p <= |s|
    requires (forall i | 0 <= i < p :: s[i].node < e.node) && (forall i | p <= i < |s| :: e.node < s[i].node)
    ensures Ascending(s[..p] + [e] + s[p..])
  {
    var r := s[..p] + [e] + s[p..];
    forall i, j | 0 <= i < j < |r| ensures r[i].node < r[j].node {
      assert r[i] == if i < p then s[i] else if i == p then e else s[i - 1];
      assert r[j] == if j < p then s[j] else if j == p then e else s[j - 1];
    }
  }

  lemma InsertView<V>(s: seq<Entry<V>>, p: nat, e: Entry<V>)
    requires p <= |s| && forall i | p <= i < |s| :: e.node < s[i].node
    ensures View(s[..p] + [e] + s[p..]) == View(s)[e.node := e.state]
  {
    var a, b := s[..p], s[p..];
    Untouched(b, e.node);
    hide View;
    assert s == a + b;
    ViewConcat(a, b);
    ViewConcat(a, [e]);
    ViewConcat(a + [e], b);
    ViewOne(e);
    MapSplice(View(a), View(b), e.node, e.state);
  }

  lemma UpdateSplits<T>(s: seq<T>, p: nat, x: T)
    requires p < |s|
    ensures s[p := x] == s[..p] + [x] + s[p + 1..]
  {
  }

  lemma EraseAscends<V>(s: seq<Entry<V>>, p: nat)
    requires Ascending(s) && p < |s|
    ensures Ascending(s[..p] + s[p + 1..])
  {
    var r := s[..p] + s[p + 1..];
    forall i, j | 0 <= i < j < |r| ensures r[i].node < r[j].node {
      assert r[i] == s[if i < p then i else i + 1];
      assert r[j] == s[if j < p then j else j + 1];
    }
  }

  lemma EraseView<V>(s: seq<Entry<V>>, p: nat)
    requires Ascending(s) && p < |s|
    ensures View(s[..p] + s[p + 1..]) == View(s) - {s[p].node}
  {
    var a, b, e := s[..p], s[p + 1..], s[p];
    assert forall i | 0 <= i < |a| :: a[i] == s[i];
    assert forall i | 0 <= i < |b| :: b[i] == s[p + 1 + i];
    hide View;
    Untouched(a, e.node);
    Untouched(b, e.node);
    UpdateSplits(s, p, e);
    assert s[p := e] == s;
    ViewConcat(a, b);
    ViewConcat(a, [e]);
    ViewConcat(a + [e], b);
    ViewOne(e);
    MapSplice(View(a), View(b), e.node, e.state);
  }

  lemma ReplaceView<V>(s: seq<Entry<V>>, p: nat, v: V)
    requires Ascending(s) && p < |s|
    ensures Ascending(s[p := Entry(s[p].node, v)])
    ensures View(s[p := Entry(s[p].node, v)]) == View(s)[s[p].node := v]
  {
    var a, b, e := s[..p], s[p + 1..], Entry(s[p].node, v);
    Untouched(b, e.node);
    UpdateSplits(s, p, e);
    UpdateSplits(s, p, s[p]);
    assert s[p := s[p]] == s;
    hide View;
    ViewConcat(a, [s[p]]);
    ViewConcat(a + [s[p]], b);
    ViewConcat(a, [e]);
    ViewConcat(a + [e], b);
    ViewOne(e);
    ViewOne(s[p]);
    MapSplice(View(a), View(b), e.node, v);
    MapSplice(View(a), View(b), e.node, s[p].state);
  }

  /** The library lower bound. */
  method LowerBound<V>(s: seq<Entry<V>>, node: nat) returns (p: nat)
    requires Ascending(s)
    ensures p <= |s|
    ensures forall i | 0 <= i < p :: s[i].node < node
    ensures forall i | p <= i < |s| :: node <= s[i].node
  {
    p := 0;
    var hi := |s|;
    while p < hi
      invariant p <= hi <= |s|
      invariant forall i | 0 <= i < p :: s[i].node < node
      invariant forall i | hi <= i < |s| :: node <= s[i].node
    {
      var mid := (p + hi) / 2;
      if s[mid].node < node {
        p := mid + 1;
      } else {
        hi := mid;
      }
    }
  }

  // ----- normalising a batch -----

  /** One entry per updated node, in handle order, holding the state of the node's last update. */
  ghost predicate Normalizes<V>(norm: seq<Entry<V>>, us: seq<Entry<V>>) {
    && Ascending(norm)
    && (forall n :: Touches(norm, n) <==> Touches(us, n))
    && (forall i | 0 <= i < |norm| && Touches(us, norm[i].node) :: norm[i].state == us[Last(us, norm[i].node)].state)
  }

  /** A normalised batch does what the whole batch does. */
  lemma NormalizedSame<V>(m: map<nat, V>, norm: seq<Entry<V>>, us: seq<Entry<V>>, stationary: V -> bool)
    requires Normalizes(norm, us)
    ensures SetAll(m, norm, stationary) == SetAll(m, us, stationary)
  {
    var a, b := SetAll(m, norm, stationary), SetAll(m, us, stationary);
    forall n ensures n in a <==> n in b
             ensures n in a ==> a[n] == b[n]
    {
      SetAllAt(m, norm, stationary, n);
      SetAllAt(m, us, stationary, n);
    }
  }

  /** Handles ascend; within a handle the later update comes first. */
  predicate BatchOrder<V>(a: Numbered<V>, b: Numbered<V>) {
    if a.update.node != b.update.node then a.update.node < b.update.node else a.inputOrder >= b.inputOrder
  }

  /** Some kept entry has the handle of `e` and comes from no earlier update. */
  ghost predicate Represented<V>(kept: seq<Numbered<V>>, e: Numbered<V>) {
    exists k :: 0 <= k < |kept| && kept[k].update.node == e.update.node && kept[k].inputOrder >= e.inputOrder
  }

  lemma RepresentedMore<V>(kept: seq<Numbered<V>>, x: Numbered<V>, e: Numbered<V>)
    requires Represented(kept, e)
    ensures Represented(kept + [x], e)
  {
    var k :| 0 <= k < |kept| && kept[k].update.node == e.update.node && kept[k].inputOrder >= e.inputOrder;
    assert (kept + [x])[k] == kept[k];
  }

  /** Keeps the first entry of every run of equal handles. */
  method Coalesce<V>(sorted: seq<Numbered<V>>) returns (kept: seq<Numbered<V>>)
    requires forall i, j | 0 <= i < j < |sorted| :: BatchOrder(sorted[i], sorted[j])
    ensures forall i, j | 0 <= i < j < |kept| :: kept[i].update.node < kept[j].update.node
    ensures forall k | 0 <= k < |kept| :: kept[k] in sorted
    ensures forall i | 0 <= i < |sorted| :: Represented(kept, sorted[i])
  {
    hide Represented;
    kept := [];
    for i := 0 to |sorted|
      invariant kept == [] <==> i == 0
      invariant forall a, b | 0 <= a < b < |kept| :: kept[a].update.node < kept[b].update.node
      invariant forall k | 0 <= k < |kept| :: kept[k] in sorted
      invariant i > 0 ==> kept[|kept| - 1].update.node == sorted[i - 1].update.node
      invariant i > 0 ==> forall k | i <= k < |sorted| :: BatchOrder(kept[|kept| - 1], sorted[k])
      invariant forall j | 0 <= j < i :: Represented(kept, sorted[j])
    {
      if i == 0 || kept[|kept| - 1].update.node != sorted[i].update.node {
        forall j | 0 <= j < i ensures Represented(kept + [sorted[i]], sorted[j]) {
          RepresentedMore(kept, sorted[i], sorted[j]);
        }
        kept := kept + [sorted[i]];
      }
      RepresentedBy(kept, |kept| - 1, sorted[i]);
    }
  }

  lemma RepresentedBy<V>(kept: seq<Numbered<V>>, k: nat, e: Numbered<V>)
    requires k < |kept| && kept[k].update.node == e.update.node && kept[k].inputOrder >= e.inputOrder
    ensures Represented(kept, e)
  {
  }

  method Number<V>(us: seq<Entry<V>>) returns (numbered: seq<Numbered<V>>)
    ensures |numbered| == |us| && forall i | 0 <= i < |us| :: numbered[i] == Numbered(us[i], i)
  {
    numbered := [];
    for i := 0 to |us|
      invariant |numbered| == i && forall j | 0 <= j < i :: numbered[j] == Numbered(us[j], j)
    {
      numbered := numbered + [Numbered(us[i], i)];
    }
  }

  function Plain<V>(kept: seq<Numbered<V>>): seq<Entry<V>> {
    seq(|kept|, i requires 0 <= i < |kept| => kept[i].update)
  }

  /** Sorting with later updates first and keeping the first of each run is last-write-wins. */
  method Normalize<V>(us: seq<Entry<V>>) returns (norm: seq<Entry<V>>)
    ensures Normalizes(norm, us)
    ensures |norm| <= |us|
  {
    var numbered := Number(us);
    var leq := (a: Numbered<V>, b: Numbered<V>) => BatchOrder(a, b);
    var sorted := Sort(numbered, leq);
    assert forall i, j | 0 <= i < j < |sorted| :: leq(sorted[i], sorted[j]);
    var kept := Coalesce(sorted);
    norm := Plain(kept);
    forall k | 0 <= k < |kept| ensures kept[k] in numbered {
      assert kept[k] in Elements(sorted);
    }
    forall i | 0 <= i < |us| ensures Represented(kept, Numbered(us[i], i)) {
      assert numbered[i] in Elements(sorted);
      var j :| 0 <= j < |sorted| && sorted[j] == numbered[i];
    }
    KeptNormalizes(us, numbered, kept);
    KeptShort(us, numbered, kept);
  }

  /** `kept` lists, in handle order, one numbered update per handle and none older than any other. */
  ghost predicate KeptOf<V>(us: seq<Entry<V>>, numbered: seq<Numbered<V>>, kept: seq<Numbered<V>>) {
    && |numbered| == |us| && (forall i | 0 <= i < |us| :: numbered[i] == Numbered(us[i], i))
    && (forall i, j | 0 <= i < j < |kept| :: kept[i].update.node < kept[j].update.node)
    && (forall k | 0 <= k < |kept| :: kept[k] in numbered)
    && (forall i | 0 <= i < |us| :: Represented(kept, Numbered(us[i], i)))
  }

  lemma KeptTouches<V>(us: seq<Entry<V>>, numbered: seq<Numbered<V>>, kept: seq<Numbered<V>>, n: nat)
    requires KeptOf(us, numbered, kept)
    ensures Touches(Plain(kept), n) ==> Touches(us, n)
  {
    hide Represented;
    if Touches(Plain(kept), n) {
      var k :| 0 <= k < |kept| && Plain(kept)[k].node == n;
      var i :| 0 <= i < |numbered| && numbered[i] == kept[k];
      assert us[i].node == n;
    }
  }

  lemma KeptCovers<V>(us: seq<Entry<V>>, numbered: seq<Numbered<V>>, kept: seq<Numbered<V>>, n: nat)
    requires KeptOf(us, numbered, kept) && Touches(us, n)
    ensures Touches(Plain(kept), n)
  {
    var i :| 0 <= i < |us| && us[i].node == n;
    assert Represented(kept, Numbered(us[i], i));
    var k :| 0 <= k < |kept| && kept[k].update.node == n;
    assert Plain(kept)[k].node == n;
  }

  lemma KeptFrom<V>(us: seq<Entry<V>>, numbered: seq<Numbered<V>>, kept: seq<Numbered<V>>, k: nat)
    requires KeptOf(us, numbered, kept) && k < |kept|
    ensures kept[k].inputOrder < |us| && kept[k].update == us[kept[k].inputOrder]
  {
    hide Represented;
    var i :| 0 <= i < |numbered| && numbered[i] == kept[k];
  }

  /** No update for a kept node is newer than the kept one. */
  lemma KeptNewest<V>(us: seq<Entry<V>>, numbered: seq<Numbered<V>>, kept: seq<Numbered<V>>, k: nat, j: nat)
    requires KeptOf(us, numbered, kept) && k < |kept| && j < |us| && us[j].node == kept[k].update.node
    ensures kept[k].inputOrder >= j
  {
    assert Represented(kept, Numbered(us[j], j));
    var l :| 0 <= l < |kept| && kept[l].update.node == us[j].node && kept[l].inputOrder >= j;
    assert l < k ==> kept[l].update.node < kept[k].update.node;
    assert k < l ==> kept[k].update.node < kept[l].update.node;
  }

  lemma KeptIsLast<V>(us: seq<Entry<V>>, numbered: seq<Numbered<V>>, kept: seq<Numbered<V>>, k: nat)
    requires KeptOf(us, numbered, kept) && k < |kept| && Touches(us, kept[k].update.node)
    ensures kept[k].update.state == us[Last(us, kept[k].update.node)].state
  {
    hide KeptOf, Last, Touches;
    var node := kept[k].update.node;
    KeptFrom(us, numbered, kept, k);
    KeptNewest(us, numbered, kept, k, Last(us, node));
  }

  lemma KeptNormalizes<V>(us: seq<Entry<V>>, numbered: seq<Numbered<V>>, kept: seq<Numbered<V>>)
    requires KeptOf(us, numbered, kept)
    ensures Normalizes(Plain(kept), us)
  {
    var norm := Plain(kept);
    assert Ascending(norm);
    forall n ensures Touches(norm, n) <==> Touches(us, n) {
      KeptTouches(us, numbered, kept, n);
      if Touches(us, n) { KeptCovers(us, numbered, kept, n); }
    }
    forall k | 0 <= k < |norm| && Touches(us, norm[k].node) ensures norm[k].state == us[Last(us, norm[k].node)].state {
      KeptIsLast(us, numbered, kept, k);
    }
  }

  lemma KeptShort<V>(us: seq<Entry<V>>, numbered: seq<Numbered<V>>, kept: seq<Numbered<V>>)
    requires |numbered| == |us|
    requires forall i, j | 0 <= i < j < |kept| :: kept[i].update.node < kept[j].update.node
    requires forall k | 0 <= k < |kept| :: kept[k] in numbered
    ensures |kept| <= |us|
  {
    assert Distinct(kept);
    DistinctCardinality(kept);
    ElementsBound(numbered);
    SubsetBound(Elements(kept), Elements(numbered));
  }

  lemma {:induction false} ElementsBound<T>(s: seq<T>)
    ensures |Elements(s)| <= |s|
  {
    if s != [] {
      ElementsBound(s[..|s| - 1]);
      assert Elements(s) == Elements(s[..|s| - 1]) + {s[|s| - 1]};
    }
  }

  // ----- the two merge passes -----

  /** Both passes walk the records up to `i` and the normalised updates up to `j`, always by smallest handle. */
  ghost predicate Aligned<V>(records: seq<Entry<V>>, norm: seq<Entry<V>>, i: nat, j: nat) {
    && i <= |records| && j <= |norm|
    && (forall a | 0 <= a < j && i < |records| :: norm[a].node < records[i].node)
    && (forall b | 0 <= b < i && j < |norm| :: records[b].node < norm[j].node)
  }

  function MergedView<V>(records: seq<Entry<V>>, norm: seq<Entry<V>>, stationary: V -> bool, i: nat,
                         j: nat): map<nat, V>
    requires i <= |records| && j <= |norm|
  {
    SetAll(View(records[..i]), norm[..j], stationary)
  }

  /** Taking an existing record adds it to the merged view. */
  lemma TakeRecord<V>(records: seq<Entry<V>>, norm: seq<Entry<V>>, stationary: V -> bool, i: nat, j: nat)
    requires Ascending(records) && Ascending(norm) && Aligned(records, norm, i, j) && i < |records|
    requires j < |norm| ==> records[i].node < norm[j].node
    ensures Aligned(records, norm, i + 1, j)
    ensures MergedView(records, norm, stationary, i + 1, j) ==
            MergedView(records, norm, stationary, i, j)[records[i].node := records[i].state]
    ensures records[i].node !in MergedView(records, norm, stationary, i, j)
  {
    var n := records[i].node;
    assert records[..i + 1][..i] == records[..i];
    Untouched(norm[..j], n);
    SetAllElsewhere(View(records[..i]), norm[..j], stationary, n, records[i].state);
    Untouched(records[..i], n);
  }

  lemma FreshUpdate<V>(records: seq<Entry<V>>, norm: seq<Entry<V>>, stationary: V -> bool, i: nat, j: nat)
    requires Ascending(norm) && Aligned(records, norm, i, j) && j < |norm|
    ensures !Touches(norm[..j], norm[j].node) && norm[j].node !in View(records[..i])
    ensures norm[j].node !in MergedView(records, norm, stationary, i, j)
    ensures MergedView(records, norm, stationary, i, j + 1) ==
            SetOne(MergedView(records, norm, stationary, i, j), norm[j], stationary)
  {
    var u := norm[j];
    assert norm[..j + 1][..j] == norm[..j];
    Untouched(norm[..j], u.node);
    Untouched(records[..i], u.node);
    SetAllElsewhere(View(records[..i]), norm[..j], stationary, u.node, u.state);
  }

  /** An update for the next record overrides it. */
  lemma OverrideRecord<V>(records: seq<Entry<V>>, norm: seq<Entry<V>>, stationary: V -> bool, i: nat, j: nat)
    requires Ascending(norm) && Aligned(records, norm, i, j) && j < |norm|
    requires i < |records| && records[i].node == norm[j].node
    ensures MergedView(records, norm, stationary, i + 1, j + 1) == MergedView(records, norm, stationary, i, j + 1)
  {
    FreshUpdate(records, norm, stationary, i, j);
    var n := norm[j].node;
    assert norm[..j + 1][..j] == norm[..j] && records[..i + 1][..i] == records[..i];
    SetAllElsewhere(View(records[..i]), norm[..j], stationary, n, records[i].state);
  }

  lemma UpdateHits<V>(records: seq<Entry<V>>, norm: seq<Entry<V>>, i: nat, j: nat)
    requires Ascending(records) && Ascending(norm) && Aligned(records, norm, i, j) && j < |norm|
    requires i < |records| ==> norm[j].node <= records[i].node
    ensures norm[j].node in View(records) <==> i < |records| && records[i].node == norm[j].node
    ensures Aligned(records, norm, if i < |records| && records[i].node == norm[j].node then i + 1 else i, j + 1)
  {
    var n := norm[j].node;
    ViewNodes(records, n);
    forall b | 0 <= b < |records| && records[b].node == n ensures b == i {
    }
  }

  /** Taking an update applies it, whether or not it replaces the next record. */
  lemma TakeUpdate<V>(records: seq<Entry<V>>, norm: seq<Entry<V>>, stationary: V -> bool, i: nat, j: nat)
    requires Ascending(records) && Ascending(norm) && Aligned(records, norm, i, j) && j < |norm|
    requires i < |records| ==> norm[j].node <= records[i].node
    ensures var same := i < |records| && records[i].node == norm[j].node;
      && (same <==> norm[j].node in View(records))
      && Aligned(records, norm, if same then i + 1 else i, j + 1)
      && MergedView(records, norm, stationary, if same then i + 1 else i, j + 1) ==
         SetOne(MergedView(records, norm, stationary, i, j), norm[j], stationary)
    ensures norm[j].node !in MergedView(records, norm, stationary, i, j)
  {
    UpdateHits(records, norm, i, j);
    FreshUpdate(records, norm, stationary, i, j);
    if i < |records| && records[i].node == norm[j].node {
      OverrideRecord(records, norm, stationary, i, j);
    }
    hide MergedView;
  }

  /** The counting pass: how many records the merge will hold. */
  method CountMerged<V>(records: seq<Entry<V>>, norm: seq<Entry<V>>, stationary: V -> bool) returns (size: nat)
    requires Ascending(records) && Ascending(norm)
    ensures size == |SetAll(View(records), norm, stationary)|
  {
    size := 0;
    var i, j := 0, 0;
    while i < |records| || j < |norm|
      invariant Aligned(records, norm, i, j)
      invariant size == |MergedView(records, norm, stationary, i, j)|
      decreases |records| - i + |norm| - j
    {
      hide View, SetAll, MergedView;
      if j >= |norm| || (i < |records| && records[i].node < norm[j].node) {
        TakeRecord(records, norm, stationary, i, j);
        i, size := i + 1, size + 1;
      } else {
        TakeUpdate(records, norm, stationary, i, j);
        var same := i < |records| && records[i].node == norm[j].node;
        size := size + if stationary(norm[j].state) then 0 else 1;
        i := i + if same then 1 else 0;
        j := j + 1;
      }
    }
    assert i == |records| && j == |norm|;
    MergeEnd(records, norm, stationary);
  }

  lemma MergeEnd<V>(records: seq<Entry<V>>, norm: seq<Entry<V>>, stationary: V -> bool)
    ensures MergedView(records, norm, stationary, |records|, |norm|) == SetAll(View(records), norm, stationary)
  {
    assert records[..|records|] == records && norm[..|norm|] == norm;
  }

  /** Everything merged so far lies before the next record and the next update. */
  ghost predicate Behind<V>(merged: seq<Entry<V>>, records: seq<Entry<V>>, norm: seq<Entry<V>>, i: nat, j: nat) {
    && (forall a | 0 <= a < |merged| && i < |records| :: merged[a].node < records[i].node)
    && (forall a | 0 <= a < |merged| && j < |norm| :: merged[a].node < norm[j].node)
  }

  lemma BehindAfter<V>(merged: seq<Entry<V>>, records: seq<Entry<V>>, norm: seq<Entry<V>>,
                       i: nat, j: nat, e: Entry<V>, i': nat, j': nat)
    requires Ascending(records) && Ascending(norm) && i <= i' <= |records| && j <= j' <= |norm|
    requires Behind(merged, records, norm, i, j)
    ensures Behind(merged, records, norm, i', j')
    ensures (i' < |records| ==> e.node < records[i'].node) && (j' < |norm| ==> e.node < norm[j'].node)
      ==> Behind(merged + [e], records, norm, i', j')
  {
    assert i < i' < |records| ==> records[i].node < records[i'].node;
    assert j < j' < |norm| ==> norm[j].node < norm[j'].node;
  }

  ghost predicate Appends<V>(s: seq<Entry<V>>, e: Entry<V>) {
    Ascending(s + [e]) && View(s + [e]) == View(s)[e.node := e.state]
  }

  lemma BehindAppends<V>(merged: seq<Entry<V>>, records: seq<Entry<V>>, norm: seq<Entry<V>>, i: nat, j: nat)
    requires Ascending(merged) && Behind(merged, records, norm, i, j)
    ensures i < |records| ==> Appends(merged, records[i])
    ensures j < |norm| ==> Appends(merged, norm[j])
  {
    if i < |records| { AppendView(merged, records[i]); }
    if j < |norm| { AppendView(merged, norm[j]); }
  }

  /** Some normalised update up to `j` moves a node or hits an existing record. */
  ghost predicate Effective<V>(records: seq<Entry<V>>, norm: seq<Entry<V>>, stationary: V -> bool, j: nat) {
    exists k :: 0 <= k < j && k < |norm| && (!stationary(norm[k].state) || norm[k].node in View(records))
  }

  lemma EffectiveStep<V>(records: seq<Entry<V>>, norm: seq<Entry<V>>, stationary: V -> bool, j: nat)
    requires j < |norm|
    ensures Effective(records, norm, stationary, j + 1) <==>
      Effective(records, norm, stationary, j) || !stationary(norm[j].state) || norm[j].node in View(records)
    ensures !Effective(records, norm, stationary, 0)
  {
  }

  /** What the merging pass has done: records up to `i` and updates up to `j` are merged, in order. */
  ghost predicate Merging<V>(records: seq<Entry<V>>, norm: seq<Entry<V>>, stationary: V -> bool, i: nat, j: nat,
                             merged: seq<Entry<V>>, mutated: bool)
  {
    && Aligned(records, norm, i, j) && Ascending(merged)
    && View(merged) == MergedView(records, norm, stationary, i, j)
    && Behind(merged, records, norm, i, j)
    && (mutated <==> Effective(records, norm, stationary, j))
  }

  lemma MergingStart<V>(records: seq<Entry<V>>, norm: seq<Entry<V>>, stationary: V -> bool)
    ensures Merging(records, norm, stationary, 0, 0, [], false)
  {
  }

  lemma MergingRecord<V>(records: seq<Entry<V>>, norm: seq<Entry<V>>, stationary: V -> bool, i: nat, j: nat,
                         merged: seq<Entry<V>>, mutated: bool)
    requires Ascending(records) && Ascending(norm) && Merging(records, norm, stationary, i, j, merged, mutated)
    requires i < |records| && (j < |norm| ==> records[i].node < norm[j].node)
    ensures Merging(records, norm, stationary, i + 1, j, merged + [records[i]], mutated)
  {
    hide View, SetAll, MergedView, Effective, Behind;
    TakeRecord(records, norm, stationary, i, j);
    BehindAppends(merged, records, norm, i, j);
    BehindAfter(merged, records, norm, i, j, records[i], i + 1, j);
  }

  lemma MergingUpdate<V>(records: seq<Entry<V>>, norm: seq<Entry<V>>, stationary: V -> bool, i: nat, j: nat,
                         merged: seq<Entry<V>>, mutated: bool)
    requires Ascending(records) && Ascending(norm) && Merging(records, norm, stationary, i, j, merged, mutated)
    requires j < |norm| && (i < |records| ==> norm[j].node <= records[i].node)
    ensures var same, moving := i < |records| && records[i].node == norm[j].node, !stationary(norm[j].state);
      Merging(records, norm, stationary, if same then i + 1 else i, j + 1,
              if moving then merged + [norm[j]] else merged, mutated || same || moving)
  {
    hide View, SetAll, MergedView, Effective, Behind;
    TakeUpdate(records, norm, stationary, i, j);
    EffectiveStep(records, norm, stationary, j);
    var i' := if i < |records| && records[i].node == norm[j].node then i + 1 else i;
    BehindAfter(merged, records, norm, i, j, norm[j], i', j + 1);
    BehindAppends(merged, records, norm, i, j);
  }

  lemma MergingEnd<V>(records: seq<Entry<V>>, norm: seq<Entry<V>>, stationary: V -> bool, merged: seq<Entry<V>>,
                      mutated: bool)
    requires Merging(records, norm, stationary, |records|, |norm|, merged, mutated)
    ensures Ascending(merged) && View(merged) == SetAll(View(records), norm, stationary)
    ensures mutated <==> Effective(records, norm, stationary, |norm|)
  {
    assert records[..|records|] == records && norm[..|norm|] == norm;
  }

  /** The merging pass. */
  method MergeUpdates<V>(records: seq<Entry<V>>, norm: seq<Entry<V>>, stationary: V -> bool)
    returns (merged: seq<Entry<V>>, mutated: bool)
    requires Ascending(records) && Ascending(norm)
    ensures Ascending(merged) && View(merged) == SetAll(View(records), norm, stationary)
    ensures mutated <==> Effective(records, norm, stationary, |norm|)
  {
    hide Merging, Ascending, Effective;
    merged, mutated := [], false;
    var i, j := 0, 0;
    MergingStart(records, norm, stationary);
    while i < |records| || j < |norm|
      invariant i <= |records| && j <= |norm| && Merging(records, norm, stationary, i, j, merged, mutated)
      decreases |records| - i + |norm| - j
    {
      if j >= |norm| || (i < |records| && records[i].node < norm[j].node) {
        MergingRecord(records, norm, stationary, i, j, merged, mutated);
        merged := merged + [records[i]];
        i := i + 1;
      } else {
        MergingUpdate(records, norm, stationary, i, j, merged, mutated);
        var same := i < |records| && records[i].node == norm[j].node;
        if !stationary(norm[j].state) {
          merged := merged + [norm[j]];
        }
        mutated := mutated || same || !stationary(norm[j].state);
        i, j := if same then i + 1 else i, j + 1;
      }
    }
    MergingEnd(records, norm, stationary, merged, mutated);
  }

  lemma AppendView<V>(s: seq<Entry<V>>, e: Entry<V>)
    requires Ascending(s) && forall i | 0 <= i < |s| :: s[i].node < e.node
    ensures Appends(s, e)
  {
    assert (s + [e])[..|s|] == s;
  }

  // ----- the set -----

  /** Strictly ascending handles below `nodes`, none of them stationary. */
  ghost predicate Moving<V>(s: seq<Entry<V>>, nodes: nat, stationary: V -> bool) {
    && Ascending(s)
    && forall i | 0 <= i < |s| :: s[i].node < nodes && !stationary(s[i].state)
  }

  lemma EraseKeeps<V>(s: seq<Entry<V>>, p: nat, nodes: nat, stationary: V -> bool)
    requires Moving(s, nodes, stationary) && p < |s|
    ensures Moving(s[..p] + s[p + 1..], nodes, stationary)
    ensures View(s[..p] + s[p + 1..]) == View(s) - {s[p].node}
  {
    EraseView(s, p);
    EraseAscends(s, p);
  }

  lemma ReplaceKeeps<V>(s: seq<Entry<V>>, p: nat, v: V, nodes: nat, stationary: V -> bool)
    requires Moving(s, nodes, stationary) && p < |s| && !stationary(v)
    ensures Moving(s[p := Entry(s[p].node, v)], nodes, stationary)
    ensures View(s[p := Entry(s[p].node, v)]) == View(s)[s[p].node := v]
  {
    ReplaceView(s, p, v);
  }

  lemma InsertKeeps<V>(s: seq<Entry<V>>, p: nat, e: Entry<V>, nodes: nat, stationary: V -> bool)
    requires Moving(s, nodes, stationary) && p <= |s| && e.node < nodes && !stationary(e.state)
    requires (forall i | 0 <= i < p :: s[i].node < e.node) && (forall i | p <= i < |s| :: e.node < s[i].node)
    ensures Moving(s[..p] + [e] + s[p..], nodes, stationary)
    ensures View(s[..p] + [e] + s[p..]) == View(s)[e.node := e.state]
  {
    InsertView(s, p, e);
    InsertAscends(s, p, e);
  }

  /** How many of the updates change the set when they are applied one after the other. */
  function Changes<V>(m: map<nat, V>, us: seq<Entry<V>>, stationary: V -> bool): nat {
    if us == [] then 0
    else
      var front, u := us[..|us| - 1], us[|us| - 1];
      Changes(m, front, stationary) + if stationary(u.state) && u.node !in SetAll(m, front, stationary) then 0 else 1
  }

  /** The generation after `n` changes. */
  function Bumped(generation: nat, n: nat): nat {
    if n == 0 then generation else Increment64(Bumped(generation, n - 1))
  }

  lemma {:induction false} NoChanges<V>(m: map<nat, V>, us: seq<Entry<V>>, stationary: V -> bool)
    requires Changes(m, us, stationary) == 0
    ensures SetAll(m, us, stationary) == m
    ensures forall i | 0 <= i < |us| :: stationary(us[i].state) && us[i].node !in m
  {
    if us != [] {
      NoChanges(m, us[..|us| - 1], stationary);
      assert forall i | 0 <= i < |us| - 1 :: us[..|us| - 1][i] == us[i];
    }
  }

  /** A merging batch that moves the generation is one whose updates, set one by one, move it too. */
  lemma BatchMovesLess<V>(m: map<nat, V>, us: seq<Entry<V>>, stationary: V -> bool)
    ensures Mutates(m, us, stationary) ==> Changes(m, us, stationary) > 0
  {
    if Changes(m, us, stationary) == 0 {
      NoChanges(m, us, stationary);
    }
  }

  /** The value of a set. */
  datatype Motions<V> = Motions(topology: Polytree, nodeCount: nat, records: seq<Entry<V>>)

  class ActiveMotionSet<V> {
    const topologyIdentity: Polytree
    const nodeCount: nat
    var records: seq<Entry<V>>
    var generation: nat

    /** Strictly ascending handles of the topology, none of them stationary. */
    ghost predicate Valid(stationary: V -> bool)
      reads this
    {
      Moving(records, nodeCount, stationary)
    }

    function Value(): Motions<V>
      reads this
    {
      Motions(topologyIdentity, nodeCount, records)
    }

    constructor (topology: Polytree)
      ensures topologyIdentity == topology && nodeCount == topology.shape.Size()
      ensures records == [] && generation == 0
    {
      topologyIdentity := topology;
      nodeCount := topology.shape.Size();
      records := [];
      generation := 0;
    }

    method Set(node: nat, state: V, stationary: V -> bool) returns (error: MotionError)
      requires Valid(stationary)
      modifies this
      ensures Valid(stationary)
      ensures node >= nodeCount ==> error == InvalidHandle && records == old(records) && generation == old(generation)
      ensures node < nodeCount ==>
        && error == NoError
        && View(records) == SetOne(old(View(records)), Entry(node, state), stationary)
        && generation == if stationary(state) && node !in old(View(records)) then old(generation)
                         else Increment64(old(generation))
    {
      if node >= nodeCount {
        return InvalidHandle;
      }
      var position := LowerBound(records, node);
      var exists_ := position < |records| && records[position].node == node;
      Present(records, position, node);
      hide View, Moving;
      if stationary(state) {
        if exists_ {
          EraseKeeps(records, position, nodeCount, stationary);
          records := records[..position] + records[position + 1..];
          generation := Increment64(generation);
        }
        return NoError;
      }
      if exists_ {
        ReplaceKeeps(records, position, state, nodeCount, stationary);
        records := records[position := Entry(node, state)];
      } else {
        InsertKeeps(records, position, Entry(node, state), nodeCount, stationary);
        records := records[..position] + [Entry(node, state)] + records[position..];
      }
      generation := Increment64(generation);
      return NoError;
    }

    method Deactivate(node: nat, ghost stationary: V -> bool) returns (error: MotionError)
      requires Valid(stationary)
      modifies this
      ensures Valid(stationary)
      ensures node >= nodeCount ==> error == InvalidHandle && records == old(records) && generation == old(generation)
      ensures node < nodeCount ==>
        && error == NoError
        && View(records) == old(View(records)) - {node}
        && generation == if node in old(View(records)) then Increment64(old(generation)) else old(generation)
    {
      if node >= nodeCount {
        return InvalidHandle;
      }
      var position := LowerBound(records, node);
      Present(records, position, node);
      hide View, Moving;
      if position < |records| && records[position].node == node {
        EraseKeeps(records, position, nodeCount, stationary);
        records := records[..position] + records[position + 1..];
        generation := Increment64(generation);
      }
      return NoError;
    }

    method Clear(ghost stationary: V -> bool)
      modifies this
      ensures Valid(stationary) && records == []
      ensures generation == if old(records) == [] then old(generation) else Increment64(old(generation))
    {
      if records != [] {
        records := [];
        generation := Increment64(generation);
      }
    }

    /** The per-record batch: all handles are checked first, then the updates are set one by one. */
    method ApplyEach(updates: seq<Entry<V>>, stationary: V -> bool) returns (error: MotionError)
      requires Valid(stationary)
      modifies this
      ensures Valid(stationary)
      ensures error == if exists i :: 0 <= i < |updates| && updates[i].node >= nodeCount then InvalidHandle else NoError
      ensures error != NoError ==> records == old(records) && generation == old(generation)
      ensures error == NoError ==>
        && View(records) == SetAll(old(View(records)), updates, stationary)
        && generation == Bumped(old(generation), Changes(old(View(records)), updates, stationary))
    {
      if exists i :: 0 <= i < |updates| && updates[i].node >= nodeCount {
        return InvalidHandle;
      }
      assert updates[..0] == [];
      for i := 0 to |updates|
        invariant Valid(stationary)
        invariant View(records) == SetAll(old(View(records)), updates[..i], stationary)
        invariant generation == Bumped(old(generation), Changes(old(View(records)), updates[..i], stationary))
      {
        hide View;
        assert updates[..i + 1][..i] == updates[..i];
        error := Set(updates[i].node, updates[i].state, stationary);
      }
      assert updates[..|updates|] == updates;
      return NoError;
    }

    /** The merging batch: the same records as setting the updates one by one; the generation moves, by one, exactly
        when some node's last update moves it or hits a record. `reserved` is the capacity asked for. */
    method ApplyBatch(updates: seq<Entry<V>>, stationary: V -> bool) returns (error: MotionError, reserved: nat)
      requires Valid(stationary)
      modifies this
      ensures Valid(stationary)
      ensures error == if exists i :: 0 <= i < |updates| && updates[i].node >= nodeCount then InvalidHandle else NoError
      ensures error != NoError ==> records == old(records) && generation == old(generation)
      ensures error == NoError ==>
        && View(records) == SetAll(old(View(records)), updates, stationary)
        && reserved == |records|
        && generation == if Mutates(old(View(records)), updates, stationary) then Increment64(old(generation))
                         else old(generation)
      ensures !Mutates(old(View(records)), updates, stationary) ==> records == old(records)
    {
      reserved := 0;
      if exists i :: 0 <= i < |updates| && updates[i].node >= nodeCount {
        return InvalidHandle, 0;
      }
      var norm := Normalize(updates);
      reserved := CountMerged(records, norm, stationary);
      var merged, mutated := MergeUpdates(records, norm, stationary);
      NormalizedSame(View(records), norm, updates, stationary);
      NormalizedMutates(records, norm, updates, stationary);
      MergedValid(records, updates, merged, stationary, nodeCount);
      ViewMembers(merged);
      if mutated {
        records := merged;
        generation := Increment64(generation);
      } else {
        NothingChanges(records, updates, stationary);
        ViewDetermines(merged, records);
      }
      return NoError, reserved;
    }
  }

  lemma Present<V>(s: seq<Entry<V>>, p: nat, node: nat)
    requires Ascending(s) && p <= |s|
    requires (forall i | 0 <= i < p :: s[i].node < node) && (forall i | p <= i < |s| :: node <= s[i].node)
    ensures p < |s| && s[p].node == node <==> node in View(s)
    ensures !(p < |s| && s[p].node == node) ==> forall i | p <= i < |s| :: node < s[i].node
  {
    ViewNodes(s, node);
    forall i | 0 <= i < |s| && s[i].node == node ensures i == p {
    }
  }

  /** Some node's last update moves it, or hits a record. */
  ghost predicate Mutates<V>(m: map<nat, V>, us: seq<Entry<V>>, stationary: V -> bool) {
    exists n :: Touches(us, n) && (!stationary(us[Last(us, n)].state) || n in m)
  }

  lemma NormalizedMutates<V>(records: seq<Entry<V>>, norm: seq<Entry<V>>, us: seq<Entry<V>>, stationary: V -> bool)
    requires Normalizes(norm, us)
    ensures Effective(records, norm, stationary, |norm|) <==> Mutates(View(records), us, stationary)
  {
    if Effective(records, norm, stationary, |norm|) {
      var k :| 0 <= k < |norm| && (!stationary(norm[k].state) || norm[k].node in View(records));
      assert Touches(norm, norm[k].node);
    }
    if Mutates(View(records), us, stationary) {
      var n :| Touches(us, n) && (!stationary(us[Last(us, n)].state) || n in View(records));
      assert Touches(norm, n);
      var k :| 0 <= k < |norm| && norm[k].node == n;
    }
  }

  lemma NothingChanges<V>(records: seq<Entry<V>>, us: seq<Entry<V>>, stationary: V -> bool)
    requires !Mutates(View(records), us, stationary)
    ensures SetAll(View(records), us, stationary) == View(records)
  {
    forall n ensures n in SetAll(View(records), us, stationary) <==> n in View(records)
             ensures n in View(records) && n in SetAll(View(records), us, stationary) ==>
                       SetAll(View(records), us, stationary)[n] == View(records)[n]
    {
      SetAllAt(View(records), us, stationary, n);
    }
  }

  lemma MergedValid<V>(records: seq<Entry<V>>, us: seq<Entry<V>>, merged: seq<Entry<V>>, stationary: V -> bool,
                       nodes: nat)
    requires Moving(records, nodes, stationary)
    requires forall i | 0 <= i < |us| :: us[i].node < nodes
    requires Ascending(merged) && View(merged) == SetAll(View(records), us, stationary)
    ensures Moving(merged, nodes, stationary)
  {
    ViewMembers(merged);
    ViewMembers(records);
    forall i | 0 <= i < |merged| ensures merged[i].node < nodes && !stationary(merged[i].state) {
      var n := merged[i].node;
      SetAllAt(View(records), us, stationary, n);
      if !Touches(us, n) {
        ViewNodes(records, n);
        var k :| 0 <= k < |records| && records[k].node == n;
      }
    }
  }

  /** Two sets with the same history of updates, one batched and one not, hold the same records. */
  lemma BatchesAgree<V>(a: seq<Entry<V>>, b: seq<Entry<V>>, before: seq<Entry<V>>, us: seq<Entry<V>>,
                        stationary: V -> bool)
    requires Ascending(a) && Ascending(b)
    requires View(a) == SetAll(View(before), us, stationary) && View(b) == SetAll(View(before), us, stationary)
    ensures a == b
  {
    ViewDetermines(a, b);
  }
}
