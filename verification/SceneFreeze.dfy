/** Freezing an authoring scene into a runtime scene, keeping the worlds of a previous runtime where they stay valid. */
module SceneFreezes {
  import opened Options
  import opened Sequences
  import opened Polytrees
  import opened TransformStates
  import opened Planning
  import opened Evaluation
  import opened Coherence
  import opened AuthoringScenes

  /** The topology library's freeze result: a static forest and the stable id of each dense handle. */
  datatype Frozen = Frozen(topology: Polytree, ids: seq<nat>)

  /** The value of a runtime scene. */
  datatype Runtime<T> = Runtime(shape: Forest, ids: seq<nat>, state: State<T>, authoringRevisions: seq<nat>)

  /** The frozen forest has the authoring nodes and parents, under dense handles. */
  ghost predicate FreezesTo<T>(a: Authoring<T>, t: Forest, ids: seq<nat>) {
    && |ids| == t.Size() && Distinct(ids) && Elements(ids) == a.parents.Keys
    && forall v: nat | v < t.Size() :: ids[v] in a.parents && a.parents[ids[v]] == StableParent(t, ids, v)
  }

  /** The dense handle of a stable id; the number of handles when it has none. */
  function Handle(ids: seq<nat>, id: nat): (h: nat)
    ensures h <= |ids| && (h < |ids| ==> ids[h] == id) && (h == |ids| ==> id !in ids)
  {
    if ids == [] then 0 else if ids[0] == id then 0 else Handle(ids[1..], id) + 1
  }

  function StableParent(t: Forest, ids: seq<nat>, v: nat): nat
    requires |ids| == t.Size() && v < t.Size()
  {
    if t.HasParent(v) then ids[t.parent[v]] else INVALID_STABLE_NODE
  }

  function NewRecord<T>(authored: AuthoringRecord<T>): Record<T> {
    Record(authored.local, authored.local, authored.localRevision, 0, true)
  }

  ghost predicate WellFormed<T>(r: Runtime<T>) {
    && |r.ids| == |r.state.records| == |r.authoringRevisions| == r.shape.Size()
    && Distinct(r.ids) && INVALID_STABLE_NODE !in r.ids
  }

  /** The record of handle `v` after an incremental freeze. */
  function Refreeze<T>(authored: AuthoringRecord<T>, t: Forest, ids: seq<nat>, v: nat, previous: Runtime<T>): Record<T>
    requires |ids| == t.Size() && v < t.Size()
    requires |previous.ids| == |previous.state.records| == |previous.authoringRevisions| == previous.shape.Size()
  {
    var was := Handle(previous.ids, ids[v]);
    if was == |previous.ids| then NewRecord(authored)
    else
      var r := previous.state.records[was];
      var localChanged := previous.authoringRevisions[was] != authored.localRevision;
      var runtimeLocalDiverged := r.localRevision != previous.authoringRevisions[was];
      var parentChanged := StableParent(previous.shape, previous.ids, was) != StableParent(t, ids, v);
      Record(authored.local, r.world, authored.localRevision, r.worldRevision,
             r.dirty || localChanged || runtimeLocalDiverged || parentChanged)
  }

  function FrozenRecord<T>(authored: AuthoringRecord<T>, t: Forest, ids: seq<nat>, v: nat, previous: Option<Runtime<T>>)
    : Record<T>
    requires |ids| == t.Size() && v < t.Size()
    requires previous.Some? ==>
      |previous.value.ids| == |previous.value.state.records| == |previous.value.authoringRevisions| ==
          previous.value.shape.Size()
  {
    match previous
    case None => NewRecord(authored)
    case Some(p) => Refreeze(authored, t, ids, v, p)
  }

  class RuntimeScene<T> {
    const topology: Polytree
    const ids: seq<nat>
    const state: TransformState<T>
    const authoringRevisions: seq<nat>

    function Value(): Runtime<T>
      reads this, state
    {
      Runtime(topology.shape, ids, state.Value(), authoringRevisions)
    }

    constructor (topology: Polytree, ids: seq<nat>, state: TransformState<T>, authoringRevisions: seq<nat>)
      ensures this.topology == topology && this.ids == ids && this.state == state
      ensures this.authoringRevisions == authoringRevisions
    {
      this.topology, this.ids, this.state, this.authoringRevisions := topology, ids, state, authoringRevisions;
    }
  }

  function Later(a: nat, b: nat): nat { if a < b then b else a }

  /** What a freeze must produce, record by record. */
  ghost predicate IsFreeze<T>(a: Authoring<T>, t: Forest, ids: seq<nat>, previous: Option<Runtime<T>>, r: Runtime<T>)
    requires FreezesTo(a, t, ids) && a.records.Keys == a.parents.Keys
    requires previous.Some? ==> WellFormed(previous.value)
  {
    && r.shape == t && r.ids == ids && |r.state.records| == |r.authoringRevisions| == t.Size()
    && (forall v: nat | v < t.Size() :: r.authoringRevisions[v] == a.records[ids[v]].localRevision)
    && (forall v: nat | v < t.Size() ::
          r.state.records[v] == FrozenRecord(a.records[ids[v]], t, ids, v, previous))
    && r.state.revision == (if previous.None? then a.revision else Later(a.revision, previous.value.state.revision))
    && r.state.Valid()
  }

  function ValueOf<T>(previous: RuntimeScene?<T>): Option<Runtime<T>>
    reads previous, if previous == null then {} else {previous.state}
  {
    if previous == null then None else Some(previous.Value())
  }

  /** Carries one record over, or starts it afresh. */
  method FreezeNode<T>(authored: AuthoringRecord<T>, topology: Polytree, ids: seq<nat>, v: nat,
                       previous: RuntimeScene?<T>)
    returns (record: Record<T>)
    requires |ids| == topology.shape.Size() && v < |ids|
    requires previous != null ==> WellFormed(previous.Value())
    ensures record == FrozenRecord(authored, topology.shape, ids, v, ValueOf(previous))
  {
    if previous == null {
      return NewRecord(authored);
    }
    var was := Handle(previous.ids, ids[v]);
    if was == |previous.ids| {
      return NewRecord(authored);
    }
    record := previous.state.records[was];
    var oldRevision := previous.authoringRevisions[was];
    var localChanged := oldRevision != authored.localRevision;
    var runtimeLocalDiverged := record.localRevision != oldRevision;
    var parentChanged := StableParent(previous.topology.shape, previous.ids, was) !=
                         StableParent(topology.shape, ids, v);
    record := record.(local := authored.local, localRevision := authored.localRevision,
                      dirty := record.dirty || localChanged || runtimeLocalDiverged || parentChanged);
  }

  /** Builds the records one handle at a time. */
  method FreezeRecords<T>(source: AuthoringScene<T>, topology: Polytree, ids: seq<nat>, previous: RuntimeScene?<T>)
    returns (records: seq<Record<T>>, authoringRevisions: seq<nat>)
    requires |ids| == topology.shape.Size() && forall v | 0 <= v < |ids| :: ids[v] in source.records
    requires previous != null ==> WellFormed(previous.Value())
    ensures |records| == |authoringRevisions| == |ids|
    ensures forall v: nat | v < |ids| :: authoringRevisions[v] == source.records[ids[v]].localRevision
    ensures forall v: nat | v < |ids| ::
      records[v] == FrozenRecord(source.records[ids[v]], topology.shape, ids, v, ValueOf(previous))
  {
    hide FrozenRecord, Topology.Valid;
    records, authoringRevisions := [], [];
    for v := 0 to |ids|
      invariant |records| == |authoringRevisions| == v
      invariant forall u: nat | u < v :: authoringRevisions[u] == source.records[ids[u]].localRevision
      invariant forall u: nat | u < v ::
        records[u] == FrozenRecord(source.records[ids[u]], topology.shape, ids, u, ValueOf(previous))
    {
      var authored := source.records[ids[v]];
      var record := FreezeNode(authored, topology, ids, v, previous);
      authoringRevisions := authoringRevisions + [authored.localRevision];
      records := records + [record];
    }
  }

  lemma FrozenIds<T>(a: Authoring<T>, t: Forest, ids: seq<nat>)
    requires a.Coupled() && FreezesTo(a, t, ids)
    ensures |ids| == t.Size() && a.revision <= MAX64 && a.records.Keys == a.parents.Keys
    ensures forall v | 0 <= v < |ids| :: ids[v] in a.records
  {
  }

  method Freeze<T>(source: AuthoringScene<T>, generic: Option<Frozen>, previous: RuntimeScene?<T>)
    returns (outcome: RuntimeScene?<T>)
    requires source.Value().Coupled()
    requires generic.Some? ==> FreezesTo(source.Value(), generic.value.topology.shape, generic.value.ids)
    requires previous != null ==> WellFormed(previous.Value()) && previous.state.Value().Valid()
    ensures outcome == null <==> generic.None?
    ensures outcome != null ==>
      && fresh(outcome) && fresh(outcome.state) && outcome.topology == generic.value.topology
      && IsFreeze(source.Value(), generic.value.topology.shape, generic.value.ids, ValueOf(previous), outcome.Value())
  {
    if generic.None? {
      return null;
    }
    FrozenIds(source.Value(), generic.value.topology.shape, generic.value.ids);
    hide FrozenRecord, Topology.Valid, FreezesTo, Authoring.Coupled, StableParent;
    var topology, ids := generic.value.topology, generic.value.ids;
    var records, authoringRevisions := FreezeRecords(source, topology, ids, previous);
    var revision := if previous == null then source.revision else Later(source.revision, previous.state.revision);
    var state := new TransformState(records, revision);
    outcome := new RuntimeScene(topology, ids, state, authoringRevisions);
  }

  // ----- why kept worlds are right -----

  /** What ties a runtime to the authoring history it came from: a local nobody has touched on either side is shared. */
  ghost predicate Linked<T>(r: Runtime<T>, a: Authoring<T>) {
    && WellFormed(r)
    && forall v: nat | v < r.shape.Size() :: LinkedAt(r, a, v)
  }

  ghost predicate LinkedAt<T>(r: Runtime<T>, a: Authoring<T>, v: nat)
    requires WellFormed(r) && v < r.shape.Size()
  {
    && r.authoringRevisions[v] <= a.revision
    && r.authoringRevisions[v] <= r.state.revision
    && (r.ids[v] in a.records && a.records[r.ids[v]].localRevision == r.authoringRevisions[v]
        && r.state.records[v].localRevision == r.authoringRevisions[v]
        ==> r.state.records[v].local == a.records[r.ids[v]].local)
  }

  /** Authoring edits keep the tie: an edited record carries a revision no runtime has seen. */
  lemma AuthoringKeepsLink<T>(r: Runtime<T>, a: Authoring<T>, b: Authoring<T>)
    requires Linked(r, a) && Follows(a, b)
    ensures Linked(r, b)
  {
    forall v: nat | v < r.shape.Size() ensures LinkedAt(r, b, v) {
      assert LinkedAt(r, a, v);
    }
  }

  /** Runtime operations keep the tie: an edited record carries a revision past every authoring revision. */
  lemma RuntimeKeepsLink<T>(r: Runtime<T>, a: Authoring<T>, s: State<T>)
    requires Linked(r, a) && |s.records| == r.shape.Size() && r.state.revision <= s.revision
    requires forall v: nat | v < r.shape.Size() ::
      || (s.records[v].local == r.state.records[v].local &&
          s.records[v].localRevision == r.state.records[v].localRevision)
      || r.state.revision < s.records[v].localRevision
    ensures Linked(r.(state := s), a)
  {
    forall v: nat | v < r.shape.Size() ensures LinkedAt(r.(state := s), a, v) {
      assert LinkedAt(r, a, v);
    }
  }

  lemma FreezeLinks<T>(a: Authoring<T>, t: Forest, ids: seq<nat>, previous: Option<Runtime<T>>, r: Runtime<T>)
    requires a.Coupled() && FreezesTo(a, t, ids)
    requires previous.Some? ==> WellFormed(previous.value)
    requires IsFreeze(a, t, ids, previous, r)
    ensures Linked(r, a)
    ensures forall v: nat | v < t.Size() :: r.state.records[v].local == a.records[ids[v]].local
  {
    assert forall v: nat | v < t.Size() :: ids[v] in a.parents;
    forall id | id in ids ensures id != INVALID_STABLE_NODE {
      assert id in Elements(ids);
    }
    forall v: nat | v < t.Size() ensures LinkedAt(r, a, v) {
    }
  }

  /** A node whose new record is clean survived with the same local and under the same parent. */
  lemma CleanSurvives<T>(a: Authoring<T>, t: Forest, ids: seq<nat>, p: Runtime<T>, r: Runtime<T>, v: nat)
    returns (was: nat)
    requires a.Coupled() && FreezesTo(a, t, ids) && Linked(p, a)
    requires IsFreeze(a, t, ids, Some(p), r)
    requires v < t.Size() && !r.state.records[v].dirty
    ensures was < p.shape.Size() && p.ids[was] == ids[v] && !p.state.records[was].dirty
    ensures p.state.records[was].local == r.state.records[v].local
    ensures p.state.records[was].world == r.state.records[v].world
    ensures StableParent(p.shape, p.ids, was) == StableParent(t, ids, v)
  {
    was := Handle(p.ids, ids[v]);
    assert LinkedAt(p, a, was);
    assert ids[v] in a.parents;
  }

  /** By induction from the root: a clean path in the new runtime was the same clean path in the previous one, and both
      recompute to the same world. */
  lemma {:induction false} CleanPathKept<T>(a: Authoring<T>, t: Forest, ids: seq<nat>, compose: (T, T) -> T,
                                           p: Runtime<T>, r: Runtime<T>, v: nat) returns (was: nat)
    requires a.Coupled() && FreezesTo(a, t, ids) && Linked(p, a)
    requires IsFreeze(a, t, ids, Some(p), r)
    requires v < t.Size() && v !in Affected(t, Dirty(r.state.records))
    ensures was < p.shape.Size() && p.ids[was] == ids[v]
    ensures was !in Affected(p.shape, Dirty(p.state.records))
    ensures p.state.records[was].world == r.state.records[v].world
    ensures p.shape.Fold(compose, Locals(p.state.records), was) == t.Fold(compose, Locals(r.state.records), v)
    decreases t.Rank(v)
  {
    CleanAbove(t, Dirty(r.state.records), v, v);
    was := CleanSurvives(a, t, ids, p, r, v);
    if t.HasParent(v) {
      var parent := t.parent[v];
      CleanAbove(t, Dirty(r.state.records), parent, v);
      var oldParent := CleanPathKept(a, t, ids, compose, p, r, parent);
      ParentMatches(t, ids, p, v, was, oldParent);
    } else {
      RootMatches(t, ids, p, v, was);
    }
    AffectedByParent(p.shape, Dirty(p.state.records), was);
  }

  lemma ParentMatches<T>(t: Forest, ids: seq<nat>, p: Runtime<T>, v: nat, was: nat, oldParent: nat)
    requires WellFormed(p) && |ids| == t.Size() && v < t.Size() && t.HasParent(v)
    requires was < p.shape.Size() && StableParent(p.shape, p.ids, was) == StableParent(t, ids, v)
    requires oldParent < p.shape.Size() && p.ids[oldParent] == ids[t.parent[v]]
    ensures p.shape.HasParent(was) && p.shape.parent[was] == oldParent
  {
    assert p.ids[oldParent] in p.ids;
  }

  lemma RootMatches<T>(t: Forest, ids: seq<nat>, p: Runtime<T>, v: nat, was: nat)
    requires WellFormed(p) && |ids| == t.Size() && v < t.Size() && !t.HasParent(v)
    requires was < p.shape.Size() && StableParent(p.shape, p.ids, was) == StableParent(t, ids, v)
    ensures !p.shape.HasParent(was)
  {
  }

  /** An incremental freeze of a coherent runtime of the same history is coherent over the new forest and the authored
      locals: insertions, removals, edits on either side and moves away and back included. */
  lemma FreezeCoherent<T>(a: Authoring<T>, t: Forest, ids: seq<nat>, compose: (T, T) -> T,
                          previous: Option<Runtime<T>>, r: Runtime<T>)
    requires a.Coupled() && FreezesTo(a, t, ids)
    requires previous.Some? ==>
      Linked(previous.value, a) && Sound(previous.value.shape, compose, previous.value.state)
    requires IsFreeze(a, t, ids, previous, r)
    ensures Sound(t, compose, r.state) && Linked(r, a)
    ensures forall v: nat | v < t.Size() :: r.state.records[v].local == a.records[ids[v]].local
  {
    FreezeLinks(a, t, ids, previous, r);
    forall v: nat | v < t.Size() && v !in Affected(t, Dirty(r.state.records))
      ensures CoherentAt(t, compose, r.state.records, v)
    {
      CleanAbove(t, Dirty(r.state.records), v, v);
      if previous.Some? {
        var p := previous.value;
        var was := CleanPathKept(a, t, ids, compose, p, r, v);
        assert CoherentAt(p.shape, compose, p.state.records, was);
      }
    }
  }

  // ----- what a freeze keeps -----

  /** What a surviving node carries over. It is clean exactly if it was clean, neither its authored nor its runtime
      local has been edited since the previous freeze, and it is still under the same parent; handles play no part. */
  lemma FreezeKeeps<T>(a: Authoring<T>, t: Forest, ids: seq<nat>, p: Runtime<T>, r: Runtime<T>, v: nat, was: nat)
    requires a.Coupled() && FreezesTo(a, t, ids) && WellFormed(p) && IsFreeze(a, t, ids, Some(p), r)
    requires v < t.Size() && was < p.shape.Size() && p.ids[was] == ids[v]
    ensures ids[v] in a.records
    ensures var prior, authored, frozen := p.state.records[was], a.records[ids[v]], r.state.records[v];
      && frozen.local == authored.local && frozen.localRevision == authored.localRevision
      && frozen.world == prior.world && frozen.worldRevision == prior.worldRevision
      && (!frozen.dirty <==>
            && !prior.dirty
            && prior.localRevision == p.authoringRevisions[was] && p.authoringRevisions[was] == authored.localRevision
            && (t.HasParent(v) <==> p.shape.HasParent(was))
            && (t.HasParent(v) && p.shape.HasParent(was) ==> ids[t.parent[v]] == p.ids[p.shape.parent[was]]))
  {
    assert ids[v] in a.parents;
    assert Handle(p.ids, ids[v]) == was;
    if t.HasParent(v) { assert ids[t.parent[v]] in a.parents; }
    if p.shape.HasParent(was) { assert p.ids[p.shape.parent[was]] in p.ids; }
  }

  /** A node the previous runtime did not have starts dirty, with its local for a world and no world revision. */
  lemma FreezeStarts<T>(a: Authoring<T>, t: Forest, ids: seq<nat>, previous: Option<Runtime<T>>, r: Runtime<T>, v: nat)
    requires a.Coupled() && FreezesTo(a, t, ids) && (previous.Some? ==> WellFormed(previous.value))
    requires IsFreeze(a, t, ids, previous, r)
    requires v < t.Size() && (previous.Some? ==> ids[v] !in previous.value.ids)
    ensures ids[v] in a.records
    ensures var frozen, authored := r.state.records[v], a.records[ids[v]];
      && frozen.local == frozen.world == authored.local
      && frozen.localRevision == authored.localRevision && frozen.worldRevision == 0 && frozen.dirty
  {
    assert ids[v] in a.parents;
  }

  /** The clock of a freeze is behind neither the authoring scene nor the previous runtime, and is one of the two. */
  lemma FreezeClock<T>(a: Authoring<T>, t: Forest, ids: seq<nat>, previous: Option<Runtime<T>>, r: Runtime<T>)
    requires a.Coupled() && FreezesTo(a, t, ids) && (previous.Some? ==> WellFormed(previous.value))
    requires IsFreeze(a, t, ids, previous, r)
    ensures a.revision <= r.state.revision && (previous.Some? ==> previous.value.state.revision <= r.state.revision)
    ensures r.state.revision == a.revision || (previous.Some? && r.state.revision == previous.value.state.revision)
  {
  }

  /** The forest a freeze runs on is the authored one: after an operation that gave `id` the parent `parent`, the node
      of `id` hangs under the node of `parent`, or is a root when there is none. */
  lemma MovedFreezes<T>(a: Authoring<T>, b: Authoring<T>, id: nat, parent: nat, t: Forest, ids: seq<nat>, v: nat)
    requires b.Coupled() && Moved(a, b, id, parent) && FreezesTo(b, t, ids) && v < t.Size() && ids[v] == id
    requires parent == INVALID_STABLE_NODE || parent in b.parents
    ensures parent == INVALID_STABLE_NODE <==> !t.HasParent(v)
    ensures parent != INVALID_STABLE_NODE ==> t.HasParent(v) && ids[t.parent[v]] == parent
    ensures forall u: nat | u < t.Size() && u != v && ids[u] in a.parents ::
              StableParent(t, ids, u) == a.parents[ids[u]]
  {
    assert b.parents[ids[v]] == StableParent(t, ids, v);
    if t.HasParent(v) { assert ids[t.parent[v]] in b.parents; }
    forall u: nat | u < t.Size() && u != v && ids[u] in a.parents ensures StableParent(t, ids, u) == a.parents[ids[u]] {
      assert ids[u] != id;
      assert b.parents[ids[u]] == StableParent(t, ids, u);
    }
  }

  /** Recomputed worlds depend on the authored forest and locals only, not on the numbering of the nodes. */
  lemma {:induction false} FoldsAgree<T>(a: Authoring<T>, t: Forest, ids: seq<nat>, locals: seq<T>, u: Forest,
                                        others: seq<nat>, otherLocals: seq<T>, compose: (T, T) -> T, v: nat, w: nat)
    requires a.Coupled() && FreezesTo(a, t, ids) && FreezesTo(a, u, others)
    requires |locals| == t.Size() && |otherLocals| == u.Size()
    requires forall x: nat | x < t.Size() :: ids[x] in a.records && locals[x] == a.records[ids[x]].local
    requires forall x: nat | x < u.Size() :: others[x] in a.records && otherLocals[x] == a.records[others[x]].local
    requires v < t.Size() && w < u.Size() && ids[v] == others[w]
    ensures t.Fold(compose, locals, v) == u.Fold(compose, otherLocals, w)
    decreases t.Rank(v)
  {
    SameParent(a, t, ids, u, others, v, w);
    if t.HasParent(v) {
      FoldsAgree(a, t, ids, locals, u, others, otherLocals, compose, t.parent[v], u.parent[w]);
    }
  }

  lemma SameParent<T>(a: Authoring<T>, t: Forest, ids: seq<nat>, u: Forest, others: seq<nat>, v: nat, w: nat)
    requires a.Coupled() && FreezesTo(a, t, ids) && FreezesTo(a, u, others)
    requires v < t.Size() && w < u.Size() && ids[v] == others[w]
    ensures t.HasParent(v) <==> u.HasParent(w)
    ensures t.HasParent(v) ==> ids[t.parent[v]] == others[u.parent[w]]
  {
    assert a.parents[ids[v]] == StableParent(t, ids, v) && a.parents[others[w]] == StableParent(u, others, w);
    if t.HasParent(v) { assert ids[t.parent[v]] in a.parents; }
    if u.HasParent(w) { assert others[u.parent[w]] in a.parents; }
  }

  /** Two freezes of one authoring scene, from whatever runtimes or from none and under whatever numbering, hold the
      same world for a node as soon as everything dirty is evaluated: keeping worlds is invisible. */
  lemma FreezesAgree<T>(a: Authoring<T>, compose: (T, T) -> T,
                        t: Forest, ids: seq<nat>, previous: Option<Runtime<T>>, r: Runtime<T>,
                        u: Forest, others: seq<nat>, previousOther: Option<Runtime<T>>, q: Runtime<T>, v: nat, w: nat)
    requires a.Coupled() && FreezesTo(a, t, ids) && FreezesTo(a, u, others)
    requires previous.Some? ==>
      Linked(previous.value, a) && Sound(previous.value.shape, compose, previous.value.state)
    requires previousOther.Some? ==>
      Linked(previousOther.value, a) && Sound(previousOther.value.shape, compose, previousOther.value.state)
    requires IsFreeze(a, t, ids, previous, r) && IsFreeze(a, u, others, previousOther, q)
    requires r.state.revision < MAX64 && q.state.revision < MAX64
    requires v < t.Size() && w < u.Size() && ids[v] == others[w]
    ensures InRange(t, Planned(t, Dirty(r.state.records))) && InRange(u, Planned(u, Dirty(q.state.records)))
    ensures var x := Evaluated(t, compose, r.state, Planned(t, Dirty(r.state.records)));
      var y := Evaluated(u, compose, q.state, Planned(u, Dirty(q.state.records)));
      && |x.records| == t.Size() && |y.records| == u.Size()
      && x.records[v].world == y.records[w].world
  {
    hide Evaluated, Planned, IsFreeze, Linked, FreezesTo;
    FreezeCoherent(a, t, ids, compose, previous, r);
    FreezeCoherent(a, u, others, compose, previousOther, q);
    LocalsAuthored(a, t, ids, r.state.records);
    LocalsAuthored(a, u, others, q.state.records);
    FoldsAgree(a, t, ids, Locals(r.state.records), u, others, Locals(q.state.records), compose, v, w);
    FullyEvaluated(t, compose, r.state, v);
    FullyEvaluated(u, compose, q.state, w);
  }

  lemma LocalsAuthored<T>(a: Authoring<T>, t: Forest, ids: seq<nat>, records: seq<Record<T>>)
    requires a.Coupled() && FreezesTo(a, t, ids) && |records| == t.Size()
    requires forall v: nat | v < t.Size() && ids[v] in a.records :: records[v].local == a.records[ids[v]].local
    ensures forall v: nat | v < t.Size() :: ids[v] in a.records && Locals(records)[v] == a.records[ids[v]].local
  {
    assert forall v: nat | v < t.Size() :: ids[v] in a.parents;
  }

  lemma FullyEvaluated<T>(t: Forest, compose: (T, T) -> T, s: State<T>, v: nat)
    requires Sound(t, compose, s) && s.revision < MAX64 && v < t.Size()
    ensures InRange(t, Planned(t, Dirty(s.records))) && |s.records| == t.Size()
    ensures var s' := Evaluated(t, compose, s, Planned(t, Dirty(s.records)));
      |s'.records| == t.Size() && s'.records[v].world == t.Fold(compose, Locals(s.records), v)
  {
    hide Evaluated, Planned;
    FullEvaluation(t, compose, s);
    EvaluatedSound(t, compose, s, Dirty(s.records));
    var s' := Evaluated(t, compose, s, Planned(t, Dirty(s.records)));
    assert CoherentAt(t, compose, s'.records, v);
  }
}
