/** Inferring a prefab's topology from its entities: one node per transform, named by its path from the root. */
module EntityHierarchies {
  import opened Sequences
  import opened Names
  import opened PrefabPaths
  import opened PrefabTopologies

  /** An entity; id zero is the invalid id and parent zero means none. */
  datatype Entity<T> = Entity(hasTransform: bool, id: nat, name: string, parent: nat, local: T, finite: bool)

  datatype Inferred<T> = Inferred(entity: Entity<T>, depth: nat, path: string)

  datatype Hierarchy<T> =
    | Extracted(nodes: seq<Node<T>>, entities: seq<nat>)
    | Rejected(code: TopologyCode, name: string)

  /** The entities that take part. */
  function WithTransform<T>(entities: seq<Entity<T>>): seq<Entity<T>> {
    if entities == [] then []
    else WithTransform(entities[..|entities| - 1]) +
         if entities[|entities| - 1].hasTransform then [entities[|entities| - 1]] else []
  }

  /** They are the entities with a transform, in the order they come in. */
  lemma {:induction false} TakingPart<T>(entities: seq<Entity<T>>)
    ensures WithTransform(entities) == Restrict(entities, set e | e in entities && e.hasTransform)
  {
    if entities != [] {
      var front := entities[..|entities| - 1];
      TakingPart(front);
      RestrictSame(front, set e | e in front && e.hasTransform, set e | e in entities && e.hasTransform);
    }
  }

  /** All of them usable, no two with the same id. */
  ghost predicate Usable<T>(kept: seq<Entity<T>>) {
    && (forall i | 0 <= i < |kept| :: kept[i].id != 0 && kept[i].finite)
    && (forall i, j | 0 <= i < j < |kept| :: kept[i].id != kept[j].id)
  }

  /** Some entity has the invalid id, or two have the same. */
  ghost predicate BadIds<T>(kept: seq<Entity<T>>) {
    || (exists i :: 0 <= i < |kept| && kept[i].id == 0)
    || exists i, j :: 0 <= i < j < |kept| && kept[i].id == kept[j].id
  }

  ghost predicate BadTransform<T>(kept: seq<Entity<T>>) {
    exists i :: 0 <= i < |kept| && !kept[i].finite
  }

  /** Every parent can be ranked below its children: following parents never comes back. */
  ghost predicate ParentsClimb<T>(kept: seq<Entity<T>>) {
    exists rank: map<nat, nat> :: Climbs(kept, rank)
  }

  ghost predicate Climbs<T>(kept: seq<Entity<T>>, rank: map<nat, nat>) {
    forall i | 0 <= i < |kept| :: RankedOver(kept[i], rank)
  }

  ghost predicate RankedOver<T>(e: Entity<T>, rank: map<nat, nat>) {
    e.id in rank && (e.parent != 0 ==> e.parent in rank && rank[e.parent] < rank[e.id])
  }

  /** `chain` leads from entity `index` up its parents to one without a name. */
  ghost predicate NamelessChain<T>(kept: seq<Entity<T>>, index: nat, chain: seq<nat>) {
    && chain != [] && chain[0] == index && (forall k | 0 <= k < |chain| :: chain[k] < |kept|)
    && (forall k | 0 <= k < |chain| - 1 :: kept[chain[k]].parent != 0 && kept[chain[k]].parent == kept[chain[k + 1]].id)
    && kept[chain[|chain| - 1]].name == ""
  }

  ghost predicate NamelessAbove<T>(kept: seq<Entity<T>>, index: nat) {
    exists chain :: NamelessChain(kept, index, chain)
  }

  ghost predicate HasEntity<T>(kept: seq<Entity<T>>, id: nat) {
    exists i :: 0 <= i < |kept| && kept[i].id == id
  }

  ghost predicate ParentsKept<T>(kept: seq<Entity<T>>) {
    forall i | 0 <= i < |kept| && kept[i].parent != 0 :: HasEntity(kept, kept[i].parent)
  }

  /** The names from the root down to the entity, none of them empty. */
  ghost predicate TrailAt<T>(e: Entity<T>, trails: map<nat, seq<string>>) {
    && e.id in trails && e.name != ""
    && (e.parent == 0 ==> trails[e.id] == [e.name])
    && (e.parent != 0 ==> e.parent in trails && trails[e.parent] != [] && trails[e.id] == trails[e.parent] + [e.name])
  }

  ghost predicate Trails<T>(kept: seq<Entity<T>>, trails: map<nat, seq<string>>) {
    forall i | 0 <= i < |kept| :: TrailAt(kept[i], trails)
  }

  /** No two entities have the same names above them and the same name. */
  ghost predicate TrailsDiffer<T>(kept: seq<Entity<T>>, trails: map<nat, seq<string>>)
    requires Trails(kept, trails)
  {
    forall i, j | 0 <= i < j < |kept| :: TrailAt(kept[i], trails) && TrailAt(kept[j], trails) &&
        trails[kept[i].id] != trails[kept[j].id]
  }

  ghost predicate IsHierarchy<T>(entities: seq<Entity<T>>) {
    var kept := WithTransform(entities);
    && Usable(kept) && kept != [] && ParentsKept(kept)
    && exists trails: map<nat, seq<string>> :: Trails(kept, trails) && TrailsDiffer(kept, trails)
  }

  lemma {:induction false} TrailNonempty<T>(e: Entity<T>, trails: map<nat, seq<string>>)
    requires TrailAt(e, trails)
    ensures trails[e.id] != [] && Path(trails[e.id]) != ""
  {
    EscapeRoundTrip(e.name);
    var t := trails[e.id];
    assert t[|t| - 1] == e.name;
  }

  // ----- collecting -----

  /** Where each kept entity is. */
  ghost predicate Indexed<T>(kept: seq<Entity<T>>, byEntity: map<nat, nat>) {
    && (forall i | 0 <= i < |kept| :: kept[i].id in byEntity && byEntity[kept[i].id] == i)
    && (forall id | id in byEntity :: byEntity[id] < |kept| && kept[byEntity[id]].id == id)
  }

  lemma KeptNext<T>(entities: seq<Entity<T>>, i: nat)
    requires i < |entities|
    ensures WithTransform(entities[..i + 1]) ==
          WithTransform(entities[..i]) + if entities[i].hasTransform then [entities[i]] else []
  {
    assert entities[..i + 1][..i] == entities[..i];
  }

  lemma UsableNext<T>(kept: seq<Entity<T>>, e: Entity<T>)
    ensures Usable(kept + [e]) <==> Usable(kept) && e.id != 0 && e.finite && !HasEntity(kept, e.id)
  {
    var more := kept + [e];
    if Usable(more) {
      assert more[|kept|] == e;
      forall i | 0 <= i < |kept| ensures kept[i].id != 0 && kept[i].finite && kept[i].id != e.id {
        assert more[i] == kept[i];
      }
      forall i, j | 0 <= i < j < |kept| ensures kept[i].id != kept[j].id {
        assert more[i] == kept[i] && more[j] == kept[j];
      }
    }
  }

  /** Faults stay, and the next entity may bring one. */
  lemma FaultsNext<T>(kept: seq<Entity<T>>, e: Entity<T>)
    ensures BadIds(kept) || e.id == 0 || HasEntity(kept, e.id) ==> BadIds(kept + [e])
    ensures BadTransform(kept) || !e.finite ==> BadTransform(kept + [e])
    ensures forall id :: HasEntity(kept, id) || id == e.id ==> HasEntity(kept + [e], id)
  {
    var more := kept + [e];
    assert more[|kept|] == e;
    assert forall i | 0 <= i < |kept| :: more[i] == kept[i];
    if i, j :| 0 <= i < j < |kept| && kept[i].id == kept[j].id {
      assert more[i].id == more[j].id;
    }
    if i :| 0 <= i < |kept| && kept[i].id == e.id {
      assert more[i].id == more[|kept|].id;
    }
    forall id | HasEntity(kept, id) ensures HasEntity(more, id) {
      var i :| 0 <= i < |kept| && kept[i].id == id;
      assert more[i].id == id;
    }
  }

  /** Takes up the entities in order. A later fault overwrites the code of an earlier one. */
  method Collect<T>(entities: seq<Entity<T>>)
    returns (faulty: bool, code: TopologyCode, kept: seq<Entity<T>>, byEntity: map<nat, nat>)
    ensures faulty <==> !Usable(WithTransform(entities))
    ensures !faulty ==> kept == WithTransform(entities) && Indexed(kept, byEntity)
    ensures faulty ==> code == InvalidBinding || code == InvalidTransform
    ensures faulty && code == InvalidBinding ==> BadIds(WithTransform(entities))
    ensures faulty && code == InvalidTransform ==> BadTransform(WithTransform(entities))
  {
    hide Usable, HasEntity, WithTransform, BadIds, BadTransform;
    faulty, code, kept, byEntity := false, InvalidBinding, [], map[];
    assert entities[..0] == [];
    EmptyUsable(entities[..0]);
    for i := 0 to |entities|
      invariant faulty <==> !Usable(WithTransform(entities[..i]))
      invariant faulty ==> code == InvalidBinding || code == InvalidTransform
      invariant faulty && code == InvalidBinding ==> BadIds(WithTransform(entities[..i]))
      invariant faulty && code == InvalidTransform ==> BadTransform(WithTransform(entities[..i]))
      invariant forall id | id in byEntity :: HasEntity(WithTransform(entities[..i]), id)
      invariant Indexed(kept, byEntity)
      invariant !faulty ==> kept == WithTransform(entities[..i])
    {
      var e := entities[i];
      KeptNext(entities, i);
      UsableNext(WithTransform(entities[..i]), e);
      IndexedHas(kept, byEntity, e.id);
      if e.hasTransform { FaultsNext(WithTransform(entities[..i]), e); }
      if e.hasTransform {
        if e.id == 0 || e.id in byEntity {
          faulty, code := true, InvalidBinding;
        } else if !e.finite {
          faulty, code := true, InvalidTransform;
        } else {
          byEntity := byEntity[e.id := |kept|];
          kept := kept + [e];
        }
      } else {
        assert WithTransform(entities[..i]) + [] == WithTransform(entities[..i]);
      }
    }
    assert entities[..|entities|] == entities;
  }

  lemma EmptyUsable<T>(none: seq<Entity<T>>)
    requires none == []
    ensures Usable(WithTransform(none)) && WithTransform(none) == []
  {
  }

  lemma IndexedHas<T>(kept: seq<Entity<T>>, byEntity: map<nat, nat>, id: nat)
    requires Indexed(kept, byEntity)
    ensures id in byEntity <==> HasEntity(kept, id)
  {
  }

  method FindDangling<T>(kept: seq<Entity<T>>, byEntity: map<nat, nat>) returns (at: nat)
    requires Indexed(kept, byEntity)
    ensures at <= |kept| && (at == |kept| <==> ParentsKept(kept))
  {
    hide HasEntity;
    at := 0;
    while at < |kept|
      invariant at <= |kept| && forall i | 0 <= i < at && kept[i].parent != 0 :: HasEntity(kept, kept[i].parent)
    {
      IndexedHas(kept, byEntity, kept[at].parent);
      if kept[at].parent != 0 && kept[at].parent !in byEntity {
        return;
      }
      at := at + 1;
    }
  }

  // ----- building paths -----

  /** Finished entries have their trail, its path and its depth. */
  ghost predicate BuiltAt<T>(x: Inferred<T>, trails: map<nat, seq<string>>) {
    TrailAt(x.entity, trails) && x.path == Path(trails[x.entity.id]) && x.depth + 1 == |trails[x.entity.id]|
  }

  ghost predicate Built<T>(kept: seq<Entity<T>>, inferred: seq<Inferred<T>>, state: seq<nat>,
                           trails: map<nat, seq<string>>) {
    && |inferred| == |state| == |kept|
    && (forall i | 0 <= i < |kept| :: inferred[i].entity == kept[i] && state[i] <= 2)
    && (forall i | 0 <= i < |kept| && state[i] == 2 :: BuiltAt(inferred[i], trails))
    && (forall i | 0 <= i < |kept| && kept[i].id in trails :: state[i] == 2)
  }

  /** In `trails`, the entries being built lie below `index`. */
  ghost predicate Below<T>(kept: seq<Entity<T>>, state: seq<nat>, trails: map<nat, seq<string>>, index: nat)
    requires index < |kept| == |state|
  {
    && Trails(kept, trails)
    && TrailAt(kept[index], trails)
    && forall i | 0 <= i < |kept| && state[i] == 1 ::
         TrailAt(kept[i], trails) && |trails[kept[i].id]| > |trails[kept[index].id]|
  }

  ghost predicate Reachable<T>(kept: seq<Entity<T>>, state: seq<nat>, index: nat)
    requires index < |kept| == |state|
  {
    exists full: map<nat, seq<string>> :: Below(kept, state, full, index)
  }

  /** Parents can be ranked below their children, with every entry being built above `index`. */
  ghost predicate ClimbsOver<T>(kept: seq<Entity<T>>, state: seq<nat>, index: nat)
    requires index < |kept| == |state|
  {
    exists rank: map<nat, nat> :: RanksOver(kept, state, rank, index)
  }

  ghost predicate RanksOver<T>(kept: seq<Entity<T>>, state: seq<nat>, rank: map<nat, nat>, index: nat)
    requires index < |kept| == |state|
  {
    && Climbs(kept, rank) && RankedOver(kept[index], rank)
    && forall i | 0 <= i < |kept| && state[i] == 1 ::
      RankedOver(kept[i], rank) && rank[kept[i].id] > rank[kept[index].id]
  }

  /** An entry being built cannot be ranked over itself. */
  lemma BuildingBlocks<T>(kept: seq<Entity<T>>, state: seq<nat>, index: nat)
    requires index < |kept| == |state| && state[index] == 1
    ensures !ClimbsOver(kept, state, index)
  {
  }

  lemma ClimbsToParent<T>(kept: seq<Entity<T>>, state: seq<nat>, index: nat, parent: nat)
    requires index < |kept| == |state| && state[index] == 0 && ClimbsOver(kept, state, index)
    requires parent < |kept| && kept[index].parent == kept[parent].id && kept[index].parent != 0
    ensures ClimbsOver(kept, state[index := 1], parent)
  {
    var rank: map<nat, nat> :| RanksOver(kept, state, rank, index);
    assert RankedOver(kept[parent], rank);
    assert RanksOver(kept, state[index := 1], rank, parent);
  }

  lemma NamelessHere<T>(kept: seq<Entity<T>>, index: nat)
    requires index < |kept| && kept[index].name == ""
    ensures NamelessAbove(kept, index)
  {
    assert NamelessChain(kept, index, [index]);
  }

  lemma NamelessFurther<T>(kept: seq<Entity<T>>, index: nat, parent: nat)
    requires index < |kept| && parent < |kept| && kept[index].parent == kept[parent].id && kept[index].parent != 0
    requires NamelessAbove(kept, parent)
    ensures NamelessAbove(kept, index)
  {
    var chain :| NamelessChain(kept, parent, chain);
    var longer := [index] + chain;
    assert longer[1] == parent;
    assert longer[|longer| - 1] == chain[|chain| - 1];
    forall k | 0 <= k < |longer| - 1
      ensures kept[longer[k]].parent != 0 && kept[longer[k]].parent == kept[longer[k + 1]].id
    {
      if k > 0 { assert longer[k] == chain[k - 1] && longer[k + 1] == chain[k]; }
    }
    assert NamelessChain(kept, index, longer);
  }

  /** The memoised descent to the root, writing paths on the way back. */
  method BuildPath<T>(kept: seq<Entity<T>>, byEntity: map<nat, nat>, index: nat, inferred: seq<Inferred<T>>,
                      state: seq<nat>,
                      ghost trails: map<nat, seq<string>>)
    returns (ok: bool, code: TopologyCode, built: seq<Inferred<T>>, after: seq<nat>, ghost more: map<nat, seq<string>>)
    requires Indexed(kept, byEntity) && ParentsKept(kept) && index < |kept|
    requires Built(kept, inferred, state, trails)
    ensures |after| == |state|
    ensures ok ==> Built(kept, built, after, more) && after[index] == 2
    ensures ok ==> forall i | 0 <= i < |kept| :: after[i] == 1 <==> state[i] == 1
    ensures ok ==> forall i | 0 <= i < |kept| && state[i] == 2 :: after[i] == 2
    ensures !ok ==> code == Cycle || code == InvalidBinding
    ensures !ok && code == Cycle ==> !ClimbsOver(kept, state, index)
    ensures !ok && code == InvalidBinding ==> NamelessAbove(kept, index)
    ensures Reachable(kept, state, index) ==> ok
    decreases |Unvisited(state)|
  {
    hide Built, BuiltAt, Path, Escape, Usable, Reachable, TrailAt, Indexed, ParentsKept, Unvisited, ClimbsOver,
      NamelessAbove, HasEntity;
    BuiltSizes(kept, inferred, state, trails);
    code, built, after, more := Cycle, inferred, state, trails;
    if Reachable(kept, state, index) { NotEntered(kept, state, index); }
    if state[index] == 1 {
      BuildingBlocks(kept, state, index);
      return false, Cycle, built, after, more;
    }
    if state[index] == 2 {
      return true, code, built, after, more;
    }
    UnvisitedShrinks(state, index);
    EnterBuilt(kept, inferred, state, trails, index);
    after := after[index := 1];
    var e := kept[index];
    var segment := EscapePathSegment(e.name);
    EscapeRoundTrip(e.name);
    if segment == "" {
      NamelessHere(kept, index);
      return false, InvalidBinding, built, after, more;
    }
    if e.parent == 0 {
      RootBuilt(kept, inferred, after, trails, byEntity, index);
      more := trails[e.id := [e.name]];
      built := built[index := Inferred(e, 0, segment)];
      return true, code, built, after[index := 2], more;
    }
    ParentIndexed(kept, byEntity, index);
    var parent := byEntity[e.parent];
    if Reachable(kept, state, index) { ReachableParent(kept, state, index, parent); }
    if ClimbsOver(kept, state, index) { ClimbsToParent(kept, state, index, parent); }
    ok, code, built, after, more := BuildPath(kept, byEntity, parent, inferred, after, trails);
    if !ok {
      if code == InvalidBinding { NamelessFurther(kept, index, parent); }
      return;
    }
    BuiltSizes(kept, built, after, more);
    var x := Inferred(e, built[parent].depth + 1, built[parent].path + "/" + segment);
    ChildBuilt(kept, built, after, more, byEntity, index, parent);
    more := more[e.id := more[e.parent] + [e.name]];
    built := built[index := x];
    after := after[index := 2];
  }

  lemma ParentIndexed<T>(kept: seq<Entity<T>>, byEntity: map<nat, nat>, index: nat)
    requires Indexed(kept, byEntity) && ParentsKept(kept) && index < |kept| && kept[index].parent != 0
    ensures var id := kept[index].parent; id in byEntity && byEntity[id] < |kept| && kept[byEntity[id]].id == id
  {
    IndexedHas(kept, byEntity, kept[index].parent);
  }

  lemma BuiltSizes<T>(kept: seq<Entity<T>>, inferred: seq<Inferred<T>>, state: seq<nat>, trails: map<nat, seq<string>>)
    requires Built(kept, inferred, state, trails)
    ensures |inferred| == |state| == |kept| && forall i | 0 <= i < |kept| :: state[i] <= 2
  {
  }

  lemma EnterBuilt<T>(kept: seq<Entity<T>>, inferred: seq<Inferred<T>>, state: seq<nat>, trails: map<nat, seq<string>>,
                      index: nat)
    requires Built(kept, inferred, state, trails) && index < |kept| && state[index] == 0
    ensures Built(kept, inferred, state[index := 1], trails)
  {
  }

  /** An entry with a trail to the root has not been entered, and its name is not empty. */
  lemma NotEntered<T>(kept: seq<Entity<T>>, state: seq<nat>, index: nat)
    requires index < |kept| == |state| && Reachable(kept, state, index)
    ensures state[index] != 1 && kept[index].name != ""
  {
  }

  lemma RootBuilt<T>(kept: seq<Entity<T>>, inferred: seq<Inferred<T>>, state: seq<nat>, trails: map<nat, seq<string>>,
                     byEntity: map<nat, nat>, index: nat)
    requires index < |kept| && kept[index].parent == 0 && kept[index].name != "" && |state| == |kept| &&
          state[index] == 1
    requires Built(kept, inferred, state, trails)
    requires Indexed(kept, byEntity)
    ensures Built(kept, inferred[index := Inferred(kept[index], 0, Escape(kept[index].name))], state[index := 2],
                  trails[kept[index].id := [kept[index].name]])
  {
    hide Escape, Indexed;
    var e, more := kept[index], trails[kept[index].id := [kept[index].name]];
    assert Path([e.name]) == Escape(e.name);
    OneIndex(kept, byEntity, index);
    hide Path;
    assert forall i | 0 <= i < |kept| && state[i] == 2 :: BuiltAt(inferred[i], trails) && kept[i].id != e.id;
  }

  /** Ids tell indexed entities apart. */
  lemma OneIndex<T>(kept: seq<Entity<T>>, byEntity: map<nat, nat>, index: nat)
    requires Indexed(kept, byEntity) && index < |kept|
    ensures forall i | 0 <= i < |kept| && i != index :: kept[i].id != kept[index].id
  {
  }

  lemma ReachableParent<T>(kept: seq<Entity<T>>, state: seq<nat>, index: nat, parent: nat)
    requires index < |kept| == |state| && Reachable(kept, state, index) && state[index] == 0
    requires parent < |kept| && kept[index].parent == kept[parent].id && kept[index].parent != 0
    ensures Reachable(kept, state[index := 1], parent)
  {
    var full: map<nat, seq<string>> :| Below(kept, state, full, index);
    assert TrailAt(kept[parent], full) && TrailAt(kept[index], full);
    assert Below(kept, state[index := 1], full, parent);
  }

  lemma ChildBuilt<T>(kept: seq<Entity<T>>, built: seq<Inferred<T>>, state: seq<nat>, trails: map<nat, seq<string>>,
                      byEntity: map<nat, nat>, index: nat, parent: nat)
    requires index < |kept| && parent < |kept| && kept[index].parent == kept[parent].id != 0 && kept[index].name != ""
    requires Built(kept, built, state, trails) && state[parent] == 2 && state[index] == 1
    requires Indexed(kept, byEntity)
    ensures kept[parent].id in trails
    ensures Built(kept,
                  built[index := Inferred(kept[index], built[parent].depth + 1,
                                          built[parent].path + "/" + Escape(kept[index].name))],
                  state[index := 2], trails[kept[index].id := trails[kept[parent].id] + [kept[index].name]])
  {
    hide Path, Escape;
    assert BuiltAt(built[parent], trails);
    TrailNonempty(kept[parent], trails);
    PathAppend(trails[kept[parent].id], kept[index].name);
  }

  lemma PathAppend(names: seq<string>, name: string)
    requires names != []
    ensures Path(names + [name]) == Path(names) + "/" + Escape(name)
  {
    assert (names + [name])[..|names|] == names;
  }

  /** Builds all paths; fails exactly when some entity has no finite trail of names to a root. */
  method BuildPaths<T>(kept: seq<Entity<T>>, byEntity: map<nat, nat>)
    returns (ok: bool, code: TopologyCode, at: nat, built: seq<Inferred<T>>, ghost trails: map<nat, seq<string>>)
    requires Indexed(kept, byEntity) && ParentsKept(kept)
    ensures ok <==> exists full: map<nat, seq<string>> :: Trails(kept, full)
    ensures ok ==> Trails(kept, trails) && |built| == |kept|
    ensures ok ==> forall i | 0 <= i < |kept| :: built[i].entity == kept[i] && BuiltAt(built[i], trails)
    ensures !ok ==> at < |kept| && (code == Cycle || code == InvalidBinding)
    ensures !ok && code == Cycle ==> !ParentsClimb(kept)
    ensures !ok && code == InvalidBinding ==> NamelessAbove(kept, at)
  {
    hide TrailAt, ParentsKept, Indexed, BuiltAt, RankedOver, NamelessAbove;
    code, at := Cycle, 0;
    built := seq(|kept|, i requires 0 <= i < |kept| => Inferred(kept[i], 0, ""));
    var state := seq(|kept|, _ => 0);
    trails := map[];
    for index := 0 to |kept|
      invariant Built(kept, built, state, trails)
      invariant forall i | 0 <= i < |kept| :: state[i] != 1
      invariant forall i | 0 <= i < index :: state[i] == 2
    {
      if full: map<nat, seq<string>> :| Trails(kept, full) {
        assert Below(kept, state, full, index);
        assert Reachable(kept, state, index);
      }
      if rank: map<nat, nat> :| Climbs(kept, rank) {
        assert RankedOver(kept[index], rank);
        assert RanksOver(kept, state, rank, index);
        assert ClimbsOver(kept, state, index);
      }
      ok, code, built, state, trails := BuildPath(kept, byEntity, index, built, state, trails);
      if !ok {
        at := index;
        return;
      }
    }
    ok := true;
    assert forall i | 0 <= i < |kept| :: BuiltAt(built[i], trails) by { AllBuilt(kept, built, state, trails); }
    assert Trails(kept, trails) by { AllBuilt(kept, built, state, trails); }
  }

  lemma AllBuilt<T>(kept: seq<Entity<T>>, built: seq<Inferred<T>>, state: seq<nat>, trails: map<nat, seq<string>>)
    requires Built(kept, built, state, trails) && forall i | 0 <= i < |kept| :: state[i] == 2
    ensures Trails(kept, trails)
    ensures forall i | 0 <= i < |kept| :: built[i].entity == kept[i] && BuiltAt(built[i], trails)
  {
    forall i | 0 <= i < |kept| ensures TrailAt(kept[i], trails) {
      assert BuiltAt(built[i], trails);
    }
  }

  // ----- sorting and naming -----

  predicate PathOrder<T>(a: Inferred<T>, b: Inferred<T>) {
    if a.depth != b.depth then a.depth < b.depth else LexLeq(a.path, b.path)
  }

  lemma PathTotal<T>(s: set<Inferred<T>>)
    ensures TotalOn(s, (a: Inferred<T>, b: Inferred<T>) => PathOrder(a, b))
  {
    var leq := (a: Inferred<T>, b: Inferred<T>) => PathOrder(a, b);
    forall x, y | x in s && y in s ensures leq(x, y) || leq(y, x) { LexTotal(x.path, y.path); }
    forall x, y, z | x in s && y in s && z in s && leq(x, y) && leq(y, z) ensures leq(x, z) {
      if LexLeq(x.path, y.path) && LexLeq(y.path, z.path) { LexTransitive(x.path, y.path, z.path); }
    }
  }

  ghost predicate InPathOrder<T>(s: seq<Inferred<T>>) {
    forall i, j | 0 <= i < j < |s| :: PathOrder(s[i], s[j])
  }

  method SortByPath<T>(inferred: seq<Inferred<T>>) returns (sorted: seq<Inferred<T>>)
    ensures multiset(sorted) == multiset(inferred) && InPathOrder(sorted)
  {
    var leq := (a: Inferred<T>, b: Inferred<T>) => PathOrder(a, b);
    PathTotal(Elements(inferred));
    sorted := Sort(inferred, leq);
    assert forall i, j | 0 <= i < j < |sorted| :: leq(sorted[i], sorted[j]);
  }

  ghost predicate AllBuiltAt<T>(s: seq<Inferred<T>>, trails: map<nat, seq<string>>) {
    forall i | 0 <= i < |s| :: BuiltAt(s[i], trails)
  }

  /** Equal paths come from equal trails, so from equal depths. */
  lemma SamePath<T>(x: Inferred<T>, y: Inferred<T>, trails: map<nat, seq<string>>)
    requires BuiltAt(x, trails) && BuiltAt(y, trails) && x.path == y.path
    ensures trails[x.entity.id] == trails[y.entity.id] && x.depth == y.depth
  {
    TrailNonempty(x.entity, trails);
    TrailNonempty(y.entity, trails);
    PathInjective(trails[x.entity.id], trails[y.entity.id]);
  }

  /** After the sort, entries with equal paths have an equal neighbour: the adjacent check misses none. */
  lemma SameNeighbour<T>(s: seq<Inferred<T>>, trails: map<nat, seq<string>>, i: nat, j: nat)
    requires AllBuiltAt(s, trails) && InPathOrder(s) && i < j < |s| && s[i].path == s[j].path
    ensures s[i + 1].path == s[i].path
  {
    assert BuiltAt(s[i], trails) && BuiltAt(s[j], trails);
    SamePath(s[i], s[j], trails);
    assert PathOrder(s[i], s[i + 1]) && (i + 1 < j ==> PathOrder(s[i + 1], s[j]));
    LexTotal(s[i].path, s[i + 1].path);
  }

  method FirstSamePath<T>(s: seq<Inferred<T>>, ghost trails: map<nat, seq<string>>) returns (at: nat)
    requires AllBuiltAt(s, trails) && InPathOrder(s)
    ensures at <= |s|
    ensures at == |s| <==> forall i, j | 0 <= i < j < |s| :: s[i].path != s[j].path
  {
    at := 0;
    while at < |s| && (at == 0 || s[at - 1].path != s[at].path)
      invariant at <= |s| && forall k | 0 < k < at :: s[k - 1].path != s[k].path
    {
      at := at + 1;
    }
    if at == |s| {
      forall i, j | 0 <= i < j < |s| ensures s[i].path != s[j].path {
        assert s[i + 1 - 1].path != s[i + 1].path;
        if s[i].path == s[j].path { SameNeighbour(s, trails, i, j); }
      }
    }
  }

  // ----- the result -----

  /** The node an inferred entry becomes. */
  function NodeOf<T>(x: Inferred<T>, parentPath: string): Node<T> {
    Node(x.path, parentPath, x.entity.local, true)
  }

  /** The path of the entry's parent, or the empty name. */
  ghost predicate ParentPath<T>(s: seq<Inferred<T>>, x: Inferred<T>, path: string) {
    if x.entity.parent == 0 then path == ""
    else exists k :: 0 <= k < |s| && s[k].entity.id == x.entity.parent && path == s[k].path
  }

  /** The nodes and the entities list the same entries in the same order. */
  ghost predicate Listed<T>(s: seq<Inferred<T>>, nodes: seq<Node<T>>, entities: seq<nat>) {
    && |nodes| == |entities| == |s|
    && forall k | 0 <= k < |s| ::
         && nodes[k].id == s[k].path && nodes[k].local == s[k].entity.local && nodes[k].finite
         && entities[k] == s[k].entity.id && ParentPath(s, s[k], nodes[k].parent)
  }

  /** What a successful extraction is: one node per transform, named by its path, shallow ones first. */
  ghost predicate IsExtraction<T(!new)>(entities: seq<Entity<T>>, nodes: seq<Node<T>>, ids: seq<nat>) {
    exists s: seq<Inferred<T>>, trails: map<nat, seq<string>> ::
      Arrangement(WithTransform(entities), s, trails, nodes, ids)
  }

  ghost predicate Arrangement<T>(kept: seq<Entity<T>>, s: seq<Inferred<T>>, trails: map<nat, seq<string>>,
                                 nodes: seq<Node<T>>, ids: seq<nat>) {
    Covers(kept, s) && Named(s, trails, nodes, ids)
  }

  /** The entries are those of the kept entities, one each. */
  ghost predicate Covers<T>(kept: seq<Entity<T>>, s: seq<Inferred<T>>) {
    && |s| == |kept| && (forall i | 0 <= i < |kept| :: exists k :: 0 <= k < |s| && s[k].entity == kept[i])
    && (forall k | 0 <= k < |s| :: s[k].entity in kept)
  }

  /** Sorted by depth and path, with different paths, and listed as nodes. */
  ghost predicate Named<T>(s: seq<Inferred<T>>, trails: map<nat, seq<string>>, nodes: seq<Node<T>>, ids: seq<nat>) {
    AllBuiltAt(s, trails) && InPathOrder(s) && PathsDiffer(s) && Listed(s, nodes, ids)
  }

  ghost predicate PathsDiffer<T>(s: seq<Inferred<T>>) {
    forall i, j | 0 <= i < j < |s| :: s[i].path != s[j].path
  }

  method ListNodes<T>(s: seq<Inferred<T>>) returns (nodes: seq<Node<T>>, ids: seq<nat>)
    requires forall k | 0 <= k < |s| && s[k].entity.parent != 0 ::
      exists p :: 0 <= p < |s| && s[p].entity.id == s[k].entity.parent
    ensures Listed(s, nodes, ids)
  {
    nodes, ids := [], [];
    for k := 0 to |s|
      invariant |nodes| == |ids| == k
      invariant forall i | 0 <= i < k ::
        nodes[i] == NodeOf(s[i], nodes[i].parent) && ids[i] == s[i].entity.id && ParentPath(s, s[i], nodes[i].parent)
    {
      var parent := "";
      if s[k].entity.parent != 0 {
        var p :| 0 <= p < |s| && s[p].entity.id == s[k].entity.parent;
        parent := s[p].path;
      }
      nodes := nodes + [NodeOf(s[k], parent)];
      ids := ids + [s[k].entity.id];
    }
  }

  /** Sorting loses nothing: the sorted entries are the kept entities. */
  lemma SortedCovers<T>(kept: seq<Entity<T>>, built: seq<Inferred<T>>, s: seq<Inferred<T>>,
                        trails: map<nat, seq<string>>)
    requires |built| == |kept| && multiset(s) == multiset(built)
    requires forall i | 0 <= i < |kept| :: built[i].entity == kept[i] && BuiltAt(built[i], trails)
    ensures |s| == |kept| && AllBuiltAt(s, trails)
    ensures forall i | 0 <= i < |kept| :: exists k :: 0 <= k < |s| && s[k].entity == kept[i]
    ensures forall k | 0 <= k < |s| :: s[k].entity in kept
  {
    hide BuiltAt;
    SameElements(s, built);
    forall k | 0 <= k < |s| ensures BuiltAt(s[k], trails) && s[k].entity in kept {
      var i := MemberIndex(s, built, k);
    }
    forall i | 0 <= i < |kept| ensures exists k :: 0 <= k < |s| && s[k].entity == kept[i] {
      var k := MemberIndex(built, s, i);
    }
  }

  lemma ParentsListed<T>(kept: seq<Entity<T>>, s: seq<Inferred<T>>)
    requires ParentsKept(kept)
    requires forall i | 0 <= i < |kept| :: exists k :: 0 <= k < |s| && s[k].entity == kept[i]
    requires forall k | 0 <= k < |s| :: s[k].entity in kept
    ensures forall k | 0 <= k < |s| && s[k].entity.parent != 0 ::
      exists p :: 0 <= p < |s| && s[p].entity.id == s[k].entity.parent
  {
    forall k | 0 <= k < |s| && s[k].entity.parent != 0
      ensures exists p :: 0 <= p < |s| && s[p].entity.id == s[k].entity.parent
    {
      var i :| 0 <= i < |kept| && kept[i] == s[k].entity;
      assert HasEntity(kept, kept[i].parent);
      var q :| 0 <= q < |kept| && kept[q].id == kept[i].parent;
      var p :| 0 <= p < |s| && s[p].entity == kept[q];
    }
  }

  // ----- extraction feeds normalisation -----

  ghost function DepthMap<T>(s: seq<Inferred<T>>): map<string, nat> {
    if s == [] then map[] else DepthMap(s[..|s| - 1])[s[|s| - 1].path := s[|s| - 1].depth]
  }

  lemma {:induction false} DepthMapAt<T>(s: seq<Inferred<T>>, k: nat)
    requires k < |s| && PathsDiffer(s)
    ensures s[k].path in DepthMap(s) && DepthMap(s)[s[k].path] == s[k].depth
  {
    if k < |s| - 1 {
      DepthMapAt(s[..|s| - 1], k);
    }
  }

  lemma NodeDepth<T>(s: seq<Inferred<T>>, trails: map<nat, seq<string>>, nodes: seq<Node<T>>, ids: seq<nat>, k: nat)
    requires Named(s, trails, nodes, ids) && k < |s| == |nodes|
    ensures DepthAt(nodes[k], DepthMap(s)) && nodes[k].id != "" && nodes[k].finite
    ensures nodes[k].parent != "" ==> HasId(nodes, nodes[k].parent)
  {
    hide Path, InPathOrder, DepthMap;
    DepthMapAt(s, k);
    assert BuiltAt(s[k], trails);
    TrailNonempty(s[k].entity, trails);
    if s[k].entity.parent != 0 {
      var p :| 0 <= p < |s| && s[p].entity.id == s[k].entity.parent && nodes[k].parent == s[p].path;
      assert BuiltAt(s[p], trails);
      TrailNonempty(s[p].entity, trails);
      DepthMapAt(s, p);
      assert nodes[p].id == s[p].path;
    }
  }

  lemma NodesOrdered<T>(s: seq<Inferred<T>>, nodes: seq<Node<T>>, ids: seq<nat>)
    requires InPathOrder(s) && PathsDiffer(s) && Listed(s, nodes, ids)
    ensures UniqueIds(nodes)
    ensures SortedBy(nodes, (a: Node<T>, b: Node<T>) => DepthOrder(DepthMap(s), a, b))
  {
    hide DepthMap;
    forall i, j | 0 <= i < j < |nodes|
      ensures nodes[i].id != nodes[j].id && DepthOrder(DepthMap(s), nodes[i], nodes[j])
    {
      DepthMapAt(s, i);
      DepthMapAt(s, j);
      assert PathOrder(s[i], s[j]);
    }
  }

  /** What extraction returns is a topology already in its normal form: normalising it changes nothing. */
  lemma ExtractionIsNormal<T(!new)>(entities: seq<Entity<T>>, nodes: seq<Node<T>>, ids: seq<nat>)
    requires IsExtraction(entities, nodes, ids) && nodes != []
    ensures IsTopology(nodes) && IsNormalForm(nodes, nodes)
  {
    hide Covers, Named, IsTopology, IsNormalForm;
    var s: seq<Inferred<T>>, trails: map<nat, seq<string>> :|
          Arrangement(WithTransform(entities), s, trails, nodes, ids);
    NamedIsNormal(s, trails, nodes, ids);
  }

  lemma NodesFit<T>(s: seq<Inferred<T>>, trails: map<nat, seq<string>>, nodes: seq<Node<T>>, ids: seq<nat>)
    requires Named(s, trails, nodes, ids)
    ensures Depths(nodes, DepthMap(s)) && WellFormedNodes(nodes) && NoDangling(nodes)
  {
    hide DepthMap, DepthAt, ParentPath, AllBuiltAt, InPathOrder, PathsDiffer, HasId;
    forall k | 0 <= k < |nodes|
      ensures DepthAt(nodes[k], DepthMap(s)) && nodes[k].id != "" && nodes[k].finite
      ensures nodes[k].parent != "" ==> HasId(nodes, nodes[k].parent)
    {
      NodeDepth(s, trails, nodes, ids, k);
    }
  }

  lemma NamedIsNormal<T>(s: seq<Inferred<T>>, trails: map<nat, seq<string>>, nodes: seq<Node<T>>, ids: seq<nat>)
    requires Named(s, trails, nodes, ids) && nodes != []
    ensures IsTopology(nodes) && IsNormalForm(nodes, nodes)
  {
    hide DepthMap, AllBuiltAt, InPathOrder, PathsDiffer, Listed, Depths, WellFormedNodes, NoDangling, UniqueIds,
      SortedBy, Acyclic;
    NodesFit(s, trails, nodes, ids);
    NodesOrdered(s, nodes, ids);
    DepthsRank(nodes, DepthMap(s));
  }

  /** Extraction succeeds exactly on hierarchies. */
  method ExtractEntityHierarchy<T(!new)>(entities: seq<Entity<T>>) returns (result: Hierarchy<T>)
    ensures result.Extracted? <==> IsHierarchy(entities)
    ensures result.Extracted? ==> IsExtraction(entities, result.nodes, result.entities) && result.nodes != []
    ensures result.Rejected? ==> result.code in Reasons(entities)
  {
    hide Usable, ParentsKept, TrailAt, BuiltAt, InPathOrder, Listed, Indexed, WithTransform, BadIds, BadTransform,
      ParentsClimb, NamelessAbove;
    ghost var kept0 := WithTransform(entities);
    var faulty, code, kept, byEntity := Collect(entities);
    if faulty {
      return Rejected(code, "");
    }
    if kept == [] {
      return Rejected(EmptyHierarchy, "");
    }
    var at := FindDangling(kept, byEntity);
    if at < |kept| {
      return Rejected(DanglingParent, kept[at].name);
    }
    var ok, built;
    ghost var trails;
    ok, code, at, built, trails := BuildPaths(kept, byEntity);
    if !ok {
      return Rejected(code, kept[at].name);
    }
    var sorted := SortByPath(built);
    SortedCovers(kept, built, sorted, trails);
    at := FirstSamePath(sorted, trails);
    PathsDecide(kept, built, sorted, trails);
    if at < |sorted| {
      return Rejected(DuplicateBinding, sorted[at].path);
    }
    ParentsListed(kept, sorted);
    var nodes, ids := ListNodes(sorted);
    ListedSize(sorted, nodes, ids);
    assert Arrangement(kept, sorted, trails, nodes, ids);
    return Extracted(nodes, ids);
  }

  /** The codes a rejection may carry: faults that are there, found by the first pass that finds any. */
  ghost function Reasons<T>(entities: seq<Entity<T>>): set<TopologyCode> {
    var kept := WithTransform(entities);
    if !Usable(kept) then
      (if BadIds(kept) then {InvalidBinding} else {}) + (if BadTransform(kept) then {InvalidTransform} else {})
    else if kept == [] then {EmptyHierarchy}
    else if !ParentsKept(kept) then {DanglingParent}
    else if !exists full: map<nat, seq<string>> :: Trails(kept, full) then
      (if ParentsClimb(kept) then {} else {Cycle}) +
      (if exists i :: 0 <= i < |kept| && NamelessAbove(kept, i) then {InvalidBinding} else {})
    else {DuplicateBinding}
  }

  lemma ListedSize<T>(s: seq<Inferred<T>>, nodes: seq<Node<T>>, ids: seq<nat>)
    requires Listed(s, nodes, ids)
    ensures |nodes| == |s|
  {
  }

  lemma PermutedPaths<T>(a: seq<Inferred<T>>, b: seq<Inferred<T>>)
    requires multiset(a) == multiset(b) && PathsDiffer(a)
    ensures PathsDiffer(b)
  {
    assert Distinct(a);
    SameElements(a, b);
    forall i, j | 0 <= i < j < |b| ensures b[i].path != b[j].path {
      var p := MemberIndex(b, a, i);
      var q := MemberIndex(b, a, j);
      assert p < q || q < p;
    }
  }

  /** Trails are unique. */
  lemma {:induction false} TrailsUnique<T>(kept: seq<Entity<T>>, a: map<nat, seq<string>>, b: map<nat, seq<string>>,
                                           i: nat)
    requires ParentsKept(kept) && Trails(kept, a) && Trails(kept, b) && i < |kept|
    ensures TrailAt(kept[i], a) && TrailAt(kept[i], b) && a[kept[i].id] == b[kept[i].id]
    decreases if kept[i].id in a then |a[kept[i].id]| else 0
  {
    assert TrailAt(kept[i], a) && TrailAt(kept[i], b);
    if kept[i].parent != 0 {
      assert HasEntity(kept, kept[i].parent);
      var p :| 0 <= p < |kept| && kept[p].id == kept[i].parent;
      TrailsUnique(kept, a, b, p);
    }
  }

  /** Built paths are equal exactly when the trails are. */
  lemma BuiltDiffer<T>(kept: seq<Entity<T>>, built: seq<Inferred<T>>, trails: map<nat, seq<string>>)
    requires |built| == |kept| && Trails(kept, trails)
    requires forall i | 0 <= i < |kept| :: built[i].entity == kept[i] && BuiltAt(built[i], trails)
    ensures PathsDiffer(built) <==> TrailsDiffer(kept, trails)
  {
    forall i, j | 0 <= i < j < |kept|
      ensures TrailAt(kept[i], trails) && TrailAt(kept[j], trails)
      ensures built[i].path == built[j].path <==> trails[kept[i].id] == trails[kept[j].id]
    {
      if built[i].path == built[j].path { SamePath(built[i], built[j], trails); }
    }
  }

  /** Paths tell entities apart exactly when the trails do, whichever trails are used. */
  lemma PathsDecide<T>(kept: seq<Entity<T>>, built: seq<Inferred<T>>, sorted: seq<Inferred<T>>,
                       trails: map<nat, seq<string>>)
    requires |built| == |kept| && multiset(sorted) == multiset(built) && Trails(kept, trails) && ParentsKept(kept)
    requires forall i | 0 <= i < |kept| :: built[i].entity == kept[i] && BuiltAt(built[i], trails)
    ensures PathsDiffer(sorted) <==>
            exists full: map<nat, seq<string>> :: Trails(kept, full) && TrailsDiffer(kept, full)
  {
    BuiltDiffer(kept, built, trails);
    if PathsDiffer(sorted) { PermutedPaths(sorted, built); }
    if PathsDiffer(built) { PermutedPaths(built, sorted); }
    hide PathsDiffer, Trails, BuiltAt;
    if full: map<nat, seq<string>> :| Trails(kept, full) && TrailsDiffer(kept, full) {
      forall i | 0 <= i < |kept|
        ensures TrailAt(kept[i], full) && TrailAt(kept[i], trails) && full[kept[i].id] == trails[kept[i].id]
      {
        TrailsUnique(kept, full, trails, i);
      }
      assert TrailsDiffer(kept, trails);
    }
  }
}
