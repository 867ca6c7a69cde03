/** How long a target token stays dead: runs of targets handed out and released. */
module TargetRuns {
  import opened ControllerTargets
  import opened Generations

  datatype Change = Claim(node: nat, access: Access) | Free(token: Token)

  /** Free indices are the inactive records, so the next index is always in range. */
  ghost predicate Kept<T, V>(r: Register<T, V>) {
    FreeExact(r.targets, r.free) && forall i: nat | i < |r.targets| :: 0 < r.targets[i].generation <= MAX32
  }

  lemma NextInRange<T, V>(r: Register<T, V>)
    requires Kept(r)
    ensures NextIndex(r.targets, r.free) <= |r.targets|
    ensures NextIndex(r.targets, r.free) < |r.targets| ==> !r.targets[NextIndex(r.targets, r.free)].active
  {
  }

  ghost function Changed<T, V>(r: Register<T, V>, c: Change, identity: T, rest: V, noNode: nat): Register<T, V>
    requires Kept(r)
  {
    match c
    case Claim(node, access) =>
      NextInRange(r);
      Claimed(r, node, access, identity, rest)
    case Free(token) => Freed(r, token, noNode)
  }

  predicate Frees<T, V>(r: Register<T, V>, c: Change, i: nat) {
    c.Free? && c.token.index == i && IsLive(r.targets, c.token)
  }

  /** One change: only releasing a record's live token moves its generation, and an active record stays as it is until
      then. */
  lemma ChangeKeeps<T, V>(r: Register<T, V>, c: Change, identity: T, rest: V, noNode: nat)
    requires Kept(r)
    ensures var r' := Changed(r, c, identity, rest, noNode);
      && Kept(r') && |r.targets| <= |r'.targets|
      && forall i: nat | i < |r.targets| ::
           && r'.targets[i].generation ==
              (if Frees(r, c, i) then NextGeneration(r.targets[i].generation) else r.targets[i].generation)
           && (r.targets[i].active && !Frees(r, c, i) ==> r'.targets[i].active)
  {
    NextInRange(r);
    match c {
      case Claim(node, access) =>
        ClaimFree(r.targets, r.free,
                  Target(node, access, identity, rest, 0, 0, NextToken(r.targets, r.free).generation, true));
      case Free(token) =>
        if IsLive(r.targets, token) {
          RetireFree(r.targets, r.free, token.index, noNode);
        }
    }
  }

  lemma RetireFree<T, V>(targets: seq<Target<T, V>>, free: seq<nat>, i: nat, noNode: nat)
    requires FreeExact(targets, free) && i < |targets| && targets[i].active
    ensures FreeExact(targets[i := Retired(targets[i], noNode)], free + [i])
  {
    var targets', free' := targets[i := Retired(targets[i], noNode)], free + [i];
    forall j: nat | j < |targets'| && !targets'[j].active ensures j in free' {
      assert j == i || j in free;
    }
  }

  ghost function Run<T, V>(r: Register<T, V>, cs: seq<Change>, identity: T, rest: V, noNode: nat): (end: Register<T, V>)
    requires Kept(r)
    ensures Kept(end)
  {
    if cs == [] then r
    else
      var prior := Run(r, cs[..|cs| - 1], identity, rest, noNode);
      ChangeKeeps(prior, cs[|cs| - 1], identity, rest, noNode);
      Changed(prior, cs[|cs| - 1], identity, rest, noNode)
  }

  /** How often index `i` is released in a run. */
  ghost function Releases<T, V>(r: Register<T, V>, cs: seq<Change>, identity: T, rest: V, noNode: nat, i: nat): nat
    requires Kept(r)
  {
    if cs == [] then 0
    else
      var front := cs[..|cs| - 1];
      Releases(r, front, identity, rest, noNode, i) +
      if Frees(Run(r, front, identity, rest, noNode), cs[|cs| - 1], i) then 1 else 0
  }

  lemma {:induction false} GenerationAfterRun<T, V>(r: Register<T, V>, cs: seq<Change>, identity: T, rest: V,
                                                    noNode: nat, i: nat)
    requires Kept(r) && i < |r.targets|
    ensures var end, n := Run(r, cs, identity, rest, noNode), Releases(r, cs, identity, rest, noNode, i);
      && i < |end.targets| && end.targets[i].generation == Later(r.targets[i].generation, n)
      && (r.targets[i].active && n == 0 ==> end.targets[i].active)
  {
    hide Later, NextGeneration, Changed, Frees, FreeExact;
    var g := r.targets[i].generation;
    if cs == [] {
      LaterSame(g, 0);
    } else {
      var front := cs[..|cs| - 1];
      GenerationAfterRun(r, front, identity, rest, noNode, i);
      ChangeKeeps(Run(r, front, identity, rest, noNode), cs[|cs| - 1], identity, rest, noNode);
      LaterNext(g, Releases(r, front, identity, rest, noNode, i));
    }
  }

  /** A token that is live now is live after any run exactly when its record is in use and has been released a
      multiple of 2^32 - 1 times. */
  lemma TokenAfterRun<T, V>(r: Register<T, V>, cs: seq<Change>, identity: T, rest: V, noNode: nat, token: Token)
    requires Kept(r) && IsLive(r.targets, token)
    ensures var end, n := Run(r, cs, identity, rest, noNode), Releases(r, cs, identity, rest, noNode, token.index);
      && token.index < |end.targets|
      && (IsLive(end.targets, token) <==> end.targets[token.index].active && n % MAX32 == 0)
      && (n == 0 ==> IsLive(end.targets, token))
      && (0 < n < MAX32 ==> !IsLive(end.targets, token))
  {
    hide Later, NextGeneration, Changed, Frees, FreeExact, Run, Releases;
    var n := Releases(r, cs, identity, rest, noNode, token.index);
    GenerationAfterRun(r, cs, identity, rest, noNode, token.index);
    LaterSame(token.generation, n);
    SmallCount(n);
  }

  // ----- a released token that is live again -----

  /** One target, in use. */
  function OneTarget<T, V>(node: nat, access: Access, identity: T, rest: V, generation: nat): Register<T, V> {
    Register([Target(node, access, identity, rest, 0, 0, generation, true)], [])
  }

  /** The target is released and handed out again, `n` times. */
  function Recycled(node: nat, access: Access, n: nat): seq<Change> {
    if n == 0 then [] else Recycled(node, access, n - 1) + [Free(Token(0, Later(1, n - 1))), Claim(node, access)]
  }

  lemma OneTargetKept<T, V>(node: nat, access: Access, identity: T, rest: V, generation: nat)
    requires 0 < generation <= MAX32
    ensures Kept(OneTarget<T, V>(node, access, identity, rest, generation))
  {
  }

  lemma OneExchange<T, V>(node: nat, access: Access, identity: T, rest: V, noNode: nat, g: nat)
    requires 0 < g <= MAX32
    ensures var r: Register<T, V> := OneTarget(node, access, identity, rest, g);
      && Kept(r) && Frees(r, Free(Token(0, g)), 0)
      && var freed := Changed(r, Free(Token(0, g)), identity, rest, noNode);
      && Kept(freed)
      && Changed(freed, Claim(node, access), identity, rest, noNode) ==
         OneTarget(node, access, identity, rest, NextGeneration(g))
      && !Frees(freed, Claim(node, access), 0)
  {
    hide NextGeneration, FreeExact;
    var r: Register<T, V> := OneTarget(node, access, identity, rest, g);
    OneTargetKept<T, V>(node, access, identity, rest, g);
    ChangeKeeps(r, Free(Token(0, g)), identity, rest, noNode);
    hide Kept;
    var freed := Changed(r, Free(Token(0, g)), identity, rest, noNode);
    var idle := Retired(r.targets[0], noNode);
    assert r.targets[0 := idle] == [idle];
    assert freed == Register([idle], [0]);
    var again := Target(node, access, identity, rest, 0, 0, idle.generation, true);
    assert freed.targets[0 := again] == [again] && freed.free[..0] == [];
  }

  lemma {:induction false} RecycledRun<T, V>(node: nat, access: Access, identity: T, rest: V, noNode: nat, n: nat)
    ensures var r: Register<T, V> := OneTarget(node, access, identity, rest, 1);
      && Kept(r)
      && Run(r, Recycled(node, access, n), identity, rest, noNode) ==
         OneTarget(node, access, identity, rest, Later(1, n))
      && Releases(r, Recycled(node, access, n), identity, rest, noNode, 0) == n
  {
    hide Later, NextGeneration, Changed, Frees, Kept;
    var r: Register<T, V> := OneTarget(node, access, identity, rest, 1);
    OneTargetKept<T, V>(node, access, identity, rest, 1);
    if n == 0 {
      LaterSame(1, 0);
    } else {
      RecycledRun<T, V>(node, access, identity, rest, noNode, n - 1);
      var g := Later(1, n - 1);
      LaterRange(1, n - 1);
      OneExchange<T, V>(node, access, identity, rest, noNode, g);
      LaterNext(1, n - 1);
      var free, claim := Free(Token(0, g)), Claim(node, access);
      var half, whole := Recycled(node, access, n - 1) + [free], Recycled(node, access, n);
      assert half[..|half| - 1] == Recycled(node, access, n - 1);
      assert whole == half + [claim] && whole[..|whole| - 1] == half;
      assert Run(r, half, identity, rest, noNode) ==
             Changed(OneTarget<T, V>(node, access, identity, rest, g), free, identity, rest, noNode);
      assert Releases(r, half, identity, rest, noNode, 0) == n;
    }
  }

  /** After any multiple of 2^32 - 1 releases of its record, its own among them, a released token is live again. */
  lemma ReleasedLiveAgain<T, V>(node: nat, access: Access, identity: T, rest: V, noNode: nat, laps: nat)
    ensures var r: Register<T, V> := OneTarget(node, access, identity, rest, 1);
      var cs := Recycled(node, access, laps * MAX32);
      && Kept(r) && IsLive(r.targets, Token(0, 1))
      && Releases(r, cs, identity, rest, noNode, 0) == laps * MAX32
      && IsLive(Run(r, cs, identity, rest, noNode).targets, Token(0, 1))
  {
    hide Run, Releases, Recycled, Changed;
    RecycledRun<T, V>(node, access, identity, rest, noNode, laps * MAX32);
    LaterSame(1, laps * MAX32);
    WholeLaps(laps);
  }
}
