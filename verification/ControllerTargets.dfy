/** Controller target records: generation-checked tokens, a free list, and exclusive write ownership per node. */
module ControllerTargets {
  import opened Generations
  import opened Options
  import opened Sequences

  datatype Access = ReadOnly | ReadWrite

  datatype Token = Token(index: nat, generation: nat)

  datatype Target<T, V> = Target(node: nat, access: Access, pendingLocal: T, pendingMotion: V,
                                 localEpoch: nat, motionEpoch: nat, generation: nat, active: bool)

  /** The tokens that resolve. */
  ghost function Live<T, V>(targets: seq<Target<T, V>>): set<Token> {
    set i: nat | i < |targets| && targets[i].active :: Token(i, targets[i].generation)
  }

  predicate IsLive<T, V>(targets: seq<Target<T, V>>, token: Token) {
    token.index < |targets| && targets[token.index].active && targets[token.index].generation == token.generation
  }

  lemma LiveIff<T, V>(targets: seq<Target<T, V>>, token: Token)
    ensures token in Live(targets) <==> IsLive(targets, token)
  {
    if IsLive(targets, token) {
      assert token == Token(token.index, targets[token.index].generation);
    }
  }

  /** `i` is the record of an active target that may write `n`. */
  predicate Writes<T, V>(targets: seq<Target<T, V>>, i: nat, n: nat) {
    i < |targets| && targets[i].active && targets[i].access.ReadWrite? && targets[i].node == n
  }

  /** The free list is the inactive indices, each once. */
  ghost predicate FreeExact<T, V>(targets: seq<Target<T, V>>, free: seq<nat>) {
    && Distinct(free)
    && (forall k | 0 <= k < |free| :: free[k] < |targets| && !targets[free[k]].active)
    && (forall i: nat | i < |targets| && !targets[i].active :: i in free)
  }

  /** The owner table names exactly the writer of each node. */
  ghost predicate OwnersExact<T, V>(targets: seq<Target<T, V>>, owners: seq<nat>) {
    && (forall i: nat | i < |targets| && targets[i].active :: targets[i].node < |owners|)
    && (forall i: nat, n: nat | n < |owners| :: Writes(targets, i, n) <==> owners[n] == i + 1)
  }

  ghost predicate Ledger<T, V>(targets: seq<Target<T, V>>, free: seq<nat>, owners: seq<nat>) {
    && FreeExact(targets, free) && OwnersExact(targets, owners)
    && (forall i: nat | i < |targets| :: 0 < targets[i].generation <= MAX32)
  }

  /** So at most one target may write a node. */
  lemma WritesExclusive<T, V>(targets: seq<Target<T, V>>, free: seq<nat>, owners: seq<nat>, i: nat, j: nat, n: nat)
    requires Ledger(targets, free, owners) && Writes(targets, i, n) && Writes(targets, j, n)
    ensures i == j
  {
  }

  /** The live records agree. */
  ghost predicate SameLive<T, V>(a: seq<Target<T, V>>, b: seq<Target<T, V>>, tokens: set<Token>) {
    forall token | token in tokens ::
      IsLive(a, token) && IsLive(b, token) && a[token.index].node == b[token.index].node &&
          a[token.index].access == b[token.index].access
  }

  /** The owner table is determined by the live targets. */
  lemma OwnersDetermined<T, V>(a: seq<Target<T, V>>, af: seq<nat>, ao: seq<nat>,
                               b: seq<Target<T, V>>, bf: seq<nat>, bo: seq<nat>)
    requires Ledger(a, af, ao) && Ledger(b, bf, bo) && |ao| == |bo|
    requires Live(a) == Live(b) && SameLive(a, b, Live(a))
    ensures ao == bo
  {
    forall n: nat | n < |ao| ensures ao[n] == bo[n] {
      WriterMoves(a, af, ao, b, bf, bo, n);
      WriterMoves(b, bf, bo, a, af, ao, n);
    }
  }

  lemma WriterMoves<T, V>(a: seq<Target<T, V>>, af: seq<nat>, ao: seq<nat>,
                          b: seq<Target<T, V>>, bf: seq<nat>, bo: seq<nat>, n: nat)
    requires Ledger(a, af, ao) && Ledger(b, bf, bo) && n < |ao| == |bo|
    requires Live(a) == Live(b) && SameLive(a, b, Live(a))
    ensures ao[n] != 0 ==> bo[n] == ao[n]
  {
    if ao[n] != 0 {
      var i := ao[n] - 1;
      assert Writes(a, i, n);
      assert Token(i, a[i].generation) in Live(a);
      assert Writes(b, i, n);
    }
  }

  /** The index the next record takes: the last free one, or a new one. */
  function NextIndex<T, V>(targets: seq<Target<T, V>>, free: seq<nat>): nat {
    if free == [] then |targets| else free[|free| - 1]
  }

  function Put<T, V>(targets: seq<Target<T, V>>, i: nat, r: Target<T, V>): seq<Target<T, V>>
    requires i <= |targets|
  {
    if i == |targets| then targets + [r] else targets[i := r]
  }

  lemma PutSize<T, V>(targets: seq<Target<T, V>>, i: nat, r: Target<T, V>)
    requires i <= |targets|
    ensures |Put(targets, i, r)| == if i == |targets| then |targets| + 1 else |targets|
  {
  }

  lemma NextIndexFree<T, V>(targets: seq<Target<T, V>>, free: seq<nat>, owners: seq<nat>)
    requires Ledger(targets, free, owners)
    ensures var i := NextIndex(targets, free);
      && i <= |targets| && (i == |targets| <==> free == [])
      && (i < |targets| ==> !targets[i].active && 0 < targets[i].generation <= MAX32)
  {
  }

  lemma ClaimLedger<T, V>(targets: seq<Target<T, V>>, free: seq<nat>, owners: seq<nat>, r: Target<T, V>)
    requires Ledger(targets, free, owners) && r.active && r.node < |owners| && 0 < r.generation <= MAX32
    requires r.access.ReadWrite? ==> owners[r.node] == 0
    ensures var i := NextIndex(targets, free);
      && i <= |targets|
      && Ledger(Put(targets, i, r), if free == [] then free else free[..|free| - 1],
                if r.access.ReadWrite? then owners[r.node := i + 1] else owners)
  {
    NextIndexFree(targets, free, owners);
    ClaimFree(targets, free, r);
    hide FreeExact;
    ClaimOwners(targets, owners, NextIndex(targets, free), r);
  }

  lemma ClaimFree<T, V>(targets: seq<Target<T, V>>, free: seq<nat>, r: Target<T, V>)
    requires FreeExact(targets, free) && r.active
    ensures free != [] ==> free[|free| - 1] < |targets| && !targets[free[|free| - 1]].active
    ensures if free == [] then FreeExact(targets + [r], free)
            else FreeExact(targets[free[|free| - 1] := r], free[..|free| - 1])
  {
    var i := if free == [] then |targets| else free[|free| - 1];
    var targets' := if free == [] then targets + [r] else targets[i := r];
    var free' := if free == [] then free else free[..|free| - 1];
    forall j: nat | j < |targets'| && !targets'[j].active ensures j in free' {
      assert j in free;
      var k :| 0 <= k < |free| && free[k] == j;
      assert free'[k] == j;
    }
  }

  lemma ClaimOwners<T, V>(targets: seq<Target<T, V>>, owners: seq<nat>, i: nat, r: Target<T, V>)
    requires OwnersExact(targets, owners) && i <= |targets| && (i < |targets| ==> !targets[i].active)
    requires r.active && r.node < |owners| && (r.access.ReadWrite? ==> owners[r.node] == 0)
    ensures OwnersExact(Put(targets, i, r), if r.access.ReadWrite? then owners[r.node := i + 1] else owners)
  {
    var targets' := Put(targets, i, r);
    var owners' := if r.access.ReadWrite? then owners[r.node := i + 1] else owners;
    forall j: nat, n: nat | n < |owners'| ensures Writes(targets', j, n) <==> owners'[n] == j + 1 {
      assert Writes(targets, j, n) <==> owners[n] == j + 1;
      assert Writes(targets, i, n) <==> owners[n] == i + 1;
    }
  }

  lemma ClaimLive<T, V>(targets: seq<Target<T, V>>, i: nat, r: Target<T, V>)
    requires i <= |targets| && r.active && (i < |targets| ==> !targets[i].active)
    ensures var targets' := Put(targets, i, r);
      && Live(targets') == Live(targets) + {Token(i, r.generation)}
      && Token(i, r.generation) !in Live(targets) && i < |targets'|
      && IsLive(targets', Token(i, r.generation)) && targets'[i] == r
      && SameLive(targets, targets', Live(targets))
  {
    var targets' := Put(targets, i, r);
    forall t: Token ensures t in Live(targets') <==> t in Live(targets) + {Token(i, r.generation)} {
      LiveIff(targets, t);
      LiveIff(targets', t);
    }
  }

  function Retired<T, V>(r: Target<T, V>, noNode: nat): Target<T, V> {
    r.(active := false, node := noNode, generation := NextGeneration(r.generation))
  }

  /** The records and the indices that are free. */
  datatype Register<T, V> = Register(targets: seq<Target<T, V>>, free: seq<nat>)

  /** The token the next target gets: a reused record keeps its generation. */
  function NextToken<T, V>(targets: seq<Target<T, V>>, free: seq<nat>): Token {
    var i := NextIndex(targets, free);
    Token(i, if i < |targets| then targets[i].generation else 1)
  }

  function Claimed<T, V>(r: Register<T, V>, node: nat, access: Access, identity: T, rest: V): Register<T, V>
    requires NextIndex(r.targets, r.free) <= |r.targets|
  {
    var token := NextToken(r.targets, r.free);
    Register(Put(r.targets, token.index, Target(node, access, identity, rest, 0, 0, token.generation, true)),
             if r.free == [] then [] else r.free[..|r.free| - 1])
  }

  function Freed<T, V>(r: Register<T, V>, token: Token, noNode: nat): Register<T, V> {
    if IsLive(r.targets, token) then
      Register(r.targets[token.index := Retired(r.targets[token.index], noNode)], r.free + [token.index])
    else r
  }

  lemma RetireLedger<T, V>(targets: seq<Target<T, V>>, free: seq<nat>, owners: seq<nat>, i: nat, noNode: nat)
    requires Ledger(targets, free, owners) && i < |targets| && targets[i].active
    ensures Ledger(targets[i := Retired(targets[i], noNode)], free + [i],
                   if targets[i].access.ReadWrite? then owners[targets[i].node := 0] else owners)
  {
    var targets', free' := targets[i := Retired(targets[i], noNode)], free + [i];
    var owners' := if targets[i].access.ReadWrite? then owners[targets[i].node := 0] else owners;
    forall j: nat | j < |targets'| && !targets'[j].active ensures j in free' {
      assert j == i || j in free;
    }
    forall j: nat, n: nat | n < |owners'| ensures Writes(targets', j, n) <==> owners'[n] == j + 1 {
      assert Writes(targets, j, n) <==> owners[n] == j + 1;
      assert Writes(targets, i, n) <==> owners[n] == i + 1;
    }
  }

  lemma RetireLive<T, V>(targets: seq<Target<T, V>>, i: nat, noNode: nat)
    requires i < |targets| && targets[i].active
    ensures var targets', token := targets[i := Retired(targets[i], noNode)], Token(i, targets[i].generation);
      Live(targets') == Live(targets) - {token} && SameLive(targets, targets', Live(targets'))
  {
    var targets', token := targets[i := Retired(targets[i], noNode)], Token(i, targets[i].generation);
    forall t: Token ensures t in Live(targets') <==> t in Live(targets) - {token} {
      LiveIff(targets, t);
      LiveIff(targets', t);
    }
  }

  // ----- a session of commands -----

  datatype CommandCode = Done | InvalidTarget | ReadOnlyTarget | InvalidInput

  /** What a command on `token` under `epoch` comes to while the session `current` is open. */
  function Judged<T, V>(targets: seq<Target<T, V>>, current: nat, token: Token, epoch: nat, finite: bool): CommandCode {
    if epoch == 0 || epoch != current || !IsLive(targets, token) then InvalidTarget
    else if targets[token.index].access != ReadWrite then ReadOnlyTarget
    else if !finite then InvalidInput
    else Done
  }

  /** A command is done exactly when it comes under the open session's epoch, through a live token that may write,
      with a finite value; the first of these that fails decides the refusal. */
  lemma JudgedMeans<T, V>(targets: seq<Target<T, V>>, current: nat, token: Token, epoch: nat, finite: bool)
    ensures var code := Judged(targets, current, token, epoch, finite);
      var live := epoch != 0 && epoch == current && token in Live(targets);
      && (code == InvalidTarget <==> !live)
      && (code == ReadOnlyTarget <==> live && targets[token.index].access == ReadOnly)
      && (code == InvalidInput <==> live && targets[token.index].access == ReadWrite && !finite)
      && (code == Done <==> live && targets[token.index].access == ReadWrite && finite)
  {
    LiveIff(targets, token);
  }

  datatype Command<T, V> =
    | WriteLocal(token: Token, epoch: nat, local: T, finite: bool)
    | WriteMotion(token: Token, epoch: nat, motion: V, finite: bool)

  /** The records, and which of them have taken a local or a motion in the open session, in order of the first one. */
  datatype Book<T, V> = Book(targets: seq<Target<T, V>>, localTouched: seq<nat>, motionTouched: seq<nat>)

  /** One command: a refused one leaves the book alone. */
  function Take<T, V>(b: Book<T, V>, current: nat, c: Command<T, V>): Book<T, V> {
    if Judged(b.targets, current, c.token, c.epoch, c.finite) != Done then b
    else
      var i := c.token.index;
      var r := b.targets[i];
      match c
      case WriteLocal(_, epoch, local, _) =>
        b.(targets := b.targets[i := r.(pendingLocal := local, localEpoch := epoch)],
           localTouched := if r.localEpoch == epoch then b.localTouched else b.localTouched + [i])
      case WriteMotion(_, epoch, motion, _) =>
        b.(targets := b.targets[i := r.(pendingMotion := motion, motionEpoch := epoch)],
           motionTouched := if r.motionEpoch == epoch then b.motionTouched else b.motionTouched + [i])
  }

  function TakeAll<T, V>(b: Book<T, V>, current: nat, cs: seq<Command<T, V>>): Book<T, V> {
    if cs == [] then b else Take(TakeAll(b, current, cs[..|cs| - 1]), current, cs[|cs| - 1])
  }

  /** One command that is done writes its value under its epoch and queues its target once; nothing else changes. */
  lemma TakeMeans<T, V>(b: Book<T, V>, current: nat, c: Command<T, V>)
    ensures var after := Take(b, current, c);
      if Judged(b.targets, current, c.token, c.epoch, c.finite) != Done then after == b
      else
        var i := c.token.index;
        && i < |b.targets| == |after.targets|
        && (forall j | 0 <= j < |b.targets| && j != i :: after.targets[j] == b.targets[j])
        && var was, now := b.targets[i], after.targets[i];
        && now.node == was.node && now.access == was.access && now.generation == was.generation && now.active
        && match c
           case WriteLocal(_, epoch, local, _) =>
             && now.pendingLocal == local && now.localEpoch == epoch
             && now.pendingMotion == was.pendingMotion && now.motionEpoch == was.motionEpoch
             && after.motionTouched == b.motionTouched
             && after.localTouched == b.localTouched + (if was.localEpoch == epoch then [] else [i])
           case WriteMotion(_, epoch, motion, _) =>
             && now.pendingMotion == motion && now.motionEpoch == epoch
             && now.pendingLocal == was.pendingLocal && now.localEpoch == was.localEpoch
             && after.localTouched == b.localTouched
             && after.motionTouched == b.motionTouched + (if was.motionEpoch == epoch then [] else [i])
  {
  }

  /** The last local written through `token` in the open session. */
  function LastLocal<T, V>(cs: seq<Command<T, V>>, current: nat, token: Token): Option<T> {
    if cs == [] then None
    else
      var c := cs[|cs| - 1];
      if c.WriteLocal? && c.token == token && c.epoch == current && c.finite then Some(c.local)
      else LastLocal(cs[..|cs| - 1], current, token)
  }

  function LastMotion<T, V>(cs: seq<Command<T, V>>, current: nat, token: Token): Option<V> {
    if cs == [] then None
    else
      var c := cs[|cs| - 1];
      if c.WriteMotion? && c.token == token && c.epoch == current && c.finite then Some(c.motion)
      else LastMotion(cs[..|cs| - 1], current, token)
  }

  /** What is pending on a write target is what was last written through its token; tokens stay what they are, and a
      target that may only be read keeps its record. */
  lemma {:induction false} LastWriteWins<T, V>(b: Book<T, V>, current: nat, cs: seq<Command<T, V>>, token: Token)
    requires IsLive(b.targets, token) && current > 0
    ensures IsLive(TakeAll(b, current, cs).targets, token)
    ensures var was, now := b.targets[token.index], TakeAll(b, current, cs).targets[token.index];
      && now.node == was.node && now.access == was.access
      && (was.access.ReadOnly? ==> now == was)
      && (was.access.ReadWrite? ==>
            && now.pendingLocal == (match LastLocal(cs, current, token) case Some(x) => x case None => was.pendingLocal)
            && now.localEpoch == (if LastLocal(cs, current, token).Some? then current else was.localEpoch)
            && now.pendingMotion ==
               (match LastMotion(cs, current, token) case Some(x) => x case None => was.pendingMotion)
            && now.motionEpoch == (if LastMotion(cs, current, token).Some? then current else was.motionEpoch))
  {
    if cs != [] {
      LastWriteWins(b, current, cs[..|cs| - 1], token);
    }
  }

  /** The epoch of the last local (or motion) command a record took. */
  function Stamp<T, V>(r: Target<T, V>, local: bool): nat { if local then r.localEpoch else r.motionEpoch }

  ghost predicate Stamped<T, V>(targets: seq<Target<T, V>>, epoch: nat) {
    forall i: nat | i < |targets| :: targets[i].localEpoch <= epoch && targets[i].motionEpoch <= epoch
  }

  /** `touched` lists the writers that took a command in this session, each once. */
  ghost predicate Queued<T, V>(targets: seq<Target<T, V>>, touched: seq<nat>, epoch: nat, local: bool) {
    && Distinct(touched)
    && (forall k | 0 <= k < |touched| :: touched[k] < |targets| && Stamp(targets[touched[k]], local) == epoch
          && targets[touched[k]].active && targets[touched[k]].access.ReadWrite?)
    && (forall i: nat | i < |targets| && Stamp(targets[i], local) == epoch :: i in touched)
  }

  /** The nodes of queued writers are all different: a session writes each node at most once. */
  lemma QueuedNodesDiffer<T, V>(targets: seq<Target<T, V>>, free: seq<nat>, owners: seq<nat>, touched: seq<nat>,
                                epoch: nat, local: bool, a: nat, b: nat)
    requires Ledger(targets, free, owners) && Queued(targets, touched, epoch, local)
    requires a < |touched| && b < |touched| && targets[touched[a]].node == targets[touched[b]].node
    ensures a == b
  {
    var i, j := touched[a], touched[b];
    assert Writes(targets, i, targets[i].node) && Writes(targets, j, targets[i].node);
  }

  /** A command changes only what is pending, so it disturbs neither the ledger nor the live tokens. */
  lemma PendingKeeps<T, V>(targets: seq<Target<T, V>>, free: seq<nat>, owners: seq<nat>, i: nat, r: Target<T, V>)
    requires Ledger(targets, free, owners) && i < |targets|
    requires r.node == targets[i].node && r.access == targets[i].access && r.generation == targets[i].generation
    requires r.active == targets[i].active
    ensures Ledger(targets[i := r], free, owners)
    ensures Live(targets[i := r]) == Live(targets) && SameLive(targets, targets[i := r], Live(targets))
  {
    var targets' := targets[i := r];
    forall j: nat, n: nat | n < |owners| ensures Writes(targets', j, n) <==> owners[n] == j + 1 {
      assert Writes(targets, j, n) <==> owners[n] == j + 1;
    }
    forall t: Token ensures t in Live(targets') <==> t in Live(targets) {
      LiveIff(targets, t);
      LiveIff(targets', t);
    }
  }

  lemma QueueNext<T, V>(targets: seq<Target<T, V>>, touched: seq<nat>, epoch: nat, local: bool, i: nat, r: Target<T, V>)
    requires Queued(targets, touched, epoch, local) && i < |targets|
    requires r.active && r.access.ReadWrite? && Stamp(r, local) == epoch
    ensures Queued(targets[i := r], if Stamp(targets[i], local) == epoch then touched else touched + [i], epoch, local)
  {
  }

  lemma QueueOther<T, V>(targets: seq<Target<T, V>>, touched: seq<nat>, epoch: nat, local: bool, i: nat,
                         r: Target<T, V>)
    requires Queued(targets, touched, epoch, local) && i <= |targets|
    requires i < |targets| && targets[i].active ==>
          r.active && r.access == targets[i].access && Stamp(r, local) == Stamp(targets[i], local)
    requires i < |targets| && !targets[i].active ==> Stamp(r, local) != epoch
    requires i == |targets| ==> Stamp(r, local) != epoch
    ensures Queued(Put(targets, i, r), touched, epoch, local)
  {
  }

  class TargetTable<T, V> {
    const noNode: nat
    const identity: T
    const rest: V
    var targets: seq<Target<T, V>>
    var free: seq<nat>
    var owners: seq<nat>
    var localTouched: seq<nat>
    var motionTouched: seq<nat>
    var commandEpoch: nat

    ghost predicate Valid()
      reads this
    {
      Ledger(targets, free, owners) && Stamped(targets, commandEpoch) && commandEpoch > 0
    }

    /** Commands are being taken. */
    ghost predicate Session()
      reads this
    {
      Queued(targets, localTouched, commandEpoch, true) && Queued(targets, motionTouched, commandEpoch, false)
    }

    constructor (nodes: nat, noNode: nat, identity: T, rest: V)
      ensures Valid() && Live(targets) == {} && owners == seq(nodes, _ => 0)
    {
      this.noNode, this.identity, this.rest := noNode, identity, rest;
      targets, free, owners := [], [], seq(nodes, _ => 0);
      localTouched, motionTouched, commandEpoch := [], [], 1;
    }

    method BeginCommands()
      requires Valid()
      modifies this`localTouched, this`motionTouched, this`commandEpoch
      ensures Valid() && Session() && localTouched == motionTouched == []
      ensures commandEpoch == old(commandEpoch) + 1
    {
      localTouched, motionTouched := [], [];
      commandEpoch := commandEpoch + 1;
    }

    /** The outcome of a command on `token` under `epoch`. */
    function CommandResult(token: Token, epoch: nat, finite: bool): CommandCode
      reads this
    {
      Judged(targets, commandEpoch, token, epoch, finite)
    }

    function Value(): Book<T, V>
      reads this
    {
      Book(targets, localTouched, motionTouched)
    }

    /** Queues a local transform; only a live write target of this session takes it. */
    method SetLocal(token: Token, epoch: nat, local: T, finite: bool) returns (code: CommandCode)
      requires Valid() && Session()
      modifies this`targets, this`localTouched
      ensures Valid() && Session() && code == old(CommandResult(token, epoch, finite))
      ensures Value() == Take(old(Value()), commandEpoch, WriteLocal(token, epoch, local, finite))
      ensures Live(targets) == old(Live(targets)) && SameLive(old(targets), targets, Live(targets))
    {
      hide Ledger, Live, SameLive, Queued, Stamped;
      SameSelf(targets);
      code := CommandResult(token, epoch, finite);
      if code != Done {
        return;
      }
      var i := token.index;
      var r := targets[i].(pendingLocal := local, localEpoch := epoch);
      PendingKeeps(targets, free, owners, i, r);
      QueueNext(targets, localTouched, epoch, true, i, r);
      QueueOther(targets, motionTouched, epoch, false, i, r);
      StampedAt(targets, commandEpoch, i);
      StampedNext(targets, commandEpoch, i, r);
      assert Put(targets, i, r) == targets[i := r];
      if targets[i].localEpoch != epoch {
        localTouched := localTouched + [i];
      }
      targets := targets[i := r];
    }

    /** Queues a motion state, likewise. */
    method SetVelocity(token: Token, epoch: nat, motion: V, finite: bool) returns (code: CommandCode)
      requires Valid() && Session()
      modifies this`targets, this`motionTouched
      ensures Valid() && Session() && code == old(CommandResult(token, epoch, finite))
      ensures Value() == Take(old(Value()), commandEpoch, WriteMotion(token, epoch, motion, finite))
      ensures Live(targets) == old(Live(targets)) && SameLive(old(targets), targets, Live(targets))
    {
      hide Ledger, Live, SameLive, Queued, Stamped;
      SameSelf(targets);
      code := CommandResult(token, epoch, finite);
      if code != Done {
        return;
      }
      var i := token.index;
      var r := targets[i].(pendingMotion := motion, motionEpoch := epoch);
      PendingKeeps(targets, free, owners, i, r);
      QueueNext(targets, motionTouched, epoch, false, i, r);
      QueueOther(targets, localTouched, epoch, true, i, r);
      StampedAt(targets, commandEpoch, i);
      StampedNext(targets, commandEpoch, i, r);
      assert Put(targets, i, r) == targets[i := r];
      if targets[i].motionEpoch != epoch {
        motionTouched := motionTouched + [i];
      }
      targets := targets[i := r];
    }

    /** A token for a new live target; a write target becomes the owner of its node. */
    method Allocate(node: nat, access: Access) returns (token: Token)
      requires Valid() && node < |owners|
      requires access.ReadWrite? ==> owners[node] == 0
      modifies this`targets, this`free, this`owners
      ensures Valid() && (old(Session()) ==> Session()) && token !in old(Live(targets)) &&
            Live(targets) == old(Live(targets)) + {token}
      ensures SameLive(old(targets), targets, old(Live(targets)))
      ensures IsLive(targets, token) && targets[token.index].node == node && targets[token.index].access == access
      ensures owners == if access.ReadWrite? then old(owners)[node := token.index + 1] else old(owners)
      ensures NextIndex(old(targets), old(free)) <= |old(targets)|
      ensures token == NextToken(old(targets), old(free))
      ensures if old(free) == [] then token == Token(|old(targets)|, 1) && |targets| == |old(targets)| + 1
              else token.index == old(free)[|old(free)| - 1] && free == old(free)[..|old(free)| - 1]
      ensures targets[token.index] == Target(node, access, identity, rest, 0, 0, token.generation, true)
      ensures Register(targets, free) == Claimed(old(Register(targets, free)), node, access, identity, rest)
    {
      hide Ledger, Live, SameLive, IsLive, Put, Queued, Stamped;
      NextIndexFree(targets, free, owners);
      var index := NextIndex(targets, free);
      PutSize(targets, index, Target(node, access, identity, rest, 0, 0, NextToken(targets, free).generation, true));
      var generation := if index < |targets| then targets[index].generation else 1;
      var record := Target(node, access, identity, rest, 0, 0, generation, true);
      ClaimLedger(targets, free, owners, record);
      ClaimLive(targets, index, record);
      StampedNext(targets, commandEpoch, index, record);
      if Session() {
        QueueOther(targets, localTouched, commandEpoch, true, index, record);
        QueueOther(targets, motionTouched, commandEpoch, false, index, record);
      }
      if free != [] {
        free := free[..|free| - 1];
      }
      targets := Put(targets, index, record);
      if access.ReadWrite? {
        owners := owners[node := index + 1];
      }
      return Token(index, generation);
    }

    /** A live token dies and its index is free again; any other token is ignored. */
    method Release(token: Token)
      requires Valid()
      modifies this`targets, this`free, this`owners
      ensures Valid() && Live(targets) == old(Live(targets)) - {token}
      ensures SameLive(old(targets), targets, Live(targets))
      ensures |owners| == |old(owners)|
      ensures Register(targets, free) == Freed(old(Register(targets, free)), token, noNode)
      ensures !old(IsLive(targets, token)) ==> owners == old(owners)
      ensures old(IsLive(targets, token)) ==>
        && |targets| == |old(targets)| && free == old(free) + [token.index]
        && (forall i | 0 <= i < |targets| && i != token.index :: targets[i] == old(targets)[i])
        && !targets[token.index].active && targets[token.index].node == noNode
        && targets[token.index].generation == if token.generation >= MAX32 then 1 else token.generation + 1
    {
      LiveIff(targets, token);
      hide Ledger, Live, Stamped;
      if !IsLive(targets, token) {
        SameSelf(targets);
        return;
      }
      var record := targets[token.index];
      OwnerKnown(targets, free, owners, token.index);
      RetireLedger(targets, free, owners, token.index, noNode);
      RetireLive(targets, token.index, noNode);
      StampedAt(targets, commandEpoch, token.index);
      StampedNext(targets, commandEpoch, token.index, Retired(record, noNode));
      if record.access == ReadWrite && owners[record.node] == token.index + 1 {
        owners := owners[record.node := 0];
      }
      targets := targets[token.index := Retired(record, noNode)];
      free := free + [token.index];
    }

    /** Releases several tokens. */
    method ReleaseAll(tokens: seq<Token>)
      requires Valid()
      modifies this`targets, this`free, this`owners
      ensures Valid() && Live(targets) == old(Live(targets)) - Elements(tokens)
      ensures SameLive(old(targets), targets, Live(targets))
      ensures |owners| == |old(owners)|
    {
      hide Ledger, Live, Stamped;
      SameSelf(targets);
      for k := 0 to |tokens|
        invariant Valid() && Live(targets) == old(Live(targets)) - Elements(tokens[..k])
        invariant SameLive(old(targets), targets, Live(targets))
        invariant |owners| == |old(owners)|
      {
        assert tokens[..k + 1] == tokens[..k] + [tokens[k]];
        ghost var between := targets;
        Release(tokens[k]);
        SameTrans(old(targets), between, targets, Live(between), Live(targets), Live(targets));
      }
      assert tokens[..|tokens|] == tokens;
    }
  }

  lemma StampedAt<T, V>(targets: seq<Target<T, V>>, epoch: nat, i: nat)
    requires Stamped(targets, epoch) && i < |targets|
    ensures targets[i].localEpoch <= epoch && targets[i].motionEpoch <= epoch
  {
  }

  lemma StampedNext<T, V>(targets: seq<Target<T, V>>, epoch: nat, i: nat, r: Target<T, V>)
    requires Stamped(targets, epoch) && i <= |targets| && r.localEpoch <= epoch && r.motionEpoch <= epoch
    ensures Stamped(Put(targets, i, r), epoch)
    ensures i < |targets| ==> Stamped(targets[i := r], epoch)
  {
  }

  lemma SameSelf<T, V>(targets: seq<Target<T, V>>)
    ensures SameLive(targets, targets, Live(targets))
  {
    forall token | token in Live(targets) ensures IsLive(targets, token) { LiveIff(targets, token); }
  }

  lemma SameTrans<T, V>(a: seq<Target<T, V>>, b: seq<Target<T, V>>, c: seq<Target<T, V>>, first: set<Token>,
                        second: set<Token>, tokens: set<Token>)
    requires SameLive(a, b, first) && SameLive(b, c, second) && tokens <= first && tokens <= second
    ensures SameLive(a, c, tokens)
  {
  }

  lemma OwnerKnown<T, V>(targets: seq<Target<T, V>>, free: seq<nat>, owners: seq<nat>, i: nat)
    requires Ledger(targets, free, owners) && i < |targets| && targets[i].active
    ensures targets[i].node < |owners|
    ensures targets[i].access.ReadWrite? ==> owners[targets[i].node] == i + 1
  {
    assert targets[i].access.ReadWrite? ==> Writes(targets, i, targets[i].node);
  }
}
