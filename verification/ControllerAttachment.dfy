/** Attaching controllers to an instance: all of them or none, with exclusive write targets. */
module ControllerAttachment {
  import opened Sequences
  import opened TransformStates
  import opened ActiveMotionSets
  import opened ControllerTargets
  import opened ControllerPreparation
  import opened LocalEdits

  datatype Controller = Controller(instance: nat, typeId: nat, declaration: nat, tokens: seq<Token>)

  datatype ControllerCode = Created | NoFactory | BadConfiguration | BadTarget | NotConstructed | OtherFailure

  /** How the creation of one controller goes: the commands it issues through the sink, and how it ends. */
  datatype Creation<T, V> = Creation(commands: seq<Command<T, V>>, code: ControllerCode, stateValid: bool)

  /** A controller factory: whether it can make a missing batch, and what that batch does when handed its tokens. */
  datatype Factory<T, V> = Factory(batchMade: bool, create: seq<Token> -> Creation<T, V>)

  function CreationFailure(code: ControllerCode): AttachCode {
    match code
    case NoFactory => FactoryNotFound
    case BadConfiguration => InvalidConfiguration
    case BadTarget => TargetNotFound
    case _ => ConstructionFailed
  }

  /** `code` tells what went wrong with a factory: it makes no batch, or it fails for the tokens it is given. */
  ghost predicate CreationFault<T, V>(factory: Factory<T, V>, code: AttachCode) {
    || (!factory.batchMade && code == ConstructionFailed)
    || exists tokens ::
         var creation := factory.create(tokens);
         if creation.code.Created? then !creation.stateValid && code == ConstructionFailed
         else code == CreationFailure(creation.code)
  }

  lemma CreationFailureMeans(code: ControllerCode)
    ensures var failure := CreationFailure(code);
      && (failure == FactoryNotFound <==> code == NoFactory)
      && (failure == InvalidConfiguration <==> code == BadConfiguration)
      && (failure == TargetNotFound <==> code == BadTarget)
      && (failure == ConstructionFailed <==> code != NoFactory && code != BadConfiguration && code != BadTarget)
  {
  }

  /** A factory that makes whatever it is asked for. */
  ghost predicate Reliable<T, V>(factory: Factory<T, V>) {
    factory.batchMade && forall tokens :: factory.create(tokens).code.Created? && factory.create(tokens).stateValid
  }

  // ----- lists of controllers -----

  ghost function TokensOf(cs: seq<Controller>): set<Token> {
    if cs == [] then {} else TokensOf(cs[..|cs| - 1]) + Elements(cs[|cs| - 1].tokens)
  }

  ghost function TypesOf(cs: seq<Controller>): set<nat> {
    set k | 0 <= k < |cs| :: cs[k].typeId
  }

  /** No token belongs to two controllers. */
  ghost predicate Apart(cs: seq<Controller>) {
    forall i, j | 0 <= i < j < |cs| :: Elements(cs[i].tokens) !! Elements(cs[j].tokens)
  }

  function Others(cs: seq<Controller>, instance: nat): seq<Controller> {
    if cs == [] then []
    else Others(cs[..|cs| - 1], instance) + if cs[|cs| - 1].instance != instance then [cs[|cs| - 1]] else []
  }

  /** The tokens of the controllers of one instance. */
  ghost function TokensIn(cs: seq<Controller>, instance: nat): set<Token> {
    if cs == [] then {}
    else
      TokensIn(cs[..|cs| - 1], instance) +
      if cs[|cs| - 1].instance == instance then Elements(cs[|cs| - 1].tokens) else {}
  }

  lemma {:induction false} TokenHeld(cs: seq<Controller>, token: Token)
    ensures token in TokensOf(cs) <==> exists k :: 0 <= k < |cs| && token in Elements(cs[k].tokens)
  {
    if cs != [] {
      var front := cs[..|cs| - 1];
      TokenHeld(front, token);
      if k :| 0 <= k < |cs| && token in Elements(cs[k].tokens) {
        assert k < |front| ==> token in Elements(front[k].tokens);
      }
      if k :| 0 <= k < |front| && token in Elements(front[k].tokens) {
        assert token in Elements(cs[k].tokens);
      }
    }
  }

  lemma LastApart(cs: seq<Controller>)
    requires cs != [] && Apart(cs)
    ensures Apart(cs[..|cs| - 1]) && TokensOf(cs[..|cs| - 1]) !! Elements(cs[|cs| - 1].tokens)
  {
    var front := cs[..|cs| - 1];
    var held, last := TokensOf(front), Elements(cs[|cs| - 1].tokens);
    forall token | token in held ensures token !in last {
      TokenHeld(front, token);
    }
  }

  /** Dropping an instance's controllers drops exactly their tokens. */
  lemma {:induction false} OthersTokens(cs: seq<Controller>, instance: nat)
    requires Apart(cs)
    ensures TokensOf(Others(cs, instance)) == TokensOf(cs) - TokensIn(cs, instance)
    ensures TokensIn(cs, instance) <= TokensOf(cs)
    ensures Apart(Others(cs, instance))
  {
    if cs != [] {
      var front, last := cs[..|cs| - 1], cs[|cs| - 1];
      LastApart(cs);
      OthersTokens(front, instance);
      var kept := Others(front, instance);
      if last.instance != instance {
        assert Others(cs, instance) == kept + [last];
        AppendTokens(kept, last);
        AppendApart(kept, last);
      } else {
        assert Others(cs, instance) == kept + [] == kept;
      }
    }
  }

  lemma AppendTokens(cs: seq<Controller>, c: Controller)
    ensures TokensOf(cs + [c]) == TokensOf(cs) + Elements(c.tokens)
    ensures TypesOf(cs + [c]) == TypesOf(cs) + {c.typeId}
  {
    assert (cs + [c])[..|cs|] == cs;
    assert forall k | 0 <= k < |cs| :: (cs + [c])[k] == cs[k];
    assert (cs + [c])[|cs|] == c;
    forall x | x in TypesOf(cs) ensures x in TypesOf(cs + [c]) {
      var k :| 0 <= k < |cs| && cs[k].typeId == x;
      assert (cs + [c])[k].typeId == x;
    }
  }

  lemma AppendApart(cs: seq<Controller>, c: Controller)
    requires Apart(cs) && TokensOf(cs) !! Elements(c.tokens)
    ensures Apart(cs + [c])
  {
    forall k | 0 <= k < |cs| ensures Elements(cs[k].tokens) <= TokensOf(cs) {
      forall token | token in Elements(cs[k].tokens) ensures token in TokensOf(cs) { TokenHeld(cs, token); }
    }
  }

  /** Another instance's controllers stay, in order, and only they. */
  lemma {:induction false} OthersMeans(cs: seq<Controller>, instance: nat)
    ensures Others(cs, instance) == Restrict(cs, set c | c in cs && c.instance != instance)
  {
    if cs != [] {
      OthersMeans(cs[..|cs| - 1], instance);
      RestrictSame(cs[..|cs| - 1], set c | c in cs[..|cs| - 1] && c.instance != instance,
                   set c | c in cs && c.instance != instance);
    }
  }

  /** Nothing of another instance is dropped, and everything of this one is. */
  lemma {:induction false} OthersOf(old_: seq<Controller>, new_: seq<Controller>, instance: nat)
    requires forall k | 0 <= k < |old_| :: old_[k].instance != instance
    requires forall k | 0 <= k < |new_| :: new_[k].instance == instance
    ensures Others(old_ + new_, instance) == old_
  {
    if new_ == [] {
      assert old_ + new_ == old_;
      OthersAll(old_, instance);
    } else {
      assert (old_ + new_)[..|old_ + new_| - 1] == old_ + new_[..|new_| - 1];
      OthersOf(old_, new_[..|new_| - 1], instance);
    }
  }

  lemma {:induction false} OthersAll(cs: seq<Controller>, instance: nat)
    requires forall k | 0 <= k < |cs| :: cs[k].instance != instance
    ensures Others(cs, instance) == cs
  {
    if cs != [] {
      OthersAll(cs[..|cs| - 1], instance);
      assert cs == cs[..|cs| - 1] + [cs[|cs| - 1]];
    }
  }

  /** Batches made only for controllers that did not stay are dropped again. */
  lemma RetainedBatches(kept: seq<nat>, extra: seq<nat>, used: set<nat>)
    requires Elements(kept) == used && Distinct(kept + extra)
    ensures Restrict(kept + extra, used) == kept
  {
    RestrictConcat(kept, extra, used);
    RestrictAll(kept, used);
    forall x | x in extra ensures x !in used {
      var j :| 0 <= j < |extra| && extra[j] == x;
      assert (kept + extra)[|kept| + j] == x;
      forall i | 0 <= i < |kept| ensures kept[i] != x {
        assert (kept + extra)[i] == kept[i];
      }
    }
    RestrictNone(extra, used);
  }

  // ----- what a declaration gets -----

  /** The token is live and stands for what the reference resolved to. */
  ghost predicate StandsFor<T, V>(targets: seq<Target<T, V>>, token: Token, ref: Reference) {
    && IsLive(targets, token) && ref.mode.Granted? && ref.resolution.Resolved?
    && targets[token.index].node == ref.resolution.node && targets[token.index].access == ref.mode.access
  }

  ghost predicate Built<T, V>(targets: seq<Target<T, V>>, c: Controller, d: Declaration, instance: nat) {
    && c.instance == instance && c.typeId == d.typeId && c.declaration == d.id && |c.tokens| == |d.targets|
    && forall j | 0 <= j < |d.targets| :: StandsFor(targets, c.tokens[j], d.targets[j])
  }

  lemma StandsStill<T, V>(a: seq<Target<T, V>>, b: seq<Target<T, V>>, tokens: seq<Token>, refs: seq<Reference>)
    requires SameLive(a, b, Live(a)) && |tokens| <= |refs|
    requires forall j | 0 <= j < |tokens| :: StandsFor(a, tokens[j], refs[j])
    ensures forall j | 0 <= j < |tokens| :: StandsFor(b, tokens[j], refs[j])
  {
    forall j | 0 <= j < |tokens| ensures StandsFor(b, tokens[j], refs[j]) {
      assert StandsFor(a, tokens[j], refs[j]);
      LiveIff(a, tokens[j]);
    }
  }

  /** An owned node was owned before, or is taken by an earlier reference. */
  ghost predicate OwnedBy(ds: seq<Declaration>, before: seq<nat>, owners: seq<nat>, k: nat, j: nat) {
    && |owners| == |before|
    && forall n: nat | n < |owners| && owners[n] != 0 :: before[n] != 0 || TakenBefore(ds, k, j, n)
  }

  lemma OwnedNext(ds: seq<Declaration>, before: seq<nat>, owners: seq<nat>, k: nat, j: nat, index: nat)
    requires k < |ds| && j < |ds[k].targets| && ReferenceOk(ds, before, k, j) && OwnedBy(ds, before, owners, k, j)
    ensures var ref := ds[k].targets[j];
      && ref.mode.Granted? && ref.resolution.Resolved? && ref.resolution.node < |owners|
      && (ref.mode.access.ReadWrite? ==> owners[ref.resolution.node] == 0)
      && OwnedBy(ds, before,
                 if ref.mode.access.ReadWrite? then owners[ref.resolution.node := index + 1] else owners, k, j + 1)
  {
    var ref := ds[k].targets[j];
    var owners' := if ref.mode.access.ReadWrite? then owners[ref.resolution.node := index + 1] else owners;
    hide WellReferenced, NewNode, TakenBefore;
    forall n: nat | n < |owners'| && owners'[n] != 0 ensures before[n] != 0 || TakenBefore(ds, k, j + 1, n) {
      TakenNext(ds, k, j, n);
    }
  }

  lemma OwnedWrap(ds: seq<Declaration>, before: seq<nat>, owners: seq<nat>, k: nat)
    requires k < |ds| && OwnedBy(ds, before, owners, k, |ds[k].targets|)
    ensures OwnedBy(ds, before, owners, k + 1, 0)
  {
    hide TakenBefore;
    forall n: nat | n < |owners| && owners[n] != 0 ensures before[n] != 0 || TakenBefore(ds, k + 1, 0, n) {
      TakenWrap(ds, k, n);
    }
  }

  /** Records in use are carried over as they are. */
  ghost predicate Unmoved<T, V>(a: seq<Target<T, V>>, b: seq<Target<T, V>>) {
    forall i: nat | i < |a| && a[i].active :: i < |b| && b[i] == a[i]
  }

  /** Handing out targets changes no record in use and queues nothing. */
  ghost predicate Grants<T, V>(a: Book<T, V>, b: Book<T, V>) {
    Unmoved(a.targets, b.targets) && b.localTouched == a.localTouched && b.motionTouched == a.motionTouched
  }

  lemma PutUnmoved<T, V>(a: seq<Target<T, V>>, free: seq<nat>, owners: seq<nat>, r: Target<T, V>)
    requires Ledger(a, free, owners)
    ensures NextIndex(a, free) <= |a| && Unmoved(a, Put(a, NextIndex(a, free), r))
  {
    NextIndexFree(a, free, owners);
  }

  lemma UnmovedSelf<T, V>(a: seq<Target<T, V>>)
    ensures Unmoved(a, a)
  {
  }

  lemma UnmovedTrans<T, V>(a: seq<Target<T, V>>, b: seq<Target<T, V>>, c: seq<Target<T, V>>)
    requires Unmoved(a, b) && Unmoved(b, c)
    ensures Unmoved(a, c)
  {
    forall i: nat | i < |a| && a[i].active ensures i < |c| && c[i] == a[i] {
      assert b[i] == a[i];
    }
  }

  method AllocateTargets<T, V>(table: TargetTable<T, V>, ds: seq<Declaration>, k: nat, ghost before: seq<nat>)
    returns (tokens: seq<Token>)
    requires table.Valid() && table.Session() && k < |ds| && DeclarationOk(ds, before, k)
    requires OwnedBy(ds, before, table.owners, k, 0)
    modifies table`targets, table`free, table`owners
    ensures table.Valid() && table.Session() && OwnedBy(ds, before, table.owners, k, |ds[k].targets|)
    ensures |tokens| == |ds[k].targets| && Elements(tokens) !! old(Live(table.targets))
    ensures Live(table.targets) == old(Live(table.targets)) + Elements(tokens)
    ensures SameLive(old(table.targets), table.targets, old(Live(table.targets)))
    ensures forall j | 0 <= j < |tokens| :: StandsFor(table.targets, tokens[j], ds[k].targets[j])
    ensures Unmoved(old(table.targets), table.targets)
  {
    hide Ledger, Live, SameLive, Stamped, Queued, OwnedBy, Complete, WellReferenced, NewNode, TakenBefore, StandsFor,
      Unmoved, Put, NextIndex;
    assert Unmoved(table.targets, table.targets) by { UnmovedSelf(table.targets); }
    tokens := [];
    SameSelf(table.targets);
    var refs := ds[k].targets;
    for j := 0 to |refs|
      invariant table.Valid() && table.Session() && OwnedBy(ds, before, table.owners, k, j)
      invariant |tokens| == j && Elements(tokens) !! old(Live(table.targets))
      invariant Live(table.targets) == old(Live(table.targets)) + Elements(tokens)
      invariant SameLive(old(table.targets), table.targets, old(Live(table.targets)))
      invariant forall i | 0 <= i < |tokens| :: StandsFor(table.targets, tokens[i], refs[i])
      invariant Unmoved(old(table.targets), table.targets)
    {
      assert ReferenceOk(ds, before, k, j);
      OwnedSize(ds, before, table.owners, k, j);
      OwnedNext(ds, before, table.owners, k, j, 0);
      ghost var was, owners, free := table.targets, table.owners, table.free;
      var token := table.Allocate(refs[j].resolution.node, refs[j].mode.access);
      OwnedNext(ds, before, owners, k, j, token.index);
      PutUnmoved(was, free, owners, Target(refs[j].resolution.node, refs[j].mode.access, table.identity, table.rest,
                                           0, 0, token.generation, true));
      UnmovedTrans(old(table.targets), was, table.targets);
      StandsStill(was, table.targets, tokens, refs);
      StandsNow(table.targets, token, refs[j]);
      SameTrans(old(table.targets), was, table.targets, old(Live(table.targets)), Live(was), old(Live(table.targets)));
      assert Elements(tokens + [token]) == Elements(tokens) + {token};
      tokens := tokens + [token];
    }
  }

  ghost predicate AllBuilt<T, V>(targets: seq<Target<T, V>>, cs: seq<Controller>, n: nat, ds: seq<Declaration>,
                                 instance: nat) {
    |cs| == n + |ds| && forall i | 0 <= i < |ds| :: Built(targets, cs[n + i], ds[i], instance)
  }

  /** A session as it is recorded: the books before the first and after each controller, and between them the books
      with the controller's targets handed out. */
  datatype Log<T, V> = Log(books: seq<Book<T, V>>, granted: seq<Book<T, V>>)

  /** Each controller from `n` on is handed its targets and has its commands taken, in order. */
  ghost predicate Logged<T, V>(log: Log<T, V>, current: nat, cs: seq<Controller>, n: nat,
                               factories: nat -> Factory<T, V>) {
    && |log.books| == |log.granted| + 1 && |cs| == n + |log.granted|
    && forall k: nat | k < |log.granted| ::
         && Grants(log.books[k], log.granted[k])
         && log.books[k + 1] == TakeAll(log.granted[k], current, factories(k).create(cs[n + k].tokens).commands)
  }

  function Final<T, V>(log: Log<T, V>): Book<T, V> {
    if log.books == [] then Book([], [], []) else log.books[|log.books| - 1]
  }

  /** What is written out at the end of a session is what the last book has queued. */
  ghost predicate WrittenOut<T, V>(locals: seq<Entry<T>>, motions: seq<Entry<V>>, book: Book<T, V>) {
    && (forall i | 0 <= i < |book.localTouched| :: book.localTouched[i] < |book.targets|)
    && (forall i | 0 <= i < |book.motionTouched| :: book.motionTouched[i] < |book.targets|)
    && |locals| == |book.localTouched| && |motions| == |book.motionTouched|
    && (forall i | 0 <= i < |locals| ::
          var r := book.targets[book.localTouched[i]];
          locals[i] == Entry(r.node, r.pendingLocal))
    && (forall i | 0 <= i < |motions| ::
          var r := book.targets[book.motionTouched[i]];
          motions[i] == Entry(r.node, r.pendingMotion))
  }

  lemma LogStart<T, V>(book: Book<T, V>, current: nat, cs: seq<Controller>, factories: nat -> Factory<T, V>)
    ensures Logged(Log([book], []), current, cs, |cs|, factories)
  {
  }

  lemma LogNext<T, V>(log: Log<T, V>, current: nat, cs: seq<Controller>, n: nat, factories: nat -> Factory<T, V>,
                      c: Controller, granted: Book<T, V>, next: Book<T, V>)
    requires Logged(log, current, cs, n, factories) && Grants(Final(log), granted)
    requires next == TakeAll(granted, current, factories(|log.granted|).create(c.tokens).commands)
    ensures Logged(Log(log.books + [next], log.granted + [granted]), current, cs + [c], n, factories)
  {
    hide Grants, TakeAll;
  }

  lemma OwnedStart(ds: seq<Declaration>, owners: seq<nat>)
    ensures OwnedBy(ds, owners, owners, 0, 0)
  {
  }

  /** Every written node has a write owner. */
  ghost predicate OwnedNodes<V>(owners: seq<nat>, us: seq<Entry<V>>) {
    forall i | 0 <= i < |us| :: us[i].node < |owners| && owners[us[i].node] != 0
  }

  lemma PendingOwned<T, V>(targets: seq<Target<T, V>>, free: seq<nat>, owners: seq<nat>, touched: seq<nat>, epoch: nat,
                           local: bool)
    requires Ledger(targets, free, owners) && Queued(targets, touched, epoch, local)
    ensures forall k | 0 <= k < |touched| :: touched[k] < |targets|
    ensures NodesDiffer(PendingLocals(targets, touched)) && NodesDiffer(PendingMotions(targets, touched))
    ensures OwnedNodes(owners, PendingLocals(targets, touched)) && OwnedNodes(owners, PendingMotions(targets, touched))
  {
    forall i, j | 0 <= i < j < |touched| ensures targets[touched[i]].node != targets[touched[j]].node {
      if targets[touched[i]].node == targets[touched[j]].node {
        QueuedNodesDiffer(targets, free, owners, touched, epoch, local, i, j);
      }
    }
    forall k | 0 <= k < |touched|
      ensures targets[touched[k]].node < |owners| && owners[targets[touched[k]].node] != 0
    {
      OwnerKnown(targets, free, owners, touched[k]);
    }
  }

  /** `ds` is `declarations` in execution order. */
  ghost predicate Arranges(ds: seq<Declaration>, declarations: seq<Declaration>) {
    multiset(ds) == multiset(declarations) && SortedBy(ds, DeclarationOrder)
  }

  /** Execution order: by the declared order, then by provider, then by id, then by type. */
  lemma ArrangedInOrder(ds: seq<Declaration>, declarations: seq<Declaration>, i: nat, j: nat)
    requires Arranges(ds, declarations) && i < j < |ds|
    ensures ds[i].executionOrder <= ds[j].executionOrder
    ensures ds[i].executionOrder == ds[j].executionOrder ==> ds[i].provider <= ds[j].provider
    ensures ds[i].executionOrder == ds[j].executionOrder && ds[i].provider == ds[j].provider ==> ds[i].id <= ds[j].id
    ensures ds[i].executionOrder == ds[j].executionOrder && ds[i].provider == ds[j].provider && ds[i].id == ds[j].id ==>
              ds[i].typeId <= ds[j].typeId
  {
    assert DeclarationOrder(ds[i], ds[j]);
  }

  /** Why an attachment is refused without trying to create anything. */
  ghost predicate Refused(slotFound: bool, controllers: seq<Controller>, instance: nat, declarations: seq<Declaration>,
                          resolver: bool, owners: seq<nat>)
  {
    || !slotFound
    || (exists k :: 0 <= k < |controllers| && controllers[k].instance == instance)
    || (declarations != [] &&
          (!resolver || forall ds: seq<Declaration> | Arranges(ds, declarations) :: !Attachable(ds, owners)))
  }

  /** Declarations that can be attached have one execution order only. */
  lemma ArrangementUnique(ds: seq<Declaration>, declarations: seq<Declaration>, owners: seq<nat>)
    requires multiset(ds) == multiset(declarations) && SortedBy(ds, DeclarationOrder)
    ensures Attachable(ds, owners) <==> exists other :: Arranges(other, declarations) && Attachable(other, owners)
  {
    if other :| Arranges(other, declarations) && Attachable(other, owners) {
      TiesAreEqual(other, owners);
      SortedUnique(other, ds, DeclarationOrder);
    }
    assert Arranges(ds, declarations);
  }

  lemma TiesAreEqual(ds: seq<Declaration>, owners: seq<nat>)
    requires Attachable(ds, owners)
    ensures Antisymmetric(ds, DeclarationOrder)
  {
    forall x, y | x in ds && y in ds && DeclarationOrder(x, y) && DeclarationOrder(y, x) ensures x == y {
      var i :| 0 <= i < |ds| && ds[i] == x;
      var j :| 0 <= j < |ds| && ds[j] == y;
      assert DeclarationOk(ds, owners, i);
    }
  }

  lemma DeclarationsTotal(s: set<Declaration>)
    ensures TotalOn(s, DeclarationOrder)
  {
  }

  lemma SortedInNodes(ds: seq<Declaration>, declarations: seq<Declaration>, nodes: nat)
    requires InNodes(declarations, nodes) && Elements(ds) == Elements(declarations)
    ensures InNodes(ds, nodes)
  {
    forall k, j | 0 <= k < |ds| && 0 <= j < |ds[k].targets| && ds[k].targets[j].resolution.Resolved?
      ensures ds[k].targets[j].resolution.node < nodes
    {
      assert ds[k] in Elements(declarations);
      var i :| 0 <= i < |declarations| && declarations[i] == ds[k];
    }
  }

  lemma BatchAdded(batches: seq<nat>, typeId: nat)
    requires Distinct(batches) && typeId !in batches
    ensures Distinct(batches + [typeId]) && Elements(batches + [typeId]) == Elements(batches) + {typeId}
  {
  }

  lemma OwnedSize(ds: seq<Declaration>, before: seq<nat>, owners: seq<nat>, k: nat, j: nat)
    requires OwnedBy(ds, before, owners, k, j)
    ensures |owners| == |before|
  {
  }

  lemma StandsNow<T, V>(targets: seq<Target<T, V>>, token: Token, ref: Reference)
    requires IsLive(targets, token) && ref.mode.Granted? && ref.resolution.Resolved?
    requires token.index < |targets|
    requires targets[token.index].node == ref.resolution.node && targets[token.index].access == ref.mode.access
    ensures StandsFor(targets, token, ref)
  {
  }

  // ----- the scene's controllers -----

  function PendingLocals<T, V>(targets: seq<Target<T, V>>, touched: seq<nat>): seq<Entry<T>>
    requires forall k | 0 <= k < |touched| :: touched[k] < |targets|
  {
    seq(|touched|, k requires 0 <= k < |touched| && touched[k] < |targets| =>
      Entry(targets[touched[k]].node, targets[touched[k]].pendingLocal))
  }

  function PendingMotions<T, V>(targets: seq<Target<T, V>>, touched: seq<nat>): seq<Entry<V>>
    requires forall k | 0 <= k < |touched| :: touched[k] < |targets|
  {
    seq(|touched|, k requires 0 <= k < |touched| && touched[k] < |targets| =>
      Entry(targets[touched[k]].node, targets[touched[k]].pendingMotion))
  }

  ghost predicate NodesDiffer<V>(us: seq<Entry<V>>) {
    forall i, j | 0 <= i < j < |us| :: us[i].node != us[j].node
  }

  class SceneControllers<T, V> {
    const table: TargetTable<T, V>
    const state: TransformState<T>
    const active: ActiveMotionSet<V>
    const stationary: V -> bool
    var controllers: seq<Controller>
    var batches: seq<nat>

    /** The live targets are exactly the controllers' targets, shared by no two, and batches cover the types in use. */
    ghost predicate Holding()
      reads this, table
    {
      && table.Valid() && Live(table.targets) == TokensOf(controllers) && Apart(controllers)
      && Distinct(batches) && TypesOf(controllers) <= Elements(batches)
    }

    /** At rest there is a batch for exactly the types in use. */
    ghost predicate Valid()
      reads this, table
    {
      Holding() && Elements(batches) == TypesOf(controllers)
    }

    constructor (table: TargetTable<T, V>, state: TransformState<T>, active: ActiveMotionSet<V>, stationary: V -> bool)
      requires table.Valid() && Live(table.targets) == {}
      ensures Valid() && controllers == [] && batches == []
      ensures this.table == table && this.state == state && this.active == active && this.stationary == stationary
    {
      this.table, this.state, this.active, this.stationary := table, state, active, stationary;
      controllers, batches := [], [];
    }

    /** Releases every target of the instance's controllers, forgets them, and drops the batches nobody uses. */
    method DetachControllers(instance: nat)
      requires Holding()
      modifies this`controllers, this`batches, table`targets, table`free, table`owners
      ensures Valid()
      ensures controllers == Others(old(controllers), instance)
      ensures batches == Restrict(old(batches), TypesOf(controllers))
      ensures Live(table.targets) == old(Live(table.targets)) - TokensIn(old(controllers), instance)
      ensures SameLive(old(table.targets), table.targets, Live(table.targets))
      ensures |table.owners| == |old(table.owners)|
    {
      hide Ledger, Live, SameLive, Stamped;
      SameSelf(table.targets);
      var kept: seq<Controller> := [];
      for k := 0 to |controllers|
        invariant table.Valid() && controllers == old(controllers) && batches == old(batches)
        invariant Live(table.targets) == old(Live(table.targets)) - TokensIn(controllers[..k], instance)
        invariant SameLive(old(table.targets), table.targets, Live(table.targets))
        invariant |table.owners| == |old(table.owners)|
        invariant kept == Others(controllers[..k], instance)
      {
        assert controllers[..k + 1][..k] == controllers[..k];
        if controllers[k].instance == instance {
          ghost var was := table.targets;
          table.ReleaseAll(controllers[k].tokens);
          SameTrans(old(table.targets), was, table.targets, Live(was), Live(table.targets), Live(table.targets));
        } else {
          kept := kept + [controllers[k]];
        }
      }
      assert controllers[..|controllers|] == controllers;
      OthersTokens(controllers, instance);
      OthersTypes(controllers, instance);
      controllers := kept;
      RetainBatches();
    }

    /** What a new controller does through the command sink while it is created. */
    method RunCommands(commands: seq<Command<T, V>>)
      requires table.Valid() && table.Session()
      modifies table`targets, table`localTouched, table`motionTouched
      ensures table.Valid() && table.Session()
      ensures table.Value() == TakeAll(old(table.Value()), table.commandEpoch, commands)
      ensures Live(table.targets) == old(Live(table.targets))
      ensures SameLive(old(table.targets), table.targets, Live(table.targets))
    {
      hide Ledger, Live, SameLive, Stamped, Queued, Take;
      SameSelf(table.targets);
      assert commands[..0] == [];
      for i := 0 to |commands|
        invariant table.Valid() && table.Session()
        invariant table.Value() == TakeAll(old(table.Value()), table.commandEpoch, commands[..i])
        invariant Live(table.targets) == old(Live(table.targets))
        invariant SameLive(old(table.targets), table.targets, Live(table.targets))
      {
        ghost var was := table.targets;
        assert commands[..i + 1][..i] == commands[..i];
        match commands[i] {
          case WriteLocal(token, epoch, local, finite) => var code := table.SetLocal(token, epoch, local, finite);
          case WriteMotion(token, epoch, motion, finite) => var code := table.SetVelocity(token, epoch, motion, finite);
        }
        SameTrans(old(table.targets), was, table.targets, Live(was), Live(table.targets), Live(table.targets));
      }
      assert commands[..|commands|] == commands;
    }

    /** Creates the controller of one declaration; a controller that cannot be created leaves no target behind. */
    method CreateController(instance: nat, ds: seq<Declaration>, k: nat, ghost before: seq<nat>,
                            factory: Factory<T, V>)
      returns (code: AttachCode, ghost granted: Book<T, V>)
      requires Holding() && table.Session() && k < |ds| && DeclarationOk(ds, before, k)
      requires OwnedBy(ds, before, table.owners, k, 0)
      modifies this`controllers, this`batches, table`targets, table`free, table`owners, table`localTouched,
            table`motionTouched
      ensures Holding() && |table.owners| == |old(table.owners)|
      ensures old(batches) <= batches
      ensures SameLive(old(table.targets), table.targets, old(Live(table.targets)))
      ensures code != Success ==> controllers == old(controllers)
      ensures code != Success ==> CreationFault(factory, code)
      ensures code == Success ==> table.Session() && OwnedBy(ds, before, table.owners, k + 1, 0)
      ensures code == Success && old(Valid()) ==> Valid()
      ensures Reliable(factory) ==> code == Success
      ensures code == Success ==>
                && |controllers| == |old(controllers)| + 1 && controllers[..|old(controllers)|] == old(controllers)
                && Built(table.targets, controllers[|old(controllers)|], ds[k], instance)
      ensures old(Live(table.targets)) <= Live(table.targets)
      ensures code == Success ==>
                && Grants(old(table.Value()), granted)
                && table.Value() == TakeAll(granted, table.commandEpoch,
                                            factory.create(controllers[|old(controllers)|].tokens).commands)
    {
      hide Ledger, Live, SameLive, Stamped, Queued, OwnedBy, DeclarationOk, StandsFor, TokensOf, TypesOf, Apart,
        IsLive, TakeAll, Unmoved;
      granted := table.Value();
      var typeId := ds[k].typeId;
      SameSelf(table.targets);
      OwnedSize(ds, before, table.owners, k, 0);
      if typeId !in batches {
        if !factory.batchMade {
          return ConstructionFailed, granted;
        }
        BatchAdded(batches, typeId);
        batches := batches + [typeId];
      }
      var tokens := AllocateTargets(table, ds, k, before);
      ghost var claimed := table.targets;
      granted := table.Value();
      OwnedSize(ds, before, table.owners, k, |ds[k].targets|);
      var outcome := factory.create(tokens);
      RunCommands(outcome.commands);
      SameTrans(old(table.targets), claimed, table.targets, old(Live(table.targets)), Live(table.targets),
          old(Live(table.targets)));
      if outcome.code != Created || !outcome.stateValid {
        ghost var was := table.targets;
        table.ReleaseAll(tokens);
        SameTrans(old(table.targets), was, table.targets, old(Live(table.targets)), Live(table.targets),
            old(Live(table.targets)));
        return if outcome.code == Created then ConstructionFailed else CreationFailure(outcome.code), granted;
      }
      StandsStill(claimed, table.targets, tokens, ds[k].targets);
      OwnedWrap(ds, before, table.owners, k);
      var controller := Controller(instance, typeId, ds[k].id, tokens);
      AppendTokens(controllers, controller);
      AppendApart(controllers, controller);
      controllers := controllers + [controller];
      return Success, granted;
    }

    /** Creates the controllers in order and stops at the first that cannot be created. */
    method CreateAll(instance: nat, ds: seq<Declaration>, factories: nat -> Factory<T, V>)
      returns (code: AttachCode, ghost log: Log<T, V>)
      requires Valid() && table.Session() && Attachable(ds, table.owners)
      modifies this`controllers, this`batches, table`targets, table`free, table`owners, table`localTouched,
            table`motionTouched
      ensures Holding() && |table.owners| == |old(table.owners)|
      ensures old(batches) <= batches && SameLive(old(table.targets), table.targets, old(Live(table.targets)))
      ensures |old(controllers)| <= |controllers| && controllers[..|old(controllers)|] == old(controllers)
      ensures forall k | |old(controllers)| <= k < |controllers| :: controllers[k].instance == instance
      ensures (forall k :: Reliable(factories(k))) ==> code == Success
      ensures code != Success ==> exists k :: CreationFault(factories(k), code)
      ensures code == Success ==>
        && Valid() && table.Session()
        && AllBuilt(table.targets, controllers, |old(controllers)|, ds, instance)
      ensures code == Success ==>
        && Logged(log, table.commandEpoch, controllers, |old(controllers)|, factories)
        && log.books[0] == old(table.Value()) && Final(log) == table.Value()
    {
      hide Ledger, Live, SameLive, Stamped, Queued, OwnedBy, DeclarationOk, StandsFor, TokensOf, TypesOf, Apart,
        IsLive, TakeAll, Unmoved, Grants, Logged;
      log := Log([table.Value()], []);
      assert Logged(log, table.commandEpoch, controllers, |controllers|, factories) by {
        LogStart(table.Value(), table.commandEpoch, controllers, factories);
      }
      ghost var n, before := |controllers|, table.owners;
      SameSelf(table.targets);
      OwnedStart(ds, before);
      code := Success;
      for k := 0 to |ds|
        invariant code == Success
        invariant Valid() && table.Session() && OwnedBy(ds, before, table.owners, k, 0)
        invariant |table.owners| == |before| && old(batches) <= batches
        invariant SameLive(old(table.targets), table.targets, old(Live(table.targets)))
        invariant |controllers| == n + k && controllers[..n] == old(controllers)
        invariant forall i | 0 <= i < k :: Built(table.targets, controllers[n + i], ds[i], instance)
        invariant forall i | n <= i < |controllers| :: controllers[i].instance == instance
        invariant old(Live(table.targets)) <= Live(table.targets)
        invariant |log.granted| == k && |log.books| == k + 1 &&
              Logged(log, table.commandEpoch, controllers, n, factories)
        invariant log.books[0] == old(table.Value()) && Final(log) == table.Value()
      {
        ghost var was, had, granted := table.targets, controllers, table.Value();
        code, granted := CreateController(instance, ds, k, before, factories(k));
        SameTrans(old(table.targets), was, table.targets, old(Live(table.targets)), Live(was),
            old(Live(table.targets)));
        assert controllers[..n] == controllers[..|had|][..n];
        if code != Success {
          return;
        }
        assert controllers == had + [controllers[|had|]];
        LogNext(log, table.commandEpoch, had, n, factories, controllers[|had|], granted, table.Value());
        log := Log(log.books + [table.Value()], log.granted + [granted]);
        forall i | 0 <= i < k ensures Built(table.targets, controllers[n + i], ds[i], instance) {
          assert controllers[n + i] == controllers[..|had|][n + i];
          StandsStill(was, table.targets, had[n + i].tokens, ds[i].targets);
        }
      }
    }

    /** Writes the queued locals, each one allowed to fail, then applies the queued motions as one batch. */
    method ApplyCommands() returns (ghost locals: seq<Entry<T>>, ghost motions: seq<Entry<V>>)
      requires table.Valid() && table.Session() && state.Value().Valid() && active.Valid(stationary)
      requires |table.owners| <= active.nodeCount
      modifies state, active, table`localTouched, table`motionTouched
      ensures state.Value().Valid() && active.Valid(stationary)
      ensures WrittenOut(locals, motions, old(table.Value())) && table.localTouched == table.motionTouched == []
      ensures NodesDiffer(locals) && NodesDiffer(motions) && OwnedNodes(table.owners, locals) &&
            OwnedNodes(table.owners, motions)
      ensures state.Value() == TryEdits(old(state.Value()), locals)
      ensures View(active.records) == SetAll(old(View(active.records)), motions, stationary)
    {
      hide Ledger, Live, Stamped, Queued, View, SetAll, Moving, NodesDiffer;
      PendingOwned(table.targets, table.free, table.owners, table.localTouched, table.commandEpoch, true);
      PendingOwned(table.targets, table.free, table.owners, table.motionTouched, table.commandEpoch, false);
      var edits := PendingLocals(table.targets, table.localTouched);
      var updates := PendingMotions(table.targets, table.motionTouched);
      locals, motions := edits, updates;
      TryLocals(state, edits);
      var refused, reserved := active.ApplyBatch(updates, stationary);
      table.localTouched, table.motionTouched := [], [];
    }

    /** Attaches all the declared controllers or changes nothing: after a failure the controllers, the live targets, the
        write owners, the batches, the transforms and the motions are what they were. */
    method AttachControllers(instance: nat, slotFound: bool, declarations: seq<Declaration>, resolver: bool,
                             factories: nat -> Factory<T, V>)
      returns (code: AttachCode, ghost log: Log<T, V>, ghost locals: seq<Entry<T>>, ghost motions: seq<Entry<V>>)
      requires Valid() && state.Value().Valid() && active.Valid(stationary)
      requires InNodes(declarations, |table.owners|) && |table.owners| <= active.nodeCount
      modifies this, table, state, active
      ensures Valid() && state.Value().Valid() && active.Valid(stationary)
      ensures Refused(slotFound, old(controllers), instance, declarations, resolver, old(table.owners)) ==>
            code != Success
      ensures !slotFound ==> code == StaleHandle
      ensures var taken := exists k :: 0 <= k < |old(controllers)| && old(controllers)[k].instance == instance;
        && (slotFound && taken ==> code == ControllersActive)
        && (slotFound && !taken && declarations == [] ==> code == Success)
        && (slotFound && !taken && declarations != [] && !resolver ==> code == FactoryNotFound)
        && (slotFound && !taken && declarations != [] && resolver ==>
              || code == Success
              || (exists k :: CreationFault(factories(k), code))
              || exists ds, k ::
                   Arranges(ds, declarations) && 0 <= k < |ds| && DeclarationFault(ds, old(table.owners), k, code))
      ensures code != Success ==>
        || Refused(slotFound, old(controllers), instance, declarations, resolver, old(table.owners))
                                  || exists k :: !Reliable(factories(k))
      ensures code != Success || declarations == [] ==>
        && controllers == old(controllers) && batches == old(batches) && table.owners == old(table.owners)
        && Live(table.targets) == old(Live(table.targets))
        && SameLive(old(table.targets), table.targets, Live(table.targets))
        && state.Value() == old(state.Value())
        && active.records == old(active.records) && active.generation == old(active.generation)
      ensures code == Success && declarations != [] ==>
        && (exists ds ::
              Arranges(ds, declarations) && AllBuilt(table.targets, controllers, |old(controllers)|, ds, instance))
        && controllers[..|old(controllers)|] == old(controllers)
        && SameLive(old(table.targets), table.targets, old(Live(table.targets)))
        && SortedBy(batches, (a: nat, b: nat) => a <= b)
        && Logged(log, table.commandEpoch, controllers, |old(controllers)|, factories)
        && log.books[0] == Book(old(table.targets), [], []) && Final(log).targets == table.targets
        && WrittenOut(locals, motions, Final(log))
        && NodesDiffer(locals) && NodesDiffer(motions)
        && OwnedNodes(table.owners, locals) && OwnedNodes(table.owners, motions)
        && state.Value() == TryEdits(old(state.Value()), locals)
        && View(active.records) == SetAll(old(View(active.records)), motions, stationary)
    {
      hide Ledger, Live, SameLive, Stamped, Queued, TokensOf, TypesOf, Apart, Attachable, View, SetAll, Moving,
        DeclarationOk, Logged, WrittenOut;
      log, locals, motions := Log([], []), [], [];
      SameSelf(table.targets);
      if !slotFound {
        return StaleHandle, log, locals, motions;
      }
      if exists k :: 0 <= k < |controllers| && controllers[k].instance == instance {
        return ControllersActive, log, locals, motions;
      }
      if declarations == [] {
        return Success, log, locals, motions;
      }
      if !resolver {
        return FactoryNotFound, log, locals, motions;
      }
      DeclarationsTotal(Elements(declarations));
      var ds := Sort(declarations, DeclarationOrder);
      SortedInNodes(ds, declarations, |table.owners|);
      ArrangementUnique(ds, declarations, table.owners);
      code := Prepare(ds, table.owners);
      if code != Success {
        return;
      }
      ghost var targets, free, owners := table.targets, table.free, table.owners;
      ghost var held, made := controllers, batches;
      table.BeginCommands();
      code, log := CreateAll(instance, ds, factories);
      if code != Success {
        ghost var was, added, extra := table.targets, controllers[|held|..], batches[|made|..];
        assert controllers == held + added && batches == made + extra;
        assert forall k | 0 <= k < |added| :: added[k] == controllers[|held| + k];
        DropsOnlyNew(held, added, made, extra, instance);
        DetachControllers(instance);
        table.localTouched, table.motionTouched := [], [];
        SameTrans(targets, was, table.targets, Live(targets), Live(table.targets), Live(targets));
        OwnersDetermined(targets, free, owners, table.targets, table.free, table.owners);
        return;
      }
      locals, motions := ApplyCommands();
      SortBatches();
    }

    /** Orders the batches by type. */
    method SortBatches()
      requires Distinct(batches)
      modifies this`batches
      ensures Distinct(batches) && Elements(batches) == Elements(old(batches))
      ensures SortedBy(batches, (a: nat, b: nat) => a <= b)
    {
      var leq := (a: nat, b: nat) => a <= b;
      ghost var was := batches;
      batches := Sort(batches, leq);
      SameElements(batches, was);
      assert SortedBy(batches, (a: nat, b: nat) => a <= b);
    }

    /** Keeps the batches whose type some controller still has. */
    method RetainBatches()
      requires Distinct(batches) && TypesOf(controllers) <= Elements(batches)
      modifies this`batches
      ensures batches == Restrict(old(batches), TypesOf(controllers))
      ensures Distinct(batches) && Elements(batches) == TypesOf(controllers)
    {
      var retained := [];
      for i := 0 to |batches|
        invariant batches == old(batches) && retained == Restrict(batches[..i], TypesOf(controllers))
      {
        RestrictStep(batches, i, TypesOf(controllers));
        if exists k :: 0 <= k < |controllers| && controllers[k].typeId == batches[i] {
          retained := retained + [batches[i]];
        }
      }
      assert batches[..|batches|] == batches;
      RestrictDistinct(batches, TypesOf(controllers));
      batches := retained;
    }
  }

  /** A failed attach left only controllers of its own instance and batches of its own types; dropping them restores
      all. */
  lemma DropsOnlyNew(before: seq<Controller>, added: seq<Controller>, batches: seq<nat>, extra: seq<nat>, instance: nat)
    requires Elements(batches) == TypesOf(before) && Distinct(batches + extra)
    requires Apart(before + added)
    requires forall k | 0 <= k < |before| :: before[k].instance != instance
    requires forall k | 0 <= k < |added| :: added[k].instance == instance
    ensures Others(before + added, instance) == before
    ensures Restrict(batches + extra, TypesOf(before)) == batches
    ensures TokensOf(before + added) - TokensIn(before + added, instance) == TokensOf(before)
  {
    OthersOf(before, added, instance);
    RetainedBatches(batches, extra, TypesOf(before));
    OthersTokens(before + added, instance);
  }

  lemma {:induction false} OthersTypes(cs: seq<Controller>, instance: nat)
    ensures TypesOf(Others(cs, instance)) <= TypesOf(cs)
  {
    if cs != [] {
      var front, last := cs[..|cs| - 1], cs[|cs| - 1];
      OthersTypes(front, instance);
      assert cs == front + [last];
      AppendTokens(front, last);
      AppendTokens(Others(front, instance), last);
    }
  }
}
