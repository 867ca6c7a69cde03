/** Whole runs over one transform state: edits, dirty marks, plans held across other operations, and evaluations. */
module EvaluationRuns {
  import opened Sequences
  import opened Polytrees
  import opened TransformStates
  import opened Planning
  import opened Workspaces
  import opened Evaluation
  import opened Coherence

  /** A workspace seen by its plans: how many plans have been built on it, and the two lists that plans borrow. */
  datatype Buffer = Buffer(builds: nat, affected: seq<nat>, selected: seq<nat>) {
    function List(partial: bool): seq<nat> { if partial then selected else affected }
  }

  /** A held plan. It owns no nodes: it names a list of its workspace and the length that list had, and the counters it
      was built under. `build` says which of the workspace's builds it was, which the program does not keep. */
  datatype Token = Token(workspace: nat, build: nat, partial: bool, length: nat, sourceRevision: nat,
                         mutationGeneration: nat, evaluationGeneration: nat)

  datatype System<T> = System(state: State<T>, buffers: seq<Buffer>, tokens: seq<Token>)

  /** `BuildElsewhere` is a plan built on the same workspace for another topology or another state. */
  datatype Step<T> =
    | EditLocal(node: nat, local: T)
    | MarkDirty(node: nat)
    | BuildFull(workspace: nat)
    | BuildPartial(workspace: nat, scope: seq<nat>)
    | BuildElsewhere(workspace: nat, affected: seq<nat>, selected: seq<nat>)
    | Evaluate(token: nat)

  /** The epoch counter after `builds` plans: 64-bit, skipping zero when it wraps. */
  function Generation(builds: nat): nat {
    if builds == 0 then 0 else (builds - 1) % MAX64 + 1
  }

  lemma GenerationAdvances(builds: nat)
    ensures Generation(builds + 1) == if Generation(builds) == MAX64 then 1 else Generation(builds) + 1
  {
  }

  /** Two builds share an epoch exactly when a multiple of 2^64 - 1 builds lies between them. */
  lemma GenerationRepeats(a: nat, b: nat)
    requires 1 <= a <= b
    ensures Generation(a) == Generation(b) <==> (b - a) % MAX64 == 0
  {
    if Generation(a) == Generation(b) { SameResidue(a - 1, b - 1); }
    if (b - a) % MAX64 == 0 { WholeLaps(a - 1, b - 1); }
  }

  lemma SameResidue(x: nat, y: nat)
    requires x <= y && x % MAX64 == y % MAX64
    ensures (y - x) % MAX64 == 0
  {
    assert y - x == MAX64 * (y / MAX64 - x / MAX64);
  }

  lemma WholeLaps(x: nat, y: nat)
    requires x <= y && (y - x) % MAX64 == 0
    ensures x % MAX64 == y % MAX64
  {
    assert y == x + MAX64 * ((y - x) / MAX64);
  }

  ghost predicate ScopeAccepted(t: Forest, d: set<nat>, scope: seq<nat>) {
    Distinct(scope) && Elements(scope) <= DirtyRoots(t, d)
  }

  /** Fills a workspace with the lists of one more build. */
  function Fill<T>(sys: System<T>, w: nat, affected: seq<nat>, selected: seq<nat>): System<T>
    requires w < |sys.buffers|
  {
    sys.(buffers := sys.buffers[w := Buffer(sys.buffers[w].builds + 1, affected, selected)])
  }

  /** A successful build: the workspace is filled and a plan for one of its lists is handed out. */
  function Issue<T>(sys: System<T>, w: nat, partial: bool, affected: seq<nat>, selected: seq<nat>): System<T>
    requires w < |sys.buffers|
  {
    var filled := Fill(sys, w, affected, selected);
    var buffer := filled.buffers[w];
    filled.(tokens := sys.tokens + [Token(w, buffer.builds, partial, |buffer.List(partial)|, sys.state.revision,
                                          sys.state.mutationGeneration, sys.state.evaluationGeneration)])
  }

  /** The counters that an evaluation compares before it trusts a plan. */
  predicate Current<T>(sys: System<T>, k: nat)
    requires k < |sys.tokens|
  {
    var token := sys.tokens[k];
    && token.workspace < |sys.buffers|
    && Generation(sys.buffers[token.workspace].builds) == Generation(token.build)
    && token.sourceRevision == sys.state.revision
    && token.mutationGeneration == sys.state.mutationGeneration
    && token.evaluationGeneration == sys.state.evaluationGeneration
  }

  /** The list a held plan borrows from, as it is now. */
  function Borrowed<T>(sys: System<T>, k: nat): seq<nat>
    requires k < |sys.tokens|
  {
    var token := sys.tokens[k];
    if token.workspace < |sys.buffers| then sys.buffers[token.workspace].List(token.partial) else []
  }

  /** What a held plan shows now. */
  function Shown<T>(sys: System<T>, k: nat): seq<nat>
    requires k < |sys.tokens|
  {
    Span(Borrowed(sys, k), sys.tokens[k].length)
  }

  /** What is evaluated is what the plan shows. A view longer than its list has no meaning in the program; the step is
      then left out. */
  ghost predicate Evaluates<T>(t: Forest, sys: System<T>, k: nat) {
    && k < |sys.tokens| && Current(sys, k) && (sys.tokens[k].length == 0 || sys.state.revision < MAX64)
    && sys.tokens[k].length <= |Borrowed(sys, k)| && InRange(t, Shown(sys, k))
  }

  ghost function Next<T>(t: Forest, compose: (T, T) -> T, sys: System<T>, step: Step<T>): System<T>
    requires |sys.state.records| == t.Size()
  {
    var s, d := sys.state, Dirty(sys.state.records);
    match step
    case EditLocal(v, local) => if EditError(s, v) == Ok then sys.(state := Edit(s, v, local)) else sys
    case MarkDirty(v) => if EditError(s, v) == Ok then sys.(state := Mark(s, v)) else sys
    case BuildFull(w) => if w < |sys.buffers| then Issue(sys, w, false, Planned(t, d), []) else sys
    case BuildPartial(w, scope) =>
      if w >= |sys.buffers| then sys
      else if ScopeAccepted(t, d, scope) then Issue(sys, w, true, Planned(t, d), Planned(t, Elements(scope)))
      else Fill(sys, w, Planned(t, d), [])
    case BuildElsewhere(w, affected, selected) =>
      if w < |sys.buffers| then Fill(sys, w, affected, selected) else sys
    case Evaluate(k) =>
      if Evaluates(t, sys, k) then sys.(state := Evaluated(t, compose, s, Shown(sys, k))) else sys
  }

  ghost function Run<T>(t: Forest, compose: (T, T) -> T, sys: System<T>, steps: seq<Step<T>>): System<T>
    requires |sys.state.records| == t.Size()
    decreases |steps|
  {
    if steps == [] then sys
    else
      NextSize(t, compose, sys, steps[0]);
      Run(t, compose, Next(t, compose, sys, steps[0]), steps[1..])
  }

  lemma NextSize<T>(t: Forest, compose: (T, T) -> T, sys: System<T>, step: Step<T>)
    requires |sys.state.records| == t.Size()
    ensures |Next(t, compose, sys, step).state.records| == t.Size()
  {
  }

  lemma {:induction false} RunConcat<T>(t: Forest, compose: (T, T) -> T, sys: System<T>,
                                       a: seq<Step<T>>, b: seq<Step<T>>)
    requires |sys.state.records| == t.Size()
    ensures |Run(t, compose, sys, a).state.records| == t.Size()
    ensures Run(t, compose, sys, a + b) == Run(t, compose, Run(t, compose, sys, a), b)
    decreases |a|
  {
    hide Next;
    if a == [] {
      assert a + b == b;
    } else {
      NextSize(t, compose, sys, a[0]);
      assert (a + b)[1..] == a[1..] + b && (a + b)[0] == a[0];
      RunConcat(t, compose, Next(t, compose, sys, a[0]), a[1..], b);
    }
  }

  lemma RunOne<T>(t: Forest, compose: (T, T) -> T, sys: System<T>, step: Step<T>)
    requires |sys.state.records| == t.Size()
    ensures Run(t, compose, sys, [step]) == Next(t, compose, sys, step)
  {
    hide Next;
    NextSize(t, compose, sys, step);
    assert [step][1..] == [];
  }

  // ----- what every run keeps -----

  /** How many plans have been built on the plan's workspace since. */
  function Lag<T>(sys: System<T>, k: nat): int
    requires k < |sys.tokens| && sys.tokens[k].workspace < |sys.buffers|
  {
    sys.buffers[sys.tokens[k].workspace].builds - sys.tokens[k].build
  }

  /** No plan is evaluated whole laps of the epoch after it was built. */
  predicate Timely<T>(sys: System<T>, step: Step<T>) {
    step.Evaluate? && step.token < |sys.tokens| && sys.tokens[step.token].workspace < |sys.buffers| ==>
      Lag(sys, step.token) == 0 || Lag(sys, step.token) % MAX64 != 0
  }

  ghost predicate TimelyRun<T>(t: Forest, compose: (T, T) -> T, sys: System<T>, steps: seq<Step<T>>)
    requires |sys.state.records| == t.Size()
    decreases |steps|
  {
    steps != [] ==>
      && Timely(sys, steps[0])
      && (NextSize(t, compose, sys, steps[0]);
          TimelyRun(t, compose, Next(t, compose, sys, steps[0]), steps[1..]))
  }

  lemma {:induction false} TimelyConcat<T>(t: Forest, compose: (T, T) -> T, sys: System<T>, a: seq<Step<T>>,
                                           b: seq<Step<T>>)
    requires |sys.state.records| == t.Size() && |Run(t, compose, sys, a).state.records| == t.Size()
    requires TimelyRun(t, compose, sys, a) && TimelyRun(t, compose, Run(t, compose, sys, a), b)
    ensures TimelyRun(t, compose, sys, a + b)
    decreases |a|
  {
    hide Next, Timely;
    if a == [] {
      assert a + b == b;
    } else {
      NextSize(t, compose, sys, a[0]);
      assert (a + b)[1..] == a[1..] + b && (a + b)[0] == a[0];
      TimelyConcat(t, compose, Next(t, compose, sys, a[0]), a[1..], b);
    }
  }

  /** Only evaluations can be late. */
  lemma {:induction false} BuildsTimely<T>(t: Forest, compose: (T, T) -> T, sys: System<T>, steps: seq<Step<T>>)
    requires |sys.state.records| == t.Size() && forall i | 0 <= i < |steps| :: !steps[i].Evaluate?
    ensures TimelyRun(t, compose, sys, steps)
    decreases |steps|
  {
    hide Next;
    if steps != [] {
      NextSize(t, compose, sys, steps[0]);
      BuildsTimely(t, compose, Next(t, compose, sys, steps[0]), steps[1..]);
    }
  }

  /** A plan whose workspace has not been used since, and whose state has not changed since, shows its whole list, which
      is made of whole subtrees of dirty roots. */
  ghost predicate HonestToken<T>(t: Forest, s: State<T>, buffers: seq<Buffer>, token: Token) {
    && token.workspace < |buffers| && token.sourceRevision <= s.revision
    && var buffer := buffers[token.workspace];
    && 1 <= token.build <= buffer.builds
    && (token.build == buffer.builds && token.sourceRevision == s.revision ==>
          token.length == |buffer.List(token.partial)| && IsScope(t, Dirty(s.records), buffer.List(token.partial)))
  }

  ghost predicate Invariant<T>(t: Forest, compose: (T, T) -> T, sys: System<T>) {
    Sound(t, compose, sys.state) && forall token | token in sys.tokens :: HonestToken(t, sys.state, sys.buffers, token)
  }

  /** A timely plan that passes the checks is the last one built on its workspace: it shows its own nodes, and these are
      whole dirty subtrees of the present state. */
  lemma CurrentIsOwn<T>(t: Forest, compose: (T, T) -> T, sys: System<T>, k: nat)
    requires Invariant(t, compose, sys) && k < |sys.tokens| && Current(sys, k) && Timely(sys, Evaluate(k))
    ensures Lag(sys, k) == 0 && sys.tokens[k].length == |Borrowed(sys, k)| && Shown(sys, k) == Borrowed(sys, k)
    ensures IsScope(t, Dirty(sys.state.records), Shown(sys, k))
  {
    var token := sys.tokens[k];
    assert token in sys.tokens;
    GenerationRepeats(token.build, sys.buffers[token.workspace].builds);
  }

  /** A plan is good for one state: an accepted edit or mark, and an accepted evaluation even of a plan without nodes,
      leaves no plan current that was so before. */
  lemma ChangesStale<T>(t: Forest, compose: (T, T) -> T, sys: System<T>, step: Step<T>, k: nat)
    requires |sys.state.records| == t.Size() && k < |sys.tokens| && Current(sys, k)
    requires match step
      case EditLocal(v, _) => EditError(sys.state, v) == Ok
      case MarkDirty(v) => EditError(sys.state, v) == Ok
      case Evaluate(j) => Evaluates(t, sys, j)
      case _ => false
    ensures Next(t, compose, sys, step).tokens == sys.tokens && !Current(Next(t, compose, sys, step), k)
  {
    hide Evaluates, Shown;
  }

  /** Building another plan on a workspace makes the last one built there stale, and no plan of another workspace. */
  lemma BuildsStale<T>(t: Forest, compose: (T, T) -> T, sys: System<T>, step: Step<T>, k: nat)
    requires |sys.state.records| == t.Size() && k < |sys.tokens| && Current(sys, k)
    requires step.BuildFull? || step.BuildPartial? || step.BuildElsewhere?
    requires step.workspace < |sys.buffers|
    ensures k < |Next(t, compose, sys, step).tokens|
    ensures Current(Next(t, compose, sys, step), k) <==> sys.tokens[k].workspace != step.workspace
  {
    hide Planned, ScopeAccepted;
    GenerationAdvances(sys.buffers[step.workspace].builds);
    hide Generation;
  }

  lemma FillKeeps<T>(t: Forest, compose: (T, T) -> T, sys: System<T>, w: nat, affected: seq<nat>, selected: seq<nat>)
    requires Invariant(t, compose, sys) && w < |sys.buffers|
    ensures Invariant(t, compose, Fill(sys, w, affected, selected))
  {
    var next := Fill(sys, w, affected, selected);
    forall token | token in next.tokens ensures HonestToken(t, next.state, next.buffers, token) {
      assert HonestToken(t, sys.state, sys.buffers, token);
    }
  }

  lemma IssueKeeps<T>(t: Forest, compose: (T, T) -> T, sys: System<T>, w: nat, partial: bool, affected: seq<nat>,
                      selected: seq<nat>)
    requires Invariant(t, compose, sys) && w < |sys.buffers|
    requires IsScope(t, Dirty(sys.state.records), if partial then selected else affected)
    ensures Invariant(t, compose, Issue(sys, w, partial, affected, selected))
  {
    FillKeeps(t, compose, sys, w, affected, selected);
    var next := Issue(sys, w, partial, affected, selected);
    forall token | token in next.tokens ensures HonestToken(t, next.state, next.buffers, token) {
      assert token in sys.tokens ==> HonestToken(t, sys.state, Fill(sys, w, affected, selected).buffers, token);
    }
  }

  lemma MovedClockKeeps<T>(t: Forest, compose: (T, T) -> T, sys: System<T>, s: State<T>)
    requires Invariant(t, compose, sys) && Sound(t, compose, s)
    requires s.revision > sys.state.revision || (s.revision == sys.state.revision && s.records == sys.state.records)
    ensures Invariant(t, compose, sys.(state := s))
  {
    forall token | token in sys.tokens ensures HonestToken(t, s, sys.buffers, token) {
      assert HonestToken(t, sys.state, sys.buffers, token);
    }
  }

  lemma EvaluateKeeps<T>(t: Forest, compose: (T, T) -> T, sys: System<T>, k: nat)
    requires Invariant(t, compose, sys) && Evaluates(t, sys, k) && Timely(sys, Evaluate(k))
    requires |sys.state.records| == t.Size()
    ensures Invariant(t, compose, sys.(state := Evaluated(t, compose, sys.state, Shown(sys, k))))
  {
    CurrentIsOwn(t, compose, sys, k);
    var nodes := Shown(sys, k);
    var r: set<nat> :| r <= DirtyRoots(t, Dirty(sys.state.records)) && nodes == Planned(t, r);
    EvaluatedSound(t, compose, sys.state, r);
    MovedClockKeeps(t, compose, sys, Evaluated(t, compose, sys.state, nodes));
  }

  lemma SizeKnown<T>(t: Forest, compose: (T, T) -> T, s: State<T>)
    requires Sound(t, compose, s)
    ensures |s.records| == t.Size() && s.revision <= MAX64
  {
  }

  lemma NextKeeps<T>(t: Forest, compose: (T, T) -> T, sys: System<T>, step: Step<T>)
    requires Invariant(t, compose, sys) && Timely(sys, step)
    requires |sys.state.records| == t.Size()
    ensures Invariant(t, compose, Next(t, compose, sys, step))
  {
    hide Invariant, Evaluated, Shown, Current, Planned, DirtyRoots, Lag;
    var s, d := sys.state, Dirty(sys.state.records);
    assert Sound(t, compose, s) by { InvariantSound(t, compose, sys); }
    SizeKnown(t, compose, s);
    match step
    case EditLocal(v, local) =>
      if EditError(s, v) == Ok {
        TouchSound(t, compose, s, v, Edit(s, v, local).records[v]);
        MovedClockKeeps(t, compose, sys, Edit(s, v, local));
      }
    case MarkDirty(v) =>
      if EditError(s, v) == Ok {
        TouchSound(t, compose, s, v, Mark(s, v).records[v]);
        MovedClockKeeps(t, compose, sys, Mark(s, v));
      }
    case BuildFull(w) =>
      if w < |sys.buffers| {
        RootsSuffice(t, d);
        IssueKeeps(t, compose, sys, w, false, Planned(t, d), []);
      }
    case BuildPartial(w, scope) =>
      if w < |sys.buffers| {
        if ScopeAccepted(t, d, scope) {
          IssueKeeps(t, compose, sys, w, true, Planned(t, d), Planned(t, Elements(scope)));
        } else {
          FillKeeps(t, compose, sys, w, Planned(t, d), []);
        }
      }
    case BuildElsewhere(w, affected, selected) =>
      if w < |sys.buffers| {
        FillKeeps(t, compose, sys, w, affected, selected);
      }
    case Evaluate(k) =>
      if Evaluates(t, sys, k) {
        EvaluateKeeps(t, compose, sys, k);
      }
  }

  lemma InvariantSound<T>(t: Forest, compose: (T, T) -> T, sys: System<T>)
    requires Invariant(t, compose, sys)
    ensures Sound(t, compose, sys.state)
  {
  }

  /** Coherence and an exact frontier survive every timely run. */
  lemma {:induction false} RunKeeps<T>(t: Forest, compose: (T, T) -> T, sys: System<T>, steps: seq<Step<T>>)
    requires |sys.state.records| == t.Size()
    requires Invariant(t, compose, sys) && TimelyRun(t, compose, sys, steps)
    ensures Invariant(t, compose, Run(t, compose, sys, steps))
    decreases |steps|
  {
    hide Invariant, Next, Timely;
    if steps != [] {
      NextSize(t, compose, sys, steps[0]);
      NextKeeps(t, compose, sys, steps[0]);
      RunKeeps(t, compose, Next(t, compose, sys, steps[0]), steps[1..]);
    }
  }

  function Started<T>(s: State<T>, workspaces: nat): System<T> {
    System(s, seq(workspaces, _ => Buffer(0, [], [])), [])
  }

  /** From a sound state with fresh workspaces: after any timely run, a node with no dirty ancestor-or-self has the
      recomputed world, and a full plan built and evaluated then leaves every node so. */
  lemma RunCoherence<T>(t: Forest, compose: (T, T) -> T, s: State<T>, workspaces: nat, steps: seq<Step<T>>)
    requires Sound(t, compose, s) && |s.records| == t.Size()
    requires TimelyRun(t, compose, Started(s, workspaces), steps)
    ensures var end := Run(t, compose, Started(s, workspaces), steps).state;
      && |end.records| == t.Size()
      && Distinct(end.frontier) && Elements(end.frontier) == Dirty(end.records)
      && (forall v: nat | v < t.Size() && t.Ancestors(v) * Dirty(end.records) == {} ::
            end.records[v].world == t.Fold(compose, Locals(end.records), v))
      && (end.revision < MAX64 ==>
            && InRange(t, Planned(t, Dirty(end.records)))
            && forall v: nat | v < t.Size() ::
                 CoherentAt(t, compose, Evaluated(t, compose, end, Planned(t, Dirty(end.records))).records, v))
  {
    var sys := Started(s, workspaces);
    RunKeeps(t, compose, sys, steps);
    var end := Run(t, compose, sys, steps).state;
    forall v: nat | v < t.Size() && t.Ancestors(v) * Dirty(end.records) == {}
      ensures end.records[v].world == t.Fold(compose, Locals(end.records), v)
    {
      assert v !in Affected(t, Dirty(end.records));
      assert CoherentAt(t, compose, end.records, v);
    }
    hide Run, Evaluated, Affected, Planned, CoherentAt;
    if end.revision < MAX64 {
      FullEvaluation(t, compose, end);
    }
  }

  /** An all-dirty state, as the first freeze makes it, is sound whatever its worlds hold. */
  lemma AllDirtySound<T>(t: Forest, compose: (T, T) -> T, s: State<T>)
    requires s.Valid() && |s.records| == t.Size() && forall v | 0 <= v < t.Size() :: s.records[v].dirty
    ensures Sound(t, compose, s)
  {
    forall v: nat | v < t.Size() ensures v in Affected(t, Dirty(s.records)) {
      DirtyIsAffected(t, Dirty(s.records), v);
    }
  }
}
