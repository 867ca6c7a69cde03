/** Why `execute` returns: every step of a dispatch lowers a measure, and until the return some step can be taken. */
module TaskExecutorProgress {
  import opened Sequences
  import opened TaskExecutor

  /** How many steps thread `i` takes before its next fetch or before it is done with the dispatch, at most. */
  function Weight(s: State, i: nat): nat
    requires i < |s.pcs| == |s.observed|
  {
    match s.pcs[i]
    case Idle => if i > 0 && s.observed[i] != s.generation then 4 else 0
    case Observe => 3
    case Load => 2
    case Fetch => 1
    case Call(_) => 4
    case Tally => 3
    case Finish => 1
    case Exited => 0
  }

  function Weights(s: State, n: nat): nat
    requires n <= |s.pcs| == |s.observed|
  {
    if n == 0 then 0 else Weights(s, n - 1) + Weight(s, n - 1)
  }

  /** The fetches a dispatch has left. */
  function FetchesLeft(s: State): int
    requires s.grain >= 1
  {
    Chunks(s.count, s.grain) + |s.pcs| - 1 - s.fetches
  }

  /** What is left of a dispatch: four steps for every fetch it may still make, and what the threads are in. */
  function Measure(s: State): int
    requires s.grain >= 1 && |s.pcs| == |s.observed|
  {
    4 * FetchesLeft(s) + Weights(s, |s.pcs|)
  }

  lemma {:induction false} WeightsElsewhere(s: State, s': State, i: nat, n: nat)
    requires n <= |s.pcs| == |s.observed| == |s'.pcs| == |s'.observed|
    requires forall j: nat | j < n && j != i :: Weight(s', j) == Weight(s, j)
    ensures i >= n ==> Weights(s', n) == Weights(s, n)
    ensures i < n ==> Weights(s', n) - Weights(s, n) == Weight(s', i) - Weight(s, i)
  {
    if n > 0 { WeightsElsewhere(s, s', i, n - 1); }
  }

  lemma {:induction false} WeightsBound(s: State, n: nat)
    requires n <= |s.pcs| == |s.observed|
    ensures Weights(s, n) <= 4 * n
  {
    if n > 0 { WeightsBound(s, n - 1); }
  }

  /** The thread an action belongs to. */
  function ThreadOf(a: Action): nat {
    match a
    case Wake(i) => i
    case TakeGeneration(i) => i
    case LoadCursor(i) => i
    case FetchAdd(i) => i
    case EndCall(i) => i
    case AddTask(i) => i
    case Leave(i) => i
    case Exit(i) => i
    case _ => 0
  }

  /** A fetch uses one of the fetches left, which is worth four, and adds at most three; any other step makes its thread
      lighter. */
  lemma StepLowers(s: State, a: Action)
    requires Invariant(s) && InExecute(s) && Enabled(s, a) && !a.Return?
    ensures |s.pcs| == |s.observed| && s.grain >= 1
    ensures var s' := Apply(s, a);
      |s'.pcs| == |s'.observed| && s'.grain >= 1 && Measure(s') < Measure(s)
  {
    hide Claimed, Cursor, Tallied, Chunks;
    assert s.grain >= 1 by { GrainKnown(s); }
    assert !s.stopping by { StillOpen(s); }
    var s', i := Apply(s, a), ThreadOf(a);
    assert forall j: nat | j < |s.pcs| && j != i :: Weight(s', j) == Weight(s, j);
    WeightsElsewhere(s, s', i, |s.pcs|);
  }

  lemma GrainKnown(s: State)
    requires Invariant(s) && InExecute(s)
    ensures s.grain >= 1 && FetchesLeft(s) >= 0
  {
  }

  /** Inside `execute` some thread can always take a step; when nothing else is left it is the return. */
  lemma SomethingMoves(s: State) returns (a: Action)
    requires Invariant(s) && InExecute(s)
    ensures Enabled(s, a) && !a.Dispatch? && !a.Stop?
  {
    hide Claimed, Cursor, Tallied;
    match s.pcs[0] {
      case Load => a := LoadCursor(0);
      case Fetch => a := FetchAdd(0);
      case Call(_) => a := EndCall(0);
      case Tally => a := AddTask(0);
      case Finish =>
        if s.remaining == 0 {
          a := Return;
        } else {
          assert Owing(s) != {};
          var i :| i in Owing(s);
          a := match s.pcs[i]
            case Idle => Wake(i)
            case Observe => TakeGeneration(i)
            case Load => LoadCursor(i)
            case Fetch => FetchAdd(i)
            case Call(_) => EndCall(i)
            case Tally => AddTask(i)
            case Finish => Leave(i);
        }
    }
  }

  /** While the caller is inside `execute`, some step can be taken: the pool never stalls. */
  lemma NeverStalls(workers: nat, run: seq<State>, actions: seq<Action>, k: nat) returns (a: Action)
    requires IsRun(run, actions) && run[0] == Init(workers) && Roomy(workers, actions)
    requires k <= |actions| && InExecute(run[k])
    ensures Enabled(run[k], a) && !a.Dispatch? && !a.Stop?
  {
    RunKeeps(workers, run, actions, k);
    a := SomethingMoves(run[k]);
  }

  /** The most steps a dispatch can take before its return. */
  function Budget(count: nat, grain: nat, workers: nat): nat
    requires grain >= 1
  {
    4 * Chunks(count, grain) + 8 * workers + 4
  }

  lemma DispatchStarts(s: State, a: Action)
    requires Invariant(s) && Enabled(s, a) && a.Dispatch?
    ensures var s' := Apply(s, a);
      && InExecute(s') && s'.count == a.count && s'.grain == a.grain >= 1 && |s'.pcs| == |s'.observed| == |s.pcs|
      && Measure(s') <= Budget(a.count, a.grain, |s.pcs| - 1)
  {
    hide Quiet, Tracked, Claimed, Cursor, Tallied, Chunks;
    WeightsBound(Apply(s, a), |s.pcs|);
  }

  lemma JobKept(s: State, a: Action)
    requires Invariant(s) && InExecute(s) && Enabled(s, a) && !a.Return?
    ensures var s' := Apply(s, a);
      InExecute(s') && s'.count == s.count && s'.grain == s.grain && |s'.pcs| == |s.pcs|
  {
    hide Claimed, Cursor, Tallied;
    StillOpen(s);
    StaysBusy(s, a);
  }

  /** As long as a dispatch has not returned, each of its steps has lowered the measure. */
  lemma {:induction false} MeasureFalls(workers: nat, run: seq<State>, actions: seq<Action>, k: nat, j: nat)
    requires IsRun(run, actions) && run[0] == Init(workers) && Roomy(workers, actions)
    requires k < j <= |actions| && actions[k].Dispatch?
    requires forall i | k < i < j :: !actions[i].Return?
    ensures Invariant(run[j]) && InExecute(run[j]) && |run[j].pcs| == |run[j].observed| == workers + 1
    ensures run[j].grain == actions[k].grain >= 1 && run[j].count == actions[k].count
    ensures 0 <= Measure(run[j]) <= Budget(actions[k].count, actions[k].grain, workers) - (j - k - 1)
    decreases j
  {
    hide Invariant, Apply, Enabled, Measure, Budget, InExecute, Roomy;
    RunKeeps(workers, run, actions, j);
    RunKeeps(workers, run, actions, j - 1);
    assert run[j] == Apply(run[j - 1], actions[j - 1]) && Enabled(run[j - 1], actions[j - 1]) by {
      assert run[j - 1 + 1] == Apply(run[j - 1], actions[j - 1]);
    }
    if j == k + 1 {
      DispatchStarts(run[k], actions[k]);
    } else {
      MeasureFalls(workers, run, actions, k, j - 1);
      StepLowers(run[j - 1], actions[j - 1]);
      JobKept(run[j - 1], actions[j - 1]);
    }
    MeasureKnown(run[j]);
  }

  lemma MeasureKnown(s: State)
    requires Invariant(s) && InExecute(s)
    ensures |s.pcs| == |s.observed| && s.grain >= 1 && Measure(s) >= 0
  {
    hide Quiet, Tracked, Claimed, Tallied, Chunks;
    GrainKnown(s);
  }

  /** Under every schedule `execute` returns: a dispatch of `n` chunks takes at most `4 n + 8 workers + 5` steps. */
  lemma ExecuteReturns(workers: nat, run: seq<State>, actions: seq<Action>, k: nat)
    requires IsRun(run, actions) && run[0] == Init(workers) && Roomy(workers, actions)
    requires k < |actions| && actions[k].Dispatch?
    ensures actions[k].grain >= 1
    ensures var last := k + 1 + Budget(actions[k].count, actions[k].grain, workers);
      |actions| > last ==> exists j :: k < j <= last && actions[j] == Return
  {
    assert Enabled(run[k], actions[k]);
    var last := k + 1 + Budget(actions[k].count, actions[k].grain, workers);
    if |actions| > last && forall i | k < i <= last :: actions[i] != Return {
      MeasureFalls(workers, run, actions, k, last + 1);
    }
  }

  // ----- shutdown -----

  /** The workers that have not left their threads yet. */
  ghost function Staying(s: State): set<nat> { set i: nat | 1 <= i < |s.pcs| && !s.pcs[i].Exited? }

  /** Once the pool is stopped nothing happens but workers leaving. */
  lemma OnlyExits(s: State, a: Action)
    requires Invariant(s) && s.stopping && s.pcs[0].Idle? && Enabled(s, a)
    ensures a.Exit? && a.thread in Staying(s)
    ensures var s' := Apply(s, a);
      |s'.pcs| == |s.pcs| && s'.stopping && s'.pcs[0].Idle? && Staying(s') == Staying(s) - {a.thread}
  {
  }

  lemma {:induction false} StoppedKeeps(workers: nat, run: seq<State>, actions: seq<Action>, k: nat, m: nat)
    requires IsRun(run, actions) && run[0] == Init(workers) && Roomy(workers, actions)
    requires k < m <= |actions| && actions[k].Stop?
    ensures Invariant(run[m]) && |run[m].pcs| == workers + 1 && run[m].stopping && run[m].pcs[0].Idle?
    ensures |Staying(run[m])| <= workers - (m - k - 1)
    decreases m
  {
    hide Invariant, Staying;
    RunKeeps(workers, run, actions, m);
    RunKeeps(workers, run, actions, m - 1);
    assert Enabled(run[m - 1], actions[m - 1]) && run[m - 1 + 1] == Apply(run[m - 1], actions[m - 1]);
    if m == k + 1 {
      StayingBound(run[m]);
    } else {
      StoppedKeeps(workers, run, actions, k, m - 1);
      OnlyExits(run[m - 1], actions[m - 1]);
      AddOne(Staying(run[m - 1]), actions[m - 1].thread);
    }
  }

  lemma StayingBound(s: State)
    requires 1 <= |s.pcs|
    ensures |Staying(s)| <= |s.pcs| - 1
  {
    var all := Workers(|s.pcs|);
    assert Staying(s) <= all;
    SubsetBound(Staying(s), all);
  }

  /** After the pool is stopped every worker that is still there can leave, nothing else can happen, and after at
      most as many steps as there are workers all of them have left: joining them returns. */
  lemma ShutdownEnds(workers: nat, run: seq<State>, actions: seq<Action>, k: nat, m: nat)
    requires IsRun(run, actions) && run[0] == Init(workers) && Roomy(workers, actions)
    requires k < m <= |actions| && actions[k].Stop?
    ensures m <= k + 1 + workers && |run[m].pcs| == workers + 1
    ensures forall i | 1 <= i <= workers && !run[m].pcs[i].Exited? :: Enabled(run[m], Exit(i))
    ensures m == k + 1 + workers ==> forall i | 1 <= i <= workers :: run[m].pcs[i].Exited?
  {
    StoppedKeeps(workers, run, actions, k, m);
    if m == k + 1 + workers {
      assert Staying(run[m]) == {};
      forall i | 1 <= i <= workers ensures run[m].pcs[i].Exited? {
        assert i !in Staying(run[m]);
      }
    }
  }
}
