/** The persistent worker pool as a step relation: one program counter per thread, shared fields, and every
    interleaving of their steps. Thread 0 is the caller, threads 1.. are the workers. */
module TaskExecutor {
  import opened Sequences

  /** Values of `std::size_t` and of the generation counter. */
  const LIMIT: nat := 0x1_0000_0000_0000_0000

  /** Where a thread stands. A worker is `Idle` while it waits for a job and `Finish` when its drain is over; the caller
      is `Idle` outside `execute` and `Finish` while it waits for the workers. */
  datatype Pc = Idle | Observe | Load | Fetch | Call(first: nat) | Tally | Finish | Exited

  /** `claims`, `finished`, `fetches` and `tasksBefore` record the current dispatch; the program does not read them. */
  datatype State = State(
    pcs: seq<Pc>, observed: seq<nat>,
    count: nat, grain: nat, next: nat, remaining: nat, generation: nat, stopping: bool, taskCount: nat,
    claims: seq<nat>, finished: set<nat>, fetches: nat, tasksBefore: nat)

  datatype Action =
    | Dispatch(count: nat, grain: nat)
    | Wake(thread: nat)
    | TakeGeneration(thread: nat)
    | LoadCursor(thread: nat)
    | FetchAdd(thread: nat)
    | EndCall(thread: nat)
    | AddTask(thread: nat)
    | Leave(thread: nat)
    | Return
    | Stop
    | Exit(thread: nat)

  predicate IsThread(s: State, i: nat) { i < |s.pcs| }

  predicate IsWorker(s: State, i: nat) { 1 <= i < |s.pcs| && i < |s.observed| }

  function Bump(generation: nat): nat { (generation + 1) % LIMIT }

  predicate Enabled(s: State, a: Action) {
    match a
    case Dispatch(count, grain) =>
      |s.pcs| >= 2 && s.pcs[0].Idle? && !s.stopping && 1 <= grain && count / grain >= 2 && count < LIMIT
    case Wake(i) => IsWorker(s, i) && s.pcs[i].Idle? && !s.stopping && s.observed[i] != s.generation
    case TakeGeneration(i) => IsWorker(s, i) && s.pcs[i].Observe?
    case LoadCursor(i) => IsThread(s, i) && s.pcs[i].Load?
    case FetchAdd(i) => IsThread(s, i) && s.pcs[i].Fetch?
    case EndCall(i) => IsThread(s, i) && s.pcs[i].Call?
    case AddTask(i) => IsThread(s, i) && s.pcs[i].Tally?
    case Leave(i) => IsWorker(s, i) && s.pcs[i].Finish?
    case Return => |s.pcs| >= 1 && s.pcs[0].Finish? && s.remaining == 0
    case Stop => |s.pcs| >= 1 && s.pcs[0].Idle? && !s.stopping
    case Exit(i) => IsWorker(s, i) && s.pcs[i].Idle? && s.stopping
  }

  /** One atomic step. Critical sections are one step each; atomics and the mutex are sequentially consistent. */
  function Apply(s: State, a: Action): State
    requires Enabled(s, a)
  {
    match a
    case Dispatch(count, grain) =>
      s.(pcs := s.pcs[0 := Load], count := count, grain := grain, next := 0, remaining := |s.pcs| - 1,
         generation := Bump(s.generation), claims := [], finished := {}, fetches := 0, tasksBefore := s.taskCount)
    case Wake(i) => s.(pcs := s.pcs[i := Observe])
    case TakeGeneration(i) => s.(pcs := s.pcs[i := Load], observed := s.observed[i := s.generation])
    case LoadCursor(i) => s.(pcs := s.pcs[i := if s.next < s.count then Fetch else Finish])
    case FetchAdd(i) =>
      var first := s.next;
      var s' := s.(next := (s.next + s.grain) % LIMIT, fetches := s.fetches + 1);
      if first < s.count then s'.(pcs := s.pcs[i := Call(first)], claims := s.claims + [first])
      else s'.(pcs := s.pcs[i := Load])
    case EndCall(i) => s.(pcs := s.pcs[i := Tally], finished := s.finished + {s.pcs[i].first})
    case AddTask(i) => s.(pcs := s.pcs[i := Load], taskCount := s.taskCount + 1)
    case Leave(i) => s.(pcs := s.pcs[i := Idle], remaining := if s.remaining == 0 then LIMIT - 1 else s.remaining - 1)
    case Return => s.(pcs := s.pcs[0 := Idle])
    case Stop => s.(stopping := true, generation := Bump(s.generation))
    case Exit(i) => s.(pcs := s.pcs[i := Exited])
  }

  function Init(workers: nat): State {
    State(seq(workers + 1, _ => Idle), seq(workers + 1, _ => 0), 0, 1, 0, 0, 0, false, 0, [], {}, 0, 0)
  }

  // ----- chunk arithmetic -----

  /** How many chunks of `grain` cover `[0, count)`. */
  function Chunks(count: nat, grain: nat): nat
    requires grain >= 1
  {
    (count + grain - 1) / grain
  }

  lemma ChunkStarts(count: nat, grain: nat, j: nat)
    requires grain >= 1
    ensures j < Chunks(count, grain) <==> j * grain < count
  {
    var k := Chunks(count, grain);
    assert k * grain <= count + grain - 1 < (k + 1) * grain;
    if j < k {
      MulMonotone(j + 1, k, grain);
    } else {
      MulMonotone(k, j, grain);
    }
  }

  lemma MulMonotone(a: nat, b: nat, g: nat)
    requires a <= b
    ensures a * g <= b * g
  {
  }

  /** The largest value the cursor ever takes still fits, so the unchecked addition never wraps. */
  predicate Headroom(count: nat, grain: nat, workers: nat)
    requires grain >= 1
  {
    (Chunks(count, grain) + workers) * grain < LIMIT
  }

  // ----- the invariant -----

  predicate Draining(pc: Pc) { pc.Load? || pc.Fetch? || pc.Call? || pc.Tally? || pc.Finish? }

  ghost function Fetching(s: State): set<nat> { set i: nat | i < |s.pcs| && s.pcs[i].Fetch? }

  ghost function Tallying(s: State): set<nat> { set i: nat | i < |s.pcs| && s.pcs[i].Tally? }

  /** The workers that have not yet finished with the current generation. */
  ghost function Owing(s: State): set<nat> {
    set i: nat | 1 <= i < |s.pcs| && i < |s.observed| &&
      (s.pcs[i].Observe? || Draining(s.pcs[i]) || (s.pcs[i].Idle? && s.observed[i] != s.generation))
  }

  ghost predicate Shaped(s: State) {
    && 1 <= |s.pcs| == |s.observed|
    && s.generation < LIMIT
    && !s.pcs[0].Observe? && !s.pcs[0].Exited?
  }

  /** Between calls of `execute` no worker is inside a job. */
  ghost predicate Quiet(s: State)
    requires Shaped(s)
  {
    forall i | 1 <= i < |s.pcs| ::
      (s.pcs[i].Idle? && (s.stopping || s.observed[i] == s.generation)) || (s.stopping && s.pcs[i].Exited?)
  }

  /** During a dispatch every worker is before, in, or after the current generation, and `remaining` counts the
      first two. */
  ghost predicate Tracked(s: State)
    requires Shaped(s)
  {
    && !s.stopping
    && s.remaining == |Owing(s)|
    && (forall i | 1 <= i < |s.pcs| :: !s.pcs[i].Exited?)
    && (forall i | 1 <= i < |s.pcs| && s.pcs[i].Observe? :: s.observed[i] != s.generation)
    && (forall i | 1 <= i < |s.pcs| && Draining(s.pcs[i]) :: s.observed[i] == s.generation)
  }

  /** Chunks are claimed in order, each once, and each claimed chunk is finished or in exactly one thread's hands. */
  ghost predicate Claimed(s: State) {
    && s.grain >= 1
    && (forall j | 0 <= j < |s.claims| :: s.claims[j] == j * s.grain && s.claims[j] < s.count)
    && (forall f | f in s.finished :: f in s.claims)
    && (forall i | 0 <= i < |s.pcs| && s.pcs[i].Call? :: s.pcs[i].first in s.claims && s.pcs[i].first !in s.finished)
    && (forall i, j | 0 <= i < j < |s.pcs| && s.pcs[i].Call? && s.pcs[j].Call? :: s.pcs[i].first != s.pcs[j].first)
    && (forall f | f in s.claims && f !in s.finished :: exists i :: 0 <= i < |s.pcs| && s.pcs[i] == Call(f))
  }

  /** The cursor counts fetches, and once it has passed the end only the threads already committed to a fetch move
      it. */
  ghost predicate Cursor(s: State)
    requires Shaped(s)
  {
    && s.grain >= 1 && s.count >= 1
    && Headroom(s.count, s.grain, |s.pcs| - 1)
    && s.next == s.fetches * s.grain
    && |s.claims| == (if s.fetches < Chunks(s.count, s.grain) then s.fetches else Chunks(s.count, s.grain))
    && (s.fetches < Chunks(s.count, s.grain)
        || s.fetches + |Fetching(s)| <= Chunks(s.count, s.grain) + |s.pcs| - 1)
    && (s.pcs[0].Finish? ==> s.fetches >= Chunks(s.count, s.grain))
  }

  /** Every finished chunk has been counted, or is about to be by the thread that ran it. */
  ghost predicate Tallied(s: State) {
    s.taskCount + |Tallying(s)| == s.tasksBefore + |s.finished|
  }

  ghost predicate Invariant(s: State) {
    && Shaped(s)
    && if s.pcs[0].Idle? then Quiet(s) else Tracked(s) && Claimed(s) && Cursor(s) && Tallied(s)
  }

  // ----- each step keeps it -----

  lemma AddOne<T>(a: set<T>, x: T)
    ensures |a + {x}| == |a| + if x in a then 0 else 1
    ensures |a - {x}| == |a| - if x in a then 1 else 0
  {
    if x in a {
      assert a + {x} == a;
      assert a == (a - {x}) + {x};
    } else {
      assert a - {x} == a;
    }
  }

  function Workers(n: nat): (w: set<nat>)
    ensures forall i :: i in w <==> 1 <= i < n
    ensures |w| == if n <= 1 then 0 else n - 1
  {
    if n <= 1 then {} else Workers(n - 1) + {n - 1}
  }

  lemma DispatchTracked(s: State, count: nat, grain: nat)
    requires Invariant(s) && Enabled(s, Dispatch(count, grain))
    ensures Shaped(Apply(s, Dispatch(count, grain))) && Tracked(Apply(s, Dispatch(count, grain)))
  {
    var s' := Apply(s, Dispatch(count, grain));
    assert Owing(s') == Workers(|s.pcs|);
  }

  /** A thread moving on inside its drain owes what it owed. */
  lemma MoveTracked(s: State, s': State, i: nat, pc: Pc)
    requires Shaped(s) && Tracked(s) && i < |s.pcs|
    requires Draining(s.pcs[i]) && Draining(pc) && s'.pcs == s.pcs[i := pc]
    requires s'.observed == s.observed && s'.generation == s.generation && s'.stopping == s.stopping
    requires s'.remaining == s.remaining
    ensures Shaped(s') && Tracked(s')
  {
    assert Owing(s') == Owing(s);
  }

  lemma WakeTracked(s: State, i: nat)
    requires Shaped(s) && Tracked(s) && (Enabled(s, Wake(i)) || Enabled(s, TakeGeneration(i)))
    ensures var s' := Apply(s, if s.pcs[i].Idle? then Wake(i) else TakeGeneration(i));
      Shaped(s') && Tracked(s')
  {
    assert Owing(Apply(s, if s.pcs[i].Idle? then Wake(i) else TakeGeneration(i))) == Owing(s);
  }

  lemma LeaveTracked(s: State, i: nat)
    requires Shaped(s) && Tracked(s) && Enabled(s, Leave(i))
    ensures var s' := Apply(s, Leave(i));
      Shaped(s') && Tracked(s') && s'.remaining == s.remaining - 1
  {
    assert Owing(Apply(s, Leave(i))) == Owing(s) - {i};
    AddOne(Owing(s), i);
  }

  lemma TrackedKept(s: State, a: Action)
    requires Shaped(s) && Tracked(s) && Enabled(s, a) && !s.pcs[0].Idle? && !a.Return?
    ensures Shaped(Apply(s, a)) && Tracked(Apply(s, a))
  {
    StillOpen(s);
    hide Tracked;
    var s' := Apply(s, a);
    match a
    case Leave(i) => LeaveTracked(s, i);
    case Wake(i) => WakeTracked(s, i);
    case TakeGeneration(i) => WakeTracked(s, i);
    case LoadCursor(i) => MoveTracked(s, s', i, s'.pcs[i]);
    case FetchAdd(i) => MoveTracked(s, s', i, s'.pcs[i]);
    case EndCall(i) => MoveTracked(s, s', i, s'.pcs[i]);
    case AddTask(i) => MoveTracked(s, s', i, s'.pcs[i]);
    case Exit(_) =>
    case Dispatch(_, _) =>
    case Stop =>
  }

  lemma StillOpen(s: State)
    requires Shaped(s) && Tracked(s)
    ensures !s.stopping
  {
  }

  // ----- claims -----

  /** A fetch inside the range claims the next chunk for the fetching thread. */
  lemma FetchClaimed(s: State, i: nat)
    requires Shaped(s) && Claimed(s) && Cursor(s) && Enabled(s, FetchAdd(i))
    ensures Claimed(Apply(s, FetchAdd(i)))
  {
    var s' := Apply(s, FetchAdd(i));
    if s.next < s.count {
      ChunkStarts(s.count, s.grain, s.fetches);
      assert |s.claims| == s.fetches;
      assert forall f | f in s.claims :: f != s.next by { ClaimsBelow(s); }
      assert s'.claims[|s.claims|] == s.next;
      forall f | f in s'.claims && f !in s'.finished ensures exists k :: 0 <= k < |s'.pcs| && s'.pcs[k] == Call(f) {
        if f == s.next {
          assert s'.pcs[i] == Call(f);
        } else {
          assert f in s.claims;
          var k :| 0 <= k < |s.pcs| && s.pcs[k] == Call(f);
          assert s'.pcs[k] == Call(f);
        }
      }
    } else {
      KeepCalls(s, s', i);
    }
  }

  lemma ClaimsBelow(s: State)
    requires Claimed(s) && |s.claims| <= s.fetches && s.next == s.fetches * s.grain
    ensures forall f | f in s.claims :: f < s.next
  {
    forall j | 0 <= j < |s.claims| ensures s.claims[j] < s.next {
      MulMonotone(j + 1, s.fetches, s.grain);
      assert (j + 1) * s.grain == j * s.grain + s.grain;
    }
  }

  /** A step that neither starts nor ends a call keeps the claims. */
  lemma KeepCalls(s: State, s': State, i: nat)
    requires Claimed(s) && i < |s.pcs| && !s.pcs[i].Call?
    requires |s'.pcs| == |s.pcs| && s'.pcs == s.pcs[i := s'.pcs[i]] && !s'.pcs[i].Call?
    requires s'.claims == s.claims && s'.finished == s.finished && s'.grain == s.grain && s'.count == s.count
    ensures Claimed(s')
  {
    forall f | f in s'.claims && f !in s'.finished ensures exists k :: 0 <= k < |s'.pcs| && s'.pcs[k] == Call(f) {
      var k :| 0 <= k < |s.pcs| && s.pcs[k] == Call(f);
      assert s'.pcs[k] == Call(f);
    }
  }

  lemma EndCallClaimed(s: State, i: nat)
    requires Claimed(s) && Enabled(s, EndCall(i))
    ensures Claimed(Apply(s, EndCall(i)))
  {
    var s' := Apply(s, EndCall(i));
    forall f | f in s'.claims && f !in s'.finished ensures exists k :: 0 <= k < |s'.pcs| && s'.pcs[k] == Call(f) {
      var k :| 0 <= k < |s.pcs| && s.pcs[k] == Call(f);
      assert s'.pcs[k] == Call(f);
    }
  }

  lemma ClaimedKept(s: State, a: Action)
    requires Shaped(s) && Tracked(s) && Claimed(s) && Cursor(s) && Enabled(s, a)
    requires !s.pcs[0].Idle? && !a.Return?
    ensures Claimed(Apply(s, a))
  {
    StillOpen(s);
    hide Tracked, Claimed, Cursor;
    var s' := Apply(s, a);
    match a
    case Leave(i) => KeepCalls(s, s', i);
    case Wake(i) => KeepCalls(s, s', i);
    case TakeGeneration(i) => KeepCalls(s, s', i);
    case LoadCursor(i) => KeepCalls(s, s', i);
    case FetchAdd(i) => FetchClaimed(s, i);
    case EndCall(i) => EndCallClaimed(s, i);
    case AddTask(i) => KeepCalls(s, s', i);
    case Exit(_) =>
    case Dispatch(_, _) =>
    case Stop =>
  }

  // ----- the cursor -----

  lemma SameCursor(s: State, s': State)
    requires Shaped(s) && Cursor(s) && Shaped(s') && |s'.pcs| == |s.pcs|
    requires Fetching(s') <= Fetching(s) && (s'.pcs[0].Finish? ==> s.pcs[0].Finish?)
    requires s'.next == s.next && s'.fetches == s.fetches && s'.grain == s.grain && s'.count == s.count
    requires s'.claims == s.claims
    ensures Cursor(s')
  {
    SubsetBound(Fetching(s'), Fetching(s));
  }

  lemma ThreadBound(s: State)
    requires Shaped(s)
    ensures |Fetching(s)| <= |s.pcs|
  {
    var all := Workers(|s.pcs|) + {0};
    assert |all| == |s.pcs|;
    SubsetBound(Fetching(s), all);
  }

  lemma LoadCursorKept(s: State, i: nat)
    requires Shaped(s) && Cursor(s) && Enabled(s, LoadCursor(i))
    ensures Cursor(Apply(s, LoadCursor(i)))
  {
    var s' := Apply(s, LoadCursor(i));
    ChunkStarts(s.count, s.grain, s.fetches);
    if s.next >= s.count {
      assert Fetching(s') == Fetching(s);
    }
  }

  /** A fetch never wraps the cursor. */
  lemma FetchAddKept(s: State, i: nat)
    requires Shaped(s) && Cursor(s) && Enabled(s, FetchAdd(i))
    ensures Cursor(Apply(s, FetchAdd(i)))
    ensures s.next + s.grain < LIMIT
  {
    var s' := Apply(s, FetchAdd(i));
    ThreadBound(s);
    assert Fetching(s') == Fetching(s) - {i};
    AddOne(Fetching(s), i);
    ChunkStarts(s.count, s.grain, s.fetches);
    OneMoreFits(s.fetches, s.count, s.grain, |s.pcs| - 1);
    hide Headroom, Chunks;
  }

  lemma OneMoreFits(fetches: nat, count: nat, grain: nat, workers: nat)
    requires grain >= 1 && Headroom(count, grain, workers)
    requires fetches < Chunks(count, grain) + workers
    ensures (fetches + 1) * grain == fetches * grain + grain < LIMIT
  {
    MulMonotone(fetches + 1, Chunks(count, grain) + workers, grain);
  }

  /** In plain numbers: the cursor stays at or below `count - 1 + (workers + 1) * grain`. */
  lemma CursorBound(fetches: nat, count: nat, grain: nat, workers: nat)
    requires grain >= 1 && count >= 1
    requires fetches <= Chunks(count, grain) + workers
    ensures fetches * grain <= count - 1 + (workers + 1) * grain
  {
    var chunks := Chunks(count, grain);
    MulMonotone(fetches, chunks + workers, grain);
    assert chunks * grain <= count + grain - 1;
    assert (chunks + workers) * grain == chunks * grain + workers * grain;
    assert (workers + 1) * grain == workers * grain + grain;
  }

  lemma CursorKept(s: State, a: Action)
    requires Shaped(s) && Tracked(s) && Cursor(s) && Enabled(s, a)
    requires !s.pcs[0].Idle? && !a.Return? && Shaped(Apply(s, a))
    ensures Cursor(Apply(s, a))
  {
    StillOpen(s);
    hide Tracked, Cursor;
    var s' := Apply(s, a);
    match a
    case Leave(i) => SameCursor(s, s');
    case Wake(i) => SameCursor(s, s');
    case TakeGeneration(i) => SameCursor(s, s');
    case LoadCursor(i) => LoadCursorKept(s, i);
    case FetchAdd(i) => FetchAddKept(s, i);
    case EndCall(i) => SameCursor(s, s');
    case AddTask(i) => SameCursor(s, s');
    case Exit(_) =>
    case Dispatch(_, _) =>
    case Stop =>
  }

  // ----- the statistics -----

  lemma SameTally(s: State, s': State, i: nat)
    requires Tallied(s) && i < |s.pcs| && !s.pcs[i].Tally?
    requires |s'.pcs| == |s.pcs| && s'.pcs == s.pcs[i := s'.pcs[i]] && !s'.pcs[i].Tally?
    requires s'.taskCount == s.taskCount && s'.tasksBefore == s.tasksBefore && s'.finished == s.finished
    ensures Tallied(s')
  {
    assert Tallying(s') == Tallying(s);
  }

  lemma EndCallTallied(s: State, i: nat)
    requires Claimed(s) && Tallied(s) && Enabled(s, EndCall(i))
    ensures Tallied(Apply(s, EndCall(i)))
  {
    assert Tallying(Apply(s, EndCall(i))) == Tallying(s) + {i};
    AddOne(Tallying(s), i);
    AddOne(s.finished, s.pcs[i].first);
  }

  lemma AddTaskTallied(s: State, i: nat)
    requires Tallied(s) && Enabled(s, AddTask(i))
    ensures Tallied(Apply(s, AddTask(i)))
  {
    assert Tallying(Apply(s, AddTask(i))) == Tallying(s) - {i};
    AddOne(Tallying(s), i);
  }

  lemma TalliedKept(s: State, a: Action)
    requires Shaped(s) && Tracked(s) && Claimed(s) && Tallied(s) && Enabled(s, a)
    requires !s.pcs[0].Idle? && !a.Return?
    ensures Tallied(Apply(s, a))
  {
    StillOpen(s);
    hide Tracked, Claimed, Tallied;
    var s' := Apply(s, a);
    match a
    case EndCall(i) => EndCallTallied(s, i);
    case AddTask(i) => AddTaskTallied(s, i);
    case Wake(i) => SameTally(s, s', i);
    case TakeGeneration(i) => SameTally(s, s', i);
    case LoadCursor(i) => SameTally(s, s', i);
    case FetchAdd(i) => SameTally(s, s', i);
    case Leave(i) => SameTally(s, s', i);
    case Exit(_) =>
    case Dispatch(_, _) =>
    case Stop =>
  }

  // ----- dispatch, return, stop -----

  /** A dispatch finds every worker outside the previous job, so nobody reads the fields it writes. */
  lemma DispatchFindsQuiet(s: State, count: nat, grain: nat)
    requires Invariant(s) && Enabled(s, Dispatch(count, grain))
    ensures forall i | 1 <= i < |s.pcs| :: s.pcs[i].Idle? && s.observed[i] == s.generation
  {
  }

  lemma DispatchKept(s: State, count: nat, grain: nat)
    requires Invariant(s) && Enabled(s, Dispatch(count, grain)) && Headroom(count, grain, |s.pcs| - 1)
    ensures Invariant(Apply(s, Dispatch(count, grain)))
  {
    var s' := Apply(s, Dispatch(count, grain));
    DispatchTracked(s, count, grain);
    ChunkStarts(count, grain, 0);
    assert Fetching(s') == {} && Tallying(s') == {};
  }

  /** What holds when `execute` returns: all workers have left the job and every chunk of `[0, count)` has run. */
  ghost predicate Complete(s: State) {
    && s.grain >= 1
    && (forall i | 1 <= i < |s.pcs| :: !Draining(s.pcs[i]) && !s.pcs[i].Observe?)
    && |s.claims| == Chunks(s.count, s.grain)
    && (forall j | 0 <= j < |s.claims| :: s.claims[j] == j * s.grain)
    && s.finished == Elements(s.claims)
    && s.taskCount == s.tasksBefore + Chunks(s.count, s.grain)
  }

  lemma NobodyOwes(s: State)
    requires Shaped(s) && Tracked(s) && s.remaining == 0
    ensures forall i | 1 <= i < |s.pcs| :: s.pcs[i].Idle? && s.observed[i] == s.generation
  {
    assert Owing(s) == {};
    forall i | 1 <= i < |s.pcs| ensures s.pcs[i].Idle? && s.observed[i] == s.generation {
      assert i !in Owing(s);
    }
  }

  lemma AllFinished(s: State)
    requires Shaped(s) && Claimed(s) && forall i | 0 <= i < |s.pcs| :: !s.pcs[i].Call?
    ensures s.finished == Elements(s.claims)
    ensures |s.finished| == |s.claims|
  {
    forall f | f in s.claims ensures f in s.finished {
    }
    ClaimsDistinct(s.claims, s.grain);
    DistinctCardinality(s.claims);
  }

  lemma ClaimsDistinct(claims: seq<nat>, grain: nat)
    requires grain >= 1 && forall j | 0 <= j < |claims| :: claims[j] == j * grain
    ensures Distinct(claims)
  {
    forall i, j | 0 <= i < j < |claims| ensures claims[i] != claims[j] {
      MulMonotone(i + 1, j, grain);
      assert (i + 1) * grain == i * grain + grain;
    }
  }

  lemma ReturnKept(s: State)
    requires Invariant(s) && Enabled(s, Return)
    ensures Invariant(Apply(s, Return)) && Complete(s)
  {
    NobodyOwes(s);
    AllFinished(s);
    assert Tallying(s) == {};
  }

  /** Outside `execute` a worker can only leave for good, after a stop. */
  lemma QuietKept(s: State, a: Action)
    requires Shaped(s) && s.pcs[0].Idle? && Quiet(s) && Enabled(s, a) && !a.Dispatch?
    ensures a.Stop? || a.Exit?
    ensures Shaped(Apply(s, a)) && Apply(s, a).pcs[0].Idle? && Quiet(Apply(s, a))
  {
  }

  lemma BusyKept(s: State, a: Action)
    requires Shaped(s) && Tracked(s) && Claimed(s) && Cursor(s) && Tallied(s)
    requires Enabled(s, a) && !s.pcs[0].Idle? && !a.Return?
    ensures Invariant(Apply(s, a))
  {
    hide Tracked, Claimed, Cursor, Tallied;
    TrackedKept(s, a);
    ClaimedKept(s, a);
    CursorKept(s, a);
    TalliedKept(s, a);
    StaysBusy(s, a);
  }

  lemma StaysBusy(s: State, a: Action)
    requires Shaped(s) && Enabled(s, a) && !s.pcs[0].Idle? && !a.Return?
    ensures !Apply(s, a).pcs[0].Idle?
  {
  }

  lemma StepKeeps(s: State, a: Action)
    requires Invariant(s) && Enabled(s, a)
    requires a.Dispatch? ==> Headroom(a.count, a.grain, |s.pcs| - 1)
    ensures Invariant(Apply(s, a))
  {
    hide Quiet, Tracked, Claimed, Cursor, Tallied;
    if a.Dispatch? {
      DispatchKept(s, a.count, a.grain);
    } else if s.pcs[0].Idle? {
      QuietKept(s, a);
    } else if a.Return? {
      ReturnKept(s);
    } else {
      BusyKept(s, a);
    }
  }

  // ----- runs -----

  ghost predicate IsRun(run: seq<State>, actions: seq<Action>) {
    && |run| == |actions| + 1
    && forall k | 0 <= k < |actions| :: Enabled(run[k], actions[k]) && run[k + 1] == Apply(run[k], actions[k])
  }

  /** Every dispatch of the run leaves the cursor room. */
  ghost predicate Roomy(workers: nat, actions: seq<Action>) {
    forall k | 0 <= k < |actions| && actions[k].Dispatch? ::
      actions[k].grain >= 1 && Headroom(actions[k].count, actions[k].grain, workers)
  }

  lemma {:induction false} RunKeeps(workers: nat, run: seq<State>, actions: seq<Action>, k: nat)
    requires IsRun(run, actions) && run[0] == Init(workers) && Roomy(workers, actions)
    requires k <= |actions|
    ensures Invariant(run[k]) && |run[k].pcs| == workers + 1
  {
    if k > 0 {
      RunKeeps(workers, run, actions, k - 1);
      assert run[k - 1 + 1] == Apply(run[k - 1], actions[k - 1]);
      StepKeeps(run[k - 1], actions[k - 1]);
    }
  }

  /** A chunk of the callback: `[first, last)`. */
  ghost predicate InChunk(x: nat, first: nat, count: nat, grain: nat) {
    first <= x && x < first + grain && x < count
  }

  /** Exactly one claimed chunk contains `x`. */
  ghost predicate RunsOnce(s: State, x: nat) {
    && (exists j :: 0 <= j < |s.claims| && InChunk(x, s.claims[j], s.count, s.grain))
    && (forall j, k | 0 <= j < |s.claims| && 0 <= k < |s.claims|
          && InChunk(x, s.claims[j], s.count, s.grain) && InChunk(x, s.claims[k], s.count, s.grain) :: j == k)
  }

  lemma CompleteCovers(s: State, x: nat)
    requires Complete(s) && x < s.count
    ensures RunsOnce(s, x)
  {
    var j := x / s.grain;
    assert j * s.grain <= x < j * s.grain + s.grain;
    ChunkStarts(s.count, s.grain, j);
    assert InChunk(x, s.claims[j], s.count, s.grain);
    forall k | 0 <= k < |s.claims| && InChunk(x, s.claims[k], s.count, s.grain) ensures k == j {
      SameChunk(x, j, k, s.grain);
    }
  }

  lemma SameChunk(x: nat, j: nat, k: nat, g: nat)
    requires j * g <= x < j * g + g && k * g <= x < k * g + g
    ensures j == k
  {
    if j < k { ChunksApart(j, k, g); }
    if k < j { ChunksApart(k, j, g); }
  }

  lemma ChunksApart(j: nat, k: nat, g: nat)
    requires j < k
    ensures j * g + g <= k * g
  {
    MulMonotone(j + 1, k, g);
    assert (j + 1) * g == j * g + g;
  }

  /** In every interleaving, whenever `execute` returns: no worker is in the job, each index of `[0, count)` has been
      handed to the callback exactly once and that call is over, and one task has been counted per chunk. */
  lemma ExecuteIsExact(workers: nat, run: seq<State>, actions: seq<Action>, k: nat)
    requires IsRun(run, actions) && run[0] == Init(workers) && Roomy(workers, actions)
    requires k < |actions| && actions[k] == Return
    ensures Complete(run[k])
    ensures forall x: nat | x < run[k].count :: RunsOnce(run[k], x)
  {
    RunKeeps(workers, run, actions, k);
    ReturnKept(run[k]);
    forall x: nat | x < run[k].count ensures RunsOnce(run[k], x) {
      CompleteCovers(run[k], x);
    }
  }

  ghost predicate InExecute(s: State) { |s.pcs| >= 1 && !s.pcs[0].Idle? }

  /** At every moment of a dispatch no two threads run the same chunk, and the cursor stays within its bound. */
  lemma DispatchIsSafe(workers: nat, run: seq<State>, actions: seq<Action>, k: nat)
    requires IsRun(run, actions) && run[0] == Init(workers) && Roomy(workers, actions)
    requires k <= |actions| && InExecute(run[k])
    ensures var s := run[k];
      && (forall i, j | 0 <= i < j < |s.pcs| && s.pcs[i].Call? && s.pcs[j].Call? :: s.pcs[i].first != s.pcs[j].first)
      && (forall i | 0 <= i < |s.pcs| && s.pcs[i].Call? :: s.pcs[i].first !in s.finished)
      && s.next == s.fetches * s.grain <= s.count - 1 + (workers + 1) * s.grain
  {
    RunKeeps(workers, run, actions, k);
    var s := run[k];
    ChunkStarts(s.count, s.grain, 0);
    CursorBound(s.fetches, s.count, s.grain, workers);
  }
}
