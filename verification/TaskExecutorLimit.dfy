/** The headroom condition of the executor is exact: without it some interleaving hands an index out twice. */
module TaskExecutorLimits {
  import opened TaskExecutor

  /** `actions` lead from `s` to `t`. */
  ghost predicate Leads(s: State, actions: seq<Action>, t: State)
    decreases |actions|
  {
    if actions == [] then s == t
    else Enabled(s, actions[0]) && Leads(Apply(s, actions[0]), actions[1..], t)
  }

  lemma {:induction false} LeadsOn(s: State, a: seq<Action>, t: State, b: seq<Action>, u: State)
    requires Leads(s, a, t) && Leads(t, b, u)
    ensures Leads(s, a + b, u)
    decreases |a|
  {
    hide Enabled, Apply;
    if a == [] {
      assert a + b == b;
    } else {
      assert (a + b)[1..] == a[1..] + b;
      LeadsOn(Apply(s, a[0]), a[1..], t, b, u);
    }
  }

  lemma LeadsStep(s: State, actions: seq<Action>, t: State, a: Action)
    requires Leads(s, actions, t) && Enabled(t, a)
    ensures Leads(s, actions + [a], Apply(t, a))
  {
    hide Enabled, Apply;
    assert [a][1..] == [];
    LeadsOn(s, actions, t, [a], Apply(t, a));
  }

  lemma {:induction false} LeadsRun(s: State, actions: seq<Action>, t: State) returns (run: seq<State>)
    requires Leads(s, actions, t)
    ensures IsRun(run, actions) && run[0] == s && run[|actions|] == t
    decreases |actions|
  {
    hide Enabled, Apply;
    if actions == [] {
      run := [s];
    } else {
      var rest := LeadsRun(Apply(s, actions[0]), actions[1..], t);
      run := [s] + rest;
      forall i | 0 <= i < |actions| ensures Enabled(run[i], actions[i]) && run[i + 1] == Apply(run[i], actions[i]) {
        if i > 0 {
          assert actions[i] == actions[1..][i - 1] && run[i] == rest[i - 1] && run[i + 1] == rest[i];
        }
      }
    }
  }

  /** No action but the first dispatches. */
  ghost predicate OneDispatch(actions: seq<Action>) {
    forall k | 0 < k < |actions| :: !actions[k].Dispatch?
  }

  // ----- the schedule -----

  /** Workers 1 to `k` are about to fetch, the others are still asleep, the caller is between chunks, and `m` chunks
      have been claimed. */
  ghost predicate Parked(s: State, workers: nat, count: nat, grain: nat, k: nat, m: nat) {
    && |s.pcs| == |s.observed| == workers + 1 && s.count == count && s.grain == grain && grain >= 1 && !s.stopping
    && s.generation == 1 && s.pcs[0].Load? && k <= workers
    && (forall i | 1 <= i <= k :: s.pcs[i].Fetch?)
    && (forall i | k < i <= workers :: s.pcs[i].Idle? && s.observed[i] == 0)
    && s.next == m * grain && |s.claims| == m && (m > 0 ==> s.claims[0] == 0)
  }

  lemma Dispatched(workers: nat, count: nat, grain: nat) returns (t: State)
    requires workers >= 1 && grain >= 1 && count / grain >= 2 && count < LIMIT
    ensures Leads(Init(workers), [Dispatch(count, grain)], t) && Parked(t, workers, count, grain, 0, 0)
  {
    var s := Init(workers);
    t := Apply(s, Dispatch(count, grain));
    assert [Dispatch(count, grain)][1..] == [];
  }

  /** Worker `k + 1` wakes up, observes the job, loads the cursor and is held before its fetch. */
  lemma ParkOne(s: State, actions: seq<Action>, t: State, workers: nat, count: nat, grain: nat, k: nat)
    returns (more: seq<Action>, u: State)
    requires Leads(s, actions, t) && OneDispatch(actions) && actions != [] && Parked(t, workers, count, grain, k, 0)
    requires k < workers && 0 < count
    ensures Leads(s, more, u) && OneDispatch(more) && actions <= more && Parked(u, workers, count, grain, k + 1, 0)
  {
    var i := k + 1;
    var t1 := Apply(t, Wake(i));
    LeadsStep(s, actions, t, Wake(i));
    var t2 := Apply(t1, TakeGeneration(i));
    LeadsStep(s, actions + [Wake(i)], t1, TakeGeneration(i));
    u := Apply(t2, LoadCursor(i));
    LeadsStep(s, actions + [Wake(i)] + [TakeGeneration(i)], t2, LoadCursor(i));
    more := actions + [Wake(i)] + [TakeGeneration(i)] + [LoadCursor(i)];
    hide Leads;
  }

  lemma {:induction false} ParkAll(workers: nat, count: nat, grain: nat, k: nat)
    returns (actions: seq<Action>, t: State)
    requires workers >= 1 && grain >= 1 && count / grain >= 2 && count < LIMIT && k <= workers
    ensures Leads(Init(workers), actions, t) && OneDispatch(actions) && actions != [] &&
          actions[0] == Dispatch(count, grain)
    ensures Parked(t, workers, count, grain, k, 0)
  {
    hide Leads, Parked;
    if k == 0 {
      t := Dispatched(workers, count, grain);
      actions := [Dispatch(count, grain)];
    } else {
      var front, s := ParkAll(workers, count, grain, k - 1);
      actions, t := ParkOne(Init(workers), front, s, workers, count, grain, k - 1);
    }
  }

  /** With the cursor short of the end, the caller loads it, fetches and enters the chunk it got. */
  lemma EntersChunk(t: State)
    requires |t.pcs| >= 1 && t.pcs[0].Load? && t.next < t.count
    ensures Enabled(t, LoadCursor(0)) && Enabled(Apply(t, LoadCursor(0)), FetchAdd(0))
    ensures Apply(Apply(t, LoadCursor(0)), FetchAdd(0)) ==
            t.(pcs := t.pcs[0 := Call(t.next)], next := (t.next + t.grain) % LIMIT,
               claims := t.claims + [t.next], fetches := t.fetches + 1)
  {
    var t1 := Apply(t, LoadCursor(0));
    assert t1.pcs[0 := Call(t.next)] == t.pcs[0 := Call(t.next)];
  }

  lemma ClaimOne(s: State, actions: seq<Action>, t: State) returns (more: seq<Action>, u: State)
    requires Leads(s, actions, t) && OneDispatch(actions) && actions != []
    requires |t.pcs| >= 1 && t.pcs[0].Load? && t.next < t.count
    ensures Leads(s, more, u) && OneDispatch(more) && actions <= more
    ensures u == t.(pcs := t.pcs[0 := Call(t.next)], next := (t.next + t.grain) % LIMIT,
                    claims := t.claims + [t.next], fetches := t.fetches + 1)
  {
    hide Leads, Enabled, Apply;
    EntersChunk(t);
    var t1 := Apply(t, LoadCursor(0));
    LeadsStep(s, actions, t, LoadCursor(0));
    u := Apply(t1, FetchAdd(0));
    LeadsStep(s, actions + [LoadCursor(0)], t1, FetchAdd(0));
    more := actions + [LoadCursor(0)] + [FetchAdd(0)];
  }

  /** The caller leaves the callback and counts the task. */
  lemma FinishOne(s: State, actions: seq<Action>, t: State) returns (more: seq<Action>, u: State)
    requires Leads(s, actions, t) && OneDispatch(actions) && actions != [] && |t.pcs| >= 1 && t.pcs[0].Call?
    ensures Leads(s, more, u) && OneDispatch(more) && actions <= more
    ensures u == t.(pcs := t.pcs[0 := Load], finished := t.finished + {t.pcs[0].first}, taskCount := t.taskCount + 1)
  {
    var t1 := Apply(t, EndCall(0));
    LeadsStep(s, actions, t, EndCall(0));
    u := Apply(t1, AddTask(0));
    LeadsStep(s, actions + [EndCall(0)], t1, AddTask(0));
    more := actions + [EndCall(0)] + [AddTask(0)];
    assert t1.pcs[0 := Load] == t.pcs[0 := Load];
    hide Leads;
  }

  /** The caller runs the first `m` chunks alone. */
  lemma {:induction false} RunChunks(workers: nat, count: nat, grain: nat, k: nat, m: nat)
    returns (actions: seq<Action>, t: State)
    requires workers >= 1 && grain >= 1 && count / grain >= 2 && count < LIMIT && k <= workers
    requires m < Chunks(count, grain)
    ensures Leads(Init(workers), actions, t) && OneDispatch(actions) && actions != [] &&
          actions[0] == Dispatch(count, grain)
    ensures Parked(t, workers, count, grain, k, m)
  {
    hide Leads;
    if m == 0 {
      actions, t := ParkAll(workers, count, grain, k);
    } else {
      var front, s := RunChunks(workers, count, grain, k, m - 1);
      ChunkStarts(count, grain, m - 1);
      ChunkStarts(count, grain, m);
      assert m * grain == (m - 1) * grain + grain;
      var claimed, c := ClaimOne(Init(workers), front, s);
      actions, t := FinishOne(Init(workers), claimed, c);
    }
  }

  /** The caller is inside the last chunk; workers 1 to `j` have fetched past the end, the others up to `k` still
      may. */
  ghost predicate Overrun(s: State, workers: nat, count: nat, grain: nat, k: nat, j: nat) {
    && |s.pcs| == |s.observed| == workers + 1 && s.count == count && s.grain == grain && grain >= 1
    && s.pcs[0].Call? && j <= k <= workers
    && (forall i | j < i <= k :: s.pcs[i].Fetch?)
    && s.next == ((Chunks(count, grain) + j) * grain) % LIMIT
    && |s.claims| == Chunks(count, grain) && |s.claims| > 0 && s.claims[0] == 0
  }

  lemma {:induction false} OverrunAll(workers: nat, count: nat, grain: nat, k: nat, j: nat)
    returns (actions: seq<Action>, t: State)
    requires workers >= 1 && grain >= 1 && count / grain >= 2 && count < LIMIT && j <= k <= workers
    requires j > 0 ==> (Chunks(count, grain) + j - 1) * grain < LIMIT
    ensures Leads(Init(workers), actions, t) && OneDispatch(actions) && actions != [] &&
          actions[0] == Dispatch(count, grain)
    ensures Overrun(t, workers, count, grain, k, j)
  {
    hide Leads;
    var c := Chunks(count, grain);
    ChunkStarts(count, grain, 0);
    if j == 0 {
      var front, s := RunChunks(workers, count, grain, k, c - 1);
      ChunkStarts(count, grain, c - 1);
      assert c * grain == (c - 1) * grain + grain;
      actions, t := ClaimOne(Init(workers), front, s);
    } else {
      MulMonotone(c + j - 2, c + j - 1, grain);
      var front, s := OverrunAll(workers, count, grain, k, j - 1);
      ChunkStarts(count, grain, c + j - 1);
      assert s.next == (c + j - 1) * grain;
      assert (c + j) * grain == (c + j - 1) * grain + grain;
      t := Apply(s, FetchAdd(j));
      LeadsStep(Init(workers), front, s, FetchAdd(j));
      actions := front + [FetchAdd(j)];
    }
  }

  /** The smallest number of overruns that wraps the cursor. */
  lemma {:induction false} FirstWrap(count: nat, grain: nat, workers: nat) returns (e: nat)
    requires grain >= 1 && !Headroom(count, grain, workers)
    ensures e <= workers && (Chunks(count, grain) + e) * grain >= LIMIT
    ensures e > 0 ==> (Chunks(count, grain) + e - 1) * grain < LIMIT
    decreases workers
  {
    if workers == 0 || (Chunks(count, grain) + workers - 1) * grain < LIMIT {
      e := workers;
    } else {
      e := FirstWrap(count, grain, workers - 1);
    }
  }

  /** Without headroom some interleaving of one dispatch hands an index to the callback twice: the workers are held just
      before their fetch until the caller is in the last chunk, their fetches wrap the cursor, and the caller starts
      over. Together with the safety results, headroom is exactly what a dispatch needs. */
  lemma HeadroomIsNeeded(workers: nat, count: nat, grain: nat) returns (run: seq<State>, actions: seq<Action>)
    requires workers >= 1 && grain >= 1 && count / grain >= 2 && count < LIMIT && !Headroom(count, grain, workers)
    ensures IsRun(run, actions) && run[0] == Init(workers)
    ensures actions != [] && actions[0] == Dispatch(count, grain) && OneDispatch(actions)
    ensures exists x: nat, j, k :: x < count && 0 <= j < k < |run[|actions|].claims|
              && InChunk(x, run[|actions|].claims[j], count, grain)
              && InChunk(x, run[|actions|].claims[k], count, grain)
  {
    hide Leads, Enabled, Apply, Headroom, IsRun;
    var e := FirstWrap(count, grain, workers);
    var front, s := OverrunAll(workers, count, grain, e, e);
    GrainFits(count, grain);
    var v := Wrapped(count, grain, e);
    var ended, t := FinishOne(Init(workers), front, s);
    var t2;
    actions, t2 := ClaimOne(Init(workers), ended, t);
    run := LeadsRun(Init(workers), actions, t2);
    assert InChunk(v, t2.claims[0], count, grain) && InChunk(v, t2.claims[|s.claims|], count, grain);
  }

  /** The cursor after the wrapping fetch lies in the first chunk. */
  lemma Wrapped(count: nat, grain: nat, e: nat) returns (v: nat)
    requires 1 <= grain < count < LIMIT && (Chunks(count, grain) + e) * grain >= LIMIT
    requires e > 0 ==> (Chunks(count, grain) + e - 1) * grain < LIMIT
    ensures v == ((Chunks(count, grain) + e) * grain) % LIMIT < grain
  {
    var c := Chunks(count, grain);
    ChunkStarts(count, grain, 0);
    ChunkStarts(count, grain, c - 1);
    assert (c + e) * grain == (c + e - 1) * grain + grain;
    v := (c + e) * grain - LIMIT;
    assert v < grain;
    assert (v + LIMIT) % LIMIT == v;
  }

  lemma GrainFits(count: nat, grain: nat)
    requires grain >= 1 && count / grain >= 2
    ensures grain < count
  {
  }
}
