/** Lists of local edits whose results the caller does not look at: what the clock refuses is dropped. */
module LocalEdits {
  import opened Coherence
  import opened Polytrees
  import opened TransformStates
  import opened ActiveMotionSets
  import opened MotionAdvance

  /** Local edits that are allowed to fail. */
  function TryEdits<T>(s: State<T>, us: seq<Entry<T>>): State<T> {
    if us == [] then s
    else
      var prior, u := TryEdits(s, us[..|us| - 1]), us[|us| - 1];
      if EditError(prior, u.node) == Ok then Edit(prior, u.node, u.state) else prior
  }

  method TryLocals<T>(state: TransformState<T>, edits: seq<Entry<T>>)
    requires state.Value().Valid()
    modifies state
    ensures state.Value().Valid() && state.Value() == TryEdits(old(state.Value()), edits)
  {
    hide State.Valid;
    for k := 0 to |edits|
      invariant state.Value().Valid() && state.Value() == TryEdits(old(state.Value()), edits[..k])
    {
      assert edits[..k + 1][..k] == edits[..k];
      var applied := state.SetLocal(edits[k].node, edits[k].state);
    }
    assert edits[..|edits|] == edits;
  }

  /** On known nodes only the clock refuses: each edit takes one revision while there is one. */
  lemma {:induction false} TryClock<T>(s: State<T>, us: seq<Entry<T>>)
    requires Within(us, |s.records|) && s.revision <= MAX64
    ensures var r := TryEdits(s, us);
      && |r.records| == |s.records|
      && r.revision == (if s.revision + |us| <= MAX64 then s.revision + |us| else MAX64)
      && (s.revision + |us| <= MAX64 ==> r == EditAll(s, us))
  {
    if us != [] {
      TryClock(s, us[..|us| - 1]);
    }
  }

  lemma {:induction false} TrySound<T>(t: Forest, compose: (T, T) -> T, s: State<T>, us: seq<Entry<T>>)
    requires s.revision <= MAX64
    ensures var r := TryEdits(s, us);
      && |r.records| == |s.records| && s.revision <= r.revision <= MAX64
      && (s.Valid() ==> r.Valid()) && (Sound(t, compose, s) ==> Sound(t, compose, r))
  {
    hide Sound;
    if us != [] {
      var u, prior := us[|us| - 1], TryEdits(s, us[..|us| - 1]);
      TrySound(t, compose, s, us[..|us| - 1]);
      if EditError(prior, u.node) == Ok {
        EditAllSound(t, compose, prior, [u]);
        assert [u][..0] == [];
        assert EditAll(prior, [u]) == Edit(prior, u.node, u.state);
      }
    }
  }

  /** A node no edit names keeps its record. */
  lemma {:induction false} TryElsewhere<T>(s: State<T>, us: seq<Entry<T>>, v: nat)
    requires v < |s.records| && !Touches(us, v)
    ensures |TryEdits(s, us).records| == |s.records| && TryEdits(s, us).records[v] == s.records[v]
  {
    if us != [] {
      TouchesFront(us, v);
      TryElsewhere(s, us[..|us| - 1], v);
    }
  }

  /** Edits are tried one after the other. */
  lemma {:induction false} TryConcat<T>(s: State<T>, a: seq<Entry<T>>, b: seq<Entry<T>>)
    ensures TryEdits(s, a + b) == TryEdits(TryEdits(s, a), b)
    decreases |b|
  {
    if b == [] {
      assert a + b == a;
    } else {
      assert (a + b)[..|a + b| - 1] == a + b[..|b| - 1];
      TryConcat(s, a, b[..|b| - 1]);
    }
  }

  /** Edits of unknown nodes are skipped, and so is everything once the clock is used up. */
  lemma {:induction false} TrySkips<T>(s: State<T>, us: seq<Entry<T>>)
    requires s.revision >= MAX64 || forall i | 0 <= i < |us| :: us[i].node >= |s.records|
    ensures TryEdits(s, us) == s
  {
    if us != [] {
      TrySkips(s, us[..|us| - 1]);
    }
  }
}
