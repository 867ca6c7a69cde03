/** Sequence helpers shared by the models: order-preserving selection and sorting. */
module Sequences {

  /** No element occurs twice. */
  ghost predicate Distinct<T>(s: seq<T>) {
    forall i, j | 0 <= i < j < |s| :: s[i] != s[j]
  }

  /** The elements of `s`, as a set. */
  ghost function Elements<T>(s: seq<T>): set<T> {
    set x | x in s
  }

  lemma MemberAt<T>(s: seq<T>, i: nat)
    requires i < |s|
    ensures s[i] in Elements(s)
  {
  }

  /** The elements of `s` that lie in `keep`, in the order of `s`. */
  function Restrict<T(==)>(s: seq<T>, keep: set<T>): (r: seq<T>)
    ensures forall x | x in r :: x in s && x in keep
    ensures forall x | x in s && x in keep :: x in r
    ensures |r| <= |s|
  {
    if s == [] then []
    else
      var rest := Restrict(s[..|s|-1], keep);
      if s[|s|-1] in keep then rest + [s[|s|-1]] else rest
  }

  lemma RestrictStep<T>(s: seq<T>, i: nat, keep: set<T>)
    requires i < |s|
    ensures Restrict(s[..i + 1], keep) == Restrict(s[..i], keep) + if s[i] in keep then [s[i]] else []
  {
    assert s[..i + 1][..i] == s[..i];
  }

  lemma {:induction false} RestrictConcat<T>(a: seq<T>, b: seq<T>, keep: set<T>)
    ensures Restrict(a + b, keep) == Restrict(a, keep) + Restrict(b, keep)
    decreases |b|
  {
    if b == [] {
      assert a + b == a;
    } else {
      assert (a + b)[..|a + b| - 1] == a + b[..|b| - 1];
      RestrictConcat(a, b[..|b| - 1], keep);
    }
  }

  lemma {:induction false} RestrictAll<T>(s: seq<T>, keep: set<T>)
    requires forall x | x in s :: x in keep
    ensures Restrict(s, keep) == s
  {
    if s != [] {
      assert s == s[..|s|-1] + [s[|s|-1]];
      RestrictAll(s[..|s|-1], keep);
    }
  }

  lemma {:induction false} RestrictNone<T>(s: seq<T>, keep: set<T>)
    requires forall x | x in s :: x !in keep
    ensures Restrict(s, keep) == []
  {
    if s != [] {
      RestrictNone(s[..|s|-1], keep);
    }
  }

  /** Only what is kept of `s` itself matters. */
  lemma {:induction false} RestrictSame<T>(s: seq<T>, a: set<T>, b: set<T>)
    requires forall x | x in s :: x in a <==> x in b
    ensures Restrict(s, a) == Restrict(s, b)
  {
    if s != [] {
      RestrictSame(s[..|s|-1], a, b);
    }
  }

  lemma RestrictFirst<T>(s: seq<T>, keep: set<T>)
    requires s != [] && Distinct(s) && s[0] in keep
    requires forall x | x in s && x in keep :: x == s[0]
    ensures Restrict(s, keep) == [s[0]]
  {
    assert s == [s[0]] + s[1..];
    RestrictConcat([s[0]], s[1..], keep);
    RestrictAll([s[0]], keep);
    forall x | x in s[1..] ensures x !in keep {
      var i :| 0 <= i < |s[1..]| && s[1..][i] == x;
      assert s[i + 1] == x;
    }
    RestrictNone(s[1..], keep);
  }

  lemma {:induction false} RestrictTwice<T>(s: seq<T>, a: set<T>, b: set<T>)
    ensures Restrict(Restrict(s, a), b) == Restrict(s, a * b)
  {
    if s != [] {
      var front, last := s[..|s|-1], s[|s|-1];
      RestrictTwice(front, a, b);
      if last in a {
        RestrictConcat(Restrict(front, a), [last], b);
        assert Restrict(s, a) == Restrict(front, a) + [last];
        assert [last][..0] == [];
      }
    }
  }

  lemma {:induction false} RestrictDistinct<T>(s: seq<T>, keep: set<T>)
    requires Distinct(s)
    ensures Distinct(Restrict(s, keep))
  {
    if s != [] {
      RestrictDistinct(s[..|s|-1], keep);
    }
  }

  lemma {:induction false} DistinctCardinality<T>(s: seq<T>)
    requires Distinct(s)
    ensures |Elements(s)| == |s|
  {
    if s != [] {
      var front, last := s[..|s|-1], s[|s|-1];
      DistinctCardinality(front);
      assert last !in Elements(front);
      assert Elements(s) == Elements(front) + {last};
    }
  }

  lemma SubsetBound<T>(a: set<T>, b: set<T>)
    requires a <= b
    ensures |a| <= |b|
  {
    assert |b - a| == |b| - |a|;
  }

  lemma SubsetSmaller<T>(a: set<T>, b: set<T>)
    requires a <= b && a != b
    ensures |a| < |b|
  {
    assert |b - a| == |b| - |a|;
    assert b - a != {};
  }

  // ----- sorting: any correct library sort satisfies the contract of `Sort` -----

  ghost predicate SortedBy<T>(s: seq<T>, leq: (T, T) -> bool) {
    forall i, j | 0 <= i < j < |s| :: leq(s[i], s[j])
  }

  /** `leq` is a total preorder on `s`. */
  ghost predicate TotalOn<T>(s: set<T>, leq: (T, T) -> bool) {
    && (forall x, y {:trigger leq(x, y)} | x in s && y in s :: leq(x, y) || leq(y, x))
    && (forall x, y, z {:trigger leq(x, y), leq(y, z)} |
           x in s && y in s && z in s && leq(x, y) && leq(y, z) :: leq(x, z))
  }

  method Sort<T>(s: seq<T>, leq: (T, T) -> bool) returns (r: seq<T>)
    requires TotalOn(Elements(s), leq)
    ensures multiset(r) == multiset(s)
    ensures Elements(r) == Elements(s) && |r| == |s|
    ensures SortedBy(r, leq)
  {
    r := [];
    for i := 0 to |s|
      invariant multiset(r) == multiset(s[..i])
      invariant Elements(r) == Elements(s[..i])
      invariant SortedBy(r, leq)
    {
      assert s[..i + 1] == s[..i] + [s[i]];
      InsertSorted(r, s[i], leq, Elements(s));
      r := Insert(r, s[i], leq);
    }
    assert s[..|s|] == s;
    SameElements(r, s);
  }

  function Insert<T>(r: seq<T>, x: T, leq: (T, T) -> bool): (q: seq<T>)
    ensures multiset(q) == multiset(r) + multiset{x}
    ensures Elements(q) == Elements(r) + {x}
  {
    if r == [] || leq(x, r[0]) then [x] + r
    else
      assert r == [r[0]] + r[1..];
      var rest := Insert(r[1..], x, leq);
      assert Elements([r[0]] + rest) == {r[0]} + Elements(rest);
      assert Elements(r) == {r[0]} + Elements(r[1..]);
      [r[0]] + rest
  }

  lemma {:induction false} InsertSorted<T>(r: seq<T>, x: T, leq: (T, T) -> bool, domain: set<T>)
    requires TotalOn(domain, leq) && x in domain && Elements(r) <= domain
    requires SortedBy(r, leq)
    ensures SortedBy(Insert(r, x, leq), leq)
  {
    if r == [] {
    } else if leq(x, r[0]) {
      forall j | 0 <= j < |r| ensures leq(x, r[j]) {
        assert r[0] in Elements(r) && r[j] in Elements(r);
        assert j > 0 ==> leq(r[0], r[j]);
      }
    } else {
      assert r[0] in Elements(r);
      assert Elements(r[1..]) <= Elements(r);
      InsertSorted(r[1..], x, leq, domain);
      var q := Insert(r[1..], x, leq);
      forall j | 0 <= j < |q| ensures leq(r[0], q[j]) {
        assert q[j] in Elements(q);
        if q[j] != x {
          assert q[j] in Elements(r[1..]);
          var k :| 0 <= k < |r[1..]| && r[1..][k] == q[j];
          assert r[k + 1] == q[j];
        }
      }
    }
  }

  lemma SameElements<T>(a: seq<T>, b: seq<T>)
    requires multiset(a) == multiset(b)
    ensures Elements(a) == Elements(b) && |a| == |b|
    ensures Distinct(a) <==> Distinct(b)
  {
    assert |multiset(a)| == |a| && |multiset(b)| == |b|;
    forall x | x in a ensures x in b { assert x in multiset(a); }
    forall x | x in b ensures x in a { assert x in multiset(b); }
    if Distinct(a) { DistinctCounts(a); CountsDistinct(b); }
    if Distinct(b) { DistinctCounts(b); CountsDistinct(a); }
  }

  lemma {:induction false} DistinctCounts<T>(s: seq<T>)
    requires Distinct(s)
    ensures forall x | x in s :: multiset(s)[x] == 1
  {
    if s != [] {
      DistinctCounts(s[1..]);
      assert s == [s[0]] + s[1..];
    }
  }

  lemma CountsDistinct<T>(s: seq<T>)
    requires forall x | x in s :: multiset(s)[x] == 1
    ensures Distinct(s)
  {
    forall i, j | 0 <= i < j < |s|
      ensures s[i] != s[j]
    {
      assert s == s[..j] + s[j..];
      assert s[i] in s[..j] && s[j] in s[j..];
      assert s[i] in multiset(s[..j]) && s[j] in multiset(s[j..]);
      assert multiset(s)[s[i]] == 1;
    }
  }

  lemma MultisetTail<T>(s: seq<T>)
    requires s != []
    ensures multiset(s[1..]) == multiset(s) - multiset{s[0]}
  {
    assert s == [s[0]] + s[1..];
  }

  /** No two different elements of `s` are tied. */
  ghost predicate Antisymmetric<T>(s: seq<T>, leq: (T, T) -> bool) {
    forall x, y {:trigger leq(x, y), leq(y, x)} | x in s && y in s && leq(x, y) && leq(y, x) :: x == y
  }

  lemma SameHead<T>(a: seq<T>, b: seq<T>, leq: (T, T) -> bool)
    requires multiset(a) == multiset(b) && a != []
    requires Antisymmetric(a, leq) && SortedBy(a, leq) && SortedBy(b, leq)
    ensures b != [] && a[0] == b[0]
  {
    SameElements(a, b);
    assert a[0] in Elements(a) && b[0] in Elements(b);
    var i :| 0 <= i < |b| && b[i] == a[0];
    var j :| 0 <= j < |a| && a[j] == b[0];
    if i > 0 && j > 0 {
      assert leq(b[0], b[i]) && leq(a[0], a[j]);
    }
  }

  lemma SortedTail<T>(a: seq<T>, leq: (T, T) -> bool)
    requires a != []
    ensures SortedBy(a, leq) ==> SortedBy(a[1..], leq)
    ensures Antisymmetric(a, leq) ==> Antisymmetric(a[1..], leq)
  {
    assert forall x | x in a[1..] :: x in a;
  }

  /** A list without ties has only one sorted arrangement. */
  lemma {:induction false} SortedUnique<T>(a: seq<T>, b: seq<T>, leq: (T, T) -> bool)
    requires multiset(a) == multiset(b)
    requires Antisymmetric(a, leq) && SortedBy(a, leq)
    requires SortedBy(b, leq)
    ensures a == b
  {
    hide Antisymmetric, SortedBy;
    if a == [] {
      assert |multiset(b)| == |b|;
    } else {
      SameHead(a, b, leq);
      MultisetTail(a);
      MultisetTail(b);
      SortedTail(a, leq);
      SortedTail(b, leq);
      SortedUnique(a[1..], b[1..], leq);
      assert a == [a[0]] + a[1..] && b == [b[0]] + b[1..];
    }
  }
}
