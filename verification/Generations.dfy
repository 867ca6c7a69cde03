/** 32-bit generations, which tell a reused slot or record from its earlier uses. */
module Generations {
  const MAX32: nat := 0xFFFF_FFFF

  /** `++` on an unsigned 32-bit generation, which never rests on zero. */
  function NextGeneration(g: nat): nat { if g >= MAX32 then 1 else g + 1 }

  /** The generation after `n` releases. */
  function Later(g: nat, n: nat): nat
    requires 0 < g
  {
    (g - 1 + n) % MAX32 + 1
  }

  lemma LaterRange(g: nat, n: nat)
    requires 0 < g
    ensures 0 < Later(g, n) <= MAX32
  {
  }

  lemma LaterNext(g: nat, n: nat)
    requires 0 < g
    ensures NextGeneration(Later(g, n)) == Later(g, n + 1)
  {
    var x := g - 1 + n;
    assert (x + 1) % MAX32 == if x % MAX32 == MAX32 - 1 then 0 else x % MAX32 + 1;
  }

  lemma LaterSame(g: nat, n: nat)
    requires 0 < g <= MAX32
    ensures Later(g, 0) == g
    ensures Later(g, n) == g <==> n % MAX32 == 0
  {
    var x := g - 1;
    if n % MAX32 == 0 { Multiple(x, n); }
    if Later(g, n) == g { Remainder(x, n); }
  }

  lemma Multiple(x: nat, n: nat)
    requires x < MAX32 && n % MAX32 == 0
    ensures (x + n) % MAX32 == x
  {
    assert n == MAX32 * (n / MAX32);
  }

  lemma Remainder(x: nat, n: nat)
    requires x < MAX32 && (x + n) % MAX32 == x
    ensures n % MAX32 == 0
  {
    assert x + n == MAX32 * ((x + n) / MAX32) + x;
  }

  lemma SmallCount(n: nat)
    ensures 0 < n < MAX32 ==> n % MAX32 != 0
  {
  }

  lemma WholeLaps(laps: nat)
    ensures (laps * MAX32) % MAX32 == 0
  {
  }
}
