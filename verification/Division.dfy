/** Quotient and remainder by a positive divisor, named so that proofs can keep them folded. */
module Division {

  lemma AtLeast(a: nat, k: int)
    ensures k >= 1 ==> a * k >= a
    ensures k <= -1 ==> a * k + a <= 0
  {
  }

  function Quo(x: nat, a: nat): (q: nat)
    requires a > 0
  {
    x / a
  }

  function Rem(x: nat, a: nat): (r: nat)
    requires a > 0
    ensures r < a
  {
    x % a
  }

  lemma DivMod(x: nat, a: nat)
    requires a > 0
    ensures x == a * Quo(x, a) + Rem(x, a)
  {
  }

  lemma DivUnique(x: nat, a: nat, d: nat, m: nat)
    requires x == a * d + m && m < a
    ensures Quo(x, a) == d && Rem(x, a) == m
  {
    hide Quo, Rem;
    DivMod(x, a);
    var e, r := Quo(x, a), Rem(x, a);
    assert a * (d - e) == a * d - a * e;
    AtLeast(a, d - e);
  }

  /** Rounding down to a multiple; the multiples below it are a whole step away. */
  lemma RoundDown(s: nat, a: nat, x: nat)
    requires a > 0
    ensures Rem(s, a) <= s && Rem(s - Rem(s, a), a) == 0
    ensures Rem(x, a) == 0 && x < s - Rem(s, a) ==> x + a <= s - Rem(s, a)
  {
    hide Quo, Rem;
    DivMod(s, a);
    DivMod(x, a);
    AtLeast(a, Quo(s, a));
    Nonnegative(a, Quo(s, a));
    DivUnique(s - Rem(s, a), a, Quo(s, a), 0);
    assert a * (Quo(s, a) - Quo(x, a)) == a * Quo(s, a) - a * Quo(x, a);
    AtLeast(a, Quo(s, a) - Quo(x, a));
    AtMost(a, Quo(s, a) - Quo(x, a));
  }

  lemma Nonnegative(a: nat, k: nat)
    ensures a * k >= 0
  {
  }

  lemma AtMost(a: nat, k: int)
    ensures k <= 0 ==> a * k <= 0
  {
  }
}
