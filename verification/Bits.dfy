/** Bitwise AND and powers of two on natural numbers, for the tables' bucket masks. */
module Bits {

  function Pow2(n: nat): (p: nat)
    ensures p >= 1
  {
    if n == 0 then 1 else 2 * Pow2(n - 1)
  }

  function And(a: nat, b: nat): (r: nat)
    ensures r <= b && r <= a
  {
    if a == 0 || b == 0 then 0 else
      2 * And(a / 2, b / 2) + (if a % 2 == 1 && b % 2 == 1 then 1 else 0)
  }

  lemma AndStep(a: nat, p: nat)
    requires p >= 1
    ensures And(a, 2 * p - 1) == 2 * And(a / 2, p - 1) + a % 2
  {
    assert (2 * p - 1) / 2 == p - 1 && (2 * p - 1) % 2 == 1;
  }

  /** The remainder, by a name of its own: hidden, it spares the solver nonlinear arithmetic. */
  function Mod(a: nat, d: nat): (r: nat)
    requires d >= 1
    ensures r < d
  {
    a % d
  }

  lemma ModSteps(a: nat, p: nat)
    requires p >= 1
    ensures Mod(a, 2 * p) == 2 * Mod(a / 2, p) + a % 2 && Mod(a, 1) == 0
  {
    HalfMod(a, p);
  }

  /** Masking with 2^n - 1 is taking the remainder by 2^n. */
  lemma {:induction false} AndMod(a: nat, n: nat)
    ensures And(a, Pow2(n) - 1) == Mod(a, Pow2(n))
  {
    hide And, Mod;
    if n == 0 {
      ModSteps(a, 1);
      AndNone(a);
    } else {
      AndMod(a / 2, n - 1);
      AndStep(a, Pow2(n - 1));
      ModSteps(a, Pow2(n - 1));
    }
  }

  lemma AndNone(a: nat)
    ensures And(a, 0) == 0
  {
  }

  lemma HalfMod(a: nat, p: nat)
    requires p >= 1
    ensures a % (2 * p) == 2 * ((a / 2) % p) + a % 2
  {
    var q, r := (a / 2) / p, (a / 2) % p;
    assert a == 2 * (q * p + r) + a % 2;
    assert a == q * (2 * p) + (2 * r + a % 2);
    ModIs(a, 2 * p, q, 2 * r + a % 2);
  }

  lemma ModIs(a: nat, d: nat, q: nat, r: nat)
    requires d >= 1 && r < d && a == q * d + r
    ensures a % d == r && a / d == q
  {
    var q', r' := a / d, a % d;
    assert a == q' * d + r';
    assert (q' - q) * d == r - r' by { assert (q' - q) * d == q' * d - q * d; }
    SmallMultiple(q' - q, d);
  }

  lemma SmallMultiple(e: int, d: int)
    requires d >= 1 && -d < e * d < d
    ensures e == 0
  {
  }

  lemma ModOf(a: nat, d: nat, q: nat, r: nat)
    requires d >= 1 && r < d && a == q * d + r
    ensures Mod(a, d) == r
  {
    ModIs(a, d, q, r);
  }

  lemma Quotient(a: nat, d: nat) returns (q: nat)
    requires d >= 1
    ensures a == q * d + Mod(a, d)
  {
    q := a / d;
  }

  /** Taking the remainder by 2p first does not change the remainder by p. */
  lemma ModDouble(a: nat, p: nat)
    requires p >= 1
    ensures Mod(Mod(a, 2 * p), p) == Mod(a, p)
    ensures Mod(a, 2 * p) < p ==> Mod(a, 2 * p) == Mod(a, p)
  {
    hide Mod;
    var q := Quotient(a, 2 * p);
    var r := Mod(a, 2 * p);
    var e, s := if r < p then 0 else 1, if r < p then r else r - p;
    assert r == e * p + s;
    assert a == (2 * q + e) * p + s by { assert (2 * q + e) * p == q * (2 * p) + e * p; }
    ModOf(a, p, 2 * q + e, s);
    ModOf(r, p, e, s);
  }
}
