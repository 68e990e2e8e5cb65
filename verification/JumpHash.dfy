/** Jump consistent hashing, for any rounding of its two floating-point operations. */
module JumpHash {
  import opened Basics

  const TWO53: int := 0x20_0000_0000_0000
  const TWO62: int := 0x4000_0000_0000_0000

  /** The next pseudo-random key, in 64-bit arithmetic. */
  function NextKey(key: nat): (k: nat)
    ensures k < TWO64
  {
    (key * 2862933555777941757 + 1) % TWO64
  }

  // ----- Any jumps that lead strictly forward -----

  ghost predicate Forward(jump: (nat, nat) -> int, n: int) {
    forall b: nat, key: nat :: b < n && key < TWO64 ==> jump(b, key) > b
  }

  /** The last bucket below n that is reached by jumping on from j, having come from b. */
  function Last(jump: (nat, nat) -> int, b: int, j: nat, key: nat, n: int): int
    requires key < TWO64 && Forward(jump, n)
    decreases n - j
  {
    if j >= n then b
    else
      var k := NextKey(key);
      Last(jump, j, jump(j, k), k, n)
  }

  function Hash(jump: (nat, nat) -> int, key: nat, n: int): (r: int)
    requires key < TWO64 && Forward(jump, n)
  {
    Last(jump, -1, 0, key, n)
  }

  /** With m >= n buckets the jumps go on from where they ended with n. */
  lemma {:induction false} LastGrows(jump: (nat, nat) -> int, b: int, j: nat, key: nat, n: int, m: int)
    requires key < TWO64 && n <= m && b < j && Forward(jump, m)
    ensures Forward(jump, n)
    ensures var x, y := Last(jump, b, j, key, n), Last(jump, b, j, key, m); y == x || n <= y < m
    decreases m - j
  {
    hide NextKey;
    if j < m {
      var k := NextKey(key);
      LastGrows(jump, j, jump(j, k), k, n, m);
      if n <= j {
        LastRange(jump, j, jump(j, k), k, m);
      }
    }
  }

  lemma {:induction false} LastRange(jump: (nat, nat) -> int, b: int, j: nat, key: nat, n: int)
    requires key < TWO64 && b < n && Forward(jump, n)
    ensures var x := Last(jump, b, j, key, n); if j >= n then x == b else j <= x < n
    decreases n - j
  {
    hide NextKey;
    if j < n {
      var k := NextKey(key);
      LastRange(jump, j, jump(j, k), k, n);
    }
  }

  /** Adding buckets moves a key only into the new buckets, and every key has a bucket. */
  lemma Consistent(jump: (nat, nat) -> int, key: nat, n: int, m: int)
    requires key < TWO64 && 1 <= n <= m && Forward(jump, m)
    ensures Forward(jump, n) && 0 <= Hash(jump, key, m) < m
    ensures Hash(jump, key, m) == Hash(jump, key, n) || Hash(jump, key, m) >= n
  {
    hide NextKey, Last;
    LastGrows(jump, -1, 0, key, n, m);
    LastRange(jump, -1, 0, key, m);
  }

  // ----- The jumps of the program -----

  /** A rounding to double in any mode: it keeps the order, and the numbers that a double can hold. */
  ghost predicate Rounds(round: real -> real) {
    && (forall x, y :: x <= y ==> round(x) <= round(y))
    && (forall x :: 0.0 <= x <= TWO53 as real && x == x.Floor as real ==> round(x) == x)
    && round(TWO62 as real) == TWO62 as real
  }

  function Quotient(d: nat): real
    requires d > 0
  {
    TWO31 as real / d as real
  }

  function Product(c: nat, q: real): real {
    c as real * q
  }

  /** The bucket at which bucket b is left again: (b + 1) * (2^31 / ((key >> 33) + 1)), cut down to an integer. */
  function Jump(round: real -> real, b: nat, key: nat): int {
    round(Product(b + 1, round(Quotient(key / TWO33 + 1)))).Floor
  }

  function Jumps(round: real -> real): (nat, nat) -> int {
    (b: nat, key: nat) => Jump(round, b, key)
  }

  /** The divisor is at most 2^31, so every jump is strictly forward, and it stays within 64 bits. */
  lemma JumpForward(round: real -> real, b: nat, key: nat)
    requires Rounds(round) && b < TWO31 && key < TWO64
    ensures b < Jump(round, b, key) <= TWO62
  {
    hide Rounds, Quotient, Product;
    var d := key / TWO33 + 1;
    assert d <= TWO31;
    QuotientBounds(d);
    RoundBounds(round, 1, Quotient(d), TWO31);
    var q := round(Quotient(d));
    ProductBounds(b + 1, q);
    RoundBounds(round, b + 1, Product(b + 1, q), TWO62);
  }

  lemma RoundBounds(round: real -> real, lo: nat, x: real, hi: nat)
    requires Rounds(round) && lo <= TWO53 && (hi <= TWO53 || hi == TWO62) && lo as real <= x <= hi as real
    ensures lo as real <= round(x) <= hi as real
  {
    assert round(lo as real) == lo as real && round(hi as real) == hi as real;
  }

  lemma QuotientBounds(d: nat)
    requires 1 <= d <= TWO31
    ensures 1.0 <= Quotient(d) <= TWO31 as real
  {
    var q := Quotient(d);
    assert q * d as real == TWO31 as real;
    if q < 1.0 {
      Scale(q, 1.0, d as real);
    }
    if q > TWO31 as real {
      Scale(1.0, d as real, q);
    }
  }

  lemma ProductBounds(c: nat, q: real)
    requires 1 <= c <= TWO31 && 1.0 <= q <= TWO31 as real
    ensures c as real <= Product(c, q) <= TWO62 as real
  {
    var x, top := c as real, TWO31 as real;
    Commutes(x, q);
    Scale(1.0, q, x);
    Scale(q, top, x);
    assert top * x <= TWO62 as real;
  }

  lemma Commutes(x: real, q: real)
    ensures x * q == q * x
  {
  }

  lemma Scale(a: real, b: real, c: real)
    requires a <= b && c > 0.0
    ensures a * c <= b * c && (a < b ==> a * c < b * c)
  {
    assert (b - a) * c >= 0.0 && (a < b ==> (b - a) * c > 0.0);
  }

  lemma AllForward(round: real -> real, n: int)
    requires Rounds(round) && n <= TWO31
    ensures Forward(Jumps(round), n)
  {
    hide Rounds, Jump;
    forall b: nat, key: nat | b < n && key < TWO64
      ensures Jumps(round)(b, key) > b
    {
      JumpForward(round, b, key);
    }
  }

  /** So the program's hash is consistent, however its quotients and products are rounded. */
  lemma ConsistentRounded(round: real -> real, key: nat, n: int, m: int)
    requires Rounds(round) && key < TWO64 && 1 <= n <= m < TWO31
    ensures Forward(Jumps(round), n) && Forward(Jumps(round), m)
    ensures var x, y := Hash(Jumps(round), key, n), Hash(Jumps(round), key, m);
      0 <= y < m && (y == x || y >= n)
  {
    hide Rounds, Jumps, Hash, Forward;
    AllForward(round, n);
    AllForward(round, m);
    Consistent(Jumps(round), key, n, m);
  }

  /** Without rounding a jump is the integer quotient. */
  lemma ExactJump(b: nat, key: nat)
    requires key < TWO64
    ensures Rounds(x => x) && Jump(x => x, b, key) == (b + 1) * TWO31 / (key / TWO33 + 1)
  {
    assert Rounds(x => x);
    hide Rounds, Quotient, Product;
    FloorQuotient(b + 1, key / TWO33 + 1);
  }

  lemma FloorQuotient(c: nat, d: nat)
    requires d > 0
    ensures Product(c, Quotient(d)).Floor == c * TWO31 / d
  {
    var x := c * TWO31;
    var q, r := x / d, x % d;
    assert x == q * d + r;
    assert Product(c, Quotient(d)) == x as real / d as real;
    assert x as real / d as real == q as real + r as real / d as real;
    assert 0.0 <= r as real / d as real < 1.0;
  }

  /** jump_consistent_hash, for a 32-bit number of buckets */
  method JumpConsistentHash(round: real -> real, key: nat, buckets: int) returns (r: int)
    requires Rounds(round) && key < TWO64 && buckets < TWO31
    ensures Forward(Jumps(round), buckets) && r == Hash(Jumps(round), key, buckets)
    ensures if buckets <= 0 then r == -1 else 0 <= r < buckets
  {
    hide Rounds, Jump, NextKey;
    AllForward(round, buckets);
    var b: int, j: nat, k: nat := -1, 0, key;
    while j < buckets
      invariant k < TWO64 && Last(Jumps(round), b, j, k, buckets) == Hash(Jumps(round), key, buckets)
      invariant if j == 0 then b == -1 else 0 <= b < j && b < buckets
      decreases buckets - j
    {
      b := j;
      k := NextKey(k);
      JumpForward(round, b, k);
      j := Jump(round, b, k);
    }
    r := b;
  }

  // ----- The keys, and a value for reference -----

  const MULTIPLIER: nat := 2862933555777941757
  const INVERSE: nat := 16133697096952638549

  /** The key before k. */
  function PreviousKey(k: nat): nat {
    (k - 1) * INVERSE % TWO64
  }

  /** The generator can be run backwards, so it makes different keys of different keys. */
  lemma KeysReverse(key: nat)
    requires key < TWO64
    ensures PreviousKey(NextKey(key)) == key
  {
    var q, k := (key * MULTIPLIER + 1) / TWO64, NextKey(key);
    assert k - 1 == key * MULTIPLIER - q * TWO64;
    var t := 2503948805982125087;
    assert MULTIPLIER * INVERSE == 1 + t * TWO64;
    var z := t * key - q * INVERSE;
    assert (k - 1) * INVERSE == key + z * TWO64;
    Remainder(key, z);
  }

  lemma Remainder(r: nat, z: int)
    requires r < TWO64
    ensures (r + z * TWO64) % TWO64 == r
  {
  }

  lemma LastStep(b: int, j: nat, key: nat, n: int, k: nat, next: nat)
    requires key < TWO64 && j < n <= TWO31 && NextKey(key) == k && next == (j + 1) * TWO31 / (k / TWO33 + 1)
    ensures Forward(Jumps(x => x), n) && Last(Jumps(x => x), b, j, key, n) == Last(Jumps(x => x), j, next, k, n)
  {
    hide Rounds, Jump, NextKey;
    ExactJump(j, k);
    AllForward(x => x, n);
  }

  lemma ReferenceKeys()
    ensures NextKey(10863919174838991) == 15338245430585482900
    ensures NextKey(15338245430585482900) == 5933173489119344709
    ensures NextKey(5933173489119344709) == 8788550385278913586
  {
  }

  lemma ReferenceJumps()
    ensures 1 * TWO31 / (15338245430585482900 / TWO33 + 1) == 1
    ensures 2 * TWO31 / (5933173489119344709 / TWO33 + 1) == 6
    ensures 7 * TWO31 / (8788550385278913586 / TWO33 + 1) == 14
  {
  }

  /** Key 10863919174838991 goes to bucket 6 of 11, by way of buckets 0 and 1. */
  lemma ReferenceHash()
    ensures Forward(Jumps(x => x), 11) && Hash(Jumps(x => x), 10863919174838991, 11) == 6
  {
    hide Last, Jumps, Forward, Hash, NextKey;
    ReferenceKeys();
    ReferenceJumps();
    LastStep(-1, 0, 10863919174838991, 11, 15338245430585482900, 1);
    LastStep(0, 1, 15338245430585482900, 11, 5933173489119344709, 6);
    LastStep(1, 6, 5933173489119344709, 11, 8788550385278913586, 14);
    LastDone(6, 14, 8788550385278913586, 11);
    HashIs(10863919174838991, 11);
  }

  lemma HashIs(key: nat, n: int)
    requires key < TWO64 && Forward(Jumps(x => x), n)
    ensures Hash(Jumps(x => x), key, n) == Last(Jumps(x => x), -1, 0, key, n)
  {
  }

  lemma LastDone(b: int, j: nat, key: nat, n: int)
    requires key < TWO64 && j >= n && Forward(Jumps(x => x), n)
    ensures Last(Jumps(x => x), b, j, key, n) == b
  {
  }
}
