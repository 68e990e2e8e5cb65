/** Linear hashing: which bucket a hash code belongs to while the buckets are split one at a time. */
module LinearHashing {
  import opened Bits

  /** hash_to_bucket with `count` buckets under `mask`. */
  function Bucket(mask: nat, count: nat, h: nat): nat {
    if And(h, mask) < count then And(h, mask) else And(h, mask / 2)
  }

  /** The mask is 2^b - 1, the least of its kind that covers all bucket numbers. */
  ghost predicate Masked(mask: nat, count: nat, b: nat) {
    mask == Pow2(b) - 1 && count <= Pow2(b) < 2 * count
  }

  lemma MaskedHalf(mask: nat, count: nat, b: nat)
    requires Masked(mask, count, b)
    ensures b > 0 ==> mask / 2 == Pow2(b - 1) - 1 && Pow2(b - 1) < count
    ensures b == 0 ==> mask == 0 && count == 1
  {
  }

  /** The same bucket, by remainders. */
  function ByRemainder(b: nat, count: nat, h: nat): nat {
    if Mod(h, Pow2(b)) < count || b == 0 then Mod(h, Pow2(b)) else Mod(h, Pow2(b - 1))
  }

  lemma BucketIs(mask: nat, count: nat, b: nat, h: nat)
    requires Masked(mask, count, b)
    ensures Bucket(mask, count, h) == ByRemainder(b, count, h)
    ensures And(h, mask) == Mod(h, Pow2(b)) && (b > 0 ==> And(h, mask / 2) == Mod(h, Pow2(b - 1)))
  {
    hide And, Mod;
    MaskedHalf(mask, count, b);
    AndMod(h, b);
    if b > 0 {
      AndMod(h, b - 1);
    }
  }

  lemma BucketRange(mask: nat, count: nat, b: nat, h: nat)
    requires Masked(mask, count, b)
    ensures Bucket(mask, count, h) < count
  {
    hide And, Bucket, Mod;
    BucketIs(mask, count, b, h);
    MaskedHalf(mask, count, b);
  }

  /** The test `count & (count - 1)) == 0`. */
  lemma {:induction false} PowerTest(c: nat, b: nat)
    requires 0 < c && c <= Pow2(b) < 2 * c
    ensures And(c, c - 1) == 0 <==> c == Pow2(b)
  {
    if b == 0 {
    } else if c % 2 == 0 {
      assert (c - 1) / 2 == c / 2 - 1;
      PowerTest(c / 2, b - 1);
    } else {
      assert (c - 1) / 2 == c / 2;
      AndSelf(c / 2);
    }
  }

  lemma {:induction false} AndSelf(a: nat)
    ensures And(a, a) == a
  {
    if a > 0 {
      AndSelf(a / 2);
    }
  }

  /** The mask after another bucket has been added. */
  function Grown(mask: nat, count: nat): nat
    requires count > 0
  {
    if And(count, count - 1) == 0 then count * 2 - 1 else mask
  }

  lemma GrownMasked(mask: nat, count: nat, b: nat) returns (b': nat)
    requires Masked(mask, count, b)
    ensures Masked(Grown(mask, count), count + 1, b')
    ensures b' == if count == Pow2(b) then b + 1 else b
  {
    PowerTest(count, b);
    b' := if count == Pow2(b) then b + 1 else b;
  }

  /** Adding a bucket moves exactly the codes of one old bucket whose masked code is the new number. */
  lemma Splits(mask: nat, count: nat, b: nat, h: nat)
    requires Masked(mask, count, b)
    ensures var mask' := Grown(mask, count); var from := And(count, mask' / 2);
      && from < count
      && Bucket(mask', count + 1, h) == (if And(h, mask') == count then count else Bucket(mask, count, h))
      && (And(h, mask') == count ==> Bucket(mask, count, h) == from)
  {
    hide And, Bucket, Grown, Mod;
    var b' := GrownMasked(mask, count, b);
    var mask' := Grown(mask, count);
    BucketIs(mask, count, b, h);
    BucketIs(mask', count + 1, b', h);
    BucketIs(mask', count + 1, b', count);
    MaskedHalf(mask, count, b);
    MaskedHalf(mask', count + 1, b');
    if count == Pow2(b) {
      DoublingSplits(b, h);
    } else {
      InnerSplits(count, b, h);
    }
  }

  /** The first bucket of a new doubling round: 2^b is split off from 0. */
  lemma DoublingSplits(b: nat, h: nat)
    ensures Mod(Pow2(b), Pow2(b)) == 0
    ensures ByRemainder(b, Pow2(b), h) == Mod(h, Pow2(b))
    ensures ByRemainder(b + 1, Pow2(b) + 1, h) == if Mod(h, Pow2(b + 1)) == Pow2(b) then Pow2(b) else Mod(h, Pow2(b))
    ensures Mod(h, Pow2(b + 1)) == Pow2(b) ==> Mod(h, Pow2(b)) == 0
  {
    hide Mod;
    ModDouble(h, Pow2(b));
    ModOf(Pow2(b), Pow2(b), 1, 0);
  }

  /** Within a round the next bucket is split off from the one half a round below. */
  lemma InnerSplits(count: nat, b: nat, h: nat)
    requires 0 < b && Pow2(b - 1) < count < Pow2(b)
    ensures Mod(count, Pow2(b - 1)) < count
    ensures ByRemainder(b, count + 1, h) == if Mod(h, Pow2(b)) == count then count else ByRemainder(b, count, h)
    ensures Mod(h, Pow2(b)) == count ==> ByRemainder(b, count, h) == Mod(count, Pow2(b - 1))
  {
    hide Mod;
    ModOf(count, Pow2(b - 1), 1, count - Pow2(b - 1));
    ModDouble(h, Pow2(b - 1));
  }
}
