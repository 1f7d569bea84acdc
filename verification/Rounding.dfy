/**
 * Rounding to the nearest `float`, as far as similarity scores depend on it. Scores stay far from the ends of the
 * exponent range, so a float is any integer of at most 24 bits times a power of two.
 */
module Rounding {
  const SIGNIFICANDS := 0x100_0000            // 2^24
  const ULP: real := 1.0 / 16777216.0         // 2^-24, the distance from 1 to the float below it

  function Pow2(e: nat): (p: nat)
    ensures p > 0
  {
    if e == 0 then 1 else 2 * Pow2(e - 1)
  }

  predicate Scaled(x: real, k: int, e: nat) {
    x * Pow2(e) as real == k as real || x == k as real * Pow2(e) as real
  }

  ghost predicate IsFloat(x: real) {
    exists k: int, e: nat :: -SIGNIFICANDS <= k <= SIGNIFICANDS && Scaled(x, k, e)
  }

  function Gap(x: real, y: real): real {
    if x < y then y - x else x - y
  }

  /** x is rounded to a float, and f is none that is nearer. */
  ghost predicate RoundsBetter(fl: real -> real, x: real, f: real) {
    IsFloat(fl(x)) && (IsFloat(f) ==> Gap(fl(x), x) <= Gap(f, x))
  }

  /** No float is nearer to x than fl(x), and the tie right below 1 goes to 1, the even one. */
  ghost predicate RoundsToNearest(fl: real -> real) {
    (forall x, f :: RoundsBetter(fl, x, f)) && fl(1.0 - ULP / 2.0) == 1.0
  }

  lemma SmallInts(n: int)
    requires 0 <= n <= SIGNIFICANDS
    ensures IsFloat(n as real)
  {
    assert Scaled(n as real, n, 0);
  }

  lemma Pow2At25()
    ensures Pow2(24) == SIGNIFICANDS && Pow2(25) == 2 * SIGNIFICANDS
  {
    assert Pow2(8) == 256;
    assert Pow2(16) == 65536;
    assert Pow2(24) == 16777216;
  }

  /** The powers of two around the resolution of 1. */
  lemma PowersOfTwo()
    ensures IsFloat(ULP) && IsFloat(ULP / 2.0) && IsFloat((2 * SIGNIFICANDS) as real)
  {
    Pow2At25();
    assert Scaled(ULP, 1, 24) && Scaled(ULP / 2.0, 1, 25) && Scaled((2 * SIGNIFICANDS) as real, 1, 25);
  }

  lemma FloatsStay(fl: real -> real, x: real)
    requires RoundsToNearest(fl) && IsFloat(x)
    ensures fl(x) == x
  {
    assert RoundsBetter(fl, x, x);
  }

  lemma Monotone(fl: real -> real, x: real, y: real)
    requires RoundsToNearest(fl) && x <= y
    ensures fl(x) <= fl(y)
  {
    assert RoundsBetter(fl, x, fl(y)) && RoundsBetter(fl, y, fl(x));
  }

  /** Between 0 and 1, rounding moves a number by half the resolution of 1 at most. */
  lemma Near(fl: real -> real, x: real)
    requires RoundsToNearest(fl) && 0.0 <= x <= 1.0
    ensures Gap(fl(x), x) <= ULP / 2.0
  {
    var k := (x / ULP + 0.5).Floor;
    var f := k as real * ULP;
    assert k as real <= x / ULP + 0.5 < k as real + 1.0;
    assert x / ULP * ULP == x;
    assert Gap(f, x) <= ULP / 2.0;
    Pow2At25();
    assert 0 <= k <= SIGNIFICANDS && Scaled(f, k, 24);
    assert RoundsBetter(fl, x, f);
  }

  /** `1.0f - q` */
  function Complement(fl: real -> real, q: real): real { fl(1.0 - q) }

  /** x is one minus q, up to the resolution of 1. */
  predicate NearComplement(x: real, q: real) { Gap(x, 1.0 - q) <= ULP }

  lemma NearTwice(fl: real -> real, q: real)
    requires RoundsToNearest(fl) && 0.0 <= q <= 1.0
    ensures NearComplement(Complement(fl, fl(q)), q)
  {
    SmallInts(0);
    SmallInts(1);
    FloatsStay(fl, 0.0);
    FloatsStay(fl, 1.0);
    Monotone(fl, 0.0, q);
    Monotone(fl, q, 1.0);
    Near(fl, q);
    Near(fl, 1.0 - fl(q));
  }

  /** When `1.0f - q` is 1. */
  lemma OneMinus(fl: real -> real, q: real)
    requires RoundsToNearest(fl) && 0.0 <= q <= 1.0
    ensures 0.0 <= Complement(fl, q) <= 1.0
    ensures Complement(fl, q) == 1.0 <==> q <= ULP / 2.0
  {
    SmallInts(0);
    SmallInts(1);
    FloatsStay(fl, 0.0);
    FloatsStay(fl, 1.0);
    Monotone(fl, 0.0, 1.0 - q);
    Monotone(fl, 1.0 - q, 1.0);
    if q <= ULP / 2.0 {
      Monotone(fl, 1.0 - ULP / 2.0, 1.0 - q);
    } else {
      LessThanOne(fl, q);
    }
  }

  lemma LessThanOne(fl: real -> real, q: real)
    requires RoundsToNearest(fl) && ULP / 2.0 < q <= 1.0
    ensures fl(1.0 - q) != 1.0
  {
    Pow2At25();
    assert Scaled(1.0 - ULP, SIGNIFICANDS - 1, 24);
    assert RoundsBetter(fl, 1.0 - q, 1.0 - ULP);
    if q > ULP {
      FloatsStay(fl, 1.0 - ULP);
      Monotone(fl, 1.0 - q, 1.0 - ULP);
    }
  }
}
