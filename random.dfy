/** The seeded random source is outside the model: its draws are supplied by
    the caller as a stream of reals in [0, 1). `RandomInt` applies the
    generator's own formula `floor(random() * (max - min + 1)) + min`. */
module Random {

  /** What `randomInt(min, max)` can return. For `min <= max` this is the
      inclusive range; the formula also runs when `max < min`, and then yields a
      value in `[max + 1, min]` (for `max == min - 1` exactly `min`). */
  predicate InRandomIntRange(r: int, min: int, max: int)
  {
    if min <= max then min <= r <= max else max + 1 <= r <= min
  }

  /** `randomInt(min, max)` for the draw `u` of `random()`. */
  function RandomIntOf(u: real, min: int, max: int): int
    requires 0.0 <= u < 1.0
  {
    (u * (max - min + 1) as real).Floor + min
  }

  /** What `randomInt(min, max)` returns lies in its range. */
  lemma RandomIntOfRange(u: real, min: int, max: int)
    requires 0.0 <= u < 1.0
    ensures InRandomIntRange(RandomIntOf(u, min, max), min, max)
  {
    ScaledFloorBounds(u, max - min + 1);
  }

  /** `Math.floor(random() * len)`: an index into a list of length `len`. */
  function DrawIndex(u: real, len: nat): (i: nat)
    requires 0.0 <= u < 1.0
    ensures len > 0 ==> i < len
    ensures len == 0 ==> i == 0
  {
    ScaledFloorBounds(u, len);
    (u * len as real).Floor
  }

  lemma ScaledFloorBounds(u: real, k: int)
    requires 0.0 <= u < 1.0
    ensures k >= 1 ==> 0 <= (u * k as real).Floor < k
    ensures k <= 0 ==> k <= (u * k as real).Floor <= 0
  {
    var v := u * k as real;
    if k >= 1 {
      var m := k as real;
      MulNonNegReal(u, m);
      MulPosReal(1.0 - u, m);
      assert (1.0 - u) * m == m - v;
    } else {
      var m := (-k) as real;
      assert v == -(u * m);
      MulNonNegReal(u, m);
      MulNonNegReal(1.0 - u, m);
      assert (1.0 - u) * m == m - u * m;
    }
  }

  lemma MulNonNegReal(a: real, b: real)
    requires a >= 0.0 && b >= 0.0
    ensures a * b >= 0.0
  {
  }

  lemma MulPosReal(a: real, b: real)
    requires a > 0.0 && b > 0.0
    ensures a * b > 0.0
  {
  }

  /** A stream of draws of `random()`; `used` counts the draws consumed. */
  class RandomSource {
    const draws: nat -> real
    var used: nat

    ghost predicate Valid()
    {
      forall n: nat :: 0.0 <= draws(n) < 1.0
    }

    constructor (draws: nat -> real)
      requires forall n: nat :: 0.0 <= draws(n) < 1.0
      ensures Valid() && this.draws == draws && used == 0
    {
      this.draws := draws;
      used := 0;
    }

    /** `random()`. */
    method Next() returns (u: real)
      requires Valid()
      modifies this`used
      ensures u == draws(old(used)) && used == old(used) + 1
      ensures 0.0 <= u < 1.0
    {
      u := draws(used);
      used := used + 1;
    }

    /** `randomInt(min, max)`. */
    method RandomInt(min: int, max: int) returns (r: int)
      requires Valid()
      modifies this`used
      ensures used == old(used) + 1
      ensures r == RandomIntOf(draws(old(used)), min, max)
      ensures InRandomIntRange(r, min, max)
    {
      var u := Next();
      r := RandomIntOf(u, min, max);
      RandomIntOfRange(u, min, max);
    }
  }
}
