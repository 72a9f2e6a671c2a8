/**
 * `Math.seededRandom` from `Utils.js`: a linear congruential generator with
 * modulus 233280 whose state is the integer `Math.seed` (initially 6), and
 * the index draws the layout generator makes with it.
 */
module SeededRandom {

  const Modulus: nat := 233280
  const InitialSeed: nat := 6

  /** The state update seed := (seed * 9301 + 49297) mod 233280. */
  function NextSeed(seed: nat): (s: nat)
    ensures s < Modulus
  {
    (seed * 9301 + 49297) % Modulus
  }

  /** One draw: the value returned and the generator state after the call. */
  datatype Draw = Draw(value: int, seed: nat)

  /** The fraction seed / 233280 the draw scales, always in [0, 1). */
  function Fraction(s: nat): (r: real)
    requires s < Modulus
    ensures 0.0 <= r < 1.0
  {
    s as real / Modulus as real
  }

  /** `max || 1`: a zero bound (the only falsy number here) becomes 1. */
  function UpperOrOne(max: real): real {
    if max == 0.0 then 1.0 else max
  }

  /** `Math.seededRandom(max, min)`: advance the state, then return
      floor(min + seed / 233280 * (max - min)) with `max || 1` in place of
      max (`min || 0` leaves every number unchanged). */
  function SeededRandom(seed: nat, max: real, min: real): (d: Draw)
    ensures d.seed == NextSeed(seed)
    ensures min <= UpperOrOne(max) ==> min.Floor <= d.value <= UpperOrOne(max).Floor
    ensures min < UpperOrOne(max) ==> (d.value as real) < UpperOrOne(max)
    ensures UpperOrOne(max) < min ==> UpperOrOne(max).Floor <= d.value <= min.Floor
  {
    var hi := UpperOrOne(max);
    var s := NextSeed(seed);
    var z := min + Scale(Fraction(s), hi - min);
    ScaledBetween(Fraction(s), min, hi);
    FloorMonotone(min, z);
    FloorMonotone(z, hi);
    FloorMonotone(hi, z);
    FloorMonotone(z, min);
    Draw(z.Floor, s)
  }

  /** f times the span d; kept as a function so that the bounds below are
      stated about one term. */
  function Scale(f: real, d: real): real {
    f * d
  }

  /** lo + f (hi - lo) lies between lo and hi for a fraction f in [0, 1). */
  lemma ScaledBetween(f: real, lo: real, hi: real)
    requires 0.0 <= f < 1.0
    ensures lo <= hi ==> lo <= lo + Scale(f, hi - lo) <= hi
    ensures lo < hi ==> lo + Scale(f, hi - lo) < hi
    ensures hi < lo ==> hi < lo + Scale(f, hi - lo) <= lo
  {
    var d := hi - lo;
    if lo < hi {
      FractionOfPositive(f, d);
    } else if hi < lo {
      FractionOfPositive(f, -d);
      assert Scale(f, d) == -Scale(f, -d);
    }
  }

  /** A fraction in [0, 1) of a positive span is non-negative and below it. */
  lemma FractionOfPositive(f: real, d: real)
    requires 0.0 <= f < 1.0 && 0.0 < d
    ensures 0.0 <= Scale(f, d) < d
  {
    var g := 1.0 - f;
    assert 0.0 < g * d;
    assert f * d == d - g * d;
  }

  lemma FloorMonotone(a: real, b: real)
    ensures a <= b ==> a.Floor <= b.Floor
  {
  }

  // ---------------------------------------------------------------------
  // Index draws. The generator writes `Math.seededRandom(0, n)` for an
  // index below n; with the (max, min) parameter order this draws from
  // [1, n] instead, and n itself is one past the end of the array.
  // ---------------------------------------------------------------------

  /** The index draw as written at ElectrodeLayoutGenerator.js lines 146, 251 and 261. */
  function IndexAsWritten(seed: nat, n: nat): (d: Draw)
    ensures n >= 1 ==> 1 <= d.value <= n
  {
    SeededRandom(seed, 0.0, n as real)
  }

  /** The state whose successor is 0; the draw after it has fraction 0. */
  const SeedBeforeZero: nat := 22643

  lemma SeedBeforeZeroIsReachable()
    ensures NextSeed(SeedBeforeZero) == 0
  {
  }

  /** The as-written draw yields n, an index past the end, whenever the
      generator state reaches 22643 (its period is the full 233280, so it does). */
  lemma IndexAsWrittenOutOfRange(n: nat)
    requires n >= 1
    ensures IndexAsWritten(SeedBeforeZero, n).value == n
  {
    SeedBeforeZeroIsReachable();
  }

  /** With two candidates the as-written draw always picks the second:
      `seededRandom(0, count - 1)` for count == 2 is constantly 1. */
  lemma IndexAsWrittenTwoCandidates(seed: nat)
    ensures IndexAsWritten(seed, 1).value == 1
  {
  }

  /** The written draw names an index below n exactly when n is at least 2
      and the next state is not 0; every other draw is n itself (or 0 for
      n = 0), which indexes nothing. */
  lemma IndexAsWrittenInRange(seed: nat, n: nat)
    ensures IndexAsWritten(seed, n).value < n <==> n >= 2 && NextSeed(seed) != 0
    ensures n >= 1 && IndexAsWritten(seed, n).value >= n ==> IndexAsWritten(seed, n).value == n
  {
    var s := NextSeed(seed);
    var f := Fraction(s);
    var z := n as real + Scale(f, 1.0 - n as real);
    assert IndexAsWritten(seed, n).value == z.Floor;
    if n >= 2 && s != 0 {
      assert f > 0.0;
      NegativeScale(f, 1.0 - n as real);
      assert z < n as real;
    } else if n >= 1 {
      assert s == 0 ==> f == 0.0;
      assert Scale(f, 1.0 - n as real) == 0.0 by {
        if n == 1 { assert 1.0 - n as real == 0.0; }
      }
      assert z == n as real;
    }
  }

  /** A positive fraction of a negative span is negative. */
  lemma NegativeScale(f: real, d: real)
    requires 0.0 < f && d < 0.0
    ensures Scale(f, d) < 0.0
  {
    assert f * (-d) > 0.0;
  }

  /** Which index draw the layout generator makes: `Math.seededRandom(0, n)`
      as written, or the evidently intended `Math.seededRandom(n, 0)`. */
  datatype IndexRule = AsWritten | Intended

  /** The evidently intended index draw, `Math.seededRandom(n, 0)`:
      floor(seed / 233280 * n), always a valid index below n. */
  function PickIndex(seed: nat, n: nat): (d: Draw)
    requires n >= 1
    ensures 0 <= d.value < n
    ensures d.seed == NextSeed(seed)
  {
    SeededRandom(seed, n as real, 0.0)
  }

  /** The intended draw reaches index 0 exactly where the written one overflows. */
  lemma PickIndexReachesZero(n: nat)
    requires n >= 1
    ensures PickIndex(SeedBeforeZero, n).value == 0
    ensures IndexAsWritten(SeedBeforeZero, n).value == n
  {
    SeedBeforeZeroIsReachable();
  }
}
