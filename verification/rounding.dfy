/**
  `round1` from backend_Test/internal/httpserver/handler.go, over exact reals.

  The Go code computes `float64(int(f*10+0.5)) / 10`. Adding 0.5 before
  dropping the fraction is the idiom for rounding half up, but Go's
  `int(...)` conversion truncates toward zero, so the two agree only when
  `f*10+0.5` is non-negative. `Round1AsWritten` is that code, and the
  handler model uses it; `Round1` is the floor-based half-up rounding the
  idiom aims at.
*/
module Rounding {

  /** Go's conversion of a float to `int`: drop the fraction, toward zero. */
  function TruncateTowardZero(x: real): (n: int)
    ensures 0.0 <= x ==> n as real <= x < n as real + 1.0
    ensures x < 0.0 ==> n as real - 1.0 < x <= n as real
  {
    if 0.0 <= x then x.Floor else -((-x).Floor)
  }

  /**
    `round1` exactly as written: truncation toward zero. The result is a
    whole number of tenths; from -0.05 up it is the nearest tenth (ties
    up), below -0.05 it lies between half a tenth and a tenth and a half
    above `f`.
  */
  function Round1AsWritten(f: real): (r: real)
    ensures IsTenths(r)
    ensures -0.05 <= f ==> r - 0.05 <= f < r + 0.05
    ensures f < -0.05 ==> r - 0.15 < f <= r - 0.05
  {
    var n := TruncateTowardZero(f * 10.0 + 0.5);
    assert (n as real).Floor == n;
    n as real / 10.0
  }

  /**
    Round half up to one decimal place, `floor(f*10 + 0.5) / 10`: a whole
    number of tenths within half a tenth of `f`, ties going up.
  */
  function Round1(f: real): (r: real)
    ensures IsTenths(r)
    ensures r - 0.05 <= f < r + 0.05
  {
    var k := (f * 10.0 + 0.5).Floor;
    assert (k as real).Floor == k;
    k as real / 10.0
  }

  /** `r` is a whole number of tenths. */
  predicate IsTenths(r: real)
  {
    (r * 10.0).Floor as real == r * 10.0
  }

  /** Any whole number of tenths within half a tenth of `f` (ties up) is `Round1(f)`. */
  lemma Round1IsUnique(f: real, r: real)
    requires IsTenths(r)
    requires r - 0.05 <= f < r + 0.05
    ensures r == Round1(f)
  {
    var k := (r * 10.0).Floor;
    assert k as real <= f * 10.0 + 0.5 < k as real + 1.0;
    assert (f * 10.0 + 0.5).Floor == k;
  }

  /** A value that already has one decimal is left as it is. */
  lemma Round1KeepsTenths(f: real)
    requires IsTenths(f)
    ensures Round1(f) == f
  {
    Round1IsUnique(f, f);
  }

  /** The code as written agrees with half-up rounding whenever `f*10 + 0.5 >= 0`, so for every `f >= -0.05`. */
  lemma Round1AsWrittenAgreesOffNegatives(f: real)
    requires -0.05 <= f
    ensures Round1AsWritten(f) == Round1(f)
  {
    Round1IsUnique(f, Round1AsWritten(f));
  }

  /**
    Below -0.05 the code as written is a tenth above half-up rounding,
    except when `f*10 + 0.5` is already whole (`f + 0.05` a whole number of
    tenths), where truncation and floor coincide.
  */
  lemma Round1AsWrittenOnNegatives(f: real)
    requires f < -0.05
    ensures IsTenths(f + 0.05) ==> Round1AsWritten(f) == Round1(f)
    ensures !IsTenths(f + 0.05) ==> Round1AsWritten(f) == Round1(f) + 0.1
  {
    var y := f * 10.0 + 0.5;
    assert (f + 0.05) * 10.0 == y;
    var k := y.Floor;
    var n := TruncateTowardZero(y);
    if IsTenths(f + 0.05) {
      assert k as real == y;
      assert n == k;
    } else {
      assert k as real < y;
      assert n == k + 1;
    }
  }

  /**
    The code as written moves an already-rounded negative reading up by a
    tenth: `round1(-2.0)` is `int(-19.5) / 10`, that is `-1.9`, where half-up
    rounding keeps `-2.0`; `-2.26` becomes `-2.2` instead of `-2.3`.
  */
  lemma Round1AsWrittenMisroundsNegatives()
    ensures Round1AsWritten(-2.0) == -1.9
    ensures Round1(-2.0) == -2.0
    ensures Round1AsWritten(-2.26) == -2.2
    ensures Round1(-2.26) == -2.3
  {
    assert (19.5).Floor == 19;
    assert (-19.5).Floor == -20;
    assert (22.1).Floor == 22;
    assert (-22.1).Floor == -23;
  }

  /** Just below a tie rounds down and a tie rounds up: 20.849999 becomes 20.8 and 20.85 becomes 20.9. */
  lemma Round1Examples()
    ensures Round1(20.849999) == 20.8
    ensures Round1(20.85) == 20.9
  {
    assert (208.99999).Floor == 208;
    assert (209.0).Floor == 209;
  }
}
