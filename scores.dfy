/** Score arithmetic: Python's `round(x, ndigits)`, clamping, and the
    normalisation of correctness scores. Floats are modelled as exact reals. */
module Scores {

  function Pow10(n: nat): (r: real)
    ensures r >= 1.0
  {
    if n == 0 then 1.0 else 10.0 * Pow10(n - 1)
  }

  /** Round half to even (Python's `round` on a real number, to an integer). */
  function RoundHalfEven(y: real): (r: int)
    ensures y - 0.5 <= r as real <= y + 0.5
  {
    var n := y.Floor;
    var f := y - n as real;
    if f < 0.5 then n
    else if f > 0.5 then n + 1
    else if n % 2 == 0 then n
    else n + 1
  }

  /** `round(x, ndigits)`. */
  function Round(x: real, ndigits: nat): real
  {
    RoundAt(x, Pow10(ndigits))
  }

  /** Rounding to the nearest multiple of `1 / scale`, ties to even. */
  function RoundAt(x: real, scale: real): real
    requires scale > 0.0
  {
    RoundHalfEven(x * scale) as real / scale
  }

  /** `max(lo, min(x, hi))`. */
  function Clamp(x: real, lo: real, hi: real): (r: real)
    requires lo <= hi
    ensures lo <= r <= hi
    ensures lo <= x <= hi ==> r == x
  {
    if x < lo then lo else if x > hi then hi else x
  }

  lemma RoundHalfEvenMonotone(x: real, y: real)
    requires x <= y
    ensures RoundHalfEven(x) <= RoundHalfEven(y)
  {
    var nx, ny := x.Floor, y.Floor;
    if nx < ny {
      assert RoundHalfEven(x) <= nx + 1 <= ny <= RoundHalfEven(y);
    }
  }

  lemma RoundHalfEvenOfInt(k: int)
    ensures RoundHalfEven(k as real) == k
  {
    assert (k as real).Floor == k;
  }

  /** Rounding never moves a value by more than half a unit in the last place. */
  lemma RoundError(x: real, ndigits: nat)
    ensures x - 0.5 / Pow10(ndigits) <= Round(x, ndigits) <= x + 0.5 / Pow10(ndigits)
  {
    RoundAtError(x, Pow10(ndigits));
  }

  lemma RoundAtError(x: real, p: real)
    requires p > 0.0
    ensures x - 0.5 / p <= RoundAt(x, p) <= x + 0.5 / p
  {
    var y := x * p;
    var k := RoundHalfEven(y);
    DivMono(y - 0.5, k as real, p);
    DivMono(k as real, y + 0.5, p);
    DivSub(y, 0.5, p);
    DivSub(y, -0.5, p);
    MulDivCancel(x, p);
  }

  /** `round` is monotone: it never swaps the order of two values. */
  lemma RoundMonotone(x: real, y: real, ndigits: nat)
    requires x <= y
    ensures Round(x, ndigits) <= Round(y, ndigits)
  {
    RoundAtMonotone(x, y, Pow10(ndigits));
  }

  lemma RoundAtMonotone(x: real, y: real, p: real)
    requires x <= y && p > 0.0
    ensures RoundAt(x, p) <= RoundAt(y, p)
  {
    MulMono(x, y, p);
    RoundHalfEvenMonotone(x * p, y * p);
    DivMono(RoundHalfEven(x * p) as real, RoundHalfEven(y * p) as real, p);
  }

  /** A number with at most `ndigits` decimals is left as it is. */
  lemma RoundAtGridPoint(k: int, p: real)
    requires p > 0.0
    ensures RoundAt(k as real / p, p) == k as real / p
  {
    var x := k as real / p;
    DivMulCancel(k as real, p);
    RoundHalfEvenCongruent(x * p, k as real);
    RoundHalfEvenOfInt(k);
    RoundAtUnits(x, p, k);
  }

  lemma DivCongruent(a: real, b: real, p: real)
    requires a == b && p > 0.0
    ensures a / p == b / p
  {
  }

  lemma RoundAtUnits(x: real, p: real, k: int)
    requires p > 0.0 && RoundHalfEven(x * p) == k
    ensures RoundAt(x, p) == k as real / p
  {
  }

  lemma RoundHalfEvenCongruent(a: real, b: real)
    requires a == b
    ensures RoundHalfEven(a) == RoundHalfEven(b)
  {
  }

  /** Rounding twice is rounding once. */
  lemma RoundIdempotent(x: real, ndigits: nat)
    ensures Round(Round(x, ndigits), ndigits) == Round(x, ndigits)
  {
    var p := Pow10(ndigits);
    var k := RoundHalfEven(x * p);
    RoundAtUnits(x, p, k);
    RoundAtGridPoint(k, p);
    assert Round(x, ndigits) == RoundAt(x, p) == k as real / p;
  }

  /** An integer is left as it is. */
  lemma RoundOfInt(k: int, ndigits: nat)
    ensures Round(k as real, ndigits) == k as real
  {
    var p := Pow10(ndigits);
    var m := ScaledInt(k, ndigits);
    MulDivCancel(k as real, p);
    DivCongruent(m as real, k as real * p, p);
    RoundAtGridPoint(m, p);
  }

  /** `k * 10^n` is an integer. */
  lemma ScaledInt(k: int, ndigits: nat) returns (m: int)
    ensures m as real == k as real * Pow10(ndigits)
  {
    if ndigits == 0 {
      m := k;
    } else {
      var q := Pow10(ndigits - 1);
      var m' := ScaledInt(k, ndigits - 1);
      m := 10 * m';
      MulAssoc(k as real, 10.0, q);
    }
  }

  lemma MulAssoc(a: real, b: real, c: real)
    ensures a * (b * c) == b * (a * c)
  {
  }

  /** Rounding keeps a value inside any interval whose ends are integers. */
  lemma RoundWithin(x: real, lo: int, hi: int, ndigits: nat)
    requires lo as real <= x <= hi as real
    ensures lo as real <= Round(x, ndigits) <= hi as real
  {
    RoundMonotone(lo as real, x, ndigits);
    RoundMonotone(x, hi as real, ndigits);
    RoundOfInt(lo, ndigits);
    RoundOfInt(hi, ndigits);
  }

  lemma MulMono(x: real, y: real, p: real)
    requires x <= y && p > 0.0
    ensures x * p <= y * p
  {
  }

  lemma DivMono(x: real, y: real, p: real)
    requires x <= y && p > 0.0
    ensures x / p <= y / p
  {
  }

  lemma DivMulCancel(k: real, p: real)
    requires p > 0.0
    ensures (k / p) * p == k
  {
  }

  lemma MulDivCancel(k: real, p: real)
    requires p > 0.0
    ensures (k * p) / p == k
  {
  }

  lemma DivSub(a: real, b: real, p: real)
    requires p > 0.0
    ensures (a - b) / p == a / p - b / p
  {
  }
}
