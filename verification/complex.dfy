/**
 * Complex amplitudes (complex_t) with the exact field operations the kernels
 * use, and the left-to-right accumulation `acc += term` that every kernel
 * performs over its parameter samples.
 *
 * Only the ring operations are interpreted; transcendental functions live in
 * the kernels' `Numerics` record and stay uninterpreted.
 */
module Complex {

  datatype Complex = Complex(re: real, im: real)

  const Zero := Complex(0.0, 0.0)

  function Add(a: Complex, b: Complex): Complex {
    Complex(a.re + b.re, a.im + b.im)
  }

  function Sub(a: Complex, b: Complex): Complex {
    Complex(a.re - b.re, a.im - b.im)
  }

  function Mul(a: Complex, b: Complex): Complex {
    Complex(a.re * b.re - a.im * b.im, a.re * b.im + a.im * b.re)
  }

  /** A real factor times a complex value (`complex_t * float_t`). */
  function Scale(k: real, a: Complex): Complex {
    Complex(k * a.re, k * a.im)
  }

  /** `complex_t(-c.imag(), c.real())`, that is i·c. */
  function TimesI(a: Complex): Complex {
    Complex(-a.im, a.re)
  }

  /** std::norm: the squared magnitude, which the serialisers call the intensity. */
  function Norm(a: Complex): (n: real)
    ensures n >= 0.0
  {
    a.re * a.re + a.im * a.im
  }

  /** Both parts are exactly zero (fpclassify == FP_ZERO on each part). */
  predicate IsZero(a: Complex) {
    a.re == 0.0 && a.im == 0.0
  }

  /**
   * The value of `acc` after `acc = 0; for t in s: acc += g(t)`.
   */
  function SumOver<T>(s: seq<T>, g: T -> Complex): Complex {
    if |s| == 0 then Zero else Add(SumOver(s[..|s| - 1], g), g(s[|s| - 1]))
  }

  lemma SumOverSingleton<T>(t: T, g: T -> Complex)
    ensures SumOver([t], g) == g(t)
  {
    assert [t][..0] == [];
  }

  /** Accumulating over a concatenation is accumulating over each part. */
  lemma {:induction false} SumOverAppend<T>(s: seq<T>, u: seq<T>, g: T -> Complex)
    ensures SumOver(s + u, g) == Add(SumOver(s, g), SumOver(u, g))
    decreases |u|
  {
    if |u| == 0 {
      assert s + u == s;
    } else {
      var u' := u[..|u| - 1];
      assert (s + u)[..|s + u| - 1] == s + u';
      assert (s + u)[|s + u| - 1] == u[|u| - 1];
      SumOverAppend(s, u', g);
    }
  }

  /** Summands that agree on the sampled elements give the same sum. */
  lemma {:induction false} SumOverCongruent<T>(s: seq<T>, g: T -> Complex, h: T -> Complex)
    requires forall i :: 0 <= i < |s| ==> g(s[i]) == h(s[i])
    ensures SumOver(s, g) == SumOver(s, h)
    decreases |s|
  {
    if |s| > 0 {
      SumOverCongruent(s[..|s| - 1], g, h);
    }
  }

  /** A sum of pointwise sums is the sum of the two sums. */
  lemma {:induction false} SumOverPointwiseAdd<T>(s: seq<T>, g: T -> Complex, h: T -> Complex, k: T -> Complex)
    requires forall i :: 0 <= i < |s| ==> k(s[i]) == Add(g(s[i]), h(s[i]))
    ensures SumOver(s, k) == Add(SumOver(s, g), SumOver(s, h))
    decreases |s|
  {
    if |s| > 0 {
      SumOverPointwiseAdd(s[..|s| - 1], g, h, k);
    }
  }
}
