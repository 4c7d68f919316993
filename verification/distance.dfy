/**
 * The masked distance metrics the fitting loop compares a simulated pattern
 * with a reference pattern by: `ref`, `data` and `mask` are raw arrays read at
 * indices [0, size), `mask[i]` is an unsigned weight (0 drops the entry), and
 * each metric reports success and leaves its result in the `dist` vector.
 *
 * Arithmetic is exact over `real`; the `double` accumulators and the final
 * cast to `real_t` are not modelled.
 */
module Distance {

  /** A raw pointer argument: null, or a buffer whose elements may be read. */
  datatype Array<T> = Null | Buf(elems: seq<T>)

  function Elems<T>(a: Array<T>): seq<T> {
    if a.Null? then [] else a.elems
  }

  /** Indices [0, n) of `a` may be read; a null pointer only when nothing is read. */
  predicate Readable<T>(a: Array<T>, n: nat) {
    n <= |Elems(a)|
  }

  /** An entry of `dist`: division by a zero sum yields an infinity or NaN, as in IEEE 754. */
  datatype Float = Finite(v: real) | PosInf | NegInf | NaN

  /** IEEE 754 division of two finite values. */
  function Div(x: real, y: real): (r: Float)
    ensures r.Finite? <==> y != 0.0
    ensures y != 0.0 ==> r.v * y == x
  {
    if y != 0.0 then Finite(x / y)
    else if x > 0.0 then PosInf
    else if x < 0.0 then NegInf
    else NaN
  }

  /** fabs */
  function Abs(x: real): (r: real)
    ensures r >= 0.0
    ensures r == x || r == -x
  {
    if x < 0.0 then -x else x
  }

  // ---------------------------------------------------------------------------
  // Reference sums: the value of each accumulator after the first n iterations
  // ---------------------------------------------------------------------------

  /** Σ mask[i]·arr[i] */
  function L1Sum(arr: seq<real>, mask: seq<nat>, n: nat): real
    requires n <= |arr| && n <= |mask|
  {
    if n == 0 then 0.0 else L1Sum(arr, mask, n - 1) + (mask[n - 1] as real) * arr[n - 1]
  }

  /** Σ mask[i]·arr[i]·arr[i]: never negative, so norm_l2 never takes the root of a negative sum. */
  function L2Sum(arr: seq<real>, mask: seq<nat>, n: nat): (r: real)
    requires n <= |arr| && n <= |mask|
    ensures r >= 0.0
  {
    if n == 0 then 0.0
    else
      var term := (mask[n - 1] as real) * arr[n - 1] * arr[n - 1];
      assert term == (mask[n - 1] as real) * (arr[n - 1] * arr[n - 1]);
      L2Sum(arr, mask, n - 1) + term
  }

  /** Σ mask[i]·a[i]·b[i] */
  function DotSum(a: seq<real>, b: seq<real>, mask: seq<nat>, n: nat): real
    requires n <= |a| && n <= |b| && n <= |mask|
  {
    if n == 0 then 0.0 else DotSum(a, b, mask, n - 1) + (mask[n - 1] as real) * a[n - 1] * b[n - 1]
  }

  /** Σ mask[i]·|ref[i] − data[i]| */
  function AbsDiffSum(ref: seq<real>, data: seq<real>, mask: seq<nat>, n: nat): (r: real)
    requires n <= |ref| && n <= |data| && n <= |mask|
    ensures r >= 0.0
  {
    if n == 0 then 0.0
    else AbsDiffSum(ref, data, mask, n - 1) + (mask[n - 1] as real) * Abs(ref[n - 1] - data[n - 1])
  }

  /** Σ (mask[i]·|ref[i] − data[i]|)² */
  function AbsDiffSquareSum(ref: seq<real>, data: seq<real>, mask: seq<nat>, n: nat): (r: real)
    requires n <= |ref| && n <= |data| && n <= |mask|
    ensures r >= 0.0
  {
    if n == 0 then 0.0
    else
      var t := (mask[n - 1] as real) * Abs(ref[n - 1] - data[n - 1]);
      AbsDiffSquareSum(ref, data, mask, n - 1) + t * t
  }

  /** mask[i]·(ref[i] − data[i]) for each i < n. */
  function Residuals(ref: seq<real>, data: seq<real>, mask: seq<nat>, n: nat): seq<real>
    requires n <= |ref| && n <= |data| && n <= |mask|
  {
    seq(n, i requires 0 <= i < n => (mask[i] as real) * (ref[i] - data[i]))
  }

  function SquareSum(s: seq<real>): real {
    if |s| == 0 then 0.0 else SquareSum(s[..|s| - 1]) + s[|s| - 1] * s[|s| - 1]
  }

  // ---------------------------------------------------------------------------
  // DistanceMeasure helpers
  // ---------------------------------------------------------------------------

  /** norm_l1: the masked sum of the entries. */
  method NormL1(arr: Array<real>, mask: Array<nat>, size: nat) returns (sum: real)
    requires Readable(arr, size) && Readable(mask, size)
    ensures sum == L1Sum(Elems(arr), Elems(mask), size)
  {
    sum := 0.0;
    for i := 0 to size
      invariant sum == L1Sum(Elems(arr), Elems(mask), i)
    {
      sum := sum + (Elems(mask)[i] as real) * Elems(arr)[i];
    }
  }

  /** norm_l2: the root (computed by `sqrt`) of the masked sum of squares, which is never negative. */
  method NormL2(arr: Array<real>, mask: Array<nat>, size: nat, sqrt: real -> real)
    returns (norm: real, sum: real)
    requires Readable(arr, size) && Readable(mask, size)
    ensures sum >= 0.0
    ensures sum == L2Sum(Elems(arr), Elems(mask), size)
    ensures norm == sqrt(sum)
  {
    sum := 0.0;
    for i := 0 to size
      invariant sum == L2Sum(Elems(arr), Elems(mask), i)
    {
      sum := sum + (Elems(mask)[i] as real) * Elems(arr)[i] * Elems(arr)[i];
    }
    norm := sqrt(sum);
  }

  /** vec_dot: the masked element-wise product. */
  method VecDot(a: Array<real>, b: Array<real>, mask: Array<nat>, size: nat) returns (sum: real)
    requires Readable(a, size) && Readable(b, size) && Readable(mask, size)
    ensures sum == DotSum(Elems(a), Elems(b), Elems(mask), size)
  {
    sum := 0.0;
    for i := 0 to size
      invariant sum == DotSum(Elems(a), Elems(b), Elems(mask), i)
    {
      sum := sum + (Elems(mask)[i] as real) * Elems(a)[i] * Elems(b)[i];
    }
  }

  lemma {:induction false} VecDotSymmetric(a: seq<real>, b: seq<real>, mask: seq<nat>, n: nat)
    requires n <= |a| && n <= |b| && n <= |mask|
    ensures DotSum(a, b, mask, n) == DotSum(b, a, mask, n)
    decreases n
  {
    if n > 0 {
      VecDotSymmetric(a, b, mask, n - 1);
      var m := mask[n - 1] as real;
      assert m * a[n - 1] * b[n - 1] == m * b[n - 1] * a[n - 1];
    }
  }

  /** vec_dot(a, a, mask) is exactly the sum norm_l2 takes the square root of. */
  lemma {:induction false} VecDotSelfIsL2Sum(a: seq<real>, mask: seq<nat>, n: nat)
    requires n <= |a| && n <= |mask|
    ensures DotSum(a, a, mask, n) == L2Sum(a, mask, n)
    decreases n
  {
    if n > 0 {
      VecDotSelfIsL2Sum(a, mask, n - 1);
    }
  }

  // ---------------------------------------------------------------------------
  // The metrics
  // ---------------------------------------------------------------------------

  /**
   * AbsoluteDifferenceError: fails, leaving `dist` untouched, when ref or data
   * is null; otherwise `dist` becomes the single value Σ mask[i]·|ref[i] − data[i]|.
   */
  method AbsoluteDifferenceError(ref: Array<real>, data: Array<real>, mask: Array<nat>, size: nat, prior: seq<Float>)
    returns (ok: bool, dist: seq<Float>)
    requires ref.Buf? && data.Buf? ==> Readable(ref, size) && Readable(data, size) && Readable(mask, size)
    ensures ok <==> ref.Buf? && data.Buf?
    ensures !ok ==> dist == prior
    ensures ok ==> dist == [Finite(AbsDiffSum(ref.elems, data.elems, Elems(mask), size))]
    ensures ok ==> dist[0].v >= 0.0
  {
    if ref.Null? || data.Null? {
      return false, prior;
    }
    var sum := 0.0;
    for i := 0 to size
      invariant sum == AbsDiffSum(ref.elems, data.elems, Elems(mask), i)
    {
      sum := sum + (Elems(mask)[i] as real) * Abs(ref.elems[i] - data.elems[i]);
    }
    return true, [Finite(sum)];
  }

  /**
   * ResidualVector: no null check; always succeeds and `dist` becomes the
   * `size` masked differences mask[i]·(ref[i] − data[i]).
   */
  method ResidualVector(ref: Array<real>, data: Array<real>, mask: Array<nat>, size: nat)
    returns (ok: bool, dist: seq<Float>)
    requires Readable(ref, size) && Readable(data, size) && Readable(mask, size)
    ensures ok
    ensures |dist| == size
    ensures forall i :: 0 <= i < size ==>
      dist[i] == Finite(Residuals(Elems(ref), Elems(data), Elems(mask), size)[i])
  {
    dist := [];
    for i := 0 to size
      invariant |dist| == i
      invariant forall k :: 0 <= k < i ==>
        dist[k] == Finite(Residuals(Elems(ref), Elems(data), Elems(mask), size)[k])
    {
      dist := dist + [Finite((Elems(mask)[i] as real) * (Elems(ref)[i] - Elems(data)[i]))];
    }
    ok := true;
  }

  /** Swapping ref and data negates every residual. */
  lemma ResidualAntisymmetric(ref: seq<real>, data: seq<real>, mask: seq<nat>, n: nat, i: nat)
    requires n <= |ref| && n <= |data| && n <= |mask| && i < n
    ensures Residuals(data, ref, mask, n)[i] == -Residuals(ref, data, mask, n)[i]
  {
    var m := mask[i] as real;
    assert m * (data[i] - ref[i]) == -(m * (ref[i] - data[i]));
  }

  /** The squares of the residual vector add up to the AbsoluteDifferenceSquare value. */
  lemma {:induction false} ResidualSquaresSum(ref: seq<real>, data: seq<real>, mask: seq<nat>, n: nat)
    requires n <= |ref| && n <= |data| && n <= |mask|
    ensures SquareSum(Residuals(ref, data, mask, n)) == AbsDiffSquareSum(ref, data, mask, n)
    decreases n
  {
    if n > 0 {
      var r := Residuals(ref, data, mask, n);
      assert r[..n - 1] == Residuals(ref, data, mask, n - 1);
      ResidualSquaresSum(ref, data, mask, n - 1);
      var m := mask[n - 1] as real;
      var d := ref[n - 1] - data[n - 1];
      assert (m * Abs(d)) * (m * Abs(d)) == (m * m) * (Abs(d) * Abs(d));
      assert Abs(d) * Abs(d) == d * d;
      assert (m * d) * (m * d) == (m * m) * (d * d);
    }
  }

  /**
   * AbsoluteDifferenceSquare: also rejects a null mask; otherwise `dist`
   * becomes the single value Σ (mask[i]·|ref[i] − data[i]|)².
   */
  method AbsoluteDifferenceSquare(ref: Array<real>, data: Array<real>, mask: Array<nat>, size: nat, prior: seq<Float>)
    returns (ok: bool, dist: seq<Float>)
    requires ref.Buf? && data.Buf? && mask.Buf? ==> Readable(ref, size) && Readable(data, size) && Readable(mask, size)
    ensures ok <==> ref.Buf? && data.Buf? && mask.Buf?
    ensures !ok ==> dist == prior
    ensures ok ==> dist == [Finite(AbsDiffSquareSum(ref.elems, data.elems, mask.elems, size))]
    ensures ok ==> dist[0].v >= 0.0
  {
    if ref.Null? || data.Null? || mask.Null? {
      return false, prior;
    }
    var sum := 0.0;
    for i := 0 to size
      invariant sum == AbsDiffSquareSum(ref.elems, data.elems, mask.elems, i)
    {
      var t := (mask.elems[i] as real) * Abs(ref.elems[i] - data.elems[i]);
      sum := sum + t * t;
    }
    return true, [Finite(sum)];
  }

  /** Identical inputs are at distance zero under both absolute-difference sums. */
  lemma {:induction false} EqualInputsZeroDistance(a: seq<real>, mask: seq<nat>, n: nat)
    requires n <= |a| && n <= |mask|
    ensures AbsDiffSum(a, a, mask, n) == 0.0
    ensures AbsDiffSquareSum(a, a, mask, n) == 0.0
    decreases n
  {
    if n > 0 {
      EqualInputsZeroDistance(a, mask, n - 1);
    }
  }

  /** ref and data agree wherever the mask is nonzero. */
  predicate AgreeOnMask(a: seq<real>, b: seq<real>, mask: seq<nat>, n: nat)
    requires n <= |a| && n <= |b| && n <= |mask|
  {
    forall i :: 0 <= i < n && mask[i] != 0 ==> a[i] == b[i]
  }

  /** Entries where mask[i] == 0 have no effect on any of the masked sums. */
  lemma MaskedEntriesIrrelevant(ref: seq<real>, data: seq<real>, ref': seq<real>, data': seq<real>,
                                                    mask: seq<nat>, n: nat)
    requires n <= |ref| && n <= |data| && n <= |ref'| && n <= |data'| && n <= |mask|
    requires AgreeOnMask(ref, ref', mask, n) && AgreeOnMask(data, data', mask, n)
    ensures AbsDiffSum(ref, data, mask, n) == AbsDiffSum(ref', data', mask, n)
    ensures AbsDiffSquareSum(ref, data, mask, n) == AbsDiffSquareSum(ref', data', mask, n)
    ensures L1Sum(ref, mask, n) == L1Sum(ref', mask, n)
    ensures L2Sum(ref, mask, n) == L2Sum(ref', mask, n)
    ensures DotSum(ref, data, mask, n) == DotSum(ref', data', mask, n)
  {
    MaskedAbsDiff(ref, data, ref', data', mask, n);
    MaskedL1L2Dot(ref, data, ref', data', mask, n);
  }

  lemma {:induction false} MaskedAbsDiff(ref: seq<real>, data: seq<real>, ref': seq<real>, data': seq<real>,
                                         mask: seq<nat>, n: nat)
    requires n <= |ref| && n <= |data| && n <= |ref'| && n <= |data'| && n <= |mask|
    requires AgreeOnMask(ref, ref', mask, n) && AgreeOnMask(data, data', mask, n)
    ensures AbsDiffSum(ref, data, mask, n) == AbsDiffSum(ref', data', mask, n)
    ensures AbsDiffSquareSum(ref, data, mask, n) == AbsDiffSquareSum(ref', data', mask, n)
    decreases n
  {
    if n > 0 {
      var k := n - 1;
      MaskedAbsDiff(ref, data, ref', data', mask, k);
      var m := mask[k] as real;
      var t, t' := m * Abs(ref[k] - data[k]), m * Abs(ref'[k] - data'[k]);
      if mask[k] == 0 {
        assert t == 0.0 && t' == 0.0;
      } else {
        assert ref[k] == ref'[k] && data[k] == data'[k];
      }
      assert t == t';
    }
  }

  lemma {:induction false} MaskedL1L2Dot(ref: seq<real>, data: seq<real>, ref': seq<real>, data': seq<real>,
                                         mask: seq<nat>, n: nat)
    requires n <= |ref| && n <= |data| && n <= |ref'| && n <= |data'| && n <= |mask|
    requires AgreeOnMask(ref, ref', mask, n) && AgreeOnMask(data, data', mask, n)
    ensures L1Sum(ref, mask, n) == L1Sum(ref', mask, n)
    ensures L2Sum(ref, mask, n) == L2Sum(ref', mask, n)
    ensures DotSum(ref, data, mask, n) == DotSum(ref', data', mask, n)
    decreases n
  {
    if n > 0 {
      var k := n - 1;
      MaskedL1L2Dot(ref, data, ref', data', mask, k);
      var m := mask[k] as real;
      if mask[k] == 0 {
        assert m * ref[k] == 0.0 && m * ref'[k] == 0.0;
        assert m * ref[k] * ref[k] == 0.0 && m * ref'[k] * ref'[k] == 0.0;
        assert m * ref[k] * data[k] == 0.0 && m * ref'[k] * data'[k] == 0.0;
      } else {
        assert ref[k] == ref'[k] && data[k] == data'[k];
      }
    }
  }

  // ---------------------------------------------------------------------------
  // ScaledRelativeAbsoluteDifferenceSquare
  // ---------------------------------------------------------------------------

  /**
   * lo and hi bound arr[0] and every masked-in entry among the first `size`,
   * and each is one of those entries.
   */
  predicate IsMinMax(arr: seq<real>, mask: seq<nat>, size: nat, lo: real, hi: real)
    requires 1 <= |arr| && size <= |arr| && size <= |mask|
  {
    && lo <= arr[0] <= hi
    && (forall i :: 0 <= i < size && mask[i] != 0 ==> lo <= arr[i] <= hi)
    && (lo == arr[0] || exists i :: 0 <= i < size && mask[i] != 0 && lo == arr[i])
    && (hi == arr[0] || exists i :: 0 <= i < size && mask[i] != 0 && hi == arr[i])
  }

  /**
   * find_minmax: seeded from arr[0] whatever its mask, then widened by every
   * masked-in entry. The bounds hold for index 0 and every masked-in index,
   * and each bound is one of those entries.
   */
  method FindMinMax(arr: seq<real>, mask: seq<nat>, size: nat) returns (lo: real, hi: real)
    requires 1 <= |arr| && size <= |arr| && size <= |mask|
    ensures IsMinMax(arr, mask, size, lo, hi)
  {
    lo, hi := arr[0], arr[0];
    for i := 0 to size
      invariant lo <= arr[0] <= hi
      invariant forall k :: 0 <= k < i && mask[k] != 0 ==> lo <= arr[k] <= hi
      invariant lo == arr[0] || exists k :: 0 <= k < i && mask[k] != 0 && lo == arr[k]
      invariant hi == arr[0] || exists k :: 0 <= k < i && mask[k] != 0 && hi == arr[k]
    {
      if mask[i] == 0 {
        continue;
      }
      if arr[i] < lo {
        lo := arr[i];
      }
      if arr[i] > hi {
        hi := arr[i];
      }
    }
  }

  /** A range below `tiny` is replaced by exactly 1.0, so the divisor is always positive. */
  function SafeRange(lo: real, hi: real, tiny: real): (r: real)
    requires tiny > 0.0
    ensures r > 0.0
    ensures r == hi - lo || r == 1.0
    ensures hi - lo >= tiny ==> r == hi - lo
    ensures hi - lo < tiny ==> r == 1.0
  {
    if hi - lo < tiny then 1.0 else hi - lo
  }

  /** Σ (mask[i]·|(ref[i] − refMin)/refRange − (dat[i] − datMin)/datRange|)² */
  function ScaledSquareSum(ref: seq<real>, dat: seq<real>, mask: seq<nat>, n: nat,
                           refMin: real, refRange: real, datMin: real, datRange: real): (r: real)
    requires n <= |ref| && n <= |dat| && n <= |mask|
    requires refRange > 0.0 && datRange > 0.0
    ensures r >= 0.0
  {
    if n == 0 then 0.0
    else
      var t := (mask[n - 1] as real) * Abs((ref[n - 1] - refMin) / refRange - (dat[n - 1] - datMin) / datRange);
      ScaledSquareSum(ref, dat, mask, n - 1, refMin, refRange, datMin, datRange) + t * t
  }

  lemma {:induction false} ScaledSquareSumOfEqual(a: seq<real>, mask: seq<nat>, n: nat, lo: real, range: real)
    requires n <= |a| && n <= |mask| && range > 0.0
    ensures ScaledSquareSum(a, a, mask, n, lo, range, lo, range) == 0.0
    decreases n
  {
    if n > 0 {
      ScaledSquareSumOfEqual(a, mask, n - 1, lo, range);
    }
  }

  /**
   * Unlike the other masked sums, the scaled one can depend on a masked-out
   * entry: find_minmax seeds its bounds from arr[0] whatever mask[0] says.
   * With mask [0, 1] and data [0, 1], changing the masked-out ref[0] from 0 to
   * 5 moves ref's bounds from [0, 1] to [1, 5] and the sum from 0 to 1.
   */
  lemma ScaledSumSeesMaskedSeed(tiny: real)
    requires 0.0 < tiny <= 1.0
    ensures IsMinMax([0.0, 1.0], [0, 1], 2, 0.0, 1.0)
    ensures IsMinMax([5.0, 1.0], [0, 1], 2, 1.0, 5.0)
    ensures ScaledSquareSum([0.0, 1.0], [0.0, 1.0], [0, 1], 2,
                            0.0, SafeRange(0.0, 1.0, tiny), 0.0, SafeRange(0.0, 1.0, tiny)) == 0.0
    ensures ScaledSquareSum([5.0, 1.0], [0.0, 1.0], [0, 1], 2,
                            1.0, SafeRange(1.0, 5.0, tiny), 0.0, SafeRange(0.0, 1.0, tiny)) == 1.0
  {
    assert IsMinMax([5.0, 1.0], [0, 1], 2, 1.0, 5.0) by {
      var a, m := [5.0, 1.0], [0, 1];
      assert m[1] != 0 && a[1] == 1.0;
    }
    var ref, dat, m := [5.0, 1.0], [0.0, 1.0], [0, 1];
    assert SafeRange(1.0, 5.0, tiny) == 4.0 && SafeRange(0.0, 1.0, tiny) == 1.0;
    assert ScaledSquareSum(ref, dat, m, 1, 1.0, 4.0, 0.0, 1.0) == 0.0;
    assert Abs((ref[1] - 1.0) / 4.0 - (dat[1] - 0.0) / 1.0) == 1.0;
  }

  /**
   * ScaledRelativeAbsoluteDifferenceSquare: fails on a null ref or data; else
   * each array is min/max scaled over its masked-in entries (with the range
   * fallback `tiny`, the library's TINY_) and `dist` becomes the single sum of
   * squared masked differences, which is never negative and is zero when ref
   * and data are the same array.
   */
  method ScaledRelativeAbsoluteDifferenceSquare(ref: Array<real>, dat: Array<real>, mask: Array<nat>, size: nat,
                                                tiny: real, prior: seq<Float>)
    returns (ok: bool, dist: seq<Float>)
    requires tiny > 0.0
    requires ref.Buf? && dat.Buf? ==>
      1 <= |ref.elems| && 1 <= |dat.elems| && Readable(ref, size) && Readable(dat, size) && Readable(mask, size)
    ensures ok <==> ref.Buf? && dat.Buf?
    ensures !ok ==> dist == prior
    ensures ok ==> |dist| == 1 && dist[0].Finite? && dist[0].v >= 0.0
    ensures ok ==> exists refMin, refMax, datMin, datMax ::
      && IsMinMax(ref.elems, Elems(mask), size, refMin, refMax)
      && IsMinMax(dat.elems, Elems(mask), size, datMin, datMax)
      && dist == [Finite(ScaledSquareSum(ref.elems, dat.elems, Elems(mask), size,
                                         refMin, SafeRange(refMin, refMax, tiny), datMin, SafeRange(datMin, datMax, tiny)))]
    ensures ok && ref == dat ==> dist == [Finite(0.0)]
  {
    if ref.Null? || dat.Null? {
      return false, prior;
    }
    var m := Elems(mask);
    var refMin, refMax := FindMinMax(ref.elems, m, size);
    var datMin, datMax := FindMinMax(dat.elems, m, size);
    var refRange := SafeRange(refMin, refMax, tiny);
    var datRange := SafeRange(datMin, datMax, tiny);
    var sum := AccumulateScaled(ref.elems, dat.elems, m, size, refMin, refRange, datMin, datRange);
    if ref == dat {
      SameBounds(ref.elems, m, size, refMin, datMin, refMax, datMax);
      ScaledSquareSumOfEqual(ref.elems, m, size, refMin, refRange);
    }
    return true, [Finite(sum)];
  }

  /** The accumulation loop of ScaledRelativeAbsoluteDifferenceSquare. */
  method AccumulateScaled(ref: seq<real>, dat: seq<real>, mask: seq<nat>, size: nat,
                          refMin: real, refRange: real, datMin: real, datRange: real) returns (sum: real)
    requires size <= |ref| && size <= |dat| && size <= |mask|
    requires refRange > 0.0 && datRange > 0.0
    ensures sum == ScaledSquareSum(ref, dat, mask, size, refMin, refRange, datMin, datRange)
  {
    sum := 0.0;
    for i := 0 to size
      invariant sum == ScaledSquareSum(ref, dat, mask, i, refMin, refRange, datMin, datRange)
    {
      var scaledRef := (ref[i] - refMin) / refRange;
      var scaledDat := (dat[i] - datMin) / datRange;
      var t := (mask[i] as real) * Abs(scaledRef - scaledDat);
      sum := sum + t * t;
    }
  }

  /** The bounds are determined by the array and mask: find_minmax's contract has one solution. */
  lemma SameBounds(arr: seq<real>, mask: seq<nat>, size: nat, lo1: real, lo2: real, hi1: real, hi2: real)
    requires 1 <= |arr| && size <= |arr| && size <= |mask|
    requires IsMinMax(arr, mask, size, lo1, hi1) && IsMinMax(arr, mask, size, lo2, hi2)
    ensures lo1 == lo2 && hi1 == hi2
  {
  }

  // ---------------------------------------------------------------------------
  // AbsoluteDifferenceNorm
  // ---------------------------------------------------------------------------

  /**
   * AbsoluteDifferenceNorm: fails on a null ref or data; otherwise `dist`
   * becomes Σ mask[i]·|ref[i] − data[i]| divided by Σ mask[i]·ref[i], with no
   * guard on that denominator.
   */
  method AbsoluteDifferenceNorm(ref: Array<real>, data: Array<real>, mask: Array<nat>, size: nat, prior: seq<Float>)
    returns (ok: bool, dist: seq<Float>)
    requires ref.Buf? && data.Buf? ==> Readable(ref, size) && Readable(data, size) && Readable(mask, size)
    ensures ok <==> ref.Buf? && data.Buf?
    ensures !ok ==> dist == prior
    ensures ok ==> dist == [Div(AbsDiffSum(ref.elems, data.elems, Elems(mask), size), L1Sum(ref.elems, Elems(mask), size))]
  {
    if ref.Null? || data.Null? {
      return false, prior;
    }
    var distSum := 0.0;
    var refSum := 0.0;
    for i := 0 to size
      invariant distSum == AbsDiffSum(ref.elems, data.elems, Elems(mask), i)
      invariant refSum == L1Sum(ref.elems, Elems(mask), i)
    {
      distSum := distSum + (Elems(mask)[i] as real) * Abs(ref.elems[i] - data.elems[i]);
      refSum := refSum + (Elems(mask)[i] as real) * ref.elems[i];
    }
    return true, [Div(distSum, refSum)];
  }

  /**
   * The normalised value is finite exactly when the masked reference sum is
   * nonzero; when it is zero the result is +inf if the arrays differ on some
   * masked-in entry and NaN otherwise, never a finite number.
   */
  lemma NormalisedZeroDenominator(ref: seq<real>, data: seq<real>, mask: seq<nat>, n: nat)
    requires n <= |ref| && n <= |data| && n <= |mask|
    requires L1Sum(ref, mask, n) == 0.0
    ensures Div(AbsDiffSum(ref, data, mask, n), L1Sum(ref, mask, n)) == (if AgreeOnMask(ref, data, mask, n) then NaN else PosInf)
  {
    if AgreeOnMask(ref, data, mask, n) {
      MaskedEntriesIrrelevant(ref, data, ref, ref, mask, n);
      EqualInputsZeroDistance(ref, mask, n);
    } else {
      var i :| 0 <= i < n && mask[i] != 0 && ref[i] != data[i];
      AbsDiffSumPositive(ref, data, mask, n, i);
    }
  }

  /** One masked-in entry where the arrays differ makes the absolute-difference sum positive. */
  lemma {:induction false} AbsDiffSumPositive(ref: seq<real>, data: seq<real>, mask: seq<nat>, n: nat, i: nat)
    requires n <= |ref| && n <= |data| && n <= |mask|
    requires i < n && mask[i] != 0 && ref[i] != data[i]
    ensures AbsDiffSum(ref, data, mask, n) > 0.0
    decreases n
  {
    var last := (mask[n - 1] as real) * Abs(ref[n - 1] - data[n - 1]);
    assert AbsDiffSum(ref, data, mask, n) == AbsDiffSum(ref, data, mask, n - 1) + last;
    assert last >= 0.0 by { PositiveProduct(mask[n - 1] as real, Abs(ref[n - 1] - data[n - 1])); }
    if i < n - 1 {
      AbsDiffSumPositive(ref, data, mask, n - 1, i);
    } else {
      assert last > 0.0 by { PositiveProduct(mask[i] as real, Abs(ref[i] - data[i])); }
    }
  }

  lemma PositiveProduct(a: real, b: real)
    requires a >= 0.0 && b >= 0.0
    ensures a * b >= 0.0
    ensures a > 0.0 && b > 0.0 ==> a * b > 0.0
  {
  }
}
