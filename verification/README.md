# HipGISAXS form-factor core and distance metrics in Dafny

HipGISAXS simulates grazing-incidence small-angle X-ray scattering. Part of
the simulation is the form factor of a nano-particle shape, evaluated at every
point of a `nqx × nqy × nqz` grid of momentum transfers. This project models
three parts of the code:

- **The analytic shape kernels for box, cylinder and sphere**
  (`AnalyticFormFactor::compute_box`, `compute_cylinder`, `compute_sphere`).
  Each kernel does three things:
  - It scans the shape-parameter list and sorts every entry by role. An entry
    can feed one or more sample vectors, be skipped as invalid, be ignored with
    a warning, or abort the kernel.
  - It checks that every required role received samples.
  - It fills a dense field through the linear index `nqx·nqy·z + nqx·y + x`.
    Each grid point holds a weighted sum over the Cartesian product of the
    sample vectors, times a phase factor that does not depend on the samples.
- **The `FormFactor` object.** This covers `clear` and the
  `compute_form_factor` dispatch between the analytic and numeric engines. It
  also covers the text layouts of `read_form_factor`, `print_ff`, `save` and
  `save_ff`.
- **The masked distance metrics** that the fitting loop uses to compare a
  simulated pattern with a reference. These are the `DistanceMeasure` helpers
  `norm_l1`, `norm_l2` and `vec_dot`, and the metrics
  `AbsoluteDifferenceError`, `ResidualVector`, `AbsoluteDifferenceSquare`,
  `ScaledRelativeAbsoluteDifferenceSquare` (with `find_minmax` and its range
  fallback) and `AbsoluteDifferenceNorm`.

Modules:

| module | file | contents |
|---|---|---|
| `Complex` | complex.dfy | `complex_t` as an exact pair of reals, and the accumulation `acc += term` as `SumOver` |
| `Grid` | grid.dfy | the linear index and its inverse; the z/y/x write order; the grid fill loop `FillGrid` |
| `ShapeParams` | shape_params.dfy | shape parameters; the three role switches as one table-driven scan; the required-role check |
| `Kernels` | kernels.dfy | the per-term formulas of box, cylinder and sphere, the sample sums, and the three kernel methods |
| `FormFactors` | form_factor.dfy | the `FormFactor` state, `clear`, and `compute_form_factor` |
| `Layout` | layout.dfy | the token layouts written by `print_ff`, `save` and `save_ff`, and the reader loop `read_form_factor` |
| `Distance` | distance.dfy | the masked sums as recursive reference functions, the loops that compute them, and the metrics |

Modelling decisions:

- **Transcendental functions are uninterpreted.** This covers `sinc`,
  `fq_inv`, `cbessj`, complex `sqrt`/`exp`/`sin`/`cos`, complex division,
  real `sin`/`cos`/`tan`, `PI_` and `compute_meshpoints`. All of them are
  fields of a `Numerics` record that the kernels take as a parameter. The
  contracts therefore hold for every choice of these functions.
- **`param_distribution` is a `Resolver` parameter.** It maps a parameter and
  the current sample vector to the new one. A value and its weight are one
  `Sample`, so the value and weight vectors always have the same length.
- **Text output is a sequence of lines of tokens.** A token is a number or a
  separator character. How a number is printed as digits is not modelled.
  The reader `ReadWords` splits on spaces. Two numbers with no separator
  between them make the line unreadable.
- **Raw pointers are `Array<T>`.** An `Array<T>` is either `Null` or a buffer.
  An entry of `dist` is an IEEE value (`Finite`, `PosInf`, `NegInf`, `NaN`),
  because `AbsoluteDifferenceNorm` can divide by a zero sum.
- **Behaviour of the code the model keeps.**
  - The cylinder's small-argument guard tests for an exact zero of both parts
    of `q_par`.
  - The sphere kernel has no guard at `q = 0`. There its ratio is the
    division `sin(0)/0` (`Kernels.SphereOriginUnguarded`); no limit value is
    substituted.
  - `save_ff` writes the intensities of a row with no separator between them
    (see Findings).

## Model

| member | source | states |
|---|---|---|
| Grid.IndexBijective | src/ff/ff_ana_box.cpp:106-147 | Distinct grid points get distinct slots, and every slot below `nqx·nqy·nqz` is the index of some grid point. |
| Grid.DecodeIndex | src/ff/ff_ana_box.cpp:147-147 | Decoding a point's linear index gives back the point. |
| Grid.WriteOrderCoversEachSlotOnce | src/ff/ff_ana_cylinder.cpp:96-122 | The slots written by the z/y/x loop nest, in order, are exactly 0, 1, …, `nqx·nqy·nqz − 1`, so each slot is written once. |
| Grid.FillGrid | src/ff/ff_ana_box.cpp:102-148 | After pre-filling zeros and running the loops, the field has `nqx·nqy·nqz` entries and slot `Index(p)` holds the value computed at point p. |
| ShapeParams.BoxSkipsInvalid | src/ff/ff_ana_box.cpp:48-51 | A box parameter whose validity flag is false only adds a warning; no sample vector changes. |
| ShapeParams.BoxRouting | src/ff/ff_ana_box.cpp:52-73 | A valid edge feeds x, y and height; x-size, y-size and height each feed only their own vector; radius, base angle and unknown types change nothing. |
| ShapeParams.BoxNeverRejects | src/ff/ff_ana_box.cpp:67-74 | The box scan never aborts, whatever the parameter types. |
| ShapeParams.BoxReadyIff | src/ff/ff_ana_box.cpp:78-81 | With a distribution that yields samples, box proceeds iff there is a valid edge, or a valid x-size, y-size and height. |
| ShapeParams.InertParamChangesNothing | src/ff/ff_ana_box.cpp:47-75 | Inserting a skipped or ignored parameter anywhere in the list leaves the scan's outcome and sample vectors unchanged, for every kernel. |
| ShapeParams.RejectedIff | src/ff/ff_ana_cylinder.cpp:44-66 | A scan aborts iff some counted parameter has a type the kernel rejects. |
| ShapeParams.RoleFilledIff | src/ff/ff_ana_cylinder.cpp:56-71 | After a scan that did not abort, a role's vector is non-empty iff some counted parameter feeds that role. |
| ShapeParams.CylinderIgnoresUnwanted | src/ff/ff_ana_cylinder.cpp:45-55 | For the cylinder, an invalid parameter and a valid edge, x-size, y-size or base angle can be removed without changing the outcome. |
| ShapeParams.CylinderRejectsUnknown | src/ff/ff_ana_cylinder.cpp:62-64 | A valid parameter of unknown type anywhere in the list makes the cylinder fail. |
| ShapeParams.CylinderReadyIff | src/ff/ff_ana_cylinder.cpp:44-71 | The cylinder proceeds iff no valid unknown type appears, and a valid height and a valid radius appear. |
| ShapeParams.SphereConsumesAnyRadius | src/ff_ana_sphere.cpp:30-41 | The sphere feeds a radius entry to r whether or not its validity flag is set. |
| ShapeParams.SphereIgnoresUnwanted | src/ff_ana_sphere.cpp:32-38 | Edge, x-size, y-size, height and base-angle entries can be removed without changing the sphere's outcome. |
| ShapeParams.SphereRejectsUnknown | src/ff_ana_sphere.cpp:42-44 | An unknown parameter type anywhere makes the sphere fail, valid or not. |
| ShapeParams.SphereReadyIff | src/ff_ana_sphere.cpp:30-51 | The sphere proceeds iff no unknown type appears and some radius entry appears. |
| Kernels.ComputeBox | src/ff/ff_ana_box.cpp:39-165 | Returns true iff the scan left x, y and z non-empty; on false the field is untouched; on true it has `nqx·nqy·nqz` entries and each slot holds the triple sum times the phase at its grid point. |
| Kernels.BoxSingleSample | src/ff/ff_ana_box.cpp:116-140 | One sample of weight 1 per dimension gives the single term `4·x·y·sinc(mqx·x)·sinc(mqy·y)·fq_inv(qm, h)`. |
| Kernels.BoxAmplitudeAdditive | src/ff/ff_ana_box.cpp:117-131 | Splitting the x, y or height samples into two parts splits the amplitude into the sum of the two parts' amplitudes. |
| Kernels.ComputeCylinder | src/ff/ff_ana_cylinder.cpp:40-134 | Returns true iff the scan did not abort and h and r are non-empty; on false the field is untouched; on true every slot holds the r×h sum times the phase. |
| Kernels.CylinderAxisNoDivision | src/ff/ff_ana_cylinder.cpp:110-115 | When both parts of `q_par` are zero the Bessel ratio is exactly 0.5 and does not depend on `cbessj` or the division. |
| Kernels.CylinderAxisLimit | src/ff/ff_ana_cylinder.cpp:105-119 | At `q_par = 0` each cylinder term reduces to `w_r·w_h·π·r²·fq_inv(qm, h)`. |
| Kernels.CylinderSingleSample | src/ff/ff_ana_cylinder.cpp:105-119 | One radius and one height sample of weight 1 give the single term `2π·r²·ratio·fq_inv(qm, h)`. |
| Kernels.CylinderAmplitudeAdditive | src/ff/ff_ana_cylinder.cpp:105-119 | The cylinder amplitude is additive in the radius samples and in the height samples. |
| Kernels.ComputeSphere | src/ff_ana_sphere.cpp:27-104 | Returns true iff the scan did not abort and r is non-empty; on false the field is untouched; on true every slot holds the radius sum times the phase. |
| Kernels.SphereOriginUnguarded | src/ff_ana_sphere.cpp:84-88 | At q = 0 the sphere ratio is `sin(0)/0`: the code divides by zero rather than using a limit. |
| Kernels.SphereSingleSample | src/ff_ana_sphere.cpp:83-89 | One radius sample of weight 1 gives `4π·r³·ratio·exp(i·mqz·r)`. |
| Kernels.SphereAmplitudeAdditive | src/ff_ana_sphere.cpp:83-89 | The sphere amplitude is additive in the radius samples. |
| FormFactors.ClearForgets | src/ff/ff.cpp:30-35 | After `clear`, `ff_` is empty and `is_analytic_` is false whatever the previous state; each engine's cleared state depends only on that engine's previous state. |
| FormFactors.ComputeFormFactor | src/ff/ff.cpp:38-67 | Always reports true. The analytic flag is set iff the shape is not custom. Only the chosen engine runs: its `init` gets the rotation and `ff_`, and its `compute` starts from the engine state and field that `init` left. The engine state and field that `compute` returns become the result. The other engine is kept. |
| FormFactors.ComputeFieldFromChosenEngine | src/ff/ff.cpp:46-65 | The previous flag has no effect, and the field is exactly what the chosen engine's `init` then `compute` wrote. |
| FormFactors.FailureDiscarded | src/ff/ff.cpp:59-66 | A failing analytic kernel, after `init`, still yields true and the analytic flag. |
| Layout.ReadFormFactor | src/ff/ff.cpp:72-88 | Reports true, keeps the engines and flag, and leaves `nqx·nqy·nqz` entries; the pair read k-th in z/y/x order lands at slot `Index(p) = k`. |
| Layout.ReadInterleaved | src/ff/ff.cpp:76-84 | Reading back a stream of interleaved (re, im) pairs of a full field gives the field back. |
| Layout.PrintFFLayout | src/ff/ff.cpp:91-102 | Writes `nqz·(nqy+1)` lines; line `z·(nqy+1)+y` holds `re , im \t` for each x, with point p at token `4·x`; every z block ends with a blank line. |
| Layout.SaveLayout | src/ff/ff.cpp:105-112 | Writes `nrow` lines of `ncol` (intensity, space) pairs; token (i, j) is `norm(ff[i·ncol + j])`. |
| Layout.SaveIsFirstPlane | src/ff/ff.cpp:107-110 | `save(nqy, nqx)` lays out the z = 0 plane, with point (x, y) at row y, column x. |
| Layout.SaveFFLayout | src/ff/ff.cpp:114-130 | Writes `nqz` lines; each has `nqy` groups of `nqx` intensities followed by one space, with point p at position `y·(nqx+1)+x`. |
| Layout.SaveFFUnreadable | src/ff/ff.cpp:119-125 | When `nqx ≥ 2` and `nqy ≥ 1`, no line written by `save_ff` splits into numbers, because adjacent intensities have no separator. |
| Layout.SaveFFSpacedRoundTrip | src/ff/ff.cpp:117-128 | With a space after every intensity, reading line z back gives exactly the plane's intensities in row-major order. |
| Layout.PlaneIntensitiesInSlotOrder | src/ff/ff.cpp:118-122 | In the plane's intensity list, position `y·nqx + x` holds `norm(ff[Index(x, y, z)])`. |
| Distance.L2Sum | include/analyzer/distance_functions.hpp:41-45 | The masked sum of squares under `norm_l2`'s root is never negative. |
| Distance.AbsDiffSum | include/analyzer/distance_functions.hpp:67-70 | The masked sum of absolute differences is never negative. |
| Distance.NormL1 | include/analyzer/distance_functions.hpp:34-38 | The loop computes the masked sum `Σ mask[i]·arr[i]`. |
| Distance.NormL2 | include/analyzer/distance_functions.hpp:41-45 | The loop computes `Σ mask[i]·arr[i]²`, which is non-negative, and returns its square root. |
| Distance.VecDot | include/analyzer/distance_functions.hpp:48-52 | The loop computes `Σ mask[i]·a[i]·b[i]`. |
| Distance.VecDotSymmetric | include/analyzer/distance_functions.hpp:48-52 | `vec_dot(a, b)` equals `vec_dot(b, a)`. |
| Distance.VecDotSelfIsL2Sum | include/analyzer/distance_functions.hpp:41-52 | `vec_dot(a, a)` equals the sum under `norm_l2`'s root. |
| Distance.AbsoluteDifferenceError | include/analyzer/distance_functions.hpp:63-74 | Succeeds iff ref and data are non-null; on failure `dist` is untouched; on success `dist` is the one non-negative value `Σ mask[i]·|ref[i] − data[i]|`. |
| Distance.EqualInputsZeroDistance | include/analyzer/distance_functions.hpp:67-70 | Identical ref and data give 0 for the absolute and the squared difference sums. |
| Distance.MaskedEntriesIrrelevant | include/analyzer/distance_functions.hpp:126-127 | Changing ref or data where `mask[i] = 0` changes none of the five unscaled masked sums. The scaled sum is the exception (`Distance.ScaledSumSeesMaskedSeed`). |
| Distance.ScaledSumSeesMaskedSeed | include/analyzer/distance_functions.hpp:161-170 | The scaled sum can depend on a masked-out entry, because `find_minmax` seeds its bounds from `arr[0]`. With mask [0, 1] and data [0, 1], ref [0, 1] has bounds [0, 1] and sum 0, while ref [5, 1] has bounds [1, 5] and sum 1. |
| Distance.AbsDiffSumPositive | include/analyzer/distance_functions.hpp:68-70 | One unmasked position where ref and data differ makes the absolute difference sum positive. |
| Distance.ResidualVector | include/analyzer/distance_functions.hpp:84-92 | Always succeeds with no null check; `dist` has `size` entries with `dist[i] = mask[i]·(ref[i] − data[i])`. |
| Distance.ResidualAntisymmetric | include/analyzer/distance_functions.hpp:87-91 | Swapping ref and data negates every residual. |
| Distance.ResidualSquaresSum | include/analyzer/distance_functions.hpp:89-127 | The squares of the residuals sum to the `AbsoluteDifferenceSquare` value. |
| Distance.AbsoluteDifferenceSquare | include/analyzer/distance_functions.hpp:120-132 | Succeeds iff ref, data and mask are all non-null; on failure `dist` is untouched; on success `dist` is the one non-negative value `Σ (mask[i]·|ref[i] − data[i]|)²`. |
| Distance.FindMinMax | include/analyzer/distance_functions.hpp:161-170 | The bounds are attained at index 0 or at a masked-in index, and enclose `arr[0]` and every masked-in entry. |
| Distance.SameBounds | include/analyzer/distance_functions.hpp:163-168 | These bound properties determine the minimum and maximum uniquely. |
| Distance.SafeRange | include/analyzer/distance_functions.hpp:184-187 | The divisor is positive; it is the range when the range is at least the threshold, and 1.0 otherwise. |
| Distance.ScaledRelativeAbsoluteDifferenceSquare | include/analyzer/distance_functions.hpp:176-199 | Succeeds iff ref and dat are non-null; on failure `dist` is untouched; on success `dist` is one non-negative value: the masked sum of squared differences after scaling each array by its masked min and by its range, or by 1.0 when the range is below the threshold; it is 0 when ref equals dat. |
| Distance.ScaledSquareSumOfEqual | include/analyzer/distance_functions.hpp:189-194 | Equal inputs scaled by equal bounds give a zero sum. |
| Distance.AbsoluteDifferenceNorm | include/analyzer/distance_functions.hpp:438-453 | Succeeds iff ref and data are non-null; on success `dist` is the absolute difference sum divided, IEEE-style, by `Σ mask[i]·ref[i]`. |
| Distance.NormalisedZeroDenominator | include/analyzer/distance_functions.hpp:442-448 | When `Σ mask[i]·ref[i] = 0`, the result is NaN if ref and data agree on the mask and +∞ otherwise. |

## Left out

- The GPU (`FF_ANA_GPU`), OpenMP and MPI paths, the timers and the console messages are left out. Warnings appear only as a list of warning kinds.
- The transcendental functions, `PI_`, `compute_meshpoints` and `QGrid::instance()` are uninterpreted parameters. No physical limit of `sinc`, `fq_inv` or `cbessj` is assumed.
- `param_distribution` is an opaque parameter. The lemmas relating the scan to the presence of parameters (`ShapeParams.RoleFilledIff`, `BoxReadyIff`, `CylinderReadyIff`, `SphereReadyIff`) assume that it always yields at least one sample. Whether it appends or overwrites is left open.
- What `AnalyticFormFactor::compute` and `NumericFormFactor::compute2` do, and what the engines' `init` and `clear` do, are not part of this model. `FormFactors.Clear` and `FormFactors.ComputeFormFactor` receive them as arbitrary functions in `Backends`. Each `init` and `compute` may read and change both its engine's state and the field.
- Number formatting, file streams, and reading malformed or missing numbers are not modelled. A stream that runs out is an arbitrary `exhausted` function.
- The metrics that need a square root or division by computed norms are left out. These are `RelativeResidualVector`, `RelativeAbsoluteDifferenceSquare`, the `UnitLength*`, `ConstNormalized*` and `Sqrt*` variants, and `AbsoluteDifferenceSquareNorm`.
- `objective_func_hipgisaxs`, `hipgisaxs_ana` and `reduction.hpp` are not part of this model.
- Inputs on which the source reads through a null pointer or past the end of a buffer are excluded by preconditions, not modelled as crashes. This covers buffers shorter than `size` in every metric; with `size > 0`, a null `mask` in `Distance.AbsoluteDifferenceError`, `Distance.ScaledRelativeAbsoluteDifferenceSquare` and `Distance.AbsoluteDifferenceNorm`; a null `ref`, `data` or `mask` in `Distance.ResidualVector`; and an `ff_` shorter than the grid in `Layout.PrintFF`, `Layout.Save` and `Layout.SaveFF`.
- Floating point is modelled as exact reals. This leaves out float rounding, the `double` accumulators and the final cast, NaN or infinity inside inputs, and 32-bit wrap-around of `unsigned int` index arithmetic.
- `TINY_` comes from `common/constants.hpp`, which is not part of this model. `Distance.SafeRange` takes it as a positive parameter.
- Distance.FindMinMax: the `bool` it returns is always true and is not modelled.
- Distance.ScaledRelativeAbsoluteDifferenceSquare: requires a non-empty `ref` and `dat`, because `find_minmax` reads index 0 even when `size` is 0.
- Kernels.ComputeBox, Kernels.ComputeCylinder, Kernels.ComputeSphere: these require that the q-grid covers `nqx`, `nqy` and `nqz`. The code reads `QGrid` without checking this.
- The translation phase is kept as an uninterpreted `exp`. Invariance of the intensity under translation needs `|exp(i·θ)| = 1`, so it is not stated.
- Kernels.SphereOriginUnguarded: the `4πr³/3` limit at q = 0 is not stated, because the code has no guard there.

## Findings

| source | as written | input that shows it | evidently intended | confidence | as-written member | corrected member |
|---|---|---|---|---|---|---|
| src/ff/ff.cpp:119-125 | `save_ff` writes the `nqx` intensities of a row back to back, with a space only after each row | `nqx = 2`, `nqy = 1`, `nqz = 1`: the line holds two numbers with no separator between them, which reads back as one word | one space after every intensity, so that each line reads back as the plane's intensities | medium, not executed | Layout.SaveFFUnreadable | Layout.SaveFFSpacedRoundTrip |
