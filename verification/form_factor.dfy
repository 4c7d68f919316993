/**
 * The FormFactor object: the computed field `ff_`, the analytic and numeric
 * sub-engines, and the flag recording which one produced the field; `clear`
 * and the `compute_form_factor` dispatch between the two paths.
 *
 * What the sub-engines do internally (AnalyticFormFactor::compute and the
 * mesh-based NumericFormFactor) is not part of this model: their effect on the
 * engines' state and on the field is supplied as a `Backends` record.
 */
module FormFactors {
  import opened Complex
  import opened Kernels
  import opened ShapeParams

  /** The shape kinds: the three kernels modelled here, the other analytic kinds, and `shape_custom`. */
  datatype ShapeName = BoxShape | CylinderShape | SphereShape | OtherAnalytic(code: nat) | Custom

  datatype Rotation = Rotation(rot1: Vec3, rot2: Vec3, rot3: Vec3)

  /**
   * A value space for a sub-engine's state. What the engines' `init` and
   * `clear` do to it is supplied by `Backends`, so no contract depends on
   * which of these values an engine holds.
   */
  datatype SubEngine = Cleared | Initialised(rot: Rotation)

  datatype FormFactor = FormFactor(ff: seq<Complex>, analytic: SubEngine, numeric: SubEngine, isAnalytic: bool)

  /** The arguments compute_form_factor forwards to the analytic sub-engine. */
  datatype AnalyticRequest = AnalyticRequest(
    params: seq<ShapeParam>, thickness: real, transvec: Vec3, tau: real, eta: real)

  /**
   * The sub-engines' code, which is not part of this model. Each engine's
   * `clear` is a state change. Its `init` receives the rotation and `ff_` (by
   * reference), so it may change both the engine and the field. Its `compute`
   * reads the engine as `init` left it, together with the field, and returns
   * the success flag (which compute_form_factor discards), the new field and
   * the engine's new state.
   */
  datatype Backends = Backends(
    clearAnalytic: SubEngine -> SubEngine,
    clearNumeric: SubEngine -> SubEngine,
    initAnalytic: (SubEngine, Rotation, seq<Complex>) -> (SubEngine, seq<Complex>),
    initNumeric: (SubEngine, Rotation, seq<Complex>) -> (SubEngine, seq<Complex>),
    analytic: (ShapeName, AnalyticRequest, Rotation, SubEngine, seq<Complex>) -> (bool, seq<Complex>, SubEngine),
    numeric: (string, Rotation, SubEngine, seq<Complex>) -> (bool, seq<Complex>, SubEngine))

  /** What the numeric path produces: `init` on the engine and field, then `compute2` on the result. */
  function NumericRun(f: FormFactor, filename: string, rot: Rotation, b: Backends): (bool, seq<Complex>, SubEngine)
  {
    var (e, ff) := b.initNumeric(f.numeric, rot, f.ff);
    b.numeric(filename, rot, e, ff)
  }

  /** What the analytic path produces: `init` on the engine and field, then `compute` on the result. */
  function AnalyticRun(f: FormFactor, shape: ShapeName, req: AnalyticRequest, rot: Rotation, b: Backends)
    : (bool, seq<Complex>, SubEngine)
  {
    var (e, ff) := b.initAnalytic(f.analytic, rot, f.ff);
    b.analytic(shape, req, rot, e, ff)
  }

  /** FormFactor::clear: `ff_` emptied, both engines cleared, the flag reset. */
  function Clear(f: FormFactor, b: Backends): (r: FormFactor)
    ensures |r.ff| == 0 && !r.isAnalytic
    ensures r.analytic == b.clearAnalytic(f.analytic) && r.numeric == b.clearNumeric(f.numeric)
  {
    FormFactor([], b.clearAnalytic(f.analytic), b.clearNumeric(f.numeric), false)
  }

  /**
   * After clear nothing of the previous field or flag remains: any two objects
   * clear to the same `ff_` and `is_analytic_`, and each engine's cleared
   * state depends on that engine alone.
   */
  lemma ClearForgets(f: FormFactor, g: FormFactor, b: Backends)
    ensures Clear(f, b).ff == Clear(g, b).ff && Clear(f, b).isAnalytic == Clear(g, b).isAnalytic
    ensures Clear(f, b).analytic == Clear(g.(analytic := f.analytic), b).analytic
    ensures Clear(f, b).numeric == Clear(g.(numeric := f.numeric), b).numeric
  {
  }

  datatype Outcome = Outcome(ok: bool, result: FormFactor)

  /**
   * compute_form_factor: `shape_custom` goes to the numeric sub-engine, every
   * other shape to the analytic one; the chosen engine is initialised with the
   * rotation and the field, then computes into the field; the other engine is
   * untouched, and the call reports true whatever the engine did.
   */
  function ComputeFormFactor(f: FormFactor, shape: ShapeName, filename: string, req: AnalyticRequest,
                             rot: Rotation, b: Backends): (out: Outcome)
    ensures out.ok
    ensures out.result.isAnalytic <==> shape != Custom
    ensures shape == Custom ==>
      var (e, ff) := b.initNumeric(f.numeric, rot, f.ff);
      var (_, ff', e') := b.numeric(filename, rot, e, ff);
      out.result.analytic == f.analytic && out.result.numeric == e' && out.result.ff == ff'
    ensures shape != Custom ==>
      var (e, ff) := b.initAnalytic(f.analytic, rot, f.ff);
      var (_, ff', e') := b.analytic(shape, req, rot, e, ff);
      out.result.numeric == f.numeric && out.result.analytic == e' && out.result.ff == ff'
  {
    if shape == Custom then
      var (_, ff, e) := NumericRun(f, filename, rot, b);
      Outcome(true, f.(ff := ff, numeric := e, isAnalytic := false))
    else
      var (_, ff, e) := AnalyticRun(f, shape, req, rot, b);
      Outcome(true, f.(ff := ff, analytic := e, isAnalytic := true))
  }

  /**
   * The outcome does not depend on the previous flag, and the field is exactly
   * what the chosen engine produced, whether that engine reported success or
   * failure.
   */
  lemma ComputeFieldFromChosenEngine(f: FormFactor, shape: ShapeName, filename: string, req: AnalyticRequest,
                                     rot: Rotation, b: Backends, flag: bool)
    ensures ComputeFormFactor(f.(isAnalytic := flag), shape, filename, req, rot, b) ==
            ComputeFormFactor(f, shape, filename, req, rot, b)
    ensures ComputeFormFactor(f, shape, filename, req, rot, b).result.ff ==
            if shape == Custom then NumericRun(f, filename, rot, b).1 else AnalyticRun(f, shape, req, rot, b).1
  {
  }

  /** A failing analytic kernel is not reported: the dispatcher still returns true. */
  lemma FailureDiscarded(f: FormFactor, shape: ShapeName, filename: string, req: AnalyticRequest,
                         rot: Rotation, b: Backends)
    requires shape != Custom && !AnalyticRun(f, shape, req, rot, b).0
    ensures ComputeFormFactor(f, shape, filename, req, rot, b).ok
    ensures ComputeFormFactor(f, shape, filename, req, rot, b).result.isAnalytic
  {
  }
}
