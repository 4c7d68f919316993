/**
 * The three analytic form-factor kernels (AnalyticFormFactor::compute_box,
 * compute_cylinder, compute_sphere) on the CPU path: scan the parameters,
 * check the required roles, then fill the nqx × nqy × nqz field where each
 * point holds a weighted sum over the cross product of the sample vectors
 * times the translation phase.
 *
 * All transcendental maths is uninterpreted: it comes in through `Numerics`.
 */
module Kernels {
  import opened Complex
  import opened Grid
  import opened ShapeParams

  /** The reciprocal-space grid (QGrid): qx, qy and the complex extended qz. */
  datatype QGrid = QGrid(qx: seq<real>, qy: seq<real>, qzExtended: seq<Complex>)

  /** The kernel loops stay inside the grid arrays. */
  predicate Covers(g: QGrid, d: Dims) {
    d.nqx <= |g.qx| && d.nqy <= |g.qy| && d.nqz <= |g.qzExtended|
  }

  datatype Vec3 = Vec3(x: real, y: real, z: real)

  /** Rotated momentum transfer (mqx, mqy, mqz) at one grid point. */
  datatype Mesh = Mesh(qx: Complex, qy: Complex, qz: Complex)

  /**
   * The uninterpreted maths: compute_meshpoints with the kernel's rotation,
   * sinc, fq_inv, cbessj(·, 1), complex sqrt/exp/sin/cos and division, real
   * sin/cos/tan, and the constant PI_.
   */
  datatype Numerics = Numerics(
    meshpoints: (real, real, Complex) -> Mesh,
    sinc: Complex -> Complex,
    fqInv: (Complex, real) -> Complex,
    besselJ1: Complex -> Complex,
    sqrt: Complex -> Complex,
    exp: Complex -> Complex,
    sin: Complex -> Complex,
    cos: Complex -> Complex,
    div: (Complex, Complex) -> Complex,
    sinR: real -> real,
    cosR: real -> real,
    tanR: real -> real,
    pi: real)

  function MeshAt(g: QGrid, d: Dims, p: Point, num: Numerics): Mesh
    requires Covers(g, d) && InGrid(d, p)
  {
    num.meshpoints(g.qx[p.x], g.qy[p.y], g.qzExtended[p.z])
  }

  /** exp(i·(mqx·tx + mqy·ty + mqz·tz)), written exp(complex(-t.imag(), t.real())). */
  function Phase(m: Mesh, t: Vec3, num: Numerics): Complex {
    num.exp(TimesI(Add(Add(Scale(t.x, m.qx), Scale(t.y, m.qy)), Scale(t.z, m.qz))))
  }

  /** mqz + tan(tau)·(sin(eta)·mqx + cos(eta)·mqy), the tilt-adjusted qz of box and cylinder. */
  function TiltedQz(m: Mesh, tau: real, eta: real, num: Numerics): Complex {
    Add(m.qz, Scale(num.tanR(tau), Add(Scale(num.sinR(eta), m.qx), Scale(num.cosR(eta), m.qy))))
  }

  // ---------------------------------------------------------------------------
  // Box
  // ---------------------------------------------------------------------------

  /** 4·wx·wy·wz·x·y · sinc(mqx·x)·sinc(mqy·y)·fq_inv(qm, z) for one sample triple. */
  function BoxTerm(sx: Sample, sy: Sample, sz: Sample, m: Mesh, qm: Complex, num: Numerics): Complex {
    Scale(4.0 * sx.weight * sy.weight * sz.weight * sx.value * sy.value,
          Mul(Mul(num.sinc(Scale(sx.value, m.qx)), num.sinc(Scale(sy.value, m.qy))), num.fqInv(qm, sz.value)))
  }

  function BoxTerms(m: Mesh, tau: real, eta: real, num: Numerics): (Sample, Sample, Sample) -> Complex {
    (sx, sy, sz) => BoxTerm(sx, sy, sz, m, TiltedQz(m, tau, eta, num), num)
  }

  /** temp_ff after the i_z / i_y / i_x loops: the sum over every sample triple. */
  function BoxAmplitude(roles: Roles, m: Mesh, tau: real, eta: real, num: Numerics): Complex {
    Sum3(roles.h, roles.y, roles.x, BoxTerms(m, tau, eta, num))
  }

  function BoxPoint(g: QGrid, d: Dims, roles: Roles, tau: real, eta: real, t: Vec3, num: Numerics, p: Point): Complex
    requires Covers(g, d) && InGrid(d, p)
  {
    var m := MeshAt(g, d, p, num);
    Mul(BoxAmplitude(roles, m, tau, eta, num), Phase(m, t, num))
  }

  /**
   * compute_box: false (field untouched) unless the scan gave samples for x,
   * y and z; otherwise a field of nqx·nqy·nqz values, the one at
   * Index(p) being the box amplitude at p times its phase.
   */
  method ComputeBox(d: Dims, g: QGrid, params: seq<ShapeParam>, tau: real, eta: real, t: Vec3,
                    num: Numerics, resolve: Resolver, prior: seq<Complex>)
    returns (ok: bool, ff: seq<Complex>)
    requires Covers(g, d)
    ensures ok <==> Ready(BoxKernel, Scan(BoxKernel, params, resolve))
    ensures !ok ==> ff == prior
    ensures ok ==> |ff| == Size(d)
    ensures ok ==> forall p :: InGrid(d, p) ==>
      ff[Index(d, p)] == BoxPoint(g, d, Scan(BoxKernel, params, resolve).roles, tau, eta, t, num, p)
  {
    var s := Scan(BoxKernel, params, resolve);
    BoxNeverRejects(params, resolve);
    if |s.roles.x| < 1 || |s.roles.y| < 1 || |s.roles.h| < 1 {
      assert Get(s.roles, XRole) == s.roles.x && Get(s.roles, YRole) == s.roles.y && Get(s.roles, HeightRole) == s.roles.h;
      return false, prior;
    }
    var roles := s.roles;
    ff := FillGrid(d, p => if Covers(g, d) && InGrid(d, p) then BoxPoint(g, d, roles, tau, eta, t, num, p) else Zero);
    ok := true;
  }

  /** Polydispersity reduces to the fixed-value formula: one sample of weight 1 per dimension gives one term. */
  lemma BoxSingleSample(a: real, b: real, c: real, r: seq<Sample>, m: Mesh, tau: real, eta: real, num: Numerics)
    ensures BoxAmplitude(Roles([Sample(a, 1.0)], [Sample(b, 1.0)], [Sample(c, 1.0)], r), m, tau, eta, num) ==
      Scale(4.0 * a * b, Mul(Mul(num.sinc(Scale(a, m.qx)), num.sinc(Scale(b, m.qy))), num.fqInv(TiltedQz(m, tau, eta, num), c)))
  {
    var sx, sy, sz := Sample(a, 1.0), Sample(b, 1.0), Sample(c, 1.0);
    Sum3Singleton(sz, sy, sx, BoxTerms(m, tau, eta, num));
    var z := Mul(Mul(num.sinc(Scale(a, m.qx)), num.sinc(Scale(b, m.qy))), num.fqInv(TiltedQz(m, tau, eta, num), c));
    var w := 4.0 * 1.0 * 1.0 * 1.0 * a * b;
    assert BoxTerm(sx, sy, sz, m, TiltedQz(m, tau, eta, num), num) == Scale(w, z);
    assert w == 4.0 * a * b;
  }

  /** Splitting any one sample vector splits the box amplitude into the sum of the parts. */
  lemma BoxAmplitudeAdditive(roles: Roles, u: seq<Sample>, v: seq<Sample>, m: Mesh, tau: real, eta: real, num: Numerics)
    ensures BoxAmplitude(roles.(x := u + v), m, tau, eta, num) ==
      Add(BoxAmplitude(roles.(x := u), m, tau, eta, num), BoxAmplitude(roles.(x := v), m, tau, eta, num))
    ensures BoxAmplitude(roles.(y := u + v), m, tau, eta, num) ==
      Add(BoxAmplitude(roles.(y := u), m, tau, eta, num), BoxAmplitude(roles.(y := v), m, tau, eta, num))
    ensures BoxAmplitude(roles.(h := u + v), m, tau, eta, num) ==
      Add(BoxAmplitude(roles.(h := u), m, tau, eta, num), BoxAmplitude(roles.(h := v), m, tau, eta, num))
  {
    var f := BoxTerms(m, tau, eta, num);
    Split3Inner(roles.h, roles.y, u, v, f);
    Split3Middle(roles.h, u, v, roles.x, f);
    Split3Outer(u, v, roles.y, roles.x, f);
  }

  /** for c in zs: for b in ys: for a in xs: acc += f(a, b, c) */
  function Sum3<A, B, C>(zs: seq<C>, ys: seq<B>, xs: seq<A>, f: (A, B, C) -> Complex): Complex {
    SumOver(zs, c => SumOver(ys, b => SumOver(xs, a => f(a, b, c))))
  }

  lemma Sum3Singleton<A, B, C>(c: C, b: B, a: A, f: (A, B, C) -> Complex)
    ensures Sum3([c], [b], [a], f) == f(a, b, c)
  {
    SumOverSingleton(a, a' => f(a', b, c));
    SumOverSingleton(b, b' => SumOver([a], a' => f(a', b', c)));
    SumOverSingleton(c, c' => SumOver([b], b' => SumOver([a], a' => f(a', b', c'))));
  }

  lemma Split3Inner<A, B, C>(zs: seq<C>, ys: seq<B>, u: seq<A>, v: seq<A>, f: (A, B, C) -> Complex)
    ensures Sum3(zs, ys, u + v, f) == Add(Sum3(zs, ys, u, f), Sum3(zs, ys, v, f))
  {
    forall c, b {
      SumOverAppend(u, v, a => f(a, b, c));
    }
    forall c {
      SumOverPointwiseAdd(ys, b => SumOver(u, a => f(a, b, c)), b => SumOver(v, a => f(a, b, c)),
                          b => SumOver(u + v, a => f(a, b, c)));
    }
    SumOverPointwiseAdd(zs, c => SumOver(ys, b => SumOver(u, a => f(a, b, c))),
                            c => SumOver(ys, b => SumOver(v, a => f(a, b, c))),
                            c => SumOver(ys, b => SumOver(u + v, a => f(a, b, c))));
  }

  lemma Split3Middle<A, B, C>(zs: seq<C>, u: seq<B>, v: seq<B>, xs: seq<A>, f: (A, B, C) -> Complex)
    ensures Sum3(zs, u + v, xs, f) == Add(Sum3(zs, u, xs, f), Sum3(zs, v, xs, f))
  {
    forall c {
      SumOverAppend(u, v, b => SumOver(xs, a => f(a, b, c)));
    }
    SumOverPointwiseAdd(zs, c => SumOver(u, b => SumOver(xs, a => f(a, b, c))),
                            c => SumOver(v, b => SumOver(xs, a => f(a, b, c))),
                            c => SumOver(u + v, b => SumOver(xs, a => f(a, b, c))));
  }

  lemma Split3Outer<A, B, C>(u: seq<C>, v: seq<C>, ys: seq<B>, xs: seq<A>, f: (A, B, C) -> Complex)
    ensures Sum3(u + v, ys, xs, f) == Add(Sum3(u, ys, xs, f), Sum3(v, ys, xs, f))
  {
    SumOverAppend(u, v, c => SumOver(ys, b => SumOver(xs, a => f(a, b, c))));
  }

  /** for a in outer: for b in inner: acc += f(a, b) */
  function Sum2<A, B>(outer: seq<A>, inner: seq<B>, f: (A, B) -> Complex): Complex {
    SumOver(outer, a => SumOver(inner, b => f(a, b)))
  }

  lemma Sum2Singleton<A, B>(a: A, b: B, f: (A, B) -> Complex)
    ensures Sum2([a], [b], f) == f(a, b)
  {
    SumOverSingleton(b, b' => f(a, b'));
    SumOverSingleton(a, a' => SumOver([b], b' => f(a', b')));
  }

  /** Splitting the outer samples splits a double sum. */
  lemma Split2Outer<A, B>(u: seq<A>, v: seq<A>, inner: seq<B>, f: (A, B) -> Complex)
    ensures Sum2(u + v, inner, f) == Add(Sum2(u, inner, f), Sum2(v, inner, f))
  {
    SumOverAppend(u, v, a => SumOver(inner, b => f(a, b)));
  }

  /** Splitting the inner samples splits a double sum. */
  lemma Split2Inner<A, B>(outer: seq<A>, u: seq<B>, v: seq<B>, f: (A, B) -> Complex)
    ensures Sum2(outer, u + v, f) == Add(Sum2(outer, u, f), Sum2(outer, v, f))
  {
    var g := a => SumOver(u, b => f(a, b));
    var h := a => SumOver(v, b => f(a, b));
    var k := a => SumOver(u + v, b => f(a, b));
    forall a
      ensures k(a) == Add(g(a), h(a))
    {
      SumOverAppend(u, v, b => f(a, b));
    }
    SumOverPointwiseAdd(outer, g, h, k);
  }

  lemma Sum2Congruent<A, B>(outer: seq<A>, inner: seq<B>, f: (A, B) -> Complex, g: (A, B) -> Complex)
    requires forall a, b :: f(a, b) == g(a, b)
    ensures Sum2(outer, inner, f) == Sum2(outer, inner, g)
  {
    forall a {
      SumOverCongruent(inner, b => f(a, b), b => g(a, b));
    }
    SumOverCongruent(outer, a => SumOver(inner, b => f(a, b)), a => SumOver(inner, b => g(a, b)));
  }

  // ---------------------------------------------------------------------------
  // Cylinder
  // ---------------------------------------------------------------------------

  /** q_par = sqrt(mqx² + mqy²). */
  function CylinderQpar(m: Mesh, num: Numerics): Complex {
    num.sqrt(Add(Mul(m.qx, m.qx), Mul(m.qy, m.qy)))
  }

  /** J1(q_par·r)/(q_par·r), replaced by exactly 1/2 when both parts of q_par are zero. */
  function BesselRatio(qpar: Complex, r: real, num: Numerics): Complex {
    if IsZero(qpar) then Complex(0.5, 0.0)
    else num.div(num.besselJ1(Scale(r, qpar)), Scale(r, qpar))
  }

  /** w_r·w_h·2π·r²·ratio·fq_inv(qm, h) for one (radius, height) sample pair. */
  function CylinderTerm(sr: Sample, sh: Sample, qpar: Complex, qm: Complex, num: Numerics): Complex {
    Scale(sr.weight * sh.weight * 2.0 * num.pi * sr.value * sr.value,
          Mul(BesselRatio(qpar, sr.value, num), num.fqInv(qm, sh.value)))
  }

  function CylinderTerms(m: Mesh, tau: real, eta: real, num: Numerics): (Sample, Sample) -> Complex {
    (sr, sh) => CylinderTerm(sr, sh, CylinderQpar(m, num), TiltedQz(m, tau, eta, num), num)
  }

  /** temp_ff after the i_r / i_h loops. */
  function CylinderAmplitude(roles: Roles, m: Mesh, tau: real, eta: real, num: Numerics): Complex {
    Sum2(roles.r, roles.h, CylinderTerms(m, tau, eta, num))
  }

  function CylinderPoint(g: QGrid, d: Dims, roles: Roles, tau: real, eta: real, t: Vec3, num: Numerics, p: Point): Complex
    requires Covers(g, d) && InGrid(d, p)
  {
    var m := MeshAt(g, d, p, num);
    Mul(CylinderAmplitude(roles, m, tau, eta, num), Phase(m, t, num))
  }

  /**
   * compute_cylinder: false (field untouched) when the scan met a valid entry
   * of unknown type or left the height or radius samples empty; otherwise the
   * full field of cylinder amplitudes times phases.
   */
  method ComputeCylinder(d: Dims, g: QGrid, params: seq<ShapeParam>, tau: real, eta: real, t: Vec3,
                         num: Numerics, resolve: Resolver, prior: seq<Complex>)
    returns (ok: bool, ff: seq<Complex>)
    requires Covers(g, d)
    ensures ok <==> Ready(CylinderKernel, Scan(CylinderKernel, params, resolve))
    ensures !ok ==> ff == prior
    ensures ok ==> |ff| == Size(d)
    ensures ok ==> forall p :: InGrid(d, p) ==>
      ff[Index(d, p)] == CylinderPoint(g, d, Scan(CylinderKernel, params, resolve).roles, tau, eta, t, num, p)
  {
    var s := Scan(CylinderKernel, params, resolve);
    if s.Rejected? {
      return false, prior;
    }
    if |s.roles.h| < 1 || |s.roles.r| < 1 {
      assert Get(s.roles, HeightRole) == s.roles.h && Get(s.roles, RadiusRole) == s.roles.r;
      return false, prior;
    }
    var roles := s.roles;
    ff := FillGrid(d, p => if Covers(g, d) && InGrid(d, p) then CylinderPoint(g, d, roles, tau, eta, t, num, p) else Zero);
    ok := true;
  }

  /** At q_par == 0 the ratio is exactly 1/2 and neither the Bessel function nor the division is consulted. */
  lemma CylinderAxisNoDivision(qpar: Complex, r: real, num: Numerics, other: Numerics)
    requires IsZero(qpar)
    ensures BesselRatio(qpar, r, num) == BesselRatio(qpar, r, other) == Complex(0.5, 0.0)
  {
  }

  /**
   * On the q_par == 0 axis the cylinder amplitude is the sum of
   * w_r·w_h·π·r²·fq_inv(qm, h): the 2π·r²·J1(u)/u factor at its 1/2 limit.
   */
  lemma CylinderAxisLimit(roles: Roles, m: Mesh, tau: real, eta: real, num: Numerics)
    requires IsZero(CylinderQpar(m, num))
    ensures CylinderAmplitude(roles, m, tau, eta, num) == Sum2(roles.r, roles.h, AxisTerms(m, tau, eta, num))
  {
    var qm := TiltedQz(m, tau, eta, num);
    var f := CylinderTerms(m, tau, eta, num);
    var g := AxisTerms(m, tau, eta, num);
    forall sr: Sample, sh: Sample
      ensures f(sr, sh) == g(sr, sh)
    {
      var fq := num.fqInv(qm, sh.value);
      var k := sr.weight * sh.weight * num.pi * sr.value * sr.value;
      assert f(sr, sh) == CylinderTerm(sr, sh, CylinderQpar(m, num), qm, num);
      assert BesselRatio(CylinderQpar(m, num), sr.value, num) == Complex(0.5, 0.0);
      assert g(sr, sh) == AxisTerm(sr, sh, qm, num) == Scale(k, fq);
      assert Mul(Complex(0.5, 0.0), fq) == Complex(0.5 * fq.re, 0.5 * fq.im);
      assert sr.weight * sh.weight * 2.0 * num.pi * sr.value * sr.value == 2.0 * k;
      assert (2.0 * k) * (0.5 * fq.re) == k * fq.re;
      assert (2.0 * k) * (0.5 * fq.im) == k * fq.im;
    }
    Sum2Congruent(roles.r, roles.h, f, g);
  }

  /** w_r·w_h·π·r²·fq_inv(qm, h): the cylinder term with its ratio at the 1/2 limit. */
  function AxisTerm(sr: Sample, sh: Sample, qm: Complex, num: Numerics): Complex {
    Scale(sr.weight * sh.weight * num.pi * sr.value * sr.value, num.fqInv(qm, sh.value))
  }

  function AxisTerms(m: Mesh, tau: real, eta: real, num: Numerics): (Sample, Sample) -> Complex {
    (sr, sh) => AxisTerm(sr, sh, TiltedQz(m, tau, eta, num), num)
  }

  /** One radius and one height sample of weight 1 give the single-cylinder term. */
  lemma CylinderSingleSample(r: real, h: real, roles: Roles, m: Mesh, tau: real, eta: real, num: Numerics)
    ensures CylinderAmplitude(roles.(r := [Sample(r, 1.0)], h := [Sample(h, 1.0)]), m, tau, eta, num) ==
      Scale(2.0 * num.pi * r * r, Mul(BesselRatio(CylinderQpar(m, num), r, num), num.fqInv(TiltedQz(m, tau, eta, num), h)))
  {
    Sum2Singleton(Sample(r, 1.0), Sample(h, 1.0), CylinderTerms(m, tau, eta, num));
  }

  /** Splitting the radius or the height samples splits the cylinder amplitude. */
  lemma CylinderAmplitudeAdditive(roles: Roles, u: seq<Sample>, v: seq<Sample>, m: Mesh, tau: real, eta: real, num: Numerics)
    ensures CylinderAmplitude(roles.(r := u + v), m, tau, eta, num) ==
      Add(CylinderAmplitude(roles.(r := u), m, tau, eta, num), CylinderAmplitude(roles.(r := v), m, tau, eta, num))
    ensures CylinderAmplitude(roles.(h := u + v), m, tau, eta, num) ==
      Add(CylinderAmplitude(roles.(h := u), m, tau, eta, num), CylinderAmplitude(roles.(h := v), m, tau, eta, num))
  {
    Split2Outer(u, v, roles.h, CylinderTerms(m, tau, eta, num));
    Split2Inner(roles.r, u, v, CylinderTerms(m, tau, eta, num));
  }

  // ---------------------------------------------------------------------------
  // Sphere
  // ---------------------------------------------------------------------------

  /** q = sqrt(mqx² + mqy² + mqz²). */
  function SphereQ(m: Mesh, num: Numerics): Complex {
    num.sqrt(Add(Add(Mul(m.qx, m.qx), Mul(m.qy, m.qy)), Mul(m.qz, m.qz)))
  }

  /** (sin(qr) − qr·cos(qr)) / (qr)³, with no guard for q = 0. */
  function SphereRatio(q: Complex, r: real, num: Numerics): Complex {
    var qr := Scale(r, q);
    num.div(Sub(num.sin(qr), Mul(qr, num.cos(qr))), Mul(Mul(qr, qr), qr))
  }

  /** w·4π·r³ · ratio · exp(i·mqz·r) for one radius sample. */
  function SphereTerm(s: Sample, m: Mesh, q: Complex, num: Numerics): Complex {
    Scale(s.weight * 4.0 * num.pi * (s.value * s.value * s.value),
          Mul(SphereRatio(q, s.value, num), num.exp(Scale(s.value, Mul(Complex(0.0, 1.0), m.qz)))))
  }

  function SphereTerms(m: Mesh, num: Numerics): Sample -> Complex {
    s => SphereTerm(s, m, SphereQ(m, num), num)
  }

  /** temp_ff after the i_r loop. */
  function SphereAmplitude(roles: Roles, m: Mesh, num: Numerics): Complex {
    SumOver(roles.r, SphereTerms(m, num))
  }

  function SpherePoint(g: QGrid, d: Dims, roles: Roles, t: Vec3, num: Numerics, p: Point): Complex
    requires Covers(g, d) && InGrid(d, p)
  {
    var m := MeshAt(g, d, p, num);
    Mul(SphereAmplitude(roles, m, num), Phase(m, t, num))
  }

  /**
   * compute_sphere: false (field untouched) when the scan met an entry of
   * unknown type (valid or not) or produced no radius samples; otherwise the
   * full field of sphere amplitudes times phases.
   */
  method ComputeSphere(d: Dims, g: QGrid, params: seq<ShapeParam>, t: Vec3,
                       num: Numerics, resolve: Resolver, prior: seq<Complex>)
    returns (ok: bool, ff: seq<Complex>)
    requires Covers(g, d)
    ensures ok <==> Ready(SphereKernel, Scan(SphereKernel, params, resolve))
    ensures !ok ==> ff == prior
    ensures ok ==> |ff| == Size(d)
    ensures ok ==> forall p :: InGrid(d, p) ==>
      ff[Index(d, p)] == SpherePoint(g, d, Scan(SphereKernel, params, resolve).roles, t, num, p)
  {
    var s := Scan(SphereKernel, params, resolve);
    if s.Rejected? {
      return false, prior;
    }
    if |s.roles.r| < 1 {
      assert Get(s.roles, RadiusRole) == s.roles.r;
      return false, prior;
    }
    var roles := s.roles;
    ff := FillGrid(d, p => if Covers(g, d) && InGrid(d, p) then SpherePoint(g, d, roles, t, num, p) else Zero);
    ok := true;
  }

  /**
   * There is no q = 0 guard: when q is exactly zero every sample's ratio is a
   * complex division by exactly zero.
   */
  lemma SphereOriginUnguarded(q: Complex, r: real, num: Numerics)
    requires IsZero(q)
    ensures SphereRatio(q, r, num) == num.div(num.sin(Zero), Zero)
  {
  }

  /** One radius sample of weight 1 gives the single-sphere term. */
  lemma SphereSingleSample(r: real, roles: Roles, m: Mesh, num: Numerics)
    ensures SphereAmplitude(roles.(r := [Sample(r, 1.0)]), m, num) ==
      Scale(4.0 * num.pi * (r * r * r), Mul(SphereRatio(SphereQ(m, num), r, num), num.exp(Scale(r, Mul(Complex(0.0, 1.0), m.qz)))))
  {
    var s := Sample(r, 1.0);
    SumOverSingleton(s, SphereTerms(m, num));
    assert SphereAmplitude(roles.(r := [s]), m, num) == SphereTerm(s, m, SphereQ(m, num), num);
    SphereTermUnitWeight(r, m, SphereQ(m, num), num);
  }

  lemma SphereTermUnitWeight(r: real, m: Mesh, q: Complex, num: Numerics)
    ensures SphereTerm(Sample(r, 1.0), m, q, num) ==
      Scale(4.0 * num.pi * (r * r * r), Mul(SphereRatio(q, r, num), num.exp(Scale(r, Mul(Complex(0.0, 1.0), m.qz)))))
  {
    var z := Mul(SphereRatio(q, r, num), num.exp(Scale(r, Mul(Complex(0.0, 1.0), m.qz))));
    var w := 1.0 * 4.0 * num.pi * (r * r * r);
    assert SphereTerm(Sample(r, 1.0), m, q, num) == Scale(w, z);
    assert w == 4.0 * num.pi * (r * r * r);
  }

  /** Splitting the radius samples splits the sphere amplitude. */
  lemma SphereAmplitudeAdditive(roles: Roles, u: seq<Sample>, v: seq<Sample>, m: Mesh, num: Numerics)
    ensures SphereAmplitude(roles.(r := u + v), m, num) ==
      Add(SphereAmplitude(roles.(r := u), m, num), SphereAmplitude(roles.(r := v), m, num))
  {
    SumOverAppend(u, v, SphereTerms(m, num));
  }
}
