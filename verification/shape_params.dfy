/**
 * The front end shared by the analytic kernels: a scan over the shape's
 * parameter list that sorts every entry by role. Each kernel's `switch` on
 * the parameter type is one row of `ActionFor`; what differs between kernels
 * is that table, whether the validity flag is consulted, and which roles are
 * required afterwards.
 *
 * param_distribution is not visible, so it is the parameter `resolve`: it is
 * handed the parameter and the role's samples so far and returns the role's
 * new samples (whether it appends or overwrites is left open).
 */
module ShapeParams {

  /** ShapeParamType; `OtherType` is any enumerator none of the switches names. */
  datatype ParamType = Edge | XSize | YSize | Height | Radius | BaseAngle | OtherType

  /** The statistical description param_distribution discretises. */
  datatype Distribution = Distribution(stat: nat, mean: real, deviation: real, nvalues: nat)

  datatype ShapeParam = ShapeParam(ptype: ParamType, valid: bool, distribution: Distribution)

  /** One polydispersity sample: a value and its (unnormalised) weight. */
  datatype Sample = Sample(value: real, weight: real)

  type Resolver = (ShapeParam, seq<Sample>) -> seq<Sample>

  /** The sample vectors the kernels fill: x, y, height (box z / cylinder h) and radius. */
  datatype Role = XRole | YRole | HeightRole | RadiusRole

  datatype Roles = Roles(x: seq<Sample>, y: seq<Sample>, h: seq<Sample>, r: seq<Sample>)

  const NoSamples := Roles([], [], [], [])

  function Get(roles: Roles, role: Role): seq<Sample> {
    match role
    case XRole => roles.x
    case YRole => roles.y
    case HeightRole => roles.h
    case RadiusRole => roles.r
  }

  datatype Kernel = BoxKernel | CylinderKernel | SphereKernel

  datatype Warning = InvalidSkipped | UnwantedIgnored | UnknownIgnored

  /** What one `case` of a kernel's switch does with a parameter. */
  datatype Action = Feed(targets: set<Role>) | Ignore(warning: Warning) | Reject

  /** The three switch statements. */
  function ActionFor(k: Kernel, t: ParamType): Action {
    match k
    case BoxKernel =>
      (match t
       case Edge => Feed({XRole, YRole, HeightRole})
       case XSize => Feed({XRole})
       case YSize => Feed({YRole})
       case Height => Feed({HeightRole})
       case Radius => Ignore(UnwantedIgnored)
       case BaseAngle => Ignore(UnwantedIgnored)
       case OtherType => Ignore(UnknownIgnored))
    case CylinderKernel =>
      (match t
       case Height => Feed({HeightRole})
       case Radius => Feed({RadiusRole})
       case OtherType => Reject
       case _ => Ignore(UnwantedIgnored))
    case SphereKernel =>
      (match t
       case Radius => Feed({RadiusRole})
       case OtherType => Reject
       case _ => Ignore(UnwantedIgnored))
  }

  /** Box and cylinder skip an entry whose isvalid() is false; sphere never asks. */
  predicate ChecksValidity(k: Kernel) {
    k != SphereKernel
  }

  /** The roles whose emptiness makes the kernel return false after the scan. */
  function Required(k: Kernel): set<Role> {
    match k
    case BoxKernel => {XRole, YRole, HeightRole}
    case CylinderKernel => {HeightRole, RadiusRole}
    case SphereKernel => {RadiusRole}
  }

  /** An entry that reaches the kernel's switch (is not skipped as invalid). */
  predicate Counted(k: Kernel, p: ShapeParam) {
    !ChecksValidity(k) || p.valid
  }

  datatype ScanState = Scanning(roles: Roles, warnings: seq<Warning>) | Rejected

  function FeedRoles(roles: Roles, targets: set<Role>, p: ShapeParam, resolve: Resolver): (r: Roles)
    ensures forall role :: Get(r, role) == if role in targets then resolve(p, Get(roles, role)) else Get(roles, role)
  {
    Roles(if XRole in targets then resolve(p, roles.x) else roles.x,
          if YRole in targets then resolve(p, roles.y) else roles.y,
          if HeightRole in targets then resolve(p, roles.h) else roles.h,
          if RadiusRole in targets then resolve(p, roles.r) else roles.r)
  }

  /** One iteration of the scan loop. */
  function Step(k: Kernel, s: ScanState, p: ShapeParam, resolve: Resolver): ScanState {
    if s.Rejected? then s
    else if !Counted(k, p) then Scanning(s.roles, s.warnings + [InvalidSkipped])
    else match ActionFor(k, p.ptype)
      case Feed(targets) => Scanning(FeedRoles(s.roles, targets, p, resolve), s.warnings)
      case Ignore(w) => Scanning(s.roles, s.warnings + [w])
      case Reject => Rejected
  }

  /** The whole scan loop over the parameter list. */
  function Scan(k: Kernel, ps: seq<ShapeParam>, resolve: Resolver): ScanState {
    if |ps| == 0 then Scanning(NoSamples, [])
    else Step(k, Scan(k, ps[..|ps| - 1], resolve), ps[|ps| - 1], resolve)
  }

  /** The check after the loop: the scan was not rejected and no required role is empty. */
  predicate Ready(k: Kernel, s: ScanState) {
    s.Scanning? && forall role :: role in Required(k) ==> |Get(s.roles, role)| > 0
  }

  /** Two scans agree on what the kernel does next: fail, or use the same samples. */
  predicate SameOutcome(s: ScanState, t: ScanState) {
    s.Rejected? == t.Rejected? && (s.Scanning? ==> s.roles == t.roles)
  }

  /** An entry the kernel skips or ignores: it leaves the sample vectors alone. */
  predicate Inert(k: Kernel, p: ShapeParam) {
    !Counted(k, p) || ActionFor(k, p.ptype).Ignore?
  }

  ghost predicate NeverEmpty(resolve: Resolver) {
    forall p, acc :: |resolve(p, acc)| > 0
  }

  predicate Rejects(k: Kernel, p: ShapeParam) {
    Counted(k, p) && ActionFor(k, p.ptype) == Reject
  }

  predicate Feeds(k: Kernel, p: ShapeParam, role: Role) {
    Counted(k, p) && ActionFor(k, p.ptype).Feed? && role in ActionFor(k, p.ptype).targets
  }

  // ---------------------------------------------------------------------------
  // Properties of the generic scan
  // ---------------------------------------------------------------------------

  lemma StepPreservesSameOutcome(k: Kernel, s: ScanState, t: ScanState, p: ShapeParam, resolve: Resolver)
    requires SameOutcome(s, t)
    ensures SameOutcome(Step(k, s, p, resolve), Step(k, t, p, resolve))
  {
  }

  /**
   * An invalid (where validity is checked) or ignored entry can be removed
   * from anywhere in the list without changing the scan's outcome.
   */
  lemma {:induction false} InertParamChangesNothing(k: Kernel, ps: seq<ShapeParam>, p: ShapeParam, qs: seq<ShapeParam>, resolve: Resolver)
    requires Inert(k, p)
    ensures SameOutcome(Scan(k, ps + [p] + qs, resolve), Scan(k, ps + qs, resolve))
    decreases |qs|
  {
    if |qs| == 0 {
      assert ps + [p] + qs == ps + [p];
      assert (ps + [p])[..|ps + [p]| - 1] == ps;
      assert ps + qs == ps;
    } else {
      var qs' := qs[..|qs| - 1];
      var q := qs[|qs| - 1];
      InertParamChangesNothing(k, ps, p, qs', resolve);
      assert (ps + [p] + qs)[..|ps + [p] + qs| - 1] == ps + [p] + qs';
      assert (ps + qs)[..|ps + qs| - 1] == ps + qs';
      assert (ps + [p] + qs)[|ps + [p] + qs| - 1] == q;
      assert (ps + qs)[|ps + qs| - 1] == q;
      StepPreservesSameOutcome(k, Scan(k, ps + [p] + qs', resolve), Scan(k, ps + qs', resolve), q, resolve);
    }
  }

  /** The scan is rejected exactly when some counted entry hits a rejecting case. */
  lemma {:induction false} RejectedIff(k: Kernel, ps: seq<ShapeParam>, resolve: Resolver)
    ensures Scan(k, ps, resolve).Rejected? <==> exists i :: 0 <= i < |ps| && Rejects(k, ps[i])
    decreases |ps|
  {
    if |ps| > 0 {
      var ps' := ps[..|ps| - 1];
      RejectedIff(k, ps', resolve);
      if exists i :: 0 <= i < |ps'| && Rejects(k, ps'[i]) {
        var i :| 0 <= i < |ps'| && Rejects(k, ps'[i]);
        assert ps[i] == ps'[i];
      }
      if exists i :: 0 <= i < |ps| && Rejects(k, ps[i]) {
        var i :| 0 <= i < |ps| && Rejects(k, ps[i]);
        if i < |ps'| { assert ps'[i] == ps[i]; }
      }
    }
  }

  /** A role no counted entry feeds stays empty, whatever the resolver does. */
  lemma {:induction false} UnfedRoleStaysEmpty(k: Kernel, ps: seq<ShapeParam>, role: Role, resolve: Resolver)
    requires Scan(k, ps, resolve).Scanning?
    requires forall i :: 0 <= i < |ps| ==> !Feeds(k, ps[i], role)
    ensures Get(Scan(k, ps, resolve).roles, role) == []
    decreases |ps|
  {
    if |ps| > 0 {
      var ps' := ps[..|ps| - 1];
      forall i | 0 <= i < |ps'| ensures !Feeds(k, ps'[i], role) {
        assert ps'[i] == ps[i];
      }
      UnfedRoleStaysEmpty(k, ps', role, resolve);
      assert !Feeds(k, ps[|ps| - 1], role);
    }
  }

  /**
   * With a resolver that always yields samples, a role is non-empty after a
   * successful scan exactly when some counted entry feeds it.
   */
  lemma {:induction false} RoleFilledIff(k: Kernel, ps: seq<ShapeParam>, role: Role, resolve: Resolver)
    requires NeverEmpty(resolve)
    requires Scan(k, ps, resolve).Scanning?
    ensures |Get(Scan(k, ps, resolve).roles, role)| > 0 <==> exists i :: 0 <= i < |ps| && Feeds(k, ps[i], role)
    decreases |ps|
  {
    if exists i :: 0 <= i < |ps| && Feeds(k, ps[i], role) {
      var i :| 0 <= i < |ps| && Feeds(k, ps[i], role);
      FedRoleNonEmpty(k, ps, i, role, resolve);
    } else {
      UnfedRoleStaysEmpty(k, ps, role, resolve);
    }
  }

  lemma {:induction false} FedRoleNonEmpty(k: Kernel, ps: seq<ShapeParam>, i: nat, role: Role, resolve: Resolver)
    requires NeverEmpty(resolve)
    requires Scan(k, ps, resolve).Scanning?
    requires i < |ps| && Feeds(k, ps[i], role)
    ensures |Get(Scan(k, ps, resolve).roles, role)| > 0
    decreases |ps|
  {
    var ps' := ps[..|ps| - 1];
    var last := ps[|ps| - 1];
    var before := Scan(k, ps', resolve);
    assert before.Scanning?;
    if i == |ps| - 1 {
      assert Get(Scan(k, ps, resolve).roles, role) == resolve(last, Get(before.roles, role));
    } else {
      assert ps'[i] == ps[i];
      FedRoleNonEmpty(k, ps', i, role, resolve);
    }
  }

  // ---------------------------------------------------------------------------
  // The kernels' switches
  // ---------------------------------------------------------------------------

  predicate HasValid(ps: seq<ShapeParam>, t: ParamType) {
    exists i :: 0 <= i < |ps| && ps[i].valid && ps[i].ptype == t
  }

  predicate HasAny(ps: seq<ShapeParam>, t: ParamType) {
    exists i :: 0 <= i < |ps| && ps[i].ptype == t
  }

  /**
   * Box: a valid edge feeds x, y and z; x-size, y-size and height feed only
   * their own vector; radius, base angle and unknown types leave them alone.
   */
  lemma BoxRouting(ps: seq<ShapeParam>, p: ShapeParam, resolve: Resolver)
    requires p.valid
    ensures var before := Scan(BoxKernel, ps, resolve);
      var after := Scan(BoxKernel, ps + [p], resolve);
      before.Scanning? && after.Scanning? &&
      (p.ptype == Edge ==>
        after.roles == Roles(resolve(p, before.roles.x), resolve(p, before.roles.y), resolve(p, before.roles.h), before.roles.r)) &&
      (p.ptype == XSize ==> after.roles == before.roles.(x := resolve(p, before.roles.x))) &&
      (p.ptype == YSize ==> after.roles == before.roles.(y := resolve(p, before.roles.y))) &&
      (p.ptype == Height ==> after.roles == before.roles.(h := resolve(p, before.roles.h))) &&
      (p.ptype in {Radius, BaseAngle, OtherType} ==> after.roles == before.roles)
  {
    BoxNeverRejects(ps, resolve);
    assert (ps + [p])[..|ps + [p]| - 1] == ps;
  }

  /** Box: an entry whose isvalid() is false is skipped with a warning and feeds nothing. */
  lemma BoxSkipsInvalid(ps: seq<ShapeParam>, p: ShapeParam, resolve: Resolver)
    requires !p.valid
    ensures var before := Scan(BoxKernel, ps, resolve);
      var after := Scan(BoxKernel, ps + [p], resolve);
      before.Scanning? && after == Scanning(before.roles, before.warnings + [InvalidSkipped])
  {
    BoxNeverRejects(ps, resolve);
    assert (ps + [p])[..|ps + [p]| - 1] == ps;
  }

  /** Box: unwanted and unknown types are only warned about; the box scan never fails. */
  lemma {:induction false} BoxNeverRejects(ps: seq<ShapeParam>, resolve: Resolver)
    ensures Scan(BoxKernel, ps, resolve).Scanning?
    decreases |ps|
  {
    if |ps| > 0 {
      BoxNeverRejects(ps[..|ps| - 1], resolve);
    }
  }

  /**
   * Box: with a resolver that always yields samples, the kernel proceeds
   * exactly when x, y and z each get a valid feeding entry: an edge, or
   * respectively an x-size, a y-size and a height.
   */
  lemma BoxReadyIff(ps: seq<ShapeParam>, resolve: Resolver)
    requires NeverEmpty(resolve)
    ensures Ready(BoxKernel, Scan(BoxKernel, ps, resolve)) <==>
      (HasValid(ps, Edge) || (HasValid(ps, XSize) && HasValid(ps, YSize) && HasValid(ps, Height)))
  {
    BoxNeverRejects(ps, resolve);
    RoleFilledIff(BoxKernel, ps, XRole, resolve);
    RoleFilledIff(BoxKernel, ps, YRole, resolve);
    RoleFilledIff(BoxKernel, ps, HeightRole, resolve);
    BoxFedIff(ps, XRole, XSize);
    BoxFedIff(ps, YRole, YSize);
    BoxFedIff(ps, HeightRole, Height);
  }

  /** A box dimension is fed exactly by a valid edge or a valid entry of its own type. */
  lemma BoxFedIff(ps: seq<ShapeParam>, role: Role, t: ParamType)
    requires (role == XRole && t == XSize) || (role == YRole && t == YSize) || (role == HeightRole && t == Height)
    ensures (exists i :: 0 <= i < |ps| && Feeds(BoxKernel, ps[i], role)) <==> (HasValid(ps, Edge) || HasValid(ps, t))
  {
    if exists i :: 0 <= i < |ps| && Feeds(BoxKernel, ps[i], role) {
      var i :| 0 <= i < |ps| && Feeds(BoxKernel, ps[i], role);
      assert ps[i].valid && (ps[i].ptype == Edge || ps[i].ptype == t);
    }
    if HasValid(ps, Edge) {
      var i :| 0 <= i < |ps| && ps[i].valid && ps[i].ptype == Edge;
      assert Feeds(BoxKernel, ps[i], role);
    }
    if HasValid(ps, t) {
      var i :| 0 <= i < |ps| && ps[i].valid && ps[i].ptype == t;
      assert Feeds(BoxKernel, ps[i], role);
    }
  }

  /** Cylinder: invalid entries are skipped; edge, x-size, y-size and base angle are warned about and ignored. */
  lemma CylinderIgnoresUnwanted(ps: seq<ShapeParam>, p: ShapeParam, qs: seq<ShapeParam>, resolve: Resolver)
    requires !p.valid || p.ptype in {Edge, XSize, YSize, BaseAngle}
    ensures SameOutcome(Scan(CylinderKernel, ps + [p] + qs, resolve), Scan(CylinderKernel, ps + qs, resolve))
  {
    InertParamChangesNothing(CylinderKernel, ps, p, qs, resolve);
  }

  /** Cylinder: a valid entry of unknown type makes the kernel fail, whatever follows it (unlike box). */
  lemma CylinderRejectsUnknown(ps: seq<ShapeParam>, p: ShapeParam, qs: seq<ShapeParam>, resolve: Resolver)
    requires p.valid && p.ptype == OtherType
    ensures Scan(CylinderKernel, ps + [p] + qs, resolve).Rejected?
    ensures !Ready(CylinderKernel, Scan(CylinderKernel, ps + [p] + qs, resolve))
  {
    var all := ps + [p] + qs;
    assert all[|ps|] == p;
    assert Rejects(CylinderKernel, all[|ps|]);
    RejectedIff(CylinderKernel, all, resolve);
  }

  /**
   * Cylinder: with a resolver that always yields samples, the kernel proceeds
   * exactly when no valid entry has an unknown type and there is a valid
   * height and a valid radius.
   */
  lemma CylinderReadyIff(ps: seq<ShapeParam>, resolve: Resolver)
    requires NeverEmpty(resolve)
    ensures Ready(CylinderKernel, Scan(CylinderKernel, ps, resolve)) <==>
      (!HasValid(ps, OtherType) && HasValid(ps, Height) && HasValid(ps, Radius))
  {
    var k := CylinderKernel;
    var s := Scan(k, ps, resolve);
    RejectedIff(k, ps, resolve);
    assert HasValid(ps, OtherType) <==> exists i :: 0 <= i < |ps| && Rejects(k, ps[i]);
    if s.Scanning? {
      RoleFilledIff(k, ps, HeightRole, resolve);
      RoleFilledIff(k, ps, RadiusRole, resolve);
      if HasValid(ps, Height) {
        var i :| 0 <= i < |ps| && ps[i].valid && ps[i].ptype == Height;
        assert Feeds(k, ps[i], HeightRole);
      }
      if HasValid(ps, Radius) {
        var i :| 0 <= i < |ps| && ps[i].valid && ps[i].ptype == Radius;
        assert Feeds(k, ps[i], RadiusRole);
      }
      if Ready(k, s) {
        assert |Get(s.roles, HeightRole)| > 0 && |Get(s.roles, RadiusRole)| > 0;
        var i :| 0 <= i < |ps| && Feeds(k, ps[i], HeightRole);
        var j :| 0 <= j < |ps| && Feeds(k, ps[j], RadiusRole);
        assert ps[i].ptype == Height && ps[j].ptype == Radius;
      }
    }
  }

  /** Sphere: a radius entry is resolved whatever its validity flag. */
  lemma SphereConsumesAnyRadius(ps: seq<ShapeParam>, p: ShapeParam, resolve: Resolver)
    requires p.ptype == Radius
    requires Scan(SphereKernel, ps, resolve).Scanning?
    ensures var before := Scan(SphereKernel, ps, resolve);
      Scan(SphereKernel, ps + [p], resolve) ==
        Scanning(before.roles.(r := resolve(p, before.roles.r)), before.warnings)
  {
    assert (ps + [p])[..|ps + [p]| - 1] == ps;
  }

  /**
   * Sphere: edge, x-size, y-size, height and base-angle entries are warned
   * about and ignored; removing one changes nothing about the outcome.
   */
  lemma SphereIgnoresUnwanted(ps: seq<ShapeParam>, p: ShapeParam, qs: seq<ShapeParam>, resolve: Resolver)
    requires p.ptype in {Edge, XSize, YSize, Height, BaseAngle}
    ensures SameOutcome(Scan(SphereKernel, ps + [p] + qs, resolve), Scan(SphereKernel, ps + qs, resolve))
  {
    InertParamChangesNothing(SphereKernel, ps, p, qs, resolve);
  }

  /** Sphere: an entry of unknown type makes the kernel fail even when it is flagged invalid. */
  lemma SphereRejectsUnknown(ps: seq<ShapeParam>, p: ShapeParam, qs: seq<ShapeParam>, resolve: Resolver)
    requires p.ptype == OtherType
    ensures Scan(SphereKernel, ps + [p] + qs, resolve).Rejected?
  {
    var all := ps + [p] + qs;
    assert all[|ps|] == p;
    assert Rejects(SphereKernel, all[|ps|]);
    RejectedIff(SphereKernel, all, resolve);
  }

  /**
   * Sphere: with a resolver that always yields samples, the kernel proceeds
   * exactly when no entry, valid or not, has an unknown type and some entry,
   * valid or not, is a radius.
   */
  lemma SphereReadyIff(ps: seq<ShapeParam>, resolve: Resolver)
    requires NeverEmpty(resolve)
    ensures Ready(SphereKernel, Scan(SphereKernel, ps, resolve)) <==>
      (!HasAny(ps, OtherType) && HasAny(ps, Radius))
  {
    var k := SphereKernel;
    var s := Scan(k, ps, resolve);
    RejectedIff(k, ps, resolve);
    assert HasAny(ps, OtherType) <==> exists i :: 0 <= i < |ps| && Rejects(k, ps[i]);
    if s.Scanning? {
      RoleFilledIff(k, ps, RadiusRole, resolve);
      if HasAny(ps, Radius) {
        var i :| 0 <= i < |ps| && ps[i].ptype == Radius;
        assert Feeds(k, ps[i], RadiusRole);
      }
      if Ready(k, s) {
        assert |Get(s.roles, RadiusRole)| > 0;
        var j :| 0 <= j < |ps| && Feeds(k, ps[j], RadiusRole);
        assert ps[j].ptype == Radius;
      }
    }
  }
}
