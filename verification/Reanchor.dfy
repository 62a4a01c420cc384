/** The constant-velocity re-anchor ramp: ReanchorRamp.h, the ramp branch of BlendTransform and
    interpolateAround of IsometryTransform.h, over exact reals.

    Rotations are an abstract type; of slerp and the angular distance only the laws in Lawful
    are used. */
module Reanchor {

  import opened Reals

  const SLEW_TRANS := 0.045
  const SLEW_ROT := 0.0785
  const TINY := 0.000000001
  const MICROSECOND := 0.000001

  datatype Vec = Vec(x: real, y: real, z: real)

  function Add(a: Vec, b: Vec): Vec {
    Vec(a.x + b.x, a.y + b.y, a.z + b.z)
  }

  function Sub(a: Vec, b: Vec): Vec {
    Vec(a.x - b.x, a.y - b.y, a.z - b.z)
  }

  function Scale(a: Vec, k: real): Vec {
    Vec(a.x * k, a.y * k, a.z * k)
  }

  function SquaredNorm(v: Vec): real {
    v.x * v.x + v.y * v.y + v.z * v.z
  }

  /** What is used of rotations and lengths. */
  datatype Geometry<!R> = Geometry(
    rotate: (R, Vec) -> Vec,
    compose: (R, R) -> R,
    slerp: (R, R, real) -> R,
    angle: (R, R) -> real,
    norm: Vec -> real)

  /** Lengths are not negative, scale with the vector and do not depend on its direction. */
  ghost predicate LawfulNorm<R>(g: Geometry<R>) {
    && (forall v :: g.norm(v) >= 0.0)
    && (forall v, k :: k >= 0.0 ==> g.norm(Scale(v, k)) == k * g.norm(v))
    && (forall a, b :: g.norm(Sub(a, b)) == g.norm(Sub(b, a)))
  }

  /** Slerp moves at constant speed along the arc from a to b; the angular distance does not
      change when both rotations are composed with a third. */
  ghost predicate LawfulArcs<R(!new)>(g: Geometry<R>) {
    && (forall a, b :: g.angle(a, b) >= 0.0)
    && (forall a, b, f :: 0.0 <= f <= 1.0 ==> g.angle(g.slerp(a, b, f), b) == (1.0 - f) * g.angle(a, b))
    && (forall a, b, f :: 0.0 <= f <= 1.0 ==> g.angle(a, g.slerp(a, b, f)) == f * g.angle(a, b))
    && (forall a, b :: g.slerp(a, b, 1.0) == b)
    && (forall a, b, c :: g.angle(g.compose(a, c), g.compose(b, c)) == g.angle(a, b))
  }

  ghost predicate Lawful<R(!new)>(g: Geometry<R>) {
    LawfulNorm(g) && LawfulArcs(g)
  }

  // ----- the laws can be met -------------------------------------------------------

  function Between(a: real, b: real, f: real): real {
    a + f * (b - a)
  }

  function Gap(a: real, b: real): real {
    Abs(a - b)
  }

  function AxisNorm(v: Vec): real {
    Abs(v.x)
  }

  /** Turns about one fixed axis, by their angle, and lengths along it. */
  function Turns(): Geometry<real> {
    Geometry((r, v) => v, (a, c) => a + c, Between, Gap, AxisNorm)
  }

  lemma AbsScales(x: real, k: real, y: real)
    requires k >= 0.0 && y == x * k
    ensures Abs(y) == k * Abs(x)
  {
    if x < 0.0 {
      Product(-x, k);
    } else {
      Product(x, k);
    }
  }

  lemma PartWay(a: real, b: real, f: real)
    ensures Between(a, b, f) - b == (a - b) * (1.0 - f) && a - Between(a, b, f) == (a - b) * f
  {
  }

  lemma BetweenParts(a: real, b: real, f: real)
    requires 0.0 <= f <= 1.0
    ensures Gap(Between(a, b, f), b) == (1.0 - f) * Gap(a, b)
    ensures Gap(a, Between(a, b, f)) == f * Gap(a, b)
  {
    PartWay(a, b, f);
    AbsScales(a - b, 1.0 - f, Between(a, b, f) - b);
    AbsScales(a - b, f, a - Between(a, b, f));
  }

  lemma TurnsNorm(g: Geometry<real>)
    requires g == Turns()
    ensures LawfulNorm(g)
  {
    assert forall v: Vec :: g.norm(v) == AxisNorm(v);
    forall v: Vec, k: real | k >= 0.0 ensures g.norm(Scale(v, k)) == k * g.norm(v) {
      AbsScales(v.x, k, v.x * k);
    }
  }

  /** Slerp moves at constant speed. */
  lemma TurnsSlerp(g: Geometry<real>, a: real, b: real, f: real)
    requires g == Turns() && 0.0 <= f <= 1.0
    ensures g.angle(g.slerp(a, b, f), b) == (1.0 - f) * g.angle(a, b)
    ensures g.angle(a, g.slerp(a, b, f)) == f * g.angle(a, b)
  {
    BetweenParts(a, b, f);
  }

  lemma TurnsSpeed(g: Geometry<real>)
    requires g == Turns()
    ensures forall a, b, f :: 0.0 <= f <= 1.0 ==> g.angle(g.slerp(a, b, f), b) == (1.0 - f) * g.angle(a, b)
    ensures forall a, b, f :: 0.0 <= f <= 1.0 ==> g.angle(a, g.slerp(a, b, f)) == f * g.angle(a, b)
  {
    forall a: real, b: real, f: real | 0.0 <= f <= 1.0
      ensures g.angle(g.slerp(a, b, f), b) == (1.0 - f) * g.angle(a, b)
      ensures g.angle(a, g.slerp(a, b, f)) == f * g.angle(a, b)
    {
      TurnsSlerp(g, a, b, f);
    }
  }

  lemma BetweenEnd(a: real, b: real)
    ensures Between(a, b, 1.0) == b
  {
  }

  lemma GapShift(a: real, b: real, c: real)
    ensures Gap(a + c, b + c) == Gap(a, b)
  {
  }

  lemma TurnsShift(g: Geometry<real>)
    requires g == Turns()
    ensures forall a, b :: g.angle(a, b) >= 0.0
    ensures forall a, b :: g.slerp(a, b, 1.0) == b
    ensures forall a, b, c :: g.angle(g.compose(a, c), g.compose(b, c)) == g.angle(a, b)
  {
    forall a: real, b: real ensures g.slerp(a, b, 1.0) == b {
      BetweenEnd(a, b);
    }
    forall a: real, b: real, c: real ensures g.angle(g.compose(a, c), g.compose(b, c)) == g.angle(a, b) {
      GapShift(a, b, c);
    }
  }

  lemma TurnsArcs(g: Geometry<real>)
    requires g == Turns()
    ensures LawfulArcs(g)
  {
    TurnsSpeed(g);
    TurnsShift(g);
  }

  /** The laws are met by a geometry that has rotations at any distance from each other. */
  lemma LawsCanBeMet(d: real) returns (g: Geometry<real>)
    requires d >= 0.0
    ensures Lawful(g) && g.angle(0.0, d) == d
  {
    g := Turns();
    TurnsNorm(g);
    TurnsArcs(g);
    assert Gap(0.0, d) == d;
  }

  // ----- transforms --------------------------------------------------------------

  datatype Iso<R> = Iso(rotation: R, translation: Vec)

  function Apply<R>(g: Geometry<R>, t: Iso<R>, p: Vec): Vec {
    Add(t.translation, g.rotate(t.rotation, p))
  }

  function Times<R>(g: Geometry<R>, a: Iso<R>, b: Iso<R>): Iso<R> {
    Iso(g.compose(a.rotation, b.rotation), Apply(g, a, b.translation))
  }

  function Mix(a: Vec, b: Vec, f: real): Vec {
    Add(Scale(a, 1.0 - f), Scale(b, f))
  }

  function InterpolateAround<R>(g: Geometry<R>, t: Iso<R>, f: real, target: Iso<R>, p: Vec): Iso<R> {
    var rotation := g.slerp(t.rotation, target.rotation, f);
    Iso(rotation, Sub(Mix(Apply(g, t, p), Apply(g, target, p), f), g.rotate(rotation, p)))
  }

  /** The pivot point moves exactly along the straight segment, whatever the rotation does. */
  lemma PivotOnSegment<R>(g: Geometry<R>, t: Iso<R>, f: real, target: Iso<R>, p: Vec)
    ensures Apply(g, InterpolateAround(g, t, f, target, p), p) == Mix(Apply(g, t, p), Apply(g, target, p), f)
  {
  }

  // ----- the fraction --------------------------------------------------------------

  function ComputeReanchorFraction(transFull: real, rotFull: real, maxTrans: real, maxRot: real): real {
    var f := if transFull > TINY && maxTrans < transFull then maxTrans / transFull else 1.0;
    var f := if f < 1.0 then f else 1.0;
    var h := if rotFull > TINY && maxRot < rotFull then maxRot / rotFull else 1.0;
    var f := if h < f then h else f;
    if f < 0.0 then 0.0 else f
  }

  /** The time the ramp still needs, in seconds. */
  function TimeLeft(transFull: real, rotFull: real): real {
    Max(transFull / 0.045, rotFull / 0.0785)
  }

  lemma Unique(q: real, r: real, d: real)
    requires d > 0.0 && q * d == r * d
    ensures q == r
  {
    assert (q - r) * d == 0.0;
  }

  /** speed * dt of full is the fraction dt of the time full needs at that speed. */
  lemma FractionOfTime(full: real, speed: real, dt: real)
    requires speed > 0.0 && full > 0.0
    ensures full / speed > 0.0 && (speed * dt) / full == dt / (full / speed)
  {
    var time := full / speed;
    assert time * speed == full;
    if time <= 0.0 {
      Product(-time, speed);
    }
    var q, r := (speed * dt) / full, dt / time;
    assert q * full == speed * dt && r * time == dt;
    assert r * full == r * time * speed;
    Unique(q, r, full);
  }

  lemma FractionOrder(dt: real, a: real, b: real)
    requires dt > 0.0 && 0.0 < a <= b
    ensures 0.0 < dt / b <= dt / a
    ensures a > dt ==> dt / a < 1.0
  {
    var q, r := dt / a, dt / b;
    assert q * a == dt && r * b == dt;
    if r <= 0.0 {
      Product(-r, b);
    }
    Product(r, b - a);
    if q < r {
      Product(r - q, a);
      Unique(q, r, a);
    }
    if a > dt && q >= 1.0 {
      Product(q - 1.0, a);
    }
  }

  /** One coordinate's share of the fraction: 1 if the full way fits into dt. */
  lemma ShareIs(full: real, speed: real, dt: real)
    requires full >= 0.0 && speed >= SLEW_TRANS && dt >= MICROSECOND
    ensures (full > TINY && speed * dt < full) <==> full / speed > dt
    ensures full / speed > dt ==> (speed * dt) / full == dt / (full / speed)
    ensures full / speed >= 0.0
  {
    var time := full / speed;
    assert time * speed == full;
    if time > dt {
      Product(speed - SLEW_TRANS, dt);
      assert (time - dt) * speed > 0.0;
      FractionOfTime(full, speed, dt);
    } else {
      Product(dt - time, speed);
      if time < 0.0 {
        Product(-time, speed);
      }
    }
  }

  /** The fraction is the share of the remaining time that this frame takes. */
  lemma FractionIs(transFull: real, rotFull: real, dt: real)
    requires transFull >= 0.0 && rotFull >= 0.0 && dt >= MICROSECOND
    ensures var left := TimeLeft(transFull, rotFull);
      && left >= 0.0
      && ComputeReanchorFraction(transFull, rotFull, SLEW_TRANS * dt, SLEW_ROT * dt)
           == if left <= dt then 1.0 else dt / left
  {
    ShareIs(transFull, SLEW_TRANS, dt);
    ShareIs(rotFull, SLEW_ROT, dt);
    var a, b := transFull / SLEW_TRANS, rotFull / SLEW_ROT;
    if a > dt {
      FractionOrder(dt, a, Max(a, b));
    }
    if b > dt {
      FractionOrder(dt, b, Max(a, b));
    }
  }

  // ----- lengths scale -------------------------------------------------------------

  /** The Euclidean length obeys the laws. */
  lemma EuclideanIsLawful<R>(g: Geometry<R>)
    requires forall v :: g.norm(v) >= 0.0 && g.norm(v) * g.norm(v) == SquaredNorm(v)
    ensures LawfulNorm(g)
  {
    forall v, k | k >= 0.0 ensures g.norm(Scale(v, k)) == k * g.norm(v) {
      ScaleSquares(v, k, g.norm(v));
      Product(k, g.norm(v));
      RootUnique(g.norm(Scale(v, k)), k * g.norm(v));
    }
    forall a, b ensures g.norm(Sub(a, b)) == g.norm(Sub(b, a)) {
      RootUnique(g.norm(Sub(a, b)), g.norm(Sub(b, a)));
    }
  }

  lemma RootUnique(x: real, y: real)
    requires x >= 0.0 && y >= 0.0 && x * x == y * y
    ensures x == y
  {
    RootMonotone(x, y);
    RootMonotone(y, x);
  }

  lemma ScaleSquares(v: Vec, k: real, n: real)
    requires n * n == SquaredNorm(v)
    ensures SquaredNorm(Scale(v, k)) == (k * n) * (k * n)
  {
    Square(v.x, k);
    Square(v.y, k);
    Square(v.z, k);
    Square(n, k);
    Sum3(k * k, v.x * v.x, v.y * v.y, v.z * v.z);
  }

  lemma Square(a: real, k: real)
    ensures (a * k) * (a * k) == (k * k) * (a * a) && (k * a) * (k * a) == (k * k) * (a * a)
  {
  }

  lemma Sum3(c: real, a: real, b: real, d: real)
    ensures c * a + c * b + c * d == c * (a + b + d)
  {
  }

  lemma LeverEnd(a: real, b: real, f: real)
    ensures a * (1.0 - f) + b * f - b == (a - b) * (1.0 - f)
  {
  }

  lemma LeverStart(a: real, b: real, f: real)
    ensures a * (1.0 - f) + b * f - a == (b - a) * f
  {
  }

  lemma MixFromEnd(a: Vec, b: Vec, f: real)
    ensures Sub(Mix(a, b, f), b) == Scale(Sub(a, b), 1.0 - f)
  {
    var l, r := Sub(Mix(a, b, f), b), Scale(Sub(a, b), 1.0 - f);
    assert l.x == r.x by {
      LeverEnd(a.x, b.x, f);
    }
    assert l.y == r.y by {
      LeverEnd(a.y, b.y, f);
    }
    assert l.z == r.z by {
      LeverEnd(a.z, b.z, f);
    }
  }

  lemma MixFromStart(a: Vec, b: Vec, f: real)
    ensures Sub(Mix(a, b, f), a) == Scale(Sub(b, a), f)
  {
    var l, r := Sub(Mix(a, b, f), a), Scale(Sub(b, a), f);
    assert l.x == r.x by {
      LeverStart(a.x, b.x, f);
    }
    assert l.y == r.y by {
      LeverStart(a.y, b.y, f);
    }
    assert l.z == r.z by {
      LeverStart(a.z, b.z, f);
    }
  }

  /** A point f of the way from a to b. */
  lemma DistancesOnSegment<R>(g: Geometry<R>, a: Vec, b: Vec, f: real)
    requires LawfulNorm(g) && 0.0 <= f <= 1.0
    ensures g.norm(Sub(Mix(a, b, f), b)) == (1.0 - f) * g.norm(Sub(a, b))
    ensures g.norm(Sub(Mix(a, b, f), a)) == f * g.norm(Sub(a, b))
  {
    MixFromEnd(a, b, f);
    MixFromStart(a, b, f);
    assert g.norm(Scale(Sub(a, b), 1.0 - f)) == (1.0 - f) * g.norm(Sub(a, b));
    assert g.norm(Scale(Sub(b, a), f)) == f * g.norm(Sub(b, a));
  }

  // ----- one frame -------------------------------------------------------------------

  /** A device on its way from transform to target; pose is its own world pose. */
  datatype Device<R> = Device(transform: Iso<R>, target: Iso<R>, ramp: bool)

  function TransFull<R>(g: Geometry<R>, d: Device<R>, pose: Iso<R>): real {
    g.norm(Sub(Times(g, d.transform, pose).translation, Times(g, d.target, pose).translation))
  }

  function RotFull<R>(g: Geometry<R>, d: Device<R>, pose: Iso<R>): real {
    g.angle(Times(g, d.transform, pose).rotation, Times(g, d.target, pose).rotation)
  }

  function Left<R>(g: Geometry<R>, d: Device<R>, pose: Iso<R>): real {
    TimeLeft(TransFull(g, d, pose), RotFull(g, d, pose))
  }

  /** The fraction by which this frame moves the transform; rate is the speed of the normal
      blend. */
  function FrameFraction<R>(g: Geometry<R>, d: Device<R>, pose: Iso<R>, dt: real, rate: real): real {
    if d.ramp then
      ComputeReanchorFraction(TransFull(g, d, pose), RotFull(g, d, pose), SLEW_TRANS * dt, SLEW_ROT * dt)
    else if dt * rate > 1.0 then 1.0 else if dt * rate < 0.0 then 0.0 else dt * rate
  }

  function Frame<R>(g: Geometry<R>, d: Device<R>, pose: Iso<R>, dt: real, rate: real): Device<R> {
    var f := FrameFraction(g, d, pose, dt, rate);
    Device(InterpolateAround(g, d.transform, f, d.target, pose.translation), d.target, d.ramp && f < 1.0)
  }

  /** How far the pivot moves from one device state to the next, and how far it turns. */
  function Moved<R>(g: Geometry<R>, d: Device<R>, next: Device<R>, p: Vec): real {
    g.norm(Sub(Apply(g, next.transform, p), Apply(g, d.transform, p)))
  }

  function Turned<R>(g: Geometry<R>, d: Device<R>, next: Device<R>): real {
    g.angle(d.transform.rotation, next.transform.rotation)
  }

  /** A frame of fraction f leaves 1 - f of both distances and moves by f of them. */
  ghost predicate PivotScaled<R>(g: Geometry<R>, d: Device<R>, next: Device<R>, pose: Iso<R>, f: real) {
    && TransFull(g, next, pose) == (1.0 - f) * TransFull(g, d, pose)
    && Moved(g, d, next, pose.translation) == f * TransFull(g, d, pose)
  }

  ghost predicate TurnScaled<R>(g: Geometry<R>, d: Device<R>, next: Device<R>, pose: Iso<R>, f: real) {
    && RotFull(g, next, pose) == (1.0 - f) * RotFull(g, d, pose)
    && Turned(g, d, next) == f * RotFull(g, d, pose)
  }

  ghost predicate Scaled<R>(g: Geometry<R>, d: Device<R>, next: Device<R>, pose: Iso<R>, f: real) {
    PivotScaled(g, d, next, pose, f) && TurnScaled(g, d, next, pose, f)
  }

  lemma PivotScales<R>(g: Geometry<R>, d: Device<R>, next: Device<R>, pose: Iso<R>, f: real)
    requires LawfulNorm(g) && 0.0 <= f <= 1.0
    requires next.target == d.target
    requires next.transform == InterpolateAround(g, d.transform, f, d.target, pose.translation)
    ensures PivotScaled(g, d, next, pose, f)
  {
    var p := pose.translation;
    PivotOnSegment(g, d.transform, f, d.target, p);
    DistancesOnSegment(g, Apply(g, d.transform, p), Apply(g, d.target, p), f);
  }

  lemma TurnScales<R(!new)>(g: Geometry<R>, d: Device<R>, next: Device<R>, pose: Iso<R>, f: real)
    requires LawfulArcs(g) && 0.0 <= f <= 1.0
    requires next.target == d.target
    requires next.transform.rotation == g.slerp(d.transform.rotation, d.target.rotation, f)
    ensures TurnScaled(g, d, next, pose, f)
  {
  }

  lemma FrameScales<R(!new)>(g: Geometry<R>, d: Device<R>, next: Device<R>, pose: Iso<R>, f: real)
    requires Lawful(g) && 0.0 <= f <= 1.0
    requires next.target == d.target
    requires next.transform == InterpolateAround(g, d.transform, f, d.target, pose.translation)
    ensures Scaled(g, d, next, pose, f)
  {
    PivotScales(g, d, next, pose, f);
    TurnScales(g, d, next, pose, f);
  }

  lemma TimeScales(t: real, r: real, u: real, v: real, f: real, dt: real)
    requires 0.0 <= f <= 1.0 && f * TimeLeft(t, r) == dt && u == (1.0 - f) * t && v == (1.0 - f) * r
    ensures TimeLeft(u, v) == TimeLeft(t, r) - dt
  {
    var a, b := t / SLEW_TRANS, r / SLEW_ROT;
    assert u / SLEW_TRANS == (1.0 - f) * a;
    assert v / SLEW_ROT == (1.0 - f) * b;
    Product(1.0 - f, Abs(a - b));
  }

  lemma LeftDrops<R>(g: Geometry<R>, d: Device<R>, next: Device<R>, pose: Iso<R>, f: real, dt: real)
    requires Scaled(g, d, next, pose, f) && 0.0 <= f <= 1.0 && f * Left(g, d, pose) == dt
    ensures Left(g, next, pose) == Left(g, d, pose) - dt
  {
    TimeScales(TransFull(g, d, pose), RotFull(g, d, pose), TransFull(g, next, pose), RotFull(g, next, pose), f, dt);
  }

  lemma StepCapped<R>(g: Geometry<R>, d: Device<R>, next: Device<R>, pose: Iso<R>, f: real, dt: real)
    requires Scaled(g, d, next, pose, f) && 0.0 <= f && f * Left(g, d, pose) <= dt
    ensures Moved(g, d, next, pose.translation) <= SLEW_TRANS * dt && Turned(g, d, next) <= SLEW_ROT * dt
  {
    Capped(TransFull(g, d, pose), SLEW_TRANS, f, dt, Left(g, d, pose));
    Capped(RotFull(g, d, pose), SLEW_ROT, f, dt, Left(g, d, pose));
  }

  lemma Capped(full: real, speed: real, f: real, dt: real, left: real)
    requires speed > 0.0 && 0.0 <= f && f * left <= dt && full / speed <= left
    ensures f * full <= speed * dt
  {
    var time := full / speed;
    assert time * speed == full;
    Product(left - time, speed);
    Product(f, left * speed - full);
    Product(dt - f * left, speed);
    assert f * (left * speed) == (f * left) * speed;
  }

  lemma Arrives<R(!new)>(g: Geometry<R>, t: Iso<R>, target: Iso<R>, p: Vec)
    requires LawfulArcs(g)
    ensures InterpolateAround(g, t, 1.0, target, p) == target
  {
    assert g.slerp(t.rotation, target.rotation, 1.0) == target.rotation;
  }

  lemma Distances<R(!new)>(g: Geometry<R>, d: Device<R>, pose: Iso<R>)
    requires Lawful(g)
    ensures TransFull(g, d, pose) >= 0.0 && RotFull(g, d, pose) >= 0.0
  {
  }

  /** The fraction of a ramp frame. */
  lemma RampFraction<R(!new)>(g: Geometry<R>, d: Device<R>, pose: Iso<R>, dt: real, rate: real) returns (f: real)
    requires Lawful(g) && d.ramp && dt >= MICROSECOND
    ensures f == FrameFraction(g, d, pose, dt, rate) && 0.0 <= f <= 1.0 && f * Left(g, d, pose) <= dt
    ensures Left(g, d, pose) <= dt <==> f == 1.0
    ensures Left(g, d, pose) > dt ==> f * Left(g, d, pose) == dt
  {
    Distances(g, d, pose);
    FractionIs(TransFull(g, d, pose), RotFull(g, d, pose), dt);
    f := FrameFraction(g, d, pose, dt, rate);
    if Left(g, d, pose) > dt {
      FractionOrder(dt, Left(g, d, pose), Left(g, d, pose));
    }
  }

  lemma FrameMoves<R(!new)>(g: Geometry<R>, d: Device<R>, pose: Iso<R>, dt: real, rate: real, f: real)
    requires Lawful(g) && d.ramp && f == FrameFraction(g, d, pose, dt, rate) && 0.0 <= f <= 1.0
    ensures Scaled(g, d, Frame(g, d, pose, dt, rate), pose, f)
  {
    FrameScales(g, d, Frame(g, d, pose, dt, rate), pose, f);
  }

  lemma FrameArrives<R(!new)>(g: Geometry<R>, d: Device<R>, pose: Iso<R>, dt: real, rate: real)
    requires Lawful(g) && FrameFraction(g, d, pose, dt, rate) == 1.0
    ensures Frame(g, d, pose, dt, rate) == Device(d.target, d.target, false)
  {
    Arrives(g, d.transform, d.target, pose.translation);
  }

  /** What a frame of the ramp does: the time left drops by exactly dt; once it is at most dt,
      the target is reached and the latch clears. */
  ghost predicate RampStep<R>(g: Geometry<R>, d: Device<R>, next: Device<R>, pose: Iso<R>, dt: real) {
    if Left(g, d, pose) <= dt then next == Device(d.target, d.target, false)
    else next.target == d.target && next.ramp && Left(g, next, pose) == Left(g, d, pose) - dt
  }

  /** The re-anchor law for one frame of at least a microsecond. */
  lemma FrameLaw<R(!new)>(g: Geometry<R>, d: Device<R>, pose: Iso<R>, dt: real, rate: real)
    requires Lawful(g) && d.ramp && dt >= MICROSECOND
    ensures RampStep(g, d, Frame(g, d, pose, dt, rate), pose, dt)
  {
    var f := RampFraction(g, d, pose, dt, rate);
    if f == 1.0 {
      FrameArrives(g, d, pose, dt, rate);
    } else {
      FrameMoves(g, d, pose, dt, rate, f);
      LeftDrops(g, d, Frame(g, d, pose, dt, rate), pose, f, dt);
    }
  }

  /** No frame of the ramp exceeds the caps. */
  lemma FrameCaps<R(!new)>(g: Geometry<R>, d: Device<R>, pose: Iso<R>, dt: real, rate: real)
    requires Lawful(g) && d.ramp && dt >= MICROSECOND
    ensures Moved(g, d, Frame(g, d, pose, dt, rate), pose.translation) <= 0.045 * dt
    ensures Turned(g, d, Frame(g, d, pose, dt, rate)) <= 0.0785 * dt
  {
    var f := RampFraction(g, d, pose, dt, rate);
    FrameMoves(g, d, pose, dt, rate, f);
    StepCapped(g, d, Frame(g, d, pose, dt, rate), pose, f, dt);
  }

  /** Without the ramp a frame leaves 1 - dt * rate of both distances, nothing if that is negative. */
  lemma NormalFrame<R(!new)>(g: Geometry<R>, d: Device<R>, pose: Iso<R>, dt: real, rate: real)
    requires Lawful(g) && !d.ramp && dt * rate >= 0.0
    ensures var next, left := Frame(g, d, pose, dt, rate), Max(1.0 - dt * rate, 0.0);
      && TransFull(g, next, pose) == left * TransFull(g, d, pose)
      && RotFull(g, next, pose) == left * RotFull(g, d, pose)
      && next.target == d.target && !next.ramp
  {
    var f := FrameFraction(g, d, pose, dt, rate);
    FrameScales(g, d, Frame(g, d, pose, dt, rate), pose, f);
  }

  // ----- the whole ramp -----------------------------------------------------------------

  /** Frames of a stationary device towards a fixed target. */
  ghost predicate Run<R>(g: Geometry<R>, states: seq<Device<R>>, pose: Iso<R>, dts: seq<real>, rate: real) {
    && |states| == |dts| + 1
    && forall n :: 0 <= n < |dts| ==> states[n + 1] == Frame(g, states[n], pose, dts[n], rate)
  }

  function Elapsed(dts: seq<real>, n: nat): real
    requires n <= |dts|
  {
    if n == 0 then 0.0 else Elapsed(dts, n - 1) + dts[n - 1]
  }

  lemma RunStep<R(!new)>(g: Geometry<R>, states: seq<Device<R>>, pose: Iso<R>, dts: seq<real>, rate: real, n: nat)
    requires Lawful(g) && Run(g, states, pose, dts, rate) && n < |dts|
    requires states[n].ramp && dts[n] >= MICROSECOND
    ensures RampStep(g, states[n], states[n + 1], pose, dts[n])
  {
    FrameLaw(g, states[n], pose, dts[n], rate);
  }

  /** Until the time needed at the start has passed, the ramp is on and the time left is the time
      needed minus the time elapsed. */
  lemma {:induction false} OnTheWay<R(!new)>(
    g: Geometry<R>, states: seq<Device<R>>, pose: Iso<R>, dts: seq<real>, rate: real, n: nat)
    requires Lawful(g) && Run(g, states, pose, dts, rate) && n <= |dts| && states[0].ramp
    requires forall m :: 0 <= m < |dts| ==> dts[m] >= MICROSECOND
    requires n == 0 || Elapsed(dts, n) < Left(g, states[0], pose)
    ensures states[n].ramp && states[n].target == states[0].target
    ensures Left(g, states[n], pose) == Left(g, states[0], pose) - Elapsed(dts, n)
  {
    if n > 0 {
      assert dts[n - 1] >= MICROSECOND;
      OnTheWay(g, states, pose, dts, rate, n - 1);
      RunStep(g, states, pose, dts, rate, n - 1);
    }
  }

  /** The ramp ends, on the target, with the first frame at which the time elapsed reaches the
      time needed at the start. */
  lemma RampEnds<R(!new)>(
    g: Geometry<R>, states: seq<Device<R>>, pose: Iso<R>, dts: seq<real>, rate: real, n: nat)
    requires Lawful(g) && Run(g, states, pose, dts, rate) && n < |dts| && states[0].ramp
    requires forall m :: 0 <= m < |dts| ==> dts[m] >= MICROSECOND
    requires n == 0 || Elapsed(dts, n) < Left(g, states[0], pose)
    requires Elapsed(dts, n + 1) >= Left(g, states[0], pose)
    ensures states[n + 1] == Device(states[0].target, states[0].target, false)
  {
    OnTheWay(g, states, pose, dts, rate, n);
    RunStep(g, states, pose, dts, rate, n);
  }

  // ----- the frame as the driver performs it ------------------------------------------------

  /** The transform of one device, updated in place by every pose update. */
  class DeviceTransform<R> {
    var transform: Iso<R>
    var targetTransform: Iso<R>
    var reanchorRamp: bool
    var lastPoll: real

    constructor (start: Iso<R>, target: Iso<R>, ramp: bool, now: real)
      ensures View() == Device(start, target, ramp) && lastPoll == now
    {
      transform, targetTransform, reanchorRamp, lastPoll := start, target, ramp, now;
    }

    function View(): Device<R>
      reads this
    {
      Device(transform, targetTransform, reanchorRamp)
    }

    /** How far this update moves towards the target. */
    method Fraction(g: Geometry<R>, pose: Iso<R>, dt: real, rate: real) returns (f: real)
      ensures f == FrameFraction(g, View(), pose, dt, rate)
    {
      if reanchorRamp {
        var current, target := Times(g, transform, pose), Times(g, targetTransform, pose);
        var transFull := g.norm(Sub(current.translation, target.translation));
        var rotFull := g.angle(current.rotation, target.rotation);
        f := ComputeReanchorFraction(transFull, rotFull, SLEW_TRANS * dt, SLEW_ROT * dt);
      } else {
        f := dt * rate;
        if f > 1.0 {
          f := 1.0;
        }
        if f < 0.0 {
          f := 0.0;
        }
      }
    }

    /** One pose update at time now. */
    method BlendTransform(g: Geometry<R>, pose: Iso<R>, now: real, rate: real)
      modifies this
      ensures View() == Frame(g, old(View()), pose, now - old(lastPoll), rate) && lastPoll == now
    {
      var dt := now - lastPoll;
      lastPoll := now;
      var f := Fraction(g, pose, dt, rate);
      transform := InterpolateAround(g, transform, f, targetTransform, pose.translation);
      if reanchorRamp && f >= 1.0 {
        reanchorRamp := false;
      }
    }
  }
}
