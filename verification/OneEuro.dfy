/** The position part of the one-euro pose filter (SmartSmoothingShadowMath.h) over exact reals.

    The rotation takes part only through its innovation angle, which can force a reseed; the
    Euclidean distance is a parameter. */
module OneEuro {

  import opened Reals

  const PI := 3.1415926535897932384626433832795

  type Vec = v: seq<real> | |v| == 3 witness [0.0, 0.0, 0.0]

  function Clamp(value: real, lo: real, hi: real): real {
    Min(hi, Max(lo, value))
  }

  function Saturate(value: real): (s: real)
    ensures 0.0 <= s <= 1.0
  {
    Clamp(value, 0.0, 1.0)
  }

  function Lerp(a: real, b: real, t: real): real {
    a + (b - a) * Saturate(t)
  }

  function SmoothStep(edge0: real, edge1: real, x: real): real {
    if edge1 <= edge0 then if x >= edge1 then 1.0 else 0.0
    else
      var t := Saturate((x - edge0) / (edge1 - edge0));
      t * t * (3.0 - 2.0 * t)
  }

  /** Seconds between samples as the filter uses them. */
  function ClampDt(dt: real): (d: real)
    ensures 0.001 <= d <= 0.050
  {
    Clamp(dt, 0.001, 0.050)
  }

  function Tau(cutoffHz: real): (t: real)
    ensures t > 0.0
  {
    var c := Clamp(cutoffHz, 0.001, 120.0);
    Positive(2.0 * PI * c);
    1.0 / (2.0 * PI * c)
  }

  function AlphaFromCutoffHz(cutoffHz: real, dt: real): (a: real)
    ensures 0.0 < a < 1.0
  {
    Ratio(ClampDt(dt), Tau(cutoffHz));
    ClampDt(dt) / (ClampDt(dt) + Tau(cutoffHz))
  }

  function AlphaFromTau(tau: real, dt: real): (a: real)
    ensures 0.0 < a < 1.0
  {
    Ratio(ClampDt(dt), Max(0.0005, tau));
    ClampDt(dt) / (ClampDt(dt) + Max(0.0005, tau))
  }

  function UpdateEnvelope(current: real, target: real, dt: real, attackTau: real, releaseTau: real): (e: real)
    ensures 0.0 <= e <= 1.0
  {
    var target := Saturate(target);
    var alpha := AlphaFromTau(if target > current then attackTau else releaseTau, dt);
    Saturate(current + alpha * (target - current))
  }

  // ----- quotients ---------------------------------------------------------------

  lemma Positive(x: real)
    requires x > 0.0
    ensures 1.0 / x > 0.0
  {
    var q := 1.0 / x;
    assert q * x == 1.0;
    if q <= 0.0 {
      Product(-q, x);
    }
  }

  lemma Ratio(a: real, b: real)
    requires a > 0.0 && b > 0.0
    ensures 0.0 < a / (a + b) < 1.0
  {
    var q := a / (a + b);
    assert q * (a + b) == a;
    if q <= 0.0 {
      Product(-q, a + b);
    } else if q >= 1.0 {
      Product(q - 1.0, a + b);
    }
  }

  lemma RatioGrows(a: real, c: real, b: real, d: real)
    requires 0.0 < a <= c && 0.0 < d <= b
    ensures a / (a + b) <= c / (c + d)
  {
    var q, r := a / (a + b), c / (c + d);
    assert q * (a + b) == a && r * (c + d) == c;
    Ratio(a, b);
    // With q < 1: q * b == a * (1 - q) and c * (1 - q) >= q * d.
    assert q * b == a * (1.0 - q);
    Product(q, b - d);
    Product(c - a, 1.0 - q);
    assert c * (1.0 - q) >= q * d;
    if r < q {
      Product(q - r, c + d);
    }
  }

  lemma TauShrinks(c: real, d: real)
    requires c <= d
    ensures Tau(d) <= Tau(c)
  {
    var x, y := 2.0 * PI * Clamp(c, 0.001, 120.0), 2.0 * PI * Clamp(d, 0.001, 120.0);
    var q, r := 1.0 / x, 1.0 / y;
    assert q * x == 1.0 && r * y == 1.0;
    Positive(y);
    Product(r, y - x);
    if q < r {
      Product(r - q, x);
      assert (r - q) * x > 0.0;
    }
  }

  /** A higher cutoff or a longer step lets more of the new sample through. */
  lemma AlphaGrows(c: real, d: real, dt: real, du: real)
    requires c <= d && dt <= du
    ensures AlphaFromCutoffHz(c, dt) <= AlphaFromCutoffHz(d, du)
  {
    TauShrinks(c, d);
    RatioGrows(ClampDt(dt), ClampDt(du), Tau(c), Tau(d));
  }

  /** The gain is that of a first-order low pass: with w = 2 pi * cutoff * dt, alpha = w / (1 + w). */
  lemma AlphaIsLowPass(cutoffHz: real, dt: real)
    requires 0.001 <= cutoffHz <= 120.0 && 0.001 <= dt <= 0.050
    ensures var w := 2.0 * PI * cutoffHz * dt; AlphaFromCutoffHz(cutoffHz, dt) * (1.0 + w) == w
  {
    var a, x, tau := AlphaFromCutoffHz(cutoffHz, dt), 2.0 * PI * cutoffHz, Tau(cutoffHz);
    assert tau * x == 1.0 && a * (dt + tau) == dt;
    LowPass(a, x, tau, dt);
  }

  lemma LowPass(a: real, x: real, tau: real, dt: real)
    requires tau * x == 1.0 && a * (dt + tau) == dt
    ensures a * (1.0 + x * dt) == x * dt
  {
    assert a * (dt + tau) * x == dt * x;
    assert a * (dt + tau) * x == a * (dt * x) + a * (tau * x);
  }

  /** A rising target is approached with the attack constant, a falling one with the release constant. */
  lemma EnvelopeLaw(current: real, target: real, dt: real, attackTau: real, releaseTau: real)
    requires 0.0 <= current <= 1.0 && 0.0 <= target <= 1.0 && 0.001 <= dt <= 0.050
    requires attackTau >= 0.0005 && releaseTau >= 0.0005
    ensures var e := UpdateEnvelope(current, target, dt, attackTau, releaseTau);
      && (target > current ==> (e - current) * (dt + attackTau) == (target - current) * dt)
      && (target <= current ==> (current - e) * (dt + releaseTau) == (current - target) * dt)
  {
    var tau := if target > current then attackTau else releaseTau;
    var alpha := AlphaFromTau(tau, dt);
    assert alpha * (dt + tau) == dt;
    StaysInside(current, target, alpha);
    PartOfGap(current, target, alpha, dt + tau, dt);
  }

  lemma StaysInside(current: real, target: real, alpha: real)
    requires 0.0 <= current <= 1.0 && 0.0 <= target <= 1.0 && 0.0 < alpha < 1.0
    ensures 0.0 <= current + alpha * (target - current) <= 1.0
  {
    Product(alpha, target);
    Product(1.0 - alpha, current);
    Product(alpha, 1.0 - target);
    Product(1.0 - alpha, 1.0 - current);
  }

  lemma PartOfGap(current: real, target: real, alpha: real, d: real, dt: real)
    requires alpha * d == dt
    ensures (alpha * (target - current)) * d == (target - current) * dt
  {
  }

  // ----- parameters ----------------------------------------------------------------

  /** The parameters of the position filter. */
  datatype Params = Params(
    minCutoffHz: real,
    betaHzPerMps: real,
    derivCutoffHz: real,
    maxCutoffHz: real,
    releaseScale: real,
    derivedDeadband: real,
    reportedDeadband: real,
    stillSpeed: real,
    movingSpeed: real,
    innovationTau: real,
    innovationDeadband: real,
    errStillM: real,
    errMovingM: real,
    attackTau: real,
    releaseTau: real,
    positionJumpM: real,
    rotationJumpRad: real,
    resetGap: real)

  predicate Usable(p: Params) {
    p.minCutoffHz <= p.maxCutoffHz && p.innovationTau > 0.0 && p.positionJumpM >= 0.0
  }

  /** The minimum cutoff for a smoothness setting; power is (1 - smoothness / 100) to the 1.8. */
  function MinCutoff(smoothness: int, power: real): real {
    Lerp(0.45 + 16.0 * power, 0.25, SmoothStep(85.0, 100.0, smoothness as real))
  }

  /** The parameters for a smoothness setting. */
  function BuildParams(smoothness: int, power: real): (p: Params)
    requires 0 <= smoothness <= 255 && 0.0 <= power <= 1.0
    ensures Usable(p) && 0.25 <= p.minCutoffHz == MinCutoff(smoothness, power) <= 16.45
  {
    var s01 := Clamp(smoothness as real / 100.0, 0.0, 1.0);
    var topEnd := SmoothStep(85.0, 100.0, smoothness as real);
    LerpBetween(0.45 + 16.0 * power, 0.25, topEnd);
    Params(MinCutoff(smoothness, power), Lerp(6.0, 24.0, s01) * Lerp(1.0, 0.55, topEnd), 4.0, 90.0,
           Lerp(1.0, 0.40, topEnd), 0.03, 0.06, 0.03, Lerp(0.35, 0.60, topEnd), 0.08, 0.0, 0.012, 0.060, 0.006, 0.045,
           0.50, 1.0471975511965976, 0.25)
  }

  /** An interpolated value lies between its ends. */
  lemma LerpBetween(a: real, b: real, t: real)
    ensures Min(a, b) <= Lerp(a, b, t) <= Max(a, b)
  {
    var s := Saturate(t);
    if a <= b {
      Product(b - a, s);
      Product(b - a, 1.0 - s);
    } else {
      Product(a - b, s);
      Product(a - b, 1.0 - s);
    }
  }

  lemma TopEndGrows(x: real, y: real)
    requires x <= y
    ensures 0.0 <= SmoothStep(85.0, 100.0, x) <= SmoothStep(85.0, 100.0, y) <= 1.0
  {
    var s, t := Saturate((x - 85.0) / (100.0 - 85.0)), Saturate((y - 85.0) / (100.0 - 85.0));
    CubicMonotone(0.0, s);
    CubicMonotone(s, t);
    CubicMonotone(t, 1.0);
  }

  /** A lower start and a longer way towards the lower end. */
  lemma LerpFalls(a: real, a': real, t: real, t': real)
    requires 0.25 <= a' <= a && 0.0 <= t <= t' <= 1.0
    ensures a' + (0.25 - a') * t' <= a + (0.25 - a) * t
  {
    Product(a - a', 1.0 - t);
    Product(a' - 0.25, t' - t);
  }

  /** The smoother the setting, the lower the minimum cutoff, for every power that falls with it. */
  lemma SmootherIsSlower(smoothness: int, smoother: int, power: real, power': real)
    requires 0 <= smoothness <= smoother <= 255 && 0.0 <= power' <= power <= 1.0
    ensures MinCutoff(smoother, power') <= MinCutoff(smoothness, power)
  {
    var t, t' := SmoothStep(85.0, 100.0, smoothness as real), SmoothStep(85.0, 100.0, smoother as real);
    TopEndGrows(smoothness as real, smoother as real);
    LerpFalls(0.45 + 16.0 * power, 0.45 + 16.0 * power', t, t');
  }

  // ----- one sample --------------------------------------------------------------------

  /** The filter for one device. */
  datatype State = State(initialized: bool, prevRaw: Vec, filtered: Vec, speedHat: real, release: real)

  /** A pose sample; it is not valid when the position is not finite or the rotation degenerate. */
  datatype Sample = Sample(valid: bool, pos: Vec, rotInnovation: real, reportedSpeed: real, dt: real)

  function SquaredDistance(a: Vec, b: Vec): real {
    (a[0] - b[0]) * (a[0] - b[0]) + (a[1] - b[1]) * (a[1] - b[1]) + (a[2] - b[2]) * (a[2] - b[2])
  }

  /** The Euclidean distance. */
  ghost predicate IsDistance(dist: (Vec, Vec) -> real) {
    forall a, b :: dist(a, b) >= 0.0 && dist(a, b) * dist(a, b) == SquaredDistance(a, b)
  }

  function Seed(pos: Vec): State {
    State(true, pos, pos, 0.0, 1.0)
  }

  /** The first sample, a long gap and a large jump restart the filter. */
  predicate Reseeds(s: State, p: Params, x: Sample, dist: (Vec, Vec) -> real) {
    || !s.initialized
    || x.dt <= 0.0 || x.dt > p.resetGap
    || dist(x.pos, s.filtered) > p.positionJumpM || x.rotInnovation > p.rotationJumpRad
  }

  function SpeedHat(s: State, p: Params, x: Sample, dist: (Vec, Vec) -> real): real
    requires Usable(p)
  {
    var dt := ClampDt(x.dt);
    var derived := Min(dist(x.pos, s.prevRaw) / dt, 15.0);
    var instant := Max(Max(Max(0.0, derived - p.derivedDeadband), Max(0.0, x.reportedSpeed - p.reportedDeadband)),
                       Max(0.0, dist(x.pos, s.filtered) / p.innovationTau - p.innovationDeadband));
    s.speedHat + AlphaFromCutoffHz(p.derivCutoffHz, dt) * (instant - s.speedHat)
  }

  function Release(s: State, p: Params, x: Sample, speedHat: real, innovation: real): real {
    var target := Max(SmoothStep(p.stillSpeed, p.movingSpeed, speedHat),
                      SmoothStep(p.errStillM, p.errMovingM, innovation));
    UpdateEnvelope(s.release, target, ClampDt(x.dt), p.attackTau, p.releaseTau)
  }

  /** The speed that would close the distance beyond the still zone in one sample. */
  function ErrSpeed(p: Params, dt: real, innovation: real): real {
    Min(Max(0.0, innovation - p.errStillM) / ClampDt(dt), 3.0)
  }

  /** How much the speed raises the cutoff. */
  function Rise(p: Params, dt: real, speedHat: real, innovation: real): real {
    p.betaHzPerMps * Max(speedHat, ErrSpeed(p, dt, innovation))
  }

  function Cutoff(p: Params, dt: real, speedHat: real, effective: real, innovation: real): (c: real)
    ensures p.minCutoffHz <= p.maxCutoffHz ==> p.minCutoffHz <= c
  {
    Max(Clamp(p.minCutoffHz + Rise(p, dt, speedHat, innovation), p.minCutoffHz, p.maxCutoffHz),
        Lerp(p.minCutoffHz, p.maxCutoffHz, effective))
  }

  /** The gain of a cutoff, opened further by the release. */
  function Gain(cutoff: real, dt: real, effective: real): real {
    var a := AlphaFromCutoffHz(cutoff, dt);
    a + (1.0 - a) * effective
  }

  /** How far the release opens the filter. */
  function Effective(p: Params, release: real): (e: real)
    ensures 0.0 <= e <= 1.0
  {
    Saturate(release * p.releaseScale)
  }

  /** Fully released, the filter passes the sample through. */
  lemma FullyReleased(cutoff: real, dt: real)
    ensures Gain(cutoff, dt, 1.0) == 1.0
  {
  }

  /** How much of the new sample the filter takes over. */
  function Alpha(p: Params, dt: real, speedHat: real, release: real, innovation: real): real {
    Gain(Cutoff(p, dt, speedHat, Effective(p, release), innovation), dt, Effective(p, release))
  }

  function Toward(from: real, to: real, alpha: real): real {
    from + alpha * (to - from)
  }

  function Blend(from: Vec, to: Vec, alpha: real): Vec {
    [Toward(from[0], to[0], alpha), Toward(from[1], to[1], alpha), Toward(from[2], to[2], alpha)]
  }

  /** The gain of a step that does not reseed. */
  function StepAlpha(s: State, p: Params, x: Sample, dist: (Vec, Vec) -> real): real
    requires Usable(p)
  {
    var innovation := dist(x.pos, s.filtered);
    var speedHat := SpeedHat(s, p, x, dist);
    Alpha(p, x.dt, speedHat, Release(s, p, x, speedHat, innovation), innovation)
  }

  function FilterStep(s: State, p: Params, x: Sample, dist: (Vec, Vec) -> real): State
    requires Usable(p)
  {
    if !x.valid then s.(initialized := false)
    else if Reseeds(s, p, x, dist) then Seed(x.pos)
    else
      var speedHat := SpeedHat(s, p, x, dist);
      State(true, x.pos, Blend(s.filtered, x.pos, StepAlpha(s, p, x, dist)), speedHat,
            Release(s, p, x, speedHat, dist(x.pos, s.filtered)))
  }

  // ----- the gain ----------------------------------------------------------------------------

  lemma GainAbove(least: real, cutoff: real, dt: real, effective: real)
    requires least <= cutoff && 0.0 <= effective <= 1.0
    ensures 0.0 < AlphaFromCutoffHz(least, dt) <= Gain(cutoff, dt, effective) <= 1.0
  {
    AlphaGrows(least, cutoff, dt, dt);
    Fill(AlphaFromCutoffHz(cutoff, dt), effective);
  }

  lemma AlphaRange(p: Params, dt: real, speedHat: real, release: real, innovation: real)
    requires Usable(p)
    ensures 0.0 < AlphaFromCutoffHz(p.minCutoffHz, dt) <= Alpha(p, dt, speedHat, release, innovation) <= 1.0
  {
    GainAbove(p.minCutoffHz, Cutoff(p, dt, speedHat, Effective(p, release), innovation), dt, Effective(p, release));
  }

  lemma Fill(a: real, e: real)
    requires 0.0 < a < 1.0 && 0.0 <= e <= 1.0
    ensures a <= a + (1.0 - a) * e <= 1.0
  {
    Product(1.0 - a, e);
    Product(1.0 - a, 1.0 - e);
  }

  /** Whatever the state and the sample, the gain is positive, at most 1 and at least the gain
      of the minimum cutoff. */
  lemma GainRange(s: State, p: Params, x: Sample, dist: (Vec, Vec) -> real)
    requires Usable(p)
    ensures 0.0 < AlphaFromCutoffHz(p.minCutoffHz, x.dt) <= StepAlpha(s, p, x, dist) <= 1.0
  {
    var innovation := dist(x.pos, s.filtered);
    var speedHat := SpeedHat(s, p, x, dist);
    AlphaRange(p, x.dt, speedHat, Release(s, p, x, speedHat, innovation), innovation);
  }

  // ----- fast motion opens the filter -----------------------------------------------------------

  lemma Scaled(b: real, x: real, y: real)
    requires b >= 0.0 && x <= y
    ensures b * x <= b * y
  {
    Product(b, y - x);
  }

  lemma Divided(x: real, y: real, d: real)
    requires d > 0.0 && x <= y
    ensures x / d <= y / d
  {
    var q, r := x / d, y / d;
    assert q * d == x && r * d == y;
  }

  lemma LerpGrows(a: real, b: real, t: real, u: real)
    requires a <= b && t <= u
    ensures Lerp(a, b, t) <= Lerp(a, b, u)
  {
    Affine(a, b, Saturate(t), Saturate(u));
  }

  lemma Affine(a: real, b: real, s: real, r: real)
    requires a <= b && s <= r
    ensures a + (b - a) * s <= a + (b - a) * r
  {
    Product(b - a, r - s);
  }

  lemma ErrSpeedGrows(p: Params, dt: real, i: real, j: real)
    requires i <= j
    ensures ErrSpeed(p, dt, i) <= ErrSpeed(p, dt, j)
  {
    Divided(Max(0.0, i - p.errStillM), Max(0.0, j - p.errStillM), ClampDt(dt));
  }

  /** The cutoff rises with the speed, with the release and with the distance to the raw
      position. */
  lemma CutoffGrows(p: Params, dt: real, v: real, w: real, e: real, f: real, i: real, j: real)
    requires Usable(p) && p.betaHzPerMps >= 0.0 && v <= w && e <= f && i <= j
    ensures Cutoff(p, dt, v, e, i) <= Cutoff(p, dt, w, f, j)
  {
    RiseGrows(p, dt, v, w, i, j);
    LerpGrows(p.minCutoffHz, p.maxCutoffHz, e, f);
    LargerOf(p, Rise(p, dt, v, i), Rise(p, dt, w, j),
             Lerp(p.minCutoffHz, p.maxCutoffHz, e), Lerp(p.minCutoffHz, p.maxCutoffHz, f));
  }

  lemma RiseGrows(p: Params, dt: real, v: real, w: real, i: real, j: real)
    requires p.betaHzPerMps >= 0.0 && v <= w && i <= j
    ensures Rise(p, dt, v, i) <= Rise(p, dt, w, j)
  {
    ErrSpeedGrows(p, dt, i, j);
    MaxScaled(p.betaHzPerMps, v, ErrSpeed(p, dt, i), w, ErrSpeed(p, dt, j));
  }

  lemma MaxScaled(b: real, v: real, x: real, w: real, y: real)
    requires b >= 0.0 && v <= w && x <= y
    ensures b * Max(v, x) <= b * Max(w, y)
  {
    Scaled(b, Max(v, x), Max(w, y));
  }

  lemma LargerOf(p: Params, lo: real, hi: real, a: real, b: real)
    requires lo <= hi && a <= b
    ensures Max(Clamp(p.minCutoffHz + lo, p.minCutoffHz, p.maxCutoffHz), a)
         <= Max(Clamp(p.minCutoffHz + hi, p.minCutoffHz, p.maxCutoffHz), b)
  {
  }

  /** At rest the filter smooths as hard as it can: its gain is that of the minimum cutoff. */
  lemma AtRest(p: Params, dt: real, innovation: real)
    requires Usable(p) && innovation <= p.errStillM
    ensures Alpha(p, dt, 0.0, 0.0, innovation) == AlphaFromCutoffHz(p.minCutoffHz, dt)
  {
    StillCutoff(p, dt, innovation);
    assert Effective(p, 0.0) == 0.0;
  }

  lemma StillCutoff(p: Params, dt: real, innovation: real)
    requires Usable(p) && innovation <= p.errStillM
    ensures Cutoff(p, dt, 0.0, 0.0, innovation) == p.minCutoffHz
  {
    assert 0.0 / ClampDt(dt) == 0.0;
    assert Lerp(p.minCutoffHz, p.maxCutoffHz, 0.0) == p.minCutoffHz;
  }

  // ----- runs -----------------------------------------------------------------------------------

  /** The state before each sample and after the last. */
  ghost predicate Run(states: seq<State>, samples: seq<Sample>, p: Params, dist: (Vec, Vec) -> real)
    requires Usable(p)
  {
    && |states| == |samples| + 1
    && forall n :: 0 <= n < |samples| ==> states[n + 1] == FilterStep(states[n], p, samples[n], dist)
  }

  /** What a step with a valid sample does to the output: a gain of 1 stands for a reseed. */
  lemma StepMoves(s: State, p: Params, x: Sample, dist: (Vec, Vec) -> real) returns (a: real)
    requires Usable(p) && x.valid
    ensures 0.0 < AlphaFromCutoffHz(p.minCutoffHz, x.dt) <= a <= 1.0
    ensures FilterStep(s, p, x, dist).filtered == Blend(s.filtered, x.pos, a)
    ensures Reseeds(s, p, x, dist) ==> a == 1.0
    ensures !Reseeds(s, p, x, dist) ==> a == StepAlpha(s, p, x, dist)
  {
    if Reseeds(s, p, x, dist) {
      a := 1.0;
      assert Blend(s.filtered, x.pos, 1.0) == x.pos;
    } else {
      a := StepAlpha(s, p, x, dist);
      GainRange(s, p, x, dist);
    }
  }

  lemma TowardBetween(from: real, to: real, a: real, lo: real, hi: real)
    requires lo <= from <= hi && lo <= to <= hi && 0.0 <= a <= 1.0
    ensures lo <= Toward(from, to, a) <= hi
  {
    Product(from - lo, 1.0 - a);
    Product(to - lo, a);
    Product(hi - from, 1.0 - a);
    Product(hi - to, a);
  }

  lemma RunMoves(states: seq<State>, samples: seq<Sample>, p: Params, dist: (Vec, Vec) -> real, n: nat)
    returns (a: real)
    requires Usable(p) && Run(states, samples, p, dist) && n < |samples| && samples[n].valid
    ensures 0.0 < AlphaFromCutoffHz(p.minCutoffHz, samples[n].dt) <= a <= 1.0
    ensures states[n + 1].filtered == Blend(states[n].filtered, samples[n].pos, a)
    ensures Reseeds(states[n], p, samples[n], dist) ==> states[n + 1].filtered == samples[n].pos
  {
    a := StepMoves(states[n], p, samples[n], dist);
  }

  /** Every filtered coordinate stays within the raw samples since the last reseed. */
  lemma {:induction false} WithinRaw(
    states: seq<State>, samples: seq<Sample>, p: Params, dist: (Vec, Vec) -> real,
    r: nat, n: nat, k: nat, lo: real, hi: real)
    requires Usable(p) && Run(states, samples, p, dist) && r < n <= |samples| && k < 3
    requires Reseeds(states[r], p, samples[r], dist)
    requires forall m :: r <= m < n ==> samples[m].valid && lo <= samples[m].pos[k] <= hi
    ensures lo <= states[n].filtered[k] <= hi
  {
    var a := RunMoves(states, samples, p, dist, n - 1);
    assert lo <= samples[n - 1].pos[k] <= hi;
    if n > r + 1 {
      WithinRaw(states, samples, p, dist, r, n - 1, k, lo, hi);
      TowardBetween(states[n - 1].filtered[k], samples[n - 1].pos[k], a, lo, hi);
    }
  }

  lemma Shrinks(x: real, a: real, e: real)
    requires 0.0 < a <= 1.0 && e == (1.0 - a) * x
    ensures e * e <= x * x
  {
    if x >= 0.0 {
      Product(1.0 - a, x);
      Product(a, x);
      SquaresUpTo(e, x);
    } else {
      Product(1.0 - a, -x);
      Product(a, -x);
      SquaresUpTo(-e, -x);
    }
  }

  lemma SquaresUpTo(x: real, y: real)
    requires 0.0 <= x <= y
    ensures x * x <= y * y
  {
    Product(y - x, y + x);
  }

  lemma BlendNearer(from: Vec, to: Vec, a: real)
    requires 0.0 < a <= 1.0
    ensures SquaredDistance(Blend(from, to, a), to) <= SquaredDistance(to, from)
  {
    AxisNearer(from[0], to[0], a);
    AxisNearer(from[1], to[1], a);
    AxisNearer(from[2], to[2], a);
  }

  lemma AxisNearer(from: real, to: real, a: real)
    requires 0.0 < a <= 1.0
    ensures (Toward(from, to, a) - to) * (Toward(from, to, a) - to) <= (to - from) * (to - from)
  {
    var d := to - from;
    var e, t := (1.0 - a) * d, Toward(from, to, a) - to;
    assert e * e <= d * d by {
      Shrinks(d, a, e);
    }
    assert t == -e;
    assert t * t == e * e;
  }

  /** After every valid sample, from whatever state, the output is within the jump distance of
      the raw position. */
  lemma OutputNearRaw(s: State, p: Params, x: Sample, dist: (Vec, Vec) -> real)
    requires Usable(p) && x.valid && IsDistance(dist)
    ensures dist(FilterStep(s, p, x, dist).filtered, x.pos) <= p.positionJumpM
  {
    var a := StepMoves(s, p, x, dist);
    var out := FilterStep(s, p, x, dist).filtered;
    if Reseeds(s, p, x, dist) {
      SamePlace(x.pos, dist);
    } else {
      BlendNearer(s.filtered, x.pos, a);
      RootMonotone(dist(out, x.pos), dist(x.pos, s.filtered));
    }
  }

  lemma SamePlace(a: Vec, dist: (Vec, Vec) -> real)
    requires IsDistance(dist)
    ensures dist(a, a) == 0.0
  {
    RootMonotone(dist(a, a), 0.0);
  }

  // ----- constant input -----------------------------------------------------------------------------

  function Pow(x: real, n: nat): real {
    if n == 0 then 1.0 else x * Pow(x, n - 1)
  }

  lemma ErrorShrinks(from: real, to: real, a: real, least: real)
    requires 0.0 < least <= a <= 1.0
    ensures Abs(Toward(from, to, a) - to) <= (1.0 - least) * Abs(from - to)
  {
    Product(a - least, Abs(from - to));
    assert Toward(from, to, a) - to == (1.0 - a) * (from - to);
    Product(1.0 - a, Abs(from - to));
  }

  /** From from to out, the error of coordinate k shrinks to at most b of what it was. */
  ghost predicate Closer(from: Vec, out: Vec, to: Vec, b: real, k: nat)
    requires k < 3
  {
    Abs(out[k] - to[k]) <= b * Abs(from[k] - to[k])
  }

  lemma BlendCloser(from: Vec, to: Vec, a: real, p: Params, dt: real, du: real, k: nat)
    requires AlphaFromCutoffHz(p.minCutoffHz, du) <= a <= 1.0 && dt <= du && k < 3
    ensures Closer(from, Blend(from, to, a), to, 1.0 - AlphaFromCutoffHz(p.minCutoffHz, dt), k)
  {
    AlphaGrows(p.minCutoffHz, p.minCutoffHz, dt, du);
    ErrorShrinks(from[k], to[k], a, AlphaFromCutoffHz(p.minCutoffHz, dt));
  }

  lemma StepCloser(s: State, p: Params, x: Sample, dist: (Vec, Vec) -> real, dt: real, k: nat)
    requires Usable(p) && x.valid && dt <= x.dt && k < 3
    ensures Closer(s.filtered, FilterStep(s, p, x, dist).filtered, x.pos,
                   1.0 - AlphaFromCutoffHz(p.minCutoffHz, dt), k)
  {
    var a := StepMoves(s, p, x, dist);
    BlendCloser(s.filtered, x.pos, a, p, dt, x.dt, k);
  }

  /** Every step closes at least the fraction 1 - b of the distance to one and the same place. */
  ghost predicate Closing(states: seq<State>, samples: seq<Sample>, b: real, k: nat, to: real) {
    && |states| == |samples| + 1 && k < 3
    && forall m {:trigger samples[m]} :: 0 <= m < |samples| ==>
         samples[m].pos[k] == to && Closer(states[m].filtered, states[m + 1].filtered, samples[m].pos, b, k)
  }

  /** The error of coordinate k is at most factor times what it was. */
  ghost predicate ErrorWithin(first: Vec, last: Vec, to: real, factor: real, k: nat)
    requires k < 3
  {
    Abs(last[k] - to) <= factor * Abs(first[k] - to)
  }

  lemma {:induction false} Geometric(states: seq<State>, samples: seq<Sample>, b: real, n: nat, k: nat, to: real)
    requires Closing(states, samples, b, k, to) && n <= |samples| && b >= 0.0
    ensures ErrorWithin(states[0].filtered, states[n].filtered, to, Pow(b, n), k)
  {
    if n > 0 {
      Geometric(states, samples, b, n - 1, k, to);
      assert samples[n - 1].pos[k] == to;
      Chain(b, n - 1, Abs(states[n - 1 + 1].filtered[k] - to), Abs(states[n - 1].filtered[k] - to),
            Abs(states[0].filtered[k] - to));
    }
  }

  lemma RunCloses(
    states: seq<State>, samples: seq<Sample>, p: Params, dist: (Vec, Vec) -> real, k: nat, to: real, dt: real)
    requires Usable(p) && Run(states, samples, p, dist) && k < 3
    requires forall m :: 0 <= m < |samples| ==> samples[m].valid && samples[m].pos[k] == to && dt <= samples[m].dt
    ensures Closing(states, samples, 1.0 - AlphaFromCutoffHz(p.minCutoffHz, dt), k, to)
  {
    forall m {:trigger samples[m]} | 0 <= m < |samples|
      ensures samples[m].pos[k] == to
           && Closer(states[m].filtered, states[m + 1].filtered, samples[m].pos,
                     1.0 - AlphaFromCutoffHz(p.minCutoffHz, dt), k)
    {
      StepCloser(states[m], p, samples[m], dist, dt, k);
    }
  }

  lemma Chain(b: real, n: nat, e: real, d: real, c: real)
    requires 0.0 <= b && e <= b * d && d <= Pow(b, n) * c
    ensures e <= Pow(b, n + 1) * c
  {
    var m := Pow(b, n) * c;
    Product(b, m - d);
    assert Pow(b, n + 1) == b * Pow(b, n);
    assert Pow(b, n + 1) * c == b * m;
  }

  /** While the input stays at one place, the error shrinks at least as fast as the powers of
      1 - alpha, alpha being the gain of the minimum cutoff for the shortest interval. */
  lemma ConvergesToConstant(
    states: seq<State>, samples: seq<Sample>, p: Params, dist: (Vec, Vec) -> real, k: nat, to: real, dt: real)
    requires Usable(p) && Run(states, samples, p, dist) && k < 3
    requires forall m :: 0 <= m < |samples| ==> samples[m].valid && samples[m].pos[k] == to && dt <= samples[m].dt
    ensures ErrorWithin(states[0].filtered, states[|samples|].filtered, to,
                        Pow(1.0 - AlphaFromCutoffHz(p.minCutoffHz, dt), |samples|), k)
  {
    RunCloses(states, samples, p, dist, k, to, dt);
    Geometric(states, samples, 1.0 - AlphaFromCutoffHz(p.minCutoffHz, dt), |samples|, k, to);
  }

  // ----- the filter as the driver runs it -----------------------------------------------------------

  /** The filter state of one device, updated in place by every sample. */
  class Filter {
    var initialized: bool
    const prevRawPos: array<real>
    const filteredPos: array<real>
    var linearSpeedHat: real
    var posRelease: real

    ghost predicate Valid()
      reads this
    {
      prevRawPos.Length == 3 && filteredPos.Length == 3 && prevRawPos != filteredPos
    }

    constructor ()
      ensures Valid() && !initialized && fresh(prevRawPos) && fresh(filteredPos)
    {
      initialized, linearSpeedHat, posRelease := false, 0.0, 1.0;
      prevRawPos := new real[3](_ => 0.0);
      filteredPos := new real[3](_ => 0.0);
    }

    ghost function View(): State
      requires Valid()
      reads this, prevRawPos, filteredPos
    {
      State(initialized, prevRawPos[..], filteredPos[..], linearSpeedHat, posRelease)
    }

    /** Restart from the raw position. */
    method SeedFilter(pos: Vec)
      requires Valid()
      modifies this, prevRawPos, filteredPos
      ensures Valid() && View() == Seed(pos)
    {
      for axis := 0 to 3
        invariant Valid()
        invariant prevRawPos[..axis] == pos[..axis] && filteredPos[..axis] == pos[..axis]
      {
        prevRawPos[axis], filteredPos[axis] := pos[axis], pos[axis];
      }
      linearSpeedHat, posRelease, initialized := 0.0, 1.0, true;
    }

    /** Move every coordinate of the output towards the raw position. */
    method Advance(pos: Vec, alpha: real)
      requires Valid()
      modifies prevRawPos, filteredPos
      ensures prevRawPos[..] == pos && filteredPos[..] == Blend(old(filteredPos[..]), pos, alpha)
    {
      ghost var from := filteredPos[..];
      for axis := 0 to 3
        invariant forall j :: 0 <= j < axis ==>
                    prevRawPos[j] == pos[j] && filteredPos[j] == Toward(from[j], pos[j], alpha)
        invariant forall j :: axis <= j < 3 ==> filteredPos[j] == from[j]
      {
        filteredPos[axis] := Toward(filteredPos[axis], pos[axis], alpha);
        prevRawPos[axis] := pos[axis];
      }
    }

    /** Take in one sample. */
    method Step(p: Params, x: Sample, dist: (Vec, Vec) -> real)
      requires Valid() && Usable(p)
      modifies this, prevRawPos, filteredPos
      ensures Valid() && View() == FilterStep(old(View()), p, x, dist)
    {
      if !x.valid {
        initialized := false;
        return;
      }
      if !initialized || x.dt <= 0.0 || x.dt > p.resetGap {
        SeedFilter(x.pos);
        return;
      }
      var innovation := dist(x.pos, filteredPos[..]);
      if innovation > p.positionJumpM || x.rotInnovation > p.rotationJumpRad {
        SeedFilter(x.pos);
        return;
      }
      var before := State(initialized, prevRawPos[..], filteredPos[..], linearSpeedHat, posRelease);
      linearSpeedHat := SpeedHat(before, p, x, dist);
      posRelease := Release(before, p, x, linearSpeedHat, innovation);
      Advance(x.pos, Alpha(p, x.dt, linearSpeedHat, posRelease, innovation));
    }
  }
}
