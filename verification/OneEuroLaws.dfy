/** What the estimates behind the gain of the one-euro filter respond to. */
module OneEuroLaws {
  import opened Reals
  import opened OneEuro

  /** Raw, reported and implied speed above their dead bands. */
  function Evidence(s: State, p: Params, x: Sample, dist: (Vec, Vec) -> real): (real, real, real)
    requires Usable(p) && x.dt > 0.0
  {
    (Min(dist(x.pos, s.prevRaw) / x.dt, 15.0) - p.derivedDeadband, x.reportedSpeed - p.reportedDeadband,
     dist(x.pos, s.filtered) / p.innovationTau - p.innovationDeadband)
  }

  /** The speed estimate follows every piece of evidence upwards, and no further than the largest. */
  lemma SpeedLaw(s: State, p: Params, x: Sample, dist: (Vec, Vec) -> real, v: real)
    requires Usable(p) && 0.001 <= x.dt <= 0.050 && v >= 0.0
    ensures var (a, b, c) := Evidence(s, p, x, dist);
      SpeedHat(s, p, x, dist) <= Toward(s.speedHat, v, AlphaFromCutoffHz(p.derivCutoffHz, x.dt)) <==>
        a <= v && b <= v && c <= v
  {
    var (a, b, c) := Evidence(s, p, x, dist);
    var instant := Max(Max(Max(0.0, a), Max(0.0, b)), Max(0.0, c));
    var alpha := AlphaFromCutoffHz(p.derivCutoffHz, x.dt);
    assert SpeedHat(s, p, x, dist) == Toward(s.speedHat, instant, alpha);
    TowardOrder(s.speedHat, instant, v, alpha);
  }

  lemma TowardOrder(from: real, u: real, v: real, alpha: real)
    requires alpha > 0.0
    ensures Toward(from, u, alpha) <= Toward(from, v, alpha) <==> u <= v
  {
    Difference(from, u, v, alpha);
    SignOfProduct(alpha, v - u);
  }

  lemma Difference(from: real, u: real, v: real, alpha: real)
    ensures Toward(from, v, alpha) - Toward(from, u, alpha) == alpha * (v - u)
  {
  }

  lemma SignOfProduct(a: real, w: real)
    requires a > 0.0
    ensures a * w >= 0.0 <==> w >= 0.0
  {
    if w < 0.0 {
      StrictProduct(a, -w);
      Negated(a, w);
    } else {
      Product(a, w);
    }
  }

  lemma Negated(a: real, w: real)
    ensures a * -w == -(a * w)
  {
  }

  lemma StrictProduct(a: real, b: real)
    requires a > 0.0 && b > 0.0
    ensures a * b > 0.0
  {
  }

  lemma QuotientBounds(n: real, d: real, q: real)
    requires d > 0.0 && q * d == n
    ensures n <= 0.0 ==> q <= 0.0
    ensures n >= d ==> q >= 1.0
  {
    if q > 0.0 {
      StrictProduct(q, d);
    }
    if q < 1.0 {
      PartBelow(d, q);
    }
  }

  lemma PartBelow(d: real, q: real)
    requires d > 0.0 && q < 1.0
    ensures q * d < d
  {
    var rest := 1.0 - q;
    StrictProduct(rest, d);
    assert rest * d == d - q * d;
  }

  lemma StepEnds(lo: real, hi: real, x: real)
    requires lo < hi
    ensures 0.0 <= SmoothStep(lo, hi, x) <= 1.0
    ensures x <= lo ==> SmoothStep(lo, hi, x) == 0.0
    ensures x >= hi ==> SmoothStep(lo, hi, x) == 1.0
  {
    var q := (x - lo) / (hi - lo);
    QuotientBounds(x - lo, hi - lo, q);
    CubicEnds(Saturate(q), SmoothStep(lo, hi, x));
  }

  lemma CubicEnds(t: real, c: real)
    requires 0.0 <= t <= 1.0 && c == t * t * (3.0 - 2.0 * t)
    ensures 0.0 <= c <= 1.0 && (t == 0.0 ==> c == 0.0) && (t == 1.0 ==> c == 1.0)
  {
    CubicMonotone(0.0, t);
    CubicMonotone(t, 1.0);
  }

  /** The filter opens, with the attack constant, when the device moves fast or is far from the
      output, and closes, with the release constant, when it is slow and near. */
  lemma ReleaseLaw(s: State, p: Params, x: Sample, speedHat: real, innovation: real)
    requires p.stillSpeed < p.movingSpeed && p.errStillM < p.errMovingM
    ensures speedHat >= p.movingSpeed || innovation >= p.errMovingM ==>
      Release(s, p, x, speedHat, innovation) == UpdateEnvelope(s.release, 1.0, ClampDt(x.dt), p.attackTau, p.releaseTau)
    ensures speedHat <= p.stillSpeed && innovation <= p.errStillM ==>
      Release(s, p, x, speedHat, innovation) == UpdateEnvelope(s.release, 0.0, ClampDt(x.dt), p.attackTau, p.releaseTau)
  {
    StepEnds(p.stillSpeed, p.movingSpeed, speedHat);
    StepEnds(p.errStillM, p.errMovingM, innovation);
  }

  /** A valid sample is taken over as it is, and the estimates restart, exactly in the four cases the
      design names: the first sample, time that stands still, a gap above a quarter of a second, and
      a jump above half a metre or sixty degrees. */
  lemma RestartLaw(s: State, smoothness: int, power: real, x: Sample, dist: (Vec, Vec) -> real)
    requires 0 <= smoothness <= 255 && 0.0 <= power <= 1.0 && x.valid
    ensures var p := BuildParams(smoothness, power);
      Reseeds(s, p, x, dist) <==>
        !s.initialized || x.dt <= 0.0 || x.dt > 0.25 || dist(x.pos, s.filtered) > 0.5
        || x.rotInnovation > 1.0471975511965976
    ensures var p := BuildParams(smoothness, power);
      Reseeds(s, p, x, dist) ==> FilterStep(s, p, x, dist) == State(true, x.pos, x.pos, 0.0, 1.0)
  {
  }

  lemma LerpEnd(a: real, b: real, t: real)
    requires t == 1.0
    ensures Lerp(a, b, t) == b
  {
  }

  /** The parameters at full smoothness. */
  lemma ParamsSmoothest(smoothness: int, power: real)
    requires smoothness == 100 && power == 0.0
    ensures BuildParams(smoothness, power)
         == Params(0.25, 13.2, 4.0, 90.0, 0.4, 0.03, 0.06, 0.03, 0.60, 0.08, 0.0, 0.012, 0.060, 0.006, 0.045, 0.50,
                   1.0471975511965976, 0.25)
  {
    StepEnds(85.0, 100.0, smoothness as real);
    var s01, topEnd := Clamp(smoothness as real / 100.0, 0.0, 1.0), SmoothStep(85.0, 100.0, smoothness as real);
    LerpEnd(0.45 + 16.0 * power, 0.25, topEnd);
    LerpEnd(6.0, 24.0, s01);
    LerpEnd(1.0, 0.55, topEnd);
    LerpEnd(1.0, 0.40, topEnd);
    LerpEnd(0.35, 0.60, topEnd);
  }

  /** The speed that would close the distance beyond the still zone in one sample, at most 3 m/s. */
  lemma CatchUpSpeed(p: Params, dt: real, innovation: real)
    requires 0.001 <= dt <= 0.050
    ensures innovation <= p.errStillM ==> ErrSpeed(p, dt, innovation) == 0.0
    ensures innovation > p.errStillM ==>
      var v := ErrSpeed(p, dt, innovation); v == 3.0 || (v <= 3.0 && v * dt == innovation - p.errStillM)
  {
  }

  lemma RiseOfLarger(beta: real, u: real, v: real)
    requires beta >= 0.0
    ensures beta * u <= beta * Max(u, v) && beta * v <= beta * Max(u, v)
  {
    Product(beta, Max(u, v) - u);
    Product(beta, Max(u, v) - v);
  }

  /** Either speed alone raises the cutoff, up to its limit; r is the rise that the speed estimate asks
      for, q that of the speed that would catch up. */
  lemma CutoffFollows(p: Params, dt: real, speedHat: real, effective: real, innovation: real, r: real, q: real)
    requires p.minCutoffHz <= p.maxCutoffHz && p.betaHzPerMps >= 0.0 && 0.001 <= dt <= 0.050
    requires r == p.betaHzPerMps * speedHat && q == p.betaHzPerMps * ErrSpeed(p, dt, innovation)
    ensures Cutoff(p, dt, speedHat, effective, innovation) >= Min(p.minCutoffHz + r, p.maxCutoffHz)
    ensures Cutoff(p, dt, speedHat, effective, innovation) >= Min(p.minCutoffHz + q, p.maxCutoffHz)
  {
    RiseOfLarger(p.betaHzPerMps, speedHat, ErrSpeed(p, dt, innovation));
    AboveClamp(p, dt, speedHat, effective, innovation, Rise(p, dt, speedHat, innovation));
  }

  lemma AboveClamp(p: Params, dt: real, speedHat: real, effective: real, innovation: real, rise: real)
    requires p.minCutoffHz <= p.maxCutoffHz && rise == Rise(p, dt, speedHat, innovation)
    ensures Cutoff(p, dt, speedHat, effective, innovation) >= Min(p.minCutoffHz + rise, p.maxCutoffHz)
  {
  }
}
