/** The seven-phase blend between the headset's own pose (fallback) and the pose synthesised
    from a head-mounted tracker (DriverSynthCompose.h).  Times are milliseconds; numbers are
    exact reals.  Of a pose the position and the validity fields are kept: rotations,
    velocities and offsets are blended the same way and do not influence the phases. */
module SourceBlend {
  import opened Prelude
  import opened Reals

  const RUNNING_OUT_OF_RANGE := 201
  const MAX_TRANSITION_MS := 5000

  datatype Pose = Pose(x: real, y: real, z: real, valid: bool, connected: bool, result: int)

  /** A position component. */
  function Axis(p: Pose, k: int): real {
    if k == 0 then p.x else if k == 1 then p.y else p.z
  }

  datatype Phase =
    | Uninitialized | SynthStable | GraceHold | BlendingToFallback
    | FallbackStable | WaitingForStableSynth | BlendingToSynth

  datatype Timing = Timing(graceHold: int, blendToFallback: int, stableBeforeSynth: int, blendToSynth: int)

  datatype Blend = Blend(
    phase: Phase,
    current: Pose,
    lastGoodSynth: Pose,
    blendStart: Pose,
    phaseStartedAt: real,
    stableSynthSince: real,
    hasCurrent: bool,
    hasLastGoodSynth: bool,
    hasStableSynthSince: bool)

  /** One call: the poses offered, the clock, the configuration. */
  datatype Input = Input(fallback: Pose, synth: Option<Pose>, now: real, timing: Timing, allowFallback: bool)

  // ----- arithmetic ------------------------------------------------------------

  function Clamp01(x: real): (c: real)
    ensures 0.0 <= c <= 1.0 && (0.0 <= x <= 1.0 ==> c == x)
  {
    if x < 0.0 then 0.0 else if x > 1.0 then 1.0 else x
  }

  function Smoothstep(x: real): real {
    var c := Clamp01(x);
    c * c * (3.0 - 2.0 * c)
  }

  function ClampTransition(ms: int): (d: int)
    ensures 0 <= d <= MAX_TRANSITION_MS
  {
    if ms < 0 then 0 else if ms > MAX_TRANSITION_MS then MAX_TRANSITION_MS else ms
  }

  function ClampTiming(t: Timing): Timing {
    Timing(ClampTransition(t.graceHold), ClampTransition(t.blendToFallback),
           ClampTransition(t.stableBeforeSynth), ClampTransition(t.blendToSynth))
  }

  function DurationAlpha(start: real, now: real, duration: int): (a: real)
    ensures 0.0 <= a <= 1.0
    ensures duration > 0 && now == start ==> a == 0.0
    ensures a >= 1.0 && start <= now ==> now - start >= duration as real
    ensures a < 1.0 ==> now - start < duration as real
  {
    if duration <= 0 then 1.0
    else
      AlphaMeans(now - start, duration as real);
      Clamp01((now - start) / duration as real)
  }

  lemma AlphaMeans(elapsed: real, duration: real)
    requires duration > 0.0
    ensures elapsed / duration >= 1.0 <==> elapsed >= duration
    ensures elapsed == 0.0 ==> elapsed / duration == 0.0
  {
    var q := elapsed / duration;
    assert q * duration == elapsed;
    if q >= 1.0 {
      assert (q - 1.0) * duration >= 0.0;
    } else {
      assert (1.0 - q) * duration > 0.0;
    }
  }

  function Mix(a: real, b: real, s: real): real {
    a * (1.0 - s) + b * s
  }

  function BlendPose(a: Pose, b: Pose, alpha: real): Pose {
    var s := Smoothstep(alpha);
    Pose(Mix(a.x, b.x, s), Mix(a.y, b.y, s), Mix(a.z, b.z, s), a.valid || b.valid, a.connected || b.connected,
         if s >= 0.5 then b.result else a.result)
  }

  function OutOfRange(p: Pose): Pose {
    p.(valid := false, result := RUNNING_OUT_OF_RANGE, connected := true)
  }

  // ----- one step ----------------------------------------------------------------

  /** What a step does: show a pose in a stable phase, hold a pose, or blend from start. */
  datatype Action =
    | Show(phase: Phase, pose: Pose)
    | Hold(start: Pose, since: real)
    | Fade(phase: Phase, start: Pose, since: real)

  /** The bookkeeping that precedes the decision. */
  function Note(b: Blend, i: Input): Blend {
    match i.synth
    case Some(synth) =>
      var restart := !b.hasCurrent || b.phase.SynthStable? || b.phase.GraceHold? || !b.hasStableSynthSince;
      b.(lastGoodSynth := synth, hasLastGoodSynth := true, hasStableSynthSince := true,
         stableSynthSince := if restart then i.now else b.stableSynthSince)
    case None =>
      b.(hasStableSynthSince := false,
         blendStart := if b.hasCurrent && b.phase.SynthStable? then LastSynth(b) else b.blendStart)
  }

  function Decide(b: Blend, i: Input): Action {
    match i.synth
    case Some(synth) => DecideWithSynth(b, i, synth)
    case None => DecideWithoutSynth(b, i)
  }

  function DecideWithSynth(b: Blend, i: Input, synth: Pose): Action {
    if !b.hasCurrent || b.phase.SynthStable? || b.phase.GraceHold? then Show(SynthStable, synth)
    else if b.phase.BlendingToSynth? then Fade(BlendingToSynth, b.blendStart, b.phaseStartedAt)
    else if DurationAlpha(b.stableSynthSince, i.now, i.timing.stableBeforeSynth) >= 1.0 then
      Fade(BlendingToSynth, b.current, i.now)
    else if b.phase.BlendingToFallback? then Fade(BlendingToFallback, b.blendStart, b.phaseStartedAt)
    else Show(WaitingForStableSynth, i.fallback)
  }

  /** The pose to hold when the synthesised pose goes missing. */
  function LastSynth(b: Blend): Pose {
    if b.hasLastGoodSynth then b.lastGoodSynth else b.current
  }

  function DecideWithoutSynth(b: Blend, i: Input): Action {
    if !b.hasCurrent then
      Show(FallbackStable, if i.allowFallback then i.fallback else OutOfRange(i.fallback))
    else if b.phase.SynthStable? then WhileHeld(b, i, LastSynth(b), i.now)
    else if b.phase.GraceHold? then WhileHeld(b, i, b.blendStart, b.phaseStartedAt)
    else if !i.allowFallback then Show(FallbackStable, OutOfRange(LastSynth(b)))
    else if b.phase.BlendingToSynth? || b.phase.WaitingForStableSynth? then
      Fade(BlendingToFallback, b.current, i.now)
    else if b.phase.BlendingToFallback? then Fade(BlendingToFallback, b.blendStart, b.phaseStartedAt)
    else Show(FallbackStable, i.fallback)
  }

  function WhileHeld(b: Blend, i: Input, start: Pose, since: real): Action {
    if DurationAlpha(since, i.now, i.timing.graceHold) < 1.0 then Hold(start, since)
    else if i.allowFallback then Fade(BlendingToFallback, start, i.now)
    else Show(FallbackStable, OutOfRange(LastSynth(b)))
  }

  function Emit(b: Blend, phase: Phase, since: real, out: Pose): Blend {
    b.(phase := phase, phaseStartedAt := since, current := out, hasCurrent := true)
  }

  function ShowIn(b: Blend, i: Input, phase: Phase, out: Pose): Blend {
    Emit(b, phase, if b.phase == phase then b.phaseStartedAt else i.now, out)
  }

  /** Where a blend is heading, how long it takes and where it ends. */
  function Target(phase: Phase, i: Input): Pose {
    if phase.BlendingToSynth? && i.synth.Some? then i.synth.value else i.fallback
  }

  function Duration(phase: Phase, i: Input): int {
    if phase.BlendingToSynth? then i.timing.blendToSynth else i.timing.blendToFallback
  }

  function Perform(b: Blend, i: Input, a: Action): Blend {
    match a
    case Show(phase, pose) => ShowIn(b, i, phase, pose)
    case Hold(start, since) => Emit(b.(blendStart := start), GraceHold, since, start)
    case Fade(phase, start, since) =>
      var alpha := DurationAlpha(since, i.now, Duration(phase, i));
      var b := b.(blendStart := start);
      if alpha >= 1.0 then
        Emit(b, if phase.BlendingToSynth? then SynthStable else FallbackStable, i.now, Target(phase, i))
      else Emit(b, phase, since, BlendPose(start, Target(phase, i), alpha))
  }

  /** The state after one call; its current pose is the output. */
  function Step(b: Blend, i: Input): Blend {
    var i := i.(timing := ClampTiming(i.timing));
    var b := Note(b, i);
    Perform(b, i, Decide(b, i))
  }

  // ----- runs ----------------------------------------------------------------------

  ghost predicate Fresh(b: Blend) {
    b.phase.Uninitialized? && !b.hasCurrent && !b.hasLastGoodSynth && !b.hasStableSynthSince
  }

  /** A run: the state before each call and after the last. */
  ghost predicate Run(states: seq<Blend>, inputs: seq<Input>) {
    && |states| == |inputs| + 1 && Fresh(states[0])
    && forall n :: 0 <= n < |inputs| ==> states[n + 1] == Step(states[n], inputs[n])
  }

  // ----- facts about smoothstep ------------------------------------------------------

  lemma SmoothstepRange(x: real)
    ensures 0.0 <= Smoothstep(x) <= 1.0
    ensures x == 0.0 ==> Smoothstep(x) == 0.0
  {
    var c := Clamp01(x);
    assert c * c >= 0.0;
    assert c * c * (3.0 - 2.0 * c) >= 0.0;
    // 1 - s = (1 - c)^2 (1 + 2c)
    var d := 1.0 - c;
    assert d * d >= 0.0;
    assert d * d * (1.0 + 2.0 * c) >= 0.0;
    assert d * d * (1.0 + 2.0 * c) == 1.0 - c * c * (3.0 - 2.0 * c);
  }

  lemma SlopeBound(a: real, b: real)
    ensures 3.0 * (a + b) - 2.0 * (a * a + a * b + b * b) <= 1.5
  {
    var u, v := a + b - 1.0, a - b;
    assert u * u >= 0.0 && v * v >= 0.0;
    assert 3.0 * (a + b) - 2.0 * (a * a + a * b + b * b) == 1.5 - 1.5 * (u * u) - 0.5 * (v * v);
  }

  lemma ScaledRise(d: real, k: real, rise: real)
    requires d >= 0.0 && 0.0 <= k <= 1.5 && rise == d * k
    ensures 0.0 <= rise <= 1.5 * d
  {
    Product(d, k);
    Product(d, 1.5 - k);
  }

  /** The slope of the chord from x to y. */
  lemma Chord(x: real, y: real) returns (k: real)
    requires 0.0 <= x <= 1.0 && 0.0 <= y <= 1.0
    ensures 0.0 <= k <= 1.5
    ensures Smoothstep(y) - Smoothstep(x) == (y - x) * k
  {
    SlopeBound(x, y);
    SlopeSign(x, y);
    k := 3.0 * (x + y) - 2.0 * (x * x + x * y + y * y);
  }

  /** Smoothstep is monotone and nowhere steeper than 3/2. */
  lemma SmoothstepSlope(x: real, y: real)
    requires 0.0 <= x <= y <= 1.0
    ensures 0.0 <= Smoothstep(y) - Smoothstep(x) <= 1.5 * (y - x)
  {
    var k := Chord(x, y);
    ScaledRise(y - x, k, Smoothstep(y) - Smoothstep(x));
  }

  lemma MixBetween(a: real, b: real, s: real, lo: real, hi: real)
    requires lo <= a <= hi && lo <= b <= hi && 0.0 <= s <= 1.0
    ensures lo <= Mix(a, b, s) <= hi
  {
    Product(a - lo, 1.0 - s);
    Product(b - lo, s);
    Product(hi - a, 1.0 - s);
    Product(hi - b, s);
  }

  // ----- outputs stay within the poses supplied ----------------------------------------

  ghost predicate Within(p: Pose, k: int, lo: real, hi: real) {
    lo <= Axis(p, k) <= hi
  }

  ghost predicate SuppliesWithin(i: Input, k: int, lo: real, hi: real) {
    Within(i.fallback, k, lo, hi) && (i.synth.Some? ==> Within(i.synth.value, k, lo, hi))
  }

  /** Every pose the state may still use lies within the bounds. */
  ghost predicate Bounded(b: Blend, k: int, lo: real, hi: real) {
    && (if b.hasCurrent then Within(b.current, k, lo, hi) else b.phase.Uninitialized?)
    && (b.hasLastGoodSynth ==> Within(b.lastGoodSynth, k, lo, hi))
    && (b.phase.GraceHold? || Blending(b.phase) ==> Within(b.blendStart, k, lo, hi))
  }

  predicate Blending(phase: Phase) {
    phase.BlendingToFallback? || phase.BlendingToSynth?
  }

  lemma BlendAxis(a: Pose, b: Pose, alpha: real, k: int)
    ensures Axis(BlendPose(a, b, alpha), k) == Mix(Axis(a, k), Axis(b, k), Smoothstep(alpha))
  {
  }

  lemma BlendWithin(a: Pose, b: Pose, alpha: real, k: int, lo: real, hi: real)
    requires Within(a, k, lo, hi) && Within(b, k, lo, hi)
    ensures Within(BlendPose(a, b, alpha), k, lo, hi)
  {
    BlendAxis(a, b, alpha, k);
    SmoothstepRange(alpha);
    MixBetween(Axis(a, k), Axis(b, k), Smoothstep(alpha), lo, hi);
  }

  /** An action that uses only poses within the bounds. */
  ghost predicate ActsWithin(a: Action, k: int, lo: real, hi: real) {
    match a
    case Show(_, pose) => Within(pose, k, lo, hi)
    case Hold(start, _) => Within(start, k, lo, hi)
    case Fade(_, start, _) => Within(start, k, lo, hi)
  }

  lemma DecidesWithin(b: Blend, i: Input, k: int, lo: real, hi: real)
    requires Bounded(b, k, lo, hi) && SuppliesWithin(i, k, lo, hi)
    ensures ActsWithin(Decide(b, i), k, lo, hi)
  {
  }

  lemma PerformsWithin(b: Blend, i: Input, a: Action, k: int, lo: real, hi: real)
    requires Bounded(b, k, lo, hi) && SuppliesWithin(i, k, lo, hi) && ActsWithin(a, k, lo, hi)
    requires a.Show? ==> !a.phase.GraceHold? && !Blending(a.phase)
    ensures Bounded(Perform(b, i, a), k, lo, hi) && Perform(b, i, a).hasCurrent
  {
    if a.Fade? {
      BlendWithin(a.start, Target(a.phase, i), DurationAlpha(a.since, i.now, Duration(a.phase, i)), k, lo, hi);
    }
  }

  lemma StepWithin(b: Blend, i: Input, k: int, lo: real, hi: real)
    requires Bounded(b, k, lo, hi) && SuppliesWithin(i, k, lo, hi)
    ensures Bounded(Step(b, i), k, lo, hi) && Step(b, i).hasCurrent
  {
    var j := i.(timing := ClampTiming(i.timing));
    var c := Note(b, j);
    DecidesWithin(c, j, k, lo, hi);
    PerformsWithin(c, j, Decide(c, j), k, lo, hi);
  }

  /** Over every run, each component of every output lies within any bounds that hold for the
      poses supplied so far. */
  lemma {:induction false} OutputWithinSupplied(
    states: seq<Blend>, inputs: seq<Input>, n: nat, k: int, lo: real, hi: real)
    requires Run(states, inputs) && n <= |inputs|
    requires forall m :: 0 <= m < n ==> SuppliesWithin(inputs[m], k, lo, hi)
    ensures Bounded(states[n], k, lo, hi)
    ensures n > 0 ==> Within(states[n].current, k, lo, hi)
  {
    if n > 0 {
      OutputWithinSupplied(states, inputs, n - 1, k, lo, hi);
      StepWithin(states[n - 1], inputs[n - 1], k, lo, hi);
      assert states[n - 1 + 1] == Step(states[n - 1], inputs[n - 1]);
    }
  }

  // ----- no jump when a blend starts --------------------------------------------------------

  /** A stable synthesised pose is the last good one; a held pose is the one blends start from. */
  ghost predicate Held(b: Blend) {
    && (b.hasCurrent <==> !b.phase.Uninitialized?)
    && (b.phase.SynthStable? ==> b.hasLastGoodSynth && b.current == b.lastGoodSynth)
    && (b.phase.GraceHold? ==> b.current == b.blendStart)
  }

  lemma StepHeld(b: Blend, i: Input)
    requires Held(b)
    ensures Held(Step(b, i)) && Step(b, i).hasCurrent
  {
  }

  /** A blend that begins starts from the previous output; one that goes on keeps its start. */
  lemma FadesFrom(b: Blend, i: Input)
    requires Held(b) && Decide(Note(b, i), i).Fade?
    ensures var a := Decide(Note(b, i), i);
      && b.hasCurrent && Blending(a.phase) && (a.phase.BlendingToSynth? ==> i.synth.Some?)
      && (if a.phase == b.phase then a.start == b.blendStart && a.since == b.phaseStartedAt
          else a.start == b.current && a.since == i.now)
  {
  }

  /** c is the state of a blend after input i: it shows the point of the curve that belongs to
      the time since the phase began. */
  ghost predicate OnCurve(c: Blend, i: Input) {
    var d := Duration(c.phase, i.(timing := ClampTiming(i.timing)));
    && d > 0 && (c.phase.BlendingToSynth? ==> i.synth.Some?)
    && c.current == BlendPose(c.blendStart, Target(c.phase, i), DurationAlpha(c.phaseStartedAt, i.now, d))
  }

  lemma BlendPoint(b: Blend, i: Input)
    requires Held(b) && Blending(Step(b, i).phase)
    ensures var c := Step(b, i);
      && b.hasCurrent && OnCurve(c, i)
      && (if c.phase == b.phase then c.blendStart == b.blendStart && c.phaseStartedAt == b.phaseStartedAt
          else c.blendStart == b.current && c.phaseStartedAt == i.now)
  {
    var j := i.(timing := ClampTiming(i.timing));
    if Decide(Note(b, j), j).Fade? {
      FadesFrom(b, j);
    }
  }

  /** What a step does to a blend. */
  ghost predicate Smooth(b: Blend, i: Input, c: Blend) {
    Blending(c.phase) ==>
      && OnCurve(c, i)
      && (if c.phase == b.phase then c.blendStart == b.blendStart && c.phaseStartedAt == b.phaseStartedAt
          else c.blendStart == b.current && c.phaseStartedAt == i.now)
  }

  lemma {:induction false} RunHeld(states: seq<Blend>, inputs: seq<Input>, n: nat)
    requires Run(states, inputs) && n <= |inputs|
    ensures Held(states[n])
  {
    if n > 0 {
      RunHeld(states, inputs, n - 1);
      StepHeld(states[n - 1], inputs[n - 1]);
      assert states[n - 1 + 1] == Step(states[n - 1], inputs[n - 1]);
    }
  }

  lemma RunSmooth(states: seq<Blend>, inputs: seq<Input>, n: nat)
    requires Run(states, inputs) && n < |inputs|
    ensures Smooth(states[n], inputs[n], states[n + 1])
  {
    RunHeld(states, inputs, n);
    if Blending(Step(states[n], inputs[n]).phase) {
      BlendPoint(states[n], inputs[n]);
    }
  }

  /** Every step that enters a blending phase outputs exactly the previous output position. */
  lemma BlendStartsWithoutJump(states: seq<Blend>, inputs: seq<Input>, n: nat, k: int)
    requires Run(states, inputs) && n < |inputs|
    requires Blending(states[n + 1].phase) && states[n].phase != states[n + 1].phase
    ensures Axis(states[n + 1].current, k) == Axis(states[n].current, k)
  {
    RunSmooth(states, inputs, n);
    StartOfCurve(states[n + 1], inputs[n], k);
  }

  lemma StartOfCurve(c: Blend, i: Input, k: int)
    requires OnCurve(c, i) && c.phaseStartedAt == i.now
    ensures Axis(c.current, k) == Axis(c.blendStart, k)
  {
    BlendAxis(c.blendStart, Target(c.phase, i), 0.0, k);
    SmoothstepRange(0.0);
  }

  // ----- how fast a blend moves ------------------------------------------------------------------

  /** One uninterrupted blend: the phase is the same from state m to state n. */
  ghost predicate OneBlend(states: seq<Blend>, m: nat, n: nat)
    requires m <= n < |states|
  {
    Blending(states[m].phase) && forall j :: m <= j <= n ==> states[j].phase == states[m].phase
  }

  lemma {:induction false} SameCurve(states: seq<Blend>, inputs: seq<Input>, m: nat, n: nat)
    requires |states| == |inputs| + 1 && 1 <= m <= n < |states| && OneBlend(states, m, n)
    requires forall j {:trigger inputs[j]} :: 0 <= j < |inputs| ==> Smooth(states[j], inputs[j], states[j + 1])
    ensures states[n].phase == states[m].phase && states[n].blendStart == states[m].blendStart
    ensures states[n].phaseStartedAt == states[m].phaseStartedAt && OnCurve(states[n], inputs[n - 1])
  {
    assert Smooth(states[n - 1], inputs[n - 1], states[n - 1 + 1]);
    if m < n {
      SameCurve(states, inputs, m, n - 1);
    }
  }

  lemma MixMoves(a: real, b: real, s: real, t: real)
    ensures Mix(a, b, t) - Mix(a, b, s) == (b - a) * (t - s)
  {
  }

  lemma AlphaMoves(start: real, t: real, u: real, d: int)
    requires start <= t <= u && d > 0
    ensures 0.0 <= DurationAlpha(start, u, d) - DurationAlpha(start, t, d) <= (u - t) / d as real
  {
    var r := d as real;
    var x, y, z := (t - start) / r, (u - start) / r, (u - t) / r;
    assert x * r == t - start && y * r == u - start && z * r == u - t;
    assert (y - x - z) * r == 0.0;
    assert y - x == z;
    Quotient(t - start, r);
    Quotient(u - t, r);
  }

  lemma Quotient(a: real, r: real)
    requires a >= 0.0 && r > 0.0
    ensures a / r >= 0.0
  {
    var q := a / r;
    assert q * r == a;
    if q < 0.0 {
      Product(-q, r);
    }
  }

  lemma Scale(gap: real, ds: real, bound: real)
    requires 0.0 <= ds <= bound
    ensures Abs(gap * ds) <= bound * Abs(gap)
  {
    Product(Abs(gap), bound - ds);
    Product(Abs(gap), ds);
  }

  lemma Travel(a: real, b: real, s: real, t: real, bound: real)
    requires 0.0 <= t - s <= bound
    ensures Abs(Mix(a, b, t) - Mix(a, b, s)) <= bound * Abs(b - a)
  {
    MixMoves(a, b, s, t);
    Scale(b - a, t - s, bound);
  }

  /** From p to q, component k moves by at most 1.5 * fraction of the way from start to target. */
  ghost predicate SlowMove(p: Pose, q: Pose, fraction: real, start: Pose, target: Pose, k: int) {
    Abs(Axis(q, k) - Axis(p, k)) <= 1.5 * fraction * Abs(Axis(target, k) - Axis(start, k))
  }

  lemma PoseSpeed(a: Pose, b: Pose, x: real, y: real, e: real, k: int)
    requires 0.0 <= x <= y <= 1.0 && y - x <= e
    ensures SlowMove(BlendPose(a, b, x), BlendPose(a, b, y), e, a, b, k)
  {
    SmoothstepSlope(x, y);
    BlendAxis(a, b, x, k);
    BlendAxis(a, b, y, k);
    Travel(Axis(a, k), Axis(b, k), Smoothstep(x), Smoothstep(y), 1.5 * e);
  }

  lemma PoseSpeedOver(a: Pose, b: Pose, start: real, t: real, u: real, d: int, k: int)
    requires start <= t <= u && d > 0
    ensures SlowMove(BlendPose(a, b, DurationAlpha(start, t, d)), BlendPose(a, b, DurationAlpha(start, u, d)),
                     (u - t) / d as real, a, b, k)
  {
    AlphaMoves(start, t, u, d);
    PoseSpeed(a, b, DurationAlpha(start, t, d), DurationAlpha(start, u, d), (u - t) / d as real, k);
  }

  /** How long the blend of a phase takes. */
  function BlendTime(phase: Phase, i: Input): int {
    Duration(phase, i.(timing := ClampTiming(i.timing)))
  }

  lemma CurveSpeed(c: Blend, d: Blend, i: Input, j: Input, k: int)
    requires OnCurve(c, i) && OnCurve(d, j) && c.phaseStartedAt <= i.now <= j.now && i.timing == j.timing
    requires d.phase == c.phase && d.blendStart == c.blendStart && d.phaseStartedAt == c.phaseStartedAt
    requires Target(c.phase, i) == Target(c.phase, j)
    ensures BlendTime(c.phase, i) > 0
    ensures SlowMove(c.current, d.current, (j.now - i.now) / BlendTime(c.phase, i) as real,
                     c.blendStart, Target(c.phase, i), k)
  {
    PoseSpeedOver(c.blendStart, Target(c.phase, i), c.phaseStartedAt, i.now, j.now, BlendTime(c.phase, i), k);
  }

  lemma AllSmooth(states: seq<Blend>, inputs: seq<Input>)
    requires Run(states, inputs)
    ensures forall j {:trigger inputs[j]} :: 0 <= j < |inputs| ==> Smooth(states[j], inputs[j], states[j + 1])
  {
    forall j {:trigger inputs[j]} | 0 <= j < |inputs| ensures Smooth(states[j], inputs[j], states[j + 1]) {
      RunSmooth(states, inputs, j);
    }
  }

  lemma RunCurve(states: seq<Blend>, inputs: seq<Input>, m: nat, n: nat)
    requires Run(states, inputs) && 1 <= m <= n < |states| && OneBlend(states, m, n)
    ensures states[n].phase == states[m].phase && states[n].blendStart == states[m].blendStart
    ensures states[n].phaseStartedAt == states[m].phaseStartedAt && OnCurve(states[n], inputs[n - 1])
  {
    AllSmooth(states, inputs);
    SameCurve(states, inputs, m, n);
  }

  /** Between two steps of one blend whose target is the same, a component moves by at most
      1.5 * (elapsed / duration) * gap. */
  lemma BlendSpeed(states: seq<Blend>, inputs: seq<Input>, m: nat, n: nat, k: int)
    requires Run(states, inputs) && 1 <= m <= n < |states| && OneBlend(states, m, n) && Monotone(inputs)
    requires inputs[m - 1].timing == inputs[n - 1].timing
    requires Target(states[m].phase, inputs[m - 1]) == Target(states[m].phase, inputs[n - 1])
    ensures BlendTime(states[m].phase, inputs[m - 1]) > 0
    ensures SlowMove(states[m].current, states[n].current,
                     (inputs[n - 1].now - inputs[m - 1].now) / BlendTime(states[m].phase, inputs[m - 1]) as real,
                     states[m].blendStart, Target(states[m].phase, inputs[m - 1]), k)
  {
    RunCurve(states, inputs, m, m);
    RunCurve(states, inputs, m, n);
    PhaseInPast(states, inputs, m);
    CurveSpeed(states[m], states[n], inputs[m - 1], inputs[n - 1], k);
  }

  // ----- clocks -----------------------------------------------------------------------------------

  ghost predicate Monotone(inputs: seq<Input>) {
    forall m, n :: 0 <= m <= n < |inputs| ==> inputs[m].now <= inputs[n].now
  }

  ghost predicate FixedTiming(inputs: seq<Input>, t: Timing) {
    forall n :: 0 <= n < |inputs| ==> inputs[n].timing == t
  }

  /** How one step moves the two clocks, t being the clamped configuration. */
  ghost predicate Clocks(b: Blend, i: Input, c: Blend, t: Timing) {
    && (c.phaseStartedAt == i.now || (b.hasCurrent && c.phaseStartedAt == b.phaseStartedAt))
    && (c.hasStableSynthSince <==> i.synth.Some?)
    && (i.synth.Some? && c.stableSynthSince != i.now ==>
          b.hasStableSynthSince && c.stableSynthSince == b.stableSynthSince)
    && (c.phase.BlendingToSynth? ==> i.synth.Some? && Ripens(b, i, c, t))
    && (c.phase.SynthStable? ==> i.synth == Some(c.lastGoodSynth))
    && (c.phase.SynthStable? && Away(b.phase) ==>
          Ripens(b, i, c, t) && DurationAlpha(if b.phase.BlendingToSynth? then b.phaseStartedAt else i.now,
                                              i.now, t.blendToSynth) >= 1.0)
    && (c.phase.GraceHold? ==>
          && i.synth.None? && b.hasCurrent && c.current == c.blendStart
          && DurationAlpha(c.phaseStartedAt, i.now, t.graceHold) < 1.0
          && (if b.phase.GraceHold? then c.blendStart == b.blendStart && c.phaseStartedAt == b.phaseStartedAt
              else b.phase.SynthStable? && c.blendStart == b.lastGoodSynth && c.phaseStartedAt == i.now))
    && (i.synth.None? && !i.allowFallback ==> c.phase.GraceHold? || !c.current.valid)
  }

  /** The phases from which the synthesised pose has to be earned again. */
  predicate Away(phase: Phase) {
    phase.BlendingToFallback? || phase.FallbackStable? || phase.WaitingForStableSynth? || phase.BlendingToSynth?
  }

  /** Blending to the synthesised pose begins only once that pose has been stable for long enough
      and then keeps both clocks. */
  ghost predicate Ripens(b: Blend, i: Input, c: Blend, t: Timing) {
    if b.phase.BlendingToSynth? then
      && (b.hasStableSynthSince ==> c.stableSynthSince == b.stableSynthSince)
      && (c.phase.BlendingToSynth? ==> c.phaseStartedAt == b.phaseStartedAt)
    else
      && DurationAlpha(c.stableSynthSince, i.now, t.stableBeforeSynth) >= 1.0
      && c.phaseStartedAt == i.now
  }

  lemma SynthClocks(b: Blend, i: Input)
    requires Held(b) && i.synth.Some?
    ensures Clocks(b, i, Step(b, i), ClampTiming(i.timing))
  {
  }

  lemma MissingClocks(b: Blend, i: Input)
    requires Held(b) && i.synth.None?
    ensures Clocks(b, i, Step(b, i), ClampTiming(i.timing))
  {
  }

  lemma StepClocks(b: Blend, i: Input)
    requires Held(b)
    ensures Clocks(b, i, Step(b, i), ClampTiming(i.timing))
  {
    if i.synth.Some? {
      SynthClocks(b, i);
    } else {
      MissingClocks(b, i);
    }
  }

  lemma RunClocks(states: seq<Blend>, inputs: seq<Input>, n: nat)
    requires Run(states, inputs) && n < |inputs|
    ensures Clocks(states[n], inputs[n], states[n + 1], ClampTiming(inputs[n].timing))
  {
    RunHeld(states, inputs, n);
    StepClocks(states[n], inputs[n]);
  }

  lemma {:induction false} PhaseInPast(states: seq<Blend>, inputs: seq<Input>, n: nat)
    requires Run(states, inputs) && Monotone(inputs) && 1 <= n < |states|
    ensures states[n].phaseStartedAt <= inputs[n - 1].now
  {
    RunClocks(states, inputs, n - 1);
    if n > 1 {
      PhaseInPast(states, inputs, n - 1);
    }
  }

  // ----- earning the synthesised pose back ------------------------------------------------------------

  /** The synthesised pose was there on every call from a up to, not including, n. */
  ghost predicate Available(inputs: seq<Input>, a: nat, n: nat)
    requires n <= |inputs|
  {
    forall m :: a <= m < n ==> inputs[m].synth.Some?
  }

  lemma RunStable(states: seq<Blend>, inputs: seq<Input>, n: nat)
    requires Run(states, inputs) && n < |inputs| && states[n + 1].hasStableSynthSince
    ensures inputs[n].synth.Some?
    ensures states[n + 1].stableSynthSince == inputs[n].now
         || (states[n].hasStableSynthSince && states[n + 1].stableSynthSince == states[n].stableSynthSince)
  {
    RunClocks(states, inputs, n);
  }

  /** The call since which the synthesised pose has been there without a gap. */
  lemma {:induction false} StableSince(states: seq<Blend>, inputs: seq<Input>, n: nat) returns (a: nat)
    requires Run(states, inputs) && n < |states| && states[n].hasStableSynthSince
    ensures a < n && states[n].stableSynthSince == inputs[a].now && Available(inputs, a, n)
  {
    if n == 0 {
      assert false;
    }
    RunStable(states, inputs, n - 1);
    if states[n].stableSynthSince == inputs[n - 1].now {
      a := n - 1;
    } else {
      a := StableSince(states, inputs, n - 1);
    }
  }

  lemma RunRipens(states: seq<Blend>, inputs: seq<Input>, n: nat)
    requires Run(states, inputs) && n < |inputs| && states[n + 1].phase.BlendingToSynth?
    ensures states[n + 1].hasStableSynthSince
    ensures if states[n].phase.BlendingToSynth? then
        && (states[n].hasStableSynthSince ==> states[n + 1].stableSynthSince == states[n].stableSynthSince)
        && states[n + 1].phaseStartedAt == states[n].phaseStartedAt
      else
        && DurationAlpha(states[n + 1].stableSynthSince, inputs[n].now,
                         ClampTransition(inputs[n].timing.stableBeforeSynth)) >= 1.0
        && states[n + 1].phaseStartedAt == inputs[n].now
  {
    RunClocks(states, inputs, n);
  }

  /** During the blend, the time before it was long enough. */
  lemma {:induction false} BlendWasEarned(states: seq<Blend>, inputs: seq<Input>, n: nat, t: Timing)
    requires Run(states, inputs) && Monotone(inputs) && FixedTiming(inputs, t) && n < |states|
    requires states[n].phase.BlendingToSynth?
    ensures states[n].hasStableSynthSince
    ensures states[n].phaseStartedAt - states[n].stableSynthSince >= ClampTransition(t.stableBeforeSynth) as real
  {
    if n == 0 {
      assert false;
    }
    RunRipens(states, inputs, n - 1);
    if states[n - 1].phase.BlendingToSynth? {
      BlendWasEarned(states, inputs, n - 1, t);
    } else {
      var a := StableSince(states, inputs, n);
      assert inputs[a].now <= inputs[n - 1].now;
    }
  }

  /** With fixed timing and a monotone clock, coming back to the synthesised pose is preceded by
      that pose being available on every call for at least the stable time plus the blend time. */
  lemma SynthIsEarned(states: seq<Blend>, inputs: seq<Input>, n: nat, t: Timing) returns (a: nat)
    requires Run(states, inputs) && Monotone(inputs) && FixedTiming(inputs, t) && n < |inputs|
    requires states[n + 1].phase.SynthStable? && Away(states[n].phase)
    ensures a <= n && Available(inputs, a, n + 1)
    ensures inputs[n].now - inputs[a].now
         >= ClampTransition(t.stableBeforeSynth) as real + ClampTransition(t.blendToSynth) as real
  {
    RunClocks(states, inputs, n);
    a := StableSince(states, inputs, n + 1);
    assert inputs[a].now <= inputs[n].now;
    if states[n].phase.BlendingToSynth? {
      BlendWasEarned(states, inputs, n, t);
      if n > 0 {
        PhaseInPast(states, inputs, n);
        assert inputs[n - 1].now <= inputs[n].now;
      }
    }
  }

  // ----- losing the synthesised pose without a fallback -------------------------------------------------

  lemma RunGrace(states: seq<Blend>, inputs: seq<Input>, n: nat)
    requires Run(states, inputs) && n < |inputs| && states[n + 1].phase.GraceHold?
    ensures inputs[n].synth.None? && states[n].hasCurrent
    ensures if states[n].phase.GraceHold? then
        states[n + 1].blendStart == states[n].blendStart && states[n + 1].phaseStartedAt == states[n].phaseStartedAt
      else
        && states[n].phase.SynthStable? && states[n + 1].blendStart == states[n].lastGoodSynth
        && states[n + 1].phaseStartedAt == inputs[n].now
  {
    RunClocks(states, inputs, n);
  }

  lemma RunStableIsLast(states: seq<Blend>, inputs: seq<Input>, n: nat)
    requires Run(states, inputs) && n < |states| && states[n].phase.SynthStable?
    ensures n >= 1 && inputs[n - 1].synth == Some(states[n].lastGoodSynth)
  {
    if n == 0 {
      assert false;
    }
    RunClocks(states, inputs, n - 1);
  }

  /** During the grace hold: the first call that missed, the hold beginning there, and the pose
      held being the one supplied just before. */
  lemma {:induction false} GraceBegan(states: seq<Blend>, inputs: seq<Input>, n: nat) returns (a: nat)
    requires Run(states, inputs) && n < |states| && states[n].phase.GraceHold?
    ensures 1 <= a < n && inputs[a - 1].synth == Some(states[n].blendStart)
    ensures states[n].phaseStartedAt == inputs[a].now
    ensures forall m :: a <= m < n ==> inputs[m].synth.None?
  {
    if n == 0 {
      assert false;
    }
    RunGrace(states, inputs, n - 1);
    if states[n - 1].phase.GraceHold? {
      a := GraceBegan(states, inputs, n - 1);
    } else {
      a := n - 1;
      RunStableIsLast(states, inputs, n - 1);
    }
  }

  /** When the synthesised pose is missing and the fallback is not allowed, the output is either
      marked invalid or it is the last synthesised pose, less than the grace time after the first
      call that missed it. */
  lemma MissingWithoutFallback(states: seq<Blend>, inputs: seq<Input>, n: nat) returns (a: nat)
    requires Run(states, inputs) && n < |inputs| && inputs[n].synth.None? && !inputs[n].allowFallback
    ensures states[n + 1].current.valid ==>
      && 1 <= a <= n && inputs[a - 1].synth == Some(states[n + 1].current)
      && (forall m :: a <= m <= n ==> inputs[m].synth.None?)
      && inputs[n].now - inputs[a].now < ClampTransition(inputs[n].timing.graceHold) as real
  {
    RunClocks(states, inputs, n);
    a := 0;
    if states[n + 1].phase.GraceHold? {
      a := GraceBegan(states, inputs, n + 1);
    }
  }

  // ----- the step as the driver performs it -----------------------------------------------------------------

  /** The state of one blend, updated in place by each call. */
  class SourceBlender {
    var phase: Phase
    var currentPose: Pose
    var lastGoodSynthPose: Pose
    var blendStartPose: Pose
    var phaseStartedAt: real
    var stableSynthSince: real
    var hasCurrentPose: bool
    var hasLastGoodSynthPose: bool
    var hasStableSynthSince: bool

    constructor (zero: Pose)
      ensures Fresh(View())
    {
      phase, currentPose, lastGoodSynthPose, blendStartPose := Uninitialized, zero, zero, zero;
      phaseStartedAt, stableSynthSince := 0.0, 0.0;
      hasCurrentPose, hasLastGoodSynthPose, hasStableSynthSince := false, false, false;
    }

    function View(): Blend
      reads this
    {
      Blend(phase, currentPose, lastGoodSynthPose, blendStartPose, phaseStartedAt, stableSynthSince,
            hasCurrentPose, hasLastGoodSynthPose, hasStableSynthSince)
    }

    method SetPhase(next: Phase, now: real)
      modifies this
      ensures View() == old(View()).(phase := next,
                                     phaseStartedAt := if old(phase) == next then old(phaseStartedAt) else now)
    {
      if phase != next {
        phase, phaseStartedAt := next, now;
      }
    }

    method Finish(out: Pose)
      modifies this
      ensures View() == old(View()).(current := out, hasCurrent := true)
    {
      currentPose, hasCurrentPose := out, true;
    }

    /** One call of StepSourceBlend; the pose returned is what the driver submits. */
    method StepSourceBlend(i: Input) returns (out: Pose)
      modifies this
      ensures View() == Step(old(View()), i) && out == View().current
    {
      var i := i.(timing := ClampTiming(i.timing));
      if !hasCurrentPose {
        out := FirstStep(i);
      } else if i.synth.Some? {
        lastGoodSynthPose, hasLastGoodSynthPose := i.synth.value, true;
        out := StepWithSynth(i);
      } else {
        hasStableSynthSince := false;
        out := StepWithoutSynth(i);
      }
    }

    method FirstStep(i: Input) returns (out: Pose)
      requires !hasCurrentPose
      modifies this
      ensures View() == Perform(Note(old(View()), i), i, Decide(Note(old(View()), i), i)) && out == View().current
    {
      if i.synth.Some? {
        out := i.synth.value;
        lastGoodSynthPose, hasLastGoodSynthPose := i.synth.value, true;
        hasStableSynthSince, stableSynthSince := true, i.now;
        SetPhase(SynthStable, i.now);
      } else {
        out := i.fallback;
        if !i.allowFallback {
          out := OutOfRange(out);
        }
        hasStableSynthSince := false;
        SetPhase(FallbackStable, i.now);
      }
      Finish(out);
    }

    method StepWithSynth(i: Input) returns (out: Pose)
      requires hasCurrentPose && i.synth == Some(lastGoodSynthPose) && hasLastGoodSynthPose
      modifies this
      ensures View() == Perform(Note(old(View()), i), i, Decide(Note(old(View()), i), i)) && out == View().current
    {
      var synth := i.synth.value;
      if phase.SynthStable? || phase.GraceHold? {
        out := synth;
        hasStableSynthSince, stableSynthSince := true, i.now;
        SetPhase(SynthStable, i.now);
        Finish(out);
        return;
      }
      if !hasStableSynthSince {
        hasStableSynthSince, stableSynthSince := true, i.now;
      }
      var stableAlpha := DurationAlpha(stableSynthSince, i.now, i.timing.stableBeforeSynth);
      if stableAlpha < 1.0 && !phase.BlendingToSynth? {
        if phase.BlendingToFallback? {
          out := FadeToFallback(i);
          return;
        }
        out := i.fallback;
        SetPhase(WaitingForStableSynth, i.now);
        Finish(out);
        return;
      }
      if !phase.BlendingToSynth? {
        blendStartPose := currentPose;
        SetPhase(BlendingToSynth, i.now);
      }
      var alpha := DurationAlpha(phaseStartedAt, i.now, i.timing.blendToSynth);
      if alpha >= 1.0 {
        out := synth;
        SetPhase(SynthStable, i.now);
      } else {
        out := BlendPose(blendStartPose, synth, alpha);
      }
      Finish(out);
    }

    method FadeToFallback(i: Input) returns (out: Pose)
      requires phase.BlendingToFallback?
      modifies this
      ensures View() == Perform(old(View()), i, Fade(BlendingToFallback, old(blendStartPose), old(phaseStartedAt)))
      ensures out == View().current
    {
      var alpha := DurationAlpha(phaseStartedAt, i.now, i.timing.blendToFallback);
      if alpha >= 1.0 {
        out := i.fallback;
        SetPhase(FallbackStable, i.now);
      } else {
        out := BlendPose(blendStartPose, i.fallback, alpha);
      }
      Finish(out);
    }

    method StepWithoutSynth(i: Input) returns (out: Pose)
      requires hasCurrentPose && i.synth.None? && !hasStableSynthSince
      modifies this
      ensures View() == Perform(Note(old(View()), i), i, Decide(Note(old(View()), i), i)) && out == View().current
    {
      if phase.SynthStable? {
        blendStartPose := if hasLastGoodSynthPose then lastGoodSynthPose else currentPose;
        SetPhase(GraceHold, i.now);
      }
      if phase.GraceHold? {
        var alpha := DurationAlpha(phaseStartedAt, i.now, i.timing.graceHold);
        if alpha < 1.0 {
          out := blendStartPose;
          Finish(out);
          return;
        }
      }
      if !i.allowFallback {
        out := OutOfRange(if hasLastGoodSynthPose then lastGoodSynthPose else currentPose);
        SetPhase(FallbackStable, i.now);
        Finish(out);
        return;
      }
      if phase.GraceHold? {
        SetPhase(BlendingToFallback, i.now);
      } else if phase.BlendingToSynth? || phase.WaitingForStableSynth? {
        blendStartPose := currentPose;
        SetPhase(BlendingToFallback, i.now);
      }
      if phase.BlendingToFallback? {
        out := FadeToFallback(i);
        return;
      }
      out := i.fallback;
      SetPhase(FallbackStable, i.now);
      Finish(out);
    }
  }
}
