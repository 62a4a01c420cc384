/** The seven phases of the source blend as a table, and what each of them shows. */
module BlendPhases {
  import opened Prelude
  import opened Reals
  import opened SourceBlend

  /** ms milliseconds, limited to 5000, have passed; nothing needs no time. */
  predicate Over(since: real, now: real, ms: int) {
    ms <= 0 || now - since >= (if ms > 5000 then 5000 else ms) as real
  }

  lemma AlphaOver(since: real, now: real, ms: int)
    ensures DurationAlpha(since, now, ClampTransition(ms)) >= 1.0 <==> Over(since, now, ms)
  {
    if ms > 0 {
      AlphaMeans(now - since, ClampTransition(ms) as real);
    }
  }

  // ----- the table of phases -------------------------------------------------------

  /** A blend that begins now is over at once if it takes no time. */
  function Into(blending: Phase, stable: Phase, ms: int): Phase {
    if ms <= 0 then stable else blending
  }

  /** The synthesised pose has been offered long enough, this call included. */
  predicate Ripe(b: Blend, i: Input) {
    Over(if b.hasStableSynthSince then b.stableSynthSince else i.now, i.now, i.timing.stableBeforeSynth)
  }

  /** The next phase if the synthesised pose is offered. */
  function PhaseOffered(b: Blend, i: Input): Phase {
    match b.phase
    case Uninitialized => SynthStable
    case SynthStable => SynthStable
    case GraceHold => SynthStable
    case BlendingToSynth =>
      if Over(b.phaseStartedAt, i.now, i.timing.blendToSynth) then SynthStable else BlendingToSynth
    case BlendingToFallback =>
      if Ripe(b, i) then Into(BlendingToSynth, SynthStable, i.timing.blendToSynth)
      else if Over(b.phaseStartedAt, i.now, i.timing.blendToFallback) then FallbackStable
      else BlendingToFallback
    case FallbackStable =>
      if Ripe(b, i) then Into(BlendingToSynth, SynthStable, i.timing.blendToSynth) else WaitingForStableSynth
    case WaitingForStableSynth =>
      if Ripe(b, i) then Into(BlendingToSynth, SynthStable, i.timing.blendToSynth) else WaitingForStableSynth
  }

  /** The next phase if it is missing and the fallback may be shown. */
  function PhaseMissing(b: Blend, i: Input): Phase {
    match b.phase
    case Uninitialized => FallbackStable
    case SynthStable =>
      if i.timing.graceHold > 0 then GraceHold else Into(BlendingToFallback, FallbackStable, i.timing.blendToFallback)
    case GraceHold =>
      if !Over(b.phaseStartedAt, i.now, i.timing.graceHold) then GraceHold
      else Into(BlendingToFallback, FallbackStable, i.timing.blendToFallback)
    case BlendingToSynth => Into(BlendingToFallback, FallbackStable, i.timing.blendToFallback)
    case WaitingForStableSynth => Into(BlendingToFallback, FallbackStable, i.timing.blendToFallback)
    case BlendingToFallback =>
      if Over(b.phaseStartedAt, i.now, i.timing.blendToFallback) then FallbackStable else BlendingToFallback
    case FallbackStable => FallbackStable
  }

  /** The next phase if it is missing and the fallback may not be shown. */
  function PhaseForbidden(b: Blend, i: Input): Phase {
    match b.phase
    case SynthStable => if i.timing.graceHold > 0 then GraceHold else FallbackStable
    case GraceHold => if !Over(b.phaseStartedAt, i.now, i.timing.graceHold) then GraceHold else FallbackStable
    case _ => FallbackStable
  }

  function PhaseTable(b: Blend, i: Input): Phase {
    if i.synth.Some? then PhaseOffered(b, i)
    else if i.allowFallback then PhaseMissing(b, i)
    else PhaseForbidden(b, i)
  }

  /** Only before the first call is there no pose. */
  ghost predicate Started(b: Blend) {
    b.hasCurrent <==> !b.phase.Uninitialized?
  }

  lemma OfferedPhase(b: Blend, i: Input)
    requires Started(b) && i.synth.Some?
    ensures Step(b, i).phase == PhaseOffered(b, i)
  {
    var t := i.timing;
    AlphaOver(b.phaseStartedAt, i.now, t.blendToSynth);
    AlphaOver(b.phaseStartedAt, i.now, t.blendToFallback);
    AlphaOver(i.now, i.now, t.blendToSynth);
    AlphaOver(if b.hasStableSynthSince then b.stableSynthSince else i.now, i.now, t.stableBeforeSynth);
  }

  lemma MissingPhase(b: Blend, i: Input)
    requires Started(b) && i.synth.None?
    ensures Step(b, i).phase == if i.allowFallback then PhaseMissing(b, i) else PhaseForbidden(b, i)
  {
    var t := i.timing;
    AlphaOver(b.phaseStartedAt, i.now, t.graceHold);
    AlphaOver(b.phaseStartedAt, i.now, t.blendToFallback);
    AlphaOver(i.now, i.now, t.graceHold);
    AlphaOver(i.now, i.now, t.blendToFallback);
  }

  lemma NextPhase(b: Blend, i: Input)
    requires Started(b)
    ensures Step(b, i).phase == PhaseTable(b, i) && Started(Step(b, i))
  {
    if i.synth.Some? {
      OfferedPhase(b, i);
    } else {
      MissingPhase(b, i);
    }
  }

  ghost predicate Stamped(b: Blend, i: Input, c: Blend) {
    c.phaseStartedAt == if c.phase == b.phase then b.phaseStartedAt else i.now
  }

  lemma OfferedClock(b: Blend, i: Input)
    requires Started(b) && i.synth.Some?
    ensures Stamped(b, i, Step(b, i))
  {
  }

  lemma MissingClock(b: Blend, i: Input)
    requires Started(b) && i.synth.None?
    ensures Stamped(b, i, Step(b, i))
  {
  }

  /** A phase starts when it is entered. */
  lemma PhaseClock(b: Blend, i: Input)
    requires Started(b)
    ensures var c := Step(b, i); c.phaseStartedAt == if c.phase == b.phase then b.phaseStartedAt else i.now
  {
    if i.synth.Some? {
      OfferedClock(b, i);
    } else {
      MissingClock(b, i);
    }
  }

  // ----- what a phase shows ----------------------------------------------------------

  /** The last synthesised pose among the first n inputs. */
  function LastOffered(inputs: seq<Input>, n: nat): Option<Pose>
    requires n <= |inputs|
  {
    if n == 0 then None
    else if inputs[n - 1].synth.Some? then inputs[n - 1].synth
    else LastOffered(inputs, n - 1)
  }

  /** What the blend remembers of the synthesised pose. */
  ghost predicate Remembers(b: Blend, last: Option<Pose>) {
    && Started(b) && (b.hasLastGoodSynth <==> last.Some?) && (last.Some? ==> b.lastGoodSynth == last.value)
    && (b.phase.Uninitialized? ==> last.None?)
    && (b.phase.SynthStable? ==> last == Some(b.current))
    && (b.phase.GraceHold? ==> last == Some(b.current) && b.blendStart == b.current)
  }

  lemma StepRemembers(b: Blend, i: Input, last: Option<Pose>)
    requires Remembers(b, last)
    ensures Remembers(Step(b, i), if i.synth.Some? then i.synth else last)
  {
  }

  lemma {:induction false} NextRemembers(states: seq<Blend>, inputs: seq<Input>, j: nat)
    requires Run(states, inputs) && j < |inputs| && Remembers(states[j], LastOffered(inputs, j))
    ensures Remembers(states[j + 1], LastOffered(inputs, j + 1))
  {
    StepRemembers(states[j], inputs[j], LastOffered(inputs, j));
  }

  lemma {:induction false} RunRemembers(states: seq<Blend>, inputs: seq<Input>, n: nat)
    requires Run(states, inputs) && n < |states|
    ensures Remembers(states[n], LastOffered(inputs, n))
  {
    if n > 0 {
      RunRemembers(states, inputs, n - 1);
      NextRemembers(states, inputs, n - 1);
    }
  }

  /** A pose that must not be used: not valid, running out of range, connected. */
  ghost predicate Unusable(p: Pose) {
    !p.valid && p.result == 201 && p.connected
  }

  ghost predicate SamePlace(p: Pose, q: Pose) {
    p.x == q.x && p.y == q.y && p.z == q.z
  }

  /** What call i makes the phase it ends in show. */
  ghost predicate Shows(c: Blend, i: Input, last: Option<Pose>) {
    match c.phase
    case Uninitialized => false
    case SynthStable => i.synth == Some(c.current)
    case GraceHold => i.synth.None? && last == Some(c.current)
    case WaitingForStableSynth => i.synth.Some? && c.current == i.fallback
    case FallbackStable =>
      if i.synth.Some? || i.allowFallback then c.current == i.fallback
      else Unusable(c.current) && (last.Some? ==> SamePlace(c.current, last.value))
    case BlendingToFallback => OnCurve(c, i)
    case BlendingToSynth => i.synth.Some? && OnCurve(c, i)
  }

  lemma StepShows(b: Blend, i: Input, last: Option<Pose>)
    requires Remembers(b, last)
    ensures Shows(Step(b, i), i, if i.synth.Some? then i.synth else last)
  {
  }

  /** Over every run: the phase after a call is the one of the table, and its output is the pose
      offered, the fallback, the last pose offered, or a point on the way between two poses, as the
      phase says. */
  lemma OutputOfPhase(states: seq<Blend>, inputs: seq<Input>, n: nat)
    requires Run(states, inputs) && n < |inputs|
    ensures states[n + 1].phase == PhaseTable(states[n], inputs[n])
    ensures Shows(states[n + 1], inputs[n], LastOffered(inputs, n + 1))
  {
    RunRemembers(states, inputs, n);
    NextPhase(states[n], inputs[n]);
    StepShows(states[n], inputs[n], LastOffered(inputs, n));
  }

  // ----- the curve -------------------------------------------------------------------

  /** The curve leaves its start and reaches its end without speed, and is the same both ways. */
  lemma SmoothEnds(x: real)
    requires 0.0 <= x <= 1.0
    ensures Smoothstep(x) <= 3.0 * (x * x) && Smoothstep(1.0 - x) == 1.0 - Smoothstep(x)
  {
    var y := 1.0 - x;
    Product(x * x, x);
    assert x * x * (3.0 - 2.0 * x) == 3.0 * (x * x) - 2.0 * (x * x * x);
    assert y * y * (3.0 - 2.0 * y) == 1.0 - x * x * (3.0 - 2.0 * x);
  }

  /** A blended pose is usable if either pose is; it reports the state of the nearer one. */
  lemma BlendReports(a: Pose, b: Pose, alpha: real)
    requires 0.0 <= alpha <= 1.0
    ensures var p := BlendPose(a, b, alpha);
      && (p.valid <==> a.valid || b.valid) && (p.connected <==> a.connected || b.connected)
      && p.result == if alpha >= 0.5 then b.result else a.result
  {
    if alpha >= 0.5 {
      CubicMonotone(0.5, alpha);
    } else {
      BelowHalf(alpha);
    }
  }

  lemma BelowHalf(x: real)
    requires 0.0 <= x < 0.5
    ensures x * x * (3.0 - 2.0 * x) < 0.5
  {
    var d := 0.5 - x;
    Product(d, x);
    assert d * d > 0.0;
    assert 0.5 - x * x * (3.0 - 2.0 * x) == d * (1.0 + 2.0 * x - 2.0 * (x * x));
    Product(x, 1.0 - x);
    assert d * (1.0 + 2.0 * x - 2.0 * (x * x)) == d + 2.0 * (d * (x * (1.0 - x)));
    Product(d, x * (1.0 - x));
  }
}
