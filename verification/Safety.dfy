/** Crash markers and the feature mask (ModuleSafety.cpp, FeatureFlags.cpp, FeatureFlags.h).

    The marker files of a module are a value; every file operation succeeds.  A history is any
    sequence of marker operations and driver launches. */
module Safety {
  import opened Prelude
  import opened MarkerText

  /** The modules in the order in which a launch gates them. */
  datatype Module = Calibration | Smoothing | InputHealth | FaceTracking | Captions | Phantom | OscRouter

  const ALL: seq<Module> := [Calibration, Smoothing, InputHealth, FaceTracking, Captions, Phantom, OscRouter]

  const THRESHOLD: nat := 3
  const REPEATED := "repeated_unclean_driver_exit"
  const DURING_OPERATION := "unclean_exit_during_module_operation"

  function Slug(m: Module): string {
    match m
    case Calibration => "calibration"
    case Smoothing => "smoothing"
    case InputHealth => "inputhealth"
    case FaceTracking => "facetracking"
    case Captions => "captions"
    case Phantom => "phantom"
    case OscRouter => "oscrouter"
  }

  // ----- the files of one module ---------------------------------------------------

  /** Which marker files exist; suspect and counters hold the text of the file, disabled the
      reason recorded. */
  datatype Files = Files(active: bool, suspect: Option<string>, clean: bool, counters: string, disabled: Option<string>)

  function ClearRuntime(f: Files): Files {
    f.(active := false, suspect := None)
  }

  function MarkActive(f: Files): Files {
    f.(clean := false, active := true)
  }

  function MarkSuspect(f: Files, body: string): Files {
    f.(suspect := Some(body))
  }

  function ClearSuspect(f: Files): Files {
    f.(suspect := None)
  }

  function MarkClean(f: Files): Files {
    ClearRuntime(f).(counters := "", clean := true)
  }

  function MarkFault(f: Files, reason: string): Files {
    ClearRuntime(f).(disabled := Some(reason), clean := false)
  }

  function ClearAutoDisabled(f: Files): Files {
    ClearRuntime(f).(disabled := None, counters := "")
  }

  datatype Assessment = Assessment(hadActive: bool, hadSuspect: bool, autoDisabled: bool, activeCount: nat)

  predicate CleanupOnly(reason: string) {
    reason == "shutdown" || reason == "flag_removed"
  }

  function Bump(n: int): nat {
    (n + 1) % WORD
  }

  /** What is made of stale markers: a marker left inside an operation disables the module; an
      active marker alone only counts, or disables at the threshold if that is allowed. */
  function AssessLaunch(m: Module, f: Files, allow: bool): (Files, Assessment) {
    if f.suspect.Some? then AssessSuspect(m, f)
    else if f.active then AssessActive(m, f, allow)
    else (f, Assessment(false, false, false, 0))
  }

  function AssessSuspect(m: Module, f: Files): (Files, Assessment)
    requires f.suspect.Some?
  {
    var c := ReadCounters(f.counters);
    var next := c.(suspectUnclean := Bump(c.suspectUnclean));
    var g := f.(counters := CounterBody(Slug(m), next));
    var fault := !CleanupOnly(ReadField(f.suspect.value, "reason="));
    (if fault then MarkFault(g, DURING_OPERATION) else ClearRuntime(g),
     Assessment(f.active, true, fault, next.activeUnclean))
  }

  function AssessActive(m: Module, f: Files, allow: bool): (Files, Assessment) {
    var c := ReadCounters(f.counters);
    var next := c.(activeUnclean := Bump(c.activeUnclean));
    var g := f.(counters := CounterBody(Slug(m), next));
    var fault := allow && next.activeUnclean >= THRESHOLD;
    (if fault then MarkFault(g, REPEATED) else ClearRuntime(g),
     Assessment(true, false, fault, next.activeUnclean))
  }

  // ----- one launch -------------------------------------------------------------------

  /** The files of every module. */
  type Store = Module -> Files

  function Update(files: Store, m: Module, f: Files): (r: Store)
    ensures forall x :: r(x) == if x == m then f else files(x)
  {
    x => if x == m then f else files(x)
  }

  /** What the safety gate of a module decided. */
  datatype Gate = Gate(enabled: bool, assessment: Option<Assessment>)

  function ApplySafetyGate(m: Module, f: Files, enabled: bool): (Files, Gate) {
    if !enabled then (f, Gate(false, None))
    else
      var (g, a) := AssessLaunch(m, f, false);
      (g, Gate(g.disabled.None?, Some(a)))
  }

  /** A module that could be blamed for repeated unclean exits. */
  predicate Blamable(g: Gate) {
    && g.enabled && g.assessment.Some?
    && var a := g.assessment.value; a.hadActive && !a.hadSuspect && !a.autoDisabled && a.activeCount >= THRESHOLD
  }

  /** Whether the module's gate is entered: its flag is present, or it is the router and one of
      the modules that need it is still enabled. */
  function Wanted(files: Store, present: set<Module>, m: Module): bool
  {
    if m.OscRouter? then
      || m in present
      || ApplySafetyGate(FaceTracking, files(FaceTracking), FaceTracking in present).1.enabled
      || ApplySafetyGate(Captions, files(Captions), Captions in present).1.enabled
    else m in present
  }

  function Gated(files: Store, present: set<Module>, m: Module): (Files, Gate)
  {
    ApplySafetyGate(m, files(m), Wanted(files, present, m))
  }

  function Index(m: Module): (k: nat)
    ensures k < 7 && ALL[k] == m
  {
    match m
    case Calibration => 0
    case Smoothing => 1
    case InputHealth => 2
    case FaceTracking => 3
    case Captions => 4
    case Phantom => 5
    case OscRouter => 6
  }

  /** The decisions of the seven gates. */
  ghost function GatesOf(files: Store, present: set<Module>): (gates: seq<Gate>)
    ensures |gates| == 7
  {
    seq(7, k requires 0 <= k < 7 => Gated(files, present, ALL[k]).1)
  }

  /** Gate k is to blame and no other. */
  ghost predicate OnlyBlamable(gates: seq<Gate>, k: int) {
    0 <= k < |gates| && Blamable(gates[k]) && forall j :: 0 <= j < |gates| && j != k ==> !Blamable(gates[j])
  }

  ghost predicate Enabled(gates: seq<Gate>, k: nat)
    requires k < |gates|
  {
    gates[k].enabled && !OnlyBlamable(gates, k)
  }

  /** The feature mask: the modules that need the router go down with it. */
  ghost predicate InMask(gates: seq<Gate>, m: Module)
    requires |gates| == 7
  {
    Enabled(gates, Index(m)) && (m.FaceTracking? || m.Captions? ==> Enabled(gates, Index(OscRouter)))
  }

  /** The files of a module after the launch. */
  ghost function AfterLaunch(files: Store, present: set<Module>, m: Module): Files
  {
    var f := Gated(files, present, m).0;
    if OnlyBlamable(GatesOf(files, present), Index(m)) then MarkFault(f, REPEATED) else f
  }

  // ----- the launch as the driver performs it ---------------------------------------------

  /** The set of features for the enable booleans; face tracking and captions bring the router. */
  function ComposeFeatureFlags(
    calibration: bool, smoothing: bool, inputHealth: bool, faceTracking: bool, oscRouter: bool, captions: bool,
    phantom: bool): (mask: set<Module>)
    ensures FaceTracking in mask || Captions in mask ==> OscRouter in mask
    ensures (Calibration in mask <==> calibration) && (Smoothing in mask <==> smoothing)
    ensures (InputHealth in mask <==> inputHealth) && (FaceTracking in mask <==> faceTracking)
    ensures (Captions in mask <==> captions) && (Phantom in mask <==> phantom)
    ensures OscRouter in mask <==> oscRouter || faceTracking || captions
  {
    (if calibration then {Calibration} else {}) + (if smoothing then {Smoothing} else {})
    + (if inputHealth then {InputHealth} else {}) + (if faceTracking then {FaceTracking} else {})
    + (if captions then {Captions} else {}) + (if phantom then {Phantom} else {})
    + (if oscRouter || faceTracking || captions then {OscRouter} else {})
  }

  /** The index of the only gate to blame, or -1. */
  method FindOnlyBlamable(gates: seq<Gate>) returns (k: int)
    ensures k >= 0 ==> OnlyBlamable(gates, k)
    ensures k < 0 ==> forall i :: 0 <= i < |gates| ==> !OnlyBlamable(gates, i)
  {
    var candidate, candidates := -1, 0;
    ghost var earlier := -1;
    for i := 0 to |gates|
      invariant candidates >= 0 && -1 <= candidate < i && -1 <= earlier < i
      invariant candidates == 0 ==> forall j :: 0 <= j < i ==> !Blamable(gates[j])
      invariant candidates >= 1 ==> candidate >= 0 && Blamable(gates[candidate])
      invariant candidates == 1 ==> forall j :: 0 <= j < i && j != candidate ==> !Blamable(gates[j])
      invariant candidates >= 2 ==> earlier >= 0 && earlier != candidate && Blamable(gates[earlier])
    {
      if Blamable(gates[i]) {
        earlier := candidate;
        candidate, candidates := i, candidates + 1;
      }
    }
    k := if candidates == 1 then candidate else -1;
  }

  /** The mask of the enable booleans that remain after the module to blame is switched off. */
  method ComposeMask(gates: seq<Gate>, k: int) returns (mask: set<Module>)
    requires |gates| == 7
    requires if k >= 0 then OnlyBlamable(gates, k) else forall i :: 0 <= i < 7 ==> !OnlyBlamable(gates, i)
    ensures forall m: Module :: m in mask <==> InMask(gates, m)
  {
    var on := seq(7, i requires 0 <= i < 7 => gates[i].enabled && i != k);
    assert forall i :: 0 <= i < 7 ==> (on[i] <==> Enabled(gates, i));
    var faceTracking, captions, oscRouter := on[3], on[4], on[6];
    if !oscRouter && (faceTracking || captions) {
      faceTracking, captions := false, false;
    }
    mask := ComposeFeatureFlags(on[0], on[1], on[2], faceTracking, oscRouter, captions, on[5]);
  }

  ghost predicate AreGated(before: Store, present: set<Module>, files: Store)
  {
    forall m: Module :: files(m) == Gated(before, present, m).0
  }

  lemma FaultOne(before: Store, present: set<Module>, files: Store, k: int)
    requires AreGated(before, present, files) && OnlyBlamable(GatesOf(before, present), k)
    ensures forall m: Module ::
      Update(files, ALL[k], MarkFault(files(ALL[k]), REPEATED))(m) == AfterLaunch(before, present, m)
  {
    Indexed(k);
    forall m: Module
      ensures Update(files, ALL[k], MarkFault(files(ALL[k]), REPEATED))(m) == AfterLaunch(before, present, m)
    {
      assert files(m) == Gated(before, present, m).0;
      assert OnlyBlamable(GatesOf(before, present), Index(m)) <==> m == ALL[k];
    }
  }

  lemma FaultNone(before: Store, present: set<Module>, files: Store)
    requires AreGated(before, present, files) && forall i :: 0 <= i < 7 ==> !OnlyBlamable(GatesOf(before, present), i)
    ensures forall m: Module :: files(m) == AfterLaunch(before, present, m)
  {
    forall m: Module ensures files(m) == AfterLaunch(before, present, m) {
      assert files(m) == Gated(before, present, m).0;
    }
  }

  lemma Indexed(k: nat)
    requires k < 7
    ensures Index(ALL[k]) == k
  {
  }

  /** Module m has passed its gate with decision g and is left with files f. */
  ghost predicate Passed(before: Store, present: set<Module>, m: Module, f: Files, g: Gate)
  {
    Gated(before, present, m) == (f, g)
  }

  lemma AllPassed(before: Store, present: set<Module>, files: Store, gates: seq<Gate>)
    requires |gates| == 7
    requires forall m: Module :: Passed(before, present, m, files(m), gates[Index(m)])
    ensures gates == GatesOf(before, present) && AreGated(before, present, files)
  {
    forall k | 0 <= k < 7 ensures gates[k] == Gated(before, present, ALL[k]).1 {
      assert Passed(before, present, ALL[k], files(ALL[k]), gates[Index(ALL[k])]);
    }
    forall m: Module ensures files(m) == Gated(before, present, m).0 {
      assert Passed(before, present, m, files(m), gates[Index(m)]);
    }
  }

  class ModuleSafety {
    var files: Store

    constructor (start: Store)
      ensures files == start
    {
      files := start;
    }

    method PassGate(m: Module, enabled: bool) returns (g: Gate)
      modifies this
      ensures forall x :: x != m ==> files(x) == old(files)(x)
      ensures (files(m), g) == ApplySafetyGate(m, old(files)(m), enabled)
    {
      var r := ApplySafetyGate(m, files(m), enabled);
      files, g := Update(files, m, r.0), r.1;
    }

    /** The gates of the modules before the router; none depends on another. */
    method ApplyPlainGates(present: set<Module>) returns (gates: seq<Gate>)
      modifies this
      ensures |gates| == 6 && files(OscRouter) == old(files)(OscRouter)
      ensures forall m: Module :: !m.OscRouter? ==> Passed(old(files), present, m, files(m), gates[Index(m)])
    {
      ghost var before := files;
      gates := [];
      for i := 0 to 6
        invariant |gates| == i
        invariant forall m: Module :: Index(m) < i ==> Passed(before, present, m, files(m), gates[Index(m)])
        invariant forall m: Module :: Index(m) >= i ==> files(m) == before(m)
      {
        var m := ALL[i];
        assert Index(m) == i;
        var g := PassGate(m, m in present);
        gates := gates + [g];
        assert Passed(before, present, m, files(m), g);
      }
    }

    /** All seven gates, the router last. */
    method ApplyGates(present: set<Module>) returns (gates: seq<Gate>)
      modifies this
      ensures gates == GatesOf(old(files), present) && AreGated(old(files), present, files)
    {
      ghost var before := files;
      gates := ApplyPlainGates(present);
      ghost var plain := gates;
      assert Passed(before, present, FaceTracking, files(FaceTracking), gates[Index(FaceTracking)]);
      assert Passed(before, present, Captions, files(Captions), gates[Index(Captions)]);
      var g := PassGate(OscRouter, OscRouter in present || gates[3].enabled || gates[4].enabled);
      gates := gates + [g];
      AllPassed(before, present, files, gates);
    }

    /** Which features this launch enables. */
    method DetectFeatureFlags(present: set<Module>) returns (mask: set<Module>)
      modifies this
      ensures forall m: Module :: files(m) == AfterLaunch(old(files), present, m)
      ensures forall m: Module :: m in mask <==> MaskRule(old(files), present, m)
      ensures FaceTracking in mask || Captions in mask ==> OscRouter in mask
    {
      ghost var before := files;
      var gates := ApplyGates(present);
      var k := FindOnlyBlamable(gates);
      if k < 0 {
        FaultNone(before, present, files);
      } else {
        FaultOne(before, present, files, k);
        files := Update(files, ALL[k], MarkFault(files(ALL[k]), REPEATED));
      }
      mask := ComposeMask(gates, k);
      forall m: Module ensures InMask(gates, m) <==> MaskRule(before, present, m) {
        MaskExact(before, present, m);
      }
    }
  }

  // ----- the rules of a launch, in terms of the files before it ----------------------------

  function Next(n: nat): nat {
    (n + 1) % 0x1_0000_0000
  }

  /** The module's last run ended inside an operation that was not cleaning up. */
  predicate LeftInOperation(f: Files) {
    f.suspect.Some? &&
    var reason := ReadField(f.suspect.value, "reason=");
    reason != "shutdown" && reason != "flag_removed"
  }

  predicate Survives(f: Files) {
    f.disabled.None? && !LeftInOperation(f)
  }

  /** The flag of the module is present, or it is the router of one that survives. */
  predicate IsWanted(files: Store, present: set<Module>, m: Module) {
    || m in present
    || (m.OscRouter? && FaceTracking in present && Survives(files(FaceTracking)))
    || (m.OscRouter? && Captions in present && Survives(files(Captions)))
  }

  /** The module survives, but this is at least its third run in a row that ended without a mark. */
  predicate Suspected(files: Store, present: set<Module>, m: Module) {
    && IsWanted(files, present, m) && Survives(files(m))
    && files(m).active && files(m).suspect.None? && Next(ActiveCount(files(m))) >= 3
  }

  ghost predicate OnlySuspect(files: Store, present: set<Module>, m: Module) {
    Suspected(files, present, m) && forall n: Module :: n != m ==> !Suspected(files, present, n)
  }

  ghost predicate Stays(files: Store, present: set<Module>, m: Module) {
    IsWanted(files, present, m) && Survives(files(m)) && !OnlySuspect(files, present, m)
  }

  /** The features a launch enables. */
  ghost predicate MaskRule(files: Store, present: set<Module>, m: Module) {
    Stays(files, present, m) && (m.FaceTracking? || m.Captions? ==> Stays(files, present, OscRouter))
  }

  lemma SuspectFacts(m: Module, f: Files)
    requires f.suspect.Some?
    ensures var (g, a) := AssessSuspect(m, f);
      && !g.active && g.suspect.None? && a.hadSuspect
      && g.disabled == (if LeftInOperation(f) then Some(DURING_OPERATION) else f.disabled)
      && g.clean == (f.clean && !LeftInOperation(f))
      && ReadCounters(g.counters)
           == Counters(ReadCounters(f.counters).activeUnclean, Next(ReadCounters(f.counters).suspectUnclean))
  {
    SlugPlain(m);
    var c := ReadCounters(f.counters);
    CountersRoundTrip(Slug(m), c.(suspectUnclean := Bump(c.suspectUnclean)));
  }

  lemma ActiveFacts(m: Module, f: Files, allow: bool)
    requires f.suspect.None?
    ensures var (g, a) := AssessActive(m, f, allow);
      && !g.active && g.suspect.None? && a.hadActive && !a.hadSuspect && a.activeCount == Next(ActiveCount(f))
      && (a.autoDisabled <==> allow && Next(ActiveCount(f)) >= 3)
      && g.disabled == (if a.autoDisabled then Some(REPEATED) else f.disabled)
      && g.clean == (f.clean && !a.autoDisabled)
      && ReadCounters(g.counters)
           == Counters(Next(ReadCounters(f.counters).activeUnclean), ReadCounters(f.counters).suspectUnclean)
  {
    SlugPlain(m);
    var c := ReadCounters(f.counters);
    CountersRoundTrip(Slug(m), c.(activeUnclean := Bump(c.activeUnclean)));
  }

  lemma GateRule(m: Module, f: Files, enabled: bool)
    ensures var gate := ApplySafetyGate(m, f, enabled).1;
      && (gate.enabled <==> enabled && Survives(f))
      && (Blamable(gate) <==>
            enabled && Survives(f) && f.active && f.suspect.None? && Next(ActiveCount(f)) >= 3)
  {
    if f.suspect.Some? {
      SuspectFacts(m, f);
    } else if f.active {
      ActiveFacts(m, f, false);
    }
  }

  lemma GateOf(files: Store, present: set<Module>, m: Module)
    ensures GatesOf(files, present)[Index(m)] == ApplySafetyGate(m, files(m), Wanted(files, present, m)).1
  {
    assert GatesOf(files, present)[Index(m)] == Gated(files, present, ALL[Index(m)]).1;
  }

  lemma WantedRule(files: Store, present: set<Module>, m: Module)
    ensures Wanted(files, present, m) <==> IsWanted(files, present, m)
  {
    GateRule(FaceTracking, files(FaceTracking), FaceTracking in present);
    GateRule(Captions, files(Captions), Captions in present);
  }

  lemma ModuleRule(files: Store, present: set<Module>, m: Module)
    ensures var gate := GatesOf(files, present)[Index(m)];
      && (gate.enabled <==> IsWanted(files, present, m) && Survives(files(m)))
      && (Blamable(gate) <==> Suspected(files, present, m))
  {
    WantedRule(files, present, m);
    GateRule(m, files(m), Wanted(files, present, m));
    GateOf(files, present, m);
  }

  lemma OnlyRule(files: Store, present: set<Module>, m: Module)
    ensures OnlyBlamable(GatesOf(files, present), Index(m)) <==> OnlySuspect(files, present, m)
  {
    var gates := GatesOf(files, present);
    forall n: Module ensures Blamable(gates[Index(n)]) <==> Suspected(files, present, n) {
      ModuleRule(files, present, n);
    }
    forall j | 0 <= j < 7 ensures Index(ALL[j]) == j {
      Indexed(j);
    }
  }

  /** The mask is exactly what the rules say of the files before the launch. */
  lemma MaskExact(files: Store, present: set<Module>, m: Module)
    ensures InMask(GatesOf(files, present), m) <==> MaskRule(files, present, m)
  {
    ModuleRule(files, present, m);
    OnlyRule(files, present, m);
    ModuleRule(files, present, OscRouter);
    OnlyRule(files, present, OscRouter);
  }

  /** What a launch leaves of the files of a module: the markers of a wanted module are used up and
      counted; it is disabled, with the reason, exactly if it was before, was left in an operation,
      or is the only suspect.  Nothing of an unwanted module changes. */
  lemma LaunchExact(files: Store, present: set<Module>, m: Module)
    ensures var f, g := files(m), AfterLaunch(files, present, m);
      if !IsWanted(files, present, m) then g == f
      else
        && !g.active && g.suspect.None?
        && g.disabled == (if OnlySuspect(files, present, m) then Some("repeated_unclean_driver_exit")
                          else if LeftInOperation(f) then Some("unclean_exit_during_module_operation")
                          else f.disabled)
        && g.clean == (f.clean && !OnlySuspect(files, present, m) && !LeftInOperation(f))
        && var c := ReadCounters(f.counters);
           ReadCounters(g.counters)
             == Counters(if f.active && f.suspect.None? then Next(c.activeUnclean) else c.activeUnclean,
                         if f.suspect.Some? then Next(c.suspectUnclean) else c.suspectUnclean)
  {
    OnlyRule(files, present, m);
    WantedRule(files, present, m);
    if files(m).suspect.Some? {
      SuspectFacts(m, files(m));
    } else if files(m).active {
      ActiveFacts(m, files(m), false);
    }
  }

  /** An explicit conversion also disables a module by itself after the third run that ended without
      a mark. */
  lemma ConversionExact(m: Module, f: Files)
    ensures var g := Marking(Converts(m), m, f);
      if !f.active && f.suspect.None? then g == f
      else
        && !g.active && g.suspect.None?
        && g.disabled == (if LeftInOperation(f) then Some("unclean_exit_during_module_operation")
                          else if f.suspect.None? && Next(ActiveCount(f)) >= 3 then Some("repeated_unclean_driver_exit")
                          else f.disabled)
  {
    if f.suspect.Some? {
      SuspectFacts(m, f);
    } else if f.active {
      ActiveFacts(m, f, true);
    }
  }

  /** A suspect marker as the driver writes it, with a reason of one line, faults its module exactly
      if the reason is not one of the two clean-up reasons. */
  lemma SuspectReason(m: Module, flag: string, reason: string, f: Files)
    requires Plain(flag) && '\n' !in reason && f.suspect == Some(MarkerBody(Slug(m), flag, reason))
    ensures LeftInOperation(f) <==> reason != "shutdown" && reason != "flag_removed"
  {
    SlugPlain(m);
    ReasonRoundTrip(Slug(m), flag, reason);
  }

  /** The same for the launch: the module is disabled afterwards exactly if it was before or the
      reason is not a clean-up reason. */
  lemma SuspectDisables(files: Store, present: set<Module>, m: Module, flag: string, reason: string)
    requires IsWanted(files, present, m) && Plain(flag) && '\n' !in reason
    requires files(m).suspect == Some(MarkerBody(Slug(m), flag, reason))
    ensures AfterLaunch(files, present, m).disabled.Some? <==>
      files(m).disabled.Some? || (reason != "shutdown" && reason != "flag_removed")
  {
    LaunchExact(files, present, m);
    SuspectReason(m, flag, reason, files(m));
  }

  // ----- what every launch guarantees ---------------------------------------------------

  /** No module with an auto-disabled marker is in the mask. */
  lemma MaskExcludesDisabled(files: Store, present: set<Module>, m: Module)
    requires InMask(GatesOf(files, present), m)
    ensures AfterLaunch(files, present, m).disabled.None?
  {
    assert GatesOf(files, present)[Index(m)] == Gated(files, present, m).1;
  }

  /** A module is in the mask only if its flag is present; the router also if one of the modules
      that need it has its flag. */
  lemma MaskIsWanted(files: Store, present: set<Module>, m: Module)
    requires InMask(GatesOf(files, present), m)
    ensures m in present || (m.OscRouter? && (FaceTracking in present || Captions in present))
  {
    assert GatesOf(files, present)[Index(m)] == Gated(files, present, m).1;
  }

  lemma GateKeepsReason(m: Module, f: Files, enabled: bool)
    ensures var g := ApplySafetyGate(m, f, enabled).0; g.disabled == f.disabled || g.disabled == Some(DURING_OPERATION)
  {
  }

  /** A launch blames repeated unclean exits on at most one module. */
  lemma AtMostOneBlamed(files: Store, present: set<Module>, m: Module, n: Module)
    requires files(m).disabled != Some(REPEATED) && AfterLaunch(files, present, m).disabled == Some(REPEATED)
    requires files(n).disabled != Some(REPEATED) && AfterLaunch(files, present, n).disabled == Some(REPEATED)
    ensures m == n && OnlyBlamable(GatesOf(files, present), Index(m))
  {
    assert |REPEATED| != |DURING_OPERATION|;
    GateKeepsReason(m, files(m), Wanted(files, present, m));
    GateKeepsReason(n, files(n), Wanted(files, present, n));
  }

  // ----- histories -------------------------------------------------------------------------

  datatype Event =
    | Activates(m: Module)
    | Suspects(m: Module, body: string)
    | Unsuspects(m: Module)
    | Cleans(m: Module)
    | Faults(m: Module, reason: string)
    | Reenables(m: Module)
    | Converts(m: Module)
    | Launches(present: set<Module>)

  /** What an event other than a launch does to the files of module m. */
  function Marking(e: Event, m: Module, f: Files): Files {
    match e
    case Launches(_) => f
    case Activates(x) => if x == m then MarkActive(f) else f
    case Suspects(x, body) => if x == m then MarkSuspect(f, body) else f
    case Unsuspects(x) => if x == m then ClearSuspect(f) else f
    case Cleans(x) => if x == m then MarkClean(f) else f
    case Faults(x, reason) => if x == m then MarkFault(f, reason) else f
    case Reenables(x) => if x == m then ClearAutoDisabled(f) else f
    case Converts(x) => if x == m then AssessLaunch(m, f, true).0 else f
  }

  /** The files of module m after an event. */
  ghost function After(files: Store, e: Event, m: Module): Files {
    if e.Launches? then AfterLaunch(files, e.present, m) else Marking(e, m, files(m))
  }

  ghost predicate Shape(states: seq<Store>, events: seq<Event>) {
    |states| == |events| + 1
  }

  /** A history that starts without counter files. */
  ghost predicate Run(states: seq<Store>, events: seq<Event>) {
    && Shape(states, events)
    && (forall m: Module :: states[0](m).counters == "")
    && (forall n, m: Module :: 0 <= n < |events| ==> states[n + 1](m) == After(states[n], events[n], m))
  }

  /** A stale active marker and no suspect marker. */
  predicate ActiveOnly(f: Files) {
    f.active && f.suspect.None?
  }

  /** What an event means for the active-only counter of a module. */
  datatype Mark = Zero | Up | Same

  /** The meaning of an event other than a launch. */
  function Meaning(e: Event, m: Module, f: Files): Mark {
    if e == Cleans(m) || e == Reenables(m) then Zero else if e == Converts(m) && ActiveOnly(f) then Up else Same
  }

  ghost function MarkOf(files: Store, e: Event, m: Module): Mark {
    if e.Launches? then if Wanted(files, e.present, m) && ActiveOnly(files(m)) then Up else Same
    else Meaning(e, m, files(m))
  }

  /** How many of the first n marks are Up, since the last Zero. */
  function Tally(marks: seq<Mark>, n: nat): nat
    requires n <= |marks|
  {
    if n == 0 then 0
    else match marks[n - 1]
      case Zero => 0
      case Up => Tally(marks, n - 1) + 1
      case Same => Tally(marks, n - 1)
  }

  /** What the events of a history mean for the counter of module m. */
  ghost function Marks(states: seq<Store>, events: seq<Event>, m: Module): (marks: seq<Mark>)
    requires Shape(states, events)
    ensures |marks| == |events|
  {
    seq(|events|, n requires 0 <= n < |events| => MarkOf(states[n], events[n], m))
  }

  /** The number of launches that assessed m as active-only, since m was last marked clean or
      enabled again, among the first n events. */
  ghost function Assessed(states: seq<Store>, events: seq<Event>, n: nat, m: Module): nat
    requires Shape(states, events) && n <= |events|
  {
    Tally(Marks(states, events, m), n)
  }

  lemma SlugPlain(m: Module)
    ensures Plain(Slug(m))
  {
  }

  function ActiveCount(f: Files): nat {
    ReadCounters(f.counters).activeUnclean
  }

  /** An assessment counts exactly the active-only cases and blames repeated exits only at three
      or more. */
  lemma AssessCounts(m: Module, f: Files, allow: bool)
    ensures var (g, a) := AssessLaunch(m, f, allow);
      && ActiveCount(g) == (if ActiveOnly(f) then Bump(ActiveCount(f)) else ActiveCount(f))
      && (a.hadActive && !a.hadSuspect ==> ActiveOnly(f) && a.activeCount == ActiveCount(g))
      && (f.disabled != Some(REPEATED) && g.disabled == Some(REPEATED) ==>
            ActiveOnly(f) && ActiveCount(g) >= THRESHOLD)
  {
    assert |REPEATED| != |DURING_OPERATION|;
    if f.suspect.Some? {
      SuspectFacts(m, f);
    } else if f.active {
      ActiveFacts(m, f, allow);
    }
  }

  /** A gate counts exactly the active-only launches. */
  lemma GateCounts(m: Module, f: Files, enabled: bool)
    ensures var (g, gate) := ApplySafetyGate(m, f, enabled);
      && ActiveCount(g) == (if enabled && ActiveOnly(f) then Bump(ActiveCount(f)) else ActiveCount(f))
      && (Blamable(gate) ==> enabled && ActiveOnly(f) && ActiveCount(g) >= THRESHOLD)
  {
    AssessCounts(m, f, false);
  }

  lemma EmptyCounts(f: Files)
    requires f.counters == ""
    ensures ActiveCount(f) == 0
  {
  }

  lemma LaunchCounts(files: Store, present: set<Module>, m: Module)
    ensures ActiveCount(AfterLaunch(files, present, m))
         == Marked(MarkOf(files, Launches(present), m), ActiveCount(files(m)))
  {
    GateCounts(m, files(m), Wanted(files, present, m));
  }

  lemma BlameMeansThree(files: Store, present: set<Module>, m: Module)
    requires OnlyBlamable(GatesOf(files, present), Index(m))
    ensures ActiveCount(AfterLaunch(files, present, m)) >= THRESHOLD
  {
    GateCounts(m, files(m), Wanted(files, present, m));
    assert GatesOf(files, present)[Index(m)] == Gated(files, present, m).1;
  }

  function Marked(mark: Mark, count: int): int {
    match mark
    case Zero => 0
    case Up => Bump(count)
    case Same => count
  }

  lemma MarkingKeeps(e: Event, m: Module, f: Files)
    requires !e.Launches? && !e.Converts?
    ensures Marking(e, m, f).counters == if Meaning(e, m, f).Zero? then "" else f.counters
    ensures !Meaning(e, m, f).Up?
  {
  }

  lemma MarkingCounts(e: Event, m: Module, f: Files, g: Files)
    requires !e.Launches? && !e.Converts? && g == Marking(e, m, f)
    ensures ActiveCount(g) == Marked(Meaning(e, m, f), ActiveCount(f))
  {
    MarkingKeeps(e, m, f);
    if g.counters == "" {
      EmptyCounts(g);
    }
  }

  lemma ConvertCounts(m: Module, f: Files, g: Files)
    requires g == AssessLaunch(m, f, true).0
    ensures ActiveCount(g) == if ActiveOnly(f) then Bump(ActiveCount(f)) else ActiveCount(f)
  {
    AssessCounts(m, f, true);
  }

  lemma ConversionCounts(m: Module, f: Files, g: Files)
    requires g == Marking(Converts(m), m, f)
    ensures ActiveCount(g) == Marked(Meaning(Converts(m), m, f), ActiveCount(f))
  {
    ConversionIs(m, f);
    ConversionMeans(m, f);
    ConvertCounts(m, f, g);
  }

  lemma ConversionIs(m: Module, f: Files)
    ensures Marking(Converts(m), m, f) == AssessLaunch(m, f, true).0
  {
  }

  lemma ConversionMeans(m: Module, f: Files)
    ensures Meaning(Converts(m), m, f) == if ActiveOnly(f) then Up else Same
  {
  }

  lemma FileCounts(e: Event, m: Module, f: Files, g: Files)
    requires !e.Launches? && g == Marking(e, m, f)
    ensures ActiveCount(g) == Marked(Meaning(e, m, f), ActiveCount(f))
  {
    if e == Converts(m) {
      ConversionCounts(m, f, g);
    } else if !e.Converts? {
      MarkingCounts(e, m, f, g);
    }
  }

  lemma EventCounts(files: Store, e: Event, m: Module)
    ensures ActiveCount(After(files, e, m)) == Marked(MarkOf(files, e, m), ActiveCount(files(m)))
  {
    if e.Launches? {
      LaunchCounts(files, e.present, m);
    } else {
      FileCounts(e, m, files(m), After(files, e, m));
    }
  }

  lemma {:induction false} TallyCounts(marks: seq<Mark>, counts: seq<int>, n: nat)
    requires |counts| == |marks| + 1 && n <= |marks| && counts[0] == 0
    requires forall i {:trigger marks[i]} :: 0 <= i < |marks| ==> counts[i + 1] == Marked(marks[i], counts[i])
    ensures counts[n] == Tally(marks, n) % WORD
  {
    if n > 0 {
      TallyCounts(marks, counts, n - 1);
      assert counts[n - 1 + 1] == Marked(marks[n - 1], counts[n - 1]);
    }
  }

  /** The counter on disk after each event. */
  ghost function CountsOf(states: seq<Store>, m: Module): (counts: seq<int>)
    ensures |counts| == |states|
  {
    seq(|states|, n requires 0 <= n < |states| => ActiveCount(states[n](m)))
  }

  lemma RunCountsAt(states: seq<Store>, events: seq<Event>, m: Module, n: nat)
    requires Run(states, events) && n < |events|
    ensures ActiveCount(states[n + 1](m)) == Marked(MarkOf(states[n], events[n], m), ActiveCount(states[n](m)))
  {
    EventCounts(states[n], events[n], m);
    assert states[n + 1](m) == After(states[n], events[n], m);
  }

  lemma CountStep(states: seq<Store>, events: seq<Event>, m: Module, marks: seq<Mark>, counts: seq<int>, i: nat)
    requires Run(states, events) && marks == Marks(states, events, m) && counts == CountsOf(states, m) && i < |events|
    ensures counts[i + 1] == Marked(marks[i], counts[i])
  {
    RunCountsAt(states, events, m, i);
  }

  lemma RunCounts(states: seq<Store>, events: seq<Event>, m: Module, marks: seq<Mark>, counts: seq<int>)
    requires Run(states, events) && marks == Marks(states, events, m) && counts == CountsOf(states, m)
    ensures forall i {:trigger marks[i]} :: 0 <= i < |marks| ==> counts[i + 1] == Marked(marks[i], counts[i])
  {
    forall i {:trigger marks[i]} | 0 <= i < |marks| ensures counts[i + 1] == Marked(marks[i], counts[i]) {
      CountStep(states, events, m, marks, counts, i);
    }
  }

  /** The counter on disk is the number of active-only assessments since the last clean mark or
      re-enable, as a 32-bit number, over every history. */
  lemma CounterCounts(states: seq<Store>, events: seq<Event>, n: nat, m: Module)
    requires Run(states, events) && n <= |events|
    ensures ActiveCount(states[n](m)) == Assessed(states, events, n, m) % WORD
  {
    var marks, counts := Marks(states, events, m), CountsOf(states, m);
    EmptyCounts(states[0](m));
    RunCounts(states, events, m, marks, counts);
    TallyCounts(marks, counts, n);
  }

  lemma BlameCounts(files: Store, present: set<Module>, m: Module, f: Files)
    requires f == AfterLaunch(files, present, m)
    requires files(m).disabled != Some(REPEATED) && f.disabled == Some(REPEATED)
    ensures ActiveCount(f) >= THRESHOLD
  {
    AtMostOneBlamed(files, present, m, m);
    BlameMeansThree(files, present, m);
  }

  lemma ConversionBlames(m: Module, f: Files, g: Files)
    requires g == AssessLaunch(m, f, true).0
    requires f.disabled != Some(REPEATED) && g.disabled == Some(REPEATED)
    ensures ActiveCount(g) >= THRESHOLD
  {
    AssessCounts(m, f, true);
  }

  lemma EventBlames(files: Store, e: Event, m: Module)
    requires e.Launches? || e.Converts?
    requires files(m).disabled != Some(REPEATED) && After(files, e, m).disabled == Some(REPEATED)
    ensures ActiveCount(After(files, e, m)) >= THRESHOLD
  {
    if e.Launches? {
      BlameCounts(files, e.present, m, After(files, e, m));
    } else {
      ConversionBlames(m, files(m), After(files, e, m));
    }
  }

  lemma RunBlames(states: seq<Store>, events: seq<Event>, n: nat, m: Module)
    requires Run(states, events) && n < |events| && (events[n].Launches? || events[n].Converts?)
    requires states[n](m).disabled != Some(REPEATED) && states[n + 1](m).disabled == Some(REPEATED)
    ensures ActiveCount(states[n + 1](m)) >= THRESHOLD
  {
    assert states[n + 1](m) == After(states[n], events[n], m);
    EventBlames(states[n], events[n], m);
  }

  /** Repeated unclean exits are blamed on a module, by the backoff of a launch or by an explicit
      conversion, only after at least three active-only assessments since its last clean mark or
      re-enable. */
  lemma BackoffNeedsThree(states: seq<Store>, events: seq<Event>, n: nat, m: Module)
    requires Run(states, events) && n < |events| && (events[n].Launches? || events[n].Converts?)
    requires states[n](m).disabled != Some(REPEATED) && states[n + 1](m).disabled == Some(REPEATED)
    ensures Assessed(states, events, n + 1, m) >= 3
  {
    CounterCounts(states, events, n + 1, m);
    RunBlames(states, events, n, m);
    WordBelow(Assessed(states, events, n + 1, m));
  }

  lemma WordBelow(x: nat)
    ensures x % WORD <= x
  {
  }

  // ----- markers are used up, and a fault lasts ------------------------------------------------

  /** A launch uses up the stale markers of every module it assesses, so that each unclean exit
      is counted once. */
  lemma LaunchUsesUpMarkers(files: Store, present: set<Module>, m: Module)
    requires Wanted(files, present, m)
    ensures !AfterLaunch(files, present, m).active && AfterLaunch(files, present, m).suspect.None?
  {
  }

  lemma AssessKeepsDisabled(m: Module, f: Files, allow: bool)
    requires f.disabled.Some?
    ensures AssessLaunch(m, f, allow).0.disabled.Some?
  {
  }

  lemma LaunchKeepsDisabled(files: Store, present: set<Module>, m: Module)
    requires files(m).disabled.Some?
    ensures AfterLaunch(files, present, m).disabled.Some?
  {
    AssessKeepsDisabled(m, files(m), false);
  }

  lemma MarkingKeepsDisabled(e: Event, m: Module, f: Files)
    requires f.disabled.Some? && e != Reenables(m)
    ensures Marking(e, m, f).disabled.Some?
  {
    if e == Converts(m) {
      ConversionIs(m, f);
      AssessKeepsDisabled(m, f, true);
    } else {
      PlainKeepsDisabled(e, m, f);
    }
  }

  lemma PlainKeepsDisabled(e: Event, m: Module, f: Files)
    requires f.disabled.Some? && e != Reenables(m) && e != Converts(m)
    ensures Marking(e, m, f).disabled.Some?
  {
  }

  lemma DisabledStep(files: Store, e: Event, m: Module)
    requires files(m).disabled.Some? && e != Reenables(m)
    ensures After(files, e, m).disabled.Some?
  {
    if e.Launches? {
      LaunchKeepsDisabled(files, e.present, m);
    } else {
      MarkingKeepsDisabled(e, m, files(m));
    }
  }

  lemma {:induction false} DisabledInductive(states: seq<Store>, i: nat, j: nat, m: Module)
    requires i <= j < |states| && states[i](m).disabled.Some?
    requires forall k {:trigger states[k](m)} ::
      i <= k < j && states[k](m).disabled.Some? ==> states[k + 1](m).disabled.Some?
    ensures states[j](m).disabled.Some?
  {
    if i < j {
      DisabledInductive(states, i, j - 1, m);
      assert states[j - 1 + 1](m).disabled.Some?;
    }
  }

  /** Over every history, a disabled module stays disabled until it is enabled again. */
  lemma DisabledUntilReenabled(states: seq<Store>, events: seq<Event>, i: nat, j: nat, m: Module)
    requires Run(states, events) && i <= j < |states| && states[i](m).disabled.Some?
    requires forall k :: i <= k < j ==> events[k] != Reenables(m)
    ensures states[j](m).disabled.Some?
  {
    forall k {:trigger states[k](m)} | i <= k < j && states[k](m).disabled.Some?
      ensures states[k + 1](m).disabled.Some?
    {
      DisabledStep(states[k], events[k], m);
      assert states[k + 1](m) == After(states[k], events[k], m);
    }
    DisabledInductive(states, i, j, m);
  }

  ghost predicate CleanOrActive(f: Files) {
    !(f.clean && f.active)
  }

  lemma CleanStep(files: Store, e: Event, m: Module)
    requires CleanOrActive(files(m))
    ensures CleanOrActive(After(files, e, m))
  {
    if e.Launches? {
      LaunchExact(files, e.present, m);
    } else if e == Converts(m) {
      ConversionExact(m, files(m));
    }
  }

  lemma {:induction false} CleanInductive(states: seq<Store>, j: nat, m: Module)
    requires j < |states| && CleanOrActive(states[0](m))
    requires forall k {:trigger states[k](m)} ::
      0 <= k < |states| - 1 && CleanOrActive(states[k](m)) ==> CleanOrActive(states[k + 1](m))
    ensures CleanOrActive(states[j](m))
  {
    if j > 0 {
      CleanInductive(states, j - 1, m);
      assert CleanOrActive(states[j - 1 + 1](m));
    }
  }

  /** Over every history, a module that does not start with both marks never carries a clean mark and an
      active mark at once. */
  lemma CleanMeansIdle(states: seq<Store>, events: seq<Event>, j: nat, m: Module)
    requires Run(states, events) && j < |states| && CleanOrActive(states[0](m))
    ensures CleanOrActive(states[j](m))
  {
    forall k {:trigger states[k](m)} | 0 <= k < |states| - 1 && CleanOrActive(states[k](m))
      ensures CleanOrActive(states[k + 1](m))
    {
      CleanStep(states[k], events[k], m);
      assert states[k + 1](m) == After(states[k], events[k], m);
    }
    CleanInductive(states, j, m);
  }

  /** A disabled module is in no mask. */
  lemma DisabledIsMasked(files: Store, present: set<Module>, m: Module)
    requires files(m).disabled.Some?
    ensures !InMask(GatesOf(files, present), m)
  {
    if InMask(GatesOf(files, present), m) {
      MaskExcludesDisabled(files, present, m);
      DisabledStep(files, Launches(present), m);
    }
  }
}
