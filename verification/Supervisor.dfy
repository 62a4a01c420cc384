/** The sidecar supervisor (HostSupervisorBase): a monitor thread, any number of threads that
    call Start, Stop and Restart, and hosts that exit on their own, interleaved at every
    critical section.

    Hosts spawned by the supervisor are numbered; a handle is the number of the process it
    refers to, and terminating a process works.  Whether a foreign host answers on the control
    pipe, whether CreateProcess succeeds and with which code a host exits are arbitrary. */
module Supervisor {

  import opened Bits

  const FAST_EXIT_MS: nat := 2000
  const BREAKER: nat := 5
  const BACKOFF_START_MS: nat := 1000
  const BACKOFF_MAX_MS: nat := 30000
  const SINGLETON_RETRY_MS: nat := 500

  const NONE := -1

  // ----- deciding what to do after an exit --------------------------------------

  datatype ExitAction = Ignore | Halt(fast: nat) | Respawn(fast: nat, delay: nat)

  /** Another live instance held the singleton mutex. */
  predicate CleanSingletonExit(code: nat) {
    code == 3 || code == 4
  }

  function DecideHostExitAction(matches: bool, code: nat, uptime: int, fast: nat, backoff: nat): (a: ExitAction)
    ensures a.Ignore? <==> !matches
    ensures matches && CleanSingletonExit(code) ==> a == Respawn(fast, SINGLETON_RETRY_MS)
    ensures a.Halt? ==> a.fast == fast + 1 >= BREAKER && uptime < FAST_EXIT_MS
    ensures a.Respawn? && !CleanSingletonExit(code) ==>
              a.delay == backoff && a.fast < BREAKER && (uptime >= FAST_EXIT_MS ==> a.fast == 0)
  {
    if !matches then Ignore
    else if CleanSingletonExit(code) then Respawn(fast, SINGLETON_RETRY_MS)
    else
      var now := if uptime < FAST_EXIT_MS then fast + 1 else 0;
      if now >= BREAKER then Halt(now) else Respawn(now, backoff)
  }

  // ----- state --------------------------------------------------------------------

  /** What the fast-exit counter depends on. */
  datatype Event = Reset | Exit(code: nat, uptime: int)

  datatype Monitor =
    | MExited
    | MTop
    | MSnapshot
    /** Handle, generation and halt flag were read under the lock. */
    | MObserved(handle: int, generation: nat, isHalted: bool)
    | MHalted
    | MNoHandle
    | MAttached
    | MDetach
    /** Sleeping before the next spawn. */
    | MRetry(delay: nat)
    | MSpawn
    | MWait(handle: int, generation: nat)
    /** The wait on the handle was satisfied. */
    | MSignaled(handle: int, generation: nat)
    /** Restart called by the monitor itself when the executable changed. */
    | MRestart
    | MRestartKill
    | MRestartCheck
    | MRestartSpawn

  datatype Client =
    | CIdle
    | CRestartKill
    | CRestartCheck
    | CRestartSpawn
    | CStartSpawn
    | CStartMonitor
    | CStopKill
    | CStopJoin
    | CStopReset

  /** The shared fields and the processes; since is when the generation last changed. */
  datatype Shared = Shared(
    now: nat,
    stop: bool,
    handle: int,
    generation: nat,
    attached: bool,
    fast: nat,
    halted: bool,
    alive: set<int>,
    pids: nat,
    since: nat,
    history: seq<Event>)

  /** The monitor's local variables. */
  datatype Locals = Locals(backoff: nat, trackedGeneration: int, trackedSince: nat)

  datatype State = State(g: Shared, monitor: Monitor, l: Locals, clients: seq<Client>)

  // ----- critical sections ----------------------------------------------------------

  function ResetCounters(g: Shared): Shared {
    g.(halted := false, fast := 0, history := g.history + [Reset])
  }

  /** What the world answers to an attempt to spawn. */
  datatype Outcome = Attaches | Rejects | Fails | Creates

  function Spawn(g: Shared, outcome: Outcome): (Shared, bool) {
    if g.handle != NONE && g.handle in g.alive then (g, true)
    else match outcome
      case Attaches => (g.(attached := true), true)
      case Rejects => (g, false)
      case Fails => (g, false)
      case Creates =>
        (g.(handle := g.pids, generation := g.generation + 1, attached := false, alive := g.alive + {g.pids},
            pids := g.pids + 1, since := g.now), true)
  }

  function Kill(g: Shared): Shared {
    if g.handle == NONE then g
    else
      var alive := if g.attached then g.alive else g.alive - {g.handle};
      g.(handle := NONE, generation := g.generation + 1, attached := false, alive := alive, since := g.now)
  }

  /** The monitor's critical section after its wait was satisfied. */
  function Reap(g: Shared, generation: nat, code: nat, uptime: int, backoff: nat): (Shared, ExitAction) {
    if g.generation == generation && g.handle != NONE then
      var a := DecideHostExitAction(true, code, uptime, g.fast, backoff);
      var g' := g.(handle := NONE, generation := g.generation + 1, since := g.now,
                   history := g.history + [Exit(code, uptime)]);
      (match a
       case Ignore => g'
       case Halt(fast) => g'.(fast := fast, halted := true)
       case Respawn(fast, _) => g'.(fast := fast), a)
    else (g, Ignore)
  }

  function NextBackoff(l: Locals, ok: bool): Locals {
    if ok then l.(backoff := BACKOFF_START_MS)
    else l.(backoff := if l.backoff * 2 < BACKOFF_MAX_MS then l.backoff * 2 else BACKOFF_MAX_MS)
  }

  // ----- steps ------------------------------------------------------------------------

  /** What the world decides in one step: the outcome of a spawn, an exit code, and the answer
      to a question such as "does the pipe answer" or "did the executable change"; reused says
      that a handle closed under the monitor now names some other, signaled object. */
  datatype Choice = Choice(outcome: Outcome, code: nat, yes: bool, reused: bool)

  ghost predicate ReapStep(s: State, t: State, generation: nat, code: nat) {
    var (g, a) := Reap(s.g, generation, code, s.g.now - s.l.trackedSince, s.l.backoff);
    t == s.(g := g, monitor := if a.Respawn? then MRetry(a.delay) else MTop)
  }

  /** The monitor's next program point, shared state and locals. */
  ghost predicate MonitorStep(s: State, t: State, c: Choice) {
    var g, l := s.g, s.l;
    match s.monitor
    case MExited => false
    case MTop => t == s.(monitor := if g.stop then MExited else MSnapshot)
    case MSnapshot => t == s.(monitor := MObserved(g.handle, g.generation, g.halted))
    case MObserved(h, gen, isHalted) =>
      t == s.(l := if gen != l.trackedGeneration then l.(trackedGeneration := gen, trackedSince := g.now) else l,
              monitor := if isHalted then (if c.yes then MRestart else MHalted)
                         else if h == NONE then MNoHandle else MWait(h, gen))
    case MHalted => t == s.(monitor := if g.stop then MExited else MTop)
    case MNoHandle => t == s.(monitor := if g.attached then MAttached else MRetry(l.backoff))
    case MAttached => t == s.(monitor := if !c.yes then MDetach else if g.stop then MExited else MTop)
    case MDetach => t == s.(g := g.(attached := false), monitor := MRetry(l.backoff))
    case MRetry(_) => t == s.(monitor := if g.stop then MExited else MSpawn)
    case MSpawn =>
      var (g', ok) := Spawn(g, c.outcome);
      t == s.(g := g', l := NextBackoff(l, ok), monitor := MTop)
    case MWait(h, gen) =>
      // As long as its handle is open, the wait is satisfied only by a process that has exited.
      t == s.(monitor := if g.stop then MExited
                         else if h !in g.alive || (gen != g.generation && c.reused) then MSignaled(h, gen)
                         else if c.yes then MRestart else MTop)
    case MSignaled(_, gen) => ReapStep(s, t, gen, c.code)
    case MRestart => t == s.(g := ResetCounters(g), monitor := MRestartKill)
    case MRestartKill => t == s.(g := Kill(g), monitor := MRestartCheck)
    case MRestartCheck =>
      t == if g.stop then s.(l := NextBackoff(l, true), monitor := MTop) else s.(monitor := MRestartSpawn)
    case MRestartSpawn => t == s.(g := Spawn(g, c.outcome).0, l := NextBackoff(l, true), monitor := MTop)
  }

  /** A call begins by choosing one of the three operations. */
  datatype Call = Start | Stop | Restart

  ghost predicate ClientStep(s: State, t: State, k: nat, call: Call, c: Choice)
    requires k < |s.clients|
  {
    var g := s.g;
    match s.clients[k]
    case CIdle => (
      match call
      case Restart => t == s.(g := ResetCounters(g), clients := s.clients[k := CRestartKill])
      case Stop => t == s.(g := g.(stop := true), clients := s.clients[k := CStopKill])
      case Start =>
        s.monitor.MExited?
        && t == s.(g := ResetCounters(g).(stop := false, attached := false), clients := s.clients[k := CStartSpawn])
    )
    case CRestartKill => t == s.(g := Kill(g), clients := s.clients[k := CRestartCheck])
    case CRestartCheck => t == s.(clients := s.clients[k := if g.stop then CIdle else CRestartSpawn])
    case CRestartSpawn => t == s.(g := Spawn(g, c.outcome).0, clients := s.clients[k := CIdle])
    case CStartSpawn => t == s.(g := Spawn(g, c.outcome).0, clients := s.clients[k := CStartMonitor])
    case CStartMonitor =>
      s.monitor.MExited?
      && t == s.(monitor := MTop, l := Locals(BACKOFF_START_MS, NONE, g.now), clients := s.clients[k := CIdle])
    case CStopKill => t == s.(g := Kill(g), clients := s.clients[k := CStopJoin])
    case CStopJoin => s.monitor.MExited? && t == s.(clients := s.clients[k := CStopReset])
    case CStopReset => t == s.(g := ResetCounters(g), clients := s.clients[k := CIdle])
  }

  datatype Step =
    | MonitorMoves(choice: Choice)
    | ClientMoves(k: nat, call: Call, choice: Choice)
    | HostExits(pid: int)
    | TimePasses(ms: nat)

  ghost predicate Next(s: State, t: State, step: Step) {
    match step
    case MonitorMoves(c) => MonitorStep(s, t, c)
    case ClientMoves(k, call, c) => k < |s.clients| && ClientStep(s, t, k, call, c)
    case HostExits(pid) => t == s.(g := s.g.(alive := s.g.alive - {pid}))
    case TimePasses(ms) => t == s.(g := s.g.(now := s.g.now + ms))
  }

  ghost predicate Init(s: State) {
    && s.g == Shared(s.g.now, false, NONE, 0, false, 0, false, {}, 0, s.g.now, [])
    && s.monitor.MExited? && s.l == Locals(BACKOFF_START_MS, NONE, s.g.now)
    && forall k :: 0 <= k < |s.clients| ==> s.clients[k].CIdle?
  }

  ghost predicate Run(states: seq<State>, steps: seq<Step>) {
    && |states| == |steps| + 1 && Init(states[0])
    && forall i :: 0 <= i < |steps| ==> Next(states[i], states[i + 1], steps[i])
  }

  // ----- what the counters mean ----------------------------------------------------------

  /** The number of fast exits at the end of the history, back to the last reset or slow exit;
      clean singleton exits are passed over. */
  function TrailingFast(h: seq<Event>): nat {
    if h == [] then 0
    else
      var last, rest := h[|h| - 1], h[..|h| - 1];
      match last
      case Reset => 0
      case Exit(code, uptime) =>
        if code == 3 || code == 4 then TrailingFast(rest)
        else if uptime < 2000 then TrailingFast(rest) + 1
        else 0
  }

  // ----- invariant -------------------------------------------------------------------------

  /** At most the tracked process is alive; an attached supervisor tracks no live one. */
  ghost predicate OneHost(g: Shared) {
    && NONE <= g.handle < g.pids
    && g.alive <= {g.handle} && NONE !in g.alive
    && (g.attached ==> g.handle !in g.alive)
    && g.since <= g.now
  }

  ghost predicate Breaker(g: Shared) {
    && g.fast <= BREAKER && (g.halted <==> g.fast == BREAKER)
    && g.fast == TrailingFast(g.history)
  }

  /** The program points at which the monitor knows that it is not halted. */
  predicate Active(m: Monitor) {
    match m
    case MObserved(_, _, isHalted) => !isHalted
    case MNoHandle | MAttached | MDetach | MRetry(_) | MSpawn | MWait(_, _) | MSignaled(_, _)
       | MRestartKill | MRestartCheck | MRestartSpawn => true
    case _ => false
  }

  /** What the monitor's snapshot says about the present. */
  ghost predicate Snapshot(s: State) {
    var g, l := s.g, s.l;
    && l.trackedGeneration <= g.generation && l.trackedSince <= g.now
    && (l.trackedGeneration == g.generation ==> g.since <= l.trackedSince)
    && match s.monitor
       case MObserved(h, gen, _) => gen <= g.generation && (gen == g.generation ==> h == g.handle)
       case MWait(h, gen) =>
         && h != NONE && gen == l.trackedGeneration && (gen == g.generation ==> h == g.handle)
       case MSignaled(h, gen) =>
         && h != NONE && gen == l.trackedGeneration
         && (gen == g.generation ==> h == g.handle && h !in g.alive)
       case MRetry(delay) => delay == SINGLETON_RETRY_MS || delay == l.backoff
       case _ => true
  }

  ghost predicate Inv(s: State) {
    && OneHost(s.g) && Breaker(s.g) && Snapshot(s)
    && (s.g.halted ==> !Active(s.monitor))
  }

  /** What every change of the shared state respects: whenever the handle changes, so does the
      generation. */
  ghost predicate Moves(g: Shared, g': Shared) {
    && g.now <= g'.now && (g'.halted ==> g.halted)
    && if g'.generation == g.generation then g'.handle == g.handle && g'.since == g.since && g'.alive <= g.alive
       else g'.generation == g.generation + 1
  }

  /** A section keeps the two invariants of the shared state. */
  ghost predicate Sound(g: Shared, g': Shared) {
    OneHost(g') && Breaker(g') && Moves(g, g')
  }

  lemma SpawnKeeps(g: Shared, outcome: Outcome)
    requires OneHost(g) && Breaker(g)
    ensures Sound(g, Spawn(g, outcome).0)
  {
  }

  lemma KillKeeps(g: Shared)
    requires OneHost(g) && Breaker(g)
    ensures Sound(g, Kill(g)) && Kill(g).alive == {}
  {
  }

  lemma ResetKeeps(g: Shared)
    requires OneHost(g)
    ensures Sound(g, ResetCounters(g))
  {
    var h := g.history + [Reset];
    assert h[|h| - 1] == Reset;
  }

  /** What a reap leaves: g' is the shared state after it, a its decision. */
  ghost predicate Reaped(g: Shared, g': Shared, a: ExitAction, backoff: nat) {
    && OneHost(g') && Breaker(g') && (g'.halted <==> a.Halt?) && g'.now == g.now
    && (g' == g || g'.generation == g.generation + 1)
    && (a.Respawn? ==> a.delay == SINGLETON_RETRY_MS || a.delay == backoff)
  }

  lemma ReapKeeps(g: Shared, generation: nat, code: nat, uptime: int, backoff: nat)
    requires OneHost(g) && Breaker(g) && !g.halted && (generation == g.generation ==> g.handle !in g.alive)
    ensures var (g', a) := Reap(g, generation, code, uptime, backoff); Reaped(g, g', a, backoff)
  {
    var h := g.history + [Exit(code, uptime)];
    assert h[..|h| - 1] == g.history;
  }

  /** A section of another thread leaves the monitor's knowledge valid. */
  lemma OthersKeep(s: State, t: State)
    requires Inv(s) && Sound(s.g, t.g) && t.monitor == s.monitor && t.l == s.l
    ensures Inv(t)
  {
  }

  /** A section of the monitor that leads to a program point without a snapshot. */
  lemma MonitorSection(s: State, t: State, ok: bool)
    requires Inv(s) && Sound(s.g, t.g) && (t.l == s.l || t.l == NextBackoff(s.l, ok))
    requires Active(t.monitor) ==> !t.g.halted
    requires t.monitor.MTop? || t.monitor.MRestartKill? || t.monitor.MRestartCheck?
          || t.monitor == MRetry(t.l.backoff)
    ensures Inv(t)
  {
  }

  /** The monitor's moves that leave the shared state alone. */
  lemma MonitorLooks(s: State, t: State, c: Choice)
    requires Inv(s) && MonitorStep(s, t, c) && t.g == s.g && !s.monitor.MSignaled? && !s.monitor.MSpawn?
    requires !s.monitor.MRestartCheck? && !s.monitor.MRestartSpawn?
    ensures Inv(t)
  {
  }

  lemma AfterReap(s: State, t: State, a: ExitAction)
    requires Inv(s) && Reaped(s.g, t.g, a, s.l.backoff) && t.l == s.l
    requires t.monitor == if a.Respawn? then MRetry(a.delay) else MTop
    ensures Inv(t)
  {
  }

  lemma ReapOutcome(s: State, t: State, generation: nat, code: nat) returns (a: ExitAction)
    requires OneHost(s.g) && Breaker(s.g) && !s.g.halted
    requires generation == s.g.generation ==> s.g.handle !in s.g.alive
    requires ReapStep(s, t, generation, code)
    ensures Reaped(s.g, t.g, a, s.l.backoff) && t.l == s.l
    ensures t.monitor == if a.Respawn? then MRetry(a.delay) else MTop
  {
    var uptime := s.g.now - s.l.trackedSince;
    a := Reap(s.g, generation, code, uptime, s.l.backoff).1;
    ReapKeeps(s.g, generation, code, uptime, s.l.backoff);
    ReapStepIs(s, t, generation, code, Reap(s.g, generation, code, uptime, s.l.backoff));
  }

  lemma ReapStepIs(s: State, t: State, generation: nat, code: nat, r: (Shared, ExitAction))
    requires ReapStep(s, t, generation, code)
    requires r == Reap(s.g, generation, code, s.g.now - s.l.trackedSince, s.l.backoff)
    ensures t.g == r.0 && t.l == s.l && t.monitor == if r.1.Respawn? then MRetry(r.1.delay) else MTop
  {
  }

  lemma MonitorReaps(s: State, t: State, code: nat)
    requires Inv(s) && s.monitor.MSignaled? && ReapStep(s, t, s.monitor.generation, code)
    ensures Inv(t)
  {
    var a := ReapOutcome(s, t, s.monitor.generation, code);
    AfterReap(s, t, a);
  }

  lemma MonitorSpawns(s: State, t: State, c: Choice)
    requires Inv(s) && MonitorStep(s, t, c) && (s.monitor.MSpawn? || s.monitor.MRestartSpawn?)
    ensures Inv(t)
  {
    SpawnKeeps(s.g, c.outcome);
    MonitorSection(s, t, s.monitor.MRestartSpawn? || Spawn(s.g, c.outcome).1);
  }

  lemma MonitorRestarts(s: State, t: State, c: Choice)
    requires Inv(s) && MonitorStep(s, t, c) && (s.monitor.MRestart? || s.monitor.MRestartKill? || s.monitor.MDetach?)
    ensures Inv(t)
  {
    ResetKeeps(s.g);
    KillKeeps(s.g);
    MonitorSection(s, t, true);
  }

  lemma MonitorKeeps(s: State, t: State, c: Choice)
    requires Inv(s) && MonitorStep(s, t, c)
    ensures Inv(t)
  {
    match s.monitor
    case MSignaled(_, _) => MonitorReaps(s, t, c.code);
    case MSpawn | MRestartSpawn => MonitorSpawns(s, t, c);
    case MRestart | MRestartKill | MDetach => MonitorRestarts(s, t, c);
    case MRestartCheck => RestartChecks(s, t, c);
    case _ => MonitorLooks(s, t, c);
  }

  lemma RestartChecks(s: State, t: State, c: Choice)
    requires Inv(s) && MonitorStep(s, t, c) && s.monitor.MRestartCheck?
    ensures Inv(t)
  {
  }

  lemma ClientSection(s: State, t: State, k: nat, call: Call, c: Choice)
    requires Inv(s) && k < |s.clients| && ClientStep(s, t, k, call, c) && !s.clients[k].CStartMonitor?
    ensures Sound(s.g, t.g) && t.monitor == s.monitor && t.l == s.l
  {
    SpawnKeeps(s.g, c.outcome);
    KillKeeps(s.g);
    ResetKeeps(s.g);
  }

  lemma ClientKeeps(s: State, t: State, k: nat, call: Call, c: Choice)
    requires Inv(s) && k < |s.clients| && ClientStep(s, t, k, call, c)
    ensures Inv(t)
  {
    if s.clients[k].CStartMonitor? {
      assert Pow2(0) == 1;
    } else {
      ClientSection(s, t, k, call, c);
      OthersKeep(s, t);
    }
  }

  lemma WorldKeeps(s: State, t: State, step: Step)
    requires Inv(s) && Next(s, t, step) && (step.HostExits? || step.TimePasses?)
    ensures Inv(t)
  {
    OthersKeep(s, t);
  }

  lemma StepKeeps(s: State, t: State, step: Step)
    requires Inv(s) && Next(s, t, step)
    ensures Inv(t)
  {
    match step
    case MonitorMoves(c) => MonitorKeeps(s, t, c);
    case ClientMoves(k, call, c) => ClientKeeps(s, t, k, call, c);
    case _ => WorldKeeps(s, t, step);
  }

  lemma InitInv(s: State)
    requires Init(s)
    ensures Inv(s)
  {
    assert Pow2(0) == 1;
  }

  lemma {:induction false} Inductive(states: seq<State>, i: nat)
    requires i < |states| && Inv(states[0])
    requires forall j {:trigger Inv(states[j])} :: 0 <= j < |states| - 1 && Inv(states[j]) ==> Inv(states[j + 1])
    ensures Inv(states[i])
  {
    if i > 0 {
      Inductive(states, i - 1);
      assert Inv(states[i - 1 + 1]);
    }
  }

  /** The invariant holds in every state of every run. */
  lemma RunInv(states: seq<State>, steps: seq<Step>, i: nat)
    requires Run(states, steps) && i < |states|
    ensures Inv(states[i])
  {
    InitInv(states[0]);
    forall j {:trigger Inv(states[j])} | 0 <= j < |steps| && Inv(states[j]) ensures Inv(states[j + 1]) {
      StepKeeps(states[j], states[j + 1], steps[j]);
    }
    Inductive(states, i);
  }

  // ----- results ------------------------------------------------------------------------------

  /** At most one host spawned by the supervisor is alive, and it is the tracked one. */
  lemma AtMostOneHost(states: seq<State>, steps: seq<Step>, i: nat, p: int, q: int)
    requires Run(states, steps) && i < |states|
    ensures p in states[i].g.alive && q in states[i].g.alive ==> p == q == states[i].g.handle != NONE
  {
    RunInv(states, steps, i);
  }

  /** When the monitor reaps, it reaps the very process it waited on, and that process has
      exited; the uptime it measures never exceeds the time since that process was spawned.  If
      the generation has moved on, it changes nothing. */
  lemma ReapsWhatItWaitedOn(states: seq<State>, steps: seq<Step>, i: nat)
    requires Run(states, steps) && i < |steps| && steps[i].MonitorMoves? && states[i].monitor.MSignaled?
    ensures var s, t, m := states[i], states[i + 1], states[i].monitor;
      if m.generation == s.g.generation then
        && s.g.handle == m.handle != NONE && m.handle !in s.g.alive && t.g.handle == NONE
        && t.g.alive == s.g.alive && t.g.generation != s.g.generation
        && t.g.history == s.g.history + [Exit(steps[i].choice.code, s.g.now - s.l.trackedSince)]
        && 0 <= s.g.now - s.l.trackedSince <= s.g.now - s.g.since
        && t.monitor == (if t.g.halted then MTop
                         else MRetry(if steps[i].choice.code in {3, 4} then 500 else s.l.backoff))
      else t.g == s.g && t.monitor == MTop
  {
    RunInv(states, steps, i);
    assert Next(states[i], states[i + 1], steps[i]);
  }

  /** The breaker is open exactly when the counter stands at 5, and the counter is the trailing
      run of fast exits since the last reset. */
  lemma BreakerCounts(states: seq<State>, steps: seq<Step>, i: nat)
    requires Run(states, steps) && i < |states|
    ensures states[i].g.halted <==> states[i].g.fast == 5
    ensures states[i].g.fast == TrailingFast(states[i].g.history) <= 5
  {
    RunInv(states, steps, i);
  }

  /** While the breaker is open the monitor spawns nothing: a monitor step keeps the processes
      as they are until somebody resets the breaker. */
  lemma HaltedSpawnsNothing(states: seq<State>, steps: seq<Step>, i: nat)
    requires Run(states, steps) && i < |steps| && steps[i].MonitorMoves? && states[i].g.halted
    ensures states[i + 1].g.pids == states[i].g.pids && states[i + 1].g.alive == states[i].g.alive
    ensures states[i + 1].g.handle == states[i].g.handle
  {
    RunInv(states, steps, i);
    assert Next(states[i], states[i + 1], steps[i]);
  }

  // ----- the backoff, counted from the run ----------------------------------------------------

  /** A spawn that finds no live host and neither attaches to one nor creates one. */
  predicate SpawnFails(g: Shared, outcome: Outcome) {
    g.handle !in g.alive && (outcome.Rejects? || outcome.Fails?)
  }

  /** The monitor tries to spawn, with or without success. */
  ghost predicate SpawnStep(s: State, step: Step, fails: bool) {
    step.MonitorMoves? && s.monitor.MSpawn? && SpawnFails(s.g, step.choice.outcome) == fails
  }

  /** The monitor is started, ends a restart of its own, or spawns with success. */
  ghost predicate FreshStart(s: State, step: Step) {
    || SpawnStep(s, step, false)
    || (step.MonitorMoves? && (s.monitor.MRestartSpawn? || (s.monitor.MRestartCheck? && s.g.stop)))
    || (step.ClientMoves? && step.k < |s.clients| && s.clients[step.k].CStartMonitor?)
  }

  /** The failed spawns among the first i steps since the last fresh start. */
  ghost function FailedSpawns(states: seq<State>, steps: seq<Step>, i: nat): nat
    requires i <= |steps| < |states|
  {
    if i == 0 || FreshStart(states[i - 1], steps[i - 1]) then 0
    else FailedSpawns(states, steps, i - 1) + if SpawnStep(states[i - 1], steps[i - 1], true) then 1 else 0
  }

  /** One step of the monitor's backoff: a failed spawn doubles it up to 30 s, a fresh start sets it
      to one second, nothing else changes it. */
  lemma BackoffStep(s: State, t: State, step: Step)
    requires OneHost(s.g) && Next(s, t, step)
    ensures t.l.backoff
         == if FreshStart(s, step) then 1000
            else if SpawnStep(s, step, true) then Min(2 * s.l.backoff, 30000)
            else s.l.backoff
  {
  }

  function Min(a: nat, b: nat): nat {
    if a < b then a else b
  }

  lemma Doubled(n: nat)
    ensures Min(2 * Min(1000 * Pow2(n), 30000), 30000) == Min(1000 * Pow2(n + 1), 30000)
  {
  }

  ghost predicate Counted(s: State, n: nat) {
    s.l.backoff == Min(1000 * Pow2(n), 30000)
  }

  ghost predicate CountedAt(states: seq<State>, steps: seq<Step>, i: nat)
    requires i <= |steps| < |states|
  {
    Counted(states[i], FailedSpawns(states, steps, i))
  }

  lemma {:induction false} CountedInductive(states: seq<State>, steps: seq<Step>, i: nat)
    requires i <= |steps| < |states| && CountedAt(states, steps, 0)
    requires forall j {:trigger CountedAt(states, steps, j)} ::
               0 <= j < |steps| && CountedAt(states, steps, j) ==> CountedAt(states, steps, j + 1)
    ensures CountedAt(states, steps, i)
  {
    if i > 0 {
      CountedInductive(states, steps, i - 1);
      assert CountedAt(states, steps, i - 1 + 1);
    }
  }

  lemma {:induction false} NextCounted(states: seq<State>, steps: seq<Step>, j: nat)
    requires Run(states, steps) && j < |steps| && CountedAt(states, steps, j)
    ensures CountedAt(states, steps, j + 1)
  {
    RunInv(states, steps, j);
    assert Next(states[j], states[j + 1], steps[j]);
    BackoffAfter(states[j], states[j + 1], steps[j], FailedSpawns(states, steps, j),
                 FailedSpawns(states, steps, j + 1));
  }

  lemma {:induction false} BackoffCounts(states: seq<State>, steps: seq<Step>, i: nat)
    requires Run(states, steps) && i < |states|
    ensures CountedAt(states, steps, i)
  {
    assert Pow2(0) == 1;
    forall j {:trigger CountedAt(states, steps, j)} | 0 <= j < |steps| && CountedAt(states, steps, j)
      ensures CountedAt(states, steps, j + 1)
    {
      NextCounted(states, steps, j);
    }
    CountedInductive(states, steps, i);
  }

  lemma BackoffAfter(s: State, t: State, step: Step, n: nat, n': nat)
    requires OneHost(s.g) && Next(s, t, step) && Counted(s, n)
    requires n' == if FreshStart(s, step) then 0 else n + if SpawnStep(s, step, true) then 1 else 0
    ensures Counted(t, n')
  {
    assert Pow2(0) == 1;
    BackoffStep(s, t, step);
    Doubled(n);
  }

  /** With n failed spawns since the monitor last spawned, was started or restarted the host, its
      backoff is min(1000 * 2^n, 30000) ms, and that is what it sleeps before the next spawn unless
      the host found another instance. */
  lemma BackoffLaw(states: seq<State>, steps: seq<Step>, i: nat)
    requires Run(states, steps) && i < |states|
    ensures var n := FailedSpawns(states, steps, i);
      states[i].l.backoff == if 1000 * Pow2(n) < 30000 then 1000 * Pow2(n) else 30000
    ensures states[i].monitor.MRetry? ==> states[i].monitor.delay in {500, states[i].l.backoff}
  {
    RunInv(states, steps, i);
    BackoffCounts(states, steps, i);
  }

  // ----- what Stop leaves behind ----------------------------------------------------------------

  /** A thread that has passed its check of the stop flag and is about to spawn. */
  ghost predicate AboutToSpawn(s: State) {
    || s.monitor.MSpawn? || s.monitor.MRestartSpawn?
    || exists k :: 0 <= k < |s.clients| && (s.clients[k].CRestartSpawn? || s.clients[k].CStartSpawn?)
  }

  ghost predicate Stopped(s: State) {
    s.g.stop && s.g.alive == {} && !AboutToSpawn(s)
  }

  /** A step in which some thread enters Start. */
  ghost predicate BeginsStart(s: State, step: Step) {
    step.ClientMoves? && step.k < |s.clients| && s.clients[step.k].CIdle? && step.call.Start?
  }

  lemma StoppedStep(s: State, t: State, step: Step)
    requires Stopped(s) && Next(s, t, step) && !BeginsStart(s, step)
    ensures Stopped(t)
  {
  }

  lemma {:induction false} StoppedInductive(states: seq<State>, j: nat)
    requires j < |states| && Stopped(states[0])
    requires forall k {:trigger Stopped(states[k])} ::
               0 <= k < |states| - 1 && Stopped(states[k]) ==> Stopped(states[k + 1])
    ensures Stopped(states[j])
  {
    if j > 0 {
      StoppedInductive(states, j - 1);
      assert Stopped(states[j - 1 + 1]);
    }
  }

  /** A continuation in which nobody enters Start. */
  ghost predicate Quiet(states: seq<State>, steps: seq<Step>) {
    && |states| == |steps| + 1
    && forall i :: 0 <= i < |steps| ==> Next(states[i], states[i + 1], steps[i]) && !BeginsStart(states[i], steps[i])
  }

  /** In no continuation of s is a host alive before the next Start. */
  ghost predicate StaysEmpty(s: State) {
    forall states: seq<State>, steps: seq<Step> {:trigger Quiet(states, steps)} ::
      Quiet(states, steps) && states[0] == s ==> states[|steps|].g.alive == {}
  }

  lemma StoppedStays(s: State)
    requires Stopped(s)
    ensures StaysEmpty(s)
  {
    forall states: seq<State>, steps: seq<Step> | Quiet(states, steps) && states[0] == s
      ensures states[|steps|].g.alive == {}
    {
      forall k {:trigger Stopped(states[k])} | 0 <= k < |states| - 1 && Stopped(states[k])
        ensures Stopped(states[k + 1])
      {
        StoppedStep(states[k], states[k + 1], steps[k]);
      }
      StoppedInductive(states, |steps|);
    }
  }

  lemma Spawns(s: State, t: State, step: Step)
    requires Next(s, t, step) && !BeginsStart(s, step) && t.g.alive != {}
    ensures !StaysEmpty(s)
  {
    assert Quiet([s, t], [step]);
  }

  lemma Leads(s: State, t: State, step: Step)
    requires Next(s, t, step) && !BeginsStart(s, step) && !StaysEmpty(t)
    ensures !StaysEmpty(s)
  {
    var states: seq<State>, steps: seq<Step> :| Quiet(states, steps) && states[0] == t && states[|steps|].g.alive != {};
    var states', steps' := [s] + states, [step] + steps;
    forall i | 0 <= i < |steps'|
      ensures Next(states'[i], states'[i + 1], steps'[i]) && !BeginsStart(states'[i], steps'[i])
    {
      if i > 0 {
        assert Next(states[i - 1], states[i - 1 + 1], steps[i - 1]);
      }
    }
    assert Quiet(states', steps') && states'[|steps'|] == states[|steps|];
  }

  // ----- without the stop flag every thread finds its way to a spawn -----------------------------

  const ANSWERS_YES := Choice(Creates, 3, true, false)
  const ANSWERS_NO := Choice(Creates, 3, false, false)

  lemma FromSpawnPoint(s: State)
    requires s.g.alive == {} && AboutToSpawn(s)
    ensures !StaysEmpty(s)
  {
    var g := Spawn(s.g, Creates).0;
    assert s.g.pids in g.alive;
    if s.monitor.MSpawn? {
      Spawns(s, s.(g := g, l := NextBackoff(s.l, true), monitor := MTop), MonitorMoves(ANSWERS_YES));
    } else if s.monitor.MRestartSpawn? {
      Spawns(s, s.(g := g, l := NextBackoff(s.l, true), monitor := MTop), MonitorMoves(ANSWERS_YES));
    } else {
      var k :| 0 <= k < |s.clients| && (s.clients[k].CRestartSpawn? || s.clients[k].CStartSpawn?);
      var pc := if s.clients[k].CRestartSpawn? then CIdle else CStartMonitor;
      Spawns(s, s.(g := g, clients := s.clients[k := pc]), ClientMoves(k, Stop, ANSWERS_YES));
    }
  }

  lemma MonitorLeads(s: State, t: State, c: Choice)
    requires MonitorStep(s, t, c) && !StaysEmpty(t)
    ensures !StaysEmpty(s)
  {
    Leads(s, t, MonitorMoves(c));
  }

  /** No host is alive and the stop flag is not set. */
  ghost predicate Free(s: State) {
    !s.g.stop && s.g.alive == {}
  }

  lemma FromRetry(s: State)
    requires Free(s) && (s.monitor.MRetry? || s.monitor.MDetach?)
    ensures !StaysEmpty(s)
    decreases s.monitor.MDetach?
  {
    if s.monitor.MDetach? {
      var t := s.(g := s.g.(attached := false), monitor := MRetry(s.l.backoff));
      FromRetry(t);
      MonitorLeads(s, t, ANSWERS_YES);
    } else {
      FromSpawnPoint(s.(monitor := MSpawn));
      MonitorLeads(s, s.(monitor := MSpawn), ANSWERS_YES);
    }
  }

  lemma FromNoHandle(s: State)
    requires Free(s) && (s.monitor.MNoHandle? || s.monitor.MAttached?)
    ensures !StaysEmpty(s)
    decreases s.monitor.MNoHandle?
  {
    if s.monitor.MAttached? {
      FromRetry(s.(monitor := MDetach));
      MonitorLeads(s, s.(monitor := MDetach), ANSWERS_NO);
    } else if s.g.attached {
      FromNoHandle(s.(monitor := MAttached));
      MonitorLeads(s, s.(monitor := MAttached), ANSWERS_NO);
    } else {
      FromRetry(s.(monitor := MRetry(s.l.backoff)));
      MonitorLeads(s, s.(monitor := MRetry(s.l.backoff)), ANSWERS_NO);
    }
  }

  lemma FromRestartKill(s: State)
    requires Free(s) && (s.monitor.MRestartKill? || s.monitor.MRestartCheck?)
    ensures !StaysEmpty(s)
    decreases s.monitor.MRestartKill?
  {
    if s.monitor.MRestartKill? {
      var t := s.(g := Kill(s.g), monitor := MRestartCheck);
      FromRestartKill(t);
      MonitorLeads(s, t, ANSWERS_YES);
    } else {
      FromSpawnPoint(s.(monitor := MRestartSpawn));
      MonitorLeads(s, s.(monitor := MRestartSpawn), ANSWERS_YES);
    }
  }

  lemma FromRestart(s: State)
    requires Free(s) && s.monitor.MRestart?
    ensures !StaysEmpty(s)
  {
    var t := s.(g := ResetCounters(s.g), monitor := MRestartKill);
    FromRestartKill(t);
    MonitorLeads(s, t, ANSWERS_YES);
  }

  /** The host the monitor waits for is the current one and exits as a duplicate. */
  lemma FromReap(s: State)
    requires Free(s) && s.monitor.MSignaled? && s.monitor.generation == s.g.generation && s.g.handle != NONE
    ensures !StaysEmpty(s)
  {
    var (g, a) := Reap(s.g, s.monitor.generation, 3, s.g.now - s.l.trackedSince, s.l.backoff);
    var t := s.(g := g, monitor := MRetry(SINGLETON_RETRY_MS));
    FromRetry(t);
    MonitorLeads(s, t, ANSWERS_YES);
  }

  lemma FromObserved(s: State)
    requires Free(s) && s.monitor == MObserved(s.g.handle, s.g.generation, s.g.halted)
    ensures !StaysEmpty(s)
  {
    var l := if s.g.generation != s.l.trackedGeneration
             then s.l.(trackedGeneration := s.g.generation, trackedSince := s.g.now) else s.l;
    if s.g.halted {
      FromRestart(s.(l := l, monitor := MRestart));
      MonitorLeads(s, s.(l := l, monitor := MRestart), ANSWERS_YES);
    } else if s.g.handle == NONE {
      FromNoHandle(s.(l := l, monitor := MNoHandle));
      MonitorLeads(s, s.(l := l, monitor := MNoHandle), ANSWERS_YES);
    } else {
      var t := s.(l := l, monitor := MWait(s.g.handle, s.g.generation));
      FromReap(t.(monitor := MSignaled(s.g.handle, s.g.generation)));
      MonitorLeads(t, t.(monitor := MSignaled(s.g.handle, s.g.generation)), ANSWERS_YES);
      MonitorLeads(s, t, ANSWERS_YES);
    }
  }

  lemma FromTop(s: State)
    requires Free(s) && (s.monitor.MTop? || s.monitor.MHalted? || s.monitor.MSnapshot?)
    ensures !StaysEmpty(s)
  {
    var u := s.(monitor := MSnapshot);
    var v := s.(monitor := MObserved(s.g.handle, s.g.generation, s.g.halted));
    FromObserved(v);
    MonitorLeads(u, v, ANSWERS_YES);
    MonitorLeads(s.(monitor := MTop), u, ANSWERS_YES);
    if s.monitor.MHalted? {
      MonitorLeads(s, s.(monitor := MTop), ANSWERS_YES);
    }
  }

  lemma FromSignaled(s: State)
    requires Free(s) && s.monitor.MSignaled?
    ensures !StaysEmpty(s)
  {
    if s.monitor.generation == s.g.generation && s.g.handle != NONE {
      FromReap(s);
    } else {
      FromTop(s.(monitor := MTop));
      MonitorLeads(s, s.(monitor := MTop), ANSWERS_YES);
    }
  }

  lemma FromOldSnapshot(s: State)
    requires Free(s) && (s.monitor.MObserved? || s.monitor.MWait?)
    ensures !StaysEmpty(s)
    decreases s.monitor.MObserved?
  {
    match s.monitor
    case MWait(h, gen) =>
      FromSignaled(s.(monitor := MSignaled(h, gen)));
      MonitorLeads(s, s.(monitor := MSignaled(h, gen)), ANSWERS_YES);
    case MObserved(h, gen, isHalted) =>
      var l := if gen != s.l.trackedGeneration then s.l.(trackedGeneration := gen, trackedSince := s.g.now) else s.l;
      if isHalted {
        FromRestart(s.(l := l, monitor := MRestart));
        MonitorLeads(s, s.(l := l, monitor := MRestart), ANSWERS_YES);
      } else if h == NONE {
        FromNoHandle(s.(l := l, monitor := MNoHandle));
        MonitorLeads(s, s.(l := l, monitor := MNoHandle), ANSWERS_YES);
      } else {
        FromOldSnapshot(s.(l := l, monitor := MWait(h, gen)));
        MonitorLeads(s, s.(l := l, monitor := MWait(h, gen)), ANSWERS_YES);
      }
  }

  lemma FromMonitor(s: State)
    requires Free(s) && !s.monitor.MExited?
    ensures !StaysEmpty(s)
  {
    match s.monitor
    case MTop | MHalted | MSnapshot => FromTop(s);
    case MObserved(_, _, _) | MWait(_, _) => FromOldSnapshot(s);
    case MNoHandle | MAttached => FromNoHandle(s);
    case MRetry(_) | MDetach => FromRetry(s);
    case MSpawn | MRestartSpawn => FromSpawnPoint(s);
    case MSignaled(_, _) => FromSignaled(s);
    case MRestart => FromRestart(s);
    case MRestartKill | MRestartCheck => FromRestartKill(s);
  }

  lemma ClientLeads(s: State, g: Shared, k: nat, pc: Client, call: Call)
    requires k < |s.clients| && ClientStep(s, s.(g := g, clients := s.clients[k := pc]), k, call, ANSWERS_YES)
    requires s.clients[k].CIdle? ==> !call.Start?
    requires !StaysEmpty(s.(g := g, clients := s.clients[k := pc]))
    ensures !StaysEmpty(s)
  {
    Leads(s, s.(g := g, clients := s.clients[k := pc]), ClientMoves(k, call, ANSWERS_YES));
  }

  /** The thread that called Stop may return and call Restart. */
  lemma FromRestartCall(s: State, k: nat)
    requires Free(s) && k < |s.clients| && (s.clients[k].CRestartKill? || s.clients[k].CRestartCheck?)
    ensures !StaysEmpty(s)
    decreases s.clients[k].CRestartKill?
  {
    if s.clients[k].CRestartKill? {
      FromRestartCall(s.(g := Kill(s.g), clients := s.clients[k := CRestartCheck]), k);
      ClientLeads(s, Kill(s.g), k, CRestartCheck, Stop);
    } else {
      var t := s.(clients := s.clients[k := CRestartSpawn]);
      assert t.clients[k].CRestartSpawn?;
      FromSpawnPoint(t);
      ClientLeads(s, s.g, k, CRestartSpawn, Stop);
    }
  }

  lemma FromStopReturn(s: State, k: nat)
    requires Free(s) && k < |s.clients| && (s.clients[k].CStopReset? || s.clients[k].CIdle?)
    ensures !StaysEmpty(s)
    decreases s.clients[k].CStopReset?
  {
    var g := ResetCounters(s.g);
    if s.clients[k].CIdle? {
      FromRestartCall(s.(g := g, clients := s.clients[k := CRestartKill]), k);
      ClientLeads(s, g, k, CRestartKill, Restart);
    } else {
      FromStopReturn(s.(g := g, clients := s.clients[k := CIdle]), k);
      ClientLeads(s, g, k, CIdle, Stop);
    }
  }

  lemma FromStopJoin(s: State, k: nat)
    requires Free(s) && k < |s.clients| && s.clients[k].CStopJoin?
    ensures !StaysEmpty(s)
  {
    if s.monitor.MExited? {
      FromStopReturn(s.(clients := s.clients[k := CStopReset]), k);
      ClientLeads(s, s.g, k, CStopReset, Stop);
    } else {
      FromMonitor(s);
    }
  }

  // ----- when Stop is final ---------------------------------------------------------------------

  /** Thread k has just run the kill of its Stop: then no host is alive, and none will be before
      the next Start exactly if the stop flag still stands and no thread has already passed its
      check of that flag. */
  lemma StopIsFinal(states: seq<State>, steps: seq<Step>, i: nat, k: nat)
    requires Run(states, steps) && i < |steps| && steps[i].ClientMoves? && steps[i].k == k
    requires k < |states[i].clients| && states[i].clients[k].CStopKill?
    ensures states[i + 1].g.alive == {}
    ensures StaysEmpty(states[i + 1]) <==> states[i + 1].g.stop && !AboutToSpawn(states[i + 1])
  {
    var s, t := states[i], states[i + 1];
    RunInv(states, steps, i);
    assert Next(s, t, steps[i]);
    KillKeeps(s.g);
    if AboutToSpawn(t) {
      FromSpawnPoint(t);
    } else if t.g.stop {
      StoppedStays(t);
    } else {
      FromStopJoin(t, k);
    }
  }

  lemma FlagStep(s: State, t: State, step: Step)
    requires s.g.stop && Next(s, t, step) && !BeginsStart(s, step)
    ensures t.g.stop
  {
  }

  lemma {:induction false} FlagInductive(states: seq<State>, i: nat, j: nat)
    requires i <= j < |states| && states[i].g.stop
    requires forall k {:trigger states[k].g} :: i <= k < j && states[k].g.stop ==> states[k + 1].g.stop
    ensures states[j].g.stop
  {
    if i < j {
      FlagInductive(states, i, j - 1);
      assert states[j - 1 + 1].g.stop;
    }
  }

  /** Only a Start takes the flag down again. */
  lemma StopFlagStands(states: seq<State>, steps: seq<Step>, i: nat, j: nat)
    requires Run(states, steps) && i <= j < |states| && states[i].g.stop
    requires forall k :: i <= k < j ==> !BeginsStart(states[k], steps[k])
    ensures states[j].g.stop
  {
    forall k {:trigger states[k].g} | i <= k < j && states[k].g.stop ensures states[k + 1].g.stop {
      FlagStep(states[k], states[k + 1], steps[k]);
    }
    FlagInductive(states, i, j);
  }

  /** A run whose last state is s. */
  ghost predicate Reaches(states: seq<State>, steps: seq<Step>, s: State) {
    Run(states, steps) && states[|steps|] == s
  }

  lemma Extend(states: seq<State>, steps: seq<Step>, s: State, t: State, step: Step)
    returns (states': seq<State>, steps': seq<Step>)
    requires Reaches(states, steps, s) && Next(s, t, step)
    ensures Reaches(states', steps', t)
  {
    states', steps' := states + [t], steps + [step];
    forall i | 0 <= i < |steps'| ensures Next(states'[i], states'[i + 1], steps'[i]) {
      if i < |steps| {
        assert Next(states[i], states[i + 1], steps[i]);
      }
    }
  }

  /** The state in which the monitor is about to spawn the first host; with stop, Stop has also
      found nothing to kill. */
  ghost function BeforeSpawn(stop: bool, client: Client): State {
    State(Shared(0, stop, NONE, 0, false, 0, false, {}, 0, 0, [Reset]), MSpawn, Locals(BACKOFF_START_MS, 0, 0),
          [client])
  }

  /** Start fails to spawn and launches the monitor. */
  lemma StartWithoutHost() returns (states: seq<State>, steps: seq<Step>, s: State)
    ensures Reaches(states, steps, s)
    ensures s == BeforeSpawn(false, CIdle).(monitor := MTop, l := Locals(BACKOFF_START_MS, NONE, 0))
  {
    var step := ClientMoves(0, Start, Choice(Fails, 0, false, false));
    var a := State(Shared(0, false, NONE, 0, false, 0, false, {}, 0, 0, []), MExited,
                   Locals(BACKOFF_START_MS, NONE, 0), [CIdle]);
    states, steps := [a], [];
    var b := a.(g := a.g.(history := [Reset]), clients := [CStartSpawn]);
    states, steps := Extend(states, steps, a, b, step);
    var d := b.(clients := [CStartMonitor]);
    states, steps := Extend(states, steps, b, d, step);
    s := d.(monitor := MTop, clients := [CIdle]);
    states, steps := Extend(states, steps, d, s, step);
  }

  lemma MonitorPassesCheck() returns (states: seq<State>, steps: seq<Step>)
    ensures Reaches(states, steps, BeforeSpawn(false, CIdle))
  {
    var s;
    states, steps, s := StartWithoutHost();
    var step := MonitorMoves(Choice(Fails, 0, false, false));
    states, steps := Extend(states, steps, s, s.(monitor := MSnapshot), step);
    states, steps := Extend(states, steps, s.(monitor := MSnapshot), s.(monitor := MObserved(NONE, 0, false)), step);
    var t := s.(monitor := MNoHandle, l := Locals(BACKOFF_START_MS, 0, 0));
    states, steps := Extend(states, steps, s.(monitor := MObserved(NONE, 0, false)), t, step);
    states, steps := Extend(states, steps, t, t.(monitor := MRetry(BACKOFF_START_MS)), step);
    states, steps := Extend(states, steps, t.(monitor := MRetry(BACKOFF_START_MS)), BeforeSpawn(false, CIdle), step);
  }

  /** Otherwise a host can outlive Stop: the monitor has seen the flag clear, Stop kills nothing,
      the monitor spawns and then leaves, Stop returns. */
  lemma HostOutlivesStop() returns (states: seq<State>, steps: seq<Step>, s: State)
    ensures Reaches(states, steps, s)
    ensures s.g.stop && 0 in s.g.alive && s.monitor.MExited? && s.clients == [CIdle]
  {
    states, steps := MonitorPassesCheck();
    var c := Choice(Creates, 0, false, false);
    var step := ClientMoves(0, Stop, c);
    var a, b := BeforeSpawn(true, CStopKill), BeforeSpawn(true, CStopJoin);
    states, steps := Extend(states, steps, BeforeSpawn(false, CIdle), a, step);
    states, steps := Extend(states, steps, a, b, step);
    var d := b.(g := Spawn(b.g, Creates).0, monitor := MTop);
    states, steps := Extend(states, steps, b, d, MonitorMoves(c));
    states, steps := Extend(states, steps, d, d.(monitor := MExited), MonitorMoves(c));
    var e := d.(monitor := MExited, clients := [CStopReset]);
    states, steps := Extend(states, steps, d.(monitor := MExited), e, step);
    s := e.(g := ResetCounters(e.g), clients := [CIdle]);
    states, steps := Extend(states, steps, e, s, step);
  }
}
