/** CPU-time attribution (Registry in ModulePerf.cpp): worker threads register, run, and
    unregister while a sampler drains their time, in any interleaving.

    Thread clocks only grow, time queries succeed and a thread is registered at most once at a
    time.  A thread reads its clock without the lock and enters the registry afterwards.  The
    sampler reads the clocks one by one under the registry lock and afterwards, without the lock,
    takes the retired time slot by slot. */
module Ledger {

  const SLOTS: nat := 16

  datatype Entry = Entry(thread: nat, slot: nat, prev: nat)

  datatype Sampler =
    | Idle
    /** Holding the lock; entries before next have been read. */
    | Scanning(next: nat, delta: seq<nat>)
    /** Lock released; slots before next have been drained. */
    | Draining(next: nat, delta: seq<nat>)

  /** joining holds the threads that have read their clock and not yet entered the registry; used
      is the time that threads have run since they read it, drained what samples have reported. */
  datatype State = State(
    clock: seq<nat>,
    joining: seq<Entry>,
    live: seq<Entry>,
    retired: seq<nat>,
    sampler: Sampler,
    used: seq<nat>,
    drained: seq<nat>)

  function Zeros(): seq<nat> {
    seq(SLOTS, _ => 0)
  }

  function Plus(s: seq<nat>, k: nat, d: nat): seq<nat> {
    if k < |s| then s[k := s[k] + d] else s
  }

  /** The position of a thread's entry, or the number of entries. */
  function Find(live: seq<Entry>, thread: nat): (i: nat)
    ensures i <= |live|
    ensures i < |live| ==> live[i].thread == thread
    ensures forall j :: 0 <= j < i ==> live[j].thread != thread
  {
    if live == [] then 0
    else
      var i := Find(live[..|live| - 1], thread);
      if i < |live| - 1 then i else if live[|live| - 1].thread == thread then |live| - 1 else |live|
  }

  // ----- steps ------------------------------------------------------------------

  datatype Step =
    | Runs(thread: nat, d: nat)
    | ReadsClock(thread: nat, slot: nat)
    | Joins(thread: nat)
    | Unregisters(thread: nat)
    | Samples

  predicate Locked(s: State) {
    s.sampler.Scanning?
  }

  ghost predicate Next(s: State, t: State, step: Step) {
    match step
    case Runs(thread, d) => thread < |s.clock| && t == RunThread(s, thread, d)
    case ReadsClock(thread, slot) =>
      && thread < |s.clock| && slot < SLOTS
      && Find(s.live, thread) == |s.live| && Find(s.joining, thread) == |s.joining|
      && t == s.(joining := s.joining + [Entry(thread, slot, s.clock[thread])])
    case Joins(thread) => !Locked(s) && Find(s.joining, thread) < |s.joining| && t == Join(s, Find(s.joining, thread))
    case Unregisters(thread) => !Locked(s) && thread < |s.clock| && t == Unregister(s, thread)
    case Samples => t == SampleStep(s)
  }

  function RunThread(s: State, thread: nat, d: nat): State
    requires thread < |s.clock|
  {
    var i, j := Find(s.live, thread), Find(s.joining, thread);
    s.(clock := s.clock[thread := s.clock[thread] + d],
       used := if i < |s.live| then Plus(s.used, s.live[i].slot, d)
               else if j < |s.joining| then Plus(s.used, s.joining[j].slot, d) else s.used)
  }

  function Without(es: seq<Entry>, i: nat): seq<Entry>
    requires i < |es|
  {
    es[..i] + es[i + 1..]
  }

  function Join(s: State, i: nat): State
    requires i < |s.joining|
  {
    s.(live := s.live + [s.joining[i]], joining := Without(s.joining, i))
  }

  function Elapsed(e: Entry, clock: seq<nat>): nat {
    if e.thread < |clock| && clock[e.thread] > e.prev then clock[e.thread] - e.prev else 0
  }

  /** Bank the time since the last sample, then forget the thread. */
  function Unregister(s: State, thread: nat): State {
    var i := Find(s.live, thread);
    if i == |s.live| then s
    else
      var e := s.live[i];
      s.(retired := Plus(s.retired, e.slot, Elapsed(e, s.clock)), live := Without(s.live, i))
  }

  function SampleStep(s: State): State {
    match s.sampler
    case Idle => s.(sampler := Scanning(0, Zeros()))
    case Scanning(i, delta) =>
      if i < |s.live| then
        var e := s.live[i];
        var now := if e.thread < |s.clock| then s.clock[e.thread] else e.prev;
        s.(live := s.live[i := e.(prev := now)],
           sampler := Scanning(i + 1, Plus(delta, e.slot, Elapsed(e, s.clock))))
      else s.(sampler := Draining(0, delta))
    case Draining(k, delta) =>
      if k < |delta| && k < |s.retired| then
        s.(drained := Plus(s.drained, k, delta[k] + s.retired[k]), retired := s.retired[k := 0],
           sampler := Draining(k + 1, delta))
      else s.(sampler := Idle)
  }

  ghost predicate Init(s: State) {
    && s.joining == [] && s.live == [] && s.sampler.Idle?
    && s.retired == Zeros() && s.used == Zeros() && s.drained == Zeros()
  }

  ghost predicate Run(states: seq<State>, steps: seq<Step>) {
    && |states| == |steps| + 1 && Init(states[0])
    && forall n :: 0 <= n < |steps| ==> Next(states[n], states[n + 1], steps[n])
  }

  // ----- the balance --------------------------------------------------------------

  /** Time of the live threads of slot k that no sample has seen yet. */
  function Unseen(live: seq<Entry>, clock: seq<nat>, k: nat): nat {
    if live == [] then 0
    else
      var e := live[|live| - 1];
      Unseen(live[..|live| - 1], clock, k) + if e.slot == k then Elapsed(e, clock) else 0
  }

  /** Time a running sample has read but not yet reported. */
  function Pending(m: Sampler, k: nat): nat {
    match m
    case Idle => 0
    case Scanning(_, delta) => if k < |delta| then delta[k] else 0
    case Draining(next, delta) => if next <= k < |delta| then delta[k] else 0
  }

  ghost predicate Balanced(s: State, k: nat)
    requires k < |s.used| && k < |s.retired| && k < |s.drained|
  {
    s.drained[k] + Pending(s.sampler, k) + s.retired[k] + Unseen(s.live, s.clock, k) + Unseen(s.joining, s.clock, k)
      == s.used[k]
  }

  /** Entries of different threads, none of which has read more than its clock shows. */
  ghost predicate Entries(es: seq<Entry>, clock: seq<nat>) {
    && (forall i :: 0 <= i < |es| ==>
          es[i].thread < |clock| && es[i].slot < SLOTS && es[i].prev <= clock[es[i].thread])
    && (forall i, j :: 0 <= i < j < |es| ==> es[i].thread != es[j].thread)
  }

  ghost predicate Apart(a: seq<Entry>, b: seq<Entry>) {
    forall i, j :: 0 <= i < |a| && 0 <= j < |b| ==> a[i].thread != b[j].thread
  }

  ghost predicate Shape(s: State) {
    && |s.used| == SLOTS && |s.retired| == SLOTS && |s.drained| == SLOTS
    && (s.sampler.Scanning? || s.sampler.Draining? ==> |s.sampler.delta| == SLOTS)
    && (s.sampler.Draining? ==> s.sampler.next <= SLOTS)
    && Entries(s.live, s.clock) && Entries(s.joining, s.clock) && Apart(s.live, s.joining)
  }

  ghost predicate Inv(s: State) {
    Shape(s) && forall k :: 0 <= k < SLOTS ==> Balanced(s, k)
  }

  // ----- how the unseen time changes ------------------------------------------------

  function Share(e: Entry, clock: seq<nat>, k: nat): nat {
    if e.slot == k then Elapsed(e, clock) else 0
  }

  lemma {:induction false} UnseenReplace(live: seq<Entry>, clock: seq<nat>, k: nat, i: nat, e: Entry)
    requires i < |live|
    ensures Unseen(live[i := e], clock, k) + Share(live[i], clock, k) == Unseen(live, clock, k) + Share(e, clock, k)
  {
    var n := |live| - 1;
    if i == n {
      assert live[i := e][..n] == live[..n];
    } else {
      UnseenReplace(live[..n], clock, k, i, e);
      assert live[i := e][..n] == live[..n][i := e];
    }
  }

  /** Leaving out entry i and the last one, in either order. */
  lemma WithoutLast(live: seq<Entry>, i: nat)
    requires i < |live| - 1
    ensures var n, rest := |live| - 1, Without(live, i);
      |rest| == n && rest[..n - 1] == Without(live[..n], i) && rest[n - 1] == live[n]
  {
  }

  lemma DropLast(live: seq<Entry>)
    requires live != []
    ensures Without(live, |live| - 1) == live[..|live| - 1]
  {
  }

  lemma {:induction false} UnseenRemove(live: seq<Entry>, clock: seq<nat>, k: nat, i: nat)
    requires i < |live|
    ensures Unseen(Without(live, i), clock, k) + Share(live[i], clock, k) == Unseen(live, clock, k)
  {
    var n := |live| - 1;
    if i == n {
      DropLast(live);
    } else {
      UnseenRemove(live[..n], clock, k, i);
      WithoutLast(live, i);
    }
  }

  lemma {:induction false} UnseenAppend(live: seq<Entry>, clock: seq<nat>, k: nat, e: Entry)
    ensures Unseen(live + [e], clock, k) == Unseen(live, clock, k) + Share(e, clock, k)
  {
    assert (live + [e])[..|live|] == live;
  }

  /** Only the running thread's entry sees its clock advance. */
  lemma {:induction false} UnseenOthers(live: seq<Entry>, clock: seq<nat>, thread: nat, now: nat, k: nat)
    requires thread < |clock| && forall j :: 0 <= j < |live| ==> live[j].thread != thread
    ensures Unseen(live, clock[thread := now], k) == Unseen(live, clock, k)
  {
    if live != [] {
      UnseenOthers(live[..|live| - 1], clock, thread, now, k);
    }
  }

  lemma {:induction false} UnseenRuns(live: seq<Entry>, clock: seq<nat>, i: nat, d: nat, k: nat)
    requires i < |live| && live[i].thread < |clock| && live[i].prev <= clock[live[i].thread]
    requires forall j :: 0 <= j < |live| && j != i ==> live[j].thread != live[i].thread
    ensures var thread := live[i].thread;
      Unseen(live, clock[thread := clock[thread] + d], k)
        == Unseen(live, clock, k) + if live[i].slot == k then d else 0
  {
    var thread, n := live[i].thread, |live| - 1;
    if i == n {
      UnseenOthers(live[..n], clock, thread, clock[thread] + d, k);
    } else {
      UnseenRuns(live[..n], clock, i, d, k);
    }
  }

  // ----- every step keeps the books ---------------------------------------------------

  lemma RunBalances(s: State, t: State, thread: nat, d: nat, k: nat)
    requires Shape(s) && thread < |s.clock| && t == RunThread(s, thread, d) && k < SLOTS && Balanced(s, k)
    ensures Balanced(t, k)
  {
    var i, j, now := Find(s.live, thread), Find(s.joining, thread), s.clock[thread] + d;
    if i < |s.live| {
      UnseenRuns(s.live, s.clock, i, d, k);
      UnseenOthers(s.joining, s.clock, thread, now, k);
    } else if j < |s.joining| {
      UnseenOthers(s.live, s.clock, thread, now, k);
      UnseenRuns(s.joining, s.clock, j, d, k);
    } else {
      UnseenOthers(s.live, s.clock, thread, now, k);
      UnseenOthers(s.joining, s.clock, thread, now, k);
    }
  }

  lemma RunKeeps(s: State, thread: nat, d: nat)
    requires Inv(s) && thread < |s.clock|
    ensures Inv(RunThread(s, thread, d))
  {
    var t := RunThread(s, thread, d);
    assert Entries(t.live, t.clock) && Entries(t.joining, t.clock);
    forall k | 0 <= k < SLOTS ensures Balanced(t, k) {
      assert Balanced(s, k);
      RunBalances(s, t, thread, d, k);
    }
  }

  lemma ReadClockKeeps(s: State, t: State, thread: nat, slot: nat)
    requires Inv(s) && Next(s, t, ReadsClock(thread, slot))
    ensures Inv(t)
  {
    forall k | 0 <= k < SLOTS ensures Balanced(t, k) {
      assert Balanced(s, k);
      UnseenAppend(s.joining, s.clock, k, Entry(thread, slot, s.clock[thread]));
    }
  }

  lemma EntriesWithout(es: seq<Entry>, other: seq<Entry>, clock: seq<nat>, i: nat)
    requires i < |es| && Entries(es, clock) && Apart(other, es)
    ensures Entries(Without(es, i), clock) && Apart(other + [es[i]], Without(es, i))
  {
    var rest := Without(es, i);
    assert forall j :: 0 <= j < |rest| ==> rest[j] == if j < i then es[j] else es[j + 1];
  }

  lemma EntriesWith(es: seq<Entry>, e: Entry, other: seq<Entry>, clock: seq<nat>, i: nat)
    requires i < |other| && e == other[i] && Entries(es, clock) && Entries(other, clock) && Apart(es, other)
    ensures Entries(es + [e], clock)
  {
  }

  /** Between reading its clock and entering the registry a thread's time is unseen, not lost. */
  lemma JoinKeeps(s: State, i: nat)
    requires Inv(s) && !Locked(s) && i < |s.joining|
    ensures Inv(Join(s, i))
  {
    var t := Join(s, i);
    EntriesWithout(s.joining, s.live, s.clock, i);
    EntriesWith(s.live, s.joining[i], s.joining, s.clock, i);
    forall k | 0 <= k < SLOTS ensures Balanced(t, k) {
      assert Balanced(s, k);
      UnseenAppend(s.live, s.clock, k, s.joining[i]);
      UnseenRemove(s.joining, s.clock, k, i);
    }
  }

  lemma UnregisterKeeps(s: State, thread: nat)
    requires Inv(s) && !Locked(s)
    ensures Inv(Unregister(s, thread))
  {
    var t, i := Unregister(s, thread), Find(s.live, thread);
    if i < |s.live| {
      UnregisterShape(s, i);
      forall k | 0 <= k < SLOTS ensures Balanced(t, k) {
        assert Balanced(s, k);
        UnseenRemove(s.live, s.clock, k, i);
      }
    }
  }

  lemma UnregisterShape(s: State, i: nat)
    requires Shape(s) && i < |s.live|
    ensures Shape(s.(live := Without(s.live, i)))
  {
    var rest := Without(s.live, i);
    assert forall j :: 0 <= j < |rest| ==> rest[j] == if j < i then s.live[j] else s.live[j + 1];
  }

  lemma ScanKeeps(s: State)
    requires Inv(s) && s.sampler.Scanning? && s.sampler.next < |s.live|
    ensures Inv(SampleStep(s))
  {
    var t, i := SampleStep(s), s.sampler.next;
    forall k | 0 <= k < SLOTS ensures Balanced(t, k) {
      assert Balanced(s, k);
      UnseenReplace(s.live, s.clock, k, i, t.live[i]);
    }
  }

  lemma SampleKeeps(s: State)
    requires Inv(s)
    ensures Inv(SampleStep(s))
  {
    if s.sampler.Scanning? && s.sampler.next < |s.live| {
      ScanKeeps(s);
    } else {
      var t := SampleStep(s);
      forall k | 0 <= k < SLOTS ensures Balanced(t, k) {
        assert Balanced(s, k);
      }
    }
  }

  lemma {:induction false} RunInv(states: seq<State>, steps: seq<Step>, n: nat)
    requires Run(states, steps) && n < |states|
    ensures Inv(states[n])
  {
    if n > 0 {
      RunInv(states, steps, n - 1);
      var s, t := states[n - 1], states[n - 1 + 1];
      assert Next(s, t, steps[n - 1]);
      match steps[n - 1]
      case Runs(thread, d) => RunKeeps(s, thread, d);
      case ReadsClock(thread, slot) => ReadClockKeeps(s, t, thread, slot);
      case Joins(thread) => JoinKeeps(s, Find(s.joining, thread));
      case Unregisters(thread) => UnregisterKeeps(s, thread);
      case Samples => SampleKeeps(s);
    }
  }

  // ----- results ------------------------------------------------------------------------

  /** Conservation: in every state of every run and for every slot, what samples have drained,
      what a running sample has read, the retired balance and the time of the threads in the
      registry, and of those about to enter it, since their last reading add up to all the time
      used since registration began. */
  lemma TimeIsConserved(states: seq<State>, steps: seq<Step>, n: nat, k: nat)
    requires Run(states, steps) && n < |states| && k < SLOTS
    ensures var s := states[n];
      && |s.drained| == |s.retired| == |s.used| == SLOTS
      && s.drained[k] + Pending(s.sampler, k) + s.retired[k] + Unseen(s.live, s.clock, k)
           + Unseen(s.joining, s.clock, k) == s.used[k]
  {
    RunInv(states, steps, n);
    assert Balanced(states[n], k);
  }

  /** With no thread registered, no sample running and nothing retired, everything used has been
      drained: nothing is lost or counted twice when workers exit. */
  lemma AllDrained(states: seq<State>, steps: seq<Step>, n: nat, k: nat)
    requires Run(states, steps) && n < |states| && k < SLOTS
    requires states[n].joining == [] && states[n].live == [] && states[n].sampler.Idle?
    requires |states[n].retired| == SLOTS && states[n].retired[k] == 0
    ensures |states[n].drained| == |states[n].used| == SLOTS && states[n].drained[k] == states[n].used[k]
  {
    TimeIsConserved(states, steps, n, k);
  }

  // ----- a whole sample ---------------------------------------------------------------------

  /** How many steps a sample still needs, at most. */
  function StepsLeft(s: State): nat {
    match s.sampler
    case Idle => 0
    case Scanning(i, _) => SLOTS + 2 + if i < |s.live| then |s.live| - i else 0
    case Draining(k, _) => 1 + if k < SLOTS then SLOTS - k else 0
  }

  /** The rest of a sample that nobody disturbs. */
  function Finish(s: State): State
    requires Shape(s)
    decreases StepsLeft(s)
  {
    if s.sampler.Idle? then s else SampleShape(s); Finish(SampleStep(s))
  }

  lemma SampleShape(s: State)
    requires Shape(s)
    ensures Shape(SampleStep(s)) && (s.sampler.Idle? || StepsLeft(SampleStep(s)) < StepsLeft(s))
    ensures SampleStep(s).clock == s.clock && SampleStep(s).joining == s.joining && SampleStep(s).used == s.used
  {
  }

  /** Entries before n have been read at this clock, retired slots before k have been drained. */
  ghost predicate Seen(s: State, n: nat, k: nat) {
    && n <= |s.live|
    && (forall i :: 0 <= i < n ==> s.live[i].thread < |s.clock| && s.live[i].prev == s.clock[s.live[i].thread])
    && k <= |s.retired| && (forall j :: 0 <= j < k ==> s.retired[j] == 0)
  }

  ghost predicate SoFar(s: State) {
    match s.sampler
    case Idle => Seen(s, |s.live|, SLOTS)
    case Scanning(i, _) => i <= |s.live| && Seen(s, i, 0)
    case Draining(k, _) => Seen(s, |s.live|, k)
  }

  lemma SampleSoFar(s: State)
    requires Shape(s) && SoFar(s) && !s.sampler.Idle?
    ensures SoFar(SampleStep(s))
  {
  }

  lemma {:induction false} FinishSees(s: State)
    requires Inv(s) && SoFar(s)
    ensures Inv(Finish(s)) && Seen(Finish(s), |Finish(s).live|, SLOTS) && Finish(s).sampler.Idle?
    ensures Finish(s).clock == s.clock && Finish(s).joining == s.joining && Finish(s).used == s.used
    decreases StepsLeft(s)
  {
    if !s.sampler.Idle? {
      SampleShape(s);
      SampleSoFar(s);
      SampleKeeps(s);
      FinishSees(SampleStep(s));
    }
  }

  lemma {:induction false} NothingUnseen(live: seq<Entry>, clock: seq<nat>, k: nat)
    requires forall i :: 0 <= i < |live| ==> live[i].thread < |clock| && live[i].prev == clock[live[i].thread]
    ensures Unseen(live, clock, k) == 0
  {
    if live != [] {
      NothingUnseen(live[..|live| - 1], clock, k);
    }
  }

  /** A sample that nobody disturbs drains everything: afterwards all time used has been reported,
      except that of threads about to enter the registry. */
  lemma SampleDrainsAll(states: seq<State>, steps: seq<Step>, n: nat, k: nat)
    requires Run(states, steps) && n < |states| && states[n].sampler.Idle? && k < SLOTS
    ensures Shape(SampleStep(states[n])) && |states[n].used| == SLOTS
    ensures var t := Finish(SampleStep(states[n]));
      |t.drained| == SLOTS && t.drained[k] + Unseen(states[n].joining, states[n].clock, k) == states[n].used[k]
  {
    var s := states[n];
    RunInv(states, steps, n);
    SampleShape(s);
    SampleKeeps(s);
    FinishSees(SampleStep(s));
    var t := Finish(SampleStep(s));
    assert Balanced(t, k);
    NothingUnseen(t.live, t.clock, k);
  }
}
