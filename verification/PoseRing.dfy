/** The driver's pose ring (DriverPoseShmem in Protocol.h): one writer, one draining reader,
    interleaved in any way.

    A write stores pose number index + 1 in its slot, which is torn while the copy runs, and
    then advances the index.  A drain loads the index once, resynchronises its cursor and then
    hands one slot after another, by reference, to a callback up to the loaded index.  The
    callback may take any time; if a write touches its slot meanwhile, it sees anything. */
module PoseRing {

  const BUFFERED_SAMPLES: nat := 65536
  const HALF: nat := BUFFERED_SAMPLES / 2

  datatype Writer<T> =
    | WIdle
    /** The slot is being overwritten and holds anything. */
    | WTorn(pose: T)
    /** The slot holds the pose, the index is not yet advanced. */
    | WStored

  /** A pose handed to the callback: its position, the index loaded by this drain and the index
      at the moment the callback returns. */
  datatype Delivery<T> = Delivery(position: nat, pose: T, loaded: nat, index: nat)

  /** touched says that the slot was written to since the callback began. */
  datatype Reader = RIdle | RDrain(loaded: nat) | RCallback(loaded: nat, touched: bool)

  /** log is the sequence of poses written; resynced says that some drain moved the cursor. */
  datatype State<T> = State(
    first: T,
    poses: seq<T>,
    index: nat,
    log: seq<T>,
    writer: Writer<T>,
    cursor: nat,
    reader: Reader,
    delivered: seq<Delivery<T>>,
    resynced: bool)

  /** Where a drain starts. */
  function Resync(cursor: nat, index: nat): (c: nat)
    ensures c <= index <= c + HALF
    ensures c == cursor <==> cursor <= index <= cursor + HALF
    ensures index > cursor + HALF ==> c == index - HALF
  {
    if index < cursor || index - cursor > HALF then
      if index < HALF then index else index - HALF
    else cursor
  }

  ghost predicate Init<T>(s: State<T>) {
    && |s.poses| == BUFFERED_SAMPLES && s.poses[0] == s.first && s.index == 0 && s.log == []
    && s.writer.WIdle? && s.cursor == 0 && s.reader.RIdle? && s.delivered == [] && !s.resynced
  }

  /** A new write chooses the pose and what the torn slot looks like; seen is what a callback
      makes of a slot that was written to under it. */
  datatype Step<T> = WriterMoves(pose: T, junk: T) | ReaderMoves(seen: T)

  /** A store to the slot of a running callback touches it. */
  function Touch(r: Reader, cursor: nat, slot: nat): Reader {
    if r.RCallback? && cursor % BUFFERED_SAMPLES == slot then RCallback(r.loaded, true) else r
  }

  ghost predicate WriterStep<T>(s: State<T>, t: State<T>, pose: T, junk: T)
    requires |s.poses| == BUFFERED_SAMPLES
  {
    var slot := (s.index + 1) % BUFFERED_SAMPLES;
    match s.writer
    case WIdle =>
      t == s.(poses := s.poses[slot := junk], writer := WTorn(pose), reader := Touch(s.reader, s.cursor, slot))
    case WTorn(p) =>
      t == s.(poses := s.poses[slot := p], log := s.log + [p], writer := WStored,
              reader := Touch(s.reader, s.cursor, slot))
    case WStored => t == s.(index := s.index + 1, writer := WIdle)
  }

  ghost predicate ReaderStep<T>(s: State<T>, t: State<T>, seen: T)
    requires |s.poses| == BUFFERED_SAMPLES
  {
    match s.reader
    case RIdle =>
      var c := Resync(s.cursor, s.index);
      t == s.(cursor := c, reader := RDrain(s.index), resynced := s.resynced || c != s.cursor)
    case RDrain(loaded) =>
      t == s.(reader := if s.cursor < loaded then RCallback(loaded, false) else RIdle)
    case RCallback(loaded, touched) =>
      var pose := if touched then seen else s.poses[s.cursor % BUFFERED_SAMPLES];
      var d := Delivery(s.cursor, pose, loaded, s.index);
      t == s.(cursor := s.cursor + 1, delivered := s.delivered + [d], reader := RDrain(loaded))
  }

  ghost predicate Next<T>(s: State<T>, t: State<T>, step: Step<T>) {
    && |s.poses| == BUFFERED_SAMPLES
    && match step
       case WriterMoves(pose, junk) => WriterStep(s, t, pose, junk)
       case ReaderMoves(seen) => ReaderStep(s, t, seen)
  }

  ghost predicate Run<T>(states: seq<State<T>>, steps: seq<Step<T>>) {
    && |states| == |steps| + 1 && Init(states[0])
    && forall i :: 0 <= i < |steps| ==> Next(states[i], states[i + 1], steps[i])
  }

  // ----- invariant -----------------------------------------------------------

  /** The pose of a position: writes are numbered from 1, position 0 is what the segment held
      at the start. */
  ghost function PoseAt<T>(first: T, log: seq<T>, p: nat): T
    requires p <= |log|
  {
    if p == 0 then first else log[p - 1]
  }

  /** The number of writes that have begun. */
  ghost function Begun<T>(s: State<T>): nat {
    if s.writer.WIdle? then s.index else s.index + 1
  }

  /** A position is intact until the write that reuses its slot begins. */
  ghost predicate Intact<T>(s: State<T>, p: nat)
    requires |s.poses| == BUFFERED_SAMPLES
  {
    p <= |s.log| && Begun(s) < p + BUFFERED_SAMPLES ==>
      s.poses[p % BUFFERED_SAMPLES] == PoseAt(s.first, s.log, p)
  }

  /** A delivery is faithful if its slot was not being reused when it was read. */
  ghost predicate Faithful<T>(s: State<T>, d: Delivery<T>) {
    && d.position < d.loaded <= d.index <= |s.log| && d.loaded <= d.position + HALF
    && (d.index + 2 <= d.position + BUFFERED_SAMPLES ==> d.pose == PoseAt(s.first, s.log, d.position))
  }

  /** A callback whose slot was touched runs while that slot is being reused or later. */
  ghost predicate Reading<T>(s: State<T>) {
    match s.reader
    case RIdle => true
    case RDrain(loaded) => s.cursor <= loaded <= s.index && loaded <= s.cursor + HALF
    case RCallback(loaded, touched) =>
      && s.cursor < loaded <= s.index && loaded <= s.cursor + HALF
      && (touched ==> s.cursor + BUFFERED_SAMPLES <= Begun(s))
  }

  ghost predicate Inv<T>(s: State<T>) {
    && |s.poses| == BUFFERED_SAMPLES
    && |s.log| == (if s.writer.WStored? then s.index + 1 else s.index)
    && (forall p :: 0 <= p <= |s.log| ==> Intact(s, p))
    && s.cursor <= s.index
    && Reading(s)
    && (forall k :: 0 <= k < |s.delivered| ==> Faithful(s, s.delivered[k]))
    && (!s.resynced ==> |s.delivered| == s.cursor)
    && (!s.resynced ==> forall k :: 0 <= k < |s.delivered| ==> s.delivered[k].position == k)
  }

  /** Distinct positions less than a lap apart have distinct slots. */
  lemma DistinctSlots(p: nat, q: nat)
    requires p < q < p + BUFFERED_SAMPLES
    ensures p % BUFFERED_SAMPLES != q % BUFFERED_SAMPLES
  {
  }

  lemma WriterIntact<T>(s: State<T>, t: State<T>, pose: T, junk: T, p: nat)
    requires Inv(s) && WriterStep(s, t, pose, junk) && p <= |t.log|
    ensures |t.poses| == BUFFERED_SAMPLES && Intact(t, p)
  {
    if Begun(t) < p + BUFFERED_SAMPLES && p <= |s.log| {
      assert Intact(s, p);
      if p != s.index + 1 {
        DistinctSlots(p, s.index + 1);
      }
    }
  }

  lemma WriterReading<T>(s: State<T>, t: State<T>, pose: T, junk: T)
    requires Inv(s) && WriterStep(s, t, pose, junk)
    ensures Reading(t)
  {
    if s.reader.RCallback? && s.index + 1 < s.cursor + BUFFERED_SAMPLES {
      DistinctSlots(s.cursor, s.index + 1);
    }
  }

  lemma FaithfulGrows<T>(s: State<T>, t: State<T>, d: Delivery<T>)
    requires Faithful(s, d) && t.first == s.first && s.log <= t.log
    ensures Faithful(t, d)
  {
  }

  lemma WriterKeeps<T>(s: State<T>, t: State<T>, pose: T, junk: T)
    requires Inv(s) && WriterStep(s, t, pose, junk)
    ensures Inv(t)
  {
    WriterReading(s, t, pose, junk);
    forall p | 0 <= p <= |t.log| ensures Intact(t, p) {
      WriterIntact(s, t, pose, junk, p);
    }
    forall k | 0 <= k < |t.delivered| ensures Faithful(t, t.delivered[k]) {
      FaithfulGrows(s, t, s.delivered[k]);
    }
  }

  lemma ReaderKeeps<T>(s: State<T>, t: State<T>, seen: T)
    requires Inv(s) && ReaderStep(s, t, seen)
    ensures Inv(t)
  {
    forall p | 0 <= p <= |t.log| ensures Intact(t, p) {
      assert Intact(s, p);
    }
    forall k | 0 <= k < |t.delivered| ensures Faithful(t, t.delivered[k]) {
      if k < |s.delivered| {
        FaithfulGrows(s, t, s.delivered[k]);
      } else {
        assert Intact(s, s.cursor);
      }
    }
  }

  lemma {:induction false} RunInv<T>(states: seq<State<T>>, steps: seq<Step<T>>, i: nat)
    requires Run(states, steps) && i < |states|
    ensures Inv(states[i])
  {
    if i == 0 {
      assert Intact(states[0], 0);
    } else {
      RunInv(states, steps, i - 1);
      var s, t := states[i - 1], states[i - 1 + 1];
      assert Next(s, t, steps[i - 1]);
      match steps[i - 1]
      case WriterMoves(pose, junk) => WriterKeeps(s, t, pose, junk);
      case ReaderMoves(seen) => ReaderKeeps(s, t, seen);
    }
  }

  // ----- what the drains deliver -----------------------------------------------

  /** While no drain finds a lag of more than half the ring, the deliveries of all drains
      together are the positions 0, 1, 2, ... in order, without gap or repeat, up to the
      cursor. */
  lemma InOrder<T>(states: seq<State<T>>, steps: seq<Step<T>>, i: nat)
    requires Run(states, steps) && i < |states|
    requires forall k :: 0 <= k < i && steps[k].ReaderMoves? && states[k].reader.RIdle? ==>
                           states[k].index <= states[k].cursor + HALF
    ensures var s := states[i];
      && |s.delivered| == s.cursor <= s.index
      && (forall k :: 0 <= k < s.cursor ==> s.delivered[k].position == k)
  {
    NotResynced(states, steps, i);
    RunInv(states, steps, i);
  }

  lemma {:induction false} NotResynced<T>(states: seq<State<T>>, steps: seq<Step<T>>, i: nat)
    requires Run(states, steps) && i < |states|
    requires forall k :: 0 <= k < i && steps[k].ReaderMoves? && states[k].reader.RIdle? ==>
                           states[k].index <= states[k].cursor + HALF
    ensures !states[i].resynced
  {
    if i > 0 {
      NotResynced(states, steps, i - 1);
      RunInv(states, steps, i - 1);
      assert Next(states[i - 1], states[i - 1 + 1], steps[i - 1]);
    }
  }

  /** A drain that starts loads the current index; with a lag of more than half the ring it
      resumes exactly half a ring back. */
  lemma DrainStarts<T>(states: seq<State<T>>, steps: seq<Step<T>>, i: nat)
    requires Run(states, steps) && i < |steps| && steps[i].ReaderMoves? && states[i].reader.RIdle?
    ensures var s, t := states[i], states[i + 1];
      && t.reader == RDrain(s.index) && t.delivered == s.delivered
      && t.cursor == if s.index > s.cursor + HALF then s.index - HALF else s.cursor
  {
    RunInv(states, steps, i);
    assert Next(states[i], states[i + 1], steps[i]);
  }

  /** A drain that ends has advanced the cursor exactly to the index it loaded. */
  lemma DrainEnds<T>(states: seq<State<T>>, steps: seq<Step<T>>, i: nat)
    requires Run(states, steps) && i < |steps| && steps[i].ReaderMoves?
    requires states[i].reader.RDrain? && states[i + 1].reader.RIdle?
    ensures states[i + 1].cursor == states[i].reader.loaded <= states[i].index
    ensures states[i + 1].delivered == states[i].delivered
  {
    RunInv(states, steps, i);
    assert Next(states[i], states[i + 1], steps[i]);
  }

  /** Every position p >= 1 delivered carries the p-th pose written and position 0 the initial
      contents, however long the callback took, provided fewer than half a ring minus one poses
      were written between the load of the index and the return of the callback. */
  lemma DeliveredIntact<T>(states: seq<State<T>>, steps: seq<Step<T>>, i: nat, k: nat)
    requires Run(states, steps) && i < |states| && k < |states[i].delivered|
    requires var d := states[i].delivered[k]; d.index - d.loaded < HALF - 1
    ensures var s, d := states[i], states[i].delivered[k];
      && d.position < d.loaded <= |s.log|
      && d.pose == if d.position == 0 then s.first else s.log[d.position - 1]
  {
    RunInv(states, steps, i);
    assert Faithful(states[i], states[i].delivered[k]);
  }

  /** The newest pose is never delivered: a drain stops before the index it loaded. */
  lemma NewestIsNeverDelivered<T>(states: seq<State<T>>, steps: seq<Step<T>>, i: nat, k: nat)
    requires Run(states, steps) && i < |states| && k < |states[i].delivered|
    ensures states[i].delivered[k].position < states[i].delivered[k].loaded <= states[i].delivered[k].index
  {
    RunInv(states, steps, i);
    assert Faithful(states[i], states[i].delivered[k]);
  }

  // ----- the bound is tight ------------------------------------------------------

  /** A run of a ring of integers whose last state is s. */
  ghost predicate Reaches(states: seq<State<int>>, steps: seq<Step<int>>, s: State<int>) {
    Run(states, steps) && states[|steps|] == s
  }

  lemma Extend(states: seq<State<int>>, steps: seq<Step<int>>, s: State<int>, t: State<int>, step: Step<int>)
    requires Reaches(states, steps, s) && Next(s, t, step)
    ensures Reaches(states + [t], steps + [step], t)
  {
    var all, moves := states + [t], steps + [step];
    forall i | 0 <= i < |moves| ensures Next(all[i], all[i + 1], moves[i]) {
      if i < |steps| {
        assert Next(states[i], states[i + 1], steps[i]);
      }
    }
  }

  /** k zero poses are written while the reader does nothing. */
  lemma {:induction false} WriteZeros(states: seq<State<int>>, steps: seq<Step<int>>, s: State<int>, k: nat)
    returns (states': seq<State<int>>, steps': seq<Step<int>>, t: State<int>)
    requires Reaches(states, steps, s) && s.writer.WIdle? && |s.poses| == BUFFERED_SAMPLES && !s.reader.RCallback?
    ensures Reaches(states', steps', t) && t.writer.WIdle? && |t.poses| == BUFFERED_SAMPLES
    ensures t == s.(index := s.index + k, poses := t.poses, log := t.log)
  {
    states', steps', t := states, steps, s;
    if k > 0 {
      states', steps', t := WriteZeros(states, steps, s, k - 1);
      var slot, step := (t.index + 1) % BUFFERED_SAMPLES, WriterMoves(0, 0);
      var a := t.(poses := t.poses[slot := 0], writer := WTorn(0));
      Extend(states', steps', t, a, step);
      var b := a.(poses := a.poses[slot := 0], log := a.log + [0], writer := WStored);
      Extend(states' + [a], steps' + [step], a, b, step);
      var c := b.(index := b.index + 1, writer := WIdle);
      Extend(states' + [a] + [b], steps' + [step] + [step], b, c, step);
      states', steps', t := states' + [a] + [b] + [c], steps' + [step] + [step] + [step], c;
    }
  }

  /** With exactly half a ring minus one poses written since the load, a drain can hand out a
      torn pose: every pose and the initial contents are 0, the pose delivered is 1. */
  lemma BoundIsTight() returns (states: seq<State<int>>, steps: seq<Step<int>>)
    ensures Run(states, steps)
    ensures var s := states[|steps|];
      && |s.delivered| == 1 && s.delivered[0].index - s.delivered[0].loaded == HALF - 1
      && s.delivered[0].position == 0 && s.first == 0 && s.delivered[0].pose == 1
  {
    var s := State(0, seq(BUFFERED_SAMPLES, _ => 0), 0, [], WIdle, 0, RIdle, [], false);
    states, steps := [s], [];
    states, steps, s := WriteZeros(states, steps, s, HALF);
    var t, read := s.(reader := RDrain(HALF)), ReaderMoves(0);
    Extend(states, steps, s, t, read);
    states, steps, s := WriteZeros(states + [t], steps + [read], t, HALF - 1);
    var step := WriterMoves(0, 1);
    t := s.(poses := s.poses[0 := 1], writer := WTorn(0));
    Extend(states, steps, s, t, step);
    states, steps := states + [t], steps + [step];
    s := t.(reader := RCallback(HALF, false));
    Extend(states, steps, t, s, read);
    states, steps := states + [s], steps + [read];
    t := s.(cursor := 1, delivered := [Delivery(0, 1, HALF, s.index)], reader := RDrain(HALF));
    Extend(states, steps, s, t, read);
    states, steps := states + [t], steps + [read];
  }
}
