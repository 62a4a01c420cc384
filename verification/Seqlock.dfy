/** The seqlocks of Protocol.h as a transition system: one writer, any number of readers,
    every load and store of a word a step of its own, in any interleaving.

    A slot is a generation and a body of words.  A write makes the generation odd,
    copies the words in any order, makes it even again and finally advances the publish
    index.  A read copies the words between two loads of the generation.  With ring set,
    write n goes to slot (n - 1) modulo the number of slots; otherwise to any slot. */
module Seqlock {

  import opened Bits

  datatype Slot<T> = Slot(gen: nat, body: seq<T>)

  /** A completed write: the body and the slot it went to. */
  datatype Write<T> = Write(slot: nat, body: seq<T>)

  datatype Writer<T> =
    | WIdle
    /** The generation was loaded and is about to be made odd. */
    | WReady(slot: nat, prev: nat, body: seq<T>)
    /** The words in done have been stored. */
    | WCopy(slot: nat, prev: nat, body: seq<T>, done: set<nat>)
    /** The generation is even again, the index not yet advanced. */
    | WWritten

  /** What a reader asked for. */
  datatype Query = Any(slot: nat) | Latest | ByIndex(target: nat)

  datatype Reader<T> =
    | RIdle
    /** About to load the generation of the slot; seen was the publish index when the
        read began. */
    | RSlot(query: Query, slot: nat, seen: nat, attempts: nat)
    /** gen was loaded after count completed writes; the words in have were copied. */
    | RCopy(query: Query, slot: nat, seen: nat, attempts: nat, gen: nat, count: nat, buf: seq<T>, have: set<nat>)
    /** The second load agreed; index was the publish index then, writes the number of
        completed writes. */
    | RDone(query: Query, slot: nat, seen: nat, count: nat, buf: seq<T>, index: nat, writes: nat)
    | RFailed

  datatype State<T> = State(
    ring: bool,
    words: nat,
    start: seq<Slot<T>>,
    slots: seq<Slot<T>>,
    index: nat,
    log: seq<Write<T>>,
    writer: Writer<T>,
    readers: seq<Reader<T>>)

  // ----- what the slots hold -------------------------------------------------

  /** How many of the first m writes went to slot j. */
  function Count<T>(log: seq<Write<T>>, j: nat, m: nat): nat
    requires m <= |log|
  {
    if m == 0 then 0 else Count(log, j, m - 1) + if log[m - 1].slot == j then 1 else 0
  }

  /** The number of the last of the first m writes that went to slot j, or 0. */
  function LastAt<T>(log: seq<Write<T>>, j: nat, m: nat): (n: nat)
    requires m <= |log|
    ensures n <= m && (n > 0 ==> log[n - 1].slot == j)
  {
    if m == 0 then 0 else if log[m - 1].slot == j then m else LastAt(log, j, m - 1)
  }

  /** The whole body that slot j holds after m writes. */
  function Content<T>(start: seq<Slot<T>>, log: seq<Write<T>>, j: nat, m: nat): seq<T>
    requires m <= |log| && j < |start|
  {
    var n := LastAt(log, j, m);
    if n == 0 then start[j].body else log[n - 1].body
  }

  // ----- steps ---------------------------------------------------------------

  ghost predicate Init<T>(s: State<T>) {
    && s.slots == s.start && |s.slots| >= 1 && s.index == 0 && s.log == [] && s.writer.WIdle?
    && (forall j :: 0 <= j < |s.slots| ==> s.slots[j].gen % 2 == 0 && |s.slots[j].body| == s.words)
    && (forall r :: 0 <= r < |s.readers| ==> s.readers[r].RIdle?)
  }

  ghost predicate IsBody<T>(s: State<T>, body: seq<T>) {
    |body| == s.words
  }

  /** Which slot the next write goes to. */
  ghost predicate MayWrite<T>(s: State<T>, j: nat) {
    j < |s.slots| && (s.ring ==> j == |s.log| % |s.slots|)
  }

  ghost predicate WriterStep<T>(s: State<T>, t: State<T>, j: nat, w: nat, body: seq<T>)
    requires |s.slots| >= 1
  {
    match s.writer
    case WIdle =>
      MayWrite(s, j) && IsBody(s, body) && t == s.(writer := WReady(j, s.slots[j].gen, body))
    case WReady(k, prev, b) =>
      k < |s.slots| &&
      t == s.(slots := s.slots[k := s.slots[k].(gen := prev + 1)], writer := WCopy(k, prev, b, {}))
    case WCopy(k, prev, b, done) =>
      && k < |s.slots| && |s.slots[k].body| == |b|
      && if w < |b| then
           w !in done
           && t == s.(slots := s.slots[k := s.slots[k].(body := s.slots[k].body[w := b[w]])],
                      writer := WCopy(k, prev, b, done + {w}))
         else
           (forall i :: 0 <= i < |b| ==> i in done)
           && t == s.(slots := s.slots[k := s.slots[k].(gen := prev + 2)], log := s.log + [Write(k, b)],
                      writer := WWritten)
    case WWritten => t == s.(index := s.index + 1, writer := WIdle)
  }

  /** The slot a query reads, given the publish index it loaded; the queries fail when the
      index rules them out. */
  function SlotOf<T>(s: State<T>, query: Query): (j: nat)
    requires |s.slots| >= 1
    ensures j < |s.slots|
  {
    match query
    case Any(j) => if j < |s.slots| then j else 0
    case Latest => if s.index == 0 then 0 else (s.index - 1) % |s.slots|
    case ByIndex(target) => if target == 0 then 0 else (target - 1) % |s.slots|
  }

  ghost predicate Refused<T>(s: State<T>, query: Query) {
    match query
    case Any(j) => j >= |s.slots|
    case Latest => s.index == 0
    case ByIndex(target) => target == 0 || target > s.index || s.index - target >= |s.slots|
  }

  /** What a reader is free to choose: the query and the retry budget of a new read, what its
      buffer held before, the word to copy next. */
  datatype Choice<T> = Choice(query: Query, retries: nat, out: seq<T>, word: nat)

  /** What a reader does next, in terms of the shared state. */
  ghost predicate ReaderStep<T>(s: State<T>, r: Reader<T>, r': Reader<T>, a: Choice<T>)
    requires |s.slots| >= 1
  {
    match r
    case RIdle =>
      r' == if Refused(s, a.query) then RFailed else RSlot(a.query, SlotOf(s, a.query), s.index, a.retries)
    case RSlot(q, j, seen, attempts) =>
      && j < |s.slots| && IsBody(s, a.out)
      && r' == if attempts == 0 then RFailed
               else if s.slots[j].gen % 2 == 1 then RSlot(q, j, seen, attempts - 1)
               else RCopy(q, j, seen, attempts - 1, s.slots[j].gen, |s.log|, a.out, {})
    case RCopy(q, j, seen, attempts, gen, count, buf, have) =>
      && j < |s.slots| && |buf| == |s.slots[j].body|
      && if a.word < |buf| then
           && a.word !in have
           && r' == RCopy(q, j, seen, attempts, gen, count, buf[a.word := s.slots[j].body[a.word]], have + {a.word})
         else
           && (forall i :: 0 <= i < |buf| ==> i in have)
           && r' == if s.slots[j].gen == gen then RDone(q, j, seen, count, buf, s.index, |s.log|)
                    else RSlot(q, j, seen, attempts)
    case RDone(_, _, _, _, _, _, _) => r' == RIdle
    case RFailed => r' == RIdle
  }

  datatype Step<T> =
    | WriterMoves(j: nat, w: nat, body: seq<T>)
    | ReaderMoves(r: nat, reader: Reader<T>, choice: Choice<T>)

  ghost predicate Next<T>(s: State<T>, t: State<T>, step: Step<T>) {
    && |s.slots| >= 1
    && match step
       case WriterMoves(j, w, body) => WriterStep(s, t, j, w, body)
       case ReaderMoves(r, reader, choice) =>
         && r < |s.readers| && ReaderStep(s, s.readers[r], reader, choice)
         && t == s.(readers := s.readers[r := reader])
  }

  /** A run: states and the steps between them. */
  ghost predicate Run<T>(states: seq<State<T>>, steps: seq<Step<T>>) {
    && |states| == |steps| + 1 && Init(states[0])
    && forall i :: 0 <= i < |steps| ==> Next(states[i], states[i + 1], steps[i])
  }

  // ----- invariant -----------------------------------------------------------

  /** Slot j between writes holds the last body written to it; its generation counts the
      writes. */
  ghost predicate SlotInv<T>(s: State<T>, j: nat)
    requires j < |s.slots| == |s.start|
  {
    && |s.slots[j].body| == s.words
    && var count := s.start[j].gen + 2 * Count(s.log, j, |s.log|);
       if s.writer.WCopy? && s.writer.slot == j then
         && s.slots[j].gen == count + 1 && IsBody(s, s.writer.body)
         && forall i :: i in s.writer.done && i < s.words ==> s.slots[j].body[i] == s.writer.body[i]
       else s.slots[j].gen == count && s.slots[j].body == Content(s.start, s.log, j, |s.log|)
  }

  ghost predicate WriterInv<T>(s: State<T>) {
    match s.writer
    case WIdle => s.index == |s.log|
    case WReady(j, prev, body) =>
      MayWrite(s, j) && IsBody(s, body) && prev == s.slots[j].gen && s.index == |s.log|
    case WCopy(j, prev, body, done) =>
      MayWrite(s, j) && IsBody(s, body) && s.slots[j].gen == prev + 1 && s.index == |s.log|
    case WWritten => s.index + 1 == |s.log|
  }

  ghost predicate Shape<T>(s: State<T>) {
    && 1 <= |s.slots| == |s.start|
    && (forall j :: 0 <= j < |s.start| ==> s.start[j].gen % 2 == 0 && |s.start[j].body| == s.words)
    && (forall n :: 0 <= n < |s.log| ==> s.log[n].slot < |s.slots| && |s.log[n].body| == s.words)
    && (s.ring ==> forall n :: 0 <= n < |s.log| ==> s.log[n].slot == n % |s.slots|)
  }

  /** What a reader knows.  While the generation it saw is still current, every word it has
      copied is a word of the body the slot held then. */
  ghost predicate ReaderInv<T>(s: State<T>, r: Reader<T>)
    requires Shape(s)
  {
    match r
    case RIdle => true
    case RFailed => true
    case RSlot(q, j, seen, _) => j < |s.slots| && seen <= s.index && Asked(s, q, j, seen)
    case RCopy(q, j, seen, _, gen, count, buf, have) =>
      && j < |s.slots| && seen <= count <= |s.log| && seen <= s.index && Asked(s, q, j, seen)
      && |buf| == s.words && gen == s.start[j].gen + 2 * Count(s.log, j, count)
      && (s.slots[j].gen == gen ==>
            forall i :: i in have && i < |buf| ==> buf[i] == Content(s.start, s.log, j, count)[i])
    case RDone(q, j, seen, count, buf, index, writes) =>
      && j < |s.slots| && seen <= count <= writes <= |s.log| && Asked(s, q, j, seen)
      && buf == Content(s.start, s.log, j, count)
      && index <= writes <= index + 1
      && Count(s.log, j, count) == Count(s.log, j, writes)
  }

  /** The slot and the index agree with the query. */
  ghost predicate Asked<T>(s: State<T>, q: Query, j: nat, seen: nat)
    requires |s.slots| >= 1
  {
    match q
    case Any(k) => j == k
    case Latest => seen >= 1 && j == (seen - 1) % |s.slots|
    case ByIndex(target) => 1 <= target <= seen < target + |s.slots| && j == (target - 1) % |s.slots|
  }

  ghost predicate Inv<T>(s: State<T>) {
    && Shape(s) && WriterInv(s)
    && (forall j :: 0 <= j < |s.slots| ==> SlotInv(s, j))
    && (forall r :: 0 <= r < |s.readers| ==> ReaderInv(s, s.readers[r]))
  }

  // ----- histories only grow ---------------------------------------------------

  lemma {:induction false} CountGrows<T>(log: seq<Write<T>>, w: Write<T>, j: nat, m: nat)
    requires m <= |log|
    ensures Count(log + [w], j, m) == Count(log, j, m)
  {
    if m > 0 {
      CountGrows(log, w, j, m - 1);
    }
  }

  lemma {:induction false} LastAtGrows<T>(log: seq<Write<T>>, w: Write<T>, j: nat, m: nat)
    requires m <= |log|
    ensures LastAt(log + [w], j, m) == LastAt(log, j, m)
  {
    if m > 0 {
      LastAtGrows(log, w, j, m - 1);
    }
  }

  /** Equal counts mean that nothing was written to the slot in between. */
  lemma {:induction false} SameCount<T>(log: seq<Write<T>>, j: nat, m: nat, n: nat)
    requires m <= n <= |log|
    ensures Count(log, j, m) <= Count(log, j, n)
    ensures Count(log, j, m) == Count(log, j, n) <==> LastAt(log, j, m) == LastAt(log, j, n)
    decreases n
  {
    if m < n {
      SameCount(log, j, m, n - 1);
      if log[n - 1].slot == j {
        assert LastAt(log, j, n) == n > m >= LastAt(log, j, m);
      }
    }
  }

  /** The last write is at least as late as any other write to the slot. */
  lemma {:induction false} LastIsLatest<T>(log: seq<Write<T>>, j: nat, m: nat, n: nat)
    requires 1 <= n <= m <= |log| && log[n - 1].slot == j
    ensures n <= LastAt(log, j, m)
  {
    if log[m - 1].slot != j {
      LastIsLatest(log, j, m - 1, n);
    }
  }

  // ----- every step keeps the invariant ----------------------------------------

  /** What a writer step may change, as far as readers are concerned. */
  ghost predicate Advances<T>(s: State<T>, t: State<T>) {
    && t.ring == s.ring && t.words == s.words && t.start == s.start && |t.slots| == |s.slots|
    && s.index <= t.index && t.readers == s.readers
    && (t.log == s.log || (|t.log| == |s.log| + 1 && t.log == s.log + [t.log[|s.log|]]))
  }

  lemma PrefixKept<T>(s: State<T>, t: State<T>, j: nat, m: nat)
    requires Advances(s, t) && m <= |s.log| && j < |s.start|
    ensures m <= |t.log|
    ensures Count(t.log, j, m) == Count(s.log, j, m)
    ensures LastAt(t.log, j, m) == LastAt(s.log, j, m)
    ensures Content(t.start, t.log, j, m) == Content(s.start, s.log, j, m)
  {
    if t.log != s.log {
      var w := t.log[|s.log|];
      CountGrows(s.log, w, j, m);
      LastAtGrows(s.log, w, j, m);
    }
  }

  /** A reader is unaffected as long as the generation it saw does not come back. */
  lemma ReaderStays<T>(s: State<T>, t: State<T>, r: Reader<T>)
    requires Shape(s) && Shape(t) && Advances(s, t) && ReaderInv(s, r)
    requires r.RCopy? && t.slots[r.slot].gen == r.gen ==> s.slots[r.slot].gen == r.gen
    ensures ReaderInv(t, r)
  {
    if r.RCopy? || r.RDone? {
      PrefixKept(s, t, r.slot, r.count);
      if r.RDone? {
        PrefixKept(s, t, r.slot, r.writes);
      }
    }
  }

  /** Generations only grow, and a slot being written has an odd one. */
  lemma GenNeverReturns<T>(s: State<T>, t: State<T>, r: Reader<T>, step: Step<T>)
    requires Inv(s) && step.WriterMoves? && Next(s, t, step) && Shape(t) && Advances(s, t)
    requires ReaderInv(s, r) && r.RCopy? && t.slots[r.slot].gen == r.gen
    ensures s.slots[r.slot].gen == r.gen
  {
    var j := r.slot;
    assert SlotInv(s, j);
    SameCount(s.log, j, r.count, |s.log|);
  }

  /** The write that ends leaves the whole new body in its slot. */
  lemma WriteEnds<T>(s: State<T>, t: State<T>, step: Step<T>)
    requires Inv(s) && step.WriterMoves? && Next(s, t, step) && Shape(t) && Advances(s, t)
    requires s.writer.WCopy? && t.writer.WWritten?
    ensures SlotInv(t, s.writer.slot)
  {
    var j := s.writer.slot;
    assert SlotInv(s, j);
    PrefixKept(s, t, j, |s.log|);
    assert t.slots[j].body == s.writer.body;
  }

  /** Between writes and while a write goes on, the log stands still. */
  lemma WriteGoesOn<T>(s: State<T>, t: State<T>, step: Step<T>, j: nat)
    requires Inv(s) && step.WriterMoves? && Next(s, t, step) && Shape(t) && Advances(s, t)
    requires j < |s.slots| && !t.writer.WWritten?
    ensures SlotInv(t, j)
  {
    assert SlotInv(s, j);
    assert t.log == s.log;
  }

  lemma SlotsKept<T>(s: State<T>, t: State<T>, step: Step<T>, j: nat)
    requires Inv(s) && step.WriterMoves? && Next(s, t, step) && Shape(t) && Advances(s, t)
    requires j < |s.slots|
    ensures SlotInv(t, j)
  {
    if !t.writer.WWritten? {
      WriteGoesOn(s, t, step, j);
    } else if s.writer.slot == j {
      WriteEnds(s, t, step);
    } else {
      assert SlotInv(s, j);
      PrefixKept(s, t, j, |s.log|);
    }
  }

  lemma WriterKeeps<T>(s: State<T>, t: State<T>, step: Step<T>)
    requires Inv(s) && step.WriterMoves? && Next(s, t, step)
    ensures Inv(t)
  {
    WriterShape(s, t, step);
    forall j | 0 <= j < |t.slots| ensures SlotInv(t, j) {
      SlotsKept(s, t, step, j);
    }
    forall r | 0 <= r < |t.readers| ensures ReaderInv(t, t.readers[r]) {
      assert ReaderInv(s, s.readers[r]);
      if t.readers[r].RCopy? && t.slots[t.readers[r].slot].gen == t.readers[r].gen {
        GenNeverReturns(s, t, t.readers[r], step);
      }
      ReaderStays(s, t, t.readers[r]);
    }
  }

  lemma WriterShape<T>(s: State<T>, t: State<T>, step: Step<T>)
    requires Inv(s) && step.WriterMoves? && Next(s, t, step)
    ensures Shape(t) && Advances(s, t) && WriterInv(t)
  {
    if s.writer.WCopy? {
      assert SlotInv(s, s.writer.slot);
    }
  }

  /** A reader that holds the generation of its slot has copied from the slot's whole body. */
  lemma SameGeneration<T>(s: State<T>, r: Reader<T>)
    requires Inv(s) && ReaderInv(s, r) && r.RCopy? && s.slots[r.slot].gen == r.gen
    ensures s.slots[r.slot].body == Content(s.start, s.log, r.slot, r.count)
    ensures Count(s.log, r.slot, r.count) == Count(s.log, r.slot, |s.log|)
  {
    assert SlotInv(s, r.slot);
    SameCount(s.log, r.slot, r.count, |s.log|);
  }

  lemma CopyKnows<T>(s: State<T>, r: Reader<T>, r': Reader<T>, a: Choice<T>)
    requires Shape(s) && s.index <= |s.log| <= s.index + 1
    requires ReaderInv(s, r) && r.RCopy? && a.word < |r.buf| && ReaderStep(s, r, r', a)
    requires s.slots[r.slot].gen == r.gen ==> s.slots[r.slot].body == Content(s.start, s.log, r.slot, r.count)
    ensures ReaderInv(s, r')
  {
  }

  lemma CheckKnows<T>(s: State<T>, r: Reader<T>, r': Reader<T>, a: Choice<T>)
    requires Shape(s) && s.index <= |s.log| <= s.index + 1
    requires ReaderInv(s, r) && r.RCopy? && a.word >= |r.buf| && ReaderStep(s, r, r', a)
    requires s.slots[r.slot].gen == r.gen ==> Count(s.log, r.slot, r.count) == Count(s.log, r.slot, |s.log|)
    requires r.seen <= s.index
    ensures ReaderInv(s, r')
  {
    if s.slots[r.slot].gen == r.gen {
      assert r.buf == Content(s.start, s.log, r.slot, r.count);
    }
  }

  lemma CopyingKnows<T>(s: State<T>, r: Reader<T>, r': Reader<T>, a: Choice<T>)
    requires Inv(s) && ReaderInv(s, r) && r.RCopy? && ReaderStep(s, r, r', a)
    ensures ReaderInv(s, r')
  {
    if s.slots[r.slot].gen == r.gen {
      SameGeneration(s, r);
    }
    if a.word < |r.buf| {
      CopyKnows(s, r, r', a);
    } else {
      CheckKnows(s, r, r', a);
    }
  }

  lemma StartKnows<T>(s: State<T>, r: Reader<T>, r': Reader<T>, a: Choice<T>)
    requires Inv(s) && ReaderInv(s, r) && r.RSlot? && ReaderStep(s, r, r', a)
    ensures ReaderInv(s, r')
  {
    assert SlotInv(s, r.slot);
  }

  /** A reader step keeps what that reader knows. */
  lemma ReaderKnows<T>(s: State<T>, r: Reader<T>, r': Reader<T>, a: Choice<T>)
    requires Inv(s) && ReaderInv(s, r) && ReaderStep(s, r, r', a)
    ensures ReaderInv(s, r')
  {
    if r.RCopy? {
      CopyingKnows(s, r, r', a);
    } else if r.RSlot? {
      StartKnows(s, r, r', a);
    }
  }

  lemma ReaderKeeps<T>(s: State<T>, t: State<T>, step: Step<T>)
    requires Inv(s) && step.ReaderMoves? && Next(s, t, step)
    ensures Inv(t)
  {
    ReaderKnows(s, s.readers[step.r], step.reader, step.choice);
    forall r | 0 <= r < |t.readers| ensures ReaderInv(t, t.readers[r]) {
      assert ReaderInv(s, t.readers[r]);
    }
    forall j | 0 <= j < |t.slots| ensures SlotInv(t, j) {
      assert SlotInv(s, j);
    }
  }

  lemma StepKeeps<T>(s: State<T>, t: State<T>, step: Step<T>)
    requires Inv(s) && Next(s, t, step)
    ensures Inv(t)
  {
    if step.WriterMoves? {
      WriterKeeps(s, t, step);
    } else {
      ReaderKeeps(s, t, step);
    }
  }

  lemma InitInv<T>(s: State<T>)
    requires Init(s)
    ensures Inv(s)
  {
  }

  lemma {:induction false} Inductive<T>(states: seq<State<T>>, i: nat)
    requires i < |states| && Inv(states[0])
    requires forall j {:trigger Inv(states[j])} :: 0 <= j < |states| - 1 && Inv(states[j]) ==> Inv(states[j + 1])
    ensures Inv(states[i])
  {
    if i > 0 {
      Inductive(states, i - 1);
      assert Inv(states[i - 1 + 1]);
    }
  }

  /** The invariant holds in every state of every run. */
  lemma RunInv<T>(states: seq<State<T>>, steps: seq<Step<T>>, i: nat)
    requires Run(states, steps) && i < |states|
    ensures Inv(states[i])
  {
    InitInv(states[0]);
    forall j {:trigger Inv(states[j])} | 0 <= j < |steps| && Inv(states[j]) ensures Inv(states[j + 1]) {
      StepKeeps(states[j], states[j + 1], steps[j]);
    }
    Inductive(states, i);
  }

  // ----- what readers get --------------------------------------------------------

  /** Read d returned the body of write n, the last write to its slot when it was sampled and no
      older than anything published when the read began; n is 0 for the initial body. */
  ghost predicate WholeRead<T>(s: State<T>, d: Reader<T>, n: nat) {
    && d.RDone? && d.slot < |s.start| && d.seen <= d.writes <= |s.log| && n <= d.writes
    && (if n == 0 then d.buf == s.start[d.slot].body else s.log[n - 1] == Write(d.slot, d.buf))
    && (forall m :: 0 <= m < d.seen && s.log[m].slot == d.slot ==> m < n)
    && (forall m :: n <= m < d.writes ==> s.log[m].slot != d.slot)
  }

  lemma ReadIsWholeIn<T>(s: State<T>, d: Reader<T>) returns (n: nat)
    requires Shape(s) && d.RDone? && ReaderInv(s, d)
    ensures WholeRead(s, d, n)
  {
    n := LastAt(s.log, d.slot, d.count);
    SameCount(s.log, d.slot, d.count, d.writes);
    forall m | 0 <= m < d.writes && s.log[m].slot == d.slot ensures m < n {
      LastIsLatest(s.log, d.slot, d.writes, m + 1);
    }
  }

  /** A finished read in a run. */
  ghost predicate Finished<T>(states: seq<State<T>>, steps: seq<Step<T>>, i: nat, r: nat) {
    Run(states, steps) && i < |states| && r < |states[i].readers| && states[i].readers[r].RDone?
  }

  lemma FinishedInv<T>(states: seq<State<T>>, steps: seq<Step<T>>, i: nat, r: nat)
    requires Finished(states, steps, i, r)
    ensures Shape(states[i]) && ReaderInv(states[i], states[i].readers[r])
  {
    RunInv(states, steps, i);
  }

  /** Every successful read, in every run, returns exactly one whole body: that of the last
      write to the slot when the read sampled it, so no older than anything published when
      the read began. */
  lemma ReadIsWhole<T>(states: seq<State<T>>, steps: seq<Step<T>>, i: nat, r: nat) returns (n: nat)
    requires Finished(states, steps, i, r)
    ensures WholeRead(states[i], states[i].readers[r], n)
  {
    FinishedInv(states, steps, i, r);
    n := ReadIsWholeIn(states[i], states[i].readers[r]);
  }

  /** Numbers of the same slot differ by a multiple of the ring size. */
  lemma SameSlot(x: nat, y: nat, size: nat)
    requires size >= 1 && x % size == y % size && x <= y
    ensures (y - x) % size == 0
    ensures x < y ==> x + size <= y
  {
    var a, b := x / size, y / size;
    Distribute(b, a, size);
    assert y - x == (b - a) * size;
    DivModUnique(y - x, size, b - a, 0);
    if b - a >= 1 {
      MulAtLeast(b - a, size);
    }
  }

  lemma NextLap(x: nat, size: nat)
    requires size >= 1
    ensures (x + size) % size == x % size
  {
    var q := x / size;
    Distribute(q + 1, q, size);
    DivModUnique(x + size, size, q + 1, x % size);
  }

  lemma LatestIn<T>(s: State<T>, d: Reader<T>, n: nat)
    requires Shape(s) && ReaderInv(s, d) && WholeRead(s, d, n) && s.ring && d.query == Latest
    ensures 1 <= d.seen <= n && (n - d.seen) % |s.slots| == 0
  {
    assert s.log[d.seen - 1].slot == d.slot;
    SameSlot(d.seen - 1, n - 1, |s.slots|);
  }

  /** Reading the latest frame after seeing publish index i returns a frame n >= i from the
      slot of frame i. */
  lemma LatestIsRecent<T>(states: seq<State<T>>, steps: seq<Step<T>>, i: nat, r: nat) returns (n: nat)
    requires Finished(states, steps, i, r) && states[i].ring && states[i].readers[r].query == Latest
    ensures WholeRead(states[i], states[i].readers[r], n) && |states[i].slots| >= 1
    ensures var seen := states[i].readers[r].seen; 1 <= seen <= n && (n - seen) % |states[i].slots| == 0
  {
    FinishedInv(states, steps, i, r);
    n := ReadIsWholeIn(states[i], states[i].readers[r]);
    LatestIn(states[i], states[i].readers[r], n);
  }

  /** What a read by index returned: frame target or a later frame of its slot; exactly the target
      if and only if fewer than target + size frames had been written at the second generation
      load. */
  ghost predicate ByIndexRead<T>(s: State<T>, d: Reader<T>, n: nat)
    requires d.RDone? && d.query.ByIndex?
  {
    var target, size := d.query.target, |s.slots|;
    && size >= 1 && 1 <= target <= n && (n - target) % size == 0
    && (n == target <==> d.writes < target + size)
    && (d.index + 2 <= target + size ==> n == target)
    && (n == target ==> d.index + 1 <= target + size)
  }

  lemma ByIndexIn<T>(s: State<T>, d: Reader<T>, n: nat)
    requires Shape(s) && ReaderInv(s, d) && WholeRead(s, d, n) && s.ring && d.query.ByIndex?
    ensures ByIndexRead(s, d, n)
  {
    var target, size := d.query.target, |s.slots|;
    assert s.log[target - 1].slot == d.slot;
    SameSlot(target - 1, n - 1, size);
    if d.writes >= target + size {
      NextLap(target - 1, size);
      assert s.log[target + size - 1].slot == d.slot;
    }
  }

  /** Reading by index.  A publish index of at most target + size - 2 at the second generation
      load suffices for getting exactly the target, and one of at most target + size - 1 is
      necessary. */
  lemma ByIndexExact<T>(states: seq<State<T>>, steps: seq<Step<T>>, i: nat, r: nat) returns (n: nat)
    requires Finished(states, steps, i, r) && states[i].ring && states[i].readers[r].query.ByIndex?
    ensures WholeRead(states[i], states[i].readers[r], n) && ByIndexRead(states[i], states[i].readers[r], n)
  {
    FinishedInv(states, steps, i, r);
    n := ReadIsWholeIn(states[i], states[i].readers[r]);
    ByIndexIn(states[i], states[i].readers[r], n);
  }

  // ----- a read by index may return a newer frame ---------------------------------

  const RING_SIZE: nat := 32

  /** A run that can still be extended, of a ring with one-word frames where frame n is [n];
      only its last state matters from here on. */
  ghost predicate Counting(states: seq<State<int>>, steps: seq<Step<int>>, s: State<int>) {
    && Run(states, steps) && states[|steps|] == s
    && s.ring && s.words == 1 && |s.slots| == RING_SIZE && |s.readers| == 1
    && (forall n :: 0 <= n < |s.log| ==> s.log[n].body == [n + 1])
  }

  lemma Extend(states: seq<State<int>>, steps: seq<Step<int>>, t: State<int>, step: Step<int>)
    requires Run(states, steps) && Next(states[|steps|], t, step)
    ensures Run(states + [t], steps + [step])
  {
    var all, moves := states + [t], steps + [step];
    forall i | 0 <= i < |moves| ensures Next(all[i], all[i + 1], moves[i]) {
      if i < |steps| {
        assert Next(states[i], states[i + 1], steps[i]);
      }
    }
  }

  /** The writer publishes one whole frame without interference. */
  lemma PublishOne(states: seq<State<int>>, steps: seq<Step<int>>, s: State<int>)
    returns (states': seq<State<int>>, steps': seq<Step<int>>, t: State<int>)
    requires Counting(states, steps, s) && s.writer.WIdle?
    ensures Counting(states', steps', t) && t.writer.WIdle?
    ensures |t.log| == |s.log| + 1 && t.readers == s.readers
  {
    RunInv(states, steps, |steps|);
    var j, body := |s.log| % RING_SIZE, [|s.log| + 1];
    assert SlotInv(s, j);
    var slot := s.slots[j];
    var start, word, done := WriterMoves(j, 0, body), WriterMoves(j, 0, body), WriterMoves(j, 1, body);
    var a := s.(writer := WReady(j, slot.gen, body));
    Extend(states, steps, a, start);
    var b := a.(slots := a.slots[j := Slot(slot.gen + 1, slot.body)], writer := WCopy(j, slot.gen, body, {}));
    Extend(states + [a], steps + [start], b, start);
    var c := b.(slots := b.slots[j := Slot(slot.gen + 1, slot.body[0 := body[0]])],
                writer := WCopy(j, slot.gen, body, {} + {0}));
    Extend(states + [a] + [b], steps + [start] + [start], c, word);
    var d := c.(slots := c.slots[j := Slot(slot.gen + 2, c.slots[j].body)], log := s.log + [Write(j, body)],
                writer := WWritten);
    Extend(states + [a] + [b] + [c], steps + [start] + [start] + [word], d, done);
    t := d.(index := s.index + 1, writer := WIdle);
    Extend(states + [a] + [b] + [c] + [d], steps + [start] + [start] + [word] + [done], t, start);
    states' := states + [a] + [b] + [c] + [d] + [t];
    steps' := steps + [start] + [start] + [word] + [done] + [start];
  }

  lemma PublishMany(states: seq<State<int>>, steps: seq<Step<int>>, s: State<int>, k: nat)
    returns (states': seq<State<int>>, steps': seq<Step<int>>, t: State<int>)
    requires Counting(states, steps, s) && s.writer.WIdle?
    ensures Counting(states', steps', t) && t.writer.WIdle?
    ensures |t.log| == |s.log| + k && t.readers == s.readers
  {
    if k == 0 {
      states', steps', t := states, steps, s;
    } else {
      states', steps', t := PublishMany(states, steps, s, k - 1);
      states', steps', t := PublishOne(states', steps', t);
    }
  }

  lemma ReaderMove(states: seq<State<int>>, steps: seq<Step<int>>, s: State<int>, r: Reader<int>, a: Choice<int>)
    returns (states': seq<State<int>>, steps': seq<Step<int>>, t: State<int>)
    requires Counting(states, steps, s) && ReaderStep(s, s.readers[0], r, a)
    ensures Counting(states', steps', t) && t == s.(readers := s.readers[0 := r])
  {
    var step := ReaderMoves(0, r, a);
    t := s.(readers := s.readers[0 := r]);
    Extend(states, steps, t, step);
    states', steps' := states + [t], steps + [step];
  }

  /** The index check is made once, before the slot is read.  A reader that asks for frame 1
      while it is the latest and then waits for 32 more frames gets frame 33: the read succeeds
      although frame 1 was overwritten. */
  lemma OverwrittenFrameIsReturned() returns (states: seq<State<int>>, steps: seq<Step<int>>)
    ensures Run(states, steps)
    ensures var s := states[|steps|];
      && s.ring && |s.slots| == RING_SIZE && |s.readers| == 1 && |s.log| == 33
      && s.readers[0].RDone? && s.readers[0].query == ByIndex(1)
      && s.readers[0].buf == s.log[32].body == [33] && s.log[0].body == [1]
  {
    var slots := seq(RING_SIZE, _ => Slot(0, [0]));
    var s := State(true, 1, slots, slots, 0, [], WIdle, [RIdle]);
    states, steps := [s], [];
    states, steps, s := PublishOne(states, steps, s);
    RunInv(states, steps, |steps|);
    var a := Choice(ByIndex(1), 8, [0], 0);
    states, steps, s := ReaderMove(states, steps, s, RSlot(ByIndex(1), 0, 1, 8), a);
    states, steps, s := PublishMany(states, steps, s, 32);
    RunInv(states, steps, |steps|);
    assert SlotInv(s, 0);
    var gen := s.slots[0].gen;
    states, steps, s := ReaderMove(states, steps, s, RCopy(ByIndex(1), 0, 1, 7, gen, 33, [0], {}), a);
    var buf := [0][0 := s.slots[0].body[0]];
    states, steps, s := ReaderMove(states, steps, s, RCopy(ByIndex(1), 0, 1, 7, gen, 33, buf, {} + {0}), a);
    states, steps, s := ReaderMove(states, steps, s, RDone(ByIndex(1), 0, 1, 33, buf, 33, 33), a.(word := 1));
    var n := ByIndexExact(states, steps, |steps|, 0);
  }
}
