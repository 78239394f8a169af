/**
 The producer and consumer of threads/example03.c: a ring of 10 integers, one
 mutex and two condition variables.  Each thread holds the mutex from lock to
 unlock or to its wait, so those stretches are the atomic steps.
 */
module BoundedBuffer {
  import opened Ring

  const BUFFSIZE := 10

  /** `Ready` is before the lock; `Woken` has left the wait and has to test again. */
  datatype Thread = Ready | Sleeping | Woken | Done

  datatype State = Shared(
    buf: seq<int>,
    nitems: int,
    nextget: nat,
    nextput: nat,
    producer: Thread,
    consumer: Thread,
    produced: nat,          // the producer's loop counter
    consumed: seq<int>)     // the values the consumer's calls have returned

  datatype Step = Produce | Consume | WakeProducer | WakeConsumer

  predicate Enabled(s: State, step: Step) {
    match step
    case Produce => s.producer.Ready? || s.producer.Woken?
    case Consume => s.consumer.Ready? || s.consumer.Woken?
    case WakeProducer => s.producer.Sleeping?   // spurious wake-ups
    case WakeConsumer => s.consumer.Sleeping?
  }

  predicate InRange(s: State) {
    |s.buf| == BUFFSIZE && s.nextget < BUFFSIZE && s.nextput < BUFFSIZE
  }

  function Signalled(t: Thread): Thread {
    if t.Sleeping? then Woken else t
  }

  /** The thread after its call number `n` of `loops` has returned. */
  function Returned(n: nat, loops: nat): Thread {
    if n < loops then Ready else Done
  }

  function Next(s: State, step: Step, loops: nat): State
    requires InRange(s) && Enabled(s, step)
  {
    match step
    case Produce =>
      if s.nitems >= BUFFSIZE then s.(producer := Sleeping)
      else s.(buf := s.buf[s.nextput := s.produced],
              nextput := Succ(BUFFSIZE, s.nextput),
              nitems := s.nitems + 1,
              produced := s.produced + 1,
              producer := Returned(s.produced + 1, loops),
              consumer := Signalled(s.consumer))
    case Consume =>
      if s.nitems <= 0 then s.(consumer := Sleeping)
      else s.(nextget := Succ(BUFFSIZE, s.nextget),
              nitems := s.nitems - 1,
              consumed := s.consumed + [s.buf[s.nextget]],
              consumer := Returned(|s.consumed| + 1, loops),
              producer := Signalled(s.producer))
    case WakeProducer => s.(producer := Woken)
    case WakeConsumer => s.(consumer := Woken)
  }

  function Initial(buf: seq<int>, loops: nat): State {
    Shared(buf, 0, 0, 0, Returned(0, loops), Returned(0, loops), 0, [])
  }

  /** The integers from `lo` up to `hi`. */
  function Count(lo: nat, hi: nat): (s: seq<int>)
    requires lo <= hi
    ensures |s| == hi - lo
  {
    seq(hi - lo, k requires 0 <= k < hi - lo => lo + k)
  }

  ghost predicate Inv(s: State, loops: nat) {
    && InRange(s)
    // b_nitems is the ring distance from b_nextget to b_nextput
    && 0 <= s.nitems <= BUFFSIZE && Slot(BUFFSIZE, s.nextget, s.nitems) == s.nextput
    // consumed and buffered values are the produced ones in order
    && |s.consumed| + s.nitems == s.produced <= loops
    && s.consumed == Count(0, |s.consumed|)
    && Contents(s.buf, s.nextget, s.nitems) == Count(|s.consumed|, s.produced)
    // a thread sleeps only while its condition is false
    && (s.producer.Sleeping? ==> s.nitems == BUFFSIZE)
    && (s.consumer.Sleeping? ==> s.nitems == 0)
    && (s.producer.Done? <==> s.produced == loops)
    && (s.consumer.Done? <==> |s.consumed| == loops)
  }

  lemma ProduceKeepsInv(s: State, loops: nat)
    requires Inv(s, loops) && Enabled(s, Produce)
    ensures Inv(Next(s, Produce, loops), loops)
  {
    if s.nitems < BUFFSIZE {
      Put(s.buf, s.nextget, s.nitems, s.produced);
      assert Count(|s.consumed|, s.produced + 1) == Count(|s.consumed|, s.produced) + [s.produced];
    }
  }

  lemma ConsumeKeepsInv(s: State, loops: nat)
    requires Inv(s, loops) && Enabled(s, Consume)
    ensures Inv(Next(s, Consume, loops), loops)
  {
    if s.nitems > 0 {
      var n := |s.consumed|;
      Get(s.buf, s.nextget, s.nitems);
      assert Count(n, s.produced)[0] == n;
      assert Count(n + 1, s.produced) == Count(n, s.produced)[1..];
      assert Count(0, n + 1) == Count(0, n) + [n];
    }
  }

  lemma StepKeepsInv(s: State, step: Step, loops: nat)
    requires Inv(s, loops) && Enabled(s, step)
    ensures Inv(Next(s, step, loops), loops)
  {
    match step
    case Produce => ProduceKeepsInv(s, loops);
    case Consume => ConsumeKeepsInv(s, loops);
    case WakeProducer =>
    case WakeConsumer =>
  }

  /** `s` is reached by `steps`, in any interleaving and with any spurious wake-ups. */
  ghost predicate Reaches(buf: seq<int>, loops: nat, steps: seq<Step>, s: State)
    decreases |steps|
  {
    if steps == [] then s == Initial(buf, loops)
    else
      var n := |steps| - 1;
      exists r :: Reaches(buf, loops, steps[..n], r) && InRange(r)
                  && Enabled(r, steps[n]) && s == Next(r, steps[n], loops)
  }

  lemma {:induction false} ReachableInv(buf: seq<int>, loops: nat, steps: seq<Step>, s: State)
    requires |buf| == BUFFSIZE && Reaches(buf, loops, steps, s)
    ensures Inv(s, loops)
    decreases |steps|
  {
    if steps != [] {
      var n := |steps| - 1;
      var r :| Reaches(buf, loops, steps[..n], r) && InRange(r)
               && Enabled(r, steps[n]) && s == Next(r, steps[n], loops);
      ReachableInv(buf, loops, steps[..n], r);
      StepKeepsInv(r, steps[n], loops);
    }
  }

  /** The values consumed are the first ones produced, in order, and the ring holds the others. */
  lemma ConsumedInOrder(buf: seq<int>, loops: nat, steps: seq<Step>, s: State)
    requires |buf| == BUFFSIZE && Reaches(buf, loops, steps, s)
    ensures 0 <= s.nitems <= BUFFSIZE && InRange(s)
    ensures s.consumed + Contents(s.buf, s.nextget, s.nitems) == Count(0, s.produced)
    ensures s.nextput == Slot(BUFFSIZE, s.nextget, s.nitems)
  {
    ReachableInv(buf, loops, steps, s);
  }

  /** A step that puts a value into the ring or takes one out. */
  predicate MovesItem(s: State, step: Step) {
    (step.Produce? && s.nitems < BUFFSIZE) || (step.Consume? && s.nitems > 0)
  }

  /** Both threads never sleep at once, and until both are done one of them can move an item
      at once: no reachable state is a deadlock. */
  lemma NeverStuck(buf: seq<int>, loops: nat, steps: seq<Step>, s: State)
    requires |buf| == BUFFSIZE && Reaches(buf, loops, steps, s)
    ensures !(s.producer.Sleeping? && s.consumer.Sleeping?)
    ensures !(s.producer.Done? && s.consumer.Done?) ==>
              exists step :: Enabled(s, step) && MovesItem(s, step)
    ensures s.producer.Done? && s.consumer.Done? ==> s.consumed == Count(0, loops)
  {
    ReachableInv(buf, loops, steps, s);
    if !(s.producer.Done? && s.consumer.Done?) {
      if s.nitems < BUFFSIZE && !s.producer.Done? {
        assert Enabled(s, Produce) && MovesItem(s, Produce);
      } else {
        assert Enabled(s, Consume) && MovesItem(s, Consume);
      }
    }
  }

  /** A step that is no wait and no wake-up brings exactly one value on its way. */
  lemma StepMoves(s: State, step: Step, loops: nat)
    requires Inv(s, loops) && Enabled(s, step)
    ensures var r := Next(s, step, loops);
            if MovesItem(s, step) then
              && r.produced == s.produced + (if step.Produce? then 1 else 0)
              && |r.consumed| == |s.consumed| + (if step.Consume? then 1 else 0)
            else r.produced == s.produced && r.consumed == s.consumed && r.nitems == s.nitems
  {}

  /** A thread that is not done always has a step. */
  lemma AlwaysOffered(s: State)
    ensures match s.producer
            case Sleeping => Enabled(s, WakeProducer)
            case Done => !Enabled(s, Produce)
            case _ => Enabled(s, Produce)
    ensures match s.consumer
            case Sleeping => Enabled(s, WakeConsumer)
            case Done => !Enabled(s, Consume)
            case _ => Enabled(s, Consume)
  {}

  /** Who sleeps and who is woken: a thread that cannot move a value waits, one that has moved its
      last value is done, and a move wakes the other thread. */
  lemma StepSchedules(s: State, step: Step, loops: nat)
    requires Inv(s, loops) && Enabled(s, step)
    ensures var r := Next(s, step, loops);
            match step
            case Produce =>
              && r.producer == (if s.nitems == 10 then Sleeping else if s.produced + 1 < loops then Ready else Done)
              && r.consumer == (if s.consumer.Sleeping? && s.nitems < 10 then Woken else s.consumer)
            case Consume =>
              && r.consumer == (if s.nitems == 0 then Sleeping else if |s.consumed| + 1 < loops then Ready else Done)
              && r.producer == (if s.producer.Sleeping? && s.nitems > 0 then Woken else s.producer)
            case WakeProducer => r == s.(producer := Woken)
            case WakeConsumer => r == s.(consumer := Woken)
  {}

  lemma ReachesOn(buf: seq<int>, loops: nat, steps: seq<Step>, s: State, step: Step)
    requires |buf| == BUFFSIZE && Reaches(buf, loops, steps, s) && InRange(s) && Enabled(s, step)
    ensures Reaches(buf, loops, steps + [step], Next(s, step, loops))
  {
    assert (steps + [step])[..|steps|] == steps;
  }

  /** What is still to be put in and taken out. */
  function Missing(s: State, loops: nat): int {
    2 * loops - s.produced - |s.consumed|
  }

  /** From any reachable state the two threads can finish, in exactly as many steps as there are
      values to be moved, and then all values have been consumed in order. */
  lemma {:induction false} CanFinish(buf: seq<int>, loops: nat, steps: seq<Step>, s: State)
    returns (more: seq<Step>, r: State)
    requires |buf| == BUFFSIZE && Reaches(buf, loops, steps, s)
    ensures Reaches(buf, loops, steps + more, r) && r.producer.Done? && r.consumer.Done?
    ensures r.consumed == Count(0, loops) && |more| == Missing(s, loops)
    decreases Missing(s, loops)
  {
    AllMoved(buf, loops, steps, s);
    if s.producer.Done? && s.consumer.Done? {
      assert steps + [] == steps;
      return [], s;
    }
    var step, next := MoveOne(buf, loops, steps, s);
    more, r := CanFinish(buf, loops, steps + [step], next);
    JoinSteps(steps, step, more);
    more := [step] + more;
  }

  lemma JoinSteps(steps: seq<Step>, step: Step, more: seq<Step>)
    ensures steps + [step] + more == steps + ([step] + more)
  {}

  lemma AllMoved(buf: seq<int>, loops: nat, steps: seq<Step>, s: State)
    requires |buf| == BUFFSIZE && Reaches(buf, loops, steps, s)
    ensures Missing(s, loops) >= 0
    ensures s.producer.Done? && s.consumer.Done? ==> Missing(s, loops) == 0 && s.consumed == Count(0, loops)
  {
    ReachableInv(buf, loops, steps, s);
  }

  lemma MoveOne(buf: seq<int>, loops: nat, steps: seq<Step>, s: State) returns (step: Step, r: State)
    requires |buf| == BUFFSIZE && Reaches(buf, loops, steps, s) && !(s.producer.Done? && s.consumer.Done?)
    ensures Reaches(buf, loops, steps + [step], r) && 0 <= Missing(r, loops) == Missing(s, loops) - 1
  {
    ReachableInv(buf, loops, steps, s);
    NeverStuck(buf, loops, steps, s);
    step :| Enabled(s, step) && MovesItem(s, step);
    r := Next(s, step, loops);
    ReachesOn(buf, loops, steps, s, step);
    StepMoves(s, step, loops);
    AllMoved(buf, loops, steps + [step], r);
  }

  // --------------------------------------------------------------- the program

  class Buffer {
    const buf: array<int>
    var nitems: int
    var nextget: nat
    var nextput: nat
    var producer: Thread
    var consumer: Thread
    var produced: nat
    var consumed: seq<int>
    const loops: nat

    constructor (loops: nat)
      ensures fresh(buf) && buf.Length == BUFFSIZE && this.loops == loops
      ensures State() == Initial(buf[..], loops)
    {
      buf := new int[BUFFSIZE](_ => 0);
      nitems, nextget, nextput := 0, 0, 0;
      producer, consumer := Returned(0, loops), Returned(0, loops);
      produced, consumed := 0, [];
      this.loops := loops;
    }

    ghost function State(): State
      reads this, buf
    {
      Shared(buf[..], nitems, nextget, nextput, producer, consumer, produced, consumed)
    }

    /** produce(), from getting the mutex to the wait or to the unlock. */
    method Produce()
      requires InRange(State()) && Enabled(State(), Step.Produce)
      modifies this, buf
      ensures State() == Next(old(State()), Step.Produce, loops)
    {
      if nitems >= BUFFSIZE {
        producer := Sleeping;
        return;
      }
      buf[nextput] := produced;
      nextput := nextput + 1;
      if nextput >= BUFFSIZE {
        nextput := 0;
      }
      nitems := nitems + 1;
      if consumer.Sleeping? {
        consumer := Woken;
      }
      produced := produced + 1;
      producer := Returned(produced, loops);
    }

    /** consume(), from getting the mutex to the wait or to the unlock. */
    method Consume()
      requires InRange(State()) && Enabled(State(), Step.Consume)
      modifies this
      ensures State() == Next(old(State()), Step.Consume, loops)
    {
      if nitems <= 0 {
        consumer := Sleeping;
        return;
      }
      var val := buf[nextget];
      nextget := nextget + 1;
      if nextget >= BUFFSIZE {
        nextget := 0;
      }
      nitems := nitems - 1;
      if producer.Sleeping? {
        producer := Woken;
      }
      consumed := consumed + [val];
      consumer := Returned(|consumed|, loops);
    }
  }
}
