/**
 The thread pool of server/serv08.c and server/pthread08.c: the main thread
 accepts connections into a ring of 32 descriptors, any number of workers take
 them out, and a mutex with one condition variable keeps them apart.

 Everything between lock and unlock, or between lock and wait, is one atomic
 step.  A waiting worker is in the wait set until a signal or a spurious
 wake-up takes it out; it then has to get the mutex and test again.
 */
module ThreadPool {
  import opened Ring

  const MAXNCLI := 32

  /** `Serving(k, connfd)`: working on the k-th accepted connection. */
  datatype Worker = Unlocked | Sleeping | Woken | Serving(k: nat, connfd: int)

  datatype Pool = Pool(
    clifd: seq<int>,
    iget: nat,
    iput: nat,
    workers: seq<Worker>,
    quit: bool,             // err_quit has ended the process
    accepted: seq<int>,     // history: the descriptors in the order they were accepted
    taken: seq<nat>)        // history: the worker that took the k-th of them

  datatype Step =
    | Accept(connfd: int, signalled: set<nat>)
    | Enter(w: nat)         // lock and test; first test or the test after a wake-up
    | Spurious(w: nat)
    | Finish(w: nat)        // the request is served, the descriptor closed

  function Asleep(ws: seq<Worker>): set<nat> {
    set w | 0 <= w < |ws| && ws[w].Sleeping?
  }

  /** pthread_cond_signal wakes at least one waiting thread if there is one. */
  predicate Enabled(p: Pool, step: Step) {
    && !p.quit
    && match step
       case Accept(_, signalled) => signalled <= Asleep(p.workers) && (Asleep(p.workers) != {} ==> signalled != {})
       case Enter(w) => w < |p.workers| && (p.workers[w].Unlocked? || p.workers[w].Woken?)
       case Spurious(w) => w < |p.workers| && p.workers[w].Sleeping?
       case Finish(w) => w < |p.workers| && p.workers[w].Serving?
  }

  function Wake(ws: seq<Worker>, woken: set<nat>): (vs: seq<Worker>)
    ensures |vs| == |ws|
  {
    seq(|ws|, w requires 0 <= w < |ws| => if w in woken then Woken else ws[w])
  }

  function Next(p: Pool, step: Step): Pool
    requires InRange(p) && Enabled(p, step)
  {
    match step
    case Accept(connfd, signalled) =>
      var iput' := Succ(MAXNCLI, p.iput);
      var q := p.(clifd := p.clifd[p.iput := connfd], iput := iput', accepted := p.accepted + [connfd]);
      if iput' == p.iget then q.(quit := true) else q.(workers := Wake(p.workers, signalled))
    case Enter(w) =>
      if p.iget == p.iput then p.(workers := p.workers[w := Sleeping])
      else p.(workers := p.workers[w := Serving(|p.taken|, p.clifd[p.iget])],
              iget := Succ(MAXNCLI, p.iget),
              taken := p.taken + [w])
    case Spurious(w) => p.(workers := p.workers[w := Woken])
    case Finish(w) => p.(workers := p.workers[w := Unlocked])
  }

  predicate InRange(p: Pool) {
    |p.clifd| == MAXNCLI && p.iget < MAXNCLI && p.iput < MAXNCLI
  }

  /** The descriptors waiting in the ring; when the pool has quit the ring is full. */
  function Length(p: Pool): (n: nat)
    requires InRange(p)
    ensures n <= MAXNCLI
  {
    if p.quit then MAXNCLI else Distance(MAXNCLI, p.iget, p.iput)
  }

  function Queue(p: Pool): seq<int>
    requires InRange(p)
  {
    Contents(p.clifd, p.iget, Length(p))
  }

  function WokenCount(ws: seq<Worker>): nat {
    if ws == [] then 0
    else WokenCount(ws[..|ws| - 1]) + (if ws[|ws| - 1].Woken? then 1 else 0)
  }

  /** What every reachable state satisfies. */
  ghost predicate Inv(p: Pool) {
    && InRange(p)
    && (p.quit ==> p.iget == p.iput)
    // the connections not yet taken are queued, in the order they were accepted
    && |p.taken| <= |p.accepted| && p.accepted[|p.taken|..] == Queue(p)
    // a worker serves a connection that it alone has taken
    && (forall w :: 0 <= w < |p.workers| && p.workers[w].Serving? ==>
          && p.workers[w].k < |p.taken|
          && p.taken[p.workers[w].k] == w
          && p.workers[w].connfd == p.accepted[p.workers[w].k])
    // no wake-up is lost
    && (!p.quit && Asleep(p.workers) != {} ==> Length(p) <= WokenCount(p.workers))
  }

  function Initial(nthreads: nat, clifd: seq<int>): Pool
    requires |clifd| == MAXNCLI
  {
    Pool(clifd, 0, 0, seq(nthreads, _ => Unlocked), false, [], [])
  }

  // ----------------------------------------------------------------- counting

  lemma {:induction false} CountUpdate(ws: seq<Worker>, w: nat, x: Worker)
    requires w < |ws|
    ensures WokenCount(ws[w := x]) == WokenCount(ws)
              - (if ws[w].Woken? then 1 else 0) + (if x.Woken? then 1 else 0)
  {
    var n := |ws| - 1;
    if w == n {
      assert ws[w := x][..n] == ws[..n];
    } else {
      assert ws[w := x][..n] == ws[..n][w := x];
      CountUpdate(ws[..n], w, x);
    }
  }

  lemma {:induction false} CountWake(ws: seq<Worker>, woken: set<nat>)
    requires forall w :: w in woken && w < |ws| ==> ws[w].Sleeping?
    ensures WokenCount(Wake(ws, woken)) >= WokenCount(ws) + (if exists w :: w in woken && w < |ws| then 1 else 0)
  {
    if ws != [] {
      var n := |ws| - 1;
      assert Wake(ws, woken)[..n] == Wake(ws[..n], woken);
      CountWake(ws[..n], woken);
    }
  }

  // --------------------------------------------------------------- invariance

  lemma AcceptKeepsInv(p: Pool, connfd: int, signalled: set<nat>)
    requires Inv(p) && Enabled(p, Accept(connfd, signalled))
    ensures Inv(Next(p, Accept(connfd, signalled)))
  {
    var q := Next(p, Accept(connfd, signalled));
    Put(p.clifd, p.iget, Length(p), connfd);
    assert q.accepted[|q.taken|..] == p.accepted[|p.taken|..] + [connfd];
    if !q.quit {
      assert Length(q) == Length(p) + 1;
      if Asleep(q.workers) != {} {
        var w :| w in Asleep(q.workers);
        assert w in Asleep(p.workers);
        var v :| v in signalled;
        assert v in Asleep(p.workers);
        CountWake(p.workers, signalled);
      }
    }
  }

  lemma EnterKeepsInv(p: Pool, w: nat)
    requires Inv(p) && Enabled(p, Enter(w))
    ensures Inv(Next(p, Enter(w)))
  {
    var q := Next(p, Enter(w));
    CountUpdate(p.workers, w, q.workers[w]);
    if p.iget != p.iput {
      Get(p.clifd, p.iget, Length(p));
      assert q.accepted[|q.taken|..] == p.accepted[|p.taken|..][1..];
      assert Length(q) == Length(p) - 1;
      if Asleep(q.workers) != {} {
        var v :| v in Asleep(q.workers);
        assert v in Asleep(p.workers);
      }
    }
  }

  lemma OtherKeepsInv(p: Pool, step: Step)
    requires Inv(p) && Enabled(p, step) && (step.Spurious? || step.Finish?)
    ensures Inv(Next(p, step))
  {
    var w := step.w;
    var q := Next(p, step);
    CountUpdate(p.workers, w, q.workers[w]);
    if Asleep(q.workers) != {} {
      var v :| v in Asleep(q.workers);
      assert v in Asleep(p.workers);
    }
  }

  lemma StepKeepsInv(p: Pool, step: Step)
    requires Inv(p) && Enabled(p, step)
    ensures Inv(Next(p, step))
  {
    match step
    case Accept(connfd, signalled) => AcceptKeepsInv(p, connfd, signalled);
    case Enter(w) => EnterKeepsInv(p, w);
    case Spurious(_) => OtherKeepsInv(p, step);
    case Finish(_) => OtherKeepsInv(p, step);
  }

  // --------------------------------------------------------------------- runs

  /** `p` is reached from the start by `steps`, in any interleaving. */
  ghost predicate Reaches(nthreads: nat, clifd: seq<int>, steps: seq<Step>, p: Pool)
    requires |clifd| == MAXNCLI
    decreases |steps|
  {
    if steps == [] then p == Initial(nthreads, clifd)
    else
      var n := |steps| - 1;
      exists q :: Reaches(nthreads, clifd, steps[..n], q) && InRange(q)
                  && Enabled(q, steps[n]) && p == Next(q, steps[n])
  }

  lemma {:induction false} ReachableInv(nthreads: nat, clifd: seq<int>, steps: seq<Step>, p: Pool)
    requires |clifd| == MAXNCLI && Reaches(nthreads, clifd, steps, p)
    ensures Inv(p) && |p.workers| == nthreads
    decreases |steps|
  {
    if steps != [] {
      var n := |steps| - 1;
      var q :| Reaches(nthreads, clifd, steps[..n], q) && InRange(q) && Enabled(q, steps[n]) && p == Next(q, steps[n]);
      ReachableInv(nthreads, clifd, steps[..n], q);
      StepKeepsInv(q, steps[n]);
    }
  }

  /** Connections are taken in the order they were accepted, each by one worker; two workers
      never serve the same one. */
  lemma EachConnectionOnce(nthreads: nat, clifd: seq<int>, steps: seq<Step>, p: Pool)
    requires |clifd| == MAXNCLI && Reaches(nthreads, clifd, steps, p)
    ensures InRange(p) && |p.taken| <= |p.accepted| && p.accepted == p.accepted[..|p.taken|] + Queue(p)
    ensures forall v, w :: 0 <= v < w < |p.workers| && p.workers[v].Serving? && p.workers[w].Serving? ==>
              p.workers[v].k != p.workers[w].k
    ensures forall w :: 0 <= w < |p.workers| && p.workers[w].Serving? ==>
              p.workers[w].k < |p.taken| && p.workers[w].connfd == p.accepted[p.workers[w].k]
  {
    ReachableInv(nthreads, clifd, steps, p);
  }

  /** Accepting writes a slot that holds no waiting descriptor, even when it makes the pool quit. */
  lemma NoLiveSlotOverwritten(nthreads: nat, clifd: seq<int>, steps: seq<Step>, p: Pool, k: nat)
    requires |clifd| == MAXNCLI && Reaches(nthreads, clifd, steps, p) && !p.quit && InRange(p) && k < Length(p)
    ensures Slot(MAXNCLI, p.iget, k) != p.iput
  {
    ReachableInv(nthreads, clifd, steps, p);
    FreeSlot(MAXNCLI, p.iget, Length(p), k);
  }

  /** The pool quits exactly when a connection arrives while all other slots wait. */
  lemma QuitsWhenFull(nthreads: nat, clifd: seq<int>, steps: seq<Step>, p: Pool, connfd: int, signalled: set<nat>)
    requires |clifd| == MAXNCLI && Reaches(nthreads, clifd, steps, p) && Enabled(p, Accept(connfd, signalled))
    ensures InRange(p) && (Next(p, Accept(connfd, signalled)).quit <==> |Queue(p)| == 31)
  {
    ReachableInv(nthreads, clifd, steps, p);
  }

  /** As long as a connection waits, some worker is awake; so the pool is never stuck. */
  lemma NoLostWakeup(nthreads: nat, clifd: seq<int>, steps: seq<Step>, p: Pool)
    requires |clifd| == MAXNCLI && Reaches(nthreads, clifd, steps, p) && !p.quit && nthreads > 0
    ensures InRange(p) && |p.workers| == nthreads
    ensures Asleep(p.workers) != {} ==> |Queue(p)| <= WokenCount(p.workers)
    ensures Queue(p) != [] ==> exists w :: 0 <= w < nthreads && (Enabled(p, Enter(w)) || Enabled(p, Finish(w)))
  {
    ReachableInv(nthreads, clifd, steps, p);
    if Queue(p) != [] {
      if Asleep(p.workers) != {} {
        var w := SomeWoken(p.workers);
        assert Enabled(p, Enter(w));
      } else {
        assert 0 !in Asleep(p.workers);
        assert Enabled(p, Enter(0)) || Enabled(p, Finish(0));
      }
    }
  }

  // ------------------------------------------------------ what the steps bring about

  /** The descriptors of the accept steps. */
  function Arrived(steps: seq<Step>): seq<int> {
    if steps == [] then []
    else
      var n := |steps| - 1;
      Arrived(steps[..n]) + if steps[n].Accept? then [steps[n].connfd] else []
  }

  /** Everything accepted is either taken or waits, in the order of the accept steps. */
  lemma {:induction false} AcceptedAreArrived(nthreads: nat, clifd: seq<int>, steps: seq<Step>, p: Pool)
    requires |clifd| == MAXNCLI && Reaches(nthreads, clifd, steps, p)
    ensures p.accepted == Arrived(steps)
    decreases |steps|
  {
    if steps != [] {
      var n := |steps| - 1;
      var q :| Reaches(nthreads, clifd, steps[..n], q) && InRange(q) && Enabled(q, steps[n]) && p == Next(q, steps[n]);
      AcceptedAreArrived(nthreads, clifd, steps[..n], q);
    }
  }

  /** A worker that gets the mutex takes the oldest descriptor, or goes to sleep if there is none. */
  lemma EnterTakes(p: Pool, w: nat)
    requires Inv(p) && Enabled(p, Enter(w))
    ensures var q := Next(p, Enter(w));
            && Inv(q) && !q.quit && |q.workers| == |p.workers| && q.accepted == p.accepted
            && (Queue(p) == [] ==> Queue(q) == [] && q.workers[w].Sleeping? && q.taken == p.taken)
            && (Queue(p) != [] ==>
                  && q.workers[w].Serving? && Queue(p) == [q.workers[w].connfd] + Queue(q)
                  && q.taken == p.taken + [w])
  {
    EnterKeepsInv(p, w);
    if p.iget != p.iput {
      Get(p.clifd, p.iget, Length(p));
      assert Queue(p) == [Queue(p)[0]] + Queue(p)[1..];
    }
  }

  /** A worker that has served can come back, and nothing else changes. */
  lemma FinishFrees(p: Pool, w: nat)
    requires Inv(p) && Enabled(p, Finish(w))
    ensures var q := Next(p, Finish(w));
            && Inv(q) && !q.quit && |q.workers| == |p.workers| && q.accepted == p.accepted
            && Queue(q) == Queue(p) && q.taken == p.taken && Enabled(q, Enter(w))
  {
    OtherKeepsInv(p, Finish(w));
  }

  /** Every worker always has a step, and a connection can be accepted with any wake-up that a
      signal may bring about. */
  lemma AlwaysOffered(p: Pool, w: nat, connfd: int, signalled: set<nat>)
    requires !p.quit && w < |p.workers|
    ensures match p.workers[w]
            case Unlocked => Enabled(p, Enter(w))
            case Woken => Enabled(p, Enter(w))
            case Sleeping => Enabled(p, Spurious(w))
            case Serving(_, _) => Enabled(p, Finish(w))
    ensures (forall v :: v in signalled ==> v < |p.workers| && p.workers[v].Sleeping?)
            && (signalled == {} ==> forall v :: 0 <= v < |p.workers| ==> !p.workers[v].Sleeping?)
            ==> Enabled(p, Accept(connfd, signalled))
  {
    if Asleep(p.workers) != {} {
      var v :| v in Asleep(p.workers);
      assert p.workers[v].Sleeping?;
    }
  }

  /** A spurious wake-up makes one sleeper test again, and nothing else changes. */
  lemma SpuriousWakes(p: Pool, w: nat)
    requires Inv(p) && Enabled(p, Spurious(w))
    ensures var q := Next(p, Spurious(w));
            && Inv(q) && q.workers[w].Woken? && q == p.(workers := q.workers) && |q.workers| == |p.workers|
            && forall v :: 0 <= v < |p.workers| && v != w ==> q.workers[v] == p.workers[v]
  {
    OtherKeepsInv(p, Spurious(w));
  }

  /** A new connection comes behind the others, and the workers signalled, and no others, are woken. */
  lemma AcceptQueues(p: Pool, connfd: int, signalled: set<nat>)
    requires Inv(p) && Enabled(p, Accept(connfd, signalled))
    ensures var q := Next(p, Accept(connfd, signalled));
            && Inv(q) && q.accepted == p.accepted + [connfd] && q.taken == p.taken
            && Queue(q) == Queue(p) + [connfd]
            && (!q.quit ==> Asleep(q.workers) == Asleep(p.workers) - signalled)
            && (!q.quit ==> forall w :: w in signalled ==> w < |q.workers| && q.workers[w].Woken?)
  {
    AcceptKeepsInv(p, connfd, signalled);
    Put(p.clifd, p.iget, Length(p), connfd);
    var q := Next(p, Accept(connfd, signalled));
    forall w | w in signalled
      ensures w < |p.workers| && p.workers[w].Sleeping?
    {
      assert w in Asleep(p.workers);
    }
  }

  lemma ReachesOn(nthreads: nat, clifd: seq<int>, steps: seq<Step>, p: Pool, step: Step)
    requires |clifd| == MAXNCLI && Reaches(nthreads, clifd, steps, p) && InRange(p) && Enabled(p, step)
    ensures Reaches(nthreads, clifd, steps + [step], Next(p, step))
  {
    assert (steps + [step])[..|steps|] == steps;
  }

  predicate WorkersOnly(steps: seq<Step>) {
    forall i :: 0 <= i < |steps| ==> steps[i].Enter? || steps[i].Finish?
  }

  lemma JoinSteps(steps: seq<Step>, first: seq<Step>, rest: seq<Step>)
    ensures steps + first + rest == steps + (first + rest)
    ensures WorkersOnly(first) && WorkersOnly(rest) ==> WorkersOnly(first + rest)
  {}

  /** From any reachable state the workers alone can take all that waits, each connection in at
      most two steps. */
  lemma {:induction false} CanDrain(nthreads: nat, clifd: seq<int>, steps: seq<Step>, p: Pool)
    returns (more: seq<Step>, q: Pool)
    requires |clifd| == MAXNCLI && Reaches(nthreads, clifd, steps, p) && !p.quit && nthreads > 0
    ensures InRange(p) && InRange(q) && Reaches(nthreads, clifd, steps + more, q)
    ensures Queue(q) == [] && q.accepted == p.accepted && |q.taken| == |p.accepted|
    ensures |more| <= 2 * |Queue(p)| && WorkersOnly(more)
    decreases if InRange(p) then |Queue(p)| else 0
  {
    WaitingOrTaken(nthreads, clifd, steps, p);
    if Queue(p) == [] {
      assert steps + [] == steps;
      return [], p;
    }
    var first, r := TakeOne(nthreads, clifd, steps, p);
    var rest;
    rest, q := CanDrain(nthreads, clifd, steps + first, r);
    JoinSteps(steps, first, rest);
    more := first + rest;
  }

  lemma WaitingOrTaken(nthreads: nat, clifd: seq<int>, steps: seq<Step>, p: Pool)
    requires |clifd| == MAXNCLI && Reaches(nthreads, clifd, steps, p)
    ensures InRange(p) && |p.taken| + |Queue(p)| == |p.accepted|
  {
    ReachableInv(nthreads, clifd, steps, p);
  }

  lemma TakeOne(nthreads: nat, clifd: seq<int>, steps: seq<Step>, p: Pool) returns (more: seq<Step>, q: Pool)
    requires |clifd| == MAXNCLI && Reaches(nthreads, clifd, steps, p) && !p.quit && nthreads > 0
    requires InRange(p) && Queue(p) != []
    ensures InRange(q) && !q.quit && Reaches(nthreads, clifd, steps + more, q)
    ensures q.accepted == p.accepted && |Queue(q)| == |Queue(p)| - 1
    ensures |more| <= 2 && WorkersOnly(more)
  {
    ReachableInv(nthreads, clifd, steps, p);
    NoLostWakeup(nthreads, clifd, steps, p);
    var w :| 0 <= w < nthreads && (Enabled(p, Enter(w)) || Enabled(p, Finish(w)));
    if Enabled(p, Enter(w)) {
      EnterTakes(p, w);
      ReachesOn(nthreads, clifd, steps, p, Enter(w));
      return [Enter(w)], Next(p, Enter(w));
    }
    FinishFrees(p, w);
    ReachesOn(nthreads, clifd, steps, p, Finish(w));
    var r := Next(p, Finish(w));
    EnterTakes(r, w);
    ReachesOn(nthreads, clifd, steps + [Finish(w)], r, Enter(w));
    JoinSteps(steps, [Finish(w)], [Enter(w)]);
    return [Finish(w)] + [Enter(w)], Next(r, Enter(w));
  }

  lemma {:induction false} SomeWoken(ws: seq<Worker>) returns (w: nat)
    requires WokenCount(ws) > 0
    ensures w < |ws| && ws[w].Woken?
  {
    if ws[|ws| - 1].Woken? {
      w := |ws| - 1;
    } else {
      w := SomeWoken(ws[..|ws| - 1]);
    }
  }

  // ---------------------------------------------------------------- the program

  class Server {
    const clifd: array<int>
    var iget: nat
    var iput: nat
    const workers: array<Worker>
    var quit: bool
    var taken: seq<nat>           // numbers what the workers serve
    ghost var accepted: seq<int>  // history, as in Pool

    constructor (nthreads: nat)
      ensures fresh(clifd) && fresh(workers) && clifd.Length == MAXNCLI
      ensures State() == Initial(nthreads, clifd[..])
    {
      clifd := new int[MAXNCLI](_ => 0);
      workers := new Worker[nthreads](_ => Unlocked);
      iget, iput, quit := 0, 0, false;
      accepted, taken := [], [];
    }

    ghost function State(): Pool
      reads this, clifd, workers
    {
      Pool(clifd[..], iget, iput, workers[..], quit, accepted, taken)
    }

    /** The critical section of the main thread. */
    method Accept(connfd: int, signalled: set<nat>)
      requires InRange(State()) && Enabled(State(), Step.Accept(connfd, signalled))
      modifies this, clifd, workers
      ensures State() == Next(old(State()), Step.Accept(connfd, signalled))
    {
      clifd[iput] := connfd;
      accepted := accepted + [connfd];
      iput := iput + 1;
      if iput == MAXNCLI {
        iput := 0;
      }
      if iput == iget {
        quit := true;
        return;
      }
      forall w | 0 <= w < workers.Length && w in signalled {
        workers[w] := Woken;
      }
    }

    /** The critical section of worker `w`: it ends in the wait or with a descriptor. */
    method Enter(w: nat)
      requires InRange(State()) && Enabled(State(), Step.Enter(w))
      modifies this, workers
      ensures State() == Next(old(State()), Step.Enter(w))
    {
      if iget == iput {
        workers[w] := Sleeping;
        return;
      }
      workers[w] := Serving(|taken|, clifd[iget]);
      taken := taken + [w];
      iget := iget + 1;
      if iget == MAXNCLI {
        iget := 0;
      }
    }

    /** The request is served and its descriptor closed. */
    method Finish(w: nat)
      requires InRange(State()) && Enabled(State(), Step.Finish(w))
      modifies workers
      ensures State() == Next(old(State()), Step.Finish(w))
    {
      workers[w] := Unlocked;
    }
  }
}
