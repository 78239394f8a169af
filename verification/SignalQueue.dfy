/**
 The signal-driven echo server of sigio/dgecho01.c: a ring of 8 datagrams that
 the SIGIO handler fills and the main loop empties.

 The handler runs to completion at any point where the main loop has SIGIO
 unblocked.  A script says how often it runs at each such point and what
 recvfrom has for it.  The server is proved to do what a plain queue does
 under the same script, and the properties of every run are proved for that.
 */
module SignalQueue {
  import opened Common
  import opened Ring

  const QSIZE := 8
  const MAXDG := 4096

  /** A datagram and the address of its sender. */
  datatype Dg = Dg(data: seq<Byte>, sa: int)

  /** What recvfrom has for one run of the handler, and whether it then fails for another
      reason than that it would block. */
  datatype Batch = Batch(dgs: seq<Dg>, error: bool)

  /** One turn of the main loop: the signals that arrive in sigsuspend while the queue is
      empty, before sendto, during it, after it, and after `iget` has moved on. */
  datatype Turn = Turn(
    suspended: seq<Batch>, before: seq<Batch>, during: seq<Batch>, after: seq<Batch>, advanced: seq<Batch>)

  // ------------------------------------------------------------ a plain queue

  /** `busy` is 1 while a datagram that has been echoed still counts as queued. */
  datatype Fifo = Fifo(
    pending: seq<Dg>,
    busy: nat,
    echoed: seq<Dg>,        // history: what sendto has sent
    received: seq<Dg>,      // history: what the handler has stored
    counts: seq<nat>,       // cntread
    quit: bool,             // err_quit or err_sys
    ran: seq<Batch>)        // history: the runs of the handler

  const EMPTY := Fifo([], 0, [], [], seq(QSIZE + 1, _ => 0), false, [])

  /** recvfrom cuts a datagram to the buffer. */
  function Cut(d: Dg): Dg {
    if |d.data| > MAXDG then d.(data := d.data[..MAXDG]) else d
  }

  /** What recvfrom stores for some datagrams. */
  function CutAll(dgs: seq<Dg>): (r: seq<Dg>)
    ensures |r| == |dgs|
  {
    seq(|dgs|, k requires 0 <= k < |dgs| => Cut(dgs[k]))
  }

  function Room(f: Fifo): int {
    QSIZE - |f.pending| - f.busy
  }

  /** The datagrams of a batch that find a free slot. */
  function Fitting(f: Fifo, b: Batch): seq<Dg> {
    CutAll(b.dgs[..Max(0, Min(|b.dgs|, Room(f)))])
  }

  function Tallied(counts: seq<nat>, n: nat): seq<nat> {
    if n < |counts| then counts[n := counts[n] + 1] else counts
  }

  /** One run of the handler. */
  function Handle(f: Fifo, b: Batch): Fifo {
    var quit := |b.dgs| >= Room(f) || b.error;
    f.(pending := f.pending + Fitting(f, b),
       received := f.received + Fitting(f, b),
       counts := if quit then f.counts else Tallied(f.counts, |b.dgs|),
       quit := quit,
       ran := f.ran + [b])
  }

  /** Runs of the handler until one ends the process. */
  function HandleAll(f: Fifo, bs: seq<Batch>): Fifo
    decreases |bs|
  {
    if f.quit || bs == [] then f else HandleAll(Handle(f, bs[0]), bs[1..])
  }

  /** Runs of the handler until something is queued. */
  function Suspended(f: Fifo, bs: seq<Batch>): Fifo
    decreases |bs|
  {
    if f.quit || f.pending != [] || bs == [] then f else Suspended(Handle(f, bs[0]), bs[1..])
  }

  function Echoed(f: Fifo): Fifo {
    if f.pending == [] then f
    else f.(echoed := f.echoed + [f.pending[0]], pending := f.pending[1..], busy := 1)
  }

  /** From the unblocking of SIGIO to the count. */
  function Served(f: Fifo, t: Turn): Fifo {
    var g := HandleAll(HandleAll(f, t.before), t.during);
    if g.quit then g
    else
      var h := HandleAll(HandleAll(Echoed(g), t.after), t.advanced);
      if h.quit then h else h.(busy := 0)
  }

  /** One turn, which ends in sigsuspend if no signal brings a datagram. */
  function Turned(f: Fifo, t: Turn): Fifo {
    var g := Suspended(f, t.suspended);
    if g.quit || g.pending == [] then g else Served(g, t)
  }

  function Turns(f: Fifo, ts: seq<Turn>): Fifo
    decreases |ts|
  {
    if f.quit || ts == [] then f else Turns(Turned(f, ts[0]), ts[1..])
  }

  lemma TurnsOn(f: Fifo, ts: seq<Turn>, t: nat)
    requires t < |ts| && !f.quit
    ensures Turns(f, ts[t..]) == Turns(Turned(f, ts[t]), ts[t + 1..])
  {
    assert ts[t..][0] == ts[t] && ts[t..][1..] == ts[t + 1..];
  }

  // ------------------------------------------------------------ what every run keeps

  /** All that the given runs of the handler could store. */
  function Arrivals(bs: seq<Batch>): seq<Dg> {
    if bs == [] then [] else Arrivals(bs[..|bs| - 1]) + CutAll(bs[|bs| - 1].dgs)
  }

  /** The datagrams counted by a histogram from `lo` on. */
  function Weight(cnt: seq<nat>, lo: nat): nat
    requires lo <= |cnt|
    decreases |cnt| - lo
  {
    if lo == |cnt| then 0 else lo * cnt[lo] + Weight(cnt, lo + 1)
  }

  /** Received is echoed plus still queued.  Until the process ends one slot is free, the
      histogram weighs up to the number received, and that is everything that has come. */
  ghost predicate Sound(f: Fifo) {
    && f.received == f.echoed + f.pending
    && f.busy <= 1 && |f.pending| + f.busy <= QSIZE && |f.counts| == QSIZE + 1
    && (!f.quit ==> |f.pending| + f.busy < QSIZE && Weight(f.counts, 0) == |f.received|)
    && f.received <= Arrivals(f.ran) && (!f.quit ==> f.received == Arrivals(f.ran))
  }

  lemma {:induction false} WeightUpdate(cnt: seq<nat>, lo: nat, k: nat)
    requires lo <= |cnt| && k < |cnt|
    ensures Weight(cnt[k := cnt[k] + 1], lo) == Weight(cnt, lo) + (if lo <= k then k else 0)
    decreases |cnt| - lo
  {
    if lo < |cnt| {
      WeightUpdate(cnt, lo + 1, k);
      if lo == k {
        assert lo * (cnt[lo] + 1) == lo * cnt[lo] + lo;
      }
    }
  }

  lemma {:induction false} ZeroWeight(cnt: seq<nat>, lo: nat)
    requires lo <= |cnt| && forall k :: 0 <= k < |cnt| ==> cnt[k] == 0
    ensures Weight(cnt, lo) == 0
    decreases |cnt| - lo
  {
    if lo < |cnt| {
      ZeroWeight(cnt, lo + 1);
    }
  }

  lemma EmptyIsSound()
    ensures Sound(EMPTY)
  {
    ZeroWeight(EMPTY.counts, 0);
  }

  lemma Regroup(a: seq<Dg>, b: seq<Dg>, c: seq<Dg>)
    ensures a + b + c == a + (b + c)
  {}

  lemma ArrivalsSnoc(bs: seq<Batch>, b: Batch)
    ensures Arrivals(bs + [b]) == Arrivals(bs) + CutAll(b.dgs)
  {
    assert (bs + [b])[..|bs|] == bs;
  }

  lemma CutPrefix(dgs: seq<Dg>, n: nat)
    requires n <= |dgs|
    ensures CutAll(dgs[..n]) <= CutAll(dgs) && (n == |dgs| ==> CutAll(dgs[..n]) == CutAll(dgs))
  {
    assert n == |dgs| ==> dgs[..n] == dgs;
  }

  lemma HandleKeeps(f: Fifo, b: Batch)
    requires Sound(f) && !f.quit
    ensures Sound(Handle(f, b))
  {
    var n := Max(0, Min(|b.dgs|, Room(f)));
    CutPrefix(b.dgs, n);
    ArrivalsSnoc(f.ran, b);
    Regroup(f.echoed, f.pending, CutAll(b.dgs[..n]));
    if !Handle(f, b).quit {
      WeightUpdate(f.counts, 0, |b.dgs|);
    }
  }

  lemma {:induction false} HandleAllKeeps(f: Fifo, bs: seq<Batch>)
    requires Sound(f)
    ensures Sound(HandleAll(f, bs))
    ensures HandleAll(f, bs).busy == f.busy && HandleAll(f, bs).echoed == f.echoed
    ensures f.pending <= HandleAll(f, bs).pending && f.ran <= HandleAll(f, bs).ran
    ensures !HandleAll(f, bs).quit ==> HandleAll(f, bs).ran == f.ran + bs
    decreases |bs|
  {
    if !f.quit && bs != [] {
      HandleKeeps(f, bs[0]);
      HandleAllKeeps(Handle(f, bs[0]), bs[1..]);
      Unroll(f.ran, bs);
    }
  }

  lemma Unroll(ran: seq<Batch>, bs: seq<Batch>)
    requires bs != []
    ensures ran + [bs[0]] + bs[1..] == ran + bs
  {}

  lemma UnrollTo(ran: seq<Batch>, bs: seq<Batch>, n: nat)
    requires n < |bs|
    ensures ran + [bs[0]] + bs[1..][..n] == ran + bs[..n + 1]
  {
    assert bs[..n + 1] == [bs[0]] + bs[1..][..n];
  }

  /** How many runs of the handler it takes to get something queued. */
  function Awaited(f: Fifo, bs: seq<Batch>): (n: nat)
    ensures n <= |bs|
    decreases |bs|
  {
    if f.quit || f.pending != [] || bs == [] then 0 else 1 + Awaited(Handle(f, bs[0]), bs[1..])
  }

  lemma {:induction false} SuspendedKeeps(f: Fifo, bs: seq<Batch>)
    requires Sound(f)
    ensures Sound(Suspended(f, bs))
    ensures Suspended(f, bs).busy == f.busy && Suspended(f, bs).echoed == f.echoed
    ensures Suspended(f, bs).ran == f.ran + bs[..Awaited(f, bs)]
    decreases |bs|
  {
    if !f.quit && f.pending == [] && bs != [] {
      HandleKeeps(f, bs[0]);
      SuspendedKeeps(Handle(f, bs[0]), bs[1..]);
      UnrollTo(f.ran, bs, Awaited(Handle(f, bs[0]), bs[1..]));
    } else {
      assert f.ran + bs[..0] == f.ran;
    }
  }

  lemma EchoedKeeps(f: Fifo)
    requires Sound(f) && !f.quit && f.busy == 0 && f.pending != []
    ensures Sound(Echoed(f))
  {
    assert f.pending == [f.pending[0]] + f.pending[1..];
    Regroup(f.echoed, [f.pending[0]], f.pending[1..]);
  }

  /** The runs of the handler between the unblocking and the count. */
  function During(t: Turn): seq<Batch> {
    t.before + t.during + t.after + t.advanced
  }

  lemma JoinRuns(ran: seq<Batch>, t: Turn)
    ensures ran + t.before + t.during + t.after + t.advanced == ran + During(t)
  {}

  lemma ServedKeeps(f: Fifo, t: Turn)
    requires Sound(f) && !f.quit && f.busy == 0 && f.pending != []
    ensures Sound(Served(f, t))
    ensures !Served(f, t).quit ==>
              && Served(f, t).busy == 0 && Served(f, t).ran == f.ran + During(t)
              && Served(f, t).echoed == f.echoed + [f.pending[0]]
  {
    HandleAllKeeps(f, t.before);
    var e := HandleAll(f, t.before);
    HandleAllKeeps(e, t.during);
    var g := HandleAll(e, t.during);
    assert g.pending[0] == f.pending[0];
    if !g.quit {
      EchoedKeeps(g);
      HandleAllKeeps(Echoed(g), t.after);
      HandleAllKeeps(HandleAll(Echoed(g), t.after), t.advanced);
      JoinRuns(f.ran, t);
    }
  }

  /** One turn: something is echoed exactly if something is queued after the suspension, and
      then it is the oldest. */
  lemma TurnedKeeps(f: Fifo, t: Turn)
    requires Sound(f) && !f.quit && f.busy == 0
    ensures Sound(Turned(f, t))
    ensures var g := Suspended(f, t.suspended);
            !Turned(f, t).quit ==>
              && Turned(f, t).busy == 0
              && Turned(f, t).echoed == f.echoed + (if g.pending == [] then [] else [g.pending[0]])
              && Turned(f, t).ran == f.ran + t.suspended[..Awaited(f, t.suspended)]
                                     + (if g.pending == [] then [] else During(t))
  {
    SuspendedKeeps(f, t.suspended);
    var g := Suspended(f, t.suspended);
    if !g.quit && g.pending != [] {
      ServedKeeps(g, t);
    } else {
      assert g.ran + [] == g.ran && g.echoed + [] == g.echoed;
    }
  }

  /** Over any number of turns and any signals: echoes go out in arrival order to their own
      senders, nothing is lost until the process ends, and until then every datagram that came
      is either echoed or queued. */
  lemma {:induction false} AnyRun(f: Fifo, ts: seq<Turn>)
    requires Sound(f) && (!f.quit ==> f.busy == 0)
    ensures Sound(Turns(f, ts))
    ensures !Turns(f, ts).quit ==> Turns(f, ts).busy == 0
    decreases |ts|
  {
    if !f.quit && ts != [] {
      TurnedKeeps(f, ts[0]);
      AnyRun(Turned(f, ts[0]), ts[1..]);
    }
  }

  /** All datagrams of the given runs of the handler, as they came. */
  function Raw(bs: seq<Batch>): seq<Dg> {
    if bs == [] then [] else Raw(bs[..|bs| - 1]) + bs[|bs| - 1].dgs
  }

  /** A datagram in the queue or on its way back: from the same sender and with the same data, as
      far as the buffer goes. */
  ghost predicate Kept(d: Dg, raw: Dg) {
    d.sa == raw.sa && d.data <= raw.data && |d.data| == Min(|raw.data|, 4096)
  }

  lemma {:induction false} ArrivalsAreRaw(bs: seq<Batch>)
    ensures |Arrivals(bs)| == |Raw(bs)|
    ensures forall i :: 0 <= i < |Raw(bs)| ==> Kept(Arrivals(bs)[i], Raw(bs)[i])
  {
    if bs != [] {
      ArrivalsAreRaw(bs[..|bs| - 1]);
    }
  }

  /** Over any run: what has been echoed and what is queued are the datagrams that came, in order,
      each with its own sender and its own data. */
  lemma EchoesGoBack(start: seq<Batch>, ts: seq<Turn>)
    ensures var f := Turns(HandleAll(EMPTY, start), ts);
            && |f.echoed + f.pending| <= |Raw(f.ran)|
            && (!f.quit ==> |f.echoed + f.pending| == |Raw(f.ran)|)
            && forall i :: 0 <= i < |f.echoed + f.pending| ==> Kept((f.echoed + f.pending)[i], Raw(f.ran)[i])
  {
    EmptyIsSound();
    HandleAllKeeps(EMPTY, start);
    AnyRun(HandleAll(EMPTY, start), ts);
    ArrivalsAreRaw(Turns(HandleAll(EMPTY, start), ts).ran);
  }

  const QUIET := Turn([], [], [], [], [])

  lemma QuietTurn(f: Fifo)
    requires !f.quit && f.pending != [] && f.busy == 0
    ensures Turned(f, QUIET) == f.(echoed := f.echoed + [f.pending[0]], pending := f.pending[1..])
  {}

  /** When no more signals come, each turn sends the oldest datagram back, until the queue is empty. */
  lemma {:induction false} QueueDrains(f: Fifo, n: nat)
    requires !f.quit && f.busy == 0 && n <= |f.pending|
    ensures var r := Turns(f, seq(n, _ => QUIET));
            r.echoed == f.echoed + f.pending[..n] && r.pending == f.pending[n..] && !r.quit
    decreases n
  {
    var ts := seq(n, _ => QUIET);
    if n == 0 {
      assert f.pending[0..] == f.pending && f.echoed + [] == f.echoed;
    } else {
      QuietTurn(f);
      var g := Turned(f, QUIET);
      assert ts[0] == QUIET && ts[1..] == seq(n - 1, _ => QUIET);
      QueueDrains(g, n - 1);
      FirstAndRest(f.echoed, f.pending, n);
    }
  }

  lemma FirstAndRest(echoed: seq<Dg>, pending: seq<Dg>, n: nat)
    requires 0 < n <= |pending|
    ensures echoed + [pending[0]] + pending[1..][..n - 1] == echoed + pending[..n]
    ensures pending[1..][n - 1..] == pending[n..]
  {}

  /** What a run of the handler stores is everything that has come if and only if there is a
      slot for each datagram. */
  lemma KeepsAll(f: Fifo, b: Batch)
    requires Sound(f) && !f.quit
    ensures Handle(f, b).received == Arrivals(Handle(f, b).ran) <==> |b.dgs| <= Room(f)
  {
    ArrivalsSnoc(f.ran, b);
    CutPrefix(b.dgs, Min(|b.dgs|, Room(f)));
    assert |Handle(f, b).received| == |f.received| + Min(|b.dgs|, Room(f));
    assert |Arrivals(Handle(f, b).ran)| == |f.received| + |b.dgs|;
  }

  /** The process ends although nothing has been lost if and only if the datagrams of one run fill
      exactly the last slot, or recvfrom fails before that. */
  lemma GivesUpEarly(f: Fifo, b: Batch)
    requires Sound(f) && !f.quit
    ensures Handle(f, b).quit && Handle(f, b).received == Arrivals(Handle(f, b).ran) <==>
              |b.dgs| == Room(f) || (b.error && |b.dgs| < Room(f))
  {
    KeepsAll(f, b);
  }

  /** Eight datagrams at once end the process with all of them stored. */
  lemma EightAreTooMany(b: Batch)
    requires |b.dgs| == 8
    ensures Handle(EMPTY, b).quit && Handle(EMPTY, b).received == Arrivals(Handle(EMPTY, b).ran)
  {
    EmptyIsSound();
    GivesUpEarly(EMPTY, b);
  }

  // ------------------------------------------------------------ the program

  class Server {
    const dg: array<Dg>
    const cntread: array<nat>
    var iget: nat
    var iput: nat
    var nqueue: int
    var quit: bool
    ghost var received: seq<Dg> // history, as in Fifo
    ghost var echoed: seq<Dg>
    ghost var ran: seq<Batch>
    ghost var lag: nat          // 1 between the step of iget and that of nqueue
    ghost var sentHead: nat     // 1 between sendto and the step of iget

    constructor ()
      ensures Valid() && View() == EMPTY && Settled()
      ensures fresh(dg) && fresh(cntread)
    {
      dg := new Dg[QSIZE](_ => Dg([], 0));
      cntread := new nat[QSIZE + 1](_ => 0);
      iget, iput, nqueue, quit := 0, 0, 0, false;
      received, echoed, ran := [], [], [];
      lag, sentHead := 0, 0;
      new;
      assert cntread[..] == EMPTY.counts;
    }

    /** The slots from `iget` on that the handler must not touch. */
    ghost function Live(): int
      reads this
    {
      nqueue - lag
    }

    /** The handler stores behind the live slots. */
    ghost predicate Valid()
      reads this
    {
      && dg.Length == QSIZE && cntread.Length == QSIZE + 1
      && iget < QSIZE && 0 <= Live() && nqueue <= QSIZE
      && lag + sentHead <= 1 && sentHead <= Live()
      && iput == Slot(QSIZE, iget, Live())
    }

    /** Between the count and the next sendto. */
    ghost predicate Settled()
      reads this
    {
      lag == sentHead == 0
    }

    ghost function Queue(): (q: seq<Dg>)
      requires Valid()
      reads this, dg
      ensures |q| == Live()
    {
      Contents(dg[..], iget, Live())
    }

    /** The plain queue that the ring stands for. */
    ghost function View(): Fifo
      requires Valid()
      reads this, dg, cntread
    {
      Fifo(Queue()[sentHead..], lag + sentHead, echoed, received, cntread[..], quit, ran)
    }

    /** The part of sig_io after recvfrom has delivered a datagram. */
    method Store(d: Dg)
      requires Valid() && nqueue < QSIZE
      modifies this`iput, this`nqueue, this`received, dg
      ensures Valid() && nqueue == old(nqueue) + 1
      ensures received == old(received) + [Cut(d)]
      ensures Queue() == old(Queue()) + [Cut(d)]
    {
      Put(dg[..], iget, Live(), Cut(d));
      dg[iput] := Cut(d);
      received := received + [Cut(d)];
      nqueue := nqueue + 1;
      iput := iput + 1;
      if iput >= QSIZE {
        iput := 0;
      }
    }

    /** The loop of sig_io: it stores until recvfrom has no more or the queue is full. */
    method Receive(dgs: seq<Dg>) returns (nread: nat, full: bool)
      requires Valid()
      modifies this`iput, this`nqueue, this`received, dg
      ensures Valid() && nread == Min(|dgs|, QSIZE - old(nqueue)) && nqueue == old(nqueue) + nread
      ensures full <==> nqueue == QSIZE
      ensures received == old(received) + CutAll(dgs[..nread])
      ensures Queue() == old(Queue()) + CutAll(dgs[..nread])
    {
      nread := 0;
      ghost var got, was := received, Queue();
      while true
        invariant Valid() && nread <= |dgs| && nqueue == old(nqueue) + nread
        invariant received == got + CutAll(dgs[..nread])
        invariant Queue() == was + CutAll(dgs[..nread])
        decreases |dgs| - nread
      {
        if nqueue >= QSIZE {
          return nread, true;
        }
        if nread == |dgs| {
          return nread, false;
        }
        Store(dgs[nread]);
        CutOneMore(dgs, nread);
        Regroup(got, CutAll(dgs[..nread]), [Cut(dgs[nread])]);
        Regroup(was, CutAll(dgs[..nread]), [Cut(dgs[nread])]);
        nread := nread + 1;
      }
    }

    /** sig_io.  It quits for a full queue exactly when one of its tests finds it full, and that
        test comes before recvfrom, so even when nothing more is there to be read. */
    method SigIo(b: Batch)
      requires Valid() && !quit
      modifies this`iput, this`nqueue, this`quit, this`received, this`ran, dg, cntread
      ensures Valid() && View() == Handle(old(View()), b)
    {
      ghost var q := Queue();
      var nread, full := Receive(b.dgs);
      FromTo(q, CutAll(b.dgs[..nread]), sentHead);
      ran := ran + [b];
      if full || b.error {
        quit := true;
        return;
      }
      cntread[nread] := cntread[nread] + 1;
    }

    /** The handler runs once for each batch, unless it ends the process. */
    method Signals(bs: seq<Batch>)
      requires Valid() && !quit
      modifies this`iput, this`nqueue, this`quit, this`received, this`ran, dg, cntread
      ensures Valid() && View() == HandleAll(old(View()), bs)
    {
      var i := 0;
      ghost var start := View();
      while i < |bs| && !quit
        invariant 0 <= i <= |bs| && Valid()
        invariant HandleAll(View(), bs[i..]) == HandleAll(start, bs)
      {
        SigIo(bs[i]);
        assert bs[i..][0] == bs[i] && bs[i..][1..] == bs[i + 1..];
        i := i + 1;
      }
    }

    /** sigsuspend until something is queued or no more signals come. */
    method Suspend(bs: seq<Batch>)
      requires Valid() && !quit && Settled()
      modifies this`iput, this`nqueue, this`quit, this`received, this`ran, dg, cntread
      ensures Valid() && View() == Suspended(old(View()), bs)
    {
      var i := 0;
      ghost var start := View();
      while nqueue == 0 && i < |bs| && !quit
        invariant 0 <= i <= |bs| && Valid()
        invariant Suspended(View(), bs[i..]) == Suspended(start, bs)
      {
        SigIo(bs[i]);
        assert bs[i..][0] == bs[i] && bs[i..][1..] == bs[i + 1..];
        i := i + 1;
      }
    }

    /** sendto, with the handler running before and during the call.  The slot holds the
        same datagram throughout. */
    method Send(before: seq<Batch>, during: seq<Batch>) returns (first: Dg, last: Dg)
      requires Valid() && !quit && Settled() && nqueue > 0 && Sound(View())
      modifies this`iput, this`nqueue, this`quit, this`received, this`ran, dg, cntread
      ensures Valid() && View() == HandleAll(HandleAll(old(View()), before), during)
      ensures first == last == dg[iget] == old(View().pending[0])
      ensures nqueue >= old(nqueue)
    {
      ghost var f := View();
      HandleAllKeeps(f, before);
      HandleAllKeeps(HandleAll(f, before), during);
      first, last := dg[iget], dg[iget];
      Signals(before);
      first, last := dg[iget], dg[iget];
      assert dg[iget] == View().pending[0];
      if quit { return; }
      Signals(during);
      last := dg[iget];
      assert dg[iget] == View().pending[0];
    }

    /** The datagram in the slot goes out to its sender. */
    method Echo()
      requires Valid() && !quit && Settled() && nqueue > 0
      modifies this`echoed, this`sentHead
      ensures Valid() && sentHead == 1 && View() == Echoed(old(View()))
    {
      echoed := echoed + [dg[iget]];
      sentHead := 1;
    }

    /** The step of `iget`, taken while the handler may still run: for the queue nothing changes. */
    method Advance()
      requires Valid() && sentHead == 1
      modifies this`iget, this`lag, this`sentHead
      ensures Valid() && lag == 1 && View() == old(View())
    {
      Get(dg[..], iget, Live());
      iget := iget + 1;
      if iget >= QSIZE {
        iget := 0;
      }
      lag, sentHead := 1, 0;
    }

    /** From the unblocking of SIGIO to the count: the oldest datagram is echoed, whatever the
        handler does meanwhile. */
    method Turnaround(t: Turn)
      requires Valid() && !quit && Settled() && nqueue > 0 && Sound(View())
      modifies this, dg, cntread
      ensures Valid() && View() == Served(old(View()), t)
      ensures !quit ==> Settled()
    {
      ServedKeeps(View(), t);
      var _, last := Send(t.before, t.during);
      if quit { return; }
      Finish(t.after, t.advanced);
    }

    method Finish(after: seq<Batch>, advanced: seq<Batch>)
      requires Valid() && !quit && Settled() && nqueue > 0
      modifies this, dg, cntread
      ensures Valid()
      ensures var h := HandleAll(HandleAll(Echoed(old(View())), after), advanced);
              View() == if h.quit then h else h.(busy := 0)
      ensures !quit ==> Settled()
    {
      Echo();
      Signals(after);
      if quit { return; }
      Advance();
      Signals(advanced);
      if quit { return; }
      nqueue := nqueue - 1;
      lag := 0;
    }

    /** One turn of the loop, which may find that no more signals come. */
    method Once(t: Turn)
      requires Valid() && !quit && Settled() && Sound(View())
      modifies this, dg, cntread
      ensures Valid() && View() == Turned(old(View()), t)
      ensures !quit ==> Settled()
    {
      SuspendedKeeps(View(), t.suspended);
      Suspend(t.suspended);
      if quit || nqueue == 0 { return; }
      Turnaround(t);
    }

    /** dg_echo, over any number of turns; `start` are signals before the first blocking. */
    method DgEcho(start: seq<Batch>, ts: seq<Turn>)
      requires Valid() && !quit && Settled() && View() == EMPTY
      modifies this, dg, cntread
      ensures Valid() && View() == Turns(HandleAll(EMPTY, start), ts)
      ensures Sound(View())
    {
      EmptyIsSound();
      HandleAllKeeps(EMPTY, start);
      Signals(start);
      Loop(ts);
    }

    /** The endless loop, for as long as the script goes. */
    method Loop(ts: seq<Turn>)
      requires Valid() && (!quit ==> Settled()) && Sound(View())
      modifies this, dg, cntread
      ensures Valid() && View() == Turns(old(View()), ts)
      ensures Sound(View())
    {
      var t := 0;
      ghost var f := View();
      while t < |ts| && !quit
        invariant 0 <= t <= |ts| && Valid() && (!quit ==> Settled())
        invariant Sound(View()) && Turns(View(), ts[t..]) == Turns(f, ts)
        decreases |ts| - t
      {
        Pass(ts, t);
        t := t + 1;
      }
    }

    method Pass(ts: seq<Turn>, t: nat)
      requires t < |ts| && Valid() && !quit && Settled() && Sound(View())
      modifies this, dg, cntread
      ensures Valid() && (!quit ==> Settled()) && Sound(View())
      ensures Turns(View(), ts[t + 1..]) == Turns(old(View()), ts[t..])
    {
      TurnedKeeps(View(), ts[t]);
      TurnsOn(View(), ts, t);
      Once(ts[t]);
    }
  }

  lemma CutOneMore(dgs: seq<Dg>, n: nat)
    requires n < |dgs|
    ensures CutAll(dgs[..n + 1]) == CutAll(dgs[..n]) + [Cut(dgs[n])]
  {}

  lemma FromTo(a: seq<Dg>, b: seq<Dg>, k: nat)
    requires k <= |a|
    ensures (a + b)[k..] == a[k..] + b
  {}
}
