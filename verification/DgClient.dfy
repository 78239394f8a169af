/**
 The reliable request and reply of rtt/dg_send_recv.c over an unreliable
 network, with the echo server of rtt/dg_echo.c as its peer.

 The network is a script of events, one for each thing that can end a blocking
 recvmsg.  An arrival names any transmission ever made, of this call or of an
 earlier one, any number of times and in any order, so all scripts together
 are all losses, duplications, delays and reorderings.
 */
module DgClient {
  import opened Common
  import opened Rtt

  const MAXLINE := 4096
  const HEADER := 8

  /** The header fields and the data behind them. */
  datatype Datagram = Datagram(seqno: nat, ts: nat, data: seq<Byte>)

  /** A datagram as it was sent, with the call it belongs to and the time in milliseconds. */
  datatype Transmission = Transmission(call: nat, at: nat, dg: Datagram)

  datatype Event =
    | Arrives(k: nat, now: nat)   // a copy of the server's echo of transmission number k
    | Runt(now: nat)              // a datagram shorter than the header
    | Alarm(now: nat)             // SIGALRM

  /** The time of an event. */
  function When(e: Event): nat {
    match e
    case Arrives(_, now) => now
    case Runt(now) => now
    case Alarm(now) => now
  }

  /** Time does not go back during a call, and the call takes less than 2^32 milliseconds. */
  ghost predicate Clock(now: nat, env: seq<Event>) {
    && (forall i :: 0 <= i < |env| ==> now <= When(env[i]) < now + UINT32)
    && (forall i, j :: 0 <= i < j < |env| ==> When(env[i]) <= When(env[j]))
  }

  datatype Reply = Received(data: seq<Byte>) | GaveUp | Blocked

  function Clip(bs: seq<Byte>, n: nat): seq<Byte> {
    bs[..Min(|bs|, n)]
  }

  /** dg_echo: what was received comes back, cut to the server's buffer. */
  function Echo(dg: Datagram): Datagram {
    dg.(data := Clip(dg.data, MAXLINE - HEADER))
  }

  /** The difference of two timestamps in 32 bits is the age in 32 bits. */
  lemma AgeOfTimestamp(now: nat, at: nat, base: int)
    ensures ((now - base) % UINT32 - (at - base) % UINT32) % UINT32 == (now - at) % UINT32
  {
    var x, y := now - base, at - base;
    var p, q := x / UINT32, y / UINT32;
    var d := x % UINT32 - y % UINT32;
    assert x - y == UINT32 * (p - q) + d;
    assert now - at == UINT32 * (p - q + d / UINT32) + d % UINT32;
  }

  /** What ends a call, and how many transmissions it has made by then. */
  datatype Fate = Answered(k: nat, when: nat, n: nat) | Expires(n: nat) | Waits(n: nat)

  function NumsOf(sent: seq<Transmission>): (nums: seq<nat>)
    ensures |nums| == |sent| && forall k :: 0 <= k < |sent| ==> nums[k] == sent[k].dg.seqno
  {
    seq(|sent|, k requires 0 <= k < |sent| => sent[k].dg.seqno)
  }

  /** The rest of a call from event `i` on, when the transmissions so far carry `nums` and `n` of
      them belong to the call: the first arrival that matches answers it, and every alarm but
      the fourth makes it transmit again. */
  function FateOf(env: seq<Event>, i: nat, nums: seq<nat>, seqno: nat, n: nat): Fate
    requires i <= |env|
    decreases |env| - i
  {
    if i == |env| then Waits(n)
    else match env[i]
      case Runt(_) => FateOf(env, i + 1, nums, seqno, n)
      case Arrives(k, now) =>
        if k < |nums| && nums[k] == seqno then Answered(k, now, n) else FateOf(env, i + 1, nums, seqno, n)
      case Alarm(_) =>
        if n >= 4 then Expires(n) else FateOf(env, i + 1, nums + [seqno], seqno, n + 1)
  }

  /** The alarms from event `i` up to event `j`. */
  function Alarms(env: seq<Event>, i: nat, j: nat): (n: nat)
    requires i <= j <= |env|
    decreases j - i
  {
    if i == j then 0 else (if env[i].Alarm? then 1 else 0) + Alarms(env, i + 1, j)
  }

  /** Event `l` is the echo of a transmission with this sequence number: of an earlier one, or of
      one that an alarm since event `i` has caused. */
  predicate Answers(env: seq<Event>, i: nat, l: nat, nums: seq<nat>, seqno: nat)
    requires i <= l < |env|
  {
    && env[l].Arrives?
    && env[l].k < |nums| + Alarms(env, i, l)
    && (env[l].k < |nums| ==> nums[env[l].k] == seqno)
  }

  ghost predicate NoAnswer(env: seq<Event>, i: nat, j: nat, nums: seq<nat>, seqno: nat)
    requires i <= j <= |env|
  {
    forall l :: i <= l < j ==> !Answers(env, i, l, nums, seqno)
  }

  lemma AnswersLater(env: seq<Event>, i: nat, l: nat, nums: seq<nat>, seqno: nat)
    requires i < l < |env|
    ensures Answers(env, i, l, nums, seqno) <==>
            Answers(env, i + 1, l, if env[i].Alarm? then nums + [seqno] else nums, seqno)
  {}

  lemma NoAnswerBefore(env: seq<Event>, i: nat, j: nat, nums: seq<nat>, seqno: nat)
    requires i < j <= |env| && !Answers(env, i, i, nums, seqno)
    requires NoAnswer(env, i + 1, j, if env[i].Alarm? then nums + [seqno] else nums, seqno)
    ensures NoAnswer(env, i, j, nums, seqno)
  {
    forall l | i <= l < j ensures !Answers(env, i, l, nums, seqno) {
      if i < l {
        AnswersLater(env, i, l, nums, seqno);
      }
    }
  }

  /** Event `j` ends the call: the first answer, if not more than three alarms come before it, or
      else the fourth alarm; without either the script ends first. */
  ghost predicate Ended(f: Fate, env: seq<Event>, i: nat, j: nat, nums: seq<nat>, seqno: nat, n: nat)
    requires i <= j <= |env|
  {
    && NoAnswer(env, i, j, nums, seqno)
    && f.n == n + Alarms(env, i, j) <= 4
    && match f
       case Answered(k, when, _) => j < |env| && env[j] == Arrives(k, when) && Answers(env, i, j, nums, seqno)
       case Expires(_) => j < |env| && env[j].Alarm? && f.n == 4
       case Waits(_) => j == |env|
  }

  lemma {:induction false} FateMeans(env: seq<Event>, i: nat, nums: seq<nat>, seqno: nat, n: nat) returns (j: nat)
    requires i <= |env| && 1 <= n <= 4
    ensures i <= j <= |env| && Ended(FateOf(env, i, nums, seqno, n), env, i, j, nums, seqno, n)
    decreases |env| - i
  {
    if i == |env| || (env[i].Alarm? && n == 4) || Answers(env, i, i, nums, seqno) {
      return i;
    }
    var more := if env[i].Alarm? then nums + [seqno] else nums;
    var m := if env[i].Alarm? then n + 1 else n;
    j := FateMeans(env, i + 1, more, seqno, m);
    NoAnswerBefore(env, i, j, nums, seqno);
    if j < |env| {
      AnswersLater(env, i, j, nums, seqno);
    }
  }

  datatype Wake = Match(k: nat, now: nat) | Expired(now: nat) | Nothing

  /** What the receive loop leaves open when it is left with `wake`. */
  function AfterWake(env: seq<Event>, i: nat, wake: Wake, nums: seq<nat>, seqno: nat, n: nat): Fate
    requires i <= |env|
  {
    match wake
    case Nothing => Waits(n)
    case Match(k, now) => Answered(k, now, n)
    case Expired(_) => if n >= 4 then Expires(n) else FateOf(env, i, nums + [seqno], seqno, n + 1)
  }

  class Client {
    const info: RttInfo
    var rttinit: bool
    var seqno: nat
    var calls: nat                  // how many calls there have been, which the network's record counts
    var sent: seq<Transmission>     // all the network has been given
    ghost var samples: seq<real>    // history: the RTTs measured since the last rtt_init
    ghost var alarms: seq<int>      // history: the alarms the latest call has set

    constructor ()
      ensures Valid() && fresh(info) && calls == 0 && sent == [] && samples == []
    {
      info := new RttInfo();
      rttinit, seqno := false, 0;
      calls, sent, samples, alarms := 0, [], [], [];
    }

    /** The estimators are those of the samples. */
    ghost predicate Estimating()
      reads this, info
    {
      && info.Estimated() == After(INITIAL, samples)
      && forall i :: 0 <= i < |samples| ==> samples[i] >= 0.0
    }

    /** Over any history of calls the estimators stay within the samples, and the next time-out
        within its limits. */
    lemma Bounded(largest: real)
      requires Valid() && rttinit && largest >= 0.0
      requires forall i :: 0 <= i < |samples| ==> samples[i] <= largest
      ensures 0.0 <= info.srtt <= largest
      ensures 0.0 <= info.rttvar <= if largest > 0.75 then largest else 0.75
      ensures RXTMIN <= info.rto <= RXTMAX
    {
      EstimatesStayBounded(samples, largest);
    }

    /** Every transmission carries the number of its call, in 32 bits. */
    ghost predicate Numbered()
      reads this
    {
      && seqno == calls % UINT32
      && forall k :: 0 <= k < |sent| ==> sent[k].call <= calls && sent[k].dg.seqno == sent[k].call % UINT32
    }

    ghost predicate Valid()
      reads this, info
    {
      Numbered() && (rttinit ==> Estimating() && info.rto == info.Estimated().Rto())
    }

    /** The time-out with which the next request starts. */
    ghost function FirstRto(): real
      reads this, info
    {
      if rttinit then info.rto else 3.0
    }

    /** The blocking receive loop: runts and other sequence numbers are passed over. */
    method Await(env: seq<Event>, start: nat, ghost n: nat) returns (wake: Wake, i: nat)
      requires start <= |env|
      ensures start <= i <= |env|
      ensures wake.Match? ==> wake.k < |sent| && sent[wake.k].dg.seqno == seqno
      ensures wake.Match? ==> i > start && env[i - 1] == Arrives(wake.k, wake.now)
      ensures wake.Expired? ==> i > start && env[i - 1] == Alarm(wake.now)
      ensures wake.Nothing? ==> i == |env|
      ensures forall j :: start <= j < (if wake.Nothing? then i else i - 1) ==>
                && !env[j].Alarm?
                && (env[j].Arrives? && env[j].k < |sent| ==> sent[env[j].k].dg.seqno != seqno)
      ensures FateOf(env, start, NumsOf(sent), seqno, n) == AfterWake(env, i, wake, NumsOf(sent), seqno, n)
    {
      i := start;
      while i < |env|
        invariant start <= i <= |env|
        invariant FateOf(env, i, NumsOf(sent), seqno, n) == FateOf(env, start, NumsOf(sent), seqno, n)
        invariant forall j :: start <= j < i ==>
                    && !env[j].Alarm?
                    && (env[j].Arrives? && env[j].k < |sent| ==> sent[env[j].k].dg.seqno != seqno)
      {
        i := i + 1;
        match env[i - 1]
        case Alarm(now) =>
          return Expired(now), i;
        case Runt(_) =>
        case Arrives(k, now) =>
          if k < |sent| && Echo(sent[k].dg).seqno == seqno {
            return Match(k, now), i;
          }
      }
      return Nothing, i;
    }

    /** A transmission of the current call, stamped with the base the current call uses. */
    ghost predicate OwnTransmission(t: Transmission, outbuff: seq<Byte>)
      reads this, info
    {
      t.call == calls && t.dg == Datagram(seqno, info.Ts(t.at), outbuff)
    }

    /** Inside a call that began with time-out `first` when `before` had been sent, and that
        has made `n` transmissions. */
    ghost predicate InCall(first: real, before: seq<Transmission>, outbuff: seq<Byte>, n: int)
      reads this, info
    {
      && Numbered() && rttinit && Estimating()
      && 0 <= n <= 4 && |alarms| == n && alarms == Timeouts(first)[..n]
      && before <= sent && |sent| == |before| + n
      && (forall j :: 0 <= j < |before| ==> sent[j].call < calls)
      && (forall j :: |before| <= j < |sent| ==> OwnTransmission(sent[j], outbuff))
    }

    /** One transmission: the timestamp, the datagram and the alarm. */
    method Transmit(outbuff: seq<Byte>, now: nat, ghost first: real, ghost before: seq<Transmission>, ghost n: int)
      requires InCall(first, before, outbuff, n) && n <= 3 && info.rto == Timeout(first, n)
      modifies this`sent, this`alarms
      ensures InCall(first, before, outbuff, n + 1)
      ensures |sent| == |old(sent)| + 1 && sent[..|old(sent)|] == old(sent) && sent[|old(sent)|].at == now
    {
      sent := sent + [Transmission(calls, now, Datagram(seqno, info.Ts(now), outbuff))];
      alarms := alarms + [info.Start()];
    }

    /** The reply to transmission `m` has arrived at time `t`: a new sample for the estimator. */
    method Accept(m: nat, t: nat, ghost outbuff: seq<Byte>)
      requires m < |sent| && Estimating()
      modifies info`rtt, info`srtt, info`rttvar, info`rto, this`samples
      ensures Estimating() && info.rto == info.Estimated().Rto() && samples == old(samples) + [info.rtt]
      ensures old(OwnTransmission(sent[m], outbuff)) ==>
                info.rtt == ((t - sent[m].at) % UINT32) as real / 1000.0
    {
      AgeOfTimestamp(t, sent[m].at, 1000 * info.base);
      info.Stop((info.Ts(t) - Echo(sent[m].dg).ts) % UINT32);
      ghost var was := samples;
      samples := samples + [info.rtt];
      assert samples[..|samples| - 1] == was;
    }

    /** The start of a call: the estimator is initialized when it has to be, and the call gets
        the next sequence number. */
    method Begin(outbuff: seq<Byte>, now: nat)
      requires Valid()
      modifies this, info
      ensures sent == old(sent) && calls == old(calls) + 1
      ensures samples == if old(rttinit) then old(samples) else []
      ensures info.rto == old(FirstRto()) && info.nrexmt == 0
      ensures RXTMIN <= info.rto <= RXTMAX
      ensures InCall(info.rto, sent, outbuff, 0)
    {
      if !rttinit {
        info.Init(now);
        rttinit := true;
        samples := [];
      }
      seqno := (seqno + 1) % UINT32;
      calls := calls + 1;
      alarms := [];
      info.NewPack();
    }

    /** What a call leaves behind: its transmissions and its alarms. */
    ghost predicate Called(first: real, before: seq<Transmission>, outbuff: seq<Byte>)
      reads this
    {
      && before <= sent && |sent| - |before| == |alarms|
      && (forall j :: |before| <= j < |sent| ==> sent[j].call == calls && sent[j].dg.data == outbuff)
      && 1 <= |alarms| <= 4 && alarms == Timeouts(first)[..|alarms|]
    }

    /** The transmissions of the call were made between `now` and `time`. */
    ghost predicate Stamped(before: seq<Transmission>, now: nat, time: nat)
      reads this
    {
      now <= time && forall j :: |before| <= j < |sent| ==> now <= sent[j].at <= time
    }

    /** The sample is exactly the age of transmission `k`. */
    ghost predicate ExactAge(k: nat, when: nat)
      reads this, info
    {
      k < |sent| && sent[k].at <= when && info.rtt == (when - sent[k].at) as real / 1000.0
    }

    /** What is known of the reply to transmission `k` of this call. */
    ghost predicate OwnReply(k: nat, when: nat, before: seq<Transmission>, exact: bool)
      reads this, info
    {
      && |before| <= k < |sent| && info.rtt == ((when - sent[k].at) % UINT32) as real / 1000.0
      && (exact ==> ExactAge(k, when))
    }

    lemma AgeIsExact(k: nat, when: nat, before: seq<Transmission>, now: nat, time: nat)
      requires |before| <= k < |sent| && info.rtt == ((when - sent[k].at) % UINT32) as real / 1000.0
      requires Stamped(before, now, time) && time <= when < now + UINT32
      ensures ExactAge(k, when)
    {
      assert 0 <= when - sent[k].at < UINT32;
    }

    /** If the clock is sound, so are the times of the call so far. */
    ghost predicate Timely(env: seq<Event>, i: nat, before: seq<Transmission>, now: nat, time: nat)
      reads this
    {
      Clock(now, env) ==> Stamped(before, now, time) && forall j :: i <= j < |env| ==> time <= When(env[j])
    }

    /** What a call that ends with `r` has done. */
    ghost predicate Ends(r: Reply, k: nat, when: nat, inbytes: nat, before: seq<Transmission>, was: seq<real>,
                         exact: bool)
      reads this, info
    {
      && (!r.Blocked? ==> Valid())
      && (r.GaveUp? ==> |alarms| == 4 && !rttinit)
      && (r.Received? ==>
            && rttinit && k < |sent| && samples == was + [info.rtt]
            && r.data == Clip(Echo(sent[k].dg).data, inbytes)
            && sent[k].call % UINT32 == calls % UINT32
            && (sent[k].call == calls ==> OwnReply(k, when, before, exact)))
    }

    /** The call has ended as it was to end. */
    ghost predicate Fated(f: Fate, r: Reply, k: nat, when: nat)
      reads this
    {
      && |alarms| == f.n
      && match f
         case Answered(m, t, _) => r.Received? && k == m && when == t
         case Expires(_) => r.GaveUp?
         case Waits(_) => r.Blocked?
    }

    /** The fate of the call from event `i` on, once it has transmitted again. */
    ghost function Ahead(env: seq<Event>, i: nat, n: nat): Fate
      requires i <= |env|
      reads this
    {
      FateOf(env, i, NumsOf(sent) + [seqno], seqno, n)
    }

    /** A reply that matches. */
    method Take(m: nat, t: nat, ghost outbuff: seq<Byte>, inbytes: nat,
                ghost first: real, ghost before: seq<Transmission>, ghost now: nat, ghost time: nat, ghost exact: bool)
      returns (r: Reply)
      requires InCall(first, before, outbuff, |alarms|) && m < |sent| && sent[m].dg.seqno == seqno
      requires exact ==> Stamped(before, now, time) && time <= t < now + UINT32
      modifies info`rtt, info`srtt, info`rttvar, info`rto, this`samples
      ensures r.Received? && Ends(r, m, t, inbytes, before, old(samples), exact)
    {
      Accept(m, t, outbuff);
      if exact && sent[m].call == calls {
        AgeIsExact(m, t, before, now, time);
      }
      r := Received(Clip(Echo(sent[m].dg).data, inbytes));
    }

    /** The alarm has gone off: the next transmission, unless there have been enough. */
    method Expire(ghost outbuff: seq<Byte>, ghost first: real, ghost before: seq<Transmission>) returns (giveUp: bool)
      requires InCall(first, before, outbuff, info.nrexmt + 1) && 0 <= info.nrexmt <= 3
      requires info.rto == Timeout(first, info.nrexmt)
      modifies this`rttinit, info`rto, info`nrexmt
      ensures giveUp <==> |alarms| == 4
      ensures giveUp ==> !rttinit && Numbered()
      ensures !giveUp ==>
                && InCall(first, before, outbuff, info.nrexmt) && info.nrexmt == old(info.nrexmt) + 1 <= 3
                && info.rto == Timeout(first, info.nrexmt)
    {
      var rc := info.Timeout();
      giveUp := rc < 0;
      if giveUp {
        rttinit := false;
      }
    }

    lemma IsCalled(first: real, before: seq<Transmission>, outbuff: seq<Byte>, n: int)
      requires InCall(first, before, outbuff, n) && n >= 1
      ensures Called(first, before, outbuff)
    {}

    lemma StillTimely(env: seq<Event>, i0: nat, i: nat, before: seq<Transmission>, now: nat, time: nat, t: nat)
      requires Timely(env, i0, before, now, time) && i0 < i <= |env| && t == When(env[i - 1])
      ensures Timely(env, i, before, now, t)
      ensures Clock(now, env) ==> Stamped(before, now, time) && time <= t < now + UINT32
    {}

    /** What comes of a transmission; no result means that it is time for the next one. */
    method Conclude(wake: Wake, ghost outbuff: seq<Byte>, inbytes: nat, ghost now: nat, ghost env: seq<Event>,
                    ghost i0: nat, ghost i: nat, time0: nat, ghost first: real, ghost before: seq<Transmission>)
      returns (r: Option<Reply>, time: nat, ghost k: nat, ghost when: nat)
      requires InCall(first, before, outbuff, info.nrexmt + 1) && 0 <= info.nrexmt <= 3
      requires info.rto == Timeout(first, info.nrexmt)
      requires Timely(env, i0, before, now, time0)
      requires wake.Match? ==>
                 && wake.k < |sent| && sent[wake.k].dg.seqno == seqno
                 && i0 < i <= |env| && wake.now == When(env[i - 1])
      requires wake.Expired? ==> i0 < i <= |env| && wake.now == When(env[i - 1])
      modifies this`samples, this`rttinit, info
      ensures r.None? ==>
                && InCall(first, before, outbuff, info.nrexmt) && info.nrexmt == old(info.nrexmt) + 1 <= 3
                && info.rto == Timeout(first, info.nrexmt) && samples == old(samples)
                && Timely(env, i, before, now, time)
      ensures r.Some? ==> Ends(r.value, k, when, inbytes, before, old(samples), Clock(now, env))
      ensures r.None? <==> wake.Expired? && |alarms| < 4
      ensures r.Some? ==> Fated(AfterWake(env, |env|, wake, NumsOf(sent), seqno, |alarms|), r.value, k, when)
    {
      k, when, time := 0, 0, time0;
      match wake
      case Nothing =>
        r := Some(Blocked);
      case Match(m, t) =>
        k, when := m, t;
        StillTimely(env, i0, i, before, now, time, t);
        var reply := Take(m, t, outbuff, inbytes, first, before, now, time, Clock(now, env));
        r := Some(reply);
      case Expired(t) =>
        StillTimely(env, i0, i, before, now, time, t);
        time := t;
        var giveUp := Expire(outbuff, first, before);
        r := if giveUp then Some(GaveUp) else None;
    }

    /** One transmission and the wait for what comes of it. */
    method Try(outbuff: seq<Byte>, inbytes: nat, ghost now: nat, env: seq<Event>, i0: nat, time0: nat,
               ghost first: real, ghost before: seq<Transmission>)
      returns (r: Option<Reply>, i: nat, time: nat, ghost k: nat, ghost when: nat)
      requires InCall(first, before, outbuff, info.nrexmt)
      requires info.nrexmt <= 3 && info.rto == Timeout(first, info.nrexmt)
      requires i0 <= |env| && Timely(env, i0, before, now, time0)
      modifies this, info
      ensures calls == old(calls) && i0 <= i <= |env| && Called(first, before, outbuff)
      ensures r.None? ==>
                && InCall(first, before, outbuff, info.nrexmt) && info.nrexmt == old(info.nrexmt) + 1 <= 3
                && info.rto == Timeout(first, info.nrexmt) && samples == old(samples)
                && Timely(env, i, before, now, time)
                && Ahead(env, i, info.nrexmt + 1) == old(Ahead(env, i0, info.nrexmt + 1))
      ensures r.Some? ==> Ends(r.value, k, when, inbytes, before, old(samples), Clock(now, env))
      ensures r.Some? ==> Fated(old(Ahead(env, i0, info.nrexmt + 1)), r.value, k, when)
    {
      ghost var n := info.nrexmt + 1;
      Transmit(outbuff, time0, first, before, info.nrexmt);
      IsCalled(first, before, outbuff, info.nrexmt + 1);
      assert Timely(env, i0, before, now, time0);
      assert NumsOf(sent) == NumsOf(old(sent)) + [seqno];
      var wake;
      wake, i := Await(env, i0, n);
      r, time, k, when := Conclude(wake, outbuff, inbytes, now, env, i0, i, time0, first, before);
    }

    /** Transmissions until a reply arrives, the alarms run out or the script ends. */
    method Exchange(outbuff: seq<Byte>, inbytes: nat, now: nat, env: seq<Event>,
                    ghost first: real, ghost before: seq<Transmission>)
      returns (r: Reply, ghost k: nat, ghost when: nat)
      requires InCall(first, before, outbuff, 0) && info.nrexmt == 0 && info.rto == first
      modifies this, info
      ensures calls == old(calls) && Called(first, before, outbuff)
      ensures Ends(r, k, when, inbytes, before, old(samples), Clock(now, env))
      ensures Fated(old(Ahead(env, 0, 1)), r, k, when)
    {
      k, when := 0, 0;
      var i: nat, time: nat := 0, now;
      while true
        invariant 0 <= i <= |env| && calls == old(calls) && samples == old(samples)
        invariant InCall(first, before, outbuff, info.nrexmt)
        invariant info.nrexmt <= 3 && info.rto == Timeout(first, info.nrexmt)
        invariant Timely(env, i, before, now, time)
        invariant Ahead(env, i, info.nrexmt + 1) == old(Ahead(env, 0, 1))
        decreases MAXNREXMT - info.nrexmt
      {
        var reply;
        reply, i, time, k, when := Try(outbuff, inbytes, now, env, i, time, first, before);
        if reply.Some? {
          return reply.value, k, when;
        }
      }
    }

    /** dg_send_recv, called at time `now`.  A reply is the echo of transmission `k`, which
        arrived at time `when`. */
    method SendRecv(outbuff: seq<Byte>, inbytes: nat, now: nat, env: seq<Event>)
      returns (r: Reply, ghost k: nat, ghost when: nat)
      requires Valid()
      modifies this, info
      ensures RXTMIN <= old(FirstRto()) <= RXTMAX
      ensures calls == old(calls) + 1 && Called(old(FirstRto()), old(sent), outbuff)
      ensures Ends(r, k, when, inbytes, old(sent), old(if rttinit then samples else []), Clock(now, env))
      ensures Fated(FateOf(env, 0, NumsOf(old(sent)) + [calls % UINT32], calls % UINT32, 1), r, k, when)
      ensures r.Received? && sent[k].call == calls ==>
                r.data <= outbuff && |r.data| == Min(|outbuff|, Min(4088, inbytes))
      ensures r.Received? && calls < UINT32 ==> sent[k].call == calls
    {
      Begin(outbuff, now);
      r, k, when := Exchange(outbuff, inbytes, now, env, info.rto, sent);
      if r.Received? {
        ClipTwice(sent[k].dg.data, MAXLINE - HEADER, inbytes);
        SameNumber(sent[k].call, calls);
      }
    }
  }

  lemma ClipTwice(bs: seq<Byte>, m: nat, n: nat)
    ensures Clip(Clip(bs, m), n) == Clip(bs, Min(m, n))
  {}

  lemma SameNumber(a: nat, b: nat)
    requires a <= b && a % UINT32 == b % UINT32
    ensures b < UINT32 ==> a == b
  {}

  /** The time-out after `n` expirations. */
  function Timeout(r: real, n: int): real {
    if n <= 0 then r else if n == 1 then 2.0 * r else if n == 2 then 4.0 * r else 8.0 * r
  }
}
