/**
 The round-trip-time estimator of lib/rtt.c.  The C floats are modelled by
 real numbers: rounding is not part of the model.
 */
module Rtt {
  const RXTMIN := 2.0
  const RXTMAX := 60.0
  const MAXNREXMT := 3
  const UINT32 := 0x1_0000_0000

  function MinMax(rto: real): (r: real)
    ensures RXTMIN <= r <= RXTMAX
  {
    if rto < RXTMIN then RXTMIN else if rto > RXTMAX then RXTMAX else rto
  }

  /** Inside the limits nothing changes, and outside it is the limit on that side. */
  lemma MinMaxIs(x: real)
    ensures 2.0 <= x <= 60.0 ==> MinMax(x) == x
    ensures x < 2.0 ==> MinMax(x) == 2.0
    ensures x > 60.0 ==> MinMax(x) == 60.0
  {}

  function Abs(x: real): real {
    if x < 0.0 then -x else x
  }

  /** The two estimators: smoothed RTT and smoothed mean deviation, in seconds. */
  datatype Estimate = Estimate(srtt: real, rttvar: real) {
    function Rto(): real {
      MinMax(srtt + 4.0 * rttvar)
    }

    /** One measured RTT, with the gains 1/8 and 1/4 of Jacobson's algorithm. */
    function Measured(sample: real): Estimate {
      var delta := sample - srtt;
      Estimate(srtt + delta / 8.0, rttvar + (Abs(delta) - rttvar) / 4.0)
    }
  }

  const INITIAL := Estimate(0.0, 0.75)

  /** The estimate after a history of samples. */
  function After(e: Estimate, samples: seq<real>): Estimate
    decreases |samples|
  {
    if samples == [] then e else After(e, samples[..|samples| - 1]).Measured(samples[|samples| - 1])
  }

  // ------------------------------------------------------------- the struct

  /** (int)(x + 0.5) for a positive x. */
  function Round(x: real): int {
    (x + 0.5).Floor
  }

  class RttInfo {
    var rtt: real
    var srtt: real
    var rttvar: real
    var rto: real
    var nrexmt: int
    var base: nat

    ghost function Estimated(): Estimate
      reads this
    {
      Estimate(srtt, rttvar)
    }

    /** What holds between requests: the time-out is computed from the estimators. */
    ghost predicate Settled()
      reads this
    {
      rto == Estimated().Rto() && srtt >= 0.0 && rttvar >= 0.0
    }

    constructor ()
      ensures Estimated() == INITIAL
    {
      rtt, srtt, rttvar, rto, nrexmt, base := 0.0, 0.0, 0.75, 3.0, 0, 0;
    }

    /** `now` is the time in milliseconds; the base is kept in seconds, in 32 bits. */
    method Init(now: nat)
      modifies this
      ensures Settled() && Estimated() == INITIAL && rto == 3.0 && rtt == 0.0
      ensures srtt == 0.0 && rttvar == 0.75
      ensures base == now / 1000 % UINT32 && nrexmt == old(nrexmt)
    {
      base := now / 1000 % UINT32;
      rtt, srtt, rttvar := 0.0, 0.0, 0.75;
      rto := MinMax(srtt + 4.0 * rttvar);
    }

    /** Milliseconds since the base, in 32 bits. */
    function Ts(now: nat): (ts: nat)
      reads this
      ensures ts < UINT32
      ensures ts == (now - 1000 * base) % UINT32
    {
      ((now / 1000 - base) * 1000 + now % 1000) % UINT32
    }

    method NewPack()
      modifies this`nrexmt
      ensures nrexmt == 0
    {
      nrexmt := 0;
    }

    function Start(): (seconds: int)
      reads this
      ensures rto - 0.5 < seconds as real <= rto + 0.5
    {
      Round(rto)
    }

    method Stop(ms: nat)
      modifies this`rtt, this`srtt, this`rttvar, this`rto
      ensures rtt == ms as real / 1000.0
      ensures Estimated() == old(Estimated()).Measured(rtt)
      ensures rto == Estimated().Rto()
      ensures 2.0 <= srtt + 4.0 * rttvar <= 60.0 ==> rto == srtt + 4.0 * rttvar
      ensures srtt + 4.0 * rttvar < 2.0 ==> rto == 2.0
      ensures srtt + 4.0 * rttvar > 60.0 ==> rto == 60.0
      ensures 8.0 * (srtt - old(srtt)) == rtt - old(srtt)
      ensures rtt >= old(srtt) ==> 4.0 * (rttvar - old(rttvar)) == rtt - old(srtt) - old(rttvar)
      ensures rtt <= old(srtt) ==> 4.0 * (rttvar - old(rttvar)) == old(srtt) - rtt - old(rttvar)
      ensures old(srtt) >= 0.0 && old(rttvar) >= 0.0 ==> Settled()
    {
      rtt := ms as real / 1000.0;
      var delta := rtt - srtt;
      srtt := srtt + delta / 8.0;
      if delta < 0.0 {
        delta := -delta;
      }
      rttvar := rttvar + (delta - rttvar) / 4.0;
      rto := MinMax(srtt + 4.0 * rttvar);
    }

    method Timeout() returns (rc: int)
      modifies this`rto, this`nrexmt
      ensures rto == 2.0 * old(rto) && nrexmt == old(nrexmt) + 1
      ensures rc == if nrexmt > MAXNREXMT then -1 else 0
    {
      rto := rto * 2.0;
      nrexmt := nrexmt + 1;
      rc := if nrexmt > MAXNREXMT then -1 else 0;
    }
  }

  // --------------------------------------------------------------- theorems

  /** Over any history the smoothed RTT stays between zero and the largest sample, and the
      deviation between zero and the largest sample or its initial value. */
  lemma {:induction false} EstimatesStayBounded(samples: seq<real>, largest: real)
    requires largest >= 0.0
    requires forall i :: 0 <= i < |samples| ==> 0.0 <= samples[i] <= largest
    ensures var e := After(INITIAL, samples);
            && 0.0 <= e.srtt <= largest
            && 0.0 <= e.rttvar <= (if largest > 0.75 then largest else 0.75)
            && RXTMIN <= e.Rto() <= RXTMAX
  {
    if samples != [] {
      EstimatesStayBounded(samples[..|samples| - 1], largest);
    }
  }

  /** Over any history the time-out is the smoothed RTT and four times the deviation, within limits. */
  lemma TimeoutOfHistory(samples: seq<real>)
    ensures var e := After(INITIAL, samples);
            var x := e.srtt + 4.0 * e.rttvar;
            && (2.0 <= x <= 60.0 ==> e.Rto() == x)
            && (x < 2.0 ==> e.Rto() == 2.0)
            && (x > 60.0 ==> e.Rto() == 60.0)
  {
    var e := After(INITIAL, samples);
    MinMaxIs(e.srtt + 4.0 * e.rttvar);
  }

  function Pow(b: real, n: nat): real {
    if n == 0 then 1.0 else Pow(b, n - 1) * b
  }

  function Same(r: real, n: nat): (s: seq<real>)
    ensures |s| == n
  {
    seq(n, _ => r)
  }

  /** After `n` equal samples the error has shrunk by exactly (7/8)^n. */
  lemma {:induction false} EqualSamplesConverge(e: Estimate, r: real, n: nat)
    ensures After(e, Same(r, n)).srtt - r == (e.srtt - r) * Pow(0.875, n)
  {
    if n > 0 {
      EqualSamplesConverge(e, r, n - 1);
      assert Same(r, n)[..n - 1] == Same(r, n - 1);
      var err, p := e.srtt - r, Pow(0.875, n - 1);
      assert err * p * 0.875 == err * (p * 0.875);
    }
  }

  lemma {:induction false} PowPositive(b: real, n: nat)
    requires b > 0.0
    ensures Pow(b, n) > 0.0
  {
    if n > 0 {
      PowPositive(b, n - 1);
    }
  }

  lemma AbsProduct(x: real, p: real)
    requires p > 0.0
    ensures Abs(x * p) == Abs(x) * p
  {
    if x < 0.0 {
      assert (-x) * p == -(x * p);
    }
  }

  /** A deviation that started at `v` while the error started at `a`. */
  function Decayed(v: real, a: real, p: real, q: real): real {
    v * p + 2.0 * (a * q) - 2.0 * (a * p)
  }

  lemma DecayStep(v: real, a: real, p: real, q: real)
    ensures 0.75 * Decayed(v, a, p, q) + 0.25 * (a * q) == Decayed(v, a, p * 0.75, q * 0.875)
  {
    assert v * (p * 0.75) == 0.75 * (v * p);
    assert a * (p * 0.75) == 0.75 * (a * p);
    assert a * (q * 0.875) == 0.875 * (a * q);
  }

  lemma MeasuredDeviation(d: Estimate, r: real, v: real, err: real, p: real, q: real, p': real, q': real)
    requires d.rttvar == Decayed(v, Abs(err), p, q) && d.srtt - r == err * q && q > 0.0
    requires p' == p * 0.75 && q' == q * 0.875
    ensures d.Measured(r).rttvar == Decayed(v, Abs(err), p', q')
  {
    AbsProduct(err, q);
    DecayStep(v, Abs(err), p, q);
  }

  lemma OneMoreSame(e: Estimate, r: real, n: nat)
    requires n > 0
    ensures After(e, Same(r, n)) == After(e, Same(r, n - 1)).Measured(r)
  {
    assert Same(r, n)[..n - 1] == Same(r, n - 1);
  }

  lemma PowStep(b: real, n: nat)
    requires n > 0
    ensures Pow(b, n) == Pow(b, n - 1) * b
  {}

  /** The deviation after `n` equal samples. */
  function DeviationAt(e: Estimate, r: real, n: nat): real {
    Decayed(e.rttvar, Abs(e.srtt - r), Pow(0.75, n), Pow(0.875, n))
  }

  lemma DeviationAtStart(e: Estimate, r: real)
    ensures DeviationAt(e, r, 0) == e.rttvar
  {
    assert Pow(0.75, 0) == 1.0 && Pow(0.875, 0) == 1.0;
  }

  lemma DeviationOn(e: Estimate, r: real, n: nat, d: Estimate)
    requires n > 0 && d.rttvar == DeviationAt(e, r, n - 1) && d.srtt - r == (e.srtt - r) * Pow(0.875, n - 1)
    ensures d.Measured(r).rttvar == DeviationAt(e, r, n)
  {
    PowPositive(0.875, n - 1);
    PowStep(0.75, n);
    PowStep(0.875, n);
    MeasuredDeviation(d, r, e.rttvar, e.srtt - r, Pow(0.75, n - 1), Pow(0.875, n - 1), Pow(0.75, n), Pow(0.875, n));
  }

  /** ... and the deviation decays to nothing: by (3/4)^n from where it stood, with twice the
      first error spread over (7/8)^n - (3/4)^n. */
  lemma {:induction false} EqualSamplesDeviation(e: Estimate, r: real, n: nat)
    ensures After(e, Same(r, n)).rttvar == DeviationAt(e, r, n)
  {
    if n == 0 {
      DeviationAtStart(e, r);
    } else {
      EqualSamplesDeviation(e, r, n - 1);
      EqualSamplesConverge(e, r, n - 1);
      OneMoreSame(e, r, n);
      DeviationOn(e, r, n, After(e, Same(r, n - 1)));
    }
  }

  /** The four timeouts r, 2r, 4r and 8r of one request, as whole seconds. */
  function Timeouts(r: real): seq<int> {
    [Round(r), Round(2.0 * r), Round(4.0 * r), Round(8.0 * r)]
  }

  /** Giving up takes between 30 and 900 seconds, and the alarm is never set to zero. */
  lemma TotalWait(r: real)
    requires RXTMIN <= r <= RXTMAX
    ensures var t := Timeouts(r);
            && 30 <= t[0] + t[1] + t[2] + t[3] <= 900
            && (forall i :: 0 <= i < 4 ==> t[i] >= 2)
            && r - 0.5 < t[0] as real <= r + 0.5 && 2.0 * r - 0.5 < t[1] as real <= 2.0 * r + 0.5
            && 4.0 * r - 0.5 < t[2] as real <= 4.0 * r + 0.5 && 8.0 * r - 0.5 < t[3] as real <= 8.0 * r + 0.5
  {
    RoundMonotone(2.0, r);
    RoundMonotone(4.0, 2.0 * r);
    RoundMonotone(8.0, 4.0 * r);
    RoundMonotone(16.0, 8.0 * r);
    RoundMonotone(r, 60.0);
    RoundMonotone(2.0 * r, 120.0);
    RoundMonotone(4.0 * r, 240.0);
    RoundMonotone(8.0 * r, 480.0);
  }

  lemma RoundMonotone(x: real, y: real)
    requires x <= y
    ensures Round(x) <= Round(y)
  {}
}
