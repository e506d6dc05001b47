/** The retransmission-timeout estimator in 32-bit integer arithmetic (section 2 of RFC 6298). */
module Rto {
  const RTO_MIN: nat := 200
  const RTO_MAX: nat := 60000
  const RTO_INITIAL: nat := 1000
  const TICK: nat := 0x1_0000_0000

  datatype Est = Est(rto: nat, srtt: nat, rttvar: nat)

  function Gap(a: nat, b: nat): nat { if a > b then a - b else b - a }

  function Clamp(x: nat): nat { if x < RTO_MIN then RTO_MIN else if x > RTO_MAX then RTO_MAX else x }

  /** srtt and rttvar after one measurement. */
  function Smooth(e: Est, rtt: nat): (nat, nat) {
    if e.srtt == 0 then (rtt, rtt / 2)
    else ((7 * e.srtt + rtt) / 8, (3 * e.rttvar + Gap(rtt, e.srtt)) / 4)
  }

  function Update(e: Est, rtt: nat): Est {
    var r := Smooth(e, rtt);
    Est(Clamp(r.0 + 4 * r.1), r.0, r.1)
  }

  const INITIAL := Est(RTO_INITIAL, 0, 0)

  function After(e: Est, samples: seq<nat>): Est {
    if samples == [] then e else Update(After(e, samples[..|samples| - 1]), samples[|samples| - 1])
  }

  class Estimator {
    var rto: nat
    var srtt: nat
    var rttvar: nat

    ghost function Abs(): Est
      reads this
    {
      Est(rto, srtt, rttvar)
    }

    /** tcp_init_rto */
    constructor ()
      ensures Abs() == Est(1000, 0, 0)
    {
      rto, srtt, rttvar := RTO_INITIAL, 0, 0;
    }

    /** tcp_update_rto; see NoOverflow for the 32-bit intermediate values. */
    method Measure(rtt: nat)
      requires rtt <= RTO_MAX && srtt <= RTO_MAX && rttvar <= RTO_MAX
      modifies this
      ensures Abs() == Update(old(Abs()), rtt)
    {
      if srtt == 0 {
        srtt := rtt;
        rttvar := rtt / 2;
      } else {
        var delta := if rtt > srtt then rtt - srtt else srtt - rtt;
        rttvar := (3 * rttvar + delta) / 4;
        srtt := (7 * srtt + rtt) / 8;
      }
      rto := srtt + 4 * rttvar;
      if rto < RTO_MIN { rto := RTO_MIN; }
      if rto > RTO_MAX { rto := RTO_MAX; }
    }
  }

  /** No intermediate value reaches 2^32 while times stay at or below a minute. */
  lemma NoOverflow(e: Est, rtt: nat)
    requires rtt <= RTO_MAX && e.srtt <= RTO_MAX && e.rttvar <= RTO_MAX
    ensures 3 * e.rttvar + Gap(rtt, e.srtt) < TICK && 7 * e.srtt + rtt < TICK
    ensures Smooth(e, rtt).0 + 4 * Smooth(e, rtt).1 < TICK
    ensures Update(e, rtt).srtt <= RTO_MAX && Update(e, rtt).rttvar <= RTO_MAX
  {
  }

  /** Samples between lo and hi keep srtt between them and the timeout between its limits, however
      many arrive; rttvar stays small enough for the 32-bit arithmetic. */
  lemma {:induction false} StaysInRange(samples: seq<nat>, lo: nat, hi: nat)
    requires 1 <= lo <= hi <= RTO_MAX && samples != []
    requires forall k :: 0 <= k < |samples| ==> lo <= samples[k] <= hi
    ensures var e := After(INITIAL, samples);
            lo <= e.srtt <= hi && RTO_MIN <= e.rto <= RTO_MAX && e.rttvar <= hi
    decreases |samples|
  {
    if |samples| > 1 { StaysInRange(samples[..|samples| - 1], lo, hi); }
  }

  function Repeat(e: Est, r: nat, n: nat): Est
    decreases n
  {
    if n == 0 then e else Repeat(Update(e, r), r, n - 1)
  }

  /** Close to the sample: from below the integer estimator stops short by at most 7. */
  predicate Near(e: Est, r: nat) { r <= e.srtt + 7 && e.srtt <= r }

  predicate Settled(e: Est, r: nat) { Near(e, r) && e.rttvar <= 7 }

  lemma SrttApproaches(e: Est, r: nat)
    requires 1 <= e.srtt
    ensures e.srtt > r ==> r <= Update(e, r).srtt < e.srtt
    ensures e.srtt + 7 < r ==> e.srtt < Update(e, r).srtt <= r
    ensures Near(e, r) ==> Update(e, r).srtt == e.srtt
  {
  }

  lemma VarApproaches(e: Est, r: nat)
    requires 1 <= e.srtt && Near(e, r)
    ensures e.rttvar > 7 ==> Update(e, r).rttvar < e.rttvar
    ensures e.rttvar <= 7 ==> Update(e, r).rttvar <= 7
  {
  }

  lemma {:induction false} RepeatSplit(e: Est, r: nat, m: nat, n: nat)
    ensures Repeat(e, r, m + n) == Repeat(Repeat(e, r, m), r, n)
    decreases m
  {
    if m > 0 { RepeatSplit(Update(e, r), r, m - 1, n); }
  }

  lemma {:induction false} ReachesNear(e: Est, r: nat) returns (n: nat)
    requires 1 <= e.srtt && 1 <= r
    ensures Near(Repeat(e, r, n), r) && 1 <= Repeat(e, r, n).srtt
    ensures e.srtt >= r ==> Repeat(e, r, n).srtt == r
    decreases Gap(r, e.srtt)
  {
    if e.srtt == r || (e.srtt < r && Near(e, r)) {
      n := 0;
    } else {
      SrttApproaches(e, r);
      n := ReachesNear(Update(e, r), r);
      n := n + 1;
    }
  }

  lemma {:induction false} ReachesSettled(e: Est, r: nat) returns (n: nat)
    requires 1 <= e.srtt && Near(e, r)
    ensures Settled(Repeat(e, r, n), r) && Repeat(e, r, n).srtt == e.srtt
    decreases e.rttvar
  {
    if e.rttvar <= 7 {
      n := 0;
    } else {
      SrttApproaches(e, r);
      VarApproaches(e, r);
      n := ReachesSettled(Update(e, r), r);
      n := n + 1;
    }
  }

  lemma {:induction false} StaysSettled(e: Est, r: nat, n: nat)
    requires 1 <= e.srtt && Settled(e, r)
    ensures Settled(Repeat(e, r, n), r) && Repeat(e, r, n).srtt == e.srtt
    decreases n
  {
    if n > 0 {
      SrttApproaches(e, r);
      VarApproaches(e, r);
      StaysSettled(Update(e, r), r, n - 1);
    }
  }

  /** A constant sample r drives the estimator, in finitely many steps and for good, to
      r-7 <= srtt <= r (srtt = r when it comes from above) with rttvar <= 7. */
  lemma {:induction false} Converges(e: Est, r: nat) returns (n: nat)
    requires 1 <= e.srtt && 1 <= r
    ensures forall m :: m >= n ==>
              Settled(Repeat(e, r, m), r) && (e.srtt >= r ==> Repeat(e, r, m).srtt == r)
  {
    var a := ReachesNear(e, r);
    var b := ReachesSettled(Repeat(e, r, a), r);
    n := a + b;
    RepeatSplit(e, r, a, b);
    forall m | m >= n ensures Settled(Repeat(e, r, m), r) && (e.srtt >= r ==> Repeat(e, r, m).srtt == r) {
      RepeatSplit(e, r, n, m - n);
      StaysSettled(Repeat(e, r, n), r, m - n);
    }
  }

  // ----- against the estimator of the standard, in exact arithmetic

  datatype Ideal = Ideal(srtt: real, rttvar: real)

  function Abs(x: real): real { if x < 0.0 then -x else x }

  /** SRTT and RTTVAR after samples, without rounding: section 2 of RFC 6298. */
  function IdealAfter(samples: seq<nat>): Ideal
    requires samples != []
  {
    var r := samples[|samples| - 1] as real;
    if |samples| == 1 then Ideal(r, r / 2.0)
    else
      var i := IdealAfter(samples[..|samples| - 1]);
      Ideal(0.875 * i.srtt + 0.125 * r, 0.75 * i.rttvar + 0.25 * Abs(i.srtt - r))
  }

  /** SRTT + 4 RTTVAR between 200 ms and a minute. */
  function IdealRto(i: Ideal): real {
    var x := i.srtt + 4.0 * i.rttvar;
    if x < 200.0 then 200.0 else if x > 60000.0 then 60000.0 else x
  }

  lemma Rounds8(s: nat, r: nat, x: real)
    requires x - 8.0 < s as real <= x
    ensures var y := 0.875 * x + 0.125 * (r as real); y - 8.0 < ((7 * s + r) / 8) as real <= y
  {
    var q := (7 * s + r) / 8;
    assert 8 * q <= 7 * s + r < 8 * q + 8;
    assert 8.0 * (q as real) <= 7.0 * (s as real) + (r as real) < 8.0 * (q as real) + 8.0;
  }

  lemma Rounds4(v: nat, s: nat, r: nat, x: real, y: real)
    requires x - 8.0 < s as real <= x && y - 12.0 < v as real < y + 8.0
    ensures var z := 0.75 * y + 0.25 * Abs(x - (r as real)); z - 12.0 < ((3 * v + Gap(r, s)) / 4) as real < z + 8.0
  {
    var q, g := (3 * v + Gap(r, s)) / 4, Gap(r, s);
    assert 4 * q <= 3 * v + g < 4 * q + 4;
    assert 4.0 * (q as real) <= 3.0 * (v as real) + (g as real) < 4.0 * (q as real) + 4.0;
    assert g as real == Abs((s as real) - (r as real));
  }

  lemma HalfRounds(r: nat)
    ensures (r as real) / 2.0 - 1.0 < (r / 2) as real <= (r as real) / 2.0
  {
    assert r / 2 * 2 <= r <= r / 2 * 2 + 1;
    assert ((r / 2) as real) * 2.0 <= r as real <= ((r / 2) as real) * 2.0 + 1.0;
  }

  /** No sample after the first meets a smoothed time of 0, which the code takes for a first measurement. */
  predicate NeverZero(samples: seq<nat>) {
    |samples| <= 1 || (NeverZero(samples[..|samples| - 1]) && After(INITIAL, samples[..|samples| - 1]).srtt != 0)
  }

  /** Samples of at least one tick never do. */
  lemma {:induction false} PositiveSamples(samples: seq<nat>)
    requires forall k :: 0 <= k < |samples| ==> samples[k] >= 1
    ensures NeverZero(samples) && (samples != [] ==> After(INITIAL, samples).srtt >= 1)
  {
    if samples != [] { PositiveSamples(samples[..|samples| - 1]); }
  }

  /** One that does starts afresh: after 0 and 1000 the code has 1000, the standard 125. */
  lemma ZeroRestarts()
    ensures After(INITIAL, [0, 1000]).srtt == 1000 && IdealAfter([0, 1000]).srtt == 125.0 && !NeverZero([0, 1000])
  {
    assert [0, 1000][..1] == [0] && [0][..0] == [];
    assert After(INITIAL, [0]) == Update(INITIAL, 0);
    assert IdealAfter([0]).srtt == 0.0;
  }

  /** However many samples arrive, the integer estimator stays this close to the exact one: the rounding errors do not
      add up. */
  lemma {:induction false} TracksExact(samples: seq<nat>)
    requires samples != [] && NeverZero(samples)
    ensures var e, i := After(INITIAL, samples), IdealAfter(samples);
            && i.srtt - 8.0 < e.srtt as real <= i.srtt
            && i.rttvar - 12.0 < e.rttvar as real < i.rttvar + 8.0
            && IdealRto(i) - 56.0 < e.rto as real < IdealRto(i) + 32.0
    decreases |samples|
  {
    var r, before := samples[|samples| - 1], samples[..|samples| - 1];
    var e, i := After(INITIAL, before), IdealAfter(samples);
    if |samples| == 1 {
      assert before == [] && e == INITIAL;
      HalfRounds(r);
    } else {
      TracksExact(before);
      Rounds8(e.srtt, r, IdealAfter(before).srtt);
      Rounds4(e.rttvar, e.srtt, r, IdealAfter(before).srtt, IdealAfter(before).rttvar);
    }
    hide IdealAfter, Clamp, IdealRto;
    RtoTracks(Smooth(e, r).0, Smooth(e, r).1, i);
  }

  lemma RtoTracks(s: nat, v: nat, i: Ideal)
    requires i.srtt - 8.0 < s as real <= i.srtt && i.rttvar - 12.0 < v as real < i.rttvar + 8.0
    ensures IdealRto(i) - 56.0 < Clamp(s + 4 * v) as real < IdealRto(i) + 32.0
  {
    assert (s + 4 * v) as real == (s as real) + 4.0 * (v as real);
  }
}
