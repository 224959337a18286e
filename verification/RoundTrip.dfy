/**
 The round-trip estimator: how far one sample moves it, and where equal samples
 bring it.
 */
module RoundTrip {
  import opened SerialArith
  import opened Receiver
  import opened Sender
  import opened Codec
  import opened Engine
  import opened EngineInvariant

  /** Times of less than three days, far from where 32-bit products overflow. */
  const MODEST: int := 0x1000_0000

  predicate Modest(cfg: Config, t: Rtt, sample: int) {
    && 0 <= t.srtt < MODEST && 0 <= t.rttval < MODEST && 0 <= sample < MODEST
    && 0 <= cfg.interval < MODEST && 0 < cfg.minRto <= RTO_MAX
  }

  function Distance(x: int, y: int): (d: int)
    ensures d >= 0
  {
    if x < y then y - x else x - y
  }

  /** y is x moved one n-th of the way to goal, rounded down. */
  predicate MovedTowards(x: int, goal: int, n: int, y: int) {
    n * (y - x) <= goal - x < n * (y - x) + n
  }

  /** The time-out covers the smoothed time, four deviations and one flush interval, within its bounds. */
  predicate TimeoutFits(cfg: Config, t: Rtt) {
    && cfg.minRto <= t.rto <= 60000
    && (t.rto < 60000 ==> t.rto >= t.srtt + 4 * t.rttval && t.rto >= t.srtt + cfg.interval)
    && (cfg.minRto < t.rto ==> t.rto <= t.srtt + 4 * t.rttval || t.rto <= t.srtt + cfg.interval)
  }

  lemma Small(x: int)
    requires -0x8000_0000 <= x < 0x8000_0000
    ensures I32(x) == x && (x >= 0 ==> U32(x) == x)
  {
  }

  /** The first sample sets the estimate, and half of it is the deviation. */
  lemma FirstSample(cfg: Config, t: Rtt, sample: int)
    requires Modest(cfg, t, sample) && t.srtt == 0
    ensures var t' := UpdateAck(cfg, t, sample);
      && t'.srtt == sample && 0 <= sample - 2 * t'.rttval <= 1
      && TimeoutFits(cfg, t')
  {
    hide U32;
    Small(4 * (sample / 2));
    Small(sample + Max(cfg.interval, 4 * (sample / 2)));
  }

  /**
   A later sample moves the estimate an eighth of the way to it, and the
   deviation a quarter of the way to the distance between them.
   */
  lemma NextSample(cfg: Config, t: Rtt, sample: int)
    requires Modest(cfg, t, sample) && t.srtt > 0
    ensures var t' := UpdateAck(cfg, t, sample);
      && (MovedTowards(t.srtt, sample, 8, t'.srtt) || (t'.srtt == 1 && t.srtt == 1 && sample == 0))
      && Min(t.srtt, Max(sample, 1)) <= t'.srtt <= Max(t.srtt, sample)
      && MovedTowards(t.rttval, Distance(t.srtt, sample), 4, t'.rttval)
      && Min(t.rttval, Distance(t.srtt, sample)) <= t'.rttval <= Max(t.rttval, Distance(t.srtt, sample))
      && TimeoutFits(cfg, t')
  {
    hide I32, U32;
    Small(sample - t.srtt);
    Small(7 * t.srtt + sample);
    Small(3 * t.rttval);
    var v := (3 * t.rttval + Distance(t.srtt, sample)) / 4;
    var s := (7 * t.srtt + sample) / 8;
    Small(v);
    Small(4 * v);
    Small((if s < 1 then 1 else s) + Max(cfg.interval, 4 * v));
  }

  // ---------------------------------------------------------------------
  // What an acknowledgement measures
  // ---------------------------------------------------------------------

  /**
   An acknowledgement that echoes the time a segment was sent gives the time
   that has passed since, on a 32-bit clock; one that echoes a time to come
   gives no sample.
   */
  lemma AckMeasures(cfg: Config, k: Kcb, w: Wire, sent: int, now: int)
    requires w.cmd == CMD_ACK && w.ts == U32(sent) && k.current == U32(now)
    requires -0x8000_0000 <= now - sent < 0x8000_0000
    ensures InputSeg(Ring32, cfg, k, w).rtt == if sent <= now then UpdateAck(cfg, k.rtt, now - sent) else k.rtt
  {
    hide UpdateAck, ParseUna, ParseAck, U32, I32;
    WrapDiff(now, sent);
  }

  lemma OthersMeasureNothing(cfg: Config, k: Kcb, w: Wire)
    requires w.cmd != CMD_ACK
    ensures InputSeg(Ring32, cfg, k, w).rtt == k.rtt
  {
    hide ParseUna, ParseData, Diff;
  }

  // ---------------------------------------------------------------------
  // Equal samples
  // ---------------------------------------------------------------------

  function Repeated(cfg: Config, t: Rtt, sample: int, n: nat): Rtt {
    if n == 0 then t else UpdateAck(cfg, Repeated(cfg, t, sample, n - 1), sample)
  }

  /** Within the rounding of one eighth. */
  predicate Close(srtt: int, sample: int) {
    0 <= sample - srtt < 8
  }

  /** How far the estimate still has to go. */
  function Remaining(srtt: int, sample: int): (d: nat)
  {
    if Close(srtt, sample) then 0 else Distance(srtt, sample)
  }

  lemma NearStays(srtt: int, srtt': int, sample: int)
    requires MovedTowards(srtt, sample, 8, srtt')
    ensures Close(srtt, sample) ==> srtt' == srtt
    ensures Distance(srtt', sample) <= Distance(srtt, sample)
    ensures Remaining(srtt', sample) <= Max(Remaining(srtt, sample) - 1, 0)
  {
  }

  lemma DeviationFalls(v: int, d: int, v': int)
    requires 0 <= d && 0 <= v && MovedTowards(v, d, 4, v')
    ensures v <= d ==> v' <= d
    ensures v > d ==> d <= v' < v
  {
  }

  /** The bounds on a run of equal samples of at least a millisecond. */
  predicate Settling(cfg: Config, t: Rtt, sample: int, n: nat) {
    var u := Repeated(cfg, t, sample, n);
    && 0 < u.srtt < MODEST && 0 <= u.rttval < MODEST
    && Distance(u.srtt, sample) <= Distance(t.srtt, sample)
    && u.rttval <= Max(t.rttval, Distance(t.srtt, sample))
    && Remaining(u.srtt, sample) <= Max(Remaining(t.srtt, sample) - n, 0)
  }

  lemma {:induction false} Settles(cfg: Config, t: Rtt, sample: int, n: nat)
    requires Modest(cfg, t, sample) && t.srtt > 0 && sample > 0
    ensures Settling(cfg, t, sample, n)
    ensures n > 0 ==> TimeoutFits(cfg, Repeated(cfg, t, sample, n))
    decreases n
  {
    hide UpdateAck, TimeoutFits;
    if n > 0 {
      Settles(cfg, t, sample, n - 1);
      var u := Repeated(cfg, t, sample, n - 1);
      NextSample(cfg, u, sample);
      NearStays(u.srtt, Repeated(cfg, t, sample, n).srtt, sample);
    }
  }

  /** Once the estimate is near, it stays, and the deviation falls to less than the rounding. */
  lemma {:induction false} NearSettles(cfg: Config, t: Rtt, sample: int, n: nat)
    requires Modest(cfg, t, sample) && t.srtt > 0 && sample > 0 && Close(t.srtt, sample)
    ensures var u := Repeated(cfg, t, sample, n);
      u.srtt == t.srtt && 0 <= u.rttval <= Max(t.rttval - n, sample - t.srtt)
    decreases n
  {
    hide UpdateAck, TimeoutFits;
    if n > 0 {
      NearSettles(cfg, t, sample, n - 1);
      Settles(cfg, t, sample, n - 1);
      var u := Repeated(cfg, t, sample, n - 1);
      NextSample(cfg, u, sample);
      NearStays(u.srtt, Repeated(cfg, t, sample, n).srtt, sample);
      DeviationFalls(u.rttval, sample - t.srtt, Repeated(cfg, t, sample, n).rttval);
    }
  }

  lemma {:induction false} RepeatedTwice(cfg: Config, t: Rtt, sample: int, m: nat, n: nat)
    ensures Repeated(cfg, Repeated(cfg, t, sample, m), sample, n) == Repeated(cfg, t, sample, m + n)
    decreases n
  {
    hide UpdateAck;
    if n > 0 {
      RepeatedTwice(cfg, t, sample, m, n - 1);
    }
  }

  /**
   Equal samples, enough of them: the estimate is the sample up to the rounding
   of an eighth, the deviation is less than that rounding, and the time-out is
   the sample and one interval, or what their bounds make of it.
   */
  lemma EqualSamplesSettle(cfg: Config, t: Rtt, sample: int, n: nat)
    requires Modest(cfg, t, sample) && t.srtt > 0 && sample > 0
    requires n > 2 * Distance(t.srtt, sample) + t.rttval
    ensures var u := Repeated(cfg, t, sample, n);
      && sample - 8 < u.srtt <= sample && 0 <= u.rttval < 8
      && (cfg.interval >= 32 ==> u.rto == Bound(cfg.minRto, u.srtt + cfg.interval, 60000))
  {
    hide UpdateAck;
    var m := Distance(t.srtt, sample);
    Settles(cfg, t, sample, m);
    var u := Repeated(cfg, t, sample, m);
    NearSettles(cfg, u, sample, n - m);
    RepeatedTwice(cfg, t, sample, m, n - m);
    Settles(cfg, t, sample, n);
  }

  /**
   A new estimator holds the sample from the first one on, and after half as
   many samples as it has milliseconds the deviation is gone.
   */
  lemma NewEstimatorSettles(cfg: Config, sample: int, n: nat)
    requires ConfigOk(cfg) && 0 < sample < MODEST && n > sample / 2 + 1
    ensures var u := Repeated(cfg, Fresh(cfg).rtt, sample, n);
      && u.srtt == sample && u.rttval == 0
      && u.rto == Bound(cfg.minRto, sample + cfg.interval, 60000)
  {
    hide UpdateAck;
    var t := Fresh(cfg).rtt;
    FirstSample(cfg, t, sample);
    var t1 := UpdateAck(cfg, t, sample);
    assert Repeated(cfg, t, sample, 0) == t;
    assert Repeated(cfg, t, sample, 1) == t1;
    NearSettles(cfg, t1, sample, n - 1);
    Settles(cfg, t1, sample, n - 1);
    RepeatedTwice(cfg, t, sample, 1, n - 1);
  }
}
