/** The round-trip estimator and the congestion window: what they compute, one step and over runs. */
module TcpEstimator {
  import opened Prelude
  import opened TcpSegment
  import opened TcpModel

  // ---------------------------------------------------------------- round-trip time

  function Distance(a: int, b: int): int { if a < b then b - a else a - b }

  /** No product below is cut off at the largest duration. */
  predicate Unsaturated(r: Rtt) { (r.srtt.Some? ==> 7 * r.srtt.value <= DURATION_MAX) && 3 * r.rttvar <= DURATION_MAX }

  /** The timeout that belongs to an estimate (rules 2.1 to 2.5 of RFC 6298 with a granularity of 1 ms). */
  function Timeout(srtt: Time, rttvar: Time, cfg: Config): Time {
    Min(Max(cfg.initialRto, srtt + Max(4 * rttvar, 1_000_000)), cfg.maxRto)
  }

  /** A first sample is the estimate, and half of it the variation. */
  lemma FirstSample(r: Rtt, sample: Time, cfg: Config)
    requires cfg.Valid() && r.srtt.None?
    ensures
      var u := UpdateRto(r, sample, cfg);
      && u.srtt == Some(sample) && 2 * u.rttvar <= sample <= 2 * u.rttvar + 1
      && u.rto == Timeout(sample, u.rttvar, cfg)
  {}

  /** A later sample pulls the estimate an eighth of the way towards itself, and the variation a quarter of the way
      towards its distance from the estimate so far; rounding only ever takes away, less than two units. */
  lemma NextSample(r: Rtt, sample: Time, cfg: Config)
    requires cfg.Valid() && r.srtt.Some? && Unsaturated(r) && sample <= DURATION_MAX
    ensures
      var u := UpdateRto(r, sample, cfg);
      var s := r.srtt.value;
      && u.srtt.Some?
      && var s' := u.srtt.value;
         && sample - s - 14 <= 8 * (s' - s) <= sample - s
         && Min(s, sample) - 1 <= s' <= Max(s, sample)
         && Distance(s, sample) - r.rttvar - 6 <= 4 * (u.rttvar - r.rttvar) <= Distance(s, sample) - r.rttvar
         && u.rto == Timeout(s', u.rttvar, cfg)
  {
    var s := r.srtt.value;
    assert Distance(s, sample) <= DURATION_MAX;
  }

  function Sampled(r: Rtt, samples: seq<Time>, cfg: Config): Rtt {
    if samples == [] then r else UpdateRto(Sampled(r, samples[..|samples| - 1], cfg), Last(samples), cfg)
  }

  /** Over any run of samples from an interval the estimate stays in it, up to seven nanoseconds of rounding, and the
      variation within half the greatest sample or the width of the interval. */
  lemma {:induction false} SamplesBound(r: Rtt, samples: seq<Time>, lo: Time, hi: Time, cfg: Config)
    requires cfg.Valid() && r.srtt.None? && samples != [] && 7 * (hi + 7) <= DURATION_MAX
    requires forall i :: 0 <= i < |samples| ==> lo <= samples[i] <= hi
    ensures
      var u := Sampled(r, samples, cfg);
      && u.srtt.Some? && lo - 7 <= u.srtt.value <= hi
      && u.rttvar <= Max(hi / 2, hi - lo + 7)
      && u.rto == Timeout(u.srtt.value, u.rttvar, cfg)
    decreases |samples|
  {
    hide UpdateRto, Timeout;
    var n := |samples| - 1;
    var before := samples[..n];
    var sample := samples[n];
    if before == [] {
      FirstSample(r, sample, cfg);
    } else {
      SamplesBound(r, before, lo, hi, cfg);
      NextSample(Sampled(r, before, cfg), sample, cfg);
    }
  }

  // ---------------------------------------------------------------- the congestion window

  function SegmentSize(p: PeerView, cfg: Config): nat { Min(cfg.mss, Max(p.mss, 1)) }

  /** In slow start an acknowledgment opens the window by what it covers, at most one segment. */
  lemma SlowStart(g: Congestion, p: PeerView, bytes: nat, cfg: Config)
    requires cfg.Valid() && g.cwnd < g.ssthresh && g.cwnd <= cfg.maxCwnd
    ensures GrowWindow(g, p, bytes, cfg)
         == g.(cwnd := Min(g.cwnd + Min(bytes, SegmentSize(p, cfg)), cfg.maxCwnd))
  {}

  /** A window opened `k` times by a segment. */
  function Opened(cwnd: nat, mss: nat, k: nat): nat { if k == 0 then cwnd else Opened(cwnd, mss, k - 1) + mss }

  lemma {:induction false} OpenedIs(cwnd: nat, mss: nat, k: nat)
    ensures Opened(cwnd, mss, k) == cwnd + k * mss
  {
    if k > 0 {
      OpenedIs(cwnd, mss, k - 1);
      assert k * mss == (k - 1) * mss + mss;
    }
  }

  /** What that takes: a whole window each time. */
  function Price(cwnd: nat, mss: nat, k: nat): nat {
    if k == 0 then 0 else Price(cwnd, mss, k - 1) + Opened(cwnd, mss, k - 1)
  }

  function Total(acks: seq<nat>): nat { if acks == [] then 0 else Total(acks[..|acks| - 1]) + Last(acks) }

  function Grown(g: Congestion, p: PeerView, acks: seq<nat>, cfg: Config): Congestion {
    if acks == [] then g else GrowWindow(Grown(g, p, acks[..|acks| - 1], cfg), p, Last(acks), cfg)
  }

  /** `h` is `g` with the window opened `k` times, and `k` is as many as `paid` bytes pay for. */
  predicate Paid(g: Congestion, h: Congestion, paid: nat, mss: nat, k: nat) {
    && Price(g.cwnd, mss, k) <= paid < Price(g.cwnd, mss, k + 1)
    && h == g.(cwnd := Opened(g.cwnd, mss, k), credit := paid - Price(g.cwnd, mss, k))
  }

  function Owed(g: Congestion, acks: seq<nat>): nat { g.credit + Total(acks) }

  /** In congestion avoidance the window opens by exactly one segment for each whole window acknowledged, over any
      run of acknowledgments that each cover at most a window. */
  lemma {:induction false} Avoidance(g: Congestion, p: PeerView, acks: seq<nat>, cfg: Config)
    requires cfg.Valid() && g.ssthresh <= g.cwnd && g.credit < g.cwnd
    requires forall i :: 0 <= i < |acks| ==> acks[i] <= g.cwnd
    requires g.cwnd + |acks| * SegmentSize(p, cfg) <= cfg.maxCwnd
    ensures exists k: nat ::
              k <= |acks| && Paid(g, Grown(g, p, acks, cfg), Owed(g, acks), SegmentSize(p, cfg), k)
    decreases |acks|
  {
    var mss := SegmentSize(p, cfg);
    hide Paid, GrowWindow, SegmentSize;
    if acks == [] {
      NothingPaid(g, mss);
      assert Paid(g, Grown(g, p, acks, cfg), Owed(g, acks), mss, 0);
    } else {
      var before := acks[..|acks| - 1];
      assert |acks| * mss == |before| * mss + mss;
      Avoidance(g, p, before, cfg);
      var h := Grown(g, p, before, cfg);
      var k: nat :| k <= |before| && Paid(g, h, Owed(g, before), mss, k);
      MulBoundsNat(k, |before|, mss);
      OpenedIs(g.cwnd, mss, k);
      PaidMore(g, h, p, Owed(g, before), k, Last(acks), cfg);
      assert Owed(g, acks) == Owed(g, before) + Last(acks);
      var h' := Grown(g, p, acks, cfg);
      var m := if Paid(g, h', Owed(g, acks), mss, k) then k else k + 1;
      assert m <= |acks| && Paid(g, h', Owed(g, acks), mss, m);
    }
  }

  lemma NothingPaid(g: Congestion, mss: nat)
    requires g.credit < g.cwnd
    ensures Paid(g, g, g.credit, mss, 0)
  {}

  lemma MulBoundsNat(k: nat, n: nat, d: nat)
    requires k <= n
    ensures k * d <= n * d
  {
    assert n * d == k * d + (n - k) * d;
  }

  lemma PaidMore(g: Congestion, h: Congestion, p: PeerView, paid: nat, k: nat, bytes: nat, cfg: Config)
    requires cfg.Valid() && Paid(g, h, paid, SegmentSize(p, cfg), k) && bytes <= g.cwnd && g.ssthresh <= g.cwnd
    requires Opened(g.cwnd, SegmentSize(p, cfg), k) + SegmentSize(p, cfg) <= cfg.maxCwnd
    ensures
      var mss, h' := SegmentSize(p, cfg), GrowWindow(h, p, bytes, cfg);
      Paid(g, h', paid + bytes, mss, k) || Paid(g, h', paid + bytes, mss, k + 1)
  {
    var mss := SegmentSize(p, cfg);
    hide SegmentSize, GrowWindow;
    OpenedMore(g.cwnd, mss, k);
    AvoidanceStep(h, p, bytes, cfg);
  }

  lemma {:induction false} OpenedMore(cwnd: nat, mss: nat, k: nat)
    ensures cwnd <= Opened(cwnd, mss, k) && Opened(cwnd, mss, k + 1) == Opened(cwnd, mss, k) + mss
    ensures Price(cwnd, mss, k + 1) == Price(cwnd, mss, k) + Opened(cwnd, mss, k)
    ensures Price(cwnd, mss, k + 2) == Price(cwnd, mss, k + 1) + Opened(cwnd, mss, k) + mss
  {
    if k > 0 { OpenedMore(cwnd, mss, k - 1); }
  }

  lemma AvoidanceStep(g: Congestion, p: PeerView, bytes: nat, cfg: Config)
    requires cfg.Valid() && g.ssthresh <= g.cwnd <= cfg.maxCwnd && g.credit + bytes <= USIZE_MAX
    ensures
      GrowWindow(g, p, bytes, cfg)
      == if g.credit + bytes < g.cwnd then g.(credit := g.credit + bytes)
         else g.(credit := g.credit + bytes - g.cwnd, cwnd := Min(g.cwnd + SegmentSize(p, cfg), cfg.maxCwnd))
  {}

  /** The initial window: at most two, three or four segments by their size (section 3.1 of RFC 5681), one after a
      repeated SYN, and never more than configured. */
  lemma InitialWindow(g: Congestion, p: PeerView, cfg: Config)
    requires cfg.Valid()
    ensures
      var mss, w := SegmentSize(p, cfg), InitialCwnd(g, p, cfg);
      && w == Min(cfg.maxCwnd, Min(cfg.initialCwndSegments * mss,
                                   if g.synRetransmitted then mss else if mss > 2190 then 2 * mss
                                   else if mss > 1095 then 3 * mss else 4 * mss))
      && w <= Max(2 * mss, 6570)
  {}
}
