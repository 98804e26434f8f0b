/**
 The flight queue: a run of data flights tiles an interval of the sequence space with exactly the
 bytes the application wrote there. Each lemma says how one operation on the queue keeps the run.
 */
module TcpFlights {
  import opened Prelude
  import opened TcpSegment
  import opened TcpModel

  /** The bytes written for positions [lo, hi). */
  predicate Holds(bytes: seq<byte>, iss: int, written: seq<byte>, lo: int) {
    && iss + 1 <= lo
    && lo - iss - 1 + |bytes| <= |written|
    && bytes == written[lo - iss - 1..lo - iss - 1 + |bytes|]
  }

  predicate DataFlight(f: Flight, iss: int, written: seq<byte>) {
    f.flags == ACK + PSH && f.payload != [] && Holds(f.payload, iss, written, f.pos)
  }

  /** Data flights cover [lo, hi) without gap or overlap; all but the last have been submitted. */
  predicate DataRun(fs: seq<Flight>, iss: int, written: seq<byte>, lo: int, hi: int) {
    if fs == [] then lo == hi
    else
      && fs[0].pos == lo
      && DataFlight(fs[0], iss, written)
      && (|fs| > 1 ==> fs[0].transmissions > 0)
      && DataRun(fs[1..], iss, written, fs[0].End(), hi)
  }

  predicate EndsUnsent(fs: seq<Flight>) { fs != [] && Last(fs).transmissions == 0 }

  /** Where submitted sequence numbers end: a flight never submitted lies beyond it. */
  function SubmittedEnd(fs: seq<Flight>, hi: int): int { if EndsUnsent(fs) then Last(fs).pos else hi }

  lemma {:induction false} RunLength(fs: seq<Flight>, iss: int, written: seq<byte>, lo: int, hi: int)
    requires DataRun(fs, iss, written, lo, hi)
    ensures hi - lo == PayloadBytes(fs)
    ensures lo <= SubmittedEnd(fs, hi) <= hi
    ensures fs != [] ==> iss + 1 <= lo < hi && hi - iss - 1 <= |written|
    ensures fs != [] ==> Last(fs).End() == hi && Last(fs).pos == hi - |Last(fs).payload|
    ensures fs != [] ==> DataFlight(Last(fs), iss, written)
  {
    if fs != [] {
      RunLength(fs[1..], iss, written, fs[0].End(), hi);
      if |fs| > 1 {
        assert Last(fs[1..]) == Last(fs);
      }
    }
  }

  lemma {:induction false} RunMember(fs: seq<Flight>, iss: int, written: seq<byte>, lo: int, hi: int, i: nat)
    requires DataRun(fs, iss, written, lo, hi) && i < |fs|
    ensures DataFlight(fs[i], iss, written)
    ensures lo <= fs[i].pos && fs[i].End() <= hi
    ensures fs[i].transmissions > 0 ==> fs[i].End() <= SubmittedEnd(fs, hi)
    ensures i < |fs| - 1 ==> fs[i].transmissions > 0
  {
    RunLength(fs, iss, written, lo, hi);
    RunLength(fs[1..], iss, written, fs[0].End(), hi);
    if i > 0 {
      RunMember(fs[1..], iss, written, fs[0].End(), hi, i - 1);
      assert Last(fs[1..]) == Last(fs);
    } else if |fs| > 1 {
      assert Last(fs[1..]) == Last(fs);
    }
  }

  lemma {:induction false} RunAppend(fs: seq<Flight>, f: Flight, iss: int, written: seq<byte>, lo: int, hi: int)
    requires DataRun(fs, iss, written, lo, hi) && !EndsUnsent(fs)
    requires f.pos == hi && DataFlight(f, iss, written)
    ensures DataRun(fs + [f], iss, written, lo, f.End())
    ensures PayloadBytes(fs + [f]) == PayloadBytes(fs) + |f.payload|
  {
    if fs == [] {
      assert (fs + [f])[1..] == [];
    } else {
      assert (fs + [f])[1..] == fs[1..] + [f];
      assert |fs| > 1 ==> Last(fs[1..]) == Last(fs);
      RunAppend(fs[1..], f, iss, written, fs[0].End(), hi);
    }
  }

  lemma {:induction false} RunAfterWrite(fs: seq<Flight>, iss: int, written: seq<byte>, more: seq<byte>, lo: int,
                                         hi: int)
    requires DataRun(fs, iss, written, lo, hi)
    ensures DataRun(fs, iss, written + more, lo, hi)
  {
    if fs != [] {
      HoldsAfterWrite(fs[0].payload, iss, written, more, fs[0].pos);
      RunAfterWrite(fs[1..], iss, written, more, fs[0].End(), hi);
    }
  }

  lemma HoldsAfterWrite(bytes: seq<byte>, iss: int, written: seq<byte>, more: seq<byte>, lo: int)
    requires Holds(bytes, iss, written, lo)
    ensures Holds(bytes, iss, written + more, lo)
  {
    var i, j := lo - iss - 1, lo - iss - 1 + |bytes|;
    assert (written + more)[i..j] == written[i..j];
  }

  /** Timers and retransmission marks may change; positions and contents may not. */
  predicate SameData(fs: seq<Flight>, gs: seq<Flight>) {
    && |fs| == |gs|
    && forall i :: 0 <= i < |fs| ==>
        && fs[i].pos == gs[i].pos && fs[i].flags == gs[i].flags && fs[i].payload == gs[i].payload
        && (fs[i].transmissions > 0 ==> gs[i].transmissions > 0)
  }

  lemma {:induction false} RunSame(fs: seq<Flight>, gs: seq<Flight>, iss: int, written: seq<byte>, lo: int, hi: int)
    requires DataRun(fs, iss, written, lo, hi) && SameData(fs, gs)
    ensures DataRun(gs, iss, written, lo, hi)
    ensures PayloadBytes(gs) == PayloadBytes(fs)
  {
    if fs != [] {
      assert SameData(fs[1..], gs[1..]);
      RunSame(fs[1..], gs[1..], iss, written, fs[0].End(), hi);
    }
  }

  /** Shortening the newest flight to its first `keep` bytes. */
  lemma {:induction false} RunTrimLast(
    fs: seq<Flight>, g: Flight, keep: nat, iss: int, written: seq<byte>, lo: int, hi: int)
    requires DataRun(fs, iss, written, lo, hi) && fs != []
    requires 0 < keep < |Last(fs).payload|
    requires g == Last(fs).(payload := Last(fs).payload[..keep])
    ensures DataRun(fs[|fs| - 1 := g], iss, written, lo, g.End())
    ensures g.End() == g.pos + keep
    ensures hi == g.pos + |Last(fs).payload|
    ensures PayloadBytes(fs[|fs| - 1 := g]) == PayloadBytes(fs) - (|Last(fs).payload| - keep)
  {
    RunLength(fs, iss, written, lo, hi);
    var gs := fs[|fs| - 1 := g];
    var k := g.pos - iss - 1;
    assert written[k..k + |Last(fs).payload|][..keep] == written[k..k + keep];
    if |fs| == 1 {
      assert gs[1..] == [];
    } else {
      assert gs[1..] == fs[1..][|fs[1..]| - 1 := g];
      assert Last(fs[1..]) == Last(fs);
      RunTrimLast(fs[1..], g, keep, iss, written, fs[0].End(), hi);
    }
  }

  // ---------------------------------------------------------------- acknowledgment sweep

  /** A cumulative acknowledgment of submitted data removes exactly the bytes below it. */
  lemma {:induction false} SweepRun(w: Sweep, iss: int, written: seq<byte>, lo: int, hi: int, ack: int, now: Time)
    requires DataRun(w.rest, iss, written, lo, hi)
    requires lo <= ack <= SubmittedEnd(w.rest, hi)
    ensures
      var r := SweepFrom(w, ack, now);
      && DataRun(r.rest, iss, written, ack, hi)
      && r.bytes == w.bytes + (ack - lo)
      && r.syn == w.syn && r.fin == w.fin
      && EndsUnsent(r.rest) == EndsUnsent(w.rest)
      && SubmittedEnd(r.rest, hi) == SubmittedEnd(w.rest, hi)
    decreases |w.rest|
  {
    RunLength(w.rest, iss, written, lo, hi);
    if w.rest == [] || w.rest[0].pos >= ack {
    } else if ack >= w.rest[0].End() {
      var w' := Complete(w, now);
      RunLength(w'.rest, iss, written, w.rest[0].End(), hi);
      if |w.rest| > 1 {
        assert Last(w'.rest) == Last(w.rest);
      }
      SweepRun(w', iss, written, w.rest[0].End(), hi, ack, now);
    } else {
      SweepShorten(w, iss, written, lo, hi, ack);
    }
  }

  lemma SweepShorten(w: Sweep, iss: int, written: seq<byte>, lo: int, hi: int, ack: int)
    requires DataRun(w.rest, iss, written, lo, hi)
    requires w.rest != [] && lo < ack < w.rest[0].End() && ack <= SubmittedEnd(w.rest, hi)
    ensures
      var r := Shorten(w, ack);
      && DataRun(r.rest, iss, written, ack, hi)
      && r.bytes == w.bytes + (ack - lo)
      && EndsUnsent(r.rest) == EndsUnsent(w.rest)
      && SubmittedEnd(r.rest, hi) == SubmittedEnd(w.rest, hi)
  {
    var r := Shorten(w, ack);
    var f, g := w.rest[0], r.rest[0];
    var k, n := f.pos - iss - 1, ack - f.pos;
    assert written[k..k + |f.payload|][n..] == written[k + n..k + |f.payload|];
    assert r.rest[1..] == w.rest[1..];
    if |w.rest| > 1 {
      assert Last(r.rest) == Last(w.rest);
    }
  }

  /** A lone SYN or FIN flight is removed by the acknowledgment of its single sequence number. */
  lemma SweepSingle(f: Flight, ack: int, now: Time)
    requires f.payload == [] && ack == f.End() == f.pos + 1
    ensures SweepFlights([f], ack, now) == Complete(Sweep([f], 0, false, false, false, None, 0), now)
    ensures SweepFlights([f], ack, now).rest == []
  {
    var w := Sweep([f], 0, false, false, false, None, 0);
    assert Complete(w, now).rest == [];
    assert SweepFrom(Complete(w, now), ack, now) == Complete(w, now);
  }

  // ---------------------------------------------------------------- round-trip samples

  /** A flight fits one segment, and its marks agree with its history: the engine may time it only
      if it was submitted once, and then its timer origin is that submission. */
  predicate SoundFlight(f: Flight, cfg: Config) {
    && |f.payload| <= cfg.mss
    && f.transmissions == Min(|f.sends|, 0xffff_ffff)
    && cfg.initialRto <= f.rto <= cfg.maxRto
    && (f.lastSent.Some? ==> f.transmissions > 0)
    && (f.rttEligible && f.transmissions == 1 && f.lastSent.Some? ==> f.sends == [f.lastSent.value])
  }

  predicate AllSound(fs: seq<Flight>, cfg: Config) { forall i :: 0 <= i < |fs| ==> SoundFlight(fs[i], cfg) }

  /** What a pass over `fs` knows once it has completed the first `w.done` flights. */
  predicate SampleOf(w: Sweep, fs: seq<Flight>, now: Time) {
    && w.done <= |fs|
    && (w.sample.Some? ==> w.done > 0)
    && (!w.ambiguous ==> forall i :: 0 <= i < w.done ==> fs[i].rttEligible && fs[i].transmissions <= 1)
    && (!w.ambiguous && w.done > 0 ==>
          var f := fs[w.done - 1];
          && f.rttEligible && f.transmissions <= 1
          && (f.transmissions == 1 ==>
                w.sample == if f.lastSent.Some? then Some(Monus(now, f.lastSent.value)) else None))
  }

  lemma CompleteGathers(w: Sweep, fs: seq<Flight>, now: Time)
    requires SampleOf(w, fs, now) && w.rest == fs[w.done..] && w.rest != []
    ensures var v := Complete(w, now);
            SampleOf(v, fs, now) && v.done <= |fs| && v.rest == fs[v.done..] && |v.rest| < |w.rest|
  {
    var v := Complete(w, now);
    assert w.rest[0] == fs[w.done];
    assert v.rest == fs[v.done..];
  }

  lemma ShortenGathers(w: Sweep, fs: seq<Flight>, ack: int, now: Time)
    requires SampleOf(w, fs, now) && w.rest == fs[w.done..] && w.rest != [] && w.rest[0].pos < ack < w.rest[0].End()
    ensures var r := Shorten(w, ack);
            && SampleOf(r, fs, now) && r.done < |fs|
            && (!r.ambiguous ==> fs[r.done].rttEligible && fs[r.done].transmissions <= 1)
  {
    assert w.rest[0] == fs[w.done];
  }

  lemma {:induction false} SweepGathers(w: Sweep, fs: seq<Flight>, ack: int, now: Time)
    requires SampleOf(w, fs, now) && w.done <= |fs| && w.rest == fs[w.done..]
    ensures
      var r := SweepFrom(w, ack, now);
      && SampleOf(r, fs, now)
      && (!r.ambiguous && r.done < |fs| && fs[r.done].pos < ack ==>
            fs[r.done].rttEligible && fs[r.done].transmissions <= 1)
    decreases |w.rest|
  {
    hide SampleOf, Complete, Shorten;
    if w.rest == [] || w.rest[0].pos >= ack {
      assert w.rest != [] ==> w.rest[0] == fs[w.done];
    } else if ack >= w.rest[0].End() {
      CompleteGathers(w, fs, now);
      SweepGathers(Complete(w, now), fs, ack, now);
    } else {
      ShortenGathers(w, fs, ack, now);
    }
  }

  /** Karn's rule (section 3 of RFC 6298): a sample that reaches the estimator is the time since
      the only submission of the newest flight that the acknowledgment completed, and no flight that it
      touches was submitted more than once. */
  lemma SampleIsSingleSubmission(fs: seq<Flight>, ack: int, now: Time, cfg: Config)
    requires AllSound(fs, cfg)
    requires forall i :: 0 <= i < |fs| && fs[i].transmissions == 0 ==> ack <= fs[i].pos
    requires forall i :: 0 <= i < |fs| ==> fs[i].pos < fs[i].End()
    ensures
      var r := SweepFlights(fs, ack, now);
      !r.ambiguous && r.sample.Some? ==>
        && 0 < r.done <= |fs|
        && |fs[r.done - 1].sends| == 1
        && r.sample.value == Monus(now, fs[r.done - 1].sends[0])
        && (forall i :: 0 <= i < r.done ==> fs[i].End() <= ack && |fs[i].sends| == 1)
        && (r.done < |fs| ==> ack < fs[r.done].End() && (fs[r.done].pos < ack ==> |fs[r.done].sends| == 1))
  {
    var w := Sweep(fs, 0, false, false, false, None, 0);
    assert fs == fs[0..];
    SweepGathers(w, fs, ack, now);
    SweepBoundary(w, fs, ack, now);
    var r := SweepFlights(fs, ack, now);
    if !r.ambiguous && r.sample.Some? {
      forall i | 0 <= i < r.done ensures |fs[i].sends| == 1 {
        assert SoundFlight(fs[i], cfg);
        assert fs[i].transmissions != 0;
      }
      assert SoundFlight(fs[r.done - 1], cfg);
      if r.done < |fs| {
        assert SoundFlight(fs[r.done], cfg);
      }
    }
  }

  /** The completed flights are those that end at or below the acknowledgment. */
  lemma {:induction false} SweepBoundary(w: Sweep, fs: seq<Flight>, ack: int, now: Time)
    requires w.done <= |fs| && w.rest == fs[w.done..]
    requires forall i :: 0 <= i < w.done ==> fs[i].End() <= ack
    requires forall i :: 0 <= i < |fs| ==> fs[i].pos < fs[i].End()
    ensures
      var r := SweepFrom(w, ack, now);
      && r.done <= |fs|
      && (forall i :: 0 <= i < r.done ==> fs[i].End() <= ack)
      && (r.done < |fs| ==> ack < fs[r.done].End())
    decreases |w.rest|
  {
    if w.rest == [] || w.rest[0].pos >= ack {
      if w.done < |fs| {
        assert w.rest[0] == fs[w.done];
      }
    } else if ack >= w.rest[0].End() {
      var v := Complete(w, now);
      assert v.rest == fs[v.done..];
      SweepBoundary(v, fs, ack, now);
    }
  }

  lemma {:induction false} SweepKeepsSound(w: Sweep, ack: int, now: Time, cfg: Config)
    requires AllSound(w.rest, cfg)
    ensures AllSound(SweepFrom(w, ack, now).rest, cfg)
    decreases |w.rest|
  {
    if w.rest != [] && w.rest[0].pos < ack && ack >= w.rest[0].End() {
      SweepKeepsSound(Complete(w, now), ack, now, cfg);
    }
  }
}
