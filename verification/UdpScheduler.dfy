/**
 The UDP transmit scheduler of `src/api/udp/mod.rs`: round robin between destinations, first in first
 out within one, and byte pacing. A destination is the number that orders socket addresses.
 */
module UdpScheduler {
  import opened Prelude

  type Peer = nat

  datatype Config = Config(
    queueCapacity: nat, maxTxPeers: nat, perPeerCapacity: nat, txBudget: nat, fair: bool,
    rate: Option<nat>, peerRate: Option<nat>, lifetime: Option<Time>)
  {
    predicate Valid() {
      && 0 < queueCapacity && 0 < maxTxPeers && 0 < perPeerCapacity && 0 < txBudget
      && rate != Some(0) && peerRate != Some(0)
    }
  }

  datatype Item = Item(id: nat, source: Peer, destination: Peer, deadline: Option<Time>, bytes: nat)

  datatype Budget = Budget(count: nat, next: Time)

  datatype Scheduler = Scheduler(queue: seq<Item>, peers: map<Peer, Budget>, next: Time, last: Option<Peer>)

  const EMPTY: Scheduler := Scheduler([], map[], 0, None)

  function CountOf(queue: seq<Item>, d: Peer): nat {
    if queue == [] then 0 else (if queue[0].destination == d then 1 else 0) + CountOf(queue[1..], d)
  }

  /** Ids grow along the queue and every count is right. */
  predicate Consistent(t: Scheduler, nextId: nat, cfg: Config) {
    && Ordered(t.queue, nextId)
    && (forall i :: 0 <= i < |t.queue| ==> t.queue[i].destination in t.peers)
    && (forall d :: d in t.peers ==> t.peers[d].count == CountOf(t.queue, d) <= cfg.perPeerCapacity)
    && |t.queue| <= cfg.queueCapacity && |t.peers| <= cfg.maxTxPeers
  }

  predicate Ordered(queue: seq<Item>, nextId: nat) {
    && (forall i, j :: 0 <= i < j < |queue| ==> queue[i].id < queue[j].id)
    && (forall i :: 0 <= i < |queue| ==> queue[i].id < nextId)
  }

  // ---------------------------------------------------------------- admission, push, remove

  datatype Failure = SourceUnavailable | InvalidDestination | QueueFull | PeerQueueFull | PeerLimit | NoBuffer
    | InvalidPacket | DeadlineExpired | ConfigurationChanged | DeviceError

  /** Forgets destinations that have nothing queued and are within their pace. */
  function Retained(peers: map<Peer, Budget>, now: Time): map<Peer, Budget> {
    map d | d in peers && (peers[d].count > 0 || peers[d].next > now) :: peers[d]
  }

  function Admission(t: Scheduler, peer: Peer, now: Time, cfg: Config): (Scheduler, Option<Failure>) {
    var u := t.(peers := Retained(t.peers, now));
    (u, if |u.queue| >= cfg.queueCapacity then Some(QueueFull)
        else if peer in u.peers then (if u.peers[peer].count >= cfg.perPeerCapacity then Some(PeerQueueFull) else None)
        else if |u.peers| >= cfg.maxTxPeers then Some(PeerLimit) else None)
  }

  function Push(t: Scheduler, q: Item): Scheduler {
    var b := if q.destination in t.peers then t.peers[q.destination] else Budget(0, 0);
    t.(queue := t.queue + [q], peers := t.peers[q.destination := b.(count := b.count + 1)])
  }

  function Without(queue: seq<Item>, i: nat): seq<Item>
    requires i < |queue|
  {
    queue[..i] + queue[i + 1..]
  }

  function Remove(t: Scheduler, i: nat): Scheduler
    requires i < |t.queue|
  {
    var d := t.queue[i].destination;
    t.(queue := Without(t.queue, i),
       peers := if d in t.peers then t.peers[d := t.peers[d].(count := Monus(t.peers[d].count, 1))] else t.peers)
  }

  lemma {:induction false} CountAppend(queue: seq<Item>, q: Item, d: Peer)
    ensures CountOf(queue + [q], d) == CountOf(queue, d) + (if q.destination == d then 1 else 0)
  {
    if queue != [] {
      assert (queue + [q])[1..] == queue[1..] + [q];
      CountAppend(queue[1..], q, d);
    }
  }

  lemma {:induction false} CountWithout(queue: seq<Item>, i: nat, d: Peer)
    requires i < |queue|
    ensures CountOf(Without(queue, i), d) == CountOf(queue, d) - (if queue[i].destination == d then 1 else 0)
  {
    if i == 0 {
      assert Without(queue, i) == queue[1..];
    } else {
      assert Without(queue, i)[1..] == Without(queue[1..], i - 1);
      CountWithout(queue[1..], i - 1, d);
    }
  }

  lemma {:induction false} CountPositive(queue: seq<Item>, i: nat)
    requires i < |queue|
    ensures CountOf(queue, queue[i].destination) > 0
  {
    if i > 0 {
      CountPositive(queue[1..], i - 1);
    }
  }

  lemma FewerKeys(a: map<Peer, Budget>, b: map<Peer, Budget>)
    requires a.Keys <= b.Keys
    ensures |a| <= |b|
  {
    assert b.Keys == a.Keys + (b.Keys - a.Keys);
    assert |a.Keys| == |a| && |b.Keys| == |b|;
  }

  lemma RetainedConsistent(t: Scheduler, now: Time, nextId: nat, cfg: Config)
    requires Consistent(t, nextId, cfg)
    ensures Consistent(t.(peers := Retained(t.peers, now)), nextId, cfg)
  {
    hide Ordered, CountOf;
    FewerKeys(Retained(t.peers, now), t.peers);
    forall i | 0 <= i < |t.queue| ensures t.queue[i].destination in Retained(t.peers, now) {
      CountPositive(t.queue, i);
    }
  }

  /** An admitted item keeps every bound and count. */
  lemma PushConsistent(t: Scheduler, q: Item, now: Time, nextId: nat, cfg: Config)
    requires Consistent(t, nextId, cfg) && Admission(t, q.destination, now, cfg).1.None? && q.id == nextId
    requires cfg.Valid()
    ensures Consistent(Push(Admission(t, q.destination, now, cfg).0, q), nextId + 1, cfg)
  {
    hide CountOf, Ordered, Retained;
    RetainedConsistent(t, now, nextId, cfg);
    var u := Admission(t, q.destination, now, cfg).0;
    var v := Push(u, q);
    PushCounts(u, q, nextId, cfg);
    PushOrdered(u.queue, q, nextId);
    PushKeys(u, q);
  }

  lemma PushOrdered(queue: seq<Item>, q: Item, nextId: nat)
    requires Ordered(queue, nextId) && q.id == nextId
    ensures Ordered(queue + [q], nextId + 1)
  {}

  lemma PushKeys(u: Scheduler, q: Item)
    ensures |Push(u, q).peers| == |u.peers| + (if q.destination in u.peers then 0 else 1)
  {
    var v := Push(u, q);
    if q.destination in u.peers {
      assert v.peers.Keys == u.peers.Keys;
    } else {
      assert v.peers.Keys == u.peers.Keys + {q.destination};
    }
    assert |v.peers| == |v.peers.Keys| && |u.peers| == |u.peers.Keys|;
  }

  lemma PushCounts(u: Scheduler, q: Item, nextId: nat, cfg: Config)
    requires Consistent(u, nextId, cfg) && 0 < cfg.perPeerCapacity
    requires q.destination in u.peers ==> u.peers[q.destination].count < cfg.perPeerCapacity
    ensures
      var v := Push(u, q);
      forall d :: d in v.peers ==> v.peers[d].count == CountOf(v.queue, d) <= cfg.perPeerCapacity
  {
    hide Ordered, CountOf;
    var v := Push(u, q);
    forall d | d in v.peers ensures v.peers[d].count == CountOf(v.queue, d) <= cfg.perPeerCapacity {
      CountAppend(u.queue, q, d);
      if d !in u.peers { CountAbsent(u.queue, d); }
    }
  }

  lemma {:induction false} CountAbsent(queue: seq<Item>, d: Peer)
    requires forall i :: 0 <= i < |queue| ==> queue[i].destination != d
    ensures CountOf(queue, d) == 0
  {
    if queue != [] {
      CountAbsent(queue[1..], d);
    }
  }

  lemma RemoveConsistent(t: Scheduler, i: nat, nextId: nat, cfg: Config)
    requires Consistent(t, nextId, cfg) && i < |t.queue|
    ensures Consistent(Remove(t, i), nextId, cfg)
    ensures t.peers[t.queue[i].destination].count > 0
  {
    hide CountOf, Ordered, Without;
    var u := Remove(t, i);
    CountPositive(t.queue, i);
    WithoutOrdered(t.queue, i, nextId);
    WithoutMembers(t.queue, i);
    forall d | d in u.peers ensures u.peers[d].count == CountOf(u.queue, d) <= cfg.perPeerCapacity {
      CountWithout(t.queue, i, d);
    }
    assert u.peers.Keys == t.peers.Keys;
    FewerKeys(u.peers, t.peers);
  }

  lemma WithoutMembers(queue: seq<Item>, i: nat)
    requires i < |queue|
    ensures |Without(queue, i)| == |queue| - 1
    ensures forall k :: 0 <= k < |queue| - 1 ==> Without(queue, i)[k] == queue[if k < i then k else k + 1]
  {}

  lemma WithoutOrdered(queue: seq<Item>, i: nat, nextId: nat)
    requires Ordered(queue, nextId) && i < |queue|
    ensures Ordered(Without(queue, i), nextId)
  {
    var w := Without(queue, i);
    assert forall k :: 0 <= k < |w| ==> w[k] == queue[if k < i then k else k + 1];
  }

  /** Destinations that hold a place: something is queued for them, or their pace is not over. */
  function Holding(t: Scheduler, now: Time): set<Peer> {
    set d | d in t.peers && (CountOf(t.queue, d) > 0 || now < t.peers[d].next)
  }

  /** A datagram is turned away exactly if the queue is full, its destination has its share of it, or it would need a
      place that no destination leaves; only what holds no place is forgotten, and nothing in the queue. */
  lemma AdmissionMeans(t: Scheduler, peer: Peer, nextId: nat, now: Time, cfg: Config)
    requires Consistent(t, nextId, cfg)
    ensures
      var (u, why) := Admission(t, peer, now, cfg);
      && u.queue == t.queue && u.next == t.next && u.last == t.last && u.peers.Keys == Holding(t, now)
      && (forall d :: d in u.peers ==> u.peers[d] == t.peers[d])
      && why == if |t.queue| == cfg.queueCapacity then Some(QueueFull)
                else if peer in Holding(t, now) && CountOf(t.queue, peer) >= cfg.perPeerCapacity
                then Some(PeerQueueFull)
                else if peer !in Holding(t, now) && |Holding(t, now)| >= cfg.maxTxPeers then Some(PeerLimit)
                else None
  {
    hide CountOf, Ordered;
    var u := Admission(t, peer, now, cfg).0;
    assert u.peers.Keys == Holding(t, now);
    assert |u.peers.Keys| == |u.peers|;
  }

  // ---------------------------------------------------------------- choosing

  predicate Eligible(t: Scheduler, i: nat, now: Time, blocked: set<Peer>)
    requires i < |t.queue|
  {
    var d := t.queue[i].destination;
    d !in blocked && d in t.peers && t.peers[d].next <= now
  }

  /** Whether a destination has to wait for the next round. */
  predicate Wraps(last: Option<Peer>, d: Peer) { last.Some? && d <= last.value }

  /** The order of the round: destinations after the last one served, then the others; then age. */
  predicate Sooner(last: Option<Peer>, a: Item, i: nat, b: Item, j: nat) {
    var x, y := Wraps(last, a.destination), Wraps(last, b.destination);
    (!x && y) || (x == y && (a.destination < b.destination || (a.destination == b.destination && i < j)))
  }

  /** The best eligible index below `n`. */
  function Best(t: Scheduler, now: Time, blocked: set<Peer>, n: nat): (r: Option<nat>)
    requires n <= |t.queue|
    ensures r.None? ==> forall j :: 0 <= j < n ==> !Eligible(t, j, now, blocked)
    ensures r.Some? ==> r.value < n && Eligible(t, r.value, now, blocked)
    ensures r.Some? ==> forall j :: 0 <= j < n && Eligible(t, j, now, blocked) && j != r.value ==>
                          Sooner(t.last, t.queue[r.value], r.value, t.queue[j], j)
  {
    if n == 0 then None
    else
      var b := Best(t, now, blocked, n - 1);
      if Eligible(t, n - 1, now, blocked)
         && (b.None? || Sooner(t.last, t.queue[n - 1], n - 1, t.queue[b.value], b.value))
      then Some(n - 1) else b
  }

  function Candidate(t: Scheduler, now: Time, fair: bool, blocked: set<Peer>): (r: Option<nat>)
    ensures r.Some? ==> r.value < |t.queue| && Eligible(t, r.value, now, blocked) && t.next <= now
  {
    if now < t.next then None
    else if !fair then (if t.queue != [] && Eligible(t, 0, now, blocked) then Some(0) else None)
    else Best(t, now, blocked, |t.queue|)
  }

  /** In both modes the chosen datagram is the oldest one queued for its destination. */
  lemma CandidateIsOldest(t: Scheduler, now: Time, fair: bool, blocked: set<Peer>, j: nat)
    requires Candidate(t, now, fair, blocked).Some? && j < |t.queue|
    requires t.queue[j].destination == t.queue[Candidate(t, now, fair, blocked).value].destination
    ensures Candidate(t, now, fair, blocked).value <= j
  {
    hide Best;
    assert Eligible(t, j, now, blocked);
  }

  /** A datagram may leave: neither its destination nor the pool has to wait, and the device has not declined it. */
  predicate Free(t: Scheduler, i: nat, now: Time, blocked: set<Peer>) {
    && i < |t.queue|
    && var d := t.queue[i].destination;
       t.next <= now && d !in blocked && d in t.peers && t.peers[d].next <= now
  }

  /** There is a candidate exactly if some datagram may leave; without fairness, exactly if the oldest one may. */
  lemma CandidateIff(t: Scheduler, now: Time, fair: bool, blocked: set<Peer>)
    ensures
      var r := Candidate(t, now, fair, blocked);
      && (r.Some? ==> Free(t, r.value, now, blocked))
      && (if fair then r.None? ==> forall i :: 0 <= i < |t.queue| ==> !Free(t, i, now, blocked)
          else r == if Free(t, 0, now, blocked) then Some(0) else None)
  {
    hide Best;
    forall i | 0 <= i < |t.queue| && Free(t, i, now, blocked) ensures Eligible(t, i, now, blocked) {}
  }

  // ---------------------------------------------------------------- fairness

  /** Going up from `p` and round, `d` comes before `q`. */
  predicate Between(p: Peer, d: Peer, q: Peer) {
    if p < q then p < d < q else p < d || d < q
  }

  predicate Waiting(t: Scheduler, now: Time, blocked: set<Peer>, q: Peer) {
    exists j :: 0 <= j < |t.queue| && t.queue[j].destination == q && Eligible(t, j, now, blocked)
  }

  /** A choice that passes over an eligible destination stays on the near side of it. */
  lemma ChoiceBefore(t: Scheduler, now: Time, blocked: set<Peer>, l: Peer, q: Peer)
    requires t.last == Some(l) && l != q && Waiting(t, now, blocked, q) && Candidate(t, now, true, blocked).Some?
    ensures
      var d := t.queue[Candidate(t, now, true, blocked).value].destination;
      d == q || Between(l, d, q)
  {
    hide Best;
    var j :| 0 <= j < |t.queue| && t.queue[j].destination == q && Eligible(t, j, now, blocked);
    var i := Candidate(t, now, true, blocked).value;
    assert i == j || Sooner(t.last, t.queue[i], i, t.queue[j], j);
  }

  /** One acceptance: the scheduler as it was when the choice was made. */
  datatype Turn = Turn(t: Scheduler, now: Time, blocked: set<Peer>)

  function Chosen(u: Turn): Option<Peer> {
    var r := Candidate(u.t, u.now, true, u.blocked);
    if r.Some? then Some(u.t.queue[r.value].destination) else None
  }

  /** Consecutive acceptances: each sees the previous one as the last served. */
  predicate Consecutive(turns: seq<Turn>, p: Peer) {
    && (turns != [] ==> turns[0].t.last == Some(p))
    && (forall k :: 0 <= k < |turns| ==> Chosen(turns[k]).Some?)
    && (forall k :: 0 < k < |turns| ==> turns[k].t.last == Chosen(turns[k - 1]))
  }

  /** `q` is eligible at every turn and never chosen. */
  predicate PassedOver(turns: seq<Turn>, q: Peer) {
    forall k :: 0 <= k < |turns| ==>
      Waiting(turns[k].t, turns[k].now, turns[k].blocked, q) && Chosen(turns[k]) != Some(q)
  }

  lemma {:induction false} StaysBefore(turns: seq<Turn>, p: Peer, q: Peer, k: nat)
    requires Consecutive(turns, p) && PassedOver(turns, q) && p != q && k < |turns|
    ensures Chosen(turns[k]).Some? && Between(p, Chosen(turns[k]).value, q)
  {
    hide Candidate, Waiting;
    var u := turns[k];
    assert Chosen(u).Some? && Chosen(u) != Some(q);
    if k == 0 {
      ChoiceBefore(u.t, u.now, u.blocked, p, q);
    } else {
      StaysBefore(turns, p, q, k - 1);
      ChoiceBefore(u.t, u.now, u.blocked, Chosen(turns[k - 1]).value, q);
    }
  }

  /** Between two acceptances of `p`, every other destination that stays eligible is accepted: while
      one is passed over, `p` does not get another turn. */
  lemma Fair(turns: seq<Turn>, p: Peer, q: Peer)
    requires Consecutive(turns, p) && PassedOver(turns, q) && p != q
    ensures forall k :: 0 <= k < |turns| ==> Chosen(turns[k]) != Some(p)
  {
    hide Chosen, PassedOver, Consecutive;
    forall k | 0 <= k < |turns| ensures Chosen(turns[k]) != Some(p) {
      StaysBefore(turns, p, q, k);
    }
  }

  // ---------------------------------------------------------------- pacing

  function CeilDiv(a: nat, b: nat): nat
    requires b > 0
  {
    if a == 0 then 0 else (a - 1) / b + 1
  }

  /** The time that `bytes` take at `rate` bytes per second, rounded up to nanoseconds. */
  function Spacing(bytes: nat, rate: Option<nat>): Time
    requires rate != Some(0)
  {
    if rate.None? then 0 else CeilDiv(bytes * SECOND, rate.value)
  }

  lemma SpacingEnough(bytes: nat, rate: nat)
    requires rate > 0
    ensures bytes * SECOND <= rate * Spacing(bytes, Some(rate))
  {
    var a := bytes * SECOND;
    if a > 0 {
      var q := (a - 1) / rate;
      assert a - 1 == q * rate + (a - 1) % rate;
      assert rate * (q + 1) == q * rate + rate;
    }
  }

  /** And no longer than that: a nanosecond less would not be enough. */
  lemma SpacingLeast(bytes: nat, rate: Option<nat>)
    requires rate != Some(0)
    ensures
      var wait := Spacing(bytes, rate);
      if rate.None? || bytes == 0 then wait == 0 else wait > 0 && rate.value * (wait - 1) < bytes * 1_000_000_000
  {
    if rate.Some? && bytes > 0 {
      var a := bytes * SECOND;
      var q := (a - 1) / rate.value;
      assert a - 1 == q * rate.value + (a - 1) % rate.value;
      assert rate.value * q == q * rate.value;
    }
  }

  /** An acceptance makes the pool and the destination wait for just the time of the bytes, and nobody else. */
  lemma ChargeMeans(t: Scheduler, peer: Peer, bytes: nat, now: Time, cfg: Config)
    requires cfg.Valid() && peer in t.peers
    ensures
      var u := Charge(t, peer, bytes, now, cfg);
      && u.queue == t.queue && u.last == Some(peer) && u.peers.Keys == t.peers.Keys
      && u.next == now + Spacing(bytes, cfg.rate) && u.peers[peer].next == now + Spacing(bytes, cfg.peerRate)
      && u.peers[peer].count == t.peers[peer].count
      && forall d :: d in t.peers && d != peer ==> u.peers[d] == t.peers[d]
  {
    hide Spacing;
  }

  function Charge(t: Scheduler, peer: Peer, bytes: nat, now: Time, cfg: Config): Scheduler
    requires cfg.Valid()
  {
    t.(last := Some(peer),
       next := now + Spacing(bytes, cfg.rate),
       peers := if peer in t.peers then t.peers[peer := t.peers[peer].(next := now + Spacing(bytes, cfg.peerRate))]
                else t.peers)
  }

  /** An acceptance by the device. */
  datatype Sent = Sent(id: nat, destination: Peer, bytes: nat, at: Time)

  function Bytes(log: seq<Sent>): nat {
    if log == [] then 0 else Bytes(log[..|log| - 1]) + log[|log| - 1].bytes
  }

  /** What was sent from any acceptance on took at least its time, up to `until`. */
  predicate PacedUntil(log: seq<Sent>, rate: nat, until: Time) {
    forall j :: 0 <= j < |log| ==> Bytes(log[j..]) * SECOND <= rate * (until - log[j].at)
  }

  /** Any stretch of acceptances, without the last one's bytes, took at least its time. */
  predicate Paced(log: seq<Sent>, rate: nat) {
    forall j, k :: 0 <= j <= k < |log| ==> Bytes(log[j..k]) * SECOND <= rate * (log[k].at - log[j].at)
  }

  lemma PacedLater(log: seq<Sent>, rate: nat, until: Time, later: Time)
    requires PacedUntil(log, rate, until) && until <= later
    ensures PacedUntil(log, rate, later)
  {
    hide Bytes;
    forall j | 0 <= j < |log| ensures Bytes(log[j..]) * SECOND <= rate * (later - log[j].at) {
      Distribute(rate, until - log[j].at, later - until);
      assert rate * (later - until) >= 0;
    }
  }

  /** Another acceptance, not before its time, keeps the pace. */
  lemma PacedNext(log: seq<Sent>, e: Sent, rate: nat, until: Time)
    requires rate > 0 && Paced(log, rate) && PacedUntil(log, rate, until) && until <= e.at
    ensures Paced(log + [e], rate) && PacedUntil(log + [e], rate, e.at + Spacing(e.bytes, Some(rate)))
  {
    hide Spacing, PacedUntil, Paced, Bytes;
    PacedLater(log, rate, until, e.at);
    PaceExtended(log, e, rate);
    StretchExtended(log, e, rate);
  }

  lemma Distribute(rate: nat, a: int, b: int)
    ensures rate * (a + b) == rate * a + rate * b
  {}

  lemma PaceExtended(log: seq<Sent>, e: Sent, rate: nat)
    requires rate > 0 && PacedUntil(log, rate, e.at)
    ensures PacedUntil(log + [e], rate, e.at + Spacing(e.bytes, Some(rate)))
  {
    hide Spacing, Bytes;
    SpacingEnough(e.bytes, rate);
    var more, wait := log + [e], Spacing(e.bytes, Some(rate));
    forall j | 0 <= j < |more| ensures Bytes(more[j..]) * SECOND <= rate * (e.at + wait - more[j].at) {
      BytesAppend(log, e, j);
      Distribute(rate, e.at - more[j].at, wait);
      if j == |log| { NoBytes(log, j); } else { assert more[j] == log[j]; }
    }
  }

  lemma NoBytes(log: seq<Sent>, j: nat)
    requires j == |log|
    ensures Bytes(log[j..]) == 0
  {}

  lemma StretchExtended(log: seq<Sent>, e: Sent, rate: nat)
    requires Paced(log, rate) && PacedUntil(log, rate, e.at)
    ensures Paced(log + [e], rate)
  {
    hide Bytes;
    var more := log + [e];
    forall j, k | 0 <= j <= k < |more| ensures Bytes(more[j..k]) * SECOND <= rate * (more[k].at - more[j].at) {
      assert more[j..k] == log[j..k];
      if k == |log| {
        assert log[j..k] == log[j..];
        if j == k { NoBytes(log, j); } else { assert more[j] == log[j]; }
      } else {
        assert more[j] == log[j] && more[k] == log[k];
      }
    }
  }

  lemma BytesAppend(log: seq<Sent>, e: Sent, j: nat)
    requires j <= |log|
    ensures Bytes((log + [e])[j..]) == Bytes(log[j..]) + e.bytes
  {
    var s := (log + [e])[j..];
    assert s == log[j..] + [e];
    assert s[..|s| - 1] == log[j..];
  }
}
