/** Queueing, expiry and transmission of the UDP pool of `src/api/mod.rs`. */
module UdpPool {
  import opened Prelude
  import opened UdpScheduler

  /** Everything the device accepted, what it accepted since the scheduler was last reset, the scheduler
      as each of those choices saw it, and the ids of all datagrams that have had their outcome. */
  datatype History = History(log: seq<Sent>, epoch: seq<Sent>, turns: seq<Turn>, done: set<nat>)

  /** A history goes on: what was accepted in between is in all its parts. */
  predicate Grows(a: History, b: History) {
    && a.log <= b.log && a.turns <= b.turns && a.done <= b.done
    && b.epoch == a.epoch + b.log[|a.log|..]
  }

  lemma GrowsSelf(a: History, done: set<nat>)
    requires a.done <= done
    ensures Grows(a, a.(done := done))
  {
    assert a.epoch == a.epoch + a.log[|a.log|..];
  }

  lemma GrowsOn(a: History, b: History, c: History)
    requires Grows(a, b) && Grows(b, c)
    ensures Grows(a, c)
  {
    assert c.log[|a.log|..] == b.log[|a.log|..] + c.log[|b.log|..];
  }

  /** The scheduler `u.t` chose the datagram that was accepted. */
  predicate Chose(u: Turn, e: Sent, fair: bool) {
    var i := Candidate(u.t, u.now, fair, u.blocked);
    && i.Some?
    && var q := u.t.queue[i.value];
       e == Sent(q.id, q.destination, q.bytes, u.now)
  }

  function LastServed(epoch: seq<Sent>): Option<Peer> { if epoch == [] then None else Some(Last(epoch).destination) }

  /** Every acceptance was a choice of the scheduler, which remembered the one before. */
  predicate Rounds(last: Option<Peer>, epoch: seq<Sent>, turns: seq<Turn>, fair: bool) {
    && |turns| == |epoch| && last == LastServed(epoch)
    && (forall k :: 0 <= k < |turns| ==> Chose(turns[k], epoch[k], fair) && turns[k].t.last == LastServed(epoch[..k]))
  }

  predicate EndsWith(log: seq<Sent>, epoch: seq<Sent>) { |epoch| <= |log| && log[|log| - |epoch|..] == epoch }

  lemma RoundsNext(last: Option<Peer>, epoch: seq<Sent>, turns: seq<Turn>, fair: bool, u: Turn, e: Sent)
    requires Rounds(last, epoch, turns, fair) && u.t.last == last && Chose(u, e, fair)
    ensures Rounds(Some(e.destination), epoch + [e], turns + [u], fair)
  {
    hide Chose;
    var more, ts := epoch + [e], turns + [u];
    assert Last(more) == e;
    forall k | 0 <= k < |ts| ensures Chose(ts[k], more[k], fair) && ts[k].t.last == LastServed(more[..k]) {
      assert more[..k] == epoch[..k];
      if k == |turns| { assert epoch[..k] == epoch; }
    }
  }

  lemma EndsNext(log: seq<Sent>, epoch: seq<Sent>, e: Sent)
    requires EndsWith(log, epoch)
    ensures EndsWith(log + [e], epoch + [e])
  {
    assert (log + [e])[|log| - |epoch|..] == log[|log| - |epoch|..] + [e];
  }

  function Ids(queue: seq<Item>): set<nat> { set i | 0 <= i < |queue| :: queue[i].id }

  /** Every id issued so far has had its one outcome or is still queued. */
  ghost predicate Accounted(queue: seq<Item>, nextId: nat, settled: nat, done: set<nat>) {
    && (forall k: nat :: k in done || k in Ids(queue) <==> 1 <= k < nextId)
    && done !! Ids(queue)
    && |done| == settled
    && nextId >= 1
  }

  /** Nothing queued is older than what was already sent to the same destination. */
  predicate InOrder(queue: seq<Item>, log: seq<Sent>) {
    && (forall i, j :: 0 <= i < j < |log| && log[i].destination == log[j].destination ==> log[i].id < log[j].id)
    && (forall i, j :: 0 <= i < |log| && 0 <= j < |queue| && log[i].destination == queue[j].destination ==>
          log[i].id < queue[j].id)
  }

  function To(log: seq<Sent>, d: Peer): seq<Sent> {
    if log == [] then []
    else
      var init, e := log[..|log| - 1], log[|log| - 1];
      if e.destination == d then To(init, d) + [e] else To(init, d)
  }

  function PeerNext(t: Scheduler, d: Peer, now: Time): Time {
    if d in t.peers then Max(t.peers[d].next, now) else now
  }

  ghost predicate OnPace(t: Scheduler, now: Time, epoch: seq<Sent>, cfg: Config) {
    && (cfg.rate.Some? ==> Paced(epoch, cfg.rate.value) && PacedUntil(epoch, cfg.rate.value, Max(t.next, now)))
    && (cfg.peerRate.Some? ==> forall d: Peer ::
          Paced(To(epoch, d), cfg.peerRate.value) && PacedUntil(To(epoch, d), cfg.peerRate.value, PeerNext(t, d, now)))
  }

  ghost predicate Sane(t: Scheduler, nextId: nat, now: Time, settled: nat, h: History, cfg: Config) {
    && cfg.Valid() && Consistent(t, nextId, cfg)
    && Accounted(t.queue, nextId, settled, h.done)
    && InOrder(t.queue, h.log)
    && (forall i :: 0 <= i < |h.log| ==> h.log[i].id < nextId)
    && OnPace(t, now, h.epoch, cfg)
    && EndsWith(h.log, h.epoch) && Rounds(t.last, h.epoch, h.turns, cfg.fair)
  }

  // ---------------------------------------------------------------- steps

  lemma SettleOne(queue: seq<Item>, i: nat, nextId: nat, settled: nat, done: set<nat>)
    requires Accounted(queue, nextId, settled, done) && Ordered(queue, nextId) && i < |queue|
    ensures Accounted(Without(queue, i), nextId, settled + 1, done + {queue[i].id})
  {
    var w, id := Without(queue, i), queue[i].id;
    hide Without;
    WithoutMembers(queue, i);
    assert id in Ids(queue);
    forall k | k in Ids(queue) && k != id ensures k in Ids(w) {
      var j :| 0 <= j < |queue| && queue[j].id == k;
      assert w[if j < i then j else j - 1] == queue[j];
    }
    forall k | k in Ids(w) ensures k in Ids(queue) && k != id {
      var j :| 0 <= j < |w| && w[j].id == k;
    }
    assert Ids(w) == Ids(queue) - {id};
  }

  lemma OrderWithout(queue: seq<Item>, i: nat, log: seq<Sent>)
    requires InOrder(queue, log) && i < |queue|
    ensures InOrder(Without(queue, i), log)
  {
    hide Without;
    WithoutMembers(queue, i);
  }

  lemma OrderAppend(queue: seq<Item>, q: Item, log: seq<Sent>)
    requires InOrder(queue, log) && forall i :: 0 <= i < |log| ==> log[i].id < q.id
    ensures InOrder(queue + [q], log)
  {}

  /** Sending the oldest datagram of a destination keeps the order. */
  lemma OrderSent(queue: seq<Item>, i: nat, nextId: nat, log: seq<Sent>, e: Sent)
    requires InOrder(queue, log) && Ordered(queue, nextId) && i < |queue|
    requires e.id == queue[i].id && e.destination == queue[i].destination
    requires forall j :: 0 <= j < |queue| && queue[j].destination == e.destination ==> i <= j
    ensures InOrder(Without(queue, i), log + [e])
  {
    hide Without;
    WithoutMembers(queue, i);
    var more, w := log + [e], Without(queue, i);
    forall j, k | 0 <= j < |more| && 0 <= k < |w| && more[j].destination == w[k].destination
      ensures more[j].id < w[k].id
    {
      if j < |log| { assert more[j] == log[j]; }
    }
  }

  lemma PaceSame(t: Scheduler, u: Scheduler, now: Time, later: Time, epoch: seq<Sent>, cfg: Config)
    requires OnPace(t, now, epoch, cfg) && now <= later
    requires t.next <= Max(u.next, later)
    requires forall d :: d in t.peers ==> t.peers[d].next <= PeerNext(u, d, later)
    ensures OnPace(u, later, epoch, cfg)
  {
    hide Paced, PacedUntil, To;
    if cfg.rate.Some? {
      PacedLater(epoch, cfg.rate.value, Max(t.next, now), Max(u.next, later));
    }
    if cfg.peerRate.Some? {
      forall d: Peer
        ensures Paced(To(epoch, d), cfg.peerRate.value)
        ensures PacedUntil(To(epoch, d), cfg.peerRate.value, PeerNext(u, d, later))
      {
        PacedLater(To(epoch, d), cfg.peerRate.value, PeerNext(t, d, now), PeerNext(u, d, later));
      }
    }
  }

  lemma PaceSent(t: Scheduler, i: nat, now: Time, epoch: seq<Sent>, e: Sent, cfg: Config)
    requires cfg.Valid() && OnPace(t, now, epoch, cfg) && i < |t.queue| && t.next <= now && e.at == now
    requires e.destination in t.peers && t.peers[e.destination].next <= now
    ensures OnPace(Charge(t, e.destination, e.bytes, now, cfg), now, epoch + [e], cfg)
  {
    hide Paced, PacedUntil, Spacing;
    var u := Charge(t, e.destination, e.bytes, now, cfg);
    if cfg.rate.Some? {
      PacedNext(epoch, e, cfg.rate.value, now);
    }
    if cfg.peerRate.Some? {
      var r := cfg.peerRate.value;
      assert (epoch + [e])[..|epoch|] == epoch;
      forall d: Peer ensures Paced(To(epoch + [e], d), r) && PacedUntil(To(epoch + [e], d), r, PeerNext(u, d, now)) {
        if d == e.destination {
          PacedNext(To(epoch, d), e, r, now);
        }
      }
    }
  }

  lemma DropKeeps(t: Scheduler, i: nat, nextId: nat, now: Time, settled: nat, h: History, cfg: Config)
    requires Sane(t, nextId, now, settled, h, cfg) && i < |t.queue|
    ensures Sane(Remove(t, i), nextId, now, settled + 1, h.(done := h.done + {t.queue[i].id}), cfg)
  {
    RemoveConsistent(t, i, nextId, cfg);
    SettleOne(t.queue, i, nextId, settled, h.done);
    OrderWithout(t.queue, i, h.log);
    RemoveShape(t, i);
    hide Without, Consistent, Accounted, InOrder, OnPace, Rounds;
    PaceSame(t, Remove(t, i), now, now, h.epoch, cfg);
  }

  lemma RemoveShape(t: Scheduler, i: nat)
    requires i < |t.queue|
    ensures
      var u := Remove(t, i);
      && u.queue == Without(t.queue, i) && u.next == t.next && u.last == t.last && u.peers.Keys == t.peers.Keys
      && forall d :: d in t.peers ==> u.peers[d].next == t.peers[d].next
  {
    hide Without;
  }

  /** The device accepted the candidate. */
  lemma SubmitKeeps(t: Scheduler, i: nat, blocked: set<Peer>, nextId: nat, now: Time, settled: nat, h: History,
                    cfg: Config)
    requires Sane(t, nextId, now, settled, h, cfg) && Candidate(t, now, cfg.fair, blocked) == Some(i)
    ensures
      var q := t.queue[i];
      var e := Sent(q.id, q.destination, q.bytes, now);
      var u := Remove(Charge(t, q.destination, q.bytes, now, cfg), i);
      var after := History(h.log + [e], h.epoch + [e], h.turns + [Turn(t, now, blocked)], h.done + {q.id});
      Sane(u, nextId, now, settled + 1, after, cfg) && Grows(h, after)
  {
    hide Without, Spacing, CountOf, InOrder, OnPace, Rounds, EndsWith;
    var q := t.queue[i];
    var e := Sent(q.id, q.destination, q.bytes, now);
    var c := Charge(t, q.destination, q.bytes, now, cfg);
    forall j | 0 <= j < |t.queue| && t.queue[j].destination == e.destination ensures i <= j {
      CandidateIsOldest(t, now, cfg.fair, blocked, j);
    }
    hide Candidate;
    ChargeConsistent(t, q.destination, q.bytes, now, nextId, cfg);
    RemoveConsistent(c, i, nextId, cfg);
    SettleOne(t.queue, i, nextId, settled, h.done);
    OrderSent(t.queue, i, nextId, h.log, e);
    PaceSent(t, i, now, h.epoch, e, cfg);
    RemoveShape(c, i);
    RoundsNext(t.last, h.epoch, h.turns, cfg.fair, Turn(t, now, blocked), e);
    EndsNext(h.log, h.epoch, e);
    hide Consistent, Accounted;
    PaceSame(c, Remove(c, i), now, now, h.epoch + [e], cfg);
  }

  lemma ChargeConsistent(t: Scheduler, peer: Peer, bytes: nat, now: Time, nextId: nat, cfg: Config)
    requires cfg.Valid() && Consistent(t, nextId, cfg)
    ensures Consistent(Charge(t, peer, bytes, now, cfg), nextId, cfg)
  {
    hide Ordered, CountOf, Spacing;
    var u := Charge(t, peer, bytes, now, cfg);
    assert u.peers.Keys == t.peers.Keys;
    FewerKeys(u.peers, t.peers);
  }

  lemma RetainKeeps(t: Scheduler, peer: Peer, nextId: nat, now: Time, settled: nat, h: History, cfg: Config)
    requires Sane(t, nextId, now, settled, h, cfg)
    ensures Sane(Admission(t, peer, now, cfg).0, nextId, now, settled, h, cfg)
  {
    RetainedConsistent(t, now, nextId, cfg);
    hide Consistent, Accounted, InOrder, OnPace, Rounds;
    PaceSame(t, Admission(t, peer, now, cfg).0, now, now, h.epoch, cfg);
  }

  lemma QueueKeeps(t: Scheduler, q: Item, nextId: nat, now: Time, settled: nat, h: History, cfg: Config)
    requires Sane(t, nextId, now, settled, h, cfg) && Admission(t, q.destination, now, cfg).1.None? && q.id == nextId
    ensures Sane(Push(Admission(t, q.destination, now, cfg).0, q), nextId + 1, now, settled, h, cfg)
  {
    hide Consistent, Accounted, InOrder, OnPace, Retained, Rounds;
    RetainKeeps(t, q.destination, nextId, now, settled, h, cfg);
    PushConsistent(t, q, now, nextId, cfg);
    var u := Admission(t, q.destination, now, cfg).0;
    IssueOne(u.queue, q, nextId, settled, h.done);
    OrderAppend(u.queue, q, h.log);
    PaceSame(u, Push(u, q), now, now, h.epoch, cfg);
  }

  lemma IssueOne(queue: seq<Item>, q: Item, nextId: nat, settled: nat, done: set<nat>)
    requires Accounted(queue, nextId, settled, done) && q.id == nextId
    ensures Accounted(queue + [q], nextId + 1, settled, done)
  {
    assert Ids(queue + [q]) == Ids(queue) + {q.id} by {
      assert forall j :: 0 <= j < |queue| ==> (queue + [q])[j] == queue[j];
      assert (queue + [q])[|queue|] == q;
    }
  }

  lemma TimeKeeps(t: Scheduler, nextId: nat, now: Time, later: Time, settled: nat, h: History, cfg: Config)
    requires Sane(t, nextId, now, settled, h, cfg) && now <= later
    ensures Sane(t, nextId, later, settled, h, cfg)
  {
    hide Consistent, Accounted, InOrder, OnPace, Rounds;
    PaceSame(t, t, now, later, h.epoch, cfg);
  }

  /** Once the queue is empty the scheduler can start afresh. */
  lemma ResetKeeps(t: Scheduler, nextId: nat, now: Time, settled: nat, h: History, cfg: Config)
    requires Sane(t, nextId, now, settled, h, cfg) && t.queue == []
    ensures Sane(EMPTY, nextId, now, settled, h.(epoch := [], turns := []), cfg)
  {}

  // ---------------------------------------------------------------- the pool

  /** What the device does with one datagram: `Err` consumes nothing, and so does accepting none. */
  datatype Answer = Accepts | AcceptsNone | WouldBlock | Refuses | Breaks

  /** Why a queued datagram is dropped without being offered to the device. */
  datatype Doom = Expired(at: Time) | Unbound(source: Peer)

  predicate Doomed(q: Item, why: Doom) {
    match why
    case Expired(at) => q.deadline.Some? && at >= q.deadline.value
    case Unbound(source) => q.source == source
  }

  datatype PoolError = TimeWentBackwards | DeviceFailed | Rejected(why: Failure) | IdsExhausted

  class Pool {
    const cfg: Config
    var services: set<Peer>
    var tx: Scheduler
    var nextId: u64
    var now: Time
    var submitted: nat
    var dropped: nat
    var rejected: nat
    ghost var h: History

    /** Ids issued are those submitted, dropped or queued, each once; counts, order and pace are right. */
    ghost predicate Valid()
      reads this
    {
      Sane(tx, nextId, now, submitted + dropped, h, cfg)
    }

    constructor (cfg: Config)
      requires cfg.Valid()
      ensures Valid() && this.cfg == cfg && tx == EMPTY && h == History([], [], [], {})
    {
      this.cfg := cfg;
      services, tx, nextId, now := {}, EMPTY, 1, 0;
      submitted, dropped, rejected := 0, 0, 0;
      h := History([], [], [], {});
    }

    /** Removes every doomed datagram and keeps the others in order. */
    method Purge(why: Doom)
      requires Valid()
      modifies this`tx, this`dropped, this`h
      ensures Valid() && h == old(h).(done := h.done) && Grows(old(h), h)
      ensures forall i :: 0 <= i < |tx.queue| ==> !Doomed(tx.queue[i], why) && tx.queue[i] in old(tx).queue
      ensures forall i :: 0 <= i < |old(tx).queue| && !Doomed(old(tx).queue[i], why) ==> old(tx).queue[i] in tx.queue
      ensures dropped - old(dropped) == |old(tx).queue| - |tx.queue|
      ensures tx.next == old(tx).next && tx.last == old(tx).last && From(old(tx), tx, h.done, {})
    {
      hide Sane, Doomed, Remove, Without, From;
      FromSelf(tx, h.done, {});
      var i := 0;
      while i < |tx.queue|
        invariant Valid() && h == old(h).(done := h.done) && old(h).done <= h.done && i <= |tx.queue|
        invariant forall k :: 0 <= k < i ==> !Doomed(tx.queue[k], why)
        invariant forall k :: 0 <= k < |tx.queue| ==> tx.queue[k] in old(tx).queue
        invariant forall k :: 0 <= k < |old(tx).queue| && !Doomed(old(tx).queue[k], why) ==>
                  old(tx).queue[k] in tx.queue
        invariant dropped - old(dropped) == |old(tx).queue| - |tx.queue|
        invariant tx.next == old(tx).next && tx.last == old(tx).last && From(old(tx), tx, h.done, {})
        decreases |tx.queue| - i
      {
        if Doomed(tx.queue[i], why) {
          ghost var was := tx.queue;
          DropKeeps(tx, i, nextId, now, submitted + dropped, h, cfg);
          RemoveShape(tx, i);
          WithoutMembers(tx.queue, i);
          WithoutKeeps(tx.queue, i);
          FromRemoved(tx, i, h.done);
          FromOn(old(tx), tx, Remove(tx, i), h.done, {}, h.done + {tx.queue[i].id}, {});
          h := h.(done := h.done + {tx.queue[i].id});
          tx := Remove(tx, i);
          dropped := dropped + 1;
        } else {
          i := i + 1;
        }
      }
      GrowsSelf(old(h), h.done);
    }

    method Advance(at: Time) returns (r: Result<(), PoolError>)
      requires Valid()
      modifies this`tx, this`dropped, this`h, this`now
      ensures Valid()
      ensures r == if at < old(now) then Err(TimeWentBackwards) else Ok(())
      ensures r.Err? ==> unchanged(this)
      ensures h == old(h).(done := h.done) && Grows(old(h), h)
      ensures dropped - old(dropped) == |old(tx).queue| - |tx.queue|
      ensures tx.next == old(tx).next && tx.last == old(tx).last && From(old(tx), tx, h.done, {})
      ensures r.Ok? ==> now == at && forall i :: 0 <= i < |tx.queue| ==>
                tx.queue[i] in old(tx).queue && (tx.queue[i].deadline.Some? ==> at < tx.queue[i].deadline.value)
      ensures forall q :: q in old(tx).queue && (q.deadline.Some? ==> at < q.deadline.value) ==> q in tx.queue
    {
      hide Sane, Grows, From;
      GrowsSelf(h, h.done);
      FromSelf(tx, h.done, {});
      if at < now { return Err(TimeWentBackwards); }
      TimeKeeps(tx, nextId, now, at, submitted + dropped, h, cfg);
      now := at;
      Purge(Expired(at));
      r := Ok(());
    }

    method Unbind(address: Peer) returns (found: bool)
      requires Valid()
      modifies this`tx, this`dropped, this`h, this`services
      ensures Valid() && found == (address in old(services)) && services == old(services) - {address}
      ensures found ==> forall i :: 0 <= i < |tx.queue| ==> tx.queue[i].source != address
      ensures forall i :: 0 <= i < |old(tx).queue| && old(tx).queue[i].source != address ==>
                old(tx).queue[i] in tx.queue
      ensures dropped - old(dropped) == |old(tx).queue| - |tx.queue|
      ensures h == old(h).(done := h.done) && Grows(old(h), h)
      ensures tx.next == old(tx).next && tx.last == old(tx).last
      ensures !found ==> unchanged(this)
    {
      hide Sane, Grows, From;
      GrowsSelf(h, h.done);
      if address !in services { return false; }
      services := services - {address};
      Purge(Unbound(address));
      assert forall i :: 0 <= i < |tx.queue| ==> !Doomed(tx.queue[i], Unbound(address));
      found := true;
    }

    /** A new set of endpoints drops everything queued and resets the scheduler. */
    method InstallServices(replacement: set<Peer>)
      requires Valid()
      modifies this`tx, this`dropped, this`h, this`services
      ensures Valid() && tx == EMPTY && services == replacement
      ensures dropped == old(dropped) + |old(tx).queue|
      ensures h.epoch == [] && h.turns == [] && h.log == old(h).log && old(h).done <= h.done
    {
      hide Sane, Remove;
      while tx.queue != []
        invariant Valid() && h.log == old(h).log && old(h).done <= h.done
        invariant dropped + |tx.queue| == old(dropped) + |old(tx).queue|
        decreases |tx.queue|
      {
        Refuse(0);
      }
      ResetKeeps(tx, nextId, now, submitted + dropped, h, cfg);
      tx := EMPTY;
      h := h.(epoch := [], turns := []);
      services := replacement;
    }

    /** Queues a datagram or rejects it; `deliverable` is the check of the destination address,
        `buffer` and `fits` the outcomes of frame allocation and of building. */
    method Send(source: Peer, destination: Peer, bytes: nat, deadline: Option<Time>, deliverable: bool, buffer: bool,
                fits: bool)
        returns (r: Result<nat, PoolError>)
      requires Valid()
      modifies this`tx, this`nextId, this`rejected
      ensures Valid() && h == old(h) && tx.next == old(tx).next && tx.last == old(tx).last
      ensures forall d: Peer :: PeerNext(tx, d, now) == PeerNext(old(tx), d, now)
      ensures r.Ok? ==> r.value == old(nextId) && |tx.queue| == |old(tx).queue| + 1
      ensures r.Ok? ==> tx.queue[..|tx.queue| - 1] == old(tx).queue
      ensures r.Ok? ==> var q := Last(tx.queue);
                        && q.id == r.value && q.source == source && q.destination == destination && q.bytes == bytes
                        && (deadline.Some? ==> q.deadline.Some? && q.deadline.value <= deadline.value)
                        && (cfg.lifetime.Some? ==> q.deadline.Some? && q.deadline.value <= now + cfg.lifetime.value)
                        && (q.deadline == deadline
                            || (cfg.lifetime.Some? && q.deadline == Some(now + cfg.lifetime.value)))
      ensures r.Ok? ==> nextId == old(nextId) + 1
      ensures r.Err? ==> tx.queue == old(tx).queue && nextId == old(nextId)
      ensures rejected == old(rejected) + if r.Err? && r.error.Rejected? then 1 else 0
      ensures
        var admission := Admission(old(tx), destination, now, cfg).1;
        var why := Objection(source in services, deliverable, deadline, now, admission, buffer, fits);
        if why.Some? then r == Err(Rejected(why.value))
        else r == if old(nextId) == 0xffff_ffff_ffff_ffff then Err(IdsExhausted) else Ok(old(nextId))
    {
      hide Sane, Admission, Push, PeerNext;
      if source !in services { rejected := rejected + 1; return Err(Rejected(SourceUnavailable)); }
      if !deliverable { rejected := rejected + 1; return Err(Rejected(InvalidDestination)); }
      if deadline.Some? && deadline.value <= now { rejected := rejected + 1; return Err(Rejected(DeadlineExpired)); }
      var admission := Admission(tx, destination, now, cfg);
      AdmissionShape(tx, destination, now, cfg);
      AdmissionPace(tx, destination, now, cfg);
      RetainKeeps(tx, destination, nextId, now, submitted + dropped, h, cfg);
      if admission.1.Some? {
        tx, rejected := admission.0, rejected + 1;
        return Err(Rejected(admission.1.value));
      }
      if !buffer { tx, rejected := admission.0, rejected + 1; return Err(Rejected(NoBuffer)); }
      if !fits { tx, rejected := admission.0, rejected + 1; return Err(Rejected(InvalidPacket)); }
      if nextId == 0xffff_ffff_ffff_ffff { tx := admission.0; return Err(IdsExhausted); }
      var q := Item(nextId, source, destination, EarlierDeadline(deadline, now, cfg.lifetime), bytes);
      QueueKeeps(tx, q, nextId, now, submitted + dropped, h, cfg);
      PushShape(admission.0, q, now);
      tx, nextId := Push(admission.0, q), nextId + 1;
      r := Ok(q.id);
    }

    /** Offers datagrams to the device until its budget, its candidates or the device's patience end.
        `asked` answers were used, and the device declined a datagram to each peer in `blocked`. */
    method Flush(answers: seq<Answer>) returns (r: Result<nat, PoolError>, ghost asked: nat, ghost blocked: set<Peer>)
      requires Valid() && |answers| >= cfg.txBudget
      modifies this`tx, this`dropped, this`submitted, this`h, this`now
      ensures Valid() && now == old(now) && asked <= cfg.txBudget
      ensures Fed(old(h), h, old(tx), tx, now, blocked)
      ensures |tx.queue| + (submitted - old(submitted)) + (dropped - old(dropped)) == |old(tx).queue|
      ensures submitted - old(submitted) == |h.log| - |old(h).log| == Accepting(answers[..asked])
      ensures |blocked| + Accepting(answers[..asked]) <= asked
      ensures r.Ok? ==> r.value == Accepting(answers[..asked])
      ensures r.Ok? && asked < cfg.txBudget ==> Candidate(tx, now, cfg.fair, blocked).None?
      ensures r.Err? ==> asked < cfg.txBudget && answers[asked].Breaks?
    {
      hide Sane, Candidate, Accepting, Doomed, Grows, Fed, From;
      var _ := Advance(now);
      ghost var h1, t1 := h, tx;
      r, asked, blocked := OfferAll(answers);
      FedFrom(old(h), h1, h, old(tx), t1, tx, now, blocked);
    }

    method OfferAll(answers: seq<Answer>)
        returns (r: Result<nat, PoolError>, ghost asked: nat, ghost blocked: set<Peer>)
      requires Valid() && |answers| >= cfg.txBudget
      modifies this`tx, this`dropped, this`submitted, this`h
      ensures Valid() && Fed(old(h), h, old(tx), tx, now, blocked) && asked <= cfg.txBudget
      ensures |tx.queue| + (submitted - old(submitted)) + (dropped - old(dropped)) == |old(tx).queue|
      ensures submitted - old(submitted) == |h.log| - |old(h).log| == Accepting(answers[..asked])
      ensures |blocked| + Accepting(answers[..asked]) <= asked
      ensures r.Ok? ==> r.value == Accepting(answers[..asked])
      ensures r.Ok? && asked < cfg.txBudget ==> Candidate(tx, now, cfg.fair, blocked).None?
      ensures r.Err? ==> asked < cfg.txBudget && answers[asked].Breaks?
    {
      hide Sane, Candidate, Accepting, Fed;
      var peers: set<Peer> := {};
      FedNone(h, tx, now);
      var accepted, k := 0, 0;
      AcceptingNone(answers);
      while k < cfg.txBudget
        invariant Valid() && Fed(old(h), h, old(tx), tx, now, peers) && k <= cfg.txBudget
        invariant submitted == old(submitted) + accepted && |h.log| == |old(h).log| + accepted
        invariant |tx.queue| + (submitted - old(submitted)) + (dropped - old(dropped)) == |old(tx).queue|
        invariant accepted == Accepting(answers[..k]) && |peers| + accepted <= k
      {
        assert cfg.Valid() by { Sanity(tx, nextId, now, submitted + dropped, h, cfg); }
        var i := Candidate(tx, now, cfg.fair, peers);
        if i.None? { return Ok(accepted), k, peers; }
        if answers[k].Breaks? { return Err(DeviceFailed), k, peers; }
        AcceptingNext(answers, k);
        ghost var h1, t1, p1 := h, tx, peers;
        peers := Offer(i.value, answers[k], peers);
        FedOn(old(h), h1, h, old(tx), t1, tx, now, p1, peers);
        if answers[k].Accepts? { accepted := accepted + 1; }
        k := k + 1;
      }
      return Ok(accepted), k, peers;
    }

    /** One answer of the device to the candidate. */
    method Offer(i: nat, answer: Answer, peers: set<Peer>) returns (blocked: set<Peer>)
      requires Valid() && Candidate(tx, now, cfg.fair, peers) == Some(i) && !answer.Breaks?
      modifies this`tx, this`dropped, this`submitted, this`h
      ensures Valid() && peers <= blocked && Offered(old(h), h, old(tx), tx, now, peers)
      ensures h.turns == old(h).turns + (if answer.Accepts? then [Turn(old(tx), now, peers)] else [])
      ensures submitted == old(submitted) + (if answer.Accepts? then 1 else 0)
      ensures |h.log| == |old(h).log| + (if answer.Accepts? then 1 else 0)
      ensures dropped == old(dropped) + (if answer.Refuses? then 1 else 0)
      ensures |tx.queue| == |old(tx).queue| - (if answer.Accepts? || answer.Refuses? then 1 else 0)
      ensures
        var declined := answer.AcceptsNone? || answer.WouldBlock? || (answer.Refuses? && cfg.fair);
        && i < |old(tx).queue|
        && blocked == (if declined then peers + {old(tx).queue[i].destination} else peers)
        && |blocked| <= |peers| + (if declined then 1 else 0)
    {
      hide Sane, Candidate, Remove, Charge, Without, Grows, From, Offered;
      blocked := peers;
      var peer := tx.queue[i].destination;
      GrowsSelf(h, h.done);
      FromSelf(tx, h.done, {});
      OfferedNone(h, h, tx, tx, now, peers);
      match answer
      case Accepts => Submit(i, peers);
      case AcceptsNone => blocked := peers + {peer};
      case WouldBlock => blocked := peers + {peer};
      case Refuses =>
        Refuse(i);
        OfferedNone(old(h), h, old(tx), tx, now, peers);
        if cfg.fair { blocked := peers + {peer}; }
    }

    method Refuse(i: nat)
      requires Valid() && i < |tx.queue|
      modifies this`tx, this`dropped, this`h
      ensures Valid() && dropped == old(dropped) + 1 && |tx.queue| == |old(tx).queue| - 1
      ensures h == old(h).(done := old(h).done + {old(tx).queue[i].id}) && Grows(old(h), h)
      ensures tx.queue == Without(old(tx).queue, i) && tx.next == old(tx).next && tx.last == old(tx).last
      ensures From(old(tx), tx, h.done, {})
    {
      hide Sane, Remove, Without, From;
      FromRemoved(tx, i, h.done);
      WithoutKeeps(tx.queue, i);
      GrowsSelf(h, h.done + {tx.queue[i].id});
      DropKeeps(tx, i, nextId, now, submitted + dropped, h, cfg);
      RemoveShape(tx, i);
      WithoutMembers(tx.queue, i);
      h := h.(done := h.done + {tx.queue[i].id});
      tx := Remove(tx, i);
      dropped := dropped + 1;
    }

    method Submit(i: nat, ghost blocked: set<Peer>)
      requires Valid() && Candidate(tx, now, cfg.fair, blocked) == Some(i)
      modifies this`tx, this`submitted, this`h
      ensures Valid() && submitted == old(submitted) + 1 && |tx.queue| == |old(tx).queue| - 1
      ensures
        var q := old(tx).queue[i];
        var e := Sent(q.id, q.destination, q.bytes, now);
        && h == History(old(h).log + [e], old(h).epoch + [e], old(h).turns + [Turn(old(tx), now, blocked)],
                        old(h).done + {q.id})
        && tx.last == Some(q.destination) && tx.queue == Without(old(tx).queue, i)
      ensures Offered(old(h), h, old(tx), tx, now, blocked)
    {
      hide Sane, Candidate, Without, Spacing, From, Served, Offered;
      WithoutKeeps(tx.queue, i);
      SubmitKeeps(tx, i, blocked, nextId, now, submitted + dropped, h, cfg);
      var q := tx.queue[i];
      Sanity(tx, nextId, now, submitted + dropped, h, cfg);
      var charged := Charge(tx, q.destination, q.bytes, now, cfg);
      FromCharged(tx, i, now, h.done, cfg);
      OfferedOne(h, tx, i, Remove(charged, i), now, blocked);
      RemoveShape(charged, i);
      WithoutMembers(tx.queue, i);
      ghost var e := Sent(q.id, q.destination, q.bytes, now);
      h := History(h.log + [e], h.epoch + [e], h.turns + [Turn(tx, now, blocked)], h.done + {q.id});
      tx := Remove(charged, i);
      submitted := submitted + 1;
    }
  }

  // ---------------------------------------------------------------- what a choice was made from

  function Served(log: seq<Sent>): set<Peer> { set e | e in log :: e.destination }

  /** The scheduler `u` has come from `t`: what is queued was queued, what is gone is done, and the pace
      of a destination is as it was unless it has been served. */
  predicate From(t: Scheduler, u: Scheduler, done: set<nat>, served: set<Peer>) {
    && (forall q :: q in u.queue ==> q in t.queue)
    && (forall q :: q in t.queue ==> q in u.queue || q.id in done)
    && u.peers.Keys == t.peers.Keys
    && (forall d :: d in t.peers ==> d in served || u.peers[d].next == t.peers[d].next)
  }

  lemma FromSelf(t: Scheduler, done: set<nat>, served: set<Peer>)
    ensures From(t, t, done, served)
  {}

  lemma FromQueue(t: Scheduler, u: Scheduler, done: set<nat>, served: set<Peer>)
    requires From(t, u, done, served)
    ensures forall q :: q in u.queue ==> q in t.queue
  {}

  lemma FromMore(t: Scheduler, u: Scheduler, done: set<nat>, served: set<Peer>, more: set<Peer>)
    requires From(t, u, done, served) && served <= more
    ensures From(t, u, done, more)
  {}

  lemma FromOn(t: Scheduler, u: Scheduler, v: Scheduler, done: set<nat>, served: set<Peer>, done': set<nat>,
               served': set<Peer>)
    requires From(t, u, done, served) && From(u, v, done', served') && done <= done' && served <= served'
    ensures From(t, v, done', served')
  {}

  lemma FromRemoved(t: Scheduler, i: nat, done: set<nat>)
    requires i < |t.queue|
    ensures From(t, Remove(t, i), done + {t.queue[i].id}, {})
  {
    hide Without, Remove;
    RemoveShape(t, i);
    WithoutKeeps(t.queue, i);
  }

  lemma FromCharged(t: Scheduler, i: nat, now: Time, done: set<nat>, cfg: Config)
    requires i < |t.queue| && cfg.Valid()
    ensures
      var q := t.queue[i];
      From(t, Remove(Charge(t, q.destination, q.bytes, now, cfg), i), done + {q.id},
           Served([Sent(q.id, q.destination, q.bytes, now)]))
  {
    hide Without, Remove, Spacing;
    var q := t.queue[i];
    var c := Charge(t, q.destination, q.bytes, now, cfg);
    RemoveShape(c, i);
    WithoutKeeps(t.queue, i);
    assert Sent(q.id, q.destination, q.bytes, now) in [Sent(q.id, q.destination, q.bytes, now)];
    assert c.peers.Keys == t.peers.Keys;
  }

  lemma ServedOn(a: seq<Sent>, b: seq<Sent>)
    ensures Served(a + b) == Served(a) + Served(b)
  {
    assert forall e :: e in a + b <==> e in a || e in b;
  }

  /** Each choice was made at `now` from a scheduler that had come from `t`. */
  predicate Drawn(turns: seq<Turn>, t: Scheduler, now: Time, blocked: set<Peer>, done: set<nat>, served: set<Peer>) {
    forall k :: 0 <= k < |turns| ==>
      turns[k].now == now && turns[k].blocked <= blocked && From(t, turns[k].t, done, served)
  }

  lemma DrawnFrom(turns: seq<Turn>, t: Scheduler, u: Scheduler, now: Time, blocked: set<Peer>, done: set<nat>,
                  done': set<nat>, served: set<Peer>)
    requires From(t, u, done, {}) && Drawn(turns, u, now, blocked, done', served) && done <= done'
    ensures Drawn(turns, t, now, blocked, done', served)
  {
    hide From;
    forall k | 0 <= k < |turns| ensures From(t, turns[k].t, done', served) {
      FromOn(t, u, turns[k].t, done, {}, done', served);
    }
  }

  lemma DrawnNext(turns: seq<Turn>, more: seq<Turn>, t: Scheduler, u: Scheduler, now: Time, blocked: set<Peer>,
                  blocked': set<Peer>, done: set<nat>, done': set<nat>, served: set<Peer>, served': set<Peer>)
    requires Drawn(turns, t, now, blocked, done, served) && From(t, u, done, served)
    requires more == [] || more == [Turn(u, now, blocked)]
    requires blocked <= blocked' && done <= done' && served <= served'
    ensures Drawn(turns + more, t, now, blocked', done', served')
  {
    hide From;
    forall k | 0 <= k < |turns + more| ensures From(t, (turns + more)[k].t, done', served') {
      var v := (turns + more)[k].t;
      FromSelf(v, done', served');
      FromOn(t, v, v, done, served, done', served');
    }
  }

  /** What came of one offer made from the scheduler `t`. */
  predicate Offered(g: History, h: History, t: Scheduler, u: Scheduler, now: Time, blocked: set<Peer>) {
    && Grows(g, h)
    && Came(h.log[|g.log|..], t.queue, now)
    && From(t, u, h.done, Served(h.log[|g.log|..]))
    && h.turns[|g.turns|..] in {[], [Turn(t, now, blocked)]}
  }

  lemma OfferedNone(g: History, h: History, t: Scheduler, u: Scheduler, now: Time, blocked: set<Peer>)
    requires Grows(g, h) && h == g.(done := h.done) && From(t, u, h.done, {})
    ensures Offered(g, h, t, u, now, blocked)
  {
    assert h.log[|g.log|..] == [] && h.turns[|g.turns|..] == [];
  }

  lemma OfferedOne(h: History, t: Scheduler, i: nat, u: Scheduler, now: Time, blocked: set<Peer>)
    requires i < |t.queue|
    requires
      var q := t.queue[i];
      From(t, u, h.done + {q.id}, Served([Sent(q.id, q.destination, q.bytes, now)]))
    ensures
      var q := t.queue[i];
      var e := Sent(q.id, q.destination, q.bytes, now);
      var more := History(h.log + [e], h.epoch + [e], h.turns + [Turn(t, now, blocked)], h.done + {q.id});
      Offered(h, more, t, u, now, blocked)
  {
    hide From, Served;
    var q := t.queue[i];
    var e := Sent(q.id, q.destination, q.bytes, now);
    var turn := Turn(t, now, blocked);
    assert (h.log + [e])[|h.log|..] == [e] && (h.turns + [turn])[|h.turns|..] == [turn];
  }

  /** What came of offers made at `now`, beginning with the scheduler `t`: each acceptance was of a datagram
      in its queue, and each choice was made from what was left of it, past peers in `blocked` only. */
  predicate Fed(g: History, h: History, t: Scheduler, u: Scheduler, now: Time, blocked: set<Peer>) {
    && Grows(g, h)
    && Came(h.log[|g.log|..], t.queue, now)
    && From(t, u, h.done, Served(h.log[|g.log|..]))
    && Drawn(h.turns[|g.turns|..], t, now, blocked, h.done, Served(h.log[|g.log|..]))
  }

  lemma FedNone(h: History, t: Scheduler, now: Time)
    ensures Fed(h, h, t, t, now, {})
  {
    GrowsSelf(h, h.done);
    assert h.log[|h.log|..] == [] && h.turns[|h.turns|..] == [];
  }

  lemma FedFrom(g: History, h: History, k: History, t: Scheduler, u: Scheduler, v: Scheduler, now: Time,
                blocked: set<Peer>)
    requires Grows(g, h) && h == g.(done := h.done) && From(t, u, h.done, {}) && Fed(h, k, u, v, now, blocked)
    ensures Fed(g, k, t, v, now, blocked)
  {
    hide From, Drawn, Came, Served;
    GrowsOn(g, h, k);
    var served := Served(k.log[|g.log|..]);
    FromQueue(t, u, h.done, {});
    CameMore(k.log[|g.log|..], u.queue, t.queue, now);
    FromOn(t, u, v, h.done, {}, k.done, served);
    DrawnFrom(k.turns[|g.turns|..], t, u, now, blocked, h.done, k.done, served);
  }

  lemma FedOn(g: History, h: History, k: History, t: Scheduler, u: Scheduler, v: Scheduler, now: Time,
              blocked: set<Peer>, blocked': set<Peer>)
    requires Fed(g, h, t, u, now, blocked) && Offered(h, k, u, v, now, blocked) && blocked <= blocked'
    ensures Fed(g, k, t, v, now, blocked')
  {
    hide From, Drawn, Came, Served;
    GrowsOn(g, h, k);
    var (a, b) := (h.log[|g.log|..], k.log[|h.log|..]);
    assert k.log[|g.log|..] == a + b;
    assert k.turns[|g.turns|..] == h.turns[|g.turns|..] + k.turns[|h.turns|..];
    var (s, s') := (Served(a), Served(a) + Served(b));
    ServedOn(a, b);
    FromQueue(t, u, h.done, s);
    CameMore(b, u.queue, t.queue, now);
    CameOn(a, b, t.queue, now);
    FromMore(u, v, k.done, Served(b), s');
    FromOn(t, u, v, h.done, s, k.done, s');
    DrawnNext(h.turns[|g.turns|..], k.turns[|h.turns|..], t, u, now, blocked, blocked', h.done, k.done, s, s');
  }

  /** A datagram that has not had its outcome keeps its destination waiting at every choice, unless the
      destination is served or declined in between. */
  lemma StaysWaiting(turns: seq<Turn>, t: Scheduler, now: Time, blocked: set<Peer>, done: set<nat>, served: set<Peer>,
                     q: Item, k: nat)
    requires Drawn(turns, t, now, blocked, done, served) && k < |turns|
    requires q in t.queue && q.id !in done && q.destination in t.peers && t.peers[q.destination].next <= now
    requires q.destination !in served && q.destination !in blocked
    ensures Waiting(turns[k].t, turns[k].now, turns[k].blocked, q.destination)
  {
    var u := turns[k].t;
    assert From(t, u, done, served);
    var j :| 0 <= j < |u.queue| && u.queue[j] == q;
    assert Eligible(u, j, now, turns[k].blocked);
  }

  /** Each acceptance at `now` was of a datagram in the queue. */
  predicate Came(log: seq<Sent>, queue: seq<Item>, now: Time) {
    forall k :: 0 <= k < |log| ==> log[k].at == now && exists j :: 0 <= j < |queue| && Of(log[k], queue[j])
  }

  predicate Of(e: Sent, q: Item) { e.id == q.id && e.destination == q.destination && e.bytes == q.bytes }

  lemma CameMore(log: seq<Sent>, queue: seq<Item>, more: seq<Item>, now: Time)
    requires Came(log, queue, now) && forall q :: q in queue ==> q in more
    ensures Came(log, more, now)
  {
    forall k | 0 <= k < |log| ensures log[k].at == now && exists j :: 0 <= j < |more| && Of(log[k], more[j]) {
      var j :| 0 <= j < |queue| && Of(log[k], queue[j]);
      assert queue[j] in more;
      var i :| 0 <= i < |more| && more[i] == queue[j];
      assert Of(log[k], more[i]);
    }
  }

  lemma CameOn(a: seq<Sent>, b: seq<Sent>, queue: seq<Item>, now: Time)
    requires Came(a, queue, now) && Came(b, queue, now)
    ensures Came(a + b, queue, now)
  {}

  lemma Sanity(t: Scheduler, nextId: nat, now: Time, settled: nat, h: History, cfg: Config)
    requires Sane(t, nextId, now, settled, h, cfg)
    ensures cfg.Valid()
  {}

  lemma WithoutKeeps(queue: seq<Item>, i: nat)
    requires i < |queue|
    ensures forall q :: q in queue && q != queue[i] ==> q in Without(queue, i)
    ensures forall q :: q in Without(queue, i) ==> q in queue
  {
    forall q | q in queue && q != queue[i] ensures q in Without(queue, i) {
      var j :| 0 <= j < |queue| && queue[j] == q;
      assert Without(queue, i)[if j < i then j else j - 1] == q;
    }
  }

  lemma AdmissionShape(t: Scheduler, peer: Peer, now: Time, cfg: Config)
    ensures Admission(t, peer, now, cfg).0 == t.(peers := Admission(t, peer, now, cfg).0.peers)
  {}

  lemma AdmissionPace(t: Scheduler, peer: Peer, now: Time, cfg: Config)
    ensures forall d: Peer :: PeerNext(Admission(t, peer, now, cfg).0, d, now) == PeerNext(t, d, now)
  {}

  lemma PushShape(t: Scheduler, q: Item, now: Time)
    ensures Push(t, q).queue == t.queue + [q] && Push(t, q).next == t.next && Push(t, q).last == t.last
    ensures forall d: Peer :: PeerNext(Push(t, q), d, now) == PeerNext(t, d, now)
  {}

  /** The first objection to a datagram, in the order in which they are looked for. */
  function Objection(bound: bool, deliverable: bool, deadline: Option<Time>, now: Time, admission: Option<Failure>,
                     buffer: bool, fits: bool): Option<Failure>
  {
    if !bound then Some(SourceUnavailable)
    else if !deliverable then Some(InvalidDestination)
    else if deadline.Some? && deadline.value <= now then Some(DeadlineExpired)
    else if admission.Some? then admission
    else if !buffer then Some(NoBuffer)
    else if !fits then Some(InvalidPacket)
    else None
  }

  /** A datagram is accepted exactly if nothing stands against it, and the objection named is one that does. */
  lemma ObjectionReal(bound: bool, deliverable: bool, deadline: Option<Time>, now: Time, admission: Option<Failure>,
                      buffer: bool, fits: bool)
    requires admission.Some? ==> admission.value in {QueueFull, PeerQueueFull, PeerLimit}
    ensures
      var why := Objection(bound, deliverable, deadline, now, admission, buffer, fits);
      && (why.None? <==> bound && deliverable && (deadline.Some? ==> now < deadline.value) && admission.None? && buffer
                         && fits)
      && (why.Some? ==>
            match why.value
            case SourceUnavailable => !bound
            case InvalidDestination => !deliverable
            case DeadlineExpired => deadline.Some? && deadline.value <= now
            case NoBuffer => !buffer
            case InvalidPacket => !fits
            case _ => why == admission)
  {}

  function Accepting(answers: seq<Answer>): nat {
    if answers == [] then 0 else Accepting(answers[..|answers| - 1]) + (if Last(answers).Accepts? then 1 else 0)
  }

  lemma AcceptingNone(answers: seq<Answer>)
    ensures Accepting(answers[..0]) == 0
  {}

  lemma AcceptingNext(answers: seq<Answer>, k: nat)
    requires k < |answers|
    ensures Accepting(answers[..k + 1]) == Accepting(answers[..k]) + (if answers[k].Accepts? then 1 else 0)
  {
    assert answers[..k + 1][..k] == answers[..k];
  }

  function EarlierDeadline(deadline: Option<Time>, now: Time, lifetime: Option<Time>): Option<Time> {
    if lifetime.None? then deadline
    else if deadline.None? then Some(now + lifetime.value)
    else Some(Min(deadline.value, now + lifetime.value))
  }

  /** Over the whole life of a pool: ids to one destination only grow, the pace is kept since the last
      reset, globally and for each destination, and every id has one outcome or is queued. */
  lemma WholeRun(t: Scheduler, nextId: nat, now: Time, settled: nat, h: History, cfg: Config)
    requires Sane(t, nextId, now, settled, h, cfg)
    ensures forall i, j :: 0 <= i < j < |h.log| && h.log[i].destination == h.log[j].destination ==>
              h.log[i].id < h.log[j].id
    ensures cfg.rate.Some? ==> Paced(h.epoch, cfg.rate.value)
    ensures cfg.peerRate.Some? ==> forall d: Peer :: Paced(To(h.epoch, d), cfg.peerRate.value)
    ensures nextId - 1 == settled + |t.queue|
    ensures |h.epoch| <= |h.log| && h.log[|h.log| - |h.epoch|..] == h.epoch
  {
    hide Paced, PacedUntil, Consistent, To, Rounds;
    EveryId(t.queue, nextId, settled, h.done);
    OrderedOf(t, nextId, cfg);
    QueueSize(t.queue, nextId);
  }

  /** The round robin of a pool: between two acceptances of one destination, every other that is eligible
      at each choice in between is accepted. */
  lemma FairRun(t: Scheduler, nextId: nat, now: Time, settled: nat, h: History, cfg: Config, a: nat, b: nat, q: Peer)
    requires Sane(t, nextId, now, settled, h, cfg) && cfg.fair && a < b < |h.epoch| && |h.turns| == |h.epoch|
    requires h.epoch[a].destination == h.epoch[b].destination != q
    requires forall c :: a < c <= b ==> Waiting(h.turns[c].t, h.turns[c].now, h.turns[c].blocked, q)
    ensures exists c :: a < c < b && h.epoch[c].destination == q
  {
    hide Consistent, Accounted, InOrder, OnPace, EndsWith, Rounds, Waiting, Chosen;
    FairTurns(t.last, h.epoch, h.turns, a, b, q);
  }

  lemma TurnAt(last: Option<Peer>, epoch: seq<Sent>, turns: seq<Turn>, k: nat)
    requires Rounds(last, epoch, turns, true) && k < |turns|
    ensures Chosen(turns[k]) == Some(epoch[k].destination)
    ensures 0 < k ==> turns[k].t.last == Some(epoch[k - 1].destination)
  {
    hide Candidate;
    assert Chose(turns[k], epoch[k], true) && turns[k].t.last == LastServed(epoch[..k]);
  }

  lemma FairTurns(last: Option<Peer>, epoch: seq<Sent>, turns: seq<Turn>, a: nat, b: nat, q: Peer)
    requires Rounds(last, epoch, turns, true) && a < b < |epoch| == |turns|
    requires epoch[a].destination == epoch[b].destination != q
    requires forall c :: a < c <= b ==> Waiting(turns[c].t, turns[c].now, turns[c].blocked, q)
    ensures exists c :: a < c < b && epoch[c].destination == q
  {
    hide Rounds, Waiting, Chosen;
    var p, us := epoch[a].destination, turns[a + 1..b + 1];
    if forall c :: a < c < b ==> epoch[c].destination != q {
      forall k | 0 <= k < |us|
        ensures us[k] == turns[a + 1 + k] && Chosen(us[k]) == Some(epoch[a + 1 + k].destination)
        ensures us[k].t.last == Some(epoch[a + k].destination)
      {
        TurnAt(last, epoch, turns, a + 1 + k);
      }
      assert Consecutive(us, p);
      assert PassedOver(us, q);
      assert Chosen(us[b - a - 1]) == Some(p);
      Fair(us, p, q);
    }
  }

  lemma OrderedOf(t: Scheduler, nextId: nat, cfg: Config)
    requires Consistent(t, nextId, cfg)
    ensures Ordered(t.queue, nextId)
  {}

  lemma EveryId(queue: seq<Item>, nextId: nat, settled: nat, done: set<nat>)
    requires Accounted(queue, nextId, settled, done)
    ensures settled + |Ids(queue)| == nextId - 1
  {
    IssuedSize(nextId);
    assert done + Ids(queue) == Issued(nextId);
    assert |done + Ids(queue)| == |done| + |Ids(queue)|;
  }

  function Issued(nextId: nat): (s: set<nat>)
    requires nextId >= 1
    ensures forall k: nat :: k in s <==> 1 <= k < nextId
  {
    if nextId == 1 then {} else Issued(nextId - 1) + {nextId - 1}
  }

  lemma {:induction false} IssuedSize(nextId: nat)
    requires nextId >= 1
    ensures |Issued(nextId)| == nextId - 1
  {
    if nextId > 1 {
      IssuedSize(nextId - 1);
      var s, k := Issued(nextId - 1), nextId - 1;
      assert Issued(nextId) == s + {k} && k !in s;
      hide Issued;
      OneMore(s, k);
    }
  }

  lemma OneMore(s: set<nat>, k: nat)
    requires k !in s
    ensures |s + {k}| == |s| + 1
  {}

  lemma {:induction false} QueueSize(queue: seq<Item>, nextId: nat)
    requires Ordered(queue, nextId)
    ensures |Ids(queue)| == |queue|
  {
    if queue != [] {
      var init, q := queue[..|queue| - 1], queue[|queue| - 1];
      QueueSize(init, nextId);
      assert q.id !in Ids(init);
      assert Ids(queue) == Ids(init) + {q.id} by {
        assert forall j :: 0 <= j < |init| ==> init[j] == queue[j];
      }
    }
  }
}
