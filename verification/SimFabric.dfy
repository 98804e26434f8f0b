/**
 The simulated fabric and access point of `src/simulation.rs` and `src/simulation/access_point.rs`.

 A port's session counts how often it has gone offline; a queued frame remembers the sessions of its
 source and destination and its place in the order of sending. These are history only.
 */
module SimFabric {
  import opened Prelude

  type Address = nat

  datatype Link = Link(delay: Time, alternatingDelay: Time, dropEvery: nat, partitioned: bool, mtu: nat)

  const PERFECT: Link := Link(0, 0, 0, false, 0)

  datatype Pending = Pending(at: Time, source: nat, serial: nat, from: nat, to: nat)

  datatype Port = Port(queue: seq<Pending>, capacity: nat, active: bool, online: bool)

  datatype Destination = Broadcast | Unicast(address: Address)

  /** `room` are the ports whose pool has a frame for a copy of this one. */
  datatype Frame = Frame(valid: bool, length: nat, destination: Destination, room: set<nat>)

  datatype Stats = Stats(
    delivered: nat, faultDrops: nat, queueDrops: nat, unroutable: nat, disconnectedDrops: nat, backpressure: nat)
  {
    function Settled(): nat { delivered + faultDrops + queueDrops + unroutable + disconnectedDrops }
  }

  datatype SendError = NotConnected | InvalidInput

  function Total(ports: seq<Port>): nat {
    if ports == [] then 0 else |ports[0].queue| + Total(ports[1..])
  }

  // ---------------------------------------------------------------- what holds between calls

  /** Both ends of a queued frame have been online since it was sent. */
  predicate Alive(p: Pending, target: nat, ports: seq<Port>, sessions: seq<nat>) {
    && target < |ports| == |sessions| && p.source < |ports|
    && ports[target].online && ports[p.source].online
    && p.from == sessions[p.source] && p.to == sessions[target]
  }

  /** Frames due at the same time are queued in the order of sending. */
  predicate FirstFirst(queue: seq<Pending>, serial: nat) {
    && (forall i, j :: 0 <= i < j < |queue| && queue[i].at == queue[j].at ==> queue[i].serial < queue[j].serial)
    && (forall i :: 0 <= i < |queue| ==> queue[i].serial < serial)
  }

  predicate PortInv(t: nat, ports: seq<Port>, sessions: seq<nat>, serial: nat)
    requires t < |ports|
  {
    && |ports[t].queue| <= ports[t].capacity
    && FirstFirst(ports[t].queue, serial)
    && forall i :: 0 <= i < |ports[t].queue| ==> Alive(ports[t].queue[i], t, ports, sessions)
  }

  predicate FabricInv(ports: seq<Port>, sessions: seq<nat>, serial: nat) {
    |sessions| == |ports| && forall t :: 0 <= t < |ports| ==> PortInv(t, ports, sessions, serial)
  }

  // ---------------------------------------------------------------- counting

  lemma {:induction false} TotalUpdate(ports: seq<Port>, t: nat, q: Port)
    requires t < |ports|
    ensures Total(ports[t := q]) == Total(ports) - |ports[t].queue| + |q.queue|
  {
    if t == 0 {
      assert ports[t := q][1..] == ports[1..];
    } else {
      assert ports[t := q][1..] == ports[1..][t - 1 := q];
      TotalUpdate(ports[1..], t - 1, q);
    }
  }

  lemma {:induction false} TotalAppend(ports: seq<Port>, q: Port)
    ensures Total(ports + [q]) == Total(ports) + |q.queue|
  {
    if ports == [] {
      assert (ports + [q])[1..] == [];
    } else {
      assert (ports + [q])[1..] == ports[1..] + [q];
      TotalAppend(ports[1..], q);
    }
  }

  // ---------------------------------------------------------------- going offline

  /** The frames of a queue that neither come from `id` nor wait there. */
  function Kept(queue: seq<Pending>, target: nat, id: nat): seq<Pending> {
    if queue == [] then []
    else if target != id && queue[0].source != id then [queue[0]] + Kept(queue[1..], target, id)
    else Kept(queue[1..], target, id)
  }

  lemma {:induction false} KeptMembers(queue: seq<Pending>, target: nat, id: nat)
    ensures |Kept(queue, target, id)| <= |queue|
    ensures forall p :: p in Kept(queue, target, id) <==> p in queue && target != id && p.source != id
  {
    if queue != [] {
      KeptMembers(queue[1..], target, id);
      assert forall p :: p in queue <==> p == queue[0] || p in queue[1..];
    }
  }

  lemma ConsOrder(x: Pending, rest: seq<Pending>, serial: nat)
    requires FirstFirst(rest, serial) && x.serial < serial
    requires forall p :: p in rest && p.at == x.at ==> x.serial < p.serial
    ensures FirstFirst([x] + rest, serial)
  {
    var k := [x] + rest;
    forall i, j | 0 <= i < j < |k| && k[i].at == k[j].at ensures k[i].serial < k[j].serial {
      assert k[j] == rest[j - 1];
      if i > 0 { assert k[i] == rest[i - 1]; }
    }
  }

  lemma TailOrder(queue: seq<Pending>, serial: nat)
    requires FirstFirst(queue, serial) && queue != []
    ensures FirstFirst(queue[1..], serial) && queue[0].serial < serial
    ensures forall p :: p in queue[1..] && p.at == queue[0].at ==> queue[0].serial < p.serial
  {
    assert forall i :: 0 <= i < |queue| - 1 ==> queue[1..][i] == queue[i + 1];
  }

  lemma {:induction false} KeptOrder(queue: seq<Pending>, target: nat, id: nat, serial: nat)
    requires FirstFirst(queue, serial)
    ensures FirstFirst(Kept(queue, target, id), serial)
  {
    if queue != [] {
      hide FirstFirst;
      TailOrder(queue, serial);
      KeptOrder(queue[1..], target, id, serial);
      KeptMembers(queue[1..], target, id);
      ConsOrder(queue[0], Kept(queue[1..], target, id), serial);
    }
  }

  /** A port goes offline: everything queued to or from it is purged, in every port. */
  method Disconnected(ports: seq<Port>, id: nat, ghost sessions: seq<nat>, ghost serial: nat)
      returns (after: seq<Port>, purged: nat)
    requires FabricInv(ports, sessions, serial) && id < |ports|
    ensures |after| == |ports| && FabricInv(after, sessions[id := sessions[id] + 1], serial)
    ensures Total(after) + purged == Total(ports)
    ensures forall t :: 0 <= t < |ports| ==>
              after[t] == ports[t].(queue := Kept(ports[t].queue, t, id), online := ports[t].online && t != id)
  {
    after, purged := ports[id := ports[id].(online := false)], 0;
    TotalUpdate(ports, id, ports[id].(online := false));
    for t := 0 to |ports|
      invariant |after| == |ports| && Total(after) + purged == Total(ports)
      invariant forall u :: 0 <= u < t ==>
                  after[u] == ports[u].(queue := Kept(ports[u].queue, u, id), online := ports[u].online && u != id)
      invariant forall u :: t <= u < |ports| ==> after[u] == ports[u].(online := ports[u].online && u != id)
    {
      hide Total, Kept;
      KeptMembers(ports[t].queue, t, id);
      var q := after[t].(queue := Kept(after[t].queue, t, id));
      TotalUpdate(after, t, q);
      purged := purged + (|after[t].queue| - |q.queue|);
      after := after[t := q];
    }
    DisconnectedInv(ports, after, id, sessions, serial);
  }

  lemma DisconnectedInv(ports: seq<Port>, after: seq<Port>, id: nat, sessions: seq<nat>, serial: nat)
    requires FabricInv(ports, sessions, serial) && id < |ports| == |after|
    requires forall t :: 0 <= t < |ports| ==>
               after[t] == ports[t].(queue := Kept(ports[t].queue, t, id), online := ports[t].online && t != id)
    ensures FabricInv(after, sessions[id := sessions[id] + 1], serial)
  {
    hide Kept, FirstFirst;
    var later := sessions[id := sessions[id] + 1];
    forall t | 0 <= t < |after| ensures PortInv(t, after, later, serial) {
      assert PortInv(t, ports, sessions, serial);
      KeptMembers(ports[t].queue, t, id);
      KeptOrder(ports[t].queue, t, id, serial);
      var k := after[t].queue;
      forall i | 0 <= i < |k| ensures Alive(k[i], t, after, later) {
        assert k[i] in Kept(ports[t].queue, t, id);
        var j :| 0 <= j < |ports[t].queue| && ports[t].queue[j] == k[i];
        assert Alive(ports[t].queue[j], t, ports, sessions);
      }
    }
  }

  // ---------------------------------------------------------------- receiving

  /** Earlier due first; of frames due together, the one sent first. */
  predicate Sorted(queue: seq<Pending>) {
    forall i, j :: 0 <= i < j < |queue| ==>
      queue[i].at < queue[j].at || (queue[i].at == queue[j].at && queue[i].serial < queue[j].serial)
  }

  /** Inserts behind everything due no later: the step of a stable sort. */
  method Insert(queue: seq<Pending>, p: Pending) returns (r: seq<Pending>)
    requires Sorted(queue) && forall i :: 0 <= i < |queue| && queue[i].at == p.at ==> queue[i].serial < p.serial
    ensures Sorted(r) && multiset(r) == multiset(queue) + multiset{p}
  {
    var i := |queue|;
    while i > 0 && queue[i - 1].at > p.at
      invariant 0 <= i <= |queue|
      invariant forall j :: i <= j < |queue| ==> queue[j].at > p.at
    {
      i := i - 1;
    }
    hide Sorted;
    r := queue[..i] + [p] + queue[i..];
    InsertedSorted(queue, p, i);
    InsertedSame(queue, p, i);
  }

  lemma InsertedSorted(queue: seq<Pending>, p: Pending, i: nat)
    requires Sorted(queue) && i <= |queue|
    requires forall j :: 0 <= j < |queue| && queue[j].at == p.at ==> queue[j].serial < p.serial
    requires i > 0 ==> queue[i - 1].at <= p.at
    requires forall j :: i <= j < |queue| ==> queue[j].at > p.at
    ensures Sorted(queue[..i] + [p] + queue[i..])
  {
    var r := queue[..i] + [p] + queue[i..];
    assert forall k :: 0 <= k < |r| ==> r[k] == if k < i then queue[k] else if k == i then p else queue[k - 1];
    forall j | 0 <= j < i ensures queue[j].at <= p.at {
      if j < i - 1 { assert queue[j].at <= queue[i - 1].at; }
    }
    forall x, y | 0 <= x < y < |r|
      ensures r[x].at < r[y].at || (r[x].at == r[y].at && r[x].serial < r[y].serial)
    {
      var u, v := if x < i then x else x - 1, if y < i then y else y - 1;
      if x == i { assert r[y] == queue[v]; } else if y == i { assert r[x] == queue[u]; } else {
        assert r[x] == queue[u] && r[y] == queue[v] && u < v;
      }
    }
  }

  lemma InsertedSame(queue: seq<Pending>, p: Pending, i: nat)
    requires i <= |queue|
    ensures multiset(queue[..i] + [p] + queue[i..]) == multiset(queue) + multiset{p}
  {
    assert queue == queue[..i] + queue[i..];
  }

  /** The stable sort by due time. */
  method SortByTime(queue: seq<Pending>, ghost serial: nat) returns (r: seq<Pending>)
    requires FirstFirst(queue, serial)
    ensures Sorted(r) && multiset(r) == multiset(queue)
  {
    r := [];
    for k := 0 to |queue|
      invariant Sorted(r) && multiset(r) == multiset(queue[..k])
    {
      assert queue[..k + 1] == queue[..k] + [queue[k]];
      forall i | 0 <= i < |r| && r[i].at == queue[k].at ensures r[i].serial < queue[k].serial {
        assert r[i] in multiset(r);
        assert r[i] in queue[..k];
        var j :| 0 <= j < k && queue[j] == r[i];
      }
      hide Sorted, FirstFirst;
      r := Insert(r, queue[k]);
    }
    assert queue[..|queue|] == queue;
  }

  /** The frames handed out: as many as are due, oldest first, up to the limit. */
  method Take(queue: seq<Pending>, max: nat, now: Time) returns (n: nat)
    requires Sorted(queue)
    ensures n <= |queue| && n <= max
    ensures forall i :: 0 <= i < n ==> queue[i].at <= now
    ensures n < max ==> forall i :: n <= i < |queue| ==> queue[i].at > now
  {
    n := 0;
    while n < |queue| && n < max && queue[n].at <= now
      invariant n <= |queue| && n <= max
      invariant forall i :: 0 <= i < n ==> queue[i].at <= now
    {
      n := n + 1;
    }
  }

  lemma SortedIsFirstFirst(queue: seq<Pending>, sorted: seq<Pending>, serial: nat, n: nat)
    requires FirstFirst(queue, serial) && Sorted(sorted) && multiset(sorted) == multiset(queue) && n <= |sorted|
    ensures FirstFirst(sorted[n..], serial) && |sorted| == |queue|
    ensures forall p :: p in sorted ==> p in queue
  {
    forall p | p in sorted ensures p in queue {
      assert p in multiset(sorted);
      assert p in multiset(queue);
    }
    assert |multiset(sorted)| == |sorted| && |multiset(queue)| == |queue|;
    var rest := sorted[n..];
    forall i | 0 <= i < |rest| ensures rest[i].serial < serial {
      assert rest[i] in sorted;
      assert rest[i] in queue;
    }
  }

  /** What a queue hands out, and what it keeps. */
  method HandOut(queue: seq<Pending>, max: nat, now: Time, ghost serial: nat)
      returns (out: seq<Pending>, rest: seq<Pending>)
    requires FirstFirst(queue, serial)
    ensures Sorted(out) && |out| <= max && FirstFirst(rest, serial) && |out| + |rest| == |queue|
    ensures multiset(queue) == multiset(out) + multiset(rest)
    ensures forall p :: p in out || p in rest ==> p in queue
    ensures forall i :: 0 <= i < |out| ==> out[i].at <= now
    ensures |out| < max ==> forall p :: p in rest ==> p.at > now
  {
    hide FirstFirst;
    var sorted := SortByTime(queue, serial);
    var n := Take(sorted, max, now);
    SortedIsFirstFirst(queue, sorted, serial, n);
    out, rest := sorted[..n], sorted[n..];
    assert sorted == out + rest;
    SortedPrefix(sorted, n);
    hide Sorted;
    forall p | p in out || p in rest ensures p in queue {
      assert p in sorted;
    }
  }

  // ---------------------------------------------------------------- sending

  predicate Faulty(link: Link, sequence: nat, length: nat) {
    || link.partitioned
    || (link.mtu != 0 && length > link.mtu)
    || (link.dropEvery != 0 && sequence % link.dropEvery == 0)
  }

  function DueAt(now: Time, link: Link, sequence: nat): Time {
    now + link.delay + (if sequence % 2 == 0 then link.alternatingDelay else 0)
  }

  type Links = map<(nat, nat), (Link, u64)>

  /** The link that a frame crosses and the number it gets there. */
  function Crossing(links: Links, source: nat, target: nat): (Link, u64) {
    var (link, sequence) := if (source, target) in links then links[(source, target)] else (PERFECT, 0);
    (link, if sequence == 0xffff_ffff_ffff_ffff then 0 else sequence + 1)
  }

  /** What becomes of a unicast frame, or of one copy of a broadcast frame. */
  datatype Fate = Congested | NoRoute | Offline | Lost(target: nat) | NoCopy(target: nat) | Due(target: nat, at: Time)

  function Carried(links: Links, source: nat, target: nat, length: nat, now: Time): Fate {
    var (link, sequence) := Crossing(links, source, target);
    if Faulty(link, sequence, length) then Lost(target) else Due(target, DueAt(now, link, sequence))
  }

  /** Congestion is looked for before faults, so that a retry does not count on the link. */
  function UnicastFate(v: View, routes: map<Address, nat>, source: nat, f: Frame, now: Time): Fate
    requires f.destination.Unicast?
  {
    var a := f.destination.address;
    if a !in routes || routes[a] >= |v.ports| then NoRoute
    else if !v.ports[routes[a]].online then Offline
    else if |v.ports[routes[a]].queue| == v.ports[routes[a]].capacity then Congested
    else Carried(v.links, source, routes[a], f.length, now)
  }

  /** A copy that crosses its link may still find no place; it is never retried. */
  function CopyFate(port: Port, links: Links, source: nat, target: nat, f: Frame, now: Time): Fate {
    var c := Carried(links, source, target, f.length, now);
    if c.Due? && (|port.queue| == port.capacity || target !in f.room) then NoCopy(target) else c
  }

  /** A link that was never set loses nothing and delays nothing. */
  lemma PerfectLink(links: Links, source: nat, target: nat, length: nat, now: Time)
    requires (source, target) !in links
    ensures Carried(links, source, target, length, now) == Due(target, now)
  {}

  /** Exactly one thing happens to a unicast frame: it has no route, its destination is offline, it meets a full queue,
      its link loses it, or it is due there; the link decides between the last two. */
  lemma UnicastMeans(v: View, routes: map<Address, nat>, source: nat, f: Frame, now: Time)
    requires f.destination.Unicast? && forall a :: a in routes ==> routes[a] < |v.ports|
    ensures
      var a, fate := f.destination.address, UnicastFate(v, routes, source, f, now);
      && (fate.NoRoute? <==> a !in routes)
      && (a in routes ==>
            var t := routes[a];
            && (fate.Offline? <==> !v.ports[t].online)
            && (fate.Congested? <==> v.ports[t].online && |v.ports[t].queue| == v.ports[t].capacity)
            && (v.ports[t].online && |v.ports[t].queue| != v.ports[t].capacity ==>
                  && fate == Carried(v.links, source, t, f.length, now)
                  && (fate == Lost(t) || (fate.Due? && fate.target == t))))
  {
    hide Crossing, Faulty, DueAt;
  }

  /** A broadcast copy that its link carries is queued exactly if there is a place and a frame for it. */
  lemma CopyMeans(port: Port, links: Links, source: nat, target: nat, f: Frame, now: Time)
    requires |port.queue| <= port.capacity
    ensures
      var carried, fate := Carried(links, source, target, f.length, now), CopyFate(port, links, source, target, f, now);
      && (carried.Lost? ==> fate == Lost(target))
      && (carried.Due? ==> fate == if |port.queue| < port.capacity && target in f.room then carried else NoCopy(target))
      && (carried.Lost? || carried.Due?)
  {
    hide Crossing, Faulty, DueAt;
  }

  // ---------------------------------------------------------------- accounting

  /** What sending changes. */
  datatype View = View(ports: seq<Port>, links: Links, stats: Stats, offered: nat)

  /** How many frames and copies there were, and how many of them met each kind of end at once. */
  datatype Tally = Tally(offered: nat, lost: nat, crowded: nat, unroutable: nat, offline: nat)
  {
    function Plus(o: Tally): Tally {
      Tally(offered + o.offered, lost + o.lost, crowded + o.crowded, unroutable + o.unroutable, offline + o.offline)
    }
  }

  const NOTHING: Tally := Tally(0, 0, 0, 0, 0)

  function Counted(fate: Fate): Tally {
    match fate
    case Congested => NOTHING
    case NoRoute => Tally(1, 0, 0, 1, 0)
    case Offline => Tally(1, 0, 0, 0, 1)
    case Lost(_) => Tally(1, 1, 0, 0, 0)
    case NoCopy(_) => Tally(1, 0, 1, 0, 0)
    case Due(_, _) => Tally(1, 0, 0, 0, 0)
  }

  /** Everything taken charge of is counted once: at its end if it has met one, and otherwise when it is queued. */
  lemma CountedOnce(fate: Fate)
    ensures
      var c := Counted(fate);
      && c.offered == (if fate.Congested? then 0 else 1)
      && c.lost == (if fate.Lost? then 1 else 0) && c.crowded == (if fate.NoCopy? then 1 else 0)
      && c.unroutable == (if fate.NoRoute? then 1 else 0) && c.offline == (if fate.Offline? then 1 else 0)
      && c.offered == c.lost + c.crowded + c.unroutable + c.offline + if fate.Due? then 1 else 0
  {}

  function Charged(s: Stats, c: Tally): Stats {
    s.(faultDrops := s.faultDrops + c.lost, queueDrops := s.queueDrops + c.crowded,
       unroutable := s.unroutable + c.unroutable, disconnectedDrops := s.disconnectedDrops + c.offline)
  }

  /** The port at `t` gets a copy, or loses one. */
  predicate Takes(ports: seq<Port>, source: nat, t: nat) {
    t < |ports| && t != source && ports[t].active && ports[t].online
  }

  /** The copies for the first `n` ports, each with its one fate. */
  function Copies(ports: seq<Port>, links: Links, source: nat, f: Frame, now: Time, n: nat): Tally
    requires n <= |ports|
  {
    if n == 0 then NOTHING
    else
      var before := Copies(ports, links, source, f, now, n - 1);
      if Takes(ports, source, n - 1) then before.Plus(Counted(CopyFate(ports[n - 1], links, source, n - 1, f, now)))
      else before
  }

  function TallyOf(v: View, routes: map<Address, nat>, source: nat, f: Frame, now: Time): Tally {
    if f.destination.Broadcast? then Copies(v.ports, v.links, source, f, now, |v.ports|)
    else Counted(UnicastFate(v, routes, source, f, now))
  }

  predicate Grown(before: Port, after: Port, at: Time, source: nat) {
    && after == before.(queue := after.queue) && |after.queue| == |before.queue| + 1
    && before.queue <= after.queue && Last(after.queue).at == at && Last(after.queue).source == source
  }

  /** The port at `t` before and after a broadcast from `source`. */
  predicate Copied(before: seq<Port>, after: seq<Port>, links: Links, source: nat, t: nat, f: Frame, now: Time)
    requires t < |before| == |after|
  {
    var fate := CopyFate(before[t], links, source, t, f, now);
    if Takes(before, source, t) && fate.Due? then Grown(before[t], after[t], fate.at, source) else after[t] == before[t]
  }

  /** Exactly the links to the ports below `n` that take a copy have counted it. */
  ghost predicate Crossed(before: Links, after: Links, ports: seq<Port>, source: nat, n: nat) {
    forall s: nat, t: nat ::
      && ((s, t) in after <==> (s, t) in before || (s == source && t < n && Takes(ports, source, t)))
      && ((s, t) in after ==>
            after[(s, t)] == if s == source && t < n && Takes(ports, source, t) then Crossing(before, s, t)
                             else before[(s, t)])
  }

  /** A frame was taken: it is accounted for, and ports and links show what became of it. */
  ghost predicate Took(v: View, w: View, routes: map<Address, nat>, source: nat, f: Frame, now: Time) {
    && |w.ports| == |v.ports|
    && w.offered == v.offered + TallyOf(v, routes, source, f, now).offered
    && w.stats == Charged(v.stats, TallyOf(v, routes, source, f, now))
    && if f.destination.Broadcast? then
         && (forall t :: 0 <= t < |v.ports| ==> Copied(v.ports, w.ports, v.links, source, t, f, now))
         && Crossed(v.links, w.links, v.ports, source, |v.ports|)
       else
         var fate := UnicastFate(v, routes, source, f, now);
         && !fate.Congested?
         && w.links == (if fate.Lost? || fate.Due?
                        then v.links[(source, fate.target) := Crossing(v.links, source, fate.target)] else v.links)
         && forall t :: 0 <= t < |v.ports| ==>
              if fate.Due? && t == fate.target then Grown(v.ports[t], w.ports[t], fate.at, source)
              else w.ports[t] == v.ports[t]
  }

  /** One frame after the other was taken. */
  ghost predicate Ran(trace: seq<View>, routes: map<Address, nat>, source: nat, frames: seq<Frame>, now: Time, n: nat) {
    && n <= |frames| && |trace| == n + 1
    && forall i :: 0 <= i < n ==> Took(trace[i], trace[i + 1], routes, source, frames[i], now)
  }

  /** What the first `n` frames add up to. */
  function Sum(trace: seq<View>, routes: map<Address, nat>, source: nat, frames: seq<Frame>, now: Time, n: nat): Tally
    requires n <= |trace| && n <= |frames|
  {
    if n == 0 then NOTHING
    else Sum(trace, routes, source, frames, now, n - 1).Plus(TallyOf(trace[n - 1], routes, source, frames[n - 1], now))
  }

  lemma {:induction false} SumSame(a: seq<View>, b: seq<View>, routes: map<Address, nat>, source: nat,
                                   frames: seq<Frame>, now: Time, n: nat)
    requires n <= |a| && n <= |b| && n <= |frames| && a[..n] == b[..n]
    ensures Sum(a, routes, source, frames, now, n) == Sum(b, routes, source, frames, now, n)
  {
    if n > 0 {
      assert a[..n - 1] == a[..n][..n - 1] && b[..n - 1] == b[..n][..n - 1];
      assert a[n - 1] == a[..n][n - 1] && b[n - 1] == b[..n][n - 1];
      SumSame(a, b, routes, source, frames, now, n - 1);
    }
  }

  /** Sending frames changes the counters by exactly the sum of what became of each frame and copy. */
  lemma {:induction false} RanSum(trace: seq<View>, routes: map<Address, nat>, source: nat, frames: seq<Frame>,
                                  now: Time, n: nat)
    requires Ran(trace, routes, source, frames, now, n)
    ensures
      var sum := Sum(trace, routes, source, frames, now, n);
      trace[n].offered == trace[0].offered + sum.offered && trace[n].stats == Charged(trace[0].stats, sum)
  {
    hide TallyOf, Took;
    if n > 0 {
      var init := trace[..n];
      forall i | 0 <= i < n - 1 ensures Took(init[i], init[i + 1], routes, source, frames[i], now) {}
      RanSum(init, routes, source, frames, now, n - 1);
      assert init[..n - 1] == trace[..n - 1];
      SumSame(init, trace, routes, source, frames, now, n - 1);
      TookCounts(trace[n - 1], trace[n], routes, source, frames[n - 1], now);
    }
  }

  lemma TookCounts(v: View, w: View, routes: map<Address, nat>, source: nat, f: Frame, now: Time)
    requires Took(v, w, routes, source, f, now)
    ensures w.offered == v.offered + TallyOf(v, routes, source, f, now).offered
    ensures w.stats == Charged(v.stats, TallyOf(v, routes, source, f, now))
  {
    hide TallyOf;
  }

  lemma RanNext(trace: seq<View>, w: View, routes: map<Address, nat>, source: nat, frames: seq<Frame>, now: Time,
                n: nat)
    requires Ran(trace, routes, source, frames, now, n) && n < |frames|
    requires Took(trace[n], w, routes, source, frames[n], now)
    ensures Ran(trace + [w], routes, source, frames, now, n + 1)
  {
    hide Took;
    var more := trace + [w];
    forall i | 0 <= i < n + 1 ensures Took(more[i], more[i + 1], routes, source, frames[i], now) {}
  }

  // ---------------------------------------------------------------- a broadcast, port by port

  /** The first `n` ports have been served. */
  ghost predicate Serving(v: View, ports: seq<Port>, links: Links, source: nat, f: Frame, now: Time, n: nat) {
    && n <= |v.ports| == |ports| && Crossed(v.links, links, v.ports, source, n)
    && (forall u :: n <= u < |ports| ==> ports[u] == v.ports[u])
    && (forall u :: 0 <= u < n ==> Copied(v.ports, ports, v.links, source, u, f, now))
  }

  lemma ServingNone(v: View, source: nat, f: Frame, now: Time)
    ensures Serving(v, v.ports, v.links, source, f, now, 0)
  {}

  lemma ServingHere(v: View, ports: seq<Port>, links: Links, source: nat, f: Frame, now: Time, n: nat)
    requires Serving(v, ports, links, source, f, now, n) && n < |ports|
    ensures ports[n] == v.ports[n]
    ensures Carried(links, source, n, f.length, now) == Carried(v.links, source, n, f.length, now)
  {
    hide Copied, Faulty, DueAt;
    assert (source, n) in links <==> (source, n) in v.links;
  }

  lemma CrossedSkip(before: Links, after: Links, ports: seq<Port>, source: nat, n: nat)
    requires Crossed(before, after, ports, source, n) && !Takes(ports, source, n)
    ensures Crossed(before, after, ports, source, n + 1)
  {
    hide Takes, Crossing;
    assert forall t: nat :: t < n + 1 && Takes(ports, source, t) <==> t < n && Takes(ports, source, t);
  }

  lemma CrossedNext(before: Links, after: Links, ports: seq<Port>, source: nat, n: nat)
    requires Crossed(before, after, ports, source, n) && Takes(ports, source, n)
    ensures Crossed(before, after[(source, n) := Crossing(after, source, n)], ports, source, n + 1)
  {
    hide Takes;
    var more := after[(source, n) := Crossing(after, source, n)];
    assert (source, n) in after <==> (source, n) in before;
    assert Crossing(after, source, n) == Crossing(before, source, n);
    hide Crossing;
    forall s: nat, t: nat
      ensures (s, t) in more <==> (s, t) in before || (s == source && t < n + 1 && Takes(ports, source, t))
      ensures (s, t) in more ==>
                more[(s, t)] == if s == source && t < n + 1 && Takes(ports, source, t) then Crossing(before, s, t)
                                else before[(s, t)]
    {
      if s == source && t == n {
      } else {
        assert (s, t) in more <==> (s, t) in after;
      }
    }
  }

  lemma ServingSkip(v: View, ports: seq<Port>, links: Links, source: nat, f: Frame, now: Time, n: nat)
    requires Serving(v, ports, links, source, f, now, n) && n < |ports| && !Takes(v.ports, source, n)
    ensures Serving(v, ports, links, source, f, now, n + 1)
  {
    CrossedSkip(v.links, links, v.ports, source, n);
    hide Crossed, CopyFate;
  }

  /** Port `n` was served, and no other was touched. */
  lemma ServingNext(v: View, ports: seq<Port>, links: Links, source: nat, f: Frame, now: Time, n: nat, after: Port)
    requires Serving(v, ports, links, source, f, now, n) && n < |ports| && Takes(v.ports, source, n)
    requires
      var fate := CopyFate(v.ports[n], v.links, source, n, f, now);
      if fate.Due? then Grown(v.ports[n], after, fate.at, source) else after == v.ports[n]
    ensures Serving(v, ports[n := after], links[(source, n) := Crossing(links, source, n)], source, f, now, n + 1)
  {
    CrossedNext(v.links, links, v.ports, source, n);
    hide Crossed, CopyFate, Grown, Takes, Crossing;
    var more := ports[n := after];
    forall u | 0 <= u < n + 1 ensures Copied(v.ports, more, v.links, source, u, f, now) {
      if u < n { assert Copied(v.ports, ports, v.links, source, u, f, now); }
    }
  }

  // ---------------------------------------------------------------- losses of a link

  /** `n` frames have crossed a link. */
  function CrossMany(links: Links, source: nat, target: nat, n: nat): Links {
    if n == 0 then links
    else
      var before := CrossMany(links, source, target, n - 1);
      before[(source, target) := Crossing(before, source, target)]
  }

  /** A link numbers its frames from one on; the numbers wrap at 64 bits. */
  lemma {:induction false} NthCrossing(links: Links, source: nat, target: nat, link: Link, n: nat)
    requires (source, target) in links && links[(source, target)] == (link, 0)
    ensures
      var after := CrossMany(links, source, target, n);
      (source, target) in after && after[(source, target)] == (link, n % 0x1_0000_0000_0000_0000)
  {
    if n > 0 {
      NthCrossing(links, source, target, link, n - 1);
    }
  }

  /** After a link is set, frame `n` is lost exactly if the link is cut, the frame is too long, or its
      number is a multiple of the link's period; otherwise every second frame waits longer. */
  lemma LossPattern(links: Links, source: nat, target: nat, link: Link, n: nat, length: nat, now: Time)
    requires (source, target) in links && links[(source, target)] == (link, 0) && n > 0
    ensures
      var number := n % 0x1_0000_0000_0000_0000;
      var fate := Carried(CrossMany(links, source, target, n - 1), source, target, length, now);
      && (fate.Lost? <==> link.partitioned || (link.mtu != 0 && length > link.mtu)
                          || (link.dropEvery != 0 && number % link.dropEvery == 0))
      && (!fate.Lost? ==> fate == Due(target, now + link.delay + if number % 2 == 0 then link.alternatingDelay else 0))
  {
    NthCrossing(links, source, target, link, n - 1);
    NthCrossing(links, source, target, link, n);
    hide CrossMany;
    var before := CrossMany(links, source, target, n - 1);
    assert Crossing(before, source, target) == (link, n % 0x1_0000_0000_0000_0000);
  }

  /** How many of the first `n` frames of one length a link loses. */
  function Losses(links: Links, source: nat, target: nat, length: nat, now: Time, n: nat): nat {
    if n == 0 then 0
    else
      Losses(links, source, target, length, now, n - 1)
      + (if Carried(CrossMany(links, source, target, n - 1), source, target, length, now).Lost? then 1 else 0)
  }

  lemma DivNext(n: nat, d: nat)
    requires d > 0 && n > 0
    ensures n / d == (n - 1) / d + (if n % d == 0 then 1 else 0)
  {
    var q, r := (n - 1) / d, (n - 1) % d;
    assert n - 1 == q * d + r;
    if r + 1 == d {
      assert n == (q + 1) * d;
      RemainderOf(n, d, q + 1, 0);
    } else {
      RemainderOf(n, d, q, r + 1);
    }
  }

  /** Over any stretch that starts with the setting of a link, it loses one frame in `dropEvery`. */
  lemma {:induction false} LossCount(links: Links, source: nat, target: nat, link: Link, length: nat, now: Time, n: nat)
    requires (source, target) in links && links[(source, target)] == (link, 0) && n < 0x1_0000_0000_0000_0000
    requires !link.partitioned && (link.mtu == 0 || length <= link.mtu)
    ensures Losses(links, source, target, length, now, n) == if link.dropEvery == 0 then 0 else n / link.dropEvery
  {
    if n > 0 {
      hide CrossMany, Carried;
      LossCount(links, source, target, link, length, now, n - 1);
      LossPattern(links, source, target, link, n, length, now);
      if link.dropEvery != 0 { DivNext(n, link.dropEvery); }
    } else if link.dropEvery != 0 {
      RemainderOf(0, link.dropEvery, 0, 0);
    }
  }

  /** A frame joins the queue of an online port. */
  lemma Enqueued(ports: seq<Port>, sessions: seq<nat>, serial: nat, source: nat, t: nat, at: Time)
    requires FabricInv(ports, sessions, serial) && source < |ports| && t < |ports|
    requires ports[source].online && ports[t].online && |ports[t].queue| < ports[t].capacity
    ensures
      var p := Pending(at, source, serial, sessions[source], sessions[t]);
      var after := ports[t := ports[t].(queue := ports[t].queue + [p])];
      FabricInv(after, sessions, serial + 1) && Total(after) == Total(ports) + 1
  {
    hide Total, FirstFirst;
    var p := Pending(at, source, serial, sessions[source], sessions[t]);
    var q := ports[t].(queue := ports[t].queue + [p]);
    var after := ports[t := q];
    TotalUpdate(ports, t, q);
    var later := serial + 1;
    forall u | 0 <= u < |after| ensures PortInv(u, after, sessions, later) {
      assert PortInv(u, ports, sessions, serial);
      AppendOrder(ports[u].queue, p, serial);
      assert forall i :: 0 <= i < |ports[u].queue| ==> Alive(ports[u].queue[i], u, after, sessions);
    }
  }

  lemma AppendOrder(queue: seq<Pending>, p: Pending, serial: nat)
    requires FirstFirst(queue, serial) && p.serial == serial
    ensures FirstFirst(queue, serial + 1) && FirstFirst(queue + [p], serial + 1)
  {}

  lemma Received(ports: seq<Port>, sessions: seq<nat>, serial: nat, t: nat, rest: seq<Pending>)
    requires FabricInv(ports, sessions, serial) && t < |ports| && |rest| <= |ports[t].queue|
    requires FirstFirst(rest, serial) && forall p :: p in rest ==> p in ports[t].queue
    ensures FabricInv(ports[t := ports[t].(queue := rest)], sessions, serial)
  {
    hide FirstFirst;
    var after := ports[t := ports[t].(queue := rest)];
    forall u | 0 <= u < |after| ensures PortInv(u, after, sessions, serial) {
      assert PortInv(u, ports, sessions, serial);
      var q := after[u].queue;
      forall i | 0 <= i < |q| ensures Alive(q[i], u, after, sessions) {
        assert q[i] in ports[u].queue;
        var j :| 0 <= j < |ports[u].queue| && ports[u].queue[j] == q[i];
        assert Alive(ports[u].queue[j], u, ports, sessions);
      }
    }
  }

  lemma WentOnline(ports: seq<Port>, sessions: seq<nat>, serial: nat, t: nat)
    requires FabricInv(ports, sessions, serial) && t < |ports|
    ensures FabricInv(ports[t := ports[t].(online := true)], sessions, serial)
  {
    hide FirstFirst;
    var after := ports[t := ports[t].(online := true)];
    forall u | 0 <= u < |after| ensures PortInv(u, after, sessions, serial) {
      assert PortInv(u, ports, sessions, serial);
      assert forall i :: 0 <= i < |ports[u].queue| ==>
               Alive(ports[u].queue[i], u, ports, sessions) && Alive(ports[u].queue[i], u, after, sessions);
    }
  }

  lemma Deactivated(ports: seq<Port>, sessions: seq<nat>, serial: nat, t: nat)
    requires FabricInv(ports, sessions, serial) && t < |ports|
    ensures
      var after := ports[t := ports[t].(active := false)];
      FabricInv(after, sessions, serial) && Total(after) == Total(ports)
  {
    hide FirstFirst, Total;
    var after := ports[t := ports[t].(active := false)];
    TotalUpdate(ports, t, after[t]);
    forall u | 0 <= u < |after| ensures PortInv(u, after, sessions, serial) {
      assert PortInv(u, ports, sessions, serial);
      assert forall i :: 0 <= i < |ports[u].queue| ==>
               Alive(ports[u].queue[i], u, ports, sessions) && Alive(ports[u].queue[i], u, after, sessions);
    }
  }

  // ---------------------------------------------------------------- the fabric

  class Fabric {
    var ports: seq<Port>
    var routes: map<Address, nat>
    var links: Links
    var now: Time
    var stats: Stats
    var running: bool
    /** How many frames and broadcast copies the fabric has taken charge of. */
    ghost var offered: nat
    /** History that queued frames carry with them as values; no branch reads either field. */
    var sessions: seq<nat>
    var serial: nat

    /** Every frame and copy has had exactly one fate or is still queued between online ports. */
    ghost predicate Valid()
      reads this
    {
      && FabricInv(ports, sessions, serial)
      && offered == stats.Settled() + Total(ports)
      && forall a :: a in routes ==> routes[a] < |ports|
    }

    constructor ()
      ensures ports == [] && routes == map[] && !running
      ensures Valid()
    {
      ports, routes, links, now, stats := [], map[], map[], 0, Stats(0, 0, 0, 0, 0, 0);
      running, offered, sessions, serial := false, 0, [], 0;
      new;
      hide FabricInv, Total;
      EmptyFabric();
    }

    /** A new port; an access point's ports start offline. */
    method AddPort(addresses: set<Address>, frames: nat, capacity: nat, unicast: bool, online: bool)
        returns (r: Option<nat>)
      requires Valid()
      modifies this`ports, this`routes, this`sessions
      ensures Valid()
      ensures r.None? <==> frames == 0 || capacity == 0 || addresses == {} || !unicast
                           || addresses * old(routes).Keys != {}
      ensures r.Some? ==> r.value == |old(ports)| && ports == old(ports) + [Port([], capacity, true, online)]
                          && routes == old(routes) + map a | a in addresses :: r.value
      ensures r.None? ==> unchanged(this)
    {
      if frames == 0 || capacity == 0 || addresses == {} || !unicast || addresses * routes.Keys != {} { return None; }
      var id := |ports|;
      var p := Port([], capacity, true, online);
      TotalAppend(ports, p);
      AddedPort(ports, p, sessions, serial);
      ports, sessions := ports + [p], sessions + [0];
      routes := routes + (map a | a in addresses :: id);
      r := Some(id);
    }

    /** Frames arrive in order of their due time, and in order of sending among equals; both ends have
        been online without a break since each was sent. */
    method Recv(id: nat, max: nat) returns (out: seq<Pending>)
      requires Valid() && id < |ports|
      modifies this`ports, this`stats
      ensures Valid() && |out| <= max && Sorted(out)
      ensures stats == old(stats).(delivered := old(stats).delivered + |out|)
      ensures |ports| == |old(ports)| && multiset(old(ports)[id].queue) == multiset(out) + multiset(ports[id].queue)
      ensures ports == old(ports)[id := old(ports)[id].(queue := ports[id].queue)]
      ensures forall i :: 0 <= i < |out| ==> out[i].at <= now && Alive(out[i], id, old(ports), sessions)
      ensures |out| < max ==> forall p :: p in ports[id].queue ==> p.at > now
    {
      assert PortInv(id, ports, sessions, serial);
      hide Sorted, FirstFirst, Total;
      ghost var was := ports[id].queue;
      var rest;
      out, rest := HandOut(ports[id].queue, max, now, serial);
      forall i | 0 <= i < |out| ensures Alive(out[i], id, ports, sessions) {
        assert out[i] in was;
        var j :| 0 <= j < |was| && was[j] == out[i];
      }
      hide Alive, FabricInv;
      Received(ports, sessions, serial, id, rest);
      TotalUpdate(ports, id, ports[id].(queue := rest));
      ports := ports[id := ports[id].(queue := rest)];
      stats := stats.(delivered := stats.delivered + |out|);
    }

    ghost function Seen(): View
      reads this
    {
      View(ports, links, stats, offered)
    }

    /** Accepts a prefix of the frames; an offline port accepts none. */
    method Send(id: nat, frames: seq<Frame>) returns (r: Result<nat, SendError>)
      requires Valid() && id < |ports|
      modifies this`ports, this`links, this`stats, this`offered, this`serial
      ensures Valid() && |ports| == |old(ports)|
      ensures r.Err? <==> frames != [] && (!old(ports)[id].online || !frames[0].valid)
      ensures r.Err? ==> unchanged(this) && r.error == if old(ports)[id].online then InvalidInput else NotConnected
      ensures r.Ok? ==> r.value <= |frames| && forall i :: 0 <= i < r.value ==> frames[i].valid
      ensures r.Ok? ==>
        var congested := r.value < |frames| && frames[r.value].valid;
        && (congested ==> frames[r.value].destination.Unicast?
                          && UnicastFate(Seen(), routes, id, frames[r.value], now).Congested?)
        && exists trace: seq<View> ::
             && Ran(trace, routes, id, frames, now, r.value) && trace[0] == old(Seen())
             && ports == trace[r.value].ports && links == trace[r.value].links
             && var sum := Sum(trace, routes, id, frames, now, r.value);
                && offered == old(offered) + sum.offered
                && stats == Charged(old(stats), sum)
                            .(backpressure := old(stats).backpressure + if congested then 1 else 0)
      ensures forall t :: 0 <= t < |ports| ==> old(ports)[t].queue <= ports[t].queue
    {
      hide FabricInv, Total, UnicastFate, Ran, Took, Sum;
      ghost var trace := [Seen()];
      RanNone(Seen(), routes, id, frames, now);
      if frames == [] { return Ok(0); }
      if !ports[id].online { return Err(NotConnected); }
      var accepted := 0;
      while accepted < |frames|
        invariant Valid() && accepted <= |frames| && |ports| == |old(ports)| && ports[id].online
        invariant Ran(trace, routes, id, frames, now, accepted) && |trace| == accepted + 1
        invariant trace[0] == old(Seen()) && trace[accepted] == Seen()
        invariant accepted == 0 ==> unchanged(this)
        invariant forall i :: 0 <= i < accepted ==> frames[i].valid
        invariant forall t :: 0 <= t < |ports| ==> old(ports)[t].queue <= ports[t].queue
        decreases |frames| - accepted
      {
        var f := frames[accepted];
        RanSum(trace, routes, id, frames, now, accepted);
        if !f.valid {
          if accepted != 0 { return Ok(accepted); }
          return Err(InvalidInput);
        }
        var taken := SendOne(id, f);
        if !taken { return Ok(accepted); }
        RanNext(trace, Seen(), routes, id, frames, now, accepted);
        trace := trace + [Seen()];
        accepted := accepted + 1;
      }
      RanSum(trace, routes, id, frames, now, accepted);
      r := Ok(accepted);
    }

    /** One frame. Backpressure is the only reason not to take it, and then it only counts itself. */
    method SendOne(id: nat, f: Frame) returns (taken: bool)
      requires Valid() && id < |ports| && ports[id].online
      modifies this`ports, this`links, this`stats, this`offered, this`serial
      ensures Valid() && SamePorts(old(ports), ports)
      ensures !taken <==> f.destination.Unicast? && UnicastFate(old(Seen()), routes, id, f, now).Congested?
      ensures !taken ==> unchanged(`ports, `links, `offered, `serial)
                         && stats == old(stats).(backpressure := old(stats).backpressure + 1)
                         && UnicastFate(Seen(), routes, id, f, now).Congested?
      ensures taken ==> Took(old(Seen()), Seen(), routes, id, f, now)
    {
      hide FabricInv, Total, Carried, Crossing, Crossed, Copied, Copies;
      match f.destination
      case Broadcast =>
        SendCopies(id, f);
        taken := true;
      case Unicast(address) =>
        if address !in routes {
          stats, offered := stats.(unroutable := stats.unroutable + 1), offered + 1;
          return true;
        }
        var t := routes[address];
        if !ports[t].online {
          stats, offered := stats.(disconnectedDrops := stats.disconnectedDrops + 1), offered + 1;
          return true;
        }
        if |ports[t].queue| == ports[t].capacity {
          stats := stats.(backpressure := stats.backpressure + 1);
          return false;
        }
        assert |ports[t].queue| < ports[t].capacity by { QueueBound(ports, sessions, serial, t); }
        var at := Cross(id, t, f.length);
        offered := offered + 1;
        if at.None? {
          stats := stats.(faultDrops := stats.faultDrops + 1);
        } else {
          Enqueue(id, t, at.value);
        }
        taken := true;
    }

    /** Counts the frame on its link and says when it is due, unless the link loses it. */
    method Cross(source: nat, target: nat, length: nat) returns (at: Option<Time>)
      modifies this`links
      ensures links == old(links)[(source, target) := Crossing(old(links), source, target)]
      ensures Carried(old(links), source, target, length, now)
              == if at.None? then Lost(target) else Due(target, at.value)
    {
      var state := if (source, target) in links then links[(source, target)] else (PERFECT, 0);
      var next: u64 := if state.1 == 0xffff_ffff_ffff_ffff then 0 else state.1 + 1;
      links := links[(source, target) := (state.0, next)];
      at := if Faulty(state.0, next, length) then None else Some(DueAt(now, state.0, next));
    }

    method Enqueue(source: nat, t: nat, at: Time)
      requires FabricInv(ports, sessions, serial) && source < |ports| && t < |ports|
      requires ports[source].online && ports[t].online && |ports[t].queue| < ports[t].capacity
      modifies this`ports, this`serial
      ensures FabricInv(ports, sessions, serial) && Total(ports) == Total(old(ports)) + 1
      ensures SamePorts(old(ports), ports)
      ensures |sessions| == |old(ports)|
      ensures ports == old(ports)[t := ports[t]] && Grown(old(ports)[t], ports[t], at, source)
      ensures Last(ports[t].queue) == Pending(at, source, old(serial), sessions[source], sessions[t])
    {
      hide FabricInv, Total;
      SessionCount(ports, sessions, serial);
      Enqueued(ports, sessions, serial, source, t, at);
      var p := Pending(at, source, serial, sessions[source], sessions[t]);
      ports := ports[t := ports[t].(queue := ports[t].queue + [p])];
      serial := serial + 1;
    }

    /** A copy for every other online port. */
    method SendCopies(id: nat, f: Frame)
      requires Valid() && id < |ports| && ports[id].online && f.destination.Broadcast?
      modifies this`ports, this`links, this`stats, this`offered, this`serial
      ensures Valid() && SamePorts(old(ports), ports) && Took(old(Seen()), Seen(), routes, id, f, now)
    {
      hide FabricInv, Total, Serving, CopyFate, Crossing, Carried, Copies;
      ghost var v := Seen();
      ServingNone(v, id, f, now);
      CopiesNone(v.ports, v.links, id, f, now);
      for t := 0 to |ports|
        invariant Valid() && SamePorts(v.ports, ports) && Serving(v, ports, links, id, f, now, t)
        invariant stats == Charged(v.stats, Copies(v.ports, v.links, id, f, now, t))
        invariant offered == v.offered + Copies(v.ports, v.links, id, f, now, t).offered
      {
        CopiesNext(v.ports, v.links, id, f, now, t);
        ServingHere(v, ports, links, id, f, now, t);
        if t != id && ports[t].active && ports[t].online {
          CopyOne(id, t, f, v);
        } else {
          ServingSkip(v, ports, links, id, f, now, t);
        }
      }
      ServingAll(v, ports, links, id, f, now);
    }

    /** The copy for one port. */
    method CopyOne(id: nat, t: nat, f: Frame, ghost v: View)
      requires Valid() && id < |ports| && ports[id].online && t < |ports| && Serving(v, ports, links, id, f, now, t)
      requires Takes(v.ports, id, t) && ports[t] == v.ports[t] && |v.ports| == |ports|
      requires Carried(links, id, t, f.length, now) == Carried(v.links, id, t, f.length, now)
      modifies this`ports, this`links, this`stats, this`offered, this`serial
      ensures Valid() && SamePorts(old(ports), ports)
      ensures |v.ports| == |ports| && Serving(v, ports, links, id, f, now, t + 1)
      ensures
        var c := Counted(CopyFate(v.ports[t], v.links, id, t, f, now));
        stats == Charged(old(stats), c) && offered == old(offered) + c.offered
    {
      hide FabricInv, Total, Serving, Crossing, Carried;
      var at := Cross(id, t, f.length);
      offered := offered + 1;
      QueueBound(ports, sessions, serial, t);
      ghost var before := ports;
      if at.None? {
        stats := stats.(faultDrops := stats.faultDrops + 1);
      } else if |ports[t].queue| == ports[t].capacity || t !in f.room {
        stats := stats.(queueDrops := stats.queueDrops + 1);
      } else {
        Enqueue(id, t, at.value);
      }
      assert ports == before[t := ports[t]];
      ServingNext(v, before, old(links), id, f, now, t, ports[t]);
    }

    /** A port leaves: what is queued to it or from it anywhere is dropped. */
    method Disassociate(id: nat)
      requires Valid() && id < |ports|
      modifies this`ports, this`stats, this`sessions
      ensures Valid() && |ports| == |old(ports)| && !ports[id].online && ports[id].queue == []
      ensures sessions == old(sessions)[id := old(sessions)[id] + 1]
      ensures forall t :: 0 <= t < |ports| ==>
                ports[t] == old(ports)[t].(queue := Kept(old(ports)[t].queue, t, id),
                                           online := old(ports)[t].online && t != id)
      ensures forall t :: 0 <= t < |ports| ==>
                forall p :: p in ports[t].queue <==> p in old(ports)[t].queue && t != id && p.source != id
      ensures Total(ports) <= Total(old(ports))
      ensures stats == old(stats)
                       .(disconnectedDrops := old(stats).disconnectedDrops + (Total(old(ports)) - Total(ports)))
    {
      hide FabricInv, Total, Kept;
      SessionCount(ports, sessions, serial);
      var after, purged := Disconnected(ports, id, sessions, serial);
      forall t | 0 <= t < |ports|
        ensures forall p :: p in after[t].queue <==> p in ports[t].queue && t != id && p.source != id
      {
        KeptMembers(ports[t].queue, t, id);
      }
      assert after[id].queue == [] by { NoneKept(ports[id].queue, id); }
      ports := after;
      stats := stats.(disconnectedDrops := stats.disconnectedDrops + purged);
      sessions := sessions[id := sessions[id] + 1];
    }

    /** A device is dropped: its port stays, but nothing leads there any more. */
    method Remove(id: nat)
      requires Valid() && id < |ports|
      modifies this`ports, this`stats, this`sessions, this`routes
      ensures Valid() && |ports| == |old(ports)| && ports[id].queue == [] && !ports[id].online && !ports[id].active
      ensures routes == map a | a in old(routes) && old(routes)[a] != id :: old(routes)[a]
      ensures forall t :: 0 <= t < |ports| ==>
                ports[t] == old(ports)[t].(queue := Kept(old(ports)[t].queue, t, id),
                                           online := old(ports)[t].online && t != id,
                                           active := old(ports)[t].active && t != id)
      ensures forall t :: 0 <= t < |ports| ==>
                forall p :: p in ports[t].queue <==> p in old(ports)[t].queue && t != id && p.source != id
      ensures Total(ports) <= Total(old(ports))
      ensures stats == old(stats)
                       .(disconnectedDrops := old(stats).disconnectedDrops + (Total(old(ports)) - Total(ports)))
    {
      hide FabricInv, Total, Kept;
      Disassociate(id);
      Deactivated(ports, sessions, serial, id);
      ports := ports[id := ports[id].(active := false)];
      routes := map a | a in routes && routes[a] != id :: routes[a];
    }

    /** A new link starts counting afresh; what is queued keeps its time. */
    method SetLink(source: nat, target: nat, link: Link)
      requires Valid()
      modifies this`links
      ensures Valid() && links == old(links)[(source, target) := (link, 0)]
    {
      links := links[(source, target) := (link, 0)];
    }

    /** The clock moves on unless a `Duration` cannot hold it. */
    method Advance(elapsed: Time) returns (ok: bool)
      requires Valid()
      modifies this`now
      ensures Valid() && ok == (old(now) + elapsed <= DURATION_MAX) && now == old(now) + if ok then elapsed else 0
    {
      ok := now + elapsed <= DURATION_MAX;
      if ok { now := now + elapsed; }
    }

    method Associate(id: nat) returns (ok: bool)
      requires Valid() && id < |ports|
      modifies this`ports
      ensures Valid() && ok == running
      ensures ports == if ok then old(ports)[id := old(ports)[id].(online := true)] else old(ports)
    {
      if !running { return false; }
      hide FabricInv, Total;
      WentOnline(ports, sessions, serial, id);
      TotalUpdate(ports, id, ports[id].(online := true));
      ports := ports[id := ports[id].(online := true)];
      ok := true;
    }

    method Start()
      requires Valid()
      modifies this`running
      ensures Valid() && running
    {
      running := true;
    }

    /** Stopping disconnects every port and purges every queue. */
    method Stop()
      requires Valid()
      modifies this`ports, this`stats, this`sessions, this`running
      ensures Valid() && !running && Total(ports) == 0 && |ports| == |old(ports)|
      ensures forall t :: 0 <= t < |ports| ==> !ports[t].online && ports[t].queue == []
      ensures forall t :: 0 <= t < |ports| ==> sessions[t] == old(sessions)[t] + 1
      ensures stats == old(stats).(disconnectedDrops := old(stats).disconnectedDrops + Total(old(ports)))
    {
      hide Total;
      var after, dropped := ports, 0;
      for t := 0 to |ports|
        invariant |after| == |ports| && Total(after) + dropped == Total(ports)
        invariant forall u :: 0 <= u < t ==> after[u] == ports[u].(queue := [], online := false)
        invariant forall u :: t <= u < |ports| ==> after[u] == ports[u]
        modifies {}
      {
        TotalUpdate(after, t, after[t].(queue := [], online := false));
        dropped := dropped + |after[t].queue|;
        after := after[t := after[t].(queue := [], online := false)];
      }
      TotalEmpty(after);
      var was := sessions;
      running, ports := false, after;
      sessions := seq(|was|, t requires 0 <= t < |was| => was[t] + 1);
      stats := stats.(disconnectedDrops := stats.disconnectedDrops + dropped);
    }
  }

  lemma RanNone(v: View, routes: map<Address, nat>, source: nat, frames: seq<Frame>, now: Time)
    ensures Ran([v], routes, source, frames, now, 0)
    ensures Sum([v], routes, source, frames, now, 0) == NOTHING && Charged(v.stats, NOTHING) == v.stats
  {}

  lemma CopiesNone(ports: seq<Port>, links: Links, source: nat, f: Frame, now: Time)
    ensures Copies(ports, links, source, f, now, 0) == NOTHING
  {}

  lemma CopiesNext(ports: seq<Port>, links: Links, source: nat, f: Frame, now: Time, n: nat)
    requires n < |ports|
    ensures
      var before := Copies(ports, links, source, f, now, n);
      Copies(ports, links, source, f, now, n + 1)
        == if Takes(ports, source, n) then before.Plus(Counted(CopyFate(ports[n], links, source, n, f, now)))
           else before
  {
    hide CopyFate, Takes;
  }

  lemma ServingAll(v: View, ports: seq<Port>, links: Links, source: nat, f: Frame, now: Time)
    requires |ports| == |v.ports| && Serving(v, ports, links, source, f, now, |ports|)
    ensures forall t :: 0 <= t < |v.ports| ==> Copied(v.ports, ports, v.links, source, t, f, now)
    ensures Crossed(v.links, links, v.ports, source, |v.ports|)
  {}

  predicate SamePorts(before: seq<Port>, after: seq<Port>) {
    |before| == |after| && forall t :: 0 <= t < |before| ==>
      && before[t].queue <= after[t].queue && after[t] == before[t].(queue := after[t].queue)
  }

  lemma QueueBound(ports: seq<Port>, sessions: seq<nat>, serial: nat, t: nat)
    requires FabricInv(ports, sessions, serial) && t < |ports|
    ensures |ports[t].queue| <= ports[t].capacity
  {
    assert PortInv(t, ports, sessions, serial);
  }

  lemma EmptyFabric()
    ensures FabricInv([], [], 0) && Total([]) == 0
  {}

  lemma SessionCount(ports: seq<Port>, sessions: seq<nat>, serial: nat)
    requires FabricInv(ports, sessions, serial)
    ensures |sessions| == |ports|
  {}

  lemma {:induction false} NoneKept(queue: seq<Pending>, id: nat)
    ensures Kept(queue, id, id) == []
  {
    if queue != [] {
      NoneKept(queue[1..], id);
    }
  }

  lemma {:induction false} TotalEmpty(ports: seq<Port>)
    requires forall t :: 0 <= t < |ports| ==> ports[t].queue == []
    ensures Total(ports) == 0
  {
    if ports != [] {
      TotalEmpty(ports[1..]);
    }
  }

  lemma SortedPrefix(s: seq<Pending>, n: nat)
    requires Sorted(s) && n <= |s|
    ensures Sorted(s[..n])
  {}

  lemma AddedPort(ports: seq<Port>, p: Port, sessions: seq<nat>, serial: nat)
    requires FabricInv(ports, sessions, serial) && p.queue == []
    ensures FabricInv(ports + [p], sessions + [0], serial)
  {
    var after, more := ports + [p], sessions + [0];
    forall u | 0 <= u < |after| ensures PortInv(u, after, more, serial) {
      if u < |ports| {
        assert PortInv(u, ports, sessions, serial) && after[u] == ports[u];
        assert forall i :: 0 <= i < |ports[u].queue| ==>
                 Alive(ports[u].queue[i], u, ports, sessions) && Alive(ports[u].queue[i], u, after, more);
      }
    }
  }
}
