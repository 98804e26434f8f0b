/**
 The Ethernet/ARP adapter of `src/net/interface.rs`: a table of neighbours drives bounded queues of
 packets that wait for an address, are ready to leave, or are ARP messages. Frame contents, route
 lookup and address classification are arguments; a MAC address is a number. The clock is unbounded.
 */
module EthernetAdapter {
  import opened Prelude
  import opened EthernetQueues

  datatype Neighbor =
    | Static(mac: nat)
    | Reachable(mac: nat, expires: Time)
    | Resolving(attempts: nat, nextProbe: Time, expires: Time)
    | Failed(retryAfter: Time)
  {
    function Mac(now: Time): Option<nat> {
      if Static? then Some(mac) else if Reachable? && now < expires then Some(mac) else None
    }
  }

  type Table = map<Address, Neighbor>

  datatype Config = Config(
    txCapacity: nat, perNeighborCapacity: nat, neighborCapacity: nat, controlCapacity: nat, maxArpAttempts: nat,
    neighborTtl: Time, retryInterval: Time, resolutionTimeout: Time, failedRetryDelay: Time)
  {
    predicate Valid() {
      && 0 < txCapacity && 0 < perNeighborCapacity && 0 < neighborCapacity && 0 < controlCapacity && 0 < maxArpAttempts
      && 0 < neighborTtl && 0 < retryInterval && 0 < resolutionTimeout && 0 < failedRetryDelay
    }
  }

  datatype Arp = Request(target: Address) | Reply(target: Address)

  // ---------------------------------------------------------------- what holds between calls

  /** Resolution never takes longer than its timeout, and never probes too often. */
  predicate TableInv(nb: Table, now: Time, cfg: Config) {
    && |nb| <= cfg.neighborCapacity
    && forall ip :: ip in nb && nb[ip].Resolving? ==>
         nb[ip].attempts <= cfg.maxArpAttempts && nb[ip].expires <= now + cfg.resolutionTimeout
  }

  datatype Counters = Counters(accepted: nat, submitted: nat, timeoutDrops: nat, configurationDrops: nat)

  /** Every accepted packet was submitted, dropped for a stated reason, or is still queued. */
  ghost predicate QueuesInv(sent: seq<Packet>, ready: seq<Packet>, pending: seq<Packet>, k: Counters, cfg: Config) {
    && k.accepted == k.submitted + k.timeoutDrops + k.configurationDrops + |pending| + |ready|
    && |sent| == k.submitted
    && |pending| + |ready| <= cfg.txCapacity
    && InLine(sent, ready, pending)
    && (forall p :: p in sent + ready + pending ==> p.serial < k.accepted)
    && (forall i :: 0 <= i < |pending| ==> pending[i].hop.Some?)
    && (forall h: Address :: |Line(pending, Some(h))| <= cfg.perNeighborCapacity)
  }

  /** Nobody waits for a next hop that is not being resolved. */
  predicate NoneStranded(nb: Table, pending: seq<Packet>) {
    forall i :: 0 <= i < |pending| ==>
      pending[i].hop.Some? && pending[i].hop.value in nb && nb[pending[i].hop.value].Resolving?
  }

  /** The same while a call is under way: an address may just have been learned. */
  predicate NoneLost(nb: Table, pending: seq<Packet>, now: Time) {
    forall i :: 0 <= i < |pending| ==>
      && pending[i].hop.Some? && pending[i].hop.value in nb
      && (nb[pending[i].hop.value].Resolving? || nb[pending[i].hop.value].Mac(now).Some?)
  }

  /** The next change that time alone brings to a neighbour. */
  function Deadline(n: Neighbor, cfg: Config): Option<Time> {
    match n
    case Static(_) => None
    case Reachable(_, expires) => Some(expires)
    case Failed(retryAfter) => Some(retryAfter)
    case Resolving(attempts, nextProbe, expires) =>
      Some(if attempts < cfg.maxArpAttempts then Min(nextProbe, expires) else expires)
  }

  predicate Quiet(n: Neighbor, at: Time, cfg: Config) { var d := Deadline(n, cfg); d.Some? ==> at < d.value }

  predicate Overdue(n: Neighbor, at: Time) {
    || (n.Reachable? && at >= n.expires)
    || (n.Failed? && at >= n.retryAfter)
    || (n.Resolving? && at >= n.expires)
  }

  /** The addresses known at `now` are the same, and so is what is known about them. */
  predicate SameKnown(a: Table, b: Table, now: Time) {
    && (forall ip :: ip in a && a[ip].Mac(now).Some? ==> ip in b && b[ip] == a[ip])
    && (forall ip :: ip in b && b[ip].Mac(now).Some? ==> ip in a && b[ip] == a[ip])
  }

  /** The table `b` has come from `a` by visiting all entries but `todo`. */
  predicate Visited(a: Table, b: Table, todo: set<Address>, now: Time, cfg: Config) {
    && todo <= b.Keys <= a.Keys && SameKnown(a, b, now)
    && (forall ip :: ip in todo ==> b[ip] == a[ip])
    && (forall ip :: ip in b && ip !in todo ==> !Overdue(b[ip], now))
    && ((forall ip :: ip in a ==> Quiet(a[ip], now, cfg)) ==> b == a)
  }

  lemma VisitedNone(a: Table, now: Time, cfg: Config)
    ensures Visited(a, a, a.Keys, now, cfg)
  {
    hide Overdue, Quiet;
  }

  lemma VisitedKeys(a: Table, b: Table, todo: set<Address>, now: Time, cfg: Config)
    requires Visited(a, b, todo, now, cfg)
    ensures todo <= b.Keys && todo <= a.Keys && forall ip :: ip in todo ==> b[ip] == a[ip]
  {}

  lemma VisitedAll(a: Table, b: Table, now: Time, cfg: Config)
    requires Visited(a, b, {}, now, cfg)
    ensures SameKnown(a, b, now) && forall ip :: ip in b ==> !Overdue(b[ip], now)
    ensures (forall ip :: ip in a ==> Quiet(a[ip], now, cfg)) ==> b == a
  {}

  lemma VisitedStep(a: Table, b: Table, c: Table, todo: set<Address>, ip: Address, now: Time, cfg: Config)
    requires Visited(a, b, todo, now, cfg) && ip in todo
    requires c.Keys <= b.Keys && SameKnown(b, c, now) && (ip in c ==> !Overdue(c[ip], now))
    requires forall j :: j in b && j != ip ==> j in c && c[j] == b[j]
    requires ip in b && (Quiet(b[ip], now, cfg) ==> c == b)
    ensures Visited(a, c, todo - {ip}, now, cfg)
  {
    hide Overdue, Quiet;
  }

  // ---------------------------------------------------------------- ageing and probing

  predicate ProbeDue(n: Neighbor, now: Time, cfg: Config) {
    n.Resolving? && n.nextProbe <= now < n.expires && n.attempts < cfg.maxArpAttempts
  }

  /** What time has made of the entries outside `todo`: what is out of date is gone, an unanswered resolution has
      failed, and those asked for again are one attempt further; nothing else has changed. */
  predicate Aged(a: Table, b: Table, todo: set<Address>, probed: set<Address>, now: Time, cfg: Config) {
    && b.Keys <= a.Keys && probed <= a.Keys - todo
    && (forall ip :: ip in probed ==> ProbeDue(a[ip], now, cfg))
    && forall ip :: ip in a ==>
         if ip in todo then ip in b && b[ip] == a[ip]
         else match a[ip]
           case Static(_) => ip in b && b[ip] == a[ip]
           case Reachable(_, expires) => if expires <= now then ip !in b else ip in b && b[ip] == a[ip]
           case Failed(retryAfter) => if retryAfter <= now then ip !in b else ip in b && b[ip] == a[ip]
           case Resolving(attempts, _, expires) =>
             ip in b && b[ip] == if expires <= now then Failed(now + cfg.failedRetryDelay)
                                 else if ip in probed then Resolving(attempts + 1, now + cfg.retryInterval, expires)
                                 else a[ip]
  }

  /** The ARP messages that wait: those from before, less requests for what has failed, and a request for everything
      asked for again. */
  predicate Asked(before: seq<Arp>, after: seq<Arp>, probed: set<Address>, gone: set<Address>) {
    && (forall ip :: ip in probed ==> Request(ip) in after)
    && (forall f :: f in after ==> f in before || (f.Request? && f.target in probed))
    && (forall f :: f in before ==> f in after || (f.Request? && f.target in gone))
    && (forall ip :: ip in gone ==> Request(ip) !in after)
    && |after| <= |before| + |probed|
  }

  /** A probe that was due was left out only because no frame was left, or no place among the messages. */
  predicate Starved(a: Table, todo: set<Address>, probed: set<Address>, frames: nat, waiting: nat, now: Time,
                    cfg: Config)
  {
    forall ip :: ip in a && ip !in todo && ip !in probed && ProbeDue(a[ip], now, cfg) ==>
      frames <= |probed| || cfg.controlCapacity <= waiting + |probed|
  }

  function Frames(spare: bool, left: nat): nat { left + if spare then 1 else 0 }

  function Uncancelled(control: seq<Arp>, ip: Address): seq<Arp> {
    if control == [] then []
    else
      var init := Uncancelled(control[..|control| - 1], ip);
      if Last(control) == Request(ip) then init else init + [Last(control)]
  }

  lemma {:induction false} UncancelledIs(control: seq<Arp>, ip: Address)
    ensures |Uncancelled(control, ip)| <= |control|
    ensures forall f :: f in Uncancelled(control, ip) <==> f in control && f != Request(ip)
  {
    if control != [] {
      UncancelledIs(control[..|control| - 1], ip);
      assert control == control[..|control| - 1] + [Last(control)];
    }
  }

  lemma UncancelledNext(control: seq<Arp>, ip: Address, i: nat)
    requires i < |control|
    ensures Uncancelled(control[..i + 1], ip)
         == Uncancelled(control[..i], ip) + (if control[i] == Request(ip) then [] else [control[i]])
  {
    assert control[..i + 1][..i] == control[..i];
  }

  lemma AgedNone(a: Table, c: seq<Arp>, frames: nat, now: Time, cfg: Config)
    ensures Aged(a, a, a.Keys, {}, now, cfg) && Asked(c, c, {}, {}) && Starved(a, a.Keys, {}, frames, |c|, now, cfg)
  {}

  /** What a visit to `ip` does. */
  predicate VisitedOne(a: Table, b: Table, ip: Address, c: seq<Arp>, c': seq<Arp>, frames: nat, frames': nat, now: Time,
                       cfg: Config)
    requires ip in a
  {
    var n := a[ip];
    if Lapsed(n, now) then
      b == a[ip := Failed(now + cfg.failedRetryDelay)] && c' == Uncancelled(c, ip) && frames' == frames
    else if ProbeDue(n, now, cfg) && frames > 0 && |c| < cfg.controlCapacity then
      && b == a[ip := Resolving(n.attempts + 1, now + cfg.retryInterval, n.expires)] && c' == c + [Request(ip)]
      && frames' == frames - 1
    else
      && c' == c && frames' == frames
      && b == if (n.Reachable? && n.expires <= now) || (n.Failed? && n.retryAfter <= now) then a - {ip} else a
  }

  lemma VisitFacts(a: Table, b: Table, ip: Address, c: seq<Arp>, c': seq<Arp>, frames: nat, frames': nat, now: Time,
                   cfg: Config)
    requires cfg.Valid() && ip in a && VisitedOne(a, b, ip, c, c', frames, frames', now, cfg)
    ensures b.Keys <= a.Keys && SameKnown(a, b, now) && (ip in b ==> !Overdue(b[ip], now))
    ensures forall j :: j in a && j != ip ==> j in b && b[j] == a[j]
    ensures Quiet(a[ip], now, cfg) ==> b == a
  {
    hide Uncancelled;
  }

  lemma NoneGone(a: Table, now: Time)
    ensures Expired(a, now) - a.Keys == {}
  {}

  lemma AgedFacts(a: Table, b: Table, todo: set<Address>, probed: set<Address>, now: Time, cfg: Config)
    requires Aged(a, b, todo, probed, now, cfg)
    ensures probed !! todo && probed <= a.Keys && forall ip :: ip in probed ==> !Lapsed(a[ip], now)
  {}

  lemma AskedSize(c: seq<Arp>, c': seq<Arp>, probed: set<Address>, gone: set<Address>)
    requires Asked(c, c', probed, gone)
    ensures |c'| <= |c| + |probed|
  {}

  lemma AgedStep(a: Table, b: Table, b': Table, todo: set<Address>, probed: set<Address>, ip: Address, c: seq<Arp>,
                 c': seq<Arp>, frames: nat, frames': nat, now: Time, cfg: Config)
    requires Aged(a, b, todo, probed, now, cfg) && ip in todo && ip in a && ip in b
    requires VisitedOne(b, b', ip, c, c', frames, frames', now, cfg)
    ensures
      var more := if frames' < frames then probed + {ip} else probed;
      Aged(a, b', todo - {ip}, more, now, cfg)
  {
    assert b[ip] == a[ip];
  }

  lemma AskedStep(a: Table, todo: set<Address>, probed: set<Address>, ip: Address, c0: seq<Arp>, c: seq<Arp>,
                  c': seq<Arp>, frames: nat, frames': nat, b: Table, b': Table, now: Time, cfg: Config)
    requires ip in b && ip in a && b[ip] == a[ip] && VisitedOne(b, b', ip, c, c', frames, frames', now, cfg)
    requires ip in todo && probed !! todo && probed <= a.Keys
    requires forall j :: j in probed ==> !Lapsed(a[j], now)
    requires Asked(c0, c, probed, Expired(a, now) - todo)
    ensures
      var more := if frames' < frames then probed + {ip} else probed;
      |more| == |probed| + (frames - frames') && Asked(c0, c', more, Expired(a, now) - (todo - {ip}))
  {
    var more := if frames' < frames then probed + {ip} else probed;
    var gone, gone' := Expired(a, now) - todo, Expired(a, now) - (todo - {ip});
    if Lapsed(a[ip], now) {
      assert gone' == gone + {ip};
      UncancelledIs(c, ip);
    } else {
      assert gone' == gone;
      if frames' < frames {
        assert forall f :: f in c' <==> f in c || f == Request(ip);
      }
    }
  }

  lemma StarvedStep(a: Table, todo: set<Address>, probed: set<Address>, ip: Address, waiting: nat, c: seq<Arp>,
                    c': seq<Arp>, total: nat, frames: nat, frames': nat, b: Table, b': Table, now: Time, cfg: Config)
    requires ip in b && ip in a && b[ip] == a[ip] && VisitedOne(b, b', ip, c, c', frames, frames', now, cfg)
    requires ip in todo && probed !! todo && Starved(a, todo, probed, total, waiting, now, cfg)
    requires total == frames + |probed| && |c| <= waiting + |probed|
    ensures
      var more := if frames' < frames then probed + {ip} else probed;
      Starved(a, todo - {ip}, more, total, waiting, now, cfg)
  {
    var more := if frames' < frames then probed + {ip} else probed;
    assert frames' < frames ==> |more| == |probed| + 1;
  }

  /** Where the turns stand: those of `todo` are to come, and what is left of the frames. */
  ghost predicate Turns(a: Table, b: Table, todo: set<Address>, probed: set<Address>, c: seq<Arp>, c': seq<Arp>,
                        total: nat, frames: nat, now: Time, cfg: Config)
  {
    && Aged(a, b, todo, probed, now, cfg) && Asked(c, c', probed, Expired(a, now) - todo)
    && Starved(a, todo, probed, total, |c|, now, cfg) && frames + |probed| == total
  }

  lemma TurnsNone(a: Table, c: seq<Arp>, frames: nat, now: Time, cfg: Config)
    ensures Turns(a, a, a.Keys, {}, c, c, frames, frames, now, cfg)
  {
    hide Aged, Asked, Starved, Expired;
    AgedNone(a, c, frames, now, cfg);
    NoneGone(a, now);
  }

  lemma TurnsAll(a: Table, b: Table, probed: set<Address>, c: seq<Arp>, c': seq<Arp>, total: nat, frames: nat,
                 now: Time, cfg: Config)
    requires Turns(a, b, {}, probed, c, c', total, frames, now, cfg)
    ensures Aged(a, b, {}, probed, now, cfg) && Asked(c, c', probed, Expired(a, now))
    ensures Starved(a, {}, probed, total, |c|, now, cfg)
  {
    hide Aged, Asked, Starved, Expired;
    assert Expired(a, now) - {} == Expired(a, now);
  }

  lemma TurnsOn(a: Table, b: Table, b': Table, todo: set<Address>, probed: set<Address>, ip: Address, c0: seq<Arp>,
                c: seq<Arp>, c': seq<Arp>, total: nat, frames: nat, frames': nat, now: Time, cfg: Config)
    requires Turns(a, b, todo, probed, c0, c, total, frames, now, cfg)
    requires ip in todo && ip in a && ip in b && b[ip] == a[ip]
    requires VisitedOne(b, b', ip, c, c', frames, frames', now, cfg)
    ensures
      var more := if frames' < frames then probed + {ip} else probed;
      Turns(a, b', todo - {ip}, more, c0, c', total, frames', now, cfg) && frames' + |more| == total
  {
    hide Aged, Asked, Starved, Expired, VisitedOne;
    AgedFacts(a, b, todo, probed, now, cfg);
    AskedSize(c0, c, probed, Expired(a, now) - todo);
    AgedStep(a, b, b', todo, probed, ip, c, c', frames, frames', now, cfg);
    AskedStep(a, todo, probed, ip, c0, c, c', frames, frames', b, b', now, cfg);
    StarvedStep(a, todo, probed, ip, |c0|, c, c', total, frames, frames', b, b', now, cfg);
  }

  /** What a call asks: it ages the table, queues the requests that are due as far as frames and places last, and hands
      a prefix of the waiting messages to the device. */
  ghost predicate Probing(a: Table, b: Table, c: seq<Arp>, frames: nat, c': seq<Arp>, answer: Answer, now: Time,
                          cfg: Config)
  {
    exists q: seq<Arp>, probed: set<Address> ::
      && Aged(a, b, {}, probed, now, cfg) && Asked(c, q, probed, Expired(a, now))
      && Starved(a, {}, probed, frames, |c|, now, cfg) && Sent(q, c', answer)
  }

  predicate Sent(q: seq<Arp>, rest: seq<Arp>, answer: Answer) { rest == q[Taken(answer, |q|)..] }

  // ---------------------------------------------------------------- what arriving messages teach

  /** What a message can change: the table, the waiting messages and the frames for them. */
  datatype Ear = Ear(nb: Table, control: seq<Arp>, frames: nat)

  /** A message teaches its sender's address if it asks for this host, or answers a question still open. Static entries
      and a full table are not touched. */
  predicate Instructs(nb: Table, m: ArpMessage, now: Time, cfg: Config) {
    && m.ours && m.learnable
    && (m.request || (m.sender in nb && nb[m.sender].Resolving? && now < nb[m.sender].expires))
    && (if m.sender in nb then !nb[m.sender].Static? else |nb| != cfg.neighborCapacity)
  }

  function Hear(e: Ear, m: ArpMessage, now: Time, cfg: Config): Ear {
    var taught := Instructs(e.nb, m, now, cfg);
    var control := if taught then Uncancelled(e.control, m.sender) else e.control;
    var replies := m.ours && m.request && (m.learnable || m.probe) && e.frames > 0 && |control| < cfg.controlCapacity;
    Ear(if taught then e.nb[m.sender := Reachable(m.mac, now + cfg.neighborTtl)] else e.nb,
        if replies then control + [Reply(m.sender)] else control,
        if replies then e.frames - 1 else e.frames)
  }

  function HearAll(e: Ear, frames: seq<Arrival>, now: Time, cfg: Config): Ear {
    if frames == [] then e
    else
      var before := HearAll(e, frames[..|frames| - 1], now, cfg);
      if Last(frames).ArpFrame? then Hear(before, Last(frames).message, now, cfg) else before
  }

  lemma HearNone(e: Ear, now: Time, cfg: Config)
    ensures HearAll(e, [], now, cfg) == e
  {}

  lemma HearNext(e: Ear, frames: seq<Arrival>, i: nat, now: Time, cfg: Config)
    requires i < |frames|
    ensures HearAll(e, frames[..0], now, cfg) == e
    ensures HearAll(e, frames[..i + 1], now, cfg)
         == (if frames[i].ArpFrame? then Hear(HearAll(e, frames[..i], now, cfg), frames[i].message, now, cfg)
             else HearAll(e, frames[..i], now, cfg))
  {
    assert frames[..i + 1][..i] == frames[..i];
  }

  /** A request to this host from a usable address makes that address known, and the last such message from an address
      has the last word, unless the address is static or the table has no place for it. */
  lemma {:induction false} LastWord(e: Ear, frames: seq<Arrival>, i: nat, now: Time, cfg: Config)
    requires i < |frames| && frames[i].ArpFrame?
    requires
      var m := frames[i].message;
      && m.ours && m.learnable && m.request
      && forall j :: i < j < |frames| && frames[j].ArpFrame? ==> frames[j].message.sender != m.sender
    ensures
      var m, nb, nb' := frames[i].message, HearAll(e, frames[..i], now, cfg).nb, HearAll(e, frames, now, cfg).nb;
      if m.sender in nb && nb[m.sender].Static? then m.sender in nb' && nb'[m.sender] == nb[m.sender]
      else if m.sender !in nb && |nb| == cfg.neighborCapacity then m.sender !in nb'
      else m.sender in nb' && nb'[m.sender] == Reachable(m.mac, now + cfg.neighborTtl)
    decreases |frames|
  {
    hide Uncancelled;
    var init := frames[..|frames| - 1];
    if i < |frames| - 1 {
      LastWord(e, init, i, now, cfg);
      assert init[..i] == frames[..i] && init[i] == frames[i];
    } else {
      assert frames[..i] == init;
    }
  }

  // ---------------------------------------------------------------- queue steps

  lemma LineShrinks(pending: seq<Packet>, hs: set<Address>, cfg: Config)
    requires forall h: Address :: |Line(pending, Some(h))| <= cfg.perNeighborCapacity
    ensures forall h: Address :: |Line(Except(pending, hs), Some(h))| <= cfg.perNeighborCapacity
  {
    hide Line, Except;
    forall h: Address ensures |Line(Except(pending, hs), Some(h))| <= cfg.perNeighborCapacity {
      LineOnly(pending, hs, Some(h));
    }
  }

  lemma Released(sent: seq<Packet>, ready: seq<Packet>, pending: seq<Packet>, hs: set<Address>, k: Counters,
                 cfg: Config)
    requires QueuesInv(sent, ready, pending, k, cfg)
    ensures QueuesInv(sent, ready + Only(pending, hs), Except(pending, hs), k, cfg)
  {
    hide Line, Only, Except, InLine, Among;
    SplitSizes(pending, hs);
    SplitMembers(pending, hs);
    ReleaseInLine(sent, ready, pending, hs);
    LineShrinks(pending, hs, cfg);
    var r, w := ready + Only(pending, hs), Except(pending, hs);
    forall p | p in sent + r + w ensures p in sent + ready + pending {}
  }

  lemma TimedOut(sent: seq<Packet>, ready: seq<Packet>, pending: seq<Packet>, ip: Address, k: Counters, cfg: Config)
    requires QueuesInv(sent, ready, pending, k, cfg)
    ensures
      var rest := Except(pending, {ip});
      |rest| <= |pending| && QueuesInv(sent, ready, rest, k.(timeoutDrops := k.timeoutDrops + |pending| - |rest|), cfg)
  {
    hide Line, Only, Except, InLine, Among;
    SplitSizes(pending, {ip});
    SplitMembers(pending, {ip});
    DropInLine(sent, ready, pending, {ip});
    LineShrinks(pending, {ip}, cfg);
    forall p | p in sent + ready + Except(pending, {ip}) ensures p in sent + ready + pending {}
  }

  lemma Submitted(sent: seq<Packet>, ready: seq<Packet>, pending: seq<Packet>, n: nat, k: Counters, cfg: Config)
    requires QueuesInv(sent, ready, pending, k, cfg) && n <= |ready|
    ensures QueuesInv(sent + ready[..n], ready[n..], pending, k.(submitted := k.submitted + n), cfg)
  {
    hide Line, InLine;
    SubmitInLine(sent, ready, pending, n);
    forall p | p in sent + ready[..n] + ready[n..] + pending ensures p in sent + ready + pending {}
  }

  lemma Discarded(sent: seq<Packet>, ready: seq<Packet>, pending: seq<Packet>, k: Counters, cfg: Config)
    requires QueuesInv(sent, ready, pending, k, cfg)
    ensures QueuesInv(sent, [], [], k.(configurationDrops := k.configurationDrops + |pending| + |ready|), cfg)
  {
    hide InLine;
    DiscardInLine(sent, ready, pending);
    forall p | p in sent + [] + [] ensures p in sent + ready + pending {}
  }

  lemma Accepted(sent: seq<Packet>, ready: seq<Packet>, pending: seq<Packet>, hop: Option<Address>, direct: bool,
                 k: Counters, cfg: Config)
    requires QueuesInv(sent, ready, pending, k, cfg) && |pending| + |ready| < cfg.txCapacity
    requires direct ==> forall i :: 0 <= i < |pending| ==> pending[i].hop != hop
    requires !direct ==> hop.Some? && |Line(pending, hop)| < cfg.perNeighborCapacity
    ensures
      var p := Packet(k.accepted, hop);
      var k' := k.(accepted := k.accepted + 1);
      if direct then QueuesInv(sent, ready + [p], pending, k', cfg) else QueuesInv(sent, ready, pending + [p], k', cfg)
  {
    hide Line, InLine;
    var p := Packet(k.accepted, hop);
    AcceptInLine(sent, ready, pending, p, direct);
    var r, w := if direct then ready + [p] else ready, if direct then pending else pending + [p];
    forall q | q in sent + r + w ensures q == p || q in sent + ready + pending {}
    if !direct {
      forall h: Address ensures |Line(w, Some(h))| <= cfg.perNeighborCapacity {
        LineConcat(pending, [p], Some(h));
        LineOne(p, Some(h));
      }
    }
  }

  /** A resolution whose time is over. */
  predicate Lapsed(n: Neighbor, now: Time) { n.Resolving? && now >= n.expires }

  function Expired(nb: Table, now: Time): set<Address> { set ip | ip in nb && Lapsed(nb[ip], now) }

  /** Exactly the packets that waited for one of `gone` were dropped and counted. */
  predicate TimedOutOf(pending: seq<Packet>, k: Counters, gone: set<Address>, pending': seq<Packet>, k': Counters) {
    && pending' == Except(pending, gone) && |pending'| <= |pending|
    && k' == k.(timeoutDrops := k.timeoutDrops + |pending| - |pending'|)
  }

  lemma NoneTimedOut(pending: seq<Packet>, k: Counters, nb: Table, now: Time)
    ensures TimedOutOf(pending, k, Expired(nb, now) - nb.Keys, pending, k)
  {
    ExceptNone(pending);
    assert Expired(nb, now) - nb.Keys == {};
  }

  lemma TimedOutMore(p0: seq<Packet>, k0: Counters, nb: Table, now: Time, todo: set<Address>, ip: Address,
                     p: seq<Packet>, k: Counters, p': seq<Packet>, k': Counters)
    requires TimedOutOf(p0, k0, Expired(nb, now) - todo, p, k) && ip in todo && ip in nb
    requires TimedOutOf(p, k, if Lapsed(nb[ip], now) then {ip} else {}, p', k')
    ensures TimedOutOf(p0, k0, Expired(nb, now) - (todo - {ip}), p', k')
  {
    var gone, now1 := Expired(nb, now) - todo, if Lapsed(nb[ip], now) then {ip} else {};
    ExceptTwice(p0, gone, now1);
    assert gone + now1 == Expired(nb, now) - (todo - {ip});
  }

  /** What a call does to the packets: those whose resolution is over are dropped and counted, those
      whose address is known become ready, and the device takes a prefix of the ready ones. */
  predicate Worked(sent: seq<Packet>, ready: seq<Packet>, pending: seq<Packet>, k: Counters, gone: set<Address>,
                   known: set<Address>, sent': seq<Packet>, ready': seq<Packet>, pending': seq<Packet>, k': Counters)
  {
    var rest := Except(pending, gone);
    && |rest| <= |pending| && pending' == Except(rest, known)
    && sent <= sent' && sent' + ready' == sent + ready + Only(rest, known)
    && k' == k.(timeoutDrops := k.timeoutDrops + |pending| - |rest|, submitted := k.submitted + |sent'| - |sent|)
  }

  /** Packets whose address is known became ready, and the device took a prefix of the ready ones. */
  predicate Delivered(sent: seq<Packet>, ready: seq<Packet>, pending: seq<Packet>, k: Counters, known: set<Address>,
                      sent': seq<Packet>, ready': seq<Packet>, pending': seq<Packet>, k': Counters)
  {
    && pending' == Except(pending, known)
    && sent <= sent' && sent' + ready' == sent + ready + Only(pending, known)
    && k' == k.(submitted := k.submitted + |sent'| - |sent|)
  }

  lemma DeliveredNow(sent: seq<Packet>, ready: seq<Packet>, pending: seq<Packet>, k: Counters, known: set<Address>,
                     queue: seq<Packet>, n: nat)
    requires queue == ready + Only(pending, known) && n <= |queue|
    ensures Delivered(sent, ready, pending, k, known,
                      sent + queue[..n], queue[n..], Except(pending, known), k.(submitted := k.submitted + n))
  {
    hide Only, Except;
    assert sent + queue[..n] + queue[n..] == sent + ready + Only(pending, known);
  }

  lemma WorkedNow(sent: seq<Packet>, ready: seq<Packet>, pending: seq<Packet>, k: Counters, gone: set<Address>,
                  known: set<Address>, rest: seq<Packet>, c: Counters,
                  sent': seq<Packet>, ready': seq<Packet>, pending': seq<Packet>, k': Counters)
    requires TimedOutOf(pending, k, gone, rest, c)
    requires Delivered(sent, ready, rest, c, known, sent', ready', pending', k')
    ensures Worked(sent, ready, pending, k, gone, known, sent', ready', pending', k')
  {
    hide Only, Except;
  }

  function Resolved(nb: Table, now: Time): set<Address> { set ip | ip in nb && nb[ip].Mac(now).Some? }

  /** Moves resolved packets to the ready queue, one turn through the waiting ones. */
  method Release(ready: seq<Packet>, pending: seq<Packet>, nb: Table, now: Time)
      returns (r: seq<Packet>, w: seq<Packet>)
    requires forall i :: 0 <= i < |pending| ==> pending[i].hop.Some?
    ensures r == ready + Only(pending, Resolved(nb, now)) && w == Except(pending, Resolved(nb, now))
  {
    r, w := ready, pending;
    ghost var hs := Resolved(nb, now);
    assert pending[..0] == [] && pending[0..] == pending && pending[..|pending|] == pending;
    assert w == pending[0..] + Except(pending[..0], hs);
    for k := 0 to |pending|
      invariant w == pending[k..] + Except(pending[..k], hs)
      invariant r == ready + Only(pending[..k], hs)
    {
      hide Only, Except;
      var p := w[0];
      assert p == pending[k] && pending[..k + 1] == pending[..k] + [p] && pending[k..] == [p] + pending[k + 1..];
      SplitAppend(pending[..k], p, hs);
      w := w[1..];
      assert w == pending[k + 1..] + Except(pending[..k], hs);
      if p.hop.value in nb && nb[p.hop.value].Mac(now).Some? {
        r := r + [p];
      } else {
        w := w + [p];
        assert w == pending[k + 1..] + (Except(pending[..k], hs) + [p]);
      }
    }
  }

  /** After the release nobody with a known address waits. */
  lemma ReleasedWait(nb: Table, pending: seq<Packet>, now: Time)
    requires NoneLost(nb, pending, now)
    ensures NoneStranded(nb, Except(pending, Resolved(nb, now)))
  {
    var hs := Resolved(nb, now);
    hide Except, Only;
    SplitMembers(pending, hs);
    var w := Except(pending, hs);
    forall i | 0 <= i < |w|
      ensures w[i].hop.Some? && w[i].hop.value in nb && nb[w[i].hop.value].Resolving?
    {
      assert w[i] in pending;
      var j :| 0 <= j < |pending| && pending[j] == w[i];
    }
  }

  lemma Sizes(a: Table, b: Table)
    requires a.Keys <= b.Keys
    ensures |a| <= |b|
  {
    assert b.Keys == a.Keys + (b.Keys - a.Keys);
    assert |a.Keys| == |a| && |b.Keys| == |b|;
  }

  lemma InsertInv(nb: Table, ip: Address, n: Neighbor, now: Time, cfg: Config)
    requires TableInv(nb, now, cfg) && (ip !in nb ==> |nb| < cfg.neighborCapacity)
    requires n.Resolving? ==> n.attempts <= cfg.maxArpAttempts && n.expires <= now + cfg.resolutionTimeout
    ensures TableInv(nb[ip := n], now, cfg)
  {
    var m := nb[ip := n];
    assert m.Keys == nb.Keys + {ip};
    assert |m.Keys| == |m| && |nb.Keys| == |nb|;
  }

  lemma TableSize(nb: Table, now: Time, cfg: Config)
    requires TableInv(nb, now, cfg)
    ensures |nb| <= cfg.neighborCapacity
  {}

  lemma FewerInv(nb: Table, m: Table, now: Time, cfg: Config)
    requires TableInv(nb, now, cfg) && m.Keys <= nb.Keys && forall ip :: ip in m ==> m[ip] == nb[ip]
    ensures TableInv(m, now, cfg)
  {
    Sizes(m, nb);
  }

  // ---------------------------------------------------------------- the adapter

  /** What `send` finds out about one of the caller's packets. */
  datatype Offer = Invalid | NoRoute | BadHop | Broadcast | Via(hop: Address)

  datatype SendError = InvalidInput | NotConnected | AddrNotAvailable

  datatype Failure = TimeWentBackwards | DeviceFailed

  /** Why a packet cannot even be queued. */
  predicate Backed(hop: Address, nb: Table, now: Time) { hop in nb && nb[hop].Failed? && now < nb[hop].retryAfter }

  function Refused(o: Offer, nb: Table, now: Time): Option<SendError> {
    match o
    case Invalid => Some(InvalidInput)
    case NoRoute => Some(NotConnected)
    case BadHop => Some(InvalidInput)
    case Broadcast => None
    case Via(hop) => if Backed(hop, nb, now) then Some(NotConnected) else None
  }

  lemma RefusedKinds(o: Offer, nb: Table, now: Time)
    ensures o.Broadcast? ==> Refused(o, nb, now).None?
    ensures !o.Broadcast? && !o.Via? ==> Refused(o, nb, now).Some?
  {}

  /** A packet to an unknown address has to wait, and there is no place for it. */
  predicate NoRoomFor(hop: Address, nb: Table, pending: seq<Packet>, now: Time, cfg: Config) {
    && !(hop in nb && nb[hop].Mac(now).Some?)
    && (|Line(pending, Some(hop))| >= cfg.perNeighborCapacity || (hop !in nb && |nb| == cfg.neighborCapacity))
  }

  function HopOf(o: Offer): Option<Address> { if o.Via? then Some(o.hop) else None }

  predicate Queued(o: Offer, serial: nat, ready: seq<Packet>, pending: seq<Packet>) {
    var p := Packet(serial, HopOf(o));
    p in ready || p in pending
  }

  lemma QueuedNow(offers: seq<Offer>, base: nat, n: nat, r0: seq<Packet>, w0: seq<Packet>, r: seq<Packet>,
                  w: seq<Packet>)
    requires n < |offers|
    requires forall i :: 0 <= i < n ==> Queued(offers[i], base + i, r0, w0)
    requires
      var p := Packet(base + n, HopOf(offers[n]));
      (r == r0 + [p] && w == w0) || (r == r0 && w == w0 + [p])
    ensures forall i :: 0 <= i < n + 1 ==> Queued(offers[i], base + i, r, w)
  {
    var p := Packet(base + n, HopOf(offers[n]));
    assert p in r0 + [p] && p in w0 + [p];
    forall i | 0 <= i < n ensures Queued(offers[i], base + i, r, w) {
      assert Queued(offers[i], base + i, r0, w0);
    }
  }

  /** How the device below answers one submission: a prefix is taken, or nothing. */
  datatype Answer = Took(n: nat) | Broke

  function Taken(a: Answer, offered: nat): nat { if a.Took? then Min(a.n, offered) else 0 }

  class Adapter {
    const cfg: Config
    var configured: bool
    var neighbors: Table
    var pending: seq<Packet>
    var ready: seq<Packet>
    var control: seq<Arp>
    var spare: bool
    var now: Time
    var k: Counters
    /** Packets handed to the device, in order. */
    ghost var sent: seq<Packet>

    ghost predicate Bounded()
      reads this
    {
      && cfg.Valid() && TableInv(neighbors, now, cfg) && QueuesInv(sent, ready, pending, k, cfg)
      && |control| <= cfg.controlCapacity
    }

    ghost predicate Valid()
      reads this
    {
      Bounded() && NoneStranded(neighbors, pending)
    }

    constructor (cfg: Config)
      requires cfg.Valid()
      ensures Valid() && this.cfg == cfg && k == Counters(0, 0, 0, 0) && configured
    {
      this.cfg := cfg;
      configured, neighbors, spare, now := true, map[], true, 0;
      pending, ready, control := [], [], [];
      k := Counters(0, 0, 0, 0);
      sent := [];
    }

    /** Accepts a prefix of the packets, or refuses before it has taken any. */
    method Send(offers: seq<Offer>) returns (r: Result<nat, SendError>)
      requires Valid()
      modifies this`neighbors, this`pending, this`ready, this`k
      ensures Valid()
      ensures
        var limit := Min(cfg.txCapacity - |old(pending)| - |old(ready)|, |offers|);
        && 0 <= limit
        && (r.Err? <==> !configured || exists i :: 0 <= i < limit && Refused(offers[i], old(neighbors), now).Some?)
        && (r.Err? && configured ==>
              exists i :: 0 <= i < limit && Refused(offers[i], old(neighbors), now) == Some(r.error)
                                       && forall j :: 0 <= j < i ==> Refused(offers[j], old(neighbors), now).None?)
        && (r.Ok? ==> r.value <= limit)
        && (r.Ok? && r.value < limit ==>
              offers[r.value].Via? && NoRoomFor(offers[r.value].hop, neighbors, pending, now, cfg))
      ensures r.Err? ==> unchanged(this)
      ensures r.Ok? ==> k == old(k).(accepted := old(k).accepted + r.value)
      ensures r.Ok? ==> old(ready) <= ready && old(pending) <= pending
                        && |ready| + |pending| == |old(ready)| + |old(pending)| + r.value
                        && forall i :: 0 <= i < r.value ==> Queued(offers[i], old(k).accepted + i, ready, pending)
      ensures r.Ok? ==> forall ip :: ip in old(neighbors) && old(neighbors)[ip].Mac(now).Some? ==>
                ip in neighbors && neighbors[ip] == old(neighbors)[ip]
    {
      hide QueuesInv, TableInv, NoneStranded, NoRoomFor, Queued, Refused;
      var available := Room();
      var limit := Min(available, |offers|);
      if !configured { return Err(AddrNotAvailable); }
      var refusal, which := Refusal(offers, limit);
      if refusal.Some? { return Err(refusal.value); }
      var accepted := AcceptAll(offers, limit);
      r := Ok(accepted);
    }

    /** Takes packets that are not refused until one finds no room. */
    method AcceptAll(offers: seq<Offer>, limit: nat) returns (accepted: nat)
      requires Valid() && limit <= |offers| && |pending| + |ready| + limit <= cfg.txCapacity
      requires forall i :: 0 <= i < limit ==> Refused(offers[i], neighbors, now).None?
      modifies this`neighbors, this`pending, this`ready, this`k
      ensures Valid() && accepted <= limit
      ensures accepted < limit ==>
                offers[accepted].Via? && NoRoomFor(offers[accepted].hop, neighbors, pending, now, cfg)
      ensures k == old(k).(accepted := old(k).accepted + accepted)
      ensures old(ready) <= ready && old(pending) <= pending
      ensures |ready| + |pending| == |old(ready)| + |old(pending)| + accepted
      ensures forall i :: 0 <= i < accepted ==> Queued(offers[i], old(k).accepted + i, ready, pending)
      ensures forall ip :: ip in old(neighbors) && old(neighbors)[ip].Mac(now).Some? ==>
                ip in neighbors && neighbors[ip] == old(neighbors)[ip]
    {
      hide QueuesInv, TableInv, NoneStranded, NoRoomFor, Queued, Refused;
      accepted := 0;
      while accepted < limit
        invariant Valid() && accepted <= limit && |ready| + |pending| == |old(ready)| + |old(pending)| + accepted
        invariant k == old(k).(accepted := old(k).accepted + accepted)
        invariant old(ready) <= ready && old(pending) <= pending
        invariant forall i :: 0 <= i < accepted ==> Queued(offers[i], old(k).accepted + i, ready, pending)
        invariant forall ip :: ip in old(neighbors) && old(neighbors)[ip].Mac(now).Some? ==>
                    ip in neighbors && neighbors[ip] == old(neighbors)[ip]
      {
        var took := true;
        ghost var r0, w0 := ready, pending;
        RefusedKinds(offers[accepted], old(neighbors), now);
        if offers[accepted].Via? { took := AcceptVia(offers[accepted].hop); } else { AcceptBroadcast(); }
        if !took { return; }
        QueuedNow(offers, old(k).accepted, accepted, r0, w0, ready, pending);
        accepted := accepted + 1;
      }
    }

    /** The first reason, if any, to refuse the packets that would be accepted. */
    method Refusal(offers: seq<Offer>, limit: nat) returns (r: Option<SendError>, which: nat)
      requires limit <= |offers|
      ensures r.None? ==> forall i :: 0 <= i < limit ==> Refused(offers[i], neighbors, now).None?
      ensures r.Some? ==> which < limit && Refused(offers[which], neighbors, now) == r
                          && forall j :: 0 <= j < which ==> Refused(offers[j], neighbors, now).None?
    {
      which := 0;
      while which < limit
        invariant which <= limit
        invariant forall j :: 0 <= j < which ==> Refused(offers[j], neighbors, now).None?
      {
        match offers[which] {
          case Invalid => return Some(InvalidInput), which;
          case NoRoute => return Some(NotConnected), which;
          case BadHop => return Some(InvalidInput), which;
          case Broadcast =>
          case Via(hop) =>
            if Backed(hop, neighbors, now) { return Some(NotConnected), which; }
        }
        which := which + 1;
      }
      r := None;
    }

    method AcceptBroadcast()
      requires Valid() && |pending| + |ready| < cfg.txCapacity
      modifies this`ready, this`k
      ensures Valid() && ready == old(ready) + [Packet(old(k).accepted, None)]
      ensures k == old(k).(accepted := old(k).accepted + 1)
    {
      hide QueuesInv, TableInv, Line;
      Accepted(sent, ready, pending, None, true, k, cfg);
      ready := ready + [Packet(k.accepted, None)];
      k := k.(accepted := k.accepted + 1);
    }

    method Room() returns (available: nat)
      requires Valid()
      ensures available == cfg.txCapacity - |pending| - |ready|
    {
      available := cfg.txCapacity - |pending| - |ready|;
    }

    /** One packet for a next hop: framed at once if its address is known, else queued behind a resolution. */
    method AcceptVia(hop: Address) returns (took: bool)
      requires Valid() && |pending| + |ready| < cfg.txCapacity
      modifies this`neighbors, this`pending, this`ready, this`k
      ensures Valid()
      ensures !took <==> NoRoomFor(hop, old(neighbors), old(pending), now, cfg)
      ensures !took ==> unchanged(this)
      ensures took ==>
        var p := Packet(old(k).accepted, Some(hop));
        var known := hop in old(neighbors) && old(neighbors)[hop].Mac(now).Some?;
        && k == old(k).(accepted := old(k).accepted + 1)
        && ready == (if known then old(ready) + [p] else old(ready))
        && pending == (if known then old(pending) else old(pending) + [p])
        && neighbors == (if known || (hop in old(neighbors) && old(neighbors)[hop].Resolving?) then old(neighbors)
                         else old(neighbors)[hop := Resolving(0, now, now + cfg.resolutionTimeout)])
    {
      hide QueuesInv, Line;
      var p := Packet(k.accepted, Some(hop));
      if hop in neighbors && neighbors[hop].Mac(now).Some? {
        Accepted(sent, ready, pending, Some(hop), true, k, cfg);
        ready := ready + [p];
      } else {
        if |Line(pending, Some(hop))| >= cfg.perNeighborCapacity
           || (hop !in neighbors && |neighbors| == cfg.neighborCapacity) {
          return false;
        }
        Accepted(sent, ready, pending, Some(hop), false, k, cfg);
        if !(hop in neighbors && neighbors[hop].Resolving?) {
          var n := Resolving(0, now, now + cfg.resolutionTimeout);
          InsertInv(neighbors, hop, n, now, cfg);
          neighbors := neighbors[hop := n];
        }
        pending := pending + [p];
      }
      k := k.(accepted := k.accepted + 1);
      took := true;
    }

    /** Time passes: expiry, probes, release and submission. Afterwards nothing in the table is
        overdue; before the table's deadline nothing in it changes. */
    method Advance(at: Time, spares: nat, controlAnswer: Answer, dataAnswer: Answer) returns (r: Result<(), Failure>)
      requires Valid()
      modifies this
      ensures Valid()
      ensures at < old(now) ==> r == Err(TimeWentBackwards) && unchanged(this)
      ensures at >= old(now) ==>
                && now == at && (forall ip :: ip in neighbors ==> !Overdue(neighbors[ip], at))
                && SameKnown(old(neighbors), neighbors, at)
                && Worked(old(sent), old(ready), old(pending), old(k), Expired(old(neighbors), at),
                          Resolved(neighbors, at), sent, ready, pending, k)
                && Probing(old(neighbors), neighbors, old(control), Frames(old(spare), spares), control, controlAnswer,
                           at, cfg)
                && ((forall ip :: ip in old(neighbors) ==> Quiet(old(neighbors)[ip], at, cfg)) ==>
                     neighbors == old(neighbors))
    {
      if at < now { return Err(TimeWentBackwards); }
      now := at;
      r := Work(spares, controlAnswer, dataAnswer);
      VisitedAll(old(neighbors), neighbors, now, cfg);
    }

    /** The part of `advance` that follows the change of clock. */
    method Work(spares: nat, controlAnswer: Answer, dataAnswer: Answer) returns (r: Result<(), Failure>)
      requires Bounded() && NoneLost(neighbors, pending, now)
      modifies this
      ensures Valid() && now == old(now) && configured == old(configured)
      ensures Visited(old(neighbors), neighbors, {}, now, cfg)
      ensures Worked(old(sent), old(ready), old(pending), old(k), Expired(old(neighbors), now),
                     Resolved(neighbors, now), sent, ready, pending, k)
      ensures Probing(old(neighbors), neighbors, old(control), Frames(old(spare), spares), control, controlAnswer, now,
                      cfg)
    {
      hide QueuesInv, TableInv, NoneLost, NoneStranded, Visited, Expired, Resolved, TimedOutOf, Delivered, Worked, Aged,
           Asked, Starved, Taken;
      ghost var probed := VisitAll(spares);
      ghost var rest, c, q := pending, k, control;
      r := Deliver(controlAnswer, dataAnswer);
      assert Sent(q, control, controlAnswer);
      WorkedNow(old(sent), old(ready), old(pending), old(k), Expired(old(neighbors), now), Resolved(neighbors, now),
                rest, c, sent, ready, pending, k);
    }

    /** Packets whose address is known become ready, and the device takes what it will. */
    method Deliver(controlAnswer: Answer, dataAnswer: Answer) returns (r: Result<(), Failure>)
      requires Bounded() && NoneLost(neighbors, pending, now)
      modifies this`control, this`ready, this`pending, this`k, this`sent
      ensures Valid()
      ensures Delivered(old(sent), old(ready), old(pending), old(k), Resolved(neighbors, now), sent, ready, pending, k)
      ensures control == old(control)[Taken(controlAnswer, |old(control)|)..]
    {
      hide QueuesInv, TableInv, NoneLost, NoneStranded, Resolved, Only, Except, Delivered, Taken;
      ReleaseResolved();
      ghost var queue := ready;
      ghost var n;
      r, n := Flush(controlAnswer, dataAnswer);
      DeliveredNow(old(sent), old(ready), old(pending), old(k), Resolved(neighbors, now), queue, n);
    }

    /** Every entry has its turn; `probed` are those asked for again. A frame is kept back for the next message. */
    method VisitAll(spares: nat) returns (ghost probed: set<Address>)
      requires Bounded() && NoneLost(neighbors, pending, now)
      modifies this`neighbors, this`pending, this`control, this`spare, this`k
      ensures Bounded() && NoneLost(neighbors, pending, now)
      ensures Visited(old(neighbors), neighbors, {}, now, cfg)
      ensures TimedOutOf(old(pending), old(k), Expired(old(neighbors), now), pending, k)
      ensures Aged(old(neighbors), neighbors, {}, probed, now, cfg)
      ensures Asked(old(control), control, probed, Expired(old(neighbors), now))
      ensures Starved(old(neighbors), {}, probed, Frames(old(spare), spares), |old(control)|, now, cfg)
      ensures probed == {} ==> spare == (Frames(old(spare), spares) > 0)
    {
      hide QueuesInv, TableInv, NoneLost, SameKnown, Overdue, Quiet, Visited, Expired, TimedOutOf, Except, Aged, Asked,
           Starved, VisitedOne, Turns;
      var left := spares;
      if !spare && left > 0 { spare, left := true, left - 1; }
      VisitedNone(neighbors, now, cfg);
      ghost var gone, total := Expired(neighbors, now), Frames(spare, left);
      var todo := neighbors.Keys;
      NoneTimedOut(pending, k, neighbors, now);
      probed := {};
      TurnsNone(neighbors, control, total, now, cfg);
      while todo != {}
        invariant Bounded() && NoneLost(neighbors, pending, now)
        invariant Visited(old(neighbors), neighbors, todo, now, cfg)
        invariant TimedOutOf(old(pending), old(k), gone - todo, pending, k)
        invariant Turns(old(neighbors), neighbors, todo, probed, old(control), control, total, Frames(spare, left), now,
                        cfg)
        invariant Frames(spare, left) + |probed| == total && (probed == {} ==> spare == (total > 0))
        decreases |todo|
      {
        var ip :| ip in todo;
        ghost var before, p, c, q, frames := neighbors, pending, k, control, Frames(spare, left);
        VisitedKeys(old(neighbors), before, todo, now, cfg);
        left := Visit(ip, left);
        ghost var frames' := Frames(spare, left);
        VisitedStep(old(neighbors), before, neighbors, todo, ip, now, cfg);
        TimedOutMore(old(pending), old(k), old(neighbors), now, todo, ip, p, c, pending, k);
        TurnsOn(old(neighbors), before, neighbors, todo, probed, ip, old(control), q, control, total, frames, frames',
                now, cfg);
        if frames' < frames { probed := probed + {ip}; }
        todo := todo - {ip};
      }
      assert gone - todo == gone;
      TurnsAll(old(neighbors), neighbors, probed, old(control), control, total, Frames(spare, left), now, cfg);
    }

    /** One entry of the table. */
    method Visit(ip: Address, spares: nat) returns (left: nat)
      requires Bounded() && NoneLost(neighbors, pending, now) && ip in neighbors
      modifies this`neighbors, this`pending, this`control, this`spare, this`k
      ensures Bounded() && NoneLost(neighbors, pending, now)
      ensures neighbors.Keys <= old(neighbors).Keys
      ensures TimedOutOf(old(pending), old(k), if Lapsed(old(neighbors)[ip], now) then {ip} else {}, pending, k)
      ensures forall j :: j in old(neighbors) && j != ip ==> j in neighbors && neighbors[j] == old(neighbors)[j]
      ensures ip in neighbors ==> !Overdue(neighbors[ip], now)
      ensures SameKnown(old(neighbors), neighbors, now)
      ensures Quiet(old(neighbors)[ip], now, cfg) ==> neighbors == old(neighbors)
      ensures VisitedOne(old(neighbors), neighbors, ip, old(control), control, Frames(old(spare), spares),
                         Frames(spare, left), now, cfg)
      ensures Frames(spare, left) == Frames(old(spare), spares) ==> spare == old(spare) || (left < spares && spare)
    {
      hide QueuesInv, TableInv, Only, Except, Uncancelled, SameKnown, Overdue, Quiet;
      left := spares;
      var n := neighbors[ip];
      ExceptNone(pending);
      if (n.Reachable? && now >= n.expires) || (n.Failed? && now >= n.retryAfter) {
        var rest := neighbors - {ip};
        FewerInv(neighbors, rest, now, cfg);
        neighbors := rest;
      } else if n.Resolving? && now >= n.expires {
        GiveUp(ip);
      } else if n.Resolving? && now >= n.nextProbe && n.attempts < cfg.maxArpAttempts {
        var queued;
        queued, left := QueueArp(Request(ip), left);
        if queued {
          var next := Resolving(n.attempts + 1, now + cfg.retryInterval, n.expires);
          ProbeInv(neighbors, ip, next, now, cfg);
          neighbors := neighbors[ip := next];
        }
      }
      VisitFacts(old(neighbors), neighbors, ip, old(control), control, Frames(old(spare), spares), Frames(spare, left),
                 now, cfg);
    }

    /** A resolution has timed out: its packets are dropped and counted. */
    method GiveUp(ip: Address)
      requires Bounded() && NoneLost(neighbors, pending, now) && ip in neighbors
      modifies this`neighbors, this`pending, this`control, this`k
      ensures Bounded() && NoneLost(neighbors, pending, now)
      ensures neighbors == old(neighbors)[ip := Failed(now + cfg.failedRetryDelay)]
      ensures pending == Except(old(pending), {ip}) && control == Uncancelled(old(control), ip)
      ensures |pending| <= |old(pending)|
      ensures k == old(k).(timeoutDrops := old(k).timeoutDrops + |old(pending)| - |pending|)
    {
      hide QueuesInv, Except, Only, Among;
      TimedOut(sent, ready, pending, ip, k, cfg);
      InsertInv(neighbors, ip, Failed(now + cfg.failedRetryDelay), now, cfg);
      WaitersElsewhere(neighbors, pending, ip, Failed(now + cfg.failedRetryDelay), now);
      neighbors := neighbors[ip := Failed(now + cfg.failedRetryDelay)];
      var rest := Except(pending, {ip});
      k := k.(timeoutDrops := k.timeoutDrops + (|pending| - |rest|));
      pending := rest;
      CancelProbes(ip);
    }

    method CancelProbes(ip: Address)
      modifies this`control
      ensures control == Uncancelled(old(control), ip) && |control| <= |old(control)|
    {
      var kept: seq<Arp> := [];
      assert control[..0] == [] && control[..|control|] == control;
      for i := 0 to |control|
        invariant control == old(control) && kept == Uncancelled(control[..i], ip)
      {
        UncancelledNext(control, ip, i);
        if control[i] != Request(ip) { kept := kept + [control[i]]; }
      }
      UncancelledIs(control, ip);
      control := kept;
    }

    /** ARP messages use the frame kept back for them. */
    method QueueArp(message: Arp, spares: nat) returns (queued: bool, left: nat)
      requires |control| <= cfg.controlCapacity
      modifies this`control, this`spare
      ensures |control| <= cfg.controlCapacity
      ensures queued <==> |old(control)| < cfg.controlCapacity && (old(spare) || spares > 0)
      ensures control == if queued then old(control) + [message] else old(control)
      ensures Frames(spare, left) == Frames(old(spare), spares) - (if queued then 1 else 0)
      ensures queued ==> !spare
      ensures !queued ==> spare == old(spare) && left == spares
    {
      left := spares;
      if |control| == cfg.controlCapacity { return false, left; }
      if !spare && left > 0 { spare, left := true, left - 1; }
      if !spare { return false, left; }
      spare := false;
      control := control + [message];
      queued := true;
    }

    method ReleaseResolved()
      requires Bounded() && NoneLost(neighbors, pending, now)
      modifies this`ready, this`pending
      ensures Valid()
      ensures ready == old(ready) + Only(old(pending), Resolved(neighbors, now))
      ensures pending == Except(old(pending), Resolved(neighbors, now))
    {
      assert forall i :: 0 <= i < |pending| ==> pending[i].hop.Some?;
      hide QueuesInv, TableInv, Only, Except;
      Released(sent, ready, pending, Resolved(neighbors, now), k, cfg);
      ReleasedWait(neighbors, pending, now);
      var r, w := Release(ready, pending, neighbors, now);
      ready, pending := r, w;
    }

    /** ARP messages go first; data follows only when none of them is left. */
    method Flush(controlAnswer: Answer, dataAnswer: Answer) returns (r: Result<(), Failure>, ghost n: nat)
      requires Valid()
      modifies this`control, this`ready, this`k, this`sent
      ensures Valid() && control == old(control)[Taken(controlAnswer, |old(control)|)..]
      ensures n == if control == [] then Taken(dataAnswer, |old(ready)|) else 0
      ensures n <= |old(ready)| && sent == old(sent) + old(ready)[..n] && ready == old(ready)[n..]
      ensures k == old(k).(submitted := old(k).submitted + n)
      ensures r.Err? <==> (old(control) != [] && controlAnswer.Broke?)
                          || (control == [] && old(ready) != [] && dataAnswer.Broke?)
    {
      hide QueuesInv, TableInv;
      if control != [] {
        if controlAnswer.Broke? { return Err(DeviceFailed), 0; }
        control := control[Min(controlAnswer.n, |control|)..];
      }
      n := 0;
      if control != [] { return Ok(()), n; }
      if ready != [] {
        if dataAnswer.Broke? { return Err(DeviceFailed), n; }
        n := Min(dataAnswer.n, |ready|);
        Hand(Min(dataAnswer.n, |ready|));
      }
      r := Ok(());
    }

    /** The device has taken the first `n` ready packets. */
    method Hand(n: nat)
      requires Valid() && n <= |ready|
      modifies this`ready, this`k, this`sent
      ensures Valid() && sent == old(sent) + old(ready)[..n] && ready == old(ready)[n..]
      ensures k == old(k).(submitted := old(k).submitted + n)
    {
      hide QueuesInv, TableInv;
      Submitted(sent, ready, pending, n, k, cfg);
      sent := sent + ready[..n];
      ready := ready[n..];
      k := k.(submitted := k.submitted + n);
    }

    /** What ARP teaches; a static entry is never replaced. */
    method Learn(ip: Address, mac: nat)
      requires Bounded() && NoneLost(neighbors, pending, now)
      modifies this`neighbors, this`control
      ensures Bounded() && NoneLost(neighbors, pending, now)
      ensures neighbors == if (ip in old(neighbors) && old(neighbors)[ip].Static?)
                              || (ip !in old(neighbors) && |old(neighbors)| == cfg.neighborCapacity)
                           then old(neighbors) else old(neighbors)[ip := Reachable(mac, now + cfg.neighborTtl)]
      ensures control == if (ip in old(neighbors) && old(neighbors)[ip].Static?)
                            || (ip !in old(neighbors) && |old(neighbors)| == cfg.neighborCapacity)
                         then old(control) else Uncancelled(old(control), ip)
    {
      hide QueuesInv, TableInv;
      if ip in neighbors && neighbors[ip].Static? { return; }
      if ip !in neighbors && |neighbors| == cfg.neighborCapacity { return; }
      assert |neighbors| <= cfg.neighborCapacity by { TableSize(neighbors, now, cfg); }
      CancelProbes(ip);
      InsertInv(neighbors, ip, Reachable(mac, now + cfg.neighborTtl), now, cfg);
      neighbors := neighbors[ip := Reachable(mac, now + cfg.neighborTtl)];
    }

    /** Arriving frames, then the work of a call at the same time. When nothing is asked for, the device
        is left alone; when it fails, nothing else happens. */
    method Recv(max: nat, receives: bool, frames: seq<Arrival>, spares: nat, controlAnswer: Answer, dataAnswer: Answer)
        returns (r: Result<(), Failure>, out: seq<nat>)
      requires Valid() && |frames| <= max
      modifies this
      ensures Valid() && now == old(now) && configured == old(configured)
      ensures max > 0 && !receives ==> r == Err(DeviceFailed) && out == []
      ensures max > 0 && !receives ==> unchanged(`neighbors, `pending, `ready, `control, `k, `sent)
      ensures max == 0 || receives ==>
        && out == (if configured then Datagrams(frames) else [])
        && (forall ip :: ip in neighbors ==> !Overdue(neighbors[ip], now))
        && Believed(old(neighbors), neighbors, frames, now, cfg)
        && var ear := Ear(old(neighbors), old(control), Frames(max == 0 && old(spare), spares));
           var heard := if configured then HearAll(ear, frames, now, cfg) else ear;
           && Worked(old(sent), old(ready), old(pending), old(k), Expired(heard.nb, now), Resolved(neighbors, now),
                     sent, ready, pending, k)
           && Probing(heard.nb, neighbors, heard.control, heard.frames, control, controlAnswer, now, cfg)
    {
      hide QueuesInv, TableInv, NoneLost, NoneStranded, Believed, SameKnown, Overdue, Quiet, Visited, Worked, Expired,
           Resolved, HearAll, Probing;
      StillLost(neighbors, pending, now);
      BelievedSelf(neighbors, frames, now, cfg);
      out := [];
      var left := spares;
      if max > 0 {
        spare := false;
        if !receives { return Err(DeviceFailed), []; }
      }
      ghost var ear := Ear(neighbors, control, Frames(spare, left));
      assert frames[..0] == [];
      HearNone(ear, now, cfg);
      for i := 0 to |frames|
        invariant Bounded() && NoneLost(neighbors, pending, now) && now == old(now) && configured == old(configured)
        invariant k == old(k) && sent == old(sent) && ready == old(ready) && pending == old(pending)
        invariant Believed(old(neighbors), neighbors, frames, now, cfg)
        invariant Ear(neighbors, control, Frames(spare, left))
               == if configured then HearAll(ear, frames[..i], now, cfg) else ear
        invariant out == if configured then Datagrams(frames[..i]) else []
      {
        DatagramsNext(frames, i);
        HearNext(ear, frames, i, now, cfg);
        if configured {
          match frames[i]
          case ArpFrame(m) => left := ReceiveArp(m, left, frames, i, old(neighbors));
          case IpFrame(serial, fits) => if fits { out := out + [serial]; }
          case OtherFrame =>
        }
      }
      assert frames[..|frames|] == frames;
      ghost var taught := neighbors;
      r := Work(left, controlAnswer, dataAnswer);
      VisitedAll(taught, neighbors, now, cfg);
      BelievedLater(old(neighbors), taught, neighbors, frames, now, cfg);
    }

    /** `learnable` says that the sender's address is a unicast address, `probe` that it is unspecified,
        `ours` that the message is well formed and meant for this adapter. */
    method ReceiveArp(m: ArpMessage, spares: nat, ghost frames: seq<Arrival>, ghost i: nat, ghost before: Table)
        returns (left: nat)
      requires Bounded() && NoneLost(neighbors, pending, now) && i < |frames| && frames[i] == ArpFrame(m)
      requires Believed(before, neighbors, frames, now, cfg)
      modifies this`neighbors, this`control, this`spare
      ensures Bounded() && NoneLost(neighbors, pending, now)
      ensures Believed(before, neighbors, frames, now, cfg)
      ensures Ear(neighbors, control, Frames(spare, left))
           == Hear(Ear(old(neighbors), old(control), Frames(old(spare), spares)), m, now, cfg)
    {
      hide QueuesInv, TableInv, NoneLost, Believed, Uncancelled;
      left := spares;
      if !m.ours { return; }
      if m.learnable { BelievedLearn(before, neighbors, frames, i, now, cfg); }
      if m.request {
        if m.learnable { Learn(m.sender, m.mac); }
        if m.learnable || m.probe {
          var queued;
          queued, left := QueueArp(Reply(m.sender), left);
        }
      } else if m.learnable && m.sender in neighbors && neighbors[m.sender].Resolving?
                && now < neighbors[m.sender].expires {
        Learn(m.sender, m.mac);
      }
    }

    /** A static neighbour resolves at once; packets framed with another address are dropped. `usable`
        says that both addresses are unicast addresses and not this host's. */
    method AddStatic(ip: Address, mac: nat, usable: bool) returns (ok: bool)
      requires Valid()
      modifies this`neighbors, this`pending, this`ready, this`control, this`k
      ensures Valid() && ok == (usable && (ip in old(neighbors) || |old(neighbors)| < cfg.neighborCapacity))
      ensures !ok ==> unchanged(this)
      ensures ok ==>
        var stale := Framed(old(neighbors), ip, mac);
        && neighbors == (if stale then Settled(old(neighbors)) else old(neighbors))[ip := Static(mac)]
        && control == (if stale then [] else Uncancelled(old(control), ip))
        && (stale ==> pending == ready == []
                      && k == old(k).(configurationDrops := old(k).configurationDrops + |old(pending)| + |old(ready)|))
        && (!stale ==> k == old(k) && ready == old(ready) + Only(old(pending), Resolved(neighbors, now))
                       && pending == Except(old(pending), Resolved(neighbors, now)))
    {
      if !usable || (ip !in neighbors && |neighbors| == cfg.neighborCapacity) { return false; }
      if Framed(neighbors, ip, mac) {
        Discard();
      }
      hide QueuesInv;
      CancelProbes(ip);
      InsertInv(neighbors, ip, Static(mac), now, cfg);
      neighbors := neighbors[ip := Static(mac)];
      ReleaseResolved();
      ok := true;
    }

    /** Queued packets are dropped and unfinished resolutions forgotten. */
    method Discard()
      requires Valid()
      modifies this`neighbors, this`pending, this`ready, this`control, this`k
      ensures Valid() && pending == ready == [] && control == []
      ensures k == old(k).(configurationDrops := old(k).configurationDrops + |old(pending)| + |old(ready)|)
      ensures neighbors == Settled(old(neighbors))
    {
      hide QueuesInv;
      Discarded(sent, ready, pending, k, cfg);
      FewerInv(neighbors, Settled(neighbors), now, cfg);
      k := k.(configurationDrops := k.configurationDrops + |pending| + |ready|);
      pending, ready, control := [], [], [];
      neighbors := Settled(neighbors);
    }

    method RemoveNeighbor(ip: Address) returns (removed: bool)
      requires Valid()
      modifies this`neighbors, this`pending, this`ready, this`control, this`k
      ensures Valid() && removed == (ip in old(neighbors))
      ensures removed ==> neighbors == Settled(old(neighbors)) - {ip} && pending == ready == [] && control == []
      ensures removed ==>
                k == old(k).(configurationDrops := old(k).configurationDrops + |old(pending)| + |old(ready)|)
      ensures !removed ==> unchanged(this)
    {
      removed := ip in neighbors;
      if removed {
        Discard();
        hide QueuesInv;
        FewerInv(neighbors, neighbors - {ip}, now, cfg);
        neighbors := neighbors - {ip};
      }
    }

    /** After a link reset only static neighbours survive. */
    method ResetLink()
      requires Valid()
      modifies this`neighbors, this`pending, this`ready, this`control, this`k
      ensures Valid() && pending == ready == [] && control == []
      ensures neighbors == map ip | ip in old(neighbors) && old(neighbors)[ip].Static? :: old(neighbors)[ip]
      ensures k == old(k).(configurationDrops := old(k).configurationDrops + |old(pending)| + |old(ready)|)
    {
      Discard();
      hide QueuesInv;
      var statics := map ip | ip in neighbors && neighbors[ip].Static? :: neighbors[ip];
      FewerInv(neighbors, statics, now, cfg);
      neighbors := statics;
    }

    /** A new address or a withdrawn lease forgets every neighbour. */
    method Reconfigure(up: bool)
      requires Valid()
      modifies this
      ensures Valid() && pending == ready == [] && control == [] && neighbors == map[] && configured == up
      ensures k == old(k).(configurationDrops := old(k).configurationDrops + |old(pending)| + |old(ready)|)
    {
      Discard();
      neighbors, configured := map[], up;
    }

    /** The earliest deadline in the table. */
    method NextDeadline() returns (r: Option<Time>)
      ensures r.None? ==> forall ip :: ip in neighbors ==> Deadline(neighbors[ip], cfg).None?
      ensures r.Some? ==> exists ip :: ip in neighbors && Deadline(neighbors[ip], cfg) == r
      ensures r.Some? ==> forall ip :: ip in neighbors && Deadline(neighbors[ip], cfg).Some? ==>
                            r.value <= Deadline(neighbors[ip], cfg).value
    {
      hide Deadline;
      r := None;
      var todo := neighbors.Keys;
      while todo != {}
        invariant todo <= neighbors.Keys
        invariant r.None? ==> forall ip :: ip in neighbors && ip !in todo ==> Deadline(neighbors[ip], cfg).None?
        invariant r.Some? ==> exists ip :: ip in neighbors && Deadline(neighbors[ip], cfg) == r
        invariant r.Some? ==> forall ip :: ip in neighbors && ip !in todo ==>
                    var d := Deadline(neighbors[ip], cfg); d.Some? ==> r.value <= d.value
        decreases |todo|
      {
        var ip :| ip in todo;
        var d := Deadline(neighbors[ip], cfg);
        if d.Some? && (r.None? || d.value < r.value) { r := d; }
        todo := todo - {ip};
      }
    }
  }

  /** Before the table's deadline nothing in it is due. */
  lemma BeforeDeadline(nb: Table, r: Option<Time>, at: Time, cfg: Config)
    requires r.None? ==> forall ip :: ip in nb ==> Deadline(nb[ip], cfg).None?
    requires r.Some? ==> forall ip :: ip in nb && Deadline(nb[ip], cfg).Some? ==> r.value <= Deadline(nb[ip], cfg).value
    requires r.Some? ==> at < r.value
    ensures forall ip :: ip in nb ==> Quiet(nb[ip], at, cfg)
  {
    hide Deadline;
    forall ip | ip in nb ensures Quiet(nb[ip], at, cfg) {
      if Deadline(nb[ip], cfg).Some? { assert r.Some?; }
    }
  }

  /** The deadline is no earlier than needed: when it comes, the entry is out of date or a probe is due. */
  lemma DeadlineNeeded(n: Neighbor, cfg: Config)
    ensures
      var at := Deadline(n, cfg);
      if at.None? then n.Static? else Overdue(n, at.value) || ProbeDue(n, at.value, cfg)
  {}

  /** Packets may have been framed with an address that differs from `mac`. */
  predicate Framed(nb: Table, ip: Address, mac: nat) {
    ip in nb && (nb[ip].Static? || nb[ip].Reachable?) && nb[ip].mac != mac
  }

  datatype ArpMessage = ArpMessage(ours: bool, request: bool, sender: Address, mac: nat, learnable: bool, probe: bool)

  /** A received frame; `fits` says that it holds an IPv4 packet that is small enough and meant for this host. */
  datatype Arrival = ArpFrame(message: ArpMessage) | IpFrame(serial: nat, fits: bool) | OtherFrame

  /** The packets handed up, in order. */
  function Datagrams(frames: seq<Arrival>): seq<nat> {
    if frames == [] then []
    else
      var init, f := Datagrams(frames[..|frames| - 1]), Last(frames);
      if f.IpFrame? && f.fits then init + [f.serial] else init
  }

  /** A static address stays, and any other address that is known was known before or was taught by one
      of the messages. */
  predicate Believed(a: Table, b: Table, frames: seq<Arrival>, now: Time, cfg: Config) {
    && (forall ip :: ip in a && a[ip].Static? ==> ip in b && b[ip] == a[ip])
    && (forall ip :: ip in b && b[ip].Mac(now).Some? ==>
          (ip in a && b[ip] == a[ip])
          || exists i :: 0 <= i < |frames| && Teaches(frames[i], ip, b[ip], now, cfg))
  }

  predicate Teaches(f: Arrival, ip: Address, n: Neighbor, now: Time, cfg: Config) {
    && f.ArpFrame?
    && var m := f.message;
       m.ours && m.learnable && m.sender == ip && n == Reachable(m.mac, now + cfg.neighborTtl)
  }

  lemma BelievedSelf(a: Table, frames: seq<Arrival>, now: Time, cfg: Config)
    ensures Believed(a, a, frames, now, cfg)
  {}

  lemma BelievedLearn(a: Table, b: Table, frames: seq<Arrival>, i: nat, now: Time, cfg: Config)
    requires Believed(a, b, frames, now, cfg) && i < |frames|
    requires frames[i].ArpFrame? && frames[i].message.ours && frames[i].message.learnable
    ensures
      var m := frames[i].message;
      !(m.sender in b && b[m.sender].Static?) ==>
        Believed(a, b[m.sender := Reachable(m.mac, now + cfg.neighborTtl)], frames, now, cfg)
  {
    var m := frames[i].message;
    assert Teaches(frames[i], m.sender, Reachable(m.mac, now + cfg.neighborTtl), now, cfg);
  }

  lemma BelievedLater(a: Table, b: Table, c: Table, frames: seq<Arrival>, now: Time, cfg: Config)
    requires Believed(a, b, frames, now, cfg) && SameKnown(b, c, now)
    ensures Believed(a, c, frames, now, cfg)
  {
    forall ip | ip in c && c[ip].Mac(now).Some?
      ensures (ip in a && c[ip] == a[ip]) || exists i :: 0 <= i < |frames| && Teaches(frames[i], ip, c[ip], now, cfg)
    {
      assert b[ip] == c[ip];
    }
  }

  lemma StillLost(nb: Table, pending: seq<Packet>, now: Time)
    requires NoneStranded(nb, pending)
    ensures NoneLost(nb, pending, now)
  {}

  lemma DatagramsNext(frames: seq<Arrival>, i: nat)
    requires i < |frames|
    ensures Datagrams(frames[..i + 1])
         == Datagrams(frames[..i]) + (if frames[i].IpFrame? && frames[i].fits then [frames[i].serial] else [])
    ensures Datagrams(frames[..0]) == []
  {
    assert frames[..i + 1][..i] == frames[..i];
  }

  function Settled(nb: Table): Table { map ip | ip in nb && !nb[ip].Resolving? :: nb[ip] }

  lemma ProbeInv(nb: Table, ip: Address, next: Neighbor, now: Time, cfg: Config)
    requires TableInv(nb, now, cfg) && ip in nb && nb[ip].Resolving? && nb[ip].attempts < cfg.maxArpAttempts
    requires next.Resolving? && next.attempts == nb[ip].attempts + 1 && next.expires == nb[ip].expires
    ensures TableInv(nb[ip := next], now, cfg)
  {
    InsertInv(nb, ip, next, now, cfg);
  }

  lemma WaitersElsewhere(nb: Table, pending: seq<Packet>, ip: Address, n: Neighbor, now: Time)
    requires NoneLost(nb, pending, now)
    ensures NoneLost(nb[ip := n], Except(pending, {ip}), now)
  {
    hide Except;
    SplitMembers(pending, {ip});
    var rest := Except(pending, {ip});
    forall i | 0 <= i < |rest|
      ensures rest[i].hop.Some? && rest[i].hop.value in nb && rest[i].hop.value != ip
      ensures nb[rest[i].hop.value].Resolving? || nb[rest[i].hop.value].Mac(now).Some?
    {
      assert rest[i] in pending && !Among(rest[i], {ip});
      var j :| 0 <= j < |pending| && pending[j] == rest[i];
    }
  }
}
