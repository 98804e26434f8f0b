/** Alias chasing within one DNS response (`response` in `src/dns/wire.rs`), on decoded records. */
module DnsAliases {
  import opened Prelude
  import opened DnsWire

  datatype Data =
    | Address(ip: nat)
    | BadAddress
    | Canonical(target: Text)
    | BadCanonical
    | Authority(minimum: u32, fits: bool)
    | Other

  datatype Record = Record(owner: Text, data: Data, ttl: u32, authority: bool)

  datatype ResolveError = NotFound | NoData | AliasLimit | ServerFailure | Refused | TcpRequired | ProtocolError
    | Timeout | Cancelled | NetworkChanged | Busy | InvalidName | Local

  datatype Answer =
    | Addresses(canonical: Text, addresses: seq<nat>, ttl: nat)
    | Alias(target: Text, ttl: nat, hops: nat)
    | Negative(error: ResolveError, lifetime: Option<nat>)
    | Failure(why: ResolveError)

  const MAX_TTL: nat := 0xffff_ffff

  predicate Relevant(r: Record, name: Text) { !r.authority && r.owner == name }

  /** Some answer record makes `target` the canonical name of `name`. */
  predicate AliasOf(rs: seq<Record>, name: Text, target: Text) {
    exists i :: 0 <= i < |rs| && Relevant(rs[i], name) && rs[i].data == Canonical(target)
  }

  predicate Chain(rs: seq<Record>, names: seq<Text>) {
    forall i :: 0 <= i < |names| - 1 ==> AliasOf(rs, names[i], names[i + 1])
  }

  predicate Unrepeated(names: seq<Text>) { forall i, j :: 0 <= i < j < |names| ==> names[i] != names[j] }

  /** Nothing used for the answer lives shorter than `ttl`. */
  predicate Outlives(rs: seq<Record>, names: seq<Text>, ttl: nat) {
    forall i :: 0 <= i < |rs| && !rs[i].authority && rs[i].owner in names
                && (rs[i].data.Address? || rs[i].data.Canonical?) ==>
      ttl <= rs[i].ttl
  }

  /** Some record used for the answer lives just as long, unless none was used. */
  predicate Attained(rs: seq<Record>, names: seq<Text>, ttl: nat) {
    || ttl == MAX_TTL
    || exists i :: 0 <= i < |rs| && !rs[i].authority && rs[i].owner in names
                   && (rs[i].data.Address? || rs[i].data.Canonical?) && ttl == rs[i].ttl
  }

  /** The least lifetime of everything used for the answer. */
  predicate Least(rs: seq<Record>, names: seq<Text>, ttl: nat) { Outlives(rs, names, ttl) && Attained(rs, names, ttl) }

  predicate Readable(r: Record) { !r.data.BadAddress? && !r.data.BadCanonical? && r.data != Canonical([]) }

  predicate Canonicals(r: Record, o: Record, name: Text) {
    Relevant(r, name) && Relevant(o, name) && r.data.Canonical? && o.data.Canonical?
  }

  /** All records of a name can be read, and they agree on its canonical name. */
  predicate WellFormed(rs: seq<Record>, name: Text) {
    && (forall i :: 0 <= i < |rs| && Relevant(rs[i], name) ==> Readable(rs[i]))
    && (forall i, j :: 0 <= i < |rs| && 0 <= j < |rs| && Canonicals(rs[i], rs[j], name) ==> rs[i].data == rs[j].data)
  }

  predicate HasAddress(rs: seq<Record>, name: Text) {
    exists i :: 0 <= i < |rs| && Relevant(rs[i], name) && rs[i].data.Address?
  }

  predicate HasAlias(rs: seq<Record>, name: Text) {
    exists i :: 0 <= i < |rs| && Relevant(rs[i], name) && rs[i].data.Canonical?
  }

  /** The zone is the root, the name itself or a parent of it. */
  predicate Covers(zone: Text, name: Text) {
    || zone == [] || name == zone
    || (|zone| < |name| && name[|name| - |zone| - 1..] == [DOT] + zone)
  }

  /** A zone covers a name exactly if it is the root or its labels are the last labels of the name. */
  lemma CoversIff(zone: Text, name: Text)
    ensures Covers(zone, name) <==> zone == [] || Ends(Split(name), Split(zone))
  {
    hide Split, Ends, Covers;
    if zone != [] {
      if Covers(zone, name) { CoversEnds(zone, name); }
      if Ends(Split(name), Split(zone)) { EndsCovers(zone, name); }
    } else {
      RootCovers(name);
    }
  }

  lemma RootCovers(name: Text)
    ensures Covers([], name)
  {}

  lemma CoversEnds(zone: Text, name: Text)
    requires Covers(zone, name) && zone != []
    ensures Ends(Split(name), Split(zone))
  {
    hide Split;
    var n, z := Split(name), Split(zone);
    if name != zone {
      var front := name[..|name| - |zone| - 1];
      assert name == front + name[|front|..];
      assert front + [DOT] + zone == front + ([DOT] + zone);
      SplitDot(front, zone);
    }
  }

  lemma EndsCovers(zone: Text, name: Text)
    requires Ends(Split(name), Split(zone))
    ensures Covers(zone, name)
  {
    hide Split, Join;
    var n, z := Split(name), Split(zone);
    var front := n[..|n| - |z|];
    assert n == front + z;
    JoinSplit(name);
    JoinSplit(zone);
    if front == [] {
      assert n == z;
    } else {
      JoinAppend(front, z);
      TailOf(Join(front), zone);
    }
  }

  lemma TailOf(x: Text, zone: Text)
    ensures Covers(zone, x + [DOT] + zone)
  {
    var name := x + [DOT] + zone;
    assert name[|x|..] == [DOT] + zone;
  }

  predicate Ends(ls: seq<Text>, tail: seq<Text>) { |tail| <= |ls| && ls[|ls| - |tail|..] == tail }

  /** An authority record that says how long the absence of `name` may be remembered. */
  predicate Grants(rs: seq<Record>, name: Text, i: nat) {
    i < |rs| && rs[i].authority && rs[i].data.Authority? && Covers(rs[i].owner, name)
  }

  /** What the records of one name say: its addresses without repetition, or its one alias. */
  method Scan(rs: seq<Record>, name: Text, before: nat)
      returns (ok: bool, addresses: seq<nat>, alias: Option<Text>, ttl: nat)
    ensures ok ==> addresses == AddressesOf(rs, name, |rs|)
    ensures ok ==> forall ip: nat :: ip in addresses <==> Names(rs, name, |rs|, ip)
    ensures ok ==> forall i, j :: 0 <= i < j < |addresses| ==> addresses[i] != addresses[j]
    ensures ok && alias.Some? ==> AliasOf(rs, name, alias.value) && alias.value != []
    ensures ok ==> forall t: Text :: AliasOf(rs, name, t) ==> alias == Some(t)
    ensures ok ==> ttl <= before && Outlives(rs, [name], ttl) && (ttl == before || Attained(rs, [name], ttl))
    ensures ok <==> WellFormed(rs, name)
    ensures ok ==> (alias.Some? <==> HasAlias(rs, name)) && (addresses != [] <==> HasAddress(rs, name))
  {
    hide Scanned, WellFormed, HasAddress, HasAlias, AliasOf, Outlives, Attained;
    ok, addresses, alias, ttl := true, [], None, before;
    ScannedNone(rs, name, before);
    for k := 0 to |rs|
      invariant ok && Scanned(rs, name, before, k, addresses, alias, ttl)
    {
      var r := rs[k];
      ScannedNext(rs, name, before, k, addresses, alias, ttl);
      if Relevant(r, name) {
        match r.data
        case Address(ip) =>
          ScannedAddress(rs, name, before, k, addresses, alias, ttl);
          if ip !in addresses { addresses := addresses + [ip]; }
          if r.ttl < ttl { ttl := r.ttl; }
        case Canonical(target) =>
          ScannedAlias(rs, name, before, k, addresses, alias, ttl);
          if target == [] || (alias.Some? && alias.value != target) { ok := false; return; }
          alias := Some(target);
          if r.ttl < ttl { ttl := r.ttl; }
        case BadAddress => ok := false; return;
        case BadCanonical => ok := false; return;
        case _ =>
      }
    }
    ScannedAll(rs, name, before, addresses, alias, ttl);
  }

  /** What the first `k` records say about a name. */
  ghost predicate Scanned(rs: seq<Record>, name: Text, before: nat, k: nat, addresses: seq<nat>, alias: Option<Text>,
                          ttl: nat) {
    && k <= |rs| && addresses == AddressesOf(rs, name, k)
    && ttl <= before && (ttl == before || Attained(rs, [name], ttl))
    && (forall i :: 0 <= i < k && Relevant(rs[i], name) ==> Readable(rs[i]))
    && (forall i, j :: 0 <= i < j < |addresses| ==> addresses[i] != addresses[j])
    && (forall i :: 0 <= i < |addresses| ==> Names(rs, name, k, addresses[i]))
    && (forall ip: nat :: Names(rs, name, k, ip) ==> ip in addresses)
    && (alias.Some? ==> exists i :: 0 <= i < k && Relevant(rs[i], name) && rs[i].data == Canonical(alias.value))
    && (forall i :: 0 <= i < k && Relevant(rs[i], name) && rs[i].data.Canonical? ==> alias == Some(rs[i].data.target))
    && (forall i :: 0 <= i < k && Relevant(rs[i], name) && (rs[i].data.Address? || rs[i].data.Canonical?) ==>
          ttl <= rs[i].ttl)
  }

  /** The addresses of a name among the first `k` records, each where it first occurs. */
  function AddressesOf(rs: seq<Record>, name: Text, k: nat): seq<nat>
    requires k <= |rs|
  {
    if k == 0 then []
    else
      var before, r := AddressesOf(rs, name, k - 1), rs[k - 1];
      if Relevant(r, name) && r.data.Address? && r.data.ip !in before then before + [r.data.ip] else before
  }

  predicate Names(rs: seq<Record>, name: Text, k: nat, ip: nat)
    requires k <= |rs|
  {
    exists i :: 0 <= i < k && Relevant(rs[i], name) && rs[i].data == Address(ip)
  }

  lemma ScannedNone(rs: seq<Record>, name: Text, before: nat)
    ensures Scanned(rs, name, before, 0, [], None, before)
  {}

  lemma NamesNext(rs: seq<Record>, name: Text, k: nat)
    requires k < |rs|
    ensures forall ip: nat :: Names(rs, name, k + 1, ip) <==>
              Names(rs, name, k, ip) || (Relevant(rs[k], name) && rs[k].data == Address(ip))
  {}

  /** A record of another name, or of a kind that says nothing, or one that spoils the answer. */
  lemma ScannedNext(rs: seq<Record>, name: Text, before: nat, k: nat, addresses: seq<nat>, alias: Option<Text>,
                    ttl: nat)
    requires Scanned(rs, name, before, k, addresses, alias, ttl) && k < |rs|
    ensures !(Relevant(rs[k], name) && (!Readable(rs[k]) || rs[k].data.Address? || rs[k].data.Canonical?)) ==>
              Scanned(rs, name, before, k + 1, addresses, alias, ttl)
    ensures Relevant(rs[k], name) && !Readable(rs[k]) ==> !WellFormed(rs, name)
  {
    hide Names, Attained;
    NamesNext(rs, name, k);
  }

  lemma ScannedAddress(rs: seq<Record>, name: Text, before: nat, k: nat, addresses: seq<nat>, alias: Option<Text>,
                       ttl: nat)
    requires Scanned(rs, name, before, k, addresses, alias, ttl) && k < |rs|
    requires Relevant(rs[k], name) && rs[k].data.Address?
    ensures
      var more := if rs[k].data.ip in addresses then addresses else addresses + [rs[k].data.ip];
      Scanned(rs, name, before, k + 1, more, alias, if rs[k].ttl < ttl then rs[k].ttl else ttl)
  {
    hide Names, Attained;
    NamesNext(rs, name, k);
    AttainedAt(rs, name, k);
  }

  lemma ScannedAlias(rs: seq<Record>, name: Text, before: nat, k: nat, addresses: seq<nat>, alias: Option<Text>,
                     ttl: nat)
    requires Scanned(rs, name, before, k, addresses, alias, ttl) && k < |rs|
    requires Relevant(rs[k], name) && rs[k].data.Canonical?
    ensures
      var target := rs[k].data.target;
      if target == [] || (alias.Some? && alias.value != target) then !WellFormed(rs, name)
      else Scanned(rs, name, before, k + 1, addresses, Some(target), if rs[k].ttl < ttl then rs[k].ttl else ttl)
  {
    hide Names, Attained;
    NamesNext(rs, name, k);
    AttainedAt(rs, name, k);
    IllFormed(rs, name, k);
  }

  lemma ScannedAll(rs: seq<Record>, name: Text, before: nat, addresses: seq<nat>, alias: Option<Text>, ttl: nat)
    requires Scanned(rs, name, before, |rs|, addresses, alias, ttl)
    ensures addresses == AddressesOf(rs, name, |rs|)
    ensures forall ip: nat :: ip in addresses <==> Names(rs, name, |rs|, ip)
    ensures forall i, j :: 0 <= i < j < |addresses| ==> addresses[i] != addresses[j]
    ensures alias.Some? ==> AliasOf(rs, name, alias.value) && alias.value != []
    ensures forall t: Text :: AliasOf(rs, name, t) ==> alias == Some(t)
    ensures ttl <= before && Outlives(rs, [name], ttl) && (ttl == before || Attained(rs, [name], ttl))
    ensures WellFormed(rs, name) && (alias.Some? <==> HasAlias(rs, name)) && (addresses != [] <==> HasAddress(rs, name))
  {
    if addresses != [] { assert Names(rs, name, |rs|, addresses[0]); }
    AddressAt(rs, name);
  }

  lemma AddressAt(rs: seq<Record>, name: Text)
    ensures HasAddress(rs, name) <==> exists ip: nat :: Names(rs, name, |rs|, ip)
  {
    forall i | 0 <= i < |rs| && Relevant(rs[i], name) && rs[i].data.Address?
      ensures exists ip: nat :: Names(rs, name, |rs|, ip)
    {
      assert Names(rs, name, |rs|, rs[i].data.ip);
    }
  }

  lemma AttainedAt(rs: seq<Record>, name: Text, k: nat)
    requires k < |rs| && Relevant(rs[k], name) && (rs[k].data.Address? || rs[k].data.Canonical?)
    ensures Attained(rs, [name], rs[k].ttl)
  {}

  lemma AttainedMore(rs: seq<Record>, names: seq<Text>, more: seq<Text>, ttl: nat)
    requires Attained(rs, names, ttl) && forall n :: n in names ==> n in more
    ensures Attained(rs, more, ttl)
  {}

  lemma IllFormed(rs: seq<Record>, name: Text, k: nat)
    requires k < |rs| && Relevant(rs[k], name)
    ensures !Readable(rs[k]) ==> !WellFormed(rs, name)
    ensures forall i :: 0 <= i < |rs| && Canonicals(rs[i], rs[k], name) && rs[i].data != rs[k].data ==>
              !WellFormed(rs, name)
  {}

  /** The smallest lifetime that an authority record for the name or a parent of it grants. */
  method NegativeLifetime(rs: seq<Record>, name: Text, ttl: nat) returns (ok: bool, lifetime: Option<nat>)
    ensures ok <==> Settled(rs, name)
    ensures ok ==> LeastLifetime(rs, name, ttl, |rs|, lifetime)
  {
    ok, lifetime := true, None;
    for k := 0 to |rs|
      invariant ok && forall i: nat :: i < k && Grants(rs, name, i) ==> rs[i].data.fits
      invariant LeastLifetime(rs, name, ttl, k, lifetime)
    {
      var r := rs[k];
      if r.authority && r.data.Authority? && Covers(r.owner, name) {
        assert Grants(rs, name, k);
        if !r.data.fits { ok := false; return; }
        var value := Min(Min(r.ttl, r.data.minimum), ttl);
        lifetime := Some(if lifetime.Some? then Min(lifetime.value, value) else value);
      }
    }
  }

  /** The least of the record's own lifetime, the minimum it states and the lifetime of the aliases before it. */
  function Lifetime(r: Record, ttl: nat): (v: nat)
    requires r.data.Authority?
    ensures v <= r.ttl && v <= r.data.minimum && v <= ttl && (v == r.ttl || v == r.data.minimum || v == ttl)
  {
    Min(Min(r.ttl, r.data.minimum), ttl)
  }

  /** The least lifetime granted by the first `n` records; none if none of them grants any. */
  ghost predicate LeastLifetime(rs: seq<Record>, name: Text, ttl: nat, n: nat, lifetime: Option<nat>) {
    && (lifetime.None? <==> forall i: nat :: i < n ==> !Grants(rs, name, i))
    && (lifetime.Some? ==>
          && (exists i: nat :: i < n && Grants(rs, name, i) && lifetime.value == Lifetime(rs[i], ttl))
          && (forall i: nat :: i < n && Grants(rs, name, i) ==> lifetime.value <= Lifetime(rs[i], ttl)))
  }

  /** The records of a name give an alias and nothing else. */
  predicate Passes(rs: seq<Record>, name: Text) { WellFormed(rs, name) && !HasAddress(rs, name) }

  /** An unrepeated chain of aliases from the question, within the budget and never more than eight. */
  predicate Path(rs: seq<Record>, question: Text, budget: nat, chain: seq<Text>) {
    && chain != [] && chain[0] == question && Chain(rs, chain) && Unrepeated(chain) && |chain| - 1 <= Min(budget, 8)
    && forall i :: 0 <= i < |chain| - 1 ==> Passes(rs, chain[i])
  }

  /** No covering authority record is malformed. */
  ghost predicate Settled(rs: seq<Record>, name: Text) { forall i: nat :: Grants(rs, name, i) ==> rs[i].data.fits }

  /** The outcome that the end of a chain calls for. */
  ghost predicate Calls(rs: seq<Record>, question: Text, budget: nat, nxdomain: bool, chain: seq<Text>,
                        r: Option<Answer>)
    requires chain != []
  {
    var end := Last(chain);
    if !WellFormed(rs, end) then r.None?
    else if HasAddress(rs, end) then
      if HasAlias(rs, end) || nxdomain then r.None?
      else exists ttl :: Least(rs, chain, ttl) && r == Some(Addresses(end, AddressesOf(rs, end, |rs|), ttl))
    else if HasAlias(rs, end) then
      && r == Some(Failure(AliasLimit))
      && exists t :: AliasOf(rs, end, t) && (t in chain || |chain| - 1 == Min(budget, 8))
    else if !Settled(rs, end) then r.None?
    else exists ttl, lifetime ::
      && Least(rs, chain, ttl) && LeastLifetime(rs, end, ttl, |rs|, lifetime)
      && r == Some(if nxdomain then Negative(NotFound, lifetime)
                   else if end != question && lifetime.None? then Alias(end, ttl, |chain| - 1)
                   else Negative(NoData, lifetime))
  }

  /** Follows aliases from the question. */
  method Chase(rs: seq<Record>, question: Text, budget: nat, nxdomain: bool) returns (r: Option<Answer>)
    ensures exists chain :: Path(rs, question, budget, chain) && Calls(rs, question, budget, nxdomain, chain, r)
  {
    hide WellFormed, HasAddress, HasAlias, AliasOf, Least, Names, LeastLifetime, Settled, Path, Reached;
    var current, seen, ttl := question, [], MAX_TTL;
    ReachedNone(rs, question, budget);
    for k := 0 to Min(budget, 8) + 1
      invariant |seen| == k && Reached(rs, question, budget, seen, current, ttl)
    {
      ReachedPath(rs, question, budget, seen, current, ttl, nxdomain);
      if current in seen { return Some(Failure(AliasLimit)); }
      ghost var before := seen;
      seen := seen + [current];
      assert Last(seen) == current;
      var ok, addresses, alias, least := Scan(rs, current, ttl);
      if !ok { return None; }
      LeastNext(rs, question, budget, before, current, ttl, least);
      if addresses != [] {
        if alias.Some? || nxdomain { return None; }
        return Some(Addresses(current, addresses, least));
      }
      if alias.Some? {
        ReachedNext(rs, question, budget, before, current, alias.value, ttl, least);
        current, ttl := alias.value, least;
        continue;
      }
      ttl := least;
      var settled, lifetime := NegativeLifetime(rs, current, ttl);
      if !settled { return None; }
      if nxdomain { return Some(Negative(NotFound, lifetime)); }
      if current != question && lifetime.None? { return Some(Alias(current, ttl, |seen| - 1)); }
      return Some(Negative(NoData, lifetime));
    }
    ReachedPath(rs, question, budget, seen, current, ttl, nxdomain);
    r := Some(Failure(AliasLimit));
  }

  /** The names `seen` all pass, one to the next and the last to `current`. */
  predicate Reached(rs: seq<Record>, question: Text, budget: nat, seen: seq<Text>, current: Text, ttl: nat) {
    && |seen| <= Min(budget, 8) + 1 && Unrepeated(seen) && Chain(rs, seen + [current]) && Least(rs, seen, ttl)
    && (forall i :: 0 <= i < |seen| ==> Passes(rs, seen[i]))
    && (seen + [current])[0] == question
    && (seen != [] ==> HasAlias(rs, Last(seen)))
  }

  lemma ReachedNone(rs: seq<Record>, question: Text, budget: nat)
    ensures Reached(rs, question, budget, [], question, MAX_TTL)
  {}

  /** A new name within the budget prolongs the chain; otherwise the chain ends in failure. */
  lemma ReachedPath(rs: seq<Record>, question: Text, budget: nat, seen: seq<Text>, current: Text, ttl: nat,
                    nxdomain: bool)
    requires Reached(rs, question, budget, seen, current, ttl)
    ensures current !in seen && |seen| <= Min(budget, 8) ==> Path(rs, question, budget, seen + [current])
    ensures current in seen || |seen| == Min(budget, 8) + 1 ==>
              Path(rs, question, budget, seen) && Calls(rs, question, budget, nxdomain, seen, Some(Failure(AliasLimit)))
  {
    hide WellFormed, HasAddress, HasAlias, AliasOf, Least;
    var more := seen + [current];
    assert forall i :: 0 <= i < |seen| ==> more[i] == seen[i];
    if current in seen || |seen| == Min(budget, 8) + 1 {
      forall i | 0 <= i < |seen| - 1 ensures AliasOf(rs, seen[i], seen[i + 1]) {
        assert AliasOf(rs, more[i], more[i + 1]);
      }
      var i := |seen| - 1;
      assert AliasOf(rs, more[i], more[i + 1]) && more[i + 1] == current && Passes(rs, seen[i]);
    }
  }

  lemma ReachedNext(rs: seq<Record>, question: Text, budget: nat, seen: seq<Text>, current: Text, next: Text, ttl: nat,
                    least: nat)
    requires Reached(rs, question, budget, seen, current, ttl) && |seen| <= Min(budget, 8) && current !in seen
    requires Passes(rs, current) && AliasOf(rs, current, next) && HasAlias(rs, current)
    requires Least(rs, seen + [current], least)
    ensures Reached(rs, question, budget, seen + [current], next, least)
  {
    hide WellFormed, HasAddress, HasAlias, AliasOf, Least;
    var more := seen + [current];
    var all := more + [next];
    assert Last(more) == current;
    forall i | 0 <= i < |all| - 1 ensures AliasOf(rs, all[i], all[i + 1]) {
      if i < |seen| { assert AliasOf(rs, more[i], more[i + 1]); }
    }
    assert Unrepeated(more);
  }

  lemma LeastNext(rs: seq<Record>, question: Text, budget: nat, seen: seq<Text>, next: Text, ttl: nat, least: nat)
    requires Reached(rs, question, budget, seen, next, ttl) && least <= ttl && Outlives(rs, [next], least)
    requires least == ttl || Attained(rs, [next], least)
    ensures Least(rs, seen + [next], least)
  {
    hide WellFormed, HasAddress, HasAlias, AliasOf;
    var more := seen + [next];
    assert forall n :: n in more <==> n in seen || n in [next];
    if least == ttl { AttainedMore(rs, seen, more, ttl); } else { AttainedMore(rs, [next], more, least); }
  }

  // ---------------------------------------------------------------- only one outcome

  lemma AliasUnique(rs: seq<Record>, name: Text, t: Text, u: Text)
    requires WellFormed(rs, name) && AliasOf(rs, name, t) && AliasOf(rs, name, u)
    ensures t == u && HasAlias(rs, name)
  {
    var i :| 0 <= i < |rs| && Relevant(rs[i], name) && rs[i].data == Canonical(t);
    var j :| 0 <= j < |rs| && Relevant(rs[j], name) && rs[j].data == Canonical(u);
    assert Canonicals(rs[i], rs[j], name);
  }

  /** Two chains agree as far as both go. */
  lemma {:induction false} PathsAgree(rs: seq<Record>, question: Text, budget: nat, c: seq<Text>, d: seq<Text>, k: nat)
    requires Path(rs, question, budget, c) && Path(rs, question, budget, d) && k < |c| && k < |d|
    ensures c[k] == d[k]
  {
    hide WellFormed, HasAddress, AliasOf, Unrepeated;
    if k > 0 {
      PathsAgree(rs, question, budget, c, d, k - 1);
      var i := k - 1;
      assert AliasOf(rs, c[i], c[i + 1]) && AliasOf(rs, d[i], d[i + 1]) && Passes(rs, c[i]);
      AliasUnique(rs, c[i], c[k], d[k]);
    }
  }

  /** A chain that calls for an outcome does not go on. */
  lemma PathEnds(rs: seq<Record>, question: Text, budget: nat, nxdomain: bool, c: seq<Text>, d: seq<Text>,
                 r: Option<Answer>)
    requires Path(rs, question, budget, c) && Calls(rs, question, budget, nxdomain, c, r)
    requires Path(rs, question, budget, d)
    ensures |d| <= |c|
  {
    hide WellFormed, HasAddress, Least, LeastLifetime, AddressesOf;
    if |c| < |d| {
      var i := |c| - 1;
      PathsAgree(rs, question, budget, c, d, i);
      assert AliasOf(rs, d[i], d[i + 1]) && Passes(rs, d[i]);
      AliasUnique(rs, d[i], d[i + 1], d[i + 1]);
      var t :| AliasOf(rs, c[i], t) && (t in c || |c| - 1 == Min(budget, 8));
      AliasUnique(rs, d[i], t, d[i + 1]);
      assert t in c;
      var j :| 0 <= j < |c| && c[j] == t;
      PathsAgree(rs, question, budget, c, d, j);
    }
  }

  lemma LeastUnique(rs: seq<Record>, names: seq<Text>, t: nat, u: nat)
    requires Least(rs, names, t) && Least(rs, names, u)
    ensures t == u
  {}

  lemma LifetimeUnique(rs: seq<Record>, name: Text, ttl: nat, x: Option<nat>, y: Option<nat>)
    requires LeastLifetime(rs, name, ttl, |rs|, x) && LeastLifetime(rs, name, ttl, |rs|, y)
    ensures x == y
  {
    hide Grants;
  }

  /** The contract of `Chase` leaves no choice: there is one chain, and one answer. */
  lemma ChaseUnique(rs: seq<Record>, question: Text, budget: nat, nxdomain: bool,
                    c: seq<Text>, r: Option<Answer>, d: seq<Text>, s: Option<Answer>)
    requires Path(rs, question, budget, c) && Calls(rs, question, budget, nxdomain, c, r)
    requires Path(rs, question, budget, d) && Calls(rs, question, budget, nxdomain, d, s)
    ensures c == d && r == s
  {
    PathEnds(rs, question, budget, nxdomain, c, d, r);
    PathEnds(rs, question, budget, nxdomain, d, c, s);
    forall k | 0 <= k < |c| ensures c[k] == d[k] {
      PathsAgree(rs, question, budget, c, d, k);
    }
    assert c == d;
    OutcomeUnique(rs, question, budget, nxdomain, c, r, s);
  }

  lemma OutcomeUnique(rs: seq<Record>, question: Text, budget: nat, nxdomain: bool, c: seq<Text>, r: Option<Answer>,
                      s: Option<Answer>)
    requires c != [] && Calls(rs, question, budget, nxdomain, c, r) && Calls(rs, question, budget, nxdomain, c, s)
    ensures r == s
  {
    hide WellFormed, HasAddress, HasAlias, AliasOf, Least, LeastLifetime, Settled, AddressesOf;
    var end := Last(c);
    if WellFormed(rs, end) && HasAddress(rs, end) {
      if !HasAlias(rs, end) && !nxdomain {
        var t :| Least(rs, c, t) && r == Some(Addresses(end, AddressesOf(rs, end, |rs|), t));
        var u :| Least(rs, c, u) && s == Some(Addresses(end, AddressesOf(rs, end, |rs|), u));
        LeastUnique(rs, c, t, u);
      }
    } else if WellFormed(rs, end) && !HasAlias(rs, end) && Settled(rs, end) {
      var t, x :| Least(rs, c, t) && LeastLifetime(rs, end, t, |rs|, x)
                  && r == Some(if nxdomain then Negative(NotFound, x)
                               else if end != question && x.None? then Alias(end, t, |c| - 1) else Negative(NoData, x));
      var u, y :| Least(rs, c, u) && LeastLifetime(rs, end, u, |rs|, y)
                  && s == Some(if nxdomain then Negative(NotFound, y)
                               else if end != question && y.None? then Alias(end, u, |c| - 1) else Negative(NoData, y));
      LeastUnique(rs, c, t, u);
      LifetimeUnique(rs, end, t, x, y);
    }
  }
}
