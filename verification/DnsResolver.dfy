/**
 The stub resolver of `src/dns/mod.rs`: lookups, retries, alias steps, the cache and completions.
 Decoded responses and the outcomes of sending are arguments; `queries` counts are history.
 */
module DnsResolver {
  import opened Prelude
  import opened DnsWire
  import opened DnsAliases

  datatype Config = Config(
    capacity: nat, cacheCapacity: nat, maxCacheTtl: Time, lookupTimeout: Time, attemptTimeout: Time,
    attemptsPerName: nat)
  {
    predicate Valid() { 0 < capacity <= 4096 && 0 < lookupTimeout && 0 < attemptTimeout && 0 < attemptsPerName <= 16 }
  }

  datatype Found = Found(canonical: Text, addresses: seq<nat>, expiresAt: Time)

  type Outcome = Result<Found, ResolveError>

  datatype Lookup = Lookup(
    original: Text, question: Text, aliases: seq<Text>, aliasExpires: Option<Time>, deadline: Time, next: Time,
    attempts: nat, waiting: bool, queries: nat)

  datatype Cached = Cached(expires: Time, result: Outcome)

  datatype Completion = Completion(id: nat, name: Text, generation: u64, fromCache: bool, result: Outcome, queries: nat)

  const ALIAS_LIMIT: nat := 8

  // ---------------------------------------------------------------- bounded work

  /** A lookup has followed at most eight aliases and asked each of its names a bounded number of times. */
  predicate LookupInv(q: Lookup, cfg: Config) {
    && 1 <= |q.aliases| <= ALIAS_LIMIT + 1
    && q.attempts <= cfg.attemptsPerName
    && q.queries <= cfg.attemptsPerName * (|q.aliases| - 1) + q.attempts
  }

  lemma ProductGrows(a: nat, x: nat, y: nat)
    requires x <= y
    ensures a * x <= a * y
  {
    assert a * y == a * x + a * (y - x);
  }

  /** One lookup sends at most nine times the attempts allowed for one name. */
  lemma LookupBound(q: Lookup, cfg: Config)
    requires LookupInv(q, cfg)
    ensures q.queries <= (ALIAS_LIMIT + 1) * cfg.attemptsPerName
  {
    ProductGrows(cfg.attemptsPerName, |q.aliases| - 1, ALIAS_LIMIT);
  }

  /** Rescheduling costs nothing; another query needs an attempt that is left. */
  lemma RescheduledInv(q: Lookup, next: Time, waiting: bool, cfg: Config)
    requires LookupInv(q, cfg)
    ensures LookupInv(q.(next := next, waiting := waiting), cfg)
    ensures q.attempts < cfg.attemptsPerName ==>
              LookupInv(q.(attempts := q.attempts + 1, next := next, waiting := waiting, queries := q.queries + 1), cfg)
  {}

  lemma FreshInv(q: Lookup, cfg: Config)
    requires |q.aliases| == 1 && q.attempts == q.queries == 0
    ensures LookupInv(q, cfg)
  {}

  lemma AliasRoom(q: Lookup, cfg: Config)
    requires LookupInv(q, cfg)
    ensures 1 <= |q.aliases| <= ALIAS_LIMIT + 1
  {}

  function Repeated(t: Text, n: nat): (r: seq<Text>)
    ensures |r| == n
  {
    if n == 0 then [] else [t] + Repeated(t, n - 1)
  }

  /** The lookup goes on with the name at the end of the aliases it was given. */
  function Redirected(q: Lookup, target: Text, hops: nat, expires: Time, now: Time): Lookup {
    q.(aliases := q.aliases + Repeated(target, Max(hops, 1)), question := target, aliasExpires := Some(expires),
       attempts := 0, next := now, waiting := false)
  }

  lemma RedirectedInv(q: Lookup, target: Text, hops: nat, expires: Time, now: Time, cfg: Config)
    requires LookupInv(q, cfg) && 1 <= hops && |q.aliases| - 1 + hops <= ALIAS_LIMIT
    ensures LookupInv(Redirected(q, target, hops, expires, now), cfg)
  {
    var a, n := cfg.attemptsPerName, |q.aliases|;
    assert a * n == a * (n - 1) + a;
    ProductGrows(a, n, n + hops - 1);
  }

  // ---------------------------------------------------------------- one completion for every id

  predicate Once(finished: seq<nat>) { forall i, j :: 0 <= i < j < |finished| ==> finished[i] != finished[j] }

  /** Every id issued is pending or has been completed, and none has been completed twice. */
  ghost predicate Accounted(pending: map<nat, Lookup>, finished: seq<nat>, nextId: nat) {
    && nextId >= 1 && Once(finished)
    && (forall k: nat :: k in pending || k in finished <==> 1 <= k < nextId)
    && (forall k: nat :: k in pending ==> k !in finished)
  }

  lemma CompleteOne(pending: map<nat, Lookup>, finished: seq<nat>, nextId: nat, id: nat)
    requires Accounted(pending, finished, nextId) && id in pending
    ensures Accounted(pending - {id}, finished + [id], nextId) && |pending - {id}| == |pending| - 1
  {
    var rest := pending - {id};
    assert rest.Keys == pending.Keys - {id};
    assert |rest.Keys| == |rest| && |pending.Keys| == |pending|;
    assert forall k :: k in finished + [id] <==> k in finished || k == id;
  }

  lemma CompletedIn(finished: seq<nat>, id: nat)
    ensures id in finished + [id]
  {
    assert (finished + [id])[|finished|] == id;
  }

  lemma IssueOne(pending: map<nat, Lookup>, finished: seq<nat>, nextId: nat, q: Lookup)
    requires Accounted(pending, finished, nextId)
    ensures Accounted(pending[nextId := q], finished, nextId + 1) && |pending[nextId := q]| == |pending| + 1
    ensures Accounted(pending, finished + [nextId], nextId + 1)
  {
    var more := pending[nextId := q];
    assert nextId !in pending && nextId !in finished;
    assert more.Keys == pending.Keys + {nextId};
    assert |more.Keys| == |more| && |pending.Keys| == |pending|;
    assert forall k :: k in finished + [nextId] <==> k in finished || k == nextId;
  }

  /** Completions are reported once each and in order: those taken by the caller, then those waiting. */
  ghost predicate Reported(finished: seq<nat>, drained: seq<nat>, results: seq<Completion>, cfg: Config) {
    && finished == drained + IdsOf(results)
    && forall j :: 0 <= j < |results| ==> results[j].queries <= (ALIAS_LIMIT + 1) * cfg.attemptsPerName
  }

  function IdsOf(results: seq<Completion>): seq<nat> { seq(|results|, j requires 0 <= j < |results| => results[j].id) }

  /** Every id issued is in exactly one place: pending, among the results, or taken by the caller; and no
      id has two completions. */
  lemma OneCompletion(pending: map<nat, Lookup>, finished: seq<nat>, drained: seq<nat>, results: seq<Completion>,
                      nextId: nat, cfg: Config)
    requires Accounted(pending, finished, nextId) && Reported(finished, drained, results, cfg)
    ensures forall k: nat :: 1 <= k < nextId <==> k in pending || k in IdsOf(results) || k in drained
    ensures forall k: nat :: k in pending ==> k !in IdsOf(results) && k !in drained
    ensures Once(drained) && Once(IdsOf(results)) && forall k: nat :: k in drained ==> k !in IdsOf(results)
  {
    var ids := IdsOf(results);
    hide IdsOf;
    forall k: nat ensures k in finished <==> k in drained || k in ids {}
    forall i, j | 0 <= i < j < |ids| ensures ids[i] != ids[j] {
      assert finished[|drained| + i] == ids[i] && finished[|drained| + j] == ids[j];
    }
    forall i, j | 0 <= i < |drained| && 0 <= j < |ids| ensures drained[i] != ids[j] {
      assert finished[i] == drained[i] && finished[|drained| + j] == ids[j];
    }
    forall i, j | 0 <= i < j < |drained| ensures drained[i] != drained[j] {
      assert finished[i] == drained[i] && finished[j] == drained[j];
    }
  }

  lemma ReportOne(finished: seq<nat>, drained: seq<nat>, results: seq<Completion>, c: Completion, cfg: Config)
    requires Reported(finished, drained, results, cfg) && c.queries <= (ALIAS_LIMIT + 1) * cfg.attemptsPerName
    ensures Reported(finished + [c.id], drained, results + [c], cfg)
  {
    assert IdsOf(results + [c]) == IdsOf(results) + [c.id];
  }

  lemma TakeOne(finished: seq<nat>, drained: seq<nat>, results: seq<Completion>, cfg: Config)
    requires Reported(finished, drained, results, cfg) && results != []
    ensures Reported(finished, drained + [results[0].id], results[1..], cfg)
  {
    assert IdsOf(results) == [results[0].id] + IdsOf(results[1..]);
  }

  /** Completions are added, never taken back, and each is of a lookup that was pending, under its name;
      what is still pending has kept its name and its deadline. */
  predicate Onward(p: map<nat, Lookup>, r: seq<Completion>, f: seq<nat>, p': map<nat, Lookup>, r': seq<Completion>,
                   f': seq<nat>, generation: u64)
  {
    && r <= r' && f <= f' && |r'| - |r| == |f'| - |f|
    && (forall k :: k in p' ==> k in p && p'[k].original == p[k].original && p'[k].deadline == p[k].deadline)
    && (forall j :: |r| <= j < |r'| ==>
          && r'[j].id in p && r'[j].name == p[r'[j].id].original && !r'[j].fromCache && r'[j].generation == generation
          && r'[j].id == f'[j - |r| + |f|])
  }

  lemma OnwardSelf(p: map<nat, Lookup>, r: seq<Completion>, f: seq<nat>, generation: u64)
    ensures Onward(p, r, f, p, r, f, generation)
  {}

  lemma OnwardOn(p: map<nat, Lookup>, r: seq<Completion>, f: seq<nat>, p1: map<nat, Lookup>, r1: seq<Completion>,
                 f1: seq<nat>, p2: map<nat, Lookup>, r2: seq<Completion>, f2: seq<nat>, generation: u64)
    requires Onward(p, r, f, p1, r1, f1, generation) && Onward(p1, r1, f1, p2, r2, f2, generation)
    ensures Onward(p, r, f, p2, r2, f2, generation)
  {
    forall j | |r| <= j < |r2|
      ensures r2[j].id in p && r2[j].name == p[r2[j].id].original && !r2[j].fromCache && r2[j].generation == generation
      ensures r2[j].id == f2[j - |r| + |f|]
    {
      if j < |r1| { assert r2[j] == r1[j] && f2[j - |r| + |f|] == f1[j - |r| + |f|]; }
    }
  }

  lemma OnwardFinished(p: map<nat, Lookup>, r: seq<Completion>, f: seq<nat>, p': map<nat, Lookup>, r': seq<Completion>,
                       f': seq<nat>, generation: u64)
    requires Onward(p, r, f, p', r', f', generation)
    ensures f <= f'
  {}

  /** Between two accounts of the same ids, those that are no longer pending have been completed. */
  lemma Departed(p: map<nat, Lookup>, f: seq<nat>, p': map<nat, Lookup>, f': seq<nat>, nextId: nat)
    requires Accounted(p, f, nextId) && Accounted(p', f', nextId) && f <= f'
    ensures forall k: nat :: k in p <==> k in p' || k in f'[|f|..]
  {
    assert f' == f + f'[|f|..];
    forall k: nat ensures k in f' <==> k in f || k in f'[|f|..] {}
    forall k: nat | k in f'[|f|..] ensures k !in f {
      var j :| 0 <= j < |f'[|f|..]| && f'[|f|..][j] == k;
      assert f'[|f| + j] == k;
    }
    forall k: nat ensures k in p <==> k in p' || k in f'[|f|..] {
      assert k in p || k in f <==> k in p' || k in f';
    }
  }

  lemma DepartedAll(p: map<nat, Lookup>, f: seq<nat>, p': map<nat, Lookup>, f': seq<nat>, nextId: nat)
    requires Accounted(p, f, nextId) && Accounted(p', f', nextId) && f <= f' && p' == map[]
    ensures forall k: nat :: k in p <==> k in f'[|f|..]
  {
    hide Accounted;
    Departed(p, f, p', f', nextId);
  }

  // ---------------------------------------------------------------- the cache

  predicate CacheInv(cache: map<Text, Cached>, cfg: Config) {
    && |cache| <= cfg.cacheCapacity
    && forall n :: n in cache && cache[n].result.Ok? ==> cache[n].expires == cache[n].result.value.expiresAt
  }

  lemma EmptyCache(cfg: Config)
    ensures CacheInv(map[], cfg)
  {}

  /** The entry that expires first. */
  method FirstToExpire(cache: map<Text, Cached>) returns (n: Text)
    requires |cache| > 0
    ensures n in cache && forall m :: m in cache ==> cache[n].expires <= cache[m].expires
  {
    assert cache.Keys != {};
    n :| n in cache;
    var todo := cache.Keys - {n};
    while todo != {}
      invariant n in cache && todo <= cache.Keys
      invariant forall m :: m in cache && m !in todo ==> cache[n].expires <= cache[m].expires
      decreases |todo|
    {
      var m :| m in todo;
      if cache[m].expires < cache[n].expires { n := m; }
      todo := todo - {m};
    }
  }

  lemma CachedExpiry(cache: map<Text, Cached>, n: Text, cfg: Config)
    requires CacheInv(cache, cfg) && n in cache
    ensures cache[n].result.Ok? ==> cache[n].expires == cache[n].result.value.expiresAt
  {}

  lemma Shrunk(cache: map<Text, Cached>, n: Text)
    requires n in cache
    ensures |cache - {n}| == |cache| - 1
  {
    var rest := cache - {n};
    assert rest.Keys == cache.Keys - {n};
    assert |rest.Keys| == |rest| && |cache.Keys| == |cache|;
  }

  lemma Stored(cache: map<Text, Cached>, n: Text, c: Cached)
    ensures |cache[n := c]| <= |cache| + 1
  {
    var more := cache[n := c];
    assert more.Keys == cache.Keys + {n};
    assert |more.Keys| == |more| && |cache.Keys| == |cache|;
  }

  /** A full cache has lost one entry, the first to expire. */
  ghost predicate Relieved(cache: map<Text, Cached>, rest: map<Text, Cached>, cfg: Config) {
    if |cache| < cfg.cacheCapacity then rest == cache
    else exists n ::
      n in cache && rest == cache - {n} && forall m :: m in cache ==> cache[n].expires <= cache[m].expires
  }

  method Relieve(cache: map<Text, Cached>, cfg: Config) returns (rest: map<Text, Cached>)
    requires CacheInv(cache, cfg) && cfg.cacheCapacity > 0
    ensures CacheInv(rest, cfg) && |rest| < cfg.cacheCapacity && Relieved(cache, rest, cfg)
  {
    rest := cache;
    if |cache| >= cfg.cacheCapacity {
      var victim := FirstToExpire(cache);
      Shrunk(cache, victim);
      rest := cache - {victim};
    }
  }

  /** An outcome is stored unless it is already stale. */
  ghost predicate Remembered(cache: map<Text, Cached>, name: Text, result: Outcome, ttl: Time, now: Time, cfg: Config,
                             after: map<Text, Cached>)
  {
    var lifetime := Min(ttl, cfg.maxCacheTtl);
    if lifetime == 0 || cfg.cacheCapacity == 0 then after == cache
    else exists rest :: Relieved(cache, rest, cfg) && after == rest[name := Cached(now + lifetime, result)]
  }

  method Remember(cache: map<Text, Cached>, name: Text, result: Outcome, ttl: Time, now: Time, cfg: Config)
      returns (after: map<Text, Cached>)
    requires CacheInv(cache, cfg)
    requires result.Ok? && ttl > 0 ==> result.value.expiresAt == now + ttl && ttl <= cfg.maxCacheTtl
    ensures CacheInv(after, cfg) && Remembered(cache, name, result, ttl, now, cfg, after)
  {
    hide Relieved, CacheInv, Remembered;
    after := cache;
    var expires := now + Min(ttl, cfg.maxCacheTtl);
    RememberedNot(cache, name, result, ttl, now, cfg);
    if expires > now && cfg.cacheCapacity > 0 {
      var rest := Relieve(cache, cfg);
      RememberedSo(cache, rest, name, result, ttl, now, cfg);
      after := rest[name := Cached(expires, result)];
    }
  }

  lemma RememberedNot(cache: map<Text, Cached>, name: Text, result: Outcome, ttl: Time, now: Time, cfg: Config)
    ensures Min(ttl, cfg.maxCacheTtl) == 0 || cfg.cacheCapacity == 0 ==>
              Remembered(cache, name, result, ttl, now, cfg, cache)
  {
    hide Relieved;
  }

  lemma RememberedSo(cache: map<Text, Cached>, rest: map<Text, Cached>, name: Text, result: Outcome, ttl: Time,
                     now: Time, cfg: Config)
    requires Relieved(cache, rest, cfg) && CacheInv(rest, cfg) && |rest| < cfg.cacheCapacity
    requires Min(ttl, cfg.maxCacheTtl) > 0
    requires result.Ok? ==> result.value.expiresAt == now + ttl && ttl <= cfg.maxCacheTtl
    ensures
      var after := rest[name := Cached(now + Min(ttl, cfg.maxCacheTtl), result)];
      CacheInv(after, cfg) && Remembered(cache, name, result, ttl, now, cfg, after)
  {
    hide Relieved;
    Stored(rest, name, Cached(now + Min(ttl, cfg.maxCacheTtl), result));
  }

  // ---------------------------------------------------------------- what becomes of a lookup

  datatype SendOutcome = Sent | Blocked | Broken

  /** A step leaves a lookup alone, lets it go on, or completes it and may cache the outcome. */
  datatype Fate = Stay | Continue(next: Lookup) | Complete(result: Outcome, ttl: Option<Time>)

  lemma OnwardStep(p: map<nat, Lookup>, r: seq<Completion>, f: seq<nat>, id: nat, fate: Fate, generation: u64)
    requires id in p
    requires fate.Continue? ==> fate.next.original == p[id].original && fate.next.deadline == p[id].deadline
    ensures
      match fate
      case Stay => Onward(p, r, f, p, r, f, generation)
      case Continue(next) => Onward(p, r, f, p[id := next], r, f, generation)
      case Complete(result, _) =>
        var c := Completion(id, p[id].original, generation, false, result, p[id].queries);
        Onward(p, r, f, p - {id}, r + [c], f + [id], generation)
  {}

  /** Lookups that have had their turn are before their deadline. */
  predicate Timely(p: map<nat, Lookup>, n: nat, now: Time) { forall k :: k in p && k < n ==> now < p[k].deadline }

  lemma TimelyNone(p: map<nat, Lookup>, f: seq<nat>, nextId: nat, now: Time)
    requires Accounted(p, f, nextId)
    ensures nextId >= 1 && Timely(p, 1, now)
  {}

  lemma TimelyAll(p: map<nat, Lookup>, f: seq<nat>, nextId: nat, now: Time)
    requires Accounted(p, f, nextId) && Timely(p, nextId, now)
    ensures forall k :: k in p ==> now < p[k].deadline
  {}

  /** When an answer expires: no later than the aliases that led to it. */
  function Expiry(q: Lookup, ttl: nat, now: Time, cfg: Config): (at: Time)
    ensures at <= now + cfg.maxCacheTtl && at <= now + ttl * SECOND
    ensures q.aliasExpires.Some? ==> at <= q.aliasExpires.value
  {
    var expires := now + Min(ttl * SECOND, cfg.maxCacheTtl);
    if q.aliasExpires.Some? then Min(q.aliasExpires.value, expires) else expires
  }

  /** A decoded response. One that comes too late, or cannot be decoded, changes nothing. */
  function Respond(q: Lookup, answer: Option<Answer>, now: Time, cfg: Config): Fate {
    if now >= q.deadline || now >= q.next || answer.None? then Stay
    else match answer.value
      case Addresses(canonical, addresses, ttl) =>
        var expires := Expiry(q, ttl, now, cfg);
        Complete(Ok(Found(canonical, addresses, expires)), Some(Monus(expires, now)))
      case Alias(target, ttl, hops) =>
        if target in q.aliases || |q.aliases| - 1 + hops > ALIAS_LIMIT then Complete(Err(AliasLimit), None)
        else Continue(Redirected(q, target, hops, Expiry(q, ttl, now, cfg), now))
      case Negative(error, lifetime) =>
        Complete(Err(error), if lifetime.Some? then Some(Monus(Expiry(q, lifetime.value, now, cfg), now)) else None)
      case Failure(error) =>
        if (error.ServerFailure? || error.Refused?) && q.attempts < cfg.attemptsPerName
        then Continue(q.(next := now, waiting := false)) else Complete(Err(error), None)
  }

  /** A turn at `now`, given what sending a query would come to. */
  function Proceed(q: Lookup, outcome: SendOutcome, now: Time, cfg: Config): Fate {
    if now >= q.deadline || (now >= q.next && q.attempts >= cfg.attemptsPerName) then Complete(Err(Timeout), None)
    else if now < q.next then Stay
    else match outcome
      case Sent =>
        var next := Min(now + Backoff(cfg.attemptTimeout, q.attempts), q.deadline);
        Continue(q.(attempts := q.attempts + 1, next := next, waiting := true, queries := q.queries + 1))
      case Blocked => Continue(q.(next := now + 10 * MILLISECOND, waiting := false))
      case Broken => Complete(Err(Local), None)
  }

  /** The budget an alias answer keeps within. */
  predicate Affordable(q: Lookup, answer: Option<Answer>) {
    answer.Some? && answer.value.Alias? ==> 1 <= answer.value.hops <= Min(ALIAS_LIMIT - (|q.aliases| - 1), ALIAS_LIMIT)
  }

  /** A lookup that goes on after a response keeps its name and deadline, has sent nothing, and stays
      within its bounds; what was learned from aliases expires no later than before. An answer is never
      good for longer than the aliases that led to it or than the cache allows. Of affordable aliases
      exactly those that lead back end the lookup. */
  lemma RespondKeeps(q: Lookup, answer: Option<Answer>, now: Time, cfg: Config)
    requires LookupInv(q, cfg) && Affordable(q, answer)
    ensures
      match Respond(q, answer, now, cfg)
      case Stay => true
      case Continue(next) =>
        && LookupInv(next, cfg) && next.original == q.original
        && next.deadline == q.deadline && next.queries == q.queries
        && next.next == now < next.deadline && !next.waiting && q.aliases <= next.aliases
        && (q.aliasExpires.Some? ==> next.aliasExpires.Some? && next.aliasExpires.value <= q.aliasExpires.value)
        && (next.question != q.question ==> next.question !in q.aliases && next.question in next.aliases)
      case Complete(result, ttl) =>
        && now < q.deadline
        && (result.Ok? ==> result.value.expiresAt <= now + cfg.maxCacheTtl
                           && (q.aliasExpires.Some? ==> result.value.expiresAt <= q.aliasExpires.value)
                           && ttl == Some(Monus(result.value.expiresAt, now)))
        && (answer.value.Alias? ==> answer.value.target in q.aliases)
  {
    hide LookupInv;
    AliasRoom(q, cfg);
    RescheduledInv(q, now, false, cfg);
    if answer.Some? && answer.value.Alias? && 1 <= answer.value.hops {
      var a := answer.value;
      if |q.aliases| - 1 + a.hops <= ALIAS_LIMIT {
        RedirectedInv(q, a.target, a.hops, Expiry(q, a.ttl, now, cfg), now, cfg);
      }
      RedirectedShape(q, a.target, a.hops, Expiry(q, a.ttl, now, cfg), now);
    }
  }

  lemma RedirectedShape(q: Lookup, target: Text, hops: nat, expires: Time, now: Time)
    ensures var r := Redirected(q, target, hops, expires, now);
            q.aliases <= r.aliases && target in r.aliases
  {
    var r := Redirected(q, target, hops, expires, now);
    assert Repeated(target, Max(hops, 1))[0] == target;
    assert r.aliases[|q.aliases|] == target;
  }

  /** After a turn a lookup is before its deadline, wakes up later and no later than that unless it was
      refused, and has sent at most one more query; it times out exactly when its time or attempts are used up. */
  lemma ProceedKeeps(q: Lookup, outcome: SendOutcome, now: Time, cfg: Config)
    requires cfg.Valid() && LookupInv(q, cfg)
    ensures
      match Proceed(q, outcome, now, cfg)
      case Stay => now < q.deadline && now < q.next
      case Continue(next) =>
        && LookupInv(next, cfg) && next.original == q.original
        && next.question == q.question && next.aliases == q.aliases
        && next.deadline == q.deadline && now < next.deadline && now < next.next
        && (outcome.Sent? ==> next.next <= next.deadline && next.queries == q.queries + 1)
        && (!outcome.Sent? ==> next.queries == q.queries && next.attempts == q.attempts)
      case Complete(result, ttl) =>
        && result.Err? && ttl.None?
        && (result.error.Timeout? <==> now >= q.deadline || q.attempts == cfg.attemptsPerName)
  {
    BackoffPositive(cfg.attemptTimeout, q.attempts);
    hide Backoff;
  }

  lemma {:induction false} BackoffPositive(timeout: Time, attempts: nat)
    requires timeout > 0
    ensures Backoff(timeout, attempts) >= timeout
  {
    if attempts > 0 {
      BackoffPositive(timeout, attempts - 1);
    }
  }

  /** How long something learned now is good: for its lifetime, but no longer than the cache allows or than the aliases
      that led to it. */
  function GoodUntil(q: Lookup, ttl: nat, now: Time, cfg: Config): Time {
    var own := now + Min(ttl * 1_000_000_000, cfg.maxCacheTtl);
    if q.aliasExpires.Some? && q.aliasExpires.value < own then q.aliasExpires.value else own
  }

  /** What each kind of answer in time leads to. Addresses complete the lookup with exactly the name and the addresses
      given; absence completes it with exactly that error, remembered only if a lifetime is given; a server's refusal or
      failure is tried again while attempts are left, and any other failure ends the lookup; an alias becomes
      the question unless it was asked before. */
  lemma RespondMeans(q: Lookup, answer: Answer, now: Time, cfg: Config)
    requires LookupInv(q, cfg) && Affordable(q, Some(answer)) && now < q.deadline && now < q.next
    ensures
      var fate := Respond(q, Some(answer), now, cfg);
      match answer
      case Addresses(canonical, addresses, ttl) =>
        var until := GoodUntil(q, ttl, now, cfg);
        fate == Complete(Ok(Found(canonical, addresses, until)), Some(if until < now then 0 else until - now))
      case Negative(error, lifetime) =>
        && fate.Complete? && fate.result == Err(error) && (fate.ttl.Some? <==> lifetime.Some?)
        && (lifetime.Some? ==>
              var until := GoodUntil(q, lifetime.value, now, cfg);
              fate.ttl == Some(if until < now then 0 else until - now))
      case Failure(error) =>
        if error in {ServerFailure, Refused} && q.attempts < cfg.attemptsPerName
        then fate == Continue(q.(next := now, waiting := false)) else fate == Complete(Err(error), None)
      case Alias(target, ttl, hops) =>
        if target in q.aliases then fate == Complete(Err(AliasLimit), None)
        else
          && fate.Continue? && fate.next.question == target && fate.next.attempts == 0 && fate.next.next == now
          && !fate.next.waiting && fate.next.aliasExpires == Some(GoodUntil(q, ttl, now, cfg))
          && |fate.next.aliases| == |q.aliases| + hops && target in fate.next.aliases
  {
    hide LookupInv;
    AliasRoom(q, cfg);
    if answer.Alias? {
      RedirectedShape(q, answer.target, answer.hops, Expiry(q, answer.ttl, now, cfg), now);
    }
  }

  /** A response that comes at the deadline or at the wake-up time, or that cannot be decoded, changes nothing. */
  lemma RespondLate(q: Lookup, answer: Option<Answer>, now: Time, cfg: Config)
    requires q.deadline <= now || q.next <= now || answer.None?
    ensures Respond(q, answer, now, cfg) == Stay
  {}

  function Doublings(n: nat): nat { if n == 0 then 1 else 2 * Doublings(n - 1) }

  lemma {:induction false} BackoffIs(timeout: Time, attempts: nat)
    ensures Backoff(timeout, attempts) == timeout * Doublings(attempts)
  {
    if attempts > 0 {
      BackoffIs(timeout, attempts - 1);
      var d := Doublings(attempts - 1);
      assert timeout * (2 * d) == 2 * (timeout * d);
    }
  }

  /** A turn that sends waits for twice as long as the attempt before, but not beyond the deadline; one that finds no
      room tries again in ten milliseconds; one that cannot send ends the lookup. */
  lemma ProceedMeans(q: Lookup, outcome: SendOutcome, now: Time, cfg: Config)
    requires q.next <= now < q.deadline && q.attempts < cfg.attemptsPerName
    ensures
      Proceed(q, outcome, now, cfg)
      == match outcome
         case Sent =>
           Continue(q.(attempts := q.attempts + 1, waiting := true, queries := q.queries + 1,
                       next := Min(now + cfg.attemptTimeout * Doublings(q.attempts), q.deadline)))
         case Blocked => Continue(q.(next := now + 10_000_000, waiting := false))
         case Broken => Complete(Err(Local), None)
  {
    BackoffIs(cfg.attemptTimeout, q.attempts);
    hide Backoff, Doublings;
  }

  // ---------------------------------------------------------------- a run of steps

  /** A response that matches a lookup: undecodable, an error code, or records. */
  datatype Response = Response(
    id: nat, malformed: bool, failure: Option<ResolveError>, records: seq<Record>, nxdomain: bool)

  /** A query that was dropped before the device took it; `device` when the device refused it. */
  datatype Drop = Drop(id: nat, device: bool)

  /** The answer that a response holds for a lookup with some alias budget left. */
  ghost predicate Decoded(q: Lookup, m: Response, answer: Option<Answer>)
    requires 1 <= |q.aliases| <= ALIAS_LIMIT + 1
  {
    if m.malformed then answer == None
    else if m.failure.Some? then answer == Some(Failure(m.failure.value))
    else
      var budget := ALIAS_LIMIT - (|q.aliases| - 1);
      exists chain ::
        Path(m.records, q.question, budget, chain) && Calls(m.records, q.question, budget, m.nxdomain, chain, answer)
  }

  /** A dropped query is asked again at once, or its lookup fails if the device refused it. */
  function Bereft(q: Lookup, device: bool, now: Time): Fate {
    if device then Complete(Err(Local), None) else Continue(q.(next := now))
  }

  datatype State = State(
    pending: map<nat, Lookup>, results: seq<Completion>, cache: map<Text, Cached>, finished: seq<nat>, now: Time,
    generation: u64)

  /** The lookup `id` has met its fate, and no other lookup is touched. */
  ghost predicate Met(a: State, id: nat, fate: Fate, b: State, cfg: Config) {
    && id in a.pending
    && match fate
       case Stay => b == a
       case Continue(next) => b == a.(pending := a.pending[id := next])
       case Complete(result, ttl) =>
         var q := a.pending[id];
         && b == a.(pending := a.pending - {id}, finished := a.finished + [id], cache := b.cache,
                    results := a.results + [Completion(id, q.original, a.generation, false, result, q.queries)])
         && if ttl.None? then b.cache == a.cache
            else Remembered(a.cache, q.original, result, ttl.value, a.now, cfg, b.cache)
  }

  datatype Step = Reply(response: Response) | Loss(drop: Drop) | Tick(id: nat, outcome: SendOutcome)

  predicate Awaits(a: State, id: nat) { id in a.pending && a.pending[id].waiting }

  /** A response or a dropped query concerns a lookup that waits; a turn, one that is pending. */
  ghost predicate Takes(a: State, step: Step, b: State, cfg: Config) {
    match step
    case Reply(m) =>
      if !Awaits(a, m.id) then b == a
      else
        var q := a.pending[m.id];
        && 1 <= |q.aliases| <= ALIAS_LIMIT + 1
        && exists answer :: Decoded(q, m, answer) && Met(a, m.id, Respond(q, answer, a.now, cfg), b, cfg)
    case Loss(d) =>
      if !Awaits(a, d.id) then b == a else Met(a, d.id, Bereft(a.pending[d.id], d.device, a.now), b, cfg)
    case Tick(id, outcome) =>
      if id !in a.pending then b == a else Met(a, id, Proceed(a.pending[id], outcome, a.now, cfg), b, cfg)
  }

  /** The steps lead from `a` to `b`, one after the other. */
  ghost predicate Ran(a: State, steps: seq<Step>, b: State, cfg: Config) {
    if steps == [] then b == a
    else exists mid :: Ran(a, steps[..|steps| - 1], mid, cfg) && Takes(mid, Last(steps), b, cfg)
  }

  /** Whatever comes of a turn, a lookup that is left is before its deadline. */
  lemma TimelyNext(a: State, id: nat, outcome: SendOutcome, b: State, cfg: Config)
    requires cfg.Valid() && Takes(a, Tick(id, outcome), b, cfg) && Timely(a.pending, id, a.now)
    requires id in a.pending ==> LookupInv(a.pending[id], cfg)
    ensures Timely(b.pending, id + 1, a.now)
  {
    hide LookupInv, Proceed, Remembered;
    if id in a.pending { ProceedKeeps(a.pending[id], outcome, a.now, cfg); }
  }

  lemma RanNone(a: State, cfg: Config)
    ensures Ran(a, [], a, cfg)
  {}

  lemma RanNext(a: State, steps: seq<Step>, b: State, step: Step, c: State, cfg: Config)
    requires Ran(a, steps, b, cfg) && Takes(b, step, c, cfg)
    ensures Ran(a, steps + [step], c, cfg)
  {
    hide Takes;
    var all := steps + [step];
    assert all[..|all| - 1] == steps && Last(all) == step;
  }

  lemma {:induction false} RanOn(a: State, steps: seq<Step>, b: State, more: seq<Step>, c: State, cfg: Config)
    requires Ran(a, steps, b, cfg) && Ran(b, more, c, cfg)
    ensures Ran(a, steps + more, c, cfg)
    decreases |more|
  {
    hide Takes;
    if more == [] {
      assert steps + more == steps;
    } else {
      var init := more[..|more| - 1];
      var mid :| Ran(b, init, mid, cfg) && Takes(mid, Last(more), c, cfg);
      RanOn(a, steps, b, init, mid, cfg);
      RanNext(a, steps + init, mid, Last(more), c, cfg);
      assert steps + init + [Last(more)] == steps + more;
    }
  }

  // ---------------------------------------------------------------- where completions come from

  /** The records of the response lead from some name through aliases to the canonical name, and the addresses are
      all that they give for it. */
  ghost predicate Holds(m: Response, found: Found) {
    && !m.malformed && m.failure.None? && !m.nxdomain && found.addresses != []
    && exists chain :: PathTo(m.records, chain, found)
  }

  predicate PathTo(rs: seq<Record>, chain: seq<Text>, found: Found) {
    && chain != [] && Path(rs, chain[0], ALIAS_LIMIT, chain) && Last(chain) == found.canonical
    && found.addresses == AddressesOf(rs, found.canonical, |rs|)
  }

  /** Addresses come from a response to the lookup, and so does any error but a timeout or a local failure. */
  ghost predicate Sourced(c: Completion, steps: seq<Step>) {
    match c.result
    case Ok(found) => exists m :: Reply(m) in steps && m.id == c.id && Holds(m, found)
    case Err(error) => error.Timeout? || error.Local? || exists m :: Reply(m) in steps && m.id == c.id && !m.malformed
  }

  lemma SourcedMore(c: Completion, steps: seq<Step>, more: seq<Step>)
    requires Sourced(c, steps) && forall step :: step in steps ==> step in more
    ensures Sourced(c, more)
  {
    hide Holds;
  }

  lemma DecodedAddresses(q: Lookup, m: Response, answer: Option<Answer>, until: Time)
    requires 1 <= |q.aliases| <= ALIAS_LIMIT + 1 && Decoded(q, m, answer) && answer.Some? && answer.value.Addresses?
    ensures Holds(m, Found(answer.value.canonical, answer.value.addresses, until))
  {
    hide WellFormed, HasAddress, HasAlias, Least, LeastLifetime, AddressesOf, Settled, Chain, Passes, Unrepeated;
    var budget := ALIAS_LIMIT - (|q.aliases| - 1);
    var rs := m.records;
    var chain :| Path(rs, q.question, budget, chain) && Calls(rs, q.question, budget, m.nxdomain, chain, answer);
    var found := Found(answer.value.canonical, answer.value.addresses, until);
    assert PathTo(rs, chain, found);
    AddressesSome(rs, Last(chain));
  }

  lemma AddressesSome(rs: seq<Record>, name: Text)
    requires HasAddress(rs, name)
    ensures AddressesOf(rs, name, |rs|) != []
  {
    var i :| 0 <= i < |rs| && Relevant(rs[i], name) && rs[i].data.Address?;
    AddressesGrow(rs, name, i, |rs|);
  }

  lemma {:induction false} AddressesGrow(rs: seq<Record>, name: Text, i: nat, k: nat)
    requires i < k <= |rs| && Relevant(rs[i], name) && rs[i].data.Address?
    ensures AddressesOf(rs, name, k) != []
    decreases k
  {
    if i < k - 1 { AddressesGrow(rs, name, i, k - 1); }
  }

  /** A step adds at most one completion, and it has its source. */
  lemma TakesSourced(a: State, step: Step, b: State, cfg: Config)
    requires Takes(a, step, b, cfg)
    ensures b.results == a.results || (|b.results| == |a.results| + 1 && b.results[..|a.results|] == a.results
                                       && Sourced(Last(b.results), [step]))
  {
    hide Remembered, Decoded, Expiry, Redirected, Backoff, Holds;
    if step.Reply? && Awaits(a, step.response.id) {
      var m := step.response;
      var q := a.pending[m.id];
      var answer :| Decoded(q, m, answer) && Met(a, m.id, Respond(q, answer, a.now, cfg), b, cfg);
      ReplySourced(a, q, m, answer, b, cfg);
    }
  }

  lemma ReplySourced(a: State, q: Lookup, m: Response, answer: Option<Answer>, b: State, cfg: Config)
    requires m.id in a.pending && q == a.pending[m.id] && 1 <= |q.aliases| <= ALIAS_LIMIT + 1
    requires Decoded(q, m, answer) && Met(a, m.id, Respond(q, answer, a.now, cfg), b, cfg)
    ensures b.results == a.results || (|b.results| == |a.results| + 1 && b.results[..|a.results|] == a.results
                                       && Sourced(Last(b.results), [Reply(m)]))
  {
    hide Remembered, Expiry, Redirected, Holds, Path, Calls;
    assert Reply(m) in [Reply(m)];
    if answer.Some? && answer.value.Addresses? {
      DecodedAddresses(q, m, answer, Expiry(q, answer.value.ttl, a.now, cfg));
    }
  }

  lemma {:induction false} RanSourced(a: State, steps: seq<Step>, b: State, cfg: Config)
    requires Ran(a, steps, b, cfg)
    ensures |a.results| <= |b.results| && b.results[..|a.results|] == a.results
    ensures forall j :: |a.results| <= j < |b.results| ==> Sourced(b.results[j], steps)
    decreases |steps|
  {
    hide Takes, Sourced;
    if steps != [] {
      var init, step := steps[..|steps| - 1], Last(steps);
      var mid :| Ran(a, init, mid, cfg) && Takes(mid, step, b, cfg);
      RanSourced(a, init, mid, cfg);
      TakesSourced(mid, step, b, cfg);
      forall j | |a.results| <= j < |b.results| ensures Sourced(b.results[j], steps) {
        if j < |mid.results| {
          assert b.results[j] == mid.results[j];
          SourcedMore(b.results[j], init, steps);
        } else {
          SourcedMore(b.results[j], [step], steps);
        }
      }
    }
  }

  function Replies(responses: seq<Response>): seq<Step> {
    seq(|responses|, i requires 0 <= i < |responses| => Reply(responses[i]))
  }

  function Losses(drops: seq<Drop>): seq<Step> { seq(|drops|, i requires 0 <= i < |drops| => Loss(drops[i])) }

  function Outlook(outcomes: map<nat, SendOutcome>, id: nat): SendOutcome {
    if id in outcomes then outcomes[id] else Blocked
  }

  /** A turn for every id below `n`, in order. */
  function Ticks(n: nat, outcomes: map<nat, SendOutcome>): seq<Step> {
    if n <= 1 then [] else Ticks(n - 1, outcomes) + [Tick(n - 1, Outlook(outcomes, n - 1))]
  }

  lemma TicksNext(n: nat, outcomes: map<nat, SendOutcome>)
    requires n >= 1
    ensures n == 1 ==> Ticks(n, outcomes) == []
    ensures Ticks(n + 1, outcomes) == Ticks(n, outcomes) + [Tick(n, Outlook(outcomes, n))]
  {}

  lemma RepliesNone()
    ensures Replies([]) == [] == Losses([])
  {}

  lemma ReplyNext(responses: seq<Response>, i: nat)
    requires i < |responses|
    ensures Replies(responses[..i + 1]) == Replies(responses[..i]) + [Reply(responses[i])]
  {}

  lemma LossNext(drops: seq<Drop>, i: nat)
    requires i < |drops|
    ensures Losses(drops[..i + 1]) == Losses(drops[..i]) + [Loss(drops[i])]
  {}

  /** Addresses are those that one of the responses holds, and any error but a timeout or a local failure is also due to
      a response to the lookup. */
  ghost predicate Heard(c: Completion, responses: seq<Response>) {
    match c.result
    case Ok(found) => exists m :: m in responses && m.id == c.id && Holds(m, found)
    case Err(error) => error.Timeout? || error.Local? || exists m :: m in responses && m.id == c.id && !m.malformed
  }

  lemma {:induction false} TicksOnly(n: nat, outcomes: map<nat, SendOutcome>, step: Step)
    requires step in Ticks(n, outcomes)
    ensures step.Tick?
  {
    if n > 1 && step in Ticks(n - 1, outcomes) { TicksOnly(n - 1, outcomes, step); }
  }

  lemma SourcedHeard(c: Completion, responses: seq<Response>, drops: seq<Drop>, n: nat, outcomes: map<nat, SendOutcome>)
    requires Sourced(c, Replies(responses) + Losses(drops) + Ticks(n, outcomes))
    ensures Heard(c, responses)
  {
    hide Holds, Ticks;
    forall m | Reply(m) in Replies(responses) + Losses(drops) + Ticks(n, outcomes) ensures m in responses {
      if Reply(m) in Ticks(n, outcomes) {
        TicksOnly(n, outcomes, Reply(m));
      }
    }
  }

  /** Everything that a run of responses, drops and turns adds has been heard. */
  lemma RanHeard(a: State, responses: seq<Response>, drops: seq<Drop>, n: nat, outcomes: map<nat, SendOutcome>,
                 b: State, cfg: Config)
    requires Ran(a, Replies(responses) + Losses(drops) + Ticks(n, outcomes), b, cfg)
    ensures |a.results| <= |b.results|
    ensures forall j :: |a.results| <= j < |b.results| ==> Heard(b.results[j], responses)
  {
    hide Ran, Replies, Losses, Ticks, Sourced, Heard;
    RanSourced(a, Replies(responses) + Losses(drops) + Ticks(n, outcomes), b, cfg);
    forall j | |a.results| <= j < |b.results| ensures Heard(b.results[j], responses) {
      SourcedHeard(b.results[j], responses, drops, n, outcomes);
    }
  }

  // ---------------------------------------------------------------- the resolver

  datatype ResolveFailure = BadName | TooMany

  datatype PollResult = Polled | WentBackwards | ReceiveFailed | FlushFailed

  class Resolver {
    const cfg: Config
    var pending: map<nat, Lookup>
    var results: seq<Completion>
    var cache: map<Text, Cached>
    var now: Time
    var nextId: u64
    var generation: u64
    /** Ids in order of completion, and those whose completion the caller has taken. */
    ghost var finished: seq<nat>
    ghost var drained: seq<nat>

    ghost predicate Valid()
      reads this
    {
      && cfg.Valid() && Accounted(pending, finished, nextId)
      && |pending| + |results| <= cfg.capacity
      && (forall id :: id in pending ==> LookupInv(pending[id], cfg))
      && CacheInv(cache, cfg)
      && Reported(finished, drained, results, cfg)
    }

    ghost function Now(): State
      reads this
    {
      State(pending, results, cache, finished, now, generation)
    }

    constructor (cfg: Config)
      requires cfg.Valid()
      ensures Valid() && this.cfg == cfg && pending == map[] && results == []
    {
      this.cfg := cfg;
      pending, results, cache, now, nextId, generation := map[], [], map[], 0, 1, 0;
      finished, drained := [], [];
    }

    /** A new lookup, or an answer from the cache that is still good. */
    method Resolve(input: Text) returns (r: Result<nat, ResolveFailure>)
      requires Valid()
      modifies this`pending, this`results, this`nextId, this`finished
      ensures Valid()
      ensures r.Ok? ==>
                r.value == old(nextId) && nextId == old(nextId) + 1 && (r.value in pending || r.value in finished)
      ensures r.Err? ==> unchanged(this)
      ensures r.Err? <==> Normalize(input).None? || |old(pending)| + |old(results)| >= cfg.capacity
                          || old(nextId) == 0xffff_ffff_ffff_ffff
      ensures r.Err? ==> r.error == if Normalize(input).None? then BadName else TooMany
      ensures r.Ok? ==>
        var name := Normalize(input).value;
        if name in cache && now < cache[name].expires then
          && pending == old(pending)
          && results == old(results) + [Completion(r.value, name, generation, true, cache[name].result, 0)]
          && (cache[name].result.Ok? ==> now < cache[name].result.value.expiresAt)
        else
          && results == old(results)
          && pending == old(pending)[r.value :=
               Lookup(name, name, [name], None, now + cfg.lookupTimeout, now, 0, false, 0)]
    {
      hide Accounted, Normalize, LookupInv, CacheInv, Reported;
      var name := Normalize(input);
      if name.None? { return Err(BadName); }
      if |pending| + |results| >= cfg.capacity || nextId == 0xffff_ffff_ffff_ffff { return Err(TooMany); }
      var id := nextId;
      var q := Lookup(name.value, name.value, [name.value], None, now + cfg.lookupTimeout, now, 0, false, 0);
      IssueOne(pending, finished, id, q);
      FreshInv(q, cfg);
      nextId := id + 1;
      if name.value in cache && cache[name.value].expires > now {
        CachedExpiry(cache, name.value, cfg);
        var c := Completion(id, name.value, generation, true, cache[name.value].result, 0);
        ReportOne(finished, drained, results, c, cfg);
        results := results + [c];
        finished := finished + [id];
      } else {
        pending := pending[id := q];
      }
      r := Ok(id);
    }

    /** Completes a lookup once, and remembers the outcome for as long as it may be. */
    method Finish(id: nat, result: Outcome, ttl: Option<Time>)
      requires Valid()
      requires id in pending && ttl.Some? && ttl.value > 0 && result.Ok? ==>
                 result.value.expiresAt == now + ttl.value && ttl.value <= cfg.maxCacheTtl
      modifies this`pending, this`results, this`cache, this`finished
      ensures Valid() && id !in pending
      ensures id in old(pending) ==> Met(old(Now()), id, Complete(result, ttl), Now(), cfg)
      ensures id !in old(pending) ==> unchanged(this)
    {
      hide Accounted, LookupInv, CacheInv, Reported, Remembered;
      if id !in pending { return; }
      var q := pending[id];
      CompleteOne(pending, finished, nextId, id);
      CompletedIn(finished, id);
      LookupBound(q, cfg);
      ReportOne(finished, drained, results, Completion(id, q.original, generation, false, result, q.queries), cfg);
      pending := pending - {id};
      finished := finished + [id];
      if ttl.Some? { cache := Remember(cache, q.original, result, ttl.value, now, cfg); }
      var c := Completion(id, q.original, generation, false, result, q.queries);
      results := results + [c];
    }

    /** What a call has done so far: no id is issued, and exactly the ids newly completed have left. */
    twostate predicate Served()
      reads this
    {
      && nextId == old(nextId) && drained == old(drained) && generation == old(generation)
      && Onward(old(pending), old(results), old(finished), pending, results, finished, generation)
      && forall k: nat :: k in old(pending) <==> k in pending || k in finished[|old(finished)|..]
    }

    /** A decoded response to a waiting lookup. An alias answer respects the budget the lookup had left. */
    method Receive(id: nat, answer: Option<Answer>)
      requires Valid() && id in pending && pending[id].waiting && Affordable(pending[id], answer)
      modifies this`pending, this`results, this`cache, this`finished
      ensures Valid() && Met(old(Now()), id, Respond(old(pending)[id], answer, now, cfg), Now(), cfg)
      ensures Onward(old(pending), old(results), old(finished), pending, results, finished, generation)
    {
      hide Accounted, CacheInv, LookupInv, Redirected, Remembered, Reported, Onward;
      var q := pending[id];
      RespondKeeps(q, answer, now, cfg);
      OnwardStep(pending, results, finished, id, Respond(q, answer, now, cfg), generation);
      if now >= q.deadline || now >= q.next || answer.None? { return; }
      AliasRoom(q, cfg);
      RescheduledInv(q, now, false, cfg);
      match answer.value
      case Addresses(canonical, addresses, ttl) =>
        var expires := Expiry(q, ttl, now, cfg);
        Finish(id, Ok(Found(canonical, addresses, expires)), Some(Monus(expires, now)));
      case Alias(target, ttl, hops) =>
        if target in q.aliases || |q.aliases| - 1 + hops > ALIAS_LIMIT {
          Finish(id, Err(AliasLimit), None);
        } else {
          var expires := Expiry(q, ttl, now, cfg);
          RedirectedInv(q, target, hops, expires, now, cfg);
          Reschedule(id, Redirected(q, target, hops, expires, now));
        }
      case Negative(error, lifetime) =>
        Finish(id, Err(error), if lifetime.Some? then Some(Monus(Expiry(q, lifetime.value, now, cfg), now)) else None);
      case Failure(error) =>
        if (error.ServerFailure? || error.Refused?) && q.attempts < cfg.attemptsPerName {
          Reschedule(id, q.(next := now, waiting := false));
        } else {
          Finish(id, Err(error), None);
        }
    }

    method Reschedule(id: nat, next: Lookup)
      requires Valid() && id in pending && LookupInv(next, cfg)
      modifies this`pending
      ensures Valid() && pending == old(pending)[id := next]
    {
      hide LookupInv, CacheInv, Reported;
      var more := pending[id := next];
      assert more.Keys == pending.Keys && |more.Keys| == |more| && |pending.Keys| == |pending|;
      pending := more;
    }

    /** One turn of a lookup whose time has come: it times out, asks again, or waits for room. */
    method Turn(id: nat, outcome: SendOutcome)
      requires Valid() && id in pending
      modifies this`pending, this`results, this`cache, this`finished
      ensures Valid() && Met(old(Now()), id, Proceed(old(pending)[id], outcome, now, cfg), Now(), cfg)
      ensures Onward(old(pending), old(results), old(finished), pending, results, finished, generation)
    {
      hide Accounted, CacheInv, LookupInv, Backoff, Remembered, Reported, Onward;
      var q := pending[id];
      ProceedKeeps(q, outcome, now, cfg);
      OnwardStep(pending, results, finished, id, Proceed(q, outcome, now, cfg), generation);
      if now >= q.deadline || (now >= q.next && q.attempts >= cfg.attemptsPerName) {
        Finish(id, Err(Timeout), None);
      } else if now >= q.next {
        match outcome
        case Sent =>
          var next := Min(now + Backoff(cfg.attemptTimeout, q.attempts), q.deadline);
          RescheduledInv(q, next, true, cfg);
          Reschedule(id, q.(attempts := q.attempts + 1, next := next, waiting := true, queries := q.queries + 1));
        case Blocked =>
          RescheduledInv(q, now + 10 * MILLISECOND, false, cfg);
          Reschedule(id, q.(next := now + 10 * MILLISECOND, waiting := false));
        case Broken => Finish(id, Err(Local), None);
      }
    }

    /** Every lookup gets its turn, in order; none that has reached its deadline survives. */
    method Turns(outcomes: map<nat, SendOutcome>)
      requires Valid()
      modifies this`pending, this`results, this`cache, this`finished
      ensures Valid() && Ran(old(Now()), Ticks(nextId, outcomes), Now(), cfg)
      ensures Onward(old(pending), old(results), old(finished), pending, results, finished, generation)
      ensures forall id :: id in pending ==> now < pending[id].deadline
    {
      hide Accounted, CacheInv, LookupInv, Proceed, Reported, Onward, Timely, Met, Ran, Ticks;
      OnwardSelf(pending, results, finished, generation);
      RanNone(Now(), cfg);
      TimelyNone(pending, finished, nextId, now);
      assert Ticks(1, outcomes) == [] by { TicksNext(1, outcomes); }
      for id: nat := 1 to nextId
        invariant Valid() && Timely(pending, id, now) && Ran(old(Now()), Ticks(id, outcomes), Now(), cfg)
        invariant Onward(old(pending), old(results), old(finished), pending, results, finished, generation)
      {
        ghost var p, r, f, a := pending, results, finished, Now();
        TicksNext(id, outcomes);
        if id in pending { Turn(id, Outlook(outcomes, id)); }
        TimelyNext(a, id, Outlook(outcomes, id), Now(), cfg);
        OnwardSelf(p, r, f, generation);
        OnwardOn(old(pending), old(results), old(finished), p, r, f, pending, results, finished, generation);
        RanNext(old(Now()), Ticks(id, outcomes), a, Tick(id, Outlook(outcomes, id)), Now(), cfg);
      }
      TimelyAll(pending, finished, nextId, now);
    }

    /** The answer that a response holds for a lookup; an alias in it respects the budget left. */
    method Decode(q: Lookup, m: Response) returns (answer: Option<Answer>)
      requires 1 <= |q.aliases| <= ALIAS_LIMIT + 1
      ensures Decoded(q, m, answer) && Affordable(q, answer)
    {
      if m.malformed { return None; }
      if m.failure.Some? { return Some(Failure(m.failure.value)); }
      answer := Chase(m.records, q.question, ALIAS_LIMIT - (|q.aliases| - 1), m.nxdomain);
    }

    /** Responses are handled in order. */
    method Responses(responses: seq<Response>)
      requires Valid()
      modifies this`pending, this`results, this`cache, this`finished
      ensures Valid() && Ran(old(Now()), Replies(responses), Now(), cfg)
      ensures Onward(old(pending), old(results), old(finished), pending, results, finished, generation)
    {
      hide Accounted, CacheInv, LookupInv, Reported, Onward, Ran, Replies;
      OnwardSelf(pending, results, finished, generation);
      RanNone(Now(), cfg);
      RepliesNone();
      assert responses[..0] == [];
      for i := 0 to |responses|
        invariant Valid() && Ran(old(Now()), Replies(responses[..i]), Now(), cfg)
        invariant Onward(old(pending), old(results), old(finished), pending, results, finished, generation)
      {
        ghost var p, r, f, a := pending, results, finished, Now();
        Handle(responses[i]);
        OnwardOn(old(pending), old(results), old(finished), p, r, f, pending, results, finished, generation);
        RanNext(old(Now()), Replies(responses[..i]), a, Reply(responses[i]), Now(), cfg);
        ReplyNext(responses, i);
      }
      assert responses[..|responses|] == responses;
    }

    /** One response. It counts only if its lookup still waits. */
    method Handle(m: Response)
      requires Valid()
      modifies this`pending, this`results, this`cache, this`finished
      ensures Valid() && Takes(old(Now()), Reply(m), Now(), cfg)
      ensures Onward(old(pending), old(results), old(finished), pending, results, finished, generation)
    {
      hide Accounted, CacheInv, LookupInv, Respond, Reported, Onward, Met, Decoded;
      OnwardSelf(pending, results, finished, generation);
      if m.id in pending && pending[m.id].waiting {
        AliasRoom(pending[m.id], cfg);
        var answer := Decode(pending[m.id], m);
        Receive(m.id, answer);
      }
    }

    /** Dropped queries are handled in order. */
    method Drops(drops: seq<Drop>)
      requires Valid()
      modifies this`pending, this`results, this`cache, this`finished
      ensures Valid() && Ran(old(Now()), Losses(drops), Now(), cfg)
      ensures Onward(old(pending), old(results), old(finished), pending, results, finished, generation)
    {
      hide Accounted, CacheInv, LookupInv, Reported, Onward, Ran, Losses, Takes;
      OnwardSelf(pending, results, finished, generation);
      RanNone(Now(), cfg);
      RepliesNone();
      assert drops[..0] == [];
      for i := 0 to |drops|
        invariant Valid() && Ran(old(Now()), Losses(drops[..i]), Now(), cfg)
        invariant Onward(old(pending), old(results), old(finished), pending, results, finished, generation)
      {
        ghost var p, r, f, a := pending, results, finished, Now();
        Mourn(drops[i]);
        OnwardOn(old(pending), old(results), old(finished), p, r, f, pending, results, finished, generation);
        RanNext(old(Now()), Losses(drops[..i]), a, Loss(drops[i]), Now(), cfg);
        LossNext(drops, i);
      }
      assert drops[..|drops|] == drops;
    }

    /** One dropped query. */
    method Mourn(d: Drop)
      requires Valid()
      modifies this`pending, this`results, this`cache, this`finished
      ensures Valid() && Takes(old(Now()), Loss(d), Now(), cfg)
      ensures Onward(old(pending), old(results), old(finished), pending, results, finished, generation)
    {
      hide Accounted, CacheInv, LookupInv, Reported, Onward;
      OnwardSelf(pending, results, finished, generation);
      if d.id in pending && pending[d.id].waiting {
        OnwardStep(pending, results, finished, d.id, Bereft(pending[d.id], d.device, now), generation);
        if d.device {
          Finish(d.id, Err(Local), None);
        } else {
          RescheduledInv(pending[d.id], now, true, cfg);
          Reschedule(d.id, pending[d.id].(next := now));
        }
      }
    }

    /** Time passes: stale cache entries go, responses and dropped queries are handled, and every
        lookup gets its turn. `receives` and `flushes` say whether the pool below does its part. */
    method Poll(at: Time, receives: bool, responses: seq<Response>, drops: seq<Drop>, outcomes: map<nat, SendOutcome>,
                flushes: bool)
        returns (r: PollResult)
      requires Valid()
      modifies this`now, this`cache, this`pending, this`results, this`finished
      ensures Valid() && (r.WentBackwards? <==> at < old(now))
      ensures r.WentBackwards? ==> unchanged(this)
      ensures !r.WentBackwards? ==>
        && now == at && Served() && (r.ReceiveFailed? <==> !receives) && (receives ==> (r.Polled? <==> flushes))
      ensures r.ReceiveFailed? ==> Now() == old(Now()).(now := at, cache := Unexpired(old(cache), at))
      ensures r.Polled? || r.FlushFailed? ==>
        Ran(old(Now()).(now := at, cache := Unexpired(old(cache), at)),
            Replies(responses) + Losses(drops) + Ticks(nextId, outcomes), Now(), cfg)
      ensures r.Polled? || r.FlushFailed? ==> forall id :: id in pending ==> now < pending[id].deadline
      ensures forall j :: |old(results)| <= j < |results| ==> Heard(results[j], responses)
    {
      hide Heard, Accounted, CacheInv, LookupInv, Reported, Onward, Ran, Replies, Losses, Ticks, Unexpired;
      if at < now { return WentBackwards; }
      OnwardSelf(pending, results, finished, generation);
      UnexpiredInv(cache, at, cfg);
      now := at;
      cache := Unexpired(cache, at);
      ghost var begin := Now();
      if !receives {
        Departed(old(pending), old(finished), pending, finished, nextId);
        return ReceiveFailed;
      }
      Responses(responses);
      ghost var p, q, f, a := pending, results, finished, Now();
      Drops(drops);
      RanOn(begin, Replies(responses), a, Losses(drops), Now(), cfg);
      OnwardOn(old(pending), old(results), old(finished), p, q, f, pending, results, finished, generation);
      p, q, f, a := pending, results, finished, Now();
      Turns(outcomes);
      RanOn(begin, Replies(responses) + Losses(drops), a, Ticks(nextId, outcomes), Now(), cfg);
      OnwardOn(old(pending), old(results), old(finished), p, q, f, pending, results, finished, generation);
      OnwardFinished(old(pending), old(results), old(finished), pending, results, finished, generation);
      Departed(old(pending), old(finished), pending, finished, nextId);
      RanHeard(begin, responses, drops, nextId, outcomes, Now(), cfg);
      r := if flushes then Polled else FlushFailed;
    }

    method PopResult() returns (r: Option<Completion>)
      requires Valid()
      modifies this`results, this`drained
      ensures Valid()
      ensures if old(results) == [] then r.None? && unchanged(this)
              else r == Some(old(results)[0]) && results == old(results)[1..]
                   && drained == old(drained) + [old(results)[0].id]
    {
      hide Accounted, LookupInv, CacheInv, Reported;
      if results == [] { return None; }
      r := Some(results[0]);
      TakeOne(finished, drained, results, cfg);
      drained := drained + [results[0].id];
      results := results[1..];
    }

    method Cancel(id: nat) returns (found: bool)
      requires Valid()
      modifies this`pending, this`results, this`cache, this`finished
      ensures Valid() && found == (id in old(pending))
      ensures if found then Met(old(Now()), id, Complete(Err(Cancelled), None), Now(), cfg) else unchanged(this)
    {
      found := id in pending;
      if found { Finish(id, Err(Cancelled), None); }
    }

    /** A change of network completes everything pending and forgets the cache. */
    method Invalidate()
      requires Valid()
      modifies this`pending, this`results, this`cache, this`finished, this`generation
      ensures Valid() && pending == map[] && cache == map[]
      ensures generation == if old(generation) == 0xffff_ffff_ffff_ffff then 0 else old(generation) + 1
      ensures Onward(old(pending), old(results), old(finished), pending, results, finished, old(generation))
      ensures forall j :: |old(results)| <= j < |results| ==> results[j].result == Err(NetworkChanged)
      ensures old(finished) <= finished && forall k: nat :: k in old(pending) <==> k in finished[|old(finished)|..]
    {
      hide Accounted, LookupInv, CacheInv, Reported, Onward;
      CompleteAll();
      OnwardFinished(old(pending), old(results), old(finished), pending, results, finished, generation);
      DepartedAll(old(pending), old(finished), pending, finished, nextId);
      cache := map[];
      EmptyCache(cfg);
      generation := if generation == 0xffff_ffff_ffff_ffff then 0 else generation + 1;
    }

    method CompleteAll()
      requires Valid()
      modifies this`pending, this`results, this`cache, this`finished
      ensures Valid() && pending == map[]
      ensures Onward(old(pending), old(results), old(finished), pending, results, finished, generation)
      ensures forall j :: |old(results)| <= j < |results| ==> results[j].result == Err(NetworkChanged)
    {
      hide Accounted, LookupInv, CacheInv, Reported, Onward;
      OnwardSelf(pending, results, finished, generation);
      while pending != map[]
        invariant Valid() && |old(results)| <= |results|
        invariant Onward(old(pending), old(results), old(finished), pending, results, finished, generation)
        invariant forall j :: |old(results)| <= j < |results| ==> results[j].result == Err(NetworkChanged)
        decreases |pending|
      {
        assert pending.Keys != {};
        var id :| id in pending;
        ghost var p, r, f := pending, results, finished;
        CompleteOne(pending, finished, nextId, id);
        OnwardStep(pending, results, finished, id, Complete(Err(NetworkChanged), None), generation);
        Finish(id, Err(NetworkChanged), None);
        OnwardOn(old(pending), old(results), old(finished), p, r, f, pending, results, finished, generation);
      }
    }
  }

  /** The attempt timeout, doubled for every attempt before. */
  function Backoff(timeout: Time, attempts: nat): Time {
    if attempts == 0 then timeout else 2 * Backoff(timeout, attempts - 1)
  }

  function Unexpired(cache: map<Text, Cached>, now: Time): map<Text, Cached> {
    map n | n in cache && cache[n].expires > now :: cache[n]
  }

  lemma UnexpiredInv(cache: map<Text, Cached>, now: Time, cfg: Config)
    requires CacheInv(cache, cfg)
    ensures CacheInv(Unexpired(cache, now), cfg)
  {
    var after := Unexpired(cache, now);
    assert cache.Keys == after.Keys + (cache.Keys - after.Keys);
    assert |after.Keys| == |after| && |cache.Keys| == |cache|;
  }
}
