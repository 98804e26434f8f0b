/**
 Guest memory and the IOTLB cache of `examples/support/vhost_user/memory.rs`.

 The reference is a table that says, for every IOVA byte, where the latest update that covers it
 points, unless it has been invalidated since. The cache holds whole updates, drops an entry as
 soon as any byte of it is touched, and forgets old ones when it is full.
 */
module Iotlb {
  import opened Prelude

  datatype Region = Region(guest: u64, user: u64, size: u64)

  datatype Entry = Entry(iova: u64, size: u64, user: u64, permission: byte)

  datatype Target = Target(user: nat, permission: byte)

  datatype Span = Span(region: Region, offset: nat, length: nat)

  datatype Fault = Missing(address: nat) | Invalid

  datatype ControlError = Bad

  const LIMIT: nat := 0x1_0000_0000_0000_0000
  const CAPACITY: nat := 4096
  const EVICTED: nat := 1024

  /** `have & want == want` for the permissions an entry can have. */
  predicate Allows(have: byte, want: byte) {
    want < 4 && (want % 2 == 1 ==> have % 2 == 1) && (want / 2 == 1 ==> have / 2 % 2 == 1)
  }

  predicate Overlap(a: nat, sizeA: nat, b: nat, sizeB: nat) { if a <= b then b - a < sizeA else a - b < sizeB }

  predicate InRange(x: nat, a: nat, size: nat) { a <= x < a + size }

  /** The subtractions decide whether two nonempty ranges share a byte, even where an end exceeds 64 bits. */
  lemma OverlapIff(a: nat, sizeA: nat, b: nat, sizeB: nat)
    requires sizeA > 0 && sizeB > 0
    ensures Overlap(a, sizeA, b, sizeB) <==> exists x: nat :: InRange(x, a, sizeA) && InRange(x, b, sizeB)
  {
    if Overlap(a, sizeA, b, sizeB) {
      var x: nat := if a <= b then b else a;
      assert InRange(x, a, sizeA) && InRange(x, b, sizeB);
    }
  }

  predicate Disjoint(es: seq<Entry>) {
    forall i, j :: 0 <= i < j < |es| ==> !Overlap(es[i].iova, es[i].size, es[j].iova, es[j].size)
  }

  predicate WellFormed(e: Entry) {
    0 < e.size && e.iova + e.size < LIMIT && e.user + e.size < LIMIT && 1 <= e.permission <= 3
  }

  predicate Covers(e: Entry, x: nat) { InRange(x, e.iova, e.size) }

  /** Every byte of every entry is what the table says. */
  ghost predicate Sound(es: seq<Entry>, table: imap<nat, Target>) {
    forall i, x: nat :: 0 <= i < |es| && Covers(es[i], x) ==>
      x in table && table[x] == Target(es[i].user + (x - es[i].iova), es[i].permission)
  }

  ghost predicate CacheInv(es: seq<Entry>, table: imap<nat, Target>) {
    && |es| <= CAPACITY && Disjoint(es) && Sound(es, table)
    && forall i :: 0 <= i < |es| ==> WellFormed(es[i])
  }

  // ---------------------------------------------------------------- the reference table

  ghost function Erased(table: imap<nat, Target>, address: nat, size: nat): imap<nat, Target> {
    imap x: nat | x in table && !InRange(x, address, size) :: table[x]
  }

  ghost function Written(table: imap<nat, Target>, address: nat, size: nat, user: nat, permission: byte)
    : imap<nat, Target>
  {
    imap x: nat | x in table || InRange(x, address, size) ::
      if InRange(x, address, size) then Target(user + (x - address), permission) else table[x]
  }

  // ---------------------------------------------------------------- regions

  predicate Contains(r: Region, address: nat, length: nat, guest: bool) {
    var base := if guest then r.guest else r.user;
    base <= address && address - base < r.size && length <= r.size - (address - base)
  }

  predicate Separate(rs: seq<Region>) {
    forall i, j :: 0 <= i < j < |rs| ==>
      && !Overlap(rs[j].guest, rs[j].size, rs[i].guest, rs[i].size)
      && !Overlap(rs[j].user, rs[j].size, rs[i].user, rs[i].size)
  }

  /** The region that holds a range, and where in it. */
  method FindRegion(rs: seq<Region>, address: u64, length: nat, guest: bool) returns (r: Result<Span, Fault>)
    ensures r.Ok? ==>
              && r.value.region in rs && r.value.length == length && 0 < length && address + length < LIMIT
              && r.value.offset == address - (if guest then r.value.region.guest else r.value.region.user)
              && r.value.offset + length <= r.value.region.size
    ensures r.Err? ==> r.error == Invalid
    ensures r.Err? <==> length == 0 || address + length >= LIMIT
                        || forall i :: 0 <= i < |rs| ==> !Contains(rs[i], address, length, guest)
  {
    if length == 0 || address + length >= LIMIT { return Err(Invalid); }
    for i := 0 to |rs|
      invariant forall j :: 0 <= j < i ==> !Contains(rs[j], address, length, guest)
    {
      if Contains(rs[i], address, length, guest) {
        return Ok(Span(rs[i], address - (if guest then rs[i].guest else rs[i].user), length));
      }
    }
    r := Err(Invalid);
  }

  // ---------------------------------------------------------------- lookups

  /** Where the cache sends a byte, if it may. */
  function Lookup(es: seq<Entry>, x: nat, want: byte): (r: Option<nat>)
    requires forall i :: 0 <= i < |es| ==> WellFormed(es[i])
    ensures r.Some? ==> exists i :: 0 <= i < |es| && Covers(es[i], x) && Allows(es[i].permission, want)
                                    && r.value == es[i].user + (x - es[i].iova)
    ensures r.None? ==> forall i :: 0 <= i < |es| ==> !(Covers(es[i], x) && Allows(es[i].permission, want))
  {
    if es == [] then None
    else if Covers(es[0], x) && Allows(es[0].permission, want) then Some(es[0].user + (x - es[0].iova))
    else
      var r := Lookup(es[1..], x, want);
      assert forall i :: 0 <= i < |es| - 1 ==> es[1..][i] == es[i + 1];
      r
  }

  /** What the cache answers is what the table says, with permission. */
  lemma LookupSound(es: seq<Entry>, table: imap<nat, Target>, x: nat, want: byte)
    requires CacheInv(es, table) && Lookup(es, x, want).Some?
    ensures x in table && table[x].user == Lookup(es, x, want).value && Allows(table[x].permission, want)
  {
    hide Lookup, Disjoint;
    var i :| 0 <= i < |es| && Covers(es[i], x) && Allows(es[i].permission, want)
             && Lookup(es, x, want).value == es[i].user + (x - es[i].iova);
  }

  lemma CoveredOnce(es: seq<Entry>, i: nat, j: nat, x: nat)
    requires Disjoint(es) && i < |es| && j < |es| && Covers(es[i], x) && Covers(es[j], x)
    ensures i == j
  {
    assert Overlap(es[i].iova, es[i].size, es[j].iova, es[j].size);
    assert Overlap(es[j].iova, es[j].size, es[i].iova, es[i].size);
  }

  /** Within one entry consecutive bytes go to consecutive places. */
  lemma LookupRun(es: seq<Entry>, table: imap<nat, Target>, i: nat, x: nat, want: byte)
    requires CacheInv(es, table) && i < |es| && Covers(es[i], x) && Allows(es[i].permission, want)
    ensures Lookup(es, x, want) == Some(es[i].user + (x - es[i].iova))
  {
    hide Lookup, Disjoint, Sound, Allows;
    var j :| 0 <= j < |es| && Covers(es[j], x) && Allows(es[j].permission, want)
             && Lookup(es, x, want) == Some(es[j].user + (x - es[j].iova));
    CoveredOnce(es, i, j, x);
  }

  /** The bytes of a range go to consecutive places, starting at `user`. */
  predicate Contiguous(es: seq<Entry>, address: nat, length: nat, want: byte, user: nat)
    requires forall i :: 0 <= i < |es| ==> WellFormed(es[i])
  {
    forall x :: address <= x < address + length ==> Lookup(es, x, want) == Some(user + (x - address))
  }

  // ---------------------------------------------------------------- changes to the cache

  /** Entries that no byte of a range touches. */
  function Untouched(es: seq<Entry>, address: nat, size: nat): seq<Entry> {
    if es == [] then []
    else if Overlap(address, size, es[0].iova, es[0].size) then Untouched(es[1..], address, size)
    else [es[0]] + Untouched(es[1..], address, size)
  }

  lemma {:induction false} UntouchedMembers(es: seq<Entry>, address: nat, size: nat)
    ensures |Untouched(es, address, size)| <= |es|
    ensures forall e :: e in Untouched(es, address, size) <==> e in es && !Overlap(address, size, e.iova, e.size)
  {
    if es != [] {
      UntouchedMembers(es[1..], address, size);
      assert forall e :: e in es <==> e == es[0] || e in es[1..];
    }
  }

  lemma {:induction false} UntouchedDisjoint(es: seq<Entry>, address: nat, size: nat)
    requires Disjoint(es)
    ensures Disjoint(Untouched(es, address, size))
  {
    if es != [] {
      var rest := Untouched(es[1..], address, size);
      assert Disjoint(es[1..]) by {
        assert forall i :: 0 <= i < |es| - 1 ==> es[1..][i] == es[i + 1];
      }
      UntouchedDisjoint(es[1..], address, size);
      UntouchedMembers(es[1..], address, size);
      var r := Untouched(es, address, size);
      if r != rest {
        assert r == [es[0]] + rest;
        forall j | 0 <= j < |rest| ensures !Overlap(es[0].iova, es[0].size, rest[j].iova, rest[j].size) {
          assert rest[j] in es[1..];
          var k :| 0 <= k < |es| - 1 && es[1..][k] == rest[j];
          assert es[k + 1] == rest[j];
        }
        forall i, j | 0 <= i < j < |r| ensures !Overlap(r[i].iova, r[i].size, r[j].iova, r[j].size) {
          assert r[j] == rest[j - 1];
          if i > 0 { assert r[i] == rest[i - 1]; }
        }
      }
    }
  }

  /** Invalidation removes whole entries, so what survives is still what the table says. */
  lemma InvalidateKeeps(es: seq<Entry>, table: imap<nat, Target>, address: nat, size: nat)
    requires CacheInv(es, table) && size > 0
    ensures CacheInv(Untouched(es, address, size), Erased(table, address, size))
  {
    hide Untouched, Disjoint, Overlap;
    UntouchedMembers(es, address, size);
    UntouchedDisjoint(es, address, size);
    var us, erased := Untouched(es, address, size), Erased(table, address, size);
    forall i | 0 <= i < |us| ensures WellFormed(us[i]) {
      assert us[i] in us;
      var j :| 0 <= j < |es| && es[j] == us[i];
    }
    forall i, x: nat | 0 <= i < |us| && Covers(us[i], x)
      ensures x in erased && erased[x] == Target(us[i].user + (x - us[i].iova), us[i].permission)
    {
      assert us[i] in us;
      var j :| 0 <= j < |es| && es[j] == us[i];
      OverlapIff(address, size, us[i].iova, us[i].size);
      assert !InRange(x, address, size) by { assert InRange(x, us[i].iova, us[i].size); }
    }
  }

  /** A full cache forgets its oldest quarter. */
  function Newest(es: seq<Entry>): seq<Entry> { if |es| == CAPACITY then es[EVICTED..] else es }

  /** Forgetting entries keeps the cache sound. */
  lemma EvictKeeps(es: seq<Entry>, table: imap<nat, Target>, n: nat)
    requires CacheInv(es, table) && n <= |es|
    ensures CacheInv(es[n..], table)
  {
    hide Overlap, Covers;
    var rest := es[n..];
    assert forall i :: 0 <= i < |rest| ==> rest[i] == es[n + i];
  }

  /** A new entry over bytes that no other entry has. */
  lemma InsertKeeps(es: seq<Entry>, table: imap<nat, Target>, e: Entry)
    requires CacheInv(es, Erased(table, e.iova, e.size)) && |es| < CAPACITY && WellFormed(e)
    requires forall i :: 0 <= i < |es| ==> !Overlap(e.iova, e.size, es[i].iova, es[i].size)
    ensures CacheInv(es + [e], Written(table, e.iova, e.size, e.user, e.permission))
  {
    hide Erased, Written, Sound, Disjoint, Overlap;
    InsertSound(es, table, e);
    InsertDisjoint(es, e);
  }

  lemma InsertSound(es: seq<Entry>, table: imap<nat, Target>, e: Entry)
    requires Sound(es, Erased(table, e.iova, e.size))
    ensures Sound(es + [e], Written(table, e.iova, e.size, e.user, e.permission))
  {
    hide Erased, Written;
    var more, written := es + [e], Written(table, e.iova, e.size, e.user, e.permission);
    forall i, x: nat | 0 <= i < |more| && Covers(more[i], x)
      ensures x in written && written[x] == Target(more[i].user + (x - more[i].iova), more[i].permission)
    {
      ErasedAt(table, e.iova, e.size, x);
      WrittenAt(table, e.iova, e.size, e.user, e.permission, x);
      if i < |es| {
        assert more[i] == es[i] && x in Erased(table, e.iova, e.size);
      }
    }
  }

  lemma WrittenAt(table: imap<nat, Target>, address: nat, size: nat, user: nat, permission: byte, x: nat)
    ensures
      var w := Written(table, address, size, user, permission);
      if InRange(x, address, size) then x in w && w[x] == Target(user + (x - address), permission)
      else x in table ==> x in w && w[x] == table[x]
  {}

  lemma InsertDisjoint(es: seq<Entry>, e: Entry)
    requires Disjoint(es) && e.size > 0 && forall i :: 0 <= i < |es| ==> es[i].size > 0
    requires forall i :: 0 <= i < |es| ==> !Overlap(e.iova, e.size, es[i].iova, es[i].size)
    ensures Disjoint(es + [e])
  {
    var more := es + [e];
    forall i, j | 0 <= i < j < |more| ensures !Overlap(more[i].iova, more[i].size, more[j].iova, more[j].size) {
      if j == |es| {
        assert !Overlap(e.iova, e.size, es[i].iova, es[i].size);
      } else {
        assert more[i] == es[i] && more[j] == es[j];
      }
    }
  }

  lemma ErasedAt(table: imap<nat, Target>, address: nat, size: nat, x: nat)
    ensures x in Erased(table, address, size) ==>
              x in table && !InRange(x, address, size) && Erased(table, address, size)[x] == table[x]
  {}

  // ---------------------------------------------------------------- guest memory

  class Memory {
    var regions: seq<Region>
    var entries: seq<Entry>
    var iommu: bool
    /** What the updates received so far say. */
    ghost var table: imap<nat, Target>

    ghost predicate Valid()
      reads this
    {
      Separate(regions) && CacheInv(entries, table)
    }

    constructor (iommu: bool)
      ensures Valid() && this.iommu == iommu && regions == [] && entries == []
    {
      this.iommu := iommu;
      regions, entries, table := [], [], imap[];
    }

    method Replace(replacement: seq<Region>) returns (r: Result<(), ControlError>)
      requires Valid()
      modifies this`regions, this`entries, this`table
      ensures Valid()
      ensures r.Ok? <==> Separate(replacement)
      ensures r.Ok? ==> regions == replacement && entries == [] && table == imap[]
      ensures r.Err? ==> unchanged(this)
    {
      for i := 0 to |replacement|
        invariant unchanged(this)
        invariant Separate(replacement[..i])
      {
        for j := 0 to i
          invariant unchanged(this)
          invariant forall k :: 0 <= k < j ==>
                      && !Overlap(replacement[i].guest, replacement[i].size, replacement[k].guest, replacement[k].size)
                      && !Overlap(replacement[i].user, replacement[i].size, replacement[k].user, replacement[k].size)
        {
          if Overlap(replacement[i].guest, replacement[i].size, replacement[j].guest, replacement[j].size)
             || Overlap(replacement[i].user, replacement[i].size, replacement[j].user, replacement[j].size) {
            return Err(Bad);
          }
        }
      }
      assert replacement[..|replacement|] == replacement;
      regions, entries, table := replacement, [], imap[];
      r := Ok(());
    }

    method Invalidate(address: u64, size: u64) returns (r: Result<(), ControlError>)
      requires Valid()
      modifies this`entries, this`table
      ensures Valid()
      ensures r.Ok? <==> size > 0
      ensures r.Ok? ==> table == Erased(old(table), address, size) && entries == Untouched(old(entries), address, size)
      ensures r.Err? ==> unchanged(this)
    {
      if size == 0 { return Err(Bad); }
      hide Untouched, Disjoint, Sound, Erased;
      InvalidateKeeps(entries, table, address, size);
      var kept := Retain(entries, address, size);
      entries := kept;
      table := Erased(table, address, size);
      r := Ok(());
    }

    method Update(address: u64, size: u64, user: u64, permission: byte) returns (r: Result<(), ControlError>)
      requires Valid()
      modifies this`entries, this`table
      ensures Valid()
      ensures r.Ok? ==> table == Written(old(table), address, size, user, permission)
      ensures r.Ok? ==>
                entries == Newest(Untouched(old(entries), address, size)) + [Entry(address, size, user, permission)]
      ensures r.Ok? ==> 0 < size && address + size < LIMIT && 1 <= permission <= 3
      ensures r.Ok? <==> 0 < size && address + size < LIMIT && 1 <= permission <= 3 && user + size < LIMIT
                         && exists i :: 0 <= i < |regions| && Contains(regions[i], user, size, false)
      ensures r.Err? ==> unchanged(this)
    {
      if size == 0 || address + size >= LIMIT || permission < 1 || permission > 3 { return Err(Bad); }
      var ram := FindRegion(regions, user, size, false);
      if ram.Err? { return Err(Bad); }
      hide Untouched, Disjoint, Sound, Overlap, Erased, Written;
      InvalidateKeeps(entries, table, address, size);
      UntouchedMembers(entries, address, size);
      var kept := Retain(entries, address, size);
      ghost var erased := Erased(table, address, size);
      if |kept| == CAPACITY {
        EvictKeeps(kept, erased, EVICTED);
        assert forall i :: 0 <= i < |kept| - EVICTED ==> kept[EVICTED..][i] == kept[EVICTED + i];
        kept := kept[EVICTED..];
      }
      var e := Entry(address, size, user, permission);
      forall i | 0 <= i < |kept| ensures !Overlap(e.iova, e.size, kept[i].iova, kept[i].size) {
        assert kept[i] in Untouched(entries, address, size);
      }
      InsertKeeps(kept, table, e);
      entries := kept + [e];
      table := Written(table, address, size, user, permission);
      r := Ok(());
    }

    /** A translated range: every byte of it is where the table says, and may be accessed. `traps` says
        that a sum on the way exceeds 64 bits: the result is right with wrapping arithmetic, and a build
        that checks for overflow stops instead. `reached` is how far the entries were followed. */
    method Translate(address: u64, length: nat, permission: byte, ring: bool)
        returns (r: Result<Span, Fault>, traps: bool, ghost reached: nat)
      requires Valid()
      ensures !iommu ==> !traps
      ensures !iommu && r.Ok? ==>
                && r.value.region in regions && r.value.length == length
                && r.value.offset == address - (if ring then r.value.region.user else r.value.region.guest)
                && r.value.offset + length <= r.value.region.size
      ensures !iommu && r.Err? ==> r.error == Invalid
      ensures !iommu ==> (r.Err? <==> length == 0 || address + length >= LIMIT
                                      || forall i :: 0 <= i < |regions| ==>
                                           !Contains(regions[i], address, length, !ring))
      ensures iommu && (length == 0 || address + length >= LIMIT) ==> r == Err(Invalid) && !traps
      ensures iommu && r.Ok? ==>
                && r.value.region in regions && r.value.length == length > 0
                && r.value.offset + length <= r.value.region.size
                && forall x :: address <= x < address + length ==>
                     && x in table && Allows(table[x].permission, permission)
                     && table[x].user == r.value.region.user + r.value.offset + (x - address)
      ensures iommu && 0 < length && address + length < LIMIT ==>
                && (traps <==> Overflows(entries, address, reached, permission))
                && (r.Ok? ==> reached == length)
                && (r.Err? && r.error.Missing? ==> reached == r.error.address - address)
                && (r.Err? && r.error.Invalid? ==>
                      || (reached == length
                          && exists user: nat :: Contiguous(entries, address, length, permission, user))
                      || Breaks(entries, address, length, permission, reached))
      ensures iommu && r.Err? && r.error.Missing? ==>
                && address <= r.error.address < address + length && Lookup(entries, r.error.address, permission).None?
                && forall x :: address <= x < r.error.address ==> Lookup(entries, x, permission).Some?
      ensures iommu && length > 0 && address + length < LIMIT && r.Err? && r.error.Invalid? ==>
                forall user: nat :: Contiguous(entries, address, length, permission, user) ==>
                  || user + length >= LIMIT
                  || forall i :: 0 <= i < |regions| ==> !Contains(regions[i], user, length, false)
    {
      hide Disjoint, Sound, Lookup, Separate, Allows, Overflows, Breaks;
      traps, reached := false, 0;
      if !iommu {
        r := FindRegion(regions, address, length, !ring);
        return;
      }
      if length == 0 || address + length >= LIMIT { return Err(Invalid), false, 0; }
      var first;
      first, traps, reached := Walk(entries, address, length, permission, table);
      if first.Err? { return Err(first.error), traps, reached; }
      assert Lookup(entries, address, permission) == Some(first.value);
      forall x | address <= x < address + length
        ensures x in table && Allows(table[x].permission, permission) && table[x].user == first.value + (x - address)
      {
        LookupSound(entries, table, x, permission);
      }
      r := FindRegion(regions, first.value, length, false);
    }
  }

  /** Goes from entry to entry: where the first byte of a range is, if all of it follows. */
  method Walk(es: seq<Entry>, address: u64, length: nat, want: byte, ghost table: imap<nat, Target>)
      returns (r: Result<nat, Fault>, traps: bool, ghost reached: nat)
    requires CacheInv(es, table) && 0 < length && address + length < LIMIT
    ensures r.Ok? ==> Contiguous(es, address, length, want, r.value) && r.value + length < LIMIT
    ensures traps <==> Overflows(es, address, reached, want)
    ensures r.Ok? ==> reached == length
    ensures r.Err? && r.error.Missing? ==> reached == r.error.address - address
    ensures r.Err? && r.error.Invalid? ==> Breaks(es, address, length, want, reached)
    ensures r.Err? && r.error.Missing? ==>
              && address <= r.error.address < address + length && Lookup(es, r.error.address, want).None?
              && forall x :: address <= x < r.error.address ==> Lookup(es, x, want).Some?
    ensures r.Err? && r.error.Invalid? ==> forall user: nat :: !Contiguous(es, address, length, want, user)
  {
    hide CacheInv, Lookup, Allows, Overflows, Boundary, Contiguous, WellFormed, Covers, Wrapping, Breaks;
    WellFormedAll(es, table);
    traps := false;
    ContiguousNone(es, address, want);
    var done: nat, first: nat := 0, 0;
    NoOverflow(es, address, want);
    while done < length
      invariant done <= length && (traps <==> Overflows(es, address, done, want))
      invariant Contiguous(es, address, done, want, first) && (done > 0 ==> first + done < LIMIT)
      invariant 0 < done < length ==> Boundary(es, address + done)
      decreases length - done
    {
      var current := address + done;
      var i := Find(es, current, want);
      ContiguousSome(es, address, done, want, first);
      if i.None? { return Err(Missing(current)), traps, done; }
      var e := es[i.value];
      CoverBounds(e, current);
      var sum := Wrapping(e.user + current);
      var user := Wrapping(sum - e.iova);
      WrappedSum(e, current);
      var left := e.size - (current - e.iova);
      var n := if left <= length - done then left else length - done;
      OverflowsNext(es, table, address, done, n, want, i.value);
      if e.user + current >= LIMIT { traps := true; }
      ContiguousNext(es, table, address, done, n, length, want, first, i.value);
      if done == 0 {
        first := user;
      } else if first + done != user {
        BreaksHere(es, table, address, done, length, want, first, i.value);
        return Err(Invalid), traps, done + n;
      }
      done := done + n;
    }
    r, reached := Ok(first), done;
  }

  lemma WellFormedAll(es: seq<Entry>, table: imap<nat, Target>)
    requires CacheInv(es, table)
    ensures forall i :: 0 <= i < |es| ==> WellFormed(es[i])
  {}

  lemma CoverBounds(e: Entry, x: nat)
    requires WellFormed(e) && Covers(e, x)
    ensures e.iova <= x < e.iova + e.size && e.user + e.size < LIMIT
  {}

  lemma ContiguousNone(es: seq<Entry>, address: nat, want: byte)
    requires forall i :: 0 <= i < |es| ==> WellFormed(es[i])
    ensures Contiguous(es, address, 0, want, 0)
  {}

  lemma ContiguousSome(es: seq<Entry>, address: nat, done: nat, want: byte, first: nat)
    requires forall i :: 0 <= i < |es| ==> WellFormed(es[i])
    requires Contiguous(es, address, done, want, first)
    ensures forall x :: address <= x < address + done ==> Lookup(es, x, want).Some?
  {}

  /** The entry that starts `d` bytes into a range does not follow the run before it; it ends, or the range
      does, `reached` bytes in. */
  predicate Breaks(es: seq<Entry>, address: nat, length: nat, want: byte, reached: nat)
    requires forall i :: 0 <= i < |es| ==> WellFormed(es[i])
  {
    exists i, d | 0 <= i < |es| && 0 <= d < length :: BreaksAt(es, address, length, want, reached, i, d)
  }

  predicate BreaksAt(es: seq<Entry>, address: nat, length: nat, want: byte, reached: nat, i: nat, d: nat)
    requires i < |es| && forall j :: 0 <= j < |es| ==> WellFormed(es[j])
  {
    && 0 < d < length && es[i].iova == address + d && Allows(es[i].permission, want)
    && reached == Min(length, d + es[i].size)
    && var first := Lookup(es, address, want);
       first.Some? && Contiguous(es, address, d, want, first.value) && first.value + d != es[i].user
  }

  lemma BreaksHere(es: seq<Entry>, table: imap<nat, Target>, address: nat, d: nat, length: nat, want: byte, first: nat,
                   i: nat)
    requires CacheInv(es, table) && i < |es| && Covers(es[i], address + d) && Allows(es[i].permission, want)
    requires 0 < d < length && Boundary(es, address + d) && Contiguous(es, address, d, want, first)
    requires first + d != es[i].user + (address + d - es[i].iova)
    ensures
      var left := es[i].size - (address + d - es[i].iova);
      Breaks(es, address, length, want, d + if left <= length - d then left else length - d)
  {
    hide Disjoint, Sound, Lookup, Allows, Boundary;
    StartsThere(es, i, address + d);
    assert Lookup(es, address, want) == Some(first);
    assert BreaksAt(es, address, length, want, Min(length, d + es[i].size), i, d);
  }

  /** The next entry prolongs the run, or shows that there is none. */
  lemma ContiguousNext(es: seq<Entry>, table: imap<nat, Target>, address: nat, done: nat, n: nat, length: nat,
                       want: byte, first: nat, i: nat)
    requires CacheInv(es, table) && i < |es| && Covers(es[i], address + done) && Allows(es[i].permission, want)
    requires 0 < n <= es[i].size - (address + done - es[i].iova) && done + n <= length
    requires Contiguous(es, address, done, want, first)
    ensures
      var user := es[i].user + (address + done - es[i].iova);
      && (done == 0 ==> Contiguous(es, address, n, want, user))
      && (first + done == user ==> Contiguous(es, address, done + n, want, first))
      && (0 < done && first + done != user ==> forall u: nat :: !Contiguous(es, address, length, want, u))
  {
    hide Disjoint, Sound, Lookup, Allows;
    var e, x := es[i], address + done;
    forall y: nat | Covers(e, y) ensures Lookup(es, y, want) == Some(e.user + (y - e.iova)) {
      LookupRun(es, table, i, y, want);
    }
    var user := e.user + (x - e.iova);
    if 0 < done && first + done != user {
      assert Lookup(es, x, want) == Some(user) && Lookup(es, address, want) == Some(first);
    }
  }

  // ---------------------------------------------------------------- sums of 64 bits

  function Wrapping(x: int): u64 { x % LIMIT }

  /** Wrapped twice, the sum comes out right. */
  lemma WrappedSum(e: Entry, x: nat)
    requires WellFormed(e) && Covers(e, x)
    ensures Wrapping(Wrapping(e.user + x) - e.iova) == e.user + (x - e.iova)
  {}

  /** Some entry ends just below `x`. */
  predicate Boundary(es: seq<Entry>, x: nat) {
    exists i :: 0 <= i < |es| && es[i].iova + es[i].size == x && es[i].size > 0
  }

  /** The first byte of a range, and the first byte of each entry further on, are where sums are taken. */
  predicate Summed(e: Entry, address: nat, length: nat, want: byte) {
    && Allows(e.permission, want)
    && ((0 < length && Covers(e, address) && e.user + address >= LIMIT)
        || (address < e.iova < address + length && e.user + e.iova >= LIMIT))
  }

  predicate Overflows(es: seq<Entry>, address: nat, length: nat, want: byte) {
    exists i :: 0 <= i < |es| && Summed(es[i], address, length, want)
  }

  lemma NoOverflow(es: seq<Entry>, address: nat, want: byte)
    ensures !Overflows(es, address, 0, want)
  {}

  /** Behind the end of an entry the next one starts. */
  lemma StartsThere(es: seq<Entry>, i: nat, x: nat)
    requires Disjoint(es) && Boundary(es, x) && i < |es| && Covers(es[i], x) && x > 0
    ensures es[i].iova == x
  {
    var j :| 0 <= j < |es| && es[j].iova + es[j].size == x && es[j].size > 0;
    if es[i].iova < x {
      assert Covers(es[j], x - 1) && Covers(es[i], x - 1);
      CoveredOnce(es, i, j, x - 1);
    }
  }

  lemma OverflowsNext(es: seq<Entry>, table: imap<nat, Target>, address: nat, done: nat, n: nat, want: byte, i: nat)
    requires CacheInv(es, table) && i < |es| && Covers(es[i], address + done) && Allows(es[i].permission, want)
    requires 0 < n <= es[i].size - (address + done - es[i].iova)
    requires 0 < done ==> Boundary(es, address + done)
    ensures Overflows(es, address, done + n, want) <==>
              Overflows(es, address, done, want) || es[i].user + (address + done) >= LIMIT
    ensures n == es[i].size - (address + done - es[i].iova) ==> Boundary(es, address + done + n)
  {
    hide Allows, Sound, Boundary;
    var x := address + done;
    if 0 < done { StartsThere(es, i, x); }
    forall j | 0 <= j < |es|
      ensures Summed(es[j], address, done + n, want) <==>
                Summed(es[j], address, done, want) || (j == i && es[i].user + x >= LIMIT)
    {
      SummedNext(es, address, done, n, want, i, j);
    }
    assert n == es[i].size - (x - es[i].iova) ==> Boundary(es, x + n) by { BoundaryAt(es, i); }
  }

  lemma BoundaryAt(es: seq<Entry>, i: nat)
    requires i < |es| && es[i].size > 0
    ensures Boundary(es, es[i].iova + es[i].size)
  {}

  lemma Apart(es: seq<Entry>, i: nat, j: nat, x: nat)
    requires Disjoint(es) && i < |es| && j < |es| && i != j
    ensures !(Covers(es[i], x) && Covers(es[j], x))
  {
    hide Disjoint, Covers;
    if Covers(es[i], x) && Covers(es[j], x) {
      CoveredOnce(es, i, j, x);
    }
  }

  lemma SummedNext(es: seq<Entry>, address: nat, done: nat, n: nat, want: byte, i: nat, j: nat)
    requires Disjoint(es) && i < |es| && j < |es| && es[j].size > 0
    requires Covers(es[i], address + done) && Allows(es[i].permission, want)
    requires 0 < n <= es[i].size - (address + done - es[i].iova)
    requires 0 < done ==> es[i].iova == address + done
    ensures Summed(es[j], address, done + n, want) <==>
              Summed(es[j], address, done, want) || (j == i && es[i].user + (address + done) >= LIMIT)
  {
    hide Allows, Disjoint;
    var x := address + done;
    if j != i {
      Apart(es, i, j, x);
      Apart(es, i, j, es[j].iova);
    }
  }

  /** Where checked arithmetic does not serve a translation: a high IOVA in front of high memory. */
  lemma OverflowExists()
    ensures
      var e := Entry(0x8000_0000_0000_0000, 4096, 0x8000_0000_0000_0000, 3);
      WellFormed(e) && Disjoint([e]) && Overflows([e], e.iova, 1, 1) && Lookup([e], e.iova, 1) == Some(e.user)
  {
    var e := Entry(0x8000_0000_0000_0000, 4096, 0x8000_0000_0000_0000, 3);
    assert Summed([e][0], e.iova, 1, 1);
  }

  /** It serves every translation if no entry has an address and a target that add up to 64 bits. */
  lemma LowEntries(es: seq<Entry>, address: nat, length: nat, want: byte)
    requires forall i :: 0 <= i < |es| ==> es[i].size > 0 && es[i].user + es[i].iova + es[i].size <= LIMIT
    ensures !Overflows(es, address, length, want)
  {
    forall i | 0 <= i < |es| ensures !Summed(es[i], address, length, want) {
      assert es[i].size > 0 && es[i].user + es[i].iova + es[i].size <= LIMIT;
    }
  }

  method Retain(es: seq<Entry>, address: nat, size: nat) returns (kept: seq<Entry>)
    ensures kept == Untouched(es, address, size)
  {
    kept := [];
    for i := 0 to |es|
      invariant kept + Untouched(es[i..], address, size) == Untouched(es, address, size)
    {
      assert es[i..][1..] == es[i + 1..];
      if !Overlap(address, size, es[i].iova, es[i].size) { kept := kept + [es[i]]; }
    }
  }

  method Find(es: seq<Entry>, x: nat, want: byte) returns (r: Option<nat>)
    requires forall i :: 0 <= i < |es| ==> WellFormed(es[i])
    ensures r.Some? ==> r.value < |es| && Covers(es[r.value], x) && Allows(es[r.value].permission, want)
    ensures r.None? <==> Lookup(es, x, want).None?
  {
    hide Lookup, Allows;
    for i := 0 to |es|
      invariant forall j :: 0 <= j < i ==> !(Covers(es[j], x) && Allows(es[j].permission, want))
    {
      if Covers(es[i], x) && Allows(es[i].permission, want) { return Some(i); }
    }
    r := None;
  }
}
