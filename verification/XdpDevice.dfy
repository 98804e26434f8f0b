/**
 Frame ownership in the AF_XDP device of `src/device/backend/af_xdp/device.rs`.

 The kernel is an environment that may report any descriptors whatever: completions, received
 descriptors and the room in the fill and TX rings are arguments of the operations. Dropping a
 packet handle gives its frame back to the pool without the device noticing, so the device's own
 table still says that the application has it.
 */
module XdpDevice {
  import opened Prelude
  import opened FramePool

  /** The entries of the device's table. */
  datatype Owner = Free | RxKernel | App | TxKernel

  datatype Config = Config(
    frames: nat, chunk: nat, headroom: nat, batch: nat, txReserve: nat, rxTarget: nat)
  {
    predicate Valid() {
      && 2 <= frames && txReserve < frames && 0 < batch <= 4096
      && 2048 <= chunk <= 0xffff_ffff && headroom <= chunk - 256
      && rxTarget <= frames - txReserve
    }
  }

  /** An application's handle on a frame; `ours` when the frame belongs to this device's pool. */
  datatype Packet = Packet(ours: bool, frame: nat, offset: nat, length: nat)

  datatype Descriptor = Descriptor(address: u64, length: u32)

  datatype SendError = InvalidInput

  // ---------------------------------------------------------------- one owner for every frame

  /** Every frame is in the pool, in the application's hands, or with the kernel. */
  predicate Partition(pool: set<nat>, held: set<nat>, state: seq<Owner>) {
    && (forall i :: i in pool ==> i < |state|)
    && (forall i :: i in held ==> i < |state|)
    && (forall i :: 0 <= i < |state| ==> Owned(i, pool, held, state[i]))
  }

  predicate Owned(i: nat, pool: set<nat>, held: set<nat>, owner: Owner) {
    match owner
    case Free => i in pool && i !in held
    case App => (i in pool) != (i in held)
    case RxKernel => i !in pool && i !in held
    case TxKernel => i !in pool && i !in held
  }

  /** Exactly one of the four has a frame. */
  lemma OneOwner(pool: set<nat>, held: set<nat>, state: seq<Owner>, i: nat)
    requires Partition(pool, held, state) && i < |state|
    ensures
      var claims := [i in pool, i in held, state[i].RxKernel?, state[i].TxKernel?];
      exists k :: 0 <= k < 4 && claims[k] && forall j :: 0 <= j < 4 && j != k ==> !claims[j]
  {
    assert Owned(i, pool, held, state[i]);
    var claims := [i in pool, i in held, state[i].RxKernel?, state[i].TxKernel?];
    assert claims[0] || claims[1] || claims[2] || claims[3];
  }

  function Count(state: seq<Owner>, o: Owner): nat {
    if state == [] then 0 else (if state[0] == o then 1 else 0) + Count(state[1..], o)
  }

  lemma {:induction false} CountUpdate(state: seq<Owner>, i: nat, w: Owner, o: Owner)
    requires i < |state|
    ensures Count(state[i := w], o)
         == Count(state, o) - (if state[i] == o then 1 else 0) + (if w == o then 1 else 0)
  {
    if i == 0 {
      assert state[i := w][1..] == state[1..];
    } else {
      assert state[i := w][1..] == state[1..][i - 1 := w];
      CountUpdate(state[1..], i - 1, w, o);
    }
  }

  lemma {:induction false} CountNone(state: seq<Owner>, o: Owner)
    requires o !in state
    ensures Count(state, o) == 0
  {
    if state != [] {
      CountNone(state[1..], o);
    }
  }

  /** A frame changes hands. */
  lemma Moved(pool: set<nat>, held: set<nat>, state: seq<Owner>, i: nat, w: Owner, pool': set<nat>, held': set<nat>)
    requires Partition(pool, held, state) && i < |state|
    requires pool' - {i} == pool - {i} && held' - {i} == held - {i}
    requires Owned(i, pool', held', w)
    ensures Partition(pool', held', state[i := w])
  {
    hide Owned;
    var next := state[i := w];
    forall k | 0 <= k < |next| ensures Owned(k, pool', held', next[k]) {
      assert Owned(k, pool, held, state[k]);
      if k != i {
        assert k in pool' - {i} <==> k in pool - {i};
        assert k in held' - {i} <==> k in held - {i};
        SameOwner(k, pool, held, pool', held', state[k]);
      }
    }
    forall k | k in pool' ensures k < |state| { assert k == i || k in pool - {i}; }
    forall k | k in held' ensures k < |state| { assert k == i || k in held - {i}; }
  }

  lemma SameOwner(k: nat, pool: set<nat>, held: set<nat>, pool': set<nat>, held': set<nat>, o: Owner)
    requires Owned(k, pool, held, o) && (k in pool <==> k in pool') && (k in held <==> k in held')
    ensures Owned(k, pool', held', o)
  {}

  function FrameAt(address: nat, chunk: nat): nat
    requires chunk > 0
  {
    address / chunk
  }

  function OffsetAt(address: nat, chunk: nat): nat
    requires chunk > 0
  {
    address % chunk
  }

  /** The frame and offset of a received descriptor, unless it is malformed. */
  function DecodeRx(d: Descriptor, cfg: Config): Option<(nat, nat)>
    requires cfg.Valid()
  {
    var frame := FrameAt(d.address, cfg.chunk);
    var offset := OffsetAt(d.address, cfg.chunk);
    if frame < cfg.frames && d.length > 0 && d.length <= cfg.chunk - offset then Some((frame, offset)) else None
  }

  /** A descriptor is decoded exactly if it describes some bytes, all of them in one frame of the region. */
  lemma DecodeIff(d: Descriptor, cfg: Config, frame: nat, offset: nat)
    requires cfg.Valid()
    ensures DecodeRx(d, cfg) == Some((frame, offset)) <==>
              && d.address == frame * cfg.chunk + offset && frame < cfg.frames && offset < cfg.chunk
              && 0 < d.length && offset + d.length <= cfg.chunk
  {
    var f, o := FrameAt(d.address, cfg.chunk), OffsetAt(d.address, cfg.chunk);
    assert d.address == f * cfg.chunk + o && o < cfg.chunk;
    if d.address == frame * cfg.chunk + offset && offset < cfg.chunk {
      RemainderOf(d.address, cfg.chunk, frame, offset);
    }
  }

  // ---------------------------------------------------------------- the loops over a batch

  /** `free` are the frames of the pool and any others that have no owner at the moment. */
  ghost predicate Sound(free: seq<nat>, held: set<nat>, state: seq<Owner>) {
    Distinct(free) && Partition(Elements(free), held, state)
  }

  lemma AllFree(free: seq<nat>, state: seq<Owner>, n: nat)
    requires Distinct(free) && Elements(free) == Range(n) && |state| == n && forall i :: 0 <= i < n ==> state[i] == Free
    ensures Sound(free, {}, state) && Count(state, RxKernel) == 0 && Count(state, TxKernel) == 0
  {
    hide Distinct, Elements;
    CountNone(state, RxKernel);
    CountNone(state, TxKernel);
  }

  /** A frame that the kernel was sending goes back to the pool. */
  lemma Returned(free: seq<nat>, held: set<nat>, state: seq<Owner>, i: nat)
    requires Sound(free, held, state) && i < |state| && state[i].TxKernel?
    ensures Sound(free + [i], held, state[i := Free])
  {
    assert Owned(i, Elements(free), held, state[i]);
    assert Elements(free + [i]) == Elements(free) + {i};
    Moved(Elements(free), held, state, i, Free, Elements(free + [i]), held);
  }

  predicate Completed(i: nat, state: seq<Owner>, completions: seq<u64>, cfg: Config)
    requires cfg.Valid() && i < |state|
  {
    state[i].TxKernel? && exists k :: 0 <= k < |completions| && FrameAt(completions[k], cfg.chunk) == i
  }

  lemma CompletedNext(i: nat, state: seq<Owner>, completions: seq<u64>, k: nat, cfg: Config)
    requires cfg.Valid() && i < |state| && k < |completions|
    ensures Completed(i, state, completions[..k + 1], cfg)
       <==> Completed(i, state, completions[..k], cfg)
            || (state[i].TxKernel? && FrameAt(completions[k], cfg.chunk) == i)
  {
    hide FrameAt;
    var before, now := completions[..k], completions[..k + 1];
    assert now == before + [completions[k]];
    if Completed(i, state, before, cfg) {
      var j :| 0 <= j < |before| && FrameAt(before[j], cfg.chunk) == i;
      assert now[j] == before[j];
    }
    assert now[k] == completions[k];
  }

  /** Whatever the completion ring returns, each frame the kernel was sending comes back once. */
  method Settle(state: seq<Owner>, completions: seq<u64>, cfg: Config, ghost free: seq<nat>, ghost held: set<nat>)
      returns (after: seq<Owner>, freed: seq<nat>)
    requires cfg.Valid() && |state| == cfg.frames && Sound(free, held, state)
    ensures |after| == |state| && Sound(free + freed, held, after) && |freed| <= |completions|
    ensures forall i :: 0 <= i < |state| ==>
              after[i] == if Completed(i, state, completions, cfg) then Free else state[i]
    ensures Count(after, TxKernel) == Count(state, TxKernel) - |freed|
    ensures Count(after, RxKernel) == Count(state, RxKernel)
  {
    after, freed := state, [];
    assert free + freed == free;
    assert completions[..|completions|] == completions;
    for k := 0 to |completions|
      invariant |after| == |state| && Sound(free + freed, held, after) && |freed| <= k
      invariant forall i :: 0 <= i < |state| ==>
                  after[i] == if Completed(i, state, completions[..k], cfg) then Free else state[i]
      invariant Count(after, TxKernel) == Count(state, TxKernel) - |freed|
      invariant Count(after, RxKernel) == Count(state, RxKernel)
    {
      hide Sound, Count, FrameAt, Completed;
      var i := FrameAt(completions[k], cfg.chunk);
      forall j | 0 <= j < |state| { CompletedNext(j, state, completions, k, cfg); }
      if i < |state| && after[i].TxKernel? {
        Returned(free + freed, held, after, i);
        CountUpdate(after, i, Free, TxKernel);
        CountUpdate(after, i, Free, RxKernel);
        after := after[i := Free];
        freed := freed + [i];
        assert free + freed == free + freed[..|freed| - 1] + [i];
      }
    }
  }

  function Frames(ps: seq<Packet>): (fs: seq<nat>)
    ensures |fs| == |ps| && forall k :: 0 <= k < |ps| ==> fs[k] == ps[k].frame
  {
    seq(|ps|, k requires 0 <= k < |ps| => ps[k].frame)
  }

  /** Some well-formed descriptor names a frame that was waiting for reception. */
  predicate Reported(i: nat, state: seq<Owner>, descriptors: seq<Descriptor>, cfg: Config)
    requires cfg.Valid() && i < |state|
  {
    && state[i].RxKernel?
    && exists k :: 0 <= k < |descriptors| && DecodeRx(descriptors[k], cfg).Some?
                   && DecodeRx(descriptors[k], cfg).value.0 == i
  }

  /** A handle covers exactly what its descriptor says, inside its own frame. */
  predicate Describes(p: Packet, descriptors: seq<Descriptor>, cfg: Config)
    requires cfg.Valid()
  {
    && p.ours && 0 < p.length && p.offset + p.length <= cfg.chunk
    && exists k :: 0 <= k < |descriptors| && DecodeRx(descriptors[k], cfg) == Some((p.frame, p.offset))
                   && descriptors[k].length == p.length
  }

  lemma ReportedNext(i: nat, state: seq<Owner>, descriptors: seq<Descriptor>, k: nat, cfg: Config)
    requires cfg.Valid() && i < |state| && k < |descriptors|
    ensures
      var at := DecodeRx(descriptors[k], cfg);
      Reported(i, state, descriptors[..k + 1], cfg)
      <==> Reported(i, state, descriptors[..k], cfg) || (state[i].RxKernel? && at.Some? && at.value.0 == i)
  {
    hide DecodeRx;
    var before, now := descriptors[..k], descriptors[..k + 1];
    assert now == before + [descriptors[k]];
    if Reported(i, state, before, cfg) {
      var j :| 0 <= j < |before| && DecodeRx(before[j], cfg).Some? && DecodeRx(before[j], cfg).value.0 == i;
      assert now[j] == before[j];
    }
    assert now[k] == descriptors[k];
  }

  lemma DescribesNext(p: Packet, descriptors: seq<Descriptor>, k: nat, cfg: Config)
    requires cfg.Valid() && k < |descriptors| && Describes(p, descriptors[..k], cfg)
    ensures Describes(p, descriptors[..k + 1], cfg)
  {
    hide DecodeRx;
    var before, now := descriptors[..k], descriptors[..k + 1];
    var j :| 0 <= j < |before| && DecodeRx(before[j], cfg) == Some((p.frame, p.offset)) && before[j].length == p.length;
    assert now[j] == before[j];
  }

  lemma DescribesThis(descriptors: seq<Descriptor>, k: nat, cfg: Config)
    requires cfg.Valid() && k < |descriptors| && DecodeRx(descriptors[k], cfg).Some?
    ensures
      var d := descriptors[k];
      var at := DecodeRx(d, cfg).value;
      at.0 < cfg.frames && Describes(Packet(true, at.0, at.1, d.length), descriptors[..k + 1], cfg)
  {
    var now := descriptors[..k + 1];
    assert now[k] == descriptors[k];
  }

  lemma Appended(out: seq<Packet>, p: Packet, held: set<nat>)
    requires Distinct(Frames(out)) && p.frame !in held + Elements(Frames(out))
    ensures Distinct(Frames(out + [p])) && p.frame !in held
    ensures held + Elements(Frames(out + [p])) == held + Elements(Frames(out)) + {p.frame}
  {
    assert Frames(out + [p]) == Frames(out) + [p.frame];
  }

  lemma Received(free: seq<nat>, held: set<nat>, state: seq<Owner>, i: nat)
    requires Sound(free, held, state) && i < |state| && state[i].RxKernel?
    ensures Sound(free, held + {i}, state[i := App]) && i !in held
  {
    assert Owned(i, Elements(free), held, state[i]);
    Moved(Elements(free), held, state, i, App, Elements(free), held + {i});
  }

  /** A handle was made once for each reported frame and for no other. */
  ghost predicate Handled(state: seq<Owner>, descriptors: seq<Descriptor>, cfg: Config,
                          free: seq<nat>, held: set<nat>, after: seq<Owner>, out: seq<Packet>)
    requires cfg.Valid()
  {
    && |after| == |state| == cfg.frames && Sound(free, held + Elements(Frames(out)), after)
    && (forall k :: 0 <= k < |out| ==> Describes(out[k], descriptors, cfg) && out[k].frame !in held)
    && Distinct(Frames(out)) && |out| <= |descriptors|
    && (forall i :: 0 <= i < |state| ==>
          after[i] == if Reported(i, state, descriptors, cfg) then App else state[i])
    && Count(after, RxKernel) == Count(state, RxKernel) - |out|
    && Count(after, TxKernel) == Count(state, TxKernel)
  }

  /** Each reported frame has its handle. */
  lemma HandledEach(state: seq<Owner>, descriptors: seq<Descriptor>, cfg: Config,
                    free: seq<nat>, held: set<nat>, after: seq<Owner>, out: seq<Packet>, i: nat)
    requires cfg.Valid() && Sound(free, held, state) && Handled(state, descriptors, cfg, free, held, after, out)
    requires i < |state| && Reported(i, state, descriptors, cfg)
    ensures i in Elements(Frames(out))
  {
    hide Count, DecodeRx, Describes, Distinct;
    assert Owned(i, Elements(free), held, state[i]);
    assert Owned(i, Elements(free), held + Elements(Frames(out)), after[i]);
  }

  lemma HandledSkip(state: seq<Owner>, descriptors: seq<Descriptor>, k: nat, cfg: Config,
                    free: seq<nat>, held: set<nat>, after: seq<Owner>, out: seq<Packet>)
    requires cfg.Valid() && k < |descriptors| && Handled(state, descriptors[..k], cfg, free, held, after, out)
    requires
      var at := DecodeRx(descriptors[k], cfg);
      at.Some? && at.value.0 < |after| ==> !after[at.value.0].RxKernel?
    ensures Handled(state, descriptors[..k + 1], cfg, free, held, after, out)
  {
    hide Sound, Count, DecodeRx, Reported, Describes, Distinct, Elements;
    if DecodeRx(descriptors[k], cfg).Some? { DescribesThis(descriptors, k, cfg); }
    forall j | 0 <= j < |state| { ReportedNext(j, state, descriptors, k, cfg); }
    forall j | 0 <= j < |out| ensures Describes(out[j], descriptors[..k + 1], cfg) {
      DescribesNext(out[j], descriptors, k, cfg);
    }
  }

  lemma HandledTake(state: seq<Owner>, descriptors: seq<Descriptor>, k: nat, cfg: Config,
                    free: seq<nat>, held: set<nat>, after: seq<Owner>, out: seq<Packet>)
    requires cfg.Valid() && k < |descriptors| && Handled(state, descriptors[..k], cfg, free, held, after, out)
    requires
      var at := DecodeRx(descriptors[k], cfg);
      at.Some? && at.value.0 < |after| && after[at.value.0].RxKernel?
    ensures
      var at := DecodeRx(descriptors[k], cfg).value;
      var p := Packet(true, at.0, at.1, descriptors[k].length);
      Handled(state, descriptors[..k + 1], cfg, free, held, after[at.0 := App], out + [p])
  {
    hide Sound, Count, DecodeRx, Reported, Describes, Distinct, Elements;
    var at := DecodeRx(descriptors[k], cfg).value;
    var p := Packet(true, at.0, at.1, descriptors[k].length);
    DescribesThis(descriptors, k, cfg);
    forall j | 0 <= j < |state| { ReportedNext(j, state, descriptors, k, cfg); }
    forall j | 0 <= j < |out| ensures Describes(out[j], descriptors[..k + 1], cfg) {
      DescribesNext(out[j], descriptors, k, cfg);
    }
    Received(free, held + Elements(Frames(out)), after, at.0);
    Appended(out, p, held);
    CountUpdate(after, at.0, App, RxKernel);
    CountUpdate(after, at.0, App, TxKernel);
  }

  /** Whatever the RX ring returns, a handle is made once for each reported frame and for no other. */
  method Receive(state: seq<Owner>, descriptors: seq<Descriptor>, cfg: Config, ghost free: seq<nat>,
                 ghost held: set<nat>)
      returns (after: seq<Owner>, out: seq<Packet>)
    requires cfg.Valid() && |state| == cfg.frames && Sound(free, held, state)
    ensures Handled(state, descriptors, cfg, free, held, after, out)
  {
    after, out := state, [];
    assert descriptors[..0] == [] && descriptors[..|descriptors|] == descriptors;
    assert held + Elements(Frames(out)) == held;
    for k := 0 to |descriptors|
      invariant Handled(state, descriptors[..k], cfg, free, held, after, out)
    {
      assert |after| == cfg.frames;
      hide Handled;
      var d := descriptors[k];
      var at := DecodeRx(d, cfg);
      if at.None? || !after[at.value.0].RxKernel? {
        HandledSkip(state, descriptors, k, cfg, free, held, after, out);
      } else {
        HandledTake(state, descriptors, k, cfg, free, held, after, out);
        after := after[at.value.0 := App];
        out := out + [Packet(true, at.value.0, at.value.1, d.length)];
      }
    }
  }

  /** Records one new owner for each of several frames. */
  method Mark(state: seq<Owner>, frames: seq<nat>, w: Owner) returns (after: seq<Owner>)
    requires Distinct(frames) && Below(frames, |state|)
    requires forall k :: 0 <= k < |frames| ==> state[frames[k]] != w
    ensures |after| == |state|
    ensures forall i :: 0 <= i < |state| ==> after[i] == if i in frames then w else state[i]
    ensures Count(after, w) == Count(state, w) + |frames|
    ensures forall o :: o != w && (forall k :: 0 <= k < |frames| ==> state[frames[k]] != o) ==>
              Count(after, o) == Count(state, o)
  {
    after := state;
    for k := 0 to |frames|
      invariant |after| == |state|
      invariant forall i :: 0 <= i < |state| ==> after[i] == if i in frames[..k] then w else state[i]
      invariant Count(after, w) == Count(state, w) + k
      invariant forall o :: o != w && (forall j :: 0 <= j < |frames| ==> state[frames[j]] != o) ==>
                Count(after, o) == Count(state, o)
    {
      hide Count;
      var i := frames[k];
      assert after[i] == state[i] by { assert i !in frames[..k]; }
      forall o: Owner { CountUpdate(after, i, w, o); }
      assert frames[..k + 1] == frames[..k] + [i];
      after := after[i := w];
    }
    assert frames[..|frames|] == frames;
  }

  /** Several frames change hands at once. */
  lemma AllMoved(pool: set<nat>, held: set<nat>, state: seq<Owner>, frames: seq<nat>, w: Owner,
                 pool': set<nat>, held': set<nat>, after: seq<Owner>)
    requires Partition(pool, held, state) && Below(frames, |state|) && |after| == |state|
    requires forall i :: 0 <= i < |state| ==> after[i] == if i in frames then w else state[i]
    requires pool' - Elements(frames) == pool - Elements(frames) && held' - Elements(frames) == held - Elements(frames)
    requires forall k :: 0 <= k < |frames| ==> Owned(frames[k], pool', held', w)
    ensures Partition(pool', held', after)
  {
    hide Owned;
    var s := Elements(frames);
    forall k | 0 <= k < |after| ensures Owned(k, pool', held', after[k]) {
      assert Owned(k, pool, held, state[k]);
      if k !in frames {
        assert k in pool' - s <==> k in pool - s;
        assert k in held' - s <==> k in held - s;
        SameOwner(k, pool, held, pool', held', state[k]);
      }
    }
    forall k | k in pool' ensures k < |state| { assert k in s || k in pool - s; }
    forall k | k in held' ensures k < |state| { assert k in s || k in held - s; }
  }

  /** Frames taken off the pool were marked free or dropped, and nobody holds them. */
  lemma TakenOff(rest: seq<nat>, batch: seq<nat>, held: set<nat>, state: seq<Owner>)
    requires Sound(rest + batch, held, state)
    ensures Distinct(batch) && Below(batch, |state|) && Elements(batch) !! held && Elements(batch) !! Elements(rest)
    ensures forall k :: 0 <= k < |batch| ==> !state[batch[k]].RxKernel? && !state[batch[k]].TxKernel?
  {
    var all := rest + batch;
    forall k | 0 <= k < |batch|
      ensures batch[k] < |state| && batch[k] !in held && !state[batch[k]].RxKernel? && !state[batch[k]].TxKernel?
    {
      assert all[|rest| + k] == batch[k] && batch[k] in Elements(all);
      assert Owned(batch[k], Elements(all), held, state[batch[k]]);
    }
    forall i, j | 0 <= i < j < |batch| ensures batch[i] != batch[j] {
      assert all[|rest| + i] == batch[i] && all[|rest| + j] == batch[j];
    }
    forall i, j | 0 <= i < |rest| && 0 <= j < |batch| ensures rest[i] != batch[j] {
      assert all[i] == rest[i] && all[|rest| + j] == batch[j];
    }
  }

  /** Part of a batch from the pool is published for reception, the rest goes back. */
  lemma PublishSound(rest: seq<nat>, batch: seq<nat>, n: nat, held: set<nat>, state: seq<Owner>, after: seq<Owner>)
    requires Sound(rest + batch, held, state) && n <= |batch| && |after| == |state|
    requires forall i :: 0 <= i < |state| ==> after[i] == if i in batch[..n] then RxKernel else state[i]
    ensures Sound(rest + batch[n..], held, after)
  {
    TakenOff(rest, batch, held, state);
    var given, back := batch[..n], batch[n..];
    assert batch == given + back;
    assert Distinct(rest + back) by { PartDistinct(rest, batch, n); }
    assert Elements(rest + batch) == Elements(rest + back) + Elements(given);
    assert Elements(given) !! Elements(rest + back) by { PartsDisjoint(rest, batch, n); }
    AllMoved(Elements(rest + batch), held, state, given, RxKernel, Elements(rest + back), held, after);
  }

  lemma PartDistinct(rest: seq<nat>, batch: seq<nat>, n: nat)
    requires Distinct(rest + batch) && n <= |batch|
    ensures Distinct(rest + batch[n..])
  {
    var all, part := rest + batch, rest + batch[n..];
    forall i, j | 0 <= i < j < |part| ensures part[i] != part[j] {
      var i', j' := if i < |rest| then i else i + n, if j < |rest| then j else j + n;
      assert part[i] == all[i'] && part[j] == all[j'];
    }
  }

  lemma PartsDisjoint(rest: seq<nat>, batch: seq<nat>, n: nat)
    requires Distinct(rest + batch) && n <= |batch|
    ensures Elements(batch[..n]) !! Elements(rest + batch[n..])
  {
    var all, given, part := rest + batch, batch[..n], rest + batch[n..];
    forall i, j | 0 <= i < |given| && 0 <= j < |part| ensures given[i] != part[j] {
      assert given[i] == all[|rest| + i];
      assert part[j] == if j < |rest| then all[j] else all[j + n];
    }
  }

  /** A batch from the pool becomes the application's. */
  lemma AdoptSound(rest: seq<nat>, batch: seq<nat>, held: set<nat>, state: seq<Owner>, after: seq<Owner>)
    requires Sound(rest + batch, held, state) && |after| == |state|
    requires forall i :: 0 <= i < |state| ==> after[i] == if i in batch then App else state[i]
    ensures Sound(rest, held + Elements(batch), after)
  {
    TakenOff(rest, batch, held, state);
    assert Distinct(rest) by { PartDistinct(rest, batch, |batch|); assert rest + batch[|batch|..] == rest; }
    assert Elements(rest + batch) == Elements(rest) + Elements(batch);
    AllMoved(Elements(rest + batch), held, state, batch, App, Elements(rest), held + Elements(batch), after);
  }

  /** The application hands frames to the kernel for sending. */
  lemma SurrenderSound(free: seq<nat>, batch: seq<nat>, held: set<nat>, state: seq<Owner>, after: seq<Owner>)
    requires Sound(free, held, state) && Elements(batch) <= held && |after| == |state|
    requires forall i :: 0 <= i < |state| ==> after[i] == if i in batch then TxKernel else state[i]
    ensures Sound(free, held - Elements(batch), after)
    ensures Below(batch, |state|)
    ensures forall k :: 0 <= k < |batch| ==> state[batch[k]].App?
  {
    forall k | 0 <= k < |batch| ensures batch[k] < |state| && state[batch[k]].App? && batch[k] !in Elements(free) {
      assert batch[k] in Elements(batch);
      assert Owned(batch[k], Elements(free), held, state[batch[k]]);
    }
    AllMoved(Elements(free), held, state, batch, TxKernel, Elements(free), held - Elements(batch), after);
  }

  /** A dropped handle's frame returns to the pool; the table keeps its entry. */
  lemma DropSound(free: seq<nat>, held: set<nat>, state: seq<Owner>, i: nat)
    requires Sound(free, held, state) && i in held
    ensures i < |state| && i !in free && Sound(free + [i], held - {i}, state)
  {
    assert Owned(i, Elements(free), held, state[i]);
    assert Elements(free + [i]) == Elements(free) + {i};
    assert state[i := App] == state;
    Moved(Elements(free), held, state, i, App, Elements(free + [i]), held - {i});
  }

  // ---------------------------------------------------------------- the device

  /** How many free frames reception gets: up to its target, beyond the reserve for sending, and as many as fit. */
  function Refilled(owned: nat, available: nat, space: nat, cfg: Config): int {
    Min(Min(cfg.rxTarget - owned, Monus(available, cfg.txReserve)), space)
  }

  class Device {
    const cfg: Config
    const pool: Pool
    var state: seq<Owner>
    var rxOwned: nat
    var txPending: nat
    /** Frames with a live application handle. */
    ghost var held: set<nat>

    ghost predicate Valid()
      reads this, pool, pool.list
    {
      && cfg.Valid() && pool.Valid()
      && pool.list.Length == |state| == cfg.frames
      && Sound(pool.Contents(), held, state)
      && rxOwned == Count(state, RxKernel) <= cfg.rxTarget
      && txPending == Count(state, TxKernel)
    }

    constructor (cfg: Config)
      requires cfg.Valid()
      ensures this.cfg == cfg && held == {} && rxOwned == txPending == 0
      ensures fresh(pool) && fresh(pool.list)
      ensures Valid()
    {
      this.cfg := cfg;
      pool := new Pool(cfg.frames);
      state := seq(cfg.frames, _ => Free);
      rxOwned, txPending, held := 0, 0, {};
      new;
      hide Sound, Count, Distinct, Elements, Range, Below;
      AllFree(pool.Contents(), state, cfg.frames);
    }

    method DrainCq(completions: seq<u64>)
      requires Valid() && |completions| <= cfg.batch
      modifies this`state, this`txPending, pool, pool.list
      ensures Valid()
      ensures forall i :: 0 <= i < cfg.frames ==>
                state[i] == if Completed(i, old(state), completions, cfg) then Free else old(state)[i]
      ensures txPending <= old(txPending)
      ensures |pool.Contents()| == |old(pool.Contents())| + old(txPending) - txPending
    {
      hide Partition, Count, Completed, Distinct;
      ghost var free := pool.Contents();
      var after, freed := Settle(state, completions, cfg, free, held);
      SoundBelow(free, freed, held, after);
      pool.FreeN(freed);
      state := after;
      txPending := txPending - |freed|;
    }

    /** Publishes free frames for reception, up to the target and never into the reserve for sending.
        `space` is the room in the fill ring. */
    method Refill(space: nat)
      requires Valid()
      modifies this`state, this`rxOwned, pool, pool.list
      ensures Valid()
      ensures
        var n := Refilled(old(rxOwned), |old(pool.Contents())|, space, cfg);
        rxOwned == old(rxOwned) + n && |pool.Contents()| == |old(pool.Contents())| - n
      ensures forall i :: 0 <= i < cfg.frames && state[i] != old(state)[i] ==> state[i].RxKernel?
    {
      hide Partition, Count, Distinct;
      var budget := Min(cfg.rxTarget - rxOwned, Monus(pool.count, cfg.txReserve));
      var room := space;
      ghost var total := budget;
      while budget > 0
        invariant Valid() && 0 <= budget && 0 <= room <= space
        invariant budget <= Min(cfg.rxTarget - rxOwned, Monus(pool.count, cfg.txReserve))
        invariant rxOwned == old(rxOwned) + (space - room)
        invariant |pool.Contents()| == |old(pool.Contents())| - (space - room)
        invariant space - room == total - budget
        invariant forall i :: 0 <= i < cfg.frames && state[i] != old(state)[i] ==> state[i].RxKernel?
        decreases budget
      {
        var limit := if budget <= cfg.batch then budget else cfg.batch;
        var pushed := Publish(limit, room);
        room := room - pushed;
        budget := budget - pushed;
        if pushed < limit { break; }
      }
    }

    /** One batch for the fill ring. */
    method Publish(limit: nat, room: nat) returns (pushed: nat)
      requires Valid() && 0 < limit <= cfg.rxTarget - rxOwned && limit <= |pool.Contents()|
      modifies this`state, this`rxOwned, pool, pool.list
      ensures Valid() && pushed == Min(limit, room)
      ensures rxOwned == old(rxOwned) + pushed && |pool.Contents()| == |old(pool.Contents())| - pushed
      ensures forall i :: 0 <= i < cfg.frames && state[i] != old(state)[i] ==> state[i].RxKernel?
    {
      hide Partition, Count, Distinct;
      ghost var before := state;
      var batch := pool.AllocN(limit);
      ghost var rest := pool.Contents();
      assert Sound(rest + batch, held, before);
      pushed := if |batch| <= room then |batch| else room;
      TakenOff(rest, batch, held, before);
      assert Distinct(batch[..pushed]) by { PrefixDistinct(batch, pushed); }
      state := Mark(state, batch[..pushed], RxKernel);
      PublishSound(rest, batch, pushed, held, before, state);
      assert |before| == pool.list.Length;
      pool.FreeN(batch[pushed..]);
      rxOwned := rxOwned + pushed;
    }

    /** Completed frames come back, and then reception gets what it may have of all that is free. */
    method Progress(completions: seq<u64>, space: nat)
      requires Valid() && |completions| <= cfg.batch
      modifies this`state, this`rxOwned, this`txPending, pool, pool.list
      ensures Valid() && txPending <= old(txPending)
      ensures forall i :: 0 <= i < cfg.frames && old(state)[i].RxKernel? ==> state[i].RxKernel?
      ensures forall i :: 0 <= i < cfg.frames ==>
                if Completed(i, old(state), completions, cfg) then !state[i].TxKernel?
                else state[i] == old(state)[i] || state[i].RxKernel?
      ensures
        var back := old(txPending) - txPending;
        var n := Refilled(old(rxOwned), |old(pool.Contents())| + back, space, cfg);
        rxOwned == old(rxOwned) + n && |pool.Contents()| == |old(pool.Contents())| + back - n
    {
      hide Sound, Count;
      DrainCq(completions);
      Refill(space);
    }

    /** Received frames become handles of the application, each on its own frame. The ring returns at most
        `max` descriptors. */
    method Recv(max: nat, completions: seq<u64>, space: nat, descriptors: seq<Descriptor>) returns (out: seq<Packet>)
      requires Valid() && |completions| <= cfg.batch && |descriptors| <= Min(max, cfg.batch)
      modifies this, pool, pool.list
      ensures Valid() && |out| <= max
      ensures held == old(held) + Elements(Frames(out)) && Distinct(Frames(out))
      ensures forall k :: 0 <= k < |out| ==> Describes(out[k], descriptors, cfg) && out[k].frame !in old(held)
      ensures forall i :: 0 <= i < cfg.frames && Reported(i, old(state), descriptors, cfg) ==>
                i in Elements(Frames(out))
      ensures txPending <= old(txPending)
              && forall i :: 0 <= i < cfg.frames && Completed(i, old(state), completions, cfg) ==> !state[i].TxKernel?
      ensures rxOwned + |out| == old(rxOwned)
                + Refilled(old(rxOwned), |old(pool.Contents())| + old(txPending) - txPending, space, cfg)
    {
      Progress(completions, space);
      hide Sound, Count, DecodeRx, Distinct, Describes;
      ghost var before := state;
      var after;
      after, out := Receive(state, descriptors, cfg, pool.Contents(), held);
      forall i | 0 <= i < cfg.frames && Reported(i, old(state), descriptors, cfg) ensures i in Elements(Frames(out)) {
        assert Reported(i, before, descriptors, cfg);
        HandledEach(before, descriptors, cfg, pool.Contents(), held, after, out, i);
      }
      state := after;
      rxOwned := rxOwned - |out|;
      held := held + Elements(Frames(out));
    }

    /** Hands a prefix of the packets to the kernel, or none of them. `slots` is the room in the TX ring. */
    method Send(packets: seq<Packet>, completions: seq<u64>, slots: nat) returns (r: Result<nat, SendError>)
      requires Valid() && |completions| <= cfg.batch
      requires forall k :: 0 <= k < |packets| && packets[k].ours ==> packets[k].frame in held
      requires forall j, k :: 0 <= j < k < |packets| && packets[j].ours && packets[k].ours ==>
                packets[j].frame != packets[k].frame
      modifies this, pool, pool.list
      ensures Valid()
      ensures
        var n := Min(Min(|packets|, cfg.batch), slots);
        var refused := exists k :: 0 <= k < n && (!packets[k].ours || packets[k].length == 0);
        && (r.Err? <==> refused)
        && (r.Err? ==> held == old(held))
        && (r.Ok? ==> r.value == n && held == old(held) - Elements(Frames(packets[..n])))
        && (r.Ok? ==> forall k :: 0 <= k < n ==> packets[k].frame < |state| && state[packets[k].frame].TxKernel?)
        && forall i :: 0 <= i < cfg.frames && !(r.Ok? && i in Elements(Frames(packets[..n]))) ==>
             state[i] == if Completed(i, old(state), completions, cfg) then Free else old(state)[i]
    {
      DrainCq(completions);
      var requested := if |packets| <= cfg.batch then |packets| else cfg.batch;
      var n := if requested <= slots then requested else slots;
      for k := 0 to n
        invariant forall j :: 0 <= j < k ==> packets[j].ours && packets[j].length != 0
      {
        if !packets[k].ours || packets[k].length == 0 { return Err(InvalidInput); }
      }
      Surrender(packets[..n]);
      r := Ok(n);
    }

    method Surrender(packets: seq<Packet>)
      requires Valid() && Distinct(Frames(packets)) && Elements(Frames(packets)) <= held
      modifies this`state, this`txPending, this`held
      ensures Valid() && held == old(held) - Elements(Frames(packets))
      ensures forall k :: 0 <= k < |packets| ==> packets[k].frame < |state| && state[packets[k].frame].TxKernel?
      ensures forall i :: 0 <= i < cfg.frames && i !in Elements(Frames(packets)) ==> state[i] == old(state)[i]
    {
      hide Partition, Count, Distinct;
      var batch := Frames(packets);
      ghost var before := state;
      HeldFrames(pool.Contents(), held, state, batch);
      state := Mark(state, batch, TxKernel);
      SurrenderSound(pool.Contents(), batch, held, before, state);
      held := held - Elements(batch);
      txPending := txPending + |batch|;
      assert forall k :: 0 <= k < |packets| ==> batch[k] == packets[k].frame && batch[k] in batch;
    }

    method Alloc(completions: seq<u64>, space: nat) returns (r: Option<Packet>)
      requires Valid() && |completions| <= cfg.batch
      modifies this, pool, pool.list
      ensures Valid()
      ensures r.None? ==> held == old(held) && pool.Contents() == []
      ensures r.Some? ==> r.value.frame !in old(held) && held == old(held) + {r.value.frame}
                          && r.value == Packet(true, r.value.frame, cfg.headroom, 0)
      ensures old(pool.Contents()) != [] ==> r.Some? && txPending == old(txPending) && rxOwned == old(rxOwned)
      ensures old(pool.Contents()) == [] ==>
        && txPending <= old(txPending)
        && rxOwned == old(rxOwned) + Refilled(old(rxOwned), old(txPending) - txPending, space, cfg)
        && forall i :: 0 <= i < cfg.frames && Completed(i, old(state), completions, cfg) ==> !state[i].TxKernel?
    {
      if pool.count == 0 { Progress(completions, space); }
      hide Partition, Count, Distinct;
      ghost var before := pool.Contents();
      var frame := pool.Alloc();
      if frame.None? { return None; }
      assert before == pool.Contents() + [frame.value];
      Adopt([frame.value]);
      r := Some(Packet(true, frame.value, cfg.headroom, 0));
    }

    method AllocBatch(max: nat, completions: seq<u64>) returns (out: seq<Packet>)
      requires Valid() && |completions| <= cfg.batch
      modifies this, pool, pool.list
      ensures Valid() && |out| <= Min(max, cfg.batch) && (|out| < Min(max, cfg.batch) ==> pool.Contents() == [])
      ensures held == old(held) + Elements(Frames(out)) && Distinct(Frames(out))
      ensures forall k :: 0 <= k < |out| ==> out[k].frame !in old(held) && out[k].ours && out[k].offset == cfg.headroom
      ensures txPending <= old(txPending)
              && |out| == Min(Min(max, cfg.batch), |old(pool.Contents())| + old(txPending) - txPending)
      ensures forall i :: 0 <= i < cfg.frames && Completed(i, old(state), completions, cfg) ==> !state[i].TxKernel?
    {
      DrainCq(completions);
      hide Partition, Count, Distinct;
      var batch := pool.AllocN(if max <= cfg.batch then max else cfg.batch);
      TakenOff(pool.Contents(), batch, held, state);
      Adopt(batch);
      out := seq(|batch|, k requires 0 <= k < |batch| => Packet(true, batch[k], cfg.headroom, 0));
      assert Frames(out) == batch;
    }

    /** Frames just taken from the pool get handles. */
    method Adopt(batch: seq<nat>)
      requires cfg.Valid() && pool.Valid() && pool.list.Length == |state| == cfg.frames
      requires Sound(pool.Contents() + batch, held, state)
      requires rxOwned == Count(state, RxKernel) <= cfg.rxTarget && txPending == Count(state, TxKernel)
      modifies this`state, this`held
      ensures Valid() && held == old(held) + Elements(batch)
      ensures forall k :: 0 <= k < |batch| ==> batch[k] !in old(held)
      ensures forall i :: 0 <= i < cfg.frames ==> state[i] == if i in batch then App else old(state)[i]
    {
      hide Partition, Count, Distinct;
      ghost var before := state;
      TakenOff(pool.Contents(), batch, held, state);
      state := Enter(state, batch);
      AdoptSound(pool.Contents(), batch, held, before, state);
      held := held + Elements(batch);
    }

    /** A handle is dropped: the pool takes its frame back behind the device's back. */
    method Drop(frame: nat)
      requires Valid() && frame in held
      modifies this`held, pool, pool.list
      ensures Valid() && held == old(held) - {frame} && pool.Contents() == old(pool.Contents()) + [frame]
    {
      hide Partition, Count, Distinct;
      DropSound(pool.Contents(), held, state, frame);
      pool.Free(frame);
      held := held - {frame};
    }
  }

  lemma SoundBelow(free: seq<nat>, more: seq<nat>, held: set<nat>, state: seq<Owner>)
    requires Sound(free + more, held, state)
    ensures Below(more, |state|) && Distinct(free + more)
  {
    forall k | 0 <= k < |more| ensures more[k] < |state| {
      assert (free + more)[|free| + k] == more[k] && more[k] in Elements(free + more);
    }
  }

  lemma PrefixDistinct(s: seq<nat>, n: nat)
    requires Distinct(s) && n <= |s|
    ensures Distinct(s[..n])
  {}

  lemma HeldFrames(free: seq<nat>, held: set<nat>, state: seq<Owner>, batch: seq<nat>)
    requires Sound(free, held, state) && Elements(batch) <= held
    ensures Below(batch, |state|) && forall k :: 0 <= k < |batch| ==> state[batch[k]].App?
  {
    forall k | 0 <= k < |batch| ensures batch[k] < |state| && state[batch[k]].App? {
      assert batch[k] in Elements(batch);
      assert Owned(batch[k], Elements(free), held, state[batch[k]]);
    }
  }

  /** Marks frames from the pool as the application's; some may still carry that mark. */
  method Enter(state: seq<Owner>, frames: seq<nat>) returns (after: seq<Owner>)
    requires Below(frames, |state|)
    requires forall k :: 0 <= k < |frames| ==> !state[frames[k]].RxKernel? && !state[frames[k]].TxKernel?
    ensures |after| == |state|
    ensures forall i :: 0 <= i < |state| ==> after[i] == if i in frames then App else state[i]
    ensures Count(after, RxKernel) == Count(state, RxKernel) && Count(after, TxKernel) == Count(state, TxKernel)
  {
    after := state;
    for k := 0 to |frames|
      invariant |after| == |state|
      invariant forall i :: 0 <= i < |state| ==> after[i] == if i in frames[..k] then App else state[i]
      invariant Count(after, RxKernel) == Count(state, RxKernel) && Count(after, TxKernel) == Count(state, TxKernel)
    {
      hide Count;
      CountUpdate(after, frames[k], App, RxKernel);
      CountUpdate(after, frames[k], App, TxKernel);
      assert frames[..k + 1] == frames[..k] + [frames[k]];
      after := after[frames[k] := App];
    }
    assert frames[..|frames|] == frames;
  }
}
