/**
 The two-process shared-memory ring of `examples/support/shm_nic.rs`.

 Producer and consumer are separate processes that share five counters and a ring of slots, each
 holding a descriptor and a frame. Every access to shared memory is one step, and the steps of the
 two interleave in any order. Each side keeps an old copy of the other's counter and reads it again
 only when it needs more room or more frames.
 */
module ShmRing {
  import opened Prelude
  import opened XdpRings

  // ---------------------------------------------------------------- layout and frames

  datatype Layout = Layout(ring: nat, stride: nat, payload: nat, size: nat, batch: nat, warmup: nat, packets: nat)
  {
    /** The bounds that `Layout::new` enforces. */
    predicate Valid() {
      && 2 <= ring <= 65536 && PowerOfTwo(ring) && 0 < batch <= ring
      && 64 <= size <= 9000 && size <= stride <= 65536 && 0 < packets
    }

    function Index(sequence: nat): (i: nat)
      requires ring > 0
      ensures i < ring
    {
      sequence % ring
    }

    function Offset(sequence: nat): nat
      requires ring > 0
    {
      payload + Index(sequence) * stride
    }

    function Start(phase: nat): nat { if phase == 1 then 0 else warmup }

    function End(phase: nat): nat { if phase == 1 then warmup else warmup + packets }
  }

  datatype Descriptor = Descriptor(offset: nat, sequence: nat, length: nat, reserved: nat)

  function Described(l: Layout, sequence: nat): Descriptor
    requires l.ring > 0
  {
    Descriptor(l.Offset(sequence), sequence, l.size, 0)
  }

  predicate ValidDescriptor(l: Layout, d: Descriptor, sequence: nat)
    requires l.ring > 0
  {
    d.sequence == sequence && d.length == l.size && d.reserved == 0 && d.offset == l.Offset(sequence)
  }

  lemma Apart(i: nat, j: nat, stride: nat)
    ensures 0 <= i * stride
    ensures i < j ==> i * stride + stride <= j * stride
  {
    assert (j - i) * stride == j * stride - i * stride;
    MulBounds(j - i, stride);
  }

  /** Frames of different slots do not overlap and stay inside the mapping. */
  lemma FramesApart(l: Layout, s: nat, t: nat)
    requires l.Valid()
    ensures l.payload <= l.Offset(s) && l.Offset(s) + l.size <= l.payload + l.ring * l.stride
    ensures l.Index(s) < l.Index(t) ==> l.Offset(s) + l.size <= l.Offset(t)
  {
    hide PowerOfTwo;
    Apart(l.Index(s), l.ring, l.stride);
    Apart(l.Index(s), l.Index(t), l.stride);
  }

  function Low8(x: nat): byte { x % 256 }

  /** The `n` low bytes of `x`, least significant first. */
  function LittleEndian(x: nat, n: nat): (b: seq<byte>)
    ensures |b| == n
  {
    if n == 0 then [] else [Low8(x)] + LittleEndian(x / 256, n - 1)
  }

  const PREFIX: seq<byte> := [2, 0, 0, 0, 0, 2, 2, 0, 0, 0, 0, 1, 0x88, 0xb5, 0x53, 0x4d]

  function FrameHeader(size: nat, sequence: nat): (h: seq<byte>)
    ensures |h| == 32
  {
    PREFIX + LittleEndian(sequence, 8) + LittleEndian(size, 4) + [0, 0, 0, 0]
  }

  /** The test frame for a sequence number. */
  function Generated(size: nat, sequence: nat): (f: seq<byte>)
    requires size >= 32
    ensures |f| == size && f[..32] == FrameHeader(size, sequence)
    ensures forall k :: 32 <= k < size ==> f[k] == Low8(k - 32 + sequence)
  {
    var rest := seq<byte>(size - 32, i requires 0 <= i => Low8(i + sequence));
    FrameHeader(size, sequence) + rest
  }

  predicate ValidFrame(f: seq<byte>, sequence: nat, full: bool) {
    && |f| >= 32
    && f[..16] == PREFIX
    && f[16..24] == LittleEndian(sequence, 8)
    && f[24..28] == LittleEndian(|f|, 4)
    && f[28..32] == [0, 0, 0, 0]
    && (full ==> forall k :: 32 <= k < |f| ==> f[k] == Low8(k - 32 + sequence))
  }

  /** Checking everything accepts exactly the generated frame; checking headers accepts it too. */
  lemma ValidIffGenerated(f: seq<byte>, sequence: nat)
    requires |f| >= 32
    ensures ValidFrame(f, sequence, true) <==> f == Generated(|f|, sequence)
    ensures ValidFrame(f, sequence, true) ==> ValidFrame(f, sequence, false)
  {
    hide LittleEndian, Low8, Generated;
    HeaderParts(f, sequence);
    var g := Generated(|f|, sequence);
    if ValidFrame(f, sequence, true) {
      forall k | 0 <= k < |f| ensures f[k] == g[k] {
        if k < 32 { assert f[k] == f[..32][k] && g[k] == g[..32][k]; }
      }
    }
  }

  lemma HeaderParts(f: seq<byte>, sequence: nat)
    requires |f| >= 32
    ensures f[..32] == FrameHeader(|f|, sequence)
       <==> f[..16] == PREFIX && f[16..24] == LittleEndian(sequence, 8)
            && f[24..28] == LittleEndian(|f|, 4) && f[28..32] == [0, 0, 0, 0]
  {
    hide LittleEndian;
    var h := FrameHeader(|f|, sequence);
    assert h[..16] == PREFIX && h[16..24] == LittleEndian(sequence, 8);
    assert h[24..28] == LittleEndian(|f|, 4) && h[28..32] == [0, 0, 0, 0];
    var x := f[..32];
    assert x[..16] == f[..16] && x[16..24] == f[16..24] && x[24..28] == f[24..28] && x[28..32] == f[28..32];
    assert x == x[..16] + x[16..24] + x[24..28] + x[28..32];
    assert h == h[..16] + h[16..24] + h[24..28] + h[28..32];
  }

  method Generate(frame: array<byte>, sequence: nat)
    requires frame.Length >= 32
    modifies frame
    ensures frame[..] == Generated(frame.Length, sequence)
  {
    hide LittleEndian, Low8;
    var header := FrameHeader(frame.Length, sequence);
    for k := 32 to frame.Length
      invariant forall j :: 32 <= j < k ==> frame[j] == Low8(j - 32 + sequence)
    {
      frame[k] := Low8(k - 32 + sequence);
    }
    for k := 0 to 32
      invariant forall j :: 0 <= j < k ==> frame[j] == header[j]
      invariant forall j :: 32 <= j < frame.Length ==> frame[j] == Low8(j - 32 + sequence)
    {
      frame[k] := header[k];
    }
    SameFrame(frame[..], sequence);
  }

  lemma SameFrame(f: seq<byte>, sequence: nat)
    requires |f| >= 32
    requires forall k :: 0 <= k < 32 ==> f[k] == FrameHeader(|f|, sequence)[k]
    requires forall k :: 32 <= k < |f| ==> f[k] == Low8(k - 32 + sequence)
    ensures f == Generated(|f|, sequence)
  {
    hide FrameHeader, Low8, Generated;
    var g := Generated(|f|, sequence);
    forall k | 0 <= k < |f| ensures f[k] == g[k] {
      if k < 32 { assert g[k] == g[..32][k]; }
    }
  }

  // ---------------------------------------------------------------- the two processes

  datatype ProducerAt =
    | PAwait | POpen | PLook | PLoad | PFrame | PDescriptor | PPublish | PDrain | PAwaitDone | PEnd | PBroken

  datatype ConsumerAt =
    | CArm | CAwait | CLook | CLoad | CDescriptor | CFrame | CComplete | CReport | CEnd | CBroken

  /** `peer` is the copy of the other side's counter; `i` of the `n` packets of a batch are done. */
  datatype Producer = Producer(at: ProducerAt, phase: nat, cursor: nat, peer: nat, n: nat, i: nat)

  /** `received` is history. */
  datatype Consumer = Consumer(at: ConsumerAt, phase: nat, cursor: nat, peer: nat, n: nat, i: nat,
                               received: seq<seq<byte>>)

  datatype Shared = Shared(
    published: nat, completed: nat, phase: nat, armed: nat, phaseDone: nat,
    descriptors: seq<Descriptor>, frames: seq<seq<byte>>)

  datatype System = System(p: Producer, c: Consumer, m: Shared)

  /** A batch of at most `available` packets, or nothing to do yet. */
  function Batch(l: Layout, available: int, left: int): (n: nat)
    ensures 0 <= available && 0 <= left ==> n <= available && n <= left && n <= l.batch
  {
    Max(Min(Min(available, l.batch), left), 0)
  }

  function BeginWrite(p: Producer, n: nat): Producer {
    if n == 0 then p.(at := PLook) else p.(at := PFrame, n := n, i := 0)
  }

  function ProducerStep(s: System, l: Layout): System
    requires l.ring > 0 && l.size >= 32 && |s.m.frames| == |s.m.descriptors| == l.ring
  {
    var p, m := s.p, s.m;
    var sequence := p.cursor + p.i;
    match p.at
    case PAwait => if m.armed == p.phase then s.(p := p.(at := POpen)) else s
    case POpen => s.(p := p.(at := PLook), m := m.(phase := p.phase))
    case PLook =>
      if p.cursor >= l.End(p.phase) then s.(p := p.(at := PDrain))
      else
        var available := l.ring - (p.cursor - p.peer);
        if available < l.batch then s.(p := p.(at := PLoad))
        else s.(p := BeginWrite(p, Batch(l, available, l.End(p.phase) - p.cursor)))
    case PLoad =>
      if m.completed > p.cursor || p.cursor - m.completed > l.ring then s.(p := p.(at := PBroken))
      else
        s.(p := BeginWrite(p.(peer := m.completed),
                           Batch(l, l.ring - (p.cursor - m.completed), l.End(p.phase) - p.cursor)))
    case PFrame =>
      s.(p := p.(at := PDescriptor), m := m.(frames := m.frames[l.Index(sequence) := Generated(l.size, sequence)]))
    case PDescriptor =>
      s.(p := p.(at := if p.i + 1 < p.n then PFrame else PPublish, i := p.i + 1),
         m := m.(descriptors := m.descriptors[l.Index(sequence) := Described(l, sequence)]))
    case PPublish =>
      s.(p := p.(at := PLook, cursor := p.cursor + p.n), m := m.(published := p.cursor + p.n))
    case PDrain => if m.completed == l.End(p.phase) then s.(p := p.(at := PAwaitDone)) else s
    case PAwaitDone =>
      if m.phaseDone != p.phase then s
      else if p.phase == 1 then s.(p := Producer(PAwait, 2, l.Start(2), l.Start(2), 0, 0))
      else s.(p := p.(at := PEnd))
    case _ => s
  }

  function BeginRead(c: Consumer, n: nat): Consumer {
    if n == 0 then c.(at := CLook) else c.(at := CDescriptor, n := n, i := 0)
  }

  function ConsumerStep(s: System, l: Layout, full: bool): System
    requires l.ring > 0 && |s.m.frames| == |s.m.descriptors| == l.ring
  {
    var c, m := s.c, s.m;
    var sequence := c.cursor + c.i;
    match c.at
    case CArm => s.(c := c.(at := CAwait), m := m.(armed := c.phase))
    case CAwait => if m.phase == c.phase then s.(c := c.(at := CLook)) else s
    case CLook =>
      if c.cursor >= l.End(c.phase) then s.(c := c.(at := CReport))
      else if c.peer - c.cursor < l.batch then s.(c := c.(at := CLoad))
      else s.(c := BeginRead(c, Batch(l, c.peer - c.cursor, l.End(c.phase) - c.cursor)))
    case CLoad =>
      if m.published < c.cursor || m.published - c.cursor > l.ring || m.published > l.End(c.phase)
      then s.(c := c.(at := CBroken))
      else s.(c := BeginRead(c.(peer := m.published), Batch(l, m.published - c.cursor, l.End(c.phase) - c.cursor)))
    case CDescriptor =>
      if ValidDescriptor(l, m.descriptors[l.Index(sequence)], sequence) then s.(c := c.(at := CFrame))
      else s.(c := c.(at := CBroken))
    case CFrame =>
      var frame := m.frames[l.Index(sequence)];
      if ValidFrame(frame, sequence, full)
      then s.(c := c.(at := if c.i + 1 < c.n then CDescriptor else CComplete, i := c.i + 1,
                      received := c.received + [frame]))
      else s.(c := c.(at := CBroken))
    case CComplete =>
      s.(c := c.(at := CLook, cursor := c.cursor + c.n), m := m.(completed := c.cursor + c.n))
    case CReport =>
      s.(c := if c.phase == 1 then c.(at := CArm, phase := 2, cursor := l.Start(2), peer := l.Start(2), n := 0, i := 0)
              else c.(at := CEnd),
         m := m.(phaseDone := c.phase))
    case _ => s
  }

  /** Freshly mapped memory of any content; both processes start with the warm-up phase. */
  function Initial(l: Layout, descriptors: seq<Descriptor>, frames: seq<seq<byte>>): System {
    System(Producer(PAwait, 1, 0, 0, 0, 0), Consumer(CArm, 1, 0, 0, 0, 0, []),
           Shared(0, 0, 0, 0, 0, descriptors, frames))
  }

  // ---------------------------------------------------------------- what every step keeps

  /** How many packets of the current batch are already in memory, and already read. */
  function Written(p: Producer): nat { if p.at.PFrame? || p.at.PDescriptor? || p.at.PPublish? then p.i else 0 }

  function ReadSoFar(c: Consumer): nat { if c.at.CDescriptor? || c.at.CFrame? || c.at.CComplete? then c.i else 0 }

  predicate ProducerInv(p: Producer, completed: nat, l: Layout) {
    && (p.phase == 1 || p.phase == 2) && !p.at.PBroken?
    && l.Start(p.phase) <= p.cursor <= l.End(p.phase)
    && p.peer <= completed <= p.cursor <= p.peer + l.ring
    && (p.at.PFrame? || p.at.PDescriptor? ==> p.i < p.n)
    && (p.at.PPublish? ==> p.i == p.n)
    && (p.at.PFrame? || p.at.PDescriptor? || p.at.PPublish? ==>
          p.cursor + p.n <= p.peer + l.ring && p.cursor + p.n <= l.End(p.phase))
    && (p.at.PDrain? || p.at.PAwaitDone? || p.at.PEnd? ==> p.cursor == l.End(p.phase))
    && (p.at.PAwaitDone? || p.at.PEnd? ==> completed == l.End(p.phase))
    && (p.at.PEnd? ==> p.phase == 2)
  }

  predicate ConsumerInv(c: Consumer, published: nat, l: Layout) {
    && (c.phase == 1 || c.phase == 2) && !c.at.CBroken?
    && l.Start(c.phase) <= c.cursor <= l.End(c.phase)
    && c.cursor <= c.peer <= published
    && (c.at.CDescriptor? || c.at.CFrame? ==> c.i < c.n)
    && (c.at.CComplete? ==> c.i == c.n)
    && (c.at.CDescriptor? || c.at.CFrame? || c.at.CComplete? ==>
          c.cursor + c.n <= c.peer && c.cursor + c.n <= l.End(c.phase))
    && (c.at.CReport? || c.at.CEnd? ==> c.cursor == l.End(c.phase))
    && (c.at.CEnd? ==> c.phase == 2)
  }

  /** The slot of `s` holds what was written for `s`. */
  predicate Filled(descriptors: seq<Descriptor>, frames: seq<seq<byte>>, l: Layout, s: nat)
    requires l.ring > 0 && l.size >= 32 && |frames| == |descriptors| == l.ring
  {
    descriptors[l.Index(s)] == Described(l, s) && frames[l.Index(s)] == Generated(l.size, s)
  }

  predicate SlotsInv(s: System, l: Layout)
    requires l.ring > 0 && l.size >= 32 && |s.m.frames| == |s.m.descriptors| == l.ring
  {
    && (forall k: nat :: s.c.cursor <= k < s.p.cursor + Written(s.p) ==> Filled(s.m.descriptors, s.m.frames, l, k))
    && (s.p.at.PDescriptor? ==> s.m.frames[l.Index(s.p.cursor + s.p.i)] == Generated(l.size, s.p.cursor + s.p.i))
  }

  predicate ReceivedInv(c: Consumer, l: Layout)
    requires l.size >= 32
  {
    && |c.received| == c.cursor + ReadSoFar(c)
    && forall k :: 0 <= k < |c.received| ==> c.received[k] == Generated(l.size, k)
  }

  predicate Counters(s: System, l: Layout) {
    && l.Valid() && |s.m.frames| == |s.m.descriptors| == l.ring
    && s.m.published == s.p.cursor && s.m.completed == s.c.cursor
    && ProducerInv(s.p, s.c.cursor, l) && ConsumerInv(s.c, s.p.cursor, l)
    && s.p.phase <= s.c.phase
    && s.m.phaseDone == (if s.c.at.CEnd? then 2 else s.c.phase - 1)
  }

  predicate Inv(s: System, l: Layout) { Counters(s, l) && SlotsInv(s, l) && ReceivedInv(s.c, l) }

  lemma InitialInv(l: Layout, descriptors: seq<Descriptor>, frames: seq<seq<byte>>)
    requires l.Valid() && |descriptors| == |frames| == l.ring
    ensures Inv(Initial(l, descriptors, frames), l)
  {}

  /** The producer never touches a slot that the consumer has not given back. */
  lemma NeverOverwrites(s: System, l: Layout, k: nat)
    requires Counters(s, l) && (s.p.at.PFrame? || s.p.at.PDescriptor?) && s.c.cursor <= k < s.p.cursor + s.p.i
    ensures l.Index(k) != l.Index(s.p.cursor + s.p.i)
  {
    hide PowerOfTwo;
    SlotsDiffer(k, s.p.cursor + s.p.i, l.ring);
  }

  /** What a producer step does to the counters, apart from the slots. */
  predicate ProducerMoved(s: System, t: System, l: Layout) {
    && Counters(t, l) && t.c == s.c
    && (!s.p.at.PFrame? && !s.p.at.PDescriptor? ==>
          && t.m.descriptors == s.m.descriptors && t.m.frames == s.m.frames && !t.p.at.PDescriptor?
          && t.p.cursor + Written(t.p) == s.p.cursor + Written(s.p))
  }

  lemma ProducerPlans(s: System, l: Layout)
    requires Counters(s, l) && (s.p.at.PLook? || s.p.at.PLoad?)
    ensures ProducerMoved(s, ProducerStep(s, l), l)
  {
    hide PowerOfTwo, Generated, Described, Layout.Index, ConsumerInv, Batch;
  }

  lemma ProducerPublishes(s: System, l: Layout)
    requires Counters(s, l) && (s.p.at.PFrame? || s.p.at.PDescriptor? || s.p.at.PPublish?)
    ensures ProducerMoved(s, ProducerStep(s, l), l)
  {
    hide PowerOfTwo, Generated, Described, Layout.Index, ConsumerInv;
    ConsumerAfterProducer(s.c, s.p.cursor, s.p.cursor + s.p.n, l);
  }

  lemma ProducerWaits(s: System, l: Layout)
    requires Counters(s, l)
    requires !s.p.at.PLook? && !s.p.at.PLoad? && !s.p.at.PFrame? && !s.p.at.PDescriptor? && !s.p.at.PPublish?
    ensures ProducerMoved(s, ProducerStep(s, l), l)
  {
    hide PowerOfTwo, Generated, Described, Layout.Index;
  }

  lemma ConsumerAfterProducer(c: Consumer, published: nat, more: nat, l: Layout)
    requires ConsumerInv(c, published, l) && published <= more
    ensures ConsumerInv(c, more, l)
  {}

  lemma ProducerCounters(s: System, l: Layout)
    requires Counters(s, l)
    ensures ProducerMoved(s, ProducerStep(s, l), l)
  {
    hide ProducerStep, ProducerMoved, ProducerInv, ConsumerInv, PowerOfTwo;
    if s.p.at.PLook? || s.p.at.PLoad? {
      ProducerPlans(s, l);
    } else if s.p.at.PFrame? || s.p.at.PDescriptor? || s.p.at.PPublish? {
      ProducerPublishes(s, l);
    } else {
      ProducerWaits(s, l);
    }
  }

  lemma SlotsSame(s: System, t: System, l: Layout)
    requires Counters(s, l) && Counters(t, l) && SlotsInv(s, l)
    requires t.m.descriptors == s.m.descriptors && t.m.frames == s.m.frames
    requires s.c.cursor <= t.c.cursor && t.p.cursor + Written(t.p) == s.p.cursor + Written(s.p)
    requires t.p.at.PDescriptor? ==> t.p == s.p
    ensures SlotsInv(t, l)
  {
    hide PowerOfTwo, Generated, Filled, ProducerInv, ConsumerInv;
  }

  lemma ProducerKeeps(s: System, l: Layout)
    requires Inv(s, l)
    ensures Inv(ProducerStep(s, l), l)
  {
    hide ProducerStep, ProducerInv, ConsumerInv, SlotsInv, ReceivedInv, PowerOfTwo;
    ProducerCounters(s, l);
    if s.p.at.PFrame? || s.p.at.PDescriptor? {
      ProducerWrites(s, l);
    } else {
      SlotsSame(s, ProducerStep(s, l), l);
    }
  }

  lemma ProducerWrites(s: System, l: Layout)
    requires Counters(s, l) && SlotsInv(s, l) && (s.p.at.PFrame? || s.p.at.PDescriptor?)
    ensures SlotsInv(ProducerStep(s, l), l)
  {
    hide PowerOfTwo, Generated, Described, Layout.Index;
    var q, t := s.p.cursor + s.p.i, ProducerStep(s, l);
    forall k: nat | s.c.cursor <= k < t.p.cursor + Written(t.p) ensures Filled(t.m.descriptors, t.m.frames, l, k) {
      if k < q { NeverOverwrites(s, l, k); assert Filled(s.m.descriptors, s.m.frames, l, k); }
    }
  }

  /** What a consumer step does to the counters and to what has been read. */
  predicate ConsumerMoved(s: System, t: System, l: Layout)
    requires l.ring > 0 && |s.m.frames| == l.ring
  {
    && Counters(t, l)
    && t.p == s.p && t.m.descriptors == s.m.descriptors && t.m.frames == s.m.frames && s.c.cursor <= t.c.cursor
    && t.c.received == (if s.c.at.CFrame? then s.c.received + [s.m.frames[l.Index(s.c.cursor + s.c.i)]]
                        else s.c.received)
    && t.c.cursor + ReadSoFar(t.c) == s.c.cursor + ReadSoFar(s.c) + (if s.c.at.CFrame? then 1 else 0)
  }

  lemma ProducerAfterConsumer(p: Producer, completed: nat, more: nat, l: Layout)
    requires ProducerInv(p, completed, l) && completed <= more <= p.cursor
    ensures ProducerInv(p, more, l)
  {}

  lemma ConsumerPlans(s: System, l: Layout, full: bool)
    requires Counters(s, l) && (s.c.at.CLook? || s.c.at.CLoad?)
    ensures ConsumerMoved(s, ConsumerStep(s, l, full), l)
  {
    hide PowerOfTwo, ValidFrame, ValidDescriptor, Layout.Index, ProducerInv, Batch;
    PublishedInPhase(s, l);
  }

  lemma PublishedInPhase(s: System, l: Layout)
    requires Counters(s, l)
    ensures s.c.cursor <= s.m.published <= l.End(s.c.phase) && s.m.published - s.c.cursor <= l.ring
  {
    hide PowerOfTwo;
  }

  lemma ConsumerReads(s: System, l: Layout, full: bool)
    requires Counters(s, l) && (s.c.at.CDescriptor? || s.c.at.CFrame? || s.c.at.CComplete?)
    requires
      var q := s.c.cursor + s.c.i;
      s.c.at.CComplete?
      || (ValidDescriptor(l, s.m.descriptors[l.Index(q)], q) && ValidFrame(s.m.frames[l.Index(q)], q, full))
    ensures ConsumerMoved(s, ConsumerStep(s, l, full), l)
  {
    hide PowerOfTwo, ValidFrame, ValidDescriptor, Layout.Index, ProducerInv;
    if s.c.at.CComplete? {
      PublishedInPhase(s, l);
      ProducerAfterConsumer(s.p, s.c.cursor, s.c.cursor + s.c.n, l);
    }
  }

  lemma ConsumerWaits(s: System, l: Layout, full: bool)
    requires Counters(s, l)
    requires !s.c.at.CLook? && !s.c.at.CLoad? && !s.c.at.CDescriptor? && !s.c.at.CFrame? && !s.c.at.CComplete?
    ensures ConsumerMoved(s, ConsumerStep(s, l, full), l)
  {
    hide PowerOfTwo, ValidFrame, ValidDescriptor, Layout.Index, ProducerInv;
  }

  lemma ConsumerCounters(s: System, l: Layout, full: bool)
    requires Counters(s, l)
    requires s.c.at.CDescriptor? || s.c.at.CFrame? ==>
               var q := s.c.cursor + s.c.i;
               ValidDescriptor(l, s.m.descriptors[l.Index(q)], q) && ValidFrame(s.m.frames[l.Index(q)], q, full)
    ensures ConsumerMoved(s, ConsumerStep(s, l, full), l)
  {
    hide ConsumerStep, ConsumerMoved, ProducerInv, ConsumerInv, PowerOfTwo, ValidFrame, ValidDescriptor;
    if s.c.at.CLook? || s.c.at.CLoad? {
      ConsumerPlans(s, l, full);
    } else if s.c.at.CDescriptor? || s.c.at.CFrame? || s.c.at.CComplete? {
      ConsumerReads(s, l, full);
    } else {
      ConsumerWaits(s, l, full);
    }
  }

  lemma ConsumerKeeps(s: System, l: Layout, full: bool)
    requires Inv(s, l)
    ensures Inv(ConsumerStep(s, l, full), l)
  {
    hide ConsumerStep, ProducerInv, ConsumerInv, SlotsInv, ValidFrame, ValidDescriptor, Generated, PowerOfTwo;
    if s.c.at.CDescriptor? || s.c.at.CFrame? {
      ReadsWhatWasWritten(s, l, full);
    }
    ConsumerCounters(s, l, full);
    SlotsSame(s, ConsumerStep(s, l, full), l);
  }

  /** Both checks of the consumer succeed, since it reads what was written for its sequence number. */
  lemma ReadsWhatWasWritten(s: System, l: Layout, full: bool)
    requires Inv(s, l) && (s.c.at.CDescriptor? || s.c.at.CFrame?)
    ensures
      var q := s.c.cursor + s.c.i;
      && s.m.frames[l.Index(q)] == Generated(l.size, q)
      && ValidDescriptor(l, s.m.descriptors[l.Index(q)], q) && ValidFrame(s.m.frames[l.Index(q)], q, full)
  {
    hide PowerOfTwo, Generated, ValidFrame, ReceivedInv;
    var q := s.c.cursor + s.c.i;
    assert Filled(s.m.descriptors, s.m.frames, l, q);
    ValidIffGenerated(s.m.frames[l.Index(q)], q);
    if !full { ValidIffGenerated(s.m.frames[l.Index(q)], q); }
  }

  function Run(s: System, schedule: seq<bool>, l: Layout, full: bool): System
    requires l.ring > 0 && l.size >= 32 && |s.m.frames| == |s.m.descriptors| == l.ring
    decreases |schedule|
  {
    if schedule == [] then s
    else Run(if schedule[0] then ProducerStep(s, l) else ConsumerStep(s, l, full), schedule[1..], l, full)
  }

  lemma {:induction false} RunKeeps(s: System, schedule: seq<bool>, l: Layout, full: bool)
    requires Inv(s, l)
    ensures Inv(Run(s, schedule, l, full), l)
    decreases |schedule|
  {
    if schedule != [] {
      assert Run(s, schedule, l, full)
          == Run(if schedule[0] then ProducerStep(s, l) else ConsumerStep(s, l, full), schedule[1..], l, full);
      hide Run, ProducerStep, ConsumerStep;
      if schedule[0] {
        ProducerKeeps(s, l);
        RunKeeps(ProducerStep(s, l), schedule[1..], l, full);
      } else {
        ConsumerKeeps(s, l, full);
        RunKeeps(ConsumerStep(s, l, full), schedule[1..], l, full);
      }
    }
  }

  /** Under every interleaving: the counters stay within a ring of each other, no error is ever
      reported, and the consumer has read exactly the frames generated so far, in order. When the
      consumer is done it has read them all. */
  lemma EveryInterleaving(l: Layout, descriptors: seq<Descriptor>, frames: seq<seq<byte>>, schedule: seq<bool>,
                          full: bool)
    requires l.Valid() && |descriptors| == |frames| == l.ring
    ensures
      var s := Run(Initial(l, descriptors, frames), schedule, l, full);
      && s.m.completed <= s.m.published <= s.m.completed + l.ring
      && !s.p.at.PBroken? && !s.c.at.CBroken?
      && s.m.completed <= |s.c.received| <= s.m.published
      && (forall k :: 0 <= k < |s.c.received| ==> s.c.received[k] == Generated(l.size, k))
      && (s.c.at.CEnd? ==> |s.c.received| == l.warmup + l.packets)
      && (s.p.at.PEnd? ==> s.m.completed == l.warmup + l.packets)
  {
    hide Run, PowerOfTwo, Generated, SlotsInv;
    InitialInv(l, descriptors, frames);
    RunKeeps(Initial(l, descriptors, frames), schedule, l, full);
  }

  // ---------------------------------------------------------------- completion

  /** How the phases of the two sides hang together. */
  predicate Handshake(s: System, l: Layout) {
    && s.m.armed == (if s.c.at.CArm? then s.c.phase - 1 else s.c.phase)
    && s.m.phase == (if s.p.at.PAwait? || s.p.at.POpen? then s.p.phase - 1 else s.p.phase)
    && (!s.c.at.CArm? && !s.c.at.CAwait? ==> s.m.phase == s.c.phase)
    && (s.p.phase < s.c.phase ==>
          && s.p.cursor == l.End(s.p.phase) && s.c.cursor == l.Start(s.c.phase)
          && !s.p.at.PAwait? && !s.p.at.POpen?)
    && (s.p.at.PLoad? ==> s.p.cursor < l.End(s.p.phase))
    && (s.c.at.CLoad? ==> s.c.cursor < l.End(s.c.phase))
  }

  lemma InitialHandshake(l: Layout, descriptors: seq<Descriptor>, frames: seq<seq<byte>>)
    ensures Handshake(Initial(l, descriptors, frames), l)
  {}

  lemma ProducerHandshake(s: System, l: Layout)
    requires Counters(s, l) && Handshake(s, l)
    ensures Handshake(ProducerStep(s, l), l)
  {
    hide PowerOfTwo, Generated, Described, Layout.Index, Batch;
  }

  lemma ConsumerHandshake(s: System, l: Layout, full: bool)
    requires Counters(s, l) && Handshake(s, l)
    ensures Handshake(ConsumerStep(s, l, full), l)
  {
    hide PowerOfTwo, ValidFrame, ValidDescriptor, Layout.Index, Batch;
  }

  lemma {:induction false} RunHandshake(s: System, schedule: seq<bool>, l: Layout, full: bool)
    requires Inv(s, l) && Handshake(s, l)
    ensures Handshake(Run(s, schedule, l, full), l)
    decreases |schedule|
  {
    if schedule != [] {
      assert Run(s, schedule, l, full)
          == Run(if schedule[0] then ProducerStep(s, l) else ConsumerStep(s, l, full), schedule[1..], l, full);
      hide Run, ProducerStep, ConsumerStep, Handshake, SlotsInv, ReceivedInv, PowerOfTwo;
      if schedule[0] {
        ProducerKeeps(s, l);
        ProducerHandshake(s, l);
        RunHandshake(ProducerStep(s, l), schedule[1..], l, full);
      } else {
        ConsumerKeeps(s, l, full);
        ConsumerHandshake(s, l, full);
        RunHandshake(ConsumerStep(s, l, full), schedule[1..], l, full);
      }
    }
  }

  /** A step of the producer would not merely look again. */
  predicate ProducerReady(s: System, l: Layout) {
    match s.p.at
    case PAwait => s.m.armed == s.p.phase
    case PLook => s.p.cursor >= l.End(s.p.phase) || s.p.cursor - s.m.completed < l.ring
    case PLoad => s.p.cursor - s.m.completed < l.ring
    case PDrain => s.m.completed == l.End(s.p.phase)
    case PAwaitDone => s.m.phaseDone == s.p.phase
    case PEnd => false
    case _ => true
  }

  predicate ConsumerReady(s: System, l: Layout) {
    match s.c.at
    case CAwait => s.m.phase == s.c.phase
    case CLook => s.c.cursor >= l.End(s.c.phase) || s.c.cursor < s.m.published
    case CLoad => s.c.cursor < s.m.published
    case CEnd => false
    case _ => true
  }

  /** Unless both have finished, one of them can go on. */
  lemma NoDeadlock(s: System, l: Layout)
    requires Counters(s, l) && Handshake(s, l) && !(s.p.at.PEnd? && s.c.at.CEnd?)
    ensures ProducerReady(s, l) || ConsumerReady(s, l)
  {
    hide PowerOfTwo;
  }

  function ProducerLeft(p: Producer, l: Layout): int {
    100 * (2 - p.phase) + 10 * (l.End(2) - p.cursor - Written(p))
    + match p.at
      case PAwait => 9
      case POpen => 8
      case PPublish => 6
      case PLook => 5
      case PLoad => 4
      case PFrame => 3
      case PDescriptor => 2
      case PDrain => 2
      case PAwaitDone => 1
      case _ => 0
  }

  function ConsumerLeft(c: Consumer, l: Layout): int {
    100 * (2 - c.phase) + 10 * (l.End(2) - c.cursor - ReadSoFar(c))
    + match c.at
      case CArm => 9
      case CAwait => 8
      case CComplete => 5
      case CLook => 4
      case CLoad => 3
      case CDescriptor => 2
      case CFrame => 1
      case CReport => 1
      case _ => 0
  }

  lemma LeftIsNat(s: System, l: Layout)
    requires Counters(s, l)
    ensures ProducerLeft(s.p, l) >= 0 && ConsumerLeft(s.c, l) >= 0
  {
    hide PowerOfTwo;
  }

  lemma ProducerProgress(s: System, l: Layout)
    requires Counters(s, l) && Handshake(s, l) && ProducerReady(s, l)
    ensures ProducerStep(s, l).c == s.c && ProducerLeft(ProducerStep(s, l).p, l) < ProducerLeft(s.p, l)
  {
    hide PowerOfTwo, Generated, Described, Layout.Index, ConsumerInv;
  }

  lemma ConsumerProgress(s: System, l: Layout, full: bool)
    requires Inv(s, l) && Handshake(s, l) && ConsumerReady(s, l)
    ensures ConsumerStep(s, l, full).p == s.p && ConsumerLeft(ConsumerStep(s, l, full).c, l) < ConsumerLeft(s.c, l)
  {
    if s.c.at.CDescriptor? || s.c.at.CFrame? { ReadsWhatWasWritten(s, l, full); }
    PublishedInPhase(s, l);
    hide PowerOfTwo, ValidFrame, ValidDescriptor, Layout.Index, ProducerInv, SlotsInv, ReceivedInv;
  }

  predicate Finished(s: System) { s.p.at.PEnd? && s.c.at.CEnd? }

  /** The transfer can always be completed: whatever has happened so far, some continuation ends both sides, with
      every packet delivered. */
  lemma {:induction false} CanFinish(s: System, l: Layout, full: bool)
    requires Inv(s, l) && Handshake(s, l)
    ensures exists schedule :: Finished(Run(s, schedule, l, full))
    decreases ProducerLeft(s.p, l) + ConsumerLeft(s.c, l)
  {
    LeftIsNat(s, l);
    hide ProducerStep, ConsumerStep, SlotsInv, ReceivedInv, PowerOfTwo, ProducerLeft, ConsumerLeft, Handshake,
         ProducerReady, ConsumerReady, ProducerInv, ConsumerInv;
    if Finished(s) {
      assert Run(s, [], l, full) == s;
    } else {
      NoDeadlock(s, l);
      if ProducerReady(s, l) {
        var t := ProducerStep(s, l);
        ProducerProgress(s, l);
        ProducerKeeps(s, l);
        ProducerHandshake(s, l);
        LeftIsNat(t, l);
        CanFinish(t, l, full);
        var rest :| Finished(Run(t, rest, l, full));
        RunFirst(s, true, rest, l, full);
      } else {
        var t := ConsumerStep(s, l, full);
        ConsumerProgress(s, l, full);
        ConsumerKeeps(s, l, full);
        ConsumerHandshake(s, l, full);
        LeftIsNat(t, l);
        CanFinish(t, l, full);
        var rest :| Finished(Run(t, rest, l, full));
        RunFirst(s, false, rest, l, full);
      }
    }
  }

  lemma RunFirst(s: System, first: bool, rest: seq<bool>, l: Layout, full: bool)
    requires Inv(s, l)
    ensures |ProducerStep(s, l).m.frames| == |ProducerStep(s, l).m.descriptors| == l.ring
    ensures Run(s, [first] + rest, l, full)
         == Run(if first then ProducerStep(s, l) else ConsumerStep(s, l, full), rest, l, full)
  {
    hide PowerOfTwo, Generated, SlotsInv, ReceivedInv, ProducerInv, ConsumerInv;
    assert ([first] + rest)[1..] == rest;
  }

  lemma AlwaysCompletable(l: Layout, descriptors: seq<Descriptor>, frames: seq<seq<byte>>, schedule: seq<bool>,
                          full: bool)
    requires l.Valid() && |descriptors| == |frames| == l.ring
    ensures
      var s := Run(Initial(l, descriptors, frames), schedule, l, full);
      && |s.m.frames| == |s.m.descriptors| == l.ring
      && exists more :: Finished(Run(s, more, l, full))
  {
    hide Run, PowerOfTwo, Generated, SlotsInv, ReceivedInv, Handshake;
    InitialInv(l, descriptors, frames);
    InitialHandshake(l, descriptors, frames);
    RunKeeps(Initial(l, descriptors, frames), schedule, l, full);
    RunHandshake(Initial(l, descriptors, frames), schedule, l, full);
    CanFinish(Run(Initial(l, descriptors, frames), schedule, l, full), l, full);
  }
}
