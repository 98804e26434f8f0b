/** The packet queues of the Ethernet adapter (`src/net/interface.rs`) as sequences. */
module EthernetQueues {
  import opened Prelude

  type Address = nat

  /** `serial` counts accepted packets; a broadcast packet has no next hop. */
  datatype Packet = Packet(serial: nat, hop: Option<Address>)

  /** The packets of one next hop, in order. */
  function Line(s: seq<Packet>, h: Option<Address>): seq<Packet> {
    if s == [] then []
    else if s[0].hop == h then [s[0]] + Line(s[1..], h)
    else Line(s[1..], h)
  }

  predicate Among(p: Packet, hs: set<Address>) { p.hop.Some? && p.hop.value in hs }

  /** The packets whose next hop is among `hs`, and the others. */
  function Only(s: seq<Packet>, hs: set<Address>): seq<Packet> {
    if s == [] then []
    else if Among(s[0], hs) then [s[0]] + Only(s[1..], hs)
    else Only(s[1..], hs)
  }

  function Except(s: seq<Packet>, hs: set<Address>): seq<Packet> {
    if s == [] then []
    else if Among(s[0], hs) then Except(s[1..], hs)
    else [s[0]] + Except(s[1..], hs)
  }

  predicate Increasing(s: seq<Packet>) { forall i, j :: 0 <= i < j < |s| ==> s[i].serial < s[j].serial }

  lemma {:induction false} LineConcat(a: seq<Packet>, b: seq<Packet>, h: Option<Address>)
    ensures Line(a + b, h) == Line(a, h) + Line(b, h)
  {
    if a == [] {
      assert a + b == b;
    } else {
      assert (a + b)[1..] == a[1..] + b;
      LineConcat(a[1..], b, h);
    }
  }

  lemma LineCons(x: Packet, s: seq<Packet>, h: Option<Address>)
    ensures Line([x] + s, h) == if x.hop == h then [x] + Line(s, h) else Line(s, h)
  {
    assert ([x] + s)[1..] == s;
  }

  lemma {:induction false} LineOnly(s: seq<Packet>, hs: set<Address>, h: Option<Address>)
    ensures Line(Only(s, hs), h) == if h.Some? && h.value in hs then Line(s, h) else []
    ensures Line(Except(s, hs), h) == if h.Some? && h.value in hs then [] else Line(s, h)
  {
    if s != [] {
      LineOnly(s[1..], hs, h);
      LineCons(s[0], Only(s[1..], hs), h);
      LineCons(s[0], Except(s[1..], hs), h);
    }
  }

  lemma {:induction false} SplitAppend(s: seq<Packet>, x: Packet, hs: set<Address>)
    ensures Only(s + [x], hs) == if Among(x, hs) then Only(s, hs) + [x] else Only(s, hs)
    ensures Except(s + [x], hs) == if Among(x, hs) then Except(s, hs) else Except(s, hs) + [x]
  {
    if s == [] {
      assert (s + [x])[1..] == [];
    } else {
      assert (s + [x])[1..] == s[1..] + [x];
      SplitAppend(s[1..], x, hs);
    }
  }

  lemma {:induction false} ExceptTwice(s: seq<Packet>, a: set<Address>, b: set<Address>)
    ensures Except(Except(s, a), b) == Except(s, a + b)
  {
    if s != [] {
      ExceptTwice(s[1..], a, b);
      if !Among(s[0], a) {
        var rest := Except(s[1..], a);
        assert ([s[0]] + rest)[1..] == rest;
      }
    }
  }

  lemma {:induction false} ExceptNone(s: seq<Packet>)
    ensures Except(s, {}) == s
  {
    if s != [] {
      ExceptNone(s[1..]);
    }
  }

  lemma {:induction false} SplitSizes(s: seq<Packet>, hs: set<Address>)
    ensures |Only(s, hs)| + |Except(s, hs)| == |s|
  {
    if s != [] {
      SplitSizes(s[1..], hs);
    }
  }

  lemma {:induction false} SplitMembers(s: seq<Packet>, hs: set<Address>)
    ensures forall i :: 0 <= i < |Except(s, hs)| ==>
              Except(s, hs)[i] in s && !Among(Except(s, hs)[i], hs)
    ensures forall i :: 0 <= i < |Only(s, hs)| ==> Only(s, hs)[i] in s
  {
    if s != [] {
      SplitMembers(s[1..], hs);
      assert forall p :: p in s[1..] ==> p in s;
    }
  }

  lemma {:induction false} LineMembers(s: seq<Packet>, h: Option<Address>)
    ensures forall i :: 0 <= i < |Line(s, h)| ==> Line(s, h)[i] in s && Line(s, h)[i].hop == h
  {
    if s != [] {
      LineMembers(s[1..], h);
      assert forall p :: p in s[1..] ==> p in s;
    }
  }

  /** A queue without packets for `h` contributes nothing to its line. */
  lemma {:induction false} LineAbsent(s: seq<Packet>, h: Option<Address>)
    requires forall i :: 0 <= i < |s| ==> s[i].hop != h
    ensures Line(s, h) == []
  {
    if s != [] {
      LineAbsent(s[1..], h);
    }
  }

  lemma LineOne(p: Packet, h: Option<Address>)
    ensures Line([p], h) == if p.hop == h then [p] else []
  {
    assert [p][1..] == [];
  }

  // ---------------------------------------------------------------- order within a line

  /** Packets of the same next hop leave in the order in which they were accepted. */
  ghost predicate InLine(sent: seq<Packet>, ready: seq<Packet>, pending: seq<Packet>) {
    forall h :: Increasing(Line(sent + ready + pending, h))
  }

  lemma Lines(sent: seq<Packet>, ready: seq<Packet>, pending: seq<Packet>, h: Option<Address>)
    ensures Line(sent + ready + pending, h) == Line(sent, h) + Line(ready, h) + Line(pending, h)
  {
    LineConcat(sent + ready, pending, h);
    LineConcat(sent, ready, h);
  }

  /** Resolved packets overtake only packets of other next hops. */
  lemma ReleaseInLine(sent: seq<Packet>, ready: seq<Packet>, pending: seq<Packet>, hs: set<Address>)
    requires InLine(sent, ready, pending)
    ensures InLine(sent, ready + Only(pending, hs), Except(pending, hs))
  {
    hide Line, Only, Except, Increasing;
    forall h ensures Increasing(Line(sent + (ready + Only(pending, hs)) + Except(pending, hs), h)) {
      Lines(sent, ready, pending, h);
      Lines(sent, ready + Only(pending, hs), Except(pending, hs), h);
      LineConcat(ready, Only(pending, hs), h);
      LineOnly(pending, hs, h);
      var a, b := Line(sent, h), Line(ready, h);
      assert a + (b + Line(Only(pending, hs), h)) + Line(Except(pending, hs), h) == a + b + Line(pending, h);
    }
  }

  lemma SubmitInLine(sent: seq<Packet>, ready: seq<Packet>, pending: seq<Packet>, n: nat)
    requires InLine(sent, ready, pending) && n <= |ready|
    ensures InLine(sent + ready[..n], ready[n..], pending)
  {
    assert sent + ready[..n] + ready[n..] + pending == sent + ready + pending by {
      assert ready == ready[..n] + ready[n..];
    }
    hide Line, Increasing;
  }

  lemma DropInLine(sent: seq<Packet>, ready: seq<Packet>, pending: seq<Packet>, hs: set<Address>)
    requires InLine(sent, ready, pending)
    ensures InLine(sent, ready, Except(pending, hs))
  {
    hide Line, Only, Except;
    forall h ensures Increasing(Line(sent + ready + Except(pending, hs), h)) {
      Lines(sent, ready, pending, h);
      Lines(sent, ready, Except(pending, hs), h);
      LineOnly(pending, hs, h);
      PrefixIncreasing(Line(sent, h) + Line(ready, h), Line(pending, h));
    }
  }

  lemma PrefixIncreasing(a: seq<Packet>, b: seq<Packet>)
    requires Increasing(a + b)
    ensures Increasing(a) && a + [] == a
  {
    forall i, j | 0 <= i < j < |a| ensures a[i].serial < a[j].serial {
      assert (a + b)[i] == a[i] && (a + b)[j] == a[j];
    }
  }

  lemma DiscardInLine(sent: seq<Packet>, ready: seq<Packet>, pending: seq<Packet>)
    requires InLine(sent, ready, pending)
    ensures InLine(sent, [], [])
  {
    hide Line;
    forall h ensures Increasing(Line(sent + [] + [], h)) {
      assert sent + [] + [] == sent;
      Lines(sent, ready, pending, h);
      assert Line(sent, h) + Line(ready, h) + Line(pending, h) == Line(sent, h) + (Line(ready, h) + Line(pending, h));
      PrefixIncreasing(Line(sent, h), Line(ready, h) + Line(pending, h));
    }
  }

  /** A newly accepted packet joins the end of its line, whichever queue it enters. */
  lemma AcceptInLine(sent: seq<Packet>, ready: seq<Packet>, pending: seq<Packet>, p: Packet, direct: bool)
    requires InLine(sent, ready, pending)
    requires forall q :: q in sent + ready + pending ==> q.serial < p.serial
    requires direct ==> forall i :: 0 <= i < |pending| ==> pending[i].hop != p.hop
    ensures if direct then InLine(sent, ready + [p], pending) else InLine(sent, ready, pending + [p])
  {
    hide Line;
    var r, w := if direct then ready + [p] else ready, if direct then pending else pending + [p];
    forall h ensures Increasing(Line(sent + r + w, h)) {
      Lines(sent, ready, pending, h);
      Lines(sent, r, w, h);
      LineOne(p, h);
      if direct { LineConcat(ready, [p], h); } else { LineConcat(pending, [p], h); }
      if direct && p.hop == h { LineAbsent(pending, h); }
      var line := Line(sent + ready + pending, h);
      LineMembers(sent + ready + pending, h);
      assert Line(sent + r + w, h) == if p.hop == h then line + [p] else line;
    }
  }
}
