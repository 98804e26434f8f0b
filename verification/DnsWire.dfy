/** Names and queries of the DNS codec (`src/dns/wire.rs`). */
module DnsWire {
  import opened Prelude

  /** ASCII bytes. */
  type Text = seq<byte>

  const DOT: byte := 0x2e

  predicate HostByte(c: byte) {
    0x30 <= c <= 0x39 || 0x41 <= c <= 0x5a || 0x61 <= c <= 0x7a || c == 0x2d || c == 0x5f
  }

  predicate HostText(l: Text) { forall i :: 0 <= i < |l| ==> HostByte(l[i]) }

  predicate LabelOk(l: Text) { 1 <= |l| <= 63 && HostText(l) }

  predicate LabelsOk(ls: seq<Text>) { forall i :: 0 <= i < |ls| ==> LabelOk(ls[i]) }

  function Lower(c: byte): byte { if 0x41 <= c <= 0x5a then c + 32 else c }

  // ---------------------------------------------------------------- labels

  function Split(s: Text): (r: seq<Text>)
    ensures |r| >= 1
  {
    if s == [] then [[]]
    else
      var r := Split(s[1..]);
      if s[0] == DOT then [[]] + r else [[s[0]] + r[0]] + r[1..]
  }

  function Join(ls: seq<Text>): Text {
    if ls == [] then [] else if |ls| == 1 then ls[0] else ls[0] + [DOT] + Join(ls[1..])
  }

  lemma JoinCons(x: Text, r: seq<Text>)
    requires r != []
    ensures Join([x] + r) == x + [DOT] + Join(r)
  {
    assert ([x] + r)[1..] == r;
  }

  lemma Regroup(a: Text, b: Text, c: Text, d: Text)
    ensures (a + b) + c + d == a + (b + c + d)
  {}

  lemma JoinHead(c: byte, r: seq<Text>)
    requires r != []
    ensures Join([[c] + r[0]] + r[1..]) == [c] + Join(r)
  {
    var x := [c] + r[0];
    if |r| == 1 {
      assert [x] + r[1..] == [x];
    } else {
      hide Join;
      JoinCons(x, r[1..]);
      JoinCons(r[0], r[1..]);
      assert r == [r[0]] + r[1..];
      Regroup([c], r[0], [DOT], Join(r[1..]));
    }
  }

  lemma {:induction false} JoinSplit(s: Text)
    ensures Join(Split(s)) == s
  {
    if s != [] {
      JoinSplit(s[1..]);
      var r := Split(s[1..]);
      hide Join;
      assert s == [s[0]] + s[1..];
      if s[0] == DOT {
        JoinCons([], r);
        assert [] + [DOT] + Join(r) == [DOT] + Join(r);
      } else {
        JoinHead(s[0], r);
      }
    }
  }

  /** A name of at most 253 bytes has at most 127 labels. */
  lemma {:induction false} LabelCount(ls: seq<Text>)
    requires LabelsOk(ls) && ls != []
    ensures 2 * |ls| - 1 <= |Join(ls)|
  {
    if |ls| > 1 {
      LabelCount(ls[1..]);
    }
  }

  // ---------------------------------------------------------------- writing

  predicate Normal(name: Text) { 0 < |name| <= 253 && LabelsOk(Split(name)) }

  /** Strips a final dot, checks every label and lowers the case. */
  function Normalize(input: Text): Option<Text> {
    var name := if input != [] && input[|input| - 1] == DOT then input[..|input| - 1] else input;
    if Normal(name) then Some(Lowered(name)) else None
  }

  function Lowered(s: Text): (r: Text)
    ensures |r| == |s| && forall i :: 0 <= i < |s| ==> r[i] == Lower(s[i])
  {
    if s == [] then [] else [Lower(s[0])] + Lowered(s[1..])
  }

  function LoweredAll(ls: seq<Text>): (r: seq<Text>)
    ensures |r| == |ls| && forall i :: 0 <= i < |ls| ==> r[i] == Lowered(ls[i])
  {
    if ls == [] then [] else [Lowered(ls[0])] + LoweredAll(ls[1..])
  }

  lemma LoweredCons(c: byte, s: Text)
    ensures Lowered([c] + s) == [Lower(c)] + Lowered(s)
  {
    assert ([c] + s)[1..] == s;
  }

  lemma LoweredAllCons(x: Text, r: seq<Text>)
    ensures LoweredAll([x] + r) == [Lowered(x)] + LoweredAll(r)
  {
    assert ([x] + r)[1..] == r;
  }

  /** Lower case keeps the labels and what they may contain. */
  lemma {:induction false} LoweredSplit(s: Text)
    ensures Split(Lowered(s)) == LoweredAll(Split(s))
  {
    if s == [] {
      assert LoweredAll([[]]) == [[]];
    } else {
      LoweredSplit(s[1..]);
      var r := Split(s[1..]);
      var l := Lowered(s);
      assert l == [Lower(s[0])] + Lowered(s[1..]) && l[1..] == Lowered(s[1..]);
      hide Lowered, LoweredAll;
      if s[0] == DOT {
        LoweredAllCons([], r);
        assert Lowered([]) == [];
      } else {
        LoweredCons(s[0], r[0]);
        LoweredAllCons([s[0]] + r[0], r[1..]);
        assert LoweredAll(r) == [Lowered(r[0])] + LoweredAll(r[1..]) by {
          LoweredAllCons(r[0], r[1..]);
          assert r == [r[0]] + r[1..];
        }
      }
    }
  }

  lemma LoweredOk(l: Text)
    requires LabelOk(l)
    ensures LabelOk(Lowered(l))
  {
    hide Lowered;
  }

  /** What is normalized is normal. */
  lemma NormalizeNormal(input: Text)
    ensures Normalize(input).Some? ==> Normal(Normalize(input).value)
  {
    var name := if input != [] && input[|input| - 1] == DOT then input[..|input| - 1] else input;
    LoweredSplit(name);
    hide Split, Lowered, LoweredAll, LabelOk;
    if Normal(name) {
      var ls, ms := Split(name), Split(Lowered(name));
      forall i | 0 <= i < |ms| ensures LabelOk(ms[i]) {
        assert ms[i] == Lowered(ls[i]);
        LoweredOk(ls[i]);
      }
    }
  }

  /** A normalized name is the name given but for a final dot and for case: no capital letter is left and every other
      byte stands. Normalizing again changes nothing. */
  lemma NormalizeMeans(input: Text)
    ensures
      var name := if input != [] && input[|input| - 1] == 0x2e then input[..|input| - 1] else input;
      var r := Normalize(input);
      && (r.Some? <==> Normal(name))
      && (r.Some? ==>
            && |r.value| == |name|
            && (forall i :: 0 <= i < |name| ==>
                  && !(0x41 <= r.value[i] <= 0x5a)
                  && r.value[i] == if 0x41 <= name[i] <= 0x5a then name[i] + 0x20 else name[i])
            && Normalize(r.value) == r)
  {
    var r := Normalize(input);
    if r.Some? {
      NormalizeNormal(input);
      NoFinalDot(r.value);
      hide Normal;
      assert Lowered(r.value) == r.value;
    }
  }

  lemma NoFinalDot(name: Text)
    requires Normal(name)
    ensures name[|name| - 1] != DOT
  {
    hide Split;
    FinalLabel(name);
    assert LabelOk(Last(Split(name)));
  }

  lemma {:induction false} FinalLabel(s: Text)
    ensures s != [] && s[|s| - 1] == DOT ==> |Split(s)| >= 2 && Last(Split(s)) == []
  {
    if |s| == 1 {
      assert s[1..] == [];
    } else if s != [] {
      FinalLabel(s[1..]);
    }
  }

  lemma SplitCons(c: byte, s: Text)
    ensures Split([c] + s) == if c == DOT then [[]] + Split(s) else [[c] + Split(s)[0]] + Split(s)[1..]
  {
    assert ([c] + s)[1..] == s;
  }

  /** Labels split at every dot. */
  lemma {:induction false} SplitDot(a: Text, b: Text)
    ensures Split(a + [DOT] + b) == Split(a) + Split(b)
  {
    if a == [] {
      assert a + [DOT] + b == [DOT] + b && Split(a) == [[]];
      SplitCons(DOT, b);
    } else {
      var c, rest := a[0], a[1..];
      assert a == [c] + rest && a + [DOT] + b == [c] + (rest + [DOT] + b);
      SplitDot(rest, b);
      SplitCons(c, rest);
      SplitCons(c, rest + [DOT] + b);
      hide Split;
      HeadFirst(c, Split(rest), Split(b));
    }
  }

  lemma HeadFirst(c: byte, x: seq<Text>, y: seq<Text>)
    requires x != []
    ensures [[]] + (x + y) == ([[]] + x) + y
    ensures [[c] + (x + y)[0]] + (x + y)[1..] == ([[c] + x[0]] + x[1..]) + y
  {}

  lemma {:induction false} JoinAppend(a: seq<Text>, b: seq<Text>)
    requires a != [] && b != []
    ensures Join(a + b) == Join(a) + [DOT] + Join(b)
  {
    if |a| == 1 {
      assert a + b == [a[0]] + b;
      JoinCons(a[0], b);
    } else {
      JoinAppend(a[1..], b);
      assert a + b == [a[0]] + (a[1..] + b);
      JoinCons(a[0], a[1..] + b);
      assert a == [a[0]] + a[1..];
      JoinCons(a[0], a[1..]);
      hide Join;
      Regroup(a[0] + [DOT], Join(a[1..]), [DOT], Join(b));
    }
  }

  /** A label behind its length. */
  function Prefixed(l: Text): (b: seq<byte>)
    requires LabelOk(l)
    ensures |b| == 1 + |l| && b[0] == |l| && b[1..] == l
  {
    var n: byte := |l|;
    [n] + l
  }

  function Encode(ls: seq<Text>): seq<byte>
    requires LabelsOk(ls)
  {
    if ls == [] then [] else Prefixed(ls[0]) + Encode(ls[1..])
  }

  function Query(id: u16, name: Text): seq<byte>
    requires Normal(name)
  {
    [id / 256, id % 256, 1, 0, 0, 1, 0, 0, 0, 0, 0, 0] + (Encode(Split(name)) + [0, 0, 1, 0, 1])
  }

  // ---------------------------------------------------------------- reading

  function Word14(b: seq<byte>, at: nat): nat
    requires at + 2 <= |b|
  {
    b[at] as int % 64 * 256 + b[at + 1]
  }

  function Dotted(out: Text, piece: Text): Text { if out == [] then piece else out + [DOT] + piece }

  /** Reads a possibly compressed name; `steps` bounds labels and jumps together. */
  function ReadName(b: seq<byte>, at: nat, end: Option<nat>, out: Text, steps: nat): Option<(Text, nat)>
    decreases steps
  {
    if steps == 0 || at >= |b| then None
    else if b[at] >= 0xc0 then
      if at + 2 > |b| || Word14(b, at) < 12 || Word14(b, at) >= at then None
      else ReadName(b, Word14(b, at), if end.Some? then end else Some(at + 2), out, steps - 1)
    else if b[at] == 0 then Some((out, if end.Some? then end.value else at + 1))
    else if b[at] > 63 || at + 1 + b[at] > |b| then None
    else
      var piece := b[at + 1..at + 1 + b[at]];
      var more := Dotted(out, piece);
      if !HostText(piece) || |more| > 253 then None
      else ReadName(b, at + 1 + b[at], end, more, steps - 1)
  }

  /** The loop of the source. */
  method ParseName(b: seq<byte>, start: nat) returns (r: Option<(Text, nat)>)
    ensures r == ReadName(b, start, None, [], 128)
  {
    hide HostText, ReadName, Dotted;
    var at: nat, end: Option<nat>, out: Text := start, None, [];
    for k := 0 to 128
      invariant ReadName(b, at, end, out, 128 - k) == ReadName(b, start, None, [], 128)
    {
      ReadUnfold(b, at, end, out, 128 - k);
      if at >= |b| { return None; }
      var length := b[at];
      if length >= 0xc0 {
        if at + 2 > |b| { return None; }
        var target := Word14(b, at);
        if target < 12 || target >= at { return None; }
        if end.None? { end := Some(at + 2); }
        at := target;
      } else if length == 0 {
        return Some((out, if end.Some? then end.value else at + 1));
      } else {
        if length > 63 || at + 1 + length > |b| { return None; }
        var piece := b[at + 1..at + 1 + length];
        var more := Dotted(out, piece);
        var ok := HostBytes(piece);
        if !ok || |more| > 253 { return None; }
        out := more;
        at := at + 1 + length;
      }
    }
    ReadUnfold(b, at, end, out, 0);
    r := None;
  }

  method HostBytes(piece: seq<byte>) returns (ok: bool)
    ensures ok <==> HostText(piece)
  {
    hide HostByte;
    ok := true;
    for i := 0 to |piece|
      invariant ok <==> forall j :: 0 <= j < i ==> HostByte(piece[j])
    {
      if !HostByte(piece[i]) { ok := false; }
    }
  }

  /** One step of reading. */
  lemma ReadUnfold(b: seq<byte>, at: nat, end: Option<nat>, out: Text, steps: nat)
    ensures steps == 0 || at >= |b| ==> ReadName(b, at, end, out, steps) == None
    ensures steps > 0 && at < |b| && b[at] >= 0xc0 ==>
              ReadName(b, at, end, out, steps)
                == if at + 2 > |b| || Word14(b, at) < 12 || Word14(b, at) >= at then None
                   else ReadName(b, Word14(b, at), if end.Some? then end else Some(at + 2), out, steps - 1)
    ensures steps > 0 && at < |b| && b[at] == 0 ==>
              ReadName(b, at, end, out, steps) == Some((out, if end.Some? then end.value else at + 1))
    ensures steps > 0 && at < |b| && 0 < b[at] < 0xc0 ==>
              ReadName(b, at, end, out, steps)
                == if b[at] > 63 || at + 1 + b[at] > |b| then None
                   else
                     var piece := b[at + 1..at + 1 + b[at]];
                     var more := Dotted(out, piece);
                     if !HostText(piece) || |more| > 253 then None
                     else ReadName(b, at + 1 + b[at], end, more, steps - 1)
  {
    hide HostText, Dotted;
  }

  // ---------------------------------------------------------------- round trip

  function Extended(out: Text, ls: seq<Text>): Text
    decreases |ls|
  {
    if ls == [] then out else Extended(Dotted(out, ls[0]), ls[1..])
  }

  lemma {:induction false} ExtendedJoin(out: Text, ls: seq<Text>)
    requires LabelsOk(ls) && ls != []
    ensures Extended(out, ls) == Dotted(out, Join(ls))
    decreases |ls|
  {
    if |ls| > 1 {
      ExtendedJoin(Dotted(out, ls[0]), ls[1..]);
      var rest := Join(ls[1..]);
      if out == [] {
        assert Dotted(ls[0], rest) == ls[0] + [DOT] + rest;
      } else {
        assert out + [DOT] + ls[0] + [DOT] + rest == out + [DOT] + (ls[0] + [DOT] + rest);
      }
    } else {
      assert ls[1..] == [];
    }
  }

  lemma {:induction false} ExtendedGrows(out: Text, ls: seq<Text>)
    ensures |out| <= |Extended(out, ls)|
    decreases |ls|
  {
    if ls != [] {
      ExtendedGrows(Dotted(out, ls[0]), ls[1..]);
    }
  }

  /** The labels are encoded in `b` from `at` on, with the end mark behind them. */
  predicate EncodedAt(b: seq<byte>, at: nat, ls: seq<Text>)
    decreases |ls|
  {
    if ls == [] then at < |b| && b[at] == 0
    else
      && at + 1 + |ls[0]| <= |b| && b[at] == |ls[0]| && b[at + 1..at + 1 + |ls[0]|] == ls[0]
      && EncodedAt(b, at + 1 + |ls[0]|, ls[1..])
  }

  lemma Suffix(b: seq<byte>, at: nat, x: seq<byte>, y: seq<byte>)
    requires at <= |b| && b[at..] == x + y
    ensures at + |x| <= |b| && b[at..at + |x|] == x && b[at + |x|..] == y
  {
    assert |b| - at == |x| + |y|;
    assert b[at..at + |x|] == b[at..][..|x|];
    assert b[at + |x|..] == b[at..][|x|..];
  }

  lemma LabelHere(b: seq<byte>, at: nat, l: Text, rest: seq<byte>)
    requires LabelOk(l) && at <= |b| && b[at..] == Prefixed(l) + rest
    ensures at + 1 + |l| <= |b| && b[at] == |l| && b[at + 1..at + 1 + |l|] == l && b[at + 1 + |l|..] == rest
    ensures |Prefixed(l)| == 1 + |l|
  {
    hide HostByte;
    var x := Prefixed(l);
    Suffix(b, at, x, rest);
    var y := b[at..at + |x|];
    assert b[at] == y[0] && b[at + 1..at + |x|] == y[1..];
  }

  lemma {:induction false} Located(b: seq<byte>, at: nat, ls: seq<Text>, tail: seq<byte>)
    requires LabelsOk(ls) && at <= |b| && b[at..] == Encode(ls) + tail && tail != [] && tail[0] == 0
    ensures EncodedAt(b, at, ls)
    decreases |ls|
  {
    hide Encode, Prefixed, LabelOk, LabelsOk, EncodedAt;
    if ls == [] {
      LocatedEnd(b, at, tail);
    } else {
      EncodeParts(ls);
      var x, rest := Prefixed(ls[0]), Encode(ls[1..]);
      assert x + rest + tail == x + (rest + tail);
      LabelHere(b, at, ls[0], rest + tail);
      Located(b, at + |x|, ls[1..], tail);
      EncodedNext(b, at, ls);
    }
  }

  lemma LocatedEnd(b: seq<byte>, at: nat, tail: seq<byte>)
    requires at <= |b| && b[at..] == Encode([]) + tail && tail != [] && tail[0] == 0
    ensures EncodedAt(b, at, [])
  {
    assert b[at..] == tail && b[at] == b[at..][0];
  }

  lemma EncodeParts(ls: seq<Text>)
    requires LabelsOk(ls) && ls != []
    ensures Encode(ls) == Prefixed(ls[0]) + Encode(ls[1..]) && LabelOk(ls[0]) && LabelsOk(ls[1..])
  {
    hide Prefixed, LabelOk;
  }

  lemma EncodedNext(b: seq<byte>, at: nat, ls: seq<Text>)
    requires ls != [] && at + 1 + |ls[0]| <= |b| && b[at] == |ls[0]| && b[at + 1..at + 1 + |ls[0]|] == ls[0]
    requires EncodedAt(b, at + 1 + |ls[0]|, ls[1..])
    ensures EncodedAt(b, at, ls)
  {}

  /** Reading label by label follows the writing, as long as one step is left for the end. */
  lemma {:induction false} ReadsEncoded(b: seq<byte>, at: nat, ls: seq<Text>, out: Text, steps: nat)
    requires LabelsOk(ls) && EncodedAt(b, at, ls) && |Extended(out, ls)| <= 253 && |ls| < steps
    ensures ReadName(b, at, None, out, steps) == Some((Extended(out, ls), at + |Encode(ls)| + 1))
    decreases |ls|
  {
    hide ReadName, LabelOk, LabelsOk, Encode, Extended, EncodedAt, Dotted;
    if ls == [] {
      EncodedEnd(b, at, out);
      ReadEnd(b, at, out, steps);
    } else {
      EncodedHere(b, at, ls);
      ExtendedStep(out, ls);
      ReadStep(b, at, ls[0], out, steps);
      ReadsEncoded(b, at + 1 + |ls[0]|, ls[1..], Dotted(out, ls[0]), steps - 1);
    }
  }

  lemma EncodedEnd(b: seq<byte>, at: nat, out: Text)
    requires EncodedAt(b, at, [])
    ensures at < |b| && b[at] == 0 && Encode([]) == [] && Extended(out, []) == out
  {}

  lemma EncodedHere(b: seq<byte>, at: nat, ls: seq<Text>)
    requires ls != [] && LabelsOk(ls) && EncodedAt(b, at, ls)
    ensures LabelOk(ls[0]) && LabelsOk(ls[1..]) && |Encode(ls)| == 1 + |ls[0]| + |Encode(ls[1..])|
    ensures at + 1 + |ls[0]| <= |b| && b[at] == |ls[0]| && b[at + 1..at + 1 + |ls[0]|] == ls[0]
    ensures EncodedAt(b, at + 1 + |ls[0]|, ls[1..])
  {
    hide LabelOk;
  }

  lemma ExtendedStep(out: Text, ls: seq<Text>)
    requires ls != []
    ensures Extended(out, ls) == Extended(Dotted(out, ls[0]), ls[1..])
    ensures |Dotted(out, ls[0])| <= |Extended(out, ls)|
  {
    hide Dotted;
    ExtendedGrows(Dotted(out, ls[0]), ls[1..]);
  }

  lemma ReadEnd(b: seq<byte>, at: nat, out: Text, steps: nat)
    requires at < |b| && b[at] == 0 && steps > 0
    ensures ReadName(b, at, None, out, steps) == Some((out, at + 1))
  {}

  lemma ReadStep(b: seq<byte>, at: nat, l: Text, out: Text, steps: nat)
    requires LabelOk(l) && at + 1 + |l| <= |b| && b[at] == |l| && b[at + 1..at + 1 + |l|] == l
    requires |Dotted(out, l)| <= 253 && steps > 0
    ensures ReadName(b, at, None, out, steps) == ReadName(b, at + 1 + |l|, None, Dotted(out, l), steps - 1)
  {}

  /** Every normal name survives the trip through a query: the bound of 128 steps never rejects one. */
  lemma QueryRoundTrip(id: u16, name: Text)
    requires Normal(name)
    ensures ReadName(Query(id, name), 12, None, [], 128) == Some((name, |Query(id, name)| - 4))
  {
    hide Split, Join, Encode, ReadName, Extended, EncodedAt, LabelsOk, Query;
    var ls := Split(name);
    JoinSplit(name);
    LabelCount(ls);
    ExtendedJoin([], ls);
    var b := Query(id, name);
    QueryTail(id, name);
    Located(b, 12, ls, [0, 0, 1, 0, 1]);
    assert |b[12..]| == |Encode(ls)| + 5;
    ReadsEncoded(b, 12, ls, [], 128);
  }

  /** The query of section 4.1 of RFC 1035: a header that asks one question and wants recursion, the labels of the
      name each behind its length, an empty label, and the type and class of an IPv4 address. */
  lemma QueryLayout(id: u16, name: Text)
    requires Normal(name)
    ensures
      var b := Query(id, name);
      var end := |b| - 5;
      && 12 <= end && 256 * b[0] as int + b[1] == id && b[2] == 1 && b[3] == 0 && b[4] == 0 && b[5] == 1
      && (forall i :: 6 <= i < 12 ==> b[i] == 0)
      && EncodedAt(b, 12, Split(name))
      && b[end] == 0 && b[end + 1] == 0 && b[end + 2] == 1 && b[end + 3] == 0 && b[end + 4] == 1
  {
    hide Split, Encode, EncodedAt;
    var b := Query(id, name);
    QueryTail(id, name);
    Located(b, 12, Split(name), [0, 0, 1, 0, 1]);
    var e := Encode(Split(name));
    assert |b| == 12 + |e| + 5 && b[12..] == e + [0, 0, 1, 0, 1];
    assert b[12 + |e|..] == b[12..][|e|..] == [0, 0, 1, 0, 1];
  }

  lemma QueryTail(id: u16, name: Text)
    requires Normal(name)
    ensures |Query(id, name)| >= 12 && Query(id, name)[12..] == Encode(Split(name)) + [0, 0, 1, 0, 1]
  {
    hide Split, Encode;
  }

  // ---------------------------------------------------------------- compressed names

  /** The labels that a position spells, through jumps to earlier positions, within `steps`. */
  function Spelling(b: seq<byte>, at: nat, steps: nat): (r: Option<seq<Text>>)
    ensures r.Some? ==> LabelsOk(r.value)
    decreases steps
  {
    if steps == 0 || at >= |b| then None
    else if b[at] >= 0xc0 then
      if at + 2 > |b| || !(12 <= Word14(b, at) < at) then None else Spelling(b, Word14(b, at), steps - 1)
    else if b[at] == 0 then Some([])
    else if at + 1 + b[at] > |b| || !LabelOk(b[at + 1..at + 1 + b[at]]) then None
    else
      var rest := Spelling(b, at + 1 + b[at], steps - 1);
      if rest.None? then None else Some([b[at + 1..at + 1 + b[at]]] + rest.value)
  }

  /** Where the text of a name ends: behind its first jump, or else behind its end mark. */
  function EndOf(b: seq<byte>, at: nat, steps: nat): nat
    decreases steps
  {
    if steps == 0 || at >= |b| then at
    else if b[at] >= 0xc0 then at + 2
    else if b[at] == 0 then at + 1
    else EndOf(b, at + 1 + b[at], steps - 1)
  }

  lemma {:induction false} SpellingEnds(b: seq<byte>, at: nat, steps: nat)
    requires Spelling(b, at, steps).Some?
    ensures at < EndOf(b, at, steps) <= |b|
    decreases steps
  {
    if 0 < b[at] < 0xc0 {
      SpellingEnds(b, at + 1 + b[at], steps - 1);
    }
  }

  /** What is read of a name that goes on at `at`. */
  function ReadAs(b: seq<byte>, at: nat, end: Option<nat>, out: Text, steps: nat): Option<(Text, nat)> {
    var ls := Spelling(b, at, steps);
    if ls.None? || (ls.value != [] && |Extended(out, ls.value)| > 253) then None
    else Some((Extended(out, ls.value), if end.Some? then end.value else EndOf(b, at, steps)))
  }

  lemma {:induction false} ReadIsSpelling(b: seq<byte>, at: nat, end: Option<nat>, out: Text, steps: nat)
    ensures ReadName(b, at, end, out, steps) == ReadAs(b, at, end, out, steps)
    decreases steps
  {
    if steps > 0 && at < |b| {
      hide HostByte;
      if b[at] >= 0xc0 {
        if at + 2 <= |b| && 12 <= Word14(b, at) < at {
          ReadIsSpelling(b, Word14(b, at), if end.Some? then end else Some(at + 2), out, steps - 1);
        }
      } else if 0 < b[at] <= 63 && at + 1 + b[at] <= |b| {
        ReadLabel(b, at, end, out, steps);
      }
    }
  }

  lemma {:induction false} ReadLabel(b: seq<byte>, at: nat, end: Option<nat>, out: Text, steps: nat)
    requires steps > 0 && at < |b| && 0 < b[at] <= 63 && at + 1 + b[at] <= |b|
    ensures ReadName(b, at, end, out, steps) == ReadAs(b, at, end, out, steps)
    decreases steps, 0
  {
    var next, piece := at + 1 + b[at], b[at + 1..at + 1 + b[at]];
    var more := Dotted(out, piece);
    ReadIsSpelling(b, next, end, more, steps - 1);
    var rest := Spelling(b, next, steps - 1);
    if LabelOk(piece) && rest.Some? {
      var ls := [piece] + rest.value;
      assert ls[1..] == rest.value && Spelling(b, at, steps) == Some(ls);
      ExtendedGrows(more, rest.value);
      assert Extended(out, ls) == Extended(more, rest.value);
    }
  }

  /** A name, compressed or not, is read exactly if it spells labels within 128 steps that make at most
      253 bytes, and then as those labels joined by dots; its text lies inside the message. */
  lemma ParseNameMeans(b: seq<byte>, start: nat)
    ensures
      var r := ReadName(b, start, None, [], 128);
      var ls := Spelling(b, start, 128);
      && (r.Some? <==> ls.Some? && |Join(ls.value)| <= 253)
      && (r.Some? ==> r.value.0 == Join(ls.value) && |r.value.0| <= 253
                      && start < r.value.1 == EndOf(b, start, 128) <= |b|)
  {
    hide ReadName, Spelling, Extended, EndOf;
    ReadIsSpelling(b, start, None, [], 128);
    var ls := Spelling(b, start, 128);
    if ls.Some? {
      SpellingEnds(b, start, 128);
      if ls.value == [] { ExtendedNone([]); } else { ExtendedJoin([], ls.value); }
    }
  }

  lemma ExtendedNone(out: Text)
    ensures Extended(out, []) == out
  {}
}
