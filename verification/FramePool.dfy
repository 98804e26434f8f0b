/** The free list of frame indices of `src/device/buffer_pool.rs`. */
module FramePool {
  import opened Prelude

  predicate Distinct(s: seq<nat>) { forall i, j :: 0 <= i < j < |s| ==> s[i] != s[j] }

  predicate Below(s: seq<nat>, n: nat) { forall i :: 0 <= i < |s| ==> s[i] < n }

  function Elements(s: seq<nat>): set<nat> { set x | x in s }

  /** All frame indices. */
  function Range(n: nat): (r: set<nat>)
    ensures forall x: nat :: x in r <==> x < n
    ensures |r| == n
  {
    if n == 0 then {} else Range(n - 1) + {n - 1}
  }

  lemma {:induction false} DistinctSize(s: seq<nat>)
    requires Distinct(s)
    ensures |Elements(s)| == |s|
  {
    if s != [] {
      var init, last := s[..|s| - 1], s[|s| - 1];
      DistinctSize(init);
      assert Elements(s) == Elements(init) + {last};
    }
  }

  lemma SubsetSize(a: set<nat>, b: set<nat>)
    requires a <= b
    ensures |a| <= |b|
  {
    assert b == a + (b - a);
  }

  /** Different frames below `n` are at most `n`: the free list never overflows. */
  lemma Pigeonhole(s: seq<nat>, n: nat)
    requires Distinct(s) && Below(s, n)
    ensures |s| <= n
  {
    DistinctSize(s);
    SubsetSize(Elements(s), Range(n));
  }

  class Pool {
    const list: array<nat>
    var count: nat

    ghost predicate Valid()
      reads this, list
    {
      count <= list.Length && Distinct(list[..count]) && Below(list[..count], list.Length)
    }

    ghost function Contents(): seq<nat>
      requires count <= list.Length
      reads this, list
    {
      list[..count]
    }

    constructor (frames: nat)
      ensures Valid() && fresh(list) && list.Length == frames && count == frames
      ensures Elements(Contents()) == Range(frames)
    {
      list := new nat[frames](i requires 0 <= i < frames => frames - 1 - i);
      count := frames;
      new;
      forall x: nat | x < frames ensures x in list[..count] { assert list[frames - 1 - x] == x; }
    }

    method Alloc() returns (r: Option<nat>)
      requires Valid()
      modifies this
      ensures Valid()
      ensures r.None? <==> old(Contents()) == []
      ensures r.None? ==> Contents() == old(Contents())
      ensures r.Some? ==> old(Contents()) == Contents() + [r.value]
    {
      if count == 0 { return None; }
      r := Some(list[count - 1]);
      count := count - 1;
    }

    method Free(frame: nat)
      requires Valid() && frame < list.Length && frame !in Contents()
      modifies this, list
      ensures Valid() && Contents() == old(Contents()) + [frame]
    {
      Pigeonhole(Contents() + [frame], list.Length);
      list[count] := frame;
      count := count + 1;
    }

    method AllocN(limit: nat) returns (out: seq<nat>)
      requires Valid()
      modifies this
      ensures Valid()
      ensures |out| == Min(limit, |old(Contents())|)
      ensures old(Contents()) == Contents() + out
    {
      var n := if limit <= count then limit else count;
      out := list[count - n..count];
      assert list[..count] == list[..count - n] + out;
      count := count - n;
      assert forall k :: 0 <= k < count ==> Contents()[k] == old(Contents())[k];
    }

    method FreeN(frames: seq<nat>)
      requires Valid() && Distinct(Contents() + frames) && Below(frames, list.Length)
      modifies this, list
      ensures Valid() && Contents() == old(Contents()) + frames
    {
      Pigeonhole(Contents() + frames, list.Length);
      for k := 0 to |frames|
        invariant count == old(count)
        invariant list[..count + k] == old(Contents()) + frames[..k]
      {
        list[count + k] := frames[k];
      }
      count := count + |frames|;
      assert Contents() == old(Contents()) + frames;
    }
  }
}
