/** The descriptors of the virtio disk driver, kernel/virtio_disk.c: which are free, and the chains
    of those in use (section 2.6 of Virtio 1.1). */
module Virtio {
  import opened Finite

  const NUM := 8

  /** What a descriptor may point to: a request header, a buffer's data or a status byte. */
  datatype Addr = Null | Header(i: int) | Data(b: int) | Status(i: int)

  /** VRING_DESC_F_NEXT is bit 0 of `flags`, VRING_DESC_F_WRITE is bit 1. */
  datatype Desc = Desc(addr: Addr, len: int, flags: int, next: int)

  const F_NEXT := 1
  const F_WRITE := 2

  const ZERO: Desc := Desc(Null, 0, 0, 0)

  predicate HasNext(d: Desc) {
    d.flags % 2 == 1
  }

  function FreeSet(free: seq<bool>): (r: set<int>) {
    set i | 0 <= i < |free| && free[i]
  }

  function Elems(ids: seq<int>): (r: set<int>) {
    set x | x in ids
  }

  predicate Distinct(ids: seq<int>) {
    forall i, j :: 0 <= i < j < |ids| ==> ids[i] != ids[j]
  }

  lemma {:induction false} DistinctSize(ids: seq<int>)
    requires Distinct(ids)
    ensures |Elems(ids)| == |ids|
  {
    if ids != [] {
      var last := |ids| - 1;
      DistinctSize(ids[..last]);
      assert Elems(ids) == Elems(ids[..last]) + {ids[last]};
    } else {
      assert Elems(ids) == {};
    }
  }

  /** `chain` is a list of descriptors linked by their next fields. */
  predicate Linked(desc: seq<Desc>, chain: seq<int>) {
    && chain != [] && (forall k :: 0 <= k < |chain| ==> 0 <= chain[k] < |desc|)
    && (forall k :: 0 <= k < |chain| - 1 ==> HasNext(desc[chain[k]]) && desc[chain[k]].next == chain[k + 1])
    && !HasNext(desc[chain[|chain| - 1]])
  }

  lemma TakeOne(chain: seq<int>, n: nat)
    requires n < |chain|
    ensures forall k :: k in chain[..n + 1] <==> k in chain[..n] || k == chain[n]
  {
    assert chain[..n + 1] == chain[..n] + [chain[n]];
  }

  class Queue {
    const desc: array<Desc>
    const free: array<bool>

    ghost predicate Valid()
      reads this, desc, free
    {
      desc.Length == free.Length == NUM && forall i :: 0 <= i < NUM && free[i] ==> desc[i] == ZERO
    }

    /** All descriptors start out unused. */
    constructor ()
      ensures Valid() && fresh(desc) && fresh(free) && forall i :: 0 <= i < NUM ==> free[i]
    {
      desc := new Desc[8](_ => ZERO);
      free := new bool[8](_ => true);
    }

    /** Takes the first free descriptor; -1 if there is none. */
    method AllocDesc() returns (i: int)
      requires Valid()
      modifies free
      ensures Valid()
      ensures i == -1 ==> free[..] == old(free[..]) && forall k :: 0 <= k < NUM ==> !free[k]
      ensures i != -1 ==> 0 <= i < NUM && old(free[i]) && free[..] == old(free[..])[i := false]
      ensures forall k :: 0 <= k < i ==> !free[k]
    {
      i := 0;
      while i < NUM
        invariant 0 <= i <= NUM && free[..] == old(free[..]) && forall k :: 0 <= k < i ==> !free[k]
      {
        if free[i] {
          free[i] := false;
          return;
        }
        i := i + 1;
      }
      i := -1;
    }

    method FreeDesc(i: int)
      requires Valid() && 0 <= i < NUM && !free[i]   // no "free_desc 1", no "free_desc 2"
      modifies free, desc
      ensures Valid() && free[..] == old(free[..])[i := true] && desc[..] == old(desc[..])[i := ZERO]
    {
      desc[i] := ZERO;
      free[i] := true;
    }

    /** The loop that undoes alloc3_desc: `idx[..n]` become free again. */
    method FreeAll(idx: array<int>, n: int)
      requires Valid() && 0 <= n <= idx.Length && Distinct(idx[..n])
      requires forall k :: 0 <= k < n ==> 0 <= idx[k] < NUM && !free[idx[k]] && desc[idx[k]] == ZERO
      modifies free, desc
      ensures Valid() && desc[..] == old(desc[..])
      ensures forall k :: 0 <= k < NUM ==> free[k] == (old(free[k]) || k in idx[..n])
    {
      var j := 0;
      while j < n
        invariant 0 <= j <= n && Valid() && desc[..] == old(desc[..]) && idx[..n] == old(idx[..n])
        invariant forall k :: 0 <= k < NUM ==> free[k] == (old(free[k]) || k in idx[..j])
      {
        assert idx[j] !in idx[..j] by {
          assert forall k :: 0 <= k < j ==> idx[..n][k] != idx[..n][j];
        }
        FreeDesc(idx[j]);
        assert idx[..j + 1] == idx[..j] + [idx[j]];
        assert desc[..] == old(desc[..]);
        j := j + 1;
      }
    }

    /** Three free descriptors, or -1 and nothing has changed. It fails exactly when fewer than
        three are free. */
    method Alloc3Desc(idx: array<int>) returns (r: int)
      requires Valid() && idx.Length == 3
      modifies free, desc, idx
      ensures Valid() && desc[..] == old(desc[..])
      ensures r == if |FreeSet(old(free[..]))| >= 3 then 0 else -1
      ensures r == 0 ==> Distinct(idx[..]) && forall k :: 0 <= k < 3 ==> 0 <= idx[k] < NUM && old(free[..])[idx[k]]
      ensures r == 0 ==> forall k :: 0 <= k < NUM ==> free[k] == (old(free[k]) && k !in idx[..])
      ensures r != 0 ==> free[..] == old(free[..])
    {
      ghost var was := free[..];
      var i := 0;
      while i < 3
        invariant 0 <= i <= 3 && Valid() && desc[..] == old(desc[..])
        invariant Distinct(idx[..i]) && forall k :: 0 <= k < i ==> 0 <= idx[k] < NUM && was[idx[k]]
        invariant forall k :: 0 <= k < NUM ==> free[k] == (was[k] && k !in idx[..i])
      {
        ghost var ids := idx[..i];
        var d := AllocDesc();
        idx[i] := d;
        if d < 0 {
          assert idx[..i] == ids;
          assert FreeSet(was) <= Elems(ids);
          DistinctSize(ids);
          SubsetSize(FreeSet(was), Elems(ids));
          FreeAll(idx, i);
          assert free[..] == was;
          return -1;
        }
        assert idx[..i + 1] == ids + [d];
        i := i + 1;
      }
      assert idx[..3] == idx[..];
      DistinctSize(idx[..]);
      SubsetSize(Elems(idx[..]), FreeSet(was));
      r := 0;
    }

    /** Frees the chain that starts at `i`: exactly its descriptors, and it gets to the end. */
    method FreeChain(i: int, ghost chain: seq<int>)
      requires Valid() && Linked(desc[..], chain) && Distinct(chain) && chain[0] == i
      requires forall k :: 0 <= k < |chain| ==> !free[chain[k]]
      modifies free, desc
      ensures Valid()
      ensures forall k :: 0 <= k < NUM ==> free[k] == (old(free[k]) || k in chain)
      ensures forall k :: 0 <= k < NUM ==> desc[k] == if k in chain then ZERO else old(desc[k])
    {
      var d := i;
      ghost var n := 0;
      while true
        invariant 0 <= n < |chain| && d == chain[n] && Valid()
        invariant forall k :: 0 <= k < NUM ==> free[k] == (old(free[k]) || k in chain[..n])
        invariant forall k :: 0 <= k < NUM ==> desc[k] == if k in chain[..n] then ZERO else old(desc[k])
        decreases |chain| - n
      {
        assert chain[n] !in chain[..n];
        var flag, nxt := desc[d].flags, desc[d].next;
        assert desc[d] == old(desc[..])[chain[n]];
        FreeDesc(d);
        TakeOne(chain, n);
        n := n + 1;
        if flag % 2 == 1 {
          d := nxt;
        } else {
          assert chain[..n] == chain;
          break;
        }
      }
    }
  }
}
