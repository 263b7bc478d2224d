/** malloc and free of user/umalloc.c, on the headers in memory. */
module Umalloc {
  import opened UmallocState

  /** Block `b`, of `n` units, is in use in `t` and was not in `h`; the other blocks in use are as they
      were, and no unit has come or gone. */
  ghost predicate HandedOut(h: Heap, t: Heap, b: int, n: int) {
    && b !in h.live && t.live == h.live + {b} && b in t.size && t.size[b] == n && t.home.Keys == h.home.Keys
    && forall c :: c in h.live ==> c in h.size && c in t.size && t.size[c] == h.size[c]
  }

  ghost predicate NoRoom(h: Heap, n: int) {
    forall j: nat :: !HasRoom(h, j, n)
  }

  lemma WholeHandedOut(h: Heap, i: nat)
    requires Ok(h) && Coalesced(h) && 0 < i < |h.list|
    ensures LinkOk(h, i) && HandedOut(h, TakeWhole(h, i), h.list[i], h.size[h.list[i]])
  {
    assert LinkOk(h, i) && h.list[i] in h.list;
    assert BlockOk(h, h.list[i]);
    forall c | c in h.live ensures c in h.size {
      assert BlockOk(h, c);
    }
  }

  lemma TailHandedOut(h: Heap, i: nat, n: nat)
    requires Ok(h) && Coalesced(h) && 0 < i < |h.list| && h.list[i] in h.size && 1 <= n < h.size[h.list[i]]
    ensures HandedOut(h, TakeTail(h, i, n), h.list[i] + (h.size[h.list[i]] - n), n)
  {
    TakeTailOk(h, i, n);
    assert h.list[i] in h.list;
    forall c | c in h.live ensures c in h.size {
      assert BlockOk(h, c);
    }
  }

  /** The units that morecore wants. */
  function CoreUnits(nu: nat): (n: nat) {
    if nu < 4096 then 4096 else nu
  }

  /** What sbrk, which takes an int, is told to grow by: nu * sizeof(Header) cut to 32 bits. */
  function SbrkArgument(nu: nat): (n: int) {
    var x := CoreUnits(nu) * 16 % 0x1_0000_0000;
    if x < 0x8000_0000 then x else x - 0x1_0000_0000
  }

  /** For requests that a uint can make, sbrk is asked for all the units exactly below 2 GB; above
      that it is asked to shrink the process, or to grow it by less than two units. */
  lemma SbrkAsksForAll(nu: nat)
    requires nu <= 0x1000_0001
    ensures SbrkArgument(nu) == 16 * CoreUnits(nu) <==> nu < 0x800_0000
    ensures nu >= 0x800_0000 ==> SbrkArgument(nu) < 32
  {
    if nu >= 0x1000_0000 {
      assert CoreUnits(nu) * 16 % 0x1_0000_0000 == nu * 16 - 0x1_0000_0000;
    } else {
      assert CoreUnits(nu) * 16 % 0x1_0000_0000 == CoreUnits(nu) * 16;
    }
  }

  /** Otherwise the block that morecore goes on to add, at the old break `core` (in units), reaches beyond the memory that
      the process then has; and where sbrk was not told to shrink it, the next block, at the new break, begins inside it. */
  lemma WrappedBlock(core: int, nu: nat)
    requires 0x800_0000 <= nu <= 0x1000_0001
    ensures 16 * core + SbrkArgument(nu) < 16 * (core + CoreUnits(nu))
    ensures nu >= 0x1000_0000 ==>
      var core' := core + SbrkArgument(nu) / 16;
      SbrkArgument(nu) % 16 == 0 && core <= core' < core + CoreUnits(nu)
  {
    SbrkAsksForAll(nu);
    if nu >= 0x1000_0000 {
      assert CoreUnits(nu) * 16 % 0x1_0000_0000 == nu * 16 - 0x1_0000_0000;
    }
  }

  class Allocator {
    var next: map<int, int>
    var size: map<int, int>
    var freep: int
    ghost var list: seq<int>
    ghost var live: set<int>
    ghost var home: map<int, int>

    ghost function H(): (h: Heap)
      reads this
    {
      Heap(next, size, freep, list, live, home)
    }

    /** Before the first call of malloc freep is null; after it the free list is one cycle of
        blocks in the order of their addresses, with a gap after each, and freep is one of them. */
    ghost predicate Valid()
      reads this
    {
      if freep == 0 then live == {} && home == map[] else Ok(H()) && Coalesced(H()) && freep in list
    }

    constructor ()
      ensures Valid() && live == {} && home == map[]
    {
      next, size, freep := map[], map[], 0;
      list, live, home := [], {}, map[];
    }

    /** The search of free: the last free block below `bp`. It stops, wherever freep is. */
    method FindPlace(bp: int) returns (p: int, ghost k: nat)
      requires Ok(H()) && freep in list && bp in live
      ensures Place(H(), bp, k) && p == list[k]
    {
      ghost var h := H();
      assert BlockOk(h, bp);
      k := PlaceExists(h, bp, |list|);
      p := freep;
      ghost var i: nat :| i < |list| && list[i] == p;
      assert LinkOk(h, i);
      while !(bp > p && bp < next[p])
        invariant i < |list| && p == list[i] && LinkOk(h, i)
        decreases Steps(|list|, i, k)
      {
        if p >= next[p] && (bp > p || bp < next[p]) {
          break;
        }
        assert i != k;
        p := next[p];
        i := Succ(|list|, i);
        assert LinkOk(h, i);
      }
      assert i == k;
    }
  
    /** The block before `ap` goes back to the free list and joins its neighbours there. */
    method Free(ap: int) returns (ghost k: nat)
      requires Valid() && ap - 1 in live
      modifies this
      ensures Valid() && freep != 0 && GivenBack(old(H()), H(), ap - 1, k)
    {
      var bp := ap - 1;
      ghost var h := H();
      var p;
      p, k := FindPlace(bp);
      Neighbours(h, bp, k);
      ghost var t := FreeResult(h, bp, k);
      if bp + size[bp] == next[p] {
        size := size[bp := size[bp] + size[next[p]]];
        next := next[bp := next[next[p]]];
      } else {
        next := next[bp := next[p]];
      }
      if p + size[p] == bp {
        size := size[p := size[p] + size[bp]];
        next := next[p := next[bp]];
      } else {
        next := next[p := bp];
      }
      freep := p;
      list, live, home := t.list, t.live, t.home;
      assert H() == t;
    }
  
    /** Obtains at least `nu` units at `core`, where sbrk puts them, or none if `core` is -1, and
        adds them to the free list. */
    method Morecore(nu: nat, core: int) returns (p: int, ghost k: nat, ghost got: nat)
      requires Valid() && freep != 0 && nu >= 1 && SbrkArgument(nu) == 16 * CoreUnits(nu)
      requires core == -1 || (core > BASE && forall u :: u in home ==> u < core)
      modifies this
      ensures core == -1 ==> p == 0 && H() == old(H())
      ensures core != -1 ==> Valid() && p == freep && p != 0 && live == old(live) && got >= nu && got >= 4096
      ensures core != -1 ==> forall u :: u in home <==> u in old(home) || core <= u < core + got
      ensures core != -1 ==> forall b :: b in live ==> b in size && b in old(size) && size[b] == old(size)[b]
      ensures core != -1 ==> k < |list| && list[k] == p && (HasRoom(H(), k, nu) || HasRoom(H(), k + 1, nu))
    {
      var n := CoreUnits(nu);
      got, k := n, 0;
      if core == -1 {
        return 0, 0, 0;
      }
      ghost var h := H();
      AddCoreOk(h, core, n);
      ghost var t := AddCore(h, core, n);
      size := size[core := n];
      live, home := live + {core}, home + Units(core, n);
      assert H() == t;
      assert core !in h.live;
      k := Free(core + 1);
      assert live == h.live;
      p := freep;
      assert BlockOk(t, core);
    }
  
    /** malloc has found block `p`, after `prevp`, to be large enough. */
    method Carve(prevp: int, p: int, nunits: nat, ghost i: nat) returns (ap: int)
      requires Valid() && freep != 0 && 0 < i < |list| && list[i] == p && list[i - 1] == prevp && HasRoom(H(), i, nunits) && nunits >= 1
      modifies this
      ensures Valid() && freep != 0 && ap != 0 && HandedOut(old(H()), H(), ap - 1, nunits)
    {
      ghost var h := H();
      assert LinkOk(h, i) && BlockOk(h, p) by { assert p in h.list; }
      if size[p] == nunits {
        TakeWholeOk(h, i);
        WholeHandedOut(h, i);
        ghost var t := TakeWhole(h, i);
        next := next[prevp := next[p]];
        freep := prevp;
        list, live := t.list, t.live;
        assert H() == t;
        assert t.list[i - 1] == prevp;
        ap := p + 1;
      } else {
        TakeTailOk(h, i, nunits);
        TailHandedOut(h, i, nunits);
        ghost var t := TakeTail(h, i, nunits);
        size := size[p := size[p] - nunits];
        var q := p + size[p];
        size := size[q := nunits];
        freep := prevp;
        live, home := t.live, t.home;
        assert H() == t;
        ap := q + 1;
      }
    }

    /** The loop of malloc, once around from freep: the first block that is large enough. */
    method Scan(nunits: nat) returns (found: bool, prevp: int, p: int, ghost i: nat)
      requires Valid() && freep != 0 && nunits >= 1
      ensures found ==> 0 < i < |list| && list[i] == p && list[i - 1] == prevp && HasRoom(H(), i, nunits)
      ensures !found ==> NoRoom(H(), nunits)
    {
      ghost var h := H();
      ghost var f: nat :| f < |list| && list[f] == freep;
      assert LinkOk(h, f) && LinkOk(h, 0);
      prevp, p := freep, next[freep];
      ghost var j: nat := f;
      i := Succ(|list|, f);
      assert LinkOk(h, i);
      while true
        invariant i < |list| && list[i] == p && j < |list| && list[j] == prevp && i == Succ(|list|, j) && LinkOk(h, i)
        invariant forall m: nat :: m < |list| && Steps(|list|, m, f) > Steps(|list|, i, f) ==> !HasRoom(h, m, nunits)
        decreases Steps(|list|, i, f)
      {
        if size[p] >= nunits {
          return true, prevp, p, i;
        }
        if p == freep {
          assert i == f;
          return false, prevp, p, i;
        }
        prevp, p := p, next[p];
        j := i;
        i := Succ(|list|, i);
        assert LinkOk(h, i);
      }
    }

    /** freep and base before the first search. */
    method Init()
      requires Valid()
      modifies this
      ensures Valid() && freep != 0 && live == old(live) && home == old(home)
      ensures forall b :: b in live ==> b in size && b in old(size) && size[b] == old(size)[b]
    {
      ghost var h := H();
      if freep == 0 {
        next, size, freep := next[BASE := BASE], size[BASE := 0], BASE;
        list := [BASE];
        assert LinkOk(H(), 0) && GapAfter(H(), 0);
      } else {
        forall b | b in live ensures b in size {
          assert BlockOk(h, b);
        }
      }
    }

    /** A block for `nbytes` bytes, its header apart. sbrk, if it is called, puts `got` new units at `core`,
        or fails if that is -1. The result is 0 only if it fails and no free block is large enough. If
        `wrapped`, sbrk is called with another amount than the one wanted, and the heap is not followed further. */
    method Malloc(nbytes: nat, core: int) returns (ap: int, wrapped: bool, ghost got: nat)
      requires Valid() && nbytes < 0x1_0000_0000
      requires core == -1 || (core > BASE && forall u :: u in home ==> u < core)
      modifies this
      ensures Valid() && freep != 0
      ensures wrapped <==> ap == 0 && (nbytes + 15) / 16 + 1 >= 0x800_0000
      ensures ap == 0 ==> (core == -1 || wrapped) && live == old(live) && NoRoom(H(), (nbytes + 15) / 16 + 1)
      ensures ap != 0 ==> ap - 1 !in old(live) && live == old(live) + {ap - 1} && ap - 1 in size && size[ap - 1] == (nbytes + 15) / 16 + 1
      ensures forall b :: b in old(live) ==> b in size && b in old(size) && size[b] == old(size)[b]
      ensures forall u :: u in home <==> u in old(home) || core <= u < core + got
      ensures got == 0 || (core != -1 && got >= 4096)
    {
      var nunits := (nbytes + 15) / 16 + 1;
      Init();
      got, wrapped := 0, false;
      var found, prevp, p, i := Scan(nunits);
      if !found {
        SbrkAsksForAll(nunits);
        if SbrkArgument(nunits) != 16 * CoreUnits(nunits) {
          return 0, true, 0;
        }
        var more, k, n := Morecore(nunits, core);
        if more == 0 {
          return 0, false, 0;
        }
        got := n;
        found, prevp, p, i := Scan(nunits);
        assert found;
      }
      ap := Carve(prevp, p, nunits, i);
    }
  }
}
