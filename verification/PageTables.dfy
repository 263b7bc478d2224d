/** kalloc and kfree of kernel/kalloc.c, and the page-table operations of kernel/vm.c, on
    one page table that they build in physical memory. */
module PageTables {
  import opened VmState

  /** The place of an entry; Null is a null pte_t pointer. */
  datatype Slot = Null | At(page: int, index: int)

  /** The page-table page walk is at. */
  predicate AtLevel(s: Vm, v: int, level: int, table: int) {
    match level
    case 2 => table == s.root
    case 1 => Index2(v) in s.mid && table == s.mid[Index2(v)]
    case _ => v / 512 in s.low && table == s.low[v / 512]
  }

  predicate HasLevel(s: Vm, v: int, level: int) {
    match level
    case 2 => true
    case 1 => Index2(v) in s.mid
    case _ => v / 512 in s.low
  }

  /** PX(level, va). */
  function Index(level: int, v: int): (i: int) {
    match level
    case 2 => Index2(v)
    case 1 => Index1(v)
    case _ => Index0(v)
  }

  /** The entry walk looks at leads to the next level, or is empty. */
  lemma NextEntry(s: Vm, v: int, level: int, table: int)
    requires Ok(s) && Rooted(s) && 0 <= v < MAXPAGE && 1 <= level <= 2 && AtLevel(s, v, level, table)
    ensures table in s.kind && 0 <= table < |s.mem| && 0 <= Index(level, v) < 512 && |s.mem[table]| == 512
    ensures var e := s.mem[table][Index(level, v)];
      if IsValid(e) then AtLevel(s, v, level - 1, PageOf(e)) && PageOf(e) != 0 else !HasLevel(s, v, level - 1)
  {
    Indices(v, v);
    if level == 2 {
      assert Is(s, table, Root) && CellOk(s, table, Index2(v));
      if Index2(v) in s.mid {
        EntryParts(s.mid[Index2(v)], 1);
      }
    } else {
      assert Is(s, table, Mid(Index2(v))) && CellOk(s, table, Index1(v));
      if v / 512 in s.low {
        EntryParts(s.low[v / 512], 1);
      }
    }
  }

  /** walk hangs page `f` into the table on the way to `v`. */
  function AddTable(s: Vm, v: int, level: int, f: int): (t: Vm)
    requires 0 <= f < |s.mem| && 0 <= s.root < |s.mem| && 0 <= Index2(v) < |s.mem[s.root]|
    requires level == 1 ==> v / 512 / 512 in s.mid && 0 <= s.mid[v / 512 / 512] < |s.mem| && |s.mem[s.mid[v / 512 / 512]]| == 512
    requires 1 <= level <= 2
  {
    if level == 2 then AddMid(s, Index2(v), f) else AddLow(s, v / 512, f)
  }

  lemma AddTableOk(s: Vm, v: int, level: int, table: int)
    requires Ok(s) && Rooted(s) && |s.free| > 0 && 0 <= v < MAXPAGE && 1 <= level <= 2
    requires AtLevel(s, v, level, table) && !HasLevel(s, v, level - 1)
    ensures var f := s.free[|s.free| - 1];
      && Is(s, f, FreeAt(|s.free| - 1)) && Is(s, s.root, Root) && 0 <= Index2(v) < 256 && v / 512 / 512 == Index2(v) && f != table
      && Shape(s) && (level == 1 ==> Index2(v) in s.mid && Is(s, s.mid[Index2(v)], Mid(Index2(v))))
      && var t := AddTable(Alloc(s, Filled(0)), v, level, f);
      && Ok(t) && Rooted(t) && Grown(s, t) && AtLevel(t, v, level - 1, f)
  {
    Indices(v, v);
    AllocOk(s, Filled(0));
    assert Is(s, s.root, Root);
    if level == 2 {
      GrownMid(s, Index2(v));
    } else {
      assert Is(s, s.mid[Index2(v)], Mid(Index2(v)));
      GrownLow(s, v / 512);
    }
  }

  class AddressSpace {
    var mem: seq<Page>
    var freelist: int
    var root: int
    ghost var free: seq<int>
    ghost var mid: map<int, int>
    ghost var low: map<int, int>
    ghost var leaf: map<int, int>
    ghost var kind: map<int, Kind>

    ghost function S(): (s: Vm)
      reads this
    {
      Vm(mem, freelist, free, root, mid, low, leaf, kind)
    }

    /** kinit: memory of `stop` pages, those from `start` on free. */
    constructor (start: nat, stop: nat)
      requires 0 < start <= stop
      ensures Ok(S()) && NoTable(S()) && |mem| == stop
      ensures forall f :: f in kind <==> start <= f < stop
      ensures forall f :: f in kind ==> kind[f].FreeAt?
    {
      mem := seq(stop, _ => Filled(0));
      freelist, root := 0, 0;
      free := [];
      mid, low, leaf := map[], map[], map[];
      kind := HeldPages(start, stop);
      new;
      var p := start;
      while p < stop
        invariant start <= p <= stop && Ok(S()) && NoTable(S()) && |mem| == stop
        invariant forall f :: f in kind <==> start <= f < stop
        invariant forall f :: f in kind ==> if f < p then kind[f].FreeAt? else kind[f] == Held
      {
        ghost var s := S();
        Kfree(4096 * p);
        assert S() == Free(s, p);
        p := p + 1;
      }
    }

    /** Takes the first page off the free list; 0 when it is empty. */
    method Kalloc() returns (pa: int)
      requires Ok(S())
      modifies this
      ensures Ok(S())
      ensures old(free) == [] ==> pa == 0 && S() == old(S())
      ensures old(free) != [] ==> pa == 4096 * old(free[|free| - 1]) && pa != 0
      ensures old(free) != [] ==> S() == Alloc(old(S()), Filled(0x0505_0505_0505_0505))
    {
      pa := freelist;
      if pa != 0 {
        AllocOk(S(), Filled(0x0505_0505_0505_0505));
        freelist := mem[pa / 4096][0];
        mem := mem[pa / 4096 := Filled(0x0505_0505_0505_0505)];
        kind := kind[pa / 4096 := Held];
        free := free[..|free| - 1];
      }
    }

    method Kfree(pa: int)
      requires Ok(S()) && pa % 4096 == 0 && Is(S(), pa / 4096, Held)
      modifies this
      ensures Ok(S()) && S() == Free(old(S()), pa / 4096)
    {
      FreeOk(S(), pa / 4096);
      mem := mem[pa / 4096 := Filled(0x0101_0101_0101_0101)[0 := freelist]];
      freelist := pa;
      kind := kind[pa / 4096 := FreeAt(|free|)];
      free := free + [pa / 4096];
    }
  
    /** kfree of page number `f`. */
    method FreePage(f: int)
      requires Ok(S()) && Is(S(), f, Held)
      modifies this
      ensures Ok(S()) && S() == Free(old(S()), f)
    {
      assert 4096 * f / 4096 == f;
      Kfree(4096 * f);
    }

    /** A page from kalloc, then filled by memset or memmove. */
    method FilledPage(page: Page) returns (pa: int)
      requires Ok(S()) && |page| == 512
      modifies this
      ensures Ok(S())
      ensures old(free) == [] ==> pa == 0 && S() == old(S())
      ensures old(free) != [] ==> pa == 4096 * old(free[|free| - 1]) && pa != 0 && S() == Alloc(old(S()), page)
    {
      ghost var s := S();
      pa := Kalloc();
      if pa != 0 {
        AllocOk(s, page);
        mem := mem[pa / 4096 := page];
        assert mem == Alloc(s, page).mem;
      }
    }

    /** Makes the entry on the way to `v` point to the new page `next`. */
    method Hang(v: int, level: int, table: int, next: int)
      requires Shape(S()) && 0 <= v < MAXPAGE && 1 <= level <= 2 && AtLevel(S(), v, level, table)
      requires root in kind && next in kind && (level == 1 ==> table in kind)
      modifies this
      ensures Index2(v) == v / 512 / 512 && 0 <= Index2(v) < 512
      ensures S() == AddTable(old(S()), v, level, next)
    {
      Indices(v, v);
      mem := mem[table := mem[table][Index(level, v) := Entry(next, 1)]];
      if level == 2 {
        mid := mid[Index2(v) := next];
        kind := kind[next := Mid(Index2(v))];
      } else {
        low := low[v / 512 := next];
        kind := kind[next := Low(v / 512)];
      }
    }

    /** A new page-table page on the way to `v`. */
    method NewTable(v: int, level: int, table: int) returns (next: int)
      requires Ok(S()) && Rooted(S()) && 0 <= v < MAXPAGE && 1 <= level <= 2
      requires AtLevel(S(), v, level, table) && !HasLevel(S(), v, level - 1)
      modifies this
      ensures next == 0 ==> S() == old(S()) && free == []
      ensures next != 0 ==> Ok(S()) && Rooted(S()) && Grown(old(S()), S()) && AtLevel(S(), v, level - 1, next)
      ensures next != 0 ==> |free| == |old(free)| - 1
    {
      ghost var s := S();
      var pa := FilledPage(Filled(0));
      if pa == 0 {
        return 0;
      }
      next := pa / 4096;
      AddTableOk(s, v, level, table);
      ghost var t := AddTable(Alloc(s, Filled(0)), v, level, s.free[|s.free| - 1]);
      assert next == s.free[|s.free| - 1];
      Hang(v, level, table, next);
      assert S() == t;
    }

    /** The body of the loop in walk: the next page-table page on the way to `v`, made if
        there is none and `alloc` is set; 0 if there is none. */
    method NextTable(v: int, level: int, table: int, alloc: bool) returns (next: int)
      requires Ok(S()) && Rooted(S()) && 0 <= v < MAXPAGE && 1 <= level <= 2 && AtLevel(S(), v, level, table)
      modifies this
      ensures Ok(S()) && Rooted(S()) && Grown(old(S()), S()) && (!alloc ==> S() == old(S()))
      ensures next != 0 ==> AtLevel(S(), v, level - 1, next)
      ensures next == 0 ==> S() == old(S()) && !HasLevel(S(), v, level - 1) && (alloc ==> free == [])
      ensures |free| >= |old(free)| - 1
    {
      NextEntry(S(), v, level, table);
      GrownNot(S());
      var e := mem[table][Index(level, v)];
      if IsValid(e) {
        next := PageOf(e);
      } else if alloc {
        next := NewTable(v, level, table);
      } else {
        next := 0;
      }
    }

    /** The place of the entry for `v`, with the page-table pages on the way to it. */
    method Walk(v: int, alloc: bool) returns (pte: Slot)
      requires Ok(S()) && Rooted(S()) && 0 <= v < MAXPAGE
      modifies this
      ensures Ok(S()) && Rooted(S()) && Grown(old(S()), S()) && (!alloc ==> S() == old(S()))
      ensures pte.At? ==> v / 512 in low && pte == At(low[v / 512], v % 512)
      ensures pte.Null? ==> v / 512 !in low && (alloc ==> free == [] && |old(free)| < 2)
      ensures |free| >= |old(free)| - 2
    {
      ghost var s := S();
      var table := root;
      var level := 2;
      while level > 0
        invariant 0 <= level <= 2 && Ok(S()) && Rooted(S()) && Grown(s, S()) && (!alloc ==> S() == s)
        invariant AtLevel(S(), v, level, table) && |free| >= |s.free| - (2 - level)
      {
        ghost var t := S();
        var next := NextTable(v, level, table, alloc);
        SameTrans(s, t, S());
        if next == 0 {
          Indices(v, v);
          return Null;
        }
        table := next;
        level := level - 1;
      }
      pte := At(table, v % 512);
    }
  
    /** *pte = e. */
    method SetEntry(v: int, pte: Slot, e: int)
      requires Ok(S()) && Rooted(S()) && 0 <= v < MAXPAGE && v / 512 in low && pte == At(low[v / 512], v % 512)
      requires e == 0 || (0 < e && IsValid(e))
      requires forall f :: f in kind ==> kind[f] != User(v)
      modifies this
      ensures Ok(S()) && Rooted(S()) && SamePages(old(S()), S()) && free == old(free)
      ensures forall w :: LeafAt(S(), w) == if w == v then e else LeafAt(old(S()), w)
    {
      ghost var s := S();
      SlotHolds(s, v);
      SetLeafOk(s, v, e);
      SetLeafSame(s, v, e);
      ghost var t := SetLeaf(s, v, e);
      mem := mem[pte.page := mem[pte.page][pte.index := e]];
      leaf := if e == 0 then leaf - {v} else leaf[v := e];
      assert S() == t;
    }

    /** The second half of the body of the loop in mappages, where walk found the entry. */
    method Enter(v: int, pte: Slot, f: int, perm: int)
      requires Ok(S()) && Rooted(S()) && 0 <= v < MAXPAGE && 0 <= f && 0 <= perm < 1024 && LeafAt(S(), v) == 0
      requires v / 512 in low && pte == At(low[v / 512], v % 512)
      modifies this
      ensures Ok(S()) && Rooted(S()) && SamePages(old(S()), S()) && free == old(free)
      ensures Maps(old(S()), S(), v, 1, f, WithV(perm))
    {
      ghost var t := S();
      EmptySlot(t, v);
      assert !IsValid(mem[pte.page][pte.index]);   // no "mappages: remap"
      var flags := WithV(perm);
      var e := Entry(f, flags);
      NewEntry(f, perm, flags);
      SetEntry(v, pte, e);
      MapsOne(t, S(), v, f, flags);
    }

    /** The body of the loop in mappages. */
    method MapOne(v: int, f: int, perm: int) returns (ok: bool)
      requires Ok(S()) && Rooted(S()) && 0 <= v < MAXPAGE && 0 <= f && 0 <= perm < 1024 && LeafAt(S(), v) == 0
      modifies this
      ensures Ok(S()) && Rooted(S()) && SamePages(old(S()), S())
      ensures Maps(old(S()), S(), v, if ok then 1 else 0, f, WithV(perm))
      ensures !ok ==> free == []
      ensures if ok then |free| >= |old(free)| - 2 else |old(free)| < 2
    {
      ghost var s := S();
      var pte := Walk(v, true);
      ghost var t := S();
      MapsNone(s, t, v, f, WithV(perm));
      if pte == Null {
        return false;
      }
      Enter(v, pte, f, perm);
      SameTrans(s, t, S());
      ok := true;
    }

    /** Maps the `n` virtual pages from `v` on to the pages from `f` on. -1 means that memory
        ran out after the first `done` of them. */
    method Mappages(v: int, n: int, f: int, perm: int) returns (r: int, ghost done: int)
      requires Ok(S()) && Rooted(S()) && 0 <= v && 0 < n && v + n <= MAXPAGE && 0 <= f && 0 <= perm < 1024
      requires forall w :: v <= w < v + n ==> LeafAt(S(), w) == 0
      modifies this
      ensures Ok(S()) && Rooted(S()) && SamePages(old(S()), S())
      ensures 0 <= done <= n && Maps(old(S()), S(), v, done, f, WithV(perm))
      ensures r == if done == n then 0 else -1
      ensures r != 0 ==> free == [] && |old(free)| < 2 * n
      ensures r == 0 ==> |free| >= |old(free)| - 2 * n
    {
      ghost var s, flags := S(), WithV(perm);
      var i, w, g := 0, v, f;
      done := 0;
      MapsNone(s, s, v, f, flags);
      while true
        invariant 0 <= i < n && done == i && w == v + i && g == f + i && Ok(S()) && Rooted(S()) && SamePages(s, S())
        invariant Maps(s, S(), v, i, f, flags) && |free| >= |s.free| - 2 * i
        decreases n - i
      {
        ghost var t := S();
        assert LeafAt(t, w) == LeafAt(s, w);
        var ok := MapOne(w, g, perm);
        SameTrans(s, t, S());
        if !ok {
          MapsMore(s, t, S(), v, i, w, g, 0, i, f, flags);
          return -1, done;
        }
        var j := i + 1;
        MapsMore(s, t, S(), v, i, w, g, 1, j, f, flags);
        i, w, g := j, w + 1, g + 1;
        done := i;
        if i == n {
          return 0, done;
        }
      }
    }
  
    /** The new page `f` is mapped at `a`, so it belongs to user memory from now on. */
    ghost method Claim(s: Vm, a: int, b: int, f: int, page: Page, perm: int)
      requires Taking(s, a, b, f, page) && 0 <= perm < 1024 && IsLeaf(WithV(perm)) && Ok(S()) && Rooted(S())
      requires SamePages(Alloc(s, page), S()) && Maps(Alloc(s, page), S(), a, 1, f, WithV(perm))
      modifies this`kind
      ensures Added(s, S(), a, b, true, WithV(perm), page)
    {
      AddedUser(s, page, S(), a, b, f, perm);
      var u := Relabel(S(), f, User(a));
      kind := kind[f := User(a)];
      assert S() == u;
    }

    /** It could not be mapped and goes back. */
    method Return(ghost s: Vm, a: int, ghost b: int, f: int, ghost page: Page, ghost flags: int)
      requires Taking(s, a, b, f, page) && Ok(S()) && Rooted(S())
      requires SamePages(Alloc(s, page), S()) && Maps(Alloc(s, page), S(), a, 0, f, flags)
      modifies this
      ensures Added(s, S(), a, b, false, flags, page)
    {
      NotAddedUser(s, page, S(), a, b, f, flags);
      ghost var u := Free(S(), f);
      FreePage(f);
      assert S() == u;
    }

    method Settle(ghost s: Vm, a: int, ghost b: int, f: int, ghost page: Page, ghost perm: int, ok: bool)
      requires Taking(s, a, b, f, page) && 0 <= perm < 1024 && IsLeaf(WithV(perm)) && Ok(S()) && Rooted(S())
      requires SamePages(Alloc(s, page), S()) && Maps(Alloc(s, page), S(), a, if ok then 1 else 0, f, WithV(perm))
      modifies this
      ensures Added(s, S(), a, b, ok, WithV(perm), page) && (ok ==> free == old(free))
    {
      if ok {
        Claim(s, a, b, f, page, perm);
      } else {
        Return(s, a, b, f, page, WithV(perm));
      }
    }

    /** Maps the page that `s` had first on its free list at `a`, or gives it back. */
    method MapOrFree(ghost s: Vm, a: int, ghost b: int, f: int, page: Page, perm: int) returns (ok: bool)
      requires Taking(s, a, b, f, page) && Rooted(s) && 0 <= perm < 1024 && IsLeaf(WithV(perm)) && Ok(S()) && S() == Alloc(s, page)
      modifies this
      ensures Added(s, S(), a, b, ok, WithV(perm), page)
      ensures if ok then |free| >= |s.free| - 3 else |s.free| < 3
    {
      LeafIff(s, a);
      ok := MapOne(a, f, perm);
      Settle(s, a, b, f, page, perm, ok);
    }

    /** The body of the loops in uvmalloc and uvmcopy: a new page with the given contents,
        mapped at `a`, or nothing. */
    method AddPage(a: int, ghost b: int, page: Page, perm: int) returns (ok: bool)
      requires Ok(S()) && Rooted(S()) && Users(S(), a) && a < TRAPFRAME && b == a + 1 && |page| == 512
      requires 0 <= perm < 1024 && IsLeaf(WithV(perm))
      modifies this
      ensures Added(old(S()), S(), a, b, ok, WithV(perm), page)
      ensures if ok then |free| >= |old(free)| - 3 else |old(free)| < 3
    {
      ghost var s := S();
      var pa := FilledPage(page);
      if pa == 0 {
        ChurnNot(s, a, b);
        return false;
      }
      assert Is(s, s.free[|s.free| - 1], FreeAt(|s.free| - 1));
      ok := MapOrFree(s, a, b, pa / 4096, page, perm);
    }
  
    /** kfree of the page mapped at `v`, while its entry is still there. */
    method FreeMapped(v: int, ghost w: int, f: int)
      requires Ok(S()) && UserAt(S(), v) && f == PageOf(leaf[v]) && w == v + 1
      modifies this
      ensures Ok(S()) && Churn(old(S()), S(), v, w) && leaf == old(leaf) && mid == old(mid) && low == old(low) && root == old(root)
      ensures forall g :: g in kind ==> kind[g] != User(v)
    {
      ghost var s := S();
      FreeUser(s, f, v, w);
      ghost var t := Relabel(s, f, Held);
      ghost var u := Free(t, f);
      kind := kind[f := Held];
      assert S() == t;
      FreePage(f);
      assert S() == u;
    }

    /** The body of the loop in uvmunmap. */
    method UnmapOne(v: int, ghost w: int, doFree: bool)
      requires Ok(S()) && Rooted(S()) && 0 <= v < MAXPAGE && w == v + 1 && Unmappable(S(), v, doFree)
      modifies this
      ensures Ok(S()) && Rooted(S()) && Churn(old(S()), S(), v, w) && LeafAt(S(), v) == 0
    {
      ghost var s := S();
      var pte := Walk(v, false);
      assert pte != Null;   // no "uvmunmap: walk"
      SlotHolds(s, v);
      var e := mem[pte.page][pte.index];
      assert IsValid(e) && IsLeaf(e);   // no "not mapped", no "not a leaf"
      ChurnNot(s, v, w);
      if doFree {
        FreeMapped(v, w, PageOf(e));
      }
      ghost var t := S();
      SetEntry(v, pte, 0);
      ChurnSame(s, t, S(), v, w);
    }

    /** Removes the mappings of `n` virtual pages from `v` on, up to `end`, and frees their pages if asked. */
    method Uvmunmap(v: int, n: int, ghost end: int, doFree: bool)
      requires Ok(S()) && Rooted(S()) && 0 <= v && 0 <= n && end == v + n <= MAXPAGE
      requires AllUnmappable(S(), v, end, doFree)
      modifies this
      ensures Ok(S()) && Rooted(S()) && Churn(old(S()), S(), v, end)
      ensures NoneMapped(S(), v, end)
    {
      ghost var s := S();
      var a := v;
      ChurnNot(s, v, v);
      while a < v + n
        invariant v <= a <= end && Ok(S()) && Rooted(S()) && Churn(s, S(), v, a)
        invariant NoneMapped(S(), v, a)
      {
        ghost var t := S();
        var b := a + 1;
        UnmapKeeps(s, t, v, a, end, doFree);
        UnmapOne(a, b, doFree);
        ChurnTrans(s, t, S(), v, a, b);
        NoneNext(t, S(), v, a, b);
        a := b;
      }
    }
  
    /** Removes the user memory from virtual page `lo` on. */
    method Shrink(lo: int, np: int)
      requires Ok(S()) && Rooted(S()) && Users(S(), np) && 0 <= lo <= np
      modifies this
      ensures Ok(S()) && Rooted(S()) && Users(S(), lo) && Churn(old(S()), S(), lo, np) && NoneMapped(S(), lo, np)
    {
      ghost var s := S();
      UsersUnmappable(s, lo, np);
      Uvmunmap(lo, np - lo, np, true);
      UsersCut(s, S(), lo, np, np);
    }

    /** Frees user memory down to `newsz` bytes. */
    method Uvmdealloc(oldsz: nat, newsz: nat) returns (sz: nat)
      requires Ok(S()) && Rooted(S()) && Users(S(), Pages(oldsz))
      modifies this
      ensures newsz >= oldsz ==> sz == oldsz && S() == old(S())
      ensures newsz < oldsz ==> sz == newsz && Ok(S()) && Rooted(S()) && Users(S(), Pages(newsz))
      ensures newsz < oldsz ==> Churn(old(S()), S(), Pages(newsz), Pages(oldsz)) && NoneMapped(S(), Pages(newsz), Pages(oldsz))
    {
      if newsz >= oldsz {
        return oldsz;
      }
      ChurnNot(S(), Pages(newsz), Pages(oldsz));
      if Pages(newsz) < Pages(oldsz) {
        Shrink(Pages(newsz), Pages(oldsz));
      }
      return newsz;
    }

    /** uvmalloc gives up at virtual page `a`. */
    method GiveBack(ghost s: Vm, np: nat, a: nat, ghost b: nat)
      requires Users(s, np) && LeafOk(s) && np <= a < TRAPFRAME && b == a + 1 && Churn(s, S(), np, b)
      requires Ok(S()) && Rooted(S()) && Users(S(), a)
      modifies this
      ensures Ok(S()) && Rooted(S()) && Users(S(), np) && SameMappings(s, S()) && Churn(s, S(), np, TRAPFRAME)
    {
      ghost var t := S();
      assert Pages(4096 * a) == a && Pages(4096 * np) == np;
      ChurnNot(t, np, a);
      var _ := Uvmdealloc(4096 * a, 4096 * np);
      GivenBack(s, t, S(), np, a, b);
    }

    /** The loop of uvmalloc, from virtual page `np` up to `hi`. */
    method GrowTo(np: nat, hi: nat, perm: int) returns (ok: bool)
      requires Ok(S()) && Rooted(S()) && Users(S(), np) && |mem| <= PHYSPAGES && 0 <= perm < 1024 && IsLeaf(WithV(perm)) && np <= hi
      modifies this
      ensures Ok(S()) && Rooted(S())
      ensures ok ==> Grew(old(S()), S(), np, hi, WithV(perm))
      ensures !ok ==> Users(S(), np) && SameMappings(old(S()), S()) && Churn(old(S()), S(), np, TRAPFRAME)
      ensures if ok then |free| >= |old(free)| - 3 * (hi - np) else |old(free)| < 3 * (hi - np)
    {
      ghost var s := S();
      var a := np;
      ChurnNot(s, np, np);
      while a < hi
        invariant np <= a <= hi && Ok(S()) && Rooted(S()) && Grew(s, S(), np, a, WithV(perm))
        invariant |free| >= |s.free| - 3 * (a - np)
      {
        ghost var t := S();
        UsersFit(t, a);
        var b := a + 1;
        var added := AddPage(a, b, Filled(0), perm);
        if !added {
          ChurnTrans(s, t, S(), np, a, b);
          GiveBack(s, np, a, b);
          return false;
        }
        GrewNext(s, t, S(), np, a, b, WithV(perm));
        a := b;
      }
      ok := true;
    }

    /** Grows user memory from `oldsz` to `newsz` bytes, with zeroed pages. When memory runs
        out the result is 0 and all mappings are as they were. */
    method Uvmalloc(oldsz: nat, newsz: nat, xperm: int) returns (sz: nat, ghost ok: bool)
      requires Ok(S()) && Rooted(S()) && Users(S(), Pages(oldsz)) && |mem| <= PHYSPAGES
      requires Permitted(xperm)
      modifies this
      ensures newsz < oldsz ==> ok && sz == oldsz && S() == old(S())
      ensures newsz >= oldsz ==> Ok(S()) && Rooted(S()) && sz == (if ok then newsz else 0)
      ensures newsz >= oldsz && ok ==> Grew(old(S()), S(), Pages(oldsz), Pages(newsz), UserFlags(xperm))
      ensures !ok ==> Users(S(), Pages(oldsz)) && SameMappings(old(S()), S()) && Churn(old(S()), S(), Pages(oldsz), TRAPFRAME)
      ensures !ok ==> |old(free)| < 3 * (Pages(newsz) - Pages(oldsz))
      ensures newsz >= oldsz && ok ==> |free| >= |old(free)| - 3 * (Pages(newsz) - Pages(oldsz))
    {
      if newsz < oldsz {
        return oldsz, true;
      }
      PermBits(xperm);
      var grown := GrowTo(Pages(oldsz), Pages(newsz), PTE_R + PTE_U + xperm);
      return if grown then newsz else 0, grown;
    }
  
    /** walk with alloc == 0, in any page table of this memory. */
    method Lookup(table: int, v: int, ghost p: Vm) returns (pte: Slot)
      requires Ok(p) && Rooted(p) && p.mem == mem && p.root == table && 0 <= v < MAXPAGE
      ensures pte == if v / 512 in p.low then At(p.low[v / 512], v % 512) else Null
    {
      var t := table;
      var level := 2;
      while level > 0
        invariant 0 <= level <= 2 && AtLevel(p, v, level, t)
      {
        NextEntry(p, v, level, t);
        Indices(v, v);
        var e := mem[t][Index(level, v)];
        if !IsValid(e) {
          return Null;
        }
        t := PageOf(e);
        level := level - 1;
      }
      pte := At(t, v % 512);
    }

    /** The body of the loop in uvmcopy: copies virtual page `a` of the page table at `table`. */
    method CopyPage(table: int, a: nat, ghost b: nat, ghost p: Vm) returns (ok: bool)
      requires Ok(S()) && Rooted(S()) && Users(S(), a) && a < TRAPFRAME && b == a + 1 && Apart(p, S()) && p.root == table && UserAt(p, a)
      modifies this
      ensures Ok(S()) && Rooted(S()) && Churn(old(S()), S(), a, b)
      ensures Users(S(), if ok then b else a)
      ensures ok ==> CopyOf(p, S(), a)
      ensures if ok then |free| >= |old(free)| - 3 else |old(free)| < 3
    {
      var pte := Lookup(table, a, p);
      assert pte != Null;   // no "uvmcopy: pte should exist"
      SlotHolds(p, a);
      var e := mem[pte.page][pte.index];
      assert IsValid(e);    // no "uvmcopy: page not present"
      EntryFlags(e);
      assert Is(p, PageOf(e), User(a));
      ok := AddPage(a, b, mem[PageOf(e)], FlagsOf(e));
    }
  
    /** One more page, with the state before the loop in mind. */
    method CopyNext(table: int, i: nat, ghost j: nat, ghost p: Vm, ghost s: Vm) returns (ok: bool)
      requires Ok(S()) && Rooted(S()) && Apart(p, s) && p.root == table && UserAt(p, i) && i < TRAPFRAME && j == i + 1 && Copied(p, s, S(), i)
      modifies this
      ensures Ok(S()) && Rooted(S())
      ensures ok ==> Copied(p, s, S(), j)
      ensures !ok ==> Users(S(), i) && Churn(s, S(), 0, j)
      ensures if ok then |free| >= |old(free)| - 3 else |old(free)| < 3
    {
      ghost var t := S();
      ApartStays(p, s, t, 0, i);
      ghost var q := p.(mem := t.mem);
      ok := CopyPage(table, i, j, q);
      if ok {
        CopySame(p, q, S(), i);
        CopiedNext(p, s, t, S(), i, j);
      } else {
        ChurnTrans(s, t, S(), 0, i, j);
      }
    }

    /** The loop of uvmcopy. */
    method CopyPages(table: int, n: int, ghost p: Vm) returns (r: int)
      requires Ok(S()) && Rooted(S()) && Users(S(), 0)
      requires Apart(p, S()) && p.root == table && Users(p, n)
      modifies this
      ensures Ok(S()) && Rooted(S()) && Churn(old(S()), S(), 0, TRAPFRAME)
      ensures r == 0 ==> Copied(p, old(S()), S(), n)
      ensures r != 0 ==> r == -1 && Users(S(), 0) && SameMappings(old(S()), S()) && |old(free)| < 3 * n
    {
      ghost var s := S();
      var i := 0;
      ChurnNot(s, 0, 0);
      while i < n
        invariant 0 <= i <= n && Ok(S()) && Rooted(S()) && Copied(p, s, S(), i) && |free| >= |s.free| - 3 * i
      {
        assert UserAt(p, i);
        var j := i + 1;
        var ok := CopyNext(table, i, j, p, s);
        if !ok {
          UndoCopy(s, i, j);
          return -1;
        }
        i := j;
      }
      ChurnWiden(s, S(), 0, i, TRAPFRAME);
      r := 0;
    }

    /** Copies `sz` bytes of user memory, with its flags, from the page table at `table` to this
        one, which has none. On failure the mappings are as they were. The other table keeps
        everything, and shares no page with this one. */
    method Uvmcopy(table: int, sz: nat, ghost p: Vm) returns (r: int)
      requires Ok(S()) && Rooted(S()) && Users(S(), 0)
      requires Apart(p, S()) && p.root == table && Users(p, Pages(sz))
      modifies this
      ensures Ok(S()) && Rooted(S()) && Apart(p.(mem := mem), S())
      ensures forall f :: f in p.kind ==> f < |mem| == |p.mem| && mem[f] == p.mem[f]
      ensures r == 0 ==> Copied(p, old(S()), S(), Pages(sz))
      ensures r != 0 ==> r == -1 && Users(S(), 0) && SameMappings(old(S()), S()) && |old(free)| < 3 * Pages(sz)
    {
      ghost var s := S();
      r := CopyPages(table, Pages(sz), p);
      ghost var t := S();
      ApartStays(p, s, t, 0, TRAPFRAME);
    }

    /** uvmcopy gives up after `i` pages. */
    method UndoCopy(ghost s: Vm, i: nat, ghost j: nat)
      requires Users(s, 0) && LeafOk(s) && i < TRAPFRAME && j == i + 1 && Churn(s, S(), 0, j)
      requires Ok(S()) && Rooted(S()) && Users(S(), i)
      modifies this
      ensures Ok(S()) && Rooted(S()) && Users(S(), 0) && SameMappings(s, S()) && Churn(s, S(), 0, TRAPFRAME)
    {
      ghost var t := S();
      Shrink(0, i);
      GivenBack(s, t, S(), 0, i, j);
    }
  
    /** The page an entry leads to is no longer part of the table. */
    ghost method DetachChild(level: nat, k: int)
      requires Ok(S()) && k in Below(S(), level) && 1 <= level <= 2
      modifies this
      ensures S() == Detach(old(S()), level, k)
    {
      kind := kind[Below(S(), level)[k] := Held];
      if level == 2 {
        mid := mid - {k};
      } else {
        low := low - {k};
      }
    }

    /** freewalk of the page-table page `child`, which is number `k` of its level. */
    method FreeBelow(child: int, ghost level: nat, ghost k: int, ghost under: int)
      requires Ok(S()) && leaf == map[] && root == 0 && 1 <= level <= 2 && under == k * 512 && under % 512 == 0 && under / 512 == k
      requires k in Below(S(), level) && child == Below(S(), level)[k] && (level == 1 ==> k / 512 !in mid)
      modifies this
      ensures Ok(S()) && Swept(Detach(old(S()), level, k), S(), child) && CutOff(Detach(old(S()), level, k), S(), level - 1, under, 512)
      ensures child in kind && kind[child].FreeAt?
      decreases level, 0
    {
      ghost var s := S();
      DetachOk(s, level, k);
      DetachLeads(s, level, k, under);
      ghost var d := Detach(s, level, k);
      DetachChild(level, k);
      assert S() == d;
      Freewalk(child, level - 1, under);
    }

    /** Entry `i` of page `f` leads to the page-table page `child`, which goes with all below it. */
    method FreeChild(f: int, i: int, child: int, ghost level: nat, ghost key: int, ghost k: int, ghost next: int)
      requires Ok(S()) && Is(S(), f, Held) && leaf == map[] && root == 0 && 0 <= i < 512 && 1 <= level <= 2
      requires k == key + i && next == i + 1 && k in Below(S(), level) && child == Below(S(), level)[k]
      requires Leads(S(), f, level, key, i) && (level == 1 ==> key % 512 == 0 && key / 512 !in mid)
      modifies this
      ensures Ok(S()) && Is(S(), f, Held) && CutOff(old(S()), S(), level, k, 1) && Swept(old(S()), S(), f)
      ensures Leads(S(), f, level, key, next)
      decreases level, 1
    {
      ghost var s, under := S(), k * 512;
      ChildKeys(key, i, k, under);
      FreeBelow(child, level, k, under);
      ghost var t := S();
      EntryFreed(s, t, f, level, key, i, k, next, under);
      ghost var u := t.(mem := t.mem[f := t.mem[f][i := 0]]);
      mem := mem[f := mem[f][i := 0]];
      assert S() == u;
    }

    /** The body of the loop in freewalk, for entry `i` of page `f`. */
    method FreeEntry(f: int, i: int, ghost level: nat, ghost key: int, ghost k: int, ghost next: int)
      requires Ok(S()) && Is(S(), f, Held) && leaf == map[] && root == 0 && 0 <= i < 512 && level <= 2 && k == key + i && next == i + 1
      requires Leads(S(), f, level, key, i) && (level == 1 ==> key % 512 == 0 && key / 512 !in mid)
      modifies this
      ensures Ok(S()) && Is(S(), f, Held) && CutOff(old(S()), S(), level, k, 1) && Swept(old(S()), S(), f)
      ensures Leads(S(), f, level, key, next)
      decreases level, 2
    {
      ghost var s := S();
      var e := mem[f][i];
      assert e == Pointer(Below(s, level), k);
      EntryParts(if k in Below(s, level) then Below(s, level)[k] else 0, 1);
      if IsValid(e) && !IsLeaf(e) {
        FreeChild(f, i, PageOf(e), level, key, k, next);
      } else {
        assert !IsValid(e);   // no "freewalk: leaf"
        CutNothing(s, level, k);
      }
    }

    /** Frees page `f` of a page table of the given level and all page-table pages below it. */
    method Freewalk(f: int, ghost level: nat, ghost key: int)
      requires Ok(S()) && Is(S(), f, Held) && leaf == map[] && root == 0 && level <= 2
      requires Leads(S(), f, level, key, 0) && (level == 1 ==> key % 512 == 0 && key / 512 !in mid)
      modifies this
      ensures Ok(S()) && CutOff(old(S()), S(), level, key, 512) && Swept(old(S()), S(), f) && f in kind && kind[f].FreeAt?
      decreases level, 3
    {
      ghost var s := S();
      var i := 0;
      while i < 512
        invariant 0 <= i <= 512 && Ok(S()) && Is(S(), f, Held) && CutOff(s, S(), level, key, i) && Swept(s, S(), f)
        invariant Leads(S(), f, level, key, i)
      {
        ghost var t, k := S(), key + i;
        var next := i + 1;
        FreeEntry(f, i, level, key, k, next);
        CutNext(s, t, S(), level, key, i, k, next);
        SweptTrans(s, t, S(), f);
        i := next;
      }
      FreePage(f);
    }
  
    /** Frees `sz` bytes of user memory and the whole page table. */
    method Uvmfree(sz: nat)
      requires Ok(S()) && Rooted(S()) && Users(S(), Pages(sz)) && NoneMapped(S(), TRAPFRAME, MAXPAGE)
      modifies this
      ensures Ok(S()) && AllFree(old(S()), S())
    {
      ghost var s := S();
      ChurnNot(s, 0, Pages(sz));
      if sz > 0 {
        Shrink(0, Pages(sz));
      }
      ghost var t := S();
      NothingMapped(t);
      DetachRootOk(t);
      RootLeads(t);
      var top := root;
      kind := kind[top := Held];
      root := 0;
      ghost var d := DetachRoot(t);
      assert S() == d;
      Freewalk(top, 2, 0);
      TreeFreed(t, S());
      ChurnHeld(s, t, 0, Pages(sz));
      AllFreeAfter(s, t, S());
    }
  
    /** A page table without mappings; false when there is no memory. */
    method Uvmcreate() returns (ok: bool)
      requires Ok(S()) && NoTable(S())
      modifies this
      ensures ok ==> Ok(S()) && Rooted(S()) && Users(S(), 0) && NoneMapped(S(), 0, MAXPAGE) && HeldSame(old(S()), S())
      ensures if ok then |free| == |old(free)| - 1 else S() == old(S()) && free == []
    {
      ghost var s := S();
      var pa := FilledPage(Filled(0));
      if pa == 0 {
        return false;
      }
      NewRoot(s);
      ghost var t := AddRoot(Alloc(s, Filled(0)), s.free[|s.free| - 1]);
      root := pa / 4096;
      kind := kind[pa / 4096 := Root];
      assert S() == t;
      ok := true;
    }
  
    /** Closes virtual page `v` to the user, and changes nothing else. */
    method Uvmclear(v: int, ghost np: int)
      requires Ok(S()) && Rooted(S()) && Users(S(), np) && 0 <= v < np
      modifies this
      ensures Ok(S()) && Rooted(S()) && Users(S(), np) && HeldSame(old(S()), S())
      ensures v in old(leaf) && leaf == old(leaf)[v := WithoutU(old(leaf)[v])] && !IsUser(leaf[v])
      ensures FlagsOf(leaf[v]) == WithoutU(FlagsOf(old(leaf)[v])) && PageOf(leaf[v]) == PageOf(old(leaf)[v])
      ensures kind == old(kind) && free == old(free) && |mem| == |old(mem)|
      ensures forall f :: f in kind && kind[f].User? ==> mem[f] == old(mem)[f]
    {
      ghost var s := S();
      assert UserAt(s, v);
      var pte := Walk(v, false);
      assert pte != Null;   // no "uvmclear"
      SlotHolds(s, v);
      WithoutUParts(s.leaf[v]);
      ClearOk(s, v);
      ClearUsers(s, v, np);
      ghost var t := SetLeaf(s, v, WithoutU(s.leaf[v]));
      mem := mem[pte.page := mem[pte.page][pte.index := WithoutU(mem[pte.page][pte.index])]];
      leaf := leaf[v := WithoutU(leaf[v])];
      assert S() == t;
    }
  }
}
