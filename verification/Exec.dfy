/** proc_pagetable and proc_freepagetable of kernel/proc.c, and the loading of a program in
    kernel/exec.c: the segment loop, loadseg and the cleanup when anything fails. */
module Exec {
  import opened VmState
  import opened PageTables
  import opened Loading

  const TRAMPOLINE := 0x3FF_FFFF

  /** The two pages at the top are mapped. */
  predicate TopMapped(s: Vm) {
    TRAMPOLINE in s.leaf && IsLeaf(s.leaf[TRAMPOLINE]) && TRAPFRAME in s.leaf && IsLeaf(s.leaf[TRAPFRAME])
  }

  /** Page `v` is page `f` of memory with these flags, closed to the user. */
  predicate MappedAs(s: Vm, v: int, f: int, flags: int) {
    v in s.leaf && PageOf(s.leaf[v]) == f && FlagsOf(s.leaf[v]) == flags && !IsUser(s.leaf[v])
  }

  /** They are the trampoline, to execute, and the trapframe, to write, both for the kernel only. */
  predicate TopAs(s: Vm, trampoline: int, trapframe: int) {
    MappedAs(s, TRAMPOLINE, trampoline, PTE_V + PTE_R + PTE_X) && MappedAs(s, TRAPFRAME, trapframe, PTE_V + PTE_R + PTE_W)
  }

  predicate SameTop(s: Vm, t: Vm) {
    LeafAt(t, TRAMPOLINE) == LeafAt(s, TRAMPOLINE) && LeafAt(t, TRAPFRAME) == LeafAt(s, TRAPFRAME)
  }

  /** The pages at the top and those in the hands of callers of kalloc are as before. */
  ghost predicate Kept(s: Vm, t: Vm) {
    HeldSame(s, t) && SameTop(s, t)
  }

  lemma TopStays(s: Vm, t: Vm, trampoline: int, trapframe: int)
    requires TopAs(s, trampoline, trapframe) && SameTop(s, t) && TopMapped(t)
    ensures TopAs(t, trampoline, trapframe)
  {
  }

  lemma TopUnmappable(s: Vm, np: int, v: int, w: int)
    requires Users(s, np) && TRAPFRAME <= v && w == v + 1 && v in s.leaf && IsLeaf(s.leaf[v])
    ensures AllUnmappable(s, v, w, false)
  {
    assert Unmappable(s, v, false);
  }

  /** Unmapping a page at the top leaves user memory alone. */
  lemma TopUnmapped(s: Vm, t: Vm, np: int, v: int, end: int)
    requires Users(s, np) && end == v + 1 && Churn(s, t, v, end) && TRAPFRAME <= v && LeafOk(s) && LeafOk(t) && Exact(t) && LeafAt(t, v) == 0
    ensures Users(t, np)
  {
    forall w | 0 <= w < np ensures UserAt(t, w) {
      UserStays(s, t, v, end, w);
    }
    forall w | w in t.leaf ensures w < np || w >= TRAPFRAME {
      LeafIff(s, w);
      LeafIff(t, w);
    }
    forall f | f in t.kind && t.kind[f].User? ensures 0 <= t.kind[f].v < np {
      assert PlacedAs(t, f, t.kind[f]);
      LeafIff(t, t.kind[f].v);
    }
  }

  /** And so does mapping one. */
  lemma TopMaps(s: Vm, t: Vm, np: int, v: int, n: int, f: int, flags: int)
    requires Users(s, np) && SamePages(s, t) && Maps(s, t, v, n, f, flags) && TRAPFRAME <= v && LeafOk(s) && LeafOk(t)
    ensures Users(t, np)
  {
    forall w | 0 <= w < np ensures UserAt(t, w) {
      assert UserAt(s, w) && LeafAt(t, w) == LeafAt(s, w);
      LeafIff(s, w);
    }
    forall w | w in t.leaf ensures w < np || w >= TRAPFRAME {
      LeafIff(s, w);
      LeafIff(t, w);
      assert w < v ==> LeafAt(t, w) == LeafAt(s, w);
    }
  }

  /** uvmunmap of a page at the top, without freeing it. */
  method UnmapTop(space: AddressSpace, v: int, ghost np: int)
    requires Ok(space.S()) && Rooted(space.S()) && Users(space.S(), np) && TRAPFRAME <= v <= TRAMPOLINE
    requires v in space.leaf && IsLeaf(space.leaf[v])
    modifies space
    ensures Ok(space.S()) && Rooted(space.S()) && Users(space.S(), np) && HeldSame(old(space.S()), space.S())
    ensures forall w :: LeafAt(space.S(), w) == if w == v then 0 else LeafAt(old(space.S()), w)
  {
    ghost var s, end := space.S(), v + 1;
    TopUnmappable(s, np, v, end);
    space.Uvmunmap(v, 1, end, false);
    TopUnmapped(s, space.S(), np, v, end);
    ChurnHeld(s, space.S(), v, end);
  }

  /** Frees user memory and the page table: every page but those its callers hold is free again. */
  method ProcFreepagetable(space: AddressSpace, sz: nat)
    requires Ok(space.S()) && Rooted(space.S()) && Users(space.S(), Pages(sz)) && TopMapped(space.S())
    modifies space
    ensures Ok(space.S()) && AllFree(old(space.S()), space.S())
  {
    ghost var s := space.S();
    UnmapTop(space, TRAMPOLINE, Pages(sz));
    ghost var t := space.S();
    assert LeafAt(t, TRAPFRAME) == LeafAt(s, TRAPFRAME);
    LeafIff(s, TRAPFRAME);
    UnmapTop(space, TRAPFRAME, Pages(sz));
    ghost var u := space.S();
    assert LeafAt(u, TRAMPOLINE) == LeafAt(t, TRAMPOLINE);
    TopNone(u);
    space.Uvmfree(sz);
    AllFreeAfter(s, u, space.S());
  }

  lemma SameHeld(s: Vm, t: Vm)
    requires SamePages(s, t)
    ensures HeldSame(s, t)
  {
  }

  lemma TopEntry(t: Vm, v: int, f: int, perm: int, flags: int)
    requires LeafOk(t) && 0 <= f && 0 <= perm < 1024 && flags == WithV(perm) && IsLeaf(flags) && LeafAt(t, v) == Entry(f, flags) && !IsUser(flags)
    ensures MappedAs(t, v, f, flags) && IsLeaf(t.leaf[v])
  {
    NewEntry(f, perm, flags);
    WithVBits(perm);
    EntryParts(f, flags);
    LeafIff(t, v);
  }

  /** mappages of a page at the top. */
  method MapTop(space: AddressSpace, v: int, f: int, perm: int) returns (ok: bool)
    requires Ok(space.S()) && Rooted(space.S()) && Users(space.S(), 0) && TRAPFRAME <= v <= TRAMPOLINE
    requires LeafAt(space.S(), v) == 0 && 0 <= f && 0 <= perm < 1024 && IsLeaf(WithV(perm)) && !IsUser(WithV(perm))
    modifies space
    ensures Ok(space.S()) && Rooted(space.S()) && Users(space.S(), 0) && HeldSame(old(space.S()), space.S())
    ensures forall w :: w != v || !ok ==> LeafAt(space.S(), w) == LeafAt(old(space.S()), w)
    ensures ok ==> MappedAs(space.S(), v, f, WithV(perm)) && IsLeaf(space.leaf[v])
    ensures if ok then |space.free| >= |old(space.free)| - 2 else |old(space.free)| < 2
  {
    ghost var s := space.S();
    var r, done := space.Mappages(v, 1, f, perm);
    ghost var t := space.S();
    ghost var flags := WithV(perm);
    TopMaps(s, t, 0, v, done, f, flags);
    SameHeld(s, t);
    MapsAt(s, t, v, done, f, flags);
    ok := r == 0;
    if ok {
      TopEntry(t, v, f, perm, flags);
    }
  }

  lemma TopNone(s: Vm)
    requires LeafAt(s, TRAPFRAME) == 0 && LeafAt(s, TRAMPOLINE) == 0
    ensures NoneMapped(s, TRAPFRAME, MAXPAGE)
  {
    forall v | TRAPFRAME <= v < MAXPAGE ensures LeafAt(s, v) == 0 {
      assert v == TRAPFRAME || v == TRAMPOLINE;
    }
  }

  /** Gives up with nothing mapped at the top. */
  method FreeEmpty(space: AddressSpace, ghost s: Vm)
    requires Ok(space.S()) && Rooted(space.S()) && Users(space.S(), 0) && HeldSame(s, space.S())
    requires LeafAt(space.S(), TRAPFRAME) == 0 && LeafAt(space.S(), TRAMPOLINE) == 0
    modifies space
    ensures Ok(space.S()) && AllFree(s, space.S())
  {
    ghost var t := space.S();
    TopNone(t);
    space.Uvmfree(0);
    AllFreeAfter(s, t, space.S());
  }

  /** The first half of proc_pagetable. */
  method MapTrampoline(space: AddressSpace, trampoline: nat) returns (ok: bool)
    requires Ok(space.S()) && Rooted(space.S()) && Users(space.S(), 0) && LeafAt(space.S(), TRAPFRAME) == 0 && LeafAt(space.S(), TRAMPOLINE) == 0
    modifies space
    ensures Ok(space.S()) && Rooted(space.S()) && Users(space.S(), 0) && HeldSame(old(space.S()), space.S()) && LeafAt(space.S(), TRAPFRAME) == 0
    ensures ok ==> MappedAs(space.S(), TRAMPOLINE, trampoline, PTE_V + PTE_R + PTE_X) && IsLeaf(space.leaf[TRAMPOLINE])
    ensures !ok ==> LeafAt(space.S(), TRAMPOLINE) == 0
    ensures if ok then |space.free| >= |old(space.free)| - 2 else |old(space.free)| < 2
  {
    ghost var t := space.S();
    ok := MapTop(space, TRAMPOLINE, trampoline, PTE_R + PTE_X);
    assert LeafAt(space.S(), TRAPFRAME) == LeafAt(t, TRAPFRAME);
  }

  /** The second half of proc_pagetable, with the trampoline mapped. */
  method MapTrapframe(space: AddressSpace, ghost trampoline: nat, trapframe: nat, ghost s: Vm) returns (ok: bool)
    requires Ok(space.S()) && Rooted(space.S()) && Users(space.S(), 0) && HeldSame(s, space.S())
    requires LeafAt(space.S(), TRAPFRAME) == 0 && MappedAs(space.S(), TRAMPOLINE, trampoline, PTE_V + PTE_R + PTE_X) && IsLeaf(space.leaf[TRAMPOLINE])
    modifies space
    ensures Ok(space.S())
    ensures ok ==> Rooted(space.S()) && Users(space.S(), 0) && TopMapped(space.S()) && HeldSame(s, space.S())
    ensures ok ==> TopAs(space.S(), trampoline, trapframe)
    ensures !ok ==> AllFree(s, space.S())
    ensures if ok then |space.free| >= |old(space.free)| - 2 else |old(space.free)| < 2
  {
    ghost var u := space.S();
    LeafIff(u, TRAMPOLINE);
    ok := MapTop(space, TRAPFRAME, trapframe, PTE_R + PTE_W);
    ghost var w := space.S();
    assert LeafAt(w, TRAMPOLINE) == LeafAt(u, TRAMPOLINE);
    if !ok {
      assert LeafAt(w, TRAPFRAME) == 0;
      UnmapTop(space, TRAMPOLINE, 0);
      assert LeafAt(space.S(), TRAPFRAME) == LeafAt(w, TRAPFRAME);
      FreeEmpty(space, s);
    }
  }

  /** A page table with the trampoline and the trapframe and no user memory. When memory runs out
      everything it took is free again. */
  method ProcPagetable(space: AddressSpace, trampoline: nat, trapframe: nat) returns (ok: bool)
    requires Ok(space.S()) && NoTable(space.S())
    modifies space
    ensures Ok(space.S())
    ensures ok ==> Rooted(space.S()) && Users(space.S(), 0) && TopMapped(space.S()) && HeldSame(old(space.S()), space.S())
    ensures ok ==> TopAs(space.S(), trampoline, trapframe)
    ensures !ok ==> AllFree(old(space.S()), space.S())
    ensures if ok then |space.free| >= |old(space.free)| - 5 else |old(space.free)| < 5
  {
    ghost var s := space.S();
    ok := space.Uvmcreate();
    if !ok {
      return;
    }
    ok := MapTrampoline(space, trampoline);
    if ok {
      ok := MapTrapframe(space, trampoline, trapframe, s);
    } else {
      FreeEmpty(space, s);
    }
  }

  /** walkaddr: the page of a virtual page that is open to the user, or 0. */
  method Walkaddr(space: AddressSpace, v: int) returns (f: int)
    requires Ok(space.S()) && Rooted(space.S()) && 0 <= v < MAXPAGE
    ensures f == if v in space.leaf && IsUser(space.leaf[v]) then PageOf(space.leaf[v]) else 0
  {
    var pte := space.Lookup(space.root, v, space.S());
    if pte == Null {
      return 0;
    }
    SlotHolds(space.S(), v);
    var e := space.mem[pte.page][pte.index];
    if !IsValid(e) || !IsUser(e) {
      return 0;
    }
    f := PageOf(e);
  }

  /** Writes the page at `v`, which is open to the user. */
  method StorePage(space: AddressSpace, v: nat, page: Page, n: nat)
    requires Ok(space.S()) && Rooted(space.S()) && v < TRAPFRAME && UserAt(space.S(), v) && IsUser(space.leaf[v]) && |page| == 512
    modifies space`mem
    ensures 0 <= PageOf(space.leaf[v]) < |old(space.mem)| && |old(space.mem)[PageOf(space.leaf[v])]| == 512
    ensures space.S() == SetPage(old(space.S()), v, Patch(old(space.mem)[PageOf(space.leaf[v])], page, n))
  {
    ghost var t := space.S();
    var f := Walkaddr(space, v);
    assert f == PageOf(t.leaf[v]) && Is(t, f, User(v));
    assert f != 0;   // no "loadseg: address should exist"
    space.mem := space.mem[f := Patch(space.mem[f], page, n)];
  }

  // Images.

  /** A page table under construction: user memory is these pages, all open to the user. */
  ghost predicate Image(s: Vm, np: int, cells: seq<Cell>) {
    Ok(s) && Rooted(s) && Users(s, np) && AllUser(s, np) && TopMapped(s) && Shows(s, cells) && |cells| == np && FullCells(cells)
  }

  lemma ImageGrown(s: Vm, t: Vm, np: nat, hi: nat, cells: seq<Cell>, flags: int)
    requires Image(s, np, cells) && Ok(t) && Rooted(t) && 0 <= flags < 1024 && IsUser(flags) && Grew(s, t, np, hi, flags)
    ensures Image(t, hi, Extended(cells, hi, flags)) && Kept(s, t)
  {
    AllUserGrow(s, t, np, hi, flags);
    ChurnHeld(s, t, np, hi);
    ShowsGrown(s, t, cells, np, hi, flags);
    assert LeafAt(t, TRAMPOLINE) == LeafAt(s, TRAMPOLINE) && LeafAt(t, TRAPFRAME) == LeafAt(s, TRAPFRAME);
    LeafIff(s, TRAMPOLINE);
    LeafIff(s, TRAPFRAME);
  }

  /** What is left to free when anything fails. */
  ghost predicate Remains(s: Vm, np: int) {
    Ok(s) && Rooted(s) && Users(s, np) && TopMapped(s)
  }

  lemma ImageSame(s: Vm, t: Vm, np: int, hi: int)
    requires Remains(s, np) && Ok(t) && Rooted(t) && Users(t, np) && SameMappings(s, t) && Churn(s, t, np, hi)
    ensures Remains(t, np) && Kept(s, t)
  {
    ChurnHeld(s, t, np, hi);
    assert LeafAt(t, TRAMPOLINE) == LeafAt(s, TRAMPOLINE) && LeafAt(t, TRAPFRAME) == LeafAt(s, TRAPFRAME);
    LeafIff(s, TRAMPOLINE);
    LeafIff(s, TRAPFRAME);
  }

  lemma ExtendedNot(cells: seq<Cell>, np: nat, flags: int)
    requires np <= |cells|
    ensures Extended(cells, np, flags) == cells
  {
  }

  lemma PagesMonotone(a: nat, b: nat)
    requires a <= b
    ensures 0 <= Pages(a) <= Pages(b)
  {
  }

  /** uvmalloc on an image: it grows to `newsz` bytes, `np` pages, or stays as it is. */
  method GrowImage(space: AddressSpace, sz: nat, newsz: nat, ghost np: nat, xperm: int, ghost cells: seq<Cell>)
    returns (sz1: nat, ghost ok: bool, ghost grown: seq<Cell>)
    requires Image(space.S(), Pages(sz), cells) && |space.mem| <= PHYSPAGES && Permitted(xperm) && np == Pages(newsz)
    modifies space
    ensures Kept(old(space.S()), space.S()) && grown == Extended(cells, np, UserFlags(xperm))
    ensures ok ==> Image(space.S(), Pages(sz1), grown) && sz1 == (if newsz < sz then sz else newsz)
    ensures !ok ==> Remains(space.S(), Pages(sz)) && sz1 == 0
    ensures if ok then |space.free| >= |old(space.free)| - 3 * (Pages(sz1) - Pages(sz)) else |old(space.free)| < 3 * (np - Pages(sz))
  {
    ghost var s, flags := space.S(), UserFlags(xperm);
    PermBits(xperm);
    grown := Extended(cells, np, flags);
    sz1, ok := space.Uvmalloc(sz, newsz, xperm);
    if newsz < sz {
      PagesMonotone(newsz, sz);
      ExtendedNot(cells, np, flags);
    } else if ok {
      ImageGrown(s, space.S(), Pages(sz), np, cells, flags);
    } else {
      ImageSame(s, space.S(), Pages(sz), TRAPFRAME);
    }
  }

  /** Only the contents of pages differ. */
  ghost predicate OnlyContents(s: Vm, t: Vm) {
    t == s.(mem := t.mem) && |t.mem| == |s.mem|
  }

  lemma ImageStored(s: Vm, np: nat, cells: seq<Cell>, v: nat, page: Page) returns (t: Vm)
    requires Image(s, np, cells) && v < np && |page| == 512
    ensures UserAt(s, v) && IsUser(s.leaf[v]) && 0 <= PageOf(s.leaf[v]) < |s.mem| && s.mem[PageOf(s.leaf[v])] == cells[v].page
    ensures t == SetPage(s, v, page) && Image(t, np, cells[v := cells[v].(page := page)]) && OnlyContents(s, t)
  {
    ShowsStored(s, cells, np, v, page);
    SetPageOk(s, v, page);
    t := SetPage(s, v, page);
    forall w | 0 <= w < np ensures UserAt(t, w) {
      assert UserAt(s, w);
    }
  }

  /** readi of up to `n` bytes to virtual page `w`, of which the file has `got`. */
  method LoadPage(space: AddressSpace, w: nat, page: Page, got: nat, ghost np: nat, ghost cells: seq<Cell>)
    returns (ghost cells': seq<Cell>)
    requires Image(space.S(), np, cells) && w < np && |page| == 512
    modifies space
    ensures cells' == cells[w := cells[w].(page := Patch(cells[w].page, page, got))]
    ensures Image(space.S(), np, cells') && OnlyContents(old(space.S()), space.S())
  {
    ghost var t := space.S();
    ghost var stored := Patch(cells[w].page, page, got);
    ghost var u := ImageStored(t, np, cells, w, stored);
    StorePage(space, w, page, got);
    assert space.S() == u;
    cells' := cells[w := cells[w].(page := stored)];
  }

  lemma ContentsTwice(s: Vm, t: Vm, u: Vm)
    requires OnlyContents(s, t) && OnlyContents(t, u)
    ensures OnlyContents(s, u) && Kept(s, u)
  {
  }

  /** One round of loadseg, for page `i` of the segment: the file has all the bytes or `ok` is false. */
  method LoadNext(space: AddressSpace, v: nat, g: Segment, i: nat, ghost j: nat, ghost len: nat, ghost np: nat,
                  ghost cells: seq<Cell>, ghost now: seq<Cell>)
    returns (ok: bool, ghost now': seq<Cell>)
    requires FullCells(cells) && ValidSegment(g) && j == i + 1 && len == Min(g.filesz, g.avail) && 4096 * i < g.filesz
    requires now == Overlaid(cells, v, g.file, len, i) && Image(space.S(), np, now) && v + i < np
    modifies space
    ensures OnlyContents(old(space.S()), space.S()) && Image(space.S(), np, now')
    ensures ok <==> g.avail >= g.filesz || 4096 * j <= g.avail
    ensures ok ==> now' == Overlaid(cells, v, g.file, len, j)
  {
    var w, n, got := v + i, Piece(g.filesz, i), Min(Piece(g.filesz, i), Piece(g.avail, i));
    PieceMin(g.filesz, g.avail, i);
    now' := now;
    if got > 0 {
      OverlaidNext(cells, v, g.file, len, i, j, w);
      now' := LoadPage(space, w, g.file[i], got, np, now);
    }
    ok := got == n;
  }

  lemma PageOfBytes(len: nat, i: nat)
    ensures i < Pages(len) <==> 4096 * i < len
  {
  }

  /** Reads the first `filesz` bytes of a segment to virtual page `v` and on; -1 exactly if the file has fewer. */
  method Loadseg(space: AddressSpace, v: nat, g: Segment, ghost np: nat, ghost cells: seq<Cell>)
    returns (r: int, ghost now: seq<Cell>)
    requires Image(space.S(), np, cells) && ValidSegment(g) && v + Pages(g.filesz) <= np
    modifies space
    ensures OnlyContents(old(space.S()), space.S()) && Image(space.S(), np, now)
    ensures r == if g.filesz <= g.avail then 0 else -1
    ensures r == 0 ==> now == Overlaid(cells, v, g.file, g.filesz, Pages(g.filesz)) && ReadIn(cells, now, v, g)
  {
    ghost var s, len := space.S(), Min(g.filesz, g.avail);
    var i := 0;
    OverlaidNot(cells, v, g.file, len);
    now := cells;
    while 4096 * i < g.filesz
      invariant 0 <= i <= Pages(g.filesz) && Image(space.S(), np, now) && OnlyContents(s, space.S())
      invariant now == Overlaid(cells, v, g.file, len, i) && (g.avail >= g.filesz || 4096 * i <= g.avail)
    {
      ghost var t := space.S();
      PageOfBytes(g.filesz, i);
      var j := i + 1;
      var ok;
      ok, now := LoadNext(space, v, g, i, j, len, np, cells, now);
      ContentsTwice(s, t, space.S());
      if !ok {
        return -1, now;
      }
      i := j;
    }
    PageOfBytes(g.filesz, i);
    assert i == Pages(g.filesz);
    r := 0;
    AllRead(cells, now, v, g);
  }

  lemma AlignedPages(vaddr: nat, filesz: nat, sz: nat)
    requires vaddr % 4096 == 0 && vaddr + filesz <= sz
    ensures vaddr / 4096 + Pages(filesz) <= Pages(sz)
  {
    assert vaddr == vaddr / 4096 * 4096;
    assert Pages(vaddr + filesz) == vaddr / 4096 + Pages(filesz);
  }

  lemma ImageRemains(s: Vm, np: int, cells: seq<Cell>)
    requires Image(s, np, cells)
    ensures Remains(s, np)
  {
  }

  /** The second half of a round: the file's part of the segment goes into the image. */
  method ReadSegment(space: AddressSpace, sz: nat, g: Segment, ghost np: nat, ghost cells: seq<Cell>) returns (ok: bool)
    requires np == Pages(sz) && Image(space.S(), np, cells) && ValidSegment(g) && !Malformed(g) && SegmentEnd(g) <= sz
    modifies space
    ensures OnlyContents(old(space.S()), space.S()) && Remains(space.S(), np)
    ensures ok <==> g.filesz <= g.avail
    ensures ok ==> Image(space.S(), np, Overlaid(cells, g.vaddr / 4096, g.file, g.filesz, Pages(g.filesz)))
  {
    AlignedPages(g.vaddr, g.filesz, sz);
    var r;
    ghost var now;
    r, now := Loadseg(space, g.vaddr / 4096, g, np, cells);
    ImageRemains(space.S(), np, now);
    ok := r == 0;
  }

  /** One round of the segment loop of exec. `sz1` is the size user memory has afterwards. */
  method LoadSegment(space: AddressSpace, sz: nat, g: Segment, ghost cells: seq<Cell>) returns (sz1: nat, ok: bool)
    requires Image(space.S(), Pages(sz), cells) && |space.mem| <= PHYSPAGES && ValidSegment(g)
    modifies space
    ensures Kept(old(space.S()), space.S()) && Remains(space.S(), Pages(sz1))
    ensures ok ==> !Malformed(g) && g.filesz <= g.avail && sz1 == if sz < SegmentEnd(g) then SegmentEnd(g) else sz
    ensures ok ==> Image(space.S(), Pages(sz1), WithSegment(cells, g)) && |space.free| >= |old(space.free)| - 3 * (Pages(sz1) - Pages(sz))
    ensures !ok ==> Malformed(g) || g.avail < g.filesz || (SegmentEnd(g) == 0 && sz == 0) ||
                    |old(space.free)| < 3 * (Pages(SegmentEnd(g)) - Pages(sz))
  {
    ghost var s := space.S();
    sz1, ok := sz, false;
    ImageRemains(s, Pages(sz), cells);
    if Malformed(g) {
      return;
    }
    var r, end := 0, SegmentEnd(g);
    ghost var grew, grown;
    r, grew, grown := GrowImage(space, sz, end, Pages(end), FlagsToPerm(g.flags), cells);
    if r == 0 {
      if grew {
        ImageRemains(space.S(), Pages(r), grown);
      }
      return;
    }
    sz1 := r;
    ghost var t := space.S();
    ok := ReadSegment(space, sz1, g, Pages(sz1), grown);
    KeptTrans(s, t, space.S());
  }

  lemma KeptTrans(s: Vm, t: Vm, u: Vm)
    requires Kept(s, t) && (Kept(t, u) || OnlyContents(t, u))
    ensures Kept(s, u)
  {
  }

  lemma HeldTrans(s: Vm, t: Vm, u: Vm)
    requires HeldSame(s, t) && HeldSame(t, u)
    ensures HeldSame(s, u)
  {
  }

  lemma WhyRejected(segments: seq<Segment>, i: nat, sz: nat, free: nat, atFirst: nat)
    requires i < |segments| && ImagePages(segments, i) == Pages(sz) && free >= atFirst - 3 * Pages(sz)
    requires var g := segments[i];
      Malformed(g) || g.avail < g.filesz || (SegmentEnd(g) == 0 && sz == 0) || free < 3 * (Pages(SegmentEnd(g)) - Pages(sz))
    ensures Rejected(segments) || atFirst < 3 * ImagePages(segments, |segments|)
  {
    ImageReaches(segments, i, |segments|);
    if free >= 3 * (Pages(SegmentEnd(segments[i])) - Pages(sz)) {
      assert RejectedAt(segments, i);
    }
  }

  /** The segment loop of exec. */
  method LoadSegments(space: AddressSpace, segments: seq<Segment>) returns (sz: nat, ok: bool)
    requires Image(space.S(), 0, []) && |space.mem| <= PHYSPAGES && forall g :: g in segments ==> ValidSegment(g)
    modifies space
    ensures Kept(old(space.S()), space.S()) && Remains(space.S(), Pages(sz))
    ensures ok ==> Image(space.S(), Pages(sz), ImageOf(segments, |segments|)) && |space.free| >= |old(space.free)| - 3 * Pages(sz)
    ensures ok ==> Loadable(segments, |segments|)
    ensures !ok ==> Rejected(segments) || |old(space.free)| < 3 * ImagePages(segments, |segments|)
  {
    ghost var s := space.S();
    sz := 0;
    var i := 0;
    ghost var cells := [];
    ImageRemains(s, 0, []);
    while i < |segments|
      invariant 0 <= i <= |segments| && Kept(s, space.S()) && Remains(space.S(), Pages(sz))
      invariant Loadable(segments, i)
      invariant cells == ImageOf(segments, i) && Image(space.S(), Pages(sz), cells)
      invariant ImagePages(segments, i) == Pages(sz) && |space.free| >= |s.free| - 3 * Pages(sz)
    {
      ghost var t, before := space.S(), sz;
      sz, ok := LoadSegment(space, sz, segments[i], cells);
      KeptTrans(s, t, space.S());
      if !ok {
        WhyRejected(segments, i, before, |t.free|, |s.free|);
        return;
      }
      var next := i + 1;
      ImageNext(segments, i, next);
      LoadableMore(segments, i, next);
      assert ImagePages(segments, next) == Pages(sz);
      cells := WithSegment(cells, segments[i]);
      i := next;
    }
    ok := true;
  }

  // The guard page and the stack.

  lemma RoundedUp(sz: nat)
    ensures Pages(4096 * Pages(sz)) == Pages(sz) && Pages(4096 * Pages(sz) + 8192) == Pages(sz) + 2
  {
  }

  /** The segments, and then two more pages at the next page boundary. */
  method LoadAll(space: AddressSpace, segments: seq<Segment>) returns (sz: nat, ok: bool, np: nat)
    requires Image(space.S(), 0, []) && |space.mem| <= PHYSPAGES && forall g :: g in segments ==> ValidSegment(g)
    modifies space
    ensures Kept(old(space.S()), space.S()) && Remains(space.S(), Pages(sz))
    ensures ok ==> np == |ImageOf(segments, |segments|)| + 2 && sz == 4096 * np && np == Pages(sz)
    ensures |ImageOf(segments, |segments|)| == ImagePages(segments, |segments|)
    ensures ok ==> Loadable(segments, |segments|) && Image(space.S(), np, Extended(ImageOf(segments, |segments|), np, UserFlags(PTE_W)))
    ensures !ok ==> Rejected(segments) || |old(space.free)| < 3 * (ImagePages(segments, |segments|) + 2)
  {
    ghost var s, cells := space.S(), ImageOf(segments, |segments|);
    np := 0;
    ImageSize(segments, |segments|);
    sz, ok := LoadSegments(space, segments);
    if !ok {
      return;
    }
    RoundedUp(sz);
    np := Pages(sz) + 2;
    sz := 4096 * Pages(sz);
    ghost var t := space.S();
    var r := 0;
    ghost var grew, grown;
    r, grew, grown := GrowImage(space, sz, sz + 8192, np, PTE_W, cells);
    KeptTrans(s, t, space.S());
    ok := r != 0;
    if ok {
      ImageRemains(space.S(), np, grown);
      sz := r;
    }
  }

  /** The finished address space: user memory is these pages, of which the last but one is closed to the user. */
  ghost predicate Program(s: Vm, np: int, cells: seq<Cell>) {
    && Ok(s) && Rooted(s) && Users(s, np) && TopMapped(s) && np >= 2 && Shows(s, cells) && |cells| == np
    && forall v :: 0 <= v < np ==> v in s.leaf && (IsUser(s.leaf[v]) <==> v != np - 2)
  }

  /** uvmclear of the guard page `v`. */
  method Guard(space: AddressSpace, np: nat, v: nat, ghost cells: seq<Cell>)
    requires Image(space.S(), np, cells) && v + 2 == np && cells[v].flags == UserFlags(PTE_W)
    modifies space
    ensures Program(space.S(), np, cells[v := cells[v].(flags := PTE_V + PTE_R + PTE_W)]) && Kept(old(space.S()), space.S())
    ensures |space.mem| == |old(space.mem)|
  {
    ghost var s, r := space.S(), cells[v := cells[v].(flags := PTE_V + PTE_R + PTE_W)];
    space.Uvmclear(v, np);
    ghost var t := space.S();
    forall w | 0 <= w < np ensures HasPage(t, w, r[w].flags, r[w].page) {
      assert UserAt(s, w) && HasPage(s, w, cells[w].flags, cells[w].page);
    }
  }

  lemma ProgramStored(s: Vm, np: nat, cells: seq<Cell>, v: nat, page: Page) returns (t: Vm)
    requires Program(s, np, cells) && v + 1 == np && |page| == 512
    ensures UserAt(s, v) && IsUser(s.leaf[v])
    ensures t == SetPage(s, v, page) && Program(t, np, cells[v := cells[v].(page := page)]) && Kept(s, t)
  {
    ShowsStored(s, cells, np, v, page);
    SetPageOk(s, v, page);
    t := SetPage(s, v, page);
    forall w | 0 <= w < np ensures UserAt(t, w) {
      assert UserAt(s, w);
    }
  }

  /** The copies of the arguments to the stack page `v`, which leave `stack` there. */
  method CopyArguments(space: AddressSpace, np: nat, v: nat, stack: Page, ghost cells: seq<Cell>)
    requires Program(space.S(), np, cells) && v + 1 == np && |stack| == 512
    modifies space
    ensures Program(space.S(), np, cells[v := cells[v].(page := stack)]) && Kept(old(space.S()), space.S())
  {
    ghost var t := ProgramStored(space.S(), np, cells, v, stack);
    assert Is(space.S(), PageOf(space.leaf[v]), User(v));
    PatchWhole(space.mem[PageOf(space.leaf[v])], stack, 4096);
    StorePage(space, v, stack, 4096);
    assert space.S() == t;
  }

  lemma StackCells(cells: seq<Cell>, np: nat, v: nat, w: nat, stack: Page)
    requires np == |cells| + 2 && v + 2 == np && w + 1 == np
    ensures var a := Extended(cells, np, UserFlags(PTE_W));
      && a[v].flags == UserFlags(PTE_W)
      && var b := a[v := a[v].(flags := PTE_V + PTE_R + PTE_W)];
      b[w := b[w].(page := stack)] == Finished(cells, stack)
  {
  }

  lemma ProgramRemains(s: Vm, np: int, cells: seq<Cell>)
    requires Program(s, np, cells)
    ensures Remains(s, np)
  {
  }

  /** The end of exec: the guard page, and the arguments above `base`. */
  method Finish(space: AddressSpace, np: nat, base: int, sz: nat, lens: seq<nat>, stack: Page, ghost cells: seq<Cell>)
    returns (ok: bool, sp: int, ustack: seq<int>)
    requires np == |cells| + 2 && Image(space.S(), np, Extended(cells, np, UserFlags(PTE_W))) && |stack| == 512
    modifies space
    ensures Kept(old(space.S()), space.S()) && Remains(space.S(), np)
    ensures ok <==> |lens| <= MAXARG && Bottom(lens, sz) >= base
    ensures ok ==> Program(space.S(), np, Finished(cells, stack)) && Arguments(lens, ustack, sp, base, sz)
  {
    ghost var s := space.S();
    var v, w := np - 2, np - 1;
    ghost var a := Extended(cells, np, UserFlags(PTE_W));
    StackCells(cells, np, v, w, stack);
    ghost var b := a[v := a[v].(flags := PTE_V + PTE_R + PTE_W)];
    Guard(space, np, v, a);
    ghost var t := space.S();
    ProgramRemains(t, np, b);
    ok, sp, ustack := PushArguments(lens, base, sz);
    if ok {
      CopyArguments(space, np, w, stack, b);
      KeptTrans(s, t, space.S());
      ProgramRemains(space.S(), np, Finished(cells, stack));
    }
  }

  /** Cleans up when anything has failed. */
  method Fail(space: AddressSpace, sz: nat, ghost s: Vm)
    requires HeldSame(s, space.S()) && Remains(space.S(), Pages(sz))
    modifies space
    ensures Ok(space.S()) && AllFree(s, space.S())
  {
    ghost var t := space.S();
    ProcFreepagetable(space, sz);
    AllFreeAfter(s, t, space.S());
  }

  /** A reason to fail: a segment is refused, the arguments are too many or do not fit, or there may not be three free pages, of the `free`
      that there are, for every page of the image. */
  ghost predicate Excused(segments: seq<Segment>, lens: seq<nat>, free: int) {
    var np := ImagePages(segments, |segments|) + 2;
    Rejected(segments) || free < 3 * np || |lens| > MAXARG || Bottom(lens, 4096 * np) < 4096 * np - 4096
  }

  /** All of exec after proc_pagetable. */
  method Build(space: AddressSpace, segments: seq<Segment>, lens: seq<nat>, stack: Page)
    returns (ok: bool, np: nat, sz: nat, base: int, sp: int, ustack: seq<int>)
    requires Image(space.S(), 0, []) && |space.mem| <= PHYSPAGES && forall g :: g in segments ==> ValidSegment(g)
    requires |stack| == 512
    modifies space
    ensures Kept(old(space.S()), space.S()) && Remains(space.S(), Pages(sz))
    ensures ok ==> np == Pages(sz) && Program(space.S(), np, Finished(ImageOf(segments, |segments|), stack))
    ensures ok ==> base == sz - 4096 && Arguments(lens, ustack, sp, base, sz) && ImageBytes(segments)
    ensures !ok ==> Excused(segments, lens, |old(space.free)|)
  {
    ghost var s := space.S();
    base, sp, ustack := 0, 0, [];
    sz, ok, np := LoadAll(space, segments);
    if ok {
      AllLoaded(segments);
      ghost var t := space.S();
      base := sz - 4096;
      ok, sp, ustack := Finish(space, np, base, sz, lens, stack, ImageOf(segments, |segments|));
      KeptTrans(s, t, space.S());
    }
  }

  /** exec's new address space, for a program with these segments and arguments of these lengths. If it succeeds, user
      memory is the image of the segments, a guard page and the stack, and every byte of the image is the one its headers
      ask for; when anything fails, every page it took is free. */
  method Exec(space: AddressSpace, trampoline: nat, trapframe: nat, segments: seq<Segment>, lens: seq<nat>, stack: Page)
    returns (ok: bool, np: nat, sz: nat, base: int, sp: int, ustack: seq<int>)
    requires Ok(space.S()) && NoTable(space.S()) && |space.mem| <= PHYSPAGES && forall g :: g in segments ==> ValidSegment(g)
    requires |stack| == 512
    modifies space
    ensures ok ==> np == Pages(sz) && Program(space.S(), np, Finished(ImageOf(segments, |segments|), stack))
    ensures ok ==> base == sz - 4096 && Arguments(lens, ustack, sp, base, sz) && ImageBytes(segments)
    ensures ok ==> TopAs(space.S(), trampoline, trapframe)
    ensures !ok ==> Ok(space.S()) && AllFree(old(space.S()), space.S())
    ensures !ok ==> Excused(segments, lens, |old(space.free)| - 5)
  {
    ghost var s := space.S();
    np, sz, base, sp, ustack := 0, 0, 0, 0, [];
    ok := ProcPagetable(space, trampoline, trapframe);
    if !ok {
      return;
    }
    ghost var t := space.S();
    ok, np, sz, base, sp, ustack := Build(space, segments, lens, stack);
    HeldTrans(s, t, space.S());
    if ok {
      TopStays(t, space.S(), trampoline, trapframe);
    } else {
      Fail(space, sz, s);
    }
  }
}
