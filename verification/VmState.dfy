/** Physical pages, the free list of kernel/kalloc.c and the three-level Sv39 page table of
    kernel/vm.c, as values. Page number f stands for the page at address 4096 * f. A page is
    512 words of 64 bits; a free page holds the address of the next free one in its first
    word, a page-table page holds 512 entries. */
module VmState {

  type Page = seq<int>

  /** What a page is in use for. */
  datatype Kind =
    | FreeAt(i: int)   // on the free list, with `i` pages after it
    | Held             // handed out by kalloc
    | Root             // the top of the page table
    | Mid(i: int)      // its second level, for entry i of the root
    | Low(k: int)      // its third level, for entry k % 512 of second-level page k / 512
    | User(v: int)     // mapped at virtual page v

  /** `mem` and `head` are the memory and kmem.freelist. The rest says what they mean: `free` is
      the free list, its first page last; `root`, `mid` and `low` are the page-table pages;
      `leaf` is the entry of every mapped virtual page; `kind` gives every page that the
      allocator manages and this table may use exactly one use. */
  datatype Vm = Vm(mem: seq<Page>, head: int, free: seq<int>, root: int, mid: map<int, int>, low: map<int, int>,
                   leaf: map<int, int>, kind: map<int, Kind>)

  // Page-table entries: page number, then ten flag bits (section 4.4 of the RISC-V Privileged
  // Architecture, version 20211203).

  const PTE_V := 1
  const PTE_R := 2
  const PTE_W := 4
  const PTE_X := 8
  const PTE_U := 16

  /** PA2PTE(pa) | flags. */
  function Entry(f: int, flags: int): (e: int) {
    f * 1024 + flags
  }

  function PageOf(e: int): (f: int) {
    e / 1024
  }

  function FlagsOf(e: int): (flags: int) {
    e % 1024
  }

  predicate IsValid(e: int) {
    e % 2 == 1
  }

  /** One of PTE_R, PTE_W and PTE_X is set. */
  predicate IsLeaf(e: int) {
    e / 2 % 8 != 0
  }

  predicate IsUser(e: int) {
    e / 16 % 2 == 1
  }

  predicate Writable(e: int) {
    e / 4 % 2 == 1
  }

  /** flags | PTE_V. */
  function WithV(flags: int): (r: int) {
    flags - flags % 2 + 1
  }

  lemma Mod2(x: int, q: int, r: int)
    requires x == 2 * q + r && 0 <= r < 2
    ensures x % 2 == r
  {
  }

  lemma Mod8(x: int, q: int, r: int)
    requires x == 8 * q + r && 0 <= r < 8
    ensures x % 8 == r
  {
  }

  lemma Div4(x: int, q: int, r: int)
    requires x == 4 * q + r && 0 <= r < 4
    ensures x / 4 == q
  {
  }

  lemma Div16(x: int, q: int, r: int)
    requires x == 16 * q + r && 0 <= r < 16
    ensures x / 16 == q
  {
  }

  lemma EntryPage(f: int, flags: int)
    requires 0 <= flags < 1024
    ensures PageOf(Entry(f, flags)) == f && FlagsOf(Entry(f, flags)) == flags
  {
  }

  lemma EntryBit0(f: int, flags: int)
    requires 0 <= flags < 1024
    ensures IsValid(Entry(f, flags)) == IsValid(flags)
  {
    Mod2(Entry(f, flags), f * 512 + flags / 2, flags % 2);
  }

  lemma EntryLeaf(f: int, flags: int)
    requires 0 <= flags < 1024
    ensures IsLeaf(Entry(f, flags)) == IsLeaf(flags)
  {
    assert Entry(f, flags) / 2 == f * 512 + flags / 2;
    Mod8(f * 512 + flags / 2, f * 64 + flags / 2 / 8, flags / 2 % 8);
  }

  lemma EntryBit2(f: int, flags: int)
    requires 0 <= flags < 1024
    ensures Writable(Entry(f, flags)) == Writable(flags)
  {
    Div4(Entry(f, flags), f * 256 + flags / 4, flags % 4);
    Mod2(f * 256 + flags / 4, f * 128 + flags / 4 / 2, flags / 4 % 2);
  }

  lemma EntryBit4(f: int, flags: int)
    requires 0 <= flags < 1024
    ensures IsUser(Entry(f, flags)) == IsUser(flags)
  {
    Div16(Entry(f, flags), f * 64 + flags / 16, flags % 16);
    Mod2(f * 64 + flags / 16, f * 32 + flags / 16 / 2, flags / 16 % 2);
  }

  /** An entry keeps its page and its flags apart. */
  lemma EntryParts(f: int, flags: int)
    requires 0 <= flags < 1024
    ensures PageOf(Entry(f, flags)) == f && FlagsOf(Entry(f, flags)) == flags
    ensures IsValid(Entry(f, flags)) == IsValid(flags) && IsLeaf(Entry(f, flags)) == IsLeaf(flags)
    ensures IsUser(Entry(f, flags)) == IsUser(flags) && Writable(Entry(f, flags)) == Writable(flags)
  {
    EntryPage(f, flags);
    EntryBit0(f, flags);
    EntryLeaf(f, flags);
    EntryBit2(f, flags);
    EntryBit4(f, flags);
  }

  /** PA2PTE and PTE2PA lose nothing: the entry of any page of a 56-bit physical address fits its 64-bit word. */
  lemma EntryFits(f: int, flags: int)
    requires 0 <= f < 0x1000_0000_0000 && 0 <= flags < 1024
    ensures 0 <= Entry(f, flags) < 0x40_0000_0000_0000
  {
  }

  // Virtual pages: 26 bits, of which the root index has the top 8.

  const MAXPAGE := 0x400_0000

  function Index2(v: int): (i: int) {
    v / 262144
  }

  function Index1(v: int): (i: int) {
    v / 512 % 512
  }

  function Index0(v: int): (i: int) {
    v % 512
  }

  /** The three indices of a virtual page determine it, and are in range. */
  lemma Indices(v: int, w: int)
    requires 0 <= v < MAXPAGE && 0 <= w < MAXPAGE
    ensures 0 <= Index2(v) < 256 && 0 <= Index1(v) < 512 && 0 <= Index0(v) < 512
    ensures v == Index2(v) * 262144 + Index1(v) * 512 + Index0(v)
    ensures v / 512 == Index2(v) * 512 + Index1(v) && v / 512 / 512 == Index2(v)
    ensures Index2(v) == Index2(w) && Index1(v) == Index1(w) && Index0(v) == Index0(w) ==> v == w
  {
  }

  // The invariant.

  /** An entry that points to the page `m` has for `i`, or nothing. */
  function Pointer(m: map<int, int>, i: int): (e: int) {
    if i in m then Entry(m[i], 1) else 0
  }

  function LeafAt(s: Vm, v: int): (e: int) {
    if v in s.leaf then s.leaf[v] else 0
  }

  /** The word that links page `i` of the free list to the next. */
  function Link(free: seq<int>, i: nat): (w: int)
    requires i <= |free|
  {
    if i == 0 then 0 else 4096 * free[i - 1]
  }

  ghost predicate Shape(s: Vm) {
    && (forall f :: 0 <= f < |s.mem| ==> |s.mem[f]| == 512)
    && (forall f :: f in s.kind ==> 0 < f < |s.mem|)
  }

  predicate Is(s: Vm, f: int, k: Kind) {
    f in s.kind && s.kind[f] == k
  }

  /** Every page the free list or the page table names has that kind. */
  ghost predicate Placed(s: Vm) {
    && s.head == Link(s.free, |s.free|)
    && (s.root != 0 ==> Is(s, s.root, Root))
    && (forall i :: 0 <= i < |s.free| ==> Is(s, s.free[i], FreeAt(i)))
    && (forall i :: i in s.mid ==> 0 <= i < 512 && Is(s, s.mid[i], Mid(i)))
    && (forall k :: k in s.low ==> Is(s, s.low[k], Low(k)))
  }

  /** And the other way round. */
  predicate PlacedAs(s: Vm, f: int, k: Kind) {
    match k
    case FreeAt(i) => 0 <= i < |s.free| && s.free[i] == f
    case Held => true
    case Root => f == s.root
    case Mid(i) => i in s.mid && s.mid[i] == f
    case Low(k) => k in s.low && s.low[k] == f
    case User(v) => v in s.leaf && PageOf(s.leaf[v]) == f
  }

  ghost predicate Exact(s: Vm) {
    forall f :: f in s.kind ==> PlacedAs(s, f, s.kind[f])
  }

  /** Word `j` of page `f` is what the use of the page asks for. */
  predicate CellOk(s: Vm, f: int, j: int)
    requires f in s.kind && 0 <= f < |s.mem| && 0 <= j < |s.mem[f]|
  {
    match s.kind[f]
    case FreeAt(i) => j == 0 && 0 <= i <= |s.free| ==> s.mem[f][j] == Link(s.free, i)
    case Root => s.mem[f][j] == Pointer(s.mid, j)
    case Mid(i) => s.mem[f][j] == Pointer(s.low, i * 512 + j)
    case Low(k) => s.mem[f][j] == LeafAt(s, k * 512 + j)
    case _ => true
  }

  ghost predicate Cells(s: Vm)
    requires Shape(s)
  {
    forall f, j :: f in s.kind && 0 <= j < 512 ==> CellOk(s, f, j)
  }

  ghost predicate LeafOk(s: Vm) {
    forall v :: v in s.leaf ==> 0 <= v < MAXPAGE && v / 512 in s.low && 0 < s.leaf[v] && IsValid(s.leaf[v])
  }

  ghost predicate Ok(s: Vm) {
    Shape(s) && Placed(s) && Exact(s) && Cells(s) && LeafOk(s)
  }

  /** The page table hangs together: there is a root and every third-level page is reached. */
  ghost predicate Rooted(s: Vm) {
    s.root != 0 && forall k :: k in s.low ==> k / 512 in s.mid
  }

  /** The entry that the hardware finds for virtual page `v` in the tree at `root`, as section 4.3.2
      of the Privileged Architecture has it; 0 if a level is missing. */
  function Translate(mem: seq<Page>, root: int, v: int): (e: int) {
    var e2 := WordAt(mem, root, Index2(v));
    if !IsValid(e2) then 0
    else
      var e1 := WordAt(mem, PageOf(e2), Index1(v));
      if !IsValid(e1) then 0 else WordAt(mem, PageOf(e1), Index0(v))
  }

  function WordAt(mem: seq<Page>, f: int, j: int): (w: int) {
    if 0 <= f < |mem| && 0 <= j < |mem[f]| then mem[f][j] else 0
  }

  lemma RootWord(s: Vm, v: int)
    requires Ok(s) && Rooted(s) && 0 <= v < MAXPAGE
    ensures WordAt(s.mem, s.root, Index2(v)) == Pointer(s.mid, Index2(v))
  {
    assert 0 <= Index2(v) < 256;
    assert Is(s, s.root, Root) && CellOk(s, s.root, Index2(v));
  }

  lemma MidWord(s: Vm, v: int)
    requires Ok(s) && 0 <= v < MAXPAGE && Index2(v) in s.mid
    ensures WordAt(s.mem, s.mid[Index2(v)], Index1(v)) == Pointer(s.low, v / 512)
  {
    Indices(v, v);
    var m := s.mid[Index2(v)];
    assert Is(s, m, Mid(Index2(v))) && CellOk(s, m, Index1(v));
  }

  lemma LowWord(s: Vm, v: int)
    requires Ok(s) && 0 <= v < MAXPAGE && v / 512 in s.low
    ensures WordAt(s.mem, s.low[v / 512], Index0(v)) == LeafAt(s, v)
  {
    assert v / 512 * 512 + Index0(v) == v;
    var m := s.low[v / 512];
    assert Is(s, m, Low(v / 512)) && CellOk(s, m, Index0(v));
  }

  lemma PointerParts(m: map<int, int>, i: int)
    ensures IsValid(Pointer(m, i)) <==> i in m
    ensures i in m ==> PageOf(Pointer(m, i)) == m[i]
  {
    if i in m {
      EntryParts(m[i], 1);
    }
  }

  /** The three-level tree is the map `leaf`, on all virtual pages. */
  lemma TreeRefinesMap(s: Vm, v: int)
    requires Ok(s) && Rooted(s) && 0 <= v < MAXPAGE
    ensures Translate(s.mem, s.root, v) == LeafAt(s, v)
  {
    RootWord(s, v);
    PointerParts(s.mid, Index2(v));
    PointerParts(s.low, v / 512);
    assert v / 512 / 512 == Index2(v);
    if Index2(v) in s.mid {
      MidWord(s, v);
      if v / 512 in s.low {
        LowWord(s, v);
      }
    }
  }

  /** No page has two uses, and none is lost: it is on the free list, in the page table, mapped,
      or in the hands of a caller of kalloc. */
  lemma Conservation(s: Vm)
    requires Ok(s)
    ensures forall i, j :: 0 <= i < j < |s.free| ==> s.free[i] != s.free[j]
    ensures forall a, b :: a in s.mid && b in s.mid && a != b ==> s.mid[a] != s.mid[b]
    ensures forall a, b :: a in s.low && b in s.low && a != b ==> s.low[a] != s.low[b]
    ensures forall i, a :: 0 <= i < |s.free| && a in s.mid ==> s.free[i] != s.mid[a]
    ensures forall i, a :: 0 <= i < |s.free| && a in s.low ==> s.free[i] != s.low[a]
    ensures forall a, b :: a in s.mid && b in s.low ==> s.mid[a] != s.low[b]
    ensures s.root != 0 ==> s.root !in s.free && (forall a :: a in s.mid ==> s.mid[a] != s.root) && (forall a :: a in s.low ==> s.low[a] != s.root)
    ensures forall f :: f in s.kind ==> (s.kind[f] == Held || f in s.free || f == s.root || (s.kind[f].Mid? && f in s.mid.Values) ||
      (s.kind[f].Low? && f in s.low.Values) || (s.kind[f].User? && s.kind[f].v in s.leaf && PageOf(s.leaf[s.kind[f].v]) == f))
  {
    forall f | f in s.kind ensures PlacedAs(s, f, s.kind[f]) {
    }
    assert forall a :: a in s.mid ==> s.mid[a] in s.mid.Values;
    assert forall a :: a in s.low ==> s.low[a] in s.low.Values;
  }

  // The changes the kernel makes.

  function Filled(w: int): (p: Page) {
    seq(512, _ => w)
  }

  /** kalloc: takes the first free page and fills it. */
  function Alloc(s: Vm, page: Page): (t: Vm)
    requires |s.free| > 0 && 0 <= s.free[|s.free| - 1] < |s.mem|
  {
    var f := s.free[|s.free| - 1];
    s.(mem := s.mem[f := page], head := Link(s.free, |s.free| - 1), free := s.free[..|s.free| - 1], kind := s.kind[f := Held])
  }

  /** kfree: puts page `f` first. */
  function Free(s: Vm, f: int): (t: Vm)
    requires 0 <= f < |s.mem|
  {
    s.(mem := s.mem[f := Filled(0x0101_0101_0101_0101)[0 := Link(s.free, |s.free|)]], head := 4096 * f, free := s.free + [f],
       kind := s.kind[f := FreeAt(|s.free|)])
  }

  /** walk: page `f`, filled with zeroes, becomes the second-level page for `i`. */
  function AddMid(s: Vm, i: int, f: int): (t: Vm)
    requires 0 <= f < |s.mem| && 0 <= s.root < |s.mem| && 0 <= i < |s.mem[s.root]|
  {
    s.(mem := s.mem[s.root := s.mem[s.root][i := Entry(f, 1)]], mid := s.mid[i := f], kind := s.kind[f := Mid(i)])
  }

  /** The same for the third-level page of entry `k`. */
  function AddLow(s: Vm, k: int, f: int): (t: Vm)
    requires k / 512 in s.mid && 0 <= s.mid[k / 512] < |s.mem| && |s.mem[s.mid[k / 512]]| == 512
  {
    var m := s.mid[k / 512];
    s.(mem := s.mem[m := s.mem[m][k % 512 := Entry(f, 1)]], low := s.low[k := f], kind := s.kind[f := Low(k)])
  }

  /** Writes the entry of virtual page `v`; 0 removes it. */
  function SetLeaf(s: Vm, v: int, e: int): (t: Vm)
    requires v / 512 in s.low && 0 <= s.low[v / 512] < |s.mem| && |s.mem[s.low[v / 512]]| == 512
  {
    var m := s.low[v / 512];
    s.(mem := s.mem[m := s.mem[m][v % 512 := e]], leaf := if e == 0 then s.leaf - {v} else s.leaf[v := e])
  }

  // Each of them keeps the invariant, word by word and page by page.

  lemma AllocCell(s: Vm, page: Page, g: int, j: int)
    requires Ok(s) && |s.free| > 0 && |page| == 512 && g in s.kind && 0 <= j < 512
    ensures Shape(Alloc(s, page)) && CellOk(Alloc(s, page), g, j) && PlacedAs(Alloc(s, page), g, Alloc(s, page).kind[g])
  {
    var f := s.free[|s.free| - 1];
    assert Is(s, f, FreeAt(|s.free| - 1));
    assert CellOk(s, g, j) && PlacedAs(s, g, s.kind[g]);
  }

  lemma AllocOk(s: Vm, page: Page)
    requires Ok(s) && |s.free| > 0 && |page| == 512
    ensures Ok(Alloc(s, page)) && Is(s, s.free[|s.free| - 1], FreeAt(|s.free| - 1))
    ensures s.mem[s.free[|s.free| - 1]][0] == Alloc(s, page).head
  {
    var t := Alloc(s, page);
    var f := s.free[|s.free| - 1];
    assert Is(s, f, FreeAt(|s.free| - 1)) && CellOk(s, f, 0);
    forall g, j | g in t.kind && 0 <= j < 512 ensures CellOk(t, g, j) {
      AllocCell(s, page, g, j);
    }
    forall g | g in t.kind ensures PlacedAs(t, g, t.kind[g]) {
      AllocCell(s, page, g, 0);
    }
    assert Placed(t);
  }

  lemma FreeCell(s: Vm, f: int, g: int, j: int)
    requires Ok(s) && Is(s, f, Held) && g in s.kind && 0 <= j < 512
    ensures Shape(Free(s, f)) && CellOk(Free(s, f), g, j) && PlacedAs(Free(s, f), g, Free(s, f).kind[g])
  {
    assert CellOk(s, g, j) && PlacedAs(s, g, s.kind[g]);
  }

  lemma FreeOk(s: Vm, f: int)
    requires Ok(s) && Is(s, f, Held)
    ensures Ok(Free(s, f))
  {
    var t := Free(s, f);
    forall g, j | g in t.kind && 0 <= j < 512 ensures CellOk(t, g, j) {
      FreeCell(s, f, g, j);
    }
    forall g | g in t.kind ensures PlacedAs(t, g, t.kind[g]) {
      FreeCell(s, f, g, 0);
    }
    assert Placed(t);
  }

  lemma MidCell(s: Vm, i: int, f: int, g: int, j: int)
    requires Ok(s) && Rooted(s) && Is(s, f, Held) && 0 <= i < 512 && i !in s.mid && s.mem[f] == Filled(0) && g in s.kind && 0 <= j < 512
    ensures Shape(AddMid(s, i, f)) && CellOk(AddMid(s, i, f), g, j)
  {
    assert CellOk(s, g, j) && PlacedAs(s, g, s.kind[g]);
    if g == f {
      Split(i * 512 + j, i, j);
      assert i * 512 + j !in s.low;
    } else {
      OldMidCell(s, i, f, g, j);
    }
  }

  lemma OldMidCell(s: Vm, i: int, f: int, g: int, j: int)
    requires Shape(s) && Is(s, f, Held) && 0 <= i < 512 && i !in s.mid && Is(s, s.root, Root)
    requires g in s.kind && g != f && 0 <= j < 512 && CellOk(s, g, j) && PlacedAs(s, g, s.kind[g])
    ensures Shape(AddMid(s, i, f)) && CellOk(AddMid(s, i, f), g, j)
  {
  }

  lemma MidPlaced(s: Vm, i: int, f: int, g: int)
    requires Ok(s) && Rooted(s) && Is(s, f, Held) && 0 <= i < 512 && i !in s.mid && g in s.kind
    ensures g in AddMid(s, i, f).kind && PlacedAs(AddMid(s, i, f), g, AddMid(s, i, f).kind[g])
  {
    assert PlacedAs(s, g, s.kind[g]);
  }

  lemma AddMidOk(s: Vm, i: int, f: int)
    requires Ok(s) && Rooted(s) && Is(s, f, Held) && 0 <= i < 512 && i !in s.mid && s.mem[f] == Filled(0)
    ensures Ok(AddMid(s, i, f)) && Rooted(AddMid(s, i, f))
  {
    var t := AddMid(s, i, f);
    forall g, j | g in t.kind && 0 <= j < 512 ensures CellOk(t, g, j) {
      MidCell(s, i, f, g, j);
    }
    forall g | g in t.kind ensures PlacedAs(t, g, t.kind[g]) {
      MidPlaced(s, i, f, g);
    }
    assert Placed(t);
  }

  /** An entry number is a page number and an index within the page. */
  lemma Split(k: int, i: int, j: int)
    requires 0 <= j < 512
    ensures i * 512 + j == k <==> i == k / 512 && j == k % 512
  {
  }

  lemma LowCell(s: Vm, k: int, f: int, g: int, j: int)
    requires Ok(s) && Rooted(s) && Is(s, f, Held) && k / 512 in s.mid && k !in s.low && s.mem[f] == Filled(0) && g in s.kind && 0 <= j < 512
    ensures Shape(AddLow(s, k, f)) && CellOk(AddLow(s, k, f), g, j)
  {
    assert CellOk(s, g, j) && PlacedAs(s, g, s.kind[g]);
    assert Is(s, s.mid[k / 512], Mid(k / 512));
    if g == f {
      Split(k * 512 + j, k, j);
      assert k * 512 + j !in s.leaf;
    } else {
      OldLowCell(s, k, f, g, j);
    }
  }

  /** The words of the other pages, of which one is new. */
  lemma OldLowCell(s: Vm, k: int, f: int, g: int, j: int)
    requires Shape(s) && Is(s, f, Held) && k / 512 in s.mid && Is(s, s.mid[k / 512], Mid(k / 512)) && k !in s.low
    requires g in s.kind && g != f && 0 <= j < 512 && CellOk(s, g, j) && PlacedAs(s, g, s.kind[g])
    ensures Shape(AddLow(s, k, f)) && CellOk(AddLow(s, k, f), g, j)
  {
    if s.kind[g].Mid? {
      Split(k, s.kind[g].i, j);
    }
  }

  lemma LowPlaced(s: Vm, k: int, f: int, g: int)
    requires Ok(s) && Rooted(s) && Is(s, f, Held) && k / 512 in s.mid && k !in s.low && g in s.kind
    ensures g in AddLow(s, k, f).kind && PlacedAs(AddLow(s, k, f), g, AddLow(s, k, f).kind[g])
  {
    assert PlacedAs(s, g, s.kind[g]);
  }

  lemma AddLowOk(s: Vm, k: int, f: int)
    requires Ok(s) && Rooted(s) && Is(s, f, Held) && k / 512 in s.mid && k !in s.low && s.mem[f] == Filled(0)
    ensures Ok(AddLow(s, k, f)) && Rooted(AddLow(s, k, f))
  {
    var t := AddLow(s, k, f);
    forall g, j | g in t.kind && 0 <= j < 512 ensures CellOk(t, g, j) {
      LowCell(s, k, f, g, j);
    }
    forall g | g in t.kind ensures PlacedAs(t, g, t.kind[g]) {
      LowPlaced(s, k, f, g);
    }
    assert Placed(t);
  }

  lemma LeafCell(s: Vm, v: int, e: int, g: int, j: int)
    requires Ok(s) && 0 <= v < MAXPAGE && v / 512 in s.low && g in s.kind && s.kind[g] != User(v) && 0 <= j < 512
    ensures Shape(SetLeaf(s, v, e)) && CellOk(SetLeaf(s, v, e), g, j) && PlacedAs(SetLeaf(s, v, e), g, s.kind[g])
  {
    assert CellOk(s, g, j) && PlacedAs(s, g, s.kind[g]);
  }

  lemma SetLeafOk(s: Vm, v: int, e: int)
    requires Ok(s) && 0 <= v < MAXPAGE && v / 512 in s.low && (e == 0 || (0 < e && IsValid(e)))
    requires forall f :: f in s.kind ==> s.kind[f] != User(v)
    ensures Ok(SetLeaf(s, v, e))
  {
    var t := SetLeaf(s, v, e);
    forall g, j | g in t.kind && 0 <= j < 512 ensures CellOk(t, g, j) {
      LeafCell(s, v, e, g, j);
    }
    forall g | g in t.kind ensures PlacedAs(t, g, t.kind[g]) {
      LeafCell(s, v, e, g, 0);
    }
    assert Placed(t);
  }

  // What walk may change.

  predicate IsTable(k: Kind) {
    k.Root? || k.Mid? || k.Low?
  }

  /** Some free pages have become page-table pages, and no other page has changed its use
      or, unless it is a page-table page, its contents. */
  ghost predicate SamePages(s: Vm, t: Vm) {
    && |t.mem| == |s.mem| && t.root == s.root && t.kind.Keys == s.kind.Keys
    && t.free <= s.free
    && (forall f :: f in s.kind ==> t.kind[f] == s.kind[f] || (s.kind[f].FreeAt? && IsTable(t.kind[f])))
    && (forall f :: 0 <= f < |s.mem| && !(f in s.kind && (s.kind[f].FreeAt? || IsTable(s.kind[f]))) ==> t.mem[f] == s.mem[f])
    && (forall i :: i in s.mid ==> i in t.mid && t.mid[i] == s.mid[i])
    && (forall k :: k in s.low ==> k in t.low && t.low[k] == s.low[k])
  }

  ghost predicate Grown(s: Vm, t: Vm) {
    SamePages(s, t) && t.leaf == s.leaf
  }

  lemma SameTrans(s: Vm, t: Vm, u: Vm)
    requires SamePages(s, t) && SamePages(t, u)
    ensures SamePages(s, u)
  {
  }

  lemma GrownNot(s: Vm)
    ensures Grown(s, s)
  {
  }

  lemma GrownMid(s: Vm, i: int)
    requires Ok(s) && Rooted(s) && |s.free| > 0 && 0 <= i < 512 && i !in s.mid
    ensures var f := s.free[|s.free| - 1]; var t := AddMid(Alloc(s, Filled(0)), i, f); Ok(t) && Rooted(t) && Grown(s, t)
  {
    AllocOk(s, Filled(0));
    var f := s.free[|s.free| - 1];
    var m := Alloc(s, Filled(0));
    assert Is(s, s.root, Root);
    AddMidOk(m, i, f);
  }

  lemma GrownLow(s: Vm, k: int)
    requires Ok(s) && Rooted(s) && |s.free| > 0 && k / 512 in s.mid && k !in s.low
    ensures var f := s.free[|s.free| - 1]; var t := AddLow(Alloc(s, Filled(0)), k, f); Ok(t) && Rooted(t) && Grown(s, t)
  {
    AllocOk(s, Filled(0));
    var f := s.free[|s.free| - 1];
    var m := Alloc(s, Filled(0));
    assert Is(s, s.mid[k / 512], Mid(k / 512));
    AddLowOk(m, k, f);
  }

  // What uvmclear does.

  /** entry & ~PTE_U. */
  function WithoutU(e: int): (r: int) {
    if IsUser(e) then e - 16 else e
  }

  lemma FlagsWithoutU(flags: int, rest: int)
    requires 0 <= flags < 1024 && IsUser(flags) && IsValid(flags) && rest == flags - 16
    ensures 0 <= rest && !IsUser(rest) && IsValid(rest) && IsLeaf(rest) == IsLeaf(flags)
  {
    assert rest / 16 == flags / 16 - 1;
    assert rest / 2 == flags / 2 - 8;
  }

  lemma Decode(e: int) returns (f: int, flags: int)
    ensures e == Entry(f, flags) && 0 <= flags < 1024 && (e >= 0 ==> f >= 0)
  {
    f, flags := PageOf(e), FlagsOf(e);
  }

  lemma EntryCleared(f: int, flags: int, rest: int)
    requires 0 <= f && 0 <= flags < 1024 && IsValid(flags) && IsUser(flags) && rest == flags - 16
    ensures var r := Entry(f, rest);
      r > 0 && IsValid(r) && PageOf(r) == f && IsLeaf(r) == IsLeaf(flags) && !IsUser(r) && FlagsOf(r) == rest && r == Entry(f, flags) - 16
  {
    FlagsWithoutU(flags, rest);
    EntryParts(f, rest);
  }

  lemma EntryWithoutU(f: int, flags: int, e: int)
    requires 0 <= f && 0 <= flags < 1024 && IsValid(flags) && e == Entry(f, flags)
    ensures var r := WithoutU(e);
      r > 0 && IsValid(r) && PageOf(r) == f && IsLeaf(r) == IsLeaf(flags) && !IsUser(r) && FlagsOf(r) == WithoutU(flags)
  {
    EntryParts(f, flags);
    if IsUser(flags) {
      EntryCleared(f, flags, flags - 16);
    }
  }

  /** Only the user bit goes. */
  lemma WithoutUParts(e: int)
    requires 0 < e && IsValid(e)
    ensures 0 < WithoutU(e) && IsValid(WithoutU(e)) && PageOf(WithoutU(e)) == PageOf(e)
    ensures IsLeaf(WithoutU(e)) == IsLeaf(e) && !IsUser(WithoutU(e)) && FlagsOf(WithoutU(e)) == WithoutU(FlagsOf(e))
  {
    var f, flags := Decode(e);
    EntryParts(f, flags);
    EntryWithoutU(f, flags, e);
  }

  lemma ClearCell(s: Vm, v: int, g: int, j: int)
    requires Ok(s) && v in s.leaf && g in s.kind && 0 <= j < 512
    ensures Is(s, s.low[v / 512], Low(v / 512)) && |s.mem[s.low[v / 512]]| == 512
    ensures var t := SetLeaf(s, v, WithoutU(s.leaf[v])); Shape(t) && CellOk(t, g, j) && PlacedAs(t, g, s.kind[g])
  {
    WithoutUParts(s.leaf[v]);
    assert Is(s, s.low[v / 512], Low(v / 512));
    assert CellOk(s, g, j) && PlacedAs(s, g, s.kind[g]);
  }

  lemma ClearOk(s: Vm, v: int)
    requires Ok(s) && v in s.leaf
    ensures Is(s, s.low[v / 512], Low(v / 512)) && |s.mem[s.low[v / 512]]| == 512
    ensures Ok(SetLeaf(s, v, WithoutU(s.leaf[v])))
  {
    WithoutUParts(s.leaf[v]);
    assert Is(s, s.low[v / 512], Low(v / 512));
    var t := SetLeaf(s, v, WithoutU(s.leaf[v]));
    forall g, j | g in t.kind && 0 <= j < 512 ensures CellOk(t, g, j) {
      ClearCell(s, v, g, j);
    }
    forall g | g in t.kind ensures PlacedAs(t, g, t.kind[g]) {
      ClearCell(s, v, g, 0);
    }
    assert Placed(t);
  }

  // What mappages does.

  /** `t` has the mappings of `s` and also those of the `n` virtual pages from `v` on to the
      pages from `f` on. */
  ghost predicate Maps(s: Vm, t: Vm, v: int, n: int, f: int, flags: int) {
    forall w :: LeafAt(t, w) == if v <= w < v + n then Entry(f + w - v, flags) else LeafAt(s, w)
  }

  /** One page, or none, is mapped. */
  lemma MapsOne(s: Vm, t: Vm, v: int, f: int, flags: int)
    requires forall w :: LeafAt(t, w) == if w == v then Entry(f, flags) else LeafAt(s, w)
    ensures Maps(s, t, v, 1, f, flags)
  {
    forall w ensures LeafAt(t, w) == if v <= w < v + 1 then Entry(f + w - v, flags) else LeafAt(s, w) {
      assert w == v ==> f + w - v == f;
    }
  }

  lemma MapsAt(s: Vm, t: Vm, v: int, n: int, f: int, flags: int)
    requires Maps(s, t, v, n, f, flags) && 0 <= n <= 1
    ensures forall w :: LeafAt(t, w) == if n == 1 && w == v then Entry(f, flags) else LeafAt(s, w)
  {
    forall w ensures LeafAt(t, w) == if n == 1 && w == v then Entry(f, flags) else LeafAt(s, w) {
      assert w == v ==> f + w - v == f;
    }
  }

  lemma MapsNone(s: Vm, t: Vm, v: int, f: int, flags: int)
    requires t.leaf == s.leaf
    ensures Maps(s, t, v, 0, f, flags)
  {
  }

  lemma SetLeafSame(s: Vm, v: int, e: int)
    requires Ok(s) && v / 512 in s.low
    ensures Is(s, s.low[v / 512], Low(v / 512)) && |s.mem[s.low[v / 512]]| == 512
    ensures SamePages(s, SetLeaf(s, v, e))
    ensures forall w :: LeafAt(SetLeaf(s, v, e), w) == if w == v then e else LeafAt(s, w)
  {
    assert Is(s, s.low[v / 512], Low(v / 512));
  }

  lemma MapsMore(s: Vm, t: Vm, u: Vm, v: int, i: int, w: int, g: int, k: int, j: int, f: int, flags: int)
    requires w == v + i && g == f + i && j == i + k && Maps(s, t, v, i, f, flags) && Maps(t, u, w, k, g, flags) && i >= 0 && k >= 0
    ensures Maps(s, u, v, j, f, flags)
  {
    forall x ensures LeafAt(u, x) == if v <= x < v + j then Entry(f + x - v, flags) else LeafAt(s, x) {
      assert LeafAt(t, x) == if v <= x < w then Entry(f + x - v, flags) else LeafAt(s, x);
      assert LeafAt(u, x) == if w <= x < w + k then Entry(g + x - w, flags) else LeafAt(t, x);
      assert g + x - w == f + x - v;
    }
  }

  /** Where walk points is the entry of `v`. */
  lemma SlotHolds(s: Vm, v: int)
    requires Ok(s) && 0 <= v && v / 512 in s.low
    ensures Is(s, s.low[v / 512], Low(v / 512)) && |s.mem[s.low[v / 512]]| == 512
    ensures s.mem[s.low[v / 512]][v % 512] == LeafAt(s, v)
    ensures IsValid(LeafAt(s, v)) <==> v in s.leaf
  {
    assert Is(s, s.low[v / 512], Low(v / 512));
    assert CellOk(s, s.low[v / 512], v % 512);
  }

  /** The entry of a page that is not mapped is empty, and no page is in use for it. */
  lemma EmptySlot(s: Vm, v: int)
    requires Ok(s) && 0 <= v && v / 512 in s.low && LeafAt(s, v) == 0
    ensures Is(s, s.low[v / 512], Low(v / 512)) && |s.mem[s.low[v / 512]]| == 512
    ensures s.mem[s.low[v / 512]][v % 512] == 0 && forall f :: f in s.kind ==> s.kind[f] != User(v)
  {
    SlotHolds(s, v);
    forall f | f in s.kind ensures s.kind[f] != User(v) {
      assert PlacedAs(s, f, s.kind[f]);
    }
  }

  // User memory.

  /** The two pages at the top, trampoline and trapframe, are mapped apart from user memory. */
  const TRAPFRAME := 0x3FF_FFFE

  /** Virtual page `v` is mapped to a page of its own. */
  predicate UserAt(s: Vm, v: int) {
    v in s.leaf && IsLeaf(s.leaf[v]) && Is(s, PageOf(s.leaf[v]), User(v))
  }

  /** User memory is exactly the virtual pages below `np`, each mapped to a page of its own. */
  ghost predicate Users(s: Vm, np: int) {
    && 0 <= np <= TRAPFRAME
    && (forall v :: 0 <= v < np ==> UserAt(s, v))
    && (forall v :: v in s.leaf ==> v < np || v >= TRAPFRAME)
    && (forall f :: f in s.kind && s.kind[f].User? ==> 0 <= s.kind[f].v < np)
  }

  /** A page that may change hands while the mappings of [lo, hi) change. */
  predicate Loose(k: Kind, lo: int, hi: int) {
    k.FreeAt? || (k.User? && lo <= k.v < hi)
  }

  /** From `s` to `t` only the mappings of [lo, hi) have changed, and the pages for them have
      come from the free list or gone back to it, as have those of new page-table pages.
      Every other page has its use and its contents. */
  ghost predicate Churn(s: Vm, t: Vm, lo: int, hi: int) {
    && |t.mem| == |s.mem| && t.root == s.root && t.kind.Keys == s.kind.Keys
    && (forall w :: !(lo <= w < hi) ==> LeafAt(t, w) == LeafAt(s, w))
    && (forall f :: f in s.kind ==>
          t.kind[f] == s.kind[f] || (Loose(s.kind[f], lo, hi) && (Loose(t.kind[f], lo, hi) || IsTable(t.kind[f]))))
    && (forall f :: 0 <= f < |s.mem| && !(f in s.kind && (IsTable(s.kind[f]) || Loose(s.kind[f], lo, hi))) ==> t.mem[f] == s.mem[f])
  }

  lemma ChurnTrans(s: Vm, t: Vm, u: Vm, lo: int, m: int, hi: int)
    requires Churn(s, t, lo, m) && Churn(t, u, m, hi) && lo <= m <= hi
    ensures Churn(s, u, lo, hi)
  {
  }

  lemma ChurnDown(s: Vm, t: Vm, u: Vm, lo: int, m: int, hi: int)
    requires Churn(s, t, lo, hi) && Churn(t, u, m, hi) && lo <= m <= hi
    ensures Churn(s, u, lo, hi)
  {
  }

  function Relabel(s: Vm, f: int, k: Kind): (t: Vm) {
    s.(kind := s.kind[f := k])
  }

  lemma ToUser(s: Vm, f: int, v: int)
    requires Ok(s) && Is(s, f, Held) && v in s.leaf && PageOf(s.leaf[v]) == f
    ensures Ok(Relabel(s, f, User(v)))
  {
    var t := Relabel(s, f, User(v));
    forall g, j | g in t.kind && 0 <= j < 512 ensures CellOk(t, g, j) {
      assert CellOk(s, g, j);
    }
    forall g | g in t.kind ensures PlacedAs(t, g, t.kind[g]) {
      assert PlacedAs(s, g, s.kind[g]);
    }
  }

  lemma ToHeld(s: Vm, f: int, v: int)
    requires Ok(s) && Is(s, f, User(v))
    ensures Ok(Relabel(s, f, Held))
  {
    var t := Relabel(s, f, Held);
    forall g, j | g in t.kind && 0 <= j < 512 ensures CellOk(t, g, j) {
      assert CellOk(s, g, j);
    }
    forall g | g in t.kind ensures PlacedAs(t, g, t.kind[g]) {
      assert PlacedAs(s, g, s.kind[g]);
    }
  }

  /** A page is taken off the free list, page-table pages perhaps too, and it goes back. */
  lemma AddUndone(s: Vm, page: Page, t: Vm, a: int, b: int, f: int)
    requires Ok(s) && |s.free| > 0 && |page| == 512 && Ok(t) && SamePages(Alloc(s, page), t) && f == s.free[|s.free| - 1]
    requires forall w :: LeafAt(t, w) == LeafAt(s, w)
    ensures Is(t, f, Held) && Ok(Free(t, f)) && Churn(s, Free(t, f), a, b) && (forall w :: LeafAt(Free(t, f), w) == LeafAt(s, w))
  {
    AllocOk(s, page);
    assert Is(Alloc(s, page), f, Held);
    assert Is(t, f, Held);
    FreeOk(t, f);
    assert Is(s, f, FreeAt(|s.free| - 1));
    AllocFreed(s, page, t, a, b, f);
  }

  lemma AllocFreed(s: Vm, page: Page, t: Vm, a: int, b: int, f: int)
    requires Shape(s) && |s.free| > 0 && f == s.free[|s.free| - 1] && Is(s, f, FreeAt(|s.free| - 1))
    requires SamePages(Alloc(s, page), t) && Is(t, f, Held)
    requires forall w :: LeafAt(t, w) == LeafAt(s, w)
    ensures 0 <= f < |t.mem| && Churn(s, Free(t, f), a, b)
  {
  }

  /** A page is taken off the free list and mapped at `a`. */
  lemma AddDone(s: Vm, page: Page, t: Vm, a: int, b: int, f: int, flags: int)
    requires Ok(s) && |s.free| > 0 && |page| == 512 && Ok(t) && SamePages(Alloc(s, page), t) && f == s.free[|s.free| - 1]
    requires 0 <= flags < 1024 && IsValid(flags) && Maps(s, t, a, 1, f, flags) && b == a + 1
    ensures var u := Relabel(t, f, User(a));
      && Is(t, f, Held) && Ok(u) && Churn(s, u, a, b)
      && a in u.leaf && u.leaf[a] == Entry(f, flags) && PageOf(u.leaf[a]) == f && u.mem[f] == page
  {
    AllocOk(s, page);
    assert Is(Alloc(s, page), f, Held);
    assert Is(t, f, Held);
    EntryParts(f, flags);
    assert LeafAt(t, a) == Entry(f, flags);
    ToUser(t, f, a);
  }

  /** Virtual page `v` has these flags and its page these contents. */
  predicate HasPage(s: Vm, v: int, flags: int, page: Page) {
    v in s.leaf && FlagsOf(s.leaf[v]) == flags && 0 <= PageOf(s.leaf[v]) < |s.mem| && s.mem[PageOf(s.leaf[v])] == page
  }

  lemma LeafIff(s: Vm, v: int)
    requires LeafOk(s)
    ensures v in s.leaf <==> LeafAt(s, v) != 0
  {
  }

  lemma NewEntry(f: int, perm: int, flags: int)
    requires 0 <= f && 0 <= perm < 1024 && flags == WithV(perm)
    ensures 0 < Entry(f, flags) && IsValid(Entry(f, flags))
  {
    WithVBits(perm);
    EntryParts(f, flags);
  }

  lemma UserStays(s: Vm, u: Vm, lo: int, hi: int, v: int)
    requires Churn(s, u, lo, hi) && UserAt(s, v) && !(lo <= v < hi) && s.leaf[v] != 0
    ensures UserAt(u, v)
  {
    assert LeafAt(u, v) == LeafAt(s, v);
  }

  lemma UsersGrow(s: Vm, u: Vm, a: int, b: int)
    requires Users(s, a) && b == a + 1 && Churn(s, u, a, b) && a < TRAPFRAME && UserAt(u, a) && LeafOk(s) && LeafOk(u)
    ensures Users(u, b)
  {
    forall v | 0 <= v < b ensures UserAt(u, v) {
      if v < a {
        UserStays(s, u, a, b, v);
      }
    }
    forall v | v in u.leaf ensures v < b || v >= TRAPFRAME {
      LeafIff(s, v);
      LeafIff(u, v);
    }
  }

  lemma WithVBits(perm: int)
    requires 0 <= perm < 1024
    ensures 0 <= WithV(perm) < 1024 && IsValid(WithV(perm))
  {
  }

  /** The next page of user memory is to be `a`, with the first free page. */
  ghost predicate Taking(s: Vm, a: int, b: int, f: int, page: Page) {
    && Ok(s) && Users(s, a) && a < TRAPFRAME && b == a + 1 && |page| == 512
    && s.free != [] && f == s.free[|s.free| - 1] && Is(s, f, FreeAt(|s.free| - 1))
  }

  /** It is, if `ok`, with these flags and contents; otherwise all mappings are as in `s`. */
  ghost predicate Added(s: Vm, t: Vm, a: int, b: int, ok: bool, flags: int, page: Page) {
    Ok(t) && Rooted(t) && Churn(s, t, a, b) && Users(t, if ok then b else a) && (ok ==> HasPage(t, a, flags, page))
  }

  lemma AddedUser(s: Vm, page: Page, t: Vm, a: int, b: int, f: int, perm: int)
    requires Taking(s, a, b, f, page) && Ok(t) && 0 <= perm < 1024 && IsLeaf(WithV(perm))
    requires SamePages(Alloc(s, page), t) && Maps(Alloc(s, page), t, a, 1, f, WithV(perm))
    ensures var u := Relabel(t, f, User(a));
      Ok(u) && Churn(s, u, a, b) && Users(u, b) && HasPage(u, a, WithV(perm), page)
  {
    var flags := WithV(perm);
    WithVBits(perm);
    assert forall w :: LeafAt(Alloc(s, page), w) == LeafAt(s, w);
    AddDone(s, page, t, a, b, f, flags);
    EntryParts(f, flags);
    UsersGrow(s, Relabel(t, f, User(a)), a, b);
  }

  lemma NotAddedUser(s: Vm, page: Page, t: Vm, a: int, b: int, f: int, flags: int)
    requires Taking(s, a, b, f, page) && Ok(t)
    requires SamePages(Alloc(s, page), t) && Maps(Alloc(s, page), t, a, 0, f, flags)
    ensures var u := Free(t, f);
      Is(t, f, Held) && Ok(u) && Churn(s, u, a, b) && Users(u, a)
  {
    assert forall w :: LeafAt(t, w) == LeafAt(Alloc(s, page), w) && LeafAt(Alloc(s, page), w) == LeafAt(s, w);
    AddUndone(s, page, t, a, b, f);
    LeafIff(s, a);
    UsersCut(s, Free(t, f), a, a, b);
  }

  /** The mappings of [v, hi) are gone, and with them the user memory from `v` on. */
  lemma UsersCut(s: Vm, u: Vm, v: int, np: int, hi: int)
    requires Users(s, np) && 0 <= v <= np <= hi && Churn(s, u, v, hi) && LeafOk(s) && LeafOk(u) && Exact(u)
    requires forall w :: v <= w < hi ==> LeafAt(u, w) == 0
    ensures Users(u, v)
  {
    forall w | 0 <= w < v ensures UserAt(u, w) {
      UserStays(s, u, v, hi, w);
    }
    forall w | w in u.leaf ensures w < v || w >= TRAPFRAME {
      LeafIff(s, w);
      LeafIff(u, w);
    }
    forall f | f in u.kind && u.kind[f].User? ensures 0 <= u.kind[f].v < v {
      assert PlacedAs(u, f, u.kind[f]);
      LeafIff(u, u.kind[f].v);
    }
  }

  // Physical memory ends at PHYSTOP, far below the trapframe page as a virtual page.

  const PHYSPAGES := 0x8_8000

  lemma {:induction false} PagesBelow(pages: set<int>, n: nat)
    requires forall f :: f in pages ==> 0 < f <= n
    ensures |pages| <= n
  {
    if n == 0 {
      assert forall f :: f !in pages;
    } else {
      PagesBelow(pages - {n}, n - 1);
    }
  }

  lemma {:induction false} UserPages(s: Vm, np: nat) returns (pages: set<int>)
    requires forall v :: 0 <= v < np ==> UserAt(s, v)
    ensures |pages| == np && forall f :: f in pages ==> f in s.kind && s.kind[f].User? && s.kind[f].v < np
  {
    if np == 0 {
      pages := {};
    } else {
      pages := UserPages(s, np - 1);
      assert UserAt(s, np - 1);
      var f := PageOf(s.leaf[np - 1]);
      assert f !in pages;
      pages := pages + {f};
    }
  }

  /** There are fewer user pages than pages, so user memory never reaches the trapframe. */
  lemma UsersFit(s: Vm, np: int)
    requires Users(s, np) && Shape(s) && |s.mem| <= PHYSPAGES
    ensures np <= PHYSPAGES && np < TRAPFRAME
  {
    var pages := UserPages(s, np);
    PagesBelow(pages, |s.mem|);
  }

  // What uvmunmap does.

  /** Virtual page `v` is mapped, and its page is its own if it is to be freed. */
  ghost predicate Unmappable(s: Vm, v: int, doFree: bool) {
    if doFree then UserAt(s, v)
    else v in s.leaf && IsLeaf(s.leaf[v]) && forall f :: f in s.kind ==> s.kind[f] != User(v)
  }

  ghost predicate AllUnmappable(s: Vm, lo: int, hi: int, doFree: bool) {
    forall v :: lo <= v < hi ==> Unmappable(s, v, doFree)
  }

  ghost predicate NoneMapped(s: Vm, lo: int, hi: int) {
    forall v :: lo <= v < hi ==> LeafAt(s, v) == 0
  }

  lemma NoneNext(t: Vm, u: Vm, lo: int, a: int, b: int)
    requires NoneMapped(t, lo, a) && b == a + 1 && Churn(t, u, a, b) && LeafAt(u, a) == 0
    ensures NoneMapped(u, lo, b)
  {
  }

  lemma UnmapKeeps(s: Vm, t: Vm, lo: int, v: int, hi: int, doFree: bool)
    requires Churn(s, t, lo, v) && AllUnmappable(s, lo, hi, doFree) && lo <= v < hi && LeafOk(s)
    ensures Unmappable(t, v, doFree)
  {
    assert Unmappable(s, v, doFree);
    LeafIff(s, v);
    assert LeafAt(t, v) == LeafAt(s, v);
  }

  /** The page at `v` goes back to the free list, while its entry is still there. */
  lemma FreeUser(s: Vm, f: int, v: int, w: int)
    requires Ok(s) && UserAt(s, v) && f == PageOf(s.leaf[v]) && w == v + 1
    ensures Is(s, f, User(v)) && Ok(Relabel(s, f, Held))
    ensures var t := Free(Relabel(s, f, Held), f);
      && Ok(t) && Churn(s, t, v, w) && t.leaf == s.leaf && t.mid == s.mid && t.low == s.low
      && forall g :: g in t.kind ==> t.kind[g] != User(v)
  {
    ToHeld(s, f, v);
    FreeOk(Relabel(s, f, Held), f);
    var t := Free(Relabel(s, f, Held), f);
    forall g | g in t.kind ensures t.kind[g] != User(v) {
      assert PlacedAs(s, g, s.kind[g]);
    }
  }

  lemma ChurnSame(s: Vm, t: Vm, u: Vm, v: int, hi: int)
    requires hi == v + 1 && Churn(s, t, v, hi) && SamePages(t, u) && (forall w :: w != v ==> LeafAt(u, w) == LeafAt(t, w))
    ensures Churn(s, u, v, hi)
  {
  }

  lemma ChurnNot(s: Vm, lo: int, hi: int)
    ensures Churn(s, s, lo, hi)
  {
  }

  // What uvmalloc, uvmdealloc and uvmcopy do.

  /** PGROUNDUP(size) / PGSIZE. */
  function Pages(size: int): (n: int) {
    (size + 4095) / 4096
  }

  /** The virtual pages [lo, hi) have been added, with these flags and zeroed. */
  ghost predicate AllZeroed(s: Vm, lo: int, hi: int, flags: int) {
    forall v :: lo <= v < hi ==> HasPage(s, v, flags, Filled(0))
  }

  /** Pages outside [lo, hi) stay as they are. */
  lemma PageStays(s: Vm, t: Vm, lo: int, hi: int, v: int, flags: int, page: Page)
    requires Churn(s, t, lo, hi) && UserAt(s, v) && HasPage(s, v, flags, page) && !(lo <= v < hi) && s.leaf[v] != 0
    ensures HasPage(t, v, flags, page)
  {
    assert LeafAt(t, v) == LeafAt(s, v);
  }

  lemma ZeroedNext(t: Vm, u: Vm, lo: int, a: int, b: int, flags: int)
    requires AllZeroed(t, lo, a, flags) && 0 <= lo && Users(t, a) && LeafOk(t) && b == a + 1 && Churn(t, u, a, b) && HasPage(u, a, flags, Filled(0))
    ensures AllZeroed(u, lo, b, flags)
  {
    forall v | lo <= v < b ensures HasPage(u, v, flags, Filled(0)) {
      if v < a {
        assert UserAt(t, v);
        PageStays(t, u, a, b, v, flags, Filled(0));
      }
    }
  }

  /** If the pages that were added are gone again, every mapping is as before. */
  ghost predicate SameMappings(s: Vm, t: Vm) {
    forall w :: LeafAt(t, w) == LeafAt(s, w)
  }

  lemma Undone(s: Vm, u: Vm, np: int, hi: int)
    requires Users(s, np) && LeafOk(s) && np <= hi <= TRAPFRAME && Churn(s, u, np, hi) && NoneMapped(u, np, hi)
    ensures SameMappings(s, u)
  {
    forall w ensures LeafAt(u, w) == LeafAt(s, w) {
      LeafIff(s, w);
    }
  }

  lemma UsersUnmappable(s: Vm, lo: int, np: int)
    requires Users(s, np) && 0 <= lo
    ensures AllUnmappable(s, lo, np, true)
  {
  }

  lemma ChurnWiden(s: Vm, t: Vm, lo: int, hi: int, top: int)
    requires Churn(s, t, lo, hi) && hi <= top
    ensures Churn(s, t, lo, top)
  {
  }

  /** `s` had `np` user pages, `t` has `a` and `u` has `np` again. */
  lemma GivenBack(s: Vm, t: Vm, u: Vm, np: int, a: int, b: int)
    requires Users(s, np) && LeafOk(s) && LeafOk(u) && np <= a < TRAPFRAME && b == a + 1 && Churn(s, t, np, b) && Churn(t, u, np, a)
    requires Users(u, np)
    ensures SameMappings(s, u) && Churn(s, u, np, TRAPFRAME)
  {
    ChurnWiden(t, u, np, a, b);
    ChurnDown(s, t, u, np, np, b);
    forall v | np <= v < b ensures LeafAt(u, v) == 0 {
      LeafIff(u, v);
    }
    Undone(s, u, np, b);
    ChurnWiden(s, u, np, b, TRAPFRAME);
  }

  /** User memory has grown from `np` pages in `s` to `a` in `t`. */
  ghost predicate Grew(s: Vm, t: Vm, np: int, a: int, flags: int) {
    np <= a && Users(t, a) && Churn(s, t, np, a) && AllZeroed(t, np, a, flags)
  }

  lemma GrewNext(s: Vm, t: Vm, u: Vm, np: int, a: int, b: int, flags: int)
    requires Grew(s, t, np, a, flags) && 0 <= np && LeafOk(t) && b == a + 1
    requires Churn(t, u, a, b) && Users(u, b) && HasPage(u, a, flags, Filled(0))
    ensures Grew(s, u, np, b, flags)
  {
    ChurnTrans(s, t, u, np, a, b);
    ZeroedNext(t, u, np, a, b, flags);
  }

  predicate Permitted(xperm: int) {
    xperm == 0 || xperm == PTE_W || xperm == PTE_X || xperm == PTE_W + PTE_X
  }

  /** The flags of a page of user memory. */
  function UserFlags(xperm: int): (flags: int) {
    PTE_V + PTE_R + PTE_U + xperm
  }

  lemma PermBits(xperm: int)
    requires Permitted(xperm)
    ensures 0 <= PTE_R + PTE_U + xperm < 1024 && IsLeaf(WithV(PTE_R + PTE_U + xperm))
    ensures WithV(PTE_R + PTE_U + xperm) == UserFlags(xperm) && 0 <= UserFlags(xperm) < 1024 && IsUser(UserFlags(xperm))
  {
  }

  /** Another page table in the same memory stays as it is while none of its pages change. */
  lemma OtherStays(p: Vm, mem: seq<Page>)
    requires Ok(p) && |mem| == |p.mem| && (forall f :: 0 <= f < |mem| ==> |mem[f]| == 512)
    requires forall f :: f in p.kind ==> mem[f] == p.mem[f]
    ensures Ok(p.(mem := mem))
  {
    var q := p.(mem := mem);
    forall g, j | g in q.kind && 0 <= j < 512 ensures CellOk(q, g, j) {
      assert CellOk(p, g, j);
    }
    forall g | g in q.kind ensures PlacedAs(q, g, q.kind[g]) {
      assert PlacedAs(p, g, p.kind[g]);
    }
  }

  lemma EntryFlags(e: int)
    requires 0 < e && IsValid(e) && IsLeaf(e)
    ensures 0 <= FlagsOf(e) < 1024 && WithV(FlagsOf(e)) == FlagsOf(e) && IsLeaf(FlagsOf(e))
  {
    assert e == Entry(PageOf(e), FlagsOf(e));
    EntryParts(PageOf(e), FlagsOf(e));
  }

  /** Virtual page `v` of `t` has the flags and the contents it has in `p`. */
  predicate CopyOf(p: Vm, t: Vm, v: int) {
    v in p.leaf && 0 <= PageOf(p.leaf[v]) < |p.mem| && HasPage(t, v, FlagsOf(p.leaf[v]), p.mem[PageOf(p.leaf[v])])
  }

  /** The first `a` virtual pages have been copied from `p` to what was the empty user memory of `s`. */
  ghost predicate Copied(p: Vm, s: Vm, t: Vm, a: int) {
    0 <= a && Users(t, a) && Churn(s, t, 0, a) && forall v :: 0 <= v < a ==> CopyOf(p, t, v)
  }

  lemma CopiedNext(p: Vm, s: Vm, t: Vm, u: Vm, a: int, b: int)
    requires Copied(p, s, t, a) && LeafOk(t) && b == a + 1 && Churn(t, u, a, b) && Users(u, b) && CopyOf(p, u, a)
    ensures Copied(p, s, u, b)
  {
    ChurnTrans(s, t, u, 0, a, b);
    forall v | 0 <= v < b ensures CopyOf(p, u, v) {
      if v < a {
        assert CopyOf(p, t, v) && UserAt(t, v);
        PageStays(t, u, a, b, v, FlagsOf(p.leaf[v]), p.mem[PageOf(p.leaf[v])]);
      }
    }
  }

  /** Two page tables in the same memory with no page in common. */
  ghost predicate Apart(p: Vm, s: Vm) {
    Ok(p) && Rooted(p) && p.mem == s.mem && p.kind.Keys !! s.kind.Keys
  }

  lemma ApartStays(p: Vm, s: Vm, t: Vm, lo: int, hi: int)
    requires Apart(p, s) && Churn(s, t, lo, hi) && Ok(t)
    ensures Apart(p.(mem := t.mem), t)
    ensures forall f :: f in p.kind ==> t.mem[f] == s.mem[f]
  {
    forall f | f in p.kind ensures t.mem[f] == p.mem[f] {
      assert f !in s.kind;
    }
    OtherStays(p, t.mem);
  }

  lemma CopySame(p: Vm, q: Vm, t: Vm, v: int)
    requires q.leaf == p.leaf && |q.mem| == |p.mem| && UserAt(p, v) && CopyOf(q, t, v)
    requires forall f :: f in p.kind && 0 <= f < |p.mem| ==> q.mem[f] == p.mem[f]
    ensures CopyOf(p, t, v)
  {
  }

  // What freewalk does.

  /** The pages that the entries of a page-table page of this level lead to. */
  function Below(s: Vm, level: int): (m: map<int, int>) {
    match level
    case 2 => s.mid
    case 1 => s.low
    case _ => map[]
  }

  /** The entries from `n` on of page `f`, a page-table page of this level that is no longer part
      of the table itself, lead to the pages for `key` and on. */
  ghost predicate Leads(s: Vm, f: int, level: int, key: int, n: int)
    requires 0 <= f < |s.mem| && |s.mem[f]| == 512
  {
    forall j :: n <= j < 512 && 0 <= j ==> s.mem[f][j] == Pointer(Below(s, level), key + j)
  }

  /** Page-table page `k` of the level below becomes an ordinary page. */
  function Detach(s: Vm, level: int, k: int): (t: Vm)
    requires k in Below(s, level)
  {
    if level == 2 then s.(mid := s.mid - {k}, kind := s.kind[s.mid[k] := Held])
    else s.(low := s.low - {k}, kind := s.kind[s.low[k] := Held])
  }

  lemma DetachCell(s: Vm, level: int, k: int, g: int, j: int)
    requires Ok(s) && k in Below(s, level) && s.leaf == map[] && s.root == 0 && (level == 1 ==> k / 512 !in s.mid) && g in s.kind && 0 <= j < 512
    ensures var t := Detach(s, level, k); Shape(t) && CellOk(t, g, j) && PlacedAs(t, g, t.kind[g])
  {
    assert CellOk(s, g, j) && PlacedAs(s, g, s.kind[g]);
    if level == 2 {
      assert Is(s, s.mid[k], Mid(k));
    } else {
      assert Is(s, s.low[k], Low(k));
      if s.kind[g].Mid? {
        Split(k, s.kind[g].i, j);
      }
    }
  }

  lemma DetachOk(s: Vm, level: int, k: int)
    requires Ok(s) && k in Below(s, level) && s.leaf == map[] && s.root == 0 && (level == 1 ==> k / 512 !in s.mid)
    ensures Ok(Detach(s, level, k)) && Is(Detach(s, level, k), Below(s, level)[k], Held)
  {
    var t := Detach(s, level, k);
    assert level == 2 ==> Is(s, s.mid[k], Mid(k));
    assert level != 2 ==> Is(s, s.low[k], Low(k));
    forall g, j | g in t.kind && 0 <= j < 512 ensures CellOk(t, g, j) {
      DetachCell(s, level, k, g, j);
    }
    forall g | g in t.kind ensures PlacedAs(t, g, t.kind[g]) {
      DetachCell(s, level, k, g, 0);
    }
    assert Placed(t);
  }

  /** What a child's page leads to once it is detached. */
  lemma DetachLeads(s: Vm, level: int, k: int, under: int)
    requires Ok(s) && k in Below(s, level) && s.leaf == map[] && 1 <= level <= 2 && under == k * 512
    ensures var c := Below(s, level)[k]; c in s.kind && IsTable(s.kind[c]) && Leads(Detach(s, level, k), c, level - 1, under, 0)
  {
    var c := Below(s, level)[k];
    assert level == 2 ==> Is(s, c, Mid(k));
    assert level == 1 ==> Is(s, c, Low(k));
    forall j | 0 <= j < 512 ensures s.mem[c][j] == Pointer(Below(Detach(s, level, k), level - 1), under + j) {
      assert CellOk(s, c, j);
    }
  }

  /** The first `n` of the entries from `key` on of this level, and all below them, are gone. */
  ghost predicate CutOff(s: Vm, t: Vm, level: int, key: int, n: int) {
    && t.leaf == s.leaf && t.root == s.root
    && (forall i :: i in t.mid <==> i in s.mid && !(level == 2 && key <= i < key + n))
    && (forall i :: i in t.mid ==> t.mid[i] == s.mid[i])
    && (forall k :: k in t.low <==>
          k in s.low && !(level == 1 && key <= k < key + n) && !(level == 2 && k / 512 in s.mid && key <= k / 512 < key + n))
    && (forall k :: k in t.low ==> t.low[k] == s.low[k])
  }

  /** Only page-table pages and page `f` have gone to the free list; no other use changed. */
  ghost predicate Swept(s: Vm, t: Vm, f: int) {
    && |t.mem| == |s.mem| && t.kind.Keys == s.kind.Keys
    && (forall g :: g in s.kind ==> t.kind[g] == s.kind[g] || ((IsTable(s.kind[g]) || g == f) && t.kind[g].FreeAt?))
    && (forall g :: 0 <= g < |s.mem| && (g in s.kind ==> s.kind[g] == Held && g != f) ==> t.mem[g] == s.mem[g])
  }

  /** The contents of a page that kalloc has handed out are free to change. */
  lemma HeldWrite(s: Vm, f: int, page: Page)
    requires Ok(s) && Is(s, f, Held) && |page| == 512
    ensures Ok(s.(mem := s.mem[f := page]))
  {
    var t := s.(mem := s.mem[f := page]);
    forall g, j | g in t.kind && 0 <= j < 512 ensures CellOk(t, g, j) {
      assert CellOk(s, g, j);
    }
    forall g | g in t.kind ensures PlacedAs(t, g, t.kind[g]) {
      assert PlacedAs(s, g, s.kind[g]);
    }
  }

  lemma CutNext(s: Vm, t: Vm, u: Vm, level: int, key: int, i: int, k: int, next: int)
    requires CutOff(s, t, level, key, i) && k == key + i && next == i + 1 && CutOff(t, u, level, k, 1) && i >= 0
    ensures CutOff(s, u, level, key, next)
  {
  }

  lemma CutNothing(s: Vm, level: int, k: int)
    requires k !in Below(s, level)
    ensures CutOff(s, s, level, k, 1)
  {
  }

  /** Entry `k` of the level and all below it: detached, and its child's page table freed. */
  lemma CutChild(s: Vm, t: Vm, level: int, k: int, under: int)
    requires Ok(s) && k in Below(s, level) && 1 <= level <= 2 && under == k * 512 && CutOff(Detach(s, level, k), t, level - 1, under, 512)
    ensures CutOff(s, t, level, k, 1)
  {
    if level == 2 {
      forall m ensures m in t.low <==> m in s.low && !(m / 512 in s.mid && k <= m / 512 < k + 1) {
        assert under <= m < under + 512 <==> m / 512 == k;
      }
    }
  }

  lemma SweptTrans(s: Vm, t: Vm, u: Vm, f: int)
    requires Swept(s, t, f) && Swept(t, u, f)
    ensures Swept(s, u, f)
  {
  }

  lemma SweptChild(s: Vm, t: Vm, level: int, k: int, f: int, page: Page)
    requires Ok(s) && k in Below(s, level) && 1 <= level <= 2 && Is(s, f, Held) && |page| == 512
    requires Swept(Detach(s, level, k), t, Below(s, level)[k]) && 0 <= f < |t.mem|
    requires Below(s, level)[k] in t.kind && t.kind[Below(s, level)[k]].FreeAt?
    ensures Is(t, f, Held) && t.mem[f] == s.mem[f] && Swept(s, t.(mem := t.mem[f := page]), f)
  {
    assert level == 2 ==> Is(s, s.mid[k], Mid(k));
    assert level == 1 ==> Is(s, s.low[k], Low(k));
  }

  lemma LeadsNext(s: Vm, u: Vm, f: int, level: int, key: int, i: int, k: int, next: int)
    requires 0 <= f < |s.mem| == |u.mem| && |s.mem[f]| == 512 && Leads(s, f, level, key, i) && CutOff(s, u, level, k, 1)
    requires 0 <= i < 512 && k == key + i && next == i + 1 && u.mem[f] == s.mem[f][i := 0]
    ensures Leads(u, f, level, key, next)
  {
    forall j | next <= j < 512 && 0 <= j ensures u.mem[f][j] == Pointer(Below(u, level), key + j) {
      assert s.mem[f][j] == Pointer(Below(s, level), key + j);
    }
  }

  lemma ChildKeys(key: int, i: int, k: int, under: int)
    requires 0 <= i < 512 && k == key + i && under == k * 512
    ensures key % 512 == 0 ==> k / 512 == key / 512
    ensures under % 512 == 0 && under / 512 == k
  {
  }

  /** All of what freewalk does for entry `i` of page `f`, once the child's pages are free. */
  lemma EntryFreed(s: Vm, t: Vm, f: int, level: int, key: int, i: int, k: int, next: int, under: int)
    requires Ok(s) && Ok(t) && Is(s, f, Held) && 1 <= level <= 2 && 0 <= i < 512 && Leads(s, f, level, key, i)
    requires k == key + i && next == i + 1 && under == k * 512 && k in Below(s, level)
    requires var c := Below(s, level)[k]; var d := Detach(s, level, k);
      Swept(d, t, c) && CutOff(d, t, level - 1, under, 512) && c in t.kind && t.kind[c].FreeAt?
    ensures Is(t, f, Held) && t.mem[f] == s.mem[f]
    ensures var u := t.(mem := t.mem[f := t.mem[f][i := 0]]);
      Ok(u) && Is(u, f, Held) && CutOff(s, u, level, k, 1) && Swept(s, u, f) && Leads(u, f, level, key, next)
  {
    var page := s.mem[f][i := 0];
    SweptChild(s, t, level, k, f, page);
    CutChild(s, t, level, k, under);
    HeldWrite(t, f, page);
    LeadsNext(s, t.(mem := t.mem[f := page]), f, level, key, i, k, next);
  }

  /** The root page is no longer part of the table; its entries lead to all of it. */
  function DetachRoot(s: Vm): (t: Vm) {
    s.(root := 0, kind := s.kind[s.root := Held])
  }

  lemma DetachRootCell(s: Vm, g: int, j: int)
    requires Ok(s) && Rooted(s) && g in s.kind && 0 <= j < 512
    ensures var t := DetachRoot(s); Shape(t) && CellOk(t, g, j) && PlacedAs(t, g, t.kind[g])
  {
    assert Is(s, s.root, Root);
    assert CellOk(s, g, j) && PlacedAs(s, g, s.kind[g]);
  }

  lemma DetachRootOk(s: Vm)
    requires Ok(s) && Rooted(s)
    ensures Is(s, s.root, Root)
    ensures Ok(DetachRoot(s)) && Is(DetachRoot(s), s.root, Held)
  {
    var t := DetachRoot(s);
    assert Is(s, s.root, Root);
    forall g, j | g in t.kind && 0 <= j < 512 ensures CellOk(t, g, j) {
      DetachRootCell(s, g, j);
    }
    forall g | g in t.kind ensures PlacedAs(t, g, t.kind[g]) {
      DetachRootCell(s, g, 0);
    }
    assert Placed(t);
  }

  lemma RootLeads(s: Vm)
    requires Ok(s) && Rooted(s)
    ensures Is(s, s.root, Root) && Leads(DetachRoot(s), s.root, 2, 0, 0)
  {
    assert Is(s, s.root, Root);
    forall j | 0 <= j < 512 ensures s.mem[s.root][j] == Pointer(Below(s, 2), 0 + j) {
      assert CellOk(s, s.root, j);
    }
  }

  /** Every page that was not in the hands of a caller of kalloc is free. */
  ghost predicate AllFree(s: Vm, t: Vm) {
    && t.kind.Keys == s.kind.Keys
    && forall g :: g in s.kind ==> if s.kind[g] == Held then t.kind[g] == Held else t.kind[g].FreeAt?
  }

  lemma TreeFreed(s: Vm, t: Vm)
    requires Ok(s) && Rooted(s) && s.leaf == map[] && Ok(t)
    requires CutOff(DetachRoot(s), t, 2, 0, 512) && Swept(DetachRoot(s), t, s.root) && s.root in t.kind && t.kind[s.root].FreeAt?
    ensures AllFree(s, t)
  {
    forall g | g in s.kind ensures if s.kind[g] == Held then t.kind[g] == Held else t.kind[g].FreeAt? {
      assert PlacedAs(s, g, s.kind[g]) && PlacedAs(t, g, t.kind[g]) && Is(s, s.root, Root);
    }
  }

  /** Without user memory and the two pages at the top nothing is mapped. */
  lemma NothingMapped(s: Vm)
    requires Users(s, 0) && LeafOk(s) && NoneMapped(s, TRAPFRAME, MAXPAGE)
    ensures s.leaf == map[]
  {
    forall v | v in s.leaf ensures false {
      LeafIff(s, v);
    }
  }

  /** The same pages are in the hands of callers of kalloc. */
  ghost predicate HeldSame(s: Vm, t: Vm) {
    |t.mem| == |s.mem| && t.kind.Keys == s.kind.Keys && forall g :: g in s.kind ==> (s.kind[g] == Held <==> t.kind[g] == Held)
  }

  lemma ChurnHeld(s: Vm, t: Vm, lo: int, hi: int)
    requires Churn(s, t, lo, hi)
    ensures HeldSame(s, t)
  {
  }

  lemma AllFreeAfter(s: Vm, t: Vm, u: Vm)
    requires HeldSame(s, t) && AllFree(t, u)
    ensures AllFree(s, u)
  {
  }

  // An empty page table.

  ghost predicate NoTable(s: Vm) {
    s.root == 0 && s.mid == map[] && s.low == map[] && s.leaf == map[] && forall f :: f in s.kind ==> s.kind[f].FreeAt? || s.kind[f] == Held
  }

  /** Pages [start, stop) before they have been freed for the first time. */
  ghost function HeldPages(start: nat, stop: nat): (kind: map<int, Kind>)
    requires start <= stop
    ensures forall f :: f in kind <==> start <= f < stop
    ensures forall f :: f in kind ==> kind[f] == Held
  {
    if start == stop then map[] else HeldPages(start, stop - 1)[stop - 1 := Held]
  }

  function AddRoot(s: Vm, f: int): (t: Vm) {
    s.(root := f, kind := s.kind[f := Root])
  }

  lemma AddRootOk(s: Vm, f: int)
    requires Ok(s) && NoTable(s) && Is(s, f, Held) && s.mem[f] == Filled(0)
    ensures Ok(AddRoot(s, f)) && Rooted(AddRoot(s, f)) && Users(AddRoot(s, f), 0) && NoneMapped(AddRoot(s, f), 0, MAXPAGE)
  {
    var t := AddRoot(s, f);
    forall g, j | g in t.kind && 0 <= j < 512 ensures CellOk(t, g, j) {
      assert CellOk(s, g, j);
    }
    forall g | g in t.kind ensures PlacedAs(t, g, t.kind[g]) {
      assert PlacedAs(s, g, s.kind[g]);
    }
  }

  lemma NewRoot(s: Vm)
    requires Ok(s) && NoTable(s) && |s.free| > 0
    ensures var f := s.free[|s.free| - 1]; var t := AddRoot(Alloc(s, Filled(0)), f);
      Is(s, f, FreeAt(|s.free| - 1)) && Ok(t) && Rooted(t) && Users(t, 0) && NoneMapped(t, 0, MAXPAGE)
  {
    AllocOk(s, Filled(0));
    AddRootOk(Alloc(s, Filled(0)), s.free[|s.free| - 1]);
  }

  // Loading a program into user memory.

  /** Every page of user memory is open to the user. */
  ghost predicate AllUser(s: Vm, np: int) {
    forall v :: 0 <= v < np ==> v in s.leaf && IsUser(s.leaf[v])
  }

  lemma AllUserGrow(s: Vm, t: Vm, np: int, hi: int, flags: int)
    requires Users(s, np) && AllUser(s, np) && LeafOk(s) && Grew(s, t, np, hi, flags) && LeafOk(t) && 0 <= np && 0 <= flags < 1024 && IsUser(flags)
    ensures AllUser(t, hi)
  {
    forall v | 0 <= v < hi ensures v in t.leaf && IsUser(t.leaf[v]) {
      if v < np {
        assert LeafAt(t, v) == LeafAt(s, v);
        LeafIff(s, v);
      } else {
        assert HasPage(t, v, flags, Filled(0));
        assert t.leaf[v] == Entry(PageOf(t.leaf[v]), flags);
        EntryParts(PageOf(t.leaf[v]), flags);
      }
    }
  }

  /** New contents for the page at `v`. */
  function SetPage(s: Vm, v: int, page: Page): (t: Vm)
    requires v in s.leaf && 0 <= PageOf(s.leaf[v]) < |s.mem|
  {
    s.(mem := s.mem[PageOf(s.leaf[v]) := page])
  }

  lemma SetPageOk(s: Vm, v: int, page: Page)
    requires Ok(s) && UserAt(s, v) && |page| == 512
    ensures Ok(SetPage(s, v, page))
  {
    var t := SetPage(s, v, page);
    forall g, j | g in t.kind && 0 <= j < 512 ensures CellOk(t, g, j) {
      assert CellOk(s, g, j);
    }
    forall g | g in t.kind ensures PlacedAs(t, g, t.kind[g]) {
      assert PlacedAs(s, g, s.kind[g]);
    }
  }

  /** Clearing the user bit of one page leaves user memory as it is. */
  lemma ClearUsers(s: Vm, v: int, np: int)
    requires Ok(s) && Users(s, np) && 0 <= v < np
    requires v / 512 in s.low && Is(s, s.low[v / 512], Low(v / 512)) && |s.mem[s.low[v / 512]]| == 512
    ensures v in s.leaf && Users(SetLeaf(s, v, WithoutU(s.leaf[v])), np)
  {
    assert UserAt(s, v);
    WithoutUParts(s.leaf[v]);
    var t := SetLeaf(s, v, WithoutU(s.leaf[v]));
    forall w | 0 <= w < np ensures UserAt(t, w) {
      assert UserAt(s, w);
    }
  }
}
