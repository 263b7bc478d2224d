/** What exec makes of the segments of a program: the pages of user memory, as a value. */
module Loading {
  import opened Bytes
  import opened VmState

  /** A page of user memory, its flags and its contents. */
  datatype Cell = Cell(flags: int, page: Page)

  /** User memory begins with these pages. */
  ghost predicate Shows(s: Vm, cells: seq<Cell>) {
    forall v {:trigger cells[v]} :: 0 <= v < |cells| ==> HasPage(s, v, cells[v].flags, cells[v].page)
  }

  // Reading part of a page.

  /** A page with its first `n` bytes from `now`. */
  function Patch(was: Page, now: Page, n: int): (p: Page)
    requires |was| == |now| == 512
    ensures |p| == 512
  {
    seq(512, j requires 0 <= j < 512 =>
      if 8 * j + 8 <= n then now[j] else if n <= 8 * j then was[j] else MixWord(was[j], now[j], n - 8 * j))
  }

  lemma PatchWhole(was: Page, now: Page, n: int)
    requires |was| == |now| == 512
    ensures n >= 4096 ==> Patch(was, now, n) == now
    ensures n <= 0 ==> Patch(was, now, n) == was
  {
  }

  /** Byte `i` of a page. */
  function PageByte(page: Page, i: nat): (b: int)
    requires |page| == 512 && i < 4096
  {
    Byte(page[i / 8], i % 8)
  }

  /** Patch is a copy of `n` bytes. */
  lemma PatchByte(was: Page, now: Page, n: int, i: nat)
    requires |was| == |now| == 512 && i < 4096
    ensures PageByte(Patch(was, now, n), i) == PageByte(if i < n then now else was, i)
  {
    var j := i / 8;
    assert i == 8 * j + i % 8;
    if 8 * j < n < 8 * j + 8 {
      MixByte(was[j], now[j], n - 8 * j, i % 8);
    }
  }

  /** Pages of 64-bit words. */
  predicate InRange(page: Page) {
    |page| == 512 && forall j :: 0 <= j < 512 ==> 0 <= page[j] < 0x1_0000_0000_0000_0000
  }

  /** A page is its bytes. */
  lemma SamePage(p: Page, q: Page)
    requires InRange(p) && InRange(q) && forall i :: 0 <= i < 4096 ==> PageByte(p, i) == PageByte(q, i)
    ensures p == q
  {
    forall j | 0 <= j < 512 ensures p[j] == q[j] {
      forall k | 0 <= k < 8 ensures Byte(p[j], k) == Byte(q[j], k) {
        var i := 8 * j + k;
        assert i / 8 == j && i % 8 == k;
        assert PageByte(p, i) == PageByte(q, i);
      }
      SameWord(p[j], q[j]);
    }
  }

  /** How many of the first `len` bytes are in page `i`. */
  function Piece(len: nat, i: nat): (n: nat)
    ensures n <= 4096
  {
    if len <= 4096 * i then 0 else if len - 4096 * i < 4096 then len - 4096 * i else 4096
  }

  function Min(a: nat, b: nat): (m: nat) {
    if a < b then a else b
  }

  lemma PieceMin(a: nat, b: nat, i: nat)
    ensures Min(Piece(a, i), Piece(b, i)) == Piece(Min(a, b), i)
    ensures 4096 * i < a ==> (Piece(Min(a, b), i) == Piece(a, i) <==> b >= a || 4096 * (i + 1) <= b)
  {
  }

  // Program headers.

  /** A program header of type LOAD. The file has `avail` bytes from ph.off on, and they begin `file`. */
  datatype Segment = Segment(vaddr: nat, memsz: nat, filesz: nat, flags: nat, file: seq<Page>, avail: nat)

  ghost predicate ValidSegment(g: Segment) {
    g.avail <= 4096 * |g.file| && forall i :: 0 <= i < |g.file| ==> |g.file[i]| == 512
  }

  /** flags2perm. */
  function FlagsToPerm(flags: nat): (perm: int)
    ensures Permitted(perm)
    ensures perm / PTE_X % 2 == 1 <==> flags % 2 == 1
    ensures perm / PTE_W % 2 == 1 <==> flags / 2 % 2 == 1
  {
    (if flags % 2 == 1 then PTE_X else 0) + (if flags / 2 % 2 == 1 then PTE_W else 0)
  }

  function SegmentEnd(g: Segment): (end: nat) {
    g.vaddr + g.memsz
  }

  // The image.

  /** Grown to `np` pages with zeroed pages, if it is smaller. */
  function Extended(cells: seq<Cell>, np: nat, flags: int): (r: seq<Cell>)
    ensures |r| == if np > |cells| then np else |cells|
  {
    if np > |cells| then cells + seq(np - |cells|, _ => Cell(flags, Filled(0))) else cells
  }

  predicate FullCells(cells: seq<Cell>) {
    forall v :: 0 <= v < |cells| ==> |cells[v].page| == 512
  }

  /** The first `n` pages of the file are read to page `v` and on; only `len` bytes of them count. */
  function Overlaid(cells: seq<Cell>, v: nat, file: seq<Page>, len: nat, n: nat): (r: seq<Cell>)
    requires FullCells(cells) && forall i :: 0 <= i < |file| ==> |file[i]| == 512
    ensures |r| == |cells| && FullCells(r)
  {
    seq(|cells|, w requires 0 <= w < |cells| =>
      if v <= w < v + n && w - v < |file| then cells[w].(page := Patch(cells[w].page, file[w - v], Piece(len, w - v))) else cells[w])
  }

  /** The image after one more segment. */
  function WithSegment(cells: seq<Cell>, g: Segment): (r: seq<Cell>)
    requires FullCells(cells) && ValidSegment(g)
    ensures FullCells(r) && |r| == if Pages(SegmentEnd(g)) > |cells| then Pages(SegmentEnd(g)) else |cells|
  {
    Overlaid(Extended(cells, Pages(SegmentEnd(g)), UserFlags(FlagsToPerm(g.flags))), g.vaddr / 4096, g.file, g.filesz, Pages(g.filesz))
  }

  /** The image of the first `n` segments: each extends it to its end, and its part of the file goes over
      what was there before. */
  function ImageOf(segments: seq<Segment>, n: nat): (r: seq<Cell>)
    requires n <= |segments| && forall g :: g in segments ==> ValidSegment(g)
    ensures FullCells(r)
  {
    if n == 0 then [] else WithSegment(ImageOf(segments, n - 1), segments[n - 1])
  }

  /** How many pages that is: the first `n` segments reach to the end of the highest. */
  function ImagePages(segments: seq<Segment>, n: nat): (np: nat)
    requires n <= |segments|
  {
    if n == 0 then 0
    else
      var np, end := ImagePages(segments, n - 1), Pages(SegmentEnd(segments[n - 1]));
      if end > np then end else np
  }

  lemma {:induction false} ImageSize(segments: seq<Segment>, n: nat)
    requires n <= |segments| && forall g :: g in segments ==> ValidSegment(g)
    ensures |ImageOf(segments, n)| == ImagePages(segments, n)
  {
    if n > 0 {
      ImageSize(segments, n - 1);
    }
  }

  lemma {:induction false} ImageReaches(segments: seq<Segment>, m: nat, n: nat)
    requires m <= n <= |segments|
    ensures ImagePages(segments, m) <= ImagePages(segments, n)
    ensures m < n ==> Pages(SegmentEnd(segments[m])) <= ImagePages(segments, n)
  {
    if m < n {
      ImageReaches(segments, m, n - 1);
    }
  }

  /** A segment that exec refuses. */
  predicate Malformed(g: Segment) {
    g.memsz < g.filesz || SegmentEnd(g) >= 0x1_0000_0000_0000_0000 || g.vaddr % 4096 != 0
  }

  /** Exec gives up at segment `i`: it is malformed, or the file is too short for it, or there is still nothing to map. */
  predicate RejectedAt(segments: seq<Segment>, i: nat)
    requires i < |segments|
  {
    var g := segments[i];
    Malformed(g) || g.avail < g.filesz || (SegmentEnd(g) == 0 && ImagePages(segments, i) == 0)
  }

  ghost predicate Rejected(segments: seq<Segment>) {
    exists i: nat :: i < |segments| && RejectedAt(segments, i)
  }

  lemma ImageNext(segments: seq<Segment>, n: nat, next: nat)
    requires n < |segments| && next == n + 1 && forall g :: g in segments ==> ValidSegment(g)
    ensures ImageOf(segments, next) == WithSegment(ImageOf(segments, n), segments[n])
    ensures ImagePages(segments, n) <= ImagePages(segments, next) && Pages(SegmentEnd(segments[n])) <= ImagePages(segments, next)
    ensures ImagePages(segments, next) == ImagePages(segments, n) || ImagePages(segments, next) == Pages(SegmentEnd(segments[n]))
  {
  }

  /** And the guard page, closed to the user, and the stack. */
  function Finished(cells: seq<Cell>, stack: Page): (r: seq<Cell>) {
    cells + [Cell(PTE_V + PTE_R + PTE_W, Filled(0)), Cell(UserFlags(PTE_W), stack)]
  }

  // The image by bytes.

  /** The byte of user memory at address `a`. */
  function UserByte(cells: seq<Cell>, a: nat): (b: int)
    requires FullCells(cells) && a < 4096 * |cells|
  {
    PageByte(cells[a / 4096].page, a % 4096)
  }

  /** Byte `k` of the file from ph.off on. */
  function FileByte(g: Segment, k: nat): (b: int)
    requires ValidSegment(g) && k < g.avail
  {
    PageByte(g.file[k / 4096], k % 4096)
  }

  /** The file's part of the segment has address `a`. */
  predicate Covers(g: Segment, a: nat) {
    g.vaddr <= a < g.vaddr + g.filesz && g.filesz <= g.avail
  }

  /** What a program finds at address `a`: the byte of the file in the last of the first `n` segments that covers it, and zero if none does. */
  ghost function LoadedByte(segments: seq<Segment>, n: nat, a: nat): (b: int)
    requires n <= |segments| && forall g :: g in segments ==> ValidSegment(g)
  {
    if n == 0 then 0
    else if Covers(segments[n - 1], a) then FileByte(segments[n - 1], a - segments[n - 1].vaddr)
    else LoadedByte(segments, n - 1, a)
  }

  lemma InPiece(len: nat, i: nat, o: nat)
    requires o < 4096
    ensures o < Piece(len, i) <==> 4096 * i + o < len
  {
  }

  lemma ByteOfOverlaid(cells: seq<Cell>, v: nat, g: Segment, w: nat, i: nat, o: nat)
    requires FullCells(cells) && ValidSegment(g) && g.filesz <= g.avail && w == v + i < |cells| && o < 4096
    ensures 4096 * i + o < g.filesz ==> i < |g.file|
    ensures PageByte(Overlaid(cells, v, g.file, g.filesz, Pages(g.filesz))[w].page, o) ==
      if 4096 * i + o < g.filesz then PageByte(g.file[i], o) else PageByte(cells[w].page, o)
  {
    InPiece(g.filesz, i, o);
    if i < Pages(g.filesz) && i < |g.file| {
      PatchByte(cells[w].page, g.file[i], Piece(g.filesz, i), o);
    }
  }

  lemma Split(a: nat, v: nat, w: nat, i: nat, o: nat)
    requires a == 4096 * w + o && w == v + i && o < 4096
    ensures 4096 * v <= a && (a - 4096 * v) / 4096 == i && (a - 4096 * v) % 4096 == o
  {
  }

  /** loadseg copies `filesz` bytes of the file to the segment's address, and changes no other byte. */
  lemma OverlaidByte(cells: seq<Cell>, v: nat, g: Segment, a: nat)
    requires FullCells(cells) && ValidSegment(g) && g.filesz <= g.avail && a < 4096 * |cells|
    ensures UserByte(Overlaid(cells, v, g.file, g.filesz, Pages(g.filesz)), a) ==
      if 4096 * v <= a < 4096 * v + g.filesz then FileByte(g, a - 4096 * v) else UserByte(cells, a)
  {
    var w, o := a / 4096, a % 4096;
    if v <= w {
      ByteOfOverlaid(cells, v, g, w, w - v, o);
      Split(a, v, w, w - v, o);
    }
  }

  /** `filesz` bytes of the file are at virtual page `v` and on, and every other byte is as it was. */
  ghost predicate ReadIn(cells: seq<Cell>, now: seq<Cell>, v: nat, g: Segment)
    requires FullCells(cells) && FullCells(now) && ValidSegment(g) && g.filesz <= g.avail
  {
    && |now| == |cells|
    && forall a {:trigger UserByte(now, a)} :: 0 <= a < 4096 * |cells| ==>
         UserByte(now, a) == if 4096 * v <= a < 4096 * v + g.filesz then FileByte(g, a - 4096 * v) else UserByte(cells, a)
  }

  lemma AllRead(cells: seq<Cell>, now: seq<Cell>, v: nat, g: Segment)
    requires FullCells(cells) && ValidSegment(g) && g.filesz <= g.avail && now == Overlaid(cells, v, g.file, g.filesz, Pages(g.filesz))
    ensures ReadIn(cells, now, v, g)
  {
    forall a {:trigger UserByte(now, a)} | 0 <= a < 4096 * |cells|
      ensures UserByte(now, a) == if 4096 * v <= a < 4096 * v + g.filesz then FileByte(g, a - 4096 * v) else UserByte(cells, a)
    {
      OverlaidByte(cells, v, g, a);
    }
  }

  lemma ExtendedByte(cells: seq<Cell>, np: nat, flags: int, a: nat)
    requires FullCells(cells) && a < 4096 * |Extended(cells, np, flags)|
    ensures FullCells(Extended(cells, np, flags))
    ensures UserByte(Extended(cells, np, flags), a) == if a < 4096 * |cells| then UserByte(cells, a) else 0
  {
    var r := Extended(cells, np, flags);
    if a >= 4096 * |cells| {
      assert r[a / 4096] == Cell(flags, Filled(0));
      ZeroByte(a % 4096 % 8);
    } else {
      assert r[a / 4096] == cells[a / 4096];
    }
  }

  /** exec does not refuse any of the first `n` segments. */
  ghost predicate Loadable(segments: seq<Segment>, n: nat) {
    n <= |segments| && forall i :: 0 <= i < n ==> !Malformed(segments[i]) && segments[i].filesz <= segments[i].avail
  }

  lemma LoadableNext(segments: seq<Segment>, m: nat, n: nat)
    requires n == m + 1 && Loadable(segments, n)
    ensures Loadable(segments, m) && !Malformed(segments[m]) && segments[m].filesz <= segments[m].avail
  {
  }

  lemma LoadableMore(segments: seq<Segment>, m: nat, n: nat)
    requires n == m + 1 <= |segments| && Loadable(segments, m) && !Malformed(segments[m]) && segments[m].filesz <= segments[m].avail
    ensures Loadable(segments, n)
  {
  }

  lemma {:induction false} BeyondZero(segments: seq<Segment>, n: nat, a: nat)
    requires Loadable(segments, n) && a >= 4096 * ImagePages(segments, n) && forall g :: g in segments ==> ValidSegment(g)
    ensures LoadedByte(segments, n, a) == 0
  {
    if n > 0 {
      LoadableNext(segments, n - 1, n);
      assert SegmentEnd(segments[n - 1]) <= 4096 * Pages(SegmentEnd(segments[n - 1]));
      BeyondZero(segments, n - 1, a);
    }
  }

  /** One more segment: the file's part of it, and else what was there, and else zero. */
  lemma SegmentByte(cells: seq<Cell>, g: Segment, a: nat)
    requires FullCells(cells) && ValidSegment(g) && !Malformed(g) && g.filesz <= g.avail && a < 4096 * |WithSegment(cells, g)|
    ensures UserByte(WithSegment(cells, g), a) ==
      if Covers(g, a) then FileByte(g, a - g.vaddr) else if a < 4096 * |cells| then UserByte(cells, a) else 0
  {
    var v, flags, end := g.vaddr / 4096, UserFlags(FlagsToPerm(g.flags)), Pages(SegmentEnd(g));
    assert g.vaddr == 4096 * v;
    ExtendedByte(cells, end, flags, a);
    OverlaidByte(Extended(cells, end, flags), v, g, a);
  }

  /** The byte at `a` is `b`, unless user memory ends before. */
  predicate HasByte(cells: seq<Cell>, a: nat, b: int)
    requires FullCells(cells)
  {
    a < 4096 * |cells| ==> UserByte(cells, a) == b
  }

  lemma SegmentHas(cells: seq<Cell>, g: Segment, r: seq<Cell>, a: nat, b: int)
    requires FullCells(cells) && ValidSegment(g) && !Malformed(g) && g.filesz <= g.avail && r == WithSegment(cells, g)
    requires HasByte(cells, a, b) && (a >= 4096 * |cells| ==> b == 0)
    ensures HasByte(r, a, if Covers(g, a) then FileByte(g, a - g.vaddr) else b)
  {
    if a < 4096 * |r| {
      SegmentByte(cells, g, a);
    }
  }

  lemma LoadedBeyond(segments: seq<Segment>, n: nat, a: nat)
    requires Loadable(segments, n) && forall g :: g in segments ==> ValidSegment(g)
    ensures a >= 4096 * |ImageOf(segments, n)| ==> LoadedByte(segments, n, a) == 0
  {
    ImageSize(segments, n);
    if a >= 4096 * ImagePages(segments, n) {
      BeyondZero(segments, n, a);
    }
  }

  lemma LoadedNext(segments: seq<Segment>, m: nat, n: nat, a: nat)
    requires n == m + 1 && n <= |segments| && forall g :: g in segments ==> ValidSegment(g)
    ensures LoadedByte(segments, n, a) ==
      if Covers(segments[m], a) then FileByte(segments[m], a - segments[m].vaddr) else LoadedByte(segments, m, a)
  {
  }

  lemma SegmentLoads(segments: seq<Segment>, m: nat, n: nat, a: nat, cells: seq<Cell>, r: seq<Cell>)
    requires n == m + 1 && n <= |segments| && (forall g :: g in segments ==> ValidSegment(g)) && FullCells(cells)
    requires !Malformed(segments[m]) && segments[m].filesz <= segments[m].avail && r == WithSegment(cells, segments[m])
    requires HasByte(cells, a, LoadedByte(segments, m, a)) && (a >= 4096 * |cells| ==> LoadedByte(segments, m, a) == 0)
    ensures HasByte(r, a, LoadedByte(segments, n, a))
  {
    LoadedNext(segments, m, n, a);
    SegmentHas(cells, segments[m], r, a, LoadedByte(segments, m, a));
  }

  /** The image of the segments is what their headers say, byte by byte. */
  lemma {:induction false} ImageByte(segments: seq<Segment>, n: nat, a: nat)
    requires Loadable(segments, n) && forall g :: g in segments ==> ValidSegment(g)
    ensures HasByte(ImageOf(segments, n), a, LoadedByte(segments, n, a))
  {
    if n > 0 {
      var m := n - 1;
      LoadableNext(segments, m, n);
      ImageByte(segments, m, a);
      LoadedBeyond(segments, m, a);
      SegmentLoads(segments, m, n, a, ImageOf(segments, m), ImageOf(segments, n));
    }
  }

  /** The image of the segments, byte by byte. */
  ghost predicate ImageBytes(segments: seq<Segment>)
    requires forall g :: g in segments ==> ValidSegment(g)
  {
    forall a: nat :: HasByte(ImageOf(segments, |segments|), a, LoadedByte(segments, |segments|, a))
  }

  lemma AllLoaded(segments: seq<Segment>)
    requires Loadable(segments, |segments|) && forall g :: g in segments ==> ValidSegment(g)
    ensures ImageBytes(segments)
  {
    forall a: nat ensures HasByte(ImageOf(segments, |segments|), a, LoadedByte(segments, |segments|, a)) {
      ImageByte(segments, |segments|, a);
    }
  }

  // How the steps of exec change what user memory shows.

  lemma ShowsGrown(s: Vm, t: Vm, cells: seq<Cell>, np: nat, hi: nat, flags: int)
    requires Shows(s, cells) && |cells| == np <= hi && Users(s, np) && LeafOk(s) && Grew(s, t, np, hi, flags)
    ensures Shows(t, Extended(cells, hi, flags))
  {
    var r := Extended(cells, hi, flags);
    forall v | 0 <= v < |r| ensures HasPage(t, v, r[v].flags, r[v].page) {
      if v < np {
        assert UserAt(s, v) && HasPage(s, v, cells[v].flags, cells[v].page);
        PageStays(s, t, np, hi, v, cells[v].flags, cells[v].page);
      } else {
        assert HasPage(t, v, flags, Filled(0));
      }
    }
  }

  lemma ShowsStored(s: Vm, cells: seq<Cell>, np: nat, v: nat, page: Page)
    requires Shows(s, cells) && |cells| == np && Users(s, np) && v < np
    ensures UserAt(s, v)
    ensures v in s.leaf && 0 <= PageOf(s.leaf[v]) < |s.mem| && s.mem[PageOf(s.leaf[v])] == cells[v].page
    ensures Shows(SetPage(s, v, page), cells[v := cells[v].(page := page)])
  {
    assert UserAt(s, v) && HasPage(s, v, cells[v].flags, cells[v].page);
    var t, r := SetPage(s, v, page), cells[v := cells[v].(page := page)];
    forall w | 0 <= w < |r| ensures HasPage(t, w, r[w].flags, r[w].page) {
      assert UserAt(s, w) && HasPage(s, w, cells[w].flags, cells[w].page);
    }
  }

  lemma OverlaidNext(cells: seq<Cell>, v: nat, file: seq<Page>, len: nat, i: nat, j: nat, w: nat)
    requires FullCells(cells) && (forall k :: 0 <= k < |file| ==> |file[k]| == 512) && i < |file| && j == i + 1 && w == v + i < |cells|
    ensures var r := Overlaid(cells, v, file, len, i);
      && r[w] == cells[w]
      && Overlaid(cells, v, file, len, j) == r[w := cells[w].(page := Patch(cells[w].page, file[i], Piece(len, i)))]
  {
  }

  lemma OverlaidNot(cells: seq<Cell>, v: nat, file: seq<Page>, len: nat)
    requires FullCells(cells) && forall k :: 0 <= k < |file| ==> |file[k]| == 512
    ensures Overlaid(cells, v, file, len, 0) == cells
  {
  }

  // The arguments on the stack.

  function Round16(x: int): (r: int)
    ensures r <= x && r % 16 == 0
  {
    x / 16 * 16
  }

  /** sp after the first `n` strings, of these lengths, have been pushed below `top`, each rounded down to 16. */
  function Pushed(lens: seq<nat>, n: nat, top: int): (sp: int)
    requires n <= |lens|
  {
    if n == 0 then top else Round16(Pushed(lens, n - 1, top) - lens[n - 1] - 1)
  }

  /** And after the array of pointers to them, with its null. */
  function Bottom(lens: seq<nat>, top: int): (sp: int) {
    Round16(Pushed(lens, |lens|, top) - 8 * (|lens| + 1))
  }

  lemma {:induction false} PushedDown(lens: seq<nat>, m: nat, n: nat, top: int)
    requires m <= n <= |lens|
    ensures Pushed(lens, n, top) <= Pushed(lens, m, top)
  {
    if m < n {
      PushedDown(lens, m, n - 1, top);
    }
  }

  /** String `i` is in the stack, aligned, and below the one before it. */
  predicate StringAt(lens: seq<nat>, ustack: seq<int>, i: nat, base: int, top: int)
    requires i < |ustack| <= |lens|
  {
    base <= ustack[i] && ustack[i] % 16 == 0 && ustack[i] + lens[i] + 1 <= if i == 0 then top else ustack[i - 1]
  }

  lemma StringsMore(lens: seq<nat>, ustack: seq<int>, sp: int, base: int, top: int)
    requires |ustack| < |lens| && forall i :: 0 <= i < |ustack| ==> StringAt(lens, ustack, i, base, top)
    requires base <= sp && sp % 16 == 0 && sp + lens[|ustack|] + 1 <= if ustack == [] then top else ustack[|ustack| - 1]
    ensures forall i :: 0 <= i < |ustack| + 1 ==> StringAt(lens, ustack + [sp], i, base, top)
  {
    forall i | 0 <= i < |ustack| + 1 ensures StringAt(lens, ustack + [sp], i, base, top) {
      if i < |ustack| {
        assert StringAt(lens, ustack, i, base, top);
      }
    }
  }

  /** All strings, and the array of pointers to them at `sp`, are between `base` and `top`, apart and aligned. */
  ghost predicate Arguments(lens: seq<nat>, ustack: seq<int>, sp: int, base: int, top: int) {
    && |ustack| == |lens| && base <= sp && sp % 16 == 0
    && sp + 8 * (|lens| + 1) <= (if lens == [] then top else ustack[|lens| - 1])
    && forall i :: 0 <= i < |lens| ==> StringAt(lens, ustack, i, base, top)
  }

  lemma RoundDown(x: int)
    ensures x - x % 16 == Round16(x)
  {
  }

  const MAXARG := 32

  /** The argument loop of exec: it succeeds exactly if there are not too many and everything fits above `base`. */
  method PushArguments(lens: seq<nat>, base: int, top: int) returns (ok: bool, sp: int, ustack: seq<int>)
    ensures ok <==> |lens| <= MAXARG && Bottom(lens, top) >= base
    ensures ok ==> Arguments(lens, ustack, sp, base, top)
  {
    sp, ustack := top, [];
    var argc := 0;
    while argc < |lens|
      invariant 0 <= argc <= |lens| && argc <= MAXARG && |ustack| == argc && sp == Pushed(lens, argc, top)
      invariant sp == if argc > 0 then ustack[argc - 1] else top
      invariant forall i :: 0 <= i < argc ==> StringAt(lens, ustack, i, base, top)
    {
      if argc >= MAXARG {
        return false, sp, ustack;
      }
      sp := sp - (lens[argc] + 1);
      RoundDown(sp);
      sp := sp - sp % 16;
      var next := argc + 1;
      assert sp == Pushed(lens, next, top);
      PushedDown(lens, next, |lens|, top);
      if sp < base {
        return false, sp, ustack;
      }
      StringsMore(lens, ustack, sp, base, top);
      ustack := ustack + [sp];
      argc := next;
    }
    sp := sp - 8 * (argc + 1);
    RoundDown(sp);
    sp := sp - sp % 16;
    ok := sp >= base;
  }
}
