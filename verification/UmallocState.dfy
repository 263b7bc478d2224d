/** The heap of user/umalloc.c as a value (section 8.7 of The C Programming Language, second
    edition). Addresses count headers: a block of n units at address b has its header at b and
    takes up [b, b + n). */
module UmallocState {

  /** The address of `base`, which lies below the heap. */
  const BASE := 1

  /** `next` and `size` are the fields of the headers. The rest says what they mean: `list` is the
      free list in the order of addresses, `base` first; `live` are the blocks in use; `home`
      gives the block that every unit obtained from sbrk belongs to. */
  datatype Heap = Heap(next: map<int, int>, size: map<int, int>, freep: int,
                       list: seq<int>, live: set<int>, home: map<int, int>)

  /** What follows block number `i` around the free list. */
  function After(list: seq<int>, i: nat): (b: int) {
    if i + 1 < |list| then list[i + 1] else BASE
  }

  predicate Sorted(list: seq<int>) {
    forall i, j :: 0 <= i < j < |list| ==> list[i] < list[j]
  }

  /** The units of a block belong to it. */
  ghost predicate BlockOk(h: Heap, b: int) {
    b in h.size && h.size[b] >= 1 && b > BASE && forall u :: b <= u < b + h.size[b] ==> u in h.home && h.home[u] == b
  }

  predicate IsBlock(h: Heap, b: int) {
    b in h.live || (b in h.list && b != BASE)
  }

  /** A unit belongs to a block, and lies within it. */
  predicate UnitOk(h: Heap, u: int)
    requires u in h.home
  {
    var b := h.home[u];
    IsBlock(h, b) && b in h.size && b <= u < b + h.size[b]
  }

  predicate LinkOk(h: Heap, i: nat)
    requires i < |h.list|
  {
    h.list[i] in h.next && h.list[i] in h.size && h.next[h.list[i]] == After(h.list, i)
  }

  ghost predicate Ok(h: Heap) {
    && |h.list| > 0 && h.list[0] == BASE && Sorted(h.list)
    && (forall i :: 0 <= i < |h.list| ==> LinkOk(h, i))
    && BASE in h.size && h.size[BASE] == 0
    && (forall b :: IsBlock(h, b) ==> BlockOk(h, b))
    && (forall b :: b in h.live ==> b !in h.list)
    && (forall u :: u in h.home ==> UnitOk(h, u))
  }

  /** There is a gap between block number `i` and the next: they could not be one block. */
  predicate GapAfter(h: Heap, i: nat)
    requires i < |h.list|
  {
    h.list[i] in h.size && (i + 1 < |h.list| ==> h.list[i] + h.size[h.list[i]] < h.list[i + 1])
  }

  ghost predicate Coalesced(h: Heap) {
    forall i :: 0 <= i < |h.list| ==> GapAfter(h, i)
  }

  /** Blocks do not overlap. */
  lemma Disjoint(h: Heap, a: int, b: int)
    requires Ok(h) && IsBlock(h, a) && IsBlock(h, b) && a < b
    ensures a in h.size && a + h.size[a] <= b
  {
    assert BlockOk(h, a) && BlockOk(h, b);
    assert h.home[b] == b;
  }

  predicate Within(h: Heap, u: int, b: int) {
    b in h.size && b <= u < b + h.size[b]
  }

  /** What was obtained from sbrk is what is free and what is in use: every unit is in exactly one
      block. */
  lemma Conservation(h: Heap, u: int)
    requires Ok(h)
    ensures u in h.home <==> exists b :: IsBlock(h, b) && Within(h, u, b)
    ensures forall a, b :: IsBlock(h, a) && IsBlock(h, b) && Within(h, u, a) && Within(h, u, b) ==> a == b
  {
    if u in h.home {
      assert UnitOk(h, u);
      assert IsBlock(h, h.home[u]) && Within(h, u, h.home[u]);
    }
    forall b | IsBlock(h, b) && Within(h, u, b) ensures u in h.home && h.home[u] == b {
      assert BlockOk(h, b);
    }
  }

  // The changes that free and malloc make.

  /** Block `bp`, in use until now, goes into the free list after number `k`. */
  function Insert(h: Heap, bp: int, k: nat): (t: Heap)
    requires k < |h.list|
  {
    h.(next := h.next[bp := After(h.list, k)][h.list[k] := bp], list := h.list[..k + 1] + [bp] + h.list[k + 1..], live := h.live - {bp})
  }

  /** Block `bp` belongs after number `k`. */
  predicate Place(h: Heap, bp: int, k: nat) {
    k < |h.list| && h.list[k] < bp && (k + 1 < |h.list| ==> bp < h.list[k + 1])
  }

  lemma InsertSorted(list: seq<int>, bp: int, k: nat)
    requires Sorted(list) && k < |list| && list[k] < bp && (k + 1 < |list| ==> bp < list[k + 1])
    ensures Sorted(list[..k + 1] + [bp] + list[k + 1..])
  {
  }

  lemma InsertOk(h: Heap, bp: int, k: nat)
    requires Ok(h) && bp in h.live && Place(h, bp, k)
    ensures Ok(Insert(h, bp, k))
  {
    var t := Insert(h, bp, k);
    InsertSorted(h.list, bp, k);
    forall i | 0 <= i < |t.list| ensures LinkOk(t, i) {
      assert BlockOk(h, bp);
      if i <= k {
        assert LinkOk(h, i);
      } else if i > k + 1 {
        assert LinkOk(h, i - 1);
      }
    }
    forall b | IsBlock(t, b) ensures BlockOk(t, b) {
      assert IsBlock(h, b);
      assert BlockOk(h, b);
    }
    forall u | u in t.home ensures UnitOk(t, u) {
      assert UnitOk(h, u);
      InList(h.list, bp, k, h.home[u]);
    }
    forall b | b in t.live ensures b !in t.list {
      InList(h.list, bp, k, b);
    }
  }

  lemma InList(list: seq<int>, bp: int, k: nat, b: int)
    requires k < |list|
    ensures b in list[..k + 1] + [bp] + list[k + 1..] <==> b in list || b == bp
  {
    assert list == list[..k + 1] + list[k + 1..];
  }

  /** Free blocks number `i` and `i + 1`, which touch, become one. */
  function Merge(h: Heap, i: nat): (t: Heap)
    requires i + 1 < |h.list| && h.list[i] in h.size && h.list[i + 1] in h.size && h.list[i + 1] in h.next
  {
    var a, b := h.list[i], h.list[i + 1];
    h.(next := h.next[a := h.next[b]], size := h.size[a := h.size[a] + h.size[b]], list := h.list[..i + 1] + h.list[i + 2..],
       home := Rehome(h.home, b, h.size[b], a))
  }

  /** The units [b, b + n) now belong to block `a`. */
  function Rehome(home: map<int, int>, b: int, n: int, a: int): (r: map<int, int>) {
    map u | u in home :: if b <= u < b + n then a else home[u]
  }

  lemma RemoveAt(list: seq<int>, i: nat, b: int)
    requires Sorted(list) && i < |list|
    ensures Sorted(list[..i] + list[i + 1..])
    ensures b in list[..i] + list[i + 1..] <==> b in list && b != list[i]
  {
    assert list == list[..i] + [list[i]] + list[i + 1..];
  }

  lemma MergeBlock(h: Heap, i: nat, c: int)
    requires Ok(h) && 0 < i && Touch(h, i) && IsBlock(Merge(h, i), c)
    ensures BlockOk(Merge(h, i), c)
  {
    var a, b := h.list[i], h.list[i + 1];
    assert a in h.list && b in h.list;
    assert BlockOk(h, a) && BlockOk(h, b);
    RemoveAt(h.list, i + 1, c);
    assert IsBlock(h, c);
    assert BlockOk(h, c);
    assert c != b by {
      assert b in h.list;
    }
  }

  lemma MergeUnit(h: Heap, i: nat, u: int)
    requires Ok(h) && 0 < i && Touch(h, i) && u in h.home
    ensures u in Merge(h, i).home && UnitOk(Merge(h, i), u)
  {
    var a, b := h.list[i], h.list[i + 1];
    assert a in h.list && b in h.list;
    assert BlockOk(h, a) && BlockOk(h, b) && UnitOk(h, u);
    RemoveAt(h.list, i + 1, h.home[u]);
    RemoveAt(h.list, i + 1, a);
  }

  lemma MergeOk(h: Heap, i: nat)
    requires Ok(h) && 0 < i && Touch(h, i)
    ensures Ok(Merge(h, i)) && Merge(h, i).home.Keys == h.home.Keys
  {
    var t := Merge(h, i);
    RemoveAt(h.list, i + 1, BASE);
    assert LinkOk(h, i) && LinkOk(h, i + 1);
    forall j | 0 <= j < |t.list| ensures LinkOk(t, j) {
      assert LinkOk(h, if j <= i then j else j + 1);
    }
    forall c | IsBlock(t, c) ensures BlockOk(t, c) {
      MergeBlock(h, i, c);
    }
    forall u | u in t.home ensures UnitOk(t, u) {
      MergeUnit(h, i, u);
    }
    forall c | c in t.live ensures c !in t.list {
      RemoveAt(h.list, i + 1, c);
    }
  }

  /** Free block number `i` is handed out whole. */
  function TakeWhole(h: Heap, i: nat): (t: Heap)
    requires 0 < i < |h.list| && h.list[i] in h.next
  {
    h.(next := h.next[h.list[i - 1] := h.next[h.list[i]]], list := h.list[..i] + h.list[i + 1..], live := h.live + {h.list[i]},
       freep := h.list[i - 1])
  }

  lemma TakeWholeOk(h: Heap, i: nat)
    requires Ok(h) && Coalesced(h) && 0 < i < |h.list|
    ensures LinkOk(h, i) && Ok(TakeWhole(h, i)) && Coalesced(TakeWhole(h, i))
  {
    assert LinkOk(h, i) && h.list[i] in h.list;
    var t := TakeWhole(h, i);
    assert BlockOk(h, h.list[i]);
    RemoveAt(h.list, i, h.list[i]);
    forall j | 0 <= j < |t.list| ensures LinkOk(t, j) && GapAfter(t, j) {
      assert LinkOk(h, if j < i then j else j + 1) && GapAfter(h, if j < i then j else j + 1) && GapAfter(h, i);
    }
    forall c | IsBlock(t, c) ensures BlockOk(t, c) {
      RemoveAt(h.list, i, c);
      assert BlockOk(h, c);
    }
    forall u | u in t.home ensures UnitOk(t, u) {
      assert UnitOk(h, u);
      RemoveAt(h.list, i, h.home[u]);
    }
    forall c | c in t.live ensures c !in t.list {
      RemoveAt(h.list, i, c);
    }
  }

  /** The last `n` units of free block number `i` are handed out. */
  function TakeTail(h: Heap, i: nat, n: nat): (t: Heap)
    requires 0 < i < |h.list| && h.list[i] in h.size
  {
    var p := h.list[i];
    var q := p + (h.size[p] - n);
    h.(size := h.size[p := h.size[p] - n][q := n], live := h.live + {q}, home := Rehome(h.home, q, n, q), freep := h.list[i - 1])
  }

  lemma TakeTailOk(h: Heap, i: nat, n: nat)
    requires Ok(h) && Coalesced(h) && 0 < i < |h.list| && h.list[i] in h.size && 1 <= n < h.size[h.list[i]]
    ensures Ok(TakeTail(h, i, n)) && Coalesced(TakeTail(h, i, n)) && TakeTail(h, i, n).home.Keys == h.home.Keys
    ensures var q := h.list[i] + (h.size[h.list[i]] - n); !IsBlock(h, q)
  {
    var t := TakeTail(h, i, n);
    var p := h.list[i];
    var q := p + (h.size[p] - n);
    assert p in h.list && BlockOk(h, p);
    assert h.home[q] == p && !IsBlock(h, q);
    forall j | 0 <= j < |t.list| ensures LinkOk(t, j) && GapAfter(t, j) {
      assert LinkOk(h, j) && GapAfter(h, j) && h.list[j] in h.list;
    }
    forall c | IsBlock(t, c) ensures BlockOk(t, c) {
      if c != q {
        assert IsBlock(h, c) && BlockOk(h, c);
      }
    }
    forall u | u in t.home ensures UnitOk(t, u) {
      assert UnitOk(h, u);
    }
  }

  /** sbrk has returned `n` new units at `a`, which become a block in use. */
  function AddCore(h: Heap, a: int, n: nat): (t: Heap) {
    h.(size := h.size[a := n], live := h.live + {a}, home := h.home + Units(a, n))
  }

  function Units(a: int, n: nat): (r: map<int, int>)
    ensures forall u :: u in r <==> a <= u < a + n
    ensures forall u :: u in r ==> r[u] == a
  {
    if n == 0 then map[] else Units(a, n - 1)[a + n - 1 := a]
  }

  lemma AddCoreOk(h: Heap, a: int, n: nat)
    requires Ok(h) && Coalesced(h) && n >= 1 && a > BASE && forall u :: u in h.home ==> u < a
    ensures Ok(AddCore(h, a, n)) && Coalesced(AddCore(h, a, n)) && !IsBlock(h, a)
  {
    var t := AddCore(h, a, n);
    assert a !in h.home && !IsBlock(h, a);
    forall j | 0 <= j < |t.list| ensures LinkOk(t, j) && GapAfter(t, j) {
      assert LinkOk(h, j) && GapAfter(h, j) && h.list[j] in h.list;
    }
    forall c | IsBlock(t, c) ensures BlockOk(t, c) {
      if c != a {
        assert BlockOk(h, c);
      }
    }
    forall u | u in t.home ensures UnitOk(t, u) {
      if u in h.home {
        assert UnitOk(h, u);
      }
    }
  }

  predicate Touch(h: Heap, i: nat) {
    && i + 1 < |h.list| && h.list[i] in h.size && h.list[i + 1] in h.size && h.list[i + 1] in h.next
    && h.list[i] + h.size[h.list[i]] == h.list[i + 1]
  }

  /** Free block number `i` takes in the next one if they touch. */
  function Join(h: Heap, i: nat): (t: Heap) {
    if Touch(h, i) then Merge(h, i) else h
  }

  /** There are gaps everywhere but perhaps after numbers `i` and `j`. */
  ghost predicate GapsBut(h: Heap, i: int, j: int) {
    forall n :: 0 <= n < |h.list| && n != i && n != j ==> GapAfter(h, n)
  }

  /** What an operation on the free list leaves alone. */
  ghost predicate SameBlocks(h: Heap, t: Heap) {
    && t.live == h.live && t.home.Keys == h.home.Keys && t.freep == h.freep
    && forall b :: b in h.live ==> b in h.size && b in t.size && t.size[b] == h.size[b]
  }

  lemma MergeGaps(h: Heap, i: nat, j: int)
    requires Ok(h) && 0 < i && Touch(h, i) && GapsBut(h, j, i) && j < i
    ensures GapsBut(Merge(h, i), j, j) && SameBlocks(h, Merge(h, i))
  {
    var t := Merge(h, i);
    assert h.list[i] in h.list && h.list[i + 1] in h.list;
    forall n | 0 <= n < |t.list| && n != j ensures GapAfter(t, n) {
      if n < i {
        assert GapAfter(h, n);
      } else {
        assert GapAfter(h, n + 1);
      }
    }
    forall b | b in h.live ensures b in h.size && b in t.size && t.size[b] == h.size[b] {
      assert BlockOk(h, b);
    }
  }

  lemma JoinOk(h: Heap, i: nat, j: int)
    requires Ok(h) && i < |h.list| && GapsBut(h, j, i) && j < i
    ensures var t := Join(h, i); Ok(t) && GapsBut(t, j, j) && SameBlocks(h, t) && |t.list| > i && t.list[..i + 1] == h.list[..i + 1]
  {
    assert LinkOk(h, i);
    if i + 1 < |h.list| {
      assert h.list[i + 1] in h.list && h.list[i] in h.list;
      if i > 0 {
        Disjoint(h, h.list[i], h.list[i + 1]);
      }
      assert LinkOk(h, i + 1);
      if Touch(h, i) {
        MergeOk(h, i);
        MergeGaps(h, i, j);
      }
    }
    forall b | b in h.live ensures b in h.size {
      assert BlockOk(h, b);
    }
  }

  lemma InsertGaps(h: Heap, bp: int, k: nat)
    requires Ok(h) && Coalesced(h) && bp in h.live && Place(h, bp, k)
    ensures GapsBut(Insert(h, bp, k), k, k + 1)
  {
    var t := Insert(h, bp, k);
    forall n | 0 <= n < |t.list| && n != k && n != k + 1 ensures GapAfter(t, n) {
      assert GapAfter(h, if n < k then n else n - 1);
    }
  }

  /** Free block number `i` has at least `n` units. */
  predicate HasRoom(h: Heap, i: nat, n: int) {
    i < |h.list| && h.list[i] in h.size && h.size[h.list[i]] >= n
  }

  /** Moving freep changes nothing else. */
  lemma FreepMoves(h: Heap, f: int)
    requires Ok(h) && GapsBut(h, -1, -1)
    ensures Ok(h.(freep := f)) && Coalesced(h.(freep := f))
  {
    var t := h.(freep := f);
    forall i | 0 <= i < |t.list| ensures LinkOk(t, i) && GapAfter(t, i) {
      assert LinkOk(h, i) && GapAfter(h, i);
    }
    forall b | IsBlock(t, b) ensures BlockOk(t, b) {
      assert IsBlock(h, b) && BlockOk(h, b);
    }
    forall u | u in t.home ensures UnitOk(t, u) {
      assert UnitOk(h, u);
    }
  }

  /** A block only gets larger by taking in another. */
  lemma JoinRoom(h: Heap, i: nat, j: nat, n: int)
    requires Ok(h) && i < |h.list| && LinkOk(h, i) && (j == i || j == i + 1) && HasRoom(h, j, n)
    ensures HasRoom(Join(h, i), i, n) || HasRoom(Join(h, i), j, n)
  {
    if i + 1 < |h.list| {
      assert h.list[i] in h.list && h.list[i + 1] in h.list && LinkOk(h, i + 1);
      assert BlockOk(h, h.list[i + 1]) && (i > 0 ==> BlockOk(h, h.list[i]));
    }
  }

  /** The free list with `bp` in its place, before it joins its neighbours. */
  lemma Inserted(h: Heap, bp: int, k: nat) returns (a: Heap)
    requires Ok(h) && Coalesced(h) && bp in h.live && Place(h, bp, k)
    ensures a == Insert(h, bp, k) && Ok(a) && GapsBut(a, k, k + 1) && a.live == h.live - {bp} && a.home == h.home && a.size == h.size
    ensures k + 1 < |a.list| && a.list[k] == h.list[k] && a.list[k + 1] == bp && bp in h.size && HasRoom(a, k + 1, h.size[bp])
  {
    InsertOk(h, bp, k);
    InsertGaps(h, bp, k);
    assert BlockOk(h, bp);
    a := Insert(h, bp, k);
  }

  lemma Joined(a: Heap, k: nat, n: int) returns (b: Heap)
    requires Ok(a) && GapsBut(a, k, k + 1) && k + 1 < |a.list| && HasRoom(a, k + 1, n)
    ensures b == Join(a, k + 1) && Ok(b) && GapsBut(b, k, k) && SameBlocks(a, b)
    ensures k + 1 < |b.list| && b.list[k] == a.list[k] && b.list[k + 1] == a.list[k + 1]
    ensures HasRoom(b, k + 1, n)
  {
    JoinOk(a, k + 1, k);
    assert LinkOk(a, k + 1);
    JoinRoom(a, k + 1, k + 1, n);
    b := Join(a, k + 1);
    assert b.list[k] == b.list[..k + 2][k] && b.list[k + 1] == b.list[..k + 2][k + 1];
  }

  lemma JoinedBack(b: Heap, k: nat, n: int) returns (c: Heap)
    requires Ok(b) && GapsBut(b, k, k) && k + 1 < |b.list| && HasRoom(b, k + 1, n)
    ensures c == Join(b, k) && Ok(c) && GapsBut(c, -1, -1) && SameBlocks(b, c) && k < |c.list| && c.list[k] == b.list[k]
    ensures HasRoom(c, k, n) || HasRoom(c, k + 1, n)
  {
    JoinOk(b, k, -1);
    assert LinkOk(b, k);
    JoinRoom(b, k, k + 1, n);
    c := Join(b, k);
    assert c.list[k] == c.list[..k + 1][k];
  }

  /** After free: `bp` is no longer in use, the other blocks in use are as they were, no unit is lost, and
      block number `k`, where freep points, or the one after it is at least as large as `bp` was. */
  ghost predicate GivenBack(h: Heap, t: Heap, bp: int, k: nat) {
    && Ok(t) && Coalesced(t) && t.live == h.live - {bp} && t.home.Keys == h.home.Keys
    && (forall b :: b in t.live ==> b in h.size && b in t.size && t.size[b] == h.size[b])
    && k < |t.list| && t.list[k] == t.freep && bp in h.size && (HasRoom(t, k, h.size[bp]) || HasRoom(t, k + 1, h.size[bp]))
  }

  /** What free reads. */
  lemma Neighbours(h: Heap, bp: int, k: nat)
    requires Ok(h) && bp in h.live && Place(h, bp, k)
    ensures bp in h.size && h.list[k] in h.next && h.list[k] in h.size && bp != h.list[k]
    ensures h.next[h.list[k]] == After(h.list, k) && After(h.list, k) in h.next && After(h.list, k) in h.size
    ensures bp > BASE && h.size[bp] >= 1
  {
    assert BlockOk(h, bp) && LinkOk(h, k) && LinkOk(h, 0);
    if k + 1 < |h.list| {
      assert LinkOk(h, k + 1);
    }
  }

  /** The headers after block number `i` has joined the next one, `b`. */
  lemma JoinFields(h: Heap, i: nat)
    requires Ok(h) && i < |h.list|
    ensures TakesIn(h, Join(h, i), h.list[i], After(h.list, i))
  {
    assert LinkOk(h, i) && LinkOk(h, 0);
    if i + 1 < |h.list| {
      assert LinkOk(h, i + 1);
    } else if i > 0 {
      assert h.list[i] in h.list;
      assert BlockOk(h, h.list[i]);
    }
  }

  /** One header, `a`, takes in the block `b` that touches it. */
  ghost predicate TakesIn(h: Heap, t: Heap, a: int, b: int) {
    && a in h.size && b in h.size && b in h.next
    && if a + h.size[a] == b then t.size == h.size[a := h.size[a] + h.size[b]] && t.next == h.next[a := h.next[b]]
       else t.size == h.size && t.next == h.next
  }

  /** The headers that free writes. */
  ghost predicate FreeWrites(h: Heap, t: Heap, bp: int, p: int, n: int)
    requires bp in h.size && p in h.size && n in h.size && n in h.next
  {
    var up := bp + h.size[bp] == n;
    var size := if up then h.size[bp := h.size[bp] + h.size[n]] else h.size;
    var next := h.next[bp := if up then h.next[n] else n];
    if p + size[p] == bp then t.size == size[p := size[p] + size[bp]] && t.next == next[p := next[bp]]
    else t.size == size && t.next == next[p := bp]
  }

  lemma TwoTakeIns(h: Heap, a: Heap, b: Heap, c: Heap, bp: int, p: int, n: int)
    requires bp in h.size && p in h.size && n in h.size && n in h.next && p != bp && n != bp
    requires a.size == h.size && a.next == h.next[bp := n][p := bp]
    requires TakesIn(a, b, bp, n) && TakesIn(b, c, p, bp) && (p == n ==> bp + h.size[bp] != n)
    ensures FreeWrites(h, c, bp, p, n)
  {
  }

  /** The headers that free writes, and what they then mean. */
  lemma FreeResult(h: Heap, bp: int, k: nat) returns (t: Heap)
    requires Ok(h) && Coalesced(h) && bp in h.live && Place(h, bp, k) && bp in h.size
    requires h.list[k] in h.next && h.list[k] in h.size && After(h.list, k) in h.next && After(h.list, k) in h.size
    ensures FreeWrites(h, t, bp, h.list[k], After(h.list, k))
    ensures t.freep == h.list[k] && GivenBack(h, t, bp, k)
  {
    Neighbours(h, bp, k);
    var a := Inserted(h, bp, k);
    assert a.next == h.next[bp := After(h.list, k)][h.list[k] := bp] && After(a.list, k + 1) == After(h.list, k) && After(a.list, k) == bp;
    JoinFields(a, k + 1);
    var b := Joined(a, k, h.size[bp]);
    JoinFields(b, k);
    assert After(b.list, k) == bp;
    var c := JoinedBack(b, k, h.size[bp]);
    TwoTakeIns(h, a, b, c, bp, h.list[k], After(h.list, k));
    FreepMoves(c, h.list[k]);
    t := c.(freep := h.list[k]);
  }

  // Going around the list.

  /** How many steps it takes from block number `i` to number `j`. */
  function Steps(n: nat, i: nat, j: nat): (d: int) {
    if i <= j then j - i else n - i + j
  }

  function Succ(n: nat, i: nat): (j: nat) {
    if i + 1 < n then i + 1 else 0
  }

  /** Every address above BASE has its place in the list. */
  lemma {:induction false} PlaceExists(h: Heap, bp: int, n: nat) returns (k: nat)
    requires Sorted(h.list) && 0 < n <= |h.list| && h.list[0] < bp && (n < |h.list| ==> bp < h.list[n]) && bp !in h.list
    ensures Place(h, bp, k)
  {
    if h.list[n - 1] < bp {
      k := n - 1;
    } else {
      k := PlaceExists(h, bp, n - 1);
    }
  }
}
