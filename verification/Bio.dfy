/** The buffer cache of kernel/bio.c: every interleaving of its critical sections
    by any number of processes, and the list code behind them. */
module Bio {
  import opened Blocks
  import opened Lru

  datatype Key = Key(dev: nat, blockno: nat)

  /** `holder` is the process that holds the buffer's sleep lock, 0 if none does. */
  datatype Buf = Buf(key: Key, valid: bool, refcnt: nat, holder: nat, data: Block)

  /** `bufs`, `order` (most recently used first) and `disk` are the kernel's state.
      The rest records its use: the references of each process, the pins of the
      log, the contents last given to each block, and when each buffer was moved to
      the front of the list. */
  datatype Cache = Cache(
    bufs: seq<Buf>, order: seq<int>, disk: map<Key, Block>,
    users: seq<multiset<nat>>, pins: seq<nat>, view: map<Key, Block>, stamp: seq<int>, clock: int)

  // The two searches of bget.

  /** The place in the list of the first buffer for `key`, or |order|. */
  function FindCached(bufs: seq<Buf>, order: seq<int>, key: Key, i: nat): (k: nat)
    requires i <= |order| && forall j :: 0 <= j < |order| ==> 0 <= order[j] < |bufs|
    ensures i <= k <= |order|
    ensures k < |order| ==> bufs[order[k]].key == key
    ensures forall j :: i <= j < k ==> bufs[order[j]].key != key
    decreases |order| - i
  {
    if i == |order| || bufs[order[i]].key == key then i else FindCached(bufs, order, key, i + 1)
  }

  /** The place of the last unreferenced buffer before place `i`, or -1. */
  function FindVictim(bufs: seq<Buf>, order: seq<int>, i: nat): (k: int)
    requires i <= |order| && forall j :: 0 <= j < |order| ==> 0 <= order[j] < |bufs|
    ensures -1 <= k < i
    ensures k >= 0 ==> bufs[order[k]].refcnt == 0
    ensures forall j :: k < j < i ==> bufs[order[j]].refcnt != 0
  {
    if i == 0 then -1 else if bufs[order[i - 1]].refcnt == 0 then i - 1 else FindVictim(bufs, order, i - 1)
  }

  // The steps. A client uses a buffer only between taking and dropping a
  // reference, changes it only while it holds the lock, and leaves it clean or
  // pinned when it drops the last reference.

  datatype Step =
    | Lookup(p: nat, key: Key)
    | Lock(p: nat, b: nat)
    | Fill(p: nat, b: nat)
    | Modify(p: nat, b: nat, data: Block)
    | Write(p: nat, b: nat)
    | Unlock(p: nat, b: nat)
    | Unref(p: nat, b: nat)
    | Pin(p: nat, b: nat)
    | Unpin(b: nat)

  predicate Shape(c: Cache) {
    && |c.order| == |c.users| == |c.pins| == |c.stamp| == |c.bufs|
    && forall i :: 0 <= i < |c.order| ==> 0 <= c.order[i] < |c.bufs|
  }

  predicate Clean(c: Cache, b: nat)
    requires b < |c.bufs|
  {
    c.bufs[b].valid ==> c.bufs[b].key in c.disk && c.bufs[b].data == c.disk[c.bufs[b].key]
  }

  /** What the protocol asks of the process that takes a step. */
  predicate Allowed(c: Cache, step: Step)
    requires Shape(c)
  {
    match step
    case Lookup(p, key) => p != 0 && key.dev != 0 && key in c.disk
    case Lock(p, b) => b < |c.bufs| && p in c.users[b] && c.bufs[b].holder == 0
    case Fill(p, b) => b < |c.bufs| && c.bufs[b].holder == p && p != 0 && !c.bufs[b].valid
    case Modify(p, b, _) => b < |c.bufs| && c.bufs[b].holder == p && p != 0 && c.bufs[b].valid
    case Write(p, b) => b < |c.bufs| && c.bufs[b].holder == p && p != 0 && c.bufs[b].valid
    case Unlock(p, b) => b < |c.bufs| && c.bufs[b].holder == p && p != 0
    case Unref(p, b) => b < |c.bufs| && p in c.users[b] && c.bufs[b].holder != p && (c.bufs[b].refcnt == 1 ==> Clean(c, b))
    case Pin(p, b) => b < |c.bufs| && c.bufs[b].holder == p && p != 0
    case Unpin(b) => b < |c.bufs| && c.pins[b] > 0 && (c.bufs[b].refcnt == 1 ==> Clean(c, b))
  }

  /** bget under the cache lock: the buffers afterwards and the one chosen, or -1
      for the panic when there is none. */
  function GetBufs(bufs: seq<Buf>, order: seq<int>, key: Key): (r: (seq<Buf>, int))
    requires forall j :: 0 <= j < |order| ==> 0 <= order[j] < |bufs|
  {
    var k := FindCached(bufs, order, key, 0);
    if k < |order| then
      var b := order[k];
      (bufs[b := bufs[b].(refcnt := bufs[b].refcnt + 1)], b)
    else
      var v := FindVictim(bufs, order, |order|);
      if v < 0 then (bufs, -1)
      else
        var b := order[v];
        (bufs[b := bufs[b].(key := key, valid := false, refcnt := 1)], b)
  }

  function Get(c: Cache, p: nat, key: Key): (r: (Cache, int))
    requires Shape(c)
  {
    var (bufs, b) := GetBufs(c.bufs, c.order, key);
    if b < 0 then (c, -1) else (c.(bufs := bufs, users := c.users[b := c.users[b] + multiset{p}]), b)
  }

  /** The end of brelse under the cache lock. */
  function Release(c: Cache, p: nat, b: nat, k: nat): (r: Cache)
    requires Shape(c) && b < |c.bufs| && c.bufs[b].refcnt > 0 && k < |c.order|
  {
    var t := c.(bufs := c.bufs[b := c.bufs[b].(refcnt := c.bufs[b].refcnt - 1)], users := c.users[b := c.users[b] - multiset{p}]);
    if c.bufs[b].refcnt == 1 then t.(order := ToFront(c.order, k), stamp := c.stamp[b := c.clock], clock := c.clock + 1)
    else t
  }

  function Place(order: seq<int>, b: int, i: nat): (k: nat)
    requires i <= |order| && b in order[i..]
    ensures i <= k < |order| && order[k] == b
    decreases |order| - i
  {
    if order[i] == b then i else assert order[i..] == [order[i]] + order[i + 1..]; Place(order, b, i + 1)
  }

  /** What a step needs to be defined: every buffer is on the list, and references are counted. */
  ghost predicate Ready(c: Cache) {
    Shape(c) && forall b :: 0 <= b < |c.bufs| ==> b in c.order && c.bufs[b].refcnt == |c.users[b]| + c.pins[b]
  }

  ghost function Apply(c: Cache, step: Step): (r: Cache)
    requires Ready(c) && Allowed(c, step)
  {
    match step
    case Lookup(p, key) => Get(c, p, key).0
    case Lock(p, b) => c.(bufs := c.bufs[b := c.bufs[b].(holder := p)])
    case Fill(p, b) =>
      if c.bufs[b].key in c.disk then c.(bufs := c.bufs[b := c.bufs[b].(data := c.disk[c.bufs[b].key], valid := true)]) else c
    case Modify(p, b, data) => c.(bufs := c.bufs[b := c.bufs[b].(data := data)], view := c.view[c.bufs[b].key := data])
    case Write(p, b) => c.(disk := c.disk[c.bufs[b].key := c.bufs[b].data])
    case Unlock(p, b) => c.(bufs := c.bufs[b := c.bufs[b].(holder := 0)])
    case Unref(p, b) => assert c.order[0..] == c.order; Release(c, p, b, Place(c.order, b, 0))
    case Pin(p, b) => c.(bufs := c.bufs[b := c.bufs[b].(refcnt := c.bufs[b].refcnt + 1)], pins := c.pins[b := c.pins[b] + 1])
    case Unpin(b) => c.(bufs := c.bufs[b := c.bufs[b].(refcnt := c.bufs[b].refcnt - 1)], pins := c.pins[b := c.pins[b] - 1])
  }

  // The invariant.

  /** References are counted exactly, and a lock holder has one. */
  ghost predicate RefInv(c: Cache)
    requires Shape(c)
  {
    forall b :: 0 <= b < |c.bufs| ==>
      && c.bufs[b].refcnt == |c.users[b]| + c.pins[b]
      && (c.bufs[b].holder != 0 ==> c.bufs[b].holder in c.users[b])
      && 0 !in c.users[b]
      && (c.bufs[b].refcnt > 0 ==> c.bufs[b].key.dev != 0)
  }

  /** The list holds every buffer once, the more recently moved ones first. */
  ghost predicate ListInv(c: Cache)
    requires Shape(c)
  {
    && Permutation(c.order, |c.bufs|)
    && (forall i, j :: 0 <= i < j < |c.order| ==> c.stamp[c.order[i]] > c.stamp[c.order[j]])
    && (forall b :: 0 <= b < |c.bufs| ==> c.stamp[b] < c.clock)
  }

  /** No block of a real device has two buffers. */
  ghost predicate UniqueInv(c: Cache) {
    forall a, b :: 0 <= a < |c.bufs| && 0 <= b < |c.bufs| && a != b && c.bufs[a].key.dev != 0 ==> c.bufs[a].key != c.bufs[b].key
  }

  /** `b` caches `key`. */
  predicate Caches(c: Cache, b: int, key: Key) {
    0 <= b < |c.bufs| && c.bufs[b].valid && c.bufs[b].key == key
  }

  /** A valid buffer holds the latest contents of its block; a block without one
      has them on disk; an unreferenced buffer agrees with the disk. */
  ghost predicate DataInv(c: Cache) {
    && c.view.Keys == c.disk.Keys
    && (forall b :: 0 <= b < |c.bufs| && (c.bufs[b].key.dev != 0 || c.bufs[b].valid) ==> c.bufs[b].key in c.disk)
    && (forall b :: 0 <= b < |c.bufs| && c.bufs[b].valid ==> c.bufs[b].key.dev != 0 && c.bufs[b].data == c.view[c.bufs[b].key])
    && (forall key :: key in c.disk && c.disk[key] != c.view[key] ==> exists b :: Caches(c, b, key))
    && (forall b :: 0 <= b < |c.bufs| && c.bufs[b].valid && c.bufs[b].refcnt == 0 ==> c.bufs[b].data == c.disk[c.bufs[b].key])
  }

  ghost predicate Inv(c: Cache) {
    Shape(c) && RefInv(c) && ListInv(c) && UniqueInv(c) && DataInv(c)
  }

  /** binit. */
  function Init(n: nat, disk: map<Key, Block>, junk: Block): (c: Cache) {
    Cache(seq(n, _ => Buf(Key(0, 0), false, 0, 0, junk)), seq(n, i => n - 1 - i), disk,
          seq(n, _ => multiset{}), seq(n, _ => 0), disk, seq(n, i => i), n)
  }

  lemma InitInv(n: nat, disk: map<Key, Block>, junk: Block)
    ensures Inv(Init(n, disk, junk))
  {
    var c := Init(n, disk, junk);
    forall b | 0 <= b < n ensures b in c.order {
      assert c.order[n - 1 - b] == b;
    }
  }

  /** A search that finds nothing has looked at every buffer. */
  lemma NotCached(c: Cache, key: Key, a: int)
    requires Inv(c) && FindCached(c.bufs, c.order, key, 0) == |c.order| && 0 <= a < |c.bufs|
    ensures c.bufs[a].key != key
  {
    assert a in c.order;
  }

  lemma LookupKeeps(c: Cache, p: nat, key: Key)
    requires Inv(c) && Allowed(c, Lookup(p, key))
    ensures Inv(Get(c, p, key).0)
  {
    var k := FindCached(c.bufs, c.order, key, 0);
    if k < |c.order| {
      HitKeeps(c, p, key);
    } else if FindVictim(c.bufs, c.order, |c.order|) >= 0 {
      RecycleKeeps(c, p, key);
    }
  }

  lemma HitKeeps(c: Cache, p: nat, key: Key)
    requires Inv(c) && Allowed(c, Lookup(p, key)) && FindCached(c.bufs, c.order, key, 0) < |c.order|
    ensures Inv(Get(c, p, key).0)
  {
    var (t, b) := Get(c, p, key);
    assert forall k, a :: Caches(c, a, k) ==> Caches(t, a, k);
  }

  lemma RecycleKeeps(c: Cache, p: nat, key: Key)
    requires Inv(c) && Allowed(c, Lookup(p, key))
    requires FindCached(c.bufs, c.order, key, 0) == |c.order| && FindVictim(c.bufs, c.order, |c.order|) >= 0
    ensures Inv(Get(c, p, key).0)
  {
    forall a | 0 <= a < |c.bufs| ensures c.bufs[a].key != key {
      NotCached(c, key, a);
    }
    RecycleData(c, p, key);
  }

  lemma RecycleData(c: Cache, p: nat, key: Key)
    requires Inv(c) && Allowed(c, Lookup(p, key))
    requires FindCached(c.bufs, c.order, key, 0) == |c.order| && FindVictim(c.bufs, c.order, |c.order|) >= 0
    ensures DataInv(Get(c, p, key).0)
  {
    var (t, b) := Get(c, p, key);
    forall a | 0 <= a < |c.bufs| ensures c.bufs[a].key != key {
      NotCached(c, key, a);
    }
    forall k | k in t.disk && t.disk[k] != t.view[k] ensures exists a :: Caches(t, a, k) {
      var a :| Caches(c, a, k);
      assert a != b;
      assert Caches(t, a, k);
    }
  }

  lemma MovedOrdered(order: seq<int>, stamp: seq<int>, k: nat, clock: int)
    requires k < |order| == |stamp| && forall i :: 0 <= i < |order| ==> 0 <= order[i] < |stamp|
    requires forall i, j :: 0 <= i < j < |order| ==> stamp[order[i]] > stamp[order[j]]
    requires forall b :: 0 <= b < |stamp| ==> stamp[b] < clock
    ensures var r, st := ToFront(order, k), stamp[order[k] := clock];
            forall i, j :: 0 <= i < j < |r| ==> st[r[i]] > st[r[j]]
  {
    var r, st := ToFront(order, k), stamp[order[k] := clock];
    forall i, j | 0 <= i < j < |r| ensures st[r[i]] > st[r[j]] {
      assert r[j] == order[if j <= k then j - 1 else j];
      if i > 0 {
        assert r[i] == order[if i <= k then i - 1 else i];
      }
    }
  }

  lemma UnrefKeeps(c: Cache, p: nat, b: nat)
    requires Inv(c) && Allowed(c, Unref(p, b))
    ensures Inv(Apply(c, Unref(p, b)))
  {
    assert c.order[0..] == c.order;
    UnrefList(c, p, b);
    UnrefRefs(c, p, b);
    DataSame(c, Apply(c, Unref(p, b)), b);
  }

  lemma RefDropped(c: Cache, t: Cache, p: nat, b: nat)
    requires Shape(c) && RefInv(c) && Shape(t) && b < |c.bufs| && p in c.users[b] && c.bufs[b].holder != p && c.bufs[b].refcnt > 0
    requires t.bufs == c.bufs[b := c.bufs[b].(refcnt := c.bufs[b].refcnt - 1)]
    requires t.users == c.users[b := c.users[b] - multiset{p}] && t.pins == c.pins
    ensures RefInv(t)
  {
    assert c.users[b] == (c.users[b] - multiset{p}) + multiset{p};
  }

  lemma UnrefRefs(c: Cache, p: nat, b: nat)
    requires Inv(c) && Allowed(c, Unref(p, b))
    ensures var t := Apply(c, Unref(p, b)); Shape(t) && RefInv(t) && UniqueInv(t)
  {
    assert c.order[0..] == c.order;
    UnrefList(c, p, b);
    RefDropped(c, Apply(c, Unref(p, b)), p, b);
  }

  lemma MovedList(c: Cache, t: Cache, k: nat)
    requires Shape(c) && ListInv(c) && k < |c.order| && |t.bufs| == |t.users| == |t.pins| == |c.bufs|
    requires t.order == ToFront(c.order, k) && t.stamp == c.stamp[c.order[k] := c.clock] && t.clock == c.clock + 1
    ensures Shape(t) && ListInv(t)
  {
    ToFrontPermutes(c.order, k, |c.bufs|);
    MovedOrdered(c.order, c.stamp, k, c.clock);
    assert forall i :: 0 <= i < |t.order| ==> t.order[i] in c.order;
  }

  lemma UnrefList(c: Cache, p: nat, b: nat)
    requires Inv(c) && Allowed(c, Unref(p, b))
    ensures Shape(Apply(c, Unref(p, b))) && ListInv(Apply(c, Unref(p, b)))
  {
    assert c.order[0..] == c.order;
    var t, k := Apply(c, Unref(p, b)), Place(c.order, b, 0);
    if c.bufs[b].refcnt == 1 {
      MovedList(c, t, k);
    }
  }

  /** Changing only the reference count or the lock of a buffer leaves the data
      as it was. */
  lemma DataSame(c: Cache, t: Cache, b: nat)
    requires DataInv(c) && b < |c.bufs| == |t.bufs| && t.view == c.view && t.disk == c.disk
    requires t.bufs == c.bufs[b := c.bufs[b].(refcnt := t.bufs[b].refcnt, holder := t.bufs[b].holder)]
    requires t.bufs[b].refcnt == 0 ==> c.bufs[b].refcnt == 0 || Clean(c, b)
    ensures DataInv(t)
  {
    forall key | key in t.disk && t.disk[key] != t.view[key] ensures exists a :: Caches(t, a, key) {
      var a :| Caches(c, a, key);
      assert Caches(t, a, key);
    }
  }

  lemma FillData(c: Cache, p: nat, b: nat)
    requires Inv(c) && Allowed(c, Fill(p, b))
    ensures DataInv(Apply(c, Fill(p, b)))
  {
    var t, k := Apply(c, Fill(p, b)), c.bufs[b].key;
    assert c.disk[k] == c.view[k];
    forall key | key in t.disk && t.disk[key] != t.view[key] ensures exists a :: Caches(t, a, key) {
      var a :| Caches(c, a, key);
      assert Caches(t, a, key);
    }
  }

  lemma ModifyData(c: Cache, p: nat, b: nat, data: Block)
    requires Inv(c) && Allowed(c, Modify(p, b, data))
    ensures DataInv(Apply(c, Modify(p, b, data)))
  {
    var t := Apply(c, Modify(p, b, data));
    assert Caches(t, b, c.bufs[b].key);
    forall key | key in t.disk && t.disk[key] != t.view[key] ensures exists a :: Caches(t, a, key) {
      if key != c.bufs[b].key {
        var a :| Caches(c, a, key);
        assert Caches(t, a, key);
      }
    }
  }

  lemma WriteData(c: Cache, p: nat, b: nat)
    requires Inv(c) && Allowed(c, Write(p, b))
    ensures DataInv(Apply(c, Write(p, b)))
  {
    var t := Apply(c, Write(p, b));
    forall key | key in t.disk && t.disk[key] != t.view[key] ensures exists a :: Caches(t, a, key) {
      var a :| Caches(c, a, key);
      assert Caches(t, a, key);
    }
  }

  lemma DataKeeps(c: Cache, step: Step)
    requires Inv(c) && Allowed(c, step) && !step.Lookup? && !step.Unref?
    ensures DataInv(Apply(c, step))
  {
    match step
    case Fill(p, b) => FillData(c, p, b);
    case Modify(p, b, data) => ModifyData(c, p, b, data);
    case Write(p, b) => WriteData(c, p, b);
    case Lock(_, b) => DataSame(c, Apply(c, step), b);
    case Unlock(_, b) => DataSame(c, Apply(c, step), b);
    case Pin(_, b) => DataSame(c, Apply(c, step), b);
    case Unpin(b) => DataSame(c, Apply(c, step), b);
  }

  lemma PinsKeep(c: Cache, step: Step)
    requires Inv(c) && Allowed(c, step) && (step.Pin? || step.Unpin?)
    ensures Ready(c)
    ensures var t := Apply(c, step); Shape(t) && RefInv(t) && ListInv(t) && UniqueInv(t)
  {
  }

  lemma LocksKeep(c: Cache, step: Step)
    requires Inv(c) && Allowed(c, step) && (step.Lock? || step.Unlock?)
    ensures Ready(c)
    ensures var t := Apply(c, step); Shape(t) && RefInv(t) && ListInv(t) && UniqueInv(t)
  {
  }

  lemma WritesKeep(c: Cache, step: Step)
    requires Inv(c) && Allowed(c, step) && (step.Fill? || step.Modify? || step.Write?)
    ensures Ready(c)
    ensures var t := Apply(c, step); Shape(t) && RefInv(t) && ListInv(t) && UniqueInv(t)
  {
  }

  /** Every step allowed by the protocol keeps the invariant. */
  lemma StepKeeps(c: Cache, step: Step)
    requires Inv(c) && Allowed(c, step)
    ensures Inv(Apply(c, step))
  {
    if step.Lookup? {
      LookupKeeps(c, step.p, step.key);
    } else if step.Unref? {
      UnrefKeeps(c, step.p, step.b);
    } else {
      if step.Pin? || step.Unpin? {
        PinsKeep(c, step);
      } else if step.Lock? || step.Unlock? {
        LocksKeep(c, step);
      } else {
        WritesKeep(c, step);
      }
      DataKeeps(c, step);
    }
  }

  // The main results, over every run of allowed steps.

  /** `t` is the state after `steps`, each of which is allowed. */
  ghost predicate Runs(c: Cache, steps: seq<Step>, t: Cache)
    decreases |steps|
  {
    if steps == [] then t == c else Ready(c) && Allowed(c, steps[0]) && Runs(Apply(c, steps[0]), steps[1..], t)
  }

  lemma {:induction false} RunKeeps(c: Cache, steps: seq<Step>, t: Cache)
    requires Inv(c) && Runs(c, steps, t)
    ensures Inv(t)
    decreases |steps|
  {
    if steps != [] {
      StepKeeps(c, steps[0]);
      RunKeeps(Apply(c, steps[0]), steps[1..], t);
    }
  }

  /** The cache refines the disk: from binit on, whatever the interleaving, a
      valid buffer holds what was last stored in its block, no block has two
      buffers, and contents not yet on disk are in a buffer that cannot be
      recycled. */
  lemma CacheRefinesDisk(n: nat, disk: map<Key, Block>, junk: Block, steps: seq<Step>, c: Cache)
    requires Runs(Init(n, disk, junk), steps, c)
    ensures Permutation(c.order, |c.bufs|) && |c.users| == |c.bufs| && c.view.Keys == c.disk.Keys
    ensures forall b :: 0 <= b < |c.bufs| && c.bufs[b].valid ==> c.bufs[b].key in c.view && c.bufs[b].data == c.view[c.bufs[b].key]
    ensures forall a, b :: 0 <= a < |c.bufs| && 0 <= b < |c.bufs| && a != b && c.bufs[a].key.dev != 0 ==> c.bufs[a].key != c.bufs[b].key
    ensures forall key :: key in c.disk && c.disk[key] != c.view[key] ==>
              exists b :: Caches(c, b, key) && c.bufs[b].data == c.view[key] && c.bufs[b].refcnt > 0
  {
    InitInv(n, disk, junk);
    RunKeeps(Init(n, disk, junk), steps, c);
    forall key | key in c.disk && c.disk[key] != c.view[key]
      ensures exists b :: Caches(c, b, key) && c.bufs[b].data == c.view[key] && c.bufs[b].refcnt > 0
    {
      var b :| Caches(c, b, key);
      assert c.bufs[b].refcnt > 0;
    }
  }

  /** A buffer keeps its block for as long as a process refers to it. */
  lemma HeldStep(c: Cache, step: Step, p: nat, b: nat)
    requires Inv(c) && Allowed(c, step) && b < |c.bufs| && p in c.users[b] && step != Unref(p, b)
    ensures var t := Apply(c, step); |t.bufs| == |t.users| == |c.bufs| && p in t.users[b] && t.bufs[b].key == c.bufs[b].key
  {
    assert c.bufs[b].refcnt > 0;
  }

  /** bread: between bget and brelse the buffer stays the one for the block asked
      for, and from the moment it is valid it holds the block's latest contents,
      whatever other processes do in between. */
  lemma {:induction false} ReadLatest(c: Cache, steps: seq<Step>, t: Cache, p: nat, b: nat)
    requires Inv(c) && Runs(c, steps, t) && b < |c.bufs| && p in c.users[b]
    requires Unref(p, b) !in steps
    ensures |t.bufs| == |c.bufs| == |t.users| && p in t.users[b]
    ensures t.bufs[b].key == c.bufs[b].key && t.bufs[b].key in t.view
    ensures t.bufs[b].valid ==> t.bufs[b].data == t.view[t.bufs[b].key]
    decreases |steps|
  {
    if steps != [] {
      StepKeeps(c, steps[0]);
      HeldStep(c, steps[0], p, b);
      ReadLatest(Apply(c, steps[0]), steps[1..], t, p, b);
    }
  }

  /** bget: the buffer for the block if there is one; else the unreferenced buffer
      released longest ago; else none, which is exactly when all are in use. */
  lemma GetChooses(c: Cache, p: nat, key: Key)
    requires Inv(c) && key.dev != 0
    ensures var (t, b) := Get(c, p, key);
            && (b == -1 <==> forall a :: 0 <= a < |c.bufs| ==> c.bufs[a].key != key && c.bufs[a].refcnt > 0)
            && (b == -1 ==> t == c)
            && (b != -1 ==> 0 <= b < |c.bufs| == |t.bufs| && t.bufs[b].key == key && t.bufs[b].refcnt == c.bufs[b].refcnt + 1)
            && (b != -1 && c.bufs[b].key == key ==> t.bufs[b].valid == c.bufs[b].valid && t.bufs[b].data == c.bufs[b].data)
            && (b != -1 && c.bufs[b].key != key ==>
                  && !t.bufs[b].valid && c.bufs[b].refcnt == 0
                  && (forall a :: 0 <= a < |c.bufs| ==> c.bufs[a].key != key)
                  && (forall a :: 0 <= a < |c.bufs| && c.bufs[a].refcnt == 0 ==> c.stamp[b] <= c.stamp[a]))
  {
    var k := FindCached(c.bufs, c.order, key, 0);
    if k == |c.order| {
      forall a | 0 <= a < |c.bufs| ensures c.bufs[a].key != key {
        NotCached(c, key, a);
      }
      var v := FindVictim(c.bufs, c.order, |c.order|);
      forall a | 0 <= a < |c.bufs| && c.bufs[a].refcnt == 0 ensures v >= 0 && c.stamp[c.order[v]] <= c.stamp[a] {
        assert a in c.order;
        var i :| 0 <= i < |c.order| && c.order[i] == a;
      }
    }
  }

  // What the operations come to, as whole runs.

  lemma {:induction false} RunsThen(c: Cache, xs: seq<Step>, m: Cache, ys: seq<Step>, t: Cache)
    requires Runs(c, xs, m) && Runs(m, ys, t)
    ensures Runs(c, xs + ys, t)
    decreases |xs|
  {
    if xs == [] {
      assert xs + ys == ys;
    } else {
      RunsThen(Apply(c, xs[0]), xs[1..], m, ys, t);
      assert (xs + ys)[1..] == xs[1..] + ys && (xs + ys)[0] == xs[0];
    }
  }

  lemma RunsOne(c: Cache, step: Step) returns (t: Cache)
    requires Inv(c) && Allowed(c, step)
    ensures Ready(c) && t == Apply(c, step) && Inv(t) && Runs(c, [step], t)
  {
    StepKeeps(c, step);
    t := Apply(c, step);
    assert [step][1..] == [];
  }

  /** Process `p` has buffer `b` locked, and it is valid and of block `key`. */
  predicate Holds(c: Cache, p: nat, b: nat, key: Key) {
    p != 0 && b < |c.bufs| && b < |c.users| && c.bufs[b].holder == p && c.bufs[b].key == key && c.bufs[b].valid && p in c.users[b]
  }

  /** The same but for the buffers and their users. */
  predicate SameBlocks(c: Cache, t: Cache) {
    t.disk == c.disk && t.view == c.view && t.pins == c.pins && |t.bufs| == |c.bufs|
  }

  lemma Looked(c: Cache, p: nat, key: Key, b: nat) returns (t: Cache)
    requires Inv(c) && Allowed(c, Lookup(p, key)) && Get(c, p, key).1 == b && c.bufs[b].holder == 0
    ensures Inv(t) && Runs(c, [Lookup(p, key)], t) && SameBlocks(c, t) && b < |c.bufs| && b < |c.users|
    ensures t.users == c.users[b := c.users[b] + multiset{p}] && t.bufs[b].key == key && t.bufs[b].holder == 0
  {
    t := RunsOne(c, Lookup(p, key));
  }

  lemma Locked(c: Cache, p: nat, b: nat) returns (t: Cache)
    requires Inv(c) && b < |c.bufs| && b < |c.users| && p in c.users[b] && c.bufs[b].holder == 0
    ensures Inv(t) && Runs(c, [Lock(p, b)], t) && SameBlocks(c, t) && t.users == c.users && t.bufs == c.bufs[b := c.bufs[b].(holder := p)]
  {
    t := RunsOne(c, Lock(p, b));
  }

  /** bget, where the buffer that is chosen is not locked. */
  lemma Gets(c: Cache, p: nat, key: Key, b: nat) returns (t: Cache)
    requires Inv(c) && Allowed(c, Lookup(p, key)) && Get(c, p, key).1 == b && c.bufs[b].holder == 0
    ensures Inv(t) && Runs(c, [Lookup(p, key)] + [Lock(p, b)], t) && SameBlocks(c, t) && b < |c.bufs| && b < |c.users|
    ensures t.users == c.users[b := c.users[b] + multiset{p}] && t.bufs[b].key == key && t.bufs[b].holder == p
  {
    var m := Looked(c, p, key, b);
    t := Locked(m, p, b);
    RunsThen(c, [Lookup(p, key)], m, [Lock(p, b)], t);
  }

  lemma Filled(c: Cache, p: nat, b: nat, key: Key) returns (t: Cache)
    requires Inv(c) && p != 0 && b < |c.bufs| && b < |c.users| && c.bufs[b].holder == p && c.bufs[b].key == key && p in c.users[b] && !c.bufs[b].valid
    ensures Inv(t) && Runs(c, [Fill(p, b)], t) && SameBlocks(c, t) && t.users == c.users && Holds(t, p, b, key)
  {
    t := RunsOne(c, Fill(p, b));
  }

  lemma HeldLatest(c: Cache, p: nat, b: nat, key: Key)
    requires Inv(c) && Holds(c, p, b, key)
    ensures key in c.view && key in c.disk && c.bufs[b].data == c.view[key] && b < |c.pins| && c.bufs[b].refcnt == |c.users[b]| + c.pins[b]
  {
  }

  /** bread gives a locked buffer with the latest contents of the block, those of the disk if no buffer has it. */
  lemma Bread(c: Cache, p: nat, key: Key, b: nat) returns (steps: seq<Step>, t: Cache)
    requires Inv(c) && Allowed(c, Lookup(p, key)) && Get(c, p, key).1 == b && c.bufs[b].holder == 0
    ensures Inv(t) && Runs(c, steps, t) && SameBlocks(c, t) && b < |c.users| && Holds(t, p, b, key)
    ensures t.users == c.users[b := c.users[b] + multiset{p}] && key in c.view && t.bufs[b].data == c.view[key]
    ensures key in c.disk && ((forall a :: !Caches(c, a, key)) ==> c.view[key] == c.disk[key])
  {
    t := Gets(c, p, key, b);
    steps := [Lookup(p, key)] + [Lock(p, b)];
    if !t.bufs[b].valid {
      var m := t;
      t := Filled(m, p, b, key);
      RunsThen(c, steps, m, [Fill(p, b)], t);
      steps := steps + [Fill(p, b)];
    }
    HeldLatest(t, p, b, key);
  }

  /** A change to the buffer is the latest contents from then on. */
  lemma Modified(c: Cache, p: nat, b: nat, key: Key, data: Block) returns (t: Cache)
    requires Inv(c) && Holds(c, p, b, key)
    ensures Inv(t) && Runs(c, [Modify(p, b, data)], t) && Holds(t, p, b, key) && t.bufs[b].data == data
    ensures t.view == c.view[key := data] && t.disk == c.disk && t.pins == c.pins && t.users == c.users && |t.bufs| == |c.bufs|
  {
    t := RunsOne(c, Modify(p, b, data));
  }

  /** bwrite puts the block's latest contents on the disk, and touches nothing else. */
  lemma Bwrite(c: Cache, p: nat, b: nat, key: Key) returns (t: Cache)
    requires Inv(c) && Holds(c, p, b, key)
    ensures Inv(t) && Runs(c, [Write(p, b)], t) && key in c.view && t == c.(disk := c.disk[key := c.view[key]])
  {
    t := RunsOne(c, Write(p, b));
  }

  lemma Unlocked(c: Cache, p: nat, b: nat, key: Key) returns (t: Cache)
    requires Inv(c) && Holds(c, p, b, key)
    ensures Inv(t) && Runs(c, [Unlock(p, b)], t) && SameBlocks(c, t) && t.users == c.users && t.bufs == c.bufs[b := c.bufs[b].(holder := 0)]
  {
    t := RunsOne(c, Unlock(p, b));
  }

  lemma Unreferred(c: Cache, p: nat, b: nat) returns (t: Cache)
    requires Inv(c) && p != 0 && b < |c.bufs| && b < |c.users| && p in c.users[b] && c.bufs[b].holder == 0 && (c.bufs[b].refcnt == 1 ==> Clean(c, b))
    ensures Inv(t) && Runs(c, [Unref(p, b)], t) && SameBlocks(c, t) && t.users == c.users[b := c.users[b] - multiset{p}]
    ensures c.bufs[b].refcnt > 0 && t.bufs == c.bufs[b := c.bufs[b].(refcnt := c.bufs[b].refcnt - 1)]
  {
    t := RunsOne(c, Unref(p, b));
  }

  /** brelse, when the disk is up to date or somebody else keeps the buffer. */
  lemma Brelsed(c: Cache, p: nat, b: nat, key: Key) returns (t: Cache)
    requires Inv(c) && Holds(c, p, b, key) && (c.bufs[b].refcnt == 1 ==> Clean(c, b))
    ensures Inv(t) && Runs(c, [Unlock(p, b)] + [Unref(p, b)], t) && SameBlocks(c, t) && t.users == c.users[b := c.users[b] - multiset{p}]
    ensures c.bufs[b].refcnt > 0 && t.bufs == c.bufs[b := c.bufs[b].(holder := 0, refcnt := c.bufs[b].refcnt - 1)]
  {
    var m := Unlocked(c, p, b, key);
    t := Unreferred(m, p, b);
    RunsThen(c, [Unlock(p, b)], m, [Unref(p, b)], t);
  }

  lemma Released(c: Cache, p: nat, b: nat, key: Key) returns (t: Cache)
    requires Inv(c) && Holds(c, p, b, key) && key in c.disk && key in c.view && c.disk[key] == c.view[key]
    ensures Inv(t) && Runs(c, [Unlock(p, b)] + [Unref(p, b)], t) && SameBlocks(c, t) && t.users == c.users[b := c.users[b] - multiset{p}]
    ensures c.bufs[b].refcnt > 0 && t.bufs == c.bufs[b := c.bufs[b].(holder := 0, refcnt := c.bufs[b].refcnt - 1)]
  {
    HeldLatest(c, p, b, key);
    t := Brelsed(c, p, b, key);
  }

  /** bread and a change. */
  lemma ReadModify(c: Cache, p: nat, key: Key, b: nat, data: Block) returns (steps: seq<Step>, t: Cache)
    requires Inv(c) && Allowed(c, Lookup(p, key)) && Get(c, p, key).1 == b && c.bufs[b].holder == 0
    ensures Inv(t) && Runs(c, steps, t) && Holds(t, p, b, key) && t.disk == c.disk && t.view == c.view[key := data] && key in c.disk
    ensures t.pins == c.pins && b < |c.users| && t.users == c.users[b := c.users[b] + multiset{p}] && |t.bufs| == |c.bufs|
  {
    var xs, m := Bread(c, p, key, b);
    t := Modified(m, p, b, key, data);
    RunsThen(c, xs, m, [Modify(p, b, data)], t);
    steps := xs + [Modify(p, b, data)];
  }

  /** bwrite and brelse. */
  lemma WriteRelease(c: Cache, p: nat, b: nat, key: Key) returns (steps: seq<Step>, t: Cache)
    requires Inv(c) && Holds(c, p, b, key)
    ensures Inv(t) && Runs(c, steps, t) && key in c.view && t.disk == c.disk[key := c.view[key]] && t.view == c.view
    ensures t.pins == c.pins && t.users == c.users[b := c.users[b] - multiset{p}] && |t.bufs| == |c.bufs|
    ensures c.bufs[b].refcnt > 0 && t.bufs == c.bufs[b := c.bufs[b].(holder := 0, refcnt := c.bufs[b].refcnt - 1)]
  {
    var m := Bwrite(c, p, b, key);
    t := Released(m, p, b, key);
    RunsThen(c, [Write(p, b)], m, [Unlock(p, b)] + [Unref(p, b)], t);
    steps := [Write(p, b)] + ([Unlock(p, b)] + [Unref(p, b)]);
  }

  /** bread, a change, bwrite and brelse: a run that puts `data` on the disk and leaves everything else as it was. */
  lemma ReadModifyWrite(c: Cache, p: nat, key: Key, b: nat, data: Block) returns (steps: seq<Step>, t: Cache)
    requires Inv(c) && Allowed(c, Lookup(p, key)) && Get(c, p, key).1 == b && c.bufs[b].holder == 0
    ensures Inv(t) && Runs(c, steps, t) && t.disk == c.disk[key := data] && t.view == c.view[key := data]
    ensures t.pins == c.pins && t.users == c.users && |t.bufs| == |c.bufs|
  {
    var xs, m := ReadModify(c, p, key, b, data);
    var ys, e := WriteRelease(m, p, b, key);
    RunsThen(c, xs, m, ys, e);
    steps, t := xs + ys, e;
    SameUsers(c.users, b, p);
  }

  /** The buffer that a lookup gets is not locked, when no buffer has the block and some buffer is not referred to. */
  lemma FreeIsUnlocked(c: Cache, p: nat, key: Key, a: nat)
    requires Inv(c) && Allowed(c, Lookup(p, key)) && a < |c.bufs| && c.bufs[a].refcnt == 0
    requires forall b :: 0 <= b < |c.bufs| ==> c.bufs[b].key != key
    ensures 0 <= Get(c, p, key).1 < |c.bufs| && c.bufs[Get(c, p, key).1].holder == 0
  {
    GetChooses(c, p, key);
  }

  /** brelse of the last reference makes the buffer the most recently used: bget recycles it only if there is no other. */
  lemma ReleasedLast(c: Cache, p: nat, b: nat, q: nat, key: Key, a: nat)
    requires Inv(c) && Allowed(c, Unref(p, b)) && c.bufs[b].refcnt == 1 && a < |c.bufs| && a != b && c.bufs[a].refcnt == 0
    requires key.dev != 0 && forall i :: 0 <= i < |c.bufs| ==> c.bufs[i].key != key
    ensures var t := Apply(c, Unref(p, b)); Shape(t) && Get(t, q, key).1 >= 0 && Get(t, q, key).1 != b
  {
    StepKeeps(c, Unref(p, b));
    GetChooses(Apply(c, Unref(p, b)), q, key);
  }

  // Buffers that the log has pinned.

  lemma PinLookup(c: Cache, p: nat, key: Key, b: nat)
    requires Inv(c) && Allowed(c, Lookup(p, key)) && b < |c.bufs| && c.bufs[b].refcnt > 0
    ensures var t := Get(c, p, key).0;
            |t.bufs| == |c.bufs| && t.pins == c.pins && t.bufs[b].valid == c.bufs[b].valid && t.bufs[b].key == c.bufs[b].key
  {
  }

  lemma PinStep(c: Cache, step: Step, b: nat)
    requires Inv(c) && Allowed(c, step) && b < |c.bufs| && c.pins[b] > 0 && step != Unpin(b) && c.bufs[b].valid
    ensures Ready(c)
    ensures var t := Apply(c, step); |t.bufs| == |t.pins| == |c.bufs| && t.pins[b] >= c.pins[b] && t.bufs[b].valid && t.bufs[b].key == c.bufs[b].key
  {
    assert c.bufs[b].refcnt > 0;
    if step.Lookup? {
      PinLookup(c, step.p, step.key, b);
    }
  }

  /** A pinned buffer stays in the cache with the latest contents of its block, whatever processes do, until it is unpinned. */
  lemma {:induction false} PinnedStays(c: Cache, steps: seq<Step>, t: Cache, b: nat)
    requires Inv(c) && Runs(c, steps, t) && b < |c.bufs| && b < |c.pins| && c.pins[b] > 0 && c.bufs[b].valid && Unpin(b) !in steps
    ensures Inv(t) && |t.bufs| == |t.pins| == |c.bufs| && t.pins[b] >= c.pins[b]
    ensures Caches(t, b, c.bufs[b].key) && c.bufs[b].key in t.view && t.bufs[b].data == t.view[c.bufs[b].key]
    decreases |steps|
  {
    if steps != [] {
      StepKeeps(c, steps[0]);
      PinStep(c, steps[0], b);
      PinnedStays(Apply(c, steps[0]), steps[1..], t, b);
    }
  }

  lemma Pinned(c: Cache, p: nat, b: nat, key: Key) returns (t: Cache)
    requires Inv(c) && Holds(c, p, b, key) && b < |c.pins|
    ensures Inv(t) && Runs(c, [Pin(p, b)], t) && Holds(t, p, b, key) && t.disk == c.disk && t.view == c.view && t.users == c.users
    ensures t.pins == c.pins[b := c.pins[b] + 1] && t.bufs == c.bufs[b := c.bufs[b].(refcnt := c.bufs[b].refcnt + 1)] && c.bufs[b].refcnt > 0
  {
    t := RunsOne(c, Pin(p, b));
  }

  lemma Unpinned(c: Cache, b: nat, key: Key) returns (t: Cache)
    requires Inv(c) && b < |c.pins| && c.pins[b] > 0 && Caches(c, b, key) && key in c.disk && key in c.view && c.disk[key] == c.view[key]
    ensures Inv(t) && Runs(c, [Unpin(b)], t) && t.disk == c.disk && t.view == c.view && t.users == c.users && t.pins == c.pins[b := c.pins[b] - 1]
  {
    t := RunsOne(c, Unpin(b));
  }

  /** bpin and brelse. */
  lemma PinRelease(c: Cache, p: nat, b: nat, key: Key) returns (steps: seq<Step>, t: Cache)
    requires Inv(c) && Holds(c, p, b, key) && b < |c.pins|
    ensures Inv(t) && Runs(c, steps, t) && t.disk == c.disk && t.view == c.view && t.users == c.users[b := c.users[b] - multiset{p}]
    ensures t.pins == c.pins[b := c.pins[b] + 1] && t.bufs == c.bufs[b := c.bufs[b].(holder := 0)]
  {
    var n := Pinned(c, p, b, key);
    t := Brelsed(n, p, b, key);
    RunsThen(c, [Pin(p, b)], n, [Unlock(p, b)] + [Unref(p, b)], t);
    steps := [Pin(p, b)] + ([Unlock(p, b)] + [Unref(p, b)]);
  }

  /** Taking a reference and dropping it. */
  lemma SameUsers(users: seq<multiset<nat>>, b: nat, p: nat)
    requires b < |users|
    ensures users[b := users[b] + multiset{p}][b := users[b] + multiset{p} - multiset{p}] == users
  {
    assert users[b] + multiset{p} - multiset{p} == users[b];
  }

  /** The same after a run that took the buffer. */
  lemma PinTaken(c: Cache, xs: seq<Step>, m: Cache, p: nat, b: nat, key: Key) returns (steps: seq<Step>, t: Cache)
    requires Runs(c, xs, m) && Inv(m) && Holds(m, p, b, key) && b < |m.pins|
    requires b < |c.users| && m.users == c.users[b := c.users[b] + multiset{p}]
    ensures Inv(t) && Runs(c, steps, t) && t.disk == m.disk && t.view == m.view && t.users == c.users && Caches(t, b, key)
    ensures t.pins == m.pins[b := m.pins[b] + 1] && |t.bufs| == |m.bufs| && t.bufs[b].holder == 0
  {
    var ys, e := PinRelease(m, p, b, key);
    RunsThen(c, xs, m, ys, e);
    SameUsers(c.users, b, p);
    steps, t := xs + ys, e;
  }

  /** log_write's part: a change that is only pinned, not written, survives the last brelse. */
  lemma ModifyPin(c: Cache, p: nat, key: Key, b: nat, data: Block) returns (steps: seq<Step>, t: Cache)
    requires Inv(c) && Allowed(c, Lookup(p, key)) && Get(c, p, key).1 == b && c.bufs[b].holder == 0
    ensures Inv(t) && Runs(c, steps, t) && t.disk == c.disk && t.view == c.view[key := data] && t.users == c.users && Caches(t, b, key)
    ensures b < |c.pins| && t.pins == c.pins[b := c.pins[b] + 1] && |t.bufs| == |c.bufs| && t.bufs[b].holder == 0
  {
    var xs, m := ReadModify(c, p, key, b, data);
    steps, t := PinTaken(c, xs, m, p, b, key);
  }

  /** install_trans's part: written to the disk, the block may be unpinned, and the cache is as if it had been written at once. */
  lemma WriteUnpin(c: Cache, p: nat, key: Key, b: nat) returns (steps: seq<Step>, t: Cache)
    requires Inv(c) && Allowed(c, Lookup(p, key)) && Get(c, p, key).1 == b && c.bufs[b].holder == 0 && b < |c.pins| && c.pins[b] > 0
    ensures Inv(t) && Runs(c, steps, t) && key in c.view && t.disk == c.disk[key := c.view[key]] && t.view == c.view && t.users == c.users
    ensures t.pins == c.pins[b := c.pins[b] - 1]
  {
    var xs, c1 := Bread(c, p, key, b);
    var ys, c2 := WriteRelease(c1, p, b, key);
    var c3 := Unpinned(c2, b, key);
    RunsThen(c, xs, c1, ys, c2);
    RunsThen(c, xs + ys, c2, [Unpin(b)], c3);
    steps, t := xs + ys + [Unpin(b)], c3;
    SameUsers(c.users, b, p);
  }

  // The code.

  class BufferCache {
    const list: List
    var bufs: seq<Buf>

    ghost predicate Valid()
      reads this, list, list.next, list.prev
    {
      list.Valid() && |bufs| == list.n
    }

    /** binit. */
    constructor (n: nat, junk: Block)
      ensures Valid() && bufs == Init(n, map[], junk).bufs && list.order == Init(n, map[], junk).order
      ensures fresh(list) && fresh(list.next) && fresh(list.prev)
    {
      list := new List(n);
      bufs := seq(n, _ => Buf(Key(0, 0), false, 0, 0, junk));
    }

    /** bget up to the release of the cache lock. */
    method Bget(key: Key) returns (b: int)
      requires Valid()
      modifies this`bufs
      ensures Valid() && (bufs, b) == GetBufs(old(bufs), list.order, key)
    {
      ghost var order := list.order;
      ghost var i := 0;
      b := list.next[list.n];
      assert Link(list.next[..], list.prev[..], Before(list.n, order, 0), After(list.n, order, 0));
      while b != list.n
        invariant 0 <= i <= |order| && b == After(list.n, order, i)
        invariant FindCached(bufs, order, key, 0) == FindCached(bufs, order, key, i)
        decreases |order| - i
      {
        if bufs[b].key == key {
          bufs := bufs[b := bufs[b].(refcnt := bufs[b].refcnt + 1)];
          return;
        }
        assert Link(list.next[..], list.prev[..], Before(list.n, order, i + 1), After(list.n, order, i + 1));
        b := list.next[b];
        i := i + 1;
      }
      assert i == |order|;
      b := list.prev[list.n];
      assert Link(list.next[..], list.prev[..], Before(list.n, order, i), After(list.n, order, i));
      while b != list.n
        invariant 0 <= i <= |order| && b == Before(list.n, order, i)
        invariant FindVictim(bufs, order, |order|) == FindVictim(bufs, order, i)
        decreases i
      {
        if bufs[b].refcnt == 0 {
          bufs := bufs[b := bufs[b].(key := key, valid := false, refcnt := 1)];
          return;
        }
        assert Link(list.next[..], list.prev[..], Before(list.n, order, i - 1), After(list.n, order, i - 1));
        b := list.prev[b];
        i := i - 1;
      }
      assert i == 0;
      b := -1;
    }

    /** brelse under the cache lock; `k` is the buffer's place in the list. */
    method Brelse(b: nat, ghost k: nat)
      requires Valid() && b < |bufs| && bufs[b].refcnt > 0 && k < |list.order| && list.order[k] == b
      modifies this`bufs, list`order, list.next, list.prev
      ensures Valid() && bufs == old(bufs)[b := old(bufs)[b].(refcnt := old(bufs)[b].refcnt - 1)]
      ensures list.order == if bufs[b].refcnt == 0 then ToFront(old(list.order), k) else old(list.order)
    {
      bufs := bufs[b := bufs[b].(refcnt := bufs[b].refcnt - 1)];
      if bufs[b].refcnt == 0 {
        list.MoveToFront(b, k);
      }
    }
  }
}
