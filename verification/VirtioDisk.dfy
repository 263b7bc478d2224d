/** Requests to the virtio disk, kernel/virtio_disk.c, in every interleaving of processes, the
    interrupt handler and a device that takes and completes requests in any order it likes. What
    happens under vdisk_lock between two sleeps is one step. */
module VirtioDisk {
  import opened Finite
  import opened Virtio

  const NONE: int := -1

  /** A uint16. */
  function Uint16(x: int): (r: int) {
    x % 0x1_0000
  }

  datatype Pc =
    | Idle
    | Wanting(b: nat, blockno: nat, write: bool, asleep: bool)             // needs three descriptors
    | Busy(b: nat, blockno: nat, write: bool, i0: nat, i1: nat, i2: nat)   // waits for b->disk to be 0

  /** The header of a request: the direction and the first sector of 512 bytes. */
  datatype Op = Op(write: bool, sector: nat)

  /** How far the request whose chain starts at a descriptor has come. */
  datatype Stage = Unused | Queued(k: int) | Working | Reported(k: int) | Done

  /** `buf`, `status` and `ops` are info and ops, indexed by the first descriptor of a chain;
      `disk` is b->disk of every buffer; `seen` is the driver's used_idx. The rest says what
      these mean: `owner` of a descriptor is the process whose chain it is in; `submitted` and
      `completed` are all requests ever made available and reported, by first descriptor, of
      which the device has fetched and the handler has handled the first so many. */
  datatype State = State(
    free: seq<bool>, desc: seq<Desc>, buf: seq<int>, status: seq<int>, ops: seq<Op>,
    availRing: seq<int>, availIdx: int, usedRing: seq<int>, usedIdx: int, seen: int,
    disk: seq<bool>, procs: seq<Pc>,
    owner: seq<int>, stage: seq<Stage>, submitted: seq<int>, fetched: nat, completed: seq<int>, handled: nat)

  datatype Step =
    | Start(p: nat, b: nat, blockno: nat, write: bool)   // the caller holds b->lock, so nobody else uses b
    | Try(p: nat)          // alloc3_desc, and then the request or sleep
    | Fetch                // the device takes the next available request
    | Complete(id: nat)    // and reports one as done
    | Intr                 // one round of the loop in virtio_disk_intr
    | End(p: nat)          // b->disk is 0: free the chain

  datatype Outcome = Next(s: State) | Blocked | Panic

  predicate Shape(s: State) {
    && |s.free| == |s.desc| == |s.buf| == |s.status| == |s.ops| == |s.owner| == |s.stage| == NUM
    && |s.availRing| == |s.usedRing| == NUM && 0 <= s.availIdx && 0 <= s.usedIdx && 0 <= s.seen
  }

  /** The first free descriptor, or NUM. */
  function First(free: seq<bool>, i: nat): (r: nat)
    requires i <= |free|
    ensures i <= r <= |free| && (r < |free| ==> free[r]) && forall k :: i <= k < r ==> !free[k]
    decreases |free| - i
  {
    if i == |free| || free[i] then i else First(free, i + 1)
  }

  predicate Uses(pc: Pc, b: int) {
    !pc.Idle? && pc.b == b
  }

  function Wake(pc: Pc): (r: Pc) {
    if pc.Wanting? then Wanting(pc.b, pc.blockno, pc.write, false) else pc
  }

  function WakeAll(procs: seq<Pc>): (r: seq<Pc>)
    ensures |r| == |procs|
  {
    seq(|procs|, i requires 0 <= i < |procs| => Wake(procs[i]))
  }

  /** Formats the three descriptors and makes the request available. */
  function Submit(s: State, p: nat, i0: nat, i1: nat, i2: nat): (t: State)
    requires Shape(s) && p < |s.procs| && s.procs[p].Wanting? && s.procs[p].b < |s.disk| && i0 < NUM && i1 < NUM && i2 < NUM
  {
    var x := s.procs[p];
    s.(free := s.free[i0 := false][i1 := false][i2 := false],
       desc := s.desc[i0 := Desc(Header(i0), 16, F_NEXT, i1)]
                     [i1 := Desc(Data(x.b), 1024, (if x.write then 0 else F_WRITE) + F_NEXT, i2)]
                     [i2 := Desc(Status(i0), 1, F_WRITE, 0)],
       buf := s.buf[i0 := x.b], status := s.status[i0 := 0xff], ops := s.ops[i0 := Op(x.write, 2 * x.blockno)],
       availRing := s.availRing[s.availIdx % 8 := i0], availIdx := Uint16(s.availIdx + 1),
       disk := s.disk[x.b := true], procs := s.procs[p := Busy(x.b, x.blockno, x.write, i0, i1, i2)],
       owner := s.owner[i0 := p][i1 := p][i2 := p], stage := s.stage[i0 := Queued(|s.submitted|)],
       submitted := s.submitted + [i0])
  }

  function Finish(s: State, p: nat): (t: State)
    requires Shape(s) && p < |s.procs| && s.procs[p].Busy? && s.procs[p].i0 < NUM && s.procs[p].i1 < NUM && s.procs[p].i2 < NUM
  {
    var x := s.procs[p];
    s.(free := s.free[x.i0 := true][x.i1 := true][x.i2 := true],
       desc := s.desc[x.i0 := ZERO][x.i1 := ZERO][x.i2 := ZERO], buf := s.buf[x.i0 := NONE],
       procs := WakeAll(s.procs)[p := Idle],
       owner := s.owner[x.i0 := NONE][x.i1 := NONE][x.i2 := NONE], stage := s.stage[x.i0 := Unused])
  }

  function Apply(s: State, step: Step): (r: Outcome)
    requires Shape(s)
  {
    match step
    case Start(p, b, blockno, write) =>
      if p < |s.procs| && s.procs[p] == Idle && b < |s.disk| && (forall q :: 0 <= q < |s.procs| ==> !Uses(s.procs[q], b)) then
        Next(s.(procs := s.procs[p := Wanting(b, blockno, write, false)]))
      else Blocked
    case Try(p) =>
      if !(p < |s.procs| && s.procs[p].Wanting? && !s.procs[p].asleep && s.procs[p].b < |s.disk|) then Blocked
      else
        var i0 := First(s.free, 0);
        var i1 := if i0 < NUM then First(s.free, i0 + 1) else NUM;
        var i2 := if i1 < NUM then First(s.free, i1 + 1) else NUM;
        if i2 < NUM then Next(Submit(s, p, i0, i1, i2))
        else Next(s.(procs := s.procs[p := Wanting(s.procs[p].b, s.procs[p].blockno, s.procs[p].write, true)]))
    case Fetch =>
      if s.availIdx == Uint16(s.fetched) then Blocked
      else
        var id := s.availRing[s.fetched % 8];
        if 0 <= id < NUM then Next(s.(fetched := s.fetched + 1, stage := s.stage[id := Working])) else Blocked
    case Complete(id) =>
      if id < NUM && s.stage[id] == Working then
        Next(s.(usedRing := s.usedRing[s.usedIdx % 8 := id], usedIdx := Uint16(s.usedIdx + 1), status := s.status[id := 0],
                stage := s.stage[id := Reported(|s.completed|)], completed := s.completed + [id]))
      else Blocked
    case Intr =>
      if s.seen == s.usedIdx then Blocked
      else
        var id := s.usedRing[s.seen % 8];
        if !(0 <= id < NUM && s.status[id] == 0 && 0 <= s.buf[id] < |s.disk|) then Panic
        else Next(s.(disk := s.disk[s.buf[id] := false], seen := Uint16(s.seen + 1), handled := s.handled + 1, stage := s.stage[id := Done]))
    case End(p) =>
      if p < |s.procs| && s.procs[p].Busy? && s.procs[p].b < |s.disk| && !s.disk[s.procs[p].b]
         && s.procs[p].i0 < NUM && s.procs[p].i1 < NUM && s.procs[p].i2 < NUM
      then Next(Finish(s, p))
      else Blocked
  }

  // The invariant.

  /** The request of process `p`: three descriptors of its own that say what it wants. */
  predicate BusyOk(s: State, p: nat)
    requires Shape(s) && p < |s.procs|
  {
    var x := s.procs[p];
    && (!x.Idle? ==> x.b < |s.disk|)
    && (x.Busy? ==>
          && x.i0 < NUM && x.i1 < NUM && x.i2 < NUM && x.i0 != x.i1 && x.i1 != x.i2 && x.i0 != x.i2
          && s.owner[x.i0] == p && s.owner[x.i1] == p && s.owner[x.i2] == p
          && s.desc[x.i0] == Desc(Header(x.i0), 16, F_NEXT, x.i1)
          && s.desc[x.i1] == Desc(Data(x.b), 1024, (if x.write then 0 else F_WRITE) + F_NEXT, x.i2)
          && s.desc[x.i2] == Desc(Status(x.i0), 1, F_WRITE, 0)
          && s.buf[x.i0] == x.b && s.ops[x.i0] == Op(x.write, 2 * x.blockno)
          && s.stage[x.i0] != Unused && s.disk[x.b] == (s.stage[x.i0] != Done))
    && (x.Wanting? && x.asleep ==> FewFree(s))
  }

  /** Fewer than three descriptors are free. */
  predicate FewFree(s: State)
    requires |s.free| == NUM
  {
    var i0 := First(s.free, 0);
    i0 == NUM || (var i1 := First(s.free, i0 + 1); i1 == NUM || First(s.free, i1 + 1) == NUM)
  }

  /** Descriptor `i` is free or in the chain of its owner. */
  predicate DescOk(s: State, i: nat)
    requires Shape(s) && i < NUM
  {
    && (s.free[i] <==> s.owner[i] == NONE)
    && (s.free[i] ==> s.desc[i] == ZERO && s.stage[i] == Unused)
    && (s.owner[i] != NONE ==>
          && 0 <= s.owner[i] < |s.procs| && s.procs[s.owner[i]].Busy?
          && var x := s.procs[s.owner[i]];
          && (i == x.i0 || i == x.i1 || i == x.i2)
          && (s.stage[i] != Unused ==> i == x.i0))
    && (s.stage[i].Reported? ==> s.status[i] == 0 && s.handled <= s.stage[i].k < |s.completed| && s.completed[s.stage[i].k] == i)
    && (s.stage[i].Queued? ==> s.fetched <= s.stage[i].k < |s.submitted| && s.submitted[s.stage[i].k] == i)
  }

  /** Request number `k` is in the avail ring until the device fetches it. */
  predicate QueuedOk(s: State, k: int)
    requires Shape(s) && 0 <= k < |s.submitted|
  {
    0 <= s.submitted[k] < NUM && s.stage[s.submitted[k]] == Queued(k) && s.availRing[k % 8] == s.submitted[k]
  }

  predicate ReportedOk(s: State, k: int)
    requires Shape(s) && 0 <= k < |s.completed|
  {
    0 <= s.completed[k] < NUM && s.stage[s.completed[k]] == Reported(k) && s.usedRing[k % 8] == s.completed[k]
  }

  predicate Apart(s: State, p: nat, q: nat)
    requires p < |s.procs| && q < |s.procs|
  {
    p != q && !s.procs[p].Idle? && !s.procs[q].Idle? ==> s.procs[p].b != s.procs[q].b
  }

  ghost predicate Inv(s: State) {
    && Shape(s) && s.fetched <= |s.submitted| && s.handled <= |s.completed|
    && s.availIdx == Uint16(|s.submitted|) && s.usedIdx == Uint16(|s.completed|) && s.seen == Uint16(s.handled)
    && (forall p :: 0 <= p < |s.procs| ==> BusyOk(s, p))
    && (forall i :: 0 <= i < NUM ==> DescOk(s, i))
    && (forall k :: s.fetched <= k < |s.submitted| ==> QueuedOk(s, k))
    && (forall k :: s.handled <= k < |s.completed| ==> ReportedOk(s, k))
    && (forall p, q :: 0 <= p < |s.procs| && 0 <= q < |s.procs| ==> Apart(s, p, q))
  }

  /** A ring of NUM entries is long enough for what is outstanding. */
  lemma QueueFits(s: State)
    requires Inv(s)
    ensures |s.submitted| - s.fetched <= NUM
  {
    var a := s.submitted[s.fetched..];
    forall i | 0 <= i < |a| ensures 0 <= a[i] < NUM {
      assert QueuedOk(s, s.fetched + i);
    }
    forall i, j | 0 <= i < j < |a| ensures a[i] != a[j] {
      assert QueuedOk(s, s.fetched + i) && QueuedOk(s, s.fetched + j);
    }
    FewIds(a);
  }

  lemma ReportsFit(s: State)
    requires Inv(s)
    ensures |s.completed| - s.handled <= NUM
  {
    var a := s.completed[s.handled..];
    forall i | 0 <= i < |a| ensures 0 <= a[i] < NUM {
      assert ReportedOk(s, s.handled + i);
    }
    forall i, j | 0 <= i < j < |a| ensures a[i] != a[j] {
      assert ReportedOk(s, s.handled + i) && ReportedOk(s, s.handled + j);
    }
    FewIds(a);
  }

  lemma FewIds(ids: seq<int>)
    requires Distinct(ids) && forall i :: 0 <= i < |ids| ==> 0 <= ids[i] < NUM
    ensures |ids| <= NUM
  {
    DistinctSize(ids);
    assert Elems(ids) <= {0, 1, 2, 3, 4, 5, 6, 7};
    SubsetSize(Elems(ids), {0, 1, 2, 3, 4, 5, 6, 7});
  }

  lemma SameMod8(x: int, q: int, y: int)
    requires x == 8 * q + y
    ensures x % 8 == y % 8
  {
  }

  lemma NextIndex(x: nat, q: int)
    requires x == 0x1_0000 * q + Uint16(x)
    ensures Uint16(Uint16(x) + 1) == Uint16(x + 1)
  {
  }

  lemma Index16(x: nat)
    ensures Uint16(x) % 8 == x % 8 && Uint16(Uint16(x) + 1) == Uint16(x + 1)
  {
    var q := x / 0x1_0000;
    assert x == 8 * (q * 0x2000) + Uint16(x);
    SameMod8(x, q * 0x2000, Uint16(x));
    NextIndex(x, q);
  }

  lemma SameIndex(done: nat, all: nat)
    requires done <= all <= done + NUM
    ensures Uint16(done) == Uint16(all) <==> done == all
  {
  }

  /** So the 16-bit indices tell whether there is anything to do, however often they have wrapped. */
  lemma Indices(done: nat, all: nat)
    requires done <= all <= done + NUM
    ensures Uint16(done) == Uint16(all) <==> done == all
    ensures Uint16(all) % 8 == all % 8 && Uint16(done) % 8 == done % 8 && Uint16(Uint16(all) + 1) == Uint16(all + 1)
    ensures Uint16(Uint16(done) + 1) == Uint16(done + 1)
  {
    SameIndex(done, all);
    Index16(done);
    Index16(all);
  }

  lemma OtherSlot(i: nat, j: nat)
    requires i < j < i + 8
    ensures i % 8 != j % 8
  {
  }

  // Every step keeps it.

  lemma StartKeeps(s: State, step: Step)
    requires Inv(s) && step.Start? && Apply(s, step).Next?
    ensures Inv(Apply(s, step).s)
  {
    var t := Apply(s, step).s;
    forall q | 0 <= q < |t.procs| ensures BusyOk(t, q) {
      assert BusyOk(s, q);
    }
    forall i | 0 <= i < NUM ensures DescOk(t, i) {
      assert DescOk(s, i);
    }
    forall k | t.fetched <= k < |t.submitted| ensures QueuedOk(t, k) {
      assert QueuedOk(s, k);
    }
    forall k | t.handled <= k < |t.completed| ensures ReportedOk(t, k) {
      assert ReportedOk(s, k);
    }
    forall p, q | 0 <= p < |t.procs| && 0 <= q < |t.procs| ensures Apart(t, p, q) {
      assert Apart(s, p, q) && !Uses(s.procs[p], step.b) && !Uses(s.procs[q], step.b);
    }
  }

  lemma FetchKeeps(s: State, step: Step)
    requires Inv(s) && step.Fetch? && Apply(s, step).Next?
    ensures Inv(Apply(s, step).s) && s.fetched < |s.submitted| && s.availRing[s.fetched % 8] == s.submitted[s.fetched]
  {
    var t := Apply(s, step).s;
    QueueFits(s);
    Indices(s.fetched, |s.submitted|);
    assert QueuedOk(s, s.fetched);
    forall q | 0 <= q < |t.procs| ensures BusyOk(t, q) {
      assert BusyOk(s, q);
    }
    forall i | 0 <= i < NUM ensures DescOk(t, i) {
      assert DescOk(s, i);
    }
    forall k | t.fetched <= k < |t.submitted| ensures QueuedOk(t, k) {
      assert QueuedOk(s, k);
    }
    forall k | t.handled <= k < |t.completed| ensures ReportedOk(t, k) {
      assert ReportedOk(s, k);
    }
    forall p, q | 0 <= p < |t.procs| && 0 <= q < |t.procs| ensures Apart(t, p, q) {
      assert Apart(s, p, q);
    }
  }

  lemma CompleteKeeps(s: State, step: Step)
    requires Inv(s) && step.Complete? && Apply(s, step).Next?
    ensures Inv(Apply(s, step).s)
  {
    var t := Apply(s, step).s;
    ReportsFit(s);
    Indices(s.handled, |s.completed|);
    forall q | 0 <= q < |t.procs| ensures BusyOk(t, q) {
      assert BusyOk(s, q);
    }
    forall i | 0 <= i < NUM ensures DescOk(t, i) {
      assert DescOk(s, i);
    }
    forall k | t.fetched <= k < |t.submitted| ensures QueuedOk(t, k) {
      assert QueuedOk(s, k);
    }
    RoomForReport(s, step.id);
    forall k | t.handled <= k < |t.completed| ensures ReportedOk(t, k) {
      if k < |s.completed| {
        assert ReportedOk(s, k);
        OtherSlot(k, |s.completed|);
      }
    }
    forall p, q | 0 <= p < |t.procs| && 0 <= q < |t.procs| ensures Apart(t, p, q) {
      assert Apart(s, p, q);
    }
  }

  /** There is a free entry in the used ring for a request the device is working on. */
  lemma RoomForReport(s: State, id: nat)
    requires Inv(s) && id < NUM && s.stage[id] == Working
    ensures |s.completed| - s.handled < NUM
  {
    var a := s.completed[s.handled..] + [id];
    forall i | 0 <= i < |a| ensures 0 <= a[i] < NUM {
      if i < |a| - 1 { assert ReportedOk(s, s.handled + i); }
    }
    forall i, j | 0 <= i < j < |a| ensures a[i] != a[j] {
      assert ReportedOk(s, s.handled + i);
      if j < |a| - 1 { assert ReportedOk(s, s.handled + j); }
    }
    FewIds(a);
  }

  /** What the handler finds when the indices differ: the next report, of a request whose process
      is still waiting for it. */
  lemma IntrFinds(s: State)
    requires Inv(s) && s.seen != s.usedIdx
    ensures s.handled < |s.completed|
    ensures var id := s.usedRing[s.seen % 8];
      && id == s.completed[s.handled] && 0 <= id < NUM && s.stage[id] == Reported(s.handled) && s.status[id] == 0
      && 0 <= s.owner[id] < |s.procs| && s.procs[s.owner[id]].Busy? && s.procs[s.owner[id]].i0 == id
      && s.buf[id] == s.procs[s.owner[id]].b < |s.disk| && s.disk[s.buf[id]]
  {
    ReportsFit(s);
    Indices(s.handled, |s.completed|);
    assert ReportedOk(s, s.handled);
    var id := s.completed[s.handled];
    assert DescOk(s, id);
    assert BusyOk(s, s.owner[id]);
  }

  lemma IntrKeeps(s: State, step: Step)
    requires Inv(s) && step.Intr? && Apply(s, step).Next?
    ensures Inv(Apply(s, step).s)
  {
    var t := Apply(s, step).s;
    IntrFinds(s);
    ReportsFit(s);
    Indices(s.handled, |s.completed|);
    var id := s.completed[s.handled];
    forall q | 0 <= q < |t.procs| ensures BusyOk(t, q) {
      assert BusyOk(s, q) && BusyOk(s, s.owner[id]) && Apart(s, q, s.owner[id]);
    }
    forall i | 0 <= i < NUM ensures DescOk(t, i) {
      assert DescOk(s, i);
    }
    forall k | t.fetched <= k < |t.submitted| ensures QueuedOk(t, k) {
      assert QueuedOk(s, k);
    }
    forall k | t.handled <= k < |t.completed| ensures ReportedOk(t, k) {
      assert ReportedOk(s, k);
    }
    forall p, q | 0 <= p < |t.procs| && 0 <= q < |t.procs| ensures Apart(t, p, q) {
      assert Apart(s, p, q);
    }
  }

  /** A request finds room in the avail ring. */
  lemma RoomForRequest(s: State, id: nat)
    requires Inv(s) && id < NUM && s.stage[id] == Unused
    ensures |s.submitted| - s.fetched < NUM
  {
    var a := s.submitted[s.fetched..] + [id];
    forall i | 0 <= i < |a| ensures 0 <= a[i] < NUM {
      if i < |a| - 1 { assert QueuedOk(s, s.fetched + i); }
    }
    forall i, j | 0 <= i < j < |a| ensures a[i] != a[j] {
      assert QueuedOk(s, s.fetched + i);
      if j < |a| - 1 { assert QueuedOk(s, s.fetched + j); }
    }
    FewIds(a);
  }

  predicate CanSubmit(s: State, p: nat, i0: nat, i1: nat, i2: nat) {
    && Shape(s) && p < |s.procs| && s.procs[p].Wanting? && s.procs[p].b < |s.disk|
    && i0 < i1 < i2 < NUM && s.free[i0] && s.free[i1] && s.free[i2]
  }

  lemma SubmitBusy(s: State, p: nat, i0: nat, i1: nat, i2: nat, q: nat)
    requires Inv(s) && CanSubmit(s, p, i0, i1, i2) && q < |s.procs| && !s.procs[q].Idle? && (s.procs[q].Wanting? ==> !s.procs[q].asleep || q == p)
    ensures BusyOk(Submit(s, p, i0, i1, i2), q)
  {
    assert BusyOk(s, q) && Apart(s, p, q) && DescOk(s, i0) && DescOk(s, i1) && DescOk(s, i2);
  }

  lemma SubmitDesc(s: State, p: nat, i0: nat, i1: nat, i2: nat, i: nat)
    requires Inv(s) && CanSubmit(s, p, i0, i1, i2) && i < NUM
    ensures DescOk(Submit(s, p, i0, i1, i2), i)
  {
    assert DescOk(s, i) && DescOk(s, i0);
  }

  lemma SubmitQueue(s: State, p: nat, i0: nat, i1: nat, i2: nat, k: nat)
    requires Inv(s) && CanSubmit(s, p, i0, i1, i2) && s.fetched <= k < |s.submitted| + 1
    ensures QueuedOk(Submit(s, p, i0, i1, i2), k)
  {
    assert DescOk(s, i0);
    RoomForRequest(s, i0);
    Indices(s.fetched, |s.submitted|);
    if k < |s.submitted| {
      assert QueuedOk(s, k);
      OtherSlot(k, |s.submitted|);
    }
  }

  lemma NotFew(s: State, i0: nat, i1: nat, i2: nat)
    requires |s.free| == NUM && i0 < i1 < i2 < NUM && s.free[i0] && s.free[i1] && s.free[i2]
    ensures !FewFree(s)
  {
    var j := First(s.free, 0);
    var k := First(s.free, j + 1);
    assert j <= i0 && k <= i1;
  }

  lemma SubmitKeeps(s: State, p: nat, i0: nat, i1: nat, i2: nat)
    requires Inv(s) && CanSubmit(s, p, i0, i1, i2)
    ensures Inv(Submit(s, p, i0, i1, i2))
  {
    var t := Submit(s, p, i0, i1, i2);
    NotFew(s, i0, i1, i2);
    QueueFits(s);
    Indices(s.fetched, |s.submitted|);
    assert DescOk(s, i0);
    forall q | 0 <= q < |t.procs| ensures BusyOk(t, q) {
      assert BusyOk(s, q);
      if !s.procs[q].Idle? {
        SubmitBusy(s, p, i0, i1, i2, q);
      }
    }
    forall i | 0 <= i < NUM ensures DescOk(t, i) {
      SubmitDesc(s, p, i0, i1, i2, i);
    }
    forall k | t.fetched <= k < |t.submitted| ensures QueuedOk(t, k) {
      SubmitQueue(s, p, i0, i1, i2, k);
    }
    forall k | t.handled <= k < |t.completed| ensures ReportedOk(t, k) {
      assert ReportedOk(s, k);
    }
    forall a, q | 0 <= a < |t.procs| && 0 <= q < |t.procs| ensures Apart(t, a, q) {
      assert Apart(s, a, q);
    }
  }

  lemma SleepKeeps(s: State, p: nat)
    requires Inv(s) && p < |s.procs| && s.procs[p].Wanting? && FewFree(s)
    ensures Inv(s.(procs := s.procs[p := Wanting(s.procs[p].b, s.procs[p].blockno, s.procs[p].write, true)]))
  {
    var t := s.(procs := s.procs[p := Wanting(s.procs[p].b, s.procs[p].blockno, s.procs[p].write, true)]);
    forall q | 0 <= q < |t.procs| ensures BusyOk(t, q) {
      assert BusyOk(s, q);
    }
    forall i | 0 <= i < NUM ensures DescOk(t, i) {
      assert DescOk(s, i);
    }
    forall k | t.fetched <= k < |t.submitted| ensures QueuedOk(t, k) {
      assert QueuedOk(s, k);
    }
    forall k | t.handled <= k < |t.completed| ensures ReportedOk(t, k) {
      assert ReportedOk(s, k);
    }
    forall a, q | 0 <= a < |t.procs| && 0 <= q < |t.procs| ensures Apart(t, a, q) {
      assert Apart(s, a, q);
    }
  }

  lemma FinishBusy(s: State, p: nat, q: nat)
    requires Inv(s) && p < |s.procs| && s.procs[p].Busy? && q < |s.procs|
    ensures BusyOk(s, p) && BusyOk(Finish(s, p), q)
  {
    assert BusyOk(s, q) && BusyOk(s, p);
  }

  lemma FinishDesc(s: State, p: nat, i: nat)
    requires Inv(s) && p < |s.procs| && s.procs[p].Busy? && i < NUM
    ensures BusyOk(s, p) && DescOk(Finish(s, p), i)
  {
    assert BusyOk(s, p) && DescOk(s, i);
  }

  lemma FinishKeeps(s: State, p: nat)
    requires Inv(s) && p < |s.procs| && s.procs[p].Busy? && s.procs[p].b < |s.disk| && !s.disk[s.procs[p].b]
    ensures BusyOk(s, p) && Inv(Finish(s, p))
  {
    assert BusyOk(s, p);
    var t := Finish(s, p);
    forall q | 0 <= q < |t.procs| ensures BusyOk(t, q) {
      FinishBusy(s, p, q);
    }
    forall i | 0 <= i < NUM ensures DescOk(t, i) {
      FinishDesc(s, p, i);
    }
    forall k | t.fetched <= k < |t.submitted| ensures QueuedOk(t, k) {
      assert QueuedOk(s, k);
    }
    forall k | t.handled <= k < |t.completed| ensures ReportedOk(t, k) {
      assert ReportedOk(s, k);
    }
    forall a, q | 0 <= a < |t.procs| && 0 <= q < |t.procs| ensures Apart(t, a, q) {
      assert Apart(s, a, q);
    }
  }

  lemma StepKeeps(s: State, step: Step)
    requires Inv(s)
    ensures Apply(s, step) != Panic
    ensures Apply(s, step).Next? ==> Inv(Apply(s, step).s)
  {
    if step.Intr? && s.seen != s.usedIdx {
      IntrFinds(s);
    }
    if Apply(s, step).Next? {
      match step
      case Start(_, _, _, _) => StartKeeps(s, step);
      case Fetch => FetchKeeps(s, step);
      case Complete(_) => CompleteKeeps(s, step);
      case Intr => IntrKeeps(s, step);
      case End(p) => FinishKeeps(s, p);
      case Try(p) =>
        if FewFree(s) {
          SleepKeeps(s, p);
        } else {
          var i0 := First(s.free, 0);
          var i1 := First(s.free, i0 + 1);
          SubmitKeeps(s, p, i0, i1, First(s.free, i1 + 1));
        }
    }
  }

  // Whole runs.

  /** Nothing has been asked of the disk, and all descriptors are free. */
  ghost predicate Fresh(s: State) {
    && Shape(s) && s.availIdx == s.usedIdx == s.seen == s.fetched == s.handled == 0 && s.submitted == s.completed == []
    && (forall i :: 0 <= i < NUM ==> s.free[i] && s.desc[i] == ZERO && s.owner[i] == NONE && s.stage[i] == Unused)
    && (forall p :: 0 <= p < |s.procs| ==> s.procs[p] == Idle)
  }

  ghost function Exec(s: State, steps: seq<Step>): (r: Outcome)
    decreases |steps|
  {
    if steps == [] then Next(s)
    else if !Shape(s) then Blocked
    else
      var r := Apply(s, steps[0]);
      if r.Next? then Exec(r.s, steps[1..]) else r
  }

  lemma {:induction false} RunKeeps(s: State, steps: seq<Step>)
    requires Inv(s)
    ensures Exec(s, steps) != Panic
    ensures Exec(s, steps).Next? ==> Inv(Exec(s, steps).s)
    decreases |steps|
  {
    if steps != [] {
      StepKeeps(s, steps[0]);
      if Apply(s, steps[0]).Next? {
        RunKeeps(Apply(s, steps[0]).s, steps[1..]);
      }
    }
  }

  ghost predicate Reachable(s: State) {
    exists s0, steps :: Fresh(s0) && Exec(s0, steps) == Next(s)
  }

  lemma ReachableInv(s: State)
    requires Reachable(s)
    ensures Inv(s)
  {
    var s0, steps :| Fresh(s0) && Exec(s0, steps) == Next(s);
    FreshInv(s0);
    RunKeeps(s0, steps);
  }

  lemma FreshInv(s: State)
    requires Fresh(s)
    ensures Inv(s)
  {
    assert forall i :: 0 <= i < NUM ==> DescOk(s, i);
    assert forall p :: 0 <= p < |s.procs| ==> BusyOk(s, p);
    assert forall p, q :: 0 <= p < |s.procs| && 0 <= q < |s.procs| ==> Apart(s, p, q);
  }

  function Chain(x: Pc): (ids: seq<int>) {
    if x.Busy? then [x.i0, x.i1, x.i2] else []
  }

  /** In every state of every run a descriptor is free, and then in no chain, or in the chain of
      exactly one request; and that chain is properly linked, three descriptors long, and says
      what the process wants. */
  lemma Partition(s: State, i: nat)
    requires Reachable(s) && i < NUM
    ensures |s.free| == |s.owner| == NUM && (s.free[i] <==> s.owner[i] == NONE)
    ensures forall p :: 0 <= p < |s.procs| ==> (i in Chain(s.procs[p]) <==> s.owner[i] == p)
  {
    ReachableInv(s);
    assert DescOk(s, i);
    forall p | 0 <= p < |s.procs| ensures i in Chain(s.procs[p]) <==> s.owner[i] == p {
      assert BusyOk(s, p);
    }
  }

  lemma Chained(s: State, p: nat)
    requires Reachable(s) && p < |s.procs| && s.procs[p].Busy?
    ensures Linked(s.desc, Chain(s.procs[p])) && Distinct(Chain(s.procs[p]))
    ensures var x := s.procs[p];
      && x.i0 < |s.desc| && x.i1 < |s.desc| && x.i2 < |s.desc| && x.i0 < |s.ops|
      && s.desc[x.i0].addr == Header(x.i0) && s.ops[x.i0] == Op(x.write, 2 * x.blockno)
      && s.desc[x.i1].addr == Data(x.b) && (s.desc[x.i1].flags / 2 % 2 == 1 <==> !x.write) && s.desc[x.i2].addr == Status(x.i0)
  {
    ReachableInv(s);
    assert BusyOk(s, p);
  }

  /** The handler has work exactly while a report is unhandled, and the device exactly while a request
      is unfetched, although both compare counters that wrap around at 2^16. */
  lemma NothingMissed(s: State)
    requires Reachable(s) && Shape(s)
    ensures Apply(s, Intr).Next? <==> s.handled < |s.completed|
    ensures Apply(s, Fetch).Next? <==> s.fetched < |s.submitted|
  {
    ReachableInv(s);
    ReportsFit(s);
    QueueFits(s);
    Indices(s.handled, |s.completed|);
    Indices(s.fetched, |s.submitted|);
    if s.handled < |s.completed| {
      IntrFinds(s);
    }
    if s.fetched < |s.submitted| {
      assert QueuedOk(s, s.fetched);
    }
  }

  /** Every completion, in whatever order the device reports them, clears the buffer of exactly the
      request that it reports, which was still waiting; and that happens to a request only once,
      since its report is then behind the handler. */
  lemma CompletionClears(s: State, p: nat)
    requires Reachable(s) && Shape(s) && s.handled < |s.completed|
    requires p < |s.procs| && s.procs[p].Busy? && s.procs[p].i0 < NUM && s.procs[p].b < |s.disk|
    ensures Apply(s, Intr).Next? && s.completed[s.handled] == s.usedRing[s.seen % NUM]
    ensures var t := Apply(s, Intr).s;
      && |t.disk| == |s.disk| && t.handled == s.handled + 1
      && (s.procs[p].i0 == s.completed[s.handled] ==> s.disk[s.procs[p].b] && !t.disk[s.procs[p].b])
      && (s.procs[p].i0 != s.completed[s.handled] ==> t.disk[s.procs[p].b] == s.disk[s.procs[p].b])
  {
    NothingMissed(s);
    ReachableInv(s);
    IntrFinds(s);
    var id := s.completed[s.handled];
    assert BusyOk(s, p) && BusyOk(s, s.owner[id]) && Apart(s, p, s.owner[id]) && DescOk(s, id);
  }

  /** The device gets every request once, in the order in which they were made available. */
  lemma FetchInOrder(s: State)
    requires Reachable(s) && Shape(s) && s.fetched < |s.submitted|
    ensures Apply(s, Fetch).Next? && s.availRing[s.fetched % NUM] == s.submitted[s.fetched]
    ensures Apply(s, Fetch).s.fetched == s.fetched + 1 && Apply(s, Fetch).s.submitted == s.submitted
  {
    NothingMissed(s);
    ReachableInv(s);
    FetchKeeps(s, Fetch);
  }

  /** No process sleeps for descriptors while three are free. */
  lemma NoIdleDescriptors(s: State, p: nat)
    requires Reachable(s) && p < |s.procs| && s.procs[p].Wanting? && s.procs[p].asleep
    ensures |s.free| == NUM && |FreeSet(s.free)| < 3
  {
    ReachableInv(s);
    assert BusyOk(s, p);
    var i0 := First(s.free, 0);
    var i1 := if i0 < NUM then First(s.free, i0 + 1) else NUM;
    assert FreeSet(s.free) <= {i0, i1};
    SubsetSize(FreeSet(s.free), {i0, i1});
  }

  /** The step that brings the request with first descriptor `id` on. */
  function NextStep(s: State, p: nat, id: nat): (step: Step)
    requires id < |s.stage|
  {
    match s.stage[id]
    case Queued(_) => Fetch
    case Working => Complete(id)
    case Reported(_) => Intr
    case _ => End(p)
  }

  /** No request is ever stuck: the device, the handler or the process itself can take the next step. */
  lemma RequestMoves(s: State, p: nat)
    requires Reachable(s) && Shape(s) && p < |s.procs| && s.procs[p].Busy?
    ensures s.procs[p].i0 < NUM && Apply(s, NextStep(s, p, s.procs[p].i0)).Next?
  {
    ReachableInv(s);
    NothingMissed(s);
    assert BusyOk(s, p) && DescOk(s, s.procs[p].i0);
  }

  /** And neither is a process that waits for descriptors: it can try, or others hold some and can move. */
  lemma WaiterMoves(s: State, p: nat) returns (q: nat)
    requires Reachable(s) && Shape(s) && p < |s.procs| && s.procs[p].Wanting?
    ensures !s.procs[p].asleep ==> Apply(s, Try(p)).Next?
    ensures s.procs[p].asleep ==> q < |s.procs| && s.procs[q].Busy? && s.procs[q].i0 < NUM && Apply(s, NextStep(s, q, s.procs[q].i0)).Next?
  {
    ReachableInv(s);
    assert BusyOk(s, p);
    q := 0;
    if s.procs[p].asleep {
      var i := SomeTaken(s);
      assert DescOk(s, i);
      q := s.owner[i];
      RequestMoves(s, q);
    }
  }

  lemma SomeTaken(s: State) returns (i: nat)
    requires Shape(s) && FewFree(s)
    ensures i < NUM && !s.free[i]
  {
    if s.free[0] && s.free[1] {
      assert First(s.free, 0) == 0 && First(s.free, 1) == 1;
      i := 2;
    } else {
      i := if s.free[0] then 1 else 0;
    }
  }

  // What a request comes to, as a whole run.

  lemma ExecOne(s: State, step: Step, t: State, rest: seq<Step>)
    requires Shape(s) && Apply(s, step) == Next(t)
    ensures Exec(s, [step] + rest) == Exec(t, rest)
  {
    assert ([step] + rest)[1..] == rest;
  }

  /** How many steps the request of process `p` needs before its buffer is released. */
  function Rank(s: State, id: nat): (n: int)
    requires id < |s.stage|
  {
    match s.stage[id]
    case Queued(k) => 11 + k - s.fetched
    case Working => 10
    case Reported(k) => 1 + k - s.handled
    case _ => 0
  }

  /** Process `p` waits for its request, which starts at descriptor `id`. */
  predicate Waits(s: State, p: nat, id: nat) {
    p < |s.procs| && s.procs[p].Busy? && s.procs[p].i0 == id < NUM
  }

  lemma FetchLess(s: State, p: nat, id: nat)
    requires Inv(s) && Waits(s, p, id) && s.stage[id].Queued?
    ensures Apply(s, Fetch).Next? && Inv(Apply(s, Fetch).s)
    ensures var t := Apply(s, Fetch).s; t.procs == s.procs && t.stage[id] != Unused && 0 <= Rank(t, id) < Rank(s, id)
  {
    assert DescOk(s, id);
    QueueFits(s);
    Indices(s.fetched, |s.submitted|);
    assert QueuedOk(s, s.fetched) && QueuedOk(s, s.stage[id].k);
    FetchKeeps(s, Fetch);
    assert DescOk(Apply(s, Fetch).s, id);
  }

  lemma CompleteLess(s: State, p: nat, id: nat)
    requires Inv(s) && Waits(s, p, id) && s.stage[id].Working?
    ensures Apply(s, Complete(id)).Next? && Inv(Apply(s, Complete(id)).s)
    ensures var t := Apply(s, Complete(id)).s; t.procs == s.procs && t.stage[id] != Unused && 0 <= Rank(t, id) < Rank(s, id)
  {
    RoomForReport(s, id);
    CompleteKeeps(s, Complete(id));
  }

  lemma IntrLess(s: State, p: nat, id: nat)
    requires Inv(s) && Waits(s, p, id) && s.stage[id].Reported?
    ensures Apply(s, Intr).Next? && Inv(Apply(s, Intr).s)
    ensures var t := Apply(s, Intr).s; t.procs == s.procs && t.stage[id] != Unused && 0 <= Rank(t, id) < Rank(s, id)
  {
    assert DescOk(s, id);
    ReportsFit(s);
    Indices(s.handled, |s.completed|);
    IntrFinds(s);
    assert ReportedOk(s, s.handled) && ReportedOk(s, s.stage[id].k);
    IntrKeeps(s, Intr);
    assert DescOk(Apply(s, Intr).s, id);
  }

  lemma RequestLess(s: State, p: nat, id: nat) returns (t: State)
    requires Inv(s) && Waits(s, p, id) && s.stage[id] != Unused && s.stage[id] != Done
    ensures Apply(s, NextStep(s, p, id)) == Next(t) && Inv(t) && t.procs == s.procs && t.stage[id] != Unused && 0 <= Rank(t, id) < Rank(s, id)
  {
    match s.stage[id] {
      case Queued(_) => FetchLess(s, p, id);
      case Working => CompleteLess(s, p, id);
      case Reported(_) => IntrLess(s, p, id);
    }
    t := Apply(s, NextStep(s, p, id)).s;
  }

  /** The process is idle, its descriptors are free, and those that waited for descriptors are awake. */
  ghost predicate Returned(s: State, t: State, p: nat)
    requires p < |s.procs| && s.procs[p].Busy?
  {
    && |t.free| == NUM && |t.procs| == |s.procs| && t.procs[p] == Idle && |t.desc| == NUM
    && (forall i :: i in Chain(s.procs[p]) ==> 0 <= i < NUM && t.free[i] && t.desc[i] == ZERO)
    && forall q :: 0 <= q < |s.procs| && q != p ==> t.procs[q] == Wake(s.procs[q])
  }

  lemma EndReturns(s: State, p: nat, id: nat) returns (t: State)
    requires Inv(s) && Waits(s, p, id) && s.stage[id] == Done
    ensures Apply(s, End(p)) == Next(t) && Inv(t) && Returned(s, t, p)
  {
    assert BusyOk(s, p);
    FinishKeeps(s, p);
    t := Apply(s, End(p)).s;
  }

  /** Every request is brought to its end by the device, the handler and the process. */
  lemma {:induction false} RequestReturns(s: State, p: nat, id: nat) returns (steps: seq<Step>, t: State)
    requires Inv(s) && Waits(s, p, id) && s.stage[id] != Unused
    ensures Inv(t) && Exec(s, steps) == Next(t) && Returned(s, t, p) && |steps| <= Rank(s, id) + 1
    decreases Rank(s, id)
  {
    assert DescOk(s, id);
    if s.stage[id] == Done {
      t := EndReturns(s, p, id);
      ExecOne(s, End(p), t, []);
      steps := [End(p)] + [];
    } else {
      var a := RequestLess(s, p, id);
      var xs;
      xs, t := RequestReturns(a, p, id);
      ExecOne(s, NextStep(s, p, id), a, xs);
      steps := [NextStep(s, p, id)] + xs;
    }
  }

  /** The request that a call of virtio_disk_rw makes available: the block and the direction it was asked for. */
  ghost predicate Asks(s: State, p: nat, b: nat, blockno: nat, write: bool) {
    && p < |s.procs| && s.procs[p].Busy? && s.procs[p].b == b && s.procs[p].blockno == blockno && s.procs[p].write == write
    && s.procs[p].i0 < |s.ops| && s.ops[s.procs[p].i0] == Op(write, 2 * blockno)
    && s.procs[p].i1 < |s.desc| && s.desc[s.procs[p].i1].addr == Data(b) && (s.desc[s.procs[p].i1].flags / 2 % 2 == 1 <==> !write)
    && |s.submitted| > 0 && s.submitted[|s.submitted| - 1] == s.procs[p].i0
  }

  lemma Submits(s: State, p: nat, b: nat, blockno: nat, write: bool) returns (a: State, t: State)
    requires Inv(s) && Apply(s, Start(p, b, blockno, write)).Next? && !FewFree(s)
    ensures Apply(s, Start(p, b, blockno, write)) == Next(a) && Inv(a) && Apply(a, Try(p)) == Next(t) && Inv(t)
    ensures Asks(t, p, b, blockno, write) && Waits(t, p, t.procs[p].i0) && t.stage[t.procs[p].i0] != Unused
  {
    a := Apply(s, Start(p, b, blockno, write)).s;
    StartKeeps(s, Start(p, b, blockno, write));
    StepKeeps(a, Try(p));
    t := Apply(a, Try(p)).s;
    assert BusyOk(t, p);
  }

  /** A call of virtio_disk_rw that finds three free descriptors: the request is as the caller asked, and the call returns. */
  lemma DiskRwReturns(s: State, p: nat, b: nat, blockno: nat, write: bool) returns (a: State, steps: seq<Step>, t: State)
    requires Reachable(s) && Shape(s) && Apply(s, Start(p, b, blockno, write)).Next? && !FewFree(s)
    ensures Exec(s, [Start(p, b, blockno, write)] + ([Try(p)] + [])) == Next(a) && Asks(a, p, b, blockno, write)
    ensures Exec(a, steps) == Next(t) && Returned(a, t, p)
  {
    ReachableInv(s);
    var m;
    m, a := Submits(s, p, b, blockno, write);
    ExecOne(m, Try(p), a, []);
    ExecOne(s, Start(p, b, blockno, write), m, [Try(p)] + []);
    steps, t := RequestReturns(a, p, a.procs[p].i0);
  }
}
