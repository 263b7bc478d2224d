/** Every interleaving of file system operations with the log of kernel/log.c,
    with crashes between any two block writes.

    A step is one critical section of begin_op, log_write or end_op, one block
    write of commit or of recovery, or a crash. `hist` records the operations'
    actions since the disk was made, less what a crash has undone. */
module LogMachine {
  import opened Blocks
  import opened LogDisk
  import opened Log

  datatype Event = Began(p: nat) | Put(p: nat, b: int, v: Block) | Ended(p: nat)

  /** What process `p` is doing with the log: nothing, or an operation that has
      added `spent` blocks to the current transaction. */
  datatype Op = Outside | Inside(spent: nat)

  datatype Phase =
    | Running
    | FillingSlots(tail: nat) | WritingHead | Installing(tail: nat) | ClearingHead | Finishing   // end_op, commit
    | ReadingHead | Recovering(tail: nat) | ClearingRecovered                                     // recover_from_log

  datatype State = State(
    disk: Disk,
    cache: map<int, Block>,
    lh: seq<int>,
    outstanding: int,
    committing: bool,
    ops: seq<Op>,
    phase: Phase,
    hist: seq<Event>,
    durable: nat)

  datatype Step = Begin(p: nat) | Write(p: nat, b: int, v: Block) | End(p: nat) | DiskStep | Crash

  /** A step is taken, or not possible now, or stops the kernel. */
  datatype Outcome = Next(s: State) | Blocked | Panic

  function Init(d: Disk, nproc: nat): (s: State) {
    State(d, map[], [], 0, false, seq(nproc, _ => Outside), Running, [], 0)
  }

  function Contents(s: State, b: int): (v: Block)
    requires 0 <= b < |s.disk|
  {
    if b in s.cache then s.cache[b] else s.disk[b]
  }

  // begin_op, log_write, end_op.

  function BeginOp(s: State, p: nat): (r: Outcome) {
    if p >= |s.ops| || !s.ops[p].Outside? || s.phase.ReadingHead? || s.phase.Recovering? || s.phase.ClearingRecovered? then Blocked
    else if s.committing then Blocked
    else if |s.lh| + OpSpace(s.outstanding + 1) > LOGSIZE then Blocked
    else Next(s.(outstanding := s.outstanding + 1, ops := s.ops[p := Inside(0)], hist := s.hist + [Began(p)]))
  }

  /** An operation may add up to MAXOPBLOCKS blocks, and rewrite logged ones. */
  predicate MayWrite(l: Layout, s: State, p: nat, b: int) {
    && p < |s.ops| && s.ops[p].Inside? && l.Home(b)
    && (b in s.lh || s.ops[p].spent < MAXOPBLOCKS)
  }

  function LogWrite(l: Layout, s: State, p: nat, b: int, v: Block): (r: Outcome) {
    if !MayWrite(l, s, p, b) then Blocked
    else if |s.lh| >= LOGSIZE || |s.lh| >= l.size - 1 then Panic
    else if s.outstanding < 1 then Panic
    else Next(s.(
      lh := Absorb(s.lh, b),
      cache := s.cache[b := v],
      ops := s.ops[p := Inside(if b in s.lh then s.ops[p].spent else s.ops[p].spent + 1)],
      hist := s.hist + [Put(p, b, v)]))
  }

  function EndOp(s: State, p: nat): (r: Outcome) {
    if p >= |s.ops| || !s.ops[p].Inside? then Blocked
    else
      var outstanding := s.outstanding - 1;
      if s.committing then Panic
      else
        var t := s.(outstanding := outstanding, ops := s.ops[p := Outside], hist := s.hist + [Ended(p)]);
        if outstanding == 0 then
          if |s.lh| > 0 then Next(t.(committing := true, phase := FillingSlots(0)))
          else Next(t.(committing := true, phase := Finishing, durable := |t.hist|))
        else Next(t)
  }

  /** The next write of the commit or recovery in progress. A header that the
      loops over `lh` could not follow safely counts as a panic. */
  function DiskWrite(l: Layout, s: State): (r: Outcome) {
    if !(l.Valid() && |s.disk| == l.total && HasHeader(s.disk[l.start]) && ValidHeader(l, s.lh)) then Panic
    else match s.phase
    case Running => Blocked
    case FillingSlots(t) =>
      if t < |s.lh| then
        Next(s.(disk := LogSlotWrite(l, s.disk, t, Contents(s, s.lh[t])), phase := FillingSlots(t + 1)))
      else Next(s.(phase := WritingHead))
    case WritingHead =>
      Next(s.(disk := HeadWrite(l, s.disk, s.lh), phase := Installing(0), durable := |s.hist|))
    case Installing(t) =>
      if t < |s.lh| then
        Next(s.(disk := InstallWrite(l, s.disk, s.lh, t), cache := s.cache - {s.lh[t]}, phase := Installing(t + 1)))
      else Next(s.(lh := [], phase := ClearingHead))
    case ClearingHead => Next(s.(disk := HeadWrite(l, s.disk, s.lh), phase := Finishing))
    case Finishing => Next(s.(committing := false, phase := Running))
    case ReadingHead => Next(s.(lh := Header(s.disk[l.start]), phase := Recovering(0)))
    case Recovering(t) =>
      if t < |s.lh| then
        Next(s.(disk := InstallWrite(l, s.disk, s.lh, t), phase := Recovering(t + 1)))
      else Next(s.(lh := [], phase := ClearingRecovered))
    case ClearingRecovered => Next(s.(disk := HeadWrite(l, s.disk, s.lh), phase := Running))
  }

  /** Memory is lost; the operations not yet durable never happened. */
  function Crashed(s: State): (r: Outcome) {
    if s.durable > |s.hist| then Panic
    else Next(State(s.disk, map[], [], 0, false, seq(|s.ops|, _ => Outside), ReadingHead, s.hist[..s.durable], s.durable))
  }

  function Take(l: Layout, s: State, step: Step): (r: Outcome) {
    match step
    case Begin(p) => BeginOp(s, p)
    case Write(p, b, v) => LogWrite(l, s, p, b, v)
    case End(p) => EndOp(s, p)
    case DiskStep => DiskWrite(l, s)
    case Crash => Crashed(s)
  }

  /** The outcome of a whole interleaving. */
  function Exec(l: Layout, s: State, steps: seq<Step>): (r: Outcome)
    decreases |steps|
  {
    if steps == [] then Next(s)
    else match Take(l, s, steps[0])
         case Next(t) => Exec(l, t, steps[1..])
         case Blocked => Blocked
         case Panic => Panic
  }

  // What the history means.

  /** The logical disk after the writes of `hist`. */
  function View(d: Disk, hist: seq<Event>): (r: Disk)
    ensures |r| == |d|
  {
    if hist == [] then d
    else
      var before := View(d, hist[..|hist| - 1]);
      match hist[|hist| - 1]
      case Put(_, b, v) => if 0 <= b < |d| then before[b := v] else before
      case _ => before
  }

  /** The processes inside an operation after `hist`. */
  function Active(hist: seq<Event>): (r: set<nat>) {
    if hist == [] then {}
    else
      var before := Active(hist[..|hist| - 1]);
      match hist[|hist| - 1]
      case Began(p) => before + {p}
      case Put(_, _, _) => before
      case Ended(p) => before - {p}
  }

  // Log space: outstanding operations and the blocks they may still add.

  function CountInside(ops: seq<Op>): (c: nat) {
    if ops == [] then 0 else CountInside(ops[..|ops| - 1]) + if ops[|ops| - 1].Inside? then 1 else 0
  }

  function Unspent(op: Op): int {
    match op case Outside => 0 case Inside(k) => MAXOPBLOCKS - k
  }

  function Reserve(ops: seq<Op>): (c: int) {
    if ops == [] then 0 else Reserve(ops[..|ops| - 1]) + Unspent(ops[|ops| - 1])
  }

  lemma {:induction false} OpsUpdated(ops: seq<Op>, p: nat, op: Op)
    requires p < |ops|
    ensures CountInside(ops[p := op]) == CountInside(ops) + (if op.Inside? then 1 else 0) - (if ops[p].Inside? then 1 else 0)
    ensures Reserve(ops[p := op]) == Reserve(ops) + Unspent(op) - Unspent(ops[p])
  {
    var n := |ops| - 1;
    if p == n {
      assert ops[p := op][..n] == ops[..n];
    } else {
      assert ops[p := op][..n] == ops[..n][p := op];
      OpsUpdated(ops[..n], p, op);
    }
  }

  lemma {:induction false} OpsBounds(ops: seq<Op>)
    ensures CountInside(ops) == 0 <==> forall p :: 0 <= p < |ops| ==> ops[p].Outside?
    ensures Reserve(ops) <= OpSpace(CountInside(ops))
  {
    if ops != [] {
      var n := |ops| - 1;
      OpsBounds(ops[..n]);
      assert forall p :: 0 <= p < n ==> ops[p] == ops[..n][p];
    }
  }

  lemma {:induction false} ReserveAtLeast(ops: seq<Op>, p: nat)
    requires p < |ops|
    requires forall q :: 0 <= q < |ops| && ops[q].Inside? ==> ops[q].spent <= MAXOPBLOCKS
    ensures Reserve(ops) >= Unspent(ops[p]) && Reserve(ops) >= 0
  {
    var n := |ops| - 1;
    if p < n {
      ReserveAtLeast(ops[..n], p);
    } else if n > 0 {
      ReserveAtLeast(ops[..n], 0);
    }
  }

  // The invariant.

  predicate IsCommit(ph: Phase) {
    ph.FillingSlots? || ph.WritingHead? || ph.Installing? || ph.ClearingHead? || ph.Finishing?
  }

  predicate IsRecovery(ph: Phase) {
    ph.ReadingHead? || ph.Recovering? || ph.ClearingRecovered?
  }

  /** Reservation and the exclusion of operations from commit and recovery. */
  ghost predicate SpaceInv(l: Layout, s: State) {
    && ValidHeader(l, s.lh)
    && s.outstanding == CountInside(s.ops)
    && (forall p :: 0 <= p < |s.ops| && s.ops[p].Inside? ==> s.ops[p].spent <= MAXOPBLOCKS)
    && |s.lh| + Reserve(s.ops) <= LOGSIZE
    && s.committing == IsCommit(s.phase)
    && (s.committing || IsRecovery(s.phase) ==> s.outstanding == 0)
  }

  /** What is durable is a history of whole operations. */
  ghost predicate HistoryInv(s: State) {
    && s.durable <= |s.hist|
    && Active(s.hist) == (set p | 0 <= p < |s.ops| && s.ops[p].Inside?)
    && Active(s.hist[..s.durable]) == {}
    && (s.phase.Installing? || s.phase.ClearingHead? || s.phase.Finishing? || IsRecovery(s.phase) ==> s.durable == |s.hist|)
    && (s.phase.Running? && s.outstanding == 0 ==> s.durable == |s.hist| && s.lh == [])
  }

  /** The first `t` listed blocks have been copied home. */
  ghost predicate InstalledUpTo(l: Layout, s: State, t: nat) {
    && ValidDisk(l, s.disk) && Header(s.disk[l.start]) == s.lh && t <= |s.lh|
    && forall i :: 0 <= i < t ==> s.disk[s.lh[i]] == Slot(l, s.disk, i)
  }

  /** Readers of the buffer cache see the logical disk `v`. */
  ghost predicate Sees(l: Layout, s: State, v: Disk)
    requires |s.disk| == |v| == l.total
  {
    forall b :: l.Home(b) ==> Contents(s, b) == v[b]
  }

  ghost predicate SlotsHold(l: Layout, s: State, v: Disk, t: nat)
    requires l.Valid() && |s.disk| == |v| == l.total && ValidHeader(l, s.lh)
  {
    t <= |s.lh| && forall i :: 0 <= i < t ==> Slot(l, s.disk, i) == v[s.lh[i]]
  }

  ghost predicate DiskInv(l: Layout, s: State, v: Disk)
    requires l.Valid() && |s.disk| == |v| == l.total && ValidHeader(l, s.lh)
  {
    && (!s.phase.ReadingHead? && !s.phase.Recovering? ==> Sees(l, s, v))
    && (forall b :: b in s.cache ==> b in s.lh)
    && match s.phase
       case Running => Clean(l, s.disk)
       case FillingSlots(t) => Clean(l, s.disk) && SlotsHold(l, s, v, t)
       case WritingHead => Clean(l, s.disk) && SlotsHold(l, s, v, |s.lh|)
       case Installing(t) => InstalledUpTo(l, s, t) && forall i :: 0 <= i < t ==> s.lh[i] !in s.cache
       case ClearingHead => ValidDisk(l, s.disk) && s.lh == []
       case Finishing => Clean(l, s.disk) && s.lh == []
       case ReadingHead => ValidDisk(l, s.disk) && s.cache == map[] && s.lh == []
       case Recovering(t) => InstalledUpTo(l, s, t) && s.cache == map[]
       case ClearingRecovered => ValidDisk(l, s.disk) && s.lh == []
  }

  ghost predicate Inv(l: Layout, d: Disk, s: State) {
    && SpaceInv(l, s)
    && HistoryInv(s)
    && DiskPart(l, s, View(d, s.hist), View(d, s.hist[..s.durable]))
  }

  /** `v` is what readers see or will see after recovery, `w` what a crash leaves. */
  ghost predicate DiskPart(l: Layout, s: State, v: Disk, w: Disk) {
    && l.Valid() && |s.disk| == |v| == l.total && ValidHeader(l, s.lh)
    && DiskInv(l, s, v)
    && Means(l, s.disk, w)
  }

  lemma InitInv(l: Layout, d: Disk, nproc: nat)
    requires Clean(l, d)
    ensures Inv(l, d, Init(d, nproc))
  {
    OpsBounds(Init(d, nproc).ops);
  }

  lemma HistoryExtended(d: Disk, hist: seq<Event>, e: Event, k: nat)
    requires k <= |hist|
    ensures (hist + [e])[..|hist|] == hist && (hist + [e])[..k] == hist[..k]
  {
  }

  lemma BeginKeeps(l: Layout, d: Disk, s: State, p: nat)
    requires Inv(l, d, s) && BeginOp(s, p).Next?
    ensures Inv(l, d, BeginOp(s, p).s)
  {
    OpsUpdated(s.ops, p, Inside(0));
    OpsBounds(s.ops);
    HistoryExtended(d, s.hist, Began(p), s.durable);
  }

  lemma WriteKeeps(l: Layout, d: Disk, s: State, p: nat, b: int, v: Block)
    requires Inv(l, d, s) && LogWrite(l, s, p, b, v).Next?
    ensures Inv(l, d, LogWrite(l, s, p, b, v).s)
  {
    var t := LogWrite(l, s, p, b, v).s;
    OpsUpdated(s.ops, p, t.ops[p]);
    OpsBounds(s.ops);
    HistoryExtended(d, s.hist, Put(p, b, v), s.durable);
  }

  lemma EndKeeps(l: Layout, d: Disk, s: State, p: nat)
    requires Inv(l, d, s) && EndOp(s, p).Next?
    ensures Inv(l, d, EndOp(s, p).s)
  {
    OpsUpdated(s.ops, p, Outside);
    OpsBounds(s.ops[p := Outside]);
    HistoryExtended(d, s.hist, Ended(p), s.durable);
    var t := EndOp(s, p).s;
    assert t.hist[..|t.hist|] == t.hist;
  }

  lemma CrashKeeps(l: Layout, d: Disk, s: State)
    requires Inv(l, d, s)
    ensures Crashed(s).Next? && Inv(l, d, Crashed(s).s)
  {
    var t := Crashed(s).s;
    assert t.hist[..t.durable] == t.hist;
    OpsBounds(t.ops);
  }

  // Commit and recovery, one phase at a time.

  lemma SlotWritten(l: Layout, d: Disk, k: nat, v: Block)
    requires Clean(l, d) && k + 1 < l.size
    ensures var e := LogSlotWrite(l, d, k, v);
            && Clean(l, e) && SameHome(l, e, d) && Replay(l, e) == e && Replay(l, d) == d
            && Slot(l, e, k) == v
            && forall i :: 0 <= i && i + 1 < l.size && i != k ==> Slot(l, e, i) == Slot(l, d, i)
  {
  }

  lemma FillKeeps(l: Layout, s: State, v: Disk, w: Disk)
    requires DiskPart(l, s, v, w) && s.phase.FillingSlots?
    ensures DiskWrite(l, s).Next? && DiskPart(l, DiskWrite(l, s).s, v, w)
  {
    var t, k := DiskWrite(l, s).s, s.phase.tail;
    if k < |s.lh| {
      SlotWritten(l, s.disk, k, Contents(s, s.lh[k]));
      forall b | l.Home(b) ensures Contents(t, b) == Contents(s, b) {}
    }
  }

  /** What recovery makes of block `b` once the header is on the disk. */
  lemma HeadCommits(l: Layout, s: State, v: Disk, disk: Disk, b: int)
    requires l.Valid() && |s.disk| == |v| == l.total && ValidHeader(l, s.lh) && Clean(l, s.disk)
    requires Sees(l, s, v) && SlotsHold(l, s, v, |s.lh|) && (forall c :: c in s.cache ==> c in s.lh)
    requires ValidDisk(l, disk) && disk == HeadWrite(l, s.disk, s.lh) && Header(disk[l.start]) == s.lh && l.Home(b)
    ensures Replay(l, disk)[b] == v[b]
  {
    ReplayAt(l, disk, b);
    if b in s.lh {
      var i :| 0 <= i < |s.lh| && s.lh[i] == b;
      assert Slot(l, disk, i) == Slot(l, s.disk, i);
    } else {
      assert Contents(s, b) == v[b];
    }
  }

  lemma HeadKeeps(l: Layout, s: State, v: Disk, w: Disk)
    requires DiskPart(l, s, v, w) && s.phase.WritingHead?
    ensures DiskWrite(l, s).Next? && DiskPart(l, DiskWrite(l, s).s, v, v)
  {
    var t := DiskWrite(l, s).s;
    HeaderRoundTrip(s.disk[l.start], s.lh);
    forall b | l.Home(b) ensures Replay(l, t.disk)[b] == v[b] {
      HeadCommits(l, s, v, t.disk, b);
    }
  }

  lemma SlotInstalled(l: Layout, d: Disk, k: nat)
    requires ValidDisk(l, d) && k < |Header(d[l.start])|
    ensures var lh := Header(d[l.start]);
            var e := InstallWrite(l, d, lh, k);
            && ValidDisk(l, e) && e[l.start] == d[l.start]
            && SameHome(l, Replay(l, e), Replay(l, d))
            && Replay(l, d)[lh[k]] == Slot(l, d, k)
            && forall i :: 0 <= i < |lh| ==> Slot(l, e, i) == Slot(l, d, i)
  {
    var lh := Header(d[l.start]);
    ReplayAt(l, d, lh[k]);
    ReplayDependsOnLog(l, d, InstallWrite(l, d, lh, k));
  }

  /** What install_trans has installed so far. */
  lemma InstallNext(l: Layout, s: State, t: State, k: nat)
    requires l.Valid() && ValidHeader(l, s.lh) && InstalledUpTo(l, s, k) && k < |s.lh| && t.lh == s.lh && t.disk == InstallWrite(l, s.disk, s.lh, k)
    ensures InstalledUpTo(l, t, k + 1)
  {
    SlotInstalled(l, s.disk, k);
    assert forall i :: 0 <= i < k ==> t.disk[s.lh[i]] == s.disk[s.lh[i]];
  }

  lemma InstallKeeps(l: Layout, s: State, v: Disk)
    requires DiskPart(l, s, v, v) && s.phase.Installing? && s.phase.tail < |s.lh|
    ensures DiskWrite(l, s).Next? && DiskPart(l, DiskWrite(l, s).s, v, v)
  {
    var t, k := DiskWrite(l, s).s, s.phase.tail;
    SlotInstalled(l, s.disk, k);
    InstallNext(l, s, t, k);
    InstallSees(l, s, v, k, t.disk);
    assert Means(l, t.disk, v);
  }

  /** Unpinning a block once its contents are home changes nothing for readers. */
  lemma InstallSees(l: Layout, s: State, v: Disk, k: nat, disk: Disk)
    requires l.Valid() && |s.disk| == |v| == l.total && ValidHeader(l, s.lh) && k < |s.lh|
    requires Sees(l, s, v) && disk == s.disk[s.lh[k] := v[s.lh[k]]]
    ensures Sees(l, s.(disk := disk, cache := s.cache - {s.lh[k]}, phase := Installing(k + 1)), v)
  {
    var t := s.(disk := disk, cache := s.cache - {s.lh[k]}, phase := Installing(k + 1));
    forall b | l.Home(b) ensures Contents(t, b) == v[b] {
      assert Contents(s, b) == v[b];
    }
  }

  lemma RecoverKeeps(l: Layout, s: State, v: Disk)
    requires DiskPart(l, s, v, v) && s.phase.Recovering? && s.phase.tail < |s.lh|
    ensures DiskWrite(l, s).Next? && DiskPart(l, DiskWrite(l, s).s, v, v)
  {
    SlotInstalled(l, s.disk, s.phase.tail);
  }

  lemma InstallDone(l: Layout, s: State, v: Disk)
    requires DiskPart(l, s, v, v) && (s.phase.Installing? || s.phase.Recovering?) && s.phase.tail == |s.lh|
    ensures DiskWrite(l, s).Next? && DiskPart(l, DiskWrite(l, s).s, v, v)
  {
    forall b | l.Home(b) ensures Contents(DiskWrite(l, s).s, b) == v[b] {
      ReplayAt(l, s.disk, b);
    }
  }

  lemma ClearKeeps(l: Layout, s: State, v: Disk)
    requires DiskPart(l, s, v, v) && (s.phase.ClearingHead? || s.phase.ClearingRecovered?)
    ensures DiskWrite(l, s).Next? && DiskPart(l, DiskWrite(l, s).s, v, v)
  {
    var t := DiskWrite(l, s).s;
    HeaderRoundTrip(s.disk[l.start], []);
    forall b | l.Home(b) ensures t.disk[b] == v[b] {
      assert Contents(s, b) == v[b];
    }
  }

  lemma DiskPartKeeps(l: Layout, s: State, v: Disk, w: Disk)
    requires DiskPart(l, s, v, w) && !s.phase.Running?
    requires !s.phase.FillingSlots? && !s.phase.WritingHead? ==> v == w
    ensures DiskWrite(l, s).Next? && DiskPart(l, DiskWrite(l, s).s, v, if s.phase.WritingHead? then v else w)
  {
    match s.phase
    case FillingSlots(_) => FillKeeps(l, s, v, w);
    case WritingHead => HeadKeeps(l, s, v, w);
    case Installing(t) => if t < |s.lh| { InstallKeeps(l, s, v); } else { InstallDone(l, s, v); }
    case ClearingHead => ClearKeeps(l, s, v);
    case Recovering(t) => if t < |s.lh| { RecoverKeeps(l, s, v); } else { InstallDone(l, s, v); }
    case ClearingRecovered => ClearKeeps(l, s, v);
    case Finishing =>
    case ReadingHead =>
  }

  lemma DiskKeeps(l: Layout, d: Disk, s: State)
    requires Inv(l, d, s) && !s.phase.Running?
    ensures DiskWrite(l, s).Next? && Inv(l, d, DiskWrite(l, s).s)
  {
    assert s.hist[..|s.hist|] == s.hist;
    DiskPartKeeps(l, s, View(d, s.hist), View(d, s.hist[..s.durable]));
    OpsBounds(s.ops);
    var t := DiskWrite(l, s).s;
    assert t.hist == s.hist && t.ops == s.ops;
  }

  /** A write that the log refuses although its operation is within its budget:
      the log is full, whether or not the block is in it already. */
  predicate Overfull(l: Layout, s: State, step: Step) {
    step.Write? && MayWrite(l, s, step.p, step.b) && (|s.lh| >= LOGSIZE || |s.lh| >= l.size - 1)
  }

  /** Every step keeps the invariant, and the only one that stops the kernel is
      a write to a full log: the panic in end_op is unreachable, and so is the
      one for a log_write outside a transaction. */
  lemma StepKeeps(l: Layout, d: Disk, s: State, step: Step)
    requires Inv(l, d, s)
    ensures Take(l, s, step).Next? ==> Inv(l, d, Take(l, s, step).s)
    ensures Take(l, s, step).Panic? <==> Overfull(l, s, step)
  {
    match step
    case Begin(p) => if BeginOp(s, p).Next? { BeginKeeps(l, d, s, p); }
    case Write(p, b, v) =>
      OpsBounds(s.ops);
      if LogWrite(l, s, p, b, v).Next? { WriteKeeps(l, d, s, p, b, v); }
    case End(p) =>
      OpsBounds(s.ops);
      if EndOp(s, p).Next? { EndKeeps(l, d, s, p); }
    case DiskStep => if !s.phase.Running? { DiskKeeps(l, d, s); }
    case Crash => CrashKeeps(l, d, s);
  }

  lemma {:induction false} ExecKeeps(l: Layout, d: Disk, s: State, steps: seq<Step>)
    requires Inv(l, d, s)
    ensures Exec(l, s, steps).Next? ==> Inv(l, d, Exec(l, s, steps).s)
    decreases |steps|
  {
    if steps != [] {
      StepKeeps(l, d, s, steps[0]);
      if Take(l, s, steps[0]).Next? {
        ExecKeeps(l, d, Take(l, s, steps[0]).s, steps[1..]);
      }
    }
  }

  // The main results, over every interleaving from a freshly made file system.

  /** `s` is reached by some interleaving, with crashes, from the clean disk `d`. */
  ghost predicate Reachable(l: Layout, d: Disk, s: State) {
    && Clean(l, d)
    && exists nproc: nat, steps :: Exec(l, Init(d, nproc), steps) == Next(s)
  }

  lemma ReachableInv(l: Layout, d: Disk, s: State)
    requires Reachable(l, d, s)
    ensures Inv(l, d, s)
  {
    var nproc: nat, steps :| Exec(l, Init(d, nproc), steps) == Next(s);
    InitInv(l, d, nproc);
    ExecKeeps(l, d, Init(d, nproc), steps);
  }

  /** Crash safety of group commit: whenever the machine stops, recovery produces
      the effect of a prefix of the history in which no operation is cut in two.
      Once a commit has finished, or recovery has, or no operation is outstanding,
      that prefix is everything. */
  lemma CrashSafety(l: Layout, d: Disk, s: State)
    requires Reachable(l, d, s)
    ensures s.durable <= |s.hist| && Active(s.hist[..s.durable]) == {}
    ensures Means(l, s.disk, View(d, s.hist[..s.durable]))
    ensures s.phase.Finishing? || IsRecovery(s.phase) ==> s.durable == |s.hist|
    ensures s.phase.Running? && s.outstanding == 0 ==> s.durable == |s.hist| && s.lh == []
    ensures s.phase.Running? ==> forall b :: l.Home(b) ==> Contents(s, b) == View(d, s.hist)[b]
  {
    ReachableInv(l, d, s);
  }

  /** How many blocks the header on the disk lists. */
  function Listed(l: Layout, s: State): (n: nat) {
    if l.Valid() && |s.disk| == l.total && HasHeader(s.disk[l.start]) then |Header(s.disk[l.start])| else 0
  }

  function Rest(s: State, t: nat): (n: nat) {
    if t <= |s.lh| then |s.lh| - t else 0
  }

  /** How many writes and other steps the commit or recovery in progress still takes. */
  function Remaining(l: Layout, s: State): (n: nat) {
    match s.phase
    case Running => 0
    case FillingSlots(t) => Rest(s, t) + |s.lh| + 5
    case WritingHead => |s.lh| + 4
    case Installing(t) => Rest(s, t) + 3
    case ClearingHead => 2
    case Finishing => 1
    case ReadingHead => Listed(l, s) + 3
    case Recovering(t) => Rest(s, t) + 2
    case ClearingRecovered => 1
  }

  function DiskSteps(n: nat): (steps: seq<Step>)
    ensures |steps| == n
  {
    seq(n, _ => DiskStep)
  }

  lemma OneFewer(l: Layout, d: Disk, s: State)
    requires Inv(l, d, s) && !s.phase.Running?
    ensures DiskWrite(l, s).Next? && Inv(l, d, DiskWrite(l, s).s)
    ensures var t := DiskWrite(l, s).s;
            Remaining(l, t) == Remaining(l, s) - 1 && t.hist == s.hist && t.ops == s.ops && t.outstanding == s.outstanding
  {
    DiskKeeps(l, d, s);
  }

  /** A commit or recovery, left alone, comes to its end after that many steps. */
  lemma {:induction false} Completes(l: Layout, d: Disk, s: State, n: nat)
    requires Inv(l, d, s) && n == Remaining(l, s)
    ensures Exec(l, s, DiskSteps(n)).Next?
    ensures var t := Exec(l, s, DiskSteps(n)).s;
            Inv(l, d, t) && t.phase.Running? && t.hist == s.hist && t.ops == s.ops && t.outstanding == s.outstanding
    decreases n
  {
    if !s.phase.Running? {
      OneFewer(l, d, s);
      assert DiskSteps(n)[1..] == DiskSteps(n - 1);
      Completes(l, d, DiskWrite(l, s).s, n - 1);
    } else {
      assert DiskSteps(n) == [];
    }
  }

  /** Everything that has been done is on the disk, at home, and the log is free. */
  ghost predicate AllHome(l: Layout, d: Disk, s: State) {
    && s.phase.Running? && s.outstanding == 0 && !s.committing && s.lh == [] && s.durable == |s.hist|
    && |s.disk| == |d| == l.total && forall b :: l.Home(b) ==> s.disk[b] == View(d, s.hist)[b]
  }

  lemma IdleHome(l: Layout, d: Disk, s: State)
    requires Inv(l, d, s) && s.phase.Running? && s.outstanding == 0
    ensures AllHome(l, d, s)
  {
    forall b | l.Home(b) ensures s.disk[b] == View(d, s.hist)[b] {
      assert Contents(s, b) == View(d, s.hist)[b];
    }
  }

  lemma LastEnd(l: Layout, d: Disk, s: State, p: nat, n: nat)
    requires Inv(l, d, s) && p < |s.ops| && s.ops[p].Inside? && s.outstanding == 1
    requires n == if s.lh == [] then 1 else 2 * |s.lh| + 5
    ensures Exec(l, s, [End(p)] + DiskSteps(n)).Next?
    ensures var t := Exec(l, s, [End(p)] + DiskSteps(n)).s; AllHome(l, d, t) && t.hist == s.hist + [Ended(p)]
  {
    OpsBounds(s.ops);
    StepKeeps(l, d, s, End(p));
    var e := EndOp(s, p).s;
    Completes(l, d, e, n);
    assert ([End(p)] + DiskSteps(n))[1..] == DiskSteps(n);
    IdleHome(l, d, Exec(l, e, DiskSteps(n)).s);
  }

  /** The end_op of the last outstanding operation brings its transaction home: with `k` blocks logged, 2 * k + 5
      steps later the log is empty and every block is on the disk as the operations left it. */
  lemma LastEndCommits(l: Layout, d: Disk, s: State, p: nat, n: nat)
    requires Reachable(l, d, s) && p < |s.ops| && s.ops[p].Inside? && s.outstanding == 1
    requires n == if s.lh == [] then 1 else 2 * |s.lh| + 5
    ensures Exec(l, s, [End(p)] + DiskSteps(n)).Next?
    ensures var t := Exec(l, s, [End(p)] + DiskSteps(n)).s; AllHome(l, d, t) && t.hist == s.hist + [Ended(p)]
  {
    ReachableInv(l, d, s);
    LastEnd(l, d, s, p, n);
  }

  lemma ViewNext(d: Disk, hist: seq<Event>, e: Event)
    ensures View(d, hist + [e]) == if e.Put? && 0 <= e.b < |d| then View(d, hist)[e.b := e.v] else View(d, hist)
  {
    assert (hist + [e])[..|hist|] == hist;
  }

  lemma ViewPut(d: Disk, hist: seq<Event>, p: nat, b: int, v: Block)
    requires 0 <= b < |d|
    ensures View(d, hist + [Began(p)] + [Put(p, b, v)] + [Ended(p)]) == View(d, hist)[b := v]
  {
    ViewNext(d, hist, Began(p));
    ViewNext(d, hist + [Began(p)], Put(p, b, v));
    ViewNext(d, hist + [Began(p)] + [Put(p, b, v)], Ended(p));
  }

  /** begin_op and one log_write, when nothing is going on. */
  lemma BeginWrite(l: Layout, d: Disk, s: State, p: nat, b: int, v: Block) returns (a: State, c: State)
    requires Inv(l, d, s) && s.phase.Running? && s.outstanding == 0 && p < |s.ops| && l.Home(b) && l.size > 1
    ensures Take(l, s, Begin(p)) == Next(a) && Take(l, a, Write(p, b, v)) == Next(c) && Inv(l, d, c)
    ensures c.lh == [b] && c.outstanding == 1 && p < |c.ops| && c.ops[p].Inside? && c.hist == s.hist + [Began(p)] + [Put(p, b, v)]
  {
    OpsBounds(s.ops);
    a := BeginOp(s, p).s;
    StepKeeps(l, d, s, Begin(p));
    StepKeeps(l, d, a, Write(p, b, v));
    c := LogWrite(l, a, p, b, v).s;
  }

  lemma ExecTwo(l: Layout, s: State, x: Step, a: State, y: Step, c: State, rest: seq<Step>)
    requires Take(l, s, x) == Next(a) && Take(l, a, y) == Next(c)
    ensures Exec(l, s, [x] + ([y] + rest)) == Exec(l, c, rest)
  {
    assert ([y] + rest)[1..] == rest && ([x] + ([y] + rest))[1..] == [y] + rest;
  }

  /** A whole operation: what log_write was given is on the disk in the end, and every other block is as it was. */
  lemma OperationHome(l: Layout, d: Disk, s: State, p: nat, b: int, v: Block)
    requires Reachable(l, d, s) && s.phase.Running? && s.outstanding == 0 && p < |s.ops| && l.Home(b) && l.size > 1
    ensures var steps := [Begin(p)] + ([Write(p, b, v)] + ([End(p)] + DiskSteps(7)));
      && Exec(l, s, steps).Next? && AllHome(l, d, Exec(l, s, steps).s) && |s.disk| == l.total
      && forall c :: l.Home(c) ==> Exec(l, s, steps).s.disk[c] == if c == b then v else s.disk[c]
  {
    ReachableInv(l, d, s);
    IdleHome(l, d, s);
    var a, c := BeginWrite(l, d, s, p, b, v);
    LastEnd(l, d, c, p, 7);
    ExecTwo(l, s, Begin(p), a, Write(p, b, v), c, [End(p)] + DiskSteps(7));
    ViewPut(d, s.hist, p, b, v);
  }

  /** Two operations begin and write, one after the other, and the first ends. */
  lemma TwoBegin(l: Layout, d: Disk, s: State, p: nat, q: nat) returns (t: State)
    requires Inv(l, d, s) && s.phase.Running? && s.outstanding == 0 && p < |s.ops| && q < |s.ops| && p != q
    ensures Exec(l, s, [Begin(p)] + ([Begin(q)] + [])) == Next(t) && Inv(l, d, t) && t.lh == [] && t.outstanding == 2 && t.phase.Running?
    ensures |t.ops| == |s.ops| && t.ops[p] == t.ops[q] == Inside(0) && t.hist == s.hist + [Began(p)] + [Began(q)]
    ensures t.disk == s.disk && t.durable == s.durable
  {
    OpsBounds(s.ops);
    var a := BeginOp(s, p).s;
    StepKeeps(l, d, s, Begin(p));
    t := BeginOp(a, q).s;
    StepKeeps(l, d, a, Begin(q));
    ExecTwo(l, s, Begin(p), a, Begin(q), t, []);
  }

  lemma Logs(l: Layout, s: State, p: nat, b: int, v: Block) returns (t: State)
    requires MayWrite(l, s, p, b) && |s.lh| < LOGSIZE && |s.lh| < l.size - 1 && s.outstanding >= 1
    ensures Take(l, s, Write(p, b, v)) == Next(t) && t.lh == Absorb(s.lh, b) && t.outstanding == s.outstanding && t.disk == s.disk
    ensures t.durable == s.durable && t.hist == s.hist + [Put(p, b, v)] && |t.ops| == |s.ops| && t.ops[p].Inside?
    ensures forall q :: 0 <= q < |s.ops| && q != p ==> t.ops[q] == s.ops[q]
  {
    t := LogWrite(l, s, p, b, v).s;
  }

  lemma TwoLogged(l: Layout, s: State, p: nat, b: int, v: Block, q: nat, c: int, w: Block) returns (t: State)
    requires s.lh == [] && s.outstanding == 2 && p < |s.ops| && q < |s.ops| && p != q && s.ops[p] == s.ops[q] == Inside(0)
    requires l.Home(b) && l.Home(c) && l.size > 2
    ensures Exec(l, s, [Write(p, b, v)] + ([Write(q, c, w)] + [])) == Next(t) && t.outstanding == 2
    ensures t.lh == (if b == c then [b] else [b, c]) && |t.ops| == |s.ops| && t.ops[p].Inside? && t.ops[q].Inside?
    ensures t.hist == s.hist + [Put(p, b, v)] + [Put(q, c, w)] && t.disk == s.disk && t.durable == s.durable
  {
    var a := Logs(l, s, p, b, v);
    t := Logs(l, a, q, c, w);
    ExecTwo(l, s, Write(p, b, v), a, Write(q, c, w), t, []);
  }

  lemma TwoWrite(l: Layout, d: Disk, s: State, p: nat, b: int, v: Block, q: nat, c: int, w: Block) returns (t: State)
    requires Inv(l, d, s) && s.lh == [] && s.outstanding == 2 && p < |s.ops| && q < |s.ops| && p != q && s.ops[p] == s.ops[q] == Inside(0)
    requires l.Home(b) && l.Home(c) && l.size > 2
    ensures Exec(l, s, [Write(p, b, v)] + ([Write(q, c, w)] + [])) == Next(t) && Inv(l, d, t) && t.outstanding == 2
    ensures t.lh == (if b == c then [b] else [b, c]) && |t.ops| == |s.ops| && t.ops[p].Inside? && t.ops[q].Inside?
    ensures t.hist == s.hist + [Put(p, b, v)] + [Put(q, c, w)] && t.disk == s.disk && t.durable == s.durable
  {
    t := TwoLogged(l, s, p, b, v, q, c, w);
    ExecKeeps(l, d, s, [Write(p, b, v)] + ([Write(q, c, w)] + []));
  }

  lemma OneEnds(l: Layout, d: Disk, s: State, p: nat) returns (t: State)
    requires Inv(l, d, s) && p < |s.ops| && s.ops[p].Inside? && s.outstanding == 2
    ensures Exec(l, s, [End(p)]) == Next(t) && Inv(l, d, t)
    ensures t == s.(outstanding := 1, ops := s.ops[p := Outside], hist := s.hist + [Ended(p)])
  {
    OpsBounds(s.ops);
    StepKeeps(l, d, s, End(p));
    t := EndOp(s, p).s;
    assert [End(p)][1..] == [];
  }

  lemma {:induction false} ExecMore(l: Layout, s: State, xs: seq<Step>, t: State, ys: seq<Step>)
    requires Exec(l, s, xs) == Next(t)
    ensures Exec(l, s, xs + ys) == Exec(l, t, ys)
    decreases |xs|
  {
    if xs == [] {
      assert xs + ys == ys;
    } else {
      assert (xs + ys)[0] == xs[0] && (xs + ys)[1..] == xs[1..] + ys;
      ExecMore(l, Take(l, s, xs[0]).s, xs[1..], t, ys);
    }
  }

  lemma ViewTwo(d: Disk, hist: seq<Event>, p: nat, b: int, v: Block, q: nat, c: int, w: Block)
    requires 0 <= b < |d| && 0 <= c < |d|
    ensures View(d, hist + [Began(p)] + [Began(q)] + [Put(p, b, v)] + [Put(q, c, w)] + [Ended(p)] + [Ended(q)]) == View(d, hist)[b := v][c := w]
  {
    var h := hist + [Began(p)] + [Began(q)];
    ViewNext(d, hist, Began(p));
    ViewNext(d, hist + [Began(p)], Began(q));
    ViewNext(d, h, Put(p, b, v));
    ViewNext(d, h + [Put(p, b, v)], Put(q, c, w));
    ViewNext(d, h + [Put(p, b, v)] + [Put(q, c, w)], Ended(p));
    ViewNext(d, h + [Put(p, b, v)] + [Put(q, c, w)] + [Ended(p)], Ended(q));
  }

  lemma TwoOperations(l: Layout, d: Disk, s: State, p: nat, b: int, v: Block, q: nat, c: int, w: Block) returns (xs: seq<Step>, m: State)
    requires Inv(l, d, s) && s.phase.Running? && s.outstanding == 0 && p < |s.ops| && q < |s.ops| && p != q
    requires l.Home(b) && l.Home(c) && l.size > 2
    ensures Exec(l, s, xs + [End(p)]) == Next(m) && Inv(l, d, m) && m.disk == s.disk && m.durable == s.durable
    ensures m.outstanding == 1 && q < |m.ops| && m.ops[q].Inside? && m.lh == if b == c then [b] else [b, c]
    ensures m.hist == s.hist + [Began(p)] + [Began(q)] + [Put(p, b, v)] + [Put(q, c, w)] + [Ended(p)]
  {
    var begins, writes := [Begin(p)] + ([Begin(q)] + []), [Write(p, b, v)] + ([Write(q, c, w)] + []);
    var e := TwoBegin(l, d, s, p, q);
    var f := TwoWrite(l, d, e, p, b, v, q, c, w);
    m := OneEnds(l, d, f, p);
    ExecMore(l, s, begins, e, writes);
    ExecMore(l, s, begins + writes, f, [End(p)]);
    xs := begins + writes;
  }

  /** Group commit: of two operations that overlap, the one that ends first commits nothing, and the end of the other
      brings both home, in the order of their writes. */
  lemma GroupCommit(l: Layout, d: Disk, s: State, p: nat, b: int, v: Block, q: nat, c: int, w: Block) returns (xs: seq<Step>, m: State, n: nat)
    requires Reachable(l, d, s) && s.phase.Running? && s.outstanding == 0 && p < |s.ops| && q < |s.ops| && p != q
    requires l.Home(b) && l.Home(c) && l.size > 2
    ensures Exec(l, s, xs + [End(p)]) == Next(m) && m.disk == s.disk && m.durable == s.durable
    ensures Exec(l, m, [End(q)] + DiskSteps(n)).Next? && |s.disk| == l.total
    ensures var t := Exec(l, m, [End(q)] + DiskSteps(n)).s;
      AllHome(l, d, t) && forall a :: l.Home(a) ==> t.disk[a] == if a == c then w else if a == b then v else s.disk[a]
  {
    ReachableInv(l, d, s);
    IdleHome(l, d, s);
    xs, m := TwoOperations(l, d, s, p, b, v, q, c, w);
    n := 2 * |m.lh| + 5;
    LastEnd(l, d, m, q, n);
    ViewTwo(d, s.hist, p, b, v, q, c, w);
  }

  /** And after a crash, recovery brings home what was durable. */
  lemma RecoveryCompletes(l: Layout, d: Disk, s: State, n: nat)
    requires Reachable(l, d, s) && n == Listed(l, s) + 3
    ensures Exec(l, s, [Crash] + DiskSteps(n)).Next?
    ensures var t := Exec(l, s, [Crash] + DiskSteps(n)).s; AllHome(l, d, t) && s.durable <= |s.hist| && t.hist == s.hist[..s.durable]
  {
    ReachableInv(l, d, s);
    CrashKeeps(l, d, s);
    var c := Crashed(s).s;
    Completes(l, d, c, n);
    assert ([Crash] + DiskSteps(n))[1..] == DiskSteps(n);
    IdleHome(l, d, Exec(l, c, DiskSteps(n)).s);
  }

  /** Then a new operation can begin: nobody waits for log space for ever. */
  lemma IdleBegins(l: Layout, d: Disk, s: State, p: nat)
    requires Reachable(l, d, s) && s.phase.Running? && s.outstanding == 0 && p < |s.ops|
    ensures BeginOp(s, p).Next?
  {
    ReachableInv(l, d, s);
    OpsBounds(s.ops);
  }

  /** The protocol of begin_op, log_write and end_op: a commit never overlaps an
      operation, log space is never promised twice, no block is logged twice. */
  lemma LogProtocol(l: Layout, d: Disk, s: State)
    requires Reachable(l, d, s)
    ensures s.committing ==> s.outstanding == 0 && forall p :: 0 <= p < |s.ops| ==> s.ops[p].Outside?
    ensures |s.lh| + Reserve(s.ops) <= LOGSIZE
    ensures Distinct(s.lh)
    ensures forall p :: EndOp(s, p) != Panic
  {
    ReachableInv(l, d, s);
    OpsBounds(s.ops);
  }

  /** A write that adds a block within its operation's budget is always accepted
      if the log has a slot for each of the LOGSIZE blocks that begin_op hands out. */
  lemma BudgetSuffices(l: Layout, d: Disk, s: State, p: nat, b: int, v: Block)
    requires Reachable(l, d, s) && l.size > LOGSIZE
    requires MayWrite(l, s, p, b) && s.ops[p].spent < MAXOPBLOCKS
    ensures LogWrite(l, s, p, b, v).Next?
  {
    ReachableInv(l, d, s);
    ReserveAtLeast(s.ops, p);
    OpsBounds(s.ops);
  }

  // With fewer slots, as mkfs lays the log out, or for a rewrite when every
  // block is taken, the guard of log_write does fail.

  /** Three operations; operation `j / 10` writes block `bs[j]`. */
  function Filling(bs: seq<int>, v: Block): (steps: seq<Step>) {
    [Begin(0), Begin(1), Begin(2)] + seq(|bs|, j requires 0 <= j < |bs| => Write(j / 10, bs[j], v))
  }

  function Share(j: int, p: int): (k: nat) {
    if j <= OpSpace(p) then 0 else if j >= OpSpace(p + 1) then MAXOPBLOCKS else j - OpSpace(p)
  }

  lemma ExecThen(l: Layout, s: State, xs: seq<Step>, x: Step)
    requires Exec(l, s, xs).Next?
    ensures Exec(l, s, xs + [x]) == Take(l, Exec(l, s, xs).s, x)
    decreases |xs|
  {
    if xs == [] {
      assert [x][1..] == [];
    } else {
      assert (xs + [x])[1..] == xs[1..] + [x];
      ExecThen(l, Take(l, s, xs[0]).s, xs[1..], x);
    }
  }

  /** Three operations have logged exactly these blocks, ten each. */
  predicate Filled(s: State, bs: seq<int>) {
    s.lh == bs && s.outstanding == 3 && |s.ops| == 3 && forall p :: 0 <= p < 3 ==> s.ops[p] == Inside(Share(|bs|, p))
  }

  lemma ThreeBegin(l: Layout, d: Disk, v: Block)
    requires Clean(l, d)
    ensures Exec(l, Init(d, 3), Filling([], v)).Next? && Filled(Exec(l, Init(d, 3), Filling([], v)).s, [])
  {
    var i := Init(d, 3);
    ExecThen(l, i, [], Begin(0));
    ExecThen(l, i, [Begin(0)], Begin(1));
    ExecThen(l, i, [Begin(0)] + [Begin(1)], Begin(2));
    assert Filling([], v) == [Begin(0)] + [Begin(1)] + [Begin(2)];
    assert [] + [Begin(0)] == [Begin(0)];
  }

  lemma FillNext(l: Layout, s: State, bs: seq<int>, b: int, v: Block)
    requires ValidHeader(l, bs + [b]) && Filled(s, bs)
    ensures var r := Take(l, s, Write(|bs| / 10, b, v)); r.Next? && Filled(r.s, bs + [b])
  {
    var all := bs + [b];
    assert l.Home(all[|bs|]);
    forall i | 0 <= i < |bs| ensures bs[i] != b {
      assert all[i] != all[|bs|];
    }
  }

  lemma {:induction false} FillingReaches(l: Layout, d: Disk, bs: seq<int>, v: Block)
    requires Clean(l, d) && ValidHeader(l, bs)
    ensures Exec(l, Init(d, 3), Filling(bs, v)).Next? && Filled(Exec(l, Init(d, 3), Filling(bs, v)).s, bs)
    decreases |bs|
  {
    var i := Init(d, 3);
    if bs == [] {
      ThreeBegin(l, d, v);
    } else {
      var n := |bs| - 1;
      FillingReaches(l, d, bs[..n], v);
      var last := Write(n / 10, bs[n], v);
      assert Filling(bs, v) == Filling(bs[..n], v) + [last];
      ExecThen(l, i, Filling(bs[..n], v), last);
      assert bs == bs[..n] + [bs[n]];
      FillNext(l, Exec(l, i, Filling(bs[..n], v)).s, bs[..n], bs[n], v);
    }
  }

  /** The accepted writes within budget are exactly those of a log with more than
      LOGSIZE blocks: a smaller one reaches a state that refuses such a write. */
  lemma SmallLogRefuses(l: Layout, d: Disk, bs: seq<int>, b: int, v: Block) returns (s: State, p: nat)
    requires Clean(l, d) && l.size <= LOGSIZE
    requires |bs| == l.size - 1 && ValidHeader(l, bs) && l.Home(b) && b !in bs
    ensures Reachable(l, d, s) && MayWrite(l, s, p, b) && s.ops[p].spent < MAXOPBLOCKS
    ensures LogWrite(l, s, p, b, v) == Panic
  {
    FillingReaches(l, d, bs, v);
    s := Exec(l, Init(d, 3), Filling(bs, v)).s;
    p := |bs| / 10;
  }

  /** Even in a large enough log, a full transaction refuses to absorb a rewrite. */
  lemma FullLogRefusesRewrite(l: Layout, d: Disk, bs: seq<int>, v: Block) returns (s: State)
    requires Clean(l, d) && l.size > LOGSIZE
    requires |bs| == LOGSIZE && ValidHeader(l, bs)
    ensures Reachable(l, d, s) && MayWrite(l, s, 0, bs[0])
    ensures LogWrite(l, s, 0, bs[0], v) == Panic
  {
    FillingReaches(l, d, bs, v);
    s := Exec(l, Init(d, 3), Filling(bs, v)).s;
  }
}
