/** The pipes of kernel/pipe.c: a ring of PIPESIZE bytes between two 32-bit counters that wrap
    around, and the readers and writers that sleep on it, in every interleaving of any number of
    processes. The steps of one process between acquire and release are taken one byte at a time. */
module Pipe {

  const PIPESIZE := 512

  type Byte = x: int | 0 <= x < 256

  /** A uint. */
  function Uint(x: int): (r: int) {
    x % 0x1_0000_0000
  }

  // The ring.

  datatype Ring = Ring(data: seq<Byte>, nread: int, nwrite: int)

  /** pi->nwrite == pi->nread + PIPESIZE */
  predicate Full(r: Ring) {
    r.nwrite == Uint(r.nread + 512)
  }

  predicate Empty(r: Ring) {
    r.nread == r.nwrite
  }

  /** pi->data[pi->nwrite++ % PIPESIZE] = ch */
  function Put(r: Ring, b: Byte): (s: Ring)
    requires |r.data| == PIPESIZE && 0 <= r.nwrite
  {
    Ring(r.data[r.nwrite % 512 := b], r.nread, Uint(r.nwrite + 1))
  }

  /** pi->data[pi->nread++ % PIPESIZE] */
  function Front(r: Ring): (b: Byte)
    requires |r.data| == PIPESIZE && 0 <= r.nread
  {
    r.data[r.nread % 512]
  }

  function Take(r: Ring): (s: Ring) {
    r.(nread := Uint(r.nread + 1))
  }

  /** All bytes ever put are `sent`; the first `taken` of them have been taken again. The rest are
      in the ring, at most PIPESIZE of them. */
  ghost predicate Holds(r: Ring, sent: seq<Byte>, taken: nat) {
    && |r.data| == PIPESIZE && taken <= |sent| <= taken + PIPESIZE
    && r.nread == Uint(taken) && r.nwrite == Uint(|sent|)
    && forall i :: taken <= i < |sent| ==> r.data[i % 512] == sent[i]
  }

  /** The counters tell full and empty apart, whatever they have wrapped to. */
  lemma Counters(r: Ring, sent: seq<Byte>, taken: nat)
    requires Holds(r, sent, taken)
    ensures Full(r) <==> |sent| == taken + PIPESIZE
    ensures Empty(r) <==> |sent| == taken
    ensures 0 <= r.nread < 0x1_0000_0000 && 0 <= r.nwrite < 0x1_0000_0000
    ensures Uint(r.nwrite - r.nread) == |sent| - taken
  {
  }

  lemma SameSlot(i: nat)
    ensures Uint(i) % 512 == i % 512 && Uint(Uint(i) + 1) == Uint(i + 1)
  {
    var q := i / 0x1_0000_0000;
    assert i == 512 * (q * 0x80_0000) + Uint(i);
    SameMod(i, q * 0x80_0000, Uint(i));
    NextUint(i, q);
  }

  lemma SameMod(x: int, q: int, y: int)
    requires x == 512 * q + y
    ensures x % 512 == y % 512
  {
  }

  lemma NextUint(i: nat, q: int)
    requires i == 0x1_0000_0000 * q + Uint(i)
    ensures Uint(Uint(i) + 1) == Uint(i + 1)
  {
  }

  lemma OtherSlot(i: nat, j: nat)
    requires i < j < i + 512
    ensures i % 512 != j % 512
  {
  }

  lemma PutHolds(r: Ring, sent: seq<Byte>, taken: nat, b: Byte)
    requires Holds(r, sent, taken) && !Full(r)
    ensures Holds(Put(r, b), sent + [b], taken)
  {
    Counters(r, sent, taken);
    SameSlot(|sent|);
    forall i | taken <= i < |sent| + 1 ensures Put(r, b).data[i % 512] == (sent + [b])[i] {
      if i < |sent| {
        OtherSlot(i, |sent|);
      }
    }
  }

  /** What comes out is the byte that went in first of those that are left. */
  lemma TakeHolds(r: Ring, sent: seq<Byte>, taken: nat)
    requires Holds(r, sent, taken) && !Empty(r)
    ensures taken < |sent| && Front(r) == sent[taken] && Holds(Take(r), sent, taken + 1)
  {
    Counters(r, sent, taken);
    SameSlot(taken);
  }

  /** The ring in place, and the two loops over it while nobody has to sleep. */
  class Buffer {
    const data: array<Byte>
    var nread: int
    var nwrite: int
    ghost var sent: seq<Byte>
    ghost var taken: nat

    ghost function R(): (r: Ring)
      reads this, data
    {
      Ring(data[..], nread, nwrite)
    }

    ghost predicate Valid()
      reads this, data
    {
      Holds(R(), sent, taken)
    }

    constructor ()
      ensures Valid() && fresh(data) && sent == [] && taken == 0
    {
      data := new Byte[PIPESIZE](_ => 0);
      nread, nwrite, sent, taken := 0, 0, [], 0;
    }

    /** pipewrite until it is done or the pipe is full: `i` bytes of `buf` are in the pipe. */
    method PutSome(buf: seq<Byte>, from: nat) returns (i: nat)
      requires Valid() && from <= |buf|
      modifies this, data
      ensures Valid() && from <= i <= |buf| && taken == old(taken) && sent == old(sent) + buf[from..i]
      ensures i == |buf| || |sent| == taken + PIPESIZE
    {
      i := from;
      while i < |buf|
        invariant Valid() && from <= i <= |buf| && taken == old(taken) && sent == old(sent) + buf[from..i]
      {
        Counters(R(), sent, taken);
        if nwrite == Uint(nread + PIPESIZE) {
          return;
        }
        PutHolds(R(), sent, taken, buf[i]);
        ghost var r := Put(R(), buf[i]);
        data[nwrite % PIPESIZE] := buf[i];
        nwrite := Uint(nwrite + 1);
        assert R() == r;
        sent := sent + [buf[i]];
        i := i + 1;
      }
    }

    /** The copy loop of piperead: up to `n` bytes, the oldest first. */
    method TakeSome(n: nat) returns (got: seq<Byte>)
      requires Valid()
      modifies this
      ensures Valid() && sent == old(sent) && taken == old(taken) + |got| && |got| <= n
      ensures got == sent[old(taken)..taken]
      ensures |got| == n || taken == |sent|
    {
      got := [];
      while |got| < n
        invariant Valid() && sent == old(sent) && taken == old(taken) + |got| && |got| <= n && got == sent[old(taken)..taken]
      {
        Counters(R(), sent, taken);
        if nread == nwrite {
          return;
        }
        TakeHolds(R(), sent, taken);
        got := got + [data[nread % PIPESIZE]];
        nread := Uint(nread + 1);
        taken := taken + 1;
      }
    }
  }

  // Readers and writers.

  const NONE: int := -1

  /** Where a process is. Only one that holds the lock is at Writing, Waiting or Reading. Once it has `tested` that it is not
      killed, it goes on without looking again. */
  datatype Pc =
    | Outside
    | Writing(buf: seq<Byte>, i: nat, told: nat, tested: bool) // pipewrite, with buf[..i] in the pipe and readers woken for buf[..told]
    | WriterAsleep(buf: seq<Byte>, i: nat, woken: bool)
    | Waiting(n: nat, tested: bool)              // piperead, before the copy loop
    | ReaderAsleep(n: nat, woken: bool)
    | Reading(n: nat, start: nat, got: seq<Byte>)  // in the copy loop since byte number `start`

  datatype Proc = Proc(pc: Pc, killed: bool)

  /** A call of piperead that is over: it got these bytes, from byte number `start` on, and took
      one more that it could not deliver if `spilt`. */
  datatype Read = Read(start: nat, got: seq<Byte>, spilt: bool)

  /** `sent`, `taken` and `calls` record what has happened; `strayed` is whether a writer has left
      without a wakeup after putting bytes, and since then the readers have not been woken and the
      pipe has not been empty. */
  datatype State = State(ring: Ring, readopen: bool, writeopen: bool, lock: int, procs: seq<Proc>,
                         sent: seq<Byte>, taken: nat, calls: seq<Read>, strayed: bool)

  datatype Step =
    | Write(p: nat, buf: seq<Byte>)   // acquire in pipewrite
    | Test(p: nat)                    // the pipe is open at the other end, and killed() says no
    | Leave(p: nat)                   // the pipe is closed for reading, or the writer killed: return -1
    | PutByte(p: nat)
    | SleepWriter(p: nat)             // the pipe is full: wake the readers and sleep
    | EndWrite(p: nat, fault: bool)   // all written, or copyin fails: wake the readers, release
    | Read0(p: nat, n: nat)           // acquire in piperead
    | SleepReader(p: nat)             // the pipe is empty and open for writing
    | GiveUp(p: nat)                  // the same, and the reader killed: return -1
    | StartCopy(p: nat)
    | TakeByte(p: nat, fault: bool)   // copyout fails: one byte is spilt
    | EndRead(p: nat)
    | Resume(p: nat)                  // a woken process acquires the lock again
    | Close(writable: bool)           // pipeclose
    | Kill(p: nat)

  datatype Outcome = Next(s: State) | Blocked

  function WakeReader(x: Proc): (y: Proc) {
    if x.pc.ReaderAsleep? then x.(pc := ReaderAsleep(x.pc.n, true)) else x
  }

  function WakeWriter(x: Proc): (y: Proc) {
    if x.pc.WriterAsleep? then x.(pc := WriterAsleep(x.pc.buf, x.pc.i, true)) else x
  }

  /** wakeup(&pi->nread) */
  function WakeReaders(procs: seq<Proc>): (r: seq<Proc>)
    ensures |r| == |procs|
  {
    seq(|procs|, i requires 0 <= i < |procs| => WakeReader(procs[i]))
  }

  function WakeWriters(procs: seq<Proc>): (r: seq<Proc>)
    ensures |r| == |procs|
  {
    seq(|procs|, i requires 0 <= i < |procs| => WakeWriter(procs[i]))
  }

  function At(s: State, p: nat, pc: Pc): (t: State)
    requires p < |s.procs|
  {
    s.(procs := s.procs[p := s.procs[p].(pc := pc)])
  }

  /** Process `p` wakes the readers, goes to `pc` and releases the lock. */
  function LeaveToReaders(s: State, p: nat, pc: Pc): (t: State)
    requires p < |s.procs|
  {
    At(s.(procs := WakeReaders(s.procs), strayed := false, lock := NONE), p, pc)
  }

  function LeaveToWriters(s: State, p: nat, pc: Pc): (t: State)
    requires p < |s.procs|
  {
    At(s.(procs := WakeWriters(s.procs), lock := NONE), p, pc)
  }

  predicate Quits(s: State, x: Proc) {
    !s.readopen || x.killed
  }

  predicate Shape(s: State) {
    |s.ring.data| == PIPESIZE && 0 <= s.ring.nread && 0 <= s.ring.nwrite
  }

  function ApplyWrite(s: State, step: Step, p: nat): (r: Outcome)
    requires p < |s.procs| && Shape(s)
  {
    var x := s.procs[p];
    match step
    case Write(_, buf) => if x.pc == Outside && s.lock == NONE then Next(At(s, p, Writing(buf, 0, 0, false)).(lock := p)) else Blocked
    case Leave(_) =>
      if x.pc.Writing? && x.pc.i < |x.pc.buf| && !x.pc.tested && Quits(s, x) then
        Next(At(s, p, Outside).(lock := NONE, strayed := s.strayed || x.pc.told < x.pc.i))
      else Blocked
    case PutByte(_) =>
      if x.pc.Writing? && x.pc.i < |x.pc.buf| && x.pc.tested && !Full(s.ring) then
        var b := x.pc.buf[x.pc.i];
        Next(At(s, p, Writing(x.pc.buf, x.pc.i + 1, x.pc.told, false)).(ring := Put(s.ring, b), sent := s.sent + [b]))
      else Blocked
    case SleepWriter(_) =>
      if x.pc.Writing? && x.pc.i < |x.pc.buf| && x.pc.tested && Full(s.ring) then
        Next(LeaveToReaders(s, p, WriterAsleep(x.pc.buf, x.pc.i, false)))
      else Blocked
    case EndWrite(_, fault) =>
      if x.pc.Writing? && (if x.pc.i < |x.pc.buf| then fault && x.pc.tested && !Full(s.ring) else !fault) then
        Next(LeaveToReaders(s, p, Outside))
      else Blocked
    case _ => Blocked
  }

  function ApplyRead(s: State, step: Step, p: nat): (r: Outcome)
    requires p < |s.procs| && Shape(s)
  {
    var x := s.procs[p];
    match step
    case Read0(_, n) => if x.pc == Outside && s.lock == NONE then Next(At(s, p, Waiting(n, false)).(lock := p)) else Blocked
    case SleepReader(_) =>
      if x.pc.Waiting? && x.pc.tested then
        Next(At(s, p, ReaderAsleep(x.pc.n, false)).(lock := NONE))
      else Blocked
    case GiveUp(_) =>
      if x.pc.Waiting? && !x.pc.tested && Empty(s.ring) && s.writeopen && x.killed then Next(At(s, p, Outside).(lock := NONE)) else Blocked
    case StartCopy(_) =>
      if x.pc.Waiting? && !x.pc.tested && !(Empty(s.ring) && s.writeopen) then Next(At(s, p, Reading(x.pc.n, s.taken, []))) else Blocked
    case TakeByte(_, fault) =>
      if x.pc.Reading? && |x.pc.got| < x.pc.n && !Empty(s.ring) then
        var t := s.(ring := Take(s.ring), taken := s.taken + 1, strayed := s.strayed && !Empty(Take(s.ring)));
        if fault then Next(LeaveToWriters(t, p, Outside).(calls := s.calls + [Read(x.pc.start, x.pc.got, true)]))
        else Next(At(t, p, Reading(x.pc.n, x.pc.start, x.pc.got + [Front(s.ring)])))
      else Blocked
    case EndRead(_) =>
      if x.pc.Reading? && (|x.pc.got| >= x.pc.n || Empty(s.ring)) then
        Next(LeaveToWriters(s, p, Outside).(calls := s.calls + [Read(x.pc.start, x.pc.got, false)]))
      else Blocked
    case _ => Blocked
  }

  predicate OfWriter(step: Step) {
    step.Write? || step.Leave? || step.PutByte? || step.SleepWriter? || step.EndWrite?
  }

  predicate OfBoth(step: Step) {
    step.Close? || step.Kill? || step.Resume? || step.Test?
  }

  function ApplyOther(s: State, step: Step): (r: Outcome) {
    match step
    case Close(writable) =>
      if s.lock != NONE then Blocked
      else if writable then Next(s.(writeopen := false, procs := WakeReaders(s.procs), strayed := false))
      else Next(s.(readopen := false, procs := WakeWriters(s.procs)))
    case Kill(p) =>
      if p < |s.procs| then Next(s.(procs := s.procs[p := WakeReader(WakeWriter(s.procs[p])).(killed := true)])) else Blocked
    case Test(p) =>
      if p < |s.procs| then
        match s.procs[p].pc
        case Writing(buf, i, told, false) =>
          if i < |buf| && !Quits(s, s.procs[p]) then Next(At(s, p, Writing(buf, i, told, true))) else Blocked
        case Waiting(n, false) =>
          if Empty(s.ring) && s.writeopen && !s.procs[p].killed then Next(At(s, p, Waiting(n, true))) else Blocked
        case _ => Blocked
      else Blocked
    case Resume(p) =>
      if p < |s.procs| && s.lock == NONE then
        match s.procs[p].pc
        case WriterAsleep(buf, i, true) => Next(At(s, p, Writing(buf, i, i, false)).(lock := p))
        case ReaderAsleep(n, true) => Next(At(s, p, Waiting(n, false)).(lock := p))
        case _ => Blocked
      else Blocked
    case _ => Blocked
  }

  function Apply(s: State, step: Step): (r: Outcome)
    requires Shape(s)
  {
    if OfBoth(step) then ApplyOther(s, step)
    else if step.p >= |s.procs| then Blocked
    else if OfWriter(step) then ApplyWrite(s, step, step.p)
    else ApplyRead(s, step, step.p)
  }

  // The invariant.

  predicate HasLock(pc: Pc) {
    pc.Writing? || pc.Waiting? || pc.Reading?
  }

  /** The bytes from number `a` on are these. */
  predicate Segment(s: State, a: nat, bytes: seq<Byte>) {
    a + |bytes| <= s.taken <= |s.sent| && bytes == s.sent[a..a + |bytes|]
  }

  predicate ProcOk(s: State, p: nat)
    requires p < |s.procs|
  {
    var pc := s.procs[p].pc;
    && (s.lock == p <==> HasLock(pc))
    && (pc.Writing? ==> pc.told <= pc.i <= |pc.buf| && s.taken + pc.i - pc.told <= |s.sent|)
    && (pc.WriterAsleep? ==> pc.i <= |pc.buf|)
    && (pc.Writing? && pc.tested ==> s.readopen && pc.i < |pc.buf|)
    && (pc.Waiting? && pc.tested ==> s.writeopen && |s.sent| == s.taken)
    && (pc.Reading? ==> Segment(s, pc.start, pc.got) && pc.start + |pc.got| == s.taken)
  }

  /** A writer that holds the lock has put bytes that it has not woken the readers for yet. */
  predicate Untold(s: State) {
    0 <= s.lock < |s.procs| && s.procs[s.lock].pc.Writing? && s.procs[s.lock].pc.told < s.procs[s.lock].pc.i
  }

  /** A process that sleeps has reason to, unless the one that holds the lock is about to wake it,
      or a writer has strayed. */
  predicate SleepOk(s: State, p: nat)
    requires p < |s.procs|
  {
    var pc := s.procs[p].pc;
    && (pc.ReaderAsleep? && !pc.woken ==> s.writeopen && (|s.sent| == s.taken || s.strayed || Untold(s)))
    && (pc.WriterAsleep? && !pc.woken ==>
          (|s.sent| == s.taken + PIPESIZE && s.readopen) || (0 <= s.lock < |s.procs| && s.procs[s.lock].pc.Reading?))
  }

  ghost predicate ReadsOk(s: State) {
    && (forall k :: 0 <= k < |s.calls| ==> Segment(s, s.calls[k].start, s.calls[k].got))
    && (forall k :: 0 <= k < |s.calls| - 1 ==> ReadEnd(s.calls[k]) == s.calls[k + 1].start)
    && (|s.calls| > 0 ==> s.calls[0].start == 0)
    && Awaited(s) == Reached(s)
  }

  function ReadEnd(r: Read): (n: nat) {
    r.start + |r.got| + (if r.spilt then 1 else 0)
  }

  ghost predicate Inv(s: State) {
    && Shape(s) && Holds(s.ring, s.sent, s.taken) && NONE <= s.lock < |s.procs|
    && (s.strayed ==> s.taken < |s.sent|)
    && (forall p :: 0 <= p < |s.procs| ==> ProcOk(s, p) && SleepOk(s, p))
    && ReadsOk(s)
  }

  // Every step keeps it.

  /** Only two steps touch the ring. */
  lemma RingMoves(s: State, step: Step)
    requires Shape(s) && Apply(s, step).Next?
    ensures var t := Apply(s, step).s;
         match step
         case PutByte(p) => p < |s.procs| && s.procs[p].pc.Writing? && s.procs[p].pc.i < |s.procs[p].pc.buf| && !Full(s.ring)
           && t.taken == s.taken && t.sent == s.sent + [s.procs[p].pc.buf[s.procs[p].pc.i]]
           && t.ring == Put(s.ring, s.procs[p].pc.buf[s.procs[p].pc.i])
         case TakeByte(_, _) => !Empty(s.ring) && t.taken == s.taken + 1 && t.sent == s.sent && t.ring == Take(s.ring)
         case _ => t.ring == s.ring && t.taken == s.taken && t.sent == s.sent
  {
  }

  lemma LockMoves(s: State, step: Step)
    requires Shape(s) && Apply(s, step).Next?
    ensures var t := Apply(s, step).s; |t.procs| == |s.procs| && (t.lock == NONE || t.lock == s.lock || 0 <= t.lock < |s.procs|)
  {
    if !OfBoth(step) {
      assert Apply(s, step) == if OfWriter(step) then ApplyWrite(s, step, step.p) else ApplyRead(s, step, step.p);
    }
  }

  lemma RingKeeps(s: State, step: Step)
    requires Inv(s) && Apply(s, step).Next?
    ensures var t := Apply(s, step).s;
      Holds(t.ring, t.sent, t.taken) && Shape(t) && NONE <= t.lock < |t.procs| && |t.procs| == |s.procs|
  {
    RingMoves(s, step);
    LockMoves(s, step);
    var t := Apply(s, step).s;
    if step.PutByte? {
      PutHolds(s.ring, s.sent, s.taken, s.procs[step.p].pc.buf[s.procs[step.p].pc.i]);
    } else if step.TakeByte? {
      TakeHolds(s.ring, s.sent, s.taken);
    }
    Counters(t.ring, t.sent, t.taken);
  }

  /** Bytes that nobody has been woken for are still there. */
  lemma StrayKeeps(s: State, step: Step)
    requires Inv(s) && Apply(s, step).Next?
    ensures var t := Apply(s, step).s; t.strayed ==> t.taken < |t.sent|
  {
    RingMoves(s, step);
    RingKeeps(s, step);
    var t := Apply(s, step).s;
    Counters(t.ring, t.sent, t.taken);
    if step.Leave? {
      assert ProcOk(s, step.p);
    }
  }

  /** What was a part of `sent` stays one. */
  lemma SegmentStays(s: State, t: State, a: nat, bytes: seq<Byte>)
    requires Segment(s, a, bytes) && s.sent <= t.sent && s.taken <= t.taken <= |t.sent|
    ensures Segment(t, a, bytes)
  {
    assert t.sent[a..a + |bytes|] == s.sent[a..a + |bytes|];
  }

  lemma SegmentGrows(s: State, t: State, a: nat, bytes: seq<Byte>)
    requires Segment(s, a, bytes) && a + |bytes| == s.taken < |s.sent| && t.sent == s.sent && t.taken == s.taken + 1
    ensures Segment(t, a, bytes + [s.sent[s.taken]])
  {
    assert s.sent[a..a + |bytes| + 1] == s.sent[a..a + |bytes|] + [s.sent[s.taken]];
  }

  lemma WriterProc(s: State, step: Step, q: nat)
    requires Inv(s) && OfWriter(step) && Apply(s, step).Next? && q < |s.procs|
    ensures var t := Apply(s, step).s; |t.procs| == |s.procs| && ProcOk(t, q) && SleepOk(t, q)
  {
    Counters(s.ring, s.sent, s.taken);
    assert ProcOk(s, q) && SleepOk(s, q) && ProcOk(s, step.p);
  }

  lemma TakeProc(s: State, step: Step, q: nat)
    requires Inv(s) && step.TakeByte? && Apply(s, step).Next? && q < |s.procs|
    ensures var t := Apply(s, step).s; |t.procs| == |s.procs| && ProcOk(t, q) && SleepOk(t, q)
  {
    assert ProcOk(s, q) && SleepOk(s, q) && ProcOk(s, step.p);
    TakeHolds(s.ring, s.sent, s.taken);
    if step.fault {
      TakeFaultProc(s, step, q);
    } else {
      TakeMoreProc(s, step, q);
    }
  }

  lemma TakeFaultProc(s: State, step: Step, q: nat)
    requires Shape(s) && step.TakeByte? && step.fault && Apply(s, step).Next? && q < |s.procs|
    requires s.taken < |s.sent| && Holds(Take(s.ring), s.sent, s.taken + 1)
    requires ProcOk(s, q) && SleepOk(s, q) && ProcOk(s, step.p)
    ensures var t := Apply(s, step).s; |t.procs| == |s.procs| && ProcOk(t, q) && SleepOk(t, q)
  {
    Counters(Take(s.ring), s.sent, s.taken + 1);
  }

  lemma TakeMoreProc(s: State, step: Step, q: nat)
    requires Shape(s) && step.TakeByte? && !step.fault && Apply(s, step).Next? && q < |s.procs|
    requires Holds(s.ring, s.sent, s.taken) && s.taken < |s.sent| && Front(s.ring) == s.sent[s.taken] && Holds(Take(s.ring), s.sent, s.taken + 1)
    requires ProcOk(s, q) && SleepOk(s, q) && ProcOk(s, step.p)
    ensures var t := Apply(s, step).s; |t.procs| == |s.procs| && ProcOk(t, q) && SleepOk(t, q)
  {
    Counters(Take(s.ring), s.sent, s.taken + 1);
    SegmentGrows(s, Apply(s, step).s, s.procs[step.p].pc.start, s.procs[step.p].pc.got);
  }

  lemma ReaderProc(s: State, step: Step, q: nat)
    requires Inv(s) && !OfWriter(step) && !step.TakeByte? && !OfBoth(step) && Apply(s, step).Next? && q < |s.procs|
    ensures var t := Apply(s, step).s; |t.procs| == |s.procs| && ProcOk(t, q) && SleepOk(t, q)
  {
    Counters(s.ring, s.sent, s.taken);
    assert ProcOk(s, q) && SleepOk(s, q) && ProcOk(s, step.p);
  }

  lemma CloseProc(s: State, step: Step, q: nat)
    requires Inv(s) && step.Close? && Apply(s, step).Next? && q < |s.procs|
    ensures var t := Apply(s, step).s; |t.procs| == |s.procs| && ProcOk(t, q) && SleepOk(t, q)
  {
    assert ProcOk(s, q) && SleepOk(s, q);
  }

  lemma KillProc(s: State, step: Step, q: nat)
    requires Inv(s) && step.Kill? && Apply(s, step).Next? && q < |s.procs|
    ensures var t := Apply(s, step).s; |t.procs| == |s.procs| && ProcOk(t, q) && SleepOk(t, q)
  {
    assert ProcOk(s, q) && SleepOk(s, q) && ProcOk(s, step.p);
    if s.lock != NONE {
      assert ProcOk(s, s.lock);
    }
  }

  lemma TestProc(s: State, step: Step, q: nat)
    requires Inv(s) && step.Test? && Apply(s, step).Next? && q < |s.procs|
    ensures var t := Apply(s, step).s; |t.procs| == |s.procs| && ProcOk(t, q) && SleepOk(t, q)
  {
    Counters(s.ring, s.sent, s.taken);
    assert ProcOk(s, q) && SleepOk(s, q) && ProcOk(s, step.p);
    if s.lock != NONE {
      assert ProcOk(s, s.lock);
    }
  }

  lemma ResumeProc(s: State, step: Step, q: nat)
    requires Inv(s) && step.Resume? && Apply(s, step).Next? && q < |s.procs|
    ensures var t := Apply(s, step).s; |t.procs| == |s.procs| && ProcOk(t, q) && SleepOk(t, q)
  {
    assert ProcOk(s, q) && SleepOk(s, q) && ProcOk(s, step.p);
  }

  /** Where the calls of piperead that are over end. */
  function Reached(s: State): (n: nat) {
    if s.calls == [] then 0 else ReadEnd(s.calls[|s.calls| - 1])
  }

  function Awaited(s: State): (n: nat) {
    if 0 <= s.lock < |s.procs| && s.procs[s.lock].pc.Reading? then s.procs[s.lock].pc.start else s.taken
  }

  predicate EndsCall(step: Step) {
    step.EndRead? || (step.TakeByte? && step.fault)
  }

  /** What a step that ends a call of piperead records. */
  ghost predicate EndRecorded(s: State, step: Step, t: State) {
    && EndsCall(step) && step.p < |s.procs| && s.procs[step.p].pc.Reading?
    && var r := Read(s.procs[step.p].pc.start, s.procs[step.p].pc.got, step.TakeByte?);
    t.calls == s.calls + [r] && r.start == Awaited(s) && Awaited(t) == ReadEnd(r) && Segment(s, r.start, r.got)
  }

  lemma EndMoves(s: State, step: Step)
    requires Inv(s) && EndsCall(step) && Apply(s, step).Next?
    ensures EndRecorded(s, step, Apply(s, step).s)
  {
    assert ProcOk(s, step.p);
  }

  lemma OtherMoves(s: State, step: Step)
    requires Inv(s) && !EndsCall(step) && !OfBoth(step) && Apply(s, step).Next?
    ensures Apply(s, step).s.calls == s.calls && Awaited(Apply(s, step).s) == Awaited(s)
  {
    assert ProcOk(s, step.p);
  }

  lemma BothMoves(s: State, step: Step)
    requires Inv(s) && OfBoth(step) && Apply(s, step).Next?
    ensures Apply(s, step).s.calls == s.calls && Awaited(Apply(s, step).s) == Awaited(s)
  {
    if s.lock != NONE {
      assert ProcOk(s, s.lock);
    }
    if !step.Close? {
      assert ProcOk(s, step.p);
    }
  }

  /** How a step changes what the readers have: a call ends, or nothing is recorded. */
  lemma CallsMove(s: State, step: Step)
    requires Inv(s) && Apply(s, step).Next?
    ensures var t := Apply(s, step).s;
      && s.sent <= t.sent && s.taken <= t.taken <= |t.sent|
      && (if EndsCall(step) then EndRecorded(s, step, t) else t.calls == s.calls && Awaited(t) == Awaited(s))
  {
    RingMoves(s, step);
    RingKeeps(s, step);
    if EndsCall(step) {
      EndMoves(s, step);
    } else if OfBoth(step) {
      BothMoves(s, step);
    } else {
      OtherMoves(s, step);
    }
  }

  lemma ReadsKeep(s: State, step: Step)
    requires Inv(s) && Apply(s, step).Next?
    ensures ReadsOk(Apply(s, step).s)
  {
    var t := Apply(s, step).s;
    CallsMove(s, step);
    forall k | 0 <= k < |t.calls| ensures Segment(t, t.calls[k].start, t.calls[k].got) {
      SegmentStays(s, t, t.calls[k].start, t.calls[k].got);
    }
  }

  lemma StepKeeps(s: State, step: Step)
    requires Inv(s) && Apply(s, step).Next?
    ensures Inv(Apply(s, step).s)
  {
    var t := Apply(s, step).s;
    RingKeeps(s, step);
    StrayKeeps(s, step);
    ReadsKeep(s, step);
    forall q | 0 <= q < |t.procs| ensures ProcOk(t, q) && SleepOk(t, q) {
      if step.Close? {
        CloseProc(s, step, q);
      } else if step.Kill? {
        KillProc(s, step, q);
      } else if step.Resume? {
        ResumeProc(s, step, q);
      } else if step.Test? {
        TestProc(s, step, q);
      } else if step.TakeByte? {
        TakeProc(s, step, q);
      } else if OfWriter(step) {
        WriterProc(s, step, q);
      } else {
        ReaderProc(s, step, q);
      }
    }
  }

  // Whole runs.

  ghost predicate Fresh(s: State) {
    && |s.ring.data| == PIPESIZE && s.ring.nread == s.ring.nwrite == 0 && s.readopen && s.writeopen && s.lock == NONE
    && s.sent == [] && s.taken == 0 && s.calls == [] && !s.strayed
    && forall p :: 0 <= p < |s.procs| ==> s.procs[p].pc == Outside
  }

  ghost function Exec(s: State, steps: seq<Step>): (r: Outcome)
    decreases |steps|
  {
    if steps == [] then Next(s)
    else if !Shape(s) then Blocked
    else match Apply(s, steps[0])
      case Blocked => Blocked
      case Next(t) => Exec(t, steps[1..])
  }

  lemma {:induction false} RunKeeps(s: State, steps: seq<Step>)
    requires Inv(s) && Exec(s, steps).Next?
    ensures Inv(Exec(s, steps).s)
    decreases |steps|
  {
    if steps != [] {
      StepKeeps(s, steps[0]);
      RunKeeps(Apply(s, steps[0]).s, steps[1..]);
    }
  }

  ghost predicate Reachable(s: State) {
    exists s0, steps :: Fresh(s0) && Exec(s0, steps) == Next(s)
  }

  lemma ReachableInv(s: State)
    requires Reachable(s)
    ensures Inv(s)
  {
    var s0, steps :| Fresh(s0) && Exec(s0, steps) == Next(s);
    RunKeeps(s0, steps);
  }

  /** Whatever readers and writers do and however often the counters wrap: the pipe holds at most
      PIPESIZE bytes, and the calls of piperead get the bytes in the order in which they were
      put, each call the ones after the call before it. Only a call whose copyout fails misses
      a byte, the last one it took. */
  lemma FirstInFirstOut(s: State)
    requires Reachable(s)
    ensures s.taken <= |s.sent| <= s.taken + PIPESIZE && Uint(s.ring.nwrite - s.ring.nread) == |s.sent| - s.taken
    ensures forall k :: 0 <= k < |s.calls| ==> Segment(s, s.calls[k].start, s.calls[k].got)
    ensures forall k :: 0 <= k < |s.calls| - 1 ==> ReadEnd(s.calls[k]) == s.calls[k + 1].start
    ensures s.lock == NONE ==> s.taken == Reached(s)
  {
    ReachableInv(s);
    Counters(s.ring, s.sent, s.taken);
  }

  /** Process `q` sleeps in piperead and has not been woken. */
  predicate Asleep(s: State, q: nat) {
    q < |s.procs| && s.procs[q].pc.ReaderAsleep? && !s.procs[q].pc.woken
  }

  /** The lock is free, so nobody is about to wake `q`, and there is something for it to read. */
  predicate Stranded(s: State, q: nat) {
    s.lock == NONE && Asleep(s, q) && !Empty(s.ring)
  }

  /** While the lock is free, a writer sleeps only on a full pipe that is open for reading, and a
      reader only on a pipe that is open for writing, which is empty exactly if no writer has strayed. */
  lemma NobodyStranded(s: State, p: nat)
    requires Reachable(s) && s.lock == NONE && p < |s.procs|
    ensures s.procs[p].pc.WriterAsleep? && !s.procs[p].pc.woken ==> Full(s.ring) && s.readopen
    ensures Asleep(s, p) ==> s.writeopen && (Stranded(s, p) <==> s.strayed)
  {
    ReachableInv(s);
    Counters(s.ring, s.sent, s.taken);
    assert SleepOk(s, p);
  }

  /** The step makes a writer return -1 with bytes in the pipe that it has woken nobody for. */
  predicate Strays(s: State, step: Step) {
    step.Leave? && step.p < |s.procs| && s.procs[step.p].pc.Writing? && s.procs[step.p].pc.told < s.procs[step.p].pc.i
  }

  /** Return -1 leaves every reader that sleeps asleep, for the bytes of this writer or for those
      of one that did the same before; otherwise the pipe is empty. */
  lemma LeaveStrands(s: State, p: nat, q: nat)
    requires Reachable(s) && Shape(s) && Apply(s, Leave(p)).Next? && Asleep(s, q)
    ensures var t := Apply(s, Leave(p)).s;
      t.procs[q] == s.procs[q] && (Stranded(t, q) <==> s.strayed || Strays(s, Leave(p)))
  {
    ReachableInv(s);
    StepKeeps(s, Leave(p));
    var t := Apply(s, Leave(p)).s;
    Counters(t.ring, t.sent, t.taken);
    assert ProcOk(s, p) && ProcOk(s, q) && SleepOk(t, q);
  }

  lemma StepStrays(s: State, step: Step)
    requires Shape(s) && Apply(s, step).Next? && !s.strayed
    ensures Apply(s, step).s.strayed <==> Strays(s, step)
  {
  }

  /** Where no writer has strayed, one step strands a reader exactly if it is such a return and
      the reader was asleep. */
  lemma StrandsExactly(s: State, step: Step, q: nat)
    requires Reachable(s) && Shape(s) && !s.strayed && Apply(s, step).Next?
    ensures Stranded(Apply(s, step).s, q) <==> Strays(s, step) && Asleep(s, q)
  {
    ReachableInv(s);
    var t := Apply(s, step).s;
    StepKeeps(s, step);
    StepStrays(s, step);
    Counters(t.ring, t.sent, t.taken);
    if Stranded(t, q) {
      assert SleepOk(t, q);
    } else if Strays(s, step) && Asleep(s, q) {
      LeaveStrands(s, step.p, q);
    }
  }

  /** The run has no such return; a writer may leave before its first byte, or after a wakeup. */
  ghost predicate Faithful(s: State, steps: seq<Step>)
    decreases |steps|
  {
    steps == [] || (!Strays(s, steps[0]) && (Shape(s) && Apply(s, steps[0]).Next? ==> Faithful(Apply(s, steps[0]).s, steps[1..])))
  }

  lemma {:induction false} FaithfulRun(s: State, steps: seq<Step>)
    requires !s.strayed && Exec(s, steps).Next? && Faithful(s, steps)
    ensures !Exec(s, steps).s.strayed
    decreases |steps|
  {
    if steps != [] {
      StepStrays(s, steps[0]);
      FaithfulRun(Apply(s, steps[0]).s, steps[1..]);
    }
  }

  /** Without such a return no reader is ever stranded. */
  lemma StraysByLeaving(s: State, steps: seq<Step>, q: nat)
    requires Fresh(s) && Exec(s, steps).Next? && Faithful(s, steps)
    ensures !Stranded(Exec(s, steps).s, q)
  {
    FaithfulRun(s, steps);
    var t := Exec(s, steps).s;
    assert Reachable(t);
    if Stranded(t, q) {
      NobodyStranded(t, q);
    }
  }

  lemma ExecTwo(s: State, x: Step, t: State, y: Step, u: State, rest: seq<Step>) returns (steps: seq<Step>)
    requires Shape(s) && Apply(s, x) == Next(t) && Shape(t) && Apply(t, y) == Next(u)
    ensures Exec(s, steps) == Exec(u, rest)
  {
    steps := [x] + ([y] + rest);
    assert ([y] + rest)[1..] == rest && steps[1..] == [y] + rest;
  }

  lemma ReaderFallsAsleep(s: State, q: nat, n: nat) returns (s1: State, s2: State, s3: State)
    requires Fresh(s) && q < |s.procs| && !s.procs[q].killed
    ensures Shape(s) && Apply(s, Read0(q, n)) == Next(s1) && Shape(s1) && Apply(s1, Test(q)) == Next(s2) && Shape(s2)
    ensures s1.procs == s.procs[q := Proc(Waiting(n, false), false)] && s2 == s.(lock := q, procs := s.procs[q := Proc(Waiting(n, true), false)])
    ensures Apply(s2, SleepReader(q)) == Next(s3) && Shape(s3) && s3 == s.(procs := s.procs[q := Proc(ReaderAsleep(n, false), false)])
  {
    s1 := At(s, q, Waiting(n, false)).(lock := q);
    s2 := s.(lock := q, procs := s.procs[q := Proc(Waiting(n, true), false)]);
    assert At(s1, q, Waiting(n, true)) == s2;
    s3 := s.(procs := s.procs[q := Proc(ReaderAsleep(n, false), false)]);
    assert At(s2, q, ReaderAsleep(n, false)).(lock := NONE) == s3;
  }

  lemma WriterPutsByte(s: State, p: nat, buf: seq<Byte>) returns (s1: State, s2: State, s3: State)
    requires Shape(s) && s.lock == NONE && s.readopen && !Full(s.ring) && p < |s.procs| && s.procs[p] == Proc(Outside, false) && |buf| > 1
    ensures Apply(s, Write(p, buf)) == Next(s1) && Shape(s1) && Apply(s1, Test(p)) == Next(s2) && Shape(s2)
    ensures Apply(s2, PutByte(p)) == Next(s3) && Shape(s3)
    ensures s3.procs == s.procs[p := Proc(Writing(buf, 1, 0, false), false)] && s3.ring == Put(s.ring, buf[0])
  {
    s1 := At(s, p, Writing(buf, 0, 0, false)).(lock := p);
    s2 := At(s1, p, Writing(buf, 0, 0, true));
    s3 := Apply(s2, PutByte(p)).s;
    assert s3.procs == s.procs[p := Proc(Writing(buf, 1, 0, false), false)];
  }

  lemma KilledWriterLeaves(s: State, p: nat) returns (s1: State, s2: State)
    requires Shape(s) && p < |s.procs| && s.procs[p].pc.Writing? && s.procs[p].pc.i < |s.procs[p].pc.buf| && !s.procs[p].pc.tested
    ensures Apply(s, Kill(p)) == Next(s1) && Shape(s1) && Apply(s1, Leave(p)) == Next(s2) && Shape(s2)
    ensures s2.procs == s.procs[p := Proc(Outside, true)] && s2.ring == s.ring && s2.lock == NONE
  {
    s1 := Apply(s, Kill(p)).s;
    s2 := Apply(s1, Leave(p)).s;
  }

  /** With one it happens: any reader, any writer of more than one byte, and whoever else is there. */
  lemma KilledWriterStrands(s: State, p: nat, q: nat, n: nat, buf: seq<Byte>)
    requires Fresh(s) && p < |s.procs| && q < |s.procs| && p != q && !s.procs[p].killed && !s.procs[q].killed && |buf| > 1
    ensures exists t :: Reachable(t) && Stranded(t, q)
  {
    var s1, s2, s3 := ReaderFallsAsleep(s, q, n);
    var s4, s5, s6 := WriterPutsByte(s3, p, buf);
    var s7, s8 := KilledWriterLeaves(s6, p);
    var a := ExecTwo(s6, Kill(p), s7, Leave(p), s8, []);
    var b := ExecTwo(s4, Test(p), s5, PutByte(p), s6, a);
    var c := ExecTwo(s2, SleepReader(q), s3, Write(p, buf), s4, b);
    var d := ExecTwo(s, Read0(q, n), s1, Test(q), s2, c);
    assert Exec(s, d) == Next(s8);
    assert Stranded(s8, q);
  }

  /** Process `p` sleeps, has not been woken, and has been killed. */
  predicate SleepsKilled(s: State, p: nat) {
    && p < |s.procs| && s.procs[p].killed
    && ((s.procs[p].pc.ReaderAsleep? && !s.procs[p].pc.woken) || (s.procs[p].pc.WriterAsleep? && !s.procs[p].pc.woken))
  }

  lemma WriterSleepsKilled(s: State, step: Step, p: nat)
    requires Shape(s) && OfWriter(step) && Apply(s, step).Next? && !SleepsKilled(s, p)
    ensures SleepsKilled(Apply(s, step).s, p) <==> step == SleepWriter(p) && s.procs[p].killed
  {
  }

  lemma ReaderSleepsKilled(s: State, step: Step, p: nat)
    requires Shape(s) && !OfWriter(step) && !OfBoth(step) && Apply(s, step).Next? && !SleepsKilled(s, p)
    ensures SleepsKilled(Apply(s, step).s, p) <==> step == SleepReader(p) && s.procs[p].killed
  {
  }

  /** That begins exactly when the process was killed between its test and its sleep. */
  lemma SleepsKilledExactly(s: State, step: Step, p: nat)
    requires Shape(s) && Apply(s, step).Next? && !SleepsKilled(s, p)
    ensures SleepsKilled(Apply(s, step).s, p) <==> (step == SleepReader(p) || step == SleepWriter(p)) && s.procs[p].killed
  {
    if OfWriter(step) {
      WriterSleepsKilled(s, step, p);
    } else if !OfBoth(step) {
      ReaderSleepsKilled(s, step, p);
    }
  }

  /** And it happens, to any process. */
  lemma KilledReaderSleeps(s: State, q: nat, n: nat)
    requires Fresh(s) && q < |s.procs| && !s.procs[q].killed
    ensures exists t :: Reachable(t) && SleepsKilled(t, q)
  {
    var s1, s2, s3 := ReaderFallsAsleep(s, q, n);
    var k := Apply(s2, Kill(q)).s;
    var t := Apply(k, SleepReader(q)).s;
    var a := ExecTwo(s2, Kill(q), k, SleepReader(q), t, []);
    var b := ExecTwo(s, Read0(q, n), s1, Test(q), s2, a);
    assert Exec(s, b) == Next(t);
    assert SleepsKilled(t, q);
  }

  // What reading, writing and closing come to, as whole runs.

  lemma ExecOne(s: State, step: Step, t: State, rest: seq<Step>)
    requires Shape(s) && Apply(s, step) == Next(t)
    ensures Exec(s, [step] + rest) == Exec(t, rest)
  {
    assert ([step] + rest)[1..] == rest;
  }

  lemma {:induction false} ExecThen(s: State, xs: seq<Step>, t: State, ys: seq<Step>)
    requires Exec(s, xs) == Next(t)
    ensures Exec(s, xs + ys) == Exec(t, ys)
    decreases |xs|
  {
    if xs == [] {
      assert xs + ys == ys;
    } else {
      assert xs + ys == [xs[0]] + (xs[1..] + ys);
      ExecOne(s, xs[0], Apply(s, xs[0]).s, xs[1..] + ys);
      ExecThen(Apply(s, xs[0]).s, xs[1..], t, ys);
    }
  }

  lemma Once(s: State, step: Step) returns (t: State)
    requires Inv(s) && Apply(s, step).Next?
    ensures t == Apply(s, step).s && Inv(t) && Exec(s, [step]) == Next(t)
  {
    StepKeeps(s, step);
    t := Apply(s, step).s;
    ExecOne(s, step, t, []);
    assert [step] + [] == [step];
  }

  lemma Did(s: State, step: Step) returns (t: State)
    requires Shape(s) && Apply(s, step).Next?
    ensures t == Apply(s, step).s && Exec(s, [step]) == Next(t)
  {
    t := Apply(s, step).s;
    ExecOne(s, step, t, []);
    assert [step] + [] == [step];
  }

  /** The writer has put the bytes of its buffer up to `j`, and nothing else has changed. */
  predicate HasPut(s: State, t: State, p: nat, j: nat) {
    && p < |s.procs| && s.procs[p].pc.Writing? && s.procs[p].pc.i <= j <= |s.procs[p].pc.buf|
    && var pc := s.procs[p].pc;
    && t.sent == s.sent + pc.buf[pc.i..j]
    && t == s.(ring := t.ring, sent := t.sent, procs := s.procs[p := Proc(Writing(pc.buf, j, pc.told, false), s.procs[p].killed)])
  }

  lemma PutTrans(s: State, t: State, u: State, p: nat, i: nat, j: nat)
    requires HasPut(s, t, p, i) && HasPut(t, u, p, j)
    ensures HasPut(s, u, p, j)
  {
    var pc := s.procs[p].pc;
    assert pc.buf[pc.i..j] == pc.buf[pc.i..i] + pc.buf[i..j];
  }

  /** A writer in the loop that may go on, with room for its bytes up to `j`. */
  predicate MayPut(s: State, p: nat, j: nat) {
    && p < |s.procs| && s.procs[p].pc.Writing? && !s.procs[p].pc.tested && !s.procs[p].killed && s.readopen
    && s.procs[p].pc.i <= j <= |s.procs[p].pc.buf| && |s.sent| + j - s.procs[p].pc.i <= s.taken + PIPESIZE
  }

  lemma PutsOne(s: State, p: nat, j: nat) returns (t: State)
    requires Inv(s) && MayPut(s, p, j) && s.procs[p].pc.i < j
    ensures Inv(t) && Exec(s, [Test(p)] + [PutByte(p)]) == Next(t) && HasPut(s, t, p, s.procs[p].pc.i + 1) && MayPut(t, p, j)
  {
    Counters(s.ring, s.sent, s.taken);
    var a := Once(s, Test(p));
    t := Once(a, PutByte(p));
    ExecThen(s, [Test(p)], a, [PutByte(p)]);
  }

  /** The loop of pipewrite, while there is room. */
  lemma {:induction false} PutsAll(s: State, p: nat, j: nat) returns (steps: seq<Step>, t: State)
    requires Inv(s) && MayPut(s, p, j)
    ensures Inv(t) && Exec(s, steps) == Next(t) && HasPut(s, t, p, j)
    decreases j - s.procs[p].pc.i
  {
    var pc := s.procs[p].pc;
    if pc.i == j {
      steps, t := [], s;
      assert s.procs[p := Proc(pc, s.procs[p].killed)] == s.procs;
    } else {
      var a := PutsOne(s, p, j);
      var xs, b := PutsAll(a, p, j);
      ExecThen(s, [Test(p)] + [PutByte(p)], a, xs);
      PutTrans(s, a, b, p, pc.i + 1, j);
      steps, t := [Test(p)] + [PutByte(p)] + xs, b;
    }
  }

  /** A call of pipewrite that finds the pipe open for reading and has room for `buf` puts all of it after what is
      there, and returns. */
  lemma WriteReturns(s: State, p: nat, buf: seq<Byte>) returns (steps: seq<Step>, t: State)
    requires Inv(s) && p < |s.procs| && s.procs[p] == Proc(Outside, false) && s.lock == NONE && s.readopen
    requires |s.sent| + |buf| <= s.taken + PIPESIZE
    ensures Inv(t) && Exec(s, steps) == Next(t) && t.sent == s.sent + buf && t.taken == s.taken && t.lock == NONE
    ensures t.procs == WakeReaders(s.procs) && t.readopen && t.writeopen == s.writeopen && t.calls == s.calls
  {
    var a := Once(s, Write(p, buf));
    var xs, b := PutsAll(a, p, |buf|);
    t := Once(b, EndWrite(p, false));
    ExecThen(s, [Write(p, buf)], a, xs);
    ExecThen(s, [Write(p, buf)] + xs, b, [EndWrite(p, false)]);
    steps := [Write(p, buf)] + xs + [EndWrite(p, false)];
    assert t.procs == WakeReaders(s.procs);
  }

  /** A writer that finds the pipe full wakes the readers and sleeps. */
  lemma SleepsFull(s: State, p: nat) returns (t: State)
    requires Inv(s) && p < |s.procs| && s.procs[p].pc.Writing? && !s.procs[p].pc.tested && !s.procs[p].killed && s.readopen
    requires s.procs[p].pc.i < |s.procs[p].pc.buf| && |s.sent| == s.taken + PIPESIZE
    ensures Inv(t) && Exec(s, [Test(p)] + [SleepWriter(p)]) == Next(t) && t.sent == s.sent && t.lock == NONE && Full(t.ring)
    ensures t.procs == WakeReaders(s.procs)[p := Proc(WriterAsleep(s.procs[p].pc.buf, s.procs[p].pc.i, false), false)]
  {
    Counters(s.ring, s.sent, s.taken);
    var a := Once(s, Test(p));
    t := Once(a, SleepWriter(p));
    ExecThen(s, [Test(p)], a, [SleepWriter(p)]);
  }

  lemma Fills(s: State, p: nat, buf: seq<Byte>, room: nat) returns (steps: seq<Step>, t: State)
    requires Inv(s) && p < |s.procs| && s.procs[p] == Proc(Outside, false) && s.lock == NONE && s.readopen
    requires |s.sent| + room == s.taken + PIPESIZE && room < |buf|
    ensures Inv(t) && Exec(s, steps) == Next(t) && t.sent == s.sent + buf[..room]
    ensures t == s.(ring := t.ring, sent := t.sent, lock := p, procs := s.procs[p := Proc(Writing(buf, room, 0, false), false)])
  {
    var a := Once(s, Write(p, buf));
    var xs, b := PutsAll(a, p, room);
    ExecThen(s, [Write(p, buf)], a, xs);
    steps, t := [Write(p, buf)] + xs, b;
    assert buf[0..room] == buf[..room];
  }

  /** A call of pipewrite with more than there is room for fills the pipe and sleeps. */
  lemma WriteSleeps(s: State, p: nat, buf: seq<Byte>, room: nat) returns (steps: seq<Step>, t: State)
    requires Inv(s) && p < |s.procs| && s.procs[p] == Proc(Outside, false) && s.lock == NONE && s.readopen
    requires |s.sent| + room == s.taken + PIPESIZE && room < |buf|
    ensures Inv(t) && Exec(s, steps) == Next(t) && t.sent == s.sent + buf[..room] && Full(t.ring) && t.lock == NONE
    ensures |t.procs| == |s.procs| && t.procs[p] == Proc(WriterAsleep(buf, room, false), false)
    ensures forall q :: 0 <= q < |s.procs| && q != p ==> t.procs[q] == WakeReader(s.procs[q])
  {
    var xs, b := Fills(s, p, buf, room);
    t := SleepsFull(b, p);
    ExecThen(s, xs, b, [Test(p)] + [SleepWriter(p)]);
    steps := xs + ([Test(p)] + [SleepWriter(p)]);
  }

  /** The reader has taken bytes, and nothing else has changed. */
  predicate Took(s: State, t: State, p: nat) {
    && p < |s.procs| && s.procs[p].pc.Reading? && s.taken <= t.taken <= |s.sent|
    && var pc := s.procs[p].pc;
    && t == s.(ring := t.ring, taken := t.taken, strayed := t.strayed,
               procs := s.procs[p := Proc(Reading(pc.n, pc.start, pc.got + s.sent[s.taken..t.taken]), s.procs[p].killed)])
  }

  lemma TookTrans(s: State, t: State, u: State, p: nat)
    requires Took(s, t, p) && Took(t, u, p)
    ensures Took(s, u, p)
  {
    assert s.sent[s.taken..u.taken] == s.sent[s.taken..t.taken] + s.sent[t.taken..u.taken];
    assert s.procs[p].pc.got + s.sent[s.taken..u.taken] == t.procs[p].pc.got + s.sent[t.taken..u.taken];
  }

  lemma TakesOne(s: State, p: nat) returns (t: State)
    requires Inv(s) && p < |s.procs| && s.procs[p].pc.Reading? && |s.procs[p].pc.got| < s.procs[p].pc.n && s.taken < |s.sent|
    ensures Inv(t) && Exec(s, [TakeByte(p, false)]) == Next(t) && Took(s, t, p) && t.taken == s.taken + 1
  {
    Counters(s.ring, s.sent, s.taken);
    TakeHolds(s.ring, s.sent, s.taken);
    t := Once(s, TakeByte(p, false));
    assert s.sent[s.taken..t.taken] == [s.sent[s.taken]];
  }

  /** How far a read of `n` bytes at `taken` gets. */
  function ReadsTo(sent: nat, taken: nat, n: nat): (r: nat) {
    if sent - taken < n then sent else taken + n
  }

  /** The copy loop of piperead. */
  lemma {:induction false} TakesAll(s: State, p: nat) returns (steps: seq<Step>, t: State)
    requires Inv(s) && p < |s.procs| && s.procs[p].pc.Reading? && |s.procs[p].pc.got| <= s.procs[p].pc.n
    ensures Inv(t) && Exec(s, steps) == Next(t) && Took(s, t, p) && t.taken == ReadsTo(|s.sent|, s.taken, s.procs[p].pc.n - |s.procs[p].pc.got|)
    decreases |s.sent| - s.taken
  {
    var pc := s.procs[p].pc;
    if |pc.got| >= pc.n || s.taken == |s.sent| {
      steps, t := [], s;
      assert pc.got + s.sent[s.taken..s.taken] == pc.got;
      assert s.procs == s.procs[p := Proc(pc, s.procs[p].killed)];
    } else {
      var a := TakesOne(s, p);
      var xs, b := TakesAll(a, p);
      ExecThen(s, [TakeByte(p, false)], a, xs);
      TookTrans(s, a, b, p);
      steps, t := [TakeByte(p, false)] + xs, b;
    }
  }

  lemma StartsCopy(s: State, p: nat) returns (t: State)
    requires Inv(s) && p < |s.procs| && s.procs[p].pc.Waiting? && !s.procs[p].pc.tested && !(s.taken == |s.sent| && s.writeopen)
    ensures Inv(t) && Exec(s, [StartCopy(p)]) == Next(t)
    ensures t == s.(procs := s.procs[p := Proc(Reading(s.procs[p].pc.n, s.taken, []), s.procs[p].killed)])
  {
    Counters(s.ring, s.sent, s.taken);
    t := Once(s, StartCopy(p));
  }

  lemma EndsCopy(s: State, p: nat) returns (t: State)
    requires Inv(s) && p < |s.procs| && s.procs[p].pc.Reading? && (|s.procs[p].pc.got| >= s.procs[p].pc.n || s.taken == |s.sent|)
    ensures Inv(t) && Exec(s, [EndRead(p)]) == Next(t)
    ensures t == s.(lock := NONE, procs := WakeWriters(s.procs)[p := Proc(Outside, s.procs[p].killed)],
                    calls := s.calls + [Read(s.procs[p].pc.start, s.procs[p].pc.got, false)])
  {
    Counters(s.ring, s.sent, s.taken);
    t := Once(s, EndRead(p));
  }

  lemma WokenButOne(procs: seq<Proc>, p: nat, x: Proc, y: Proc)
    requires p < |procs|
    ensures WakeWriters(procs[p := x])[p := y] == WakeWriters(procs)[p := y]
  {
  }

  /** The copy loop from its start, and the end of piperead. */
  lemma CopyEnds(s: State, p: nat) returns (steps: seq<Step>, t: State)
    requires Inv(s) && p < |s.procs| && s.procs[p].pc.Reading? && s.procs[p].pc.got == []
    ensures Inv(t) && Exec(s, steps) == Next(t) && s.taken <= t.taken == ReadsTo(|s.sent|, s.taken, s.procs[p].pc.n) <= |s.sent|
    ensures t == s.(ring := t.ring, taken := t.taken, strayed := t.strayed, lock := NONE,
                    procs := WakeWriters(s.procs)[p := Proc(Outside, s.procs[p].killed)],
                    calls := s.calls + [Read(s.procs[p].pc.start, s.sent[s.taken..t.taken], false)])
  {
    var xs, b := TakesAll(s, p);
    assert [] + s.sent[s.taken..b.taken] == s.sent[s.taken..b.taken];
    t := EndsCopy(b, p);
    WokenButOne(s.procs, p, b.procs[p], t.procs[p]);
    ExecThen(s, xs, b, [EndRead(p)]);
    steps := xs + [EndRead(p)];
  }

  /** piperead from the test of the pipe on, when there are bytes or the pipe is closed for writing. */
  lemma Copies(s: State, p: nat) returns (steps: seq<Step>, t: State)
    requires Inv(s) && p < |s.procs| && s.procs[p].pc.Waiting? && !s.procs[p].pc.tested && !(s.taken == |s.sent| && s.writeopen)
    ensures Inv(t) && Exec(s, steps) == Next(t) && s.taken <= t.taken == ReadsTo(|s.sent|, s.taken, s.procs[p].pc.n) <= |s.sent|
    ensures t == s.(ring := t.ring, taken := t.taken, strayed := t.strayed, lock := NONE,
                    procs := WakeWriters(s.procs)[p := Proc(Outside, s.procs[p].killed)],
                    calls := s.calls + [Read(s.taken, s.sent[s.taken..t.taken], false)])
  {
    var a := StartsCopy(s, p);
    var xs, b := CopyEnds(a, p);
    WokenButOne(s.procs, p, a.procs[p], b.procs[p]);
    ExecThen(s, [StartCopy(p)], a, xs);
    steps, t := [StartCopy(p)] + xs, b;
  }

  /** A call of piperead that finds bytes, or finds the pipe closed for writing, does not sleep: it returns the oldest
      bytes, as many as it asked for or as there are. At the end of a closed pipe that is none. */
  lemma ReadReturns(s: State, p: nat, n: nat) returns (steps: seq<Step>, t: State)
    requires Inv(s) && p < |s.procs| && s.procs[p].pc == Outside && s.lock == NONE && !(s.taken == |s.sent| && s.writeopen)
    ensures Inv(t) && Exec(s, steps) == Next(t) && t.sent == s.sent && t.lock == NONE && t.procs == WakeWriters(s.procs)
    ensures s.taken <= t.taken == ReadsTo(|s.sent|, s.taken, n) <= |s.sent|
    ensures t.calls == s.calls + [Read(s.taken, s.sent[s.taken..t.taken], false)]
    ensures t.readopen == s.readopen && t.writeopen == s.writeopen
  {
    var a := Once(s, Read0(p, n));
    var xs, b := Copies(a, p);
    ExecThen(s, [Read0(p, n)], a, xs);
    steps, t := [Read0(p, n)] + xs, b;
    assert t.procs == WakeWriters(s.procs);
  }

  lemma ResumedReads(s: State, q: nat) returns (steps: seq<Step>, t: State)
    requires Inv(s) && s.lock == NONE && q < |s.procs| && s.procs[q].pc.ReaderAsleep? && s.procs[q].pc.woken && s.taken < |s.sent|
    ensures Exec(s, steps) == Next(t) && |t.procs| == |s.procs| && t.procs[q].pc == Outside
    ensures s.taken <= t.taken == ReadsTo(|s.sent|, s.taken, s.procs[q].pc.n) <= |s.sent|
    ensures t.calls == s.calls + [Read(s.taken, s.sent[s.taken..t.taken], false)]
  {
    var b := Once(s, Resume(q));
    var ys, c := Copies(b, q);
    ExecThen(s, [Resume(q)], b, ys);
    steps, t := [Resume(q)] + ys, c;
  }

  /** A reader that sleeps on the empty pipe gets what the next writer writes. */
  lemma SleeperReads(s: State, p: nat, q: nat, buf: seq<Byte>) returns (steps: seq<Step>, t: State)
    requires Reachable(s) && s.lock == NONE && Empty(s.ring) && s.readopen && Asleep(s, q)
    requires p < |s.procs| && s.procs[p] == Proc(Outside, false) && 0 < |buf| <= PIPESIZE
    ensures Exec(s, steps) == Next(t) && |t.calls| == |s.calls| + 1 && |t.procs| == |s.procs| && t.procs[q].pc == Outside
    ensures t.calls[|s.calls|] == Read(s.taken, if s.procs[q].pc.n < |buf| then buf[..s.procs[q].pc.n] else buf, false)
  {
    ReachableInv(s);
    Counters(s.ring, s.sent, s.taken);
    var xs, a := WriteReturns(s, p, buf);
    var ys, b := ResumedReads(a, q);
    ExecThen(s, xs, a, ys);
    steps, t := xs + ys, b;
    assert a.sent[s.taken..] == buf;
    assert a.sent[s.taken..t.taken] == buf[..t.taken - s.taken];
  }

  lemma ResumedWrites(s: State, p: nat) returns (steps: seq<Step>, t: State)
    requires Inv(s) && s.lock == NONE && s.readopen && p < |s.procs| && s.procs[p].pc.WriterAsleep? && s.procs[p].pc.woken && !s.procs[p].killed
    requires s.procs[p].pc.i <= |s.procs[p].pc.buf| && |s.sent| + |s.procs[p].pc.buf| - s.procs[p].pc.i <= s.taken + PIPESIZE
    ensures Exec(s, steps) == Next(t) && t.sent == s.sent + s.procs[p].pc.buf[s.procs[p].pc.i..] && |t.procs| == |s.procs| && t.procs[p].pc == Outside
  {
    var b := Once(s, Resume(p));
    var ys, c := PutsAll(b, p, |s.procs[p].pc.buf|);
    t := Did(c, EndWrite(p, false));
    ExecThen(s, [Resume(p)], b, ys);
    ExecThen(s, [Resume(p)] + ys, c, [EndWrite(p, false)]);
    steps := [Resume(p)] + ys + [EndWrite(p, false)];
  }

  /** A writer that sleeps on the full pipe puts the rest of its bytes when a reader has made room. */
  lemma SleeperWrites(s: State, p: nat, q: nat, n: nat) returns (steps: seq<Step>, t: State)
    requires Reachable(s) && s.lock == NONE && p < |s.procs| && s.procs[p].pc.WriterAsleep? && !s.procs[p].pc.woken && !s.procs[p].killed
    requires q < |s.procs| && s.procs[q].pc == Outside && s.procs[p].pc.i <= |s.procs[p].pc.buf| <= s.procs[p].pc.i + n && 0 < n <= PIPESIZE
    ensures Exec(s, steps) == Next(t) && t.sent == s.sent + s.procs[p].pc.buf[s.procs[p].pc.i..] && |t.procs| == |s.procs| && t.procs[p].pc == Outside
  {
    ReachableInv(s);
    NobodyStranded(s, p);
    Counters(s.ring, s.sent, s.taken);
    var xs, a := ReadReturns(s, q, n);
    var ys, b := ResumedWrites(a, p);
    ExecThen(s, xs, a, ys);
    steps, t := xs + ys, b;
  }

  /** An end that is closed stays closed, and nothing is put in a pipe that is closed for reading. */
  lemma ClosedStep(s: State, step: Step)
    requires Inv(s) && Apply(s, step).Next?
    ensures var t := Apply(s, step).s; (!s.writeopen ==> !t.writeopen) && (!s.readopen ==> !t.readopen && t.sent == s.sent)
  {
    if step.PutByte? {
      assert ProcOk(s, step.p);
    }
  }

  lemma {:induction false} ClosedRun(s: State, steps: seq<Step>)
    requires Inv(s) && Exec(s, steps).Next?
    ensures var t := Exec(s, steps).s;
      Inv(t) && (!s.writeopen ==> !t.writeopen) && (!s.readopen ==> !t.readopen && t.sent == s.sent)
    decreases |steps|
  {
    if steps != [] {
      StepKeeps(s, steps[0]);
      ClosedStep(s, steps[0]);
      ClosedRun(Apply(s, steps[0]).s, steps[1..]);
    }
  }

  /** Once the pipe is closed for writing, however long ago: nobody is left asleep in piperead, and a call of it when
      everything has been read returns no bytes, at once. */
  lemma EndOfFile(s: State, steps: seq<Step>, p: nat, n: nat) returns (more: seq<Step>, t: State)
    requires Reachable(s) && Exec(s, [Close(true)] + steps).Next?
    requires var u := Exec(s, [Close(true)] + steps).s; u.lock == NONE && p < |u.procs| && u.procs[p].pc == Outside && u.taken == |u.sent|
    ensures var u := Exec(s, [Close(true)] + steps).s;
      Exec(u, more) == Next(t) && t.calls == u.calls + [Read(u.taken, [], false)] && t.lock == NONE && forall q: nat :: !Asleep(u, q)
  {
    ReachableInv(s);
    assert ([Close(true)] + steps)[1..] == steps;
    var c := Apply(s, Close(true)).s;
    StepKeeps(s, Close(true));
    ClosedRun(c, steps);
    var u := Exec(c, steps).s;
    more, t := ReadReturns(u, p, n);
    forall q: nat ensures !Asleep(u, q) {
      if q < |u.procs| {
        assert SleepOk(u, q);
      }
    }
  }

  lemma WriteFails(s: State, p: nat, buf: seq<Byte>)
    requires Inv(s) && s.lock == NONE && !s.readopen && p < |s.procs| && s.procs[p].pc == Outside && buf != []
    ensures Exec(s, [Write(p, buf)] + [Leave(p)]) == Next(s)
  {
    var a := Once(s, Write(p, buf));
    var t := Once(a, Leave(p));
    ExecThen(s, [Write(p, buf)], a, [Leave(p)]);
    assert t.procs == s.procs;
  }

  /** Once it is closed for reading: no byte is ever put any more, nobody is left asleep in pipewrite, and a call of it
      with something to write fails at once. */
  lemma BrokenPipe(s: State, steps: seq<Step>, p: nat, buf: seq<Byte>)
    requires Reachable(s) && Exec(s, [Close(false)] + steps).Next? && buf != []
    requires var u := Exec(s, [Close(false)] + steps).s; u.lock == NONE && p < |u.procs| && u.procs[p].pc == Outside
    ensures var u := Exec(s, [Close(false)] + steps).s;
      && u.sent == s.sent && Exec(u, [Write(p, buf)] + [Leave(p)]) == Next(u)
      && forall q :: 0 <= q < |u.procs| && u.procs[q].pc.WriterAsleep? ==> u.procs[q].pc.woken
  {
    ReachableInv(s);
    assert ([Close(false)] + steps)[1..] == steps;
    var c := Apply(s, Close(false)).s;
    StepKeeps(s, Close(false));
    ClosedRun(c, steps);
    var u := Exec(c, steps).s;
    WriteFails(u, p, buf);
    forall q | 0 <= q < |u.procs| && u.procs[q].pc.WriterAsleep? ensures u.procs[q].pc.woken {
      assert SleepOk(u, q);
    }
  }

  /** A reader that is killed while it sleeps on the empty pipe returns, with nothing read. */
  lemma KilledReaderReturns(s: State, p: nat) returns (t: State)
    requires Reachable(s) && s.lock == NONE && Empty(s.ring) && Asleep(s, p)
    ensures Exec(s, [Kill(p)] + [Resume(p)] + [GiveUp(p)]) == Next(t) && t == s.(procs := s.procs[p := Proc(Outside, true)])
  {
    ReachableInv(s);
    NobodyStranded(s, p);
    var a := Did(s, Kill(p));
    var b := Did(a, Resume(p));
    t := Did(b, GiveUp(p));
    ExecThen(s, [Kill(p)], a, [Resume(p)]);
    ExecThen(s, [Kill(p)] + [Resume(p)], b, [GiveUp(p)]);
    assert t.procs == s.procs[p := Proc(Outside, true)];
  }

  /** A call of piperead whose first copyout fails returns nothing, and has lost the byte. */
  lemma FaultSpills(s: State, p: nat, n: nat) returns (t: State)
    requires Reachable(s) && s.lock == NONE && p < |s.procs| && s.procs[p].pc == Outside && s.taken < |s.sent| && n > 0
    ensures Exec(s, [Read0(p, n)] + [StartCopy(p)] + [TakeByte(p, true)]) == Next(t)
    ensures t.calls == s.calls + [Read(s.taken, [], true)] && t.taken == s.taken + 1 && t.lock == NONE && t.procs == WakeWriters(s.procs)
  {
    ReachableInv(s);
    Counters(s.ring, s.sent, s.taken);
    var a := Did(s, Read0(p, n));
    var b := Did(a, StartCopy(p));
    t := Did(b, TakeByte(p, true));
    ExecThen(s, [Read0(p, n)], a, [StartCopy(p)]);
    ExecThen(s, [Read0(p, n)] + [StartCopy(p)], b, [TakeByte(p, true)]);
    assert t.procs == WakeWriters(s.procs);
  }
}
