/** Spin locks, the scheduler and the hand-off of p->lock through swtch, of
    kernel/spinlock.c and kernel/proc.c, for any number of CPUs and processes and every
    interleaving of their steps. swtch is one step that saves one context and loads the
    other. Spin locks other than the p->locks only count. */
module Sched {

  const NONE: int := -1

  datatype RunState = UNUSED | USED | RUNNABLE | RUNNING | SLEEPING | ZOMBIE

  /** Where the kernel thread of a process is. */
  datatype Pc =
    | Free                  // no thread
    | Embryo                // never run: the saved context is forkret
    | First                 // in forkret, with p->lock from the scheduler
    | Run                   // anywhere without its own p->lock
    | Locked                // in yield, sleep or exit, with p->lock
    | Ready                 // and with the new state set
    | Out(saved: bool)      // in sched, switched out; `saved` is its local intena
    | Back(saved: bool)     // switched in again
    | Tidy                  // out of sched, still with p->lock

  /** `was` is whether interrupts were on when the thread last went from holding no lock to
      holding one. `on` is the CPU whose c->proc names the process. */
  datatype Proc = Proc(state: RunState, pc: Pc, was: bool, on: int)

  /** Where the scheduler of a CPU is. While it is Away the CPU runs that process. */
  datatype Place =
    | Loop
    | Has(q: nat)        // has q->lock
    | Chosen(q: nat)     // has marked it RUNNING
    | Away(q: nat)       // has switched to it
    | Returned(q: nat)   // is back
    | Done(q: nat)       // has cleared c->proc

  /** `ie` is the interrupt enable bit. The thread on the CPU holds `held` spin locks that
      are no p->lock, and the p->lock of process `side`, which may be its own, in wakeup, kill,
      killed, allocproc, fork or wait. */
  datatype Cpu = Cpu(proc: int, noff: int, intena: bool, ie: bool, held: nat, side: int, place: Place)

  /** `lock[p]` is the CPU that holds p->lock. */
  datatype State = State(cpus: seq<Cpu>, procs: seq<Proc>, lock: seq<int>)

  datatype SideAct = Wake | Alloc | Fork | Reap

  datatype Step =
    | SetIntr(c: nat, on: bool)            // intr_on, intr_off, a trap or a return from one
    | AcquireLk(c: nat)
    | ReleaseLk(c: nat)
    | SideLock(c: nat, q: nat)
    | SideDo(c: nat, act: SideAct)
    | SideUnlock(c: nat)
    | LockSelf(c: nat)                     // in yield, sleep or exit
    | SetState(c: nat, state: RunState)
    | SwitchOut(c: nat)                    // sched
    | ClearProc(c: nat)
    | SchedAcquire(c: nat, q: nat)
    | Choose(c: nat)
    | SwitchIn(c: nat)
    | SchedRelease(c: nat)
    | Restore(c: nat)
    | ReleaseSelf(c: nat)

  /** Panics of acquire, release, pop_off and sched. */
  datatype Outcome = Next(s: State) | Blocked | Panic

  predicate Shape(s: State) {
    |s.lock| == |s.procs|
  }

  // push_off and pop_off.

  function Push(x: Cpu): (y: Cpu) {
    x.(intena := if x.noff == 0 then x.ie else x.intena, ie := false, noff := x.noff + 1)
  }

  predicate MayPop(x: Cpu) {
    !x.ie && x.noff >= 1
  }

  function Pop(x: Cpu): (y: Cpu) {
    x.(noff := x.noff - 1, ie := x.noff == 1 && x.intena)
  }

  /** The thread on CPU `c` is a process in its own code, or a scheduler between processes. */
  predicate Plain(s: State, c: nat)
    requires c < |s.cpus|
  {
    match s.cpus[c].place
    case Loop => true
    case Away(p) => p < |s.procs| && s.procs[p].pc == Run
    case _ => false
  }

  /** The process on CPU `c` notes the interrupt state when it takes its first lock. */
  function Note(s: State, c: nat): (procs: seq<Proc>)
    requires c < |s.cpus|
    ensures |procs| == |s.procs|
  {
    var x := s.cpus[c];
    if x.place.Away? && x.place.q < |s.procs| && x.noff == 0 then
      s.procs[x.place.q := s.procs[x.place.q].(was := x.ie)]
    else s.procs
  }

  /** acquire by CPU `c` of q->lock; `x` is the CPU once it has the lock. */
  function Acquire(s: State, c: nat, q: nat, x: Cpu): (r: Outcome)
    requires Shape(s) && c < |s.cpus| && q < |s.procs|
  {
    if s.lock[q] == c then Panic
    else if s.lock[q] != NONE then Blocked
    else Next(State(s.cpus[c := x], Note(s, c), s.lock[q := c]))
  }

  /** release by CPU `c` of q->lock; `x` is the CPU before pop_off. */
  function Release(s: State, c: nat, q: nat, x: Cpu): (r: Outcome)
    requires Shape(s) && c < |s.cpus| && q < |s.procs|
  {
    if s.lock[q] != c || !MayPop(x) then Panic
    else Next(s.(cpus := s.cpus[c := Pop(x)], lock := s.lock[q := NONE]))
  }

  function SideResult(x: Proc, act: SideAct): (y: Proc) {
    match act
    case Wake => if x.state == SLEEPING then x.(state := RUNNABLE) else x
    case Alloc => if x.state == UNUSED then x.(state := USED, pc := Embryo) else x
    case Fork => if x.state == USED then x.(state := RUNNABLE) else x
    case Reap => if x.state == ZOMBIE || x.state == USED then x.(state := UNUSED, pc := Free) else x
  }

  function SetPc(s: State, p: nat, pc: Pc): (t: State)
    requires p < |s.procs|
  {
    s.(procs := s.procs[p := s.procs[p].(pc := pc)])
  }

  /** What the process on CPU `c` does next in yield, sleep, exit, sched and forkret. */
  function ApplyProc(s: State, step: Step, p: nat): (r: Outcome)
    requires Shape(s) && step.c < |s.cpus| && p < |s.procs|
  {
    var c := step.c;
    var x := s.cpus[c];
    var pc := s.procs[p].pc;
    match step
    case LockSelf(_) =>
      if pc == Run && x.side == NONE then
        var r := Acquire(s, c, p, Push(x));
        if r.Next? then Next(SetPc(r.s, p, Locked)) else r
      else Blocked
    case SetState(_, state) =>
      if pc == Locked && (state == RUNNABLE || state == SLEEPING || state == ZOMBIE) then
        Next(s.(procs := s.procs[p := s.procs[p].(state := state, pc := Ready)]))
      else Blocked
    case SwitchOut(_) =>
      if pc != Ready then Blocked
      else if s.lock[p] != c || x.noff != 1 || s.procs[p].state == RUNNING || x.ie then Panic
      else Next(SetPc(s, p, Out(x.intena)).(cpus := s.cpus[c := x.(place := Returned(p))]))
    case Restore(_) =>
      if pc.Back? then Next(SetPc(s, p, Tidy).(cpus := s.cpus[c := x.(intena := pc.saved)])) else Blocked
    case ReleaseSelf(_) =>
      if pc == Tidy || pc == First then
        var r := Release(s, c, p, x);
        if r.Next? then Next(SetPc(r.s, p, Run)) else r
      else Blocked
    case _ => Blocked
  }

  /** What the scheduler of CPU `c` does next with process `q`. */
  function ApplySched(s: State, step: Step, q: nat): (r: Outcome)
    requires Shape(s) && step.c < |s.cpus| && q < |s.procs|
  {
    var c := step.c;
    var x := s.cpus[c];
    match step
    case SchedAcquire(_, _) =>
      if x.place == Loop && x.held == 0 && x.side == NONE then Acquire(s, c, q, Push(x).(place := Has(q))) else Blocked
    case Choose(_) =>
      if x.place == Has(q) && s.procs[q].state == RUNNABLE then
        Next(s.(cpus := s.cpus[c := x.(place := Chosen(q), proc := q)],
                procs := s.procs[q := s.procs[q].(state := RUNNING, on := c)]))
      else Blocked
    case SwitchIn(_) =>
      if x.place == Chosen(q) && (s.procs[q].pc.Out? || s.procs[q].pc == Embryo) then
        var pc := if s.procs[q].pc.Out? then Back(s.procs[q].pc.saved) else First;
        Next(SetPc(s, q, pc).(cpus := s.cpus[c := x.(place := Away(q))]))
      else Blocked
    case ClearProc(_) =>
      if x.place == Returned(q) then
        Next(s.(cpus := s.cpus[c := x.(place := Done(q), proc := NONE)], procs := s.procs[q := s.procs[q].(on := NONE)]))
      else Blocked
    case SchedRelease(_) =>
      if x.place == Done(q) || (x.place == Has(q) && s.procs[q].state != RUNNABLE) then
        Release(s, c, q, x.(place := Loop))
      else Blocked
    case _ => Blocked
  }

  /** What any thread may do with locks outside yield, sleep, exit, sched and the scheduler. */
  function ApplySide(s: State, step: Step): (r: Outcome)
    requires Shape(s) && step.c < |s.cpus|
  {
    var c := step.c;
    var x := s.cpus[c];
    match step
    case SetIntr(_, on) => if Plain(s, c) && x.noff == 0 then Next(s.(cpus := s.cpus[c := x.(ie := on)])) else Blocked
    case AcquireLk(_) =>
      if Plain(s, c) then Next(s.(cpus := s.cpus[c := Push(x).(held := x.held + 1)], procs := Note(s, c))) else Blocked
    case ReleaseLk(_) =>
      if x.held == 0 then Blocked
      else if !MayPop(x) then Panic
      else Next(s.(cpus := s.cpus[c := Pop(x.(held := x.held - 1))]))
    case SideLock(_, q) =>
      if Plain(s, c) && q < |s.procs| && x.side == NONE then
        Acquire(s, c, q, Push(x).(side := q))
      else Blocked
    case SideDo(_, act) =>
      if 0 <= x.side < |s.procs| then Next(s.(procs := s.procs[x.side := SideResult(s.procs[x.side], act)])) else Blocked
    case SideUnlock(_) =>
      if 0 <= x.side < |s.procs| then Release(s, c, x.side, x.(side := NONE)) else Blocked
    case _ => Blocked
  }

  predicate OfProc(step: Step) {
    step.LockSelf? || step.SetState? || step.SwitchOut? || step.Restore? || step.ReleaseSelf?
  }

  predicate OfSched(step: Step) {
    step.SchedAcquire? || step.Choose? || step.SwitchIn? || step.ClearProc? || step.SchedRelease?
  }

  function Apply(s: State, step: Step): (r: Outcome)
    requires Shape(s)
  {
    if step.c >= |s.cpus| then Blocked
    else
      var place := s.cpus[step.c].place;
      if OfProc(step) then
        if place.Away? && place.q < |s.procs| then ApplyProc(s, step, place.q) else Blocked
      else if step.SchedAcquire? then
        if step.q < |s.procs| then ApplySched(s, step, step.q) else Blocked
      else if OfSched(step) then
        if !place.Loop? && place.q < |s.procs| then ApplySched(s, step, place.q) else Blocked
      else ApplySide(s, step)
  }

  // The invariant.

  predicate Stopped(state: RunState) {
    state == RUNNABLE || state == SLEEPING || state == ZOMBIE
  }

  /** In the part of its code where the thread of a process has its own p->lock. */
  predicate OwnPc(pc: Pc) {
    pc == First || pc == Locked || pc == Ready || pc.Back? || pc == Tidy
  }

  predicate MayHold(pc: Pc) {
    pc == Run || pc == Locked || pc == Ready
  }

  /** CPU `c` holds the p->lock of `p`: for another process, as the scheduler, or as `p` itself. */
  predicate Holds(s: State, c: nat, p: nat)
    requires c < |s.cpus| && p < |s.procs|
  {
    var x := s.cpus[c];
    x.side == p || (!x.place.Loop? && x.place.q == p && (x.place.Away? ==> OwnPc(s.procs[p].pc)))
  }

  predicate ProcOk(s: State, p: nat)
    requires p < |s.procs|
  {
    var x := s.procs[p];
    && NONE <= x.on < |s.cpus|
    && var there := if x.on == NONE then Loop else s.cpus[x.on].place;
    match x.pc
    case Free => x.on == NONE && x.state == UNUSED
    case Embryo => if x.on == NONE then x.state == USED || x.state == RUNNABLE else there == Chosen(p) && x.state == RUNNING
    case Out(saved) =>
      && saved == x.was
      && (if x.on == NONE then Stopped(x.state)
          else (there == Chosen(p) && x.state == RUNNING) || (there == Returned(p) && Stopped(x.state)))
    case Ready => x.on != NONE && there == Away(p) && Stopped(x.state)
    case Back(saved) => x.on != NONE && there == Away(p) && x.state == RUNNING && saved == x.was
    case _ => x.on != NONE && there == Away(p) && x.state == RUNNING
  }

  predicate CpuOk(s: State, c: nat)
    requires c < |s.cpus|
  {
    var x := s.cpus[c];
    && x.noff == x.held + (if x.side == NONE then 0 else 1)
       + (if x.place.Loop? then 0 else if x.place.Away? && x.place.q < |s.procs| && !OwnPc(s.procs[x.place.q].pc) then 0 else 1)
    && (x.ie ==> x.noff == 0)
    && NONE <= x.side < |s.procs|
    && (!x.place.Loop? ==> x.place.q < |s.procs|)
    && (if x.place.Chosen? || x.place.Away? || x.place.Returned?
        then x.proc == x.place.q && s.procs[x.place.q].on == c else x.proc == NONE)
    && (x.side != NONE ==> Plain(s, c))
    && (x.held > 0 ==> x.place.Loop? || (x.place.Away? && MayHold(s.procs[x.place.q].pc)))
    && (x.place.Away? && x.noff > 0 && s.procs[x.place.q].pc != First && !s.procs[x.place.q].pc.Back? ==>
          x.intena == s.procs[x.place.q].was)
  }

  predicate LockOk(s: State, c: nat, p: nat)
    requires Shape(s) && c < |s.cpus| && p < |s.procs|
  {
    s.lock[p] == c <==> Holds(s, c, p)
  }

  ghost predicate Inv(s: State) {
    && Shape(s)
    && (forall p :: 0 <= p < |s.procs| ==> ProcOk(s, p) && NONE <= s.lock[p] < |s.cpus|)
    && (forall c :: 0 <= c < |s.cpus| ==> CpuOk(s, c))
    && (forall c, p :: 0 <= c < |s.cpus| && 0 <= p < |s.procs| ==> LockOk(s, c, p))
  }

  /** The process a step is about, if any. */
  function Subject(s: State, step: Step): (p: int)
    requires step.c < |s.cpus|
  {
    var x := s.cpus[step.c];
    match step
    case SideLock(_, q) => q
    case SideDo(_, _) => x.side
    case SideUnlock(_) => x.side
    case SchedAcquire(_, q) => q
    case _ => if x.place.Loop? then NONE else x.place.q
  }

  lemma ShapeKeeps(s: State, step: Step)
    requires Inv(s) && Apply(s, step).Next?
    ensures var t := Apply(s, step).s; Shape(t) && |t.procs| == |s.procs| && |t.cpus| == |s.cpus|
  {
  }

  /** A process calls sched while it holds a spin lock other than its p->lock. */
  predicate CallsHolding(s: State, step: Step) {
    && step.SwitchOut? && step.c < |s.cpus| && s.cpus[step.c].held > 0
    && s.cpus[step.c].place.Away? && s.cpus[step.c].place.q < |s.procs| && s.procs[s.cpus[step.c].place.q].pc == Ready
  }

  lemma StepPanics(s: State, step: Step)
    requires Inv(s)
    ensures Apply(s, step) == Panic <==> CallsHolding(s, step)
  {
    if step.c < |s.cpus| {
      assert CpuOk(s, step.c);
      var p := Subject(s, step);
      if 0 <= p < |s.procs| {
        assert ProcOk(s, p) && LockOk(s, step.c, p);
      }
    }
  }

  /** What the invariant says of process `q` and the CPU it is on, seen from CPU `c`. */
  lemma ProcHints(s: State, c: nat, q: nat)
    requires Inv(s) && c < |s.cpus| && q < |s.procs|
    ensures ProcOk(s, q) && CpuOk(s, c) && LockOk(s, c, q)
    ensures s.procs[q].on != NONE ==> LockOk(s, s.procs[q].on, q) && CpuOk(s, s.procs[q].on)
  {
  }

  lemma SelfProcs(s: State, step: Step, q: nat)
    requires Inv(s) && Apply(s, step).Next? && q < |s.procs| && OfProc(step)
    ensures q < |Apply(s, step).s.procs| && ProcOk(Apply(s, step).s, q)
  {
    ShapeKeeps(s, step);
    ProcHints(s, step.c, q);
  }

  lemma SchedProcs(s: State, step: Step, q: nat)
    requires Inv(s) && Apply(s, step).Next? && q < |s.procs| && OfSched(step)
    ensures q < |Apply(s, step).s.procs| && ProcOk(Apply(s, step).s, q)
  {
    ShapeKeeps(s, step);
    ProcHints(s, step.c, q);
  }

  lemma SideProcs(s: State, step: Step, q: nat)
    requires Inv(s) && Apply(s, step).Next? && q < |s.procs| && !OfProc(step) && !OfSched(step)
    ensures q < |Apply(s, step).s.procs| && ProcOk(Apply(s, step).s, q)
  {
    ShapeKeeps(s, step);
    ProcHints(s, step.c, q);
  }

  /** What it says of CPU `d` and the process it is busy with, seen from CPU `c`. */
  lemma CpuHints(s: State, c: nat, d: nat)
    requires Inv(s) && c < |s.cpus| && d < |s.cpus|
    ensures CpuOk(s, d) && CpuOk(s, c)
    ensures !s.cpus[d].place.Loop? ==> var r := s.cpus[d].place.q; ProcOk(s, r) && LockOk(s, c, r) && LockOk(s, d, r)
    ensures s.cpus[d].side != NONE ==> LockOk(s, c, s.cpus[d].side) && LockOk(s, d, s.cpus[d].side)
  {
  }

  lemma SubjectHints(s: State, step: Step, d: nat)
    requires Inv(s) && step.c < |s.cpus| && d < |s.cpus|
    ensures var p := Subject(s, step);
      0 <= p < |s.procs| ==> ProcOk(s, p) && LockOk(s, step.c, p) && LockOk(s, d, p) && (s.procs[p].on != NONE ==> LockOk(s, s.procs[p].on, p))
  {
  }

  lemma SelfCpus(s: State, step: Step, d: nat)
    requires Inv(s) && Apply(s, step).Next? && d < |s.cpus| && OfProc(step)
    ensures d < |Apply(s, step).s.cpus| && CpuOk(Apply(s, step).s, d)
  {
    ShapeKeeps(s, step);
    CpuHints(s, step.c, d);
    SubjectHints(s, step, d);
  }

  lemma SchedCpus(s: State, step: Step, d: nat)
    requires Inv(s) && Apply(s, step).Next? && d < |s.cpus| && OfSched(step)
    ensures d < |Apply(s, step).s.cpus| && CpuOk(Apply(s, step).s, d)
  {
    ShapeKeeps(s, step);
    CpuHints(s, step.c, d);
    SubjectHints(s, step, d);
  }

  predicate OfCount(step: Step) {
    step.SetIntr? || step.AcquireLk? || step.ReleaseLk?
  }

  lemma CountCpus(s: State, step: Step, d: nat)
    requires Inv(s) && Apply(s, step).Next? && d < |s.cpus| && OfCount(step)
    ensures d < |Apply(s, step).s.cpus| && CpuOk(Apply(s, step).s, d)
  {
    ShapeKeeps(s, step);
    CpuHints(s, step.c, d);
  }

  lemma SideCpus(s: State, step: Step, d: nat)
    requires Inv(s) && Apply(s, step).Next? && d < |s.cpus| && !OfProc(step) && !OfSched(step) && !OfCount(step)
    ensures d < |Apply(s, step).s.cpus| && CpuOk(Apply(s, step).s, d)
  {
    ShapeKeeps(s, step);
    CpuHints(s, step.c, d);
    SubjectHints(s, step, d);
  }

  lemma SelfLocks(s: State, step: Step, d: nat, q: nat)
    requires Inv(s) && Apply(s, step).Next? && d < |s.cpus| && q < |s.procs| && OfProc(step)
    ensures d < |Apply(s, step).s.cpus| && q < |Apply(s, step).s.procs| && LockOk(Apply(s, step).s, d, q)
  {
    ShapeKeeps(s, step);
    ProcHints(s, step.c, q);
    ProcHints(s, d, q);
  }

  lemma SchedLocks(s: State, step: Step, d: nat, q: nat)
    requires Inv(s) && Apply(s, step).Next? && d < |s.cpus| && q < |s.procs| && OfSched(step)
    ensures d < |Apply(s, step).s.cpus| && q < |Apply(s, step).s.procs| && LockOk(Apply(s, step).s, d, q)
  {
    ShapeKeeps(s, step);
    ProcHints(s, step.c, q);
    ProcHints(s, d, q);
  }

  lemma SideLocks(s: State, step: Step, d: nat, q: nat)
    requires Inv(s) && Apply(s, step).Next? && d < |s.cpus| && q < |s.procs| && !OfProc(step) && !OfSched(step)
    ensures d < |Apply(s, step).s.cpus| && q < |Apply(s, step).s.procs| && LockOk(Apply(s, step).s, d, q)
  {
    ShapeKeeps(s, step);
    ProcHints(s, step.c, q);
    ProcHints(s, d, q);
  }

  lemma LockRange(s: State, step: Step, q: nat)
    requires Inv(s) && Apply(s, step).Next? && q < |s.procs|
    ensures q < |Apply(s, step).s.lock| && NONE <= Apply(s, step).s.lock[q] < |s.cpus|
  {
    ShapeKeeps(s, step);
  }

  lemma StepKeeps(s: State, step: Step)
    requires Inv(s) && Apply(s, step).Next?
    ensures Inv(Apply(s, step).s)
  {
    ShapeKeeps(s, step);
    var t := Apply(s, step).s;
    forall p | 0 <= p < |t.procs| ensures ProcOk(t, p) && NONE <= t.lock[p] < |t.cpus| {
      LockRange(s, step, p);
      if OfProc(step) { SelfProcs(s, step, p); } else if OfSched(step) { SchedProcs(s, step, p); } else { SideProcs(s, step, p); }
    }
    forall c | 0 <= c < |t.cpus| ensures CpuOk(t, c) {
      if OfProc(step) {
        SelfCpus(s, step, c);
      } else if OfSched(step) {
        SchedCpus(s, step, c);
      } else if OfCount(step) {
        CountCpus(s, step, c);
      } else {
        SideCpus(s, step, c);
      }
    }
    forall c, p | 0 <= c < |t.cpus| && 0 <= p < |t.procs| ensures LockOk(t, c, p) {
      if OfProc(step) { SelfLocks(s, step, c, p); } else if OfSched(step) { SchedLocks(s, step, c, p); } else { SideLocks(s, step, c, p); }
    }
  }

  // Whole runs.

  /** Every scheduler is about to look for work, and some processes wait to be run first. */
  ghost predicate Fresh(s: State) {
    && Shape(s)
    && (forall c :: 0 <= c < |s.cpus| ==> s.cpus[c] == Cpu(NONE, 0, s.cpus[c].intena, s.cpus[c].ie, 0, NONE, Loop))
    && (forall p :: 0 <= p < |s.procs| ==>
          && s.lock[p] == NONE && s.procs[p].on == NONE
          && ((s.procs[p].state == UNUSED && s.procs[p].pc == Free) || (s.procs[p].state == RUNNABLE && s.procs[p].pc == Embryo)))
  }

  ghost function Exec(s: State, steps: seq<Step>): (r: Outcome)
    decreases |steps|
  {
    if steps == [] then Next(s)
    else if !Shape(s) then Blocked
    else
      var r := Apply(s, steps[0]);
      if r.Next? then Exec(r.s, steps[1..]) else r
  }

  lemma {:induction false} RunKeeps(s: State, steps: seq<Step>)
    requires Inv(s) && Exec(s, steps).Next?
    ensures Inv(Exec(s, steps).s)
    decreases |steps|
  {
    if steps != [] {
      StepKeeps(s, steps[0]);
      RunKeeps(Apply(s, steps[0]).s, steps[1..]);
    }
  }

  ghost predicate Reachable(s: State) {
    exists s0, steps :: Fresh(s0) && Exec(s0, steps) == Next(s)
  }

  lemma ReachableInv(s: State)
    requires Reachable(s)
    ensures Inv(s)
  {
    var s0, steps :| Fresh(s0) && Exec(s0, steps) == Next(s);
    RunKeeps(s0, steps);
  }

  /** In every reachable state the next step panics exactly if a process calls sched with another
      spin lock in its hands: acquire never finds its CPU holding the lock already, release always
      does, pop_off finds interrupts off and something to pop, and sched finds p->lock held,
      interrupts off and the state changed. */
  lemma PanicsExactly(s: State, step: Step)
    requires Reachable(s)
    ensures Shape(s) && (Apply(s, step) == Panic <==> CallsHolding(s, step))
  {
    ReachableInv(s);
    StepPanics(s, step);
  }

  lemma ExecTwo(s: State, x: Step, t: State, y: Step, u: State, rest: seq<Step>) returns (steps: seq<Step>)
    requires Shape(s) && Apply(s, x) == Next(t) && Shape(t) && Apply(t, y) == Next(u)
    ensures Exec(s, steps) == Exec(u, rest)
  {
    steps := [x] + ([y] + rest);
    assert ([y] + rest)[1..] == rest && steps[1..] == [y] + rest;
  }

  /** A RUNNABLE process is chosen and switched to. */
  lemma SwitchedIn(s: State, c: nat, p: nat) returns (s1: State, s2: State, s3: State, s4: State)
    requires Fresh(s) && c < |s.cpus| && p < |s.procs| && s.procs[p].state == RUNNABLE
    ensures Apply(s, SchedAcquire(c, p)) == Next(s1) && Shape(s1) && Apply(s1, Choose(c)) == Next(s2) && Shape(s2)
    ensures Apply(s2, SwitchIn(c)) == Next(s3) && Shape(s3) && Apply(s3, ReleaseSelf(c)) == Next(s4) && Shape(s4)
    ensures |s4.cpus| == |s.cpus| && |s4.procs| == |s.procs| && s4.procs[p].pc == Run && s4.lock[p] == NONE
    ensures s4.cpus[c].place == Away(p) && s4.cpus[c].noff == 0 && s4.cpus[c].side == NONE && s4.cpus[c].held == 0
  {
    s1 := Apply(s, SchedAcquire(c, p)).s;
    s2 := Apply(s1, Choose(c)).s;
    s3 := Apply(s2, SwitchIn(c)).s;
    s4 := Apply(s3, ReleaseSelf(c)).s;
  }

  /** It takes a spin lock and then calls sched. */
  lemma CallsSched(s: State, c: nat, p: nat) returns (s1: State, s2: State, s3: State)
    requires Shape(s) && c < |s.cpus| && p < |s.procs| && s.procs[p].pc == Run && s.lock[p] == NONE
    requires s.cpus[c].place == Away(p) && s.cpus[c].noff == 0 && s.cpus[c].side == NONE && s.cpus[c].held == 0
    ensures Apply(s, AcquireLk(c)) == Next(s1) && Shape(s1) && Apply(s1, LockSelf(c)) == Next(s2) && Shape(s2)
    ensures Apply(s2, SetState(c, RUNNABLE)) == Next(s3) && Shape(s3) && CallsHolding(s3, SwitchOut(c)) && Apply(s3, SwitchOut(c)) == Panic
  {
    s1 := Apply(s, AcquireLk(c)).s;
    s2 := Apply(s1, LockSelf(c)).s;
    s3 := Apply(s2, SetState(c, RUNNABLE)).s;
  }

  /** That does happen, on any CPU and with any process that can run. */
  lemma HoldingPanics(s: State, c: nat, p: nat) returns (t: State)
    requires Fresh(s) && c < |s.cpus| && p < |s.procs| && s.procs[p].state == RUNNABLE
    ensures Reachable(t) && Shape(t) && CallsHolding(t, SwitchOut(c)) && Apply(t, SwitchOut(c)) == Panic
  {
    var s1, s2, s3, s4 := SwitchedIn(s, c, p);
    var s5, s6, s7 := CallsSched(s4, c, p);
    t := s7;
    var last := [SetState(c, RUNNABLE)];
    assert Exec(s6, last) == Next(s7) by {
      assert last[1..] == [];
    }
    var x := ExecTwo(s4, AcquireLk(c), s5, LockSelf(c), s6, last);
    var y := ExecTwo(s2, SwitchIn(c), s3, ReleaseSelf(c), s4, x);
    var z := ExecTwo(s, SchedAcquire(c, p), s1, Choose(c), s2, y);
    assert Exec(s, z) == Next(t);
  }

  /** The run releases such locks before it calls sched, as sleep, yield and exit do. */
  ghost predicate Disciplined(s: State, steps: seq<Step>)
    decreases |steps|
  {
    steps == [] || (!CallsHolding(s, steps[0]) && (Shape(s) && Apply(s, steps[0]).Next? ==> Disciplined(Apply(s, steps[0]).s, steps[1..])))
  }

  lemma {:induction false} DisciplinedRun(s: State, steps: seq<Step>)
    requires Inv(s) && Disciplined(s, steps)
    ensures Exec(s, steps) != Panic
    decreases |steps|
  {
    if steps != [] {
      StepPanics(s, steps[0]);
      if Apply(s, steps[0]).Next? {
        StepKeeps(s, steps[0]);
        DisciplinedRun(Apply(s, steps[0]).s, steps[1..]);
      }
    }
  }

  /** So no such run, of any length, reaches a panic. */
  lemma NoPanic(s: State, steps: seq<Step>)
    requires Fresh(s) && Disciplined(s, steps)
    ensures Exec(s, steps) != Panic
  {
    DisciplinedRun(s, steps);
  }

  /** While p->lock is free: `p` is RUNNING exactly when a CPU has it as c->proc, and a
      process that is to be run, woken or reaped has its context saved and no CPU on its
      kernel stack. No two CPUs ever have the same process. */
  lemma HandOff(s: State, p: nat)
    requires Reachable(s) && p < |s.procs|
    ensures forall c, d :: 0 <= c < |s.cpus| && 0 <= d < |s.cpus| && s.cpus[c].proc == p && s.cpus[d].proc == p ==> c == d
    ensures forall c :: 0 <= c < |s.cpus| && s.cpus[c].place == Away(p) ==> s.cpus[c].proc == p
    ensures |s.lock| == |s.procs|
    ensures s.lock[p] == NONE ==> (s.procs[p].state == RUNNING <==> exists c :: 0 <= c < |s.cpus| && s.cpus[c].proc == p)
    ensures s.lock[p] == NONE && Stopped(s.procs[p].state) ==>
      (s.procs[p].pc.Out? || s.procs[p].pc == Embryo) && forall c :: 0 <= c < |s.cpus| ==> s.cpus[c].place != Away(p)
  {
    ReachableInv(s);
    assert ProcOk(s, p);
    forall c | 0 <= c < |s.cpus| && (s.cpus[c].proc == p || s.cpus[c].place == Away(p))
      ensures s.cpus[c].proc == p && s.procs[p].on == c
    {
      assert CpuOk(s, c);
    }
    if s.procs[p].on != NONE {
      assert CpuOk(s, s.procs[p].on) && LockOk(s, s.procs[p].on, p);
    }
  }

  /** When a process releases its last lock, on whatever CPU, interrupts are as they were
      when it took its first; a process that has never run inherits the scheduler's. */
  lemma InterruptsRestored(s: State, step: Step, p: nat)
    requires Reachable(s) && Shape(s) && Apply(s, step).Next? && p < |s.procs|
    requires s.cpus[step.c].place == Away(p) && s.cpus[step.c].noff > 0 && s.procs[p].pc != First
    requires Apply(s, step).s.cpus[step.c].noff == 0
    ensures Apply(s, step).s.cpus[step.c].ie == s.procs[p].was
  {
    ReachableInv(s);
    assert CpuOk(s, step.c) && ProcOk(s, p);
  }

  /** `was` is what InterruptsRestored takes it for: only the first lock a process takes
      changes it, to the interrupt state of that moment. */
  lemma WasRecorded(s: State, step: Step, p: nat)
    requires Shape(s) && Apply(s, step).Next? && p < |s.procs|
    ensures p < |Apply(s, step).s.procs|
    ensures Apply(s, step).s.procs[p].was != s.procs[p].was ==>
      && s.cpus[step.c].place == Away(p) && s.cpus[step.c].noff == 0
      && Apply(s, step).s.procs[p].was == s.cpus[step.c].ie && Apply(s, step).s.cpus[step.c].noff == 1
  {
  }

  // What the scheduler, sched and the locks come to, as whole runs.

  lemma ExecOne(s: State, step: Step, t: State, rest: seq<Step>)
    requires Shape(s) && Apply(s, step) == Next(t)
    ensures Exec(s, [step] + rest) == Exec(t, rest)
  {
    assert ([step] + rest)[1..] == rest;
  }

  lemma {:induction false} ExecThen(s: State, xs: seq<Step>, t: State, ys: seq<Step>)
    requires Exec(s, xs) == Next(t)
    ensures Exec(s, xs + ys) == Exec(t, ys)
    decreases |xs|
  {
    if xs == [] {
      assert xs + ys == ys;
    } else {
      assert xs + ys == [xs[0]] + (xs[1..] + ys);
      ExecOne(s, xs[0], Apply(s, xs[0]).s, xs[1..] + ys);
      ExecThen(Apply(s, xs[0]).s, xs[1..], t, ys);
    }
  }

  lemma Once(s: State, step: Step) returns (t: State)
    requires Inv(s) && Apply(s, step).Next?
    ensures t == Apply(s, step).s && Inv(t) && Exec(s, [step]) == Next(t)
  {
    StepKeeps(s, step);
    t := Apply(s, step).s;
    ExecOne(s, step, t, []);
    assert [step] + [] == [step];
  }

  lemma Did(s: State, step: Step) returns (t: State)
    requires Shape(s) && Apply(s, step).Next?
    ensures t == Apply(s, step).s && Exec(s, [step]) == Next(t)
  {
    t := Apply(s, step).s;
    ExecOne(s, step, t, []);
    assert [step] + [] == [step];
  }

  /** The scheduler of CPU `c` is between processes and has no locks. */
  predicate Looking(s: State, c: nat) {
    c < |s.cpus| && s.cpus[c].place == Loop && s.cpus[c].held == 0 && s.cpus[c].side == NONE
  }

  /** Process `p` runs on CPU `c`, in its own code and without locks. */
  predicate Runs(s: State, c: nat, p: nat) {
    && c < |s.cpus| && p < |s.procs| && s.cpus[c].place == Away(p) && s.procs[p].pc == Run
    && s.cpus[c].held == 0 && s.cpus[c].side == NONE
  }

  lemma Picks(s: State, c: nat, p: nat) returns (t: State)
    requires Inv(s) && Looking(s, c) && p < |s.procs| && s.procs[p].state == RUNNABLE && s.lock[p] == NONE
    ensures Exec(s, [SchedAcquire(c, p)] + [Choose(c)]) == Next(t) && (s.procs[p].pc == Out(s.procs[p].was) || s.procs[p].pc == Embryo)
    ensures t == State(s.cpus[c := Cpu(p, 1, s.cpus[c].ie, false, 0, NONE, Chosen(p))],
                       s.procs[p := s.procs[p].(state := RUNNING, on := c)], s.lock[p := c])
  {
    assert CpuOk(s, c) && ProcOk(s, p);
    assert s.procs[p].on != NONE ==> LockOk(s, s.procs[p].on, p);
    var a := Did(s, SchedAcquire(c, p));
    t := Did(a, Choose(c));
    ExecThen(s, [SchedAcquire(c, p)], a, [Choose(c)]);
  }

  /** CPU `c` has chosen process `p`. */
  predicate Starts(s: State, c: nat, p: nat) {
    && Shape(s) && c < |s.cpus| && p < |s.procs| && s.cpus[c].place == Chosen(p) && s.cpus[c].held == 0 && s.cpus[c].side == NONE
    && s.cpus[c].proc == p && s.cpus[c].noff == 1 && !s.cpus[c].ie && s.lock[p] == c && s.procs[p].state == RUNNING && s.procs[p].on == c
  }

  /** Process `p` runs on CPU `c` without its lock, and interrupts are on or not. */
  ghost function Running(s: State, c: nat, p: nat, on: bool): (t: State)
    requires Shape(s) && c < |s.cpus| && p < |s.procs|
  {
    State(s.cpus[c := Cpu(p, 0, on, on, 0, NONE, Away(p))], s.procs[p := Proc(RUNNING, Run, s.procs[p].was, c)], s.lock[p := NONE])
  }

  lemma EntersFirst(s: State, c: nat, p: nat) returns (steps: seq<Step>, t: State)
    requires Starts(s, c, p) && s.procs[p].pc == Embryo
    ensures Exec(s, steps) == Next(t) && t == Running(s, c, p, s.cpus[c].intena)
  {
    var a := Did(s, SwitchIn(c));
    t := Did(a, ReleaseSelf(c));
    ExecThen(s, [SwitchIn(c)], a, [ReleaseSelf(c)]);
    steps := [SwitchIn(c)] + [ReleaseSelf(c)];
  }

  lemma EntersBack(s: State, c: nat, p: nat) returns (steps: seq<Step>, t: State)
    requires Starts(s, c, p) && s.procs[p].pc.Out?
    ensures Exec(s, steps) == Next(t) && t == Running(s, c, p, s.procs[p].pc.saved)
  {
    var a := Did(s, SwitchIn(c));
    var b := Did(a, Restore(c));
    t := Did(b, ReleaseSelf(c));
    ExecThen(s, [SwitchIn(c)], a, [Restore(c)]);
    ExecThen(s, [SwitchIn(c)] + [Restore(c)], b, [ReleaseSelf(c)]);
    steps := [SwitchIn(c)] + [Restore(c)] + [ReleaseSelf(c)];
  }

  /** The process that was chosen is switched to, and releases the p->lock that the scheduler took. */
  lemma Enters(s: State, c: nat, p: nat) returns (steps: seq<Step>, t: State)
    requires Starts(s, c, p) && (s.procs[p].pc.Out? || s.procs[p].pc == Embryo)
    ensures Exec(s, steps) == Next(t) && t == Running(s, c, p, if s.procs[p].pc.Out? then s.procs[p].pc.saved else s.cpus[c].intena)
  {
    if s.procs[p].pc.Out? {
      steps, t := EntersBack(s, c, p);
    } else {
      steps, t := EntersFirst(s, c, p);
    }
  }

  /** A scheduler that looks at a RUNNABLE process runs it: on this CPU, with the interrupts as the process had them
      when it was switched out, or as the scheduler has them if it has never run. */
  lemma Dispatches(s: State, c: nat, p: nat) returns (steps: seq<Step>, t: State)
    requires Inv(s) && Looking(s, c) && p < |s.procs| && s.procs[p].state == RUNNABLE && s.lock[p] == NONE
    ensures Inv(t) && Exec(s, steps) == Next(t)
    ensures t == Running(s, c, p, if s.procs[p].pc.Out? then s.procs[p].was else s.cpus[c].ie)
  {
    var a := Picks(s, c, p);
    var xs, b := Enters(a, c, p);
    ExecThen(s, [SchedAcquire(c, p)] + [Choose(c)], a, xs);
    steps, t := [SchedAcquire(c, p)] + [Choose(c)] + xs, b;
    RunKeeps(s, steps);
  }

  /** One that is not RUNNABLE it leaves alone. */
  lemma PassesBy(s: State, c: nat, p: nat) returns (t: State)
    requires Inv(s) && Looking(s, c) && p < |s.procs| && s.procs[p].state != RUNNABLE && s.lock[p] == NONE
    ensures Exec(s, [SchedAcquire(c, p)] + [SchedRelease(c)]) == Next(t) && t == s.(cpus := s.cpus[c := s.cpus[c].(intena := s.cpus[c].ie)])
  {
    assert CpuOk(s, c);
    var a := Did(s, SchedAcquire(c, p));
    t := Did(a, SchedRelease(c));
    ExecThen(s, [SchedAcquire(c, p)], a, [SchedRelease(c)]);
    assert t.lock == s.lock;
  }

  lemma GoesOut(s: State, c: nat, p: nat, state: RunState) returns (t: State)
    requires Shape(s) && Runs(s, c, p) && s.lock[p] == NONE && Stopped(state) && s.cpus[c].noff == 0
    ensures Exec(s, [LockSelf(c)] + [SetState(c, state)] + [SwitchOut(c)]) == Next(t)
    ensures var on := s.cpus[c].ie;
      t == State(s.cpus[c := Cpu(s.cpus[c].proc, 1, on, false, 0, NONE, Returned(p))],
                 s.procs[p := Proc(state, Out(on), on, s.procs[p].on)], s.lock[p := c])
  {
    var a := Did(s, LockSelf(c));
    var b := Did(a, SetState(c, state));
    t := Did(b, SwitchOut(c));
    ExecThen(s, [LockSelf(c)], a, [SetState(c, state)]);
    ExecThen(s, [LockSelf(c)] + [SetState(c, state)], b, [SwitchOut(c)]);
  }

  /** yield, sleep or exit: the process is off the CPU, in the state it chose, with its context saved and its lock free,
      and the scheduler is between processes again. */
  lemma GivesUp(s: State, c: nat, p: nat, state: RunState) returns (steps: seq<Step>, t: State)
    requires Inv(s) && Runs(s, c, p) && s.lock[p] == NONE && Stopped(state)
    ensures Inv(t) && Exec(s, steps) == Next(t)
    ensures var on := s.cpus[c].ie;
      t == State(s.cpus[c := Cpu(NONE, 0, on, on, 0, NONE, Loop)], s.procs[p := Proc(state, Out(on), on, NONE)], s.lock)
  {
    assert CpuOk(s, c);
    var a := GoesOut(s, c, p, state);
    var b := Did(a, ClearProc(c));
    t := Did(b, SchedRelease(c));
    var xs := [LockSelf(c)] + [SetState(c, state)] + [SwitchOut(c)];
    ExecThen(s, xs, a, [ClearProc(c)]);
    ExecThen(s, xs + [ClearProc(c)], b, [SchedRelease(c)]);
    steps := xs + [ClearProc(c)] + [SchedRelease(c)];
    assert t.lock == s.lock;
    RunKeeps(s, steps);
  }

  /** The state of a process that another one has looked at. */
  predicate Acted(was: RunState, now: RunState, act: SideAct) {
    match act
    case Wake => now == if was == SLEEPING then RUNNABLE else was
    case Alloc => now == if was == UNUSED then USED else was
    case Fork => now == if was == USED then RUNNABLE else was
    case Reap => now == if was == ZOMBIE || was == USED then UNUSED else was
  }

  lemma SideLocked(s: State, c: nat, q: nat) returns (t: State)
    requires Inv(s) && c < |s.cpus| && q < |s.procs| && Plain(s, c) && s.cpus[c].side == NONE && s.lock[q] == NONE
    ensures Inv(t) && Exec(s, [SideLock(c, q)]) == Next(t) && t == State(s.cpus[c := Push(s.cpus[c]).(side := q)], Note(s, c), s.lock[q := c])
  {
    t := Once(s, SideLock(c, q));
  }

  lemma SideUnlocked(s: State, c: nat, q: nat) returns (t: State)
    requires Inv(s) && c < |s.cpus| && q < |s.procs| && s.cpus[c].side == q
    ensures Inv(t) && Exec(s, [SideUnlock(c)]) == Next(t)
    ensures t == s.(cpus := s.cpus[c := Pop(s.cpus[c].(side := NONE))], lock := s.lock[q := NONE])
  {
    StepPanics(s, SideUnlock(c));
    t := Once(s, SideUnlock(c));
  }

  /** pop_off undoes push_off. */
  lemma PushPop(x: Cpu)
    requires x.noff >= 0 && (x.ie ==> x.noff == 0)
    ensures Pop(Push(x)) == x.(intena := if x.noff == 0 then x.ie else x.intena)
  {
  }

  lemma ActsFrom(s: State, c: nat, q: nat, act: SideAct) returns (steps: seq<Step>, t: State)
    requires Inv(s) && c < |s.cpus| && q < |s.procs| && Plain(s, c) && s.cpus[c].side == NONE && s.lock[q] == NONE
    ensures Inv(t) && Exec(s, steps) == Next(t)
    ensures t == State(s.cpus[c := Pop(Push(s.cpus[c]))], Note(s, c)[q := SideResult(Note(s, c)[q], act)], s.lock)
  {
    var a := SideLocked(s, c, q);
    var b := Once(a, SideDo(c, act));
    t := SideUnlocked(b, c, q);
    ExecThen(s, [SideLock(c, q)], a, [SideDo(c, act)]);
    ExecThen(s, [SideLock(c, q)] + [SideDo(c, act)], b, [SideUnlock(c)]);
    steps := [SideLock(c, q)] + [SideDo(c, act)] + [SideUnlock(c)];
    assert t.lock == s.lock;
  }

  /** wakeup or kill, allocproc, fork and wait at a process that runs nowhere: only that process changes, but for the note
      of the interrupts, and the CPU is as before. */
  lemma ActsOn(s: State, c: nat, q: nat, act: SideAct) returns (steps: seq<Step>, t: State)
    requires Inv(s) && c < |s.cpus| && q < |s.procs| && Plain(s, c) && s.cpus[c].side == NONE && s.lock[q] == NONE && s.procs[q].on == NONE
    ensures Inv(t) && Exec(s, steps) == Next(t) && t.lock == s.lock && |t.procs| == |s.procs| && Acted(s.procs[q].state, t.procs[q].state, act)
    ensures |t.cpus| == |s.cpus| && t.cpus == s.cpus[c := s.cpus[c].(intena := t.cpus[c].intena)]
    ensures forall r :: 0 <= r < |s.procs| && r != q ==> t.procs[r] == s.procs[r].(was := t.procs[r].was)
    ensures t.procs[q].was == s.procs[q].was && t.procs[q].on == NONE && (act == Wake || act == Fork ==> t.procs[q].pc == s.procs[q].pc)
  {
    assert CpuOk(s, c);
    PushPop(s.cpus[c]);
    steps, t := ActsFrom(s, c, q, act);
  }

  /** What another CPU does does not depend on a process that has left its own. */
  lemma StillPlain(s: State, t: State, c: nat, p: nat, d: nat)
    requires Inv(s) && Runs(s, c, p) && d < |s.cpus| && (d == c || (Plain(s, d) && s.cpus[d].side == NONE))
    requires |t.cpus| == |s.cpus| && t.cpus[c].place == Loop && t.cpus[c].side == NONE && (d != c ==> t.cpus[d] == s.cpus[d])
    requires |t.procs| == |s.procs| && forall q :: 0 <= q < |s.procs| && q != p ==> t.procs[q] == s.procs[q]
    ensures Plain(t, d) && t.cpus[d].side == NONE
  {
    assert CpuOk(s, c) && CpuOk(s, d);
  }

  lemma SleepsWoken(s: State, c: nat, p: nat, d: nat, e: nat) returns (steps: seq<Step>, t: State)
    requires Inv(s) && Runs(s, c, p) && s.lock[p] == NONE && d < |s.cpus| && (d == c || (Plain(s, d) && s.cpus[d].side == NONE))
    requires e == c || Looking(s, e)
    ensures Inv(t) && Exec(s, steps) == Next(t) && |t.procs| == |s.procs| && t.lock == s.lock && Looking(t, e)
    ensures t.procs[p].state == RUNNABLE && t.procs[p].pc.Out? && t.procs[p].was == s.cpus[c].ie
  {
    var xs, a := GivesUp(s, c, p, SLEEPING);
    StillPlain(s, a, c, p, d);
    var ys, b := ActsOn(a, d, p, Wake);
    ExecThen(s, xs, a, ys);
    steps, t := xs + ys, b;
    assert e == d ==> t.cpus[e] == a.cpus[e].(intena := t.cpus[e].intena);
    assert e != d ==> t.cpus[e] == a.cpus[e];
  }

  /** A process that sleeps on one CPU, is woken by another and run by a third goes on where it was, with the interrupts as
      they were, on the third. */
  lemma RunsElsewhere(s: State, c: nat, p: nat, d: nat, e: nat) returns (steps: seq<Step>, t: State)
    requires Reachable(s) && Shape(s) && Runs(s, c, p) && s.lock[p] == NONE && d < |s.cpus|
    requires d == c || (Plain(s, d) && s.cpus[d].side == NONE)
    requires e == c || Looking(s, e)
    ensures Exec(s, steps) == Next(t) && Runs(t, e, p) && |t.lock| == |t.procs| && t.lock[p] == NONE && t.cpus[e].ie == s.cpus[c].ie
  {
    ReachableInv(s);
    var xs, a := SleepsWoken(s, c, p, d, e);
    var ys, b := Dispatches(a, e, p);
    ExecThen(s, xs, a, ys);
    steps, t := xs + ys, b;
  }

  function Repeat(step: Step, n: nat): (steps: seq<Step>)
    ensures |steps| == n
  {
    if n == 0 then [] else Repeat(step, n - 1) + [step]
  }

  lemma {:induction false} Takes(s: State, c: nat, k: nat) returns (t: State)
    requires Shape(s) && c < |s.cpus| && Plain(s, c)
    ensures Shape(t) && Exec(s, Repeat(AcquireLk(c), k)) == Next(t) && |t.cpus| == |s.cpus| && Plain(t, c)
    ensures t.cpus[c].held == s.cpus[c].held + k && t.cpus[c].noff == s.cpus[c].noff + k && (k > 0 ==> !t.cpus[c].ie)
    ensures s.cpus[c].noff == 0 && k > 0 ==> t.cpus[c].intena == s.cpus[c].ie
  {
    if k == 0 {
      t := s;
    } else {
      var a := Takes(s, c, k - 1);
      t := Did(a, AcquireLk(c));
      ExecThen(s, Repeat(AcquireLk(c), k - 1), a, [AcquireLk(c)]);
    }
  }

  lemma {:induction false} Gives(s: State, c: nat, k: nat) returns (t: State)
    requires Shape(s) && c < |s.cpus| && s.cpus[c].held >= k && s.cpus[c].noff >= k && (k > 0 ==> !s.cpus[c].ie)
    ensures Shape(t) && Exec(s, Repeat(ReleaseLk(c), k)) == Next(t) && |t.cpus| == |s.cpus|
    ensures t.cpus[c].held == s.cpus[c].held - k && t.cpus[c].noff == s.cpus[c].noff - k && t.cpus[c].intena == s.cpus[c].intena
    ensures t.cpus[c].ie <==> if k == 0 then s.cpus[c].ie else s.cpus[c].noff == k && s.cpus[c].intena
  {
    if k == 0 {
      t := s;
    } else {
      var a := Gives(s, c, k - 1);
      t := Did(a, ReleaseLk(c));
      ExecThen(s, Repeat(ReleaseLk(c), k - 1), a, [ReleaseLk(c)]);
    }
  }

  /** Spin locks nest: a thread that sets its interrupts, takes `k` locks and releases them has interrupts off from the first
      acquire to the last release, and afterwards as it set them. */
  lemma LocksNest(s: State, c: nat, on: bool, k: nat) returns (a: State, t: State)
    requires Reachable(s) && Shape(s) && c < |s.cpus| && Plain(s, c) && s.cpus[c].noff == 0 && k > 0
    ensures Exec(s, [SetIntr(c, on)] + Repeat(AcquireLk(c), k)) == Next(a) && |a.cpus| == |s.cpus| && !a.cpus[c].ie && a.cpus[c].noff == k
    ensures Exec(a, Repeat(ReleaseLk(c), k)) == Next(t) && |t.cpus| == |s.cpus| && t.cpus[c].ie == on && t.cpus[c].noff == 0
  {
    ReachableInv(s);
    assert CpuOk(s, c);
    var m := Did(s, SetIntr(c, on));
    a := Takes(m, c, k);
    ExecThen(s, [SetIntr(c, on)], m, Repeat(AcquireLk(c), k));
    t := Gives(a, c, k);
  }
}
