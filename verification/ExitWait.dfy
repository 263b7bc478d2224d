/** fork, exit, wait, reparent and kill of kernel/proc.c in every interleaving of any
    number of processes. A step is one critical section of a p->lock, or one round of a
    loop under wait_lock. Sleeping and waking on channels other than wait's own is left to
    SleepWakeup; here such a process is simply alive. */
module ExitWait {

  const NONE: int := -1

  datatype RunState = UNUSED | USED | ALIVE | WAITING | ZOMBIE   // WAITING: SLEEPING in wait

  datatype Pc =
    | Run
    | Forking(np: nat)       // np is allocated
    | Parented(np: nat)      // and has its parent
    | Reparenting(i: nat)    // exit has wait_lock and looks at process i
    | WakingInit(i: nat)     // has given process i to init
    | WakingParent           // has no more children
    | Dying                  // has its own p->lock as well
    | Dead                   // has become a ZOMBIE
    | Gone                   // has released wait_lock, not yet p->lock
    | Off                    // is off its kernel stack
    | Scanning(i: nat, kids: bool, tested: bool)  // wait has wait_lock and looks at process i, or has tested killed() and will sleep
    | Asleep                 // in the sleep inside wait

  datatype Proc = Proc(state: RunState, pc: Pc, parent: int, pid: int, xstate: int, killed: bool)

  datatype Reaped = Reaped(pid: int, status: int)

  /** `wl` holds wait_lock. `exits` is the status every exited process left, by pid, and
      `reaps` is what the calls of wait have returned so far. */
  datatype State = State(procs: seq<Proc>, wl: int, root: nat, nextpid: nat, exits: map<int, int>, reaps: seq<Reaped>)

  datatype Step =
    | Alloc(p: nat, np: nat)       // allocproc
    | AllocFails(p: nat)           // freeproc after a failed copy
    | SetParent(p: nat)
    | Start(p: nat)                // the child becomes RUNNABLE
    | Exit(p: nat)                 // acquire(&wait_lock)
    | Reparent(p: nat)             // one round of the loop in reparent
    | WakeInit(p: nat)
    | WakeParent(p: nat)           // and acquire(&p->lock)
    | Die(p: nat, status: int)
    | LeaveLock(p: nat)            // release(&wait_lock)
    | SwitchOff(p: nat)            // the scheduler releases p->lock
    | Wait(p: nat)                 // acquire(&wait_lock), at first or after sleep
    | Scan(p: nat, copies: bool)   // one round of the loop in wait; copyout succeeds or not
    | Finish(p: nat)               // the end of the loop: give up, or not, if there are children and killed() says no
    | Sleep(p: nat)                // sleep
    | Kill(q: nat)

  datatype Outcome = Next(s: State) | Blocked | InitExits

  predicate HasWl(pc: Pc) {
    pc.Reparenting? || pc.WakingInit? || pc.WakingParent? || pc.Dying? || pc.Dead? || pc.Scanning?
  }

  /** Has its own p->lock, from exit into the scheduler. */
  predicate HasSelf(pc: Pc) {
    pc.Dying? || pc.Dead? || pc.Gone?
  }

  function Woken(x: Proc): (y: Proc) {
    if x.state == WAITING then x.(state := ALIVE) else x
  }

  function SetPc(s: State, p: nat, pc: Pc): (t: State)
    requires p < |s.procs|
  {
    s.(procs := s.procs[p := s.procs[p].(pc := pc)])
  }

  function Freed(): (x: Proc) {
    Proc(UNUSED, Run, NONE, 0, 0, false)
  }

  /** Steps of fork. */
  function ApplyFork(s: State, step: Step, p: nat): (r: Outcome)
    requires p < |s.procs|
  {
    var x := s.procs[p];
    match step
    case Alloc(_, np) =>
      if x.state == ALIVE && x.pc == Run && np < |s.procs| && s.procs[np].state == UNUSED then
        var t := SetPc(s, p, Forking(np));
        Next(t.(procs := t.procs[np := Proc(USED, Run, NONE, s.nextpid, 0, false)], nextpid := s.nextpid + 1))
      else Blocked
    case AllocFails(_) =>
      if x.pc.Forking? && x.pc.np < |s.procs| then
        var t := SetPc(s, p, Run);
        Next(t.(procs := t.procs[x.pc.np := Freed()]))
      else Blocked
    case SetParent(_) =>
      if x.pc.Forking? && x.pc.np < |s.procs| && s.wl == NONE then
        var t := SetPc(s, p, Parented(x.pc.np));
        Next(t.(procs := t.procs[x.pc.np := t.procs[x.pc.np].(parent := p)]))
      else Blocked
    case Start(_) =>
      if x.pc.Parented? && x.pc.np < |s.procs| then
        var t := SetPc(s, p, Run);
        Next(t.(procs := t.procs[x.pc.np := t.procs[x.pc.np].(state := ALIVE)]))
      else Blocked
    case _ => Blocked
  }

  /** Steps of exit. */
  function ApplyExit(s: State, step: Step, p: nat): (r: Outcome)
    requires p < |s.procs| && s.root < |s.procs|
  {
    var x := s.procs[p];
    match step
    case Exit(_) =>
      if !(x.state == ALIVE && x.pc == Run) then Blocked
      else if p == s.root then InitExits
      else if s.wl != NONE then Blocked
      else Next(SetPc(s, p, Reparenting(0)).(wl := p))
    case Reparent(_) =>
      if !x.pc.Reparenting? then Blocked
      else if x.pc.i >= |s.procs| then Next(SetPc(s, p, WakingParent))
      else if s.procs[x.pc.i].parent == p then
        var t := SetPc(s, p, WakingInit(x.pc.i));
        Next(t.(procs := t.procs[x.pc.i := t.procs[x.pc.i].(parent := s.root)]))
      else Next(SetPc(s, p, Reparenting(x.pc.i + 1)))
    case WakeInit(_) =>
      if x.pc.WakingInit? then
        var t := SetPc(s, p, Reparenting(x.pc.i + 1));
        Next(t.(procs := t.procs[s.root := Woken(t.procs[s.root])]))
      else Blocked
    case WakeParent(_) =>
      if x.pc.WakingParent? && 0 <= x.parent < |s.procs| then
        var t := SetPc(s, p, Dying);
        Next(t.(procs := t.procs[x.parent := Woken(t.procs[x.parent])]))
      else Blocked
    case Die(_, status) =>
      if x.pc.Dying? then
        Next(s.(procs := s.procs[p := x.(state := ZOMBIE, xstate := status, pc := Dead)], exits := s.exits[x.pid := status]))
      else Blocked
    case LeaveLock(_) => if x.pc.Dead? then Next(SetPc(s, p, Gone).(wl := NONE)) else Blocked
    case SwitchOff(_) => if x.pc.Gone? then Next(SetPc(s, p, Off)) else Blocked
    case _ => Blocked
  }

  /** Steps of wait. */
  function ApplyWait(s: State, step: Step, p: nat): (r: Outcome)
    requires p < |s.procs|
  {
    var x := s.procs[p];
    match step
    case Wait(_) =>
      if x.state == ALIVE && (x.pc == Run || x.pc == Asleep) && s.wl == NONE then
        Next(SetPc(s, p, Scanning(0, false, false)).(wl := p))
      else Blocked
    case Scan(_, copies) =>
      if !(x.pc.Scanning? && x.pc.i < |s.procs|) then Blocked
      else
        var y := s.procs[x.pc.i];
        if y.parent != p then Next(SetPc(s, p, Scanning(x.pc.i + 1, x.pc.kids, false)))
        else if HasSelf(y.pc) then Blocked
        else if y.state != ZOMBIE then Next(SetPc(s, p, Scanning(x.pc.i + 1, true, false)))
        else if !copies then Next(SetPc(s, p, Run).(wl := NONE))
        else
          var t := SetPc(s, p, Run);
          Next(t.(procs := t.procs[x.pc.i := Freed()], wl := NONE, reaps := s.reaps + [Reaped(y.pid, y.xstate)]))
    case Finish(_) =>
      if !(x.pc.Scanning? && x.pc.i >= |s.procs| && !x.pc.tested) then Blocked
      else if !x.pc.kids || x.killed then Next(SetPc(s, p, Run).(wl := NONE))
      else Next(SetPc(s, p, Scanning(x.pc.i, true, true)))
    case Sleep(_) =>
      if x.pc.Scanning? && x.pc.i >= |s.procs| && x.pc.tested then
        Next(s.(procs := s.procs[p := x.(state := WAITING, pc := Asleep)], wl := NONE))
      else Blocked
    case _ => Blocked
  }

  predicate OfFork(step: Step) {
    step.Alloc? || step.AllocFails? || step.SetParent? || step.Start?
  }

  predicate OfWait(step: Step) {
    step.Wait? || step.Scan? || step.Finish? || step.Sleep?
  }

  function Apply(s: State, step: Step): (r: Outcome) {
    if s.root >= |s.procs| then Blocked
    else if step.Kill? then
      if step.q < |s.procs| && s.procs[step.q].state != UNUSED && !HasSelf(s.procs[step.q].pc) then
        Next(s.(procs := s.procs[step.q := Woken(s.procs[step.q]).(killed := true)]))
      else Blocked
    else if step.p >= |s.procs| then Blocked
    else if OfFork(step) then ApplyFork(s, step, step.p)
    else if OfWait(step) then ApplyWait(s, step, step.p)
    else ApplyExit(s, step, step.p)
  }

  // The invariant: where every process is.

  predicate Live(state: RunState) {
    state == ALIVE || state == WAITING
  }

  predicate StateOk(x: Proc) {
    match x.state
    case UNUSED => x.pc == Run && x.parent == NONE
    case USED => x.pc == Run
    case WAITING => x.pc == Asleep
    case ZOMBIE => x.pc.Dead? || x.pc.Gone? || x.pc.Off?
    case ALIVE => !x.pc.Dead? && !x.pc.Gone? && !x.pc.Off?
  }

  predicate SelfOk(s: State, p: nat)
    requires p < |s.procs|
  {
    && StateOk(s.procs[p])
    && (s.wl == p <==> HasWl(s.procs[p].pc))
    && (p == s.root ==>
          Live(s.procs[p].state) && !s.procs[p].pc.Reparenting? && !s.procs[p].pc.WakingInit? &&
          s.procs[p].pc != WakingParent && s.procs[p].pc != Dying)
  }

  /** Every process but init has a parent once it runs, and that parent is alive. */
  predicate ParentOk(s: State, p: nat)
    requires p < |s.procs|
  {
    var x := s.procs[p];
    && (x.parent != NONE ==> 0 <= x.parent < |s.procs| && x.parent != p && Live(s.procs[x.parent].state))
    && (x.state != UNUSED && x.state != USED && p != s.root ==> x.parent != NONE)
    && (p == s.root ==> x.parent == NONE)
    && (x.pc == Dying ==> x.parent != NONE && s.procs[x.parent].state != WAITING)
  }

  /** The child a process is creating. */
  predicate ForkOk(s: State, p: nat)
    requires p < |s.procs|
  {
    var pc := s.procs[p].pc;
    && (pc.Forking? ==> pc.np < |s.procs| && s.procs[pc.np].state == USED && s.procs[pc.np].parent == NONE)
    && (pc.Parented? ==> pc.np < |s.procs| && s.procs[pc.np].state == USED && s.procs[pc.np].parent == p)
  }

  /** How many processes exit has looked at and passed on. */
  function Passed(s: State, pc: Pc): (n: nat) {
    match pc
    case Reparenting(i) => i
    case WakingInit(i) => i + 1
    case WakingParent => |s.procs|
    case Dying => |s.procs|
    case _ => 0
  }

  /** exit is between giving a child to init and waking init. */
  predicate Waking(s: State) {
    0 <= s.wl < |s.procs| && s.procs[s.wl].pc.WakingInit?
  }

  /** exit has no children left among those it has passed. */
  predicate PassedOk(s: State, p: nat, q: nat)
    requires p < |s.procs| && q < |s.procs|
  {
    q < Passed(s, s.procs[p].pc) ==> s.procs[q].parent != p
  }

  /** wait has seen no ZOMBIE child so far, and knows if it has children at all. */
  predicate ScanOk(s: State, p: nat, q: nat)
    requires p < |s.procs| && q < |s.procs|
  {
    s.procs[p].pc.Scanning? && q < s.procs[p].pc.i && s.procs[q].parent == p ==> s.procs[q].state != ZOMBIE && s.procs[p].pc.kids
  }

  /** Nobody sleeps in wait with a ZOMBIE child, except init while it is about to be woken. */
  predicate SleepOk(s: State, p: nat, q: nat)
    requires p < |s.procs| && q < |s.procs|
  {
    s.procs[p].state == WAITING && s.procs[q].parent == p && s.procs[q].state == ZOMBIE ==> p == s.root && Waking(s)
  }

  /** No two processes are creating the same child. */
  predicate DistinctOk(s: State, p: nat, q: nat)
    requires p < |s.procs| && q < |s.procs|
  {
    var a, b := s.procs[p].pc, s.procs[q].pc;
    p != q && (a.Forking? || a.Parented?) && (b.Forking? || b.Parented?) ==> a.np != b.np
  }

  predicate PairOk(s: State, p: nat, q: nat)
    requires p < |s.procs| && q < |s.procs|
  {
    PassedOk(s, p, q) && ScanOk(s, p, q) && SleepOk(s, p, q) && DistinctOk(s, p, q)
  }

  ghost predicate TreeInv(s: State) {
    && s.root < |s.procs| && NONE <= s.wl < |s.procs|
    && (forall p :: 0 <= p < |s.procs| ==> SelfOk(s, p))
    && (forall p :: 0 <= p < |s.procs| ==> ParentOk(s, p))
    && (forall p :: 0 <= p < |s.procs| ==> ForkOk(s, p))
    && (forall p, q :: 0 <= p < |s.procs| && 0 <= q < |s.procs| ==> PairOk(s, p, q))
  }

  /** The process that takes the step; for kill it is the victim. */
  function Actor(step: Step): (p: nat) {
    if step.Kill? then step.q else step.p
  }

  lemma RangeKeeps(s: State, step: Step)
    requires TreeInv(s) && Apply(s, step).Next?
    ensures var t := Apply(s, step).s; |t.procs| == |s.procs| && t.root == s.root && NONE <= t.wl < |t.procs|
  {
  }

  /** The part of the invariant about process `p`, the one that moves, and process `q`. */
  ghost predicate Near(s: State, p: nat, q: nat) {
    && p < |s.procs| && q < |s.procs| && s.root < |s.procs|
    && SelfOk(s, p) && SelfOk(s, q) && SelfOk(s, s.root)
    && ParentOk(s, p) && ParentOk(s, q) && ParentOk(s, s.root)
    && ForkOk(s, p) && ForkOk(s, q)
    && PassedOk(s, p, q) && DistinctOk(s, p, q) && DistinctOk(s, q, p)
  }

  lemma ForkState(s: State, step: Step, q: nat)
    requires Apply(s, step).Next? && Near(s, Actor(step), q) && (step.Kill? || OfFork(step))
    ensures q < |Apply(s, step).s.procs| && SelfOk(Apply(s, step).s, q)
  {
  }

  lemma ForkParent(s: State, step: Step, q: nat)
    requires Apply(s, step).Next? && Near(s, Actor(step), q) && (step.Kill? || OfFork(step))
    ensures q < |Apply(s, step).s.procs| && ParentOk(Apply(s, step).s, q)
  {
  }

  lemma ForkChild(s: State, step: Step, q: nat)
    requires Apply(s, step).Next? && Near(s, Actor(step), q) && (step.Kill? || OfFork(step))
    ensures q < |Apply(s, step).s.procs| && ForkOk(Apply(s, step).s, q)
  {
  }

  lemma ExitState(s: State, step: Step, q: nat)
    requires Apply(s, step).Next? && Near(s, Actor(step), q) && (OfExit(step))
    ensures q < |Apply(s, step).s.procs| && SelfOk(Apply(s, step).s, q)
  {
  }

  lemma WakerParent(s: State, step: Step, q: nat)
    requires Apply(s, step).Next? && Near(s, Actor(step), q) && (step.Reparent? || step.WakeInit? || step.WakeParent?)
    ensures q < |Apply(s, step).s.procs| && ParentOk(Apply(s, step).s, q)
  {
  }

  lemma ExitParent(s: State, step: Step, q: nat)
    requires Apply(s, step).Next? && Near(s, Actor(step), q) && OfExit(step)
    ensures q < |Apply(s, step).s.procs| && ParentOk(Apply(s, step).s, q)
  {
    if step.Reparent? || step.WakeInit? || step.WakeParent? {
      WakerParent(s, step, q);
    }
  }

  lemma ExitChild(s: State, step: Step, q: nat)
    requires Apply(s, step).Next? && Near(s, Actor(step), q) && (OfExit(step))
    ensures q < |Apply(s, step).s.procs| && ForkOk(Apply(s, step).s, q)
  {
  }

  lemma WaitState(s: State, step: Step, q: nat)
    requires Apply(s, step).Next? && Near(s, Actor(step), q) && (OfWait(step))
    ensures q < |Apply(s, step).s.procs| && SelfOk(Apply(s, step).s, q)
  {
  }

  lemma ScanParent(s: State, step: Step, q: nat)
    requires Apply(s, step).Next? && Near(s, Actor(step), q) && step.Scan?
    ensures q < |Apply(s, step).s.procs| && ParentOk(Apply(s, step).s, q)
  {
  }

  lemma WaitParent(s: State, step: Step, q: nat)
    requires Apply(s, step).Next? && Near(s, Actor(step), q) && OfWait(step)
    ensures q < |Apply(s, step).s.procs| && ParentOk(Apply(s, step).s, q)
  {
    if step.Scan? {
      ScanParent(s, step, q);
    }
  }

  lemma WaitChild(s: State, step: Step, q: nat)
    requires Apply(s, step).Next? && Near(s, Actor(step), q) && (OfWait(step))
    ensures q < |Apply(s, step).s.procs| && ForkOk(Apply(s, step).s, q)
  {
  }

  /** While another process holds wait_lock, no parent and no ZOMBIE appears. */
  lemma Bystander(s: State, step: Step, h: nat, b: nat)
    requires Apply(s, step).Next? && Near(s, Actor(step), b) && h < |s.procs| && s.wl == h && h != Actor(step) && SelfOk(s, h)
    ensures var t := Apply(s, step).s;
      && |t.procs| == |s.procs| && t.wl == h && t.procs[h].pc == s.procs[h].pc
      && (t.procs[b].parent == s.procs[b].parent || t.procs[b].parent == NONE)
      && (t.procs[b].state == ZOMBIE ==> s.procs[b].state == ZOMBIE)
  {
  }

  lemma HolderMoves(s: State, step: Step)
    requires Apply(s, step).Next? && Near(s, Actor(step), Actor(step))
    ensures var t := Apply(s, step).s; t.wl == NONE || t.wl == Actor(step) || t.wl == s.wl
  {
  }

  predicate OfExit(step: Step) {
    !step.Kill? && !OfFork(step) && !OfWait(step)
  }

  /** Only exit passes processes on, only wait scans and only fork creates. */
  lemma MoverPc(s: State, step: Step)
    requires Apply(s, step).Next? && Near(s, Actor(step), Actor(step)) && !step.Kill?
    ensures var pc := Apply(s, step).s.procs[step.p].pc;
      && (!OfExit(step) ==> Passed(s, pc) == 0)
      && (pc.Scanning? ==> OfWait(step))
      && (pc.Forking? || pc.Parented? ==> OfFork(step))
  {
  }

  lemma PassedMover(s: State, step: Step, b: nat)
    requires Apply(s, step).Next? && Near(s, Actor(step), b) && OfExit(step)
    ensures var t := Apply(s, step).s; |t.procs| == |s.procs| && PassedOk(t, step.p, b)
  {
  }

  lemma ScanMover(s: State, step: Step, b: nat)
    requires Apply(s, step).Next? && Near(s, Actor(step), b) && ScanOk(s, Actor(step), b) && OfWait(step)
    ensures var t := Apply(s, step).s; |t.procs| == |s.procs| && ScanOk(t, step.p, b)
  {
  }

  lemma SleepFork(s: State, step: Step, a: nat, b: nat)
    requires Apply(s, step).Next? && Near(s, Actor(step), a) && Near(s, Actor(step), b) && (step.Kill? || OfFork(step))
    requires SleepOk(s, a, b) && (0 <= s.wl < |s.procs| ==> SelfOk(s, s.wl))
    ensures var t := Apply(s, step).s; |t.procs| == |s.procs| && SleepOk(t, a, b)
  {
  }

  lemma SleepExit(s: State, step: Step, a: nat, b: nat)
    requires Apply(s, step).Next? && Near(s, Actor(step), a) && Near(s, Actor(step), b)
    requires OfExit(step)
    requires SleepOk(s, a, b) && (0 <= s.wl < |s.procs| ==> SelfOk(s, s.wl))
    ensures var t := Apply(s, step).s; |t.procs| == |s.procs| && SleepOk(t, a, b)
  {
  }

  lemma SleepWait(s: State, step: Step, a: nat, b: nat)
    requires Apply(s, step).Next? && Near(s, Actor(step), a) && Near(s, Actor(step), b) && OfWait(step)
    requires SleepOk(s, a, b) && ScanOk(s, a, b) && (0 <= s.wl < |s.procs| ==> SelfOk(s, s.wl))
    ensures var t := Apply(s, step).s; |t.procs| == |s.procs| && SleepOk(t, a, b)
  {
  }

  lemma DistinctFork(s: State, step: Step, a: nat, b: nat)
    requires Apply(s, step).Next? && a < |s.procs| && b < |s.procs| && s.root < |s.procs| && OfFork(step)
    requires DistinctOk(s, a, b) && ForkOk(s, a) && ForkOk(s, b)
    ensures |Apply(s, step).s.procs| == |s.procs| && DistinctOk(Apply(s, step).s, a, b)
  {
  }

  /** A process that is creating a child after a step other than fork's was doing so before. */
  lemma StillCreating(s: State, step: Step, a: nat)
    requires Apply(s, step).Next? && s.root < |s.procs| && a < |s.procs| && !OfFork(step)
    ensures var pc := Apply(s, step).s.procs[a].pc; pc.Forking? || pc.Parented? ==> pc == s.procs[a].pc
  {
  }

  lemma NearFrom(s: State, step: Step, q: nat)
    requires TreeInv(s) && Apply(s, step).Next? && q < |s.procs|
    ensures Near(s, Actor(step), q)
  {
    var p := Actor(step);
    assert PairOk(s, p, q) && PairOk(s, q, p);
  }

  lemma KillPair(s: State, step: Step, a: nat, b: nat)
    requires Apply(s, step).Next? && step.Kill? && a < |s.procs| && b < |s.procs| && PassedOk(s, a, b) && ScanOk(s, a, b)
    ensures var t := Apply(s, step).s; |t.procs| == |s.procs| && PassedOk(t, a, b) && ScanOk(t, a, b)
  {
  }

  /** What the holder of wait_lock knows stays true. */
  lemma HolderKeeps(s: State, step: Step, a: nat, b: nat)
    requires TreeInv(s) && Apply(s, step).Next? && a < |s.procs| && b < |s.procs|
    requires |Apply(s, step).s.procs| == |s.procs| && SelfOk(Apply(s, step).s, a)
    ensures PassedOk(Apply(s, step).s, a, b) && ScanOk(Apply(s, step).s, a, b)
  {
    var t := Apply(s, step).s;
    var p := Actor(step);
    NearFrom(s, step, b);
    NearFrom(s, step, p);
    assert PairOk(s, a, b);
    if step.Kill? {
      KillPair(s, step, a, b);
    } else if a == p {
      MoverPc(s, step);
      if OfExit(step) {
        PassedMover(s, step, b);
      } else if OfWait(step) {
        ScanMover(s, step, b);
      }
    } else if t.wl == a {
      HolderMoves(s, step);
      Bystander(s, step, a, b);
    }
  }

  lemma SleepKeeps(s: State, step: Step, a: nat, b: nat)
    requires TreeInv(s) && Apply(s, step).Next? && a < |s.procs| && b < |s.procs|
    ensures |Apply(s, step).s.procs| == |s.procs| && SleepOk(Apply(s, step).s, a, b)
  {
    NearFrom(s, step, a);
    NearFrom(s, step, b);
    assert PairOk(s, a, b);
    if OfExit(step) {
      SleepExit(s, step, a, b);
    } else if OfWait(step) {
      SleepWait(s, step, a, b);
    } else {
      SleepFork(s, step, a, b);
    }
  }

  lemma DistinctKeeps(s: State, step: Step, a: nat, b: nat)
    requires TreeInv(s) && Apply(s, step).Next? && a < |s.procs| && b < |s.procs|
    ensures |Apply(s, step).s.procs| == |s.procs| && DistinctOk(Apply(s, step).s, a, b)
  {
    RangeKeeps(s, step);
    NearFrom(s, step, a);
    NearFrom(s, step, b);
    assert PairOk(s, a, b);
    if OfFork(step) {
      DistinctFork(s, step, a, b);
    } else {
      StillCreating(s, step, a);
      StillCreating(s, step, b);
    }
  }

  lemma EachKeeps(s: State, step: Step, q: nat)
    requires TreeInv(s) && Apply(s, step).Next? && q < |s.procs|
    ensures var t := Apply(s, step).s; q < |t.procs| && SelfOk(t, q) && ParentOk(t, q) && ForkOk(t, q)
  {
    NearFrom(s, step, q);
    if OfExit(step) {
      ExitState(s, step, q); ExitParent(s, step, q); ExitChild(s, step, q);
    } else if OfWait(step) {
      WaitState(s, step, q); WaitParent(s, step, q); WaitChild(s, step, q);
    } else {
      ForkState(s, step, q); ForkParent(s, step, q); ForkChild(s, step, q);
    }
  }

  lemma TreeKeeps(s: State, step: Step)
    requires TreeInv(s) && Apply(s, step).Next?
    ensures TreeInv(Apply(s, step).s)
  {
    RangeKeeps(s, step);
    var t := Apply(s, step).s;
    forall q | 0 <= q < |t.procs| ensures SelfOk(t, q) && ParentOk(t, q) && ForkOk(t, q) {
      EachKeeps(s, step, q);
    }
    forall p, q | 0 <= p < |t.procs| && 0 <= q < |t.procs| ensures PairOk(t, p, q) {
      EachKeeps(s, step, p);
      HolderKeeps(s, step, p, q);
      SleepKeeps(s, step, p, q);
      DistinctKeeps(s, step, p, q);
    }
  }

  // The invariant: what every exited process leaves behind.

  ghost predicate WasReaped(s: State, pid: int) {
    exists i :: 0 <= i < |s.reaps| && s.reaps[i].pid == pid
  }

  ghost predicate IsZombie(s: State, pid: int) {
    exists q :: 0 <= q < |s.procs| && s.procs[q].state == ZOMBIE && s.procs[q].pid == pid
  }

  ghost predicate PidOk(s: State, p: nat)
    requires p < |s.procs|
  {
    var x := s.procs[p];
    x.state != UNUSED ==>
      && x.pid < s.nextpid && !WasReaped(s, x.pid)
      && (x.state == ZOMBIE <==> x.pid in s.exits)
      && (x.state == ZOMBIE ==> s.exits[x.pid] == x.xstate)
  }

  predicate PidsDiffer(s: State, p: nat, q: nat)
    requires p < |s.procs| && q < |s.procs|
  {
    p != q && s.procs[p].state != UNUSED && s.procs[q].state != UNUSED ==> s.procs[p].pid != s.procs[q].pid
  }

  ghost predicate PidInv(s: State) {
    && (forall p :: 0 <= p < |s.procs| ==> PidOk(s, p))
    && (forall p, q :: 0 <= p < |s.procs| && 0 <= q < |s.procs| ==> PidsDiffer(s, p, q))
    && (forall i :: 0 <= i < |s.reaps| ==> s.reaps[i].pid in s.exits && s.exits[s.reaps[i].pid] == s.reaps[i].status)
    && (forall i, j :: 0 <= i < j < |s.reaps| ==> s.reaps[i].pid != s.reaps[j].pid)
    && (forall pid :: pid in s.exits ==> pid < s.nextpid && (WasReaped(s, pid) || IsZombie(s, pid)))
  }

  /** What a step does to the records: exit adds one, wait moves one, nothing else does. */
  lemma Records(s: State, step: Step)
    requires Apply(s, step).Next? && Near(s, Actor(step), Actor(step))
    ensures var t := Apply(s, step).s;
      && t.nextpid == s.nextpid + (if step.Alloc? then 1 else 0)
      && t.exits == (if step.Die? then s.exits[s.procs[step.p].pid := step.status] else s.exits)
      && (t.reaps == s.reaps ||
          (step.Scan? && Reaps(s, step.p) && t.reaps == s.reaps + [Reaped(Child(s, step.p).pid, Child(s, step.p).xstate)]
           && |t.procs| == |s.procs| && t.procs[s.procs[step.p].pc.i].state == UNUSED))
  {
  }

  /** wait at `p` looks at a ZOMBIE child that is off its kernel stack. */
  predicate Reaps(s: State, p: nat) {
    && p < |s.procs| && s.procs[p].pc.Scanning? && s.procs[p].pc.i < |s.procs|
    && Child(s, p).parent == p && Child(s, p).state == ZOMBIE && !HasSelf(Child(s, p).pc)
  }

  function Child(s: State, p: nat): (x: Proc)
    requires p < |s.procs| && s.procs[p].pc.Scanning? && s.procs[p].pc.i < |s.procs|
  {
    s.procs[s.procs[p].pc.i]
  }

  /** Slot `q` is empty, newly allocated, or in the hands of the same process as before. */
  predicate SlotMoved(s: State, t: State, step: Step, q: nat) {
    && |t.procs| == |s.procs| && q < |s.procs|
    && (t.procs[q].state == UNUSED ||
        (step.Alloc? && step.np == q && t.procs[q].state == USED && t.procs[q].pid == s.nextpid) ||
        (t.procs[q].pid == s.procs[q].pid && s.procs[q].state != UNUSED))
  }

  lemma ForkSlot(s: State, step: Step, q: nat)
    requires Apply(s, step).Next? && OfFork(step) && s.root < |s.procs| && q < |s.procs|
    requires SelfOk(s, Actor(step)) && ForkOk(s, Actor(step)) && StateOk(s.procs[q])
    ensures SlotMoved(s, Apply(s, step).s, step, q)
  {
  }

  lemma SlotPid(s: State, step: Step, q: nat)
    requires Apply(s, step).Next? && s.root < |s.procs| && q < |s.procs|
    requires SelfOk(s, Actor(step)) && ForkOk(s, Actor(step)) && StateOk(s.procs[q])
    ensures SlotMoved(s, Apply(s, step).s, step, q)
  {
    if OfFork(step) {
      ForkSlot(s, step, q);
    }
  }

  /** A process becomes a ZOMBIE by its own exit and stops being one when it is reaped. */
  predicate EndMoved(s: State, t: State, step: Step, q: nat) {
    && |t.procs| == |s.procs| && q < |s.procs|
    && (t.procs[q].state == ZOMBIE ==> t.procs[q].xstate == (if step.Die? && step.p == q then step.status else s.procs[q].xstate))
    && (t.procs[q].state == ZOMBIE <==> (step.Die? && step.p == q) || (s.procs[q].state == ZOMBIE && t.procs[q].state != UNUSED))
    && (s.procs[q].state == ZOMBIE && t.procs[q].state == UNUSED ==>
          step.Scan? && Reaps(s, step.p) && s.procs[step.p].pc.i == q && |t.reaps| == |s.reaps| + 1)
  }

  lemma WaitEnd(s: State, step: Step, q: nat)
    requires Apply(s, step).Next? && s.root < |s.procs| && q < |s.procs| && OfWait(step)
    requires SelfOk(s, Actor(step)) && StateOk(s.procs[q])
    ensures EndMoved(s, Apply(s, step).s, step, q)
  {
  }

  lemma OtherEnd(s: State, step: Step, q: nat)
    requires Apply(s, step).Next? && s.root < |s.procs| && q < |s.procs| && !OfWait(step)
    requires SelfOk(s, Actor(step)) && ForkOk(s, Actor(step)) && StateOk(s.procs[q])
    ensures EndMoved(s, Apply(s, step).s, step, q)
  {
  }

  lemma SlotEnd(s: State, step: Step, q: nat)
    requires Apply(s, step).Next? && Near(s, Actor(step), q)
    ensures EndMoved(s, Apply(s, step).s, step, q)
  {
    if OfWait(step) {
      WaitEnd(s, step, q);
    } else {
      OtherEnd(s, step, q);
    }
  }

  lemma ReapedGrows(s: State, t: State, x: Reaped, pid: int)
    requires t.reaps == s.reaps + [x]
    ensures WasReaped(t, pid) <==> WasReaped(s, pid) || pid == x.pid
  {
    if WasReaped(s, pid) {
      var i :| 0 <= i < |s.reaps| && s.reaps[i].pid == pid;
      assert t.reaps[i].pid == pid;
    }
    assert t.reaps[|s.reaps|] == x;
  }

  /** WasReaped after a step. */
  lemma ReapedAfter(s: State, step: Step, pid: int)
    requires TreeInv(s) && Apply(s, step).Next?
    ensures var t := Apply(s, step).s;
      WasReaped(t, pid) <==> WasReaped(s, pid) || (t.reaps != s.reaps && step.Scan? && Reaps(s, step.p) && pid == Child(s, step.p).pid)
  {
    NearFrom(s, step, Actor(step));
    Records(s, step);
    var t := Apply(s, step).s;
    if t.reaps != s.reaps {
      ReapedGrows(s, t, Reaped(Child(s, step.p).pid, Child(s, step.p).xstate), pid);
    }
  }

  lemma PidKeeps(s: State, step: Step, q: nat)
    requires TreeInv(s) && PidInv(s) && Apply(s, step).Next? && q < |s.procs|
    ensures q < |Apply(s, step).s.procs| && PidOk(Apply(s, step).s, q)
  {
    var t := Apply(s, step).s;
    NearFrom(s, step, q);
    NearFrom(s, step, Actor(step));
    SlotPid(s, step, q);
    SlotEnd(s, step, q);
    Records(s, step);
    ReapedAfter(s, step, t.procs[q].pid);
    assert PidOk(s, q) && PidOk(s, Actor(step)) && PidsDiffer(s, q, Actor(step));
    if step.Scan? && Reaps(s, step.p) {
      assert PidsDiffer(s, q, s.procs[step.p].pc.i);
    }
  }

  lemma DifferKeeps(s: State, step: Step, p: nat, q: nat)
    requires TreeInv(s) && PidInv(s) && Apply(s, step).Next? && p < |s.procs| && q < |s.procs|
    ensures |Apply(s, step).s.procs| == |s.procs| && PidsDiffer(Apply(s, step).s, p, q)
  {
    NearFrom(s, step, p);
    NearFrom(s, step, q);
    SlotPid(s, step, p);
    SlotEnd(s, step, p);
    SlotPid(s, step, q);
    SlotEnd(s, step, q);
    assert PidOk(s, p) && PidOk(s, q) && PidsDiffer(s, p, q);
  }

  lemma AccountKeeps(s: State, step: Step, pid: int)
    requires TreeInv(s) && PidInv(s) && Apply(s, step).Next? && pid in Apply(s, step).s.exits
    ensures var t := Apply(s, step).s; pid < t.nextpid && (WasReaped(t, pid) || IsZombie(t, pid))
  {
    var t := Apply(s, step).s;
    NearFrom(s, step, Actor(step));
    Records(s, step);
    ReapedAfter(s, step, pid);
    if step.Die? && pid == s.procs[step.p].pid {
      SlotPid(s, step, step.p);
      SlotEnd(s, step, step.p);
      assert PidOk(s, step.p) && SelfOk(s, step.p);
      assert t.procs[step.p].state == ZOMBIE;
    } else if !WasReaped(s, pid) {
      var q :| 0 <= q < |s.procs| && s.procs[q].state == ZOMBIE && s.procs[q].pid == pid;
      NearFrom(s, step, q);
      SlotPid(s, step, q);
      SlotEnd(s, step, q);
      assert t.procs[q].state == ZOMBIE || t.procs[q].state == UNUSED;
    }
  }

  lemma ReapsKeep(s: State, step: Step)
    requires TreeInv(s) && PidInv(s) && Apply(s, step).Next?
    ensures var t := Apply(s, step).s;
      && (forall i :: 0 <= i < |t.reaps| ==> t.reaps[i].pid in t.exits && t.exits[t.reaps[i].pid] == t.reaps[i].status)
      && (forall i, j :: 0 <= i < j < |t.reaps| ==> t.reaps[i].pid != t.reaps[j].pid)
  {
    var t := Apply(s, step).s;
    NearFrom(s, step, Actor(step));
    Records(s, step);
    if step.Die? {
      assert PidOk(s, step.p) && SelfOk(s, step.p);
      assert forall i :: 0 <= i < |s.reaps| ==> s.reaps[i].pid != s.procs[step.p].pid;
    } else if t.reaps != s.reaps {
      assert PidOk(s, s.procs[step.p].pc.i);
    }
  }

  ghost predicate Inv(s: State) {
    TreeInv(s) && PidInv(s)
  }

  lemma StepKeeps(s: State, step: Step)
    requires Inv(s) && Apply(s, step).Next?
    ensures Inv(Apply(s, step).s)
  {
    var t := Apply(s, step).s;
    TreeKeeps(s, step);
    RangeKeeps(s, step);
    forall p | 0 <= p < |t.procs| ensures PidOk(t, p) {
      PidKeeps(s, step, p);
    }
    forall p, q | 0 <= p < |t.procs| && 0 <= q < |t.procs| ensures PidsDiffer(t, p, q) {
      DifferKeeps(s, step, p, q);
    }
    forall pid | pid in t.exits ensures pid < t.nextpid && (WasReaped(t, pid) || IsZombie(t, pid)) {
      AccountKeeps(s, step, pid);
    }
    ReapsKeep(s, step);
  }

  // Whole runs.

  /** Only init runs. */
  ghost predicate Fresh(s: State) {
    && s.root < |s.procs| && s.wl == NONE && s.exits == map[] && s.reaps == []
    && (forall p :: 0 <= p < |s.procs| && p != s.root ==> s.procs[p] == Freed())
    && s.procs[s.root] == Proc(ALIVE, Run, NONE, 1, 0, false) && s.nextpid == 2
  }

  lemma FreshInv(s: State)
    requires Fresh(s)
    ensures Inv(s)
  {
    assert forall p :: 0 <= p < |s.procs| ==> SelfOk(s, p);
    assert forall p :: 0 <= p < |s.procs| ==> ParentOk(s, p);
    assert forall p :: 0 <= p < |s.procs| ==> ForkOk(s, p);
    assert forall p, q :: 0 <= p < |s.procs| && 0 <= q < |s.procs| ==> PairOk(s, p, q);
  }

  ghost function Exec(s: State, steps: seq<Step>): (r: Outcome)
    decreases |steps|
  {
    if steps == [] then Next(s)
    else
      var r := Apply(s, steps[0]);
      if r.Next? then Exec(r.s, steps[1..]) else r
  }

  lemma {:induction false} RunKeeps(s: State, steps: seq<Step>)
    requires Inv(s) && Exec(s, steps).Next?
    ensures Inv(Exec(s, steps).s)
    decreases |steps|
  {
    if steps != [] {
      StepKeeps(s, steps[0]);
      RunKeeps(Apply(s, steps[0]).s, steps[1..]);
    }
  }

  ghost predicate Reachable(s: State) {
    exists s0, steps :: Fresh(s0) && Exec(s0, steps) == Next(s)
  }

  lemma ReachableInv(s: State)
    requires Reachable(s)
    ensures Inv(s)
  {
    var s0, steps :| Fresh(s0) && Exec(s0, steps) == Next(s);
    FreshInv(s0);
    RunKeeps(s0, steps);
  }

  /** In every state of every run a process's parent is alive, every process but init has
      one from the moment it first runs, and whenever wait_lock is free nobody sleeps in
      wait while it has a ZOMBIE child. */
  lemma FamilyTree(s: State, p: nat)
    requires Reachable(s) && p < |s.procs|
    ensures s.procs[p].parent != NONE ==> 0 <= s.procs[p].parent < |s.procs| && Live(s.procs[s.procs[p].parent].state)
    ensures s.procs[p].state != UNUSED && s.procs[p].state != USED && p != s.root ==> s.procs[p].parent != NONE
    ensures s.wl == NONE && s.procs[p].state == ZOMBIE ==>
      0 <= s.procs[p].parent < |s.procs| && s.procs[s.procs[p].parent].state == ALIVE
  {
    ReachableInv(s);
    assert SelfOk(s, p) && ParentOk(s, p);
    if s.procs[p].parent != NONE {
      assert PairOk(s, s.procs[p].parent, p) && SelfOk(s, s.procs[p].parent);
    }
  }

  /** Every process that has exited is a ZOMBIE still or was returned by exactly one wait,
      with its pid and the status it exited with; never both. */
  lemma ReapedOnce(s: State, pid: int)
    requires Reachable(s)
    ensures pid in s.exits <==> WasReaped(s, pid) || IsZombie(s, pid)
    ensures !(WasReaped(s, pid) && IsZombie(s, pid))
    ensures forall i, j :: 0 <= i < |s.reaps| && 0 <= j < |s.reaps| && s.reaps[i].pid == pid && s.reaps[j].pid == pid ==> i == j
    ensures forall i :: 0 <= i < |s.reaps| && s.reaps[i].pid == pid ==> pid in s.exits && s.reaps[i].status == s.exits[pid]
  {
    ReachableInv(s);
    if IsZombie(s, pid) {
      var q :| 0 <= q < |s.procs| && s.procs[q].state == ZOMBIE && s.procs[q].pid == pid;
      assert PidOk(s, q);
    }
  }

  /** A wait that gives up without having been killed has no children. */
  lemma GivesUpChildless(s: State, p: nat, q: nat)
    requires Reachable(s) && p < |s.procs| && q < |s.procs|
    requires Apply(s, Finish(p)).Next? && Apply(s, Finish(p)).s.procs[p].pc == Run && !s.procs[p].killed
    ensures s.procs[q].parent != p
  {
    ReachableInv(s);
    assert PairOk(s, p, q) && SelfOk(s, p);
  }

  predicate ParentMoved(s: State, t: State, step: Step, q: nat)
    requires q < |s.procs| && q < |t.procs|
  {
    if OfExit(step) then step.Reparent? && step.p == s.procs[q].parent && t.procs[q].parent == s.root
    else step.Scan? && step.p == s.procs[q].parent && t.procs[q].parent == NONE && s.procs[q].state == ZOMBIE
  }

  lemma ExitMoves(s: State, step: Step, q: nat)
    requires Apply(s, step).Next? && Near(s, Actor(step), q) && OfExit(step)
    requires s.procs[q].parent != NONE && Apply(s, step).s.procs[q].parent != s.procs[q].parent
    ensures ParentMoved(s, Apply(s, step).s, step, q)
  {
  }

  lemma OthersMove(s: State, step: Step, q: nat)
    requires Apply(s, step).Next? && Near(s, Actor(step), q) && !OfExit(step)
    requires s.procs[q].parent != NONE && Apply(s, step).s.procs[q].parent != s.procs[q].parent
    ensures ParentMoved(s, Apply(s, step).s, step, q)
  {
  }

  /** init gets every child of a process that exits, and a process that has a parent loses
      it in no other way than by being reaped by it. */
  lemma OrphansToInit(s: State, step: Step, q: nat)
    requires Reachable(s) && Apply(s, step).Next? && q < |s.procs| && q < |Apply(s, step).s.procs|
    requires s.procs[q].parent != NONE && Apply(s, step).s.procs[q].parent != s.procs[q].parent
    ensures ParentMoved(s, Apply(s, step).s, step, q)
  {
    ReachableInv(s);
    NearFrom(s, step, q);
    if OfExit(step) {
      ExitMoves(s, step, q);
    } else {
      OthersMove(s, step, q);
    }
  }

  // What fork, exit and wait come to, as whole runs.

  /** wait at a ZOMBIE child that is off its stack returns the child's pid and the status
      the child exited with, and frees its slot; if the status cannot be copied out it
      returns without reaping, and the child stays. */
  lemma ScanReaps(s: State, p: nat, q: nat, copies: bool)
    requires Reachable(s) && p < |s.procs| && q < |s.procs| && s.procs[p].pc.Scanning? && s.procs[p].pc.i == q
    requires s.procs[q].parent == p && s.procs[q].state == ZOMBIE && !HasSelf(s.procs[q].pc)
    ensures s.procs[q].pid in s.exits && Apply(s, Scan(p, copies)).Next?
    ensures var t, pid := Apply(s, Scan(p, copies)).s, s.procs[q].pid;
      && |t.procs| == |s.procs| && t.procs[p] == s.procs[p].(pc := Run) && t.wl == NONE && t.exits == s.exits
      && (copies ==> t.procs[q].state == UNUSED && t.reaps == s.reaps + [Reaped(pid, s.exits[pid])])
      && (!copies ==> t.procs[q] == s.procs[q] && t.reaps == s.reaps)
      && (forall a :: 0 <= a < |s.procs| && a != p && a != q ==> t.procs[a] == s.procs[a])
  {
    ReachableInv(s);
    assert ParentOk(s, q) && PidOk(s, q);
  }

  /** A wait whose caller has a ZOMBIE child neither gives up nor sleeps: the scan is still
      at the child or before it. */
  lemma ZombieEndsWait(s: State, p: nat, q: nat)
    requires Reachable(s) && p < |s.procs| && q < |s.procs| && s.procs[p].pc.Scanning?
    requires s.procs[q].parent == p && s.procs[q].state == ZOMBIE
    ensures s.procs[p].pc.i <= q && Apply(s, Finish(p)) == Blocked && Apply(s, Sleep(p)) == Blocked
  {
    ReachableInv(s);
    assert PairOk(s, p, q);
  }

  function Repeat(step: Step, n: nat): (steps: seq<Step>)
    ensures |steps| == n
  {
    if n == 0 then [] else [step] + Repeat(step, n - 1)
  }

  lemma ExecOne(s: State, step: Step, rest: seq<Step>)
    requires Apply(s, step).Next?
    ensures Exec(s, [step] + rest) == Exec(Apply(s, step).s, rest)
  {
    assert ([step] + rest)[1..] == rest;
  }

  lemma {:induction false} ExecThen(s: State, xs: seq<Step>, ys: seq<Step>)
    requires Exec(s, xs).Next?
    ensures Exec(s, xs + ys) == Exec(Exec(s, xs).s, ys)
    decreases |xs|
  {
    if xs == [] {
      assert xs + ys == ys;
    } else {
      var m := Apply(s, xs[0]).s;
      assert xs + ys == [xs[0]] + (xs[1..] + ys);
      ExecOne(s, xs[0], xs[1..] + ys);
      ExecThen(m, xs[1..], ys);
    }
  }

  /** No child of `p` is on its way off its stack. */
  predicate KidsOff(s: State, p: nat) {
    forall a :: 0 <= a < |s.procs| && s.procs[a].parent == p ==> !HasSelf(s.procs[a].pc)
  }

  /** While `p` scans, its rounds of the loop lead to a ZOMBIE child, and `n` of them return it. */
  lemma {:induction false} ScanFinds(s: State, p: nat, q: nat) returns (n: nat, z: nat)
    requires Inv(s) && p < |s.procs| && q < |s.procs| && s.procs[p].pc.Scanning? && s.procs[p].pc.i <= q && KidsOff(s, p)
    requires s.procs[q].parent == p && s.procs[q].state == ZOMBIE
    ensures s.procs[p].pc.i <= z <= q && s.procs[z].parent == p && s.procs[z].state == ZOMBIE && s.procs[z].pid in s.exits
    ensures Exec(s, Repeat(Scan(p, true), n)).Next?
    ensures var t := Exec(s, Repeat(Scan(p, true), n)).s;
      && t.reaps == s.reaps + [Reaped(s.procs[z].pid, s.exits[s.procs[z].pid])] && t.wl == NONE
      && |t.procs| == |s.procs| && t.procs[z].state == UNUSED && t.procs[p] == s.procs[p].(pc := Run)
    decreases q - s.procs[p].pc.i
  {
    var i, step := s.procs[p].pc.i, Scan(p, true);
    var t := Apply(s, step).s;
    assert ParentOk(s, q) && PidOk(s, i);
    StepKeeps(s, step);
    if s.procs[i].parent == p && s.procs[i].state == ZOMBIE {
      assert ParentOk(s, i);
      n, z := 1, i;
      ExecOne(s, step, []);
      assert Repeat(step, 1) == [step] + [];
    } else {
      n, z := ScanFinds(t, p, q);
      ExecOne(s, step, Repeat(step, n));
      n := n + 1;
    }
  }

  /** A call of wait by a process with a ZOMBIE child, or one that has been woken in wait, when wait_lock is free and no child is
      on its way off its stack, returns the pid and status of a ZOMBIE child. */
  lemma WaitReturns(s: State, p: nat, q: nat) returns (n: nat, z: nat)
    requires Inv(s) && p < |s.procs| && q < |s.procs| && s.procs[p].state == ALIVE && s.wl == NONE
    requires s.procs[p].pc == Run || s.procs[p].pc == Asleep
    requires s.procs[q].parent == p && s.procs[q].state == ZOMBIE && KidsOff(s, p)
    ensures z < |s.procs| && s.procs[z].parent == p && s.procs[z].state == ZOMBIE && s.procs[z].pid in s.exits
    ensures Exec(s, [Wait(p)] + Repeat(Scan(p, true), n)).Next?
    ensures var t := Exec(s, [Wait(p)] + Repeat(Scan(p, true), n)).s;
      && t.reaps == s.reaps + [Reaped(s.procs[z].pid, s.exits[s.procs[z].pid])] && t.wl == NONE
      && |t.procs| == |s.procs| && t.procs[z].state == UNUSED && t.procs[p] == s.procs[p].(pc := Run)
  {
    assert SelfOk(s, p) && ParentOk(s, q);
    StepKeeps(s, Wait(p));
    n, z := ScanFinds(Apply(s, Wait(p)).s, p, q);
    ExecOne(s, Wait(p), Repeat(Scan(p, true), n));
  }

  /** A process that others at most woke. */
  predicate AtMostWoken(x: Proc, y: Proc) {
    y.pc == x.pc && y.pid == x.pid && y.xstate == x.xstate && y.killed == x.killed && (y.state == x.state || y == Woken(x).(parent := y.parent))
  }

  /** Processes other than `p` were at most woken. */
  predicate OthersWoken(s: State, t: State, p: nat) {
    && |t.procs| == |s.procs| && t.root == s.root && t.nextpid == s.nextpid && t.reaps == s.reaps
    && forall q :: 0 <= q < |s.procs| && q != p ==> AtMostWoken(s.procs[q], t.procs[q])
  }

  /** What the rounds of reparent leave alone. */
  predicate Rounds(s: State, t: State, p: nat) {
    OthersWoken(s, t, p) && t.wl == s.wl && t.exits == s.exits && p < |s.procs| && t.procs[p] == s.procs[p].(pc := t.procs[p].pc)
  }

  /** From process `i` on, the children of `p` are init's. */
  predicate Given(s: State, t: State, p: nat, i: nat) {
    && |t.procs| == |s.procs|
    && forall q :: 0 <= q < |s.procs| ==> t.procs[q].parent == if q >= i && s.procs[q].parent == p then s.root else s.procs[q].parent
  }

  lemma Once(s: State, step: Step) returns (t: State)
    requires Inv(s) && Apply(s, step).Next?
    ensures t == Apply(s, step).s && Inv(t) && Exec(s, [step]) == Next(t)
  {
    StepKeeps(s, step);
    t := Apply(s, step).s;
    ExecOne(s, step, []);
    assert [step] + [] == [step];
  }

  lemma GivesOne(s: State, p: nat) returns (t: State)
    requires Inv(s) && p < |s.procs| && s.procs[p].pc.Reparenting? && s.procs[p].pc.i < |s.procs| && s.procs[s.procs[p].pc.i].parent == p
    ensures Inv(t) && Exec(s, [Reparent(p)]) == Next(t) && s.procs[p].pc.i != p
    ensures var i := s.procs[p].pc.i;
      t == s.(procs := s.procs[p := s.procs[p].(pc := WakingInit(i))][i := s.procs[i].(parent := s.root)])
  {
    assert ParentOk(s, s.procs[p].pc.i);
    t := Once(s, Reparent(p));
  }

  lemma WakesInit(s: State, p: nat) returns (t: State)
    requires Inv(s) && p < |s.procs| && s.procs[p].pc.WakingInit?
    ensures Inv(t) && Exec(s, [WakeInit(p)]) == Next(t) && s.root < |s.procs| && p != s.root
    ensures t == s.(procs := s.procs[p := s.procs[p].(pc := Reparenting(s.procs[p].pc.i + 1))][s.root := Woken(s.procs[s.root])])
  {
    assert SelfOk(s, s.root);
    t := Once(s, WakeInit(p));
  }

  /** The children of `p` after the round at process `i`. */
  predicate GivenAt(s: State, t: State, p: nat, i: nat) {
    && |t.procs| == |s.procs|
    && forall q :: 0 <= q < |s.procs| ==> t.procs[q].parent == if q == i && s.procs[q].parent == p then s.root else s.procs[q].parent
  }

  lemma ReparentRound(s: State, p: nat) returns (steps: seq<Step>, t: State)
    requires Inv(s) && p < |s.procs| && s.procs[p].pc.Reparenting? && s.procs[p].pc.i < |s.procs|
    ensures Inv(t) && Exec(s, steps) == Next(t) && Rounds(s, t, p) && t.procs[p].pc == Reparenting(s.procs[p].pc.i + 1)
    ensures GivenAt(s, t, p, s.procs[p].pc.i)
  {
    if s.procs[s.procs[p].pc.i].parent == p {
      var m := GivesOne(s, p);
      t := WakesInit(m, p);
      ExecThen(s, [Reparent(p)], [WakeInit(p)]);
      steps := [Reparent(p)] + [WakeInit(p)];
    } else {
      t := Once(s, Reparent(p));
      steps := [Reparent(p)];
    }
  }

  /** reparent gives every child of `p` to init, and ends. */
  lemma {:induction false} Reparents(s: State, p: nat) returns (steps: seq<Step>, t: State)
    requires Inv(s) && p < |s.procs| && s.procs[p].pc.Reparenting? && s.procs[p].pc.i <= |s.procs|
    ensures Inv(t) && Exec(s, steps) == Next(t) && Rounds(s, t, p) && t.procs[p].pc == WakingParent && Given(s, t, p, s.procs[p].pc.i)
    decreases |s.procs| - s.procs[p].pc.i
  {
    if s.procs[p].pc.i == |s.procs| {
      StepKeeps(s, Reparent(p));
      t := Apply(s, Reparent(p)).s;
      steps := [Reparent(p)];
      ExecOne(s, Reparent(p), []);
      assert [Reparent(p)] + [] == [Reparent(p)];
    } else {
      var xs, m := ReparentRound(s, p);
      var ys, e := Reparents(m, p);
      ExecThen(s, xs, ys);
      steps, t := xs + ys, e;
      assert ParentOk(s, s.root) && SelfOk(s, p);
    }
  }

  lemma WakesParent(s: State, p: nat) returns (t: State)
    requires Inv(s) && p < |s.procs| && s.procs[p].pc == WakingParent
    ensures Inv(t) && Exec(s, [WakeParent(p)]) == Next(t) && OthersWoken(s, t, p) && t.exits == s.exits && t.procs[p] == s.procs[p].(pc := Dying)
    ensures forall q :: 0 <= q < |s.procs| ==> t.procs[q].parent == s.procs[q].parent
  {
    assert SelfOk(s, p) && ParentOk(s, p);
    t := Once(s, WakeParent(p));
  }

  lemma Buried(s: State, p: nat, status: int) returns (steps: seq<Step>, t: State)
    requires Inv(s) && p < |s.procs| && s.procs[p].pc == Dying
    ensures Inv(t) && Exec(s, steps) == Next(t)
    ensures t == s.(procs := s.procs[p := s.procs[p].(state := ZOMBIE, xstate := status, pc := Off)], wl := NONE,
                    exits := s.exits[s.procs[p].pid := status])
  {
    var b := Once(s, Die(p, status));
    var c := Once(b, LeaveLock(p));
    t := Once(c, SwitchOff(p));
    ExecThen(s, [Die(p, status)], [LeaveLock(p)]);
    ExecThen(s, [Die(p, status)] + [LeaveLock(p)], [SwitchOff(p)]);
    steps := [Die(p, status)] + [LeaveLock(p)] + [SwitchOff(p)];
  }

  /** exit from the loop of reparent to the end. */
  lemma Dies(s: State, p: nat, status: int) returns (steps: seq<Step>, t: State)
    requires Inv(s) && p < |s.procs| && s.procs[p].pc == WakingParent
    ensures Inv(t) && Exec(s, steps) == Next(t) && OthersWoken(s, t, p) && t.wl == NONE && t.exits == s.exits[s.procs[p].pid := status]
    ensures t.procs[p] == s.procs[p].(state := ZOMBIE, xstate := status, pc := Off)
    ensures forall q :: 0 <= q < |s.procs| ==> t.procs[q].parent == s.procs[q].parent
  {
    var a := WakesParent(s, p);
    var xs, b := Buried(a, p, status);
    ExecThen(s, [WakeParent(p)], xs);
    steps, t := [WakeParent(p)] + xs, b;
  }

  lemma ParentAwake(s: State, p: nat)
    requires Inv(s) && s.wl == NONE && p < |s.procs| && p != s.root && s.procs[p].state == ZOMBIE
    ensures 0 <= s.procs[p].parent < |s.procs| && s.procs[s.procs[p].parent].state == ALIVE
  {
    assert ParentOk(s, p);
    assert PairOk(s, s.procs[p].parent, p);
  }

  /** exit runs to its end: the process is a ZOMBIE with its status, off its stack, its
      children are init's, wait_lock is free, and its parent is not asleep in wait. */
  lemma ExitReturns(s: State, p: nat, status: int) returns (steps: seq<Step>, t: State)
    requires Inv(s) && p < |s.procs| && p != s.root && s.procs[p].state == ALIVE && s.procs[p].pc == Run && s.wl == NONE
    ensures Inv(t) && Exec(s, steps) == Next(t) && OthersWoken(s, t, p) && t.wl == NONE && t.exits == s.exits[s.procs[p].pid := status]
    ensures t.procs[p] == s.procs[p].(state := ZOMBIE, xstate := status, pc := Off) && Given(s, t, p, 0)
    ensures 0 <= s.procs[p].parent < |t.procs| && t.procs[s.procs[p].parent].state == ALIVE
  {
    assert SelfOk(s, p) && ParentOk(s, p);
    var a := Once(s, Exit(p));
    var xs, b := Reparents(a, p);
    var ys, c := Dies(b, p, status);
    ExecThen(s, [Exit(p)], xs);
    ExecThen(s, [Exit(p)] + xs, ys);
    steps, t := [Exit(p)] + xs + ys, c;
    ParentAwake(t, p);
  }

  /** fork runs to its end: slot `np` is a running child of `p` with a pid never used before. */
  lemma ForkReturns(s: State, p: nat, np: nat) returns (steps: seq<Step>, t: State)
    requires Inv(s) && p < |s.procs| && np < |s.procs| && s.procs[p].state == ALIVE && s.procs[p].pc == Run
    requires s.procs[np].state == UNUSED && s.wl == NONE
    ensures Inv(t) && Exec(s, steps) == Next(t) && s.nextpid !in s.exits && !WasReaped(s, s.nextpid)
    ensures t == s.(procs := s.procs[np := Proc(ALIVE, Run, p, s.nextpid, 0, false)], nextpid := s.nextpid + 1)
  {
    var a := Once(s, Alloc(p, np));
    var b := Once(a, SetParent(p));
    t := Once(b, Start(p));
    ExecThen(s, [Alloc(p, np)], [SetParent(p)]);
    ExecThen(s, [Alloc(p, np)] + [SetParent(p)], [Start(p)]);
    steps := [Alloc(p, np)] + [SetParent(p)] + [Start(p)];
  }

  /** fork, the child's exit and the parent's wait: wait returns the child's pid and the
      status the child passed to exit, and the child's slot is free again. */
  lemma ForkExitWait(s: State, p: nat, np: nat, status: int) returns (steps: seq<Step>, t: State)
    requires Reachable(s) && p < |s.procs| && np < |s.procs| && s.procs[p].state == ALIVE && s.procs[p].pc == Run
    requires s.procs[np].state == UNUSED && s.wl == NONE
    requires forall q :: 0 <= q < |s.procs| && s.procs[q].parent == p ==> s.procs[q].state != ZOMBIE
    ensures Exec(s, steps) == Next(t) && t.reaps == s.reaps + [Reaped(s.nextpid, status)]
    ensures |t.procs| == |s.procs| && t.procs[np].state == UNUSED && t.procs[p].state == ALIVE && t.procs[p].pc == Run && t.wl == NONE
  {
    ReachableInv(s);
    assert SelfOk(s, s.root) && SelfOk(s, np);
    var xs, a := ForkReturns(s, p, np);
    var ys, b := ExitReturns(a, np, status);
    forall q | 0 <= q < |b.procs| && b.procs[q].parent == p ensures !HasSelf(b.procs[q].pc) && (b.procs[q].state == ZOMBIE ==> q == np) {
      assert ParentOk(s, q) && SelfOk(s, q) && SelfOk(b, q);
      assert AtMostWoken(a.procs[np], a.procs[np]) && (q != np ==> AtMostWoken(a.procs[q], b.procs[q]));
    }
    var n, z := WaitReturns(b, p, np);
    var zs := [Wait(p)] + Repeat(Scan(p, true), n);
    ExecThen(s, xs, ys);
    ExecThen(s, xs + ys, zs);
    steps, t := xs + ys + zs, Exec(b, zs).s;
  }

  /** kill makes a process that is not exiting killed, and if it slept in wait it is awake. */
  lemma KillWakes(s: State, q: nat)
    requires Reachable(s) && q < |s.procs| && s.procs[q].state != UNUSED && !HasSelf(s.procs[q].pc)
    ensures Apply(s, Kill(q)).Next?
    ensures var t := Apply(s, Kill(q)).s; |t.procs| == |s.procs| && t.procs[q].killed && t.procs[q].state != WAITING
  {
    ReachableInv(s);
  }

  /** A fork that fails after allocproc frees the slot again. */
  lemma ForkFails(s: State, p: nat, np: nat)
    requires Reachable(s) && p < |s.procs| && np < |s.procs| && s.procs[p].state == ALIVE && s.procs[p].pc == Run && s.procs[np].state == UNUSED
    ensures Exec(s, [Alloc(p, np)] + [AllocFails(p)]) == Next(s.(procs := s.procs[np := Freed()], nextpid := s.nextpid + 1))
  {
    ReachableInv(s);
    var a := Once(s, Alloc(p, np));
    var t := Once(a, AllocFails(p));
    ExecThen(s, [Alloc(p, np)], [AllocFails(p)]);
    assert t.procs == s.procs[np := Freed()];
  }

  /** Process `p` has a child from process `i` on. */
  ghost predicate HasKid(s: State, p: nat, i: nat) {
    exists q :: i <= q < |s.procs| && s.procs[q].parent == p
  }

  /** No child of `p` is a ZOMBIE. */
  predicate NoneDead(s: State, p: nat) {
    forall a :: 0 <= a < |s.procs| && s.procs[a].parent == p ==> s.procs[a].state != ZOMBIE
  }

  lemma ScanSkips(s: State, p: nat, i: nat) returns (t: State)
    requires Inv(s) && p < |s.procs| && s.procs[p].pc.Scanning? && s.procs[p].pc.i == i < |s.procs| && KidsOff(s, p) && NoneDead(s, p)
    ensures Apply(s, Scan(p, true)) == Next(t) && Inv(t) && KidsOff(t, p) && NoneDead(t, p)
    ensures t == SetPc(s, p, Scanning(i + 1, s.procs[p].pc.kids || s.procs[i].parent == p, false))
  {
    assert ParentOk(s, p);
    t := Apply(s, Scan(p, true)).s;
    StepKeeps(s, Scan(p, true));
  }

  /** Without a ZOMBIE child the loop of wait runs to its end, and finds out if there is a child at all. */
  lemma {:induction false} ScanPasses(s: State, p: nat, i: nat) returns (n: nat, t: State)
    requires Inv(s) && p < |s.procs| && s.procs[p].pc.Scanning? && s.procs[p].pc.i == i <= |s.procs| && KidsOff(s, p) && NoneDead(s, p)
    requires i == |s.procs| ==> !s.procs[p].pc.tested
    ensures Exec(s, Repeat(Scan(p, true), n)) == Next(t) && Inv(t)
    ensures t == SetPc(s, p, Scanning(|s.procs|, s.procs[p].pc.kids || HasKid(s, p, i), false))
    decreases |s.procs| - i
  {
    if i == |s.procs| {
      n, t := 0, s;
      assert s.procs[p := s.procs[p].(pc := s.procs[p].pc)] == s.procs;
    } else {
      var step := Scan(p, true);
      var m := ScanSkips(s, p, i);
      var k;
      k, t := ScanPasses(m, p, i + 1);
      ExecOne(s, step, Repeat(step, k));
      n := k + 1;
      KidFrom(s, m, p, i);
    }
  }

  lemma KidFrom(s: State, t: State, p: nat, i: nat)
    requires i < |s.procs| == |t.procs| && forall q :: 0 <= q < |s.procs| ==> t.procs[q].parent == s.procs[q].parent
    ensures HasKid(s, p, i) <==> s.procs[i].parent == p || HasKid(t, p, i + 1)
  {
    if HasKid(s, p, i) && s.procs[i].parent != p {
      var q :| i <= q < |s.procs| && s.procs[q].parent == p;
      assert i + 1 <= q < |t.procs| && t.procs[q].parent == p;
    }
    if HasKid(t, p, i + 1) {
      var q :| i + 1 <= q < |t.procs| && t.procs[q].parent == p;
      assert i <= q < |s.procs| && s.procs[q].parent == p;
    }
  }

  lemma Did(s: State, step: Step) returns (t: State)
    requires Apply(s, step).Next?
    ensures t == Apply(s, step).s && Exec(s, [step]) == Next(t)
  {
    t := Apply(s, step).s;
    ExecOne(s, step, []);
    assert [step] + [] == [step];
  }

  /** The end of wait, when the loop has found no ZOMBIE. */
  lemma WaitTail(s: State, p: nat, kids: bool, s0: State) returns (steps: seq<Step>, t: State)
    requires s0.root < |s0.procs| && p < |s0.procs| && s0.procs[p].state == ALIVE && s0.procs[p].pc == Run && s0.wl == NONE
    requires s == SetPc(s0, p, Scanning(|s0.procs|, kids, false)).(wl := p)
    ensures Exec(s, steps) == Next(t)
    ensures t == if !kids || s0.procs[p].killed then s0 else s0.(procs := s0.procs[p := s0.procs[p].(state := WAITING, pc := Asleep)])
  {
    t := Did(s, Finish(p));
    steps := [Finish(p)];
    if kids && !s0.procs[p].killed {
      var c := t;
      t := Did(c, Sleep(p));
      ExecThen(s, [Finish(p)], [Sleep(p)]);
      steps := [Finish(p)] + [Sleep(p)];
    }
    assert t.procs[p := s0.procs[p]] == s0.procs;
  }

  /** What wait does when no child is a ZOMBIE: it returns -1 exactly if there is no child or the caller was killed, and else
      the caller sleeps, with wait_lock free. */
  lemma WaitEnds(s: State, p: nat) returns (steps: seq<Step>, t: State)
    requires Reachable(s) && p < |s.procs| && s.procs[p].state == ALIVE && s.procs[p].pc == Run && s.wl == NONE && KidsOff(s, p) && NoneDead(s, p)
    ensures Exec(s, steps) == Next(t)
    ensures t == if !HasKid(s, p, 0) || s.procs[p].killed then s else s.(procs := s.procs[p := s.procs[p].(state := WAITING, pc := Asleep)])
  {
    ReachableInv(s);
    var a := Once(s, Wait(p));
    var n, b := ScanPasses(a, p, 0);
    SameKids(s, a, p);
    var ys, c := WaitTail(b, p, HasKid(s, p, 0), s);
    var xs := Repeat(Scan(p, true), n);
    ExecThen(s, [Wait(p)], xs);
    ExecThen(s, [Wait(p)] + xs, ys);
    steps, t := [Wait(p)] + xs + ys, c;
  }

  lemma SameKids(s: State, t: State, p: nat)
    requires |s.procs| == |t.procs| && forall q :: 0 <= q < |s.procs| ==> t.procs[q].parent == s.procs[q].parent
    ensures HasKid(s, p, 0) <==> HasKid(t, p, 0)
  {
    if |s.procs| > 0 {
      KidFrom(s, t, p, 0);
      KidFrom(t, t, p, 0);
    }
  }

  lemma KidsAfter(s: State, t: State, p: nat, q: nat)
    requires OthersWoken(s, t, q) && Given(s, t, q, 0) && p != s.root && p != q && KidsOff(s, p) && NoneDead(s, p)
    requires q < |t.procs| && t.procs[q].pc == Off
    ensures KidsOff(t, p) && forall c :: 0 <= c < |t.procs| && t.procs[c].parent == p && t.procs[c].state == ZOMBIE ==> c == q
  {
    forall c | 0 <= c < |t.procs| && t.procs[c].parent == p && c != q ensures !HasSelf(t.procs[c].pc) && t.procs[c].state != ZOMBIE {
      assert AtMostWoken(s.procs[c], t.procs[c]) && s.procs[c].parent == p;
    }
  }

  lemma SleepsForNone(s: State, p: nat)
    requires Inv(s) && s.wl == NONE && p < |s.procs| && s.procs[p].state == WAITING
    ensures NoneDead(s, p)
  {
    forall a | 0 <= a < |s.procs| && s.procs[a].parent == p ensures s.procs[a].state != ZOMBIE {
      assert PairOk(s, p, a);
    }
  }

  /** A process other than init that is asleep in wait is woken by the exit of a child, and its wait returns the child's pid
      and the status the child passed to exit. */
  lemma SleeperReaps(s: State, p: nat, q: nat, status: int) returns (steps: seq<Step>, t: State)
    requires Reachable(s) && p < |s.procs| && q < |s.procs| && s.procs[p].state == WAITING && s.wl == NONE && KidsOff(s, p) && p != s.root
    requires q != s.root && s.procs[q].state == ALIVE && s.procs[q].pc == Run && s.procs[q].parent == p
    ensures Exec(s, steps) == Next(t) && t.reaps == s.reaps + [Reaped(s.procs[q].pid, status)]
    ensures |t.procs| == |s.procs| && t.procs[p].state == ALIVE && t.procs[p].pc == Run && t.procs[q].state == UNUSED
  {
    ReachableInv(s);
    assert SelfOk(s, p);
    SleepsForNone(s, p);
    var xs, a := ExitReturns(s, q, status);
    KidsAfter(s, a, p, q);
    assert AtMostWoken(s.procs[p], a.procs[p]);
    var n, z := WaitReturns(a, p, q);
    var zs := [Wait(p)] + Repeat(Scan(p, true), n);
    ExecThen(s, xs, zs);
    steps, t := xs + zs, Exec(a, zs).s;
  }
}
