/** sleep and wakeup of kernel/proc.c, in every interleaving of any number of
    processes over any number of wait channels.

    Each channel `c` has a condition and the spin lock `lk` that protects it. A
    process tests or changes the condition only while it holds `lk`, and one that
    makes it true calls wakeup before it releases `lk`. A step is what a process
    does between two points where another may take a lock that it needs. */
module SleepWakeup {

  datatype RunState = Running | Runnable | Sleeping

  /** How far a process has come. `c` is its channel. */
  datatype Pc =
    | Outside
    | Holding(c: nat)            // holds lk
    | Waking(c: nat, i: nat)     // holds lk, wakeup is about to look at process i
    | LockedSelf(c: nat)         // in sleep: holds lk and p->lock
    | GaveUpLk(c: nat)           // holds p->lock only
    | Marked(c: nat)             // SLEEPING, still on the way into the scheduler
    | Off(c: nat)                // the scheduler has released p->lock
    | Resumed(c: nat)            // running again, with p->lock handed over
    | Retaking(c: nat)           // about to acquire lk again

  const NONE: int := -1

  /** `chan` is p->chan, NONE for null; `plock` and `lk` hold the owners of the locks. */
  datatype Proc = Proc(pc: Pc, state: RunState, chan: int)
  datatype State = State(procs: seq<Proc>, plock: seq<int>, lk: seq<int>, cond: seq<bool>)

  datatype Step =
    | Acquire(p: nat, c: nat)    // acquire(lk)
    | Release(p: nat)            // release(lk)
    | Set(p: nat, v: bool)       // change the condition; if it becomes true, wakeup follows
    | Wake(p: nat)               // one round of the loop in wakeup
    | Sleep(p: nat)              // the condition is false: acquire(&p->lock)
    | LetGo(p: nat)              // release(lk)
    | Mark(p: nat)               // p->chan = chan; p->state = SLEEPING
    | Switch(p: nat)             // sched; the scheduler releases p->lock
    | Dispatch(p: nat)           // the scheduler acquires p->lock and runs p
    | Return(p: nat)             // p->chan = 0; release(&p->lock)
    | Retake(p: nat)             // acquire(lk)
    | Kill(p: nat)               // kill makes a sleeping process runnable

  datatype Outcome = Next(s: State) | Blocked

  ghost predicate Shape(s: State) {
    |s.plock| == |s.procs| && |s.cond| == |s.lk|
  }

  function Init(n: nat, cond: seq<bool>): (s: State) {
    State(seq(n, _ => Proc(Outside, Running, NONE)), seq(n, _ => NONE), seq(|cond|, _ => NONE), cond)
  }

  function At(s: State, p: nat, pc: Pc): (t: State)
    requires p < |s.procs|
  {
    s.(procs := s.procs[p := s.procs[p].(pc := pc)])
  }

  function Apply(s: State, step: Step): (r: Outcome)
    requires |s.plock| == |s.procs| && |s.cond| == |s.lk|
  {
    if step.p >= |s.procs| then Blocked
    else
      var p := step.p;
      var x := s.procs[p];
      match step
      case Acquire(_, c) =>
        if x.pc == Outside && c < |s.lk| && s.lk[c] == NONE then Next(At(s, p, Holding(c)).(lk := s.lk[c := p])) else Blocked
      case Release(_) =>
        if x.pc.Holding? && x.pc.c < |s.lk| then Next(At(s, p, Outside).(lk := s.lk[x.pc.c := NONE])) else Blocked
      case Set(_, v) =>
        if x.pc.Holding? && x.pc.c < |s.lk| then
          Next(At(s, p, if v then Waking(x.pc.c, 0) else x.pc).(cond := s.cond[x.pc.c := v]))
        else Blocked
      case Wake(_) =>
        if !x.pc.Waking? then Blocked
        else if x.pc.i >= |s.procs| then Next(At(s, p, Holding(x.pc.c)))
        else if x.pc.i == p then Next(At(s, p, Waking(x.pc.c, x.pc.i + 1)))
        else if s.plock[x.pc.i] != NONE then Blocked
        else
          var q := s.procs[x.pc.i];
          var t := At(s, p, Waking(x.pc.c, x.pc.i + 1));
          if q.state == Sleeping && q.chan == x.pc.c then Next(t.(procs := t.procs[x.pc.i := q.(state := Runnable)])) else Next(t)
      case Sleep(_) =>
        if x.pc.Holding? && x.pc.c < |s.lk| && !s.cond[x.pc.c] && s.plock[p] == NONE then
          Next(At(s, p, LockedSelf(x.pc.c)).(plock := s.plock[p := p]))
        else Blocked
      case LetGo(_) =>
        if x.pc.LockedSelf? && x.pc.c < |s.lk| then Next(At(s, p, GaveUpLk(x.pc.c)).(lk := s.lk[x.pc.c := NONE])) else Blocked
      case Mark(_) =>
        if x.pc.GaveUpLk? then Next(s.(procs := s.procs[p := Proc(Marked(x.pc.c), Sleeping, x.pc.c)])) else Blocked
      case Switch(_) =>
        if x.pc.Marked? then Next(At(s, p, Off(x.pc.c)).(plock := s.plock[p := NONE])) else Blocked
      case Dispatch(_) =>
        if x.pc.Off? && x.state == Runnable && s.plock[p] == NONE then
          Next(s.(procs := s.procs[p := Proc(Resumed(x.pc.c), Running, x.chan)], plock := s.plock[p := p]))
        else Blocked
      case Return(_) =>
        if x.pc.Resumed? then Next(s.(procs := s.procs[p := Proc(Retaking(x.pc.c), x.state, NONE)], plock := s.plock[p := NONE])) else Blocked
      case Retake(_) =>
        if x.pc.Retaking? && x.pc.c < |s.lk| && s.lk[x.pc.c] == NONE then
          Next(At(s, p, Holding(x.pc.c)).(lk := s.lk[x.pc.c := p]))
        else Blocked
      case Kill(_) =>
        if s.plock[p] != NONE then Blocked
        else if x.state == Sleeping then Next(s.(procs := s.procs[p := x.(state := Runnable)]))
        else Next(s)
  }

  // The invariant.

  predicate HasLk(pc: Pc, c: int) {
    (pc.Holding? || pc.Waking? || pc.LockedSelf?) && pc.c == c
  }

  predicate HasSelf(pc: Pc) {
    pc.LockedSelf? || pc.GaveUpLk? || pc.Marked? || pc.Resumed?
  }

  /** Past the point of no return: the process will be, or is, asleep on `c`
      unless it has been woken. */
  predicate Committed(x: Proc, c: int) {
    (x.pc.GaveUpLk? || (x.pc.Marked? && x.state == Sleeping) || (x.pc.Off? && x.state == Sleeping)) && x.pc.c == c
  }

  predicate Consistent(x: Proc) {
    match x.pc
    case Marked(c) => x.state != Running && x.chan == c
    case Off(c) => x.state != Running && x.chan == c
    case Resumed(c) => x.state == Running
    case _ => x.state == Running && x.chan == NONE
  }

  /** The locks of process `p` are held as its place in the code says. */
  predicate SelfOk(s: State, p: nat)
    requires |s.plock| == |s.procs| && p < |s.procs|
  {
    && Consistent(s.procs[p])
    && s.plock[p] == (if HasSelf(s.procs[p].pc) then p else NONE)
    && (!s.procs[p].pc.Outside? ==> s.procs[p].pc.c < |s.lk|)
  }

  /** The holder of `lk` is in wakeup for its channel and has not reached process `p` yet. */
  predicate WakeupComing(s: State, c: nat, p: nat)
    requires c < |s.lk|
  {
    && 0 <= s.lk[c] < |s.procs| && s.lk[c] != p
    && s.procs[s.lk[c]].pc.Waking? && s.procs[s.lk[c]].pc.c == c && s.procs[s.lk[c]].pc.i <= p
  }

  /** What ties process `p` to channel `c`: it holds `lk` exactly when its place in the
      code says so, it goes to sleep only while the condition is false, and if the
      condition has since become true then a wakeup is on its way to it. */
  predicate ChanOk(s: State, p: nat, c: nat)
    requires |s.cond| == |s.lk| && p < |s.procs| && c < |s.lk|
  {
    && (HasLk(s.procs[p].pc, c) <==> s.lk[c] == p)
    && (s.procs[p].pc == LockedSelf(c) ==> !s.cond[c])
    && (Committed(s.procs[p], c) && s.cond[c] ==> WakeupComing(s, c, p))
  }

  ghost predicate Inv(s: State) {
    && Shape(s)
    && (forall p :: 0 <= p < |s.procs| ==> SelfOk(s, p))
    && (forall p, c :: 0 <= p < |s.procs| && 0 <= c < |s.lk| ==> ChanOk(s, p, c))
    && (forall c :: 0 <= c < |s.lk| ==> NONE <= s.lk[c] < |s.procs|)
  }

  lemma InitInv(n: nat, cond: seq<bool>)
    ensures Inv(Init(n, cond))
  {
  }

  lemma SelfKeeps(s: State, step: Step, q: nat)
    requires Inv(s) && Apply(s, step).Next? && q < |s.procs|
    ensures var t := Apply(s, step).s;
      Shape(t) && |t.procs| == |s.procs| && |t.lk| == |s.lk| && SelfOk(t, q)
  {
    assert SelfOk(s, q) && SelfOk(s, step.p);
  }

  lemma OwnerKeeps(s: State, step: Step, c: nat)
    requires Inv(s) && Apply(s, step).Next? && c < |s.lk|
    ensures NONE <= Apply(s, step).s.lk[c] < |s.procs|
  {
  }

  lemma LkKeeps(s: State, step: Step, q: nat, c: nat)
    requires Inv(s) && Apply(s, step).Next? && q < |s.procs| && c < |s.lk|
    ensures HasLk(Apply(s, step).s.procs[q].pc, c) <==> Apply(s, step).s.lk[c] == q
  {
    assert ChanOk(s, q, c) && ChanOk(s, step.p, c);
    assert SelfOk(s, q) && SelfOk(s, step.p);
  }

  lemma EntryKeeps(s: State, step: Step, q: nat, c: nat)
    requires Inv(s) && Apply(s, step).Next? && q < |s.procs| && c < |s.lk|
    requires Apply(s, step).s.procs[q].pc == LockedSelf(c)
    ensures !Apply(s, step).s.cond[c]
  {
    assert ChanOk(s, q, c) && ChanOk(s, step.p, c);
    assert SelfOk(s, q) && SelfOk(s, step.p);
  }

  lemma WakeupKeeps(s: State, step: Step, q: nat, c: nat)
    requires Inv(s) && Apply(s, step).Next? && q < |s.procs| && c < |s.lk|
    requires Committed(Apply(s, step).s.procs[q], c) && Apply(s, step).s.cond[c]
    ensures WakeupComing(Apply(s, step).s, c, q)
  {
    assert ChanOk(s, q, c) && ChanOk(s, step.p, c);
    assert SelfOk(s, q) && SelfOk(s, step.p);
    if s.lk[c] != NONE {
      assert ChanOk(s, s.lk[c], c);
    }
  }

  lemma StepKeeps(s: State, step: Step)
    requires Inv(s) && Apply(s, step).Next?
    ensures Inv(Apply(s, step).s)
  {
    var t := Apply(s, step).s;
    SelfKeeps(s, step, step.p);
    forall p | 0 <= p < |t.procs| ensures SelfOk(t, p) {
      SelfKeeps(s, step, p);
    }
    forall c | 0 <= c < |t.lk| ensures NONE <= t.lk[c] < |t.procs| {
      OwnerKeeps(s, step, c);
    }
    forall p, c | 0 <= p < |t.procs| && 0 <= c < |t.lk| ensures ChanOk(t, p, c) {
      LkKeeps(s, step, p, c);
      if t.procs[p].pc == LockedSelf(c) {
        EntryKeeps(s, step, p, c);
      }
      if Committed(t.procs[p], c) && t.cond[c] {
        WakeupKeeps(s, step, p, c);
      }
    }
  }

  /** The state after a whole run of steps, in any order. */
  ghost function Exec(s: State, steps: seq<Step>): (r: Outcome)
    decreases |steps|
  {
    if steps == [] then Next(s)
    else if !Shape(s) then Blocked
    else match Apply(s, steps[0])
      case Blocked => Blocked
      case Next(t) => Exec(t, steps[1..])
  }

  lemma {:induction false} RunKeeps(s: State, steps: seq<Step>)
    requires Inv(s) && Exec(s, steps).Next?
    ensures Inv(Exec(s, steps).s)
    decreases |steps|
  {
    if steps != [] {
      StepKeeps(s, steps[0]);
      RunKeeps(Apply(s, steps[0]).s, steps[1..]);
    }
  }

  ghost predicate Reachable(s: State) {
    exists n: nat, cond, steps :: Exec(Init(n, cond), steps) == Next(s)
  }

  lemma ReachableInv(s: State)
    requires Reachable(s)
    ensures Inv(s)
  {
    var n: nat, cond, steps :| Exec(Init(n, cond), steps) == Next(s);
    InitInv(n, cond);
    RunKeeps(Init(n, cond), steps);
  }

  /** No wakeup is lost. In every state of every run, a process that is asleep on a
      channel whose condition is true is about to be reached by the wakeup of whoever
      made it true; so while `lk` is free, nobody sleeps on a true condition. */
  lemma NoLostWakeup(s: State, p: nat, c: nat)
    requires Reachable(s) && p < |s.procs| && c < |s.lk| && c < |s.cond|
    requires s.procs[p].state == Sleeping && s.procs[p].chan == c && s.cond[c]
    ensures WakeupComing(s, c, p) && s.lk[c] != NONE
  {
    ReachableInv(s);
    assert SelfOk(s, p);
    assert ChanOk(s, p, c);
  }

  /** A process that spins for another's p->lock never spins for ever: whoever holds it
      is that process itself, and it can always take its next step, without any lock. */
  lemma HoldersMove(s: State, p: nat)
    requires Reachable(s) && p < |s.procs| && p < |s.plock| && s.plock[p] != NONE
    ensures s.plock[p] == p && Shape(s)
    ensures exists step: Step :: step.p == p && Apply(s, step).Next?
  {
    ReachableInv(s);
    assert SelfOk(s, p);
    var step := match s.procs[p].pc
      case LockedSelf(_) => LetGo(p)
      case GaveUpLk(_) => Mark(p)
      case Marked(_) => Switch(p)
      case _ => Return(p);
    assert step.p == p && Apply(s, step).Next?;
  }

  // What sleep and wakeup come to, as whole runs.

  lemma ExecOne(s: State, step: Step, t: State, rest: seq<Step>)
    requires Shape(s) && Apply(s, step) == Next(t)
    ensures Exec(s, [step] + rest) == Exec(t, rest)
  {
    assert ([step] + rest)[1..] == rest;
  }

  lemma {:induction false} ExecThen(s: State, xs: seq<Step>, t: State, ys: seq<Step>)
    requires Exec(s, xs) == Next(t)
    ensures Exec(s, xs + ys) == Exec(t, ys)
    decreases |xs|
  {
    if xs == [] {
      assert xs + ys == ys;
    } else {
      assert xs + ys == [xs[0]] + (xs[1..] + ys);
      ExecOne(s, xs[0], Apply(s, xs[0]).s, xs[1..] + ys);
      ExecThen(Apply(s, xs[0]).s, xs[1..], t, ys);
    }
  }

  lemma Once(s: State, step: Step) returns (t: State)
    requires Inv(s) && Apply(s, step).Next?
    ensures t == Apply(s, step).s && Inv(t) && Exec(s, [step]) == Next(t)
  {
    StepKeeps(s, step);
    t := Apply(s, step).s;
    ExecOne(s, step, t, []);
    assert [step] + [] == [step];
  }

  function Wakes(h: nat, k: nat): (r: seq<Step>) {
    seq(k, _ => Wake(h))
  }

  /** Process `q` after a wakeup of channel `c`. */
  function Woken(x: Proc, c: nat): (y: Proc) {
    if x.state == Sleeping && x.chan == c then x.(state := Runnable) else x
  }

  /** The wakeup that NoLostWakeup promises, if no p->lock stands in its way: it makes exactly the processes
      runnable that sleep on the channel, of those it has not passed, and ends. */
  lemma {:induction false} WakeupReaches(s: State, h: nat, c: nat, i: nat) returns (t: State)
    requires Inv(s) && h < |s.procs| && i <= |s.procs| && s.procs[h].pc == Waking(c, i)
    requires forall j :: i <= j < |s.procs| ==> s.plock[j] == NONE
    ensures Inv(t) && Exec(s, Wakes(h, |s.procs| - i + 1)) == Next(t) && t.lk == s.lk && t.cond == s.cond && t.plock == s.plock
    ensures |t.procs| == |s.procs| && t.procs[h] == s.procs[h].(pc := Holding(c))
    ensures forall q :: 0 <= q < |s.procs| && q != h ==> t.procs[q] == if q >= i then Woken(s.procs[q], c) else s.procs[q]
    decreases |s.procs| - i
  {
    var n := |s.procs| - i;
    var m := Once(s, Wake(h));
    assert Wakes(h, n + 1) == [Wake(h)] + Wakes(h, n);
    if i < |s.procs| {
      t := WakeupReaches(m, h, c, i + 1);
      ExecThen(s, [Wake(h)], m, Wakes(h, n));
    } else {
      t := m;
      assert Wakes(h, 1) == [Wake(h)];
    }
  }

  /** sleep: the process gives up both locks and is SLEEPING on the channel. */
  lemma FallsAsleep(s: State, p: nat, c: nat) returns (steps: seq<Step>, t: State)
    requires Inv(s) && p < |s.procs| && s.procs[p].pc == Holding(c) && c < |s.lk| && !s.cond[c]
    ensures Inv(t) && Exec(s, steps) == Next(t)
    ensures t == s.(procs := s.procs[p := Proc(Off(c), Sleeping, c)], lk := s.lk[c := NONE])
  {
    assert SelfOk(s, p);
    var a := Once(s, Sleep(p));
    var b := Once(a, LetGo(p));
    var d := Once(b, Mark(p));
    t := Once(d, Switch(p));
    ExecThen(s, [Sleep(p)], a, [LetGo(p)]);
    ExecThen(s, [Sleep(p)] + [LetGo(p)], b, [Mark(p)]);
    ExecThen(s, [Sleep(p)] + [LetGo(p)] + [Mark(p)], d, [Switch(p)]);
    steps := [Sleep(p)] + [LetGo(p)] + [Mark(p)] + [Switch(p)];
  }

  /** The rest of sleep, once the process is runnable and `lk` is free: it returns with `lk` again. */
  lemma SleepReturns(s: State, p: nat, c: nat) returns (steps: seq<Step>, t: State)
    requires Inv(s) && p < |s.procs| && s.procs[p].pc == Off(c) && s.procs[p].state == Runnable && c < |s.lk| && s.lk[c] == NONE
    ensures Inv(t) && Exec(s, steps) == Next(t)
    ensures t == s.(procs := s.procs[p := Proc(Holding(c), Running, NONE)], lk := s.lk[c := p])
  {
    assert SelfOk(s, p);
    var a := Once(s, Dispatch(p));
    var b := Once(a, Return(p));
    t := Once(b, Retake(p));
    ExecThen(s, [Dispatch(p)], a, [Return(p)]);
    ExecThen(s, [Dispatch(p)] + [Return(p)], b, [Retake(p)]);
    steps := [Dispatch(p)] + [Return(p)] + [Retake(p)];
  }

  /** A process makes the condition true, wakes those that wait for it, and releases the lock. */
  lemma Signals(s: State, h: nat, c: nat) returns (steps: seq<Step>, t: State)
    requires Inv(s) && h < |s.procs| && s.procs[h].pc == Outside && c < |s.lk| && s.lk[c] == NONE
    requires forall j :: 0 <= j < |s.procs| ==> s.plock[j] == NONE
    ensures Inv(t) && Exec(s, steps) == Next(t) && t.cond == s.cond[c := true] && t.lk == s.lk && t.plock == s.plock
    ensures |t.procs| == |s.procs| && t.procs[h].pc == Outside && forall q :: 0 <= q < |s.procs| && q != h ==> t.procs[q] == Woken(s.procs[q], c)
  {
    var a := Once(s, Acquire(h, c));
    var b := Once(a, Set(h, true));
    var d := WakeupReaches(b, h, c, 0);
    t := Once(d, Release(h));
    var xs := Wakes(h, |s.procs| - 0 + 1);
    ExecThen(s, [Acquire(h, c)], a, [Set(h, true)]);
    ExecThen(s, [Acquire(h, c)] + [Set(h, true)], b, xs);
    ExecThen(s, [Acquire(h, c)] + [Set(h, true)] + xs, d, [Release(h)]);
    steps := [Acquire(h, c)] + [Set(h, true)] + xs + [Release(h)];
  }

  /** So a process that sleeps on a channel returns, with the lock, to find the condition true. */
  lemma SleeperReturns(s: State, h: nat, p: nat, c: nat) returns (steps: seq<Step>, t: State)
    requires Reachable(s) && h < |s.procs| && p < |s.procs| && p != h && c < |s.lk| && s.lk[c] == NONE
    requires s.procs[h].pc == Outside && s.procs[p].pc == Off(c) && s.procs[p].state == Sleeping
    requires |s.plock| == |s.procs| && forall j :: 0 <= j < |s.procs| ==> s.plock[j] == NONE
    ensures Exec(s, steps) == Next(t) && |t.procs| == |s.procs| && t.procs[p].pc == Holding(c) && |t.cond| == |t.lk| == |s.lk|
    ensures t.cond[c] && t.lk[c] == p
  {
    ReachableInv(s);
    assert SelfOk(s, p);
    var xs, a := Signals(s, h, c);
    var ys, b := SleepReturns(a, p, c);
    ExecThen(s, xs, a, ys);
    steps, t := xs + ys, b;
  }

  /** And one that is killed returns as well, whatever the condition. */
  lemma KilledReturns(s: State, p: nat, c: nat) returns (steps: seq<Step>, t: State)
    requires Reachable(s) && p < |s.procs| && c < |s.lk| && s.lk[c] == NONE && s.procs[p].pc == Off(c) && s.procs[p].state == Sleeping
    ensures Exec(s, [Kill(p)] + steps) == Next(t) && t == s.(procs := s.procs[p := Proc(Holding(c), Running, NONE)], lk := s.lk[c := p])
  {
    ReachableInv(s);
    assert SelfOk(s, p);
    var a := Once(s, Kill(p));
    steps, t := SleepReturns(a, p, c);
    ExecThen(s, [Kill(p)], a, steps);
  }
}

/** The sleep lock of kernel/sleeplock.c: the condition of channel `c` is that lock `c`
    is not taken, and the processes follow acquiresleep and releasesleep. */
module SleepLock {
  import opened SleepWakeup

  /** `holders` are the processes that have returned from acquiresleep and not yet called
      releasesleep; `pid` is the field the lock keeps for holdingsleep. */
  datatype Locks = Locks(base: State, holders: seq<set<int>>, pid: seq<int>)

  datatype LockStep =
    | Base(step: Step)   // everything but a change of `locked`
    | Take(p: nat)       // locked is 0: the loop in acquiresleep ends
    | Drop(p: nat)       // releasesleep by a holder

  datatype LockOutcome = Goes(l: Locks) | Stuck

  function InitLocks(n: nat, m: nat): (l: Locks) {
    Locks(Init(n, seq(m, _ => true)), seq(m, _ => {}), seq(m, _ => NONE))
  }

  predicate LockShape(l: Locks) {
    |l.base.plock| == |l.base.procs| && |l.base.cond| == |l.base.lk| == |l.holders| == |l.pid|
  }

  ghost predicate LockInv(l: Locks) {
    && Inv(l.base)
    && LockShape(l)
    && forall c :: 0 <= c < |l.pid| ==>
         if l.base.cond[c] then l.holders[c] == {} && l.pid[c] == NONE else l.holders[c] == {l.pid[c]}
  }

  function ApplyLock(l: Locks, step: LockStep): (r: LockOutcome)
    requires LockShape(l)
  {
    match step
    case Base(b) =>
      if b.Set? then Stuck
      else (match Apply(l.base, b) case Next(t) => Goes(l.(base := t)) case Blocked => Stuck)
    case Take(p) =>
      if p < |l.base.procs| && l.base.procs[p].pc.Holding? && l.base.procs[p].pc.c < |l.pid| && l.base.cond[l.base.procs[p].pc.c] then
        var c := l.base.procs[p].pc.c;
        Goes(Locks(Apply(l.base, Set(p, false)).s, l.holders[c := l.holders[c] + {p}], l.pid[c := p]))
      else Stuck
    case Drop(p) =>
      if p < |l.base.procs| && l.base.procs[p].pc.Holding? && l.base.procs[p].pc.c < |l.pid| && p in l.holders[l.base.procs[p].pc.c] then
        var c := l.base.procs[p].pc.c;
        Goes(Locks(Apply(l.base, Set(p, true)).s, l.holders[c := l.holders[c] - {p}], l.pid[c := NONE]))
      else Stuck
  }

  lemma LockStepKeeps(l: Locks, step: LockStep)
    requires LockInv(l) && ApplyLock(l, step).Goes?
    ensures LockInv(ApplyLock(l, step).l) && |ApplyLock(l, step).l.pid| == |l.pid|
  {
    match step
    case Base(b) => StepKeeps(l.base, b);
    case Take(p) => StepKeeps(l.base, Set(p, false));
    case Drop(p) => StepKeeps(l.base, Set(p, true));
  }

  ghost function ExecLocks(l: Locks, steps: seq<LockStep>): (r: LockOutcome)
    decreases |steps|
  {
    if steps == [] then Goes(l)
    else if !LockShape(l) then Stuck
    else match ApplyLock(l, steps[0])
      case Stuck => Stuck
      case Goes(k) => ExecLocks(k, steps[1..])
  }

  lemma {:induction false} LockRunKeeps(l: Locks, steps: seq<LockStep>)
    requires LockInv(l) && ExecLocks(l, steps).Goes?
    ensures LockInv(ExecLocks(l, steps).l) && |ExecLocks(l, steps).l.pid| == |l.pid|
    decreases |steps|
  {
    if steps != [] {
      LockStepKeeps(l, steps[0]);
      LockRunKeeps(ApplyLock(l, steps[0]).l, steps[1..]);
    }
  }

  /** Whatever the run, a sleep lock has at most one holder, the process its pid field
      names, and it is taken exactly while it has one. */
  lemma MutualExclusion(n: nat, m: nat, steps: seq<LockStep>, l: Locks, c: nat)
    requires ExecLocks(InitLocks(n, m), steps) == Goes(l) && c < m
    ensures |l.holders| == |l.pid| == |l.base.cond| == m
    ensures forall p, q :: p in l.holders[c] && q in l.holders[c] ==> p == q
    ensures forall p :: p in l.holders[c] <==> !l.base.cond[c] && l.pid[c] == p
  {
    InitInv(n, seq(m, _ => true));
    LockRunKeeps(InitLocks(n, m), steps);
  }

  /** And no process sleeps for a lock that is free, unless the wakeup of its last
      holder is still under way. */
  lemma NobodyLeftBehind(n: nat, m: nat, steps: seq<LockStep>, l: Locks, p: nat, c: nat)
    requires ExecLocks(InitLocks(n, m), steps) == Goes(l) && c < m && p < |l.base.procs|
    requires |l.holders| == |l.base.lk| == m && l.holders[c] == {}
    requires l.base.procs[p].state == Sleeping && l.base.procs[p].chan == c
    ensures WakeupComing(l.base, c, p)
  {
    InitInv(n, seq(m, _ => true));
    LockRunKeeps(InitLocks(n, m), steps);
    assert l.base.cond[c] by {
      assert l.pid[c] in {l.pid[c]};
    }
    assert SelfOk(l.base, p) && ChanOk(l.base, p, c);
  }

  // What acquiresleep and releasesleep come to, as whole runs.

  lemma LocksThen(l: Locks, step: LockStep, k: Locks, rest: seq<LockStep>)
    requires LockShape(l) && ApplyLock(l, step) == Goes(k)
    ensures ExecLocks(l, [step] + rest) == ExecLocks(k, rest)
  {
    assert ([step] + rest)[1..] == rest;
  }

  lemma {:induction false} LocksRun(l: Locks, xs: seq<Step>, t: State, rest: seq<LockStep>) returns (steps: seq<LockStep>)
    requires LockInv(l) && Exec(l.base, xs) == Next(t) && forall i :: 0 <= i < |xs| ==> !xs[i].Set?
    ensures ExecLocks(l, steps) == ExecLocks(l.(base := t), rest) && LockInv(l.(base := t))
    decreases |xs|
  {
    if xs == [] {
      steps := rest;
    } else {
      var m := l.(base := Apply(l.base, xs[0]).s);
      LockStepKeeps(l, Base(xs[0]));
      var ys := LocksRun(m, xs[1..], t, rest);
      LocksThen(l, Base(xs[0]), m, ys);
      steps := [Base(xs[0])] + ys;
    }
  }

  /** acquiresleep of a free lock: the caller holds it, and its pid says so. */
  lemma AcquiresleepReturns(l: Locks, p: nat, c: nat) returns (steps: seq<LockStep>, k: Locks)
    requires LockInv(l) && p < |l.base.procs| && c < |l.pid| && l.base.procs[p].pc == Outside && l.base.lk[c] == NONE && l.holders[c] == {}
    ensures LockInv(k) && ExecLocks(l, steps) == Goes(k) && k.holders == l.holders[c := {p}] && k.pid == l.pid[c := p]
    ensures k.base == l.base.(cond := l.base.cond[c := false])
  {
    assert l.base.cond[c] by {
      assert l.pid[c] in {l.pid[c]};
    }
    var l1 := ApplyLock(l, Base(Acquire(p, c))).l;
    LockStepKeeps(l, Base(Acquire(p, c)));
    var l2 := ApplyLock(l1, Take(p)).l;
    LockStepKeeps(l1, Take(p));
    k := ApplyLock(l2, Base(Release(p))).l;
    LockStepKeeps(l2, Base(Release(p)));
    LocksThen(l2, Base(Release(p)), k, []);
    LocksThen(l1, Take(p), l2, [Base(Release(p))] + []);
    LocksThen(l, Base(Acquire(p, c)), l1, [Take(p)] + ([Base(Release(p))] + []));
    steps := [Base(Acquire(p, c))] + ([Take(p)] + ([Base(Release(p))] + []));
    assert k.base.procs == l.base.procs && k.base.lk == l.base.lk;
  }

  /** releasesleep by the holder: the lock is free, and whoever sleeps for it is runnable. */
  lemma ReleasesleepReturns(l: Locks, p: nat, c: nat) returns (steps: seq<LockStep>, k: Locks)
    requires LockInv(l) && p < |l.base.procs| && c < |l.pid| && l.base.procs[p].pc == Outside && l.base.lk[c] == NONE && l.holders[c] == {p}
    requires forall j :: 0 <= j < |l.base.procs| ==> l.base.plock[j] == NONE
    ensures ExecLocks(l, steps) == Goes(k) && k.holders == l.holders[c := {}] && k.pid == l.pid[c := NONE] && |k.base.procs| == |l.base.procs|
    ensures forall q :: 0 <= q < |l.base.procs| && q != p ==> k.base.procs[q] == Woken(l.base.procs[q], c)
  {
    var l1 := ApplyLock(l, Base(Acquire(p, c))).l;
    LockStepKeeps(l, Base(Acquire(p, c)));
    var l2 := ApplyLock(l1, Drop(p)).l;
    LockStepKeeps(l1, Drop(p));
    var t := WakeupReaches(l2.base, p, c, 0);
    var l3 := l2.(base := t);
    k := l3.(base := Apply(t, Release(p)).s);
    var xs := LocksRun(l2, Wakes(p, |l2.base.procs| - 0 + 1), t, [Base(Release(p))] + []);
    LocksThen(l3, Base(Release(p)), k, []);
    LocksThen(l1, Drop(p), l2, xs);
    LocksThen(l, Base(Acquire(p, c)), l1, [Drop(p)] + xs);
    steps := [Base(Acquire(p, c))] + ([Drop(p)] + xs);
  }
}
