/** The table of in-memory inodes of kernel/fs.c: iget, idup, ilock, iunlock, iput and
    ialloc, in every interleaving of any number of processes. What happens under
    itable.lock is one step, and so is each visit to the buffer that holds a dinode. */
module Itable {

  datatype Key = Key(dev: nat, inum: nat)

  /** A dinode. Type 0 is a free inode; `content` stands for the size and the block addresses. */
  datatype Dinode = Dinode(kind: nat, nlink: nat, content: seq<nat>)

  const NONE: int := -1

  /** `lock` is the holder of the sleep lock, or NONE. */
  datatype Entry = Entry(key: Key, ref: nat, valid: bool, node: Dinode, lock: int)

  /** Where a process is inside one of the operations. */
  datatype Pc =
    | Idle
    | Filling(e: nat)       // ilock: has the lock, about to look at valid
    | Truncating(e: nat)    // iput: has the lock, itable.lock is released
    | Zeroing(e: nat)       // iput: itrunc is done, about to write type 0
    | Clearing(e: nat)      // iput: type 0 is on the disk, about to clear valid
    | Dropping(e: nat)      // iput: unlocked again, the reference is still to go
    | Allocated(k: Key)     // ialloc: the type is on the disk, iget comes next

  /** `own[p][e]` counts the references to entry e that process p holds. */
  datatype State = State(table: seq<Entry>, disk: map<Key, Dinode>, procs: seq<Pc>, own: seq<seq<nat>>)

  datatype Step =
    | Iget(p: nat, k: Key)
    | Idup(p: nat, e: nat)
    | Hand(p: nat, q: nat, e: nat)        // process q has the reference from now on: fork, or the last close of a shared file
    | Ilock(p: nat, e: nat)               // acquiresleep in ilock
    | Fill(p: nat)                        // the rest of ilock
    | Change(p: nat, e: nat, node: Dinode)  // the holder of the lock changes fields
    | Iupdate(p: nat, e: nat)
    | Iunlock(p: nat, e: nat)
    | Iput(p: nat, e: nat)                // up to the release of itable.lock
    | Trunc(p: nat)
    | Zero(p: nat)
    | Clear(p: nat)                       // valid = 0 and releasesleep
    | Drop(p: nat)
    | Ialloc(p: nat, k: Key, kind: nat)   // marks a free dinode allocated
    | IallocGet(p: nat)                   // the iget at the end of ialloc

  datatype Outcome =
    | Next(s: State)
    | Blocked        // not possible now
    | Sleeps         // the acquiresleep inside iput would sleep
    | NoInodes       // panic "iget: no inodes"
    | NoType         // panic "ilock: no type"

  predicate Shape(s: State) {
    |s.own| == |s.procs| && forall p :: 0 <= p < |s.own| ==> |s.own[p]| == |s.table|
  }

  // What iget chooses.

  predicate Cached(x: Entry, k: Key) {
    x.ref > 0 && x.key == k
  }

  /** The entry iget takes: the first that holds `k`, else the first empty one from `i` on. */
  function FirstCached(table: seq<Entry>, k: Key, i: nat): (e: nat)
    requires i <= |table|
    ensures i <= e <= |table| && (e < |table| ==> Cached(table[e], k))
    ensures forall j :: i <= j < e ==> !Cached(table[j], k)
    decreases |table| - i
  {
    if i == |table| || Cached(table[i], k) then i else FirstCached(table, k, i + 1)
  }

  function FirstEmpty(table: seq<Entry>, i: nat): (e: nat)
    requires i <= |table|
    ensures i <= e <= |table| && (e < |table| ==> table[e].ref == 0)
    ensures forall j :: i <= j < e ==> table[j].ref > 0
    decreases |table| - i
  {
    if i == |table| || table[i].ref == 0 then i else FirstEmpty(table, i + 1)
  }

  /** The entry iget(k) returns; |table| when it panics. */
  function Slot(table: seq<Entry>, k: Key): (e: nat)
    ensures e <= |table|
  {
    if FirstCached(table, k, 0) < |table| then FirstCached(table, k, 0) else FirstEmpty(table, 0)
  }

  function Got(x: Entry, k: Key): (y: Entry) {
    if Cached(x, k) then x.(ref := x.ref + 1) else Entry(k, 1, false, x.node, x.lock)
  }

  // The steps.

  function Own(s: State, p: nat, e: nat): (n: nat)
    requires |s.own| == |s.procs| && p < |s.procs|
  {
    if e < |s.own[p]| then s.own[p][e] else 0
  }

  function SetOwn(own: seq<seq<nat>>, p: nat, e: nat, n: nat): (r: seq<seq<nat>>)
    requires p < |own| && e < |own[p]|
  {
    var row: seq<nat> := own[p][e := n];
    own[p := row]
  }

  function Handed(own: seq<seq<nat>>, p: nat, q: nat, e: nat): (r: seq<seq<nat>>)
    requires p < |own| && q < |own| && e < |own[p]| && e < |own[q]| && own[p][e] > 0
  {
    var less := SetOwn(own, p, e, own[p][e] - 1);
    SetOwn(less, q, e, less[q][e] + 1)
  }

  function TakeRef(s: State, p: nat, k: Key): (r: Outcome)
    requires Shape(s) && p < |s.procs|
  {
    var e := Slot(s.table, k);
    if e == |s.table| then NoInodes
    else Next(s.(table := s.table[e := Got(s.table[e], k)], own := SetOwn(s.own, p, e, s.own[p][e] + 1),
                 procs := s.procs[p := Idle]))
  }

  /** ref-- by the owner of a reference. */
  function DropRef(s: State, p: nat, e: nat): (t: State)
    requires Shape(s) && p < |s.procs| && e < |s.table| && s.own[p][e] > 0 && s.table[e].ref > 0
  {
    s.(table := s.table[e := s.table[e].(ref := s.table[e].ref - 1)], own := SetOwn(s.own, p, e, s.own[p][e] - 1),
       procs := s.procs[p := Idle])
  }

  function Move(s: State, p: nat, e: nat, x: Entry, pc: Pc): (t: State)
    requires p < |s.procs| && e < |s.table|
  {
    s.(table := s.table[e := x], procs := s.procs[p := pc])
  }

  predicate Frees(x: Entry) {
    x.ref == 1 && x.valid && x.node.nlink == 0
  }

  function Apply(s: State, step: Step): (r: Outcome)
    requires Shape(s)
  {
    if step.p >= |s.procs| then Blocked
    else
      var p := step.p;
      var pc := s.procs[p];
      match step
      case Iget(_, k) => if pc == Idle && k in s.disk then TakeRef(s, p, k) else Blocked
      case Idup(_, e) =>
        if pc == Idle && Own(s, p, e) > 0 then
          Next(s.(table := s.table[e := s.table[e].(ref := s.table[e].ref + 1)], own := SetOwn(s.own, p, e, s.own[p][e] + 1)))
        else Blocked
      case Hand(_, q, e) =>
        if pc == Idle && q < |s.procs| && Own(s, p, e) > 0 && s.table[e].lock != p then Next(s.(own := Handed(s.own, p, q, e))) else Blocked
      case Ilock(_, e) =>
        if pc == Idle && Own(s, p, e) > 0 && s.table[e].lock == NONE then
          Next(Move(s, p, e, s.table[e].(lock := p), Filling(e)))
        else Blocked
      case Fill(_) =>
        if pc.Filling? && pc.e < |s.table| && s.table[pc.e].key in s.disk then
          var x := s.table[pc.e];
          if x.valid then Next(s.(procs := s.procs[p := Idle]))
          else if s.disk[x.key].kind == 0 then NoType
          else Next(Move(s, p, pc.e, x.(valid := true, node := s.disk[x.key]), Idle))
        else Blocked
      case Change(_, e, node) =>
        if pc == Idle && e < |s.table| && s.table[e].lock == p && node.kind == s.table[e].node.kind then
          Next(Move(s, p, e, s.table[e].(node := node), Idle))
        else Blocked
      case Iupdate(_, e) =>
        if pc == Idle && e < |s.table| && s.table[e].lock == p then
          Next(s.(disk := s.disk[s.table[e].key := s.table[e].node]))
        else Blocked
      case Iunlock(_, e) =>
        if pc == Idle && e < |s.table| && s.table[e].lock == p then
          Next(Move(s, p, e, s.table[e].(lock := NONE), Idle))
        else Blocked
      case Iput(_, e) =>
        if !(pc == Idle && Own(s, p, e) > 0 && s.table[e].ref > 0 && s.table[e].lock != p) then Blocked
        else if !Frees(s.table[e]) then Next(DropRef(s, p, e))
        else if s.table[e].lock != NONE then Sleeps
        else Next(Move(s, p, e, s.table[e].(lock := p), Truncating(e)))
      case Trunc(_) =>
        if pc.Truncating? && pc.e < |s.table| then
          var x := s.table[pc.e];
          var y := x.(node := x.node.(content := []));
          Next(Move(s, p, pc.e, y, Zeroing(pc.e)).(disk := s.disk[x.key := y.node]))
        else Blocked
      case Zero(_) =>
        if pc.Zeroing? && pc.e < |s.table| then
          var x := s.table[pc.e];
          var y := x.(node := x.node.(kind := 0));
          Next(Move(s, p, pc.e, y, Clearing(pc.e)).(disk := s.disk[x.key := y.node]))
        else Blocked
      case Clear(_) =>
        if pc.Clearing? && pc.e < |s.table| then
          Next(Move(s, p, pc.e, s.table[pc.e].(valid := false, lock := NONE), Dropping(pc.e)))
        else Blocked
      case Drop(_) =>
        if pc.Dropping? && Own(s, p, pc.e) > 0 && s.table[pc.e].ref > 0 then Next(DropRef(s, p, pc.e)) else Blocked
      case Ialloc(_, k, kind) =>
        if pc == Idle && k in s.disk && s.disk[k].kind == 0 && kind != 0 then
          Next(s.(disk := s.disk[k := Dinode(kind, 0, [])], procs := s.procs[p := Allocated(k)]))
        else Blocked
      case IallocGet(_) => if pc.Allocated? then TakeRef(s, p, pc.k) else Blocked
  }

  // Counting references.

  function Refs(own: seq<seq<nat>>, e: nat): (n: nat) {
    if own == [] then 0 else (if e < |own[0]| then own[0][e] else 0) + Refs(own[1..], e)
  }

  lemma {:induction false} RefsSet(own: seq<seq<nat>>, p: nat, e: nat, n: nat, f: nat)
    requires p < |own| && e < |own[p]| && f < |own[p]|
    ensures Refs(SetOwn(own, p, e, n), f) == Refs(own, f) + (if e == f then n - own[p][e] else 0)
  {
    var own' := SetOwn(own, p, e, n);
    if p == 0 {
      assert own'[1..] == own[1..];
    } else {
      assert own'[1..] == SetOwn(own[1..], p - 1, e, n);
      RefsSet(own[1..], p - 1, e, n, f);
    }
  }

  /** The references of two processes are different references. */
  lemma {:induction false} RefsOfTwo(own: seq<seq<nat>>, p: nat, q: nat, e: nat)
    requires p < |own| && q < |own| && e < |own[p]| && e < |own[q]|
    ensures own[p][e] + (if p != q then own[q][e] else 0) <= Refs(own, e)
  {
    if p > 0 && q > 0 {
      RefsOfTwo(own[1..], p - 1, q - 1, e);
    } else if p > 0 {
      RefsOfTwo(own[1..], p - 1, p - 1, e);
    } else if q > 0 {
      RefsOfTwo(own[1..], q - 1, q - 1, e);
    }
  }

  lemma {:induction false} RefsZero(own: seq<seq<nat>>, e: nat)
    requires forall p :: 0 <= p < |own| ==> e < |own[p]| && own[p][e] == 0
    ensures Refs(own, e) == 0
  {
    if own != [] {
      RefsZero(own[1..], e);
    }
  }

  // The invariant.

  ghost predicate Unique(s: State) {
    forall e, f :: 0 <= e < |s.table| && 0 <= f < |s.table| && e != f && s.table[e].ref > 0 && s.table[f].ref > 0 ==>
      s.table[e].key != s.table[f].key
  }

  /** The holder of the lock of entry `e`, if there is one, is in a part of ilock or iput
      where the copy in memory agrees with the disk. */
  predicate Settled(s: State, e: nat)
    requires e < |s.table|
  {
    var h := s.table[e].lock;
    h == NONE || (0 <= h < |s.procs| && (s.procs[h] == Filling(e) || s.procs[h] == Truncating(e) || s.procs[h] == Zeroing(e)))
  }

  /** The holder is iput, past the write of type 0. */
  predicate Freed(s: State, e: nat)
    requires e < |s.table|
  {
    0 <= s.table[e].lock < |s.procs| && s.procs[s.table[e].lock] == Clearing(e)
  }

  ghost predicate EntryOk(s: State, e: nat)
    requires Shape(s) && e < |s.table|
  {
    var x := s.table[e];
    && NONE <= x.lock < |s.procs|
    && x.ref == Refs(s.own, e)
    && (x.lock != NONE ==> s.own[x.lock][e] > 0)
    && (x.lock != NONE && s.procs[x.lock] != Filling(e) ==> x.valid)
    && (x.ref > 0 ==> x.key in s.disk)
    && (x.ref > 0 && x.valid && !Freed(s, e) ==> x.node.kind != 0 && s.disk[x.key].kind != 0)
  }

  /** Unless its holder is about to change it, a valid entry is the dinode on the disk. */
  ghost predicate Agrees(s: State, e: nat)
    requires e < |s.table|
  {
    var x := s.table[e];
    x.ref > 0 && x.valid && Settled(s, e) ==> x.key in s.disk && x.node == s.disk[x.key]
  }

  ghost predicate Agreement(s: State) {
    forall e :: 0 <= e < |s.table| ==> Agrees(s, e)
  }

  /** The step unlocks entry `e` although it differs from the dinode: its holder has changed it and not called iupdate. */
  predicate UnlocksChanged(s: State, step: Step, e: nat) {
    step.Iunlock? && step.e == e < |s.table| && s.table[e].key in s.disk && s.table[e].node != s.disk[s.table[e].key]
  }

  ghost predicate ProcOk(s: State, p: nat)
    requires Shape(s) && p < |s.procs|
  {
    match s.procs[p]
    case Idle => true
    case Allocated(k) => k in s.disk
    case Dropping(e) => e < |s.table| && s.own[p][e] > 0 && s.table[e].lock != p
    case Filling(e) => e < |s.table| && s.table[e].lock == p
    case Truncating(e) => e < |s.table| && s.table[e].lock == p
    case Zeroing(e) => e < |s.table| && s.table[e].lock == p
    case Clearing(e) => e < |s.table| && s.table[e].lock == p
  }

  ghost predicate Inv(s: State) {
    && Shape(s)
    && Unique(s)
    && (forall e :: 0 <= e < |s.table| ==> EntryOk(s, e))
    && (forall p :: 0 <= p < |s.procs| ==> ProcOk(s, p))
  }

  // Every step keeps it.

  /** Steps that neither take nor drop a reference. */
  predicate KeepsRefs(s: State, step: Step)
    requires Shape(s)
  {
    !step.Iget? && !step.Idup? && !step.Hand? && !step.IallocGet? && !step.Drop? && !(step.Iput? && step.e < |s.table| && !Frees(s.table[step.e]))
  }

  lemma PlainShape(s: State, step: Step)
    requires Inv(s) && KeepsRefs(s, step) && Apply(s, step).Next?
    ensures var t := Apply(s, step).s;
      t.own == s.own && |t.procs| == |s.procs| && |t.table| == |s.table| && Shape(t)
  {
  }

  lemma OwnerHasRef(s: State, p: nat, e: nat)
    requires Inv(s) && p < |s.procs| && e < |s.table| && s.own[p][e] > 0
    ensures s.table[e].ref > 0
  {
    assert EntryOk(s, e);
    RefsOfTwo(s.own, p, p, e);
  }

  predicate WritesDisk(step: Step) {
    step.Iupdate? || step.Trunc? || step.Zero? || step.Ialloc?
  }

  lemma PlainEntry(s: State, step: Step, f: nat)
    requires Inv(s) && KeepsRefs(s, step) && !WritesDisk(step) && Apply(s, step).Next? && f < |s.table|
    ensures var t := Apply(s, step).s; Shape(t) && f < |t.table| && EntryOk(t, f)
  {
    PlainShape(s, step);
    assert EntryOk(s, f) && ProcOk(s, step.p);
  }

  /** The entry whose dinode iupdate or iput is about to write. */
  function Written(s: State, step: Step): (e: nat)
    requires step.p < |s.procs| && (step.Trunc? ==> s.procs[step.p].Truncating?) && (step.Zero? ==> s.procs[step.p].Zeroing?)
    requires step.Iupdate? || step.Trunc? || step.Zero?
  {
    if step.Iupdate? then step.e else s.procs[step.p].e
  }

  lemma WriteEntry(s: State, step: Step, f: nat)
    requires Inv(s) && WritesDisk(step) && !step.Ialloc? && Apply(s, step).Next? && f < |s.table|
    ensures var t := Apply(s, step).s; Shape(t) && f < |t.table| && EntryOk(t, f)
  {
    PlainShape(s, step);
    assert ProcOk(s, step.p);
    var e := Written(s, step);
    assert EntryOk(s, f) && EntryOk(s, e);
    OwnerHasRef(s, step.p, e);
  }

  lemma AllocEntry(s: State, step: Step, f: nat)
    requires Inv(s) && step.Ialloc? && Apply(s, step).Next? && f < |s.table|
    ensures var t := Apply(s, step).s; Shape(t) && f < |t.table| && EntryOk(t, f)
  {
    assert EntryOk(s, f);
  }

  lemma TakeEntry(s: State, p: nat, k: Key, f: nat)
    requires Inv(s) && p < |s.procs| && k in s.disk && (s.procs[p] == Idle || s.procs[p] == Allocated(k))
    requires TakeRef(s, p, k).Next? && f < |s.table|
    ensures var t := TakeRef(s, p, k).s; Shape(t) && |t.table| == |s.table| && EntryOk(t, f)
  {
    var e := Slot(s.table, k);
    assert EntryOk(s, f) && EntryOk(s, e);
    RefsSet(s.own, p, e, s.own[p][e] + 1, f);
    if s.table[e].lock != NONE {
      OwnerHasRef(s, s.table[e].lock, e);
    }
  }

  lemma TakeUnique(s: State, p: nat, k: Key)
    requires Inv(s) && p < |s.procs| && TakeRef(s, p, k).Next?
    ensures Unique(TakeRef(s, p, k).s)
  {
  }

  lemma DupEntry(s: State, step: Step, f: nat)
    requires Inv(s) && step.Idup? && Apply(s, step).Next? && f < |s.table|
    ensures var t := Apply(s, step).s; Shape(t) && |t.table| == |s.table| && EntryOk(t, f)
  {
    assert EntryOk(s, f) && EntryOk(s, step.e);
    RefsSet(s.own, step.p, step.e, s.own[step.p][step.e] + 1, f);
    OwnerHasRef(s, step.p, step.e);
  }

  lemma HandEntry(s: State, step: Step, f: nat)
    requires Inv(s) && step.Hand? && Apply(s, step).Next? && f < |s.table|
    ensures var t := Apply(s, step).s; Shape(t) && |t.table| == |s.table| && EntryOk(t, f)
  {
    var p, q, e := step.p, step.q, step.e;
    assert EntryOk(s, f);
    var less := SetOwn(s.own, p, e, s.own[p][e] - 1);
    RefsSet(s.own, p, e, s.own[p][e] - 1, f);
    RefsSet(less, q, e, less[q][e] + 1, f);
  }

  lemma DropEntry(s: State, p: nat, e: nat, f: nat)
    requires Inv(s) && p < |s.procs| && e < |s.table| && s.own[p][e] > 0 && s.table[e].ref > 0 && f < |s.table|
    requires s.table[e].lock != p && (s.procs[p] == Idle || s.procs[p] == Dropping(e))
    ensures var t := DropRef(s, p, e); Shape(t) && |t.table| == |s.table| && EntryOk(t, f)
  {
    assert EntryOk(s, f) && EntryOk(s, e);
    RefsSet(s.own, p, e, s.own[p][e] - 1, f);
  }

  lemma EntryKeeps(s: State, step: Step, f: nat)
    requires Inv(s) && Apply(s, step).Next? && f < |s.table|
    ensures var t := Apply(s, step).s; Shape(t) && |t.table| == |s.table| && |t.procs| == |s.procs| && EntryOk(t, f)
  {
    var p := step.p;
    assert ProcOk(s, p);
    if KeepsRefs(s, step) {
      PlainShape(s, step);
      if step.Ialloc? {
        AllocEntry(s, step, f);
      } else if WritesDisk(step) {
        WriteEntry(s, step, f);
      } else {
        PlainEntry(s, step, f);
      }
    } else if step.Idup? {
      DupEntry(s, step, f);
    } else if step.Hand? {
      HandEntry(s, step, f);
    } else if step.Iget? || step.IallocGet? {
      TakeEntry(s, p, if step.Iget? then step.k else s.procs[p].k, f);
    } else {
      DropEntry(s, p, if step.Drop? then s.procs[p].e else step.e, f);
    }
  }

  lemma PlainAgrees(s: State, step: Step, f: nat)
    requires Inv(s) && KeepsRefs(s, step) && !WritesDisk(step) && Apply(s, step).Next? && f < |s.table| && Agrees(s, f)
    ensures f < |Apply(s, step).s.table| && (Agrees(Apply(s, step).s, f) <==> !UnlocksChanged(s, step, f))
  {
    PlainShape(s, step);
    assert EntryOk(s, f) && ProcOk(s, step.p);
    if step.Iunlock? && step.e == f {
      OwnerHasRef(s, step.p, f);
    }
  }

  lemma WriteAgrees(s: State, step: Step, f: nat)
    requires Inv(s) && WritesDisk(step) && !step.Ialloc? && Apply(s, step).Next? && f < |s.table| && Agrees(s, f)
    ensures f < |Apply(s, step).s.table| && Agrees(Apply(s, step).s, f)
  {
    PlainShape(s, step);
    assert ProcOk(s, step.p);
    var e := Written(s, step);
    assert EntryOk(s, f) && EntryOk(s, e);
    OwnerHasRef(s, step.p, e);
  }

  lemma TakeAgrees(s: State, p: nat, k: Key, f: nat)
    requires Inv(s) && p < |s.procs| && k in s.disk && (s.procs[p] == Idle || s.procs[p] == Allocated(k))
    requires TakeRef(s, p, k).Next? && f < |s.table| && Agrees(s, f)
    ensures f < |TakeRef(s, p, k).s.table| && Agrees(TakeRef(s, p, k).s, f)
  {
    var e := Slot(s.table, k);
    assert EntryOk(s, f) && EntryOk(s, e);
  }

  lemma RefAgrees(s: State, step: Step, f: nat)
    requires Inv(s) && (step.Ialloc? || step.Idup? || step.Hand? || step.Iput? || step.Drop?) && Apply(s, step).Next? && f < |s.table| && Agrees(s, f)
    ensures f < |Apply(s, step).s.table| && Agrees(Apply(s, step).s, f)
  {
    assert EntryOk(s, f) && ProcOk(s, step.p);
    if step.Idup? {
      OwnerHasRef(s, step.p, step.e);
    }
  }

  /** An entry that agrees with the disk ceases to exactly when it is unlocked so. */
  lemma AgreesUnless(s: State, step: Step, f: nat)
    requires Inv(s) && Apply(s, step).Next? && f < |s.table| && Agrees(s, f)
    ensures f < |Apply(s, step).s.table| && (Agrees(Apply(s, step).s, f) <==> !UnlocksChanged(s, step, f))
  {
    assert ProcOk(s, step.p);
    if step.Ialloc? || step.Idup? || step.Hand? || step.Iput? || step.Drop? {
      RefAgrees(s, step, f);
    } else if step.Iget? || step.IallocGet? {
      TakeAgrees(s, step.p, if step.Iget? then step.k else s.procs[step.p].k, f);
    } else if WritesDisk(step) {
      WriteAgrees(s, step, f);
    } else {
      PlainAgrees(s, step, f);
    }
  }

  lemma ShapeKeeps(s: State, step: Step)
    requires Inv(s) && Apply(s, step).Next?
    ensures var t := Apply(s, step).s; Shape(t) && |t.table| == |s.table| && |t.procs| == |s.procs|
  {
    if KeepsRefs(s, step) {
      PlainShape(s, step);
    }
  }

  lemma OtherProc(s: State, step: Step, q: nat)
    requires Inv(s) && Apply(s, step).Next? && q < |s.procs| && q != step.p
    ensures var t := Apply(s, step).s; Shape(t) && |t.procs| == |s.procs| && ProcOk(t, q)
  {
    ShapeKeeps(s, step);
    var t := Apply(s, step).s;
    assert ProcOk(s, q) && ProcOk(s, step.p);
    assert t.procs[q] == s.procs[q];
    assert forall e :: 0 <= e < |s.table| ==> t.own[q][e] >= s.own[q][e];
    assert forall k :: k in s.disk ==> k in t.disk;
    if !s.procs[q].Idle? && !s.procs[q].Allocated? {
      assert s.table[s.procs[q].e].lock == q ==> t.table[s.procs[q].e].lock == q;
    }
  }

  lemma SelfProc(s: State, step: Step)
    requires Inv(s) && Apply(s, step).Next?
    ensures var t := Apply(s, step).s; Shape(t) && |t.procs| == |s.procs| && ProcOk(t, step.p)
  {
    ShapeKeeps(s, step);
    assert ProcOk(s, step.p);
    if step.Clear? {
      assert EntryOk(s, s.procs[step.p].e);
    }
  }

  lemma UniqueKeeps(s: State, step: Step)
    requires Inv(s) && Apply(s, step).Next?
    ensures Unique(Apply(s, step).s)
  {
    var p := step.p;
    assert ProcOk(s, p);
    if step.Iget? || step.IallocGet? {
      TakeUnique(s, p, if step.Iget? then step.k else s.procs[p].k);
    } else if step.Idup? {
      OwnerHasRef(s, p, step.e);
    }
  }

  lemma StepKeeps(s: State, step: Step)
    requires Inv(s) && Apply(s, step).Next?
    ensures Inv(Apply(s, step).s)
  {
    var t := Apply(s, step).s;
    UniqueKeeps(s, step);
    ShapeKeeps(s, step);
    forall e | 0 <= e < |s.table| ensures EntryOk(t, e) {
      EntryKeeps(s, step, e);
    }
    forall q | 0 <= q < |s.procs| ensures ProcOk(t, q) {
      if q == step.p {
        SelfProc(s, step);
      } else {
        OtherProc(s, step, q);
      }
    }
  }

  // Whole runs.

  ghost predicate Fresh(s: State) {
    && Shape(s)
    && (forall e :: 0 <= e < |s.table| ==> s.table[e].ref == 0 && s.table[e].lock == NONE)
    && (forall p :: 0 <= p < |s.procs| ==> s.procs[p] == Idle)
    && (forall p, e :: 0 <= p < |s.procs| && 0 <= e < |s.table| ==> s.own[p][e] == 0)
  }

  lemma FreshInv(s: State)
    requires Fresh(s)
    ensures Inv(s)
  {
    forall e | 0 <= e < |s.table| ensures EntryOk(s, e) {
      RefsZero(s.own, e);
    }
  }

  ghost function Exec(s: State, steps: seq<Step>): (r: Outcome)
    decreases |steps|
  {
    if steps == [] then Next(s)
    else if !Shape(s) then Blocked
    else
      var r := Apply(s, steps[0]);
      if r.Next? then Exec(r.s, steps[1..]) else r
  }

  lemma {:induction false} RunKeeps(s: State, steps: seq<Step>)
    requires Inv(s) && Exec(s, steps).Next?
    ensures Inv(Exec(s, steps).s)
    decreases |steps|
  {
    if steps != [] {
      StepKeeps(s, steps[0]);
      RunKeeps(Apply(s, steps[0]).s, steps[1..]);
    }
  }

  ghost predicate Reachable(s: State) {
    exists s0, steps :: Fresh(s0) && Exec(s0, steps) == Next(s)
  }

  lemma ReachableInv(s: State)
    requires Reachable(s)
    ensures Inv(s)
  {
    var s0, steps :| Fresh(s0) && Exec(s0, steps) == Next(s);
    FreshInv(s0);
    RunKeeps(s0, steps);
  }

  /** The runs in which whoever changes an inode calls iupdate before iunlock. */
  ghost predicate Tidy(s: State, steps: seq<Step>)
    decreases |steps|
  {
    steps == [] ||
    ((forall e: nat :: !UnlocksChanged(s, steps[0], e)) && (Shape(s) && Apply(s, steps[0]).Next? ==> Tidy(Apply(s, steps[0]).s, steps[1..])))
  }

  lemma AgreementKeeps(s: State, step: Step)
    requires Inv(s) && Agreement(s) && Apply(s, step).Next? && forall e: nat :: !UnlocksChanged(s, step, e)
    ensures Agreement(Apply(s, step).s)
  {
    ShapeKeeps(s, step);
    forall e | 0 <= e < |s.table| ensures Agrees(Apply(s, step).s, e) {
      AgreesUnless(s, step, e);
    }
  }

  lemma {:induction false} TidyRun(s: State, steps: seq<Step>)
    requires Inv(s) && Agreement(s) && Tidy(s, steps) && Exec(s, steps).Next?
    ensures Agreement(Exec(s, steps).s)
    decreases |steps|
  {
    if steps != [] {
      StepKeeps(s, steps[0]);
      AgreementKeeps(s, steps[0]);
      TidyRun(Apply(s, steps[0]).s, steps[1..]);
    }
  }

  /** In such runs an entry that is valid and unlocked is the dinode on the disk, even when ialloc has reused the number
      while iput was still freeing it. */
  lemma CopyIsDinode(s: State, steps: seq<Step>, e: nat)
    requires Fresh(s) && Tidy(s, steps) && Exec(s, steps).Next? && e < |Exec(s, steps).s.table|
    ensures var x := Exec(s, steps).s.table[e]; x.ref > 0 && x.valid && x.lock == NONE ==>
      x.key in Exec(s, steps).s.disk && Exec(s, steps).s.disk[x.key] == x.node
  {
    FreshInv(s);
    TidyRun(s, steps);
    assert Agrees(Exec(s, steps).s, e);
  }

  /** In every state of every run: an inode is in the table at most once; `ref` counts the
      references that exist; whoever holds the lock has a reference; and an entry that is
      valid and unlocked is of an inode that is not free. */
  lemma TableProtocol(s: State, e: nat)
    requires Reachable(s) && e < |s.table|
    ensures forall f :: 0 <= f < |s.table| && f != e && s.table[e].ref > 0 && s.table[f].ref > 0 ==>
      s.table[e].key != s.table[f].key
    ensures s.table[e].ref == Refs(s.own, e)
    ensures s.table[e].lock != NONE ==> 0 <= s.table[e].lock < |s.own| && e < |s.own[s.table[e].lock]| && s.own[s.table[e].lock][e] > 0
    ensures s.table[e].ref > 0 && s.table[e].valid && s.table[e].lock == NONE ==>
      s.table[e].key in s.disk && s.disk[s.table[e].key].kind != 0 && s.table[e].node.kind != 0
  {
    ReachableInv(s);
    assert EntryOk(s, e);
  }

  /** The acquiresleep inside iput finds the lock free. */
  lemma IputNeverSleeps(s: State, p: nat, e: nat)
    requires Reachable(s)
    ensures Shape(s) && Apply(s, Iput(p, e)) != Sleeps
  {
    ReachableInv(s);
    if p < |s.procs| && Own(s, p, e) > 0 && Frees(s.table[e]) {
      assert EntryOk(s, e);
      var h := s.table[e].lock;
      if h != NONE && h != p {
        RefsOfTwo(s.own, p, h, e);
      }
    }
  }

  // The panic "ilock: no type".

  /** The one process with a reference to the entry is iput, past the write of type 0. */
  ghost predicate SoleFreer(s: State, e: nat)
    requires e < |s.table|
  {
    s.table[e].ref == 1 && exists p :: 0 <= p < |s.procs| && (s.procs[p] == Clearing(e) || s.procs[p] == Dropping(e))
  }

  ghost predicate InUse(s: State, e: nat)
    requires e < |s.table|
  {
    s.table[e].ref > 0 && s.table[e].key in s.disk && s.disk[s.table[e].key].kind == 0 ==> SoleFreer(s, e)
  }

  ghost predicate Freeing(s: State, p: nat)
    requires p < |s.procs|
  {
    s.procs[p].Truncating? || s.procs[p].Zeroing? ==>
      && s.procs[p].e < |s.table| && s.table[s.procs[p].e].ref == 1
      && s.table[s.procs[p].e].key in s.disk && s.disk[s.table[s.procs[p].e].key].nlink == 0
  }

  ghost predicate Allocating(s: State, p: nat)
    requires p < |s.procs|
  {
    s.procs[p].Allocated? && s.procs[p].k in s.disk ==>
      && s.disk[s.procs[p].k].kind != 0 && s.disk[s.procs[p].k].nlink == 0
      && forall e :: 0 <= e < |s.table| && Cached(s.table[e], s.procs[p].k) ==> SoleFreer(s, e)
  }

  ghost predicate KindInv(s: State) {
    && (forall e :: 0 <= e < |s.table| ==> InUse(s, e))
    && (forall p :: 0 <= p < |s.procs| ==> Freeing(s, p) && Allocating(s, p))
    && (forall p, q :: 0 <= p < |s.procs| && 0 <= q < |s.procs| && p != q && s.procs[p].Allocated? ==> s.procs[q] != s.procs[p])
  }

  /** Process `p` has a reference to the entry of `k`. */
  ghost predicate HasRef(s: State, p: nat, k: Key)
    requires Shape(s) && p < |s.procs|
  {
    exists e :: 0 <= e < |s.table| && Cached(s.table[e], k) && s.own[p][e] > 0
  }

  /** A lookup names an inode that a directory links to, or one that the process has open, as "." in
      a directory that was removed. */
  ghost predicate Linked(s: State, step: Step)
    requires Shape(s)
  {
    step.Iget? ==>
      && step.k in s.disk && s.disk[step.k].kind != 0
      && (s.disk[step.k].nlink > 0 || (step.p < |s.procs| && HasRef(s, step.p, step.k)))
  }

  /** An inode that is being freed, or was freed and allocated again, is not open elsewhere. */
  lemma NoRef(s: State, p: nat, k: Key, e: nat)
    requires Inv(s) && p < |s.procs| && s.procs[p] == Idle && HasRef(s, p, k) && e < |s.table| && Cached(s.table[e], k)
    ensures !SoleFreer(s, e) && s.own[p][e] > 0
  {
    var f :| 0 <= f < |s.table| && Cached(s.table[f], k) && s.own[p][f] > 0;
    assert f == e;
    if SoleFreer(s, e) {
      SoleOwner(s, e, p);
    }
  }

  lemma SoleOwner(s: State, e: nat, q: nat)
    requires Inv(s) && e < |s.table| && SoleFreer(s, e) && q < |s.procs| && s.own[q][e] > 0
    ensures s.procs[q] == Clearing(e) || s.procs[q] == Dropping(e)
  {
    var p :| 0 <= p < |s.procs| && (s.procs[p] == Clearing(e) || s.procs[p] == Dropping(e));
    assert ProcOk(s, p) && EntryOk(s, e);
    RefsOfTwo(s.own, p, q, e);
  }

  lemma FillHasType(s: State, p: nat)
    requires Inv(s) && KindInv(s)
    ensures Apply(s, Fill(p)) != NoType
  {
    if p < |s.procs| && s.procs[p].Filling? {
      assert ProcOk(s, p);
      var e := s.procs[p].e;
      assert EntryOk(s, e) && InUse(s, e);
      OwnerHasRef(s, p, e);
      if SoleFreer(s, e) {
        SoleOwner(s, e, p);
      }
    }
  }

  /** The key a step takes a new reference to, if it does. */
  predicate Takes(s: State, step: Step, k: Key) {
    (step.Iget? && step.k == k) || (step.IallocGet? && step.p < |s.procs| && s.procs[step.p] == Allocated(k))
  }

  lemma SoleStays(s: State, step: Step, e: nat)
    requires Inv(s) && Apply(s, step).Next? && e < |s.table| && SoleFreer(s, e) && !Takes(s, step, s.table[e].key)
    ensures var t := Apply(s, step).s; e < |t.table| && (t.table[e].ref == 0 || (SoleFreer(t, e) && t.table[e].key == s.table[e].key))
  {
    ShapeKeeps(s, step);
    var t := Apply(s, step).s;
    var p :| 0 <= p < |s.procs| && (s.procs[p] == Clearing(e) || s.procs[p] == Dropping(e));
    assert ProcOk(s, step.p);
    if s.own[step.p][e] > 0 {
      SoleOwner(s, e, step.p);
    }
    assert p != step.p ==> t.procs[p] == s.procs[p];
    assert step.Clear? ==> t.procs[step.p] == Dropping(s.procs[step.p].e);
  }

  lemma InUseWrite(s: State, step: Step, e: nat)
    requires Inv(s) && KindInv(s) && WritesDisk(step) && Apply(s, step).Next? && e < |s.table|
    requires !(s.table[e].ref > 0 && SoleFreer(s, e))
    ensures e < |Apply(s, step).s.table| && InUse(Apply(s, step).s, e)
  {
    ShapeKeeps(s, step);
    assert EntryOk(s, e) && ProcOk(s, step.p) && InUse(s, e) && Freeing(s, step.p);
    if !step.Ialloc? {
      var w := Written(s, step);
      assert EntryOk(s, w);
      OwnerHasRef(s, step.p, w);
      assert step.Zero? ==> Apply(s, step).s.procs[step.p] == Clearing(w);
    }
  }

  lemma InUseTake(s: State, step: Step, e: nat)
    requires Inv(s) && KindInv(s) && Linked(s, step) && (step.Iget? || step.IallocGet?) && Apply(s, step).Next? && e < |s.table|
    requires !(s.table[e].ref > 0 && SoleFreer(s, e) && !Takes(s, step, s.table[e].key))
    ensures e < |Apply(s, step).s.table| && InUse(Apply(s, step).s, e)
  {
    ShapeKeeps(s, step);
    assert EntryOk(s, e) && ProcOk(s, step.p) && InUse(s, e) && Allocating(s, step.p);
  }

  lemma InUseKeeps(s: State, step: Step, e: nat)
    requires Inv(s) && KindInv(s) && Linked(s, step) && Apply(s, step).Next? && e < |s.table|
    ensures e < |Apply(s, step).s.table| && InUse(Apply(s, step).s, e)
  {
    ShapeKeeps(s, step);
    assert EntryOk(s, e) && ProcOk(s, step.p) && InUse(s, e);
    if s.table[e].ref > 0 && SoleFreer(s, e) && !Takes(s, step, s.table[e].key) {
      SoleStays(s, step, e);
    } else if WritesDisk(step) {
      InUseWrite(s, step, e);
    } else if step.Iget? || step.IallocGet? {
      InUseTake(s, step, e);
    } else if step.Idup? {
      OwnerHasRef(s, step.p, step.e);
    }
  }

  /** While iput is freeing an entry nobody else has a reference to it, and none can be taken. */
  lemma FreeingAlone(s: State, step: Step, q: nat)
    requires Inv(s) && KindInv(s) && Linked(s, step) && Apply(s, step).Next? && q < |s.procs| && q != step.p
    requires s.procs[q].Truncating? || s.procs[q].Zeroing?
    ensures var e := s.procs[q].e; e < |s.table| && s.own[step.p][e] == 0 && !Takes(s, step, s.table[e].key)
  {
    var e := s.procs[q].e;
    assert ProcOk(s, q) && EntryOk(s, e) && Freeing(s, q) && Allocating(s, step.p);
    RefsOfTwo(s.own, q, step.p, e);
    if SoleFreer(s, e) {
      SoleOwner(s, e, q);
    }
  }

  /** A dinode is changed only by ialloc, while it is free, or by the holder of its entry. */
  lemma DiskStays(s: State, step: Step, k: Key)
    requires Inv(s) && Apply(s, step).Next? && k in s.disk
    requires step.Ialloc? ==> s.disk[k].kind != 0
    requires forall e :: 0 <= e < |s.table| && Cached(s.table[e], k) ==>
      s.table[e].lock != step.p || s.procs[step.p] == Clearing(e) || s.procs[step.p] == Dropping(e)
    ensures k in Apply(s, step).s.disk && Apply(s, step).s.disk[k] == s.disk[k]
  {
    assert ProcOk(s, step.p);
    if WritesDisk(step) && !step.Ialloc? {
      var w := Written(s, step);
      assert EntryOk(s, w);
      OwnerHasRef(s, step.p, w);
    }
  }

  /** An entry is changed only by a process with a reference to it, or that is taking one. */
  lemma EntryStays(s: State, step: Step, e: nat)
    requires Inv(s) && Apply(s, step).Next? && e < |s.table|
    requires s.own[step.p][e] == 0 && s.table[e].ref > 0 && !Takes(s, step, s.table[e].key)
    ensures e < |Apply(s, step).s.table| && Apply(s, step).s.table[e] == s.table[e]
  {
    assert ProcOk(s, step.p) && EntryOk(s, e);
  }

  /** So the dinode of an entry of which the process has no reference stays as it is. */
  lemma NodeStays(s: State, step: Step, e: nat)
    requires Inv(s) && Apply(s, step).Next? && e < |s.table| && s.own[step.p][e] == 0 && s.table[e].ref > 0
    requires s.table[e].key in s.disk && (step.Ialloc? ==> s.disk[s.table[e].key].kind != 0)
    ensures var k := s.table[e].key; k in Apply(s, step).s.disk && Apply(s, step).s.disk[k] == s.disk[k]
  {
    assert EntryOk(s, e);
    DiskStays(s, step, s.table[e].key);
  }

  lemma FreeingOther(s: State, step: Step, q: nat)
    requires Inv(s) && KindInv(s) && Linked(s, step) && Apply(s, step).Next? && q < |s.procs| && q != step.p
    requires s.procs[q].Truncating? || s.procs[q].Zeroing?
    ensures q < |Apply(s, step).s.procs| && Freeing(Apply(s, step).s, q)
  {
    FreeingAlone(s, step, q);
    var e := s.procs[q].e;
    assert ProcOk(s, q) && EntryOk(s, e) && Freeing(s, q);
    EntryStays(s, step, e);
    NodeStays(s, step, e);
    ProcStays(s, step, q);
  }

  lemma ProcStays(s: State, step: Step, q: nat)
    requires Inv(s) && Apply(s, step).Next? && q < |s.procs| && q != step.p
    ensures q < |Apply(s, step).s.procs| && Apply(s, step).s.procs[q] == s.procs[q]
  {
  }

  lemma FreeingKeeps(s: State, step: Step, q: nat)
    requires Inv(s) && Agreement(s) && KindInv(s) && Linked(s, step) && Apply(s, step).Next? && q < |s.procs|
    ensures q < |Apply(s, step).s.procs| && Freeing(Apply(s, step).s, q)
  {
    ShapeKeeps(s, step);
    var t := Apply(s, step).s;
    assert ProcOk(s, q) && Freeing(s, q);
    if q != step.p {
      if s.procs[q].Truncating? || s.procs[q].Zeroing? {
        FreeingOther(s, step, q);
      }
    } else if t.procs[q].Truncating? || t.procs[q].Zeroing? {
      assert EntryOk(s, t.procs[q].e) && Agrees(s, t.procs[q].e);
    }
  }

  /** Only a step that takes a reference to a key puts it into the table. */
  lemma KeyStays(s: State, step: Step, e: nat, k: Key)
    requires Inv(s) && Apply(s, step).Next? && e < |s.table|
    requires e < |Apply(s, step).s.table| && Cached(Apply(s, step).s.table[e], k) && !Takes(s, step, k)
    ensures Cached(s.table[e], k)
  {
    assert ProcOk(s, step.p);
    if step.Idup? {
      OwnerHasRef(s, step.p, step.e);
    }
  }

  /** Nor can a reference be taken to an inode that ialloc is about to get one for. */
  lemma AllocatedAlone(s: State, step: Step, q: nat)
    requires Inv(s) && KindInv(s) && Linked(s, step) && Apply(s, step).Next? && q < |s.procs| && q != step.p && s.procs[q].Allocated?
    ensures !Takes(s, step, s.procs[q].k)
  {
    var k := s.procs[q].k;
    assert ProcOk(s, q) && Allocating(s, q);
    if step.Iget? && step.k == k && HasRef(s, step.p, k) {
      var e :| 0 <= e < |s.table| && Cached(s.table[e], k) && s.own[step.p][e] > 0;
      NoRef(s, step.p, k, e);
    }
  }

  lemma AllocatingOther(s: State, step: Step, q: nat)
    requires Inv(s) && KindInv(s) && Linked(s, step) && Apply(s, step).Next? && q < |s.procs| && q != step.p
    requires s.procs[q].Allocated?
    ensures q < |Apply(s, step).s.procs| && Allocating(Apply(s, step).s, q)
  {
    ShapeKeeps(s, step);
    var t := Apply(s, step).s;
    var k := s.procs[q].k;
    assert ProcOk(s, q) && ProcOk(s, step.p) && Allocating(s, q);
    AllocatedAlone(s, step, q);
    forall e | 0 <= e < |s.table| && Cached(s.table[e], k)
      ensures s.table[e].lock != step.p || s.procs[step.p] == Clearing(e) || s.procs[step.p] == Dropping(e)
    {
      assert EntryOk(s, e);
      if s.table[e].lock == step.p {
        SoleOwner(s, e, step.p);
      }
    }
    DiskStays(s, step, k);
    forall e | 0 <= e < |s.table| && Cached(t.table[e], k) ensures SoleFreer(t, e) {
      KeyStays(s, step, e, k);
      SoleStays(s, step, e);
    }
  }

  lemma AllocatingSelf(s: State, step: Step)
    requires Inv(s) && KindInv(s) && step.Ialloc? && Apply(s, step).Next?
    ensures Allocating(Apply(s, step).s, step.p)
  {
    var t := Apply(s, step).s;
    forall e | 0 <= e < |s.table| && Cached(t.table[e], step.k) ensures SoleFreer(t, e) {
      assert InUse(s, e) && EntryOk(s, e);
      SoleStays(s, step, e);
    }
  }

  lemma AllocatedDistinct(s: State, step: Step, p: nat, q: nat)
    requires Inv(s) && KindInv(s) && Apply(s, step).Next? && p < |s.procs| && q < |s.procs| && p != q
    ensures var t := Apply(s, step).s; |t.procs| == |s.procs| && (t.procs[p].Allocated? ==> t.procs[q] != t.procs[p])
  {
    assert Allocating(s, p) && Allocating(s, q) && ProcOk(s, p) && ProcOk(s, q);
  }

  lemma KindKeeps(s: State, step: Step)
    requires Inv(s) && Agreement(s) && KindInv(s) && Linked(s, step) && Apply(s, step).Next?
    ensures KindInv(Apply(s, step).s)
  {
    ShapeKeeps(s, step);
    var t := Apply(s, step).s;
    forall e | 0 <= e < |t.table| ensures InUse(t, e) {
      InUseKeeps(s, step, e);
    }
    forall q | 0 <= q < |t.procs| ensures Freeing(t, q) && Allocating(t, q) {
      FreeingKeeps(s, step, q);
      if q != step.p && s.procs[q].Allocated? {
        AllocatingOther(s, step, q);
      } else if q == step.p && step.Ialloc? {
        AllocatingSelf(s, step);
      }
    }
    forall p, q | 0 <= p < |t.procs| && 0 <= q < |t.procs| && p != q && t.procs[p].Allocated? ensures t.procs[q] != t.procs[p] {
      AllocatedDistinct(s, step, p, q);
    }
  }

  /** The runs in which every lookup names an inode that is linked when it is looked up. */
  ghost predicate LinkedRun(s: State, steps: seq<Step>)
    decreases |steps|
  {
    steps == [] || (Shape(s) && Linked(s, steps[0]) && (Apply(s, steps[0]).Next? ==> LinkedRun(Apply(s, steps[0]).s, steps[1..])))
  }

  lemma {:induction false} KindRun(s: State, steps: seq<Step>)
    requires Inv(s) && Agreement(s) && KindInv(s) && LinkedRun(s, steps) && Tidy(s, steps)
    ensures Exec(s, steps) != NoType
    decreases |steps|
  {
    if steps != [] {
      if steps[0].Fill? {
        FillHasType(s, steps[0].p);
      }
      if Apply(s, steps[0]).Next? {
        StepKeeps(s, steps[0]);
        AgreementKeeps(s, steps[0]);
        KindKeeps(s, steps[0]);
        KindRun(Apply(s, steps[0]).s, steps[1..]);
      }
    }
  }

  /** ilock never finds a free inode, in any run whose lookups follow links: a reference
      taken that way, or by ialloc, keeps the inode allocated until it is dropped. */
  lemma IlockFindsType(s: State, steps: seq<Step>)
    requires Fresh(s) && LinkedRun(s, steps) && Tidy(s, steps)
    ensures Exec(s, steps) != NoType
  {
    FreshInv(s);
    KindRun(s, steps);
  }

  lemma ExecThree(s: State, a: Step, b: Step, c: Step, s1: State, s2: State)
    requires Shape(s) && Apply(s, a) == Next(s1) && Shape(s1) && Apply(s1, b) == Next(s2) && Shape(s2)
    ensures Exec(s, [a, b, c]) == Apply(s2, c)
  {
    assert [a, b, c][1..] == [b, c] && [b, c][1..] == [c] && [c][1..] == [];
    assert Exec(s2, [c]) == Apply(s2, c);
    assert Exec(s1, [b, c]) == Exec(s2, [c]);
  }

  /** A lookup that gets an entry which is not locked, and the ilock of it. */
  lemma LookupLocks(s: State, p: nat, k: Key, e: nat) returns (s1: State, s2: State)
    requires Inv(s) && p < |s.procs| && s.procs[p] == Idle && k in s.disk
    requires e == Slot(s.table, k) < |s.table| && s.table[e].lock == NONE
    ensures Apply(s, Iget(p, k)) == Next(s1) && Shape(s1) && Apply(s1, Ilock(p, e)) == Next(s2) && Shape(s2)
    ensures p < |s2.procs| && s2.procs[p] == Filling(e) && s2.disk == s.disk && e < |s2.table| && s2.table[e].key == k
    ensures s2.table[e].valid ==> s.disk[k].kind != 0
  {
    assert EntryOk(s, e);
    s1 := Apply(s, Iget(p, k)).s;
    s2 := Apply(s1, Ilock(p, e)).s;
  }

  /** In any state, whatever the others are doing: a process that looks up an inode, gets an entry
      for it and locks it runs into the panic exactly if the dinode is a free one. */
  lemma LookupPanics(s: State, p: nat, k: Key, e: nat)
    requires Reachable(s) && p < |s.procs| && s.procs[p] == Idle && k in s.disk
    requires e == Slot(s.table, k) < |s.table| && s.table[e].lock == NONE
    ensures Exec(s, [Iget(p, k), Ilock(p, e), Fill(p)]) == NoType <==> s.disk[k].kind == 0
  {
    ReachableInv(s);
    var s1, s2 := LookupLocks(s, p, k, e);
    ExecThree(s, Iget(p, k), Ilock(p, e), Fill(p), s1, s2);
  }

  // What iput and iupdate come to, as whole runs.

  lemma ExecOne(s: State, step: Step, t: State, rest: seq<Step>)
    requires Shape(s) && Apply(s, step) == Next(t)
    ensures Exec(s, [step] + rest) == Exec(t, rest)
  {
    assert ([step] + rest)[1..] == rest;
  }

  /** The state once the inode of entry `e` is free and process `p` has dropped its reference. */
  ghost function InodeFreed(s: State, p: nat, e: nat): (t: State)
    requires Shape(s) && p < |s.procs| && e < |s.table| && s.own[p][e] > 0
  {
    var none := Dinode(0, 0, []);
    s.(table := s.table[e := s.table[e].(ref := 0, valid := false, lock := NONE, node := none)],
       disk := s.disk[s.table[e].key := none], own := SetOwn(s.own, p, e, s.own[p][e] - 1))
  }

  lemma FreeTail(s: State, p: nat, e: nat, s0: State)
    requires Shape(s0) && p < |s0.procs| && s0.procs[p] == Idle && e < |s0.table| && s0.own[p][e] > 0
    requires Frees(s0.table[e]) && s0.table[e].lock == NONE
    requires s == Move(s0, p, e, s0.table[e].(lock := p), Truncating(e))
    ensures Exec(s, [Trunc(p)] + ([Zero(p)] + ([Clear(p)] + ([Drop(p)] + [])))) == Next(InodeFreed(s0, p, e))
  {
    var t1 := Apply(s, Trunc(p)).s;
    var t2 := Apply(t1, Zero(p)).s;
    var t3 := Apply(t2, Clear(p)).s;
    var t4 := Apply(t3, Drop(p)).s;
    ExecOne(s, Trunc(p), t1, [Zero(p)] + ([Clear(p)] + ([Drop(p)] + [])));
    ExecOne(t1, Zero(p), t2, [Clear(p)] + ([Drop(p)] + []));
    ExecOne(t2, Clear(p), t3, [Drop(p)] + []);
    ExecOne(t3, Drop(p), t4, []);
    var t := InodeFreed(s0, p, e);
    assert t4.table == t.table && t4.procs == t.procs && t4.disk == t.disk;
  }

  /** iput of the last reference to an inode without links frees it: its dinode has no type and no contents,
      the entry is empty, and no other dinode or entry changes. */
  lemma IputFrees(s: State, p: nat, e: nat) returns (steps: seq<Step>)
    requires Reachable(s) && p < |s.procs| && s.procs[p] == Idle && e < |s.table| && Shape(s) && s.own[p][e] > 0
    requires Frees(s.table[e]) && s.table[e].lock != p
    ensures Exec(s, steps) == Next(InodeFreed(s, p, e))
  {
    IputNeverSleeps(s, p, e);
    var rest := [Trunc(p)] + ([Zero(p)] + ([Clear(p)] + ([Drop(p)] + [])));
    var t := Move(s, p, e, s.table[e].(lock := p), Truncating(e));
    ExecOne(s, Iput(p, e), t, rest);
    FreeTail(t, p, e, s);
    steps := [Iput(p, e)] + rest;
  }

  /** Any other iput drops the reference and leaves every dinode and the inode as it is. */
  lemma IputDrops(s: State, p: nat, e: nat)
    requires Reachable(s) && p < |s.procs| && s.procs[p] == Idle && e < |s.table| && Shape(s) && s.own[p][e] > 0
    requires !Frees(s.table[e]) && s.table[e].lock != p
    ensures Apply(s, Iput(p, e)).Next? && s.table[e].ref > 0
    ensures var t := Apply(s, Iput(p, e)).s;
      t == s.(table := s.table[e := s.table[e].(ref := s.table[e].ref - 1)], own := SetOwn(s.own, p, e, s.own[p][e] - 1))
  {
    ReachableInv(s);
    OwnerHasRef(s, p, e);
    var t := Apply(s, Iput(p, e)).s;
    assert t.procs == s.procs;
  }

  /** idup, and the copy of the reference goes to another process, as in fork: both have one now, so neither of them alone
      can free the inode. */
  lemma DupGives(s: State, p: nat, q: nat, e: nat) returns (t: State)
    requires Reachable(s) && p < |s.procs| && q < |s.procs| && p != q && s.procs[p] == Idle && e < |s.table| && Shape(s)
    requires s.own[p][e] > 0 && s.table[e].lock != p
    ensures Exec(s, [Idup(p, e)] + ([Hand(p, q, e)] + [])) == Next(t) && Shape(t) && t.disk == s.disk && t.procs == s.procs
    ensures t.table == s.table[e := s.table[e].(ref := s.table[e].ref + 1)] && !Frees(t.table[e])
    ensures t.own == SetOwn(s.own, q, e, s.own[q][e] + 1)
  {
    ReachableInv(s);
    OwnerHasRef(s, p, e);
    var m := Apply(s, Idup(p, e)).s;
    t := Apply(m, Hand(p, q, e)).s;
    ExecOne(s, Idup(p, e), m, [Hand(p, q, e)] + []);
    ExecOne(m, Hand(p, q, e), t, []);
    OwnAgain(s.own, p, e);
    assert t.own == SetOwn(s.own, q, e, s.own[q][e] + 1);
  }

  /** A lookup that gets an entry which is not locked, and ilock: the process holds the lock, and the copy is the dinode. */
  lemma LookupFills(s: State, p: nat, k: Key, e: nat) returns (steps: seq<Step>, t: State)
    requires Inv(s) && Agreement(s) && p < |s.procs| && s.procs[p] == Idle && k in s.disk && s.disk[k].kind != 0
    requires e == Slot(s.table, k) < |s.table| && s.table[e].lock == NONE
    ensures steps == [Iget(p, k)] + ([Ilock(p, e)] + ([Fill(p)] + [])) && Exec(s, steps) == Next(t) && Shape(t)
    ensures t == s.(table := s.table[e := Entry(k, (if Cached(s.table[e], k) then s.table[e].ref else 0) + 1, true, s.disk[k], p)],
                    own := SetOwn(s.own, p, e, s.own[p][e] + 1))
  {
    var s1, s2 := LookupLocks(s, p, k, e);
    assert EntryOk(s, e) && Agrees(s, e);
    t := Apply(s2, Fill(p)).s;
    ExecOne(s, Iget(p, k), s1, [Ilock(p, e)] + ([Fill(p)] + []));
    ExecOne(s1, Ilock(p, e), s2, [Fill(p)] + []);
    ExecOne(s2, Fill(p), t, []);
    steps := [Iget(p, k)] + ([Ilock(p, e)] + ([Fill(p)] + []));
    assert t.procs == s.procs;
  }

  lemma OwnAgain(own: seq<seq<nat>>, p: nat, e: nat)
    requires p < |own| && e < |own[p]|
    ensures SetOwn(SetOwn(own, p, e, own[p][e] + 1), p, e, own[p][e]) == own
  {
    assert SetOwn(own, p, e, own[p][e] + 1)[p][e := own[p][e]] == own[p];
  }

  /** From there, a change, iupdate, iunlock and iput. */
  lemma UpdateTail(s: State, p: nat, k: Key, e: nat, node: Dinode, s0: State, n: nat) returns (steps: seq<Step>, t: State)
    requires Shape(s0) && p < |s0.procs| && s0.procs[p] == Idle && e < |s0.table| && k in s0.disk && node.kind == s0.disk[k].kind && node.nlink > 0
    requires s == s0.(table := s0.table[e := Entry(k, n + 1, true, s0.disk[k], p)], own := SetOwn(s0.own, p, e, s0.own[p][e] + 1))
    ensures Exec(s, steps) == Next(t)
    ensures t == s0.(table := s0.table[e := Entry(k, n, true, node, NONE)], disk := s0.disk[k := node])
  {
    var t1 := Apply(s, Change(p, e, node)).s;
    var t2 := Apply(t1, Iupdate(p, e)).s;
    var t3 := Apply(t2, Iunlock(p, e)).s;
    t := Apply(t3, Iput(p, e)).s;
    ExecOne(s, Change(p, e, node), t1, [Iupdate(p, e)] + ([Iunlock(p, e)] + ([Iput(p, e)] + [])));
    ExecOne(t1, Iupdate(p, e), t2, [Iunlock(p, e)] + ([Iput(p, e)] + []));
    ExecOne(t2, Iunlock(p, e), t3, [Iput(p, e)] + []);
    ExecOne(t3, Iput(p, e), t, []);
    steps := [Change(p, e, node)] + ([Iupdate(p, e)] + ([Iunlock(p, e)] + ([Iput(p, e)] + [])));
    OwnAgain(s0.own, p, e);
    assert t.procs == s0.procs && t.own == s0.own;
  }

  lemma {:induction false} ExecThen(s: State, xs: seq<Step>, t: State, ys: seq<Step>)
    requires Exec(s, xs) == Next(t)
    ensures Exec(s, xs + ys) == Exec(t, ys)
    decreases |xs|
  {
    if xs == [] {
      assert xs + ys == ys;
    } else {
      assert xs + ys == [xs[0]] + (xs[1..] + ys);
      ExecOne(s, xs[0], Apply(s, xs[0]).s, xs[1..] + ys);
      ExecThen(Apply(s, xs[0]).s, xs[1..], t, ys);
    }
  }

  /** Lookup, ilock, a change, iupdate, iunlock and iput: the dinode is the changed one, on the disk and in the
      entry, and everything else is as it was. */
  lemma UpdateReturns(s: State, p: nat, k: Key, e: nat, node: Dinode) returns (steps: seq<Step>, t: State)
    requires Inv(s) && Agreement(s) && p < |s.procs| && s.procs[p] == Idle && k in s.disk && s.disk[k].kind != 0
    requires e == Slot(s.table, k) < |s.table| && s.table[e].lock == NONE && node.kind == s.disk[k].kind && node.nlink > 0
    ensures Exec(s, steps) == Next(t) && t.disk == s.disk[k := node] && t.own == s.own && t.procs == s.procs
    ensures t.table == s.table[e := Entry(k, if Cached(s.table[e], k) then s.table[e].ref else 0, true, node, NONE)]
  {
    var xs, m := LookupFills(s, p, k, e);
    var ys, f := UpdateTail(m, p, k, e, node, s, if Cached(s.table[e], k) then s.table[e].ref else 0);
    ExecThen(s, xs, m, ys);
    steps, t := xs + ys, f;
  }

  /** ialloc: a free dinode becomes one of the type asked for, with no links and no contents, and the process has
      a reference to it. */
  lemma IallocReturns(s: State, p: nat, k: Key, kind: nat, e: nat) returns (steps: seq<Step>, t: State)
    requires Reachable(s) && p < |s.procs| && s.procs[p] == Idle && k in s.disk && s.disk[k].kind == 0 && kind != 0
    requires Shape(s) && e == Slot(s.table, k) < |s.table|
    ensures Exec(s, steps) == Next(t) && t.disk == s.disk[k := Dinode(kind, 0, [])] && t.procs == s.procs
    ensures |t.table| == |s.table| && Cached(t.table[e], k) && t.own == SetOwn(s.own, p, e, s.own[p][e] + 1)
  {
    var m := Apply(s, Ialloc(p, k, kind)).s;
    t := Apply(m, IallocGet(p)).s;
    ExecOne(s, Ialloc(p, k, kind), m, [IallocGet(p)] + []);
    ExecOne(m, IallocGet(p), t, []);
    steps := [Ialloc(p, k, kind)] + ([IallocGet(p)] + []);
    assert t.procs == s.procs;
  }

  // The two loops.

  lemma FirstUnique(table: seq<Entry>, k: Key, i: nat, e: nat)
    requires i <= e <= |table| && (e < |table| ==> Cached(table[e], k))
    requires forall j :: i <= j < e ==> !Cached(table[j], k)
    ensures FirstCached(table, k, i) == e
  {
  }

  class InodeTable {
    const entries: array<Entry>
    const dinodes: array<Dinode>

    constructor (size: nat, disk: seq<Dinode>)
      ensures entries.Length == size && fresh(entries) && fresh(dinodes) && dinodes[..] == disk
      ensures forall e :: 0 <= e < size ==> entries[e].ref == 0 && entries[e].lock == NONE
    {
      entries := new Entry[size](_ => Entry(Key(0, 0), 0, false, Dinode(0, 0, []), NONE));
      dinodes := new Dinode[|disk|](i requires 0 <= i < |disk| => disk[i]);
    }

    /** One pass that looks for `k` and remembers the first empty entry on the way. The
        result is the entry of the TakeRef step, or the table's size for the panic. */
    method Iget(k: Key) returns (e: nat)
      modifies entries
      ensures e == Slot(old(entries[..]), k)
      ensures entries[..] == if e == entries.Length then old(entries[..]) else old(entries[..])[e := Got(old(entries[e]), k)]
    {
      ghost var table := entries[..];
      var empty := entries.Length;
      e := 0;
      while e < entries.Length && !(entries[e].ref > 0 && entries[e].key == k)
        invariant 0 <= e <= entries.Length
        invariant entries[..] == table
        invariant forall j :: 0 <= j < e ==> !Cached(table[j], k)
        invariant empty < e || empty == entries.Length
        invariant if empty < e then FirstEmpty(table, 0) == empty else forall j :: 0 <= j < e ==> table[j].ref > 0
      {
        if empty == entries.Length && entries[e].ref == 0 {
          empty := e;
          assert FirstEmpty(table, 0) == e;
        }
        e := e + 1;
      }
      FirstUnique(table, k, 0, e);
      if e < entries.Length {
        entries[e] := entries[e].(ref := entries[e].ref + 1);
        return;
      }
      assert FirstEmpty(table, 0) == empty;
      e := empty;
      if e < entries.Length {
        entries[e] := Entry(k, 1, false, entries[e].node, entries[e].lock);
      }
    }

    /** The scan of ialloc: the first free dinode after number 0 becomes an empty one of
        the given kind; 0 when there is none. */
    method Ialloc(kind: nat) returns (inum: nat)
      modifies dinodes
      ensures inum == 0 || inum < dinodes.Length
      ensures forall i :: 1 <= i < (if inum == 0 then dinodes.Length else inum) ==> old(dinodes[i].kind) != 0
      ensures inum != 0 ==> old(dinodes[inum].kind) == 0
      ensures dinodes[..] == if inum == 0 then old(dinodes[..]) else old(dinodes[..])[inum := Dinode(kind, 0, [])]
    {
      inum := 1;
      while inum < dinodes.Length
        invariant 1 <= inum
        invariant forall i :: 1 <= i < inum && i < dinodes.Length ==> dinodes[i].kind != 0
        invariant dinodes[..] == old(dinodes[..])
      {
        if dinodes[inum].kind == 0 {
          dinodes[inum] := Dinode(kind, 0, []);
          return;
        }
        inum := inum + 1;
      }
      inum := 0;
    }
  }
}
