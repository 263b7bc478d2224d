/** The code of kernel/log.c over one disk. Each block write is atomic; the
    methods report the disk after each write they make, oldest first, so that a
    crash leaves one of those disks and nothing of the in-memory state. */
module Log {
  import opened Blocks
  import opened LogDisk

  /** The disk after write_log has filled the first `k` log slots. */
  function SlotsFilled(l: Layout, d: Disk, vs: seq<Block>, k: nat): (r: Disk)
    requires l.Valid() && |d| == l.total && k <= |vs| && k < l.size
    ensures |r| == l.total && r[l.start] == d[l.start]
  {
    d[..l.start + 1] + vs[..k] + d[l.start + 1 + k..]
  }

  lemma SlotsFilledNext(l: Layout, d: Disk, vs: seq<Block>, k: nat, next: nat)
    requires l.Valid() && |d| == l.total && k < |vs| && next == k + 1 < l.size
    ensures SlotsFilled(l, d, vs, k)[l.start + next := vs[k]] == SlotsFilled(l, d, vs, next)
    ensures SameHome(l, SlotsFilled(l, d, vs, k), d)
  {
  }

  /** `lh` after logging block `b`: writes to a block already logged are absorbed. */
  function Absorb(lh: seq<int>, b: int): (r: seq<int>)
    ensures Distinct(lh) ==> Distinct(r)
    ensures b in r && forall x :: x in r ==> x in lh || x == b
  {
    if b in lh then lh else lh + [b]
  }

  /** `d` with the contents `vs` at the block numbers `lh`. */
  function Applied(d: Disk, lh: seq<int>, vs: seq<Block>, k: nat): (r: Disk)
    requires k <= |lh| == |vs| && forall i :: 0 <= i < |lh| ==> 0 <= lh[i] < |d|
    ensures |r| == |d|
  {
    if k == 0 then d else Applied(d, lh, vs, k - 1)[lh[k - 1] := vs[k - 1]]
  }

  lemma {:induction false} AppliedAt(d: Disk, lh: seq<int>, vs: seq<Block>, k: nat, b: int)
    requires k <= |lh| == |vs| && forall i :: 0 <= i < |lh| ==> 0 <= lh[i] < |d|
    requires Distinct(lh) && 0 <= b < |d|
    ensures b !in lh[..k] ==> Applied(d, lh, vs, k)[b] == d[b]
    ensures forall i :: 0 <= i < k && lh[i] == b ==> Applied(d, lh, vs, k)[b] == vs[i]
  {
    if k > 0 {
      AppliedAt(d, lh, vs, k - 1, b);
      assert lh[..k] == lh[..k - 1] + [lh[k - 1]];
    }
  }

  /** Recovery of `d` produces the home blocks of `e`. */
  ghost predicate Means(l: Layout, d: Disk, e: Disk) {
    ValidDisk(l, d) && SameHome(l, Replay(l, d), e)
  }

  // Recovery, possibly interrupted by further crashes.

  lemma SlotStays(l: Layout, d: Disk, lh: seq<int>, k: nat, i: nat)
    requires l.Valid() && |d| == l.total && ValidHeader(l, lh) && k <= |lh| && i < |lh|
    ensures Slot(l, d, i) == Slot(l, Installed(l, d, lh, k), i)
  {
    var p := l.start + 1 + i;
    assert !l.Home(p);
    InstalledAt(l, d, lh, k, p);
  }

  /** Installing part of the listed blocks does not change what a disk means. */
  lemma InstallKeepsMeaning(l: Layout, d: Disk, k: nat)
    requires ValidDisk(l, d) && k <= |Header(d[l.start])|
    ensures var e := Installed(l, d, Header(d[l.start]), k);
            && ValidDisk(l, e) && e[l.start] == d[l.start]
            && SameHome(l, Replay(l, e), Replay(l, d))
  {
    var lh := Header(d[l.start]);
    var e := Installed(l, d, lh, k);
    forall i | 0 <= i < |lh| ensures Slot(l, d, i) == Slot(l, e, i) {
      SlotStays(l, d, lh, k, i);
    }
    forall b | l.Home(b) && b !in lh ensures d[b] == e[b] {
      InstalledAt(l, d, lh, k, b);
    }
    ReplayDependsOnLog(l, d, e);
  }

  /** Erasing the header after a complete installation changes no home block. */
  lemma ClearKeepsMeaning(l: Layout, d: Disk)
    requires ValidDisk(l, d)
    ensures var r := HeadWrite(l, Replay(l, d), []);
            Clean(l, r) && SameHome(l, r, Replay(l, d)) && Replay(l, r) == r
  {
    HeaderRoundTrip(Replay(l, d)[l.start], []);
  }

  /** `e` is what a crash leaves when it falls anywhere inside the recovery of `d`. */
  ghost predicate CrashedRecovery(l: Layout, d: Disk, e: Disk)
    requires ValidDisk(l, d)
  {
    var lh := Header(d[l.start]);
    || (exists k: nat :: k <= |lh| && e == Installed(l, d, lh, k))
    || e == HeadWrite(l, Replay(l, d), [])
  }

  lemma CrashedRecoveryKeepsMeaning(l: Layout, d: Disk, e: Disk)
    requires ValidDisk(l, d) && CrashedRecovery(l, d, e)
    ensures ValidDisk(l, e) && SameHome(l, Replay(l, e), Replay(l, d))
  {
    if e == HeadWrite(l, Replay(l, d), []) {
      ClearKeepsMeaning(l, d);
    } else {
      var k: nat :| k <= |Header(d[l.start])| && e == Installed(l, d, Header(d[l.start]), k);
      InstallKeepsMeaning(l, d, k);
    }
  }

  /** Each disk in `ds` is left by a crash inside the recovery of the one before. */
  ghost predicate CrashChain(l: Layout, ds: seq<Disk>) {
    var n := |ds|;
    && n > 0
    && ValidDisk(l, ds[0])
    && (n > 1 ==> CrashChain(l, ds[..n - 1]) && ValidDisk(l, ds[n - 2]) && CrashedRecovery(l, ds[n - 2], ds[n - 1]))
  }

  /** Any number of interrupted recoveries leave the meaning of the disk as it was. */
  lemma {:induction false} CrashChainKeepsMeaning(l: Layout, ds: seq<Disk>)
    requires CrashChain(l, ds)
    ensures ValidDisk(l, ds[|ds| - 1])
    ensures SameHome(l, Replay(l, ds[|ds| - 1]), Replay(l, ds[0]))
  {
    var n := |ds|;
    if n > 1 {
      CrashChainKeepsMeaning(l, ds[..n - 1]);
      CrashedRecoveryKeepsMeaning(l, ds[n - 2], ds[n - 1]);
    }
  }

  /** After any number of interrupted recoveries a completed one produces what
      the first crash left behind. */
  lemma RecoveryAfterCrashes(l: Layout, ds: seq<Disk>, e: Disk)
    requires CrashChain(l, ds) && Means(l, ds[0], e)
    ensures ValidDisk(l, ds[|ds| - 1])
    ensures var r := HeadWrite(l, Replay(l, ds[|ds| - 1]), []);
            Clean(l, r) && SameHome(l, r, e)
  {
    CrashChainKeepsMeaning(l, ds);
    ClearKeepsMeaning(l, ds[|ds| - 1]);
  }

  // What a crash inside commit can leave behind.

  /** While the log slots are being filled the header still lists nothing. */
  lemma CrashBeforeCommit(l: Layout, d: Disk, vs: seq<Block>, k: nat)
    requires Clean(l, d) && k <= |vs| && k < l.size
    ensures var r := SlotsFilled(l, d, vs, k);
            Clean(l, r) && SameHome(l, Replay(l, r), d)
  {

  }

  /** The disk right after the first write_head of a commit. */
  function Committed(l: Layout, d: Disk, lh: seq<int>, vs: seq<Block>): (r: Disk)
    requires Clean(l, d) && ValidHeader(l, lh) && |vs| == |lh|
  {
    HeadWrite(l, SlotsFilled(l, d, vs, |lh|), lh)
  }

  /** A disk whose header lists `lh` and whose log slots hold `vs` means the
      home blocks it has with `vs` applied. */
  lemma ReplayApplies(l: Layout, r: Disk, d: Disk, lh: seq<int>, vs: seq<Block>)
    requires ValidDisk(l, r) && Header(r[l.start]) == lh && |vs| == |lh| && SameHome(l, r, d)
    requires forall i :: 0 <= i < |lh| ==> Slot(l, r, i) == vs[i]
    ensures SameHome(l, Replay(l, r), Applied(d, lh, vs, |lh|))
  {
    forall b | l.Home(b) ensures Replay(l, r)[b] == Applied(d, lh, vs, |lh|)[b] {
      ReplayAt(l, r, b);
      AppliedAt(d, lh, vs, |lh|, b);
      assert lh[..|lh|] == lh;
    }
  }

  /** Writing the header makes the whole transaction take effect at once. */
  lemma HeadWriteCommits(l: Layout, d: Disk, lh: seq<int>, vs: seq<Block>)
    requires Clean(l, d) && ValidHeader(l, lh) && |vs| == |lh|
    ensures var r := Committed(l, d, lh, vs);
            && ValidDisk(l, r) && Header(r[l.start]) == lh
            && SameHome(l, Replay(l, r), Applied(d, lh, vs, |lh|))
  {
    HeaderRoundTrip(d[l.start], lh);
    ReplayApplies(l, Committed(l, d, lh, vs), d, lh, vs);
  }

  /** Crash atomicity of one commit: whichever of its writes was the last to
      reach the disk, the disk means the state before the transaction or the
      state after it, and the latter exactly from the header write on. */
  lemma CommitIsAtomic(l: Layout, d: Disk, lh: seq<int>, vs: seq<Block>, slots: seq<Disk>, installs: seq<Disk>)
    requires Clean(l, d) && ValidHeader(l, lh) && |vs| == |slots| == |installs| == |lh|
    requires forall i :: 0 <= i < |lh| ==> slots[i] == SlotsFilled(l, d, vs, i + 1)
    requires forall i :: 0 <= i < |lh| ==> installs[i] == Installed(l, Committed(l, d, lh, vs), lh, i + 1)
    ensures var c := Committed(l, d, lh, vs);
            var last := HeadWrite(l, Installed(l, c, lh, |lh|), []);
            var writes := slots + [c] + installs + [last];
            && Clean(l, last) && SameHome(l, last, Applied(d, lh, vs, |lh|))
            && forall i :: 0 <= i < |writes| ==>
                 Means(l, writes[i], if i < |lh| then d else Applied(d, lh, vs, |lh|))
  {
    var n, c, post := |lh|, Committed(l, d, lh, vs), Applied(d, lh, vs, |lh|);
    HeadWriteCommits(l, d, lh, vs);
    ClearKeepsMeaning(l, c);
    var last := HeadWrite(l, Installed(l, c, lh, n), []);
    var writes := slots + [c] + installs + [last];
    forall i | 0 <= i < |writes| ensures Means(l, writes[i], if i < n then d else post) {
      Nth(slots, c, installs, last, i);
      if i < n {
        CrashBeforeCommit(l, d, vs, i + 1);
      } else if n < i <= 2 * n {
        InstallKeepsMeaning(l, c, i - n);
        assert writes[i] == Installed(l, c, lh, i - n);
      }
    }
  }

  lemma Nth(a: seq<Disk>, c: Disk, b: seq<Disk>, e: Disk, i: nat)
    requires i < |a| + |b| + 2
    ensures (a + [c] + b + [e])[i] == if i < |a| then a[i] else if i == |a| then c else if i <= |a| + |b| then b[i - |a| - 1] else e
  {
  }

  datatype WriteResult = Logged | TooBig | OutsideTransaction

  class Log {
    const layout: Layout
    var n: nat
    const block: array<int>
    var outstanding: int
    var committing: bool
    var disk: Disk
    var cache: map<int, Block>   // pinned buffers: logged blocks not yet installed

    ghost function Blocks(): (lh: seq<int>)
      reads this, block
      requires n <= block.Length
    {
      block[..n]
    }

    ghost predicate Valid()
      reads this, block
    {
      && layout.Valid()
      && |disk| == layout.total
      && disk[layout.start].Full()
      && block.Length == LOGSIZE
      && n <= LOGSIZE
      && ValidHeader(layout, Blocks())
    }

    /** initlog before recovery: nothing is logged or cached. */
    constructor (l: Layout, d: Disk)
      requires ValidDisk(l, d)
      ensures Valid() && fresh(block) && layout == l && disk == d && n == 0 && outstanding == 0 && !committing && cache == map[]
    {
      layout, disk := l, d;
      block := new int[LOGSIZE];
      n, outstanding, committing, cache := 0, 0, false, map[];
    }

    /** The contents a reader of the buffer cache sees. */
    function Contents(b: int): (v: Block)
      reads this
      requires 0 <= b < |disk|
    {
      if b in cache then cache[b] else disk[b]
    }

    /** The cached contents of the logged blocks, in log order. */
    ghost function Values(): (vs: seq<Block>)
      reads this, block
      requires Valid()
    {
      seq(n, i requires 0 <= i < n && Valid() reads this, block => Contents(block[i]))
    }

    /** The body of the loop in write_log: the cached block goes to its log slot. */
    method WriteSlot(tail: nat, next: nat, ghost d: Disk, ghost vs: seq<Block>)
      requires Valid() && tail < n && next == tail + 1 && |d| == layout.total && |vs| == n && disk == SlotsFilled(layout, d, vs, tail)
      requires Contents(block[tail]) == vs[tail]
      modifies this`disk
      ensures disk == SlotsFilled(layout, d, vs, next)
    {
      SlotsFilledNext(layout, d, vs, tail, next);
      assert layout.Home(Blocks()[tail]);
      disk := disk[layout.start + next := Contents(block[tail])];
    }

    method WriteLog() returns (ghost writes: seq<Disk>)
      requires Valid()
      modifies this`disk
      ensures Valid()
      ensures disk == SlotsFilled(layout, old(disk), old(Values()), n)
      ensures |writes| == n
      ensures forall i :: 0 <= i < n ==> writes[i] == SlotsFilled(layout, old(disk), old(Values()), i + 1)
    {
      ghost var d, lh, vs := disk, Blocks(), Values();
      writes := [];
      var tail := 0;
      while tail < n
        invariant tail <= n && Blocks() == lh && |writes| == tail && Valid()
        invariant disk == SlotsFilled(layout, d, vs, tail)
        invariant forall i :: 0 <= i < tail ==> writes[i] == SlotsFilled(layout, d, vs, i + 1)
      {
        var next := tail + 1;
        SlotsFilledNext(layout, d, vs, tail, next);
        assert block[tail] == lh[tail] && layout.Home(lh[tail]);
        WriteSlot(tail, next, d, vs);
        writes := writes + [disk];
        tail := next;
      }
    }

    method WriteHead()
      requires Valid()
      modifies this`disk
      ensures Valid()
      ensures disk == HeadWrite(layout, old(disk), Blocks())
    {
      assert forall i :: 0 <= i < n ==> layout.Home(Blocks()[i]);
      ghost var lh, was := Blocks(), disk[layout.start];
      var hb := disk[layout.start];
      hb := Block(hb.words[0 := n]);
      var i := 0;
      while i < n
        invariant i <= n && disk == old(disk)
        invariant hb == FillHeader(was, lh, i)
      {
        var next := i + 1;
        FillHeaderNext(was, lh, i, next);
        hb := Block(hb.words[next := block[i]]);
        i := next;
      }
      disk := disk[layout.start := hb];
    }

    /** Recovery trusts the header that the kernel itself left on disk. */
    method ReadHead()
      requires block.Length == LOGSIZE && ValidDisk(layout, disk)
      modifies this`n, block
      ensures Valid() && Blocks() == Header(disk[layout.start])
    {
      var lh := disk[layout.start];
      n := lh.words[0];
      var i := 0;
      while i < n
        invariant i <= n == |Header(lh)|
        invariant block[..i] == Header(lh)[..i]
      {
        block[i] := lh.words[i + 1];
        i := i + 1;
      }
      assert block[..n] == Header(lh);
    }

    method InstallTrans(recovering: bool) returns (ghost writes: seq<Disk>)
      requires Valid()
      modifies this`disk, this`cache
      ensures Valid()
      ensures disk == Installed(layout, old(disk), Blocks(), n)
      ensures cache == if recovering then old(cache) else old(cache) - set b | b in Blocks()
      ensures |writes| == n
      ensures forall i :: 0 <= i < n ==> writes[i] == Installed(layout, old(disk), Blocks(), i + 1)
    {
      ghost var lh := Blocks();
      writes := [];
      var tail := 0;
      while tail < n
        invariant tail <= n && Blocks() == lh && |writes| == tail
        invariant disk == Installed(layout, old(disk), lh, tail)
        invariant cache == if recovering then old(cache) else old(cache) - set b | b in lh[..tail]
        invariant forall i :: 0 <= i < tail ==> writes[i] == Installed(layout, old(disk), lh, i + 1)
      {
        assert block[tail] == lh[tail] && layout.Home(lh[tail]);
        disk := disk[block[tail] := disk[layout.start + tail + 1]];
        if !recovering {
          cache := cache - {block[tail]};
        }
        assert lh[..tail + 1] == lh[..tail] + [lh[tail]];
        writes := writes + [disk];
        tail := tail + 1;
      }
      assert lh[..n] == lh;
    }

    /** commit: a crash after write `i` means the old state for `i < n` and the
        new state from write `n`, the header, onwards. */
    method Commit() returns (ghost writes: seq<Disk>)
      requires Valid() && Clean(layout, disk)
      modifies this`disk, this`cache, this`n
      ensures Valid() && n == 0 && Clean(layout, disk)
      ensures cache == old(cache) - set b | b in old(Blocks())
      ensures |writes| == if old(n) == 0 then 0 else 2 * old(n) + 2
      ensures SameHome(layout, disk, Applied(old(disk), old(Blocks()), old(Values()), old(n)))
      ensures forall i :: 0 <= i < |writes| ==>
                Means(layout, writes[i],
                      if i < old(n) then old(disk) else Applied(old(disk), old(Blocks()), old(Values()), old(n)))
    {
      writes := [];
      if n > 0 {
        ghost var d, lh, vs := disk, Blocks(), Values();
        ghost var slots := WriteLog();
        WriteHead();
        ghost var committed := disk;
        ghost var installs := InstallTrans(false);
        CommitIsAtomic(layout, d, lh, vs, slots, installs);
        n := 0;
        assert Blocks() == [];
        WriteHead();
        writes := slots + [committed] + installs + [disk];
      } else {
        assert Blocks() == [];
        assert cache == cache - set b | b in Blocks();
      }
    }

    /** recover_from_log: interrupted anywhere, the disk still means the same;
        completed, its home blocks are what the disk meant. */
    method RecoverFromLog() returns (ghost writes: seq<Disk>)
      requires block.Length == LOGSIZE && ValidDisk(layout, disk)
      modifies this`disk, this`cache, this`n, block
      ensures Valid() && n == 0 && Clean(layout, disk) && cache == old(cache)
      ensures SameHome(layout, disk, Replay(layout, old(disk)))
      ensures forall i :: 0 <= i < |writes| ==> CrashedRecovery(layout, old(disk), writes[i])
    {
      ReadHead();
      writes := InstallTrans(true);
      ClearKeepsMeaning(layout, old(disk));
      n := 0;
      assert Blocks() == [];
      WriteHead();
      writes := writes + [disk];
    }

    /** log_write of buffer `b`, modified to `v` by its caller. The capacity test
        comes before absorption; where it fails the kernel panics. */
    method LogWrite(b: int, v: Block) returns (r: WriteResult)
      requires Valid() && layout.Home(b)
      modifies this`n, this`cache, block
      ensures Valid()
      ensures r == if old(n) >= LOGSIZE || old(n) >= layout.size - 1 then TooBig
                   else if outstanding < 1 then OutsideTransaction else Logged
      ensures r.Logged? ==> Blocks() == Absorb(old(Blocks()), b) && cache == old(cache)[b := v]
      ensures !r.Logged? ==> Blocks() == old(Blocks()) && cache == old(cache)
    {
      if n >= LOGSIZE || n >= layout.size - 1 {
        return TooBig;
      }
      if outstanding < 1 {
        return OutsideTransaction;
      }
      var i := 0;
      while i < n && block[i] != b
        invariant i <= n && b !in block[..i]
      {
        i := i + 1;
      }
      ghost var lh := Blocks();
      cache := cache[b := v];
      if i < n {
        assert lh[i] == b;
      }
      block[i] := b;
      if i == n {
        n := n + 1;
        assert Blocks() == lh + [b];
        assert lh == block[..i];
      } else {
        assert Blocks() == lh;
      }
      return Logged;
    }
  }
}
