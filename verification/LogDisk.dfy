/** The on-disk redo log of kernel/log.c as functions on disk contents: the
    header block, the single block writes of write_log, write_head and
    install_trans, and the meaning of a disk after a crash. */
module LogDisk {
  import opened Blocks

  const MAXOPBLOCKS: nat := 10
  const LOGSIZE: nat := 30   // 3 * MAXOPBLOCKS

  /** The log space that begin_op sets aside for `k` operations, MAXOPBLOCKS each. */
  function OpSpace(k: int): int { 10 * k }

  /** Where the log lies: a header at `start`, then `size - 1` data blocks, on
      a disk of `total` blocks. Everything else is home to file system blocks. */
  datatype Layout = Layout(start: nat, size: nat, total: nat) {
    predicate Valid() {
      0 < size && start + size <= total <= 0x8000_0000
    }

    predicate Home(b: int) {
      0 <= b < total && !(start <= b < start + size)
    }
  }

  predicate Distinct(s: seq<int>) {
    forall i, j :: 0 <= i < j < |s| ==> s[i] != s[j]
  }

  /** What the logging code keeps true of a list of logged block numbers. */
  predicate ValidHeader(l: Layout, lh: seq<int>) {
    && |lh| <= LOGSIZE && |lh| < l.size
    && Distinct(lh)
    && forall i :: 0 <= i < |lh| ==> l.Home(lh[i])
  }

  // The header block: a count, then that many block numbers.

  predicate HasHeader(b: Block) {
    b.Full() && b.words[0] <= LOGSIZE
  }

  function Header(b: Block): (lh: seq<int>)
    requires HasHeader(b)
  {
    b.words[1..b.words[0] + 1]
  }

  /** Header block `b` after write_head stored the count and the first `k` entries. */
  function FillHeader(b: Block, lh: seq<int>, k: nat): (r: Block)
    requires b.Full() && k <= |lh| <= LOGSIZE
    requires forall i :: 0 <= i < |lh| ==> 0 <= lh[i] < 0x8000_0000
    ensures r.Full()
  {
    Block([|lh|] + lh[..k] + b.words[k + 1..])
  }

  /** One round of the loop of write_head. */
  lemma FillHeaderNext(b: Block, lh: seq<int>, i: nat, j: nat)
    requires b.Full() && j == i + 1 <= |lh| <= LOGSIZE
    requires forall k :: 0 <= k < |lh| ==> 0 <= lh[k] < 0x8000_0000
    ensures FillHeader(b, lh, j) == Block(FillHeader(b, lh, i).words[j := lh[i]])
  {
    var x, y := FillHeader(b, lh, j).words, FillHeader(b, lh, i).words[j := lh[i]];
    assert |x| == |y|;
    forall k | 0 <= k < |x| ensures x[k] == y[k] {
    }
  }

  /** Whatever the header block held before, reading back what write_head stored
      gives the block list; in particular an empty list hides stale entries. */
  lemma HeaderRoundTrip(b: Block, lh: seq<int>)
    requires b.Full() && |lh| <= LOGSIZE
    requires forall i :: 0 <= i < |lh| ==> 0 <= lh[i] < 0x8000_0000
    ensures HasHeader(FillHeader(b, lh, |lh|))
    ensures Header(FillHeader(b, lh, |lh|)) == lh
  {
  }

  predicate ValidDisk(l: Layout, d: Disk) {
    && l.Valid()
    && |d| == l.total
    && HasHeader(d[l.start])
    && ValidHeader(l, Header(d[l.start]))
  }

  predicate Clean(l: Layout, d: Disk) {
    ValidDisk(l, d) && Header(d[l.start]) == []
  }

  ghost predicate SameHome(l: Layout, d: Disk, e: Disk) {
    && |d| == |e| == l.total
    && forall b :: l.Home(b) ==> d[b] == e[b]
  }

  /** The contents of log slot `t`. */
  function Slot(l: Layout, d: Disk, t: nat): (v: Block)
    requires l.Valid() && |d| == l.total && t + 1 < l.size
  {
    d[l.start + 1 + t]
  }

  // The three kinds of block write that commit and recovery issue.

  /** write_log: copy the current contents `v` of logged block `t` into log slot `t`. */
  function LogSlotWrite(l: Layout, d: Disk, t: nat, v: Block): (r: Disk)
    requires l.Valid() && |d| == l.total && t + 1 < l.size
  {
    d[l.start + 1 + t := v]
  }

  /** write_head: store the in-memory header. */
  function HeadWrite(l: Layout, d: Disk, lh: seq<int>): (r: Disk)
    requires l.Valid() && |d| == l.total && d[l.start].Full() && ValidHeader(l, lh)
  {
    d[l.start := FillHeader(d[l.start], lh, |lh|)]
  }

  /** install_trans: copy log slot `t` to its home location. */
  function InstallWrite(l: Layout, d: Disk, lh: seq<int>, t: nat): (r: Disk)
    requires l.Valid() && |d| == l.total && ValidHeader(l, lh) && t < |lh|
  {
    d[lh[t] := Slot(l, d, t)]
  }

  /** The disk after the first `k` log slots were installed. */
  function Installed(l: Layout, d: Disk, lh: seq<int>, k: nat): (r: Disk)
    requires l.Valid() && |d| == l.total && ValidHeader(l, lh) && k <= |lh|
    ensures |r| == l.total && r[l.start] == d[l.start]
  {
    if k == 0 then d else InstallWrite(l, Installed(l, d, lh, k - 1), lh, k - 1)
  }

  /** Block `b` after the first `k` installations. */
  lemma {:induction false} InstalledAt(l: Layout, d: Disk, lh: seq<int>, k: nat, b: int)
    requires l.Valid() && |d| == l.total && ValidHeader(l, lh) && k <= |lh| && 0 <= b < l.total
    ensures b !in lh[..k] ==> Installed(l, d, lh, k)[b] == d[b]
    ensures forall i :: 0 <= i < k && lh[i] == b ==> Installed(l, d, lh, k)[b] == Slot(l, d, i)
  {
    if k > 0 {
      InstalledAt(l, d, lh, k - 1, b);
      InstalledAt(l, d, lh, k - 1, l.start + k);
      assert lh[..k] == lh[..k - 1] + [lh[k - 1]];
    }
  }

  /** What a disk means: the state its recovery produces. */
  function Replay(l: Layout, d: Disk): (r: Disk)
    requires ValidDisk(l, d)
    ensures |r| == l.total && r[l.start] == d[l.start]
  {
    var lh := Header(d[l.start]);
    Installed(l, d, lh, |lh|)
  }

  /** The home block `b` that recovery of `d` produces. */
  lemma ReplayAt(l: Layout, d: Disk, b: int)
    requires ValidDisk(l, d) && l.Home(b)
    ensures b !in Header(d[l.start]) ==> Replay(l, d)[b] == d[b]
    ensures forall i :: 0 <= i < |Header(d[l.start])| && Header(d[l.start])[i] == b ==> Replay(l, d)[b] == Slot(l, d, i)
  {
    var lh := Header(d[l.start]);
    InstalledAt(l, d, lh, |lh|, b);
    assert lh[..|lh|] == lh;
  }

  /** Two disks with the same header, the same log slots under it, and the same
      home blocks except those the header lists, mean the same. */
  lemma ReplayDependsOnLog(l: Layout, d: Disk, e: Disk)
    requires ValidDisk(l, d) && ValidDisk(l, e)
    requires Header(d[l.start]) == Header(e[l.start])
    requires forall i :: 0 <= i < |Header(d[l.start])| ==> Slot(l, d, i) == Slot(l, e, i)
    requires forall b :: l.Home(b) && b !in Header(d[l.start]) ==> d[b] == e[b]
    ensures SameHome(l, Replay(l, d), Replay(l, e))
  {
    forall b | l.Home(b) ensures Replay(l, d)[b] == Replay(l, e)[b] {
      ReplayAt(l, d, b);
      ReplayAt(l, e, b);
    }
  }
}
