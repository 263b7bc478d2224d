/** The logical contents of the file system of kernel/fs.c: the block bitmap,
    all blocks, and the inodes, as the operations see them through the buffer
    cache and the inode table. */
module FsState {
  import opened Blocks
  import opened Finite

  const NDIRECT: nat := 12
  const NINDIRECT: nat := 256
  const MAXFILE: nat := 268  // NDIRECT + NINDIRECT
  const MAXBYTES: nat := 274432  // MAXFILE * BSIZE
  const BPB: nat := 8192   // bits per bitmap block

  /** Bytes that filewrite puts into one transaction: (10 - 1 - 1 - 2) / 2 blocks,
      which leaves room for an inode, an indirect block, two blocks of slop, and a
      bitmap block for every data block. */
  const MAXCHUNK: nat := 3072

  /** The first byte of chunk `k`: k * MAXCHUNK. */
  function ChunkStart(k: int): int { k * 3072 }

  /** The block that byte `p` of a file falls into, its offset there, and the first
      byte of a block. */
  function BlockOf(p: nat): nat { p / 1024 }
  function Within(p: nat): nat { p % 1024 }
  function Start(bn: int): int { bn * 1024 }

  /** `addrs[NDIRECT]` is the indirect block; 0 means not allocated. */
  datatype Inode = Inode(kind: int, major: int, minor: int, nlink: int, size: nat, addrs: seq<Word>)

  /** The parts of the super block that matter here; data blocks start at `data`. */
  datatype Geometry = Geometry(size: nat, ninodes: nat, inodestart: nat, bmapstart: nat, data: nat) {
    predicate Valid() {
      && 0 < inodestart && 0 < ninodes
      && IBlock(ninodes - 1) < bmapstart
      && BBlock(size - 1) < data <= size < 0x1_0000_0000
    }

    /** The inode block holding inode `i`, and the bitmap block holding the bit of `b`. */
    function IBlock(i: int): int { i / 16 + inodestart }
    function BBlock(b: int): int { b / 8192 + bmapstart }
  }

  /** `inodes` are the inodes as last changed in memory, `disk` as last written by
      iupdate; `logged` are the blocks given to log_write in this transaction. */
  datatype Fs = Fs(used: seq<bool>, blocks: seq<Block>, inodes: seq<Inode>, disk: seq<Inode>, logged: set<int>)

  ghost predicate Shape(g: Geometry, s: Fs) {
    && g.Valid()
    && |s.used| == |s.blocks| == g.size
    && |s.inodes| == |s.disk| == g.ninodes
    && (forall b :: 0 <= b < g.size ==> s.blocks[b].Full())
    && (forall i :: 0 <= i < g.ninodes ==> |s.inodes[i].addrs| == NDIRECT + 1)
  }

  // Positions. Position `k` of inode `i` holds a block address: positions up to
  // NDIRECT are `addrs`, the others are the words of the indirect block.

  const POSITIONS: nat := 269  // NDIRECT + 1 + NINDIRECT

  function Addr(s: Fs, i: nat, k: nat): (a: Word)
    requires i < |s.inodes| && |s.inodes[i].addrs| == NDIRECT + 1 && k < POSITIONS
    requires forall b :: 0 <= b < |s.blocks| ==> s.blocks[b].Full()
  {
    if k <= NDIRECT then s.inodes[i].addrs[k]
    else
      var ind := s.inodes[i].addrs[NDIRECT];
      if 0 < ind < |s.blocks| then assert s.blocks[ind].Full(); s.blocks[ind].words[k - NDIRECT - 1] else 0
  }

  /** The position of the `bn`th data block of a file. */
  function Pos(bn: nat): (k: nat) {
    if bn < NDIRECT then bn else bn + 1
  }

  /** Where a block is held: position `k` of inode `i`. */
  datatype Place = Place(i: nat, k: nat)

  ghost predicate Holds(g: Geometry, s: Fs, q: Place, b: int)
    requires Shape(g, s)
  {
    q.i < g.ninodes && q.k < POSITIONS && Addr(s, q.i, q.k) == b
  }

  /** `o` names the one position that holds each allocated data block, and the
      bitmap marks exactly those blocks and the metadata in front of them. */
  ghost predicate Owns(g: Geometry, s: Fs, o: map<int, Place>) {
    && Shape(g, s)
    && (forall b :: b in o ==> g.data <= b < g.size && Holds(g, s, o[b], b))
    && (forall i: nat, k: nat {:trigger Addr(s, i, k)} :: i < g.ninodes && k < POSITIONS && Addr(s, i, k) != 0 ==>
          Addr(s, i, k) in o && o[Addr(s, i, k)] == Place(i, k))
    && (forall b :: 0 <= b < g.size ==> (s.used[b] <==> b < g.data || b in o))
  }

  /** Said without `o`: a block is marked used exactly if it is metadata or some position of some inode
      holds it; no two positions hold the same block, and none holds metadata. */
  lemma OwnershipExact(g: Geometry, s: Fs, o: map<int, Place>, b: nat)
    requires Owns(g, s, o) && b < g.size
    ensures s.used[b] <==> b < g.data || exists i: nat, k: nat :: i < g.ninodes && k < POSITIONS && Addr(s, i, k) == b
    ensures forall i: nat, k: nat, j: nat, m: nat {:trigger Addr(s, i, k), Addr(s, j, m)} ::
      i < g.ninodes && k < POSITIONS && j < g.ninodes && m < POSITIONS && Addr(s, i, k) == Addr(s, j, m) != 0 ==> i == j && k == m
    ensures forall i: nat, k: nat {:trigger Addr(s, i, k)} ::
      i < g.ninodes && k < POSITIONS && Addr(s, i, k) != 0 ==> g.data <= Addr(s, i, k) < g.size
  {
    if b in o {
      assert Holds(g, s, o[b], b);
      assert Addr(s, o[b].i, o[b].k) == b;
    }
  }

  /** Byte `p` of the file of inode `i`. */
  function FileByte(s: Fs, i: nat, p: nat): (x: Byte)
    requires i < |s.inodes| && |s.inodes[i].addrs| == NDIRECT + 1 && p < MAXBYTES
    requires forall b :: 0 <= b < |s.blocks| ==> s.blocks[b].Full()
  {
    var a := Addr(s, i, Pos(BlockOf(p)));
    if 0 < a < |s.blocks| then ByteAt(s.blocks[a], Within(p)) else 0
  }

  /** Every block below byte `z` of the file is allocated. */
  ghost predicate Mapped(s: Fs, i: nat, z: nat)
    requires i < |s.inodes| && |s.inodes[i].addrs| == NDIRECT + 1
    requires forall b :: 0 <= b < |s.blocks| ==> s.blocks[b].Full()
  {
    && z <= MAXBYTES
    && forall bn: nat {:trigger Pos(bn)} :: bn < MAXFILE && Start(bn) < z ==> Addr(s, i, Pos(bn)) != 0
  }

  /** What every operation keeps: ownership, and no file has a hole below its size. */
  ghost predicate Valid(g: Geometry, s: Fs, o: map<int, Place>) {
    && Owns(g, s, o)
    && forall i: nat :: i < g.ninodes ==> Mapped(s, i, s.inodes[i].size)
  }

  /** The contents of a file. */
  ghost function Contents(s: Fs, i: nat): (c: seq<Byte>)
    requires i < |s.inodes| && |s.inodes[i].addrs| == NDIRECT + 1 && s.inodes[i].size <= MAXBYTES
    requires forall b :: 0 <= b < |s.blocks| ==> s.blocks[b].Full()
    ensures |c| == s.inodes[i].size
  {
    seq(s.inodes[i].size, p requires 0 <= p < s.inodes[i].size => FileByte(s, i, p))
  }

  // Allocation.

  /** balloc of block `b`: mark it, zero it, log both. */
  function Take(g: Geometry, s: Fs, b: int): (t: Fs)
    requires 0 <= b < |s.used| == |s.blocks|
  {
    s.(used := s.used[b := true], blocks := s.blocks[b := ZeroBlock()], logged := s.logged + {g.BBlock(b), b})
  }

  /** bfree of block `b`. */
  function Drop(g: Geometry, s: Fs, b: int): (t: Fs)
    requires 0 <= b < |s.used|
  {
    s.(used := s.used[b := false], logged := s.logged + {g.BBlock(b)})
  }

  /** Store address `a` at a position; a change to the indirect block is logged. */
  function SetAddr(s: Fs, i: nat, k: nat, a: Word): (t: Fs)
    requires i < |s.inodes| && |s.inodes[i].addrs| == NDIRECT + 1 && k < POSITIONS
    requires forall b :: 0 <= b < |s.blocks| ==> s.blocks[b].Full()
    requires k > NDIRECT ==> 0 < s.inodes[i].addrs[NDIRECT] < |s.blocks|
  {
    if k <= NDIRECT then
      s.(inodes := s.inodes[i := s.inodes[i].(addrs := s.inodes[i].addrs[k := a])])
    else
      var ind := s.inodes[i].addrs[NDIRECT];
      assert s.blocks[ind].Full();
      s.(blocks := s.blocks[ind := Block(s.blocks[ind].words[k - NDIRECT - 1 := a])], logged := s.logged + {ind})
  }

  /** A free block can be given to an empty position whose indirect block, if it
      needs one, exists. */
  ghost predicate CanAttach(g: Geometry, s: Fs, o: map<int, Place>, i: nat, k: nat, b: int) {
    && Owns(g, s, o)
    && i < g.ninodes && k < POSITIONS && 0 < b < g.size && !s.used[b]
    && Addr(s, i, k) == 0
    && (k > NDIRECT ==> s.inodes[i].addrs[NDIRECT] != 0)
  }

  ghost function Attach(g: Geometry, s: Fs, o: map<int, Place>, i: nat, k: nat, b: int): (t: Fs)
    requires CanAttach(g, s, o, i, k, b)
  {
    assert k > NDIRECT ==> Addr(s, i, NDIRECT) in o;
    SetAddr(Take(g, s, b), i, k, b)
  }

  lemma AttachAddr(g: Geometry, s: Fs, o: map<int, Place>, i: nat, k: nat, b: int, j: nat, m: nat)
    requires CanAttach(g, s, o, i, k, b) && j < g.ninodes && m < POSITIONS
    ensures Shape(g, Attach(g, s, o, i, k, b))
    ensures Addr(Attach(g, s, o, i, k, b), j, m) == if (j, m) == (i, k) then b else Addr(s, j, m)
  {
    assert Addr(s, j, NDIRECT) != 0 ==> Addr(s, j, NDIRECT) in o;
    assert Addr(s, i, NDIRECT) != 0 ==> Addr(s, i, NDIRECT) in o;
  }

  /** The new block joins the ownership map and nothing else changes hands. */
  lemma AttachOwns(g: Geometry, s: Fs, o: map<int, Place>, i: nat, k: nat, b: int)
    requires CanAttach(g, s, o, i, k, b)
    ensures Owns(g, Attach(g, s, o, i, k, b), o[b := Place(i, k)])
  {
    var t := Attach(g, s, o, i, k, b);
    AttachAddr(g, s, o, i, k, b, i, k);
    forall j: nat, m: nat | j < g.ninodes && m < POSITIONS
      ensures Addr(t, j, m) == if (j, m) == (i, k) then b else Addr(s, j, m)
    {
      AttachAddr(g, s, o, i, k, b, j, m);
    }
    OwnsOneMore(g, s, o, i, k, b, t);
  }

  lemma OwnsOneMore(g: Geometry, s: Fs, o: map<int, Place>, i: nat, k: nat, b: int, t: Fs)
    requires Owns(g, s, o) && Shape(g, t) && i < g.ninodes && k < POSITIONS && 0 < b < g.size && !s.used[b]
    requires t.used == s.used[b := true]
    requires Addr(s, i, k) == 0
    requires forall j: nat, m: nat {:trigger Addr(t, j, m)} :: j < g.ninodes && m < POSITIONS ==>
               Addr(t, j, m) == if (j, m) == (i, k) then b else Addr(s, j, m)
    ensures Owns(g, t, o[b := Place(i, k)])
  {
    forall c | c in o ensures Holds(g, t, o[c], c) {
      assert Holds(g, s, o[c], c);
    }
    assert Holds(g, t, Place(i, k), b);
  }

  /** A file reads as before, except in the block that was just attached to it. */
  lemma AttachByte(g: Geometry, s: Fs, o: map<int, Place>, i: nat, k: nat, b: int, j: nat, p: nat)
    requires CanAttach(g, s, o, i, k, b) && j < g.ninodes && p < MAXBYTES
    requires j != i || Pos(BlockOf(p)) != k
    ensures Shape(g, Attach(g, s, o, i, k, b))
    ensures FileByte(Attach(g, s, o, i, k, b), j, p) == FileByte(s, j, p)
  {
    var m := Pos(BlockOf(p));
    AttachAddr(g, s, o, i, k, b, j, m);
    assert Addr(s, j, m) != 0 ==> Addr(s, j, m) in o;
    assert Addr(s, i, NDIRECT) != 0 ==> Addr(s, i, NDIRECT) in o;
  }

  // Writing file data.

  /** Data block `bn` of file `i` with `data` copied in at offset `at`, and logged or not. */
  ghost function WriteData(s: Fs, i: nat, bn: nat, at: nat, data: seq<Byte>, log: bool): (t: Fs)
    requires i < |s.inodes| && |s.inodes[i].addrs| == NDIRECT + 1 && bn < MAXFILE
    requires forall b :: 0 <= b < |s.blocks| ==> s.blocks[b].Full()
    requires 0 < Addr(s, i, Pos(bn)) < |s.blocks| && at + |data| <= BSIZE
  {
    var a := Addr(s, i, Pos(bn));
    assert s.blocks[a].Full();
    s.(blocks := s.blocks[a := Splice(s.blocks[a], at, data)], logged := if log then s.logged + {a} else s.logged)
  }

  ghost predicate CanWrite(g: Geometry, s: Fs, o: map<int, Place>, i: nat, bn: nat, at: nat, data: seq<Byte>) {
    Owns(g, s, o) && i < g.ninodes && bn < MAXFILE && Addr(s, i, Pos(bn)) != 0 && at + |data| <= BSIZE
  }

  lemma WriteAddr(g: Geometry, s: Fs, o: map<int, Place>, i: nat, bn: nat, at: nat, data: seq<Byte>, log: bool, j: nat, m: nat)
    requires CanWrite(g, s, o, i, bn, at, data) && j < g.ninodes && m < POSITIONS
    ensures Addr(s, i, Pos(bn)) in o
    ensures var t := WriteData(s, i, bn, at, data, log);
            Shape(g, t) && Addr(t, j, m) == Addr(s, j, m)
  {
    assert Addr(s, i, Pos(bn)) in o && o[Addr(s, i, Pos(bn))] == Place(i, Pos(bn));
    assert Addr(s, j, NDIRECT) != 0 ==> Addr(s, j, NDIRECT) in o && o[Addr(s, j, NDIRECT)] == Place(j, NDIRECT);
  }

  /** The bytes from offset `at` of block `bn` on. */
  lemma InBlock(p: nat, bn: nat, at: nat, n: nat)
    requires at + n <= BSIZE
    ensures Start(bn) + at <= p < Start(bn) + at + n <==> BlockOf(p) == bn && at <= Within(p) < at + n
    ensures BlockOf(p) == bn ==> p - Start(bn) - at == Within(p) - at
    ensures Pos(BlockOf(p)) == Pos(bn) <==> BlockOf(p) == bn
  {
  }

  /** Only the named bytes of the named file change. */
  lemma WriteByte(g: Geometry, s: Fs, o: map<int, Place>, i: nat, bn: nat, at: nat, data: seq<Byte>, log: bool, j: nat, p: nat)
    requires CanWrite(g, s, o, i, bn, at, data) && j < g.ninodes && p < MAXBYTES
    ensures Addr(s, i, Pos(bn)) in o
    ensures var t := WriteData(s, i, bn, at, data, log);
            && Shape(g, t)
            && FileByte(t, j, p) ==
               if j == i && Start(bn) + at <= p < Start(bn) + at + |data| then data[p - Start(bn) - at]
               else FileByte(s, j, p)
  {
    var a, m := Addr(s, i, Pos(bn)), Pos(BlockOf(p));
    WriteAddr(g, s, o, i, bn, at, data, log, j, m);
    assert Addr(s, j, m) != 0 ==> Addr(s, j, m) in o && o[Addr(s, j, m)] == Place(j, m);
    assert s.blocks[a].Full();
    SpliceAt(s.blocks[a], at, data, Within(p));
    InBlock(p, bn, at, |data|);
  }

  lemma WriteOwns(g: Geometry, s: Fs, o: map<int, Place>, i: nat, bn: nat, at: nat, data: seq<Byte>, log: bool)
    requires CanWrite(g, s, o, i, bn, at, data)
    ensures Addr(s, i, Pos(bn)) in o
    ensures Owns(g, WriteData(s, i, bn, at, data, log), o)
  {
    WriteAddr(g, s, o, i, bn, at, data, log, i, 0);
    var t := WriteData(s, i, bn, at, data, log);
    forall c | c in o ensures Holds(g, t, o[c], c) {
      WriteAddr(g, s, o, i, bn, at, data, log, o[c].i, o[c].k);
    }
    forall j: nat, m: nat | j < g.ninodes && m < POSITIONS ensures Addr(t, j, m) == Addr(s, j, m) {
      WriteAddr(g, s, o, i, bn, at, data, log, j, m);
    }
  }

  // What an operation on one inode leaves alone.

  /** Nothing about any inode but `i` differs between `s` and `t`. */
  ghost predicate OthersKept(g: Geometry, s: Fs, t: Fs, i: nat)
    requires Shape(g, s) && Shape(g, t)
  {
    && (forall j: nat :: j < g.ninodes && j != i ==> t.inodes[j] == s.inodes[j] && t.disk[j] == s.disk[j])
    && (forall j: nat, k: nat {:trigger Addr(t, j, k)} :: j < g.ninodes && j != i && k < POSITIONS ==> Addr(t, j, k) == Addr(s, j, k))
    && (forall j: nat, p: nat {:trigger FileByte(t, j, p)} :: j < g.ninodes && j != i && p < MAXBYTES ==> FileByte(t, j, p) == FileByte(s, j, p))
  }

  /** `t` differs from `s` at most in that empty positions of inode `i` were filled. */
  ghost predicate Grown(g: Geometry, s: Fs, t: Fs, i: nat)
    requires Shape(g, s) && Shape(g, t) && i < g.ninodes
  {
    && OthersKept(g, s, t, i)
    && t.disk == s.disk
    && t.inodes[i].(addrs := s.inodes[i].addrs) == s.inodes[i]
    && (forall k: nat {:trigger Addr(t, i, k)} :: k < POSITIONS && Addr(s, i, k) != 0 ==> Addr(t, i, k) == Addr(s, i, k))
    && (forall p: nat {:trigger FileByte(t, i, p)} :: p < MAXBYTES && Addr(s, i, Pos(BlockOf(p))) != 0 ==> FileByte(t, i, p) == FileByte(s, i, p))
  }

  /** Every block that differs between `s` and `t` was given to log_write, except those of `x`: data
      and indirect blocks, the bitmap block of every bit, the inode block of every dinode. */
  ghost predicate Recorded(g: Geometry, s: Fs, t: Fs, x: set<int>)
    requires Shape(g, s) && Shape(g, t)
  {
    && s.logged <= t.logged
    && (forall b :: 0 <= b < g.size && t.blocks[b] != s.blocks[b] ==> b in t.logged || b in x)
    && (forall b :: 0 <= b < g.size && t.used[b] != s.used[b] ==> g.BBlock(b) in t.logged)
    && (forall j :: 0 <= j < g.ninodes && t.disk[j] != s.disk[j] ==> g.IBlock(j) in t.logged)
  }

  lemma RecordedTwice(g: Geometry, s: Fs, t: Fs, u: Fs, x: set<int>)
    requires Shape(g, s) && Shape(g, t) && Shape(g, u)
    requires Recorded(g, s, t, {}) && Recorded(g, t, u, x)
    ensures Recorded(g, s, u, x)
  {
  }

  lemma AttachRecorded(g: Geometry, s: Fs, o: map<int, Place>, i: nat, k: nat, b: int)
    requires CanAttach(g, s, o, i, k, b)
    ensures Shape(g, Attach(g, s, o, i, k, b)) && Recorded(g, s, Attach(g, s, o, i, k, b), {})
  {
    AttachAddr(g, s, o, i, k, b, i, k);
  }

  lemma AttachGrown(g: Geometry, s: Fs, o: map<int, Place>, i: nat, k: nat, b: int)
    requires CanAttach(g, s, o, i, k, b)
    ensures Shape(g, Attach(g, s, o, i, k, b)) && Grown(g, s, Attach(g, s, o, i, k, b), i)
  {
    var t := Attach(g, s, o, i, k, b);
    AttachAddr(g, s, o, i, k, b, i, k);
    forall j: nat, m: nat | j < g.ninodes && m < POSITIONS && (j, m) != (i, k) ensures Addr(t, j, m) == Addr(s, j, m) {
      AttachAddr(g, s, o, i, k, b, j, m);
    }
    forall j: nat, p: nat | j < g.ninodes && p < MAXBYTES && (j != i || Pos(BlockOf(p)) != k)
      ensures FileByte(t, j, p) == FileByte(s, j, p)
    {
      AttachByte(g, s, o, i, k, b, j, p);
    }
  }

  lemma GrownTwice(g: Geometry, s: Fs, t: Fs, u: Fs, i: nat)
    requires Shape(g, s) && Shape(g, t) && Shape(g, u) && i < g.ninodes
    requires Grown(g, s, t, i) && Grown(g, t, u, i)
    ensures Grown(g, s, u, i)
  {
  }

  /** Filling an empty position, all consequences together. */
  lemma Attached(g: Geometry, s: Fs, o: map<int, Place>, i: nat, k: nat, b: int)
    requires CanAttach(g, s, o, i, k, b)
    ensures var t := Attach(g, s, o, i, k, b);
            && Owns(g, t, o[b := Place(i, k)]) && Grown(g, s, t, i) && Addr(t, i, k) == b && Recorded(g, s, t, {})
            && forall m: nat :: m < POSITIONS && m != k ==> Addr(t, i, m) == Addr(s, i, m)
  {
    AttachOwns(g, s, o, i, k, b);
    AttachGrown(g, s, o, i, k, b);
    AttachRecorded(g, s, o, i, k, b);
    var t := Attach(g, s, o, i, k, b);
    forall m: nat | m < POSITIONS ensures Addr(t, i, m) == if m == k then b else Addr(s, i, m) {
      AttachAddr(g, s, o, i, k, b, i, m);
    }
  }

  /** Every block is in use. */
  ghost predicate DiskFull(s: Fs) {
    forall c :: 0 <= c < |s.used| ==> s.used[c]
  }

  /** The effect of looking up, and if need be allocating, block `bn` of file `i`. */
  ghost predicate BlockMapped(g: Geometry, s: Fs, t: Fs, i: nat, bn: nat)
    requires Shape(g, s) && Shape(g, t) && i < g.ninodes && bn < MAXFILE
  {
    && Grown(g, s, t, i)
    && (Addr(s, i, Pos(bn)) != 0 ==> t == s)
    && (Addr(t, i, Pos(bn)) == 0 ==> DiskFull(t))
    && (forall m: nat {:trigger Addr(t, i, m)} :: m < POSITIONS && m != Pos(bn) && m != NDIRECT ==> Addr(t, i, m) == Addr(s, i, m))
    && t.logged <= s.logged + BmapLogs(g, s, t, i, bn)
    && Recorded(g, s, t, {})
  }

  /** The blocks that a call of bmap may log: the new data block and its bitmap
      block, the indirect block, and the latter's bitmap block if it is new. */
  ghost function BmapLogs(g: Geometry, s: Fs, t: Fs, i: nat, bn: nat): (r: set<int>)
    requires Shape(g, s) && Shape(g, t) && i < g.ninodes && bn < MAXFILE
  {
    var a, ind := Addr(t, i, Pos(bn)), Addr(t, i, NDIRECT);
    (if a != Addr(s, i, Pos(bn)) then {a, g.BBlock(a)} else {}) + (if ind != 0 then {ind, g.BBlock(ind)} else {})
  }

  /** Filling the empty position of a data block is what bmap promises. */
  lemma BlockAttached(g: Geometry, s: Fs, o: map<int, Place>, i: nat, bn: nat, b: int)
    requires bn < MAXFILE && CanAttach(g, s, o, i, Pos(bn), b)
    ensures var t := Attach(g, s, o, i, Pos(bn), b);
            Owns(g, t, o[b := Place(i, Pos(bn))]) && BlockMapped(g, s, t, i, bn) && Addr(t, i, Pos(bn)) == b
  {
    Attached(g, s, o, i, Pos(bn), b);
    AttachLogs(g, s, o, i, bn, b);
  }

  lemma AttachEntry(g: Geometry, s: Fs, o: map<int, Place>, i: nat, bn: nat, b: int)
    requires NDIRECT <= bn < MAXFILE && CanAttach(g, s, o, i, Pos(bn), b)
    ensures var t, ind := Take(g, s, b), s.inodes[i].addrs[NDIRECT];
            && 0 <= ind < |t.blocks| && t.blocks[ind].Full()
            && Attach(g, s, o, i, Pos(bn), b) ==
               t.(blocks := t.blocks[ind := Block(t.blocks[ind].words[bn - NDIRECT := b])], logged := t.logged + {ind})
  {
    assert Addr(s, i, NDIRECT) in o;
  }

  lemma AttachLogs(g: Geometry, s: Fs, o: map<int, Place>, i: nat, bn: nat, b: int)
    requires bn < MAXFILE && CanAttach(g, s, o, i, Pos(bn), b)
    ensures var t := Attach(g, s, o, i, Pos(bn), b);
            Shape(g, t) && t.logged <= s.logged + BmapLogs(g, s, t, i, bn)
  {
    AttachAddr(g, s, o, i, Pos(bn), b, i, Pos(bn));
    AttachAddr(g, s, o, i, Pos(bn), b, i, NDIRECT);
  }

  /** Allocating the indirect block first, then the data block. */
  lemma MappedThrough(g: Geometry, s: Fs, t: Fs, u: Fs, i: nat, bn: nat)
    requires Shape(g, s) && Shape(g, t) && Shape(g, u) && i < g.ninodes && NDIRECT <= bn < MAXFILE
    requires Grown(g, s, t, i) && (Addr(s, i, NDIRECT) != 0 ==> t == s) && Addr(t, i, NDIRECT) != 0 && Recorded(g, s, t, {})
    requires forall m: nat {:trigger Addr(t, i, m)} :: m < POSITIONS && m != NDIRECT ==> Addr(t, i, m) == Addr(s, i, m)
    requires t.logged <= s.logged + {Addr(t, i, NDIRECT), g.BBlock(Addr(t, i, NDIRECT))}
    requires BlockMapped(g, t, u, i, bn)
    ensures BlockMapped(g, s, u, i, bn)
  {
    GrownTwice(g, s, t, u, i);
    RecordedTwice(g, s, t, u, {});
    assert Addr(u, i, NDIRECT) == Addr(t, i, NDIRECT);
    assert Addr(t, i, Pos(bn)) == Addr(s, i, Pos(bn));
    assert Addr(s, i, NDIRECT) == 0 ==> Addr(s, i, Pos(bn)) == 0;
    forall m: nat | m < POSITIONS && m != Pos(bn) && m != NDIRECT ensures Addr(u, i, m) == Addr(s, i, m) {
      assert Addr(t, i, m) == Addr(s, i, m);
    }
  }

  // Progress of a write, chunk by chunk.

  function Max(a: nat, b: nat): (m: nat) {
    if a < b then b else a
  }

  /** What the positions of inode `i` hold stays there. */
  ghost predicate AddrsKept(g: Geometry, s: Fs, t: Fs, i: nat)
    requires Shape(g, s) && Shape(g, t) && i < g.ninodes
  {
    forall k: nat {:trigger Addr(t, i, k)} :: k < POSITIONS && Addr(s, i, k) != 0 ==> Addr(t, i, k) == Addr(s, i, k)
  }

  /** `t` is `s` after `data` was written at `off` to file `i`, whose size field
      and on-disk inode are still the old ones. */
  ghost predicate Written(g: Geometry, s: Fs, t: Fs, i: nat, off: nat, data: seq<Byte>)
    requires Shape(g, s) && Shape(g, t) && i < g.ninodes && s.inodes[i].size <= MAXBYTES
  {
    && off + |data| <= MAXBYTES
    && OthersKept(g, s, t, i)
    && t.disk == s.disk
    && t.inodes[i].(addrs := s.inodes[i].addrs) == s.inodes[i]
    && AddrsKept(g, s, t, i)
    && Mapped(t, i, Max(s.inodes[i].size, off + |data|))
    && forall p: nat {:trigger FileByte(t, i, p)} :: p < Max(s.inodes[i].size, off + |data|) ==>
         FileByte(t, i, p) == if off <= p < off + |data| then data[p - off] else FileByte(s, i, p)
  }

  lemma WrittenMapped(g: Geometry, s: Fs, t: Fs, u: Fs, i: nat, off: nat, data: seq<Byte>, bn: nat)
    requires Shape(g, s) && Shape(g, t) && Shape(g, u) && i < g.ninodes && s.inodes[i].size <= MAXBYTES && bn < MAXFILE
    requires Written(g, s, t, i, off, data) && BlockMapped(g, t, u, i, bn)
    ensures Written(g, s, u, i, off, data)
  {
    var z := Max(s.inodes[i].size, off + |data|);
    forall b: nat | b < MAXFILE && Start(b) < z ensures Addr(u, i, Pos(b)) != 0 {
      assert Addr(t, i, Pos(b)) != 0;
    }
    forall p: nat | p < z ensures FileByte(u, i, p) == FileByte(t, i, p) {
      assert Start(BlockOf(p)) <= p;
      assert Addr(t, i, Pos(BlockOf(p))) != 0;
    }
  }

  lemma ChunkByte(g: Geometry, t: Fs, o: map<int, Place>, i: nat, pos: nat, chunk: seq<Byte>, log: bool, bn: nat, at: nat, u: Fs, j: nat, p: nat)
    requires bn == BlockOf(pos) && at == Within(pos) && CanWrite(g, t, o, i, bn, at, chunk) && j < g.ninodes && p < MAXBYTES
    requires Addr(t, i, Pos(bn)) in o && u == WriteData(t, i, bn, at, chunk, log)
    ensures Shape(g, u) && FileByte(u, j, p) == if j == i && pos <= p < pos + |chunk| then chunk[p - pos] else FileByte(t, j, p)
  {
    assert Start(bn) + at == pos;
    WriteByte(g, t, o, i, bn, at, chunk, log, j, p);
  }

  /** Copying into a data block leaves all addresses and all other files alone. */
  lemma WriteKept(g: Geometry, t: Fs, o: map<int, Place>, i: nat, bn: nat, at: nat, data: seq<Byte>, log: bool)
    requires CanWrite(g, t, o, i, bn, at, data)
    ensures Addr(t, i, Pos(bn)) in o
    ensures var u := WriteData(t, i, bn, at, data, log);
            Shape(g, u) && OthersKept(g, t, u, i) && forall k: nat {:trigger Addr(u, i, k)} :: k < POSITIONS ==> Addr(u, i, k) == Addr(t, i, k)
  {
    WriteOwns(g, t, o, i, bn, at, data, log);
    var u := WriteData(t, i, bn, at, data, log);
    forall j: nat, m: nat | j < g.ninodes && m < POSITIONS ensures Addr(u, j, m) == Addr(t, j, m) {
      WriteAddr(g, t, o, i, bn, at, data, log, j, m);
    }
    forall j: nat, p: nat | j < g.ninodes && j != i && p < MAXBYTES ensures FileByte(u, j, p) == FileByte(t, j, p) {
      WriteByte(g, t, o, i, bn, at, data, log, j, p);
    }
  }

  /** And no file gets a hole. */
  lemma WriteValid(g: Geometry, t: Fs, o: map<int, Place>, i: nat, bn: nat, at: nat, data: seq<Byte>, log: bool)
    requires Valid(g, t, o) && CanWrite(g, t, o, i, bn, at, data)
    ensures Addr(t, i, Pos(bn)) in o
    ensures Valid(g, WriteData(t, i, bn, at, data, log), o)
  {
    WriteOwns(g, t, o, i, bn, at, data, log);
    var u := WriteData(t, i, bn, at, data, log);
    forall j: nat, m: nat | j < g.ninodes && m < POSITIONS ensures Addr(u, j, m) == Addr(t, j, m) {
      WriteAddr(g, t, o, i, bn, at, data, log, j, m);
    }
    forall j: nat | j < g.ninodes ensures Mapped(u, j, u.inodes[j].size) {
      assert Mapped(t, j, t.inodes[j].size);
    }
  }

  lemma WrittenChunk(g: Geometry, s: Fs, t: Fs, o: map<int, Place>, i: nat, off: nat, pos: nat, data: seq<Byte>, chunk: seq<Byte>, log: bool,
                     bn: nat, at: nat)
    requires Owns(g, t, o) && Shape(g, s) && i < g.ninodes && s.inodes[i].size <= MAXBYTES
    requires Written(g, s, t, i, off, data) && pos == off + |data| && pos + |chunk| <= MAXBYTES && bn == BlockOf(pos) && at == Within(pos)
    requires 0 < |chunk| && CanWrite(g, t, o, i, bn, at, chunk)
    ensures Addr(t, i, Pos(bn)) in o
    ensures var u := WriteData(t, i, bn, at, chunk, log);
            Owns(g, u, o) && Written(g, s, u, i, off, data + chunk)
  {
    WriteOwns(g, t, o, i, bn, at, chunk, log);
    var u := WriteData(t, i, bn, at, chunk, log);
    forall j: nat, m: nat | j < g.ninodes && m < POSITIONS ensures Addr(u, j, m) == Addr(t, j, m) {
      WriteAddr(g, t, o, i, bn, at, chunk, log, j, m);
    }
    forall j: nat, p: nat | j < g.ninodes && p < MAXBYTES
      ensures FileByte(u, j, p) == if j == i && pos <= p < pos + |chunk| then chunk[p - pos] else FileByte(t, j, p)
    {
      ChunkByte(g, t, o, i, pos, chunk, log, bn, at, u, j, p);
    }
    WrittenFurther(g, s, t, u, i, off, pos, data, chunk, bn);
  }

  lemma WrittenFurther(g: Geometry, s: Fs, t: Fs, u: Fs, i: nat, off: nat, pos: nat, data: seq<Byte>, chunk: seq<Byte>, bn: nat)
    requires Shape(g, s) && Shape(g, t) && Shape(g, u) && i < g.ninodes && s.inodes[i].size <= MAXBYTES
    requires Written(g, s, t, i, off, data) && pos == off + |data| && bn == BlockOf(pos)
    requires Within(pos) + |chunk| <= BSIZE && pos + |chunk| <= MAXBYTES
    requires u.inodes == t.inodes && u.disk == t.disk && bn < MAXFILE && Addr(t, i, Pos(bn)) != 0
    requires forall j: nat, m: nat {:trigger Addr(u, j, m)} :: j < g.ninodes && m < POSITIONS ==> Addr(u, j, m) == Addr(t, j, m)
    requires forall j: nat, p: nat {:trigger FileByte(u, j, p)} :: j < g.ninodes && p < MAXBYTES ==>
               FileByte(u, j, p) == if j == i && pos <= p < pos + |chunk| then chunk[p - pos] else FileByte(t, j, p)
    ensures Written(g, s, u, i, off, data + chunk)
  {
    var all := data + chunk;
    assert off + |all| == pos + |chunk|;
    forall p: nat | p < Max(s.inodes[i].size, off + |all|)
      ensures FileByte(u, i, p) == if off <= p < off + |all| then all[p - off] else FileByte(s, i, p)
    {
      if pos <= p < pos + |chunk| {
        assert all[p - off] == chunk[p - pos];
      } else {
        assert off <= p < pos ==> all[p - off] == data[p - off];
      }
    }
    forall b: nat | b < MAXFILE && Start(b) < Max(s.inodes[i].size, off + |all|) ensures Addr(u, i, Pos(b)) != 0 {
      assert b == bn || Start(b) < Max(s.inodes[i].size, off + |data|);
    }
  }

  /** The end of writei: the size grows to cover what was written, and the inode
      goes to disk. */
  ghost function Finished(g: Geometry, t: Fs, i: nat, end: nat): (u: Fs)
    requires Shape(g, t) && i < g.ninodes
  {
    var ino := t.inodes[i].(size := Max(t.inodes[i].size, end));
    t.(inodes := t.inodes[i := ino], disk := t.disk[i := ino], logged := t.logged + {g.IBlock(i)})
  }

  lemma FinishedAddr(g: Geometry, t: Fs, i: nat, end: nat, j: nat, k: nat)
    requires Shape(g, t) && i < g.ninodes && j < g.ninodes && k < POSITIONS
    ensures Shape(g, Finished(g, t, i, end)) && Addr(Finished(g, t, i, end), j, k) == Addr(t, j, k)
  {
  }

  lemma FinishedOwns(g: Geometry, t: Fs, o: map<int, Place>, i: nat, end: nat)
    requires Owns(g, t, o) && i < g.ninodes
    ensures Owns(g, Finished(g, t, i, end), o)
  {
    var u := Finished(g, t, i, end);
    forall j: nat, k: nat | j < g.ninodes && k < POSITIONS ensures Addr(u, j, k) == Addr(t, j, k) {
      FinishedAddr(g, t, i, end, j, k);
    }
    forall c | c in o ensures Holds(g, u, o[c], c) {
      assert Holds(g, t, o[c], c);
    }
  }

  /** The byte sequence `c` with `data` written over it at `off`. */
  function Overwrite(c: seq<Byte>, off: nat, data: seq<Byte>): (r: seq<Byte>)
    requires off <= |c|
    ensures |r| == Max(|c|, off + |data|)
  {
    c[..off] + data + if off + |data| < |c| then c[off + |data|..] else []
  }

  /** The same, when `spill` got into the last block behind `data` and the size does not count it. */
  function Smeared(c: seq<Byte>, off: nat, data: seq<Byte>, spill: seq<Byte>): (r: seq<Byte>)
    requires off <= |c|
    ensures |r| == Max(|c|, off + |data|)
  {
    Overwrite(c, off, data + spill)[..Max(|c|, off + |data|)]
  }

  /** The file is then as if `data` alone had been written exactly if the spilt bytes are behind its
      end or were there before. */
  lemma SmearShows(c: seq<Byte>, off: nat, data: seq<Byte>, spill: seq<Byte>)
    requires off <= |c|
    ensures Smeared(c, off, data, spill) == Overwrite(c, off, data) <==>
            forall k :: 0 <= k < |spill| && off + |data| + k < |c| ==> c[off + |data| + k] == spill[k]
  {
    var x, y := Smeared(c, off, data, spill), Overwrite(c, off, data);
    forall p | 0 <= p < |x|
      ensures x[p] == if off + |data| <= p < off + |data| + |spill| then spill[p - off - |data|] else y[p]
    {
      SmearedAt(c, off, data, spill, p);
    }
    forall k | 0 <= k < |spill| && off + |data| + k < |c|
      ensures x[off + |data| + k] == spill[k] && y[off + |data| + k] == c[off + |data| + k]
    {
    }
    if forall k :: 0 <= k < |spill| && off + |data| + k < |c| ==> c[off + |data| + k] == spill[k] {
      forall p | 0 <= p < |x| ensures x[p] == y[p] {
        if off + |data| <= p < off + |data| + |spill| {
          var k := p - off - |data|;
          assert c[off + |data| + k] == spill[k];
        }
      }
    }
  }

  lemma SmearedAt(c: seq<Byte>, off: nat, data: seq<Byte>, spill: seq<Byte>, p: nat)
    requires off <= |c| && p < Max(|c|, off + |data|)
    ensures Smeared(c, off, data, spill)[p] ==
            if off + |data| <= p < off + |data| + |spill| then spill[p - off - |data|] else Overwrite(c, off, data)[p]
  {
  }

  lemma SmearedNothing(c: seq<Byte>, off: nat, data: seq<Byte>)
    requires off <= |c|
    ensures Smeared(c, off, data, []) == Overwrite(c, off, data)
  {
    assert data + [] == data;
  }

  lemma OverwriteNothing(c: seq<Byte>, off: nat, data: seq<Byte>)
    requires off <= |c| && data == []
    ensures Overwrite(c, off, data) == c
  {
  }

  lemma OverwriteTwice(c: seq<Byte>, off: nat, a: seq<Byte>, b: seq<Byte>)
    requires off <= |c|
    ensures Overwrite(Overwrite(c, off, a), off + |a|, b) == Overwrite(c, off, a + b)
  {
  }

  lemma SmearedTwice(c: seq<Byte>, off: nat, a: seq<Byte>, b: seq<Byte>, spill: seq<Byte>)
    requires off <= |c|
    ensures Smeared(Overwrite(c, off, a), off + |a|, b, spill) == Smeared(c, off, a + b, spill)
  {
    OverwriteTwice(c, off, a, b + spill);
    assert a + (b + spill) == a + b + spill;
  }

  /** What was written is what a read of the same place returns. */
  lemma ReadBack(g: Geometry, s: Fs, u: Fs, i: nat, off: nat, data: seq<Byte>, spill: seq<Byte>)
    requires Shape(g, s) && Shape(g, u) && i < g.ninodes && s.inodes[i].size <= MAXBYTES
    requires FileWritten(g, s, u, i, off, data, spill)
    ensures u.inodes[i].size <= MAXBYTES && off + |data| <= |Contents(u, i)| && Contents(u, i)[off..off + |data|] == data
  {
    var c := Contents(s, i);
    forall k | 0 <= k < |data| ensures Contents(u, i)[off + k] == data[k] {
      SmearedAt(c, off, data, spill, off + k);
    }
  }

  /** The state that a write leaves. */
  ghost predicate FileWritten(g: Geometry, s: Fs, u: Fs, i: nat, off: nat, data: seq<Byte>, spill: seq<Byte>)
    requires Shape(g, s) && Shape(g, u) && i < g.ninodes && s.inodes[i].size <= MAXBYTES
  {
    var size := Max(s.inodes[i].size, off + |data|);
    && off + |data| <= MAXBYTES && off <= s.inodes[i].size
    && OthersKept(g, s, u, i) && AddrsKept(g, s, u, i)
    && u.inodes[i] == s.inodes[i].(size := size, addrs := u.inodes[i].addrs)
    && u.disk[i] == u.inodes[i]
    && Contents(u, i) == Smeared(Contents(s, i), off, data, spill)
  }

  lemma FinishedKept(g: Geometry, t: Fs, i: nat, end: nat)
    requires Shape(g, t) && i < g.ninodes
    ensures Shape(g, Finished(g, t, i, end)) && OthersKept(g, t, Finished(g, t, i, end), i)
    ensures forall k: nat {:trigger Addr(Finished(g, t, i, end), i, k)} :: k < POSITIONS ==> Addr(Finished(g, t, i, end), i, k) == Addr(t, i, k)
    ensures forall p: nat {:trigger FileByte(Finished(g, t, i, end), i, p)} ::
      p < MAXBYTES ==> FileByte(Finished(g, t, i, end), i, p) == FileByte(t, i, p)
  {
    var u := Finished(g, t, i, end);
    forall j: nat, k: nat | j < g.ninodes && k < POSITIONS ensures Addr(u, j, k) == Addr(t, j, k) {
      FinishedAddr(g, t, i, end, j, k);
    }
    forall j: nat, p: nat | j < g.ninodes && p < MAXBYTES ensures FileByte(u, j, p) == FileByte(t, j, p) {
      FinishedAddr(g, t, i, end, j, Pos(BlockOf(p)));
    }
  }

  lemma FinishedMapped(g: Geometry, s: Fs, t: Fs, i: nat, off: nat, data: seq<Byte>, end: nat, j: nat)
    requires Shape(g, s) && Shape(g, t) && i < g.ninodes && j < g.ninodes && end <= off + |data|
    requires s.inodes[i].size <= MAXBYTES && Written(g, s, t, i, off, data) && Mapped(s, j, s.inodes[j].size)
    ensures var u := Finished(g, t, i, end);
            Shape(g, u) && Mapped(u, j, u.inodes[j].size)
  {
    var u := Finished(g, t, i, end);
    FinishedKept(g, t, i, end);
    forall b: nat | b < MAXFILE && Start(b) < u.inodes[j].size ensures Addr(u, j, Pos(b)) != 0 {
      if j == i {
        assert Addr(t, i, Pos(b)) != 0;
      } else {
        assert Addr(s, j, Pos(b)) != 0;
        assert Addr(t, j, Pos(b)) == Addr(s, j, Pos(b));
      }
    }
  }

  lemma FinishedContents(g: Geometry, s: Fs, t: Fs, i: nat, off: nat, data: seq<Byte>, end: nat, spill: seq<Byte>)
    requires Shape(g, s) && Shape(g, t) && i < g.ninodes && end == off + |data|
    requires s.inodes[i].size <= MAXBYTES && Written(g, s, t, i, off, data + spill) && off <= s.inodes[i].size
    ensures var u := Finished(g, t, i, end);
            Shape(g, u) && FileWritten(g, s, u, i, off, data, spill)
  {
    var u := Finished(g, t, i, end);
    FinishedKept(g, t, i, end);
    assert OthersKept(g, s, u, i) by {
      KeptTwice(g, s, t, u, i);
    }
    var was, now, all := Contents(s, i), Contents(u, i), data + spill;
    forall p: nat | p < |now| ensures now[p] == if off <= p < off + |all| then all[p - off] else was[p] {
      assert FileByte(u, i, p) == FileByte(t, i, p);
    }
    Overwritten(was, now, off, data, spill);
  }

  lemma Overwritten(was: seq<Byte>, now: seq<Byte>, off: nat, data: seq<Byte>, spill: seq<Byte>)
    requires off <= |was| && |now| == Max(|was|, off + |data|)
    requires forall p: nat :: p < |now| ==> now[p] == if off <= p < off + |data + spill| then (data + spill)[p - off] else was[p]
    ensures now == Smeared(was, off, data, spill)
  {
  }

  lemma KeptTwice(g: Geometry, s: Fs, t: Fs, u: Fs, i: nat)
    requires Shape(g, s) && Shape(g, t) && Shape(g, u)
    requires OthersKept(g, s, t, i) && OthersKept(g, t, u, i)
    ensures OthersKept(g, s, u, i)
  {
    forall j: nat, k: nat | j < g.ninodes && j != i && k < POSITIONS ensures Addr(u, j, k) == Addr(s, j, k) {
      assert Addr(t, j, k) == Addr(s, j, k);
    }
    forall j: nat, p: nat | j < g.ninodes && j != i && p < MAXBYTES ensures FileByte(u, j, p) == FileByte(s, j, p) {
      assert FileByte(t, j, p) == FileByte(s, j, p);
    }
  }

  lemma WriteFinished(g: Geometry, s: Fs, t: Fs, o: map<int, Place>, o': map<int, Place>, i: nat, off: nat, data: seq<Byte>,
                      end: nat, spill: seq<Byte>)
    requires Valid(g, s, o) && Owns(g, t, o') && i < g.ninodes && end == off + |data|
    requires s.inodes[i].size <= MAXBYTES && Written(g, s, t, i, off, data + spill) && off <= s.inodes[i].size
    ensures var u := Finished(g, t, i, end);
            Valid(g, u, o') && FileWritten(g, s, u, i, off, data, spill)
  {
    var u, all := Finished(g, t, i, end), data + spill;
    FinishedOwns(g, t, o', i, end);
    FinishedContents(g, s, t, i, off, data, end, spill);
    forall j: nat | j < g.ninodes ensures Mapped(u, j, u.inodes[j].size) {
      FinishedMapped(g, s, t, i, off, all, end, j);
    }
  }

  lemma FinishedRecorded(g: Geometry, s: Fs, t: Fs, i: nat, end: nat, x: set<int>)
    requires Shape(g, s) && Shape(g, t) && i < g.ninodes && Recorded(g, s, t, x)
    ensures Shape(g, Finished(g, t, i, end)) && Recorded(g, s, Finished(g, t, i, end), x)
  {
  }

  // Log space used by a write.

  ghost function IndirectLogs(g: Geometry, s: Fs, i: nat): (r: set<int>)
    requires Shape(g, s) && i < g.ninodes
  {
    var ind := Addr(s, i, NDIRECT);
    if ind != 0 then {ind, g.BBlock(ind)} else {}
  }

  /** What is logged so far is at least all that changed since `s`, except in `x`, and at most the
      data blocks `ds`, bitmap blocks `bs` of new ones, and the indirect block with its bitmap block. */
  ghost predicate Logs(g: Geometry, s: Fs, t: Fs, i: nat, ds: set<int>, bs: set<int>, x: set<int>)
    requires Shape(g, s) && Shape(g, t) && i < g.ninodes
  {
    Recorded(g, s, t, x) && t.logged <= ds + bs + IndirectLogs(g, t, i)
  }

  lemma LogsMapped(g: Geometry, s: Fs, t: Fs, u: Fs, i: nat, bn: nat, ds: set<int>, bs: set<int>)
    requires Shape(g, s) && Shape(g, t) && Shape(g, u) && i < g.ninodes && bn < MAXFILE
    requires Logs(g, s, t, i, ds, bs, {}) && BlockMapped(g, t, u, i, bn)
    ensures var a := Addr(u, i, Pos(bn));
            Logs(g, s, u, i, ds + {a}, if Addr(t, i, Pos(bn)) == 0 then bs + {g.BBlock(a)} else bs, {})
  {
    RecordedTwice(g, s, t, u, {});
    assert Addr(t, i, NDIRECT) != 0 ==> Addr(u, i, NDIRECT) == Addr(t, i, NDIRECT);
  }

  /** The blocks that file `i` had in `s` from number `nb` on have not been logged since. */
  ghost predicate Untouched(g: Geometry, s: Fs, t: Fs, i: nat, nb: nat) {
    && i < g.ninodes && Shape(g, s) && Shape(g, t)
    && forall bn: nat {:trigger Pos(bn)} :: nb <= bn < MAXFILE && Addr(s, i, Pos(bn)) != 0 && Addr(s, i, Pos(bn)) in t.logged ==>
         Addr(s, i, Pos(bn)) in s.logged
  }

  lemma MetaBelow(g: Geometry, b: int)
    requires g.Valid() && 0 <= b < g.size
    ensures g.BBlock(b) < g.data
  {
  }

  lemma InodeBelow(g: Geometry, i: int)
    requires g.Valid() && 0 <= i < g.ninodes
    ensures g.IBlock(i) < g.data
  {
    assert g.IBlock(i) <= g.IBlock(g.ninodes - 1);
    assert g.bmapstart <= g.BBlock(g.size - 1);
  }

  /** bmap logs new blocks, the indirect block and metadata only. */
  lemma BmapLogsOthers(g: Geometry, t: Fs, u: Fs, o: map<int, Place>, i: nat, bn: nat, b: nat, x: int)
    requires Shape(g, t) && Owns(g, u, o) && i < g.ninodes && bn < MAXFILE && b < MAXFILE && BlockMapped(g, t, u, i, bn)
    requires Addr(t, i, Pos(b)) == Addr(u, i, Pos(b)) == x != 0
    ensures x !in BmapLogs(g, t, u, i, bn)
  {
    var a, ind := Addr(u, i, Pos(bn)), Addr(u, i, NDIRECT);
    assert o[x] == Place(i, Pos(b));
    if ind != 0 {
      assert o[ind] == Place(i, NDIRECT);
      MetaBelow(g, ind);
    }
    if a != 0 {
      assert o[a] == Place(i, Pos(bn));
      MetaBelow(g, a);
    }
  }

  lemma MappedUntouched(g: Geometry, s: Fs, t: Fs, u: Fs, o: map<int, Place>, i: nat, bn: nat, nb: nat)
    requires Untouched(g, s, t, i, nb) && Owns(g, u, o) && bn < MAXFILE && BlockMapped(g, t, u, i, bn)
    requires AddrsKept(g, s, t, i) && AddrsKept(g, s, u, i)
    ensures Untouched(g, s, u, i, nb)
  {
    forall b: nat | nb <= b < MAXFILE && Addr(s, i, Pos(b)) != 0 && Addr(s, i, Pos(b)) in u.logged ensures Addr(s, i, Pos(b)) in s.logged {
      var x := Addr(s, i, Pos(b));
      assert Addr(t, i, Pos(b)) == x && Addr(u, i, Pos(b)) == x;
      BmapLogsOthers(g, t, u, o, i, bn, b, x);
    }
  }

  /** Copying logs one block. */
  lemma ChunkUntouched(g: Geometry, s: Fs, t: Fs, o: map<int, Place>, i: nat, bn: nat, at: nat, data: seq<Byte>, log: bool, nb: nat)
    requires Untouched(g, s, t, i, bn) && CanWrite(g, t, o, i, bn, at, data) && AddrsKept(g, s, t, i) && nb == (if log then bn + 1 else bn)
    ensures Addr(t, i, Pos(bn)) in o && Untouched(g, s, WriteData(t, i, bn, at, data, log), i, nb)
  {
    WriteAddr(g, t, o, i, bn, at, data, log, i, NDIRECT);
    var u := WriteData(t, i, bn, at, data, log);
    forall b: nat | nb <= b < MAXFILE && Addr(s, i, Pos(b)) != 0 && Addr(s, i, Pos(b)) in u.logged ensures Addr(s, i, Pos(b)) in s.logged {
      assert Addr(t, i, Pos(b)) == Addr(s, i, Pos(b));
      assert o[Addr(t, i, Pos(b))] == Place(i, Pos(b)) && o[Addr(t, i, Pos(bn))] == Place(i, Pos(bn));
    }
  }

  lemma FinishedUntouched(g: Geometry, s: Fs, t: Fs, o: map<int, Place>, i: nat, end: nat, nb: nat)
    requires Untouched(g, s, t, i, nb) && Owns(g, s, o)
    ensures Untouched(g, s, Finished(g, t, i, end), i, nb)
  {
    InodeBelow(g, i);
    forall b: nat | nb <= b < MAXFILE && Addr(s, i, Pos(b)) != 0 ensures Addr(s, i, Pos(b)) >= g.data {
      assert Addr(s, i, Pos(b)) in o;
    }
  }

  /** A chunk that was copied into the block of byte `p` without being logged. */
  ghost function Unlogged(g: Geometry, t: Fs, i: nat, p: nat, spill: seq<Byte>): (x: set<int>)
    requires Shape(g, t) && i < g.ninodes
  {
    if spill == [] || p >= MAXBYTES then {} else {Addr(t, i, Pos(BlockOf(p)))}
  }

  lemma FinishedUnlogged(g: Geometry, t: Fs, i: nat, end: nat, p: nat, spill: seq<Byte>)
    requires Shape(g, t) && i < g.ninodes
    ensures Shape(g, Finished(g, t, i, end)) && Unlogged(g, Finished(g, t, i, end), i, p, spill) == Unlogged(g, t, i, p, spill)
  {
    if p < MAXBYTES {
      FinishedAddr(g, t, i, end, i, Pos(BlockOf(p)));
    }
  }

  lemma LogsChunk(g: Geometry, s: Fs, t: Fs, o: map<int, Place>, i: nat, bn: nat, at: nat, data: seq<Byte>, log: bool,
                  ds: set<int>, bs: set<int>)
    requires CanWrite(g, t, o, i, bn, at, data) && Shape(g, s)
    requires Logs(g, s, t, i, ds, bs, {}) && Addr(t, i, Pos(bn)) in ds
    ensures Addr(t, i, Pos(bn)) in o && Shape(g, WriteData(t, i, bn, at, data, log))
    ensures Logs(g, s, WriteData(t, i, bn, at, data, log), i, ds, bs, if log then {} else {Addr(t, i, Pos(bn))})
  {
    WriteAddr(g, t, o, i, bn, at, data, log, i, NDIRECT);
  }

  /** The state of the loop of writei after `data`: what it wrote, and what it logged since `s`. */
  ghost predicate Writing(g: Geometry, s: Fs, t: Fs, o: map<int, Place>, i: nat, off: nat, data: seq<Byte>,
                          ds: set<int>, bs: set<int>, x: set<int>) {
    && i < g.ninodes && Shape(g, s) && s.inodes[i].size <= MAXBYTES
    && Owns(g, t, o) && Written(g, s, t, i, off, data) && Logs(g, s, t, i, ds, bs, x)
  }

  lemma WritingStarts(g: Geometry, s: Fs, o: map<int, Place>, i: nat, off: nat, data: seq<Byte>)
    requires Valid(g, s, o) && i < g.ninodes && off <= s.inodes[i].size && data == []
    ensures Writing(g, s, s, o, i, off, data, s.logged, {}, {})
  {
    assert Mapped(s, i, s.inodes[i].size);
  }

  /** The state of the loop when it stops after `data`, at file offset `pos`. */
  ghost predicate Spilt(g: Geometry, s: Fs, t: Fs, o: map<int, Place>, i: nat, off: nat, pos: nat, data: seq<Byte>, spill: seq<Byte>,
                        ds: set<int>, bs: set<int>) {
    && i < g.ninodes && Shape(g, t) && pos == off + |data|
    && Writing(g, s, t, o, i, off, data + spill, ds, bs, Unlogged(g, t, i, pos, spill))
  }

  /** Copying one more chunk. */
  lemma WrittenOn(g: Geometry, s: Fs, t: Fs, o: map<int, Place>, i: nat, off: nat, pos: nat, data: seq<Byte>, chunk: seq<Byte>,
                  log: bool, bn: nat, nb: nat, ds: set<int>, bs: set<int>) returns (u: Fs)
    requires Writing(g, s, t, o, i, off, data, ds, bs, {}) && pos == off + |data| && pos + |chunk| <= MAXBYTES
    requires 0 < |chunk| && Within(pos) + |chunk| <= BSIZE
    requires bn == BlockOf(pos) && Addr(t, i, Pos(bn)) != 0 && Addr(t, i, Pos(bn)) in ds
    requires Untouched(g, s, t, i, bn) && nb == if log then bn + 1 else bn
    ensures Untouched(g, s, u, i, nb) && Addr(u, i, Pos(bn)) == Addr(t, i, Pos(bn))
    ensures && Addr(t, i, Pos(bn)) in o && u == WriteData(t, i, bn, Within(pos), chunk, log)
            && if log then Writing(g, s, u, o, i, off, data + chunk, ds, bs, {}) else Spilt(g, s, u, o, i, off, pos, data, chunk, ds, bs)
  {
    var at := Within(pos);
    WrittenChunk(g, s, t, o, i, off, pos, data, chunk, log, bn, at);
    LogsChunk(g, s, t, o, i, bn, at, chunk, log, ds, bs);
    ChunkUntouched(g, s, t, o, i, bn, at, chunk, log, nb);
    WriteAddr(g, t, o, i, bn, at, chunk, log, i, Pos(bn));
    u := WriteData(t, i, bn, at, chunk, log);
    assert Unlogged(g, u, i, pos, chunk) == {Addr(t, i, Pos(bn))};
  }

  lemma NothingSpilt(g: Geometry, s: Fs, t: Fs, o: map<int, Place>, i: nat, off: nat, pos: nat, data: seq<Byte>, ds: set<int>, bs: set<int>)
    requires Writing(g, s, t, o, i, off, data, ds, bs, {}) && pos == off + |data|
    ensures Spilt(g, s, t, o, i, off, pos, data, [], ds, bs)
  {
    assert data + [] == data;
  }

  /** The state that a call of writei leaves, which wrote `data` from file offset `off` to `pos`. */
  ghost predicate WriteDone(g: Geometry, s: Fs, u: Fs, i: nat, off: nat, pos: nat, data: seq<Byte>, spill: seq<Byte>) {
    && i < g.ninodes && Shape(g, s) && Shape(g, u) && s.inodes[i].size <= MAXBYTES && pos == off + |data|
    && FileWritten(g, s, u, i, off, data, spill)
    && Recorded(g, s, u, Unlogged(g, u, i, pos, spill))
  }

  lemma WritingEnds(g: Geometry, s: Fs, t: Fs, o: map<int, Place>, o': map<int, Place>, i: nat, off: nat, pos: nat,
                    data: seq<Byte>, spill: seq<Byte>, ds: set<int>, bs: set<int>) returns (u: Fs)
    requires Valid(g, s, o) && Spilt(g, s, t, o', i, off, pos, data, spill, ds, bs) && off <= s.inodes[i].size
    ensures u == Finished(g, t, i, pos)
    ensures Valid(g, u, o') && WriteDone(g, s, u, i, off, pos, data, spill)
    ensures |u.logged| <= |ds| + |bs| + 3
    ensures u.used == t.used
  {
    u := Finished(g, t, i, pos);
    WriteFinished(g, s, t, o, o', i, off, data, pos, spill);
    FinishedRecorded(g, s, t, i, pos, Unlogged(g, t, i, pos, spill));
    FinishedUnlogged(g, t, i, pos, pos, spill);
    LogsBound(u.logged, ds, bs, IndirectLogs(g, t, i), g.IBlock(i));
  }

  /** How much of `n` bytes from byte `p` on is in the block of `p`. */
  function RoundLength(p: nat, n: nat): (m: nat)
    ensures m <= n && m <= BSIZE - Within(p) && (0 < n ==> 0 < m)
  {
    if n < BSIZE - Within(p) then n else BSIZE - Within(p)
  }

  /** Why the loop of writei stopped after `tot` bytes of `src`, at file offset `pos`, in a call that began at `start` and
      should go on to `end`; the first `good` bytes can be read. The round at which it stopped began with the call or at the
      start of a block. Its bytes cannot all be read, and those that can are in the block, or there is no block for them. */
  ghost predicate Stopped(g: Geometry, t: Fs, i: nat, pos: nat, src: seq<Byte>, good: nat, start: nat, end: nat, tot: nat, spill: seq<Byte>) {
    && i < g.ninodes && Shape(g, t) && start <= tot < end <= |src| && pos < MAXBYTES && (tot == start || Within(pos) == 0)
    && ((tot <= good < tot + RoundLength(pos, end - tot) && Addr(t, i, Pos(BlockOf(pos))) != 0 && spill == src[tot..good])
        || (DiskFull(t) && Addr(t, i, Pos(BlockOf(pos))) == 0 && spill == []))
  }

  lemma StoppedFinished(g: Geometry, t: Fs, i: nat, pos: nat, src: seq<Byte>, good: nat, start: nat, end: nat, tot: nat, spill: seq<Byte>)
    requires Stopped(g, t, i, pos, src, good, start, end, tot, spill)
    ensures Stopped(g, Finished(g, t, i, pos), i, pos, src, good, start, end, tot, spill)
  {
    FinishedAddr(g, t, i, pos, i, Pos(BlockOf(pos)));
  }

  /** How many bytes of a write of `n` at `off` are done when copying fails, of which the first `good` can be read: all in
      front of the block with the first bad one. */
  function LastRound(off: nat, n: nat, good: nat): (r: nat) {
    if good >= n then n else if Start(BlockOf(off + good)) <= off then 0 else Start(BlockOf(off + good)) - off
  }

  lemma LastRoundIs(off: nat, n: nat, good: nat, tot: nat, pos: nat)
    requires pos == off + tot && tot < n && (tot == 0 || Within(pos) == 0) && tot <= good < tot + RoundLength(pos, n - tot)
    ensures tot == LastRound(off, n, good)
  {
    assert pos - Within(pos) == Start(BlockOf(pos));
    SameBlock(pos, good - tot);
    assert pos + (good - tot) == off + good;
  }

  lemma LastRoundAfter(off: nat, n: nat, good: nat, tot: nat, pos: nat)
    requires pos == off + tot && tot < n && (tot == 0 || Within(pos) == 0) && tot <= good
    ensures tot <= LastRound(off, n, good)
  {
    if tot > 0 && good < n {
      assert pos == Start(BlockOf(pos));
      BlocksMonotone(pos, off + good);
    }
  }

  lemma BlocksMonotone(p: nat, q: nat)
    requires p <= q
    ensures Start(BlockOf(p)) <= Start(BlockOf(q)) <= q
  {
  }

  /** The bytes of `src` that are copied for a block that they do not fill are behind the end of the file, or were there
      before. All of this is known before the call. */
  predicate Unspilt(c: seq<Byte>, off: nat, src: seq<Byte>, good: nat) {
    SameBytes(c, off, src, LastRound(off, |src|, good), good)
  }

  /** Written at `off`, the bytes of `src` from `a` to `b` change nothing in `c`. */
  predicate SameBytes(c: seq<Byte>, off: nat, src: seq<Byte>, a: nat, b: nat) {
    forall k :: a <= k < b && k < |src| && off + k < |c| ==> c[off + k] == src[k]
  }

  lemma SmearSame(c: seq<Byte>, off: nat, src: seq<Byte>, good: nat, r: nat, data: seq<Byte>, spill: seq<Byte>)
    requires off <= |c| && r <= good < |src| && data == src[..r] && spill == src[r..good]
    ensures Smeared(c, off, data, spill) == Overwrite(c, off, data) <==> SameBytes(c, off, src, r, good)
  {
    SmearShows(c, off, data, spill);
    SpillIndices(c, off, src, good, r);
  }

  lemma BehindSame(c: seq<Byte>, off: nat, src: seq<Byte>, a: nat, b: nat, r: nat)
    requires r <= a && (r == |src| || |c| <= off + r)
    ensures SameBytes(c, off, src, a, b)
  {
  }

  /** A write that returns `r` leaves the file with the first `r` bytes of `src` written over it, and nothing else, exactly
      if that is so. */
  lemma SpillSeen(g: Geometry, s: Fs, u: Fs, o: map<int, Place>, i: nat, off: nat, pos: nat, src: seq<Byte>, good: nat, r: nat,
                  data: seq<Byte>, spill: seq<Byte>)
    requires r <= |src| && r <= good && data == src[..r] && Valid(g, u, o) && WriteDone(g, s, u, i, off, pos, data, spill)
    requires if r < |src| then Stopped(g, u, i, pos, src, good, 0, |src|, r, spill) else spill == []
    ensures u.inodes[i].size <= MAXBYTES
    ensures Contents(u, i) == Overwrite(Contents(s, i), off, data) <==> Unspilt(Contents(s, i), off, src, good)
  {
    var c := Contents(s, i);
    if r < |src| && r <= good < r + RoundLength(pos, |src| - r) && spill == src[r..good] {
      LastRoundIs(off, |src|, good, r, pos);
      SmearSame(c, off, src, good, r, data, spill);
    } else {
      SmearedNothing(c, off, data);
      if r < |src| {
        LastRoundAfter(off, |src|, good, r, pos);
        MissingBehind(g, u, o, i, pos);
      }
      BehindSame(c, off, src, LastRound(off, |src|, good), good, r);
    }
  }

  /** A disk with one file of one byte, which is 0. */
  function OneByte(): (s: Fs) {
    var ino := Inode(2, 0, 0, 1, 1, [3] + seq(NDIRECT, _ => 0));
    Fs([true, true, true, true, false], seq(5, _ => ZeroBlock()), [ino], [ino], {})
  }

  lemma OneByteAddr(k: nat)
    requires k < POSITIONS
    ensures forall b :: 0 <= b < |OneByte().blocks| ==> OneByte().blocks[b].Full()
    ensures Addr(OneByte(), 0, k) == if k == 0 then 3 else 0
  {
  }

  lemma OneByteShape(g: Geometry)
    requires g == Geometry(5, 1, 1, 2, 3)
    ensures Shape(g, OneByte()) && g.data == 3 && g.size == 5 && g.ninodes == 1
  {
    assert g.BBlock(4) == 2 && g.IBlock(0) == 1;
    OneByteAddr(0);
  }

  lemma OneByteOwns(g: Geometry)
    requires g.data == 3 && g.size == 5 && g.ninodes == 1 && Shape(g, OneByte())
    ensures Owns(g, OneByte(), map[3 := Place(0, 0)])
  {
    var s := OneByte();
    forall k: nat | k < POSITIONS ensures Addr(s, 0, k) == if k == 0 then 3 else 0 {
      OneByteAddr(k);
    }
    assert Holds(g, s, Place(0, 0), 3);
    forall b | 0 <= b < 5 ensures s.used[b] <==> b < 3 || b == 3 {
      assert b == 0 || b == 1 || b == 2 || b == 3 || b == 4;
    }
  }

  lemma OneByteFile(g: Geometry)
    requires g == Geometry(5, 1, 1, 2, 3)
    ensures Valid(g, OneByte(), map[3 := Place(0, 0)]) && Contents(OneByte(), 0) == [0]
  {
    var s := OneByte();
    OneByteShape(g);
    OneByteOwns(g);
    OneByteAddr(0);
    forall bn: nat | bn < MAXFILE && Start(bn) < 1 ensures Addr(s, 0, Pos(bn)) != 0 {
      assert bn == 0;
    }
    assert FileByte(s, 0, 0) == 0;
  }

  /** A block that is missing is behind the end of the file. */
  lemma MissingBehind(g: Geometry, u: Fs, o: map<int, Place>, i: nat, pos: nat)
    requires Valid(g, u, o) && i < g.ninodes && pos < MAXBYTES && Addr(u, i, Pos(BlockOf(pos))) == 0
    ensures u.inodes[i].size <= pos
  {
    assert Mapped(u, i, u.inodes[i].size);
    BlocksMonotone(pos, pos);
  }

  /** With one byte in the file and one of two readable, the copy fails at once. */
  lemma FailsAtOnce(g: Geometry, s: Fs, u: Fs, o: map<int, Place>, pos: nat, src: seq<Byte>, r: nat, spill: seq<Byte>)
    requires |src| == 2 && r <= 1 && Valid(g, u, o) && WriteDone(g, s, u, 0, 0, pos, src[..r], spill) && s.inodes[0].size == 1
    requires Stopped(g, u, 0, pos, src, 1, 0, 2, r, spill)
    ensures r == 0 && pos == 0 && spill == src[0..1] && u.inodes[0].size == 1
  {
    assert r == 0 && pos == 0;
    assert Mapped(u, 0, u.inodes[0].size);
    assert Addr(u, 0, Pos(BlockOf(pos))) != 0;
  }

  lemma SpillIndices(c: seq<Byte>, off: nat, src: seq<Byte>, good: nat, r: nat)
    requires r <= good < |src|
    ensures SameBytes(c, off, src, r, good) <==>
            forall k :: 0 <= k < |src[r..good]| && off + |src[..r]| + k < |c| ==> c[off + |src[..r]| + k] == src[r..good][k]
  {
    if forall k :: 0 <= k < |src[r..good]| && off + |src[..r]| + k < |c| ==> c[off + |src[..r]| + k] == src[r..good][k] {
      forall k | r <= k < good && off + k < |c| ensures c[off + k] == src[k] {
        var j := k - r;
        assert c[off + |src[..r]| + j] == src[r..good][j];
      }
    }
    if SameBytes(c, off, src, r, good) {
      forall j | 0 <= j < |src[r..good]| && off + |src[..r]| + j < |c| ensures c[off + |src[..r]| + j] == src[r..good][j] {
        var k := r + j;
        assert c[off + k] == src[k];
      }
    }
  }

  /** After `q` rounds that wrote `tot` of `n` bytes at `off`: at most `q` data
      blocks were logged, `f` of them new; an unaligned first block is not new. */
  predicate Rounds(off: nat, n: nat, tot: nat, q: nat, f: nat) {
    && f <= (if q > 0 && Within(off) != 0 then q - 1 else q)
    && (q > 0 ==> Start(BlockOf(off) + q - 1) < off + n)
    && (tot < n ==> (tot == 0 && q == 0) || off + tot == Start(BlockOf(off) + q))
  }

  lemma RoundStart(off: nat, n: nat, tot: nat, q: nat, f: nat, pos: nat)
    requires Rounds(off, n, tot, q, f) && tot < n && pos == off + tot
    ensures tot == 0 || Within(pos) == 0
    ensures BlockOf(pos) == BlockOf(off) + q
  {
  }

  lemma RoundsNext(off: nat, n: nat, tot: nat, q: nat, f: nat, f': nat, m: nat)
    requires Rounds(off, n, tot, q, f) && tot < n
    requires f' <= f + 1 && (Within(off + tot) != 0 ==> f' <= f)
    requires m == RoundLength(off + tot, n - tot)
    ensures Rounds(off, n, tot + m, q + 1, f')
  {
  }

  /** A chunk of filewrite spans four blocks only if it starts inside one. */
  lemma RoundsBound(off: nat, n: nat, tot: nat, q: nat, f: nat)
    requires Rounds(off, n, tot, q, f)
    ensures n <= MAXCHUNK ==> q + f <= 7
  {
  }

  lemma LogsBound(logged: set<int>, ds: set<int>, bs: set<int>, ins: set<int>, x: int)
    requires logged <= ds + bs + ins + {x} && |ins| <= 2
    ensures |logged| <= |ds| + |bs| + 3
  {
    SubsetSize(logged, ds + bs + ins + {x});
    assert |ds + bs + ins + {x}| <= |ds + bs + ins| + 1;
  }

  // Reading.

  lemma ContentsAt(s: Fs, i: nat, off: nat, end: nat, k: nat)
    requires i < |s.inodes| && |s.inodes[i].addrs| == NDIRECT + 1 && off + k < end <= s.inodes[i].size <= MAXBYTES
    requires forall b :: 0 <= b < |s.blocks| ==> s.blocks[b].Full()
    ensures Contents(s, i)[off..end][k] == FileByte(s, i, off + k)
  {
  }

  lemma SliceByte(b: Block, from: nat, to: nat, k: nat)
    requires b.Full() && from + k < to <= BSIZE
    ensures ToBytes(b)[from..to][k] == ByteAt(b, from + k)
  {
  }

  lemma BlockByte(s: Fs, i: nat, off: nat, k: nat, a: int)
    requires i < |s.inodes| && |s.inodes[i].addrs| == NDIRECT + 1 && off + k < MAXBYTES && Within(off) + k < BSIZE
    requires forall b :: 0 <= b < |s.blocks| ==> s.blocks[b].Full()
    requires a == Addr(s, i, Pos(BlockOf(off))) && 0 < a < |s.blocks|
    ensures FileByte(s, i, off + k) == ByteAt(s.blocks[a], Within(off) + k)
  {
    SameBlock(off, k);
  }

  lemma ReadByte(s: Fs, i: nat, off: nat, end: nat, a: int, at: nat, to: nat, k: nat)
    requires i < |s.inodes| && |s.inodes[i].addrs| == NDIRECT + 1 && off + k < end <= s.inodes[i].size <= MAXBYTES
    requires forall b :: 0 <= b < |s.blocks| ==> s.blocks[b].Full()
    requires a == Addr(s, i, Pos(BlockOf(off))) && 0 < a < |s.blocks| && s.blocks[a].Full() && at == Within(off) && at + k < to <= BSIZE
    ensures ToBytes(s.blocks[a])[at..to][k] == Contents(s, i)[off..end][k]
  {
    BlockByte(s, i, off, k, a);
    SliceByte(s.blocks[a], at, to, k);
    ContentsAt(s, i, off, end, k);
  }

  /** The bytes of one block are a slice of the file. */
  lemma ReadChunk(g: Geometry, s: Fs, o: map<int, Place>, i: nat, off: nat, end: nat, a: int, at: nat, to: nat)
    requires Owns(g, s, o) && i < g.ninodes && off < end <= s.inodes[i].size <= MAXBYTES
    requires at == Within(off) && to <= BSIZE && to - at == end - off && a == Addr(s, i, Pos(BlockOf(off))) != 0
    ensures a < |s.blocks| && s.blocks[a].Full() && ToBytes(s.blocks[a])[at..to] == Contents(s, i)[off..end]
  {
    assert a in o && s.blocks[a].Full();
    var x, y := ToBytes(s.blocks[a])[at..to], Contents(s, i)[off..end];
    forall k | 0 <= k < to - at ensures x[k] == y[k] {
      ReadByte(s, i, off, end, a, at, to, k);
    }
  }

  lemma SliceAppend(c: seq<Byte>, a: nat, b: nat, d: nat)
    requires a <= b <= d <= |c|
    ensures c[a..b] + c[b..d] == c[a..d]
  {
  }

  lemma SameBlock(off: nat, k: nat)
    requires Within(off) + k < BSIZE
    ensures BlockOf(off + k) == BlockOf(off) && Within(off + k) == Within(off) + k
  {
  }

  // Truncation.

  /** In `t` the blocks that `s` holds at positions of `i` below `d`, and at
      entries of the indirect block before position `e`, have been freed. */
  ghost predicate FreedUpTo(g: Geometry, s: Fs, o: map<int, Place>, used: seq<bool>, i: nat, d: nat, e: nat)
    requires Shape(g, s)
  {
    && |used| == g.size
    && forall b :: 0 <= b < g.size ==>
         (used[b] <==> s.used[b] && !(b in o && o[b].i == i && (o[b].k < d || NDIRECT < o[b].k < e)))
  }

  /** The bitmap blocks of the bits that differ. */
  ghost function ChangedBits(g: Geometry, s: Fs, used: seq<bool>): (r: set<int>)
    requires |used| == |s.used|
  {
    set b | 0 <= b < |used| && used[b] != s.used[b] :: g.BBlock(b)
  }

  /** They, and nothing else, have been logged since `s`. */
  ghost predicate BitsLogged(g: Geometry, s: Fs, used: seq<bool>, logged: set<int>) {
    |used| == |s.used| && logged == s.logged + ChangedBits(g, s, used)
  }

  /** Freeing one more block. */
  lemma BitsFreed(g: Geometry, s: Fs, used: seq<bool>, logged: set<int>, b: nat)
    requires BitsLogged(g, s, used, logged) && b < |used| && used[b] && s.used[b]
    ensures BitsLogged(g, s, used[b := false], logged + {g.BBlock(b)})
  {
    var u := used[b := false];
    forall x ensures x in ChangedBits(g, s, u) <==> x in ChangedBits(g, s, used) || x == g.BBlock(b) {
      if x == g.BBlock(b) {
        assert u[b] != s.used[b];
      }
      if x in ChangedBits(g, s, used) {
        var c :| 0 <= c < |used| && used[c] != s.used[c] && g.BBlock(c) == x;
        assert u[c] != s.used[c];
      }
    }
  }

  lemma BitsLoggedAt(g: Geometry, s: Fs, used: seq<bool>, logged: set<int>)
    requires BitsLogged(g, s, used, logged)
    ensures s.logged <= logged && forall b :: 0 <= b < |used| && used[b] != s.used[b] ==> g.BBlock(b) in logged
  {
  }

  /** A disk of at most BPB blocks has one bitmap block. */
  lemma FewBits(g: Geometry, s: Fs, used: seq<bool>)
    requires g.Valid() && g.size <= BPB && |used| == |s.used| == g.size
    ensures ChangedBits(g, s, used) <= {g.bmapstart}
  {
  }

  /** The state of itrunc. */
  ghost predicate Truncating(g: Geometry, s: Fs, o: map<int, Place>, used: seq<bool>, logged: set<int>, i: nat, d: nat, e: nat) {
    Owns(g, s, o) && i < g.ninodes && FreedUpTo(g, s, o, used, i, d, e) && BitsLogged(g, s, used, logged)
  }

  /** The block at the next position, if any, is still marked, and freeing it
      is the next step. */
  lemma FreeNextDirect(g: Geometry, s: Fs, o: map<int, Place>, used: seq<bool>, i: nat, d: nat, d': nat, e: nat)
    requires Owns(g, s, o) && i < g.ninodes && d <= NDIRECT && d' == d + 1 && FreedUpTo(g, s, o, used, i, d, e)
    ensures var a := Addr(s, i, d);
            if a == 0 then FreedUpTo(g, s, o, used, i, d', e)
            else g.data <= a < g.size && used[a] && FreedUpTo(g, s, o, used[a := false], i, d', e)
  {
    OnlyPlace(g, s, o, i, d);
  }

  lemma FreeNextEntry(g: Geometry, s: Fs, o: map<int, Place>, used: seq<bool>, i: nat, d: nat, e: nat, e': nat)
    requires Owns(g, s, o) && i < g.ninodes && d <= NDIRECT < e < POSITIONS && e' == e + 1 && FreedUpTo(g, s, o, used, i, d, e)
    ensures var a := Addr(s, i, e);
            if a == 0 then FreedUpTo(g, s, o, used, i, d, e')
            else g.data <= a < g.size && used[a] && FreedUpTo(g, s, o, used[a := false], i, d, e')
  {
    OnlyPlace(g, s, o, i, e);
  }

  lemma OnlyPlace(g: Geometry, s: Fs, o: map<int, Place>, i: nat, k: nat)
    requires Owns(g, s, o) && i < g.ninodes && k < POSITIONS
    ensures Addr(s, i, k) != 0 ==> Addr(s, i, k) in o && o[Addr(s, i, k)] == Place(i, k)
    ensures forall b :: b in o && o[b] == Place(i, k) ==> b == Addr(s, i, k) != 0
  {
    forall b | b in o && o[b] == Place(i, k) ensures b == Addr(s, i, k) {
      assert Holds(g, s, o[b], b);
    }
  }

  /** Without an indirect block there are no entries to free. */
  lemma NoEntries(g: Geometry, s: Fs, o: map<int, Place>, used: seq<bool>, i: nat)
    requires Owns(g, s, o) && i < g.ninodes && Addr(s, i, NDIRECT) == 0
    requires FreedUpTo(g, s, o, used, i, NDIRECT, NDIRECT + 1)
    ensures FreedUpTo(g, s, o, used, i, NDIRECT + 1, POSITIONS)
  {
    forall b | b in o && o[b].i == i ensures o[b].k < NDIRECT {
      assert Holds(g, s, o[b], b);
    }
  }

  /** `addrs` with the first `k` entries cleared. */
  function Cleared(addrs: seq<Word>, k: nat): (r: seq<Word>)
    requires k <= |addrs|
    ensures |r| == |addrs| && forall j :: 0 <= j < |r| ==> r[j] == if j < k then 0 else addrs[j]
  {
    seq(k, _ => 0) + addrs[k..]
  }

  lemma ClearedNext(ins: seq<Inode>, i: nat, k: nat, k': nat)
    requires i < |ins| && k < |ins[i].addrs| && k' == k + 1
    ensures var t := ins[i := ins[i].(addrs := Cleared(ins[i].addrs, k))];
            var u := ins[i := ins[i].(addrs := Cleared(ins[i].addrs, k'))];
            && t[i].addrs[k] == ins[i].addrs[k]
            && t[i := t[i].(addrs := t[i].addrs[k := 0])] == u
            && (ins[i].addrs[k] == 0 ==> t == u)
            && (k == 0 ==> t == ins)
  {
    var a := ins[i].addrs;
    assert Cleared(a, k)[k := 0] == Cleared(a, k');
    assert a[k] == 0 ==> Cleared(a, k) == Cleared(a, k');
    assert k == 0 ==> Cleared(a, k) == a;
  }

  /** `t` is `s` with file `i` emptied. */
  ghost predicate Truncated(g: Geometry, s: Fs, o: map<int, Place>, t: Fs, i: nat)
    requires Shape(g, s) && i < g.ninodes
  {
    && FreedUpTo(g, s, o, t.used, i, NDIRECT + 1, POSITIONS)
    && t.blocks == s.blocks
    && var ino := s.inodes[i].(size := 0, addrs := Cleared(s.inodes[i].addrs, NDIRECT + 1));
       t.inodes == s.inodes[i := ino] && t.disk == s.disk[i := ino]
  }

  ghost function Without(o: map<int, Place>, i: nat): (r: map<int, Place>) {
    map b | b in o && o[b].i != i :: o[b]
  }

  lemma TruncatedAddr(g: Geometry, s: Fs, o: map<int, Place>, t: Fs, i: nat, j: nat, k: nat)
    requires Shape(g, s) && i < g.ninodes && Truncated(g, s, o, t, i) && j < g.ninodes && k < POSITIONS
    ensures Shape(g, t) && Addr(t, j, k) == if j == i then 0 else Addr(s, j, k)
  {
  }

  lemma TruncatedValid(g: Geometry, s: Fs, o: map<int, Place>, t: Fs, i: nat)
    requires Valid(g, s, o) && i < g.ninodes && Truncated(g, s, o, t, i)
    ensures Valid(g, t, Without(o, i)) && OthersKept(g, s, t, i)
  {
    var o' := Without(o, i);
    TruncatedAddr(g, s, o, t, i, i, 0);
    forall j: nat, k: nat | j < g.ninodes && k < POSITIONS ensures Addr(t, j, k) == if j == i then 0 else Addr(s, j, k) {
      TruncatedAddr(g, s, o, t, i, j, k);
    }
    forall j: nat, p: nat | j < g.ninodes && j != i && p < MAXBYTES ensures FileByte(t, j, p) == FileByte(s, j, p) {
      TruncatedAddr(g, s, o, t, i, j, Pos(BlockOf(p)));
    }
    forall b | b in o' ensures Holds(g, t, o'[b], b) {
      assert Holds(g, s, o[b], b);
    }
    forall j: nat | j < g.ninodes ensures Mapped(t, j, t.inodes[j].size) {
      assert Mapped(s, j, s.inodes[j].size);
    }
  }

  lemma TruncationEnds(g: Geometry, s: Fs, o: map<int, Place>, used: seq<bool>, logged: set<int>, i: nat) returns (t: Fs)
    requires Valid(g, s, o) && Truncating(g, s, o, used, logged, i, NDIRECT + 1, POSITIONS)
    ensures var ino := s.inodes[i].(size := 0, addrs := Cleared(s.inodes[i].addrs, NDIRECT + 1));
            t == Fs(used, s.blocks, s.inodes[i := ino], s.disk[i := ino], logged + {g.IBlock(i)})
    ensures Truncated(g, s, o, t, i) && Valid(g, t, Without(o, i)) && OthersKept(g, s, t, i) && Contents(t, i) == []
    ensures Recorded(g, s, t, {}) && t.logged == s.logged + ChangedBits(g, s, t.used) + {g.IBlock(i)}
  {
    BitsLoggedAt(g, s, used, logged);
    var ino := s.inodes[i].(size := 0, addrs := Cleared(s.inodes[i].addrs, NDIRECT + 1));
    t := Fs(used, s.blocks, s.inodes[i := ino], s.disk[i := ino], logged + {g.IBlock(i)});
    TruncatedValid(g, s, o, t, i);
  }

  // Beginning a new transaction.

  lemma ReloggedAddr(g: Geometry, s: Fs, logged: set<int>, j: nat, k: nat)
    requires Shape(g, s) && j < g.ninodes && k < POSITIONS
    ensures Shape(g, s.(logged := logged)) && Addr(s.(logged := logged), j, k) == Addr(s, j, k)
  {
  }

  /** The set of logged blocks plays no part in what the file system holds. */
  lemma Relogged(g: Geometry, s: Fs, o: map<int, Place>, logged: set<int>, i: nat)
    requires Valid(g, s, o) && i < g.ninodes
    ensures Valid(g, s.(logged := logged), o) && OthersKept(g, s, s.(logged := logged), i)
    ensures s.inodes[i].size <= MAXBYTES && Contents(s.(logged := logged), i) == Contents(s, i)
  {
    var t := s.(logged := logged);
    ReloggedAddr(g, s, logged, i, 0);
    forall j: nat, k: nat | j < g.ninodes && k < POSITIONS ensures Addr(t, j, k) == Addr(s, j, k) {
      ReloggedAddr(g, s, logged, j, k);
    }
    forall j: nat, p: nat | j < g.ninodes && p < MAXBYTES ensures FileByte(t, j, p) == FileByte(s, j, p) {
      ReloggedAddr(g, s, logged, j, Pos(BlockOf(p)));
    }
    forall b | b in o ensures Holds(g, t, o[b], b) {
      assert Holds(g, s, o[b], b);
    }
    forall j: nat | j < g.ninodes ensures Mapped(t, j, t.inodes[j].size) {
      assert Mapped(s, j, s.inodes[j].size);
    }
  }
}
