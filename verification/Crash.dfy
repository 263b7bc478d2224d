/** What a crash leaves of a filewrite: the log of kernel/log.c under the transactions of kernel/file.c. A commit installs
    the logged blocks of a transaction, all of them or none (module Log), so after a crash the disk is the one after some
    number of whole transactions. */
module Crash {
  import opened Blocks
  import opened FsState
  import opened File

  /** The file system that is read back when the disk holds what `t` has given to it. */
  ghost function OnDisk(t: Fs): (d: Fs) {
    t.(inodes := t.disk, logged := {})
  }

  ghost predicate Sized(g: Geometry, d: Fs) {
    |d.used| == |d.blocks| == g.size && |d.disk| == g.ninodes
  }

  /** The disk `d` with the blocks installed that a transaction which ended in `u` has logged. */
  ghost function Commit(g: Geometry, d: Fs, u: Fs): (e: Fs)
    requires Sized(g, d) && Sized(g, u)
    ensures Sized(g, e)
  {
    var disk := seq(g.ninodes, j requires 0 <= j < g.ninodes => if g.IBlock(j) in u.logged then u.disk[j] else d.disk[j]);
    Fs(seq(g.size, b requires 0 <= b < g.size => if g.BBlock(b) in u.logged then u.used[b] else d.used[b]),
       seq(g.size, b requires 0 <= b < g.size => if b in u.logged then u.blocks[b] else d.blocks[b]),
       disk, disk, {})
  }

  /** The disk after `k` transactions. */
  ghost function DiskAfter(g: Geometry, ends: seq<Fs>, k: nat): (d: Fs)
    requires k < |ends| && forall j :: 0 <= j < |ends| ==> Sized(g, ends[j])
    ensures Sized(g, d)
  {
    assert Sized(g, ends[0]) && Sized(g, ends[k]);
    if k == 0 then OnDisk(ends[0]) else Commit(g, DiskAfter(g, ends, k - 1), ends[k])
  }

  /** The blocks of `u`, where those of `x` that were not logged are still as in `z`. */
  ghost function Reverted(z: Fs, u: Fs, x: set<int>): (blocks: seq<Block>)
    requires |z.blocks| == |u.blocks|
    ensures |blocks| == |u.blocks|
  {
    seq(|u.blocks|, b requires 0 <= b < |u.blocks| => if b in x && b !in u.logged then z.blocks[b] else u.blocks[b])
  }

  /** Since everything that changed is logged, a commit brings the disk up to date, except in `x`. */
  lemma CommitExact(g: Geometry, z: Fs, u: Fs, x: set<int>)
    requires Shape(g, z.(logged := {})) && Shape(g, u) && Recorded(g, z.(logged := {}), u, x)
    ensures Commit(g, OnDisk(z), u) == OnDisk(u).(blocks := Reverted(z, u, x))
  {
    var e, v := Commit(g, OnDisk(z), u), z.(logged := {});
    forall b | 0 <= b < g.size ensures e.used[b] == u.used[b] && e.blocks[b] == Reverted(z, u, x)[b] {
      assert v.used[b] == z.used[b] && v.blocks[b] == z.blocks[b];
    }
    forall j | 0 <= j < g.ninodes ensures e.disk[j] == u.disk[j] {
      assert v.disk[j] == z.disk[j];
    }
    assert e.used == u.used && e.disk == u.disk && e.blocks == Reverted(z, u, x);
  }

  lemma RevertedNone(z: Fs, u: Fs, x: set<int>)
    requires |z.blocks| == |u.blocks| && x <= u.logged
    ensures Reverted(z, u, x) == u.blocks
  {
  }

  lemma RevertedOne(z: Fs, u: Fs, x: int)
    requires |z.blocks| == |u.blocks| && 0 <= x < |u.blocks| && x !in u.logged
    ensures Reverted(z, u, {x}) == u.blocks[x := z.blocks[x]]
  {
  }

  lemma ChainSized(g: Geometry, s: Fs, t: Fs, ends: seq<Fs>, i: nat, p: nat, spill: seq<Byte>)
    requires Chain(g, s, t, ends, i, p, spill) && Shape(g, t)
    ensures forall j :: 0 <= j < |ends| ==> Sized(g, ends[j])
  {
    forall j | 0 <= j < |ends| ensures Sized(g, ends[j]) {
      if j < |ends| - 1 {
        assert Transaction(g, ends[j], ends[j + 1], i, p, if j == |ends| - 2 then spill else []);
      }
    }
  }

  /** Before the last transaction, the disk is always up to date. */
  lemma {:induction false} DiskIs(g: Geometry, s: Fs, t: Fs, ends: seq<Fs>, i: nat, p: nat, spill: seq<Byte>, k: nat)
    requires Chain(g, s, t, ends, i, p, spill) && k < |ends| && (k < |ends| - 1 || spill == [])
    requires forall j :: 0 <= j < |ends| ==> Sized(g, ends[j])
    ensures DiskAfter(g, ends, k) == OnDisk(ends[k])
  {
    if k > 0 {
      var j := k - 1;
      DiskIs(g, s, t, ends, i, p, spill, j);
      assert Transaction(g, ends[j], ends[j + 1], i, p, if j == |ends| - 2 then spill else []);
      CommitExact(g, ends[j], ends[k], {});
      RevertedNone(ends[j], ends[k], {});
    }
  }

  // The last transaction, when it has spilt bytes.

  /** The bytes of a write up to `done` and up to `start` differ only in between. */
  lemma OverwriteAgrees(c: seq<Byte>, off: nat, src: seq<Byte>, start: nat, done: nat, p: nat)
    requires off <= |c| && start <= done <= |src| && p < Max(|c|, off + done) && (done == start || off + done <= p)
    ensures p < Max(|c|, off + start) && Overwrite(c, off, src[..start])[p] == Overwrite(c, off, src[..done])[p]
  {
  }

  /** `d` is `t` with the block of file offset `pos` as it was in `z`. */
  ghost predicate BlockBack(g: Geometry, z: Fs, t: Fs, d: Fs, o: map<int, Place>, i: nat, pos: nat, bn: nat, x: int) {
    && i < g.ninodes && pos < MAXBYTES && bn == BlockOf(pos) && Shape(g, z) && Valid(g, t, o) && x == Addr(t, i, Pos(bn)) != 0 && x < |z.blocks|
    && d == t.(blocks := t.blocks[x := z.blocks[x]])
  }

  lemma BackIsWrite(g: Geometry, z: Fs, t: Fs, d: Fs, o: map<int, Place>, i: nat, pos: nat, bn: nat, x: int)
    requires BlockBack(g, z, t, d, o, i, pos, bn, x)
    ensures z.blocks[x].Full() && x in o && CanWrite(g, t, o, i, bn, 0, ToBytes(z.blocks[x]))
    ensures d == WriteData(t, i, bn, 0, ToBytes(z.blocks[x]), false)
  {
    assert z.blocks[x].Full() && t.blocks[x].Full();
    SpliceWhole(t.blocks[x], z.blocks[x]);
    assert Addr(t, i, Pos(bn)) in o;
  }

  lemma BackByte(g: Geometry, z: Fs, t: Fs, d: Fs, o: map<int, Place>, i: nat, pos: nat, bn: nat, x: int, p: nat)
    requires BlockBack(g, z, t, d, o, i, pos, bn, x) && p < MAXBYTES
    ensures Shape(g, d) && z.blocks[x].Full()
    ensures FileByte(d, i, p) == if BlockOf(p) == bn then ByteAt(z.blocks[x], Within(p)) else FileByte(t, i, p)
  {
    BackIsWrite(g, z, t, d, o, i, pos, bn, x);
    var bytes, w := ToBytes(z.blocks[x]), Within(p);
    WriteByte(g, t, o, i, bn, 0, bytes, false, i, p);
    InBlock(p, bn, 0, |bytes|);
    if BlockOf(p) == bn {
      assert p - Start(bn) - 0 == w && bytes[w] == ByteAt(z.blocks[x], w);
    }
  }

  lemma BackKept(g: Geometry, z: Fs, t: Fs, d: Fs, o: map<int, Place>, i: nat, pos: nat, bn: nat, x: int)
    requires BlockBack(g, z, t, d, o, i, pos, bn, x)
    ensures Valid(g, d, o) && OthersKept(g, t, d, i)
  {
    BackIsWrite(g, z, t, d, o, i, pos, bn, x);
    WriteKept(g, t, o, i, bn, 0, ToBytes(z.blocks[x]), false);
    WriteValid(g, t, o, i, bn, 0, ToBytes(z.blocks[x]), false);
  }

  /** The two states around the last transaction: it had written `start` bytes before and `done` after it, and spilt. */
  ghost predicate LastSpilt(g: Geometry, s: Fs, z: Fs, t: Fs, i: nat, off: nat, src: seq<Byte>, start: nat, done: nat, pos: nat, spill: seq<Byte>) {
    && start <= done < |src| && pos == off + done < MAXBYTES && (done == start || Within(pos) == 0) && |spill| <= BSIZE - Within(pos)
    && Wrote(g, s, z, i, off, src[..start], []) && Wrote(g, s, t, i, off, src[..done], spill) && off <= s.inodes[i].size
    && AddrsKept(g, z, t, i)
  }

  lemma BackInside(g: Geometry, s: Fs, z: Fs, oz: map<int, Place>, t: Fs, i: nat, off: nat, src: seq<Byte>, start: nat, done: nat,
                   pos: nat, spill: seq<Byte>, bn: nat, x: int, c: seq<Byte>, p: nat)
    requires LastSpilt(g, s, z, t, i, off, src, start, done, pos, spill) && Valid(g, z, oz) && c == Contents(s, i)
    requires bn == BlockOf(pos) == BlockOf(p) && p < Max(|c|, off + done) && x == Addr(t, i, Pos(bn)) != 0 && x < |z.blocks|
    ensures z.blocks[x].Full() && ByteAt(z.blocks[x], Within(p)) == Overwrite(c, off, src[..done])[p]
  {
    assert z.blocks[x].Full();
    BlocksMonotone(p, p);
    assert Within(pos) == 0 ==> pos == Start(bn);
    OverwriteAgrees(c, off, src, start, done, p);
    SmearedNothing(c, off, src[..start]);
    assert Contents(z, i)[p] == FileByte(z, i, p);
    assert Mapped(z, i, z.inodes[i].size);
    assert Addr(z, i, Pos(bn)) != 0;
    assert Addr(t, i, Pos(bn)) == Addr(z, i, Pos(bn));
  }

  lemma BackOutside(g: Geometry, s: Fs, z: Fs, t: Fs, i: nat, off: nat, src: seq<Byte>, start: nat, done: nat,
                    pos: nat, spill: seq<Byte>, bn: nat, c: seq<Byte>, p: nat)
    requires LastSpilt(g, s, z, t, i, off, src, start, done, pos, spill) && c == Contents(s, i)
    requires bn == BlockOf(pos) != BlockOf(p) && p < Max(|c|, off + done)
    ensures p < MAXBYTES && FileByte(t, i, p) == Overwrite(c, off, src[..done])[p]
  {
    if pos <= p < pos + |spill| {
      SameBlock(pos, p - pos);
    }
    SmearedAt(c, off, src[..done], spill, p);
    assert Contents(t, i)[p] == FileByte(t, i, p);
  }

  /** The file on the disk has the bytes that were reported, and no others. */
  lemma BackContents(g: Geometry, s: Fs, z: Fs, oz: map<int, Place>, t: Fs, d: Fs, o: map<int, Place>, i: nat, off: nat, src: seq<Byte>,
                     start: nat, done: nat, pos: nat, spill: seq<Byte>, bn: nat, x: int)
    requires LastSpilt(g, s, z, t, i, off, src, start, done, pos, spill) && Valid(g, z, oz) && BlockBack(g, z, t, d, o, i, pos, bn, x)
    ensures Shape(g, d) && d.inodes[i].size <= MAXBYTES && Contents(d, i) == Smeared(Contents(s, i), off, src[..done], [])
  {
    BackKept(g, z, t, d, o, i, pos, bn, x);
    var c, data := Contents(s, i), src[..done];
    SmearedNothing(c, off, data);
    var now, want := Contents(d, i), Overwrite(c, off, data);
    assert |now| == |Contents(t, i)| == |want|;
    forall p: nat | p < |now| ensures now[p] == want[p] {
      BackByte(g, z, t, d, o, i, pos, bn, x, p);
      if BlockOf(p) == bn {
        BackInside(g, s, z, oz, t, i, off, src, start, done, pos, spill, bn, x, c, p);
      } else {
        BackOutside(g, s, z, t, i, off, src, start, done, pos, spill, bn, c, p);
      }
    }
  }

  lemma BackWrote(g: Geometry, s: Fs, z: Fs, oz: map<int, Place>, t: Fs, d: Fs, o: map<int, Place>, i: nat, off: nat, src: seq<Byte>,
                  start: nat, done: nat, pos: nat, spill: seq<Byte>, bn: nat, x: int)
    requires LastSpilt(g, s, z, t, i, off, src, start, done, pos, spill) && Valid(g, z, oz) && BlockBack(g, z, t, d, o, i, pos, bn, x)
    ensures Valid(g, d, o) && Wrote(g, s, d, i, off, src[..done], [])
  {
    BackKept(g, z, t, d, o, i, pos, bn, x);
    KeptTwice(g, s, t, d, i);
    BackContents(g, s, z, oz, t, d, o, i, off, src, start, done, pos, spill, bn, x);
  }

  /** If the block is logged it is a new one, behind the end of the file, and so are the bytes that were spilt. */
  lemma NewWrote(g: Geometry, s: Fs, z: Fs, oz: map<int, Place>, t: Fs, i: nat, off: nat, src: seq<Byte>,
                 start: nat, done: nat, pos: nat, spill: seq<Byte>, bn: nat, x: int)
    requires LastSpilt(g, s, z, t, i, off, src, start, done, pos, spill) && Valid(g, z, oz) && bn == BlockOf(pos)
    requires x == Addr(t, i, Pos(bn)) && x in t.logged && z.logged == {} && Untouched(g, z, t, i, bn)
    ensures Wrote(g, s, t, i, off, src[..done], [])
  {
    var c, data := Contents(s, i), src[..done];
    assert Addr(z, i, Pos(bn)) == 0;
    MissingBehind(g, z, oz, i, pos);
    assert |c| <= |Contents(z, i)|;
    SmearShows(c, off, data, spill);
    SmearedNothing(c, off, data);
  }

  /** What the end of the last transaction tells. */
  lemma LastEnded(g: Geometry, s: Fs, z0: Fs, z: Fs, t: Fs, o: map<int, Place>, i: nat, src: seq<Byte>, good: nat, off: nat, start: nat, done: nat,
                  pos: nat, spill: seq<Byte>, k: nat, bn: nat)
    requires Result(g, s, t, o, i, src, good, off, done, pos, spill, k) && spill != [] && k > 0 && start == ChunkStart(k - 1)
    requires z == z0.(logged := {}) && start <= |src| && Wrote(g, s, z, i, off, src[..start], []) && Transaction(g, z0, t, i, pos, spill)
    requires bn == BlockOf(pos)
    ensures LastSpilt(g, s, z, t, i, off, src, start, done, pos, spill) && Untouched(g, z, t, i, bn)
    ensures Addr(t, i, Pos(bn)) != 0 && Unlogged(g, t, i, pos, spill) == {Addr(t, i, Pos(bn))}
  {
  }

  /** The disk after the last transaction, if it has spilt bytes. */
  lemma LastDisk(g: Geometry, s: Fs, z0: Fs, oz: map<int, Place>, t: Fs, o: map<int, Place>, i: nat, src: seq<Byte>, good: nat, off: nat,
                 start: nat, done: nat, pos: nat, spill: seq<Byte>, k: nat) returns (d: Fs)
    requires Result(g, s, t, o, i, src, good, off, done, pos, spill, k) && spill != [] && k > 0 && start == ChunkStart(k - 1) && s.disk == s.inodes
    requires start <= |src| && Valid(g, z0, oz) && Wrote(g, s, z0, i, off, src[..start], []) && Transaction(g, z0, t, i, pos, spill)
    ensures d == Commit(g, OnDisk(z0), t) && Valid(g, d, o) && Wrote(g, s, d, i, off, src[..done], [])
  {
    var z := Begun(g, s, z0, oz, i, off, src[..start]);
    var bn := BlockOf(pos);
    LastEnded(g, s, z0, z, t, o, i, src, good, off, start, done, pos, spill, k, bn);
    var x := Addr(t, i, Pos(bn));
    assert x in o;
    CommitExact(g, z0, t, {x});
    var e := t;
    if x in t.logged {
      RevertedNone(z0, t, {x});
      NewWrote(g, s, z, oz, t, i, off, src, start, done, pos, spill, bn, x);
    } else {
      RevertedOne(z0, t, x);
      e := t.(blocks := t.blocks[x := z.blocks[x]]);
      BackWrote(g, s, z, oz, t, e, o, i, off, src, start, done, pos, spill, bn, x);
    }
    d := Begun(g, s, e, o, i, off, src[..done]);
  }

  /** The disk `d` is well formed, and a write of `data` has been done to the file system `s`. */
  ghost predicate Recovered(g: Geometry, s: Fs, d: Fs, i: nat, off: nat, data: seq<Byte>) {
    (exists o :: Valid(g, d, o)) && Wrote(g, s, d, i, off, data, [])
  }

  lemma CleanRecovers(g: Geometry, s: Fs, t: Fs, o: map<int, Place>, i: nat, off: nat, data: seq<Byte>)
    requires Valid(g, t, o) && Wrote(g, s, t, i, off, data, []) && s.disk == s.inodes
    ensures Recovered(g, s, OnDisk(t), i, off, data)
  {
    var d := Begun(g, s, t, o, i, off, data);
    assert d == OnDisk(t);
  }

  lemma ChunksRecover(g: Geometry, s: Fs, t: Fs, i: nat, off: nat, src: seq<Byte>, k: nat, data: seq<Byte>)
    requires AfterChunks(g, s, t, i, off, src, k) && data == src[..ChunkStart(k)] && s.disk == s.inodes
    ensures Recovered(g, s, OnDisk(t), i, off, data)
  {
    var o :| Valid(g, t, o);
    CleanRecovers(g, s, t, o, i, off, data);
  }

  lemma SpiltRecovers(g: Geometry, s: Fs, z: Fs, t: Fs, o: map<int, Place>, i: nat, src: seq<Byte>, good: nat, off: nat,
                      done: nat, pos: nat, spill: seq<Byte>, m: nat, k: nat)
    requires Result(g, s, t, o, i, src, good, off, done, pos, spill, k) && spill != [] && k == m + 1 && s.disk == s.inodes
    requires AfterChunks(g, s, z, i, off, src, m) && Transaction(g, z, t, i, pos, spill)
    ensures Sized(g, z) && Sized(g, t) && Recovered(g, s, Commit(g, OnDisk(z), t), i, off, src[..done])
  {
    var oz :| Valid(g, z, oz);
    var d := LastDisk(g, s, z, oz, t, o, i, src, good, off, ChunkStart(m), done, pos, spill, k);
  }

  /** However many of the transactions of a filewrite have been committed when the system crashes, recovery finds a well-formed
      file system in which the file has that many chunks of `src` written over it, whole, and after the last one exactly the
      bytes that were done; what was spilt is gone. */
  lemma CrashLeavesChunks(g: Geometry, s: Fs, t: Fs, o: map<int, Place>, i: nat, src: seq<Byte>, good: nat, off: nat, done: nat, pos: nat,
                          spill: seq<Byte>, ends: seq<Fs>, k: nat, j: nat)
    requires Chain(g, s, t, ends, i, pos, spill) && WholeChunks(g, s, ends, i, off, src) && |ends| == k + 1 && j <= k
    requires Result(g, s, t, o, i, src, good, off, done, pos, spill, k) && s.disk == s.inodes
    ensures (forall m :: 0 <= m < |ends| ==> Sized(g, ends[m])) && (j < k ==> ChunkStart(j) <= |src|)
    ensures Recovered(g, s, DiskAfter(g, ends, j), i, off, src[..if j < k then ChunkStart(j) else done])
  {
    ChainSized(g, s, t, ends, i, pos, spill);
    if j < k {
      DiskIs(g, s, t, ends, i, pos, spill, j);
      assert AfterChunks(g, s, ends[j], i, off, src, j);
      ChunksRecover(g, s, ends[j], i, off, src, j, src[..ChunkStart(j)]);
    } else if spill == [] {
      DiskIs(g, s, t, ends, i, pos, spill, j);
      CleanRecovers(g, s, t, o, i, off, src[..done]);
    } else {
      var m := LastOf(g, s, t, ends, i, off, src, pos, spill, k);
      DiskIs(g, s, t, ends, i, pos, spill, m);
      SpiltRecovers(g, s, ends[m], t, o, i, src, good, off, done, pos, spill, m, k);
    }
  }

  lemma LastOf(g: Geometry, s: Fs, t: Fs, ends: seq<Fs>, i: nat, off: nat, src: seq<Byte>, pos: nat, spill: seq<Byte>, k: nat) returns (m: nat)
    requires Chain(g, s, t, ends, i, pos, spill) && WholeChunks(g, s, ends, i, off, src) && |ends| == k + 1 && k > 0
    ensures k == m + 1 && Transaction(g, ends[m], t, i, pos, spill) && AfterChunks(g, s, ends[m], i, off, src, m)
  {
    m := k - 1;
    assert Transaction(g, ends[m], ends[m + 1], i, pos, if m == |ends| - 2 then spill else []);
  }
}
