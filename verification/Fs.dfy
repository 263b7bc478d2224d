/** Block allocation, block maps and file contents: the code of kernel/fs.c on
    the logical file system. Log transactions, buffers and inode locks are the
    subject of other modules; here one operation runs at a time. */
module FsOps {
  import opened Blocks
  import opened FsState
  import opened LogDisk

  /** A write that reports no byte written and has changed the file: two bytes, of which the second cannot be read, over
      a file of one byte. */
  method SpillOver(fs: FileSystem, src: seq<Byte>) returns (r: int)
    requires Valid(fs.g, fs.S(), fs.owner) && fs.inodes[0].size == 1 && |src| == 2
    modifies fs
    ensures r == 0 && Valid(fs.g, fs.S(), fs.owner) && fs.inodes[0].size == 1 && Contents(fs.S(), 0) == src[..1]
  {
    ghost var s, c := fs.S(), Contents(fs.S(), 0);
    var pos, spill;
    r, pos, spill := fs.Writei(0, src, 1, 0, 2);
    FailsAtOnce(fs.g, s, fs.S(), fs.owner, pos, src, r, spill);
    SmearedAt(c, 0, src[..r], spill, 0);
  }

  /** A file system in which it happens: the file was [0] and is [1], and the write returned 0. */
  method SpillExample() returns (fs: FileSystem, r: int, ghost was: seq<Byte>)
    ensures r == 0 && was == [0] && Valid(fs.g, fs.S(), fs.owner) && fs.inodes[0].size == 1 && Contents(fs.S(), 0) == [1]
  {
    var g := Geometry(5, 1, 1, 2, 3);
    fs := new FileSystem(g);
    var s := OneByte();
    OneByteFile(g);
    fs.used, fs.blocks, fs.inodes, fs.disk, fs.logged := s.used, s.blocks, s.inodes, s.disk, s.logged;
    fs.owner := map[3 := Place(0, 0)];
    assert fs.S() == s;
    was := Contents(fs.S(), 0);
    r := SpillOver(fs, [1, 2]);
  }

  class FileSystem {
    const g: Geometry
    var used: seq<bool>
    var blocks: seq<Block>
    var inodes: seq<Inode>
    var disk: seq<Inode>
    var logged: set<int>
    ghost var owner: map<int, Place>

    ghost function S(): Fs
      reads this
    {
      Fs(used, blocks, inodes, disk, logged)
    }

    ghost predicate Ok()
      reads this
    {
      Owns(g, S(), owner)
    }

    /** A file system without files, as mkfs begins it: the metadata is marked in the bitmap. */
    constructor (g: Geometry)
      requires g.Valid()
      ensures this.g == g && Valid(g, S(), owner) && logged == {}
      ensures forall i :: 0 <= i < g.ninodes ==> inodes[i].size == 0
    {
      this.g := g;
      used := seq(g.size, b => b < g.data);
      blocks := seq(g.size, _ => ZeroBlock());
      inodes := seq(g.ninodes, _ => Inode(0, 0, 0, 0, 0, seq(NDIRECT + 1, _ => 0)));
      disk := seq(g.ninodes, _ => Inode(0, 0, 0, 0, 0, seq(NDIRECT + 1, _ => 0)));
      logged, owner := {}, map[];
    }

    /** balloc: the first free block, marked, zeroed and logged, or 0 if none is free. */
    method Balloc() returns (b: int)
      requires Ok()
      modifies this`used, this`blocks, this`logged
      ensures b == 0 ==> S() == old(S()) && forall c :: 0 <= c < g.size ==> used[c]
      ensures b != 0 ==>
                && 0 < b < g.size && !old(used)[b] && (forall c :: 0 <= c < b ==> old(used)[c])
                && S() == Take(g, old(S()), b)
    {
      var base := 0;
      while base < g.size
        invariant 0 <= base && S() == old(S())
        invariant forall c :: 0 <= c < base && c < g.size ==> used[c]
      {
        var bi := 0;
        while bi < BPB && base + bi < g.size
          invariant 0 <= bi <= BPB && base + bi <= g.size && S() == old(S())
          invariant forall c :: 0 <= c < base + bi ==> used[c]
        {
          if !used[base + bi] {
            b := base + bi;
            used := used[b := true];
            logged := logged + {g.BBlock(b)};
            blocks := blocks[b := ZeroBlock()];
            logged := logged + {b};
            assert logged == old(logged) + {g.BBlock(b), b};
            return;
          }
          bi := bi + 1;
        }
        base := base + BPB;
      }
      b := 0;
    }

    /** The first half of the indirect case of bmap: the indirect block. */
    method BmapIndirect(i: nat) returns (ind: int)
      requires Ok() && i < g.ninodes
      modifies this
      ensures Ok() && Grown(g, old(S()), S(), i)
      ensures ind == Addr(S(), i, NDIRECT)
      ensures old(Addr(S(), i, NDIRECT)) != 0 ==> S() == old(S()) && owner == old(owner)
      ensures ind == 0 ==> DiskFull(S())
      ensures forall m: nat :: m < POSITIONS && m != NDIRECT ==> Addr(S(), i, m) == old(Addr(S(), i, m))
      ensures logged <= old(logged) + if ind != 0 then {ind, g.BBlock(ind)} else {}
      ensures Recorded(g, old(S()), S(), {})
    {
      ghost var s := S();
      ind := inodes[i].addrs[NDIRECT];
      if ind == 0 {
        ind := Balloc();
        if ind != 0 {
          Attached(g, s, owner, i, NDIRECT, ind);
          ghost var t := Attach(g, s, owner, i, NDIRECT, ind);
          inodes := inodes[i := inodes[i].(addrs := inodes[i].addrs[NDIRECT := ind])];
          assert S() == t;
          owner := owner[ind := Place(i, NDIRECT)];
        }
      }
    }

    /** Put a new block into entry `bn` of the indirect block. */
    method StoreEntry(i: nat, bn: nat, ind: int, addr: int, ghost s: Fs)
      requires NDIRECT <= bn < MAXFILE && CanAttach(g, s, owner, i, Pos(bn), addr) && S() == Take(g, s, addr)
      requires ind == s.inodes[i].addrs[NDIRECT]
      modifies this`blocks, this`logged, this`owner
      ensures Ok() && BlockMapped(g, s, S(), i, bn) && Addr(S(), i, Pos(bn)) == addr
    {
      BlockAttached(g, s, owner, i, bn, addr);
      ghost var t := Attach(g, s, owner, i, Pos(bn), addr);
      AttachEntry(g, s, owner, i, bn, addr);
      blocks := blocks[ind := Block(blocks[ind].words[bn - NDIRECT := addr])];
      logged := logged + {ind};
      assert S() == t;
      owner := owner[addr := Place(i, Pos(bn))];
    }

    /** The second half: entry `bn` of an existing indirect block. */
    method BmapEntry(i: nat, bn: nat) returns (addr: int)
      requires Ok() && i < g.ninodes && NDIRECT <= bn < MAXFILE && Addr(S(), i, NDIRECT) != 0
      modifies this
      ensures Ok() && BlockMapped(g, old(S()), S(), i, bn)
      ensures addr == Addr(S(), i, Pos(bn))
      ensures old(Addr(S(), i, Pos(bn))) != 0 ==> owner == old(owner)
    {
      ghost var s := S();
      var ind := inodes[i].addrs[NDIRECT];
      assert Addr(s, i, NDIRECT) in owner;
      assert blocks[ind].Full();
      addr := blocks[ind].words[bn - NDIRECT];
      if addr == 0 {
        addr := Balloc();
        if addr != 0 {
          StoreEntry(i, bn, ind, addr, s);
        }
      }
    }

    /** bmap: the address of block `bn` of file `i`, allocated if need be; 0 if the
        disk is full. */
    method Bmap(i: nat, bn: nat) returns (addr: int)
      requires Ok() && i < g.ninodes && bn < MAXFILE
      modifies this
      ensures Ok() && BlockMapped(g, old(S()), S(), i, bn)
      ensures addr == Addr(S(), i, Pos(bn))
      ensures old(Addr(S(), i, Pos(bn))) != 0 ==> owner == old(owner)
    {
      ghost var s := S();
      if bn < NDIRECT {
        addr := inodes[i].addrs[bn];
        if addr == 0 {
          addr := Balloc();
          if addr != 0 {
            BlockAttached(g, s, owner, i, bn, addr);
            ghost var t := Attach(g, s, owner, i, bn, addr);
            inodes := inodes[i := inodes[i].(addrs := inodes[i].addrs[bn := addr])];
            assert S() == t;
            owner := owner[addr := Place(i, bn)];
          }
        }
        return;
      }
      var ind := BmapIndirect(i);
      if ind == 0 {
        addr := 0;
        return;
      }
      ghost var t := S();
      addr := BmapEntry(i, bn);
      MappedThrough(g, s, t, S(), i, bn);
    }

    /** iupdate: copy inode `i` to disk. */
    method Iupdate(i: nat)
      requires Shape(g, S()) && i < g.ninodes
      modifies this`disk, this`logged
      ensures S() == old(S()).(disk := old(disk)[i := inodes[i]], logged := old(logged) + {g.IBlock(i)})
    {
      disk := disk[i := inodes[i]];
      logged := logged + {g.IBlock(i)};
    }

    /** The first half of a round of the loop of writei, at file offset `pos`: find the block. */
    method MapForWrite(i: nat, ghost off: nat, pos: nat, ghost data: seq<Byte>, bn: nat, ghost s: Fs, ghost ds: set<int>, ghost bs: set<int>)
      returns (addr: int, ghost ds': set<int>, ghost bs': set<int>)
      requires Writing(g, s, S(), owner, i, off, data, ds, bs, {}) && pos == off + |data| < MAXBYTES && bn == BlockOf(pos)
      requires Untouched(g, s, S(), i, bn)
      modifies this
      ensures Writing(g, s, S(), owner, i, off, data, ds', bs', {}) && Untouched(g, s, S(), i, bn)
      ensures addr == Addr(S(), i, Pos(bn)) && (addr == 0 ==> DiskFull(S())) && addr in ds'
      ensures |ds'| <= |ds| + 1 && |bs'| <= |bs| + if Within(pos) != 0 then 0 else 1
    {
      ghost var t := S();
      addr := Bmap(i, bn);
      WrittenMapped(g, s, t, S(), i, off, data, bn);
      LogsMapped(g, s, t, S(), i, bn, ds, bs);
      MappedUntouched(g, s, t, S(), owner, i, bn, bn);
      ds' := ds + {addr};
      bs' := if Addr(t, i, Pos(bn)) == 0 then bs + {g.BBlock(addr)} else bs;
    }

    /** The second half: copy the bytes into the block, and log it if that was all of them. */
    method CopyForWrite(i: nat, ghost off: nat, pos: nat, ghost data: seq<Byte>, ghost data': seq<Byte>, chunk: seq<Byte>, addr: int,
                        at: nat, log: bool, ghost bn: nat, ghost nb: nat, ghost s: Fs, ghost ds: set<int>, ghost bs: set<int>)
      requires Writing(g, s, S(), owner, i, off, data, ds, bs, {}) && data' == data + chunk
      requires pos == off + |data| && pos + |chunk| <= MAXBYTES && bn == BlockOf(pos)
      requires at == Within(pos) && at + |chunk| <= BSIZE && 0 < |chunk| && addr == Addr(S(), i, Pos(bn)) != 0 && addr in ds
      requires Untouched(g, s, S(), i, bn) && nb == if log then bn + 1 else bn
      modifies this
      ensures Untouched(g, s, S(), i, nb) && Addr(S(), i, Pos(bn)) == addr
      ensures log ==> Writing(g, s, S(), owner, i, off, data', ds, bs, {})
      ensures !log ==> Spilt(g, s, S(), owner, i, off, pos, data, chunk, ds, bs)
    {
      ghost var u := WrittenOn(g, s, S(), owner, i, off, pos, data, chunk, log, bn, nb, ds, bs);
      assert blocks[addr].Full();
      blocks := blocks[addr := Splice(blocks[addr], at, chunk)];
      if log {
        logged := logged + {addr};
      }
      assert S() == u;
    }

    /** Copying the chunk of `m` bytes from where `tot` bytes are done. It fails if it reaches past
        the first `good` bytes, after those have been copied. */
    method CopyChunk(i: nat, src: seq<Byte>, good: nat, ghost off: nat, pos: nat, tot: nat, m: nat, tot': nat, addr: int,
                     ghost bn: nat, ghost nb: nat, ghost s: Fs, ghost ds: set<int>, ghost bs: set<int>)
      returns (done: bool, spill: seq<Byte>)
      requires tot < |src| && tot <= good && Writing(g, s, S(), owner, i, off, src[..tot], ds, bs, {})
      requires pos == off + tot && off + |src| <= MAXBYTES && 0 < m <= |src| - tot && m <= BSIZE - Within(pos) && tot' == tot + m
      requires bn == BlockOf(pos) && addr == Addr(S(), i, Pos(bn)) != 0 && addr in ds && Untouched(g, s, S(), i, bn) && nb == bn + 1
      modifies this
      ensures Untouched(g, s, S(), i, if done then nb else bn) && Addr(S(), i, Pos(bn)) == addr
      ensures done ==> spill == [] && tot' <= good && Writing(g, s, S(), owner, i, off, src[..tot'], ds, bs, {})
      ensures !done ==> good < tot' && spill == src[tot..good] && Spilt(g, s, S(), owner, i, off, pos, src[..tot], spill, ds, bs)
    {
      var at := Within(pos);
      spill := [];
      done := tot' <= good;
      if done {
        SliceAppend(src, 0, tot, tot');
        CopyForWrite(i, off, pos, src[..tot], src[..tot'], src[tot..tot'], addr, at, true, bn, nb, s, ds, bs);
      } else if tot < good {
        spill := src[tot..good];
        CopyForWrite(i, off, pos, src[..tot], src[..tot] + spill, spill, addr, at, false, bn, bn, s, ds, bs);
      } else {
        NothingSpilt(g, s, S(), owner, i, off, pos, src[..tot], ds, bs);
      }
    }

    /** One round: `m` bytes were written, or the loop must stop. */
    method WriteRound(i: nat, src: seq<Byte>, good: nat, ghost off: nat, pos: nat, tot: nat, m: nat, tot': nat, bn: nat, ghost nb: nat,
                      ghost s: Fs, ghost ds: set<int>, ghost bs: set<int>)
      returns (done: bool, spill: seq<Byte>, ghost ds': set<int>, ghost bs': set<int>)
      requires tot < |src| && tot <= good && Writing(g, s, S(), owner, i, off, src[..tot], ds, bs, {})
      requires pos == off + tot && off + |src| <= MAXBYTES && m == RoundLength(pos, |src| - tot) && tot' == tot + m
      requires (tot == 0 || Within(pos) == 0) && bn == BlockOf(pos) && nb == bn + 1 && Untouched(g, s, S(), i, bn)
      modifies this
      ensures Untouched(g, s, S(), i, if done then nb else bn)
      ensures done ==> spill == [] && tot' <= good && Writing(g, s, S(), owner, i, off, src[..tot'], ds', bs', {})
      ensures !done ==> Stopped(g, S(), i, pos, src, good, 0, |src|, tot, spill) && Spilt(g, s, S(), owner, i, off, pos, src[..tot], spill, ds', bs')
      ensures |ds'| <= |ds| + 1 && |bs'| <= |bs| + if Within(pos) != 0 then 0 else 1
    {
      var addr;
      addr, ds', bs' := MapForWrite(i, off, pos, src[..tot], bn, s, ds, bs);
      if addr == 0 {
        NothingSpilt(g, s, S(), owner, i, off, pos, src[..tot], ds', bs');
        return false, [], ds', bs';
      }
      done, spill := CopyChunk(i, src, good, off, pos, tot, m, tot', addr, bn, nb, s, ds', bs');
    }

    /** One round, and how many rounds and allocations `q` and `f` that makes. */
    method WriteNext(i: nat, src: seq<Byte>, good: nat, ghost off: nat, pos: nat, tot: nat, ghost b: nat, ghost nb: nat,
                     ghost s: Fs, ghost ds: set<int>, ghost bs: set<int>, ghost q: nat, ghost f: nat)
      returns (done: bool, m: nat, tot': nat, spill: seq<Byte>, ghost ds': set<int>, ghost bs': set<int>, ghost f': nat)
      requires tot < |src| && tot <= good && Writing(g, s, S(), owner, i, off, src[..tot], ds, bs, {})
      requires pos == off + tot && off + |src| <= MAXBYTES && Rounds(off, |src|, tot, q, f)
      requires b == BlockOf(off) + q && nb == b + 1 && Untouched(g, s, S(), i, b)
      modifies this
      ensures Untouched(g, s, S(), i, if done then nb else b) && b == BlockOf(pos)
      ensures m > 0 && tot' == tot + m <= |src| && Rounds(off, |src|, tot', q + 1, f')
      ensures done ==> tot' <= good && spill == [] && Writing(g, s, S(), owner, i, off, src[..tot'], ds', bs', {})
      ensures !done ==> Stopped(g, S(), i, pos, src, good, 0, |src|, tot, spill) && Spilt(g, s, S(), owner, i, off, pos, src[..tot], spill, ds', bs')
      ensures |ds'| <= |ds| + 1 && |bs'| <= |bs| + f' - f
    {
      m := RoundLength(pos, |src| - tot);
      tot' := tot + m;
      f' := if Within(pos) != 0 then f else f + 1;
      RoundsNext(off, |src|, tot, q, f, f', m);
      RoundStart(off, |src|, tot, q, f, pos);
      var bn := BlockOf(pos);
      assert bn == b;
      done, spill, ds', bs' := WriteRound(i, src, good, off, pos, tot, m, tot', bn, nb, s, ds, bs);
    }

    /** The loop of writei, from file offset `off` to `pos`. */
    method WriteLoop(i: nat, src: seq<Byte>, good: nat, off: nat, ghost s: Fs)
      returns (tot: nat, pos: nat, spill: seq<Byte>, ghost ds: set<int>, ghost bs: set<int>)
      requires s == S() && Writing(g, s, S(), owner, i, off, src[..0], logged, {}, {}) && off + |src| <= MAXBYTES
      modifies this
      ensures tot <= |src| && tot <= good && pos == off + tot && Spilt(g, s, S(), owner, i, off, pos, src[..tot], spill, ds, bs)
      ensures if tot < |src| then Stopped(g, S(), i, pos, src, good, 0, |src|, tot, spill) else spill == []
      ensures tot < |src| ==> Untouched(g, s, S(), i, BlockOf(pos))
      ensures |src| <= MAXCHUNK ==> |ds| + |bs| <= |s.logged| + 7
    {
      tot, pos, spill, ds, bs := 0, off, [], logged, {};
      ghost var q: nat, f: nat, b: nat := 0, 0, BlockOf(off);
      while tot < |src|
        invariant tot <= |src| && tot <= good && pos == off + tot && spill == [] && b == BlockOf(off) + q && Untouched(g, s, S(), i, b)
        invariant Writing(g, s, S(), owner, i, off, src[..tot], ds, bs, {})
        invariant |ds| <= |s.logged| + q && |bs| <= f && Rounds(off, |src|, tot, q, f)
      {
        var done, m, tot';
        ghost var nb := b + 1;
        done, m, tot', spill, ds, bs, f := WriteNext(i, src, good, off, pos, tot, b, nb, s, ds, bs, q, f);
        q := q + 1;
        if !done {
          RoundsBound(off, |src|, tot', q, f);
          return;
        }
        tot, pos, b := tot', pos + m, nb;
      }
      NothingSpilt(g, s, S(), owner, i, off, pos, src[..tot], ds, bs);
      RoundsBound(off, |src|, tot, q, f);
    }

    /** The end of writei. */
    method WriteFinish(i: nat, end: nat)
      requires Shape(g, S()) && i < g.ninodes
      modifies this`inodes, this`disk, this`logged
      ensures S() == Finished(g, old(S()), i, end)
    {
      if end > inodes[i].size {
        inodes := inodes[i := inodes[i].(size := end)];
      }
      assert inodes == old(inodes)[i := old(inodes)[i].(size := Max(old(inodes)[i].size, end))];
      Iupdate(i);
    }

    /** The same, at the end of the loop that began in `s`. */
    method WriteEnd(i: nat, ghost off: nat, pos: nat, ghost data: seq<Byte>, ghost spill: seq<Byte>,
                    ghost s: Fs, ghost o: map<int, Place>, ghost ds: set<int>, ghost bs: set<int>)
      requires Valid(g, s, o) && Spilt(g, s, S(), owner, i, off, pos, data, spill, ds, bs) && off <= s.inodes[i].size
      modifies this`inodes, this`disk, this`logged
      ensures Valid(g, S(), owner) && WriteDone(g, s, S(), i, off, pos, data, spill) && |logged| <= |ds| + |bs| + 3
      ensures S() == Finished(g, old(S()), i, pos)
    {
      ghost var u := WritingEnds(g, s, S(), o, owner, i, off, pos, data, spill, ds, bs);
      WriteFinish(i, pos);
      assert S() == u;
    }

    /** writei once its arguments have passed the tests. */
    method WriteBytes(i: nat, src: seq<Byte>, good: nat, off: nat) returns (r: nat, pos: nat, spill: seq<Byte>)
      requires Valid(g, S(), owner) && i < g.ninodes
      requires off <= inodes[i].size <= MAXBYTES && off + |src| <= MAXBYTES
      modifies this
      ensures r <= |src| && r <= good && Valid(g, S(), owner) && WriteDone(g, old(S()), S(), i, off, pos, src[..r], spill)
      ensures if r < |src| then Stopped(g, S(), i, pos, src, good, 0, |src|, r, spill) else spill == []
      ensures r < |src| ==> Untouched(g, old(S()), S(), i, BlockOf(pos))
      ensures inodes[i].size <= MAXBYTES
      ensures Contents(S(), i) == Overwrite(old(Contents(S(), i)), off, src[..r]) <==> Unspilt(old(Contents(S(), i)), off, src, good)
      ensures old(logged) == {} && |src| <= MAXCHUNK ==> |logged| <= MAXOPBLOCKS
    {
      ghost var s, o := S(), owner;
      WritingStarts(g, s, o, i, off, src[..0]);
      ghost var ds, bs;
      r, pos, spill, ds, bs := WriteLoop(i, src, good, off, s);
      if r < |src| {
        FinishedUntouched(g, s, S(), o, i, pos, BlockOf(pos));
        StoppedFinished(g, S(), i, pos, src, good, 0, |src|, r, spill);
      }
      WriteEnd(i, off, pos, src[..r], spill, s, o, ds, bs);
      SpillSeen(g, s, S(), owner, i, off, pos, src, good, r, src[..r], spill);
    }

    /** writei: write `n` bytes of `src` at `off`, which becomes `pos`. The first `good` bytes of `src`
        can be read; copying a chunk that reaches past them fails, and `spill` is what was copied of it. */
    method Writei(i: nat, src: seq<Byte>, good: nat, off: int, n: int) returns (r: int, pos: nat, spill: seq<Byte>)
      requires Valid(g, S(), owner) && i < g.ninodes
      requires 0 <= off < 0x1_0000_0000 && 0 <= n < 0x1_0000_0000 && |src| == n
      modifies this
      ensures Valid(g, S(), owner)
      ensures r == -1 <==> off > old(inodes)[i].size || off + n >= 0x1_0000_0000 || off + n > MAXBYTES
      ensures r == -1 ==> S() == old(S()) && spill == []
      ensures r != -1 ==> 0 <= r <= n && r <= good && WriteDone(g, old(S()), S(), i, off, pos, src[..r], spill)
      ensures r != -1 ==> if r < n then Stopped(g, S(), i, pos, src, good, 0, |src|, r, spill) else spill == []
      ensures r != -1 && r < n ==> Untouched(g, old(S()), S(), i, BlockOf(pos))
      ensures r != -1 ==> old(inodes)[i].size <= MAXBYTES && inodes[i].size <= MAXBYTES
      ensures r != -1 ==>
        (Contents(S(), i) == Overwrite(old(Contents(S(), i)), off, src[..r]) <==> Unspilt(old(Contents(S(), i)), off, src, good))
      ensures r != -1 && old(logged) == {} && n <= MAXCHUNK ==> |logged| <= MAXOPBLOCKS
    {
      assert Mapped(S(), i, inodes[i].size);
      if off > inodes[i].size || off + n >= 0x1_0000_0000 {
        return -1, off, [];
      }
      if off + n > MAXBYTES {
        return -1, off, [];
      }
      r, pos, spill := WriteBytes(i, src, good, off);
    }

    /** The part of a round of readi that finds the block and copies from it, from file offset `pos` to `end`. */
    method ReadBlock(i: nat, pos: nat, m: nat, ghost end: nat) returns (addr: int, bytes: seq<Byte>)
      requires Ok() && i < g.ninodes && Mapped(S(), i, inodes[i].size)
      requires end == pos + m <= inodes[i].size && Within(pos) + m <= BSIZE && 0 < m
      modifies this
      ensures S() == old(S()) && owner == old(owner)
      ensures addr != 0 && |bytes| == m && bytes == Contents(S(), i)[pos..end]
    {
      var bn, at := BlockOf(pos), Within(pos);
      assert Addr(S(), i, Pos(bn)) != 0;
      addr := Bmap(i, bn);
      var to := at + m;
      ReadChunk(g, S(), owner, i, pos, end, addr, at, to);
      bytes := ToBytes(blocks[addr])[at..to];
    }

    /** The loop of readi. */
    method ReadLoop(i: nat, good: nat, off: nat, k: nat) returns (r: int, out: seq<Byte>)
      requires Ok() && i < g.ninodes && Mapped(S(), i, inodes[i].size) && off + k <= inodes[i].size
      modifies this
      ensures S() == old(S()) && owner == old(owner)
      ensures if good < k then r == -1 else r == k && out == old(Contents(S(), i))[off..off + k]
    {
      ghost var s, c := S(), Contents(S(), i);
      var pos := off;
      r, out := 0, [];
      while r < k
        invariant 0 <= r <= k && r <= good && pos == off + r && S() == s && owner == old(owner)
        invariant out == c[off..pos]
      {
        var m := RoundLength(pos, k - r);
        ghost var end := pos + m;
        var addr, bytes := ReadBlock(i, pos, m, end);
        if addr == 0 {
          break;
        }
        if r + m > good {
          return -1, out;
        }
        SliceAppend(c, off, pos, end);
        out := out + bytes;
        r, pos := r + m, pos + m;
        assert pos == end;
      }
      assert pos == off + k;
    }

    /** readi: read `n` bytes at `off`. The destination has room for the first
        `good`; copying a chunk that reaches past them fails. */
    method Readi(i: nat, good: nat, off: int, n: int) returns (r: int, out: seq<Byte>)
      requires Valid(g, S(), owner) && i < g.ninodes
      requires 0 <= off < 0x1_0000_0000 && 0 <= n < 0x1_0000_0000
      modifies this
      ensures S() == old(S()) && owner == old(owner)
      ensures old(Mapped(S(), i, inodes[i].size))
      ensures var c := old(Contents(S(), i));
              if off > |c| || off + n >= 0x1_0000_0000 then r == 0 && out == []
              else var k := if off + n > |c| then |c| - off else n;
                   if good < k then r == -1 else r == k && out == c[off..off + k]
    {
      out := [];
      assert Mapped(S(), i, inodes[i].size);
      if off > inodes[i].size || off + n >= 0x1_0000_0000 {
        return 0, out;
      }
      var k := if off + n > inodes[i].size then inodes[i].size - off else n;
      r, out := ReadLoop(i, good, off, k);
    }

    /** bfree; false is the panic "freeing free block". */
    method Bfree(b: int) returns (ok: bool)
      requires 0 <= b < |used|
      modifies this`used, this`logged
      ensures ok <==> old(used)[b]
      ensures S() == if ok then Drop(g, old(S()), b) else old(S())
    {
      if !used[b] {
        return false;
      }
      used := used[b := false];
      logged := logged + {g.BBlock(b)};
      return true;
    }

    /** One round of the first loop of itrunc. */
    method FreeDirect(i: nat, k: nat, ghost k': nat, ghost s: Fs) returns (ok: bool)
      requires Truncating(g, s, owner, used, logged, i, k, NDIRECT + 1) && k < NDIRECT && k' == k + 1
      requires |inodes| == g.ninodes && |inodes[i].addrs| == NDIRECT + 1 && inodes[i].addrs[k] == s.inodes[i].addrs[k]
      modifies this`used, this`logged, this`inodes
      ensures ok && Truncating(g, s, owner, used, logged, i, k', NDIRECT + 1)
      ensures inodes == old(inodes)[i := old(inodes)[i].(addrs := old(inodes)[i].addrs[k := 0])]
    {
      FreeNextDirect(g, s, owner, used, i, k, k', NDIRECT + 1);
      ok := true;
      if inodes[i].addrs[k] != 0 {
        BitsFreed(g, s, used, logged, inodes[i].addrs[k]);
        ok := Bfree(inodes[i].addrs[k]);
        if !ok {
          return;
        }
        inodes := inodes[i := inodes[i].(addrs := inodes[i].addrs[k := 0])];
      } else {
        assert inodes[i].addrs[k := 0] == inodes[i].addrs;
      }
    }

    /** The first loop of itrunc. */
    method TruncDirect(i: nat, ghost s: Fs) returns (ok: bool)
      requires s == S() && Truncating(g, s, owner, used, logged, i, 0, NDIRECT + 1)
      modifies this`used, this`logged, this`inodes
      ensures ok && Truncating(g, s, owner, used, logged, i, NDIRECT, NDIRECT + 1)
      ensures |inodes| == g.ninodes && |inodes[i].addrs| == NDIRECT + 1
      ensures inodes == s.inodes[i := s.inodes[i].(addrs := Cleared(s.inodes[i].addrs, NDIRECT))]
    {
      var k := 0;
      ClearedNext(s.inodes, i, 0, 1);
      while k < NDIRECT
        invariant k <= NDIRECT && Truncating(g, s, owner, used, logged, i, k, NDIRECT + 1)
        invariant inodes == s.inodes[i := s.inodes[i].(addrs := Cleared(s.inodes[i].addrs, k))]
      {
        var next := k + 1;
        ClearedNext(s.inodes, i, k, next);
        ok := FreeDirect(i, k, next, s);
        if !ok {
          return;
        }
        k := next;
      }
      ok := true;
    }

    /** One round of the second loop of itrunc. */
    method FreeIndirect(i: nat, a: int, ghost e: nat, ghost e': nat, ghost s: Fs) returns (ok: bool)
      requires Truncating(g, s, owner, used, logged, i, NDIRECT, e) && NDIRECT < e < POSITIONS && e' == e + 1 && a == Addr(s, i, e)
      modifies this`used, this`logged
      ensures ok && Truncating(g, s, owner, used, logged, i, NDIRECT, e')
    {
      FreeNextEntry(g, s, owner, used, i, NDIRECT, e, e');
      ok := true;
      if a != 0 {
        BitsFreed(g, s, used, logged, a);
        ok := Bfree(a);
      }
    }

    /** The second loop of itrunc, and the indirect block itself. */
    method TruncIndirect(i: nat, ghost s: Fs) returns (ok: bool)
      requires Truncating(g, s, owner, used, logged, i, NDIRECT, NDIRECT + 1)
      requires blocks == s.blocks && |inodes| == g.ninodes && |inodes[i].addrs| == NDIRECT + 1
      requires inodes[i].addrs[NDIRECT] == s.inodes[i].addrs[NDIRECT] != 0
      modifies this`used, this`logged, this`inodes
      ensures ok && Truncating(g, s, owner, used, logged, i, NDIRECT + 1, POSITIONS)
      ensures inodes == old(inodes)[i := old(inodes)[i].(addrs := old(inodes)[i].addrs[NDIRECT := 0])]
    {
      var ind := inodes[i].addrs[NDIRECT];
      assert Addr(s, i, NDIRECT) in owner;
      assert blocks[ind].Full();
      var a := blocks[ind].words;
      var j := 0;
      ghost var e: nat := NDIRECT + 1;
      while j < NINDIRECT
        invariant j <= NINDIRECT && inodes == old(inodes) && e == NDIRECT + 1 + j && Truncating(g, s, owner, used, logged, i, NDIRECT, e)
      {
        ghost var next := e + 1;
        ok := FreeIndirect(i, a[j], e, next, s);
        if !ok {
          return;
        }
        j, e := j + 1, next;
      }
      FreeNextDirect(g, s, owner, used, i, NDIRECT, NDIRECT + 1, POSITIONS);
      BitsFreed(g, s, used, logged, ind);
      ok := Bfree(ind);
      if !ok {
        return;
      }
      inodes := inodes[i := inodes[i].(addrs := inodes[i].addrs[NDIRECT := 0])];
    }

    /** The end of itrunc. */
    method TruncEnd(i: nat, ghost s: Fs, ghost o: map<int, Place>)
      requires Valid(g, s, o) && Truncating(g, s, o, used, logged, i, NDIRECT + 1, POSITIONS) && blocks == s.blocks && disk == s.disk
      requires inodes == s.inodes[i := s.inodes[i].(addrs := Cleared(s.inodes[i].addrs, NDIRECT + 1))]
      modifies this
      ensures Truncated(g, s, o, S(), i) && owner == Without(o, i) && Valid(g, S(), owner)
      ensures OthersKept(g, s, S(), i) && Contents(S(), i) == [] && Recorded(g, s, S(), {})
      ensures logged == s.logged + ChangedBits(g, s, used) + {g.IBlock(i)}
    {
      ghost var t := TruncationEnds(g, s, o, used, logged, i);
      inodes := inodes[i := inodes[i].(size := 0)];
      Iupdate(i);
      assert S() == t;
      owner := Without(o, i);
    }

    /** itrunc: frees exactly the blocks of inode `i` and never panics. */
    method Itrunc(i: nat) returns (ok: bool)
      requires Valid(g, S(), owner) && i < g.ninodes
      modifies this
      ensures ok
      ensures Truncated(g, old(S()), old(owner), S(), i) && owner == Without(old(owner), i)
      ensures Valid(g, S(), owner) && OthersKept(g, old(S()), S(), i) && Contents(S(), i) == []
      ensures Recorded(g, old(S()), S(), {}) && logged == old(logged) + ChangedBits(g, old(S()), used) + {g.IBlock(i)}
    {
      ghost var s, o := S(), owner;
      ok := TruncDirect(i, s);
      if !ok {
        return;
      }
      if inodes[i].addrs[NDIRECT] != 0 {
        ok := TruncIndirect(i, s);
        if !ok {
          return;
        }
      } else {
        NoEntries(g, s, o, used, i);
      }
      assert inodes[i].addrs == Cleared(s.inodes[i].addrs, NDIRECT + 1);
      TruncEnd(i, s, o);
    }
  }
}
