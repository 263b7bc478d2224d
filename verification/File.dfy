/** The chunking of writes to files in kernel/file.c. */
module File {
  import opened Blocks
  import opened LogDisk
  import opened FsState
  import opened FsOps

  /** What the chunks written so far have done to the file system: together they wrote `data`, and
      the last of them spilt `spill`. */
  ghost predicate Wrote(g: Geometry, s: Fs, t: Fs, i: nat, off: nat, data: seq<Byte>, spill: seq<Byte>) {
    && i < g.ninodes && Shape(g, s) && Shape(g, t) && s.inodes[i].size <= MAXBYTES && t.inodes[i].size <= MAXBYTES
    && OthersKept(g, s, t, i) && (s.disk == s.inodes ==> t.disk == t.inodes)
    && (off <= s.inodes[i].size ==> Contents(t, i) == Smeared(Contents(s, i), off, data, spill))
    && (off > s.inodes[i].size ==> Contents(t, i) == Contents(s, i) && |data| == |spill| == 0)
  }

  /** The bytes of `src` that one chunk writes are the next ones. */
  lemma ChunkBytes(src: seq<Byte>, done: nat, chunk: seq<Byte>, r: nat, done': nat)
    requires done' == done + r && r <= |chunk| && done + |chunk| <= |src| && chunk == src[done..done + |chunk|]
    ensures src[..done] + chunk[..r] == src[..done']
  {
  }

  lemma WroteMore(g: Geometry, s: Fs, z: Fs, u: Fs, i: nat, off: nat, a: seq<Byte>, pos: nat, end: nat, b: seq<Byte>,
                  all: seq<Byte>, spill: seq<Byte>)
    requires Wrote(g, s, z, i, off, a, []) && pos == off + |a| && WriteDone(g, z, u, i, pos, end, b, spill) && all == a + b
    ensures Wrote(g, s, u, i, off, all, spill)
  {
    KeptTwice(g, s, z, u, i);
    if off <= s.inodes[i].size {
      SmearedNothing(Contents(s, i), off, a);
      SmearedTwice(Contents(s, i), off, a, b, spill);
    }
  }

  /** A new transaction begins: nothing is logged. */
  lemma Begun(g: Geometry, s: Fs, t: Fs, o: map<int, Place>, i: nat, off: nat, a: seq<Byte>) returns (z: Fs)
    requires Valid(g, t, o) && Wrote(g, s, t, i, off, a, [])
    ensures z == t.(logged := {}) && Valid(g, z, o) && Wrote(g, s, z, i, off, a, [])
  {
    z := t.(logged := {});
    Relogged(g, t, o, {}, i);
    KeptTwice(g, s, t, z, i);
  }

  lemma WroteStart(g: Geometry, s: Fs, o: map<int, Place>, i: nat, off: nat, data: seq<Byte>)
    requires Valid(g, s, o) && i < g.ninodes && data == []
    ensures Wrote(g, s, s, i, off, data, [])
  {
    assert Mapped(s, i, s.inodes[i].size);
    if off <= s.inodes[i].size {
      SmearedNothing(Contents(s, i), off, data);
      OverwriteNothing(Contents(s, i), off, data);
    }
  }

  /** Where the chunk that begins at `done` ends. */
  function ChunkEnd(done: nat, n: nat): (end: nat)
    requires done <= n
    ensures done <= end <= n && end <= done + MAXCHUNK
  {
    if n - done > MAXCHUNK then done + MAXCHUNK else n
  }

  /** A write of `n` bytes, of which it wrote `done`, makes `k` transactions: as many chunks as `n` has,
      or as far as the one in which it stopped. */
  predicate Counted(done: nat, n: nat, k: nat) {
    if done < n then 0 < k && ChunkStart(k - 1) <= done < ChunkStart(k) else ChunkStart(k - 1) < n <= ChunkStart(k)
  }

  /** The same after `k` transactions that all wrote what they should. */
  predicate CountedFull(done: nat, n: nat, k: nat) {
    if done < n then done == ChunkStart(k) else Counted(done, n, k)
  }

  lemma OneMore(done: nat, n: nat, k: nat, done': nat)
    requires CountedFull(done, n, k) && done < n && done <= done' <= ChunkEnd(done, n)
    ensures if done' == ChunkEnd(done, n) then CountedFull(done', n, k + 1) else Counted(done', n, k + 1)
  {
  }

  /** Writei refuses the chunk after the first `done` bytes of a write that began in `s`: it would
      begin behind the end of the file or make the file too large. */
  ghost predicate Refused(s: Fs, i: nat, src: seq<Byte>, off: nat, done: nat)
    requires i < |s.inodes| && done <= |src|
  {
    off > s.inodes[i].size || off + ChunkEnd(done, |src|) > MAXBYTES
  }

  lemma RefusedNext(g: Geometry, s: Fs, t: Fs, i: nat, src: seq<Byte>, off: nat, done: nat)
    requires done <= |src| && Wrote(g, s, t, i, off, src[..done], [])
    ensures t.inodes[i].size == if off <= s.inodes[i].size then Max(s.inodes[i].size, off + done) else s.inodes[i].size
    ensures Refused(s, i, src, off, done) <==>
            off + done > t.inodes[i].size || off + ChunkEnd(done, |src|) > MAXBYTES
  {
    assert |Contents(t, i)| == t.inodes[i].size;
  }

  /** Why filewrite stopped after `done` bytes, at file offset `pos`, in its transaction number `k`: writei refused that
      chunk, or stopped within it. */
  ghost predicate Ended(g: Geometry, s: Fs, t: Fs, i: nat, src: seq<Byte>, good: nat, off: nat, done: nat, pos: nat, spill: seq<Byte>, k: nat)
    requires i < |s.inodes| && done <= |src|
  {
    var start := ChunkStart(k - 1);
    && 0 <= start <= done
    && ((done == start && Refused(s, i, src, off, done) && spill == [])
        || (!Refused(s, i, src, off, start) && Stopped(g, t, i, pos, src, good, start, ChunkEnd(start, |src|), done, spill)))
  }

  lemma SliceOfSlice(src: seq<Byte>, a: nat, b: nat, c: nat, d: nat)
    requires a <= b <= |src| && c <= d <= b - a
    ensures src[a..b][c..d] == src[a + c..a + d]
  {
    forall k | 0 <= k < d - c ensures src[a..b][c..d][k] == src[a + c..a + d][k] {
    }
  }

  lemma StoppedChunk(g: Geometry, t: Fs, i: nat, pos: nat, src: seq<Byte>, good: nat, done: nat, end: nat, chunk: seq<Byte>, rest: nat,
                     r: nat, done': nat, spill: seq<Byte>)
    requires done <= good && rest == good - done && end == done + |chunk| <= |src| && chunk == src[done..end] && done' == done + r
    requires Stopped(g, t, i, pos, chunk, rest, 0, |chunk|, r, spill)
    ensures Stopped(g, t, i, pos, src, good, done, end, done', spill)
  {
    assert |chunk| - r == end - done';
    if !(DiskFull(t) && spill == []) {
      SliceOfSlice(src, done, end, r, rest);
    }
  }

  /** One transaction led from `z` to `u`. It gave at most MAXOPBLOCKS blocks to the log, and among them all that it
      changed, except the block it spilt bytes into at file offset `p`; if the file had that block before, it is not logged. */
  ghost predicate Transaction(g: Geometry, z: Fs, u: Fs, i: nat, p: nat, spill: seq<Byte>) {
    && i < g.ninodes && Shape(g, z.(logged := {})) && Shape(g, u) && AddrsKept(g, z.(logged := {}), u, i)
    && Recorded(g, z.(logged := {}), u, Unlogged(g, u, i, p, spill)) && |u.logged| <= MAXOPBLOCKS
    && (spill != [] ==> Untouched(g, z.(logged := {}), u, i, BlockOf(p)))
  }

  lemma NoTransaction(g: Geometry, z: Fs, i: nat, p: nat)
    requires i < g.ninodes && Shape(g, z.(logged := {}))
    ensures Transaction(g, z, z.(logged := {}), i, p, [])
  {
  }

  /** Transactions led from `s` to `t`, by way of `ends`; only the last one may have spilt bytes. */
  ghost predicate Chain(g: Geometry, s: Fs, t: Fs, ends: seq<Fs>, i: nat, p: nat, spill: seq<Byte>) {
    && 0 < |ends| && ends[0] == s && ends[|ends| - 1] == t
    && forall k :: 0 <= k < |ends| - 1 ==> Transaction(g, ends[k], ends[k + 1], i, p, if k == |ends| - 2 then spill else [])
  }

  lemma ChainOn(g: Geometry, s: Fs, t: Fs, u: Fs, ends: seq<Fs>, i: nat, p: nat, none: seq<Byte>, p': nat, spill: seq<Byte>)
    requires Chain(g, s, t, ends, i, p, none) && none == [] && Transaction(g, t, u, i, p', spill)
    ensures Chain(g, s, u, ends + [u], i, p', spill)
  {
    forall k | 0 <= k < |ends| - 1 ensures Transaction(g, ends[k], ends[k + 1], i, p', []) {
      assert Transaction(g, ends[k], ends[k + 1], i, p, none);
    }
  }

  /** After `k` whole chunks the file system is well formed, and they are what has been written. */
  ghost predicate AfterChunks(g: Geometry, s: Fs, t: Fs, i: nat, off: nat, src: seq<Byte>, k: nat) {
    ChunkStart(k) <= |src| && (exists o :: Valid(g, t, o)) && Wrote(g, s, t, i, off, src[..ChunkStart(k)], [])
  }

  /** All states of `ends` but the last are so. */
  ghost predicate WholeChunks(g: Geometry, s: Fs, ends: seq<Fs>, i: nat, off: nat, src: seq<Byte>) {
    forall k :: 0 <= k < |ends| - 1 ==> AfterChunks(g, s, ends[k], i, off, src, k)
  }

  lemma WholeChunksOn(g: Geometry, s: Fs, t: Fs, u: Fs, o: map<int, Place>, ends: seq<Fs>, i: nat, off: nat, src: seq<Byte>, good: nat,
                      done: nat, pos: nat, spill: seq<Byte>, k: nat)
    requires WholeChunks(g, s, ends, i, off, src) && |ends| == k + 1 && ends[|ends| - 1] == t && done < |src|
    requires Chunks(g, s, t, o, i, src, good, off, done, pos, spill, k, true)
    ensures WholeChunks(g, s, ends + [u], i, off, src)
  {
    assert AfterChunks(g, s, t, i, off, src, k);
    forall j | 0 <= j < |ends + [u]| - 1 ensures AfterChunks(g, s, (ends + [u])[j], i, off, src, j) {
    }
  }

  /** One transaction led to `u` and the write from `done` to `done'` bytes, up to file offset `pos'`. */
  ghost predicate ChunkDone(g: Geometry, s: Fs, u: Fs, o: map<int, Place>, i: nat, src: seq<Byte>, good: nat, off: nat,
                            done: nat, done': nat, pos': nat, spill: seq<Byte>) {
    && i < g.ninodes && done <= done' <= |src| && done' <= good && pos' == off + done' < 0x1_0000_0000
    && done' <= ChunkEnd(done, |src|)
    && Valid(g, u, o) && Wrote(g, s, u, i, off, src[..done'], spill)
    && if done' == ChunkEnd(done, |src|) then spill == []
       else
         || (!Refused(s, i, src, off, done) && Stopped(g, u, i, pos', src, good, done, ChunkEnd(done, |src|), done', spill))
         || (done' == done && Refused(s, i, src, off, done) && spill == [])
  }

  lemma ChunkRefused(g: Geometry, s: Fs, t: Fs, z: Fs, o: map<int, Place>, i: nat, src: seq<Byte>, good: nat, off: nat,
                     done: nat, pos: nat, spill: seq<Byte>)
    requires done < |src| && done <= good && pos == off + done < 0x1_0000_0000 && spill == []
    requires z == t.(logged := {}) && Valid(g, z, o) && Wrote(g, s, z, i, off, src[..done], []) && Refused(s, i, src, off, done)
    ensures ChunkDone(g, s, z, o, i, src, good, off, done, done, pos, spill) && Transaction(g, t, z, i, pos, spill)
  {
    NoTransaction(g, t, i, pos);
  }

  lemma ChunkWritten(g: Geometry, s: Fs, t: Fs, z: Fs, u: Fs, o: map<int, Place>, i: nat, src: seq<Byte>, good: nat, off: nat, done: nat,
                     end: nat, pos: nat, chunk: seq<Byte>, rest: nat, r: nat, done': nat, pos': nat, spill: seq<Byte>)
    requires done < |src| && done <= good && rest == good - done && end == ChunkEnd(done, |src|) && end == done + |chunk|
    requires chunk == src[done..end] && r <= |chunk| && r <= rest && pos == off + done && done' == done + r && pos' == pos + r < 0x1_0000_0000
    requires z == t.(logged := {}) && Wrote(g, s, z, i, off, src[..done], []) && !Refused(s, i, src, off, done)
    requires Valid(g, u, o) && WriteDone(g, z, u, i, pos, pos', chunk[..r], spill) && |u.logged| <= MAXOPBLOCKS
    requires if r < |chunk| then Stopped(g, u, i, pos', chunk, rest, 0, |chunk|, r, spill) && Untouched(g, z, u, i, BlockOf(pos')) else spill == []
    ensures ChunkDone(g, s, u, o, i, src, good, off, done, done', pos', spill) && Transaction(g, t, u, i, pos', spill)
  {
    ChunkBytes(src, done, chunk, r, done');
    WroteMore(g, s, z, u, i, off, src[..done], pos, pos', chunk[..r], src[..done'], spill);
    if r < |chunk| {
      StoppedChunk(g, u, i, pos', src, good, done, end, chunk, rest, r, done', spill);
    }
  }

  /** The call of writei in a transaction that began in `t`. */
  method WritePart(fs: FileSystem, i: nat, src: seq<Byte>, done: nat, good: nat, ghost off: nat, pos: nat, ghost s: Fs, ghost t: Fs)
    returns (done': nat, pos': nat, more: bool, spill: seq<Byte>)
    requires Valid(fs.g, fs.S(), fs.owner) && fs.S() == t.(logged := {})
    requires done < |src| && done <= good && pos == off + done < 0x1_0000_0000 && Wrote(fs.g, s, fs.S(), i, off, src[..done], [])
    modifies fs
    ensures ChunkDone(fs.g, s, fs.S(), fs.owner, i, src, good, off, done, done', pos', spill)
    ensures Transaction(fs.g, t, fs.S(), i, pos', spill)
    ensures more <==> done' == ChunkEnd(done, |src|)
  {
    ghost var z := fs.S();
    RefusedNext(fs.g, s, z, i, src, off, done);
    var end := ChunkEnd(done, |src|);
    var n1 := end - done;
    var chunk, rest := src[done..end], good - done;
    var r;
    r, pos', spill := fs.Writei(i, chunk, rest, pos, n1);
    more := r == n1;
    if r < 0 {
      done', pos' := done, pos;
      ChunkRefused(fs.g, s, t, z, fs.owner, i, src, good, off, done, pos, spill);
    } else {
      done' := done + r;
      ChunkWritten(fs.g, s, t, z, fs.S(), fs.owner, i, src, good, off, done, end, pos, chunk, rest, r, done', pos', spill);
    }
  }

  /** One transaction of filewrite: the next bytes of `src` after the first `done`, at most MAXCHUNK, at
      file offset `pos`. The loop goes on only if all of them were written. */
  method WriteChunk(fs: FileSystem, i: nat, src: seq<Byte>, done: nat, good: nat, ghost off: nat, pos: nat, ghost s: Fs)
    returns (done': nat, pos': nat, more: bool, spill: seq<Byte>)
    requires Valid(fs.g, fs.S(), fs.owner)
    requires done < |src| && done <= good && pos == off + done < 0x1_0000_0000 && Wrote(fs.g, s, fs.S(), i, off, src[..done], [])
    modifies fs
    ensures ChunkDone(fs.g, s, fs.S(), fs.owner, i, src, good, off, done, done', pos', spill)
    ensures Transaction(fs.g, old(fs.S()), fs.S(), i, pos', spill)
    ensures more <==> done' == ChunkEnd(done, |src|)
  {
    ghost var t := fs.S();
    ghost var z := Begun(fs.g, s, t, fs.owner, i, off, src[..done]);
    fs.logged := {};
    assert fs.S() == z;
    done', pos', more, spill := WritePart(fs, i, src, done, good, off, pos, s, t);
  }

  /** After `k` transactions, the last of which wrote all it should if `more`. */
  ghost predicate Chunks(g: Geometry, s: Fs, t: Fs, o: map<int, Place>, i: nat, src: seq<Byte>, good: nat, off: nat,
                         done: nat, pos: nat, spill: seq<Byte>, k: nat, more: bool) {
    && i < g.ninodes && done <= |src| && done <= good && pos == off + done < 0x1_0000_0000
    && Valid(g, t, o) && Wrote(g, s, t, i, off, src[..done], spill)
    && if more then spill == [] && CountedFull(done, |src|, k)
       else done < |src| && Ended(g, s, t, i, src, good, off, done, pos, spill, k) && Counted(done, |src|, k)
  }

  lemma ChunksStart(g: Geometry, s: Fs, o: map<int, Place>, i: nat, src: seq<Byte>, good: nat, off: nat)
    requires Valid(g, s, o) && i < g.ninodes && off < 0x1_0000_0000
    ensures Chunks(g, s, s, o, i, src, good, off, 0, off, [], 0, true)
  {
    WroteStart(g, s, o, i, off, src[..0]);
  }

  lemma ChunksNext(g: Geometry, s: Fs, t: Fs, u: Fs, o: map<int, Place>, o': map<int, Place>, i: nat, src: seq<Byte>, good: nat,
                   off: nat, done: nat, pos: nat, none: seq<Byte>, done': nat, pos': nat, spill: seq<Byte>, k: nat, k': nat, more: bool)
    requires Chunks(g, s, t, o, i, src, good, off, done, pos, none, k, true) && done < |src| && k' == k + 1
    requires ChunkDone(g, s, u, o', i, src, good, off, done, done', pos', spill)
    requires more <==> done' == ChunkEnd(done, |src|)
    ensures Chunks(g, s, u, o', i, src, good, off, done', pos', spill, k', more)
  {
    OneMore(done, |src|, k, done');
    assert ChunkStart(k' - 1) == done;
  }

  /** The effect of filewrite: it wrote the first `done` bytes of `src`, all of them or until a reason
      stopped it, in `k` transactions. */
  ghost predicate Result(g: Geometry, s: Fs, t: Fs, o: map<int, Place>, i: nat, src: seq<Byte>, good: nat, off: nat,
                         done: nat, pos: nat, spill: seq<Byte>, k: nat) {
    && i < g.ninodes && done <= |src| && done <= good && pos == off + done
    && Valid(g, t, o) && Wrote(g, s, t, i, off, src[..done], spill)
    && (if done < |src| then Ended(g, s, t, i, src, good, off, done, pos, spill, k) else spill == [])
    && Counted(done, |src|, k)
  }

  /** The loop of filewrite. */
  method WriteChunks(fs: FileSystem, i: nat, src: seq<Byte>, good: nat, off: nat)
    returns (done: nat, pos: nat, spill: seq<Byte>, ghost ends: seq<Fs>, ghost k: nat)
    requires Valid(fs.g, fs.S(), fs.owner) && i < fs.g.ninodes && off < 0x1_0000_0000
    modifies fs
    ensures Chain(fs.g, old(fs.S()), fs.S(), ends, i, pos, spill) && |ends| == k + 1
    ensures WholeChunks(fs.g, old(fs.S()), ends, i, off, src)
    ensures Result(fs.g, old(fs.S()), fs.S(), fs.owner, i, src, good, off, done, pos, spill, k)
  {
    ghost var s := fs.S();
    done, pos, spill, ends, k := 0, off, [], [s], 0;
    ChunksStart(fs.g, s, fs.owner, i, src, good, off);
    var more := true;
    while done < |src| && more
      invariant Chain(fs.g, s, fs.S(), ends, i, pos, spill) && |ends| == k + 1 && WholeChunks(fs.g, s, ends, i, off, src)
      invariant Chunks(fs.g, s, fs.S(), fs.owner, i, src, good, off, done, pos, spill, k, more)
      decreases |src| - done, more
    {
      ghost var t, o, from, at, none, k' := fs.S(), fs.owner, done, pos, spill, k + 1;
      done, pos, more, spill := WriteChunk(fs, i, src, done, good, off, pos, s);
      ghost var u := fs.S();
      ChunksNext(fs.g, s, t, u, o, fs.owner, i, src, good, off, from, at, none, done, pos, spill, k, k', more);
      ChainOn(fs.g, s, t, u, ends, i, at, none, pos, spill);
      WholeChunksOn(fs.g, s, t, u, o, ends, i, off, src, good, from, at, none, k);
      ends, k := ends + [u], k';
    }
  }

  /** filewrite on an inode: `n` bytes of `src`, of which the first `good` can be read, at file offset
      `off`, which becomes `off'`. The transactions lead from one state of `ends` to the next. */
  method FileWrite(fs: FileSystem, i: nat, src: seq<Byte>, good: nat, off: nat, n: int)
    returns (ret: int, off': nat, done: nat, spill: seq<Byte>, ghost ends: seq<Fs>, ghost k: nat)
    requires Valid(fs.g, fs.S(), fs.owner) && i < fs.g.ninodes
    requires n < 0x8000_0000 && |src| == (if n < 0 then 0 else n) && off < 0x1_0000_0000
    modifies fs
    ensures Chain(fs.g, old(fs.S()), fs.S(), ends, i, off', spill) && |ends| == k + 1
    ensures WholeChunks(fs.g, old(fs.S()), ends, i, off, src)
    ensures Result(fs.g, old(fs.S()), fs.S(), fs.owner, i, src, good, off, done, off', spill, k)
    ensures ret == if done == n then n else -1
  {
    done, off', spill, ends, k := WriteChunks(fs, i, src, good, off);
    ret := if done == n then n else -1;
  }

  // What a failing copy leaves behind.

  /** The chunk of filewrite with byte `b`. */
  function ChunkOf(b: nat): (a: nat) {
    ChunkStart(b / 3072)
  }

  /** How many bytes of a write of `n` at `off` are done when copying fails: all in front of the block, and the chunk, with
      the first byte that cannot be read. */
  function LastChunkRound(off: nat, n: nat, good: nat): (r: nat) {
    if good >= n then n else if Start(BlockOf(off + good)) - off < ChunkOf(good) then ChunkOf(good) else Start(BlockOf(off + good)) - off
  }

  /** The bytes copied for a block that they do not fill are behind the end of the file or were there before, or the chunk
      that they are in is refused. */
  predicate FileUnspilt(c: seq<Byte>, off: nat, src: seq<Byte>, good: nat) {
    || good >= |src|
    || off + ChunkEnd(ChunkOf(good), |src|) > MAXBYTES
    || SameBytes(c, off, src, LastChunkRound(off, |src|, good), good)
  }

  lemma ChunkOfIs(b: nat, k: nat, len: nat)
    requires ChunkStart(k) <= b < ChunkStart(k) + len && len <= MAXCHUNK
    ensures ChunkOf(b) == ChunkStart(k)
  {
  }

  lemma ChunkOfAfter(b: nat, k: nat)
    requires ChunkStart(k) <= b
    ensures ChunkOf(b) <= b && (ChunkOf(b) == ChunkStart(k) || ChunkOf(b) >= ChunkStart(k) + MAXCHUNK)
  {
  }

  /** A copy that fails in the chunk from `start` to `end` does so where LastChunkRound says. */
  lemma LastChunkRoundIs(off: nat, n: nat, good: nat, k: nat, start: nat, end: nat, done: nat, pos: nat)
    requires start == ChunkStart(k) <= done < end <= n && end - start <= MAXCHUNK && pos == off + done && (done == start || Within(pos) == 0)
    requires done <= good < done + RoundLength(pos, end - done)
    ensures done == LastChunkRound(off, n, good) && ChunkOf(good) == start && good < n
  {
    ChunkOfIs(good, k, end - start);
    assert pos - Within(pos) == Start(BlockOf(pos));
    SameBlock(pos, good - done);
    assert pos + (good - done) == off + good;
  }

  lemma LastChunkRoundAfter(off: nat, n: nat, good: nat, k: nat, done: nat, pos: nat)
    requires ChunkStart(k) <= done <= good && done < n && pos == off + done && (done == ChunkStart(k) || Within(pos) == 0)
    ensures done <= LastChunkRound(off, n, good)
  {
    if good < n {
      ChunkOfAfter(good, k);
      BlocksMonotone(pos, off + good);
      assert pos - Within(pos) == Start(BlockOf(pos));
    }
  }

  lemma CopyFailed(c: seq<Byte>, off: nat, src: seq<Byte>, good: nat, k: nat, start: nat, end: nat, done: nat, pos: nat,
                   data: seq<Byte>, spill: seq<Byte>)
    requires off <= |c| && start == ChunkStart(k) <= done < |src| && done < end == ChunkEnd(start, |src|) && off + end <= MAXBYTES
    requires pos == off + done && (done == start || Within(pos) == 0) && done <= good < done + RoundLength(pos, end - done)
    requires data == src[..done] && spill == src[done..good]
    ensures Smeared(c, off, data, spill) == Overwrite(c, off, data) <==> FileUnspilt(c, off, src, good)
  {
    LastChunkRoundIs(off, |src|, good, k, start, end, done, pos);
    SmearSame(c, off, src, good, done, data, spill);
  }

  lemma BlockMissing(c: seq<Byte>, off: nat, src: seq<Byte>, good: nat, k: nat, done: nat, pos: nat)
    requires ChunkStart(k) <= done <= good && done < |src| && pos == off + done && (done == ChunkStart(k) || Within(pos) == 0) && |c| <= pos
    ensures FileUnspilt(c, off, src, good)
  {
    LastChunkRoundAfter(off, |src|, good, k, done, pos);
    BehindSame(c, off, src, LastChunkRound(off, |src|, good), good, done);
  }

  lemma ChunkTooLarge(c: seq<Byte>, off: nat, src: seq<Byte>, good: nat, k: nat, done: nat)
    requires done == ChunkStart(k) && done <= good && done < |src| && off + ChunkEnd(done, |src|) > MAXBYTES
    ensures FileUnspilt(c, off, src, good)
  {
    ChunkOfAfter(good, k);
  }

  /** filewrite of `src` leaves the file with the first `done` bytes of it written over, and nothing else, exactly if that
      is so before the call. */
  lemma FileSpillSeen(g: Geometry, s: Fs, t: Fs, o: map<int, Place>, i: nat, src: seq<Byte>, good: nat, off: nat, done: nat, pos: nat,
                      data: seq<Byte>, spill: seq<Byte>, k: nat)
    requires Result(g, s, t, o, i, src, good, off, done, pos, spill, k) && off <= s.inodes[i].size && data == src[..done]
    ensures Contents(t, i) == Overwrite(Contents(s, i), off, data) <==> FileUnspilt(Contents(s, i), off, src, good)
  {
    var c := Contents(s, i);
    if done == |src| {
      SmearedNothing(c, off, data);
    } else {
      EndedSeen(g, s, t, o, i, src, good, off, done, pos, data, spill, k, c);
    }
  }

  lemma EndedSeen(g: Geometry, s: Fs, t: Fs, o: map<int, Place>, i: nat, src: seq<Byte>, good: nat, off: nat, done: nat, pos: nat,
                  data: seq<Byte>, spill: seq<Byte>, k: nat, c: seq<Byte>)
    requires i < |s.inodes| && done < |src| && done <= good && k > 0 && pos == off + done && Valid(g, t, o) && data == src[..done]
    requires i < g.ninodes && off <= s.inodes[i].size && off <= |c| <= t.inodes[i].size && Ended(g, s, t, i, src, good, off, done, pos, spill, k)
    ensures Smeared(c, off, data, spill) == Overwrite(c, off, data) <==> FileUnspilt(c, off, src, good)
  {
    var start := ChunkStart(k - 1);
    var end := ChunkEnd(start, |src|);
    if spill == [] {
      SmearedNothing(c, off, data);
    }
    if done == start && Refused(s, i, src, off, done) {
      ChunkTooLarge(c, off, src, good, k - 1, done);
    } else if good < done + RoundLength(pos, end - done) && spill == src[done..good] {
      CopyFailed(c, off, src, good, k - 1, start, end, done, pos, data, spill);
    } else {
      MissingBehind(g, t, o, i, pos);
      BlockMissing(c, off, src, good, k - 1, done, pos);
    }
  }
}
