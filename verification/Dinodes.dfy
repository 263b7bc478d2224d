/** The bytes of inodes on the disk: IPB dinodes of 64 bytes in a block, kernel/fs.h and iupdate of kernel/fs.c. */
module Dinodes {
  import opened Blocks
  import opened FsState

  const IPB: nat := 16

  /** The fields fit: four shorts, taken without sign, and 32-bit words. */
  predicate Fits(d: Inode) {
    && 0 <= d.kind < 0x1_0000 && 0 <= d.major < 0x1_0000 && 0 <= d.minor < 0x1_0000 && 0 <= d.nlink < 0x1_0000
    && d.size < 0x1_0000_0000 && |d.addrs| == NDIRECT + 1
  }

  /** Two shorts in a word, the first in its lower half. */
  function Pair(a: int, b: int): (w: Word)
    requires 0 <= a < 0x1_0000 && 0 <= b < 0x1_0000
    ensures w % 0x1_0000 == a && w / 0x1_0000 == b
  {
    a + 0x1_0000 * b
  }

  function Encode(d: Inode): (w: seq<Word>)
    requires Fits(d)
    ensures |w| == 16
  {
    var head: seq<Word> := [Pair(d.kind, d.major), Pair(d.minor, d.nlink), d.size];
    head + d.addrs
  }

  function Decode(w: seq<Word>): (d: Inode)
    requires |w| == 16
  {
    Inode(w[0] % 0x1_0000, w[0] / 0x1_0000, w[1] % 0x1_0000, w[1] / 0x1_0000, w[2], w[3..])
  }

  lemma DinodeRoundTrip(d: Inode)
    requires Fits(d)
    ensures Decode(Encode(d)) == d
  {
    assert Encode(d)[3..] == d.addrs;
  }

  /** The words of dinode number `k` in a block are those from `At(k)` to `At(k + 1)`. */
  function At(k: int): (w: int) {
    k * 16
  }

  function GetDinode(b: Block, k: nat): (d: Inode)
    requires b.Full() && k < IPB
  {
    Decode(b.words[At(k)..At(k) + 16])
  }

  /** What iupdate writes: dinode number `k` of the block, and nothing else. */
  function PutDinode(b: Block, k: nat, d: Inode): (r: Block)
    requires b.Full() && k < IPB && Fits(d)
    ensures r.Full()
  {
    Block(b.words[..At(k)] + Encode(d) + b.words[At(k) + 16..])
  }

  lemma PutWords(b: Block, k: nat, d: Inode, j: nat)
    requires b.Full() && k < IPB && j < IPB && Fits(d)
    ensures PutDinode(b, k, d).words[At(j)..At(j) + 16] == if j == k then Encode(d) else b.words[At(j)..At(j) + 16]
  {
    var w := PutDinode(b, k, d).words;
    forall m | 0 <= m < 16 ensures w[At(j) + m] == if j == k then Encode(d)[m] else b.words[At(j) + m] {
      assert j < k ==> At(j) + m < At(k);
      assert j > k ==> At(j) + m >= At(k) + 16;
    }
  }

  /** An inode that iupdate has written reads back as it was, and so do the others in its block. */
  lemma PutGet(b: Block, k: nat, d: Inode, j: nat)
    requires b.Full() && k < IPB && j < IPB && Fits(d)
    ensures GetDinode(PutDinode(b, k, d), j) == if j == k then d else GetDinode(b, j)
  {
    PutWords(b, k, d, j);
    DinodeRoundTrip(d);
  }

  /** Block `b` holds the dinodes of the file system that belong into it. */
  ghost predicate HoldsInodes(g: Geometry, disk: seq<Inode>, b: int, block: Block) {
    block.Full() && forall i: nat :: i < |disk| && g.IBlock(i) == b ==> GetDinode(block, i % 16) == disk[i]
  }

  /** Writing inode `i` concerns the block of `i` only, and there PutDinode is what it takes: so the block that iupdate
      logs is the one that changes. */
  lemma IupdateBlock(g: Geometry, disk: seq<Inode>, i: nat, d: Inode, b: int, block: Block)
    requires i < |disk| && Fits(d) && HoldsInodes(g, disk, b, block)
    ensures HoldsInodes(g, disk[i := d], b, if b == g.IBlock(i) then PutDinode(block, i % 16, d) else block)
  {
    forall j: nat | j < |disk| && g.IBlock(j) == b && b == g.IBlock(i)
      ensures GetDinode(PutDinode(block, i % 16, d), j % 16) == disk[i := d][j]
    {
      PutGet(block, i % 16, d, j % 16);
      assert j / 16 == i / 16;
      assert j % 16 == i % 16 ==> j == i;
    }
  }
}
