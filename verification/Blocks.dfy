/** Disk blocks. A block is 256 little-endian 32-bit words, the view that the
    log header (kernel/log.c) and the indirect block of an inode (kernel/fs.c)
    use; file contents use the equivalent view as 1024 bytes. */
module Blocks {

  const BSIZE: nat := 1024
  const WORDS_PER_BLOCK: nat := 256

  type Byte = x: int | 0 <= x < 0x100
  type Word = x: int | 0 <= x < 0x1_0000_0000

  /** The contents of a block; disks and buffers hold `Full` ones. */
  datatype Block = Block(words: seq<Word>) {
    predicate Full() {
      |words| == WORDS_PER_BLOCK
    }
  }

  type Disk = seq<Block>

  function ZeroBlock(): (z: Block)
    ensures z.Full() && forall i :: 0 <= i < WORDS_PER_BLOCK ==> z.words[i] == 0
  {
    Block(seq(WORDS_PER_BLOCK, _ => 0))
  }

  // The byte view.

  function ByteOf(w: Word, k: nat): (x: Byte)
    requires k < 4
  {
    if k == 0 then w % 0x100
    else if k == 1 then w / 0x100 % 0x100
    else if k == 2 then w / 0x1_0000 % 0x100
    else w / 0x100_0000
  }

  function WordOf(b0: Byte, b1: Byte, b2: Byte, b3: Byte): (w: Word)
    ensures ByteOf(w, 0) == b0 && ByteOf(w, 1) == b1 && ByteOf(w, 2) == b2 && ByteOf(w, 3) == b3
  {
    var x0: int, x1: int, x2: int, x3: int := b0, b1, b2, b3;
    var w := x0 + 0x100 * (x1 + 0x100 * (x2 + 0x100 * x3));
    DivMod(x0, x1 + 0x100 * (x2 + 0x100 * x3));
    DivMod(x1, x2 + 0x100 * x3);
    DivMod(x2, x3);
    assert w / 0x1_0000 == w / 0x100 / 0x100 && w / 0x100_0000 == w / 0x1_0000 / 0x100;
    w
  }

  lemma DivMod(r: int, q: int)
    requires 0 <= r < 0x100
    ensures (r + 0x100 * q) % 0x100 == r && (r + 0x100 * q) / 0x100 == q
  {
  }

  /** Byte `o` of a block. */
  function ByteAt(b: Block, o: nat): (x: Byte)
    requires b.Full() && o < BSIZE
  {
    ByteOf(b.words[o / 4], o % 4)
  }

  function FromBytes(bytes: seq<Byte>): (b: Block)
    requires |bytes| == BSIZE
    ensures b.Full()
  {
    Block(seq(WORDS_PER_BLOCK, i requires 0 <= i < WORDS_PER_BLOCK =>
      WordOf(bytes[4 * i], bytes[4 * i + 1], bytes[4 * i + 2], bytes[4 * i + 3])))
  }

  function ToBytes(b: Block): (bytes: seq<Byte>)
    requires b.Full()
    ensures |bytes| == BSIZE && forall o :: 0 <= o < BSIZE ==> bytes[o] == ByteAt(b, o)
  {
    seq(BSIZE, o requires 0 <= o < BSIZE => ByteAt(b, o))
  }

  /** The two views of a block carry the same information. */
  lemma BytesRoundTrip(bytes: seq<Byte>, o: nat)
    requires |bytes| == BSIZE && o < BSIZE
    ensures ByteAt(FromBytes(bytes), o) == bytes[o]
  {
    var i := o / 4;
    assert o == 4 * i + o % 4;
  }

  /** memmove of `data` into block `b` at byte offset `o`. */
  function Splice(b: Block, o: nat, data: seq<Byte>): (r: Block)
    requires b.Full() && o + |data| <= BSIZE
    ensures r.Full()
  {
    FromBytes(ToBytes(b)[..o] + data + ToBytes(b)[o + |data|..])
  }

  lemma SpliceAt(b: Block, o: nat, data: seq<Byte>, k: nat)
    requires b.Full() && o + |data| <= BSIZE && k < BSIZE
    ensures ByteAt(Splice(b, o, data), k) == if o <= k < o + |data| then data[k - o] else ByteAt(b, k)
  {
    BytesRoundTrip(ToBytes(b)[..o] + data + ToBytes(b)[o + |data|..], k);
  }

  /** A word is put together from its bytes. */
  lemma WordBytes(w: Word)
    ensures WordOf(ByteOf(w, 0), ByteOf(w, 1), ByteOf(w, 2), ByteOf(w, 3)) == w
  {
    var q := w / 0x100;
    var p := q / 0x100;
    assert w == 0x100 * q + w % 0x100 && q == 0x100 * p + q % 0x100 && p == 0x100 * (p / 0x100) + p % 0x100;
    assert w / 0x1_0000 == p && w / 0x100_0000 == p / 0x100;
    assert p / 0x100 < 0x100;
  }

  /** Copying a whole block over another. */
  lemma SpliceWhole(b: Block, c: Block)
    requires b.Full() && c.Full()
    ensures Splice(b, 0, ToBytes(c)) == c
  {
    var bytes := ToBytes(c);
    assert ToBytes(b)[..0] + bytes + ToBytes(b)[0 + |bytes|..] == bytes;
    var r := FromBytes(bytes);
    forall k | 0 <= k < WORDS_PER_BLOCK ensures r.words[k] == c.words[k] {
      WordAgain(c, k);
    }
  }

  lemma WordAgain(c: Block, k: nat)
    requires c.Full() && k < WORDS_PER_BLOCK
    ensures FromBytes(ToBytes(c)).words[k] == c.words[k]
  {
    WordBytes(c.words[k]);
    var b := ToBytes(c);
    assert b[4 * k] == ByteOf(c.words[k], 0) && b[4 * k + 1] == ByteOf(c.words[k], 1);
    assert b[4 * k + 2] == ByteOf(c.words[k], 2) && b[4 * k + 3] == ByteOf(c.words[k], 3);
  }
}
