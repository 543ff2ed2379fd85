/** The free-block bitmap of fs.c: bytes, masks and the sector layout of fs.h. */
module Bitmap {

  const BSIZE := 512
  /** Bitmap bits per sector. */
  const BPB := BSIZE * 8

  /** A sector of the bitmap. */
  type BitBlock = seq<bv8>

  /** The bit that balloc() and bfree() test. */
  function Mask(k: nat): (r: bv8)
    requires k < 8
    ensures r == 1 << k
  {
    if k == 0 then 1 else if k == 1 then 2 else if k == 2 then 4 else if k == 3 then 8
    else if k == 4 then 16 else if k == 5 then 32 else if k == 6 then 64 else 128
  }

  /** Test, set and clear one bit of a byte. */
  predicate Test(x: bv8, k: nat)
    requires k < 8
  {
    x & Mask(k) != 0
  }

  function Set(x: bv8, k: nat): bv8
    requires k < 8
  {
    x | Mask(k)
  }

  function Clear(x: bv8, k: nat): bv8
    requires k < 8
  {
    x & !Mask(k)
  }

  lemma SetBits(x: bv8, k: nat, j: nat)
    requires k < 8 && j < 8
    ensures Test(Set(x, k), j) <==> j == k || Test(x, j)
  {
  }

  lemma ClearBits(x: bv8, k: nat, j: nat)
    requires k < 8 && j < 8
    ensures Test(Clear(x, k), j) <==> j != k && Test(x, j)
  {
  }

  /** The bitmap covers `size` sectors. */
  ghost predicate Covers(bitmap: seq<BitBlock>, size: nat)
  {
    && (forall i :: 0 <= i < |bitmap| ==> |bitmap[i]| == BSIZE)
    && size <= |bitmap| * BPB
  }

  /** Sector b is marked in use: byte and bit as balloc() computes them. */
  predicate Bit(bitmap: seq<BitBlock>, b: nat)
    requires b / BPB < |bitmap| && |bitmap[b / BPB]| == BSIZE
  {
    BitIn(bitmap[b / BPB], b % BPB)
  }

  /** Every one of `size` sectors is in use. */
  ghost predicate Full(bitmap: seq<BitBlock>, size: nat) {
    Covers(bitmap, size) && forall b :: 0 <= b < size ==> Bit(bitmap, b)
  }

  predicate BitIn(blk: BitBlock, bi: nat)
    requires bi < BPB && |blk| == BSIZE
  {
    Test(blk[bi / 8], bi % 8)
  }

  /** bp->data[bi/8] |= m. */
  function MarkIn(blk: BitBlock, bi: nat): (r: BitBlock)
    requires bi < BPB && |blk| == BSIZE
    ensures |r| == BSIZE
  {
    blk[bi / 8 := Set(blk[bi / 8], bi % 8)]
  }

  /** bp->data[bi/8] &= ~m. */
  function UnmarkIn(blk: BitBlock, bi: nat): (r: BitBlock)
    requires bi < BPB && |blk| == BSIZE
    ensures |r| == BSIZE
  {
    blk[bi / 8 := Clear(blk[bi / 8], bi % 8)]
  }

  lemma SamePlace(bi: nat, bj: nat)
    ensures bi / 8 == bj / 8 && bi % 8 == bj % 8 <==> bi == bj
  {
  }

  lemma MarkedIn(blk: BitBlock, bi: nat, bj: nat)
    requires bi < BPB && bj < BPB && |blk| == BSIZE
    ensures BitIn(MarkIn(blk, bi), bj) <==> bj == bi || BitIn(blk, bj)
    ensures BitIn(UnmarkIn(blk, bi), bj) <==> bj != bi && BitIn(blk, bj)
  {
    hide Test, Set, Clear;
    SamePlace(bi, bj);
    if bi / 8 == bj / 8 {
      SetBits(blk[bi / 8], bi % 8, bj % 8);
      ClearBits(blk[bi / 8], bi % 8, bj % 8);
    }
  }

  function Marked(bitmap: seq<BitBlock>, b: nat): seq<BitBlock>
    requires b / BPB < |bitmap| && |bitmap[b / BPB]| == BSIZE
  {
    bitmap[b / BPB := MarkIn(bitmap[b / BPB], b % BPB)]
  }

  function Unmarked(bitmap: seq<BitBlock>, b: nat): seq<BitBlock>
    requires b / BPB < |bitmap| && |bitmap[b / BPB]| == BSIZE
  {
    bitmap[b / BPB := UnmarkIn(bitmap[b / BPB], b % BPB)]
  }

  /** Marking or unmarking a sector changes its bit and no other. */
  lemma MarkedBits(bitmap: seq<BitBlock>, size: nat, b: nat, c: nat)
    requires Covers(bitmap, size) && b < size && c < size
    ensures Covers(Marked(bitmap, b), size) && Covers(Unmarked(bitmap, b), size)
    ensures Bit(Marked(bitmap, b), c) <==> c == b || Bit(bitmap, c)
    ensures Bit(Unmarked(bitmap, b), c) <==> c != b && Bit(bitmap, c)
  {
    hide BitIn, MarkIn, UnmarkIn;
    if b / BPB == c / BPB {
      MarkedIn(bitmap[b / BPB], b % BPB, c % BPB);
    }
  }

  // Counting allocations.

  /** The free sectors below `limit`. */
  ghost function FreeBelow(bitmap: seq<BitBlock>, limit: nat): set<nat>
    requires Covers(bitmap, limit)
  {
    set b: nat | 0 <= b < limit && !Bit(bitmap, b)
  }

  /**
   From `was` to `now` at most k sectors were taken, lowest first: wherever k sectors were free below
   a limit, no sector at or above the limit was touched.
   */
  ghost predicate TookBelow(was: seq<BitBlock>, now: seq<BitBlock>, size: nat, k: nat, limit: nat)
    requires Covers(was, size) && Covers(now, size) && limit <= size
  {
    && |FreeBelow(was, limit)| <= |FreeBelow(now, limit)| + k
    && (|FreeBelow(was, limit)| >= k ==> forall b :: limit <= b < size ==> (Bit(now, b) <==> Bit(was, b)))
  }

  ghost predicate Took(was: seq<BitBlock>, now: seq<BitBlock>, size: nat, k: nat) {
    Covers(was, size) && Covers(now, size) && forall limit: nat :: limit <= size ==> TookBelow(was, now, size, k, limit)
  }

  lemma TookNone(bitmap: seq<BitBlock>, size: nat)
    requires Covers(bitmap, size)
    ensures Took(bitmap, bitmap, size, 0)
  {
  }

  lemma TookTrans(a: seq<BitBlock>, b: seq<BitBlock>, c: seq<BitBlock>, size: nat, j: nat, k: nat, n: nat)
    requires Took(a, b, size, j) && Took(b, c, size, k) && j + k <= n
    ensures Took(a, c, size, n)
  {
    hide Bit, FreeBelow;
    forall limit: nat | limit <= size ensures TookBelow(a, c, size, n, limit) {
      assert TookBelow(a, b, size, j, limit) && TookBelow(b, c, size, k, limit);
    }
  }

  /** Marking the first free sector takes one. */
  lemma TookFirst(bitmap: seq<BitBlock>, size: nat, r: nat)
    requires Covers(bitmap, size) && r < size && !Bit(bitmap, r) && forall c :: 0 <= c < r ==> Bit(bitmap, c)
    ensures Took(bitmap, Marked(bitmap, r), size, 1)
  {
    hide Bit, Marked;
    var now := Marked(bitmap, r);
    forall c | 0 <= c < size ensures Covers(now, size) && (Bit(now, c) <==> c == r || Bit(bitmap, c)) {
      MarkedBits(bitmap, size, r, c);
    }
    forall limit: nat | limit <= size ensures TookBelow(bitmap, now, size, 1, limit) {
      if r < limit {
        assert FreeBelow(now, limit) == FreeBelow(bitmap, limit) - {r};
      } else {
        assert FreeBelow(bitmap, limit) == {};
      }
    }
  }

  // 32-bit words in a sector of bytes, as the indirect block holds them.

  type Block = seq<int>

  const NINDIRECT := 128

  ghost predicate IsBlock(b: Block) {
    |b| == BSIZE && forall i :: 0 <= i < BSIZE ==> 0 <= b[i] < 256
  }

  /** ((uint*)b)[j], least significant byte first. */
  function Word(b: Block, j: nat): int
    requires j < NINDIRECT && |b| == BSIZE
  {
    b[4 * j] + 0x100 * b[4 * j + 1] + 0x1_0000 * b[4 * j + 2] + 0x100_0000 * b[4 * j + 3]
  }

  function SetWord(b: Block, j: nat, v: nat): (r: Block)
    requires j < NINDIRECT && |b| == BSIZE
    ensures |r| == BSIZE
  {
    b[4 * j := v % 0x100][4 * j + 1 := v / 0x100 % 0x100]
     [4 * j + 2 := v / 0x1_0000 % 0x100][4 * j + 3 := v / 0x100_0000 % 0x100]
  }

  lemma SetWordAt(b: Block, j: nat, v: nat, k: nat)
    requires IsBlock(b) && j < NINDIRECT && k < NINDIRECT && v < 0x1_0000_0000
    ensures IsBlock(SetWord(b, j, v))
    ensures Word(SetWord(b, j, v), k) == if k == j then v else Word(b, k)
  {
    if k == j {
      Recompose(v);
      var r := SetWord(b, j, v);
      assert r[4 * j] == v % 0x100 && r[4 * j + 1] == v / 0x100 % 0x100;
      assert r[4 * j + 2] == v / 0x1_0000 % 0x100 && r[4 * j + 3] == v / 0x100_0000 % 0x100;
    } else {
      assert SetWord(b, j, v)[4 * k..4 * k + 4] == b[4 * k..4 * k + 4];
    }
  }

  lemma Recompose(v: nat)
    requires v < 0x1_0000_0000
    ensures v == v % 0x100 + 0x100 * (v / 0x100 % 0x100) + 0x1_0000 * (v / 0x1_0000 % 0x100) +
                 0x100_0000 * (v / 0x100_0000 % 0x100)
  {
  }

  /** memset(data, 0, BSIZE). */
  function ZeroBlock(): (r: Block)
    ensures IsBlock(r) && forall i :: 0 <= i < BSIZE ==> r[i] == 0
  {
    seq(BSIZE, _ => 0)
  }

  lemma ZeroWord(j: nat)
    requires j < NINDIRECT
    ensures Word(ZeroBlock(), j) == 0
  {
  }
}
