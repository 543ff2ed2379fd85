/**
 Which file owns which sector: inodes with direct and indirect block addresses over the
 bitmap (fs.c). Values only; FileSystem runs the code on them.
 */
module BlockMap {
  import opened Bitmap

  const NDIRECT := 12
  const MAXFILE := NDIRECT + NINDIRECT

  /** The parts of an inode that its contents depend on; addrs[NDIRECT] is the indirect block. */
  datatype Inode = Inode(typ: int, addrs: seq<nat>, size: nat)

  /** Bitmap, contents of every sector, inodes as the kernel holds them. */
  datatype FS = FS(bitmap: seq<BitBlock>, data: seq<Block>, inodes: seq<Inode>)

  /** A place that can refer to a sector. */
  datatype Slot = Direct(i: nat, k: nat) | Indirect(i: nat) | Entry(i: nat, j: nat)

  predicate IsSlot(fs: FS, s: Slot) {
    match s
    case Direct(i, k) => i < |fs.inodes| && k < NDIRECT
    case Indirect(i) => i < |fs.inodes|
    case Entry(i, j) => i < |fs.inodes| && j < NINDIRECT
  }

  /** Sizes; addresses are null or name sectors behind the `lo` metadata sectors. */
  ghost predicate Shape(fs: FS, lo: nat)
  {
    && 0 < lo <= |fs.data| < 0x1_0000_0000 && Covers(fs.bitmap, |fs.data|)
    && (forall b :: 0 <= b < |fs.data| ==> IsBlock(fs.data[b]))
    && (forall i :: 0 <= i < |fs.inodes| ==> InodeShape(fs.inodes[i], lo, |fs.data|))
  }

  ghost predicate InodeShape(ip: Inode, lo: nat, size: nat)
  {
    && |ip.addrs| == NDIRECT + 1
    && ip.size <= MAXFILE * BSIZE
    && forall k :: 0 <= k <= NDIRECT ==> ip.addrs[k] == 0 || lo <= ip.addrs[k] < size
  }

  /** The sector a slot refers to; 0 for none. */
  ghost function Addr(fs: FS, lo: nat, s: Slot): int
    requires Shape(fs, lo) && IsSlot(fs, s)
  {
    match s
    case Direct(i, k) => fs.inodes[i].addrs[k]
    case Indirect(i) => fs.inodes[i].addrs[NDIRECT]
    case Entry(i, j) =>
      var d := fs.inodes[i].addrs[NDIRECT];
      if d == 0 then 0 else Word(fs.data[d], j)
  }

  /** Sector b belongs to slot s. */
  ghost predicate Owns(fs: FS, lo: nat, s: Slot, b: nat)
    requires Shape(fs, lo)
  {
    IsSlot(fs, s) && b != 0 && Addr(fs, lo, s) == b
  }

  /**
   A bit is set exactly for metadata and for sectors with an owner, and no sector has two owners.
   */
  ghost predicate Ownership(fs: FS, lo: nat)
  {
    && Shape(fs, lo)
    && (forall s :: IsSlot(fs, s) ==> InRange(fs, lo, s))
    && (forall s, t, b :: Owns(fs, lo, s, b) && Owns(fs, lo, t, b) ==> s == t)
    && (forall b :: 0 <= b < |fs.data| ==> (Bit(fs.bitmap, b) <==> b < lo || Owned(fs, lo, b)))
  }

  ghost predicate InRange(fs: FS, lo: nat, s: Slot)
    requires Shape(fs, lo) && IsSlot(fs, s)
  {
    Addr(fs, lo, s) == 0 || lo <= Addr(fs, lo, s) < |fs.data|
  }

  ghost predicate Owned(fs: FS, lo: nat, b: nat)
    requires Shape(fs, lo)
  {
    exists s :: Owns(fs, lo, s, b)
  }

  // The blocks of a file.

  /** The slot of file block bn. */
  function BlockSlot(i: nat, bn: nat): Slot {
    if bn < NDIRECT then Direct(i, bn) else Entry(i, bn - NDIRECT)
  }

  ghost function BlockAddr(fs: FS, lo: nat, i: nat, bn: nat): int
    requires Shape(fs, lo) && i < |fs.inodes| && bn < MAXFILE
  {
    Addr(fs, lo, BlockSlot(i, bn))
  }

  /** Every block below the file's size exists. */
  ghost predicate NoHoles(fs: FS, lo: nat, i: nat)
    requires Shape(fs, lo) && i < |fs.inodes|
  {
    forall bn :: 0 <= bn < MAXFILE && bn * BSIZE < fs.inodes[i].size ==> BlockAddr(fs, lo, i, bn) != 0
  }

  ghost predicate Inv(fs: FS, lo: nat)
  {
    Ownership(fs, lo) && forall i :: 0 <= i < |fs.inodes| ==> NoHoles(fs, lo, i)
  }

  /** Byte p of file i, where its block exists. */
  ghost function ByteAt(fs: FS, lo: nat, i: nat, p: nat): int
    requires Shape(fs, lo) && i < |fs.inodes| && p < MAXFILE * BSIZE
  {
    var b := BlockAddr(fs, lo, i, p / BSIZE);
    if 0 < b < |fs.data| then fs.data[b][p % BSIZE] else 0
  }

  /** The file as a byte sequence. */
  ghost function Contents(fs: FS, lo: nat, i: nat): (r: seq<int>)
    requires Shape(fs, lo) && i < |fs.inodes|
    ensures |r| == fs.inodes[i].size
    ensures forall p :: 0 <= p < |r| ==> r[p] == ByteAt(fs, lo, i, p)
  {
    seq(fs.inodes[i].size, p requires 0 <= p < fs.inodes[i].size => ByteAt(fs, lo, i, p))
  }

  // A new block for an empty slot.

  /** balloc() of b: bit set, sector zeroed. */
  function Allocated(fs: FS, b: nat): FS
    requires b < |fs.data| && b / BPB < |fs.bitmap| && |fs.bitmap[b / BPB]| == BSIZE
  {
    fs.(bitmap := Marked(fs.bitmap, b), data := fs.data[b := ZeroBlock()])
  }

  function WithAddr(fs: FS, i: nat, k: nat, b: nat): FS
    requires i < |fs.inodes| && k < |fs.inodes[i].addrs|
  {
    fs.(inodes := fs.inodes[i := fs.inodes[i].(addrs := fs.inodes[i].addrs[k := b])])
  }

  function WithEntry(fs: FS, d: nat, j: nat, b: nat): FS
    requires d < |fs.data| && |fs.data[d]| == BSIZE && j < NINDIRECT
  {
    fs.(data := fs.data[d := SetWord(fs.data[d], j, b)])
  }

  /** balloc() and the store of the new address in slot s. */
  function Attached(fs: FS, s: Slot, b: nat): FS
    requires b < |fs.data| && b / BPB < |fs.bitmap| && |fs.bitmap[b / BPB]| == BSIZE
    requires s.i < |fs.inodes| && |fs.inodes[s.i].addrs| == NDIRECT + 1
    requires s.Direct? ==> s.k < NDIRECT
    requires s.Entry? ==>
               s.j < NINDIRECT && fs.inodes[s.i].addrs[NDIRECT] < |fs.data| && fs.inodes[s.i].addrs[NDIRECT] != b &&
               |fs.data[fs.inodes[s.i].addrs[NDIRECT]]| == BSIZE
  {
    match s
    case Direct(i, k) => WithAddr(Allocated(fs, b), i, k, b)
    case Indirect(i) => WithAddr(Allocated(fs, b), i, NDIRECT, b)
    case Entry(i, j) => WithEntry(Allocated(fs, b), fs.inodes[i].addrs[NDIRECT], j, b)
  }

  /** Slot s is empty and can take sector b, which is free. */
  ghost predicate CanAttach(fs: FS, lo: nat, s: Slot, b: nat)
  {
    && Ownership(fs, lo) && IsSlot(fs, s) && Addr(fs, lo, s) == 0
    && lo <= b < |fs.data| && !Bit(fs.bitmap, b)
    && (s.Entry? ==> fs.inodes[s.i].addrs[NDIRECT] != 0)
  }

  lemma FreeIsUnowned(fs: FS, lo: nat, b: nat, s: Slot)
    requires Ownership(fs, lo) && b < |fs.data| && !Bit(fs.bitmap, b) && IsSlot(fs, s)
    ensures Addr(fs, lo, s) != b
  {
    if Addr(fs, lo, s) == b && b != 0 {
      assert Owns(fs, lo, s, b);
    }
  }

  lemma AttachedShape(fs: FS, lo: nat, s: Slot, b: nat)
    requires CanAttach(fs, lo, s, b)
    ensures s.Entry? ==> fs.inodes[s.i].addrs[NDIRECT] != b && fs.inodes[s.i].addrs[NDIRECT] < |fs.data|
    ensures Shape(Attached(fs, s, b), lo) && IsSlot(Attached(fs, s, b), s)
  {
    assert InodeShape(fs.inodes[s.i], lo, |fs.data|);
    FreeIsUnowned(fs, lo, b, Indirect(s.i));
    MarkedBits(fs.bitmap, |fs.data|, b, b);
    var fs' := Attached(fs, s, b);
    if s.Entry? {
      SetWordAt(fs.data[fs.inodes[s.i].addrs[NDIRECT]], s.j, b, s.j);
    }
    forall i | 0 <= i < |fs'.inodes| ensures InodeShape(fs'.inodes[i], lo, |fs'.data|) {
      assert InodeShape(fs.inodes[i], lo, |fs.data|);
    }
  }

  /** Two different slots never share a sector. */
  lemma Distinct(fs: FS, lo: nat, s: Slot, t: Slot)
    requires Ownership(fs, lo) && IsSlot(fs, s) && IsSlot(fs, t) && s != t && Addr(fs, lo, s) != 0
    ensures Addr(fs, lo, s) != Addr(fs, lo, t)
  {
    assert InRange(fs, lo, s);
    assert Owns(fs, lo, s, Addr(fs, lo, s));
    if Addr(fs, lo, t) == Addr(fs, lo, s) {
      assert Owns(fs, lo, t, Addr(fs, lo, s));
    }
  }

  /** The attachment fills slot s and leaves every other slot alone. */
  lemma AttachedAddr(fs: FS, lo: nat, s: Slot, b: nat, t: Slot)
    requires CanAttach(fs, lo, s, b) && IsSlot(fs, t)
    ensures s.Entry? ==> fs.inodes[s.i].addrs[NDIRECT] != b && fs.inodes[s.i].addrs[NDIRECT] < |fs.data|
    ensures Shape(Attached(fs, s, b), lo) && IsSlot(Attached(fs, s, b), t)
    ensures Addr(Attached(fs, s, b), lo, t) == if t == s then b else Addr(fs, lo, t)
  {
    AttachedShape(fs, lo, s, b);
    if t.Entry? {
      var d := fs.inodes[t.i].addrs[NDIRECT];
      assert InodeShape(fs.inodes[t.i], lo, |fs.data|);
      FreeIsUnowned(fs, lo, b, Indirect(t.i));
      if s == Indirect(t.i) {
        ZeroWord(t.j);
      } else if s.Entry? && s.i == t.i {
        SetWordAt(fs.data[d], s.j, b, t.j);
      } else if s.Entry? && d != 0 {
        Distinct(fs, lo, Indirect(t.i), Indirect(s.i));
      }
    }
  }

  /** No sector gets a second owner. */
  lemma AttachedOnce(fs: FS, lo: nat, s: Slot, b: nat, t: Slot, u: Slot, c: nat)
    requires CanAttach(fs, lo, s, b)
    requires s.Entry? ==> fs.inodes[s.i].addrs[NDIRECT] != b && fs.inodes[s.i].addrs[NDIRECT] < |fs.data|
    requires Shape(Attached(fs, s, b), lo) && Owns(Attached(fs, s, b), lo, t, c) && Owns(Attached(fs, s, b), lo, u, c)
    ensures t == u
  {
    AttachedAddr(fs, lo, s, b, t);
    AttachedAddr(fs, lo, s, b, u);
    FreeIsUnowned(fs, lo, b, t);
    FreeIsUnowned(fs, lo, b, u);
    if t != u && t != s && u != s {
      Distinct(fs, lo, t, u);
    }
  }

  lemma AttachedOwnership(fs: FS, lo: nat, s: Slot, b: nat)
    requires CanAttach(fs, lo, s, b)
    ensures s.Entry? ==> fs.inodes[s.i].addrs[NDIRECT] != b && fs.inodes[s.i].addrs[NDIRECT] < |fs.data|
    ensures Ownership(Attached(fs, s, b), lo)
  {
    AttachedShape(fs, lo, s, b);
    var fs' := Attached(fs, s, b);
    forall t | IsSlot(fs', t) ensures InRange(fs', lo, t) {
      AttachedAddr(fs, lo, s, b, t);
      assert InRange(fs, lo, t);
    }
    forall t, u, c | Owns(fs', lo, t, c) && Owns(fs', lo, u, c) ensures t == u {
      AttachedOnce(fs, lo, s, b, t, u, c);
    }
    hide Addr;
    forall c | 0 <= c < |fs.data| ensures Bit(fs'.bitmap, c) <==> c < lo || Owned(fs', lo, c) {
      MarkedBits(fs.bitmap, |fs.data|, b, c);
      AttachedOwned(fs, lo, s, b, c);
    }
  }

  lemma AttachedOwned(fs: FS, lo: nat, s: Slot, b: nat, c: nat)
    requires CanAttach(fs, lo, s, b)
    ensures s.Entry? ==> fs.inodes[s.i].addrs[NDIRECT] != b && fs.inodes[s.i].addrs[NDIRECT] < |fs.data|
    ensures Shape(Attached(fs, s, b), lo)
    ensures Owned(Attached(fs, s, b), lo, c) <==> c == b || Owned(fs, lo, c)
  {
    AttachedShape(fs, lo, s, b);
    var fs' := Attached(fs, s, b);
    AttachedAddr(fs, lo, s, b, s);
    if c == b {
      assert Owns(fs', lo, s, b);
    }
    if t :| Owns(fs, lo, t, c) {
      AttachedAddr(fs, lo, s, b, t);
      assert Owns(fs', lo, t, c);
    }
    if t :| Owns(fs', lo, t, c) && c != b {
      AttachedAddr(fs, lo, s, b, t);
      assert Owns(fs, lo, t, c);
    }
  }

  /** No byte of any file changes: the new block reads as the zeros that were there before. */
  lemma AttachedByte(fs: FS, lo: nat, s: Slot, b: nat, i: nat, p: nat)
    requires CanAttach(fs, lo, s, b) && i < |fs.inodes| && p < MAXFILE * BSIZE
    ensures s.Entry? ==> fs.inodes[s.i].addrs[NDIRECT] != b && fs.inodes[s.i].addrs[NDIRECT] < |fs.data|
    ensures Shape(Attached(fs, s, b), lo) && ByteAt(Attached(fs, s, b), lo, i, p) == ByteAt(fs, lo, i, p)
  {
    AttachedShape(fs, lo, s, b);
    var t := BlockSlot(i, p / BSIZE);
    AttachedAddr(fs, lo, s, b, t);
    assert InRange(fs, lo, t);
    FreeIsUnowned(fs, lo, b, t);
    if s.Entry? && Addr(fs, lo, t) != 0 {
      Distinct(fs, lo, t, Indirect(s.i));
    }
  }

  /** Two states in which files look the same. */
  ghost predicate SameFiles(fs: FS, fs': FS, lo: nat)
  {
    && Shape(fs, lo) && Shape(fs', lo) && |fs.inodes| == |fs'.inodes| && |fs.data| == |fs'.data|
    && (forall i :: 0 <= i < |fs.inodes| ==>
         fs'.inodes[i].size == fs.inodes[i].size && fs'.inodes[i].typ == fs.inodes[i].typ)
    && (forall i, p :: 0 <= i < |fs.inodes| && 0 <= p < MAXFILE * BSIZE ==>
         ByteAt(fs', lo, i, p) == ByteAt(fs, lo, i, p))
  }

  lemma AttachedInv(fs: FS, lo: nat, s: Slot, b: nat)
    requires CanAttach(fs, lo, s, b) && Inv(fs, lo)
    ensures s.Entry? ==> fs.inodes[s.i].addrs[NDIRECT] != b && fs.inodes[s.i].addrs[NDIRECT] < |fs.data|
    ensures Inv(Attached(fs, s, b), lo) && SameFiles(fs, Attached(fs, s, b), lo)
  {
    AttachedOwnership(fs, lo, s, b);
    var fs' := Attached(fs, s, b);
    forall i | 0 <= i < |fs'.inodes| ensures NoHoles(fs', lo, i) {
      assert NoHoles(fs, lo, i);
      forall bn | 0 <= bn < MAXFILE && bn * BSIZE < fs'.inodes[i].size ensures BlockAddr(fs', lo, i, bn) != 0 {
        AttachedAddr(fs, lo, s, b, BlockSlot(i, bn));
        assert BlockAddr(fs, lo, i, bn) != 0;
      }
    }
    forall i, p | 0 <= i < |fs.inodes| && 0 <= p < MAXFILE * BSIZE
      ensures ByteAt(fs', lo, i, p) == ByteAt(fs, lo, i, p)
    {
      AttachedByte(fs, lo, s, b, i, p);
    }
  }

  // Writing into a data block of a file.

  function Stored(fs: FS, b: nat, blk: Block): FS
    requires b < |fs.data|
  {
    fs.(data := fs.data[b := blk])
  }

  lemma StoredAddr(fs: FS, lo: nat, i: nat, bn: nat, blk: Block, t: Slot)
    requires Ownership(fs, lo) && i < |fs.inodes| && bn < MAXFILE && IsBlock(blk) && IsSlot(fs, t)
    requires BlockAddr(fs, lo, i, bn) != 0
    ensures var b := BlockAddr(fs, lo, i, bn);
            && lo <= b < |fs.data| && Shape(Stored(fs, b, blk), lo) && IsSlot(Stored(fs, b, blk), t)
            && Addr(Stored(fs, b, blk), lo, t) == Addr(fs, lo, t)
  {
    var s := BlockSlot(i, bn);
    assert InRange(fs, lo, s);
    if t.Entry? {
      assert InodeShape(fs.inodes[t.i], lo, |fs.data|);
      Distinct(fs, lo, s, Indirect(t.i));
    }
  }

  lemma StoredOwnership(fs: FS, lo: nat, i: nat, bn: nat, blk: Block)
    requires Ownership(fs, lo) && i < |fs.inodes| && bn < MAXFILE && IsBlock(blk)
    requires BlockAddr(fs, lo, i, bn) != 0
    ensures lo <= BlockAddr(fs, lo, i, bn) < |fs.data|
    ensures Ownership(Stored(fs, BlockAddr(fs, lo, i, bn), blk), lo)
  {
    StoredAddr(fs, lo, i, bn, blk, BlockSlot(i, bn));
    var fs' := Stored(fs, BlockAddr(fs, lo, i, bn), blk);
    forall t | IsSlot(fs', t) ensures InRange(fs', lo, t) {
      StoredAddr(fs, lo, i, bn, blk, t);
      assert InRange(fs, lo, t);
    }
    forall t, u, c | Owns(fs', lo, t, c) && Owns(fs', lo, u, c) ensures t == u {
      StoredAddr(fs, lo, i, bn, blk, t);
      StoredAddr(fs, lo, i, bn, blk, u);
      assert Owns(fs, lo, t, c) && Owns(fs, lo, u, c);
    }
    forall c | 0 <= c < |fs.data| ensures Owned(fs', lo, c) <==> Owned(fs, lo, c) {
      if t :| Owns(fs, lo, t, c) {
        StoredAddr(fs, lo, i, bn, blk, t);
        assert Owns(fs', lo, t, c);
      }
      if t :| Owns(fs', lo, t, c) {
        StoredAddr(fs, lo, i, bn, blk, t);
        assert Owns(fs, lo, t, c);
      }
    }
  }

  lemma StoredByte(fs: FS, lo: nat, i: nat, bn: nat, blk: Block, j: nat, p: nat)
    requires Ownership(fs, lo) && i < |fs.inodes| && bn < MAXFILE && IsBlock(blk)
    requires BlockAddr(fs, lo, i, bn) != 0 && j < |fs.inodes| && p < MAXFILE * BSIZE
    ensures var b := BlockAddr(fs, lo, i, bn);
            && lo <= b < |fs.data| && Shape(Stored(fs, b, blk), lo)
            && ByteAt(Stored(fs, b, blk), lo, j, p) ==
               if j == i && p / BSIZE == bn then blk[p % BSIZE] else ByteAt(fs, lo, j, p)
  {
    var s, t := BlockSlot(i, bn), BlockSlot(j, p / BSIZE);
    StoredAddr(fs, lo, i, bn, blk, t);
    if s != t {
      Distinct(fs, lo, s, t);
    }
  }

  /** Overwriting one block of file i changes the bytes of that block and nothing else. */
  lemma StoredInv(fs: FS, lo: nat, i: nat, bn: nat, blk: Block)
    requires Inv(fs, lo) && i < |fs.inodes| && bn < MAXFILE && IsBlock(blk)
    requires BlockAddr(fs, lo, i, bn) != 0
    ensures lo <= BlockAddr(fs, lo, i, bn) < |fs.data|
    ensures Inv(Stored(fs, BlockAddr(fs, lo, i, bn), blk), lo)
  {
    StoredOwnership(fs, lo, i, bn, blk);
    var fs' := Stored(fs, BlockAddr(fs, lo, i, bn), blk);
    forall j | 0 <= j < |fs'.inodes| ensures NoHoles(fs', lo, j) {
      assert NoHoles(fs, lo, j);
      forall n | 0 <= n < MAXFILE && n * BSIZE < fs'.inodes[j].size ensures BlockAddr(fs', lo, j, n) != 0 {
        StoredAddr(fs, lo, i, bn, blk, BlockSlot(j, n));
        assert BlockAddr(fs, lo, j, n) != 0;
      }
    }
  }

  // Growing a file over blocks that exist.

  function WithSize(fs: FS, i: nat, n: nat): FS
    requires i < |fs.inodes|
  {
    fs.(inodes := fs.inodes[i := fs.inodes[i].(size := n)])
  }

  lemma WithSizeAddr(fs: FS, lo: nat, i: nat, n: nat, t: Slot)
    requires Shape(fs, lo) && i < |fs.inodes| && n <= MAXFILE * BSIZE && IsSlot(fs, t)
    ensures Shape(WithSize(fs, i, n), lo) && IsSlot(WithSize(fs, i, n), t)
    ensures Addr(WithSize(fs, i, n), lo, t) == Addr(fs, lo, t)
  {
    var fs' := WithSize(fs, i, n);
    forall j | 0 <= j < |fs.inodes| ensures InodeShape(fs'.inodes[j], lo, |fs.data|) {
      assert InodeShape(fs.inodes[j], lo, |fs.data|);
    }
  }

  /** Slots refer to the same sectors, and the bitmap is the same. */
  lemma SameSlots(fs: FS, fs': FS, lo: nat)
    requires Ownership(fs, lo) && Shape(fs', lo) && fs'.bitmap == fs.bitmap && |fs'.data| == |fs.data|
    requires |fs'.inodes| == |fs.inodes|
    requires forall t :: IsSlot(fs, t) ==> Addr(fs', lo, t) == Addr(fs, lo, t)
    ensures Ownership(fs', lo)
  {
    forall t | IsSlot(fs', t) ensures InRange(fs', lo, t) {
      assert InRange(fs, lo, t);
    }
    forall t, u, c | Owns(fs', lo, t, c) && Owns(fs', lo, u, c) ensures t == u {
      assert Owns(fs, lo, t, c) && Owns(fs, lo, u, c);
    }
    forall c | 0 <= c < |fs.data| ensures Owned(fs', lo, c) <==> Owned(fs, lo, c) {
      if t :| Owns(fs, lo, t, c) {
        assert Owns(fs', lo, t, c);
      }
      if t :| Owns(fs', lo, t, c) {
        assert Owns(fs, lo, t, c);
      }
    }
  }

  lemma WithSizeInv(fs: FS, lo: nat, i: nat, n: nat)
    requires Inv(fs, lo) && i < |fs.inodes| && n <= MAXFILE * BSIZE
    requires forall bn :: 0 <= bn < MAXFILE && bn * BSIZE < n ==> BlockAddr(fs, lo, i, bn) != 0
    ensures Inv(WithSize(fs, i, n), lo)
    ensures forall j, p :: 0 <= j < |fs.inodes| && 0 <= p < MAXFILE * BSIZE ==>
                             ByteAt(WithSize(fs, i, n), lo, j, p) == ByteAt(fs, lo, j, p)
  {
    var fs' := WithSize(fs, i, n);
    WithSizeAddr(fs, lo, i, n, Indirect(i));
    forall t | IsSlot(fs, t) ensures Addr(fs', lo, t) == Addr(fs, lo, t) {
      WithSizeAddr(fs, lo, i, n, t);
    }
    SameSlots(fs, fs', lo);
    forall j | 0 <= j < |fs.inodes| ensures NoHoles(fs', lo, j) {
      assert NoHoles(fs, lo, j);
      forall bn | 0 <= bn < MAXFILE && bn * BSIZE < fs'.inodes[j].size ensures BlockAddr(fs', lo, j, bn) != 0 {
        WithSizeAddr(fs, lo, i, n, BlockSlot(j, bn));
        assert BlockAddr(fs', lo, j, bn) == BlockAddr(fs, lo, j, bn);
      }
    }
  }

  // Discarding a file's blocks.

  /** Sector b belongs to file i. */
  ghost predicate BelongsTo(fs: FS, lo: nat, i: nat, b: nat)
    requires Shape(fs, lo)
  {
    exists s: Slot :: s.i == i && Owns(fs, lo, s, b)
  }

  function EmptyInode(ip: Inode): Inode {
    ip.(addrs := seq(NDIRECT + 1, _ => 0), size := 0)
  }

  /** The state after itrunc() of file i with the bitmap `bitmap`. */
  function Truncated(fs: FS, i: nat, bitmap: seq<BitBlock>): FS
    requires i < |fs.inodes|
  {
    FS(bitmap, fs.data, fs.inodes[i := EmptyInode(fs.inodes[i])])
  }

  lemma TruncatedAddr(fs: FS, lo: nat, i: nat, bitmap: seq<BitBlock>, t: Slot)
    requires Shape(fs, lo) && i < |fs.inodes| && Covers(bitmap, |fs.data|) && IsSlot(fs, t)
    ensures Shape(Truncated(fs, i, bitmap), lo) && IsSlot(Truncated(fs, i, bitmap), t)
    ensures Addr(Truncated(fs, i, bitmap), lo, t) == if t.i == i then 0 else Addr(fs, lo, t)
  {
    var fs' := Truncated(fs, i, bitmap);
    forall j | 0 <= j < |fs.inodes| ensures InodeShape(fs'.inodes[j], lo, |fs.data|) {
      assert InodeShape(fs.inodes[j], lo, |fs.data|);
    }
  }

  /** If exactly the file's sectors were freed, ownership is intact and the other files are unchanged. */
  lemma TruncatedInv(fs: FS, lo: nat, i: nat, bitmap: seq<BitBlock>)
    requires Inv(fs, lo) && i < |fs.inodes| && Covers(bitmap, |fs.data|)
    requires forall b :: 0 <= b < |fs.data| ==> (Bit(bitmap, b) <==> Bit(fs.bitmap, b) && !BelongsTo(fs, lo, i, b))
    ensures Inv(Truncated(fs, i, bitmap), lo)
    ensures forall j, p :: 0 <= j < |fs.inodes| && j != i && 0 <= p < MAXFILE * BSIZE ==>
                             ByteAt(Truncated(fs, i, bitmap), lo, j, p) == ByteAt(fs, lo, j, p)
  {
    var fs' := Truncated(fs, i, bitmap);
    TruncatedAddr(fs, lo, i, bitmap, Indirect(i));
    TruncatedOwnership(fs, lo, i, bitmap);
    forall j | 0 <= j < |fs.inodes| ensures NoHoles(fs', lo, j) {
      assert NoHoles(fs, lo, j);
      forall bn | 0 <= bn < MAXFILE && bn * BSIZE < fs'.inodes[j].size ensures BlockAddr(fs', lo, j, bn) != 0 {
        TruncatedAddr(fs, lo, i, bitmap, BlockSlot(j, bn));
        assert BlockAddr(fs, lo, j, bn) != 0;
      }
    }
    forall j, p | 0 <= j < |fs.inodes| && j != i && 0 <= p < MAXFILE * BSIZE
      ensures ByteAt(fs', lo, j, p) == ByteAt(fs, lo, j, p)
    {
      TruncatedAddr(fs, lo, i, bitmap, BlockSlot(j, p / BSIZE));
    }
  }

  lemma TruncatedOwnership(fs: FS, lo: nat, i: nat, bitmap: seq<BitBlock>)
    requires Ownership(fs, lo) && i < |fs.inodes| && Covers(bitmap, |fs.data|)
    requires forall b :: 0 <= b < |fs.data| ==> (Bit(bitmap, b) <==> Bit(fs.bitmap, b) && !BelongsTo(fs, lo, i, b))
    ensures Ownership(Truncated(fs, i, bitmap), lo)
  {
    var fs' := Truncated(fs, i, bitmap);
    TruncatedAddr(fs, lo, i, bitmap, Indirect(i));
    forall t | IsSlot(fs', t) ensures InRange(fs', lo, t) {
      TruncatedAddr(fs, lo, i, bitmap, t);
      assert InRange(fs, lo, t);
    }
    forall t, u, c | Owns(fs', lo, t, c) && Owns(fs', lo, u, c) ensures t == u {
      TruncatedAddr(fs, lo, i, bitmap, t);
      TruncatedAddr(fs, lo, i, bitmap, u);
      assert Owns(fs, lo, t, c) && Owns(fs, lo, u, c);
    }
    forall c | 0 <= c < |fs.data| ensures Bit(bitmap, c) <==> c < lo || Owned(fs', lo, c) {
      TruncatedOwned(fs, lo, i, bitmap, c);
    }
  }

  lemma TruncatedOwned(fs: FS, lo: nat, i: nat, bitmap: seq<BitBlock>, c: nat)
    requires Ownership(fs, lo) && i < |fs.inodes| && Covers(bitmap, |fs.data|) && c < |fs.data|
    ensures Shape(Truncated(fs, i, bitmap), lo)
    ensures Owned(Truncated(fs, i, bitmap), lo, c) <==> Owned(fs, lo, c) && !BelongsTo(fs, lo, i, c)
    ensures c < lo ==> !BelongsTo(fs, lo, i, c)
  {
    var fs' := Truncated(fs, i, bitmap);
    TruncatedAddr(fs, lo, i, bitmap, Indirect(i));
    if s: Slot :| s.i == i && Owns(fs, lo, s, c) {
      assert InRange(fs, lo, s);
    }
    if t :| Owns(fs, lo, t, c) && t.i != i {
      TruncatedAddr(fs, lo, i, bitmap, t);
      assert Owns(fs', lo, t, c);
    }
    if t :| Owns(fs', lo, t, c) {
      TruncatedAddr(fs, lo, i, bitmap, t);
      assert Owns(fs, lo, t, c);
    }
  }

  /** Files look the same and every slot that was filled still refers to the same sector. */
  ghost predicate Extends(fs: FS, fs': FS, lo: nat)
  {
    && SameFiles(fs, fs', lo)
    && forall t :: IsSlot(fs, t) && Addr(fs, lo, t) != 0 ==> Addr(fs', lo, t) == Addr(fs, lo, t)
  }

  lemma ExtendsTrans(a: FS, b: FS, c: FS, lo: nat)
    requires Extends(a, b, lo) && Extends(b, c, lo)
    ensures Extends(a, c, lo)
  {
    forall i, p | 0 <= i < |a.inodes| && 0 <= p < MAXFILE * BSIZE ensures ByteAt(c, lo, i, p) == ByteAt(a, lo, i, p) {
      assert ByteAt(b, lo, i, p) == ByteAt(a, lo, i, p);
    }
    forall t | IsSlot(a, t) && Addr(a, lo, t) != 0 ensures Addr(c, lo, t) == Addr(a, lo, t) {
      assert Addr(b, lo, t) == Addr(a, lo, t);
    }
  }

  /** An allocation into an empty slot, summed up. */
  lemma AttachedExtends(fs: FS, lo: nat, s: Slot, b: nat)
    requires CanAttach(fs, lo, s, b) && Inv(fs, lo)
    ensures s.Entry? ==> fs.inodes[s.i].addrs[NDIRECT] != b && fs.inodes[s.i].addrs[NDIRECT] < |fs.data|
    ensures Inv(Attached(fs, s, b), lo) && Extends(fs, Attached(fs, s, b), lo)
    ensures Addr(Attached(fs, s, b), lo, s) == b
  {
    AttachedInv(fs, lo, s, b);
    var fs' := Attached(fs, s, b);
    AttachedAddr(fs, lo, s, b, s);
    forall t | IsSlot(fs, t) && Addr(fs, lo, t) != 0 ensures Addr(fs', lo, t) == Addr(fs, lo, t) {
      AttachedAddr(fs, lo, s, b, t);
    }
  }

  // A write of bytes at a position, possibly over several blocks.

  ghost predicate Bytes(s: seq<int>) {
    forall k :: 0 <= k < |s| ==> 0 <= s[k] < 256
  }

  /** File i has the bytes `src` from position p on; nothing else that is visible has changed. */
  ghost predicate Wrote(fs: FS, fs': FS, lo: nat, i: nat, p: nat, src: seq<int>)
  {
    && Shape(fs, lo) && Shape(fs', lo) && |fs'.inodes| == |fs.inodes| && |fs'.data| == |fs.data|
    && i < |fs.inodes| && p + |src| <= MAXFILE * BSIZE
    && (forall j :: 0 <= j < |fs.inodes| ==>
         fs'.inodes[j].size == fs.inodes[j].size && fs'.inodes[j].typ == fs.inodes[j].typ)
    && (forall j :: 0 <= j < |fs.inodes| && j != i ==> fs'.inodes[j] == fs.inodes[j])
    && (forall j, q :: 0 <= j < |fs.inodes| && 0 <= q < MAXFILE * BSIZE ==>
          ByteAt(fs', lo, j, q) == WrittenByte(fs, lo, i, p, src, j, q))
    && (forall t :: IsSlot(fs, t) && Addr(fs, lo, t) != 0 ==> Addr(fs', lo, t) == Addr(fs, lo, t))
    && (forall bn :: 0 <= bn < MAXFILE && p < (bn + 1) * BSIZE && bn * BSIZE < p + |src| && |src| > 0 ==>
          BlockAddr(fs', lo, i, bn) != 0)
  }

  ghost function WrittenByte(fs: FS, lo: nat, i: nat, p: nat, src: seq<int>, j: nat, q: nat): int
    requires Shape(fs, lo) && j < |fs.inodes| && q < MAXFILE * BSIZE
  {
    if j == i && p <= q < p + |src| then src[q - p] else ByteAt(fs, lo, j, q)
  }

  lemma WroteNothing(fs: FS, lo: nat, i: nat, p: nat)
    requires Shape(fs, lo) && i < |fs.inodes| && p <= MAXFILE * BSIZE
    ensures Wrote(fs, fs, lo, i, p, [])
  {
  }

  lemma WroteMore(a: FS, b: FS, c: FS, lo: nat, i: nat, p: nat, s1: seq<int>, s2: seq<int>)
    requires Wrote(a, b, lo, i, p, s1) && Wrote(b, c, lo, i, p + |s1|, s2)
    ensures Wrote(a, c, lo, i, p, s1 + s2)
  {
    forall j, q | 0 <= j < |a.inodes| && 0 <= q < MAXFILE * BSIZE
      ensures ByteAt(c, lo, j, q) == WrittenByte(a, lo, i, p, s1 + s2, j, q)
    {
      assert ByteAt(b, lo, j, q) == WrittenByte(a, lo, i, p, s1, j, q);
      assert ByteAt(c, lo, j, q) == WrittenByte(b, lo, i, p + |s1|, s2, j, q);
    }
    forall t | IsSlot(a, t) && Addr(a, lo, t) != 0 ensures Addr(c, lo, t) == Addr(a, lo, t) {
      assert Addr(b, lo, t) == Addr(a, lo, t);
    }
    forall bn | 0 <= bn < MAXFILE && p < (bn + 1) * BSIZE && bn * BSIZE < p + |s1 + s2| && |s1 + s2| > 0
      ensures BlockAddr(c, lo, i, bn) != 0
    {
      if p < (bn + 1) * BSIZE && bn * BSIZE < p + |s1| && |s1| > 0 {
        assert BlockAddr(b, lo, i, bn) != 0;
        assert Addr(b, lo, BlockSlot(i, bn)) != 0;
      }
    }
  }

  /** blk with `src` copied in at offset x. */
  function Patch(blk: Block, x: nat, src: seq<int>): (r: Block)
    requires x + |src| <= |blk|
    ensures |r| == |blk|
    ensures forall k :: 0 <= k < |blk| ==> r[k] == if x <= k < x + |src| then src[k - x] else blk[k]
  {
    blk[..x] + src + blk[x + |src|..]
  }

  /** memmove into one block of file i. */
  lemma PatchedBlock(fs: FS, lo: nat, i: nat, p: nat, src: seq<int>)
    requires Inv(fs, lo) && i < |fs.inodes| && p + |src| <= MAXFILE * BSIZE && 0 < |src| <= BSIZE - p % BSIZE
    requires Bytes(src)
    requires BlockAddr(fs, lo, i, p / BSIZE) != 0
    ensures var b := BlockAddr(fs, lo, i, p / BSIZE);
            && lo <= b < |fs.data| && |fs.data[b]| == BSIZE
            && Inv(Stored(fs, b, Patch(fs.data[b], p % BSIZE, src)), lo)
            && Wrote(fs, Stored(fs, b, Patch(fs.data[b], p % BSIZE, src)), lo, i, p, src)
  {
    var bn := p / BSIZE;
    assert InRange(fs, lo, BlockSlot(i, bn));
    var b := BlockAddr(fs, lo, i, bn);
    assert IsBlock(fs.data[b]);
    var blk := Patch(fs.data[b], p % BSIZE, src);
    StoredInv(fs, lo, i, bn, blk);
    var fs' := Stored(fs, b, blk);
    forall j, q | 0 <= j < |fs.inodes| && 0 <= q < MAXFILE * BSIZE
      ensures ByteAt(fs', lo, j, q) == WrittenByte(fs, lo, i, p, src, j, q)
    {
      StoredByte(fs, lo, i, bn, blk, j, q);
    }
    forall t | IsSlot(fs, t) ensures Addr(fs', lo, t) == Addr(fs, lo, t) {
      StoredAddr(fs, lo, i, bn, blk, t);
    }
    forall m | 0 <= m < MAXFILE && p < (m + 1) * BSIZE && m * BSIZE < p + |src| ensures BlockAddr(fs', lo, i, m) != 0 {
      assert m == bn;
    }
  }

  /** Allocation alone writes nothing. */
  lemma ExtendsWrote(fs: FS, fs': FS, lo: nat, i: nat, p: nat)
    requires Extends(fs, fs', lo) && i < |fs.inodes| && p <= MAXFILE * BSIZE
    requires forall j :: 0 <= j < |fs.inodes| && j != i ==> fs'.inodes[j] == fs.inodes[j]
    ensures Wrote(fs, fs', lo, i, p, [])
  {
    forall j, q | 0 <= j < |fs.inodes| && 0 <= q < MAXFILE * BSIZE
      ensures ByteAt(fs', lo, j, q) == WrittenByte(fs, lo, i, p, [], j, q)
    {
    }
  }

  // The order in which itrunc() frees a file's sectors.

  const NSLOTS := MAXFILE + 1

  /** Direct blocks, then the entries of the indirect block, then that block. */
  function NthSlot(i: nat, n: nat): Slot {
    if n < NDIRECT then Direct(i, n) else if n < MAXFILE then Entry(i, n - NDIRECT) else Indirect(i)
  }

  /** b is referred to by one of the first n slots of file i. */
  ghost predicate Among(fs: FS, lo: nat, i: nat, n: nat, b: nat)
    requires Shape(fs, lo) && n <= NSLOTS
  {
    exists k :: 0 <= k < n && Owns(fs, lo, NthSlot(i, k), b)
  }

  /** `bitmap` is the file system's with the sectors of the first n slots of file i freed. */
  ghost predicate FreedTo(fs: FS, lo: nat, i: nat, n: nat, bitmap: seq<BitBlock>)
    requires Shape(fs, lo) && n <= NSLOTS
  {
    && Covers(bitmap, |fs.data|)
    && forall b :: 0 <= b < |fs.data| ==> (Bit(bitmap, b) <==> Bit(fs.bitmap, b) && !Among(fs, lo, i, n, b))
  }

  /** The sector of slot n is not among those of the earlier slots. */
  lemma AmongStep(fs: FS, lo: nat, i: nat, n: nat, b: nat)
    requires Ownership(fs, lo) && i < |fs.inodes| && n < NSLOTS && b < |fs.data|
    ensures var a := Addr(fs, lo, NthSlot(i, n));
            && (Among(fs, lo, i, n + 1, b) <==> Among(fs, lo, i, n, b) || (b != 0 && b == a))
            && (a != 0 ==> lo <= a < |fs.data| && Bit(fs.bitmap, a) && !Among(fs, lo, i, n, a))
  {
    hide Bit;
    var s := NthSlot(i, n);
    var a := Addr(fs, lo, s);
    assert InRange(fs, lo, s);
    if a != 0 {
      assert Owns(fs, lo, s, a);
    }
  }

  /** That sector is still marked when itrunc() gets to it, and freeing it does the rest. */
  lemma FreeNext(fs: FS, lo: nat, i: nat, n: nat, bitmap: seq<BitBlock>)
    requires Ownership(fs, lo) && i < |fs.inodes| && n < NSLOTS && FreedTo(fs, lo, i, n, bitmap)
    ensures var b := Addr(fs, lo, NthSlot(i, n));
            && (b == 0 ==> FreedTo(fs, lo, i, n + 1, bitmap))
            && (b != 0 ==> lo <= b < |fs.data| && Bit(bitmap, b) && FreedTo(fs, lo, i, n + 1, Unmarked(bitmap, b)))
  {
    hide Bit, Unmarked, Addr, Among;
    var a := Addr(fs, lo, NthSlot(i, n));
    forall b | 0 <= b < |fs.data|
      ensures Among(fs, lo, i, n + 1, b) <==> Among(fs, lo, i, n, b) || (b != 0 && b == a)
      ensures a != 0 ==> lo <= a < |fs.data| && Bit(bitmap, a)
    {
      AmongStep(fs, lo, i, n, b);
    }
    AmongStep(fs, lo, i, n, 0);
    if a != 0 {
      forall b | 0 <= b < |fs.data|
        ensures Covers(Unmarked(bitmap, a), |fs.data|) && (Bit(Unmarked(bitmap, a), b) <==> b != a && Bit(bitmap, b))
      {
        MarkedBits(bitmap, |fs.data|, a, b);
      }
    }
  }

  lemma AllFreed(fs: FS, lo: nat, i: nat, bitmap: seq<BitBlock>)
    requires Shape(fs, lo) && i < |fs.inodes| && FreedTo(fs, lo, i, NSLOTS, bitmap)
    ensures forall b :: 0 <= b < |fs.data| ==> (Bit(bitmap, b) <==> Bit(fs.bitmap, b) && !BelongsTo(fs, lo, i, b))
  {
    forall b | 0 <= b < |fs.data| ensures Among(fs, lo, i, NSLOTS, b) <==> BelongsTo(fs, lo, i, b) {
      if s: Slot :| s.i == i && Owns(fs, lo, s, b) {
        var k := match s case Direct(_, k) => k case Entry(_, j) => NDIRECT + j case Indirect(_) => MAXFILE;
        assert NthSlot(i, k) == s;
      }
    }
  }

  /** Entries beyond a missing indirect block refer to nothing. */
  lemma SkipEntries(fs: FS, lo: nat, i: nat, bitmap: seq<BitBlock>)
    requires Ownership(fs, lo) && i < |fs.inodes| && FreedTo(fs, lo, i, NDIRECT, bitmap)
    requires fs.inodes[i].addrs[NDIRECT] == 0
    ensures FreedTo(fs, lo, i, NSLOTS, bitmap)
  {
    forall b | 0 <= b < |fs.data| ensures Among(fs, lo, i, NSLOTS, b) <==> Among(fs, lo, i, NDIRECT, b) {
      if k :| 0 <= k < NSLOTS && Owns(fs, lo, NthSlot(i, k), b) {
        assert k < NDIRECT;
      }
    }
  }
}
