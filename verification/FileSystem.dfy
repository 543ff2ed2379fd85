/**
 fs.c and file.c on top of BlockMap: the block allocator, the block map, truncation, and
 reading and writing files as byte sequences, with the sectors each step passes to log_write().
 */
module FileSystem {
  import opened Bitmap
  import opened BlockMap
  import Sectors

  /** Inodes per sector. */
  const IPB := 8
  const T_DEV := 3
  /** 32-bit offsets and counts. */
  const WRAP := 0x1_0000_0000

  /** What readi() and writei() return: a count, -1, a driver's answer; or the kernel panics. */
  datatype IoResult = Count(n: nat) | Minus1 | FromDriver | OutOfBlocks

  /** In-memory state, inodes on disk, sectors logged so far. */
  datatype Snap = Snap(fs: FS, dinodes: seq<Inode>, log: set<nat>)

  /** From a to b every sector whose contents changed was logged: data, bitmap and inode sectors. */
  ghost predicate LogsAll(a: Snap, b: Snap) {
    && a.log <= b.log && |b.fs.bitmap| == |a.fs.bitmap| && |b.fs.data| == |a.fs.data| && |b.dinodes| == |a.dinodes|
    && |b.fs.inodes| == |a.fs.inodes|
    && (forall s :: 0 <= s < |a.fs.data| && b.fs.data[s] != a.fs.data[s] ==> s in b.log)
    && (forall k :: 0 <= k < |a.fs.bitmap| && b.fs.bitmap[k] != a.fs.bitmap[k] ==> k + |a.fs.inodes| / IPB + 3 in b.log)
    && (forall i :: 0 <= i < |a.dinodes| && b.dinodes[i] != a.dinodes[i] ==> i / IPB + 2 in b.log)
  }

  /** The same, and at most k sectors were allocated, lowest first. */
  ghost predicate Used(a: Snap, b: Snap, k: nat) {
    LogsAll(a, b) && Took(a.fs.bitmap, b.fs.bitmap, |a.fs.data|, k)
  }

  /** balloc() of the first free sector. */
  lemma AllocUsed(a: Snap, r: nat)
    requires Covers(a.fs.bitmap, |a.fs.data|) && r < |a.fs.data| && !Bit(a.fs.bitmap, r)
    requires forall c :: 0 <= c < r ==> Bit(a.fs.bitmap, c)
    ensures Used(a, a.(fs := Allocated(a.fs, r), log := a.log + {BitSector(r, |a.fs.inodes|), r}), 1)
  {
    TookFirst(a.fs.bitmap, |a.fs.data|, r);
  }

  lemma LogsTrans(a: Snap, b: Snap, c: Snap)
    requires LogsAll(a, b) && LogsAll(b, c)
    ensures LogsAll(a, c)
  {
    forall s | 0 <= s < |a.fs.data| && c.fs.data[s] != a.fs.data[s] ensures s in c.log {
      assert b.fs.data[s] != a.fs.data[s] || c.fs.data[s] != b.fs.data[s];
    }
    forall k | 0 <= k < |a.fs.bitmap| && c.fs.bitmap[k] != a.fs.bitmap[k] ensures k + |a.fs.inodes| / IPB + 3 in c.log {
      assert b.fs.bitmap[k] != a.fs.bitmap[k] || c.fs.bitmap[k] != b.fs.bitmap[k];
    }
    forall i | 0 <= i < |a.dinodes| && c.dinodes[i] != a.dinodes[i] ensures i / IPB + 2 in c.log {
      assert b.dinodes[i] != a.dinodes[i] || c.dinodes[i] != b.dinodes[i];
    }
  }

  /** The sector of the bitmap that holds the bit for b. */
  function BitSector(b: nat, ninodes: nat): nat {
    b / BPB + ninodes / IPB + 3
  }

  /** What indirect addressing can add to the log: the indirect block and its bitmap sector. */
  ghost function IndirectLog(fs: FS, i: nat): set<nat>
    requires i < |fs.inodes| && |fs.inodes[i].addrs| == NDIRECT + 1
  {
    var d := fs.inodes[i].addrs[NDIRECT];
    if d == 0 then {} else {d, BitSector(d, |fs.inodes|)}
  }

  /** One for an indirect block that file i did not have before. */
  ghost function NewIndirect(f: FS, g: FS, i: nat): nat
    requires i < |f.inodes| && i < |g.inodes| && |f.inodes[i].addrs| == |g.inodes[i].addrs| == NDIRECT + 1
  {
    if f.inodes[i].addrs[NDIRECT] == 0 && g.inodes[i].addrs[NDIRECT] != 0 then 1 else 0
  }

  /** One more turn of writei()'s loop: j data blocks before, k now. */
  lemma UsedTurn(a: Snap, b: Snap, c: Snap, i: nat, j: nat, k: nat)
    requires i < |a.fs.inodes| && i < |b.fs.inodes| && i < |c.fs.inodes|
    requires |a.fs.inodes[i].addrs| == |b.fs.inodes[i].addrs| == |c.fs.inodes[i].addrs| == NDIRECT + 1
    requires a.fs.inodes[i].addrs[NDIRECT] != 0 ==> b.fs.inodes[i].addrs[NDIRECT] != 0
    requires b.fs.inodes[i].addrs[NDIRECT] != 0 ==> c.fs.inodes[i].addrs[NDIRECT] != 0
    requires Used(a, b, j + NewIndirect(a.fs, b.fs, i)) && Used(b, c, k + NewIndirect(b.fs, c.fs, i))
    ensures Used(a, c, j + k + NewIndirect(a.fs, c.fs, i))
  {
    hide Used;
    UsedTrans(a, b, c, j + NewIndirect(a.fs, b.fs, i), k + NewIndirect(b.fs, c.fs, i),
        j + k + NewIndirect(a.fs, c.fs, i));
  }

  lemma UsedMore(a: Snap, b: Snap, k: nat, n: nat)
    requires Used(a, b, k) && k <= n
    ensures Used(a, b, n)
  {
    UsedNone(b);
    UsedTrans(a, b, b, k, 0, n);
  }

  /** Inodes in memory are not sectors. */
  lemma LogsMemory(a: Snap, b: Snap, c: Snap)
    requires LogsAll(a, b) && c == b.(fs := b.fs.(inodes := c.fs.inodes)) && |c.fs.inodes| == |b.fs.inodes|
    ensures LogsAll(a, c)
  {
  }

  lemma UsedTrans(a: Snap, b: Snap, c: Snap, j: nat, k: nat, n: nat)
    requires Used(a, b, j) && Used(b, c, k) && j + k <= n
    ensures Used(a, c, n)
  {
    LogsTrans(a, b, c);
    TookTrans(a.fs.bitmap, b.fs.bitmap, c.fs.bitmap, |a.fs.data|, j, k, n);
  }

  lemma UsedNone(a: Snap)
    requires Covers(a.fs.bitmap, |a.fs.data|)
    ensures Used(a, a, 0)
  {
    TookNone(a.fs.bitmap, |a.fs.data|);
  }

  /** The same without any allocation. */
  lemma UsedLogs(a: Snap, b: Snap)
    requires LogsAll(a, b) && b.fs.bitmap == a.fs.bitmap && Covers(a.fs.bitmap, |a.fs.data|)
    ensures Used(a, b, 0)
  {
    TookNone(a.fs.bitmap, |a.fs.data|);
  }

  /** Afterwards inodes may change in memory and go to disk. */
  lemma UsedThen(a: Snap, b: Snap, c: Snap, k: nat, n: nat)
    requires Used(a, b, k) && k <= n && b.log <= c.log && Covers(b.fs.bitmap, |b.fs.data|)
    requires c.fs.bitmap == b.fs.bitmap && c.fs.data == b.fs.data && |c.fs.inodes| == |b.fs.inodes|
    requires |c.dinodes| == |b.dinodes|
    requires forall i :: 0 <= i < |b.dinodes| && c.dinodes[i] != b.dinodes[i] ==> i / IPB + 2 in c.log
    ensures Used(a, c, n)
  {
    UsedLogs(b, c);
    UsedTrans(a, b, c, k, 0, n);
  }

  /** What lowest-first allocation means for a limit such as the start of the log, and for a full disk. */
  lemma NoLogSector(a: Snap, b: Snap, k: nat, limit: nat)
    requires Used(a, b, k) && limit <= |a.fs.data|
    ensures |FreeBelow(a.fs.bitmap, limit)| >= k ==>
              forall s :: limit <= s < |a.fs.data| ==> (Bit(b.fs.bitmap, s) <==> Bit(a.fs.bitmap, s))
    ensures Full(b.fs.bitmap, |b.fs.data|) ==> |FreeBelow(a.fs.bitmap, |a.fs.data|)| <= k
  {
    hide Bit;
    assert TookBelow(a.fs.bitmap, b.fs.bitmap, |a.fs.data|, k, limit);
    assert TookBelow(a.fs.bitmap, b.fs.bitmap, |a.fs.data|, k, |a.fs.data|);
    if Full(b.fs.bitmap, |b.fs.data|) {
      assert FreeBelow(b.fs.bitmap, |a.fs.data|) == {};
    }
  }

  function Min(a: nat, b: nat): nat {
    if a < b then a else b
  }

  /** c with `src` written over it at off, longer if need be. */
  function Spliced(c: seq<int>, off: nat, src: seq<int>): seq<int>
    requires off <= |c|
  {
    c[..off] + src + if off + |src| < |c| then c[off + |src|..] else []
  }

  lemma SplicedAt(c: seq<int>, off: nat, src: seq<int>)
    requires off <= |c|
    ensures |Spliced(c, off, src)| == NewSize(|c|, off, |src|)
    ensures forall q :: 0 <= q < |Spliced(c, off, src)| ==>
                          Spliced(c, off, src)[q] == if off <= q < off + |src| then src[q - off] else c[q]
  {
  }

  lemma NothingSpliced(c: seq<int>, off: nat)
    requires off <= |c|
    ensures Spliced(c, off, []) == c
  {
  }

  /** Writing on where a write ended is one longer write. */
  lemma SplicedTwice(c: seq<int>, off: nat, s: seq<int>, t: seq<int>)
    requires off <= |c|
    ensures off + |s| <= |Spliced(c, off, s)| && off + |s + t| <= |Spliced(c, off, s + t)|
    ensures Spliced(Spliced(c, off, s), off + |s|, t) == Spliced(c, off, s + t)
  {
  }

  /** The file size after a write. */
  function NewSize(size: nat, off: nat, n: nat): nat {
    if n > 0 && off + n > size then off + n else size
  }

  /** After the loop of writei(), setting the size completes the splice. */
  lemma SplicedFile(f: FS, g: FS, lo: nat, i: nat, off: nat, src: seq<int>)
    requires Inv(f, lo) && Inv(g, lo) && Wrote(f, g, lo, i, off, src) && off <= f.inodes[i].size
    ensures var h := WithSize(g, i, NewSize(g.inodes[i].size, off, |src|));
            && Inv(h, lo)
            && Contents(h, lo, i) == Spliced(Contents(f, lo, i), off, src)
            && forall j :: 0 <= j < |f.inodes| && j != i ==> Contents(h, lo, j) == Contents(f, lo, j)
  {
    var n := NewSize(g.inodes[i].size, off, |src|);
    var h := WithSize(g, i, n);
    forall bn | 0 <= bn < MAXFILE && bn * BSIZE < n ensures BlockAddr(g, lo, i, bn) != 0 {
      assert NoHoles(g, lo, i);
      if bn * BSIZE >= g.inodes[i].size {
        assert off < (bn + 1) * BSIZE && bn * BSIZE < off + |src|;
      }
    }
    WithSizeInv(g, lo, i, n);
    forall j | 0 <= j < |f.inodes| && j != i ensures Contents(h, lo, j) == Contents(f, lo, j) {
      assert InodeShape(f.inodes[j], lo, |f.data|);
      forall q | 0 <= q < f.inodes[j].size ensures Contents(h, lo, j)[q] == Contents(f, lo, j)[q] {
        assert ByteAt(h, lo, j, q) == ByteAt(g, lo, j, q) == WrittenByte(f, lo, i, off, src, j, q);
      }
    }
    SplicedBytes(f, g, h, lo, i, off, src);
  }

  lemma SplicedBytes(f: FS, g: FS, h: FS, lo: nat, i: nat, off: nat, src: seq<int>)
    requires Shape(f, lo) && Wrote(f, g, lo, i, off, src) && off <= f.inodes[i].size
    requires h == WithSize(g, i, NewSize(g.inodes[i].size, off, |src|)) && Shape(h, lo)
    requires forall q :: 0 <= q < MAXFILE * BSIZE ==> ByteAt(h, lo, i, q) == ByteAt(g, lo, i, q)
    ensures Contents(h, lo, i) == Spliced(Contents(f, lo, i), off, src)
  {
    assert InodeShape(f.inodes[i], lo, |f.data|) && InodeShape(h.inodes[i], lo, |h.data|);
    var c0 := Contents(f, lo, i);
    var c, d := Contents(h, lo, i), Spliced(c0, off, src);
    SplicedAt(c0, off, src);
    hide Spliced;
    forall q | 0 <= q < |c| ensures c[q] == d[q] {
      assert ByteAt(h, lo, i, q) == ByteAt(g, lo, i, q) == WrittenByte(f, lo, i, off, src, i, q);
      if !(off <= q < off + |src|) {
        assert q < f.inodes[i].size;
      }
    }
  }

  // Log space.

  /** Sectors one writei() can log: data blocks, bitmap sectors, the indirect pair, the inode sector. */
  function LogBound(off: nat, n: nat): nat {
    BlocksTouched(off, n) + NewBlocks(off, n) + 3
  }

  /** The chunk size filewrite() uses. */
  const MAXCHUNK := (Sectors.LOGSIZE - 1 - 1 - 2) / 2 * BSIZE

  lemma NextChunk(done: nat)
    requires done % MAXCHUNK == 0
    ensures (done + MAXCHUNK) % MAXCHUNK == 0
  {
  }

  lemma ChunkFits(off: nat, n: nat)
    requires n <= MAXCHUNK
    ensures LogBound(off, n) <= Sectors.LOGSIZE
  {
    if n > 0 {
      assert (off + n - 1) / BSIZE <= off / BSIZE + 13;
      if off % BSIZE == 0 {
        assert (off + n - 1) / BSIZE <= off / BSIZE + 12;
      }
    }
  }

  /** More than MAXOPBLOCKS blocks' worth of bytes touch more blocks than begin_op() reserves sectors. */
  lemma OverBudget(off: nat, n: nat)
    ensures n > Sectors.MAXOPBLOCKS * BSIZE ==> BlocksTouched(off, n) > Sectors.MAXOPBLOCKS
  {
  }

  /** filewrite()'s chunk is the largest whose bound fits the log at every offset. */
  lemma LargestChunk(n: nat)
    ensures (forall off: nat :: LogBound(off, n) <= Sectors.LOGSIZE) <==> n <= MAXCHUNK
  {
    if n <= MAXCHUNK {
      forall off: nat ensures LogBound(off, n) <= Sectors.LOGSIZE {
        ChunkFits(off, n);
      }
    } else {
      assert LogBound(0, n) > Sectors.LOGSIZE;
    }
  }

  lemma SubsetSize<T>(a: set<T>, b: set<T>)
    requires a <= b
    ensures |a| <= |b|
  {
    assert b == a + (b - a);
  }

  lemma LoggedBound(before: set<nat>, after: set<nat>, blocks: set<nat>, maps: set<nat>, ind: set<nat>, ino: nat,
      off: nat, n: nat)
    requires after <= before + blocks + maps + ind + {ino}
    requires |blocks| <= BlocksTouched(off, n) && |maps| <= NewBlocks(off, n) && |ind| <= 2
    ensures |after - before| <= LogBound(off, n)
  {
    hide BlocksTouched, NewBlocks;
    SubsetSize(after - before, blocks + maps + ind + {ino});
  }

  lemma WroteStep(f: FS, g: FS, h: FS, lo: nat, i: nat, off: nat, src: seq<int>, tot: nat, m: nat)
    requires tot + m <= |src| && Wrote(f, g, lo, i, off, src[..tot]) && Wrote(g, h, lo, i, off + tot, src[tot..tot + m])
    ensures Wrote(f, h, lo, i, off, src[..tot + m])
  {
    WroteMore(f, g, h, lo, i, off, src[..tot], src[tot..tot + m]);
    assert src[..tot] + src[tot..tot + m] == src[..tot + m];
  }

  /** Where a block is missing, the position is at or behind the end of the file, on a block boundary. */
  lemma MissingBlock(fs: FS, lo: nat, i: nat, p: nat)
    requires Inv(fs, lo) && i < |fs.inodes| && p < MAXFILE * BSIZE
    ensures BlockAddr(fs, lo, i, p / BSIZE) == 0 ==>
              p >= fs.inodes[i].size && (p <= fs.inodes[i].size ==> p % BSIZE == 0)
  {
    if p < fs.inodes[i].size {
      BlockExists(fs, lo, i, p);
    } else if p == fs.inodes[i].size && p % BSIZE != 0 {
      BlockExists(fs, lo, i, p - 1);
      assert (p - 1) / BSIZE == p / BSIZE;
    }
  }

  lemma NothingTouched(off: nat)
    ensures BlocksTouched(off, 0) == 0 == NewBlocks(off, 0)
  {
  }

  /** One turn of writei()'s loop touches one more block. */
  lemma CountStep(off: nat, tot: nat, m: nat, n: nat)
    requires tot < n && (tot == 0 || (off + tot) % BSIZE == 0) && m == Min(n - tot, BSIZE - (off + tot) % BSIZE)
    ensures 0 < m && BlocksTouched(off, tot + m) == BlocksTouched(off, tot) + 1
    ensures NewBlocks(off, tot + m) == NewBlocks(off, tot) + if tot == 0 && off % BSIZE != 0 then 0 else 1
    ensures tot + m == n || (off + tot + m) % BSIZE == 0
  {
  }

  /** Every block that n bytes from off on lie in exists and is in log. */
  ghost predicate LogsBlocks(fs: FS, lo: nat, i: nat, off: nat, n: nat, log: set<nat>)
    requires Shape(fs, lo) && i < |fs.inodes| && off + n <= MAXFILE * BSIZE
  {
    n > 0 ==> forall bn :: off / BSIZE <= bn <= (off + n - 1) / BSIZE ==>
        BlockAddr(fs, lo, i, bn) != 0 && BlockAddr(fs, lo, i, bn) in log
  }

  lemma LogsBlockMore(f: FS, g: FS, lo: nat, i: nat, off: nat, tot: nat, m: nat, src: seq<int>, log: set<nat>,
      log': set<nat>)
    requires tot + m <= |src| && off + |src| <= MAXFILE * BSIZE && 0 < m <= BSIZE - (off + tot) % BSIZE
    requires tot == 0 || (off + tot) % BSIZE == 0
    requires Wrote(f, g, lo, i, off + tot, src[tot..tot + m]) && log <= log' && LogsBlocks(f, lo, i, off, tot, log)
    requires BlockAddr(g, lo, i, (off + tot) / BSIZE) != 0 && BlockAddr(g, lo, i, (off + tot) / BSIZE) in log'
    ensures LogsBlocks(g, lo, i, off, tot + m, log')
  {
    hide ByteAt, WrittenByte;
    forall bn | off / BSIZE <= bn <= (off + tot + m - 1) / BSIZE
      ensures BlockAddr(g, lo, i, bn) != 0 && BlockAddr(g, lo, i, bn) in log'
    {
      if bn != (off + tot) / BSIZE {
        assert tot > 0 && bn <= (off + tot - 1) / BSIZE;
        assert BlockAddr(f, lo, i, bn) != 0 && BlockAddr(f, lo, i, bn) in log;
        assert Addr(g, lo, BlockSlot(i, bn)) == Addr(f, lo, BlockSlot(i, bn));
      }
    }
  }

  /** One block of writei()'s loop, from b to n: bytes that stay within the block of position p, now in sector a. */
  ghost predicate BlockWritten(b: Snap, n: Snap, lo: nat, i: nat, p: nat, src: seq<int>, a: nat) {
    && Inv(n.fs, lo) && Wrote(b.fs, n.fs, lo, i, p, src) && p < MAXFILE * BSIZE && b.log <= n.log
    && |b.fs.inodes[i].addrs| == |n.fs.inodes[i].addrs| == NDIRECT + 1
    && a == BlockAddr(n.fs, lo, i, p / BSIZE) != 0 && a in n.log
    && n.log <= b.log + {a, BitSector(a, |n.fs.inodes|)} + IndirectLog(n.fs, i)
    && IndirectLog(b.fs, i) <= IndirectLog(n.fs, i)
    && (BlockAddr(b.fs, lo, i, p / BSIZE) != 0 ==> n.fs.inodes == b.fs.inodes && n.log <= b.log + {a})
  }

  /**
   writei()'s loop after `tot` bytes since z: what has been written, whether the inode in memory
   differs from then, and which sectors were logged: data blocks, bitmap sectors of new ones, and
   those of the indirect block.
   */
  ghost predicate Progress(z: Snap, n: Snap, lo: nat, i: nat, src: seq<int>, off: nat, tot: nat, blocks: set<nat>,
      maps: set<nat>) {
    && tot <= |src| && Wrote(z.fs, n.fs, lo, i, off, src[..tot])
    && (n.fs.inodes[i] == z.fs.inodes[i] || off + tot > n.fs.inodes[i].size)
    && |n.fs.inodes[i].addrs| == NDIRECT + 1 && n.log <= z.log + blocks + maps + IndirectLog(n.fs, i)
    && |blocks| <= BlocksTouched(off, tot) && |maps| <= NewBlocks(off, tot)
  }

  lemma ProgressTurn(z: Snap, b: Snap, n: Snap, lo: nat, i: nat, src: seq<int>, off: nat, tot: nat, m: nat,
                     blocks: set<nat>, maps: set<nat>, a: nat)
    requires Progress(z, b, lo, i, src, off, tot, blocks, maps) && 0 < m && tot + m <= |src|
    requires BlockWritten(b, n, lo, i, off + tot, src[tot..tot + m], a) && off <= b.fs.inodes[i].size
    requires BlocksTouched(off, tot + m) == BlocksTouched(off, tot) + 1
    requires NewBlocks(off, tot + m) <= NewBlocks(off, tot) + 1
    requires NewBlocks(off, tot + m) >=
             NewBlocks(off, tot) + if BlockAddr(b.fs, lo, i, (off + tot) / BSIZE) == 0 then 1 else 0
    requires BlockAddr(b.fs, lo, i, (off + tot) / BSIZE) == 0 ==> off + tot >= b.fs.inodes[i].size
    ensures Progress(z, n, lo, i, src, off, tot + m, blocks + {a},
                     if BlockAddr(b.fs, lo, i, (off + tot) / BSIZE) != 0 then maps
                     else maps + {BitSector(a, |n.fs.inodes|)})
    ensures n.fs.inodes[i].size == b.fs.inodes[i].size
  {
    hide ByteAt, WrittenByte, Addr, BlocksTouched, NewBlocks, BlockAddr;
    WroteStep(z.fs, b.fs, n.fs, lo, i, off, src, tot, m);
  }

  /** writei()'s loop after `tot` bytes since z: changes are logged, few sectors taken, every block written logged. */
  ghost predicate Accounts(z: Snap, n: Snap, lo: nat, i: nat, off: nat, tot: nat) {
    && Shape(z.fs, lo) && Shape(n.fs, lo) && i < |n.fs.inodes| && i < |z.fs.inodes| && off + tot <= MAXFILE * BSIZE
    && |z.fs.inodes[i].addrs| == |n.fs.inodes[i].addrs| == NDIRECT + 1
    && (z.fs.inodes[i].addrs[NDIRECT] != 0 ==> n.fs.inodes[i].addrs[NDIRECT] != 0)
    && Used(z, n, NewBlocks(off, tot) + NewIndirect(z.fs, n.fs, i))
    && LogsBlocks(n.fs, lo, i, off, tot, n.log)
  }

  lemma AccountsStart(z: Snap, lo: nat, i: nat, off: nat)
    requires Shape(z.fs, lo) && i < |z.fs.inodes| && off <= MAXFILE * BSIZE
    ensures Accounts(z, z, lo, i, off, 0)
  {
    assert InodeShape(z.fs.inodes[i], lo, |z.fs.data|);
    UsedNone(z);
  }

  lemma AccountsTurn(z: Snap, b: Snap, n: Snap, lo: nat, i: nat, off: nat, tot: nat, m: nat, src: seq<int>, a: nat)
    requires Accounts(z, b, lo, i, off, tot) && tot + m <= |src|
    requires BlockWritten(b, n, lo, i, off + tot, src[tot..tot + m], a)
    requires b.fs.inodes[i].addrs[NDIRECT] != 0 ==> n.fs.inodes[i].addrs[NDIRECT] != 0
    requires tot < |src| && off + |src| <= MAXFILE * BSIZE && 0 < m == Min(|src| - tot, BSIZE - (off + tot) % BSIZE)
    requires NewBlocks(off, tot) <= NewBlocks(off, tot + m) && (tot == 0 || (off + tot) % BSIZE == 0)
    requires Used(b, n, NewBlocks(off, tot + m) - NewBlocks(off, tot) + NewIndirect(b.fs, n.fs, i))
    ensures Accounts(z, n, lo, i, off, tot + m)
  {
    hide Used, NewBlocks, LogsBlocks, BlockAddr, Addr, ByteAt, WrittenByte, Bit;
    UsedTurn(z, b, n, i, NewBlocks(off, tot), NewBlocks(off, tot + m) - NewBlocks(off, tot));
    LogsBlockMore(b.fs, n.fs, lo, i, off, tot, m, src, b.log, n.log);
  }

  lemma AccountsFail(z: Snap, b: Snap, n: Snap, lo: nat, i: nat, off: nat, tot: nat, m: nat, len: nat)
    requires Accounts(z, b, lo, i, off, tot) && i < |n.fs.inodes| && |n.fs.inodes[i].addrs| == NDIRECT + 1
    requires tot + m <= len
    requires b.fs.inodes[i].addrs[NDIRECT] != 0 ==> n.fs.inodes[i].addrs[NDIRECT] != 0
    requires NewBlocks(off, tot) <= NewBlocks(off, tot + m)
    requires Used(b, n, NewBlocks(off, tot + m) - NewBlocks(off, tot) + NewIndirect(b.fs, n.fs, i))
    ensures Used(z, n, NewBlocks(off, len) + 1)
  {
    MoreBlocks(off, tot + m, len);
    hide Used, NewBlocks, Shape, LogsBlocks;
    UsedTurn(z, b, n, i, NewBlocks(off, tot), NewBlocks(off, tot + m) - NewBlocks(off, tot));
    UsedMore(z, n, NewBlocks(off, tot + m) + NewIndirect(z.fs, n.fs, i), NewBlocks(off, len) + 1);
  }

  lemma LogsBlocksSize(fs: FS, lo: nat, i: nat, size: nat, off: nat, n: nat, log: set<nat>, log': set<nat>)
    requires Shape(fs, lo) && i < |fs.inodes| && off + n <= MAXFILE * BSIZE && LogsBlocks(fs, lo, i, off, n, log)
    requires log <= log'
    requires Shape(WithSize(fs, i, size), lo)
    ensures LogsBlocks(WithSize(fs, i, size), lo, i, off, n, log')
  {
    forall bn | 0 <= bn < MAXFILE ensures BlockAddr(WithSize(fs, i, size), lo, i, bn) == BlockAddr(fs, lo, i, bn) {
    }
  }

  /** Different blocks of a file are different sectors, so that many are logged at least. */
  lemma LogsAtLeast(fs: FS, lo: nat, i: nat, off: nat, n: nat, log: set<nat>)
    requires Inv(fs, lo) && i < |fs.inodes| && off + n <= MAXFILE * BSIZE && LogsBlocks(fs, lo, i, off, n, log)
    ensures |log| >= BlocksTouched(off, n)
  {
    if n > 0 {
      var s := BlockSectors(fs, lo, i, off / BSIZE, BlocksTouched(off, n), log);
      SubsetSize(s, log);
    }
  }

  lemma {:induction false} BlockSectors(fs: FS, lo: nat, i: nat, b: nat, k: nat, log: set<nat>) returns (s: set<nat>)
    requires Inv(fs, lo) && i < |fs.inodes| && b + k <= MAXFILE
    requires forall bn :: b <= bn < b + k ==> BlockAddr(fs, lo, i, bn) != 0 && BlockAddr(fs, lo, i, bn) in log
    ensures s <= log && |s| == k && forall x :: x in s ==> exists bn :: b <= bn < b + k && BlockAddr(fs, lo, i, bn) == x
    decreases k
  {
    hide ByteAt, Bit;
    if k == 0 {
      s := {};
    } else {
      s := BlockSectors(fs, lo, i, b, k - 1, log);
      var x := BlockAddr(fs, lo, i, b + k - 1);
      if x in s {
        var bn :| b <= bn < b + k - 1 && BlockAddr(fs, lo, i, bn) == x;
        Distinct(fs, lo, BlockSlot(i, bn), BlockSlot(i, b + k - 1));
        assert false;
      }
      s := s + {x};
    }
  }

  lemma MoreBlocks(off: nat, m: nat, n: nat)
    requires m <= n
    ensures NewBlocks(off, m) <= NewBlocks(off, n)
  {
  }

  /** Blocks that n bytes from off on lie in. */
  function BlocksTouched(off: nat, n: nat): nat {
    if n == 0 then 0 else (off + n - 1) / BSIZE - off / BSIZE + 1
  }

  /** At most this many of them can be missing: a write inside a block finds that block in place. */
  function NewBlocks(off: nat, n: nat): nat {
    if n > 0 && off % BSIZE != 0 then BlocksTouched(off, n) - 1 else BlocksTouched(off, n)
  }

  lemma Slices(c: seq<int>, off: nat, tot: nat, m: nat)
    requires off + tot + m <= |c|
    ensures c[off..off + tot] + c[off + tot..off + tot + m] == c[off..off + tot + m]
  {
  }

  /** The block of a position below the file's size exists. */
  lemma BlockExists(fs: FS, lo: nat, i: nat, p: nat)
    requires Inv(fs, lo) && i < |fs.inodes| && p < fs.inodes[i].size
    ensures p / BSIZE < MAXFILE && BlockAddr(fs, lo, i, p / BSIZE) != 0
  {
    assert InodeShape(fs.inodes[i], lo, |fs.data|);
    assert NoHoles(fs, lo, i);
    assert p / BSIZE * BSIZE < fs.inodes[i].size;
  }

  /** m bytes of one block are the file's bytes from p on. */
  lemma BlockSlice(fs: FS, lo: nat, i: nat, p: nat, m: nat)
    requires Inv(fs, lo) && i < |fs.inodes| && p + m <= fs.inodes[i].size && 0 < m <= BSIZE - p % BSIZE
    ensures p / BSIZE < MAXFILE
    ensures var a := BlockAddr(fs, lo, i, p / BSIZE);
            && 0 < a < |fs.data| && |fs.data[a]| == BSIZE
            && fs.data[a][p % BSIZE..p % BSIZE + m] == Contents(fs, lo, i)[p..p + m]
  {
    BlockExists(fs, lo, i, p);
    var a := BlockAddr(fs, lo, i, p / BSIZE);
    assert InRange(fs, lo, BlockSlot(i, p / BSIZE));
    assert IsBlock(fs.data[a]);
    var c := Contents(fs, lo, i);
    var x, y := fs.data[a][p % BSIZE..p % BSIZE + m], c[p..p + m];
    forall k | 0 <= k < m ensures x[k] == y[k] {
      assert (p + k) / BSIZE == p / BSIZE && (p + k) % BSIZE == p % BSIZE + k;
      assert c[p + k] == ByteAt(fs, lo, i, p + k);
    }
  }

  lemma LoopStart(z: Snap, lo: nat, i: nat, src: seq<int>, off: nat)
    requires Inv(z.fs, lo) && i < |z.fs.inodes| && off <= MAXFILE * BSIZE
    ensures Progress(z, z, lo, i, src, off, 0, {}, {}) && Accounts(z, z, lo, i, off, 0)
  {
    hide ByteAt, WrittenByte, Addr, BlocksTouched, NewBlocks, Bit, Full, IsBlock, Used;
    assert src[..0] == [] && InodeShape(z.fs.inodes[i], lo, |z.fs.data|);
    hide Inv, Wrote;
    WroteNothing(z.fs, lo, i, off);
    NothingTouched(off);
    AccountsStart(z, lo, i, off);
  }

  /** What writei() has done when the loop has written everything and the size is right. */
  ghost predicate RangeWritten(z: Snap, n: Snap, lo: nat, i: nat, src: seq<int>, off: nat) {
    && Shape(z.fs, lo) && Shape(n.fs, lo) && |n.fs.inodes| == |z.fs.inodes| == |z.dinodes| && i < |z.fs.inodes|
    && off + |src| <= MAXFILE * BSIZE && off <= z.fs.inodes[i].size
    && LogsBlocks(n.fs, lo, i, off, |src|, n.log)
    && Contents(n.fs, lo, i) == Spliced(Contents(z.fs, lo, i), off, src)
    && (forall j :: 0 <= j < |n.fs.inodes| && j != i ==>
          n.fs.inodes[j] == z.fs.inodes[j] && Contents(n.fs, lo, j) == Contents(z.fs, lo, j))
    && n.fs.inodes[i].typ == z.fs.inodes[i].typ
    && n.dinodes == z.dinodes[i := n.fs.inodes[i]]
    && |n.log - z.log| <= LogBound(off, |src|)
  }

  /** writei() behind its loop: the size, and with it the inode, changes if the file has grown. */
  ghost predicate SizeSet(mid: Snap, n: Snap, i: nat, end: nat, grown: bool)
    requires i < |mid.fs.inodes| == |mid.dinodes|
  {
    if grown then
      var fs := WithSize(mid.fs, i, end);
      n == Snap(fs, mid.dinodes[i := fs.inodes[i]], mid.log + {i / IPB + 2})
    else n == mid
  }

  lemma SizeSetIs(mid: Snap, n: Snap, i: nat, off: nat, len: nat)
    requires i < |mid.fs.inodes| == |mid.dinodes|
    requires mid.dinodes[i] == mid.fs.inodes[i] || (len > 0 && off + len > mid.fs.inodes[i].size)
    requires SizeSet(mid, n, i, off + len, len > 0 && off + len > mid.fs.inodes[i].size)
    ensures n.fs == WithSize(mid.fs, i, NewSize(mid.fs.inodes[i].size, off, len))
    ensures n.dinodes == mid.dinodes[i := n.fs.inodes[i]] && mid.log <= n.log <= mid.log + {i / IPB + 2}
    ensures n.dinodes == mid.dinodes || i / IPB + 2 in n.log
  {
    assert mid.fs.inodes[i := mid.fs.inodes[i].(size := mid.fs.inodes[i].size)] == mid.fs.inodes;
  }

  /** The sectors: what was logged and what was allocated. */
  lemma RangeLogs(z: Snap, mid: Snap, n: Snap, lo: nat, i: nat, src: seq<int>, off: nat, blocks: set<nat>,
      maps: set<nat>)
    requires Progress(z, mid, lo, i, src, off, |src|, blocks, maps) && Accounts(z, mid, lo, i, off, |src|)
    requires |n.dinodes| == |mid.dinodes| && Shape(n.fs, lo) && mid.log <= n.log <= mid.log + {i / IPB + 2}
    requires n.fs == WithSize(mid.fs, i, NewSize(mid.fs.inodes[i].size, off, |src|))
    requires forall k :: 0 <= k < |mid.dinodes| && n.dinodes[k] != mid.dinodes[k] ==> k / IPB + 2 in n.log
    ensures LogsBlocks(n.fs, lo, i, off, |src|, n.log) && |n.log - z.log| <= LogBound(off, |src|)
    ensures Used(z, n, NewBlocks(off, |src|) + 1)
  {
    hide BlocksTouched, NewBlocks, LogBound, Used, LogsBlocks, Wrote, InodeShape, IsBlock, Bit;
    UsedThen(z, mid, n, NewBlocks(off, |src|) + NewIndirect(z.fs, mid.fs, i), NewBlocks(off, |src|) + 1);
    LoggedBound(z.log, n.log, blocks, maps, IndirectLog(mid.fs, i), i / IPB + 2, off, |src|);
    LogsBlocksSize(mid.fs, lo, i, NewSize(mid.fs.inodes[i].size, off, |src|), off, |src|, mid.log, n.log);
  }

  lemma ProgressDone(z: Snap, mid: Snap, lo: nat, i: nat, src: seq<int>, off: nat, blocks: set<nat>, maps: set<nat>)
    requires Progress(z, mid, lo, i, src, off, |src|, blocks, maps)
    ensures Wrote(z.fs, mid.fs, lo, i, off, src) && off + |src| <= MAXFILE * BSIZE
    ensures i < |z.fs.inodes| == |mid.fs.inodes| && mid.fs.inodes[i].size == z.fs.inodes[i].size
    ensures mid.fs.inodes[i].typ == z.fs.inodes[i].typ
    ensures forall j :: 0 <= j < |mid.fs.inodes| && j != i ==> mid.fs.inodes[j] == z.fs.inodes[j]
    ensures mid.fs.inodes[i] == z.fs.inodes[i] || off + |src| > mid.fs.inodes[i].size
  {
    assert src[..|src|] == src;
  }

  lemma InvShape(fs: FS, lo: nat)
    requires Inv(fs, lo)
    ensures Shape(fs, lo)
  {
  }

  lemma RangeDone(z: Snap, mid: Snap, n: Snap, lo: nat, i: nat, src: seq<int>, off: nat, blocks: set<nat>,
      maps: set<nat>)
    requires Inv(z.fs, lo) && Inv(mid.fs, lo) && i < |z.fs.inodes| == |mid.fs.inodes| == |z.dinodes|
    requires off <= z.fs.inodes[i].size && z.dinodes[i] == z.fs.inodes[i] && mid.dinodes == z.dinodes
    requires Progress(z, mid, lo, i, src, off, |src|, blocks, maps) && Accounts(z, mid, lo, i, off, |src|)
    requires SizeSet(mid, n, i, off + |src|, |src| > 0 && off + |src| > mid.fs.inodes[i].size)
    ensures Inv(n.fs, lo) && RangeWritten(z, n, lo, i, src, off) && Used(z, n, NewBlocks(off, |src|) + 1)
  {
    hide Inv, Progress, Accounts, Wrote, Shape, NewBlocks, LogBound, Contents, Spliced, Used, LogsBlocks, SizeSet;
    ProgressDone(z, mid, lo, i, src, off, blocks, maps);
    SizeSetIs(mid, n, i, off, |src|);
    SplicedFile(z.fs, mid.fs, lo, i, off, src);
    InvShape(z.fs, lo);
    InvShape(n.fs, lo);
    RangeLogs(z, mid, n, lo, i, src, off, blocks, maps);
  }

  class FileSystem {
    /** First sector behind the bitmap, and the number of sectors of the log, which are the last ones. */
    const lo: nat
    const nlog: nat
    var bitmap: seq<BitBlock>
    var data: seq<Block>
    /** In-memory inodes, and the copies in the inode sectors. */
    var inodes: seq<Inode>
    var dinodes: seq<Inode>
    /** Sectors handed to log_write(). */
    ghost var logged: set<nat>

    ghost function State(): FS
      reads this
    {
      FS(bitmap, data, inodes)
    }

    ghost predicate Valid()
      reads this
    {
      Inv(State(), lo) && |dinodes| == |inodes| && nlog <= |data|
    }

    /** Where the log starts. */
    ghost function LogStart(): nat
      requires nlog <= |data|
      reads this
    {
      |data| - nlog
    }

    /** Memory, disk and what has been logged. */
    ghost function Now(): Snap
      reads this
    {
      Snap(State(), dinodes, logged)
    }

    /** An empty file system: only metadata sectors are in use. */
    constructor (lo: nat, bitmap: seq<BitBlock>, size: nat, nlog: nat, ninodes: nat)
      requires 0 < lo <= size < WRAP && nlog <= size && Covers(bitmap, size)
      requires forall b :: 0 <= b < size ==> (Bit(bitmap, b) <==> b < lo)
      ensures Valid() && |inodes| == ninodes && |data| == size && dinodes == inodes
      ensures this.lo == lo && this.nlog == nlog && this.bitmap == bitmap
      ensures forall i :: 0 <= i < ninodes ==> inodes[i].typ == 0 && inodes[i].size == 0
      ensures forall i :: 0 <= i < ninodes ==> Contents(State(), lo, i) == []
    {
      var ip := Inode(0, seq(NDIRECT + 1, _ => 0), 0);
      this.lo, this.nlog, this.bitmap, data := lo, nlog, bitmap, seq(size, _ => ZeroBlock());
      inodes, dinodes, logged := seq(ninodes, _ => ip), seq(ninodes, _ => ip), {};
      new;
      assert forall s :: IsSlot(State(), s) ==> InRange(State(), lo, s) && Addr(State(), lo, s) == 0;
    }

    /** The sector of the bitmap that holds the bit for b, and the sector that holds inode i. */
    function BBlock(b: nat): nat
      reads this
    {
      BitSector(b, |inodes|)
    }

    function IBlock(i: nat): nat {
      i / IPB + 2
    }

    /**
     balloc(): the first free sector, marked and zeroed; 0 where the source panics. It belongs to
     the log if and only if every sector before the log is in use.
     */
    method Balloc() returns (r: nat)
      requires Covers(bitmap, |data|) && 0 < lo <= |data| && nlog <= |data| && |dinodes| == |inodes|
      requires forall c :: 0 <= c < lo ==> Bit(bitmap, c)
      modifies this`bitmap, this`data, this`logged
      ensures r == 0 ==> State() == old(State()) && logged == old(logged) && Full(bitmap, |data|)
      ensures r != 0 ==>
                && lo <= r < |old(data)| && !Bit(old(bitmap), r)
                && (forall c :: 0 <= c < r ==> Bit(old(bitmap), c))
                && State() == Allocated(old(State()), r)
                && logged == old(logged) + {BBlock(r), r}
                && (r >= LogStart() <==> forall c :: 0 <= c < LogStart() ==> Bit(old(bitmap), c))
      ensures Used(old(Now()), Now(), 1)
    {
      hide Bit, ZeroBlock, Used;
      UsedNone(Now());
      UsedMore(Now(), Now(), 0, 1);
      var b := 0;
      while b < |data|
        invariant 0 <= b && b % BPB == 0
        invariant State() == old(State()) && logged == old(logged)
        invariant forall c :: 0 <= c < b && c < |data| ==> Bit(bitmap, c)
        decreases |data| - b
      {
        var bi := FirstFree(b);
        if bi < BPB && b + bi < |data| {
          r := b + bi;
          TakeSector(b, bi);
          return;
        }
        b := b + BPB;
      }
      r := 0;
    }

    /** balloc() where it has found a clear bit: marks the sector and zeroes it. */
    method TakeSector(b: nat, bi: nat)
      requires Covers(bitmap, |data|) && b % BPB == 0 && bi < BPB && b + bi < |data| && |dinodes| == |inodes|
      requires !Bit(bitmap, b + bi) && forall c :: 0 <= c < b + bi ==> Bit(bitmap, c)
      modifies this`bitmap, this`data, this`logged
      ensures State() == Allocated(old(State()), b + bi) && logged == old(logged) + {BBlock(b + bi), b + bi}
      ensures Used(old(Now()), Now(), 1)
    {
      hide Bit, ZeroBlock, Used;
      assert (b + bi) / BPB == b / BPB && (b + bi) % BPB == bi;
      AllocUsed(Now(), b + bi);
      bitmap := bitmap[b / BPB := MarkIn(bitmap[b / BPB], bi)];
      data := data[b + bi := ZeroBlock()];
      logged := logged + {BBlock(b + bi), b + bi};
    }

    /** The inner loop of balloc(): the first clear bit of the bitmap sector that starts at b. */
    method FirstFree(b: nat) returns (bi: nat)
      requires Covers(bitmap, |data|) && b < |data| && b % BPB == 0
      ensures bi <= BPB && forall c :: b <= c < b + bi && c < |data| ==> Bit(bitmap, c)
      ensures bi < BPB && b + bi < |data| ==> !Bit(bitmap, b + bi)
      ensures bi < BPB ==> b + bi <= |data|
    {
      hide BitIn;
      bi := 0;
      while bi < BPB && b + bi < |data|
        invariant 0 <= bi <= BPB && b + bi <= |data|
        invariant forall c :: b <= c < b + bi ==> Bit(bitmap, c)
      {
        assert (b + bi) / BPB == b / BPB && (b + bi) % BPB == bi;
        assert Bit(bitmap, b + bi) <==> BitIn(bitmap[b / BPB], bi);
        if !BitIn(bitmap[b / BPB], bi) {
          return;
        }
        bi := bi + 1;
      }
    }

    /** bfree(): clears a bit that is set; a clear one is the panic "freeing free block". */
    method Bfree(b: nat)
      requires Covers(bitmap, |data|) && b < |data| && Bit(bitmap, b) && |dinodes| == |inodes|
      modifies this`bitmap, this`logged
      ensures bitmap == Unmarked(old(bitmap), b) && logged == old(logged) + {BBlock(b)}
      ensures forall c :: 0 <= c < |data| ==> (Bit(bitmap, c) <==> c != b && Bit(old(bitmap), c))
      ensures LogsAll(old(Now()), Now())
    {
      forall c | 0 <= c < |data| ensures Bit(Unmarked(bitmap, b), c) <==> c != b && Bit(bitmap, c) {
        MarkedBits(bitmap, |data|, b, c);
      }
      bitmap := bitmap[b / BPB := UnmarkIn(bitmap[b / BPB], b % BPB)];
      logged := logged + {BBlock(b)};
    }

    /** ip->addrs[k] = balloc(): fills a direct slot, or the indirect one for k == NDIRECT. */
    method AllocAddr(i: nat, k: nat) returns (b: nat)
      requires Valid() && i < |inodes| && k <= NDIRECT && inodes[i].addrs[k] == 0
      modifies this`bitmap, this`data, this`inodes, this`logged
      ensures Used(old(Now()), Now(), 1)
      ensures b == 0 ==> State() == old(State()) && logged == old(logged) && Full(bitmap, |data|)
      ensures b != 0 ==>
                && Valid() && |inodes| == |old(inodes)| && |data| == |old(data)| && Extends(old(State()), State(), lo)
                && inodes == old(inodes)[i := old(inodes)[i].(addrs := old(inodes)[i].addrs[k := b])]
                && logged == old(logged) + {BBlock(b), b}
    {
      hide Took;
      b := Balloc();
      if b != 0 {
        ghost var slot := if k < NDIRECT then Direct(i, k) else Indirect(i);
        AttachedExtends(old(State()), lo, slot, b);
        inodes := inodes[i := inodes[i].(addrs := inodes[i].addrs[k := b])];
        assert State() == Attached(old(State()), slot, b);
      }
    }

    /** a[j] = balloc() in the indirect block of inode i. */
    method AllocEntry(i: nat, j: nat) returns (b: nat)
      requires Valid() && i < |inodes| && j < NINDIRECT && inodes[i].addrs[NDIRECT] != 0
      requires Addr(State(), lo, Entry(i, j)) == 0
      modifies this`bitmap, this`data, this`logged
      ensures Used(old(Now()), Now(), 1)
      ensures b == 0 ==> State() == old(State()) && logged == old(logged) && Full(bitmap, |data|)
      ensures b != 0 ==>
                && Valid() && |data| == |old(data)| && Extends(old(State()), State(), lo)
                && Addr(State(), lo, Entry(i, j)) == b
                && logged == old(logged) + {BBlock(b), b, inodes[i].addrs[NDIRECT]}
    {
      hide SetWord, ByteAt, Took;
      var d := inodes[i].addrs[NDIRECT];
      assert InodeShape(inodes[i], lo, |data|);
      b := Balloc();
      if b != 0 {
        AttachedExtends(old(State()), lo, Entry(i, j), b);
        data := data[d := SetWord(data[d], j, b)];
        logged := logged + {d};
        assert State() == Attached(old(State()), Entry(i, j), b);
      }
    }

    /**
     bmap(): the sector of file block bn, allocated if missing. An existing block is returned
     without changing anything; otherwise files keep their contents and existing blocks stay.
     */
    method Bmap(i: nat, bn: nat) returns (a: nat)
      requires Valid() && i < |inodes| && bn < MAXFILE
      modifies this`bitmap, this`data, this`inodes, this`logged
      ensures old(BlockAddr(State(), lo, i, bn)) != 0 ==>
                a == old(BlockAddr(State(), lo, i, bn)) && State() == old(State()) && logged == old(logged)
      ensures Valid() && |inodes| == |old(inodes)| && |data| == |old(data)| && |inodes[i].addrs| == NDIRECT + 1
      ensures old(logged) <= logged && (old(inodes)[i].addrs[NDIRECT] != 0 ==> inodes[i].addrs[NDIRECT] != 0)
      ensures Used(old(Now()), Now(),
                (if old(BlockAddr(State(), lo, i, bn)) == 0 then 1 else 0) + NewIndirect(old(State()), State(), i))
      ensures a == 0 ==> Full(bitmap, |data|)
      ensures a != 0 ==>
                && Extends(old(State()), State(), lo)
                && BlockAddr(State(), lo, i, bn) == a
                && (forall j :: 0 <= j < |inodes| && j != i ==> inodes[j] == old(inodes[j]))
                && logged <= old(logged) + {a, BBlock(a)} + IndirectLog(State(), i)
                && IndirectLog(old(State()), i) <= IndirectLog(State(), i)
    {
      hide ByteAt, Bit, Full, IsBlock, Used;
      assert InodeShape(inodes[i], lo, |data|);
      UsedNone(Now());
      UsedTrans(Now(), Now(), Now(), 0, 0, 1);
      if bn < NDIRECT {
        a := inodes[i].addrs[bn];
        if a == 0 {
          a := AllocAddr(i, bn);
        }
      } else {
        a := BmapFar(i, bn);
      }
    }

    /** bmap() behind the direct blocks. */
    method BmapFar(i: nat, bn: nat) returns (a: nat)
      requires Valid() && i < |inodes| && NDIRECT <= bn < MAXFILE
      modifies this`bitmap, this`data, this`inodes, this`logged
      ensures old(BlockAddr(State(), lo, i, bn)) != 0 ==>
                a == old(BlockAddr(State(), lo, i, bn)) && State() == old(State()) && logged == old(logged)
      ensures Valid() && |inodes| == |old(inodes)| && |data| == |old(data)| && |inodes[i].addrs| == NDIRECT + 1
      ensures old(logged) <= logged && (old(inodes)[i].addrs[NDIRECT] != 0 ==> inodes[i].addrs[NDIRECT] != 0)
      ensures Used(old(Now()), Now(),
                (if old(BlockAddr(State(), lo, i, bn)) == 0 then 1 else 0) + NewIndirect(old(State()), State(), i))
      ensures a == 0 ==> Full(bitmap, |data|)
      ensures a != 0 ==>
                && Extends(old(State()), State(), lo)
                && BlockAddr(State(), lo, i, bn) == a
                && (forall j :: 0 <= j < |inodes| && j != i ==> inodes[j] == old(inodes[j]))
                && logged <= old(logged) + {a, BBlock(a)} + IndirectLog(State(), i)
                && IndirectLog(old(State()), i) <= IndirectLog(State(), i)
    {
      hide ByteAt, Bit, Full, IsBlock, Used;
      assert InodeShape(inodes[i], lo, |data|);
      var ok := EnsureIndirect(i);
      if !ok {
        UsedNone(Now());
        UsedMore(Now(), Now(), 0, 1);
        return 0;
      }
      ghost var mid, k := Now(), if old(BlockAddr(State(), lo, i, bn)) == 0 then 1 else 0;
      a := BmapIndirect(i, bn - NDIRECT);
      ghost var d := NewIndirect(old(State()), State(), i);
      UsedTrans(old(Now()), mid, Now(), d, if BlockAddr(mid.fs, lo, i, bn) == 0 then 1 else 0, k + d);
      if a != 0 {
        ExtendsTrans(old(State()), mid.fs, State(), lo);
      }
    }

    /** The indirect block is allocated if missing; no entry appears by that. */
    method EnsureIndirect(i: nat) returns (ok: bool)
      requires Valid() && i < |inodes|
      modifies this`bitmap, this`data, this`inodes, this`logged
      ensures Valid() && |inodes| == |old(inodes)| && |data| == |old(data)| && |inodes[i].addrs| == NDIRECT + 1
      ensures old(logged) <= logged && Used(old(Now()), Now(), NewIndirect(old(State()), State(), i))
      ensures !ok ==> State() == old(State()) && logged == old(logged) && Full(bitmap, |data|)
      ensures old(inodes)[i].addrs[NDIRECT] != 0 ==> ok && State() == old(State()) && logged == old(logged)
      ensures ok ==>
                && Valid() && |inodes| == |old(inodes)| && |data| == |old(data)|
                && Extends(old(State()), State(), lo)
                && inodes[i].addrs[NDIRECT] != 0
                && (forall j :: 0 <= j < |inodes| && j != i ==> inodes[j] == old(inodes[j]))
                && logged <= old(logged) + IndirectLog(State(), i)
                && IndirectLog(old(State()), i) <= IndirectLog(State(), i)
    {
      assert InodeShape(inodes[i], lo, |data|);
      ok := true;
      UsedNone(Now());
      if inodes[i].addrs[NDIRECT] == 0 {
        var d := AllocAddr(i, NDIRECT);
        ok := d != 0;
      }
    }

    method BmapIndirect(i: nat, j: nat) returns (a: nat)
      requires Valid() && i < |inodes| && j < NINDIRECT && inodes[i].addrs[NDIRECT] != 0
      modifies this`bitmap, this`data, this`logged
      ensures old(Addr(State(), lo, Entry(i, j))) != 0 ==>
                a == old(Addr(State(), lo, Entry(i, j))) && State() == old(State()) && logged == old(logged)
      ensures Valid() && old(logged) <= logged
      ensures Used(old(Now()), Now(), if old(Addr(State(), lo, Entry(i, j))) == 0 then 1 else 0)
      ensures a == 0 ==> State() == old(State()) && Full(bitmap, |data|)
      ensures a != 0 ==>
                && |data| == |old(data)|
                && Extends(old(State()), State(), lo)
                && Addr(State(), lo, Entry(i, j)) == a
                && logged <= old(logged) + {a, BBlock(a), inodes[i].addrs[NDIRECT]}
    {
      var d := inodes[i].addrs[NDIRECT];
      assert InodeShape(inodes[i], lo, |data|);
      assert InRange(State(), lo, Entry(i, j));
      UsedNone(Now());
      a := Word(data[d], j);
      if a == 0 {
        a := AllocEntry(i, j);
      }
    }

    /** iupdate(): the inode goes to its place in the inode sectors. */
    method Iupdate(i: nat)
      requires i < |inodes| == |dinodes|
      modifies this`dinodes, this`logged
      ensures dinodes == old(dinodes)[i := inodes[i]] && logged == old(logged) + {IBlock(i)}
      ensures LogsAll(old(Now()), Now())
    {
      dinodes := dinodes[i := inodes[i]];
      logged := logged + {IBlock(i)};
    }

    /**
     readi(): exactly the requested slice, cut at the end of the file. Since no block below the
     size is missing, reading allocates nothing.
     */
    method Readi(i: nat, off: nat, n: nat) returns (r: IoResult, dst: seq<int>)
      requires Valid() && i < |inodes| && off < WRAP && n < WRAP
      modifies this`bitmap, this`data, this`inodes, this`logged
      ensures State() == old(State()) && logged == old(logged)
      ensures r == if inodes[i].typ == T_DEV then FromDriver
                   else if off > inodes[i].size || off + n >= WRAP then Minus1
                   else Count(Min(n, inodes[i].size - off))
      ensures dst == if r.Count? then Contents(State(), lo, i)[off..off + r.n] else []
    {
      hide ByteAt, Contents;
      dst := [];
      if inodes[i].typ == T_DEV {
        return FromDriver, [];
      }
      if off > inodes[i].size || off + n >= WRAP {
        return Minus1, [];
      }
      var n1 := Min(n, inodes[i].size - off);
      assert InodeShape(inodes[i], lo, |data|);
      var tot := 0;
      while tot < n1
        invariant 0 <= tot <= n1 && State() == old(State()) && logged == old(logged)
        invariant dst == Contents(State(), lo, i)[off..off + tot]
      {
        var p := off + tot;
        BlockExists(State(), lo, i, p);
        var a := Bmap(i, p / BSIZE);
        var m := Min(n1 - tot, BSIZE - p % BSIZE);
        BlockSlice(State(), lo, i, p, m);
        Slices(Contents(State(), lo, i), off, tot, m);
        dst := dst + data[a][p % BSIZE..p % BSIZE + m];
        tot := tot + m;
      }
      r := Count(n1);
    }

    /** One turn of the loop of writei(): bytes that stay within one block. */
    method WriteBlock(i: nat, p: nat, src: seq<int>) returns (ok: bool, ghost a: nat)
      requires Valid() && i < |inodes| && Bytes(src)
      requires p + |src| <= MAXFILE * BSIZE && 0 < |src| <= BSIZE - p % BSIZE
      modifies this`bitmap, this`data, this`inodes, this`logged
      ensures Valid() && |inodes| == |old(inodes)| && |data| == |old(data)| && |inodes[i].addrs| == NDIRECT + 1
      ensures old(logged) <= logged && (old(inodes)[i].addrs[NDIRECT] != 0 ==> inodes[i].addrs[NDIRECT] != 0)
      ensures Used(old(Now()), Now(),
                   (if old(BlockAddr(State(), lo, i, p / BSIZE)) == 0 then 1 else 0) +
                   NewIndirect(old(State()), State(), i))
      ensures ok ==> BlockWritten(old(Now()), Now(), lo, i, p, src, a)
      ensures !ok ==> Full(bitmap, |data|) && old(BlockAddr(State(), lo, i, p / BSIZE)) == 0
    {
      hide ByteAt, WrittenByte, Patch, IsBlock, Bit, Full, Used, Wrote, Covers;
      var b := Bmap(i, p / BSIZE);
      a := b;
      assert InRange(old(State()), lo, BlockSlot(i, p / BSIZE));
      if b == 0 {
        return false, 0;
      }
      ghost var mid, k := Now(),
          (if old(BlockAddr(State(), lo, i, p / BSIZE)) == 0 then 1 else 0) + NewIndirect(old(State()), State(), i);
      ExtendsWrote(old(State()), mid.fs, lo, i, p);
      PatchedBlock(mid.fs, lo, i, p, src);
      data := data[b := Patch(data[b], p % BSIZE, src)];
      logged := logged + {b};
      UsedLogs(mid, Now());
      UsedTrans(old(Now()), mid, Now(), k, 0, k);
      WroteMore(old(State()), mid.fs, State(), lo, i, p, [], src);
      assert [] + src == src;
      ok := true;
    }

    /** One turn of the loop. */
    method WriteTurn(i: nat, src: seq<int>, off: nat, tot: nat, ghost z: Snap, ghost blocks: set<nat>,
        ghost maps: set<nat>)
      returns (ok: bool, m: nat, ghost blocks': set<nat>, ghost maps': set<nat>)
      requires Valid() && i < |inodes| && Progress(z, Now(), lo, i, src, off, tot, blocks, maps)
      requires Accounts(z, Now(), lo, i, off, tot)
      requires off <= inodes[i].size && off + |src| <= MAXFILE * BSIZE && (tot == 0 || (off + tot) % BSIZE == 0)
      requires tot < |src| && Bytes(src)
      modifies this`bitmap, this`data, this`inodes, this`logged
      ensures Valid() && |data| == |old(data)| && |inodes| == |old(inodes)|
      ensures 0 < m <= |src| - tot
      ensures !ok ==> Full(bitmap, |data|) && Used(z, Now(), NewBlocks(off, |src|) + 1)
      ensures ok ==> Progress(z, Now(), lo, i, src, off, tot + m, blocks', maps')
      ensures ok ==> Accounts(z, Now(), lo, i, off, tot + m)
      ensures ok ==> inodes[i].size == old(inodes)[i].size && (tot + m == |src| || (off + tot + m) % BSIZE == 0)
    {
      hide ByteAt, WrittenByte, Addr, BlocksTouched, NewBlocks, Bit, Full, IsBlock, Used, Wrote, Progress, Accounts,
          BlockWritten;
      var p := off + tot;
      m := Min(|src| - tot, BSIZE - p % BSIZE);
      ghost var b := Now();
      ghost var there := BlockAddr(b.fs, lo, i, p / BSIZE) != 0;
      MissingBlock(b.fs, lo, i, p);
      CountStep(off, tot, m, |src|);
      ghost var a;
      ok, a := WriteBlock(i, p, src[tot..tot + m]);
      blocks', maps' := blocks + {a}, if there then maps else maps + {BitSector(a, |inodes|)};
      UsedMore(b, Now(), (if there then 0 else 1) + NewIndirect(b.fs, State(), i),
               NewBlocks(off, tot + m) - NewBlocks(off, tot) + NewIndirect(b.fs, State(), i));
      if ok {
        ProgressTurn(z, b, Now(), lo, i, src, off, tot, m, blocks, maps, a);
        AccountsTurn(z, b, Now(), lo, i, off, tot, m, src, a);
      } else {
        AccountsFail(z, b, Now(), lo, i, off, tot, m, |src|);
      }
    }

    /** The loop of writei(). */
    method WriteLoop(i: nat, src: seq<int>, off: nat) returns (ok: bool, ghost blocks: set<nat>, ghost maps: set<nat>)
      requires Valid() && i < |inodes| && Bytes(src) && off <= inodes[i].size && off + |src| <= MAXFILE * BSIZE
      modifies this`bitmap, this`data, this`inodes, this`logged
      ensures Valid() && |data| == |old(data)|
      ensures !ok ==> Full(bitmap, |data|) && Used(old(Now()), Now(), NewBlocks(off, |src|) + 1)
      ensures ok ==> |inodes| == |old(inodes)| && Progress(old(Now()), Now(), lo, i, src, off, |src|, blocks, maps)
      ensures ok ==> Accounts(old(Now()), Now(), lo, i, off, |src|)
    {
      hide Inv, NewBlocks, Full, Used, Accounts, Progress;
      ok, blocks, maps := true, {}, {};
      var tot := 0;
      LoopStart(Now(), lo, i, src, off);
      while tot < |src|
        invariant Valid() && 0 <= tot <= |src| && |inodes| == |old(inodes)| && off <= inodes[i].size
        invariant |data| == |old(data)|
        invariant Progress(old(Now()), Now(), lo, i, src, off, tot, blocks, maps)
        invariant Accounts(old(Now()), Now(), lo, i, off, tot)
        invariant tot == 0 || tot == |src| || (off + tot) % BSIZE == 0
        decreases |src| - tot
      {
        var m;
        ok, m, blocks, maps := WriteTurn(i, src, off, tot, old(Now()), blocks, maps);
        if !ok {
          return;
        }
        tot := tot + m;
      }
    }

    /** writei() once the arguments have been found good: the loop, then the size. */
    method WriteRange(i: nat, src: seq<int>, off: nat) returns (ok: bool)
      requires Valid() && i < |inodes| && Bytes(src) && off <= inodes[i].size && off + |src| <= MAXFILE * BSIZE
      requires dinodes[i] == inodes[i]
      modifies this`bitmap, this`data, this`inodes, this`dinodes, this`logged
      ensures Valid() && |data| == |old(data)| && Used(old(Now()), Now(), NewBlocks(off, |src|) + 1)
      ensures !ok ==> Full(bitmap, |data|)
      ensures ok ==> RangeWritten(old(Now()), Now(), lo, i, src, off)
    {
      hide ByteAt, WrittenByte, Addr, BlocksTouched, NewBlocks, Bit, Full, IsBlock, LogBound, Contents, Spliced, Used;
      hide LogsBlocks, RangeWritten, Progress, Accounts, Wrote;
      ghost var blocks, maps;
      ok, blocks, maps := WriteLoop(i, src, off);
      if !ok {
        return;
      }
      ghost var mid := Now();
      if |src| > 0 && off + |src| > inodes[i].size {
        inodes := inodes[i := inodes[i].(size := off + |src|)];
        Iupdate(i);
      }
      RangeDone(old(Now()), mid, Now(), lo, i, src, off, blocks, maps);
    }

    /**
     writei(): the bytes are spliced into the file, which grows if they reach past its end; no
     other file changes; the inode on disk agrees with memory afterwards; and the sectors logged
     are bounded by the blocks touched and include every sector that changed and every block
     written. Out of range it returns -1 and does nothing. It takes at most one sector per new block
     and one more, lowest first: with that many free before the log, none of the log's is taken, and
     the panic for want of blocks needs that few free sectors on the whole disk.
     */
    method Writei(i: nat, src: seq<int>, off: nat) returns (r: IoResult)
      requires Valid() && i < |inodes| && Bytes(src) && off < WRAP && |src| < WRAP && dinodes[i] == inodes[i]
      modifies this`bitmap, this`data, this`inodes, this`dinodes, this`logged
      ensures old(inodes)[i].typ == T_DEV <==> r == FromDriver
      ensures r == Minus1 <==> old(inodes)[i].typ != T_DEV &&
                               (off > old(inodes)[i].size || off + |src| >= WRAP || off + |src| > MAXFILE * BSIZE)
      ensures r == FromDriver || r == Minus1 ==>
                State() == old(State()) && dinodes == old(dinodes) && logged == old(logged)
      ensures r == OutOfBlocks ==>
                Full(bitmap, |data|) && |FreeBelow(old(bitmap), |old(data)|)| <= NewBlocks(off, |src|) + 1
      ensures Valid() && |data| == |old(data)| && Used(old(Now()), Now(), NewBlocks(off, |src|) + 1)
      ensures |FreeBelow(old(bitmap), LogStart())| > NewBlocks(off, |src|) ==>
                forall b :: LogStart() <= b < |data| ==> (Bit(bitmap, b) <==> Bit(old(bitmap), b))
      ensures r.Count? ==>
                && r.n == |src| && |inodes| == |old(inodes)| && LogsBlocks(State(), lo, i, off, |src|, logged)
                && Contents(State(), lo, i) == Spliced(old(Contents(State(), lo, i)), off, src)
                && (forall j :: 0 <= j < |inodes| && j != i ==>
                      inodes[j] == old(inodes)[j] && Contents(State(), lo, j) == old(Contents(State(), lo, j)))
                && inodes[i].typ == old(inodes)[i].typ
                && dinodes == old(dinodes)[i := inodes[i]]
                && |logged - old(logged)| <= LogBound(off, |src|)
    {
      hide ByteAt, NewBlocks, Bit, Full, LogBound, Contents, Spliced, Used, LogsBlocks, FreeBelow;
      UsedNone(Now());
      UsedMore(Now(), Now(), 0, NewBlocks(off, |src|) + 1);
      if inodes[i].typ == T_DEV {
        return FromDriver;
      }
      if off > inodes[i].size || off + |src| >= WRAP {
        return Minus1;
      }
      if off + |src| > MAXFILE * BSIZE {
        return Minus1;
      }
      var ok := WriteRange(i, src, off);
      NoLogSector(old(Now()), Now(), NewBlocks(off, |src|) + 1, LogStart());
      r := if ok then Count(|src|) else OutOfBlocks;
    }

    /**
     filewrite() on an inode, from offset off: all n bytes are spliced in, or -1 with the largest
     run of whole chunks that fits; the panic "short filewrite" is not reachable, and no operation
     between begin_op() and end_op() logs more sectors than the log may hold. A write of more than
     MAXOPBLOCKS blocks logs more in its first operation than begin_op() reserved for it.
     */
    method Filewrite(i: nat, src: seq<int>, n: int, off: nat) returns (r: IoResult, off': nat, ghost ops: seq<set<nat>>)
      requires Valid() && i < |inodes| && Bytes(src) && n <= |src| && off < WRAP && n < WRAP / 2
      requires dinodes[i] == inodes[i]
      modifies this`bitmap, this`data, this`inodes, this`dinodes, this`logged
      ensures forall k :: 0 <= k < |ops| ==> |ops[k]| <= Sectors.LOGSIZE
      ensures r.Count? && n > Sectors.MAXOPBLOCKS * BSIZE ==> |ops| > 0 && |ops[0]| > Sectors.MAXOPBLOCKS
      ensures r == FromDriver <==> n > 0 && old(inodes)[i].typ == T_DEV
      ensures r == OutOfBlocks ==> Full(bitmap, |data|)
      ensures r == FromDriver || n <= 0 || off > old(inodes)[i].size ==> State() == old(State()) && off' == off
      ensures r.Count? ==> r.n == n && off' == off + n
      ensures n == 0 ==> r.Count?
      ensures n < 0 || (n > 0 && r != FromDriver && off > old(inodes)[i].size) ==> r == Minus1
      ensures n > 0 && r != FromDriver && r != OutOfBlocks && off <= old(inodes)[i].size ==>
                && off <= off' <= off + n
                && FileWritten(old(State()), old(dinodes), i, off, src[..off' - off])
                && (r.Count? <==> off + n <= MAXFILE * BSIZE)
                && (r == Minus1 ==> off' <= MAXFILE * BSIZE && (off' - off) % MAXCHUNK == 0 &&
                                    off' + Min(off + n - off', MAXCHUNK) > MAXFILE * BSIZE)
    {
      hide ByteAt, Bit, Full, LogBound, Contents, Spliced, BlocksTouched, LogsAll;
      ops, off' := [], off;
      var done := 0;
      StartsWritten(i, off);
      assert src[..0] == [];
      while done < n
        invariant done == 0 || 0 < done <= n
        invariant FileWritten(old(State()), old(dinodes), i, off, src[..done])
        invariant off' == off + done && (done == n || done % MAXCHUNK == 0)
        invariant done == 0 ==> State() == old(State())
        invariant done > 0 ==> off <= old(inodes)[i].size && inodes[i].typ != T_DEV && off' <= MAXFILE * BSIZE
        invariant forall k :: 0 <= k < |ops| ==> |ops[k]| <= Sectors.LOGSIZE
        invariant done == 0 ==> ops == []
        invariant done > 0 && n > Sectors.MAXOPBLOCKS * BSIZE ==> |ops| > 0 && |ops[0]| > Sectors.MAXOPBLOCKS
      {
        var n1 := Min(n - done, MAXCHUNK);
        r := WriteChunk(i, src, off, done, n1, old(State()), old(dinodes));
        if !r.Count? {
          return;
        }
        NextChunk(done);
        OverBudget(off', n1);
        ops := ops + [logged];
        off' := off' + r.n;
        done := done + r.n;
      }
      r := if done == n then Count(n) else Minus1;
    }

    /** Since inodes and sectors were f, and inodes on disk d, `src` has been written at off. */
    ghost predicate FileWritten(f: FS, d: seq<Inode>, i: nat, off: nat, src: seq<int>)
      requires Shape(f, lo) && i < |f.inodes| == |d|
      reads this
    {
      && Valid() && |inodes| == |f.inodes| && dinodes == d[i := inodes[i]] && inodes[i].typ == f.inodes[i].typ
      && (off <= f.inodes[i].size ==>
            off + |src| <= inodes[i].size && Contents(State(), lo, i) == Spliced(Contents(f, lo, i), off, src))
      && forall j :: 0 <= j < |inodes| && j != i ==>
                       inodes[j] == f.inodes[j] && Contents(State(), lo, j) == Contents(f, lo, j)
    }

    lemma StartsWritten(i: nat, off: nat)
      requires Valid() && i < |inodes| && dinodes[i] == inodes[i]
      ensures FileWritten(State(), dinodes, i, off, [])
    {
      if off <= inodes[i].size {
        NothingSpliced(Contents(State(), lo, i), off);
      }
    }

    /** One turn of filewrite()'s loop: an operation of its own. */
    method WriteChunk(i: nat, src: seq<int>, off: nat, done: nat, n: nat, ghost f: FS, ghost d: seq<Inode>)
      returns (r: IoResult)
      requires Inv(f, lo) && i < |f.inodes| == |d| && done + n <= |src| && Bytes(src)
      requires 0 < n <= MAXCHUNK && off + done < WRAP && FileWritten(f, d, i, off, src[..done])
      requires if done == 0 then State() == f else off <= f.inodes[i].size
      modifies this`bitmap, this`data, this`inodes, this`dinodes, this`logged
      ensures old(inodes)[i].typ == T_DEV <==> r == FromDriver
      ensures r == Minus1 <==> old(inodes)[i].typ != T_DEV &&
                               (off + done > old(inodes)[i].size || off + done + n > MAXFILE * BSIZE)
      ensures r == FromDriver || r == Minus1 ==> State() == old(State()) && dinodes == old(dinodes)
      ensures r == OutOfBlocks ==> Full(bitmap, |data|)
      ensures LogsAll(old(Now()).(log := {}), Now())
      ensures r.Count? ==> r.n == n && FileWritten(f, d, i, off, src[..done + n])
      ensures r.Count? ==> BlocksTouched(off + done, n) <= |logged| <= Sectors.LOGSIZE
    {
      hide ByteAt, Bit, Full, LogBound, Contents, Spliced, Took, LogsBlocks, BlocksTouched, FreeBelow;
      logged := {};
      r := Writei(i, src[done..done + n], off + done);
      if r.Count? {
        LogsAtLeast(State(), lo, i, off + done, n, logged);
      }
      ChunkFits(off + done, n);
      if r.Count? {
        assert logged - {} == logged;
        SplicedTwice(Contents(f, lo, i), off, src[..done], src[done..done + n]);
        assert src[..done] + src[done..done + n] == src[..done + n];
      }
    }

    /** The first loop of itrunc(). */
    method TruncDirect(i: nat)
      requires Valid() && i < |inodes|
      modifies this`bitmap, this`inodes, this`logged
      ensures |inodes| == |old(inodes)| && FreedTo(old(State()), lo, i, NDIRECT, bitmap) && LogsAll(old(Now()), Now())
      ensures inodes[i].size == old(inodes)[i].size && inodes[i].typ == old(inodes)[i].typ
      ensures inodes[i].addrs == seq(NDIRECT, _ => 0) + [old(inodes)[i].addrs[NDIRECT]]
      ensures forall j :: 0 <= j < |inodes| && j != i ==> inodes[j] == old(inodes)[j]
    {
      hide ByteAt, Bit, Owned;
      ghost var f := State();
      assert InodeShape(f.inodes[i], lo, |data|);
      var k := 0;
      while k < NDIRECT
        invariant 0 <= k <= NDIRECT && |inodes| == |f.inodes| && FreedTo(f, lo, i, k, bitmap)
        invariant LogsAll(old(Now()), Now())
        invariant inodes[i] == f.inodes[i].(addrs := inodes[i].addrs) && |inodes[i].addrs| == NDIRECT + 1
        invariant forall m :: 0 <= m <= NDIRECT ==> inodes[i].addrs[m] == if m < k then 0 else f.inodes[i].addrs[m]
        invariant forall j :: 0 <= j < |inodes| && j != i ==> inodes[j] == f.inodes[j]
      {
        FreeNext(f, lo, i, k, bitmap);
        ghost var mid := Now();
        if inodes[i].addrs[k] != 0 {
          Bfree(inodes[i].addrs[k]);
          LogsTrans(old(Now()), mid, Now());
          inodes := inodes[i := inodes[i].(addrs := inodes[i].addrs[k := 0])];
        }
        k := k + 1;
      }
    }

    /** The loop of itrunc() over the indirect block d, and the release of that block. */
    method TruncIndirect(i: nat, d: nat, ghost f: FS)
      requires Inv(f, lo) && i < |f.inodes| && data == f.data && f.inodes[i].addrs[NDIRECT] == d != 0
      requires FreedTo(f, lo, i, NDIRECT, bitmap) && |dinodes| == |inodes|
      modifies this`bitmap, this`logged
      ensures FreedTo(f, lo, i, NSLOTS, bitmap) && LogsAll(old(Now()), Now())
    {
      hide ByteAt, Bit, Owned;
      assert InodeShape(f.inodes[i], lo, |data|);
      assert IsBlock(data[d]);
      var j := 0;
      while j < NINDIRECT
        invariant 0 <= j <= NINDIRECT && FreedTo(f, lo, i, NDIRECT + j, bitmap) && LogsAll(old(Now()), Now())
      {
        ghost var mid := Now();
        FreeNext(f, lo, i, NDIRECT + j, bitmap);
        assert Addr(f, lo, NthSlot(i, NDIRECT + j)) == Word(data[d], j);
        if Word(data[d], j) != 0 {
          Bfree(Word(data[d], j));
          LogsTrans(old(Now()), mid, Now());
        }
        j := j + 1;
      }
      FreeNext(f, lo, i, MAXFILE, bitmap);
      ghost var mid := Now();
      Bfree(d);
      LogsTrans(old(Now()), mid, Now());
    }

    /**
     itrunc(): frees exactly the sectors of file i, none of them twice, and leaves it empty; the
     other files keep their contents.
     */
    method Itrunc(i: nat)
      requires Valid() && i < |inodes|
      modifies this`bitmap, this`inodes, this`dinodes, this`logged
      ensures Valid() && |inodes| == |old(inodes)| && State() == Truncated(old(State()), i, bitmap)
      ensures forall b :: 0 <= b < |data| ==>
                            (Bit(bitmap, b) <==> Bit(old(bitmap), b) && !BelongsTo(old(State()), lo, i, b))
      ensures forall j, p :: 0 <= j < |inodes| && j != i && 0 <= p < MAXFILE * BSIZE ==>
                               ByteAt(State(), lo, j, p) == ByteAt(old(State()), lo, j, p)
      ensures dinodes == old(dinodes)[i := inodes[i]] && LogsAll(old(Now()), Now())
    {
      hide ByteAt, Bit, Owned, Among, LogsAll;
      ghost var f := State();
      assert InodeShape(f.inodes[i], lo, |data|);
      TruncDirect(i);
      ghost var mid := Now();
      if inodes[i].addrs[NDIRECT] != 0 {
        TruncIndirect(i, inodes[i].addrs[NDIRECT], f);
        LogsTrans(old(Now()), mid, Now());
        mid := Now();
        inodes := inodes[i := inodes[i].(addrs := inodes[i].addrs[NDIRECT := 0])];
      } else {
        SkipEntries(f, lo, i, bitmap);
      }
      inodes := inodes[i := inodes[i].(size := 0)];
      assert inodes[i].addrs == seq(NDIRECT + 1, _ => 0);
      AllFreed(f, lo, i, bitmap);
      TruncatedInv(f, lo, i, bitmap);
      assert inodes == f.inodes[i := EmptyInode(f.inodes[i])];
      LogsMemory(old(Now()), mid, Now());
      mid := Now();
      Iupdate(i);
      LogsTrans(old(Now()), mid, Now());
    }
  }

  /** One byte for an empty file. */
  method FirstByte(fs: FileSystem, i: nat)
    requires fs.Valid() && i < |fs.inodes| && fs.inodes[i].typ == 0 && fs.inodes[i].size == 0
    requires fs.dinodes[i] == fs.inodes[i]
    requires |FreeBelow(fs.bitmap, |fs.data|)| > 2
    modifies fs
    ensures fs.Valid() && |fs.inodes| == |old(fs.inodes)| && |fs.data| == |old(fs.data)| && fs.inodes[i].size == 1
    ensures |old(FreeBelow(fs.bitmap, |fs.data|))| <= |FreeBelow(fs.bitmap, |fs.data|)| + 2
    ensures forall j :: 0 <= j < |fs.inodes| && j != i ==>
              fs.inodes[j] == old(fs.inodes)[j] && fs.dinodes[j] == old(fs.dinodes)[j]
  {
    hide ByteAt, Bit, Full, FreeBelow, Inv;
    assert NewBlocks(0, 1) == 1;
    var r := fs.Writei(i, [7], 0);
    assert TookBelow(old(fs.bitmap), fs.bitmap, |fs.data|, 2, |fs.data|);
  }

  lemma ManyFree(bits: seq<BitBlock>)
    requires Covers(bits, 32) && forall b :: 0 <= b < 32 ==> (Bit(bits, b) <==> b < 1)
    ensures |FreeBelow(bits, 32)| > 4
  {
    hide Bit;
    SubsetSize({1, 2, 3, 4, 5}, FreeBelow(bits, 32));
  }

  /** Two files with a block each: one of the blocks lies behind the only data sector. */
  lemma TwoFiles(fs: FS) returns (i: nat)
    requires Inv(fs, 1) && |fs.data| == 32 && |fs.inodes| == 2 && fs.inodes[0].size == 1 && fs.inodes[1].size == 1
    ensures i < 2 && 2 <= BlockAddr(fs, 1, i, 0) < 32
  {
    hide Bit, ByteAt;
    assert NoHoles(fs, 1, 0) && NoHoles(fs, 1, 1);
    assert InRange(fs, 1, BlockSlot(0, 0)) && InRange(fs, 1, BlockSlot(1, 0));
    assert BlockAddr(fs, 1, 0, 0) != 0 && BlockAddr(fs, 1, 1, 0) != 0;
    Distinct(fs, 1, BlockSlot(0, 0), BlockSlot(1, 0));
    i := if BlockAddr(fs, 1, 0, 0) >= 2 then 0 else 1;
  }

  lemma NoBits(b: nat)
    requires b < BPB
    ensures !Bit([seq(BSIZE, _ => 0)], b)
  {
    assert !Test(0, b % 8);
  }

  /**
   A file can come to own a sector of the log: here the disk has one metadata sector, one data sector
   and a log of 30, and two files of one byte each leave no other place for the second.
   */
  method LogSectorOwned() returns (fs: FileSystem, ghost i: nat)
    ensures fs.Valid() && fs.nlog == Sectors.LOGSIZE && i < |fs.inodes|
    ensures fs.LogStart() <= BlockAddr(fs.State(), fs.lo, i, 0) < |fs.data|
  {
    var none: BitBlock := seq(BSIZE, _ => 0);
    var bits := Marked([none], 0);
    forall b | 0 <= b < 32 ensures Covers(bits, 32) && (Bit(bits, b) <==> b < 1) {
      NoBits(b);
      MarkedBits([none], 32, 0, b);
    }
    fs := new FileSystem(1, bits, 32, Sectors.LOGSIZE, 2);
    ManyFree(bits);
    FirstByte(fs, 0);
    FirstByte(fs, 1);
    i := TwoFiles(fs.State());
  }
}
