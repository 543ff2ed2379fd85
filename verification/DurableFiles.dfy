/**
 Files over the log (fs.c, log.c): what the sectors of the disk say about the files, and what is left
 of them after a crash at any point. Every operation is one group of the log.
 */
module DurableFiles {
  import opened Bitmap
  import opened BlockMap
  import opened FileSystem
  import L = LogProtocol
  import RedoLog
  import Sectors

  // The disk as sectors.

  /** Integers of an inode on disk: type, size, addresses. */
  const WORDS := NDIRECT + 3

  function Fields(ip: Inode): (r: seq<int>)
    requires |ip.addrs| == NDIRECT + 1
    ensures |r| == WORDS
  {
    [ip.typ, ip.size] + ip.addrs
  }

  ghost predicate Sized(sn: Snap, n: nat) {
    && |sn.dinodes| == |sn.fs.inodes| && n <= |sn.fs.data| && Covers(sn.fs.bitmap, |sn.fs.data|)
    && forall i :: 0 <= i < |sn.dinodes| ==> |sn.dinodes[i].addrs| == NDIRECT + 1
  }

  /** The sector of the first inodes is 2; the first sector of the bitmap. */
  function BitStart(ninodes: nat): nat {
    ninodes / IPB + 3
  }

  ghost function InodeSector(dinodes: seq<Inode>, k: nat): Sectors.Block
    requires forall i :: 0 <= i < |dinodes| ==> |dinodes[i].addrs| == NDIRECT + 1
  {
    seq(IPB * WORDS, t requires 0 <= t < IPB * WORDS =>
      if k * IPB + t / WORDS < |dinodes| then Fields(dinodes[k * IPB + t / WORDS])[t % WORDS] else 0)
  }

  ghost function BitSectorOf(b: BitBlock): Sectors.Block
    requires |b| == BSIZE
  {
    seq(BPB, t requires 0 <= t < BPB => if BitIn(b, t) then 1 else 0)
  }

  /** Sector s as it is on the disk when every cached change has been written: inodes, bitmap, or data. */
  ghost function SectorOf(sn: Snap, n: nat, s: nat): Sectors.Block
    requires Sized(sn, n) && s < n
  {
    var bits := BitStart(|sn.dinodes|);
    if 2 <= s < bits then InodeSector(sn.dinodes, s - 2)
    else if bits <= s < bits + |sn.fs.bitmap| then BitSectorOf(sn.fs.bitmap[s - bits])
    else sn.fs.data[s]
  }

  /** The sectors before the log. */
  ghost function Image(sn: Snap, n: nat): (r: seq<Sectors.Block>)
    requires Sized(sn, n)
    ensures |r| == n && forall s :: 0 <= s < n ==> r[s] == SectorOf(sn, n, s)
  {
    seq(n, s requires 0 <= s < n => SectorOf(sn, n, s))
  }

  /** A sector that was not logged is the same. */
  lemma OnlyLogged(a: Snap, b: Snap, n: nat, s: nat)
    requires Sized(a, n) && Sized(b, n) && LogsAll(a, b) && s < n && s !in b.log
    ensures SectorOf(b, n, s) == SectorOf(a, n, s)
  {
    var bits := BitStart(|a.dinodes|);
    if 2 <= s < bits {
      var k := s - 2;
      forall i | k * IPB <= i < (k + 1) * IPB && i < |a.dinodes| ensures b.dinodes[i] == a.dinodes[i] {
        assert i / IPB == k;
      }
      forall t | 0 <= t < IPB * WORDS ensures InodeSector(b.dinodes, k)[t] == InodeSector(a.dinodes, k)[t] {
        assert 0 <= t / WORDS < IPB;
      }
    }
  }

  // Reading the files back.

  function Nat(x: int): nat {
    if x < 0 then 0 else x
  }

  function Nats(w: seq<int>): (r: seq<nat>)
    ensures |r| == |w| && forall k :: 0 <= k < |w| ==> r[k] == Nat(w[k])
  {
    seq<nat>(|w|, k requires 0 <= k < |w| => Nat(w[k]))
  }

  /** The inode that these integers describe. */
  function Decoded(w: seq<int>): Inode
    requires |w| == WORDS
  {
    Inode(w[0], Nats(w[2..]), Nat(w[1]))
  }

  lemma DecodedFields(ip: Inode)
    requires |ip.addrs| == NDIRECT + 1
    ensures Decoded(Fields(ip)) == ip
  {
    assert Fields(ip)[2..] == ip.addrs;
    assert Nats(ip.addrs) == ip.addrs;
  }

  ghost function DiskInode(home: seq<Sectors.Block>, i: nat): Inode {
    var k, t := i / IPB + 2, i % IPB * WORDS;
    if k < |home| && |home[k]| == IPB * WORDS then Decoded(home[k][t..t + WORDS])
    else Inode(0, seq(NDIRECT + 1, _ => 0), 0)
  }

  /** A bitmap for so many sectors; the contents of files do not depend on it. */
  function Blank(size: nat): seq<BitBlock> {
    seq(size, _ => seq(BSIZE, _ => 0))
  }

  /** The files that the sectors before the log hold. */
  ghost function DiskFiles(home: seq<Sectors.Block>, lo: nat, ninodes: nat): (fs: FS)
    ensures |fs.inodes| == ninodes && |fs.data| == |home|
  {
    FS(Blank(|home|),
       seq(|home|, s requires 0 <= s < |home| => if s < lo then ZeroBlock() else home[s]),
       seq(ninodes, i requires 0 <= i < ninodes => DiskInode(home, i)))
  }

  /** The files as their inodes on disk describe them, all in sectors before the log. */
  ghost predicate Stored(sn: Snap, lo: nat, n: nat) {
    && Sized(sn, n) && lo == BitStart(|sn.dinodes|) + |sn.fs.bitmap| <= n
    && BlockMap.Inv(Files(sn), lo)
    && forall s :: IsSlot(Files(sn), s) ==> Addr(Files(sn), lo, s) < n
  }

  ghost function Files(sn: Snap): FS {
    sn.fs.(inodes := sn.dinodes)
  }

  lemma WordIndex(i: nat, f: nat)
    requires f < WORDS
    ensures var t := i % IPB * WORDS + f;
            0 <= t < IPB * WORDS && t / WORDS == i % IPB && t % WORDS == f && i / IPB * IPB + i % IPB == i
  {
  }

  lemma InodeBack(sn: Snap, n: nat, i: nat)
    requires Sized(sn, n) && i < |sn.dinodes| && BitStart(|sn.dinodes|) <= n
    ensures DiskInode(Image(sn, n), i) == sn.dinodes[i]
  {
    hide Covers, Fields, Decoded;
    var k, t, ip := i / IPB, i % IPB * WORDS, sn.dinodes[i];
    assert k <= |sn.dinodes| / IPB;
    var sector := InodeSector(sn.dinodes, k);
    assert Image(sn, n)[k + 2] == sector;
    WordIndex(i, 0);
    forall f | 0 <= f < WORDS ensures sector[t..t + WORDS][f] == Fields(ip)[f] {
      WordIndex(i, f);
    }
    assert sector[t..t + WORDS] == Fields(ip);
    DecodedFields(ip);
  }

  lemma DataBack(sn: Snap, lo: nat, n: nat, s: nat)
    requires Stored(sn, lo, n) && lo <= s < n
    ensures DiskFiles(Image(sn, n), lo, |sn.dinodes|).data[s] == sn.fs.data[s]
  {
  }

  lemma InodeFits(sn: Snap, lo: nat, n: nat, i: nat)
    requires Stored(sn, lo, n) && i < |sn.dinodes|
    ensures InodeShape(sn.dinodes[i], lo, n)
  {
    assert InodeShape(Files(sn).inodes[i], lo, |sn.fs.data|);
    forall k | 0 <= k <= NDIRECT ensures sn.dinodes[i].addrs[k] < n {
      var slot := if k < NDIRECT then Direct(i, k) else Indirect(i);
      assert IsSlot(Files(sn), slot) && Addr(Files(sn), lo, slot) == sn.dinodes[i].addrs[k];
    }
  }

  lemma DiskShape(sn: Snap, lo: nat, n: nat)
    requires Stored(sn, lo, n)
    ensures Shape(DiskFiles(Image(sn, n), lo, |sn.dinodes|), lo)
  {
    var fs := DiskFiles(Image(sn, n), lo, |sn.dinodes|);
    assert Shape(Files(sn), lo);
    hide BlockMap.Inv, Image, DiskInode, InodeShape, BitStart, Addr;
    forall i | 0 <= i < |fs.inodes| ensures InodeShape(fs.inodes[i], lo, n) {
      InodeBack(sn, n, i);
      InodeFits(sn, lo, n, i);
    }
    forall s | 0 <= s < n ensures IsBlock(fs.data[s]) {
      if s >= lo {
        DataBack(sn, lo, n, s);
        assert IsBlock(Files(sn).data[s]);
      } else {
        assert fs.data[s] == ZeroBlock();
      }
    }
  }

  lemma AddrBack(sn: Snap, lo: nat, n: nat, s: Slot)
    requires Stored(sn, lo, n) && IsSlot(Files(sn), s)
    ensures var fs := DiskFiles(Image(sn, n), lo, |sn.dinodes|);
            Shape(fs, lo) && IsSlot(fs, s) && Addr(fs, lo, s) == Addr(Files(sn), lo, s)
  {
    DiskShape(sn, lo, n);
    InodeBack(sn, n, s.i);
    assert InodeShape(Files(sn).inodes[s.i], lo, |sn.fs.data|);
    if s.Entry? {
      assert IsSlot(Files(sn), Indirect(s.i)) &&
          Addr(Files(sn), lo, Indirect(s.i)) == sn.dinodes[s.i].addrs[NDIRECT] < n;
      if sn.dinodes[s.i].addrs[NDIRECT] != 0 {
        DataBack(sn, lo, n, sn.dinodes[s.i].addrs[NDIRECT]);
      }
    }
  }

  /** What is read from the sectors of the disk is what was stored: every inode and the contents of every file. */
  lemma ReadsBack(sn: Snap, lo: nat, n: nat, i: nat)
    requires Stored(sn, lo, n) && i < |sn.dinodes|
    ensures var fs := DiskFiles(Image(sn, n), lo, |sn.dinodes|);
            Shape(fs, lo) && fs.inodes[i] == sn.dinodes[i] && Contents(fs, lo, i) == Contents(Files(sn), lo, i)
  {
    var fs := DiskFiles(Image(sn, n), lo, |sn.dinodes|);
    DiskShape(sn, lo, n);
    InodeBack(sn, n, i);
    forall p | 0 <= p < sn.dinodes[i].size ensures ByteAt(fs, lo, i, p) == ByteAt(Files(sn), lo, i, p) {
      var slot := BlockSlot(i, p / BSIZE);
      AddrBack(sn, lo, n, slot);
      assert InRange(Files(sn), lo, slot) && Addr(Files(sn), lo, slot) < n;
      if Addr(fs, lo, slot) != 0 {
        DataBack(sn, lo, n, Addr(fs, lo, slot));
      }
    }
  }

  /** The bitmap on the disk marks sector b as in use. */
  predicate DiskBit(home: seq<Sectors.Block>, ninodes: nat, b: nat) {
    var k := BitStart(ninodes) + b / BPB;
    k < |home| && b % BPB < |home[k]| && home[k][b % BPB] == 1
  }

  lemma BitBack(sn: Snap, lo: nat, n: nat, b: nat)
    requires Stored(sn, lo, n) && b < |sn.fs.data|
    ensures b / BPB < |sn.fs.bitmap| && |sn.fs.bitmap[b / BPB]| == BSIZE
    ensures DiskBit(Image(sn, n), |sn.dinodes|, b) <==> Bit(sn.fs.bitmap, b)
  {
    hide BlockMap.Inv, InodeSector, BitIn;
    var k := BitStart(|sn.dinodes|) + b / BPB;
    assert Image(sn, n)[k] == BitSectorOf(sn.fs.bitmap[b / BPB]);
  }

  /** The sectors of the disk agree with each other: in use are the metadata and what exactly one file has. */
  ghost predicate DiskSound(home: seq<Sectors.Block>, lo: nat, ninodes: nat) {
    var fs := DiskFiles(home, lo, ninodes);
    && Shape(fs, lo)
    && (forall b: nat :: b < |home| ==> (DiskBit(home, ninodes, b) <==> b < lo || Owned(fs, lo, b)))
    && (forall s, t, b :: Owns(fs, lo, s, b) && Owns(fs, lo, t, b) ==> s == t)
  }

  lemma OwnsBack(sn: Snap, lo: nat, n: nat, s: Slot, b: nat)
    requires Stored(sn, lo, n)
    ensures var fs := DiskFiles(Image(sn, n), lo, |sn.dinodes|);
            Shape(fs, lo) && Shape(Files(sn), lo) && (Owns(fs, lo, s, b) <==> Owns(Files(sn), lo, s, b))
  {
    hide Image, Addr, DiskInode;
    DiskShape(sn, lo, n);
    if IsSlot(Files(sn), s) {
      AddrBack(sn, lo, n, s);
    }
  }

  lemma SoundOnDisk(sn: Snap, lo: nat, n: nat)
    requires Stored(sn, lo, n)
    ensures DiskSound(Image(sn, n), lo, |sn.dinodes|)
  {
    hide Image, Addr, DiskInode, DiskBit, Owns, Bit, Shape;
    var fs, home := DiskFiles(Image(sn, n), lo, |sn.dinodes|), Image(sn, n);
    DiskShape(sn, lo, n);
    assert Ownership(Files(sn), lo);
    forall s, b ensures Owns(fs, lo, s, b) <==> Owns(Files(sn), lo, s, b) {
      OwnsBack(sn, lo, n, s, b);
    }
    forall b: nat | b < n ensures DiskBit(home, |sn.dinodes|, b) <==> b < lo || Owned(fs, lo, b) {
      BitBack(sn, lo, n, b);
      assert Owned(fs, lo, b) <==> Owned(Files(sn), lo, b);
    }
  }

  // One operation as a group of writes.

  ghost predicate Wrote(ws: seq<L.Write>, s: nat) {
    exists k :: 0 <= k < |ws| && ws[k].sector == s
  }

  /** What the last write to sector s put there. */
  ghost function Latest(ws: seq<L.Write>, s: nat): Sectors.Block
    requires Wrote(ws, s)
  {
    var k := |ws| - 1;
    if ws[k].sector == s then ws[k].data
    else
      assert Wrote(ws[..k], s) by {
        var m :| 0 <= m < |ws| && ws[m].sector == s;
        assert ws[..k][m].sector == s;
      }
      Latest(ws[..k], s)
  }

  /** The writes are those of an operation from a to b: all sectors that were logged, at the end with their contents. */
  ghost predicate Finished(a: Snap, ws: seq<L.Write>, b: Snap, n: nat) {
    && Sized(a, n) && Sized(b, n) && LogsAll(a.(log := {}), b)
    && (forall k :: 0 <= k < |ws| ==> ws[k].sector in b.log)
    && (forall s :: s in b.log && s < n ==> Wrote(ws, s) && Latest(ws, s) == SectorOf(b, n, s))
  }

  lemma {:induction false} AppliedAt(home: seq<Sectors.Block>, ws: seq<L.Write>, s: nat)
    requires s < |home|
    ensures L.ApplyWrites(home, ws)[s] == if Wrote(ws, s) then Latest(ws, s) else home[s]
  {
    if ws != [] {
      var k := |ws| - 1;
      AppliedAt(home, ws[..k], s);
      assert L.Front(ws) == ws[..k];
      if ws[k].sector != s {
        assert Wrote(ws, s) <==> Wrote(ws[..k], s) by {
          assert forall m :: 0 <= m < k ==> ws[..k][m] == ws[m];
          if Wrote(ws[..k], s) {
            var m :| 0 <= m < k && ws[..k][m].sector == s;
            assert ws[m].sector == s;
          }
          if Wrote(ws, s) {
            var m :| 0 <= m < |ws| && ws[m].sector == s;
            assert ws[..k][m].sector == s;
          }
        }
      }
    }
  }

  /** Applied to the sectors of a, the writes give those of b. */
  lemma FinishedImage(a: Snap, ws: seq<L.Write>, b: Snap, n: nat)
    requires Finished(a, ws, b, n)
    ensures L.ApplyWrites(Image(a, n), ws) == Image(b, n)
  {
    forall s | 0 <= s < n ensures L.ApplyWrites(Image(a, n), ws)[s] == Image(b, n)[s] {
      AppliedAt(Image(a, n), ws, s);
      if s !in b.log {
        OnlyLogged(a.(log := {}), b, n, s);
        assert SectorOf(a.(log := {}), n, s) == SectorOf(a, n, s);
      }
    }
  }

  // Operations one after the other, commits, crashes and reboots.

  /**
   The log, the files as the last committed operation left them, and the files in memory before the current
   operation.
   */
  datatype Machine = Machine(log: L.State, durable: Snap, now: Snap)

  datatype Step =
    | Begin(op: L.OpId)
    | LogWrite(op: L.OpId, sector: nat, data: Sectors.Block)
    | End(op: L.OpId, after: Snap)
    | Advance
    | Crash

  /** What the kernel has in memory after booting: inodes are read from the disk again. */
  ghost function Reboot(sn: Snap): Snap {
    Snap(sn.fs.(inodes := sn.dinodes), sn.dinodes, {})
  }

  ghost predicate Enabled(m: Machine, st: Step, n: nat) {
    match st
    case Begin(o) => L.Enabled(m.log, L.BeginOp(o)) && m.log.hist.ops == {}
    case LogWrite(o, x, data) => L.Enabled(m.log, L.LogWrite(o, x, data))
    case End(o, b) => L.Enabled(m.log, L.EndOp(o)) && Finished(m.now, m.log.hist.performed[o], b, n)
    case Advance => L.Enabled(m.log, L.Advance)
    case Crash => L.Enabled(m.log, L.Crash)
  }

  /** All slots are written: what comes next is the header, if there is anything to commit. */
  ghost predicate AtCommit(s: L.State) {
    s.phase.WritingLog? && s.phase.k == |s.lh|
  }

  ghost function Do(m: Machine, st: Step, n: nat): Machine
    requires Enabled(m, st, n)
  {
    match st
    case Begin(o) => m.(log := L.Do(m.log, L.BeginOp(o)))
    case LogWrite(o, x, data) => m.(log := L.Do(m.log, L.LogWrite(o, x, data)))
    case End(o, b) => m.(log := L.Do(m.log, L.EndOp(o)), now := b)
    case Advance => m.(log := L.Do(m.log, L.Advance), durable := if AtCommit(m.log) then m.now else m.durable)
    case Crash => m.(log := L.Do(m.log, L.Crash), now := Reboot(m.durable))
  }

  /** In each phase: which operation the open group belongs to, and how memory relates to the disk. */
  ghost predicate GroupOk(m: Machine, n: nat)
    requires Sized(m.durable, n) && Sized(m.now, n)
  {
    var s := m.log;
    && (s.phase.Running? && s.hist.ops == {} ==> s.hist.cur == [])
    && (forall o :: o in s.hist.ops ==> s.hist.ops == {o} && o in s.hist.performed && s.hist.cur == s.hist.performed[o])
    && (s.hist.cur != [] && s.phase.Running? ==> s.lh != [])
    && if s.phase.WritingLog? then
         L.ApplyWrites(Image(m.durable, n), s.hist.cur) == Image(m.now, n) && (s.lh == [] ==> s.hist.cur == [])
       else Image(m.now, n) == Image(m.durable, n) && (!s.phase.Running? ==> s.hist.cur == [])
  }

  ghost predicate Inv(home0: seq<Sectors.Block>, m: Machine, n: nat) {
    && L.Inv(home0, m.log) && |home0| == n && Sized(m.durable, n) && Sized(m.now, n)
    && L.ApplyGroups(home0, m.log.hist.durable) == Image(m.durable, n)
    && GroupOk(m, n)
  }

  ghost predicate Init(m: Machine, n: nat) {
    Sized(m.durable, n) && L.Init(Image(m.durable, n), m.log) && m.now == Reboot(m.durable)
  }

  lemma RebootImage(sn: Snap, n: nat)
    requires Sized(sn, n)
    ensures Sized(Reboot(sn), n) && Image(Reboot(sn), n) == Image(sn, n)
  {
  }

  lemma InitInv(m: Machine, n: nat)
    requires Init(m, n)
    ensures Inv(Image(m.durable, n), m, n)
  {
    RebootImage(m.durable, n);
    LogInit(Image(m.durable, n), m.log);
  }

  lemma LogInit(home0: seq<Sectors.Block>, s: L.State)
    requires L.Init(home0, s)
    ensures L.Inv(home0, s)
  {
    L.RunKeepsInv(home0, [s], [], 0);
  }

  lemma BeginKeeps(home0: seq<Sectors.Block>, m: Machine, n: nat, o: L.OpId)
    requires Inv(home0, m, n) && Enabled(m, Begin(o), n)
    ensures Inv(home0, Do(m, Begin(o), n), n)
  {
    L.StepKeeps(home0, m.log, L.BeginOp(o));
    hide L.Inv, Image, Sized;
  }

  lemma WriteKeeps(home0: seq<Sectors.Block>, m: Machine, n: nat, o: L.OpId, x: nat, data: Sectors.Block)
    requires Inv(home0, m, n) && Enabled(m, LogWrite(o, x, data), n)
    ensures Inv(home0, Do(m, LogWrite(o, x, data), n), n)
  {
    L.StepKeeps(home0, m.log, L.LogWrite(o, x, data));
    assert m.log.phase.Running?;
    hide L.Inv, Image, Sized;
  }

  lemma EndKeeps(home0: seq<Sectors.Block>, m: Machine, n: nat, o: L.OpId, b: Snap)
    requires Inv(home0, m, n) && Enabled(m, End(o, b), n)
    ensures Inv(home0, Do(m, End(o, b), n), n)
  {
    L.StepKeeps(home0, m.log, L.EndOp(o));
    L.EndOpKeeps(home0, m.log, o);
    assert m.log.phase.Running? && m.log.outstanding == 1;
    FinishedImage(m.now, m.log.hist.performed[o], b, n);
    hide L.Inv, Image, Sized;
  }

  /** The header write, or the end of a commit that has nothing to write. */
  lemma CommitKeeps(home0: seq<Sectors.Block>, m: Machine, n: nat)
    requires Inv(home0, m, n) && Enabled(m, Advance, n) && AtCommit(m.log)
    ensures var g := L.ApplyGroups(home0, L.DoAdvance(m.log).hist.durable);
            g == Image(m.now, n) && L.DoAdvance(m.log).hist.cur == []
  {
    hide Sized, Image, L.WholeOps, RedoLog.RecoversTo, L.SlotsHold, L.HomesHold;
    var s := m.log;
    assert s.lh != [] ==> L.Front(s.hist.durable + [s.hist.cur]) == s.hist.durable;
  }

  /** What a step of commit or recovery does to the history. */
  lemma QuietAdvance(s: L.State)
    requires L.Enabled(s, L.Advance)
    ensures var s' := L.DoAdvance(s);
            && s'.hist.ops == s.hist.ops && s'.hist.performed == s.hist.performed
            && (AtCommit(s) ==> !s'.phase.Running? && !s'.phase.WritingLog?)
            && (!AtCommit(s) ==> s'.hist == s.hist && (s'.phase.WritingLog? <==> s.phase.WritingLog?))
            && (s'.phase.WritingLog? ==> s'.lh == s.lh)
  {
  }

  lemma NoneOpen(home0: seq<Sectors.Block>, s: L.State)
    requires L.Inv(home0, s) && L.Enabled(s, L.Advance)
    ensures !s.phase.Running? && s.hist.ops == {} && L.Do(s, L.Advance) == L.DoAdvance(s)
  {
  }

  lemma AdvanceKeeps(home0: seq<Sectors.Block>, m: Machine, n: nat)
    requires Inv(home0, m, n) && Enabled(m, Advance, n)
    ensures Inv(home0, Do(m, Advance, n), n)
  {
    hide L.Inv, L.Enabled, Image, Sized, L.DoAdvance, L.ApplyWrites, L.ApplyGroups;
    L.StepKeeps(home0, m.log, L.Advance);
    NoneOpen(home0, m.log);
    QuietAdvance(m.log);
    if AtCommit(m.log) {
      CommitKeeps(home0, m, n);
    }
  }

  lemma CrashKeeps(home0: seq<Sectors.Block>, m: Machine, n: nat)
    requires Inv(home0, m, n) && Enabled(m, Crash, n)
    ensures Inv(home0, Do(m, Crash, n), n)
  {
    L.StepKeeps(home0, m.log, L.Crash);
    RebootImage(m.durable, n);
    hide L.Inv, Image, Sized;
  }

  lemma StepKeeps(home0: seq<Sectors.Block>, m: Machine, n: nat, st: Step)
    requires Inv(home0, m, n) && Enabled(m, st, n)
    ensures Inv(home0, Do(m, st, n), n)
  {
    hide Inv;
    match st
    case Begin(o) => BeginKeeps(home0, m, n, o);
    case LogWrite(o, x, data) => WriteKeeps(home0, m, n, o, x, data);
    case End(o, b) => EndKeeps(home0, m, n, o, b);
    case Advance => AdvanceKeeps(home0, m, n);
    case Crash => CrashKeeps(home0, m, n);
  }

  ghost predicate IsRun(ms: seq<Machine>, steps: seq<Step>, n: nat) {
    && |ms| == |steps| + 1 && Init(ms[0], n)
    && forall i :: 0 <= i < |steps| ==> Enabled(ms[i], steps[i], n) && ms[i + 1] == Do(ms[i], steps[i], n)
  }

  /**
   Over every run of operations, commits, crashes and recoveries: recovering the disk gives the
   sectors of the files as the last committed operation left them. They change only at a commit, from
   the files before a whole operation to those after it.
   */
  lemma {:induction false} CrashKeepsWholeOperations(ms: seq<Machine>, steps: seq<Step>, n: nat, j: nat)
    requires IsRun(ms, steps, n) && j < |ms|
    ensures Inv(Image(ms[0].durable, n), ms[j], n)
    ensures RedoLog.RecoversTo(ms[j].log.disk, Image(ms[j].durable, n))
    ensures j > 0 ==>
              ms[j].durable ==
              if steps[j - 1].Advance? && AtCommit(ms[j - 1].log) then ms[j - 1].now else ms[j - 1].durable
  {
    if j == 0 {
      InitInv(ms[0], n);
    } else {
      CrashKeepsWholeOperations(ms, steps, n, j - 1);
      StepKeeps(Image(ms[0].durable, n), ms[j - 1], n, steps[j - 1]);
    }
  }

  /** Every operation leaves its files properly stored. */
  ghost predicate StoredRun(ms: seq<Machine>, steps: seq<Step>, lo: nat, n: nat) {
    && IsRun(ms, steps, n) && Stored(ms[0].durable, lo, n)
    && forall i :: 0 <= i < |steps| && steps[i].End? ==> Stored(steps[i].after, lo, n)
  }

  lemma {:induction false} StaysStored(ms: seq<Machine>, steps: seq<Step>, lo: nat, n: nat, j: nat)
    requires StoredRun(ms, steps, lo, n) && j < |ms|
    ensures Stored(ms[j].durable, lo, n) && Stored(ms[j].now, lo, n)
  {
    if j == 0 {
      assert Files(Reboot(ms[0].durable)) == Files(ms[0].durable);
    } else {
      StaysStored(ms, steps, lo, n, j - 1);
      assert Files(Reboot(ms[j - 1].durable)) == Files(ms[j - 1].durable);
      assert ms[j] == Do(ms[j - 1], steps[j - 1], n);
      hide Stored, Enabled, L.Do;
    }
  }

  /** After a crash at any point, recovery finds every file as the last committed operation left it. */
  lemma CrashKeepsFiles(ms: seq<Machine>, steps: seq<Step>, lo: nat, n: nat, j: nat, i: nat)
    requires StoredRun(ms, steps, lo, n) && j < |ms| && i < |ms[j].durable.dinodes|
    ensures RedoLog.ValidLog(ms[j].log.disk) && Stored(ms[j].durable, lo, n)
    ensures var fs := DiskFiles(RedoLog.Recovered(ms[j].log.disk).home, lo, |ms[j].durable.dinodes|);
            && Shape(fs, lo) && fs.inodes[i] == ms[j].durable.dinodes[i]
            && Contents(fs, lo, i) == Contents(Files(ms[j].durable), lo, i)
  {
    hide Inv, Stored;
    StaysStored(ms, steps, lo, n, j);
    CrashKeepsWholeOperations(ms, steps, n, j);
    ReadsBack(ms[j].durable, lo, n, i);
  }

  /** And it finds the bitmap in step with the files: no sector is lost, none is both free and in use. */
  lemma CrashKeepsFreeMap(ms: seq<Machine>, steps: seq<Step>, lo: nat, n: nat, j: nat)
    requires StoredRun(ms, steps, lo, n) && j < |ms|
    ensures RedoLog.ValidLog(ms[j].log.disk)
    ensures DiskSound(RedoLog.Recovered(ms[j].log.disk).home, lo, |ms[j].durable.dinodes|)
  {
    hide Inv, Stored, DiskSound;
    StaysStored(ms, steps, lo, n, j);
    CrashKeepsWholeOperations(ms, steps, n, j);
    SoundOnDisk(ms[j].durable, lo, n);
  }

  // One operation among any number of crashes: before or after.

  /** A stretch of a run. */
  ghost predicate Stretch(home0: seq<Sectors.Block>, ms: seq<Machine>, steps: seq<Step>, n: nat) {
    && |ms| == |steps| + 1 && Inv(home0, ms[0], n)
    && forall i :: 0 <= i < |steps| ==> Enabled(ms[i], steps[i], n) && ms[i + 1] == Do(ms[i], steps[i], n)
  }

  /** It starts with the files of a, committed; every operation in it leads to the files of b. */
  ghost predicate OperationRun(home0: seq<Sectors.Block>, ms: seq<Machine>, steps: seq<Step>, a: Snap, b: Snap,
      n: nat)
  {
    && Stretch(home0, ms, steps, n)
    && Reboot(ms[0].durable) == Reboot(ms[0].now) == Reboot(a)
    && forall i :: 0 <= i < |steps| && steps[i].End? ==> Reboot(steps[i].after) == Reboot(b)
  }

  /** Recovery gives the sectors of a or those of b. */
  ghost predicate OldOrNew(disk: Sectors.Disk, a: Snap, b: Snap, n: nat)
    requires Sized(a, n) && Sized(b, n)
  {
    RedoLog.RecoversTo(disk, Image(a, n)) || RedoLog.RecoversTo(disk, Image(b, n))
  }

  lemma {:induction false} OperationStates(home0: seq<Sectors.Block>, ms: seq<Machine>, steps: seq<Step>, a: Snap,
      b: Snap, n: nat, j: nat)
    requires OperationRun(home0, ms, steps, a, b, n) && j < |ms|
    ensures Inv(home0, ms[j], n)
    ensures Reboot(ms[j].durable) == Reboot(a) || Reboot(ms[j].durable) == Reboot(b)
    ensures Reboot(ms[j].now) == Reboot(a) || Reboot(ms[j].now) == Reboot(b)
  {
    hide Inv, Enabled, L.Do;
    if j > 0 {
      OperationStates(home0, ms, steps, a, b, n, j - 1);
      StepKeeps(home0, ms[j - 1], n, steps[j - 1]);
      assert Reboot(Reboot(ms[j - 1].durable)) == Reboot(ms[j - 1].durable);
    }
  }

  lemma SameImage(sn: Snap, a: Snap, n: nat)
    requires Sized(sn, n) && Sized(a, n) && Reboot(sn) == Reboot(a)
    ensures Image(sn, n) == Image(a, n)
  {
    RebootImage(sn, n);
    RebootImage(a, n);
  }

  /** At every moment of such a run, crashes and interrupted recoveries included. */
  lemma CrashDuring(home0: seq<Sectors.Block>, ms: seq<Machine>, steps: seq<Step>, a: Snap, b: Snap, n: nat, j: nat)
    requires OperationRun(home0, ms, steps, a, b, n) && Sized(a, n) && Sized(b, n) && j < |ms|
    ensures OldOrNew(ms[j].log.disk, a, b, n)
  {
    hide Image, Sized, Reboot, RedoLog.RecoversTo, L.PhaseInv, L.WholeOps;
    OperationStates(home0, ms, steps, a, b, n, j);
    if Reboot(ms[j].durable) == Reboot(a) {
      SameImage(ms[j].durable, a, n);
    } else {
      SameImage(ms[j].durable, b, n);
    }
  }

  /** Whatever happens between a and b, the disk holds the one or the other. */
  ghost predicate Atomic(a: Snap, b: Snap, n: nat)
    requires Sized(a, n) && Sized(b, n)
  {
    forall home0, ms: seq<Machine>, steps, j :: OperationRun(home0, ms, steps, a, b, n) && 0 <= j < |ms| ==>
                                                  OldOrNew(ms[j].log.disk, a, b, n)
  }

  lemma EveryOperationAtomic(a: Snap, b: Snap, n: nat)
    requires Sized(a, n) && Sized(b, n)
    ensures Atomic(a, b, n)
  {
    hide OperationRun, OldOrNew, Sized;
    forall home0, ms: seq<Machine>, steps, j | OperationRun(home0, ms, steps, a, b, n) && 0 <= j < |ms|
      ensures OldOrNew(ms[j].log.disk, a, b, n)
    {
      CrashDuring(home0, ms, steps, a, b, n, j);
    }
  }

  // Such runs exist: the operation, its commit, and nothing panics while the log has room.

  lemma {:induction false} Listed(s: set<nat>, n: nat) returns (xs: seq<nat>)
    ensures |xs| <= |s| && (forall x :: x in xs <==> x in s && x < n)
    ensures forall i, j :: 0 <= i < j < |xs| ==> xs[i] != xs[j]
    decreases |s|
  {
    if s == {} {
      xs := [];
    } else {
      var x :| x in s;
      var ys := Listed(s - {x}, n);
      xs := if x < n then ys + [x] else ys;
    }
  }

  /** One write for each listed sector. */
  ghost function WritesOf(o: L.OpId, xs: seq<nat>, b: Snap, n: nat): (r: seq<L.Write>)
    requires Sized(b, n) && forall k :: 0 <= k < |xs| ==> xs[k] < n
    ensures |r| == |xs| && forall k :: 0 <= k < |xs| ==> r[k] == L.Write(o, xs[k], SectorOf(b, n, xs[k]))
  {
    seq(|xs|, k requires 0 <= k < |xs| => L.Write(o, xs[k], SectorOf(b, n, xs[k])))
  }

  lemma {:induction false} LatestIs(ws: seq<L.Write>, k: nat)
    requires k < |ws| && forall i, j :: 0 <= i < j < |ws| ==> ws[i].sector != ws[j].sector
    ensures Wrote(ws, ws[k].sector) && Latest(ws, ws[k].sector) == ws[k].data
  {
    assert Wrote(ws, ws[k].sector);
    if k < |ws| - 1 {
      LatestIs(ws[..|ws| - 1], k);
    }
  }

  lemma ListedFinish(a: Snap, b: Snap, n: nat, o: L.OpId, xs: seq<nat>)
    requires Sized(a, n) && Sized(b, n) && LogsAll(a.(log := {}), b)
    requires forall x :: x in xs <==> x in b.log && x < n
    requires forall k :: 0 <= k < |xs| ==> xs[k] in b.log && xs[k] < n
    requires forall i, j :: 0 <= i < j < |xs| ==> xs[i] != xs[j]
    ensures Finished(a, WritesOf(o, xs, b, n), b, n)
  {
    hide LogsAll, Sized, SectorOf;
    var ws := WritesOf(o, xs, b, n);
    forall s | s in b.log && s < n ensures Wrote(ws, s) && Latest(ws, s) == SectorOf(b, n, s) {
      var k :| 0 <= k < |xs| && xs[k] == s;
      LatestIs(ws, k);
    }
  }

  /** Nothing is going on, and nothing waits in the log. */
  ghost predicate Idle(home0: seq<Sectors.Block>, m: Machine, n: nat, o: L.OpId) {
    && Inv(home0, m, n) && m.log.phase.Running? && m.log.panic.NoPanic? && m.log.hist.ops == {} && m.log.lh == []
    && o !in m.log.hist.performed
  }

  lemma IdleSized(home0: seq<Sectors.Block>, m: Machine, n: nat, o: L.OpId)
    requires Idle(home0, m, n, o)
    ensures Sized(m.now, n)
  {
  }

  /** The operation has made its first k writes. */
  ghost predicate Writing(home0: seq<Sectors.Block>, m: Machine, m': Machine, n: nat, o: L.OpId, ws: seq<L.Write>,
      k: nat)
  {
    && Inv(home0, m', n) && k <= |ws| && m'.durable == m.durable && m'.now == m.now
    && m'.log.phase.Running? && m'.log.panic.NoPanic? && m'.log.hist.ops == {o} && |m'.log.lh| == k
    && o in m'.log.hist.performed && m'.log.hist.performed[o] == ws[..k]
    && m'.log.outstanding == 1 && |m'.log.disk.slots| == |m.log.disk.slots| && |m'.log.disk.home| == n
    && (forall x :: x in m'.log.lh ==> exists i :: 0 <= i < k && ws[i].sector == x)
  }

  lemma StartOp(home0: seq<Sectors.Block>, m: Machine, n: nat, o: L.OpId, ws: seq<L.Write>)
    requires Idle(home0, m, n, o)
    ensures Enabled(m, Begin(o), n) && Writing(home0, m, Do(m, Begin(o), n), n, o, ws, 0)
  {
    StepKeeps(home0, m, n, Begin(o));
    assert ws[..0] == [];
  }

  lemma OneWrite(home0: seq<Sectors.Block>, m: Machine, m': Machine, n: nat, o: L.OpId, ws: seq<L.Write>, k: nat)
    requires Writing(home0, m, m', n, o, ws, k) && k < |ws| <= |m.log.disk.slots| && |ws| <= Sectors.LOGSIZE
    requires (forall i :: 0 <= i < |ws| ==> ws[i].op == o && ws[i].sector < n)
    requires forall i, j :: 0 <= i < j < |ws| ==> ws[i].sector != ws[j].sector
    ensures var st := LogWrite(o, ws[k].sector, ws[k].data);
            Enabled(m', st, n) && Writing(home0, m, Do(m', st, n), n, o, ws, k + 1)
  {
    hide Sized, Image, GroupOk, L.WholeOps, RedoLog.RecoversTo, L.PhaseInv;
    var st := LogWrite(o, ws[k].sector, ws[k].data);
    assert L.Typed(m'.log);
    StepKeeps(home0, m', n, st);
    assert ws[..k + 1] == ws[..k] + [ws[k]];
    assert ws[k].sector !in m'.log.lh;
  }

  /** Behind the end of the operation: b is in memory, and from the commit on it is durable. */
  ghost predicate Ending(home0: seq<Sectors.Block>, m: Machine, n: nat, b: Snap) {
    && Inv(home0, m, n) && m.log.panic.NoPanic? && m.now == b && m.log.hist.ops == {}
    && !m.log.phase.Booting? && !m.log.phase.Reinstalling? && (!m.log.phase.WritingLog? ==> m.durable == b)
  }

  /** How many steps of the commit are left. */
  ghost function Left(s: L.State): nat
    requires L.Typed(s)
  {
    match s.phase
    case WritingLog(k) => 2 * |s.lh| - k + 3
    case Installing(k) => |s.lh| - k + 2
    case Finishing => 1
    case _ => 0
  }

  lemma EndOp(home0: seq<Sectors.Block>, m: Machine, m': Machine, n: nat, o: L.OpId, ws: seq<L.Write>, b: Snap)
    requires Writing(home0, m, m', n, o, ws, |ws|) && Finished(m.now, ws, b, n)
    ensures Enabled(m', End(o, b), n) && Ending(home0, Do(m', End(o, b), n), n, b)
  {
    assert ws[..|ws|] == ws && L.Typed(m'.log);
    StepKeeps(home0, m', n, End(o, b));
  }

  lemma OneAdvance(home0: seq<Sectors.Block>, m: Machine, n: nat, b: Snap)
    requires Ending(home0, m, n, b) && !m.log.phase.Running?
    ensures Enabled(m, Advance, n) && Ending(home0, Do(m, Advance, n), n, b)
    ensures L.Typed(m.log) && L.Typed(Do(m, Advance, n).log) && Left(Do(m, Advance, n).log) < Left(m.log)
  {
    assert L.Typed(m.log);
    StepKeeps(home0, m, n, Advance);
    hide Inv, Sized, Image;
  }

  /** The run goes on from its last state. */
  lemma Append(home0: seq<Sectors.Block>, ms: seq<Machine>, steps: seq<Step>, n: nat, st: Step)
    requires Stretch(home0, ms, steps, n) && Enabled(ms[|steps|], st, n)
    ensures Stretch(home0, ms + [Do(ms[|steps|], st, n)], steps + [st], n)
  {
    hide Inv, Enabled, Do;
  }

  /** A run of that one operation from m to the end of its commit. */
  ghost predicate CompleteRun(home0: seq<Sectors.Block>, ms: seq<Machine>, steps: seq<Step>, m: Machine, n: nat,
      o: L.OpId, b: Snap)
  {
    && Stretch(home0, ms, steps, n) && ms[0] == m && |steps| > 0 && steps[0] == Begin(o)
    && (forall i :: 0 <= i < |steps| && steps[i].End? ==> steps[i] == End(o, b))
    && ms[|steps|].durable == ms[|steps|].now == b
    && ms[|steps|].log.phase.Running? && ms[|steps|].log.panic.NoPanic?
  }

  /**
   From every idle state every operation that logs no more than fits runs and commits without a panic:
   begin_op(), its writes, end_op(), the steps of commit().
   */
  lemma OperationRuns(home0: seq<Sectors.Block>, m: Machine, n: nat, o: L.OpId, b: Snap)
    returns (ms: seq<Machine>, steps: seq<Step>)
    requires Idle(home0, m, n, o) && Sized(b, n) && LogsAll(m.now.(log := {}), b)
    requires |b.log| <= Sectors.LOGSIZE && |b.log| <= |m.log.disk.slots|
    ensures CompleteRun(home0, ms, steps, m, n, o, b)
  {
    hide Inv, Sized, Enabled, Do, LogsAll, Finished, WritesOf, L.Typed;
    var xs := Listed(b.log, n);
    assert forall k :: 0 <= k < |xs| ==> xs[k] in xs;
    IdleSized(home0, m, n, o);
    var ws := WritesOf(o, xs, b, n);
    ListedFinish(m.now, b, n, o, xs);
    StartOp(home0, m, n, o, ws);
    ms, steps := [m, Do(m, Begin(o), n)], [Begin(o)];
    var k := 0;
    while k < |ws|
      invariant k <= |ws| && |steps| == k + 1 && Stretch(home0, ms, steps, n) && ms[0] == m && steps[0] == Begin(o)
      invariant Writing(home0, m, ms[|steps|], n, o, ws, k)
      invariant forall i :: 0 <= i < |steps| ==> !steps[i].End?
    {
      OneWrite(home0, m, ms[|steps|], n, o, ws, k);
      var st := LogWrite(o, ws[k].sector, ws[k].data);
      Append(home0, ms, steps, n, st);
      ms, steps, k := ms + [Do(ms[|steps|], st, n)], steps + [st], k + 1;
    }
    EndOp(home0, m, ms[|steps|], n, o, ws, b);
    Append(home0, ms, steps, n, End(o, b));
    ms, steps := ms + [Do(ms[|steps|], End(o, b), n)], steps + [End(o, b)];
    ms, steps := CommitRuns(home0, m, ms, steps, n, o, b);
  }

  lemma {:induction false} CommitRuns(home0: seq<Sectors.Block>, m: Machine, ms0: seq<Machine>, steps0: seq<Step>,
      n: nat, o: L.OpId, b: Snap)
    returns (ms: seq<Machine>, steps: seq<Step>)
    requires Stretch(home0, ms0, steps0, n) && ms0[0] == m && |steps0| > 0 && steps0[0] == Begin(o)
    requires Ending(home0, ms0[|steps0|], n, b)
    requires forall i :: 0 <= i < |steps0| && steps0[i].End? ==> steps0[i] == End(o, b)
    ensures CompleteRun(home0, ms, steps, m, n, o, b)
    decreases if L.Typed(ms0[|steps0|].log) then Left(ms0[|steps0|].log) else 0
  {
    hide Inv, Enabled, Do, L.Typed, Left;
    var last := ms0[|steps0|];
    if last.log.phase.Running? {
      ms, steps := ms0, steps0;
    } else {
      OneAdvance(home0, last, n, b);
      Append(home0, ms0, steps0, n, Advance);
      ms, steps := CommitRuns(home0, m, ms0 + [Do(last, Advance, n)], steps0 + [Advance], n, o, b);
    }
  }

  /** The operation from a to b runs and commits wherever the log has room for what it logs. */
  ghost predicate Runs(a: Snap, b: Snap, n: nat) {
    forall home0, m, o :: Idle(home0, m, n, o) && m.now == a && |b.log| <= |m.log.disk.slots| ==>
                            exists ms, steps :: CompleteRun(home0, ms, steps, m, n, o, b)
  }

  lemma EveryOperationRuns(a: Snap, b: Snap, n: nat)
    requires Sized(b, n) && LogsAll(a.(log := {}), b) && |b.log| <= Sectors.LOGSIZE
    ensures Runs(a, b, n)
  {
    hide Idle, CompleteRun, Sized, LogsAll;
    forall home0, m, o | Idle(home0, m, n, o) && m.now == a && |b.log| <= |m.log.disk.slots|
      ensures exists ms, steps :: CompleteRun(home0, ms, steps, m, n, o, b)
    {
      var ms, steps := OperationRuns(home0, m, n, o, b);
    }
  }

  /** No file reaches into the log if no sector of the log is marked in use. */
  lemma StoredBelow(sn: Snap, lo: nat, n: nat)
    requires Sized(sn, n) && lo == BitStart(|sn.dinodes|) + |sn.fs.bitmap| <= n && BlockMap.Inv(Files(sn), lo)
    requires forall b :: n <= b < |sn.fs.data| ==> !Bit(sn.fs.bitmap, b)
    ensures Stored(sn, lo, n)
  {
    forall s | IsSlot(Files(sn), s) ensures Addr(Files(sn), lo, s) < n {
      assert InRange(Files(sn), lo, s);
      var b := Addr(Files(sn), lo, s);
      if b >= n {
        assert Owns(Files(sn), lo, s, b);
        assert Owned(Files(sn), lo, b);
      }
    }
  }

  /** Memory and disk agree on the inodes, and no sector of the log is marked in use. */
  ghost predicate Settled(sn: Snap, lo: nat, n: nat) {
    && BlockMap.Inv(sn.fs, lo) && sn.dinodes == sn.fs.inodes && n <= |sn.fs.data|
    && lo == BitStart(|sn.fs.inodes|) + |sn.fs.bitmap| <= n
    && forall b :: n <= b < |sn.fs.data| ==> !Bit(sn.fs.bitmap, b)
  }

  lemma SettledStored(sn: Snap, lo: nat, n: nat)
    requires Settled(sn, lo, n)
    ensures Stored(sn, lo, n) && Files(sn) == sn.fs
  {
    assert Files(sn) == sn.fs;
    forall i | 0 <= i < |sn.dinodes| ensures |sn.dinodes[i].addrs| == NDIRECT + 1 {
      assert InodeShape(sn.fs.inodes[i], lo, |sn.fs.data|);
    }
    StoredBelow(sn, lo, n);
  }

  /** File j as it reads from the sectors of the disk. */
  ghost function FileOn(sn: Snap, lo: nat, n: nat, j: nat): seq<int>
    requires Stored(sn, lo, n) && j < |sn.dinodes|
  {
    DiskShape(sn, lo, n);
    Contents(DiskFiles(Image(sn, n), lo, |sn.dinodes|), lo, j)
  }

  /** On the disk, file i has src spliced in at off, and every other file is the same. */
  ghost predicate SplicedOnDisk(a: Snap, b: Snap, lo: nat, n: nat, i: nat, off: nat, src: seq<int>)
    requires Stored(a, lo, n) && Stored(b, lo, n)
  {
    && i < |a.dinodes| == |b.dinodes| && off <= |FileOn(a, lo, n, i)|
    && forall j :: 0 <= j < |a.dinodes| ==>
         FileOn(b, lo, n, j) == if j == i then Spliced(FileOn(a, lo, n, i), off, src) else FileOn(a, lo, n, j)
  }

  lemma SplicedStored(a: Snap, b: Snap, lo: nat, n: nat, i: nat, off: nat, src: seq<int>)
    requires Settled(a, lo, n) && Settled(b, lo, n) && i < |a.dinodes| == |b.dinodes| && off <= |Contents(a.fs, lo, i)|
    requires Contents(b.fs, lo, i) == Spliced(Contents(a.fs, lo, i), off, src)
    requires forall j :: 0 <= j < |a.dinodes| && j != i ==> Contents(b.fs, lo, j) == Contents(a.fs, lo, j)
    ensures Stored(a, lo, n) && Stored(b, lo, n) && SplicedOnDisk(a, b, lo, n, i, off, src)
  {
    assert Shape(a.fs, lo) && Shape(b.fs, lo);
    hide BlockMap.Inv, Spliced, Image, DiskFiles, Bit, Shape, Stored;
    SettledStored(a, lo, n);
    SettledStored(b, lo, n);
    forall j | 0 <= j < |a.dinodes|
      ensures FileOn(a, lo, n, j) == Contents(a.fs, lo, j) && FileOn(b, lo, n, j) == Contents(b.fs, lo, j)
    {
      ReadsBack(a, lo, n, j);
      ReadsBack(b, lo, n, j);
    }
  }

  lemma LogsSizes(a: Snap, b: Snap)
    requires LogsAll(a, b)
    ensures |b.fs.bitmap| == |a.fs.bitmap| && |b.fs.data| == |a.fs.data|
  {
  }

  /** All files read from the recovered disk are those of a, or all are those of b. */
  lemma OldOrNewFiles(disk: Sectors.Disk, a: Snap, b: Snap, lo: nat, n: nat)
    requires Stored(a, lo, n) && Stored(b, lo, n) && |a.dinodes| == |b.dinodes| && OldOrNew(disk, a, b, n)
    ensures RedoLog.ValidLog(disk)
    ensures var fs := DiskFiles(RedoLog.Recovered(disk).home, lo, |a.dinodes|);
            && Shape(fs, lo)
            && ((forall j :: 0 <= j < |a.dinodes| ==> Contents(fs, lo, j) == FileOn(a, lo, n, j)) ||
                (forall j :: 0 <= j < |a.dinodes| ==> Contents(fs, lo, j) == FileOn(b, lo, n, j)))
  {
    DiskShape(a, lo, n);
    DiskShape(b, lo, n);
    hide Contents, Stored, Image, DiskFiles, Shape;
  }

  /**
   writei() as one operation of the log: it logs every sector that it changes; the sectors then read as
   files with src spliced into file i at off; in every run of it, with crashes at any moment, the disk
   recovers to the old sectors or the new ones; and if what it logs fits the log, it runs and commits.
   */
  method WriteOnDisk(f: FileSystem, i: nat, src: seq<int>, off: nat) returns (r: IoResult)
    requires f.Valid() && Settled(f.Now(), f.lo, f.LogStart()) && f.logged == {}
    requires i < |f.inodes| && Bytes(src) && off < WRAP && |src| < WRAP
    requires |FreeBelow(f.bitmap, f.LogStart())| > NewBlocks(off, |src|)
    modifies f`bitmap, f`data, f`inodes, f`dinodes, f`logged
    ensures f.Valid() && LogsAll(old(f.Now()), f.Now()) && f.LogStart() == old(f.LogStart())
    ensures Stored(old(f.Now()), f.lo, f.LogStart())
    ensures r.Count? ==>
              && Settled(f.Now(), f.lo, f.LogStart()) && Stored(f.Now(), f.lo, f.LogStart())
              && SplicedOnDisk(old(f.Now()), f.Now(), f.lo, f.LogStart(), i, off, src)
              && Atomic(old(f.Now()), f.Now(), f.LogStart())
              && (|f.logged| <= Sectors.LOGSIZE ==> Runs(old(f.Now()), f.Now(), f.LogStart()))
  {
    hide Bit, BlockMap.Inv, LogsAll, Took, FreeBelow, NewBlocks, Contents, Spliced, LogsBlocks, Covers, Full,
        LogBound;
    hide SplicedOnDisk, Atomic, Runs, Sized, Stored;
    ghost var a, n := f.Now(), f.LogStart();
    SettledStored(a, f.lo, n);
    r := f.Writei(i, src, off);
    if r.Count? {
      assert f.dinodes == f.inodes;
      LogsSizes(a, f.Now());
      SplicedStored(a, f.Now(), f.lo, n, i, off, src);
      OnDiskAtomic(a, f.Now(), f.lo, n);
    }
  }

  lemma OnDiskAtomic(a: Snap, b: Snap, lo: nat, n: nat)
    requires Stored(a, lo, n) && Stored(b, lo, n) && LogsAll(a, b) && a.log == {}
    ensures Sized(a, n) && Sized(b, n) && Atomic(a, b, n) && (|b.log| <= Sectors.LOGSIZE ==> Runs(a, b, n))
  {
    assert Sized(a, n) && Sized(b, n) && a.(log := {}) == a;
    hide BlockMap.Inv, LogsAll, Sized, Atomic, Runs, Stored;
    EveryOperationAtomic(a, b, n);
    if |b.log| <= Sectors.LOGSIZE {
      EveryOperationRuns(a, b, n);
    }
  }

  /** On the disk, file i is empty, and every other file is the same. */
  ghost predicate EmptiedOnDisk(a: Snap, b: Snap, lo: nat, n: nat, i: nat)
    requires Stored(a, lo, n) && Stored(b, lo, n)
  {
    && i < |a.dinodes| == |b.dinodes|
    && forall j :: 0 <= j < |a.dinodes| ==> FileOn(b, lo, n, j) == if j == i then [] else FileOn(a, lo, n, j)
  }

  lemma EmptiedStored(a: Snap, b: Snap, lo: nat, n: nat, i: nat)
    requires Settled(a, lo, n) && Settled(b, lo, n) && i < |a.dinodes| == |b.dinodes| && b.fs.inodes[i].size == 0
    requires forall j :: 0 <= j < |a.dinodes| && j != i ==> Contents(b.fs, lo, j) == Contents(a.fs, lo, j)
    ensures Stored(a, lo, n) && Stored(b, lo, n) && EmptiedOnDisk(a, b, lo, n, i)
  {
    assert Shape(a.fs, lo) && Shape(b.fs, lo) && Contents(b.fs, lo, i) == [];
    hide BlockMap.Inv, Image, DiskFiles, Bit, Shape, Stored;
    SettledStored(a, lo, n);
    SettledStored(b, lo, n);
    forall j | 0 <= j < |a.dinodes|
      ensures FileOn(a, lo, n, j) == Contents(a.fs, lo, j) && FileOn(b, lo, n, j) == Contents(b.fs, lo, j)
    {
      ReadsBack(a, lo, n, j);
      ReadsBack(b, lo, n, j);
    }
  }

  lemma OthersContents(f: FS, g: FS, lo: nat, i: nat)
    requires Shape(f, lo) && Shape(g, lo) && i < |f.inodes| == |g.inodes|
    requires forall j :: 0 <= j < |f.inodes| && j != i ==> g.inodes[j] == f.inodes[j]
    requires forall j, p :: 0 <= j < |f.inodes| && j != i && 0 <= p < MAXFILE * BSIZE ==>
               ByteAt(g, lo, j, p) == ByteAt(f, lo, j, p)
    ensures forall j :: 0 <= j < |f.inodes| && j != i ==> Contents(g, lo, j) == Contents(f, lo, j)
  {
    hide ByteAt, IsBlock, Covers;
    forall j | 0 <= j < |f.inodes| && j != i ensures Contents(g, lo, j) == Contents(f, lo, j) {
      assert InodeShape(f.inodes[j], lo, |f.data|);
    }
  }

  /** itrunc() as one operation of the log, likewise: file i is empty afterwards. */
  method TruncateOnDisk(f: FileSystem, i: nat)
    requires f.Valid() && Settled(f.Now(), f.lo, f.LogStart()) && f.logged == {} && i < |f.inodes|
    modifies f`bitmap, f`inodes, f`dinodes, f`logged
    ensures f.Valid() && LogsAll(old(f.Now()), f.Now()) && Settled(f.Now(), f.lo, f.LogStart())
    ensures Stored(old(f.Now()), f.lo, f.LogStart()) && Stored(f.Now(), f.lo, f.LogStart())
    ensures EmptiedOnDisk(old(f.Now()), f.Now(), f.lo, f.LogStart(), i)
    ensures Atomic(old(f.Now()), f.Now(), f.LogStart())
    ensures |f.logged| <= Sectors.LOGSIZE ==> Runs(old(f.Now()), f.Now(), f.LogStart())
  {
    hide Bit, BlockMap.Inv, LogsAll, Contents, Covers, EmptiedOnDisk, Atomic, Runs, Sized, Stored, BelongsTo, Shape;
    hide ByteAt;
    ghost var a, n := f.Now(), f.LogStart();
    InvShape(a.fs, f.lo);
    f.Itrunc(i);
    InvShape(f.State(), f.lo);
    LogsSizes(a, f.Now());
    assert f.dinodes == f.inodes;
    OthersContents(a.fs, f.State(), f.lo, i);
    EmptiedStored(a, f.Now(), f.lo, n, i);
    OnDiskAtomic(a, f.Now(), f.lo, n);
  }
}
