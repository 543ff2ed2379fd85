/**
 What an operation does to the address spaces as a whole (vm.c): which pages it changes, which it
 keeps, which frames it leaves alone. Values only; Vm runs the code.
 */
module AddressSpaces {
  import opened Paging
  import opened FrameOwners

  const PGSIZE := 4096

  /** What mappages() does: 0, -1 for want of a frame, or the panic "remap". */
  datatype MapResult = Mapped | NoMemory | Remap

  /** What kfree() leaves in a frame: junk, and in the first word the link to the next free frame. */
  function Junk(next: bv32): (r: Words)
    ensures |r| == NENT && r[0] == next
  {
    seq(NENT, _ => 0x01010101)[0 := next]
  }

  /** How many pages mprotect() covers: at least one. */
  function Covered(addr: nat, len: int): nat
    requires addr + len >= 0
  {
    if Up(addr + len) > addr / PGSIZE then Up(addr + len) - addr / PGSIZE else 1
  }

  predicate InRange(addr: nat, len: int, q: nat)
    requires addr + len >= 0
  {
    addr / PGSIZE <= q < addr / PGSIZE + Covered(addr, len)
  }

  /**
   Since v, n entries of pd from `first` on have been rewritten for prot, and nothing else: no other entry,
   no user page.
   */
  ghost predicate Protected(v: Mem, v': Mem, pd: Frame, first: nat, n: nat, prot: int)
    requires Shape(v)
  {
    && Tables(v') && v'.dirs == v.dirs && v'.frames.Keys == v.frames.Keys
    && (forall d :: d in v.dirs ==> SameFrame(v, v', d))
    && (forall d, q :: d in v.dirs && 0 <= q < NPAGE ==>
          Entry(v', d, q) ==
          if d == pd && first <= q < first + n then Protect(Entry(v, d, q), prot) else Entry(v, d, q))
    && (forall d, q :: d in v.dirs && 0 <= q < NUSER && IsP(Entry(v, d, q)) ==> SameFrame(v, v', Addr(Entry(v, d, q))))
  }

  /** Some page of the kernel half carries the user bit. */
  ghost predicate KernelOpen(v: Mem, pd: Frame)
    requires Shape(v) && pd in v.dirs
  {
    exists q :: NUSER <= q < NPAGE && Entry(v, pd, q) & PTE_U != 0
  }

  /** Where no kernel page carried it, one does if and only if the range reaches them and reading is asked for. */
  lemma ProtectOpens(v: Mem, v': Mem, pd: Frame, first: nat, n: nat, prot: int)
    requires Shape(v) && pd in v.dirs && 0 < n && first + n <= NPAGE && Protected(v, v', pd, first, n, prot)
    requires !KernelOpen(v, pd)
    ensures KernelOpen(v', pd) <==> first + n > NUSER && (prot == PROT_READ || prot == PROT_READ + PROT_WRITE)
  {
    hide Entry, Protect, SameFrame;
    forall q | NUSER <= q < NPAGE
      ensures Entry(v', pd, q) & PTE_U != 0 <==>
              first <= q < first + n && (prot == PROT_READ || prot == PROT_READ + PROT_WRITE)
    {
      ProtectParts(Entry(v, pd, q), prot);
    }
    if first + n > NUSER && (prot == PROT_READ || prot == PROT_READ + PROT_WRITE) {
      assert Entry(v', pd, first + n - 1) & PTE_U != 0;
    }
  }

  lemma ProtectStart(v: Mem, free: seq<Frame>, pd: Frame, first: nat, prot: int)
    requires Inv(v, free)
    ensures Protected(v, v, pd, first, 0, prot)
  {
    forall d, q | d in v.dirs && 0 <= q < NUSER && IsP(Entry(v, d, q)) ensures SameFrame(v, v, Addr(Entry(v, d, q))) {
      assert Owns(v, Page(d, q), Addr(Entry(v, d, q)));
    }
  }

  lemma TableThere(v: Mem, free: seq<Frame>, v': Mem, pd: Frame, p: nat)
    requires Inv(v, free) && pd in v.dirs && p < NPAGE && HasTable(v, pd, p) && Shape(v') && v'.dirs == v.dirs
    requires SameFrame(v, v', pd)
    ensures HasTable(v', pd, p) && TableOk(v', pd, p / NENT) && |v'.frames[pd]| == NENT
    ensures var t := Addr(v'.frames[pd][p / NENT]);
            t in v'.frames && |v'.frames[t]| == NENT && t !in free && v'.frames[t][p % NENT] == Entry(v', pd, p)
  {
    assert Owns(v, Table(pd, p / NENT), Addr(v.frames[pd][p / NENT]));
    assert TableOk(v', pd, p / NENT);
  }

  lemma ProtectStep(v: Mem, free: seq<Frame>, v1: Mem, pd: Frame, first: nat, c: nat, prot: int)
    requires Inv(v, free) && pd in v.dirs && first <= c < NPAGE && HasTable(v, pd, c)
    requires Protected(v, v1, pd, first, c - first, prot)
    requires HasTable(v1, pd, c) && TableOk(v1, pd, c / NENT)
    ensures Protected(v, SetEntry(v1, pd, c, Protect(Entry(v1, pd, c), prot)), pd, first, c + 1 - first, prot)
  {
    hide Protect, IsP, Addr;
    var w := Protect(Entry(v1, pd, c), prot);
    SetEntryView(v1, pd, c, w);
    SetEntryTables(v1, pd, c, w);
    var v2, t := SetEntry(v1, pd, c, w), Addr(v1.frames[pd][c / NENT]);
    assert Owns(v, Table(pd, c / NENT), t);
    forall d, q | d in v.dirs && 0 <= q < NUSER && IsP(Entry(v, d, q)) ensures SameFrame(v, v2, Addr(Entry(v, d, q))) {
      assert Owns(v, Page(d, q), Addr(Entry(v, d, q)));
    }
  }

  /** Presence and frame of every page are unchanged, so ownership is. */
  lemma ProtectOwns(v: Mem, v': Mem, pd: Frame, first: nat, n: nat, prot: int)
    requires Shape(v) && pd in v.dirs && first + n <= NPAGE && Protected(v, v', pd, first, n, prot)
    requires KnownProt(prot) ==> forall q :: first <= q < first + n && q < NUSER ==> IsP(Entry(v, pd, q))
    ensures forall s, f :: Owns(v', s, f) <==> Owns(v, s, f)
  {
    hide IsP, Addr, Protect;
    forall s, f ensures Owns(v', s, f) <==> Owns(v, s, f) {
      match s {
        case Dir(_) =>
        case Table(d, i) =>
          assert d in v.dirs ==> SameFrame(v, v', d);
        case Page(d, p) =>
          if d in v.dirs && p < NUSER {
            ProtectParts(Entry(v, d, p), prot);
          }
      }
    }
  }

  lemma ProtectInv(v: Mem, free: seq<Frame>, v': Mem, pd: Frame, first: nat, n: nat, prot: int)
    requires Inv(v, free) && Clean(v) && pd in v.dirs && first + n <= NPAGE && Protected(v, v', pd, first, n, prot)
    ensures Inv(v', free) && Clean(v') <==>
            !KnownProt(prot) || forall q :: first <= q < first + n && q < NUSER ==> IsP(Entry(v, pd, q))
  {
    hide IsP, Addr, Protect;
    ProtectZero(prot);
    if !KnownProt(prot) || forall q :: first <= q < first + n && q < NUSER ==> IsP(Entry(v, pd, q)) {
      ProtectOwns(v, v', pd, first, n, prot);
      forall d, p | d in v.dirs && 0 <= p < NUSER ensures IsP(Entry(v', d, p)) || Entry(v', d, p) == 0 {
        ProtectParts(Entry(v, d, p), prot);
      }
      assert forall f :: f in v'.frames.Keys <==> f in v.frames.Keys;
      hide Owns, Entry, Shape;
    } else {
      var q :| first <= q < first + n && q < NUSER && !IsP(Entry(v, pd, q));
      assert Entry(v, pd, q) == 0;
      ProtectParts(0, prot);
      assert Owns(v', Page(pd, q), Frame(0));
    }
  }

  /** What copyuvm() returns: the child's directory, 0, or one of its two panics. */
  datatype CopyResult = Copied(d: Frame) | OutOfMemory | PtePanic | PagePanic {
    predicate Panics() {
      PtePanic? || PagePanic?
    }
  }

  /** q is the first of n pages that is not mapped. */
  ghost predicate FirstMissing(v: Mem, pd: Frame, n: nat, q: nat)
    requires Shape(v) && pd in v.dirs && n <= NPAGE
  {
    q < n && !IsP(Entry(v, pd, q)) && forall p :: 0 <= p < q ==> IsP(Entry(v, pd, p))
  }

  /** Page directories other than pd are as they were, so no page table has appeared or gone there. */
  ghost predicate DirsSame(v: Mem, v': Mem, pd: Frame) {
    forall e :: e in v.dirs && e in v'.dirs && e != pd ==> SameFrame(v, v', e)
  }

  lemma SameTables(v: Mem, v': Mem, d: Frame, pd: Frame, p: nat)
    requires Shape(v) && Shape(v') && pd in v.dirs && pd in v'.dirs && p < NPAGE && DirsSame(v, v', d) && pd != d
    ensures HasTable(v', pd, p) <==> HasTable(v, pd, p)
  {
  }

  lemma DirsTrans(v: Mem, v1: Mem, v2: Mem, pd: Frame)
    requires DirsSame(v, v1, pd) && DirsSame(v1, v2, pd) && v2.dirs <= v1.dirs
    ensures DirsSame(v, v2, pd)
  {
  }

  lemma UnmapDirs(v: Mem, free: seq<Frame>, pd: Frame, p: nat, junk: Words)
    requires Inv(v, free) && pd in v.dirs && p < NUSER && HasTable(v, pd, p) && TableOk(v, pd, p / NENT)
    requires IsP(Entry(v, pd, p))
    ensures DirsSame(v, Write(SetEntry(v, pd, p, 0), Addr(Entry(v, pd, p)), junk), pd)
  {
    assert Owns(v, Table(pd, p / NENT), Addr(v.frames[pd][p / NENT])) && Owns(v, Page(pd, p), Addr(Entry(v, pd, p)));
    forall e | e in v.dirs ensures Owns(v, Dir(e), e) {
    }
  }

  lemma MapDirs(v: Mem, free: seq<Frame>, pd: Frame, p: nat, w: bv32)
    requires Inv(v, free) && pd in v.dirs && p < NPAGE && HasTable(v, pd, p) && TableOk(v, pd, p / NENT)
    ensures DirsSame(v, SetEntry(v, pd, p, w), pd)
  {
    assert Owns(v, Table(pd, p / NENT), Addr(v.frames[pd][p / NENT]));
    forall e | e in v.dirs ensures Owns(v, Dir(e), e) {
    }
  }

  lemma FreeDirs(v: Mem, free: seq<Frame>, f: Frame, w: Words, pd: Frame)
    requires Inv(v, free) && Held(v, free, f)
    ensures DirsSame(v, Write(v, f, w), pd)
  {
    forall e | e in v.dirs ensures e != f {
      assert Owns(v, Dir(e), e);
    }
  }

  /** Page q of d shows what page q of pd showed, with the same flags, in a frame that was free. */
  ghost predicate CopiedPage(v: Mem, v': Mem, pd: Frame, d: Frame, q: nat, free: seq<Frame>)
    requires Shape(v) && Shape(v') && pd in v.dirs && d in v'.dirs && q < NPAGE
  {
    var e, e' := Entry(v, pd, q), Entry(v', d, q);
    && IsP(e) && IsP(e') && Flags(e') == Flags(e) && Addr(e') in free
    && Addr(e) in v.frames && Addr(e') in v'.frames && v'.frames[Addr(e')] == v.frames[Addr(e)]
  }

  lemma CopiedPresent(v: Mem, v': Mem, pd: Frame, d: Frame, n: nat, free: seq<Frame>)
    requires Shape(v) && Shape(v') && pd in v.dirs && d in v'.dirs && n <= NPAGE
    requires forall q :: 0 <= q < n ==> CopiedPage(v, v', pd, d, q, free)
    ensures forall q :: 0 <= q < n ==> IsP(Entry(v, pd, q)) && IsP(Entry(v', d, q))
  {
    hide Entry, IsP;
    forall q | 0 <= q < n ensures IsP(Entry(v, pd, q)) && IsP(Entry(v', d, q)) {
      assert CopiedPage(v, v', pd, d, q, free);
    }
  }

  lemma CopyDone(v: Mem, free: seq<Frame>, v1: Mem, v2: Mem, pd: Frame, d: Frame, p: nat, f: Frame, w: bv32)
    requires Shape(v) && Shape(v1) && Shape(v2) && pd in v.dirs && d in v2.dirs && p < NPAGE && w == Entry(v, pd, p)
    requires IsP(w)
    requires Addr(w) in v.frames && v1.frames == v.frames[f := v.frames[Addr(w)]] && f in free
    requires RangeMapped(v2, d, p, 1, f, Flags(w)) && SameFrame(v1, v2, f)
    ensures CopiedPage(v, v2, pd, d, p, free)
  {
    CopyBits(f, w);
    hide Entry, IsP, Addr, Flags, Make;
    assert Entry(v2, d, p) == Make(f, Flags(w) | PTE_P);
  }

  lemma CopyBits(f: Frame, w: bv32)
    requires IsP(w)
    ensures Flags(w) | PTE_P == Flags(w)
    ensures var e := Make(f, Flags(w)); IsP(e) && Flags(e) == Flags(w) && Addr(e) == f
  {
    MakeWhole(w);
    MakeParts(f, Flags(w));
  }

  lemma MappedInMemory(v: Mem, free: seq<Frame>, pd: Frame, p: nat)
    requires Inv(v, free) && pd in v.dirs && p < NUSER && IsP(Entry(v, pd, p))
    ensures var f := Addr(Entry(v, pd, p)); f in v.frames && |v.frames[f]| == NENT && f !in free
  {
    assert Owns(v, Page(pd, p), Addr(Entry(v, pd, p)));
  }

  /** User pages of a new directory are not mapped. */
  lemma UserEmpty(data: nat, p: nat)
    requires 0x80100 < data < 0x8E000 && p < NUSER
    ensures Kernel(KernelMap(data), 4, p) == 0
  {
    var rs := KernelMap(data);
    assert Kernel(rs, 3, p) == Kernel(rs, 2, p) == Kernel(rs, 1, p) == Kernel(rs, 0, p);
  }

  /** Pages copied earlier stay copied, and one more is. */
  lemma CopyKept(v: Mem, free: seq<Frame>, v1: Mem, free1: seq<Frame>, v2: Mem, pd: Frame, d: Frame, p: nat)
    requires Shape(v) && Shape(v1) && Shape(v2) && pd in v.dirs && pd in v1.dirs && d in v1.dirs && d in v2.dirs
    requires p < NUSER && d !in v.dirs
    requires forall q :: 0 <= q < p ==> CopiedPage(v, v1, pd, d, q, free)
    requires KeptBut(v, v1, d, 0, 0) && KeptBut(v1, v2, d, p, p + 1) && CopiedPage(v1, v2, pd, d, p, free1)
    requires forall h :: h in free1 ==> h in free
    ensures forall q :: 0 <= q < p + 1 ==> CopiedPage(v, v2, pd, d, q, free)
  {
    hide Entry, IsP, Addr, Flags, Shape;
    forall q | 0 <= q < p + 1 ensures CopiedPage(v, v2, pd, d, q, free) {
      if q < p {
        assert CopiedPage(v, v1, pd, d, q, free) && Kept(v1, v2, d, q);
      } else {
        assert Kept(v, v1, pd, q);
      }
    }
  }

  lemma OthersKeptBut(v: Mem, v1: Mem, v2: Mem, d: Frame, pd: Frame)
    requires Shape(v) && Shape(v1) && Shape(v2) && d !in v.dirs && v1.dirs == v.dirs + {d}
    requires KeptBut(v, v1, d, 0, 0) && OthersKept(v1, v2, d)
    ensures KeptBut(v, v2, pd, 0, 0) && v2.dirs == v.dirs
  {
    hide Entry, IsP, Addr, Shape;
    assert v2.dirs == v.dirs;
    forall e, p | e in v.dirs && 0 <= p < NPAGE ensures Kept(v, v2, e, p) {
      assert Kept(v, v1, e, p) && Kept(v1, v2, e, p);
    }
  }

  /** A stretch of the kernel's map: pages, first frame, permissions. */
  datatype Region = Region(page: nat, n: nat, phys: Frame, perm: bv32)

  /** kmap[]: I/O space, kernel text, kernel data and memory up to PHYSTOP, devices; `data` is where text ends. */
  function KernelMap(data: nat): seq<Region>
    requires 0x80100 < data < 0x8E000
  {
    [ Region(0x80000, 0x100, Frame(0), PTE_W),
      Region(0x80100, data - 0x80100, Frame(0x100), 0),
      Region(data, 0x8E000 - data, Nth(Frame(0), data - 0x80000), PTE_W),
      Region(0xFE000, 0x2000, Frame(0xFE000), PTE_W) ]
  }

  /** The entry of page q after the first k stretches. */
  ghost function Kernel(rs: seq<Region>, k: nat, q: nat): bv32
    requires k <= |rs|
  {
    if k == 0 then 0
    else if rs[k - 1].page <= q < rs[k - 1].page + rs[k - 1].n then
      Make(Nth(rs[k - 1].phys, q - rs[k - 1].page), rs[k - 1].perm | PTE_P)
    else Kernel(rs, k - 1, q)
  }

  lemma MapShape(data: nat, k: nat)
    requires 0x80100 < data < 0x8E000 && k < 4
    ensures var rs := KernelMap(data);
            && |rs| == 4 && rs[k].perm <= 0xFFF && rs[k].n > 0 && NUSER <= rs[k].page && rs[k].page + rs[k].n <= NPAGE
            && (k > 0 ==> rs[k - 1].page + rs[k - 1].n <= rs[k].page)
            && PagesOf(rs[k].page * PGSIZE, rs[k].n * PGSIZE) == rs[k].n && rs[k].page * PGSIZE / PGSIZE == rs[k].page
            && Sorted(rs)
  {
  }

  ghost predicate Sorted(rs: seq<Region>) {
    forall j, k :: 0 <= j < k < |rs| ==> rs[j].page + rs[j].n <= rs[k].page
  }

  /** No earlier stretch reaches a later one. */
  lemma {:induction false} KernelFree(rs: seq<Region>, k: nat, q: nat)
    requires Sorted(rs) && k < |rs| && rs[k].page <= q
    ensures Kernel(rs, k, q) == 0 && !IsP(0)
  {
    KernelBehind(rs, k, k, q);
  }

  lemma {:induction false} KernelBehind(rs: seq<Region>, j: nat, k: nat, q: nat)
    requires Sorted(rs) && j <= k < |rs| && rs[k].page <= q
    ensures Kernel(rs, j, q) == 0
  {
    if j > 0 {
      KernelBehind(rs, j - 1, k, q);
    }
  }

  /** The k-th frame of physical memory. */
  function Phys(k: nat): Frame {
    Nth(Frame(0), k)
  }

  function Plus(a: bv20, b: bv20): bv20 {
    a + b
  }

  lemma PlusOne(a: bv20, b: bv20)
    ensures Plus(a, b) + 1 == Plus(a, b + 1) && Plus(a, 0) == a
  {
  }

  lemma {:induction false} NthPlus(f: Frame, k: nat)
    ensures Nth(f, k).n == Plus(f.n, Phys(k).n)
  {
    hide Plus;
    if k == 0 {
      PlusOne(f.n, 0);
    } else {
      NthPlus(f, k - 1);
      PlusOne(f.n, Phys(k - 1).n);
    }
  }

  lemma {:induction false} NthAdd(f: Frame, j: nat, k: nat)
    ensures Nth(Nth(f, j), k) == Nth(f, j + k)
  {
    if k > 0 {
      NthAdd(f, j, k - 1);
    }
  }

  lemma PhysDouble(k: nat, n: bv20)
    requires Phys(k) == Frame(n)
    ensures Phys(2 * k) == Frame(n + n)
  {
    NthAdd(Frame(0), k, k);
    NthPlus(Frame(n), k);
  }

  /** Frames 0x100 and 0xFE000 are the ones of that number. */
  lemma PhysMarks()
    ensures Phys(0x100) == Frame(0x100) && Phys(0xFE000) == Frame(0xFE000)
  {
    assert Phys(0) == Frame(0);
    assert Phys(1) == Frame(1);
    PhysDouble(0x1, 0x1);
    PhysDouble(0x2, 0x2);
    PhysDouble(0x4, 0x4);
    PhysDouble(0x8, 0x8);
    PhysDouble(0x10, 0x10);
    PhysDouble(0x20, 0x20);
    PhysDouble(0x40, 0x40);
    PhysDouble(0x80, 0x80);
    PhysOdd(0x1, 0x1);
    PhysOdd(0x3, 0x3);
    PhysOdd(0x7, 0x7);
    PhysOdd(0xF, 0xF);
    PhysOdd(0x1F, 0x1F);
    PhysOdd(0x3F, 0x3F);
    PhysDouble(0x7F, 0x7F);
    PhysDouble(0xFE, 0xFE);
    PhysDouble(0x1FC, 0x1FC);
    PhysDouble(0x3F8, 0x3F8);
    PhysDouble(0x7F0, 0x7F0);
    PhysDouble(0xFE0, 0xFE0);
    PhysDouble(0x1FC0, 0x1FC0);
    PhysDouble(0x3F80, 0x3F80);
    PhysDouble(0x7F00, 0x7F00);
    PhysDouble(0xFE00, 0xFE00);
    PhysDouble(0x1FC00, 0x1FC00);
    PhysDouble(0x3F800, 0x3F800);
    PhysDouble(0x7F000, 0x7F000);
  }

  lemma PhysOdd(k: nat, n: bv20)
    requires Phys(k) == Frame(n)
    ensures Phys(2 * k + 1) == Frame(n + n + 1)
  {
    PhysDouble(k, n);
  }

  /**
   What the kernel half shows: from KERNBASE up to PHYSTOP all of physical memory in order, devices at
   their own address, nothing else; and exactly the kernel's text cannot be written.
   */
  lemma KernelShows(data: nat, q: nat)
    requires 0x80100 < data < 0x8E000 && q < NPAGE
    ensures var e := Kernel(KernelMap(data), 4, q);
            && (IsP(e) <==> 0x80000 <= q < 0x8E000 || 0xFE000 <= q)
            && (0x80000 <= q < 0x8E000 ==> Addr(e) == Phys(q - 0x80000))
            && (0xFE000 <= q ==> Addr(e) == Phys(q))
            && (IsP(e) ==> (e & PTE_W == 0 <==> 0x80100 <= q < data))
            && e & PTE_U == 0
  {
    var rs := KernelMap(data);
    hide KernelMap, Make, IsP, Addr, Nth;
    KernelMapIs(data);
    PhysMarks();
    KernelBits(rs, 4, q);
    if k :| 0 <= k < 4 && rs[k].page <= q < rs[k].page + rs[k].n {
      KernelAt(rs, 4, k, q);
      NthAdd(Frame(0), rs[k].page - (if k < 3 then 0x80000 else 0), q - rs[k].page);
      MappedBits(Nth(rs[k].phys, q - rs[k].page), rs[k].perm);
      WriteBit(Nth(rs[k].phys, q - rs[k].page), rs[k].perm);
    } else {
      KernelNone(rs, 4, q);
    }
  }

  lemma WriteBit(f: Frame, perm: bv32)
    requires perm == 0 || perm == PTE_W
    ensures Make(f, perm | PTE_P) & PTE_W == perm
  {
  }

  lemma KernelMapIs(data: nat)
    requires 0x80100 < data < 0x8E000
    ensures var rs := KernelMap(data);
            && |rs| == 4 && Sorted(rs)
            && rs[0] == Region(0x80000, 0x100, Phys(0), PTE_W)
            && rs[1] == Region(0x80100, data - 0x80100, Frame(0x100), 0)
            && rs[2] == Region(data, 0x8E000 - data, Phys(data - 0x80000), PTE_W)
            && rs[3] == Region(0xFE000, 0x2000, Frame(0xFE000), PTE_W)
  {
  }

  lemma {:induction false} KernelAt(rs: seq<Region>, k: nat, j: nat, q: nat)
    requires Sorted(rs) && j < k <= |rs| && rs[j].page <= q < rs[j].page + rs[j].n
    ensures Kernel(rs, k, q) == Make(Nth(rs[j].phys, q - rs[j].page), rs[j].perm | PTE_P)
  {
    hide Make, Nth;
    if j < k - 1 {
      KernelAt(rs, k - 1, j, q);
    }
  }

  lemma {:induction false} KernelNone(rs: seq<Region>, k: nat, q: nat)
    requires k <= |rs| && forall j :: 0 <= j < k ==> !(rs[j].page <= q < rs[j].page + rs[j].n)
    ensures Kernel(rs, k, q) == 0 && !IsP(0)
  {
    if k > 0 {
      KernelNone(rs, k - 1, q);
    }
  }

  /** The kernel's map carries no user bit. */
  lemma KernelClosed(v: Mem, pd: Frame, data: nat)
    requires Shape(v) && pd in v.dirs && 0x80100 < data < 0x8E000
    requires forall q :: 0 <= q < NPAGE ==> Entry(v, pd, q) == Kernel(KernelMap(data), 4, q)
    ensures !KernelOpen(v, pd)
  {
    var rs := KernelMap(data);
    forall q | NUSER <= q < NPAGE ensures Entry(v, pd, q) & PTE_U == 0 {
      KernelBits(rs, 4, q);
    }
  }

  lemma {:induction false} KernelBits(rs: seq<Region>, k: nat, q: nat)
    requires k <= |rs| && forall j :: 0 <= j < |rs| ==> rs[j].perm == 0 || rs[j].perm == PTE_W
    ensures Kernel(rs, k, q) & PTE_U == 0
  {
    hide Nth;
    if k > 0 {
      if rs[k - 1].page <= q < rs[k - 1].page + rs[k - 1].n {
        NoUserBit(Nth(rs[k - 1].phys, q - rs[k - 1].page), rs[k - 1].perm);
      } else {
        KernelBits(rs, k - 1, q);
      }
    }
  }

  lemma NoUserBit(f: Frame, perm: bv32)
    requires perm == 0 || perm == PTE_W
    ensures Make(f, perm | PTE_P) & PTE_U == 0
  {
  }

  lemma KernelStart(v: Mem, rs: seq<Region>, pd: Frame)
    requires Shape(v) && pd in v.dirs && v.frames[pd] == Zeros()
    ensures forall q :: 0 <= q < NPAGE ==> Entry(v, pd, q) == Kernel(rs, 0, q)
  {
  }

  lemma KernelStep(v: Mem, v': Mem, rs: seq<Region>, k: nat, pd: Frame)
    requires Shape(v) && Shape(v') && pd in v.dirs && pd in v'.dirs && k < |rs|
    requires forall q :: 0 <= q < NPAGE ==> Entry(v, pd, q) == Kernel(rs, k, q)
    requires RangeMapped(v', pd, rs[k].page, rs[k].n, rs[k].phys, rs[k].perm)
    requires KeptBut(v, v', pd, rs[k].page, rs[k].page + rs[k].n)
    ensures forall q :: 0 <= q < NPAGE ==> Entry(v', pd, q) == Kernel(rs, k + 1, q)
  {
    EntriesKept(v, v', pd, rs[k].page, rs[k].page + rs[k].n);
    hide Entry, Make, Nth, KeptBut, Shape;
  }

  /** In the middle of copyuvm()'s loop: the pages below p are copied, the rest of d shows the kernel's map. */
  ghost predicate Copying(v: Mem, free: seq<Frame>, v': Mem, free': seq<Frame>, pd: Frame, d: Frame, p: nat, data: nat)
    requires Shape(v) && Shape(v') && 0x80100 < data < 0x8E000
  {
    && pd in v.dirs && d !in v.dirs && v'.dirs == v.dirs + {d} && p <= NUSER
    && KeptBut(v, v', d, 0, 0) && DirsSame(v, v', d) && (forall h :: h in free' ==> h in free)
    && (forall q :: 0 <= q < p ==> CopiedPage(v, v', pd, d, q, free))
    && (forall q :: p <= q < NPAGE ==> Entry(v', d, q) == Kernel(KernelMap(data), 4, q))
    && |free| == |free'| + |Tabs(v'.frames[d])| + 1 + p
  }

  lemma CopyingStart(v: Mem, free: seq<Frame>, v': Mem, free': seq<Frame>, pd: Frame, d: Frame, data: nat)
    requires Shape(v) && Shape(v') && 0x80100 < data < 0x8E000 && pd in v.dirs && d !in v.dirs
    requires v'.dirs == v.dirs + {d} && KeptBut(v, v', d, 0, 0) && DirsSame(v, v', d)
    requires forall h :: h in free' ==> h in free
    requires forall q :: 0 <= q < NPAGE ==> Entry(v', d, q) == Kernel(KernelMap(data), 4, q)
    requires |free| == |free'| + |Tabs(v'.frames[d])| + 1
    ensures Copying(v, free, v', free', pd, d, 0, data)
  {
  }

  lemma CopyingHere(v: Mem, free: seq<Frame>, v': Mem, free': seq<Frame>, pd: Frame, d: Frame, p: nat, data: nat)
    requires Shape(v) && Shape(v') && 0x80100 < data < 0x8E000 && p < NUSER
    requires Copying(v, free, v', free', pd, d, p, data)
    ensures pd in v.dirs && pd in v'.dirs && d in v'.dirs && d != pd && Entry(v', d, p) == 0
  {
    hide KeptBut, DirsSame, CopiedPage, Kernel, KernelMap, Tabs;
    UserEmpty(data, p);
  }

  lemma CopyingPanics(v: Mem, free: seq<Frame>, v': Mem, free': seq<Frame>, pd: Frame, d: Frame, p: nat, data: nat,
      n: nat)
    requires Shape(v) && Shape(v') && 0x80100 < data < 0x8E000 && p < n <= NUSER
    requires Copying(v, free, v', free', pd, d, p, data) && pd in v'.dirs && !IsP(Entry(v', pd, p))
    ensures pd in v.dirs && FirstMissing(v, pd, n, p) && (HasTable(v', pd, p) <==> HasTable(v, pd, p))
    ensures KeptBut(v, v', pd, 0, 0)
  {
    hide Entry, HasTable, IsP, CopiedPage, Kernel, KernelMap, Tabs, Shape;
    SameTables(v, v', d, pd, p);
    CopiedPresent(v, v', pd, d, p, free);
    assert Kept(v, v', pd, p);
    KeptMono(v, v', Part(d, 0, 0), Part(pd, 0, 0));
  }

  /** What one more page keeps, copied or not. */
  lemma CopyingOn(v: Mem, free: seq<Frame>, v1: Mem, free1: seq<Frame>, v2: Mem, free2: seq<Frame>, pd: Frame, d: Frame,
      p: nat, data: nat)
    requires Shape(v) && Shape(v1) && Shape(v2) && 0x80100 < data < 0x8E000 && v2.dirs == v1.dirs
    requires Copying(v, free, v1, free1, pd, d, p, data) && KeptBut(v1, v2, d, p, p + 1) && DirsSame(v1, v2, d)
    ensures KeptBut(v, v2, d, 0, 0) && DirsSame(v, v2, d) && v2.dirs == v.dirs + {d} && d !in v.dirs
    ensures d in v1.dirs && |free| == |free1| + |Tabs(v1.frames[d])| + 1 + p
  {
    hide Entry, CopiedPage, Kernel, KernelMap, Tabs, Shape, KeptBut, DirsSame;
    KeptTrans(v, v1, v2, Part(d, 0, 0), Part(d, p, p + 1), Part(d, 0, 0));
    DirsTrans(v, v1, v2, d);
  }

  lemma CopyingTurn(v: Mem, free: seq<Frame>, v1: Mem, free1: seq<Frame>, v2: Mem, free2: seq<Frame>, pd: Frame,
      d: Frame, p: nat, data: nat)
    requires Shape(v) && Shape(v1) && Shape(v2) && 0x80100 < data < 0x8E000 && p < NUSER && v2.dirs == v1.dirs
    requires Copying(v, free, v1, free1, pd, d, p, data) && KeptBut(v1, v2, d, p, p + 1) && DirsSame(v1, v2, d)
    requires pd in v1.dirs && d in v1.dirs && CopiedPage(v1, v2, pd, d, p, free1)
    requires forall h :: h in free2 ==> h in free1
    requires |free1| + |Tabs(v1.frames[d])| == |free2| + |Tabs(v2.frames[d])| + 1
    ensures Copying(v, free, v2, free2, pd, d, p + 1, data)
  {
    hide Entry, CopiedPage, Kernel, KernelMap, Tabs, Shape, KeptBut, DirsSame;
    CopyingOn(v, free, v1, free1, v2, free2, pd, d, p, data);
    EntriesKept(v1, v2, d, p, p + 1);
    CopyKept(v, free, v1, free1, v2, pd, d, p);
  }

  lemma CopyingDone(v: Mem, free: seq<Frame>, v': Mem, free': seq<Frame>, pd: Frame, d: Frame, p: nat, data: nat)
    requires Shape(v) && Shape(v') && 0x80100 < data < 0x8E000 && Copying(v, free, v', free', pd, d, p, data)
    ensures KeptBut(v, v', pd, 0, 0) && pd in v.dirs && d in v'.dirs && p <= NUSER
    ensures forall q :: 0 <= q < p ==> CopiedPage(v, v', pd, d, q, free) && IsP(Entry(v, pd, q))
    ensures forall q :: p <= q < NPAGE ==> Entry(v', d, q) == Kernel(KernelMap(data), 4, q)
  {
    hide Entry, IsP, CopiedPage, Kernel, KernelMap, Tabs, Shape, KeptBut, DirsSame;
    CopiedPresent(v, v', pd, d, p, free);
    KeptMono(v, v', Part(d, 0, 0), Part(pd, 0, 0));
  }

  /** The new directory, once it counts as one. */
  lemma NewDirKept(v: Mem, v1: Mem, free: seq<Frame>, pd: Frame)
    requires Shape(v) && Inv(v1, free) && Clean(v1) && Held(v1, free, pd) && v1.frames[pd] == Zeros()
    requires KeptBut(v, v1, pd, 0, 0) && v1.dirs == v.dirs
    ensures var v2 := v1.(dirs := v1.dirs + {pd});
            Inv(v2, free) && Clean(v2) && KeptBut(v, v2, pd, 0, 0) && pd !in v.dirs
  {
    AddDirInv(v1, free, pd);
    var v2 := v1.(dirs := v1.dirs + {pd});
    forall d, p | d in v.dirs && 0 <= p < NPAGE ensures Kept(v, v2, d, p) {
      assert Kept(v, v1, d, p) && Entry(v2, d, p) == Entry(v1, d, p);
    }
  }

  /** Giving up a new directory keeps all old address spaces. */
  lemma RemoveKept(v: Mem, v1: Mem, free: seq<Frame>, pd: Frame)
    requires Shape(v) && Inv(v1, free) && Clean(v1) && pd !in v.dirs && KeptBut(v, v1, pd, 0, 0)
    ensures var v2 := v1.(dirs := v1.dirs - {pd});
            Inv(v2, free) && Clean(v2) && KeptBut(v, v2, pd, 0, 0)
  {
    RemoveDirInv(v1, free, pd);
    var v2 := v1.(dirs := v1.dirs - {pd});
    forall d, p | d in v.dirs && 0 <= p < NPAGE ensures Kept(v, v2, d, p) {
      assert Kept(v, v1, d, p) && Entry(v2, d, p) == Entry(v1, d, p);
    }
  }

  /** What allocuvm() returns: a size, 0, or the panic "remap". */
  datatype AllocResult = Size(n: nat) | Failed | RemapPanic

  /** Page p is writable by the user and lives, all zero, in a frame that was free. */
  ghost predicate ZeroPage(v: Mem, pd: Frame, p: nat, free: seq<Frame>)
    requires Shape(v) && pd in v.dirs && p < NPAGE
  {
    var e := Entry(v, pd, p);
    && IsP(e) && Flags(e) == PTE_W | PTE_U | PTE_P && HasTable(v, pd, p)
    && Addr(e) in free && Addr(e) in v.frames && v.frames[Addr(e)] == Zeros()
  }

  /** Pages from lo up to hi have been added; the last one may be missing if no frame is left. */
  ghost predicate Grown(v: Mem, now: seq<Frame>, pd: Frame, lo: nat, hi: nat, free: seq<Frame>)
    requires Shape(v) && pd in v.dirs && hi <= NPAGE
  {
    && (forall q :: lo <= q < hi - 1 ==> ZeroPage(v, pd, q, free))
    && (lo < hi ==> ZeroPage(v, pd, hi - 1, free) || (!HasTable(v, pd, hi - 1) && now == []))
  }

  // Frames needed to grow.

  /** Page p is the first from lo on to need its page table, which the directory w lacks. */
  predicate NeedsTable(w: Words, lo: nat, p: nat)
    requires |w| == NENT && p < NPAGE
  {
    !IsP(w[p / NENT]) && (p == lo || p % NENT == 0)
  }

  /** Frames for the pages from lo up to p and for the page tables they lack. */
  function Need(w: Words, lo: nat, p: nat): nat
    requires |w| == NENT && p <= NPAGE
  {
    if p <= lo then 0 else Need(w, lo, p - 1) + 1 + if NeedsTable(w, lo, p - 1) then 1 else 0
  }

  /** With no page table at all. */
  lemma {:induction false} NeedAll(w: Words, p: nat)
    requires |w| == NENT && 0 < p <= NPAGE && forall k :: 0 <= k < NENT ==> !IsP(w[k])
    ensures Need(w, 0, p) == p + (p - 1) / NENT + 1
  {
    hide IsP;
    if p == 1 {
      assert Need(w, 0, 0) == 0;
    } else {
      NeedAll(w, p - 1);
    }
  }

  /** One frame for each page and at most one for each table the range reaches into. */
  lemma {:induction false} NeedBound(w: Words, lo: nat, p: nat)
    requires |w| == NENT && lo < p <= NPAGE
    ensures Need(w, lo, p) <= p - lo + (p - 1) / NENT - lo / NENT + 1
    decreases p
  {
    hide IsP;
    if p == lo + 1 {
      assert Need(w, lo, lo) == 0;
    } else {
      NeedBound(w, lo, p - 1);
    }
  }

  /** The page tables that the pages from lo up to hi lack. */
  ghost function Lacking(w: Words, lo: nat, hi: nat): set<nat> {
    set k | lo / NENT <= k < |w| && lo < hi && k <= (hi - 1) / NENT && !IsP(w[k])
  }

  /** One frame for each page and one for each page table that is lacking. */
  lemma {:induction false} NeedIs(w: Words, lo: nat, hi: nat)
    requires |w| == NENT && lo <= hi <= NPAGE
    ensures Need(w, lo, hi) == hi - lo + |Lacking(w, lo, hi)|
    decreases hi
  {
    if lo == hi {
      assert Lacking(w, lo, hi) == {};
    } else {
      NeedIs(w, lo, hi - 1);
      var k := (hi - 1) / NENT;
      if NeedsTable(w, lo, hi - 1) {
        assert Lacking(w, lo, hi) == Lacking(w, lo, hi - 1) + {k};
        assert k !in Lacking(w, lo, hi - 1);
      } else {
        assert Lacking(w, lo, hi) == Lacking(w, lo, hi - 1);
      }
    }
  }

  lemma {:induction false} NeedGrows(w: Words, lo: nat, p: nat, hi: nat)
    requires |w| == NENT && lo <= p <= hi <= NPAGE
    ensures Need(w, lo, hi) >= Need(w, lo, p) + hi - p
    decreases hi - p
  {
    if p < hi {
      NeedGrows(w, lo, p, hi - 1);
    }
  }

  /** What it costs to have the page table of page p. */
  ghost function TableCost(v: Mem, pd: Frame, p: nat): nat
    requires Shape(v) && pd in v.dirs && p < NPAGE
  {
    if HasTable(v, pd, p) then 0 else 1
  }

  /** Directory w' has the page tables of w and that of entry k. */
  ghost predicate MoreTable(w: Words, w': Words, k: nat) {
    |w'| == |w| && forall j :: 0 <= j < |w| ==> (IsP(w'[j]) <==> IsP(w[j]) || j == k)
  }

  /** Since the directory was w0, the page tables for the pages from lo up to p have been made, and no others. */
  ghost predicate TablesMade(w0: Words, w: Words, lo: nat, p: nat)
    requires |w0| == |w| == NENT
  {
    forall k :: 0 <= k < NENT ==> (IsP(w[k]) <==> IsP(w0[k]) || (lo < p && lo / NENT <= k <= (p - 1) / NENT))
  }

  /**
   allocuvm()'s loop at page p, from directory w0 and n0 free frames to w and n: as many frames are
   gone as the pages so far need; or one fewer, none is left, and the last page was missed.
   */
  ghost predicate Spent(w0: Words, n0: nat, w: Words, n: nat, lo: nat, p: nat, missed: bool) {
    && |w0| == |w| == NENT && lo <= p <= NPAGE
    && if missed then n == 0 && lo < p && n0 + 1 == Need(w0, lo, p) && NeedsTable(w0, lo, p - 1)
       else n + Need(w0, lo, p) == n0 && TablesMade(w0, w, lo, p)
  }

  lemma SpentStart(w: Words, n: nat, lo: nat)
    requires |w| == NENT && lo <= NPAGE
    ensures Spent(w, n, w, n, lo, lo, false)
  {
  }

  /** Whether the table of page p is there, at page p. */
  lemma SpentHere(w0: Words, n0: nat, v: Mem, n: nat, pd: Frame, lo: nat, p: nat, missed: bool)
    requires Shape(v) && pd in v.dirs && p < NPAGE && Spent(w0, n0, v.frames[pd], n, lo, p, missed)
    ensures missed ==> n == 0
    ensures !missed ==> (HasTable(v, pd, p) <==> !NeedsTable(w0, lo, p))
  {
    hide IsP;
    var k := p / NENT;
    assert lo < p && p % NENT != 0 ==> (p - 1) / NENT == k;
    assert p % NENT == 0 && lo < p ==> (p - 1) / NENT < k;
  }

  lemma SpentTurn(w0: Words, n0: nat, w: Words, n: nat, w': Words, n': nat, lo: nat, p: nat, missed: bool)
    requires Spent(w0, n0, w, n, lo, p, false) && p < NPAGE && n > 0
    requires if missed then NeedsTable(w0, lo, p) && n == 1 && n' == 0 && |w'| == NENT
             else n' + 1 + (if NeedsTable(w0, lo, p) then 1 else 0) == n && MoreTable(w, w', p / NENT)
    ensures Spent(w0, n0, w', n', lo, p + 1, missed)
  {
    hide IsP;
    if !missed {
      forall k | 0 <= k < NENT ensures IsP(w'[k]) <==> IsP(w0[k]) || lo / NENT <= k <= p / NENT {
        assert IsP(w'[k]) <==> IsP(w[k]) || k == p / NENT;
        assert lo < p ==> (p - 1) / NENT == p / NENT || (p - 1) / NENT == p / NENT - 1;
      }
    }
  }

  /** No frame left at page p: so many were too few. */
  lemma SpentFails(w0: Words, n0: nat, w: Words, lo: nat, p: nat, hi: nat, missed: bool)
    requires Spent(w0, n0, w, 0, lo, p, missed) && p < hi <= NPAGE
    ensures n0 < if NeedsTable(w0, lo, hi - 1) then Need(w0, lo, hi) - 1 else Need(w0, lo, hi)
  {
    NeedGrows(w0, lo, p, hi - 1);
    NeedGrows(w0, lo, p, hi);
  }

  lemma SpentAll(w0: Words, n0: nat, w: Words, n: nat, lo: nat, hi: nat, missed: bool)
    requires Spent(w0, n0, w, n, lo, hi, missed)
    ensures if missed then lo < hi && NeedsTable(w0, lo, hi - 1) && n0 + 1 == Need(w0, lo, hi)
            else n0 == n + Need(w0, lo, hi) && TablesMade(w0, w, lo, hi)
  {
  }

  lemma ZeroKept(v: Mem, v': Mem, pd: Frame, q: nat, free: seq<Frame>)
    requires Shape(v) && Shape(v') && pd in v.dirs && pd in v'.dirs && q < NUSER && ZeroPage(v, pd, q, free)
    requires Kept(v, v', pd, q)
    ensures ZeroPage(v', pd, q, free)
  {
  }

  lemma GrownStep(v: Mem, free: seq<Frame>, v1: Mem, free1: seq<Frame>, v2: Mem, free2: seq<Frame>, pd: Frame,
      lo: nat, p: nat, m: MapResult)
    requires Shape(v) && Shape(v1) && Shape(v2) && pd in v.dirs && pd in v1.dirs && pd in v2.dirs && lo <= p < NUSER
    requires KeptBut(v, v1, pd, lo, p) && Grown(v1, free1, pd, lo, p, free) && free1 != []
    requires forall h :: h in free1 ==> h in free
    requires m == Mapped ==> KeptBut(v1, v2, pd, p, p + 1) && ZeroPage(v2, pd, p, free1)
    requires m != Mapped ==> KeptBut(v1, v2, pd, 0, 0) && free2 == [] && !HasTable(v2, pd, p)
    ensures Grown(v2, free2, pd, lo, p + 1, free) && KeptBut(v, v2, pd, lo, p + 1)
    ensures Entry(v2, pd, p) != 0 <==> m == Mapped
  {
    assert m == Mapped ==> IsP(Entry(v2, pd, p));
    hide Entry, Shape, Addr, Flags, HasTable;
    forall d, q | d in v.dirs && 0 <= q < NPAGE && !(d == pd && lo <= q < p + 1) ensures Kept(v, v2, d, q) {
      assert Kept(v, v1, d, q) && Kept(v1, v2, d, q);
    }
    forall q | lo <= q < p ensures ZeroPage(v2, pd, q, free) {
      assert ZeroPage(v1, pd, q, free) && Kept(v1, v2, pd, q);
      ZeroKept(v1, v2, pd, q, free);
    }
  }

  /** One turn of allocuvm()'s loop: page p has a zeroed frame of its own, or its page table could not be made. */
  ghost predicate GotPage(v: Mem, free: seq<Frame>, v': Mem, free': seq<Frame>, pd: Frame, p: nat, r: MapResult)
    requires Shape(v) && Shape(v') && pd in v.dirs && pd in v'.dirs && p < NUSER
  {
    && free != [] && (forall h :: h in free' ==> h in free) && DirsSame(v, v', pd) && v'.dirs == v.dirs
    && |free'| + |Tabs(v'.frames[pd])| + 1 == |free| + |Tabs(v.frames[pd])|
    && (r == NoMemory <==> !HasTable(v, pd, p) && |free| == 1)
    && if r == Mapped then
         && KeptBut(v, v', pd, p, p + 1) && ZeroPage(v', pd, p, free)
         && MoreTable(v.frames[pd], v'.frames[pd], p / NENT) && |free'| + 1 + TableCost(v, pd, p) == |free|
       else r == NoMemory && KeptBut(v, v', pd, 0, 0) && free' == [] && !HasTable(v', pd, p)
  }

  /** In the middle of allocuvm()'s loop. */
  ghost predicate Growing(v: Mem, free: seq<Frame>, v': Mem, free': seq<Frame>, pd: Frame, lo: nat, p: nat,
      missed: bool)
    requires Shape(v) && Shape(v')
  {
    && pd in v.dirs && pd in v'.dirs && lo <= p <= NUSER
    && KeptBut(v, v', pd, lo, p) && Grown(v', free', pd, lo, p, free) && (forall h :: h in free' ==> h in free)
    && DirsSame(v, v', pd) && v'.dirs == v.dirs
    && |free'| + |Tabs(v'.frames[pd])| + p - lo == |free| + |Tabs(v.frames[pd])|
    && Spent(v.frames[pd], |free|, v'.frames[pd], |free'|, lo, p, missed)
    && (lo < p ==> (Entry(v', pd, p - 1) == 0 <==> missed))
  }

  lemma GrowingStart(v: Mem, free: seq<Frame>, pd: Frame, lo: nat)
    requires Shape(v) && pd in v.dirs && lo <= NUSER && KeptBut(v, v, pd, 0, 0)
    ensures Growing(v, free, v, free, pd, lo, lo, false)
  {
    KeptMono(v, v, Part(pd, 0, 0), Part(pd, lo, lo));
    SpentStart(v.frames[pd], |free|, lo);
  }

  lemma GrowingTurn(v: Mem, free: seq<Frame>, v1: Mem, free1: seq<Frame>, v2: Mem, free2: seq<Frame>, pd: Frame,
      lo: nat, p: nat, missed: bool, r: MapResult)
    requires Shape(v) && Shape(v1) && Shape(v2) && pd in v2.dirs && p < NUSER
    requires Growing(v, free, v1, free1, pd, lo, p, missed) && GotPage(v1, free1, v2, free2, pd, p, r)
    ensures Growing(v, free, v2, free2, pd, lo, p + 1, r == NoMemory)
  {
    hide Entry, HasTable, KeptBut, Grown, Spent, ZeroPage, Tabs, NeedsTable, MoreTable, DirsSame;
    DirsTrans(v, v1, v2, pd);
    SpentHere(v.frames[pd], |free|, v1, |free1|, pd, lo, p, missed);
    GrownStep(v, free, v1, free1, v2, free2, pd, lo, p, r);
    SpentTurn(v.frames[pd], |free|, v1.frames[pd], |free1|, v2.frames[pd], |free2|, lo, p, r == NoMemory);
  }

  lemma GrowingHere(v: Mem, free: seq<Frame>, v': Mem, free': seq<Frame>, pd: Frame, lo: nat, p: nat, missed: bool)
    requires Shape(v) && Shape(v') && p < NUSER && Growing(v, free, v', free', pd, lo, p, missed)
    ensures pd in v.dirs && pd in v'.dirs && Entry(v', pd, p) == Entry(v, pd, p)
  {
    EntryKeptAt(v, v', pd, lo, p);
  }

  lemma GrowingDone(v: Mem, free: seq<Frame>, v': Mem, free': seq<Frame>, pd: Frame, lo: nat, hi: nat, missed: bool)
    requires Shape(v) && Shape(v') && Growing(v, free, v', free', pd, lo, hi, missed)
    ensures pd in v.dirs && pd in v'.dirs && lo <= hi <= NUSER && KeptBut(v, v', pd, lo, hi)
    ensures Grown(v', free', pd, lo, hi, free)
    ensures if missed then lo < hi && NeedsTable(v.frames[pd], lo, hi - 1) && |free| + 1 == Need(v.frames[pd], lo, hi)
            else |free| == |free'| + Need(v.frames[pd], lo, hi) && TablesMade(v.frames[pd], v'.frames[pd], lo, hi)
    ensures lo < hi ==> (Entry(v', pd, hi - 1) == 0 <==> missed)
    ensures DirsSame(v, v', pd)
  {
    SpentAll(v.frames[pd], |free|, v'.frames[pd], |free'|, lo, hi, missed);
  }

  /** No frame left before page p: too few for the whole range. */
  lemma GrowingFails(v: Mem, free: seq<Frame>, v': Mem, pd: Frame, lo: nat, p: nat, hi: nat, missed: bool)
    requires Shape(v) && Shape(v') && p < hi <= NUSER && Growing(v, free, v', [], pd, lo, p, missed)
    ensures |free| < hi - lo + NENT
    ensures |free| <
            if NeedsTable(v.frames[pd], lo, hi - 1) then Need(v.frames[pd], lo, hi) - 1 else Need(v.frames[pd], lo, hi)
  {
    TabsBound(v'.frames[pd]);
    SpentFails(v.frames[pd], |free|, v'.frames[pd], lo, p, hi, missed);
  }

  /** Failing in the middle, allocuvm() takes back what it has mapped. */
  lemma UndoGrowth(v: Mem, free: seq<Frame>, v1: Mem, free1: seq<Frame>, v2: Mem, free2: seq<Frame>, pd: Frame,
      lo: nat, p: nat, hi: nat, missed: bool)
    requires Shape(v) && Shape(v1) && Shape(v2) && pd in v2.dirs && p < hi <= NUSER
    requires Growing(v, free, v1, free1, pd, lo, p, missed)
    requires Dealloc(v1, free1, v2, free2, pd, Begin(v1, pd, lo, hi), hi)
    requires forall q :: lo <= q < hi ==> Entry(v, pd, q) == 0
    ensures KeptBut(v, v2, pd, 0, 0)
  {
    var start := Begin(v1, pd, lo, hi);
    forall q | lo <= q < hi ensures Entry(v2, pd, q) == 0 {
      if q < start {
        assert p > lo + 1 ==> ZeroPage(v1, pd, lo, free);
        assert q >= p ==> Kept(v, v1, pd, q);
        assert Entry(v1, pd, q) == 0 && Kept(v1, v2, pd, q);
      }
    }
    hide Entry, Shape, Addr, HasTable;
    forall d, q | d in v.dirs && 0 <= q < NPAGE ensures Kept(v, v2, d, q) {
      if !(d == pd && lo <= q < hi) {
        assert Kept(v, v1, d, q) && Kept(v1, v2, d, q);
      }
    }
  }

  lemma UserBits(f: Frame)
    ensures var w := Make(f, PTE_W | PTE_U | PTE_P); IsP(w) && Addr(w) == f && Flags(w) == PTE_W | PTE_U | PTE_P
  {
    MakeParts(f, PTE_W | PTE_U | PTE_P);
  }

  lemma HeldNotDir(v: Mem, free: seq<Frame>, f: Frame)
    requires Shape(v) && Held(v, free, f)
    ensures f !in v.dirs
  {
    assert !Owns(v, Dir(f), f);
  }

  lemma FillView(v: Mem, v': Mem, f: Frame, pd: Frame, p: nat)
    requires Shape(v) && Shape(v') && v'.dirs == v.dirs && KeptBut(v, v', f, 0, 0) && pd in v.dirs && p < NPAGE
    requires f !in v.dirs && v'.frames == v.frames[f := Zeros()]
    ensures Entry(v', pd, p) == Entry(v, pd, p) && HasTable(v', pd, p) == HasTable(v, pd, p)
  {
    assert Kept(v, v', pd, p);
  }

  lemma EntryKeptAt(v: Mem, v': Mem, pd: Frame, lo: nat, p: nat)
    requires Shape(v) && Shape(v') && KeptBut(v, v', pd, lo, p) && pd in v.dirs && lo <= p < NPAGE
    ensures Entry(v', pd, p) == Entry(v, pd, p)
  {
    assert Kept(v, v', pd, p);
  }

  /** f is the table of one of the first n entries of the directory. */
  ghost predicate TableBelow(v: Mem, pd: Frame, n: nat, f: Frame)
    requires pd in v.frames && n <= |v.frames[pd]|
  {
    exists k :: 0 <= k < n && IsP(v.frames[pd][k]) && f == Addr(v.frames[pd][k])
  }

  /** Every other address space is as it was. */
  ghost predicate OthersKept(v: Mem, v': Mem, pd: Frame)
    requires Shape(v) && Shape(v')
  {
    v'.dirs == v.dirs - {pd} && forall d, p :: d in v'.dirs && 0 <= p < NPAGE ==> Kept(v, v', d, p)
  }

  lemma FreeKeeps(v: Mem, free: seq<Frame>, f: Frame, w: Words)
    requires Inv(v, free) && Clean(v) && Held(v, free, f) && |w| == NENT
    ensures var v' := Write(v, f, w);
            && Inv(v', [f] + free) && Clean(v') && KeptBut(v, v', f, 0, 0)
            && forall h :: h != f ==> HoldsOn(v, free, v', [f] + free, h)
  {
    WriteInv(v, free, f, w);
    FillKeeps(v, free, f, w);
    PutInv(Write(v, f, w), free, f);
  }

  lemma FreevmKept(v: Mem, free: seq<Frame>, v1: Mem, free1: seq<Frame>, v2: Mem, pd: Frame, start: nat)
    requires Shape(v) && Shape(v1) && Shape(v2) && pd in v.dirs && pd in v1.dirs && v1.dirs == v.dirs
    requires Shape(Mem(v1.frames, v2.dirs))
    requires Dealloc(v, free, v1, free1, pd, start, NUSER) && v2.dirs == v.dirs - {pd}
    requires KeptBut(Mem(v1.frames, v2.dirs), v2, pd, 0, 0)
    ensures OthersKept(v, v2, pd)
  {
    forall d, p | d in v2.dirs && 0 <= p < NPAGE ensures Kept(v, v2, d, p) {
      assert Kept(v, v1, d, p) && Kept(Mem(v1.frames, v2.dirs), v2, d, p);
      assert Entry(Mem(v1.frames, v2.dirs), d, p) == Entry(v1, d, p);
    }
  }

  lemma FreevmFrames(v: Mem, free: seq<Frame>, v1: Mem, free1: seq<Frame>, pd: Frame, start: nat, free2: seq<Frame>)
    requires Shape(v) && Shape(v1) && pd in v.dirs && pd in v1.dirs && v1.frames[pd] == v.frames[pd]
    requires Dealloc(v, free, v1, free1, pd, start, NUSER)
    requires forall q :: 0 <= q < start && q < NUSER ==> Entry(v, pd, q) == 0
    requires forall f :: f in free2 <==> f in free1 || f == pd || TableBelow(v1, pd, NENT, f)
    ensures forall f :: f in free2 <==> f in free || OwnedBy(v, pd, f)
  {
    assert !IsP(0);
    hide Entry, IsP, Addr, Shape, OwnedBy, KeptBut, Kept;
    forall f ensures f in free2 <==> f in free || OwnedBy(v, pd, f) {
      OwnedParts(v, pd, f);
    }
  }

  lemma FreevmHolds(v: Mem, free: seq<Frame>, v1: Mem, free1: seq<Frame>, v2: Mem, free2: seq<Frame>, pd: Frame,
      h: Frame)
    requires Inv(v1, free1) && Shape(v) && Shape(v2) && pd in v1.dirs && Shape(Mem(v1.frames, v1.dirs - {pd}))
    requires HoldsOn(v, free, v1, free1, h)
    requires h != pd && !TableBelow(v1, pd, NENT, h) ==> HoldsOn(Mem(v1.frames, v1.dirs - {pd}), free1, v2, free2, h)
    ensures HoldsOn(v, free, v2, free2, h)
  {
    if Held(v, free, h) {
      RemoveDirInv(v1, free1, pd);
      assert Owns(v1, Dir(pd), pd);
      if TableBelow(v1, pd, NENT, h) {
        var k :| 0 <= k < NENT && IsP(v1.frames[pd][k]) && h == Addr(v1.frames[pd][k]);
        assert Owns(v1, Table(pd, k), h);
      }
    }
  }

  lemma EntriesKept(v: Mem, v': Mem, pd: Frame, lo: nat, hi: nat)
    requires Shape(v) && Shape(v') && KeptBut(v, v', pd, lo, hi) && pd in v.dirs && pd in v'.dirs
    ensures forall q :: 0 <= q < NPAGE && !(lo <= q < hi) ==> Entry(v', pd, q) == Entry(v, pd, q)
  {
    hide Entry, Shape;
    forall q | 0 <= q < NPAGE && !(lo <= q < hi) ensures Entry(v', pd, q) == Entry(v, pd, q) {
      assert Kept(v, v', pd, q);
    }
  }

  lemma CleanEntry(v: Mem, free: seq<Frame>, pd: Frame, p: nat)
    requires Inv(v, free) && Clean(v) && pd in v.dirs && p < NUSER && !IsP(Entry(v, pd, p))
    ensures Entry(v, pd, p) == 0
  {
  }

  lemma NoTable(v: Mem, pd: Frame, p: nat)
    requires Shape(v) && pd in v.dirs && p < NPAGE && !HasTable(v, pd, p)
    ensures forall q :: 0 <= q < NPAGE && q / NENT == p / NENT ==> Entry(v, pd, q) == 0
  {
  }

  lemma TableOn(v: Mem, pd: Frame, p: nat)
    requires Shape(v) && pd in v.dirs && p + 1 < NPAGE
    ensures (p + 1) % NENT != 0 ==> HasTable(v, pd, p + 1) == HasTable(v, pd, p)
  {
  }

  /** The first of the pages p, p + 1024, ... below hi that has a page table; hi or more if there is none. */
  ghost function Begin(v: Mem, pd: Frame, p: nat, hi: nat): (r: nat)
    requires Shape(v) && pd in v.dirs && hi <= NPAGE
    ensures r >= p
    decreases hi - p
  {
    if p >= hi || HasTable(v, pd, p) then p else Begin(v, pd, p + NENT, hi)
  }

  lemma BeginStep(v: Mem, pd: Frame, p: nat, hi: nat)
    requires Shape(v) && pd in v.dirs && p < hi <= NPAGE
    ensures if HasTable(v, pd, p) then Begin(v, pd, p, hi) == p
            else Begin(v, pd, p, hi) == Begin(v, pd, p + NENT, hi) >= p + NENT
  {
  }

  /** Starting at the beginning of a table, nothing that is mapped is passed over. */
  lemma {:induction false} BeginAligned(v: Mem, pd: Frame, p: nat, hi: nat)
    requires Shape(v) && pd in v.dirs && hi <= NPAGE && p % NENT == 0
    ensures forall q :: p <= q < Begin(v, pd, p, hi) && q < hi ==> Entry(v, pd, q) == 0
    decreases hi - p
  {
    if p < hi && !HasTable(v, pd, p) {
      BeginAligned(v, pd, p + NENT, hi);
      NoTable(v, pd, p);
    }
  }

  /** In the middle of deallocuvm()'s loop: pages from `start` up to p are unmapped, the rest is kept. */
  ghost predicate Deallocating(v: Mem, free: seq<Frame>, v': Mem, free': seq<Frame>, pd: Frame, start: nat, p: nat,
      hi: nat)
    requires Shape(v) && Shape(v') && pd in v.dirs && pd in v'.dirs && hi <= NPAGE
  {
    && KeptBut(v, v', pd, start, if p < hi then p else hi)
    && (forall q :: start <= q < p && q < hi ==> Entry(v', pd, q) == 0)
    && (forall f :: f in free' <==> f in free || FreedFrom(v, pd, start, if p < hi then p else hi, f))
  }

  lemma DeallocStart(v: Mem, free: seq<Frame>, pd: Frame, start: nat, hi: nat)
    requires Shape(v) && pd in v.dirs && hi <= NPAGE && start < hi && KeptBut(v, v, pd, 0, 0)
    ensures Deallocating(v, free, v, free, pd, start, start, hi)
  {
  }

  lemma DeallocStep(v: Mem, free: seq<Frame>, v1: Mem, free1: seq<Frame>, v2: Mem, free2: seq<Frame>, pd: Frame,
      start: nat, hi: nat, p: nat)
    requires Shape(v) && Shape(v1) && Shape(v2) && pd in v.dirs && pd in v1.dirs && pd in v2.dirs && hi <= NPAGE
    requires start <= p < hi
    requires Deallocating(v, free, v1, free1, pd, start, p, hi) && KeptBut(v1, v2, pd, p, p + 1)
    requires Entry(v2, pd, p) == 0
    requires free2 == if IsP(Entry(v1, pd, p)) then [Addr(Entry(v1, pd, p))] + free1 else free1
    ensures Deallocating(v, free, v2, free2, pd, start, p + 1, hi)
  {
    KeptTrans(v, v1, v2, Part(pd, start, p), Part(pd, p, p + 1), Part(pd, start, p + 1));
    EntriesKept(v1, v2, pd, p, p + 1);
    EntriesKept(v, v1, pd, start, p);
    hide Entry, Shape, Addr, IsP, KeptBut;
    forall f
      ensures FreedFrom(v, pd, start, p + 1, f) <==>
              FreedFrom(v, pd, start, p, f) || (IsP(Entry(v, pd, p)) && f == Addr(Entry(v, pd, p)))
    {
      if IsP(Entry(v, pd, p)) && f == Addr(Entry(v, pd, p)) {
        assert FreedFrom(v, pd, start, p + 1, f);
      }
    }
  }

  /** A missing table, met at its beginning: its pages are not mapped. */
  lemma DeallocSkip(v: Mem, free: seq<Frame>, v': Mem, free': seq<Frame>, pd: Frame, start: nat, p: nat, hi: nat)
    requires Shape(v) && Shape(v') && pd in v.dirs && pd in v'.dirs && hi <= NPAGE && start <= p < hi && p % NENT == 0
    requires Deallocating(v, free, v', free', pd, start, p, hi)
    requires forall q :: p <= q < p + NENT && q < NPAGE ==> Entry(v', pd, q) == 0
    ensures Deallocating(v, free, v', free', pd, start, p + NENT, hi)
  {
    EntriesKept(v, v', pd, start, p);
    assert !IsP(0);
    hide Entry, Shape, Addr, IsP, Kept;
    var p' := if p + NENT < hi then p + NENT else hi;
    forall f ensures FreedFrom(v, pd, start, p', f) <==> FreedFrom(v, pd, start, p, f) {
      if q :| start <= q < p && IsP(Entry(v, pd, q)) && f == Addr(Entry(v, pd, q)) {
        assert start <= q < p';
      }
    }
  }

  lemma DeallocDone(v: Mem, free: seq<Frame>, v': Mem, free': seq<Frame>, pd: Frame, lo: nat, start: nat, p: nat,
      hi: nat)
    requires Shape(v) && Shape(v') && pd in v.dirs && pd in v'.dirs && hi <= NPAGE && lo <= start && hi <= p
    requires KeptBut(v, v, pd, 0, 0)
    requires if p <= start then v' == v && free' == free else Deallocating(v, free, v', free', pd, start, p, hi)
    ensures Dealloc(v, free, v', free', pd, start, hi)
    ensures (forall q :: lo <= q < hi ==> Entry(v', pd, q) == 0) <==>
              (forall q :: lo <= q < start && q < hi ==> Entry(v, pd, q) == 0)
  {
    if p > start {
      EntriesKept(v, v', pd, start, hi);
    }
    hide Entry, Shape, Addr, IsP, Kept;
  }

  /** PGROUNDUP, in pages. */
  function Up(sz: nat): nat {
    (sz + PGSIZE - 1) / PGSIZE
  }

  /** f was the frame of a page of the range. */
  ghost predicate FreedFrom(v: Mem, pd: Frame, lo: nat, hi: nat, f: Frame)
    requires Shape(v) && pd in v.dirs && hi <= NPAGE
  {
    exists q :: lo <= q < hi && IsP(Entry(v, pd, q)) && f == Addr(Entry(v, pd, q))
  }

  /** The pages from lo up to hi have been unmapped and exactly their frames freed; all others are kept. */
  ghost predicate Dealloc(v: Mem, free: seq<Frame>, v': Mem, free': seq<Frame>, pd: Frame, lo: nat, hi: nat)
    requires Shape(v) && Shape(v') && pd in v.dirs && pd in v'.dirs && hi <= NPAGE
  {
    && KeptBut(v, v', pd, lo, hi)
    && (forall q :: lo <= q < hi ==> Entry(v', pd, q) == 0)
    && (forall f :: f in free' <==> f in free || FreedFrom(v, pd, lo, hi, f))
  }

  /** How many pages a range of addresses touches. */
  function PagesOf(va: nat, size: nat): nat
    requires size > 0
  {
    (va + size - 1) / PGSIZE - va / PGSIZE + 1
  }

  /** The k-th frame behind f. */
  function Nth(f: Frame, k: nat): Frame {
    if k == 0 then f else Frame(Nth(f, k - 1).n + 1)
  }

  /** m pages from `first` on show consecutive frames. */
  ghost predicate RangeMapped(v: Mem, pd: Frame, first: nat, m: nat, f: Frame, perm: bv32)
    requires Shape(v)
  {
    pd in v.dirs && first + m <= NPAGE &&
    forall q :: first <= q < first + m ==> Entry(v, pd, q) == Make(Nth(f, q - first), perm | PTE_P)
  }

  lemma InvShape(v: Mem, free: seq<Frame>)
    requires Inv(v, free)
    ensures Shape(v) && forall s, f :: Owns(v, s, f) ==> f in v.frames
  {
  }

  lemma HoldsSame(v: Mem, free: seq<Frame>)
    requires Shape(v)
    ensures forall h :: HoldsOn(v, free, v, free, h)
  {
  }

  lemma EntryKept(v: Mem, v': Mem, pd: Frame, first: nat, m: nat)
    requires Shape(v) && Shape(v') && KeptBut(v, v', pd, first, first + m) && pd in v.dirs && first + m < NPAGE
    ensures Entry(v', pd, first + m) == Entry(v, pd, first + m)
  {
    assert Kept(v, v', pd, first + m);
  }

  lemma MappedBits(g: Frame, perm: bv32)
    requires perm <= 0xFFF
    ensures var w := Make(g, perm | PTE_P); IsP(w) && Addr(w) == g
  {
    assert perm | PTE_P <= 0xFFF && IsP(perm | PTE_P);
    MakeParts(g, perm | PTE_P);
  }

  /** One page more. */
  lemma MapStep(v: Mem, v1: Mem, v2: Mem, pd: Frame, first: nat, m: nat, f: Frame, perm: bv32, w: bv32)
    requires Shape(v) && Shape(v1) && Shape(v2) && pd in v.dirs && first + m < NPAGE
    requires RangeMapped(v1, pd, first, m, f, perm) && KeptBut(v, v1, pd, first, first + m)
    requires KeptBut(v1, v2, pd, first + m, first + m + 1) && w == Make(Nth(f, m), perm | PTE_P) && pd in v2.dirs
    requires Entry(v2, pd, first + m) == w
    ensures RangeMapped(v2, pd, first, m + 1, f, perm) && KeptBut(v, v2, pd, first, first + m + 1)
  {
    hide Entry, Make, Shape, IsP, Addr, KeptBut, Kept, Nth;
    KeptTrans(v, v1, v2, Part(pd, first, first + m), Part(pd, first + m, first + m + 1),
        Part(pd, first, first + m + 1));
    EntriesKept(v1, v2, pd, first + m, first + m + 1);
    forall q | first <= q < first + m + 1 ensures Entry(v2, pd, q) == Make(Nth(f, q - first), perm | PTE_P) {
      assert q < first + m ==> Entry(v1, pd, q) == Make(Nth(f, q - first), perm | PTE_P);
    }
  }

  lemma HoldsTrans(v: Mem, free: seq<Frame>, v1: Mem, free1: seq<Frame>, v2: Mem, free2: seq<Frame>, h: Frame)
    requires Shape(v) && Shape(v1) && Shape(v2) && HoldsOn(v, free, v1, free1, h) && HoldsOn(v1, free1, v2, free2, h)
    ensures HoldsOn(v, free, v2, free2, h)
  {
  }

  /** In the middle of mappages()' loop: m pages from `first` on are mapped. */
  ghost predicate Mapping(v: Mem, free: seq<Frame>, v': Mem, free': seq<Frame>, pd: Frame, first: nat, m: nat, f: Frame,
      perm: bv32)
    requires Shape(v) && Shape(v')
  {
    && pd in v.dirs && pd in v'.dirs && first + m <= NPAGE
    && |free'| + |Tabs(v'.frames[pd])| == |free| + |Tabs(v.frames[pd])|
    && RangeMapped(v', pd, first, m, f, perm) && KeptBut(v, v', pd, first, first + m) && DirsSame(v, v', pd)
    && (forall h :: h in free' ==> h in free)
    && (forall h :: first >= NUSER || h != f ==> HoldsOn(v, free, v', free', h))
  }

  lemma MappingStart(v: Mem, free: seq<Frame>, pd: Frame, first: nat, f: Frame, perm: bv32)
    requires Shape(v) && pd in v.dirs && first <= NPAGE && KeptBut(v, v, pd, 0, 0)
    ensures Mapping(v, free, v, free, pd, first, 0, f, perm)
  {
    KeptMono(v, v, Part(pd, 0, 0), Part(pd, first, first));
    HoldsSame(v, free);
  }

  lemma MappingTurn(v: Mem, free: seq<Frame>, v1: Mem, free1: seq<Frame>, v2: Mem, free2: seq<Frame>, pd: Frame,
      first: nat, m: nat, f: Frame, perm: bv32, w: bv32)
    requires Shape(v) && Shape(v1) && Shape(v2) && Mapping(v, free, v1, free1, pd, first, m, f, perm)
    requires DirsSame(v1, v2, pd) && v2.dirs <= v1.dirs
    requires pd in v2.dirs && first + m < NPAGE && w == Make(Nth(f, m), perm | PTE_P) && Entry(v2, pd, first + m) == w
    requires KeptBut(v1, v2, pd, first + m, first + m + 1) && forall h :: h in free2 ==> h in free1
    requires |free2| + |Tabs(v2.frames[pd])| == |free1| + |Tabs(v1.frames[pd])|
    requires forall h :: first >= NUSER || h != f ==> HoldsOn(v1, free1, v2, free2, h)
    ensures Mapping(v, free, v2, free2, pd, first, m + 1, f, perm)
  {
    hide Entry, Make, IsP, Addr, KeptBut, RangeMapped, HoldsOn, Tabs, Nth;
    MapStep(v, v1, v2, pd, first, m, f, perm, w);
    DirsTrans(v, v1, v2, pd);
    forall h | first >= NUSER || h != f ensures HoldsOn(v, free, v2, free2, h) {
      HoldsTrans(v, free, v1, free1, v2, free2, h);
    }
  }

  lemma MappingDone(v: Mem, free: seq<Frame>, v': Mem, free': seq<Frame>, pd: Frame, first: nat, m: nat, f: Frame,
      perm: bv32)
    requires Shape(v) && Shape(v') && Mapping(v, free, v', free', pd, first, m, f, perm)
    ensures pd in v.dirs && pd in v'.dirs && first + m <= NPAGE
    ensures |free'| + |Tabs(v'.frames[pd])| == |free| + |Tabs(v.frames[pd])|
    ensures RangeMapped(v', pd, first, m, f, perm) && KeptBut(v, v', pd, first, first + m) && DirsSame(v, v', pd)
    ensures forall h :: h in free' ==> h in free
    ensures forall h :: first >= NUSER || h != f ==> HoldsOn(v, free, v', free', h)
    ensures first + m < NPAGE ==> Entry(v', pd, first + m) == Entry(v, pd, first + m)
  {
    if first + m < NPAGE {
      EntryKept(v, v', pd, first, m);
    }
  }

  /** What storing the entry of an unmapped page keeps. */
  lemma MapKeeps(v: Mem, free: seq<Frame>, pd: Frame, p: nat, w: bv32)
    requires Inv(v, free) && Clean(v) && pd in v.dirs && p < NPAGE && HasTable(v, pd, p) && TableOk(v, pd, p / NENT)
    requires IsP(w) && (p < NUSER ==> Held(v, free, Addr(w)))
    ensures Addr(v.frames[pd][p / NENT]) !in free && Addr(v.frames[pd][p / NENT]) != pd
    ensures var v' := SetEntry(v, pd, p, w);
            && Inv(v', free) && Clean(v') && Entry(v', pd, p) == w && HasTable(v', pd, p)
            && KeptBut(v, v', pd, p, p + 1)
            && (p < NUSER ==> SameFrame(v, v', Addr(w)))
            && (forall h :: !(p < NUSER && h == Addr(w)) ==> HoldsOn(v, free, v', free, h))
  {
    var v', t := SetEntry(v, pd, p, w), Addr(v.frames[pd][p / NENT]);
    assert Owns(v, Table(pd, p / NENT), t) && Owns(v, Dir(pd), pd);
    MapInv(v, free, pd, p, w);
    SetEntryView(v, pd, p, w);
    SetEntryOwns(v, free, pd, p, w);
    forall d, q | d in v.dirs && 0 <= q < NPAGE && !(d == pd && p <= q < p + 1) ensures Kept(v, v', d, q) {
      WriteKeeps(v, free, t, v.frames[t][p % NENT := w], d, q);
    }
  }

  lemma PdeBits(t: Frame)
    ensures var w := Make(t, PTE_P | PTE_W | PTE_U); IsP(w) && Addr(w) == t && Open(w)
  {
    assert Open(Make(t, PTE_P | PTE_W | PTE_U));
    MakeParts(t, PTE_P | PTE_W | PTE_U);
  }

  lemma FlagBits(w: bv32)
    ensures w & PTE_U == Flags(w) & PTE_U && w & PTE_W == Flags(w) & PTE_W
  {
  }

  /** Every page that has been added may be read and written from user mode. */
  lemma GrownAccess(v: Mem, now: seq<Frame>, pd: Frame, lo: nat, hi: nat, free: seq<Frame>)
    requires Shape(v) && Clean(v) && pd in v.dirs && lo <= hi <= NPAGE && Grown(v, now, pd, lo, hi, free)
    ensures forall q :: lo <= q < hi && Entry(v, pd, q) != 0 ==> UserWrites(v, pd, q)
  {
    forall q | lo <= q < hi && Entry(v, pd, q) != 0 ensures UserWrites(v, pd, q) {
      assert ZeroPage(v, pd, q, free);
      AccessIsEntry(v, pd, q);
      FlagBits(Entry(v, pd, q));
    }
  }

  /** A copied page may be used from user mode exactly as the page it was copied from. */
  lemma CopiedAccess(v: Mem, v': Mem, pd: Frame, d: Frame, q: nat, free: seq<Frame>)
    requires Shape(v) && Clean(v) && Shape(v') && Clean(v') && pd in v.dirs && d in v'.dirs && q < NPAGE
    requires CopiedPage(v, v', pd, d, q, free)
    ensures SameAccess(v, v', pd, d, q)
  {
    hide Clean, Entry;
    OpenOf(v);
    OpenOf(v');
    AccessIsEntry(v, pd, q);
    AccessIsEntry(v', d, q);
    FlagBits(Entry(v, pd, q));
    FlagBits(Entry(v', d, q));
  }

  /** Page q of d may be used from user mode as page q of pd was. */
  ghost predicate SameAccess(v: Mem, v': Mem, pd: Frame, d: Frame, q: nat)
    requires Shape(v) && Shape(v') && pd in v.dirs && d in v'.dirs && q < NPAGE
  {
    (UserReads(v', d, q) <==> UserReads(v, pd, q)) && (UserWrites(v', d, q) <==> UserWrites(v, pd, q))
  }

  lemma OpenOf(v: Mem)
    requires Shape(v) && Clean(v)
    ensures DirsOpen(v)
  {
  }

  lemma ProtectedOpen(v: Mem, v': Mem, pd: Frame, first: nat, n: nat, prot: int)
    requires Shape(v) && Clean(v) && Protected(v, v', pd, first, n, prot)
    ensures DirsOpen(v')
  {
    hide Open, Entry, Protect;
    forall d | d in v'.dirs ensures SameFrame(v, v', d) {
    }
  }

  /**
   After mprotect() a covered page may be read from user mode if and only if the request asks for
   reading, and written if and only if it asks for both; every other page as before.
   */
  lemma ProtectedAccess(v: Mem, v': Mem, pd: Frame, first: nat, n: nat, prot: int, d: Frame, q: nat)
    requires Shape(v) && Clean(v) && d in v.dirs && q < NPAGE && Protected(v, v', pd, first, n, prot)
    requires d == pd && first <= q < first + n ==> HasTable(v, pd, q)
    ensures d == pd && first <= q < first + n ==>
              && (UserReads(v', pd, q) <==> prot == PROT_READ || prot == PROT_READ + PROT_WRITE)
              && (UserWrites(v', pd, q) <==> prot == PROT_READ + PROT_WRITE)
    ensures !(d == pd && first <= q < first + n) ==> SameAccess(v, v', d, d, q)
  {
    ProtectedOpen(v, v', pd, first, n, prot);
    OpenOf(v);
    hide Clean, Entry, Protect, Open, HasTable, DirsOpen;
    AccessIsEntry(v, d, q);
    AccessIsEntry(v', d, q);
    ProtectParts(Entry(v, d, q), prot);
  }

  lemma ProtectedAll(v: Mem, v': Mem, pd: Frame, first: nat, n: nat, prot: int)
    requires Shape(v) && Clean(v) && pd in v.dirs && first + n <= NPAGE && Protected(v, v', pd, first, n, prot)
    requires forall q :: first <= q < first + n ==> HasTable(v, pd, q)
    ensures forall q :: first <= q < first + n ==>
              && (UserReads(v', pd, q) <==> prot == PROT_READ || prot == PROT_READ + PROT_WRITE)
              && (UserWrites(v', pd, q) <==> prot == PROT_READ + PROT_WRITE)
    ensures forall d, q :: d in v.dirs && 0 <= q < NPAGE && !(d == pd && first <= q < first + n) ==>
              SameAccess(v, v', d, d, q)
  {
    hide Clean, Entry, Protect, HasTable, UserReads, UserWrites, SameAccess;
    forall q | first <= q < first + n
      ensures UserReads(v', pd, q) <==> prot == PROT_READ || prot == PROT_READ + PROT_WRITE
      ensures UserWrites(v', pd, q) <==> prot == PROT_READ + PROT_WRITE
    {
      ProtectedAccess(v, v', pd, first, n, prot, pd, q);
    }
    forall d, q | d in v.dirs && 0 <= q < NPAGE && !(d == pd && first <= q < first + n)
      ensures SameAccess(v, v', d, d, q)
    {
      ProtectedAccess(v, v', pd, first, n, prot, d, q);
    }
  }

  lemma KeptSame(v: Mem, pd: Frame)
    requires Shape(v)
    requires forall s, f :: Owns(v, s, f) ==> f in v.frames
    ensures KeptBut(v, v, pd, 0, 0)
  {
    forall d, p | d in v.dirs && 0 <= p < NPAGE ensures Kept(v, v, d, p) {
      if p < NUSER && IsP(Entry(v, d, p)) {
        assert Owns(v, Page(d, p), Addr(Entry(v, d, p)));
      }
    }
  }

  lemma FillKeeps(v: Mem, free: seq<Frame>, f: Frame, w: Words)
    requires Inv(v, free) && Held(v, free, f) && |w| == NENT && Shape(Write(v, f, w)) && SameView(v, Write(v, f, w))
    requires Clean(v)
    ensures KeptBut(v, Write(v, f, w), f, 0, 0) && Clean(Write(v, f, w))
  {
    hide Open;
    forall d | d in v.dirs ensures d != f {
      assert Owns(v, Dir(d), d);
    }
    forall d, p | d in v.dirs && 0 <= p < NPAGE ensures Kept(v, Write(v, f, w), d, p) {
      WriteKeeps(v, free, f, w, d, p);
    }
  }

  lemma AddTableKeeps(v: Mem, free: seq<Frame>, pd: Frame, i: nat, w: bv32)
    requires Inv(v, free) && pd in v.dirs && i < NENT && !IsP(v.frames[pd][i]) && Clean(v)
    requires IsP(w) && Open(w) && Held(v, free, Addr(w)) && v.frames[Addr(w)] == Zeros()
    ensures var v' := AddTable(v, pd, i, w);
            Inv(v', free) && SameView(v, v') && KeptBut(v, v', pd, 0, 0) && Clean(v') && pd !in free
    ensures forall h :: h != Addr(w) ==> HoldsOn(v, free, AddTable(v, pd, i, w), free, h)
  {
    assert Owns(v, Dir(pd), pd);
    AddTableView(v, free, pd, i, w);
    AddTableInv(v, free, pd, i, w);
    forall d, p | d in v.dirs && 0 <= p < NPAGE ensures Kept(v, AddTable(v, pd, i, w), d, p) {
      WriteKeeps(v, free, pd, v.frames[pd][i := w], d, p);
    }
  }
}
