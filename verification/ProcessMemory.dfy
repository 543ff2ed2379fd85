/**
 The memory of a process (proc.c growproc() and fork(), over vm.c): which pages below its size are
 mapped, over every growth, shrinking and copy; and runs on which the vm.c operations miss.
 */
module ProcessMemory {
  import opened Paging
  import opened FrameOwners
  import opened AddressSpaces
  import opened Vm

  /** Exactly the pages below sz are mapped in the user half. */
  ghost predicate Image(v: Mem, pd: Frame, sz: nat)
    requires Shape(v)
  {
    && pd in v.dirs && Up(sz) <= NUSER
    && (forall q :: 0 <= q < Up(sz) ==> IsP(Entry(v, pd, q)))
    && (forall q :: Up(sz) <= q < NUSER ==> Entry(v, pd, q) == 0)
  }

  /** The same with page q missing. */
  ghost predicate Holed(v: Mem, pd: Frame, sz: nat, q: nat)
    requires Shape(v)
  {
    && pd in v.dirs && q < Up(sz) <= NUSER && Entry(v, pd, q) == 0
    && (forall p :: 0 <= p < Up(sz) && p != q ==> IsP(Entry(v, pd, p)))
    && (forall p :: Up(sz) <= p < NUSER ==> Entry(v, pd, p) == 0)
  }

  /** An address space whose pages are all kept shows the same image. */
  lemma ImageKept(v: Mem, v': Mem, pd: Frame, lo: nat, hi: nat, d: Frame, sz: nat)
    requires Shape(v) && Shape(v') && KeptBut(v, v', pd, lo, hi) && d in v.dirs && (d != pd || hi <= lo)
    ensures Image(v', d, sz) <==> Image(v, d, sz)
  {
    hide Entry, IsP, Addr, Shape;
    forall q | 0 <= q < NUSER ensures Entry(v', d, q) == Entry(v, d, q) {
      assert Kept(v, v', d, q);
    }
  }

  /** The page where deallocuvm() starts is the first one asked for, if that page has a page table. */
  lemma BeginThere(v: Mem, pd: Frame, lo: nat, hi: nat)
    requires Shape(v) && pd in v.dirs && lo < hi <= NPAGE && IsP(Entry(v, pd, lo))
    ensures Begin(v, pd, lo, hi) == lo
  {
    assert !IsP(0);
  }

  /**
   Nothing that is mapped is passed over if the first page has a page table, or if no page is mapped
   above one that has none.
   */
  lemma NothingPassedOver(v: Mem, pd: Frame, lo: nat, hi: nat)
    requires Shape(v) && pd in v.dirs && lo < hi <= NPAGE
    requires HasTable(v, pd, lo) || forall p, q :: lo <= p < q < hi && !HasTable(v, pd, p) ==> Entry(v, pd, q) == 0
    ensures forall q :: lo <= q < Begin(v, pd, lo, hi) && q < hi ==> Entry(v, pd, q) == 0
  {
    BeginStep(v, pd, lo, hi);
    if !HasTable(v, pd, lo) {
      NoTable(v, pd, lo);
      forall q | lo <= q < hi ensures Entry(v, pd, q) == 0 {
        assert lo < q ==> !HasTable(v, pd, lo);
      }
    }
  }

  /** Shrinking an image from sz to less. */
  lemma ImageShrinks(v: Mem, free: seq<Frame>, v': Mem, free': seq<Frame>, pd: Frame, sz: nat, less: nat)
    requires Shape(v) && Shape(v') && Image(v, pd, sz) && pd in v'.dirs && less < sz
    requires Dealloc(v, free, v', free', pd, Begin(v, pd, Up(less), Up(sz)), Up(sz))
    ensures Image(v', pd, less) && (less == 0 ==> !Image(v', pd, sz))
  {
    if Up(less) < Up(sz) {
      BeginThere(v, pd, Up(less), Up(sz));
    }
    assert !IsP(0) && (less == 0 ==> Entry(v', pd, 0) == 0);
    hide Entry, IsP, Addr, Shape;
    forall q | 0 <= q < NUSER && !(Up(less) <= q < Up(sz)) ensures Entry(v', pd, q) == Entry(v, pd, q) {
      assert Kept(v, v', pd, q);
    }
  }

  /** Growing an image from sz to more. */
  lemma ImageGrows(v: Mem, free: seq<Frame>, v': Mem, free': seq<Frame>, pd: Frame, sz: nat, more: nat)
    requires Shape(v) && Shape(v') && Image(v, pd, sz) && pd in v'.dirs && sz <= more < NUSER * PGSIZE
    requires Grown(v', free', pd, Up(sz), Up(more), free) && KeptBut(v, v', pd, Up(sz), Up(more))
    ensures Image(v', pd, more) <==> Up(more) == Up(sz) || Entry(v', pd, Up(more) - 1) != 0
    ensures !Image(v', pd, more) ==> Holed(v', pd, more, Up(more) - 1) && !HasTable(v', pd, Up(more) - 1)
  {
    assert !IsP(0);
    assert Up(sz) < Up(more) ==> (Entry(v', pd, Up(more) - 1) != 0 <==> ZeroPage(v', pd, Up(more) - 1, free));
    hide Entry, IsP, Addr, Shape, HasTable;
    forall q | 0 <= q < NUSER && !(Up(sz) <= q < Up(more)) ensures Entry(v', pd, q) == Entry(v, pd, q) {
      assert Kept(v, v', pd, q);
    }
    forall q | Up(sz) <= q < Up(more) - 1 ensures IsP(Entry(v', pd, q)) {
      assert ZeroPage(v', pd, q, free);
    }
  }

  /** One frame too few, and the last page would have been the first to need its page table. */
  ghost predicate OneShort(v: Mem, free: seq<Frame>, pd: Frame, sz: nat, more: nat)
    requires Shape(v) && pd in v.dirs && sz <= more < NUSER * PGSIZE
  {
    var lo, hi := Up(sz), Up(more);
    hi > lo && NeedsTable(v.frames[pd], lo, hi - 1) && |free| + 1 == Need(v.frames[pd], lo, hi)
  }

  /**
   growproc(). `now` is the size the process has afterwards. Its image is what that size says in all
   cases but two: growing one frame short with the page table missing for the last page, and
   shrinking to nothing, which frees all pages and yet fails and leaves the size as it was.
   Shrinking by more than there is changes nothing and, unless the size is 0, succeeds.
   */
  method Growproc(m: Vm, pd: Frame, sz: nat, n: int) returns (ok: bool, now: nat)
    requires m.Valid() && Image(m.V(), pd, sz) && sz < NUSER * PGSIZE && -0x8000_0000 <= n < 0x8000_0000
    modifies m`frames, m`freelist, m`free
    ensures m.Valid() && pd in m.dirs
    ensures now == if ok && 0 <= sz + n then sz + n else sz
    ensures n == 0 ==> ok
    ensures n > 0 && sz + n >= NUSER * PGSIZE ==> !ok
    ensures n > 0 && sz + n < NUSER * PGSIZE ==>
              var enough := |old(m.free)| >= Need(old(m.frames)[pd], Up(sz), Up(sz + n));
              ok <==> enough || OneShort(old(m.V()), old(m.free), pd, sz, sz + n)
    ensures n < 0 ==> (ok <==> sz != 0 && sz + n != 0)
    ensures Image(m.V(), pd, now) <==>
            && !(sz > 0 && sz + n == 0)
            && !(n > 0 && sz + n < NUSER * PGSIZE && OneShort(old(m.V()), old(m.free), pd, sz, sz + n))
    ensures sz > 0 && sz + n == 0 ==> Image(m.V(), pd, 0)
    ensures n > 0 && sz + n < NUSER * PGSIZE && OneShort(old(m.V()), old(m.free), pd, sz, sz + n) ==>
              Holed(m.V(), pd, now, Up(now) - 1) && !HasTable(m.V(), pd, Up(now) - 1)
    ensures n < 0 ==> |m.free| >= |old(m.free)|
    ensures forall d, s :: d in old(m.dirs) && d != pd ==> (Image(m.V(), d, s) <==> old(Image(m.V(), d, s)))
  {
    hide Shape, Inv, Clean, Chain, Entry, HasTable, IsP, Addr, KeptBut, Dealloc, Grown, HoldsOn, Begin, Need,
        NeedsTable, TablesMade, ZeroPage;
    InvShape(m.V(), m.free);
    KeptSame(m.V(), pd);
    ghost var v, fr, lo, hi := m.V(), m.free, 0, 0;
    ok, now := true, sz;
    if n > 0 {
      var r := m.Allocuvm(pd, sz, sz + n);
      InvShape(m.V(), m.free);
      ok := r.Size?;
      if ok {
        now := sz + n;
        lo, hi := Up(sz), Up(now);
        ImageGrows(v, fr, m.V(), m.free, pd, sz, now);
      } else {
        NotPresent();
        ImageKept(v, m.V(), pd, 0, 0, pd, sz);
      }
    } else if n < 0 {
      var less := if sz + n < 0 then sz + n + 0x1_0000_0000 else sz + n;
      now := m.Deallocuvm(pd, sz, less);
      InvShape(m.V(), m.free);
      if less < sz {
        lo, hi := Begin(v, pd, Up(less), Up(sz)), Up(sz);
        ImageShrinks(v, fr, m.V(), m.free, pd, sz, less);
        DeallocKeeps(v, fr, m.V(), m.free, pd, lo, hi);
      }
      if now == 0 {
        ok, now := false, sz;
      }
    }
    forall d, s | d in v.dirs && d != pd ensures Image(m.V(), d, s) <==> Image(v, d, s) {
      ImageKept(v, m.V(), pd, lo, hi, d, s);
    }
  }

  lemma NotPresent()
    ensures !IsP(0)
  {
  }

  lemma DeallocKeeps(v: Mem, free: seq<Frame>, v': Mem, free': seq<Frame>, pd: Frame, lo: nat, hi: nat)
    requires Shape(v) && Shape(v') && pd in v.dirs && pd in v'.dirs && hi <= NPAGE
    requires Dealloc(v, free, v', free', pd, lo, hi)
    ensures KeptBut(v, v', pd, lo, hi)
  {
  }

  /** fork()'s copy of a process that has its image: it does not panic, and the child has the same image. */
  method ForkImage(m: Vm, pd: Frame, sz: nat, data: nat) returns (r: CopyResult)
    requires m.Valid() && Image(m.V(), pd, sz) && sz <= NUSER * PGSIZE && 0x80100 < data < 0x8E000
    modifies m`frames, m`freelist, m`free, m`dirs
    ensures m.Valid() && !r.Panics()
    ensures r.Copied? ==> r.d !in old(m.dirs) && Image(m.V(), r.d, sz)
    ensures forall d, s :: d in old(m.dirs) ==> d in m.dirs && (Image(m.V(), d, s) <==> old(Image(m.V(), d, s)))
  {
    hide Shape, Inv, Clean, Chain, Entry, IsP, Addr, KeptBut, HoldsOn, CopiedPage, Kernel, KernelMap;
    InvShape(m.V(), m.free);
    ghost var v, fr := m.V(), m.free;
    MapShape(data, 0);
    r := m.Copyuvm(pd, sz, data);
    InvShape(m.V(), m.free);
    forall d, s | d in v.dirs ensures d in m.dirs && (Image(m.V(), d, s) <==> Image(v, d, s)) {
      KeptDirs(v, m.V(), pd);
      ImageKept(v, m.V(), pd, 0, 0, d, s);
    }
    if r.Copied? {
      CopiedPresent(v, m.V(), pd, r.d, Up(sz), fr);
      forall q | Up(sz) <= q < NUSER ensures Entry(m.V(), r.d, q) == 0 {
        UserEmpty(data, q);
      }
    }
  }

  lemma KeptDirs(v: Mem, v': Mem, pd: Frame)
    requires Shape(v) && Shape(v') && KeptBut(v, v', pd, 0, 0)
    ensures v.dirs <= v'.dirs
  {
  }

  // How fork() comes to panic: allocuvm() one frame short, memory given back, fork().

  /** fork() of an image with one page missing: which of the two panics depends on that page's table. */
  method ForkHoled(m: Vm, pd: Frame, sz: nat, q: nat, data: nat) returns (r: CopyResult)
    requires m.Valid() && Holed(m.V(), pd, sz, q) && sz <= NUSER * PGSIZE && 0x80100 < data < 0x8E000
    requires |m.free| > Up(sz) + NENT + 1
    modifies m`frames, m`freelist, m`free, m`dirs
    ensures m.Valid() && r == if old(HasTable(m.V(), pd, q)) then PagePanic else PtePanic
  {
    hide Shape, Inv, Clean, Chain, Entry, HasTable, IsP, Addr, KeptBut, HoldsOn, CopiedPage, Kernel, KernelMap;
    InvShape(m.V(), m.free);
    NotPresent();
    ghost var v := m.V();
    MapShape(data, 0);
    assert !IsP(Entry(v, pd, q));
    r := m.Copyuvm(pd, sz, data);
    ghost var p :| FirstMissing(v, pd, Up(sz), p) && (r == PagePanic <==> HasTable(v, pd, p));
    assert p == q;
  }

  /** So many different frames, all of them on the list. */
  lemma {:induction false} FramesFree(v: Mem, free: seq<Frame>, d: Frame, n: nat, now: seq<Frame>)
    returns (s: set<Frame>)
    requires Inv(v, free) && d in v.dirs && n <= NUSER && (forall p :: 0 <= p < n ==> IsP(Entry(v, d, p)))
    requires forall p :: 0 <= p < n ==> Addr(Entry(v, d, p)) in now
    ensures |s| == n && forall f :: f in s <==> exists p :: 0 <= p < n && f == Addr(Entry(v, d, p))
    ensures forall f :: f in s ==> f in now
  {
    if n == 0 {
      s := {};
    } else {
      var t := FramesFree(v, free, d, n - 1, now);
      var f := Addr(Entry(v, d, n - 1));
      assert f !in t by {
        if p :| 0 <= p < n - 1 && f == Addr(Entry(v, d, p)) {
          assert Owns(v, Page(d, p), f) && Owns(v, Page(d, n - 1), f);
        }
      }
      s := t + {f};
    }
  }

  lemma {:induction false} SetInSeq(s: set<Frame>, l: seq<Frame>)
    requires forall f :: f in s ==> f in l
    ensures |s| <= |l|
  {
    if l == [] {
      assert s == {};
    } else {
      SetInSeq(s - {l[0]}, l[1..]);
      assert |s| <= |s - {l[0]}| + 1;
    }
  }

  /** freevm() gives back at least the pages of the process. */
  lemma FreedCount(v: Mem, free: seq<Frame>, d: Frame, sz: nat, now: seq<Frame>)
    requires Inv(v, free) && Image(v, d, sz) && forall f :: OwnedBy(v, d, f) ==> f in now
    ensures |now| >= Up(sz)
  {
    forall p | 0 <= p < Up(sz) ensures Addr(Entry(v, d, p)) in now {
      assert Owns(v, Page(d, p), Addr(Entry(v, d, p)));
      assert OwnedBy(v, d, Addr(Entry(v, d, p)));
    }
    var s := FramesFree(v, free, d, Up(sz), now);
    SetInSeq(s, now);
  }

  lemma HoledKept(v: Mem, v': Mem, d: Frame, pd: Frame, sz: nat, q: nat)
    requires Shape(v) && Shape(v') && OthersKept(v, v', d) && DirsSame(v, v', d) && pd != d && Holed(v, pd, sz, q)
    ensures Holed(v', pd, sz, q) && (HasTable(v', pd, q) <==> HasTable(v, pd, q))
  {
    SameTables(v, v', d, pd, q);
    hide Entry, IsP, Addr, Shape, HasTable, DirsSame;
    forall p | 0 <= p < NUSER ensures Entry(v', pd, p) == Entry(v, pd, p) {
      assert Kept(v, v', pd, p);
    }
  }

  /**
   A process grows one frame short, which it is told has worked; another process ends and gives its
   memory back; the first one forks: the panic "copyuvm: pte should exist".
   */
  method OneShortThenFork(m: Vm, pd: Frame, sz: nat, n: int, other: Frame, osz: nat, data: nat)
    returns (r: CopyResult)
    requires m.Valid() && Image(m.V(), pd, sz) && 0 < n < 0x8000_0000 && sz + n < NUSER * PGSIZE
    requires OneShort(m.V(), m.free, pd, sz, sz + n)
    requires other != pd && Image(m.V(), other, osz) && Up(osz) > Up(sz + n) + NENT + 1 && 0x80100 < data < 0x8E000
    modifies m`frames, m`freelist, m`free, m`dirs
    ensures m.Valid() && r == PtePanic
  {
    hide Shape, Inv, Clean, Chain, Entry, HasTable, IsP, Addr, KeptBut, HoldsOn, Need, NeedsTable, OwnedBy, Holed;
    hide DirsSame;
    InvShape(m.V(), m.free);
    var ok, now := Growproc(m, pd, sz, n);
    InvShape(m.V(), m.free);
    ghost var v, fr := m.V(), m.free;
    m.Freevm(other);
    InvShape(m.V(), m.free);
    FreedCount(v, fr, other, osz, m.free);
    HoledKept(v, m.V(), other, pd, now, Up(now) - 1);
    r := ForkHoled(m, pd, now, Up(now) - 1, data);
  }

  lemma HoledGrows(v: Mem, v': Mem, free: seq<Frame>, now: seq<Frame>, pd: Frame, sz: nat, more: nat, q: nat)
    requires Shape(v) && Shape(v') && Holed(v, pd, sz, q) && pd in v'.dirs && sz <= more < NUSER * PGSIZE
    requires Up(sz) < Up(more) && Entry(v', pd, Up(more) - 1) != 0
    requires Grown(v', now, pd, Up(sz), Up(more), free) && KeptBut(v, v', pd, Up(sz), Up(more))
    requires TablesMade(v.frames[pd], v'.frames[pd], Up(sz), Up(more))
    ensures Holed(v', pd, more, q)
    ensures HasTable(v', pd, q) <==> HasTable(v, pd, q) || q / NENT == Up(sz) / NENT
  {
    assert !IsP(0) && ZeroPage(v', pd, Up(more) - 1, free);
    assert q / NENT <= Up(sz) / NENT && q / NENT < NENT;
    hide Entry, IsP, Addr, Shape;
    forall p | 0 <= p < NUSER && !(Up(sz) <= p < Up(more)) ensures Entry(v', pd, p) == Entry(v, pd, p) {
      assert Kept(v, v', pd, p);
    }
    forall p | Up(sz) <= p < Up(more) - 1 ensures IsP(Entry(v', pd, p)) {
      assert ZeroPage(v', pd, p, free);
    }
  }

  /** growproc() by n bytes with a page missing below the size and enough frames: that page stays missing. */
  method GrowHoled(m: Vm, pd: Frame, sz: nat, q: nat, n: nat) returns (r: AllocResult)
    requires m.Valid() && Holed(m.V(), pd, sz, q) && sz + n < NUSER * PGSIZE && Up(sz) < Up(sz + n)
    requires |m.free| >= Up(sz + n) - Up(sz) + NENT
    modifies m`frames, m`freelist, m`free
    ensures m.Valid() && r == Size(sz + n) && Holed(m.V(), pd, sz + n, q)
    ensures HasTable(m.V(), pd, q) <==> old(HasTable(m.V(), pd, q)) || q / NENT == Up(sz) / NENT
    ensures |m.free| >= |old(m.free)| - (Up(sz + n) - Up(sz)) - NENT
  {
    hide Shape, Inv, Clean, Chain, Entry, HasTable, IsP, Addr, KeptBut, HoldsOn, Need, NeedsTable, TablesMade,
        ZeroPage;
    hide Grown;
    InvShape(m.V(), m.free);
    NotPresent();
    ghost var v, fr := m.V(), m.free;
    NeedBound(v.frames[pd], Up(sz), Up(sz + n));
    assert Need(v.frames[pd], Up(sz), Up(sz + n)) <= Up(sz + n) - Up(sz) + NENT;
    assert forall p :: Up(sz) <= p < Up(sz + n) ==> Entry(v, pd, p) == 0;
    r := m.Allocuvm(pd, sz, sz + n);
    InvShape(m.V(), m.free);
    HoledGrows(v, m.V(), fr, m.free, pd, sz, sz + n, q);
  }

  /**
   The same, but the first process grows once more before it forks, into the page table that could not be
   made before: the panic "copyuvm: page not present".
   */
  method OneShortGrowThenFork(m: Vm, pd: Frame, sz: nat, n: int, other: Frame, osz: nat, more: nat, data: nat)
    returns (r: CopyResult)
    requires m.Valid() && Image(m.V(), pd, sz) && 0 < n < 0x8000_0000 && sz + n + more < NUSER * PGSIZE
    requires OneShort(m.V(), m.free, pd, sz, sz + n) && Up(sz + n) % NENT != 0 && Up(sz + n) < Up(sz + n + more)
    requires other != pd && Image(m.V(), other, osz) && Up(osz) > 2 * Up(sz + n + more) + 2 * NENT + 1
    requires 0x80100 < data < 0x8E000
    modifies m`frames, m`freelist, m`free, m`dirs
    ensures m.Valid() && r == PagePanic
  {
    hide Shape, Inv, Clean, Chain, Entry, HasTable, IsP, Addr, KeptBut, HoldsOn, Need, NeedsTable, OwnedBy, Holed;
    hide DirsSame;
    InvShape(m.V(), m.free);
    var ok, now := Growproc(m, pd, sz, n);
    InvShape(m.V(), m.free);
    ghost var v, fr := m.V(), m.free;
    m.Freevm(other);
    InvShape(m.V(), m.free);
    FreedCount(v, fr, other, osz, m.free);
    HoledKept(v, m.V(), other, pd, now, Up(now) - 1);
    assert (Up(now) - 1) / NENT == Up(now) / NENT;
    var size := GrowHoled(m, pd, now, Up(now) - 1, more);
    InvShape(m.V(), m.free);
    r := ForkHoled(m, pd, now + more, Up(now) - 1, data);
  }

  // Runs from the start of memory on which a vm.c operation misses.

  /** A machine with these frames, all free but one, which is an empty page directory. */
  method Machine(range: seq<Frame>) returns (m: Vm, pd: Frame)
    requires range != [] && (forall f :: f in range ==> 0 < f.n < TOP)
    requires forall i, j :: 0 <= i < j < |range| ==> range[i] != range[j]
    ensures fresh(m) && m.Valid() && pd in m.dirs && m.frames[pd] == Zeros() && |m.free| + 1 == |range|
  {
    hide Clean, Chain, KeptBut, HoldsOn, Tabs, Entry, IsP;
    m := new Vm(map f | f in range :: Zeros());
    m.Freerange(range);
    var ok;
    ok, pd := m.NewDirectory();
  }

  lemma ZerosEmpty(v: Mem, pd: Frame, p: nat)
    requires Shape(v) && pd in v.dirs && v.frames[pd] == Zeros() && p < NUSER
    ensures forall q :: 0 <= q < NPAGE ==> Entry(v, pd, q) == 0
    ensures Need(v.frames[pd], p, p + 1) == 2 && forall k :: 0 <= k < NENT ==> !IsP(v.frames[pd][k])
  {
    assert Need(v.frames[pd], p, p) == 0;
  }

  lemma OneTable(v: Mem, v': Mem, pd: Frame, p: nat, free: seq<Frame>)
    requires Shape(v) && Shape(v') && pd in v.dirs && pd in v'.dirs && p + 1 < NUSER && v.frames[pd] == Zeros()
    requires KeptBut(v, v', pd, p, p + 1) && TablesMade(v.frames[pd], v'.frames[pd], p, p + 1)
    requires ZeroPage(v', pd, p, free)
    ensures IsP(Entry(v', pd, p)) && forall q :: 0 <= q < NPAGE ==> (HasTable(v', pd, q) <==> q / NENT == p / NENT)
    ensures forall q :: 0 <= q < NPAGE && q != p ==> Entry(v', pd, q) == 0
  {
    ZerosEmpty(v, pd, p);
    hide Shape;
    forall q | 0 <= q < NPAGE && q != p ensures Entry(v', pd, q) == 0 {
      hide Entry;
      assert Kept(v, v', pd, q);
    }
  }

  lemma UpWhole(p: nat)
    ensures Up(p * PGSIZE) == p
  {
  }

  /** An address space with one page. */
  method OnePage(p: nat) returns (m: Vm, pd: Frame)
    requires p + 1 < NUSER
    ensures fresh(m) && m.Valid() && pd in m.dirs && IsP(Entry(m.V(), pd, p))
    ensures forall q :: 0 <= q < NPAGE ==>
              (HasTable(m.V(), pd, q) <==> q / NENT == p / NENT) && (q != p ==> Entry(m.V(), pd, q) == 0)
  {
    var range := [Frame(1), Frame(2), Frame(3)];
    m, pd := Machine(range);
    hide Shape, Inv, Clean, Chain, Entry, HasTable, IsP, Addr, KeptBut, HoldsOn, Need, TablesMade, ZeroPage,
        NeedsTable, Up, Zeros, Grown;
    ghost var v, fr := m.V(), m.free;
    InvShape(v, fr);
    ZerosEmpty(v, pd, p);
    UpWhole(p);
    UpWhole(p + 1);
    var r := m.Allocuvm(pd, p * PGSIZE, (p + 1) * PGSIZE);
    InvShape(m.V(), m.free);
    NotPresent();
    assert r.Size? && Entry(m.V(), pd, p) != 0;
    ZeroThere(m.V(), m.free, pd, p, fr);
    OneTable(v, m.V(), pd, p, fr);
  }

  lemma ZeroThere(v: Mem, now: seq<Frame>, pd: Frame, p: nat, free: seq<Frame>)
    requires Shape(v) && pd in v.dirs && p < NUSER && Grown(v, now, pd, p, p + 1, free) && Entry(v, pd, p) != 0
    ensures ZeroPage(v, pd, p, free)
  {
  }

  /** n pages for an address space without any, and how many frames are left. */
  method FirstPages(m: Vm, pd: Frame, n: nat)
    requires m.Valid() && pd in m.dirs && m.frames[pd] == Zeros() && 0 < n < NUSER && |m.free| >= n + (n - 1) / NENT + 1
    modifies m`frames, m`freelist, m`free
    ensures m.Valid() && Image(m.V(), pd, n * PGSIZE) && |m.free| == |old(m.free)| - n - (n - 1) / NENT - 1
    ensures TablesMade(old(m.frames)[pd], m.frames[pd], 0, n) && DirsSame(old(m.V()), m.V(), pd)
    ensures forall d, s :: d in m.dirs && d != pd ==> (Image(m.V(), d, s) <==> old(Image(m.V(), d, s)))
  {
    hide Shape, Inv, Clean, Chain, Entry, HasTable, IsP, Addr, KeptBut, HoldsOn, Need, TablesMade, ZeroPage,
        NeedsTable;
    hide Up, Zeros, Grown, DirsSame;
    ghost var v, fr := m.V(), m.free;
    InvShape(v, fr);
    ZerosEmpty(v, pd, 0);
    NeedAll(v.frames[pd], n);
    UpWhole(0);
    UpWhole(n);
    NotPresent();
    assert Image(v, pd, 0);
    var r := m.Allocuvm(pd, 0, n * PGSIZE);
    InvShape(m.V(), m.free);
    assert r.Size? && Entry(m.V(), pd, n - 1) != 0;
    ImageGrows(v, fr, m.V(), m.free, pd, 0, n * PGSIZE);
    forall d, s | d in m.dirs && d != pd ensures Image(m.V(), d, s) <==> Image(v, d, s) {
      ImageKept(v, m.V(), pd, 0, n, d, s);
    }
  }

  /**
   The states that OneShortThenFork() starts from exist: two processes share all memory but one frame, the
   first has filled its first page table, the second is large.
   */
  method TwoProcesses(range: seq<Frame>) returns (m: Vm, pd: Frame, other: Frame)
    requires |range| == 3082 && (forall f :: f in range ==> 0 < f.n < TOP)
    requires forall i, j :: 0 <= i < j < |range| ==> range[i] != range[j]
    ensures m.Valid() && Image(m.V(), pd, 1024 * PGSIZE) && OneShort(m.V(), m.free, pd, 1024 * PGSIZE, 1025 * PGSIZE)
    ensures other != pd && Image(m.V(), other, 2051 * PGSIZE) && Up(2051 * PGSIZE) > Up(1025 * PGSIZE) + NENT + 1
  {
    hide Shape, Inv, Clean, Chain, Entry, HasTable, IsP, Addr, KeptBut, HoldsOn, Need, TablesMade, NeedsTable, Zeros;
    hide DirsSame, Image, OneShort;
    m, pd := Machine(range);
    ghost var w := Zeros();
    FirstPages(m, pd, 1024);
    ghost var v := m.V();
    InvShape(v, m.free);
    InImage(v, pd, 1024 * PGSIZE);
    var ok;
    ok, other := m.NewDirectory();
    ghost var v1 := m.V();
    InvShape(v1, m.free);
    ImageKept(v, v1, other, 0, 0, pd, 1024 * PGSIZE);
    InImage(v1, pd, 1024 * PGSIZE);
    FirstPages(m, other, 2051);
    InvShape(m.V(), m.free);
    NextTable(w, v, v1, m.V(), m.free, pd, other);
    UpWhole(1025);
    UpWhole(2051);
  }

  lemma InImage(v: Mem, pd: Frame, sz: nat)
    requires Shape(v) && Image(v, pd, sz)
    ensures pd in v.dirs
  {
  }

  /** The first page behind a full first table needs a table and a frame. */
  lemma NextTable(w: Words, v: Mem, v1: Mem, v2: Mem, free: seq<Frame>, pd: Frame, other: Frame)
    requires Shape(v) && Shape(v1) && Shape(v2) && pd in v.dirs && pd in v1.dirs && pd in v2.dirs && pd != other
    requires w == Zeros() && |v.frames[pd]| == NENT && TablesMade(w, v.frames[pd], 0, 1024) && |free| == 1
    requires DirsSame(v, v1, other) && DirsSame(v1, v2, other)
    ensures OneShort(v2, free, pd, 1024 * PGSIZE, 1025 * PGSIZE)
  {
    UpWhole(1024);
    UpWhole(1025);
    assert v2.frames[pd] == v.frames[pd] && !IsP(0) && !IsP(v.frames[pd][1]);
    assert Need(v2.frames[pd], 1024, 1024) == 0;
  }

  /** One free frame and no page table: allocuvm() reports success for a page it has not mapped. */
  method SuccessWithoutPage() returns (m: Vm, pd: Frame, r: AllocResult)
    ensures m.Valid() && pd in m.dirs && r == Size(PGSIZE) && Entry(m.V(), pd, 0) == 0
  {
    m, pd := Machine([Frame(1), Frame(2)]);
    r := m.Allocuvm(pd, 0, PGSIZE);
  }

  /** An unmapped page under a page table: mprotect() makes it present on frame 0. */
  method ProtectUnmapped() returns (m: Vm, pd: Frame)
    ensures !m.Valid()
  {
    m, pd := OnePage(0);
    hide Shape, Inv, Clean, Chain, Entry, HasTable, IsP, Protected, Protect;
    InvShape(m.V(), m.free);
    NotPresent();
    assert Entry(m.V(), pd, 1) == 0;
    m.Mprotect(pd, PGSIZE, 1, PROT_READ);
  }

  /** No first page table, but a page under the second: deallocuvm() down to the second page passes over it. */
  method PassedOver() returns (m: Vm, pd: Frame, size: nat)
    ensures m.Valid() && pd in m.dirs && size == PGSIZE && IsP(Entry(m.V(), pd, NENT))
  {
    m, pd := OnePage(NENT);
    hide Shape, Inv, Clean, Chain, Entry, HasTable, IsP, KeptBut, HoldsOn;
    InvShape(m.V(), m.free);
    assert !HasTable(m.V(), pd, 1);
    ghost var v := m.V();
    size := m.Deallocuvm(pd, (NENT + 1) * PGSIZE, PGSIZE);
    InvShape(m.V(), m.free);
    assert Begin(v, pd, 1, NENT + 1) == NENT + 1;
    EntriesKept(v, m.V(), pd, NENT + 1, NENT + 1);
  }
}
