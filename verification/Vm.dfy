/**
 Address spaces (vm.c, kalloc.c): frame allocation, page table walks, mapping, growing, shrinking,
 copying, freeing and protecting user memory.
 */
module Vm {
  import opened Paging
  import opened FrameOwners
  import opened AddressSpaces

  class Vm {
    var frames: map<Frame, Words>
    /** kmem.freelist: a kernel pointer, 0 for an empty list. */
    var freelist: bv32
    ghost var free: seq<Frame>
    ghost var dirs: set<Frame>

    ghost function V(): Mem
      reads this
    {
      Mem(frames, dirs)
    }

    ghost predicate Valid()
      reads this
    {
      Inv(V(), free) && Clean(V()) && Chain(frames, freelist, free)
    }

    /** Free frames and page tables of pd together: what a walk turns into one another. */
    ghost function Stock(pd: Frame): nat
      requires pd in frames
      reads this
    {
      |free| + |Tabs(frames[pd])|
    }

    /** Memory before kinit1(): frames, none of them free, no page directory. */
    constructor (frames: map<Frame, Words>)
      requires forall f :: f in frames ==> |frames[f]| == NENT && 0 < f.n < TOP
      ensures Valid() && this.frames == frames && free == [] && dirs == {}
    {
      this.frames, freelist, free, dirs := frames, 0, [], {};
    }

    /** freerange(): frees the frames of a range one after the other. */
    method Freerange(range: seq<Frame>)
      requires Valid() && (forall k :: 0 <= k < |range| ==> Held(V(), free, range[k]))
      requires forall j, k :: 0 <= j < k < |range| ==> range[j] != range[k]
      modifies this`frames, this`freelist, this`free
      ensures Valid() && |free| == |old(free)| + |range| && forall f :: f in free <==> f in old(free) || f in range
    {
      hide Owns, Clean, Chain, KeptBut, Inv;
      InvShape(V(), free);
      var k := 0;
      while k < |range|
        invariant 0 <= k <= |range| && Valid() && Shape(V()) && |free| == |old(free)| + k
        invariant forall j :: k <= j < |range| ==> Held(V(), free, range[j])
        invariant forall f :: f in free <==> f in old(free) || f in range[..k]
      {
        ghost var v, fr := V(), free;
        FreeHeld(range[k]);
        InvShape(V(), free);
        forall j | k + 1 <= j < |range| ensures Held(V(), free, range[j]) {
          assert HoldsOn(v, fr, V(), free, range[j]);
        }
        assert range[..k + 1] == range[..k] + [range[k]];
        k := k + 1;
      }
    }

    /** kalloc(): pops the free list. */
    method Kalloc() returns (ok: bool, f: Frame)
      requires Valid()
      modifies this`freelist, this`free
      ensures Valid()
      ensures ok <==> old(free) != []
      ensures if ok then f == old(free)[0] && free == old(free)[1..] && Held(V(), free, f) else free == old(free)
      ensures forall h :: HoldsOn(V(), old(free), V(), free, h)
    {
      hide Owns, Shape, Ptr, Clean;
      ChainPop(frames, freelist, free);
      ok, f := freelist != 0, V2p(freelist);
      if ok {
        TakeInv(V(), free);
        freelist := frames[f][0];
        assert forall h :: h in free[1..] ==> h in free;
        free := free[1..];
      }
    }

    /** kfree(): fills the frame with junk and pushes it; a frame outside memory is a panic. */
    method Kfree(f: Frame)
      requires Chain(frames, freelist, free) && f in frames && |frames[f]| == NENT && f.n < TOP && f !in free
      modifies this`frames, this`freelist, this`free
      ensures Chain(frames, freelist, free) && free == [f] + old(free)
      ensures frames == old(frames)[f := Junk(old(freelist))]
    {
      ChainPush(frames, freelist, free, f, Junk(freelist));
      frames := frames[f := Junk(freelist)];
      freelist := P2v(f);
      free := [f] + free;
    }

    /** memset() or memmove() into a frame nobody else knows. */
    method Fill(f: Frame, w: Words)
      requires Valid() && Held(V(), free, f) && |w| == NENT
      modifies this`frames
      ensures Valid() && Held(V(), free, f) && frames == old(frames)[f := w]
      ensures KeptBut(old(V()), V(), f, 0, 0)
      ensures forall pd :: DirsSame(old(V()), V(), pd)
      ensures forall h :: h != f ==> HoldsOn(old(V()), free, V(), free, h)
    {
      forall pd ensures DirsSame(V(), Write(V(), f, w), pd) {
        FreeDirs(V(), free, f, w, pd);
      }
      WriteInv(V(), free, f, w);
      FillKeeps(V(), free, f, w);
      ChainWrite(frames, freelist, free, f, w);
      frames := frames[f := w];
    }

    /** walkpgdir(): finds the page table of page p; with alloc, makes one where there is none. */
    method Walkpgdir(pd: Frame, p: nat, alloc: bool) returns (ok: bool)
      requires Valid() && pd in dirs && p < NPAGE
      modifies this`frames, this`freelist, this`free
      ensures Valid() && KeptBut(old(V()), V(), pd, 0, 0) && DirsSame(old(V()), V(), pd)
      ensures ok <==> HasTable(V(), pd, p)
      ensures ok <==> old(HasTable(V(), pd, p)) || (alloc && old(free) != [])
      ensures Stock(pd) == old(Stock(pd))
      ensures ok ==>
                MoreTable(old(frames)[pd], frames[pd], p / NENT) && |free| + TableCost(old(V()), pd, p) == |old(free)|
      ensures forall h :: h in free ==> h in old(free)
      ensures !alloc || old(HasTable(V(), pd, p)) || !ok ==> frames == old(frames) && free == old(free)
      ensures forall h :: HoldsOn(old(V()), old(free), V(), free, h)
    {
      hide Owns, Clean, Chain;
      if IsP(frames[pd][p / NENT]) {
        KeptSame(V(), pd);
        return true;
      }
      if !alloc {
        KeptSame(V(), pd);
        return false;
      }
      var t;
      ok, t := Kalloc();
      if ok {
        HeldNotDir(V(), free, t);
        Fill(t, Zeros());
        var w := Make(t, PTE_P | PTE_W | PTE_U);
        ghost var v := V();
        PdeBits(t);
        TabsAdd(frames[pd], p / NENT, w);
        AddTableKeeps(v, free, pd, p / NENT, w);
        ChainWrite(frames, freelist, free, pd, frames[pd][p / NENT := w]);
        frames := frames[pd := frames[pd][p / NENT := w]];
        KeptTrans(old(V()), v, V(), Part(pd, 0, 0), Part(pd, 0, 0), Part(pd, 0, 0));
        forall h ensures HoldsOn(old(V()), old(free), V(), free, h) {
          assert h != t ==> HoldsOn(old(V()), old(free)[1..], v, free, h) && HoldsOn(v, free, V(), free, h);
        }
      } else {
        KeptSame(V(), pd);
      }
    }

    /** One turn of mappages(): page p gets the entry w. */
    method MapPage(pd: Frame, p: nat, w: bv32) returns (r: MapResult)
      requires Valid() && pd in dirs && p < NPAGE && IsP(w) && (p < NUSER ==> Held(V(), free, Addr(w)))
      modifies this`frames, this`freelist, this`free
      ensures Valid()
      ensures DirsSame(old(V()), V(), pd)
      ensures r == Remap <==> IsP(old(Entry(V(), pd, p)))
      ensures r == NoMemory <==> !old(HasTable(V(), pd, p)) && old(free) == []
      ensures r == Mapped ==> Entry(V(), pd, p) == w && HasTable(V(), pd, p) && KeptBut(old(V()), V(), pd, p, p + 1)
      ensures r == Mapped && p < NUSER ==> SameFrame(old(V()), V(), Addr(w))
      ensures r == Mapped ==>
                MoreTable(old(frames)[pd], frames[pd], p / NENT) && |free| + TableCost(old(V()), pd, p) == |old(free)|
      ensures Stock(pd) == old(Stock(pd))
      ensures r != Mapped ==> frames == old(frames) && free == old(free)
      ensures forall h :: h in free ==> h in old(free)
      ensures forall h :: !(r == Mapped && p < NUSER && h == Addr(w)) ==> HoldsOn(old(V()), old(free), V(), free, h)
    {
      hide DirsSame, Owns, Clean, Chain, Held;
      var ok := Walkpgdir(pd, p, true);
      if !ok {
        return NoMemory;
      }
      ghost var v := V();
      assert HoldsOn(old(V()), old(free), v, free, Addr(w));
      assert Kept(old(V()), v, pd, p) && TableOk(v, pd, p / NENT);
      var t := Addr(frames[pd][p / NENT]);
      if IsP(frames[t][p % NENT]) {
        return Remap;
      }
      MapKeeps(v, free, pd, p, w);
      MapDirs(v, free, pd, p, w);
      ChainWrite(frames, freelist, free, t, frames[t][p % NENT := w]);
      frames := frames[t := frames[t][p % NENT := w]];
      assert V() == SetEntry(v, pd, p, w);
      DirsTrans(old(V()), v, V(), pd);
      KeptTrans(old(V()), v, V(), Part(pd, 0, 0), Part(pd, p, p + 1), Part(pd, p, p + 1));
      forall h | !(p < NUSER && h == Addr(w)) ensures HoldsOn(old(V()), old(free), V(), free, h) {
        assert HoldsOn(old(V()), old(free), v, free, h) && HoldsOn(v, free, V(), free, h);
        HoldsTrans(old(V()), old(free), v, free, V(), free, h);
      }
      r := Mapped;
    }

    /**
     mappages(): the pages that va..va+size touches get consecutive frames from f on; stops at the
     first one that has no table, for want of a frame, or that is mapped already.
     */
    method Mappages(pd: Frame, va: nat, size: nat, f: Frame, perm: bv32) returns (r: MapResult, ghost m: nat)
      requires Valid() && pd in dirs && 0 < size && va + size <= NPAGE * PGSIZE && perm <= 0xFFF
      requires va / PGSIZE >= NUSER || ((va + size - 1) / PGSIZE == va / PGSIZE && Held(V(), free, f))
      modifies this`frames, this`freelist, this`free
      ensures Valid() && m <= PagesOf(va, size) && (r == Mapped <==> m == PagesOf(va, size))
      ensures RangeMapped(V(), pd, va / PGSIZE, m, f, perm) && KeptBut(old(V()), V(), pd, va / PGSIZE, va / PGSIZE + m)
      ensures r == Remap ==> IsP(old(Entry(V(), pd, va / PGSIZE + m)))
      ensures r == NoMemory ==> !HasTable(V(), pd, va / PGSIZE + m) && free == []
      ensures DirsSame(old(V()), V(), pd)
      ensures Stock(pd) == old(Stock(pd))
      ensures forall h :: h in free ==> h in old(free)
      ensures va / PGSIZE < NUSER && r == Mapped ==> SameFrame(old(V()), V(), f)
      ensures va / PGSIZE < NUSER && r == NoMemory ==> frames == old(frames) && Held(V(), free, f)
      ensures forall h :: va / PGSIZE >= NUSER || h != f ==> HoldsOn(old(V()), old(free), V(), free, h)
    {
      hide DirsSame, Owns, Clean, Chain, Held, HoldsOn, Entry, HasTable, KeptBut, Inv, IsP, Addr, Make, Mapping,
          RangeMapped, Tabs;
      ghost var first := va / PGSIZE;
      var a, last := va / PGSIZE, (va + size - 1) / PGSIZE;
      var g := f;
      m := 0;
      InvShape(V(), free);
      KeptSame(V(), pd);
      MappingStart(V(), free, pd, first, f, perm);
      while true
        invariant first <= a <= last && a == first + m && g == Nth(f, m) && Valid() && Shape(V())
        invariant Mapping(old(V()), old(free), V(), free, pd, first, m, f, perm)
        invariant first < NUSER ==> m == 0 && frames == old(frames) && free == old(free)
        decreases last - a
      {
        var w := Make(g, perm | PTE_P);
        MappedBits(g, perm);
        ghost var v, fr := V(), free;
        r := MapPage(pd, a, w);
        InvShape(V(), free);
        if r != Mapped {
          MappingDone(old(V()), old(free), v, fr, pd, first, m, f, perm);
          return;
        }
        MappingTurn(old(V()), old(free), v, fr, V(), free, pd, first, m, f, perm, w);
        m := m + 1;
        if a == last {
          break;
        }
        a := a + 1;
        g := Frame(g.n + 1);
      }
      MappingDone(old(V()), old(free), V(), free, pd, first, m, f, perm);
    }

    /** The inside of deallocuvm()'s loop for a mapped page: its frame goes back, its entry is cleared. */
    method UnmapPage(pd: Frame, p: nat)
      requires Valid() && pd in dirs && p < NUSER && HasTable(V(), pd, p) && IsP(Entry(V(), pd, p))
      modifies this`frames, this`freelist, this`free
      ensures Valid() && Entry(V(), pd, p) == 0 && KeptBut(old(V()), V(), pd, p, p + 1)
      ensures free == [Addr(old(Entry(V(), pd, p)))] + old(free) && frames[pd] == old(frames)[pd]
      ensures DirsSame(old(V()), V(), pd)
      ensures forall q :: 0 <= q < NPAGE ==> HasTable(V(), pd, q) == old(HasTable(V(), pd, q))
      ensures forall h :: HoldsOn(old(V()), old(free), V(), free, h)
    {
      hide Owns, Clean, Chain, Held, HoldsOn, KeptBut;
      ghost var v, fr := V(), free;
      assert TableOk(v, pd, p / NENT);
      var t := Addr(frames[pd][p / NENT]);
      var f := Addr(frames[t][p % NENT]);
      assert f == Addr(Entry(v, pd, p));
      UnmapFreeInv(v, fr, pd, p, Zeros());
      Kfree(f);
      ghost var junk := frames[f];
      UnmapFreeInv(v, fr, pd, p, junk);
      UnmapDirs(v, fr, pd, p, junk);
      ChainWrite(frames, freelist, free, t, frames[t][p % NENT := 0]);
      frames := frames[t := frames[t][p % NENT := 0]];
      assert V() == Write(SetEntry(v, pd, p, 0), f, junk);
    }

    /**
     deallocuvm(): gives back pages from newsz (rounded up) to oldsz. Where page tables are missing
     it steps on by the span of a table, so it starts at the first page met that way that has one;
     from there on every page is unmapped and exactly their frames become free, everything before
     and behind is kept. The whole range ends up unmapped if and only if no page is passed over.
     */
    method Deallocuvm(pd: Frame, oldsz: nat, newsz: nat) returns (r: nat)
      requires Valid() && pd in dirs && oldsz <= NUSER * PGSIZE
      modifies this`frames, this`freelist, this`free
      ensures Valid() && r == if newsz >= oldsz then oldsz else newsz
      ensures newsz >= oldsz ==> frames == old(frames) && free == old(free)
      ensures newsz < oldsz ==>
                var lo, hi := Up(newsz), Up(oldsz);
                var start := Begin(old(V()), pd, lo, hi);
                && Dealloc(old(V()), old(free), V(), free, pd, start, hi)
                && ((forall q :: lo <= q < hi ==> Entry(V(), pd, q) == 0) <==>
                    (forall q :: lo <= q < start && q < hi ==> old(Entry(V(), pd, q)) == 0))
      ensures frames[pd] == old(frames)[pd] && |free| >= |old(free)| && DirsSame(old(V()), V(), pd)
      ensures forall h :: HoldsOn(old(V()), old(free), V(), free, h)
    {
      hide Owns, Clean, Chain, Held, HoldsOn, KeptBut, Entry, HasTable, Inv, Kept, FreedFrom, Dealloc, IsP, Addr,
          Begin;
      InvShape(V(), free);
      HoldsSame(V(), free);
      if newsz >= oldsz {
        return oldsz;
      }
      ghost var lo, hi := Up(newsz), Up(oldsz);
      ghost var start := Begin(V(), pd, lo, hi);
      var p := Up(newsz);
      KeptSame(V(), pd);
      while p * PGSIZE < oldsz
        invariant lo <= p && Valid() && Shape(V()) && frames[pd] == old(frames)[pd] && |free| >= |old(free)|
        invariant DirsSame(old(V()), V(), pd)
        invariant p <= start ==> frames == old(frames) && free == old(free) && Begin(old(V()), pd, p, hi) == start
        invariant p > start ==> Deallocating(old(V()), old(free), V(), free, pd, start, p, hi)
        invariant forall q :: 0 <= q < NPAGE ==> HasTable(V(), pd, q) == old(HasTable(V(), pd, q))
        invariant start < p < hi && p % NENT != 0 ==> HasTable(V(), pd, p)
        invariant forall h :: HoldsOn(old(V()), old(free), V(), free, h)
        decreases oldsz - p * PGSIZE
      {
        ghost var v, fr := V(), free;
        BeginStep(old(V()), pd, p, hi);
        if p == start {
          DeallocStart(v, fr, pd, start, hi);
        }
        var ok := DeallocPage(pd, p);
        InvShape(V(), free);
        DirsTrans(old(V()), v, V(), pd);
        if !ok {
          NoTable(v, pd, p);
          if p > start {
            DeallocSkip(old(V()), old(free), v, fr, pd, start, p, hi);
          }
          p := p + NENT - 1;
        } else {
          DeallocStep(old(V()), old(free), v, fr, V(), free, pd, start, hi, p);
          forall h ensures HoldsOn(old(V()), old(free), V(), free, h) {
            HoldsTrans(old(V()), old(free), v, fr, V(), free, h);
          }
          TableOn(V(), pd, p);
        }
        p := p + 1;
      }
      DeallocDone(old(V()), old(free), V(), free, pd, lo, start, p, hi);
      r := newsz;
    }

    /** One turn of the loop, but for the counting. */
    method DeallocPage(pd: Frame, p: nat) returns (ok: bool)
      requires Valid() && pd in dirs && p < NUSER
      modifies this`frames, this`freelist, this`free
      ensures Valid() && ok == old(HasTable(V(), pd, p)) && Entry(V(), pd, p) == 0
      ensures KeptBut(old(V()), V(), pd, p, p + 1)
      ensures free == if IsP(old(Entry(V(), pd, p))) then [Addr(old(Entry(V(), pd, p)))] + old(free) else old(free)
      ensures (!ok ==> frames == old(frames) && free == old(free)) && frames[pd] == old(frames)[pd]
      ensures DirsSame(old(V()), V(), pd)
      ensures forall q :: 0 <= q < NPAGE ==> HasTable(V(), pd, q) == old(HasTable(V(), pd, q))
      ensures forall h :: HoldsOn(old(V()), old(free), V(), free, h)
    {
      hide Owns, Clean, Chain, Held, HoldsOn, KeptBut, Kept, Inv, Addr;
      InvShape(V(), free);
      KeptSame(V(), pd);
      KeptMono(V(), V(), Part(pd, 0, 0), Part(pd, p, p + 1));
      HoldsSame(V(), free);
      ok := Walkpgdir(pd, p, false);
      if ok {
        assert TableOk(V(), pd, p / NENT);
        var t := Addr(frames[pd][p / NENT]);
        assert Entry(V(), pd, p) == frames[t][p % NENT];
        if IsP(frames[t][p % NENT]) {
          UnmapPage(pd, p);
        } else {
          CleanEntry(V(), free, pd, p);
        }
      }
    }

    /** kfree() of a frame nobody else knows. */
    method FreeHeld(f: Frame)
      requires Valid() && Held(V(), free, f)
      modifies this`frames, this`freelist, this`free
      ensures Valid() && free == [f] + old(free) && KeptBut(old(V()), V(), f, 0, 0)
      ensures forall pd :: DirsSame(old(V()), V(), pd)
      ensures forall h :: h != f ==> HoldsOn(old(V()), old(free), V(), free, h)
    {
      ghost var v, fr := V(), free;
      Kfree(f);
      ghost var junk := frames[f];
      FreeKeeps(v, fr, f, junk);
      assert V() == Write(v, f, junk);
      forall pd ensures DirsSame(v, V(), pd) {
        FreeDirs(v, fr, f, junk, pd);
      }
    }

    /**
     freevm(): the frames that become free are exactly those the page directory owned: itself, its
     page tables in both halves, and its user pages. No other address space changes.
     */
    method Freevm(pd: Frame)
      requires Valid() && pd in dirs
      modifies this`frames, this`freelist, this`free, this`dirs
      ensures Valid() && OthersKept(old(V()), V(), pd) && DirsSame(old(V()), V(), pd)
      ensures forall f :: f in free <==> f in old(free) || OwnedBy(old(V()), pd, f)
      ensures forall h :: HoldsOn(old(V()), old(free), V(), free, h)
    {
      hide Owns, Clean, Chain, Held, HoldsOn, KeptBut, Entry, HasTable, Inv, Kept, FreedFrom, Dealloc, IsP, Addr,
          OwnedBy, OthersKept;
      InvShape(V(), free);
      var r := Deallocuvm(pd, NUSER * PGSIZE, 0);
      assert Up(NUSER * PGSIZE) == NUSER && Up(0) == 0;
      BeginAligned(old(V()), pd, 0, NUSER);
      ghost var v, fr := V(), free;
      InvShape(v, fr);
      DirParts(v, fr, pd);
      dirs := dirs - {pd};
      InvShape(V(), free);
      FreeTables(pd, v, fr);
      InvShape(V(), free);
      FreevmKept(old(V()), old(free), v, fr, V(), pd, Begin(old(V()), pd, 0, NUSER));
      FreevmFrames(old(V()), old(free), v, fr, pd, Begin(old(V()), pd, 0, NUSER), free);
      forall h ensures HoldsOn(old(V()), old(free), V(), free, h) {
        assert HoldsOn(old(V()), old(free), v, fr, h);
        FreevmHolds(old(V()), old(free), v, fr, V(), free, pd, h);
      }
    }

    /** The loop of freevm() over the directory, and the directory itself. */
    method FreeTables(pd: Frame, ghost v: Mem, ghost fr: seq<Frame>)
      requires Inv(v, fr) && pd in v.dirs && v.frames == frames && dirs == v.dirs - {pd} && free == fr && Valid()
      modifies this`frames, this`freelist, this`free
      ensures Valid() && KeptBut(Mem(v.frames, dirs), V(), pd, 0, 0) && DirsSame(Mem(v.frames, dirs), V(), pd)
      ensures forall f :: f in free <==> f in fr || f == pd || TableBelow(v, pd, NENT, f)
      ensures forall h :: h != pd && !TableBelow(v, pd, NENT, h) ==> HoldsOn(Mem(v.frames, dirs), fr, V(), free, h)
    {
      hide Owns, Clean, Chain, KeptBut, Entry, HasTable, Inv, Kept, IsP, Addr, Unowned;
      InvShape(v, fr);
      DirParts(v, fr, pd);
      InvShape(V(), free);
      KeptSame(V(), pd);
      HoldsSame(V(), free);
      ghost var v0 := V();
      var i := 0;
      while i < NENT
        invariant 0 <= i <= NENT && Valid() && Shape(V()) && KeptBut(v0, V(), pd, 0, 0) && DirsSame(v0, V(), pd)
        invariant Held(V(), free, pd) && frames[pd] == v.frames[pd]
        invariant forall k :: i <= k < NENT && IsP(v.frames[pd][k]) ==> Held(V(), free, Addr(v.frames[pd][k]))
        invariant forall f :: f in free <==> f in fr || TableBelow(v, pd, i, f)
        invariant forall h :: !TableBelow(v, pd, i, h) ==> HoldsOn(v0, fr, V(), free, h)
      {
        if IsP(frames[pd][i]) {
          ghost var v1, fr1 := V(), free;
          var t := Addr(frames[pd][i]);
          FreeHeld(t);
          InvShape(V(), free);
          KeptTrans(v0, v1, V(), Part(pd, 0, 0), Part(t, 0, 0), Part(pd, 0, 0));
          DirsTrans(v0, v1, V(), pd);
          forall h | h != t ensures Held(v1, fr1, h) ==> Held(V(), free, h) && SameFrame(v1, V(), h) {
            assert HoldsOn(v1, fr1, V(), free, h);
          }
          forall h | !TableBelow(v, pd, i + 1, h) ensures HoldsOn(v0, fr, V(), free, h) {
            assert h != t && !TableBelow(v, pd, i, h);
            HoldsTrans(v0, fr, v1, fr1, V(), free, h);
          }
        }
        i := i + 1;
      }
      ghost var v1, fr1 := V(), free;
      FreeHeld(pd);
      InvShape(V(), free);
      KeptTrans(v0, v1, V(), Part(pd, 0, 0), Part(pd, 0, 0), Part(pd, 0, 0));
      DirsTrans(v0, v1, V(), pd);
      forall h | h != pd && !TableBelow(v, pd, NENT, h) ensures HoldsOn(v0, fr, V(), free, h) {
        HoldsTrans(v0, fr, v1, fr1, V(), free, h);
      }
    }

    /** One turn of allocuvm()'s loop: a zeroed frame for page p. */
    method AllocPage(pd: Frame, p: nat) returns (got: bool, r: MapResult)
      requires Valid() && pd in dirs && p < NUSER
      modifies this`frames, this`freelist, this`free
      ensures Valid() && (got <==> old(free) != [])
      ensures !got ==> frames == old(frames) && free == old(free)
      ensures got ==> (r == Remap <==> IsP(old(Entry(V(), pd, p))))
      ensures got && r != Remap ==> GotPage(old(V()), old(free), V(), free, pd, p, r)
    {
      hide Owns, Clean, Chain, HoldsOn, KeptBut, Inv, Unowned, Entry, HasTable, MoreTable;
      InvShape(V(), free);
      var f;
      got, f := Kalloc();
      r := NoMemory;
      if !got {
        return;
      }
      HeldNotDir(V(), free, f);
      Fill(f, Zeros());
      InvShape(V(), free);
      ghost var v := V();
      FillView(old(V()), v, f, pd, p);
      var w := Make(f, PTE_W | PTE_U | PTE_P);
      UserBits(f);
      r := MapPage(pd, p, w);
      InvShape(V(), free);
      DirsTrans(old(V()), v, V(), pd);
      if r == Mapped {
        KeptTrans(old(V()), v, V(), Part(f, 0, 0), Part(pd, p, p + 1), Part(pd, p, p + 1));
      } else {
        KeptMono(old(V()), v, Part(f, 0, 0), Part(pd, 0, 0));
      }
    }

    /**
     allocuvm(). Over a range that is not mapped, with `need` frames for its pages and the page tables
     they lack: with that many free every page is a zeroed frame of its own. One frame short, if the
     last page is the first to need its table, success is reported with that page not mapped, and
     the frame meant for it is lost. Otherwise it fails and every mapping is as before, though page
     tables made on the way stay, and a frame whose page table could not be made is lost.
     */
    method Allocuvm(pd: Frame, oldsz: nat, newsz: nat) returns (r: AllocResult)
      requires Valid() && pd in dirs
      modifies this`frames, this`freelist, this`free
      ensures Valid()
      ensures newsz >= NUSER * PGSIZE || newsz < oldsz ==>
                && frames == old(frames) && free == old(free)
                && r == if newsz >= NUSER * PGSIZE then Failed else Size(oldsz)
      ensures oldsz <= newsz < NUSER * PGSIZE ==>
                var lo, hi := Up(oldsz), Up(newsz);
                && (r == RemapPanic ==> exists q :: lo <= q < hi && IsP(old(Entry(V(), pd, q))))
                && (r.Size? ==>
                      r == Size(newsz) && Grown(V(), free, pd, lo, hi, old(free)) && KeptBut(old(V()), V(), pd, lo, hi))
                && (r == Failed ==> |old(free)| < hi - lo + NENT)
                && (r.Size? ==> DirsSame(old(V()), V(), pd))
                && (r.Size? ==> forall q :: lo <= q < hi && Entry(V(), pd, q) != 0 ==> UserWrites(V(), pd, q))
                && (r.Size? && hi > lo && Entry(V(), pd, hi - 1) != 0 ==>
                     TablesMade(old(frames)[pd], frames[pd], lo, hi))
      ensures oldsz <= newsz < NUSER * PGSIZE &&
                (forall q :: Up(oldsz) <= q < Up(newsz) ==> old(Entry(V(), pd, q)) == 0) ==>
                var lo, hi := Up(oldsz), Up(newsz);
                var need, last := Need(old(frames)[pd], lo, hi), hi > lo && NeedsTable(old(frames)[pd], lo, hi - 1);
                && (r == Failed <==> |old(free)| < if last then need - 1 else need)
                && (r.Size? && hi > lo && Entry(V(), pd, hi - 1) == 0 <==> last && |old(free)| == need - 1)
                && (r == Failed ==> KeptBut(old(V()), V(), pd, 0, 0))
                && (r.Size? && !(last && |old(free)| == need - 1) ==> |free| + need == |old(free)|)
    {
      hide UserReads, UserWrites, SameAccess;
      hide DirsSame, Owns, Clean, Chain, HoldsOn, KeptBut, Kept, Inv, Held, Entry, HasTable, Addr, Dealloc, GotPage,
          Growing, Need, NeedsTable, TablesMade;
      if newsz >= NUSER * PGSIZE {
        return Failed;
      }
      if newsz < oldsz {
        return Size(oldsz);
      }
      ghost var lo, hi, missed := Up(oldsz), Up(newsz), false;
      var p := Up(oldsz);
      InvShape(V(), free);
      KeptSame(V(), pd);
      GrowingStart(V(), free, pd, lo);
      while p * PGSIZE < newsz
        invariant lo <= p <= hi && Valid() && Shape(V()) && Growing(old(V()), old(free), V(), free, pd, lo, p, missed)
      {
        ghost var v, fr := V(), free;
        GrowingHere(old(V()), old(free), v, fr, pd, lo, p, missed);
        var got, m := AllocPage(pd, p);
        InvShape(V(), free);
        if !got {
          GrowingFails(old(V()), old(free), v, pd, lo, p, hi, missed);
          var back := Deallocuvm(pd, newsz, oldsz);
          InvShape(V(), free);
          if forall q :: lo <= q < hi ==> old(Entry(V(), pd, q)) == 0 {
            UndoGrowth(old(V()), old(free), v, fr, V(), free, pd, lo, p, hi, missed);
          }
          return Failed;
        }
        if m == Remap {
          return RemapPanic;
        }
        GrowingTurn(old(V()), old(free), v, fr, V(), free, pd, lo, p, missed, m);
        missed := m == NoMemory;
        p := p + 1;
      }
      GrowingDone(old(V()), old(free), V(), free, pd, lo, hi, missed);
      GrownAccess(V(), free, pd, lo, hi, old(free));
      r := Size(newsz);
    }

    /** The start of setupkvm(): a page directory with no page table. */
    method NewDirectory() returns (ok: bool, pd: Frame)
      requires Valid()
      modifies this`frames, this`freelist, this`free, this`dirs
      ensures Valid() && KeptBut(old(V()), V(), pd, 0, 0) && DirsSame(old(V()), V(), pd)
      ensures ok <==> old(free) != []
      ensures if ok then free == old(free)[1..] && pd == old(free)[0] else free == old(free)
      ensures dirs == if ok then old(dirs) + {pd} else old(dirs)
      ensures ok ==> pd !in old(dirs) && frames[pd] == Zeros() && |Tabs(frames[pd])| == 0
    {
      hide Owns, Clean, Chain, HoldsOn, KeptBut, Kept, Inv, Held, Entry, HasTable, IsP, Addr;
      InvShape(V(), free);
      KeptSame(V(), Frame(0));
      ok, pd := Kalloc();
      if !ok {
        KeptMono(V(), V(), Part(Frame(0), 0, 0), Part(pd, 0, 0));
        return;
      }
      Fill(pd, Zeros());
      InvShape(V(), free);
      NewDirKept(old(V()), V(), free, pd);
      dirs := dirs + {pd};
      TabsZeros();
    }

    /**
     setupkvm(): a new page directory whose user half is empty and whose kernel half shows the
     kernel's map; the panic "remap" is not reachable. On failure frames may leak, but no address
     space changes.
     */
    method Setupkvm(data: nat) returns (ok: bool, pd: Frame)
      requires Valid() && 0x80100 < data < 0x8E000
      modifies this`frames, this`freelist, this`free, this`dirs
      ensures Valid() && KeptBut(old(V()), V(), pd, 0, 0) && (forall h :: h in free ==> h in old(free))
      ensures DirsSame(old(V()), V(), pd)
      ensures dirs == if ok then old(dirs) + {pd} else old(dirs)
      ensures if ok then |old(free)| == Stock(pd) + 1 else |old(free)| <= NENT + 1
      ensures ok ==> pd !in old(dirs) && pd in old(free)
      ensures ok ==> forall q :: 0 <= q < NPAGE ==> Entry(V(), pd, q) == Kernel(KernelMap(data), 4, q)
      ensures ok ==> !KernelOpen(V(), pd)
    {
      hide Owns, Clean, Chain, HoldsOn, KeptBut, Kept, Inv, Held, Entry, HasTable, IsP, Addr, KernelMap, Kernel,
          RangeMapped;
      InvShape(V(), free);
      ok, pd := NewDirectory();
      if !ok {
        return;
      }
      InvShape(V(), free);
      var rs := KernelMap(data);
      var k := 0;
      MapShape(data, k);
      KernelStart(V(), rs, pd);
      while k < 4
        invariant 0 <= k <= 4 && Valid() && Shape(V()) && KeptBut(old(V()), V(), pd, 0, 0) && dirs == old(dirs) + {pd}
        invariant DirsSame(old(V()), V(), pd) && forall h :: h in free ==> h in old(free)
        invariant forall q :: 0 <= q < NPAGE ==> Entry(V(), pd, q) == Kernel(rs, k, q)
        invariant |old(free)| == Stock(pd) + 1
      {
        ghost var v1 := V();
        MapShape(data, k);
        var r;
        ghost var m;
        r, m := Mappages(pd, rs[k].page * PGSIZE, rs[k].n * PGSIZE, rs[k].phys, rs[k].perm);
        InvShape(V(), free);
        DirsTrans(old(V()), v1, V(), pd);
        KeptTrans(old(V()), v1, V(), Part(pd, 0, 0), Part(pd, rs[k].page, rs[k].page + m), Part(pd, 0, 0));
        if r != Mapped {
          KernelFree(rs, k, rs[k].page + m);
          assert r == NoMemory;
          TabsBound(frames[pd]);
          RemoveKept(old(V()), V(), free, pd);
          dirs := dirs - {pd};
          return false, pd;
        }
        KernelStep(v1, V(), rs, k, pd);
        k := k + 1;
      }
      KernelClosed(V(), pd, data);
    }

    /**
     copyuvm(): the child shows the same bytes with the same flags at every page below sz, in frames
     that were free; every existing address space, the parent's included, is as before. A page
     below sz that is not mapped is a panic: "pte should exist" if the first such page has no page
     table, "page not present" if it has one.
     */
    method Copyuvm(pd: Frame, sz: nat, data: nat) returns (r: CopyResult)
      requires Valid() && pd in dirs && sz <= NUSER * PGSIZE && 0x80100 < data < 0x8E000
      modifies this`frames, this`freelist, this`free, this`dirs
      ensures Valid() && KeptBut(old(V()), V(), pd, 0, 0)
      ensures r.Panics() ==>
                exists q :: FirstMissing(old(V()), pd, Up(sz), q) && (r == PagePanic <==> old(HasTable(V(), pd, q)))
      ensures r == OutOfMemory ==> dirs == old(dirs) && |old(free)| <= Up(sz) + NENT + 1
      ensures |old(free)| > Up(sz) + NENT + 1 ==>
                (r.Panics() <==> exists q :: 0 <= q < Up(sz) && !IsP(old(Entry(V(), pd, q))))
      ensures r.Copied? ==>
                && r.d !in old(dirs) && dirs == old(dirs) + {r.d}
                && (forall q :: 0 <= q < Up(sz) ==> CopiedPage(old(V()), V(), pd, r.d, q, old(free)))
                && (forall q :: 0 <= q < Up(sz) ==> SameAccess(old(V()), V(), pd, r.d, q))
                && (forall q :: Up(sz) <= q < NPAGE ==> Entry(V(), r.d, q) == Kernel(KernelMap(data), 4, q))
    {
      hide UserReads, UserWrites, SameAccess;
      hide DirsSame, Owns, Clean, Chain, HoldsOn, KeptBut, Inv, Held, Entry, HasTable, IsP, Addr, KernelMap, Kernel;
      hide Copying, CopiedPage, OthersKept, Tabs;
      InvShape(V(), free);
      MapShape(data, 0);
      var ok, d := Setupkvm(data);
      InvShape(V(), free);
      if !ok {
        KeptMono(old(V()), V(), Part(d, 0, 0), Part(pd, 0, 0));
        return OutOfMemory;
      }
      CopyingStart(old(V()), old(free), V(), free, pd, d, data);
      var p := 0;
      while p * PGSIZE < sz
        invariant 0 <= p <= Up(sz) && Valid() && Shape(V()) && Copying(old(V()), old(free), V(), free, pd, d, p, data)
        invariant d !in old(dirs) && dirs == old(dirs) + {d}
      {
        ghost var v, fr := V(), free;
        CopyingHere(old(V()), old(free), v, fr, pd, d, p, data);
        var step := CopyPage(pd, d, p);
        InvShape(V(), free);
        if step.Panics() {
          CopyingPanics(old(V()), old(free), v, fr, pd, d, p, data, Up(sz));
          assert FirstMissing(old(V()), pd, Up(sz), p);
          return step;
        }
        CopyingOn(old(V()), old(free), v, fr, V(), free, pd, d, p, data);
        if step == OutOfMemory {
          v := V();
          TabsBound(frames[d]);
          Freevm(d);
          InvShape(V(), free);
          OthersKeptBut(old(V()), v, V(), d, pd);
          return OutOfMemory;
        }
        CopyingTurn(old(V()), old(free), v, fr, V(), free, pd, d, p, data);
        p := p + 1;
      }
      CopyingDone(old(V()), old(free), V(), free, pd, d, p, data);
      forall q | 0 <= q < Up(sz) ensures SameAccess(old(V()), V(), pd, d, q) {
        CopiedAccess(old(V()), V(), pd, d, q, old(free));
      }
      r := Copied(d);
    }

    /** One turn of copyuvm()'s loop. */
    method CopyPage(pd: Frame, d: Frame, p: nat) returns (r: CopyResult)
      requires Valid() && pd in dirs && d in dirs && d != pd && p < NUSER && Entry(V(), d, p) == 0
      modifies this`frames, this`freelist, this`free
      ensures Valid() && (forall h :: h in free ==> h in old(free))
      ensures r.Panics() <==> !IsP(old(Entry(V(), pd, p)))
      ensures r == PtePanic <==> !old(HasTable(V(), pd, p))
      ensures r.Panics() ==> frames == old(frames) && free == old(free)
      ensures KeptBut(old(V()), V(), d, p, p + 1) && DirsSame(old(V()), V(), d)
      ensures r.Copied? ==> CopiedPage(old(V()), V(), pd, d, p, old(free)) && Stock(d) + 1 == old(Stock(d))
      ensures r == OutOfMemory ==> free == [] && old(Stock(d)) <= Stock(d) + 1
    {
      hide Owns, Clean, Chain, HoldsOn, KeptBut, Kept, Inv, Held, CopiedPage, Tabs, Addr, IsP;
      InvShape(V(), free);
      KeptSame(V(), d);
      KeptMono(V(), V(), Part(d, 0, 0), Part(d, p, p + 1));
      assert TableOk(V(), pd, p / NENT);
      assert !IsP(0) by {
        ProtectZero(0);
      }
      var ok := Walkpgdir(pd, p, false);
      if !ok {
        return PtePanic;
      }
      var t := Addr(frames[pd][p / NENT]);
      var w := frames[t][p % NENT];
      assert w == Entry(V(), pd, p);
      if !IsP(w) {
        return PagePanic;
      }
      r := CopyInto(pd, d, p, w);
    }

    /** A new frame for page p of d, filled from the frame of entry w. */
    method CopyInto(pd: Frame, d: Frame, p: nat, w: bv32) returns (r: CopyResult)
      requires Valid() && pd in dirs && d in dirs && p < NUSER && Entry(V(), d, p) == 0 && w == Entry(V(), pd, p)
      requires IsP(w)
      modifies this`frames, this`freelist, this`free
      ensures Valid() && (forall h :: h in free ==> h in old(free)) && KeptBut(old(V()), V(), d, p, p + 1)
      ensures DirsSame(old(V()), V(), d)
      ensures r.Copied? ==> CopiedPage(old(V()), V(), pd, d, p, old(free)) && Stock(d) + 1 == old(Stock(d))
      ensures !r.Copied? ==> r == OutOfMemory && free == [] && old(Stock(d)) <= Stock(d) + 1
    {
      hide Owns, Clean, Chain, HoldsOn, KeptBut, Kept, Inv, Unowned, RangeMapped, CopiedPage, Make, Tabs, Addr, Flags,
          Entry, IsP;
      InvShape(V(), free);
      KeptSame(V(), d);
      KeptMono(V(), V(), Part(d, 0, 0), Part(d, p, p + 1));
      ghost var v0 := V();
      MappedInMemory(V(), free, pd, p);
      var ok, f := Kalloc();
      if !ok {
        return OutOfMemory;
      }
      HeldNotDir(V(), free, f);
      Fill(f, frames[Addr(w)]);
      InvShape(V(), free);
      ghost var v := V();
      KeptMono(v0, v, Part(f, 0, 0), Part(d, p, p + 1));
      KeptMono(v0, v, Part(f, 0, 0), Part(d, 0, 0));
      EntriesKept(v0, v, d, 0, 0);
      ProtectZero(0);
      MakeWhole(w);
      var m;
      ghost var n;
      m, n := Mappages(d, p * PGSIZE, PGSIZE, f, Flags(w));
      InvShape(V(), free);
      DirsTrans(v0, v, V(), d);
      if m == Mapped {
        KeptTrans(v0, v, V(), Part(f, 0, 0), Part(d, p, p + 1), Part(d, p, p + 1));
        CopyDone(v0, old(free), v, V(), pd, d, p, f, w);
        r := Copied(d);
      } else {
        assert m == NoMemory && frames == v.frames;
        r := OutOfMemory;
      }
    }

    /**
     mprotect() where every covered page has a page table: rewrites exactly the covered entries and
     nothing else. Frames stay properly owned if and only if the request is unknown or every covered
     user page was mapped: an unmapped one becomes present on frame 0. The kernel half is not exempt:
     where no page of it carried the user bit, one does afterwards if and only if the range reaches it
     and asks for reading.
     */
    method Mprotect(pd: Frame, addr: nat, len: int, prot: int)
      requires Valid() && pd in dirs && addr < (NPAGE - 1) * PGSIZE && 0 <= addr + len <= (NPAGE - 1) * PGSIZE
      requires forall q :: addr / PGSIZE <= q < addr / PGSIZE + Covered(addr, len) ==> HasTable(V(), pd, q)
      modifies this`frames
      ensures Protected(old(V()), V(), pd, addr / PGSIZE, Covered(addr, len), prot)
      ensures Valid() <==>
              !KnownProt(prot) ||
              forall q :: addr / PGSIZE <= q < addr / PGSIZE + Covered(addr, len) && q < NUSER ==>
                  IsP(old(Entry(V(), pd, q)))
      ensures pd in dirs && Shape(V())
      ensures forall q :: InRange(addr, len, q) ==>
                && (UserReads(V(), pd, q) <==> prot == PROT_READ || prot == PROT_READ + PROT_WRITE)
                && (UserWrites(V(), pd, q) <==> prot == PROT_READ + PROT_WRITE)
      ensures forall d, q :: d in dirs && 0 <= q < NPAGE && !(d == pd && InRange(addr, len, q)) ==>
                SameAccess(old(V()), V(), d, d, q)
      ensures !old(KernelOpen(V(), pd)) ==>
                (KernelOpen(V(), pd) <==> addr / PGSIZE + Covered(addr, len) > NUSER &&
                                          (prot == PROT_READ || prot == PROT_READ + PROT_WRITE))
    {
      hide UserReads, UserWrites, SameAccess;
      hide Owns, Clean, Inv, IsP, Addr, Protect, Entry, HasTable, Chain, KernelOpen;
      ghost var v, first, n := V(), addr / PGSIZE, Covered(addr, len);
      InvShape(v, free);
      ProtectStart(v, free, pd, first, prot);
      var c, more := addr / PGSIZE, true;
      while more
        invariant first <= c && (if more then c < first + n else c == first + n)
        invariant Chain(frames, freelist, free) && Protected(v, V(), pd, first, c - first, prot)
        decreases first + n - c, more
      {
        TableThere(v, free, V(), pd, c);
        var t := Addr(frames[pd][c / NENT]);
        var w := Protect(frames[t][c % NENT], prot);
        ProtectStep(v, free, V(), pd, first, c, prot);
        ChainWrite(frames, freelist, free, t, frames[t][c % NENT := w]);
        frames := frames[t := frames[t][c % NENT := w]];
        c := c + 1;
        more := c * PGSIZE < addr + len;
      }
      ProtectInv(v, free, V(), pd, first, n, prot);
      ProtectedAll(v, V(), pd, first, n, prot);
      if !KernelOpen(v, pd) {
        ProtectOpens(v, V(), pd, first, n, prot);
      }
    }
  }
}
