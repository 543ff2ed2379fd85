/**
 Which page frame belongs to what (vm.c, kalloc.c): page directories, page tables and user pages
 over the free list. Values only; Vm runs the code on them.
 */
module FrameOwners {
  import opened Paging

  const NENT := 1024
  /** Pages of the user half of an address space, and of the whole. */
  const NUSER := 512 * NENT
  const NPAGE := NENT * NENT

  /** Words of a frame. */
  type Words = seq<bv32>

  /** Contents of the frames between the end of the kernel and PHYSTOP, and the page directories in use. */
  datatype Mem = Mem(frames: map<Frame, Words>, dirs: set<Frame>)

  /** A place that can refer to a frame: a directory itself, entry i of it, or page p of the user half. */
  datatype Slot = Dir(pd: Frame) | Table(pd: Frame, i: nat) | Page(pd: Frame, p: nat)

  ghost predicate Shape(v: Mem) {
    && (forall f :: f in v.frames ==> |v.frames[f]| == NENT && 0 < f.n < TOP)
    && (forall pd :: pd in v.dirs ==> pd in v.frames)
    && (forall pd, i :: pd in v.dirs && 0 <= i < NENT ==> TableOk(v, pd, i))
  }

  ghost predicate TableOk(v: Mem, pd: Frame, i: nat)
    requires pd in v.frames && |v.frames[pd]| == NENT && i < NENT
  {
    IsP(v.frames[pd][i]) ==> Addr(v.frames[pd][i]) in v.frames
  }

  /** There is a page table for page p. */
  ghost predicate HasTable(v: Mem, pd: Frame, p: nat)
    requires Shape(v) && pd in v.dirs && p < NPAGE
  {
    IsP(v.frames[pd][p / NENT])
  }

  /** The page table entry of page p: 0 where there is no page table. */
  ghost function Entry(v: Mem, pd: Frame, p: nat): bv32
    requires Shape(v) && pd in v.dirs && p < NPAGE
  {
    assert TableOk(v, pd, p / NENT);
    if HasTable(v, pd, p) then v.frames[Addr(v.frames[pd][p / NENT])][p % NENT] else 0
  }

  ghost predicate Owns(v: Mem, s: Slot, f: Frame)
    requires Shape(v)
  {
    match s
    case Dir(pd) => pd in v.dirs && f == pd
    case Table(pd, i) => pd in v.dirs && i < NENT && IsP(v.frames[pd][i]) && f == Addr(v.frames[pd][i])
    case Page(pd, p) => pd in v.dirs && p < NUSER && IsP(Entry(v, pd, p)) && f == Addr(Entry(v, pd, p))
  }

  ghost predicate Unowned(v: Mem, f: Frame)
    requires Shape(v)
  {
    forall s :: !Owns(v, s, f)
  }

  /**
   No frame has two owners, an owned frame is never on the free list, and the free list has no
   repetitions.
   */
  ghost predicate Inv(v: Mem, free: seq<Frame>) {
    && Shape(v)
    && (forall s, f :: Owns(v, s, f) ==> f in v.frames && f !in free)
    && (forall s, t, f :: Owns(v, s, f) && Owns(v, t, f) ==> s == t)
    && (forall f :: f in free ==> f in v.frames)
    && (forall j, k :: 0 <= j < k < |free| ==> free[j] != free[k])
  }

  /** f is nobody's: neither owned nor free, as between kalloc() and its first use. */
  ghost predicate Held(v: Mem, free: seq<Frame>, f: Frame)
    requires Shape(v)
  {
    f in v.frames && f !in free && Unowned(v, f)
  }

  lemma TakeInv(v: Mem, free: seq<Frame>)
    requires Inv(v, free) && free != []
    ensures Inv(v, free[1..]) && Held(v, free[1..], free[0])
  {
    assert free[0] in free && forall f :: f in free[1..] ==> f in free;
  }

  lemma PutInv(v: Mem, free: seq<Frame>, f: Frame)
    requires Inv(v, free) && Held(v, free, f)
    ensures Inv(v, [f] + free)
  {
  }

  /** Every page of every address space has the same entry. */
  ghost predicate SameView(v: Mem, v': Mem)
    requires Shape(v) && Shape(v')
  {
    v.dirs <= v'.dirs && forall pd, p :: pd in v.dirs && 0 <= p < NPAGE ==> Entry(v', pd, p) == Entry(v, pd, p)
  }

  // Writing a frame.

  function Write(v: Mem, f: Frame, w: Words): Mem {
    v.(frames := v.frames[f := w])
  }

  /** Writing a frame that holds no directory and no table changes no entry. */
  lemma WriteShape(v: Mem, free: seq<Frame>, f: Frame, w: Words)
    requires Inv(v, free) && f in v.frames && |w| == NENT && forall s :: Owns(v, s, f) ==> s.Page?
    ensures var v' := Write(v, f, w);
            && Shape(v') && SameView(v, v')
            && forall pd, p :: pd in v.dirs && 0 <= p < NPAGE ==> HasTable(v', pd, p) == HasTable(v, pd, p)
  {
    hide IsP, Addr;
    var v' := Write(v, f, w);
    forall pd | pd in v.dirs ensures pd != f && v'.frames[pd] == v.frames[pd] {
      assert Owns(v, Dir(pd), pd);
    }
    forall pd, i | pd in v.dirs && 0 <= i < NENT
      ensures TableOk(v', pd, i) && (IsP(v.frames[pd][i]) ==> Addr(v.frames[pd][i]) != f)
    {
      assert TableOk(v, pd, i);
      if IsP(v.frames[pd][i]) {
        assert Owns(v, Table(pd, i), Addr(v.frames[pd][i]));
      }
    }
  }

  lemma WriteInv(v: Mem, free: seq<Frame>, f: Frame, w: Words)
    requires Inv(v, free) && f in v.frames && |w| == NENT && forall s :: Owns(v, s, f) ==> s.Page?
    ensures var v' := Write(v, f, w);
            Inv(v', free) && SameView(v, v') && forall s, g :: Owns(v', s, g) <==> Owns(v, s, g)
  {
    hide IsP, Addr;
    WriteShape(v, free, f, w);
    var v' := Write(v, f, w);
    forall s, g ensures Owns(v', s, g) <==> Owns(v, s, g) {
      if s.Dir? || s.Table? {
        if s.pd in v.dirs {
          assert Owns(v, Dir(s.pd), s.pd);
        }
      }
    }
  }

  /** When one slot changes hands: it owns g now, or nothing. */
  lemma OneSlotInv(v: Mem, v': Mem, free: seq<Frame>, slot: Slot, g: Frame, taken: bool)
    requires Inv(v, free) && Shape(v') && v'.frames.Keys == v.frames.Keys
    requires forall s, f :: Owns(v', s, f) <==> if s == slot then taken && f == g else Owns(v, s, f)
    requires taken ==> Held(v, free, g)
    ensures Inv(v', free)
  {
    hide Owns, Shape;
    assert forall f :: f in v'.frames.Keys <==> f in v.frames.Keys;
    forall s, f | Owns(v', s, f) ensures f in v'.frames && f !in free {
      assert s != slot ==> Owns(v, s, f);
    }
    forall s, t, f | Owns(v', s, f) && Owns(v', t, f) ensures s == t {
      assert (s != slot ==> Owns(v, s, f)) && (t != slot ==> Owns(v, t, f));
    }
  }

  // Page tables.

  function Zeros(): (r: Words)
    ensures |r| == NENT
  {
    seq(NENT, _ => 0)
  }

  /** Entry i of directory pd refers to the frame t from now on. */
  function AddTable(v: Mem, pd: Frame, i: nat, w: bv32): Mem
    requires pd in v.frames && i < |v.frames[pd]|
  {
    Write(v, pd, v.frames[pd][i := w])
  }

  /** A zeroed frame made a page table: no page's entry changes. */
  lemma AddTableView(v: Mem, free: seq<Frame>, pd: Frame, i: nat, w: bv32)
    requires Inv(v, free) && pd in v.dirs && i < NENT && !IsP(v.frames[pd][i])
    requires IsP(w) && Held(v, free, Addr(w)) && v.frames[Addr(w)] == Zeros()
    ensures var v' := AddTable(v, pd, i, w);
            Shape(v') && SameView(v, v') && v'.dirs == v.dirs && v'.frames.Keys == v.frames.Keys
  {
    var v' := AddTable(v, pd, i, w);
    assert Owns(v, Dir(pd), pd);
    forall d, k | d in v.dirs && 0 <= k < NENT && !(d == pd && k == i)
      ensures v'.frames[d][k] == v.frames[d][k] && TableOk(v', d, k)
      ensures (IsP(v.frames[d][k]) ==> Addr(v.frames[d][k]) != pd)
    {
      assert TableOk(v, d, k);
      if IsP(v.frames[d][k]) {
        assert Owns(v, Table(d, k), Addr(v.frames[d][k]));
      }
    }
    assert TableOk(v', pd, i);
    forall d, p | d in v.dirs && 0 <= p < NPAGE ensures Entry(v', d, p) == Entry(v, d, p) {
      if d == pd && p / NENT == i {
        assert v'.frames[Addr(w)] == Zeros();
      }
    }
  }

  lemma AddTableInv(v: Mem, free: seq<Frame>, pd: Frame, i: nat, w: bv32)
    requires Inv(v, free) && pd in v.dirs && i < NENT && !IsP(v.frames[pd][i])
    requires IsP(w) && Held(v, free, Addr(w)) && v.frames[Addr(w)] == Zeros()
    ensures var v' := AddTable(v, pd, i, w);
            Inv(v', free) && forall s, f :: Owns(v', s, f) <==> Owns(v, s, f) || (s == Table(pd, i) && f == Addr(w))
  {
    AddTableView(v, free, pd, i, w);
    var v' := AddTable(v, pd, i, w);
    forall s, f ensures Owns(v', s, f) <==> Owns(v, s, f) || (s == Table(pd, i) && f == Addr(w)) {
      match s {
        case Dir(_) =>
        case Table(d, k) =>
        case Page(d, p) =>
          if d in v.dirs && p < NUSER {
            assert Entry(v', d, p) == Entry(v, d, p);
          }
      }
    }
  }

  /** Page p's entry is rewritten in its table. */
  function SetEntry(v: Mem, pd: Frame, p: nat, w: bv32): Mem
    requires p < NPAGE && pd in v.frames && |v.frames[pd]| == NENT && Addr(v.frames[pd][p / NENT]) in v.frames
    requires |v.frames[Addr(v.frames[pd][p / NENT])]| == NENT
  {
    var t := Addr(v.frames[pd][p / NENT]);
    Write(v, t, v.frames[t][p % NENT := w])
  }

  /** Page directories and page tables share no frame. */
  ghost predicate Tables(v: Mem) {
    Shape(v) && forall s: Slot, t: Slot, f :: !s.Page? && !t.Page? && Owns(v, s, f) && Owns(v, t, f) ==> s == t
  }

  lemma SetEntryView(v: Mem, pd: Frame, p: nat, w: bv32)
    requires Tables(v) && pd in v.dirs && p < NPAGE && HasTable(v, pd, p) && TableOk(v, pd, p / NENT)
    ensures var v' := SetEntry(v, pd, p, w);
            && Shape(v') && v'.dirs == v.dirs && v'.frames.Keys == v.frames.Keys
            && (forall d, q :: d in v.dirs && 0 <= q < NPAGE ==>
                 Entry(v', d, q) == if d == pd && q == p then w else Entry(v, d, q))
            && (forall d :: d in v.dirs ==> v'.frames[d] == v.frames[d])
  {
    hide IsP, Addr;
    var v' := SetEntry(v, pd, p, w);
    var t := Addr(v.frames[pd][p / NENT]);
    assert Owns(v, Table(pd, p / NENT), t);
    forall d | d in v.dirs ensures d != t && v'.frames[d] == v.frames[d] {
      assert Owns(v, Dir(d), d);
    }
    forall d, k | d in v.dirs && 0 <= k < NENT
      ensures TableOk(v', d, k) && (IsP(v.frames[d][k]) && Addr(v.frames[d][k]) == t ==> d == pd && k == p / NENT)
    {
      assert TableOk(v, d, k);
      if IsP(v.frames[d][k]) {
        assert Owns(v, Table(d, k), Addr(v.frames[d][k]));
      }
    }
  }

  lemma SetEntryTables(v: Mem, pd: Frame, p: nat, w: bv32)
    requires Tables(v) && pd in v.dirs && p < NPAGE && HasTable(v, pd, p) && TableOk(v, pd, p / NENT)
    ensures Tables(SetEntry(v, pd, p, w))
  {
    SetEntryView(v, pd, p, w);
    var v' := SetEntry(v, pd, p, w);
    forall s: Slot, f | !s.Page? ensures Owns(v', s, f) <==> Owns(v, s, f) {
    }
    hide Owns;
  }

  lemma SetEntryOwns(v: Mem, free: seq<Frame>, pd: Frame, p: nat, w: bv32)
    requires Inv(v, free) && pd in v.dirs && p < NPAGE && HasTable(v, pd, p) && TableOk(v, pd, p / NENT)
    ensures var v' := SetEntry(v, pd, p, w);
            && Shape(v')
            && forall s, f :: Owns(v', s, f) <==>
                 if s == Page(pd, p) then p < NUSER && IsP(w) && f == Addr(w) else Owns(v, s, f)
  {
    hide IsP, Addr;
    SetEntryView(v, pd, p, w);
  }

  /** A page of the user half that was not mapped gets a frame of its own; or any page of the kernel half, any frame. */
  lemma MapInv(v: Mem, free: seq<Frame>, pd: Frame, p: nat, w: bv32)
    requires Inv(v, free) && pd in v.dirs && p < NPAGE && HasTable(v, pd, p) && TableOk(v, pd, p / NENT)
    requires p < NUSER ==> Held(v, free, Addr(w))
    ensures Inv(SetEntry(v, pd, p, w), free)
  {
    SetEntryView(v, pd, p, w);
    SetEntryOwns(v, free, pd, p, w);
    OneSlotInv(v, SetEntry(v, pd, p, w), free, Page(pd, p), Addr(w), p < NUSER && IsP(w));
  }

  /** An unmapped page gives up its frame. */
  lemma UnmapInv(v: Mem, free: seq<Frame>, pd: Frame, p: nat)
    requires Inv(v, free) && pd in v.dirs && p < NUSER && HasTable(v, pd, p) && TableOk(v, pd, p / NENT)
    requires IsP(Entry(v, pd, p))
    ensures var v' := SetEntry(v, pd, p, 0);
            Inv(v', free) && Held(v', free, Addr(Entry(v, pd, p)))
  {
    SetEntryOwns(v, free, pd, p, 0);
    assert Owns(v, Page(pd, p), Addr(Entry(v, pd, p)));
  }

  // Page directories.

  /** A zeroed frame made a page directory: nothing is mapped in it. */
  lemma AddDirInv(v: Mem, free: seq<Frame>, f: Frame)
    requires Inv(v, free) && Held(v, free, f) && v.frames[f] == Zeros()
    ensures var v' := v.(dirs := v.dirs + {f});
            && Inv(v', free) && f !in v.dirs && SameView(v, v')
            && (forall p :: 0 <= p < NPAGE ==> !HasTable(v', f, p) && Entry(v', f, p) == 0)
            && (forall s, g :: Owns(v', s, g) <==> Owns(v, s, g) || (s == Dir(f) && g == f))
  {
    var v' := v.(dirs := v.dirs + {f});
    assert !Owns(v, Dir(f), f);
    forall pd, i | pd in v'.dirs && 0 <= i < NENT ensures TableOk(v', pd, i) {
      if pd != f {
        assert TableOk(v, pd, i);
      }
    }
    forall s, g ensures Owns(v', s, g) <==> Owns(v, s, g) || (s == Dir(f) && g == f) {
    }
  }

  /** A directory given up takes all its slots with it. */
  lemma RemoveDirInv(v: Mem, free: seq<Frame>, pd: Frame)
    requires Inv(v, free)
    ensures var v' := v.(dirs := v.dirs - {pd});
            && Inv(v', free) && SameView(v', v)
            && (forall s, g :: Owns(v', s, g) <==> Owns(v, s, g) && s.pd != pd)
  {
    hide IsP, Addr;
    var v' := v.(dirs := v.dirs - {pd});
    forall d, i | d in v'.dirs && 0 <= i < NENT ensures TableOk(v', d, i) {
      assert TableOk(v, d, i);
    }
    forall s, g ensures Owns(v', s, g) <==> Owns(v, s, g) && s.pd != pd {
    }
  }

  // What an address space shows.

  /** Page p of pd is as it was: the same entry and, for a mapped user page, the same contents. */
  ghost predicate Kept(v: Mem, v': Mem, pd: Frame, p: nat)
    requires Shape(v) && Shape(v') && pd in v.dirs && pd in v'.dirs && p < NPAGE
  {
    && Entry(v', pd, p) == Entry(v, pd, p)
    && (p < NUSER && IsP(Entry(v, pd, p)) ==> SameFrame(v, v', Addr(Entry(v, pd, p))))
  }

  ghost predicate SameFrame(v: Mem, v': Mem, f: Frame) {
    f in v.frames && f in v'.frames && v'.frames[f] == v.frames[f]
  }

  /** Writing one frame keeps every page whose entry stays and that does not live in that frame. */
  lemma WriteKeeps(v: Mem, free: seq<Frame>, f: Frame, w: Words, pd: Frame, p: nat)
    requires Inv(v, free) && Shape(Write(v, f, w)) && pd in v.dirs && p < NPAGE
    requires Entry(Write(v, f, w), pd, p) == Entry(v, pd, p)
    requires !Owns(v, Page(pd, p), f)
    ensures Kept(v, Write(v, f, w), pd, p)
  {
    hide IsP, Addr;
    if p < NUSER && IsP(Entry(v, pd, p)) {
      assert Owns(v, Page(pd, p), Addr(Entry(v, pd, p)));
    }
  }

  /** All pages are kept but those of pd from lo up to hi; directories stay, others may appear. */
  ghost predicate KeptBut(v: Mem, v': Mem, pd: Frame, lo: nat, hi: nat)
    requires Shape(v) && Shape(v')
  {
    && v.dirs <= v'.dirs
    && forall d, p :: d in v.dirs && 0 <= p < NPAGE && !(d == pd && lo <= p < hi) ==> Kept(v, v', d, p)
  }

  /** A stretch of pages of one address space. */
  datatype Part = Part(pd: Frame, lo: nat, hi: nat)

  /** Of the address spaces of v, part a leaves out nothing that part b does not. */
  ghost predicate Within(v: Mem, a: Part, b: Part) {
    a.hi <= a.lo || a.pd !in v.dirs || (a.pd == b.pd && b.lo <= a.lo && a.hi <= b.hi)
  }

  lemma KeptMono(v: Mem, v': Mem, a: Part, b: Part)
    requires Shape(v) && Shape(v') && KeptBut(v, v', a.pd, a.lo, a.hi) && Within(v, a, b)
    ensures KeptBut(v, v', b.pd, b.lo, b.hi)
  {
    hide Entry, IsP, Addr, Shape;
  }

  lemma KeptTrans(v: Mem, v1: Mem, v2: Mem, a: Part, b: Part, c: Part)
    requires Shape(v) && Shape(v1) && Shape(v2) && KeptBut(v, v1, a.pd, a.lo, a.hi) && KeptBut(v1, v2, b.pd, b.lo, b.hi)
    requires Within(v, a, c) && Within(v, b, c)
    ensures KeptBut(v, v2, c.pd, c.lo, c.hi)
  {
    hide Entry, IsP, Addr, Shape;
    forall d, p | d in v.dirs && 0 <= p < NPAGE && !(d == c.pd && c.lo <= p < c.hi) ensures Kept(v, v2, d, p) {
      assert Kept(v, v1, d, p) && Kept(v1, v2, d, p);
    }
  }

  /** A frame in nobody's hands, with these contents, stays so. */
  ghost predicate HoldsOn(v: Mem, free: seq<Frame>, v': Mem, free': seq<Frame>, h: Frame)
    requires Shape(v) && Shape(v')
  {
    Held(v, free, h) ==> Held(v', free', h) && SameFrame(v, v', h)
  }

  /** A directory entry that leaves it to the page table entries what user mode may do. */
  predicate Open(w: bv32) {
    w & PTE_W != 0 && w & PTE_U != 0
  }

  /** All page tables are reached through such entries. */
  ghost predicate DirsOpen(v: Mem)
    requires Shape(v)
  {
    forall d, i :: d in v.dirs && 0 <= i < NENT && IsP(v.frames[d][i]) ==> Open(v.frames[d][i])
  }

  /** User pages that are not mapped have the entry 0, and no directory entry withholds anything. */
  ghost predicate Clean(v: Mem)
    requires Shape(v)
  {
    && DirsOpen(v)
    && forall d, p :: d in v.dirs && 0 <= p < NUSER ==> IsP(Entry(v, d, p)) || Entry(v, d, p) == 0
  }

  // What user mode may do with a page: the processor asks both levels (bits P, W and U).

  ghost predicate UserReads(v: Mem, pd: Frame, p: nat)
    requires Shape(v) && pd in v.dirs && p < NPAGE
  {
    && HasTable(v, pd, p) && v.frames[pd][p / NENT] & PTE_U != 0
    && IsP(Entry(v, pd, p)) && Entry(v, pd, p) & PTE_U != 0
  }

  ghost predicate UserWrites(v: Mem, pd: Frame, p: nat)
    requires Shape(v) && pd in v.dirs && p < NPAGE
  {
    UserReads(v, pd, p) && v.frames[pd][p / NENT] & PTE_W != 0 && Entry(v, pd, p) & PTE_W != 0
  }

  /** A page may be read and written from user mode exactly as its own entry says. */
  lemma AccessIsEntry(v: Mem, pd: Frame, p: nat)
    requires Shape(v) && DirsOpen(v) && pd in v.dirs && p < NPAGE
    ensures UserReads(v, pd, p) <==> IsP(Entry(v, pd, p)) && Entry(v, pd, p) & PTE_U != 0
    ensures UserWrites(v, pd, p) <==> UserReads(v, pd, p) && Entry(v, pd, p) & PTE_W != 0
  {
    assert !IsP(0);
    assert HasTable(v, pd, p) ==> Open(v.frames[pd][p / NENT]);
  }

  // The free list, linked through the first word of each free frame.

  /** The pointer to the k-th free frame; 0 behind the last. */
  ghost function Ptr(free: seq<Frame>, k: nat): bv32 {
    if k < |free| then P2v(free[k]) else 0
  }

  ghost predicate Chain(frames: map<Frame, Words>, head: bv32, free: seq<Frame>) {
    && head == Ptr(free, 0)
    && forall k :: 0 <= k < |free| ==>
         free[k] in frames && |frames[free[k]]| == NENT && free[k].n < TOP && frames[free[k]][0] == Ptr(free, k + 1)
  }

  lemma ChainPop(frames: map<Frame, Words>, head: bv32, free: seq<Frame>)
    requires Chain(frames, head, free)
    ensures free == [] <==> head == 0
    ensures free != [] ==> V2p(head) == free[0] && Chain(frames, frames[free[0]][0], free[1..])
  {
    if free != [] {
      P2vInverse(free[0]);
      assert forall k :: 0 <= k ==> Ptr(free[1..], k) == Ptr(free, k + 1);
    }
  }

  lemma ChainPush(frames: map<Frame, Words>, head: bv32, free: seq<Frame>, f: Frame, w: Words)
    requires Chain(frames, head, free) && f !in free && |w| == NENT && w[0] == head && f.n < TOP
    ensures Chain(frames[f := w], P2v(f), [f] + free)
  {
    hide P2v;
    var all, after := [f] + free, frames[f := w];
    forall k | 0 <= k < |all|
      ensures all[k] in after && |after[all[k]]| == NENT && all[k].n < TOP &&
              after[all[k]][0] == Ptr(all, k + 1)
    {
      assert Ptr(all, k + 1) == Ptr(free, k);
      assert k > 0 ==> all[k] == free[k - 1] && all[k] != f;
    }
  }

  lemma ChainWrite(frames: map<Frame, Words>, head: bv32, free: seq<Frame>, f: Frame, w: Words)
    requires Chain(frames, head, free) && f !in free
    ensures Chain(frames[f := w], head, free)
  {
    hide P2v;
  }

  /** Unmapping and freeing the frame: junk goes to the frame, then the entry is cleared. */
  lemma UnmapFreeInv(v: Mem, free: seq<Frame>, pd: Frame, p: nat, junk: Words)
    requires Inv(v, free) && Clean(v) && pd in v.dirs && p < NUSER && HasTable(v, pd, p) && TableOk(v, pd, p / NENT)
    requires IsP(Entry(v, pd, p)) && |junk| == NENT
    ensures var f, t := Addr(Entry(v, pd, p)), Addr(v.frames[pd][p / NENT]);
            var v' := Write(SetEntry(v, pd, p, 0), f, junk);
            && f in v.frames && f != t && f !in free && t !in free
            && Inv(v', [f] + free) && Clean(v') && v'.dirs == v.dirs && Entry(v', pd, p) == 0
            && KeptBut(v, v', pd, p, p + 1)
            && (forall q :: 0 <= q < NPAGE ==> HasTable(v', pd, q) == HasTable(v, pd, q))
            && (forall h :: HoldsOn(v, free, v', [f] + free, h)) && v'.frames[pd] == v.frames[pd]
  {
    var f, t := Addr(Entry(v, pd, p)), Addr(v.frames[pd][p / NENT]);
    assert Owns(v, Page(pd, p), f) && Owns(v, Table(pd, p / NENT), t) && Owns(v, Dir(pd), pd);
    var v1 := SetEntry(v, pd, p, 0);
    SetEntryView(v, pd, p, 0);
    SetEntryOwns(v, free, pd, p, 0);
    UnmapInv(v, free, pd, p);
    WriteInv(v1, free, f, junk);
    WriteShape(v1, free, f, junk);
    PutInv(Write(v1, f, junk), free, f);
    UnmapKeeps(v, free, pd, p, junk);
  }

  lemma UnmapKeeps(v: Mem, free: seq<Frame>, pd: Frame, p: nat, junk: Words)
    requires Inv(v, free) && Clean(v) && pd in v.dirs && p < NUSER && HasTable(v, pd, p) && TableOk(v, pd, p / NENT)
    requires IsP(Entry(v, pd, p)) && |junk| == NENT
    requires Shape(Write(SetEntry(v, pd, p, 0), Addr(Entry(v, pd, p)), junk))
    requires forall d, q :: d in v.dirs && 0 <= q < NPAGE ==>
               Entry(Write(SetEntry(v, pd, p, 0), Addr(Entry(v, pd, p)), junk), d, q) ==
               if d == pd && q == p then 0 else Entry(v, d, q)
    ensures var v' := Write(SetEntry(v, pd, p, 0), Addr(Entry(v, pd, p)), junk);
            KeptBut(v, v', pd, p, p + 1) && Clean(v')
  {
    hide IsP, Addr, Open;
    var f, t := Addr(Entry(v, pd, p)), Addr(v.frames[pd][p / NENT]);
    var v' := Write(SetEntry(v, pd, p, 0), f, junk);
    assert Owns(v, Page(pd, p), f) && Owns(v, Table(pd, p / NENT), t);
    forall d | d in v.dirs ensures v'.frames[d] == v.frames[d] {
      assert Owns(v, Dir(d), d);
    }
    forall d, q | d in v.dirs && 0 <= q < NPAGE && !(d == pd && p <= q < p + 1) ensures Kept(v, v', d, q) {
      if q < NUSER && IsP(Entry(v, d, q)) {
        assert Owns(v, Page(d, q), Addr(Entry(v, d, q)));
      }
    }
  }

  /** f is the page directory, a page table or a user page of pd. */
  ghost predicate OwnedBy(v: Mem, pd: Frame, f: Frame)
    requires Shape(v)
  {
    exists s: Slot :: s.pd == pd && Owns(v, s, f)
  }

  /** A directory given up leaves itself and its tables in nobody's hands, all different. */
  lemma DirParts(v: Mem, free: seq<Frame>, pd: Frame)
    requires Inv(v, free) && pd in v.dirs
    ensures var v' := v.(dirs := v.dirs - {pd});
            && Inv(v', free) && (Clean(v) ==> Clean(v')) && Held(v', free, pd)
            && (forall k :: 0 <= k < NENT && IsP(v.frames[pd][k]) ==>
                 Held(v', free, Addr(v.frames[pd][k])) && Addr(v.frames[pd][k]) != pd)
    ensures forall j, k :: 0 <= j < k < NENT && IsP(v.frames[pd][j]) && IsP(v.frames[pd][k]) ==>
                             Addr(v.frames[pd][j]) != Addr(v.frames[pd][k])
  {
    hide IsP, Addr;
    RemoveDirInv(v, free, pd);
    assert Owns(v, Dir(pd), pd);
    forall k | 0 <= k < NENT && IsP(v.frames[pd][k]) ensures Owns(v, Table(pd, k), Addr(v.frames[pd][k])) {
    }
  }

  /** Pages, tables, directory: that is all a directory owns. */
  lemma OwnedParts(v: Mem, pd: Frame, f: Frame)
    requires Shape(v) && pd in v.dirs
    ensures OwnedBy(v, pd, f) <==>
            || f == pd
            || (exists k :: 0 <= k < NENT && IsP(v.frames[pd][k]) && f == Addr(v.frames[pd][k]))
            || (exists q :: 0 <= q < NUSER && IsP(Entry(v, pd, q)) && f == Addr(Entry(v, pd, q)))
  {
    if f == pd {
      assert Owns(v, Dir(pd), f);
    }
    if k :| 0 <= k < NENT && IsP(v.frames[pd][k]) && f == Addr(v.frames[pd][k]) {
      assert Owns(v, Table(pd, k), f);
    }
    if q :| 0 <= q < NUSER && IsP(Entry(v, pd, q)) && f == Addr(Entry(v, pd, q)) {
      assert Owns(v, Page(pd, q), f);
    }
  }

  // Counting frames.

  /** The page tables of a directory. */
  ghost function Tabs(w: Words): set<nat> {
    set i | 0 <= i < |w| && IsP(w[i])
  }

  lemma {:induction false} TabsBound(w: Words)
    ensures |Tabs(w)| <= |w|
  {
    if w == [] {
      assert Tabs(w) == {};
    } else {
      var n := |w| - 1;
      TabsBound(w[..n]);
      assert Tabs(w) == if IsP(w[n]) then Tabs(w[..n]) + {n} else Tabs(w[..n]);
    }
  }

  lemma TabsAdd(w: Words, i: nat, e: bv32)
    requires i < |w| && !IsP(w[i]) && IsP(e)
    ensures |Tabs(w[i := e])| == |Tabs(w)| + 1
  {
    assert Tabs(w[i := e]) == Tabs(w) + {i};
  }

  lemma TabsZeros()
    ensures Tabs(Zeros()) == {}
  {
  }
}
