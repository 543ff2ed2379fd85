/** Page table entries and kernel pointers as 32-bit words (mmu.h, memlayout.h). */
module Paging {
  const PTE_P: bv32 := 1
  const PTE_W: bv32 := 2
  const PTE_U: bv32 := 4
  const KERNBASE: bv32 := 0x80000000
  /** First frame behind physical memory. */
  const TOP: bv20 := 0xE000

  /** A page frame. */
  datatype Frame = Frame(n: bv20)

  predicate IsP(w: bv32) {
    w & PTE_P != 0
  }

  /** PTE_ADDR, as a frame. */
  function Addr(w: bv32): Frame {
    Frame((w >> 12) as bv20)
  }

  function Flags(w: bv32): bv32 {
    w & 0xFFF
  }

  /** The entry for a frame with these flags. */
  function Make(f: Frame, flags: bv32): bv32 {
    ((f.n as bv32) << 12) | flags
  }

  lemma MakeBits(n: bv20, flags: bv32)
    requires flags <= 0xFFF
    ensures (((((n as bv32) << 12) | flags) >> 12) as bv20) == n && (((n as bv32) << 12) | flags) & 0xFFF == flags
    ensures (((n as bv32) << 12) | flags) & 1 == flags & 1
  {
  }

  lemma MakeParts(f: Frame, flags: bv32)
    requires flags <= 0xFFF
    ensures Addr(Make(f, flags)) == f && Flags(Make(f, flags)) == flags
    ensures IsP(Make(f, flags)) <==> IsP(flags)
  {
    hide IsP;
    MakeBits(f.n, flags);
    SamePresence(Make(f, flags), flags);
  }

  lemma SamePresence(w: bv32, w': bv32)
    requires w & 1 == w' & 1
    ensures IsP(w) <==> IsP(w')
  {
  }

  lemma MakeWhole(w: bv32)
    ensures Make(Addr(w), Flags(w)) == w && Flags(w) <= 0xFFF && (IsP(Flags(w)) <==> IsP(w))
  {
  }

  /** p2v() of a frame. */
  function P2v(f: Frame): bv32 {
    ((f.n as bv32) << 12) + KERNBASE
  }

  /** The frame a kernel pointer points to. */
  function V2p(p: bv32): Frame {
    Frame(((p - KERNBASE) >> 12) as bv20)
  }

  lemma P2vInverse(f: Frame)
    requires f.n < TOP
    ensures V2p(P2v(f)) == f && P2v(f) != 0
  {
  }

  // Protection.

  const PROT_READ := 1
  const PROT_WRITE := 2

  /** The four values mprotect() knows: none, read, write, read and write. */
  predicate KnownProt(prot: int) {
    0 <= prot <= PROT_READ + PROT_WRITE
  }

  /** The bits mprotect() sets. */
  function ProtBits(prot: int): bv32 {
    if prot == 0 then PTE_P
    else if prot == PROT_READ then PTE_P | PTE_U
    else if prot == PROT_WRITE then PTE_P | PTE_W
    else if prot == PROT_READ + PROT_WRITE then PTE_P | PTE_W | PTE_U
    else 0
  }

  /** What mprotect() makes of an entry: W and U are cleared, then the bits set. */
  function Protect(w: bv32, prot: int): bv32 {
    (w & 0xFFFF_FFF9) | ProtBits(prot)
  }

  lemma OrBits(w: bv32, x: bv32)
    requires x <= 7
    ensures var r := (w & 0xFFFF_FFF9) | x;
            r >> 12 == w >> 12 && r & 0xFF8 == w & 0xFF8 && r & 2 == x & 2 && r & 4 == x & 4 && r & 1 == (w | x) & 1
  {
  }

  lemma ProtBitsAre(prot: int)
    ensures ProtBits(prot) <= 7
    ensures ProtBits(prot) & 1 == if KnownProt(prot) then 1 else 0
    ensures ProtBits(prot) & 2 == if prot == PROT_WRITE || prot == PROT_READ + PROT_WRITE then 2 else 0
    ensures ProtBits(prot) & 4 == if prot == PROT_READ || prot == PROT_READ + PROT_WRITE then 4 else 0
  {
  }

  lemma SameAddr(w: bv32, w': bv32)
    requires w >> 12 == w' >> 12
    ensures Addr(w) == Addr(w')
  {
  }

  lemma LowBits(w: bv32, w': bv32)
    requires w & 0xFF8 == w' & 0xFF8
    ensures Flags(w) & 0xFF8 == Flags(w') & 0xFF8
  {
  }

  lemma PresentBit(r: bv32, w: bv32, x: bv32)
    requires r & 1 == (w | x) & 1
    ensures IsP(r) <==> x & 1 == 1 || IsP(w)
  {
  }

  /**
   mprotect() never changes which frame an entry refers to nor any flag but P, W and U; W and U
   follow the request; P is set for a known one.
   */
  lemma ProtectParts(w: bv32, prot: int)
    ensures Addr(Protect(w, prot)) == Addr(w) && Flags(Protect(w, prot)) & 0xFF8 == Flags(w) & 0xFF8
    ensures Protect(w, prot) & PTE_W == if prot == PROT_WRITE || prot == PROT_READ + PROT_WRITE then PTE_W else 0
    ensures Protect(w, prot) & PTE_U == if prot == PROT_READ || prot == PROT_READ + PROT_WRITE then PTE_U else 0
    ensures IsP(Protect(w, prot)) <==> KnownProt(prot) || IsP(w)
  {
    hide ProtBits, Addr, Flags, IsP;
    ProtBitsAre(prot);
    OrBits(w, ProtBits(prot));
    var r := Protect(w, prot);
    hide Protect;
    SameAddr(r, w);
    LowBits(r, w);
    PresentBit(r, w, ProtBits(prot));
  }

  lemma ProtectZero(prot: int)
    ensures !IsP(0) && Addr(0) == Frame(0)
    ensures !KnownProt(prot) ==> Protect(0, prot) == 0
  {
  }
}
