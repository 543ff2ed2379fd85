/**
 The user heap of umalloc.c: a circular, address-ordered free list of headers threaded
 through memory, searched first-fit from `freep`, with tail splitting and coalescing of
 freed blocks with both neighbours. Addresses are bytes, sizes are header units.
 */
module Umalloc {

  datatype Option<T> = None | Some(value: T)

  /** sizeof(Header). */
  const UNIT := 8
  /** Smallest request to sbrk(), in units. */
  const MINCORE := 4096
  /** No process reaches this address. */
  const KERNBASE := 0x8000_0000

  /** union header as stored in memory. */
  datatype Header = Header(ptr: nat, size: nat)

  /** A stretch of memory starting at a header. */
  datatype Blk = Blk(addr: nat, units: nat) {
    function End(): nat {
      addr + UNIT * units
    }
  }

  predicate Apart(x: Blk, y: Blk) {
    x.End() <= y.addr || y.End() <= x.addr
  }

  // Address-ordered lists of blocks; the first is `base`, of size zero.

  ghost predicate Sorted(free: seq<Blk>)
  {
    && |free| > 0 && free[0].units == 0
    && (forall i :: 1 <= i < |free| ==> free[i].units > 0 && free[0].addr + UNIT <= free[i].addr)
    && (forall i, j :: 0 <= i < j < |free| ==> free[i].End() < free[j].addr)
  }

  function After(free: seq<Blk>, i: nat): Blk
    requires i < |free|
  {
    if i + 1 < |free| then free[i + 1] else free[0]
  }

  /** Memory holds the list as one ring. */
  ghost predicate Linked(mem: map<nat, Header>, free: seq<Blk>)
  {
    forall i {:trigger After(free, i)} :: 0 <= i < |free| ==> HasNode(mem, free[i], After(free, i))
  }

  predicate HasNode(mem: map<nat, Header>, x: Blk, y: Blk)
  {
    x.addr in mem && mem[x.addr] == Header(y.addr, x.units)
  }

  /** Units in the first n blocks. */
  ghost function UnitsTo(free: seq<Blk>, n: nat): nat
    requires n <= |free|
  {
    if n == 0 then 0 else UnitsTo(free, n - 1) + free[n - 1].units
  }

  ghost function Units(free: seq<Blk>): nat {
    UnitsTo(free, |free|)
  }

  /** Units in the live blocks with these addresses. */
  ghost function UnitsOf(addrs: set<nat>, live: map<nat, nat>): nat
    requires addrs <= live.Keys
  {
    if addrs == {} then 0
    else
      var a :| a in addrs;
      live[a] + UnitsOf(addrs - {a}, live)
  }

  ghost function LiveUnits(live: map<nat, nat>): nat {
    UnitsOf(live.Keys, live)
  }

  lemma {:induction false} UnitsOfRemove(addrs: set<nat>, live: map<nat, nat>, a: nat)
    requires a in addrs && addrs <= live.Keys
    ensures UnitsOf(addrs, live) == live[a] + UnitsOf(addrs - {a}, live)
    decreases addrs
  {
    var b :| b in addrs && UnitsOf(addrs, live) == live[b] + UnitsOf(addrs - {b}, live);
    if a != b {
      UnitsOfRemove(addrs - {b}, live, a);
      UnitsOfRemove(addrs - {a}, live, b);
      assert addrs - {b} - {a} == addrs - {a} - {b};
    }
  }

  lemma {:induction false} UnitsOfFrame(addrs: set<nat>, live: map<nat, nat>, live': map<nat, nat>)
    requires addrs <= live.Keys && addrs <= live'.Keys && forall a :: a in addrs ==> live[a] == live'[a]
    ensures UnitsOf(addrs, live) == UnitsOf(addrs, live')
    decreases addrs
  {
    if addrs != {} {
      var b :| b in addrs && UnitsOf(addrs, live) == live[b] + UnitsOf(addrs - {b}, live);
      UnitsOfFrame(addrs - {b}, live, live');
      UnitsOfRemove(addrs, live', b);
    }
  }

  lemma LiveAdd(live: map<nat, nat>, a: nat, u: nat)
    requires a !in live
    ensures LiveUnits(live[a := u]) == LiveUnits(live) + u
  {
    var live' := live[a := u];
    UnitsOfRemove(live'.Keys, live', a);
    assert live'.Keys - {a} == live.Keys;
    UnitsOfFrame(live.Keys, live, live');
  }

  lemma LiveRemove(live: map<nat, nat>, a: nat)
    requires a in live
    ensures LiveUnits(live - {a}) == LiveUnits(live) - live[a]
  {
    UnitsOfRemove(live.Keys, live, a);
    UnitsOfFrame(live.Keys - {a}, live, live - {a});
    assert (live - {a}).Keys == live.Keys - {a};
  }

  // free(): where a block goes and what the list becomes.

  /** Block x fits between node t and the one after it. */
  ghost predicate Gap(free: seq<Blk>, t: nat, x: Blk)
  {
    && t < |free|
    && x.units > 0 && free[0].addr + UNIT <= x.addr
    && free[t].End() <= x.addr
    && (t + 1 < |free| ==> x.End() <= free[t + 1].addr)
  }

  /** The list with nodes i..j replaced by one. */
  function Splice(free: seq<Blk>, i: nat, j: nat, m: Blk): (r: seq<Blk>)
    requires i <= j <= |free|
    ensures |r| == |free| + 1 - (j - i)
    ensures forall k :: 0 <= k < i ==> r[k] == free[k]
    ensures r[i] == m
    ensures forall k :: i < k < |r| ==> r[k] == free[k - 1 + (j - i)]
  {
    free[..i] + [m] + free[j..]
  }

  lemma {:induction false} SpliceUnits(free: seq<Blk>, i: nat, j: nat, m: Blk, k: nat)
    requires i <= j <= |free|
    requires k <= |Splice(free, i, j, m)|
    ensures UnitsTo(Splice(free, i, j, m), k) ==
            if k <= i then UnitsTo(free, k)
            else UnitsTo(free, k - 1 + (j - i)) - UnitsTo(free, j) + UnitsTo(free, i) + m.units
  {
    if k > 0 {
      SpliceUnits(free, i, j, m, k - 1);
    }
  }

  lemma SpliceSorted(free: seq<Blk>, i: nat, j: nat, m: Blk)
    requires Sorted(free) && 1 <= i <= j <= |free|
    requires m.units > 0 && free[0].addr + UNIT <= m.addr
    requires free[i - 1].End() < m.addr && (j < |free| ==> m.End() < free[j].addr)
    ensures Sorted(Splice(free, i, j, m)) && Splice(free, i, j, m)[0] == free[0]
  {
    var r := Splice(free, i, j, m);
    assert forall k :: 0 <= k < i ==> free[k].End() < m.addr;
    assert forall k :: j <= k < |free| ==> m.End() < free[k].addr;
    forall p, q | 0 <= p < q < |r| ensures r[p].End() < r[q].addr {
    }
  }

  lemma SpliceAfter(free: seq<Blk>, i: nat, j: nat, m: Blk, k: nat)
    requires 1 <= i <= j <= |free| && k <= |free| - (j - i)
    ensures var r, o := Splice(free, i, j, m), if k < i then k else k - 1 + (j - i);
            && (k != i ==> r[k] == free[o])
            && After(r, k) == if k == i - 1 then m else if k == i && j > i then After(free, j - 1)
                              else if k == i then After(free, i - 1) else After(free, o)
  {
  }

  predicate TouchesRight(free: seq<Blk>, t: nat, x: Blk)
    requires t < |free|
  {
    t + 1 < |free| && x.End() == free[t + 1].addr
  }

  /** What free() makes of x once it is behind node t: merged with whichever neighbours it touches. */
  function Joined(free: seq<Blk>, t: nat, x: Blk): Blk
    requires t < |free|
  {
    var u := x.units + if TouchesRight(free, t, x) then free[t + 1].units else 0;
    if free[t].End() == x.addr then Blk(free[t].addr, free[t].units + u) else Blk(x.addr, u)
  }

  function Freed(free: seq<Blk>, t: nat, x: Blk): seq<Blk>
    requires t < |free|
  {
    Splice(free, if free[t].End() == x.addr then t else t + 1,
           if TouchesRight(free, t, x) then t + 2 else t + 1, Joined(free, t, x))
  }

  lemma FreedUnits(free: seq<Blk>, t: nat, x: Blk)
    requires t < |free|
    ensures Units(Freed(free, t, x)) == Units(free) + x.units
  {
    var i := if free[t].End() == x.addr then t else t + 1;
    var j := if TouchesRight(free, t, x) then t + 2 else t + 1;
    SpliceUnits(free, i, j, Joined(free, t, x), |Freed(free, t, x)|);
    assert UnitsTo(free, t + 1) == UnitsTo(free, t) + free[t].units;
  }

  lemma FreedSorted(free: seq<Blk>, t: nat, x: Blk)
    requires Sorted(free) && Gap(free, t, x)
    ensures Sorted(Freed(free, t, x)) && Freed(free, t, x)[0] == free[0]
  {
    hide Splice;
    var i := if free[t].End() == x.addr then t else t + 1;
    var j := if TouchesRight(free, t, x) then t + 2 else t + 1;
    SpliceSorted(free, i, j, Joined(free, t, x));
  }

  /** The pointer assignments of free(), with p the predecessor found and bp the block. */
  function FreeMem(mem: map<nat, Header>, p: nat, bp: nat): map<nat, Header>
    requires p in mem && bp in mem && mem[p].ptr in mem
  {
    var q := mem[p].ptr;
    var h := if bp + UNIT * mem[bp].size == q then Header(mem[q].ptr, mem[bp].size + mem[q].size)
             else Header(q, mem[bp].size);
    var mem1 := mem[bp := h];
    if p + UNIT * mem1[p].size == bp then mem1[p := Header(h.ptr, mem1[p].size + h.size)]
    else mem1[p := mem1[p].(ptr := bp)]
  }

  lemma NodesDiffer(free: seq<Blk>, i: nat, j: nat)
    requires Sorted(free) && i < |free| && j < |free| && i != j
    ensures free[i].addr != free[j].addr
  {
    assert i < j ==> free[i].End() < free[j].addr;
    assert j < i ==> free[j].End() < free[i].addr;
  }

  ghost predicate FreeStep(mem: map<nat, Header>, free: seq<Blk>, t: nat, x: Blk)
  {
    && Sorted(free) && Linked(mem, free) && Gap(free, t, x)
    && x.addr in mem && mem[x.addr].size == x.units
    && free[t].addr in mem && mem[free[t].addr].ptr in mem
  }

  lemma NeighboursInMemory(mem: map<nat, Header>, free: seq<Blk>, t: nat)
    requires Linked(mem, free) && t < |free|
    ensures HasNode(mem, free[t], After(free, t)) && After(free, t).addr in mem
    ensures t + 1 < |free| ==> HasNode(mem, free[t + 1], After(free, t + 1))
  {
    var u := if t + 1 < |free| then t + 1 else 0;
    assert HasNode(mem, free[t], After(free, t));
    assert HasNode(mem, free[u], After(free, u));
  }

  /** A node that is neither the predecessor nor the freed block keeps its header and its successor. */
  lemma OtherNode(mem: map<nat, Header>, free: seq<Blk>, t: nat, x: Blk, o: nat)
    requires FreeStep(mem, free, t, x) && o < |free| && o != t && !(o == t + 1 && TouchesRight(free, t, x))
    ensures HasNode(FreeMem(mem, free[t].addr, x.addr), free[o], After(free, o))
  {
    NodesDiffer(free, o, t);
    assert HasNode(mem, free[o], After(free, o));
    assert free[o].addr != x.addr by {
      assert o < t ==> free[o].End() < free[t].addr;
      assert o > t ==> x.End() <= free[t + 1].addr <= free[o].addr;
    }
  }

  /** The freed block, alone or merged to the right, precedes what followed the gap. */
  lemma FreedNode(mem: map<nat, Header>, free: seq<Blk>, t: nat, x: Blk)
    requires FreeStep(mem, free, t, x)
    ensures var mem', m := FreeMem(mem, free[t].addr, x.addr), Joined(free, t, x);
            && HasNode(mem', m, After(free, if TouchesRight(free, t, x) then t + 1 else t))
            && (free[t].End() != x.addr ==> HasNode(mem', free[t], m))
  {
    NeighboursInMemory(mem, free, t);
    assert free[t].addr < x.addr by {
      assert t == 0 ==> free[t].addr + UNIT <= x.addr;
    }
    assert t + 1 == |free| ==> x.End() != free[0].addr;
  }

  /** The assignments leave exactly the coalesced list in memory. */
  lemma FreedLinked(mem: map<nat, Header>, free: seq<Blk>, t: nat, x: Blk)
    requires FreeStep(mem, free, t, x)
    ensures Linked(FreeMem(mem, free[t].addr, x.addr), Freed(free, t, x))
  {
    var r := Freed(free, t, x);
    var mem' := FreeMem(mem, free[t].addr, x.addr);
    FreedNode(mem, free, t, x);
    assert free[0].End() != x.addr;
    var i := if free[t].End() == x.addr then t else t + 1;
    var j := if TouchesRight(free, t, x) then t + 2 else t + 1;
    forall k | 0 <= k < |r| ensures HasNode(mem', r[k], After(r, k)) {
      SpliceAfter(free, i, j, Joined(free, t, x), k);
      var o := if k < i then k else k - 1 + (j - i);
      if k != i && o != t {
        OtherNode(mem, free, t, x, o);
      }
    }
  }

  // malloc(): taking n units out of node i.

  function Without(free: seq<Blk>, i: nat): (r: seq<Blk>)
    requires i < |free|
    ensures |r| == |free| - 1
    ensures forall k :: 0 <= k < |r| ==> r[k] == free[if k < i then k else k + 1]
  {
    free[..i] + free[i + 1..]
  }

  function Taken(free: seq<Blk>, i: nat, n: nat): seq<Blk>
    requires i < |free| && n <= free[i].units
  {
    if free[i].units == n then Without(free, i) else free[i := Blk(free[i].addr, free[i].units - n)]
  }

  /** The block handed out: all of node i, or its tail. */
  function Given(free: seq<Blk>, i: nat, n: nat): Blk
    requires i < |free| && n <= free[i].units
  {
    Blk(free[i].addr + UNIT * (free[i].units - n), n)
  }

  lemma TakenSorted(free: seq<Blk>, i: nat, n: nat)
    requires Sorted(free) && 1 <= i < |free| && 0 < n <= free[i].units
    ensures Sorted(Taken(free, i, n)) && Taken(free, i, n)[0] == free[0]
  {
  }

  lemma {:induction false} WithoutUnits(free: seq<Blk>, i: nat, k: nat)
    requires i < |free| && k < |free|
    ensures UnitsTo(Without(free, i), k) == if k <= i then UnitsTo(free, k) else UnitsTo(free, k + 1) - free[i].units
  {
    if k > 0 {
      WithoutUnits(free, i, k - 1);
    }
  }

  lemma {:induction false} UpdateUnits(free: seq<Blk>, i: nat, m: Blk, k: nat)
    requires i < |free| && k <= |free|
    ensures UnitsTo(free[i := m], k) == if k <= i then UnitsTo(free, k) else UnitsTo(free, k) - free[i].units + m.units
  {
    if k > 0 {
      UpdateUnits(free, i, m, k - 1);
    }
  }

  lemma TakenUnits(free: seq<Blk>, i: nat, n: nat)
    requires i < |free| && n <= free[i].units
    ensures Units(Taken(free, i, n)) == Units(free) - n
  {
    WithoutUnits(free, i, |free| - 1);
    UpdateUnits(free, i, Blk(free[i].addr, free[i].units - n), |free|);
  }

  /** prevp->s.ptr = p->s.ptr, or the two size assignments of the split. */
  function TakeMem(mem: map<nat, Header>, prevp: nat, p: nat, n: nat): map<nat, Header>
    requires prevp in mem && p in mem && n <= mem[p].size
  {
    if mem[p].size == n then mem[prevp := mem[prevp].(ptr := mem[p].ptr)]
    else
      var left := mem[p].size - n;
      var tail := p + UNIT * left;
      mem[p := mem[p].(size := left)][tail := if tail in mem then mem[tail].(size := n) else Header(0, n)]
  }

  lemma WithoutLinked(mem: map<nat, Header>, free: seq<Blk>, i: nat)
    requires Sorted(free) && Linked(mem, free) && 1 <= i < |free|
    requires HasNode(mem, free[i], After(free, i)) && HasNode(mem, free[i - 1], free[i])
    ensures Linked(TakeMem(mem, free[i - 1].addr, free[i].addr, free[i].units), Without(free, i))
  {
    var mem' := TakeMem(mem, free[i - 1].addr, free[i].addr, free[i].units);
    var r := Without(free, i);
    forall k | 0 <= k < |r| ensures HasNode(mem', r[k], After(r, k)) {
      var o := if k < i then k else k + 1;
      if o != i - 1 {
        NodesDiffer(free, o, i - 1);
        assert HasNode(mem, free[o], After(free, o));
        assert After(r, k) == After(free, o);
      } else {
        assert After(r, k) == After(free, i);
      }
    }
  }

  lemma ShrunkLinked(mem: map<nat, Header>, free: seq<Blk>, i: nat, n: nat)
    requires Sorted(free) && Linked(mem, free) && 1 <= i < |free| && 0 < n < free[i].units
    requires HasNode(mem, free[i], After(free, i)) && free[i - 1].addr in mem
    ensures Linked(TakeMem(mem, free[i - 1].addr, free[i].addr, n), free[i := Blk(free[i].addr, free[i].units - n)])
  {
    var mem' := TakeMem(mem, free[i - 1].addr, free[i].addr, n);
    var r := free[i := Blk(free[i].addr, free[i].units - n)];
    forall k | 0 <= k < |r| ensures HasNode(mem', r[k], After(r, k)) {
      assert HasNode(mem, free[k], After(free, k));
      assert After(r, k).addr == After(free, k).addr;
      if k != i {
        NodesDiffer(free, k, i);
        assert k < i ==> free[k].End() < free[i].addr;
        assert k > i ==> free[i].End() < free[k].addr;
      }
    }
  }

  lemma TakenLinked(mem: map<nat, Header>, free: seq<Blk>, i: nat, n: nat)
    requires Sorted(free) && Linked(mem, free) && 1 <= i < |free| && 0 < n <= free[i].units
    ensures free[i - 1].addr in mem && free[i].addr in mem && mem[free[i].addr].size == free[i].units
    ensures var mem' := TakeMem(mem, free[i - 1].addr, free[i].addr, n);
            && Linked(mem', Taken(free, i, n))
            && Given(free, i, n).addr in mem' && mem'[Given(free, i, n).addr].size == n
  {
    NeighboursInMemory(mem, free, i - 1);
    if free[i].units == n {
      WithoutLinked(mem, free, i);
      NodesDiffer(free, i - 1, i);
    } else {
      ShrunkLinked(mem, free, i, n);
    }
  }

  // Requests.

  /** nunits of malloc(), in 32-bit arithmetic. */
  function NUnits(nbytes: nat): (n: nat)
    ensures 0 < n <= 0x2000_0000
  {
    (nbytes + UNIT - 1) % 0x1_0000_0000 / UNIT + 1
  }

  function CoreUnits(nunits: nat): nat {
    if nunits < MINCORE then MINCORE else nunits
  }

  /** The argument sbrk() receives: a 32-bit product read as a signed int. */
  function SbrkArg(nunits: nat): (r: int)
    ensures 0x1000_0000 <= nunits <= 0x2000_0000 ==> r <= 0
  {
    var u := CoreUnits(nunits) * UNIT % 0x1_0000_0000;
    if u < 0x8000_0000 then u else u - 0x1_0000_0000
  }

  /** Where memory ends after sbrk(n) with n at most 0: more than there is cannot be given up. */
  function Shrunk(top: nat, n: int): (r: nat)
    requires n <= 0
    ensures r <= top
  {
    if top + n >= 0 then top + n else top
  }

  /** Which requests need how many units. */
  lemma UnitsRange(nbytes: nat)
    requires nbytes < 0x1_0000_0000
    ensures 0 < NUnits(nbytes) <= 0x2000_0000
    ensures nbytes <= 0x7FFF_FFF0 ==> NUnits(nbytes) < 0x1000_0000 && nbytes <= (NUnits(nbytes) - 1) * UNIT
    ensures 0x7FFF_FFF0 < nbytes <= 0xFFFF_FFF8 <==> NUnits(nbytes) >= 0x1000_0000
    ensures nbytes > 0xFFFF_FFF8 ==> NUnits(nbytes) == 1
  {
  }

  /** What sbrk() is asked for: the right number of bytes below 2^28 units, nothing or less from there on. */
  lemma SbrkArgs(nunits: nat)
    requires 0 < nunits <= 0x2000_0000
    ensures if nunits < 0x1000_0000 then SbrkArg(nunits) == UNIT * CoreUnits(nunits) > 0
            else -0x8000_0000 <= SbrkArg(nunits) <= 0
  {
  }

  // Free and live blocks together.

  ghost predicate LiveOk(base: nat, mem: map<nat, Header>, live: map<nat, nat>)
  {
    forall a :: a in live ==> LiveHeader(base, mem, Blk(a, live[a]))
  }

  ghost predicate LiveHeader(base: nat, mem: map<nat, Header>, x: Blk)
  {
    x.units > 0 && base + UNIT <= x.addr && x.addr in mem && mem[x.addr].size == x.units
  }

  ghost predicate LiveApart(live: map<nat, nat>)
  {
    forall a, b :: a in live && b in live && a != b ==> Apart(Blk(a, live[a]), Blk(b, live[b]))
  }

  ghost predicate ApartFrom(x: Blk, free: seq<Blk>)
  {
    forall i :: 1 <= i < |free| ==> Apart(x, free[i])
  }

  ghost predicate HeapApart(live: map<nat, nat>, free: seq<Blk>)
  {
    forall a :: a in live ==> ApartFrom(Blk(a, live[a]), free)
  }

  ghost predicate HeapOk(base: nat, mem: map<nat, Header>, live: map<nat, nat>, free: seq<Blk>)
  {
    && Sorted(free) && free[0] == Blk(base, 0) && Linked(mem, free)
    && LiveOk(base, mem, live) && LiveApart(live) && HeapApart(live, free)
  }

  ghost predicate IsNode(free: seq<Blk>, a: nat)
  {
    exists f :: 0 <= f < |free| && free[f].addr == a
  }

  /** The last node below address a. */
  ghost function Below(free: seq<Blk>, a: nat, n: nat): (t: nat)
    requires Sorted(free) && free[0].addr < a && 1 <= n <= |free|
    ensures t < n && free[t].addr < a && (t + 1 < n ==> a <= free[t + 1].addr)
  {
    if free[n - 1].addr < a then n - 1 else Below(free, a, n - 1)
  }

  lemma GapBelow(free: seq<Blk>, x: Blk)
    requires Sorted(free) && x.units > 0 && free[0].addr + UNIT <= x.addr && ApartFrom(x, free)
    ensures Gap(free, Below(free, x.addr, |free|), x)
  {
    var t := Below(free, x.addr, |free|);
    assert t >= 1 ==> Apart(x, free[t]);
    assert t + 1 < |free| ==> Apart(x, free[t + 1]);
  }

  /** A block apart from x and from the list is apart from the list with x in it. */
  lemma FreedApart(free: seq<Blk>, t: nat, x: Blk, y: Blk)
    requires Sorted(free) && Gap(free, t, x) && y.units > 0 && free[0].addr + UNIT <= y.addr
    requires Apart(y, x) && ApartFrom(y, free)
    ensures ApartFrom(y, Freed(free, t, x))
  {
    assert Apart(y, Joined(free, t, x)) by {
      assert t >= 1 ==> Apart(y, free[t]);
      assert t + 1 < |free| ==> Apart(y, free[t + 1]);
    }
    var i := if free[t].End() == x.addr then t else t + 1;
    var j := if TouchesRight(free, t, x) then t + 2 else t + 1;
    SpliceApart(free, i, j, Joined(free, t, x), y);
  }

  lemma SpliceApart(free: seq<Blk>, i: nat, j: nat, m: Blk, y: Blk)
    requires i <= j <= |free| && ApartFrom(y, free) && Apart(y, m) && j >= 1
    ensures ApartFrom(y, Splice(free, i, j, m))
  {
    hide Apart;
    var r := Splice(free, i, j, m);
    forall k | 1 <= k < |r| ensures Apart(y, r[k]) {
      assert k < i ==> Apart(y, free[k]);
      assert k > i ==> Apart(y, free[k - 1 + (j - i)]);
    }
  }

  lemma FreedHeap(base: nat, mem: map<nat, Header>, live: map<nat, nat>, free: seq<Blk>, t: nat, bp: nat)
    requires bp in live && LiveOk(base, mem, live) && LiveApart(live) && HeapApart(live, free)
    requires FreeStep(mem, free, t, Blk(bp, live[bp])) && free[0].addr == base
    ensures LiveOk(base, FreeMem(mem, free[t].addr, bp), live - {bp})
    ensures LiveApart(live - {bp}) && HeapApart(live - {bp}, Freed(free, t, Blk(bp, live[bp])))
  {
    var x, mem' := Blk(bp, live[bp]), FreeMem(mem, free[t].addr, bp);
    forall a | a in live && a != bp
      ensures LiveHeader(base, mem', Blk(a, live[a])) && ApartFrom(Blk(a, live[a]), Freed(free, t, x))
    {
      var y := Blk(a, live[a]);
      assert LiveHeader(base, mem, y) && ApartFrom(y, free) && Apart(y, x);
      assert a != free[t].addr by {
        assert t >= 1 ==> Apart(y, free[t]);
      }
      FreedApart(free, t, x, y);
    }
  }

  /** A block apart from the list is apart from what is left of it and from the part taken out. */
  lemma TakenApart(free: seq<Blk>, i: nat, n: nat, y: Blk)
    requires 1 <= i < |free| && n <= free[i].units && ApartFrom(y, free)
    ensures ApartFrom(y, Taken(free, i, n)) && Apart(y, Given(free, i, n))
  {
    assert Apart(y, free[i]);
  }

  lemma GivenApart(free: seq<Blk>, i: nat, n: nat)
    requires Sorted(free) && 1 <= i < |free| && 0 < n <= free[i].units
    ensures ApartFrom(Given(free, i, n), Taken(free, i, n))
  {
    var y, r := Given(free, i, n), Taken(free, i, n);
    forall k | 1 <= k < |r| ensures Apart(y, r[k]) {
      var o := if free[i].units == n && k >= i then k + 1 else k;
      assert o < i ==> free[o].End() < free[i].addr;
      assert o > i ==> free[i].End() < free[o].addr;
    }
  }

  lemma TakenHeap(base: nat, mem: map<nat, Header>, live: map<nat, nat>, free: seq<Blk>, i: nat, n: nat)
    requires LiveOk(base, mem, live) && LiveApart(live) && HeapApart(live, free)
    requires Sorted(free) && Linked(mem, free) && free[0].addr == base && 1 <= i < |free| && 0 < n <= free[i].units
    ensures free[i - 1].addr in mem && free[i].addr in mem && mem[free[i].addr].size == free[i].units
    ensures var y, mem' := Given(free, i, n), TakeMem(mem, free[i - 1].addr, free[i].addr, n);
            && y.addr !in live
            && LiveOk(base, mem', live[y.addr := n])
            && LiveApart(live[y.addr := n]) && HeapApart(live[y.addr := n], Taken(free, i, n))
  {
    TakenLinked(mem, free, i, n);
    GivenApart(free, i, n);
    var y, mem' := Given(free, i, n), TakeMem(mem, free[i - 1].addr, free[i].addr, n);
    forall a | a in live
      ensures Apart(Blk(a, live[a]), y) && ApartFrom(Blk(a, live[a]), Taken(free, i, n))
      ensures a != y.addr && LiveHeader(base, mem', Blk(a, live[a]))
    {
      var z := Blk(a, live[a]);
      assert LiveHeader(base, mem, z) && ApartFrom(z, free);
      TakenApart(free, i, n, z);
      assert Apart(z, free[i]);
      assert a != free[i - 1].addr by {
        assert i - 1 >= 1 ==> Apart(z, free[i - 1]);
      }
    }
  }

  /** The node `c` places after node f, going round. */
  function Ahead(n: nat, f: nat, c: nat): nat
    requires f < n && c <= n
  {
    if f + c < n then f + c else f + c - n
  }

  /** The c nodes behind node f have fewer than n units. */
  ghost predicate TooSmall(free: seq<Blk>, f: nat, c: nat, n: nat)
    requires f < |free| && c <= |free|
  {
    forall d :: 1 <= d <= c ==> free[Ahead(|free|, f, d)].units < n
  }

  ghost predicate NoneFits(free: seq<Blk>, n: nat)
  {
    forall i :: 0 <= i < |free| ==> free[i].units < n
  }

  /** malloc()'s cursors stand at the node c places after node f and at the one behind that. */
  ghost predicate Cursors(mem: map<nat, Header>, free: seq<Blk>, f: nat, c: nat, prevp: nat, p: nat)
  {
    && f < |free| && c < |free|
    && prevp == free[Ahead(|free|, f, c)].addr
    && HasNode(mem, free[Ahead(|free|, f, c + 1)], After(free, Ahead(|free|, f, c + 1)))
    && p == free[Ahead(|free|, f, c + 1)].addr
  }

  lemma StartCursors(mem: map<nat, Header>, free: seq<Blk>, f: nat)
    requires Linked(mem, free) && f < |free|
    ensures free[f].addr in mem && mem[free[f].addr].ptr in mem
    ensures Cursors(mem, free, f, 0, free[f].addr, mem[free[f].addr].ptr)
  {
    assert HasNode(mem, free[f], After(free, f));
    var i := Ahead(|free|, f, 1);
    assert HasNode(mem, free[i], After(free, i));
  }

  lemma MoveCursors(mem: map<nat, Header>, free: seq<Blk>, f: nat, c: nat, prevp: nat, p: nat, n: nat)
    requires Linked(mem, free) && Cursors(mem, free, f, c, prevp, p)
    requires TooSmall(free, f, c, n) && mem[p].size < n && p != free[f].addr
    ensures mem[p].ptr in mem
    ensures c + 1 < |free| && Cursors(mem, free, f, c + 1, p, mem[p].ptr) && TooSmall(free, f, c + 1, n)
  {
    assert Ahead(|free|, f, |free|) == f;
    var i := Ahead(|free|, f, c + 2);
    assert HasNode(mem, free[i], After(free, i));
  }

  /** A fitting node is not base, so its predecessor in the ring is its predecessor in the list. */
  lemma FoundAt(mem: map<nat, Header>, free: seq<Blk>, f: nat, c: nat, prevp: nat, p: nat, n: nat)
    requires Sorted(free) && Cursors(mem, free, f, c, prevp, p) && mem[p].size >= n > 0
    ensures var i := Ahead(|free|, f, c + 1);
            1 <= i < |free| && prevp == free[i - 1].addr && p == free[i].addr && free[i].units >= n
  {
  }

  /** Back at freep: every node has been looked at. */
  lemma RoundOnce(mem: map<nat, Header>, free: seq<Blk>, f: nat, c: nat, prevp: nat, n: nat)
    requires f < |free| && Sorted(free) && Cursors(mem, free, f, c, prevp, free[f].addr)
    requires TooSmall(free, f, c, n) && mem[free[f].addr].size < n
    ensures NoneFits(free, n)
  {
    var j := Ahead(|free|, f, c + 1);
    if j != f {
      NodesDiffer(free, j, f);
    }
    forall i | 0 <= i < |free| && i != f ensures free[i].units < n {
      var d := if i > f then i - f else i + |free| - f;
      assert Ahead(|free|, f, d) == i;
    }
  }

  lemma BaseAlone(base: nat, mem: map<nat, Header>, free: seq<Blk>)
    requires base in mem && mem[base] == Header(base, 0) && free == [Blk(base, 0)]
    ensures HeapOk(base, mem, map[], free) && IsNode(free, base)
  {
    assert free[0].addr == base;
  }

  /** Everything the fitting branch of malloc() keeps. */
  lemma TakeAll(base: nat, mem: map<nat, Header>, live: map<nat, nat>, free: seq<Blk>, i: nat, n: nat)
    requires base > 0 && HeapOk(base, mem, live, free) && 1 <= i < |free| && 0 < n <= free[i].units
    ensures free[i - 1].addr in mem && free[i].addr in mem && mem[free[i].addr].size == free[i].units
    ensures Given(free, i, n).addr !in live && free[i - 1].addr > 0
    ensures var a := Given(free, i, n).addr;
            var free', mem', live' := Taken(free, i, n), TakeMem(mem, free[i - 1].addr, free[i].addr, n), live[a := n];
            && HeapOk(base, mem', live', free') && IsNode(free', free[i - 1].addr)
            && Units(free') + LiveUnits(live') == Units(free) + LiveUnits(live)
  {
    TakenSorted(free, i, n);
    TakenUnits(free, i, n);
    TakenLinked(mem, free, i, n);
    TakenHeap(base, mem, live, free, i, n);
    LiveAdd(live, Given(free, i, n).addr, n);
    assert Taken(free, i, n)[i - 1].addr == free[i - 1].addr;
  }

  /** Node t is at address a, and it or the node behind it has n units. */
  ghost predicate Holding(free: seq<Blk>, t: nat, a: nat, n: nat)
  {
    t < |free| && free[t].addr == a && (free[t].units >= n || After(free, t).units >= n)
  }

  /** Every block ends at or below `top`. */
  ghost predicate BelowTop(free: seq<Blk>, live: map<nat, nat>, top: nat) {
    (forall i :: 0 <= i < |free| ==> free[i].End() <= top) && forall a :: a in live ==> Blk(a, live[a]).End() <= top
  }

  /** Every free block ends at or below `top`, or exactly at `end`. */
  ghost predicate EndsAt(free: seq<Blk>, top: nat, end: nat) {
    forall i :: 0 <= i < |free| ==> free[i].End() <= top || free[i].End() == end
  }

  lemma NodePositive(base: nat, free: seq<Blk>, i: nat)
    requires Sorted(free) && 1 <= i < |free| && free[0].addr == base
    ensures free[i].addr > 0
  {
  }

  /** A free block within memory is smaller than 2^28 units. */
  lemma SmallNode(free: seq<Blk>, live: map<nat, nat>, i: nat, top: nat)
    requires BelowTop(free, live, top) && i < |free| && top < KERNBASE
    ensures free[i].units < 0x1000_0000
  {
    assert free[i].End() <= top;
  }

  lemma SpliceEnds(free: seq<Blk>, i: nat, j: nat, m: Blk, top: nat, end: nat)
    requires i <= j <= |free| && EndsAt(free, top, end) && (m.End() <= top || m.End() == end)
    ensures EndsAt(Splice(free, i, j, m), top, end)
  {
    var r := Splice(free, i, j, m);
    forall k | 0 <= k < |r| ensures r[k].End() <= top || r[k].End() == end {
      assert k < i ==> r[k] == free[k];
      assert k > i ==> r[k] == free[k - 1 + (j - i)];
    }
  }

  lemma FreedEnds(free: seq<Blk>, t: nat, x: Blk, top: nat, end: nat)
    requires Gap(free, t, x) && EndsAt(free, top, end) && (x.End() <= top || x.End() == end)
    ensures EndsAt(Freed(free, t, x), top, end)
  {
    assert Joined(free, t, x).End() == if TouchesRight(free, t, x) then free[t + 1].End() else x.End();
    SpliceEnds(free, if free[t].End() == x.addr then t else t + 1,
               if TouchesRight(free, t, x) then t + 2 else t + 1, Joined(free, t, x), top, end);
  }

  /** Freeing a block within memory. */
  lemma FreedBelow(free: seq<Blk>, live: map<nat, nat>, t: nat, a: nat, top: nat)
    requires a in live && Gap(free, t, Blk(a, live[a])) && BelowTop(free, live, top)
    ensures BelowTop(Freed(free, t, Blk(a, live[a])), live - {a}, top)
  {
    hide Freed;
    FreedEnds(free, t, Blk(a, live[a]), top, top);
  }

  /** Freeing a block that starts where memory ended. */
  lemma FreedOnTop(free: seq<Blk>, live: map<nat, nat>, t: nat, x: Blk, top: nat)
    requires Gap(free, t, x) && BelowTop(free, live, top) && x.addr == top
    ensures EndsAt(Freed(free, t, x), top, x.End())
  {
    FreedEnds(free, t, x, top, x.End());
  }

  /** Memory from the old end on is apart from every block. */
  lemma TopIsFresh(base: nat, live: map<nat, nat>, free: seq<Blk>, top: nat, nu: nat)
    requires BelowTop(free, live, top)
    ensures ApartFrom(Blk(top, nu), free) && forall a :: a in live ==> Apart(Blk(a, live[a]), Blk(top, nu))
  {
  }

  lemma CoreBelow(free: seq<Blk>, live: map<nat, nat>, live': map<nat, nat>, start: nat, nu: nat, top: nat)
    requires BelowTop(free, live, start) && top == start + UNIT * nu && live' - {start} == live && start in live'
    requires live'[start] == nu
    ensures BelowTop(free, live', top)
  {
    forall a | a in live' ensures Blk(a, live'[a]).End() <= top {
      if a != start {
        assert a in live' - {start} && (live' - {start})[a] == live'[a];
      }
    }
  }

  lemma TakenBelow(free: seq<Blk>, live: map<nat, nat>, i: nat, n: nat, top: nat)
    requires BelowTop(free, live, top) && 1 <= i < |free| && 0 < n <= free[i].units
    ensures BelowTop(Taken(free, i, n), live[Given(free, i, n).addr := n], top)
    ensures Given(free, i, n).addr + UNIT * n <= top
  {
    var r := Taken(free, i, n);
    assert free[i].End() <= top;
    forall k | 0 <= k < |r| ensures r[k].End() <= top {
      assert k < i ==> r[k] == free[k];
    }
  }

  /** A block larger than memory is the one that was put on top: what is given away starts at the old end. */
  lemma TakenOnTop(free: seq<Blk>, live: map<nat, nat>, i: nat, n: nat, start: nat, top: nat)
    requires 1 <= i < |free| && 0x1000_0000 <= n <= free[i].units && start < KERNBASE && top <= start
    requires EndsAt(free, start, start + UNIT * n)
    ensures Given(free, i, n).addr == start
    ensures forall free', live' :: start in live' && live'[start] == n ==> !BelowTop(free', live', top)
  {
    assert free[i].End() == start + UNIT * n;
    forall free': seq<Blk>, live': map<nat, nat> | start in live' && live'[start] == n
      ensures !BelowTop(free', live', top)
    {
      assert Blk(start, live'[start]).End() > top;
    }
  }

  /** New memory can be treated as a live block, ready to be freed into the list. */
  lemma CoreAdded(base: nat, mem: map<nat, Header>, live: map<nat, nat>, free: seq<Blk>, x: Blk)
    requires HeapOk(base, mem, live, free) && x.units > 0
    requires base + UNIT <= x.addr && ApartFrom(x, free) && forall a :: a in live ==> Apart(Blk(a, live[a]), x)
    ensures x.addr !in live
    ensures var mem' := mem[x.addr := Header(if x.addr in mem then mem[x.addr].ptr else 0, x.units)];
            HeapOk(base, mem', live[x.addr := x.units], free)
    ensures LiveUnits(live[x.addr := x.units]) == LiveUnits(live) + x.units
    ensures live[x.addr := x.units] - {x.addr} == live
  {
    hide LiveUnits, Linked, Sorted;
    CoreLive(base, mem, live, x);
    CoreLinked(mem, free, x);
    LiveAdd(live, x.addr, x.units);
    assert HeapApart(live[x.addr := x.units], free);
  }

  lemma CoreLive(base: nat, mem: map<nat, Header>, live: map<nat, nat>, x: Blk)
    requires LiveOk(base, mem, live) && LiveApart(live) && x.units > 0 && base + UNIT <= x.addr
    requires forall a :: a in live ==> Apart(Blk(a, live[a]), x)
    ensures x.addr !in live
    ensures LiveOk(base, mem[x.addr := Header(if x.addr in mem then mem[x.addr].ptr else 0, x.units)],
              live[x.addr := x.units])
    ensures LiveApart(live[x.addr := x.units])
  {
    forall a | a in live ensures a != x.addr && LiveHeader(base, mem, Blk(a, live[a])) {
      assert Apart(Blk(a, live[a]), x);
    }
  }

  lemma CoreLinked(mem: map<nat, Header>, free: seq<Blk>, x: Blk)
    requires Sorted(free) && Linked(mem, free) && x.units > 0 && free[0].addr + UNIT <= x.addr && ApartFrom(x, free)
    ensures Linked(mem[x.addr := Header(if x.addr in mem then mem[x.addr].ptr else 0, x.units)], free)
  {
    var mem' := mem[x.addr := Header(if x.addr in mem then mem[x.addr].ptr else 0, x.units)];
    forall i | 0 <= i < |free| ensures HasNode(mem', free[i], After(free, i)) {
      assert HasNode(mem, free[i], After(free, i));
      assert i >= 1 ==> Apart(x, free[i]);
    }
  }

  /** The exit tests of the loop in free(), at node i. */
  predicate SearchStops(free: seq<Blk>, i: nat, x: Blk)
    requires i < |free|
  {
    var p, q := free[i].addr, After(free, i).addr;
    (x.addr > p && x.addr < q) || (p >= q && (x.addr > p || x.addr < q))
  }

  /** They hold at the node before the gap and nowhere else. */
  lemma SearchEnds(free: seq<Blk>, i: nat, t: nat, x: Blk)
    requires Sorted(free) && Gap(free, t, x) && i < |free|
    ensures SearchStops(free, i, x) <==> i == t
  {
    assert i + 1 < |free| ==> free[i].End() < free[i + 1].addr;
    assert i < t ==> free[i + 1].addr <= free[t].addr by {
      assert i + 1 < t ==> free[i + 1].End() < free[t].addr;
    }
    assert t < i ==> free[t + 1].addr <= free[i].addr by {
      assert t + 1 < i ==> free[t + 1].End() < free[i].addr;
    }
    assert i > 0 ==> free[0].addr < free[i].addr;
  }

  /** Everything free() keeps, in one place. */
  lemma FreeAll(base: nat, mem: map<nat, Header>, live: map<nat, nat>, free: seq<Blk>, t: nat, bp: nat)
    requires bp in live && HeapOk(base, mem, live, free) && Gap(free, t, Blk(bp, live[bp]))
    ensures bp in mem && free[t].addr in mem && mem[free[t].addr].ptr in mem
    ensures bp != free[t].addr && bp != mem[free[t].addr].ptr
    ensures var free', mem', live' := Freed(free, t, Blk(bp, live[bp])), FreeMem(mem, free[t].addr, bp), live - {bp};
            && HeapOk(base, mem', live', free') && IsNode(free', free[t].addr)
            && Units(free') + LiveUnits(live') == Units(free) + LiveUnits(live)
  {
    var x := Blk(bp, live[bp]);
    assert LiveHeader(base, mem, x);
    NeighboursInMemory(mem, free, t);
    FreedSorted(free, t, x);
    FreedUnits(free, t, x);
    FreedLinked(mem, free, t, x);
    FreedHeap(base, mem, live, free, t, bp);
    LiveRemove(live, bp);
    FreedKeepsNode(free, t, x);
    FreedNode(mem, free, t, x);
  }

  /** The predecessor is still a node afterwards; the freed units are there or right behind it. */
  lemma FreedKeepsNode(free: seq<Blk>, t: nat, x: Blk)
    requires Sorted(free) && Gap(free, t, x)
    ensures Holding(Freed(free, t, x), t, free[t].addr, x.units)
  {
  }

  class Heap {
    /** Address of the static header `base`. */
    const base: nat
    var mem: map<nat, Header>
    /** Zero before the first malloc(). */
    var freep: nat
    var sbrkCalls: nat
    /** Where the process's memory ends (proc->sz). */
    var top: nat
    /** The free list from base on, the live blocks, the units sbrk() has supplied. */
    ghost var free: seq<Blk>
    ghost var live: map<nat, nat>
    ghost var obtained: nat

    /**
     One address-ordered ring through base without touching neighbours; free and live blocks
     pairwise disjoint; every unit obtained is in exactly one of them.
     */
    ghost predicate Consistent()
      reads this
    {
      && base > 0
      && Units(free) + LiveUnits(live) == obtained
      && if freep == 0 then free == [Blk(base, 0)] && live == map[]
         else HeapOk(base, mem, live, free) && IsNode(free, freep)
    }

    /** The heap is consistent and every block of it is memory that the process has. */
    ghost predicate Valid()
      reads this
    {
      Consistent() && base + UNIT <= top < KERNBASE && BelowTop(free, live, top)
    }

    constructor (base: nat, top: nat)
      requires base > 0 && base + UNIT <= top < KERNBASE
      ensures Valid() && this.base == base && this.top == top && freep == 0 && live == map[] && obtained == 0
      ensures sbrkCalls == 0
    {
      this.base, this.top := base, top;
      mem, freep, sbrkCalls := map[], 0, 0;
      free, live, obtained := [Blk(base, 0)], map[], 0;
      assert Units([Blk(base, 0)]) == UnitsTo([Blk(base, 0)], 0) + 0;
    }

    /** The search of free(): from freep round to the node after which bp belongs. */
    method Locate(bp: nat) returns (p: nat, ghost t: nat)
      requires Consistent() && freep != 0 && bp in live
      ensures t < |free| && p == free[t].addr && Gap(free, t, Blk(bp, live[bp]))
    {
      ghost var x := Blk(bp, live[bp]);
      assert LiveHeader(base, mem, x) && ApartFrom(x, free);
      GapBelow(free, x);
      t := Below(free, bp, |free|);
      ghost var i :| 0 <= i < |free| && free[i].addr == freep;
      p := freep;
      SearchEnds(free, i, t, x);
      assert HasNode(mem, free[i], After(free, i));
      while !(bp > p && bp < mem[p].ptr)
        invariant 0 <= i < |free| && p == free[i].addr && HasNode(mem, free[i], After(free, i))
        invariant SearchStops(free, i, x) <==> i == t
        decreases if i <= t then t - i else |free| - i + t
      {
        if p >= mem[p].ptr && (bp > p || bp < mem[p].ptr) {
          break;
        }
        p := mem[p].ptr;
        i := if i + 1 < |free| then i + 1 else 0;
        SearchEnds(free, i, t, x);
        assert HasNode(mem, free[i], After(free, i));
      }
    }

    /** The pointer assignments of free(). */
    method LinkIn(p: nat, bp: nat)
      requires p in mem && bp in mem && mem[p].ptr in mem && bp != p && bp != mem[p].ptr
      modifies this`mem
      ensures mem == FreeMem(old(mem), p, bp)
    {
      if bp + UNIT * mem[bp].size == mem[p].ptr {
        mem := mem[bp := mem[bp].(size := mem[bp].size + mem[mem[p].ptr].size)];
        mem := mem[bp := mem[bp].(ptr := mem[mem[p].ptr].ptr)];
      } else {
        mem := mem[bp := mem[bp].(ptr := mem[p].ptr)];
      }
      if p + UNIT * mem[p].size == bp {
        mem := mem[p := mem[p].(size := mem[p].size + mem[bp].size)];
        mem := mem[p := mem[p].(ptr := mem[bp].ptr)];
      } else {
        mem := mem[p := mem[p].(ptr := bp)];
      }
    }

    /** The part of free() after the search. */
    method PutBack(p: nat, bp: nat, ghost t: nat)
      requires Consistent() && freep != 0 && bp in live
      requires t < |free| && p == free[t].addr && Gap(free, t, Blk(bp, live[bp]))
      modifies this`mem, this`freep, this`free, this`live
      ensures Consistent() && freep == p != 0
      ensures live == old(live) - {bp}
      ensures free == Freed(old(free), t, Blk(bp, old(live)[bp]))
      ensures Holding(free, t, p, old(live)[bp])
    {
      hide Freed, Joined, FreeMem;
      FreedKeepsNode(free, t, Blk(bp, live[bp]));
      FreeAll(base, mem, live, free, t, bp);
      LinkIn(p, bp);
      freep := p;
      free := Freed(free, t, Blk(bp, live[bp]));
      live := live - {bp};
    }

    /** free(): puts a live block back, coalescing with the free neighbours it touches. */
    method Free(ap: nat) returns (ghost t: nat)
      requires Consistent() && freep != 0 && ap >= UNIT && ap - UNIT in live
      modifies this`mem, this`freep, this`free, this`live
      ensures Consistent() && freep != 0
      ensures live == old(live) - {ap - UNIT}
      ensures t < |old(free)| && Gap(old(free), t, Blk(ap - UNIT, old(live)[ap - UNIT]))
      ensures freep == old(free)[t].addr && free == Freed(old(free), t, Blk(ap - UNIT, old(live)[ap - UNIT]))
      ensures Holding(free, t, freep, old(live)[ap - UNIT])
      ensures old(Valid()) ==> Valid()
    {
      hide Freed, BelowTop;
      var bp := ap - UNIT;
      var p;
      p, t := Locate(bp);
      if Valid() {
        FreedBelow(free, live, t, bp, top);
      }
      PutBack(p, bp, t);
    }

    /**
     sbrk(n) of this process: the old end of memory, or None for -1. `grant` says whether the kernel
     finds the frames to grow. A negative n beyond the whole memory wraps and changes nothing; one
     that takes all of it is answered with -1.
     */
    method Sbrk(n: int, grant: bool) returns (p: Option<nat>)
      requires top < KERNBASE
      modifies this`top, this`sbrkCalls
      ensures sbrkCalls == old(sbrkCalls) + 1 && top < KERNBASE
      ensures p ==
              if (n > 0 && (!grant || old(top) + n >= KERNBASE)) || (n < 0 && old(top) + n == 0) then None
              else Some(old(top))
      ensures top == if n > 0 && p.None? then old(top) else if old(top) + n >= 0 then old(top) + n else old(top)
    {
      sbrkCalls := sbrkCalls + 1;
      if n > 0 {
        if !grant || top + n >= KERNBASE {
          return None;
        }
        p := Some(top);
        top := top + n;
      } else if top + n >= 0 {
        p := if n < 0 && top + n == 0 then None else Some(top);
        top := top + n;
      } else {
        p := Some(top);
      }
    }

    /** morecore() writes the size of the new memory's header; it is then a block to be freed. */
    method AddCore(hp: nat, nu: nat)
      requires Consistent() && freep != 0 && nu > 0 && FreshCore(Blk(hp, nu))
      modifies this`mem, this`live, this`obtained
      ensures Consistent() && hp in live && live[hp] == nu && live - {hp} == old(live) && obtained == old(obtained) + nu
    {
      CoreAdded(base, mem, live, free, Blk(hp, nu));
      mem := mem[hp := Header(if hp in mem then mem[hp].ptr else 0, nu)];
      live := live[hp := nu];
      obtained := obtained + nu;
    }

    /** Memory from the old end on goes to the list; it is memory of the process if the end has moved by as much. */
    method FreeCore(start: nat, nu: nat) returns (ghost f: nat)
      requires Consistent() && freep != 0 && nu > 0 && base + UNIT <= start && BelowTop(free, live, start)
      modifies this`mem, this`freep, this`free, this`live, this`obtained
      ensures Consistent() && freep != 0 && live == old(live) && obtained == old(obtained) + nu
      ensures Holding(free, f, freep, nu) && EndsAt(free, start, start + UNIT * nu)
      ensures start + UNIT * nu == top < KERNBASE ==> Valid()
    {
      hide Freed, BelowTop, LiveUnits, Apart, EndsAt, Units, Holding, HeapOk, IsNode;
      TopIsFresh(base, live, free, start, nu);
      AddCore(start, nu);
      if start + UNIT * nu == top {
        CoreBelow(free, old(live), live, start, nu, top);
      }
      ghost var was := free;
      f := Free(start + UNIT);
      FreedOnTop(was, old(live), f, Blk(start, nu), start);
    }

    /**
     morecore(): asks sbrk() once for at least MINCORE units, the product in 32 bits and read as a
     signed number, and treats as many units from the old end of memory on as free memory.
     */
    method Morecore(nunits: nat, grant: bool) returns (p: nat, ghost f: nat)
      requires Valid() && freep != 0 && 0 < nunits <= 0x2000_0000
      modifies this`mem, this`freep, this`free, this`live, this`obtained, this`sbrkCalls, this`top
      ensures Consistent() && freep != 0 && live == old(live) && sbrkCalls == old(sbrkCalls) + 1
      ensures p == 0 ==> free == old(free) && freep == old(freep) && obtained == old(obtained)
      ensures p != 0 ==> p == freep && Holding(free, f, freep, nunits) && obtained == old(obtained) + CoreUnits(nunits)
      ensures p != 0 ==> EndsAt(free, old(top), old(top) + UNIT * CoreUnits(nunits))
      ensures nunits < 0x1000_0000 ==>
                && (p == 0 <==> !grant || old(top) + UNIT * CoreUnits(nunits) >= KERNBASE)
                && top == old(top) + (if p == 0 then 0 else UNIT * CoreUnits(nunits)) && Valid()
      ensures nunits >= 0x1000_0000 ==> top == Shrunk(old(top), SbrkArg(nunits)) && (p == 0 <==> top == 0)
    {
      hide Freed, BelowTop, SbrkArg, LiveUnits, Apart, EndsAt, Units, HeapOk, IsNode;
      var nu := if nunits < MINCORE then MINCORE else nunits;
      var start := top;
      SbrkArgs(nunits);
      var brk := Sbrk(SbrkArg(nunits), grant);
      if brk.None? {
        return 0, 0;
      }
      f := FreeCore(start, nu);
      p := freep;
    }

    /** The assignments of malloc()'s fitting branch: unlink the node, or cut off its tail. */
    method CutOut(prevp: nat, p: nat, nunits: nat) returns (q: nat)
      requires prevp in mem && p in mem && 0 < nunits <= mem[p].size
      modifies this`mem
      ensures mem == TakeMem(old(mem), prevp, p, nunits)
      ensures q == p + UNIT * (old(mem)[p].size - nunits)
    {
      q := p;
      if mem[p].size == nunits {
        mem := mem[prevp := mem[prevp].(ptr := mem[p].ptr)];
      } else {
        mem := mem[p := mem[p].(size := mem[p].size - nunits)];
        q := p + UNIT * mem[p].size;
        mem := mem[q := if q in mem then mem[q].(size := nunits) else Header(0, nunits)];
      }
    }

    /** The fitting branch of malloc(). */
    method TakeFrom(prevp: nat, p: nat, nunits: nat, ghost i: nat) returns (r: nat)
      requires Consistent() && freep != 0 && nunits > 0
      requires 1 <= i < |free| && prevp == free[i - 1].addr && p == free[i].addr && free[i].units >= nunits
      modifies this`mem, this`freep, this`free, this`live
      ensures Consistent() && freep == prevp != 0
      ensures free == Taken(old(free), i, nunits)
      ensures r == Given(old(free), i, nunits).addr + UNIT && r >= UNIT
      ensures r - UNIT !in old(live) && live == old(live)[r - UNIT := nunits]
    {
      hide Taken, TakeMem, Splice;
      TakeAll(base, mem, live, free, i, nunits);
      var q := CutOut(prevp, p, nunits);
      freep := prevp;
      free := Taken(free, i, nunits);
      live := live[q := nunits];
      r := q + UNIT;
    }

    /**
     One turn of malloc()'s loop round the ring: the first node from freep on with enough units,
     and its predecessor. The loop starts over like this after morecore().
     */
    method Scan(nunits: nat) returns (fits: bool, prevp: nat, p: nat, ghost i: nat)
      requires Consistent() && freep != 0 && nunits > 0
      ensures fits ==> 1 <= i < |free| && prevp == free[i - 1].addr && p == free[i].addr && free[i].units >= nunits
      ensures !fits ==> NoneFits(free, nunits)
    {
      hide LiveOk, LiveApart, HeapApart, Cursors, NoneFits;
      ghost var f: nat :| f < |free| && free[f].addr == freep;
      ghost var c: nat := 0;
      prevp := freep;
      StartCursors(mem, free, f);
      p := mem[prevp].ptr;
      while mem[p].size < nunits
        invariant c < |free| && Cursors(mem, free, f, c, prevp, p) && p in mem
        invariant TooSmall(free, f, c, nunits)
        decreases |free| - c
      {
        if p == freep {
          RoundOnce(mem, free, f, c, prevp, nunits);
          return false, prevp, p, 0;
        }
        MoveCursors(mem, free, f, c, prevp, p, nunits);
        c := c + 1;
        prevp := p;
        p := mem[p].ptr;
      }
      FoundAt(mem, free, f, c, prevp, p, nunits);
      fits, i := true, Ahead(|free|, f, c + 1);
    }

    /** First call of malloc(): base alone forms the ring. */
    method StartList()
      requires Consistent() && freep == 0
      modifies this`mem, this`freep
      ensures Consistent() && freep != 0
    {
      mem := mem[base := Header(base, 0)];
      freep := base;
      BaseAlone(base, mem, free);
    }

    /**
     malloc(): first fit from freep on; at most one call of sbrk(), made exactly when no free
     block is large enough; `grant` is the kernel's answer should it be asked to grow. What it
     returns is memory the process has, all nbytes of it, if and only if nbytes is at most
     0x7FFFFFF0; from there to 0xFFFFFFF8 the block starts where memory ends, and its header is
     written there, which faults if it reaches behind the last page that is mapped.
     */
    method Malloc(nbytes: nat, grant: bool) returns (r: nat)
      requires Valid() && nbytes < 0x1_0000_0000
      modifies this`mem, this`freep, this`free, this`live, this`obtained, this`sbrkCalls, this`top
      ensures Consistent() && freep != 0
      ensures r != 0 ==> r >= UNIT && r - UNIT !in old(live) && live == old(live)[r - UNIT := NUnits(nbytes)]
      ensures r == 0 ==> live == old(live) && sbrkCalls == old(sbrkCalls) + 1
      ensures sbrkCalls == old(sbrkCalls) + if NoneFits(old(free), NUnits(nbytes)) then 1 else 0
      ensures obtained == old(obtained) + if sbrkCalls > old(sbrkCalls) && r != 0 then CoreUnits(NUnits(nbytes)) else 0
      ensures NUnits(nbytes) < 0x1000_0000 && sbrkCalls > old(sbrkCalls) ==>
                (r == 0 <==> !grant || old(top) + UNIT * CoreUnits(NUnits(nbytes)) >= KERNBASE)
      ensures r != 0 ==> (r + nbytes <= top <==> nbytes <= 0x7FFF_FFF0)
      ensures Valid() <==> NUnits(nbytes) < 0x1000_0000
      ensures NUnits(nbytes) >= 0x1000_0000 ==>
                && top == Shrunk(old(top), SbrkArg(NUnits(nbytes))) && (r == 0 <==> top == 0)
                && (r != 0 ==> r == old(top) + UNIT)
    {
      hide Freed, Taken, TakeMem, Given, NUnits, Apart, LiveUnits, BelowTop, HeapOk, IsNode, EndsAt, NoneFits;
      var nunits := NUnits(nbytes);
      UnitsRange(nbytes);
      SbrkArgs(nunits);
      var prevp, p; ghost var i;
      prevp, p, i := Obtain(nunits, grant);
      if p == 0 {
        return 0;
      }
      if nunits < 0x1000_0000 {
        TakenBelow(free, live, i, nunits, top);
      } else {
        TakenOnTop(free, live, i, nunits, old(top), top);
      }
      r := TakeFrom(prevp, p, nunits, i);
    }

    /** malloc() when no free block fits: morecore(), and the search again; 0 for none. */
    method Grow(nunits: nat, grant: bool) returns (prevp: nat, p: nat, ghost i: nat)
      requires Valid() && freep != 0 && 0 < nunits <= 0x2000_0000
      modifies this`mem, this`freep, this`free, this`live, this`obtained, this`sbrkCalls, this`top
      ensures Consistent() && freep != 0 && live == old(live) && sbrkCalls == old(sbrkCalls) + 1
      ensures obtained == old(obtained) + if p != 0 then CoreUnits(nunits) else 0
      ensures p != 0 ==> 1 <= i < |free| && prevp == free[i - 1].addr && p == free[i].addr && free[i].units >= nunits
      ensures nunits < 0x1000_0000 ==>
                Valid() && (p == 0 <==> !grant || old(top) + UNIT * CoreUnits(nunits) >= KERNBASE)
      ensures nunits >= 0x1000_0000 ==> top == Shrunk(old(top), SbrkArg(nunits)) && (p == 0 <==> top == 0)
      ensures nunits >= 0x1000_0000 && p != 0 ==> EndsAt(free, old(top), old(top) + UNIT * nunits)
    {
      hide Freed, Apart, LiveUnits, BelowTop, EndsAt, Units, SbrkArg;
      var core; ghost var f;
      core, f := Morecore(nunits, grant);
      if core == 0 {
        return 0, 0, 0;
      }
      var fits;
      fits, prevp, p, i := Scan(nunits);
      assert fits;
      NodePositive(base, free, i);
    }

    /** The search of malloc(): a node with enough units and its predecessor, after growing if need be; 0 for none. */
    method Obtain(nunits: nat, grant: bool) returns (prevp: nat, p: nat, ghost i: nat)
      requires Valid() && 0 < nunits <= 0x2000_0000
      modifies this`mem, this`freep, this`free, this`live, this`obtained, this`sbrkCalls, this`top
      ensures Consistent() && freep != 0 && live == old(live)
      ensures sbrkCalls == old(sbrkCalls) + if NoneFits(old(free), nunits) then 1 else 0
      ensures obtained == old(obtained) + if sbrkCalls > old(sbrkCalls) && p != 0 then CoreUnits(nunits) else 0
      ensures p == 0 ==> sbrkCalls == old(sbrkCalls) + 1
      ensures p != 0 ==> 1 <= i < |free| && prevp == free[i - 1].addr && p == free[i].addr && free[i].units >= nunits
      ensures nunits < 0x1000_0000 ==> Valid()
      ensures nunits < 0x1000_0000 && sbrkCalls > old(sbrkCalls) ==>
                (p == 0 <==> !grant || old(top) + UNIT * CoreUnits(nunits) >= KERNBASE)
      ensures nunits >= 0x1000_0000 ==> top == Shrunk(old(top), SbrkArg(nunits)) && (p == 0 <==> top == 0)
      ensures nunits >= 0x1000_0000 && p != 0 ==> EndsAt(free, old(top), old(top) + UNIT * nunits)
    {
      hide Freed, Apart, LiveUnits, BelowTop, EndsAt;
      if freep == 0 {
        StartList();
      }
      var fits;
      fits, prevp, p, i := Scan(nunits);
      if fits {
        SmallNode(free, live, i, top);
        assert HasNode(mem, free[i], After(free, i));
        NodePositive(base, free, i);
      } else {
        prevp, p, i := Grow(nunits, grant);
      }
    }

    /** Memory that sbrk() may return. */
    ghost predicate FreshCore(x: Blk)
      reads this
    {
      base + UNIT <= x.addr && ApartFrom(x, free) && forall a :: a in live ==> Apart(Blk(a, live[a]), x)
    }
  }

  /**
   The smallest request that fails: sbrk() is asked to give up 2 GB, and the block starts where memory ends.
   Its header still lies in the last page that is mapped, so that malloc() does return.
   */
  method JustTooMuch() returns (h: Heap, r: nat)
    ensures h.top == 0x4010 && r == h.top + UNIT && r <= (h.top + 4095) / 4096 * 4096 && !h.Valid()
  {
    h := new Heap(0x1000, 0x4010);
    assert SbrkArg(NUnits(0x7FFF_FFF1)) == -0x8000_0000;
    r := h.Malloc(0x7FFF_FFF1, true);
  }
}
