/**
 The process table of proc.c: allocproc, fork, exit, wait, kill and the wakeups between them.
 Each method is one critical section under ptable.lock (or the part of fork() that only
 touches its own embryo), so every run is a sequence of calls.
 */
module Lifecycle {

  datatype ProcState = UNUSED | EMBRYO | SLEEPING | RUNNABLE | RUNNING | ZOMBIE

  /** What a process sleeps on: a process structure (in wait), or anything else. */
  datatype Chan = NoChan | OfProc(p: nat) | Other(id: nat)

  /** A slot of ptable; `parent` is a slot or -1 for a null pointer. */
  datatype Proc = Proc(state: ProcState, pid: int, parent: int, chan: Chan, killed: bool)
  {
    /** Past fork and not yet exited. */
    predicate Alive() {
      state.SLEEPING? || state.RUNNABLE? || state.RUNNING?
    }

    predicate SleepsOn(c: Chan) {
      state.SLEEPING? && chan == c
    }
  }

  type Table = seq<Proc>

  /** wakeup1(): every process asleep on the channel becomes runnable. */
  function Woken(t: Table, c: Chan): (r: Table)
    ensures |r| == |t|
    ensures forall i :: 0 <= i < |t| ==> r[i] == WokenProc(t[i], c)
  {
    seq(|t|, i requires 0 <= i < |t| => WokenProc(t[i], c))
  }

  function WokenProc(x: Proc, c: Chan): Proc {
    if x.SleepsOn(c) then x.(state := RUNNABLE) else x
  }

  // The invariant.

  /** Slot p, given who is forking which embryo. */
  ghost predicate SlotOk(t: Table, init: nat, forker: map<nat, nat>, p: nat)
    requires p < |t|
  {
    && (p in forker <==> t[p].state.EMBRYO?)
    && match t[p].state
       case UNUSED => t[p].parent == -1
       case EMBRYO =>
         && forker[p] < |t| && t[forker[p]].Alive()
         && (t[p].parent == -1 || t[p].parent == forker[p])
       case _ => if p == init then t[p].parent == -1 else HasParent(t, p)
  }

  /** The parent of p is a process past fork that has not exited. */
  ghost predicate HasParent(t: Table, p: nat)
    requires p < |t|
  {
    0 <= t[p].parent < |t| && t[p].parent != p && t[t[p].parent].Alive()
  }

  /** q keeps p from sleeping in wait(): an exited child. */
  predicate ZombieChild(t: Table, p: nat, q: nat)
    requires q < |t|
  {
    t[q].parent == p && t[q].state.ZOMBIE?
  }

  /** No process sleeps in wait() over an exited child. */
  ghost predicate NoMissedExit(t: Table)
  {
    forall p, q :: 0 <= p < |t| && 0 <= q < |t| && t[p].SleepsOn(OfProc(p)) ==> !ZombieChild(t, p, q)
  }

  ghost predicate TableOk(t: Table, init: nat, forker: map<nat, nat>)
  {
    && init < |t| && t[init].Alive()
    && (forall p :: 0 <= p < |t| ==> SlotOk(t, init, forker, p))
    && NoMissedExit(t)
  }

  /**
   The pids in the slots, used or free, are distinct but for zeros, and below nextpid; none of them
   has been reported by wait().
   */
  ghost predicate PidsOk(t: Table, nextpid: int, reaped: seq<int>)
  {
    && (forall p, q :: 0 <= p < q < |t| ==> t[p].pid != t[q].pid || t[p].pid == 0)
    && (forall p :: 0 <= p < |t| ==> 0 <= t[p].pid < nextpid && t[p].pid !in reaped)
    && (forall p :: 0 <= p < |t| && !t[p].state.UNUSED? ==> 0 < t[p].pid)
    && (forall i :: 0 <= i < |reaped| ==> 0 < reaped[i] < nextpid)
    && (forall i, j :: 0 <= i < j < |reaped| ==> reaped[i] != reaped[j])
  }

  /** Every exited process is a zombie that keeps its pid, or has been reported by wait(), and none else is. */
  ghost predicate Accounted(t: Table, reaped: seq<int>, exited: set<int>)
  {
    forall pid :: pid in exited <==> pid in reaped || IsZombie(t, pid)
  }

  ghost predicate IsZombie(t: Table, pid: int) {
    exists p :: 0 <= p < |t| && t[p].state.ZOMBIE? && t[p].pid == pid
  }

  /** The same slots hold exited processes. */
  lemma SameZombies(t: Table, t': Table, reaped: seq<int>, exited: set<int>)
    requires Accounted(t, reaped, exited) && |t'| == |t|
    requires forall i :: 0 <= i < |t| ==> (t'[i].state.ZOMBIE? <==> t[i].state.ZOMBIE?)
    requires forall i :: 0 <= i < |t| && t[i].state.ZOMBIE? ==> t'[i].pid == t[i].pid
    ensures Accounted(t', reaped, exited)
  {
    forall pid ensures IsZombie(t', pid) <==> IsZombie(t, pid) {
      if IsZombie(t, pid) {
        var p :| 0 <= p < |t| && t[p].state.ZOMBIE? && t[p].pid == pid;
        assert t'[p].state.ZOMBIE? && t'[p].pid == pid;
      }
    }
  }

  /** Slot p is the first with that pid. */
  ghost predicate FirstWith(t: Table, pid: int, p: nat) {
    p < |t| && t[p].pid == pid && forall i :: 0 <= i < p ==> t[i].pid != pid
  }

  /** No free slot carries a kill mark: the next process starts out unkilled. */
  ghost predicate NoMarkedFree(t: Table)
  {
    forall p :: 0 <= p < |t| && t[p].state.UNUSED? ==> !t[p].killed
  }

  lemma WokenOk(t: Table, init: nat, forker: map<nat, nat>, c: Chan)
    requires TableOk(t, init, forker)
    ensures TableOk(Woken(t, c), init, forker)
  {
    var t' := Woken(t, c);
    forall p | 0 <= p < |t| ensures SlotOk(t', init, forker, p) {
      assert SlotOk(t, init, forker, p);
    }
    forall p, q | 0 <= p < |t| && 0 <= q < |t| && t'[p].SleepsOn(OfProc(p)) ensures !ZombieChild(t', p, q) {
      assert !ZombieChild(t, p, q);
    }
  }

  // exit(): what the table becomes.

  /** The loop that passes abandoned children to init, over the first n slots. */
  function Adopted(t: Table, p: nat, init: nat, n: nat): (r: Table)
    requires n <= |t|
    ensures |r| == |t|
  {
    if n == 0 then t
    else
      var r := Adopted(t, p, init, n - 1);
      if r[n - 1].parent != p then r
      else
        var r' := r[n - 1 := r[n - 1].(parent := init)];
        if r'[n - 1].state.ZOMBIE? then Woken(r', OfProc(init)) else r'
  }

  /** What adoption does to each slot. */
  ghost predicate AdoptedSlot(t: Table, r: Table, p: nat, init: nat, n: nat, i: nat)
    requires i < |t| == |r|
  {
    && r[i].parent == (if i < n && t[i].parent == p then init else t[i].parent)
    && r[i].pid == t[i].pid && r[i].killed == t[i].killed && r[i].chan == t[i].chan
    && (r[i].state == t[i].state || (t[i].SleepsOn(OfProc(init)) && r[i].state.RUNNABLE?))
  }

  lemma {:induction false} AdoptedAt(t: Table, p: nat, init: nat, n: nat, i: nat)
    requires n <= |t| && p != init && i < |t|
    ensures AdoptedSlot(t, Adopted(t, p, init, n), p, init, n, i)
  {
    if n > 0 {
      AdoptedAt(t, p, init, n - 1, i);
      AdoptedAt(t, p, init, n - 1, n - 1);
    }
  }

  /** Handing over an exited child wakes init if it waits. */
  lemma {:induction false} AdoptionWakes(t: Table, p: nat, init: nat, n: nat, q: nat, i: nat)
    requires q < n <= |t| && p != init && i < |t| && ZombieChild(t, p, q)
    ensures !Adopted(t, p, init, n)[i].SleepsOn(OfProc(init))
  {
    AdoptedAt(t, p, init, n - 1, n - 1);
    if q < n - 1 {
      AdoptionWakes(t, p, init, n - 1, q, i);
    }
  }

  /** exit() of p after closing its files: wake the parent, pass the children on, become a zombie. */
  function Exited(t: Table, p: nat, init: nat): Table
    requires p < |t| && t[p].parent >= 0
  {
    var r := Adopted(Woken(t, OfProc(t[p].parent)), p, init, |t|);
    r[p := r[p].(state := ZOMBIE)]
  }

  /** What exit() of p makes of every slot. */
  ghost predicate Gone(t: Table, r: Table, p: nat, init: nat)
    requires p < |t| && t[p].parent >= 0
  {
    && |r| == |t| && r[p] == t[p].(state := ZOMBIE)
    && forall i :: 0 <= i < |t| && i != p ==> GoneSlot(t, r[i], p, init, i)
  }

  /** A child goes to init; who waits for p wakes, and so does init if it is handed an exited child. */
  ghost predicate GoneSlot(t: Table, x: Proc, p: nat, init: nat, i: nat)
    requires p < |t| && i < |t| && t[p].parent >= 0
  {
    var woken := t[i].SleepsOn(OfProc(t[p].parent)) || (t[i].SleepsOn(OfProc(init)) && HasZombie(t, p));
    && x.pid == t[i].pid && x.killed == t[i].killed && x.chan == t[i].chan
    && x.parent == (if t[i].parent == p then init else t[i].parent)
    && x.state == if woken then RUNNABLE else t[i].state
  }

  ghost predicate HasZombie(t: Table, p: nat) {
    exists q :: 0 <= q < |t| && ZombieChild(t, p, q)
  }

  lemma {:induction false} AdoptionQuiet(t: Table, p: nat, init: nat, n: nat, i: nat)
    requires n <= |t| && p != init && i < |t| && !HasZombie(t, p)
    ensures Adopted(t, p, init, n)[i].state == t[i].state
  {
    if n > 0 {
      AdoptionQuiet(t, p, init, n - 1, i);
      AdoptionQuiet(t, p, init, n - 1, n - 1);
      AdoptedAt(t, p, init, n - 1, n - 1);
      assert !ZombieChild(t, p, n - 1);
    }
  }

  lemma ExitedIsGone(t: Table, init: nat, p: nat)
    requires p < |t| && init < |t| && p != init && t[p].state.RUNNING? && t[p].parent >= 0 && t[p].parent != p
    ensures Gone(t, Exited(t, p, init), p, init)
  {
    var w := Woken(t, OfProc(t[p].parent));
    forall i | 0 <= i < |t|
      ensures i == p ==> Exited(t, p, init)[i] == t[p].(state := ZOMBIE)
      ensures i != p ==> GoneSlot(t, Exited(t, p, init)[i], p, init, i)
    {
      AdoptedAt(w, p, init, |t|, i);
      assert forall q :: 0 <= q < |t| ==> ZombieChild(w, p, q) == ZombieChild(t, p, q);
      if HasZombie(t, p) {
        var q :| 0 <= q < |t| && ZombieChild(t, p, q);
        AdoptionWakes(w, p, init, |t|, q, i);
      } else {
        AdoptionQuiet(w, p, init, |t|, i);
      }
    }
  }

  lemma ExitedSlot(t: Table, init: nat, forker: map<nat, nat>, p: nat, i: nat)
    requires TableOk(t, init, forker) && p < |t| && p != init && t[p].state.RUNNING? && i < |t|
    requires forall e :: e in forker ==> forker[e] != p
    ensures t[p].parent >= 0 && SlotOk(Exited(t, p, init), init, forker, i)
  {
    assert SlotOk(t, init, forker, p) && SlotOk(t, init, forker, i);
    var w := Woken(t, OfProc(t[p].parent));
    var r := Exited(t, p, init);
    forall k | 0 <= k < |t| ensures AdoptedSlot(w, Adopted(w, p, init, |t|), p, init, |t|, k) {
      AdoptedAt(w, p, init, |t|, k);
    }
    AdoptedAt(w, p, init, |t|, i);
    AdoptedAt(w, p, init, |t|, init);
    if 0 <= t[i].parent < |t| {
      AdoptedAt(w, p, init, |t|, t[i].parent);
    }
    if i in forker {
      AdoptedAt(w, p, init, |t|, forker[i]);
    }
  }

  lemma ExitedWakes(t: Table, init: nat, forker: map<nat, nat>, p: nat, s: nat, q: nat)
    requires TableOk(t, init, forker) && p < |t| && p != init && t[p].state.RUNNING? && s < |t| && q < |t|
    requires t[p].parent >= 0 && Exited(t, p, init)[s].SleepsOn(OfProc(s))
    ensures !ZombieChild(Exited(t, p, init), s, q)
  {
    var w := Woken(t, OfProc(t[p].parent));
    AdoptedAt(w, p, init, |t|, s);
    AdoptedAt(w, p, init, |t|, q);
    assert SlotOk(t, init, forker, p);
    if ZombieChild(Exited(t, p, init), s, q) {
      assert t[s].SleepsOn(OfProc(s));
      if q != p {
        assert !ZombieChild(t, s, q);
        assert w[q].parent == p && s == init;
        AdoptionWakes(w, p, init, |t|, q, init);
      }
    }
  }

  lemma ExitOk(t: Table, init: nat, forker: map<nat, nat>, p: nat)
    requires TableOk(t, init, forker) && p < |t| && p != init && t[p].state.RUNNING?
    requires forall e :: e in forker ==> forker[e] != p
    ensures t[p].parent >= 0 && TableOk(Exited(t, p, init), init, forker)
  {
    assert SlotOk(t, init, forker, p);
    var w := Woken(t, OfProc(t[p].parent));
    forall i | 0 <= i < |t| ensures SlotOk(Exited(t, p, init), init, forker, i) {
      ExitedSlot(t, init, forker, p, i);
    }
    forall s, q | 0 <= s < |t| && 0 <= q < |t| && Exited(t, p, init)[s].SleepsOn(OfProc(s))
      ensures !ZombieChild(Exited(t, p, init), s, q)
    {
      ExitedWakes(t, init, forker, p, s, q);
    }
    AdoptedAt(w, p, init, |t|, init);
  }

  /** A slot changed only in ways that no other slot's invariant looks at. */
  lemma LocalChange(t: Table, init: nat, forker: map<nat, nat>, p: nat, x: Proc)
    requires TableOk(t, init, forker) && p < |t| && t[p].Alive() && x.Alive()
    requires x.parent == t[p].parent
    requires x.SleepsOn(OfProc(p)) ==> forall q :: 0 <= q < |t| ==> !ZombieChild(t, p, q)
    ensures TableOk(t[p := x], init, forker)
  {
    var t' := t[p := x];
    forall i | 0 <= i < |t| ensures SlotOk(t', init, forker, i) {
      assert SlotOk(t, init, forker, i);
    }
    forall s, q | 0 <= s < |t| && 0 <= q < |t| && t'[s].SleepsOn(OfProc(s)) ensures !ZombieChild(t', s, q) {
      assert s != p ==> !ZombieChild(t, s, q);
      assert s == p ==> !ZombieChild(t, p, q);
    }
  }

  lemma EmbryoChange(t: Table, init: nat, forker: map<nat, nat>, forker': map<nat, nat>, p: nat, x: Proc)
    requires TableOk(t, init, forker) && p < |t| && (t[p].state.UNUSED? || t[p].state.EMBRYO?)
    requires !x.state.ZOMBIE? && !x.state.SLEEPING?
    requires forall e :: e != p ==> (e in forker <==> e in forker') && (e in forker ==> forker'[e] == forker[e])
    requires SlotOk(t[p := x], init, forker', p)
    ensures TableOk(t[p := x], init, forker')
  {
    var t' := t[p := x];
    forall i | 0 <= i < |t| ensures SlotOk(t', init, forker', i) {
      assert SlotOk(t, init, forker, i);
    }
    forall s, q | 0 <= s < |t| && 0 <= q < |t| && t'[s].SleepsOn(OfProc(s)) ensures !ZombieChild(t', s, q) {
      assert !ZombieChild(t, s, q);
    }
  }

  /** wait() frees an exited child's slot. */
  function Cleared(x: Proc): Proc {
    x.(state := UNUSED, pid := 0, parent := -1, killed := false)
  }

  lemma ReapOk(t: Table, init: nat, forker: map<nat, nat>, q: nat)
    requires TableOk(t, init, forker) && q < |t| && t[q].state.ZOMBIE?
    ensures TableOk(t[q := Cleared(t[q])], init, forker)
  {
    var t' := t[q := Cleared(t[q])];
    assert SlotOk(t, init, forker, q);
    forall i | 0 <= i < |t| ensures SlotOk(t', init, forker, i) {
      assert SlotOk(t, init, forker, i);
    }
    forall s, i | 0 <= s < |t| && 0 <= i < |t| && t'[s].SleepsOn(OfProc(s)) ensures !ZombieChild(t', s, i) {
      assert !ZombieChild(t, s, i);
    }
  }

  lemma PidsFrame(t: Table, t': Table, nextpid: int, reaped: seq<int>)
    requires PidsOk(t, nextpid, reaped) && |t'| == |t|
    requires forall i :: 0 <= i < |t| ==> t'[i].pid == t[i].pid && (!t'[i].state.UNUSED? ==> !t[i].state.UNUSED?)
    ensures PidsOk(t', nextpid, reaped)
  {
  }

  datatype WaitResult = Reaped(pid: int) | NoChildren | Sleeps

  function KilledProc(x: Proc): Proc {
    x.(killed := true, state := if x.state.SLEEPING? then RUNNABLE else x.state)
  }

  lemma KillOk(t: Table, init: nat, forker: map<nat, nat>, p: nat)
    requires TableOk(t, init, forker) && p < |t|
    ensures TableOk(t[p := KilledProc(t[p])], init, forker)
  {
    var t' := t[p := KilledProc(t[p])];
    forall i | 0 <= i < |t| ensures SlotOk(t', init, forker, i) {
      assert SlotOk(t, init, forker, i);
    }
    forall s, q | 0 <= s < |t| && 0 <= q < |t| && t'[s].SleepsOn(OfProc(s)) ensures !ZombieChild(t', s, q) {
      assert !ZombieChild(t, s, q);
    }
  }

  lemma ExitPids(t: Table, init: nat, p: nat)
    requires p < |t| && p != init && t[p].parent >= 0 && !t[p].state.UNUSED?
    ensures forall i :: 0 <= i < |t| ==>
                          Exited(t, p, init)[i].pid == t[i].pid && Exited(t, p, init)[i].killed == t[i].killed &&
                          (Exited(t, p, init)[i].state.UNUSED? <==> t[i].state.UNUSED?)
  {
    var w := Woken(t, OfProc(t[p].parent));
    forall i | 0 <= i < |t|
      ensures Exited(t, p, init)[i].pid == t[i].pid && Exited(t, p, init)[i].killed == t[i].killed
      ensures Exited(t, p, init)[i].state.UNUSED? <==> t[i].state.UNUSED?
    {
      AdoptedAt(w, p, init, |t|, i);
    }
  }

  lemma ExitAccounted(t: Table, r: Table, p: nat, init: nat, reaped: seq<int>, exited: set<int>)
    requires p < |t| && t[p].state.RUNNING? && t[p].parent >= 0 && Gone(t, r, p, init) && Accounted(t, reaped, exited)
    ensures Accounted(r, reaped, exited + {t[p].pid})
  {
    assert forall i :: 0 <= i < |t| && i != p ==> GoneSlot(t, r[i], p, init, i);
    forall pid ensures IsZombie(r, pid) <==> IsZombie(t, pid) || pid == t[p].pid {
      if IsZombie(t, pid) {
        var i :| 0 <= i < |t| && t[i].state.ZOMBIE? && t[i].pid == pid;
        assert r[i].state.ZOMBIE? && r[i].pid == pid;
      }
      assert pid == t[p].pid ==> r[p].state.ZOMBIE? && r[p].pid == pid;
    }
  }

  lemma ReapAccounted(t: Table, q: nat, nextpid: int, reaped: seq<int>, exited: set<int>)
    requires q < |t| && t[q].state.ZOMBIE? && PidsOk(t, nextpid, reaped) && Accounted(t, reaped, exited)
    ensures Accounted(t[q := Cleared(t[q])], reaped + [t[q].pid], exited)
  {
    var r := t[q := Cleared(t[q])];
    forall pid ensures IsZombie(r, pid) || pid == t[q].pid <==> IsZombie(t, pid) {
      if IsZombie(t, pid) {
        var i :| 0 <= i < |t| && t[i].state.ZOMBIE? && t[i].pid == pid;
        assert i != q ==> r[i].state.ZOMBIE? && r[i].pid == pid;
      }
      assert t[q].state.ZOMBIE?;
    }
  }

  class ProcTable {
    const init: nat
    var procs: array<Proc>
    var nextpid: int
    /** The embryos and the processes inside fork() that are setting them up. */
    ghost var forker: map<nat, nat>
    /** All pids wait() has returned. */
    ghost var reaped: seq<int>
    /** The pids of all processes that have exited. */
    ghost var exited: set<int>

    ghost predicate Valid()
      reads this, procs
    {
      TableOk(procs[..], init, forker) && PidsOk(procs[..], nextpid, reaped) && nextpid > 0 &&
      Accounted(procs[..], reaped, exited)
    }

    /** The table after userinit(): one process, runnable. */
    constructor (n: nat)
      requires n > 0
      ensures Valid() && procs.Length == n && forker == map[] && reaped == [] && exited == {} && fresh(procs)
      ensures init == 0 && procs[0] == Proc(RUNNABLE, 1, -1, NoChan, false)
      ensures forall p :: 1 <= p < n ==> procs[p] == Proc(UNUSED, 0, -1, NoChan, false)
      ensures NoMarkedFree(procs[..]) && nextpid == 2
    {
      init := 0;
      procs := new Proc[n](_ => Proc(UNUSED, 0, -1, NoChan, false));
      nextpid, forker, reaped, exited := 2, map[], [], {};
      new;
      procs[0] := Proc(RUNNABLE, 1, -1, NoChan, false);
      forall p | 0 <= p < n ensures SlotOk(procs[..], init, forker, p) {
      }
    }

    /** One slot of a running or runnable process changes: scheduler, yield, sleep elsewhere. */
    method SetState(p: nat, state: ProcState, chan: Chan)
      requires Valid() && p < procs.Length && procs[p].Alive()
      requires state.RUNNABLE? || state.RUNNING? || (state.SLEEPING? && chan.Other?)
      modifies procs
      ensures Valid()
      ensures old(NoMarkedFree(procs[..])) ==> NoMarkedFree(procs[..])
      ensures procs[..] == old(procs[..])[p := old(procs[p]).(state := state, chan := chan)]
    {
      ghost var t := procs[..];
      procs[p] := procs[p].(state := state, chan := chan);
      LocalChange(t, init, forker, p, procs[p]);
      assert procs[..] == t[p := procs[p]];
      PidsFrame(t, procs[..], nextpid, reaped);
      SameZombies(t, procs[..], reaped, exited);
    }

    /**
     allocproc() by process c: the first free slot becomes an embryo with a new pid. It starts out
     killed if and only if the slot was marked while it was free.
     */
    method AllocProc(c: nat) returns (p: int)
      requires Valid() && c < procs.Length && procs[c].state.RUNNING?
      modifies procs, this`nextpid, this`forker
      ensures Valid()
      ensures old(NoMarkedFree(procs[..])) ==> NoMarkedFree(procs[..])
      ensures p != -1 ==> 0 <= p < procs.Length && procs[p].state.EMBRYO? && (procs[p].killed <==> old(procs[p]).killed)
      ensures p == -1 ==>
                procs[..] == old(procs[..]) && nextpid == old(nextpid) && forker == old(forker) &&
                forall i :: 0 <= i < procs.Length ==> !procs[i].state.UNUSED?
      ensures p != -1 ==>
                && 0 <= p < procs.Length && old(procs[p]).state.UNUSED?
                && (forall i :: 0 <= i < p ==> !old(procs[i]).state.UNUSED?)
                && procs[..] == old(procs[..])[p := old(procs[p]).(state := EMBRYO, pid := old(nextpid))]
                && nextpid == old(nextpid) + 1 && forker == old(forker)[p := c]
    {
      p := 0;
      while p < procs.Length && !procs[p].state.UNUSED?
        invariant 0 <= p <= procs.Length
        invariant forall i :: 0 <= i < p ==> !procs[i].state.UNUSED?
      {
        p := p + 1;
      }
      if p == procs.Length {
        return -1;
      }
      ghost var t, f := procs[..], forker;
      assert SlotOk(t, init, f, p);
      procs[p] := procs[p].(state := EMBRYO, pid := nextpid);
      nextpid := nextpid + 1;
      forker := forker[p := c];
      assert procs[..] == t[p := procs[p]];
      EmbryoChange(t, init, f, forker, p, procs[p]);
      SameZombies(t, procs[..], reaped, exited);
    }

    /**
     fork() fails before the parent is recorded: the slot is free again, with its pid and its kill
     mark left in it.
     */
    method AllocFail(p: nat)
      requires Valid() && p in forker && p < procs.Length && procs[p].parent == -1
      modifies procs, this`forker
      ensures Valid() && forker == old(forker) - {p}
      ensures old(NoMarkedFree(procs[..])) ==> (NoMarkedFree(procs[..]) <==> !old(procs[p]).killed)
      ensures procs[..] == old(procs[..])[p := old(procs[p]).(state := UNUSED)]
    {
      ghost var t, f := procs[..], forker;
      assert SlotOk(t, init, f, p);
      procs[p] := procs[p].(state := UNUSED);
      forker := forker - {p};
      assert procs[..] == t[p := procs[p]];
      EmbryoChange(t, init, f, forker, p, procs[p]);
      PidsFrame(t, procs[..], nextpid, reaped);
      SameZombies(t, procs[..], reaped, exited);
    }

    /** np->parent = proc. */
    method ForkLink(p: nat, c: nat)
      requires Valid() && p in forker && p < procs.Length && forker[p] == c
      modifies procs
      ensures Valid() && procs[..] == old(procs[..])[p := old(procs[p]).(parent := c)]
      ensures old(NoMarkedFree(procs[..])) ==> NoMarkedFree(procs[..])
    {
      ghost var t := procs[..];
      assert SlotOk(t, init, forker, p);
      procs[p] := procs[p].(parent := c);
      assert procs[..] == t[p := procs[p]];
      EmbryoChange(t, init, forker, forker, p, procs[p]);
      PidsFrame(t, procs[..], nextpid, reaped);
      SameZombies(t, procs[..], reaped, exited);
    }

    /** np->state = RUNNABLE: the child is past fork. */
    method ForkPublish(p: nat)
      requires Valid() && p in forker && p < procs.Length && procs[p].parent == forker[p]
      modifies procs, this`forker
      ensures Valid() && forker == old(forker) - {p}
      ensures old(NoMarkedFree(procs[..])) ==> NoMarkedFree(procs[..])
      ensures procs[..] == old(procs[..])[p := old(procs[p]).(state := RUNNABLE)]
    {
      ghost var t, f := procs[..], forker;
      assert SlotOk(t, init, f, p) && SlotOk(t, init, f, init);
      procs[p] := procs[p].(state := RUNNABLE);
      forker := forker - {p};
      assert procs[..] == t[p := procs[p]];
      EmbryoChange(t, init, f, forker, p, procs[p]);
      PidsFrame(t, procs[..], nextpid, reaped);
      SameZombies(t, procs[..], reaped, exited);
    }

    /** wakeup1(). */
    method Wakeup1(c: Chan)
      modifies procs
      ensures procs[..] == Woken(old(procs[..]), c)
    {
      var p := 0;
      while p < procs.Length
        invariant 0 <= p <= procs.Length
        invariant forall i :: 0 <= i < p ==> procs[i] == WokenProc(old(procs[i]), c)
        invariant forall i :: p <= i < procs.Length ==> procs[i] == old(procs[i])
      {
        if procs[p].SleepsOn(c) {
          procs[p] := procs[p].(state := RUNNABLE);
        }
        p := p + 1;
      }
    }

    /** wakeup() on any channel. */
    method Wakeup(c: Chan)
      requires Valid()
      modifies procs
      ensures Valid() && procs[..] == Woken(old(procs[..]), c)
      ensures old(NoMarkedFree(procs[..])) ==> NoMarkedFree(procs[..])
    {
      WokenOk(procs[..], init, forker, c);
      ghost var t := procs[..];
      Wakeup1(c);
      PidsFrame(t, procs[..], nextpid, reaped);
      SameZombies(t, procs[..], reaped, exited);
    }

    /** The loop of exit() over the children. */
    method Adopt(p: nat)
      requires p < procs.Length
      modifies procs
      ensures procs[..] == Adopted(old(procs[..]), p, init, procs.Length)
    {
      var q := 0;
      while q < procs.Length
        invariant 0 <= q <= procs.Length
        invariant procs[..] == Adopted(old(procs[..]), p, init, q)
      {
        if procs[q].parent == p {
          ghost var r := procs[..];
          procs[q] := procs[q].(parent := init);
          assert procs[..] == r[q := procs[q]];
          if procs[q].state.ZOMBIE? {
            Wakeup1(OfProc(init));
          }
        }
        q := q + 1;
      }
    }

    /** exit() of a process that is not inside fork(); false for init, where the source panics. */
    method Exit(p: nat) returns (ok: bool)
      requires Valid() && p < procs.Length && procs[p].state.RUNNING?
      requires forall e :: e in forker ==> forker[e] != p
      modifies procs, this`exited
      ensures Valid() && ok == (p != init)
      ensures old(NoMarkedFree(procs[..])) ==> NoMarkedFree(procs[..])
      ensures !ok ==> procs[..] == old(procs[..])
      ensures ok ==> old(procs[p]).parent >= 0 && procs[..] == Exited(old(procs[..]), p, init)
      ensures ok ==> Gone(old(procs[..]), procs[..], p, init)
      ensures exited == old(exited) + if ok then {old(procs[p]).pid} else {}
    {
      if p == init {
        return false;
      }
      ghost var t := procs[..];
      assert SlotOk(t, init, forker, p);
      ExitOk(t, init, forker, p);
      Wakeup1(OfProc(procs[p].parent));
      Adopt(p);
      ghost var r := procs[..];
      procs[p] := procs[p].(state := ZOMBIE);
      assert procs[..] == r[p := procs[p]];
      ExitPids(t, init, p);
      ExitedIsGone(t, init, p);
      PidsFrame(t, procs[..], nextpid, reaped);
      ExitAccounted(t, procs[..], p, init, reaped, exited);
      exited := exited + {procs[p].pid};
      ok := true;
    }

    /**
     One pass of wait() by p: report and free the first exited child; or -1 without children
     or when killed; or go to sleep on the own process structure.
     */
    method Wait(p: nat) returns (r: WaitResult)
      requires Valid() && p < procs.Length && procs[p].state.RUNNING?
      modifies procs, this`reaped
      ensures Valid()
      ensures old(NoMarkedFree(procs[..])) ==> NoMarkedFree(procs[..])
      ensures r.Reaped? ==>
                && r.pid in exited && r.pid !in old(reaped) && reaped == old(reaped) + [r.pid]
                && exists q :: 0 <= q < procs.Length && ZombieChild(old(procs[..]), p, q) &&
                               (forall i :: 0 <= i < q ==> !ZombieChild(old(procs[..]), p, i)) &&
                               old(procs[q]).pid == r.pid && procs[..] == old(procs[..])[q := Cleared(old(procs[q]))]
      ensures !r.Reaped? ==> reaped == old(reaped)
      ensures !r.Reaped? ==> forall q :: 0 <= q < procs.Length ==> !ZombieChild(old(procs[..]), p, q)
      ensures r.NoChildren? ==>
                && procs[..] == old(procs[..])
                && (old(procs[p]).killed || forall q :: 0 <= q < procs.Length ==> old(procs[q]).parent != p)
      ensures r.Sleeps? ==>
                !old(procs[p]).killed && (exists q :: 0 <= q < procs.Length && old(procs[q]).parent == p) &&
                procs[..] == old(procs[..])[p := old(procs[p]).(state := SLEEPING, chan := OfProc(p))]
    {
      ghost var t := procs[..];
      var havekids := false;
      var q := 0;
      while q < procs.Length
        invariant 0 <= q <= procs.Length && procs[..] == t && reaped == old(reaped)
        invariant forall i :: 0 <= i < q ==> !ZombieChild(t, p, i)
        invariant havekids <==> exists i :: 0 <= i < q && t[i].parent == p
      {
        if procs[q].parent == p {
          havekids := true;
          if procs[q].state.ZOMBIE? {
            r := Reaped(procs[q].pid);
            Reap(q);
            return;
          }
        }
        q := q + 1;
      }
      if !havekids || procs[p].killed {
        return NoChildren;
      }
      procs[p] := procs[p].(state := SLEEPING, chan := OfProc(p));
      LocalChange(t, init, forker, p, procs[p]);
      assert procs[..] == t[p := procs[p]];
      PidsFrame(t, procs[..], nextpid, reaped);
      SameZombies(t, procs[..], reaped, exited);
      r := Sleeps;
    }

    method Reap(q: nat)
      requires Valid() && q < procs.Length && procs[q].state.ZOMBIE?
      modifies procs, this`reaped
      ensures Valid() && old(procs[q]).pid !in old(reaped) && reaped == old(reaped) + [old(procs[q]).pid]
      ensures old(NoMarkedFree(procs[..])) ==> NoMarkedFree(procs[..])
      ensures procs[..] == old(procs[..])[q := Cleared(old(procs[q]))]
    {
      ghost var t := procs[..];
      ReapOk(t, init, forker, q);
      ReapAccounted(t, q, nextpid, reaped, exited);
      reaped := reaped + [procs[q].pid];
      procs[q] := Cleared(procs[q]);
      assert procs[..] == t[q := procs[q]];
    }

    /**
     kill(): marks the first slot with the pid, whatever its state, and wakes a sleeper. Free slots
     stay unmarked if and only if that slot is not free.
     */
    method Kill(pid: int) returns (ok: bool)
      requires Valid()
      modifies procs
      ensures Valid()
      ensures !ok ==> procs[..] == old(procs[..]) && forall i :: 0 <= i < procs.Length ==> procs[i].pid != pid
      ensures old(NoMarkedFree(procs[..])) ==>
                (NoMarkedFree(procs[..]) <==>
                 forall p: nat :: FirstWith(old(procs[..]), pid, p) ==> !old(procs[..])[p].state.UNUSED?)
      ensures ok ==> pid !in reaped
      ensures forall p: nat :: FirstWith(old(procs[..]), pid, p) ==>
                                 && ok && procs[p].killed && !procs[p].state.SLEEPING?
                                 && (old(procs[..])[p].state.SLEEPING? ==> procs[p].state.RUNNABLE?)
      ensures ok ==> exists p :: 0 <= p < procs.Length && FirstWith(old(procs[..]), pid, p) &&
                                 procs[..] == old(procs[..])[p := KilledProc(old(procs[p]))]
    {
      ghost var t := procs[..];
      var p := 0;
      while p < procs.Length
        invariant 0 <= p <= procs.Length && procs[..] == t
        invariant forall i :: 0 <= i < p ==> t[i].pid != pid
      {
        if procs[p].pid == pid {
          procs[p] := KilledProc(procs[p]);
          assert procs[..] == t[p := procs[p]];
          KillOk(t, init, forker, p);
          PidsFrame(t, procs[..], nextpid, reaped);
          SameZombies(t, procs[..], reaped, exited);
          return true;
        }
        p := p + 1;
      }
      return false;
    }
  }

  /** The exited children that exit() of p leaves its parent. */
  lemma ZombiesLeft(t: Table, r: Table, p: nat, init: nat, i: nat)
    requires p < |t| && t[p].state.RUNNING? && 0 <= t[p].parent < |t| && t[p].parent != p
    requires i < |t| && Gone(t, r, p, init)
    ensures var q := t[p].parent;
            ZombieChild(r, q, i) <==> i == p || ZombieChild(t, q, i) || (q == init && ZombieChild(t, p, i))
  {
    assert i != p ==> GoneSlot(t, r[i], p, init, i);
  }

  /**
   The parent of a process that exits does not sleep in wait(), and its next wait() reports an exit:
   that of the process, if the parent has no other exited child.
   */
  method ExitThenWait(pt: ProcTable, p: nat) returns (q: nat, r: WaitResult)
    requires pt.Valid() && p < pt.procs.Length && pt.procs[p].state.RUNNING? && p != pt.init
    requires forall e :: e in pt.forker ==> pt.forker[e] != p
    modifies pt`exited, pt`reaped, pt.procs
    ensures pt.Valid() && q == old(pt.procs[p]).parent && r.Reaped?
    ensures !old(HasZombie(pt.procs[..], pt.procs[p].parent)) &&
            (q == pt.init ==> !old(HasZombie(pt.procs[..], p))) ==>
              r.pid == old(pt.procs[p]).pid && pt.procs[p].state.UNUSED?
  {
    hide TableOk, PidsOk, Accounted;
    ghost var t := pt.procs[..];
    ParentOf(t, pt.init, pt.forker, p);
    q := pt.procs[p].parent;
    var ok := pt.Exit(p);
    ghost var t1 := pt.procs[..];
    assert GoneSlot(t, t1[q], p, pt.init, q);
    pt.SetState(q, RUNNING, NoChan);
    forall i | 0 <= i < |t|
      ensures ZombieChild(pt.procs[..], q, i) <==>
              i == p || ZombieChild(t, q, i) || (q == pt.init && ZombieChild(t, p, i))
    {
      ZombiesLeft(t, t1, p, pt.init, i);
    }
    assert ZombieChild(pt.procs[..], q, p);
    r := pt.Wait(q);
  }

  lemma ParentOf(t: Table, init: nat, forker: map<nat, nat>, p: nat)
    requires TableOk(t, init, forker) && p < |t| && p != init && t[p].state.RUNNING?
    ensures HasParent(t, p)
  {
    assert SlotOk(t, init, forker, p);
  }

  // A new process need not start out unkilled: three ways to mark a slot that becomes free or is free.

  /** kill(0) finds a slot that was never used or has been cleared. */
  method BornKilled() returns (pt: ProcTable, p: int)
    ensures 0 <= p < pt.procs.Length && pt.procs[p].state.EMBRYO? && pt.procs[p].killed
  {
    pt := new ProcTable(2);
    ghost var t := pt.procs[..];
    assert t[0].pid == 1 && t[1].pid == 0;
    var ok := pt.Kill(0);
    assert pt.procs[..] == t[1 := KilledProc(t[1])];
    ghost var t1 := pt.procs[..];
    pt.SetState(0, RUNNING, NoChan);
    assert pt.procs[..][1] == t1[1];
    p := pt.AllocProc(0);
  }

  /** kill() of the pid that a failed fork left in its slot. */
  method BornKilledStale() returns (pt: ProcTable, p: int)
    ensures 0 <= p < pt.procs.Length && pt.procs[p].state.EMBRYO? && pt.procs[p].killed
  {
    pt := new ProcTable(2);
    pt.SetState(0, RUNNING, NoChan);
    assert pt.procs[..][1] == Proc(UNUSED, 0, -1, NoChan, false);
    p := pt.AllocProc(0);
    var pid := pt.procs[1].pid;
    pt.AllocFail(1);
    ghost var t := pt.procs[..];
    assert t[0].pid == 1 && t[1].pid == pid == 2 && t[1].state.UNUSED?;
    var ok := pt.Kill(pid);
    assert pt.procs[..] == t[1 := KilledProc(t[1])];
    p := pt.AllocProc(0);
  }

  /** kill() of an embryo whose fork then fails. */
  method BornKilledEmbryo() returns (pt: ProcTable, p: int)
    ensures 0 <= p < pt.procs.Length && pt.procs[p].state.EMBRYO? && pt.procs[p].killed
  {
    pt := new ProcTable(2);
    pt.SetState(0, RUNNING, NoChan);
    assert pt.procs[..][1] == Proc(UNUSED, 0, -1, NoChan, false);
    p := pt.AllocProc(0);
    ghost var t := pt.procs[..];
    assert t[0].pid == 1 && t[1].pid == 2;
    var ok := pt.Kill(2);
    assert pt.procs[..] == t[1 := KilledProc(t[1])];
    pt.AllocFail(1);
    assert pt.procs[..] == t[1 := KilledProc(t[1]).(state := UNUSED)];
    p := pt.AllocProc(0);
  }
}
