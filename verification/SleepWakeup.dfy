/**
 sleep(), wakeup(), sched() and the scheduler of proc.c over the spinlocks of spinlock.c, for
 any number of processes, CPUs, locks and channels. Steps are single lock operations and
 single accesses to the process table; ptable.lock passes between a process and its CPU's
 scheduler at each context switch.
 */
module SleepWakeup {

  type LockId = nat
  type ChanId = nat

  /** The lock of the process table. */
  const PTABLE: LockId := 0

  /** Who holds a spinlock: a process, or the scheduler of a CPU. */
  datatype Owner = Nobody | OfProc(p: nat) | OfCpu(c: nat)

  datatype RunState = RUNNABLE | RUNNING | SLEEPING

  /**
   Where a process stands. Kernel is code outside these functions; the Sleep points are lines
   422-439 of proc.c in order, the Wake points 459-461, the Yield points 379-382. WakeScan is in
   wakeup1(); `held` says that its caller held ptable.lock already, as exit() does, and keeps it.
   */
  datatype Pc =
    | Kernel
    | SleepAcquire
    | SleepRelease
    | SleepMark
    | SleepSwitch
    | SleepResume
    | SleepUnlock
    | SleepReacquire
    | WakeAcquire
    | WakeScan(i: nat, held: bool)
    | WakeRelease
    | WakeReturn
    | YieldAcquire
    | YieldMark
    | YieldSwitch
    | YieldRelease

  /**
   A process: table entry, program point, the arguments of its last sleep() and wakeup(). Then
   history: how many sleeps have given up their lock, how many were ended by a wakeup, and
   which sleeps were pending on the channel when the current wakeup() was called.
   */
  datatype Proc = Proc(
    state: RunState,
    chan: ChanId,
    pc: Pc,
    sleepChan: ChanId,
    lk: LockId,
    wakeChan: ChanId,
    sleeps: nat,
    woken: nat,
    due: map<nat, nat>)

  /** A CPU is in its scheduler without or with ptable.lock, or runs a process. */
  datatype Cpu = Looking | Choosing | Running(p: nat)

  datatype State = State(procs: seq<Proc>, cpus: seq<Cpu>, locks: map<LockId, Owner>)

  function OwnerOf(s: State, l: LockId): Owner {
    if l in s.locks then s.locks[l] else Nobody
  }

  /** Process p is executing on CPU c. */
  predicate On(s: State, c: nat, p: nat) {
    c < |s.cpus| && p < |s.procs| && s.cpus[c] == Running(p)
  }

  /** p holds l and no other lock. */
  ghost predicate HoldsOnly(s: State, p: nat, l: LockId) {
    OwnerOf(s, l) == OfProc(p) && forall k :: k != l ==> OwnerOf(s, k) != OfProc(p)
  }

  ghost predicate HoldsNone(s: State, p: nat) {
    forall k :: OwnerOf(s, k) != OfProc(p)
  }

  datatype Step =
    | Acquire(c: nat, p: nat, l: LockId)
    | Release(c: nat, p: nat, l: LockId)
    | CallSleep(c: nat, p: nat, chan: ChanId, lk: LockId)
    | CallWakeup(c: nat, p: nat, chan: ChanId)
    | CallWakeup1(c: nat, p: nat, chan: ChanId)
    | CallYield(c: nat, p: nat)
    | Go(c: nat, p: nat)
    | SchedLock(c: nat)
    | SchedRun(c: nat, p: nat)
    | SchedUnlock(c: nat)
    | Kill(c: nat, p: nat, victim: nat)

  /**
   When a step can happen. Kernel code follows the rules the panics in spinlock.c and sched()
   enforce: it acquires no lock it holds, releases only its own, calls sleep() holding the one
   lock it passes, wakeup() without ptable.lock and wakeup1() with it, and yield() without any.
   */
  ghost predicate Enabled(s: State, st: Step)
  {
    match st
    case Acquire(c, p, l) => On(s, c, p) && s.procs[p].pc.Kernel? && OwnerOf(s, l) == Nobody
    case Release(c, p, l) => On(s, c, p) && s.procs[p].pc.Kernel? && OwnerOf(s, l) == OfProc(p)
    case CallSleep(c, p, _, lk) => On(s, c, p) && s.procs[p].pc.Kernel? && HoldsOnly(s, p, lk)
    case CallWakeup(c, p, _) => On(s, c, p) && s.procs[p].pc.Kernel? && OwnerOf(s, PTABLE) != OfProc(p)
    case CallWakeup1(c, p, _) => On(s, c, p) && s.procs[p].pc.Kernel? && OwnerOf(s, PTABLE) == OfProc(p)
    case CallYield(c, p) => On(s, c, p) && s.procs[p].pc.Kernel? && HoldsNone(s, p)
    case Go(c, p) =>
      && On(s, c, p) && !s.procs[p].pc.Kernel?
      && (s.procs[p].pc.SleepAcquire? || s.procs[p].pc.WakeAcquire? || s.procs[p].pc.YieldAcquire? ==>
            OwnerOf(s, PTABLE) == Nobody)
      && (s.procs[p].pc.SleepReacquire? ==> OwnerOf(s, s.procs[p].lk) == Nobody)
    case SchedLock(c) => c < |s.cpus| && s.cpus[c].Looking? && OwnerOf(s, PTABLE) == Nobody
    case SchedRun(c, p) => c < |s.cpus| && s.cpus[c].Choosing? && p < |s.procs| && s.procs[p].state.RUNNABLE?
    case SchedUnlock(c) => c < |s.cpus| && s.cpus[c].Choosing?
    case Kill(c, p, v) =>
      On(s, c, p) && s.procs[p].pc.Kernel? && v < |s.procs| && OwnerOf(s, PTABLE) == OfProc(p)
  }

  function Set(s: State, p: nat, x: Proc): State
    requires p < |s.procs|
  {
    s.(procs := s.procs[p := x])
  }

  function Lock(s: State, l: LockId, o: Owner): State {
    s.(locks := s.locks[l := o])
  }

  /** A sleeper becomes runnable. */
  function WokenProc(x: Proc): Proc {
    x.(state := RUNNABLE, woken := x.woken + 1)
  }

  /** The sleep of x that has given up its lock and has not been ended. */
  predicate Pending(x: Proc) {
    x.woken < x.sleeps
  }

  /** The sleeps on a channel that a wakeup() called now has to end. */
  function DueOn(procs: seq<Proc>, chan: ChanId): map<nat, nat> {
    map q | 0 <= q < |procs| && Pending(procs[q]) && procs[q].sleepChan == chan :: procs[q].sleeps
  }

  /** The next step of a process inside sleep(), wakeup() or yield(). */
  function DoGo(s: State, c: nat, p: nat): State
    requires On(s, c, p)
  {
    var x := s.procs[p];
    match x.pc
    case Kernel => s
    case SleepAcquire => Lock(Set(s, p, x.(pc := SleepRelease)), PTABLE, OfProc(p))
    case SleepRelease => Lock(Set(s, p, x.(pc := SleepMark, sleeps := x.sleeps + 1)), x.lk, Nobody)
    case SleepMark =>
      Set(s, p, x.(chan := x.sleepChan, state := SLEEPING, pc := SleepSwitch,
                   sleeps := if x.lk == PTABLE then x.sleeps + 1 else x.sleeps))
    case SleepSwitch => SwitchOut(Set(s, p, x.(pc := SleepResume)), c)
    case SleepResume => Set(s, p, x.(chan := 0, pc := if x.lk == PTABLE then Kernel else SleepUnlock))
    case SleepUnlock => Lock(Set(s, p, x.(pc := SleepReacquire)), PTABLE, Nobody)
    case SleepReacquire => Lock(Set(s, p, x.(pc := Kernel)), x.lk, OfProc(p))
    case WakeAcquire => Lock(Set(s, p, x.(pc := WakeScan(0, false))), PTABLE, OfProc(p))
    case WakeScan(i, held) =>
      if i >= |s.procs| then Set(s, p, x.(pc := if held then WakeReturn else WakeRelease))
      else
        var s' := if s.procs[i].state.SLEEPING? && s.procs[i].chan == x.wakeChan
                  then Set(s, i, WokenProc(s.procs[i])) else s;
        Set(s', p, s'.procs[p].(pc := WakeScan(i + 1, held)))
    case WakeRelease => Lock(Set(s, p, x.(pc := Kernel)), PTABLE, Nobody)
    case WakeReturn => Set(s, p, x.(pc := Kernel))
    case YieldAcquire => Lock(Set(s, p, x.(pc := YieldMark)), PTABLE, OfProc(p))
    case YieldMark => Set(s, p, x.(state := RUNNABLE, pc := YieldSwitch))
    case YieldSwitch => SwitchOut(Set(s, p, x.(pc := YieldRelease)), c)
    case YieldRelease => Lock(Set(s, p, x.(pc := Kernel)), PTABLE, Nobody)
  }

  /** swtch() to the scheduler, which finds itself holding ptable.lock. */
  function SwitchOut(s: State, c: nat): State
    requires c < |s.cpus|
  {
    Lock(s.(cpus := s.cpus[c := Choosing]), PTABLE, OfCpu(c))
  }

  function Do(s: State, st: Step): State
    requires Enabled(s, st)
  {
    match st
    case Acquire(_, p, l) => Lock(s, l, OfProc(p))
    case Release(_, p, l) => Lock(s, l, Nobody)
    case CallSleep(_, p, chan, lk) =>
      Set(s, p, s.procs[p].(sleepChan := chan, lk := lk, pc := if lk == PTABLE then SleepMark else SleepAcquire))
    case CallWakeup(_, p, chan) =>
      Set(s, p, s.procs[p].(wakeChan := chan, pc := WakeAcquire, due := DueOn(s.procs, chan)))
    case CallWakeup1(_, p, chan) =>
      Set(s, p, s.procs[p].(wakeChan := chan, pc := WakeScan(0, true), due := DueOn(s.procs, chan)))
    case CallYield(_, p) => Set(s, p, s.procs[p].(pc := YieldAcquire))
    case Go(c, p) => DoGo(s, c, p)
    case SchedLock(c) => Lock(s.(cpus := s.cpus[c := Choosing]), PTABLE, OfCpu(c))
    case SchedRun(c, p) =>
      Lock(Set(s, p, s.procs[p].(state := RUNNING)).(cpus := s.cpus[c := Running(p)]), PTABLE, OfProc(p))
    case SchedUnlock(c) => Lock(s.(cpus := s.cpus[c := Looking]), PTABLE, Nobody)
    case Kill(_, p, v) => if s.procs[v].state.SLEEPING? then Set(s, v, WokenProc(s.procs[v])) else s
  }

  // The invariant.

  /** Program points at which the set of locks held is known exactly. */
  predicate Restricted(pc: Pc) {
    !pc.Kernel? && !pc.WakeAcquire? && !pc.WakeScan? && !pc.WakeRelease? && !pc.WakeReturn?
  }

  /** A process at a restricted point holds l. */
  predicate Expects(x: Proc, l: LockId) {
    match x.pc
    case SleepAcquire => l == x.lk
    case SleepRelease => l == x.lk || l == PTABLE
    case SleepReacquire => false
    case YieldAcquire => false
    case SleepResume => l == PTABLE && x.state.RUNNING?
    case YieldRelease => l == PTABLE && x.state.RUNNING?
    case _ => l == PTABLE
  }

  ghost predicate LocksOk(s: State, p: nat)
    requires p < |s.procs|
  {
    var x := s.procs[p];
    && (Restricted(x.pc) ==> forall l :: OwnerOf(s, l) == OfProc(p) <==> Expects(x, l))
    && (x.pc.WakeScan? || x.pc.WakeRelease? || x.pc.WakeReturn? ==> OwnerOf(s, PTABLE) == OfProc(p))
  }

  /** The table entry fits the program point; a sleep that gave up its lock is on its way or asleep. */
  predicate EntryOk(x: Proc) {
    && x.woken <= x.sleeps <= x.woken + 1
    && (!x.pc.SleepSwitch? && !x.pc.SleepResume? ==> x.chan == 0)
    && (x.pc.SleepAcquire? || x.pc.SleepRelease? || x.pc.SleepUnlock? || x.pc.SleepReacquire? ==> x.lk != PTABLE)
    && (x.state.SLEEPING? ==> Pending(x) && x.chan == x.sleepChan && (x.pc.SleepSwitch? || x.pc.SleepResume?))
    && (x.state.RUNNABLE? ==> !Pending(x) && (x.pc.YieldSwitch? || x.pc.SleepResume? || x.pc.YieldRelease?))
    && (x.state.RUNNING? ==>
          !x.pc.SleepSwitch? && !x.pc.YieldSwitch? && (Pending(x) <==> x.pc.SleepMark? && x.lk != PTABLE))
  }

  /** How far the wakeup() of x has got with one of the sleeps it has to end. */
  predicate DueMet(x: Proc, procs: seq<Proc>, q: nat)
    requires q in x.due
  {
    && q < |procs|
    && (procs[q].woken >= x.due[q] ||
        (Pending(procs[q]) && procs[q].sleeps == x.due[q] && procs[q].sleepChan == x.wakeChan &&
         (x.pc.WakeAcquire? || (x.pc.WakeScan? && x.pc.i <= q))))
  }

  predicate Waking(x: Proc) {
    x.pc.WakeAcquire? || x.pc.WakeScan? || x.pc.WakeRelease? || x.pc.WakeReturn?
  }

  ghost predicate DueOk(s: State, p: nat)
    requires p < |s.procs|
  {
    Waking(s.procs[p]) ==> forall q :: q in s.procs[p].due ==> DueMet(s.procs[p], s.procs, q)
  }

  ghost predicate CpuOk(s: State, c: nat)
    requires c < |s.cpus|
  {
    match s.cpus[c]
    case Looking => true
    case Choosing => OwnerOf(s, PTABLE) == OfCpu(c)
    case Running(p) =>
      p < |s.procs| && (s.procs[p].state.RUNNING? || s.procs[p].pc.SleepSwitch? || s.procs[p].pc.YieldSwitch?)
  }

  ghost predicate Inv(s: State)
  {
    && (forall p :: 0 <= p < |s.procs| ==> EntryOk(s.procs[p]))
    && (forall p :: 0 <= p < |s.procs| ==> LocksOk(s, p))
    && (forall p :: 0 <= p < |s.procs| ==> DueOk(s, p))
    && (forall c :: 0 <= c < |s.cpus| ==> CpuOk(s, c))
    && (forall c, d :: 0 <= c < d < |s.cpus| && s.cpus[c].Running? ==> s.cpus[c] != s.cpus[d])
  }

  /** The machine at the start: every process waits to be run for the first time, as forkret() expects. */
  ghost predicate Init(s: State)
  {
    && s.locks == map[]
    && (forall p :: 0 <= p < |s.procs| ==> s.procs[p] == Proc(RUNNABLE, 0, YieldRelease, 0, 0, 0, 0, 0, map[]))
    && (forall c :: 0 <= c < |s.cpus| ==> s.cpus[c].Looking?)
  }

  // Preservation, part by part.

  /** What a step may do to the sleep accounting of a process. */
  predicate Advances(x: Proc, x': Proc) {
    && x.woken <= x'.woken
    && (Pending(x) ==> x.woken < x'.woken || (Pending(x') && x'.sleeps == x.sleeps && x'.sleepChan == x.sleepChan))
  }

  lemma DueKept(s: State, s': State, p: nat)
    requires p < |s.procs| == |s'.procs| && DueOk(s, p)
    requires forall q :: 0 <= q < |s.procs| ==> EntryOk(s.procs[q]) && Advances(s.procs[q], s'.procs[q])
    requires Waking(s'.procs[p]) ==>
               && s'.procs[p].due == s.procs[p].due && s'.procs[p].wakeChan == s.procs[p].wakeChan
               && s'.procs[p].pc == s.procs[p].pc
    ensures DueOk(s', p)
  {
    if Waking(s'.procs[p]) {
      forall q | q in s'.procs[p].due ensures DueMet(s'.procs[p], s'.procs, q) {
        assert DueMet(s.procs[p], s.procs, q);
        assert Advances(s.procs[q], s'.procs[q]);
      }
    }
  }

  lemma LocksKept(s: State, s': State, p: nat)
    requires p < |s.procs| == |s'.procs| && LocksOk(s, p) && s'.procs[p] == s.procs[p]
    requires forall l :: OwnerOf(s', l) == OwnerOf(s, l) || (OwnerOf(s, l) != OfProc(p) && OwnerOf(s', l) != OfProc(p))
    ensures LocksOk(s', p)
  {
  }

  /** Only process p, and locks that were free or its own, may differ. */
  ghost predicate OnlyBy(s: State, s': State, p: nat)
  {
    && p < |s.procs| == |s'.procs|
    && s'.cpus == s.cpus
    && (forall q :: 0 <= q < |s.procs| && q != p ==> s'.procs[q] == s.procs[q])
    && (forall l :: OwnerOf(s', l) == OwnerOf(s, l) ||
                    (OwnsOrFree(OwnerOf(s, l), p) && OwnsOrFree(OwnerOf(s', l), p)))
  }

  predicate OwnsOrFree(o: Owner, p: nat) {
    o == Nobody || o == OfProc(p)
  }

  lemma OneProcess(s: State, s': State, c: nat, p: nat)
    requires Inv(s) && On(s, c, p) && OnlyBy(s, s', p)
    requires EntryOk(s'.procs[p]) && LocksOk(s', p) && DueOk(s', p) && Advances(s.procs[p], s'.procs[p])
    requires s'.procs[p].state.RUNNING? || s'.procs[p].pc.SleepSwitch? || s'.procs[p].pc.YieldSwitch?
    ensures Inv(s')
  {
    forall q | 0 <= q < |s.procs| ensures EntryOk(s'.procs[q]) && LocksOk(s', q) && DueOk(s', q) {
      assert EntryOk(s.procs[q]) && LocksOk(s, q) && DueOk(s, q);
      if q != p {
        LocksKept(s, s', q);
        DueKept(s, s', q);
      }
    }
    forall d | 0 <= d < |s.cpus| ensures CpuOk(s', d) {
      assert CpuOk(s, d);
    }
  }

  /** A step of a process that neither switches context nor touches another process. */
  ghost predicate Quiet(s: State, c: nat, p: nat) {
    && Enabled(s, Go(c, p)) && EntryOk(s.procs[p]) && LocksOk(s, p) && CpuOk(s, c) && DueOk(s, p)
    && !s.procs[p].pc.SleepSwitch? && !s.procs[p].pc.YieldSwitch? && !s.procs[p].pc.WakeScan?
  }

  lemma QuietLocks(s: State, c: nat, p: nat)
    requires Quiet(s, c, p)
    ensures OnlyBy(s, DoGo(s, c, p), p) && LocksOk(DoGo(s, c, p), p)
  {
    var s' := DoGo(s, c, p);
    assert OwnerOf(s, PTABLE) == OfProc(p) || OwnerOf(s, PTABLE) == Nobody || OwnerOf(s', PTABLE) == OwnerOf(s, PTABLE);
    forall l ensures Restricted(s'.procs[p].pc) ==> (OwnerOf(s', l) == OfProc(p) <==> Expects(s'.procs[p], l)) {
      assert Restricted(s.procs[p].pc) ==> (OwnerOf(s, l) == OfProc(p) <==> Expects(s.procs[p], l));
    }
  }

  lemma QuietEntry(s: State, c: nat, p: nat)
    requires Quiet(s, c, p)
    ensures var s' := DoGo(s, c, p);
            && |s'.procs| == |s.procs| && EntryOk(s'.procs[p]) && Advances(s.procs[p], s'.procs[p])
            && (s'.procs[p].state.RUNNING? || s'.procs[p].pc.SleepSwitch? || s'.procs[p].pc.YieldSwitch?)
  {
    hide LocksOk, DueOk, OwnerOf;
  }

  lemma QuietDue(s: State, c: nat, p: nat)
    requires Quiet(s, c, p)
    ensures |DoGo(s, c, p).procs| == |s.procs| && DueOk(DoGo(s, c, p), p)
  {
    hide LocksOk, EntryOk, OwnerOf;
    var s' := DoGo(s, c, p);
    if Waking(s'.procs[p]) {
      forall q | q in s'.procs[p].due ensures DueMet(s'.procs[p], s'.procs, q) {
        assert DueMet(s.procs[p], s.procs, q);
      }
    }
  }

  lemma QuietGo(s: State, c: nat, p: nat)
    requires Inv(s) && Enabled(s, Go(c, p))
    requires !s.procs[p].pc.SleepSwitch? && !s.procs[p].pc.YieldSwitch? && !s.procs[p].pc.WakeScan?
    ensures Inv(DoGo(s, c, p))
  {
    hide DoGo, LocksOk, EntryOk, DueOk, OnlyBy;
    QuietLocks(s, c, p);
    QuietEntry(s, c, p);
    QuietDue(s, c, p);
    OneProcess(s, DoGo(s, c, p), c, p);
  }

  /** Kernel code taking or giving up a lock, or entering sleep(), wakeup() or yield(). */
  lemma KernelStep(s: State, st: Step)
    requires Inv(s) && Enabled(s, st)
    requires st.Acquire? || st.Release? || st.CallSleep? || st.CallWakeup? || st.CallWakeup1? || st.CallYield?
    ensures Inv(Do(s, st))
  {
    var s', p, c := Do(s, st), st.p, st.c;
    assert EntryOk(s.procs[p]) && LocksOk(s, p) && CpuOk(s, c);
    assert LocksOk(s', p) by {
      forall l ensures Restricted(s'.procs[p].pc) ==> (OwnerOf(s', l) == OfProc(p) <==> Expects(s'.procs[p], l)) {
        assert OwnerOf(s', l) == OwnerOf(s, l) || !Restricted(s'.procs[p].pc);
      }
    }
    OneProcess(s, s', c, p);
  }

  /** A context switch to the scheduler: sched() is entered with ptable.lock and nothing else. */
  lemma SwitchStep(s: State, c: nat, p: nat)
    requires Inv(s) && Enabled(s, Go(c, p)) && (s.procs[p].pc.SleepSwitch? || s.procs[p].pc.YieldSwitch?)
    ensures Inv(DoGo(s, c, p))
  {
    var s' := DoGo(s, c, p);
    assert EntryOk(s.procs[p]) && LocksOk(s, p);
    assert OwnerOf(s, PTABLE) == OfProc(p) by {
      assert Expects(s.procs[p], PTABLE);
    }
    forall q | 0 <= q < |s.procs| ensures EntryOk(s'.procs[q]) && LocksOk(s', q) && DueOk(s', q) {
      assert EntryOk(s.procs[q]) && LocksOk(s, q) && DueOk(s, q);
      if q != p {
        LocksKept(s, s', q);
      } else {
        forall l ensures OwnerOf(s', l) != OfProc(p) {
          assert OwnerOf(s, l) == OfProc(p) <==> Expects(s.procs[p], l);
        }
      }
      DueKept(s, s', q);
    }
    forall d | 0 <= d < |s.cpus| ensures CpuOk(s', d) {
      assert CpuOk(s, d);
    }
  }

  /** One process asleep is made runnable by the holder of ptable.lock. */
  lemma WakeOne(s: State, p: nat, i: nat)
    requires Inv(s) && p < |s.procs| && i < |s.procs| && s.procs[i].state.SLEEPING?
    requires OwnerOf(s, PTABLE) == OfProc(p) && s.procs[p].state.RUNNING?
    ensures p != i && Inv(Set(s, i, WokenProc(s.procs[i])))
  {
    var s' := Set(s, i, WokenProc(s.procs[i]));
    assert EntryOk(s.procs[i]) && LocksOk(s, i);
    assert Restricted(s.procs[i].pc) ==> (OwnerOf(s, PTABLE) == OfProc(i) <==> Expects(s.procs[i], PTABLE));
    forall q | 0 <= q < |s.procs| ensures EntryOk(s'.procs[q]) && LocksOk(s', q) && DueOk(s', q) {
      assert EntryOk(s.procs[q]) && LocksOk(s, q) && DueOk(s, q);
      if q == i {
        forall l ensures OwnerOf(s', l) == OfProc(i) <==> Expects(s'.procs[i], l) {
          assert OwnerOf(s, l) == OfProc(i) <==> Expects(s.procs[i], l);
        }
      } else {
        LocksKept(s, s', q);
      }
      DueKept(s, s', q);
    }
    forall d | 0 <= d < |s.cpus| ensures CpuOk(s', d) {
      assert CpuOk(s, d);
    }
  }

  /** The scan of wakeup1() at slot i: whoever is due there is asleep, since ptable.lock is held. */
  lemma ScanStep(s: State, c: nat, p: nat)
    requires Inv(s) && Enabled(s, Go(c, p)) && s.procs[p].pc.WakeScan?
    ensures Inv(DoGo(s, c, p))
  {
    var x := s.procs[p];
    var i := x.pc.i;
    var s' := DoGo(s, c, p);
    assert EntryOk(x) && LocksOk(s, p) && CpuOk(s, c);
    if i >= |s.procs| {
      DueScanned(s, s, p);
      assert s'.procs == s.procs[p := x.(pc := AfterScan(x.pc, |s.procs|))];
      OneProcess(s, s', c, p);
    } else {
      var s1 := if s.procs[i].state.SLEEPING? && s.procs[i].chan == x.wakeChan
                then Set(s, i, WokenProc(s.procs[i])) else s;
      if s1 != s {
        WakeOne(s, p, i);
      }
      assert s1.procs[p] == x;
      DueScanned(s, s1, p);
      assert s'.procs == s1.procs[p := x.(pc := AfterScan(x.pc, |s.procs|))];
      OneProcess(s1, s', c, p);
    }
  }

  /** Where the scan goes on from slot i of n. */
  function AfterScan(pc: Pc, n: nat): Pc
    requires pc.WakeScan?
  {
    if pc.i < n then WakeScan(pc.i + 1, pc.held) else if pc.held then WakeReturn else WakeRelease
  }

  /** After slot i every sleep due there has been ended. */
  lemma DueScanned(s: State, s1: State, p: nat)
    requires Inv(s) && Inv(s1) && p < |s.procs| && s.procs[p].pc.WakeScan?
    requires var i := s.procs[p].pc.i;
             s1 == if i < |s.procs| && s.procs[i].state.SLEEPING? && s.procs[i].chan == s.procs[p].wakeChan
                   then Set(s, i, WokenProc(s.procs[i])) else s
    requires s1.procs[p] == s.procs[p]
    ensures var x' := s1.procs[p].(pc := AfterScan(s.procs[p].pc, |s.procs|));
            forall q :: q in x'.due ==> DueMet(x', s1.procs[p := x'], q)
  {
    var i := s.procs[p].pc.i;
    var x' := s1.procs[p].(pc := AfterScan(s.procs[p].pc, |s.procs|));
    assert LocksOk(s, p) && DueOk(s, p);
    forall q | q in x'.due ensures DueMet(x', s1.procs[p := x'], q) {
      assert DueMet(s.procs[p], s.procs, q);
      assert EntryOk(s.procs[q]) && LocksOk(s, q);
      if q == i && s.procs[q].woken < x'.due[q] {
        assert Restricted(s.procs[q].pc) ==> (OwnerOf(s, PTABLE) == OfProc(q) <==> Expects(s.procs[q], PTABLE));
        assert s.procs[q].state.SLEEPING?;
      }
    }
  }

  /** The scheduler hands ptable.lock to the process it runs. */
  lemma RunStep(s: State, c: nat, p: nat)
    requires Inv(s) && Enabled(s, SchedRun(c, p))
    ensures Inv(Do(s, SchedRun(c, p)))
  {
    var s' := Do(s, SchedRun(c, p));
    assert CpuOk(s, c) && EntryOk(s.procs[p]) && LocksOk(s, p);
    assert Restricted(s.procs[p].pc) ==> (OwnerOf(s, PTABLE) == OfProc(p) <==> Expects(s.procs[p], PTABLE));
    forall q | 0 <= q < |s.procs| ensures EntryOk(s'.procs[q]) && LocksOk(s', q) && DueOk(s', q) {
      assert EntryOk(s.procs[q]) && LocksOk(s, q) && DueOk(s, q);
      if q == p {
        forall l ensures OwnerOf(s', l) == OfProc(p) <==> Expects(s'.procs[p], l) {
          assert OwnerOf(s, l) == OfProc(p) <==> Expects(s.procs[p], l);
        }
      } else {
        LocksKept(s, s', q);
      }
      DueKept(s, s', q);
    }
    forall d | 0 <= d < |s.cpus| ensures CpuOk(s', d) && (d != c ==> s'.cpus[d] != Running(p)) {
      assert CpuOk(s, d);
    }
  }

  lemma SchedulerStep(s: State, st: Step)
    requires Inv(s) && Enabled(s, st) && (st.SchedLock? || st.SchedUnlock?)
    ensures Inv(Do(s, st))
  {
    var s', c := Do(s, st), st.c;
    assert CpuOk(s, c);
    forall q | 0 <= q < |s.procs| ensures LocksOk(s', q) && DueOk(s', q) {
      assert LocksOk(s, q) && DueOk(s, q);
      LocksKept(s, s', q);
    }
    forall d | 0 <= d < |s.cpus| ensures CpuOk(s', d) {
      assert CpuOk(s, d);
    }
  }

  lemma StepKeeps(s: State, st: Step)
    requires Inv(s) && Enabled(s, st)
    ensures Inv(Do(s, st)) && |Do(s, st).procs| == |s.procs|
  {
    match st
    case Go(c, p) =>
      match s.procs[p].pc {
        case SleepSwitch => SwitchStep(s, c, p);
        case YieldSwitch => SwitchStep(s, c, p);
        case WakeScan(_, _) => ScanStep(s, c, p);
        case _ => QuietGo(s, c, p);
      }
    case SchedRun(c, p) => RunStep(s, c, p);
    case SchedLock(_) => SchedulerStep(s, st);
    case SchedUnlock(_) => SchedulerStep(s, st);
    case Kill(c, p, v) =>
      assert CpuOk(s, c) && EntryOk(s.procs[p]);
      if s.procs[v].state.SLEEPING? {
        WakeOne(s, p, v);
      }
    case _ => KernelStep(s, st);
  }

  // What a call leaves behind.

  /** The locks that p holds. */
  ghost predicate HoldsExactly(s: State, p: nat, locks: iset<LockId>) {
    forall l :: OwnerOf(s, l) == OfProc(p) <==> l in locks
  }

  predicate InSleep(pc: Pc) {
    pc.SleepAcquire? || pc.SleepRelease? || pc.SleepMark? || pc.SleepSwitch? || pc.SleepResume? || pc.SleepUnlock? ||
    pc.SleepReacquire?
  }

  predicate InWakeup(pc: Pc) {
    pc.WakeAcquire? || pc.WakeScan? || pc.WakeRelease? || pc.WakeReturn?
  }

  predicate InYield(pc: Pc) {
    pc.YieldAcquire? || pc.YieldMark? || pc.YieldSwitch? || pc.YieldRelease?
  }

  /** The call that p makes with st. */
  predicate Calls(st: Step, p: nat) {
    match st
    case CallSleep(_, q, _, _) => q == p
    case CallWakeup(_, q, _) => q == p
    case CallWakeup1(_, q, _) => q == p
    case CallYield(_, q) => q == p
    case _ => false
  }

  /** A sleeper's entry when its call began with `sleeps` at n: it goes up once. */
  predicate Counted(x: Proc, n: nat) {
    x.sleeps == if x.pc.SleepAcquire? || x.pc.SleepRelease? || (x.pc.SleepMark? && x.lk == PTABLE) then n else n + 1
  }

  /** p is inside the call that it made with st, holding `locks` and with n sleeps so far. */
  ghost predicate Inside(s: State, p: nat, st: Step, locks: iset<LockId>, n: nat) {
    && p < |s.procs| && Calls(st, p)
    && var x := s.procs[p];
       match st
       case CallSleep(_, _, chan, lk) => 
         InSleep(x.pc) && x.lk == lk && x.sleepChan == chan && locks == iset{lk} && Counted(x, n)
       case CallYield(_, _) => InYield(x.pc) && locks == iset{} && x.sleeps == n
       case CallWakeup(_, _, chan) =>
         && InWakeup(x.pc) && !x.pc.WakeReturn? && (x.pc.WakeScan? ==> !x.pc.held) && x.wakeChan == chan &&
              x.sleeps == n
         && PTABLE !in locks && HoldsExactly(s, p, if x.pc.WakeAcquire? then locks else locks + iset{PTABLE})
       case CallWakeup1(_, _, chan) =>
         (x.pc.WakeReturn? || (x.pc.WakeScan? && x.pc.held)) && x.wakeChan == chan && x.sleeps == n &&
         HoldsExactly(s, p, locks)
       case _ => false
  }

  /** p is back in kernel code from that call. */
  ghost predicate Returned(s: State, p: nat, st: Step, locks: iset<LockId>, n: nat) {
    && p < |s.procs| && s.procs[p].pc.Kernel? && HoldsExactly(s, p, locks)
    && s.procs[p].sleeps == if st.CallSleep? then n + 1 else n
  }

  /** Whose step it is. */
  predicate By(st: Step, p: nat) {
    match st
    case SchedLock(_) => false
    case SchedRun(_, _) => false
    case SchedUnlock(_) => false
    case _ => st.p == p
  }

  /** The step of another leaves the program point and the arguments of p alone. */
  lemma OthersStep(s: State, st: Step, p: nat)
    requires Enabled(s, st) && p < |s.procs| && !By(st, p)
    ensures p < |Do(s, st).procs|
    ensures var x, x' := s.procs[p], Do(s, st).procs[p];
              && x'.pc == x.pc && x'.lk == x.lk && x'.sleeps == x.sleeps
              && x'.sleepChan == x.sleepChan && x'.wakeChan == x.wakeChan
  {
    hide OwnerOf, HoldsOnly, HoldsNone;
  }

  /** It leaves the locks of p alone, unless the scheduler hands ptable.lock to p. */
  lemma OthersLocks(s: State, st: Step, p: nat, l: LockId)
    requires Inv(s) && Enabled(s, st) && p < |s.procs| && !By(st, p) && !(st.SchedRun? && st.p == p)
    ensures OwnerOf(Do(s, st), l) == OfProc(p) <==> OwnerOf(s, l) == OfProc(p)
  {
    if st.Go? {
      assert LocksOk(s, st.p) && EntryOk(s.procs[st.p]) && CpuOk(s, st.c);
      var x := s.procs[st.p];
      assert Restricted(x.pc) ==> (OwnerOf(s, l) == OfProc(st.p) <==> Expects(x, l));
      assert Restricted(x.pc) ==> (OwnerOf(s, PTABLE) == OfProc(st.p) <==> Expects(x, PTABLE));
    } else if st.SchedRun? || st.SchedUnlock? {
      assert CpuOk(s, st.c);
    }
  }

  /** Another's step keeps p inside its call. */
  lemma InsideOthers(s: State, st: Step, p: nat, call: Step, locks: iset<LockId>, n: nat)
    requires Inv(s) && Enabled(s, st) && Inside(s, p, call, locks, n) && !By(st, p)
    ensures Inside(Do(s, st), p, call, locks, n)
  {
    OthersStep(s, st, p);
    if call.CallWakeup? || call.CallWakeup1? {
      assert EntryOk(s.procs[p]);
      hide Inv, Do;
      forall l ensures OwnerOf(Do(s, st), l) == OfProc(p) <==> OwnerOf(s, l) == OfProc(p) {
        OthersLocks(s, st, p, l);
      }
    }
  }

  /** Whether a process with entry x holds l after its own next step, if `held` says whether it does before. */
  predicate HeldAfter(x: Proc, l: LockId, held: bool) {
    match x.pc
    case SleepAcquire => l == x.lk || l == PTABLE
    case SleepReacquire => l == x.lk
    case SleepSwitch | SleepUnlock | YieldSwitch | YieldRelease => false
    case WakeAcquire => held || l == PTABLE
    case WakeRelease => held && l != PTABLE
    case Kernel | WakeScan(_, _) | WakeReturn => held
    case _ => l == PTABLE
  }

  lemma OwnLocks(s: State, c: nat, p: nat, l: LockId)
    requires Inv(s) && Enabled(s, Go(c, p))
    ensures OwnerOf(DoGo(s, c, p), l) == OfProc(p) <==> HeldAfter(s.procs[p], l, OwnerOf(s, l) == OfProc(p))
  {
    var x := s.procs[p];
    assert LocksOk(s, p) && CpuOk(s, c);
    assert Restricted(x.pc) ==> (OwnerOf(s, l) == OfProc(p) <==> Expects(x, l));
  }

  /** p's own step keeps it inside or takes it back to kernel code, holding what it held at the call. */
  lemma InsideOwn(s: State, c: nat, p: nat, call: Step, locks: iset<LockId>, n: nat)
    requires Inv(s) && Enabled(s, Go(c, p)) && Inside(s, p, call, locks, n)
    ensures var s' := DoGo(s, c, p);
            Inside(s', p, call, locks, n) || Returned(s', p, call, locks, n)
  {
    hide Inv, OwnerOf;
    var s', x := DoGo(s, c, p), s.procs[p];
    EntryOf(s, p);
    forall l
      ensures OwnerOf(s', l) == OfProc(p) <==> HeldAfter(x, l, OwnerOf(s, l) == OfProc(p))
    {
      OwnLocks(s, c, p, l);
    }
  }

  lemma EntryOf(s: State, p: nat)
    requires Inv(s) && p < |s.procs|
    ensures EntryOk(s.procs[p])
  {
  }

  lemma CallEnters(s: State, st: Step, p: nat, locks: iset<LockId>, n: nat)
    requires Inv(s) && Enabled(s, st) && Calls(st, p) && HoldsExactly(s, p, locks) && s.procs[p].sleeps == n
    ensures Inside(Do(s, st), p, st, locks, n)
  {
    var s' := Do(s, st);
    assert forall l :: OwnerOf(s', l) == OwnerOf(s, l);
    if st.CallSleep? {
      assert locks == iset{st.lk};
    }
    if st.CallYield? {
      assert locks == iset{};
    }
  }

  // Theorems over every run.

  ghost predicate IsRun(ss: seq<State>, steps: seq<Step>)
  {
    && |ss| == |steps| + 1
    && Init(ss[0])
    && forall i :: 0 <= i < |steps| ==> Enabled(ss[i], steps[i]) && ss[i + 1] == Do(ss[i], steps[i])
  }

  lemma {:induction false} RunKeepsInv(ss: seq<State>, steps: seq<Step>, j: nat)
    requires IsRun(ss, steps) && j < |ss|
    ensures Inv(ss[j]) && |ss[j].procs| == |ss[0].procs|
  {
    if j > 0 {
      RunKeepsInv(ss, steps, j - 1);
      StepKeeps(ss[j - 1], steps[j - 1]);
    }
  }

  /** sched() finds ptable.lock held, no other lock held, and the state already changed. */
  lemma SchedNeverPanics(ss: seq<State>, steps: seq<Step>, j: nat, c: nat, p: nat)
    requires IsRun(ss, steps) && j < |ss| && On(ss[j], c, p)
    requires ss[j].procs[p].pc.SleepSwitch? || ss[j].procs[p].pc.YieldSwitch?
    ensures HoldsOnly(ss[j], p, PTABLE) && !ss[j].procs[p].state.RUNNING?
  {
    RunKeepsInv(ss, steps, j);
    var s := ss[j];
    assert EntryOk(s.procs[p]) && LocksOk(s, p);
    assert OwnerOf(s, PTABLE) == OfProc(p) <==> Expects(s.procs[p], PTABLE);
  }

  /** From state j + 1 up to state k, and not in k, process p is away from kernel code. */
  ghost predicate Away(ss: seq<State>, p: nat, j: nat, k: nat)
    requires j < k < |ss|
  {
    forall m :: j < m < k ==> p < |ss[m].procs| && !ss[m].procs[p].pc.Kernel?
  }

  lemma {:induction false} StaysInside(ss: seq<State>, steps: seq<Step>, p: nat, j: nat, k: nat, locks: iset<LockId>,
      n: nat)
    requires IsRun(ss, steps) && j < k < |ss| && Calls(steps[j], p) && Away(ss, p, j, k)
    requires p < |ss[j].procs| && HoldsExactly(ss[j], p, locks) && ss[j].procs[p].sleeps == n
    ensures Inside(ss[k], p, steps[j], locks, n) || Returned(ss[k], p, steps[j], locks, n)
    decreases k
  {
    hide Do, DoGo, Init, Inv, Inside, HoldsExactly, Enabled, EntryOk;
    RunKeepsInv(ss, steps, k - 1);
    if k == j + 1 {
      CallEnters(ss[j], steps[j], p, locks, n);
    } else {
      StaysInside(ss, steps, p, j, k - 1, locks, n);
      assert !ss[k - 1].procs[p].pc.Kernel?;
      if By(steps[k - 1], p) {
        OwnIsGo(ss[k - 1], steps[k - 1], p);
        InsideOwn(ss[k - 1], steps[k - 1].c, p, steps[j], locks, n);
      } else {
        InsideOthers(ss[k - 1], steps[k - 1], p, steps[j], locks, n);
      }
    }
  }

  lemma OwnIsGo(s: State, st: Step, p: nat)
    requires Enabled(s, st) && By(st, p) && p < |s.procs| && !s.procs[p].pc.Kernel?
    ensures st.Go? && st.p == p && On(s, st.c, p) && Do(s, st) == DoGo(s, st.c, p)
  {
  }

  /**
   sleep(), wakeup(), wakeup1() and yield() return with exactly the locks that were held at the call;
   sleep(chan, lk) with lk alone; and the process is on no channel. sleep() returns once the
   sleep has been ended, and each ending is used up by one return.
   */
  lemma ReturnsAsCalled(ss: seq<State>, steps: seq<Step>, p: nat, j: nat, k: nat)
    requires IsRun(ss, steps) && j < k < |ss| && Calls(steps[j], p) && Away(ss, p, j, k)
    requires p < |ss[k].procs| && ss[k].procs[p].pc.Kernel?
    ensures forall l :: OwnerOf(ss[k], l) == OfProc(p) <==> OwnerOf(ss[j], l) == OfProc(p)
    ensures steps[j].CallSleep? ==> HoldsOnly(ss[k], p, steps[j].lk)
    ensures ss[k].procs[p].chan == 0 && ss[k].procs[p].state.RUNNING?
    ensures ss[k].procs[p].woken == ss[j].procs[p].woken + if steps[j].CallSleep? then 1 else 0
  {
    var locks := iset l | OwnerOf(ss[j], l) == OfProc(p);
    StaysInside(ss, steps, p, j, k, locks, ss[j].procs[p].sleeps);
    RunKeepsInv(ss, steps, j);
    RunKeepsInv(ss, steps, k);
    assert EntryOk(ss[k].procs[p]) && EntryOk(ss[j].procs[p]) && Enabled(ss[j], steps[j]);
    hide Do, DoGo, Init, Inv;
  }

  /** A bound on the steps of its own that a process has to take before it is back in kernel code, of n processes. */
  function StepsLeft(pc: Pc, n: nat): (r: nat)
    ensures r == 0 <==> pc.Kernel?
  {
    match pc
    case Kernel => 0
    case SleepAcquire => 7
    case SleepRelease => 6
    case SleepMark => 5
    case SleepSwitch => 4
    case SleepResume => 3
    case SleepUnlock => 2
    case SleepReacquire => 1
    case WakeAcquire => n + 3
    case WakeScan(i, _) => if i <= n then n - i + 2 else 2
    case WakeRelease => 1
    case WakeReturn => 1
    case YieldAcquire => 4
    case YieldMark => 3
    case YieldSwitch => 2
    case YieldRelease => 1
  }

  lemma ScanAdvances(s: State, c: nat, p: nat)
    requires On(s, c, p) && s.procs[p].pc.WakeScan?
    ensures var s' := DoGo(s, c, p);
            p < |s'.procs| == |s.procs| &&
            StepsLeft(s'.procs[p].pc, |s.procs|) < StepsLeft(s.procs[p].pc, |s.procs|)
  {
  }

  lemma SleepAdvances(s: State, c: nat, p: nat)
    requires On(s, c, p) && InSleep(s.procs[p].pc)
    ensures var s' := DoGo(s, c, p);
            p < |s'.procs| == |s.procs| &&
            StepsLeft(s'.procs[p].pc, |s.procs|) < StepsLeft(s.procs[p].pc, |s.procs|)
  {
  }

  lemma RestAdvances(s: State, c: nat, p: nat)
    requires On(s, c, p) && !InSleep(s.procs[p].pc) && !s.procs[p].pc.Kernel? && !s.procs[p].pc.WakeScan?
    ensures var s' := DoGo(s, c, p);
            p < |s'.procs| == |s.procs| &&
            StepsLeft(s'.procs[p].pc, |s.procs|) < StepsLeft(s.procs[p].pc, |s.procs|)
  {
  }

  lemma GoAdvances(s: State, c: nat, p: nat)
    requires On(s, c, p) && !s.procs[p].pc.Kernel?
    ensures var s' := DoGo(s, c, p);
            p < |s'.procs| == |s.procs| &&
            StepsLeft(s'.procs[p].pc, |s.procs|) < StepsLeft(s.procs[p].pc, |s.procs|)
  {
    hide DoGo, StepsLeft, InSleep;
    if s.procs[p].pc.WakeScan? {
      ScanAdvances(s, c, p);
    } else if InSleep(s.procs[p].pc) {
      SleepAdvances(s, c, p);
    } else {
      RestAdvances(s, c, p);
    }
  }

  function OwnSteps(steps: seq<Step>, p: nat, j: nat, k: nat): nat
    requires j <= k <= |steps|
  {
    if j == k then 0 else OwnSteps(steps, p, j, k - 1) + if By(steps[k - 1], p) then 1 else 0
  }

  /** No call goes on for ever: sleep() takes at most 7 steps of its own, yield() 4, wakeup() one a slot and 3 more. */
  lemma {:induction false} CallEnds(ss: seq<State>, steps: seq<Step>, p: nat, j: nat, k: nat)
    requires IsRun(ss, steps) && j < k < |ss| && Calls(steps[j], p) && Away(ss, p, j, k)
    ensures p < |ss[k].procs| == |ss[0].procs|
    ensures var first := StepsLeft(ss[j + 1].procs[p].pc, |ss[0].procs|);
            && OwnSteps(steps, p, j + 1, k) + StepsLeft(ss[k].procs[p].pc, |ss[0].procs|) <= first
            && first <= if steps[j].CallSleep? then 7 else if steps[j].CallYield? then 4 else |ss[0].procs| + 3
    decreases k
  {
    hide Do, DoGo, Init, Inv, Enabled, StepsLeft;
    RunKeepsInv(ss, steps, j);
    RunKeepsInv(ss, steps, k - 1);
    RunKeepsInv(ss, steps, k);
    if k == j + 1 {
      CallStarts(ss[j], steps[j], p);
    } else {
      CallEnds(ss, steps, p, j, k - 1);
      assert !ss[k - 1].procs[p].pc.Kernel?;
      if By(steps[k - 1], p) {
        OwnIsGo(ss[k - 1], steps[k - 1], p);
        GoAdvances(ss[k - 1], steps[k - 1].c, p);
      } else {
        OthersStep(ss[k - 1], steps[k - 1], p);
      }
    }
  }

  lemma CallStarts(s: State, st: Step, p: nat)
    requires Enabled(s, st) && Calls(st, p)
    ensures p < |Do(s, st).procs|
    ensures StepsLeft(Do(s, st).procs[p].pc, |s.procs|) <=
            if st.CallSleep? then 7 else if st.CallYield? then 4 else |s.procs| + 3
  {
  }

  /** A sleep is ended by the scan of a wakeup() on its own channel, or by kill(), and by nothing else. */
  lemma EndsOnlyItsChannel(ss: seq<State>, steps: seq<Step>, j: nat, q: nat)
    requires IsRun(ss, steps) && j < |steps| && q < |ss[j].procs| && ss[j].procs[q].state.SLEEPING?
    ensures q < |ss[j + 1].procs|
    ensures var st := steps[j];
            var scanned := st.Go? && ss[j].procs[st.p].pc.WakeScan? && ss[j].procs[st.p].pc.i == q &&
                           ss[j].procs[st.p].wakeChan == ss[j].procs[q].sleepChan;
            ss[j + 1].procs[q].state == if scanned || (st.Kill? && st.victim == q) then RUNNABLE else SLEEPING
  {
    RunKeepsInv(ss, steps, j);
    EndsStep(ss[j], steps[j], q);
  }

  lemma EndsStep(s: State, st: Step, q: nat)
    requires Inv(s) && Enabled(s, st) && q < |s.procs| && s.procs[q].state.SLEEPING?
    ensures q < |Do(s, st).procs|
    ensures var scanned := st.Go? && s.procs[st.p].pc.WakeScan? && s.procs[st.p].pc.i == q &&
                           s.procs[st.p].wakeChan == s.procs[q].sleepChan;
            Do(s, st).procs[q].state == if scanned || (st.Kill? && st.victim == q) then RUNNABLE else SLEEPING
  {
    assert EntryOk(s.procs[q]);
    assert st.Go? ==> CpuOk(s, st.c);
  }

  /** While wakeup() scans, every sleep that has given up its lock is asleep on its channel. */
  lemma ScanFindsSleepers(ss: seq<State>, steps: seq<Step>, j: nat, w: nat, p: nat)
    requires IsRun(ss, steps) && j < |ss| && w < |ss[j].procs| && p < |ss[j].procs|
    requires ss[j].procs[w].pc.WakeScan? && Pending(ss[j].procs[p])
    ensures ss[j].procs[p].state.SLEEPING? && ss[j].procs[p].chan == ss[j].procs[p].sleepChan
  {
    RunKeepsInv(ss, steps, j);
    var s := ss[j];
    assert EntryOk(s.procs[p]) && LocksOk(s, p) && LocksOk(s, w);
    assert Restricted(s.procs[p].pc) ==> (OwnerOf(s, PTABLE) == OfProc(p) <==> Expects(s.procs[p], PTABLE));
  }

  /** Process w is inside one and the same wakeup() from state j + 1 to state k. */
  ghost predicate WithinWakeup(ss: seq<State>, j: nat, k: nat, w: nat)
    requires j < k < |ss|
  {
    forall m :: j < m <= k ==> w < |ss[m].procs| && Waking(ss[m].procs[w])
  }

  lemma {:induction false} DueConstant(ss: seq<State>, steps: seq<Step>, j: nat, k: nat, w: nat)
    requires IsRun(ss, steps) && j < k < |ss| && WithinWakeup(ss, j, k, w)
    ensures ss[k].procs[w].due == ss[j + 1].procs[w].due
  {
    hide Do, DoGo, Init;
    if j + 1 < k {
      DueConstant(ss, steps, j, k - 1, w);
      DueStep(ss[k - 1], steps[k - 1], w);
    }
  }

  lemma DueStep(s: State, st: Step, w: nat)
    requires Enabled(s, st) && w < |s.procs| && Waking(s.procs[w])
    ensures w < |Do(s, st).procs| && Do(s, st).procs[w].due == s.procs[w].due
  {
    hide OwnerOf, HoldsOnly, HoldsNone, DoGo;
    if st.Go? {
      DueGo(s, st.c, st.p, w);
    }
  }

  lemma DueGo(s: State, c: nat, p: nat, w: nat)
    requires On(s, c, p) && w < |s.procs|
    ensures w < |DoGo(s, c, p).procs| && DoGo(s, c, p).procs[w].due == s.procs[w].due
  {
  }

  /**
   No wakeup is lost. If wakeup(chan), or wakeup1(chan) under ptable.lock, is called at step j while
   sleep number n of process p has given up its lock on chan and not been ended, then p has been
   made runnable by the time that wakeup() lets go of ptable.lock or wakeup1() returns.
   */
  lemma NoLostWakeup(ss: seq<State>, steps: seq<Step>, j: nat, k: nat, c: nat, w: nat, chan: ChanId, p: nat)
    requires IsRun(ss, steps) && j < k < |ss|
    requires steps[j] == CallWakeup(c, w, chan) || steps[j] == CallWakeup1(c, w, chan)
    requires WithinWakeup(ss, j, k, w) && (ss[k].procs[w].pc.WakeRelease? || ss[k].procs[w].pc.WakeReturn?)
    requires p < |ss[j].procs| && Pending(ss[j].procs[p]) && ss[j].procs[p].sleepChan == chan
    ensures p < |ss[k].procs| && ss[k].procs[p].woken >= ss[j].procs[p].sleeps
  {
    RunKeepsInv(ss, steps, j);
    RunKeepsInv(ss, steps, k);
    DueConstant(ss, steps, j, k, w);
    assert ss[j + 1] == Do(ss[j], steps[j]);
    assert p in ss[k].procs[w].due;
    assert DueOk(ss[k], w) && DueMet(ss[k].procs[w], ss[k].procs, p);
  }
}
