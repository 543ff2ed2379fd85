/**
 Interrupts over the sleep and wakeup protocol (spinlock.c, proc.c): pushcli() and popcli() of every lock
 operation, with ncli, intena and the interrupt flag of each CPU. Acquiring counts as one step with its
 pushcli(), releasing as one step with its popcli().
 */
module Interrupts {
  import opened SleepWakeup

  /** cpu->ncli, cpu->intena and the flag FL_IF. */
  datatype Cli = Cli(ncli: int, intena: bool, iflag: bool)

  datatype Machine = Machine(s: State, clis: seq<Cli>)

  /**
   A step of the protocol, or a change of the interrupt flag by other code: sti() in the scheduler, entering
   and leaving the kernel. sched() puts its own intena back after the switch; `restored` is that value.
   */
  datatype Event = Plain(st: Step, restored: bool) | Flag(c: nat, on: bool)

  datatype Kind = Push(c: nat) | Pop(c: nat) | Resume(c: nat) | Quiet

  function GoKind(pc: Pc, c: nat): Kind {
    match pc
    case SleepAcquire => Push(c)
    case SleepReacquire => Push(c)
    case WakeAcquire => Push(c)
    case YieldAcquire => Push(c)
    case SleepRelease => Pop(c)
    case SleepUnlock => Pop(c)
    case WakeRelease => Pop(c)
    case YieldRelease => Pop(c)
    case _ => Quiet
  }

  /** Which steps go through pushcli() and popcli(), and on which CPU. */
  function KindOf(s: State, st: Step): Kind {
    match st
    case Acquire(c, _, _) => Push(c)
    case Release(c, _, _) => Pop(c)
    case SchedLock(c) => Push(c)
    case SchedUnlock(c) => Pop(c)
    case SchedRun(c, _) => Resume(c)
    case Go(c, p) => if p < |s.procs| then GoKind(s.procs[p].pc, c) else Quiet
    case _ => Quiet
  }

  function Pushed(x: Cli): Cli {
    Cli(x.ncli + 1, if x.ncli == 0 then x.iflag else x.intena, false)
  }

  function Popped(x: Cli): Cli {
    Cli(x.ncli - 1, x.intena, x.iflag || (x.ncli == 1 && x.intena))
  }

  function Cpus(clis: seq<Cli>, k: Kind, restored: bool): (r: seq<Cli>)
    ensures |r| == |clis|
  {
    match k
    case Push(c) => if c < |clis| then clis[c := Pushed(clis[c])] else clis
    case Pop(c) => if c < |clis| then clis[c := Popped(clis[c])] else clis
    case Resume(c) => if c < |clis| then clis[c := clis[c].(intena := restored)] else clis
    case Quiet => clis
  }

  ghost predicate Enabled(m: Machine, e: Event) {
    match e
    case Plain(st, _) => SleepWakeup.Enabled(m.s, st)
    case Flag(c, _) => c < |m.clis| && m.clis[c].ncli == 0
  }

  ghost function Do(m: Machine, e: Event): Machine
    requires Enabled(m, e)
  {
    match e
    case Plain(st, restored) => Machine(SleepWakeup.Do(m.s, st), Cpus(m.clis, KindOf(m.s, st), restored))
    case Flag(c, on) => m.(clis := m.clis[c := m.clis[c].(iflag := on)])
  }

  // The invariant.

  /** Who runs on CPU c. */
  function Who(s: State, c: nat): Owner
    requires c < |s.cpus|
  {
    match s.cpus[c]
    case Running(p) => OfProc(p)
    case _ => OfCpu(c)
  }

  ghost function HeldBy(s: State, o: Owner): set<LockId> {
    set l | l in s.locks && s.locks[l] == o
  }

  /** A scheduler holds at most ptable.lock, and that only while it chooses. */
  ghost predicate SchedulerOk(s: State) {
    forall c: nat, l :: OwnerOf(s, l) == OfCpu(c) ==> l == PTABLE && c < |s.cpus| && s.cpus[c].Choosing?
  }

  /** ncli is the number of locks held on the CPU; with any, interrupts are off. */
  ghost predicate CliOk(m: Machine, c: nat)
    requires c < |m.clis| == |m.s.cpus|
  {
    m.clis[c].ncli == |HeldBy(m.s, Who(m.s, c))| && (m.clis[c].ncli > 0 ==> !m.clis[c].iflag)
  }

  ghost predicate CountsOk(m: Machine) {
    |m.clis| == |m.s.cpus| && forall c :: 0 <= c < |m.clis| ==> CliOk(m, c)
  }

  ghost predicate Inv(m: Machine) {
    SleepWakeup.Inv(m.s) && SchedulerOk(m.s) && CountsOk(m)
  }

  ghost predicate Init(m: Machine) {
    SleepWakeup.Init(m.s) && |m.clis| == |m.s.cpus| && forall c :: 0 <= c < |m.clis| ==> m.clis[c].ncli == 0
  }

  lemma Distinct(s: State, c: nat, d: nat)
    requires SleepWakeup.Inv(s) && c < |s.cpus| && d < |s.cpus| && c != d
    ensures Who(s, c) != Who(s, d)
  {
    var i, j := if c < d then c else d, if c < d then d else c;
    assert s.cpus[i].Running? ==> s.cpus[i] != s.cpus[j];
  }

  lemma HeldOne(s: State, o: Owner, l: LockId)
    requires OwnerOf(s, l) == o != Nobody && forall k :: k != l ==> OwnerOf(s, k) != o
    ensures HeldBy(s, o) == {l} && |HeldBy(s, o)| == 1
  {
    forall k | k in s.locks && s.locks[k] == o ensures k == l {
      assert OwnerOf(s, k) == o;
    }
    assert HeldBy(s, o) == {l};
  }

  lemma HeldNone(s: State, o: Owner)
    requires o != Nobody && forall k :: OwnerOf(s, k) != o
    ensures HeldBy(s, o) == {} && |HeldBy(s, o)| == 0
  {
    forall k | k in s.locks ensures s.locks[k] != o {
      assert OwnerOf(s, k) != o;
    }
  }

  /** Only this lock changes hands. */
  ghost predicate Moves(s: State, s': State, l: LockId, o: Owner, o': Owner) {
    OwnerOf(s, l) == o && s'.locks == s.locks[l := o']
  }

  lemma HeldMoves(s: State, s': State, l: LockId, o: Owner, o': Owner, w: Owner)
    requires Moves(s, s', l, o, o') && o != o' && w != Nobody
    ensures HeldBy(s', w) == if w == o' then HeldBy(s, w) + {l} else if w == o then HeldBy(s, w) - {l} else HeldBy(s, w)
    ensures w == o' ==> l !in HeldBy(s, w)
    ensures w == o ==> l in HeldBy(s, w)
  {
  }

  /** Locks taken or given up on CPU c, nobody changing place. */
  lemma TakenOrGiven(m: Machine, s': State, c: nat, l: LockId, push: bool)
    requires Inv(m) && c < |m.s.cpus| && s'.cpus == m.s.cpus
    requires Moves(m.s, s', l, if push then Nobody else Who(m.s, c), if push then Who(m.s, c) else Nobody)
    ensures CountsOk(Machine(s', m.clis[c := if push then Pushed(m.clis[c]) else Popped(m.clis[c])]))
    ensures !push ==> m.clis[c].ncli >= 1 && !m.clis[c].iflag
  {
    var m' := Machine(s', m.clis[c := if push then Pushed(m.clis[c]) else Popped(m.clis[c])]);
    assert CliOk(m, c);
    hide HeldBy, SchedulerOk;
    forall d | 0 <= d < |m.clis| ensures CliOk(m', d) {
      assert CliOk(m, d);
      if d != c {
        Distinct(m.s, c, d);
      }
      HeldMoves(m.s, s', l, if push then Nobody else Who(m.s, c), if push then Who(m.s, c) else Nobody, Who(m.s, d));
    }
    HeldMoves(m.s, s', l, if push then Nobody else Who(m.s, c), if push then Who(m.s, c) else Nobody, Who(m.s, c));
  }

  /** A context switch: ptable.lock goes from one occupant of CPU c to the next, and is the only lock of either. */
  lemma Switched(m: Machine, s': State, c: nat, k: Kind, restored: bool)
    requires Inv(m) && SleepWakeup.Inv(s') && c < |m.s.cpus| == |s'.cpus| && (k == Quiet || k == Resume(c))
    requires forall d :: 0 <= d < |s'.cpus| && d != c ==> s'.cpus[d] == m.s.cpus[d]
    requires Moves(m.s, s', PTABLE, Who(m.s, c), Who(s', c)) && Who(m.s, c) != Who(s', c)
    requires HeldBy(m.s, Who(m.s, c)) == {PTABLE} && HeldBy(m.s, Who(s', c)) == {}
    ensures CountsOk(Machine(s', Cpus(m.clis, k, restored)))
  {
    var m' := Machine(s', Cpus(m.clis, k, restored));
    assert CliOk(m, c) && |{PTABLE}| == 1;
    hide HeldBy, SchedulerOk, SleepWakeup.Inv;
    forall d | 0 <= d < |m.clis| ensures CliOk(m', d) {
      assert CliOk(m, d);
      HeldMoves(m.s, s', PTABLE, Who(m.s, c), Who(s', c), Who(s', d));
      if d != c {
        Distinct(m.s, c, d);
        Distinct(s', c, d);
      }
    }
  }

  lemma NothingMoves(m: Machine, s': State, k: Kind, restored: bool)
    requires CountsOk(m) && s'.cpus == m.s.cpus && s'.locks == m.s.locks && k == Quiet
    ensures CountsOk(Machine(s', Cpus(m.clis, k, restored)))
  {
    forall c | 0 <= c < |m.clis| ensures CliOk(Machine(s', Cpus(m.clis, k, restored)), c) {
      assert CliOk(m, c);
    }
  }

  lemma ScanQuiet(s: State, c: nat, p: nat)
    requires On(s, c, p) && s.procs[p].pc.WakeScan?
    ensures DoGo(s, c, p).cpus == s.cpus && DoGo(s, c, p).locks == s.locks
  {
  }

  /** What a process on its way through sleep(), wakeup() or yield() does to the locks. */
  lemma GoMoves(s: State, c: nat, p: nat)
    requires SleepWakeup.Inv(s) && SleepWakeup.Enabled(s, Go(c, p))
    ensures var s', k := DoGo(s, c, p), GoKind(s.procs[p].pc, c);
            if s.procs[p].pc.SleepSwitch? || s.procs[p].pc.YieldSwitch? then
              && s'.cpus == s.cpus[c := Choosing] && Moves(s, s', PTABLE, OfProc(p), OfCpu(c))
              && HoldsOnly(s, p, PTABLE)
            else
              && s'.cpus == s.cpus
              && (k.Push? ==> exists l :: Moves(s, s', l, Nobody, OfProc(p)))
              && (k.Pop? ==> exists l :: Moves(s, s', l, OfProc(p), Nobody))
              && (k == Quiet ==> s'.locks == s.locks)
  {
    var s', x := DoGo(s, c, p), s.procs[p];
    assert LocksOk(s, p) && EntryOk(x) && CpuOk(s, c);
    hide SleepWakeup.Inv, DueOk, EntryOk;
    if x.pc.WakeScan? {
      ScanQuiet(s, c, p);
    }
    assert Restricted(x.pc) ==> forall l :: OwnerOf(s, l) == OfProc(p) <==> Expects(x, l);
    match x.pc
    case SleepAcquire => assert Moves(s, s', PTABLE, Nobody, OfProc(p));
    case SleepRelease => assert Expects(x, x.lk) && Moves(s, s', x.lk, OfProc(p), Nobody);
    case SleepUnlock => assert Expects(x, PTABLE) && Moves(s, s', PTABLE, OfProc(p), Nobody);
    case SleepReacquire => assert Moves(s, s', x.lk, Nobody, OfProc(p));
    case WakeAcquire => assert Moves(s, s', PTABLE, Nobody, OfProc(p));
    case WakeRelease => assert Moves(s, s', PTABLE, OfProc(p), Nobody);
    case YieldAcquire => assert Moves(s, s', PTABLE, Nobody, OfProc(p));
    case YieldRelease => assert Expects(x, PTABLE) && Moves(s, s', PTABLE, OfProc(p), Nobody);
    case SleepSwitch => assert Expects(x, PTABLE);
    case YieldSwitch => assert Expects(x, PTABLE);
    case _ =>
  }

  lemma GoSchedulers(s: State, c: nat, p: nat)
    requires SleepWakeup.Inv(s) && SchedulerOk(s) && SleepWakeup.Enabled(s, Go(c, p))
    ensures SchedulerOk(DoGo(s, c, p))
  {
    hide SleepWakeup.Inv, DoGo;
    var s' := DoGo(s, c, p);
    GoMoves(s, c, p);
    forall d: nat, l | OwnerOf(s', l) == OfCpu(d) ensures l == PTABLE && d < |s'.cpus| && s'.cpus[d].Choosing? {
      assert OwnerOf(s, l) == OfCpu(d) || (l == PTABLE && d == c && s'.cpus[d].Choosing?);
    }
  }

  /** The schedulers' part of the invariant. */
  lemma SchedulersKept(s: State, st: Step)
    requires SleepWakeup.Inv(s) && SchedulerOk(s) && SleepWakeup.Enabled(s, st)
    ensures SchedulerOk(SleepWakeup.Do(s, st))
  {
    var s' := SleepWakeup.Do(s, st);
    if st.Go? {
      GoSchedulers(s, st.c, st.p);
    } else {
      assert st.SchedRun? || st.SchedUnlock? ==> CpuOk(s, st.c);
      forall d: nat, l | OwnerOf(s', l) == OfCpu(d) ensures l == PTABLE && d < |s'.cpus| && s'.cpus[d].Choosing? {
        assert OwnerOf(s, l) == OfCpu(d) || (st.SchedLock? && l == PTABLE && d == st.c);
        assert (st.SchedRun? || st.SchedUnlock?) && l == PTABLE ==> OwnerOf(s', l) != OfCpu(d);
      }
    }
  }

  lemma GoCounts(m: Machine, c: nat, p: nat, restored: bool)
    requires Inv(m) && SleepWakeup.Enabled(m.s, Go(c, p)) && SleepWakeup.Inv(DoGo(m.s, c, p))
    ensures CountsOk(Machine(DoGo(m.s, c, p), Cpus(m.clis, GoKind(m.s.procs[p].pc, c), restored)))
    ensures GoKind(m.s.procs[p].pc, c).Pop? ==> c < |m.clis| && m.clis[c].ncli >= 1 && !m.clis[c].iflag
  {
    var s, s', k := m.s, DoGo(m.s, c, p), GoKind(m.s.procs[p].pc, c);
    GoMoves(s, c, p);
    hide DoGo, SleepWakeup.Inv, HoldsOnly;
    if s.procs[p].pc.SleepSwitch? || s.procs[p].pc.YieldSwitch? {
      HeldOnly(s, p);
      HeldNone(s, OfCpu(c));
      Switched(m, s', c, k, restored);
    } else if k.Push? {
      var l :| Moves(s, s', l, Nobody, OfProc(p));
      TakenOrGiven(m, s', c, l, true);
    } else if k.Pop? {
      var l :| Moves(s, s', l, OfProc(p), Nobody);
      TakenOrGiven(m, s', c, l, false);
    } else {
      NothingMoves(m, s', k, restored);
    }
  }

  lemma HeldOnly(s: State, p: nat)
    requires HoldsOnly(s, p, PTABLE)
    ensures HeldBy(s, OfProc(p)) == {PTABLE}
  {
    HeldOne(s, OfProc(p), PTABLE);
  }

  lemma ResumeCounts(m: Machine, c: nat, p: nat, restored: bool)
    requires Inv(m) && SleepWakeup.Enabled(m.s, SchedRun(c, p)) && SleepWakeup.Inv(SleepWakeup.Do(m.s, SchedRun(c, p)))
    ensures CountsOk(Machine(SleepWakeup.Do(m.s, SchedRun(c, p)), Cpus(m.clis, Resume(c), restored)))
  {
    var s, s' := m.s, SleepWakeup.Do(m.s, SchedRun(c, p));
    assert CpuOk(s, c) && EntryOk(s.procs[p]) && LocksOk(s, p);
    forall l ensures OwnerOf(s, l) != OfProc(p) {
      assert Restricted(s.procs[p].pc) ==> (OwnerOf(s, l) == OfProc(p) <==> Expects(s.procs[p], l));
      assert Restricted(s.procs[p].pc) ==> (OwnerOf(s, PTABLE) == OfProc(p) <==> Expects(s.procs[p], PTABLE));
    }
    HeldNone(s, OfProc(p));
    HeldOne(s, OfCpu(c), PTABLE);
    hide SleepWakeup.Inv;
    Switched(m, s', c, Resume(c), restored);
  }

  lemma StepCounts(m: Machine, st: Step, restored: bool)
    requires Inv(m) && SleepWakeup.Enabled(m.s, st) && SleepWakeup.Inv(SleepWakeup.Do(m.s, st))
    ensures CountsOk(Do(m, Plain(st, restored)))
    ensures var k := KindOf(m.s, st); k.Pop? ==> k.c < |m.clis| && m.clis[k.c].ncli >= 1 && !m.clis[k.c].iflag
  {
    var s, s', k := m.s, SleepWakeup.Do(m.s, st), KindOf(m.s, st);
    hide HeldBy, DoGo, CountsOk;
    match st
    case Go(c, p) => GoCounts(m, c, p, restored);
    case SchedRun(c, p) => ResumeCounts(m, c, p, restored);
    case Acquire(c, p, l) => TakenOrGiven(m, s', c, l, true);
    case Release(c, p, l) => TakenOrGiven(m, s', c, l, false);
    case SchedUnlock(c) =>
      assert CpuOk(s, c);
      UnlockCounts(m, s', c);
    case SchedLock(c) => LockCounts(m, s', c);
    case _ => NothingMoves(m, s', k, restored);
  }

  /** The scheduler takes ptable.lock; it keeps its CPU. */
  lemma LockCounts(m: Machine, s': State, c: nat)
    requires Inv(m) && c < |m.s.cpus| && m.s.cpus[c].Looking? && OwnerOf(m.s, PTABLE) == Nobody
    requires s' == Lock(m.s.(cpus := m.s.cpus[c := Choosing]), PTABLE, OfCpu(c))
    ensures CountsOk(Machine(s', m.clis[c := Pushed(m.clis[c])]))
  {
    var mid := m.s.(locks := s'.locks);
    TakenOrGiven(m, mid, c, PTABLE, true);
    SamePlaces(Machine(mid, m.clis[c := Pushed(m.clis[c])]), s');
  }

  lemma UnlockCounts(m: Machine, s': State, c: nat)
    requires Inv(m) && c < |m.s.cpus| && m.s.cpus[c].Choosing? && OwnerOf(m.s, PTABLE) == OfCpu(c)
    requires s' == Lock(m.s.(cpus := m.s.cpus[c := Looking]), PTABLE, Nobody)
    ensures CountsOk(Machine(s', m.clis[c := Popped(m.clis[c])])) && m.clis[c].ncli >= 1 && !m.clis[c].iflag
  {
    var mid := m.s.(locks := s'.locks);
    TakenOrGiven(m, mid, c, PTABLE, false);
    SamePlaces(Machine(mid, m.clis[c := Popped(m.clis[c])]), s');
  }

  lemma SamePlaces(m: Machine, s': State)
    requires CountsOk(m) && s'.locks == m.s.locks && |s'.cpus| == |m.s.cpus|
    requires forall c :: 0 <= c < |s'.cpus| ==> Who(s', c) == Who(m.s, c)
    ensures CountsOk(Machine(s', m.clis))
  {
    forall c | 0 <= c < |m.clis| ensures CliOk(Machine(s', m.clis), c) {
      assert CliOk(m, c);
    }
  }

  lemma StepKeepsInv(m: Machine, e: Event)
    requires Inv(m) && Enabled(m, e)
    ensures Inv(Do(m, e))
  {
    hide SleepWakeup.Inv, SchedulerOk, SleepWakeup.Do, SleepWakeup.Enabled;
    match e
    case Plain(st, restored) =>
      SleepWakeup.StepKeeps(m.s, st);
      SchedulersKept(m.s, st);
      StepCounts(m, st, restored);
    case Flag(c, on) =>
      forall d | 0 <= d < |m.clis| ensures CliOk(Do(m, e), d) {
        assert CliOk(m, d);
      }
  }

  // Theorems over every run.

  ghost predicate IsRun(ms: seq<Machine>, es: seq<Event>) {
    && |ms| == |es| + 1 && Init(ms[0])
    && forall i :: 0 <= i < |es| ==> Enabled(ms[i], es[i]) && ms[i + 1] == Do(ms[i], es[i])
  }

  lemma InitInv(m: Machine)
    requires Init(m)
    ensures Inv(m)
  {
    SleepWakeup.RunKeepsInv([m.s], [], 0);
    forall c | 0 <= c < |m.clis| ensures CliOk(m, c) {
      assert HeldBy(m.s, Who(m.s, c)) == {};
    }
  }

  lemma {:induction false} RunKeeps(ms: seq<Machine>, es: seq<Event>, j: nat)
    requires IsRun(ms, es) && j < |ms|
    ensures Inv(ms[j])
  {
    hide Inv, Init, Enabled, Do;
    if j == 0 {
      InitInv(ms[0]);
    } else {
      RunKeeps(ms, es, j - 1);
      StepKeepsInv(ms[j - 1], es[j - 1]);
    }
  }

  /** Interrupts are off on every CPU where a lock is held. */
  lemma LocksMaskInterrupts(ms: seq<Machine>, es: seq<Event>, j: nat, c: nat, l: LockId)
    requires IsRun(ms, es) && j < |ms| && c < |ms[j].s.cpus| && OwnerOf(ms[j].s, l) == Who(ms[j].s, c)
    ensures c < |ms[j].clis| && !ms[j].clis[c].iflag && ms[j].clis[c].ncli > 0
  {
    RunKeeps(ms, es, j);
    var m := ms[j];
    assert CliOk(m, c) && l in HeldBy(m.s, Who(m.s, c));
    assert HeldBy(m.s, Who(m.s, c)) != {};
  }

  /** sched() meets all four of its tests: ptable.lock held, ncli 1, the state changed, interrupts off. */
  lemma SchedTests(ms: seq<Machine>, es: seq<Event>, j: nat, c: nat, p: nat)
    requires IsRun(ms, es) && j < |ms| && On(ms[j].s, c, p)
    requires ms[j].s.procs[p].pc.SleepSwitch? || ms[j].s.procs[p].pc.YieldSwitch?
    ensures OwnerOf(ms[j].s, PTABLE) == OfProc(p) && !ms[j].s.procs[p].state.RUNNING?
    ensures c < |ms[j].clis| && ms[j].clis[c].ncli == 1 && !ms[j].clis[c].iflag
  {
    RunKeeps(ms, es, j);
    var m := ms[j];
    assert EntryOk(m.s.procs[p]) && LocksOk(m.s, p) && CliOk(m, c);
    assert OwnerOf(m.s, PTABLE) == OfProc(p) <==> Expects(m.s.procs[p], PTABLE);
    HeldOnly(m.s, p);
  }

  /** popcli() meets its tests at every release: interrupts off, and a push to undo. */
  lemma PopTests(ms: seq<Machine>, es: seq<Event>, j: nat)
    requires IsRun(ms, es) && j < |es| && es[j].Plain? && KindOf(ms[j].s, es[j].st).Pop?
    ensures var c := KindOf(ms[j].s, es[j].st).c;
            c < |ms[j].clis| && ms[j].clis[c].ncli >= 1 && !ms[j].clis[c].iflag
  {
    hide SleepWakeup.Inv, SchedulerOk, CountsOk, SleepWakeup.Do, SleepWakeup.Enabled, KindOf;
    RunKeeps(ms, es, j);
    SleepWakeup.StepKeeps(ms[j].s, es[j].st);
    StepCounts(ms[j], es[j].st, es[j].restored);
  }

  // The interrupt flag across critical sections.

  datatype Memo = Unknown | Known(on: bool)

  /**
   The machine with the local variable intena of every process's sched(), and with the flag that each
   process found when it last took a first lock.
   */
  datatype Tracked = Tracked(m: Machine, saved: seq<Memo>, found: seq<Memo>)

  /** Process p takes a lock on CPU c where none is held. */
  predicate FirstPush(m: Machine, e: Event, c: nat, p: nat) {
    && e.Plain? && On(m.s, c, p) && KindOf(m.s, e.st) == Push(c)
    && c < |m.clis| && m.clis[c].ncli == 0
  }

  /** Process p gives up the only lock held on CPU c. */
  predicate LastPop(m: Machine, e: Event, c: nat, p: nat) {
    && e.Plain? && On(m.s, c, p) && KindOf(m.s, e.st) == Pop(c)
    && c < |m.clis| && m.clis[c].ncli == 1
  }

  /** Process p goes through swtch() on CPU c. */
  predicate SwitchGo(s: State, st: Step, c: nat, p: nat) {
    st == Go(c, p) && On(s, c, p) && (s.procs[p].pc.SleepSwitch? || s.procs[p].pc.YieldSwitch?)
  }

  predicate SwitchesOut(m: Machine, e: Event, c: nat, p: nat) {
    e.Plain? && c < |m.clis| && SwitchGo(m.s, e.st, c, p)
  }

  /** What sched() puts back is what it saved; a process that runs for the first time puts nothing back. */
  ghost predicate TrackedEnabled(t: Tracked, e: Event) {
    && Enabled(t.m, e) && |t.saved| == |t.found| == |t.m.s.procs|
    && (e.Plain? && e.st.SchedRun? && e.st.c < |t.m.clis| ==>
          e.restored == if t.saved[e.st.p].Known? then t.saved[e.st.p].on else t.m.clis[e.st.c].intena)
  }

  ghost function TrackedDo(t: Tracked, e: Event): Tracked
    requires TrackedEnabled(t, e)
  {
    if e.Flag? then t.(m := Do(t.m, e))
    else
      var c := e.st.c;
      var p := if c < |t.m.s.cpus| && t.m.s.cpus[c].Running? then t.m.s.cpus[c].p else 0;
      Tracked(Do(t.m, e),
              if SwitchesOut(t.m, e, c, p) then t.saved[p := Known(t.m.clis[c].intena)] else t.saved,
              if FirstPush(t.m, e, c, p) then t.found[p := Known(t.m.clis[c].iflag)] else t.found)
  }

  /** The flag that process p found is in intena of its CPU while it holds locks, and in saved while it is off. */
  ghost predicate FlagOk(t: Tracked, p: nat)
    requires |t.saved| == |t.found| && p < |t.found|
  {
    t.found[p].Known? ==>
      && (forall c: nat :: On(t.m.s, c, p) && c < |t.m.clis| && t.m.clis[c].ncli > 0 ==>
                             t.m.clis[c].intena == t.found[p].on)
      && ((forall c: nat :: !On(t.m.s, c, p)) ==> t.saved[p] == t.found[p])
  }

  ghost predicate TrackedInv(t: Tracked) {
    && Inv(t.m) && |t.saved| == |t.found| == |t.m.s.procs|
    && forall p :: 0 <= p < |t.found| ==> FlagOk(t, p)
  }

  /** Where everybody runs after a step. */
  lemma Places(s: State, st: Step, c: nat, p: nat)
    requires SleepWakeup.Inv(s) && SleepWakeup.Enabled(s, st) && c < |s.cpus| && p < |s.procs|
    ensures var s' := SleepWakeup.Do(s, st);
            && |s'.cpus| == |s.cpus| && |s'.procs| == |s.procs|
            && (On(s', c, p) <==>
                st == SchedRun(c, p) || (On(s, c, p) && !SwitchGo(s, st, c, p)))
  {
    if st.Go? {
      assert CpuOk(s, st.c);
    }
  }

  /** A process that the scheduler picks runs nowhere: one on its way out still has ptable.lock. */
  lemma PickedIsOff(s: State, c: nat, p: nat, d: nat)
    requires SleepWakeup.Inv(s) && SleepWakeup.Enabled(s, SchedRun(c, p))
    ensures !On(s, d, p)
  {
    assert CpuOk(s, c) && EntryOk(s.procs[p]) && LocksOk(s, p);
    assert Restricted(s.procs[p].pc) ==> (OwnerOf(s, PTABLE) == OfProc(p) <==> Expects(s.procs[p], PTABLE));
    assert d < |s.cpus| ==> CpuOk(s, d);
  }

  lemma OneCpu(s: State, c: nat, d: nat, p: nat)
    requires SleepWakeup.Inv(s) && On(s, c, p) && On(s, d, p)
    ensures c == d
  {
    if c != d {
      Distinct(s, c, d);
    }
  }

  /** Only the CPU of the step changes. */
  lemma CliAt(m: Machine, e: Event, c: nat)
    requires Enabled(m, e) && c < |m.clis|
    ensures |Do(m, e).clis| == |m.clis|
    ensures e.Plain? && c != e.st.c ==> Do(m, e).clis[c] == m.clis[c]
    ensures e.Plain? && c == e.st.c ==>
              Do(m, e).clis[c] == match KindOf(m.s, e.st)
                                  case Push(_) => Pushed(m.clis[c])
                                  case Pop(_) => Popped(m.clis[c])
                                  case Resume(_) => m.clis[c].(intena := e.restored)
                                  case Quiet => m.clis[c]
  {
    hide SleepWakeup.Enabled, SleepWakeup.Do;
  }

  lemma OutHasLock(m: Machine, c: nat, p: nat, e: Event)
    requires Inv(m) && SwitchesOut(m, e, c, p)
    ensures m.clis[c].ncli > 0
  {
    var s := m.s;
    assert LocksOk(s, p) && CliOk(m, c);
    assert OwnerOf(s, PTABLE) == OfProc(p) <==> Expects(s.procs[p], PTABLE);
    assert PTABLE in HeldBy(s, OfProc(p));
    assert HeldBy(s, OfProc(p)) != {};
  }

  /** p runs on c after the step, and did before. */
  lemma FlagOn(t: Tracked, e: Event, p: nat, c: nat)
    requires TrackedInv(t) && TrackedEnabled(t, e) && e.Plain? && p < |t.found| && c < |t.m.clis|
    requires On(t.m.s, c, p) && TrackedDo(t, e).m.clis[c].ncli > 0 && TrackedDo(t, e).found[p].Known?
    requires e.st != SchedRun(c, p)
    ensures TrackedDo(t, e).m.clis[c].intena == TrackedDo(t, e).found[p].on
  {
    hide SleepWakeup.Inv, SleepWakeup.Enabled, SleepWakeup.Do, Do, KindOf, SchedulerOk, HeldBy;
    CliAt(t.m, e, c);
    assert FlagOk(t, p) && CliOk(t.m, c);
    if e.st.c == c {
      RunKind(t.m.s, e.st, c, p);
    } else if On(t.m.s, e.st.c, p) {
      OneCpu(t.m.s, c, e.st.c, p);
    }
  }

  /** The scheduler does not pick on a CPU where a process runs. */
  lemma RunKind(s: State, st: Step, c: nat, p: nat)
    requires On(s, c, p) && SleepWakeup.Enabled(s, st) && st.c == c
    ensures !KindOf(s, st).Resume? && (KindOf(s, st).Push? ==> KindOf(s, st) == Push(c))
  {
  }

  /** p has just been picked. */
  lemma Picked(t: Tracked, e: Event, c: nat, p: nat)
    requires TrackedInv(t) && TrackedEnabled(t, e) && e.Plain? && e.st == SchedRun(c, p)
    requires p < |t.found| && c < |t.m.clis| && TrackedDo(t, e).found[p].Known?
    ensures TrackedDo(t, e).m.clis[c].intena == TrackedDo(t, e).found[p].on
  {
    hide SleepWakeup.Inv, SleepWakeup.Do, Do, SchedulerOk, HeldBy, Cpus, CliOk;
    assert FlagOk(t, p);
    forall d: nat ensures !On(t.m.s, d, p) {
      PickedIsOff(t.m.s, c, p, d);
    }
    CliAt(t.m, e, c);
  }

  /** p runs nowhere after the step. */
  lemma FlagOff(t: Tracked, e: Event, p: nat)
    requires TrackedInv(t) && TrackedEnabled(t, e) && e.Plain? && p < |t.found|
    requires TrackedDo(t, e).found[p].Known? && forall c: nat :: !On(SleepWakeup.Do(t.m.s, e.st), c, p)
    ensures TrackedDo(t, e).saved[p] == TrackedDo(t, e).found[p]
  {
    hide SleepWakeup.Inv, SleepWakeup.Enabled, SleepWakeup.Do, KindOf, SchedulerOk, HeldBy, Cpus, CliOk;
    assert FlagOk(t, p);
    PlacesAll(t.m, e.st, p);
    if c: nat :| On(t.m.s, c, p) {
      assert SwitchGo(t.m.s, e.st, c, p) && e.st.c == c;
      OutHasLock(t.m, c, p, e);
      SwitchQuiet(t.m.s, e.st, c, p);
    } else {
      assert !On(t.m.s, e.st.c, p);
    }
  }

  lemma SwitchQuiet(s: State, st: Step, c: nat, p: nat)
    requires SwitchGo(s, st, c, p)
    ensures KindOf(s, st) == Quiet
  {
  }

  lemma SameSizes(s: State, st: Step)
    requires SleepWakeup.Enabled(s, st)
    ensures |SleepWakeup.Do(s, st).cpus| == |s.cpus| && |SleepWakeup.Do(s, st).procs| == |s.procs|
  {
  }

  lemma NoCpu(s: State, st: Step, c: nat)
    requires SleepWakeup.Enabled(s, st) && c >= |s.cpus|
    ensures st.c != c && |SleepWakeup.Do(s, st).cpus| == |s.cpus|
  {
  }

  lemma FlagStep(t: Tracked, e: Event, p: nat)
    requires TrackedInv(t) && TrackedEnabled(t, e) && e.Plain? && p < |t.found|
    ensures |TrackedDo(t, e).m.s.procs| == |t.m.s.procs| && FlagOk(TrackedDo(t, e), p)
  {
    hide SleepWakeup.Inv, SleepWakeup.Enabled, SleepWakeup.Do, KindOf, SchedulerOk, HeldBy, Cpus, CliOk;
    var t', st := TrackedDo(t, e), e.st;
    assert FlagOk(t, p);
    SameSizes(t.m.s, st);
    if t'.found[p].Known? {
      PlacesAll(t.m, st, p);
      forall c: nat | On(t'.m.s, c, p) && c < |t'.m.clis| && t'.m.clis[c].ncli > 0
        ensures t'.m.clis[c].intena == t'.found[p].on
      {
        if st == SchedRun(c, p) {
          Picked(t, e, c, p);
        } else {
          FlagOn(t, e, p, c);
        }
      }
      if forall c: nat :: !On(t'.m.s, c, p) {
        FlagOff(t, e, p);
      }
    }
  }

  lemma PlacesAll(m: Machine, st: Step, p: nat)
    requires SleepWakeup.Inv(m.s) && SleepWakeup.Enabled(m.s, st) && p < |m.s.procs|
    ensures var s' := SleepWakeup.Do(m.s, st);
            && |s'.cpus| == |m.s.cpus| && |s'.procs| == |m.s.procs|
            && forall c: nat :: On(s', c, p) <==> st == SchedRun(c, p) || (On(m.s, c, p) && !SwitchGo(m.s, st, c, p))
  {
    hide SleepWakeup.Inv, SleepWakeup.Enabled, SleepWakeup.Do;
    SameSizes(m.s, st);
    forall c: nat
      ensures On(SleepWakeup.Do(m.s, st), c, p) <==>
              st == SchedRun(c, p) || (On(m.s, c, p) && !SwitchGo(m.s, st, c, p))
    {
      if c < |m.s.cpus| {
        Places(m.s, st, c, p);
      } else {
        NoCpu(m.s, st, c);
      }
    }
  }

  lemma TrackedKeeps(t: Tracked, e: Event)
    requires TrackedInv(t) && TrackedEnabled(t, e)
    ensures TrackedInv(TrackedDo(t, e))
  {
    hide Inv, Enabled, FlagOk;
    StepKeepsInv(t.m, e);
    if e.Plain? {
      forall p | 0 <= p < |t.found| ensures |TrackedDo(t, e).m.s.procs| == |t.m.s.procs| && FlagOk(TrackedDo(t, e), p) {
        FlagStep(t, e, p);
      }
      SizesKept(t, e);
    } else {
      forall p | 0 <= p < |t.found| ensures FlagOk(TrackedDo(t, e), p) {
        FlagSet(t, e, p);
      }
    }
  }

  lemma SizesKept(t: Tracked, e: Event)
    requires TrackedEnabled(t, e) && e.Plain?
    ensures |TrackedDo(t, e).m.s.procs| == |t.m.s.procs|
  {
    hide SleepWakeup.Do;
    SameSizes(t.m.s, e.st);
  }

  /** Other code sets the flag only where no lock is held. */
  lemma FlagSet(t: Tracked, e: Event, p: nat)
    requires TrackedInv(t) && TrackedEnabled(t, e) && e.Flag? && p < |t.found|
    ensures FlagOk(TrackedDo(t, e), p)
  {
    hide Inv;
    assert FlagOk(t, p);
  }

  ghost predicate IsTrackedRun(ts: seq<Tracked>, es: seq<Event>) {
    && |ts| == |es| + 1 && Init(ts[0].m) && |ts[0].saved| == |ts[0].found| == |ts[0].m.s.procs|
    && (forall p :: 0 <= p < |ts[0].found| ==> ts[0].saved[p] == ts[0].found[p] == Unknown)
    && forall i :: 0 <= i < |es| ==> TrackedEnabled(ts[i], es[i]) && ts[i + 1] == TrackedDo(ts[i], es[i])
  }

  lemma {:induction false} TrackedRunKeeps(ts: seq<Tracked>, es: seq<Event>, j: nat)
    requires IsTrackedRun(ts, es) && j < |ts|
    ensures TrackedInv(ts[j]) && |ts[j].found| == |ts[0].found|
  {
    hide Inv, Init, TrackedEnabled, TrackedDo;
    if j == 0 {
      InitInv(ts[0].m);
    } else {
      TrackedRunKeeps(ts, es, j - 1);
      TrackedKeeps(ts[j - 1], es[j - 1]);
      FoundLength(ts[j - 1], es[j - 1]);
    }
  }

  lemma FoundLength(t: Tracked, e: Event)
    requires TrackedEnabled(t, e)
    ensures |TrackedDo(t, e).found| == |t.found|
  {
    hide Enabled, Do;
  }

  /** Between steps j and k process p takes no further first lock, on whichever CPU it runs. */
  ghost predicate NoFirstPush(ts: seq<Tracked>, es: seq<Event>, p: nat, j: nat, k: nat)
    requires k <= |es| < |ts|
  {
    forall i, c: nat :: j < i < k ==> !FirstPush(ts[i].m, es[i], c, p)
  }

  lemma {:induction false} FoundStays(ts: seq<Tracked>, es: seq<Event>, j: nat, k: nat, c: nat, p: nat)
    requires IsTrackedRun(ts, es) && j < k <= |es| && p < |ts[j].found|
    requires FirstPush(ts[j].m, es[j], c, p) && NoFirstPush(ts, es, p, j, k)
    ensures p < |ts[k].found| && ts[k].found[p] == Known(ts[j].m.clis[c].iflag)
    decreases k
  {
    hide TrackedEnabled, FirstPush;
    TrackedRunKeeps(ts, es, j);
    TrackedRunKeeps(ts, es, k - 1);
    TrackedRunKeeps(ts, es, k);
    if k == j + 1 {
      FoundFirst(ts[j], es[j], c, p);
    } else {
      FoundStays(ts, es, j, k - 1, c, p);
      var i := k - 1;
      assert forall d: nat :: !FirstPush(ts[i].m, es[i], d, p);
      FoundSame(ts[i], es[i], p);
    }
  }

  lemma FoundFirst(t: Tracked, e: Event, c: nat, p: nat)
    requires TrackedEnabled(t, e) && FirstPush(t.m, e, c, p)
    ensures p < |TrackedDo(t, e).found| && TrackedDo(t, e).found[p] == Known(t.m.clis[c].iflag)
  {
    hide Do, Cpus;
  }

  lemma FoundSame(t: Tracked, e: Event, p: nat)
    requires TrackedEnabled(t, e) && p < |t.found| && forall c: nat :: !FirstPush(t.m, e, c, p)
    ensures p < |TrackedDo(t, e).found| && TrackedDo(t, e).found[p] == t.found[p]
  {
    hide Do, Cpus, Enabled, KindOf;
  }

  /**
   The release of a process's last lock leaves the interrupt flag as the process found it when it took
   the first, although it may have slept, yielded and changed CPUs in between.
   */
  lemma FlagRestored(ts: seq<Tracked>, es: seq<Event>, j: nat, k: nat, c: nat, d: nat, p: nat)
    requires IsTrackedRun(ts, es) && j < k < |es| && FirstPush(ts[j].m, es[j], c, p)
    requires NoFirstPush(ts, es, p, j, k) && LastPop(ts[k].m, es[k], d, p)
    ensures d < |ts[k + 1].m.clis| && ts[k + 1].m.clis[d].ncli == 0
    ensures ts[k + 1].m.clis[d].iflag == ts[j].m.clis[c].iflag
  {
    hide SleepWakeup.Inv, SleepWakeup.Enabled, SleepWakeup.Do, Init, KindOf, FirstPush, SchedulerOk, HeldBy;
    TrackedRunKeeps(ts, es, j);
    TrackedRunKeeps(ts, es, k);
    FirstPushBy(ts[j].m, es[j], c, p);
    FoundStays(ts, es, j, k, c, p);
    assert FlagOk(ts[k], p) && CliOk(ts[k].m, d);
    assert TrackedEnabled(ts[k], es[k]);
    CliAt(ts[k].m, es[k], d);
    PopCpu(ts[k].m.s, es[k].st, d);
  }

  lemma FirstPushBy(m: Machine, e: Event, c: nat, p: nat)
    requires FirstPush(m, e, c, p)
    ensures c < |m.clis| && p < |m.s.procs|
  {
  }

  lemma PopCpu(s: State, st: Step, c: nat)
    requires KindOf(s, st) == Pop(c)
    ensures st.c == c
  {
  }
}
