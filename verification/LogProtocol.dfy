/**
 Every interleaving of begin_op, log_write, end_op, the sector writes of commit, crashes and
 boot-time recovery (log.c). Each step is one critical section or one sector write.
 */
module LogProtocol {
  import opened Sectors
  import opened RedoLog

  type OpId = nat

  /** One modified buffer handed to log_write by a system call. */
  datatype Write = Write(op: OpId, sector: nat, data: Block)

  /** How far the kernel thread in commit() or recover_from_log() has come. */
  datatype Phase =
    | Running
    | WritingLog(k: nat)
    | Installing(k: nat)
    | Finishing
    | Booting
    | Reinstalling(k: nat)

  datatype Panic = NoPanic | TooBigATransaction | OutsideOfTrans | LogCommitting

  /**
   What has happened: the system calls in progress, every write each call has made, the writes
   since the last commit, and the groups whose header write completed.
   */
  datatype History = History(
    ops: set<OpId>,
    performed: map<OpId, seq<Write>>,
    cur: seq<Write>,
    durable: seq<seq<Write>>)

  /** The disk, the cache and log.c's globals; then the history and the sectors each call added to the log. */
  datatype State = State(
    disk: Disk,
    cache: Disk,
    lh: seq<int>,
    outstanding: int,
    committing: bool,
    phase: Phase,
    panic: Panic,
    hist: History,
    spent: map<OpId, nat>)

  datatype Step =
    | BeginOp(op: OpId)
    | LogWrite(op: OpId, sector: nat, data: Block)
    | EndOp(op: OpId)
    | Advance
    | Crash

  /** Sizes and ranges only. */
  ghost predicate Typed(s: State)
  {
    && |s.disk.home| == |s.cache.home|
    && s.disk.head == s.cache.head && s.disk.slots == s.cache.slots
    && |s.lh| <= LOGSIZE && |s.lh| <= |s.disk.slots|
    && ValidLog(s.disk)
    && (forall t :: 0 <= t < |s.lh| ==> 0 <= s.lh[t] < |s.disk.home|)
    && (s.phase.WritingLog? || s.phase.Installing? || s.phase.Reinstalling? ==> s.phase.k <= |s.lh|)
    && s.hist.ops <= s.hist.performed.Keys && s.hist.ops <= s.spent.Keys
  }

  /** A step may be taken. Where the source sleeps, the step is not enabled. */
  ghost predicate Enabled(s: State, st: Step)
  {
    && Typed(s)
    && match st
       case BeginOp(o) =>
         && s.panic.NoPanic? && !s.phase.Booting? && !s.phase.Reinstalling?
         && o !in s.hist.performed
         && !s.committing
         && |s.lh| + (s.outstanding + 1) * MAXOPBLOCKS <= LOGSIZE
       case LogWrite(o, x, _) => s.panic.NoPanic? && o in s.hist.ops && x < |s.disk.home|
       case EndOp(o) => s.panic.NoPanic? && o in s.hist.ops
       case Advance => s.panic.NoPanic? && !s.phase.Running?
       case Crash => true
  }

  /** write_head(): the count and the used entries; the others keep what is on disk. */
  function HeadFor(h: Header, lh: seq<int>): (r: Header)
    requires |lh| <= |h.sector|
    ensures |r.sector| == |h.sector| && r.n == |lh| && r.sector[..|lh|] == lh
  {
    Header(|lh|, lh + h.sector[|lh|..])
  }

  function WithHead(s: State, lh: seq<int>): State
    requires |lh| <= |s.cache.head.sector|
  {
    var h := HeadFor(s.cache.head, lh);
    s.(disk := s.disk.(head := h), cache := s.cache.(head := h))
  }

  function WithHome(s: State, x: nat, b: Block): State
    requires x < |s.disk.home| == |s.cache.home|
  {
    s.(disk := s.disk.(home := s.disk.home[x := b]), cache := s.cache.(home := s.cache.home[x := b]))
  }

  function WithSlot(s: State, t: nat, b: Block): State
    requires t < |s.disk.slots| == |s.cache.slots|
  {
    s.(disk := s.disk.(slots := s.disk.slots[t := b]), cache := s.cache.(slots := s.cache.slots[t := b]))
  }

  function Begin(h: History, o: OpId): History {
    h.(ops := h.ops + {o}, performed := h.performed[o := []])
  }

  function Record(h: History, w: Write): History
    requires w.op in h.performed
  {
    h.(performed := h.performed[w.op := h.performed[w.op] + [w]], cur := h.cur + [w])
  }

  /** The open group becomes durable as a whole. */
  function Commit(h: History): History {
    h.(durable := h.durable + [h.cur], cur := [])
  }

  /** One step of commit() or of recover_from_log(): one sector write, or one change of `log`. */
  ghost function DoAdvance(s: State): State
    requires Typed(s)
  {
    match s.phase
    case Running => s
    case WritingLog(k) =>
      if |s.lh| == 0 then s.(phase := Finishing)
      else if k < |s.lh| then WithSlot(s, k, s.cache.home[s.lh[k]]).(phase := WritingLog(k + 1))
      else WithHead(s, s.lh).(phase := Installing(0), hist := Commit(s.hist))
    case Installing(k) =>
      if k < |s.lh| then WithHome(s, s.lh[k], s.cache.slots[k]).(phase := Installing(k + 1))
      else WithHead(s, []).(lh := [], phase := Finishing)
    case Finishing => s.(committing := false, phase := Running)
    case Booting => s.(lh := s.cache.head.sector[..s.cache.head.n], phase := Reinstalling(0))
    case Reinstalling(k) =>
      if k < |s.lh| then WithHome(s, s.lh[k], s.cache.slots[k]).(phase := Reinstalling(k + 1))
      else WithHead(s, []).(lh := [], phase := Running)
  }

  ghost function DoLogWrite(s: State, o: OpId, x: nat, data: Block): State
    requires Typed(s) && o in s.hist.ops && x < |s.disk.home|
  {
    if |s.lh| >= LOGSIZE || |s.lh| >= |s.disk.slots| then s.(panic := TooBigATransaction)
    else if s.outstanding < 1 then s.(panic := OutsideOfTrans)
    else
      s.(cache := s.cache.(home := s.cache.home[x := data]),
         lh := if x in s.lh then s.lh else s.lh + [x],
         hist := Record(s.hist, Write(o, x, data)),
         spent := if x in s.lh then s.spent else s.spent[o := s.spent[o] + 1])
  }

  ghost function Do(s: State, st: Step): State
    requires Enabled(s, st)
  {
    match st
    case BeginOp(o) =>
      s.(outstanding := s.outstanding + 1, hist := Begin(s.hist, o), spent := s.spent[o := 0])
    case LogWrite(o, x, data) => DoLogWrite(s, o, x, data)
    case EndOp(o) =>
      var s' := s.(outstanding := s.outstanding - 1, hist := s.hist.(ops := s.hist.ops - {o}));
      if s.committing then s'.(panic := LogCommitting)
      else if s'.outstanding == 0 then s'.(committing := true, phase := WritingLog(0))
      else s'
    case Advance => DoAdvance(s)
    case Crash =>
      s.(cache := s.disk, lh := [], outstanding := 0, committing := false, phase := Booting,
         panic := NoPanic, hist := s.hist.(ops := {}, cur := []))
  }

  // What the disk should hold.

  function Front<T>(s: seq<T>): seq<T>
    requires |s| > 0
  {
    s[..|s| - 1]
  }

  ghost function ApplyWrites(home: seq<Block>, ws: seq<Write>): (r: seq<Block>)
    ensures |r| == |home|
  {
    if ws == [] then home
    else
      var r, w := ApplyWrites(home, Front(ws)), ws[|ws| - 1];
      if w.sector < |home| then r[w.sector := w.data] else r
  }

  ghost function ApplyGroups(home: seq<Block>, gs: seq<seq<Write>>): (r: seq<Block>)
    ensures |r| == |home|
  {
    if gs == [] then home else ApplyWrites(ApplyGroups(home, Front(gs)), gs[|gs| - 1])
  }

  /** The writes of one system call within a group. */
  ghost function OpWrites(ws: seq<Write>, o: OpId): seq<Write>
  {
    if ws == [] then []
    else OpWrites(Front(ws), o) + if ws[|ws| - 1].op == o then [ws[|ws| - 1]] else []
  }

  // The invariant.

  ghost predicate Distinct(xs: seq<int>) {
    forall i, j :: 0 <= i < j < |xs| ==> xs[i] != xs[j]
  }

  ghost predicate SlotsHold(s: State, k: nat)
    requires Typed(s) && k <= |s.lh|
  {
    forall t :: 0 <= t < k ==> s.disk.slots[t] == s.cache.home[s.lh[t]]
  }

  ghost predicate HomesHold(s: State, k: nat)
    requires Typed(s) && k <= |s.lh|
  {
    forall t :: 0 <= t < k ==> s.disk.home[s.lh[t]] == s.disk.slots[t]
  }

  ghost predicate HeaderIs(d: Disk, lh: seq<int>)
  {
    d.head.n == |lh| <= |d.head.sector| && d.head.sector[..|lh|] == lh
  }

  /** Contents of disk and cache in each phase; `g` is the result of the durable groups. */
  ghost predicate PhaseInv(s: State, g: seq<Block>)
    requires Typed(s)
  {
    match s.phase
    case Running => s.disk.head.n == 0 && s.disk.home == g && s.cache.home == ApplyWrites(g, s.hist.cur)
    case WritingLog(k) =>
      s.disk.head.n == 0 && s.disk.home == g && s.cache.home == ApplyWrites(g, s.hist.cur) && SlotsHold(s, k)
    case Installing(k) =>
      HeaderIs(s.disk, s.lh) && SlotsHold(s, |s.lh|) && HomesHold(s, k) && s.hist.cur == [] && s.cache.home == g
    case Finishing =>
      s.disk.head.n == 0 && s.disk.home == g && s.cache.home == ApplyWrites(g, s.hist.cur) && s.lh == []
    case Booting => s.lh == [] && s.hist.cur == [] && s.cache == s.disk
    case Reinstalling(k) =>
      s.cache == s.disk && HeaderIs(s.disk, s.lh) && HomesHold(s, k) && s.hist.cur == []
  }

  /** What a group says about one call: nothing, or everything the call ever wrote. */
  ghost predicate AllOrNothing(h: History, g: seq<Write>, o: OpId)
  {
    OpWrites(g, o) != [] ==> o in h.performed && OpWrites(g, o) == h.performed[o]
  }

  /** No system call is ever split over groups. */
  ghost predicate WholeOps(h: History)
  {
    && (forall o :: o in h.ops ==> o in h.performed && OpWrites(h.cur, o) == h.performed[o])
    && (forall o :: AllOrNothing(h, h.cur, o))
    && (forall i, o :: 0 <= i < |h.durable| ==> AllOrNothing(h, h.durable[i], o))
    && (forall i, o :: 0 <= i < |h.durable| && (o in h.ops || OpWrites(h.cur, o) != []) ==>
          OpWrites(h.durable[i], o) == [])
    && (forall i, j, o :: 0 <= i < j < |h.durable| ==>
          OpWrites(h.durable[i], o) == [] || OpWrites(h.durable[j], o) == [])
  }

  ghost predicate Inv(home0: seq<Block>, s: State)
  {
    && Typed(s) && |home0| == |s.disk.home|
    && RecoversTo(s.disk, ApplyGroups(home0, s.hist.durable))
    && Distinct(s.lh) && Distinct(s.disk.head.sector[..s.disk.head.n])
    && AgreeExcept(s.disk.home, s.cache.home, s.lh)
    && (s.committing <==> s.phase.WritingLog? || s.phase.Installing? || s.phase.Finishing?)
    && s.outstanding == |s.hist.ops|
    && (!s.phase.Running? ==> s.hist.ops == {})
    && (s.panic.NoPanic? || s.panic.TooBigATransaction?)
    && PhaseInv(s, ApplyGroups(home0, s.hist.durable))
    && WholeOps(s.hist)
  }

  ghost predicate Init(home0: seq<Block>, s: State)
  {
    && ValidLog(s.disk) && s.disk.head.n == 0 && s.disk.home == home0
    && s == State(s.disk, s.disk, [], 0, false, Running, NoPanic, History({}, map[], [], []), map[])
  }

  // No step splits a system call.

  lemma BeginWhole(h: History, o: OpId)
    requires WholeOps(h) && o !in h.performed
    ensures WholeOps(Begin(h, o))
  {
    var h' := Begin(h, o);
    assert AllOrNothing(h, h.cur, o);
    forall p ensures AllOrNothing(h', h'.cur, p) {
      assert AllOrNothing(h, h.cur, p);
    }
    forall i, p | 0 <= i < |h.durable| ensures AllOrNothing(h', h.durable[i], p) {
      assert AllOrNothing(h, h.durable[i], p);
    }
    forall i | 0 <= i < |h.durable| ensures OpWrites(h.durable[i], o) == [] {
      assert AllOrNothing(h, h.durable[i], o);
    }
  }

  lemma RecordWhole(h: History, w: Write)
    requires WholeOps(h) && w.op in h.ops
    ensures WholeOps(Record(h, w))
  {
    var h' := Record(h, w);
    assert Front(h'.cur) == h.cur;
    forall p ensures AllOrNothing(h', h'.cur, p) {
      assert AllOrNothing(h, h.cur, p);
    }
    forall i, p | 0 <= i < |h.durable| ensures AllOrNothing(h', h.durable[i], p) {
      assert AllOrNothing(h, h.durable[i], p);
    }
  }

  /** end_op takes a call off the list; a crash also forgets the open group. */
  lemma StopWhole(h: History, h': History)
    requires WholeOps(h)
    requires h'.ops <= h.ops && h'.performed == h.performed && h'.durable == h.durable
    requires h'.cur == h.cur || (h'.cur == [] && h'.ops == {})
    ensures WholeOps(h')
  {
    forall p ensures AllOrNothing(h', h'.cur, p) {
      assert AllOrNothing(h, h.cur, p);
    }
    forall i, p | 0 <= i < |h.durable| ensures AllOrNothing(h', h.durable[i], p) {
      assert AllOrNothing(h, h.durable[i], p);
    }
  }

  lemma CommitWhole(h: History)
    requires WholeOps(h) && h.ops == {}
    ensures WholeOps(Commit(h))
  {
    var h' := Commit(h);
    forall i, p | 0 <= i < |h'.durable| ensures AllOrNothing(h', h'.durable[i], p) {
      assert AllOrNothing(h, h'.durable[i], p) by {
        assert i < |h.durable| ==> AllOrNothing(h, h.durable[i], p);
        assert AllOrNothing(h, h.cur, p);
      }
    }
  }

  // One lemma per kind of step.

  lemma BeginOpKeeps(home0: seq<Block>, s: State, o: OpId)
    requires Inv(home0, s) && Enabled(s, BeginOp(o))
    ensures Inv(home0, Do(s, BeginOp(o)))
  {
    var s' := Do(s, BeginOp(o));
    BeginWhole(s.hist, o);
  }

  lemma EndOpKeeps(home0: seq<Block>, s: State, o: OpId)
    requires Inv(home0, s) && Enabled(s, EndOp(o))
    ensures Inv(home0, Do(s, EndOp(o)))
    ensures !s.committing
  {
    var s' := Do(s, EndOp(o));
    assert s'.outstanding == |s'.hist.ops|;
    StopWhole(s.hist, s'.hist);
    assert s'.outstanding == 0 ==> s'.hist.ops == {};
  }

  lemma LogWriteKeeps(home0: seq<Block>, s: State, o: OpId, x: nat, data: Block)
    requires Inv(home0, s) && Enabled(s, LogWrite(o, x, data))
    ensures Inv(home0, Do(s, LogWrite(o, x, data)))
  {
    var w := Write(o, x, data);
    hide WholeOps, RecoversTo, ApplyGroups, ValidLog, OpWrites;
    RecordWhole(s.hist, w);
    assert Front(s.hist.cur + [w]) == s.hist.cur;
    assert s.phase.Running?;
  }

  lemma CrashKeeps(home0: seq<Block>, s: State)
    requires Inv(home0, s)
    ensures Inv(home0, Do(s, Crash))
  {
    StopWhole(s.hist, Do(s, Crash).hist);
    var s' := Do(s, Crash);
  }

  lemma WriteLogKeeps(home0: seq<Block>, s: State)
    requires Inv(home0, s) && s.phase.WritingLog? && s.panic.NoPanic? && s.phase.k < |s.lh|
    ensures Inv(home0, DoAdvance(s))
  {
    var s' := DoAdvance(s);
  }

  /** The commit point: the open group becomes durable as a whole. */
  lemma WriteHeadKeeps(home0: seq<Block>, s: State)
    requires Inv(home0, s) && s.phase.WritingLog? && s.panic.NoPanic? && s.phase.k == |s.lh| > 0
    ensures Inv(home0, DoAdvance(s))
  {
    var s' := DoAdvance(s);
    assert Front(s.hist.durable + [s.hist.cur]) == s.hist.durable;
    assert ApplyGroups(home0, s'.hist.durable) == s.cache.home;
    FullLogRecovers(s'.disk, s'.cache.home);
    CommitWhole(s.hist);
  }

  lemma InstallOne(d: Disk, k: nat)
    requires ValidLog(d) && k < d.head.n && Distinct(d.head.sector[..d.head.n])
    ensures var e := d.(home := d.home[d.head.sector[k] := d.slots[k]]);
            ValidLog(e) && Recovered(e) == Recovered(d)
  {
    var n := d.head.n;
    var e := d.(home := d.home[d.head.sector[k] := d.slots[k]]);
    forall x | 0 <= x < |d.home| ensures Installed(e, n)[x] == Installed(d, n)[x] {
      InstalledAt(d, n, x);
      InstalledAt(e, n, x);
    }
    assert Installed(e, n) == Installed(d, n);
  }

  lemma AllInstalled(d: Disk)
    requires ValidLog(d)
    requires forall t :: 0 <= t < d.head.n ==> d.home[d.head.sector[t]] == d.slots[t]
    ensures Recovered(d).home == d.home
  {
    forall x | 0 <= x < |d.home| ensures Recovered(d).home[x] == d.home[x] {
      InstalledAt(d, d.head.n, x);
    }
  }

  lemma InstallKeeps(home0: seq<Block>, s: State)
    requires Inv(home0, s) && s.panic.NoPanic? && (s.phase.Installing? || s.phase.Reinstalling?)
    requires s.phase.k < |s.lh|
    ensures Inv(home0, DoAdvance(s))
  {
    hide WholeOps, ApplyGroups, ApplyWrites, OpWrites, Installed;
    InstallOne(s.disk, s.phase.k);
    assert s.lh[s.phase.k] == s.disk.head.sector[s.phase.k];
    assert HomesHold(DoAdvance(s), s.phase.k + 1);
  }

  lemma ClearKeeps(home0: seq<Block>, s: State)
    requires Inv(home0, s) && s.panic.NoPanic? && (s.phase.Installing? || s.phase.Reinstalling?)
    requires s.phase.k == |s.lh|
    ensures Inv(home0, DoAdvance(s))
  {
    var s' := DoAdvance(s);
    assert forall t :: 0 <= t < |s.lh| ==> s.lh[t] == s.disk.head.sector[t];
    AllInstalled(s.disk);
    assert s.cache.home == s.disk.home;
  }

  lemma AdvanceKeeps(home0: seq<Block>, s: State)
    requires Inv(home0, s) && Enabled(s, Advance)
    ensures Inv(home0, DoAdvance(s))
  {
    var s' := DoAdvance(s);
    match s.phase
    case WritingLog(k) =>
      if |s.lh| == 0 {
        assert s.cache.home == s.disk.home;
      } else if k < |s.lh| {
        WriteLogKeeps(home0, s);
      } else {
        WriteHeadKeeps(home0, s);
      }
    case Installing(k) => if k < |s.lh| { InstallKeeps(home0, s); } else { ClearKeeps(home0, s); }
    case Reinstalling(k) => if k < |s.lh| { InstallKeeps(home0, s); } else { ClearKeeps(home0, s); }
    case Finishing =>
    case Booting =>
  }

  lemma StepKeeps(home0: seq<Block>, s: State, st: Step)
    requires Inv(home0, s) && Enabled(s, st)
    ensures Inv(home0, Do(s, st))
    ensures s.hist.durable <= Do(s, st).hist.durable
  {
    match st
    case BeginOp(o) => BeginOpKeeps(home0, s, o);
    case LogWrite(o, x, data) => LogWriteKeeps(home0, s, o, x, data);
    case EndOp(o) => EndOpKeeps(home0, s, o);
    case Advance => AdvanceKeeps(home0, s);
    case Crash => CrashKeeps(home0, s);
  }

  // Whole runs.

  ghost predicate IsRun(ss: seq<State>, steps: seq<Step>)
  {
    && |ss| == |steps| + 1
    && forall i :: 0 <= i < |steps| ==> Enabled(ss[i], steps[i]) && ss[i + 1] == Do(ss[i], steps[i])
  }

  /** The step that writes the header of a non-empty transaction. */
  ghost predicate WritesHeader(s: State, st: Step)
  {
    st.Advance? && s.phase.WritingLog? && s.phase.k == |s.lh| > 0
  }

  lemma {:induction false} RunKeepsInv(home0: seq<Block>, ss: seq<State>, steps: seq<Step>, j: nat)
    requires IsRun(ss, steps) && Init(home0, ss[0]) && j < |ss|
    ensures Inv(home0, ss[j])
    ensures forall i :: 0 <= i <= j ==> ss[i].hist.durable <= ss[j].hist.durable
  {
    if j > 0 {
      RunKeepsInv(home0, ss, steps, j - 1);
      StepKeeps(home0, ss[j - 1], steps[j - 1]);
    }
  }

  lemma InvSays(home0: seq<Block>, s: State)
    requires Inv(home0, s)
    ensures RecoversTo(s.disk, ApplyGroups(home0, s.hist.durable)) && WholeOps(s.hist)
    ensures s.committing ==> s.hist.ops == {} && s.outstanding == 0
    ensures !s.panic.LogCommitting? && !s.panic.OutsideOfTrans?
  {
  }

  lemma HeaderCommits(s: State, st: Step)
    requires Enabled(s, st) && WritesHeader(s, st)
    ensures Do(s, st).hist.durable == s.hist.durable + [s.hist.cur]
  {
  }

  // What is in the log, and that commit and recovery come to an end.

  ghost predicate Touched(ws: seq<Write>, x: int) {
    exists i :: 0 <= i < |ws| && ws[i].sector == x
  }

  /** The log lists exactly the sectors written since the last commit, and with no call open there are none. */
  ghost predicate OpenGroup(s: State) {
    && (s.phase.Running? || s.phase.WritingLog? || s.phase.Finishing? ==>
          forall x :: x in s.lh <==> Touched(s.hist.cur, x))
    && (s.phase.Running? && s.outstanding == 0 ==> s.hist.cur == [])
  }

  lemma LogWriteGroup(home0: seq<Block>, s: State, o: OpId, x: nat, data: Block)
    requires Inv(home0, s) && OpenGroup(s) && Enabled(s, LogWrite(o, x, data))
    ensures OpenGroup(DoLogWrite(s, o, x, data))
  {
    hide WholeOps, RecoversTo, ApplyGroups;
    var s' := DoLogWrite(s, o, x, data);
    if s'.panic.NoPanic? {
      var ws, ws' := s.hist.cur, s'.hist.cur;
      assert ws' == ws + [Write(o, x, data)];
      forall y ensures Touched(ws', y) <==> Touched(ws, y) || y == x {
        if i :| 0 <= i < |ws| && ws[i].sector == y {
          assert ws'[i].sector == y;
        }
        assert ws'[|ws|].sector == x;
      }
    }
  }

  lemma EmptyGroup(ws: seq<Write>, lh: seq<int>)
    requires forall x :: x in lh <==> Touched(ws, x)
    ensures lh == [] <==> ws == []
  {
    assert lh == [] || Touched(ws, lh[0]);
    assert ws == [] || Touched(ws, ws[0].sector);
  }

  lemma StepGroup(home0: seq<Block>, s: State, st: Step)
    requires Inv(home0, s) && OpenGroup(s) && Enabled(s, st)
    ensures OpenGroup(Do(s, st))
  {
    hide WholeOps, RecoversTo, ApplyGroups, ApplyWrites;
    if st.LogWrite? {
      LogWriteGroup(home0, s, st.op, st.sector, st.data);
    } else if s.phase.WritingLog? || s.phase.Finishing? {
      EmptyGroup(s.hist.cur, s.lh);
    }
  }

  /** In every state of every run the log lists what has been written since the last commit; idle, it is empty. */
  lemma {:induction false} LogIsOpenGroup(home0: seq<Block>, ss: seq<State>, steps: seq<Step>, j: nat)
    requires IsRun(ss, steps) && Init(home0, ss[0]) && j < |ss|
    ensures OpenGroup(ss[j])
    ensures ss[j].phase.Running? && ss[j].outstanding == 0 ==> ss[j].lh == []
  {
    hide Inv, Do, Enabled;
    if j > 0 {
      LogIsOpenGroup(home0, ss, steps, j - 1);
      RunKeepsInv(home0, ss, steps, j - 1);
      StepGroup(home0, ss[j - 1], steps[j - 1]);
    }
    if ss[j].phase.Running? {
      EmptyGroup(ss[j].hist.cur, ss[j].lh);
    }
  }

  /** Steps that commit() or recover_from_log() still has to take. */
  ghost function StepsLeft(s: State): int
    requires Typed(s)
  {
    match s.phase
    case Running => 0
    case Finishing => 1
    case Installing(k) => |s.lh| - k + 2
    case WritingLog(k) => if s.lh == [] then 2 else 2 * |s.lh| - k + 3
    case Booting => s.cache.head.n + 2
    case Reinstalling(k) => |s.lh| - k + 1
  }

  lemma AdvanceCounts(home0: seq<Block>, s: State)
    requires Inv(home0, s) && s.panic.NoPanic? && !s.phase.Running?
    ensures Enabled(s, Advance) && Typed(Do(s, Advance)) && Do(s, Advance).panic.NoPanic?
    ensures StepsLeft(Do(s, Advance)) == StepsLeft(s) - 1 >= 0
  {
    hide WholeOps, RecoversTo, ApplyGroups, ApplyWrites;
    assert Enabled(s, Advance);
    StepKeeps(home0, s, Advance);
  }

  /** The groups that are durable once a commit in progress is done. */
  ghost function Promised(s: State): seq<seq<Write>> {
    if s.phase.WritingLog? && s.lh != [] then s.hist.durable + [s.hist.cur] else s.hist.durable
  }

  /**
   Left alone, a commit ends after exactly the steps left: the log is empty, the group it was called for
   is durable as a whole, and the disk holds what calls read. The same for recovery.
   */
  lemma {:induction false} Completes(home0: seq<Block>, s: State) returns (ss: seq<State>, steps: seq<Step>)
    requires Inv(home0, s) && OpenGroup(s) && s.panic.NoPanic? && !s.phase.Running?
    ensures IsRun(ss, steps) && ss[0] == s && |steps| == StepsLeft(s)
    ensures forall i :: 0 <= i < |steps| ==> steps[i] == Advance
    ensures var e := ss[|steps|];
            && e.phase.Running? && !e.committing && e.lh == [] && e.hist.cur == []
            && e.hist.durable == Promised(s) && e.disk.head.n == 0
            && e.disk.home == e.cache.home == ApplyGroups(home0, Promised(s))
    decreases StepsLeft(s)
  {
    hide WholeOps, RecoversTo, Do, DoAdvance, Typed, Enabled, Inv;
    AdvanceCounts(home0, s);
    StepKeeps(home0, s, Advance);
    StepGroup(home0, s, Advance);
    var s' := Do(s, Advance);
    AdvancePromise(home0, s);
    if s'.phase.Running? {
      ss, steps := [s, s'], [Advance];
      EndsClean(home0, s, s');
    } else {
      var ss1, steps1 := Completes(home0, s');
      ss, steps := [s] + ss1, [Advance] + steps1;
      forall i | 0 <= i < |steps| ensures Enabled(ss[i], steps[i]) && ss[i + 1] == Do(ss[i], steps[i]) {
        assert i > 0 ==> ss[i] == ss1[i - 1] && steps[i] == steps1[i - 1] && ss[i + 1] == ss1[i];
      }
    }
  }

  lemma AdvancePromise(home0: seq<Block>, s: State)
    requires Inv(home0, s) && OpenGroup(s) && s.panic.NoPanic? && !s.phase.Running?
    ensures Enabled(s, Advance) && Promised(Do(s, Advance)) == Promised(s)
  {
    hide WholeOps, RecoversTo, ApplyGroups, ApplyWrites;
  }

  lemma EndsClean(home0: seq<Block>, s: State, s': State)
    requires Inv(home0, s) && Inv(home0, s') && OpenGroup(s') && !s.phase.Running? && s'.phase.Running?
    requires Enabled(s, Advance) && s' == Do(s, Advance)
    ensures !s'.committing && s'.lh == [] && s'.hist.cur == [] && s'.disk.head.n == 0 && StepsLeft(s) == 1
    ensures s'.disk.home == s'.cache.home == ApplyGroups(home0, s'.hist.durable)
    ensures s'.hist.durable == Promised(s')
  {
    hide WholeOps, RecoversTo, ApplyGroups;
    EmptyGroup(s'.hist.cur, s'.lh);
    assert ApplyWrites(s'.disk.home, []) == s'.disk.home;
  }

  /**
   Crash atomicity over every interleaving: recovery yields exactly the durable groups, a group
   once durable stays durable, each group holds whole system calls, and commits overlap no call.
   */
  lemma CrashAtomicity(home0: seq<Block>, ss: seq<State>, steps: seq<Step>)
    requires IsRun(ss, steps) && Init(home0, ss[0])
    ensures forall i :: 0 <= i < |ss| ==>
                          && RecoversTo(ss[i].disk, ApplyGroups(home0, ss[i].hist.durable))
                          && WholeOps(ss[i].hist)
                          && (ss[i].committing ==> ss[i].hist.ops == {} && ss[i].outstanding == 0)
                          && !ss[i].panic.LogCommitting? && !ss[i].panic.OutsideOfTrans?
    ensures forall i, j :: 0 <= i < j < |ss| && WritesHeader(ss[i], steps[i]) ==>
                             && |ss[i].hist.durable| < |ss[j].hist.durable|
                             && ss[j].hist.durable[|ss[i].hist.durable|] == ss[i].hist.cur
  {
    hide Inv, Init, Do, Enabled, WholeOps, RecoversTo;
    forall i | 0 <= i < |ss|
      ensures && RecoversTo(ss[i].disk, ApplyGroups(home0, ss[i].hist.durable)) && WholeOps(ss[i].hist)
              && (ss[i].committing ==> ss[i].hist.ops == {} && ss[i].outstanding == 0)
              && !ss[i].panic.LogCommitting? && !ss[i].panic.OutsideOfTrans?
    {
      RunKeepsInv(home0, ss, steps, i);
      InvSays(home0, ss[i]);
    }
    forall i, j | 0 <= i < j < |ss| && WritesHeader(ss[i], steps[i])
      ensures |ss[i].hist.durable| < |ss[j].hist.durable|
      ensures ss[j].hist.durable[|ss[i].hist.durable|] == ss[i].hist.cur
    {
      RunKeepsInv(home0, ss, steps, j);
      HeaderCommits(ss[i], steps[i]);
      assert ss[i + 1].hist.durable <= ss[j].hist.durable;
    }
  }

  // Log space.

  /** The part of the reservations that the calls in progress have not used. */
  ghost function Unspent(ops: set<OpId>, spent: map<OpId, nat>): int
    requires ops <= spent.Keys
  {
    if ops == {} then 0
    else
      var o :| o in ops;
      MAXOPBLOCKS - spent[o] + Unspent(ops - {o}, spent)
  }

  lemma {:induction false} UnspentRemove(ops: set<OpId>, spent: map<OpId, nat>, o: OpId)
    requires o in ops && ops <= spent.Keys
    ensures Unspent(ops, spent) == MAXOPBLOCKS - spent[o] + Unspent(ops - {o}, spent)
    decreases ops
  {
    var p :| p in ops && Unspent(ops, spent) == MAXOPBLOCKS - spent[p] + Unspent(ops - {p}, spent);
    if p != o {
      UnspentRemove(ops - {p}, spent, o);
      UnspentRemove(ops - {o}, spent, p);
      assert ops - {p} - {o} == ops - {o} - {p};
    }
  }

  lemma {:induction false} UnspentFrame(ops: set<OpId>, spent: map<OpId, nat>, spent': map<OpId, nat>)
    requires ops <= spent.Keys && ops <= spent'.Keys && forall o :: o in ops ==> spent[o] == spent'[o]
    ensures Unspent(ops, spent) == Unspent(ops, spent')
    decreases ops
  {
    if ops != {} {
      var p :| p in ops && Unspent(ops, spent) == MAXOPBLOCKS - spent[p] + Unspent(ops - {p}, spent);
      UnspentFrame(ops - {p}, spent, spent');
      UnspentRemove(ops, spent', p);
    }
  }

  lemma {:induction false} UnspentBounds(ops: set<OpId>, spent: map<OpId, nat>)
    requires ops <= spent.Keys && forall o :: o in ops ==> spent[o] <= MAXOPBLOCKS
    ensures 0 <= Unspent(ops, spent) <= |ops| * MAXOPBLOCKS
    decreases ops
  {
    if ops != {} {
      var p :| p in ops && Unspent(ops, spent) == MAXOPBLOCKS - spent[p] + Unspent(ops - {p}, spent);
      UnspentBounds(ops - {p}, spent);
    }
  }

  /** No call adds more than `budget` sectors to the log; begin_op counts on MAXOPBLOCKS. */
  ghost predicate Budgeted(s: State, st: Step, budget: nat)
  {
    st.LogWrite? && st.op in s.spent && st.sector !in s.lh ==> s.spent[st.op] < budget
  }

  ghost predicate BudgetedRun(ss: seq<State>, steps: seq<Step>, budget: nat)
  {
    IsRun(ss, steps) && forall i :: 0 <= i < |steps| ==> Budgeted(ss[i], steps[i], budget)
  }

  /** Logged sectors plus unspent reservations fit the log. */
  ghost predicate Reserved(s: State)
  {
    && s.hist.ops <= s.spent.Keys
    && (forall o :: o in s.hist.ops ==> s.spent[o] <= MAXOPBLOCKS)
    && |s.lh| + Unspent(s.hist.ops, s.spent) <= LOGSIZE
  }

  lemma LogWriteReserved(s: State, o: OpId, x: nat, data: Block)
    requires Enabled(s, LogWrite(o, x, data)) && Budgeted(s, LogWrite(o, x, data), MAXOPBLOCKS) && Reserved(s)
    ensures Reserved(DoLogWrite(s, o, x, data))
  {
    var s' := DoLogWrite(s, o, x, data);
    if s'.spent != s.spent {
      UnspentRemove(s.hist.ops, s.spent, o);
      UnspentRemove(s.hist.ops, s'.spent, o);
      UnspentFrame(s.hist.ops - {o}, s.spent, s'.spent);
    }
  }

  lemma BeginOpReserved(s: State, o: OpId)
    requires Enabled(s, BeginOp(o)) && Reserved(s) && s.outstanding == |s.hist.ops|
    ensures Reserved(Do(s, BeginOp(o)))
  {
    var s' := Do(s, BeginOp(o));
    UnspentRemove(s'.hist.ops, s'.spent, o);
    assert s'.hist.ops - {o} == s.hist.ops;
    UnspentFrame(s.hist.ops, s.spent, s'.spent);
    UnspentBounds(s.hist.ops, s.spent);
  }

  lemma StepReserved(s: State, st: Step)
    requires Enabled(s, st) && Budgeted(s, st, MAXOPBLOCKS) && Reserved(s)
    requires s.outstanding == |s.hist.ops| && (!s.phase.Running? ==> s.hist.ops == {})
    ensures Reserved(Do(s, st))
  {
    match st
    case BeginOp(o) => BeginOpReserved(s, o);
    case LogWrite(o, x, data) => LogWriteReserved(s, o, x, data);
    case EndOp(o) => UnspentRemove(s.hist.ops, s.spent, o);
    case Advance => assert Unspent({}, s.spent) == 0;
    case Crash => assert Unspent({}, s.spent) == 0;
  }

  lemma NewSectorFits(s: State, st: Step)
    requires Enabled(s, st) && Budgeted(s, st, MAXOPBLOCKS) && Reserved(s) && st.LogWrite? && st.sector !in s.lh
    ensures |s.lh| < LOGSIZE
  {
    UnspentRemove(s.hist.ops, s.spent, st.op);
    UnspentBounds(s.hist.ops - {st.op}, s.spent);
  }

  /**
   Reservation theorem: under the budget the log never overflows, and with at least LOGSIZE
   slots (nlog > LOGSIZE) only a rewrite of an already logged sector can meet the
   "too big a transaction" test, and only when the log is exactly full.
   */
  lemma {:induction false} ReservationHolds(home0: seq<Block>, ss: seq<State>, steps: seq<Step>, j: nat)
    requires BudgetedRun(ss, steps, MAXOPBLOCKS) && Init(home0, ss[0]) && j < |ss|
    ensures Reserved(ss[j]) && |ss[j].disk.slots| == |ss[0].disk.slots|
    ensures 0 < j && |ss[0].disk.slots| >= LOGSIZE && steps[j - 1].LogWrite? && ss[j].panic.TooBigATransaction? ==>
              steps[j - 1].sector in ss[j - 1].lh && |ss[j - 1].lh| == LOGSIZE
  {
    if j > 0 {
      ReservationHolds(home0, ss, steps, j - 1);
      RunKeepsInv(home0, ss, steps, j - 1);
      StepReserved(ss[j - 1], steps[j - 1]);
      if steps[j - 1].LogWrite? && steps[j - 1].sector !in ss[j - 1].lh {
        NewSectorFits(ss[j - 1], steps[j - 1]);
      }
    }
  }

  // mkfs makes nlog equal to LOGSIZE, which is one sector too few.

  function Upto(k: nat): (r: seq<int>)
    ensures |r| == k && forall i :: 0 <= i < k ==> r[i] == i
  {
    seq(k, i => i)
  }

  /** How many of the first k sectors call o logged, ten sectors to a call. */
  function Share(k: nat, o: nat): nat {
    if k <= o * MAXOPBLOCKS then 0 else if k >= (o + 1) * MAXOPBLOCKS then MAXOPBLOCKS else k - o * MAXOPBLOCKS
  }

  ghost predicate FilledTo(s0: State, s: State, k: nat)
  {
    && Typed(s) && s.panic.NoPanic? && s.phase.Running? && !s.committing && s.outstanding == 3
    && s.disk == s0.disk && s.lh == Upto(k)
    && s.hist.ops == {0, 1, 2}
    && 0 in s.spent && 1 in s.spent && 2 in s.spent
    && s.spent[0] == Share(k, 0) && s.spent[1] == Share(k, 1) && s.spent[2] == Share(k, 2)
  }

  lemma ExtendRun(ss: seq<State>, steps: seq<Step>, st: Step, budget: nat)
    requires BudgetedRun(ss, steps, budget) && Enabled(ss[|steps|], st) && Budgeted(ss[|steps|], st, budget)
    ensures BudgetedRun(ss + [Do(ss[|steps|], st)], steps + [st], budget)
  {
  }

  lemma StartCalls(home0: seq<Block>, s0: State) returns (ss: seq<State>, steps: seq<Step>)
    requires Init(home0, s0)
    ensures BudgetedRun(ss, steps, MAXOPBLOCKS) && ss[0] == s0 && FilledTo(s0, ss[|steps|], 0)
  {
    var s1 := Do(s0, BeginOp(0));
    var s2 := Do(s1, BeginOp(1));
    var s3 := Do(s2, BeginOp(2));
    ss, steps := [s0, s1, s2, s3], [BeginOp(0), BeginOp(1), BeginOp(2)];
  }

  lemma FillOne(s0: State, s: State, k: nat)
    requires FilledTo(s0, s, k) && k < LOGSIZE && k < |s0.disk.home| && k < |s0.disk.slots|
    ensures var st := LogWrite(k / MAXOPBLOCKS, k, []);
            Enabled(s, st) && Budgeted(s, st, MAXOPBLOCKS) && FilledTo(s0, Do(s, st), k + 1)
  {
    assert Upto(k) + [k] == Upto(k + 1);
  }

  /** Three calls that stay within MAXOPBLOCKS each can log k different sectors. */
  lemma {:induction false} FillLog(home0: seq<Block>, s0: State, k: nat)
    returns (ss: seq<State>, steps: seq<Step>)
    requires Init(home0, s0) && |home0| >= LOGSIZE && k <= |s0.disk.slots| && k <= LOGSIZE
    ensures BudgetedRun(ss, steps, MAXOPBLOCKS) && ss[0] == s0 && FilledTo(s0, ss[|steps|], k)
  {
    if k == 0 {
      ss, steps := StartCalls(home0, s0);
    } else {
      ss, steps := FillLog(home0, s0, k - 1);
      var s, st := ss[|steps|], LogWrite((k - 1) / MAXOPBLOCKS, k - 1, []);
      FillOne(s0, s, k - 1);
      ExtendRun(ss, steps, st, MAXOPBLOCKS);
      ss, steps := ss + [Do(s, st)], steps + [st];
    }
  }

  /** With fewer than LOGSIZE slots some budgeted run logs a new sector and panics. */
  lemma SmallLogPanics(home0: seq<Block>, s0: State) returns (ss: seq<State>, steps: seq<Step>)
    requires Init(home0, s0) && |home0| >= LOGSIZE && |s0.disk.slots| < LOGSIZE
    ensures PanicsOnNew(s0, ss, steps, MAXOPBLOCKS)
  {
    var n := |s0.disk.slots|;
    ss, steps := FillLog(home0, s0, n);
    var s := ss[|steps|];
    var st := LogWrite(n / MAXOPBLOCKS, n, []);
    ExtendRun(ss, steps, st, MAXOPBLOCKS);
    ss, steps := ss + [Do(s, st)], steps + [st];
  }

  /** With a full log of the intended size, writing a logged sector once more panics. */
  lemma FullLogPanics(home0: seq<Block>, s0: State) returns (ss: seq<State>, steps: seq<Step>)
    requires Init(home0, s0) && |home0| >= LOGSIZE && |s0.disk.slots| >= LOGSIZE
    ensures BudgetedRun(ss, steps, MAXOPBLOCKS) && ss[0] == s0 && |steps| > 0
    ensures var st, s := steps[|steps| - 1], ss[|steps| - 1];
            st.LogWrite? && st.sector in s.lh && ss[|steps|].panic.TooBigATransaction?
  {
    ss, steps := FillLog(home0, s0, LOGSIZE);
    var s := ss[|steps|];
    var st := LogWrite(0, 0, []);
    assert s.lh[0] == 0;
    ExtendRun(ss, steps, st, MAXOPBLOCKS);
    ss, steps := ss + [Do(s, st)], steps + [st];
  }

  /** One sector more than MAXOPBLOCKS for one call, and a log of the intended size overflows. */
  lemma OverBudgetPanics(home0: seq<Block>, s0: State, budget: nat) returns (ss: seq<State>, steps: seq<Step>)
    requires Init(home0, s0) && |home0| > LOGSIZE && |s0.disk.slots| >= LOGSIZE && budget > MAXOPBLOCKS
    ensures PanicsOnNew(s0, ss, steps, budget)
  {
    ss, steps := FillLog(home0, s0, LOGSIZE);
    var s := ss[|steps|];
    var st := LogWrite(0, LOGSIZE, []);
    WiderBudget(ss, steps, MAXOPBLOCKS, budget);
    ExtendRun(ss, steps, st, budget);
    ss, steps := ss + [Do(s, st)], steps + [st];
  }

  lemma WiderBudget(ss: seq<State>, steps: seq<Step>, b: nat, b': nat)
    requires BudgetedRun(ss, steps, b) && b <= b'
    ensures BudgetedRun(ss, steps, b')
  {
    forall i | 0 <= i < |steps| ensures Budgeted(ss[i], steps[i], b') {
      assert Budgeted(ss[i], steps[i], b);
    }
  }

  /** A run from s0 within the budget whose last step panics on a sector the log does not hold yet. */
  ghost predicate PanicsOnNew(s0: State, ss: seq<State>, steps: seq<Step>, budget: nat)
  {
    && BudgetedRun(ss, steps, budget) && ss[0] == s0 && |steps| > 0
    && steps[|steps| - 1].LogWrite?
    && steps[|steps| - 1].sector !in ss[|steps| - 1].lh
    && ss[|steps|].panic.TooBigATransaction?
  }

  ghost predicate NewSectorCanPanic(s0: State, budget: nat)
  {
    exists ss: seq<State>, steps: seq<Step> :: PanicsOnNew(s0, ss, steps, budget)
  }

  /**
   Calls that add at most `budget` sectors each, MAXOPBLOCKS or more, can run into the panic on a
   new sector if and only if the budget exceeds what begin_op reserves or nlog is at most LOGSIZE.
   */
  lemma ReservationSufficientIff(home0: seq<Block>, s0: State, budget: nat)
    requires Init(home0, s0) && |home0| > LOGSIZE && budget >= MAXOPBLOCKS
    ensures NewSectorCanPanic(s0, budget) <==> budget > MAXOPBLOCKS || |s0.disk.slots| < LOGSIZE
  {
    if |s0.disk.slots| < LOGSIZE {
      var ss, steps := SmallLogPanics(home0, s0);
      WiderBudget(ss, steps, MAXOPBLOCKS, budget);
      assert PanicsOnNew(s0, ss, steps, budget);
    } else if budget > MAXOPBLOCKS {
      var ss, steps := OverBudgetPanics(home0, s0, budget);
    } else {
      forall ss: seq<State>, steps: seq<Step> ensures !PanicsOnNew(s0, ss, steps, budget) {
        if PanicsOnNew(s0, ss, steps, budget) {
          ReservationHolds(home0, ss, steps, |steps|);
        }
      }
    }
  }
}
