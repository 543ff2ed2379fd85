/**
 The physical redo log of log.c: what recovery makes of any disk, and the commit and recovery
 code itself with a ghost trace of every sector write. A crash can fall between any two
 entries of that trace.
 */
module RedoLog {
  import opened Sectors

  /** The header is one that log.c may have written for this disk. */
  ghost predicate ValidLog(d: Disk)
  {
    && |d.head.sector| == LOGSIZE
    && 0 <= d.head.n <= LOGSIZE
    && d.head.n <= |d.slots|
    && forall i :: 0 <= i < d.head.n ==> 0 <= d.head.sector[i] < |d.home|
  }

  /** The home sectors after the first k log slots were copied over them. */
  ghost function Installed(d: Disk, k: nat): (r: seq<Block>)
    requires ValidLog(d) && k <= d.head.n
    ensures |r| == |d.home|
  {
    if k == 0 then d.home
    else Installed(d, k - 1)[d.head.sector[k - 1] := d.slots[k - 1]]
  }

  /** What a full run of recovery leaves. */
  ghost function Recovered(d: Disk): (r: Disk)
    requires ValidLog(d)
    ensures ValidLog(r) && |r.home| == |d.home|
  {
    Disk(Installed(d, d.head.n), d.head.(n := 0), d.slots)
  }

  /** The last of the first k slots naming sector s, or -1. */
  ghost function LastSlot(h: Header, s: int, k: nat): (t: int)
    requires k <= |h.sector|
    ensures -1 <= t < k
    ensures t >= 0 ==> h.sector[t] == s
    ensures t < 0 ==> forall i :: 0 <= i < k ==> h.sector[i] != s
  {
    if k == 0 then -1
    else if h.sector[k - 1] == s then k - 1
    else LastSlot(h, s, k - 1)
  }

  lemma {:induction false} InstalledAt(d: Disk, k: nat, s: nat)
    requires ValidLog(d) && k <= d.head.n && s < |d.home|
    ensures var t := LastSlot(d.head, s, k);
            Installed(d, k)[s] == if t < 0 then d.home[s] else d.slots[t]
  {
    if k > 0 {
      InstalledAt(d, k - 1, s);
    }
  }

  lemma LastSlotMonotone(h: Header, s: int, j: nat, k: nat)
    requires j <= k <= |h.sector|
    ensures LastSlot(h, s, j) <= LastSlot(h, s, k)
  {
  }

  /** Installing again from a half-installed disk gives the fully installed disk. */
  lemma Reinstall(d: Disk, k: nat)
    requires ValidLog(d) && k <= d.head.n
    ensures var e := d.(home := Installed(d, k));
            ValidLog(e) && Recovered(e) == Recovered(d)
  {
    var e, n := d.(home := Installed(d, k)), d.head.n;
    forall s | 0 <= s < |d.home| ensures Installed(e, n)[s] == Installed(d, n)[s] {
      InstalledAt(d, k, s);
      InstalledAt(d, n, s);
      InstalledAt(e, n, s);
      LastSlotMonotone(d.head, s, k, n);
    }
    assert Installed(e, n) == Installed(d, n);
  }

  /** The disks that installing the first k slots goes through. */
  ghost function InstallTrace(d: Disk, k: nat): (r: seq<Disk>)
    requires ValidLog(d) && k <= d.head.n
    ensures |r| == k
    ensures forall i :: 0 <= i < k ==> r[i] == d.(home := Installed(d, i + 1))
  {
    if k == 0 then [] else InstallTrace(d, k - 1) + [d.(home := Installed(d, k))]
  }

  /** A disk that an interrupted (or finished) recovery of `d` can leave behind. */
  ghost predicate CrashPoint(d: Disk, e: Disk)
    requires ValidLog(d)
  {
    e == Recovered(d) || exists k: nat :: k <= d.head.n && e == d.(home := Installed(d, k))
  }

  lemma CrashPointRecovers(d: Disk, e: Disk)
    requires ValidLog(d) && CrashPoint(d, e)
    ensures ValidLog(e) && Recovered(e) == Recovered(d)
  {
    if k: nat :| k <= d.head.n && e == d.(home := Installed(d, k)) {
      Reinstall(d, k);
    }
  }

  /** Each disk of `ds` is what the machine finds after crashing in a recovery of the one before. */
  ghost predicate CrashChain(ds: seq<Disk>)
  {
    && |ds| > 0
    && ValidLog(ds[0])
    && (|ds| > 1 ==> CrashPoint(ds[0], ds[1]) && CrashChain(ds[1..]))
  }

  /** However often recovery is interrupted, finishing it once gives the same disk. */
  lemma {:induction false} RecoveryIgnoresCrashes(ds: seq<Disk>)
    requires CrashChain(ds)
    ensures ValidLog(ds[|ds| - 1])
    ensures Recovered(ds[|ds| - 1]) == Recovered(ds[0])
  {
    if |ds| > 1 {
      CrashPointRecovers(ds[0], ds[1]);
      RecoveryIgnoresCrashes(ds[1..]);
    }
  }

  ghost predicate RecoversTo(d: Disk, home: seq<Block>)
  {
    ValidLog(d) && Recovered(d).home == home
  }

  /** Recovering any of these disks gives the home sectors `home`. */
  ghost predicate AllRecoverTo(ds: seq<Disk>, home: seq<Block>)
  {
    forall i :: 0 <= i < |ds| ==> RecoversTo(ds[i], home)
  }

  lemma InstallRecovers(d: Disk, i: nat)
    requires ValidLog(d) && i < |InstallTrace(d, d.head.n)|
    ensures RecoversTo(InstallTrace(d, d.head.n)[i], Recovered(d).home)
  {
    Reinstall(d, i + 1);
  }

  lemma EndsRecover(d: Disk)
    requires ValidLog(d)
    ensures RecoversTo(d, Recovered(d).home) && RecoversTo(Recovered(d), Recovered(d).home)
  {
  }

  /** From the committing header write `d` to the final clear, every disk recovers alike. */
  lemma CommittedRecover(d: Disk)
    requires ValidLog(d)
    ensures AllRecoverTo([d] + InstallTrace(d, d.head.n) + [Recovered(d)], Recovered(d).home)
  {
    hide Installed, RecoversTo, InstallTrace, Recovered;
    var installs, home := InstallTrace(d, d.head.n), Recovered(d).home;
    forall i | 0 <= i < |installs| ensures RecoversTo(installs[i], home) {
      InstallRecovers(d, i);
    }
    EndsRecover(d);
    assert AllRecoverTo([d] + installs, home);
  }

  /** A disk whose log holds `c`'s version of every changed sector recovers to `c`. */
  lemma FullLogRecovers(d: Disk, c: seq<Block>)
    requires ValidLog(d) && AgreeExcept(d.home, c, d.head.sector[..d.head.n])
    requires forall t :: 0 <= t < d.head.n ==> d.slots[t] == c[d.head.sector[t]]
    ensures RecoversTo(d, c)
  {
    var n := d.head.n;
    forall s | 0 <= s < |c| ensures Installed(d, n)[s] == c[s] {
      InstalledAt(d, n, s);
      var t := LastSlot(d.head, s, n);
      assert t < 0 ==> s !in d.head.sector[..n];
    }
    assert Installed(d, n) == c;
  }

  /**
   The disk states of one commit: those of writing the log, the header write `d`, the
   installation, the clearing. The first recover to the old home sectors, the rest to the new.
   */
  lemma CommitTrace(t0: seq<Disk>, t1: seq<Disk>, d: Disk, before: seq<Block>)
    requires t0 <= t1 && AllRecoverTo(t1[|t0|..], before)
    requires ValidLog(d)
    ensures var t := t1 + [d] + InstallTrace(d, d.head.n) + [Recovered(d)];
            && t0 <= t
            && AllRecoverTo(t[|t0|..|t1|], before)
            && AllRecoverTo(t[|t1|..], Recovered(d).home)
  {
    CommittedRecover(d);
    SplitTrace(t0, t1, [d], InstallTrace(d, d.head.n), [Recovered(d)]);
  }

  lemma SplitTrace<T>(t0: seq<T>, t1: seq<T>, x: seq<T>, y: seq<T>, z: seq<T>)
    requires t0 <= t1
    ensures var t := t1 + x + y + z;
            t0 <= t && t[|t0|..|t1|] == t1[|t0|..] && t[|t1|..] == x + y + z
  {
    assert t1 + x + y + z == t1 + (x + y + z);
  }

  datatype LogWriteResult = Logged | TooBig | OutsideTransaction

  /**
   The global `log` of log.c together with the disk below it. `cache` is what bread() returns
   for each sector; BufferCache shows why that is a function of the sector.
   */
  class Log {
    var disk: Disk
    var cache: Disk
    var n: nat
    var sector: array<int>
    var outstanding: nat
    var committing: bool
    /** Every disk state so far, one entry per sector write. */
    ghost var trace: seq<Disk>

    /** log.lh names existing home sectors, each once, and fits header and slots. */
    ghost predicate Shape()
      reads this, sector
    {
      && sector.Length == LOGSIZE == |disk.head.sector|
      && |cache.home| == |disk.home|
      && cache.head == disk.head && cache.slots == disk.slots
      && n <= LOGSIZE && n <= |disk.slots|
      && (forall t :: 0 <= t < n ==> 0 <= sector[t] < |disk.home|)
    }

    ghost function Pending(): seq<int>
      requires n <= sector.Length
      reads this, sector
    {
      sector[..n]
    }

    /** Between operations: no committed header on disk; cache and disk differ only on pending sectors. */
    ghost predicate Valid()
      reads this, sector
    {
      && Shape()
      && disk.head.n == 0
      && (forall i, j :: 0 <= i < j < n ==> sector[i] != sector[j])
      && AgreeExcept(disk.home, cache.home, Pending())
    }

    /** State right after power-on: nothing cached, the log not yet read. */
    constructor (disk: Disk)
      requires ValidLog(disk)
      ensures Shape() && n == 0 && outstanding == 0 && !committing
      ensures this.disk == disk == cache && trace == [] && fresh(sector)
    {
      this.disk, cache := disk, disk;
      n, outstanding, committing, trace := 0, 0, false, [];
      sector := new int[LOGSIZE];
    }

    /** bwrite() of a home sector, of a log slot, of the header: one disk step each. */
    method BwriteHome(s: nat)
      requires s < |disk.home| == |cache.home|
      modifies this`disk, this`trace
      ensures disk == old(disk).(home := old(disk).home[s := cache.home[s]])
      ensures trace == old(trace) + [disk]
    {
      disk := disk.(home := disk.home[s := cache.home[s]]);
      trace := trace + [disk];
    }

    method BwriteSlot(t: nat)
      requires t < |disk.slots| == |cache.slots|
      modifies this`disk, this`trace
      ensures disk == old(disk).(slots := old(disk).slots[t := cache.slots[t]])
      ensures trace == old(trace) + [disk]
    {
      disk := disk.(slots := disk.slots[t := cache.slots[t]]);
      trace := trace + [disk];
    }

    method BwriteHead()
      modifies this`disk, this`trace
      ensures disk == old(disk).(head := cache.head)
      ensures trace == old(trace) + [disk]
    {
      disk := disk.(head := cache.head);
      trace := trace + [disk];
    }

    method ReadHead()
      requires Shape() && cache == disk && ValidLog(disk)
      modifies this`n, sector
      ensures Shape() && n == disk.head.n
      ensures Pending() == disk.head.sector[..n]
    {
      n := cache.head.n;
      var i := 0;
      while i < n
        invariant 0 <= i <= n == disk.head.n
        invariant sector[..i] == disk.head.sector[..i]
      {
        sector[i] := cache.head.sector[i];
        i := i + 1;
      }
    }

    /** Writes the count and the first n sectors; older entries behind them stay on disk. */
    method WriteHead()
      requires Shape()
      modifies this`cache, this`disk, this`trace
      ensures disk == old(disk).(head := cache.head) && cache == old(cache).(head := cache.head)
      ensures cache.head == Header(n, Pending() + old(cache).head.sector[n..])
      ensures Shape() && trace == old(trace) + [disk]
    {
      cache := cache.(head := cache.head.(n := n));
      var i := 0;
      while i < n
        invariant 0 <= i <= n && disk == old(disk) && trace == old(trace)
        invariant cache == old(cache).(head := Header(n, cache.head.sector)) && |cache.head.sector| == LOGSIZE
        invariant forall t :: 0 <= t < i ==> cache.head.sector[t] == sector[t]
        invariant forall t :: i <= t < LOGSIZE ==> cache.head.sector[t] == old(cache).head.sector[t]
      {
        cache := cache.(head := cache.head.(sector := cache.head.sector[i := sector[i]]));
        i := i + 1;
      }
      assert cache.head.sector == sector[..n] + old(cache).head.sector[n..];
      BwriteHead();
    }

    /** Copies the log slots to their home sectors, one disk step per slot. */
    method InstallTrans()
      requires Shape() && ValidLog(disk) && n == disk.head.n && Pending() == disk.head.sector[..n]
      requires AgreeExcept(disk.home, cache.home, Pending())
      modifies this`cache, this`disk, this`trace
      ensures Shape() && cache == disk == old(disk).(home := Installed(old(disk), n))
      ensures trace == old(trace) + InstallTrace(old(disk), n)
    {
      var tail := 0;
      while tail < n
        invariant 0 <= tail <= n && Shape()
        invariant disk == old(disk).(home := Installed(old(disk), tail))
        invariant AgreeExcept(disk.home, cache.home, sector[tail..n])
        invariant trace == old(trace) + InstallTrace(old(disk), tail)
      {
        assert sector[tail] == old(disk).head.sector[tail] by {
          assert sector[tail] == Pending()[tail];
        }
        cache := cache.(home := cache.home[sector[tail] := cache.slots[tail]]);
        BwriteHome(sector[tail]);
        assert sector[tail..n] == [sector[tail]] + sector[tail + 1..n];
        tail := tail + 1;
      }
      assert cache.home == disk.home;
    }

    /** The shared end of commit() and recover_from_log(): install, then clear the header. */
    method InstallAndClear()
      requires Shape() && ValidLog(disk) && n == disk.head.n && Pending() == disk.head.sector[..n]
      requires AgreeExcept(disk.home, cache.home, Pending())
      modifies this`n, this`cache, this`disk, this`trace
      ensures Valid() && n == 0
      ensures cache == disk == Recovered(old(disk))
      ensures trace == old(trace) + InstallTrace(old(disk), old(n)) + [disk]
    {
      InstallTrans();
      n := 0;
      WriteHead();
      assert cache.head.sector == old(disk).head.sector;
    }

    /** Boot-time recovery: reaches the recovered disk through crash points only. */
    method RecoverFromLog()
      requires Shape() && cache == disk && ValidLog(disk)
      modifies this`n, this`cache, this`disk, this`trace, sector
      ensures Valid() && n == 0
      ensures cache == disk == Recovered(old(disk))
      ensures old(trace) <= trace
      ensures forall i :: |old(trace)| <= i < |trace| ==> CrashPoint(old(disk), trace[i])
    {
      ReadHead();
      InstallAndClear();
    }

    /** Copies the modified blocks from the cache to the log slots; the header does not count them yet. */
    method WriteLog()
      requires Valid()
      modifies this`cache, this`disk, this`trace
      ensures Valid() && disk == old(disk).(slots := disk.slots) && cache == old(cache).(slots := disk.slots)
      ensures |disk.slots| == |old(disk).slots|
      ensures forall t :: 0 <= t < n ==> disk.slots[t] == cache.home[sector[t]]
      ensures |trace| == |old(trace)| + n && old(trace) <= trace
      ensures AllRecoverTo(trace[|old(trace)|..], old(disk).home)
    {
      var tail := 0;
      while tail < n
        invariant 0 <= tail <= n && |disk.slots| == |old(disk).slots|
        invariant disk == old(disk).(slots := disk.slots) && cache == old(cache).(slots := disk.slots)
        invariant forall t :: 0 <= t < tail ==> disk.slots[t] == cache.home[sector[t]]
        invariant |trace| == |old(trace)| + tail && old(trace) <= trace
        invariant forall i :: |old(trace)| <= i < |trace| ==> RecoversTo(trace[i], old(disk).home)
      {
        cache := cache.(slots := cache.slots[tail := cache.home[sector[tail]]]);
        BwriteSlot(tail);
        tail := tail + 1;
      }
    }

    /**
     commit(): for every crash point, recovery restores the home sectors of the transaction's
     start or its end, never a mixture. The change of side is the header write, entry n of the
     new part of the trace.
     */
    method Commit()
      requires Valid()
      modifies this`n, this`cache, this`disk, this`trace
      ensures Valid() && n == 0 && disk == cache && disk.home == old(cache).home
      ensures old(trace) <= trace
      ensures old(n) > 0 ==>
                |trace| == |old(trace)| + 2 * old(n) + 2 &&
                AllRecoverTo(trace[|old(trace)|..|old(trace)| + old(n)], old(disk).home) &&
                AllRecoverTo(trace[|old(trace)| + old(n)..], old(cache).home)
      ensures old(n) == 0 ==> trace == old(trace) && disk == old(disk)
    {
      hide Installed, RecoversTo, AllRecoverTo, InstallTrace;
      if n > 0 {
        WriteLog();
        ghost var t1 := trace;
        WriteHead();
        assert disk.head.sector[..n] == Pending();
        FullLogRecovers(disk, cache.home);
        CommitTrace(old(trace), t1, disk, old(disk).home);
        InstallAndClear();
      } else {
        assert disk.home == cache.home;
      }
    }

    /** log_write(): records the sector once, whatever the number of writes to it. */
    method LogWrite(s: nat, data: Block) returns (r: LogWriteResult)
      requires Valid() && s < |disk.home|
      modifies this`n, this`cache, sector
      ensures Valid()
      ensures r == if old(n) >= LOGSIZE || old(n) >= |disk.slots| then TooBig
                   else if outstanding < 1 then OutsideTransaction else Logged
      ensures r == Logged ==>
                cache == old(cache).(home := old(cache).home[s := data]) &&
                Pending() == if s in old(Pending()) then old(Pending()) else old(Pending()) + [s]
      ensures r != Logged ==> Pending() == old(Pending()) && cache == old(cache)
    {
      if n >= LOGSIZE || n >= |disk.slots| {
        return TooBig;
      }
      if outstanding < 1 {
        return OutsideTransaction;
      }
      var i := 0;
      while i < n && sector[i] != s
        invariant 0 <= i <= n
        invariant forall j :: 0 <= j < i ==> sector[j] != s
      {
        i := i + 1;
      }
      ghost var before := Pending();
      assert i < n ==> before[i] == s;
      sector[i] := s;
      if i == n {
        n := n + 1;
        assert Pending() == before + [s];
      } else {
        assert Pending() == before;
      }
      cache := cache.(home := cache.home[s := data]);
      r := Logged;
    }

    /** begin_op(): false where the source would go to sleep. */
    method BeginOp() returns (ok: bool)
      requires Valid()
      modifies this`outstanding
      ensures Valid()
      ensures ok <==> !committing && n + (old(outstanding) + 1) * MAXOPBLOCKS <= LOGSIZE
      ensures outstanding == old(outstanding) + if ok then 1 else 0
    {
      if committing {
        ok := false;
      } else if n + (outstanding + 1) * MAXOPBLOCKS > LOGSIZE {
        ok := false;
      } else {
        outstanding := outstanding + 1;
        ok := true;
      }
    }

    /**
     end_op(): the last operation out commits for the whole group. During a commit the source panics,
     and ok is false.
     */
    method EndOp() returns (ok: bool)
      requires Valid() && outstanding > 0
      modifies this`outstanding, this`committing, this`n, this`cache, this`disk, this`trace
      ensures ok <==> !old(committing)
      ensures Valid() && committing == old(committing) && outstanding == old(outstanding) - 1
      ensures !ok || outstanding > 0 ==> disk == old(disk) && cache == old(cache) && n == old(n) && trace == old(trace)
      ensures ok && outstanding == 0 ==> n == 0 && disk == cache && disk.home == old(cache).home
      ensures old(trace) <= trace
      ensures ok && outstanding == 0 && old(n) > 0 ==>
                |trace| == |old(trace)| + 2 * old(n) + 2 &&
                AllRecoverTo(trace[|old(trace)|..|old(trace)| + old(n)], old(disk).home) &&
                AllRecoverTo(trace[|old(trace)| + old(n)..], old(cache).home)
    {
      outstanding := outstanding - 1;
      if committing {
        return false;
      }
      if outstanding == 0 {
        committing := true;
        Commit();
        committing := false;
      }
      ok := true;
    }
  }
}
