/**
 The buffer cache of bio.c over the in-memory disk of memide.c: a doubly linked ring of
 buffers ordered by last release. The cache and the disk together present one block per
 sector, `View`, which is all that log.c and fs.c ever see.
 */
module BufferCache {
  import opened Sectors

  /** Number of buffers; node NBUF of the ring is bcache.head. */
  const NBUF := MAXOPBLOCKS * 3
  const HEAD := NBUF
  /** The only disk iderw() accepts, and the device number of a buffer never used. */
  const ROOTDEV := 1
  const NODEV := -1

  datatype Buf = Buf(busy: bool, valid: bool, dirty: bool, dev: int, sector: int, data: Block)
  {
    predicate Caches(s: int) {
      dev == ROOTDEV && sector == s
    }

    /** Only disk 1 is cached; an idle buffer holds the sector's contents or a logged change to it. */
    ghost predicate Ok(disk: seq<Block>) {
      if dev == NODEV then !busy && !dirty
      else
        && dev == ROOTDEV && 0 <= sector < |disk|
        && (!busy ==> valid && (dirty || data == disk[sector]))
    }

    /** bget() may reuse the buffer. */
    predicate Recyclable() {
      !busy && !dirty
    }
  }

  /** A buffer of a machine that has just started. */
  const BLANK := Buf(false, false, false, NODEV, 0, [])

  // What the sector contents are, given buffers and disk.

  /** The first buffer caching sector s, or -1. */
  function Find(bufs: seq<Buf>, s: int): (i: int)
    ensures -1 <= i < |bufs|
    ensures i >= 0 ==> bufs[i].Caches(s)
    ensures i < 0 ==> forall j :: 0 <= j < |bufs| ==> !bufs[j].Caches(s)
    ensures forall j :: 0 <= j < i ==> !bufs[j].Caches(s)
  {
    if |bufs| == 0 then -1
    else
      var i := Find(bufs[..|bufs| - 1], s);
      if i >= 0 then i
      else if bufs[|bufs| - 1].Caches(s) then |bufs| - 1 else -1
  }

  /** Current contents of sector s: the buffer's copy if there is a loaded one, else the disk's. */
  function View(bufs: seq<Buf>, disk: seq<Block>, s: nat): Block
    requires s < |disk|
  {
    var i := Find(bufs, s);
    if i >= 0 && bufs[i].valid then bufs[i].data else disk[s]
  }

  ghost predicate Unique(bufs: seq<Buf>) {
    forall i, j :: 0 <= i < j < |bufs| ==> Apart(bufs[i], bufs[j])
  }

  predicate Apart(x: Buf, y: Buf) {
    x.dev != y.dev || x.dev != ROOTDEV || x.sector != y.sector
  }

  lemma ViewThrough(bufs: seq<Buf>, disk: seq<Block>, i: nat, s: nat)
    requires Unique(bufs) && i < |bufs| && s < |disk| && bufs[i].Caches(s)
    ensures Find(bufs, s) == i
    ensures View(bufs, disk, s) == if bufs[i].valid then bufs[i].data else disk[s]
  {
  }

  /** Replacing one buffer changes the view of the sectors it caches before or after, no others. */
  lemma ViewElsewhere(bufs: seq<Buf>, b: nat, x: Buf, disk: seq<Block>, s: nat)
    requires b < |bufs| && Unique(bufs) && Unique(bufs[b := x]) && s < |disk|
    requires !bufs[b].Caches(s) && !x.Caches(s)
    ensures View(bufs[b := x], disk, s) == View(bufs, disk, s)
  {
    var i := Find(bufs, s);
    if i >= 0 {
      ViewThrough(bufs[b := x], disk, i, s);
    }
  }

  /** Buffers that cache the same sectors are found alike. */
  lemma SameKeys(bufs: seq<Buf>, bufs': seq<Buf>)
    requires |bufs| == |bufs'|
    requires forall i :: 0 <= i < |bufs| ==> bufs[i].dev == bufs'[i].dev && bufs[i].sector == bufs'[i].sector
    ensures Unique(bufs) ==> Unique(bufs')
    ensures forall s :: Find(bufs', s) == Find(bufs, s)
  {
    forall s ensures Find(bufs', s) == Find(bufs, s) {
      var i, j := Find(bufs, s), Find(bufs', s);
      assert i >= 0 ==> bufs'[i].Caches(s);
      assert j >= 0 ==> bufs[j].Caches(s);
    }
  }

  // The ring.

  /** Nodes in ring order, starting at the head, each once. */
  ghost predicate Path(path: seq<int>)
  {
    && |path| > 0 && path[0] == HEAD
    && (forall i :: 0 <= i < |path| ==> 0 <= path[i] <= NBUF)
    && (forall i, j :: 0 <= i < j < |path| ==> path[i] != path[j])
  }

  ghost predicate Complete(path: seq<int>)
  {
    |path| == NBUF + 1 && forall b :: 0 <= b <= NBUF ==> b in path
  }

  ghost function After(path: seq<int>, i: nat): int
    requires i < |path|
  {
    if i + 1 < |path| then path[i + 1] else path[0]
  }

  ghost predicate Link(next: seq<int>, prev: seq<int>, x: int, y: int)
  {
    0 <= x < |next| && 0 <= y < |prev| && next[x] == y && prev[y] == x
  }

  /** `next` and `prev` link the nodes of `path` into one cycle. */
  ghost predicate Links(next: seq<int>, prev: seq<int>, path: seq<int>)
  {
    |next| == |prev| == NBUF + 1 &&
    forall i {:trigger After(path, i)} :: 0 <= i < |path| ==> Link(next, prev, path[i], After(path, i))
  }

  lemma PathDistinct(path: seq<int>, i: nat, j: nat)
    requires Path(path) && i < |path| && j < |path| && i != j
    ensures path[i] != path[j] && After(path, i) != After(path, j)
  {
  }

  function Insert(path: seq<int>, b: int): seq<int>
    requires |path| > 0
  {
    [HEAD, b] + path[1..]
  }

  function Remove(path: seq<int>, k: nat): seq<int>
    requires k < |path|
  {
    path[..k] + path[k + 1..]
  }

  lemma InsertPath(path: seq<int>, b: int)
    requires Path(path) && 0 <= b < NBUF && b !in path
    ensures Path(Insert(path, b)) && |Insert(path, b)| == |path| + 1
  {
  }

  lemma RemovePath(path: seq<int>, k: nat)
    requires Path(path) && 1 <= k < |path|
    ensures Path(Remove(path, k)) && path[k] !in Remove(path, k)
  {
    var r := Remove(path, k);
    forall i | 0 <= i < |r| ensures r[i] == path[if i < k then i else i + 1] != path[k] {
    }
    forall i, j | 0 <= i < j < |r| ensures r[i] != r[j] {
      PathDistinct(path, if i < k then i else i + 1, if j < k then j else j + 1);
    }
  }

  /** b->next = head.next; b->prev = head; head.next->prev = b; head.next = b. */
  lemma InsertLinks(next: seq<int>, prev: seq<int>, path: seq<int>, b: int)
    requires Path(path) && Links(next, prev, path) && 0 <= b < NBUF && b !in path
    ensures 0 <= next[HEAD] <= NBUF
    ensures Links(next[b := next[HEAD]][HEAD := b], prev[b := HEAD][next[HEAD] := b], Insert(path, b))
  {
    var path' := Insert(path, b);
    assert Link(next, prev, path[0], After(path, 0));
    var next', prev' := next[b := next[HEAD]][HEAD := b], prev[b := HEAD][next[HEAD] := b];
    forall i | 0 <= i < |path'| ensures Link(next', prev', path'[i], After(path', i)) {
      if i >= 2 {
        assert path'[i] == path[i - 1] && After(path', i) == After(path, i - 1);
        assert Link(next, prev, path[i - 1], After(path, i - 1));
        PathDistinct(path, 0, i - 1);
      }
    }
  }

  /** b->next->prev = b->prev; b->prev->next = b->next. */
  lemma RemoveLinks(next: seq<int>, prev: seq<int>, path: seq<int>, k: nat)
    requires Path(path) && Links(next, prev, path) && 1 <= k < |path|
    ensures var b := path[k];
            && 0 <= next[b] <= NBUF && 0 <= prev[b] <= NBUF
            && Links(next[prev[b] := next[b]], prev[next[b] := prev[b]], Remove(path, k))
  {
    var b := path[k];
    var a, c := path[k - 1], After(path, k);
    assert Link(next, prev, a, After(path, k - 1));
    assert Link(next, prev, b, c);
    var path' := Remove(path, k);
    forall i | 0 <= i < |path'| ensures Link(next[a := c], prev[c := a], path'[i], After(path', i)) {
      if i != k - 1 {
        var j := if i < k then i else i + 1;
        assert path'[i] == path[j] && After(path', i) == After(path, j);
        assert Link(next, prev, path[j], After(path, j));
        PathDistinct(path, j, k);
        PathDistinct(path, j, k - 1);
      }
    }
  }

  /** Most recently released first. */
  ghost predicate ByRelease(path: seq<int>, stamp: seq<nat>)
  {
    && |path| == NBUF + 1 && |stamp| == NBUF
    && (forall i :: 1 <= i < |path| ==> 0 <= path[i] < NBUF)
    && forall i, j :: 1 <= i < j < |path| ==> stamp[path[i]] > stamp[path[j]]
  }

  /** Moving one node to the front keeps the ring complete and ordered by release time. */
  lemma MovedPath(path: seq<int>, k: nat, stamp: seq<nat>, clock: nat)
    requires Path(path) && Complete(path) && ByRelease(path, stamp) && 1 <= k < |path|
    requires forall b :: 0 <= b < NBUF ==> stamp[b] < clock
    ensures var path' := Insert(Remove(path, k), path[k]);
            Complete(path') && ByRelease(path', stamp[path[k] := clock])
  {
    var b, r := path[k], Remove(path, k);
    var path' := Insert(r, b);
    forall x | 0 <= x <= NBUF ensures x in path' {
      assert x in path;
      var i :| 0 <= i < |path| && path[i] == x;
      assert i == k ==> path'[1] == x;
      assert 1 <= i < k ==> path'[i + 1] == x;
      assert k < i ==> path'[i] == x;
      assert i == 0 ==> path'[0] == x;
    }
    assert forall i :: 2 <= i < |path'| ==> path'[i] == path[if i <= k then i - 1 else i];
  }

  datatype GetResult = Got(b: nat) | MustSleep | NoBuffers

  predicate AnyCaches(bufs: seq<Buf>, sector: nat) {
    exists j :: 0 <= j < |bufs| && bufs[j].Caches(sector)
  }

  predicate AnyBusy(bufs: seq<Buf>, sector: nat) {
    exists j :: 0 <= j < |bufs| && bufs[j].Caches(sector) && bufs[j].busy
  }

  predicate AnyRecyclable(bufs: seq<Buf>) {
    exists j :: 0 <= j < |bufs| && bufs[j].Recyclable()
  }

  /** How bget() ends: asleep over a busy copy, in a panic for want of a buffer, or with one. */
  ghost predicate Fits(bufs: seq<Buf>, sector: nat, r: GetResult) {
    && (r.MustSleep? <==> AnyBusy(bufs, sector))
    && (r.NoBuffers? <==> !AnyCaches(bufs, sector) && !AnyRecyclable(bufs))
  }

  lemma OneCopy(bufs: seq<Buf>, sector: nat, b: nat)
    requires Unique(bufs) && b < |bufs| && bufs[b].Caches(sector)
    ensures AnyCaches(bufs, sector) && (AnyBusy(bufs, sector) <==> bufs[b].busy)
  {
    forall j | 0 <= j < |bufs| && bufs[j].Caches(sector) ensures j == b {
      assert j != b ==> Apart(bufs[j], bufs[b]);
    }
  }

  /** After binit() every buffer is in the ring. */
  lemma WholePath(path: seq<int>)
    requires |path| == NBUF + 1 && path[0] == HEAD && forall i :: 1 <= i <= NBUF ==> path[i] == NBUF - i
    ensures forall x :: 0 <= x <= NBUF ==> x in path
  {
    forall x | 0 <= x <= NBUF ensures x in path {
      assert x == NBUF || path[NBUF - x] == x;
      assert x < NBUF || path[0] == x;
    }
  }

  class Bcache {
    var bufs: array<Buf>
    var next: array<int>
    var prev: array<int>
    /** memdisk. */
    var disk: seq<Block>
    /** The ring from head on, the time of each buffer's last release, and who holds which buffer. */
    ghost var path: seq<int>
    ghost var stamp: seq<nat>
    ghost var clock: nat
    ghost var owner: map<nat, nat>

    /** The ring is a permutation of all buffers in order of last release. */
    ghost predicate RingValid()
      reads this, next, prev
    {
      && next.Length == prev.Length == NBUF + 1 && next != prev
      && Path(path) && Links(next[..], prev[..], path) && Complete(path)
      && ByRelease(path, stamp)
      && (forall b :: 0 <= b < NBUF ==> stamp[b] < clock)
    }

    ghost predicate BufsValid()
      reads this, bufs
    {
      && bufs.Length == NBUF
      && Unique(bufs[..])
      && (forall b :: 0 <= b < NBUF ==> bufs[b].Ok(disk))
      && (forall b :: b in owner <==> 0 <= b < NBUF && bufs[b].busy)
    }

    ghost predicate Valid()
      reads this, bufs, next, prev
    {
      RingValid() && BufsValid()
    }

    /** What the rest of the kernel reads from sector s. */
    ghost function Contents(s: nat): Block
      requires s < |disk|
      reads this, bufs
    {
      View(bufs[..], disk, s)
    }

    /** The four assignments that put a buffer at the front of the ring. */
    method LinkFront(b: nat)
      requires next.Length == prev.Length == NBUF + 1 && next != prev
      requires Path(path) && Links(next[..], prev[..], path) && b < NBUF && b !in path
      modifies next, prev, this`path
      ensures path == Insert(old(path), b)
      ensures Path(path) && Links(next[..], prev[..], path)
    {
      InsertPath(path, b);
      InsertLinks(next[..], prev[..], path, b);
      ghost var n0, p0, first := next[..], prev[..], next[HEAD];
      next[b] := next[HEAD];
      prev[b] := HEAD;
      prev[next[HEAD]] := b;
      next[HEAD] := b;
      assert next[..] == n0[b := first][HEAD := b];
      assert prev[..] == p0[b := HEAD][first := b];
      path := Insert(path, b);
    }

    /** binit() on a machine that has just started: nothing is cached, the view is the disk. */
    constructor (disk: seq<Block>)
      ensures Valid() && fresh(bufs) && fresh(next) && fresh(prev)
      ensures this.disk == disk && owner == map[]
      ensures forall s: nat :: s < |disk| ==> Contents(s) == disk[s]
    {
      this.disk := disk;
      owner, clock := map[], NBUF;
      stamp := seq(NBUF, i => i);
      bufs := new Buf[NBUF](_ => BLANK);
      next := new int[NBUF + 1](_ => HEAD);
      prev := new int[NBUF + 1](_ => HEAD);
      path := [HEAD];
      new;
      var b := 0;
      while b < NBUF
        invariant 0 <= b <= NBUF && |path| == b + 1
        invariant next.Length == prev.Length == NBUF + 1 && next != prev && fresh(next) && fresh(prev)
        invariant Path(path) && Links(next[..], prev[..], path)
        invariant forall i :: 1 <= i <= b ==> path[i] == b - i
        invariant this.disk == disk && owner == map[] && clock == NBUF && stamp == seq(NBUF, i => i)
        invariant bufs.Length == NBUF && fresh(bufs) && forall i :: 0 <= i < NBUF ==> bufs[i] == BLANK
      {
        LinkFront(b);
        b := b + 1;
      }
      WholePath(path);
    }

    /** First loop of bget(): the buffer for (dev, sector), or NBUF. */
    method Lookup(dev: int, sector: int) returns (b: nat)
      requires Valid()
      ensures b <= NBUF
      ensures b < NBUF ==> bufs[b].dev == dev && bufs[b].sector == sector
      ensures b == NBUF ==> forall j :: 0 <= j < NBUF ==> !(bufs[j].dev == dev && bufs[j].sector == sector)
    {
      assert Link(next[..], prev[..], path[0], After(path, 0));
      b := next[HEAD];
      ghost var i := 1;
      while b != HEAD
        invariant 1 <= i <= |path| && b == (if i < |path| then path[i] else HEAD)
        invariant forall j :: 1 <= j < i ==> !(bufs[path[j]].dev == dev && bufs[path[j]].sector == sector)
        decreases |path| - i
      {
        assert b == path[i] && path[i] != path[0];
        if bufs[b].dev == dev && bufs[b].sector == sector {
          return;
        }
        assert Link(next[..], prev[..], path[i], After(path, i));
        b := next[b];
        i := i + 1;
      }
      assert i == |path|;
      forall j | 0 <= j < NBUF ensures !(bufs[j].dev == dev && bufs[j].sector == sector) {
        assert j in path;
      }
    }

    /** Second loop of bget(): the least recently released recyclable buffer, or NBUF. */
    method Victim() returns (b: nat)
      requires Valid()
      ensures b <= NBUF
      ensures b < NBUF ==> bufs[b].Recyclable()
      ensures b < NBUF ==> forall j :: 0 <= j < NBUF && j != b && bufs[j].Recyclable() ==> stamp[b] < stamp[j]
      ensures b == NBUF ==> forall j :: 0 <= j < NBUF ==> !bufs[j].Recyclable()
    {
      assert Link(next[..], prev[..], path[NBUF], After(path, NBUF));
      b := prev[HEAD];
      ghost var i := NBUF;
      while b != HEAD
        invariant 0 <= i <= NBUF && b == path[i]
        invariant forall j :: i < j <= NBUF ==> !bufs[path[j]].Recyclable()
        decreases i
      {
        if bufs[b].Recyclable() {
          forall j | 0 <= j < NBUF && j != b && bufs[j].Recyclable() ensures stamp[b] < stamp[j] {
            assert j in path;
          }
          return;
        }
        assert Link(next[..], prev[..], path[i - 1], After(path, i - 1));
        b := prev[b];
        i := i - 1;
      }
      assert i == 0;
      forall j | 0 <= j < NBUF ensures !bufs[j].Recyclable() {
        assert j in path;
      }
    }

    /**
     bget() of sector `sector` by process `pid`. A cached sector is taken if idle and waited for
     if not; otherwise the least recently released clean idle buffer is recycled, and a dirty one
     never is. Whatever happens, no sector's contents change.
     */
    method Bget(pid: nat, sector: nat) returns (r: GetResult)
      requires Valid() && sector < |disk|
      modifies bufs, this`owner
      ensures RingValid()
      ensures r.Got? ==> r.b < NBUF && r.b !in old(owner) && owner == old(owner)[r.b := pid]
      ensures r.Got? ==> bufs[r.b].busy && bufs[r.b].Caches(sector)
      ensures r.Got? ==> forall j :: 0 <= j < NBUF && j != r.b ==> bufs[j] == old(bufs[j])
      ensures r.Got? && old(bufs[r.b]).Caches(sector) ==> bufs[r.b] == old(bufs[r.b]).(busy := true)
      ensures r.Got? && !old(bufs[r.b]).Caches(sector) ==>
                && !bufs[r.b].valid && !bufs[r.b].dirty && !old(bufs[r.b]).dirty
                && (forall j :: 0 <= j < NBUF ==> !old(bufs[j]).Caches(sector))
                && (forall j :: 0 <= j < NBUF && j != r.b && old(bufs[j]).Recyclable() ==> stamp[r.b] < stamp[j])
      ensures Fits(old(bufs[..]), sector, r)
      ensures !r.Got? ==> bufs[..] == old(bufs[..]) && owner == old(owner)
      ensures BufsValid()
      ensures forall s: nat :: s < |disk| ==> Contents(s) == old(Contents(s))
    {
      var b := Lookup(ROOTDEV, sector);
      if b < NBUF {
        assert bufs[b].Caches(sector);
        OneCopy(bufs[..], sector, b);
        if bufs[b].busy {
          return MustSleep;
        }
        TakeCached(b, pid);
        return Got(b);
      }
      b := Victim();
      assert b < NBUF ==> bufs[..][b].Recyclable();
      if b == NBUF {
        return NoBuffers;
      }
      Recycle(b, pid, sector);
      return Got(b);
    }

    /** The hit case of bget(). */
    method TakeCached(b: nat, pid: nat)
      requires Valid() && b < NBUF && !bufs[b].busy && bufs[b].dev == ROOTDEV
      modifies bufs, this`owner
      ensures bufs[..] == old(bufs[..])[b := old(bufs[b]).(busy := true)]
      ensures owner == old(owner)[b := pid]
      ensures BufsValid()
      ensures forall s: nat :: s < |disk| ==> Contents(s) == old(Contents(s))
    {
      ghost var before := bufs[..];
      bufs[b] := bufs[b].(busy := true);
      owner := owner[b := pid];
      assert bufs[..] == before[b := before[b].(busy := true)];
      SameKeys(before, bufs[..]);
    }

    /** The miss case of bget(): the clean copy that is dropped equals the disk's. */
    method Recycle(b: nat, pid: nat, sector: nat)
      requires Valid() && b < NBUF && bufs[b].Recyclable() && sector < |disk|
      requires forall j :: 0 <= j < NBUF ==> !bufs[j].Caches(sector)
      modifies bufs, this`owner
      ensures bufs[..] == old(bufs[..])[b := Buf(true, false, false, ROOTDEV, sector, old(bufs[b]).data)]
      ensures owner == old(owner)[b := pid]
      ensures BufsValid()
      ensures forall s: nat :: s < |disk| ==> Contents(s) == old(Contents(s))
    {
      ghost var before := bufs[..];
      bufs[b] := Buf(true, false, false, ROOTDEV, sector, bufs[b].data);
      owner := owner[b := pid];
      assert bufs[..] == before[b := bufs[b]];
      assert Unique(bufs[..]);
      forall s: nat | s < |disk| ensures Contents(s) == View(before, disk, s) {
        if s == sector {
          ViewThrough(bufs[..], disk, b, s);
        } else if before[b].Caches(s) {
          ViewThrough(before, disk, b, s);
          assert Find(bufs[..], s) == -1;
        } else {
          ViewElsewhere(before, b, bufs[b], disk, s);
        }
      }
    }

    /**
     iderw() on a held buffer: writes it if dirty, else reads it. "Nothing to do" (valid and
     clean) is a panic in the source, and ok is false.
     */
    method Iderw(b: nat) returns (ok: bool)
      requires Valid() && b in owner
      modifies bufs, this`disk
      ensures ok <==> !old(bufs[b]).valid || old(bufs[b]).dirty
      ensures !ok ==> disk == old(disk) && bufs[..] == old(bufs[..])
      ensures |disk| == |old(disk)| && RingValid()
      ensures disk == if old(bufs[b]).dirty then old(disk)[old(bufs[b]).sector := old(bufs[b]).data] else old(disk)
      ensures bufs[..] == old(bufs[..])[b := bufs[b]]
      ensures ok ==> bufs[b] == old(bufs[b]).(dirty := false, valid := true, data := disk[old(bufs[b]).sector])
      ensures BufsValid()
      ensures old(bufs[b]).valid || !old(bufs[b]).dirty ==>
                forall s: nat :: s < |disk| ==> Contents(s) == old(Contents(s))
    {
      ghost var before, d0 := bufs[..], disk;
      if bufs[b].valid && !bufs[b].dirty {
        return false;
      }
      if bufs[b].dirty {
        disk := disk[bufs[b].sector := bufs[b].data];
        bufs[b] := bufs[b].(dirty := false, valid := true);
      } else {
        bufs[b] := bufs[b].(data := disk[bufs[b].sector], valid := true);
      }
      assert bufs[..] == before[b := bufs[b]];
      SameKeys(before, bufs[..]);
      assert before[b].Caches(before[b].sector);
      forall j | 0 <= j < NBUF && j != b ensures bufs[j].Ok(disk) {
        assert before[j].Ok(d0) && Apart(before[j], before[b]);
      }
      forall s: nat | s < |disk| && (before[b].valid || !before[b].dirty)
        ensures Contents(s) == View(before, d0, s)
      {
        if s == before[b].sector {
          ViewThrough(before, d0, b, s);
          ViewThrough(bufs[..], disk, b, s);
        } else {
          ViewElsewhere(before, b, bufs[b], d0, s);
        }
      }
      ok := true;
    }

    /** bread(): a held buffer with the sector's current contents. */
    method Bread(pid: nat, sector: nat) returns (r: GetResult)
      requires Valid() && sector < |disk|
      modifies bufs, this`owner, this`disk
      ensures Valid() && disk == old(disk)
      ensures r.Got? ==> r.b < NBUF && r.b !in old(owner) && owner == old(owner)[r.b := pid]
      ensures r.Got? ==> bufs[r.b].Caches(sector) && bufs[r.b].valid && bufs[r.b].data == Contents(sector)
      ensures Fits(old(bufs[..]), sector, r)
      ensures !r.Got? ==> owner == old(owner) && bufs[..] == old(bufs[..])
      ensures forall s: nat :: s < |disk| ==> Contents(s) == old(Contents(s))
    {
      r := Bget(pid, sector);
      if r.Got? {
        if !bufs[r.b].valid {
          var ok := Iderw(r.b);
        }
        ViewThrough(bufs[..], disk, r.b, sector);
      }
    }

    /** The holder changes the data it was given. */
    method Store(b: nat, data: Block)
      requires Valid() && b in owner && bufs[b].valid
      modifies bufs
      ensures Valid()
      ensures bufs[..] == old(bufs[..])[b := old(bufs[b]).(data := data)]
      ensures forall s: nat :: s < |disk| ==>
                                 Contents(s) == if s == old(bufs[b]).sector then data else old(Contents(s))
    {
      ghost var before := bufs[..];
      bufs[b] := bufs[b].(data := data);
      assert bufs[..] == before[b := bufs[b]];
      SameKeys(before, bufs[..]);
      ViewThrough(before, disk, b, before[b].sector);
    }

    /** The effect of log_write() on the buffer: it may not be recycled before its home is written. */
    method Pin(b: nat)
      requires Valid() && b in owner
      modifies bufs
      ensures Valid()
      ensures bufs[..] == old(bufs[..])[b := old(bufs[b]).(dirty := true)]
      ensures forall s: nat :: s < |disk| ==> Contents(s) == old(Contents(s))
    {
      ghost var before := bufs[..];
      bufs[b] := bufs[b].(dirty := true);
      assert bufs[..] == before[b := bufs[b]];
      SameKeys(before, bufs[..]);
    }

    /** bwrite(): the disk catches up with the contents of one sector. */
    method Bwrite(b: nat)
      requires Valid() && b in owner && bufs[b].valid
      modifies bufs, this`disk
      ensures Valid() && |disk| == |old(disk)|
      ensures disk == old(disk)[old(bufs[b]).sector := old(Contents(bufs[b].sector))]
      ensures bufs[..] == old(bufs[..])[b := old(bufs[b]).(dirty := false)]
      ensures forall s: nat :: s < |disk| ==> Contents(s) == old(Contents(s))
    {
      ViewThrough(bufs[..], disk, b, bufs[b].sector);
      Pin(b);
      var ok := Iderw(b);
    }

    /**
     brelse(): the buffer becomes the most recently released one. Callers hand back a buffer
     that they left alone, wrote with bwrite() or recorded with log_write().
     */
    method Brelse(b: nat)
      requires Valid() && b in owner
      requires bufs[b].valid && (bufs[b].dirty || bufs[b].data == disk[bufs[b].sector])
      modifies bufs, next, prev, this`path, this`stamp, this`clock, this`owner
      ensures Valid()
      ensures owner == old(owner) - {b}
      ensures path[1] == b && stamp == old(stamp)[b := old(clock)]
      ensures bufs[..] == old(bufs[..])[b := old(bufs[b]).(busy := false)]
      ensures forall s: nat :: s < |disk| ==> Contents(s) == old(Contents(s))
    {
      MoveToFront(b);
      ghost var before := bufs[..];
      bufs[b] := bufs[b].(busy := false);
      owner := owner - {b};
      assert bufs[..] == before[b := bufs[b]];
      SameKeys(before, bufs[..]);
    }

    /** The two assignments that take node k of the ring out of it. */
    method Detach(b: nat, ghost k: nat)
      requires next.Length == prev.Length == NBUF + 1 && next != prev
      requires Path(path) && Links(next[..], prev[..], path) && 1 <= k < |path| && path[k] == b < NBUF
      modifies next, prev, this`path
      ensures path == Remove(old(path), k)
      ensures Path(path) && b !in path && Links(next[..], prev[..], path)
    {
      RemoveLinks(next[..], prev[..], path, k);
      RemovePath(path, k);
      ghost var n0, p0, nb, pb := next[..], prev[..], next[b], prev[b];
      assert Link(n0, p0, path[k - 1], After(path, k - 1));
      assert Link(n0, p0, path[k], After(path, k));
      prev[next[b]] := prev[b];
      next[prev[b]] := next[b];
      assert next[..] == n0[pb := nb] && prev[..] == p0[nb := pb];
      path := Remove(path, k);
    }

    /** The six pointer assignments of brelse(). */
    method MoveToFront(b: nat)
      requires RingValid() && b < NBUF
      modifies next, prev, this`path, this`stamp, this`clock
      ensures RingValid()
      ensures path[1] == b && stamp == old(stamp)[b := old(clock)]
    {
      assert b in path;
      ghost var k :| 0 <= k < |path| && path[k] == b;
      MovedPath(path, k, stamp, clock);
      Detach(b, k);
      LinkFront(b);
      stamp := stamp[b := clock];
      clock := clock + 1;
    }
  }
}
