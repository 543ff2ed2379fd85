/**
 pipe.c: a 512-byte ring shared by any number of readers and writers. Each method is the code
 a process runs between getting p->lock and giving it up, by returning or by going to sleep,
 so every interleaving of readers, writers, closes and kills is a sequence of calls.
 */
module Pipe {

  const PIPESIZE := 512
  /** nread and nwrite are 32-bit counters. */
  const WRAP := 0x1_0000_0000

  type Byte = int
  type Pid = nat

  /** How a critical section of pipewrite() or piperead() ends. */
  datatype Outcome = Done | Slept | Failed

  // Counter arithmetic: the counters wrap, the tests and the ring index do not notice.

  lemma FullTest(r: nat, w: nat)
    requires r <= w <= r + PIPESIZE
    ensures w % WRAP == (r % WRAP + PIPESIZE) % WRAP <==> w == r + PIPESIZE
    ensures w % WRAP == r % WRAP <==> w == r
  {
    var q := r / WRAP;
    assert r == q * WRAP + r % WRAP;
    if w < (q + 1) * WRAP {
      assert w / WRAP == q;
    } else {
      assert w / WRAP == q + 1;
    }
  }

  lemma NextCount(x: nat)
    ensures (x % WRAP + 1) % WRAP == (x + 1) % WRAP
    ensures x % WRAP % PIPESIZE == x % PIPESIZE
  {
    var q, r := x / WRAP, x % WRAP;
    assert x == q * WRAP + r;
    if r + 1 < WRAP {
      ModWrap(q, r + 1, x + 1);
    } else {
      ModWrap(q + 1, 0, x + 1);
    }
    var k := q * (WRAP / PIPESIZE) + r / PIPESIZE;
    assert r == r / PIPESIZE * PIPESIZE + r % PIPESIZE;
    ModRing(k, r % PIPESIZE, x);
  }

  lemma ModWrap(q: nat, r: nat, x: nat)
    requires r < WRAP && x == q * WRAP + r
    ensures x % WRAP == r
  {
    assert x / WRAP == q;
  }

  lemma ModRing(q: nat, r: nat, x: nat)
    requires r < PIPESIZE && x == q * PIPESIZE + r
    ensures x % PIPESIZE == r
  {
    assert x / PIPESIZE == q;
  }

  /** Distinct bytes in flight occupy distinct ring positions. */
  lemma RingIndex(r: nat, i: nat, j: nat)
    requires i < j < i + PIPESIZE
    ensures (r + i) % PIPESIZE != (r + j) % PIPESIZE
  {
  }

  /** The ring holds the bytes `flight`, the oldest at position r. */
  ghost predicate RingHolds(data: seq<Byte>, r: nat, flight: seq<Byte>)
  {
    && |data| == PIPESIZE && |flight| <= PIPESIZE
    && forall i :: 0 <= i < |flight| ==> data[(r + i) % PIPESIZE] == flight[i]
  }

  lemma RingPut(data: seq<Byte>, r: nat, flight: seq<Byte>, b: Byte)
    requires RingHolds(data, r, flight) && |flight| < PIPESIZE
    ensures RingHolds(data[(r + |flight|) % PIPESIZE := b], r, flight + [b])
  {
    var flight' := flight + [b];
    forall i | 0 <= i < |flight'| ensures data[(r + |flight|) % PIPESIZE := b][(r + i) % PIPESIZE] == flight'[i] {
      if i < |flight| {
        RingIndex(r, i, |flight|);
      }
    }
  }

  lemma RingGet(data: seq<Byte>, r: nat, flight: seq<Byte>)
    requires RingHolds(data, r, flight) && |flight| > 0
    ensures data[r % PIPESIZE] == flight[0] && RingHolds(data, r + 1, flight[1..])
  {
    assert data[(r + 0) % PIPESIZE] == flight[0];
    forall i | 0 <= i < |flight| - 1 ensures data[(r + 1 + i) % PIPESIZE] == flight[1..][i] {
      assert data[(r + (i + 1)) % PIPESIZE] == flight[i + 1];
    }
  }

  function Min(x: nat, y: nat): nat {
    if x < y then x else y
  }

  class Pipe {
    var data: array<Byte>
    var nread: nat
    var nwrite: nat
    var readopen: bool
    var writeopen: bool
    /** Processes sleeping on &p->nread and on &p->nwrite. */
    var readers: set<Pid>
    var writers: set<Pid>
    /** All bytes ever stored by pipewrite() and all bytes ever returned by piperead(). */
    ghost var accepted: seq<Byte>
    ghost var delivered: seq<Byte>
    /** Bytes were stored and no wakeup(&p->nread) has followed yet. */
    ghost var unannounced: bool

    ghost function Flight(): seq<Byte>
      requires |delivered| <= |accepted|
      reads this
    {
      accepted[|delivered|..]
    }

    /** The ring and the counters represent the bytes in flight. */
    ghost predicate RingValid()
      reads this, data
    {
      && delivered <= accepted
      && data.Length == PIPESIZE && RingHolds(data[..], |delivered|, Flight())
      && nread == |delivered| % WRAP && nwrite == |accepted| % WRAP
    }

    /**
     What was read is a prefix of what was written, in order; at most PIPESIZE bytes are in
     between; sleeping writers face a full pipe and sleeping readers an empty one.
     */
    ghost predicate Valid()
      reads this, data
    {
      && RingValid()
      && (writers != {} ==> |Flight()| == PIPESIZE && readopen)
      && (readers != {} ==> readopen && (unannounced || (|Flight()| == 0 && writeopen)))
    }

    constructor ()
      ensures Valid() && accepted == delivered == [] && readopen && writeopen
      ensures readers == writers == {} && !unannounced && fresh(data)
    {
      data := new Byte[PIPESIZE](_ => 0);
      nread, nwrite, readopen, writeopen := 0, 0, true, true;
      readers, writers := {}, {};
      accepted, delivered, unannounced := [], [], false;
    }

    /** p->data[p->nwrite++ % PIPESIZE] = b. */
    method Put(b: Byte)
      requires Valid() && |Flight()| < PIPESIZE && writers == {}
      modifies data, this`nwrite, this`accepted, this`unannounced
      ensures Valid() && accepted == old(accepted) + [b] && unannounced
    {
      RingPut(data[..], |delivered|, Flight(), b);
      NextCount(|accepted|);
      ghost var before := data[..];
      data[nwrite % PIPESIZE] := b;
      assert data[..] == before[|accepted| % PIPESIZE := b];
      nwrite := (nwrite + 1) % WRAP;
      assert accepted[|delivered|..] + [b] == (accepted + [b])[|delivered|..];
      accepted := accepted + [b];
      unannounced := true;
    }

    /** addr[i] = p->data[p->nread++ % PIPESIZE]. */
    method Get() returns (b: Byte)
      requires RingValid() && |Flight()| > 0
      modifies this`nread, this`delivered
      ensures RingValid() && b == old(Flight())[0]
      ensures delivered == old(delivered) + [b] && Flight() == old(Flight())[1..]
    {
      RingGet(data[..], |delivered|, Flight());
      NextCount(|delivered|);
      b := data[nread % PIPESIZE];
      delivered := delivered + [b];
      nread := (nread + 1) % WRAP;
    }

    /** wakeup(&p->nread) and wakeup(&p->nwrite). */
    method WakeReaders()
      modifies this`readers, this`unannounced
      ensures readers == {} && !unannounced
    {
      readers := {};
      unannounced := false;
    }

    method WakeWriters()
      modifies this`writers
      ensures writers == {}
    {
      writers := {};
    }

    /**
     pipewrite() of `addr` by process `pid`, from byte i on, until it sleeps or returns. It stores
     as many bytes as there is room for. Leaving on a full pipe because the reader is gone or
     the process was killed is the one way out that does not wake the readers.
     */
    method WriteSection(pid: Pid, addr: seq<Byte>, i: nat, killed: bool) returns (i': nat, r: Outcome)
      requires Valid() && writeopen && i <= |addr| && pid !in writers
      modifies data, this`nwrite, this`accepted, this`unannounced, this`readers, this`writers
      ensures Valid()
      ensures i' == i + Min(|addr| - i, PIPESIZE - old(|Flight()|))
      ensures accepted == old(accepted) + addr[i..i']
      ensures r == if i' == |addr| then Done else if !readopen || killed then Failed else Slept
      ensures r != Failed ==> readers == {} && !unannounced
      ensures r == Failed ==> readers == old(readers)
      ensures writers == old(writers) + if r == Slept then {pid} else {}
      ensures !old(unannounced) ==>
                ((readers != {} && |Flight()| > 0) <==> (old(readers) != {} && killed && |addr| - i > PIPESIZE))
    {
      i' := i;
      assert addr[i..i'] == [];
      while i' < |addr|
        invariant i <= i' <= |addr| && Valid()
        invariant accepted == old(accepted) + addr[i..i']
        invariant i' - i <= PIPESIZE - old(|Flight()|)
        invariant readers == old(readers) && writers == old(writers)
      {
        FullTest(|delivered|, |accepted|);
        if nwrite == (nread + PIPESIZE) % WRAP {
          if !readopen || killed {
            return i', Failed;
          }
          WakeReaders();
          writers := writers + {pid};
          return i', Slept;
        }
        Put(addr[i']);
        assert addr[i..i' + 1] == addr[i..i'] + [addr[i']];
        i' := i' + 1;
      }
      WakeReaders();
      r := Done;
    }

    /** The copying loop of piperead(). */
    method Copy(n: nat) returns (out: seq<Byte>)
      requires RingValid()
      modifies this`nread, this`delivered
      ensures RingValid()
      ensures out == old(Flight())[..Min(n, old(|Flight()|))]
      ensures delivered == old(delivered) + out
    {
      out := [];
      var i := 0;
      ghost var flight := Flight();
      while i < n
        invariant 0 <= i <= n && i == |out| <= |flight| && out == flight[..i]
        invariant delivered == old(delivered) + out && |old(delivered)| <= |accepted|
        invariant RingValid() && Flight() == flight[i..]
      {
        FullTest(|delivered|, |accepted|);
        if nread == nwrite {
          break;
        }
        var b := Get();
        out := out + [b];
        i := i + 1;
      }
    }

    /** piperead() of at most n bytes by process `pid` until it sleeps or returns. */
    method ReadSection(pid: Pid, n: nat, killed: bool) returns (out: seq<Byte>, r: Outcome)
      requires Valid() && readopen && pid !in readers
      modifies this`nread, this`delivered, this`readers, this`writers
      ensures Valid()
      ensures r == if old(|Flight()|) == 0 && writeopen then (if killed then Failed else Slept) else Done
      ensures r == Done ==> out == old(Flight())[..Min(n, old(|Flight()|))] && writers == {}
      ensures r != Done ==> out == [] && writers == old(writers)
      ensures delivered == old(delivered) + out
      ensures readers == old(readers) + if r == Slept then {pid} else {}
    {
      FullTest(|delivered|, |accepted|);
      if nread == nwrite && writeopen {
        if killed {
          return [], Failed;
        }
        readers := readers + {pid};
        return [], Slept;
      }
      out := Copy(n);
      WakeWriters();
      r := Done;
    }

    /** pipeclose(): the last descriptor of one end is gone, so no process sleeps at that end. */
    method Close(writable: bool)
      requires Valid() && (if writable then writeopen && writers == {} else readopen && readers == {})
      modifies this`readopen, this`writeopen, this`readers, this`writers, this`unannounced
      ensures Valid()
      ensures writable ==> !writeopen && readopen == old(readopen) && readers == {} && writers == old(writers)
      ensures !writable ==> !readopen && writeopen == old(writeopen) && writers == {} && readers == old(readers)
    {
      if writable {
        writeopen := false;
        WakeReaders();
      } else {
        readopen := false;
        WakeWriters();
      }
    }

    /** kill() makes a sleeping process runnable. */
    method Kill(pid: Pid)
      requires Valid()
      modifies this`readers, this`writers
      ensures Valid() && readers == old(readers) - {pid} && writers == old(writers) - {pid}
    {
      readers := readers - {pid};
      writers := writers - {pid};
    }
  }

  /** With no bytes left unannounced, nobody sleeps who could go on. */
  lemma NobodySleepsInVain(p: Pipe)
    requires p.Valid() && !p.unannounced
    ensures p.readers != {} ==> p.accepted == p.delivered && p.writeopen
    ensures p.writers != {} ==> |p.accepted| - |p.delivered| == PIPESIZE && p.readopen
  {
    if p.readers != {} {
      assert p.accepted == p.delivered + p.Flight();
    }
  }

  /** The exit at line 85 can leave a reader asleep although the pipe is full. */
  method KilledWriterStrandsReader() returns (p: Pipe)
    ensures p.Valid() && p.readers == {1} && |p.accepted| - |p.delivered| == PIPESIZE
  {
    p := new Pipe();
    var out, r := p.ReadSection(1, 1, false);
    var addr := seq(PIPESIZE + 1, _ => 0);
    var i, w := p.WriteSection(2, addr, 0, true);
  }
}
