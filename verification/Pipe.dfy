/** Pipes (pipe.c): the ring buffer with its 32-bit counters, and any number of
    readers and writers interleaving at lock boundaries. */
module Pipe {
  import opened Params

  // ---------- the ring buffer ----------

  lemma MulGe(p: int, d: int)
    requires p > 0 && d >= 1
    ensures p * d >= p
  {
  }

  lemma Distrib(p: int, a: int, b: int)
    ensures p * (a - b) == p * a - p * b
  {
  }

  lemma DivUnique(p: int, q: int, r: int, q0: int, r0: int)
    requires 0 <= r < p && 0 <= r0 < p && p * q + r == p * q0 + r0
    ensures q == q0 && r == r0
  {
    Distrib(p, q, q0);
    Distrib(p, q0, q);
    if q > q0 {
      MulGe(p, q - q0);
    } else if q < q0 {
      MulGe(p, q0 - q);
    }
  }

  /** The slot of the k-th byte. */
  function Slot(k: nat): (s: nat)
    ensures s < PIPESIZE
  {
    if k < PIPESIZE then k else Slot(k - PIPESIZE)
  }

  lemma {:induction false} SlotIsMod(k: nat) returns (q: nat)
    ensures Slot(k) == k % PIPESIZE && k == PIPESIZE * q + Slot(k)
  {
    if k < PIPESIZE {
      q := 0;
    } else {
      var q' := SlotIsMod(k - PIPESIZE);
      q := q' + 1;
      Distrib(PIPESIZE, q, 1);
    }
    DivUnique(PIPESIZE, q, Slot(k), k / PIPESIZE, k % PIPESIZE);
  }

  lemma {:induction false} SlotShift(k: nat, n: nat)
    ensures PIPESIZE * n >= 0 && Slot(k + PIPESIZE * n) == Slot(k)
    decreases n
  {
    if n > 0 {
      Distrib(PIPESIZE, n, 1);
      SlotShift(k, n - 1);
    }
  }

  /** A count as a 32-bit counter holds it. */
  function Low32(x: nat): (c: nat)
    ensures c < W32
  {
    if x < W32 then x else Low32(x - W32)
  }

  lemma {:induction false} Low32IsMod(x: nat)
    ensures Low32(x) == x % W32
    decreases x
  {
    if x >= W32 {
      Low32IsMod(x - W32);
    }
  }

  lemma {:induction false} Low32Add(x: nat, d: nat)
    requires d < W32
    ensures Low32(x + d) == (Low32(x) + d) % W32
    decreases x
  {
    if x >= W32 {
      Low32Add(x - W32, d);
    } else {
      Low32IsMod(x + d);
    }
  }

  lemma ExactDivision()
    ensures PIPESIZE * (W32 / PIPESIZE) == W32
  {
  }

  /** Reducing a counter to 32 bits does not move its slot, since PIPESIZE divides 2^32. */
  lemma {:induction false} SlotSurvivesWrap(x: nat)
    ensures Slot(Low32(x)) == Slot(x)
    decreases x
  {
    if x >= W32 {
      SlotSurvivesWrap(x - W32);
      ExactDivision();
      SlotShift(x - W32, W32 / PIPESIZE);
    }
  }

  lemma SlotsDistinct(x: nat, y: nat)
    requires x < y < x + PIPESIZE
    ensures Slot(x) != Slot(y)
  {
    var p := SlotIsMod(x);
    var q := SlotIsMod(y);
    Distrib(PIPESIZE, q, p);
    if q > p {
      MulGe(PIPESIZE, q - p);
    } else if q < p {
      Distrib(PIPESIZE, p, q);
      MulGe(PIPESIZE, p - q);
    }
  }

  datatype Outcome = Finished | MustSleep | Failed

  class Pipe {
    const data: array<int>
    var nread: int                 // 32-bit counters
    var nwrite: int
    var readopen: bool
    var writeopen: bool
    ghost var accepted: seq<int>   // every byte taken from a writer
    ghost var taken: seq<int>      // every byte given to a reader

    /** The counters are the true counts reduced to 32 bits, and slot k % PIPESIZE
        holds byte k while it is in the pipe. */
    ghost predicate Valid()
      reads this, data
    {
      && data.Length == PIPESIZE
      && nread == Low32(|taken|) && nwrite == Low32(|accepted|)
      && |taken| <= |accepted| <= |taken| + PIPESIZE
      && taken == accepted[..|taken|]
      && forall k :: |taken| <= k < |accepted| ==> data[Slot(k)] == accepted[k]
    }

    ghost function Buffer(): (b: seq<int>)
      reads this
      requires |taken| <= |accepted|
    {
      accepted[|taken|..]
    }

    constructor ()
      ensures Valid() && accepted == [] && taken == [] && readopen && writeopen && fresh(data)
    {
      data := new int[PIPESIZE];
      nread, nwrite, readopen, writeopen := 0, 0, true, true;
      accepted, taken := [], [];
    }

    /** pipeclose of one end; `last` says both are closed and the page is freed. */
    method Close(writable: bool) returns (last: bool)
      requires Valid()
      modifies this`readopen, this`writeopen
      ensures Valid() && Buffer() == old(Buffer())
      ensures writeopen == (old(writeopen) && !writable) && readopen == (old(readopen) && writable)
      ensures last <==> !readopen && !writeopen
    {
      if writable {
        writeopen := false;
      } else {
        readopen := false;
      }
      return !readopen && !writeopen;
    }

    method Put(x: int)
      requires Valid() && |accepted| < |taken| + PIPESIZE
      modifies data, this`nwrite, this`accepted
      ensures Valid() && accepted == old(accepted) + [x]
    {
      ghost var w := |accepted|;
      SlotSurvivesWrap(w);
      forall k | |taken| <= k < w ensures Slot(k) != Slot(w) {
        SlotsDistinct(k, w);
      }
      var i := RingIndex(nwrite);
      data[i] := x;
      Low32Add(w, 1);
      nwrite := (nwrite + 1) % W32;
      accepted := accepted + [x];
    }

    method Get() returns (x: int)
      requires Valid() && |taken| < |accepted|
      modifies this`nread, this`taken
      ensures Valid() && taken == old(taken) + [x] && x == accepted[|old(taken)|]
    {
      SlotSurvivesWrap(|taken|);
      var i := RingIndex(nread);
      x := data[i];
      Low32Add(|taken|, 1);
      nread := (nread + 1) % W32;
      taken := taken + [x];
    }

    /** pipewrite from byte i on, up to its end or the point where it sleeps. */
    method Write(addr: seq<int>, i0: nat, killed: bool) returns (r: Outcome, i: nat)
      requires Valid() && i0 <= |addr|
      modifies this, data
      ensures Valid() && taken == old(taken)
      ensures unchanged(this`readopen) && unchanged(this`writeopen)
      ensures i0 <= i <= |addr| && accepted == old(accepted) + addr[i0..i]
      ensures i - i0 == Min(|addr| - i0, PIPESIZE - |old(Buffer())|)
      ensures r.Finished? <==> i == |addr|
      ensures r.Failed? <==> !r.Finished? && (!readopen || killed)
    {
      i := i0;
      while i < |addr|
        invariant Valid() && taken == old(taken) && i0 <= i <= |addr|
        invariant readopen == old(readopen) && writeopen == old(writeopen)
        invariant accepted == old(accepted) + addr[i0..i]
      {
        CountersTell(|taken|, |accepted|);
        if nwrite == (nread + PIPESIZE) % W32 {
          if !readopen || killed {
            return Failed, i;
          }
          return MustSleep, i;
        }
        Put(addr[i]);
        i := i + 1;
      }
      return Finished, i;
    }

    /** One pass of piperead. */
    method Read(n: nat, killed: bool) returns (r: Outcome, got: seq<int>)
      requires Valid()
      modifies this
      ensures Valid() && accepted == old(accepted) && taken == old(taken) + got
      ensures unchanged(this`readopen) && unchanged(this`writeopen)
      ensures r.Finished? <==> |old(Buffer())| > 0 || !writeopen
      ensures r.Failed? <==> !r.Finished? && killed
      ensures got == if r.Finished? then old(Buffer())[..Min(n, |old(Buffer())|)] else []
    {
      hide Low32, Slot;
      CountersTell(|taken|, |accepted|);
      got := [];
      if nread == nwrite && writeopen {
        return (if killed then Failed else MustSleep), [];
      }
      var i := 0;
      while i < n
        invariant Valid() && accepted == old(accepted) && 0 <= i <= n && |got| == i
        invariant readopen == old(readopen) && writeopen == old(writeopen)
        invariant taken == old(taken) + got
      {
        CountersTell(|taken|, |accepted|);
        if nread == nwrite {
          break;
        }
        var x := Get();
        got := got + [x];
        i := i + 1;
      }
      CountersTell(|taken|, |accepted|);
      assert got == taken[|old(taken)|..];
      return Finished, got;
    }
  }

  function Min(a: nat, b: nat): nat {
    if a < b then a else b
  }

  method RingIndex(n: nat) returns (i: nat)
    ensures i == Slot(n)
  {
    ghost var q := SlotIsMod(n);
    i := n % PIPESIZE;
  }

  /** Counts less than 2^32 apart are told apart by their 32-bit values. */
  lemma {:induction false} Low32Injective(a: nat, b: nat)
    requires a <= b < a + W32
    ensures Low32(a) == Low32(b) <==> a == b
    decreases a
  {
    if a >= W32 {
      Low32Injective(a - W32, b - W32);
    }
  }

  /** The 32-bit comparisons of pipewrite and piperead tell full and empty exactly. */
  lemma CountersTell(r: nat, w: nat)
    requires r <= w <= r + PIPESIZE
    ensures Low32(w) == (Low32(r) + PIPESIZE) % W32 <==> w == r + PIPESIZE
    ensures Low32(r) == Low32(w) <==> w == r
  {
    Low32Add(r, PIPESIZE);
    Low32Injective(r, w);
    Low32Injective(w, r + PIPESIZE);
  }

  // ---------- readers and writers ----------

  datatype Proc =
    | Idle
    | Reading(n: nat) | ReadAsleep(n: nat)
    | Writing(bytes: seq<int>) | WriteAsleep(bytes: seq<int>)
  {
    predicate Reader() { Reading? || ReadAsleep? }
    predicate Writer() { Writing? || WriteAsleep? }
  }

  /** A pipe and the processes using it; each step is one stay inside p->lock. */
  datatype Sys = Sys(taken: seq<int>, buffer: seq<int>, accepted: seq<int>,
                     readopen: bool, writeopen: bool, procs: seq<Proc>)

  datatype Step =
    | CallRead(p: nat, n: nat) | CallWrite(p: nat, bytes: seq<int>)
    | RunRead(p: nat, killed: bool) | RunWrite(p: nat, killed: bool)
    | Kick(p: nat)                       // kill() makes a sleeper runnable
    | CloseRead | CloseWrite

  function Init(nprocs: nat): Sys {
    Sys([], [], [], true, true, seq(nprocs, _ => Idle))
  }

  function WakeReader(q: Proc): Proc { if q.ReadAsleep? then Reading(q.n) else q }
  function WakeWriter(q: Proc): Proc { if q.WriteAsleep? then Writing(q.bytes) else q }

  function WakeReaders(ps: seq<Proc>): (r: seq<Proc>)
    ensures |r| == |ps|
  {
    seq(|ps|, i requires 0 <= i < |ps| => WakeReader(ps[i]))
  }

  function WakeWriters(ps: seq<Proc>): (r: seq<Proc>)
    ensures |r| == |ps|
  {
    seq(|ps|, i requires 0 <= i < |ps| => WakeWriter(ps[i]))
  }

  /** Only a process holding an end open uses it, so an end is closed by its last user. */
  ghost predicate Enabled(s: Sys, t: Step) {
    match t
    case CallRead(p, _) => p < |s.procs| && s.procs[p].Idle? && s.readopen
    case CallWrite(p, _) => p < |s.procs| && s.procs[p].Idle? && s.writeopen
    case RunRead(p, _) => p < |s.procs| && s.procs[p].Reading?
    case RunWrite(p, _) => p < |s.procs| && s.procs[p].Writing?
    case Kick(p) => p < |s.procs|
    case CloseRead => forall i :: 0 <= i < |s.procs| ==> !s.procs[i].Reader()
    case CloseWrite => forall i :: 0 <= i < |s.procs| ==> !s.procs[i].Writer()
  }

  function DoWrite(s: Sys, p: nat, killed: bool): Sys
    requires p < |s.procs| && s.procs[p].Writing? && |s.buffer| <= PIPESIZE
  {
    var bytes := s.procs[p].bytes;
    var k := Min(|bytes|, PIPESIZE - |s.buffer|);
    var s' := s.(buffer := s.buffer + bytes[..k], accepted := s.accepted + bytes[..k]);
    if k == |bytes| then s'.(procs := WakeReaders(s.procs[p := Idle]))
    else if !s.readopen || killed then s'.(procs := s.procs[p := Idle])
    else s'.(procs := WakeReaders(s.procs[p := WriteAsleep(bytes[k..])]))
  }

  function DoRead(s: Sys, p: nat, killed: bool): Sys
    requires p < |s.procs| && s.procs[p].Reading?
  {
    var n := s.procs[p].n;
    if s.buffer == [] && s.writeopen then s.(procs := s.procs[p := if killed then Idle else ReadAsleep(n)])
    else
      var m := Min(n, |s.buffer|);
      s.(taken := s.taken + s.buffer[..m], buffer := s.buffer[m..], procs := WakeWriters(s.procs[p := Idle]))
  }

  ghost function Do(s: Sys, t: Step): Sys
    requires Enabled(s, t) && |s.buffer| <= PIPESIZE
  {
    match t
    case CallRead(p, n) => s.(procs := s.procs[p := Reading(n)])
    case CallWrite(p, bytes) => s.(procs := s.procs[p := Writing(bytes)])
    case RunRead(p, killed) => DoRead(s, p, killed)
    case RunWrite(p, killed) => DoWrite(s, p, killed)
    case Kick(p) => s.(procs := s.procs[p := WakeWriter(WakeReader(s.procs[p]))])
    case CloseRead => s.(readopen := false, procs := WakeWriters(s.procs))
    case CloseWrite => s.(writeopen := false, procs := WakeReaders(s.procs))
  }

  /** What came out, followed by what is in the pipe, is what went in. */
  predicate Fifo(s: Sys) {
    s.taken + s.buffer == s.accepted && |s.buffer| <= PIPESIZE
  }

  /** Nobody sleeps through the event they wait for. */
  ghost predicate NoneStranded(s: Sys) {
    && (forall i :: 0 <= i < |s.procs| && s.procs[i].ReadAsleep? ==> s.buffer == [] && s.writeopen)
    && (forall i :: 0 <= i < |s.procs| && s.procs[i].WriteAsleep? ==> |s.buffer| == PIPESIZE && s.readopen)
  }

  ghost predicate EndsHeld(s: Sys) {
    && (forall i :: 0 <= i < |s.procs| && s.procs[i].Reader() ==> s.readopen)
    && (forall i :: 0 <= i < |s.procs| && s.procs[i].Writer() ==> s.writeopen)
  }

  lemma StepKeepsFifo(s: Sys, t: Step)
    requires Enabled(s, t) && Fifo(s)
    ensures Fifo(Do(s, t))
  {
    match t
    case RunRead(p, killed) =>
      var m := Min(s.procs[p].n, |s.buffer|);
      assert s.taken + s.buffer[..m] + s.buffer[m..] == s.taken + s.buffer;
    case RunWrite(p, killed) =>
      var bytes := s.procs[p].bytes;
      var k := Min(|bytes|, PIPESIZE - |s.buffer|);
      assert s.taken + (s.buffer + bytes[..k]) == s.taken + s.buffer + bytes[..k];
    case _ =>
  }

  lemma StepKeepsEnds(s: Sys, t: Step)
    requires Enabled(s, t) && Fifo(s) && EndsHeld(s)
    ensures EndsHeld(Do(s, t))
  {
  }

  /** The one step that can strand a reader: a killed writer that fills the pipe and
      leaves without a wakeup while a reader sleeps. */
  ghost predicate Strands(s: Sys, t: Step) {
    && t.RunWrite? && t.killed && t.p < |s.procs| && s.procs[t.p].Writing?
    && |s.procs[t.p].bytes| > PIPESIZE - |s.buffer|
    && exists i :: 0 <= i < |s.procs| && s.procs[i].ReadAsleep?
  }

  /** A step keeps every sleeper justified exactly when it is not that one. */
  lemma StepStrandsIff(s: Sys, t: Step)
    requires Enabled(s, t) && Fifo(s) && EndsHeld(s) && NoneStranded(s)
    ensures NoneStranded(Do(s, t)) <==> !Strands(s, t)
  {
    if t.RunWrite? {
      WriteStrandsIff(s, t.p, t.killed);
    }
  }

  lemma WriteStrandsIff(s: Sys, p: nat, killed: bool)
    requires Enabled(s, RunWrite(p, killed)) && Fifo(s) && EndsHeld(s) && NoneStranded(s)
    ensures NoneStranded(DoWrite(s, p, killed)) <==> !Strands(s, RunWrite(p, killed))
  {
    var r := DoWrite(s, p, killed);
    var bytes := s.procs[p].bytes;
    if i :| 0 <= i < |s.procs| && s.procs[i].ReadAsleep? {
      assert s.readopen && s.buffer == [];
      if killed && |bytes| > PIPESIZE {
        assert r.procs[i].ReadAsleep? && |r.buffer| == PIPESIZE;
      }
    }
  }

  ghost predicate Runs(s: Sys, ts: seq<Step>)
    requires Fifo(s)
    decreases |ts|
  {
    ts == [] || (Enabled(s, ts[0]) && (StepKeepsFifo(s, ts[0]); Runs(Do(s, ts[0]), ts[1..])))
  }

  ghost function After(s: Sys, ts: seq<Step>): Sys
    requires Fifo(s) && Runs(s, ts)
    decreases |ts|
  {
    if ts == [] then s else (StepKeepsFifo(s, ts[0]); After(Do(s, ts[0]), ts[1..]))
  }

  /** No step of the run strands a reader. */
  ghost predicate Clean(s: Sys, ts: seq<Step>)
    requires Fifo(s) && Runs(s, ts)
    decreases |ts|
  {
    ts == [] || (!Strands(s, ts[0]) && (StepKeepsFifo(s, ts[0]); Clean(Do(s, ts[0]), ts[1..])))
  }

  lemma {:induction false} RunKeeps(s: Sys, ts: seq<Step>)
    requires Fifo(s) && Runs(s, ts)
    ensures Fifo(After(s, ts))
    ensures EndsHeld(s) && NoneStranded(s) && Clean(s, ts) ==> EndsHeld(After(s, ts)) && NoneStranded(After(s, ts))
    decreases |ts|
  {
    if ts != [] {
      StepKeepsFifo(s, ts[0]);
      if EndsHeld(s) && NoneStranded(s) {
        StepKeepsEnds(s, ts[0]);
        StepStrandsIff(s, ts[0]);
      }
      RunKeeps(Do(s, ts[0]), ts[1..]);
    }
  }

  /** Over every interleaving the pipe is an exact bounded FIFO, and unless a killed
      writer overfills it under a sleeping reader nobody is left asleep. */
  lemma PipeRuns(nprocs: nat, ts: seq<Step>)
    requires Runs(Init(nprocs), ts)
    ensures var r := After(Init(nprocs), ts);
            && r.taken <= r.accepted && r.accepted[|r.taken|..] == r.buffer && |r.buffer| <= PIPESIZE
            && (Clean(Init(nprocs), ts) ==> NoneStranded(r))
  {
    RunKeeps(Init(nprocs), ts);
    var r := After(Init(nprocs), ts);
    assert r.accepted == r.taken + r.buffer;
  }

  /** The exception is real: a reader asleep on a full pipe. */
  lemma KilledWriterStrandsReader(bytes: seq<int>) returns (ts: seq<Step>)
    requires |bytes| == PIPESIZE + 1
    ensures Runs(Init(2), ts)
    ensures var r := After(Init(2), ts);
            |r.buffer| == PIPESIZE && |r.procs| == 2 && r.procs[0].ReadAsleep? && r.procs[1].Idle?
  {
    var s0 := Init(2);
    var s1 := Do(s0, CallRead(0, 1));
    var s2 := Do(s1, RunRead(0, false));
    var s3 := Do(s2, CallWrite(1, bytes));
    var t3, t2, t1, t0 := RunWrite(1, true), CallWrite(1, bytes), RunRead(0, false), CallRead(0, 1);
    ts := [t0, t1, t2, t3];
    assert Runs(Do(s3, t3), []);
    assert [t3][1..] == [] && Runs(s3, [t3]) && After(s3, [t3]) == Do(s3, t3);
    assert [t2, t3][1..] == [t3] && Runs(s2, [t2, t3]) && After(s2, [t2, t3]) == Do(s3, t3);
    assert [t1, t2, t3][1..] == [t2, t3] && Runs(s1, [t1, t2, t3]) && After(s1, [t1, t2, t3]) == Do(s3, t3);
    assert ts[1..] == [t1, t2, t3] && After(s0, ts) == Do(s3, t3);
  }
}
