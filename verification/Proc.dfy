/** proc.c as it runs: the table is an array, scanned by loops under ptable.lock. */
module Proc {
  import opened Params
  import opened ProcSpec

  lemma {:induction false} FirstZombieIs(ps: seq<ProcSpec.Proc>, i: int, k: nat, z: nat)
    requires k <= z <= |ps| && (z < |ps| ==> ps[z].parent == i && ps[z].state == Zombie)
    requires forall j :: k <= j < z ==> !(ps[j].parent == i && ps[j].state == Zombie)
    ensures FirstZombie(ps, i, k) == z
    decreases z - k
  {
    if k < z {
      FirstZombieIs(ps, i, k + 1, z);
    }
  }

  class Ptable {
    const proc: array<ProcSpec.Proc>
    var nextpid: int
    const initproc: int

    ghost function State(): Table
      reads this, proc
    {
      Table(proc[..], nextpid)
    }

    constructor ()
      ensures fresh(proc) && State() == Boot().t && initproc == 0
    {
      proc := new ProcSpec.Proc[NPROC](_ => ProcSpec.Proc(Unused, 0, NOBODY, NoChan, false));
      nextpid := 2;
      initproc := 0;
      new;
      proc[0] := ProcSpec.Proc(Runnable, 1, NOBODY, NoChan, false);
      assert proc[..] == Boot().t.procs;
    }

    /** Take the first unused slot; on failure to get a kernel stack give it back. */
    method Allocproc(kstack: bool) returns (found: bool, n: int)
      modifies this`nextpid, proc
      ensures found <==> kstack && FirstUnused(old(proc[..]), 0) < proc.Length
      ensures found ==> n == FirstUnused(old(proc[..]), 0) && nextpid == old(nextpid) + 1
      ensures found ==> proc[..] == old(proc[..])[n := old(proc[n]).(state := Embryo, pid := old(nextpid))]
      ensures var k := FirstUnused(old(proc[..]), 0);
              !found ==> State() == if k == proc.Length then old(State())
                                    else Table(old(proc[..])[k := old(proc[..])[k].(pid := old(nextpid))], old(nextpid) + 1)
    {
      n := 0;
      while n < proc.Length && proc[n].state != Unused
        invariant 0 <= n <= proc.Length && forall j :: 0 <= j < n ==> proc[j].state != Unused
      {
        n := n + 1;
      }
      FirstUnusedIs(proc[..], 0, n);
      if n == proc.Length {
        return false, 0;
      }
      proc[n] := proc[n].(state := Embryo, pid := nextpid);
      nextpid := nextpid + 1;
      if !kstack {
        proc[n] := proc[n].(state := Unused);
        return false, 0;
      }
      return true, n;
    }

    /** fork, on the path where the address space is copied. */
    method Fork(i: int, kstack: bool) returns (pid: int)
      requires 0 <= i < proc.Length
      modifies this`nextpid, proc
      ensures State() == Forked(old(State()), i, kstack)
      ensures pid == if kstack && FirstUnused(old(proc[..]), 0) < proc.Length then old(nextpid) else -1
    {
      var found, n := Allocproc(kstack);
      if !found {
        return -1;
      }
      proc[n] := proc[n].(parent := i);
      pid := proc[n].pid;
      proc[n] := proc[n].(state := Runnable);
    }

    method Wakeup1(c: Chan)
      modifies proc
      ensures proc[..] == Wake(old(proc[..]), c)
    {
      for k := 0 to proc.Length
        invariant forall j :: 0 <= j < proc.Length ==> proc[j] == if j < k then Woken(old(proc[j]), c) else old(proc[j])
      {
        if proc[k].state == Sleeping && proc[k].chan == c {
          proc[k] := proc[k].(state := Runnable);
        }
      }
    }

    /** exit by slot i, up to entering the scheduler. */
    method Exit(i: int) returns (panicked: bool)
      requires 0 <= i < proc.Length
      modifies proc
      ensures panicked <==> i == initproc
      ensures State() == if panicked then old(State()) else Exited(old(State()), i, initproc)
    {
      if i == initproc {
        return true;
      }
      Wakeup1(OnSlot(proc[i].parent));
      ghost var ps := proc[..];
      for k := 0 to proc.Length
        invariant proc[..] == Adopt(ps, i, initproc, k)
      {
        if proc[k].parent == i {
          proc[k] := proc[k].(parent := initproc);
          if proc[k].state == Zombie {
            Wakeup1(OnSlot(initproc));
          }
        }
      }
      proc[i] := proc[i].(state := Zombie);
      return false;
    }

    /** One pass of wait's loop by slot i: a child's pid, -1, or asleep. */
    method Wait(i: int) returns (done: bool, pid: int)
      requires 0 <= i < proc.Length
      modifies proc
      ensures match WaitPass(old(State()), i)
              case Reaped(t, p) => done && pid == p && State() == t
              case NoChild => done && pid == -1 && State() == old(State())
              case Sleeps(t) => !done && State() == t
    {
      var havekids := false;
      for k := 0 to proc.Length
        invariant proc[..] == old(proc[..])
        invariant forall j :: 0 <= j < k ==> !(proc[j].parent == i && proc[j].state == Zombie)
        invariant havekids <==> exists j :: 0 <= j < k && proc[j].parent == i
      {
        if proc[k].parent == i {
          havekids := true;
          if proc[k].state == Zombie {
            FirstZombieIs(proc[..], i, 0, k);
            pid := proc[k].pid;
            proc[k] := ProcSpec.Proc(Unused, 0, NOBODY, proc[k].chan, false);
            return true, pid;
          }
        }
      }
      FirstZombieIs(proc[..], i, 0, proc.Length);
      assert havekids <==> HasKids(proc[..], i);
      if !havekids || proc[i].killed {
        return true, -1;
      }
      proc[i] := proc[i].(state := Sleeping, chan := OnSlot(i));
      return false, 0;
    }

    method Kill(pid: int) returns (r: int)
      modifies proc
      ensures State() == Killed(old(State()), pid)
      ensures r == if FindPid(old(proc[..]), pid, 0) < proc.Length then 0 else -1
    {
      var k := 0;
      while k < proc.Length
        invariant 0 <= k <= proc.Length && proc[..] == old(proc[..])
        invariant forall j :: 0 <= j < k ==> proc[j].pid != pid
      {
        if proc[k].pid == pid {
          FindPidIs(proc[..], pid, 0, k);
          proc[k] := proc[k].(killed := true);
          if proc[k].state == Sleeping {
            proc[k] := proc[k].(state := Runnable);
          }
          return 0;
        }
        k := k + 1;
      }
      FindPidIs(proc[..], pid, 0, k);
      return -1;
    }
  }
}
