/** The process table as a value: what fork, exit, wait, sleep, wakeup and kill do to it
    in one critical section of ptable.lock, and what every run of them keeps. */
module ProcSpec {
  import opened Params
  import opened Seqs

  datatype PState = Unused | Embryo | Sleeping | Runnable | Running | Zombie

  /** What a process sleeps on: nothing, a slot of the table (wait), or something else. */
  datatype Chan = NoChan | OnSlot(i: int) | Elsewhere(n: int)

  const NOBODY := -1

  datatype Proc = Proc(state: PState, pid: int, parent: int, chan: Chan, killed: bool)

  /** nextpid is unbounded here; the kernel's int wraps after 2^31 forks. */
  datatype Table = Table(procs: seq<Proc>, nextpid: int)

  // ---------- wakeup1 ----------

  function Woken(p: Proc, c: Chan): Proc {
    if p.state == Sleeping && p.chan == c then p.(state := Runnable) else p
  }

  function Wake(ps: seq<Proc>, c: Chan): (r: seq<Proc>)
    ensures |r| == |ps| && forall i :: 0 <= i < |ps| ==> r[i] == Woken(ps[i], c)
  {
    seq(|ps|, i requires 0 <= i < |ps| => Woken(ps[i], c))
  }

  // ---------- fork ----------

  /** The first unused slot from k on. */
  function FirstUnused(ps: seq<Proc>, k: nat): (r: nat)
    requires k <= |ps|
    ensures k <= r <= |ps| && (r < |ps| ==> ps[r].state == Unused)
    ensures forall j :: k <= j < r ==> ps[j].state != Unused
    decreases |ps| - k
  {
    if k == |ps| || ps[k].state == Unused then k else FirstUnused(ps, k + 1)
  }

  /** fork by slot i; `kstack` is whether kalloc gave a kernel stack.  A pid is used up,
      and stays in the slot, even when it did not. */
  function Forked(t: Table, i: int, kstack: bool): (r: Table)
    requires 0 <= i < |t.procs|
  {
    var n := FirstUnused(t.procs, 0);
    if n == |t.procs| then t
    else
      var old' := t.procs[n];
      Table(t.procs[n := if kstack then Proc(Runnable, t.nextpid, i, old'.chan, old'.killed)
                         else Proc(Unused, t.nextpid, old'.parent, old'.chan, old'.killed)], t.nextpid + 1)
  }

  // ---------- exit ----------

  /** exit's loop over the first k slots: children of slot i go to init, which is woken
      if one of them is a zombie. */
  function Adopt(ps: seq<Proc>, i: int, init: int, k: nat): (r: seq<Proc>)
    requires k <= |ps|
    ensures |r| == |ps|
  {
    if k == 0 then ps
    else
      var q := Adopt(ps, i, init, k - 1);
      if q[k-1].parent == i then
        var a := q[k-1 := q[k-1].(parent := init)];
        if q[k-1].state == Zombie then Wake(a, OnSlot(init)) else a
      else q
  }

  function Exited(t: Table, i: int, init: int): (r: Table)
    requires 0 <= i < |t.procs|
  {
    var ps := Adopt(Wake(t.procs, OnSlot(t.procs[i].parent)), i, init, |t.procs|);
    Table(ps[i := ps[i].(state := Zombie)], t.nextpid)
  }

  // ---------- wait ----------

  /** The first zombie child of slot i from k on. */
  function FirstZombie(ps: seq<Proc>, i: int, k: nat): (r: nat)
    requires k <= |ps|
    ensures k <= r <= |ps| && (r < |ps| ==> ps[r].parent == i && ps[r].state == Zombie)
    ensures forall j :: k <= j < r ==> !(ps[j].parent == i && ps[j].state == Zombie)
    decreases |ps| - k
  {
    if k == |ps| || (ps[k].parent == i && ps[k].state == Zombie) then k else FirstZombie(ps, i, k + 1)
  }

  predicate HasKids(ps: seq<Proc>, i: int) {
    exists j :: 0 <= j < |ps| && ps[j].parent == i
  }

  datatype Waited = Reaped(t: Table, pid: int) | NoChild | Sleeps(t: Table)

  function Reap(ps: seq<Proc>, z: int): (r: seq<Proc>)
    requires 0 <= z < |ps|
  {
    ps[z := Proc(Unused, 0, NOBODY, ps[z].chan, false)]
  }

  /** One pass of wait's loop by slot i, up to returning or going to sleep. */
  function WaitPass(t: Table, i: int): (r: Waited)
    requires 0 <= i < |t.procs|
  {
    var z := FirstZombie(t.procs, i, 0);
    if z < |t.procs| then Reaped(Table(Reap(t.procs, z), t.nextpid), t.procs[z].pid)
    else if !HasKids(t.procs, i) || t.procs[i].killed then NoChild
    else Sleeps(Table(t.procs[i := t.procs[i].(state := Sleeping, chan := OnSlot(i))], t.nextpid))
  }

  // ---------- kill ----------

  /** The first slot with that pid, used or not. */
  function FindPid(ps: seq<Proc>, pid: int, k: nat): (r: nat)
    requires k <= |ps|
    ensures k <= r <= |ps| && (r < |ps| ==> ps[r].pid == pid)
    ensures forall j :: k <= j < r ==> ps[j].pid != pid
    decreases |ps| - k
  {
    if k == |ps| || ps[k].pid == pid then k else FindPid(ps, pid, k + 1)
  }

  function Killed(t: Table, pid: int): (r: Table) {
    var k := FindPid(t.procs, pid, 0);
    if k == |t.procs| then t
    else
      var p := t.procs[k];
      Table(t.procs[k := p.(killed := true, state := if p.state == Sleeping then Runnable else p.state)], t.nextpid)
  }

  // ---------- the system ----------

  /** The table with the pids that have exited and those wait has returned. */
  datatype Sys = Sys(t: Table, exited: seq<int>, reaped: seq<int>)

  datatype Step =
    | Fork(i: int, kstack: bool)
    | Exit(i: int)
    | Wait(i: int)
    | Schedule(i: int)             // the scheduler switches to a runnable process
    | Yield(i: int)
    | SleepOn(i: int, n: int)      // sleep on some other channel
    | WakeupOn(n: int)
    | Kill(pid: int)

  /** The table's own slots are the processes; init never exits (exit panics). */
  predicate Enabled(s: Sys, init: int, a: Step) {
    match a
    case Fork(i, _) => 0 <= i < |s.t.procs| && s.t.procs[i].state == Running
    case Exit(i) => 0 <= i < |s.t.procs| && s.t.procs[i].state == Running && i != init
    case Wait(i) => 0 <= i < |s.t.procs| && s.t.procs[i].state == Running
    case Schedule(i) => 0 <= i < |s.t.procs| && s.t.procs[i].state == Runnable
    case Yield(i) => 0 <= i < |s.t.procs| && s.t.procs[i].state == Running
    case SleepOn(i, _) => 0 <= i < |s.t.procs| && s.t.procs[i].state == Running
    case WakeupOn(_) => true
    case Kill(_) => true
  }

  function SetState(t: Table, i: int, st: PState, c: Chan): (r: Table)
    requires 0 <= i < |t.procs|
  {
    Table(t.procs[i := t.procs[i].(state := st, chan := c)], t.nextpid)
  }

  function Do(s: Sys, init: int, a: Step): (r: Sys)
    requires Enabled(s, init, a)
  {
    match a
    case Fork(i, kstack) => s.(t := Forked(s.t, i, kstack))
    case Exit(i) => Sys(Exited(s.t, i, init), s.exited + [s.t.procs[i].pid], s.reaped)
    case Wait(i) =>
      (match WaitPass(s.t, i)
       case Reaped(t, pid) => Sys(t, s.exited, s.reaped + [pid])
       case NoChild => s
       case Sleeps(t) => s.(t := t))
    case Schedule(i) => s.(t := SetState(s.t, i, Running, NoChan))
    case Yield(i) => s.(t := SetState(s.t, i, Runnable, s.t.procs[i].chan))
    case SleepOn(i, n) => s.(t := SetState(s.t, i, Sleeping, Elsewhere(n)))
    case WakeupOn(n) => s.(t := Table(Wake(s.t.procs, Elsewhere(n)), s.t.nextpid))
    case Kill(pid) => s.(t := Killed(s.t, pid))
  }

  // ---------- the invariant ----------

  predicate Alive(p: Proc) { p.state != Unused && p.state != Zombie }

  /** Every process but init has a parent that is neither unused nor a zombie. */
  ghost predicate FamilyOk(ps: seq<Proc>, init: int) {
    && 0 <= init < |ps| && Alive(ps[init]) && ps[init].parent == NOBODY
    && (forall j :: 0 <= j < |ps| ==> (ps[j].state == Unused ==> ps[j].parent == NOBODY))
    && (forall j :: 0 <= j < |ps| && j != init ==> (ps[j].state != Unused ==> ParentOk(ps, j)))
  }

  predicate ParentOk(ps: seq<Proc>, j: int)
    requires 0 <= j < |ps|
  {
    0 <= ps[j].parent < |ps| && ps[j].parent != j && Alive(ps[ps[j].parent])
  }

  predicate InWait(p: Proc, i: int) { p.state == Sleeping && p.chan == OnSlot(i) }

  /** Nobody sleeps in wait while one of their children is a zombie, and only slot i
      ever sleeps on slot i. */
  ghost predicate WaitersOk(ps: seq<Proc>) {
    && (forall j :: 0 <= j < |ps| ==> (ps[j].state == Zombie && 0 <= ps[j].parent < |ps| ==> !InWait(ps[ps[j].parent], ps[j].parent)))
    && (forall i :: 0 <= i < |ps| ==> (ps[i].state == Sleeping && ps[i].chan.OnSlot? ==> ps[i].chan == OnSlot(i)))
  }

  /** Pids in use are fresh and distinct; the exited ones not yet reaped are exactly the
      zombies, and none is reaped twice. */
  ghost predicate PidsOk(s: Sys) {
    && (forall j :: 0 <= j < |s.t.procs| ==> (s.t.procs[j].state != Unused ==> 0 < s.t.procs[j].pid < s.t.nextpid))
    && (forall i, j :: 0 <= i < j < |s.t.procs| ==>
          (s.t.procs[i].state != Unused && s.t.procs[j].state != Unused ==> s.t.procs[i].pid != s.t.procs[j].pid))
    && Distinct(s.exited) && Distinct(s.reaped) && 0 < s.t.nextpid
    && (forall x :: x in s.reaped ==> x in s.exited)
    && (forall x :: x in s.exited ==> 0 < x < s.t.nextpid)
    && (forall j :: 0 <= j < |s.t.procs| ==> PidOf(s, s.t.procs[j]))
    && (forall x :: x in s.exited ==> x in s.reaped || IsZombie(s.t.procs, x))
  }

  predicate PidOf(s: Sys, p: Proc) {
    && (p.state == Zombie ==> p.pid in s.exited && p.pid !in s.reaped)
    && (Alive(p) ==> p.pid !in s.exited)
  }

  predicate IsZombie(ps: seq<Proc>, x: int) {
    exists j :: 0 <= j < |ps| && ps[j].state == Zombie && ps[j].pid == x
  }

  ghost predicate Inv(s: Sys, init: int) {
    FamilyOk(s.t.procs, init) && WaitersOk(s.t.procs) && PidsOk(s)
  }

  // ---------- changes that keep life and family ----------

  predicate SameLife(p: Proc, q: Proc) {
    q.pid == p.pid && q.parent == p.parent && (Alive(q) <==> Alive(p)) && (q.state == Zombie <==> p.state == Zombie)
  }

  ghost predicate AllSameLife(ps: seq<Proc>, qs: seq<Proc>) {
    |qs| == |ps| && forall j :: 0 <= j < |ps| ==> SameLife(ps[j], qs[j])
  }

  lemma SameLifeKeeps(s: Sys, init: int, qs: seq<Proc>)
    requires FamilyOk(s.t.procs, init) && PidsOk(s) && AllSameLife(s.t.procs, qs)
    ensures FamilyOk(qs, init) && PidsOk(s.(t := Table(qs, s.t.nextpid)))
  {
    var ps, r := s.t.procs, s.(t := Table(qs, s.t.nextpid));
    assert forall j :: 0 <= j < |ps| ==> SameLife(ps[j], qs[j]);
    forall j | 0 <= j < |ps| && j != init && qs[j].state != Unused ensures ParentOk(qs, j) {
      assert ParentOk(ps, j);
    }
    forall j | 0 <= j < |ps| ensures PidOf(r, qs[j]) {
      assert PidOf(s, ps[j]);
    }
    forall x | x in s.exited ensures x in s.reaped || IsZombie(qs, x) {
      if x !in s.reaped {
        var j :| 0 <= j < |ps| && ps[j].state == Zombie && ps[j].pid == x;
        assert qs[j].state == Zombie && qs[j].pid == x;
      }
    }
  }

  /** Nobody newly asleep in wait. */
  ghost predicate NoNewWaiter(ps: seq<Proc>, qs: seq<Proc>) {
    |qs| == |ps| && forall j :: 0 <= j < |ps| ==> (qs[j].state == Sleeping && qs[j].chan.OnSlot? ==> ps[j].state == Sleeping && ps[j].chan == qs[j].chan)
  }

  lemma QuietKeeps(s: Sys, init: int, qs: seq<Proc>)
    requires Inv(s, init) && AllSameLife(s.t.procs, qs) && NoNewWaiter(s.t.procs, qs)
    ensures Inv(s.(t := Table(qs, s.t.nextpid)), init)
  {
    hide FamilyOk, PidsOk;
    SameLifeKeeps(s, init, qs);
  }

  lemma SetStateQuiet(s: Sys, init: int, i: int, st: PState, c: Chan)
    requires Inv(s, init) && 0 <= i < |s.t.procs| && Alive(s.t.procs[i])
    requires st == Running || st == Runnable || (st == Sleeping && c.Elsewhere?)
    ensures Inv(s.(t := SetState(s.t, i, st, c)), init)
  {
    hide Inv;
    QuietKeeps(s, init, SetState(s.t, i, st, c).procs);
  }

  lemma WakeQuiet(s: Sys, init: int, c: Chan)
    requires Inv(s, init)
    ensures Inv(s.(t := Table(Wake(s.t.procs, c), s.t.nextpid)), init)
  {
    hide Inv;
    QuietKeeps(s, init, Wake(s.t.procs, c));
  }

  lemma KillQuiet(s: Sys, init: int, pid: int)
    requires Inv(s, init)
    ensures Inv(s.(t := Killed(s.t, pid)), init)
  {
    hide Inv;
    QuietKeeps(s, init, Killed(s.t, pid).procs);
  }

  // ---------- one slot changes ----------

  /** A slot goes from unused to a child of a live process, or stays unused. */
  lemma NewProcFamily(ps: seq<Proc>, init: int, n: int, q: Proc)
    requires FamilyOk(ps, init) && 0 <= n < |ps| && ps[n].state == Unused
    requires q.state != Zombie && (q.state == Unused ==> q.parent == NOBODY)
    requires q.state != Unused ==> 0 <= q.parent < |ps| && q.parent != n && Alive(ps[q.parent])
    ensures FamilyOk(ps[n := q], init)
  {
    var qs := ps[n := q];
    forall j | 0 <= j < |ps| && j != init && qs[j].state != Unused ensures ParentOk(qs, j) {
      if j != n {
        assert ParentOk(ps, j);
      }
    }
  }

  lemma NewProcPids(s: Sys, n: int, q: Proc)
    requires PidsOk(s) && 0 <= n < |s.t.procs| && s.t.procs[n].state == Unused && q.state != Zombie
    requires q.pid == s.t.nextpid
    ensures PidsOk(s.(t := Table(s.t.procs[n := q], s.t.nextpid + 1)))
  {
    var ps, qs := s.t.procs, s.t.procs[n := q];
    var r := s.(t := Table(qs, s.t.nextpid + 1));
    assert forall j :: 0 <= j < |ps| && j != n ==> qs[j] == ps[j];
    forall j | 0 <= j < |ps| ensures PidOf(r, qs[j]) {
      assert PidOf(s, ps[j]);
    }
    ZombiesStay(ps, n, q, s.exited, s.reaped);
  }

  lemma ZombiesStay(ps: seq<Proc>, n: int, q: Proc, exited: seq<int>, reaped: seq<int>)
    requires 0 <= n < |ps| && forall x :: x in exited ==> x in reaped || IsZombie(ps, x)
    requires ps[n].state == Zombie ==> ps[n].pid in reaped
    ensures forall x :: x in exited ==> x in reaped || IsZombie(ps[n := q], x)
  {
    forall x | x in exited && x !in reaped ensures IsZombie(ps[n := q], x) {
      var j :| 0 <= j < |ps| && ps[j].state == Zombie && ps[j].pid == x;
      assert ps[n := q][j].state == Zombie && ps[n := q][j].pid == x;
    }
  }

  lemma UnusedHasNoParent(ps: seq<Proc>, init: int, n: int)
    requires FamilyOk(ps, init) && 0 <= n < |ps| && ps[n].state == Unused
    ensures ps[n].parent == NOBODY
  {
  }

  lemma NewProcWaiters(ps: seq<Proc>, n: int, q: Proc)
    requires WaitersOk(ps) && 0 <= n < |ps| && q.state != Zombie && q.state != Sleeping
    ensures WaitersOk(ps[n := q])
  {
  }

  lemma ForkKeeps(s: Sys, init: int, i: int, kstack: bool)
    requires Inv(s, init) && Enabled(s, init, Fork(i, kstack))
    ensures Inv(s.(t := Forked(s.t, i, kstack)), init)
  {
    hide FamilyOk, PidsOk, WaitersOk;
    var ps, n := s.t.procs, FirstUnused(s.t.procs, 0);
    if n < |ps| {
      var q := Forked(s.t, i, kstack).procs[n];
      UnusedHasNoParent(ps, init, n);
      NewProcFamily(ps, init, n, q);
      NewProcPids(s, n, q);
      NewProcWaiters(ps, n, q);
    }
  }

  // ---------- wait ----------

  lemma WaitSleepKeeps(s: Sys, init: int, i: int)
    requires Inv(s, init) && Enabled(s, init, Wait(i)) && WaitPass(s.t, i).Sleeps?
    ensures Inv(s.(t := WaitPass(s.t, i).t), init)
  {
    hide FamilyOk, PidsOk;
    SameLifeKeeps(s, init, WaitPass(s.t, i).t.procs);
  }

  lemma ReapFamily(ps: seq<Proc>, init: int, z: int)
    requires FamilyOk(ps, init) && 0 <= z < |ps| && ps[z].state == Zombie
    ensures FamilyOk(Reap(ps, z), init)
  {
    var qs := Reap(ps, z);
    forall j | 0 <= j < |ps| && j != init && qs[j].state != Unused ensures ParentOk(qs, j) {
      assert ParentOk(ps, j);
    }
  }

  lemma ReapPids(s: Sys, z: int)
    requires PidsOk(s) && 0 <= z < |s.t.procs| && s.t.procs[z].state == Zombie
    ensures PidsOk(Sys(Table(Reap(s.t.procs, z), s.t.nextpid), s.exited, s.reaped + [s.t.procs[z].pid]))
  {
    var ps, pid := s.t.procs, s.t.procs[z].pid;
    var qs := Reap(ps, z);
    var r := Sys(Table(qs, s.t.nextpid), s.exited, s.reaped + [pid]);
    assert PidOf(s, ps[z]);
    forall j | 0 <= j < |ps| ensures PidOf(r, qs[j]) {
      assert PidOf(s, ps[j]);
    }
    ZombiesStay(ps, z, qs[z], s.exited, r.reaped);
  }

  lemma ReapKeeps(s: Sys, init: int, z: int)
    requires Inv(s, init) && 0 <= z < |s.t.procs| && s.t.procs[z].state == Zombie
    ensures Inv(Sys(Table(Reap(s.t.procs, z), s.t.nextpid), s.exited, s.reaped + [s.t.procs[z].pid]), init)
  {
    hide FamilyOk, PidsOk;
    ReapFamily(s.t.procs, init, z);
    ReapPids(s, z);
  }

  // ---------- exit ----------

  predicate WokenAtMost(p: Proc, q: Proc, c: Chan) {
    q.pid == p.pid && q.chan == p.chan && q.killed == p.killed && (q.state == p.state || (p.state == Sleeping && p.chan == c && q.state == Runnable))
  }

  /** What exit's loop does to one slot. */
  predicate Adopted(p: Proc, q: Proc, i: int, init: int, reached: bool) {
    WokenAtMost(p, q, OnSlot(init)) && q.parent == if reached && p.parent == i then init else p.parent
  }

  predicate ZombieChildBelow(ps: seq<Proc>, i: int, k: int)
    requires k <= |ps|
  {
    exists z :: 0 <= z < k && ps[z].parent == i && ps[z].state == Zombie
  }

  /** After k slots: those below k adopted, and init awake if a zombie was among them. */
  lemma {:induction false} AdoptSlot(ps: seq<Proc>, i: int, init: int, k: nat, j: nat)
    requires k <= |ps| && j < |ps| && i != init
    ensures Adopted(ps[j], Adopt(ps, i, init, k)[j], i, init, j < k)
  {
    if k > 0 {
      AdoptSlot(ps, i, init, k - 1, j);
      AdoptSlot(ps, i, init, k - 1, k - 1);
    }
  }

  lemma {:induction false} AdoptWakes(ps: seq<Proc>, i: int, init: int, k: nat, j: nat)
    requires k <= |ps| && j < |ps| && i != init && ZombieChildBelow(ps, i, k)
    ensures var q := Adopt(ps, i, init, k)[j]; !(q.state == Sleeping && q.chan == OnSlot(init))
  {
    if k > 0 {
      AdoptSlot(ps, i, init, k - 1, k - 1);
      if ZombieChildBelow(ps, i, k - 1) {
        AdoptWakes(ps, i, init, k - 1, j);
        AdoptSlot(ps, i, init, k - 1, j);
      }
    }
  }

  /** The table after exit, slot by slot. */
  lemma ExitedSlot(t: Table, i: int, init: int, j: nat)
    requires 0 <= i < |t.procs| && j < |t.procs| && i != init
    ensures var p, q := t.procs[j], Exited(t, i, init).procs[j];
            && q.pid == p.pid && q.chan == p.chan && q.killed == p.killed && q.parent == (if p.parent == i then init else p.parent)
            && (j == i ==> q.state == Zombie)
            && (j != i ==> q.state == p.state || (p.state == Sleeping && q.state == Runnable))
            && (j != i && q.state == Sleeping ==> q.chan != OnSlot(t.procs[i].parent))
            && (j != i && q.state == Sleeping && ZombieChildBelow(t.procs, i, |t.procs|) ==> q.chan != OnSlot(init))
  {
    var w := Wake(t.procs, OnSlot(t.procs[i].parent));
    AdoptSlot(w, i, init, |w|, j);
    if ZombieChildBelow(t.procs, i, |t.procs|) {
      var z :| 0 <= z < |t.procs| && t.procs[z].parent == i && t.procs[z].state == Zombie;
      assert w[z].parent == i && w[z].state == Zombie;
      AdoptWakes(w, i, init, |w|, j);
    }
  }

  lemma ExitFamily(t: Table, i: int, init: int)
    requires FamilyOk(t.procs, init) && 0 <= i < |t.procs| && i != init && Alive(t.procs[i])
    ensures FamilyOk(Exited(t, i, init).procs, init)
  {
    hide Exited;
    var ps, qs := t.procs, Exited(t, i, init).procs;
    ExitedSize(t, i, init);
    ExitedSlot(t, i, init, init);
    forall j | 0 <= j < |ps|
      ensures qs[j].state == Unused ==> qs[j].parent == NOBODY
      ensures j != init && qs[j].state != Unused ==> ParentOk(qs, j)
    {
      ExitedSlot(t, i, init, j);
      if j != init && qs[j].state != Unused {
        assert ParentOk(ps, j);
        ExitedSlot(t, i, init, ps[j].parent);
      }
    }
  }

  lemma ExitedSize(t: Table, i: int, init: int)
    requires 0 <= i < |t.procs|
    ensures |Exited(t, i, init).procs| == |t.procs| && Exited(t, i, init).nextpid == t.nextpid
  {
  }

  lemma ExitWaiters(t: Table, i: int, init: int)
    requires FamilyOk(t.procs, init) && WaitersOk(t.procs) && 0 <= i < |t.procs| && i != init && Alive(t.procs[i])
    ensures WaitersOk(Exited(t, i, init).procs)
  {
    hide Exited;
    var ps, qs := t.procs, Exited(t, i, init).procs;
    ExitedSize(t, i, init);
    assert ParentOk(ps, i);
    forall j | 0 <= j < |ps| && qs[j].state == Zombie && 0 <= qs[j].parent < |ps|
      ensures !InWait(qs[qs[j].parent], qs[j].parent)
    {
      ExitedSlot(t, i, init, j);
      ExitedSlot(t, i, init, qs[j].parent);
      if j != i && ps[j].parent == i {
        assert ZombieChildBelow(ps, i, |ps|);
      }
    }
    forall j | 0 <= j < |ps| && qs[j].state == Sleeping && qs[j].chan.OnSlot? ensures qs[j].chan == OnSlot(j) {
      ExitedSlot(t, i, init, j);
    }
  }

  lemma ExitPids(s: Sys, i: int, init: int)
    requires PidsOk(s) && 0 <= i < |s.t.procs| && i != init && Alive(s.t.procs[i])
    ensures PidsOk(Sys(Exited(s.t, i, init), s.exited + [s.t.procs[i].pid], s.reaped))
  {
    hide Exited;
    var ps, qs := s.t.procs, Exited(s.t, i, init).procs;
    var r := Sys(Exited(s.t, i, init), s.exited + [ps[i].pid], s.reaped);
    ExitedSize(s.t, i, init);
    ExitedSlot(s.t, i, init, i);
    assert PidOf(s, ps[i]);
    forall j | 0 <= j < |ps| ensures PidOf(r, qs[j]) && qs[j].pid == ps[j].pid && (qs[j].state == Unused <==> ps[j].state == Unused) {
      ExitedSlot(s.t, i, init, j);
      assert PidOf(s, ps[j]);
    }
    forall x | x in r.exited ensures x in r.reaped || IsZombie(qs, x) {
      if x == ps[i].pid {
        assert qs[i].state == Zombie && qs[i].pid == x;
      } else if x !in r.reaped {
        var j :| 0 <= j < |ps| && ps[j].state == Zombie && ps[j].pid == x;
        ExitedSlot(s.t, i, init, j);
        assert qs[j].state == Zombie && qs[j].pid == x;
      }
    }
  }

  // ---------- runs ----------

  lemma StepKeeps(s: Sys, init: int, a: Step)
    requires Inv(s, init) && Enabled(s, init, a)
    ensures Inv(Do(s, init, a), init)
  {
    hide FamilyOk, WaitersOk, PidsOk, Exited, WaitPass, Forked, Killed;
    match a
    case Fork(i, kstack) => ForkKeeps(s, init, i, kstack);
    case Exit(i) =>
      ExitFamily(s.t, i, init);
      ExitWaiters(s.t, i, init);
      ExitPids(s, i, init);
    case Wait(i) => WaitKeeps(s, init, i);
    case Schedule(i) => SetStateQuiet(s, init, i, Running, NoChan);
    case Yield(i) => SetStateQuiet(s, init, i, Runnable, s.t.procs[i].chan);
    case SleepOn(i, n) => SetStateQuiet(s, init, i, Sleeping, Elsewhere(n));
    case WakeupOn(n) => WakeQuiet(s, init, Elsewhere(n));
    case Kill(pid) => KillQuiet(s, init, pid);
  }

  lemma WaitKeeps(s: Sys, init: int, i: int)
    requires Inv(s, init) && Enabled(s, init, Wait(i))
    ensures Inv(Do(s, init, Wait(i)), init)
  {
    hide Inv, Reap;
    var z := FirstZombie(s.t.procs, i, 0);
    if z < |s.t.procs| {
      ReapKeeps(s, init, z);
    } else if WaitPass(s.t, i).Sleeps? {
      WaitSleepKeeps(s, init, i);
    }
  }

  ghost predicate Runs(s: Sys, init: int, acts: seq<Step>)
    decreases |acts|
  {
    acts == [] || (Enabled(s, init, acts[0]) && Runs(Do(s, init, acts[0]), init, acts[1..]))
  }

  ghost function After(s: Sys, init: int, acts: seq<Step>): Sys
    requires Runs(s, init, acts)
    decreases |acts|
  {
    if acts == [] then s else After(Do(s, init, acts[0]), init, acts[1..])
  }

  lemma {:induction false} RunKeeps(s: Sys, init: int, acts: seq<Step>)
    requires Inv(s, init) && Runs(s, init, acts)
    ensures Inv(After(s, init, acts), init)
    decreases |acts|
  {
    hide Inv, Do, Enabled;
    if acts != [] {
      StepKeeps(s, init, acts[0]);
      RunKeeps(Do(s, init, acts[0]), init, acts[1..]);
    }
  }

  /** After userinit: init in slot 0 with pid 1, every other slot unused. */
  function Boot(): (s: Sys)
    ensures |s.t.procs| == NPROC && s.t.nextpid == 2 && s.exited == [] && s.reaped == []
    ensures s.t.procs[0] == Proc(Runnable, 1, NOBODY, NoChan, false)
    ensures forall j :: 0 < j < NPROC ==> s.t.procs[j] == Proc(Unused, 0, NOBODY, NoChan, false)
  {
    Sys(Table([Proc(Runnable, 1, NOBODY, NoChan, false)] + seq(NPROC - 1, _ => Proc(Unused, 0, NOBODY, NoChan, false)), 2), [], [])
  }

  /** Over every run from boot, whenever ptable.lock is free: each process but init has
      a parent that is neither unused nor a zombie; no process sleeps in wait while a
      child of theirs is a zombie; and each exited process is reaped at most once, a
      zombie until then. */
  lemma ProcessRuns(acts: seq<Step>)
    requires Runs(Boot(), 0, acts)
    ensures var s := After(Boot(), 0, acts);
            var ps := s.t.procs;
            && (forall j :: 0 < j < |ps| && ps[j].state != Unused ==>
                  0 <= ps[j].parent < |ps| && ps[ps[j].parent].state != Unused && ps[ps[j].parent].state != Zombie)
            && (forall j :: 0 <= j < |ps| && ps[j].state == Zombie && 0 <= ps[j].parent < |ps| ==>
                  !(ps[ps[j].parent].state == Sleeping && ps[ps[j].parent].chan == OnSlot(ps[j].parent)))
            && Distinct(s.reaped) && Distinct(s.exited) && (forall x :: x in s.reaped ==> x in s.exited)
            && (forall x :: x in s.exited ==> x in s.reaped || IsZombie(ps, x))
            && (forall j :: 0 <= j < |ps| && ps[j].state == Zombie ==> ps[j].pid in s.exited && ps[j].pid !in s.reaped)
  {
    hide Runs, After;
    BootInv();
    RunKeeps(Boot(), 0, acts);
    InvMeans(After(Boot(), 0, acts), 0);
  }

  lemma BootInv()
    ensures Inv(Boot(), 0)
  {
  }

  lemma InvMeans(s: Sys, init: int)
    requires Inv(s, init)
    ensures forall j :: 0 <= j < |s.t.procs| && j != init && s.t.procs[j].state != Unused ==> ParentOk(s.t.procs, j)
    ensures forall j :: 0 <= j < |s.t.procs| && s.t.procs[j].state == Zombie && 0 <= s.t.procs[j].parent < |s.t.procs| ==>
              !InWait(s.t.procs[s.t.procs[j].parent], s.t.procs[j].parent)
    ensures Distinct(s.reaped) && Distinct(s.exited) && (forall x :: x in s.reaped ==> x in s.exited)
    ensures forall x :: x in s.exited ==> x in s.reaped || IsZombie(s.t.procs, x)
    ensures forall j :: 0 <= j < |s.t.procs| && s.t.procs[j].state == Zombie ==> s.t.procs[j].pid in s.exited && s.t.procs[j].pid !in s.reaped
  {
    forall j | 0 <= j < |s.t.procs| && s.t.procs[j].state == Zombie ensures s.t.procs[j].pid in s.exited && s.t.procs[j].pid !in s.reaped {
      assert PidOf(s, s.t.procs[j]);
    }
  }

  // ---------- kill and unused slots ----------

  /** Pids were handed out before, and no unused slot has the pid of a used one.  An
      unused slot has pid 0, or the pid allocproc left when it got no kernel stack. */
  ghost predicate StaleOk(t: Table) {
    && (forall j :: 0 <= j < |t.procs| ==> 0 <= t.procs[j].pid < t.nextpid)
    && (forall i, j :: 0 <= i < |t.procs| && 0 <= j < |t.procs| && t.procs[i].state != Unused && t.procs[j].state == Unused ==>
          t.procs[i].pid != t.procs[j].pid)
  }

  predicate SameUse(p: Proc, q: Proc) {
    q.pid == p.pid && (q.state == Unused <==> p.state == Unused)
  }

  lemma SameUseKeepsStale(t: Table, qs: seq<Proc>)
    requires StaleOk(t) && |qs| == |t.procs| && forall j :: 0 <= j < |qs| ==> SameUse(t.procs[j], qs[j])
    ensures StaleOk(Table(qs, t.nextpid))
  {
    assert forall j :: 0 <= j < |qs| ==> SameUse(t.procs[j], qs[j]);
  }

  lemma ForkKeepsStale(t: Table, i: int, kstack: bool)
    requires StaleOk(t) && 0 <= i < |t.procs| && 0 < t.nextpid
    ensures StaleOk(Forked(t, i, kstack))
  {
  }

  lemma ReapKeepsStale(t: Table, z: int)
    requires StaleOk(t) && 0 <= z < |t.procs| && 0 < t.nextpid
    requires forall j :: 0 <= j < |t.procs| ==> (t.procs[j].state != Unused ==> 0 < t.procs[j].pid)
    ensures StaleOk(Table(Reap(t.procs, z), t.nextpid))
  {
  }

  lemma ExitKeepsStale(t: Table, i: int, init: int)
    requires StaleOk(t) && 0 <= i < |t.procs| && i != init && t.procs[i].state != Unused
    ensures StaleOk(Exited(t, i, init))
  {
    hide Exited, StaleOk;
    ExitedSize(t, i, init);
    forall j | 0 <= j < |t.procs| ensures SameUse(t.procs[j], Exited(t, i, init).procs[j]) {
      ExitedSlot(t, i, init, j);
    }
    SameUseKeepsStale(t, Exited(t, i, init).procs);
  }

  lemma WaitKeepsStale(s: Sys, init: int, i: int)
    requires PidsOk(s) && StaleOk(s.t) && Enabled(s, init, Wait(i))
    ensures StaleOk(Do(s, init, Wait(i)).t)
  {
    hide StaleOk, Reap;
    var z := FirstZombie(s.t.procs, i, 0);
    if z < |s.t.procs| {
      ReapKeepsStale(s.t, z);
    } else if WaitPass(s.t, i).Sleeps? {
      SameUseKeepsStale(s.t, WaitPass(s.t, i).t.procs);
    }
  }

  lemma StepKeepsStale(s: Sys, init: int, a: Step)
    requires PidsOk(s) && StaleOk(s.t) && Enabled(s, init, a)
    ensures StaleOk(Do(s, init, a).t)
  {
    hide StaleOk, Exited, WaitPass, Forked, PidsOk, Wake;
    NextpidPositive(s);
    match a
    case Fork(i, kstack) => ForkKeepsStale(s.t, i, kstack);
    case Exit(i) => ExitKeepsStale(s.t, i, init);
    case Wait(i) => WaitKeepsStale(s, init, i);
    case other => SameUseKeepsStale(s.t, Do(s, init, a).t.procs);
  }

  lemma NextpidPositive(s: Sys)
    requires PidsOk(s)
    ensures 0 < s.t.nextpid
  {
  }

  lemma {:induction false} RunKeepsStale(s: Sys, init: int, acts: seq<Step>)
    requires Inv(s, init) && StaleOk(s.t) && Runs(s, init, acts)
    ensures StaleOk(After(s, init, acts).t)
    decreases |acts|
  {
    hide FamilyOk, WaitersOk, PidsOk, StaleOk, Do, Enabled;
    if acts != [] {
      StepKeeps(s, init, acts[0]);
      StepKeepsStale(s, init, acts[0]);
      RunKeepsStale(Do(s, init, acts[0]), init, acts[1..]);
    }
  }

  /** In every state reached from boot, kill(pid) marks a slot that is in use, or none,
      unless some unused slot carries that pid; then it marks an unused one. */
  lemma KillMarksUnusedIff(acts: seq<Step>, pid: int)
    requires Runs(Boot(), 0, acts)
    ensures var ps := After(Boot(), 0, acts).t.procs;
            var k := FindPid(ps, pid, 0);
            (k < |ps| && ps[k].state == Unused) <==> exists j :: 0 <= j < |ps| && ps[j].state == Unused && ps[j].pid == pid
  {
    hide Runs, After, Inv;
    BootInv();
    RunKeepsStale(Boot(), 0, acts);
    var ps := After(Boot(), 0, acts).t.procs;
    var k := FindPid(ps, pid, 0);
    if j :| 0 <= j < |ps| && ps[j].state == Unused && ps[j].pid == pid {
      assert k <= j;
    }
  }

  /** Over every run, killing a process in use marks that process, wakes it if it
      sleeps, and changes nobody else. */
  lemma KillReaches(acts: seq<Step>, j: int)
    requires Runs(Boot(), 0, acts)
    requires 0 <= j < |After(Boot(), 0, acts).t.procs| && After(Boot(), 0, acts).t.procs[j].state != Unused
    ensures var t := After(Boot(), 0, acts).t;
            var r := Killed(t, t.procs[j].pid);
            && |r.procs| == |t.procs| && r.procs[j].killed
            && r.procs[j].state == (if t.procs[j].state == Sleeping then Runnable else t.procs[j].state)
            && (forall i :: 0 <= i < |t.procs| && i != j ==> r.procs[i] == t.procs[i])
  {
    hide Runs, After, FamilyOk, WaitersOk;
    BootInv();
    RunKeeps(Boot(), 0, acts);
    RunKeepsStale(Boot(), 0, acts);
    var t := After(Boot(), 0, acts).t;
    assert FindPid(t.procs, t.procs[j].pid, 0) <= j;
  }

  /** No unused slot is marked. */
  predicate Unmarked(t: Table) {
    forall j :: 0 <= j < |t.procs| && t.procs[j].state == Unused ==> !t.procs[j].killed
  }

  /** A kill that names the pid of an unused slot. */
  ghost predicate NamesUnused(t: Table, a: Step) {
    a.Kill? && exists j :: 0 <= j < |t.procs| && t.procs[j].state == Unused && t.procs[j].pid == a.pid
  }

  lemma KillUnmarkedIff(t: Table, pid: int)
    requires StaleOk(t) && Unmarked(t)
    ensures Unmarked(Killed(t, pid)) <==> !NamesUnused(t, Kill(pid))
  {
    var k := FindPid(t.procs, pid, 0);
    if j :| 0 <= j < |t.procs| && t.procs[j].state == Unused && t.procs[j].pid == pid {
      assert k <= j && t.procs[k].state == Unused;
      assert Killed(t, pid).procs[k].killed;
    }
  }

  lemma ExitKeepsUnmarked(t: Table, i: int, init: int)
    requires Unmarked(t) && 0 <= i < |t.procs| && i != init && t.procs[i].state != Unused
    ensures Unmarked(Exited(t, i, init))
  {
    hide Exited;
    ExitedSize(t, i, init);
    forall j | 0 <= j < |t.procs| && Exited(t, i, init).procs[j].state == Unused ensures !Exited(t, i, init).procs[j].killed {
      ExitedSlot(t, i, init, j);
    }
  }

  /** A step keeps unused slots unmarked exactly when it is not a kill of one. */
  lemma StepMarksIff(s: Sys, init: int, a: Step)
    requires StaleOk(s.t) && Unmarked(s.t) && Enabled(s, init, a)
    ensures Unmarked(Do(s, init, a).t) <==> !NamesUnused(s.t, a)
  {
    hide StaleOk, Exited, Killed;
    match a
    case Exit(i) => ExitKeepsUnmarked(s.t, i, init);
    case Kill(pid) => KillUnmarkedIff(s.t, pid);
    case other =>
  }

  /** No kill of the run names the pid of a slot unused at the time. */
  ghost predicate NamesUsed(s: Sys, init: int, acts: seq<Step>)
    requires Runs(s, init, acts)
    decreases |acts|
  {
    acts == [] || (!NamesUnused(s.t, acts[0]) && NamesUsed(Do(s, init, acts[0]), init, acts[1..]))
  }

  lemma {:induction false} RunKeepsUnmarked(s: Sys, init: int, acts: seq<Step>)
    requires Inv(s, init) && StaleOk(s.t) && Unmarked(s.t) && Runs(s, init, acts) && NamesUsed(s, init, acts)
    ensures Unmarked(After(s, init, acts).t)
    decreases |acts|
  {
    hide FamilyOk, WaitersOk, PidsOk, StaleOk, Do, Enabled, Unmarked, NamesUnused;
    if acts != [] {
      StepKeeps(s, init, acts[0]);
      StepKeepsStale(s, init, acts[0]);
      StepMarksIff(s, init, acts[0]);
      RunKeepsUnmarked(Do(s, init, acts[0]), init, acts[1..]);
    }
  }

  /** Over every run in which no kill names the pid of an unused slot, no unused slot is
      marked, so the child of any fork that follows is not killed. */
  lemma ChildrenBornAlive(acts: seq<Step>, i: int)
    requires Runs(Boot(), 0, acts) && NamesUsed(Boot(), 0, acts) && Enabled(After(Boot(), 0, acts), 0, Fork(i, true))
    ensures var s := After(Boot(), 0, acts);
            var n := FirstUnused(s.t.procs, 0);
            && Unmarked(s.t)
            && (n < |s.t.procs| ==>
                  var child := Do(s, 0, Fork(i, true)).t.procs[n];
                  child.state == Runnable && child.parent == i && child.pid == s.t.nextpid && !child.killed)
  {
    hide Runs, After, Inv, NamesUsed;
    BootInv();
    RunKeepsUnmarked(Boot(), 0, acts);
  }

  /** From boot, kill(0) marks the first unused slot, and the child that init then forks
      into it is killed before it has run. */
  lemma ChildBornKilled()
    ensures var acts := [Schedule(0), Kill(0), Fork(0, true)];
            && Runs(Boot(), 0, acts)
            && var child := After(Boot(), 0, acts).t.procs[1];
            child.state == Runnable && child.parent == 0 && child.killed
  {
    var s0 := Boot();
    var acts := [Schedule(0), Kill(0), Fork(0, true)];
    var s1 := Do(s0, 0, acts[0]);
    FindPidIs(s1.t.procs, 0, 0, 1);
    var s2 := Do(s1, 0, acts[1]);
    FirstUnusedIs(s2.t.procs, 0, 1);
    var s3 := Do(s2, 0, acts[2]);
    assert acts[1..] == [Kill(0), Fork(0, true)] && acts[1..][1..] == [Fork(0, true)] && acts[1..][1..][1..] == [];
    assert Runs(s3, 0, []);
    assert Runs(s2, 0, [Fork(0, true)]);
    assert Runs(s1, 0, [Kill(0), Fork(0, true)]);
    assert After(s2, 0, [Fork(0, true)]) == s3;
    assert After(s1, 0, [Kill(0), Fork(0, true)]) == s3;
  }

  /** A fork that gets no kernel stack leaves its pid in the unused slot, and that is where
      kill finds it. */
  lemma StalePidKilled()
    ensures var acts := [Schedule(0), Fork(0, false)];
            && Runs(Boot(), 0, acts)
            && var ps := After(Boot(), 0, acts).t.procs;
            |ps| == NPROC && ps[1].state == Unused && ps[1].pid == 2 && FindPid(ps, 2, 0) == 1
  {
    var s0 := Boot();
    var acts := [Schedule(0), Fork(0, false)];
    var s1 := Do(s0, 0, acts[0]);
    FirstUnusedIs(s1.t.procs, 0, 1);
    var s2 := Do(s1, 0, acts[1]);
    FindPidIs(s2.t.procs, 2, 0, 1);
    assert acts[1..] == [Fork(0, false)] && acts[1..][1..] == [];
    assert Runs(s2, 0, []);
    assert Runs(s1, 0, [Fork(0, false)]);
    assert After(s1, 0, [Fork(0, false)]) == s2;
  }

  lemma {:induction false} FindPidIs(ps: seq<Proc>, pid: int, k: nat, n: nat)
    requires k <= n <= |ps| && (n < |ps| ==> ps[n].pid == pid) && forall j :: k <= j < n ==> ps[j].pid != pid
    ensures FindPid(ps, pid, k) == n
    decreases n - k
  {
    if k < n {
      FindPidIs(ps, pid, k + 1, n);
    }
  }

  lemma {:induction false} FirstUnusedIs(ps: seq<Proc>, k: nat, n: nat)
    requires k <= n <= |ps| && (n < |ps| ==> ps[n].state == Unused) && forall j :: k <= j < n ==> ps[j].state != Unused
    ensures FirstUnused(ps, k) == n
    decreases n - k
  {
    if k < n {
      FirstUnusedIs(ps, k + 1, n);
    }
  }
}
