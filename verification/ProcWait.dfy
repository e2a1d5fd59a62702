/** wait over whole runs: what it answers, and that whoever sleeps in it has a child left
    to wake them. */
module ProcWait {
  import opened Params
  import opened ProcSpec

  /** Slot j is in use and a child of slot i. */
  predicate IsKid(ps: seq<Proc>, i: int, j: int) {
    0 <= j < |ps| && ps[j].state != Unused && ps[j].parent == i
  }

  predicate LivingKid(ps: seq<Proc>, i: int, j: int) { IsKid(ps, i, j) && ps[j].state != Zombie }

  predicate ZombieKid(ps: seq<Proc>, i: int, j: int) { IsKid(ps, i, j) && ps[j].state == Zombie }

  /** Whoever sleeps in wait has a living child. */
  ghost predicate Expecting(ps: seq<Proc>) {
    forall i :: 0 <= i < |ps| && InWait(ps[i], i) ==> exists j :: LivingKid(ps, i, j)
  }

  // ---------- every step keeps it ----------

  predicate StaysKid(p: Proc, q: Proc) {
    Alive(p) ==> Alive(q) && q.parent == p.parent
  }

  /** Nobody newly in wait, and every living process stays the living child it was. */
  lemma QuietExpecting(ps: seq<Proc>, qs: seq<Proc>)
    requires Expecting(ps) && |qs| == |ps|
    requires forall i :: 0 <= i < |ps| && InWait(qs[i], i) ==> InWait(ps[i], i)
    requires forall j :: 0 <= j < |ps| ==> StaysKid(ps[j], qs[j])
    ensures Expecting(qs)
  {
    forall i | 0 <= i < |qs| && InWait(qs[i], i) ensures exists j :: LivingKid(qs, i, j) {
      var j :| LivingKid(ps, i, j);
      assert StaysKid(ps[j], qs[j]);
      assert LivingKid(qs, i, j);
    }
  }

  lemma ForkExpecting(t: Table, i: int, kstack: bool)
    requires Expecting(t.procs) && 0 <= i < |t.procs|
    ensures Expecting(Forked(t, i, kstack).procs)
  {
    var ps, qs := t.procs, Forked(t, i, kstack).procs;
    forall w | 0 <= w < |qs| && InWait(qs[w], w) ensures exists j :: LivingKid(qs, w, j) {
      var j :| LivingKid(ps, w, j);
      assert LivingKid(qs, w, j);
    }
  }

  lemma ExitExpecting(t: Table, i: int, init: int)
    requires Expecting(t.procs) && 0 <= i < |t.procs| && i != init && t.procs[i].state == Running
    ensures Expecting(Exited(t, i, init).procs)
  {
    hide Exited;
    var ps, qs := t.procs, Exited(t, i, init).procs;
    ExitedSize(t, i, init);
    forall w | 0 <= w < |qs| && InWait(qs[w], w) ensures exists j :: LivingKid(qs, w, j) {
      ExitedSlot(t, i, init, w);
      var j :| LivingKid(ps, w, j);
      ExitedSlot(t, i, init, j);
      assert LivingKid(qs, w, j);
    }
  }

  lemma KidInUse(ps: seq<Proc>, init: int, i: int, j: int)
    requires FamilyOk(ps, init) && 0 <= i < |ps| && 0 <= j < |ps| && ps[j].parent == i
    ensures IsKid(ps, i, j) && j != i
  {
    if j != init {
      assert ParentOk(ps, j);
    }
  }

  lemma SleepExpecting(t: Table, init: int, i: int)
    requires FamilyOk(t.procs, init) && Expecting(t.procs) && 0 <= i < |t.procs| && WaitPass(t, i).Sleeps?
    ensures Expecting(WaitPass(t, i).t.procs)
  {
    hide FamilyOk;
    var ps, qs := t.procs, WaitPass(t, i).t.procs;
    var j :| 0 <= j < |ps| && ps[j].parent == i;
    KidInUse(ps, init, i, j);
    assert LivingKid(qs, i, j);
    forall w | 0 <= w < |ps| && w != i && InWait(qs[w], w) ensures exists k :: LivingKid(qs, w, k) {
      var k :| LivingKid(ps, w, k);
      assert LivingKid(qs, w, k);
    }
  }

  lemma StepExpecting(s: Sys, init: int, a: Step)
    requires FamilyOk(s.t.procs, init) && Expecting(s.t.procs) && Enabled(s, init, a)
    ensures Expecting(Do(s, init, a).t.procs)
  {
    hide FamilyOk, Expecting, Exited, Forked, Killed, WaitPass, Wake, Reap;
    match a
    case Fork(i, kstack) => ForkExpecting(s.t, i, kstack);
    case Exit(i) => ExitExpecting(s.t, i, init);
    case Wait(i) =>
      ReapedIs(s.t, i);
      if WaitPass(s.t, i).Reaped? {
        QuietExpecting(s.t.procs, WaitPass(s.t, i).t.procs);
      } else if WaitPass(s.t, i).Sleeps? {
        SleepExpecting(s.t, init, i);
      }
    case Kill(pid) =>
      KilledIs(s.t, pid);
      QuietExpecting(s.t.procs, Killed(s.t, pid).procs);
    case other => QuietExpecting(s.t.procs, Do(s, init, a).t.procs);
  }

  lemma ReapedIs(t: Table, i: int)
    requires 0 <= i < |t.procs|
    ensures WaitPass(t, i).Reaped? ==>
              && |WaitPass(t, i).t.procs| == |t.procs|
              && (forall j :: 0 <= j < |t.procs| ==> StaysKid(t.procs[j], WaitPass(t, i).t.procs[j]))
              && (forall j :: 0 <= j < |t.procs| && InWait(WaitPass(t, i).t.procs[j], j) ==> InWait(t.procs[j], j))
  {
  }

  lemma KilledIs(t: Table, pid: int)
    ensures |Killed(t, pid).procs| == |t.procs|
    ensures forall j :: 0 <= j < |t.procs| ==> StaysKid(t.procs[j], Killed(t, pid).procs[j])
    ensures forall j :: 0 <= j < |t.procs| && InWait(Killed(t, pid).procs[j], j) ==> InWait(t.procs[j], j)
  {
  }

  lemma {:induction false} RunExpecting(s: Sys, init: int, acts: seq<Step>)
    requires Inv(s, init) && Expecting(s.t.procs) && Runs(s, init, acts)
    ensures Expecting(After(s, init, acts).t.procs)
    decreases |acts|
  {
    hide FamilyOk, WaitersOk, PidsOk, Expecting, Do, Enabled;
    if acts != [] {
      StepKeeps(s, init, acts[0]);
      StepExpecting(s, init, acts[0]);
      RunExpecting(Do(s, init, acts[0]), init, acts[1..]);
    }
  }

  /** In every reachable state, whoever sleeps in wait has a child that is alive, so
      somebody is left to wake them. */
  lemma SleepersHaveChildren(acts: seq<Step>, i: int)
    requires Runs(Boot(), 0, acts)
    requires 0 <= i < |After(Boot(), 0, acts).t.procs| && InWait(After(Boot(), 0, acts).t.procs[i], i)
    ensures exists j :: LivingKid(After(Boot(), 0, acts).t.procs, i, j)
  {
    hide Runs, After;
    BootInv();
    RunExpecting(Boot(), 0, acts);
  }

  // ---------- what wait answers ----------

  /** Over every run: wait reaps a zombie child if there is one and gives its slot back;
      else it answers -1 exactly when there is no child, or the caller is killed; else it
      sleeps, with a living child. */
  lemma WaitAnswers(acts: seq<Step>, i: int)
    requires Runs(Boot(), 0, acts) && Enabled(After(Boot(), 0, acts), 0, Wait(i))
    ensures var ps := After(Boot(), 0, acts).t.procs;
            match WaitPass(After(Boot(), 0, acts).t, i)
            case Reaped(r, pid) =>
              exists z :: ZombieKid(ps, i, z) && ps[z].pid == pid && |r.procs| == |ps| && r.procs[z].state == Unused
            case NoChild => (forall j :: !ZombieKid(ps, i, j)) && ((forall j :: !IsKid(ps, i, j)) || ps[i].killed)
            case Sleeps(r) =>
              && (forall j :: !ZombieKid(ps, i, j)) && !ps[i].killed && (exists j :: LivingKid(ps, i, j))
              && |r.procs| == |ps| && InWait(r.procs[i], i)
  {
    hide Runs, After, WaitersOk, PidsOk;
    BootInv();
    RunKeeps(Boot(), 0, acts);
    WaitIs(After(Boot(), 0, acts).t, 0, i);
  }

  lemma WaitIs(t: Table, init: int, i: int)
    requires FamilyOk(t.procs, init) && 0 <= i < |t.procs|
    ensures var ps := t.procs;
            match WaitPass(t, i)
            case Reaped(r, pid) =>
              exists z :: ZombieKid(ps, i, z) && ps[z].pid == pid && |r.procs| == |ps| && r.procs[z].state == Unused
            case NoChild => (forall j :: !ZombieKid(ps, i, j)) && ((forall j :: !IsKid(ps, i, j)) || ps[i].killed)
            case Sleeps(r) =>
              && (forall j :: !ZombieKid(ps, i, j)) && !ps[i].killed && (exists j :: LivingKid(ps, i, j))
              && |r.procs| == |ps| && InWait(r.procs[i], i)
  {
    hide FamilyOk;
    var ps := t.procs;
    var z := FirstZombie(ps, i, 0);
    if z < |ps| {
      assert ZombieKid(ps, i, z);
    } else {
      assert forall j :: !ZombieKid(ps, i, j);
      if HasKids(ps, i) {
        var j :| 0 <= j < |ps| && ps[j].parent == i;
        KidInUse(ps, init, i, j);
        assert LivingKid(ps, i, j);
      }
    }
  }
}
