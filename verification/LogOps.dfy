/** begin_op, log_write and end_op as steps of any number of processes.

    Each critical section under log.lock is one step; a process that finds no room
    sleeps on the log and is moved on by the wakeup in end_op.  The properties are
    about every interleaving of such steps. */
module LogOps {
  import opened Params
  import opened Seqs

  /** The fields of `struct log` that the three calls share. */
  datatype LogState = LogState(blocks: seq<int>, outstanding: int, committing: bool)

  datatype Admission = Entered(log: LogState) | MustSleep

  datatype Logged = Ok(log: LogState) | Panic

  datatype Ended = LastOut(log: LogState) | StillBusy(log: LogState) | EndPanic

  function BeginOp(l: LogState): Admission {
    if l.committing then MustSleep
    else if |l.blocks| + (l.outstanding + 1) * MAXOPBLOCKS > LOGSIZE then MustSleep
    else Entered(l.(outstanding := l.outstanding + 1))
  }

  /** `size` is log.size, the number of blocks in the log region. */
  function LogWrite(l: LogState, size: int, b: int): Logged {
    if |l.blocks| >= LOGSIZE || |l.blocks| >= size - 1 then Panic
    else if l.outstanding < 1 then Panic
    else if b in l.blocks then Ok(l)
    else Ok(l.(blocks := l.blocks + [b]))
  }

  function EndOp(l: LogState): Ended {
    var l' := l.(outstanding := l.outstanding - 1);
    if l.committing then EndPanic
    else if l'.outstanding == 0 then LastOut(l'.(committing := true))
    else StillBusy(l')
  }

  function CommitDone(l: LogState): LogState {
    l.(blocks := [], committing := false)
  }

  // ---------- processes ----------

  datatype Phase =
    | Outside                     // not in a file system call
    | Trying                      // in begin_op, about to look at the log
    | Asleep                      // in begin_op, sleeping on the log
    | InOp(used: set<int>)        // between begin_op and end_op
    | Committing                  // in end_op, running commit()

  datatype Sys = Sys(log: LogState, procs: seq<Phase>)

  datatype Step =
    | Call(p: nat) | Try(p: nat) | Log(p: nat, b: int) | End(p: nat) | Finish(p: nat)

  function Init(nprocs: nat): Sys {
    Sys(LogState([], 0, false), seq(nprocs, _ => Outside))
  }

  function Wake(q: Phase): Phase {
    if q.Asleep? then Trying else q
  }

  function WakeAll(ps: seq<Phase>): (r: seq<Phase>)
    ensures |r| == |ps|
  {
    seq(|ps|, i requires 0 <= i < |ps| => Wake(ps[i]))
  }

  /** A step a process may take.  An operation logs at most MAXOPBLOCKS distinct
      blocks; log_write itself is atomic. */
  predicate Enabled(s: Sys, size: int, t: Step) {
    && t.p < |s.procs|
    && match t
       case Call(p) => s.procs[p].Outside?
       case Try(p) => s.procs[p].Trying?
       case Log(p, b) => s.procs[p].InOp? && |s.procs[p].used + {b}| <= MAXOPBLOCKS && LogWrite(s.log, size, b).Ok?
       case End(p) => s.procs[p].InOp? && !EndOp(s.log).EndPanic?
       case Finish(p) => s.procs[p].Committing?
  }

  function Do(s: Sys, size: int, t: Step): Sys
    requires Enabled(s, size, t)
  {
    match t
    case Call(p) => s.(procs := s.procs[p := Trying])
    case Try(p) =>
      (match BeginOp(s.log)
       case MustSleep => s.(procs := s.procs[p := Asleep])
       case Entered(l) => Sys(l, s.procs[p := InOp({})]))
    case Log(p, b) => Sys(LogWrite(s.log, size, b).log, s.procs[p := InOp(s.procs[p].used + {b})])
    case End(p) =>
      (match EndOp(s.log)
       case LastOut(l) => Sys(l, s.procs[p := Committing])
       case StillBusy(l) => Sys(l, WakeAll(s.procs[p := Outside])))
    case Finish(p) => Sys(CommitDone(s.log), WakeAll(s.procs[p := Outside]))
  }

  // ---------- counting over the processes ----------

  function Unused(q: Phase): int { if q.InOp? then MAXOPBLOCKS - |q.used| else 0 }
  function IsOp(q: Phase): int { if q.InOp? then 1 else 0 }
  function IsCommit(q: Phase): int { if q.Committing? then 1 else 0 }

  function Sum(ps: seq<Phase>, f: Phase -> int): int {
    if ps == [] then 0 else Sum(ps[..|ps|-1], f) + f(ps[|ps|-1])
  }

  lemma {:induction false} SumUpdate(ps: seq<Phase>, f: Phase -> int, i: nat, q: Phase)
    requires i < |ps|
    ensures Sum(ps[i := q], f) == Sum(ps, f) - f(ps[i]) + f(q)
    decreases |ps|
  {
    var n := |ps| - 1;
    if i < n {
      SumUpdate(ps[..n], f, i, q);
      assert ps[i := q][..n] == ps[..n][i := q];
    } else {
      assert ps[i := q][..n] == ps[..n];
    }
  }

  lemma {:induction false} SumSame(ps: seq<Phase>, qs: seq<Phase>, f: Phase -> int)
    requires |ps| == |qs| && forall i :: 0 <= i < |ps| ==> f(ps[i]) == f(qs[i])
    ensures Sum(ps, f) == Sum(qs, f)
    decreases |ps|
  {
    if ps != [] {
      SumSame(ps[..|ps|-1], qs[..|qs|-1], f);
    }
  }

  lemma {:induction false} SumBound(ps: seq<Phase>, f: Phase -> int, i: nat)
    requires i < |ps| && forall k :: 0 <= k < |ps| ==> f(ps[k]) >= 0
    ensures Sum(ps, f) >= f(ps[i]) && Sum(ps, f) >= 0
    decreases |ps|
  {
    var n := |ps| - 1;
    if i < n {
      SumBound(ps[..n], f, i);
    } else if n > 0 {
      SumBound(ps[..n], f, 0);
    }
  }

  lemma {:induction false} SumZero(ps: seq<Phase>, f: Phase -> int)
    requires forall k :: 0 <= k < |ps| ==> f(ps[k]) == 0
    ensures Sum(ps, f) == 0
  {
    if ps != [] {
      SumZero(ps[..|ps|-1], f);
    }
  }

  // ---------- the invariant ----------

  ghost predicate SomeoneAsleep(ps: seq<Phase>) {
    exists i :: 0 <= i < |ps| && ps[i].Asleep?
  }

  ghost predicate OpsWithinBudget(s: Sys) {
    forall i :: 0 <= i < |s.procs| && s.procs[i].InOp? ==>
      |s.procs[i].used| <= MAXOPBLOCKS && forall b :: b in s.procs[i].used ==> b in s.log.blocks
  }

  ghost predicate Inv(s: Sys) {
    && |s.log.blocks| + Sum(s.procs, Unused) <= LOGSIZE
    && Distinct(s.log.blocks)
    && OpsWithinBudget(s)
    && s.log.outstanding == Sum(s.procs, IsOp)
    && Sum(s.procs, IsCommit) == (if s.log.committing then 1 else 0)
    && (s.log.committing ==> s.log.outstanding == 0)
    && (!s.log.committing && s.log.outstanding == 0 ==> s.log.blocks == [])
    && (SomeoneAsleep(s.procs) ==> s.log.committing || s.log.outstanding > 0)
  }

  lemma InvInit(nprocs: nat)
    ensures Inv(Init(nprocs))
  {
    var ps := Init(nprocs).procs;
    SumZero(ps, Unused);
    SumZero(ps, IsOp);
    SumZero(ps, IsCommit);
  }

  lemma SumUpdates(ps: seq<Phase>, i: nat, q: Phase)
    requires i < |ps|
    ensures Sum(ps[i := q], Unused) == Sum(ps, Unused) - Unused(ps[i]) + Unused(q)
    ensures Sum(ps[i := q], IsOp) == Sum(ps, IsOp) - IsOp(ps[i]) + IsOp(q)
    ensures Sum(ps[i := q], IsCommit) == Sum(ps, IsCommit) - IsCommit(ps[i]) + IsCommit(q)
  {
    SumUpdate(ps, Unused, i, q);
    SumUpdate(ps, IsOp, i, q);
    SumUpdate(ps, IsCommit, i, q);
  }

  lemma SumWakes(ps: seq<Phase>)
    ensures Sum(WakeAll(ps), Unused) == Sum(ps, Unused)
    ensures Sum(WakeAll(ps), IsOp) == Sum(ps, IsOp)
    ensures Sum(WakeAll(ps), IsCommit) == Sum(ps, IsCommit)
  {
    SumSame(WakeAll(ps), ps, Unused);
    SumSame(WakeAll(ps), ps, IsOp);
    SumSame(WakeAll(ps), ps, IsCommit);
  }

  lemma UnusedNonneg(s: Sys, p: nat)
    requires Inv(s) && p < |s.procs|
    ensures Sum(s.procs, Unused) >= Unused(s.procs[p]) >= 0
    ensures Sum(s.procs, IsOp) >= IsOp(s.procs[p])
    ensures Sum(s.procs, IsCommit) >= IsCommit(s.procs[p])
  {
    SumBound(s.procs, Unused, p);
    SumBound(s.procs, IsOp, p);
    SumBound(s.procs, IsCommit, p);
  }

  lemma TryKeepsInv(s: Sys, size: int, p: nat)
    requires Inv(s) && Enabled(s, size, Try(p))
    ensures Inv(Do(s, size, Try(p)))
  {
    UnusedNonneg(s, p);
    BudgetBound(s);
    if BeginOp(s.log).Entered? {
      SumUpdates(s.procs, p, InOp({}));
      AdmittedWithinBudget(s, p);
    } else {
      SumUpdates(s.procs, p, Asleep);
    }
  }

  lemma AdmittedWithinBudget(s: Sys, p: nat)
    requires OpsWithinBudget(s) && p < |s.procs|
    ensures OpsWithinBudget(s.(procs := s.procs[p := InOp({})]))
    ensures OpsWithinBudget(s.(log := s.log.(outstanding := s.log.outstanding + 1), procs := s.procs[p := InOp({})]))
  {
  }

  /** Unused budget is at most one full budget per outstanding operation. */
  lemma {:induction false} BudgetSum(ps: seq<Phase>)
    ensures Sum(ps, Unused) <= Sum(ps, IsOp) * MAXOPBLOCKS
    decreases |ps|
  {
    if ps != [] {
      BudgetSum(ps[..|ps|-1]);
      var q := ps[|ps|-1];
      var k := Sum(ps[..|ps|-1], IsOp);
      assert (k + 1) * MAXOPBLOCKS == k * MAXOPBLOCKS + MAXOPBLOCKS;
    }
  }

  lemma BudgetBound(s: Sys)
    requires Inv(s)
    ensures BeginOp(s.log).Entered? ==> |s.log.blocks| + Sum(s.procs, Unused) + MAXOPBLOCKS <= LOGSIZE
  {
    BudgetSum(s.procs);
    var k := s.log.outstanding;
    assert (k + 1) * MAXOPBLOCKS == k * MAXOPBLOCKS + MAXOPBLOCKS;
  }

  lemma LogKeepsInv(s: Sys, size: int, p: nat, b: int)
    requires Inv(s) && Enabled(s, size, Log(p, b))
    ensures Inv(Do(s, size, Log(p, b)))
  {
    UnusedNonneg(s, p);
    var used := s.procs[p].used;
    SumUpdates(s.procs, p, InOp(used + {b}));
    var r := Do(s, size, Log(p, b));
    if b in used {
      assert used + {b} == used;
    } else {
      assert |used + {b}| == |used| + 1;
    }
    assert forall c :: c in s.log.blocks ==> c in r.log.blocks;
    assert b in r.log.blocks;
  }

  lemma EndKeepsInv(s: Sys, size: int, p: nat)
    requires Inv(s) && Enabled(s, size, End(p))
    ensures Inv(Do(s, size, End(p)))
  {
    UnusedNonneg(s, p);
    SumUpdates(s.procs, p, Committing);
    SumUpdates(s.procs, p, Outside);
    SumWakes(s.procs[p := Outside]);
    var r := Do(s, size, End(p));
    assert forall i :: 0 <= i < |r.procs| && r.procs[i].InOp? ==> r.procs[i] == s.procs[i];
  }

  lemma FinishKeepsInv(s: Sys, size: int, p: nat)
    requires Inv(s) && Enabled(s, size, Finish(p))
    ensures Inv(Do(s, size, Finish(p)))
  {
    UnusedNonneg(s, p);
    SumUpdates(s.procs, p, Outside);
    SumWakes(s.procs[p := Outside]);
    var r := Do(s, size, Finish(p));
    forall i | 0 <= i < |r.procs| ensures !r.procs[i].InOp? {
      SumBound(s.procs, IsOp, i);
    }
    SumZero(r.procs, Unused);
  }

  lemma StepKeepsInv(s: Sys, size: int, t: Step)
    requires Inv(s) && Enabled(s, size, t)
    ensures Inv(Do(s, size, t))
  {
    match t
    case Call(p) =>
      SumUpdates(s.procs, p, Trying);
      var r := Do(s, size, t);
      assert forall i :: 0 <= i < |r.procs| && i != p ==> r.procs[i] == s.procs[i];
    case Try(p) => TryKeepsInv(s, size, p);
    case Log(p, b) => LogKeepsInv(s, size, p, b);
    case End(p) => EndKeepsInv(s, size, p);
    case Finish(p) => FinishKeepsInv(s, size, p);
  }

  // ---------- runs ----------

  ghost predicate Runs(s: Sys, size: int, ts: seq<Step>)
    decreases |ts|
  {
    ts == [] || (Enabled(s, size, ts[0]) && Runs(Do(s, size, ts[0]), size, ts[1..]))
  }

  ghost function After(s: Sys, size: int, ts: seq<Step>): Sys
    requires Runs(s, size, ts)
    decreases |ts|
  {
    if ts == [] then s else After(Do(s, size, ts[0]), size, ts[1..])
  }

  /** Every interleaving keeps the reservation invariant. */
  lemma {:induction false} RunKeepsInv(s: Sys, size: int, ts: seq<Step>)
    requires Inv(s) && Runs(s, size, ts)
    ensures Inv(After(s, size, ts))
    decreases |ts|
  {
    if ts != [] {
      StepKeepsInv(s, size, ts[0]);
      RunKeepsInv(Do(s, size, ts[0]), size, ts[1..]);
    }
  }

  /** In every reachable state: end_op's panic cannot be reached by a process inside
      an operation, a running commit excludes every operation, an idle log is empty,
      and a sleeper is owed a wakeup by somebody. */
  lemma ReachableLog(nprocs: nat, size: int, ts: seq<Step>)
    requires Runs(Init(nprocs), size, ts)
    ensures var s := After(Init(nprocs), size, ts);
            && |s.log.blocks| + Sum(s.procs, Unused) <= LOGSIZE
            && Distinct(s.log.blocks)
            && (forall p :: 0 <= p < |s.procs| && s.procs[p].InOp? ==> !EndOp(s.log).EndPanic?)
            && (forall p, q :: 0 <= p < |s.procs| && 0 <= q < |s.procs| && s.procs[p].Committing? ==> !s.procs[q].InOp?)
            && (!s.log.committing && s.log.outstanding == 0 ==> s.log.blocks == [])
            && (SomeoneAsleep(s.procs) ==>
                  exists p :: 0 <= p < |s.procs| && (s.procs[p].InOp? || s.procs[p].Committing?))
  {
    InvInit(nprocs);
    RunKeepsInv(Init(nprocs), size, ts);
    var s := After(Init(nprocs), size, ts);
    forall p | 0 <= p < |s.procs| ensures s.procs[p].InOp? ==> !s.log.committing {
      UnusedNonneg(s, p);
    }
    forall p | 0 <= p < |s.procs| ensures s.procs[p].Committing? ==> s.log.committing {
      UnusedNonneg(s, p);
    }
    if s.log.committing {
      FindPhase(s.procs, IsCommit);
    } else if s.log.outstanding > 0 {
      FindPhase(s.procs, IsOp);
    }
  }

  lemma {:induction false} FindPhase(ps: seq<Phase>, f: Phase -> int)
    requires Sum(ps, f) > 0
    ensures exists p :: 0 <= p < |ps| && f(ps[p]) > 0
    decreases |ps|
  {
    var n := |ps| - 1;
    if ps != [] && f(ps[n]) <= 0 {
      FindPhase(ps[..n], f);
      var p :| 0 <= p < n && f(ps[..n][p]) > 0;
      assert ps[p] == ps[..n][p];
    }
  }

  /** In every reachable state begin_op admits an operation exactly when no commit is
      running and the log has room for one more full budget beside those inside. */
  lemma AdmittedIff(nprocs: nat, size: int, ts: seq<Step>)
    requires Runs(Init(nprocs), size, ts)
    ensures var s := After(Init(nprocs), size, ts);
            BeginOp(s.log).Entered? <==>
              && (forall p :: 0 <= p < |s.procs| ==> !s.procs[p].Committing?)
              && |s.log.blocks| + (Sum(s.procs, IsOp) + 1) * MAXOPBLOCKS <= LOGSIZE
  {
    hide Runs, After;
    InvInit(nprocs);
    RunKeepsInv(Init(nprocs), size, ts);
    var s := After(Init(nprocs), size, ts);
    NoneCommits(s.procs);
  }

  /** So an idle log admits whoever comes first. */
  lemma IdleAdmits(nprocs: nat, size: int, ts: seq<Step>)
    requires Runs(Init(nprocs), size, ts)
    requires forall p :: 0 <= p < |After(Init(nprocs), size, ts).procs| ==>
               !After(Init(nprocs), size, ts).procs[p].InOp? && !After(Init(nprocs), size, ts).procs[p].Committing?
    ensures BeginOp(After(Init(nprocs), size, ts).log) == Entered(LogState([], 1, false))
  {
    hide Runs, After;
    InvInit(nprocs);
    RunKeepsInv(Init(nprocs), size, ts);
    var s := After(Init(nprocs), size, ts);
    NoneCommits(s.procs);
    SumZero(s.procs, IsOp);
  }

  lemma {:induction false} NoneCommits(ps: seq<Phase>)
    ensures Sum(ps, IsCommit) >= 0
    ensures Sum(ps, IsCommit) == 0 <==> forall p :: 0 <= p < |ps| ==> !ps[p].Committing?
    decreases |ps|
  {
    if ps != [] {
      NoneCommits(ps[..|ps|-1]);
    }
  }

  /** Whoever is owed for delivers: the step that ends an operation which is not the
      last, and the step that ends a commit, leave nobody asleep. */
  lemma WakeupDelivered(s: Sys, size: int, t: Step)
    requires Enabled(s, size, t)
    requires t.Finish? || (t.End? && EndOp(s.log).StillBusy?)
    ensures !SomeoneAsleep(Do(s, size, t).procs)
  {
  }

  // ---------- when log_write panics ----------

  /** Some run leads to a process with budget to spare whose log_write panics. */
  ghost predicate SpareWritePanics(nprocs: nat, size: int) {
    exists ts: seq<Step>, p: nat, b: int :: SparePanic(nprocs, size, ts, p, b)
  }

  ghost predicate SparePanic(nprocs: nat, size: int, ts: seq<Step>, p: nat, b: int) {
    && Runs(Init(nprocs), size, ts)
    && var s := After(Init(nprocs), size, ts);
    && p < |s.procs| && s.procs[p].InOp? && |s.procs[p].used| < MAXOPBLOCKS
    && LogWrite(s.log, size, b).Panic?
  }

  lemma SpareWriteFits(nprocs: nat, size: int, ts: seq<Step>, p: nat, b: int)
    requires size > LOGSIZE
    ensures !SparePanic(nprocs, size, ts, p, b)
  {
    if SparePanic(nprocs, size, ts, p, b) {
      InvInit(nprocs);
      RunKeepsInv(Init(nprocs), size, ts);
      UnusedNonneg(After(Init(nprocs), size, ts), p);
    }
  }

  lemma {:induction false} RunAppend(s: Sys, size: int, ts: seq<Step>, t: Step)
    requires Runs(s, size, ts) && Enabled(After(s, size, ts), size, t)
    ensures Runs(s, size, ts + [t])
    ensures After(s, size, ts + [t]) == Do(After(s, size, ts), size, t)
    decreases |ts|
  {
    if ts == [] {
      assert ts + [t] == [t] && [t][1..] == [];
      assert Runs(Do(s, size, t), size, []);
    } else {
      RunAppend(Do(s, size, ts[0]), size, ts[1..], t);
      assert (ts + [t])[1..] == ts[1..] + [t];
    }
  }

  /** A process outside enters an empty log that has fewer than three operations. */
  lemma AdmitOne(s: Sys, size: int, p: nat)
    requires s.log.blocks == [] && 0 <= s.log.outstanding < 3 && !s.log.committing
    requires p < |s.procs| && s.procs[p].Outside?
    ensures Enabled(s, size, Call(p)) && Enabled(Do(s, size, Call(p)), size, Try(p))
    ensures var r := Do(Do(s, size, Call(p)), size, Try(p));
            && r.log == s.log.(outstanding := s.log.outstanding + 1)
            && r.procs == s.procs[p := InOp({})]
            && Sum(r.procs, Unused) == Sum(s.procs, Unused) + MAXOPBLOCKS
  {
    var k := s.log.outstanding;
    assert k == 0 || k == 1 || k == 2;
    assert (k + 1) * MAXOPBLOCKS <= LOGSIZE;
    var r := Do(Do(s, size, Call(p)), size, Try(p));
    assert r.procs == s.procs[p := InOp({})];
    SumUpdate(s.procs, Unused, p, InOp({}));
  }

  lemma NothingRun(s: Sys, size: int)
    ensures Runs(s, size, []) && After(s, size, []) == s
  {
  }

  /** Three operations admitted, none of them has logged anything. */
  lemma ThreeAdmitted(nprocs: nat, size: int) returns (ts: seq<Step>)
    requires 3 <= nprocs
    ensures Runs(Init(nprocs), size, ts)
    ensures var s := After(Init(nprocs), size, ts);
            && s.log == LogState([], 3, false)
            && |s.procs| == nprocs && s.procs[0].InOp?
            && Sum(s.procs, Unused) == LOGSIZE
  {
    hide Runs, After, Do, Sum;
    var s := Init(nprocs);
    ts := [];
    NothingRun(s, size);
    SumZero(s.procs, Unused);
    for p := 0 to 3
      invariant Runs(Init(nprocs), size, ts) && After(Init(nprocs), size, ts) == s
      invariant s.log == LogState([], p, false) && |s.procs| == nprocs
      invariant forall i :: 0 <= i < nprocs ==> s.procs[i] == if i < p then InOp({}) else Outside
      invariant Sum(s.procs, Unused) == p * MAXOPBLOCKS
    {
      AdmitOne(s, size, p);
      RunAppend(Init(nprocs), size, ts, Call(p));
      RunAppend(Init(nprocs), size, ts + [Call(p)], Try(p));
      ts := ts + [Call(p)] + [Try(p)];
      s := Do(Do(s, size, Call(p)), size, Try(p));
    }
  }

  /** Three operations inside, m blocks logged, the rest of LOGSIZE still reserved. */
  ghost predicate Filled(s: Sys, nprocs: nat, m: nat) {
    && |s.log.blocks| == m && s.log.outstanding == 3 && !s.log.committing
    && (forall c :: c in s.log.blocks ==> 0 <= c < m)
    && Sum(s.procs, Unused) == LOGSIZE - m
    && |s.procs| == nprocs && 0 < nprocs && s.procs[0].InOp?
  }

  /** One of them can log block m. */
  lemma FillOne(s: Sys, size: int, nprocs: nat, m: nat) returns (p: nat)
    requires OpsWithinBudget(s) && Filled(s, nprocs, m) && m < LOGSIZE && m < size - 1
    ensures Enabled(s, size, Log(p, m)) && Filled(Do(s, size, Log(p, m)), nprocs, m + 1)
  {
    hide Sum;
    FindPhase(s.procs, Unused);
    p :| p < |s.procs| && Unused(s.procs[p]) > 0;
    var used := s.procs[p].used;
    assert m !in used && |used + {m}| == |used| + 1;
    SumUpdate(s.procs, Unused, p, InOp(used + {m}));
  }

  /** The log can be filled to any m that log_write's own check allows, with the
      remaining budget of the three operations making up LOGSIZE. */
  lemma {:induction false} FillTo(nprocs: nat, size: int, m: nat) returns (ts: seq<Step>)
    requires 3 <= nprocs && m <= LOGSIZE && (m > 0 ==> m <= size - 1)
    ensures Runs(Init(nprocs), size, ts) && Filled(After(Init(nprocs), size, ts), nprocs, m)
  {
    hide Runs, After, Sum, Do, Enabled, Init;
    if m == 0 {
      ts := ThreeAdmitted(nprocs, size);
    } else {
      var ts0 := FillTo(nprocs, size, m - 1);
      var s := After(Init(nprocs), size, ts0);
      InvInit(nprocs);
      RunKeepsInv(Init(nprocs), size, ts0);
      var p := FillOne(s, size, nprocs, m - 1);
      RunAppend(Init(nprocs), size, ts0, Log(p, m - 1));
      ts := ts0 + [Log(p, m - 1)];
    }
  }

  /** The reservation protects log_write exactly when the region has room for the
      header as well: mkfs sets the size to LOGSIZE, which is one block short. */
  lemma SpareWritePanicsIff(nprocs: nat, size: int)
    requires 3 <= nprocs
    ensures SpareWritePanics(nprocs, size) <==> size <= LOGSIZE
  {
    if size <= LOGSIZE {
      var m := if size >= 1 then size - 1 else 0;
      var ts := FillTo(nprocs, size, m);
      var s := After(Init(nprocs), size, ts);
      InvInit(nprocs);
      RunKeepsInv(Init(nprocs), size, ts);
      FindPhase(s.procs, Unused);
      var p: nat :| p < |s.procs| && Unused(s.procs[p]) > 0;
      assert SparePanic(nprocs, size, ts, p, 0);
    } else {
      forall ts: seq<Step>, p: nat, b: int ensures !SparePanic(nprocs, size, ts, p, b) {
        SpareWriteFits(nprocs, size, ts, p, b);
      }
    }
  }

  lemma Member<T>(s: set<T>) returns (x: T)
    requires |s| > 0
    ensures x in s
  {
    x :| x in s;
  }

  /** A write inside its operation's budget, where the region has room for the header:
      it panics exactly when the log is full, and then it is a write of a block that
      the operation, its budget used up, has logged before. */
  lemma BudgetedWritePanicsIff(nprocs: nat, size: int, ts: seq<Step>, p: nat, b: int)
    requires size > LOGSIZE && Runs(Init(nprocs), size, ts)
    requires var s := After(Init(nprocs), size, ts);
             p < |s.procs| && s.procs[p].InOp? && |s.procs[p].used + {b}| <= MAXOPBLOCKS
    ensures var s := After(Init(nprocs), size, ts);
            && (LogWrite(s.log, size, b).Panic? <==> |s.log.blocks| == LOGSIZE)
            && (LogWrite(s.log, size, b).Panic? ==> b in s.procs[p].used && |s.procs[p].used| == MAXOPBLOCKS)
  {
    hide Runs, After;
    var s := After(Init(nprocs), size, ts);
    InvInit(nprocs);
    RunKeepsInv(Init(nprocs), size, ts);
    UnusedNonneg(s, p);
    InsideIsCounted(s, p);
    if b !in s.procs[p].used {
      assert |s.procs[p].used + {b}| == |s.procs[p].used| + 1;
    }
  }

  lemma InsideIsCounted(s: Sys, p: nat)
    requires Inv(s) && p < |s.procs| && s.procs[p].InOp?
    ensures s.log.outstanding >= 1 && 0 <= Sum(s.procs, Unused) <= LOGSIZE - |s.log.blocks|
  {
    UnusedNonneg(s, p);
  }

  /** The check comes before absorption, so a full log panics even on a block the
      operation has already logged, however large the region is. */
  lemma AbsorbedWriteCanPanic(nprocs: nat, size: int) returns (ts: seq<Step>, b: int)
    requires 3 <= nprocs && size > LOGSIZE
    ensures Runs(Init(nprocs), size, ts)
    ensures var s := After(Init(nprocs), size, ts);
            |s.procs| > 0 && s.procs[0].InOp? && b in s.procs[0].used && LogWrite(s.log, size, b).Panic?
  {
    ts := FillTo(nprocs, size, LOGSIZE);
    var s := After(Init(nprocs), size, ts);
    InvInit(nprocs);
    RunKeepsInv(Init(nprocs), size, ts);
    UnusedNonneg(s, 0);
    assert |s.procs[0].used| == MAXOPBLOCKS > 0;
    b := Member(s.procs[0].used);
  }
}
