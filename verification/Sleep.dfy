/** sleep and wakeup over spinlocks, one lock operation at a time, for any number of
    processes: waiters that test a condition under a lock and sleep on a channel, and
    signallers that make it true under that lock and then call wakeup. */
module Sleep {

  /** Where a process is.  Every state between two lock operations of sleep(chan, lk),
      wakeup(chan) and their callers. */
  datatype Pc =
    | Out                  // holds nothing
    | InLk                 // holds lk
    | SleepEntered         // in sleep: holds lk, about to acquire ptable.lock
    | SleepBoth            // in sleep: holds both, about to release lk
    | SleepAlone           // in sleep: holds ptable.lock, about to mark itself SLEEPING
    | Switching            // SLEEPING, ptable.lock not yet released by the scheduler
    | Asleep               // SLEEPING, off the CPU
    | Ready                // RUNNABLE after a wakeup
    | Resumed              // back in sleep: holds ptable.lock, clears chan
    | Reacquire            // in sleep: about to acquire lk again
    | WakeLk               // in wakeup with lk held: holds both
    | WakeOut              // in wakeup without lk: holds ptable.lock
    | OtherPt              // holds ptable.lock for something else (kill, yield, fork)

  /** `owes`: has made the condition true and not yet called wakeup1. */
  datatype Proc = Proc(pc: Pc, owes: bool)

  /** A spinlock is free or held by one process (its CPU). */
  datatype Lock = Unlocked | LockedBy(p: int)

  datatype Sys = Sys(procs: seq<Proc>, lk: Lock, pt: Lock, cond: bool)

  predicate HoldsLk(pc: Pc) {
    pc == InLk || pc == SleepEntered || pc == SleepBoth || pc == WakeLk
  }

  predicate HoldsPt(pc: Pc) {
    pc == SleepBoth || pc == SleepAlone || pc == Switching || pc == Resumed || pc == WakeLk || pc == WakeOut || pc == OtherPt
  }

  /** Marked SLEEPING on the channel, or past the point of no return towards it. */
  predicate Sleeping(pc: Pc) {
    pc == SleepAlone || pc == Switching || pc == Asleep
  }

  datatype Step =
    | AcquireLk(p: int)      // acquire(lk) by a caller
    | ReleaseLk(p: int)
    | MakeTrue(p: int)       // under lk; wakeup must follow
    | MakeFalse(p: int)      // under lk, e.g. the condition is consumed
    | CallSleep(p: int)      // the condition was found false under lk
    | SleepAcquirePt(p: int)
    | SleepReleaseLk(p: int)
    | MarkSleeping(p: int)
    | SchedRelease(p: int)   // the scheduler, now on this CPU, releases ptable.lock
    | Dispatch(p: int)       // the scheduler holds ptable.lock and switches to p
    | ResumedRelease(p: int)
    | ReacquireLk(p: int)
    | WakeAcquire(p: int)    // wakeup(chan), with or without lk
    | Wakeup1(p: int)        // the scan over the table
    | WakeRelease(p: int)
    | PtAcquire(p: int)
    | PtKill(p: int, q: int) // kill: a sleeper is made runnable
    | PtRelease(p: int)

  function Enabled(s: Sys, t: Step): bool {
    0 <= t.p < |s.procs| &&
    var pc := s.procs[t.p].pc;
    match t
    case AcquireLk(p) => pc == Out && s.lk == Unlocked
    case ReleaseLk(p) => pc == InLk
    case MakeTrue(p) => pc == InLk
    case MakeFalse(p) => pc == InLk
    case CallSleep(p) => pc == InLk && !s.cond && !s.procs[p].owes
    case SleepAcquirePt(p) => pc == SleepEntered && s.pt == Unlocked
    case SleepReleaseLk(p) => pc == SleepBoth
    case MarkSleeping(p) => pc == SleepAlone
    case SchedRelease(p) => pc == Switching
    case Dispatch(p) => pc == Ready && s.pt == Unlocked
    case ResumedRelease(p) => pc == Resumed
    case ReacquireLk(p) => pc == Reacquire && s.lk == Unlocked
    case WakeAcquire(p) => (pc == InLk || pc == Out) && s.pt == Unlocked
    case Wakeup1(p) => pc == WakeLk || pc == WakeOut
    case WakeRelease(p) => (pc == WakeLk || pc == WakeOut) && !s.procs[p].owes
    case PtAcquire(p) => pc == Out && s.pt == Unlocked
    case PtKill(p, q) => pc == OtherPt && 0 <= q < |s.procs| && s.procs[q].pc == Asleep
    case PtRelease(p) => pc == OtherPt
  }

  function At(s: Sys, p: int, pc: Pc): seq<Proc>
    requires 0 <= p < |s.procs|
  {
    s.procs[p := Proc(pc, s.procs[p].owes)]
  }

  function Awakened(x: Proc): Proc {
    if x.pc == Asleep then Proc(Ready, x.owes) else x
  }

  /** wakeup1: every process SLEEPING on the channel becomes RUNNABLE. */
  function WakeAll(ps: seq<Proc>): (r: seq<Proc>)
    ensures |r| == |ps| && forall i :: 0 <= i < |ps| ==> r[i] == Awakened(ps[i])
  {
    seq(|ps|, i requires 0 <= i < |ps| => Awakened(ps[i]))
  }

  function Do(s: Sys, t: Step): Sys
    requires Enabled(s, t)
  {
    match t
    case AcquireLk(p) => Sys(At(s, p, InLk), LockedBy(p), s.pt, s.cond)
    case ReleaseLk(p) => Sys(At(s, p, Out), Unlocked, s.pt, s.cond)
    case MakeTrue(p) => Sys(s.procs[p := Proc(InLk, true)], s.lk, s.pt, true)
    case MakeFalse(p) => Sys(s.procs, s.lk, s.pt, false)
    case CallSleep(p) => Sys(At(s, p, SleepEntered), s.lk, s.pt, s.cond)
    case SleepAcquirePt(p) => Sys(At(s, p, SleepBoth), s.lk, LockedBy(p), s.cond)
    case SleepReleaseLk(p) => Sys(At(s, p, SleepAlone), Unlocked, s.pt, s.cond)
    case MarkSleeping(p) => Sys(At(s, p, Switching), s.lk, s.pt, s.cond)
    case SchedRelease(p) => Sys(At(s, p, Asleep), s.lk, Unlocked, s.cond)
    case Dispatch(p) => Sys(At(s, p, Resumed), s.lk, LockedBy(p), s.cond)
    case ResumedRelease(p) => Sys(At(s, p, Reacquire), s.lk, Unlocked, s.cond)
    case ReacquireLk(p) => Sys(At(s, p, InLk), LockedBy(p), s.pt, s.cond)
    case WakeAcquire(p) => Sys(At(s, p, if s.procs[p].pc == InLk then WakeLk else WakeOut), s.lk, LockedBy(p), s.cond)
    case Wakeup1(p) => Sys(WakeAll(s.procs[p := Proc(s.procs[p].pc, false)]), s.lk, s.pt, s.cond)
    case WakeRelease(p) => Sys(At(s, p, if s.procs[p].pc == WakeLk then InLk else Out), s.lk, Unlocked, s.cond)
    case PtAcquire(p) => Sys(At(s, p, OtherPt), s.lk, LockedBy(p), s.cond)
    case PtKill(p, q) => Sys(At(s, q, Ready), s.lk, s.pt, s.cond)
    case PtRelease(p) => Sys(At(s, p, Out), s.lk, Unlocked, s.cond)
  }

  function Init(n: nat): (s: Sys)
    ensures |s.procs| == n && s.lk == Unlocked && s.pt == Unlocked && !s.cond
    ensures forall i :: 0 <= i < n ==> s.procs[i] == Proc(Out, false)
  {
    Sys(seq(n, _ => Proc(Out, false)), Unlocked, Unlocked, false)
  }

  ghost predicate Runs(s: Sys, ts: seq<Step>)
    decreases |ts|
  {
    ts == [] || (Enabled(s, ts[0]) && Runs(Do(s, ts[0]), ts[1..]))
  }

  ghost function After(s: Sys, ts: seq<Step>): Sys
    requires Runs(s, ts)
    decreases |ts|
  {
    if ts == [] then s else After(Do(s, ts[0]), ts[1..])
  }

  // ---------- the invariant ----------

  /** Each lock is held by exactly the process whose position says so. */
  ghost predicate LocksOk(s: Sys) {
    && (forall p :: 0 <= p < |s.procs| ==> (HoldsLk(s.procs[p].pc) <==> s.lk == LockedBy(p)))
    && (forall p :: 0 <= p < |s.procs| ==> (HoldsPt(s.procs[p].pc) <==> s.pt == LockedBy(p)))
  }

  ghost predicate Owed(s: Sys) {
    exists q :: 0 <= q < |s.procs| && s.procs[q].owes
  }

  /** Between testing the condition and releasing lk it is still false; a process on
      its way to sleep or asleep under a true condition is owed a wakeup. */
  ghost predicate NoneLost(s: Sys) {
    && (forall p :: 0 <= p < |s.procs| ==> !((s.procs[p].pc == SleepEntered || s.procs[p].pc == SleepBoth) && s.cond))
    && (forall p :: 0 <= p < |s.procs| ==> (Sleeping(s.procs[p].pc) && s.cond ==> Owed(s)))
    && (forall p :: 0 <= p < |s.procs| ==> (s.procs[p].owes ==> CanWake(s.procs[p].pc)))
  }

  /** Whoever owes a wakeup has not gone to sleep themselves. */
  predicate CanWake(pc: Pc) {
    pc == InLk || pc == Out || pc == WakeLk || pc == WakeOut || pc == OtherPt
  }

  // ---------- one process moves ----------

  /** A lock across a move of process p. */
  predicate LockMoves(l: Lock, l': Lock, p: int, had: bool, has: bool) {
    if had == has then l' == l else if has then l == Unlocked && l' == LockedBy(p) else l' == Unlocked
  }

  predicate Moves(s: Sys, p: int, x: Proc, s': Sys) {
    && 0 <= p < |s.procs| && s'.procs == s.procs[p := x]
    && LockMoves(s.lk, s'.lk, p, HoldsLk(s.procs[p].pc), HoldsLk(x.pc))
    && LockMoves(s.pt, s'.pt, p, HoldsPt(s.procs[p].pc), HoldsPt(x.pc))
  }

  lemma MoveKeepsLocks(s: Sys, p: int, x: Proc, s': Sys)
    requires LocksOk(s) && Moves(s, p, x, s')
    ensures LocksOk(s')
  {
    hide HoldsLk, HoldsPt;
  }

  /** What a moving process must respect for no wakeup to be lost. */
  predicate Careful(s: Sys, p: int, x: Proc, s': Sys)
    requires 0 <= p < |s.procs|
  {
    && (x.owes ==> CanWake(x.pc)) && (s.procs[p].owes ==> x.owes)
    && (s'.cond && !s.cond ==> x.owes && s.lk == LockedBy(p))
    && (x.pc == SleepEntered || x.pc == SleepBoth ==> !s'.cond)
    && (Sleeping(x.pc) && !Sleeping(s.procs[p].pc) ==> !s'.cond)
  }

  lemma MoveLosesNone(s: Sys, p: int, x: Proc, s': Sys)
    requires LocksOk(s) && NoneLost(s) && 0 <= p < |s.procs| && s'.procs == s.procs[p := x] && Careful(s, p, x, s')
    ensures NoneLost(s')
  {
    hide HoldsPt;
    if Owed(s) {
      var q :| 0 <= q < |s.procs| && s.procs[q].owes;
      assert s'.procs[q].owes;
    }
    if x.owes {
      assert s'.procs[p].owes;
    }
  }

  /** wakeup1 runs under ptable.lock, so nobody is between releasing lk and being
      marked SLEEPING: everyone on the way to sleep is woken. */
  lemma WakeupKeeps(s: Sys, p: int)
    requires LocksOk(s) && NoneLost(s) && Enabled(s, Wakeup1(p))
    ensures LocksOk(Do(s, Wakeup1(p))) && NoneLost(Do(s, Wakeup1(p)))
  {
  }

  /** The process a step moves, and where to. */
  function Mover(t: Step): int {
    if t.PtKill? then t.q else t.p
  }

  /** Steps of callers and of wakeup. */
  predicate ByCaller(t: Step) {
    t.AcquireLk? || t.ReleaseLk? || t.MakeTrue? || t.MakeFalse? || t.WakeAcquire? || t.WakeRelease?
  }

  /** Steps of kill, yield and fork. */
  predicate ByOther(t: Step) {
    t.PtAcquire? || t.PtKill? || t.PtRelease?
  }

  lemma StepMoves(s: Sys, t: Step)
    requires Enabled(s, t) && !t.Wakeup1?
    ensures 0 <= Mover(t) < |s.procs| && Moves(s, Mover(t), Do(s, t).procs[Mover(t)], Do(s, t))
  {
    hide Do, Enabled, Moves;
    if ByCaller(t) {
      CallerMoves(s, t);
    } else if ByOther(t) {
      OtherMoves(s, t);
    } else {
      SleeperMoves(s, t);
    }
  }

  lemma OtherMoves(s: Sys, t: Step)
    requires Enabled(s, t) && ByOther(t)
    ensures 0 <= Mover(t) < |s.procs| && Moves(s, Mover(t), Do(s, t).procs[Mover(t)], Do(s, t))
  {
  }

  lemma CallerMoves(s: Sys, t: Step)
    requires Enabled(s, t) && ByCaller(t)
    ensures 0 <= Mover(t) < |s.procs| && Moves(s, Mover(t), Do(s, t).procs[Mover(t)], Do(s, t))
  {
    hide WakeAll;
    if t.MakeFalse? {
      assert s.procs[t.p := s.procs[t.p]] == s.procs;
    }
  }

  lemma SleeperMoves(s: Sys, t: Step)
    requires Enabled(s, t) && !ByCaller(t) && !ByOther(t) && !t.Wakeup1?
    ensures 0 <= Mover(t) < |s.procs| && Moves(s, Mover(t), Do(s, t).procs[Mover(t)], Do(s, t))
  {
  }

  lemma StepIsCareful(s: Sys, t: Step)
    requires LocksOk(s) && NoneLost(s) && Enabled(s, t) && !t.Wakeup1?
    ensures 0 <= Mover(t) < |s.procs| && Careful(s, Mover(t), Do(s, t).procs[Mover(t)], Do(s, t))
  {
    hide LocksOk, NoneLost, HoldsPt;
    ProcFacts(s, Mover(t));
  }

  lemma ProcFacts(s: Sys, p: int)
    requires LocksOk(s) && NoneLost(s) && 0 <= p < |s.procs|
    ensures s.procs[p].owes ==> CanWake(s.procs[p].pc)
    ensures HoldsLk(s.procs[p].pc) ==> s.lk == LockedBy(p)
    ensures !((s.procs[p].pc == SleepEntered || s.procs[p].pc == SleepBoth) && s.cond)
  {
  }

  lemma StepKeeps(s: Sys, t: Step)
    requires LocksOk(s) && NoneLost(s) && Enabled(s, t)
    ensures LocksOk(Do(s, t)) && NoneLost(Do(s, t))
  {
    hide LocksOk, NoneLost, Do, Enabled, Careful;
    if t.Wakeup1? {
      WakeupKeeps(s, t.p);
    } else {
      StepMoves(s, t);
      StepIsCareful(s, t);
      var p, r := Mover(t), Do(s, t);
      MoveKeepsLocks(s, p, r.procs[p], r);
      MoveLosesNone(s, p, r.procs[p], r);
    }
  }

  lemma {:induction false} RunKeeps(s: Sys, ts: seq<Step>)
    requires LocksOk(s) && NoneLost(s) && Runs(s, ts)
    ensures LocksOk(After(s, ts)) && NoneLost(After(s, ts))
    decreases |ts|
  {
    hide LocksOk, NoneLost, Do, Enabled;
    if ts != [] {
      StepKeeps(s, ts[0]);
      RunKeeps(Do(s, ts[0]), ts[1..]);
    }
  }

  /** No lost wakeup: in every interleaving, a process SLEEPING on the channel while
      the condition holds is owed a wakeup by some process that has not gone to sleep. */
  lemma NoLostWakeup(n: nat, ts: seq<Step>, p: nat)
    requires Runs(Init(n), ts) && p < |After(Init(n), ts).procs|
    ensures var s := After(Init(n), ts);
            s.cond && (s.procs[p].pc == Asleep || s.procs[p].pc == Switching) ==>
              exists q :: 0 <= q < |s.procs| && s.procs[q].owes && CanWake(s.procs[q].pc)
    ensures var s := After(Init(n), ts);
            forall q :: 0 <= q < |s.procs| && q != p ==>
              !(HoldsLk(s.procs[p].pc) && HoldsLk(s.procs[q].pc)) && !(HoldsPt(s.procs[p].pc) && HoldsPt(s.procs[q].pc))
  {
    RunKeeps(Init(n), ts);
  }
}
