/** Files over a disk that crashes: the write-ahead log under the file system.  The
    on-disk format is any function from the disk to a file system that reads only home
    blocks, so what is said here holds for every layout of bitmap and inodes. */
module CrashFiles {
  import opened FsSpec
  import opened FsOps
  import opened FsRuns
  import L = LogSpec

  type Format = L.Disk -> Fs

  ghost predicate ReadsHome(l: L.Layout, dec: Format) {
    forall a, b :: L.HomeEqual(l, a, b) ==> dec(a) == dec(b)
  }

  /** A transaction: its fate in the log, and the file operations it was made for. */
  datatype Txn = Txn(e: L.Event, ops: seq<Op>)

  /** The blocks the transaction logs are what its operations make of the disk. */
  ghost predicate Does(dec: Format, t: L.Disk, x: Txn) {
    && L.Listed(x.e.h, x.e.vals, t) && Shape(dec(t)) && OpsOk(|dec(t).ino|, x.ops)
    && Run(dec(t), x.ops) == Running(dec(L.Installed(t, x.e.h, x.e.vals)))
  }

  function Events(xs: seq<Txn>): (es: seq<L.Event>)
    ensures |es| == |xs| && forall i :: 0 <= i < |xs| ==> es[i] == xs[i].e
  {
    seq(|xs|, i requires 0 <= i < |xs| => xs[i].e)
  }

  /** Each transaction does its operations on the disk its predecessors left. */
  ghost predicate AllDo(l: L.Layout, dec: Format, t: L.Disk, xs: seq<Txn>)
    decreases |xs|
  {
    xs == [] ||
    (L.EventOk(l, |t|, xs[0].e) && Does(dec, t, xs[0]) && AllDo(l, dec, L.LogicalEvent(l, t, xs[0].e), xs[1..]))
  }

  /** The header reached the disk. */
  predicate Commits(e: L.Event) { e.Done? || e.k > |e.h| }

  /** The operations of the transactions that committed. */
  function Committed(xs: seq<Txn>): seq<Op> {
    if xs == [] then [] else (if Commits(xs[0].e) then xs[0].ops else []) + Committed(xs[1..])
  }

  lemma {:induction false} AllDoOk(l: L.Layout, dec: Format, t: L.Disk, xs: seq<Txn>, i: nat)
    requires AllDo(l, dec, t, xs) && i < |xs|
    ensures L.EventOk(l, |t|, Events(xs)[i])
    decreases |xs|
  {
    if i > 0 {
      AllDoOk(l, dec, L.LogicalEvent(l, t, xs[0].e), xs[1..], i - 1);
    }
  }

  lemma {:induction false} PlainRunConcat(files: seq<seq<int>>, devs: seq<bool>, a: seq<Op>, b: seq<Op>)
    requires |devs| == |files| && OpsOk(|files|, a) && OpsOk(|files|, b)
    ensures OpsOk(|files|, a + b) && |PlainRun(files, devs, a)| == |files|
    ensures PlainRun(files, devs, a + b) == PlainRun(PlainRun(files, devs, a), devs, b)
    decreases |a|
  {
    hide Plain;
    if a == [] {
      assert a + b == b;
    } else {
      assert (a + b)[1..] == a[1..] + b;
      PlainRunConcat(Plain(files, devs, a[0]), devs, a[1..], b);
    }
  }

  lemma {:induction false} CommittedOk(l: L.Layout, dec: Format, t: L.Disk, xs: seq<Txn>)
    requires AllDo(l, dec, t, xs) && Shape(dec(t))
    ensures OpsOk(|dec(t).ino|, Committed(xs))
    decreases |xs|
  {
    hide Run, Shape;
    if xs != [] {
      DoesStep(l, dec, t, xs[0]);
      CommittedOk(l, dec, L.LogicalEvent(l, t, xs[0].e), xs[1..]);
    }
  }

  /** One transaction, committed or not, on the disk clients see. */
  lemma DoesStep(l: L.Layout, dec: Format, t: L.Disk, x: Txn)
    requires L.EventOk(l, |t|, x.e) && Does(dec, t, x)
    ensures var r := L.LogicalEvent(l, t, x.e);
            && Shape(dec(r)) && |dec(r).ino| == |dec(t).ino|
            && dec(r) == if Commits(x.e) then Run(dec(t), x.ops).fs else dec(t)
  {
    hide L.Installed, Run, Shape;
  }

  lemma {:induction false} LogicalFiles(l: L.Layout, dec: Format, t: L.Disk, xs: seq<Txn>, own: seq<Owner>) returns (own': seq<Owner>)
    requires AllDo(l, dec, t, xs) && Good(dec(t), own)
    requires forall i :: 0 <= i < |xs| ==> L.EventOk(l, |t|, Events(xs)[i])
    ensures var r := L.Logical(l, t, Events(xs));
            && Good(dec(r), own') && OpsOk(|dec(t).ino|, Committed(xs))
            && Contents(dec(r)) == PlainRun(Contents(dec(t)), Devices(dec(t)), Committed(xs))
    decreases |xs|
  {
    hide Inv, FileOk, Run, Contents, PlainRun, L.LogicalEvent, Shape;
    InvShape(dec(t), own);
    CommittedOk(l, dec, t, xs);
    if xs == [] {
      own' := own;
      PlainNothing(Contents(dec(t)), Devices(dec(t)));
    } else {
      var x, r := xs[0], L.LogicalEvent(l, t, xs[0].e);
      DoesStep(l, dec, t, x);
      CommittedOk(l, dec, r, xs[1..]);
      var own1 := own;
      if Commits(x.e) {
        own1 := RunRefines(dec(t), own, x.ops);
        PlainRunConcat(Contents(dec(t)), Devices(dec(t)), x.ops, Committed(xs[1..]));
      } else {
        assert [] + Committed(xs[1..]) == Committed(xs[1..]);
      }
      assert Events(xs)[1..] == Events(xs[1..]);
      own' := LogicalFiles(l, dec, r, xs[1..], own1);
    }
  }

  lemma PlainNothing(files: seq<seq<int>>, devs: seq<bool>)
    requires |devs| == |files|
    ensures PlainRun(files, devs, []) == files
  {
  }

  /** Over every history of commits and crashes, with crashes during recovery too, the
      file system on disk is good, and its files are what the operations of the
      committed transactions, whole and in order, make of them. */
  lemma FilesSurviveCrashes(l: L.Layout, dec: Format, d: L.Disk, xs: seq<Txn>, own: seq<Owner>) returns (own': seq<Owner>)
    requires L.Quiet(l, d) && ReadsHome(l, dec) && AllDo(l, dec, d, xs) && Good(dec(d), own)
    ensures forall i :: 0 <= i < |xs| ==> L.EventOk(l, |d|, Events(xs)[i])
    ensures var r := L.Exec(l, d, Events(xs));
            && Good(dec(r), own') && OpsOk(|dec(d).ino|, Committed(xs))
            && Contents(dec(r)) == PlainRun(Contents(dec(d)), Devices(dec(d)), Committed(xs))
  {
    hide Inv, FileOk, Run, Contents, PlainRun, L.LogicalEvent, L.ExecEvent, AllDo, L.Quiet;
    forall i | 0 <= i < |xs| ensures L.EventOk(l, |d|, Events(xs)[i]) {
      AllDoOk(l, dec, d, xs, i);
    }
    own' := LogicalFiles(l, dec, d, xs, own);
    assert L.HomeEqual(l, d, d);
    L.RunRefines(l, d, d, Events(xs));
    assert dec(L.Exec(l, d, Events(xs))) == dec(L.Logical(l, d, Events(xs)));
  }
}
