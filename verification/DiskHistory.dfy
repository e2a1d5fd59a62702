/** Groups of file operations on a disk that crashes: each group is one transaction,
    made of the block updates its operations log, and commits or is cut by a crash. */
module DiskHistory {
  import opened Params
  import opened Seqs
  import opened Blocks
  import opened FsSpec
  import opened FsData
  import opened FsOps
  import opened FsRuns
  import opened DiskFormat
  import opened DiskOps
  import opened DiskRuns
  import opened CrashFiles
  import L = LogSpec

  // ---------- the transaction of a list of updates ----------

  /** The list log_write keeps: each block once, in the order of its first update. */
  ghost function Listing(sb: Super, us: seq<Update>): (h: seq<int>)
    requires UpdatesOk(sb, us) && DataStart(sb) <= sb.size
    ensures Distinct(h) && forall i :: 0 <= i < |h| ==> InodeStart(sb) <= h[i] < sb.size
    decreases |us|
  {
    if us == [] then []
    else
      var h, b := Listing(sb, us[..|us|-1]), BlockOf(sb, us[|us|-1]);
      if b in h then h else h + [b]
  }

  lemma {:induction false} AllListed(sb: Super, us: seq<Update>, k: nat)
    requires UpdatesOk(sb, us) && DataStart(sb) <= sb.size && k < |us|
    ensures BlockOf(sb, us[k]) in Listing(sb, us)
    decreases |us|
  {
    hide UpdateOk, BlockOf;
    if k < |us| - 1 {
      AllListed(sb, us[..|us|-1], k);
    }
  }

  lemma {:induction false} OthersStay(sb: Super, d: L.Disk, us: seq<Update>, b: nat)
    requires Mountable(sb, d) && UpdatesOk(sb, us) && b < |d|
    requires forall k :: 0 <= k < |us| ==> BlockOf(sb, us[k]) != b
    ensures AllOnDisk(sb, d, us)[b] == d[b]
    decreases |us|
  {
    hide Mountable, UpdateOk, OnDisk, BlockOf, Image, OnFs;
    if us != [] {
      MountedShows(sb, d);
      UpdateShows(sb, d, Image(sb, d), us[0]);
      assert BlockOf(sb, us[0]) != b;
      forall k | 0 <= k < |us[1..]| ensures BlockOf(sb, us[1..][k]) != b {
        assert us[1..][k] == us[k+1];
      }
      OthersStay(sb, OnDisk(sb, d, us[0]), us[1..], b);
    }
  }

  lemma MountedShows(sb: Super, d: L.Disk)
    requires Mountable(sb, d)
    ensures Shows(sb, d, Image(sb, d)) && DataStart(sb) <= sb.size == |d|
  {
  }

  lemma PickInstalls(d: L.Disk, r: L.Disk, h: seq<int>)
    requires |r| == |d| && Distinct(h) && forall i :: 0 <= i < |h| ==> 0 <= h[i] < |d|
    requires forall b :: 0 <= b < |d| && b !in h ==> r[b] == d[b]
    ensures L.Listed(h, L.Pick(r, h), d) && L.Installed(d, h, L.Pick(r, h)) == r
  {
    hide L.Installed;
    L.InstalledAt(d, h, L.Pick(r, h));
    var now := L.Installed(d, h, L.Pick(r, h));
    forall b | 0 <= b < |d| ensures now[b] == r[b] {
      if b in h {
        var i :| 0 <= i < |h| && h[i] == b;
        assert now[h[i]] == L.Pick(r, h)[i];
      }
    }
  }

  /** Logging the listed blocks as the updates leave them makes all the updates. */
  lemma ListingInstalls(sb: Super, d: L.Disk, us: seq<Update>)
    requires Mountable(sb, d) && UpdatesOk(sb, us)
    ensures DataStart(sb) <= sb.size == |d|
    ensures var h := Listing(sb, us);
            var vals := L.Pick(AllOnDisk(sb, d, us), h);
            L.Listed(h, vals, d) && L.Installed(d, h, vals) == AllOnDisk(sb, d, us)
  {
    hide Mountable, UpdatesOk, L.Installed, AllOnDisk, Listing;
    MountedShows(sb, d);
    var h, r := Listing(sb, us), AllOnDisk(sb, d, us);
    forall b | 0 <= b < |d| && b !in h ensures r[b] == d[b] {
      forall k | 0 <= k < |us| ensures UpdateOk(sb, us[k]) && BlockOf(sb, us[k]) != b {
        OneOk(sb, us, k);
        AllListed(sb, us, k);
      }
      OthersStay(sb, d, us, b);
    }
    PickInstalls(d, r, h);
  }

  lemma OneOk(sb: Super, us: seq<Update>, k: nat)
    requires UpdatesOk(sb, us) && k < |us|
    ensures UpdateOk(sb, us[k])
  {
  }

  // ---------- groups of operations ----------

  /** A group's transaction runs to its end, or is cut after k block writes by a crash,
      with further crashes during recovery. */
  datatype Fate = Finished | Crashed(k: nat, cuts: seq<nat>)
  datatype Group = Group(ops: seq<Op>, fate: Fate)

  ghost function GroupUpdates(sb: Super, t: L.Disk, ops: seq<Op>): (us: seq<Update>) {
    if Mountable(sb, t) && Shape(Image(sb, t)) && OpsOk(|Image(sb, t).ino|, ops) then RunUpdates(Image(sb, t), ops) else []
  }

  /** The transaction the group's operations make on disk t. */
  ghost function TxnOf(sb: Super, t: L.Disk, g: Group): (x: Txn)
    ensures x.ops == g.ops
  {
    var us := GroupUpdates(sb, t, g.ops);
    if Mountable(sb, t) && UpdatesOk(sb, us) then
      var h := Listing(sb, us);
      var vals := L.Pick(AllOnDisk(sb, t, us), h);
      Txn(if g.fate.Finished? then L.Done(h, vals) else L.Cut(h, vals, g.fate.k, g.fate.cuts), g.ops)
    else Txn(L.Done([], []), g.ops)
  }

  /** The operations do not run out of blocks, their blocks fit the log, and a crash
      comes no later than the last write of the commit. */
  ghost predicate GroupFits(sb: Super, t: L.Disk, g: Group)
    requires Mountable(sb, t) && Shape(Image(sb, t))
  {
    var h := TxnOf(sb, t, g).e.h;
    && OpsOk(sb.ninodes, g.ops) && Run(Image(sb, t), g.ops).Running?
    && |h| <= LOGSIZE && |h| < sb.nlog
    && (g.fate.Crashed? ==> g.fate.k <= if h == [] then 0 else 2 * |h| + 2)
  }

  /** The disk clients see after the group. */
  ghost function Next(sb: Super, t: L.Disk, g: Group): (r: L.Disk) {
    var e := TxnOf(sb, t, g).e;
    if L.EventOk(LogArea(sb), |t|, e) then L.LogicalEvent(LogArea(sb), t, e) else t
  }

  ghost predicate AllFit(sb: Super, t: L.Disk, gs: seq<Group>)
    decreases |gs|
  {
    gs == [] ||
    (Mountable(sb, t) && Shape(Image(sb, t)) && GroupFits(sb, t, gs[0]) && AllFit(sb, Next(sb, t, gs[0]), gs[1..]))
  }

  ghost function Txns(sb: Super, t: L.Disk, gs: seq<Group>): (xs: seq<Txn>)
    ensures |xs| == |gs|
    decreases |gs|
  {
    if gs == [] then [] else [TxnOf(sb, t, gs[0])] + Txns(sb, Next(sb, t, gs[0]), gs[1..])
  }

  lemma GoodIsSized(sb: Super, t: L.Disk)
    requires Mountable(sb, t) && sb.size <= W32
    ensures Sized(sb, Image(sb, t)) && Shows(sb, t, Image(sb, t)) && |Image(sb, t).ino| == sb.ninodes
  {
  }

  /** What the updates of a run leave on the disk is the run's file system. */
  lemma RunOnDisk(sb: Super, t: L.Disk, own: seq<Owner>, ops: seq<Op>)
    requires Mountable(sb, t) && sb.size <= W32 && Good(Image(sb, t), own)
    requires OpsOk(|Image(sb, t).ino|, ops) && Run(Image(sb, t), ops).Running?
    ensures Shape(Image(sb, t)) && UpdatesOk(sb, RunUpdates(Image(sb, t), ops))
    ensures Image(sb, AllOnDisk(sb, t, RunUpdates(Image(sb, t), ops))) == Run(Image(sb, t), ops).fs
  {
    hide Inv, FileOk, Run, RunUpdates, Mountable, AllOnDisk, AllOnFs, Contents, PlainRun, UpdatesOk, Sized, BitsOn, DataOn, InodesOn;
    var fs := Image(sb, t);
    InvShape(fs, own);
    GoodIsSized(sb, t);
    RunMakes(sb, fs, own, ops);
    var own1 := RunRefines(fs, own, ops);
    UpdatesShow(sb, t, fs, RunUpdates(fs, ops));
  }

  /** The group's transaction does its operations. */
  lemma GroupDoes(sb: Super, t: L.Disk, own: seq<Owner>, g: Group)
    requires Mountable(sb, t) && sb.size <= W32 && Good(Image(sb, t), own) && Shape(Image(sb, t)) && GroupFits(sb, t, g)
    ensures L.EventOk(LogArea(sb), |t|, TxnOf(sb, t, g).e) && Does(Decode(sb), t, TxnOf(sb, t, g))
  {
    hide Inv, FileOk, Run, RunUpdates, Mountable, Image, AllOnDisk, UpdatesOk, L.Installed;
    GoodIsSized(sb, t);
    MountedShows(sb, t);
    RunOnDisk(sb, t, own, g.ops);
    ListingInstalls(sb, t, GroupUpdates(sb, t, g.ops));
    HomeListing(sb, GroupUpdates(sb, t, g.ops));
  }

  lemma HomeListing(sb: Super, us: seq<Update>)
    requires UpdatesOk(sb, us) && DataStart(sb) <= sb.size
    ensures Distinct(Listing(sb, us)) && LogArea(sb).start + LogArea(sb).size <= sb.size
    ensures forall i :: 0 <= i < |Listing(sb, us)| ==> 0 <= Listing(sb, us)[i] < sb.size && L.Home(LogArea(sb), Listing(sb, us)[i])
  {
    hide Listing;
  }

  lemma NextGood(sb: Super, t: L.Disk, own: seq<Owner>, g: Group) returns (own': seq<Owner>)
    requires Mountable(sb, t) && sb.size <= W32 && Good(Image(sb, t), own) && Shape(Image(sb, t)) && GroupFits(sb, t, g)
    ensures Mountable(sb, Next(sb, t, g)) && Good(Image(sb, Next(sb, t, g)), own') && Shape(Image(sb, Next(sb, t, g)))
  {
    hide Inv, FileOk, Run, Mountable, Image, L.Installed, TxnOf, Contents, PlainRun;
    GroupDoes(sb, t, own, g);
    var x := TxnOf(sb, t, g);
    DoesStep(LogArea(sb), Decode(sb), t, x);
    own' := own;
    if Commits(x.e) {
      own' := RunRefines(Image(sb, t), own, g.ops);
    }
    InvShape(Decode(sb)(Next(sb, t, g)), own');
    ShapeMounted(sb, Next(sb, t, g));
  }

  /** Nothing but a mountable disk decodes to a file system. */
  lemma ShapeMounted(sb: Super, t: L.Disk)
    requires Shape(Decode(sb)(t))
    ensures Mountable(sb, t) && Decode(sb)(t) == Image(sb, t)
  {
  }

  lemma {:induction false} GroupsDo(sb: Super, t: L.Disk, own: seq<Owner>, gs: seq<Group>)
    requires Mountable(sb, t) && sb.size <= W32 && Good(Image(sb, t), own) && AllFit(sb, t, gs)
    ensures AllDo(LogArea(sb), Decode(sb), t, Txns(sb, t, gs))
    decreases |gs|
  {
    hide Inv, FileOk, Mountable, Image, TxnOf, GroupFits, Does, L.EventOk, L.LogicalEvent;
    if gs != [] {
      GroupDoes(sb, t, own, gs[0]);
      var own1 := NextGood(sb, t, own, gs[0]);
      GroupsDo(sb, Next(sb, t, gs[0]), own1, gs[1..]);
      assert Txns(sb, t, gs)[1..] == Txns(sb, Next(sb, t, gs[0]), gs[1..]);
    }
  }

  /** Groups of file operations, each logged as the blocks its operations update and
      each finished or cut by a crash at any block write: afterwards the disk is
      mountable, no block is shared, no file has a hole, and the files are what the
      operations of the groups that committed make of them. */
  lemma FilesOnDiskSurvive(sb: Super, d: L.Disk, gs: seq<Group>, own: seq<Owner>) returns (own': seq<Owner>)
    requires L.Quiet(LogArea(sb), d) && Mountable(sb, d) && sb.size <= W32 && Good(Image(sb, d), own) && AllFit(sb, d, gs)
    ensures forall i :: 0 <= i < |gs| ==> L.EventOk(LogArea(sb), |d|, Events(Txns(sb, d, gs))[i])
    ensures var xs := Txns(sb, d, gs);
            var r := L.Exec(LogArea(sb), d, Events(xs));
            && Mountable(sb, r) && Good(Image(sb, r), own') && OpsOk(|Image(sb, d).ino|, Committed(xs))
            && Contents(Image(sb, r)) == PlainRun(Contents(Image(sb, d)), Devices(Image(sb, d)), Committed(xs))
  {
    hide *;
    GroupsDo(sb, d, own, gs);
    own' := DiskSurvivesCrashes(sb, d, Txns(sb, d, gs), own);
  }
}
