/** The file system on a crashing disk, in the format of fs.h. */
module DiskRuns {
  import opened Params
  import opened Blocks
  import opened FsSpec
  import opened FsData
  import opened FsOps
  import opened FsRuns
  import opened DiskFormat
  import opened CrashFiles
  import L = LogSpec

  // ---------- file operations leave the metadata blocks to the bitmap and inodes ----------

  ghost predicate MetaKept(fs: Fs, f: Fs) {
    && f.meta == fs.meta && |f.bits| == |fs.bits| && |f.blocks| == |fs.blocks| && |f.ino| == |fs.ino|
    && forall b :: 0 <= b < fs.meta && b < |fs.blocks| ==> f.blocks[b] == fs.blocks[b]
  }

  lemma FreeIsData(fs: Fs, own: seq<Owner>, b: int)
    requires Inv(fs, own) && 0 <= b < |fs.bits| && !fs.bits[b]
    ensures fs.meta <= b
  {
    assert BlockOk(fs, own, b);
  }

  lemma HeldIsData(fs: Fs, own: seq<Owner>, i: int, s: int)
    requires Inv(fs, own) && SlotIndex(fs, i, s) && Slot(fs, i, s) != 0
    ensures fs.meta <= Slot(fs, i, s) < |fs.blocks|
  {
    assert SlotOk(fs, own, i, s);
  }

  lemma GetSlotMeta(fs: Fs, own: seq<Owner>, i: int, s: int)
    requires Inv(fs, own) && SlotIndex(fs, i, s) && GetSlot(fs, i, s).Mapped?
    requires s > NDIRECT ==> fs.ino[i].addrs[NDIRECT] != 0
    ensures MetaKept(fs, GetSlot(fs, i, s).fs)
  {
    hide Inv, Word, SetWord;
    InvShape(fs, own);
    if Slot(fs, i, s) == 0 {
      FreeIsData(fs, own, FirstFree(fs.bits, 0));
      if s > NDIRECT {
        HeldIsData(fs, own, i, NDIRECT);
      }
    }
  }

  lemma BmapMeta(fs: Fs, own: seq<Owner>, i: int, bn: int)
    requires Inv(fs, own) && 0 <= i < |fs.ino| && 0 <= bn && Bmap(fs, i, bn).Mapped?
    ensures MetaKept(fs, Bmap(fs, i, bn).fs)
  {
    hide Inv, GetSlot, Grew;
    InvShape(fs, own);
    if bn < NDIRECT {
      GetSlotMeta(fs, own, i, bn);
    } else {
      GetSlotMeta(fs, own, i, NDIRECT);
      var own1 := GetSlotKeeps(fs, own, i, NDIRECT);
      GetSlotMeta(GetSlot(fs, i, NDIRECT).fs, own1, i, bn + 1);
    }
  }

  lemma {:induction false} PutMeta(fs: Fs, own: seq<Owner>, i: int, off: nat, data: seq<int>)
    requires Inv(fs, own) && 0 <= i < |fs.ino| && PutFrom(fs, i, off, data).Done?
    ensures MetaKept(fs, PutFrom(fs, i, off, data).fs)
    decreases |data|
  {
    hide Inv, Wrote, Bmap, Slot, Grew;
    InvShape(fs, own);
    if data != [] {
      var m, r := ChunkLen(off, |data|), Bmap(fs, i, Blk(off));
      BmapMeta(fs, own, i, Blk(off));
      var own1 := BmapKeeps(fs, own, i, Blk(off));
      HeldIsData(r.fs, own1, i, SlotOf(Blk(off)));
      var f := PatchAt(r.fs, r.addr, Off(off), data[..m]);
      var own2 := ChunkWrote(fs, own, i, off, data[..m]);
      PutMeta(f, own2, i, off + m, data[m..]);
    }
  }

  lemma ExecMeta(fs: Fs, own: seq<Owner>, op: Op)
    requires Good(fs, own) && OpOk(|fs.ino|, op) && Exec(fs, op).Running?
    ensures MetaKept(fs, Exec(fs, op).fs)
  {
    hide Inv, PutFrom, Readi, FileOk, Content;
    InvShape(fs, own);
    match op
    case OpWrite(i, off, data) =>
      if Writei(fs, i, off, data).Written? {
        PutMeta(fs, own, i, off, data);
      }
    case OpRead(i, off, n) =>
      if !fs.ino[i].dev {
        ReadiRefines(fs, own, i, off, n);
      } else {
        ReadOfDevice(fs, i, off, n);
      }
    case OpTrunc(i) =>
  }

  lemma {:induction false} RunMeta(fs: Fs, own: seq<Owner>, ops: seq<Op>)
    requires Good(fs, own) && OpsOk(|fs.ino|, ops) && Run(fs, ops).Running?
    ensures MetaKept(fs, Run(fs, ops).fs)
    decreases |ops|
  {
    hide Inv, FileOk, Exec, Contents, Plain;
    InvShape(fs, own);
    if ops != [] {
      ExecMeta(fs, own, ops[0]);
      var own1 := ExecRefines(fs, own, ops[0]);
      RunMeta(Exec(fs, ops[0]).fs, own1, ops[1..]);
    }
  }

  // ---------- what the operations make can be stored ----------

  lemma GoodFits(sb: Super, fs: Fs, own: seq<Owner>)
    requires Good(fs, own) && |fs.ino| == sb.ninodes && |fs.blocks| <= W32
    ensures InodesFit(sb, fs.ino)
  {
    forall i | 0 <= i < |fs.ino| ensures InodeFits(fs.ino[i]) {
      assert FileOk(fs, i);
      forall k | 0 <= k <= NDIRECT ensures 0 <= fs.ino[i].addrs[k] < W32 {
        assert SlotOk(fs, own, i, k);
      }
    }
  }

  lemma KeptIsStorable(sb: Super, d: L.Disk, fs: Fs, own: seq<Owner>)
    requires Mountable(sb, d) && sb.size <= W32 && MetaKept(Image(sb, d), fs) && Good(fs, own) && Shape(fs)
    ensures Storable(sb, fs)
  {
    hide Inv, FileOk, BitsOn, InodesOn, DataOn;
    GoodFits(sb, fs, own);
    assert BlocksFit(sb, fs.blocks);
  }

  /** Whatever a run of operations makes of the file system on a disk, some contents of
      the disk's blocks, the log apart, stand for it. */
  lemma RunCanBeStored(sb: Super, d: L.Disk, own: seq<Owner>, ops: seq<Op>)
    requires Mountable(sb, d) && sb.size <= W32 && Good(Image(sb, d), own)
    requires OpsOk(|Image(sb, d).ino|, ops) && Run(Image(sb, d), ops).Running?
    ensures var fs := Run(Image(sb, d), ops).fs;
            Storable(sb, fs) && Image(sb, Store(sb, d, fs)) == fs
  {
    hide Inv, FileOk, Run, Store, Image, Mountable, Contents, PlainRun, Storable;
    InvShape(Image(sb, d), own);
    var fs := Run(Image(sb, d), ops).fs;
    RunMeta(Image(sb, d), own, ops);
    var own1 := RunRefines(Image(sb, d), own, ops);
    InvShape(fs, own1);
    KeptIsStorable(sb, d, fs, own1);
    StoreReadsBack(sb, d, fs);
  }

  // ---------- crashes ----------

  /** The disk format as a function of every disk. */
  ghost function Decode(sb: Super): (dec: Format) {
    (d: L.Disk) => if Mountable(sb, d) then Image(sb, d) else Fs(0, [], [], [], [])
  }

  /** Bitmap, inodes and data all lie outside the log. */
  lemma DecodeReadsHome(sb: Super)
    ensures ReadsHome(LogArea(sb), Decode(sb))
  {
    forall a, b | L.HomeEqual(LogArea(sb), a, b) ensures Decode(sb)(a) == Decode(sb)(b) {
      SameImage(sb, a, b);
    }
  }

  lemma SameImage(sb: Super, a: L.Disk, b: L.Disk)
    requires L.HomeEqual(LogArea(sb), a, b)
    ensures Mountable(sb, a) <==> Mountable(sb, b)
    ensures Mountable(sb, a) ==> Image(sb, a) == Image(sb, b)
  {
    hide GetInode, BitOf, Bytes, DataStart;
    assert forall k :: InodeStart(sb) <= k < |a| && k < |b| ==> L.Home(LogArea(sb), k);
    if Mountable(sb, a) && Mountable(sb, b) {
      SameParts(sb, a, b);
    }
  }

  lemma SameParts(sb: Super, a: L.Disk, b: L.Disk)
    requires Mountable(sb, a) && Mountable(sb, b) && forall k :: InodeStart(sb) <= k < |a| ==> a[k] == b[k]
    ensures BitsOn(sb, a) == BitsOn(sb, b) && InodesOn(sb, a) == InodesOn(sb, b) && DataOn(sb, a) == DataOn(sb, b)
  {
    hide GetInode, BitOf, Bytes;
  }

  /** Over every history of commits and crashes the disk stays mountable, its bitmap and
      inodes stay consistent with no block shared, and its files are what the operations
      of the committed transactions make of them. */
  lemma DiskSurvivesCrashes(sb: Super, d: L.Disk, xs: seq<Txn>, own: seq<Owner>) returns (own': seq<Owner>)
    requires L.Quiet(LogArea(sb), d) && Mountable(sb, d) && Good(Image(sb, d), own)
    requires AllDo(LogArea(sb), Decode(sb), d, xs)
    ensures forall i :: 0 <= i < |xs| ==> L.EventOk(LogArea(sb), |d|, Events(xs)[i])
    ensures var r := L.Exec(LogArea(sb), d, Events(xs));
            && Mountable(sb, r) && Good(Image(sb, r), own') && OpsOk(|Image(sb, d).ino|, Committed(xs))
            && Contents(Image(sb, r)) == PlainRun(Contents(Image(sb, d)), Devices(Image(sb, d)), Committed(xs))
  {
    hide L.Quiet, L.Exec, AllDo, Inv, FileOk, Contents, PlainRun, Committed, Mountable, Image;
    DecodeReadsHome(sb);
    own' := FilesSurviveCrashes(LogArea(sb), Decode(sb), d, xs, own);
    var r := L.Exec(LogArea(sb), d, Events(xs));
    InvShape(Decode(sb)(r), own');
    assert Mountable(sb, r);
  }
}
