/** From the disk mkfs writes, in the format of fs.h, through any history of file
    operations and crashes. */
module DiskBoot {
  import opened Params
  import opened Blocks
  import opened FsSpec
  import opened FsData
  import opened FsOps
  import opened FsRuns
  import opened DiskFormat
  import opened DiskRuns
  import opened DiskHistory
  import opened CrashFiles
  import opened Mkfs
  import L = LogSpec

  // ---------- what is stored leaves the log alone ----------

  lemma {:induction false} BitsKeepLow(sb: Super, d: L.Disk, bits: seq<bool>, n: nat, k: nat)
    requires Mountable(sb, d) && n <= |bits| == sb.size && k < InodeStart(sb)
    ensures k < |d| == |StoreBits(sb, d, bits, n)| && StoreBits(sb, d, bits, n)[k] == d[k]
    decreases n
  {
    hide SetBit, BitOf, Bytes;
    if n > 0 {
      BitsKeepLow(sb, d, bits, n - 1, k);
    }
  }

  lemma {:induction false} InodesKeepLow(sb: Super, d: L.Disk, ino: seq<Inode>, n: nat, k: nat)
    requires Mountable(sb, d) && InodesFit(sb, ino) && n <= |ino| && k < InodeStart(sb)
    ensures k < |d| == |StoreInodes(sb, d, ino, n)| && StoreInodes(sb, d, ino, n)[k] == d[k]
    decreases n
  {
    hide PutInode, GetInode, Bytes, InodeFits;
    if n > 0 {
      InodesKeepLow(sb, d, ino, n - 1, k);
      UpdatedFits(sb, InodeOn(sb, StoreInodes(sb, d, ino, n - 1), n - 1), ino, n - 1);
    }
  }

  lemma {:induction false} DataKeepsLow(sb: Super, d: L.Disk, blocks: seq<Block>, n: nat, k: nat)
    requires Mountable(sb, d) && BlocksFit(sb, blocks) && DataStart(sb) <= n <= |blocks| && k < InodeStart(sb)
    ensures k < |d| == |StoreData(sb, d, blocks, n)| && StoreData(sb, d, blocks, n)[k] == d[k]
    decreases n
  {
    hide Bytes;
    if n > DataStart(sb) {
      DataKeepsLow(sb, d, blocks, n - 1, k);
    }
  }

  lemma StoreKeepsLow(sb: Super, d: L.Disk, fs: Fs, k: nat)
    requires Mountable(sb, d) && Storable(sb, fs) && k < InodeStart(sb)
    ensures k < |d| == |Store(sb, d, fs)| && Store(sb, d, fs)[k] == d[k]
  {
    hide StoreBits, StoreInodes, StoreData, Bytes, InodeFits;
    BitsKeepLow(sb, d, fs.bits, sb.size, k);
    var d1 := StoreBits(sb, d, fs.bits, sb.size);
    InodesKeepLow(sb, d1, fs.ino, sb.ninodes, k);
    DataKeepsLow(sb, StoreInodes(sb, d1, fs.ino, sb.ninodes), fs.blocks, sb.size, k);
  }

  // ---------- the first disk ----------

  function Zeroes(n: nat): (d: L.Disk)
    ensures |d| == n && forall k :: 0 <= k < n ==> d[k] == Zero()
  {
    seq(n, _ => Zero())
  }

  lemma ZeroesMountable(sb: Super)
    requires DataStart(sb) <= sb.size
    ensures Mountable(sb, Zeroes(sb.size))
  {
  }

  lemma {:induction false} AppendsMeta(fs: Fs, own: seq<Owner>, apps: seq<Append>)
    requires Good(fs, own) && AllTight(fs) && AppendsOk(|fs.ino|, apps) && AppendAll(fs, apps).Running?
    ensures MetaKept(fs, AppendAll(fs, apps).fs)
    decreases |apps|
  {
    hide Inv, FileOk, AllTight, Content, PutFrom;
    InvShape(fs, own);
    if apps != [] {
      var i, data := apps[0].i, apps[0].data;
      PutMeta(fs, own, i, fs.ino[i].size, data);
      var own1 := AppendRefines(fs, own, i, data);
      AppendsMeta(Appended(fs, i, data).fs, own1, apps[1..]);
    }
  }

  /** What mkfs was asked to write: sizes, the root directory's inode, and the appends. */
  datatype Plan = Plan(sb: Super, root: int, apps: seq<Append>)

  /** It fits the disk, the log has room for its header, and the root directory does not
      end on a block boundary. */
  ghost predicate PlanOk(p: Plan) {
    && DataStart(p.sb) <= p.sb.size <= W32 && 0 < p.sb.nlog && 0 <= p.root < p.sb.ninodes && AppendsOk(p.sb.ninodes, p.apps)
    && MadeFs(DataStart(p.sb), p.sb.size, p.sb.ninodes, p.root, p.apps).Running?
    && |Mkfs.Written(p.apps, p.root)| % BSIZE != 0
  }

  ghost function MadeImage(p: Plan): (fs: Fs)
    requires PlanOk(p)
    ensures Shape(fs) && |fs.ino| == p.sb.ninodes
  {
    MadeFs(DataStart(p.sb), p.sb.size, p.sb.ninodes, p.root, p.apps).fs
  }

  lemma MadeMeta(p: Plan)
    requires PlanOk(p)
    ensures MetaKept(Blank(DataStart(p.sb), p.sb.size, p.sb.ninodes), MadeImage(p))
  {
    hide AppendAll, Blank, Inv, FileOk;
    BlankGood(DataStart(p.sb), p.sb.size, p.sb.ninodes);
    BlankTight(DataStart(p.sb), p.sb.size, p.sb.ninodes);
    AppendsMeta(Blank(DataStart(p.sb), p.sb.size, p.sb.ninodes), BlankOwners(DataStart(p.sb), p.sb.size), p.apps);
  }

  lemma MadeStorable(p: Plan) returns (own: seq<Owner>)
    requires PlanOk(p)
    ensures Storable(p.sb, MadeImage(p)) && Good(MadeImage(p), own)
  {
    hide MadeFs, Inv, FileOk, Mkfs.Written, InodeFits;
    own := MadeIsGoodIff(DataStart(p.sb), p.sb.size, p.sb.ninodes, p.root, p.apps);
    MadeMeta(p);
    GoodFits(p.sb, MadeImage(p), own);
    assert BlocksFit(p.sb, MadeImage(p).blocks);
  }

  lemma MadeIsStorable(p: Plan)
    requires PlanOk(p)
    ensures Storable(p.sb, MadeImage(p))
  {
    var own := MadeStorable(p);
  }

  /** The disk mkfs writes over zeroed sectors. */
  ghost function MadeDisk(p: Plan): (d: L.Disk)
    requires PlanOk(p)
  {
    ZeroesMountable(p.sb);
    MadeIsStorable(p);
    Store(p.sb, Zeroes(p.sb.size), MadeImage(p))
  }

  lemma ZeroHead()
    ensures L.HeadOk(Zero()) && L.ReadHead(Zero()) == []
  {
    ZeroWords(0);
  }

  /** It is mountable with an empty log, and stands for the image. */
  lemma MadeDiskIs(p: Plan) returns (own: seq<Owner>)
    requires PlanOk(p)
    ensures Good(MadeImage(p), own)
    ensures var d := MadeDisk(p);
            |d| == p.sb.size && Mountable(p.sb, d) && DiskFormat.Image(p.sb, d) == MadeImage(p) && L.Quiet(LogArea(p.sb), d)
  {
    hide MadeImage, Storable, Good, Store, PlanOk, Mountable, DiskFormat.Image, Word, Zero;
    PlanSizes(p);
    own := MadeStorable(p);
    ZeroesMountable(p.sb);
    StoreReadsBack(p.sb, Zeroes(p.sb.size), MadeImage(p));
    StoreKeepsLow(p.sb, Zeroes(p.sb.size), MadeImage(p), 2);
    ZeroHead();
  }

  lemma PlanSizes(p: Plan)
    requires PlanOk(p)
    ensures 2 + p.sb.nlog < DataStart(p.sb) <= p.sb.size <= W32 && 0 < p.sb.nlog
  {
  }

  /** From the disk mkfs writes, over every history of groups of file operations, each
      finished or cut by a crash at any block write: the disk is mountable, no block is
      shared, no file has a hole, and the files are what the committed operations make
      of the files mkfs was given. */
  lemma FromMkfs(p: Plan, gs: seq<Group>) returns (own: seq<Owner>)
    requires PlanOk(p) && AllFit(p.sb, MadeDisk(p), gs)
    ensures var d, xs := MadeDisk(p), Txns(p.sb, MadeDisk(p), gs);
            && Mountable(p.sb, d) && L.Quiet(LogArea(p.sb), d)
            && (forall i :: 0 <= i < |gs| ==> L.EventOk(LogArea(p.sb), |d|, Events(xs)[i]))
            && var r := L.Exec(LogArea(p.sb), d, Events(xs));
            && Mountable(p.sb, r) && Good(DiskFormat.Image(p.sb, r), own) && OpsOk(p.sb.ninodes, Committed(xs))
            && Contents(DiskFormat.Image(p.sb, r)) == PlainRun(Contents(MadeImage(p)), Devices(MadeImage(p)), Committed(xs))
  {
    hide *;
    PlanSizes(p);
    var own0 := MadeDiskIs(p);
    own := FilesOnDiskSurvive(p.sb, MadeDisk(p), gs, own0);
  }
}
