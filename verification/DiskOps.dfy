/** The block updates each file operation makes, in the order the kernel logs them, and
    the file system that stands on the disk afterwards. */
module DiskOps {
  import opened Params
  import opened Blocks
  import opened FsSpec
  import opened FsData
  import opened FsOps
  import opened FsRuns
  import opened DiskFormat
  import opened DiskRuns
  import L = LogSpec

  // ---------- updates ----------

  /** One update of a block that is then handed to log_write: a bit of the bitmap, an
      inode record, or a data block. */
  datatype Update = Bits(b: nat, v: bool) | Record(i: nat, n: Inode) | Data(b: nat, x: Block)

  ghost predicate UpdateOk(sb: Super, u: Update) {
    match u
    case Bits(b, _) => b < sb.size
    case Record(i, n) => i < sb.ninodes && InodeFits(n)
    case Data(b, x) => DataStart(sb) <= b < sb.size && Whole(x)
  }

  ghost predicate UpdatesOk(sb: Super, us: seq<Update>) {
    forall k :: 0 <= k < |us| ==> UpdateOk(sb, us[k])
  }

  /** The block an update is in. */
  ghost function BlockOf(sb: Super, u: Update): (b: nat)
    requires UpdateOk(sb, u) && DataStart(sb) <= sb.size
    ensures InodeStart(sb) <= b < sb.size
  {
    match u
    case Bits(b, _) => BBlock(sb, b)
    case Record(i, _) => IBlock(sb, i)
    case Data(b, _) => b
  }

  ghost function OnDisk(sb: Super, d: L.Disk, u: Update): (r: L.Disk)
    requires Mountable(sb, d) && UpdateOk(sb, u)
    ensures |r| == |d|
  {
    match u
    case Bits(b, v) => WriteBit(sb, d, b, v)
    case Record(i, n) => WriteInode(sb, d, i, Updated(InodeOn(sb, d, i), n))
    case Data(b, x) => d[b := x]
  }

  /** What the update means; the inodes in memory are not touched. */
  ghost function OnFs(fs: Fs, u: Update): (f: Fs)
    ensures f.ino == fs.ino && f.meta == fs.meta
    ensures |f.bits| == |fs.bits| && |f.blocks| == |fs.blocks| && |f.dino| == |fs.dino|
  {
    match u
    case Bits(b, v) => if b < |fs.bits| then fs.(bits := fs.bits[b := v]) else fs
    case Record(i, n) => if i < |fs.dino| then fs.(dino := fs.dino[i := n]) else fs
    case Data(b, x) => if b < |fs.blocks| then fs.(blocks := fs.blocks[b := x]) else fs
  }

  /** The disk stands for fs, whatever inodes are in memory. */
  ghost predicate Shows(sb: Super, d: L.Disk, fs: Fs) {
    && Mountable(sb, d) && fs.meta == DataStart(sb)
    && fs.bits == BitsOn(sb, d) && fs.blocks == DataOn(sb, d) && fs.dino == InodesOn(sb, d)
  }

  lemma UpdateShows(sb: Super, d: L.Disk, fs: Fs, u: Update)
    requires Shows(sb, d, fs) && UpdateOk(sb, u)
    ensures Shows(sb, OnDisk(sb, d, u), OnFs(fs, u))
    ensures forall k :: 0 <= k < |d| && k != BlockOf(sb, u) ==> OnDisk(sb, d, u)[k] == d[k]
  {
    hide Mountable, BitsOn, DataOn, InodesOn, SetBit, PutInode;
    match u
    case Bits(b, v) => WriteBitIs(sb, d, b, v);
    case Record(i, n) => WriteInodeIs(sb, d, i, Updated(InodeOn(sb, d, i), n));
    case Data(b, x) => WriteDataIs(sb, d, b, x);
  }

  ghost function AllOnDisk(sb: Super, d: L.Disk, us: seq<Update>): (r: L.Disk)
    requires Mountable(sb, d) && UpdatesOk(sb, us)
    ensures |r| == |d| && Mountable(sb, r)
    decreases |us|
  {
    if us == [] then d
    else
      UpdateShows(sb, d, Image(sb, d), us[0]);
      AllOnDisk(sb, OnDisk(sb, d, us[0]), us[1..])
  }

  ghost function AllOnFs(fs: Fs, us: seq<Update>): (f: Fs)
    ensures f.ino == fs.ino && f.meta == fs.meta
    ensures |f.bits| == |fs.bits| && |f.blocks| == |fs.blocks| && |f.dino| == |fs.dino|
    decreases |us|
  {
    if us == [] then fs else AllOnFs(OnFs(fs, us[0]), us[1..])
  }

  lemma {:induction false} UpdatesShow(sb: Super, d: L.Disk, fs: Fs, us: seq<Update>)
    requires Shows(sb, d, fs) && UpdatesOk(sb, us)
    ensures Shows(sb, AllOnDisk(sb, d, us), AllOnFs(fs, us))
    decreases |us|
  {
    hide Mountable, BitsOn, DataOn, InodesOn, OnDisk, OnFs, UpdateOk;
    if us != [] {
      UpdateShows(sb, d, fs, us[0]);
      UpdatesShow(sb, OnDisk(sb, d, us[0]), OnFs(fs, us[0]), us[1..]);
    }
  }

  lemma {:induction false} AllOnFsConcat(fs: Fs, us: seq<Update>, vs: seq<Update>)
    ensures AllOnFs(fs, us + vs) == AllOnFs(AllOnFs(fs, us), vs)
    decreases |us|
  {
    hide OnFs;
    if us == [] {
      assert us + vs == vs;
    } else {
      assert (us + vs)[1..] == us[1..] + vs;
      AllOnFsConcat(OnFs(fs, us[0]), us[1..], vs);
    }
  }

  lemma {:induction false} InodesAside(fs: Fs, ino: seq<Inode>, us: seq<Update>)
    ensures AllOnFs(fs.(ino := ino), us) == AllOnFs(fs, us).(ino := ino)
    decreases |us|
  {
    if us != [] {
      InodesAside(OnFs(fs, us[0]), ino, us[1..]);
    }
  }

  /** f, its inodes in memory apart, is fs after the updates. */
  ghost predicate Makes(fs: Fs, f: Fs, us: seq<Update>) {
    AllOnFs(fs, us) == f.(ino := fs.ino)
  }

  lemma MakesTrans(a: Fs, b: Fs, c: Fs, us: seq<Update>, vs: seq<Update>)
    requires Makes(a, b, us) && Makes(b, c, vs)
    ensures Makes(a, c, us + vs)
  {
    AllOnFsConcat(a, us, vs);
    InodesAside(b, a.ino, vs);
  }

  lemma OkConcat(sb: Super, us: seq<Update>, vs: seq<Update>)
    requires UpdatesOk(sb, us) && UpdatesOk(sb, vs)
    ensures UpdatesOk(sb, us + vs)
  {
    hide UpdateOk;
  }

  // ---------- the updates of an operation ----------

  /** A file system of the size the superblock says. */
  ghost predicate Sized(sb: Super, fs: Fs) {
    && DataStart(sb) <= sb.size <= W32 && fs.meta == DataStart(sb)
    && |fs.bits| == |fs.blocks| == sb.size && |fs.ino| == |fs.dino| == sb.ninodes
  }

  /** balloc sets the bit and zeroes the block; a new indirect entry is one more word. */
  ghost function SlotUpdates(fs: Fs, i: int, s: int): (us: seq<Update>)
    requires Shape(fs) && SlotIndex(fs, i, s)
  {
    var b := FirstFree(fs.bits, 0);
    if Slot(fs, i, s) != 0 || b == |fs.bits| then []
    else
      var x := fs.ino[i].addrs[NDIRECT];
      [Bits(b, true), Data(b, Zero())] + if s > NDIRECT then [Data(x, SetWord(fs.blocks[x], s - NDIRECT - 1, b))] else []
  }

  ghost function BmapUpdates(fs: Fs, i: int, bn: int): (us: seq<Update>)
    requires Shape(fs) && 0 <= i < |fs.ino| && 0 <= bn
  {
    if bn < NDIRECT then SlotUpdates(fs, i, bn)
    else if bn < MAXFILE then
      SlotUpdates(fs, i, NDIRECT) +
      match GetSlot(fs, i, NDIRECT)
      case Mapped(f, _) => SlotUpdates(f, i, bn + 1)
      case _ => []
    else []
  }

  /** writei's loop: what bmap does, then the data block. */
  ghost function PutUpdates(fs: Fs, i: int, off: nat, data: seq<int>): (us: seq<Update>)
    requires Shape(fs) && 0 <= i < |fs.ino|
    decreases |data|
  {
    if data == [] then []
    else
      match Bmap(fs, i, Blk(off))
      case Mapped(f, a) =>
        var m := ChunkLen(off, |data|);
        if 0 <= a < |f.blocks| then
          BmapUpdates(fs, i, Blk(off)) + [Data(a, Patch(f.blocks[a], Off(off), data[..m]))]
          + PutUpdates(PatchAt(f, a, Off(off), data[..m]), i, off + m, data[m..])
        else []
      case _ => []
  }

  lemma TakenMakes(sb: Super, fs: Fs, b: int)
    requires Sized(sb, fs) && fs.meta <= b < |fs.blocks|
    ensures var us := [Bits(b, true), Data(b, Zero())];
            Makes(fs, Taken(fs, b), us) && UpdatesOk(sb, us) && Sized(sb, Taken(fs, b))
  {
    var us := [Bits(b, true), Data(b, Zero())];
    assert us[1..] == [Data(b, Zero())] && us[1..][1..] == [];
    assert AllOnFs(OnFs(OnFs(fs, us[0]), us[1]), []) == Taken(fs, b);
    assert AllOnFs(OnFs(fs, us[0]), us[1..]) == Taken(fs, b);
  }

  lemma WordMakes(sb: Super, fs: Fs, x: int, j: nat, b: int)
    requires Sized(sb, fs) && fs.meta <= x < |fs.blocks| && Whole(fs.blocks[x]) && j < NINDIRECT
    ensures var us := [Data(x, SetWord(fs.blocks[x], j, b))];
            Makes(fs, SetIndirect(fs, x, j, b), us) && UpdatesOk(sb, us) && Sized(sb, SetIndirect(fs, x, j, b))
  {
    hide SetWord;
    var us := [Data(x, SetWord(fs.blocks[x], j, b))];
    assert us[1..] == [];
    assert OnFs(fs, us[0]) == SetIndirect(fs, x, j, b);
    assert AllOnFs(OnFs(fs, us[0]), us[1..]) == SetIndirect(fs, x, j, b);
    assert AllOnFs(fs, us) == SetIndirect(fs, x, j, b);
  }

  /** The rest of filling a slot, after balloc. */
  lemma StoreMakes(sb: Super, fs: Fs, own: seq<Owner>, i: int, s: int, b: int)
    requires CanFill(fs, own, i, s, b) && Sized(sb, fs)
    ensures CanAttach(fs, i, s, b)
    ensures var x := fs.ino[i].addrs[NDIRECT];
            var us := if s > NDIRECT then [Data(x, SetWord(fs.blocks[x], s - NDIRECT - 1, b))] else [];
            Makes(Taken(fs, b), Attach(fs, i, s, b), us) && UpdatesOk(sb, us) && Sized(sb, Attach(fs, i, s, b))
  {
    hide Inv, SetWord, Word;
    AttachShape(fs, own, i, s, b);
    FreeIsUnheld(fs, own, b, i);
    TakenMakes(sb, fs, b);
    if s > NDIRECT {
      HeldIsData(fs, own, i, NDIRECT);
      WordMakes(sb, Taken(fs, b), fs.ino[i].addrs[NDIRECT], s - NDIRECT - 1, b);
    }
  }

  lemma SlotMakes(sb: Super, fs: Fs, own: seq<Owner>, i: int, s: int)
    requires Inv(fs, own) && Sized(sb, fs) && SlotIndex(fs, i, s) && GetSlot(fs, i, s).Mapped?
    requires s > NDIRECT ==> fs.ino[i].addrs[NDIRECT] != 0
    ensures Makes(fs, GetSlot(fs, i, s).fs, SlotUpdates(fs, i, s)) && UpdatesOk(sb, SlotUpdates(fs, i, s))
    ensures Sized(sb, GetSlot(fs, i, s).fs)
  {
    hide Inv, SetWord, Makes, UpdatesOk, Attach, Taken;
    InvShape(fs, own);
    if Slot(fs, i, s) != 0 {
      MakesNothing(sb, fs);
    } else {
      var b, x := FirstFree(fs.bits, 0), fs.ino[i].addrs[NDIRECT];
      FreeIsData(fs, own, b);
      TakenMakes(sb, fs, b);
      AttachShape(fs, own, i, s, b);
      StoreMakes(sb, fs, own, i, s, b);
      var two := [Bits(b, true), Data(b, Zero())];
      var more := if s > NDIRECT then [Data(x, SetWord(fs.blocks[x], s - NDIRECT - 1, b))] else [];
      MakesTrans(fs, Taken(fs, b), Attach(fs, i, s, b), two, more);
      OkConcat(sb, two, more);
    }
  }

  lemma BmapMakes(sb: Super, fs: Fs, own: seq<Owner>, i: int, bn: int)
    requires Inv(fs, own) && Sized(sb, fs) && 0 <= i < |fs.ino| && 0 <= bn && Bmap(fs, i, bn).Mapped?
    ensures Makes(fs, Bmap(fs, i, bn).fs, BmapUpdates(fs, i, bn)) && UpdatesOk(sb, BmapUpdates(fs, i, bn))
    ensures Sized(sb, Bmap(fs, i, bn).fs)
  {
    hide Inv, GetSlot, Grew, SlotUpdates, Makes, UpdatesOk;
    InvShape(fs, own);
    if bn < NDIRECT {
      SlotMakes(sb, fs, own, i, bn);
    } else {
      SlotMakes(sb, fs, own, i, NDIRECT);
      var own1 := GetSlotKeeps(fs, own, i, NDIRECT);
      var f := GetSlot(fs, i, NDIRECT).fs;
      SlotMakes(sb, f, own1, i, bn + 1);
      MakesTrans(fs, f, Bmap(fs, i, bn).fs, SlotUpdates(fs, i, NDIRECT), SlotUpdates(f, i, bn + 1));
      OkConcat(sb, SlotUpdates(fs, i, NDIRECT), SlotUpdates(f, i, bn + 1));
    }
  }

  lemma PatchMakes(sb: Super, fs: Fs, a: int, o: nat, chunk: seq<int>)
    requires Sized(sb, fs) && fs.meta <= a < |fs.blocks| && Whole(fs.blocks[a]) && o + |chunk| <= BSIZE
    ensures var us := [Data(a, Patch(fs.blocks[a], o, chunk))];
            Makes(fs, PatchAt(fs, a, o, chunk), us) && UpdatesOk(sb, us) && Sized(sb, PatchAt(fs, a, o, chunk))
  {
  }

  lemma {:induction false} PutMakes(sb: Super, fs: Fs, own: seq<Owner>, i: int, off: nat, data: seq<int>)
    requires Inv(fs, own) && Sized(sb, fs) && 0 <= i < |fs.ino| && PutFrom(fs, i, off, data).Done?
    ensures Makes(fs, PutFrom(fs, i, off, data).fs, PutUpdates(fs, i, off, data)) && UpdatesOk(sb, PutUpdates(fs, i, off, data))
    ensures Sized(sb, PutFrom(fs, i, off, data).fs)
    decreases |data|
  {
    hide Inv, Wrote, Bmap, Slot, Grew, BmapUpdates, Makes, UpdatesOk;
    InvShape(fs, own);
    if data == [] {
      MakesNothing(sb, fs);
    } else {
      var m, r := ChunkLen(off, |data|), Bmap(fs, i, Blk(off));
      var own1 := BmapKeeps(fs, own, i, Blk(off));
      HeldIsData(r.fs, own1, i, SlotOf(Blk(off)));
      BmapMakes(sb, fs, own, i, Blk(off));
      var f := PatchAt(r.fs, r.addr, Off(off), data[..m]);
      var patch := [Data(r.addr, Patch(r.fs.blocks[r.addr], Off(off), data[..m]))];
      PatchMakes(sb, r.fs, r.addr, Off(off), data[..m]);
      MakesTrans(fs, r.fs, f, BmapUpdates(fs, i, Blk(off)), patch);
      OkConcat(sb, BmapUpdates(fs, i, Blk(off)), patch);
      var own2 := ChunkWrote(fs, own, i, off, data[..m]);
      PutMakes(sb, f, own2, i, off + m, data[m..]);
      var first, rest := BmapUpdates(fs, i, Blk(off)) + patch, PutUpdates(f, i, off + m, data[m..]);
      MakesTrans(fs, f, PutFrom(fs, i, off, data).fs, first, rest);
      OkConcat(sb, first, rest);
    }
  }

  lemma MakesNothing(sb: Super, fs: Fs)
    ensures Makes(fs, fs, []) && UpdatesOk(sb, [])
  {
  }

  // ---------- truncation ----------

  /** The k-th slot itrunc frees: direct blocks, the blocks the indirect block lists,
      the indirect block. */
  function FreedAt(k: int): (s: int) {
    if k < NDIRECT then k else if k < NSLOTS - 1 then k + 1 else NDIRECT
  }

  /** bfree for the first k slots. */
  ghost function FreeUpdates(fs: Fs, i: int, k: nat): (us: seq<Update>)
    requires Shape(fs) && 0 <= i < |fs.ino| && k <= NSLOTS
  {
    if k == 0 then []
    else
      assert SlotIndex(fs, i, FreedAt(k - 1));
      var a := Slot(fs, i, FreedAt(k - 1));
      FreeUpdates(fs, i, k - 1) + if a > 0 then [Bits(a, false)] else []
  }

  /** The block is in one of the first k slots freed. */
  ghost predicate FreedBy(fs: Fs, i: int, k: nat, b: int)
    requires Shape(fs) && 0 <= i < |fs.ino| && k <= NSLOTS
  {
    b != 0 && exists j :: 0 <= j < k && SlotIndex(fs, i, FreedAt(j)) && Slot(fs, i, FreedAt(j)) == b
  }

  ghost function ClearedBits(fs: Fs, i: int, k: nat): (bits: seq<bool>)
    requires Shape(fs) && 0 <= i < |fs.ino| && k <= NSLOTS
    ensures |bits| == |fs.bits| && forall b :: 0 <= b < |bits| ==> (bits[b] <==> fs.bits[b] && !FreedBy(fs, i, k, b))
  {
    seq(|fs.bits|, b requires 0 <= b < |fs.bits| => fs.bits[b] && !FreedBy(fs, i, k, b))
  }

  lemma FreedByStep(fs: Fs, own: seq<Owner>, i: int, k: nat)
    requires Inv(fs, own) && 0 <= i < |fs.ino| && 0 < k <= NSLOTS
    ensures Shape(fs) && SlotIndex(fs, i, FreedAt(k - 1))
    ensures var a := Slot(fs, i, FreedAt(k - 1));
            && 0 <= a < |fs.bits|
            && ClearedBits(fs, i, k) == if a > 0 then ClearedBits(fs, i, k - 1)[a := false] else ClearedBits(fs, i, k - 1)
  {
    hide Slot;
    var a := Slot(fs, i, FreedAt(k - 1));
    assert SlotOk(fs, own, i, FreedAt(k - 1));
    forall b | 0 <= b < |fs.bits| ensures FreedBy(fs, i, k, b) <==> FreedBy(fs, i, k - 1, b) || (b == a && a > 0) {
    }
  }

  lemma {:induction false} FreeMakes(sb: Super, fs: Fs, own: seq<Owner>, i: int, k: nat)
    requires Inv(fs, own) && Sized(sb, fs) && 0 <= i < |fs.ino| && k <= NSLOTS
    ensures Shape(fs) && UpdatesOk(sb, FreeUpdates(fs, i, k))
    ensures Makes(fs, fs.(bits := ClearedBits(fs, i, k)), FreeUpdates(fs, i, k))
    decreases k
  {
    hide Inv, Slot, Makes, UpdatesOk, FreedBy;
    InvShape(fs, own);
    if k == 0 {
      assert forall b :: 0 <= b < |fs.bits| ==> !FreedBy(fs, i, 0, b) by { NoneFreed(fs, i); }
      assert ClearedBits(fs, i, 0) == fs.bits;
      MakesNothing(sb, fs);
    } else {
      FreeMakes(sb, fs, own, i, k - 1);
      FreedByStep(fs, own, i, k);
      var a := Slot(fs, i, FreedAt(k - 1));
      var was, now := fs.(bits := ClearedBits(fs, i, k - 1)), fs.(bits := ClearedBits(fs, i, k));
      var last := if a > 0 then [Bits(a, false)] else [];
      BitMakes(sb, was, a, last);
      MakesTrans(fs, was, now, FreeUpdates(fs, i, k - 1), last);
      OkConcat(sb, FreeUpdates(fs, i, k - 1), last);
    }
  }

  lemma NoneFreed(fs: Fs, i: int)
    requires Shape(fs) && 0 <= i < |fs.ino|
    ensures forall b :: 0 <= b < |fs.bits| ==> !FreedBy(fs, i, 0, b)
  {
  }

  lemma BitMakes(sb: Super, fs: Fs, a: int, us: seq<Update>)
    requires Sized(sb, fs) && 0 <= a < |fs.bits| && us == if a > 0 then [Bits(a, false)] else []
    ensures UpdatesOk(sb, us)
    ensures Makes(fs, fs.(bits := if a > 0 then fs.bits[a := false] else fs.bits), us)
  {
    if a > 0 {
      assert us[1..] == [];
      assert AllOnFs(OnFs(fs, us[0]), us[1..]) == fs.(bits := fs.bits[a := false]);
    }
  }

  lemma RecordMakes(sb: Super, fs: Fs, i: nat, n: Inode)
    requires Sized(sb, fs) && i < |fs.dino| && InodeFits(n)
    ensures UpdatesOk(sb, [Record(i, n)]) && Makes(fs, fs.(dino := fs.dino[i := n]), [Record(i, n)])
  {
    var us := [Record(i, n)];
    assert us[1..] == [];
    assert AllOnFs(OnFs(fs, us[0]), us[1..]) == fs.(dino := fs.dino[i := n]);
  }

  /** Every slot is freed at some point. */
  lemma AllFreedAt(fs: Fs, i: int, b: int)
    requires Shape(fs) && 0 <= i < |fs.ino|
    ensures FreedBy(fs, i, NSLOTS, b) <==> Held(fs, i, b)
  {
    if s :| SlotIndex(fs, i, s) && Slot(fs, i, s) == b {
      var j := if s < NDIRECT then s else if s == NDIRECT then NSLOTS - 1 else s - 1;
      assert FreedAt(j) == s;
    }
  }

  ghost function TruncUpdates(fs: Fs, i: int): (us: seq<Update>)
    requires Shape(fs) && 0 <= i < |fs.ino|
  {
    FreeUpdates(fs, i, NSLOTS) + [Record(i, Empty(fs.ino[i].dev))]
  }

  lemma TruncMakes(sb: Super, fs: Fs, own: seq<Owner>, i: int)
    requires Inv(fs, own) && Sized(sb, fs) && 0 <= i < |fs.ino|
    ensures Shape(fs) && UpdatesOk(sb, TruncUpdates(fs, i)) && Makes(fs, Truncated(fs, i), TruncUpdates(fs, i))
    ensures Sized(sb, Truncated(fs, i))
  {
    hide Inv, Slot, Makes, UpdatesOk, FreedBy, Held, FreeUpdates;
    InvShape(fs, own);
    FreeMakes(sb, fs, own, i, NSLOTS);
    var n := Empty(fs.ino[i].dev);
    var was := fs.(bits := ClearedBits(fs, i, NSLOTS));
    forall b | 0 <= b < |fs.bits| ensures FreedBy(fs, i, NSLOTS, b) <==> Held(fs, i, b) {
      AllFreedAt(fs, i, b);
    }
    assert was.bits == Released(fs, i);
    RecordMakes(sb, was, i, n);
    var now := was.(dino := was.dino[i := n]);
    MakesTrans(fs, was, now, FreeUpdates(fs, i, NSLOTS), [Record(i, n)]);
    OkConcat(sb, FreeUpdates(fs, i, NSLOTS), [Record(i, n)]);
    MakesMemory(fs, now, Truncated(fs, i), TruncUpdates(fs, i));
  }

  /** Inodes in memory do not matter. */
  lemma MakesMemory(fs: Fs, a: Fs, b: Fs, us: seq<Update>)
    requires Makes(fs, a, us) && b == a.(ino := b.ino)
    ensures Makes(fs, b, us)
  {
  }

  // ---------- operations and runs ----------

  /** The updates of one operation on a file system without holes; reads make none. */
  ghost function OpUpdates(fs: Fs, op: Op): (us: seq<Update>)
    requires Shape(fs) && OpOk(|fs.ino|, op)
  {
    match op
    case OpWrite(i, off, data) =>
      (match Writei(fs, i, off, data)
       case Written(f) =>
         PutUpdates(fs, i, off, data) + if |data| > 0 && off + |data| > fs.ino[i].size then [Record(i, f.ino[i])] else []
       case _ => [])
    case OpRead(_, _, _) => []
    case OpTrunc(i) => TruncUpdates(fs, i)
  }

  lemma WriteMakes(sb: Super, fs: Fs, own: seq<Owner>, i: int, off: nat, data: seq<int>)
    requires Good(fs, own) && Sized(sb, fs) && OpOk(|fs.ino|, OpWrite(i, off, data)) && Writei(fs, i, off, data).Written?
    ensures Shape(fs) && UpdatesOk(sb, OpUpdates(fs, OpWrite(i, off, data)))
    ensures Makes(fs, Writei(fs, i, off, data).fs, OpUpdates(fs, OpWrite(i, off, data)))
    ensures Sized(sb, Writei(fs, i, off, data).fs)
  {
    hide Inv, PutFrom, PutUpdates, Makes, UpdatesOk, FileOk, Content;
    InvShape(fs, own);
    PutMakes(sb, fs, own, i, off, data);
    var f0, f := PutFrom(fs, i, off, data).fs, Writei(fs, i, off, data).fs;
    PutKeepsSizes(fs, own, i, off, data);
    var us := PutUpdates(fs, i, off, data);
    if |data| > 0 && off + |data| > fs.ino[i].size {
      var own1 := WriteiRefines(fs, own, i, off, data);
      GoodFits(sb, f, own1);
      RecordMakes(sb, f0, i, f.ino[i]);
      MakesTrans(fs, f0, f0.(dino := f0.dino[i := f.ino[i]]), us, [Record(i, f.ino[i])]);
      OkConcat(sb, us, [Record(i, f.ino[i])]);
      MakesMemory(fs, f0.(dino := f0.dino[i := f.ino[i]]), f, us + [Record(i, f.ino[i])]);
    } else {
      assert us + [] == us;
    }
  }

  lemma PutKeepsSizes(fs: Fs, own: seq<Owner>, i: int, off: nat, data: seq<int>)
    requires Inv(fs, own) && 0 <= i < |fs.ino| && PutFrom(fs, i, off, data).Done?
    ensures PutFrom(fs, i, off, data).fs.ino[i].size == fs.ino[i].size
  {
    hide PutFrom, Slot;
    var own1 := PutWrote(fs, own, i, off, data);
  }

  lemma ExecMakes(sb: Super, fs: Fs, own: seq<Owner>, op: Op)
    requires Good(fs, own) && Sized(sb, fs) && OpOk(|fs.ino|, op) && Exec(fs, op).Running?
    ensures Shape(fs) && UpdatesOk(sb, OpUpdates(fs, op)) && Makes(fs, Exec(fs, op).fs, OpUpdates(fs, op))
    ensures Sized(sb, Exec(fs, op).fs)
  {
    hide Inv, Writei, Readi, Truncated, TruncUpdates, FileOk, PutUpdates, Makes, UpdatesOk, Content;
    InvShape(fs, own);
    MakesNothing(sb, fs);
    match op
    case OpWrite(i, off, data) =>
      if Writei(fs, i, off, data).Written? {
        WriteMakes(sb, fs, own, i, off, data);
      }
    case OpRead(i, off, n) =>
      if !fs.ino[i].dev {
        ReadiRefines(fs, own, i, off, n);
      } else {
        ReadOfDevice(fs, i, off, n);
      }
    case OpTrunc(i) => TruncMakes(sb, fs, own, i);
  }

  ghost function RunUpdates(fs: Fs, ops: seq<Op>): (us: seq<Update>)
    requires Shape(fs) && OpsOk(|fs.ino|, ops)
    decreases |ops|
  {
    if ops == [] then []
    else
      match Exec(fs, ops[0])
      case Running(f) => OpUpdates(fs, ops[0]) + RunUpdates(f, ops[1..])
      case Halted => []
  }

  lemma {:induction false} RunMakes(sb: Super, fs: Fs, own: seq<Owner>, ops: seq<Op>)
    requires Good(fs, own) && Sized(sb, fs) && OpsOk(|fs.ino|, ops) && Run(fs, ops).Running?
    ensures Shape(fs) && UpdatesOk(sb, RunUpdates(fs, ops)) && Makes(fs, Run(fs, ops).fs, RunUpdates(fs, ops))
    decreases |ops|
  {
    hide Inv, FileOk, Exec, Contents, Plain, Makes, UpdatesOk, OpUpdates, Sized;
    InvShape(fs, own);
    if ops == [] {
      MakesNothing(sb, fs);
    } else {
      var f := Exec(fs, ops[0]).fs;
      ExecMakes(sb, fs, own, ops[0]);
      var own1 := ExecRefines(fs, own, ops[0]);
      RunMakes(sb, f, own1, ops[1..]);
      MakesTrans(fs, f, Run(fs, ops).fs, OpUpdates(fs, ops[0]), RunUpdates(f, ops[1..]));
      OkConcat(sb, OpUpdates(fs, ops[0]), RunUpdates(f, ops[1..]));
    }
  }
}
