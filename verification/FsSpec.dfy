/** Files on disk: the block bitmap, inodes with direct and indirect blocks, and the
    byte sequence each inode stands for.  Operations are given here as functions on
    values; Fs runs them as the code does. */
module FsSpec {
  import opened Params
  import opened Blocks

  datatype Inode = Inode(dev: bool, size: nat, addrs: seq<int>)

  /** `ino` are the inodes as the kernel holds them in memory, `dino` the inodes on
      disk; blocks below `meta` are boot block, superblock, log, inodes and bitmap. */
  datatype Fs = Fs(meta: nat, bits: seq<bool>, blocks: seq<Block>, ino: seq<Inode>, dino: seq<Inode>)

  const NSLOTS: nat := MAXFILE + 1   // direct, the indirect pointer, indirect

  ghost predicate Shape(fs: Fs) {
    && |fs.blocks| == |fs.bits| && 0 < fs.meta <= |fs.bits| && |fs.ino| == |fs.dino|
    && (forall b :: 0 <= b < |fs.blocks| ==> Whole(fs.blocks[b]))
    && (forall i :: 0 <= i < |fs.ino| ==> InodeShape(fs.ino[i], |fs.blocks|))
  }

  predicate InodeShape(n: Inode, nblocks: nat) {
    |n.addrs| == NDIRECT + 1 && 0 <= n.addrs[NDIRECT] < nblocks
  }

  predicate SlotIndex(fs: Fs, i: int, s: int) {
    0 <= i < |fs.ino| && 0 <= s < NSLOTS
  }

  /** The block numbers an inode holds: slot NDIRECT is the pointer to the indirect
      block, later slots are the words stored in it. */
  ghost function Slot(fs: Fs, i: int, s: int): int
    requires Shape(fs) && SlotIndex(fs, i, s)
  {
    var a := fs.ino[i].addrs;
    if s <= NDIRECT then a[s]
    else if a[NDIRECT] == 0 then 0
    else Word(fs.blocks[a[NDIRECT]], s - NDIRECT - 1)
  }

  /** Who holds each block. */
  datatype Owner = Nobody | Meta | By(i: int, s: int)

  ghost predicate BlockOk(fs: Fs, own: seq<Owner>, b: int)
    requires Shape(fs) && |own| == |fs.bits| && 0 <= b < |own|
  {
    && (fs.bits[b] <==> own[b] != Nobody)
    && (b < fs.meta <==> own[b] == Meta)
    && (own[b].By? ==> SlotIndex(fs, own[b].i, own[b].s) && Slot(fs, own[b].i, own[b].s) == b)
  }

  ghost predicate SlotOk(fs: Fs, own: seq<Owner>, i: int, s: int)
    requires Shape(fs) && |own| == |fs.bits| && SlotIndex(fs, i, s)
  {
    var a := Slot(fs, i, s);
    a == 0 || (fs.meta <= a < |own| && own[a] == By(i, s))
  }

  /** A bit is set exactly for metadata and for blocks held by a slot, and each held
      block is held by one slot of one inode. */
  ghost predicate Inv(fs: Fs, own: seq<Owner>) {
    && Shape(fs) && |own| == |fs.bits|
    && (forall b :: 0 <= b < |own| ==> BlockOk(fs, own, b))
    && (forall i, s :: SlotIndex(fs, i, s) ==> SlotOk(fs, own, i, s))
  }

  /** What the invariant means, without the owner map. */
  lemma InvMeans(fs: Fs, own: seq<Owner>)
    requires Inv(fs, own)
    ensures forall b :: 0 <= b < |fs.bits| ==>
              (fs.bits[b] <==> b < fs.meta || exists i, s :: SlotIndex(fs, i, s) && Slot(fs, i, s) == b)
    ensures forall i, s, i', s' :: SlotIndex(fs, i, s) && SlotIndex(fs, i', s') && Slot(fs, i, s) == Slot(fs, i', s') != 0 ==>
              i == i' && s == s'
    ensures forall i, s :: SlotIndex(fs, i, s) && Slot(fs, i, s) != 0 ==> fs.meta <= Slot(fs, i, s) < |fs.bits|
  {
    forall b | 0 <= b < |fs.bits|
      ensures fs.bits[b] <==> b < fs.meta || exists i, s :: SlotIndex(fs, i, s) && Slot(fs, i, s) == b
    {
      assert BlockOk(fs, own, b);
      if i, s :| SlotIndex(fs, i, s) && Slot(fs, i, s) == b {
        assert SlotOk(fs, own, i, s);
      }
    }
    forall i, s, i', s' | SlotIndex(fs, i, s) && SlotIndex(fs, i', s') && Slot(fs, i, s) == Slot(fs, i', s') != 0
      ensures i == i' && s == s'
    {
      assert SlotOk(fs, own, i, s) && SlotOk(fs, own, i', s');
    }
  }

  // ---------- balloc and bmap ----------

  /** The first clear bit from k on. */
  function FirstFree(bits: seq<bool>, k: nat): (b: nat)
    requires k <= |bits|
    ensures k <= b <= |bits| && (b < |bits| ==> !bits[b])
    ensures forall j :: k <= j < b ==> bits[j]
    decreases |bits| - k
  {
    if k == |bits| || !bits[k] then k else FirstFree(bits, k + 1)
  }

  lemma {:induction false} FirstFreeIs(bits: seq<bool>, k: nat, b: nat)
    requires k <= b <= |bits| && (b < |bits| ==> !bits[b]) && forall j :: k <= j < b ==> bits[j]
    ensures FirstFree(bits, k) == b
    decreases b - k
  {
    if k < b {
      FirstFreeIs(bits, k + 1, b);
    }
  }

  predicate CanAttach(fs: Fs, i: int, s: int, b: int) {
    && SlotIndex(fs, i, s) && 0 <= b < |fs.blocks| == |fs.bits|
    && InodeShape(fs.ino[i], |fs.blocks|)
    && (s > NDIRECT ==> Whole(fs.blocks[fs.ino[i].addrs[NDIRECT]]))
  }

  /** balloc's effect: block b marked used and zeroed. */
  function Taken(fs: Fs, b: int): (r: Fs)
    requires 0 <= b < |fs.blocks| == |fs.bits|
  {
    Fs(fs.meta, fs.bits[b := true], fs.blocks[b := Zero()], fs.ino, fs.dino)
  }

  /** Store block number b in slot s of inode i. */
  function SetSlot(fs: Fs, i: int, s: int, b: int): (r: Fs)
    requires CanAttach(fs, i, s, b)
  {
    if s <= NDIRECT then
      Fs(fs.meta, fs.bits, fs.blocks,
         fs.ino[i := Inode(fs.ino[i].dev, fs.ino[i].size, fs.ino[i].addrs[s := b])], fs.dino)
    else
      SetIndirect(fs, fs.ino[i].addrs[NDIRECT], s - NDIRECT - 1, b)
  }

  function SetIndirect(fs: Fs, x: int, j: nat, b: int): (r: Fs)
    requires 0 <= x < |fs.blocks| && Whole(fs.blocks[x]) && j < NINDIRECT
  {
    Fs(fs.meta, fs.bits, fs.blocks[x := SetWord(fs.blocks[x], j, b)], fs.ino, fs.dino)
  }

  function Attach(fs: Fs, i: int, s: int, b: int): (r: Fs)
    requires CanAttach(fs, i, s, b)
  {
    SetSlot(Taken(fs, b), i, s, b)
  }

  datatype MapResult = Mapped(fs: Fs, addr: int) | NoBlocks | OutOfRange

  /** Read slot s, filling it first if it is empty. */
  ghost function GetSlot(fs: Fs, i: int, s: int): (r: MapResult)
    requires Shape(fs) && SlotIndex(fs, i, s)
    ensures r.Mapped? ==> Shape(r.fs) && |r.fs.ino| == |fs.ino|
  {
    if Slot(fs, i, s) != 0 then Mapped(fs, Slot(fs, i, s))
    else
      var b := FirstFree(fs.bits, 0);
      if b == |fs.bits| then NoBlocks else Mapped(Attach(fs, i, s, b), b)
  }

  /** The slot of a file's block bn. */
  function SlotOf(bn: int): int {
    if bn < NDIRECT then bn else bn + 1
  }

  /** The block holding block bn of inode i, allocated if there is none. */
  ghost function Bmap(fs: Fs, i: int, bn: int): (r: MapResult)
    requires Shape(fs) && 0 <= i < |fs.ino| && 0 <= bn
    ensures r.Mapped? ==> Shape(r.fs) && |r.fs.ino| == |fs.ino|
  {
    if bn < NDIRECT then GetSlot(fs, i, bn)
    else if bn < MAXFILE then
      match GetSlot(fs, i, NDIRECT)
      case Mapped(f, _) => GetSlot(f, i, bn + 1)
      case other => other
    else OutOfRange
  }

  // ---------- attaching a block keeps the invariant ----------

  ghost predicate CanFill(fs: Fs, own: seq<Owner>, i: int, s: int, b: int) {
    && Inv(fs, own) && SlotIndex(fs, i, s) && Slot(fs, i, s) == 0
    && 0 <= b < |own| && !fs.bits[b]
    && (s > NDIRECT ==> fs.ino[i].addrs[NDIRECT] != 0)
  }

  /** No slot, and no indirect pointer, names a free block. */
  lemma FreeIsUnheld(fs: Fs, own: seq<Owner>, b: int, i: int)
    requires Inv(fs, own) && 0 <= b < |own| && !fs.bits[b] && 0 <= i < |fs.ino|
    ensures own[b] == Nobody && fs.meta <= b && fs.ino[i].addrs[NDIRECT] != b
  {
    assert BlockOk(fs, own, b);
    assert SlotIndex(fs, i, NDIRECT);
    assert SlotOk(fs, own, i, NDIRECT);
  }

  lemma AttachShape(fs: Fs, own: seq<Owner>, i: int, s: int, b: int)
    requires CanFill(fs, own, i, s, b)
    ensures CanAttach(fs, i, s, b) && Shape(Attach(fs, i, s, b))
    ensures forall i', s' :: SlotIndex(Attach(fs, i, s, b), i', s') <==> SlotIndex(fs, i', s')
  {
    assert Whole(Zero());
  }

  lemma AttachSlot(fs: Fs, own: seq<Owner>, i: int, s: int, b: int, i': int, s': int)
    requires CanFill(fs, own, i, s, b) && SlotIndex(fs, i', s')
    ensures CanAttach(fs, i, s, b) && Shape(Attach(fs, i, s, b))
    ensures Slot(Attach(fs, i, s, b), i', s') == if i' == i && s' == s then b else Slot(fs, i', s')
  {
    hide Inv;
    AttachShape(fs, own, i, s, b);
    FreeIsUnheld(fs, own, b, i');
    FreeIsUnheld(fs, own, b, i);
    if s' > NDIRECT {
      ZeroWords(s' - NDIRECT - 1);
      if s > NDIRECT {
        SetWordReads(fs.blocks[fs.ino[i].addrs[NDIRECT]], s - NDIRECT - 1, b, s' - NDIRECT - 1);
        if i' != i {
          OneIndirect(fs, own, i, i');
        }
      }
    }
  }

  lemma OneIndirect(fs: Fs, own: seq<Owner>, i: int, i': int)
    requires Inv(fs, own) && 0 <= i < |fs.ino| && 0 <= i' < |fs.ino| && i != i'
    ensures fs.ino[i].addrs[NDIRECT] == 0 || fs.ino[i].addrs[NDIRECT] != fs.ino[i'].addrs[NDIRECT]
  {
    assert SlotIndex(fs, i, NDIRECT) && SlotIndex(fs, i', NDIRECT);
    assert SlotOk(fs, own, i, NDIRECT) && SlotOk(fs, own, i', NDIRECT);
  }

  lemma AttachKeepsInv(fs: Fs, own: seq<Owner>, i: int, s: int, b: int)
    requires CanFill(fs, own, i, s, b)
    ensures CanAttach(fs, i, s, b)
    ensures Inv(Attach(fs, i, s, b), own[b := By(i, s)])
  {
    AttachShape(fs, own, i, s, b);
    FreeIsUnheld(fs, own, b, i);
    var r, own' := Attach(fs, i, s, b), own[b := By(i, s)];
    forall i', s' | SlotIndex(r, i', s') ensures SlotOk(r, own', i', s') {
      AttachSlot(fs, own, i, s, b, i', s');
      assert SlotOk(fs, own, i', s');
    }
    forall c | 0 <= c < |own'| ensures BlockOk(r, own', c) {
      assert BlockOk(fs, own, c);
      if own'[c].By? {
        AttachSlot(fs, own, i, s, b, own'[c].i, own'[c].s);
      }
    }
  }

  // ---------- what bmap leaves alone ----------

  ghost predicate SlotKept(fs: Fs, fs': Fs, i: int, j: int, s: int)
    requires Shape(fs) && Shape(fs') && SlotIndex(fs, j, s) && SlotIndex(fs', j, s) && |fs'.bits| == |fs.bits|
  {
    var a := Slot(fs, j, s);
    && (a != 0 || j != i ==> Slot(fs', j, s) == a)
    && (0 < a < |fs.blocks| && s != NDIRECT ==> fs'.blocks[a] == fs.blocks[a])
  }

  ghost predicate SameButAddrs(fs: Fs, fs': Fs, i: int) {
    && 0 <= i < |fs.ino| == |fs'.ino| && fs'.meta == fs.meta && fs'.dino == fs.dino && |fs'.bits| == |fs.bits|
    && fs'.ino == fs.ino[i := Inode(fs.ino[i].dev, fs.ino[i].size, fs'.ino[i].addrs)]
  }

  /** fs' is fs with perhaps more of inode i's slots filled: filled slots stay, other
      inodes are untouched, and no data block that was held changes. */
  ghost predicate Grew(fs: Fs, fs': Fs, i: int) {
    && Shape(fs) && Shape(fs') && SameButAddrs(fs, fs', i)
    && (forall j, s :: SlotIndex(fs, j, s) ==> SlotKept(fs, fs', i, j, s))
  }

  lemma GrewRefl(fs: Fs, i: int)
    requires Shape(fs) && 0 <= i < |fs.ino|
    ensures Grew(fs, fs, i)
  {
  }

  lemma GrewTrans(a: Fs, b: Fs, c: Fs, i: int)
    requires Grew(a, b, i) && Grew(b, c, i)
    ensures Grew(a, c, i)
  {
    forall j, s | SlotIndex(a, j, s) ensures SlotKept(a, c, i, j, s) {
      assert SlotIndex(b, j, s);
      assert SlotKept(a, b, i, j, s) && SlotKept(b, c, i, j, s);
    }
  }

  lemma AttachSame(fs: Fs, i: int, s: int, b: int)
    requires CanAttach(fs, i, s, b)
    ensures SameButAddrs(fs, Attach(fs, i, s, b), i)
    ensures |Attach(fs, i, s, b).bits| == |fs.bits|
  {
  }

  lemma AttachGrows(fs: Fs, own: seq<Owner>, i: int, s: int, b: int)
    requires CanFill(fs, own, i, s, b)
    ensures CanAttach(fs, i, s, b) && Grew(fs, Attach(fs, i, s, b), i)
  {
    hide Inv, Slot, Attach, SameButAddrs;
    InvShape(fs, own);
    AttachShape(fs, own, i, s, b);
    AttachSame(fs, i, s, b);
    var r := Attach(fs, i, s, b);
    forall j, s' | SlotIndex(fs, j, s') ensures SlotKept(fs, r, i, j, s') {
      AttachSlot(fs, own, i, s, b, j, s');
      if s' != NDIRECT {
        AttachKeepsData(fs, own, i, s, b, j, s');
      }
    }
  }

  lemma AttachKeepsData(fs: Fs, own: seq<Owner>, i: int, s: int, b: int, j: int, s': int)
    requires CanFill(fs, own, i, s, b) && SlotIndex(fs, j, s') && s' != NDIRECT
    ensures CanAttach(fs, i, s, b)
    ensures var a := Slot(fs, j, s');
            0 < a < |fs.blocks| ==> Attach(fs, i, s, b).blocks[a] == fs.blocks[a]
  {
    AttachShape(fs, own, i, s, b);
    FreeIsUnheld(fs, own, b, i);
    assert SlotOk(fs, own, j, s');
    assert SlotIndex(fs, i, NDIRECT) && SlotOk(fs, own, i, NDIRECT);
  }

  /** A slot read or filled: the invariant holds, and only that slot was filled. */
  lemma GetSlotKeeps(fs: Fs, own: seq<Owner>, i: int, s: int) returns (own': seq<Owner>)
    requires Inv(fs, own) && SlotIndex(fs, i, s) && GetSlot(fs, i, s).Mapped?
    requires s > NDIRECT ==> fs.ino[i].addrs[NDIRECT] != 0
    ensures var r := GetSlot(fs, i, s);
            && Inv(r.fs, own') && Grew(fs, r.fs, i) && Slot(r.fs, i, s) == r.addr != 0
  {
    hide Inv, Grew, Attach;
    InvShape(fs, own);
    if Slot(fs, i, s) != 0 {
      GrewRefl(fs, i);
      own' := own;
    } else {
      var b := FirstFree(fs.bits, 0);
      AttachKeepsInv(fs, own, i, s, b);
      AttachGrows(fs, own, i, s, b);
      AttachSlot(fs, own, i, s, b, i, s);
      FreeIsUnheld(fs, own, b, i);
      own' := own[b := By(i, s)];
    }
  }

  lemma InvShape(fs: Fs, own: seq<Owner>)
    requires Inv(fs, own)
    ensures Shape(fs) && |own| == |fs.bits|
  {
  }

  lemma BmapKeeps(fs: Fs, own: seq<Owner>, i: int, bn: int) returns (own': seq<Owner>)
    requires Inv(fs, own) && 0 <= i < |fs.ino| && 0 <= bn && Bmap(fs, i, bn).Mapped?
    ensures var r := Bmap(fs, i, bn);
            && Inv(r.fs, own') && Grew(fs, r.fs, i) && bn < MAXFILE
            && Slot(r.fs, i, SlotOf(bn)) == r.addr != 0
  {
    hide Inv, Grew, GetSlot;
    InvShape(fs, own);
    if bn < NDIRECT {
      own' := GetSlotKeeps(fs, own, i, bn);
    } else {
      var own1 := GetSlotKeeps(fs, own, i, NDIRECT);
      var f := GetSlot(fs, i, NDIRECT).fs;
      own' := GetSlotKeeps(f, own1, i, bn + 1);
      GrewTrans(fs, f, Bmap(fs, i, bn).fs, i);
    }
  }
}
