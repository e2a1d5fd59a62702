/** mkfs: the image every run starts from.  It allocates blocks in order instead of
    searching a bitmap, and writes the bitmap once at the end. */
module Mkfs {
  import opened Params
  import opened Blocks
  import opened FsSpec
  import opened FsData
  import opened FsOps
  import opened FsRuns
  import FsSpace

  // ---------- the image as a value ----------

  /** Bits below `free` set, the rest clear: the bitmap mkfs writes. */
  function Prefix(n: nat, free: nat): (bits: seq<bool>)
    ensures |bits| == n && forall b :: 0 <= b < n ==> (bits[b] <==> b < free)
  {
    seq(n, b requires 0 <= b < n => b < free)
  }

  function Blank(meta: nat, size: nat, ninodes: nat): (fs: Fs)
    ensures |fs.ino| == |fs.dino| == ninodes && |fs.blocks| == size && fs.meta == meta && fs.bits == Prefix(size, meta)
    ensures forall i :: 0 <= i < ninodes ==> fs.ino[i] == Empty(false)
    ensures forall b :: 0 <= b < size ==> fs.blocks[b] == Zero()
    ensures fs.dino == fs.ino
  {
    var empty := Empty(false);
    var inodes := seq(ninodes, _ => empty);
    Fs(meta, Prefix(size, meta), seq(size, _ => Zero()), inodes, inodes)
  }

  function BlankOwners(meta: nat, size: nat): (own: seq<Owner>)
    ensures |own| == size && forall b :: 0 <= b < size ==> own[b] == if b < meta then Meta else Nobody
  {
    seq(size, b requires 0 <= b < size => if b < meta then Meta else Nobody)
  }

  lemma BlankGood(meta: nat, size: nat, ninodes: nat)
    requires 0 < meta <= size
    ensures Good(Blank(meta, size, ninodes), BlankOwners(meta, size))
  {
    hide Word;
    var fs, own := Blank(meta, size, ninodes), BlankOwners(meta, size);
    assert Shape(fs) by {
      assert Whole(Zero());
    }
    assert forall i, s :: SlotIndex(fs, i, s) ==> Slot(fs, i, s) == 0;
    assert forall i :: 0 <= i < ninodes ==> FileOk(fs, i);
  }

  /** iappend, as a value: the copy loop of writei at the end of the file. */
  ghost function Appended(fs: Fs, i: int, data: seq<int>): (r: State)
    requires Shape(fs) && 0 <= i < |fs.ino|
    ensures r.Running? ==> Shape(r.fs) && |r.fs.ino| == |fs.ino|
  {
    match PutFrom(fs, i, fs.ino[i].size, data)
    case Done(f) => Running(Resized(f, i, fs.ino[i].size + |data|))
    case Panicked => Halted
  }

  datatype Append = Append(i: int, data: seq<int>)

  ghost predicate AppendsOk(ninodes: nat, apps: seq<Append>) {
    forall t :: 0 <= t < |apps| ==> 0 <= apps[t].i < ninodes
  }

  ghost function AppendAll(fs: Fs, apps: seq<Append>): (r: State)
    requires Shape(fs) && AppendsOk(|fs.ino|, apps)
    ensures r.Running? ==> Shape(r.fs) && |r.fs.ino| == |fs.ino|
    decreases |apps|
  {
    if apps == [] then Running(fs)
    else
      match Appended(fs, apps[0].i, apps[0].data)
      case Running(f) => AppendAll(f, apps[1..])
      case Halted => Halted
  }

  // ---------- no block past the end ----------

  /** No block is mapped that starts at or after byte n. */
  ghost predicate TightAt(fs: Fs, i: int, n: int)
    requires Shape(fs) && 0 <= i < |fs.ino|
  {
    forall k :: 0 <= k && Addr(fs, i, k) != 0 ==> k - Off(k) < n
  }

  lemma GetSlotOnly(fs: Fs, own: seq<Owner>, i: int, s: int, s': int)
    requires Inv(fs, own) && SlotIndex(fs, i, s) && SlotIndex(fs, i, s') && GetSlot(fs, i, s).Mapped?
    requires s > NDIRECT ==> fs.ino[i].addrs[NDIRECT] != 0
    ensures s' != s ==> Slot(GetSlot(fs, i, s).fs, i, s') == Slot(fs, i, s')
  {
    hide Inv, Attach;
    InvShape(fs, own);
    if Slot(fs, i, s) == 0 {
      AttachSlot(fs, own, i, s, FirstFree(fs.bits, 0), i, s');
    }
  }

  lemma BmapOnly(fs: Fs, own: seq<Owner>, i: int, bn: nat, s': int)
    requires Inv(fs, own) && SlotIndex(fs, i, s') && Bmap(fs, i, bn).Mapped?
    ensures s' != NDIRECT && s' != SlotOf(bn) ==> Slot(Bmap(fs, i, bn).fs, i, s') == Slot(fs, i, s')
  {
    hide Inv, Grew, GetSlot;
    InvShape(fs, own);
    if bn < NDIRECT {
      GetSlotOnly(fs, own, i, bn, s');
    } else {
      var own1 := GetSlotKeeps(fs, own, i, NDIRECT);
      GetSlotOnly(fs, own, i, NDIRECT, s');
      GetSlotOnly(GetSlot(fs, i, NDIRECT).fs, own1, i, bn + 1, s');
    }
  }

  lemma ChunkTight(fs: Fs, own: seq<Owner>, i: int, off: nat, chunk: seq<int>)
    requires Inv(fs, own) && 0 <= i < |fs.ino| && Bmap(fs, i, Blk(off)).Mapped? && Off(off) + |chunk| <= BSIZE
    requires TightAt(fs, i, off) && chunk != []
    ensures var r := Bmap(fs, i, Blk(off));
            && 0 <= r.addr < |r.fs.blocks| && Shape(PatchAt(r.fs, r.addr, Off(off), chunk))
            && TightAt(PatchAt(r.fs, r.addr, Off(off), chunk), i, off + |chunk|)
  {
    hide Inv, Bmap, Grew, Slot, Wrote;
    InvShape(fs, own);
    var own' := BmapKeeps(fs, own, i, Blk(off));
    var f, a := Bmap(fs, i, Blk(off)).fs, Bmap(fs, i, Blk(off)).addr;
    InvShape(f, own');
    PatchByte(f, own', i, off, chunk, i, off);
    var r := PatchAt(f, a, Off(off), chunk);
    forall k | 0 <= k && Addr(r, i, k) != 0 ensures k - Off(k) < off + |chunk| {
      PatchByte(f, own', i, off, chunk, i, k);
      if Blk(k) == Blk(off) {
        SamePlace(k, off);
      } else {
        BmapOnly(fs, own, i, Blk(off), SlotOf(Blk(k)));
        assert Addr(fs, i, k) != 0;
      }
    }
  }

  lemma {:induction false} PutTight(fs: Fs, own: seq<Owner>, i: int, off: nat, data: seq<int>)
    requires Inv(fs, own) && 0 <= i < |fs.ino| && TightAt(fs, i, off) && PutFrom(fs, i, off, data).Done?
    ensures TightAt(PutFrom(fs, i, off, data).fs, i, off + |data|)
    decreases |data|
  {
    hide Inv, Bmap, Wrote, TightAt;
    InvShape(fs, own);
    if data != [] {
      var m := ChunkLen(off, |data|);
      ChunkTight(fs, own, i, off, data[..m]);
      var own1 := ChunkWrote(fs, own, i, off, data[..m]);
      var f := PatchAt(Bmap(fs, i, Blk(off)).fs, Bmap(fs, i, Blk(off)).addr, Off(off), data[..m]);
      PutTight(f, own1, i, off + m, data[m..]);
    }
  }

  // ---------- every image ----------

  ghost predicate AllTight(fs: Fs)
    requires Shape(fs)
  {
    forall i :: 0 <= i < |fs.ino| ==> TightAt(fs, i, fs.ino[i].size)
  }

  lemma PutFits(fs: Fs, f: Fs, i: int, off: nat, data: seq<int>)
    requires Wrote(fs, f, i, off, data) && off <= MAXFILE * BSIZE
    ensures off + |data| <= MAXFILE * BSIZE
  {
    if data != [] {
      var k := off + |data| - 1;
      assert ByteWritten(f, i, off, data, k);
      assert Blk(k) < MAXFILE;
      DivMod(k);
      Multiples(Blk(k), MAXFILE);
    }
  }

  lemma AppendedTight(fs: Fs, own: seq<Owner>, i: int, data: seq<int>, j: int)
    requires Good(fs, own) && 0 <= i < |fs.ino| && Appended(fs, i, data).Running?
    requires 0 <= j < |fs.ino| && TightAt(fs, j, fs.ino[j].size)
    ensures var r := Appended(fs, i, data).fs;
            TightAt(r, j, r.ino[j].size)
  {
    hide Inv, PutFrom, Addr, FileOk, Shape;
    InvShape(fs, own);
    var off := fs.ino[i].size;
    var f := PutFrom(fs, i, off, data).fs;
    var own' := PutWrote(fs, own, i, off, data);
    var r := Resized(f, i, off + |data|);
    ResizedBecame(fs, f, i, off, data, off + |data|);
    if j == i {
      PutTight(fs, own, i, off, data);
    }
    forall k | 0 <= k && Addr(r, j, k) != 0 ensures k - Off(k) < r.ino[j].size {
      ResizedByte(f, i, off + |data|, j, k);
      assert AddrKept(fs, r, i, j, k);
    }
  }

  lemma AppendRefines(fs: Fs, own: seq<Owner>, i: int, data: seq<int>) returns (own': seq<Owner>)
    requires Good(fs, own) && AllTight(fs) && 0 <= i < |fs.ino| && Appended(fs, i, data).Running?
    ensures var r := Appended(fs, i, data).fs;
            && Good(r, own') && AllTight(r)
            && OnlyFile(fs, r, i, Content(fs, i) + data)
  {
    hide Inv, PutFrom, Wrote, Content, Became, TightAt, FileOk;
    InvShape(fs, own);
    var off := fs.ino[i].size;
    SizeFits(fs, own, i);
    own' := PutWrote(fs, own, i, off, data);
    var f := PutFrom(fs, i, off, data).fs;
    WroteSame(fs, f, i, off, data);
    PutFits(fs, f, i, off, data);
    ResizedKeepsInv(f, own', i, off + |data|);
    ResizedBecame(fs, f, i, off, data, off + |data|);
    BecameGood(fs, own, Resized(f, i, off + |data|), own', i, off, data, off + |data|);
    assert Overwrite(Content(fs, i), off, data) == Content(fs, i) + data;
    forall j | 0 <= j < |fs.ino|
      ensures TightAt(Appended(fs, i, data).fs, j, Appended(fs, i, data).fs.ino[j].size)
    {
      AppendedTight(fs, own, i, data, j);
    }
  }

  lemma SizeFits(fs: Fs, own: seq<Owner>, i: int)
    requires Good(fs, own) && 0 <= i < |fs.ino|
    ensures fs.ino[i].size <= MAXFILE * BSIZE && MappedTo(fs, i, fs.ino[i].size)
  {
    assert FileOk(fs, i);
  }

  lemma {:induction false} AppendAllRefines(fs: Fs, own: seq<Owner>, apps: seq<Append>) returns (own': seq<Owner>)
    requires Good(fs, own) && AllTight(fs) && AppendsOk(|fs.ino|, apps) && AppendAll(fs, apps).Running?
    ensures Good(AppendAll(fs, apps).fs, own') && AllTight(AppendAll(fs, apps).fs)
    decreases |apps|
  {
    hide Inv, Appended, FileOk, AllTight, Content;
    InvShape(fs, own);
    if apps == [] {
      own' := own;
    } else {
      var own1 := AppendRefines(fs, own, apps[0].i, apps[0].data);
      own' := AppendAllRefines(Appended(fs, apps[0].i, apps[0].data).fs, own1, apps[1..]);
    }
  }

  // ---------- the root directory's size ----------

  /** The next block boundary strictly above the size. */
  function RoundUp(size: nat): (n: nat)
    ensures size < n <= size + BSIZE
  {
    size - Off(size) + BSIZE
  }

  lemma RoundUpIs(size: nat)
    ensures RoundUp(size) == (size / BSIZE + 1) * BSIZE
  {
    DivMod(size);
    IsDivMod(size);
  }

  /** The last step of mkfs: round the root directory up to whole blocks. */
  ghost function Rounded(fs: Fs, i: int): (r: Fs)
    requires Shape(fs) && 0 <= i < |fs.ino|
    ensures Shape(r) && |r.ino| == |fs.ino|
  {
    Resized(fs, i, RoundUp(fs.ino[i].size))
  }

  /** Rounding up adds a whole new block exactly when the size was already a multiple
      of the block size, and that block is a hole. */
  lemma RoundLeavesHoleIff(fs: Fs, own: seq<Owner>, i: int)
    requires Good(fs, own) && AllTight(fs) && 0 <= i < |fs.ino|
    ensures FileOk(Rounded(fs, i), i) <==> Off(fs.ino[i].size) != 0
  {
    hide Inv, Slot, ByteAt;
    InvShape(fs, own);
    SizeFits(fs, own, i);
    var size := fs.ino[i].size;
    var n := RoundUp(size);
    var r := Rounded(fs, i);
    if Off(size) != 0 {
      InFileRounds(size);
      forall k | 0 <= k < n ensures Addr(r, i, k) != 0 {
        ResizedByte(fs, i, n, i, k);
        RoundedByte(size, k);
        assert Addr(fs, i, if k < size then k else size - 1) != 0;
      }
    } else {
      assert TightAt(fs, i, size);
      ResizedByte(fs, i, n, i, size);
      assert Addr(fs, i, size) == 0;
    }
  }

  lemma InFileRounds(size: nat)
    requires size <= MAXFILE * BSIZE && Off(size) != 0
    ensures RoundUp(size) <= MAXFILE * BSIZE
  {
    if size == MAXFILE * BSIZE {
      BlkOfMultiple(MAXFILE);
    }
    InFile(size);
    DivMod(size);
    Multiples(Blk(size), MAXFILE);
  }

  /** Below the rounded size, a byte is below the size or shares the block of the last
      byte. */
  lemma RoundedByte(size: nat, k: nat)
    requires Off(size) != 0 && k < RoundUp(size)
    ensures k < size || (size > 0 && Blk(k) == Blk(size - 1))
  {
    Advance(size - 1, 1);
    if k >= size {
      Advance(size, k - size);
    }
  }

  lemma RoundedKeepsOthers(fs: Fs, own: seq<Owner>, i: int)
    requires Good(fs, own) && 0 <= i < |fs.ino|
    ensures Inv(Rounded(fs, i), own) && Rounded(fs, i).dino == Rounded(fs, i).ino
    ensures forall j :: 0 <= j < |fs.ino| && j != i ==> FileOk(Rounded(fs, i), j)
  {
    hide Inv, Slot, ByteAt, Addr;
    InvShape(fs, own);
    ResizedKeepsInv(fs, own, i, RoundUp(fs.ino[i].size));
    forall j | 0 <= j < |fs.ino| && j != i ensures FileOk(Rounded(fs, i), j) {
      assert FileOk(fs, j);
      forall k | 0 <= k < fs.ino[j].size ensures Addr(Rounded(fs, i), j, k) != 0 {
        ResizedByte(fs, i, RoundUp(fs.ino[i].size), j, k);
      }
    }
  }

  // ---------- from mkfs on ----------

  /** The image mkfs leaves when it succeeds. */
  ghost function MadeFs(meta: nat, size: nat, ninodes: nat, root: int, apps: seq<Append>): (r: State)
    requires 0 < meta <= size && 0 <= root < ninodes && AppendsOk(ninodes, apps)
    ensures r.Running? ==> Shape(r.fs) && |r.fs.ino| == ninodes
  {
    BlankGood(meta, size, ninodes);
    match AppendAll(Blank(meta, size, ninodes), apps)
    case Running(f) => Running(Rounded(f, root))
    case Halted => Halted
  }

  /** What mkfs was given to write to file i, in order. */
  function Written(apps: seq<Append>, i: int): (w: seq<int>) {
    if apps == [] then []
    else (if apps[0].i == i then apps[0].data else []) + Written(apps[1..], i)
  }

  /** Each file of the image holds what was appended to it. */
  lemma {:induction false} AppendAllContent(fs: Fs, own: seq<Owner>, apps: seq<Append>, j: int)
    requires Good(fs, own) && AllTight(fs) && AppendsOk(|fs.ino|, apps) && AppendAll(fs, apps).Running? && 0 <= j < |fs.ino|
    ensures Content(AppendAll(fs, apps).fs, j) == Content(fs, j) + Written(apps, j)
    ensures AppendAll(fs, apps).fs.ino[j].dev == fs.ino[j].dev
    decreases |apps|
  {
    hide Inv, Appended, FileOk, AllTight, Content, Shape;
    InvShape(fs, own);
    if apps == [] {
      assert Content(fs, j) + [] == Content(fs, j);
    } else {
      var i, data := apps[0].i, apps[0].data;
      var own1 := AppendRefines(fs, own, i, data);
      var f := Appended(fs, i, data).fs;
      AppendAllContent(f, own1, apps[1..], j);
      var rest := Written(apps[1..], j);
      assert Content(fs, j) + data + rest == Content(fs, j) + (data + rest);
      assert Content(fs, j) + rest == Content(fs, j) + ([] + rest);
    }
  }

  lemma BlankContent(meta: nat, size: nat, ninodes: nat, j: int)
    requires 0 < meta <= size && 0 <= j < ninodes
    ensures Shape(Blank(meta, size, ninodes)) && Content(Blank(meta, size, ninodes), j) == []
  {
    BlankGood(meta, size, ninodes);
  }

  /** The image is good exactly when what was written to the root directory does not end
      on a block boundary. */
  lemma MadeIsGoodIff(meta: nat, size: nat, ninodes: nat, root: int, apps: seq<Append>) returns (own: seq<Owner>)
    requires 0 < meta <= size && 0 <= root < ninodes && AppendsOk(ninodes, apps)
    requires MadeFs(meta, size, ninodes, root, apps).Running?
    ensures Inv(MadeFs(meta, size, ninodes, root, apps).fs, own)
    ensures Good(MadeFs(meta, size, ninodes, root, apps).fs, own) <==> |Written(apps, root)| % BSIZE != 0
    ensures FileOk(MadeFs(meta, size, ninodes, root, apps).fs, root) <==> |Written(apps, root)| % BSIZE != 0
  {
    hide Inv, Slot, AppendAll, Rounded, FileOk, Blank, Content, Written;
    BlankGood(meta, size, ninodes);
    BlankTight(meta, size, ninodes);
    var blank := Blank(meta, size, ninodes);
    own := AppendAllRefines(blank, BlankOwners(meta, size), apps);
    var f := AppendAll(blank, apps).fs;
    AppendAllContent(blank, BlankOwners(meta, size), apps, root);
    BlankContent(meta, size, ninodes, root);
    assert f.ino[root].size == |Written(apps, root)|;
    IsDivMod(f.ino[root].size);
    RoundLeavesHoleIff(f, own, root);
    RoundedKeepsOthers(f, own, root);
  }

  /** What the hole costs: reading the whole root directory changes the disk, or runs out
      of blocks, exactly when what was written to it ends on a block boundary. */
  lemma RootReadIff(meta: nat, size: nat, ninodes: nat, root: int, apps: seq<Append>)
    requires 0 < meta <= size && 0 <= root < ninodes && AppendsOk(ninodes, apps)
    requires MadeFs(meta, size, ninodes, root, apps).Running? && |Written(apps, root)| + BSIZE < W32
    ensures var img := MadeFs(meta, size, ninodes, root, apps).fs;
            var r := Readi(img, root, 0, img.ino[root].size);
            (r.Read? && r.fs == img) <==> |Written(apps, root)| % BSIZE != 0
  {
    hide Inv, Slot, AppendAll, FileOk, Blank, Content, Written, Readi, Shape;
    var own := MadeIsGoodIff(meta, size, ninodes, root, apps);
    RootIsFile(meta, size, ninodes, root, apps);
    FsSpace.WholeReadIff(MadeFs(meta, size, ninodes, root, apps).fs, own, root);
  }

  lemma RootIsFile(meta: nat, size: nat, ninodes: nat, root: int, apps: seq<Append>)
    requires 0 < meta <= size && 0 <= root < ninodes && AppendsOk(ninodes, apps)
    requires MadeFs(meta, size, ninodes, root, apps).Running?
    ensures var n := MadeFs(meta, size, ninodes, root, apps).fs.ino[root];
            !n.dev && n.size == RoundUp(|Written(apps, root)|)
  {
    hide Inv, Slot, AppendAll, FileOk, Blank, Written;
    BlankGood(meta, size, ninodes);
    BlankTight(meta, size, ninodes);
    var blank := Blank(meta, size, ninodes);
    AppendAllContent(blank, BlankOwners(meta, size), apps, root);
    BlankContent(meta, size, ninodes, root);
    assert AppendAll(blank, apps).fs.ino[root].size == |Written(apps, root)|;
  }

  /** The image holds the files mkfs was given; the root directory begins with what was
      written to it. */
  lemma MadeContents(meta: nat, size: nat, ninodes: nat, root: int, apps: seq<Append>, j: int)
    requires 0 < meta <= size && 0 <= root < ninodes && AppendsOk(ninodes, apps) && 0 <= j < ninodes
    requires MadeFs(meta, size, ninodes, root, apps).Running?
    ensures var c := Content(MadeFs(meta, size, ninodes, root, apps).fs, j);
            if j != root then c == Written(apps, j)
            else |Written(apps, j)| <= |c| && c[..|Written(apps, j)|] == Written(apps, j)
  {
    hide Inv, Slot, AppendAll, FileOk, Blank, Written, ByteAt;
    BlankGood(meta, size, ninodes);
    BlankTight(meta, size, ninodes);
    var blank := Blank(meta, size, ninodes);
    AppendAllContent(blank, BlankOwners(meta, size), apps, j);
    BlankContent(meta, size, ninodes, j);
    var f, r := AppendAll(blank, apps).fs, MadeFs(meta, size, ninodes, root, apps).fs;
    assert [] + Written(apps, j) == Written(apps, j);
    forall k | 0 <= k < f.ino[j].size ensures Content(r, j)[k] == Content(f, j)[k] {
      ResizedByte(f, root, RoundUp(f.ino[root].size), j, k);
    }
    assert Content(r, j)[..f.ino[j].size] == Content(f, j);
  }

  lemma BlankTight(meta: nat, size: nat, ninodes: nat)
    requires 0 < meta <= size
    ensures Shape(Blank(meta, size, ninodes)) && AllTight(Blank(meta, size, ninodes))
    ensures |Blank(meta, size, ninodes).ino| == ninodes
  {
    BlankGood(meta, size, ninodes);
  }

  /** From any image mkfs makes, whatever is then read, written and truncated, a
      bitmap bit is set exactly for metadata and blocks held by a slot, and no block
      is held by two slots. */
  lemma NoBlockShared(meta: nat, size: nat, ninodes: nat, root: int, apps: seq<Append>, ops: seq<Op>)
    requires 0 < meta <= size && 0 <= root < ninodes && AppendsOk(ninodes, apps)
    requires MadeFs(meta, size, ninodes, root, apps).Running? && OpsOk(ninodes, ops)
    requires Run(MadeFs(meta, size, ninodes, root, apps).fs, ops).Running?
    ensures var fs := Run(MadeFs(meta, size, ninodes, root, apps).fs, ops).fs;
            && (forall b :: 0 <= b < |fs.bits| ==>
                  (fs.bits[b] <==> b < fs.meta || exists i, s :: SlotIndex(fs, i, s) && Slot(fs, i, s) == b))
            && (forall i, s, i', s' :: SlotIndex(fs, i, s) && SlotIndex(fs, i', s') && Slot(fs, i, s) == Slot(fs, i', s') != 0 ==>
                  i == i' && s == s')
  {
    hide Inv, Slot, Run, MadeFs;
    var own := MadeIsGoodIff(meta, size, ninodes, root, apps);
    var own' := RunKeepsInv(MadeFs(meta, size, ninodes, root, apps).fs, own, ops);
    InvMeans(Run(MadeFs(meta, size, ninodes, root, apps).fs, ops).fs, own');
  }

  /** And when the root directory did not end on a block boundary, every run treats
      files as byte sequences: no holes, inodes on disk as in memory, contents as the
      same operations on sequences give. */
  lemma FilesAreSequences(meta: nat, size: nat, ninodes: nat, root: int, apps: seq<Append>, ops: seq<Op>)
      returns (own: seq<Owner>)
    requires 0 < meta <= size && 0 <= root < ninodes && AppendsOk(ninodes, apps)
    requires MadeFs(meta, size, ninodes, root, apps).Running? && OpsOk(ninodes, ops)
    requires Run(MadeFs(meta, size, ninodes, root, apps).fs, ops).Running?
    requires |Written(apps, root)| % BSIZE != 0
    ensures var img := MadeFs(meta, size, ninodes, root, apps).fs;
            && Good(Run(img, ops).fs, own)
            && Contents(Run(img, ops).fs) == PlainRun(Contents(img), Devices(img), ops)
  {
    hide Inv, FileOk, Run, MadeFs, Contents, PlainRun, Written;
    own := MadeIsGoodIff(meta, size, ninodes, root, apps);
    own := RunRefines(MadeFs(meta, size, ninodes, root, apps).fs, own, ops);
  }

  // ---------- a root directory that fills its block ----------

  /** Inode i has its first block, or there is one to give it. */
  ghost predicate FirstBlockReady(fs: Fs, i: int)
    requires Shape(fs) && 0 <= i < |fs.ino|
  {
    Slot(fs, i, 0) != 0 || FirstFree(fs.bits, 0) < |fs.bits|
  }

  /** Data that stays in the first block can be appended. */
  lemma FirstBlockFits(fs: Fs, own: seq<Owner>, i: int, data: seq<int>)
    requires Inv(fs, own) && 0 <= i < |fs.ino| && FirstBlockReady(fs, i) && fs.ino[i].size + |data| <= BSIZE
    ensures Appended(fs, i, data).Running? && FirstBlockReady(Appended(fs, i, data).fs, i)
  {
    hide Inv, Slot, Grew, PutFrom, Wrote;
    InvShape(fs, own);
    var off := fs.ino[i].size;
    if data == [] {
      PutDone(fs, i, off, data);
      ResizedSlot(fs, i, off, i, 0);
    } else {
      assert Blk(off) == 0 && Off(off) == off;
      var own' := GetSlotKeeps(fs, own, i, 0);
      var own1 := ChunkWrote(fs, own, i, off, data);
      var f, a := Bmap(fs, i, 0).fs, Bmap(fs, i, 0).addr;
      PutStep(fs, i, off, data);
      assert data[..|data|] == data && data[|data|..] == [];
      var r := PatchAt(f, a, off, data);
      PutDone(r, i, off + |data|, []);
      PatchSlot(f, own', i, 0, off, data, i, 0);
      ResizedSlot(r, i, off + |data|, i, 0);
    }
  }

  lemma {:induction false} FillsFirstBlock(fs: Fs, own: seq<Owner>, i: int, apps: seq<Append>)
    requires Good(fs, own) && AllTight(fs) && AppendsOk(|fs.ino|, apps) && 0 <= i < |fs.ino| && FirstBlockReady(fs, i)
    requires (forall t :: 0 <= t < |apps| ==> apps[t].i == i) && fs.ino[i].size + |Written(apps, i)| <= BSIZE
    ensures AppendAll(fs, apps).Running?
    decreases |apps|
  {
    hide Inv, Appended, FileOk, AllTight, Content, FirstBlockReady;
    InvShape(fs, own);
    if apps != [] {
      var data := apps[0].data;
      FirstBlockFits(fs, own, i, data);
      var own1 := AppendRefines(fs, own, i, data);
      FillsFirstBlock(Appended(fs, i, data).fs, own1, i, apps[1..]);
    }
  }

  /** Such images are made: whenever entries that exactly fill one block are appended to
      the root directory, and there is a block to hold them, mkfs succeeds and leaves
      the root directory with a hole. */
  lemma FullRootHasHole(meta: nat, size: nat, ninodes: nat, root: int, apps: seq<Append>)
    requires 0 < meta < size && 0 <= root < ninodes && AppendsOk(ninodes, apps)
    requires (forall t :: 0 <= t < |apps| ==> apps[t].i == root) && |Written(apps, root)| == BSIZE
    ensures MadeFs(meta, size, ninodes, root, apps).Running?
    ensures !FileOk(MadeFs(meta, size, ninodes, root, apps).fs, root)
  {
    hide Inv, Slot, AppendAll, Rounded, FileOk, Written;
    BlankGood(meta, size, ninodes);
    BlankTight(meta, size, ninodes);
    var blank := Blank(meta, size, ninodes);
    FirstFreeIs(blank.bits, 0, meta);
    FillsFirstBlock(blank, BlankOwners(meta, size), root, apps);
    var own := MadeIsGoodIff(meta, size, ninodes, root, apps);
  }

  // ---------- the program ----------

  /** Taking the next block in order is what balloc would have done. */
  lemma NextIsFirstFree(fs: Fs, free: nat)
    requires Shape(fs) && free < |fs.blocks| && fs.bits == Prefix(|fs.blocks|, free) && fs.blocks[free] == Zero()
    ensures FirstFree(fs.bits, 0) == free
    ensures Taken(fs, free) == Fs.Fs(fs.meta, Prefix(|fs.blocks|, free + 1), fs.blocks, fs.ino, fs.dino)
  {
    FirstFreeIs(fs.bits, 0, free);
  }

  lemma NoneLeft(fs: Fs)
    requires Shape(fs) && fs.bits == Prefix(|fs.blocks|, |fs.blocks|)
    ensures FirstFree(fs.bits, 0) == |fs.bits|
  {
    FirstFreeIs(fs.bits, 0, |fs.bits|);
  }

  /** Reading a slot that is filled; the word read for an indirect one. */
  lemma SlotReads(fs: Fs, i: int, fbn: nat)
    requires Shape(fs) && 0 <= i < |fs.ino| && fbn < MAXFILE
    ensures forall s :: SlotIndex(fs, i, s) && Slot(fs, i, s) != 0 ==> GetSlot(fs, i, s) == Mapped(fs, Slot(fs, i, s))
    ensures fbn >= NDIRECT && fs.ino[i].addrs[NDIRECT] != 0 ==>
              && Whole(fs.blocks[fs.ino[i].addrs[NDIRECT]])
              && Slot(fs, i, fbn + 1) == Word(fs.blocks[fs.ino[i].addrs[NDIRECT]], fbn - NDIRECT)
  {
  }

  class Image {
    const meta: nat
    var freeblock: nat
    var blocks: seq<Block>
    var ino: seq<Inode>     // the inodes in the image

    /** The image as a file system, with `din` for inode i. */
    ghost function View(i: int, din: Inode): Fs
      reads this
      requires 0 <= i < |ino|
    {
      Fs.Fs(meta, Prefix(|blocks|, freeblock), blocks, ino[i := din], ino)
    }

    ghost predicate Valid(i: int, din: Inode)
      reads this
      requires 0 <= i < |ino|
    {
      && Shape(View(i, din)) && InodeShape(din, freeblock) && 0 < freeblock <= |blocks|
      && forall b :: freeblock <= b < |blocks| ==> blocks[b] == Zero()
    }

    /** Give empty slot s the next block; mkfs fails on reading past the image. */
    method Fill(i: int, din: Inode, s: int) returns (failed: bool, din': Inode, x: int)
      requires 0 <= i < |ino| && Valid(i, din) && 0 <= s < NSLOTS && Slot(View(i, din), i, s) == 0
      requires s > NDIRECT ==> din.addrs[NDIRECT] != 0
      modifies this`freeblock, this`blocks
      ensures match GetSlot(old(View(i, din)), i, s)
              case Mapped(f, a) => !failed && Valid(i, din') && View(i, din') == f && x == a
              case _ => failed
      ensures !failed ==> x != 0 && din' == if s <= NDIRECT then Inode(din.dev, din.size, din.addrs[s := x]) else din
    {
      ghost var fs := View(i, din);
      if freeblock == |blocks| {
        NoneLeft(View(i, din));
        return true, din, 0;
      }
      NextIsFirstFree(View(i, din), freeblock);
      din', x := din, freeblock;
      freeblock := freeblock + 1;
      if s <= NDIRECT {
        din' := Inode(din.dev, din.size, din.addrs[s := x]);
        assert fs.ino[i := din'] == ino[i := din'];
      } else {
        var ind := din.addrs[NDIRECT];
        blocks := blocks[ind := SetWord(blocks[ind], s - NDIRECT - 1, x)];
      }
      return false, din', x;
    }

    /** The block for block fbn of the file, as iappend finds or allocates it. */
    method Bmap(i: int, din: Inode, fbn: nat) returns (failed: bool, din': Inode, x: int)
      requires 0 <= i < |ino| && Valid(i, din) && fbn < MAXFILE
      modifies this`freeblock, this`blocks
      ensures match FsSpec.Bmap(old(View(i, din)), i, fbn)
              case Mapped(f, a) => !failed && Valid(i, din') && View(i, din') == f && x == a
              case _ => failed
    {
      hide GetSlot, Shape;
      ghost var fs := View(i, din);
      SlotReads(fs, i, fbn);
      failed, din' := false, din;
      if fbn < NDIRECT {
        x := din.addrs[fbn];
        if x == 0 {
          failed, din', x := Fill(i, din, fbn);
        }
        return;
      }
      if din.addrs[NDIRECT] == 0 {
        failed, din', x := Fill(i, din, NDIRECT);
        if failed {
          return;
        }
      }
      SlotReads(View(i, din'), i, fbn);
      x := Word(blocks[din'.addrs[NDIRECT]], fbn - NDIRECT);
      if x == 0 {
        failed, din', x := Fill(i, din', fbn + 1);
      }
    }

    /** One round of iappend's loop. */
    method AppendChunk(i: int, din: Inode, off: nat, data: seq<int>, ghost own: seq<Owner>)
        returns (failed: bool, din': Inode, m: nat, ghost own': seq<Owner>)
      requires 0 <= i < |ino| && Valid(i, din) && data != [] && Inv(View(i, din), own)
      modifies this`freeblock, this`blocks
      ensures m == ChunkLen(off, |data|)
      ensures var r := FsSpec.Bmap(old(View(i, din)), i, Blk(off));
              if r.Mapped? then
                && 0 <= r.addr < |r.fs.blocks| && !failed && Valid(i, din')
                && View(i, din') == PatchAt(r.fs, r.addr, Off(off), data[..m]) && Inv(View(i, din'), own')
              else failed
    {
      hide FsSpec.Bmap, Slot, Zero, Inv, Wrote, Grew;
      var fbn, o := Place(off);
      m := if |data| < BSIZE - o then |data| else BSIZE - o;
      own' := own;
      if fbn >= MAXFILE {
        TooLarge(View(i, din), i, fbn);
        return true, din, m, own;
      }
      ghost var fs := View(i, din);
      var x;
      failed, din', x := Bmap(i, din, fbn);
      if failed {
        return;
      }
      own' := BmapKeeps(fs, own, i, Blk(off));
      HeldBelow(View(i, din'), own', i, SlotOf(fbn), freeblock);
      own' := ChunkWrote(fs, own, i, off, data[..m]);
      blocks := blocks[x := Patch(blocks[x], o, data[..m])];
    }

    /** Append `data` to file i of the image. */
    method Iappend(i: int, data: seq<int>, ghost own: seq<Owner>) returns (failed: bool)
      requires 0 <= i < |ino| && Valid(i, ino[i]) && Inv(View(i, ino[i]), own)
      modifies this
      ensures |ino| == |old(ino)|
      ensures match Appended(old(View(i, ino[i])), i, data)
              case Running(f) => !failed && Valid(i, ino[i]) && View(i, ino[i]) == f
              case Halted => failed
    {
      hide FsSpec.Bmap, Slot, Inv, PutFrom;
      var din := ino[i];
      ghost var fs, own1 := View(i, din), own;
      var off: nat, rest := din.size, data;
      while rest != []
        invariant ino == old(ino) && Valid(i, din) && Inv(View(i, din), own1)
        invariant PutFrom(View(i, din), i, off, rest) == PutFrom(fs, i, fs.ino[i].size, data)
        invariant off + |rest| == fs.ino[i].size + |data|
        decreases |rest|
      {
        PutStep(View(i, din), i, off, rest);
        var m;
        failed, din, m, own1 := AppendChunk(i, din, off, rest, own1);
        if failed {
          return;
        }
        off, rest := off + m, rest[m..];
      }
      PutDone(View(i, din), i, off, rest);
      ghost var f := View(i, din);
      din := Inode(din.dev, off, din.addrs);
      assert f.ino[i := din] == ino[i := din];
      ino := ino[i := din];
      assert ino[i := din] == ino;
      return false;
    }

    /** Set the bits of the blocks given out. */
    method BitmapBits() returns (bits: seq<bool>)
      ensures bits == Prefix(|blocks|, freeblock)
    {
      bits := seq(|blocks|, _ => false);
      var b := 0;
      while b < freeblock && b < |blocks|
        invariant 0 <= b && |bits| == |blocks|
        invariant forall k :: 0 <= k < |bits| ==> (bits[k] <==> k < b)
        invariant b <= freeblock
      {
        bits := bits[b := true];
        b := b + 1;
      }
    }
  }

  lemma HeldBelow(fs: Fs, own: seq<Owner>, i: int, s: int, free: nat)
    requires Inv(fs, own) && SlotIndex(fs, i, s) && Slot(fs, i, s) != 0 && fs.bits == Prefix(|fs.blocks|, free)
    ensures 0 < Slot(fs, i, s) < free
  {
    assert SlotOk(fs, own, i, s);
    assert BlockOk(fs, own, Slot(fs, i, s));
  }

  lemma TooLarge(fs: Fs, i: int, bn: nat)
    requires Shape(fs) && 0 <= i < |fs.ino| && bn >= MAXFILE
    ensures Bmap(fs, i, bn) == OutOfRange
  {
  }
}
