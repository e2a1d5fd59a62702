/** How many blocks an operation takes: exactly when writei runs out of them, and when
    readi allocates. */
module FsSpace {
  import opened Params
  import opened Blocks
  import opened FsSpec
  import opened FsData
  import opened FsOps
  import LogOps

  /** The empty slots of inode i. */
  ghost function Gaps(fs: Fs, i: int): (g: set<int>)
    requires Shape(fs) && 0 <= i < |fs.ino|
    ensures forall s :: s in g <==> 0 <= s < NSLOTS && Slot(fs, i, s) == 0
  {
    assert forall s :: 0 <= s < NSLOTS ==> SlotIndex(fs, i, s);
    set s | 0 <= s < NSLOTS && Slot(fs, i, s) == 0
  }

  /** The free blocks. */
  function Clear(bits: seq<bool>): (c: set<int>)
    ensures forall b :: b in c <==> 0 <= b < |bits| && !bits[b]
  {
    set b | 0 <= b < |bits| && !bits[b]
  }

  /** The slots bmap goes through for block bn of a file. */
  function SlotsOf(bn: int): (s: set<int>) {
    if bn < NDIRECT then {bn} else {NDIRECT, bn + 1}
  }

  /** The slots for the n bytes from offset off. */
  ghost function Wanted(off: nat, n: nat): (w: set<int>) {
    set k, s | off <= k < off + n && s in SlotsOf(Blk(k)) :: s
  }

  lemma WantedStep(off: nat, n: nat)
    requires n > 0
    ensures var m := ChunkLen(off, n); Wanted(off, n) == SlotsOf(Blk(off)) + Wanted(off + m, n - m)
  {
    hide Blk, Off, SlotsOf;
    var m := ChunkLen(off, n);
    forall k | off <= k < off + m ensures Blk(k) == Blk(off) {
      Advance(off, k - off);
    }
    var rest := Wanted(off + m, n - m);
    forall s ensures s in Wanted(off, n) <==> s in SlotsOf(Blk(off)) || s in rest {
      if s in SlotsOf(Blk(off)) {
        assert off <= off < off + n;
      }
      if s in rest {
        var k :| off + m <= k < off + n && s in SlotsOf(Blk(k));
      }
      if s in Wanted(off, n) {
        var k :| off <= k < off + n && s in SlotsOf(Blk(k));
        if k >= off + m {
          assert off + m <= k < off + m + (n - m);
        }
      }
    }
  }

  lemma WantedNothing(off: nat)
    ensures Wanted(off, 0) == {}
  {
  }

  /** Exactly the empty slots among `s` were filled, each with a block that was free. */
  ghost predicate Filled(fs: Fs, f: Fs, i: int, s: set<int>)
    requires Shape(fs) && Shape(f) && 0 <= i < |fs.ino| == |f.ino|
  {
    Gaps(f, i) == Gaps(fs, i) - s && |Clear(f.bits)| == |Clear(fs.bits)| - |Gaps(fs, i) * s|
  }

  lemma SplitGaps(g: set<int>, s: set<int>, t: set<int>)
    ensures |g * (s + t)| == |g * s| + |(g - s) * t|
  {
    assert g * (s + t) == g * s + (g - s) * t;
  }

  lemma FilledTrans(a: Fs, b: Fs, c: Fs, i: int, s: set<int>, t: set<int>)
    requires Shape(a) && Shape(b) && Shape(c) && 0 <= i < |a.ino| == |b.ino| == |c.ino|
    requires Filled(a, b, i, s) && Filled(b, c, i, t)
    ensures Filled(a, c, i, s + t)
  {
    hide Slot, Shape, Gaps, Clear;
    SplitGaps(Gaps(a, i), s, t);
  }

  lemma FirstFreeClear(bits: seq<bool>)
    ensures FirstFree(bits, 0) == |bits| <==> Clear(bits) == {}
  {
    if FirstFree(bits, 0) < |bits| {
      assert FirstFree(bits, 0) in Clear(bits);
    }
  }

  lemma GetSlotSpace(fs: Fs, own: seq<Owner>, i: int, s: int)
    requires Inv(fs, own) && SlotIndex(fs, i, s) && (s > NDIRECT ==> fs.ino[i].addrs[NDIRECT] != 0)
    ensures Shape(fs) && (GetSlot(fs, i, s).Mapped? <==> |Gaps(fs, i) * {s}| <= |Clear(fs.bits)|)
    ensures GetSlot(fs, i, s).Mapped? ==> Filled(fs, GetSlot(fs, i, s).fs, i, {s})
  {
    hide Inv, Attach;
    InvShape(fs, own);
    var g := Gaps(fs, i);
    if Slot(fs, i, s) != 0 {
      assert g * {s} == {} && g - {s} == g;
    } else {
      assert g * {s} == {s};
      FirstFreeClear(fs.bits);
      var b := FirstFree(fs.bits, 0);
      if b < |fs.bits| {
        AttachSpace(fs, own, i, s, b);
      }
    }
  }

  lemma AttachSpace(fs: Fs, own: seq<Owner>, i: int, s: int, b: int)
    requires CanFill(fs, own, i, s, b)
    ensures CanAttach(fs, i, s, b) && Shape(Attach(fs, i, s, b)) && |Attach(fs, i, s, b).ino| == |fs.ino|
    ensures Filled(fs, Attach(fs, i, s, b), i, {s})
  {
    hide Inv, Slot, Attach, Shape;
    InvShape(fs, own);
    AttachShape(fs, own, i, s, b);
    AttachBits(fs, own, i, s, b);
    var r := Attach(fs, i, s, b);
    forall s' | 0 <= s' < NSLOTS ensures Slot(r, i, s') == if s' == s then b else Slot(fs, i, s') {
      AttachSlot(fs, own, i, s, b, i, s');
    }
    assert Gaps(r, i) == Gaps(fs, i) - {s};
    assert Gaps(fs, i) * {s} == {s};
    assert Clear(r.bits) == Clear(fs.bits) - {b};
  }

  lemma AttachBits(fs: Fs, own: seq<Owner>, i: int, s: int, b: int)
    requires CanFill(fs, own, i, s, b)
    ensures CanAttach(fs, i, s, b) && 0 < b < |fs.bits|
    ensures Attach(fs, i, s, b).bits == fs.bits[b := true] && |Attach(fs, i, s, b).ino| == |fs.ino|
  {
    AttachShape(fs, own, i, s, b);
    FreeIsUnheld(fs, own, b, i);
  }

  lemma BmapSpace(fs: Fs, own: seq<Owner>, i: int, bn: int)
    requires Inv(fs, own) && 0 <= i < |fs.ino| && 0 <= bn < MAXFILE
    ensures Shape(fs) && (Bmap(fs, i, bn).Mapped? <==> |Gaps(fs, i) * SlotsOf(bn)| <= |Clear(fs.bits)|)
    ensures Bmap(fs, i, bn).Mapped? ==> Filled(fs, Bmap(fs, i, bn).fs, i, SlotsOf(bn))
  {
    hide Inv, GetSlot, Grew, Slot;
    InvShape(fs, own);
    if bn < NDIRECT {
      GetSlotSpace(fs, own, i, bn);
    } else {
      GetSlotSpace(fs, own, i, NDIRECT);
      var g, r := Gaps(fs, i), GetSlot(fs, i, NDIRECT);
      assert {NDIRECT, bn + 1} == {NDIRECT} + {bn + 1};
      SplitGaps(g, {NDIRECT}, {bn + 1});
      if r.Mapped? {
        var own1 := GetSlotKeeps(fs, own, i, NDIRECT);
        HasIndirect(r.fs, own1, i);
        GetSlotSpace(r.fs, own1, i, bn + 1);
        if GetSlot(r.fs, i, bn + 1).Mapped? {
          FilledTrans(fs, r.fs, GetSlot(r.fs, i, bn + 1).fs, i, {NDIRECT}, {bn + 1});
        }
      }
    }
  }

  lemma HasIndirect(fs: Fs, own: seq<Owner>, i: int)
    requires Inv(fs, own) && 0 <= i < |fs.ino| && Slot(fs, i, NDIRECT) != 0
    ensures fs.ino[i].addrs[NDIRECT] != 0
  {
  }

  lemma PatchSpace(fs: Fs, own: seq<Owner>, i: int, s: int, o: nat, chunk: seq<int>)
    requires Inv(fs, own) && SlotIndex(fs, i, s) && s != NDIRECT && Slot(fs, i, s) != 0 && o + |chunk| <= BSIZE
    ensures Shape(fs) && 0 <= Slot(fs, i, s) < |fs.blocks|
    ensures var r := PatchAt(fs, Slot(fs, i, s), o, chunk);
            Shape(r) && Gaps(r, i) == Gaps(fs, i) && r.bits == fs.bits
  {
    hide Inv;
    InvShape(fs, own);
    PatchSlot(fs, own, i, s, o, chunk, i, s);
    var r := PatchAt(fs, Slot(fs, i, s), o, chunk);
    forall s' | 0 <= s' < NSLOTS ensures Slot(r, i, s') == Slot(fs, i, s') {
      PatchSlot(fs, own, i, s, o, chunk, i, s');
    }
  }

  // ---------- whole operations ----------

  lemma NextInFile(off: nat, n: nat)
    requires 0 < n && off + n <= MAXFILE * BSIZE
    ensures Blk(off) < MAXFILE
  {
    InFile(off);
  }

  /** One round of writei's loop. */
  lemma ChunkSpace(fs: Fs, own: seq<Owner>, i: int, off: nat, chunk: seq<int>) returns (own': seq<Owner>)
    requires Inv(fs, own) && 0 <= i < |fs.ino| && Blk(off) < MAXFILE && Off(off) + |chunk| <= BSIZE
    requires Bmap(fs, i, Blk(off)).Mapped?
    ensures var r := Bmap(fs, i, Blk(off));
            && Shape(fs) && 0 <= r.addr < |r.fs.blocks| && Whole(r.fs.blocks[r.addr])
            && var f := PatchAt(r.fs, r.addr, Off(off), chunk);
            && Inv(f, own') && Shape(f) && |f.ino| == |fs.ino| && Filled(fs, f, i, SlotsOf(Blk(off)))
  {
    hide Inv, Bmap, Grew, Slot, SlotsOf, Wrote, Gaps, Shape;
    InvShape(fs, own);
    BmapSpace(fs, own, i, Blk(off));
    var own1 := BmapKeeps(fs, own, i, Blk(off));
    own' := ChunkWrote(fs, own, i, off, chunk);
    ShapeSlots(Bmap(fs, i, Blk(off)).fs, i, SlotOf(Blk(off)));
    PatchSpace(Bmap(fs, i, Blk(off)).fs, own1, i, SlotOf(Blk(off)), Off(off), chunk);
  }

  lemma ShapeSlots(fs: Fs, i: int, s: int)
    requires Shape(fs) && 0 <= i < |fs.ino| && 0 <= s < NSLOTS
    ensures SlotIndex(fs, i, s) && forall b :: 0 <= b < |fs.blocks| ==> Whole(fs.blocks[b])
  {
  }

  /** What is short for the first round, or for the rest after it, is short for both. */
  lemma RestShort(fs: Fs, f: Fs, i: int, s: set<int>, t: set<int>)
    requires Shape(fs) && Shape(f) && 0 <= i < |fs.ino| == |f.ino| && Filled(fs, f, i, s)
    ensures |Gaps(f, i) * t| <= |Clear(f.bits)| <==> |Gaps(fs, i) * (s + t)| <= |Clear(fs.bits)|
  {
    hide Slot, Shape, Gaps, Clear;
    SplitGaps(Gaps(fs, i), s, t);
  }

  lemma NoGapWanted(fs: Fs, i: int)
    requires Shape(fs) && 0 <= i < |fs.ino|
    ensures Filled(fs, fs, i, {}) && |Gaps(fs, i) * {}| == 0
  {
    assert Gaps(fs, i) * {} == {} && Gaps(fs, i) - {} == Gaps(fs, i);
  }

  /** writei's loop finishes exactly when there is a free block for every slot it needs
      and finds empty, and then it has filled exactly those. */
  lemma {:induction false} PutSpace(fs: Fs, own: seq<Owner>, i: int, off: nat, data: seq<int>)
    requires Inv(fs, own) && 0 <= i < |fs.ino| && off + |data| <= MAXFILE * BSIZE
    ensures Shape(fs) && (PutFrom(fs, i, off, data).Done? <==> |Gaps(fs, i) * Wanted(off, |data|)| <= |Clear(fs.bits)|)
    ensures PutFrom(fs, i, off, data).Done? ==> Filled(fs, PutFrom(fs, i, off, data).fs, i, Wanted(off, |data|))
    decreases |data|
  {
    hide Inv, Bmap, Slot, SlotsOf, Gaps, Shape, Filled, PatchAt, PutFrom, Wanted;
    InvShape(fs, own);
    if data == [] {
      WantedNothing(off);
      NoGapWanted(fs, i);
      PutDone(fs, i, off, data);
    } else {
      var m, bn := ChunkLen(off, |data|), Blk(off);
      var rest := Wanted(off + m, |data| - m);
      WantedStep(off, |data|);
      NextInFile(off, |data|);
      PutStep(fs, i, off, data);
      BmapSpace(fs, own, i, bn);
      if Bmap(fs, i, bn).Mapped? {
        var own1 := ChunkSpace(fs, own, i, off, data[..m]);
        var f := PatchAt(Bmap(fs, i, bn).fs, Bmap(fs, i, bn).addr, Off(off), data[..m]);
        PutSpace(f, own1, i, off + m, data[m..]);
        RestShort(fs, f, i, SlotsOf(bn), rest);
        if PutFrom(f, i, off + m, data[m..]).Done? {
          FilledTrans(fs, f, PutFrom(f, i, off + m, data[m..]).fs, i, SlotsOf(bn), rest);
        }
      } else {
        SplitGaps(Gaps(fs, i), SlotsOf(bn), rest);
      }
    }
  }

  /** writei panics for want of blocks exactly when it needs more than are free: one for
      each empty slot among those of the bytes written, and of the indirect block. */
  lemma WritePanicsIff(fs: Fs, own: seq<Owner>, i: int, off: nat, data: seq<int>)
    requires Inv(fs, own) && 0 <= i < |fs.ino| && off < W32 && |data| < W32
    ensures Shape(fs)
    ensures Writei(fs, i, off, data).WritePanic? <==>
              && !fs.ino[i].dev && off <= fs.ino[i].size && off + |data| <= MAXFILE * BSIZE
              && |Gaps(fs, i) * Wanted(off, |data|)| > |Clear(fs.bits)|
  {
    hide Inv, PutFrom, Gaps, Wanted;
    InvShape(fs, own);
    RefusesExactly(fs.ino[i].size, off, |data|);
    if off + |data| <= MAXFILE * BSIZE {
      PutSpace(fs, own, i, off, data);
    }
  }

  // ---------- reading ----------

  lemma GetStep(fs: Fs, i: int, off: nat, n: nat)
    requires Shape(fs) && 0 <= i < |fs.ino| && n > 0
    ensures var r, m := Bmap(fs, i, Blk(off)), ChunkLen(off, n);
            if r.Mapped? && 0 <= r.addr < |r.fs.blocks| then
              var rest := GetFrom(r.fs, i, off + m, n - m);
              && (GetFrom(fs, i, off, n).Got? <==> rest.Got?)
              && (rest.Got? ==> GetFrom(fs, i, off, n).fs == rest.fs)
            else GetFrom(fs, i, off, n) == GetPanic
  {
    hide Bmap, Slot;
  }

  /** readi's loop takes blocks as writei's does: nothing else about it depends on
      whether the bytes are there. */
  lemma {:induction false} GetSpace(fs: Fs, own: seq<Owner>, i: int, off: nat, n: nat)
    requires Inv(fs, own) && 0 <= i < |fs.ino| && off + n <= MAXFILE * BSIZE
    ensures Shape(fs) && (GetFrom(fs, i, off, n).Got? <==> |Gaps(fs, i) * Wanted(off, n)| <= |Clear(fs.bits)|)
    ensures GetFrom(fs, i, off, n).Got? ==>
              Filled(fs, GetFrom(fs, i, off, n).fs, i, Wanted(off, n)) && Grew(fs, GetFrom(fs, i, off, n).fs, i)
    decreases n
  {
    hide Inv, Bmap, Slot, SlotsOf, Gaps, Shape, Filled, GetFrom, Wanted, Grew;
    InvShape(fs, own);
    if n == 0 {
      WantedNothing(off);
      NoGapWanted(fs, i);
      GetNothing(fs, i, off);
      GrewRefl(fs, i);
    } else {
      var m, bn := ChunkLen(off, n), Blk(off);
      var rest := Wanted(off + m, n - m);
      WantedStep(off, n);
      NextInFile(off, n);
      GetStep(fs, i, off, n);
      BmapSpace(fs, own, i, bn);
      if Bmap(fs, i, bn).Mapped? {
        var f := Bmap(fs, i, bn).fs;
        var own1 := BmapKeeps(fs, own, i, bn);
        AddrInRange(f, own1, i, bn);
        GetSpace(f, own1, i, off + m, n - m);
        RestShort(fs, f, i, SlotsOf(bn), rest);
        if GetFrom(f, i, off + m, n - m).Got? {
          FilledTrans(fs, f, GetFrom(f, i, off + m, n - m).fs, i, SlotsOf(bn), rest);
          GrewTrans(fs, f, GetFrom(f, i, off + m, n - m).fs, i);
        }
      } else {
        SplitGaps(Gaps(fs, i), SlotsOf(bn), rest);
      }
    }
  }

  lemma GetNothing(fs: Fs, i: int, off: nat)
    requires Shape(fs) && 0 <= i < |fs.ino|
    ensures GetFrom(fs, i, off, 0) == Got(fs, [])
  {
  }

  lemma AddrInRange(fs: Fs, own: seq<Owner>, i: int, bn: int)
    requires Inv(fs, own) && 0 <= i < |fs.ino| && 0 <= bn < MAXFILE && Slot(fs, i, SlotOf(bn)) != 0
    ensures Shape(fs) && 0 <= Slot(fs, i, SlotOf(bn)) < |fs.blocks|
  {
    assert SlotIndex(fs, i, SlotOf(bn));
    assert SlotOk(fs, own, i, SlotOf(bn));
  }

  lemma ByteWanted(off: nat, n: nat, k: nat)
    requires off <= k < off + n <= MAXFILE * BSIZE
    ensures Blk(k) < MAXFILE && SlotOf(Blk(k)) in Wanted(off, n)
  {
    hide Blk;
    InFile(k);
    assert SlotOf(Blk(k)) in SlotsOf(Blk(k));
  }

  lemma GapIsByte(fs: Fs, i: int, off: nat, n: nat, s: int) returns (k: nat)
    requires Shape(fs) && 0 <= i < |fs.ino| && off + n <= MAXFILE * BSIZE && s in Gaps(fs, i) * Wanted(off, n)
    ensures off <= k < off + n && Addr(fs, i, k) == 0
  {
    hide Blk, Shape;
    k :| off <= k < off + n && s in SlotsOf(Blk(k));
    InFile(k);
  }

  /** Nothing is wanted that is not there exactly when every byte has its block. */
  lemma NoGapsIff(fs: Fs, i: int, off: nat, n: nat)
    requires Shape(fs) && 0 <= i < |fs.ino| && off + n <= MAXFILE * BSIZE
    ensures Gaps(fs, i) * Wanted(off, n) == {} <==> forall k :: off <= k < off + n ==> Addr(fs, i, k) != 0
  {
    hide Shape, Slot, Blk, Wanted;
    var g := Gaps(fs, i) * Wanted(off, n);
    if s :| s in g {
      var k := GapIsByte(fs, i, off, n, s);
    }
    forall k | off <= k < off + n && Addr(fs, i, k) == 0 ensures SlotOf(Blk(k)) in g {
      ByteWanted(off, n, k);
    }
  }

  lemma {:induction false} GetUnchanged(fs: Fs, own: seq<Owner>, i: int, off: nat, n: nat)
    requires Inv(fs, own) && 0 <= i < |fs.ino| && forall k :: off <= k < off + n ==> Addr(fs, i, k) != 0
    ensures GetFrom(fs, i, off, n).Got? && GetFrom(fs, i, off, n).fs == fs
    decreases n
  {
    hide Inv, Slot, Bmap;
    InvShape(fs, own);
    if n > 0 {
      HeldInRange(fs, own, i, off);
      BmapMapped(fs, i, Blk(off));
      GetUnchanged(fs, own, i, off + ChunkLen(off, n), n - ChunkLen(off, n));
    }
  }

  /** The bytes readi copies. */
  function ReadLen(size: nat, off: nat, n: nat): (len: nat)
    requires off <= size
  {
    if off + n > size then size - off else n
  }

  /** What a read does to the disk: it takes a block for every gap in the range, and runs
      out of blocks exactly when there are too few; it changes nothing exactly when
      every byte in the range has its block; and the inode on disk, which it never
      updates, agrees afterwards exactly when no gap was among the inode's own
      addresses. */
  lemma ReadAllocatesIff(fs: Fs, own: seq<Owner>, i: int, off: nat, n: nat)
    requires Inv(fs, own) && 0 <= i < |fs.ino| && off + n < W32
    requires !fs.ino[i].dev && off <= fs.ino[i].size <= MAXFILE * BSIZE
    ensures Shape(fs)
    ensures var len := ReadLen(fs.ino[i].size, off, n);
            var gaps := Gaps(fs, i) * Wanted(off, len);
            var r := Readi(fs, i, off, n);
            && (r.ReadPanic? <==> |gaps| > |Clear(fs.bits)|)
            && (r.Read? <==> |gaps| <= |Clear(fs.bits)|)
            && (r.Read? ==> |Clear(r.fs.bits)| == |Clear(fs.bits)| - |gaps| && r.fs.dino == fs.dino)
            && (r.Read? ==> (r.fs.ino == fs.ino <==> forall s :: s in gaps ==> s > NDIRECT))
            && ((r.Read? && r.fs == fs) <==> forall k :: off <= k < off + len ==> Addr(fs, i, k) != 0)
  {
    hide Inv, GetFrom, Wanted, Slot, Shape, Grew, Blk;
    InvShape(fs, own);
    var len := ReadLen(fs.ino[i].size, off, n);
    Wraps(off, n);
    GetSpace(fs, own, i, off, len);
    NoGapsIff(fs, i, off, len);
    if forall k :: off <= k < off + len ==> Addr(fs, i, k) != 0 {
      GetUnchanged(fs, own, i, off, len);
    }
    if GetFrom(fs, i, off, len).Got? {
      AddrsKeptIff(fs, GetFrom(fs, i, off, len).fs, i, Wanted(off, len));
    }
  }

  /** The inode keeps its addresses exactly when none of its own was filled. */
  lemma AddrsKeptIff(fs: Fs, f: Fs, i: int, w: set<int>)
    requires Grew(fs, f, i) && Filled(fs, f, i, w)
    ensures Shape(fs) && f.dino == fs.dino
    ensures f.ino == fs.ino <==> forall s :: s in Gaps(fs, i) * w ==> s > NDIRECT
  {
    hide Word;
    forall s | 0 <= s <= NDIRECT
      ensures fs.ino[i].addrs[s] == Slot(fs, i, s) && f.ino[i].addrs[s] == Slot(f, i, s)
      ensures s in Gaps(fs, i) * w <==> fs.ino[i].addrs[s] != f.ino[i].addrs[s]
    {
      assert SlotIndex(fs, i, s) && SlotKept(fs, f, i, i, s);
    }
    if forall s :: s in Gaps(fs, i) * w ==> s > NDIRECT {
      assert fs.ino[i].addrs == f.ino[i].addrs;
    } else {
      var s :| s in Gaps(fs, i) * w && s <= NDIRECT;
      assert fs.ino[i].addrs[s] != f.ino[i].addrs[s];
    }
  }

  lemma {:induction false} GotInFile(fs: Fs, own: seq<Owner>, i: int, off: nat, n: nat)
    requires Inv(fs, own) && 0 <= i < |fs.ino| && n > 0 && GetFrom(fs, i, off, n).Got?
    ensures off + n <= MAXFILE * BSIZE
    decreases n
  {
    hide Inv, Bmap, Slot, GetFrom, Grew;
    InvShape(fs, own);
    var m := ChunkLen(off, n);
    GetStep(fs, i, off, n);
    var own1 := BmapKeeps(fs, own, i, Blk(off));
    if m < n {
      GotInFile(Bmap(fs, i, Blk(off)).fs, own1, i, off + m, n - m);
    } else {
      DivMod(off);
      if Blk(off) < MAXFILE - 1 {
        Multiples(Blk(off), MAXFILE - 1);
      }
      assert MAXFILE * BSIZE == (MAXFILE - 1) * BSIZE + BSIZE;
    }
  }

  /** Reading a whole file changes nothing exactly when the file has no hole. */
  lemma WholeReadIff(fs: Fs, own: seq<Owner>, i: int)
    requires Inv(fs, own) && 0 <= i < |fs.ino| && !fs.ino[i].dev && fs.ino[i].size < W32
    ensures Shape(fs)
    ensures var r := Readi(fs, i, 0, fs.ino[i].size); (r.Read? && r.fs == fs) <==> FileOk(fs, i)
  {
    hide Inv, GetFrom, Slot, Shape;
    InvShape(fs, own);
    var size := fs.ino[i].size;
    Wraps(0, size);
    if size <= MAXFILE * BSIZE {
      ReadAllocatesIff(fs, own, i, 0, size);
    } else if GetFrom(fs, i, 0, size).Got? {
      GotInFile(fs, own, i, 0, size);
    }
  }

  /** A read that allocates writes a block to the log, so it needs log_write not to panic. */
  ghost predicate Completes(fs: Fs, i: int, off: nat, n: nat, log: LogOps.LogState, size: int)
    requires Shape(fs) && 0 <= i < |fs.ino|
  {
    var r := Readi(fs, i, off, n);
    r.Read? && (r.fs == fs || exists b :: !LogOps.LogWrite(log, size, b).Panic?)
  }

  /** fileread calls readi outside any operation: while no operation is outstanding it
      completes exactly when every byte in the range has its block. */
  lemma ReadOutsideIff(fs: Fs, own: seq<Owner>, i: int, off: nat, n: nat, log: LogOps.LogState, size: int)
    requires Inv(fs, own) && 0 <= i < |fs.ino| && off + n < W32 && log.outstanding < 1
    requires !fs.ino[i].dev && off <= fs.ino[i].size <= MAXFILE * BSIZE
    ensures Shape(fs)
    ensures Completes(fs, i, off, n, log, size) <==>
              forall k :: off <= k < off + ReadLen(fs.ino[i].size, off, n) ==> Addr(fs, i, k) != 0
  {
    hide Inv, Readi, Slot, Shape, Gaps, Wanted, Clear;
    ReadAllocatesIff(fs, own, i, off, n);
  }
}
