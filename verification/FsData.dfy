/** File contents: reads and writes as operations on plain byte sequences, and
    truncation as giving back exactly the blocks the inode held. */
module FsData {
  import opened Params
  import opened Blocks
  import opened FsSpec

  // ---------- bytes of a file ----------

  /** The block holding byte k of inode j, 0 if none. */
  ghost function Addr(fs: Fs, j: int, k: int): int
    requires Shape(fs) && 0 <= j < |fs.ino| && 0 <= k
  {
    if Blk(k) < MAXFILE then Slot(fs, j, SlotOf(Blk(k))) else 0
  }

  ghost function ByteAt(fs: Fs, j: int, k: int): int
    requires Shape(fs) && 0 <= j < |fs.ino| && 0 <= k
  {
    var a := Addr(fs, j, k);
    if 0 < a < |fs.blocks| then fs.blocks[a].bytes[Off(k)] else 0
  }

  ghost predicate AddrKept(fs: Fs, fs': Fs, i: int, j: int, k: int)
    requires Shape(fs) && Shape(fs') && 0 <= j < |fs.ino| == |fs'.ino| && 0 <= k
  {
    Addr(fs, j, k) != 0 || j != i ==> Addr(fs', j, k) == Addr(fs, j, k)
  }

  ghost predicate ByteKept(fs: Fs, fs': Fs, j: int, k: int)
    requires Shape(fs) && Shape(fs') && 0 <= j < |fs.ino| == |fs'.ino| && 0 <= k
  {
    Addr(fs, j, k) != 0 ==> ByteAt(fs', j, k) == ByteAt(fs, j, k)
  }

  /** Byte k is as written, if it is one of the bytes written. */
  ghost predicate ByteWritten(fs: Fs, i: int, off: nat, data: seq<int>, k: int)
    requires Shape(fs) && 0 <= i < |fs.ino| && 0 <= k
  {
    off <= k < off + |data| ==> Addr(fs, i, k) != 0 && ByteAt(fs, i, k) == data[k-off]
  }

  /** fs' is fs with `data` at bytes off.. of inode i and nothing else overwritten. */
  ghost predicate Wrote(fs: Fs, fs': Fs, i: int, off: nat, data: seq<int>) {
    && Shape(fs) && Shape(fs') && SameButAddrs(fs, fs', i)
    && (forall j, k :: 0 <= j < |fs.ino| && 0 <= k ==> AddrKept(fs, fs', i, j, k))
    && (forall j, k :: 0 <= j < |fs.ino| && 0 <= k && !(j == i && off <= k < off + |data|) ==> ByteKept(fs, fs', j, k))
    && (forall k :: 0 <= k ==> ByteWritten(fs', i, off, data, k))
  }

  // ---------- the copy loop of writei ----------

  /** Overwrite part of block a. */
  function PatchAt(fs: Fs, a: int, o: nat, chunk: seq<int>): (r: Fs)
    requires 0 <= a < |fs.blocks| && Whole(fs.blocks[a]) && o + |chunk| <= BSIZE
  {
    Fs(fs.meta, fs.bits, fs.blocks[a := Patch(fs.blocks[a], o, chunk)], fs.ino, fs.dino)
  }

  function ChunkLen(off: nat, n: nat): (m: nat)
    ensures m <= n && Off(off) + m <= BSIZE && (n > 0 ==> m > 0)
  {
    if n < BSIZE - Off(off) then n else BSIZE - Off(off)
  }

  datatype PutResult = Done(fs: Fs) | Panicked

  ghost function PutFrom(fs: Fs, i: int, off: nat, data: seq<int>): (r: PutResult)
    requires Shape(fs) && 0 <= i < |fs.ino|
    ensures r.Done? ==> Shape(r.fs) && |r.fs.ino| == |fs.ino|
    decreases |data|
  {
    if data == [] then Done(fs)
    else
      match Bmap(fs, i, Blk(off))
      case Mapped(f, a) =>
        var m := ChunkLen(off, |data|);
        if 0 <= a < |f.blocks| then PutFrom(PatchAt(f, a, Off(off), data[..m]), i, off + m, data[m..])
        else Panicked
      case _ => Panicked
  }

  lemma PutStep(fs: Fs, i: int, off: nat, data: seq<int>)
    requires Shape(fs) && 0 <= i < |fs.ino| && data != []
    ensures var r, m := Bmap(fs, i, Blk(off)), ChunkLen(off, |data|);
            if r.Mapped? && 0 <= r.addr < |r.fs.blocks| then
              && Shape(PatchAt(r.fs, r.addr, Off(off), data[..m]))
              && PutFrom(fs, i, off, data) == PutFrom(PatchAt(r.fs, r.addr, Off(off), data[..m]), i, off + m, data[m..])
            else PutFrom(fs, i, off, data) == Panicked
  {
    hide Bmap, Slot;
  }

  lemma PutDone(fs: Fs, i: int, off: nat, data: seq<int>)
    requires Shape(fs) && 0 <= i < |fs.ino| && data == []
    ensures PutFrom(fs, i, off, data) == Done(fs)
  {
  }

  // ---------- one chunk ----------

  /** Overwriting a data block moves no slot. */
  lemma PatchSlot(fs: Fs, own: seq<Owner>, i: int, s: int, o: nat, chunk: seq<int>, j: int, s': int)
    requires Inv(fs, own) && SlotIndex(fs, i, s) && s != NDIRECT && Slot(fs, i, s) != 0 && o + |chunk| <= BSIZE
    requires SlotIndex(fs, j, s')
    ensures 0 <= Slot(fs, i, s) < |fs.blocks|
    ensures var r := PatchAt(fs, Slot(fs, i, s), o, chunk);
            Shape(r) && Slot(r, j, s') == Slot(fs, j, s')
  {
    assert SlotOk(fs, own, i, s);
    assert SlotIndex(fs, j, NDIRECT) && SlotOk(fs, own, j, NDIRECT);
  }

  lemma PatchKeepsInv(fs: Fs, own: seq<Owner>, i: int, s: int, o: nat, chunk: seq<int>)
    requires Inv(fs, own) && SlotIndex(fs, i, s) && s != NDIRECT && Slot(fs, i, s) != 0 && o + |chunk| <= BSIZE
    ensures 0 <= Slot(fs, i, s) < |fs.blocks|
    ensures Inv(PatchAt(fs, Slot(fs, i, s), o, chunk), own)
  {
    PatchSlot(fs, own, i, s, o, chunk, i, s);
    var r := PatchAt(fs, Slot(fs, i, s), o, chunk);
    forall j, s' | SlotIndex(r, j, s') ensures SlotOk(r, own, j, s') {
      PatchSlot(fs, own, i, s, o, chunk, j, s');
      assert SlotOk(fs, own, j, s');
    }
    forall b | 0 <= b < |own| ensures BlockOk(r, own, b) {
      assert BlockOk(fs, own, b);
      if own[b].By? {
        PatchSlot(fs, own, i, s, o, chunk, own[b].i, own[b].s);
      }
    }
  }

  lemma PatchByte(fs: Fs, own: seq<Owner>, i: int, off: nat, chunk: seq<int>, j: int, k: int)
    requires Inv(fs, own) && 0 <= i < |fs.ino| && 0 <= j < |fs.ino| && 0 <= k
    requires Addr(fs, i, off) != 0 && Off(off) + |chunk| <= BSIZE
    ensures 0 <= Addr(fs, i, off) < |fs.blocks|
    ensures var r := PatchAt(fs, Addr(fs, i, off), Off(off), chunk);
            && Shape(r) && Addr(r, j, k) == Addr(fs, j, k)
            && (j == i ==> ByteWritten(r, i, off, chunk, k))
            && (!(j == i && off <= k < off + |chunk|) ==> ByteAt(r, j, k) == ByteAt(fs, j, k))
  {
    hide Inv, Slot;
    InvShape(fs, own);
    var s := SlotOf(Blk(off));
    PatchSlot(fs, own, i, s, Off(off), chunk, i, s);
    if Blk(k) < MAXFILE {
      PatchSlot(fs, own, i, s, Off(off), chunk, j, SlotOf(Blk(k)));
      SameBlockSamePlace(fs, own, i, off, j, k);
    }
    if off <= k < off + |chunk| {
      Advance(off, k - off);
    }
  }

  /** Two bytes in the same block belong to the same block of the same file. */
  lemma SameBlockSamePlace(fs: Fs, own: seq<Owner>, i: int, off: nat, j: int, k: int)
    requires Inv(fs, own) && 0 <= i < |fs.ino| && 0 <= j < |fs.ino| && 0 <= k
    requires Addr(fs, i, off) != 0
    ensures Addr(fs, j, k) == Addr(fs, i, off) ==> j == i && k - Off(k) == off - Off(off)
  {
    if Addr(fs, j, k) == Addr(fs, i, off) {
      assert SlotIndex(fs, i, SlotOf(Blk(off))) && SlotIndex(fs, j, SlotOf(Blk(k)));
      assert SlotOk(fs, own, i, SlotOf(Blk(off))) && SlotOk(fs, own, j, SlotOf(Blk(k)));
      SamePlace(k, off);
    }
  }

  /** A filled slot keeps its block, and a held data block its bytes. */
  lemma GrewBytes(fs: Fs, fs': Fs, i: int, j: int, k: int)
    requires Grew(fs, fs', i) && 0 <= j < |fs.ino| && 0 <= k
    ensures AddrKept(fs, fs', i, j, k) && ByteKept(fs, fs', j, k)
  {
    if Blk(k) < MAXFILE {
      assert SlotIndex(fs, j, SlotOf(Blk(k)));
      assert SlotKept(fs, fs', i, j, SlotOf(Blk(k)));
    }
  }

  lemma ChunkWrote(fs: Fs, own: seq<Owner>, i: int, off: nat, chunk: seq<int>) returns (own': seq<Owner>)
    requires Inv(fs, own) && 0 <= i < |fs.ino| && Bmap(fs, i, Blk(off)).Mapped? && Off(off) + |chunk| <= BSIZE
    ensures var r := Bmap(fs, i, Blk(off));
            && 0 <= r.addr < |r.fs.blocks|
            && Inv(PatchAt(r.fs, r.addr, Off(off), chunk), own')
            && Wrote(fs, PatchAt(r.fs, r.addr, Off(off), chunk), i, off, chunk)
  {
    hide Inv, Grew, Slot, Bmap, AddrKept, ByteKept, ByteWritten, ByteAt, SameButAddrs;
    InvShape(fs, own);
    own' := BmapKeeps(fs, own, i, Blk(off));
    var f := Bmap(fs, i, Blk(off)).fs;
    GrewSame(fs, f, i);
    InvShape(f, own');
    PatchKeepsInv(f, own', i, SlotOf(Blk(off)), Off(off), chunk);
    var r := PatchAt(f, Addr(f, i, off), Off(off), chunk);
    InvShape(r, own');
    SameThroughPatch(fs, f, r, i);
    forall j, k | 0 <= j < |fs.ino| && 0 <= k
      ensures AddrKept(fs, r, i, j, k)
      ensures !(j == i && off <= k < off + |chunk|) ==> ByteKept(fs, r, j, k)
    {
      ChunkByte(fs, f, own', i, off, chunk, j, k);
    }
    forall k | 0 <= k ensures ByteWritten(r, i, off, chunk, k) {
      ChunkByte(fs, f, own', i, off, chunk, i, k);
    }
  }

  lemma SameThroughPatch(fs: Fs, f: Fs, r: Fs, i: int)
    requires SameButAddrs(fs, f, i) && r.meta == f.meta && r.bits == f.bits && r.ino == f.ino && r.dino == f.dino
    ensures SameButAddrs(fs, r, i) && |r.ino| == |fs.ino|
  {
  }

  lemma GrewSame(fs: Fs, fs': Fs, i: int)
    requires Grew(fs, fs', i)
    ensures Shape(fs') && SameButAddrs(fs, fs', i) && |fs'.ino| == |fs.ino|
  {
  }

  lemma ChunkByte(fs: Fs, f: Fs, own: seq<Owner>, i: int, off: nat, chunk: seq<int>, j: int, k: int)
    requires Inv(f, own) && Grew(fs, f, i) && 0 <= j < |fs.ino| && 0 <= k
    requires Addr(f, i, off) != 0 && Off(off) + |chunk| <= BSIZE
    ensures 0 <= Addr(f, i, off) < |f.blocks|
    ensures var r := PatchAt(f, Addr(f, i, off), Off(off), chunk);
            && Shape(r) && AddrKept(fs, r, i, j, k)
            && (!(j == i && off <= k < off + |chunk|) ==> ByteKept(fs, r, j, k))
            && (j == i ==> ByteWritten(r, i, off, chunk, k))
  {
    hide Inv, Grew, Slot, Addr, ByteAt;
    GrewSame(fs, f, i);
    PatchByte(f, own, i, off, chunk, j, k);
    GrewBytes(fs, f, i, j, k);
  }

  // ---------- a whole write ----------

  lemma WroteTrans(a: Fs, b: Fs, c: Fs, i: int, off: nat, d1: seq<int>, d2: seq<int>)
    requires Wrote(a, b, i, off, d1) && Wrote(b, c, i, off + |d1|, d2)
    ensures Wrote(a, c, i, off, d1 + d2)
  {
    hide Shape, Addr, ByteAt, SameButAddrs;
    SameTrans(a, b, c, i);
    forall j, k | 0 <= j < |a.ino| && 0 <= k
      ensures AddrKept(a, c, i, j, k)
      ensures !(j == i && off <= k < off + |d1 + d2|) ==> ByteKept(a, c, j, k)
    {
      assert AddrKept(a, b, i, j, k) && AddrKept(b, c, i, j, k);
      if !(j == i && off <= k < off + |d1 + d2|) {
        assert ByteKept(a, b, j, k) && ByteKept(b, c, j, k);
      }
    }
    forall k | 0 <= k ensures ByteWritten(c, i, off, d1 + d2, k) {
      assert ByteWritten(b, i, off, d1, k) && ByteWritten(c, i, off + |d1|, d2, k);
      if off <= k < off + |d1| {
        assert AddrKept(b, c, i, i, k) && ByteKept(b, c, i, k);
      }
    }
  }

  lemma SameTrans(a: Fs, b: Fs, c: Fs, i: int)
    requires SameButAddrs(a, b, i) && SameButAddrs(b, c, i)
    ensures SameButAddrs(a, c, i) && |a.ino| == |b.ino| == |c.ino| && 0 <= i < |a.ino|
  {
  }

  lemma WroteNothing(fs: Fs, i: int, off: nat)
    requires Shape(fs) && 0 <= i < |fs.ino|
    ensures Wrote(fs, fs, i, off, [])
  {
  }

  /** writei's copy loop puts the data in place and disturbs no other byte. */
  lemma {:induction false} PutWrote(fs: Fs, own: seq<Owner>, i: int, off: nat, data: seq<int>) returns (own': seq<Owner>)
    requires Inv(fs, own) && 0 <= i < |fs.ino| && PutFrom(fs, i, off, data).Done?
    ensures Inv(PutFrom(fs, i, off, data).fs, own')
    ensures Wrote(fs, PutFrom(fs, i, off, data).fs, i, off, data)
    decreases |data|
  {
    hide Inv, Wrote, Bmap;
    InvShape(fs, own);
    if data == [] {
      WroteNothing(fs, i, off);
      own' := own;
    } else {
      var m := ChunkLen(off, |data|);
      var own1 := ChunkWrote(fs, own, i, off, data[..m]);
      var f := PatchAt(Bmap(fs, i, Blk(off)).fs, Bmap(fs, i, Blk(off)).addr, Off(off), data[..m]);
      own' := PutWrote(f, own1, i, off + m, data[m..]);
      WroteTrans(fs, f, PutFrom(fs, i, off, data).fs, i, off, data[..m], data[m..]);
      assert data[..m] + data[m..] == data;
    }
  }

  // ---------- no holes ----------

  /** Every byte below n has a block. */
  ghost predicate MappedTo(fs: Fs, i: int, n: int)
    requires Shape(fs) && 0 <= i < |fs.ino|
  {
    forall k :: 0 <= k < n ==> Addr(fs, i, k) != 0
  }

  lemma BmapMapped(fs: Fs, i: int, bn: nat)
    requires Shape(fs) && 0 <= i < |fs.ino| && bn < MAXFILE && Slot(fs, i, SlotOf(bn)) != 0
    ensures Bmap(fs, i, bn) == Mapped(fs, Slot(fs, i, SlotOf(bn)))
  {
  }

  /** A write below the mapped length allocates nothing and cannot panic. */
  lemma {:induction false} PutInside(fs: Fs, own: seq<Owner>, i: int, off: nat, data: seq<int>)
    requires Inv(fs, own) && 0 <= i < |fs.ino| && MappedTo(fs, i, off + |data|)
    ensures PutFrom(fs, i, off, data).Done?
    ensures PutFrom(fs, i, off, data).fs.ino == fs.ino && PutFrom(fs, i, off, data).fs.bits == fs.bits
    decreases |data|
  {
    hide Inv, Wrote, Bmap, Slot;
    InvShape(fs, own);
    if data != [] {
      var m := ChunkLen(off, |data|);
      assert Addr(fs, i, off) != 0;
      BmapMapped(fs, i, Blk(off));
      var own1 := ChunkWrote(fs, own, i, off, data[..m]);
      var f := PatchAt(fs, Addr(fs, i, off), Off(off), data[..m]);
      WroteKeepsMapped(fs, f, i, off, data[..m], off + |data|);
      PutInside(f, own1, i, off + m, data[m..]);
    }
  }

  lemma WroteKeepsMapped(fs: Fs, fs': Fs, i: int, off: nat, data: seq<int>, n: int)
    requires Wrote(fs, fs', i, off, data) && MappedTo(fs, i, n)
    ensures Shape(fs') && 0 <= i < |fs'.ino|
    ensures MappedTo(fs', i, n)
    ensures n >= off ==> MappedTo(fs', i, off + |data|)
  {
    hide Shape, Addr, ByteAt;
    forall k | 0 <= k < n || 0 <= k < off + |data| ensures 0 <= k < n || (n >= off && 0 <= k < off + |data|) ==> Addr(fs', i, k) != 0 {
      assert AddrKept(fs, fs', i, i, k) && ByteWritten(fs', i, off, data, k);
    }
  }
}
