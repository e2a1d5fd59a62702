/** readi, writei and itrunc as operations on byte sequences, and what every run of
    them keeps. */
module FsOps {
  import opened Params
  import opened Blocks
  import opened FsSpec
  import opened FsData

  // ---------- the state between operations ----------

  /** The byte sequence an inode stands for. */
  ghost function Content(fs: Fs, i: int): (c: seq<int>)
    requires Shape(fs) && 0 <= i < |fs.ino|
    ensures |c| == fs.ino[i].size
  {
    seq(fs.ino[i].size, k requires 0 <= k => ByteAt(fs, i, k))
  }

  /** No hole below the size, and no file too large for its slots. */
  ghost predicate FileOk(fs: Fs, i: int)
    requires Shape(fs) && 0 <= i < |fs.ino|
  {
    fs.ino[i].size <= MAXFILE * BSIZE && MappedTo(fs, i, fs.ino[i].size)
  }

  /** Ownership is consistent, files have no holes, and the inodes on disk are the
      ones in memory. */
  ghost predicate Good(fs: Fs, own: seq<Owner>) {
    Inv(fs, own) && fs.dino == fs.ino && forall i :: 0 <= i < |fs.ino| ==> FileOk(fs, i)
  }

  // ---------- writei ----------

  /** Record the new size in memory and on disk. */
  function Resized(fs: Fs, i: int, n: nat): (r: Fs)
    requires 0 <= i < |fs.ino| == |fs.dino|
  {
    Fs(fs.meta, fs.bits, fs.blocks,
       fs.ino[i := Inode(fs.ino[i].dev, n, fs.ino[i].addrs)],
       fs.dino[i := Inode(fs.ino[i].dev, n, fs.ino[i].addrs)])
  }

  datatype WriteResult = Written(fs: Fs) | Refused | Device | WritePanic

  predicate WriteRefused(size: nat, off: nat, n: nat) {
    off > size || (off + n) % W32 < off || (off + n) % W32 > MAXFILE * BSIZE
  }

  /** writei: `off` and the length of `data` are uints. */
  ghost function Writei(fs: Fs, i: int, off: nat, data: seq<int>): (r: WriteResult)
    requires Shape(fs) && 0 <= i < |fs.ino|
    ensures r.Written? ==> Shape(r.fs) && |r.fs.ino| == |fs.ino|
  {
    if fs.ino[i].dev then Device
    else if WriteRefused(fs.ino[i].size, off, |data|) then Refused
    else
      match PutFrom(fs, i, off, data)
      case Panicked => WritePanic
      case Done(f) =>
        if |data| > 0 && off + |data| > f.ino[i].size then Written(Resized(f, i, off + |data|)) else Written(f)
  }

  /** The 32-bit checks refuse exactly the writes that start past the end or would
      pass the largest file. */
  lemma RefusesExactly(size: nat, off: nat, n: nat)
    requires off < W32 && n < W32
    ensures WriteRefused(size, off, n) <==> off > size || off + n > MAXFILE * BSIZE
  {
  }

  /** What a write means for a byte sequence. */
  function Overwrite(c: seq<int>, off: nat, data: seq<int>): (r: seq<int>)
    requires off <= |c|
  {
    c[..off] + data + (if off + |data| < |c| then c[off+|data|..] else [])
  }

  lemma ResizedSlot(fs: Fs, i: int, n: nat, j: int, s: int)
    requires Shape(fs) && 0 <= i < |fs.ino| && SlotIndex(fs, j, s)
    ensures Shape(Resized(fs, i, n)) && Slot(Resized(fs, i, n), j, s) == Slot(fs, j, s)
  {
  }

  lemma ResizedKeepsInv(fs: Fs, own: seq<Owner>, i: int, n: nat)
    requires Inv(fs, own) && 0 <= i < |fs.ino|
    ensures Inv(Resized(fs, i, n), own)
  {
    hide Slot;
    var r := Resized(fs, i, n);
    ResizedSlot(fs, i, n, i, 0);
    forall j, s | SlotIndex(r, j, s) ensures SlotOk(r, own, j, s) {
      ResizedSlot(fs, i, n, j, s);
      assert SlotOk(fs, own, j, s);
    }
    forall b | 0 <= b < |own| ensures BlockOk(r, own, b) {
      assert BlockOk(fs, own, b);
      if own[b].By? {
        ResizedSlot(fs, i, n, own[b].i, own[b].s);
      }
    }
  }

  lemma ResizedByte(fs: Fs, i: int, n: nat, j: int, k: int)
    requires Shape(fs) && 0 <= i < |fs.ino| && 0 <= j < |fs.ino| && 0 <= k
    ensures var r := Resized(fs, i, n);
            Shape(r) && Addr(r, j, k) == Addr(fs, j, k) && ByteAt(r, j, k) == ByteAt(fs, j, k)
  {
    if Blk(k) < MAXFILE {
      ResizedSlot(fs, i, n, j, SlotOf(Blk(k)));
    }
  }

  /** A state reached by writing: `size` is the size recorded for inode i, all
      other sizes are as before. */
  ghost predicate Became(fs: Fs, fs': Fs, i: int, off: nat, data: seq<int>, size: nat) {
    && Shape(fs) && Shape(fs') && 0 <= i < |fs.ino| == |fs'.ino|
    && (forall j :: 0 <= j < |fs.ino| ==> fs'.ino[j].size == if j == i then size else fs.ino[j].size)
    && (forall j :: 0 <= j < |fs.ino| ==> fs'.ino[j].dev == fs.ino[j].dev)
    && (forall j, k :: 0 <= j < |fs.ino| && 0 <= k ==> AddrKept(fs, fs', i, j, k))
    && (forall j, k :: 0 <= j < |fs.ino| && 0 <= k && !(j == i && off <= k < off + |data|) ==> ByteKept(fs, fs', j, k))
    && (forall k :: 0 <= k ==> ByteWritten(fs', i, off, data, k))
  }

  lemma WroteBecame(fs: Fs, f: Fs, i: int, off: nat, data: seq<int>)
    requires Wrote(fs, f, i, off, data)
    ensures Became(fs, f, i, off, data, fs.ino[i].size)
  {
  }

  lemma ResizedBecame(fs: Fs, f: Fs, i: int, off: nat, data: seq<int>, n: nat)
    requires Wrote(fs, f, i, off, data)
    ensures 0 <= i < |f.ino| == |f.dino|
    ensures Became(fs, Resized(f, i, n), i, off, data, n)
  {
    hide Addr, ByteAt;
    var r := Resized(f, i, n);
    ResizedByte(f, i, n, i, 0);
    forall j, k | 0 <= j < |fs.ino| && 0 <= k
      ensures AddrKept(fs, r, i, j, k)
      ensures !(j == i && off <= k < off + |data|) ==> ByteKept(fs, r, j, k)
    {
      ResizedByte(f, i, n, j, k);
      assert AddrKept(fs, f, i, j, k);
      assert !(j == i && off <= k < off + |data|) ==> ByteKept(fs, f, j, k);
    }
    forall k | 0 <= k ensures ByteWritten(r, i, off, data, k) {
      ResizedByte(f, i, n, i, k);
      assert ByteWritten(f, i, off, data, k);
    }
  }

  lemma BecameContent(fs: Fs, fs': Fs, i: int, off: nat, data: seq<int>, size: nat)
    requires Became(fs, fs', i, off, data, size) && MappedTo(fs, i, fs.ino[i].size) && off <= fs.ino[i].size
    requires size == if off + |data| > fs.ino[i].size then off + |data| else fs.ino[i].size
    ensures Content(fs', i) == Overwrite(Content(fs, i), off, data)
    ensures MappedTo(fs', i, size)
  {
    hide Shape, Addr, ByteAt;
    var c, c', o := Content(fs, i), Content(fs', i), Overwrite(Content(fs, i), off, data);
    forall k | 0 <= k < size ensures c'[k] == o[k] && Addr(fs', i, k) != 0 {
      assert AddrKept(fs, fs', i, i, k) && ByteWritten(fs', i, off, data, k);
      if !(off <= k < off + |data|) {
        assert ByteKept(fs, fs', i, k);
      }
    }
  }

  lemma BecameOther(fs: Fs, fs': Fs, i: int, off: nat, data: seq<int>, size: nat, j: int)
    requires Became(fs, fs', i, off, data, size) && 0 <= j < |fs.ino| && j != i && MappedTo(fs, j, fs.ino[j].size)
    ensures Content(fs', j) == Content(fs, j) && MappedTo(fs', j, fs.ino[j].size)
  {
    hide Shape, Addr, ByteAt;
    forall k | 0 <= k < fs.ino[j].size ensures Content(fs', j)[k] == Content(fs, j)[k] && Addr(fs', j, k) != 0 {
      assert AddrKept(fs, fs', i, j, k) && ByteKept(fs, fs', j, k);
    }
  }

  ghost predicate OnlyFile(fs: Fs, fs': Fs, i: int, c: seq<int>)
    requires Shape(fs) && Shape(fs') && 0 <= i < |fs.ino| == |fs'.ino|
  {
    forall j :: 0 <= j < |fs.ino| ==>
      fs'.ino[j].dev == fs.ino[j].dev && Content(fs', j) == if j == i then c else Content(fs, j)
  }

  lemma BecameGood(fs: Fs, own: seq<Owner>, fs': Fs, own': seq<Owner>, i: int, off: nat, data: seq<int>, size: nat)
    requires Good(fs, own) && Became(fs, fs', i, off, data, size) && Inv(fs', own') && fs'.dino == fs'.ino
    requires off <= fs.ino[i].size && off + |data| <= MAXFILE * BSIZE
    requires size == if off + |data| > fs.ino[i].size then off + |data| else fs.ino[i].size
    ensures Good(fs', own') && OnlyFile(fs, fs', i, Overwrite(Content(fs, i), off, data))
  {
    hide Inv, Shape, Content, MappedTo;
    forall j | 0 <= j < |fs.ino|
      ensures FileOk(fs', j)
      ensures Content(fs', j) == if j == i then Overwrite(Content(fs, i), off, data) else Content(fs, j)
    {
      assert FileOk(fs, j);
      if j == i {
        BecameContent(fs, fs', i, off, data, size);
      } else {
        BecameOther(fs, fs', i, off, data, size, j);
      }
    }
  }

  /** A write that stays below the size touches only data blocks: bitmap and inodes,
      in memory and on disk, stay as they are, and it cannot run out of blocks. */
  lemma WriteInPlace(fs: Fs, own: seq<Owner>, i: int, off: nat, data: seq<int>)
    requires Good(fs, own) && 0 <= i < |fs.ino| && !fs.ino[i].dev && off + |data| <= fs.ino[i].size
    ensures Writei(fs, i, off, data).Written?
    ensures var f := Writei(fs, i, off, data).fs;
            f.bits == fs.bits && f.ino == fs.ino && f.dino == fs.dino == f.ino
  {
    hide Inv, Wrote, PutFrom, Slot;
    InvShape(fs, own);
    assert FileOk(fs, i);
    RefusesExactly(fs.ino[i].size, off, |data|);
    PutInside(fs, own, i, off, data);
    var own' := PutWrote(fs, own, i, off, data);
    WroteSame(fs, PutFrom(fs, i, off, data).fs, i, off, data);
  }

  lemma WroteSame(fs: Fs, f: Fs, i: int, off: nat, data: seq<int>)
    requires Wrote(fs, f, i, off, data)
    ensures SameButAddrs(fs, f, i)
  {
  }

  /** writei refines an overwrite of a byte sequence: bytes off.. become the data,
      the file grows to cover them, and no other file changes. */
  lemma WriteiRefines(fs: Fs, own: seq<Owner>, i: int, off: nat, data: seq<int>) returns (own': seq<Owner>)
    requires Good(fs, own) && 0 <= i < |fs.ino| && off < W32 && |data| < W32 && Writei(fs, i, off, data).Written?
    ensures var f := Writei(fs, i, off, data).fs;
            && Good(f, own') && |f.ino| == |fs.ino| && off <= fs.ino[i].size
            && OnlyFile(fs, f, i, Overwrite(Content(fs, i), off, data))
  {
    hide Inv, Wrote, PutFrom, Slot, Became, Content, OnlyFile;
    InvShape(fs, own);
    RefusesExactly(fs.ino[i].size, off, |data|);
    assert FileOk(fs, i);
    own' := PutWrote(fs, own, i, off, data);
    var f := PutFrom(fs, i, off, data).fs;
    WroteSame(fs, f, i, off, data);
    if off + |data| > fs.ino[i].size {
      var r := Resized(f, i, off + |data|);
      ResizedKeepsInv(f, own', i, off + |data|);
      ResizedBecame(fs, f, i, off, data, off + |data|);
      BecameGood(fs, own, r, own', i, off, data, off + |data|);
    } else {
      PutInside(fs, own, i, off, data);
      WroteBecame(fs, f, i, off, data);
      BecameGood(fs, own, f, own', i, off, data, fs.ino[i].size);
    }
  }

  // ---------- readi ----------

  datatype GetResult = Got(fs: Fs, bytes: seq<int>) | GetPanic

  /** The copy loop of readi; like writei's it goes through bmap. */
  ghost function GetFrom(fs: Fs, i: int, off: nat, n: nat): (r: GetResult)
    requires Shape(fs) && 0 <= i < |fs.ino|
    ensures r.Got? ==> Shape(r.fs) && |r.fs.ino| == |fs.ino|
    decreases n
  {
    if n == 0 then Got(fs, [])
    else
      match Bmap(fs, i, Blk(off))
      case Mapped(f, a) =>
        var m := ChunkLen(off, n);
        if 0 <= a < |f.blocks| then
          match GetFrom(f, i, off + m, n - m)
          case Got(g, rest) => Got(g, f.blocks[a].bytes[Off(off)..Off(off)+m] + rest)
          case GetPanic => GetPanic
        else GetPanic
      case _ => GetPanic
  }

  datatype ReadResult = Read(fs: Fs, bytes: seq<int>) | ReadRefused | ReadDevice | ReadPanic

  ghost function Readi(fs: Fs, i: int, off: nat, n: nat): (r: ReadResult)
    requires Shape(fs) && 0 <= i < |fs.ino|
    ensures r.Read? ==> Shape(r.fs) && |r.fs.ino| == |fs.ino|
  {
    if fs.ino[i].dev then ReadDevice
    else if off > fs.ino[i].size || (off + n) % W32 < off then ReadRefused
    else
      var len := if (off + n) % W32 > fs.ino[i].size then fs.ino[i].size - off else n;
      match GetFrom(fs, i, off, len)
      case Got(f, bytes) => Read(f, bytes)
      case GetPanic => ReadPanic
  }

  ghost predicate BytesFrom(fs: Fs, i: int, off: nat, bytes: seq<int>)
    requires Shape(fs) && 0 <= i < |fs.ino|
  {
    forall k :: 0 <= k < |bytes| ==> bytes[k] == ByteAt(fs, i, off + k)
  }

  lemma HeldInRange(fs: Fs, own: seq<Owner>, i: int, k: nat)
    requires Inv(fs, own) && 0 <= i < |fs.ino| && Addr(fs, i, k) != 0
    ensures 0 < Addr(fs, i, k) < |fs.blocks| && Blk(k) < MAXFILE
  {
    assert SlotIndex(fs, i, SlotOf(Blk(k)));
    assert SlotOk(fs, own, i, SlotOf(Blk(k)));
  }

  lemma ChunkBytes(fs: Fs, i: int, off: nat, m: nat)
    requires Shape(fs) && 0 <= i < |fs.ino| && 0 < Addr(fs, i, off) < |fs.blocks| && Off(off) + m <= BSIZE
    ensures BytesFrom(fs, i, off, fs.blocks[Addr(fs, i, off)].bytes[Off(off)..Off(off)+m])
  {
    hide Slot;
    var chunk := fs.blocks[Addr(fs, i, off)].bytes[Off(off)..Off(off)+m];
    forall k | 0 <= k < m ensures chunk[k] == ByteAt(fs, i, off + k) {
      Advance(off, k);
    }
  }

  lemma BytesConcat(fs: Fs, i: int, off: nat, a: seq<int>, b: seq<int>)
    requires Shape(fs) && 0 <= i < |fs.ino| && BytesFrom(fs, i, off, a) && BytesFrom(fs, i, off + |a|, b)
    ensures BytesFrom(fs, i, off, a + b)
  {
    hide Shape, ByteAt;
    forall k | 0 <= k < |a + b| ensures (a + b)[k] == ByteAt(fs, i, off + k) {
      if k >= |a| {
        assert b[k-|a|] == ByteAt(fs, i, off + |a| + (k - |a|));
      }
    }
  }

  lemma {:induction false} GetReads(fs: Fs, own: seq<Owner>, i: int, off: nat, n: nat)
    requires Inv(fs, own) && 0 <= i < |fs.ino| && MappedTo(fs, i, off + n)
    ensures var r := GetFrom(fs, i, off, n);
            r.Got? && r.fs == fs && |r.bytes| == n && BytesFrom(fs, i, off, r.bytes)
    decreases n
  {
    hide Inv, Slot, Bmap, BytesFrom;
    InvShape(fs, own);
    if n > 0 {
      var m := ChunkLen(off, n);
      HeldInRange(fs, own, i, off);
      BmapMapped(fs, i, Blk(off));
      ChunkBytes(fs, i, off, m);
      GetReads(fs, own, i, off + m, n - m);
      BytesConcat(fs, i, off, fs.blocks[Addr(fs, i, off)].bytes[Off(off)..Off(off)+m],
                  GetFrom(fs, i, off + m, n - m).bytes);
    } else {
      NoBytes(fs, i, off);
    }
  }

  lemma NoBytes(fs: Fs, i: int, off: nat)
    requires Shape(fs) && 0 <= i < |fs.ino|
    ensures BytesFrom(fs, i, off, [])
  {
  }

  /** The overflow test of readi and writei. */
  lemma Wraps(off: nat, n: nat)
    requires off < W32 && n < W32
    ensures (off + n) % W32 < off <==> off + n >= W32
    ensures off + n < W32 ==> (off + n) % W32 == off + n
  {
  }

  /** readi returns the bytes of the sequence that exist in the range asked for, and
      changes nothing: with no holes, bmap never allocates on its behalf. */
  lemma ReadiRefines(fs: Fs, own: seq<Owner>, i: int, off: nat, n: nat)
    requires Good(fs, own) && 0 <= i < |fs.ino| && off < W32 && n < W32 && !fs.ino[i].dev
    ensures var c := Content(fs, i);
            if off > |c| || off + n >= W32 then Readi(fs, i, off, n) == ReadRefused
            else Readi(fs, i, off, n) == Read(fs, c[off..if off + n < |c| then off + n else |c|])
  {
    hide Inv, Slot, ByteAt, GetFrom, Shape;
    InvShape(fs, own);
    assert FileOk(fs, i);
    Wraps(off, n);
    var c := Content(fs, i);
    if !(off > |c| || off + n >= W32) {
      var len := if off + n > |c| then |c| - off else n;
      GetReads(fs, own, i, off, len);
      assert GetFrom(fs, i, off, len).bytes == c[off..off+len];
    }
  }

  // ---------- itrunc ----------

  ghost predicate Held(fs: Fs, i: int, b: int)
    requires Shape(fs) && 0 <= i < |fs.ino|
  {
    b != 0 && exists s :: SlotIndex(fs, i, s) && Slot(fs, i, s) == b
  }

  function Empty(dev: bool): (n: Inode)
    ensures n.dev == dev && n.size == 0 && |n.addrs| == NDIRECT + 1
    ensures forall s :: 0 <= s <= NDIRECT ==> n.addrs[s] == 0
  {
    Inode(dev, 0, seq(NDIRECT + 1, _ => 0))
  }

  /** The bitmap with inode i's blocks given back. */
  ghost function Released(fs: Fs, i: int): (bits: seq<bool>)
    requires Shape(fs) && 0 <= i < |fs.ino|
    ensures |bits| == |fs.bits|
    ensures forall b :: 0 <= b < |bits| ==> (bits[b] <==> fs.bits[b] && !Held(fs, i, b))
  {
    seq(|fs.bits|, b requires 0 <= b < |fs.bits| => fs.bits[b] && !Held(fs, i, b))
  }

  ghost function Truncated(fs: Fs, i: int): (r: Fs)
    requires Shape(fs) && 0 <= i < |fs.ino|
    ensures Shape(r) && |r.ino| == |fs.ino|
  {
    Fs(fs.meta, Released(fs, i), fs.blocks, fs.ino[i := Empty(fs.ino[i].dev)], fs.dino[i := Empty(fs.ino[i].dev)])
  }

  function Disowned(own: seq<Owner>, i: int): (r: seq<Owner>)
    ensures |r| == |own|
    ensures forall b :: 0 <= b < |own| ==> r[b] == if own[b].By? && own[b].i == i then Nobody else own[b]
  {
    seq(|own|, b requires 0 <= b < |own| => if own[b].By? && own[b].i == i then Nobody else own[b])
  }

  lemma HeldIsOwned(fs: Fs, own: seq<Owner>, i: int, b: int)
    requires Inv(fs, own) && 0 <= i < |fs.ino| && 0 <= b < |own|
    ensures Held(fs, i, b) <==> own[b].By? && own[b].i == i
  {
    assert BlockOk(fs, own, b);
    if Held(fs, i, b) {
      var s :| SlotIndex(fs, i, s) && Slot(fs, i, s) == b;
      assert SlotOk(fs, own, i, s);
    }
  }

  lemma TruncatedSlot(fs: Fs, i: int, j: int, s: int)
    requires Shape(fs) && 0 <= i < |fs.ino| && SlotIndex(fs, j, s)
    ensures var r := Truncated(fs, i);
            Shape(r) && Slot(r, j, s) == if j == i then 0 else Slot(fs, j, s)
  {
  }

  lemma TruncateKeepsInv(fs: Fs, own: seq<Owner>, i: int)
    requires Inv(fs, own) && 0 <= i < |fs.ino|
    ensures Inv(Truncated(fs, i), Disowned(own, i))
  {
    hide Slot, Held;
    var r, own' := Truncated(fs, i), Disowned(own, i);
    TruncatedSlot(fs, i, i, 0);
    forall j, s | SlotIndex(r, j, s) ensures SlotOk(r, own', j, s) {
      TruncatedSlot(fs, i, j, s);
      assert SlotOk(fs, own, j, s);
    }
    forall b | 0 <= b < |own| ensures BlockOk(r, own', b) {
      assert BlockOk(fs, own, b);
      HeldIsOwned(fs, own, i, b);
      if own'[b].By? {
        TruncatedSlot(fs, i, own[b].i, own[b].s);
      }
    }
  }

  lemma TruncatedByte(fs: Fs, i: int, j: int, k: int)
    requires Shape(fs) && 0 <= i < |fs.ino| && 0 <= j < |fs.ino| && 0 <= k && j != i
    ensures var r := Truncated(fs, i);
            Shape(r) && Addr(r, j, k) == Addr(fs, j, k) && ByteAt(r, j, k) == ByteAt(fs, j, k)
  {
    hide Slot;
    TruncatedSlot(fs, i, i, 0);
    if Blk(k) < MAXFILE {
      TruncatedSlot(fs, i, j, SlotOf(Blk(k)));
    }
  }

  lemma TruncatedFile(fs: Fs, i: int, j: int)
    requires Shape(fs) && 0 <= i < |fs.ino| && 0 <= j < |fs.ino| && FileOk(fs, j)
    ensures FileOk(Truncated(fs, i), j)
    ensures Content(Truncated(fs, i), j) == if j == i then [] else Content(fs, j)
  {
    hide Slot, ByteAt, Addr, Shape;
    var r := Truncated(fs, i);
    if j != i {
      forall k | 0 <= k < fs.ino[j].size
        ensures Addr(r, j, k) == Addr(fs, j, k) && ByteAt(r, j, k) == ByteAt(fs, j, k)
      {
        TruncatedByte(fs, i, j, k);
      }
      assert Content(r, j) == Content(fs, j);
    }
  }

  /** Truncation empties the file, changes no other and gives back exactly the blocks
      it held. */
  lemma TruncateRefines(fs: Fs, own: seq<Owner>, i: int)
    requires Good(fs, own) && 0 <= i < |fs.ino|
    ensures Good(Truncated(fs, i), Disowned(own, i))
    ensures OnlyFile(fs, Truncated(fs, i), i, [])
  {
    hide Inv, FileOk, Content;
    InvShape(fs, own);
    TruncateKeepsInv(fs, own, i);
    forall j | 0 <= j < |fs.ino|
      ensures FileOk(Truncated(fs, i), j)
      ensures Content(Truncated(fs, i), j) == if j == i then [] else Content(fs, j)
    {
      TruncatedFile(fs, i, j);
    }
  }
}
