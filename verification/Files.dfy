/** fs.c's block and content layer as it runs: the bitmap, the inodes in memory and
    on disk, and the loops over them. */
module Files {
  import opened Params
  import opened Blocks
  import opened FsSpec
  import opened FsData
  import opened FsOps

  const BPB: nat := 8 * BSIZE   // bits per bitmap block

  // ---------- what itrunc has freed so far ----------

  /** The bits of fs with the blocks in the slots `freed` of inode i cleared. */
  ghost predicate FreedSlots(fs: Fs, own: seq<Owner>, i: int, bits: seq<bool>, freed: set<int>) {
    && |bits| == |fs.bits| == |own|
    && forall b :: 0 <= b < |bits| ==>
         (bits[b] <==> fs.bits[b] && !(own[b].By? && own[b].i == i && own[b].s in freed))
  }

  /** A slot not freed yet is empty or names a block whose bit is still set. */
  lemma FreeOne(fs: Fs, own: seq<Owner>, i: int, bits: seq<bool>, freed: set<int>, s: int)
    requires Inv(fs, own) && SlotIndex(fs, i, s) && s !in freed && FreedSlots(fs, own, i, bits, freed)
    ensures var a := Slot(fs, i, s);
            if a == 0 then FreedSlots(fs, own, i, bits, freed + {s})
            else 0 <= a < |bits| && bits[a] && FreedSlots(fs, own, i, bits[a := false], freed + {s})
  {
    var a := Slot(fs, i, s);
    assert SlotOk(fs, own, i, s);
    forall b | 0 <= b < |bits| ensures own[b] == By(i, s) <==> b == a && a != 0 {
      assert BlockOk(fs, own, b);
    }
    if a != 0 {
      assert BlockOk(fs, own, a);
    }
  }

  lemma AllFreed(fs: Fs, own: seq<Owner>, i: int, bits: seq<bool>, freed: set<int>)
    requires Inv(fs, own) && 0 <= i < |fs.ino| && FreedSlots(fs, own, i, bits, freed)
    requires forall s :: 0 <= s < NSLOTS ==> s in freed
    ensures bits == Released(fs, i)
  {
    hide Slot, Held;
    forall b | 0 <= b < |bits| ensures bits[b] == Released(fs, i)[b] {
      assert BlockOk(fs, own, b);
      HeldIsOwned(fs, own, i, b);
    }
  }

  // ---------- outcomes ----------

  /** What readi and writei return: a count, -1, the device driver's answer, or a
      panic below them. */
  datatype Outcome = Count(n: nat) | Fail | Driver | Panic

  ghost function Prepend(bytes: seq<int>, r: GetResult): GetResult {
    match r
    case Got(f, rest) => Got(f, bytes + rest)
    case GetPanic => GetPanic
  }

  lemma PrependMore(a: seq<int>, b: seq<int>, r: GetResult)
    ensures Prepend(a + b, r) == Prepend(a, Prepend(b, r))
  {
    if r.Got? {
      assert a + b + r.bytes == a + (b + r.bytes);
    }
  }

  lemma PrependNothing(r: GetResult)
    ensures Prepend([], r) == r
  {
    if r.Got? {
      assert [] + r.bytes == r.bytes;
    }
  }

  lemma GetStep(fs: Fs, i: int, off: nat, n: nat, before: seq<int>)
    requires Shape(fs) && 0 <= i < |fs.ino| && n > 0
    ensures var r, m := FsSpec.Bmap(fs, i, Blk(off)), ChunkLen(off, n);
            if r.Mapped? && 0 <= r.addr < |r.fs.blocks| then
              var chunk := r.fs.blocks[r.addr].bytes[Off(off)..Off(off)+m];
              && |chunk| == m > 0
              && Prepend(before, GetFrom(fs, i, off, n)) == Prepend(before + chunk, GetFrom(r.fs, i, off + m, n - m))
            else Prepend(before, GetFrom(fs, i, off, n)) == GetPanic
  {
    hide FsSpec.Bmap, Slot;
    var r, m := FsSpec.Bmap(fs, i, Blk(off)), ChunkLen(off, n);
    if r.Mapped? && 0 <= r.addr < |r.fs.blocks| {
      PrependMore(before, r.fs.blocks[r.addr].bytes[Off(off)..Off(off)+m], GetFrom(r.fs, i, off + m, n - m));
    }
  }

  lemma GetDone(fs: Fs, i: int, off: nat, bytes: seq<int>)
    requires Shape(fs) && 0 <= i < |fs.ino|
    ensures Prepend(bytes, GetFrom(fs, i, off, 0)) == Got(fs, bytes)
  {
  }

  lemma ShapeSizes(fs: Fs)
    requires Shape(fs)
    ensures |fs.ino| == |fs.dino|
  {
  }

  class FileSystem {
    const meta: nat
    var bits: seq<bool>
    var blocks: seq<Block>
    var ino: seq<Inode>      // struct inode, locked and valid
    var dino: seq<Inode>     // struct dinode

    ghost function State(): Fs
      reads this
    {
      Fs.Fs(meta, bits, blocks, ino, dino)
    }

    constructor (fs: Fs)
      ensures State() == fs
    {
      meta, bits, blocks, ino, dino := fs.meta, fs.bits, fs.blocks, fs.ino, fs.dino;
    }

    /** Allocate and zero the first free block. */
    method Balloc() returns (panicked: bool, b: int)
      requires |blocks| == |bits|
      modifies this`bits, this`blocks
      ensures panicked <==> forall k :: 0 <= k < |old(bits)| ==> old(bits)[k]
      ensures panicked <==> FirstFree(old(bits), 0) == |old(bits)|
      ensures !panicked ==> b == FirstFree(old(bits), 0) && State() == Taken(old(State()), b)
    {
      var first := 0;
      while first < |bits|
        invariant 0 <= first && bits == old(bits) && blocks == old(blocks)
        invariant forall j :: 0 <= j < first && j < |bits| ==> bits[j]
      {
        var bi := 0;
        while bi < BPB && first + bi < |bits|
          invariant 0 <= bi && first + bi <= |bits| && bits == old(bits) && blocks == old(blocks)
          invariant forall j :: 0 <= j < first + bi ==> bits[j]
        {
          if !bits[first + bi] {
            b := first + bi;
            FirstFreeIs(bits, 0, b);
            bits := bits[b := true];
            blocks := blocks[b := Zero()];
            return false, b;
          }
          bi := bi + 1;
        }
        first := first + BPB;
      }
      FirstFreeIs(bits, 0, |bits|);
      return true, 0;
    }

    method Bfree(b: int) returns (panicked: bool)
      requires 0 <= b < |bits|
      modifies this`bits
      ensures panicked <==> !old(bits)[b]
      ensures bits == old(bits)[b := false]
    {
      if !bits[b] {
        return true;
      }
      bits := bits[b := false];
      return false;
    }

    /** Fill empty slot s of inode i. */
    method Fill(i: int, s: int) returns (panicked: bool, addr: int)
      requires Shape(State()) && SlotIndex(State(), i, s) && Slot(State(), i, s) == 0
      modifies this
      ensures match GetSlot(old(State()), i, s)
              case Mapped(f, a) => !panicked && State() == f && addr == a
              case _ => panicked
    {
      panicked, addr := Balloc();
      if panicked {
        return;
      }
      if s <= NDIRECT {
        ino := ino[i := Inode(ino[i].dev, ino[i].size, ino[i].addrs[s := addr])];
      } else {
        var x := ino[i].addrs[NDIRECT];
        blocks := blocks[x := SetWord(blocks[x], s - NDIRECT - 1, addr)];
      }
    }

    method Bmap(i: int, bn: int) returns (panicked: bool, addr: int)
      requires Shape(State()) && 0 <= i < |ino| && 0 <= bn
      modifies this
      ensures match FsSpec.Bmap(old(State()), i, bn)
              case Mapped(f, a) => !panicked && State() == f && addr == a
              case _ => panicked
    {
      panicked := false;
      if bn < NDIRECT {
        addr := ino[i].addrs[bn];
        if addr == 0 {
          panicked, addr := Fill(i, bn);
        }
        return;
      }
      if bn - NDIRECT < NINDIRECT {
        addr := ino[i].addrs[NDIRECT];
        if addr == 0 {
          panicked, addr := Fill(i, NDIRECT);
          if panicked {
            return;
          }
        }
        var x := ino[i].addrs[NDIRECT];
        addr := if x == 0 then 0 else Word(blocks[x], bn - NDIRECT);
        if addr == 0 {
          panicked, addr := Fill(i, bn + 1);
        }
        return;
      }
      return true, 0;
    }

    /** Free the direct blocks. */
    method FreeDirect(i: int, ghost own: seq<Owner>) returns (panicked: bool, ghost freed: set<int>)
      requires Inv(State(), own) && 0 <= i < |ino|
      modifies this`bits, this`ino
      ensures !panicked && FreedSlots(old(State()), own, i, bits, freed)
      ensures forall s :: s in freed <==> 0 <= s < NDIRECT
      ensures |ino| == |old(ino)| && |ino[i].addrs| == NDIRECT + 1
      ensures ino == old(ino)[i := Inode(old(ino)[i].dev, old(ino)[i].size, ino[i].addrs)]
      ensures ino[i].addrs[NDIRECT] == old(ino)[i].addrs[NDIRECT]
      ensures forall s :: 0 <= s < NDIRECT ==> ino[i].addrs[s] == 0
    {
      hide Inv, BlockOk;
      InvShape(State(), own);
      freed := {};
      ghost var fs := State();
      for t := 0 to NDIRECT
        invariant FreedSlots(fs, own, i, bits, freed) && |ino| == |fs.ino|
        invariant forall s :: s in freed <==> 0 <= s < t
        invariant |ino[i].addrs| == NDIRECT + 1
        invariant ino == fs.ino[i := Inode(fs.ino[i].dev, fs.ino[i].size, ino[i].addrs)]
        invariant forall s :: 0 <= s <= NDIRECT ==> ino[i].addrs[s] == if s < t then 0 else fs.ino[i].addrs[s]
      {
        FreeOne(fs, own, i, bits, freed, t);
        if ino[i].addrs[t] != 0 {
          var p := Bfree(ino[i].addrs[t]);
          if p {
            return true, freed;
          }
          ino := ino[i := Inode(ino[i].dev, ino[i].size, ino[i].addrs[t := 0])];
        }
        freed := freed + {t};
      }
      return false, freed;
    }

    /** Free the blocks the indirect block x lists. */
    method FreeIndirect(x: int, i: int, ghost fs: Fs, ghost own: seq<Owner>, ghost done: set<int>)
        returns (panicked: bool, ghost freed: set<int>)
      requires Inv(fs, own) && 0 <= i < |fs.ino| && fs.ino[i].addrs[NDIRECT] == x != 0 && blocks == fs.blocks
      requires FreedSlots(fs, own, i, bits, done) && forall s :: s in done <==> 0 <= s < NDIRECT
      modifies this`bits
      ensures !panicked && FreedSlots(fs, own, i, bits, freed)
      ensures forall s :: s in freed <==> 0 <= s < NSLOTS && s != NDIRECT
    {
      hide Inv, BlockOk, FreedSlots;
      InvShape(fs, own);
      freed := done;
      var a := blocks[x];
      for j := 0 to NINDIRECT
        invariant FreedSlots(fs, own, i, bits, freed)
        invariant forall s :: s in freed <==> 0 <= s < NDIRECT + 1 + j && s != NDIRECT
      {
        FreeOne(fs, own, i, bits, freed, NDIRECT + 1 + j);
        if Word(a, j) != 0 {
          var p := Bfree(Word(a, j));
          if p {
            return true, freed;
          }
        }
        freed := freed + {NDIRECT + 1 + j};
      }
      return false, freed;
    }

    /** Discard an inode's contents.  Only blocks whose bit is set are freed, so the
        "freeing free block" panic is never reached. */
    method Itrunc(i: int, ghost own: seq<Owner>) returns (panicked: bool)
      requires Inv(State(), own) && 0 <= i < |ino|
      modifies this`bits, this`ino, this`dino
      ensures !panicked && State() == Truncated(old(State()), i)
    {
      hide Inv, BlockOk, Word;
      ghost var fs := State();
      InvShape(fs, own);
      ghost var freed;
      panicked, freed := FreeDirect(i, own);
      var x := ino[i].addrs[NDIRECT];
      FreeOne(fs, own, i, bits, freed, NDIRECT);
      if x != 0 {
        panicked, freed := FreeIndirect(x, i, fs, own, freed);
        FreeOne(fs, own, i, bits, freed, NDIRECT);
        panicked := Bfree(x);
        freed := freed + {NDIRECT};
        ino := ino[i := Inode(ino[i].dev, ino[i].size, ino[i].addrs[NDIRECT := 0])];
      } else {
        freed := NoIndirect(fs, own, i, bits, freed);
      }
      AllFreed(fs, own, i, bits, freed);
      ino := ino[i := Inode(ino[i].dev, 0, ino[i].addrs)];
      assert ino[i].addrs == Empty(ino[i].dev).addrs;
      Iupdate(i);
    }

    /** One round of readi's loop: the bytes of the block at offset `at`, up to n. */
    method ReadChunk(i: int, at: nat, n: nat) returns (panicked: bool, chunk: seq<int>)
      requires Shape(State()) && 0 <= i < |ino| && n > 0
      modifies this
      ensures var r := FsSpec.Bmap(old(State()), i, Blk(at));
              if r.Mapped? && 0 <= r.addr < |r.fs.blocks| then
                && !panicked && State() == r.fs
                && chunk == r.fs.blocks[r.addr].bytes[Off(at)..Off(at)+ChunkLen(at, n)]
              else panicked
    {
      hide FsSpec.Bmap, Slot;
      var bn, o := Place(at);
      var p, addr := Bmap(i, bn);
      if p || !(0 <= addr < |blocks|) {
        return true, [];
      }
      var m := if n < BSIZE - o then n else BSIZE - o;
      return false, blocks[addr].bytes[o..o+m];
    }

    /** Read up to n bytes from offset off; the outcome of every branch, and the bytes. */
    method Readi(i: int, off: nat, n: nat) returns (r: Outcome, bytes: seq<int>)
      requires Shape(State()) && 0 <= i < |ino| && off < W32 && n < W32
      modifies this
      ensures match FsOps.Readi(old(State()), i, off, n)
              case Read(f, data) => r == Count(|data|) && bytes == data && State() == f
              case ReadRefused => r == Fail && State() == old(State())
              case ReadDevice => r == Driver && State() == old(State())
              case ReadPanic => r == Panic
    {
      hide FsSpec.Bmap, Slot, Shape, GetFrom, Prepend;
      bytes := [];
      if ino[i].dev {
        return Driver, [];
      }
      if off > ino[i].size || (off + n) % W32 < off {
        return Fail, [];
      }
      var len := if (off + n) % W32 > ino[i].size then ino[i].size - off else n;
      ghost var want := GetFrom(State(), i, off, len);
      PrependNothing(want);
      var tot := 0;
      while tot < len
        invariant 0 <= tot <= len && |bytes| == tot
        invariant Shape(State()) && 0 <= i < |ino|
        invariant want == Prepend(bytes, GetFrom(State(), i, off + tot, len - tot))
      {
        GetStep(State(), i, off + tot, len - tot, bytes);
        var p, chunk := ReadChunk(i, off + tot, len - tot);
        if p {
          return Panic, [];
        }
        bytes := bytes + chunk;
        tot := tot + |chunk|;
      }
      GetDone(State(), i, off + tot, bytes);
      return Count(len), bytes;
    }

    /** One round of writei's loop: as much of src as fits in the block at offset `at`. */
    method WriteChunk(i: int, at: nat, src: seq<int>) returns (panicked: bool, m: nat)
      requires Shape(State()) && 0 <= i < |ino| && src != []
      modifies this
      ensures m == ChunkLen(at, |src|)
      ensures var r := FsSpec.Bmap(old(State()), i, Blk(at));
              if r.Mapped? && 0 <= r.addr < |r.fs.blocks| then
                !panicked && State() == PatchAt(r.fs, r.addr, Off(at), src[..m])
              else panicked
    {
      hide FsSpec.Bmap, Slot;
      var bn, o := Place(at);
      m := if |src| < BSIZE - o then |src| else BSIZE - o;
      var p, addr := Bmap(i, bn);
      if p || !(0 <= addr < |blocks|) {
        return true, m;
      }
      blocks := blocks[addr := Patch(blocks[addr], o, src[..m])];
      return false, m;
    }

    /** writei's copy loop. */
    method CopyIn(i: int, off: nat, src: seq<int>) returns (panicked: bool)
      requires Shape(State()) && 0 <= i < |ino|
      modifies this
      ensures match PutFrom(old(State()), i, off, src)
              case Done(f) => !panicked && State() == f
              case Panicked => panicked
    {
      hide FsSpec.Bmap, Slot, Shape, PutFrom;
      var tot := 0;
      while tot < |src|
        invariant 0 <= tot <= |src|
        invariant Shape(State()) && 0 <= i < |ino|
        invariant PutFrom(old(State()), i, off, src) == PutFrom(State(), i, off + tot, src[tot..])
      {
        PutStep(State(), i, off + tot, src[tot..]);
        var p, m := WriteChunk(i, off + tot, src[tot..]);
        if p {
          return true;
        }
        assert src[tot..][m..] == src[tot+m..];
        tot := tot + m;
      }
      PutDone(State(), i, off + tot, src[tot..]);
      return false;
    }

    /** Write `src` at offset off. */
    method Writei(i: int, off: nat, src: seq<int>) returns (r: Outcome)
      requires Shape(State()) && 0 <= i < |ino| && off < W32 && |src| < W32
      modifies this
      ensures match FsOps.Writei(old(State()), i, off, src)
              case Written(f) => r == Count(|src|) && State() == f
              case Refused => r == Fail && State() == old(State())
              case Device => r == Driver && State() == old(State())
              case WritePanic => r == Panic
    {
      hide Slot, Shape, PutFrom;
      var n := |src|;
      if ino[i].dev {
        return Driver;
      }
      if off > ino[i].size || (off + n) % W32 < off {
        return Fail;
      }
      if (off + n) % W32 > MAXFILE * BSIZE {
        return Fail;
      }
      var p := CopyIn(i, off, src);
      if p {
        return Panic;
      }
      if n > 0 && off + n > ino[i].size {
        ShapeSizes(State());
        ino := ino[i := Inode(ino[i].dev, off + n, ino[i].addrs)];
        Iupdate(i);
      }
      return Count(n);
    }

    /** Copy an inode to disk. */
    method Iupdate(i: int)
      requires 0 <= i < |ino| == |dino|
      modifies this`dino
      ensures dino == old(dino)[i := ino[i]]
    {
      dino := dino[i := ino[i]];
    }
  }

  predicate SlotNumber(s: int) { 0 <= s < NSLOTS }

  lemma NoIndirect(fs: Fs, own: seq<Owner>, i: int, bits: seq<bool>, done: set<int>) returns (freed: set<int>)
    requires Inv(fs, own) && 0 <= i < |fs.ino| && fs.ino[i].addrs[NDIRECT] == 0
    requires FreedSlots(fs, own, i, bits, done) && forall s :: s in done <==> 0 <= s < NDIRECT
    ensures FreedSlots(fs, own, i, bits, freed) && forall s :: 0 <= s < NSLOTS ==> s in freed
  {
    freed := set s | 0 <= s < NSLOTS && SlotNumber(s);
    forall b | 0 <= b < |bits| && own[b].By? && own[b].i == i ensures own[b].s in done {
      assert BlockOk(fs, own, b);
    }
  }
}
