/** The on-disk format (fs.h): where the bitmap bit of a block and the record of an
    inode lie, and the file system a disk stands for.  Setting a bit, updating an inode
    and writing a data block change that file system in exactly one place. */
module DiskFormat {
  import opened Params
  import opened Blocks
  import opened FsSpec
  import L = LogSpec

  const DWORDS: nat := NDIRECT + 4             // uints in a struct dinode
  const IPB: nat := Div(NINDIRECT, DWORDS)     // inodes per block
  const BPB: nat := 8 * BSIZE                  // bitmap bits per block
  const T_DEV := 3
  const T_FILE := 2

  // ---------- k / n and k % n ----------

  function Div(k: nat, n: nat): (q: nat)
    requires n > 0
    decreases k
  {
    if k < n then 0 else 1 + Div(k - n, n)
  }

  function Mod(k: nat, n: nat): (r: nat)
    requires n > 0
    ensures r < n
    decreases k
  {
    if k < n then k else Mod(k - n, n)
  }

  function Times(q: nat, n: nat): (k: nat) {
    if q == 0 then 0 else Times(q - 1, n) + n
  }

  lemma {:induction false} DivModTimes(k: nat, n: nat)
    requires n > 0
    ensures k == Times(Div(k, n), n) + Mod(k, n)
    decreases k
  {
    if k >= n {
      DivModTimes(k - n, n);
    }
  }

  lemma {:induction false} DivMonotone(j: nat, k: nat, n: nat)
    requires n > 0 && j <= k
    ensures Div(j, n) <= Div(k, n)
    decreases j
  {
    if j >= n {
      DivMonotone(j - n, k - n, n);
    }
  }

  lemma {:induction false} TimesFits(j: nat, n: nat, k: nat)
    requires n > 0 && j < Div(k, n)
    ensures Times(j, n) + n <= k
    decreases j
  {
    if j > 0 {
      TimesFits(j - 1, n, k - n);
    }
  }

  lemma {:induction false} TimesApart(j: nat, k: nat, n: nat)
    requires j < k
    ensures Times(j, n) + n <= Times(k, n)
    decreases k
  {
    if j < k - 1 {
      TimesApart(j, k - 1, n);
    }
  }

  lemma {:induction false} TimesIs(q: nat, n: nat)
    ensures Times(q, n) == q * n
    decreases q
  {
    if q > 0 {
      TimesIs(q - 1, n);
      assert q * n == (q - 1) * n + n;
    }
  }

  lemma EuclidTimes(k: nat, n: nat)
    requires n > 0
    ensures k == Times(k / n, n) + k % n && k % n < n
  {
    hide *;
    TimesIs(k / n, n);
    assert k == (k / n) * n + k % n;
  }

  lemma TimesUnique(q: nat, r: nat, p: nat, s: nat, n: nat)
    requires r < n && s < n && Times(q, n) + r == Times(p, n) + s
    ensures q == p && r == s
  {
    hide *;
    if q < p {
      TimesApart(q, p, n);
    } else if p < q {
      TimesApart(p, q, n);
    }
  }

  /** These are the quotient and the remainder the macros of fs.h compute. */
  lemma IsDivMod(k: nat, n: nat)
    requires n > 0
    ensures Div(k, n) == k / n && Mod(k, n) == k % n
  {
    hide *;
    DivModTimes(k, n);
    EuclidTimes(k, n);
    TimesUnique(Div(k, n), Mod(k, n), k / n, k % n, n);
  }

  // ---------- bits ----------

  /** Bit m of x, as x & (1 << m) tests it. */
  predicate Bit(x: nat, m: nat) {
    if m == 0 then x % 2 == 1 else Bit(x / 2, m - 1)
  }

  /** x | (1 << m), or x & ~(1 << m). */
  function PutBit(x: nat, m: nat, v: bool): (r: nat) {
    if m == 0 then x - x % 2 + (if v then 1 else 0) else x % 2 + 2 * PutBit(x / 2, m - 1, v)
  }

  lemma {:induction false} PutBitReads(x: nat, m: nat, v: bool, k: nat)
    ensures Bit(PutBit(x, m, v), k) == if k == m then v else Bit(x, k)
    decreases m
  {
    if m > 0 {
      assert PutBit(x, m, v) / 2 == PutBit(x / 2, m - 1, v);
      if k > 0 {
        PutBitReads(x / 2, m - 1, v, k - 1);
      }
    }
  }

  function Exp(n: nat): nat {
    if n == 0 then 1 else 2 * Exp(n - 1)
  }

  lemma {:induction false} PutBitBound(x: nat, m: nat, v: bool, n: nat)
    requires m < n && x < Exp(n)
    ensures PutBit(x, m, v) < Exp(n)
    decreases m
  {
    var half := Exp(n - 1);
    assert x / 2 < half;
    if m == 0 {
      assert PutBit(x, m, v) == 2 * (x / 2) + (if v then 1 else 0);
    } else {
      PutBitBound(x / 2, m - 1, v, n - 1);
    }
  }

  lemma PutBitByte(x: nat, m: nat, v: bool)
    requires m < 8 && x < 256
    ensures PutBit(x, m, v) < 256
  {
    assert Exp(3) == 8;
    assert Exp(6) == 64;
    assert Exp(8) == 256;
    PutBitBound(x, m, v, 8);
  }

  ghost predicate Bytes(b: Block) {
    Whole(b) && forall k :: 0 <= k < BSIZE ==> 0 <= b.bytes[k] < 256
  }

  ghost predicate BitOf(b: Block, bi: nat)
    requires Bytes(b) && bi < BPB
  {
    Bit(b.bytes[bi / 8], bi % 8)
  }

  ghost function SetBit(b: Block, bi: nat, v: bool): (r: Block)
    requires Bytes(b) && bi < BPB
    ensures Bytes(r)
  {
    PutBitByte(b.bytes[bi / 8], bi % 8, v);
    Block(b.bytes[bi / 8 := PutBit(b.bytes[bi / 8], bi % 8, v)])
  }

  lemma SetBitReads(b: Block, bi: nat, v: bool, bj: nat)
    requires Bytes(b) && bi < BPB && bj < BPB
    ensures BitOf(SetBit(b, bi, v), bj) <==> if bj == bi then v else BitOf(b, bj)
  {
    PutBitReads(b.bytes[bi / 8], bi % 8, v, bj % 8);
  }

  // ---------- inodes ----------

  datatype Dinode = Dinode(kind: nat, major: nat, minor: nat, nlink: nat, size: nat, addrs: seq<int>)

  ghost predicate Uints(ws: seq<int>) {
    forall k :: 0 <= k < |ws| ==> 0 <= ws[k] < W32
  }

  /** The short fields are 16 bits, and there are NDIRECT + 1 addresses. */
  ghost predicate Fits(x: Dinode) {
    && x.kind < 65536 && x.major < 65536 && x.minor < 65536 && x.nlink < 65536
    && x.size < W32 && |x.addrs| == NDIRECT + 1 && Uints(x.addrs)
  }

  /** A struct dinode as uints: two shorts share each of the first two. */
  function ToWords(x: Dinode): (ws: seq<int>) {
    [x.kind + 65536 * x.major, x.minor + 65536 * x.nlink, x.size] + x.addrs
  }

  function FromWords(ws: seq<int>): (x: Dinode)
    requires |ws| == DWORDS && ws[0] >= 0 && ws[1] >= 0 && ws[2] >= 0
  {
    Dinode(ws[0] % 65536, ws[0] / 65536, ws[1] % 65536, ws[1] / 65536, ws[2], ws[3..])
  }

  /** The first word of inode j of a block. */
  function Spot(j: nat): (k: nat)
    requires j < IPB
    ensures k + DWORDS <= NINDIRECT
  {
    TimesFits(j, DWORDS, NINDIRECT);
    Times(j, DWORDS)
  }

  lemma BytesWord(b: Block, k: nat)
    requires Bytes(b) && k < NINDIRECT
    ensures 0 <= Word(b, k) < W32
  {
  }

  lemma {:induction false} SetWordsBytes(b: Block, at: nat, ws: seq<int>)
    requires Bytes(b) && at + |ws| <= NINDIRECT && Uints(ws)
    ensures Bytes(SetWords(b, at, ws))
    decreases |ws|
  {
    if ws != [] {
      SetWordsBytes(b, at, ws[..|ws|-1]);
    }
  }

  ghost function WordsOf(b: Block, j: nat): (ws: seq<int>)
    requires Bytes(b) && j < IPB
    ensures |ws| == DWORDS && Uints(ws)
  {
    SpotWords(b, j);
    seq(DWORDS, k requires 0 <= k < DWORDS => Word(b, Spot(j) + k))
  }

  lemma SpotWords(b: Block, j: nat)
    requires Bytes(b) && j < IPB
    ensures forall k :: Spot(j) <= k < Spot(j) + DWORDS ==> 0 <= Word(b, k) < W32
  {
    forall k | Spot(j) <= k < Spot(j) + DWORDS ensures 0 <= Word(b, k) < W32 {
      BytesWord(b, k);
    }
  }

  ghost function GetInode(b: Block, j: nat): (x: Dinode)
    requires Bytes(b) && j < IPB
    ensures Fits(x)
  {
    FromWords(WordsOf(b, j))
  }

  /** iupdate's copy of an inode into its block. */
  ghost function PutInode(b: Block, j: nat, x: Dinode): (r: Block)
    requires Bytes(b) && j < IPB && Fits(x)
    ensures Bytes(r)
  {
    SetWordsBytes(b, Spot(j), ToWords(x));
    SetWords(b, Spot(j), ToWords(x))
  }

  lemma PutInodeReads(b: Block, j: nat, x: Dinode, k: nat)
    requires Bytes(b) && j < IPB && k < IPB && Fits(x)
    ensures GetInode(PutInode(b, j, x), k) == if k == j then x else GetInode(b, k)
  {
    hide Word, SetWords, Bytes;
    var r := PutInode(b, j, x);
    if j < k {
      TimesApart(j, k, DWORDS);
    } else if k < j {
      TimesApart(k, j, DWORDS);
    }
    BytesWhole(b);
    forall m | 0 <= m < DWORDS ensures WordsOf(r, k)[m] == if k == j then ToWords(x)[m] else WordsOf(b, k)[m] {
      SetWordsReads(b, Spot(j), ToWords(x), Spot(k) + m);
    }
    assert WordsOf(r, k) == if k == j then ToWords(x) else WordsOf(b, k);
    WordsRoundTrip(x);
  }

  lemma BytesWhole(b: Block)
    requires Bytes(b)
    ensures Whole(b)
  {
  }

  lemma WordsRoundTrip(x: Dinode)
    requires Fits(x)
    ensures FromWords(ToWords(x)) == x
  {
    assert (x.kind + 65536 * x.major) % 65536 == x.kind;
  }

  // ---------- the disk ----------

  /** The superblock: boot block, superblock, log, inodes, bitmap, data. */
  datatype Super = Super(size: nat, ninodes: nat, nlog: nat)

  function LogArea(sb: Super): L.Layout { L.Layout(2, sb.nlog) }

  function InodeStart(sb: Super): nat { 2 + sb.nlog }

  function BmapStart(sb: Super): nat { InodeStart(sb) + Div(sb.ninodes, IPB) + 1 }

  function DataStart(sb: Super): nat { BmapStart(sb) + Div(sb.size, BPB) + 1 }

  /** The block of inode i. */
  function IBlock(sb: Super, i: nat): (b: nat)
    requires i < sb.ninodes
    ensures InodeStart(sb) <= b < BmapStart(sb)
  {
    DivMonotone(i, sb.ninodes, IPB);
    InodeStart(sb) + Div(i, IPB)
  }

  /** The bitmap block of block b. */
  function BBlock(sb: Super, b: nat): (k: nat)
    requires b < sb.size
    ensures BmapStart(sb) <= k < DataStart(sb)
  {
    DivMonotone(b, sb.size, BPB);
    BmapStart(sb) + Div(b, BPB)
  }

  /** Same block and same place in it: same object. */
  lemma {:induction false} SameObject(j: nat, k: nat, n: nat)
    requires n > 0 && Div(j, n) == Div(k, n) && Mod(j, n) == Mod(k, n)
    ensures j == k
    decreases j
  {
    if j >= n {
      SameObject(j - n, k - n, n);
    }
  }

  /** Outside the log, the blocks are whole and the metadata is made of bytes. */
  ghost predicate Mountable(sb: Super, d: L.Disk) {
    && DataStart(sb) <= sb.size == |d|
    && forall k :: InodeStart(sb) <= k < |d| ==> Whole(d[k]) && (k < DataStart(sb) ==> Bytes(d[k]))
  }

  ghost predicate BitOn(sb: Super, d: L.Disk, b: nat)
    requires Mountable(sb, d) && b < sb.size
  {
    BitOf(d[BBlock(sb, b)], Mod(b, BPB))
  }

  ghost function InodeOn(sb: Super, d: L.Disk, i: nat): (x: Dinode)
    requires Mountable(sb, d) && i < sb.ninodes
    ensures Fits(x)
  {
    GetInode(d[IBlock(sb, i)], Mod(i, IPB))
  }

  /** What the file layer uses of an inode. */
  function Core(x: Dinode): Inode {
    Inode(x.kind == T_DEV, x.size, x.addrs)
  }

  ghost function BitsOn(sb: Super, d: L.Disk): (bits: seq<bool>)
    requires Mountable(sb, d)
    ensures |bits| == sb.size && forall b :: 0 <= b < sb.size ==> bits[b] == BitOn(sb, d, b)
  {
    seq(sb.size, b requires 0 <= b < sb.size => BitOn(sb, d, b))
  }

  ghost function InodesOn(sb: Super, d: L.Disk): (ino: seq<Inode>)
    requires Mountable(sb, d)
    ensures |ino| == sb.ninodes && forall i :: 0 <= i < sb.ninodes ==> ino[i] == Core(InodeOn(sb, d, i))
  {
    seq(sb.ninodes, i requires 0 <= i < sb.ninodes => Core(InodeOn(sb, d, i)))
  }

  ghost function DataOn(sb: Super, d: L.Disk): (blocks: seq<Block>)
    requires Mountable(sb, d)
    ensures |blocks| == sb.size && forall b :: 0 <= b < sb.size ==> blocks[b] == if b < DataStart(sb) then Zero() else d[b]
  {
    seq(sb.size, b requires 0 <= b < sb.size => if b < DataStart(sb) then Zero() else d[b])
  }

  /** The file system a disk stands for, with every inode as it is on disk. */
  ghost function Image(sb: Super, d: L.Disk): (fs: Fs)
    requires Mountable(sb, d)
  {
    Fs(DataStart(sb), BitsOn(sb, d), DataOn(sb, d), InodesOn(sb, d), InodesOn(sb, d))
  }

  // ---------- the writes the kernel makes ----------

  /** balloc and bfree. */
  ghost function WriteBit(sb: Super, d: L.Disk, b: nat, v: bool): L.Disk
    requires Mountable(sb, d) && b < sb.size
  {
    d[BBlock(sb, b) := SetBit(d[BBlock(sb, b)], Mod(b, BPB), v)]
  }

  lemma WriteBitIs(sb: Super, d: L.Disk, b: nat, v: bool)
    requires Mountable(sb, d) && b < sb.size
    ensures var r := WriteBit(sb, d, b, v);
            Mountable(sb, r) && Image(sb, r) == Image(sb, d).(bits := BitsOn(sb, d)[b := v])
  {
    hide SetBit, BitOf, GetInode, Bytes;
    var r := WriteBit(sb, d, b, v);
    assert Mountable(sb, r) by {
      BytesWhole(r[BBlock(sb, b)]);
    }
    forall c | 0 <= c < sb.size ensures BitOn(sb, r, c) == BitsOn(sb, d)[b := v][c] {
      if BBlock(sb, c) == BBlock(sb, b) {
        SetBitReads(d[BBlock(sb, b)], Mod(b, BPB), v, Mod(c, BPB));
        if Mod(c, BPB) == Mod(b, BPB) {
          SameObject(b, c, BPB);
        }
      }
    }
    assert BitsOn(sb, r) == BitsOn(sb, d)[b := v];
    assert InodesOn(sb, r) == InodesOn(sb, d);
    assert DataOn(sb, r) == DataOn(sb, d);
  }

  /** iupdate. */
  ghost function WriteInode(sb: Super, d: L.Disk, i: nat, x: Dinode): L.Disk
    requires Mountable(sb, d) && i < sb.ninodes && Fits(x)
  {
    d[IBlock(sb, i) := PutInode(d[IBlock(sb, i)], Mod(i, IPB), x)]
  }

  lemma WriteInodeIs(sb: Super, d: L.Disk, i: nat, x: Dinode)
    requires Mountable(sb, d) && i < sb.ninodes && Fits(x)
    ensures var r, ino := WriteInode(sb, d, i, x), InodesOn(sb, d)[i := Core(x)];
            && Mountable(sb, r) && Image(sb, r) == Image(sb, d).(ino := ino, dino := ino)
            && forall j :: 0 <= j < sb.ninodes ==> InodeOn(sb, r, j) == if j == i then x else InodeOn(sb, d, j)
  {
    hide PutInode, GetInode, BitOf, Bytes;
    var r := WriteInode(sb, d, i, x);
    assert Mountable(sb, r) by {
      BytesWhole(r[IBlock(sb, i)]);
    }
    forall j | 0 <= j < sb.ninodes ensures InodeOn(sb, r, j) == if j == i then x else InodeOn(sb, d, j) {
      if IBlock(sb, j) == IBlock(sb, i) {
        PutInodeReads(d[IBlock(sb, i)], Mod(i, IPB), x, Mod(j, IPB));
        if Mod(j, IPB) == Mod(i, IPB) {
          SameObject(i, j, IPB);
        }
      }
    }
    assert InodesOn(sb, r) == InodesOn(sb, d)[i := Core(x)];
    assert BitsOn(sb, r) == BitsOn(sb, d);
    assert DataOn(sb, r) == DataOn(sb, d);
  }

  /** A data block: bzero, writei, an indirect block in bmap. */
  lemma WriteDataIs(sb: Super, d: L.Disk, b: nat, x: Block)
    requires Mountable(sb, d) && DataStart(sb) <= b < sb.size && Whole(x)
    ensures var r := d[b := x];
            Mountable(sb, r) && Image(sb, r) == Image(sb, d).(blocks := DataOn(sb, d)[b := x])
  {
    hide GetInode, BitOf, Bytes;
    var r := d[b := x];
    assert Mountable(sb, r);
    assert InodesOn(sb, r) == InodesOn(sb, d);
    assert BitsOn(sb, r) == BitsOn(sb, d);
    assert DataOn(sb, r) == DataOn(sb, d)[b := x];
  }

  // ---------- storing a whole file system ----------

  /** The first n of a, then b. */
  function Mix<T>(a: seq<T>, b: seq<T>, n: nat): (r: seq<T>)
    requires n <= |a| == |b|
    ensures |r| == |a|
  {
    a[..n] + b[n..]
  }

  lemma MixStep<T>(a: seq<T>, b: seq<T>, n: nat)
    requires 0 < n <= |a| == |b|
    ensures Mix(a, b, n - 1)[n-1 := a[n-1]] == Mix(a, b, n)
  {
  }

  lemma MixAll<T>(a: seq<T>, b: seq<T>)
    requires |a| == |b|
    ensures Mix(a, b, 0) == b && Mix(a, b, |a|) == a
  {
  }

  ghost predicate InodesFit(sb: Super, ino: seq<Inode>) {
    |ino| == sb.ninodes && forall i :: 0 <= i < |ino| ==> InodeFits(ino[i])
  }

  ghost predicate BlocksFit(sb: Super, blocks: seq<Block>) {
    |blocks| == sb.size && forall b :: 0 <= b < |blocks| ==> Whole(blocks[b]) && (b < DataStart(sb) ==> blocks[b] == Zero())
  }

  ghost predicate InodeFits(n: Inode) {
    n.size < W32 && |n.addrs| == NDIRECT + 1 && Uints(n.addrs)
  }

  /** A file system the disk can hold: `meta` is where the data starts, and nothing is
      said of the metadata blocks themselves. */
  ghost predicate Storable(sb: Super, fs: Fs) {
    && fs.meta == DataStart(sb) && |fs.bits| == sb.size && fs.dino == fs.ino
    && BlocksFit(sb, fs.blocks) && InodesFit(sb, fs.ino)
  }

  /** The record of an inode with its size, addresses and device mark replaced. */
  function Updated(was: Dinode, n: Inode): (x: Dinode)
    ensures Core(x) == n
  {
    Dinode(if n.dev then T_DEV else if was.kind == T_DEV then T_FILE else was.kind,
           was.major, was.minor, was.nlink, n.size, n.addrs)
  }

  /** The first n bits written. */
  ghost function StoreBits(sb: Super, d: L.Disk, bits: seq<bool>, n: nat): (r: L.Disk)
    requires Mountable(sb, d) && n <= |bits| == sb.size
    ensures Mountable(sb, r)
  {
    if n == 0 then d
    else
      var was := StoreBits(sb, d, bits, n - 1);
      WriteBitIs(sb, was, n - 1, bits[n-1]);
      WriteBit(sb, was, n - 1, bits[n-1])
  }

  lemma {:induction false} StoreBitsIs(sb: Super, d: L.Disk, bits: seq<bool>, n: nat)
    requires Mountable(sb, d) && n <= |bits| == sb.size
    ensures Image(sb, StoreBits(sb, d, bits, n)) == Image(sb, d).(bits := Mix(bits, BitsOn(sb, d), n))
    decreases n
  {
    hide WriteBit, Mountable, InodesOn, DataOn, BitsOn, Mix;
    MixAll(bits, BitsOn(sb, d));
    if n > 0 {
      StoreBitsIs(sb, d, bits, n - 1);
      WriteBitIs(sb, StoreBits(sb, d, bits, n - 1), n - 1, bits[n-1]);
      MixStep(bits, BitsOn(sb, d), n);
    }
  }

  /** The first n inodes written. */
  ghost function StoreInodes(sb: Super, d: L.Disk, ino: seq<Inode>, n: nat): (r: L.Disk)
    requires Mountable(sb, d) && InodesFit(sb, ino) && n <= |ino|
    ensures Mountable(sb, r)
  {
    if n == 0 then d
    else
      var was := StoreInodes(sb, d, ino, n - 1);
      WriteInodeIs(sb, was, n - 1, Updated(InodeOn(sb, was, n - 1), ino[n-1]));
      WriteInode(sb, was, n - 1, Updated(InodeOn(sb, was, n - 1), ino[n-1]))
  }

  lemma {:induction false} StoreInodesIs(sb: Super, d: L.Disk, ino: seq<Inode>, n: nat)
    requires Mountable(sb, d) && InodesFit(sb, ino) && n <= |ino|
    ensures var now := Mix(ino, InodesOn(sb, d), n);
            Image(sb, StoreInodes(sb, d, ino, n)) == Image(sb, d).(ino := now, dino := now)
    decreases n
  {
    hide WriteInode, Mountable, BitsOn, DataOn, InodesOn, InodeOn, InodeFits, Mix, Core;
    MixAll(ino, InodesOn(sb, d));
    if n > 0 {
      StoreInodesIs(sb, d, ino, n - 1);
      var was := StoreInodes(sb, d, ino, n - 1);
      UpdatedFits(sb, InodeOn(sb, was, n - 1), ino, n - 1);
      WriteInodeIs(sb, was, n - 1, Updated(InodeOn(sb, was, n - 1), ino[n-1]));
      MixStep(ino, InodesOn(sb, d), n);
    }
  }

  lemma UpdatedFits(sb: Super, was: Dinode, ino: seq<Inode>, i: nat)
    requires InodesFit(sb, ino) && i < |ino| && Fits(was)
    ensures Fits(Updated(was, ino[i]))
  {
  }

  /** The data blocks below n written. */
  ghost function StoreData(sb: Super, d: L.Disk, blocks: seq<Block>, n: nat): (r: L.Disk)
    requires Mountable(sb, d) && BlocksFit(sb, blocks) && DataStart(sb) <= n <= |blocks|
    ensures Mountable(sb, r)
  {
    if n == DataStart(sb) then d
    else
      var was := StoreData(sb, d, blocks, n - 1);
      WriteDataIs(sb, was, n - 1, blocks[n-1]);
      was[n-1 := blocks[n-1]]
  }

  lemma {:induction false} StoreDataIs(sb: Super, d: L.Disk, blocks: seq<Block>, n: nat)
    requires Mountable(sb, d) && BlocksFit(sb, blocks) && DataStart(sb) <= n <= |blocks|
    ensures Image(sb, StoreData(sb, d, blocks, n)) == Image(sb, d).(blocks := Mix(blocks, DataOn(sb, d), n))
    decreases n
  {
    hide Mountable, BitsOn, InodesOn, DataOn, Mix, DataStart, BlocksFit;
    if n == DataStart(sb) {
      DataBegins(sb, d, blocks);
    } else {
      StoreDataIs(sb, d, blocks, n - 1);
      BlockFits(sb, blocks, n - 1);
      WriteDataIs(sb, StoreData(sb, d, blocks, n - 1), n - 1, blocks[n-1]);
      MixStep(blocks, DataOn(sb, d), n);
    }
  }

  lemma DataBegins(sb: Super, d: L.Disk, blocks: seq<Block>)
    requires Mountable(sb, d) && BlocksFit(sb, blocks)
    ensures Mix(blocks, DataOn(sb, d), DataStart(sb)) == DataOn(sb, d)
  {
  }

  lemma BlockFits(sb: Super, blocks: seq<Block>, b: nat)
    requires BlocksFit(sb, blocks) && b < |blocks|
    ensures Whole(blocks[b])
  {
  }

  ghost function Store(sb: Super, d: L.Disk, fs: Fs): (r: L.Disk)
    requires Mountable(sb, d) && Storable(sb, fs)
    ensures Mountable(sb, r)
  {
    StoreData(sb, StoreInodes(sb, StoreBits(sb, d, fs.bits, sb.size), fs.ino, sb.ninodes), fs.blocks, sb.size)
  }

  /** What is stored bit by bit, inode by inode and block by block reads back. */
  lemma StoreReadsBack(sb: Super, d: L.Disk, fs: Fs)
    requires Mountable(sb, d) && Storable(sb, fs)
    ensures Image(sb, Store(sb, d, fs)) == fs
  {
    hide StoreBits, StoreInodes, StoreData, Mix, BitsOn, InodesOn, DataOn;
    var d1 := StoreBits(sb, d, fs.bits, sb.size);
    StoreBitsIs(sb, d, fs.bits, sb.size);
    MixAll(fs.bits, BitsOn(sb, d));
    var d2 := StoreInodes(sb, d1, fs.ino, sb.ninodes);
    StoreInodesIs(sb, d1, fs.ino, sb.ninodes);
    MixAll(fs.ino, InodesOn(sb, d1));
    StoreDataIs(sb, d2, fs.blocks, sb.size);
    MixAll(fs.blocks, DataOn(sb, d2));
  }
}
