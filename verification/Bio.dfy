/** The buffer cache (bio.c) over the in-memory disk (memide.c).

    Buffers live in an array; the MRU list is the prev/next ring through them with
    index NBUF as its head.  The cache is proved to refine one logical disk, the
    result of everything logged or written so far. */
module Bio {
  import opened Params
  import opened Seqs
  import opened Blocks
  import opened LogSpec

  const HEAD: nat := NBUF
  const ROOTDEV := 1

  datatype Buf = Buf(dev: int, blockno: int, busy: bool, valid: bool, dirty: bool, data: Block)

  // ---------- the ring ----------

  ghost predicate InNodes(s: seq<int>, n: int) {
    forall i :: 0 <= i < |s| ==> 0 <= s[i] < n
  }

  /** Following `nx` from the head visits `order` and returns to the head, and `pv`
      is its inverse on those nodes. */
  ghost predicate Ring(nx: seq<int>, pv: seq<int>, order: seq<int>) {
    && |nx| == |pv| == NBUF + 1
    && Distinct(order) && InNodes(order, NBUF)
    && Linked(nx, pv, [HEAD] + order)
  }

  ghost predicate Linked(nx: seq<int>, pv: seq<int>, c: seq<int>) {
    && 0 < |c| && InNodes(c, |nx|) && |nx| == |pv|
    && (forall k :: 0 <= k < |c| - 1 ==> nx[c[k]] == c[k+1] && pv[c[k+1]] == c[k])
    && nx[c[|c|-1]] == c[0] && pv[c[0]] == c[|c|-1]
  }

  /** The same node sequence with position j taken out. */
  function Without(order: seq<int>, j: nat): (r: seq<int>)
    requires j < |order|
    ensures |r| == |order| - 1
  {
    order[..j] + order[j+1..]
  }

  lemma WithHead(order: seq<int>)
    requires Distinct(order) && InNodes(order, NBUF)
    ensures Distinct([HEAD] + order)
  {
  }

  /** On a circular chain of distinct nodes, joining the neighbours of c[p] leaves a
      chain without it. */
  lemma UnlinkChain(nx: seq<int>, pv: seq<int>, c: seq<int>, p: nat)
    requires Linked(nx, pv, c) && Distinct(c) && 0 < p < |c|
    ensures var b := c[p];
            && 0 <= nx[b] < |nx| && 0 <= pv[b] < |nx| && nx[b] != b
            && Linked(nx[pv[b] := nx[b]], pv[nx[b] := pv[b]], Without(c, p))
  {
    var b := c[p];
    var c' := Without(c, p);
    assert nx[c[p-1]] == b && pv[b] == c[p-1];
    assert nx[b] == if p + 1 < |c| then c[p+1] else c[0];
    var nx', pv' := nx[pv[b] := nx[b]], pv[nx[b] := pv[b]];
    forall k | 0 <= k < |c'| - 1 ensures nx'[c'[k]] == c'[k+1] && pv'[c'[k+1]] == c'[k] {
      if k < p - 1 {
        assert nx[c[k]] == c[k+1];
      } else if k > p - 1 {
        assert nx[c[k+1]] == c[k+2];
      }
    }
  }

  /** Unlinking node order[j]. */
  lemma Unlink(nx: seq<int>, pv: seq<int>, order: seq<int>, j: nat)
    requires Ring(nx, pv, order) && j < |order|
    ensures var b := order[j];
            && 0 <= nx[b] <= NBUF && 0 <= pv[b] <= NBUF && nx[b] != b
            && Ring(nx[pv[b] := nx[b]], pv[nx[b] := pv[b]], Without(order, j))
            && b !in Without(order, j)
  {
    hide Linked;
    WithHead(order);
    UnlinkChain(nx, pv, [HEAD] + order, j + 1);
    assert Without([HEAD] + order, j + 1) == [HEAD] + Without(order, j);
  }

  /** On such a chain, a free node linked in right after c[0]. */
  lemma LinkChain(nx: seq<int>, pv: seq<int>, c: seq<int>, b: int)
    requires Linked(nx, pv, c) && Distinct(c) && 0 <= b < |nx| && b !in c
    ensures 0 <= nx[c[0]] < |nx|
    ensures Linked(nx[b := nx[c[0]]][c[0] := b], pv[b := c[0]][nx[c[0]] := b], [c[0], b] + c[1..])
  {
    var h, c' := c[0], [c[0], b] + c[1..];
    assert nx[h] == if |c| > 1 then c[1] else h;
    var nx', pv' := nx[b := nx[h]][h := b], pv[b := h][nx[h] := b];
    forall k | 0 <= k < |c'| - 1 ensures nx'[c'[k]] == c'[k+1] && pv'[c'[k+1]] == c'[k] {
      if k >= 2 {
        assert c'[k] == c[k-1] && c'[k+1] == c[k] && nx[c[k-1]] == c[k];
      }
    }
  }

  lemma OneNode(nx: seq<int>, pv: seq<int>)
    requires |nx| == |pv| == NBUF + 1 && nx[HEAD] == pv[HEAD] == HEAD
    ensures Ring(nx, pv, [])
  {
    assert [HEAD] + [] == [HEAD];
  }

  /** Linking a free node in right after the head. */
  lemma LinkFront(nx: seq<int>, pv: seq<int>, order: seq<int>, b: int)
    requires Ring(nx, pv, order) && 0 <= b < NBUF && b !in order
    ensures 0 <= nx[HEAD] <= NBUF
    ensures Ring(nx[b := nx[HEAD]][HEAD := b], pv[b := HEAD][nx[HEAD] := b], [b] + order)
  {
    hide Linked;
    WithHead(order);
    LinkChain(nx, pv, [HEAD] + order, b);
    assert [HEAD, b] + ([HEAD] + order)[1..] == [HEAD] + ([b] + order);
  }

  // ---------- coherence ----------

  predicate Holds(b: Buf, dev: int, blockno: int) {
    b.dev == dev && b.blockno == blockno
  }

  ghost predicate CachedBlock(bufs: seq<Buf>, dev: int, blockno: int) {
    exists i :: 0 <= i < |bufs| && Holds(bufs[i], dev, blockno)
  }

  /** At most one buffer per block.  (A buffer never used has dev -1.) */
  ghost predicate Unique(bufs: seq<Buf>) {
    forall i, j :: 0 <= i < j < |bufs| && bufs[i].dev >= 0 ==> !Holds(bufs[j], bufs[i].dev, bufs[i].blockno)
  }

  /** What one buffer of the disk promises: clean means the disk is up to date, and
      a released valid buffer holds the logical contents. */
  predicate BufOk(b: Buf, disk: Disk, logical: Disk)
    requires |disk| == |logical|
  {
    && (b.dirty ==> b.valid)
    && (b.dev == ROOTDEV ==>
          && (b.valid ==> 0 <= b.blockno < |disk|)
          && (0 <= b.blockno < |disk| && !b.dirty ==> disk[b.blockno] == logical[b.blockno])
          && (b.valid && !b.busy ==> b.data == logical[b.blockno]))
  }

  ghost predicate Coherent(bufs: seq<Buf>, disk: Disk, logical: Disk) {
    && |disk| == |logical| && Unique(bufs)
    && (forall i :: 0 <= i < |bufs| ==> BufOk(bufs[i], disk, logical))
    && (forall k :: 0 <= k < |disk| && !CachedBlock(bufs, ROOTDEV, k) ==> disk[k] == logical[k])
  }

  /** Changing a buffer without changing which block it is for. */
  lemma SameBlock(bufs: seq<Buf>, i: nat, b: Buf)
    requires i < |bufs| && b.dev == bufs[i].dev && b.blockno == bufs[i].blockno
    ensures Unique(bufs) ==> Unique(bufs[i := b])
    ensures forall d, k :: CachedBlock(bufs[i := b], d, k) <==> CachedBlock(bufs, d, k)
  {
    forall d, k ensures CachedBlock(bufs[i := b], d, k) <==> CachedBlock(bufs, d, k) {
      if CachedBlock(bufs, d, k) {
        var j :| 0 <= j < |bufs| && Holds(bufs[j], d, k);
        assert Holds(bufs[i := b][j], d, k);
      }
      if CachedBlock(bufs[i := b], d, k) {
        var j :| 0 <= j < |bufs| && Holds(bufs[i := b][j], d, k);
        assert Holds(bufs[j], d, k);
      }
    }
  }

  lemma CoherentAt(bufs: seq<Buf>, disk: Disk, logical: Disk, i: nat)
    requires Coherent(bufs, disk, logical) && i < |bufs|
    ensures |disk| == |logical| && BufOk(bufs[i], disk, logical)
  {
  }

  /** Flags and data of one buffer change, the disk and its logical value do not. */
  lemma Touch(bufs: seq<Buf>, disk: Disk, logical: Disk, i: nat, b: Buf)
    requires Coherent(bufs, disk, logical) && i < |bufs|
    requires b.dev == bufs[i].dev && b.blockno == bufs[i].blockno && BufOk(b, disk, logical)
    ensures Coherent(bufs[i := b], disk, logical)
  {
    SameBlock(bufs, i, b);
  }

  /** A buffer that is neither busy nor dirty may be given to another block: the
      block it held is up to date on disk. */
  lemma Recycle(bufs: seq<Buf>, disk: Disk, logical: Disk, i: nat, dev: int, blockno: int)
    requires Coherent(bufs, disk, logical) && i < |bufs|
    requires !bufs[i].busy && !bufs[i].dirty && !CachedBlock(bufs, dev, blockno)
    ensures Coherent(bufs[i := Buf(dev, blockno, true, false, false, bufs[i].data)], disk, logical)
  {
    var b := Buf(dev, blockno, true, false, false, bufs[i].data);
    var bufs' := bufs[i := b];
    forall k, m | 0 <= k < m < |bufs'| && bufs'[k].dev >= 0
      ensures !Holds(bufs'[m], bufs'[k].dev, bufs'[k].blockno)
    {
      if k == i {
        assert !Holds(bufs[m], dev, blockno);
      } else if m == i {
        assert !Holds(bufs[k], dev, blockno);
      }
    }
    forall k | CachedBlock(bufs, ROOTDEV, k) && !Holds(bufs[i], ROOTDEV, k) ensures CachedBlock(bufs', ROOTDEV, k) {
      var j :| 0 <= j < |bufs| && Holds(bufs[j], ROOTDEV, k);
      assert Holds(bufs'[j], ROOTDEV, k);
    }
    assert BufOk(b, disk, logical) by {
      if dev == ROOTDEV && 0 <= blockno < |disk| {
        assert disk[blockno] == logical[blockno];
      }
    }
  }

  /** The block of a busy buffer gets a new logical value: written through to the
      disk (bwrite) or pinned as dirty (log_write). */
  lemma Store(bufs: seq<Buf>, disk: Disk, logical: Disk, i: nat, toDisk: bool)
    requires Coherent(bufs, disk, logical) && i < |bufs|
    requires bufs[i].busy && bufs[i].dev == ROOTDEV && 0 <= bufs[i].blockno < |disk|
    ensures var k, x := bufs[i].blockno, bufs[i].data;
            Coherent(bufs[i := bufs[i].(valid := true, dirty := !toDisk)],
                     if toDisk then disk[k := x] else disk, logical[k := x])
  {
    var b := bufs[i].(valid := true, dirty := !toDisk);
    SameBlock(bufs, i, b);
    forall j | 0 <= j < |bufs| && j != i && bufs[j].dev == ROOTDEV ensures bufs[j].blockno != b.blockno {
      assert !(Holds(bufs[if i < j then j else i], ROOTDEV, bufs[if i < j then i else j].blockno));
    }
    assert Holds(bufs[i], ROOTDEV, b.blockno);
    assert CachedBlock(bufs, ROOTDEV, b.blockno);
    var disk', logical' := if toDisk then disk[b.blockno := b.data] else disk, logical[b.blockno := b.data];
    var bufs' := bufs[i := b];
    forall j | 0 <= j < |bufs'| ensures BufOk(bufs'[j], disk', logical') {
      assert BufOk(bufs[j], disk, logical);
    }
  }

  // ---------- the cache ----------

  datatype Got = Hit(i: int) | Recycled(i: int) | MustSleep(i: int) | NoBuffers

  class Bcache {
    const next: array<int>
    const prev: array<int>
    const bufs: array<Buf>
    var disk: Disk
    ghost const disk0: Disk          // the disk at boot
    ghost var history: seq<Write>    // everything logged or written since
    ghost var order: seq<int>        // buffers, most recently used first

    /** What a read of each block must return: the last value logged or written. */
    ghost function Logical(): (d: Disk)
      reads this
      requires InRange(disk0, history)
    {
      Apply(disk0, history)
    }

    ghost predicate RingOk()
      reads this, next, prev
    {
      && next.Length == prev.Length == NBUF + 1 && next != prev
      && |order| == NBUF && Ring(next[..], prev[..], order)
      && (forall i :: 0 <= i < NBUF ==> i in order)
    }

    ghost predicate CacheOk()
      reads this, bufs
    {
      && bufs.Length == NBUF && InRange(disk0, history)
      && Coherent(bufs[..], disk, Logical())
    }

    ghost predicate Valid()
      reads this, next, prev, bufs
    {
      RingOk() && CacheOk()
    }

    constructor (d: Disk)
      ensures Valid() && disk == d && Logical() == d
      ensures fresh(next) && fresh(prev) && fresh(bufs)
    {
      disk := d;
      disk0 := d;
      history := [];
      order := [];
      next := new int[NBUF + 1];
      prev := new int[NBUF + 1];
      bufs := new Buf[NBUF](_ => Buf(-1, 0, false, false, false, Block([])));
      new;
      assert forall k :: 0 <= k < |disk| ==> disk[k] == Logical()[k];
      LinkAll();
    }

    /** binit's loop: every buffer into the list. */
    method LinkAll()
      requires next.Length == prev.Length == NBUF + 1 && next != prev
      modifies next, prev, this`order
      ensures RingOk()
    {
      hide Linked;
      order := [];
      prev[HEAD] := HEAD;
      next[HEAD] := HEAD;
      OneNode(next[..], prev[..]);
      var b := 0;
      while b < NBUF
        invariant 0 <= b <= NBUF
        invariant |order| == b && Ring(next[..], prev[..], order)
        invariant forall k :: 0 <= k < |order| ==> order[k] < b
        invariant forall i :: 0 <= i < b ==> i in order
      {
        LinkFront(next[..], prev[..], order, b);
        LinkAfterHead(b);
        order := [b] + order;
        b := b + 1;
      }
    }

    /** The four pointer stores shared by binit and brelse. */
    method LinkAfterHead(b: int)
      requires next.Length == prev.Length == NBUF + 1 && next != prev
      requires 0 <= b < NBUF && 0 <= next[HEAD] <= NBUF
      modifies next, prev
      ensures next[..] == old(next[..])[b := old(next[HEAD])][HEAD := b]
      ensures prev[..] == old(prev[..])[b := HEAD][old(next[HEAD]) := b]
    {
      next[b] := next[HEAD];
      prev[b] := HEAD;
      prev[next[HEAD]] := b;
      next[HEAD] := b;
    }

    /** The buffer at distance k along the list, the head at the end. */
    ghost function At(k: nat): int
      reads this
      requires k <= |order|
    {
      if k < |order| then order[k] else HEAD
    }

    ghost predicate Stands(r: Got, dev: int, blockno: int, was: seq<Buf>)
      reads this, bufs
    {
      && |was| == bufs.Length == NBUF == |order|
      && match r
         case Hit(i) =>
           && 0 <= i < NBUF && Holds(was[i], dev, blockno) && !was[i].busy
           && bufs[..] == was[i := was[i].(busy := true)]
         case MustSleep(i) =>
           0 <= i < NBUF && Holds(was[i], dev, blockno) && was[i].busy && bufs[..] == was
         case Recycled(i) =>
           && 0 <= i < NBUF && !CachedBlock(was, dev, blockno) && !was[i].busy && !was[i].dirty
           && bufs[..] == was[i := Buf(dev, blockno, true, false, false, was[i].data)]
           && Oldest(was, i)
         case NoBuffers =>
           && !CachedBlock(was, dev, blockno) && bufs[..] == was
           && forall k :: 0 <= k < NBUF ==> was[k].busy || was[k].dirty
    }

    /** Every buffer less recently used than i was busy or pinned. */
    ghost predicate Oldest(was: seq<Buf>, i: int)
      reads this
      requires |was| == |order|
    {
      exists j :: 0 <= j < |order| && order[j] == i &&
        forall m :: j < m < |order| && 0 <= order[m] < |was| ==> was[order[m]].busy || was[order[m]].dirty
    }

    /** Walk from the most recently used buffer to the one for this block, or to the head. */
    method FindCached(dev: int, blockno: int) returns (b: int)
      requires Valid()
      ensures 0 <= b <= NBUF
      ensures b < NBUF ==> Holds(bufs[b], dev, blockno)
      ensures b == HEAD ==> !CachedBlock(bufs[..], dev, blockno)
    {
      b := next[HEAD];
      ghost var k := 0;
      Walk(0);
      while b != HEAD
        invariant 0 <= k <= NBUF && b == At(k)
        invariant forall m :: 0 <= m < k ==> !Holds(bufs[order[m]], dev, blockno)
        decreases NBUF - k
      {
        Walk(k);
        if bufs[b].dev == dev && bufs[b].blockno == blockno {
          return;
        }
        Walk(k + 1);
        b := next[b];
        k := k + 1;
      }
      forall i | 0 <= i < NBUF ensures !Holds(bufs[i], dev, blockno) {
        assert i in order;
      }
    }

    /** Walk from the least recently used buffer to one that may be recycled. */
    method FindVictim() returns (b: int)
      requires Valid()
      ensures 0 <= b <= NBUF
      ensures b < NBUF ==> !bufs[b].busy && !bufs[b].dirty && Oldest(bufs[..], b)
      ensures b == HEAD ==> forall i :: 0 <= i < NBUF ==> bufs[i].busy || bufs[i].dirty
    {
      b := prev[HEAD];
      ghost var k := NBUF;
      Walk(NBUF);
      while b != HEAD
        invariant 0 <= k <= NBUF && b == (if k > 0 then order[k-1] else HEAD)
        invariant forall m :: k <= m < NBUF ==> bufs[order[m]].busy || bufs[order[m]].dirty
        decreases k
      {
        Walk(k - 1);
        if !bufs[b].busy && !bufs[b].dirty {
          assert order[k-1] == b;
          return;
        }
        b := prev[b];
        k := k - 1;
      }
      forall i | 0 <= i < NBUF ensures bufs[i].busy || bufs[i].dirty {
        assert i in order;
      }
    }

    /** Find the buffer of a block, or take over the least recently used buffer that
        is neither busy nor waiting for its commit. */
    method Bget(dev: int, blockno: int) returns (r: Got)
      requires Valid() && dev >= 0
      modifies bufs
      ensures Valid() && Stands(r, dev, blockno, old(bufs[..]))
    {
      ghost var was := bufs[..];
      var b := FindCached(dev, blockno);
      if b != HEAD {
        if !bufs[b].busy {
          Touch(was, disk, Logical(), b, was[b].(busy := true));
          bufs[b] := bufs[b].(busy := true);
          assert bufs[..] == was[b := was[b].(busy := true)];
          return Hit(b);
        }
        return MustSleep(b);
      }
      b := FindVictim();
      if b != HEAD {
        Recycle(was, disk, Logical(), b, dev, blockno);
        bufs[b] := Buf(dev, blockno, true, false, false, bufs[b].data);
        assert bufs[..] == was[b := Buf(dev, blockno, true, false, false, was[b].data)];
        return Recycled(b);
      }
      return NoBuffers;
    }

    /** One link of the list, in both directions. */
    lemma Walk(k: nat)
      requires RingOk() && k <= NBUF
      ensures 0 <= At(k) <= NBUF && (k < NBUF ==> At(k) < NBUF)
      ensures next[if k == 0 then HEAD else order[k-1]] == At(k)
      ensures prev[At(k)] == if k == 0 then HEAD else order[k-1]
    {
      var c := [HEAD] + order;
      assert c[k] == if k == 0 then HEAD else order[k-1];
      if k < NBUF {
        assert c[k+1] == order[k];
        assert next[..][c[k]] == c[k+1];
      }
    }

    /** memide.c: bring a busy buffer and its disk block into agreement. */
    method Iderw(i: int) returns (panicked: bool)
      requires 0 <= i < bufs.Length
      modifies bufs, this`disk
      ensures var b := old(bufs[i]);
              && (panicked <==> !b.busy || (b.valid && !b.dirty) || b.dev != ROOTDEV || !(0 <= b.blockno < |old(disk)|))
              && (panicked ==> bufs[..] == old(bufs[..]) && disk == old(disk))
              && (!panicked && b.dirty ==>
                    && bufs[..] == old(bufs[..])[i := b.(dirty := false, valid := true)]
                    && disk == old(disk)[b.blockno := b.data])
              && (!panicked && !b.dirty ==>
                    && disk == old(disk)
                    && bufs[..] == old(bufs[..])[i := b.(data := old(disk)[b.blockno], valid := true)])
    {
      var b := bufs[i];
      if !b.busy || (b.valid && !b.dirty) {
        return true;
      }
      if b.dev != ROOTDEV || b.blockno < 0 || b.blockno >= |disk| {
        return true;
      }
      if b.dirty {
        disk := disk[b.blockno := b.data];
        bufs[i] := b.(dirty := false, valid := true);
      } else {
        bufs[i] := b.(data := disk[b.blockno], valid := true);
      }
      return false;
    }

    /** Return a busy buffer with the contents of a block: whatever was last logged
        or written there, no matter where the block has been in between. */
    method Bread(blockno: int) returns (r: Got, panicked: bool)
      requires Valid()
      modifies bufs, this`disk
      ensures disk == old(disk)
      ensures !panicked ==> Valid()
      ensures panicked <==> r.NoBuffers? || (!r.MustSleep? && !(0 <= blockno < |disk|))
      ensures r.NoBuffers? <==>
                !CachedBlock(old(bufs[..]), ROOTDEV, blockno) && forall k :: 0 <= k < NBUF ==> old(bufs[..])[k].busy || old(bufs[..])[k].dirty
      ensures r.MustSleep? ==>
                0 <= r.i < NBUF && Holds(old(bufs[..])[r.i], ROOTDEV, blockno) && old(bufs[..])[r.i].busy && bufs[..] == old(bufs[..])
      ensures r.Hit? ==> 0 <= r.i < NBUF && Holds(old(bufs[r.i]), ROOTDEV, blockno) && bufs[r.i].dirty == old(bufs[r.i]).dirty
      ensures r.Recycled? ==> 0 <= r.i < NBUF && !bufs[r.i].dirty && !CachedBlock(old(bufs[..]), ROOTDEV, blockno)
      ensures r.Hit? || r.Recycled? ==> !old(bufs[r.i]).busy
      ensures r.Hit? || r.Recycled? ==> forall k :: 0 <= k < NBUF && k != r.i ==> bufs[k] == old(bufs[k])
      ensures !panicked && !r.MustSleep? ==>
                && (r.Hit? || r.Recycled?) && 0 <= r.i < NBUF
                && Holds(bufs[r.i], ROOTDEV, blockno) && bufs[r.i].busy && bufs[r.i].valid
                && 0 <= blockno < |disk| && bufs[r.i].data == Logical()[blockno]
      ensures r.Recycled? ==> 0 <= r.i < NBUF && !old(bufs[..])[r.i].busy && !old(bufs[..])[r.i].dirty
    {
      hide Coherent, Oldest, CachedBlock;
      panicked := false;
      r := Bget(ROOTDEV, blockno);
      BreadFinds(old(bufs[..]), r, blockno);
      if r.NoBuffers? {
        panicked := true;
      } else if !r.MustSleep? {
        if !bufs[r.i].valid {
          ghost var was := bufs[..];
          CoherentAt(was, disk, Logical(), r.i);
          if 0 <= blockno < |disk| {
            Touch(was, disk, Logical(), r.i, was[r.i].(valid := true, data := disk[blockno]));
          }
          panicked := Iderw(r.i);
        } else {
          CoherentAt(old(bufs[..]), disk, Logical(), r.i);
        }
      }
    }

    lemma BreadFinds(was: seq<Buf>, r: Got, blockno: int)
      requires Stands(r, ROOTDEV, blockno, was)
      ensures r.NoBuffers? <==> !CachedBlock(was, ROOTDEV, blockno) && forall k :: 0 <= k < NBUF ==> was[k].busy || was[k].dirty
    {
    }

    /** The holder of a busy buffer changes its contents. */
    method SetData(i: int, x: Block)
      requires Valid() && 0 <= i < NBUF && bufs[i].busy
      modifies bufs
      ensures Valid() && bufs[..] == old(bufs[..])[i := old(bufs[i]).(data := x)]
    {
      assert BufOk(bufs[..][i], disk, Logical());
      Touch(bufs[..], disk, Logical(), i, bufs[i].(data := x));
      bufs[i] := bufs[i].(data := x);
      assert bufs[..] == old(bufs[..])[i := old(bufs[i]).(data := x)];
    }

    /** Write a busy buffer through to the disk. */
    method Bwrite(i: int) returns (panicked: bool)
      requires Valid() && 0 <= i < NBUF
      modifies bufs, this`disk, this`history
      ensures var b := old(bufs[i]);
              && (panicked <==> !b.busy || b.dev != ROOTDEV || !(0 <= b.blockno < |old(disk)|))
              && (!panicked ==>
                    && Valid()
                    && bufs[..] == old(bufs[..])[i := b.(valid := true, dirty := false)]
                    && disk == old(disk)[b.blockno := b.data]
                    && Logical() == old(Logical())[b.blockno := b.data])
    {
      if !bufs[i].busy {
        return true;
      }
      ghost var was, b := bufs[..], bufs[i];
      bufs[i] := bufs[i].(dirty := true);
      panicked := Iderw(i);
      if !panicked {
        Store(was, old(disk), Logical(), i, true);
        ApplySnoc(disk0, history, Write(b.blockno, b.data));
        history := history + [Write(b.blockno, b.data)];
        assert bufs[..] == was[i := b.(valid := true, dirty := false)];
      }
    }

    /** What log_write does to a buffer: the new contents count from now on, and the
        buffer is pinned until the commit writes it. */
    method MarkLogged(i: int)
      requires Valid() && 0 <= i < NBUF
      requires bufs[i].busy && bufs[i].dev == ROOTDEV && 0 <= bufs[i].blockno < |disk| && bufs[i].valid
      modifies bufs, this`history
      ensures Valid() && bufs[..] == old(bufs[..])[i := old(bufs[i]).(dirty := true)]
      ensures Logical() == old(Logical())[bufs[i].blockno := bufs[i].data]
    {
      ghost var was, b := bufs[..], bufs[i];
      Store(was, disk, Logical(), i, false);
      ApplySnoc(disk0, history, Write(b.blockno, b.data));
      history := history + [Write(b.blockno, b.data)];
      bufs[i] := bufs[i].(dirty := true);
      assert bufs[..] == was[i := b.(valid := true, dirty := true)];
    }

    /** Release a busy buffer and move it to the front of the list.  A holder that
        changed the contents has logged or written them. */
    method Brelse(i: int) returns (panicked: bool)
      requires Valid() && 0 <= i < NBUF
      requires bufs[i].dev == ROOTDEV && bufs[i].valid ==> bufs[i].data == Logical()[bufs[i].blockno]
      modifies bufs, next, prev, this`order
      ensures panicked <==> !old(bufs[i]).busy
      ensures !panicked ==>
                && Valid()
                && bufs[..] == old(bufs[..])[i := old(bufs[i]).(busy := false)]
                && order[0] == i
                && exists j :: 0 <= j < |old(order)| && old(order)[j] == i && order == [i] + Without(old(order), j)
    {
      hide Ring, Without, Apply, Unique;
      if !bufs[i].busy {
        return true;
      }
      assert i in order;
      ghost var j :| 0 <= j < |order| && order[j] == i;
      ghost var rest := Without(order, j);
      Unlink(next[..], prev[..], order, j);
      UnlinkNode(i);
      LinkFront(next[..], prev[..], rest, i);
      LinkAfterHead(i);
      order := [i] + rest;
      assert forall k :: 0 <= k < NBUF ==> k in order by {
        forall k | 0 <= k < NBUF && k != i ensures k in rest {
          StillThere(old(order), j, k);
        }
      }
      assert BufOk(bufs[..][i], disk, Logical());
      Touch(bufs[..], disk, Logical(), i, bufs[i].(busy := false));
      bufs[i] := bufs[i].(busy := false);
      assert bufs[..] == old(bufs[..])[i := old(bufs[i]).(busy := false)];
      return false;
    }

    method UnlinkNode(b: int)
      requires next.Length == prev.Length == NBUF + 1 && next != prev && 0 <= b < NBUF
      requires 0 <= next[b] <= NBUF && 0 <= prev[b] <= NBUF && next[b] != b
      modifies next, prev
      ensures next[..] == old(next[..])[old(prev[b]) := old(next[b])]
      ensures prev[..] == old(prev[..])[old(next[b]) := old(prev[b])]
    {
      prev[next[b]] := prev[b];
      next[prev[b]] := next[b];
    }
  }

  lemma StillThere(order: seq<int>, j: nat, k: int)
    requires j < |order| && k in order && k != order[j]
    ensures k in Without(order, j)
  {
    var m :| 0 <= m < |order| && order[m] == k;
    var rest := Without(order, j);
    assert m < j ==> rest[m] == k;
    assert m > j ==> rest[m-1] == k;
  }
}
