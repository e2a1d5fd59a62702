/** commit over the buffer cache itself: the blocks it reads and writes go through bread,
    bwrite and brelse, so it also needs buffers. */
module LogBuffers {
  import opened Params
  import opened Seqs
  import opened Blocks
  import opened LogSpec
  import opened Bio
  import opened LogCache
  import Log

  // ---------- buffers ----------

  /** The dirty buffers are those of the blocks in `pins`. */
  ghost predicate PinnedAre(bufs: seq<Buf>, pins: set<int>) {
    && (forall i :: 0 <= i < |bufs| && bufs[i].dirty ==> bufs[i].dev == ROOTDEV && bufs[i].blockno in pins)
    && (forall b :: b in pins ==> DirtyBlock(bufs, b))
  }

  ghost predicate BusyAre(bufs: seq<Buf>, held: set<int>) {
    forall i :: 0 <= i < |bufs| ==> (bufs[i].busy <==> i in held)
  }

  predicate NoneLeft(bufs: seq<Buf>) {
    forall i :: 0 <= i < |bufs| ==> bufs[i].busy || bufs[i].dirty
  }

  /** The blocks of the dirty buffers among the first n. */
  function DirtyNos(bufs: seq<Buf>, n: nat): (bs: set<int>)
    requires n <= |bufs|
  {
    set i | 0 <= i < n && bufs[i].dirty :: bufs[i].blockno
  }

  lemma TwoBuffers(bufs: seq<Buf>, i: nat, j: nat)
    requires Unique(bufs) && i < |bufs| && j < |bufs| && i != j && bufs[i].dev == ROOTDEV == bufs[j].dev
    ensures bufs[i].blockno != bufs[j].blockno
  {
    var lo, hi := if i < j then i else j, if i < j then j else i;
    assert !Holds(bufs[hi], bufs[lo].dev, bufs[lo].blockno);
  }

  lemma {:induction false} CountDirty(bufs: seq<Buf>, pins: set<int>, n: nat)
    requires Unique(bufs) && PinnedAre(bufs, pins) && n <= |bufs|
    ensures |DirtyNos(bufs, n)| <= n
    ensures |DirtyNos(bufs, n)| == n <==> forall i :: 0 <= i < n ==> bufs[i].dirty
    decreases n
  {
    hide Unique, DirtyNos, DirtyBlock;
    if n == 0 {
      NoneDirty(bufs);
    } else {
      CountDirty(bufs, pins, n - 1);
      if bufs[n-1].dirty {
        forall i | 0 <= i < n - 1 && bufs[i].dirty ensures bufs[i].blockno != bufs[n-1].blockno {
          TwoBuffers(bufs, i, n - 1);
        }
      }
      DirtyStep(bufs, n);
    }
  }

  lemma NoneDirty(bufs: seq<Buf>)
    ensures DirtyNos(bufs, 0) == {}
  {
  }

  lemma DirtyStep(bufs: seq<Buf>, n: nat)
    requires 0 < n <= |bufs|
    requires bufs[n-1].dirty ==> forall i :: 0 <= i < n - 1 && bufs[i].dirty ==> bufs[i].blockno != bufs[n-1].blockno
    ensures |DirtyNos(bufs, n)| == |DirtyNos(bufs, n - 1)| + if bufs[n-1].dirty then 1 else 0
  {
    var b := bufs[n-1];
    if b.dirty {
      assert DirtyNos(bufs, n) == DirtyNos(bufs, n - 1) + {b.blockno};
    } else {
      assert DirtyNos(bufs, n) == DirtyNos(bufs, n - 1);
    }
  }

  /** With no buffer busy, none is left exactly when there are as many blocks pinned as
      there are buffers. */
  lemma NoneLeftIff(bufs: seq<Buf>, pins: set<int>)
    requires Unique(bufs) && PinnedAre(bufs, pins) && BusyAre(bufs, {})
    ensures |pins| <= |bufs| && (NoneLeft(bufs) <==> |pins| == |bufs|)
  {
    CountDirty(bufs, pins, |bufs|);
    forall b | b in pins ensures b in DirtyNos(bufs, |bufs|) {
      var i :| 0 <= i < |bufs| && DirtyFor(bufs[i], b);
    }
    assert DirtyNos(bufs, |bufs|) == pins;
  }

  /** One buffer is taken for block b: pinned blocks stay pinned. */
  lemma TakeKeeps(was: seq<Buf>, now: seq<Buf>, pins: set<int>, i: nat, b: int)
    requires PinnedAre(was, pins) && |now| == |was| && i < |was| && now == was[i := now[i]]
    requires Holds(now[i], ROOTDEV, b)
    requires (now[i].dirty == was[i].dirty && Holds(was[i], ROOTDEV, b)) || (!now[i].dirty && !was[i].dirty)
    ensures PinnedAre(now, pins)
  {
    forall c | c in pins ensures DirtyBlock(now, c) {
      var j :| 0 <= j < |was| && DirtyFor(was[j], c);
      assert DirtyFor(now[j], c);
    }
  }

  /** The buffer held for b is the dirty one exactly if b is pinned. */
  lemma OneBuffer(bufs: seq<Buf>, pins: set<int>, i: nat, b: int)
    requires Unique(bufs) && PinnedAre(bufs, pins) && i < |bufs| && Holds(bufs[i], ROOTDEV, b)
    ensures bufs[i].dirty <==> b in pins
  {
    hide Unique;
    if b in pins {
      var j :| 0 <= j < |bufs| && DirtyFor(bufs[j], b);
      if j != i {
        TwoBuffers(bufs, i, j);
      }
    }
  }

  lemma CoherentUnique(bufs: seq<Buf>, disk: Disk, logical: Disk)
    requires Coherent(bufs, disk, logical)
    ensures Unique(bufs) && |disk| == |logical|
  {
  }

  /** bread of a block nobody holds. */
  method Take(c: Bcache, b: int, ghost pins: set<int>, ghost held: set<int>) returns (panicked: bool, i: int)
    requires c.Valid() && PinnedAre(c.bufs[..], pins) && BusyAre(c.bufs[..], held) && 0 <= b < |c.disk|
    requires forall k :: k in held ==> 0 <= k < NBUF && !Holds(c.bufs[k], ROOTDEV, b)
    modifies c.bufs, c`disk
    ensures c.disk == old(c.disk)
    ensures panicked <==> !CachedBlock(old(c.bufs[..]), ROOTDEV, b) && NoneLeft(old(c.bufs[..]))
    ensures !panicked ==>
              && c.Valid() && PinnedAre(c.bufs[..], pins) && 0 <= i < NBUF && i !in held && BusyAre(c.bufs[..], held + {i})
              && Holds(c.bufs[i], ROOTDEV, b) && c.bufs[i].valid && c.bufs[i].data == c.Logical()[b]
              && (c.bufs[i].dirty <==> b in pins)
              && c.bufs[..] == old(c.bufs[..])[i := c.bufs[i]]
  {
    hide Coherent, Apply, Unique, CachedBlock;
    ghost var was := c.bufs[..];
    assert forall k :: 0 <= k < NBUF && Holds(was[k], ROOTDEV, b) ==> !was[k].busy;
    var r;
    r, panicked := c.Bread(b);
    if panicked {
      return true, 0;
    }
    i := r.i;
    assert c.bufs[..] == was[i := c.bufs[i]];
    TakeKeeps(was, c.bufs[..], pins, i, b);
    CoherentUnique(c.bufs[..], c.disk, c.Logical());
    OneBuffer(c.bufs[..], pins, i, b);
    return false, i;
  }

  lemma WriteKeeps(was: seq<Buf>, pins: set<int>, i: nat, x: Buf)
    requires Unique(was) && PinnedAre(was, pins) && i < |was| && was[i].dev == ROOTDEV
    requires Holds(x, ROOTDEV, was[i].blockno) && !x.dirty
    ensures PinnedAre(was[i := x], pins - {was[i].blockno})
  {
    hide Unique;
    var now, rest := was[i := x], pins - {was[i].blockno};
    forall k | 0 <= k < |now| && now[k].dirty ensures now[k].dev == ROOTDEV && now[k].blockno in rest {
      TwoBuffers(was, i, k);
    }
    forall b | b in rest ensures DirtyBlock(now, b) {
      var j :| 0 <= j < |was| && DirtyFor(was[j], b);
      assert DirtyFor(now[j], b);
    }
  }

  /** memmove into a held buffer, and bwrite. */
  method Put(c: Bcache, i: int, x: Block, ghost pins: set<int>, ghost held: set<int>)
    requires c.Valid() && PinnedAre(c.bufs[..], pins) && BusyAre(c.bufs[..], held) && i in held && 0 <= i < NBUF
    requires c.bufs[i].dev == ROOTDEV && 0 <= c.bufs[i].blockno < |c.disk|
    modifies c.bufs, c`disk, c`history
    ensures var b := old(c.bufs[i]).blockno;
            && c.Valid() && PinnedAre(c.bufs[..], pins - {b}) && BusyAre(c.bufs[..], held)
            && c.bufs[..] == old(c.bufs[..])[i := old(c.bufs[i]).(data := x, valid := true, dirty := false)]
            && c.disk == old(c.disk)[b := x] && c.Logical() == old(c.Logical())[b := x]
  {
    hide Coherent, Apply, Unique;
    ghost var was := c.bufs[..];
    assert c.bufs[i] == was[i];
    CoherentUnique(was, c.disk, c.Logical());
    c.SetData(i, x);
    var panicked := c.Bwrite(i);
    WriteKeeps(was, pins, i, was[i].(data := x, valid := true, dirty := false));
    assert c.bufs[..] == was[i := was[i].(data := x, valid := true, dirty := false)];
  }

  lemma DropKeeps(was: seq<Buf>, pins: set<int>, i: nat)
    requires PinnedAre(was, pins) && i < |was|
    ensures PinnedAre(was[i := was[i].(busy := false)], pins)
  {
    var now := was[i := was[i].(busy := false)];
    forall b | b in pins ensures DirtyBlock(now, b) {
      var j :| 0 <= j < |was| && DirtyFor(was[j], b);
      assert DirtyFor(now[j], b);
    }
  }

  /** brelse of a held buffer. */
  method Drop(c: Bcache, i: int, ghost pins: set<int>, ghost held: set<int>)
    requires c.Valid() && PinnedAre(c.bufs[..], pins) && BusyAre(c.bufs[..], held) && i in held && 0 <= i < NBUF
    requires c.bufs[i].dev == ROOTDEV && 0 <= c.bufs[i].blockno < |c.disk| == |c.Logical()|
    requires c.bufs[i].data == c.Logical()[c.bufs[i].blockno]
    modifies c.bufs, c.next, c.prev, c`order
    ensures c.Valid() && PinnedAre(c.bufs[..], pins) && BusyAre(c.bufs[..], held - {i})
    ensures c.bufs[..] == old(c.bufs[..])[i := old(c.bufs[i]).(busy := false)]
  {
    hide Coherent, Apply, Unique;
    ghost var was := c.bufs[..];
    assert c.bufs[i] == was[i];
    var panicked := c.Brelse(i);
    DropKeeps(was, pins, i);
  }

  // ---------- commit ----------

  /** Nobody holds a buffer, and the dirty ones are those of `pins`. */
  ghost predicate Resting(c: Bcache, pins: set<int>)
    reads c, c.next, c.prev, c.bufs
  {
    c.Valid() && PinnedAre(c.bufs[..], pins) && BusyAre(c.bufs[..], {})
  }

  /** A block that is not pinned is up to date on disk. */
  lemma CleanAgrees(bufs: seq<Buf>, disk: Disk, logical: Disk, pins: set<int>, k: nat)
    requires Coherent(bufs, disk, logical) && PinnedAre(bufs, pins) && k !in pins && k < |disk|
    ensures |disk| == |logical| && disk[k] == logical[k]
  {
    if CachedBlock(bufs, ROOTDEV, k) {
      var i :| 0 <= i < |bufs| && Holds(bufs[i], ROOTDEV, k);
      assert BufOk(bufs[i], disk, logical);
    }
  }

  /** When no buffer is left, every buffer is of a pinned block. */
  lemma OnlyPinned(bufs: seq<Buf>, pins: set<int>, b: int)
    requires PinnedAre(bufs, pins) && BusyAre(bufs, {}) && NoneLeft(bufs) && b !in pins
    ensures !CachedBlock(bufs, ROOTDEV, b)
  {
  }

  /** Take the buffer of a block that is not pinned. */
  method TakeClean(c: Bcache, b: int, ghost pins: set<int>) returns (panicked: bool, i: int)
    requires Resting(c, pins) && 0 <= b < |c.disk| && b !in pins
    modifies c.bufs, c`disk
    ensures c.disk == old(c.disk) && (panicked <==> |pins| == NBUF)
    ensures !panicked ==>
              && c.Valid() && PinnedAre(c.bufs[..], pins) && 0 <= i < NBUF && BusyAre(c.bufs[..], {i})
              && Holds(c.bufs[i], ROOTDEV, b) && c.bufs[i].valid && c.bufs[i].data == c.Logical()[b] == c.disk[b]
  {
    hide Coherent, Apply, Unique, PinnedAre, CachedBlock, NoneLeft;
    CoherentUnique(c.bufs[..], c.disk, c.Logical());
    CleanAgrees(c.bufs[..], c.disk, c.Logical(), pins, b);
    NoneLeftIff(c.bufs[..], pins);
    if |pins| == NBUF {
      OnlyPinned(c.bufs[..], pins, b);
    }
    panicked, i := Take(c, b, pins, {});
    assert {} + {i} == {i};
  }

  /** Take both blocks of a copy: the log block, then the pinned home block. */
  method TakeTwo(c: Bcache, lb: int, hb: int, ghost pins: set<int>) returns (panicked: bool, i: int, j: int)
    requires Resting(c, pins) && 0 <= lb < |c.disk| && lb !in pins && 0 <= hb < |c.disk| && hb in pins
    modifies c.bufs, c`disk
    ensures c.disk == old(c.disk) && (panicked <==> |pins| == NBUF)
    ensures !panicked ==>
              && c.Valid() && PinnedAre(c.bufs[..], pins) && 0 <= i < NBUF && 0 <= j < NBUF && i != j && BusyAre(c.bufs[..], {i, j})
              && Holds(c.bufs[i], ROOTDEV, lb) && c.bufs[i].valid && c.bufs[i].data == c.Logical()[lb] == c.disk[lb]
              && Holds(c.bufs[j], ROOTDEV, hb) && c.bufs[j].valid && c.bufs[j].data == c.Logical()[hb]
  {
    hide Coherent, Apply, Unique, DirtyBlock, CachedBlock, NoneLeft;
    j := 0;
    panicked, i := TakeClean(c, lb, pins);
    if !panicked {
      PinnedIsCached(c.bufs[..], pins, hb);
      panicked, j := Take(c, hb, pins, {i});
      assert {i} + {j} == {i, j};
    }
  }

  lemma PinnedIsCached(bufs: seq<Buf>, pins: set<int>, b: int)
    requires PinnedAre(bufs, pins) && b in pins
    ensures CachedBlock(bufs, ROOTDEV, b)
  {
    var i :| 0 <= i < |bufs| && DirtyFor(bufs[i], b);
    assert Holds(bufs[i], ROOTDEV, b);
  }

  /** One round of write_log. */
  method CopyToLog(c: Bcache, lb: int, hb: int, ghost pins: set<int>) returns (panicked: bool)
    requires Resting(c, pins) && 0 <= lb < |c.disk| && lb !in pins && 0 <= hb < |c.disk| && hb in pins
    modifies c, c.bufs, c.next, c.prev
    ensures panicked <==> |pins| == NBUF
    ensures !panicked ==>
              && Resting(c, pins) && |old(c.Logical())| == |old(c.disk)|
              && c.disk == old(c.disk)[lb := old(c.Logical())[hb]]
              && c.Logical() == old(c.Logical())[lb := old(c.Logical())[hb]]
  {
    hide Coherent, Apply, PinnedAre;
    CoherentUnique(c.bufs[..], c.disk, c.Logical());
    var to, from;
    panicked, to, from := TakeTwo(c, lb, hb, pins);
    if !panicked {
      Put(c, to, c.bufs[from].data, pins, {to, from});
      assert pins - {lb} == pins;
      Drop(c, from, pins, {to, from});
      assert {to, from} - {from} == {to};
      Drop(c, to, pins, {to});
      assert {to} - {to} == {};
    }
  }

  /** One round of install_trans. */
  method CopyHome(c: Bcache, lb: int, hb: int, ghost pins: set<int>) returns (panicked: bool)
    requires Resting(c, pins) && 0 <= lb < |c.disk| && lb !in pins && 0 <= hb < |c.disk| && hb in pins
    modifies c, c.bufs, c.next, c.prev
    ensures panicked <==> |pins| == NBUF
    ensures !panicked ==>
              && Resting(c, pins - {hb}) && |old(c.Logical())| == |old(c.disk)|
              && c.disk == old(c.disk)[hb := old(c.disk)[lb]]
              && c.Logical() == old(c.Logical())[hb := old(c.disk)[lb]]
  {
    hide Coherent, Apply, PinnedAre;
    CoherentUnique(c.bufs[..], c.disk, c.Logical());
    var lbuf, dbuf;
    panicked, lbuf, dbuf := TakeTwo(c, lb, hb, pins);
    if !panicked {
      Put(c, dbuf, c.bufs[lbuf].data, pins, {lbuf, dbuf});
      Drop(c, lbuf, pins - {hb}, {lbuf, dbuf});
      assert {lbuf, dbuf} - {lbuf} == {dbuf};
      Drop(c, dbuf, pins - {hb}, {dbuf});
      assert {dbuf} - {dbuf} == {};
    }
  }

  /** write_head: the list in the header block. */
  method WriteHeader(c: Bcache, start: int, h: seq<int>, ghost pins: set<int>) returns (panicked: bool)
    requires Resting(c, pins) && 0 <= start < |c.disk| && start !in pins && Whole(c.disk[start]) && Numbers(h)
    modifies c, c.bufs, c.next, c.prev
    ensures panicked <==> |pins| == NBUF
    ensures !panicked ==>
              && Resting(c, pins) && |old(c.Logical())| == |old(c.disk)|
              && c.disk == old(c.disk)[start := WriteHead(old(c.disk)[start], h)]
              && c.Logical() == old(c.Logical())[start := WriteHead(old(c.disk)[start], h)]
  {
    hide Coherent, Apply, PinnedAre, WriteHead, Word;
    CoherentUnique(c.bufs[..], c.disk, c.Logical());
    var i;
    panicked, i := TakeClean(c, start, pins);
    if !panicked {
      Put(c, i, WriteHead(c.bufs[i].data, h), pins, {i});
      assert pins - {start} == pins;
      Drop(c, i, pins, {i});
      assert {i} - {i} == {};
    }
  }

  lemma {:induction false} MembersCount(h: seq<int>)
    requires Distinct(h)
    ensures |Log.Members(h)| == |h|
    decreases |h|
  {
    if h != [] {
      var t := h[..|h|-1];
      MembersCount(t);
      assert h == t + [h[|h|-1]];
      assert Log.Members(h) == Log.Members(t) + {h[|h|-1]};
    } else {
      assert Log.Members(h) == {};
    }
  }

  /** The log region is apart from the listed blocks. */
  lemma LogApart(l: Layout, disksize: nat, h: seq<int>, k: int)
    requires GoodList(l, disksize, h) && l.start <= k < l.start + l.size
    ensures k !in Log.Members(h)
  {
  }

  lemma HomeStays(l: Layout, a: Disk, b: Disk, k: int, x: Block)
    requires HomeEqual(l, a, b) && 0 <= k < |a| && (Home(l, k) ==> x == b[k])
    ensures HomeEqual(l, a[k := x], b)
  {
  }

  lemma HomeSame(l: Layout, d: Disk)
    ensures HomeEqual(l, d, d)
  {
  }

  /** What a good list says of one block and its place in the log. */
  lemma ListAt(l: Layout, disksize: nat, h: seq<int>, tail: nat)
    requires GoodList(l, disksize, h) && tail < |h|
    ensures 0 <= h[tail] < disksize && Home(l, h[tail]) && !Home(l, l.start + tail + 1) && l.start + tail + 1 < disksize
  {
  }

  lemma ListRange(l: Layout, disksize: nat, h: seq<int>)
    requires GoodList(l, disksize, h)
    ensures Distinct(h) && Numbers(h) && |h| < l.size && l.start + l.size <= disksize
    ensures forall i :: 0 <= i < |h| ==> 0 <= h[i] < disksize
  {
  }

  lemma HomeAt(l: Layout, a: Disk, b: Disk, k: int)
    requires HomeEqual(l, a, b) && Home(l, k) && k < |a|
    ensures |b| == |a| && a[k] == b[k]
  {
  }

  lemma NothingWritten(l: Layout, d: Disk)
    requires l.start < |d| && Whole(d[l.start])
    ensures CommitWrites(l, d, [], []) == [] && Apply(d, []) == d && HomeEqual(l, d, d)
  {
  }

  /** write_log: there is a buffer for every copy exactly if some buffer is not pinned. */
  method WriteLog(c: Bcache, l: Layout, h: seq<int>) returns (panicked: bool)
    requires Resting(c, Log.Members(h)) && GoodList(l, |c.disk|, h) && |c.Logical()| == |c.disk|
    modifies c, c.bufs, c.next, c.prev
    ensures panicked <==> |h| == NBUF
    ensures !panicked ==>
              && Resting(c, Log.Members(h)) && |c.disk| == |old(c.disk)|
              && InRange(old(c.disk), CopyWrites(l, Pick(old(c.Logical()), h)))
              && c.disk == Apply(old(c.disk), CopyWrites(l, Pick(old(c.Logical()), h)))
              && HomeEqual(l, c.Logical(), old(c.Logical()))
  {
    hide Apply, CopyWrites, Log.Members, PinnedAre, BusyAre, Coherent, Ring, GoodList, HomeEqual, Distinct;
    ListRange(l, |c.disk|, h);
    HomeSame(l, c.Logical());
    ghost var d, logical, pins := c.disk, c.Logical(), Log.Members(h);
    ghost var vals := Pick(logical, h);
    ghost var ws := CopyWrites(l, vals);
    MembersCount(h);
    Log.CopyBegins(l, d, vals);
    for tail := 0 to |h|
      invariant InRange(d, ws) && Resting(c, pins) && |c.disk| == |d|
      invariant c.disk == Apply(d, ws[..tail]) && HomeEqual(l, c.Logical(), logical)
      invariant tail > 0 ==> |h| != NBUF
    {
      CopyRound(l, d, vals, tail);
      LogApart(l, |d|, h, l.start + 1 + tail);
      IsMember(h, tail);
      ListAt(l, |d|, h, tail);
      ghost var was := c.Logical();
      HomeAt(l, was, logical, h[tail]);
      panicked := CopyToLog(c, l.start + tail + 1, h[tail], pins);
      if panicked {
        return;
      }
      HomeStays(l, was, logical, l.start + tail + 1, was[h[tail]]);
    }
    assert ws[..|h|] == ws;
    panicked := false;
  }

  lemma CopyRound(l: Layout, d: Disk, vals: seq<Block>, tail: nat)
    requires tail < |vals| < l.size && l.start + l.size <= |d|
    ensures var ws := CopyWrites(l, vals);
            InRange(d, ws) && Apply(d, ws[..tail+1]) == Apply(d, ws[..tail])[l.start + tail + 1 := vals[tail]]
  {
    Log.CopyBegins(l, d, vals);
    ApplyPrefixStep(d, CopyWrites(l, vals), tail);
  }

  lemma IsMember(h: seq<int>, i: nat)
    requires i < |h|
    ensures h[i] in Log.Members(h)
  {
  }

  /** The blocks still pinned after `tail` rounds of install_trans. */
  lemma RestPinned(h: seq<int>, tail: nat)
    requires Distinct(h) && tail < |h|
    ensures h[tail] in Log.Members(h[tail..])
    ensures Log.Members(h[tail..]) - {h[tail]} == Log.Members(h[tail+1..])
    ensures |Log.Members(h[tail..])| == |h| - tail
  {
    assert Distinct(h[tail..]);
    MembersCount(h[tail..]);
    assert h[tail..][0] == h[tail];
    assert forall b :: b in h[tail..] <==> b == h[tail] || b in h[tail+1..];
    var rest := h[tail+1..];
    forall j | 0 <= j < |rest| ensures rest[j] != h[tail] {
      assert h[tail+1+j] != h[tail];
    }
  }

  lemma RestApart(l: Layout, disksize: nat, h: seq<int>, tail: nat, k: int)
    requires GoodList(l, disksize, h) && tail <= |h| && l.start <= k < l.start + l.size
    ensures k !in Log.Members(h[tail..])
  {
    assert forall b :: b in h[tail..] ==> b in h;
  }

  /** install_trans, with fewer blocks pinned than there are buffers: every listed block
      comes home and is clean. */
  method InstallTrans(c: Bcache, l: Layout, h: seq<int>, ghost logical: Disk)
    requires Resting(c, Log.Members(h)) && GoodList(l, |c.disk|, h) && |h| < NBUF
    requires |c.Logical()| == |logical| == |c.disk| && HomeEqual(l, c.Logical(), logical)
    requires Copies(l, c.disk, |h|) == Pick(logical, h)
    modifies c, c.bufs, c.next, c.prev
    ensures Resting(c, {}) && HomeEqual(l, c.Logical(), logical)
    ensures c.disk == Installed(old(c.disk), h, Pick(logical, h))
  {
    hide Apply, HomeWrites, Log.Members, PinnedAre, BusyAre, Coherent, Ring, Copies, Installed;
    ghost var d, vals := c.disk, Pick(logical, h);
    ghost var ws := HomeWrites(h, vals);
    Log.InstallBegins(l, d, h);
    assert h[0..] == h;
    for tail := 0 to |h|
      invariant InRange(d, ws) && Resting(c, Log.Members(h[tail..])) && |c.disk| == |d|
      invariant c.disk == Apply(d, ws[..tail]) && HomeEqual(l, c.Logical(), logical)
    {
      ghost var pins := Log.Members(h[tail..]);
      Log.InstallReads(l, d, h, tail);
      Log.InstallStep(d, h, vals, tail);
      RestPinned(h, tail);
      RestApart(l, |d|, h, tail, l.start + tail + 1);
      ghost var was := c.Logical();
      var panicked := CopyHome(c, l.start + tail + 1, h[tail], pins);
      HomeStays(l, was, logical, h[tail], vals[tail]);
    }
    assert h[|h|..] == [] && ws[..|h|] == ws;
    NoMembers();
  }

  lemma NoMembers()
    ensures Log.Members([]) == {}
  {
  }

  lemma FitsBuffers(c: Bcache, h: seq<int>)
    requires Resting(c, Log.Members(h)) && Distinct(h)
    ensures |h| <= NBUF
  {
    hide Coherent, Unique, PinnedAre;
    CoherentUnique(c.bufs[..], c.disk, c.Logical());
    NoneLeftIff(c.bufs[..], Log.Members(h));
    MembersCount(h);
  }

  /** The commit proper: the copies, then the header. */
  method WriteTransaction(c: Bcache, l: Layout, h: seq<int>) returns (panicked: bool)
    requires Resting(c, Log.Members(h)) && Quiet(l, c.disk) && GoodList(l, |c.disk|, h) && |c.Logical()| == |c.disk|
    modifies c, c.bufs, c.next, c.prev
    ensures panicked <==> |h| == NBUF
    ensures !panicked ==>
              && Resting(c, Log.Members(h)) && HomeEqual(l, c.Logical(), old(c.Logical()))
              && |old(c.disk)| == |c.disk| && c.disk == CommitPoint(l, old(c.disk), h, Pick(old(c.Logical()), h))
  {
    hide Apply, CopyWrites, Log.Members, PinnedAre, BusyAre, Coherent, Ring, Copies, Installed, Quiet, WriteHead, Word, GoodList, HomeEqual, Distinct;
    ListRange(l, |c.disk|, h);
    ghost var d, logical, vals := c.disk, c.Logical(), Pick(c.Logical(), h);
    QuietHead(l, d);
    panicked := WriteLog(c, l, h);
    if panicked {
      return;
    }
    ghost var was := c.Logical();
    MembersCount(h);
    LogApart(l, |d|, h, l.start);
    Log.CommitPointReached(l, d, h, vals);
    panicked := WriteHeader(c, l.start, h, Log.Members(h));
    HomeStays(l, was, logical, l.start, WriteHead(d[l.start], h));
  }

  /** commit gets its buffers exactly if fewer blocks are listed than there are buffers;
      then its disk writes are those of LogSpec, nothing stays pinned, and readers of
      home blocks see what they saw. */
  method Commit(c: Bcache, l: Layout, h: seq<int>) returns (panicked: bool)
    requires Resting(c, Log.Members(h)) && Quiet(l, c.disk) && GoodList(l, |c.disk|, h) && |c.Logical()| == |c.disk|
    modifies c, c.bufs, c.next, c.prev
    ensures panicked <==> |h| == NBUF
    ensures !panicked ==>
              && Resting(c, {}) && HomeEqual(l, c.Logical(), old(c.Logical()))
              && InRange(old(c.disk), CommitWrites(l, old(c.disk), h, Pick(old(c.Logical()), h)))
              && c.disk == Apply(old(c.disk), CommitWrites(l, old(c.disk), h, Pick(old(c.Logical()), h)))
  {
    hide Apply, CopyWrites, HomeWrites, Log.Members, PinnedAre, BusyAre, Coherent, Ring, Copies, Installed, Quiet, CommitPoint, CommitWrites, WriteHead, Word, RecoversTo, GoodList, HomeEqual, Distinct;
    ListRange(l, |c.disk|, h);
    ghost var d, logical, vals := c.disk, c.Logical(), Pick(c.Logical(), h);
    QuietHead(l, d);
    CommitInRange(l, d, h, vals);
    if h == [] {
      NoMembers();
      NothingWritten(l, d);
      HomeSame(l, logical);
      return false;
    }
    panicked := WriteTransaction(c, l, h);
    if panicked {
      return;
    }
    FitsBuffers(c, h);
    Log.CommitPointReached(l, d, h, vals);
    InstallTrans(c, l, h, logical);
    Log.CommitDisk(l, d, h, vals);
    ghost var was, head := c.Logical(), c.disk[l.start];
    panicked := WriteHeader(c, l.start, [], {});
    HomeStays(l, was, logical, l.start, WriteHead(head, []));
  }
}
