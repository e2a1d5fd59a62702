/** The log over the buffer cache.  The log keeps only the blocks it has pinned; the
    cache keeps NBUF buffers and recycles them.  Over every run of either, the disk the
    log shows its clients and the disk the cache shows its readers are the same. */
module LogCache {
  import opened Blocks
  import opened LogSpec
  import opened Bio
  import Log

  /** The cache, its disk, what reads must return, and the blocks the log has pinned. */
  datatype State = State(bufs: seq<Buf>, disk: Disk, logical: Disk, pinned: map<int, Block>)

  predicate DirtyFor(b: Buf, k: int) { Holds(b, ROOTDEV, k) && b.dirty }

  ghost predicate DirtyBlock(bufs: seq<Buf>, k: int) {
    exists i :: 0 <= i < |bufs| && DirtyFor(bufs[i], k)
  }

  /** The pinned blocks are the dirty ones, with the contents that were logged. */
  ghost predicate Pins(s: State) {
    && (forall k :: k in s.pinned <==> DirtyBlock(s.bufs, k))
    && (forall k :: k in s.pinned ==> 0 <= k < |s.logical| && s.pinned[k] == s.logical[k])
  }

  ghost predicate Ok(s: State) { Coherent(s.bufs, s.disk, s.logical) && Pins(s) }

  /** Held: the holder of a buffer fills, changes or releases it.  Taken: bget gives a
      buffer to another block.  Logged: log_write.  Written: bwrite. */
  datatype Step = Held(i: nat, b: Buf) | Taken(i: nat, dev: int, blockno: int) | Logged(i: nat) | Written(i: nat)

  ghost predicate StepOk(s: State, e: Step) {
    && |s.disk| == |s.logical| && e.i < |s.bufs|
    && var was := s.bufs[e.i];
       match e
       case Held(_, b) => Holds(b, was.dev, was.blockno) && b.dirty == was.dirty && BufOk(b, s.disk, s.logical)
       case Taken(_, dev, blockno) => !was.busy && !was.dirty && !CachedBlock(s.bufs, dev, blockno)
       case Logged(_) => was.busy && was.dev == ROOTDEV && 0 <= was.blockno < |s.disk| && was.valid
       case Written(_) => was.busy && was.dev == ROOTDEV && 0 <= was.blockno < |s.disk|
  }

  ghost function Do(s: State, e: Step): State
    requires StepOk(s, e)
  {
    var was := s.bufs[e.i];
    match e
    case Held(i, b) => s.(bufs := s.bufs[i := b])
    case Taken(i, dev, blockno) => s.(bufs := s.bufs[i := Buf(dev, blockno, true, false, false, was.data)])
    case Logged(i) =>
      State(s.bufs[i := was.(valid := true, dirty := true)], s.disk,
            s.logical[was.blockno := was.data], s.pinned[was.blockno := was.data])
    case Written(i) =>
      State(s.bufs[i := was.(valid := true, dirty := false)], s.disk[was.blockno := was.data],
            s.logical[was.blockno := was.data], s.pinned - {was.blockno})
  }

  /** A pinned block's buffer is the only one for it, and only that buffer unpins it. */
  lemma DirtyAfter(bufs: seq<Buf>, i: nat, b: Buf, k: int)
    requires i < |bufs| && Unique(bufs)
    ensures DirtyFor(b, k) ==> DirtyBlock(bufs[i := b], k)
    ensures !DirtyFor(b, k) && Holds(bufs[i], ROOTDEV, k) ==> !DirtyBlock(bufs[i := b], k)
    ensures !DirtyFor(b, k) && !DirtyFor(bufs[i], k) ==> (DirtyBlock(bufs[i := b], k) <==> DirtyBlock(bufs, k))
  {
    var after := bufs[i := b];
    assert DirtyFor(b, k) ==> DirtyFor(after[i], k);
    forall j | 0 <= j < |bufs| && j != i
      ensures DirtyFor(after[j], k) <==> DirtyFor(bufs[j], k)
      ensures Holds(bufs[i], ROOTDEV, k) ==> !DirtyFor(bufs[j], k)
    {
      assert i < j && bufs[i].dev >= 0 ==> !Holds(bufs[j], bufs[i].dev, bufs[i].blockno);
      assert j < i && bufs[j].dev >= 0 ==> !Holds(bufs[i], bufs[j].dev, bufs[j].blockno);
    }
  }

  lemma StepKeeps(s: State, e: Step)
    requires Ok(s) && StepOk(s, e)
    ensures Ok(Do(s, e))
  {
    hide Coherent, DirtyBlock;
    var s' := Do(s, e);
    StepCoherent(s, e);
    forall k ensures (k in s'.pinned <==> DirtyBlock(s'.bufs, k)) && (k in s'.pinned ==> 0 <= k < |s'.logical| && s'.pinned[k] == s'.logical[k]) {
      StepPins(s, e, k);
    }
  }

  lemma StepCoherent(s: State, e: Step)
    requires Ok(s) && StepOk(s, e)
    ensures Coherent(Do(s, e).bufs, Do(s, e).disk, Do(s, e).logical)
  {
    hide Coherent, DirtyBlock, Pins, CachedBlock;
    match e
    case Held(i, b) => Touch(s.bufs, s.disk, s.logical, i, b);
    case Taken(i, dev, blockno) => Recycle(s.bufs, s.disk, s.logical, i, dev, blockno);
    case Logged(i) => Store(s.bufs, s.disk, s.logical, i, false);
    case Written(i) => Store(s.bufs, s.disk, s.logical, i, true);
  }

  lemma StepPins(s: State, e: Step, k: int)
    requires Ok(s) && StepOk(s, e)
    ensures var s' := Do(s, e);
            && (k in s'.pinned <==> DirtyBlock(s'.bufs, k))
            && (k in s'.pinned ==> 0 <= k < |s'.logical| && s'.pinned[k] == s'.logical[k])
  {
    hide BufOk;
    assert Unique(s.bufs);
    DirtyAfter(s.bufs, e.i, Do(s, e).bufs[e.i], k);
    if DirtyFor(s.bufs[e.i], k) {
      assert DirtyBlock(s.bufs, k);
    }
  }

  ghost predicate Runs(s: State, es: seq<Step>)
    decreases |es|
  {
    es == [] || (StepOk(s, es[0]) && Runs(Do(s, es[0]), es[1..]))
  }

  ghost function After(s: State, es: seq<Step>): State
    requires Runs(s, es)
    decreases |es|
  {
    if es == [] then s else After(Do(s, es[0]), es[1..])
  }

  lemma {:induction false} RunKeeps(s: State, es: seq<Step>)
    requires Ok(s) && Runs(s, es)
    ensures Ok(After(s, es))
    decreases |es|
  {
    hide Ok, StepOk, Do;
    if es != [] {
      StepKeeps(s, es[0]);
      RunKeeps(Do(s, es[0]), es[1..]);
    }
  }

  /** The log's view of a coherent cache is what the cache's readers get. */
  lemma ViewIsLogical(s: State)
    requires Ok(s)
    ensures Log.Seen(s.pinned, s.disk) == s.logical
  {
    forall k | 0 <= k < |s.disk| ensures Log.Seen(s.pinned, s.disk)[k] == s.logical[k] {
      if k !in s.pinned && CachedBlock(s.bufs, ROOTDEV, k) {
        var i :| 0 <= i < |s.bufs| && Holds(s.bufs[i], ROOTDEV, k);
        assert BufOk(s.bufs[i], s.disk, s.logical);
        assert DirtyFor(s.bufs[i], k) ==> DirtyBlock(s.bufs, k);
      }
    }
  }

  /** binit's cache with nothing pinned. */
  lemma FreshOk(bufs: seq<Buf>, d: Disk)
    requires forall i :: 0 <= i < |bufs| ==> bufs[i].dev < 0 && !bufs[i].valid && !bufs[i].dirty
    ensures Ok(State(bufs, d, d, map[]))
  {
  }

  /** Over every run of the cache's operations the two views stay the same, and the
      buffer of a pinned block is in the cache. */
  lemma ViewsAgree(s: State, es: seq<Step>)
    requires Ok(s) && Runs(s, es)
    ensures var t := After(s, es);
            && Log.Seen(t.pinned, t.disk) == t.logical
            && forall k :: k in t.pinned ==> CachedBlock(t.bufs, ROOTDEV, k)
  {
    hide Runs, After;
    RunKeeps(s, es);
    var t := After(s, es);
    ViewIsLogical(t);
    forall k | k in t.pinned ensures CachedBlock(t.bufs, ROOTDEV, k) {
      var i :| 0 <= i < |t.bufs| && DirtyFor(t.bufs[i], k);
      assert Holds(t.bufs[i], ROOTDEV, k);
    }
  }
}
