/** User address spaces over whole runs of exec, fork, sbrk and exit. */
module Spaces {
  import opened VmSpec
  import opened VmOps
  import opened VmCopy

  /** User pages are mapped only from page 1 up to the size, and every page below the
      size has its table, mapped or not. */
  ghost predicate SpaceOk(m: Mem, d: int, sz: int) {
    && IsTable(m, d) && 0 < sz < KERNBASE
    && (forall v :: 0 <= v < KERNPAGE ==> WithinSize(m, d, sz, v))
    && (forall v :: 1 <= v < Pages(sz) ==> HasTable(m, d, v))
  }

  ghost predicate WithinSize(m: Mem, d: int, sz: int, v: int)
    requires IsTable(m, d) && 0 <= v < KERNPAGE && 0 <= sz
  {
    Lookup(m, d, v).Pte? ==> 1 <= v < Pages(sz)
  }

  lemma MappedHasTable(m: Mem, own: Owners, d: int, v: int)
    requires Inv(m, own) && IsDir(own, d) && IsTable(m, d) && 0 <= v < TOPPAGE && Lookup(m, d, v).Pte?
    ensures HasTable(m, d, v)
  {
    TableIsOwned(m, own, d, v);
  }

  /** A directory entry in use stays in use while its table keeps its owner. */
  lemma TableStays(m: Mem, own: Owners, m': Mem, own': Owners, d: int, v: int)
    requires Inv(m, own) && Inv(m', own') && IsDir(own, d) && IsDir(own', d) && IsTable(m, d) && 0 <= v < TOPPAGE
    requires HasTable(m, d, v)
    requires forall f :: f in own && own[f].Tab? && own[f].d == d ==> f in own' && own'[f] == own[f]
    ensures IsTable(m', d) && HasTable(m', d, v)
  {
    TableIsOwned(m, own, d, v);
    assert FrameOk(m', own', TableOf(m, d, v));
  }

  // ---------- the space an operation works on ----------

  lemma GrownSpace(m: Mem, own: Owners, m': Mem, own': Owners, d: int, sz: int, newsz: int)
    requires 0 <= sz <= newsz < KERNBASE && IsDir(own, d) && SpaceOk(m, d, sz)
    requires Grown(m, own, m', own', d, Pages(sz), Pages(newsz))
    ensures SpaceOk(m', d, newsz)
  {
    hide Inv, Lookup;
    var lo, hi := Pages(sz), Pages(newsz);
    StillDir(m, own, m', own', d, lo, hi, d);
    forall v | 0 <= v < KERNPAGE ensures WithinSize(m', d, newsz, v) {
      assert WithinSize(m, d, sz, v) && EntryGrown(m, m', own, d, lo, hi, d, v);
    }
    forall v | 1 <= v < hi ensures HasTable(m', d, v) {
      if v < lo {
        GrownKeepsTables(m, own, m', own', d, lo, hi, d);
        TableStays(m, own, m', own', d, v);
      } else {
        assert EntryGrown(m, m', own, d, lo, hi, d, v);
        MappedHasTable(m', own', d, v);
      }
    }
  }

  lemma GrownKeepsTables(m: Mem, own: Owners, m': Mem, own': Owners, d: int, lo: int, hi: int, e: int)
    requires Grown(m, own, m', own', d, lo, hi)
    ensures forall f :: f in own && own[f].Tab? && own[f].d == e ==> f in own' && own'[f] == own[f]
  {
    hide Inv, Lookup;
    forall f | f in own && own[f].Tab? && own[f].d == e ensures f in own' && own'[f] == own[f] {
      assert FrameGrown(m, m', own, own', d, lo, hi, f);
    }
  }

  /** Shrinking below the size unmaps everything above the new size: the first page
      unmapped has its table, so none is jumped over. */
  lemma ShrunkSpace(m: Mem, own: Owners, m': Mem, own': Owners, d: int, sz: int, newsz: int)
    requires 0 <= newsz < sz && SpaceOk(m, d, sz) && Shrunk(m, own, m', own', d, Pages(newsz), Pages(sz))
    ensures newsz > 0 ==> SpaceOk(m', d, newsz)
    ensures newsz == 0 ==> SpaceOk(m', d, sz)
  {
    hide Inv, Lookup, Skipped;
    var lo, hi := Pages(newsz), Pages(sz);
    var size := if newsz > 0 then newsz else sz;
    StillDirShrunk(m, own, m', own', d, lo, hi, d);
    assert 0 < lo < hi ==> HasTable(m, d, lo);
    forall v | 0 <= v < KERNPAGE ensures WithinSize(m', d, size, v) {
      assert WithinSize(m, d, sz, v) && EntryShrunk(m, m', d, lo, hi, d, v);
      if lo < hi {
        AlignedSkipsNothing(m.tabs[d], lo, v);
      }
    }
    forall v | 1 <= v < Pages(size) ensures HasTable(m', d, v) {
      assert HasTable(m, d, v);
    }
  }

  /** In such a space deallocuvm jumps over nothing that is mapped: the range is emptied. */
  lemma ShrinkEmpties(m: Mem, own: Owners, m': Mem, own': Owners, d: int, sz: int, newsz: int)
    requires 0 <= newsz < sz && SpaceOk(m, d, sz) && Shrunk(m, own, m', own', d, Pages(newsz), Pages(sz))
    ensures forall v :: Pages(newsz) <= v < Pages(sz) && v < KERNPAGE ==> Lookup(m', d, v) == Absent
  {
    hide Inv, Lookup, Skipped;
    var lo, hi := Pages(newsz), Pages(sz);
    assert 0 < lo < hi ==> HasTable(m, d, lo);
    forall v | lo <= v < hi && v < KERNPAGE ensures Lookup(m', d, v) == Absent {
      assert EntryShrunk(m, m', d, lo, hi, d, v);
      AlignedSkipsNothing(m.tabs[d], lo, v);
    }
  }

  lemma CopiedSpace(m: Mem, own: Owners, m': Mem, own': Owners, s: int, d: int, sz: int)
    requires Copied(m, own, m', own', s, d, if sz > PGSIZE then Pages(sz) else 1) && 0 < sz < KERNBASE
    ensures SpaceOk(m', d, sz)
  {
    hide Inv, Lookup, CopyPage;
    var hi := if sz > PGSIZE then Pages(sz) else 1;
    forall v | 0 <= v < KERNPAGE ensures WithinSize(m', d, sz, v) {
      assert ChildEntry(m', s, d, hi, v);
    }
    forall v | 1 <= v < Pages(sz) ensures HasTable(m', d, v) {
      assert ChildEntry(m', s, d, hi, v);
      CopyIsMapped(m', s, d, v);
      MappedHasTable(m', own', d, v);
    }
  }

  lemma CopyIsMapped(m: Mem, s: int, d: int, v: int)
    requires IsTable(m, s) && IsTable(m, d) && 0 <= v < TOPPAGE && CopyPage(m, s, d, v)
    ensures Lookup(m, d, v).Pte?
  {
  }

  lemma NewSpace(m: Mem, own: Owners, d: int)
    requires Inv(m, own) && IsDir(own, d) && IsTable(m, d) && ClearFrom(m, d, 0)
    ensures SpaceOk(m, d, PGSIZE)
  {
  }

  lemma SpaceIsClear(m: Mem, d: int, sz: int)
    requires SpaceOk(m, d, sz)
    ensures ClearFrom(m, d, Pages(sz))
  {
    forall v | Pages(sz) <= v < KERNPAGE ensures Lookup(m, d, v) == Absent {
      assert WithinSize(m, d, sz, v);
    }
  }

  // ---------- the other spaces ----------

  ghost predicate SameSpace(m: Mem, own: Owners, m': Mem, own': Owners, e: int) {
    && Inv(m, own) && Inv(m', own') && IsDir(own, e) && IsDir(own', e) && IsTable(m, e) && IsTable(m', e)
    && (forall v :: 0 <= v < TOPPAGE ==> SameEntry(m, m', e, v))
    && (forall f :: f in own && own[f].Tab? && own[f].d == e ==> f in own' && own'[f] == own[f])
  }

  lemma SameSpaceOk(m: Mem, own: Owners, m': Mem, own': Owners, e: int, sz: int)
    requires SameSpace(m, own, m', own', e) && SpaceOk(m, e, sz)
    ensures SpaceOk(m', e, sz)
  {
    hide Inv, Lookup;
    forall v | 0 <= v < KERNPAGE ensures WithinSize(m', e, sz, v) {
      assert WithinSize(m, e, sz, v) && SameEntry(m, m', e, v);
    }
    forall v | 1 <= v < Pages(sz) ensures HasTable(m', e, v) {
      TableStays(m, own, m', own', e, v);
    }
  }

  lemma GrownOther(m: Mem, own: Owners, m': Mem, own': Owners, d: int, lo: int, hi: int, e: int)
    requires Grown(m, own, m', own', d, lo, hi) && IsDir(own, e) && e != d
    ensures SameSpace(m, own, m', own', e)
  {
    hide Inv, Lookup;
    StillDir(m, own, m', own', d, lo, hi, e);
    GrownKeepsTables(m, own, m', own', d, lo, hi, e);
    forall v | 0 <= v < TOPPAGE ensures SameEntry(m, m', e, v) {
      assert EntryGrown(m, m', own, d, lo, hi, e, v);
    }
  }

  lemma ShrunkOther(m: Mem, own: Owners, m': Mem, own': Owners, d: int, lo: int, hi: int, e: int)
    requires Shrunk(m, own, m', own', d, lo, hi) && IsDir(own, e) && e != d
    ensures SameSpace(m, own, m', own', e)
  {
    hide Inv, Lookup, Gone;
    StillDirShrunk(m, own, m', own', d, lo, hi, e);
    forall v | 0 <= v < TOPPAGE ensures SameEntry(m, m', e, v) {
      assert EntryShrunk(m, m', d, lo, hi, e, v);
    }
    forall f | f in own && own[f].Tab? && own[f].d == e ensures f in own' && own'[f] == own[f] {
      assert FrameShrunk(m, m', own, own', d, lo, hi, f);
    }
  }

  lemma BuiltOther(m: Mem, own: Owners, m': Mem, own': Owners, d: int, hi: int, e: int)
    requires Built(m, own, m', own', d, hi) && IsDir(own, e)
    ensures SameSpace(m, own, m', own', e) && e != d
  {
    hide Inv, Lookup;
    forall v | 0 <= v < TOPPAGE ensures SameEntry(m, m', e, v) {
      assert IsDir(own, e) && IsTable(m, e) && IsTable(m', e);
    }
    forall f | f in own && own[f].Tab? && own[f].d == e ensures f in own' && own'[f] == own[f] {
      assert FrameBuilt(m, m', own, own', d, hi, f);
    }
  }

  lemma FreedOther(m: Mem, own: Owners, m': Mem, own': Owners, d: int, e: int)
    requires FreedSpace(m, own, m', own', d) && IsDir(own, d) && IsDir(own, e) && e != d
    ensures SameSpace(m, own, m', own', e)
  {
    hide Inv, Lookup;
    assert own'[e] == Dir;
    forall f | f in own && own[f].Tab? && own[f].d == e ensures f in own' && own'[f] == own[f] {
      assert f != d;
    }
    DirIsTable(m, own, e);
    DirIsTable(m', own', e);
    forall v | 0 <= v < TOPPAGE ensures SameEntry(m, m', e, v) {
      assert IsDir(own', e) && IsTable(m, e) && IsTable(m', e);
    }
  }

  // ---------- new spaces ----------

  /** A new directory that then grew. */
  lemma BuiltGrown(m: Mem, own: Owners, m1: Mem, own1: Owners, m2: Mem, own2: Owners, d: int, lo: int, hi: int)
    requires Built(m, own, m1, own1, d, lo) && Grown(m1, own1, m2, own2, d, lo, hi) && 1 <= lo <= hi
    ensures Built(m, own, m2, own2, d, hi)
  {
    hide Inv, Lookup;
    StillDir(m1, own1, m2, own2, d, lo, hi, d);
    forall f | f in own ensures FrameBuilt(m, m2, own, own2, d, hi, f) {
      assert FrameBuilt(m, m1, own, own1, d, lo, f) && FrameGrown(m1, m2, own1, own2, d, lo, hi, f);
    }
    forall e | IsDir(own, e) ensures IsDir(own2, e) && IsTable(m2, e) {
      StillDir(m1, own1, m2, own2, d, lo, hi, e);
    }
    forall e, v | IsDir(own, e) && IsTable(m, e) && IsTable(m2, e) && 0 <= v < TOPPAGE ensures SameEntry(m, m2, e, v) {
      BuiltOther(m, own, m1, own1, d, lo, e);
      assert SameEntry(m, m1, e, v) && EntryGrown(m1, m2, own1, d, lo, hi, e, v);
    }
  }

  /** A space built and then freed gives every frame back. */
  lemma BuiltThenFreed(m: Mem, own: Owners, m1: Mem, own1: Owners, m2: Mem, own2: Owners, d: int, hi: int)
    requires Built(m, own, m1, own1, d, hi) && FreedSpace(m1, own1, m2, own2, d)
    ensures own2 == own
  {
    hide Inv, Lookup;
    forall f | f in own ensures own2[f] == own[f] {
      assert FrameBuilt(m, m1, own, own1, d, hi, f);
      if OfSpace(own[f], d) {
        NotOurs(m, own, d, f);
      }
    }
  }

  lemma NotOurs(m: Mem, own: Owners, d: int, f: int)
    requires Inv(m, own) && d in own && own[d] == Free && f in own
    ensures !OfSpace(own[f], d)
  {
    assert FrameOk(m, own, f);
  }

  // ---------- runs ----------

  datatype Proc = Proc(d: int, sz: int)

  /** Memory and the address spaces of the running processes. */
  datatype Sys = Sys(m: Mem, own: Owners, procs: seq<Proc>)

  ghost predicate SysOk(s: Sys) {
    && Inv(s.m, s.own)
    && (forall i :: 0 <= i < |s.procs| ==> IsDir(s.own, s.procs[i].d) && SpaceOk(s.m, s.procs[i].d, s.procs[i].sz))
    && (forall i, j :: 0 <= i < j < |s.procs| ==> s.procs[i].d != s.procs[j].d)
  }

  /** sbrk: growproc grew the space, failed to, shrank it, or shrank it to nothing,
      which frees the pages and then reports failure. */
  ghost predicate Sbrk(s: Sys, s': Sys, i: int)
    requires 0 <= i < |s.procs|
  {
    var p := s.procs[i];
    || (s'.procs == s.procs && 0 <= p.sz && Grown(s.m, s.own, s'.m, s'.own, p.d, Pages(p.sz), Pages(p.sz)))
    || (exists sz :: 0 <= p.sz <= sz < KERNBASE && s'.procs == s.procs[i := Proc(p.d, sz)] &&
          Grown(s.m, s.own, s'.m, s'.own, p.d, Pages(p.sz), Pages(sz)))
    || (exists sz :: 0 <= sz < p.sz && s'.procs == (if sz == 0 then s.procs else s.procs[i := Proc(p.d, sz)]) &&
          Shrunk(s.m, s.own, s'.m, s'.own, p.d, Pages(sz), Pages(p.sz)))
  }

  /** fork: a successful copyuvm. */
  ghost predicate Fork(s: Sys, s': Sys, i: int)
    requires 0 <= i < |s.procs|
  {
    var p := s.procs[i];
    && |s'.procs| == |s.procs| + 1 && s'.procs == s.procs + [Proc(s'.procs[|s.procs|].d, p.sz)]
    && 0 <= p.sz && Copied(s.m, s.own, s'.m, s'.own, p.d, s'.procs[|s.procs|].d, if p.sz > PGSIZE then Pages(p.sz) else 1)
  }

  /** exec: a new image, then the old space is freed. */
  ghost predicate Exec(s: Sys, s1: Sys, s': Sys, i: int)
    requires 0 <= i < |s.procs|
  {
    && |s1.procs| == |s.procs|
    && s1.procs == s.procs[i := s1.procs[i]] && 0 <= s1.procs[i].sz
    && Built(s.m, s.own, s1.m, s1.own, s1.procs[i].d, Pages(s1.procs[i].sz))
    && SpaceOk(s1.m, s1.procs[i].d, s1.procs[i].sz)
    && s'.procs == s1.procs && FreedSpace(s1.m, s1.own, s'.m, s'.own, s.procs[i].d)
  }

  /** exit and wait: the space is freed. */
  ghost predicate Exit(s: Sys, s': Sys, i: int)
    requires 0 <= i < |s.procs|
  {
    s'.procs == s.procs[..i] + s.procs[i+1..] && FreedSpace(s.m, s.own, s'.m, s'.own, s.procs[i].d)
  }

  ghost predicate Next(s: Sys, s': Sys, i: int) {
    0 <= i < |s.procs| && (Sbrk(s, s', i) || Fork(s, s', i) || (exists s1 :: Exec(s, s1, s', i)) || Exit(s, s', i))
  }

  lemma SbrkGrows(s: Sys, s': Sys, i: int, sz: int)
    requires SysOk(s) && 0 <= i < |s.procs|
    requires 0 <= s.procs[i].sz <= sz < KERNBASE && s'.procs == s.procs[i := Proc(s.procs[i].d, sz)]
    requires Grown(s.m, s.own, s'.m, s'.own, s.procs[i].d, Pages(s.procs[i].sz), Pages(sz))
    ensures SysOk(s')
  {
    hide Inv, Lookup, SpaceOk, Grown;
    var p := s.procs[i];
    GrownSpace(s.m, s.own, s'.m, s'.own, p.d, p.sz, sz);
    StillDir(s.m, s.own, s'.m, s'.own, p.d, Pages(p.sz), Pages(sz), p.d);
    GrownInv(s.m, s.own, s'.m, s'.own, p.d, Pages(p.sz), Pages(sz));
    forall j | 0 <= j < |s.procs| && j != i ensures IsDir(s'.own, s.procs[j].d) && SpaceOk(s'.m, s.procs[j].d, s.procs[j].sz) {
      GrownOther(s.m, s.own, s'.m, s'.own, p.d, Pages(p.sz), Pages(sz), s.procs[j].d);
      SameSpaceOk(s.m, s.own, s'.m, s'.own, s.procs[j].d, s.procs[j].sz);
    }
  }

  lemma SbrkShrinks(s: Sys, s': Sys, i: int, sz: int)
    requires SysOk(s) && 0 <= i < |s.procs|
    requires 0 <= sz < s.procs[i].sz
    requires s'.procs == if sz == 0 then s.procs else s.procs[i := Proc(s.procs[i].d, sz)]
    requires Shrunk(s.m, s.own, s'.m, s'.own, s.procs[i].d, Pages(sz), Pages(s.procs[i].sz))
    ensures SysOk(s')
  {
    hide Inv, Lookup, SpaceOk, Shrunk;
    var p := s.procs[i];
    ShrunkSpace(s.m, s.own, s'.m, s'.own, p.d, p.sz, sz);
    StillDirShrunk(s.m, s.own, s'.m, s'.own, p.d, Pages(sz), Pages(p.sz), p.d);
    ShrunkInv(s.m, s.own, s'.m, s'.own, p.d, Pages(sz), Pages(p.sz));
    forall j | 0 <= j < |s.procs| && j != i ensures IsDir(s'.own, s.procs[j].d) && SpaceOk(s'.m, s.procs[j].d, s.procs[j].sz) {
      ShrunkOther(s.m, s.own, s'.m, s'.own, p.d, Pages(sz), Pages(p.sz), s.procs[j].d);
      SameSpaceOk(s.m, s.own, s'.m, s'.own, s.procs[j].d, s.procs[j].sz);
    }
  }

  lemma SbrkKeeps(s: Sys, s': Sys, i: int)
    requires SysOk(s) && 0 <= i < |s.procs| && Sbrk(s, s', i)
    ensures SysOk(s')
  {
    hide Inv, Lookup, SpaceOk, Grown, Shrunk;
    var p := s.procs[i];
    SizePositive(s.m, p.d, p.sz);
    if exists sz :: 0 <= sz < p.sz && s'.procs == (if sz == 0 then s.procs else s.procs[i := Proc(p.d, sz)]) &&
          Shrunk(s.m, s.own, s'.m, s'.own, p.d, Pages(sz), Pages(p.sz)) {
      var sz :| 0 <= sz < p.sz && s'.procs == (if sz == 0 then s.procs else s.procs[i := Proc(p.d, sz)]) &&
          Shrunk(s.m, s.own, s'.m, s'.own, p.d, Pages(sz), Pages(p.sz));
      SbrkShrinks(s, s', i, sz);
    } else {
      SbrkGrows(s, s', i, s'.procs[i].sz);
    }
  }

  lemma SizePositive(m: Mem, d: int, sz: int)
    requires SpaceOk(m, d, sz)
    ensures 0 < sz < KERNBASE
  {
  }

  lemma GrownInv(m: Mem, own: Owners, m': Mem, own': Owners, d: int, lo: int, hi: int)
    requires Grown(m, own, m', own', d, lo, hi)
    ensures Inv(m', own')
  {
  }

  lemma ShrunkInv(m: Mem, own: Owners, m': Mem, own': Owners, d: int, lo: int, hi: int)
    requires Shrunk(m, own, m', own', d, lo, hi)
    ensures Inv(m', own')
  {
  }

  lemma ForkKeeps(s: Sys, s': Sys, i: int)
    requires SysOk(s) && 0 <= i < |s.procs| && Fork(s, s', i)
    ensures SysOk(s')
  {
    hide Inv, Lookup, SpaceOk;
    var p, n := s.procs[i], |s.procs|;
    var d := s'.procs[n].d;
    SizePositive(s.m, p.d, p.sz);
    CopiedSpace(s.m, s.own, s'.m, s'.own, p.d, d, p.sz);
    forall j | 0 <= j < n ensures IsDir(s'.own, s.procs[j].d) && SpaceOk(s'.m, s.procs[j].d, s.procs[j].sz) && s.procs[j].d != d {
      BuiltOther(s.m, s.own, s'.m, s'.own, d, if p.sz > PGSIZE then Pages(p.sz) else 1, s.procs[j].d);
      SameSpaceOk(s.m, s.own, s'.m, s'.own, s.procs[j].d, s.procs[j].sz);
    }
  }

  lemma FreedKeeps(s: Sys, s': Sys, d: int)
    requires SysOk(s) && FreedSpace(s.m, s.own, s'.m, s'.own, d) && IsDir(s.own, d) && s'.procs == s.procs
    requires forall j :: 0 <= j < |s.procs| ==> s.procs[j].d != d
    ensures SysOk(s')
  {
    hide Inv, Lookup, SpaceOk;
    forall j | 0 <= j < |s.procs| ensures IsDir(s'.own, s.procs[j].d) && SpaceOk(s'.m, s.procs[j].d, s.procs[j].sz) {
      FreedOther(s.m, s.own, s'.m, s'.own, d, s.procs[j].d);
      SameSpaceOk(s.m, s.own, s'.m, s'.own, s.procs[j].d, s.procs[j].sz);
    }
  }

  /** A new image beside the spaces already there: from no process at all it is the
      state a run starts from. */
  lemma ExecStarts(s: Sys, m': Mem, own': Owners, d: int, sz: int)
    requires SysOk(s) && 0 <= sz && Built(s.m, s.own, m', own', d, Pages(sz)) && SpaceOk(m', d, sz)
    ensures SysOk(Sys(m', own', s.procs + [Proc(d, sz)]))
  {
    hide Inv, Lookup, SpaceOk;
    forall j | 0 <= j < |s.procs|
      ensures IsDir(own', s.procs[j].d) && SpaceOk(m', s.procs[j].d, s.procs[j].sz) && s.procs[j].d != d
    {
      BuiltOther(s.m, s.own, m', own', d, Pages(sz), s.procs[j].d);
      SameSpaceOk(s.m, s.own, m', own', s.procs[j].d, s.procs[j].sz);
    }
  }

  lemma ExecKeeps(s: Sys, s1: Sys, s': Sys, i: int)
    requires SysOk(s) && 0 <= i < |s.procs| && Exec(s, s1, s', i)
    ensures SysOk(s')
  {
    hide Inv, Lookup, SpaceOk, FreedSpace, Built;
    var n, all := |s.procs|, s.procs + [s1.procs[i]];
    ExecStarts(s, s1.m, s1.own, s1.procs[i].d, s1.procs[i].sz);
    assert s1.procs[i] == Proc(s1.procs[i].d, s1.procs[i].sz);
    assert forall j :: 0 <= j < n ==> s1.procs[j] == all[if j == i then n else j];
    assert all[i] == s.procs[i];
    FreedKeeps(Sys(s1.m, s1.own, s1.procs), s', s.procs[i].d);
  }

  lemma ExitKeeps(s: Sys, s': Sys, i: int)
    requires SysOk(s) && 0 <= i < |s.procs| && Exit(s, s', i)
    ensures SysOk(s')
  {
    hide Inv, Lookup, SpaceOk, FreedSpace;
    var rest := s'.procs;
    assert forall j :: 0 <= j < |rest| ==> rest[j] == s.procs[if j < i then j else j + 1];
    var s1 := Sys(s.m, s.own, rest);
    assert SysOk(s1);
    FreedKeeps(s1, s', s.procs[i].d);
  }

  lemma NextKeeps(s: Sys, s': Sys, i: int)
    requires SysOk(s) && Next(s, s', i)
    ensures SysOk(s')
  {
    hide SysOk, Sbrk, Fork, Exec, Exit;
    if Sbrk(s, s', i) {
      SbrkKeeps(s, s', i);
    } else if Fork(s, s', i) {
      ForkKeeps(s, s', i);
    } else if Exit(s, s', i) {
      ExitKeeps(s, s', i);
    } else {
      var s1 :| Exec(s, s1, s', i);
      ExecKeeps(s, s1, s', i);
    }
  }

  ghost predicate Trace(t: seq<Sys>, who: seq<int>) {
    |t| == |who| + 1 && forall k :: 0 <= k < |who| ==> Next(t[k], t[k+1], who[k])
  }

  lemma {:induction false} TraceKeeps(t: seq<Sys>, who: seq<int>, k: nat)
    requires Trace(t, who) && SysOk(t[0]) && k < |t|
    ensures SysOk(t[k])
  {
    hide SysOk, Next;
    if k > 0 {
      TraceKeeps(t, who, k - 1);
      assert Next(t[k-1], t[k-1+1], who[k-1]);
      NextKeeps(t[k-1], t[k], who[k-1]);
    }
  }

  /** In every address space reached from an exec by any run of exec, fork, sbrk and
      exit, page 0 is never mapped, no page at or above the size is, and the frames
      stay partitioned. */
  lemma PageZeroNeverMapped(t: seq<Sys>, who: seq<int>, k: nat, i: nat)
    requires Trace(t, who) && k < |t| && i < |t[k].procs|
    requires SysOk(t[0])
    ensures Inv(t[k].m, t[k].own) && IsTable(t[k].m, t[k].procs[i].d)
    ensures Lookup(t[k].m, t[k].procs[i].d, 0) == Absent
    ensures forall v :: 0 <= v < KERNPAGE && v * PGSIZE >= t[k].procs[i].sz ==> Lookup(t[k].m, t[k].procs[i].d, v) == Absent
  {
    hide Trace, Inv, Lookup;
    TraceKeeps(t, who, k);
    var s, d, sz := t[k], t[k].procs[i].d, t[k].procs[i].sz;
    assert SpaceOk(s.m, d, sz);
    assert WithinSize(s.m, d, sz, 0);
    forall v | 0 <= v < KERNPAGE && v * PGSIZE >= sz ensures Lookup(s.m, d, v) == Absent {
      assert WithinSize(s.m, d, sz, v);
    }
  }
}
