/** What growing, shrinking and tearing down an address space do to the flat maps and
    to the frames. */
module VmOps {
  import opened VmSpec

  // ---------- growing ----------

  /** Page v of directory d is backed by a frame that was free, zeroed and user-writable. */
  ghost predicate FreshZero(m': Mem, own: Owners, d: int, v: int)
    requires IsTable(m', d) && 0 <= v < TOPPAGE
  {
    var p := Lookup(m', d, v);
    && p.Pte? && p.flags == W + U && p.frame in own && own[p.frame] == Free
    && p.frame in m'.pages && m'.pages[p.frame] == Filled(0)
  }

  ghost predicate EntryGrown(m: Mem, m': Mem, own: Owners, d: int, lo: int, hi: int, e: int, v: int)
    requires IsTable(m, e) && IsTable(m', e) && 0 <= v < TOPPAGE
  {
    if e == d && lo <= v < hi then FreshZero(m', own, d, v) else Lookup(m', e, v) == Lookup(m, e, v)
  }

  /** A table of directory d, or one of its user pages lo..hi. */
  predicate GoesTo(o: Owner, d: int, lo: int, hi: int) {
    (o.Tab? && o.d == d) || (o.User? && o.d == d && lo <= o.v < hi)
  }

  ghost predicate FrameGrown(m: Mem, m': Mem, own: Owners, own': Owners, d: int, lo: int, hi: int, f: int)
    requires f in own
  {
    && f in own'
    && (own'[f] != own[f] ==> own[f] == Free && GoesTo(own'[f], d, lo, hi))
    && (own[f] != Free ==> f in m.pages && f in m'.pages && m'.pages[f] == m.pages[f])
  }

  /** Directory d gained zeroed pages lo..hi on frames that were free, and perhaps page
      tables; nothing else changed hands, contents or flat map. */
  ghost predicate Grown(m: Mem, own: Owners, m': Mem, own': Owners, d: int, lo: int, hi: int) {
    && Inv(m, own) && Inv(m', own') && own'.Keys == own.Keys
    && (forall f :: f in own ==> FrameGrown(m, m', own, own', d, lo, hi, f))
    && (forall e, v :: IsDir(own, e) && IsTable(m, e) && IsTable(m', e) && 0 <= v < TOPPAGE ==>
          EntryGrown(m, m', own, d, lo, hi, e, v))
  }

  lemma GrownRefl(m: Mem, own: Owners, d: int, lo: int)
    requires Inv(m, own)
    ensures Grown(m, own, m, own, d, lo, lo)
  {
    forall f | f in own ensures FrameGrown(m, m, own, own, d, lo, lo, f) {
      assert FrameOk(m, own, f);
    }
  }

  lemma StillDir(m: Mem, own: Owners, m': Mem, own': Owners, d: int, lo: int, hi: int, e: int)
    requires Grown(m, own, m', own', d, lo, hi) && IsDir(own, e)
    ensures IsDir(own', e) && IsTable(m, e) && IsTable(m', e)
  {
    assert FrameGrown(m, m', own, own', d, lo, hi, e);
    DirIsTable(m, own, e);
    DirIsTable(m', own', e);
  }

  lemma GrownTrans(m: Mem, own: Owners, m1: Mem, own1: Owners, m2: Mem, own2: Owners, d: int, lo: int, mid: int, hi: int)
    requires Grown(m, own, m1, own1, d, lo, mid) && Grown(m1, own1, m2, own2, d, mid, hi) && lo <= mid <= hi <= KERNPAGE
    ensures Grown(m, own, m2, own2, d, lo, hi)
  {
    hide Inv, Lookup;
    forall f | f in own ensures FrameGrown(m, m2, own, own2, d, lo, hi, f) {
      assert FrameGrown(m, m1, own, own1, d, lo, mid, f) && FrameGrown(m1, m2, own1, own2, d, mid, hi, f);
    }
    forall e, v | IsDir(own, e) && IsTable(m, e) && IsTable(m2, e) && 0 <= v < TOPPAGE
      ensures EntryGrown(m, m2, own, d, lo, hi, e, v)
    {
      StillDir(m, own, m1, own1, d, lo, mid, e);
      assert EntryGrown(m, m1, own, d, lo, mid, e, v) && EntryGrown(m1, m2, own1, d, mid, hi, e, v);
      if e == d && lo <= v < hi {
        TransFresh(m, own, m1, own1, m2, own2, d, lo, mid, hi, v);
      }
    }
  }

  lemma TransFresh(m: Mem, own: Owners, m1: Mem, own1: Owners, m2: Mem, own2: Owners, d: int, lo: int, mid: int, hi: int, v: int)
    requires Grown(m, own, m1, own1, d, lo, mid) && Grown(m1, own1, m2, own2, d, mid, hi) && lo <= mid <= hi <= KERNPAGE
    requires IsDir(own, d) && lo <= v < hi && 0 <= v < TOPPAGE
    ensures IsTable(m2, d) && FreshZero(m2, own, d, v)
  {
    hide Inv, Lookup;
    StillDir(m, own, m1, own1, d, lo, mid, d);
    StillDir(m1, own1, m2, own2, d, mid, hi, d);
    assert EntryGrown(m, m1, own, d, lo, mid, d, v) && EntryGrown(m1, m2, own1, d, mid, hi, d, v);
    var f := Lookup(m2, d, v).frame;
    if v < mid {
      FreshIsUser(m1, own1, d, v);
      assert FrameGrown(m1, m2, own1, own2, d, mid, hi, f);
    } else {
      assert FrameGrown(m, m1, own, own1, d, lo, mid, f);
    }
  }

  /** A mapped user page's frame is not free. */
  lemma FreshIsUser(m: Mem, own: Owners, d: int, v: int)
    requires Inv(m, own) && IsDir(own, d) && 0 <= v < TOPPAGE
    ensures IsTable(m, d)
    ensures v < KERNPAGE && Lookup(m, d, v).Pte? ==>
              Lookup(m, d, v).frame in own && own[Lookup(m, d, v).frame] == User(d, v)
  {
    DirIsTable(m, own, d);
    if v < KERNPAGE {
      assert PteOk(m, own, d, v);
    }
  }

  /** The frame kalloc returned, zeroed. */
  function Cleared(m: Mem): (r: Mem)
    requires m.free != []
  {
    Mem(m.free[1..], m.tabs, m.pages[m.free[0] := Filled(0)])
  }

  lemma PagesAside(m: Mem, own: Owners, f: int, p: Page)
    requires Inv(m, own) && f in own
    ensures Inv(Mem(m.free, m.tabs, m.pages[f := p]), own)
  {
    var r := Mem(m.free, m.tabs, m.pages[f := p]);
    forall g | g in own ensures FrameOk(r, own, g) {
      assert FrameOk(m, own, g);
    }
    forall e, x | IsDir(own, e) && 0 <= x < N && IsTable(r, e) ensures PdeOk(r, own, e, x) {
      assert PdeOk(m, own, e, x);
    }
    forall e, v | IsDir(own, e) && 0 <= v < KERNPAGE && IsTable(r, e) ensures PteOk(r, own, e, v) {
      assert PteOk(m, own, e, v);
    }
  }

  lemma ClearedKeeps(m: Mem, own: Owners)
    requires Inv(m, own) && m.free != []
    ensures m.free[0] in own && own[m.free[0]] == Free
    ensures Inv(Cleared(m), own[m.free[0] := Held])
  {
    hide Inv;
    KallocKeeps(m, own);
    PagesAside(Kalloc(m), own[m.free[0] := Held], m.free[0], Filled(0));
  }

  /** walkpgdir with allocation: the next free frame becomes the missing table. */
  lemma WalkGrows(m: Mem, own: Owners, d: int, v: int, lo: int)
    requires Inv(m, own) && IsDir(own, d) && 0 <= v < TOPPAGE && IsTable(m, d) && !HasTable(m, d, v) && m.free != []
    ensures m.free[0] != d
    ensures var r := NewTable(Kalloc(m), d, v / N, m.free[0]);
            && Grown(m, own, r, own[m.free[0] := Tab(d, v / N)], d, lo, lo)
            && IsTable(r, d) && HasTable(r, d, v)
  {
    hide Inv, Lookup;
    var t, x := m.free[0], v / N;
    KallocKeeps(m, own);
    var m1, own1 := Kalloc(m), own[t := Held];
    NewTableKeeps(m1, own1, d, x, t);
    var r, own' := NewTable(m1, d, x, t), own[t := Tab(d, x)];
    assert own1[t := Tab(d, x)] == own';
    forall f | f in own ensures FrameGrown(m, r, own, own', d, lo, lo, f) {
      FrameHasPage(m, own, f);
    }
    forall e, w | IsDir(own, e) && IsTable(m, e) && IsTable(r, e) && 0 <= w < TOPPAGE
      ensures EntryGrown(m, r, own, d, lo, lo, e, w)
    {
      NewTableLookup(m1, own1, d, x, t, e, w);
      SameTables(m, m1, e, w);
    }
  }

  lemma FrameHasPage(m: Mem, own: Owners, f: int)
    requires Inv(m, own) && f in own
    ensures f in m.pages
  {
    assert FrameOk(m, own, f);
  }

  /** A zeroed frame mapped at page v, on top of whatever walkpgdir allocated. */
  lemma PageMapped(m: Mem, own: Owners, b: Mem, ownB: Owners, d: int, v: int)
    requires Inv(m, own) && m.free != [] && m.free[0] in own && IsDir(own, d) && 0 <= v < KERNPAGE
    requires Grown(Cleared(m), own[m.free[0] := Held], b, ownB, d, v, v)
    requires IsTable(b, d) && HasTable(b, d, v) && Lookup(b, d, v) == Absent
    ensures var f := m.free[0];
            && IsTable(b, TableOf(b, d, v))
            && Grown(m, own, SetEntry(b, TableOf(b, d, v), v % N, Pte(f, W + U)), ownB[f := User(d, v)], d, v, v + 1)
  {
    hide Inv, Lookup;
    var hi := v + 1;
    var f, a, ownA := m.free[0], Cleared(m), own[m.free[0] := Held];
    KallocKeeps(m, own);
    assert FrameGrown(a, b, ownA, ownB, d, v, v, f);
    StillDir(a, ownA, b, ownB, d, v, v, d);
    var own' := ownB[f := User(d, v)];
    SetEntryKeeps(b, ownB, d, v, Pte(f, W + U), own');
    var r := SetEntry(b, TableOf(b, d, v), v % N, Pte(f, W + U));
    forall g | g in own ensures FrameGrown(m, r, own, own', d, v, hi, g) {
      FrameHasPage(m, own, g);
      assert FrameGrown(a, b, ownA, ownB, d, v, v, g);
    }
    forall e, w | IsDir(own, e) && IsTable(m, e) && IsTable(r, e) && 0 <= w < TOPPAGE
      ensures EntryGrown(m, r, own, d, v, hi, e, w)
    {
      StillDir(a, ownA, b, ownB, d, v, v, e);
      SetEntryLookup(b, ownB, d, v, Pte(f, W + U), e, w);
      assert EntryGrown(a, b, ownA, d, v, v, e, w);
      SameTables(m, a, e, w);
    }
  }

  // ---------- shrinking ----------

  /** The first present entry of a directory from x on. */
  function NextTable(dir: Table, x: nat): (r: nat)
    requires |dir.e| == N && x <= N
    ensures x <= r <= N && (r < N ==> dir.e[r].Pte?)
    ensures forall k :: x <= k < r ==> dir.e[k] == Absent
    decreases N - x
  {
    if x == N || dir.e[x].Pte? then x else NextTable(dir, x + 1)
  }

  /** The pages deallocuvm's walk jumps over: starting inside a region without a
      table, it lands at the same offset in the first region that has one. */
  predicate Skipped(dir: Table, lo: int, v: int)
    requires |dir.e| == N && 0 <= lo < TOPPAGE
  {
    dir.e[lo / N] == Absent && v / N == NextTable(dir, lo / N) && v % N < lo % N
  }

  lemma {:induction false} NextTableIs(dir: Table, x: nat, r: nat)
    requires |dir.e| == N && x <= r < N && dir.e[r].Pte? && forall k :: x <= k < r ==> dir.e[k] == Absent
    ensures NextTable(dir, x) == r
    decreases r - x
  {
    if x < r {
      NextTableIs(dir, x + 1, r);
    }
  }

  // ---------- deallocuvm's walk ----------

  ghost predicate NoTables(dir: Table, x0: int, x1: int)
    requires |dir.e| == N && 0 <= x0 && x1 < N
  {
    forall k :: x0 <= k <= x1 ==> dir.e[k] == Absent
  }

  /** Where the walk from lo may stand: at a boundary, inside a table, or still jumping
      from an unaligned start. */
  ghost predicate WalkAt(dir: Table, lo: int, p: int) {
    && |dir.e| == N && 0 <= lo <= p < TOPPAGE
    && (p % N == 0 || dir.e[p / N].Pte? || (p % N == lo % N && NoTables(dir, lo / N, p / N)))
    && (dir.e[p / N].Pte? ==> !Skipped(dir, lo, p))
    && (p % N == 0 && lo % N != 0 && dir.e[lo / N] == Absent ==> NextTable(dir, lo / N) < p / N)
  }

  lemma WalkStart(dir: Table, lo: int)
    requires |dir.e| == N && 0 <= lo < TOPPAGE
    ensures WalkAt(dir, lo, lo)
  {
  }

  lemma WalkNext(dir: Table, lo: int, p: int)
    requires WalkAt(dir, lo, p) && dir.e[p / N].Pte? && p + 1 < TOPPAGE
    ensures WalkAt(dir, lo, p + 1)
  {
    hide NoTables;
    var q := p + 1;
    if q % N == 0 {
      assert q / N == p / N + 1;
      assert NextTable(dir, lo / N) <= p / N;
    } else {
      assert q / N == p / N && q % N == p % N + 1;
    }
  }

  lemma WalkJump(dir: Table, lo: int, p: int)
    requires WalkAt(dir, lo, p) && dir.e[p / N] == Absent && p + N < TOPPAGE
    ensures WalkAt(dir, lo, p + N)
  {
    var q := p + N;
    assert q / N == p / N + 1 && q % N == p % N;
    if p % N != 0 && dir.e[q / N].Pte? {
      NextTableIs(dir, lo / N, q / N);
    }
  }

  /** What one jump passes over: pages without a table, and skipped pages. */
  lemma JumpCovers(dir: Table, lo: int, p: int, v: int)
    requires WalkAt(dir, lo, p) && dir.e[p / N] == Absent && p <= v < p + N && v < TOPPAGE
    ensures dir.e[v / N] == Absent || Skipped(dir, lo, v)
  {
    if v / N != p / N {
      assert v / N == p / N + 1 && v % N < p % N;
      if dir.e[v / N].Pte? {
        NextTableIs(dir, lo / N, v / N);
      }
    }
  }

  predicate Gone(dir: Table, lo: int, hi: int, v: int)
    requires |dir.e| == N && 0 <= lo < TOPPAGE
  {
    lo <= v < hi && !Skipped(dir, lo, v)
  }

  ghost predicate EntryShrunk(m: Mem, m': Mem, d: int, lo: int, hi: int, e: int, v: int)
    requires IsTable(m, d) && IsTable(m, e) && IsTable(m', e) && 0 <= v < TOPPAGE && 0 <= lo < TOPPAGE
  {
    Lookup(m', e, v) == if e == d && Gone(m.tabs[d], lo, hi, v) then Absent else Lookup(m, e, v)
  }

  ghost predicate FrameShrunk(m: Mem, m': Mem, own: Owners, own': Owners, d: int, lo: int, hi: int, f: int)
    requires f in own && IsTable(m, d) && 0 <= lo < TOPPAGE
  {
    && f in own'
    && own'[f] == (if own[f].User? && own[f].d == d && Gone(m.tabs[d], lo, hi, own[f].v) then Free else own[f])
    && (own[f] == own'[f] && own[f] != Free ==> f in m.pages && f in m'.pages && m'.pages[f] == m.pages[f])
  }

  /** Directory d lost the pages lo..hi, except those jumped over; exactly their frames
      became free. */
  ghost predicate Shrunk(m: Mem, own: Owners, m': Mem, own': Owners, d: int, lo: int, hi: int) {
    && Inv(m, own) && Inv(m', own') && own'.Keys == own.Keys
    && IsDir(own, d) && IsTable(m, d) && IsTable(m', d) && m'.tabs[d] == m.tabs[d] && 0 <= lo < TOPPAGE
    && (forall f :: f in own ==> FrameShrunk(m, m', own, own', d, lo, hi, f))
    && (forall e, v :: IsDir(own, e) && IsTable(m, e) && IsTable(m', e) && 0 <= v < TOPPAGE ==>
          EntryShrunk(m, m', d, lo, hi, e, v))
  }

  lemma ShrunkRefl(m: Mem, own: Owners, d: int, lo: int)
    requires Inv(m, own) && IsDir(own, d) && 0 <= lo < TOPPAGE
    ensures Shrunk(m, own, m, own, d, lo, lo)
  {
    DirIsTable(m, own, d);
    forall f | f in own ensures FrameShrunk(m, m, own, own, d, lo, lo, f) {
      assert FrameOk(m, own, f);
    }
  }

  lemma StillDirShrunk(m: Mem, own: Owners, m': Mem, own': Owners, d: int, lo: int, hi: int, e: int)
    requires Shrunk(m, own, m', own', d, lo, hi) && IsDir(own, e)
    ensures IsDir(own', e) && IsTable(m, e) && IsTable(m', e)
  {
    assert FrameShrunk(m, m', own, own', d, lo, hi, e);
    DirIsTable(m, own, e);
    DirIsTable(m', own', e);
  }

  /** Moving the end over pages that have no entry. */
  lemma ShrunkPast(m: Mem, own: Owners, m': Mem, own': Owners, d: int, lo: int, mid: int, hi: int)
    requires Shrunk(m, own, m', own', d, lo, mid) && lo <= mid <= hi <= KERNPAGE
    requires forall v :: mid <= v < hi && Gone(m.tabs[d], lo, hi, v) ==> Lookup(m, d, v) == Absent
    ensures Shrunk(m, own, m', own', d, lo, hi)
  {
    hide Inv, Lookup;
    forall f | f in own ensures FrameShrunk(m, m', own, own', d, lo, hi, f) {
      assert FrameShrunk(m, m', own, own', d, lo, mid, f);
      UserLookup(m, own, f);
    }
    forall e, v | IsDir(own, e) && IsTable(m, e) && IsTable(m', e) && 0 <= v < TOPPAGE
      ensures EntryShrunk(m, m', d, lo, hi, e, v)
    {
      assert EntryShrunk(m, m', d, lo, mid, e, v);
    }
  }

  lemma UserLookup(m: Mem, own: Owners, f: int)
    requires Inv(m, own) && f in own
    ensures own[f].User? ==> UserOk(m, own, f, own[f].d, own[f].v)
    ensures f in m.pages
  {
    assert FrameOk(m, own, f);
  }

  /** Free the frame at page v and clear its entry. */
  function Evict(m: Mem, d: int, v: int): (r: Mem)
    requires IsTable(m, d) && 0 <= v < TOPPAGE && HasTable(m, d, v) && IsTable(m, TableOf(m, d, v))
    requires Lookup(m, d, v).Pte? && Lookup(m, d, v).frame !in m.tabs
  {
    SetEntry(Kfree(m, Lookup(m, d, v).frame), TableOf(m, d, v), v % N, Absent)
  }

  lemma EvictKeeps(m: Mem, own: Owners, d: int, v: int)
    requires Inv(m, own) && IsDir(own, d) && 0 <= v < KERNPAGE && IsTable(m, d) && Lookup(m, d, v).Pte?
    ensures HasTable(m, d, v) && IsTable(m, TableOf(m, d, v)) && TableOf(m, d, v) != d
    ensures var f := Lookup(m, d, v).frame;
            && f in own && own[f] == User(d, v) && f !in m.tabs
            && Inv(Evict(m, d, v), own[f := Free])
            && Evict(m, d, v) == Kfree(SetEntry(m, TableOf(m, d, v), v % N, Absent), f)
  {
    TableIsOwned(m, own, d, v);
    assert PteOk(m, own, d, v);
    var f := Lookup(m, d, v).frame;
    assert FrameOk(m, own, f);
    var own1 := own[f := Held];
    SetEntryKeeps(m, own, d, v, Absent, own1);
    KfreeKeeps(SetEntry(m, TableOf(m, d, v), v % N, Absent), own1, f);
    assert own1[f := Free] == own[f := Free];
    hide Inv, Lookup;
    assert (m.tabs - {f})[TableOf(m, d, v) := Table(m.tabs[TableOf(m, d, v)].e[v % N := Absent])]
        == m.tabs[TableOf(m, d, v) := Table(m.tabs[TableOf(m, d, v)].e[v % N := Absent])] - {f};
  }

  lemma EvictLookup(m: Mem, own: Owners, d: int, v: int, e: int, w: int)
    requires Inv(m, own) && IsDir(own, d) && 0 <= v < KERNPAGE && IsTable(m, d) && Lookup(m, d, v).Pte?
    requires IsDir(own, e) && 0 <= w < TOPPAGE
    ensures HasTable(m, d, v) && IsTable(m, TableOf(m, d, v)) && Lookup(m, d, v).frame !in m.tabs
    ensures var r := Evict(m, d, v);
            && IsTable(m, e) && IsTable(r, e) && r.tabs[d] == m.tabs[d]
            && Lookup(r, e, w) == if e == d && w == v then Absent else Lookup(m, e, w)
  {
    hide Inv, Lookup;
    EvictKeeps(m, own, d, v);
    SetEntryLookup(m, own, d, v, Absent, e, w);
    DirIsTable(m, own, e);
    var f := Lookup(m, d, v).frame;
    var a := SetEntry(m, TableOf(m, d, v), v % N, Absent);
    assert a.tabs - {f} == a.tabs;
    SameTables(a, Kfree(a, f), e, w);
  }

  lemma ShrunkOne(m: Mem, own: Owners, m': Mem, own': Owners, d: int, lo: int, v: int)
    requires Shrunk(m, own, m', own', d, lo, v) && lo <= v < KERNPAGE && Gone(m.tabs[d], lo, v + 1, v)
    requires Lookup(m', d, v).Pte?
    ensures HasTable(m', d, v) && IsTable(m', TableOf(m', d, v)) && Lookup(m', d, v).frame !in m'.tabs
    ensures Lookup(m', d, v).frame in own'
    ensures Shrunk(m, own, Evict(m', d, v), own'[Lookup(m', d, v).frame := Free], d, lo, v + 1)
  {
    hide Inv, Lookup;
    StillDirShrunk(m, own, m', own', d, lo, v, d);
    EvictKeeps(m', own', d, v);
    EvictLookup(m', own', d, v, d, v);
    var hi := v + 1;
    var f := Lookup(m', d, v).frame;
    var r, own2 := Evict(m', d, v), own'[f := Free];
    forall g | g in own ensures FrameShrunk(m, r, own, own2, d, lo, hi, g) {
      assert FrameShrunk(m, m', own, own', d, lo, v, g);
      UserLookup(m', own', g);
    }
    forall e, w | IsDir(own, e) && IsTable(m, e) && IsTable(r, e) && 0 <= w < TOPPAGE
      ensures EntryShrunk(m, r, d, lo, hi, e, w)
    {
      StillDirShrunk(m, own, m', own', d, lo, v, e);
      assert EntryShrunk(m, m', d, lo, v, e, w);
      EvictLookup(m', own', d, v, e, w);
    }
  }

  /** Directory d maps no user page from lo on. */
  ghost predicate ClearFrom(m: Mem, d: int, lo: int)
    requires IsTable(m, d) && 0 <= lo
  {
    forall v :: lo <= v < KERNPAGE ==> Lookup(m, d, v) == Absent
  }

  lemma NoneAbove(m: Mem, own: Owners, d: int, lo: int, f: int)
    requires Inv(m, own) && IsTable(m, d) && 0 <= lo && ClearFrom(m, d, lo) && f in own
    ensures own[f].User? && own[f].d == d ==> own[f].v < lo
  {
    UserLookup(m, own, f);
  }

  /** Pages mapped without a gap from lo on are never jumped over. */
  lemma ContiguousNotSkipped(m: Mem, own: Owners, d: int, lo: int, hi: int, v: int)
    requires Inv(m, own) && IsDir(own, d) && IsTable(m, d) && 0 <= lo <= v < hi <= KERNPAGE
    requires Lookup(m, d, lo).Pte?
    ensures Gone(m.tabs[d], lo, hi, v)
  {
    TableIsOwned(m, own, d, lo);
  }

  /** Growing and then shrinking back leaves, at most, extra page tables: every user
      frame taken is free again. */
  lemma UndoGrow(m: Mem, own: Owners, m1: Mem, own1: Owners, m2: Mem, own2: Owners, d: int, lo: int, hi: int, top: int)
    requires Grown(m, own, m1, own1, d, lo, hi) && Shrunk(m1, own1, m2, own2, d, lo, top)
    requires 0 <= lo <= hi <= top <= KERNPAGE && IsDir(own, d) && IsTable(m, d) && ClearFrom(m, d, lo)
    ensures Grown(m, own, m2, own2, d, lo, lo)
  {
    hide Inv, Lookup;
    forall v | lo <= v < hi ensures Gone(m1.tabs[d], lo, top, v) {
      StillDir(m, own, m1, own1, d, lo, hi, d);
      assert EntryGrown(m, m1, own, d, lo, hi, d, lo);
      ContiguousNotSkipped(m1, own1, d, lo, top, v);
    }
    forall f | f in own ensures FrameGrown(m, m2, own, own2, d, lo, lo, f) {
      assert FrameGrown(m, m1, own, own1, d, lo, hi, f);
      assert FrameShrunk(m1, m2, own1, own2, d, lo, top, f);
      NoneAbove(m, own, d, lo, f);
    }
    forall e, v | IsDir(own, e) && IsTable(m, e) && IsTable(m2, e) && 0 <= v < TOPPAGE
      ensures EntryGrown(m, m2, own, d, lo, lo, e, v)
    {
      StillDir(m, own, m1, own1, d, lo, hi, e);
      assert EntryGrown(m, m1, own, d, lo, hi, e, v);
      assert EntryShrunk(m1, m2, d, lo, top, e, v);
    }
  }

  /** Shrinking commutes with a frame the caller holds and then frees. */
  lemma ShrunkAside(m: Mem, own: Owners, b: Mem, ownB: Owners, d: int, lo: int, hi: int)
    requires Inv(m, own) && m.free != [] && m.free[0] in own && IsDir(own, d)
    requires Shrunk(Cleared(m), own[m.free[0] := Held], b, ownB, d, lo, hi)
    ensures Shrunk(m, own, Kfree(b, m.free[0]), ownB[m.free[0] := Free], d, lo, hi)
  {
    hide Inv, Lookup;
    var f, a, ownA := m.free[0], Cleared(m), own[m.free[0] := Held];
    KallocKeeps(m, own);
    DirIsTable(m, own, d);
    assert FrameShrunk(a, b, ownA, ownB, d, lo, hi, f);
    KfreeKeeps(b, ownB, f);
    var r, own' := Kfree(b, f), ownB[f := Free];
    forall g | g in own ensures FrameShrunk(m, r, own, own', d, lo, hi, g) {
      FrameHasPage(m, own, g);
      assert FrameShrunk(a, b, ownA, ownB, d, lo, hi, g);
    }
    forall e, v | IsDir(own, e) && IsTable(m, e) && IsTable(r, e) && 0 <= v < TOPPAGE
      ensures EntryShrunk(m, r, d, lo, hi, e, v)
    {
      SameTables(m, a, e, v);
      StillDirShrunk(a, ownA, b, ownB, d, lo, hi, e);
      SameTables(b, r, e, v);
      assert EntryShrunk(a, b, d, lo, hi, e, v);
    }
  }

  // ---------- when shrinking is complete ----------

  /** deallocuvm empties the range exactly when no page it jumps over was mapped. */
  lemma EmptiesRangeIff(m: Mem, own: Owners, m': Mem, own': Owners, d: int, lo: int, hi: int)
    requires Shrunk(m, own, m', own', d, lo, hi) && lo <= hi <= KERNPAGE
    ensures (forall v :: lo <= v < hi ==> Lookup(m', d, v) == Absent) <==>
            (forall v :: lo <= v < hi && Skipped(m.tabs[d], lo, v) ==> Lookup(m, d, v) == Absent)
  {
    hide Inv, Lookup, Skipped;
    forall v | lo <= v < hi
      ensures Lookup(m', d, v) == if Skipped(m.tabs[d], lo, v) then Lookup(m, d, v) else Absent
    {
      assert EntryShrunk(m, m', d, lo, hi, d, v);
    }
  }

  /** Starting on a table boundary, or where a table is present, nothing is jumped over. */
  lemma AlignedSkipsNothing(dir: Table, lo: int, v: int)
    requires |dir.e| == N && 0 <= lo < TOPPAGE && (lo % N == 0 || dir.e[lo / N].Pte?)
    ensures !Skipped(dir, lo, v)
  {
  }

  /** Directory 1, whose only page lies at the start of its only table, frame 7. */
  function Sparse(): Mem {
    Mem([], map[1 := Table(NoEntries().e[1 := Pte(7, W + U)]), 7 := Table(NoEntries().e[0 := Pte(8, W + U)])],
        map[1 := Filled(0), 7 := Filled(0), 8 := Filled(0)])
  }

  function SparseOwners(): Owners {
    map[1 := Dir, 7 := Tab(1, 1), 8 := User(1, N)]
  }

  lemma SparseLookup(v: int)
    requires 0 <= v < TOPPAGE
    ensures IsTable(Sparse(), 1) && Lookup(Sparse(), 1, v) == if v == N then Pte(8, W + U) else Absent
  {
  }

  lemma SparseInv()
    ensures Inv(Sparse(), SparseOwners())
  {
    var m, own := Sparse(), SparseOwners();
    SparseLookup(N);
    forall f | f in own ensures FrameOk(m, own, f) {
    }
    forall d, v | IsDir(own, d) && 0 <= v < KERNPAGE && IsTable(m, d) ensures PteOk(m, own, d, v) {
      SparseLookup(v);
    }
  }

  /** Page N is in every range from page 5 up that passes it, and stays mapped: the walk
      starts below it, inside a region without a table, and lands beyond it. */
  lemma UnalignedStartSkips()
    ensures Inv(Sparse(), SparseOwners()) && IsDir(SparseOwners(), 1) && IsTable(Sparse(), 1) && Lookup(Sparse(), 1, N).Pte?
    ensures forall m', own', hi :: Shrunk(Sparse(), SparseOwners(), m', own', 1, 5, hi) ==>
              Lookup(m', 1, N) == Lookup(Sparse(), 1, N)
  {
    hide Inv, Lookup;
    SparseInv();
    SparseLookup(N);
    NextTableIs(Sparse().tabs[1], 0, 1);
    assert Skipped(Sparse().tabs[1], 5, N);
    forall m', own', hi | Shrunk(Sparse(), SparseOwners(), m', own', 1, 5, hi)
      ensures Lookup(m', 1, N) == Lookup(Sparse(), 1, N)
    {
      assert EntryShrunk(Sparse(), m', 1, 5, hi, 1, N);
    }
  }

  // ---------- tearing down ----------

  /** The directory and its tables from entry x on. */
  ghost function SpaceFrames(own: Owners, d: int, x: int): (s: set<int>)
    ensures forall f :: f in s <==> f in own && (f == d || (own[f].Tab? && own[f].d == d && x <= own[f].x))
  {
    set f | f in own && (f == d || (own[f].Tab? && own[f].d == d && x <= own[f].x))
  }

  /** Owners while directory d is taken apart: entries below x are done. */
  ghost function Tearing(own: Owners, d: int, x: int): (r: Owners)
    ensures r.Keys == own.Keys
    ensures forall f :: f in own ==>
              r[f] == if f in SpaceFrames(own, d, x) then Held else if f in SpaceFrames(own, d, 0) then Free else own[f]
  {
    map f | f in own :: if f in SpaceFrames(own, d, x) then Held else if f in SpaceFrames(own, d, 0) then Free else own[f]
  }

  lemma DroppedLookup(m: Mem, own: Owners, d: int, e: int, v: int)
    requires Inv(m, own) && IsDir(own, d) && IsDir(own, e) && e != d && 0 <= v < TOPPAGE
    ensures var r := Mem(m.free, m.tabs - SpaceFrames(own, d, 0), m.pages);
            IsTable(m, e) && IsTable(r, e) && r.tabs[e] == m.tabs[e] && Lookup(r, e, v) == Lookup(m, e, v)
  {
    TableIsOwned(m, own, e, v);
  }

  /** A directory without user pages can be taken apart: it and its tables are then in
      the caller's hands. */
  lemma DropSpace(m: Mem, own: Owners, d: int)
    requires Inv(m, own) && IsDir(own, d) && IsTable(m, d) && ClearFrom(m, d, 0)
    ensures Inv(Mem(m.free, m.tabs - SpaceFrames(own, d, 0), m.pages), Tearing(own, d, 0))
  {
    hide Lookup;
    var s := SpaceFrames(own, d, 0);
    var r, own' := Mem(m.free, m.tabs - s, m.pages), Tearing(own, d, 0);
    forall f | f in own' ensures FrameOk(r, own', f) {
      assert FrameOk(m, own, f);
      if own[f].User? {
        NoneAbove(m, own, d, 0, f);
        DroppedLookup(m, own, d, own[f].d, own[f].v);
      }
      if own[f].Tab? && own[f].d != d {
        DroppedLookup(m, own, d, own[f].d, 0);
      }
    }
    forall e, x | IsDir(own', e) && 0 <= x < N && IsTable(r, e) ensures PdeOk(r, own', e, x) {
      assert IsDir(own, e) && PdeOk(m, own, e, x);
    }
    forall e, v | IsDir(own', e) && 0 <= v < KERNPAGE && IsTable(r, e) ensures PteOk(r, own', e, v) {
      DroppedLookup(m, own, d, e, v);
      assert PteOk(m, own, e, v);
    }
  }

  /** Passing entry x: its table, if any, is the one frame no longer to be freed. */
  lemma TearStep(m: Mem, own: Owners, d: int, x: int)
    requires Inv(m, own) && IsDir(own, d) && IsTable(m, d) && 0 <= x < N
    ensures var p := m.tabs[d].e[x];
            if p.Pte? then
              && p.frame in own && own[p.frame] == Tab(d, x) && p.frame != d
              && SpaceFrames(own, d, x + 1) == SpaceFrames(own, d, x) - {p.frame}
              && Tearing(own, d, x + 1) == Tearing(own, d, x)[p.frame := Free]
            else SpaceFrames(own, d, x + 1) == SpaceFrames(own, d, x) && Tearing(own, d, x + 1) == Tearing(own, d, x)
  {
    hide Lookup;
    var p := m.tabs[d].e[x];
    assert PdeOk(m, own, d, x);
    forall f | f in own && own[f] == Tab(d, x) ensures p.Pte? && f == p.frame {
      assert FrameOk(m, own, f);
    }
  }

  lemma TearEnd(m: Mem, own: Owners, d: int)
    requires Inv(m, own) && IsDir(own, d)
    ensures SpaceFrames(own, d, N) == {d}
  {
    forall f | f in own ensures f in SpaceFrames(own, d, N) <==> f == d {
      assert FrameOk(m, own, f);
    }
  }

  /** What freevm does: the directory, its tables and its user frames are free, and
      nothing else changed hands or flat map. */
  ghost predicate FreedSpace(m: Mem, own: Owners, m': Mem, own': Owners, d: int) {
    && Inv(m, own) && Inv(m', own') && own'.Keys == own.Keys
    && (forall f :: f in own ==> own'[f] == if f == d || OfSpace(own[f], d) then Free else own[f])
    && (forall f :: f in own && own'[f] != Free ==> f in m.pages && f in m'.pages && m'.pages[f] == m.pages[f])
    && (forall e, v :: IsDir(own', e) && IsTable(m, e) && IsTable(m', e) && 0 <= v < TOPPAGE ==> SameEntry(m, m', e, v))
  }

  ghost predicate SameEntry(m: Mem, m': Mem, e: int, v: int)
    requires IsTable(m, e) && IsTable(m', e) && 0 <= v < TOPPAGE
  {
    Lookup(m', e, v) == Lookup(m, e, v)
  }

  predicate OfSpace(o: Owner, d: int) {
    (o.Tab? || o.User?) && o.d == d
  }

  lemma SpaceFreed(m: Mem, own: Owners, m1: Mem, own1: Owners, m': Mem, own': Owners, d: int)
    requires Shrunk(m, own, m1, own1, d, 0, KERNPAGE)
    requires Inv(m', own') && own' == Tearing(own1, d, N)[d := Free]
    requires m'.tabs == m1.tabs - SpaceFrames(own1, d, 0)
    requires forall f :: f in own1 && f !in SpaceFrames(own1, d, 0) && f in m1.pages && own1[f] != Free ==> f in m'.pages && m'.pages[f] == m1.pages[f]
    ensures FreedSpace(m, own, m', own', d)
  {
    hide Inv, Lookup, Skipped;
    StillDirShrunk(m, own, m1, own1, d, 0, KERNPAGE, d);
    TearEnd(m1, own1, d);
    forall f | f in own
      ensures own'[f] == if f == d || OfSpace(own[f], d) then Free else own[f]
      ensures own'[f] != Free ==> f in m.pages && f in m'.pages && m'.pages[f] == m.pages[f]
    {
      assert FrameShrunk(m, m1, own, own1, d, 0, KERNPAGE, f);
      UserLookup(m, own, f);
      if own[f].User? && own[f].d == d {
        AlignedSkipsNothing(m.tabs[d], 0, own[f].v);
      }
      TabBounds(m1, own1, f);
    }
    forall e, v | IsDir(own', e) && IsTable(m, e) && IsTable(m', e) && 0 <= v < TOPPAGE ensures SameEntry(m, m', e, v) {
      assert IsDir(own, e) && e != d && IsDir(own1, e);
      StillDirShrunk(m, own, m1, own1, d, 0, KERNPAGE, e);
      DroppedLookup(m1, own1, d, e, v);
      SameTables(Mem(m1.free, m1.tabs - SpaceFrames(own1, d, 0), m1.pages), m', e, v);
      assert EntryShrunk(m, m1, d, 0, KERNPAGE, e, v);
    }
  }

  lemma TabBounds(m: Mem, own: Owners, f: int)
    requires Inv(m, own) && f in own
    ensures own[f].Tab? ==> 0 <= own[f].x < N
  {
    assert FrameOk(m, own, f);
  }

  lemma EmptyUserHalf(m: Mem, own: Owners, m1: Mem, own1: Owners, d: int)
    requires Shrunk(m, own, m1, own1, d, 0, KERNPAGE)
    ensures IsDir(own1, d) && IsTable(m1, d) && ClearFrom(m1, d, 0)
  {
    hide Inv, Lookup, Skipped;
    StillDirShrunk(m, own, m1, own1, d, 0, KERNPAGE, d);
    forall v | 0 <= v < KERNPAGE ensures Lookup(m1, d, v) == Absent {
      AlignedSkipsNothing(m.tabs[d], 0, v);
      assert EntryShrunk(m, m1, d, 0, KERNPAGE, d, v);
    }
  }
}
