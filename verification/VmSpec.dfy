/** Physical frames and two-level page tables as values: who holds each frame, and how
    the tables refine a flat map from virtual pages to entries. */
module VmSpec {
  import opened Seqs

  const N: nat := 1024           // entries per table
  const PGSIZE := 4096
  const KERNPAGE := 0x80000      // KERNBASE / PGSIZE; user pages lie below it
  const TOPPAGE := 0x100000      // the 32-bit address space

  const KERNBASE := 0x80000000

  /** PGROUNDUP(sz) / PGSIZE. */
  function Pages(sz: int): (p: int)
    requires 0 <= sz
    ensures 0 <= p && (p - 1) * PGSIZE < sz <= p * PGSIZE
  {
    (sz + PGSIZE - 1) / PGSIZE
  }

  datatype Pte = Absent | Pte(frame: int, flags: int)
  datatype Table = Table(e: seq<Pte>)
  datatype Page = Page(bytes: seq<int>)

  const W := 2                   // PTE_W
  const U := 4                   // PTE_U

  function NoEntries(): (t: Table)
    ensures |t.e| == N && forall y :: 0 <= y < N ==> t.e[y] == Absent
  {
    Table(seq(N, _ => Absent))
  }

  function Filled(x: int): (p: Page)
    ensures |p.bytes| == PGSIZE && forall k :: 0 <= k < PGSIZE ==> p.bytes[k] == x
  {
    Page(seq(PGSIZE, _ => x))
  }

  /** The free list, the frames used as directories or tables, and the bytes of the
      other frames. */
  datatype Mem = Mem(free: seq<int>, tabs: map<int, Table>, pages: map<int, Page>)

  /** Free; held by whoever called kalloc; a page directory; the table behind entry x
      of directory d; or mapped at user page v of directory d. */
  datatype Owner = Free | Held | Dir | Tab(d: int, x: int) | User(d: int, v: int)

  type Owners = map<int, Owner>

  predicate IsTable(m: Mem, t: int) {
    t in m.tabs && |m.tabs[t].e| == N
  }

  /** The entry for virtual page v: through the directory, then the table. */
  function Lookup(m: Mem, d: int, v: int): Pte
    requires IsTable(m, d) && 0 <= v < TOPPAGE
  {
    var pde := m.tabs[d].e[v / N];
    if pde.Pte? && IsTable(m, pde.frame) then m.tabs[pde.frame].e[v % N] else Absent
  }

  predicate IsDir(own: Owners, d: int) { d in own && own[d] == Dir }

  // ---------- the invariant, frame by frame and entry by entry ----------

  ghost predicate FrameOk(m: Mem, own: Owners, f: int)
    requires f in own
  {
    && (own[f] == Free <==> f in m.free)
    && (own[f].Dir? || own[f].Tab? <==> f in m.tabs)
    && (f in m.tabs ==> IsTable(m, f))
    && (own[f].Tab? ==> TabOk(m, own, f, own[f].d, own[f].x))
    && (own[f].User? ==> UserOk(m, own, f, own[f].d, own[f].v))
    && f in m.pages
  }

  predicate TabOk(m: Mem, own: Owners, f: int, d: int, x: int) {
    IsDir(own, d) && IsTable(m, d) && 0 <= x < N && m.tabs[d].e[x].Pte? && m.tabs[d].e[x].frame == f
  }

  predicate UserOk(m: Mem, own: Owners, f: int, d: int, v: int) {
    IsDir(own, d) && IsTable(m, d) && 0 <= v < KERNPAGE && Lookup(m, d, v).Pte? && Lookup(m, d, v).frame == f
  }

  ghost predicate PdeOk(m: Mem, own: Owners, d: int, x: int)
    requires IsTable(m, d) && 0 <= x < N
  {
    var p := m.tabs[d].e[x];
    p.Pte? ==> p.frame in own && own[p.frame] == Tab(d, x) && p.flags == W + U
  }

  ghost predicate PteOk(m: Mem, own: Owners, d: int, v: int)
    requires IsTable(m, d) && 0 <= v < KERNPAGE
  {
    var p := Lookup(m, d, v);
    p.Pte? ==> p.frame in own && own[p.frame] == User(d, v)
  }

  /** The managed frames are partitioned: each is free, held, a directory, the table of
      exactly one directory entry, or mapped at exactly one user page. */
  ghost predicate Inv(m: Mem, own: Owners) {
    && Distinct(m.free)
    && (forall f :: f in m.free ==> f in own)
    && (forall f :: f in m.tabs ==> f in own)
    && (forall f :: f in own ==> FrameOk(m, own, f))
    && (forall d, x :: IsDir(own, d) && 0 <= x < N && IsTable(m, d) ==> PdeOk(m, own, d, x))
    && (forall d, v :: IsDir(own, d) && 0 <= v < KERNPAGE && IsTable(m, d) ==> PteOk(m, own, d, v))
  }

  lemma DirIsTable(m: Mem, own: Owners, d: int)
    requires Inv(m, own) && IsDir(own, d)
    ensures IsTable(m, d)
  {
    assert FrameOk(m, own, d);
  }

  // ---------- frames ----------

  function Kalloc(m: Mem): (r: Mem)
    requires m.free != []
  {
    Mem(m.free[1..], m.tabs, m.pages)
  }

  /** The frame goes to the head of the list, filled with junk. */
  function Kfree(m: Mem, f: int): (r: Mem) {
    Mem([f] + m.free, m.tabs - {f}, m.pages[f := Filled(1)])
  }

  lemma SameTables(m: Mem, r: Mem, d: int, v: int)
    requires r.tabs == m.tabs && IsTable(m, d) && 0 <= v < TOPPAGE
    ensures IsTable(r, d) && Lookup(r, d, v) == Lookup(m, d, v)
  {
  }

  lemma KallocKeeps(m: Mem, own: Owners)
    requires Inv(m, own) && m.free != []
    ensures m.free[0] in own && own[m.free[0]] == Free && m.free[0] in m.pages
    ensures Inv(Kalloc(m), own[m.free[0] := Held])
  {
    var f, r := m.free[0], Kalloc(m);
    var own' := own[f := Held];
    assert f in m.free;
    assert FrameOk(m, own, f);
    forall g | g in own' ensures FrameOk(r, own', g) {
      assert FrameOk(m, own, g);
      assert g in r.free <==> g in m.free && g != f;
    }
    forall d, x | IsDir(own', d) && 0 <= x < N && IsTable(r, d) ensures PdeOk(r, own', d, x) {
      assert IsDir(own, d) && PdeOk(m, own, d, x);
    }
    forall d, v | IsDir(own', d) && 0 <= v < KERNPAGE && IsTable(r, d) ensures PteOk(r, own', d, v) {
      assert IsDir(own, d) && PteOk(m, own, d, v);
    }
  }

  lemma KfreeKeeps(m: Mem, own: Owners, f: int)
    requires Inv(m, own) && f in own && own[f] == Held
    ensures Kfree(m, f).tabs == m.tabs
    ensures Inv(Kfree(m, f), own[f := Free])
  {
    var r, own' := Kfree(m, f), own[f := Free];
    assert FrameOk(m, own, f);
    assert r.tabs == m.tabs;
    forall g | g in own' ensures FrameOk(r, own', g) {
      assert FrameOk(m, own, g);
    }
    forall d, x | IsDir(own', d) && 0 <= x < N && IsTable(r, d) ensures PdeOk(r, own', d, x) {
      assert IsDir(own, d) && PdeOk(m, own, d, x);
    }
    forall d, v | IsDir(own', d) && 0 <= v < KERNPAGE && IsTable(r, d) ensures PteOk(r, own', d, v) {
      assert IsDir(own, d) && PteOk(m, own, d, v);
    }
  }

  // ---------- tables ----------

  /** A held frame becomes an empty directory. */
  function NewDir(m: Mem, d: int): (r: Mem) {
    Mem(m.free, m.tabs[d := NoEntries()], m.pages)
  }

  /** A held frame becomes an empty table behind entry x of directory d. */
  function NewTable(m: Mem, d: int, x: int, t: int): (r: Mem)
    requires IsTable(m, d) && 0 <= x < N && t != d
  {
    Mem(m.free, m.tabs[t := NoEntries()][d := Table(m.tabs[d].e[x := Pte(t, W + U)])], m.pages)
  }

  /** Store an entry in a table. */
  function SetEntry(m: Mem, t: int, y: int, p: Pte): (r: Mem)
    requires IsTable(m, t) && 0 <= y < N
  {
    Mem(m.free, m.tabs[t := Table(m.tabs[t].e[y := p])], m.pages)
  }

  /** The table for page v, where there is one. */
  predicate HasTable(m: Mem, d: int, v: int)
    requires IsTable(m, d) && 0 <= v < TOPPAGE
  {
    m.tabs[d].e[v / N].Pte?
  }

  function TableOf(m: Mem, d: int, v: int): int
    requires IsTable(m, d) && 0 <= v < TOPPAGE && HasTable(m, d, v)
  {
    m.tabs[d].e[v / N].frame
  }

  lemma TableIsOwned(m: Mem, own: Owners, d: int, v: int)
    requires Inv(m, own) && IsDir(own, d) && 0 <= v < TOPPAGE
    ensures IsTable(m, d)
    ensures HasTable(m, d, v) ==>
              && IsTable(m, TableOf(m, d, v)) && TableOf(m, d, v) in own && own[TableOf(m, d, v)] == Tab(d, v / N)
              && Lookup(m, d, v) == m.tabs[TableOf(m, d, v)].e[v % N]
    ensures !HasTable(m, d, v) ==> Lookup(m, d, v) == Absent
  {
    DirIsTable(m, own, d);
    assert PdeOk(m, own, d, v / N);
    if HasTable(m, d, v) {
      assert FrameOk(m, own, TableOf(m, d, v));
    }
  }

  lemma SplitPage(v: int, v': int)
    requires v / N == v' / N && v % N == v' % N
    ensures v == v'
  {
  }

  /** Storing an entry changes the flat map at that one page of that one directory. */
  lemma SetEntryLookup(m: Mem, own: Owners, d: int, v: int, p: Pte, d': int, v': int)
    requires Inv(m, own) && IsDir(own, d) && IsDir(own, d') && 0 <= v < TOPPAGE && 0 <= v' < TOPPAGE
    requires IsTable(m, d) && HasTable(m, d, v)
    ensures IsTable(m, TableOf(m, d, v))
    ensures var r := SetEntry(m, TableOf(m, d, v), v % N, p);
            IsTable(r, d') && Lookup(r, d', v') == if d' == d && v' == v then p else Lookup(m, d', v')
  {
    hide Inv;
    TableIsOwned(m, own, d, v);
    TableIsOwned(m, own, d', v');
    if v / N == v' / N && v % N == v' % N {
      SplitPage(v, v');
    }
  }

  /** A new empty table changes nothing in any flat map. */
  lemma NewTableLookup(m: Mem, own: Owners, d: int, x: int, t: int, d': int, v': int)
    requires Inv(m, own) && IsDir(own, d) && IsDir(own, d') && 0 <= v' < TOPPAGE && 0 <= x < N
    requires t in own && own[t] == Held && IsTable(m, d) && m.tabs[d].e[x] == Absent
    ensures IsTable(m, d') && IsTable(NewTable(m, d, x, t), d')
    ensures Lookup(NewTable(m, d, x, t), d', v') == Lookup(m, d', v')
  {
    TableIsOwned(m, own, d', v');
    assert FrameOk(m, own, t);
  }

  lemma NewDirLookup(m: Mem, own: Owners, d: int, d': int, v': int)
    requires Inv(m, own) && IsDir(own, d') && 0 <= v' < TOPPAGE && d in own && own[d] == Held
    ensures IsTable(m, d') && IsTable(NewDir(m, d), d')
    ensures Lookup(NewDir(m, d), d', v') == Lookup(m, d', v')
    ensures IsTable(NewDir(m, d), d) && Lookup(NewDir(m, d), d, v') == Absent
  {
    TableIsOwned(m, own, d', v');
    assert FrameOk(m, own, d);
  }

  // ---------- each change keeps the partition ----------

  lemma NewDirKeeps(m: Mem, own: Owners, d: int)
    requires Inv(m, own) && d in own && own[d] == Held
    ensures Inv(NewDir(m, d), own[d := Dir])
  {
    hide Lookup;
    var r, own' := NewDir(m, d), own[d := Dir];
    assert FrameOk(m, own, d);
    forall f | f in own' ensures FrameOk(r, own', f) {
      assert FrameOk(m, own, f);
      if own[f].User? {
        NewDirLookup(m, own, d, own[f].d, own[f].v);
      }
    }
    forall e, x | IsDir(own', e) && 0 <= x < N && IsTable(r, e) ensures PdeOk(r, own', e, x) {
      if e != d {
        assert IsDir(own, e) && FrameOk(m, own, e) && PdeOk(m, own, e, x);
      }
    }
    forall e, v | IsDir(own', e) && 0 <= v < KERNPAGE && IsTable(r, e) ensures PteOk(r, own', e, v) {
      if e != d {
        NewDirLookup(m, own, d, e, v);
        assert PteOk(m, own, e, v);
      } else {
        EmptyDirLookup(r, d, v);
      }
    }
  }

  lemma EmptyDirLookup(m: Mem, d: int, v: int)
    requires d in m.tabs && m.tabs[d] == NoEntries() && 0 <= v < TOPPAGE
    ensures IsTable(m, d) && Lookup(m, d, v) == Absent
  {
  }

  lemma NewTableKeeps(m: Mem, own: Owners, d: int, x: int, t: int)
    requires Inv(m, own) && IsDir(own, d) && 0 <= x < N && t in own && own[t] == Held
    requires IsTable(m, d) && m.tabs[d].e[x] == Absent
    ensures Inv(NewTable(m, d, x, t), own[t := Tab(d, x)])
  {
    hide Lookup;
    var r, own' := NewTable(m, d, x, t), own[t := Tab(d, x)];
    assert FrameOk(m, own, t) && FrameOk(m, own, d);
    forall f | f in own' ensures FrameOk(r, own', f) {
      assert FrameOk(m, own, f);
      if own[f].User? {
        NewTableLookup(m, own, d, x, t, own[f].d, own[f].v);
      }
    }
    forall e, x' | IsDir(own', e) && 0 <= x' < N && IsTable(r, e) ensures PdeOk(r, own', e, x') {
      assert IsDir(own, e) && FrameOk(m, own, e) && PdeOk(m, own, e, x');
    }
    forall e, v | IsDir(own', e) && 0 <= v < KERNPAGE && IsTable(r, e) ensures PteOk(r, own', e, v) {
      NewTableLookup(m, own, d, x, t, e, v);
      assert PteOk(m, own, e, v);
    }
  }

  /** The table store itself: frames other than the user frames involved. */
  lemma SetEntryKeeps(m: Mem, own: Owners, d: int, v: int, p: Pte, own': Owners)
    requires Inv(m, own) && IsDir(own, d) && 0 <= v < TOPPAGE && IsTable(m, d) && HasTable(m, d, v)
    requires EntryChange(m, own, d, v, p, own')
    ensures IsTable(m, TableOf(m, d, v))
    ensures Inv(SetEntry(m, TableOf(m, d, v), v % N, p), own')
  {
    hide Lookup;
    TableIsOwned(m, own, d, v);
    var t := TableOf(m, d, v);
    var r := SetEntry(m, t, v % N, p);
    if v < KERNPAGE {
      assert PteOk(m, own, d, v);
      if Lookup(m, d, v).Pte? {
        assert FrameOk(m, own, Lookup(m, d, v).frame);
      } else if p.Pte? {
        assert FrameOk(m, own, p.frame);
      }
    }
    forall f | f in own' ensures FrameOk(r, own', f) {
      assert FrameOk(m, own, f);
      if own'[f].User? {
        SetEntryLookup(m, own, d, v, p, own'[f].d, own'[f].v);
      }
    }
    forall e, x | IsDir(own', e) && 0 <= x < N && IsTable(r, e) ensures PdeOk(r, own', e, x) {
      assert IsDir(own, e) && FrameOk(m, own, e) && PdeOk(m, own, e, x);
    }
    forall e, w | IsDir(own', e) && 0 <= w < KERNPAGE && IsTable(r, e) ensures PteOk(r, own', e, w) {
      DirIsTable(m, own, e);
      SetEntryLookup(m, own, d, v, p, e, w);
      assert PteOk(m, own, e, w);
    }
  }

  /** A user page gains a held frame, loses its frame to the caller, or keeps it with
      other flags; a kernel page may change freely. */
  ghost predicate EntryChange(m: Mem, own: Owners, d: int, v: int, p: Pte, own': Owners)
    requires IsTable(m, d) && 0 <= v < TOPPAGE
  {
    var was := Lookup(m, d, v);
    if v >= KERNPAGE then own' == own
    else if was == Absent && p.Pte? then p.frame in own && own[p.frame] == Held && own' == own[p.frame := User(d, v)]
    else if was.Pte? && p == Absent then was.frame in own && own' == own[was.frame := Held]
    else own' == own && (was.Pte? <==> p.Pte?) && (was.Pte? ==> was.frame == p.frame)
  }
}
