/** New address spaces: the empty one setupkvm builds, and the copy fork makes. */
module VmCopy {
  import opened VmSpec
  import opened VmOps

  ghost predicate FrameBuilt(m: Mem, m': Mem, own: Owners, own': Owners, d: int, hi: int, f: int)
    requires f in own
  {
    && f in own'
    && (own'[f] != own[f] ==> own[f] == Free && ((f == d && own'[f] == Dir) || GoesTo(own'[f], d, 1, hi)))
    && (own[f] != Free ==> f in m.pages && f in m'.pages && m'.pages[f] == m.pages[f])
  }

  /** Directory d is new, and older directories are as before. */
  ghost predicate Beside(m: Mem, own: Owners, m': Mem, own': Owners, d: int) {
    && Inv(m, own) && Inv(m', own') && own'.Keys == own.Keys
    && d in own && own[d] == Free && IsDir(own', d) && IsTable(m', d)
    && (forall e :: IsDir(own, e) ==> IsDir(own', e) && IsTable(m, e) && IsTable(m', e))
    && (forall e, v :: IsDir(own, e) && IsTable(m, e) && IsTable(m', e) && 0 <= v < TOPPAGE ==> SameEntry(m, m', e, v))
  }

  /** Directory d was made from free frames, with user pages 1..hi on free frames too;
      older directories and the contents of frames in use are as before. */
  ghost predicate Built(m: Mem, own: Owners, m': Mem, own': Owners, d: int, hi: int) {
    Beside(m, own, m', own', d) && forall f :: f in own ==> FrameBuilt(m, m', own, own', d, hi, f)
  }

  /** A new directory, still empty. */
  lemma BuiltEmpty(m: Mem, own: Owners)
    requires Inv(m, own) && m.free != []
    ensures m.free[0] in own && own[m.free[0]] == Free
    ensures var d := m.free[0];
            var r := NewDir(Kalloc(m), d);
            && Built(m, own, r, own[d := Dir], d, 1)
            && ClearFrom(r, d, 0)
  {
    hide Inv, Lookup;
    var d := m.free[0];
    KallocKeeps(m, own);
    var a, ownA := Kalloc(m), own[d := Held];
    NewDirKeeps(a, ownA, d);
    var r, own' := NewDir(a, d), own[d := Dir];
    assert ownA[d := Dir] == own';
    forall f | f in own ensures FrameBuilt(m, r, own, own', d, 1, f) {
      FrameHasPage(m, own, f);
    }
    forall e | IsDir(own, e) ensures IsDir(own', e) && IsTable(m, e) && IsTable(r, e) {
      NewDirLookup(a, ownA, d, e, 0);
    }
    forall e, v | IsDir(own, e) && IsTable(m, e) && IsTable(r, e) && 0 <= v < TOPPAGE ensures SameEntry(m, r, e, v) {
      NewDirLookup(a, ownA, d, e, v);
      SameTables(m, a, e, v);
    }
    forall v | 0 <= v < KERNPAGE ensures Lookup(r, d, v) == Absent {
      EmptyDirLookup(r, d, v);
    }
  }

  /** A table allocated for directory d on the way. */
  lemma BesideWalk(m: Mem, own: Owners, m1: Mem, own1: Owners, b: Mem, ownB: Owners, d: int, v: int)
    requires Beside(m, own, m1, own1, d) && Grown(m1, own1, b, ownB, d, v, v)
    ensures Beside(m, own, b, ownB, d)
    ensures forall e, w :: IsDir(own1, e) && IsTable(m1, e) && IsTable(b, e) && 0 <= w < TOPPAGE ==> SameEntry(m1, b, e, w)
  {
    hide Inv, Lookup, FrameGrown;
    StillDir(m1, own1, b, ownB, d, v, v, d);
    forall e | IsDir(own, e) ensures IsDir(ownB, e) && IsTable(b, e) {
      StillDir(m1, own1, b, ownB, d, v, v, e);
    }
    forall e, w | IsDir(own1, e) && IsTable(m1, e) && IsTable(b, e) && 0 <= w < TOPPAGE ensures SameEntry(m1, b, e, w) {
      assert EntryGrown(m1, b, own1, d, v, v, e, w);
    }
    forall e, w | IsDir(own, e) && IsTable(m, e) && IsTable(b, e) && 0 <= w < TOPPAGE ensures SameEntry(m, b, e, w) {
      assert SameEntry(m, m1, e, w) && SameEntry(m1, b, e, w);
    }
  }

  /** An entry stored in the new directory's tables. */
  lemma BesideEntry(m: Mem, own: Owners, b: Mem, ownB: Owners, d: int, v: int, p: Pte, own': Owners)
    requires Beside(m, own, b, ownB, d) && 0 <= v < TOPPAGE && HasTable(b, d, v) && EntryChange(b, ownB, d, v, p, own')
    requires own'.Keys == own.Keys
    ensures IsTable(b, TableOf(b, d, v))
    ensures var r := SetEntry(b, TableOf(b, d, v), v % N, p);
            && Beside(m, own, r, own', d)
            && (forall w :: 0 <= w < TOPPAGE ==> Lookup(r, d, w) == if w == v then p else Lookup(b, d, w))
  {
    hide Inv, Lookup, EntryChange;
    SetEntryKeeps(b, ownB, d, v, p, own');
    var r := SetEntry(b, TableOf(b, d, v), v % N, p);
    forall w | 0 <= w < TOPPAGE ensures Lookup(r, d, w) == if w == v then p else Lookup(b, d, w) {
      SetEntryLookup(b, ownB, d, v, p, d, w);
    }
    forall e | IsDir(own, e) || e == d ensures IsDir(own', e) && IsTable(r, e) {
      ChangeKeepsDirs(b, ownB, d, v, p, own', e);
      DirIsTable(r, own', e);
    }
    forall e, w | IsDir(own, e) && IsTable(m, e) && IsTable(r, e) && 0 <= w < TOPPAGE ensures SameEntry(m, r, e, w) {
      SetEntryLookup(b, ownB, d, v, p, e, w);
      assert SameEntry(m, b, e, w);
    }
  }

  lemma ChangeKeepsDirs(b: Mem, ownB: Owners, d: int, v: int, p: Pte, own': Owners, e: int)
    requires Inv(b, ownB) && IsDir(ownB, d) && IsTable(b, d) && 0 <= v < TOPPAGE && EntryChange(b, ownB, d, v, p, own')
    requires IsDir(ownB, e)
    ensures IsDir(own', e)
  {
    if v < KERNPAGE {
      assert PteOk(b, ownB, d, v);
    }
  }

  /** A kernel page mapped in a new directory. */
  lemma BuiltKernelPage(m: Mem, own: Owners, m1: Mem, own1: Owners, b: Mem, ownB: Owners, d: int, v: int, p: Pte)
    requires Built(m, own, m1, own1, d, 1) && ClearFrom(m1, d, 0) && Grown(m1, own1, b, ownB, d, v, v)
    requires KERNPAGE <= v < TOPPAGE && IsTable(b, d) && HasTable(b, d, v)
    ensures IsTable(b, TableOf(b, d, v))
    ensures var r := SetEntry(b, TableOf(b, d, v), v % N, p);
            Built(m, own, r, ownB, d, 1) && ClearFrom(r, d, 0)
  {
    hide Inv, Lookup;
    BesideWalk(m, own, m1, own1, b, ownB, d, v);
    BesideEntry(m, own, b, ownB, d, v, p, ownB);
    var r := SetEntry(b, TableOf(b, d, v), v % N, p);
    forall f | f in own ensures FrameBuilt(m, r, own, ownB, d, 1, f) {
      assert FrameBuilt(m, m1, own, own1, d, 1, f) && FrameGrown(m1, b, own1, ownB, d, v, v, f);
    }
    forall w | 0 <= w < KERNPAGE ensures Lookup(r, d, w) == Absent {
      assert SameEntry(m1, b, d, w);
    }
  }

  // ---------- fork's copy ----------

  /** Page v of directory d holds the same bytes with the same flags as page v of s,
      on a frame of its own. */
  ghost predicate CopyPage(m: Mem, s: int, d: int, v: int)
    requires IsTable(m, s) && IsTable(m, d) && 0 <= v < TOPPAGE
  {
    var p, q := Lookup(m, s, v), Lookup(m, d, v);
    && p.Pte? && q.Pte? && q.flags == p.flags && q.frame != p.frame
    && p.frame in m.pages && q.frame in m.pages && m.pages[q.frame] == m.pages[p.frame]
  }

  ghost predicate ChildEntry(m: Mem, s: int, d: int, hi: int, v: int)
    requires IsTable(m, s) && IsTable(m, d) && 0 <= v < TOPPAGE
  {
    if 1 <= v < hi then CopyPage(m, s, d, v) else Lookup(m, d, v) == Absent
  }

  ghost predicate Copied(m: Mem, own: Owners, m': Mem, own': Owners, s: int, d: int, hi: int) {
    && Built(m, own, m', own', d, hi) && IsDir(own, s) && IsTable(m, s) && IsTable(m', s)
    && (forall v :: 0 <= v < KERNPAGE ==> ChildEntry(m', s, d, hi, v))
  }

  lemma CopiedNothing(m: Mem, own: Owners, m': Mem, own': Owners, s: int, d: int)
    requires Built(m, own, m', own', d, 1) && ClearFrom(m', d, 0) && IsDir(own, s)
    ensures Copied(m, own, m', own', s, d, 1)
  {
    hide Inv, Lookup;
  }

  /** The frame kalloc returned, filled with a copy of frame src. */
  function Duplicated(m: Mem, src: int): (r: Mem)
    requires m.free != [] && src in m.pages
  {
    Mem(m.free[1..], m.tabs, m.pages[m.free[0] := m.pages[src]])
  }

  lemma DuplicatedKeeps(m: Mem, own: Owners, src: int)
    requires Inv(m, own) && m.free != [] && src in m.pages
    ensures m.free[0] in own && own[m.free[0]] == Free
    ensures Inv(Duplicated(m, src), own[m.free[0] := Held])
  {
    hide Inv;
    KallocKeeps(m, own);
    PagesAside(Kalloc(m), own[m.free[0] := Held], m.free[0], m.pages[src]);
  }

  /** Holding a frame aside changes no flat map. */
  lemma BesideHeld(m: Mem, own: Owners, m1: Mem, own1: Owners, d: int, src: int)
    requires Beside(m, own, m1, own1, d) && m1.free != [] && src in m1.pages
    ensures m1.free[0] in own1 && own1[m1.free[0]] == Free
    ensures Beside(m, own, Duplicated(m1, src), own1[m1.free[0] := Held], d)
  {
    hide Inv, Lookup;
    DuplicatedKeeps(m1, own1, src);
    var a := Duplicated(m1, src);
    forall e, v | IsDir(own, e) && IsTable(m, e) && IsTable(a, e) && 0 <= v < TOPPAGE ensures SameEntry(m, a, e, v) {
      SameTables(m1, a, e, v);
      assert SameEntry(m, m1, e, v);
    }
  }

  /** One page of copyuvm's loop. */
  lemma PageCopied(m: Mem, own: Owners, m1: Mem, own1: Owners, b: Mem, ownB: Owners, s: int, d: int, v: int)
    requires Copied(m, own, m1, own1, s, d, v) && 1 <= v < KERNPAGE && m1.free != [] && m1.free[0] in own1
    requires Lookup(m1, s, v).Pte? && Lookup(m1, s, v).frame in m1.pages
    requires Grown(Duplicated(m1, Lookup(m1, s, v).frame), own1[m1.free[0] := Held], b, ownB, d, v, v)
    requires IsTable(b, d) && HasTable(b, d, v) && Lookup(b, d, v) == Absent
    ensures IsTable(b, TableOf(b, d, v))
    ensures var f := m1.free[0];
            Copied(m, own, SetEntry(b, TableOf(b, d, v), v % N, Pte(f, Lookup(m1, s, v).flags)), ownB[f := User(d, v)], s, d, v + 1)
  {
    hide Inv, Lookup, ChildEntry;
    var f, src, flags, hi := m1.free[0], Lookup(m1, s, v).frame, Lookup(m1, s, v).flags, v + 1;
    var a, ownA, own' := Duplicated(m1, src), own1[f := Held], ownB[f := User(d, v)];
    BesideHeld(m, own, m1, own1, d, src);
    BesideWalk(m, own, a, ownA, b, ownB, d, v);
    assert FrameGrown(a, b, ownA, ownB, d, v, v, f);
    BesideEntry(m, own, b, ownB, d, v, Pte(f, flags), own');
    var r := SetEntry(b, TableOf(b, d, v), v % N, Pte(f, flags));
    forall g | g in own ensures FrameBuilt(m, r, own, own', d, hi, g) {
      assert FrameBuilt(m, m1, own, own1, d, v, g) && FrameGrown(a, b, ownA, ownB, d, v, v, g);
    }
    forall w | 0 <= w < KERNPAGE ensures ChildEntry(r, s, d, hi, w) {
      assert SameEntry(a, b, s, w) && SameEntry(a, b, d, w) && SameEntry(m, m1, s, w) && SameEntry(m, r, s, w);
      SameTables(m1, a, s, w);
      SameTables(m1, a, d, w);
      EntryCopied(m1, own1, b, ownB, s, d, v, r, w);
    }
  }

  lemma EntryCopied(m1: Mem, own1: Owners, b: Mem, ownB: Owners, s: int, d: int, v: int, r: Mem, w: int)
    requires Inv(m1, own1) && IsDir(own1, s) && IsDir(own1, d) && IsTable(m1, s) && IsTable(m1, d) && s != d
    requires 1 <= v < KERNPAGE && 0 <= w < KERNPAGE && m1.free != [] && m1.free[0] in own1 && own1[m1.free[0]] == Free
    requires Lookup(m1, s, v).Pte? && Lookup(m1, s, v).frame in m1.pages
    requires Grown(Duplicated(m1, Lookup(m1, s, v).frame), own1[m1.free[0] := Held], b, ownB, d, v, v)
    requires r.pages == b.pages && IsTable(r, s) && IsTable(r, d) && ChildEntry(m1, s, d, v, w)
    requires Lookup(r, s, w) == Lookup(m1, s, w)
    requires Lookup(r, d, w) == if w == v then Pte(m1.free[0], Lookup(m1, s, v).flags) else Lookup(m1, d, w)
    ensures ChildEntry(r, s, d, v + 1, w)
  {
    hide Inv, Lookup;
    var f := m1.free[0];
    var a, ownA := Duplicated(m1, Lookup(m1, s, v).frame), own1[f := Held];
    FreshIsUser(m1, own1, s, w);
    FreshIsUser(m1, own1, d, w);
    assert FrameGrown(a, b, ownA, ownB, d, v, v, f);
    if Lookup(m1, s, w).Pte? {
      assert FrameGrown(a, b, ownA, ownB, d, v, v, Lookup(m1, s, w).frame);
    }
    if Lookup(m1, d, w).Pte? {
      assert FrameGrown(a, b, ownA, ownB, d, v, v, Lookup(m1, d, w).frame);
    }
  }
}
