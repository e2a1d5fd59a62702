/** vm.c and kalloc.c as they run: the free list, the table frames, and the loops over
    pages. */
module Vm {
  import opened VmSpec
  import opened VmOps
  import opened VmCopy
  import opened Spaces

  class Memory {
    var free: seq<int>             // kmem.freelist
    var tabs: map<int, Table>
    var pages: map<int, Page>
    ghost var own: Owners

    ghost function State(): Mem
      reads this
    {
      Mem(free, tabs, pages)
    }

    ghost predicate Valid()
      reads this
    {
      Inv(State(), own)
    }

    constructor ()
      ensures Valid() && own == map[] && free == []
    {
      free, tabs, pages, own := [], map[], map[], map[];
    }

    // ---------- kalloc.c ----------

    method Kfree(f: int)
      modifies this`free, this`tabs, this`pages
      ensures State() == VmSpec.Kfree(old(State()), f)
    {
      free, tabs, pages := [f] + free, tabs - {f}, pages[f := Filled(1)];
    }

    method Kalloc() returns (ok: bool, f: int)
      modifies this`free
      ensures ok <==> old(free) != []
      ensures if ok then f == old(free)[0] && State() == VmSpec.Kalloc(old(State())) else State() == old(State())
    {
      if free == [] {
        return false, 0;
      }
      f := free[0];
      free := free[1..];
      return true, f;
    }

    /** Put the frames lo..hi, new to the allocator, on the free list. */
    method Freerange(lo: int, hi: int)
      requires Valid() && lo <= hi && forall f :: lo <= f < hi ==> f !in own
      modifies this
      ensures Valid()
      ensures forall f :: f in own <==> f in old(own) || lo <= f < hi
      ensures forall f :: f in own ==> own[f] == if f in old(own) then old(own)[f] else Free
    {
      hide Inv;
      var p := lo;
      while p < hi
        invariant lo <= p <= hi && Valid()
        invariant forall f :: f in own <==> f in old(own) || lo <= f < p
        invariant forall f :: f in own ==> own[f] == if f in old(own) then old(own)[f] else Free
      {
        NewFrame(State(), own, p);
        Kfree(p);
        own := own[p := Free];
        p := p + 1;
      }
    }

    // ---------- vm.c ----------

    /** The table for page v; with alloc, made if missing. */
    method Walkpgdir(d: int, v: int, alloc: bool) returns (ok: bool, t: int)
      requires Valid() && IsDir(own, d) && 0 <= v < TOPPAGE
      modifies this
      ensures Grown(old(State()), old(own), State(), own, d, v, v) && IsDir(own, d) && IsTable(State(), d)
      ensures ok ==> HasTable(State(), d, v) && t == TableOf(State(), d, v) && IsTable(State(), t)
      ensures !ok ==> State() == old(State()) && own == old(own) && !HasTable(State(), d, v) && (alloc ==> free == [])
      ensures !alloc ==> State() == old(State()) && own == old(own)
      ensures ok ==> Tables(State(), d) == Tables(old(State()), d) + {v / N}
      ensures |free| == |old(free)| - (if ok && v / N !in Tables(old(State()), d) then 1 else 0)
    {
      hide Inv, Lookup, FrameGrown, EntryGrown;
      TableIsOwned(State(), own, d, v);
      GrownRefl(State(), own, d, v);
      var pde := tabs[d].e[v / N];
      if pde.Pte? {
        return true, pde.frame;
      }
      if !alloc || free == [] {
        return false, 0;
      }
      WalkGrows(State(), own, d, v, v);
      StillDir(State(), own, NewTable(VmSpec.Kalloc(State()), d, v / N, free[0]), own[free[0] := Tab(d, v / N)], d, v, v, d);
      var got;
      got, t := Kalloc();
      tabs := tabs[t := NoEntries()][d := Table(tabs[d].e[v / N := Pte(t, W + U)])];
      own := own[t := Tab(d, v / N)];
      TableIsOwned(State(), own, d, v);
      return true, t;
    }
  
    /** One round of mappages: an entry for page v, with a table made for it if need
        be; the caller accounts for the frame. */
    method MapPage(d: int, v: int, f: int, flags: int) returns (r: Mapping, ghost b: Mem)
      requires Valid() && IsDir(own, d) && 0 <= v < TOPPAGE
      modifies this
      ensures Grown(old(State()), old(own), b, own, d, v, v) && IsTable(b, d)
      ensures r == NoTable ==> b == State() == old(State()) && own == old(own) && |free| < Frames(Tables(State(), d), v) == 1
      ensures r == Remap ==> b == State() && Lookup(b, d, v).Pte?
      ensures r == MapDone ==> HasTable(b, d, v) && IsTable(b, TableOf(b, d, v)) && Lookup(b, d, v) == Absent
      ensures r == MapDone ==> State() == SetEntry(b, TableOf(b, d, v), v % N, Pte(f, flags))
      ensures r == MapDone ==> Tables(State(), d) == Tables(old(State()), d) + {v / N}
      ensures r == MapDone ==> |free| == |old(free)| - Frames(Tables(old(State()), d), v)
    {
      hide Inv, FrameGrown, EntryGrown;
      var ok, t := Walkpgdir(d, v, true);
      b := State();
      if !ok {
        return NoTable, b;
      }
      if tabs[t].e[v % N].Pte? {
        return Remap, b;
      }
      TableIsOwned(b, own, d, v);
      tabs := tabs[t := Table(tabs[t].e[v % N := Pte(f, flags)])];
      return MapDone, b;
    }
  
    /** One round of deallocuvm's loop; `skip` says page p has no table. */
    method DeallocStep(d: int, p: int, ghost m0: Mem, ghost own0: Owners, ghost lo: int, ghost hi: int) returns (skip: bool)
      requires Valid() && IsDir(own, d) && Shrunk(m0, own0, State(), own, d, lo, p)
      requires WalkAt(m0.tabs[d], lo, p) && p < hi <= KERNPAGE
      modifies this
      ensures Valid() && IsDir(own, d)
      ensures var q := if skip then p + N else p + 1;
              && Shrunk(m0, own0, State(), own, d, lo, if q < hi then q else hi)
              && (q < hi ==> WalkAt(m0.tabs[d], lo, q))
    {
      hide Inv, Lookup, FrameShrunk, EntryShrunk, WalkAt, Skipped, Grown;
      WalkBounds(m0.tabs[d], lo, p);
      var ok, t := Walkpgdir(d, p, false);
      if !ok {
        NoTableStep(m0, own0, State(), own, d, lo, p, hi);
        return true;
      }
      TableIsOwned(State(), own, d, p);
      WalkOn(m0, own0, State(), own, d, lo, p, hi);
      var pte := tabs[t].e[p % N];
      if pte.Pte? {
        ShrunkOne(m0, own0, State(), own, d, lo, p);
        EvictKeeps(State(), own, d, p);
        EvictLookup(State(), own, d, p, d, p);
        Kfree(pte.frame);
        tabs := tabs[t := Table(tabs[t].e[p % N := Absent])];
        own := own[pte.frame := Free];
      }
      return false;
    }

    /** Unmap and free the pages from newsz up to oldsz. */
    method Deallocuvm(d: int, oldsz: int, newsz: int) returns (r: int)
      requires Valid() && IsDir(own, d) && 0 <= newsz && 0 <= oldsz <= KERNBASE
      modifies this
      ensures r == if newsz >= oldsz then oldsz else newsz
      ensures newsz >= oldsz ==> State() == old(State()) && own == old(own)
      ensures newsz < oldsz ==> Shrunk(old(State()), old(own), State(), own, d, Pages(newsz), Pages(oldsz))
    {
      hide Inv, Lookup, FrameShrunk, EntryShrunk, WalkAt, Skipped;
      if newsz >= oldsz {
        return oldsz;
      }
      ghost var m0, own0, lo, hi := State(), own, Pages(newsz), Pages(oldsz);
      DirIsTable(m0, own, d);
      ghost var dir := m0.tabs[d];
      ShrunkRefl(m0, own, d, lo);
      WalkStart(dir, lo);
      var p := Pages(newsz);
      var a := p * PGSIZE;
      while a < oldsz
        invariant a == p * PGSIZE && lo <= p
        invariant Shrunk(m0, own0, State(), own, d, lo, if p < hi then p else hi)
        invariant p < hi ==> WalkAt(dir, lo, p)
        decreases oldsz - a
      {
        StillDirShrunk(m0, own0, State(), own, d, lo, p, d);
        var skip := DeallocStep(d, p, m0, own0, lo, hi);
        p := if skip then p + N else p + 1;
        a := if skip then a + (N - 1) * PGSIZE + PGSIZE else a + PGSIZE;
      }
      return newsz;
    }
  
    /** One round of allocuvm's loop: a zeroed frame at page p.  When no table can be
        made for it the frame is left in the caller's hands. */
    method AllocStep(d: int, p: int) returns (r: Allocation, f: int)
      requires Valid() && IsDir(own, d) && 0 <= p < KERNPAGE && IsTable(State(), d) && Lookup(State(), d, p) == Absent
      modifies this
      ensures Valid()
      ensures r == Added ==> Grown(old(State()), old(own), State(), own, d, p, p + 1)
      ensures r == OutOfFrames ==> State() == old(State()) && own == old(own)
      ensures r == OutOfTables ==>
                && old(free) != [] && f == old(free)[0] && f in old(own) && old(own)[f] == Free
                && State() == Cleared(old(State())) && own == old(own)[f := Held]
      ensures r == Added <==> 1 + Frames(Tables(old(State()), d), p) <= |old(free)|
      ensures r == Added ==> Tables(State(), d) == Tables(old(State()), d) + {p / N}
      ensures r == Added ==> |free| == |old(free)| - 1 - Frames(Tables(old(State()), d), p)
    {
      hide Inv, Lookup, Grown, FrameGrown, Tables;
      ghost var m, own0 := State(), own;
      var ok;
      ok, f := Kalloc();
      if !ok {
        return OutOfFrames, 0;
      }
      ClearedKeeps(m, own);
      pages := pages[f := Filled(0)];
      own := own[f := Held];
      TablesKept(m, State(), d);
      ghost var mA, ownA := State(), own;
      var res, b := MapPage(d, p, f, W + U);
      if res == NoTable {
        return OutOfTables, f;
      }
      StillAbsent(m, mA, ownA, b, own, d, p);
      PageMapped(m, own0, b, own, d, p);
      own := own[f := User(d, p)];
      GrownValid(m, own0, State(), own, d, p, p + 1);
      return Added, f;
    }

    /** Grow an address space from oldsz to newsz.  It fails exactly when there are too
        few free frames for the pages and the tables they need, and then every user
        frame taken is given back. */
    method Allocuvm(d: int, oldsz: int, newsz: int) returns (r: int, ghost grew: bool)
      requires Valid() && IsDir(own, d) && 0 <= oldsz && 0 <= newsz
      requires IsTable(State(), d) && ClearFrom(State(), d, Pages(oldsz))
      modifies this
      ensures r == if newsz >= KERNBASE then 0 else if newsz < oldsz then oldsz else if grew then newsz else 0
      ensures grew <==>
                oldsz <= newsz < KERNBASE && Need(Tables(old(State()), d), Pages(oldsz), Pages(newsz)) <= |old(free)|
      ensures Grown(old(State()), old(own), State(), own, d, Pages(oldsz), if grew then Pages(newsz) else Pages(oldsz))
      ensures grew ==> Took(old(State()), State(), d, Pages(oldsz), Pages(newsz))
      ensures newsz < oldsz && newsz < KERNBASE ==> State() == old(State())
    {
      hide Inv, Lookup, Grown, ClearFrom, Shrunk, FrameGrown, EntryGrown, Tables, Need, Frames, Spanned;
      ghost var m0, own0, lo, hi := State(), own, Pages(oldsz), Pages(newsz);
      GrownRefl(m0, own, d, lo);
      if newsz >= KERNBASE {
        return 0, false;
      }
      if newsz < oldsz {
        return oldsz, false;
      }
      NeedNothing(Tables(m0, d), lo);
      var p := Pages(oldsz);
      var a := p * PGSIZE;
      while a < newsz
        invariant a == p * PGSIZE && lo <= p <= hi
        invariant Valid() && Grown(m0, own0, State(), own, d, lo, p)
        invariant |free| - Need(Tables(State(), d), p, hi) == |m0.free| - Need(Tables(m0, d), lo, hi)
        invariant Tables(State(), d) == Tables(m0, d) + Spanned(lo, p)
      {
        NeedStep(Tables(State(), d), p, hi);
        SpannedStep(lo, p);
        StillClear(m0, own0, State(), own, d, lo, p);
        ghost var m1, own1 := State(), own;
        var res, f := AllocStep(d, p);
        if res != Added {
          ghost var mA, ownA := State(), own;
          var back := Deallocuvm(d, newsz, oldsz);
          ghost var mB, ownB := State(), own;
          if res == OutOfTables {
            ShrunkAside(m1, own1, mB, ownB, d, lo, hi);
            Kfree(f);
            own := own[f := Free];
          }
          UndoGrow(m0, own0, m1, own1, State(), own, d, lo, p, hi);
          return 0, false;
        }
        GrownTrans(m0, own0, m1, own1, State(), own, d, lo, p, p + 1);
        p, a := p + 1, a + PGSIZE;
      }
      NeedNothing(Tables(State(), d), hi);
      return newsz, true;
    }
  
    /** freevm's second loop: free every table of directory d. */
    method FreeTables(d: int)
      requires Valid() && IsDir(own, d) && IsTable(State(), d) && ClearFrom(State(), d, 0)
      modifies this
      ensures own == Tearing(old(own), d, N) && d in tabs
      ensures Inv(Mem(free, tabs - SpaceFrames(old(own), d, N), pages), own)
      ensures tabs - SpaceFrames(old(own), d, N) == old(tabs) - SpaceFrames(old(own), d, 0)
      ensures forall f :: f in old(own) && f !in SpaceFrames(old(own), d, 0) && f in old(pages) ==> f in pages && pages[f] == old(pages)[f]
    {
      hide Inv, Lookup, FrameOk;
      ghost var m, own0 := State(), own;
      DropSpace(m, own, d);
      own := Tearing(own0, d, 0);
      var dir := tabs[d];
      for x := 0 to N
        invariant own == Tearing(own0, d, x) && d in tabs && tabs[d] == dir
        invariant Inv(Mem(free, tabs - SpaceFrames(own0, d, x), pages), own)
        invariant tabs - SpaceFrames(own0, d, x) == m.tabs - SpaceFrames(own0, d, 0)
        invariant forall f :: f in own0 && f !in SpaceFrames(own0, d, 0) && f in m.pages ==> f in pages && pages[f] == m.pages[f]
      {
        TearStep(m, own0, d, x);
        if dir.e[x].Pte? {
          var t := dir.e[x].frame;
          ghost var asif := Mem(free, tabs - SpaceFrames(own0, d, x), pages);
          KfreeKeeps(asif, own, t);
          Kfree(t);
          assert tabs - SpaceFrames(own0, d, x + 1) == asif.tabs - {t};
          own := own[t := Free];
        }
      }
    }

    /** Give back a whole address space. */
    method Freevm(d: int)
      requires Valid() && IsDir(own, d)
      modifies this
      ensures FreedSpace(old(State()), old(own), State(), own, d)
    {
      hide Inv, Lookup, FrameOk, FreedSpace, Shrunk, ClearFrom;
      ghost var m, own0 := State(), own;
      var r := Deallocuvm(d, KERNBASE, 0);
      ghost var m1, own1 := State(), own;
      EmptyUserHalf(m, own0, m1, own1, d);
      ShrunkValid(m, own0, m1, own1, d);
      FreeTables(d);
      TearEnd(m1, own1, d);
      ghost var asif := Mem(free, tabs - {d}, pages);
      KfreeKeeps(asif, own, d);
      Kfree(d);
      own := own[d := Free];
      assert State().tabs == asif.tabs - {d};
      SpaceFreed(m, own0, m1, own1, State(), own, d);
    }
  
    /** Map the kernel's ranges, all above KERNBASE, in a new directory, and nothing else.
        Unless ranges overlap, it fails exactly when there are too few frames for them,
        and panics only on ranges that overlap.  On failure the frames
        taken so far leak: they stay a directory, `lost`, that nobody will free. */
    method Setupkvm(kmap: seq<Range>) returns (r: Mapping, d: int, ghost lost: int)
      requires Valid() && forall i :: 0 <= i < |kmap| ==> KernelRange(kmap[i])
      modifies this
      ensures r == MapDone ==> Built(old(State()), old(own), State(), own, d, 1) && ClearFrom(State(), d, 0)
      ensures r == MapDone ==> KernelMapped(State(), d, kmap) && !Overlaps(kmap)
      ensures r == MapDone ==> Accounted(old(State()), State(), d, KernelTables(kmap))
      ensures r == Remap ==> Overlaps(kmap)
      ensures r == NoTable ==> |old(free)| < 1 + |KernelTables(kmap)|
      ensures r == NoTable ==> free == []
      ensures r == NoTable && old(free) == [] ==> State() == old(State()) && own == old(own)
      ensures r == NoTable && old(free) != [] ==> Built(old(State()), old(own), State(), own, lost, 1)
    {
      hide Inv, Lookup, Built, ClearFrom, Tables, KernelMapped, Overlaps, Accounted;
      ghost var m, own0 := State(), own;
      var ok;
      ok, d := Kalloc();
      if !ok {
        return NoTable, 0, 0;
      }
      BuiltEmpty(m, own0);
      tabs := tabs[d := NoEntries()];
      own := own[d := Dir];
      NothingMapped(State(), d);
      NoTablesYet(m, State(), d);
      assert kmap[..0] == [];
      for i := 0 to |kmap|
        invariant Built(m, own0, State(), own, d, 1) && IsTable(State(), d) && ClearFrom(State(), d, 0)
        invariant KernelMapped(State(), d, kmap[..i]) && !Overlaps(kmap[..i])
        invariant Accounted(m, State(), d, KernelTables(kmap[..i]))
      {
        assert kmap[..i+1] == kmap[..i] + [kmap[i]];
        TablesMore(kmap, i + 1);
        OverlapsMore(kmap, i);
        var res := MapRange(d, kmap[i], kmap[..i], m, own0);
        if res != MapDone {
          return res, 0, d;
        }
      }
      assert kmap[..|kmap|] == kmap;
      return MapDone, d, 0;
    }

    /** mappages over a kernel range, after those of `before`. */
    method MapRange(d: int, k: Range, ghost before: seq<Range>, ghost m: Mem, ghost own0: Owners) returns (r: Mapping)
      requires KernelRange(k) && Built(m, own0, State(), own, d, 1) && IsTable(State(), d) && ClearFrom(State(), d, 0)
      requires Accounted(m, State(), d, KernelTables(before))
      requires KernelMapped(State(), d, before) && !Overlaps(before) && forall i :: 0 <= i < |before| ==> KernelRange(before[i])
      modifies this
      ensures r == MapDone ==> Built(m, own0, State(), own, d, 1) && IsTable(State(), d) && ClearFrom(State(), d, 0)
      ensures r == MapDone ==> KernelMapped(State(), d, before + [k]) && !Overlaps(before + [k])
      ensures r == MapDone ==> Accounted(m, State(), d, KernelTables(before + [k]))
      ensures r == NoTable ==> |m.free| < 1 + |KernelTables(before + [k])|
      ensures r == Remap ==> Overlaps(before + [k])
      ensures r == NoTable ==> free == [] && Built(m, own0, State(), own, d, 1)
    {
      hide Inv, Lookup, Built, ClearFrom, Grown, Tables, Overlaps, PartMapped, Accounted, Spanned, KernelTables;
      var a, last, pa := k.virt, k.virt + k.npages - 1, k.phys;
      PartBegins(State(), d, before, k);
      NeedNothing({}, k.virt);
      RangeTables(before, k);
      while true
        invariant k.virt <= a <= last && pa == k.phys + (a - k.virt)
        invariant Built(m, own0, State(), own, d, 1) && IsTable(State(), d) && ClearFrom(State(), d, 0)
        invariant PartMapped(State(), d, before, k, a)
        invariant Accounted(m, State(), d, KernelTables(before) + Spanned(k.virt, a))
        decreases last - a
      {
        BuiltValid(m, own0, State(), own, d, 1);
        ghost var m1, own1 := State(), own;
        ghost var b;
        SpannedStep(k.virt, a);
        r, b := MapPage(d, a, pa, k.perm);
        if r == NoTable {
          TableShort(m, m1, d, before, k, a);
        }
        if r == Remap {
          PartClash(m1, own1, b, own, d, before, k, a);
        }
        if r != MapDone {
          return;
        }
        BuiltKernelPage(m, own0, m1, own1, b, own, d, a, Pte(pa, k.perm));
        PartMore(m1, own1, b, own, d, before, k, a);
        AccountedMore(m, m1, State(), d, KernelTables(before) + Spanned(k.virt, a), a);
        assert KernelTables(before) + Spanned(k.virt, a) + {a / N} == KernelTables(before) + Spanned(k.virt, a + 1);
        BuiltValid(m, own0, State(), own, d, 1);
        if a == last {
          break;
        }
        a, pa := a + 1, pa + 1;
      }
      PartDone(State(), d, before, k);
      return MapDone;
    }

    /** Copy the user pages of directory s, from page 1 up to size sz, into a new
        address space.  A failed copy gives back the new space; what leaks then is the
        frame for which no table could be made, or what setupkvm leaked. */
    method Copyuvm(s: int, sz: int, kmap: seq<Range>) returns (r: Copying, d: int, ghost leak: Leak)
      requires Valid() && IsDir(own, s) && 0 <= sz <= KERNBASE
      requires forall i :: 0 <= i < |kmap| ==> KernelRange(kmap[i])
      modifies this
      ensures IsTable(old(State()), s)
      ensures r == CopyDone ==> Copied(old(State()), old(own), State(), own, s, d, CopyEnd(sz))
      ensures r == CopyDone ==> forall v :: 1 <= v < Pages(sz) ==> Lookup(old(State()), s, v).Pte?
      ensures r == CopyPanic ==> exists v :: 1 <= v < Pages(sz) && Lookup(old(State()), s, v) == Absent
      ensures r == CopyRemap ==> Overlaps(kmap)
      ensures r == CopyFailed ==> SpaceNeed(kmap, CopyEnd(sz)) > |old(free)|
      ensures r == CopyDone ==> SpaceNeed(kmap, CopyEnd(sz)) <= |old(free)|
      ensures r == CopyFailed ==>
                match leak
                case NoLeak => Valid() && own == old(own)
                case Frame(f) => Valid() && f in old(own) && old(own)[f] == Free && own == old(own)[f := Held]
                case Space(e) => Built(old(State()), old(own), State(), own, e, 1)
    {
      hide Inv, Lookup, Built, ClearFrom, Copied, FreedSpace, KernelMapped, Overlaps, Accounted, KernelTables, SpaceNeed, Need, Tables;
      ghost var m, own0 := State(), own;
      DirIsTable(m, own, s);
      var made;
      ghost var lost;
      leak := NoLeak;
      made, d, lost := Setupkvm(kmap);
      if made != MapDone {
        CopyNeeds(kmap, sz);
        return if made == NoTable then CopyFailed else CopyRemap, 0, if m.free == [] then NoLeak else Space(lost);
      }
      AccountedNeed(m, State(), d, kmap, CopyEnd(sz));
      CopiedNothing(m, own0, State(), own, s, d);
      ghost var m1, own1, f, hi;
      r, f, m1, own1, hi := CopyPages(s, d, sz, m, own0);
      if r != CopyDone {
        if r == CopyFailed {
          ghost var m2, own2 := State(), own;
          HoldingValid(m, own0, m1, own1, m2, own2, d, hi, f);
          Freevm(d);
          FreedInv(m2, own2, State(), own, d);
          BuiltFreedBut(m, own0, m1, own1, m2, own2, State(), own, d, hi, f);
          leak := if f in own0 && own == own0[f := Held] && own != own0 then Frame(f) else NoLeak;
        }
        d := 0;
      }
    }

    /** copyuvm's loop.  It panics on a page that is not mapped, and gives up only when
        no frame is left; f, unless negative, is then a frame it holds. */
    method CopyPages(s: int, d: int, sz: int, ghost m: Mem, ghost own0: Owners)
        returns (r: Copying, ghost f: int, ghost m1: Mem, ghost own1: Owners, ghost hi: int)
      requires Copied(m, own0, State(), own, s, d, 1) && 0 <= sz <= KERNBASE
      modifies this
      ensures IsTable(m, s) && r != CopyRemap
      ensures r == CopyDone ==> Copied(m, own0, State(), own, s, d, CopyEnd(sz))
      ensures r == CopyDone ==> forall v :: 1 <= v < Pages(sz) ==> Lookup(m, s, v).Pte?
      ensures r == CopyPanic ==> exists v :: 1 <= v < Pages(sz) && Lookup(m, s, v) == Absent
      ensures r == CopyFailed ==> free == [] && Holding(m, own0, m1, own1, State(), own, d, hi, f)
      ensures r == CopyFailed ==> Need(Tables(old(State()), d), 1, CopyEnd(sz)) > |old(free)|
      ensures r == CopyDone ==> Need(Tables(old(State()), d), 1, CopyEnd(sz)) <= |old(free)|
    {
      hide Inv, Lookup, Built, Copied, Holding, Need, Tables, Took;
      ghost var ready := State();
      TookNothing(ready, d);
      CopiedIsTable(m, own0, State(), own, s, d, 1);
      var p := 1;
      while p * PGSIZE < sz
        invariant 1 <= p && (p == 1 || p <= Pages(sz))
        invariant Copied(m, own0, State(), own, s, d, p) && Took(ready, State(), d, 1, p)
        invariant forall v :: 1 <= v < p ==> Lookup(m, s, v).Pte?
        decreases sz - p * PGSIZE
      {
        ghost var was, ownWas := State(), own;
        r, f := CopyStep(s, d, p, m, own0);
        if r != CopyDone {
          m1, own1, hi := was, ownWas, p;
          if r == CopyFailed {
            TookShort(ready, was, d, p, CopyEnd(sz));
          }
          return;
        }
        TookMore(ready, was, State(), d, p);
        p := p + 1;
      }
      TookFits(ready, State(), d, p);
      r, f, m1, own1, hi := CopyDone, -1, m, own0, p;
    }

    method CopyStep(s: int, d: int, p: int, ghost m: Mem, ghost own0: Owners) returns (r: Copying, ghost f': int)
      requires Copied(m, own0, State(), own, s, d, p) && 1 <= p < KERNPAGE
      modifies this
      ensures IsTable(m, s)
      ensures r == CopyDone ==> Copied(m, own0, State(), own, s, d, p + 1) && Lookup(m, s, p).Pte?
      ensures r == CopyPanic ==> Lookup(m, s, p) == Absent
      ensures r == CopyFailed ==> free == [] && Holding(m, own0, old(State()), old(own), State(), own, d, p, f')
      ensures r == CopyFailed ==> |old(free)| < 1 + Frames(Tables(old(State()), d), p)
      ensures r == CopyDone ==>
                && Tables(State(), d) == Tables(old(State()), d) + {p / N}
                && |free| == |old(free)| - 1 - Frames(Tables(old(State()), d), p)
      ensures r != CopyRemap
    {
      hide Inv, Lookup, Built, Copied, Grown, Tables;
      CopiedValid(m, own0, State(), own, s, d, p);
      CopiedBuilt(m, own0, State(), own, s, d, p);
      ghost var m1, own1 := State(), own;
      f' := -1;
      var ok, t := Walkpgdir(s, p, false);
      TableIsOwned(State(), own, s, p);
      if !ok || !tabs[t].e[p % N].Pte? {
        r := CopyPanic;
        return;
      }
      var pte := tabs[t].e[p % N];
      FreshIsUser(m1, own1, s, p);
      FrameHasPage(m1, own1, pte.frame);
      var f;
      ok, f := Kalloc();
      if !ok {
        r := CopyFailed;
        return;
      }
      DuplicatedKeeps(m1, own1, pte.frame);
      pages := pages[f := pages[pte.frame]];
      own := own[f := Held];
      ghost var m2, own2 := State(), own;
      TablesKept(m1, m2, d);
      var res, b := MapPage(d, p, f, pte.flags);
      if res == NoTable {
        r, f' := CopyFailed, f;
        return;
      }
      StillAbsent(m1, m2, own2, b, own, d, p);
      PageCopied(m, own0, m1, own1, b, own, s, d, p);
      own := own[f := User(d, p)];
      r := CopyDone;
    }

    // ---------- sbrk and exec ----------

    /** Change a process's size by n bytes; sizes are uints.  Growing succeeds with size
        sz + n or changes no page.  Shrinking fails exactly when the new size would be 0,
        and then the pages are freed all the same; asking for less than nothing does
        nothing and succeeds. */
    method Growproc(d: int, sz: int, n: int) returns (r: int, sz': int)
      requires Valid() && IsDir(own, d) && SpaceOk(State(), d, sz) && -0x8000_0000 <= n < 0x8000_0000
      modifies this
      ensures Valid() && IsDir(own, d) && SpaceOk(State(), d, sz')
      ensures Sbrk(Sys(old(State()), old(own), [Proc(d, sz)]), Sys(State(), own, [Proc(d, sz')]), 0)
      ensures r == 0 || (r == -1 && sz' == sz)
      ensures n > 0 && r == 0 ==> sz' == sz + n && Grown(old(State()), old(own), State(), own, d, Pages(sz), Pages(sz + n))
      ensures n > 0 ==>
                (r == 0 <==> sz + n < KERNBASE && Need(Tables(old(State()), d), Pages(sz), Pages(sz + n)) <= |old(free)|)
      ensures n > 0 && r == -1 ==> Grown(old(State()), old(own), State(), own, d, Pages(sz), Pages(sz))
      ensures n == 0 ==> r == 0 && sz' == sz && State() == old(State())
      ensures n < 0 ==> (r == -1 <==> sz + n == 0)
      ensures n < 0 && sz + n > 0 ==> sz' == sz + n && Shrunk(old(State()), old(own), State(), own, d, Pages(sz + n), Pages(sz))
      ensures sz + n == 0 ==> Shrunk(old(State()), old(own), State(), own, d, 0, Pages(sz))
      ensures n < 0 && sz + n < 0 ==> r == 0 && sz' == sz && State() == old(State()) && own == old(own)
    {
      hide Inv, Lookup, Grown, Shrunk, SpaceOk, ClearFrom, IsTable, Need, Tables;
      ghost var m, own0 := State(), own;
      SizePositive(m, d, sz);
      SpaceIsTable(m, d, sz);
      GrownRefl(m, own0, d, Pages(sz));
      if n > 0 {
        SpaceIsClear(m, d, sz);
        var newsz := (sz + n) % 0x1_0000_0000;
        var got, grew := Allocuvm(d, sz, newsz);
        if grew {
          GrownSpace(m, own0, State(), own, d, sz, newsz);
          StillDir(m, own0, State(), own, d, Pages(sz), Pages(newsz), d);
          GrownInv(m, own0, State(), own, d, Pages(sz), Pages(newsz));
        } else {
          GrownSpace(m, own0, State(), own, d, sz, sz);
          StillDir(m, own0, State(), own, d, Pages(sz), Pages(sz), d);
          GrownInv(m, own0, State(), own, d, Pages(sz), Pages(sz));
        }
        if got == 0 {
          return -1, sz;
        }
        return 0, got;
      } else if n < 0 {
        var newsz := (sz + n) % 0x1_0000_0000;
        var got := Deallocuvm(d, sz, newsz);
        if newsz < sz {
          ShrunkSpace(m, own0, State(), own, d, sz, newsz);
          StillDirShrunk(m, own0, State(), own, d, Pages(newsz), Pages(sz), d);
          ShrunkInv(m, own0, State(), own, d, Pages(newsz), Pages(sz));
        }
        if got == 0 {
          return -1, sz;
        }
        return 0, got;
      }
      return 0, sz;
    }
  
    /** Grow a space under construction to newsz, as exec threads its size. */
    method ExecGrow(d: int, sz: int, newsz: int, ghost m: Mem, ghost own0: Owners, ghost ready: Mem) returns (sz': int)
      requires Valid() && IsDir(own, d) && 0 <= newsz && 0 <= sz && 1 <= Pages(sz) && (sz < KERNBASE || sz <= newsz)
      requires Built(m, own0, State(), own, d, Pages(sz)) && (sz < KERNBASE ==> SpaceOk(State(), d, sz))
      requires IsTable(State(), d) && ClearFrom(State(), d, Pages(sz)) && Loaded(ready, State(), d, Pages(sz))
      modifies this
      ensures Valid() && IsDir(own, d)
      ensures sz' != 0 ==>
                && sz' == (if sz <= newsz then newsz else sz) < KERNBASE && SpaceOk(State(), d, sz')
                && Built(m, own0, State(), own, d, Pages(sz')) && Loaded(ready, State(), d, Pages(sz'))
      ensures sz' == 0 ==> Built(m, own0, State(), own, d, Pages(sz))
      ensures sz' == 0 <==>
                newsz >= KERNBASE || (sz <= newsz && Need(Tables(ready, d), 1, Pages(newsz)) > |ready.free|)
    {
      hide Inv, Lookup, Grown, SpaceOk, ClearFrom, IsTable, Built, Loaded, Need, Tables, Took;
      ghost var m1, own1 := State(), own;
      if sz <= newsz {
        LoadedNeed(ready, m1, d, Pages(sz), Pages(newsz));
      }
      var got, grew := Allocuvm(d, sz, newsz);
      ghost var end := if grew then newsz else sz;
      BuiltGrown(m, own0, m1, own1, State(), own, d, Pages(sz), Pages(end));
      StillDir(m1, own1, State(), own, d, Pages(sz), Pages(end), d);
      GrownInv(m1, own1, State(), own, d, Pages(sz), Pages(end));
      if end < KERNBASE {
        GrownSpace(m1, own1, State(), own, d, sz, end);
      }
      if grew {
        LoadedMore(ready, m1, own1, State(), own, d, Pages(sz), Pages(newsz));
      }
      return got;
    }

    /** One round of exec's loop over the segments; 0 sends it to the failure path. */
    method LoadSegment(d: int, sz: int, s: Segment, ghost m: Mem, ghost own0: Owners, ghost ready: Mem) returns (ok: bool, sz': int)
      requires 0 <= s.vaddr < 0x1_0000_0000 && 0 <= s.memsz < 0x1_0000_0000
      requires PGSIZE <= sz < KERNBASE && Built(m, own0, State(), own, d, Pages(sz)) && SpaceOk(State(), d, sz)
      requires Loaded(ready, State(), d, Pages(sz))
      modifies this
      ensures PGSIZE <= sz' < KERNBASE && Built(m, own0, State(), own, d, Pages(sz'))
      ensures ok ==> sz' == Later(sz, s) && SpaceOk(State(), d, sz') && Loaded(ready, State(), d, Pages(sz'))
      ensures ok <==> SegmentFits(ready, d, sz, s)
    {
      hide Inv, Lookup, SpaceOk, ClearFrom, Built, Loaded, Need, Tables;
      BuiltValid(m, own0, State(), own, d, Pages(sz));
      SpaceIsClear(State(), d, sz);
      if s.memsz < s.filesz {
        return false, sz;
      }
      var top := (s.vaddr + s.memsz) % 0x1_0000_0000;
      if top < s.vaddr {
        return false, sz;
      }
      sz' := ExecGrow(d, sz, top, m, own0, ready);
      if sz' == 0 {
        return false, sz;
      }
      ok := s.vaddr % PGSIZE == 0 && s.loads;
    }

    /** Make page v inaccessible to the user, below the stack. */
    method Clearpteu(d: int, v: int, ghost m: Mem, ghost own0: Owners, ghost sz: int)
      requires 0 <= v < KERNPAGE && 0 <= sz && Built(m, own0, State(), own, d, Pages(sz)) && SpaceOk(State(), d, sz)
      requires FreshPages(State(), d, v, v + 1)
      modifies this`tabs
      ensures Built(m, own0, State(), own, d, Pages(sz)) && SpaceOk(State(), d, sz)
      ensures IsTable(State(), d) && IsTable(old(State()), d)
      ensures var was := Lookup(old(State()), d, v); was.Pte? && Lookup(State(), d, v) == Pte(was.frame, ClearU(was.flags))
      ensures forall w :: 0 <= w < TOPPAGE && w != v ==> SameEntry(old(State()), State(), d, w)
    {
      hide Inv, Lookup, SpaceOk, FreshPages;
      BuiltValid(m, own0, State(), own, d, Pages(sz));
      TableIsOwned(State(), own, d, v);
      FreshMapped(State(), d, v);
      var t := tabs[d].e[v / N].frame;
      var pte := tabs[t].e[v % N];
      GuardPage(m, own0, State(), own, d, v, sz, ClearU(pte.flags));
      OnlyEntry(State(), own, d, v, Pte(pte.frame, ClearU(pte.flags)));
      tabs := tabs[t := Table(tabs[t].e[v % N := Pte(pte.frame, ClearU(pte.flags))])];
    }

    /** exec's memory set-up: segments from page 1 on, then two pages for the stack, the
        lower one guarded.  Unless kernel ranges overlap, it succeeds exactly when every
        segment passes exec's checks, the image stays below KERNBASE and there are frames
        for all of it; then the size is two pages above the highest segment, and every
        page from 1 up is mapped.  Otherwise everything is freed, except what setupkvm
        leaked: a directory, `lost`. */
    method ExecImage(segs: seq<Segment>, kmap: seq<Range>) returns (r: Execution, d: int, sz: int, ghost lost: int)
      requires Valid() && forall i :: 0 <= i < |kmap| ==> KernelRange(kmap[i])
      requires forall i :: 0 <= i < |segs| ==> 0 <= segs[i].vaddr < 0x1_0000_0000 && 0 <= segs[i].memsz < 0x1_0000_0000
      modifies this
      ensures !Overlaps(kmap) ==>
                (r == ExecDone <==>
                   && (forall i :: 0 <= i < |segs| ==> SegmentOk(segs[i]))
                   && EndPage(segs) < KERNPAGE && SpaceNeed(kmap, EndPage(segs)) <= |old(free)|)
      ensures r == ExecDone ==> sz == EndPage(segs) * PGSIZE
      ensures r == ExecDone ==> Built(old(State()), old(own), State(), own, d, Pages(sz)) && SpaceOk(State(), d, sz)
      ensures r == ExecDone ==> SysOk(Sys(State(), own, [Proc(d, sz)]))
      ensures r == ExecDone ==> FreshPages(State(), d, 1, Pages(sz) - 2)
      ensures r == ExecDone ==> IsTable(State(), d) && 3 <= Pages(sz) <= KERNPAGE && StackReady(State(), d, Pages(sz))
      ensures r == ExecBad ==> Valid() && own == old(own)
      ensures r == ExecNoDir ==> free == []
      ensures r == ExecNoDir && old(free) == [] ==> State() == old(State()) && own == old(own)
      ensures r == ExecNoDir && old(free) != [] ==> Built(old(State()), old(own), State(), own, lost, 1)
      ensures r == ExecRemap ==> Overlaps(kmap)
    {
      hide Inv, Lookup, SpaceOk, ClearFrom, Built, FreshPages, Loaded, ImageFits, Need, Tables, SegmentOk, Later, Extent, EndPage, SegmentFits, StackReady, KernelMapped, Overlaps, Accounted, KernelTables, SpaceNeed;
      ghost var m, own0 := State(), own;
      var made;
      made, d, lost := Setupkvm(kmap);
      ghost var ready := State();
      NeedAtLeast(kmap, segs);
      if made != MapDone {
        return if made == NoTable then ExecNoDir else ExecRemap, 0, 0, lost;
      }
      AccountedNeed(m, ready, d, kmap, EndPage(segs));
      BuiltValid(m, own0, State(), own, d, 1);
      NewSpace(State(), own, d);
      LoadedNothing(ready, d);
      NoExtent();
      assert segs[..0] == [];
      sz := PGSIZE;
      for i := 0 to |segs|
        invariant PGSIZE <= sz < KERNBASE && Built(m, own0, State(), own, d, Pages(sz)) && SpaceOk(State(), d, sz)
        invariant Loaded(ready, State(), d, Pages(sz)) && sz == Extent(segs[..i])
        invariant forall j :: 0 <= j < i ==> SegmentOk(segs[j])
      {
        ExtentStep(segs, i);
        FitsOk(ready, d, sz, segs[i]);
        var ok, sz' := LoadSegment(d, sz, segs[i], m, own0, ready);
        if !ok {
          SegmentFails(ready, d, segs, i);
          DoesNotFit(ready, d, segs);
          Abandon(d, m, own0, Pages(sz'));
          return ExecBad, 0, 0, lost;
        }
        sz := sz';
      }
      assert segs[..|segs|] == segs;
      var ok;
      ok, sz := AddStack(d, sz, m, own0, ready);
      FitsIff(ready, d, segs);
      if !ok {
        Abandon(d, m, own0, Pages(sz));
        return ExecBad, 0, 0, lost;
      }
      FirstProc(m, own0, State(), own, d, sz);
      return ExecDone, d, sz, lost;
    }

    /** The stack: two pages above the image, the lower one guarded. */
    method AddStack(d: int, sz0: int, ghost m: Mem, ghost own0: Owners, ghost ready: Mem) returns (ok: bool, sz: int)
      requires PGSIZE <= sz0 < KERNBASE && Built(m, own0, State(), own, d, Pages(sz0)) && SpaceOk(State(), d, sz0)
      requires Loaded(ready, State(), d, Pages(sz0))
      modifies this
      ensures ok <==> Pages(sz0) + 2 < KERNPAGE && Need(Tables(ready, d), 1, Pages(sz0) + 2) <= |ready.free|
      ensures 0 <= sz && Built(m, own0, State(), own, d, Pages(sz))
      ensures ok ==> sz == (Pages(sz0) + 2) * PGSIZE && SpaceOk(State(), d, sz)
      ensures ok ==> FreshPages(State(), d, 1, Pages(sz) - 2)
      ensures ok ==> IsTable(State(), d) && 3 <= Pages(sz) <= KERNPAGE && StackReady(State(), d, Pages(sz))
    {
      hide Inv, Lookup, SpaceOk, ClearFrom, Built, FreshPages, Loaded, Need, Tables;
      BuiltValid(m, own0, State(), own, d, Pages(sz0));
      SpaceIsClear(State(), d, sz0);
      var top := Pages(sz0) * PGSIZE;
      SpaceRounded(State(), d, sz0);
      var sz' := ExecGrow(d, top, top + 2 * PGSIZE, m, own0, ready);
      if sz' == 0 {
        return false, top;
      }
      sz := sz';
      LoadedFresh(ready, State(), d, Pages(sz));
      OneFresh(State(), d, 1, Pages(sz), Pages(sz) - 2);
      OneFresh(State(), d, 1, Pages(sz), Pages(sz) - 1);
      ghost var m1 := State();
      Clearpteu(d, (sz - 2 * PGSIZE) / PGSIZE, m, own0, sz);
      Guarded(m1, State(), d, Pages(sz));
      FreshBelow(m1, State(), d, Pages(sz));
      return true, sz;
    }

    /** The failure path of exec. */
    method Abandon(d: int, ghost m: Mem, ghost own0: Owners, ghost hi: int)
      requires Built(m, own0, State(), own, d, hi)
      modifies this
      ensures Valid() && own == own0
    {
      hide Inv, Lookup, Built, FreedSpace;
      BuiltValid(m, own0, State(), own, d, hi);
      ghost var m1, own1 := State(), own;
      Freevm(d);
      BuiltThenFreed(m, own0, m1, own1, State(), own, d, hi);
      FreedInv(m1, own1, State(), own, d);
    }
  }

  /** A program header: `loads` is whether loaduvm reads the segment in. */
  // ---------- what exec is to load ----------

  datatype Segment = Segment(vaddr: int, memsz: int, filesz: int, loads: bool)
  datatype Execution = ExecDone | ExecBad | ExecNoDir | ExecRemap

  /** exec's checks on a segment that do not depend on memory. */
  predicate SegmentOk(s: Segment) {
    s.filesz <= s.memsz && s.vaddr + s.memsz < 0x1_0000_0000 && s.vaddr % PGSIZE == 0 && s.loads
  }

  function Later(sz: int, s: Segment): int {
    if sz <= s.vaddr + s.memsz then s.vaddr + s.memsz else sz
  }

  /** The end of the highest segment, or of page 0. */
  function Extent(segs: seq<Segment>): (sz: int)
    ensures PGSIZE <= sz
  {
    if segs == [] then PGSIZE else Later(Extent(segs[..|segs|-1]), segs[|segs|-1])
  }

  predicate EndsAt(s: Segment, sz: int) { s.vaddr + s.memsz == sz }

  /** It is the largest of those. */
  lemma {:induction false} ExtentIs(segs: seq<Segment>)
    ensures forall i :: 0 <= i < |segs| ==> segs[i].vaddr + segs[i].memsz <= Extent(segs)
    ensures Extent(segs) == PGSIZE || exists i :: 0 <= i < |segs| && EndsAt(segs[i], Extent(segs))
    decreases |segs|
  {
    if segs != [] {
      var n := |segs| - 1;
      ExtentIs(segs[..n]);
      forall i | 0 <= i < |segs| ensures segs[i].vaddr + segs[i].memsz <= Extent(segs) {
        if i < n {
          assert segs[..n][i] == segs[i];
        }
      }
      if Extent(segs) != Extent(segs[..n]) {
        assert EndsAt(segs[n], Extent(segs));
      } else if Extent(segs) != PGSIZE {
        var i :| 0 <= i < n && EndsAt(segs[..n][i], Extent(segs));
        assert EndsAt(segs[i], Extent(segs));
      }
    }
  }

  /** The first page above the image and its stack. */
  function EndPage(segs: seq<Segment>): int { Pages(Extent(segs)) + 2 }

  lemma NoExtent()
    ensures Extent([]) == PGSIZE
  {
  }

  lemma ExtentStep(segs: seq<Segment>, i: nat)
    requires i < |segs|
    ensures Extent(segs[..i+1]) == Later(Extent(segs[..i]), segs[i])
    ensures Extent(segs[..i+1]) <= Extent(segs)
  {
    hide Later;
    assert segs[..i+1][..i] == segs[..i] && segs[..i+1][i] == segs[i];
    ExtentGrows(segs, i + 1);
  }

  lemma {:induction false} ExtentGrows(segs: seq<Segment>, i: nat)
    requires i <= |segs|
    ensures Extent(segs[..i]) <= Extent(segs)
    decreases |segs| - i
  {
    if i == |segs| {
      assert segs[..i] == segs;
    } else {
      ExtentGrows(segs, i + 1);
      assert segs[..i+1][..i] == segs[..i] && segs[..i+1][i] == segs[i];
    }
  }

  /** The image of these segments and its stack can be built on the directory made. */
  ghost predicate ImageFits(ready: Mem, d: int, segs: seq<Segment>) {
    && (forall i :: 0 <= i < |segs| ==> SegmentOk(segs[i]))
    && EndPage(segs) < KERNPAGE && Need(Tables(ready, d), 1, EndPage(segs)) <= |ready.free|
  }

  /** The page after the last copied. */
  function CopyEnd(sz: int): int
    requires 0 <= sz
  {
    if sz > PGSIZE then Pages(sz) else 1
  }

  lemma CopyNeeds(kmap: seq<Range>, sz: int)
    requires 0 <= sz
    ensures 1 + |KernelTables(kmap)| <= SpaceNeed(kmap, CopyEnd(sz))
  {
    hide KernelTables;
  }

  lemma TookNothing(ready: Mem, d: int)
    ensures Took(ready, ready, d, 1, 1)
  {
    NeedNothing(Tables(ready, d), 1);
  }

  lemma TookMore(ready: Mem, was: Mem, now: Mem, d: int, p: int)
    requires Took(ready, was, d, 1, p) && 1 <= p
    requires Tables(now, d) == Tables(was, d) + {p / N} && |now.free| == |was.free| - 1 - Frames(Tables(was, d), p)
    ensures Took(ready, now, d, 1, p + 1)
  {
    hide Tables, Need, Spanned;
    NeedSplit(Tables(ready, d), 1, p, p + 1);
    NeedOne(Tables(was, d), p);
  }

  lemma NeedOne(has: set<int>, p: int)
    ensures Need(has, p, p + 1) == 1 + Frames(has, p) && Spanned(p, p + 1) == {p / N}
  {
    hide Need, Frames;
    NeedStep(has, p, p + 1);
    NeedNothing(has + {p / N}, p + 1);
    SpannedStep(p, p);
    NeedNothing(has, p);
  }

  /** Short of frames at page p is short of frames for all pages up to hi. */
  lemma TookShort(ready: Mem, was: Mem, d: int, p: int, hi: int)
    requires Took(ready, was, d, 1, p) && 1 <= p < hi && |was.free| < 1 + Frames(Tables(was, d), p)
    ensures Need(Tables(ready, d), 1, hi) > |ready.free|
  {
    hide Tables, Need, Spanned, Frames;
    NeedSplit(Tables(ready, d), 1, p, p + 1);
    NeedOne(Tables(was, d), p);
    NeedGrows(Tables(ready, d), p + 1, hi);
  }

  lemma TookFits(ready: Mem, now: Mem, d: int, hi: int)
    requires Took(ready, now, d, 1, hi)
    ensures Need(Tables(ready, d), 1, hi) <= |ready.free|
  {
  }

  /** Pages 1..hi are mapped, and took just the frames they need. */
  ghost predicate Loaded(ready: Mem, now: Mem, d: int, hi: int) {
    FreshPages(now, d, 1, hi) && Took(ready, now, d, 1, hi)
  }

  lemma LoadedNothing(ready: Mem, d: int)
    requires IsTable(ready, d)
    ensures Loaded(ready, ready, d, 1)
  {
    NeedNothing(Tables(ready, d), 1);
  }

  lemma LoadedFresh(ready: Mem, now: Mem, d: int, hi: int)
    requires Loaded(ready, now, d, hi)
    ensures FreshPages(now, d, 1, hi)
  {
  }

  /** What is left suffices for the rest exactly when there was enough for all. */
  lemma LoadedNeed(ready: Mem, now: Mem, d: int, lo: int, hi: int)
    requires Loaded(ready, now, d, lo) && 1 <= lo <= hi
    ensures Need(Tables(now, d), lo, hi) <= |now.free| <==> Need(Tables(ready, d), 1, hi) <= |ready.free|
  {
    hide Need, Tables, Spanned;
    NeedSplit(Tables(ready, d), 1, lo, hi);
  }

  lemma LoadedMore(ready: Mem, m: Mem, own: Owners, m': Mem, own': Owners, d: int, lo: int, hi: int)
    requires Loaded(ready, m, d, lo) && 1 <= lo <= hi <= KERNPAGE && Grown(m, own, m', own', d, lo, hi) && IsDir(own, d)
    requires Took(m, m', d, lo, hi)
    ensures Loaded(ready, m', d, hi)
  {
    hide Inv, Lookup, FrameGrown, Need, Tables, Spanned;
    NeedSplit(Tables(ready, d), 1, lo, hi);
    GrownFresh(m, own, m', own', d, lo, hi);
    forall v | 1 <= v < hi ensures UserPage(m', d, v, WU) {
      if v < lo {
        assert UserPage(m, d, v, WU) && EntryGrown(m, m', own, d, lo, hi, d, v);
      }
    }
  }

  /** A larger image needs no fewer frames. */
  lemma NeedGrows(has: set<int>, mid: int, hi: int)
    requires 1 <= mid <= hi
    ensures Need(has, 1, mid) <= Need(has, 1, hi)
  {
    hide Need, Spanned;
    NeedSplit(has, 1, mid, hi);
  }

  lemma PagesGrow(a: int, b: int)
    requires 0 <= a <= b
    ensures Pages(a) <= Pages(b)
  {
  }

  /** Segment s can be loaded behind an image of size sz. */
  ghost predicate SegmentFits(ready: Mem, d: int, sz: int, s: Segment)
    requires 0 <= sz
  {
    && SegmentOk(s) && Later(sz, s) < KERNBASE
    && (sz <= s.vaddr + s.memsz ==> Need(Tables(ready, d), 1, Pages(s.vaddr + s.memsz)) <= |ready.free|)
  }

  /** A segment that cannot be loaded means the image does not fit. */
  lemma SegmentFails(ready: Mem, d: int, segs: seq<Segment>, i: nat)
    requires i < |segs| && !SegmentFits(ready, d, Extent(segs[..i]), segs[i])
    ensures !ImageFits(ready, d, segs)
  {
    hide Need, Tables, Extent, Pages, SegmentOk;
    ExtentStep(segs, i);
    var end, all := Later(Extent(segs[..i]), segs[i]), Extent(segs);
    PagesGrow(end, all);
    PagesBound(end);
    NeedGrows(Tables(ready, d), Pages(end), Pages(all) + 2);
  }

  lemma FitsOk(ready: Mem, d: int, sz: int, s: Segment)
    requires 0 <= sz
    ensures SegmentFits(ready, d, sz, s) ==> SegmentOk(s)
  {
  }

  lemma PagesBound(sz: int)
    requires PGSIZE <= sz
    ensures 1 <= Pages(sz) && (sz >= KERNBASE ==> Pages(sz) >= KERNPAGE)
  {
  }

  lemma DoesNotFit(ready: Mem, d: int, segs: seq<Segment>)
    requires !ImageFits(ready, d, segs)
    ensures !((forall i :: 0 <= i < |segs| ==> SegmentOk(segs[i])) && EndPage(segs) < KERNPAGE &&
              Need(Tables(ready, d), 1, EndPage(segs)) <= |ready.free|)
  {
  }

  lemma NeedAtLeast(kmap: seq<Range>, segs: seq<Segment>)
    ensures 1 + |KernelTables(kmap)| < SpaceNeed(kmap, EndPage(segs))
  {
    hide KernelTables, Extent;
  }

  lemma FitsIff(ready: Mem, d: int, segs: seq<Segment>)
    requires forall i :: 0 <= i < |segs| ==> SegmentOk(segs[i])
    ensures ImageFits(ready, d, segs) <==>
              Pages(Extent(segs)) + 2 < KERNPAGE && Need(Tables(ready, d), 1, Pages(Extent(segs)) + 2) <= |ready.free|
    ensures EndPage(segs) == Pages(Extent(segs)) + 2
  {
    hide Need, Tables, Extent, Pages, SegmentOk;
  }

  lemma FreshBelow(m: Mem, m': Mem, d: int, top: int)
    requires FreshPages(m, d, 1, top) && 3 <= top <= KERNPAGE && IsTable(m', d)
    requires forall w :: 0 <= w < TOPPAGE && w != top - 2 ==> SameEntry(m, m', d, w)
    ensures FreshPages(m', d, 1, top - 2)
  {
    hide Lookup;
    forall v | 1 <= v < top - 2 ensures UserPage(m', d, v, WU) {
      assert UserPage(m, d, v, WU) && SameEntry(m, m', d, v);
    }
  }

  /** The page tables directory d has. */
  ghost function Tables(m: Mem, d: int): (has: set<int>) {
    if IsTable(m, d) then set x | 0 <= x < N && m.tabs[d].e[x].Pte? else {}
  }

  lemma TablesKept(m: Mem, m': Mem, d: int)
    requires m'.tabs == m.tabs
    ensures Tables(m', d) == Tables(m, d)
  {
  }

  /** Frames for the table of page v. */
  function Frames(has: set<int>, v: int): nat {
    if v / N in has then 0 else 1
  }

  function Spanned(lo: int, hi: int): (xs: set<int>) {
    set v | lo <= v < hi :: v / N
  }

  /** The frames that mapping pages lo..hi takes: one a page, and one for each table
      they lie in that is not there yet. */
  function Need(has: set<int>, lo: int, hi: int): (n: int) {
    hi - lo + |Spanned(lo, hi) - has|
  }

  lemma NeedStep(has: set<int>, lo: int, hi: int)
    requires lo < hi
    ensures Need(has, lo, hi) == 1 + Frames(has, lo) + Need(has + {lo / N}, lo + 1, hi)
    ensures Need(has + {lo / N}, lo + 1, hi) >= 0
  {
    assert Spanned(lo, hi) == Spanned(lo + 1, hi) + {lo / N};
    var rest := Spanned(lo + 1, hi) - (has + {lo / N});
    if lo / N in has {
      assert Spanned(lo, hi) - has == rest;
    } else {
      assert Spanned(lo, hi) - has == rest + {lo / N};
    }
  }

  lemma SpannedStep(lo: int, hi: int)
    requires lo <= hi
    ensures Spanned(lo, hi + 1) == Spanned(lo, hi) + {hi / N}
  {
  }

  /** Mapping pages lo..hi in two goes takes as many frames as in one. */
  lemma NeedSplit(has: set<int>, lo: int, mid: int, hi: int)
    requires lo <= mid <= hi
    ensures Need(has, lo, hi) == Need(has, lo, mid) + Need(has + Spanned(lo, mid), mid, hi)
    ensures Spanned(lo, hi) == Spanned(lo, mid) + Spanned(mid, hi)
    ensures Need(has + Spanned(lo, mid), mid, hi) >= 0
  {
    var a, b := Spanned(lo, mid), Spanned(mid, hi);
    assert Spanned(lo, hi) == a + b;
    assert (a + b) - has == (a - has) + (b - (has + a));
  }

  /** Pages lo..hi took exactly the frames they need. */
  ghost predicate Took(m: Mem, m': Mem, d: int, lo: int, hi: int) {
    |m'.free| == |m.free| - Need(Tables(m, d), lo, hi) && Tables(m', d) == Tables(m, d) + Spanned(lo, hi)
  }

  lemma NeedNothing(has: set<int>, lo: int)
    ensures Need(has, lo, lo) == 0 && Spanned(lo, lo) == {}
  {
    assert Spanned(lo, lo) == {};
  }

  lemma FreedInv(m: Mem, own: Owners, m': Mem, own': Owners, d: int)
    requires FreedSpace(m, own, m', own', d)
    ensures Inv(m', own')
  {
  }

  lemma FirstProc(m: Mem, own: Owners, m': Mem, own': Owners, d: int, sz: int)
    requires Inv(m, own) && 0 <= sz && Built(m, own, m', own', d, Pages(sz)) && SpaceOk(m', d, sz)
    ensures SysOk(Sys(m', own', [Proc(d, sz)]))
  {
    hide Inv, Built, SpaceOk;
    ExecStarts(Sys(m, own, []), m', own', d, sz);
    assert [] + [Proc(d, sz)] == [Proc(d, sz)];
  }

  lemma SpaceRounded(m: Mem, d: int, sz: int)
    requires SpaceOk(m, d, sz)
    ensures var top := Pages(sz) * PGSIZE;
            0 < top <= KERNBASE && Pages(top) == Pages(sz) && (top < KERNBASE ==> SpaceOk(m, d, top))
  {
    var top := Pages(sz) * PGSIZE;
    if top < KERNBASE {
      forall v | 0 <= v < KERNPAGE ensures WithinSize(m, d, top, v) {
        assert WithinSize(m, d, sz, v);
      }
    }
  }

  lemma FreshMapped(m: Mem, d: int, v: int)
    requires FreshPages(m, d, v, v + 1)
    ensures IsTable(m, d) && 0 <= v < TOPPAGE && Lookup(m, d, v).Pte?
  {
    assert UserPage(m, d, v, WU);
  }

  lemma OneFresh(m: Mem, d: int, lo: int, hi: int, v: int)
    requires FreshPages(m, d, lo, hi) && lo <= v < hi
    ensures FreshPages(m, d, v, v + 1)
  {
  }

  lemma OnlyEntry(m: Mem, own: Owners, d: int, v: int, p: Pte)
    requires Inv(m, own) && IsDir(own, d) && 0 <= v < TOPPAGE && IsTable(m, d) && HasTable(m, d, v)
    ensures IsTable(m, TableOf(m, d, v))
    ensures var r := SetEntry(m, TableOf(m, d, v), v % N, p);
            && IsTable(r, d) && Lookup(r, d, v) == p
            && forall w :: 0 <= w < TOPPAGE && w != v ==> SameEntry(m, r, d, w)
  {
    hide Inv, Lookup;
    TableIsOwned(m, own, d, v);
    var r := SetEntry(m, TableOf(m, d, v), v % N, p);
    SetEntryLookup(m, own, d, v, p, d, v);
    forall w | 0 <= w < TOPPAGE && w != v ensures SameEntry(m, r, d, w) {
      SetEntryLookup(m, own, d, v, p, d, w);
    }
    assert Lookup(r, d, v) == p;
  }

  /** Changing an entry's flags keeps the space as it is. */
  lemma GuardPage(m: Mem, own: Owners, b: Mem, ownB: Owners, d: int, v: int, sz: int, flags: int)
    requires 0 <= v < KERNPAGE && 0 <= sz && Built(m, own, b, ownB, d, Pages(sz)) && SpaceOk(b, d, sz)
    requires IsTable(b, d) && Lookup(b, d, v).Pte?
    ensures HasTable(b, d, v) && IsTable(b, TableOf(b, d, v))
    ensures var r := SetEntry(b, TableOf(b, d, v), v % N, Pte(Lookup(b, d, v).frame, flags));
            Built(m, own, r, ownB, d, Pages(sz)) && SpaceOk(r, d, sz)
  {
    hide Inv, Lookup;
    TableIsOwned(b, ownB, d, v);
    var p := Pte(Lookup(b, d, v).frame, flags);
    BesideEntry(m, own, b, ownB, d, v, p, ownB);
    var r, hi := SetEntry(b, TableOf(b, d, v), v % N, p), Pages(sz);
    forall f | f in own ensures FrameBuilt(m, r, own, ownB, d, hi, f) {
      assert FrameBuilt(m, b, own, ownB, d, hi, f);
    }
    forall w | 0 <= w < KERNPAGE ensures WithinSize(r, d, sz, w) {
      assert WithinSize(b, d, sz, w);
    }
    forall w | 1 <= w < hi ensures HasTable(r, d, w) {
      assert HasTable(b, d, w);
    }
  }

  /** The pages lo..hi are mapped for the user to read and write. */
  ghost predicate FreshPages(m: Mem, d: int, lo: int, hi: int) {
    IsTable(m, d) && 0 <= lo && hi <= TOPPAGE && forall v :: lo <= v < hi ==> UserPage(m, d, v, WU)
  }

  const WU := W + U

  predicate UserPage(m: Mem, d: int, v: int, flags: int)
    requires IsTable(m, d) && 0 <= v < TOPPAGE
  {
    Lookup(m, d, v).Pte? && Lookup(m, d, v).flags == flags
  }

  /** The top page is the stack; the one below it is out of the user's reach. */
  predicate StackReady(m: Mem, d: int, top: int)
    requires IsTable(m, d) && 2 <= top <= KERNPAGE
  {
    UserPage(m, d, top - 2, W) && UserPage(m, d, top - 1, WU)
  }

  lemma Guarded(m: Mem, m': Mem, d: int, top: int)
    requires IsTable(m, d) && IsTable(m', d) && 2 <= top <= KERNPAGE
    requires FreshPages(m, d, top - 2, top - 1) && FreshPages(m, d, top - 1, top)
    requires Lookup(m, d, top - 2).Pte? && Lookup(m', d, top - 2) == Pte(Lookup(m, d, top - 2).frame, ClearU(Lookup(m, d, top - 2).flags))
    requires SameEntry(m, m', d, top - 1)
    ensures StackReady(m', d, top)
  {
    hide Lookup;
    assert UserPage(m, d, top - 2, WU) && UserPage(m, d, top - 1, WU);
  }

  /** flags & ~PTE_U. */
  function ClearU(flags: int): (r: int) {
    if (flags / U) % 2 == 1 then flags - U else flags
  }

  lemma GrownFresh(m: Mem, own: Owners, m': Mem, own': Owners, d: int, lo: int, hi: int)
    requires Grown(m, own, m', own', d, lo, hi) && IsDir(own, d) && 0 <= lo && hi <= TOPPAGE
    ensures FreshPages(m', d, lo, hi)
  {
    hide Inv, Lookup, FrameGrown;
    StillDir(m, own, m', own', d, lo, hi, d);
    forall v | lo <= v < hi ensures UserPage(m', d, v, WU) {
      assert EntryGrown(m, m', own, d, lo, hi, d, v);
    }
  }

  lemma SpaceIsTable(m: Mem, d: int, sz: int)
    requires SpaceOk(m, d, sz)
    ensures IsTable(m, d)
  {
  }

  datatype Range = Range(virt: int, npages: int, phys: int, perm: int)
  datatype Leak = NoLeak | Frame(f: int) | Space(e: int)
  datatype Copying = CopyDone | CopyFailed | CopyPanic | CopyRemap

  // ---------- the frames of a new directory ----------

  /** The tables the kernel's ranges lie in. */
  function KernelTables(kmap: seq<Range>): (xs: set<int>) {
    if kmap == [] then {}
    else
      var k := kmap[|kmap|-1];
      KernelTables(kmap[..|kmap|-1]) + Spanned(k.virt, k.virt + k.npages)
  }

  /** A directory with the tables `has`, and nothing else, was taken from m. */
  ghost predicate Accounted(m: Mem, now: Mem, d: int, has: set<int>) {
    Tables(now, d) == has && |now.free| + 1 + |has| == |m.free|
  }

  lemma NoTablesYet(m: Mem, now: Mem, d: int)
    requires m.free != [] && now.free == m.free[1..] && d in now.tabs && now.tabs[d] == NoEntries()
    ensures Accounted(m, now, d, {}) && KernelTables([]) == {}
  {
  }

  lemma RangeTables(before: seq<Range>, k: Range)
    ensures KernelTables(before + [k]) == KernelTables(before) + Spanned(k.virt, k.virt + k.npages)
  {
    assert (before + [k])[..|before|] == before;
  }

  lemma {:induction false} TablesMore(kmap: seq<Range>, i: nat)
    requires i <= |kmap|
    ensures KernelTables(kmap[..i]) <= KernelTables(kmap) && |KernelTables(kmap[..i])| <= |KernelTables(kmap)|
    decreases |kmap| - i
  {
    if i == |kmap| {
      assert kmap[..i] == kmap;
    } else {
      TablesMore(kmap, i + 1);
      assert kmap[..i+1][..i] == kmap[..i];
      SmallerSet(KernelTables(kmap[..i]), KernelTables(kmap));
    }
  }

  lemma SmallerSet(a: set<int>, b: set<int>)
    requires a <= b
    ensures |a| <= |b| && (a != b ==> |a| < |b|)
  {
    assert b == a + (b - a);
    if a != b {
      assert b - a != {};
    }
  }

  lemma AccountedMore(m: Mem, now: Mem, next: Mem, d: int, has: set<int>, a: int)
    requires Accounted(m, now, d, has)
    requires Tables(next, d) == Tables(now, d) + {a / N} && |next.free| == |now.free| - Frames(Tables(now, d), a)
    ensures Accounted(m, next, d, has + {a / N})
  {
    if a / N in has {
      assert has + {a / N} == has;
    }
  }

  /** No frame for the table of page a: there are too few for the range. */
  lemma TableShort(m: Mem, now: Mem, d: int, before: seq<Range>, k: Range, a: int)
    requires Accounted(m, now, d, KernelTables(before) + Spanned(k.virt, a)) && Covers(k, a)
    requires |now.free| < Frames(Tables(now, d), a) == 1
    ensures now.free == [] && |m.free| < 1 + |KernelTables(before + [k])|
  {
    RangeTables(before, k);
    var has, all := KernelTables(before) + Spanned(k.virt, a), KernelTables(before + [k]);
    assert a / N in Spanned(k.virt, k.virt + k.npages);
    assert a / N in all && a / N !in has;
    assert Spanned(k.virt, a) <= Spanned(k.virt, k.virt + k.npages);
    SmallerSet(has, all);
  }

  /** Frames for a directory with the kernel's ranges and user pages 1..hi. */
  function SpaceNeed(kmap: seq<Range>, hi: int): (n: int) {
    1 + |KernelTables(kmap)| + Need(KernelTables(kmap), 1, hi)
  }

  lemma AccountedNeed(m: Mem, ready: Mem, d: int, kmap: seq<Range>, hi: int)
    requires Accounted(m, ready, d, KernelTables(kmap))
    ensures Need(Tables(ready, d), 1, hi) <= |ready.free| <==> SpaceNeed(kmap, hi) <= |m.free|
  {
    hide Tables, KernelTables, Need;
  }

  // ---------- the kernel's half ----------

  predicate Covers(k: Range, v: int) { k.virt <= v < k.virt + k.npages }

  /** The entry the ranges give page v. */
  function KernelEntry(kmap: seq<Range>, v: int): (p: Pte) {
    if kmap == [] then Absent
    else
      var k := kmap[|kmap|-1];
      if Covers(k, v) then Pte(k.phys + (v - k.virt), k.perm) else KernelEntry(kmap[..|kmap|-1], v)
  }

  /** The kernel half of the directory holds those entries and no others. */
  ghost predicate KernelMapped(m: Mem, d: int, kmap: seq<Range>) {
    IsTable(m, d) && forall v :: KERNPAGE <= v < TOPPAGE ==> Lookup(m, d, v) == KernelEntry(kmap, v)
  }

  predicate Shares(k: Range, l: Range) { k.virt < l.virt + l.npages && l.virt < k.virt + k.npages }

  ghost predicate Overlaps(kmap: seq<Range>) {
    exists i, j :: 0 <= i < j < |kmap| && Shares(kmap[i], kmap[j])
  }

  lemma OverlapsMore(kmap: seq<Range>, i: nat)
    requires i < |kmap|
    ensures Overlaps(kmap[..i+1]) ==> Overlaps(kmap)
  {
    var some := kmap[..i+1];
    if a, b :| 0 <= a < b < |some| && Shares(some[a], some[b]) {
      assert Shares(kmap[a], kmap[b]);
    }
  }

  lemma NothingMapped(m: Mem, d: int)
    requires d in m.tabs && m.tabs[d] == NoEntries()
    ensures KernelMapped(m, d, []) && !Overlaps([])
  {
    forall v | KERNPAGE <= v < TOPPAGE ensures IsTable(m, d) && Lookup(m, d, v) == Absent {
      EmptyDirLookup(m, d, v);
    }
  }

  /** Some range already covers page v exactly when it has an entry. */
  lemma {:induction false} EntryIffCovered(kmap: seq<Range>, v: int)
    ensures KernelEntry(kmap, v).Pte? <==> exists i :: 0 <= i < |kmap| && Covers(kmap[i], v)
    decreases |kmap|
  {
    if kmap != [] {
      var n := |kmap| - 1;
      EntryIffCovered(kmap[..n], v);
      if i :| 0 <= i < n && Covers(kmap[..n][i], v) {
        assert Covers(kmap[i], v);
      }
      if i :| 0 <= i < n && Covers(kmap[i], v) {
        assert Covers(kmap[..n][i], v);
      }
    }
  }

  /** The pages of range k below a are mapped, and none of the ranges before covers one. */
  ghost predicate PartMapped(m: Mem, d: int, before: seq<Range>, k: Range, a: int) {
    && IsTable(m, d) && !Overlaps(before)
    && (forall v :: k.virt <= v < a ==> KernelEntry(before, v) == Absent)
    && (forall v :: KERNPAGE <= v < TOPPAGE ==> Lookup(m, d, v) == PartEntry(before, k, a, v))
  }

  function PartEntry(before: seq<Range>, k: Range, a: int, v: int): Pte {
    if k.virt <= v < a then Pte(k.phys + (v - k.virt), k.perm) else KernelEntry(before, v)
  }

  lemma PartBegins(m: Mem, d: int, before: seq<Range>, k: Range)
    requires KernelMapped(m, d, before) && !Overlaps(before)
    ensures PartMapped(m, d, before, k, k.virt)
  {
    hide Lookup, Overlaps, KernelEntry;
  }

  /** Storing entry p for page v leaves every other entry as it was. */
  lemma StoredOnly(m: Mem, own: Owners, b: Mem, ownB: Owners, d: int, v: int, p: Pte)
    requires IsDir(own, d) && IsTable(m, d) && 0 <= v < TOPPAGE && Grown(m, own, b, ownB, d, v, v)
    requires IsTable(b, d) && HasTable(b, d, v)
    ensures IsTable(b, TableOf(b, d, v))
    ensures var r := SetEntry(b, TableOf(b, d, v), v % N, p);
            IsTable(r, d) && forall w :: 0 <= w < TOPPAGE ==> Lookup(r, d, w) == if w == v then p else Lookup(m, d, w)
  {
    hide Inv, Lookup;
    StillDir(m, own, b, ownB, d, v, v, d);
    GrownInv(m, own, b, ownB, d, v, v);
    OnlyEntry(b, ownB, d, v, p);
    var r := SetEntry(b, TableOf(b, d, v), v % N, p);
    forall w | 0 <= w < TOPPAGE ensures Lookup(r, d, w) == if w == v then p else Lookup(m, d, w) {
      if w != v {
        assert SameEntry(b, r, d, w) && EntryGrown(m, b, own, d, v, v, d, w);
      }
    }
  }

  lemma PartMore(m: Mem, own: Owners, b: Mem, ownB: Owners, d: int, before: seq<Range>, k: Range, a: int)
    requires PartMapped(m, d, before, k, a) && KernelRange(k) && k.virt <= a < k.virt + k.npages
    requires IsDir(own, d) && Grown(m, own, b, ownB, d, a, a) && IsTable(b, d) && HasTable(b, d, a) && Lookup(b, d, a) == Absent
    ensures IsTable(b, TableOf(b, d, a))
    ensures PartMapped(SetEntry(b, TableOf(b, d, a), a % N, Pte(k.phys + (a - k.virt), k.perm)), d, before, k, a + 1)
  {
    hide Inv, Lookup, Grown, Overlaps, KernelEntry;
    StoredOnly(m, own, b, ownB, d, a, Pte(k.phys + (a - k.virt), k.perm));
    WasSame(m, own, b, ownB, d, a);
  }

  lemma WasSame(m: Mem, own: Owners, b: Mem, ownB: Owners, d: int, v: int)
    requires IsDir(own, d) && IsTable(m, d) && IsTable(b, d) && 0 <= v < TOPPAGE && Grown(m, own, b, ownB, d, v, v)
    ensures Lookup(b, d, v) == Lookup(m, d, v)
  {
    hide Inv, Lookup;
    assert EntryGrown(m, b, own, d, v, v, d, v);
  }

  /** A page that is already mapped is one of a range before. */
  lemma PartClash(m: Mem, own: Owners, b: Mem, ownB: Owners, d: int, before: seq<Range>, k: Range, a: int)
    requires PartMapped(m, d, before, k, a) && KernelRange(k) && k.virt <= a < k.virt + k.npages
    requires IsDir(own, d) && Grown(m, own, b, ownB, d, a, a) && IsTable(b, d) && Lookup(b, d, a).Pte?
    ensures Overlaps(before + [k])
  {
    hide Inv, Lookup, Grown;
    WasSame(m, own, b, ownB, d, a);
    EntryIffCovered(before, a);
    var i :| 0 <= i < |before| && Covers(before[i], a);
    var all := before + [k];
    assert Shares(all[i], all[|before|]);
  }

  lemma PartDone(m: Mem, d: int, before: seq<Range>, k: Range)
    requires PartMapped(m, d, before, k, k.virt + k.npages) && KernelRange(k)
    requires forall i :: 0 <= i < |before| ==> KernelRange(before[i])
    ensures KernelMapped(m, d, before + [k]) && !Overlaps(before + [k])
  {
    hide Lookup;
    var all := before + [k];
    assert all[..|before|] == before;
    forall i, j | 0 <= i < j < |all| ensures !Shares(all[i], all[j]) {
      if j < |before| {
        assert all[i] == before[i] && all[j] == before[j];
      } else {
        RangesApart(before, k, i);
      }
    }
  }

  lemma RangesApart(before: seq<Range>, k: Range, i: nat)
    requires i < |before| && KernelRange(before[i]) && KernelRange(k)
    requires forall v :: k.virt <= v < k.virt + k.npages ==> KernelEntry(before, v) == Absent
    ensures !Shares(before[i], k)
  {
    var v := if before[i].virt < k.virt then k.virt else before[i].virt;
    EntryIffCovered(before, v);
    assert Covers(before[i], v) ==> KernelEntry(before, v).Pte?;
  }

  predicate KernelRange(k: Range) {
    KERNPAGE <= k.virt && 0 < k.npages && k.virt + k.npages <= TOPPAGE
  }

  lemma BuiltValid(m: Mem, own: Owners, m': Mem, own': Owners, d: int, hi: int)
    requires Built(m, own, m', own', d, hi)
    ensures Inv(m', own') && IsDir(own', d) && IsTable(m', d)
  {
  }

  /** Making a table for page p maps nothing there. */
  lemma StillAbsent(m: Mem, m1: Mem, own1: Owners, b: Mem, own: Owners, d: int, p: int)
    requires IsTable(m, d) && 0 <= p < KERNPAGE && Lookup(m, d, p) == Absent && m1.tabs == m.tabs
    requires IsDir(own1, d) && Grown(m1, own1, b, own, d, p, p)
    ensures IsTable(b, d) && Lookup(b, d, p) == Absent
  {
    hide Inv;
    StillDir(m1, own1, b, own, d, p, p, d);
    assert EntryGrown(m1, b, own1, d, p, p, d, p);
  }

  /** The copy so far, m1 with owners own1, and perhaps one more frame held. */
  ghost predicate Holding(m: Mem, own: Owners, m1: Mem, own1: Owners, m2: Mem, own2: Owners, d: int, hi: int, f: int) {
    && Built(m, own, m1, own1, d, hi) && Inv(m2, own2)
    && ((m2 == m1 && own2 == own1) || (f in own1 && own1[f] == Free && own2 == own1[f := Held]))
  }

  lemma HoldingValid(m: Mem, own: Owners, m1: Mem, own1: Owners, m2: Mem, own2: Owners, d: int, hi: int, f: int)
    requires Holding(m, own, m1, own1, m2, own2, d, hi, f)
    ensures Inv(m2, own2) && IsDir(own2, d)
  {
    hide Inv;
  }

  /** Freeing the new space then leaves the owners as they were, that frame apart. */
  lemma BuiltFreedBut(m: Mem, own: Owners, m1: Mem, own1: Owners, m2: Mem, own2: Owners, m3: Mem, own3: Owners, d: int, hi: int, f: int)
    requires Holding(m, own, m1, own1, m2, own2, d, hi, f) && FreedSpace(m2, own2, m3, own3, d)
    ensures own3 == own || (f in own && own[f] == Free && own3 == own[f := Held])
  {
    hide Inv, Lookup;
    forall g | g in own ensures g in own3 && (own2[g] == own1[g] ==> own3[g] == own[g]) {
      assert FrameBuilt(m, m1, own, own1, d, hi, g);
      if OfSpace(own[g], d) {
        NotOurs(m, own, d, g);
      }
    }
    if f in own1 && own1[f] == Free && own2 == own1[f := Held] {
      assert FrameBuilt(m, m1, own, own1, d, hi, f);
      assert own3 == own[f := Held];
    } else {
      assert own3 == own;
    }
  }

  lemma CopiedBuilt(m: Mem, own: Owners, m': Mem, own': Owners, s: int, d: int, p: int)
    requires Copied(m, own, m', own', s, d, p)
    ensures Built(m, own, m', own', d, p) && Inv(m', own')
  {
  }

  lemma CopiedIsTable(m: Mem, own: Owners, m': Mem, own': Owners, s: int, d: int, p: int)
    requires Copied(m, own, m', own', s, d, p)
    ensures IsTable(m, s)
  {
  }

  lemma CopiedValid(m: Mem, own: Owners, m': Mem, own': Owners, s: int, d: int, p: int)
    requires Copied(m, own, m', own', s, d, p) && 1 <= p < KERNPAGE
    ensures Inv(m', own') && IsDir(own', d) && IsDir(own', s) && s != d
    ensures IsTable(m', s) && IsTable(m, s) && Lookup(m', s, p) == Lookup(m, s, p)
    ensures IsTable(m', d) && Lookup(m', d, p) == Absent
  {
    hide Inv, Lookup;
    assert SameEntry(m, m', s, p);
    assert ChildEntry(m', s, d, p, p);
  }

  lemma ShrunkValid(m: Mem, own: Owners, m': Mem, own': Owners, d: int)
    requires Shrunk(m, own, m', own', d, 0, KERNPAGE)
    ensures Inv(m', own')
  {
  }

  datatype Allocation = Added | OutOfFrames | OutOfTables

  lemma GrownValid(m: Mem, own: Owners, m': Mem, own': Owners, d: int, lo: int, hi: int)
    requires Grown(m, own, m', own', d, lo, hi)
    ensures Inv(m', own')
  {
  }

  /** Pages not yet reached are still unmapped. */
  lemma StillClear(m: Mem, own: Owners, m': Mem, own': Owners, d: int, lo: int, p: int)
    requires Grown(m, own, m', own', d, lo, p) && IsDir(own, d) && IsTable(m, d) && 0 <= lo <= p < KERNPAGE
    requires ClearFrom(m, d, lo)
    ensures IsDir(own', d) && IsTable(m', d) && Lookup(m', d, p) == Absent
  {
    hide Inv, Lookup, FrameGrown;
    StillDir(m, own, m', own', d, lo, p, d);
    assert EntryGrown(m, m', own, d, lo, p, d, p);
  }

  datatype Mapping = MapDone | NoTable | Remap

  lemma NoTableStep(m0: Mem, own0: Owners, m: Mem, own: Owners, d: int, lo: int, p: int, hi: int)
    requires Shrunk(m0, own0, m, own, d, lo, p) && WalkAt(m0.tabs[d], lo, p) && p < hi <= KERNPAGE
    requires !HasTable(m, d, p)
    ensures var q := p + N;
            && Shrunk(m0, own0, m, own, d, lo, if q < hi then q else hi)
            && (q < hi ==> WalkAt(m0.tabs[d], lo, q))
  {
    hide Inv, FrameShrunk, EntryShrunk, WalkAt, Skipped;
    var dir, q := m0.tabs[d], p + N;
    var top := if q < hi then q else hi;
    forall v | p <= v < top && Gone(dir, lo, top, v) ensures Lookup(m0, d, v) == Absent {
      WalkBounds(dir, lo, p);
      JumpCovers(dir, lo, p, v);
      TableIsOwned(m0, own0, d, v);
    }
    WalkBounds(dir, lo, p);
    ShrunkPast(m0, own0, m, own, d, lo, p, top);
    if q < hi {
      WalkJump(dir, lo, p);
    }
  }

  lemma WalkBounds(dir: Table, lo: int, p: int)
    requires WalkAt(dir, lo, p)
    ensures |dir.e| == N && 0 <= lo <= p < TOPPAGE
    ensures dir.e[p / N].Pte? ==> Gone(dir, lo, p + 1, p)
  {
  }

  lemma WalkOn(m0: Mem, own0: Owners, m: Mem, own: Owners, d: int, lo: int, p: int, hi: int)
    requires Shrunk(m0, own0, m, own, d, lo, p) && WalkAt(m0.tabs[d], lo, p) && p < hi <= KERNPAGE
    requires HasTable(m, d, p)
    ensures lo <= p && Gone(m0.tabs[d], lo, p + 1, p) && (p + 1 < hi ==> WalkAt(m0.tabs[d], lo, p + 1))
    ensures Lookup(m, d, p) == Absent ==> Shrunk(m0, own0, m, own, d, lo, p + 1)
  {
    hide Inv, Lookup, FrameShrunk, WalkAt, Skipped;
    WalkBounds(m0.tabs[d], lo, p);
    if p + 1 < hi {
      WalkNext(m0.tabs[d], lo, p);
    }
    if Lookup(m, d, p) == Absent {
      assert EntryShrunk(m0, m, d, lo, p, d, p);
      ShrunkPast(m0, own0, m, own, d, lo, p, p + 1);
    }
  }

  /** A frame the allocator has not seen joins the free list. */
  lemma NewFrame(m: Mem, own: Owners, f: int)
    requires Inv(m, own) && f !in own
    ensures Inv(VmSpec.Kfree(m, f), own[f := Free])
  {
    var r, own' := VmSpec.Kfree(m, f), own[f := Free];
    assert f !in m.tabs && r.tabs == m.tabs;
    forall g | g in own' ensures FrameOk(r, own', g) {
      if g != f {
        assert FrameOk(m, own, g);
      }
    }
    forall d, x | IsDir(own', d) && 0 <= x < N && IsTable(r, d) ensures PdeOk(r, own', d, x) {
      assert IsDir(own, d) && PdeOk(m, own, d, x);
    }
    forall d, v | IsDir(own', d) && 0 <= v < KERNPAGE && IsTable(r, d) ensures PteOk(r, own', d, v) {
      assert IsDir(own, d) && PteOk(m, own, d, v);
    }
  }
}
