/** The user-level heap of umalloc.c: Kernighan and Ritchie's circular free list.

    Addresses count header-sized units.  A free list is described by its blocks in
    address order; `Heap` holds the ptr and size fields of every header in memory
    and relinks them as the C code does. */
module Umalloc {
  import opened Params

  const HEADER := 8              // sizeof(Header)
  const MINUNITS := 4096         // morecore asks for at least this many units

  datatype Blk = Blk(addr: int, size: int)

  function End(b: Blk): int { b.addr + b.size }

  // ---------- free lists as values ----------

  /** Blocks above `base`, in address order, none touching the next: ordered,
      disjoint and fully coalesced. */
  ghost predicate Coalesced(base: int, fs: seq<Blk>) {
    && (forall i :: 0 <= i < |fs| ==> base < fs[i].addr && 0 < fs[i].size)
    && (forall i, j :: 0 <= i < j < |fs| ==> End(fs[i]) < fs[j].addr)
  }

  predicate Apart(a: Blk, b: Blk) {
    End(a) <= b.addr || End(b) <= a.addr
  }

  ghost predicate ApartFrom(b: Blk, fs: seq<Blk>) {
    forall i :: 0 <= i < |fs| ==> Apart(b, fs[i])
  }

  function Units(fs: seq<Blk>): (n: int) {
    if fs == [] then 0 else fs[0].size + Units(fs[1..])
  }

  predicate Covers(fs: seq<Blk>, u: int) {
    exists i :: 0 <= i < |fs| && fs[i].addr <= u < End(fs[i])
  }

  lemma {:induction false} UnitsConcat(a: seq<Blk>, b: seq<Blk>)
    ensures Units(a + b) == Units(a) + Units(b)
    decreases |a|
  {
    if a == [] {
      assert a + b == b;
    } else {
      UnitsConcat(a[1..], b);
      assert (a + b)[1..] == a[1..] + b;
    }
  }

  lemma UnitsSplice(a: seq<Blk>, b: Blk, c: seq<Blk>)
    ensures Units(a + [b] + c) == Units(a) + b.size + Units(c)
  {
    UnitsConcat(a, [b] + c);
    UnitsConcat([b], c);
    assert a + [b] + c == a + ([b] + c);
    assert [b][1..] == [];
  }

  /** How many blocks start below an address. */
  function Below(fs: seq<Blk>, a: int): (p: nat)
    ensures p <= |fs|
    ensures p < |fs| ==> fs[p].addr >= a
    ensures forall i :: 0 <= i < p ==> fs[i].addr < a
    decreases |fs|
  {
    if fs == [] || fs[0].addr >= a then 0 else
      var q := Below(fs[1..], a);
      assert forall i :: 1 <= i <= q ==> fs[i] == fs[1..][i-1];
      q + 1
  }

  predicate TouchesNext(fs: seq<Blk>, b: Blk) {
    var p := Below(fs, b.addr);
    p < |fs| && End(b) == fs[p].addr
  }

  predicate TouchesPrev(fs: seq<Blk>, b: Blk) {
    var p := Below(fs, b.addr);
    p > 0 && End(fs[p-1]) == b.addr
  }

  /** The blocks below position Keep stay as they are, and so do those from Resume on;
      what lies between them and b become one block. */
  function Keep(fs: seq<Blk>, b: Blk): (q: nat)
    ensures q <= |fs|
  {
    if TouchesPrev(fs, b) then Below(fs, b.addr) - 1 else Below(fs, b.addr)
  }

  function Resume(fs: seq<Blk>, b: Blk): (r: nat)
    ensures r <= |fs|
  {
    if TouchesNext(fs, b) then Below(fs, b.addr) + 1 else Below(fs, b.addr)
  }

  function Merged(fs: seq<Blk>, b: Blk): (m: Blk) {
    var p := Below(fs, b.addr);
    var up := if TouchesNext(fs, b) then b.size + fs[p].size else b.size;
    if TouchesPrev(fs, b) then Blk(fs[p-1].addr, fs[p-1].size + up) else Blk(b.addr, up)
  }

  /** Put a block back in its place, coalescing it with the block above and with the
      block below. */
  function Insert(fs: seq<Blk>, b: Blk): (r: seq<Blk>) {
    fs[..Keep(fs, b)] + [Merged(fs, b)] + fs[Resume(fs, b)..]
  }

  lemma InsertPlace(base: int, fs: seq<Blk>, b: Blk)
    requires Coalesced(base, fs) && ApartFrom(b, fs) && 0 < b.size
    ensures var p := Below(fs, b.addr);
            && (forall i :: 0 <= i < p ==> End(fs[i]) <= b.addr)
            && (forall i :: p <= i < |fs| ==> End(b) <= fs[i].addr)
  {
    var p := Below(fs, b.addr);
    forall i | 0 <= i < p ensures End(fs[i]) <= b.addr {
      assert Apart(b, fs[i]);
    }
    forall i | p <= i < |fs| ensures End(b) <= fs[i].addr {
      assert Apart(b, fs[i]);
    }
  }

  /** The merged block fits strictly between what is kept below and above it. */
  lemma MergedFits(base: int, fs: seq<Blk>, b: Blk)
    requires Coalesced(base, fs) && ApartFrom(b, fs) && 0 < b.size && base < b.addr
    ensures var m := Merged(fs, b);
            && base < m.addr && 0 < m.size && Keep(fs, b) <= Resume(fs, b)
            && (forall i :: 0 <= i < Keep(fs, b) ==> End(fs[i]) < m.addr)
            && (forall i :: Resume(fs, b) <= i < |fs| ==> End(m) < fs[i].addr)
  {
    InsertPlace(base, fs, b);
    var p := Below(fs, b.addr);
    var m := Merged(fs, b);
    forall i | 0 <= i < Keep(fs, b) ensures End(fs[i]) < m.addr {
      assert i < p - 1 ==> End(fs[i]) < fs[p-1].addr;
    }
    forall i | Resume(fs, b) <= i < |fs| ensures End(m) < fs[i].addr {
      assert p < i ==> End(fs[p]) < fs[i].addr;
    }
  }

  lemma SpliceCoalesced(base: int, fs: seq<Blk>, q: nat, m: Blk, r: nat)
    requires Coalesced(base, fs) && q <= r <= |fs| && base < m.addr && 0 < m.size
    requires forall i :: 0 <= i < q ==> End(fs[i]) < m.addr
    requires forall i :: r <= i < |fs| ==> End(m) < fs[i].addr
    ensures Coalesced(base, fs[..q] + [m] + fs[r..])
  {
    var s := fs[..q] + [m] + fs[r..];
    assert forall k :: 0 <= k < |s| ==> s[k] == if k < q then fs[k] else if k == q then m else fs[k-q-1+r];
    forall i, j | 0 <= i < j < |s| ensures End(s[i]) < s[j].addr {
      if i != q && j != q {
        var i0, j0 := if i < q then i else i-q-1+r, if j < q then j else j-q-1+r;
        assert End(fs[i0]) < fs[j0].addr;
      }
    }
  }

  /** Freeing keeps the list ordered, disjoint and fully coalesced. */
  lemma InsertCoalesced(base: int, fs: seq<Blk>, b: Blk)
    requires Coalesced(base, fs) && ApartFrom(b, fs) && 0 < b.size && base < b.addr
    ensures Coalesced(base, Insert(fs, b))
  {
    MergedFits(base, fs, b);
    SpliceCoalesced(base, fs, Keep(fs, b), Merged(fs, b), Resume(fs, b));
  }

  lemma {:induction false} UnitsRange(fs: seq<Blk>, q: nat, r: nat)
    requires q <= r <= |fs|
    ensures Units(fs) == Units(fs[..q]) + Units(fs[q..r]) + Units(fs[r..])
  {
    UnitsConcat(fs[..q], fs[q..r]);
    UnitsConcat(fs[..q] + fs[q..r], fs[r..]);
    assert fs[..q] + fs[q..r] + fs[r..] == fs;
  }

  /** Freeing a block adds exactly its units to the free list. */
  lemma InsertUnits(base: int, fs: seq<Blk>, b: Blk)
    requires Coalesced(base, fs) && ApartFrom(b, fs) && 0 < b.size && base < b.addr
    ensures Units(Insert(fs, b)) == Units(fs) + b.size
  {
    var q, r, p := Keep(fs, b), Resume(fs, b), Below(fs, b.addr);
    MergedFits(base, fs, b);
    UnitsRange(fs, q, r);
    UnitsSplice(fs[..q], Merged(fs, b), fs[r..]);
    var gone := fs[q..r];
    assert gone == (if q < p then [fs[p-1]] else []) + (if p < r then [fs[p]] else []);
    UnitsConcat(if q < p then [fs[p-1]] else [], if p < r then [fs[p]] else []);
    assert forall x: Blk :: Units([x]) == x.size;
  }

  /** The merged block covers b and what it absorbs. */
  lemma MergedCovers(base: int, fs: seq<Blk>, b: Blk, u: int)
    requires Coalesced(base, fs) && 0 < b.size
    ensures Keep(fs, b) <= Resume(fs, b)
    ensures var m := Merged(fs, b);
            m.addr <= u < End(m) <==>
              || b.addr <= u < End(b)
              || (exists i :: Keep(fs, b) <= i < Resume(fs, b) && fs[i].addr <= u < End(fs[i]))
  {
    var p := Below(fs, b.addr);
    assert TouchesPrev(fs, b) ==> Keep(fs, b) == p - 1 && fs[p-1].size > 0;
    assert TouchesNext(fs, b) ==> Resume(fs, b) == p + 1 && fs[p].size > 0;
  }

  /** Freeing loses and invents nothing: the free units are the old ones and b's. */
  lemma InsertCovers(base: int, fs: seq<Blk>, b: Blk, u: int)
    requires Coalesced(base, fs) && ApartFrom(b, fs) && 0 < b.size && base < b.addr
    ensures Covers(Insert(fs, b), u) <==> Covers(fs, u) || b.addr <= u < End(b)
  {
    hide Coalesced, ApartFrom, Keep, Resume, Merged, Below;
    MergedCovers(base, fs, b, u);
    CoversSplice(fs, Keep(fs, b), Merged(fs, b), Resume(fs, b), u);
  }

  lemma CoversSplice(fs: seq<Blk>, q: nat, m: Blk, r: nat, u: int)
    requires q <= r <= |fs|
    ensures Covers(fs[..q] + [m] + fs[r..], u) <==>
              || (exists i :: 0 <= i < |fs| && !(q <= i < r) && fs[i].addr <= u < End(fs[i]))
              || m.addr <= u < End(m)
  {
    var s := fs[..q] + [m] + fs[r..];
    if Covers(s, u) {
      var k :| 0 <= k < |s| && s[k].addr <= u < End(s[k]);
      var i := if k < q then k else k - q - 1 + r;
      assert k != q ==> s[k] == fs[i];
    }
    if i :| 0 <= i < |fs| && !(q <= i < r) && fs[i].addr <= u < End(fs[i]) {
      assert s[if i < q then i else i - r + q + 1] == fs[i];
    }
    if m.addr <= u < End(m) {
      assert s[q] == m;
    }
  }

  /** Take n units off the end of block i, or all of it. */
  function Carve(fs: seq<Blk>, i: nat, n: int): (r: seq<Blk>)
    requires i < |fs| && fs[i].size >= n
  {
    if fs[i].size == n then fs[..i] + fs[i+1..]
    else fs[i := Blk(fs[i].addr, fs[i].size - n)]
  }

  /** The block handed out. */
  function Carved(fs: seq<Blk>, i: nat, n: int): (b: Blk)
    requires i < |fs| && fs[i].size >= n
    ensures b.size == n && End(b) == End(fs[i])
  {
    Blk(fs[i].addr + fs[i].size - n, n)
  }

  lemma CarveCoalesced(base: int, fs: seq<Blk>, i: nat, n: int)
    requires Coalesced(base, fs) && i < |fs| && 0 < n <= fs[i].size
    ensures Coalesced(base, Carve(fs, i, n)) && ApartFrom(Carved(fs, i, n), Carve(fs, i, n))
    ensures base < Carved(fs, i, n).addr
  {
    var r := Carve(fs, i, n);
    if fs[i].size == n {
      assert forall k :: 0 <= k < |r| ==> r[k] == fs[if k < i then k else k + 1];
    }
  }

  lemma CarveUnits(fs: seq<Blk>, i: nat, n: int)
    requires i < |fs| && fs[i].size >= n
    ensures Units(Carve(fs, i, n)) == Units(fs) - n
  {
    UnitsRange(fs, i, i + 1);
    assert fs[i..i+1] == [fs[i]] && Units([fs[i]]) == fs[i].size;
    if fs[i].size == n {
      UnitsConcat(fs[..i], fs[i+1..]);
    } else {
      var b := Blk(fs[i].addr, fs[i].size - n);
      assert fs[i := b] == fs[..i] + [b] + fs[i+1..];
      UnitsSplice(fs[..i], b, fs[i+1..]);
    }
  }

  /** A block apart from every free block stays so when free blocks shrink or merge. */
  lemma ApartCarve(b: Blk, fs: seq<Blk>, i: nat, n: int)
    requires ApartFrom(b, fs) && i < |fs| && 0 < n <= fs[i].size
    ensures ApartFrom(b, Carve(fs, i, n)) && Apart(b, Carved(fs, i, n))
  {
    assert Apart(b, fs[i]);
    var r := Carve(fs, i, n);
    if fs[i].size == n {
      assert forall k :: 0 <= k < |r| ==> r[k] == fs[if k < i then k else k + 1];
    }
  }

  lemma ApartInsert(base: int, c: Blk, fs: seq<Blk>, b: Blk)
    requires Coalesced(base, fs) && ApartFrom(b, fs) && 0 < b.size && base < b.addr && 0 < c.size
    requires ApartFrom(c, fs) && Apart(c, b)
    ensures ApartFrom(c, Insert(fs, b))
  {
    MergedFits(base, fs, b);
    ApartMerged(base, c, fs, b);
    ApartSplice(c, fs, Keep(fs, b), Merged(fs, b), Resume(fs, b));
  }

  lemma ApartSplice(c: Blk, fs: seq<Blk>, q: nat, m: Blk, r: nat)
    requires ApartFrom(c, fs) && Apart(c, m) && q <= r <= |fs|
    ensures ApartFrom(c, fs[..q] + [m] + fs[r..])
  {
    var s := fs[..q] + [m] + fs[r..];
    forall k | 0 <= k < |s| ensures Apart(c, s[k]) {
      assert k < q ==> s[k] == fs[k];
      assert k > q ==> s[k] == fs[k-q-1+r];
    }
  }

  lemma ApartMerged(base: int, c: Blk, fs: seq<Blk>, b: Blk)
    requires Coalesced(base, fs) && ApartFrom(b, fs) && 0 < b.size && 0 < c.size
    requires ApartFrom(c, fs) && Apart(c, b)
    ensures Apart(c, Merged(fs, b))
  {
    var p := Below(fs, b.addr);
    assert p > 0 ==> Apart(c, fs[p-1]);
    assert p < |fs| ==> Apart(c, fs[p]);
  }

  // ---------- free lists in memory ----------

  /** Node k of the ring: the static `base` header, then the free blocks. */
  function Node(base: int, fs: seq<Blk>, k: int): int
    requires 0 <= k <= |fs|
  {
    if k == 0 then base else fs[k-1].addr
  }

  function NodeSize(fs: seq<Blk>, k: int): int
    requires 0 <= k <= |fs|
  {
    if k == 0 then 0 else fs[k-1].size
  }

  function NextNode(base: int, fs: seq<Blk>, k: int): int
    requires 0 <= k <= |fs|
  {
    if k == |fs| then base else fs[k].addr
  }

  predicate RepAt(base: int, ptr: map<int, int>, size: map<int, int>, fs: seq<Blk>, k: int)
    requires 0 <= k <= |fs|
  {
    var x := Node(base, fs, k);
    x in ptr && x in size && ptr[x] == NextNode(base, fs, k) && size[x] == NodeSize(fs, k)
  }

  /** The headers link the blocks in address order, with one wrap through base. */
  ghost predicate Rep(base: int, ptr: map<int, int>, size: map<int, int>, fs: seq<Blk>) {
    forall k :: 0 <= k <= |fs| ==> RepAt(base, ptr, size, fs, k)
  }

  ghost predicate SameExcept(m: map<int, int>, m': map<int, int>, s: set<int>) {
    forall x :: x in m && x !in s ==> x in m' && m'[x] == m[x]
  }

  /** Replacing the blocks between q and r by m, with the pointers around it redirected. */
  lemma RepSplice(base: int, ptr: map<int, int>, size: map<int, int>, fs: seq<Blk>,
                  q: nat, m: Blk, r: nat, ptr': map<int, int>, size': map<int, int>, bp: int)
    requires Rep(base, ptr, size, fs) && Coalesced(base, fs) && q <= r <= |fs|
    requires Coalesced(base, fs[..q] + [m] + fs[r..])
    requires forall k :: 0 <= k <= |fs| ==> Node(base, fs, k) != bp
    requires SameExcept(ptr, ptr', {m.addr, Node(base, fs, q), bp}) && SameExcept(size, size', {m.addr, bp})
    requires m.addr in ptr' && ptr'[m.addr] == NextNode(base, fs, r) && m.addr in size' && size'[m.addr] == m.size
    requires Node(base, fs, q) in ptr' && ptr'[Node(base, fs, q)] == m.addr
    ensures Rep(base, ptr', size', fs[..q] + [m] + fs[r..])
  {
    var s := fs[..q] + [m] + fs[r..];
    forall k | 0 <= k <= |s| ensures RepAt(base, ptr', size', s, k) {
      SpliceNode(base, fs, q, m, r, k);
      SpliceNode(base, fs, q, m, r, q + 1);
      NodesDistinct(base, s, k, q + 1);
      if k <= q {
        assert RepAt(base, ptr, size, fs, k);
        NodesDistinct(base, fs, k, q);
      } else if k > q + 1 {
        assert RepAt(base, ptr, size, fs, k - q - 1 + r);
        NodesDistinct(base, fs, k - q - 1 + r, q);
      }
    }
  }

  lemma SpliceNode(base: int, fs: seq<Blk>, q: nat, m: Blk, r: nat, k: nat)
    requires q <= r <= |fs| && k <= q + 1 + |fs| - r
    ensures var s := fs[..q] + [m] + fs[r..];
            && |s| == q + 1 + |fs| - r
            && Node(base, s, k) == (if k <= q then Node(base, fs, k) else if k == q + 1 then m.addr else Node(base, fs, k - q - 1 + r))
            && NodeSize(s, k) == (if k <= q then NodeSize(fs, k) else if k == q + 1 then m.size else NodeSize(fs, k - q - 1 + r))
            && NextNode(base, s, k) == (if k < q then NextNode(base, fs, k) else if k == q then m.addr else NextNode(base, fs, k - q - 1 + r))
  {
  }

  /** Unlinking block i. */
  lemma RepRemove(base: int, ptr: map<int, int>, size: map<int, int>, fs: seq<Blk>, i: nat, ptr': map<int, int>)
    requires Rep(base, ptr, size, fs) && Coalesced(base, fs) && i < |fs|
    requires ptr' == ptr[Node(base, fs, i) := NextNode(base, fs, i + 1)]
    ensures Rep(base, ptr', size, fs[..i] + fs[i+1..])
  {
    var s := fs[..i] + fs[i+1..];
    assert forall k :: 0 <= k < |s| ==> s[k] == fs[if k < i then k else k + 1];
    forall k | 0 <= k <= |s| ensures RepAt(base, ptr', size, s, k) {
      if k <= i {
        assert RepAt(base, ptr, size, fs, k);
        assert k < i ==> Node(base, fs, k) != Node(base, fs, i);
      } else {
        assert RepAt(base, ptr, size, fs, k + 1);
        assert Node(base, fs, k + 1) != Node(base, fs, i);
      }
    }
  }

  /** Shrinking block i and writing a header into the part cut off. */
  lemma RepShrink(base: int, ptr: map<int, int>, size: map<int, int>, fs: seq<Blk>, i: nat, n: int, size': map<int, int>)
    requires Rep(base, ptr, size, fs) && Coalesced(base, fs) && i < |fs| && 0 < n < fs[i].size
    requires size' == size[fs[i].addr := fs[i].size - n][fs[i].addr + fs[i].size - n := n]
    ensures Rep(base, ptr, size', Carve(fs, i, n))
  {
    var s := Carve(fs, i, n);
    var cut := fs[i].addr + fs[i].size - n;
    forall k | 0 <= k <= |s| ensures RepAt(base, ptr, size', s, k) {
      assert RepAt(base, ptr, size, fs, k);
      assert k != i + 1 ==> Node(base, fs, k) != fs[i].addr;
      assert Node(base, fs, k) != cut;
    }
  }

  // ---------- live blocks ----------

  ghost predicate LiveOk(base: int, size: map<int, int>, fs: seq<Blk>, live: seq<Blk>) {
    && (forall i :: 0 <= i < |live| ==> LiveBlk(base, size, fs, live[i]))
    && (forall i, j :: 0 <= i < j < |live| ==> Apart(live[i], live[j]))
  }

  ghost predicate LiveBlk(base: int, size: map<int, int>, fs: seq<Blk>, b: Blk) {
    base < b.addr && 0 < b.size && ApartFrom(b, fs) && b.addr in size && size[b.addr] == b.size
  }

  function Removed(live: seq<Blk>, j: nat): (r: seq<Blk>)
    requires j < |live|
  {
    live[..j] + live[j+1..]
  }

  lemma RemovedUnits(live: seq<Blk>, j: nat)
    requires j < |live|
    ensures Units(Removed(live, j)) == Units(live) - live[j].size
  {
    UnitsRange(live, j, j + 1);
    UnitsConcat(live[..j], live[j+1..]);
    assert live[j..j+1] == [live[j]] && Units([live[j]]) == live[j].size;
  }

  /** Exactly at the predecessor of a block does free's search stop. */
  predicate SearchStops(p: int, next: int, bp: int) {
    (bp > p && bp < next) || (p >= next && (bp > p || bp < next))
  }

  lemma StopsAtPredecessor(base: int, fs: seq<Blk>, b: Blk, k: nat)
    requires Coalesced(base, fs) && ApartFrom(b, fs) && 0 < b.size && base < b.addr && k <= |fs|
    ensures SearchStops(Node(base, fs, k), NextNode(base, fs, k), b.addr) <==> k == Below(fs, b.addr)
  {
    InsertPlace(base, fs, b);
    var t := Below(fs, b.addr);
    assert 0 < k && k < |fs| ==> fs[k-1].addr < fs[k].addr;
    assert k > 0 ==> Apart(b, fs[k-1]);
    assert k < |fs| ==> Apart(b, fs[k]);
  }

  /** Steps from node k to node t, going round. */
  function Distance(k: int, t: int, n: int): int {
    if k <= t then t - k else t - k + n + 1
  }

  lemma FreeKeepsLive(base: int, size: map<int, int>, size': map<int, int>, fs: seq<Blk>, live: seq<Blk>, j: nat, p: int)
    requires Coalesced(base, fs) && LiveOk(base, size, fs, live) && j < |live|
    requires SameExcept(size, size', {live[j].addr, p})
    requires p == base || exists i :: 0 <= i < |fs| && fs[i].addr == p
    ensures LiveOk(base, size', Insert(fs, live[j]), Removed(live, j))
  {
    hide Insert, LiveBlk, Coalesced, SameExcept, Apart;
    var r, b := Removed(live, j), live[j];
    assert forall i :: 0 <= i < |r| ==> r[i] == live[if i < j then i else i + 1];
    forall i | 0 <= i < |r| ensures LiveBlk(base, size', Insert(fs, b), r[i]) {
      var k := if i < j then i else i + 1;
      LiveApart(live[k], b);
      assert LiveBlk(base, size, fs, live[k]) && LiveBlk(base, size, fs, b);
      assert Apart(live[if k < j then k else j], live[if k < j then j else k]);
      LiveStays(base, size, size', fs, live[k], b, p);
    }
  }

  lemma LiveApart(a: Blk, b: Blk)
    ensures Apart(a, b) <==> Apart(b, a)
  {
  }

  /** Another live block stays live when b joins the free list. */
  lemma LiveStays(base: int, size: map<int, int>, size': map<int, int>, fs: seq<Blk>, c: Blk, b: Blk, p: int)
    requires Coalesced(base, fs) && LiveBlk(base, size, fs, c) && LiveBlk(base, size, fs, b) && Apart(c, b)
    requires SameExcept(size, size', {b.addr, p})
    requires p == base || exists i :: 0 <= i < |fs| && fs[i].addr == p
    ensures LiveBlk(base, size', Insert(fs, b), c)
  {
    hide Insert;
    ApartInsert(base, c, fs, b);
  }

  class Heap {
    const base: int
    var ptr: map<int, int>        // the ptr field of every header in memory
    var size: map<int, int>       // and its size field
    var freep: int                // 0 until the first malloc
    ghost var free: seq<Blk>
    ghost var live: seq<Blk>
    ghost var got: int            // units obtained from sbrk

    /** The ring is address-ordered, coalesced and apart from every live block, and
        free and live units add up to what sbrk gave. */
    ghost predicate Valid()
      reads this
    {
      && 0 < base && Coalesced(base, free) && LiveOk(base, size, free, live)
      && Units(free) + Units(live) == got
      && (freep == 0 ==> free == [] && live == [])
      && (freep != 0 ==> Rep(base, ptr, size, free) && OnRing(freep))
    }

    ghost predicate OnRing(p: int)
      reads this
    {
      exists k :: 0 <= k <= |free| && Node(base, free, k) == p
    }

    constructor (b: int)
      requires 0 < b
      ensures Valid() && base == b && live == [] && free == [] && got == 0
    {
      base := b;
      ptr, size, freep := map[], map[], 0;
      free, live, got := [], [], 0;
    }

    /** The search of free: one lap at most. */
    method FindPredecessor(bp: int, ghost b: Blk) returns (p: int)
      requires Valid() && freep != 0
      requires b.addr == bp && ApartFrom(b, free) && 0 < b.size && base < bp
      ensures p == Node(base, free, Below(free, bp))
    {
      hide Coalesced, ApartFrom, LiveOk, Below, Units;
      p := freep;
      ghost var n, t, steps := |free|, Below(free, bp), 0;
      ghost var k :| 0 <= k <= n && Node(base, free, k) == freep;
      assert RepAt(base, ptr, size, free, k);
      while !(bp > p && bp < ptr[p])
        invariant 0 <= k <= n && p in ptr && p == Node(base, free, k)
        invariant 0 <= steps && steps + Distance(k, t, n) <= n
        decreases Distance(k, t, n)
      {
        assert RepAt(base, ptr, size, free, k);
        StopsAtPredecessor(base, free, b, k);
        if p >= ptr[p] && (bp > p || bp < ptr[p]) {
          break;
        }
        p := ptr[p];
        k := if k == n then 0 else k + 1;
        assert RepAt(base, ptr, size, free, k);
        steps := steps + 1;
      }
      assert RepAt(base, ptr, size, free, k);
      StopsAtPredecessor(base, free, b, k);
    }

    /** Link a block in behind its predecessor, joining it with its neighbours. */
    method LinkBlock(p: int, bp: int)
      requires p in ptr && p in size && bp in size && ptr[p] in ptr && ptr[p] in size
      modifies this`ptr, this`size
      ensures (ptr, size) == Relink(old(ptr), old(size), p, bp)
    {
      var up := ptr[p];
      if bp + size[bp] == up {
        size := size[bp := size[bp] + size[up]];
        ptr := ptr[bp := ptr[up]];
      } else {
        ptr := ptr[bp := up];
      }
      if p + size[p] == bp {
        size := size[p := size[p] + size[bp]];
        ptr := ptr[p := ptr[bp]];
      } else {
        ptr := ptr[p := bp];
      }
    }

    /** Return a block to the heap; `j` says which live block it is. */
    method Free(ap: int, ghost j: nat)
      requires Valid() && j < |live| && live[j].addr == ap - 1
      modifies this
      ensures Valid() && got == old(got) && freep != 0
      ensures live == Removed(old(live), j) && free == Insert(old(free), old(live)[j])
      ensures freep == Node(base, old(free), Below(old(free), ap - 1))
    {
      hide Coalesced, Units, Insert, Removed, Relink;
      var bp := ap - 1;
      ghost var b := live[j];
      assert LiveBlk(base, size, free, b);
      var p := FindPredecessor(bp, b);
      RelinkInserts(base, ptr, size, free, b);
      LinkBlock(p, bp);
      freep := p;
      ghost var k := Below(free, bp);
      FreeKeepsLive(base, old(size), size, free, live, j, p);
      InsertCoalesced(base, free, b);
      InsertUnits(base, free, b);
      RemovedUnits(live, j);
      NodeKept(base, free, b);
      live := Removed(live, j);
      free := Insert(free, b);
      assert Node(base, free, k) == p;
    }

    /** Ask sbrk for at least MINUNITS units and free them; `brk` is what sbrk does.
        `wild` means the code now writes a header where sbrk gave no memory; what comes
        of that is not described. */
    method Morecore(nu: int, brk: Brk) returns (p: int, wild: bool)
      requires Valid() && freep != 0 && 0 < nu && SbrkAnswers(base, free, live, nu, brk)
      modifies this
      ensures wild <==> brk.NotGiven?
      ensures !wild ==> Valid() && freep != 0 && live == old(live)
      ensures brk.Fail? ==> p == 0 && free == old(free) && freep == old(freep) && got == old(got)
      ensures brk.At? ==> p == freep && free == Insert(old(free), Blk(brk.addr, AskFor(nu))) && got == old(got) + AskFor(nu)
      ensures brk.At? ==> freep == Node(base, old(free), Below(old(free), brk.addr))
    {
      var n := if nu < MINUNITS then MINUNITS else nu;
      if brk.Fail? {
        return 0, false;
      }
      if brk.NotGiven? {
        return 0, true;
      }
      ghost var b := Blk(brk.addr, n);
      GrowKeeps(base, ptr, size, free, live, b);
      UnitsConcat(live, [b]);
      assert Units([b]) == n;
      size := size[brk.addr := n];
      live := live + [b];
      got := got + n;
      Free(brk.addr + 1, |live| - 1);
      assert live == old(live);
      return freep, false;
    }

    /** Unlink a block that fits exactly, or cut the allocation off its end. */
    method CutBlock(p: int, prevp: int, nunits: int) returns (a: int)
      requires p in ptr && p in size
      modifies this`ptr, this`size
      ensures (ptr, size, a) == Cut(old(ptr), old(size), p, prevp, nunits)
    {
      if size[p] == nunits {
        ptr := ptr[prevp := ptr[p]];
        a := p;
      } else {
        size := size[p := size[p] - nunits];
        a := p + size[p];
        size := size[a := nunits];
      }
    }

    method TakeBlock(p: int, prevp: int, nunits: int, ghost i: int) returns (a: int)
      requires Valid() && freep != 0 && 0 < nunits && FitAt(base, free, p, prevp, nunits, i)
      requires FirstFit(base, free, freep, p, prevp, nunits)
      modifies this
      ensures Valid() && freep == prevp && got == old(got) && base < a
      ensures Took(base, old(free), old(freep), free, freep, nunits, a) && Handed(old(live), live, nunits, a + 1)
    {
      hide Coalesced, Units, LiveOk, FirstFit;
      CutAllocates(base, ptr, size, free, live, i, nunits);
      a := CutBlock(p, prevp, nunits);
      freep := prevp;
      live := live + [Carved(free, i, nunits)];
      free := Carve(free, i, nunits);
      assert Node(base, free, i) == freep;
    }

    /** One lap of malloc's loop, from the node after freep up to freep itself. */
    method ScanLap(nunits: int) returns (p: int, prevp: int, ghost i: int)
      requires Valid() && freep != 0 && 0 < nunits
      ensures p == 0 <==> !HasFit(free, nunits)
      ensures p != 0 ==> FitAt(base, free, p, prevp, nunits, i) && FirstFit(base, free, freep, p, prevp, nunits)
    {
      ghost var f := ScanStart(base, ptr, size, free, freep, nunits);
      ghost var s := 0;
      prevp := freep;
      p := ptr[prevp];
      while true
        invariant Scanning(base, free, freep, f, s, p, prevp, nunits)
        decreases |free| - s
      {
        i := ScanNode(base, ptr, size, free, freep, f, s, p, prevp, nunits);
        if size[p] >= nunits {
          return;
        }
        if p == freep {
          p := 0;
          return;
        }
        prevp := p;
        p := ptr[p];
        s := s + 1;
      }
    }

    /** The loop of malloc: a lap without a fit calls morecore and starts over.  It
        does so at most once.  `brk` is what sbrk would do. */
    method FindFit(nunits: int, brk: Brk) returns (p: int, prevp: int, wild: bool, ghost i: int)
      requires Valid() && freep != 0 && 0 < nunits && SbrkAnswers(base, free, live, nunits, brk)
      modifies this
      ensures wild <==> brk.NotGiven? && !HasFit(old(free), nunits)
      ensures !wild ==> Valid() && freep != 0 && live == old(live)
      ensures !wild && p == 0 ==> brk.Fail? && !HasFit(free, nunits) && free == old(free) && got == old(got)
      ensures !wild && p != 0 ==> FitAt(base, free, p, prevp, nunits, i) && FirstFit(base, free, freep, p, prevp, nunits)
      ensures !wild ==>
                || (free == old(free) && got == old(got) && freep == old(freep))
                || (Grown(brk, nunits, old(free), free, old(got), got) && freep == Node(base, old(free), Below(old(free), brk.addr)))
    {
      ghost var asked := false;
      while true
        invariant Valid() && freep != 0 && live == old(live)
        invariant !asked ==> free == old(free) && got == old(got) && freep == old(freep)
        invariant asked ==> Grown(brk, nunits, old(free), free, old(got), got) && freep == Node(base, old(free), Below(old(free), brk.addr))
        decreases !asked
      {
        p, prevp, i := ScanLap(nunits);
        if p != 0 {
          wild := false;
          return;
        }
        p, wild := Morecore(nunits, brk);
        if wild || p == 0 {
          return;
        }
        InsertFits(old(free), Blk(brk.addr, AskFor(nunits)), nunits);
        asked := true;
      }
    }

    /** `wild` aside, malloc fails only if sbrk does, and hands out one new block; the
        units obtained grow by what was asked for exactly when nothing fitted. */
    method Malloc(nbytes: int, brk: Brk) returns (r: int, wild: bool)
      requires Valid() && 0 <= nbytes < W32 && SbrkAnswers(base, free, live, Nunits(nbytes), brk)
      modifies this
      ensures wild <==> brk.NotGiven? && !HasFit(old(free), Nunits(nbytes))
      ensures !wild ==> Valid()
      ensures !wild ==> (r == 0 <==> brk.Fail? && !HasFit(old(free), Nunits(nbytes)))
      ensures !wild && r == 0 ==> free == old(free) && live == old(live) && got == old(got)
      ensures !wild && r != 0 ==> Handed(old(live), live, Nunits(nbytes), r)
      ensures !wild && r != 0 && HasFit(old(free), Nunits(nbytes)) ==>
                Took(base, old(free), Start(base, old(freep)), free, freep, Nunits(nbytes), r - 1) && got == old(got)
      ensures !wild && r != 0 && !HasFit(old(free), Nunits(nbytes)) ==>
                && brk.At? && got == old(got) + AskFor(Nunits(nbytes))
                && Took(base, Insert(old(free), Blk(brk.addr, AskFor(Nunits(nbytes)))), Node(base, old(free), Below(old(free), brk.addr)),
                        free, freep, Nunits(nbytes), r - 1)
    {
      var nunits := Nunits(nbytes);
      if freep == 0 {
        InitRing();
      }
      ghost var i;
      var p, prevp;
      p, prevp, wild, i := FindFit(nunits, brk);
      if wild || p == 0 {
        return 0, wild;
      }
      var a := TakeBlock(p, prevp, nunits, i);
      return a + 1, false;
    }

    /** The first malloc makes base a ring of one empty block. */
    method InitRing()
      requires Valid() && freep == 0
      modifies this`ptr, this`size, this`freep
      ensures Valid() && freep == base && freep != 0
    {
      ptr := ptr[base := base];
      size := size[base := 0];
      freep := base;
      assert RepAt(base, ptr, size, free, 0);
      assert Node(base, free, 0) == freep;
    }
  }

  /** The relinking of free on the header fields. */
  function Relink(ptr: map<int, int>, size: map<int, int>, p: int, bp: int): (r: (map<int, int>, map<int, int>))
    requires p in ptr && p in size && bp in size && ptr[p] in ptr && ptr[p] in size
  {
    var up := ptr[p];
    var size1 := if bp + size[bp] == up then size[bp := size[bp] + size[up]] else size;
    var ptr1 := if bp + size[bp] == up then ptr[bp := ptr[up]] else ptr[bp := up];
    if p + size1[p] == bp then (ptr1[p := ptr1[bp]], size1[p := size1[p] + size1[bp]])
    else (ptr1[p := bp], size1)
  }

  /** The header before b in the ring. */
  lemma PrevFields(base: int, ptr: map<int, int>, size: map<int, int>, fs: seq<Blk>, b: Blk)
    requires Coalesced(base, fs) && Rep(base, ptr, size, fs) && ApartFrom(b, fs) && 0 < b.size && base < b.addr
    ensures var k := Below(fs, b.addr);
            var p := Node(base, fs, k);
            && p in ptr && p in size && p != b.addr && ptr[p] == NextNode(base, fs, k)
            && (p + size[p] == b.addr <==> TouchesPrev(fs, b))
            && (TouchesPrev(fs, b) ==> size[p] == fs[k-1].size)
  {
    var k := Below(fs, b.addr);
    InsertPlace(base, fs, b);
    assert RepAt(base, ptr, size, fs, k);
  }

  /** The header after b in the ring. */
  lemma NextFields(base: int, ptr: map<int, int>, size: map<int, int>, fs: seq<Blk>, b: Blk)
    requires Coalesced(base, fs) && Rep(base, ptr, size, fs) && ApartFrom(b, fs) && 0 < b.size && base < b.addr
    ensures var k := Below(fs, b.addr);
            var n := NextNode(base, fs, k);
            && n in ptr && n in size && n != b.addr
            && (End(b) == n <==> TouchesNext(fs, b))
            && (TouchesNext(fs, b) ==> size[n] == fs[k].size && ptr[n] == NextNode(base, fs, k + 1))
  {
    var k := Below(fs, b.addr);
    InsertPlace(base, fs, b);
    assert RepAt(base, ptr, size, fs, if k < |fs| then k + 1 else 0);
  }

  /** What the relinking looks at agrees with the neighbours of the block. */
  lemma NeighbourFields(base: int, ptr: map<int, int>, size: map<int, int>, fs: seq<Blk>, b: Blk)
    requires Coalesced(base, fs) && Rep(base, ptr, size, fs) && ApartFrom(b, fs) && 0 < b.size && base < b.addr
    ensures var k := Below(fs, b.addr);
            var p := Node(base, fs, k);
            && p in ptr && p in size && ptr[p] in ptr && ptr[p] in size
            && p != b.addr && ptr[p] != b.addr
            && ptr[p] == NextNode(base, fs, k)
            && (End(b) == ptr[p] <==> TouchesNext(fs, b))
            && (p + size[p] == b.addr <==> TouchesPrev(fs, b))
            && (TouchesNext(fs, b) ==> size[ptr[p]] == fs[k].size && ptr[ptr[p]] == NextNode(base, fs, k + 1))
            && (TouchesPrev(fs, b) ==> size[p] == fs[k-1].size)
  {
    hide Coalesced, Rep, ApartFrom, Node, NextNode;
    PrevFields(base, ptr, size, fs, b);
    NextFields(base, ptr, size, fs, b);
  }

  lemma NotANode(base: int, fs: seq<Blk>, b: Blk)
    requires Coalesced(base, fs) && ApartFrom(b, fs) && 0 < b.size && base < b.addr
    ensures forall k :: 0 <= k <= |fs| ==> Node(base, fs, k) != b.addr
  {
    forall k | 0 <= k <= |fs| ensures Node(base, fs, k) != b.addr {
      assert k > 0 ==> Apart(b, fs[k-1]);
    }
  }

  lemma RelinkFields(base: int, ptr: map<int, int>, size: map<int, int>, fs: seq<Blk>, b: Blk)
    requires Coalesced(base, fs) && Rep(base, ptr, size, fs) && ApartFrom(b, fs) && 0 < b.size && base < b.addr
    requires b.addr in size && size[b.addr] == b.size
    ensures var p := Node(base, fs, Below(fs, b.addr));
            && p in ptr && p in size && ptr[p] in ptr && ptr[p] in size
            && var (ptr', size') := Relink(ptr, size, p, b.addr);
            var m, q := Merged(fs, b), Keep(fs, b);
            && SameExcept(ptr, ptr', {m.addr, Node(base, fs, q), b.addr})
            && SameExcept(size, size', {m.addr, b.addr}) && SameExcept(size, size', {b.addr, p})
            && m.addr in ptr' && ptr'[m.addr] == NextNode(base, fs, Resume(fs, b))
            && m.addr in size' && size'[m.addr] == m.size
            && Node(base, fs, q) in ptr' && ptr'[Node(base, fs, q)] == m.addr
  {
    NeighbourFields(base, ptr, size, fs, b);
    NotANode(base, fs, b);
    var k := Below(fs, b.addr);
    if TouchesPrev(fs, b) {
      assert RepAt(base, ptr, size, fs, k - 1);
      assert Node(base, fs, k - 1) < Node(base, fs, k);
    }
  }

  /** The relinked headers represent the list with the block inserted. */
  lemma RelinkInserts(base: int, ptr: map<int, int>, size: map<int, int>, fs: seq<Blk>, b: Blk)
    requires Coalesced(base, fs) && Rep(base, ptr, size, fs) && ApartFrom(b, fs) && 0 < b.size && base < b.addr
    requires b.addr in size && size[b.addr] == b.size
    ensures var p := Node(base, fs, Below(fs, b.addr));
            && p in ptr && p in size && ptr[p] in ptr && ptr[p] in size
            && var (ptr', size') := Relink(ptr, size, p, b.addr);
            Rep(base, ptr', size', Insert(fs, b)) && SameExcept(size, size', {b.addr, p})
  {
    RelinkFields(base, ptr, size, fs, b);
    NotANode(base, fs, b);
    MergedFits(base, fs, b);
    InsertCoalesced(base, fs, b);
    var (ptr', size') := Relink(ptr, size, Node(base, fs, Below(fs, b.addr)), b.addr);
    RepSplice(base, ptr, size, fs, Keep(fs, b), Merged(fs, b), Resume(fs, b), ptr', size', b.addr);
  }

  // ---------- malloc ----------

  /** sbrk fails; gives the memory asked for, at addr; or returns an address without
      having given that memory. */
  datatype Brk = Fail | At(addr: int) | NotGiven

  /** Header units for a request; the sum is computed in 32 bits. */
  function Nunits(nbytes: int): (n: int)
    requires 0 <= nbytes < W32
    ensures 0 < n
  {
    (nbytes + HEADER - 1) % W32 / HEADER + 1
  }

  /** The units behind the header hold the request exactly when the sum does not wrap. */
  lemma NunitsSuffices(nbytes: int)
    requires 0 <= nbytes < W32
    ensures NunitsFits(nbytes) <==> nbytes + HEADER - 1 < W32
  {
  }

  /** And then one unit less would not. */
  lemma NunitsTight(nbytes: int)
    requires 0 <= nbytes && nbytes + HEADER - 1 < W32
    ensures (Nunits(nbytes) - 2) * HEADER < nbytes <= (Nunits(nbytes) - 1) * HEADER
  {
    var sum := nbytes + HEADER - 1;
    assert sum % W32 == sum;
  }

  /** At least MINUNITS units at a time. */
  function AskFor(nu: int): (n: int)
    ensures nu <= n && MINUNITS <= n && (n == nu || n == MINUNITS)
  {
    if nu < MINUNITS then MINUNITS else nu
  }

  /** The argument of sbrk: a 32-bit product read as a signed int. */
  function SbrkArg(nu: int): (n: int)
    requires 0 < nu
    ensures -0x8000_0000 <= n < 0x8000_0000
  {
    var n := AskFor(nu) * HEADER % W32;
    if n < 0x8000_0000 then n else n - W32
  }

  predicate AsksAsMeant(nu: int) {
    AskFor(nu) * HEADER < 0x8000_0000
  }

  /** sbrk is asked for the units meant exactly when their bytes fit a signed int. */
  lemma SbrkAskedIff(nu: int)
    requires 0 < nu
    ensures SbrkArg(nu) == AskFor(nu) * HEADER <==> AsksAsMeant(nu)
  {
  }

  /** Requests for which it is not: the first asks sbrk to give 2^31 bytes back, the
      second asks for nothing at all, and both pass malloc's own 32-bit sum. */
  lemma SbrkMisasked()
    ensures NunitsFits(0x7FFF_FFF8) && SbrkArg(Nunits(0x7FFF_FFF8)) == -0x8000_0000
    ensures NunitsFits(0xFFFF_FFF8) && SbrkArg(Nunits(0xFFFF_FFF8)) == 0
  {
    assert Nunits(0x7FFF_FFF8) == 0x1000_0000 && Nunits(0xFFFF_FFF8) == 0x2000_0000;
  }

  predicate NunitsFits(nbytes: int)
    requires 0 <= nbytes < W32
  {
    (Nunits(nbytes) - 1) * HEADER >= nbytes
  }

  /** sbrk gives the memory meant only when it is asked for it. */
  ghost predicate SbrkAnswers(base: int, fs: seq<Blk>, live: seq<Blk>, nu: int, brk: Brk) {
    match brk
    case Fail => true
    case At(addr) => AsksAsMeant(nu) && FreshBlk(base, fs, live, Blk(addr, AskFor(nu)))
    case NotGiven => !AsksAsMeant(nu)
  }

  /** Memory that belongs to nobody yet. */
  ghost predicate FreshBlk(base: int, fs: seq<Blk>, live: seq<Blk>, b: Blk) {
    base < b.addr && 0 < b.size && ApartFrom(b, fs) && ApartFrom(b, live)
  }

  ghost predicate HasFit(fs: seq<Blk>, n: int) {
    exists i :: 0 <= i < |fs| && fs[i].size >= n
  }

  /** One more block is live: n units whose header lies just before r. */
  ghost predicate Handed(live: seq<Blk>, live': seq<Blk>, n: int, r: int) {
    && |live'| == |live| + 1 && live'[..|live|] == live
    && live'[|live|].addr + 1 == r && live'[|live|].size == n
  }

  ghost predicate Took(base: int, fs: seq<Blk>, freep: int, fs': seq<Blk>, freep': int, n: int, a: int) {
    exists i :: 0 <= i < |fs| && fs[i].size >= n && fs' == Carve(fs, i, n) && a == Carved(fs, i, n).addr &&
      freep' == Node(base, fs, i) && FirstFit(base, fs, freep, fs[i].addr, freep', n)
  }

  /** Where a scan starts: the ring is made by the first malloc. */
  function Start(base: int, freep: int): int { if freep == 0 then base else freep }

  /** After morecore: the list holds the new memory and has a fit, which it had not. */
  ghost predicate Grown(brk: Brk, n: int, fs0: seq<Blk>, fs: seq<Blk>, got0: int, got: int) {
    && brk.At? && fs == Insert(fs0, Blk(brk.addr, AskFor(n))) && got == got0 + AskFor(n)
    && HasFit(fs, n) && !HasFit(fs0, n)
  }

  /** The t-th node after node f, going round a ring of n + 1 nodes. */
  function Lap(f: int, t: int, n: int): int {
    if f + 1 + t <= n then f + 1 + t else f + t - n
  }

  ghost predicate FitAt(base: int, fs: seq<Blk>, p: int, prevp: int, n: int, i: int) {
    0 <= i < |fs| && n <= fs[i].size && p == fs[i].addr && prevp == Node(base, fs, i)
  }

  /** The scan of malloc: s nodes after freep have been looked at and were too small,
      p is the next one and prevp the one before it. */
  ghost predicate Scanning(base: int, fs: seq<Blk>, freep: int, f: int, s: int, p: int, prevp: int, n: int) {
    && 0 <= f <= |fs| && Node(base, fs, f) == freep && 0 <= s <= |fs|
    && p == Node(base, fs, Lap(f, s, |fs|))
    && prevp == Node(base, fs, if s == 0 then f else Lap(f, s - 1, |fs|))
    && forall t :: 0 <= t < s ==> NodeSize(fs, Lap(f, t, |fs|)) < n
  }

  /** p is the first node after freep, going round, that is large enough. */
  ghost predicate FirstFit(base: int, fs: seq<Blk>, freep: int, p: int, prevp: int, n: int) {
    exists f, s :: Scanning(base, fs, freep, f, s, p, prevp, n)
  }

  lemma ScanStart(base: int, ptr: map<int, int>, size: map<int, int>, fs: seq<Blk>, freep: int, n: int) returns (f: int)
    requires Rep(base, ptr, size, fs) && exists k :: 0 <= k <= |fs| && Node(base, fs, k) == freep
    ensures freep in ptr && Scanning(base, fs, freep, f, 0, ptr[freep], freep, n)
  {
    f :| 0 <= f <= |fs| && Node(base, fs, f) == freep;
    assert RepAt(base, ptr, size, fs, f);
  }

  /** Looking at a node ends the scan with a fit, moves it on, or ends the lap. */
  lemma ScanNode(base: int, ptr: map<int, int>, size: map<int, int>, fs: seq<Blk>, freep: int,
                 f: int, s: int, p: int, prevp: int, n: int) returns (i: int)
    requires 0 < base && Coalesced(base, fs) && Rep(base, ptr, size, fs) && 0 < n
    requires Scanning(base, fs, freep, f, s, p, prevp, n)
    ensures p in ptr && p in size
    ensures size[p] >= n ==> p != 0 && FitAt(base, fs, p, prevp, n, i) && HasFit(fs, n)
    ensures size[p] < n && p != freep ==> Scanning(base, fs, freep, f, s + 1, ptr[p], p, n)
    ensures size[p] < n && p == freep ==> !HasFit(fs, n)
  {
    var k := Lap(f, s, |fs|);
    i := k - 1;
    assert RepAt(base, ptr, size, fs, k);
    NodesDistinct(base, fs, k, f);
    if size[p] < n && p == freep {
      NoFitAfterLap(fs, f, n);
    }
  }

  lemma NodesDistinct(base: int, fs: seq<Blk>, k: int, m: int)
    requires Coalesced(base, fs) && 0 <= k <= |fs| && 0 <= m <= |fs|
    ensures Node(base, fs, k) == Node(base, fs, m) <==> k == m
  {
  }

  lemma NodeKept(base: int, fs: seq<Blk>, b: Blk)
    requires Coalesced(base, fs) && ApartFrom(b, fs) && 0 < b.size && base < b.addr
    ensures var k := Below(fs, b.addr);
            k <= |Insert(fs, b)| && Node(base, Insert(fs, b), k) == Node(base, fs, k)
  {
    MergedFits(base, fs, b);
    var k, q := Below(fs, b.addr), Keep(fs, b);
    assert Insert(fs, b)[q] == Merged(fs, b);
    assert 0 < k && k <= q ==> Insert(fs, b)[k-1] == fs[k-1];
  }

  /** After a whole lap without a fit there is none in the list. */
  lemma NoFitAfterLap(fs: seq<Blk>, f: int, n: int)
    requires 0 <= f <= |fs| && forall t :: 0 <= t <= |fs| ==> NodeSize(fs, Lap(f, t, |fs|)) < n
    ensures !HasFit(fs, n)
  {
    forall i | 0 <= i < |fs| ensures fs[i].size < n {
      var k := i + 1;
      var t := if k > f then k - f - 1 else k - f + |fs|;
      assert Lap(f, t, |fs|) == k;
    }
  }

  /** Whatever the new block was merged with, the list now has a fit. */
  lemma InsertFits(fs: seq<Blk>, b: Blk, n: int)
    requires b.size >= n && forall i :: 0 <= i < |fs| ==> 0 < fs[i].size
    ensures HasFit(Insert(fs, b), n)
  {
    var q := Keep(fs, b);
    assert Insert(fs, b)[q] == Merged(fs, b);
    assert Merged(fs, b).size >= n;
  }

  lemma GrowKeeps(base: int, ptr: map<int, int>, size: map<int, int>, fs: seq<Blk>, live: seq<Blk>, b: Blk)
    requires Coalesced(base, fs) && Rep(base, ptr, size, fs) && LiveOk(base, size, fs, live)
    requires FreshBlk(base, fs, live, b)
    ensures Rep(base, ptr, size[b.addr := b.size], fs)
    ensures LiveOk(base, size[b.addr := b.size], fs, live + [b])
  {
    NotANode(base, fs, b);
    var size' := size[b.addr := b.size];
    forall k | 0 <= k <= |fs| ensures RepAt(base, ptr, size', fs, k) {
      assert RepAt(base, ptr, size, fs, k);
    }
    forall i | 0 <= i < |live| ensures LiveBlk(base, size', fs, live[i]) {
      assert LiveBlk(base, size, fs, live[i]) && Apart(b, live[i]);
    }
  }

  lemma CarveKeepsLive(base: int, size: map<int, int>, size': map<int, int>, fs: seq<Blk>, live: seq<Blk>, i: nat, n: int)
    requires Coalesced(base, fs) && LiveOk(base, size, fs, live) && i < |fs| && 0 < n <= fs[i].size
    requires SameExcept(size, size', {fs[i].addr, Carved(fs, i, n).addr})
    requires Carved(fs, i, n).addr in size' && size'[Carved(fs, i, n).addr] == n
    ensures LiveOk(base, size', Carve(fs, i, n), live + [Carved(fs, i, n)])
  {
    CarveCoalesced(base, fs, i, n);
    forall j | 0 <= j < |live|
      ensures LiveBlk(base, size', Carve(fs, i, n), live[j]) && Apart(live[j], Carved(fs, i, n))
    {
      assert LiveBlk(base, size, fs, live[j]) && Apart(live[j], fs[i]);
      ApartCarve(live[j], fs, i, n);
    }
  }

  /** The header updates of an allocation, and the address handed out. */
  function Cut(ptr: map<int, int>, size: map<int, int>, p: int, prevp: int, n: int): (r: (map<int, int>, map<int, int>, int))
    requires p in ptr && p in size
  {
    if size[p] == n then (ptr[prevp := ptr[p]], size, p)
    else (ptr, size[p := size[p] - n][p + (size[p] - n) := n], p + (size[p] - n))
  }

  lemma CutKeepsRep(base: int, ptr: map<int, int>, size: map<int, int>, fs: seq<Blk>, i: nat, n: int)
    requires Rep(base, ptr, size, fs) && Coalesced(base, fs) && i < |fs| && 0 < n <= fs[i].size
    ensures var p := fs[i].addr;
            && p in ptr && p in size && size[p] == fs[i].size
            && var (ptr', size', a) := Cut(ptr, size, p, Node(base, fs, i), n);
            && Rep(base, ptr', size', Carve(fs, i, n))
            && a == Carved(fs, i, n).addr && a in size' && size'[a] == n
            && SameExcept(size, size', {p, a})
  {
    assert RepAt(base, ptr, size, fs, i + 1);
    if fs[i].size == n {
      RepRemove(base, ptr, size, fs, i, ptr[Node(base, fs, i) := ptr[fs[i].addr]]);
    } else {
      RepShrink(base, ptr, size, fs, i, n, size[fs[i].addr := fs[i].size - n][fs[i].addr + fs[i].size - n := n]);
    }
  }

  /** An allocation from block i: everything Valid asks of the new lists and headers. */
  lemma CutAllocates(base: int, ptr: map<int, int>, size: map<int, int>, fs: seq<Blk>, live: seq<Blk>, i: nat, n: int)
    requires Rep(base, ptr, size, fs) && Coalesced(base, fs) && LiveOk(base, size, fs, live)
    requires i < |fs| && 0 < n <= fs[i].size
    ensures var p, b := fs[i].addr, Carved(fs, i, n);
            && p in ptr && p in size && base < b.addr
            && var (ptr', size', a) := Cut(ptr, size, p, Node(base, fs, i), n);
            && a == b.addr
            && Rep(base, ptr', size', Carve(fs, i, n)) && Coalesced(base, Carve(fs, i, n))
            && LiveOk(base, size', Carve(fs, i, n), live + [b])
            && Units(Carve(fs, i, n)) + Units(live + [b]) == Units(fs) + Units(live)
  {
    var b := Carved(fs, i, n);
    CutKeepsRep(base, ptr, size, fs, i, n);
    CarveCoalesced(base, fs, i, n);
    CarveUnits(fs, i, n);
    UnitsConcat(live, [b]);
    assert Units([b]) == n;
    var (ptr', size', a) := Cut(ptr, size, fs[i].addr, Node(base, fs, i), n);
    CarveKeepsLive(base, size, size', fs, live, i, n);
  }
}
