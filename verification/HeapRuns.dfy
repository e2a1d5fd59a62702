/** Every sequence of malloc and free, on the values the heap's methods maintain. */
module HeapRuns {
  import opened Umalloc

  datatype State = State(free: seq<Blk>, live: seq<Blk>, got: int)

  /** malloc takes n units from free block i; free gives back live block j; malloc's
      morecore frees a block new from sbrk. */
  datatype Op = Take(i: int, n: int) | Give(j: int) | More(b: Blk)

  ghost predicate Outside(base: int, fs: seq<Blk>, b: Blk) {
    0 < b.size && base < b.addr && ApartFrom(b, fs)
  }

  ghost predicate LiveApart(base: int, fs: seq<Blk>, live: seq<Blk>) {
    && (forall j :: 0 <= j < |live| ==> Outside(base, fs, live[j]))
    && (forall i, j :: 0 <= i < j < |live| ==> Apart(live[i], live[j]))
  }

  /** The ring is ordered, disjoint and fully coalesced, apart from every live block,
      and free and live units are what sbrk gave. */
  ghost predicate HeapOk(base: int, h: State) {
    Coalesced(base, h.free) && LiveApart(base, h.free, h.live) && Units(h.free) + Units(h.live) == h.got
  }

  ghost predicate Enabled(base: int, h: State, op: Op) {
    match op
    case Take(i, n) => 0 <= i < |h.free| && 0 < n <= h.free[i].size
    case Give(j) => 0 <= j < |h.live|
    case More(b) => Outside(base, h.free, b) && forall j :: 0 <= j < |h.live| ==> Apart(h.live[j], b)
  }

  ghost function Do(base: int, h: State, op: Op): State
    requires Enabled(base, h, op)
  {
    match op
    case Take(i, n) => State(Carve(h.free, i, n), h.live + [Carved(h.free, i, n)], h.got)
    case Give(j) => State(Insert(h.free, h.live[j]), Removed(h.live, j), h.got)
    case More(b) => State(Insert(h.free, b), h.live, h.got + b.size)
  }

  lemma InsertKeepsApart(base: int, fs: seq<Blk>, b: Blk, live: seq<Blk>)
    requires Coalesced(base, fs) && Outside(base, fs, b) && LiveApart(base, fs, live)
    requires forall j :: 0 <= j < |live| ==> Apart(live[j], b)
    ensures LiveApart(base, Insert(fs, b), live)
  {
    hide Coalesced, Insert, ApartFrom, Apart;
    forall j | 0 <= j < |live| ensures Outside(base, Insert(fs, b), live[j]) {
      assert Outside(base, fs, live[j]);
      ApartInsert(base, live[j], fs, b);
    }
  }

  lemma RemovedApart(base: int, fs: seq<Blk>, live: seq<Blk>, j: nat)
    requires LiveApart(base, fs, live) && j < |live|
    ensures LiveApart(base, fs, Removed(live, j))
    ensures forall i :: 0 <= i < |Removed(live, j)| ==> Apart(Removed(live, j)[i], live[j])
  {
    hide ApartFrom;
    var r := Removed(live, j);
    assert forall i :: 0 <= i < |r| ==> r[i] == live[if i < j then i else i + 1];
  }

  lemma TakeKeeps(base: int, h: State, i: int, n: int)
    requires HeapOk(base, h) && Enabled(base, h, Take(i, n))
    ensures HeapOk(base, Do(base, h, Take(i, n)))
  {
    hide Coalesced, ApartFrom, Apart, Units, Carve;
    var b := Carved(h.free, i, n);
    CarveCoalesced(base, h.free, i, n);
    CarveUnits(h.free, i, n);
    UnitsConcat(h.live, [b]);
    OneUnit(b);
    forall j | 0 <= j < |h.live| ensures Outside(base, Carve(h.free, i, n), h.live[j]) && Apart(h.live[j], b) {
      assert Outside(base, h.free, h.live[j]);
      ApartCarve(h.live[j], h.free, i, n);
    }
  }

  lemma OneUnit(b: Blk)
    ensures Units([b]) == b.size
  {
    assert [b][1..] == [];
  }

  lemma StepKeeps(base: int, h: State, op: Op)
    requires HeapOk(base, h) && Enabled(base, h, op)
    ensures HeapOk(base, Do(base, h, op))
  {
    hide Coalesced, ApartFrom, Apart, Units, Insert, Carve, Removed, LiveApart;
    match op
    case Take(i, n) => TakeKeeps(base, h, i, n);
    case Give(j) =>
      var b := h.live[j];
      LiveIsOutside(base, h.free, h.live, j);
      RemovedApart(base, h.free, h.live, j);
      InsertCoalesced(base, h.free, b);
      InsertKeepsApart(base, h.free, b, Removed(h.live, j));
      InsertUnits(base, h.free, b);
      RemovedUnits(h.live, j);
    case More(b) =>
      InsertCoalesced(base, h.free, b);
      InsertKeepsApart(base, h.free, b, h.live);
      InsertUnits(base, h.free, b);
  }

  lemma LiveIsOutside(base: int, fs: seq<Blk>, live: seq<Blk>, j: nat)
    requires LiveApart(base, fs, live) && j < |live|
    ensures Outside(base, fs, live[j])
  {
  }

  ghost predicate Runs(base: int, h: State, ops: seq<Op>)
    decreases |ops|
  {
    ops == [] || (Enabled(base, h, ops[0]) && Runs(base, Do(base, h, ops[0]), ops[1..]))
  }

  ghost function After(base: int, h: State, ops: seq<Op>): State
    requires Runs(base, h, ops)
    decreases |ops|
  {
    if ops == [] then h else After(base, Do(base, h, ops[0]), ops[1..])
  }

  lemma {:induction false} RunKeeps(base: int, h: State, ops: seq<Op>)
    requires HeapOk(base, h) && Runs(base, h, ops)
    ensures HeapOk(base, After(base, h, ops))
    decreases |ops|
  {
    hide HeapOk, Do, Enabled;
    if ops != [] {
      StepKeeps(base, h, ops[0]);
      RunKeeps(base, Do(base, h, ops[0]), ops[1..]);
    }
  }

  /** From the empty heap, after any sequence of malloc and free: free blocks in address
      order with a gap between neighbours, no live block overlapping a free or another
      live one, and no unit lost or invented. */
  lemma EveryHeap(base: int, ops: seq<Op>)
    requires Runs(base, State([], [], 0), ops)
    ensures var h := After(base, State([], [], 0), ops);
            && (forall i, j :: 0 <= i < j < |h.free| ==> End(h.free[i]) < h.free[j].addr)
            && (forall i, j :: 0 <= i < |h.live| && 0 <= j < |h.free| ==> Apart(h.live[i], h.free[j]))
            && (forall i, j :: 0 <= i < j < |h.live| ==> Apart(h.live[i], h.live[j]))
            && Units(h.free) + Units(h.live) == h.got
  {
    hide Runs, After;
    assert HeapOk(base, State([], [], 0));
    RunKeeps(base, State([], [], 0), ops);
    var h := After(base, State([], [], 0), ops);
    forall i, j | 0 <= i < |h.live| && 0 <= j < |h.free| ensures Apart(h.live[i], h.free[j]) {
      assert Outside(base, h.free, h.live[i]);
    }
  }
}
