/** The inode cache, over any interleaving of iget, idup, ilock, iunlock, iput and
    ialloc: each step is one critical section of icache.lock or one disk access made
    while I_BUSY is set. */
module IcacheSpec {
  import opened Params

  datatype Key = Key(dev: int, inum: int)

  /** The fields an inode has on disk; `rest` stands for size, addresses and device
      numbers.  Type 0 is a free inode. */
  datatype Dinode = Dinode(kind: int, nlink: int, rest: int)

  /** I_BUSY and who set it: ilock before and after reading the disk, or iput while it
      frees the inode, before and after the free inode reached the disk. */
  datatype Busy = NotBusy | Reading(p: int) | Locked(p: int) | Freeing(p: int) | Freed(p: int)

  datatype Slot = Slot(key: Key, ref: int, busy: Busy, valid: bool, mem: Dinode)

  /** `holders[k]` lists the processes holding a reference to slot k, once for each. */
  datatype Sys = Sys(slots: seq<Slot>, disk: map<Key, Dinode>, holders: seq<seq<int>>)

  predicate Live(s: Sys, k: int) { 0 <= k < |s.slots| && s.slots[k].ref > 0 }

  // ---------- iget ----------

  /** The first live slot for a key from k on. */
  function FindSlot(slots: seq<Slot>, key: Key, k: nat): (r: nat)
    requires k <= |slots|
    ensures k <= r <= |slots| && (r < |slots| ==> slots[r].ref > 0 && slots[r].key == key)
    ensures forall j :: k <= j < r ==> !(slots[j].ref > 0 && slots[j].key == key)
    decreases |slots| - k
  {
    if k == |slots| || (slots[k].ref > 0 && slots[k].key == key) then k else FindSlot(slots, key, k + 1)
  }

  function FirstEmpty(slots: seq<Slot>, k: nat): (r: nat)
    requires k <= |slots|
    ensures k <= r <= |slots| && (r < |slots| ==> slots[r].ref == 0)
    ensures forall j :: k <= j < r ==> slots[j].ref != 0
    decreases |slots| - k
  {
    if k == |slots| || slots[k].ref == 0 then k else FirstEmpty(slots, k + 1)
  }

  datatype GetResult = Found(k: nat) | Recycled(k: nat) | NoInodes

  function IgetSlot(slots: seq<Slot>, key: Key): (r: GetResult) {
    if FindSlot(slots, key, 0) < |slots| then Found(FindSlot(slots, key, 0))
    else if FirstEmpty(slots, 0) < |slots| then Recycled(FirstEmpty(slots, 0))
    else NoInodes
  }

  function IgetSlots(slots: seq<Slot>, key: Key): (r: seq<Slot>)
    requires !IgetSlot(slots, key).NoInodes?
  {
    match IgetSlot(slots, key)
    case Found(k) => slots[k := slots[k].(ref := slots[k].ref + 1)]
    case Recycled(k) => slots[k := Slot(key, 1, NotBusy, false, slots[k].mem)]
  }

  function IgetSys(s: Sys, p: int, key: Key): (r: Sys)
    requires !IgetSlot(s.slots, key).NoInodes? && |s.holders| == |s.slots|
  {
    var k := IgetSlot(s.slots, key).k;
    Sys(IgetSlots(s.slots, key), s.disk, s.holders[k := s.holders[k] + [p]])
  }

  // ---------- steps ----------

  datatype Step =
    | Iget(p: int, key: Key)          // whatever number a directory entry or ialloc gives
    | IallocMark(p: int, key: Key, kind: int)
    | Idup(p: int, k: int)
    | IlockBusy(p: int, k: int)       // I_BUSY set
    | IlockRead(p: int, k: int)       // the disk read that makes the entry valid
    | Change(p: int, k: int, d: Dinode)
    | Iupdate(p: int, k: int)
    | Iunlock(p: int, k: int)
    | Iput(p: int, k: int)            // not the last reference to an unlinked inode
    | IputBusy(p: int, k: int)        // the last: I_BUSY set, icache.lock dropped
    | IputFree(p: int, k: int)        // truncated and free on disk
    | IputEnd(p: int, k: int)         // flags cleared, reference dropped

  /** Process p holds a reference to slot k. */
  predicate Holds(s: Sys, p: int, k: int) {
    0 <= k < |s.slots| == |s.holders| && p in s.holders[k]
  }

  /** ilock has set I_BUSY and finds a free inode on disk: "ilock: no type". */
  predicate IlockPanics(s: Sys, p: int, k: int) {
    && Holds(s, p, k) && s.slots[k].busy == Reading(p)
    && s.slots[k].key in s.disk && s.disk[s.slots[k].key].kind == 0
  }

  /** What callers do: they keep a nonzero type, write changes back before unlocking,
      and keep a reference as long as they have I_BUSY.  Any inode may be got, and a
      second reference to a locked inode may be put, as dirlink does when the name it is
      given is already there and names the directory itself. */
  predicate Enabled(s: Sys, t: Step) {
    match t
    case Iget(p, key) => key in s.disk && |s.slots| == |s.holders| && !IgetSlot(s.slots, key).NoInodes?
    case IallocMark(p, key, kind) => key in s.disk && s.disk[key].kind == 0 && kind != 0
    case Idup(p, k) => Holds(s, p, k)
    case IlockBusy(p, k) => Holds(s, p, k) && s.slots[k].busy == NotBusy
    case IlockRead(p, k) => Holds(s, p, k) && s.slots[k].busy == Reading(p) && s.slots[k].key in s.disk && !IlockPanics(s, p, k)
    case Change(p, k, d) => Holds(s, p, k) && s.slots[k].busy == Locked(p) && d.kind != 0
    case Iupdate(p, k) => Holds(s, p, k) && s.slots[k].busy == Locked(p)
    case Iunlock(p, k) => Holds(s, p, k) && s.slots[k].busy == Locked(p) && s.slots[k].key in s.disk && s.slots[k].mem == s.disk[s.slots[k].key]
    case Iput(p, k) => Holds(s, p, k) && KeepsOne(s, p, k) && !LastUnlinked(s.slots[k])
    case IputBusy(p, k) => Holds(s, p, k) && KeepsOne(s, p, k) && LastUnlinked(s.slots[k])
    case IputFree(p, k) => Holds(s, p, k) && s.slots[k].busy == Freeing(p)
    case IputEnd(p, k) => Holds(s, p, k) && s.slots[k].busy == Freed(p)
  }

  predicate BusyBy(b: Busy, p: int) { b != NotBusy && b.p == p }

  /** Process p, dropping a reference to slot k, has another if I_BUSY is theirs. */
  predicate KeepsOne(s: Sys, p: int, k: int)
    requires Holds(s, p, k)
  {
    BusyBy(s.slots[k].busy, p) ==> p in Without(s.holders[k], p)
  }

  predicate LastUnlinked(x: Slot) { x.ref == 1 && x.valid && x.mem.nlink == 0 }

  /** Remove one occurrence of p. */
  function Without(h: seq<int>, p: int): (r: seq<int>)
    requires p in h
    ensures |r| == |h| - 1 && forall q :: q in r ==> q in h
    ensures forall q :: q in h && q != p ==> q in r
  {
    if h[0] == p then h[1..] else [h[0]] + Without(h[1..], p)
  }

  function SetSlot(s: Sys, k: int, x: Slot): (r: Sys)
    requires 0 <= k < |s.slots|
  {
    Sys(s.slots[k := x], s.disk, s.holders)
  }

  function Drop(s: Sys, p: int, k: int, x: Slot): (r: Sys)
    requires Holds(s, p, k)
  {
    Sys(s.slots[k := x.(ref := x.ref - 1)], s.disk, s.holders[k := Without(s.holders[k], p)])
  }

  function Do(s: Sys, t: Step): (r: Sys)
    requires Enabled(s, t)
  {
    match t
    case Iget(p, key) => IgetSys(s, p, key)
    case IallocMark(p, key, kind) => Sys(s.slots, s.disk[key := Dinode(kind, 0, 0)], s.holders)
    case Idup(p, k) => Sys(s.slots[k := s.slots[k].(ref := s.slots[k].ref + 1)], s.disk, s.holders[k := s.holders[k] + [p]])
    case IlockBusy(p, k) => SetSlot(s, k, s.slots[k].(busy := if s.slots[k].valid then Locked(p) else Reading(p)))
    case IlockRead(p, k) => SetSlot(s, k, s.slots[k].(busy := Locked(p), valid := true, mem := s.disk[s.slots[k].key]))
    case Change(p, k, d) => SetSlot(s, k, s.slots[k].(mem := d))
    case Iupdate(p, k) => Sys(s.slots, s.disk[s.slots[k].key := s.slots[k].mem], s.holders)
    case Iunlock(p, k) => SetSlot(s, k, s.slots[k].(busy := NotBusy))
    case Iput(p, k) => Drop(s, p, k, s.slots[k])
    case IputBusy(p, k) => SetSlot(s, k, s.slots[k].(busy := Freeing(p)))
    case IputFree(p, k) =>
      Sys(s.slots[k := s.slots[k].(busy := Freed(p), mem := Dinode(0, 0, 0))], s.disk[s.slots[k].key := Dinode(0, 0, 0)], s.holders)
    case IputEnd(p, k) => Drop(s, p, k, s.slots[k].(busy := NotBusy, valid := false))
  }

  // ---------- the invariant ----------

  /** One slot: the holder of I_BUSY has a reference, and the copy in memory is related
      to the disk as its state says. */
  predicate SlotOk(x: Slot, h: seq<int>, disk: map<Key, Dinode>) {
    && x.ref == |h|
    && (x.busy != NotBusy ==> x.busy.p in h)
    && (x.ref > 0 ==> x.key in disk && Agrees(x, disk[x.key]))
  }

  predicate Agrees(x: Slot, d: Dinode) {
    match x.busy
    case NotBusy => x.valid ==> d.kind != 0 && x.mem == d
    case Reading(_) => !x.valid
    case Locked(_) => d.kind != 0 && x.valid && x.mem.kind != 0
    case Freeing(_) => d.kind != 0 && x.valid && x.mem.nlink == 0
    case Freed(_) => x.valid && x.mem.kind == 0
  }

  ghost predicate Inv(s: Sys) {
    && |s.holders| == |s.slots|
    && (forall k :: 0 <= k < |s.slots| ==> SlotOk(s.slots[k], s.holders[k], s.disk))
    && (forall i, j :: 0 <= i < j < |s.slots| && s.slots[i].ref > 0 && s.slots[j].ref > 0 ==> s.slots[i].key != s.slots[j].key)
  }

  // ---------- one slot changes ----------

  /** Slot k, live under the same key, gets new contents and holders. */
  lemma SlotChanges(s: Sys, k: int, x: Slot, h: seq<int>)
    requires Inv(s) && 0 <= k < |s.slots| && SlotOk(x, h, s.disk)
    requires x.ref > 0 ==> s.slots[k].ref > 0 && x.key == s.slots[k].key
    ensures Inv(Sys(s.slots[k := x], s.disk, s.holders[k := h]))
  {
  }

  /** A slot nobody holds is taken for a key no live slot has. */
  lemma SlotRecycled(s: Sys, k: int, x: Slot, h: seq<int>)
    requires Inv(s) && 0 <= k < |s.slots| && s.slots[k].ref == 0 && SlotOk(x, h, s.disk)
    requires forall j :: 0 <= j < |s.slots| && s.slots[j].ref > 0 ==> s.slots[j].key != x.key
    ensures Inv(Sys(s.slots[k := x], s.disk, s.holders[k := h]))
  {
  }

  /** The disk changes under the key of slot k, which no other live slot has. */
  lemma DiskChanges(s: Sys, k: int, x: Slot, d: Dinode)
    requires Inv(s) && 0 <= k < |s.slots| && s.slots[k].ref > 0 && s.slots[k].key in s.disk
    requires x.key == s.slots[k].key && SlotOk(x, s.holders[k], s.disk[x.key := d])
    ensures Inv(Sys(s.slots[k := x], s.disk[x.key := d], s.holders))
  {
    var disk := s.disk[x.key := d];
    forall j | 0 <= j < |s.slots| && j != k ensures SlotOk(s.slots[j], s.holders[j], disk) {
      assert SlotOk(s.slots[j], s.holders[j], s.disk);
      if s.slots[j].ref > 0 {
        assert s.slots[j].key != x.key;
      }
    }
  }

  /** ialloc takes a number that is free on disk, so no valid entry has it but one that
      iput is freeing right now. */
  lemma MarkKeeps(s: Sys, key: Key, kind: int)
    requires Inv(s) && key in s.disk && s.disk[key].kind == 0 && kind != 0
    ensures Inv(Sys(s.slots, s.disk[key := Dinode(kind, 0, 0)], s.holders))
  {
    var disk := s.disk[key := Dinode(kind, 0, 0)];
    forall j | 0 <= j < |s.slots| ensures SlotOk(s.slots[j], s.holders[j], disk) {
      assert SlotOk(s.slots[j], s.holders[j], s.disk);
    }
  }

  // ---------- each step ----------

  lemma IgetKeeps(s: Sys, p: int, key: Key)
    requires Inv(s) && !IgetSlot(s.slots, key).NoInodes? && key in s.disk
    ensures Inv(IgetSys(s, p, key))
  {
    var k := IgetSlot(s.slots, key).k;
    assert SlotOk(s.slots[k], s.holders[k], s.disk);
    match IgetSlot(s.slots, key)
    case Found(_) =>
      var x := s.slots[k];
      SlotChanges(s, k, x.(ref := x.ref + 1), s.holders[k] + [p]);
    case Recycled(_) =>
      SlotRecycled(s, k, Slot(key, 1, NotBusy, false, s.slots[k].mem), s.holders[k] + [p]);
  }

  /** Steps that change one live slot only. */
  lemma SlotStepKeeps(s: Sys, t: Step)
    requires Inv(s) && Enabled(s, t)
    requires t.Idup? || t.IlockBusy? || t.IlockRead? || t.Change? || t.Iunlock? || t.IputBusy?
    ensures Inv(Do(s, t))
  {
    var k := t.k;
    var x, h := s.slots[k], s.holders[k];
    assert SlotOk(x, h, s.disk);
    var r := Do(s, t);
    if t.Idup? {
      SlotChanges(s, k, r.slots[k], h + [t.p]);
    } else {
      assert s.holders[k := h] == s.holders;
      SlotChanges(s, k, r.slots[k], h);
    }
  }

  lemma DropKeeps(s: Sys, t: Step)
    requires Inv(s) && Enabled(s, t) && (t.Iput? || t.IputEnd?)
    ensures Inv(Do(s, t))
  {
    var k, p := t.k, t.p;
    var x, h := s.slots[k], s.holders[k];
    assert SlotOk(x, h, s.disk);
    SlotChanges(s, k, Do(s, t).slots[k], Without(h, p));
  }

  lemma DiskStepKeeps(s: Sys, t: Step)
    requires Inv(s) && Enabled(s, t) && (t.Iupdate? || t.IputFree?)
    ensures Inv(Do(s, t))
  {
    var k := t.k;
    var x, h := s.slots[k], s.holders[k];
    assert SlotOk(x, h, s.disk);
    if t.Iupdate? {
      assert s.slots[k := x] == s.slots;
      DiskChanges(s, k, x, x.mem);
    } else {
      DiskChanges(s, k, x.(busy := Freed(t.p), mem := Dinode(0, 0, 0)), Dinode(0, 0, 0));
    }
  }

  lemma StepKeeps(s: Sys, t: Step)
    requires Inv(s) && Enabled(s, t)
    ensures Inv(Do(s, t))
  {
    hide Inv, IgetSys;
    match t
    case Iget(p, key) => IgetKeeps(s, p, key);
    case IallocMark(p, key, kind) => MarkKeeps(s, key, kind);
    case Iupdate(p, k) => DiskStepKeeps(s, t);
    case IputFree(p, k) => DiskStepKeeps(s, t);
    case Iput(p, k) => DropKeeps(s, t);
    case IputEnd(p, k) => DropKeeps(s, t);
    case other => SlotStepKeeps(s, t);
  }

  // ---------- runs ----------

  ghost predicate Runs(s: Sys, ts: seq<Step>)
    decreases |ts|
  {
    ts == [] || (Enabled(s, ts[0]) && Runs(Do(s, ts[0]), ts[1..]))
  }

  ghost function After(s: Sys, ts: seq<Step>): Sys
    requires Runs(s, ts)
    decreases |ts|
  {
    if ts == [] then s else After(Do(s, ts[0]), ts[1..])
  }

  lemma {:induction false} RunKeeps(s: Sys, ts: seq<Step>)
    requires Inv(s) && Runs(s, ts)
    ensures Inv(After(s, ts))
    decreases |ts|
  {
    hide Inv, Do, Enabled;
    if ts != [] {
      StepKeeps(s, ts[0]);
      RunKeeps(Do(s, ts[0]), ts[1..]);
    }
  }

  /** At boot no entry is referenced. */
  predicate Booted(s: Sys) {
    && |s.slots| == |s.holders| == NINODE
    && (forall k :: 0 <= k < |s.slots| ==> s.slots[k].ref == 0 && s.slots[k].busy == NotBusy && s.holders[k] == [])
  }

  /** Over every interleaving, whatever inode numbers are looked up, and also while iput
      frees an inode with icache.lock dropped and ialloc reuses its number: references
      are counted, live entries are unique, whoever has I_BUSY has a reference, and an
      entry that is valid and not busy equals its inode on disk, which is not free. */
  lemma CacheRuns(s: Sys, ts: seq<Step>)
    requires Booted(s) && Runs(s, ts)
    ensures var r := After(s, ts);
            && |r.holders| == |r.slots|
            && (forall k :: 0 <= k < |r.slots| ==> r.slots[k].ref == |r.holders[k]|)
            && (forall i, j :: 0 <= i < j < |r.slots| && r.slots[i].ref > 0 && r.slots[j].ref > 0 ==> r.slots[i].key != r.slots[j].key)
            && (forall k :: 0 <= k < |r.slots| && r.slots[k].busy != NotBusy ==> r.slots[k].busy.p in r.holders[k])
            && (forall k :: Live(r, k) && r.slots[k].valid && r.slots[k].busy == NotBusy ==>
                  r.slots[k].key in r.disk && r.slots[k].mem == r.disk[r.slots[k].key] && r.slots[k].mem.kind != 0)
  {
    hide Runs, After;
    RunKeeps(s, ts);
    var r := After(s, ts);
    assert forall k :: 0 <= k < |r.slots| ==> SlotOk(r.slots[k], r.holders[k], r.disk);
  }

  /** iget finds the live entry of the key if there is one, else the first entry nobody
      references, and fails only when every entry is referenced for other keys. */
  lemma IgetAnswers(slots: seq<Slot>, key: Key)
    ensures match IgetSlot(slots, key)
            case Found(k) => k < |slots| && slots[k].ref > 0 && slots[k].key == key
            case Recycled(k) =>
              && k < |slots| && slots[k].ref == 0 && (forall j :: 0 <= j < k ==> slots[j].ref != 0)
              && (forall j :: 0 <= j < |slots| && slots[j].ref > 0 ==> slots[j].key != key)
            case NoInodes => forall j :: 0 <= j < |slots| ==> slots[j].ref != 0 && (slots[j].ref > 0 ==> slots[j].key != key)
  {
  }

  /** In every reachable state with an entry nobody references, and for every key that
      has an entry, iget does not panic, whatever it is asked for. */
  lemma IgetGetsEntry(s: Sys, ts: seq<Step>, p: int, key: Key)
    requires Booted(s) && Runs(s, ts) && key in After(s, ts).disk
    requires exists k :: 0 <= k < |After(s, ts).slots| && (After(s, ts).slots[k].ref == 0 || After(s, ts).slots[k].key == key)
    ensures Enabled(After(s, ts), Iget(p, key))
  {
    hide Runs, After;
    RunKeeps(s, ts);
    var r := After(s, ts);
    IgetAnswers(r.slots, key);
    var k :| 0 <= k < |r.slots| && (r.slots[k].ref == 0 || r.slots[k].key == key);
    assert SlotOk(r.slots[k], r.holders[k], r.disk);
  }

  /** An entry is never recycled while referenced. */
  lemma NeverRecycled(s: Sys, t: Step, k: nat)
    requires Inv(s) && Enabled(s, t) && k < |s.slots| && s.holders[k] != []
    ensures k < |Do(s, t).slots| && Do(s, t).slots[k].key == s.slots[k].key
  {
    assert SlotOk(s.slots[k], s.holders[k], s.disk);
  }

  /** iput's "iput busy" panic is unreachable. */
  lemma IputFindsIdle(s: Sys, p: int, k: int)
    requires Inv(s) && Enabled(s, IputBusy(p, k))
    ensures s.slots[k].busy == NotBusy
  {
    assert SlotOk(s.slots[k], s.holders[k], s.disk);
  }

  // ---------- ilock's panic ----------

  predicate InIlock(b: Busy, p: int) { b == Reading(p) || b == Locked(p) }

  /** ialloc hands out this number. */
  predicate Marks(t: Step, key: Key) { t.IallocMark? && t.key == key }

  ghost predicate ByOthers(ts: seq<Step>, p: int) {
    forall i :: 0 <= i < |ts| ==> ts[i].p != p
  }

  ghost predicate HandedOut(ts: seq<Step>, key: Key) {
    exists i :: 0 <= i < |ts| && Marks(ts[i], key)
  }

  /** Once ilock has set I_BUSY, other processes leave the entry as it is, and its inode
      on disk too: only ialloc can write it, and only if it is free. */
  lemma LockedStays(s: Sys, t: Step, p: int, k: int)
    requires Inv(s) && Enabled(s, t) && 0 <= k < |s.slots| && InIlock(s.slots[k].busy, p) && t.p != p
    ensures var r := Do(s, t);
            var key := s.slots[k].key;
            && k < |r.slots| && r.slots[k].busy == s.slots[k].busy && r.slots[k].key == key
            && key in s.disk && key in r.disk
            && (!Marks(t, key) ==> r.disk[key] == s.disk[key])
            && (Marks(t, key) ==> s.disk[key].kind == 0 && r.disk[key].kind != 0)
  {
    assert SlotOk(s.slots[k], s.holders[k], s.disk);
    if t.Iupdate? || t.IputFree? {
      assert SlotOk(s.slots[t.k], s.holders[t.k], s.disk);
      assert t.k != k;
    }
  }

  /** While ilock is between setting I_BUSY and its disk read, whatever other processes
      do: the read finds a free inode exactly when it was free and ialloc has not handed
      its number out since. */
  lemma {:induction false} ReadPanicsIff(s: Sys, ts: seq<Step>, p: int, k: int)
    requires Inv(s) && Runs(s, ts) && ByOthers(ts, p)
    requires 0 <= k < |s.slots| && InIlock(s.slots[k].busy, p) && s.slots[k].key in s.disk
    ensures IlockPanics(After(s, ts), p, k) <==>
              s.slots[k].busy == Reading(p) && s.disk[s.slots[k].key].kind == 0 && !HandedOut(ts, s.slots[k].key)
    decreases |ts|
  {
    hide Do, Enabled;
    assert SlotOk(s.slots[k], s.holders[k], s.disk);
    if ts != [] {
      var key := s.slots[k].key;
      StepKeeps(s, ts[0]);
      LockedStays(s, ts[0], p, k);
      ReadPanicsIff(Do(s, ts[0]), ts[1..], p, k);
      HandedOutStep(ts, key);
    }
  }

  lemma HandedOutStep(ts: seq<Step>, key: Key)
    requires ts != []
    ensures HandedOut(ts, key) <==> Marks(ts[0], key) || HandedOut(ts[1..], key)
  {
    if i :| 0 <= i < |ts[1..]| && Marks(ts[1..][i], key) {
      assert Marks(ts[i+1], key);
    }
    if i :| 0 < i < |ts| && Marks(ts[i], key) {
      assert Marks(ts[1..][i-1], key);
    }
  }

  /** ilock panics exactly when, as it gets I_BUSY, the entry is not valid and the inode
      is free on disk, and ialloc does not hand the number out before the disk read. */
  lemma IlockPanicsIff(s: Sys, p: int, k: int, ts: seq<Step>)
    requires Inv(s) && Enabled(s, IlockBusy(p, k))
    requires Runs(Do(s, IlockBusy(p, k)), ts) && ByOthers(ts, p)
    ensures s.slots[k].key in s.disk
    ensures IlockPanics(After(Do(s, IlockBusy(p, k)), ts), p, k) <==>
              !s.slots[k].valid && s.disk[s.slots[k].key].kind == 0 && !HandedOut(ts, s.slots[k].key)
  {
    assert SlotOk(s.slots[k], s.holders[k], s.disk);
    StepKeeps(s, IlockBusy(p, k));
    ReadPanicsIff(Do(s, IlockBusy(p, k)), ts, p, k);
  }

  // ---------- a run into the panic ----------

  lemma {:induction false} RunAppend(s: Sys, ts: seq<Step>, t: Step)
    requires Runs(s, ts) && Enabled(After(s, ts), t)
    ensures Runs(s, ts + [t]) && After(s, ts + [t]) == Do(After(s, ts), t)
    decreases |ts|
  {
    hide Do, Enabled;
    if ts == [] {
      assert ts + [t] == [t] && [t][1..] == [];
      assert Runs(Do(s, t), []);
    } else {
      RunAppend(Do(s, ts[0]), ts[1..], t);
      assert (ts + [t])[1..] == ts[1..] + [t];
    }
  }

  /** Slot 0 is x, held by h, with inode d on disk under its key; no other slot is live. */
  predicate Only(s: Sys, x: Slot, h: seq<int>, d: Dinode) {
    && 0 < |s.slots| == |s.holders| && s.slots[0] == x && s.holders[0] == h
    && x.key in s.disk && s.disk[x.key] == d
    && forall k :: 0 < k < |s.slots| ==> s.slots[k].ref == 0
  }

  lemma GetAlone(s: Sys, x: Slot, d: Dinode, p: int, a: Key)
    requires 0 < |s.slots| == |s.holders| && s.holders[0] == [] && a in s.disk && s.disk[a] == d
    requires s.slots[0].ref == 0 && (forall k :: 0 <= k < |s.slots| ==> s.slots[k].ref == 0)
    requires x == Slot(a, 1, NotBusy, false, s.slots[0].mem)
    ensures Enabled(s, Iget(p, a)) && Only(Do(s, Iget(p, a)), x, [p], d)
  {
    assert FindSlot(s.slots, a, 0) == |s.slots|;
    assert FirstEmpty(s.slots, 0) == 0;
    assert [] + [p] == [p];
  }

  lemma LockAlone(s: Sys, x: Slot, d: Dinode, p: int)
    requires Only(s, x, [p], d) && x.busy == NotBusy && !x.valid
    ensures Enabled(s, IlockBusy(p, 0)) && Only(Do(s, IlockBusy(p, 0)), x.(busy := Reading(p)), [p], d)
  {
  }

  lemma ReadAlone(s: Sys, x: Slot, d: Dinode, p: int)
    requires Only(s, x, [p], d) && x.busy == Reading(p) && d.kind != 0
    ensures Enabled(s, IlockRead(p, 0)) && Only(Do(s, IlockRead(p, 0)), x.(busy := Locked(p), valid := true, mem := d), [p], d)
  {
  }

  /** The locked inode is changed, written back and unlocked. */
  lemma RewriteAlone(s: Sys, x: Slot, d: Dinode, p: int, e: Dinode)
    requires Only(s, x, [p], d) && x.busy == Locked(p) && e.kind != 0
    ensures Enabled(s, Change(p, 0, e))
    ensures Enabled(Do(s, Change(p, 0, e)), Iupdate(p, 0))
    ensures Enabled(Do(Do(s, Change(p, 0, e)), Iupdate(p, 0)), Iunlock(p, 0))
    ensures Only(Do(Do(Do(s, Change(p, 0, e)), Iupdate(p, 0)), Iunlock(p, 0)), x.(busy := NotBusy, mem := e), [p], e)
  {
  }

  /** iput starts to free the last reference to an unlinked inode. */
  lemma FreeingAlone(s: Sys, x: Slot, d: Dinode, p: int)
    requires Only(s, x, [p], d) && x.busy == NotBusy && LastUnlinked(x)
    ensures Enabled(s, IputBusy(p, 0)) && Only(Do(s, IputBusy(p, 0)), x.(busy := Freeing(p)), [p], d)
  {
  }

  /** Somebody else looks the inode up meanwhile. */
  lemma GetFreeing(s: Sys, x: Slot, d: Dinode, p: int, q: int)
    requires Only(s, x, [p], d) && x.ref == 1
    ensures Enabled(s, Iget(q, x.key)) && Only(Do(s, Iget(q, x.key)), x.(ref := 2), [p, q], d)
  {
    assert FindSlot(s.slots, x.key, 0) == 0;
    assert [p] + [q] == [p, q];
  }

  /** iput goes on to the end. */
  lemma FreeHeld(s: Sys, x: Slot, d: Dinode, p: int, q: int)
    requires Only(s, x, [p, q], d) && x.busy == Freeing(p) && x.ref == 2
    ensures Enabled(s, IputFree(p, 0))
    ensures Enabled(Do(s, IputFree(p, 0)), IputEnd(p, 0))
    ensures Only(Do(Do(s, IputFree(p, 0)), IputEnd(p, 0)),
                 Slot(x.key, 1, NotBusy, false, Dinode(0, 0, 0)), [q], Dinode(0, 0, 0))
  {
    assert [p, q][1..] == [q];
  }

  /** The last reference to an unlinked inode is put. */
  lemma PutAlone(s: Sys, x: Slot, d: Dinode, p: int)
    requires Only(s, x, [p], d) && x.busy == NotBusy && LastUnlinked(x)
    ensures Enabled(s, IputBusy(p, 0))
    ensures Enabled(Do(s, IputBusy(p, 0)), IputFree(p, 0))
    ensures Enabled(Do(Do(s, IputBusy(p, 0)), IputFree(p, 0)), IputEnd(p, 0))
    ensures var r := Do(Do(Do(s, IputBusy(p, 0)), IputFree(p, 0)), IputEnd(p, 0));
            && 0 < |r.slots| == |r.holders| && r.holders[0] == [] && r.slots[0].ref == 0 && r.slots[0].key == x.key
            && x.key in r.disk && r.disk[x.key].kind == 0
            && forall k :: 0 <= k < |r.slots| ==> r.slots[k].ref == 0
  {
  }

  /** Process 1 gets inode `a`, removes its last link and unlocks it. */
  lemma Unlinked(s: Sys, a: Key) returns (ts: seq<Step>, x: Slot, d: Dinode)
    requires Booted(s) && a in s.disk && s.disk[a].kind != 0
    ensures Runs(s, ts) && Only(After(s, ts), x, [1], d) && x.key == a && x.busy == NotBusy && LastUnlinked(x)
    ensures d.kind != 0
  {
    hide Do, Enabled, Only;
    d := s.disk[a];
    var e := Dinode(d.kind, 0, d.rest);
    x := Slot(a, 1, NotBusy, false, s.slots[0].mem);
    GetAlone(s, x, d, 1, a);
    ts := Extend(s, [], Iget(1, a));
    LockAlone(After(s, ts), x, d, 1);
    ts := Extend(s, ts, IlockBusy(1, 0));
    ReadAlone(After(s, ts), x.(busy := Reading(1)), d, 1);
    ts := Extend(s, ts, IlockRead(1, 0));
    var y := x.(busy := Locked(1), valid := true, mem := d);
    RewriteAlone(After(s, ts), y, d, 1, e);
    ts := Extend(s, ts, Change(1, 0, e));
    ts := Extend(s, ts, Iupdate(1, 0));
    ts := Extend(s, ts, Iunlock(1, 0));
    x, d := y.(busy := NotBusy, mem := e), e;
  }

  /** The panic is reachable: process 1 unlinks inode `a` and puts it, which frees it on
      disk; then process 2 looks up a number that still says `a`, as ".." in a removed
      directory does, and locks it. */
  lemma FreedInodeIsLocked(s: Sys, a: Key) returns (ts: seq<Step>)
    requires Booted(s) && a in s.disk && s.disk[a].kind != 0
    ensures Runs(s, ts) && IlockPanics(After(s, ts), 2, 0)
  {
    hide Do, Enabled, Only;
    var x, d;
    ts, x, d := Unlinked(s, a);
    PutAlone(After(s, ts), x, d, 1);
    ts := Extend(s, ts, IputBusy(1, 0));
    ts := Extend(s, ts, IputFree(1, 0));
    ts := Extend(s, ts, IputEnd(1, 0));
    var r := After(s, ts);
    var z := Slot(a, 1, NotBusy, false, r.slots[0].mem);
    GetAlone(r, z, r.disk[a], 2, a);
    ts := Extend(s, ts, Iget(2, a));
    LockAlone(After(s, ts), z, r.disk[a], 2);
    ts := Extend(s, ts, IlockBusy(2, 0));
    OnlyReading(After(s, ts), z.(busy := Reading(2)), r.disk[a], 2);
  }

  /** It is reachable too for a call that has to wait: process 2 calls ilock while
      process 1 is inside iput, when the entry is valid and the inode in use on disk. */
  lemma WaiterIsLocked(s: Sys, a: Key) returns (ts: seq<Step>, us: seq<Step>)
    requires Booted(s) && a in s.disk && s.disk[a].kind != 0
    ensures Runs(s, ts) && Runs(After(s, ts), us)
    ensures var r := After(s, ts);
            && Holds(r, 2, 0) && r.slots[0].busy == Freeing(1)
            && r.slots[0].valid && r.slots[0].key in r.disk && r.disk[r.slots[0].key].kind != 0
    ensures us == [IputFree(1, 0), IputEnd(1, 0), IlockBusy(2, 0)] && IlockPanics(After(After(s, ts), us), 2, 0)
  {
    hide Do, Enabled, Only, Runs, After;
    var x, d;
    ts, x, d := Unlinked(s, a);
    FreeingAlone(After(s, ts), x, d, 1);
    ts := Extend(s, ts, IputBusy(1, 0));
    GetFreeing(After(s, ts), x.(busy := Freeing(1)), d, 1, 2);
    ts := Extend(s, ts, Iget(2, a));
    var r := After(s, ts);
    var y := x.(busy := Freeing(1), ref := 2);
    OnlyMeans(r, y, [1, 2], d);
    FreeHeld(r, y, d, 1, 2);
    var r1 := Do(r, IputFree(1, 0));
    var r2 := Do(r1, IputEnd(1, 0));
    var z := Slot(a, 1, NotBusy, false, Dinode(0, 0, 0));
    LockAlone(r2, z, Dinode(0, 0, 0), 2);
    us := [IputFree(1, 0), IputEnd(1, 0), IlockBusy(2, 0)];
    ThreeSteps(r, us[0], us[1], us[2]);
    OnlyReading(After(r, us), z.(busy := Reading(2)), Dinode(0, 0, 0), 2);
  }

  lemma OnlyMeans(s: Sys, x: Slot, h: seq<int>, d: Dinode)
    requires Only(s, x, h, d)
    ensures 0 < |s.slots| == |s.holders| && s.slots[0] == x && s.holders[0] == h && x.key in s.disk && s.disk[x.key] == d
  {
  }

  lemma ThreeSteps(s: Sys, t: Step, u: Step, v: Step)
    requires Enabled(s, t) && Enabled(Do(s, t), u) && Enabled(Do(Do(s, t), u), v)
    ensures Runs(s, [t, u, v]) && After(s, [t, u, v]) == Do(Do(Do(s, t), u), v)
  {
    hide Do, Enabled;
    assert [t, u, v][1..] == [u, v] && [u, v][1..] == [v] && [v][1..] == [];
    assert Runs(Do(Do(Do(s, t), u), v), []);
    assert Runs(Do(Do(s, t), u), [v]);
    assert Runs(Do(s, t), [u, v]);
    assert After(Do(Do(s, t), u), [v]) == Do(Do(Do(s, t), u), v);
    assert After(Do(s, t), [u, v]) == Do(Do(Do(s, t), u), v);
  }

  lemma OnlyReading(s: Sys, x: Slot, d: Dinode, p: int)
    requires Only(s, x, [p], d) && x.busy == Reading(p) && d.kind == 0
    ensures IlockPanics(s, p, 0)
  {
  }

  lemma Extend(s: Sys, ts: seq<Step>, t: Step) returns (r: seq<Step>)
    requires Runs(s, ts) && Enabled(After(s, ts), t)
    ensures Runs(s, r) && After(s, r) == Do(After(s, ts), t)
  {
    r := ts + [t];
    RunAppend(s, ts, t);
  }
}
