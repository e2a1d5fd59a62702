/** The inode cache as it runs: an array of entries scanned under icache.lock, and the
    inodes on disk. */
module Icache {
  import opened Params
  import opened IcacheSpec

  lemma {:induction false} FindSlotIs(slots: seq<Slot>, key: Key, k: nat, r: nat)
    requires k <= r <= |slots| && (r < |slots| ==> slots[r].ref > 0 && slots[r].key == key)
    requires forall j :: k <= j < r ==> !(slots[j].ref > 0 && slots[j].key == key)
    ensures FindSlot(slots, key, k) == r
    decreases r - k
  {
    if k < r {
      FindSlotIs(slots, key, k + 1, r);
    }
  }

  lemma {:induction false} FirstEmptyIs(slots: seq<Slot>, k: nat, r: nat)
    requires k <= r <= |slots| && (r < |slots| ==> slots[r].ref == 0) && forall j :: k <= j < r ==> slots[j].ref != 0
    ensures FirstEmpty(slots, k) == r
    decreases r - k
  {
    if k < r {
      FirstEmptyIs(slots, k + 1, r);
    }
  }

  /** The first inode from k on that is free on disk. */
  function FirstFreeInode(disk: map<Key, Dinode>, dev: int, n: nat, k: nat): (r: nat)
    requires k <= n && forall i :: k <= i < n ==> Key(dev, i) in disk
    ensures k <= r <= n && (r < n ==> disk[Key(dev, r)].kind == 0)
    ensures forall i :: k <= i < r ==> disk[Key(dev, i)].kind != 0
    decreases n - k
  {
    if k == n || disk[Key(dev, k)].kind == 0 then k else FirstFreeInode(disk, dev, n, k + 1)
  }

  class Cache {
    const inode: array<Slot>
    var disk: map<Key, Dinode>

    constructor (d: map<Key, Dinode>)
      ensures fresh(inode) && disk == d && inode.Length == NINODE
      ensures forall k :: 0 <= k < NINODE ==> inode[k].ref == 0 && inode[k].busy == NotBusy
    {
      inode := new Slot[NINODE](_ => Slot(Key(0, 0), 0, NotBusy, false, Dinode(0, 0, 0)));
      disk := d;
    }

    /** Find or make the entry for a key and take a reference. */
    method Iget(key: Key) returns (panicked: bool, k: int)
      requires forall j :: 0 <= j < inode.Length ==> inode[j].ref >= 0
      modifies inode
      ensures panicked <==> IgetSlot(old(inode[..]), key).NoInodes?
      ensures panicked <==> forall j :: 0 <= j < inode.Length ==> old(inode[..])[j].ref > 0 && old(inode[..])[j].key != key
      ensures !panicked ==> k == IgetSlot(old(inode[..]), key).k && inode[..] == IgetSlots(old(inode[..]), key)
    {
      var empty := -1;
      k := 0;
      while k < inode.Length
        invariant 0 <= k <= inode.Length && inode[..] == old(inode[..])
        invariant forall j :: 0 <= j < k ==> !(inode[j].ref > 0 && inode[j].key == key)
        invariant if empty < 0 then forall j :: 0 <= j < k ==> inode[j].ref != 0
                  else empty < k && inode[empty].ref == 0 && forall j :: 0 <= j < empty ==> inode[j].ref != 0
      {
        if inode[k].ref > 0 && inode[k].key == key {
          FindSlotIs(inode[..], key, 0, k);
          inode[k] := inode[k].(ref := inode[k].ref + 1);
          return false, k;
        }
        if empty < 0 && inode[k].ref == 0 {
          empty := k;
        }
        k := k + 1;
      }
      FindSlotIs(inode[..], key, 0, k);
      if empty < 0 {
        FirstEmptyIs(inode[..], 0, k);
        return true, 0;
      }
      FirstEmptyIs(inode[..], 0, empty);
      k := empty;
      inode[k] := Slot(key, 1, NotBusy, false, inode[k].mem);
      return false, k;
    }

    /** ialloc: mark the first free inode on disk, then get it from the cache. */
    method Ialloc(dev: int, ninodes: nat, kind: int) returns (panicked: bool, k: int)
      requires 1 <= ninodes && forall i :: 1 <= i < ninodes ==> Key(dev, i) in disk
      requires forall j :: 0 <= j < inode.Length ==> inode[j].ref >= 0
      modifies this`disk, inode
      ensures var inum := FirstFreeInode(old(disk), dev, ninodes, 1);
              && disk == (if inum == ninodes then old(disk) else old(disk)[Key(dev, inum) := Dinode(kind, 0, 0)])
              && (panicked <==> inum == ninodes || IgetSlot(old(inode[..]), Key(dev, inum)).NoInodes?)
              && (panicked <==>
                    || (forall i :: 1 <= i < ninodes ==> old(disk)[Key(dev, i)].kind != 0)
                    || (forall j :: 0 <= j < inode.Length ==> old(inode[..])[j].ref > 0 && old(inode[..])[j].key != Key(dev, inum)))
              && (!panicked ==> k == IgetSlot(old(inode[..]), Key(dev, inum)).k && inode[..] == IgetSlots(old(inode[..]), Key(dev, inum)))
    {
      var inum := 1;
      while inum < ninodes
        invariant 1 <= inum <= ninodes && disk == old(disk) && inode[..] == old(inode[..])
        invariant FirstFreeInode(disk, dev, ninodes, inum) == FirstFreeInode(disk, dev, ninodes, 1)
      {
        if disk[Key(dev, inum)].kind == 0 {
          disk := disk[Key(dev, inum) := Dinode(kind, 0, 0)];
          panicked, k := Iget(Key(dev, inum));
          return;
        }
        inum := inum + 1;
      }
      return true, 0;
    }

    /** ilock's critical section; false means sleep and try again. */
    method IlockTry(k: int, p: int) returns (locked: bool)
      requires 0 <= k < inode.Length
      modifies inode
      ensures locked <==> old(inode[k]).busy == NotBusy
      ensures inode[..] == if locked then old(inode[..])[k := old(inode[k]).(busy := if old(inode[k]).valid then Locked(p) else Reading(p))]
                           else old(inode[..])
    {
      if inode[k].busy != NotBusy {
        return false;
      }
      inode[k] := inode[k].(busy := if inode[k].valid then Locked(p) else Reading(p));
      return true;
    }

    /** ilock's disk read; panics on a free inode. */
    method IlockRead(k: int, p: int) returns (panicked: bool)
      requires 0 <= k < inode.Length && inode[k].busy == Reading(p) && inode[k].key in disk
      modifies inode
      ensures panicked <==> disk[old(inode[k]).key].kind == 0
      ensures inode[..] == old(inode[..])[k := old(inode[k]).(busy := Locked(p), valid := true, mem := disk[old(inode[k]).key])]
    {
      var dip := disk[inode[k].key];
      inode[k] := inode[k].(mem := dip);
      inode[k] := inode[k].(valid := true, busy := Locked(p));
      return inode[k].mem.kind == 0;
    }

    /** iunlock: panics unless somebody has the entry busy and referenced. */
    method Iunlock(k: int) returns (panicked: bool)
      requires 0 <= k < inode.Length
      modifies inode
      ensures panicked <==> old(inode[k]).busy == NotBusy || old(inode[k]).ref < 1
      ensures inode[..] == if panicked then old(inode[..]) else old(inode[..])[k := old(inode[k]).(busy := NotBusy)]
    {
      if inode[k].busy == NotBusy || inode[k].ref < 1 {
        return true;
      }
      inode[k] := inode[k].(busy := NotBusy);
      return false;
    }

    /** iput's first critical section: drop the reference, or start freeing. */
    method IputStart(k: int, p: int) returns (panicked: bool, free: bool)
      requires 0 <= k < inode.Length
      modifies inode
      ensures free <==> LastUnlinked(old(inode[k])) && !panicked
      ensures panicked <==> LastUnlinked(old(inode[k])) && old(inode[k]).busy != NotBusy
      ensures inode[..] == if panicked then old(inode[..])
                           else if free then old(inode[..])[k := old(inode[k]).(busy := Freeing(p))]
                           else old(inode[..])[k := old(inode[k]).(ref := old(inode[k]).ref - 1)]
    {
      if inode[k].ref == 1 && inode[k].valid && inode[k].mem.nlink == 0 {
        if inode[k].busy != NotBusy {
          return true, false;
        }
        inode[k] := inode[k].(busy := Freeing(p));
        return false, true;
      }
      inode[k] := inode[k].(ref := inode[k].ref - 1);
      return false, false;
    }

    /** The freeing itself, without icache.lock. */
    method IputFree(k: int, p: int)
      requires 0 <= k < inode.Length
      modifies inode, this`disk
      ensures inode[..] == old(inode[..])[k := old(inode[k]).(busy := Freed(p), mem := Dinode(0, 0, 0))]
      ensures disk == old(disk)[old(inode[k]).key := Dinode(0, 0, 0)]
    {
      inode[k] := inode[k].(busy := Freed(p), mem := Dinode(0, 0, 0));
      disk := disk[inode[k].key := inode[k].mem];
    }

    /** iput's last critical section after freeing. */
    method IputEnd(k: int)
      requires 0 <= k < inode.Length
      modifies inode
      ensures inode[..] == old(inode[..])[k := old(inode[k]).(busy := NotBusy, valid := false, ref := old(inode[k]).ref - 1)]
    {
      inode[k] := inode[k].(busy := NotBusy, valid := false);
      inode[k] := inode[k].(ref := inode[k].ref - 1);
    }
  }
}
