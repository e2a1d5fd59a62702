/** Directories and link counts: create, link and unlink of sysfile.c over dirlookup
    and dirlink of fs.c.

    An inode is its kind, its link count and, for a directory, its entries.  A system
    call is one step, except link: it raises the count in one step and adds the entry,
    or takes the count back, in a later one. */
module Dir {

  const ROOT := 1
  const DIRSIZ := 14

  datatype Kind = Free | D | F | Device
  datatype Entry = Entry(inum: int, name: string)      // inum 0 marks an empty slot
  datatype Ino = Ino(kind: Kind, nlink: int, ents: seq<Entry>)

  type Fs = seq<Ino>

  /** The part of a name that strncmp and strncpy look at. */
  function Cut(name: string): string {
    if |name| <= DIRSIZ then name else name[..DIRSIZ]
  }

  // ---------- one directory ----------

  /** Index of the entry with this name, or the number of entries. */
  function Lookup(ents: seq<Entry>, name: string, k: nat): (r: nat)
    requires k <= |ents|
    ensures k <= r <= |ents|
    ensures r < |ents| ==> ents[r].inum != 0 && ents[r].name == Cut(name)
    ensures forall i :: k <= i < r ==> ents[i].inum == 0 || ents[i].name != Cut(name)
    decreases |ents| - k
  {
    if k == |ents| || (ents[k].inum != 0 && ents[k].name == Cut(name)) then k else Lookup(ents, name, k + 1)
  }

  /** Index of the first empty slot, or the number of entries. */
  function FreeSlot(ents: seq<Entry>, k: nat): (r: nat)
    requires k <= |ents|
    ensures k <= r <= |ents|
    ensures r < |ents| ==> ents[r].inum == 0
    ensures forall i :: k <= i < r ==> ents[i].inum != 0
    decreases |ents| - k
  {
    if k == |ents| || ents[k].inum == 0 then k else FreeSlot(ents, k + 1)
  }

  predicate Present(ents: seq<Entry>, name: string) {
    Lookup(ents, name, 0) < |ents|
  }

  function Added(ents: seq<Entry>, name: string, inum: int): (r: seq<Entry>)
    ensures var k := FreeSlot(ents, 0);
            && |r| == (if k < |ents| then |ents| else |ents| + 1)
            && r[k] == Entry(inum, Cut(name))
            && forall i :: 0 <= i < |ents| && i != k ==> r[i] == ents[i]
  {
    var k := FreeSlot(ents, 0);
    if k < |ents| then ents[k := Entry(inum, Cut(name))] else ents + [Entry(inum, Cut(name))]
  }

  predicate EmptyFrom(ents: seq<Entry>, k: nat) {
    forall i :: k <= i < |ents| ==> ents[i].inum == 0
  }

  // ---------- the invariant ----------

  predicate Linked(fs: Fs, d: int) {
    0 <= d < |fs| && fs[d].kind == D && fs[d].nlink > 0
  }

  function Parent(fs: Fs, d: int): int {
    if 0 <= d < |fs| && |fs[d].ents| >= 2 then fs[d].ents[1].inum else d
  }

  function Up(fs: Fs, d: int, n: nat): int
    decreases n
  {
    if n == 0 then d else Up(fs, Parent(fs, d), n - 1)
  }

  ghost predicate ReachesRoot(fs: Fs, d: int) {
    exists n: nat :: Up(fs, d, n) == ROOT
  }

  /** The entries of linked directories, other than ".", that name inode i. */
  ghost function Refs(fs: Fs, i: int): set<(int, int)> {
    set d, k | 0 <= d < |fs| && Linked(fs, d) && 1 <= k < |fs[d].ents| && fs[d].ents[k].inum == i :: (d, k)
  }

  /** Every directory starts with "." and "..". */
  predicate Dots(e: seq<Entry>, d: int) {
    |e| >= 2 && e[0] == Entry(d, ".") && e[1].name == ".." && e[1].inum != 0
  }

  /** No name occurs twice. */
  ghost predicate NamesUnique(e: seq<Entry>) {
    forall j, k :: 0 <= j < k < |e| && e[j].inum != 0 && e[k].inum != 0 ==> e[j].name != e[k].name
  }

  /** An ordinary entry of a linked directory names an inode in use; if that is a
      directory, this is its parent. */
  ghost predicate EntryOk(fs: Fs, d: int, k: int)
    requires 0 <= d < |fs| && 0 <= k < |fs[d].ents|
  {
    var i := fs[d].ents[k].inum;
    i != 0 ==> 0 < i < |fs| && fs[i].kind != Free && (fs[i].kind == D ==> i != ROOT && Parent(fs, i) == d)
  }

  /** A linked directory other than the root has exactly one entry in its parent. */
  ghost predicate Placed(fs: Fs, d: int)
    requires 0 <= d < |fs|
  {
    var p := Parent(fs, d);
    && 0 <= p < |fs| && Linked(fs, p)
    && (d != ROOT ==> exists k :: 2 <= k < |fs[p].ents| && fs[p].ents[k].inum == d)
    && forall j, k :: 2 <= j < k < |fs[p].ents| && fs[p].ents[j].inum == d ==> fs[p].ents[k].inum != d
  }

  ghost predicate Counted(fs: Fs, pend: multiset<int>, i: int)
    requires 0 <= i < |fs|
  {
    if fs[i].kind == Free then Refs(fs, i) == {} && pend[i] == 0
    else fs[i].nlink == |Refs(fs, i)| + pend[i] && (fs[i].kind == D ==> pend[i] == 0)
  }

  /** The directories are well shaped, and a removed one is empty. */
  ghost predicate DirsOk(fs: Fs) {
    forall d :: 0 <= d < |fs| && fs[d].kind == D ==> DirOk(fs[d], d)
  }

  ghost predicate DirOk(x: Ino, d: int) {
    Dots(x.ents, d) && NamesUnique(x.ents) && (x.nlink == 0 ==> EmptyFrom(x.ents, 2))
  }

  ghost predicate EntriesOk(fs: Fs) {
    forall d, k :: Linked(fs, d) && 2 <= k < |fs[d].ents| ==> EntryOk(fs, d, k)
  }

  ghost predicate PlacesOk(fs: Fs) {
    forall d :: Linked(fs, d) ==> Placed(fs, d)
  }

  ghost predicate RootsOk(fs: Fs) {
    forall d :: Linked(fs, d) ==> ReachesRoot(fs, d)
  }

  ghost predicate TreeOk(fs: Fs) {
    EntriesOk(fs) && PlacesOk(fs) && RootsOk(fs)
  }

  ghost predicate CountsOk(fs: Fs, pend: multiset<int>) {
    && (forall i :: 0 < i < |fs| ==> Counted(fs, pend, i))
    && (forall i :: i in pend ==> 0 < i < |fs|)
  }

  /** Linked directories form a tree rooted at ROOT, and link counts are exact up to
      links in progress. */
  ghost predicate Inv(fs: Fs, pend: multiset<int>) {
    && ROOT < |fs| && Linked(fs, ROOT) && Parent(fs, ROOT) == ROOT && fs[0].kind == Free
    && DirsOk(fs) && TreeOk(fs) && CountsOk(fs, pend)
  }

  // ---------- operations ----------

  /** ialloc: the first free inode number. */
  function FirstFree(fs: Fs, i: nat): (r: nat)
    requires i <= |fs|
    ensures i <= r <= |fs|
    ensures r < |fs| ==> fs[r].kind == Free
    ensures forall j :: i <= j < r ==> fs[j].kind != Free
    decreases |fs| - i
  {
    if i == |fs| || fs[i].kind == Free then i else FirstFree(fs, i + 1)
  }

  datatype Created = Existing(inum: int) | Refused | OutOfInodes | New(fs: Fs, inum: int)

  function Create(fs: Fs, dp: int, name: string, kind: Kind): Created
    requires 0 <= dp < |fs| && fs[dp].kind == D && 1 < |fs|
  {
    var k := Lookup(fs[dp].ents, name, 0);
    if k < |fs[dp].ents| then
      var i := fs[dp].ents[k].inum;
      if kind == F && 0 <= i < |fs| && fs[i].kind == F then Existing(i) else Refused
    else
      var ip := FirstFree(fs, 1);
      if ip == |fs| then OutOfInodes else New(Make(fs, dp, name, kind, ip), ip)
  }

  /** The new inode, its dot entries and the parent's count if it is a directory, and
      its entry in the parent. */
  function Make(fs: Fs, dp: int, name: string, kind: Kind, ip: int): (r: Fs)
    requires 0 <= dp < |fs| && 0 <= ip < |fs| && ip != dp
    ensures |r| == |fs|
  {
    var ents := if kind == D then [Entry(ip, "."), Entry(dp, "..")] else [];
    var up := if kind == D then fs[dp].nlink + 1 else fs[dp].nlink;
    fs[ip := Ino(kind, 1, ents)][dp := fs[dp].(nlink := up, ents := Added(fs[dp].ents, name, ip))]
  }

  function SetLinks(fs: Fs, i: int, n: int): (r: Fs)
    requires 0 <= i < |fs|
  {
    fs[i := fs[i].(nlink := n)]
  }

  function AddEntry(fs: Fs, dp: int, name: string, ip: int): (r: Fs)
    requires 0 <= dp < |fs|
  {
    fs[dp := fs[dp].(ents := Added(fs[dp].ents, name, ip))]
  }

  datatype Unlinked = NotFound | Busy | NoLinks | Gone(fs: Fs, inum: int)

  function Unlink(fs: Fs, dp: int, name: string): Unlinked
    requires 0 <= dp < |fs|
  {
    if Cut(name) == "." || Cut(name) == ".." then NotFound
    else
      var k := Lookup(fs[dp].ents, name, 0);
      if k == |fs[dp].ents| then NotFound
      else
        var ip := fs[dp].ents[k].inum;
        if !(0 <= ip < |fs|) then NotFound
        else if fs[ip].nlink < 1 then NoLinks
        else if fs[ip].kind == D && !EmptyFrom(fs[ip].ents, 2) then Busy
        else Gone(Erase(fs, dp, k, ip), ip)
  }

  function Erase(fs: Fs, dp: int, k: int, ip: int): (r: Fs)
    requires 0 <= dp < |fs| && 0 <= k < |fs[dp].ents| && 0 <= ip < |fs|
    ensures |r| == |fs|
  {
    var down := if fs[ip].kind == D then fs[dp].nlink - 1 else fs[dp].nlink;
    var fs1 := fs[dp := fs[dp].(nlink := down, ents := fs[dp].ents[k := Entry(0, "")])];
    SetLinks(fs1, ip, fs1[ip].nlink - 1)
  }

  /** iput frees an inode without links once nobody uses it. */
  function Release(fs: Fs, i: int): (r: Fs)
    requires 0 <= i < |fs|
  {
    fs[i := Ino(Free, fs[i].nlink, [])]
  }

  // ---------- membership and slots ----------

  predicate IsRef(fs: Fs, i: int, d: int, k: int) {
    Linked(fs, d) && 1 <= k < |fs[d].ents| && fs[d].ents[k].inum == i
  }

  lemma RefsIs(fs: Fs, i: int, d: int, k: int)
    ensures (d, k) in Refs(fs, i) <==> IsRef(fs, i, d, k)
  {
  }

  /** No entry of a linked directory names i. */
  ghost predicate Unnamed(fs: Fs, i: int) {
    forall d, k :: !IsRef(fs, i, d, k)
  }

  lemma FreeUnnamed(fs: Fs, pend: multiset<int>, i: int)
    requires 0 < i < |fs| && fs[i].kind == Free && Counted(fs, pend, i)
    ensures Unnamed(fs, i)
  {
    forall d, k ensures !IsRef(fs, i, d, k) {
      RefsIs(fs, i, d, k);
    }
  }

  /** Adding a name that is not present keeps the names unique. */
  lemma AddedNames(ents: seq<Entry>, name: string, ip: int)
    requires NamesUnique(ents) && !Present(ents, name)
    ensures NamesUnique(Added(ents, name, ip))
  {
    assert forall i :: 0 <= i < |ents| && ents[i].inum != 0 ==> ents[i].name != Cut(name);
  }

  lemma {:induction false} UpSame(fs: Fs, r: Fs, d: int, n: nat)
    requires forall x :: Linked(fs, x) ==> Linked(fs, Parent(fs, x)) && Parent(r, x) == Parent(fs, x)
    requires Linked(fs, d)
    ensures Up(r, d, n) == Up(fs, d, n)
    decreases n
  {
    if n > 0 {
      UpSame(fs, r, Parent(fs, d), n - 1);
    }
  }

  lemma ReachesSame(fs: Fs, r: Fs, d: int)
    requires forall x :: Linked(fs, x) ==> Linked(fs, Parent(fs, x)) && Parent(r, x) == Parent(fs, x)
    requires Linked(fs, d) && ReachesRoot(fs, d)
    ensures ReachesRoot(r, d)
  {
    var n: nat :| Up(fs, d, n) == ROOT;
    UpSame(fs, r, d, n);
  }

  // ---------- create ----------

  /** What create knows when it has found a free inode and no entry of that name. */
  ghost predicate CanMake(fs: Fs, dp: int, name: string, kind: Kind, ip: int) {
    && 0 < dp < |fs| && Linked(fs, dp) && Dots(fs[dp].ents, dp) && !Present(fs[dp].ents, name)
    && 0 < ip < |fs| && fs[ip].kind == Free && kind != Free
  }

  lemma MakeFields(fs: Fs, dp: int, name: string, kind: Kind, ip: int)
    requires CanMake(fs, dp, name, kind, ip)
    ensures var r := Make(fs, dp, name, kind, ip);
            && 2 <= FreeSlot(fs[dp].ents, 0)
            && (forall d :: Linked(r, d) <==> Linked(fs, d) || (kind == D && d == ip))
            && (forall d :: Linked(fs, d) ==> Parent(r, d) == Parent(fs, d))
            && (kind == D ==> Parent(r, ip) == dp)
            && (forall d :: 0 <= d < |fs| && d != ip && d != dp ==> r[d] == fs[d])
            && r[ip].kind == kind && r[dp].kind == D && r[dp].ents == Added(fs[dp].ents, name, ip)
  {
  }

  /** The entries of linked directories afterwards: the old ones, the new entry and, for
      a new directory, its "..". */
  lemma MakeIsRef(fs: Fs, dp: int, name: string, kind: Kind, ip: int, i: int, d: int, k: int)
    requires CanMake(fs, dp, name, kind, ip) && Unnamed(fs, ip) && 0 < i
    ensures IsRef(Make(fs, dp, name, kind, ip), i, d, k) <==>
              if i == ip then d == dp && k == FreeSlot(fs[dp].ents, 0)
              else IsRef(fs, i, d, k) || (kind == D && i == dp && d == ip && k == 1)
  {
    MakeFields(fs, dp, name, kind, ip);
    assert !IsRef(fs, ip, d, k);
  }

  lemma MakeRefs(fs: Fs, dp: int, name: string, kind: Kind, ip: int, i: int)
    requires CanMake(fs, dp, name, kind, ip) && Unnamed(fs, ip) && 0 < i < |fs|
    ensures var r := Make(fs, dp, name, kind, ip);
            Refs(r, i) == if i == ip then {(dp, FreeSlot(fs[dp].ents, 0))}
                          else if kind == D && i == dp then Refs(fs, i) + {(ip, 1)}
                          else Refs(fs, i)
  {
    var r := Make(fs, dp, name, kind, ip);
    forall x | x in Refs(r, i) || x in Refs(fs, i) || x == (ip, 1) || x == (dp, FreeSlot(fs[dp].ents, 0))
      ensures x in Refs(r, i) <==>
        if i == ip then x == (dp, FreeSlot(fs[dp].ents, 0))
        else x in Refs(fs, i) || (kind == D && i == dp && x == (ip, 1))
    {
      RefsIs(r, i, x.0, x.1);
      RefsIs(fs, i, x.0, x.1);
      MakeIsRef(fs, dp, name, kind, ip, i, x.0, x.1);
    }
  }

  lemma MakeCounted(fs: Fs, pend: multiset<int>, dp: int, name: string, kind: Kind, ip: int, i: int)
    requires CanMake(fs, dp, name, kind, ip) && Unnamed(fs, ip) && 0 < i < |fs|
    requires Counted(fs, pend, i) && Counted(fs, pend, ip)
    ensures Counted(Make(fs, dp, name, kind, ip), pend, i)
  {
    MakeRefs(fs, dp, name, kind, ip, i);
    RefsIs(fs, i, ip, 1);
  }

  lemma MakeEntry(fs: Fs, dp: int, name: string, kind: Kind, ip: int, d: int, k: int)
    requires CanMake(fs, dp, name, kind, ip) && Unnamed(fs, ip) && ip != ROOT
    requires var r := Make(fs, dp, name, kind, ip);
             Linked(r, d) && 2 <= k < |r[d].ents|
    requires Linked(fs, d) && k < |fs[d].ents| ==> EntryOk(fs, d, k)
    ensures EntryOk(Make(fs, dp, name, kind, ip), d, k)
  {
    MakeFields(fs, dp, name, kind, ip);
    assert !IsRef(fs, ip, d, k);
  }

  lemma NewPlaced(fs: Fs, dp: int, name: string, kind: Kind, ip: int)
    requires CanMake(fs, dp, name, kind, ip) && Unnamed(fs, ip) && kind == D
    ensures Placed(Make(fs, dp, name, kind, ip), ip)
  {
    var r := Make(fs, dp, name, kind, ip);
    var s := FreeSlot(fs[dp].ents, 0);
    MakeFields(fs, dp, name, kind, ip);
    assert r[dp].ents[s].inum == ip;
    forall k | 2 <= k < |r[dp].ents| && k != s ensures r[dp].ents[k].inum != ip {
      assert !IsRef(fs, ip, dp, k);
    }
  }

  lemma OldPlaced(fs: Fs, dp: int, name: string, kind: Kind, ip: int, d: int)
    requires CanMake(fs, dp, name, kind, ip) && Linked(fs, d) && Placed(fs, d) && d != 0
    ensures Placed(Make(fs, dp, name, kind, ip), d)
  {
    var r := Make(fs, dp, name, kind, ip);
    MakeFields(fs, dp, name, kind, ip);
    var p := Parent(fs, d);
    var e, e' := fs[p].ents, r[p].ents;
    assert d != ip && p != ip;
    if d != ROOT {
      var k :| 2 <= k < |e| && e[k].inum == d;
      assert e'[k].inum == d;
    }
    assert forall k :: 2 <= k < |e'| && e'[k].inum == d ==> k < |e| && e[k].inum == d;
  }

  lemma MakeReaches(fs: Fs, dp: int, name: string, kind: Kind, ip: int, d: int)
    requires CanMake(fs, dp, name, kind, ip) && PlacesOk(fs) && RootsOk(fs)
    requires Linked(Make(fs, dp, name, kind, ip), d)
    ensures ReachesRoot(Make(fs, dp, name, kind, ip), d)
  {
    var r := Make(fs, dp, name, kind, ip);
    MakeFields(fs, dp, name, kind, ip);
    assert forall x :: Linked(fs, x) ==> Placed(fs, x);
    if Linked(fs, d) {
      ReachesSame(fs, r, d);
    } else {
      ReachesSame(fs, r, dp);
      var n: nat :| Up(r, dp, n) == ROOT;
      assert Up(r, ip, n + 1) == ROOT;
    }
  }

  lemma MakeTree(fs: Fs, dp: int, name: string, kind: Kind, ip: int)
    requires CanMake(fs, dp, name, kind, ip) && Unnamed(fs, ip) && ip != ROOT && TreeOk(fs) && fs[0].kind == Free
    ensures TreeOk(Make(fs, dp, name, kind, ip))
  {
    var r := Make(fs, dp, name, kind, ip);
    forall d, k | Linked(r, d) && 2 <= k < |r[d].ents| ensures EntryOk(r, d, k) {
      MakeEntry(fs, dp, name, kind, ip, d, k);
    }
    forall d | Linked(r, d) ensures Placed(r, d) && ReachesRoot(r, d) {
      if Linked(fs, d) {
        OldPlaced(fs, dp, name, kind, ip, d);
      } else {
        MakeFields(fs, dp, name, kind, ip);
        NewPlaced(fs, dp, name, kind, ip);
      }
      MakeReaches(fs, dp, name, kind, ip, d);
    }
  }

  lemma MakeDirs(fs: Fs, dp: int, name: string, kind: Kind, ip: int)
    requires CanMake(fs, dp, name, kind, ip) && DirsOk(fs)
    ensures DirsOk(Make(fs, dp, name, kind, ip))
  {
    assert DirOk(fs[dp], dp);
    AddedNames(fs[dp].ents, name, ip);
  }

  /** create keeps the tree and the counts when it adds to a linked directory. */
  lemma MakeKeepsInv(fs: Fs, pend: multiset<int>, dp: int, name: string, kind: Kind, ip: int)
    requires Inv(fs, pend) && CanMake(fs, dp, name, kind, ip)
    ensures Inv(Make(fs, dp, name, kind, ip), pend)
  {
    assert Counted(fs, pend, ip);
    FreeUnnamed(fs, pend, ip);
    MakeFields(fs, dp, name, kind, ip);
    forall i | 0 < i < |fs| ensures Counted(Make(fs, dp, name, kind, ip), pend, i) {
      MakeCounted(fs, pend, dp, name, kind, ip, i);
    }
    MakeDirs(fs, dp, name, kind, ip);
    MakeTree(fs, dp, name, kind, ip);
  }

  // ---------- link ----------

  /** Changing the count of something that is not a directory moves nothing. */
  lemma SetLinksFields(fs: Fs, i: int, n: int)
    requires 0 < i < |fs| && fs[i].kind != D
    ensures var r := SetLinks(fs, i, n);
            && (forall d :: Linked(r, d) <==> Linked(fs, d))
            && (forall d :: Parent(r, d) == Parent(fs, d))
  {
  }

  lemma SetLinksRefs(fs: Fs, i: int, n: int, x: int)
    requires 0 < i < |fs| && fs[i].kind != D
    ensures Refs(SetLinks(fs, i, n), x) == Refs(fs, x)
  {
    var r := SetLinks(fs, i, n);
    forall y | y in Refs(r, x) || y in Refs(fs, x) ensures y in Refs(r, x) <==> y in Refs(fs, x) {
      RefsIs(r, x, y.0, y.1);
      RefsIs(fs, x, y.0, y.1);
    }
  }

  ghost predicate SameEntries(fs: Fs, r: Fs) {
    |r| == |fs| && forall d :: 0 <= d < |fs| ==> r[d].kind == fs[d].kind && r[d].ents == fs[d].ents
  }

  lemma PlacedSame(fs: Fs, r: Fs, d: int)
    requires SameEntries(fs, r) && 0 <= d < |fs| && Placed(fs, d) && Linked(r, Parent(fs, d))
    ensures Placed(r, d)
  {
    var p := Parent(fs, d);
    if d != ROOT {
      var k :| 2 <= k < |fs[p].ents| && fs[p].ents[k].inum == d;
      assert r[p].ents[k].inum == d;
    }
  }

  lemma EntrySame(fs: Fs, r: Fs, d: int, k: int)
    requires SameEntries(fs, r) && 0 <= d < |fs| && 0 <= k < |fs[d].ents| && EntryOk(fs, d, k)
    ensures EntryOk(r, d, k)
  {
  }

  lemma SetLinksTree(fs: Fs, i: int, n: int)
    requires 0 < i < |fs| && fs[i].kind != D && TreeOk(fs)
    ensures TreeOk(SetLinks(fs, i, n))
  {
    var r := SetLinks(fs, i, n);
    SetLinksFields(fs, i, n);
    assert SameEntries(fs, r);
    forall d, k | Linked(r, d) && 2 <= k < |r[d].ents| ensures EntryOk(r, d, k) {
      EntrySame(fs, r, d, k);
    }
    forall d | Linked(r, d) ensures Placed(r, d) {
      PlacedSame(fs, r, d);
    }
    assert forall x :: Linked(fs, x) ==> Placed(fs, x);
    forall d | Linked(r, d) ensures ReachesRoot(r, d) {
      ReachesSame(fs, r, d);
    }
  }

  lemma SetLinksDirs(fs: Fs, i: int, n: int)
    requires 0 < i < |fs| && fs[i].kind != D && DirsOk(fs)
    ensures DirsOk(SetLinks(fs, i, n))
  {
  }

  lemma SetLinksCounts(fs: Fs, pend: multiset<int>, ip: int, n: int, pend': multiset<int>)
    requires CountsOk(fs, pend) && 0 < ip < |fs| && fs[ip].kind != D && fs[ip].kind != Free
    requires n + pend[ip] == fs[ip].nlink + pend'[ip] && forall i :: i != ip ==> pend'[i] == pend[i]
    ensures CountsOk(SetLinks(fs, ip, n), pend')
  {
    var r := SetLinks(fs, ip, n);
    forall i | 0 < i < |r| ensures Counted(r, pend', i) {
      assert Counted(fs, pend, i);
      SetLinksRefs(fs, ip, n, i);
    }
    forall i | i in pend' ensures 0 < i < |r| {
      assert i != ip ==> i in pend;
    }
  }

  lemma SetLinksKeepsInv(fs: Fs, pend: multiset<int>, ip: int, n: int, pend': multiset<int>)
    requires Inv(fs, pend) && 0 < ip < |fs| && fs[ip].kind != D && fs[ip].kind != Free
    requires CountsOk(SetLinks(fs, ip, n), pend')
    ensures Inv(SetLinks(fs, ip, n), pend')
  {
    SetLinksDirs(fs, ip, n);
    SetLinksTree(fs, ip, n);
  }

  /** The first half of link: one more count, one more link in progress. */
  lemma LinkBeginKeepsInv(fs: Fs, pend: multiset<int>, ip: int)
    requires Inv(fs, pend) && 0 < ip < |fs| && fs[ip].kind != D && fs[ip].kind != Free
    ensures Inv(SetLinks(fs, ip, fs[ip].nlink + 1), pend + multiset{ip})
  {
    SetLinksCounts(fs, pend, ip, fs[ip].nlink + 1, pend + multiset{ip});
    SetLinksKeepsInv(fs, pend, ip, fs[ip].nlink + 1, pend + multiset{ip});
  }

  lemma PendingIsFile(fs: Fs, pend: multiset<int>, ip: int)
    requires Inv(fs, pend) && ip in pend
    ensures 0 < ip < |fs| && fs[ip].kind != D && fs[ip].kind != Free
  {
    assert Counted(fs, pend, ip);
  }

  /** The second half of link when it fails: the count is taken back. */
  lemma LinkUndoKeepsInv(fs: Fs, pend: multiset<int>, ip: int)
    requires Inv(fs, pend) && ip in pend
    ensures 0 < ip < |fs| && Inv(SetLinks(fs, ip, fs[ip].nlink - 1), pend - multiset{ip})
  {
    PendingIsFile(fs, pend, ip);
    SetLinksCounts(fs, pend, ip, fs[ip].nlink - 1, pend - multiset{ip});
    SetLinksKeepsInv(fs, pend, ip, fs[ip].nlink - 1, pend - multiset{ip});
  }

  ghost predicate CanAdd(fs: Fs, dp: int, name: string, ip: int) {
    && 0 < dp < |fs| && Linked(fs, dp) && Dots(fs[dp].ents, dp) && !Present(fs[dp].ents, name)
    && 0 < ip < |fs| && fs[ip].kind != D && fs[ip].kind != Free
  }

  lemma AddFields(fs: Fs, dp: int, name: string, ip: int)
    requires CanAdd(fs, dp, name, ip)
    ensures var r := AddEntry(fs, dp, name, ip);
            && 2 <= FreeSlot(fs[dp].ents, 0)
            && (forall d :: Linked(r, d) <==> Linked(fs, d))
            && (forall d :: Parent(r, d) == Parent(fs, d))
            && (forall d :: 0 <= d < |fs| && d != dp ==> r[d] == fs[d])
            && r[dp].kind == D && r[dp].nlink == fs[dp].nlink && r[dp].ents == Added(fs[dp].ents, name, ip)
  {
  }

  lemma AddRefs(fs: Fs, dp: int, name: string, ip: int, i: int)
    requires CanAdd(fs, dp, name, ip) && 0 < i < |fs|
    ensures var s := FreeSlot(fs[dp].ents, 0);
            && (dp, s) !in Refs(fs, i)
            && Refs(AddEntry(fs, dp, name, ip), i) == if i == ip then Refs(fs, i) + {(dp, s)} else Refs(fs, i)
  {
    var r := AddEntry(fs, dp, name, ip);
    var s := FreeSlot(fs[dp].ents, 0);
    AddFields(fs, dp, name, ip);
    RefsIs(fs, i, dp, s);
    forall x | x in Refs(r, i) || x in Refs(fs, i) || x == (dp, s)
      ensures x in Refs(r, i) <==> x in Refs(fs, i) || (i == ip && x == (dp, s))
    {
      RefsIs(r, i, x.0, x.1);
      RefsIs(fs, i, x.0, x.1);
    }
  }

  lemma AddTree(fs: Fs, dp: int, name: string, ip: int)
    requires CanAdd(fs, dp, name, ip) && TreeOk(fs) && fs[0].kind == Free
    ensures TreeOk(AddEntry(fs, dp, name, ip))
  {
    var r := AddEntry(fs, dp, name, ip);
    AddFields(fs, dp, name, ip);
    forall d, k | Linked(r, d) && 2 <= k < |r[d].ents| ensures EntryOk(r, d, k) {
      AddEntryOk(fs, dp, name, ip, d, k);
    }
    forall d | Linked(r, d) ensures Placed(r, d) {
      AddPlaced(fs, dp, name, ip, d);
    }
    assert forall x :: Linked(fs, x) ==> Placed(fs, x);
    forall d | Linked(r, d) ensures ReachesRoot(r, d) {
      ReachesSame(fs, r, d);
    }
  }

  lemma AddEntryOk(fs: Fs, dp: int, name: string, ip: int, d: int, k: int)
    requires CanAdd(fs, dp, name, ip) && Linked(fs, d) && 2 <= k < |AddEntry(fs, dp, name, ip)[d].ents|
    requires k < |fs[d].ents| ==> EntryOk(fs, d, k)
    ensures EntryOk(AddEntry(fs, dp, name, ip), d, k)
  {
    AddFields(fs, dp, name, ip);
  }

  lemma AddPlaced(fs: Fs, dp: int, name: string, ip: int, d: int)
    requires CanAdd(fs, dp, name, ip) && Linked(fs, d) && Placed(fs, d) && d != 0
    ensures Placed(AddEntry(fs, dp, name, ip), d)
  {
    var r := AddEntry(fs, dp, name, ip);
    AddFields(fs, dp, name, ip);
    var p := Parent(fs, d);
    var e, e' := fs[p].ents, r[p].ents;
    if d != ROOT {
      var k :| 2 <= k < |e| && e[k].inum == d;
      assert e'[k].inum == d;
    }
    assert forall k :: 2 <= k < |e'| && e'[k].inum == d ==> k < |e| && e[k].inum == d;
  }

  lemma AddDirs(fs: Fs, dp: int, name: string, ip: int)
    requires CanAdd(fs, dp, name, ip) && DirsOk(fs)
    ensures DirsOk(AddEntry(fs, dp, name, ip))
  {
    assert DirOk(fs[dp], dp);
    AddedNames(fs[dp].ents, name, ip);
  }

  lemma AddCounts(fs: Fs, pend: multiset<int>, dp: int, name: string, ip: int)
    requires CanAdd(fs, dp, name, ip) && CountsOk(fs, pend) && ip in pend
    ensures CountsOk(AddEntry(fs, dp, name, ip), pend - multiset{ip})
  {
    var r := AddEntry(fs, dp, name, ip);
    AddFields(fs, dp, name, ip);
    forall i | 0 < i < |r| ensures Counted(r, pend - multiset{ip}, i) {
      assert Counted(fs, pend, i);
      AddRefs(fs, dp, name, ip, i);
    }
  }

  /** The second half of link when it succeeds. */
  lemma LinkEndKeepsInv(fs: Fs, pend: multiset<int>, dp: int, name: string, ip: int)
    requires Inv(fs, pend) && CanAdd(fs, dp, name, ip) && ip in pend
    ensures Inv(AddEntry(fs, dp, name, ip), pend - multiset{ip})
  {
    AddFields(fs, dp, name, ip);
    AddTree(fs, dp, name, ip);
    AddDirs(fs, dp, name, ip);
    AddCounts(fs, pend, dp, name, ip);
  }

  // ---------- unlink ----------

  /** What unlink has checked when it erases entry k of dp. */
  ghost predicate CanErase(fs: Fs, dp: int, k: int, ip: int) {
    && Linked(fs, dp) && 2 <= k < |fs[dp].ents| && fs[dp].ents[k].inum == ip
    && 0 < ip < |fs| && fs[ip].kind != Free && fs[ip].nlink >= 1 && ip != dp
    && (fs[ip].kind == D ==> EmptyFrom(fs[ip].ents, 2))
  }

  /** A directory that can be erased is named once and is nobody's parent. */
  ghost predicate Leaf(fs: Fs, dp: int, k: int, ip: int) {
    && (forall d, j :: IsRef(fs, ip, d, j) ==> d == dp && j == k)
    && Parent(fs, ip) == dp
  }

  lemma EmptyDirHasNoChild(fs: Fs, ip: int, d: int)
    requires 0 < ip < |fs| && EmptyFrom(fs[ip].ents, 2) && d != 0 && d != ROOT && 0 <= d < |fs| && Placed(fs, d)
    ensures Parent(fs, d) != ip
  {
  }

  lemma NamedOnlyByParent(fs: Fs, dp: int, k: int, ip: int, d: int, j: int)
    requires CanErase(fs, dp, k, ip) && fs[ip].kind == D && EntryOk(fs, dp, k) && Placed(fs, ip)
    requires IsRef(fs, ip, d, j) && j >= 2 && EntryOk(fs, d, j)
    ensures d == dp && j == k
  {
  }

  lemma EmptyDirIsLeaf(fs: Fs, dp: int, k: int, ip: int)
    requires EntriesOk(fs) && PlacesOk(fs) && Parent(fs, ROOT) == ROOT && |fs| > 0 && fs[0].kind == Free
    requires CanErase(fs, dp, k, ip) && fs[ip].kind == D
    ensures Leaf(fs, dp, k, ip)
  {
    hide EntriesOk, PlacesOk;
    ParentOfEntry(fs, dp, k, ip);
    forall d, j | IsRef(fs, ip, d, j) ensures d == dp && j == k {
      OnlyEntry(fs, dp, k, ip, d, j);
    }
  }

  lemma ParentOfEntry(fs: Fs, dp: int, k: int, ip: int)
    requires EntriesOk(fs) && CanErase(fs, dp, k, ip) && fs[ip].kind == D
    ensures Parent(fs, ip) == dp
  {
    assert EntryOk(fs, dp, k);
  }

  /** The one entry of a linked directory that names an empty directory. */
  lemma OnlyEntry(fs: Fs, dp: int, k: int, ip: int, d: int, j: int)
    requires EntriesOk(fs) && PlacesOk(fs) && Parent(fs, ROOT) == ROOT && |fs| > 0 && fs[0].kind == Free
    requires CanErase(fs, dp, k, ip) && fs[ip].kind == D && IsRef(fs, ip, d, j)
    ensures d == dp && j == k
  {
    assert EntryOk(fs, dp, k) && Placed(fs, ip);
    assert Placed(fs, d);
    if d != ROOT {
      EmptyDirHasNoChild(fs, ip, d);
    }
    assert j != 1;
    assert EntryOk(fs, d, j);
    NamedOnlyByParent(fs, dp, k, ip, d, j);
  }

  lemma EraseFields(fs: Fs, dp: int, k: int, ip: int)
    requires CanErase(fs, dp, k, ip)
    ensures var r := Erase(fs, dp, k, ip);
            && (forall d :: 0 <= d < |fs| && d != dp ==> r[d].ents == fs[d].ents && r[d].kind == fs[d].kind)
            && r[dp].kind == D && r[dp].ents == fs[dp].ents[k := Entry(0, "")]
            && (forall d :: 0 <= d < |fs| && d != dp && d != ip ==> r[d].nlink == fs[d].nlink)
            && r[ip].nlink == fs[ip].nlink - 1
            && r[dp].nlink == (if fs[ip].kind == D then fs[dp].nlink - 1 else fs[dp].nlink)
            && (forall d :: Parent(r, d) == Parent(fs, d))
  {
  }

  /** Which directories are linked afterwards: the same, without an erased directory. */
  lemma EraseLinked(fs: Fs, dp: int, k: int, ip: int, d: int)
    requires CanErase(fs, dp, k, ip)
    requires fs[ip].kind == D ==> fs[ip].nlink == 1 && fs[dp].nlink >= 2
    ensures Linked(Erase(fs, dp, k, ip), d) <==> Linked(fs, d) && !(d == ip && fs[ip].kind == D)
  {
    EraseFields(fs, dp, k, ip);
  }

  lemma EraseRefs(fs: Fs, dp: int, k: int, ip: int, i: int)
    requires CanErase(fs, dp, k, ip) && 0 < i < |fs|
    requires fs[ip].kind == D ==> fs[ip].nlink == 1 && fs[dp].nlink >= 2 && Leaf(fs, dp, k, ip) && EmptyFrom(fs[ip].ents, 2) && |fs[ip].ents| >= 2
    ensures var gone := {(dp, k)} + (if fs[ip].kind == D then {(ip, 1)} else {});
            Refs(Erase(fs, dp, k, ip), i) == Refs(fs, i) - gone
  {
    var r := Erase(fs, dp, k, ip);
    EraseFields(fs, dp, k, ip);
    forall x | x in Refs(r, i) || x in Refs(fs, i)
      ensures x in Refs(r, i) <==> x in Refs(fs, i) && x != (dp, k) && !(fs[ip].kind == D && x == (ip, 1))
    {
      RefsIs(r, i, x.0, x.1);
      RefsIs(fs, i, x.0, x.1);
      EraseLinked(fs, dp, k, ip, x.0);
    }
  }

  lemma TwoMembers<T>(s: set<T>, x: T, y: T)
    requires x in s && y in s && x != y
    ensures |s| >= 2
  {
    assert {x, y} <= s;
    assert |s - {x}| == |s| - 1 && y in s - {x};
  }

  /** The counts that erasing a directory relies on. */
  lemma LeafCounts(fs: Fs, pend: multiset<int>, dp: int, k: int, ip: int)
    requires CanErase(fs, dp, k, ip) && fs[ip].kind == D && Leaf(fs, dp, k, ip) && Dots(fs[ip].ents, ip) && Dots(fs[dp].ents, dp)
    requires Counted(fs, pend, ip) && Counted(fs, pend, dp) && Placed(fs, dp)
    requires Parent(fs, ROOT) == ROOT && 0 < dp && Linked(fs, ip)
    ensures fs[ip].nlink == 1 && fs[dp].nlink >= 2
  {
    forall x | x in Refs(fs, ip) ensures x == (dp, k) {
      RefsIs(fs, ip, x.0, x.1);
    }
    RefsIs(fs, ip, dp, k);
    assert Refs(fs, ip) == {(dp, k)};
    RefsIs(fs, dp, ip, 1);
    if dp == ROOT {
      RefsIs(fs, dp, dp, 1);
      TwoMembers(Refs(fs, dp), (ip, 1), (dp, 1));
    } else {
      var p := Parent(fs, dp);
      var j :| 2 <= j < |fs[p].ents| && fs[p].ents[j].inum == dp;
      RefsIs(fs, dp, p, j);
      TwoMembers(Refs(fs, dp), (ip, 1), (p, j));
    }
  }

  /** Everything known when unlink erases an entry of a good file system. */
  ghost predicate ErasePre(fs: Fs, dp: int, k: int, ip: int) {
    && CanErase(fs, dp, k, ip) && 0 < dp
    && (fs[ip].kind == D ==>
          && fs[ip].nlink == 1 && fs[dp].nlink >= 2 && Leaf(fs, dp, k, ip)
          && EmptyFrom(fs[ip].ents, 2) && |fs[ip].ents| >= 2)
  }

  lemma EstablishErasePre(fs: Fs, pend: multiset<int>, dp: int, k: int, ip: int)
    requires Inv(fs, pend) && CanErase(fs, dp, k, ip)
    ensures ErasePre(fs, dp, k, ip)
  {
    if fs[ip].kind == D {
      EmptyDirIsLeaf(fs, dp, k, ip);
      assert DirOk(fs[ip], ip) && DirOk(fs[dp], dp);
      assert Counted(fs, pend, ip) && Counted(fs, pend, dp) && Placed(fs, dp);
      LeafCounts(fs, pend, dp, k, ip);
    }
  }

  lemma EraseCounted(fs: Fs, pend: multiset<int>, dp: int, k: int, ip: int, i: int)
    requires ErasePre(fs, dp, k, ip) && 0 < i < |fs| && Counted(fs, pend, i)
    ensures Counted(Erase(fs, dp, k, ip), pend, i)
  {
    hide Erase, Refs;
    EraseFields(fs, dp, k, ip);
    EraseRefs(fs, dp, k, ip, i);
    RefsIs(fs, i, dp, k);
    RefsIs(fs, i, ip, 1);
    var r := Erase(fs, dp, k, ip);
    var gone := {(dp, k)} + (if fs[ip].kind == D then {(ip, 1)} else {});
    if i == ip {
      assert Refs(fs, i) - gone == Refs(fs, i) - {(dp, k)};
    } else if i == dp && fs[ip].kind == D {
      assert Refs(fs, i) - gone == Refs(fs, i) - {(ip, 1)};
    } else {
      assert Refs(fs, i) - gone == Refs(fs, i);
    }
  }

  lemma EraseDirs(fs: Fs, dp: int, k: int, ip: int)
    requires ErasePre(fs, dp, k, ip) && DirsOk(fs)
    ensures DirsOk(Erase(fs, dp, k, ip))
  {
    var r := Erase(fs, dp, k, ip);
    EraseFields(fs, dp, k, ip);
    forall d | 0 <= d < |r| && r[d].kind == D ensures DirOk(r[d], d) {
      assert DirOk(fs[d], d);
    }
  }

  lemma EraseEntry(fs: Fs, dp: int, k: int, ip: int, d: int, j: int)
    requires ErasePre(fs, dp, k, ip) && Linked(fs, d) && 2 <= j < |fs[d].ents| && EntryOk(fs, d, j)
    ensures var r := Erase(fs, dp, k, ip); j < |r[d].ents| && EntryOk(r, d, j)
  {
    EraseFields(fs, dp, k, ip);
  }

  lemma ErasePlaced(fs: Fs, dp: int, k: int, ip: int, d: int)
    requires ErasePre(fs, dp, k, ip) && Linked(fs, d) && d != 0 && Placed(fs, d) && !(d == ip && fs[ip].kind == D)
    requires Parent(fs, ROOT) == ROOT && (fs[ip].kind == D ==> ip != ROOT)
    ensures Placed(Erase(fs, dp, k, ip), d)
  {
    var r := Erase(fs, dp, k, ip);
    EraseFields(fs, dp, k, ip);
    var p := Parent(fs, d);
    if d != ROOT && fs[ip].kind == D {
      EmptyDirHasNoChild(fs, ip, d);
    }
    EraseLinked(fs, dp, k, ip, p);
    var e, e' := fs[p].ents, r[p].ents;
    if d != ROOT {
      var j :| 2 <= j < |e| && e[j].inum == d;
      assert e'[j].inum == d;
    }
    assert forall j :: 2 <= j < |e'| && e'[j].inum == d ==> e[j].inum == d;
  }

  lemma EraseTree(fs: Fs, dp: int, k: int, ip: int)
    requires ErasePre(fs, dp, k, ip) && TreeOk(fs) && fs[0].kind == Free && Parent(fs, ROOT) == ROOT
    ensures TreeOk(Erase(fs, dp, k, ip))
  {
    var r := Erase(fs, dp, k, ip);
    EraseFields(fs, dp, k, ip);
    assert EntryOk(fs, dp, k);
    forall d | Linked(r, d) ensures Linked(fs, d) && Placed(r, d) {
      EraseLinked(fs, dp, k, ip, d);
      ErasePlaced(fs, dp, k, ip, d);
    }
    forall d, j | Linked(r, d) && 2 <= j < |r[d].ents| ensures EntryOk(r, d, j) {
      assert EntryOk(fs, d, j);
      EraseEntry(fs, dp, k, ip, d, j);
    }
    assert forall x :: Linked(fs, x) ==> Placed(fs, x);
    forall d | Linked(r, d) ensures ReachesRoot(r, d) {
      ReachesSame(fs, r, d);
    }
  }

  lemma EraseKeepsRoot(fs: Fs, pend: multiset<int>, dp: int, k: int, ip: int)
    requires Inv(fs, pend) && ErasePre(fs, dp, k, ip)
    ensures var r := Erase(fs, dp, k, ip);
            Linked(r, ROOT) && Parent(r, ROOT) == ROOT && r[0].kind == Free
  {
    EraseFields(fs, dp, k, ip);
    assert EntryOk(fs, dp, k);
    EraseLinked(fs, dp, k, ip, ROOT);
  }

  /** unlink keeps the tree and the counts. */
  lemma EraseKeepsInv(fs: Fs, pend: multiset<int>, dp: int, k: int, ip: int)
    requires Inv(fs, pend) && CanErase(fs, dp, k, ip)
    ensures Inv(Erase(fs, dp, k, ip), pend)
  {
    EstablishErasePre(fs, pend, dp, k, ip);
    EraseKeepsRoot(fs, pend, dp, k, ip);
    forall i | 0 < i < |fs| ensures Counted(Erase(fs, dp, k, ip), pend, i) {
      EraseCounted(fs, pend, dp, k, ip, i);
    }
    EraseDirs(fs, dp, k, ip);
    EraseTree(fs, dp, k, ip);
  }

  // ---------- freeing an inode ----------

  lemma ReleaseRefs(fs: Fs, i: int, x: int)
    requires 0 < i < |fs| && fs[i].nlink == 0
    ensures Refs(Release(fs, i), x) == Refs(fs, x)
  {
    var r := Release(fs, i);
    forall y | y in Refs(r, x) || y in Refs(fs, x) ensures y in Refs(r, x) <==> y in Refs(fs, x) {
      RefsIs(r, x, y.0, y.1);
      RefsIs(fs, x, y.0, y.1);
    }
  }

  lemma ReleaseUnnamed(fs: Fs, pend: multiset<int>, i: int)
    requires 0 < i < |fs| && fs[i].nlink == 0 && Counted(fs, pend, i)
    ensures Unnamed(fs, i) && Refs(fs, i) == {} && pend[i] == 0
  {
    forall d, k ensures !IsRef(fs, i, d, k) {
      RefsIs(fs, i, d, k);
    }
  }

  lemma ReleasePlaced(fs: Fs, i: int, d: int)
    requires 0 < i < |fs| && fs[i].nlink == 0 && Linked(fs, d) && Placed(fs, d)
    ensures Placed(Release(fs, i), d)
  {
    var r := Release(fs, i);
    var p := Parent(fs, d);
    assert d != i && p != i && r[d] == fs[d] && r[p] == fs[p];
    if d != ROOT {
      var k :| 2 <= k < |fs[p].ents| && fs[p].ents[k].inum == d;
      assert r[p].ents[k].inum == d;
    }
  }

  lemma ReleaseFields(fs: Fs, i: int)
    requires 0 < i < |fs| && fs[i].nlink == 0
    ensures forall d :: Linked(Release(fs, i), d) <==> Linked(fs, d)
    ensures forall d :: Linked(fs, d) ==> Release(fs, i)[d] == fs[d] && Parent(Release(fs, i), d) == Parent(fs, d)
  {
  }

  lemma ReleaseEntry(fs: Fs, i: int, d: int, k: int)
    requires 0 < i < |fs| && fs[i].nlink == 0 && Linked(fs, d) && 2 <= k < |fs[d].ents|
    requires EntryOk(fs, d, k) && !IsRef(fs, i, d, k)
    ensures d != i && EntryOk(Release(fs, i), d, k)
  {
  }

  lemma ReleaseTree(fs: Fs, i: int)
    requires 0 < i < |fs| && fs[i].nlink == 0 && TreeOk(fs) && Unnamed(fs, i)
    ensures TreeOk(Release(fs, i))
  {
    var r := Release(fs, i);
    ReleaseFields(fs, i);
    forall d, k | Linked(r, d) && 2 <= k < |r[d].ents| ensures EntryOk(r, d, k) {
      ReleaseEntry(fs, i, d, k);
    }
    forall d | Linked(r, d) ensures Placed(r, d) {
      ReleasePlaced(fs, i, d);
    }
    assert forall x :: Linked(fs, x) ==> Placed(fs, x);
    forall d | Linked(r, d) ensures ReachesRoot(r, d) {
      ReachesSame(fs, r, d);
    }
  }

  /** iput may free whatever has no links. */
  lemma ReleaseKeepsInv(fs: Fs, pend: multiset<int>, i: int)
    requires Inv(fs, pend) && 0 < i < |fs| && fs[i].kind != Free && fs[i].nlink == 0
    ensures Inv(Release(fs, i), pend)
  {
    assert Counted(fs, pend, i);
    ReleaseUnnamed(fs, pend, i);
    ReleaseTree(fs, i);
    var r := Release(fs, i);
    forall x | 0 < x < |r| ensures Counted(r, pend, x) {
      assert Counted(fs, pend, x);
      ReleaseRefs(fs, i, x);
    }
  }

  // ---------- system calls and runs ----------

  /** What mkfs leaves: a root directory that is its own parent. */
  function Empty(n: nat): Fs
    requires n > 1
  {
    seq(n, i => if i == ROOT then Ino(D, 1, [Entry(ROOT, "."), Entry(ROOT, "..")]) else Ino(Free, 0, []))
  }

  lemma EmptyRefs(n: nat, i: int)
    requires n > 1 && 0 < i < n
    ensures Refs(Empty(n), i) == if i == ROOT then {(ROOT, 1)} else {}
  {
    var fs := Empty(n);
    forall x | x in Refs(fs, i) || x == (ROOT, 1) ensures x in Refs(fs, i) <==> i == ROOT && x == (ROOT, 1) {
      RefsIs(fs, i, x.0, x.1);
    }
  }

  lemma EmptyInv(n: nat)
    requires n > 1
    ensures Inv(Empty(n), multiset{})
  {
    var fs := Empty(n);
    forall i | 0 < i < n ensures Counted(fs, multiset{}, i) {
      EmptyRefs(n, i);
    }
    assert Placed(fs, ROOT);
    assert Up(fs, ROOT, 0) == ROOT;
    assert TreeOk(fs);
  }

  datatype Call =
    | CallCreate(dp: int, name: string, kind: Kind)
    | CallLink(ip: int)                               // sys_link up to the raised count
    | CallLinkEnd(dp: int, name: string, ip: int)     // its second half
    | CallLinkUndo(ip: int)                           // no such parent directory
    | CallUnlink(dp: int, name: string)
    | CallPut(i: int)                                 // the last reference to an inode goes

  datatype State = State(fs: Fs, pend: multiset<int>)

  predicate IsDir(fs: Fs, d: int) {
    0 <= d < |fs| && fs[d].kind == D
  }

  /** Calls a process can make; what adds an entry does so in a linked directory. */
  predicate Enabled(s: State, c: Call) {
    match c
    case CallCreate(dp, _, kind) => Linked(s.fs, dp) && kind != Free
    case CallLink(ip) => 0 < ip < |s.fs| && s.fs[ip].kind != Free
    case CallLinkEnd(dp, _, ip) => Linked(s.fs, dp) && ip in s.pend
    case CallLinkUndo(ip) => ip in s.pend && 0 <= ip < |s.fs|
    case CallUnlink(dp, _) => IsDir(s.fs, dp)
    case CallPut(i) => 0 < i < |s.fs|
  }

  function Do(s: State, c: Call): State
    requires Enabled(s, c) && |s.fs| > 1
  {
    match c
    case CallCreate(dp, name, kind) =>
      (match Create(s.fs, dp, name, kind)
       case New(fs, _) => s.(fs := fs)
       case _ => s)
    case CallLink(ip) =>
      if s.fs[ip].kind == D then s
      else State(SetLinks(s.fs, ip, s.fs[ip].nlink + 1), s.pend + multiset{ip})
    case CallLinkEnd(dp, name, ip) =>
      if Present(s.fs[dp].ents, name) then
        if 0 <= ip < |s.fs| then State(SetLinks(s.fs, ip, s.fs[ip].nlink - 1), s.pend - multiset{ip}) else s
      else State(AddEntry(s.fs, dp, name, ip), s.pend - multiset{ip})
    case CallLinkUndo(ip) => State(SetLinks(s.fs, ip, s.fs[ip].nlink - 1), s.pend - multiset{ip})
    case CallUnlink(dp, name) =>
      (match Unlink(s.fs, dp, name)
       case Gone(fs, _) => s.(fs := fs)
       case _ => s)
    case CallPut(i) =>
      if s.fs[i].kind != Free && s.fs[i].nlink == 0 then s.(fs := Release(s.fs, i)) else s
  }

  lemma DirFacts(fs: Fs, pend: multiset<int>, d: int)
    requires Inv(fs, pend) && IsDir(fs, d)
    ensures 0 < d && 1 < |fs| && DirOk(fs[d], d) && Counted(fs, pend, d) && fs[d].nlink >= 0
  {
  }

  lemma LinkedFacts(fs: Fs, pend: multiset<int>, d: int, k: int)
    requires Inv(fs, pend) && Linked(fs, d) && 2 <= k < |fs[d].ents|
    ensures EntryOk(fs, d, k) && ReachesRoot(fs, d)
    ensures var i := fs[d].ents[k].inum; i != 0 ==> Counted(fs, pend, i)
  {
    assert EntryOk(fs, d, k);
  }

  lemma FoundBehindDots(x: Ino, d: int, name: string)
    requires DirOk(x, d) && x.nlink >= 0 && Cut(name) != "." && Cut(name) != ".." && Present(x.ents, name)
    ensures 2 <= Lookup(x.ents, name, 0) && x.nlink > 0
  {
  }

  /** In a good file system a name other than the dots is found behind them, its inode
      is in use and has a link, so unlink's panic cannot happen. */
  lemma LookupSound(fs: Fs, pend: multiset<int>, dp: int, name: string)
    requires Inv(fs, pend) && IsDir(fs, dp) && Cut(name) != "." && Cut(name) != ".." && Present(fs[dp].ents, name)
    ensures var k := Lookup(fs[dp].ents, name, 0);
            var ip := fs[dp].ents[k].inum;
            Linked(fs, dp) && 2 <= k && 0 < ip < |fs| && fs[ip].kind != Free && fs[ip].nlink >= 1 && ip != dp
  {
    hide Inv;
    var k := Lookup(fs[dp].ents, name, 0);
    DirFacts(fs, pend, dp);
    FoundBehindDots(fs[dp], dp, name);
    LinkedFacts(fs, pend, dp, k);
    NamedHasLink(fs, pend, dp, k, fs[dp].ents[k].inum);
    OnlyRootIsOwnParent(fs, dp);
  }

  lemma {:induction false} SelfParentStuck(fs: Fs, d: int, n: nat)
    requires Parent(fs, d) == d
    ensures Up(fs, d, n) == d
    decreases n
  {
    if n > 0 {
      SelfParentStuck(fs, d, n - 1);
    }
  }

  lemma OnlyRootIsOwnParent(fs: Fs, d: int)
    requires ReachesRoot(fs, d)
    ensures Parent(fs, d) == d ==> d == ROOT
  {
    var n: nat :| Up(fs, d, n) == ROOT;
    if Parent(fs, d) == d {
      SelfParentStuck(fs, d, n);
    }
  }

  lemma NamedHasLink(fs: Fs, pend: multiset<int>, d: int, k: int, i: int)
    requires IsRef(fs, i, d, k) && 0 < i < |fs| && Counted(fs, pend, i)
    ensures fs[i].kind != Free && fs[i].nlink >= 1
  {
    RefsIs(fs, i, d, k);
  }

  /** Every call keeps the invariant. */
  lemma CallKeepsInv(s: State, c: Call)
    requires Inv(s.fs, s.pend) && Enabled(s, c)
    ensures var r := Do(s, c); Inv(r.fs, r.pend)
  {
    hide Inv;
    match c
    case CallCreate(dp, name, kind) => CreateKeepsInv(s, dp, name, kind);
    case CallLink(ip) =>
      if s.fs[ip].kind != D {
        LinkBeginKeepsInv(s.fs, s.pend, ip);
      }
    case CallLinkEnd(dp, name, ip) => LinkEndCall(s, dp, name, ip);
    case CallLinkUndo(ip) => LinkUndoKeepsInv(s.fs, s.pend, ip);
    case CallUnlink(dp, name) => UnlinkKeepsInv(s, dp, name);
    case CallPut(i) =>
      if s.fs[i].kind != Free && s.fs[i].nlink == 0 {
        ReleaseKeepsInv(s.fs, s.pend, i);
      }
  }

  lemma CreateKeepsInv(s: State, dp: int, name: string, kind: Kind)
    requires Inv(s.fs, s.pend) && Enabled(s, CallCreate(dp, name, kind))
    ensures Inv(Do(s, CallCreate(dp, name, kind)).fs, s.pend)
  {
    hide Inv;
    DirFacts(s.fs, s.pend, dp);
    var c := Create(s.fs, dp, name, kind);
    if c.New? {
      DirFacts(s.fs, s.pend, dp);
      MakeKeepsInv(s.fs, s.pend, dp, name, kind, c.inum);
    }
  }

  lemma LinkEndCall(s: State, dp: int, name: string, ip: int)
    requires Inv(s.fs, s.pend) && Enabled(s, CallLinkEnd(dp, name, ip))
    ensures var r := Do(s, CallLinkEnd(dp, name, ip)); Inv(r.fs, r.pend)
  {
    hide Inv;
    PendingIsFile(s.fs, s.pend, ip);
    DirFacts(s.fs, s.pend, dp);
    if Present(s.fs[dp].ents, name) {
      LinkUndoKeepsInv(s.fs, s.pend, ip);
    } else {
      LinkEndKeepsInv(s.fs, s.pend, dp, name, ip);
    }
  }

  lemma UnlinkKeepsInv(s: State, dp: int, name: string)
    requires Inv(s.fs, s.pend) && IsDir(s.fs, dp)
    ensures !Unlink(s.fs, dp, name).NoLinks?
    ensures Inv(Do(s, CallUnlink(dp, name)).fs, s.pend)
  {
    hide Inv;
    if Cut(name) != "." && Cut(name) != ".." && Present(s.fs[dp].ents, name) {
      LookupSound(s.fs, s.pend, dp, name);
      var k := Lookup(s.fs[dp].ents, name, 0);
      var ip := s.fs[dp].ents[k].inum;
      if Unlink(s.fs, dp, name).Gone? {
        EraseKeepsInv(s.fs, s.pend, dp, k, ip);
      }
    }
  }

  ghost predicate Runs(s: State, cs: seq<Call>)
    decreases |cs|
  {
    cs == [] || (|s.fs| > 1 && Enabled(s, cs[0]) && Runs(Do(s, cs[0]), cs[1..]))
  }

  ghost function After(s: State, cs: seq<Call>): State
    requires Runs(s, cs)
    decreases |cs|
  {
    if cs == [] then s else After(Do(s, cs[0]), cs[1..])
  }

  lemma {:induction false} RunKeepsInv(s: State, cs: seq<Call>)
    requires Inv(s.fs, s.pend) && Runs(s, cs)
    ensures Inv(After(s, cs).fs, After(s, cs).pend)
    decreases |cs|
  {
    if cs != [] {
      CallKeepsInv(s, cs[0]);
      RunKeepsInv(Do(s, cs[0]), cs[1..]);
    }
  }

  /** Over every run from an empty file system: linked directories form a tree with
      unique parents, an inode in use has as many links as entries name it (plus links
      in progress), and no entry of a linked directory names a free inode. */
  lemma TreeAndCounts(n: nat, cs: seq<Call>)
    requires n > 1 && Runs(State(Empty(n), multiset{}), cs)
    ensures var s := After(State(Empty(n), multiset{}), cs);
            && Inv(s.fs, s.pend)
            && (forall i :: 0 < i < |s.fs| && s.fs[i].kind != Free ==> s.fs[i].nlink == |Refs(s.fs, i)| + s.pend[i])
            && (forall d, k :: Linked(s.fs, d) && 1 <= k < |s.fs[d].ents| && s.fs[d].ents[k].inum != 0 ==>
                  0 < s.fs[d].ents[k].inum < |s.fs| && s.fs[s.fs[d].ents[k].inum].kind != Free)
            && (forall d :: Linked(s.fs, d) ==> ReachesRoot(s.fs, d))
  {
    hide Inv, Refs, Runs, After;
    EmptyInv(n);
    RunKeepsInv(State(Empty(n), multiset{}), cs);
    InvMeans(After(State(Empty(n), multiset{}), cs).fs, After(State(Empty(n), multiset{}), cs).pend);
  }

  /** The invariant, said outright. */
  lemma InvMeans(fs: Fs, pend: multiset<int>)
    requires Inv(fs, pend)
    ensures forall i :: 0 < i < |fs| && fs[i].kind != Free ==> fs[i].nlink == |Refs(fs, i)| + pend[i]
    ensures forall d, k :: Linked(fs, d) && 1 <= k < |fs[d].ents| && fs[d].ents[k].inum != 0 ==>
              0 < fs[d].ents[k].inum < |fs| && fs[fs[d].ents[k].inum].kind != Free
    ensures forall d :: Linked(fs, d) ==> ReachesRoot(fs, d)
  {
    forall i | 0 < i < |fs| && fs[i].kind != Free ensures fs[i].nlink == |Refs(fs, i)| + pend[i] {
      assert Counted(fs, pend, i);
    }
    forall d, k | Linked(fs, d) && 1 <= k < |fs[d].ents| && fs[d].ents[k].inum != 0
      ensures 0 < fs[d].ents[k].inum < |fs| && fs[fs[d].ents[k].inum].kind != Free
    {
      EntryInUse(fs, pend, d, k);
    }
  }

  lemma EntryInUse(fs: Fs, pend: multiset<int>, d: int, k: int)
    requires Inv(fs, pend) && Linked(fs, d) && 1 <= k < |fs[d].ents| && fs[d].ents[k].inum != 0
    ensures 0 < fs[d].ents[k].inum < |fs| && fs[fs[d].ents[k].inum].kind != Free
  {
    assert Placed(fs, d);
    if k > 1 {
      assert EntryOk(fs, d, k);
    }
  }

  // ---------- why entries must go into linked directories ----------

  /** create in a directory keeps the invariant exactly when that directory is still
      linked: one removed while it is somebody's current directory breaks it. */
  lemma CreateNeedsLinked(fs: Fs, pend: multiset<int>, dp: int, name: string, kind: Kind, ip: int)
    requires Inv(fs, pend) && IsDir(fs, dp) && !Present(fs[dp].ents, name)
    requires 0 < ip < |fs| && fs[ip].kind == Free && kind != Free
    ensures Inv(Make(fs, dp, name, kind, ip), pend) <==> Linked(fs, dp)
  {
    assert DirOk(fs[dp], dp) && Counted(fs, pend, dp);
    if Linked(fs, dp) {
      MakeKeepsInv(fs, pend, dp, name, kind, ip);
    } else {
      DeadParentBreaks(fs, pend, dp, name, kind, ip);
    }
  }

  lemma DeadNotPlaced(fs: Fs, dp: int, name: string, ip: int, k: int)
    requires 0 < dp < |fs| && fs[dp].kind == D && fs[dp].nlink == 0 && Dots(fs[dp].ents, dp) && EmptyFrom(fs[dp].ents, 2)
    requires 0 < ip < |fs| && fs[ip].kind == Free && Unnamed(fs, dp)
    ensures var r := Make(fs, dp, name, D, ip);
            var p := Parent(r, dp);
            Linked(r, p) && 2 <= k < |r[p].ents| ==> r[p].ents[k].inum != dp
  {
    var p := Parent(Make(fs, dp, name, D, ip), dp);
    assert !IsRef(fs, dp, p, k);
  }

  lemma DeadFileUncounted(fs: Fs, pend: multiset<int>, dp: int, name: string, kind: Kind, ip: int)
    requires 0 < dp < |fs| && fs[dp].kind == D && fs[dp].nlink == 0 && kind != D
    requires 0 < ip < |fs| && fs[ip].kind == Free && kind != Free && Unnamed(fs, ip) && pend[ip] == 0
    ensures !Counted(Make(fs, dp, name, kind, ip), pend, ip)
  {
    var r := Make(fs, dp, name, kind, ip);
    forall d, k ensures !IsRef(r, ip, d, k) {
      assert !IsRef(fs, ip, d, k);
    }
    forall x ensures x !in Refs(r, ip) {
      RefsIs(r, ip, x.0, x.1);
    }
    assert Refs(r, ip) == {};
  }

  /** The entry of a file made in a removed directory is never counted; a directory
      made there revives a parent that nothing names. */
  lemma DeadParentBreaks(fs: Fs, pend: multiset<int>, dp: int, name: string, kind: Kind, ip: int)
    requires 0 < dp < |fs| && fs[dp].kind == D && fs[dp].nlink == 0 && DirOk(fs[dp], dp)
    requires 0 < ip < |fs| && fs[ip].kind == Free && kind != Free && dp != ROOT
    requires Counted(fs, pend, dp) && Counted(fs, pend, ip)
    ensures !Inv(Make(fs, dp, name, kind, ip), pend)
  {
    var r := Make(fs, dp, name, kind, ip);
    ReleaseUnnamed(fs, pend, dp);
    FreeUnnamed(fs, pend, ip);
    if kind != D {
      DeadFileUncounted(fs, pend, dp, name, kind, ip);
    } else {
      forall k ensures Linked(r, Parent(r, dp)) && 2 <= k < |r[Parent(r, dp)].ents| ==> r[Parent(r, dp)].ents[k].inum != dp {
        DeadNotPlaced(fs, dp, name, ip, k);
      }
      assert !Placed(r, dp);
    }
  }

  /** The second half of link keeps the invariant exactly when the directory is still
      linked: an entry in a removed one is a link nobody can find. */
  lemma LinkNeedsLinked(fs: Fs, pend: multiset<int>, dp: int, name: string, ip: int)
    requires Inv(fs, pend) && IsDir(fs, dp) && !Present(fs[dp].ents, name) && ip in pend
    ensures Inv(AddEntry(fs, dp, name, ip), pend - multiset{ip}) <==> Linked(fs, dp)
  {
    hide Inv;
    DirFacts(fs, pend, dp);
    PendingIsFile(fs, pend, ip);
    if Linked(fs, dp) {
      LinkEndKeepsInv(fs, pend, dp, name, ip);
    } else {
      InvCounts(fs, pend, ip);
      DeadEntryUncounted(fs, pend, dp, name, ip);
      InvCounts(AddEntry(fs, dp, name, ip), pend - multiset{ip}, ip);
    }
  }

  lemma InvCounts(fs: Fs, pend: multiset<int>, i: int)
    requires 0 < i < |fs|
    ensures Inv(fs, pend) ==> Counted(fs, pend, i)
  {
  }

  lemma DeadEntryUncounted(fs: Fs, pend: multiset<int>, dp: int, name: string, ip: int)
    requires 0 < dp < |fs| && !Linked(fs, dp) && fs[dp].kind == D && 0 < ip < |fs| && ip != dp
    requires ip in pend && fs[ip].kind != Free && Counted(fs, pend, ip)
    ensures !Counted(AddEntry(fs, dp, name, ip), pend - multiset{ip}, ip)
  {
    var r := AddEntry(fs, dp, name, ip);
    forall x ensures x in Refs(r, ip) <==> x in Refs(fs, ip) {
      RefsIs(r, ip, x.0, x.1);
      RefsIs(fs, ip, x.0, x.1);
    }
    assert Refs(r, ip) == Refs(fs, ip);
  }

  // ---------- runs into removed directories ----------

  lemma {:induction false} LookupIs(ents: seq<Entry>, name: string, k: nat, r: nat)
    requires k <= r <= |ents| && (r < |ents| ==> ents[r].inum != 0 && ents[r].name == Cut(name))
    requires forall i :: k <= i < r ==> ents[i].inum == 0 || ents[i].name != Cut(name)
    ensures Lookup(ents, name, k) == r
    decreases r - k
  {
    if k < r {
      LookupIs(ents, name, k + 1, r);
    }
  }

  lemma {:induction false} FreeSlotIs(ents: seq<Entry>, k: nat, r: nat)
    requires k <= r <= |ents| && (r < |ents| ==> ents[r].inum == 0) && forall i :: k <= i < r ==> ents[i].inum != 0
    ensures FreeSlot(ents, k) == r
    decreases r - k
  {
    if k < r {
      FreeSlotIs(ents, k + 1, r);
    }
  }

  lemma {:induction false} FirstFreeIs(fs: Fs, k: nat, r: nat)
    requires k <= r <= |fs| && (r < |fs| ==> fs[r].kind == Free) && forall i :: k <= i < r ==> fs[i].kind != Free
    ensures FirstFree(fs, k) == r
    decreases r - k
  {
    if k < r {
      FirstFreeIs(fs, k + 1, r);
    }
  }

  /** The first three steps of the run, as file systems: directory "a" (inode 2) in the
      root, "b" (inode 3) in it, and "b" removed again. */
  function WithA(n: nat): Fs
    requires n > 3
  {
    Empty(n)[2 := Ino(D, 1, [Entry(2, "."), Entry(1, "..")])][1 := Ino(D, 2, [Entry(1, "."), Entry(1, ".."), Entry(2, "a")])]
  }

  function WithB(n: nat): Fs
    requires n > 3
  {
    WithA(n)[3 := Ino(D, 1, [Entry(3, "."), Entry(2, "..")])][2 := Ino(D, 2, [Entry(2, "."), Entry(1, ".."), Entry(3, "b")])]
  }

  function WithoutB(n: nat): Fs
    requires n > 3
  {
    WithB(n)[2 := Ino(D, 1, [Entry(2, "."), Entry(1, ".."), Entry(0, "")])][3 := Ino(D, 0, [Entry(3, "."), Entry(2, "..")])]
  }

  function WithoutA(n: nat): Fs
    requires n > 3
  {
    WithoutB(n)[1 := Ino(D, 1, [Entry(1, "."), Entry(1, ".."), Entry(0, "")])][2 := Ino(D, 0, [Entry(2, "."), Entry(1, ".."), Entry(0, "")])]
  }

  lemma MakesA(n: nat)
    requires n > 3
    ensures Create(Empty(n), 1, "a", D) == New(WithA(n), 2)
  {
    var fs := Empty(n);
    LookupIs(fs[1].ents, "a", 0, 2);
    FreeSlotIs(fs[1].ents, 0, 2);
    FirstFreeIs(fs, 1, 2);
    assert Cut("a") == "a";
    assert Added(fs[1].ents, "a", 2) == [Entry(1, "."), Entry(1, ".."), Entry(2, "a")];
    assert Make(fs, 1, "a", D, 2) == WithA(n);
  }

  lemma MakesB(n: nat)
    requires n > 3
    ensures Create(WithA(n), 2, "b", D) == New(WithB(n), 3)
  {
    var fs := WithA(n);
    LookupIs(fs[2].ents, "b", 0, 2);
    FreeSlotIs(fs[2].ents, 0, 2);
    FirstFreeIs(fs, 1, 3);
    assert Cut("b") == "b";
    assert Added(fs[2].ents, "b", 3) == [Entry(2, "."), Entry(1, ".."), Entry(3, "b")];
    assert Make(fs, 2, "b", D, 3) == WithB(n);
  }

  lemma RemovesB(n: nat)
    requires n > 3
    ensures Unlink(WithB(n), 2, "b") == Gone(WithoutB(n), 3)
  {
    var fs := WithB(n);
    LookupIs(fs[2].ents, "b", 0, 2);
    assert fs[2].ents[2 := Entry(0, "")] == [Entry(2, "."), Entry(1, ".."), Entry(0, "")];
    assert Erase(fs, 2, 2, 3) == WithoutB(n);
  }

  lemma RemovesA(n: nat)
    requires n > 3
    ensures Unlink(WithoutB(n), 1, "a") == Gone(WithoutA(n), 2)
  {
    var fs := WithoutB(n);
    LookupIs(fs[1].ents, "a", 0, 2);
    assert fs[1].ents[2 := Entry(0, "")] == [Entry(1, "."), Entry(1, ".."), Entry(0, "")];
    assert Erase(fs, 1, 2, 2) == WithoutA(n);
  }

  lemma {:induction false} RunAppend(s: State, cs: seq<Call>, c: Call)
    requires Runs(s, cs) && |After(s, cs).fs| > 1 && Enabled(After(s, cs), c)
    ensures Runs(s, cs + [c]) && After(s, cs + [c]) == Do(After(s, cs), c)
    decreases |cs|
  {
    hide Do, Enabled;
    if cs == [] {
      assert cs + [c] == [c] && [c][1..] == [];
      assert Runs(Do(s, c), []);
    } else {
      RunAppend(Do(s, cs[0]), cs[1..], c);
      assert (cs + [c])[1..] == cs[1..] + [c];
    }
  }

  /** A removed directory that is still in use is reachable: make "a" and "a/b", then
      remove "a/b" while it is somebody's current directory. */
  lemma RemovedInUse(n: nat) returns (cs: seq<Call>)
    requires n > 3
    ensures Runs(State(Empty(n), multiset{}), cs) && After(State(Empty(n), multiset{}), cs) == State(WithoutB(n), multiset{})
    ensures IsDir(WithoutB(n), 3) && !Linked(WithoutB(n), 3)
  {
    hide Create, Unlink, Empty, Runs, After;
    var s := State(Empty(n), multiset{});
    MakesA(n);
    MakesB(n);
    RemovesB(n);
    StartLinked(n);
    NothingRun(s);
    RunAppend(s, [], CallCreate(1, "a", D));
    RunAppend(s, [] + [CallCreate(1, "a", D)], CallCreate(2, "b", D));
    RunAppend(s, [] + [CallCreate(1, "a", D)] + [CallCreate(2, "b", D)], CallUnlink(2, "b"));
    cs := [] + [CallCreate(1, "a", D)] + [CallCreate(2, "b", D)] + [CallUnlink(2, "b")];
  }

  lemma StartLinked(n: nat)
    requires n > 3
    ensures |Empty(n)| == n && Linked(Empty(n), 1)
  {
  }

  lemma NothingRun(s: State)
    ensures Runs(s, []) && After(s, []) == s
  {
  }

  /** And when its parent is removed and put as well, its ".." names a free inode, which
      looking up ".." there hands to iget. */
  lemma DotDotNamesFree(n: nat) returns (cs: seq<Call>)
    requires n > 3
    ensures Runs(State(Empty(n), multiset{}), cs)
    ensures var fs := After(State(Empty(n), multiset{}), cs).fs;
            IsDir(fs, 3) && Parent(fs, 3) == 2 && fs[2].kind == Free
  {
    hide Create, Unlink, Empty, Runs, After;
    var s := State(Empty(n), multiset{});
    cs := RemovedInUse(n);
    RemovesA(n);
    StartLinked(n);
    RunAppend(s, cs, CallUnlink(1, "a"));
    cs := cs + [CallUnlink(1, "a")];
    RunAppend(s, cs, CallPut(2));
    cs := cs + [CallPut(2)];
  }
}
