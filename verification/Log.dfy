/** log.c itself: the in-memory header, the dirty buffers pinned in the cache, and
    the loops that copy, install and recover.  Every method is tied to the write
    lists of LogSpec and to the shared-state steps of LogOps. */
module Log {
  import opened Params
  import opened Seqs
  import opened Blocks
  import opened LogSpec
  import LogOps

  function Cached(cache: map<int, Block>, d: Disk, b: int): Block
    requires 0 <= b < |d|
  {
    if b in cache then cache[b] else d[b]
  }

  function Members(h: seq<int>): (s: set<int>) {
    set b | b in h
  }

  /** The contents the cache holds for each block of a list. */
  function CachedList(cache: map<int, Block>, d: Disk, h: seq<int>): (vals: seq<Block>)
    requires forall i :: 0 <= i < |h| ==> 0 <= h[i] < |d|
    ensures |vals| == |h|
  {
    seq(|h|, i requires 0 <= i < |h| => Cached(cache, d, h[i]))
  }

  function Seen(cache: map<int, Block>, d: Disk): (v: Disk)
    ensures |v| == |d|
  {
    seq(|d|, b requires 0 <= b < |d| => Cached(cache, d, b))
  }

  /** The list in memory is good, and the buffers pinned dirty are those it lists. */
  ghost predicate Pinned(l: Layout, disksize: nat, h: seq<int>, cache: map<int, Block>) {
    GoodList(l, disksize, h) && cache.Keys == Members(h)
  }

  /** Listing a home block while there is room keeps the list good. */
  lemma ListGrows(l: Layout, disksize: nat, h: seq<int>, b: int, cache: map<int, Block>, data: Block)
    requires Pinned(l, disksize, h, cache) && |h| < LOGSIZE && |h| < l.size - 1
    requires 0 <= b < disksize && Home(l, b)
    ensures Pinned(l, disksize, if b in h then h else h + [b], cache[b := data])
  {
    if b !in h {
      assert Members(h + [b]) == Members(h) + {b};
    }
  }

  lemma SeenUpdate(cache: map<int, Block>, d: Disk, b: int, data: Block)
    requires 0 <= b < |d|
    ensures Seen(cache[b := data], d) == Seen(cache, d)[b := data]
  {
  }

  /** One iteration of the copy loop, on values. */
  lemma CopyStep(l: Layout, d: Disk, cache: map<int, Block>, h: seq<int>, tail: nat)
    requires GoodList(l, |d|, h) && tail < |h|
    ensures var vals := CachedList(cache, d, h);
            var ws := CopyWrites(l, vals);
            && InRange(d, ws)
            && var now := Apply(d, ws[..tail]);
            && Cached(cache, now, h[tail]) == vals[tail]
            && Apply(d, ws[..tail+1]) == now[l.start+1+tail := vals[tail]]
            && ws[tail] == Write(l.start+1+tail, vals[tail])
  {
    hide Apply;
    var vals := CachedList(cache, d, h);
    CopyPrefix(l, d, vals, tail);
    var ws := CopyWrites(l, vals);
    ApplyPrefixStep(d, ws, tail);
  }

  lemma CopyBegins(l: Layout, d: Disk, vals: seq<Block>)
    requires |vals| < l.size && l.start + l.size <= |d|
    ensures InRange(d, CopyWrites(l, vals)) && Apply(d, CopyWrites(l, vals)[..0]) == d && |CopyWrites(l, vals)| == |vals|
  {
    CopyPrefix(l, d, vals, 0);
  }

  lemma InstalledPrefix(d: Disk, h: seq<int>, vals: seq<Block>, tail: nat)
    requires Listed(h, vals, d) && tail <= |h|
    ensures InRange(d, HomeWrites(h, vals))
    ensures Apply(d, HomeWrites(h, vals)[..tail]) == Installed(d, h[..tail], vals[..tail])
  {
    assert HomeWrites(h[..tail], vals[..tail]) == HomeWrites(h, vals)[..tail];
  }

  /** One iteration of the install loop, on values: the copy it reads is still the
      one that was logged. */
  lemma InstallReads(l: Layout, d: Disk, h: seq<int>, tail: nat)
    requires GoodList(l, |d|, h) && tail < |h|
    ensures var vals := Copies(l, d, |h|);
            && InRange(d, HomeWrites(h, vals))
            && Apply(d, HomeWrites(h, vals)[..tail])[l.start+tail+1] == vals[tail]
  {
    hide Apply, Installed, HomeWrites, Copies;
    var vals := Copies(l, d, |h|);
    InstalledPrefix(d, h, vals, tail);
    InstalledAt(d, h[..tail], vals[..tail]);
    CopyAt(l, d, |h|, tail);
  }

  lemma CopyAt(l: Layout, d: Disk, n: nat, k: nat)
    requires l.start + n < |d| && k < n
    ensures Copies(l, d, n)[k] == d[l.start+k+1]
  {
  }

  lemma InstallStep(d: Disk, h: seq<int>, vals: seq<Block>, tail: nat)
    requires Listed(h, vals, d) && tail < |h|
    ensures var ws := HomeWrites(h, vals);
            && InRange(d, ws) && ws[tail] == Write(h[tail], vals[tail])
            && Apply(d, ws[..tail+1]) == Apply(d, ws[..tail])[h[tail] := vals[tail]]
  {
    hide Apply;
    ApplyPrefixStep(d, HomeWrites(h, vals), tail);
  }

  lemma InstallBegins(l: Layout, d: Disk, h: seq<int>)
    requires GoodList(l, |d|, h)
    ensures var ws := HomeWrites(h, Copies(l, d, |h|));
            && InRange(d, ws) && Apply(d, ws[..0]) == d
            && Installed(d, h, Copies(l, d, |h|)) == Apply(d, ws)
    ensures Members(h[..0]) == {}
    ensures Installed(d, h, Copies(l, d, |h|))[l.start] == d[l.start]
  {
    InstalledAt(d, h, Copies(l, d, |h|));
    assert l.start !in h;
  }

  lemma CachedShrinks(cache: map<int, Block>, h: seq<int>, tail: nat)
    requires tail < |h|
    ensures (cache - Members(h[..tail])) - {h[tail]} == cache - Members(h[..tail+1])
  {
    assert h[..tail+1] == h[..tail] + [h[tail]];
  }

  class Log {
    const layout: Layout
    var disk: Disk
    var cache: map<int, Block>     // buffers marked B_DIRTY by log_write, not yet committed
    var n: int                     // lh.n
    const block: array<int>        // lh.block
    var outstanding: int
    var committing: bool
    ghost var trace: seq<Write>    // every bwrite so far

    ghost predicate Shape()
      reads this
    {
      && block.Length == LOGSIZE && 0 <= n <= LOGSIZE
      && 0 < layout.size && layout.start + layout.size <= |disk|
      && Whole(disk[layout.start])
      && (forall b :: b in cache ==> 0 <= b < |disk| && Home(layout, b))
    }

    /** Between commits: the log on disk is empty, the list in memory is good and
        every listed block is pinned in the cache. */
    ghost predicate Valid()
      reads this, block
    {
      Shape() && Quiet(layout, disk) && Pinned(layout, |disk|, block[..n], cache)
    }

    ghost function State(): LogOps.LogState
      reads this, block
      requires 0 <= n <= block.Length
    {
      LogOps.LogState(block[..n], outstanding, committing)
    }

    /** What a reader of block b sees through the buffer cache. */
    function Bread(b: int): (data: Block)
      reads this
      requires 0 <= b < |disk|
    {
      Cached(cache, disk, b)
    }

    /** The disk as its clients see it. */
    ghost function View(): (d: Disk)
      reads this
    {
      Seen(cache, disk)
    }

    constructor (d: Disk, l: Layout)
      requires Bootable(l, d)
      ensures Shape() && disk == d && layout == l && cache == map[] && trace == []
      ensures n == 0 && outstanding == 0 && !committing && fresh(block)
    {
      layout := l;
      disk := d;
      cache := map[];
      n := 0;
      block := new int[LOGSIZE];
      outstanding := 0;
      committing := false;
      trace := [];
    }

    method Bwrite(b: int, data: Block)
      requires 0 <= b < |disk|
      modifies this`disk, this`cache, this`trace
      ensures disk == old(disk)[b := data]
      ensures cache == old(cache) - {b}
      ensures trace == old(trace) + [Write(b, data)]
    {
      disk := disk[b := data];
      cache := cache - {b};
      trace := trace + [Write(b, data)];
    }

    /** Copy every logged block from the log region to its home location. */
    method InstallTrans()
      requires Shape() && GoodList(layout, |disk|, block[..n])
      modifies this`disk, this`cache, this`trace
      ensures disk == Installed(old(disk), block[..n], Copies(layout, old(disk), n))
      ensures trace == old(trace) + HomeWrites(block[..n], Copies(layout, old(disk), n))
      ensures cache == old(cache) - Members(block[..n])
      ensures Shape()
    {
      hide HomeWrites, Copies, Apply, Installed, Members;
      ghost var h := block[..n];
      ghost var ws := HomeWrites(h, Copies(layout, disk, n));
      InstallBegins(layout, old(disk), h);
      for tail := 0 to n
        invariant h == block[..n] && InRange(old(disk), ws)
        invariant disk == Apply(old(disk), ws[..tail])
        invariant trace == old(trace) + ws[..tail]
        invariant cache == old(cache) - Members(h[..tail]) && |disk| == |old(disk)|
      {
        InstallReads(layout, old(disk), h, tail);
        InstallStep(old(disk), h, Copies(layout, old(disk), n), tail);
        CachedShrinks(old(cache), h, tail);
        assert block[tail] == h[tail];
        var lbuf := Bread(layout.start + tail + 1);
        Bwrite(block[tail], lbuf);
        PrefixSnoc(ws, tail);
      }
      assert ws[..n] == ws && h[..n] == h;
    }

    /** Read the header block from disk into memory. */
    method ReadHeader()
      requires block.Length == LOGSIZE && layout.start < |disk| && HeadOk(disk[layout.start])
      modifies this`n, block
      ensures 0 <= n <= LOGSIZE && block[..n] == ReadHead(disk[layout.start])
    {
      var buf := disk[layout.start];
      n := Word(buf, 0);
      for i := 0 to n
        invariant n == Word(buf, 0)
        invariant forall k :: 0 <= k < i ==> block[k] == ReadHead(buf)[k]
      {
        block[i] := Word(buf, i + 1);
      }
    }

    /** Write the in-memory header to disk: the point where a transaction commits. */
    method WriteHeader()
      requires Shape() && Numbers(block[..n])
      modifies this`disk, this`cache, this`trace
      ensures disk == old(disk)[layout.start := WriteHead(old(disk)[layout.start], block[..n])]
      ensures trace == old(trace) + [Write(layout.start, WriteHead(old(disk)[layout.start], block[..n]))]
      ensures cache == old(cache) && Shape()
    {
      hide WriteHead, ReadHead, HeadOk;
      var hb := FillHead();
      Bwrite(layout.start, hb);
    }

    /** The header block with the list in memory. */
    method FillHead() returns (hb: Block)
      requires 0 <= n <= LOGSIZE == block.Length && layout.start < |disk| && Whole(disk[layout.start]) && Numbers(block[..n])
      ensures hb == WriteHead(disk[layout.start], block[..n])
    {
      hide Word, SetWord;
      hb := SetWord(disk[layout.start], 0, n);
      for i := 0 to n
        invariant Whole(hb) && hb == SetWords(SetWord(disk[layout.start], 0, n), 1, block[..i])
      {
        hb := SetWord(hb, i + 1, block[i]);
        assert block[..i+1][..i] == block[..i];
      }
    }

    /** Install the listed blocks and erase the transaction from the log. */
    method InstallAndErase()
      requires Shape() && GoodList(layout, |disk|, block[..n])
      modifies this`disk, this`cache, this`trace, this`n
      ensures var h := old(block[..n]);
              var vals := Copies(layout, old(disk), |h|);
              var head := WriteHead(old(disk)[layout.start], []);
              && disk == Installed(old(disk), h, vals)[layout.start := head]
              && trace == old(trace) + HomeWrites(h, vals) + [Write(layout.start, head)]
              && cache == old(cache) - Members(h)
      ensures Shape() && n == 0
    {
      ghost var d, h := disk, block[..n];
      InstallTrans();
      InstalledAt(d, h, Copies(layout, d, |h|));
      assert layout.start !in h;
      n := 0;
      assert block[..n] == [];
      WriteHeader();
    }

    /** Boot: replay a committed transaction, if there is one, and clear the log. */
    method RecoverFromLog()
      requires Shape() && Bootable(layout, disk) && cache == map[]
      modifies this`disk, this`cache, this`trace, this`n, block
      ensures trace == old(trace) + RecoverWrites(layout, old(disk))
      ensures disk == Apply(old(disk), RecoverWrites(layout, old(disk)))
      ensures Valid() && n == 0
    {
      hide HomeWrites, Copies, Installed, Quiet, Pinned, GoodList, Bootable, RecoverWrites, Apply, WriteHead;
      RecoverAsInstall(layout, disk);
      ReadHeader();
      InstallAndErase();
      assert block[..n] == [];
    }

    method CopyToLog(tail: int)
      requires Shape() && 0 <= tail < n < layout.size && 0 <= block[tail] < |disk|
      modifies this`disk, this`cache, this`trace
      ensures disk == old(disk)[layout.start+1+tail := Cached(cache, old(disk), block[tail])]
      ensures trace == old(trace) + [Write(layout.start+1+tail, Cached(cache, old(disk), block[tail]))]
      ensures cache == old(cache) && Shape()
    {
      var from := Bread(block[tail]);
      Bwrite(layout.start + tail + 1, from);
    }

    /** Copy the modified blocks from the cache to the log region. */
    method WriteLog()
      requires Shape() && GoodList(layout, |disk|, block[..n])
      modifies this`disk, this`cache, this`trace
      ensures disk == Apply(old(disk), CopyWrites(layout, CachedList(old(cache), old(disk), old(block[..n]))))
      ensures trace == old(trace) + CopyWrites(layout, CachedList(old(cache), old(disk), old(block[..n])))
      ensures cache == old(cache) && Shape()
    {
      hide CachedList, CopyWrites, Apply;
      ghost var h := block[..n];
      ghost var vals := CachedList(cache, disk, h);
      ghost var ws := CopyWrites(layout, vals);
      CopyBegins(layout, disk, vals);
      for tail := 0 to n
        invariant InRange(old(disk), ws) && cache == old(cache) && Shape()
        invariant disk == Apply(old(disk), ws[..tail])
        invariant trace == old(trace) + ws[..tail]
      {
        CopyStep(layout, old(disk), cache, h, tail);
        PrefixSnoc(ws, tail);
        assert h[tail] == block[tail];
        CopyToLog(tail);
      }
      assert ws[..n] == ws;
    }

    /** The commit proper: the copies, then the header. */
    method WriteTransaction()
      requires Valid()
      modifies this`disk, this`cache, this`trace
      ensures var vals := CachedList(old(cache), old(disk), block[..n]);
              && disk == CommitPoint(layout, old(disk), block[..n], vals)
              && trace == old(trace) + CopyWrites(layout, vals)
                          + [Write(layout.start, WriteHead(old(disk)[layout.start], block[..n]))]
      ensures cache == old(cache) && Shape()
    {
      ghost var d := disk;
      WriteLog();
      CommitPointReached(layout, d, block[..n], CachedList(cache, d, block[..n]));
      WriteHeader();
    }

    /** Write the transaction: copies, header, install, erase.  The disk writes are
        exactly CommitWrites, so CommitIsAtomic describes a crash at any point of it,
        and what readers see does not change. */
    method Commit()
      requires Valid()
      modifies this`disk, this`cache, this`trace, this`n
      ensures Valid() && n == 0 && cache == map[]
      ensures trace == old(trace) + CommitWrites(layout, old(disk), old(block[..n]), CachedList(old(cache), old(disk), old(block[..n])))
      ensures InRange(old(disk), CommitWrites(layout, old(disk), old(block[..n]), CachedList(old(cache), old(disk), old(block[..n]))))
      ensures disk == Apply(old(disk), CommitWrites(layout, old(disk), old(block[..n]), CachedList(old(cache), old(disk), old(block[..n]))))
      ensures HomeEqual(layout, View(), old(View()))
    {
      hide Quiet, RecoversTo, Installed, CopyWrites, HomeWrites, CachedList, CommitPoint, Seen, WriteHead, ReadHead, Word;
      QuietHead(layout, disk);
      ghost var d, h := disk, block[..n];
      ghost var vals := CachedList(cache, d, h);
      CommitInRange(layout, d, h, vals);
      if n > 0 {
        ghost var t := trace;
        WriteTransaction();
        CommitPointReached(layout, d, h, vals);
        InstallAndErase();
        CommitDisk(layout, d, h, vals);
        AppendFour(t, CopyWrites(layout, vals), [Write(layout.start, WriteHead(d[layout.start], h))],
                   HomeWrites(h, vals), [Write(layout.start, WriteHead(WriteHead(d[layout.start], h), []))]);
        SeenUnchanged(layout, d, h, old(cache), disk);
      }
    }

    // ---------- the calls system calls make ----------

    /** One pass through begin_op's loop. */
    method BeginOp() returns (entered: bool)
      requires 0 <= n <= block.Length
      modifies this`outstanding
      ensures match LogOps.BeginOp(old(State()))
              case Entered(l) => entered && State() == l
              case MustSleep => !entered && State() == old(State())
    {
      if committing {
        return false;
      } else if n + (outstanding + 1) * MAXOPBLOCKS > LOGSIZE {
        return false;
      }
      outstanding := outstanding + 1;
      return true;
    }

    /** The first critical section of end_op; `lastOut` says commit() must follow. */
    method EndOp() returns (panicked: bool, lastOut: bool)
      requires 0 <= n <= block.Length
      modifies this`outstanding, this`committing
      ensures match LogOps.EndOp(old(State()))
              case EndPanic => panicked
              case LastOut(l) => !panicked && lastOut && State() == l
              case StillBusy(l) => !panicked && !lastOut && State() == l
    {
      outstanding := outstanding - 1;
      panicked, lastOut := committing, false;
      if panicked {
        return;
      }
      if outstanding == 0 {
        lastOut := true;
        committing := true;
      }
    }

    /** Find the slot that lists block b, or append one. */
    method Record(b: int)
      requires 0 <= n < block.Length
      modifies this`n, block
      ensures 0 <= n <= block.Length
      ensures block[..n] == if b in old(block[..n]) then old(block[..n]) else old(block[..n]) + [b]
    {
      ghost var h := block[..n];
      var i := 0;
      while i < n && block[i] != b
        invariant 0 <= i <= n
        invariant forall k :: 0 <= k < i ==> block[k] != b
      {
        i := i + 1;
      }
      block[i] := b;
      if i == n {
        n := n + 1;
      } else {
        assert h[i] == b;
      }
    }

    /** Record block b, whose buffer now holds `data`, in the transaction. */
    method LogWrite(b: int, data: Block) returns (panicked: bool)
      requires Valid() && 0 <= b < |disk| && Home(layout, b)
      modifies this`n, this`cache, block
      ensures panicked <==> LogOps.LogWrite(old(State()), layout.size, b).Panic?
      ensures panicked ==> Valid() && State() == old(State()) && View() == old(View())
      ensures !panicked ==> Valid() && State() == LogOps.LogWrite(old(State()), layout.size, b).log
      ensures !panicked ==> View() == old(View())[b := data]
    {
      hide Pinned, Seen, Quiet;
      if n >= LOGSIZE || n >= layout.size - 1 {
        return true;
      }
      if outstanding < 1 {
        return true;
      }
      ListGrows(layout, |disk|, block[..n], b, cache, data);
      SeenUpdate(cache, disk, b, data);
      Record(b);
      cache := cache[b := data];
      return false;
    }
  }

  /** Recovery is one installation of what the header lists, and leaves the log quiet. */
  lemma RecoverAsInstall(l: Layout, d: Disk)
    requires Bootable(l, d)
    ensures var h := ReadHead(d[l.start]);
            var vals := Copies(l, d, |h|);
            var head := WriteHead(d[l.start], []);
            && RecoverWrites(l, d) == HomeWrites(h, vals) + [Write(l.start, head)]
            && Apply(d, RecoverWrites(l, d)) == Installed(d, h, vals)[l.start := head]
    ensures GoodList(l, |d|, ReadHead(d[l.start])) && HeadOk(d[l.start])
    ensures Quiet(l, Apply(d, RecoverWrites(l, d))) && Pinned(l, |d|, [], map[])
  {
    var ws := RecoverWrites(l, d);
    var goal := GoalExists(l, d);
    RecoverPrefix(l, d, goal, |ws|);
    assert ws[..|ws|] == ws;
    var h := ReadHead(d[l.start]);
    assert ws[..|ws|-1] == HomeWrites(h, Copies(l, d, |h|));
  }

  lemma CommitPointReached(l: Layout, d: Disk, h: seq<int>, vals: seq<Block>)
    requires Quiet(l, d) && GoodList(l, |d|, h) && |vals| == |h|
    ensures InRange(d, CopyWrites(l, vals))
    ensures var a := Apply(d, CopyWrites(l, vals));
            var c := CommitPoint(l, d, h, vals);
            && a[l.start] == d[l.start]
            && Copies(l, c, |h|) == vals
            && Installed(c, h, vals)[l.start] == c[l.start] == WriteHead(d[l.start], h)
  {
    hide Apply, CopyWrites, CommitPoint, Installed, Copies, WriteHead, ReadHead, Word, Quiet;
    QuietHead(l, d);
    CopyLeavesHead(l, d, vals);
    AtCommitPoint(l, d, h, vals);
    InstalledAt(CommitPoint(l, d, h, vals), h, vals);
    assert l.start !in h;
  }

  lemma CopyLeavesHead(l: Layout, d: Disk, vals: seq<Block>)
    requires |vals| < l.size && l.start + l.size <= |d|
    ensures InRange(d, CopyWrites(l, vals)) && Apply(d, CopyWrites(l, vals))[l.start] == d[l.start]
  {
    hide Apply;
    CopyPrefix(l, d, vals, |vals|);
    assert CopyWrites(l, vals)[..|vals|] == CopyWrites(l, vals);
  }

  /** The disk after the last write of a commit. */
  lemma CommitDisk(l: Layout, d: Disk, h: seq<int>, vals: seq<Block>)
    requires Quiet(l, d) && GoodList(l, |d|, h) && |vals| == |h| && h != []
    ensures InRange(d, CommitWrites(l, d, h, vals))
    ensures var c := CommitPoint(l, d, h, vals);
            var r := Installed(c, h, vals)[l.start := WriteHead(WriteHead(d[l.start], h), [])];
            && r == Apply(d, CommitWrites(l, d, h, vals))
            && Quiet(l, r) && RecoversTo(l, r, Installed(d, h, vals))
  {
    CommitInRange(l, d, h, vals);
    var copy, home := CopyWrites(l, vals), HomeWrites(h, vals);
    var head := WriteHead(d[l.start], h);
    var ws := CommitWrites(l, d, h, vals);
    CopyPrefix(l, d, vals, |h|);
    var a := copy + [Write(l.start, head)];
    assert a[..|a|-1] == copy;
    ApplyConcat(d, a, home);
    assert ws[..|ws|-1] == a + home;
    AfterCommitPoint(l, d, h, vals, |ws|);
    assert ws[..|ws|] == ws;
  }

  /** Readers of home blocks saw the new contents before the commit and see them after. */
  lemma SeenUnchanged(l: Layout, d: Disk, h: seq<int>, cache: map<int, Block>, r: Disk)
    requires GoodList(l, |d|, h) && cache.Keys == Members(h)
    requires Quiet(l, r) && RecoversTo(l, r, Installed(d, h, CachedList(cache, d, h)))
    ensures HomeEqual(l, Seen(map[], r), Seen(cache, d))
  {
    var vals := CachedList(cache, d, h);
    InstalledAt(d, h, vals);
    forall b | 0 <= b < |d| && Home(l, b) ensures r[b] == Cached(cache, d, b) {
      if b in h {
        var i :| 0 <= i < |h| && h[i] == b;
        assert r[h[i]] == vals[i];
      }
    }
  }
}
