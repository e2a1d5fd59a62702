/** The redo log as a list of single-block writes, and what a crash between any
    two of them leaves behind.

    A disk is a sequence of blocks.  Each `bwrite` is one atomic block write, so a
    crash is a cut in a list of writes.  `RecoversTo` is the crash invariant: it
    says which disk recovery will produce from the current one. */
module LogSpec {
  import opened Params
  import opened Seqs
  import opened Blocks

  type Disk = seq<Block>

  datatype Write = Write(blockno: int, data: Block)

  /** Where the log lives: header at `start`, copies at `start+1 ..`, `size` blocks in all. */
  datatype Layout = Layout(start: nat, size: nat)

  predicate Home(l: Layout, b: int) {
    0 <= b && !(l.start <= b < l.start + l.size)
  }

  // ---------- block writes ----------

  predicate InRange(d: Disk, ws: seq<Write>) {
    forall i :: 0 <= i < |ws| ==> 0 <= ws[i].blockno < |d|
  }

  function Apply(d: Disk, ws: seq<Write>): (r: Disk)
    requires InRange(d, ws)
    ensures |r| == |d|
  {
    if ws == [] then d
    else
      var w := ws[|ws|-1];
      Apply(d, ws[..|ws|-1])[w.blockno := w.data]
  }

  lemma {:induction false} ApplyConcat(d: Disk, a: seq<Write>, b: seq<Write>)
    requires InRange(d, a) && InRange(d, b)
    ensures InRange(d, a + b)
    ensures Apply(d, a + b) == Apply(Apply(d, a), b)
    decreases |b|
  {
    if b == [] {
      assert a + b == a;
    } else {
      ApplyConcat(d, a, b[..|b|-1]);
      assert (a + b)[..|a + b|-1] == a + b[..|b|-1];
    }
  }

  lemma ApplyPrefixStep(d: Disk, ws: seq<Write>, k: nat)
    requires InRange(d, ws) && k < |ws|
    ensures Apply(d, ws[..k+1]) == Apply(d, ws[..k])[ws[k].blockno := ws[k].data]
  {
    assert ws[..k+1][..k] == ws[..k];
  }

  lemma ApplySnoc(d: Disk, ws: seq<Write>, w: Write)
    requires InRange(d, ws) && 0 <= w.blockno < |d|
    ensures InRange(d, ws + [w]) && Apply(d, ws + [w]) == Apply(d, ws)[w.blockno := w.data]
  {
    SnocPrefix(ws, w);
  }

  /** A cut in the second of two lists of writes. */
  lemma CutInSecond(d: Disk, a: seq<Write>, b: seq<Write>, k: nat)
    requires InRange(d, a) && InRange(d, b) && |a| <= k <= |a| + |b|
    ensures InRange(d, a + b) && Apply(d, (a + b)[..k]) == Apply(Apply(d, a), b[..k-|a|])
  {
    PrefixOfRight(a, b, k);
    ApplyConcat(d, a, b[..k-|a|]);
  }

  // ---------- installing a list of blocks ----------

  function HomeWrites(h: seq<int>, vals: seq<Block>): (ws: seq<Write>)
    requires |vals| == |h|
    ensures |ws| == |h|
  {
    seq(|h|, i requires 0 <= i < |h| => Write(h[i], vals[i]))
  }

  predicate Listed(h: seq<int>, vals: seq<Block>, d: Disk) {
    |vals| == |h| && forall i :: 0 <= i < |h| ==> 0 <= h[i] < |d|
  }

  /** What a disk holds in the blocks of a list. */
  function Pick(d: Disk, h: seq<int>): (vals: seq<Block>)
    requires forall i :: 0 <= i < |h| ==> 0 <= h[i] < |d|
    ensures |vals| == |h| && forall i :: 0 <= i < |h| ==> vals[i] == d[h[i]]
  {
    seq(|h|, i requires 0 <= i < |h| => d[h[i]])
  }

  /** `d` with block h[i] replaced by vals[i], for every i. */
  function Installed(d: Disk, h: seq<int>, vals: seq<Block>): (r: Disk)
    requires Listed(h, vals, d)
    ensures |r| == |d|
  {
    Apply(d, HomeWrites(h, vals))
  }

  lemma HomeWritesPrefix(h: seq<int>, vals: seq<Block>, k: nat)
    requires |vals| == |h| && k <= |h|
    ensures HomeWrites(h, vals)[..k] == HomeWrites(h[..k], vals[..k])
  {
  }

  lemma {:induction false} InstalledAt(d: Disk, h: seq<int>, vals: seq<Block>)
    requires Listed(h, vals, d) && Distinct(h)
    ensures forall i :: 0 <= i < |h| ==> Installed(d, h, vals)[h[i]] == vals[i]
    ensures forall b :: 0 <= b < |d| && b !in h ==> Installed(d, h, vals)[b] == d[b]
    decreases |h|
  {
    if h != [] {
      var n := |h| - 1;
      InstalledAt(d, h[..n], vals[..n]);
      HomeWritesPrefix(h, vals, n);
      var p, r := Installed(d, h[..n], vals[..n]), Installed(d, h, vals);
      assert r == p[h[n] := vals[n]];
      forall b | 0 <= b < |d| && b !in h ensures r[b] == d[b] {
        assert b != h[n] && b !in h[..n];
      }
      forall i | 0 <= i < |h| ensures r[h[i]] == vals[i] {
        if i < n {
          assert h[..n][i] == h[i] && h[i] != h[n] && p[h[..n][i]] == vals[i];
        }
      }
    }
  }

  // ---------- the header block ----------

  predicate HeadOk(b: Block) {
    Whole(b) && 0 <= Word(b, 0) <= LOGSIZE
  }

  /** The block numbers a header block lists. */
  function ReadHead(b: Block): (h: seq<int>)
    requires HeadOk(b)
    ensures |h| == Word(b, 0)
  {
    seq(Word(b, 0), i requires 0 <= i < Word(b, 0) => Word(b, i + 1))
  }

  predicate Numbers(h: seq<int>) {
    |h| <= LOGSIZE && forall i :: 0 <= i < |h| ==> 0 <= h[i]
  }

  /** What write_head stores: n and the first n numbers, the rest of the block untouched. */
  function WriteHead(was: Block, h: seq<int>): (b: Block)
    requires Whole(was) && Numbers(h)
    ensures Whole(b) && HeadOk(b) && ReadHead(b) == h
    ensures forall k :: |h| < k < NINDIRECT ==> Word(b, k) == Word(was, k)
  {
    HeadReads(was, h);
    SetWords(SetWord(was, 0, |h|), 1, h)
  }

  lemma HeadReads(was: Block, h: seq<int>)
    requires Whole(was) && Numbers(h)
    ensures var b := SetWords(SetWord(was, 0, |h|), 1, h);
            && HeadOk(b) && ReadHead(b) == h
            && forall k :: |h| < k < NINDIRECT ==> Word(b, k) == Word(was, k)
  {
    hide Word, SetWord, SetWords;
    var b := SetWords(SetWord(was, 0, |h|), 1, h);
    forall k | 0 <= k < NINDIRECT
      ensures Word(b, k) == if k == 0 then |h| else if k <= |h| then h[k-1] else Word(was, k)
    {
      SetWordReads(was, 0, |h|, k);
      SetWordsReads(SetWord(was, 0, |h|), 1, h, k);
    }
  }

  /** A transaction's block list: distinct home blocks that fit in the log region. */
  ghost predicate GoodList(l: Layout, disksize: nat, h: seq<int>) {
    && |h| <= LOGSIZE && |h| < l.size && l.start + l.size <= disksize
    && (forall i :: 0 <= i < |h| ==> 0 <= h[i] < disksize && Home(l, h[i]))
    && Distinct(h)
  }

  ghost predicate Bootable(l: Layout, d: Disk) {
    && l.start < |d| && HeadOk(d[l.start])
    && GoodList(l, |d|, ReadHead(d[l.start]))
  }

  ghost predicate HomeEqual(l: Layout, a: Disk, b: Disk) {
    |a| == |b| && forall k :: 0 <= k < |a| && Home(l, k) ==> a[k] == b[k]
  }

  /** Off the list, `d` already holds the target's contents. */
  ghost predicate RestMatches(l: Layout, d: Disk, h: seq<int>, target: Disk) {
    |target| == |d| && forall k :: 0 <= k < |d| && Home(l, k) && k !in h ==> d[k] == target[k]
  }

  /** For the listed blocks the log region does. */
  ghost predicate LogMatches(l: Layout, d: Disk, h: seq<int>, target: Disk)
    requires GoodList(l, |d|, h) && |target| == |d|
  {
    forall i :: 0 <= i < |h| ==> d[l.start+1+i] == target[h[i]]
  }

  /** Recovery from `d` will yield `target` on every home block. */
  ghost predicate RecoversTo(l: Layout, d: Disk, target: Disk) {
    && Bootable(l, d) && |target| == |d|
    && var h := ReadHead(d[l.start]);
    && RestMatches(l, d, h, target)
    && LogMatches(l, d, h, target)
  }

  // ---------- recovery ----------

  /** The block copies in the log region. */
  function Copies(l: Layout, d: Disk, n: nat): (vals: seq<Block>)
    requires l.start + n < |d|
    ensures |vals| == n
  {
    d[l.start+1..l.start+1+n]
  }

  /** The writes recover_from_log performs on a disk: install, then clear the header. */
  ghost function RecoverWrites(l: Layout, d: Disk): (ws: seq<Write>)
    requires Bootable(l, d)
    ensures InRange(d, ws) && |ws| == |ReadHead(d[l.start])| + 1
  {
    var h := ReadHead(d[l.start]);
    HomeWrites(h, Copies(l, d, |h|)) + [Write(l.start, WriteHead(d[l.start], []))]
  }

  /** Installing good blocks leaves the log region alone. */
  lemma InstallKeepsLog(l: Layout, d: Disk, h: seq<int>, vals: seq<Block>)
    requires GoodList(l, |d|, h) && |vals| == |h|
    ensures forall b :: 0 <= b < |d| && !Home(l, b) ==> Installed(d, h, vals)[b] == d[b]
  {
    InstalledAt(d, h, vals);
    forall b | 0 <= b < |d| && !Home(l, b) ensures Installed(d, h, vals)[b] == d[b] {
      assert b !in h;
    }
  }

  lemma GoodPrefix(l: Layout, disksize: nat, h: seq<int>, k: nat)
    requires GoodList(l, disksize, h) && k <= |h|
    ensures GoodList(l, disksize, h[..k])
  {
  }

  lemma InstallKeepsRest(l: Layout, d: Disk, h: seq<int>, target: Disk, part: seq<int>, vals: seq<Block>)
    requires RestMatches(l, d, h, target) && Listed(part, vals, d) && Distinct(part)
    requires forall b :: b in part ==> b in h
    ensures RestMatches(l, Installed(d, part, vals), h, target)
  {
    InstalledAt(d, part, vals);
  }

  lemma InstallReachesTarget(l: Layout, d: Disk, h: seq<int>, vals: seq<Block>, target: Disk)
    requires RestMatches(l, d, h, target) && Listed(h, vals, d) && Distinct(h)
    requires forall i :: 0 <= i < |h| ==> vals[i] == target[h[i]]
    ensures HomeEqual(l, Installed(d, h, vals), target)
  {
    InstalledAt(d, h, vals);
    var r := Installed(d, h, vals);
    forall b | 0 <= b < |d| && Home(l, b) ensures r[b] == target[b] {
      if b in h {
        var i :| 0 <= i < |h| && h[i] == b;
      }
    }
  }

  /** Installing the first k logged blocks still recovers to the same disk. */
  lemma PartialInstall(l: Layout, d: Disk, target: Disk, k: nat)
    requires RecoversTo(l, d, target) && k <= |ReadHead(d[l.start])|
    ensures var h := ReadHead(d[l.start]);
            && GoodList(l, |d|, h[..k])
            && var r := Installed(d, h[..k], Copies(l, d, |h|)[..k]);
            && r[l.start] == d[l.start]
            && RecoversTo(l, r, target)
  {
    hide Installed, RestMatches, Copies, HeadOk;
    var h := ReadHead(d[l.start]);
    GoodPrefix(l, |d|, h, k);
    InstallKeepsRest(l, d, h, target, h[..k], Copies(l, d, |h|)[..k]);
    InstallKeepsLog(l, d, h[..k], Copies(l, d, |h|)[..k]);
  }

  /** Installing all of them reaches it. */
  lemma FullInstall(l: Layout, d: Disk, target: Disk)
    requires RecoversTo(l, d, target)
    ensures var h := ReadHead(d[l.start]);
            var r := Installed(d, h, Copies(l, d, |h|));
            r[l.start] == d[l.start] && HomeEqual(l, r, target)
  {
    var h := ReadHead(d[l.start]);
    var vals := Copies(l, d, |h|);
    InstallReachesTarget(l, d, h, vals, target);
    InstallKeepsLog(l, d, h, vals);
  }

  lemma ClearedHead(l: Layout, d: Disk, target: Disk)
    requires Bootable(l, d) && HomeEqual(l, d, target)
    ensures var r := d[l.start := WriteHead(d[l.start], [])];
            RecoversTo(l, r, target) && HomeEqual(l, r, target) && ReadHead(r[l.start]) == []
  {
  }

  /** Recovery interrupted after any number of its writes still recovers to the
      same disk; run to the end it also clears the log. */
  lemma RecoverPrefix(l: Layout, d: Disk, target: Disk, k: nat)
    requires RecoversTo(l, d, target) && k <= |RecoverWrites(l, d)|
    ensures var r := Apply(d, RecoverWrites(l, d)[..k]);
            && RecoversTo(l, r, target)
            && (k == |RecoverWrites(l, d)| ==> HomeEqual(l, r, target) && ReadHead(r[l.start]) == [])
  {
    var h := ReadHead(d[l.start]);
    var vals := Copies(l, d, |h|);
    var ws := RecoverWrites(l, d);
    var home := HomeWrites(h, vals);
    var clear := Write(l.start, WriteHead(d[l.start], []));
    if k <= |h| {
      PartialInstall(l, d, target, k);
      HomeWritesPrefix(h, vals, k);
      PrefixOfLeft(home, [clear], k);
    } else {
      FullInstall(l, d, target);
      assert ws[..k] == ws;
      ApplySnoc(d, home, clear);
      ClearedHead(l, Apply(d, home), target);
    }
  }

  /** Boot repeatedly: attempt j of recovery is cut after `cuts[j]` writes, and the
      attempt after the last cut runs to completion. */
  ghost function RecoverWithCrashes(l: Layout, d: Disk, cuts: seq<nat>): (r: Disk)
    requires Bootable(l, d)
    ensures |r| == |d|
    decreases |cuts|
  {
    var ws := RecoverWrites(l, d);
    if cuts == [] then Apply(d, ws)
    else
      var k := if cuts[0] <= |ws| then cuts[0] else |ws|;
      BootableAfterCut(l, d, k);
      RecoverWithCrashes(l, Apply(d, ws[..k]), cuts[1..])
  }

  /** The home-block contents recovery from `d` aims at. */
  lemma GoalExists(l: Layout, d: Disk) returns (target: Disk)
    requires Bootable(l, d)
    ensures RecoversTo(l, d, target)
  {
    hide Installed, ReadHead, HeadOk;
    var h := ReadHead(d[l.start]);
    var vals := Copies(l, d, |h|);
    InstalledAt(d, h, vals);
    target := Installed(d, h, vals);
  }

  lemma BootableAfterCut(l: Layout, d: Disk, k: nat)
    requires Bootable(l, d) && k <= |RecoverWrites(l, d)|
    ensures Bootable(l, Apply(d, RecoverWrites(l, d)[..k]))
  {
    var target := GoalExists(l, d);
    RecoverPrefix(l, d, target, k);
  }

  /** However often recovery itself crashes, its outcome is the one the log promised. */
  lemma {:induction false} RecoveryIsIdempotent(l: Layout, d: Disk, target: Disk, cuts: seq<nat>)
    requires RecoversTo(l, d, target)
    ensures var r := RecoverWithCrashes(l, d, cuts);
            HomeEqual(l, r, target) && RecoversTo(l, r, target) && ReadHead(r[l.start]) == []
    decreases |cuts|
  {
    var ws := RecoverWrites(l, d);
    assert ws[..|ws|] == ws;
    if cuts == [] {
      RecoverPrefix(l, d, target, |ws|);
    } else {
      var k := if cuts[0] <= |ws| then cuts[0] else |ws|;
      RecoverPrefix(l, d, target, k);
      RecoveryIsIdempotent(l, Apply(d, ws[..k]), target, cuts[1..]);
    }
  }

  // ---------- commit ----------

  function CopyWrites(l: Layout, vals: seq<Block>): (ws: seq<Write>)
    ensures |ws| == |vals|
  {
    seq(|vals|, i requires 0 <= i < |vals| => Write(l.start+1+i, vals[i]))
  }

  /** Every write commit() performs for a transaction: copy the blocks to the log,
      write the header, install, erase the header.  An empty transaction writes nothing. */
  function CommitWrites(l: Layout, d: Disk, h: seq<int>, vals: seq<Block>): (ws: seq<Write>)
    requires |vals| == |h| && Numbers(h) && l.start < |d| && Whole(d[l.start])
    ensures |ws| == if h == [] then 0 else 2 * |h| + 2
  {
    if h == [] then []
    else
      var head := WriteHead(d[l.start], h);
      CopyWrites(l, vals) + [Write(l.start, head)] +
      HomeWrites(h, vals) + [Write(l.start, WriteHead(head, []))]
  }

  /** The log is idle: recovery would change nothing. */
  ghost predicate Quiet(l: Layout, d: Disk) {
    Bootable(l, d) && ReadHead(d[l.start]) == []
  }

  lemma CommitInRange(l: Layout, d: Disk, h: seq<int>, vals: seq<Block>)
    requires Quiet(l, d) && GoodList(l, |d|, h) && |vals| == |h|
    ensures InRange(d, CommitWrites(l, d, h, vals))
  {
  }

  lemma {:induction false} CopyPrefix(l: Layout, d: Disk, vals: seq<Block>, k: nat)
    requires k <= |vals| < l.size && l.start + l.size <= |d|
    ensures InRange(d, CopyWrites(l, vals))
    ensures var r := Apply(d, CopyWrites(l, vals)[..k]);
            && (forall b :: 0 <= b < |d| && !(l.start < b <= l.start + k) ==> r[b] == d[b])
            && (forall i :: 0 <= i < k ==> r[l.start+1+i] == vals[i])
    decreases k
  {
    if k > 0 {
      CopyPrefix(l, d, vals, k - 1);
      ApplyPrefixStep(d, CopyWrites(l, vals), k - 1);
    }
  }

  /** Before the header write, a crash recovers to the old disk. */
  lemma BeforeCommitPoint(l: Layout, d: Disk, h: seq<int>, vals: seq<Block>, k: nat)
    requires Quiet(l, d) && GoodList(l, |d|, h) && |vals| == |h| && k <= |h|
    requires k <= |CommitWrites(l, d, h, vals)|
    ensures InRange(d, CommitWrites(l, d, h, vals))
    ensures RecoversTo(l, Apply(d, CommitWrites(l, d, h, vals)[..k]), d)
  {
    CommitInRange(l, d, h, vals);
    if h != [] {
      CopyPrefix(l, d, vals, k);
      assert CommitWrites(l, d, h, vals)[..k] == CopyWrites(l, vals)[..k];
    }
  }

  /** The disk right after the header write. */
  function CommitPoint(l: Layout, d: Disk, h: seq<int>, vals: seq<Block>): (c: Disk)
    requires |vals| == |h| < l.size && Numbers(h) && l.start + l.size <= |d| && Whole(d[l.start])
    ensures |c| == |d|
  {
    Apply(d, CopyWrites(l, vals))[l.start := WriteHead(d[l.start], h)]
  }

  lemma QuietHead(l: Layout, d: Disk)
    requires Quiet(l, d)
    ensures l.start < |d| && Whole(d[l.start])
  {
  }

  lemma AtCommitPoint(l: Layout, d: Disk, h: seq<int>, vals: seq<Block>)
    requires Quiet(l, d) && GoodList(l, |d|, h) && |vals| == |h|
    ensures var c := CommitPoint(l, d, h, vals);
            && c[l.start] == WriteHead(d[l.start], h)
            && Copies(l, c, |h|) == vals
            && (forall b :: 0 <= b < |d| && Home(l, b) ==> c[b] == d[b])
  {
    hide Word, SetWord, SetWords, WriteHead, ReadHead, Quiet;
    QuietHead(l, d);
    CopyPrefix(l, d, vals, |h|);
    assert CopyWrites(l, vals)[..|h|] == CopyWrites(l, vals);
  }

  /** It is a bootable disk whose log is this transaction. */
  lemma CommitPointRecovers(l: Layout, d: Disk, h: seq<int>, vals: seq<Block>)
    requires Quiet(l, d) && GoodList(l, |d|, h) && |vals| == |h|
    ensures RecoversTo(l, CommitPoint(l, d, h, vals), Installed(d, h, vals))
  {
    hide CommitPoint, Installed, WriteHead;
    var c := CommitPoint(l, d, h, vals);
    AtCommitPoint(l, d, h, vals);
    InstalledAt(d, h, vals);
    forall i | 0 <= i < |h| ensures c[l.start+1+i] == Installed(d, h, vals)[h[i]] {
      assert c[l.start+1+i] == Copies(l, c, |h|)[i];
    }
  }

  /** commit() is the copies, the header write, and then exactly what recovery would do. */
  lemma CommitIsCopyThenRecover(l: Layout, d: Disk, h: seq<int>, vals: seq<Block>)
    requires Quiet(l, d) && GoodList(l, |d|, h) && |vals| == |h| && h != []
    ensures var c := CommitPoint(l, d, h, vals);
            && Bootable(l, c)
            && CommitWrites(l, d, h, vals) ==
                 CopyWrites(l, vals) + [Write(l.start, WriteHead(d[l.start], h))] + RecoverWrites(l, c)
  {
    AtCommitPoint(l, d, h, vals);
  }

  /** The disk after the copies and the header. */
  lemma CommitPointIs(l: Layout, d: Disk, h: seq<int>, vals: seq<Block>)
    requires Quiet(l, d) && GoodList(l, |d|, h) && |vals| == |h|
    ensures var ws := CopyWrites(l, vals) + [Write(l.start, WriteHead(d[l.start], h))];
            InRange(d, ws) && Apply(d, ws) == CommitPoint(l, d, h, vals)
    ensures h != [] ==> |h| == |CopyWrites(l, vals)| <= LOGSIZE && |CommitWrites(l, d, h, vals)| == 2 * |h| + 2
    ensures ReadHead(CommitPoint(l, d, h, vals)[l.start]) == h
  {
    hide Apply, CopyWrites, ReadHead, WriteHead;
    CopyPrefix(l, d, vals, 0);
    AtCommitPoint(l, d, h, vals);
    ApplySnoc(d, CopyWrites(l, vals), Write(l.start, WriteHead(d[l.start], h)));
  }

  /** A crash after the header write is a crash of recovery. */
  lemma CutAfterCommitPoint(l: Layout, d: Disk, h: seq<int>, vals: seq<Block>, k: nat)
    requires Quiet(l, d) && GoodList(l, |d|, h) && |vals| == |h| && h != []
    requires |h| < k <= |CommitWrites(l, d, h, vals)|
    ensures InRange(d, CommitWrites(l, d, h, vals))
    ensures var c := CommitPoint(l, d, h, vals);
            && Bootable(l, c) && |RecoverWrites(l, c)| == |h| + 1
            && Apply(d, CommitWrites(l, d, h, vals)[..k]) == Apply(c, RecoverWrites(l, c)[..k-|h|-1])
  {
    hide Apply, CommitWrites, CommitPoint, CopyWrites, RecoverWrites, WriteHead, ReadHead;
    CommitInRange(l, d, h, vals);
    CommitIsCopyThenRecover(l, d, h, vals);
    CommitPointIs(l, d, h, vals);
    var c := CommitPoint(l, d, h, vals);
    CutInSecond(d, CopyWrites(l, vals) + [Write(l.start, WriteHead(d[l.start], h))], RecoverWrites(l, c), k);
  }

  /** From the header write on, a crash recovers to the new disk. */
  lemma AfterCommitPoint(l: Layout, d: Disk, h: seq<int>, vals: seq<Block>, k: nat)
    requires Quiet(l, d) && GoodList(l, |d|, h) && |vals| == |h| && h != []
    requires |h| < k <= |CommitWrites(l, d, h, vals)|
    ensures InRange(d, CommitWrites(l, d, h, vals))
    ensures var r := Apply(d, CommitWrites(l, d, h, vals)[..k]);
            && RecoversTo(l, r, Installed(d, h, vals))
            && (k == |CommitWrites(l, d, h, vals)| ==> Quiet(l, r))
  {
    CutAfterCommitPoint(l, d, h, vals, k);
    CommitPointRecovers(l, d, h, vals);
    RecoverPrefix(l, CommitPoint(l, d, h, vals), Installed(d, h, vals), k - |h| - 1);
  }

  /** Crash atomicity: cut the commit of any transaction after any k writes, let
      recovery itself crash any number of times, and the home blocks end up as the
      old disk or with the whole transaction installed, the latter exactly when the
      header write was among the k. */
  lemma CommitIsAtomic(l: Layout, d: Disk, h: seq<int>, vals: seq<Block>, k: nat, cuts: seq<nat>)
    requires Quiet(l, d) && GoodList(l, |d|, h) && |vals| == |h|
    requires k <= |CommitWrites(l, d, h, vals)|
    ensures InRange(d, CommitWrites(l, d, h, vals))
    ensures var c := Apply(d, CommitWrites(l, d, h, vals)[..k]);
            && Bootable(l, c)
            && var r := RecoverWithCrashes(l, c, cuts);
            && HomeEqual(l, r, if k <= |h| then d else Installed(d, h, vals))
            && Quiet(l, r)
  {
    var target := if k <= |h| then d else Installed(d, h, vals);
    if k <= |h| {
      BeforeCommitPoint(l, d, h, vals, k);
    } else {
      AfterCommitPoint(l, d, h, vals, k);
    }
    RecoveryIsIdempotent(l, Apply(d, CommitWrites(l, d, h, vals)[..k]), target, cuts);
  }

  // ---------- whole runs ----------

  /** One thing that happens to the log: a commit that runs to the end, or one that
      is cut after k writes and followed by a recovery with its own crashes. */
  datatype Event =
    | Done(h: seq<int>, vals: seq<Block>)
    | Cut(h: seq<int>, vals: seq<Block>, k: nat, cuts: seq<nat>)

  ghost predicate EventOk(l: Layout, disksize: nat, e: Event) {
    && GoodList(l, disksize, e.h) && |e.vals| == |e.h|
    && (e.Cut? && e.h == [] ==> e.k == 0)
    && (e.Cut? ==> e.k <= 2 * |e.h| + 2)
  }

  ghost function ExecEvent(l: Layout, d: Disk, e: Event): (r: Disk)
    requires Quiet(l, d) && EventOk(l, |d|, e)
    ensures |r| == |d|
  {
    CommitInRange(l, d, e.h, e.vals);
    var ws := CommitWrites(l, d, e.h, e.vals);
    match e
    case Done(_, _) => Apply(d, ws)
    case Cut(h, vals, k, cuts) =>
      CommitIsAtomic(l, d, h, vals, k, cuts);
      RecoverWithCrashes(l, Apply(d, ws[..k]), cuts)
  }

  /** What the same event does to the disk its clients see. */
  ghost function LogicalEvent(l: Layout, t: Disk, e: Event): (r: Disk)
    requires EventOk(l, |t|, e)
    ensures |r| == |t|
  {
    if e.Cut? && e.k <= |e.h| then t else Installed(t, e.h, e.vals)
  }

  lemma InstalledHomeEqual(l: Layout, a: Disk, b: Disk, h: seq<int>, vals: seq<Block>)
    requires HomeEqual(l, a, b) && GoodList(l, |a|, h) && |vals| == |h|
    ensures HomeEqual(l, Installed(a, h, vals), Installed(b, h, vals))
  {
    InstalledAt(a, h, vals);
    InstalledAt(b, h, vals);
    forall k | 0 <= k < |a| && Home(l, k) ensures Installed(a, h, vals)[k] == Installed(b, h, vals)[k] {
      if k in h {
        var i :| 0 <= i < |h| && h[i] == k;
      }
    }
  }

  lemma EventRefines(l: Layout, d: Disk, t: Disk, e: Event)
    requires Quiet(l, d) && HomeEqual(l, d, t) && EventOk(l, |d|, e)
    ensures Quiet(l, ExecEvent(l, d, e))
    ensures HomeEqual(l, ExecEvent(l, d, e), LogicalEvent(l, t, e))
  {
    InstalledHomeEqual(l, d, t, e.h, e.vals);
    var ws := CommitWrites(l, d, e.h, e.vals);
    assert ws[..|ws|] == ws;
    match e
    case Done(h, vals) =>
      if h != [] {
        AfterCommitPoint(l, d, h, vals, |ws|);
        assert HomeEqual(l, Apply(d, ws), Installed(d, h, vals));
      }
    case Cut(h, vals, k, cuts) =>
      CommitIsAtomic(l, d, h, vals, k, cuts);
  }

  ghost function Exec(l: Layout, d: Disk, es: seq<Event>): (r: Disk)
    requires Quiet(l, d) && forall i :: 0 <= i < |es| ==> EventOk(l, |d|, es[i])
    ensures |r| == |d|
    decreases |es|
  {
    if es == [] then d
    else
      EventRefines(l, d, d, es[0]);
      Exec(l, ExecEvent(l, d, es[0]), es[1..])
  }

  ghost function Logical(l: Layout, t: Disk, es: seq<Event>): (r: Disk)
    requires forall i :: 0 <= i < |es| ==> EventOk(l, |t|, es[i])
    ensures |r| == |t|
    decreases |es|
  {
    if es == [] then t else Logical(l, LogicalEvent(l, t, es[0]), es[1..])
  }

  /** Over every history of commits and crashes the home blocks equal the disk on
      which each transaction happened entirely or not at all. */
  lemma {:induction false} RunRefines(l: Layout, d: Disk, t: Disk, es: seq<Event>)
    requires Quiet(l, d) && HomeEqual(l, d, t)
    requires forall i :: 0 <= i < |es| ==> EventOk(l, |d|, es[i])
    ensures Quiet(l, Exec(l, d, es))
    ensures HomeEqual(l, Exec(l, d, es), Logical(l, t, es))
    decreases |es|
  {
    if es != [] {
      EventRefines(l, d, d, es[0]);
      EventRefines(l, d, t, es[0]);
      RunRefines(l, ExecEvent(l, d, es[0]), LogicalEvent(l, t, es[0]), es[1..]);
    }
  }
}
