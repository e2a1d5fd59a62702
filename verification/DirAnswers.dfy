/** What create and unlink answer, and what they do to a directory seen as a map from
    names to inode numbers. */
module DirAnswers {
  import opened Dir

  // ---------- a directory as a map ----------

  /** The number a name has, 0 if the directory does not have it. */
  function InumOf(ents: seq<Entry>, name: string): (i: int)
    ensures i != 0 <==> Present(ents, name)
  {
    var k := Lookup(ents, name, 0);
    if k < |ents| then ents[k].inum else 0
  }

  predicate IsNamed(e: Entry, name: string) { e.inum != 0 && e.name == Cut(name) }

  /** With unique names, an entry with the name is the one lookup finds. */
  lemma InumIs(ents: seq<Entry>, name: string, k: nat)
    requires NamesUnique(ents) && k < |ents| && IsNamed(ents[k], name)
    ensures Lookup(ents, name, 0) == k && InumOf(ents, name) == ents[k].inum
  {
    assert Lookup(ents, name, 0) <= k;
  }

  lemma NotNamed(ents: seq<Entry>, name: string)
    requires forall k :: 0 <= k < |ents| ==> !IsNamed(ents[k], name)
    ensures InumOf(ents, name) == 0
  {
  }

  lemma AbsentAt(ents: seq<Entry>, name: string, k: nat)
    requires !Present(ents, name) && k < |ents|
    ensures !IsNamed(ents[k], name)
  {
  }

  /** dirlink adds one pair to the map. */
  lemma AddedMap(ents: seq<Entry>, name: string, inum: int, other: string)
    requires NamesUnique(ents) && !Present(ents, name) && inum != 0
    ensures InumOf(Added(ents, name, inum), other) == if Cut(other) == Cut(name) then inum else InumOf(ents, other)
  {
    hide NamesUnique, Lookup;
    var now, at := Added(ents, name, inum), FreeSlot(ents, 0);
    AddedNames(ents, name, inum);
    if Cut(other) == Cut(name) {
      InumIs(now, other, at);
    } else if Present(ents, other) {
      var k := Lookup(ents, other, 0);
      assert now[k] == ents[k] && IsNamed(now[k], other);
      InumIs(now, other, k);
    } else {
      forall k | 0 <= k < |now| ensures !IsNamed(now[k], other) {
        if k != at {
          assert now[k] == ents[k];
          AbsentAt(ents, other, k);
        }
      }
      NotNamed(now, other);
    }
  }

  /** Clearing the entry of a name takes its pair from the map. */
  lemma ErasedMap(ents: seq<Entry>, name: string, other: string)
    requires NamesUnique(ents) && Present(ents, name)
    ensures InumOf(ents[Lookup(ents, name, 0) := Entry(0, "")], other) ==
              if Cut(other) == Cut(name) then 0 else InumOf(ents, other)
  {
    hide Lookup;
    var at := Lookup(ents, name, 0);
    var now := ents[at := Entry(0, "")];
    if Cut(other) != Cut(name) && Present(ents, other) {
      var k := Lookup(ents, other, 0);
      assert now[k] == ents[k] && IsNamed(now[k], other);
      InumIs(now, other, k);
    } else {
      forall k | 0 <= k < |now| ensures !IsNamed(now[k], other) {
        if k != at && Cut(other) != Cut(name) {
          AbsentAt(ents, other, k);
        }
      }
      NotNamed(now, other);
    }
  }

  // ---------- create ----------

  /** Some inode is free for ialloc to take. */
  ghost predicate SomeFree(fs: Fs) { exists i :: 1 <= i < |fs| && fs[i].kind == Free }

  lemma FreeFound(fs: Fs)
    requires 1 <= |fs|
    ensures FirstFree(fs, 1) < |fs| <==> SomeFree(fs)
  {
  }

  predicate IsFile(fs: Fs, i: int) { 0 <= i < |fs| && fs[i].kind == F }

  /** create succeeds exactly when the name is absent and some inode is free, or when a
      file is asked for and the name is a file's.  The number it returns is the one the
      name has afterwards; the directory's other names keep theirs. */
  lemma CreateAnswers(fs: Fs, pend: multiset<int>, dp: int, name: string, kind: Kind, other: string)
    requires Inv(fs, pend) && IsDir(fs, dp)
    ensures var was := InumOf(fs[dp].ents, name);
            match Create(fs, dp, name, kind)
            case New(fs', i) =>
              && was == 0 && SomeFree(fs) && 0 < i < |fs| == |fs'| && fs[i].kind == Free && fs'[i].kind == kind
              && InumOf(fs'[dp].ents, other) == if Cut(other) == Cut(name) then i else InumOf(fs[dp].ents, other)
            case Existing(i) => was == i && i != 0 && kind == F && IsFile(fs, i)
            case Refused => was != 0 && !(kind == F && IsFile(fs, was))
            case OutOfInodes => was == 0 && !SomeFree(fs)
  {
    hide Inv, Lookup, FirstFree;
    DirFacts(fs, pend, dp);
    FreeFound(fs);
    if !Present(fs[dp].ents, name) && SomeFree(fs) {
      AddedMap(fs[dp].ents, name, FirstFree(fs, 1), other);
    }
  }

  /** A second create finds what the first one made: a file is opened, anything else
      refused. */
  lemma CreateAgain(fs: Fs, pend: multiset<int>, dp: int, name: string, kind: Kind)
    requires Inv(fs, pend) && IsDir(fs, dp) && kind != Free && Create(fs, dp, name, kind).New?
    ensures var r := Create(fs, dp, name, kind);
            IsDir(r.fs, dp) && 1 < |r.fs| && Create(r.fs, dp, name, kind) == if kind == F then Existing(r.inum) else Refused
  {
    hide Inv, Lookup, FirstFree;
    DirFacts(fs, pend, dp);
    CreateAnswers(fs, pend, dp, name, kind, name);
  }

  // ---------- unlink ----------

  predicate IsDot(name: string) { Cut(name) == "." || Cut(name) == ".." }

  predicate HasEntries(fs: Fs, i: int) { 0 <= i < |fs| && fs[i].kind == D && !EmptyFrom(fs[i].ents, 2) }

  /** unlink succeeds exactly when the name is present, no dot, and not a directory's
      that has entries; then the name is gone, the directory's other names keep their
      numbers, and the inode has one link less.  Its panic is unreachable. */
  lemma UnlinkAnswers(fs: Fs, pend: multiset<int>, dp: int, name: string, other: string)
    requires Inv(fs, pend) && IsDir(fs, dp)
    ensures var was := InumOf(fs[dp].ents, name);
            match Unlink(fs, dp, name)
            case NotFound => IsDot(name) || was == 0
            case Busy => !IsDot(name) && was != 0 && HasEntries(fs, was)
            case NoLinks => false
            case Gone(fs', i) =>
              && !IsDot(name) && was == i && 0 < i < |fs| == |fs'| && !HasEntries(fs, i) && i != dp
              && InumOf(fs'[dp].ents, other) == (if Cut(other) == Cut(name) then 0 else InumOf(fs[dp].ents, other))
              && fs'[i].nlink == fs[i].nlink - 1
  {
    hide Inv, Lookup;
    DirFacts(fs, pend, dp);
    if !IsDot(name) && Present(fs[dp].ents, name) {
      LookupSound(fs, pend, dp, name);
      ErasedMap(fs[dp].ents, name, other);
    }
  }

  /** What create made, unlink removes, and every name means what it meant before. */
  lemma CreateThenUnlink(fs: Fs, pend: multiset<int>, dp: int, name: string, kind: Kind, other: string)
    requires Inv(fs, pend) && Linked(fs, dp) && kind != Free && !IsDot(name) && Create(fs, dp, name, kind).New?
    ensures var r := Create(fs, dp, name, kind);
            && IsDir(r.fs, dp)
            && var u := Unlink(r.fs, dp, name);
            && u.Gone? && u.inum == r.inum && 0 <= dp < |u.fs|
            && InumOf(u.fs[dp].ents, other) == InumOf(fs[dp].ents, other)
  {
    hide Inv, Lookup, FirstFree, Unlink, Create;
    CreateAnswers(fs, pend, dp, name, kind, name);
    CreateAnswers(fs, pend, dp, name, kind, other);
    CreateMade(fs, pend, dp, name, kind);
    var r := Create(fs, dp, name, kind);
    CreateKeepsInv(State(fs, pend), dp, name, kind);
    UnlinkAnswers(r.fs, pend, dp, name, name);
    UnlinkAnswers(r.fs, pend, dp, name, other);
  }

  /** What create makes is a directory only with the dots, or no directory at all. */
  lemma CreateMade(fs: Fs, pend: multiset<int>, dp: int, name: string, kind: Kind)
    requires Inv(fs, pend) && IsDir(fs, dp) && kind != Free && Create(fs, dp, name, kind).New?
    ensures var r := Create(fs, dp, name, kind); IsDir(r.fs, dp) && !HasEntries(r.fs, r.inum)
  {
    hide Inv, Lookup, FirstFree;
    DirFacts(fs, pend, dp);
  }
}
