/** create, link and unlink as they run, over dirlookup, dirlink and isdirempty. */
module Sysfile {
  import opened Dir

  lemma DotsMade(inum: int, dp: int)
    requires inum != 0
    ensures !Present([], ".") && Added([], ".", inum) == [Entry(inum, ".")]
    ensures !Present([Entry(inum, ".")], "..") && Added([Entry(inum, ".")], "..", dp) == [Entry(inum, "."), Entry(dp, "..")]
  {
    assert Cut(".") == "." && Cut("..") == "..";
    FreeSlotIs([], 0, 0);
    FreeSlotIs([Entry(inum, ".")], 0, 1);
    LookupIs([], ".", 0, 0);
    LookupIs([Entry(inum, ".")], "..", 0, 1);
  }

  datatype CreateResult = GotExisting | GotNew | Failed | CreatePanic
  datatype UnlinkResult = Done | NotDone | UnlinkPanic

  class Tree {
    var inodes: Fs

    constructor (fs: Fs)
      ensures inodes == fs
    {
      inodes := fs;
    }

    /** The offset and inode number of the entry with this name. */
    method Dirlookup(dp: int, name: string) returns (found: bool, off: int, inum: int)
      requires 0 <= dp < |inodes|
      ensures found <==> Present(inodes[dp].ents, name)
      ensures found ==> off == Lookup(inodes[dp].ents, name, 0) && inum == inodes[dp].ents[off].inum
    {
      var ents := inodes[dp].ents;
      off := 0;
      while off < |ents|
        invariant 0 <= off <= |ents|
        invariant forall i :: 0 <= i < off ==> ents[i].inum == 0 || ents[i].name != Cut(name)
      {
        if ents[off].inum != 0 && ents[off].name == Cut(name) {
          LookupIs(ents, name, 0, off);
          return true, off, ents[off].inum;
        }
        off := off + 1;
      }
      LookupIs(ents, name, 0, off);
      return false, 0, 0;
    }

    /** Write a new entry in the first empty slot, or at the end. */
    method Dirlink(dp: int, name: string, inum: int) returns (ok: bool)
      requires 0 <= dp < |inodes|
      modifies this
      ensures ok <==> !Present(old(inodes)[dp].ents, name)
      ensures inodes == if ok then AddEntry(old(inodes), dp, name, inum) else old(inodes)
    {
      var found, _, _ := Dirlookup(dp, name);
      if found {
        return false;
      }
      var ents := inodes[dp].ents;
      var off := 0;
      while off < |ents| && ents[off].inum != 0
        invariant 0 <= off <= |ents| && forall i :: 0 <= i < off ==> ents[i].inum != 0
      {
        off := off + 1;
      }
      FreeSlotIs(ents, 0, off);
      ents := if off < |ents| then ents[off := Entry(inum, Cut(name))] else ents + [Entry(inum, Cut(name))];
      inodes := inodes[dp := inodes[dp].(ents := ents)];
      return true;
    }

    method Isdirempty(dp: int) returns (empty: bool)
      requires 0 <= dp < |inodes|
      ensures empty <==> EmptyFrom(inodes[dp].ents, 2)
    {
      var ents := inodes[dp].ents;
      var off := 2;
      while off < |ents|
        invariant 2 <= off && forall i :: 2 <= i < off && i < |ents| ==> ents[i].inum == 0
      {
        if ents[off].inum != 0 {
          return false;
        }
        off := off + 1;
      }
      return true;
    }

    method Ialloc(kind: Kind) returns (ok: bool, inum: int)
      requires 1 <= |inodes|
      modifies this
      ensures ok <==> FirstFree(old(inodes), 1) < |old(inodes)|
      ensures ok ==> inum == FirstFree(old(inodes), 1) && inodes == old(inodes)[inum := Ino(kind, 0, [])]
    {
      inum := 1;
      while inum < |inodes|
        invariant 1 <= inum <= |inodes| && inodes == old(inodes)
        invariant forall i :: 1 <= i < inum ==> inodes[i].kind != Free
      {
        if inodes[inum].kind == Free {
          FirstFreeIs(inodes, 1, inum);
          inodes := inodes[inum := Ino(kind, 0, [])];
          return true, inum;
        }
        inum := inum + 1;
      }
      FirstFreeIs(inodes, 1, inum);
      return false, 0;
    }

    /** create, from the parent directory found by nameiparent. */
    method Create(dp: int, name: string, kind: Kind) returns (r: CreateResult, inum: int)
      requires 0 <= dp < |inodes| && inodes[dp].kind == D && 1 < |inodes|
      modifies this
      ensures match Dir.Create(old(inodes), dp, name, kind)
              case Existing(i) => r == GotExisting && inum == i && inodes == old(inodes)
              case Refused => r == Failed && inodes == old(inodes)
              case OutOfInodes => r == CreatePanic
              case New(fs, i) => r == GotNew && inum == i && inodes == fs
    {
      var found, off, ip := Dirlookup(dp, name);
      if found {
        if kind == F && 0 <= ip < |inodes| && inodes[ip].kind == F {
          return GotExisting, ip;
        }
        return Failed, 0;
      }
      var ok;
      ok, inum := Ialloc(kind);
      if !ok {
        return CreatePanic, 0;
      }
      ghost var fs := old(inodes);
      inodes := inodes[inum := inodes[inum].(nlink := 1)];
      if kind == D {
        inodes := inodes[dp := inodes[dp].(nlink := inodes[dp].nlink + 1)];
        var dots := MakeDots(inum, dp);
        if !dots {
          return CreatePanic, 0;
        }
      }
      assert inodes[dp].ents == fs[dp].ents;
      var linked := Dirlink(dp, name, inum);
      if !linked {
        return CreatePanic, 0;
      }
      assert inodes == Make(fs, dp, name, kind, inum);
      return GotNew, inum;
    }

    /** The "." and ".." of a new directory. */
    method MakeDots(inum: int, dp: int) returns (ok: bool)
      requires 0 < inum < |inodes| && inodes[inum].ents == []
      modifies this
      ensures ok && inodes == old(inodes)[inum := old(inodes)[inum].(ents := [Entry(inum, "."), Entry(dp, "..")])]
    {
      DotsMade(inum, dp);
      var one := Dirlink(inum, ".", inum);
      var two := Dirlink(inum, "..", dp);
      return one && two;
    }

    /** sys_link up to dropping the inode's lock: the count is raised. */
    method LinkRaise(ip: int) returns (ok: bool)
      requires 0 <= ip < |inodes|
      modifies this
      ensures ok <==> old(inodes)[ip].kind != D
      ensures inodes == if ok then SetLinks(old(inodes), ip, old(inodes)[ip].nlink + 1) else old(inodes)
    {
      if inodes[ip].kind == D {
        return false;
      }
      inodes := inodes[ip := inodes[ip].(nlink := inodes[ip].nlink + 1)];
      return true;
    }

    /** The rest of sys_link: the entry, or the count taken back. */
    method LinkEntry(dp: int, name: string, ip: int) returns (ok: bool)
      requires 0 <= dp < |inodes| && 0 <= ip < |inodes|
      modifies this
      ensures ok <==> !Present(old(inodes)[dp].ents, name)
      ensures inodes == if ok then AddEntry(old(inodes), dp, name, ip) else SetLinks(old(inodes), ip, old(inodes)[ip].nlink - 1)
    {
      ok := Dirlink(dp, name, ip);
      if !ok {
        inodes := inodes[ip := inodes[ip].(nlink := inodes[ip].nlink - 1)];
      }
    }

    method Unlink(dp: int, name: string) returns (r: UnlinkResult)
      requires 0 <= dp < |inodes|
      modifies this
      ensures match Dir.Unlink(old(inodes), dp, name)
              case NotFound => r == NotDone && inodes == old(inodes)
              case Busy => r == NotDone && inodes == old(inodes)
              case NoLinks => r == UnlinkPanic
              case Gone(fs, _) => r == UnlinkResult.Done && inodes == fs
    {
      if Cut(name) == "." || Cut(name) == ".." {
        return NotDone;
      }
      var found, off, ip := Dirlookup(dp, name);
      if !found || !(0 <= ip < |inodes|) {
        return NotDone;
      }
      if inodes[ip].nlink < 1 {
        return UnlinkPanic;
      }
      if inodes[ip].kind == D {
        var empty := Isdirempty(ip);
        if !empty {
          return NotDone;
        }
      }
      var isdir := inodes[ip].kind == D;
      inodes := inodes[dp := inodes[dp].(ents := inodes[dp].ents[off := Entry(0, "")])];
      if isdir {
        inodes := inodes[dp := inodes[dp].(nlink := inodes[dp].nlink - 1)];
      }
      inodes := inodes[ip := inodes[ip].(nlink := inodes[ip].nlink - 1)];
      return UnlinkResult.Done;
    }
  }
}
