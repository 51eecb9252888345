/**
 * sys_link, sys_unlink and create (kernel/sysfile.c) over the directory operations of
 * kernel/fs.c. Each method is the part of a system call done under the inode locks it
 * holds; path lookup is a parameter, and calls may interleave in any order.
 */
module Links {
  import opened LinkSpec

  class Namespace {
    var inodes: Table
    var refs: map<nat, nat>        // in-memory references: open files, current directories, calls in progress
    ghost var pend: map<nat, nat>  // links counted by a sys_link that has yet to write its entry

    ghost predicate Valid()
      reads this
    {
      Good(inodes, pend, refs) && Ranged(inodes)
    }

    /** The file system with nothing but its root. */
    constructor ()
      ensures Valid() && inodes == RootOnly() && refs == map[] && pend == map[]
    {
      inodes := RootOnly();
      refs, pend := map[], map[];
      RootGood();
    }

    /** dirlookup: the slot of the entry with this name, or -1. */
    method DirLookup(d: nat, name: string) returns (k: int)
      requires d in inodes
      ensures k == -1 ==> Unnamed(inodes[d], name)
      ensures k != -1 ==> 0 <= k < |inodes[d].ents| && inodes[d].ents[k].inum != 0 && inodes[d].ents[k].name == name
    {
      var ents := inodes[d].ents;
      k := 0;
      while k < |ents|
        invariant 0 <= k <= |ents| && forall j :: 0 <= j < k && ents[j].inum != 0 ==> ents[j].name != name
      {
        if ents[k].inum != 0 && ents[k].name == name {
          return;
        }
        k := k + 1;
      }
      k := -1;
    }

    /** dirlink: the entry goes to the first empty slot; `room` says whether a new slot at the end could be written. */
    method DirLink(d: nat, name: string, i: nat, room: bool) returns (ok: bool, ghost k: nat)
      requires d in inodes && i != 0
      modifies this`inodes
      ensures k <= |old(inodes)[d].ents| && FreeSlot(old(inodes)[d], k)
      ensures forall j :: 0 <= j < k ==> old(inodes)[d].ents[j].inum != 0
      ensures ok ==> Unnamed(old(inodes)[d], name) && inodes == AddEntry(old(inodes), d, k, i, name)
      ensures !ok ==> inodes == old(inodes)
      ensures !ok ==> !Unnamed(inodes[d], name) || (!room && k == |inodes[d].ents|)
      ensures ok ==> room || k < |old(inodes)[d].ents|
    {
      var x := inodes[d];
      var found := DirLookup(d, name);
      var off := 0;
      while off < |x.ents| && x.ents[off].inum != 0
        invariant 0 <= off <= |x.ents| && forall j :: 0 <= j < off ==> x.ents[j].inum != 0
      {
        off := off + 1;
      }
      k := off;
      if found != -1 {
        return false, k;
      }
      if off == |x.ents| && !room {
        return false, k;
      }
      inodes := AddEntry(inodes, d, off, i, name);
      return true, k;
    }

    method IsDirEmpty(d: nat) returns (b: bool)
      requires d in inodes
      ensures b <==> forall k :: 2 <= k < |inodes[d].ents| ==> inodes[d].ents[k].inum == 0
    {
      var ents := inodes[d].ents;
      var off := 2;
      while off < |ents|
        invariant 2 <= off && forall j :: 2 <= j < off && j < |ents| ==> ents[j].inum == 0
      {
        if ents[off].inum != 0 {
          return false;
        }
        off := off + 1;
      }
      return true;
    }

    /** iget or idup. */
    method GetRef(i: nat)
      requires Valid() && i in inodes
      modifies this`refs
      ensures Valid() && refs == More(old(refs), i)
    {
      hide LinksOk, TreeOk;
      refs := More(refs, i);
    }

    /** iput: the inode is freed exactly when this was the last reference and it has no links. */
    method Iput(i: nat)
      requires Valid() && Count(refs, i) > 0 && (Count(pend, i) > 0 ==> Count(refs, i) > 1)
      modifies this`inodes, this`refs
      ensures Valid() && refs == Less(old(refs), i)
      ensures i in old(inodes)
      ensures inodes == if Count(old(refs), i) == 1 && old(inodes)[i].nlink == 0 then old(inodes) - {i} else old(inodes)
    {
      hide LinksOk, TreeOk;
      PutGood(inodes, pend, Less(refs, i), i);
      if Count(refs, i) == 1 && inodes[i].nlink == 0 {
        inodes := inodes - {i};
      }
      refs := Less(refs, i);
    }

    /**
     sys_link up to the release of the old inode's lock. The counts stay right unless that of
     the file overflows.
     */
    method LinkStart(i: nat) returns (ok: bool)
      requires Valid() && i in inodes && Count(refs, i) > 0
      modifies this`inodes, this`pend
      ensures Valid() <==> old(inodes)[i].kind == Dir || old(inodes)[i].nlink < SHORT_MAX
      ensures ok <==> old(inodes)[i].kind != Dir
      ensures ok ==> pend == More(old(pend), i) && inodes == SetNlink(old(inodes), i, Short(old(inodes)[i].nlink + 1))
      ensures ok && Valid() ==> inodes[i].nlink == old(inodes)[i].nlink + 1
      ensures !ok ==> pend == old(pend) && inodes == old(inodes)
    {
      hide LinksOk, TreeOk, Short;
      if inodes[i].kind == Dir {
        return false;
      }
      LinkBeginsIff(inodes, pend, refs, i);
      TreeBasics(inodes, i);
      if inodes[i].nlink < SHORT_MAX { ShortUp(inodes[i].nlink); }
      inodes := SetNlink(inodes, i, Short(inodes[i].nlink + 1));
      pend := More(pend, i);
      return true;
    }

    /**
     The rest of sys_link: the entry, or the way back when the new path leads nowhere or
     cannot be added. The counts stay right unless the entry goes to an unlinked directory.
     */
    method LinkFinish(i: nat, found: bool, d: nat, name: string, room: bool) returns (ok: bool)
      requires Valid() && Count(pend, i) > 0 && (found ==> d in inodes && inodes[d].kind == Dir)
      modifies this`inodes, this`pend
      ensures pend == Less(old(pend), i) && i in old(inodes)
      ensures ok ==> found && LinkedIn(old(inodes), inodes, d, i, name)
      ensures ok <==> found && Unnamed(old(inodes)[d], name) && (room || Slack(old(inodes)[d]))
      ensures !ok ==> inodes == SetNlink(old(inodes), i, old(inodes)[i].nlink - 1)
      ensures Valid() <==> (ok ==> old(inodes)[d].nlink > 0)
    {
      hide LinksOk, TreeOk, Unnamed;
      LinkFails(inodes, pend, refs, i);
      if found {
        TreeBasics(inodes, d);
        TreeBasics(inodes, i);
        ghost var before := inodes;
        ghost var k;
        ok, k := DirLink(d, name, i, room);
        if ok {
          SlotAfterDots(d, before[d], k);
          LinkEndsIff(before, pend, refs, i, d, k, name);
          pend := Less(pend, i);
          return true;
        }
      }
      inodes := SetNlink(inodes, i, inodes[i].nlink - 1);
      pend := Less(pend, i);
      return false;
    }

    /** sys_unlink in directory d. */
    method Unlink(d: nat, name: string) returns (ok: bool)
      requires Valid() && d in inodes && inodes[d].kind == Dir
      modifies this`inodes
      ensures Valid()
      ensures !ok ==> inodes == old(inodes)
      ensures ok ==> UnlinkedIn(old(inodes), inodes, refs, d, name)
      ensures ok <==> name != "." && name != ".." && !Unnamed(old(inodes)[d], name) && Removable(old(inodes), d, name)
      ensures ok ==> d in inodes && Unnamed(inodes[d], name)
    {
      hide LinksOk, TreeOk, LinkSpec.Links, EmptyDir, Ranged;
      if name == "." || name == ".." {
        return false;
      }
      var k := DirLookup(d, name);
      if k == -1 {
        return false;
      }
      var c := inodes[d].ents[k].inum;
      FoundIsNamed(inodes, d, k, name);
      NamedIsLink(inodes, d, k, c);
      OneWithName(inodes, d, k, name);
      if inodes[c].kind == Dir {
        var empty := IsDirEmpty(c);
        EmptyIff(inodes[c]);
        if !empty {
          return false;
        }
      }
      NameGone(inodes, d, k, c, name);
      RemoveEntry(d, k, c);
      return true;
    }

    /** sys_unlink once the entry is found to be removable. */
    method RemoveEntry(d: nat, k: nat, c: nat)
      requires Valid() && Names(inodes, d, k, c) && c in inodes && c != d
      requires inodes[c].kind == Dir ==> EmptyDir(inodes[c])
      modifies this`inodes
      ensures Valid() && inodes == Put(Unlinked(old(inodes), d, k, c), refs, c)
    {
      hide LinksOk, TreeOk, LinkSpec.Links, EmptyDir, Ranged;
      ghost var t := inodes;
      UnlinkGood(inodes, pend, refs, d, k, c);
      var n := if inodes[c].kind == Dir then inodes[d].nlink - 1 else inodes[d].nlink;
      inodes := inodes[d := Inode(Dir, n, inodes[d].ents[k := Dirent(0, "")])];
      inodes := inodes[c := inodes[c].(nlink := inodes[c].nlink - 1)];
      assert inodes == Unlinked(t, d, k, c);
      UnlinkedRanged(t, d, k, c);
      if inodes[c].nlink == 0 && Count(refs, c) == 0 {
        inodes := inodes - {c};
      }
    }

    /**
     create in directory d: an existing file, or a new inode with its entries, or 0 and no
     change. The counts stay right unless the new inode goes to an unlinked directory or a
     new directory overflows its parent's count. Locking what the entry names panics when
     that inode is gone, which only the ".." of an unlinked directory can lead to.
     */
    method Create(d: nat, name: string, kind: Kind, free: nat, roomHere: bool, roomThere: bool)
      returns (i: nat, panic: bool)
      requires Valid() && d in inodes && inodes[d].kind == Dir && free !in inodes
      modifies this`inodes, this`refs
      ensures Valid() <==> i == 0 || !Unnamed(old(inodes)[d], name) || MayCreate(old(inodes), kind, d)
      ensures i == 0 ==> inodes == old(inodes) && refs == old(refs)
      ensures i != 0 ==> refs == More(old(refs), i)
      ensures i != 0 && !Unnamed(old(inodes)[d], name) ==>
                kind == File && inodes == old(inodes) && FileIn(inodes, d, name, i)
      ensures i != 0 && Unnamed(old(inodes)[d], name) ==> i == free && CreatedIn(old(inodes), inodes, kind, i, d, name)
      ensures Unnamed(old(inodes)[d], name) ==>
                (i != 0 <==> free != 0 && (kind == Dir ==> roomHere) && (roomThere || Slack(old(inodes)[d])))
      ensures !Unnamed(old(inodes)[d], name) && !panic ==>
                (i != 0 <==> kind == File && exists x :: FileIn(old(inodes), d, name, x))
      ensures panic <==> name == ".." && UpGone(old(inodes), d)
    {
      hide LinksOk, TreeOk, LinkSpec.Links, Unnamed, Short, CreatedIn;
      TreeBasics(inodes, d);
      var found := DirLookup(d, name);
      if found != -1 {
        FoundName(inodes[d], found, name);
        GoneIsUp(inodes, d, found, name);
        i := inodes[d].ents[found].inum;
        if i !in inodes {
          return 0, true;
        }
        FoundRef(inodes, pend, refs, i);
        OneFile(inodes, d, found, name);
        if kind == File && inodes[i].kind != Dir {
          refs := More(refs, i);
          return i, false;
        }
        return 0, false;
      }
      UpHasName(inodes, d, name);
      panic := false;
      if free == 0 {
        return 0, panic;
      }
      i := CreateNew(d, name, kind, free, roomHere, roomThere);
    }

    /** The part of create after the name was not found and inode `free` was allocated. */
    method CreateNew(d: nat, name: string, kind: Kind, free: nat, roomHere: bool, roomThere: bool) returns (i: nat)
      requires Valid() && d in inodes && inodes[d].kind == Dir
      requires free !in inodes && free != 0 && Unnamed(inodes[d], name)
      modifies this`inodes, this`refs
      ensures Valid() <==> i == 0 || MayCreate(old(inodes), kind, d)
      ensures i == 0 ==> inodes == old(inodes) && refs == old(refs)
      ensures i != 0 ==> i == free && refs == More(old(refs), i) && CreatedIn(old(inodes), inodes, kind, i, d, name)
      ensures i != 0 <==> (kind == Dir ==> roomHere) && (roomThere || Slack(old(inodes)[d]))
    {
      hide LinksOk, TreeOk, RefsOk, LinkSpec.Links, Unnamed, Short, Ranged;
      ghost var t := inodes;
      TreeBasics(inodes, d);
      inodes := inodes[free := Inode(kind, 1, [])];
      var ok := true;
      if kind == Dir {
        ok := MakeDots(free, d, roomHere);
      }
      ghost var k := 0;
      if ok {
        ok, k := DirLink(d, name, free, roomThere);
      }
      if !ok {
        inodes := inodes - {free};
        assert inodes == t;
        return 0;
      }
      SlotAfterDots(d, t[d], k);
      CreatedRanged(t, kind, free, d, k, name);
      CreateIff(t, pend, refs, kind, free, d, k, name);
      if kind == Dir {
        inodes := inodes[d := inodes[d].(nlink := Short(inodes[d].nlink + 1))];
      }
      assert inodes == Created(t, kind, free, d, k, name);
      refs := More(refs, free);
      return free;
    }

    /** The entries "." and ".." of a new directory. */
    method MakeDots(i: nat, d: nat, room: bool) returns (ok: bool)
      requires i in inodes && i != 0 && d != 0 && inodes[i].ents == []
      modifies this`inodes
      ensures inodes.Keys == old(inodes).Keys && forall x :: x in inodes && x != i ==> inodes[x] == old(inodes)[x]
      ensures ok <==> room
      ensures ok ==> inodes[i] == old(inodes)[i].(ents := [Dirent(i, "."), Dirent(d, "..")])
    {
      ghost var k;
      ok, k := DirLink(i, ".", i, room);
      if ok {
        assert inodes[i].ents == [Dirent(i, ".")];
        ok, k := DirLink(i, "..", d, room);
      }
    }
  }

  lemma CreatedRanged(t: Table, kind: Kind, i: nat, d: nat, k: nat, name: string)
    requires Ranged(t) && d in t && k <= |t[d].ents|
    ensures Ranged(Created(t, kind, i, d, k, name)) && t[d].nlink <= SHORT_MAX
  {
    hide Short;
  }

  lemma UnlinkedRanged(t: Table, d: nat, k: nat, c: nat)
    requires Ranged(t) && Names(t, d, k, c) && c in t && c != d
    ensures Ranged(Unlinked(t, d, k, c)) && Ranged(Unlinked(t, d, k, c) - {c})
  {
  }

  function RootOnly(): (t: Table) {
    map[ROOT := Inode(Dir, 1, [Dirent(ROOT, "."), Dirent(ROOT, "..")])]
  }

  lemma RootGood()
    ensures Good(RootOnly(), map[], map[])
  {
    var t := RootOnly();
    forall p: (nat, nat) ensures p in LinkSpec.Links(t, ROOT) <==> p in {(ROOT, 1)} {
      LinkMember(t, p.0, p.1, ROOT);
    }
    assert LinkSpec.Links(t, ROOT) == {(ROOT, 1)};
  }

  /** The name was that of a file, or of an empty directory, and its slot is empty now. */
  ghost predicate UnlinkedIn(t: Table, t': Table, refs: map<nat, nat>, d: nat, name: string) {
    exists k: nat, c: nat ::
      && Names(t, d, k, c) && t[d].ents[k].name == name && c in t && c != d
      && t' == Put(Unlinked(t, d, k, c), refs, c)
  }

  ghost predicate LinkedIn(t: Table, t': Table, d: nat, i: nat, name: string) {
    && d in t && Unnamed(t[d], name)
    && exists k :: 2 <= k && FreeSlot(t[d], k) && t' == AddEntry(t, d, k, i, name)
  }

  /** The directory is linked, and its count has room for the ".." of a new directory. */
  predicate MayCreate(t: Table, kind: Kind, d: nat)
    requires d in t
  {
    t[d].nlink > 0 && HasRoom(t, kind, d)
  }

  /** The directory was unlinked, and so was its parent, which is gone. */
  predicate UpGone(t: Table, d: nat)
    requires d in t
  {
    t[d].nlink == 0 && |t[d].ents| >= 2 && t[d].ents[1].inum !in t
  }

  /** Of all entries of a directory only the ".." of an unlinked one may name an inode that is gone. */
  lemma GoneIsUp(t: Table, d: nat, k: nat, name: string)
    requires TreeOk(t) && d in t && t[d].kind == Dir && k < |t[d].ents| && t[d].ents[k].inum != 0
    requires t[d].ents[k].name == name
    ensures t[d].ents[k].inum !in t <==> name == ".." && UpGone(t, d)
  {
    assert DirOk(d, t[d]) && t[d].nlink >= 0;
    if t[d].nlink > 0 {
      assert EntryOk(t, d, k);
    } else {
      assert EmptyDir(t[d]);
    }
    if name == ".." { assert k == 1; }
  }

  lemma UpHasName(t: Table, d: nat, name: string)
    requires TreeOk(t) && d in t && t[d].kind == Dir && Unnamed(t[d], name)
    ensures name != ".."
  {
    assert DirOk(d, t[d]);
  }

  ghost predicate CreatedIn(t: Table, t': Table, kind: Kind, i: nat, d: nat, name: string) {
    exists k: nat :: CanCreate(t, i, d, k, name) && t' == Created(t, kind, i, d, k, name)
  }

  predicate FileIn(t: Table, d: nat, name: string, i: nat) {
    d in t && i in t && i != 0 && t[i].kind != Dir && Dirent(i, name) in t[d].ents
  }

  lemma FoundRef(t: Table, pend: map<nat, nat>, refs: map<nat, nat>, i: nat)
    requires RefsOk(t, pend, refs) && i in t
    ensures RefsOk(t, pend, More(refs, i))
  {
  }

  /** A slot of the directory is empty. */
  predicate Slack(x: Inode) {
    exists k :: 0 <= k < |x.ents| && x.ents[k].inum == 0
  }

  lemma EmptyIff(x: Inode)
    ensures EmptyDir(x) <==> forall k :: 2 <= k < |x.ents| ==> x.ents[k].inum == 0
  {
  }

  lemma NameGone(t: Table, d: nat, k: nat, c: nat, name: string)
    requires TreeOk(t) && Names(t, d, k, c) && c in t && c != d && t[d].ents[k].name == name
    ensures Unnamed(Unlinked(t, d, k, c)[d], name)
  {
    assert DirOk(d, t[d]);
  }

  /** An entry of this name stands for a file, or for a directory with nothing but "." and "..". */
  ghost predicate Removable(t: Table, d: nat, name: string)
    requires d in t
  {
    forall k :: 0 <= k < |t[d].ents| && t[d].ents[k].inum != 0 && t[d].ents[k].name == name ==>
      t[d].ents[k].inum in t && (t[t[d].ents[k].inum].kind == Dir ==> EmptyDir(t[t[d].ents[k].inum]))
  }

  lemma SlotAfterDots(d: nat, x: Inode, k: nat)
    requires DirOk(d, x) && x.kind == Dir && d != 0 && FreeSlot(x, k)
    ensures k >= 2
  {
  }

  lemma FoundName(x: Inode, k: nat, name: string)
    requires k < |x.ents| && x.ents[k].inum != 0 && x.ents[k].name == name
    ensures !Unnamed(x, name)
  {
  }

  lemma FoundIsNamed(t: Table, d: nat, k: nat, name: string)
    requires TreeOk(t) && d in t && t[d].kind == Dir && k < |t[d].ents| && t[d].ents[k].inum != 0
    requires t[d].ents[k].name == name && name != "." && name != ".."
    ensures Names(t, d, k, t[d].ents[k].inum) && !Unnamed(t[d], name)
  {
    assert DirOk(d, t[d]);
  }

  /** The entry found decides whether the name is that of a file. */
  lemma OneFile(t: Table, d: nat, k: nat, name: string)
    requires TreeOk(t) && d in t && k < |t[d].ents| && t[d].ents[k].inum != 0 && t[d].ents[k].name == name
        && t[d].ents[k].inum in t
    ensures t[t[d].ents[k].inum].kind != Dir ==> FileIn(t, d, name, t[d].ents[k].inum)
    ensures t[t[d].ents[k].inum].kind == Dir ==> !exists x :: FileIn(t, d, name, x)
  {
    assert DirOk(d, t[d]);
    assert t[d].ents[k] == Dirent(t[d].ents[k].inum, name);
    forall x | FileIn(t, d, name, x) ensures x == t[d].ents[k].inum {
      var l :| 0 <= l < |t[d].ents| && t[d].ents[l] == Dirent(x, name);
    }
  }

  lemma OneWithName(t: Table, d: nat, k: nat, name: string)
    requires TreeOk(t) && d in t && k < |t[d].ents| && t[d].ents[k].inum != 0 && t[d].ents[k].name == name
        && t[d].ents[k].inum in t
    ensures Removable(t, d, name) <==> (t[t[d].ents[k].inum].kind == Dir ==> EmptyDir(t[t[d].ents[k].inum]))
  {
    hide EmptyDir;
    assert DirOk(d, t[d]);
    forall l | 0 <= l < |t[d].ents| && t[d].ents[l].inum != 0 && t[d].ents[l].name == name ensures l == k {
    }
  }

  // -------------------------------------------- runs in which the counts go wrong

  /** A new file system with the directory "d", inode 2, and the file "f", inode 3, both in use. */
  method TwoEntries() returns (ns: Namespace)
    ensures fresh(ns) && ns.Valid() && ns.pend == map[] && Count(ns.refs, 2) == 1 && Count(ns.refs, 3) == 1
    ensures ns.inodes == Created(Created(RootOnly(), Dir, 2, ROOT, 2, "d"), File, 3, ROOT, 3, "f")
  {
    hide Good, LinkSpec.Links;
    ns := new Namespace();
    var d, panic := ns.Create(ROOT, "d", Dir, 2, true, true);
    assert ns.inodes == Created(RootOnly(), Dir, 2, ROOT, 2, "d");
    var f;
    f, panic := ns.Create(ROOT, "f", File, 3, true, true);
  }

  /** A directory that somebody still uses after it was removed. */
  method RemovedDirectory() returns (ns: Namespace)
    ensures fresh(ns) && ns.Valid() && ns.pend == map[]
    ensures ROOT in ns.inodes && 2 in ns.inodes && 3 in ns.inodes && 4 !in ns.inodes
    ensures ns.inodes[2].kind == Dir && ns.inodes[2].nlink == 0
    ensures ns.inodes[2].ents == [Dirent(2, "."), Dirent(ROOT, "..")]
    ensures ns.inodes[3].kind == File && ns.inodes[3].nlink == 1 && Count(ns.refs, 3) == 1
  {
    hide Good, LinkSpec.Links;
    ns := TwoEntries();
    var t := ns.inodes;
    assert t[ROOT].ents == [Dirent(ROOT, "."), Dirent(ROOT, ".."), Dirent(2, "d"), Dirent(3, "f")];
    var ok := ns.Unlink(ROOT, "d");
    assert ok by { assert t[ROOT].ents[2].name == "d"; }
    assert ns.inodes == Unlinked(t, ROOT, 2, 2);
  }

  /** create in that directory makes an inode whose count no link accounts for. */
  method CreateInRemoved() returns (ns: Namespace)
    ensures fresh(ns) && !ns.Valid()
    ensures 4 in ns.inodes && ns.inodes[4].nlink == 1 && LinkSpec.Links(ns.inodes, 4) == {}
  {
    hide Good, CreatedIn;
    ns := RemovedDirectory();
    ghost var t, refs := ns.inodes, ns.refs;
    var i, panic := ns.Create(2, "g", File, 4, true, true);
    assert i == 4;
    CreatedUncounted(t, ns.pend, refs, ns.inodes, 4, 2, "g");
  }

  lemma CreatedUncounted(t: Table, pend: map<nat, nat>, refs: map<nat, nat>, t': Table, i: nat, d: nat, name: string)
    requires Good(t, pend, refs) && d in t && t[d].nlink == 0 && CreatedIn(t, t', File, i, d, name)
    ensures i in t' && t'[i].nlink == 1 && LinkSpec.Links(t', i) == {}
  {
    hide TreeOk, LinkSpec.Links;
    var k: nat :| CanCreate(t, i, d, k, name) && t' == Created(t, File, i, d, k, name);
    CreatedLinks(t, File, i, d, k, name, i);
    NoLinksTo(t, i);
  }

  /** So does a link made there. */
  method LinkInRemoved() returns (ns: Namespace)
    ensures fresh(ns) && !ns.Valid()
    ensures 3 in ns.inodes && ns.inodes[3].nlink == 2 && |LinkSpec.Links(ns.inodes, 3)| == 1
  {
    hide Good, LinkedIn;
    ns := RemovedDirectory();
    var ok := ns.LinkStart(3);
    assert ns.Valid();
    ghost var t, pend := ns.inodes, ns.pend;
    ok := ns.LinkFinish(3, true, 2, "g", true);
    assert ok;
    LinkedUncounted(t, pend, ns.refs, ns.inodes, 2, 3, "g");
  }

  lemma LinkedUncounted(t: Table, pend: map<nat, nat>, refs: map<nat, nat>, t': Table, d: nat, i: nat, name: string)
    requires Good(t, pend, refs) && Count(pend, i) == 1 && i in t && i != d
    requires d in t && t[d].nlink == 0 && LinkedIn(t, t', d, i, name)
    ensures i in t' && t'[i].nlink == t[i].nlink == |LinkSpec.Links(t', i)| + 1
  {
    hide LinkSpec.Links;
    var k :| 2 <= k && FreeSlot(t[d], k) && t' == AddEntry(t, d, k, i, name);
    LinksAdd(t, d, k, i, name, i);
  }

  function Letter(n: nat): (c: char)
    requires n < 32
    ensures c as int - 'A' as int == n
  {
    'A' + (n as char)
  }

  /** Names for many links. */
  function Nth(n: nat): (name: string)
    requires n <= SHORT_MAX
  {
    var q := n / 32;
    ['l', Letter(q / 32), Letter(q % 32), Letter(n % 32)]
  }

  function Digit(c: char): (n: int) {
    c as int - 'A' as int
  }

  lemma NthBack(n: nat)
    requires n <= SHORT_MAX
    ensures |Nth(n)| == 4 && 32 * (32 * Digit(Nth(n)[1]) + Digit(Nth(n)[2])) + Digit(Nth(n)[3]) == n
  {
    hide Letter;
    var q := n / 32;
    assert q == 32 * (q / 32) + q % 32;
    assert n == 32 * q + n % 32;
  }

  lemma NthDiffer(m: nat, n: nat)
    requires m < n <= SHORT_MAX
    ensures Nth(m) != Nth(n)
  {
    hide Nth, Digit;
    NthBack(m);
    NthBack(n);
  }

  /** The state of the run below: one file with `n` links from the root. */
  ghost predicate Linked(ns: Namespace, n: nat)
    reads ns
  {
    && ns.Valid() && ROOT in ns.inodes && 2 in ns.inodes && Count(ns.refs, 2) > 0 && Count(ns.pend, 2) == 0
    && ns.inodes[2].kind == File && ns.inodes[2].nlink == n && ns.inodes[ROOT].kind == Dir && ns.inodes[ROOT].nlink > 0
    && forall m: nat :: n <= m <= SHORT_MAX ==> Unnamed(ns.inodes[ROOT], Nth(m))
  }

  method LinkAgain(ns: Namespace, n: nat)
    requires Linked(ns, n) && 0 < n < SHORT_MAX
    modifies ns`inodes, ns`pend
    ensures Linked(ns, n + 1)
  {
    hide Good, Nth;
    var ok := ns.LinkStart(2);
    assert ns.Valid();
    ghost var t := ns.inodes;
    assert t[ROOT] == old(ns.inodes)[ROOT];
    ok := ns.LinkFinish(2, true, ROOT, Nth(n), true);
    assert ok;
    ghost var k :| 2 <= k && FreeSlot(t[ROOT], k) && ns.inodes == AddEntry(t, ROOT, k, 2, Nth(n));
    forall m: nat | n + 1 <= m <= SHORT_MAX ensures Unnamed(ns.inodes[ROOT], Nth(m)) {
      NthDiffer(n, m);
      assert Unnamed(t[ROOT], Nth(m));
    }
  }

  /** One link more than a short can count. */
  method TooManyLinks() returns (ns: Namespace)
    ensures fresh(ns) && !ns.Valid()
    ensures 2 in ns.inodes && ns.inodes[2].nlink == -0x8000 && |LinkSpec.Links(ns.inodes, 2)| == SHORT_MAX
  {
    hide Good, Nth;
    ns := new Namespace();
    var f, panic := ns.Create(ROOT, "f", File, 2, true, true);
    assert ns.inodes == Created(RootOnly(), File, 2, ROOT, 2, "f");
    forall m: nat | m <= SHORT_MAX ensures Unnamed(ns.inodes[ROOT], Nth(m)) {
      NotNth(m);
    }
    var n := 1;
    while n < SHORT_MAX
      invariant 1 <= n <= SHORT_MAX && Linked(ns, n)
      modifies ns`inodes, ns`pend
    {
      LinkAgain(ns, n);
      n := n + 1;
    }
    ghost var t := ns.inodes;
    AllCounted(t, ns.pend, ns.refs, 2);
    var ok := ns.LinkStart(2);
    FileCountLinks(t, 2, Short(SHORT_MAX + 1), 2);
  }

  lemma AllCounted(t: Table, pend: map<nat, nat>, refs: map<nat, nat>, i: nat)
    requires Good(t, pend, refs) && i in t && Count(pend, i) == 0
    ensures t[i].nlink == |LinkSpec.Links(t, i)|
  {
    hide TreeOk, RefsOk;
  }

  lemma NotNth(m: nat)
    requires m <= SHORT_MAX
    ensures Nth(m) != "f" && Nth(m) != "." && Nth(m) != ".."
  {
    assert |Nth(m)| == 4;
  }
}
