/**
 * Directories and link counts (kernel/sysfile.c, kernel/fs.c): what nlink counts, and
 * why create, link and unlink keep it right.
 */
module LinkSpec {
  import opened Collections

  const ROOT: nat := 1

  datatype Kind = File | Dir | Device

  /** A slot of a directory; inode number 0 marks an empty one. */
  datatype Dirent = Dirent(inum: nat, name: string)

  datatype Inode = Inode(kind: Kind, nlink: int, ents: seq<Dirent>)

  type Table = map<nat, Inode>

  const SHORT_MAX: int := 0x7fff

  /** nlink is a 16-bit signed integer. */
  function Short(x: int): (s: int)
    ensures s <= SHORT_MAX
  {
    var low := x % 0x1_0000;
    if low > SHORT_MAX then low - 0x1_0000 else low
  }

  /** Slot k of directory d is a link to inode i: d itself is linked, and "." does not count. */
  predicate IsLink(t: Table, d: nat, k: nat, i: nat) {
    && d in t && t[d].kind == Dir && t[d].nlink > 0 && k < |t[d].ents| && t[d].ents[k].inum == i
    && t[d].ents[k].name != "."
  }

  ghost function Links(t: Table, i: nat): (s: set<(nat, nat)>) {
    set d, k | d in t && 0 <= k < |t[d].ents| && IsLink(t, d, k, i) :: (d, k)
  }

  function Count(p: map<nat, nat>, i: nat): (n: nat) {
    if i in p then p[i] else 0
  }

  /** nlink counts the links, and those that a sys_link is about to make. */
  ghost predicate LinksOk(t: Table, pend: map<nat, nat>) {
    forall i :: i in t ==> t[i].nlink == |Links(t, i)| + Count(pend, i)
  }

  /** "." and ".." come first, and no two live entries have the same name. */
  ghost predicate DirOk(d: nat, x: Inode) {
    && (x.kind != Dir ==> x.ents == [])
    && (x.kind == Dir ==> |x.ents| >= 2 && x.ents[0] == Dirent(d, ".") && x.ents[1].name == ".." && x.ents[1].inum != 0)
    && (forall i, j :: 0 <= i < j < |x.ents| && x.ents[i].inum != 0 && x.ents[j].inum != 0 ==>
          x.ents[i].name != x.ents[j].name)
  }

  /** Slot k of d names something: what it names exists, and a directory named in d has d as its parent. */
  ghost predicate EntryOk(t: Table, d: nat, k: nat)
    requires d in t && k < |t[d].ents|
  {
    var c := t[d].ents[k].inum;
    c != 0 ==>
      && c in t
      && (k >= 2 && t[c].kind == Dir ==> c != ROOT && c != d && |t[c].ents| >= 2 && t[c].ents[1].inum == d)
  }

  ghost predicate OneName(t: Table, d: nat, k: nat, l: nat)
    requires d in t && k < |t[d].ents| && l < |t[d].ents|
  {
    var c := t[d].ents[k].inum;
    2 <= k < l && c != 0 && c == t[d].ents[l].inum ==> c in t && t[c].kind != Dir
  }

  predicate EmptyDir(x: Inode) {
    forall k :: 2 <= k < |x.ents| ==> x.ents[k].inum == 0
  }

  /** A linked directory other than the root has a linked parent that names it. */
  ghost predicate UpOk(t: Table, s: nat)
    requires s in t && |t[s].ents| >= 2
  {
    var p := t[s].ents[1].inum;
    && p in t && t[p].kind == Dir && t[p].nlink > 0
    && (s == ROOT ==> p == ROOT)
    && (s != ROOT ==> exists k :: 2 <= k < |t[p].ents| && t[p].ents[k].inum == s)
  }

  /** The shape of the tree. */
  ghost predicate TreeOk(t: Table) {
    && 0 !in t && ROOT in t && t[ROOT].kind == Dir && t[ROOT].nlink > 0
    && (forall d :: d in t ==> DirOk(d, t[d]) && t[d].nlink >= 0)
    && (forall d :: d in t && t[d].kind == Dir && t[d].nlink == 0 ==> EmptyDir(t[d]))
    && (forall d, k :: d in t && t[d].nlink > 0 && 0 <= k < |t[d].ents| ==> EntryOk(t, d, k))
    && (forall d, k, l :: d in t && t[d].nlink > 0 && 0 <= k < |t[d].ents| && 0 <= l < |t[d].ents| ==>
          OneName(t, d, k, l))
    && (forall s :: s in t && t[s].kind == Dir && t[s].nlink > 0 ==> |t[s].ents| >= 2 && UpOk(t, s))
  }

  /**
   Only files wait for a link, and only existing inodes are referred to; what has neither link nor reference is
   gone.
   */
  ghost predicate RefsOk(t: Table, pend: map<nat, nat>, refs: map<nat, nat>) {
    && (forall i :: Count(pend, i) > 0 ==> i in t && t[i].kind != Dir && Count(refs, i) > 0)
    && (forall i :: Count(refs, i) > 0 ==> i in t)
    && (forall i :: i in t && t[i].nlink == 0 ==> Count(refs, i) > 0)
  }

  ghost predicate Good(t: Table, pend: map<nat, nat>, refs: map<nat, nat>) {
    LinksOk(t, pend) && TreeOk(t) && RefsOk(t, pend, refs)
  }

  /** Every count is what a short holds. */
  predicate Ranged(t: Table) {
    forall i :: i in t ==> t[i].nlink <= SHORT_MAX
  }

  // ------------------------------------------------------------------ operations

  /** The directory with entry (i, name) in slot k, its first empty one or one past the end. */
  function WithEntry(x: Inode, k: nat, i: nat, name: string): (y: Inode)
    requires k <= |x.ents|
  {
    x.(ents := if k < |x.ents| then x.ents[k := Dirent(i, name)] else x.ents + [Dirent(i, name)])
  }

  predicate FreeSlot(x: Inode, k: nat) {
    k <= |x.ents| && (k < |x.ents| ==> x.ents[k].inum == 0)
  }

  /** No live entry has this name. */
  predicate Unnamed(x: Inode, name: string) {
    forall k :: 0 <= k < |x.ents| && x.ents[k].inum != 0 ==> x.ents[k].name != name
  }

  /** dirlink. */
  function AddEntry(t: Table, d: nat, k: nat, i: nat, name: string): (t': Table)
    requires d in t && k <= |t[d].ents|
  {
    t[d := WithEntry(t[d], k, i, name)]
  }

  /** A new entry adds one link to its target when the directory is linked, and none otherwise. */
  lemma LinksAdd(t: Table, d: nat, k: nat, c: nat, name: string, i: nat)
    requires d in t && t[d].kind == Dir && FreeSlot(t[d], k) && c != 0 && i != 0 && name != "."
    ensures var t' := AddEntry(t, d, k, c, name);
      Links(t', i) == Links(t, i) + (if i == c && t[d].nlink > 0 then {(d, k)} else {}) && (d, k) !in Links(t, i)
  {
    var t' := AddEntry(t, d, k, c, name);
    forall x, y ensures IsLink(t', x, y, i) <==> IsLink(t, x, y, i) || (x == d && y == k && i == c && t[d].nlink > 0) {
    }
    var more := if i == c && t[d].nlink > 0 then {(d, k)} else {};
    forall p ensures p in Links(t', i) <==> p in Links(t, i) + more {
    }
  }

  /** Tables that differ in link counts only, of inodes whose entries count before and after, have the same links. */
  lemma LinksSame(t: Table, t': Table, i: nat)
    requires t'.Keys == t.Keys
    requires forall x :: x in t ==>
               && t'[x].kind == t[x].kind && t'[x].ents == t[x].ents
               && (t[x].kind == Dir ==> (t'[x].nlink > 0 <==> t[x].nlink > 0))
    ensures Links(t', i) == Links(t, i)
  {
    forall x, y ensures IsLink(t', x, y, i) <==> IsLink(t, x, y, i) {
    }
    forall p ensures p in Links(t', i) <==> p in Links(t, i) {
    }
  }

  /** No linked directory names an inode that does not exist. */
  lemma NoLinksTo(t: Table, i: nat)
    requires TreeOk(t) && i !in t && i != 0
    ensures Links(t, i) == {}
  {
    forall x: nat, y: nat ensures !IsLink(t, x, y, i) {
      if x in t && t[x].nlink > 0 && y < |t[x].ents| { assert EntryOk(t, x, y); }
    }
  }

  // ---- sys_link: first the count, later the entry or the count again

  function SetNlink(t: Table, i: nat, n: int): (t': Table)
    requires i in t
  {
    t[i := t[i].(nlink := n)]
  }

  function More(p: map<nat, nat>, i: nat): (q: map<nat, nat>) {
    p[i := Count(p, i) + 1]
  }

  function Less(p: map<nat, nat>, i: nat): (q: map<nat, nat>)
    requires Count(p, i) > 0
  {
    p[i := Count(p, i) - 1]
  }

  /** A file's count changes, and nothing else. */
  lemma FileCountTree(t: Table, i: nat, n: int)
    requires TreeOk(t) && i in t && t[i].kind != Dir && n >= 0
    ensures TreeOk(SetNlink(t, i, n))
  {
    var t' := SetNlink(t, i, n);
    forall d, k | d in t' && t'[d].nlink > 0 && 0 <= k < |t'[d].ents| ensures EntryOk(t', d, k) {
      assert d != i;
      assert EntryOk(t, d, k);
    }
    forall d, k, l | d in t' && t'[d].nlink > 0 && 0 <= k < |t'[d].ents| && 0 <= l < |t'[d].ents|
      ensures OneName(t', d, k, l)
    {
      assert d != i;
      assert OneName(t, d, k, l);
    }
    forall s | s in t' && t'[s].kind == Dir && t'[s].nlink > 0 ensures UpOk(t', s) {
      assert UpOk(t, s);
    }
  }

  lemma FileCountLinks(t: Table, i: nat, n: int, j: nat)
    requires i in t && t[i].kind != Dir
    ensures Links(SetNlink(t, i, n), j) == Links(t, j)
  {
    LinksSame(t, SetNlink(t, i, n), j);
  }

  lemma ShortExact(x: int)
    requires 0 <= x <= SHORT_MAX
    ensures Short(x) == x
  {
  }

  lemma TreeBasics(t: Table, i: nat)
    requires TreeOk(t) && i in t
    ensures i != 0 && t[i].nlink >= 0 && DirOk(i, t[i])
  {
  }

  /** The first half of sys_link, on a file somebody refers to, is right exactly when the count does not overflow. */
  lemma LinkBeginsIff(t: Table, pend: map<nat, nat>, refs: map<nat, nat>, i: nat)
    requires Good(t, pend, refs) && i in t && t[i].kind != Dir && Count(refs, i) > 0 && t[i].nlink <= SHORT_MAX
    ensures Good(SetNlink(t, i, Short(t[i].nlink + 1)), More(pend, i), refs) <==> t[i].nlink < SHORT_MAX
  {
    hide TreeOk, Links, Short;
    TreeBasics(t, i);
    if t[i].nlink < SHORT_MAX {
      ShortExact(t[i].nlink + 1);
      var t' := SetNlink(t, i, t[i].nlink + 1);
      FileCountTree(t, i, t[i].nlink + 1);
      forall j | j in t' ensures t'[j].nlink == |Links(t', j)| + Count(More(pend, i), j) {
        FileCountLinks(t, i, t[i].nlink + 1, j);
      }
    } else {
      Overflow();
      assert SetNlink(t, i, Short(t[i].nlink + 1))[i].nlink < 0;
    }
  }

  lemma Overflow()
    ensures Short(SHORT_MAX + 1) == -0x8000
  {
  }

  /** sys_link gives up: the count goes back. */
  lemma LinkFails(t: Table, pend: map<nat, nat>, refs: map<nat, nat>, i: nat)
    requires Good(t, pend, refs) && Count(pend, i) > 0
    ensures i in t && t[i].kind != Dir && t[i].nlink > 0 && Good(SetNlink(t, i, t[i].nlink - 1), Less(pend, i), refs)
  {
    hide TreeOk, Links;
    TreeBasics(t, i);
    var t' := SetNlink(t, i, t[i].nlink - 1);
    FileCountTree(t, i, t[i].nlink - 1);
    forall j | j in t' ensures t'[j].nlink == |Links(t', j)| + Count(Less(pend, i), j) {
      FileCountLinks(t, i, t[i].nlink - 1, j);
    }
  }

  lemma EntryDirOk(d: nat, x: Inode, k: nat, i: nat, name: string)
    requires DirOk(d, x) && x.kind == Dir && FreeSlot(x, k) && k >= 2 && Unnamed(x, name)
    ensures DirOk(d, WithEntry(x, k, i, name))
  {
  }

  /** An entry for a file is added to a linked directory. */
  lemma FileEntryTree(t: Table, d: nat, k: nat, i: nat, name: string)
    requires TreeOk(t) && d in t && t[d].kind == Dir && t[d].nlink > 0 && FreeSlot(t[d], k) && k >= 2
        && Unnamed(t[d], name) && i in t && t[i].kind != Dir
    ensures TreeOk(AddEntry(t, d, k, i, name))
  {
    hide DirOk, UpOk, Unnamed;
    var t' := AddEntry(t, d, k, i, name);
    EntryDirOk(d, t[d], k, i, name);
    forall x, y | x in t' && t'[x].nlink > 0 && 0 <= y < |t'[x].ents| ensures EntryOk(t', x, y) {
      if x != d || y != k { assert EntryOk(t, x, y); }
    }
    forall x, y, z | x in t' && t'[x].nlink > 0 && 0 <= y < |t'[x].ents| && 0 <= z < |t'[x].ents|
      ensures OneName(t', x, y, z)
    {
      if x != d || (y != k && z != k) { assert OneName(t, x, y, z); }
    }
    forall s | s in t' && t'[s].kind == Dir && t'[s].nlink > 0 ensures |t'[s].ents| >= 2 && UpOk(t', s) {
      UpWithEntry(t, d, k, i, name, s);
    }
  }

  lemma UpWithEntry(t: Table, d: nat, k: nat, i: nat, name: string, s: nat)
    requires TreeOk(t) && d in t && FreeSlot(t[d], k) && k >= 2 && s in t && t[s].kind == Dir && t[s].nlink > 0
    ensures var t' := AddEntry(t, d, k, i, name); |t'[s].ents| >= 2 && UpOk(t', s)
  {
    var t' := AddEntry(t, d, k, i, name);
    assert UpOk(t, s) && DirOk(s, t[s]);
    UpKept(t, t', s);
  }

  /** A parent still names its child when the slots that name it did not change. */
  lemma UpKept(t: Table, t': Table, s: nat)
    requires s in t && s in t' && s != 0 && |t[s].ents| >= 2 && |t'[s].ents| >= 2 && UpOk(t, s)
        && t'[s].ents[1] == t[s].ents[1]
    requires var p := t[s].ents[1].inum; p in t' && t'[p].kind == Dir && t'[p].nlink > 0 && |t'[p].ents| >= |t[p].ents|
    requires var p := t[s].ents[1].inum; forall y :: 0 <= y < |t[p].ents| && t[p].ents[y].inum == s ==>
               t'[p].ents[y] == t[p].ents[y]
    ensures UpOk(t', s)
  {
    var p := t[s].ents[1].inum;
    if s != ROOT {
      var y :| 2 <= y < |t[p].ents| && t[p].ents[y].inum == s;
      assert t'[p].ents[y].inum == s;
    }
  }

  /** sys_link succeeds exactly right when the directory is still linked. */
  lemma LinkEndsIff(t: Table, pend: map<nat, nat>, refs: map<nat, nat>, i: nat, d: nat, k: nat, name: string)
    requires Good(t, pend, refs) && Count(pend, i) > 0 && d in t && t[d].kind == Dir && FreeSlot(t[d], k)
        && k >= 2 && Unnamed(t[d], name)
    ensures Good(AddEntry(t, d, k, i, name), Less(pend, i), refs) <==> t[d].nlink > 0
  {
    hide TreeOk, Links;
    var t', q := AddEntry(t, d, k, i, name), Less(pend, i);
    TreeBasics(t, i);
    TreeBasics(t, d);
    assert t[d].ents[0].name == ".";
    LinksAdd(t, d, k, i, name, i);
    if t[d].nlink > 0 {
      FileEntryTree(t, d, k, i, name);
      forall j | j in t' ensures t'[j].nlink == |Links(t', j)| + Count(q, j) {
        TreeBasics(t, j);
        LinksAdd(t, d, k, i, name, j);
      }
    } else {
      assert t'[i] == t[i];
      assert !LinksOk(t', q);
    }
  }

  // ---- create

  /** The new inode: a directory starts with "." and "..". */
  function Fresh(kind: Kind, i: nat, d: nat): (x: Inode) {
    Inode(kind, 1, if kind == Dir then [Dirent(i, "."), Dirent(d, "..")] else [])
  }

  /** create, when nothing fails: the new inode, its entry, and for a directory one more link to its parent. */
  function Created(t: Table, kind: Kind, i: nat, d: nat, k: nat, name: string): (t': Table)
    requires d in t && k <= |t[d].ents|
  {
    var n := if kind == Dir then Short(t[d].nlink + 1) else t[d].nlink;
    t[i := Fresh(kind, i, d)][d := WithEntry(t[d], k, i, name).(nlink := n)]
  }

  predicate CanCreate(t: Table, i: nat, d: nat, k: nat, name: string) {
    && d in t && t[d].kind == Dir && FreeSlot(t[d], k) && k >= 2 && Unnamed(t[d], name)
    && i !in t && i != 0 && t[d].nlink <= SHORT_MAX
  }

  /** The parent's count has room for the ".." of a new directory. */
  predicate HasRoom(t: Table, kind: Kind, d: nat)
    requires d in t
  {
    kind == Dir ==> t[d].nlink < SHORT_MAX
  }

  /** What the count of the parent becomes. */
  lemma CreatedNlink(t: Table, kind: Kind, i: nat, d: nat, k: nat, name: string)
    requires CanCreate(t, i, d, k, name) && t[d].nlink >= 0 && HasRoom(t, kind, d)
    ensures Created(t, kind, i, d, k, name)[d].nlink == t[d].nlink + if kind == Dir then 1 else 0
  {
    hide Unnamed, Short;
    if kind == Dir { ShortUp(t[d].nlink); }
  }

  lemma CreatedLinks(t: Table, kind: Kind, i: nat, d: nat, k: nat, name: string, j: nat)
    requires TreeOk(t) && CanCreate(t, i, d, k, name) && j != 0 && (kind != Dir || t[d].nlink > 0)
    requires HasRoom(t, kind, d)
    ensures Links(Created(t, kind, i, d, k, name), j) ==
              Links(t, j) + (if j == i && t[d].nlink > 0 then {(d, k)} else {})
              + (if j == d && kind == Dir then {(i, 1)} else {})
    ensures (d, k) !in Links(t, j) && (i, 1) !in Links(t, j) && i != d
  {
    hide TreeOk, Unnamed, Short;
    var t' := Created(t, kind, i, d, k, name);
    TreeBasics(t, d);
    NotDot(d, t[d], name);
    CreatedNlink(t, kind, i, d, k, name);
    forall x: nat, y: nat
      ensures IsLink(t', x, y, j) <==>
              || IsLink(t, x, y, j)
              || (x == d && y == k && j == i && t[d].nlink > 0)
              || (x == i && y == 1 && j == d && kind == Dir)
    {
    }
    var a := if j == i && t[d].nlink > 0 then {(d, k)} else {};
    var b := if j == d && kind == Dir then {(i, 1)} else {};
    forall p ensures p in Links(t', j) <==> p in Links(t, j) + a + b {
    }
  }

  lemma ShortUp(x: int)
    requires 0 <= x < SHORT_MAX
    ensures Short(x + 1) == x + 1
  {
  }

  lemma CreatedTree(t: Table, kind: Kind, i: nat, d: nat, k: nat, name: string)
    requires TreeOk(t) && CanCreate(t, i, d, k, name) && t[d].nlink > 0 && HasRoom(t, kind, d)
    ensures TreeOk(Created(t, kind, i, d, k, name))
  {
    hide DirOk, UpOk, Unnamed, Short;
    var t' := Created(t, kind, i, d, k, name);
    CreatedNlink(t, kind, i, d, k, name);
    FreshDirOk(kind, i, d);
    EntryDirOk(d, t[d], k, i, name);
    CountDirOk(d, WithEntry(t[d], k, i, name), t'[d].nlink);
    forall x, y | x in t' && t'[x].nlink > 0 && 0 <= y < |t'[x].ents| ensures EntryOk(t', x, y) {
      if x != i && (x != d || y != k) { assert EntryOk(t, x, y); }
    }
    forall x, y, z | x in t' && t'[x].nlink > 0 && 0 <= y < |t'[x].ents| && 0 <= z < |t'[x].ents|
      ensures OneName(t', x, y, z)
    {
      if x != i { CreatedOneName(t, kind, i, d, k, name, x, y, z); }
    }
    forall s | s in t' && t'[s].kind == Dir && t'[s].nlink > 0 ensures |t'[s].ents| >= 2 && UpOk(t', s) {
      CreatedUp(t, kind, i, d, k, name, s);
    }
  }

  lemma FreshDirOk(kind: Kind, i: nat, d: nat)
    requires d != 0
    ensures DirOk(i, Fresh(kind, i, d))
  {
  }

  lemma CountDirOk(d: nat, x: Inode, n: int)
    requires DirOk(d, x)
    ensures DirOk(d, x.(nlink := n))
  {
  }

  lemma CreatedOneName(t: Table, kind: Kind, i: nat, d: nat, k: nat, name: string, x: nat, y: nat, z: nat)
    requires TreeOk(t) && CanCreate(t, i, d, k, name) && t[d].nlink > 0 && x in t && t[x].nlink > 0 && x != i
    requires HasRoom(t, kind, d)
    requires var t' := Created(t, kind, i, d, k, name); y < |t'[x].ents| && z < |t'[x].ents|
    ensures OneName(Created(t, kind, i, d, k, name), x, y, z)
  {
    if x != d || (y != k && z != k) {
      assert OneName(t, x, y, z);
    } else {
      // nothing else names the new inode
      var o := if y == k then z else y;
      if o < |t[d].ents| { assert EntryOk(t, d, o); }
    }
  }

  lemma CreatedUp(t: Table, kind: Kind, i: nat, d: nat, k: nat, name: string, s: nat)
    requires TreeOk(t) && CanCreate(t, i, d, k, name) && t[d].nlink > 0 && HasRoom(t, kind, d)
    requires var t' := Created(t, kind, i, d, k, name); s in t' && t'[s].kind == Dir && t'[s].nlink > 0
    ensures var t' := Created(t, kind, i, d, k, name); |t'[s].ents| >= 2 && UpOk(t', s)
  {
    hide Short;
    CreatedNlink(t, kind, i, d, k, name);
    var t' := Created(t, kind, i, d, k, name);
    assert DirOk(d, t[d]);
    if s == i {
      assert t'[d].ents[k].inum == i;
    } else {
      assert UpOk(t, s) && DirOk(s, t[s]);
      UpKept(t, t', s);
    }
  }

  /**
   create is right exactly when the directory it creates in is still linked and its count has
   room for the ".." of a new directory.
   */
  lemma CreateIff(t: Table, pend: map<nat, nat>, refs: map<nat, nat>, kind: Kind, i: nat, d: nat, k: nat, name: string)
    requires Good(t, pend, refs) && CanCreate(t, i, d, k, name)
    ensures Good(Created(t, kind, i, d, k, name), pend, More(refs, i)) <==>
            t[d].nlink > 0 && (kind == Dir ==> t[d].nlink < SHORT_MAX)
  {
    hide TreeOk, Links, Unnamed, Short, RefsOk;
    var t' := Created(t, kind, i, d, k, name);
    TreeBasics(t, d);
    if !HasRoom(t, kind, d) {
      Overflow();
      assert t'[d].nlink < 0;
    } else if t[d].nlink > 0 {
      CreatedRefs(t, pend, refs, kind, i, d, k, name);
      CreatedTree(t, kind, i, d, k, name);
      forall j | j in t' ensures t'[j].nlink == |Links(t', j)| + Count(pend, j) {
        CreatedCount(t, pend, kind, i, d, k, name, j);
      }
    } else {
      CreatedRefs(t, pend, refs, kind, i, d, k, name);
      UnlinkedCreate(t, pend, kind, i, d, k, name);
    }
  }

  lemma CreatedRefs(t: Table, pend: map<nat, nat>, refs: map<nat, nat>, kind: Kind, i: nat, d: nat, k: nat,
      name: string)
    requires TreeOk(t) && RefsOk(t, pend, refs) && CanCreate(t, i, d, k, name) && HasRoom(t, kind, d)
    ensures Count(pend, i) == 0 && RefsOk(Created(t, kind, i, d, k, name), pend, More(refs, i))
  {
    hide TreeOk, Unnamed, Short;
    TreeBasics(t, d);
    CreatedNlink(t, kind, i, d, k, name);
  }

  lemma CreatedCount(t: Table, pend: map<nat, nat>, kind: Kind, i: nat, d: nat, k: nat, name: string, j: nat)
    requires TreeOk(t) && LinksOk(t, pend) && Count(pend, i) == 0 && CanCreate(t, i, d, k, name) && t[d].nlink > 0
    requires (j in t || j == i) && HasRoom(t, kind, d)
    ensures var t' := Created(t, kind, i, d, k, name); t'[j].nlink == |Links(t', j)| + Count(pend, j)
  {
    hide TreeOk, Links, Unnamed, Short;
    if j != i { TreeBasics(t, j); }
    CreatedNlink(t, kind, i, d, k, name);
    CreatedLinks(t, kind, i, d, k, name, j);
    NoLinksTo(t, i);
  }

  /** A file created in a directory that was unlinked has a count of one and no link. */
  lemma UnlinkedCreate(t: Table, pend: map<nat, nat>, kind: Kind, i: nat, d: nat, k: nat, name: string)
    requires TreeOk(t) && LinksOk(t, pend) && Count(pend, i) == 0 && CanCreate(t, i, d, k, name) && t[d].nlink == 0
    ensures var t' := Created(t, kind, i, d, k, name); !(LinksOk(t', pend) && TreeOk(t'))
  {
    hide TreeOk, Links, Unnamed, Short;
    if kind == Dir {
      UnlinkedMkdir(t, pend, i, d, k, name);
    } else {
      CreatedLinks(t, kind, i, d, k, name, i);
      NoLinksTo(t, i);
      var t' := Created(t, kind, i, d, k, name);
      assert Links(t', i) == {};
      assert t'[i].nlink == 1;
    }
  }

  /** A directory created there brings its parent back to life, whose ".." nobody counts. */
  lemma UnlinkedMkdir(t: Table, pend: map<nat, nat>, i: nat, d: nat, k: nat, name: string)
    requires TreeOk(t) && LinksOk(t, pend) && CanCreate(t, i, d, k, name) && t[d].nlink == 0
    ensures var t' := Created(t, Dir, i, d, k, name); !(LinksOk(t', pend) && TreeOk(t'))
  {
    hide LinksOk, Links, Unnamed, Short;
    var t' := Created(t, Dir, i, d, k, name);
    ShortUp(0);
    assert DirOk(d, t[d]);
    var p := t[d].ents[1].inum;
    assert t'[d].nlink == 1 && t'[d].ents[1] == t[d].ents[1];
    if p in t' {
      DotDotCounts(t, i, d, k, name);
      NotCounted(t, t', pend, p, p == i || p == d);
    } else {
      assert !EntryOk(t', d, 1);
    }
  }

  /** The links to the parent's parent after such a mkdir: more than it counts. */
  lemma DotDotCounts(t: Table, i: nat, d: nat, k: nat, name: string)
    requires TreeOk(t) && CanCreate(t, i, d, k, name) && t[d].nlink == 0
    ensures |t[d].ents| >= 2
    ensures var t', p := Created(t, Dir, i, d, k, name), t[d].ents[1].inum;
      if p == i || p == d then |Links(t', p)| >= 2 else |Links(t', p)| > |Links(t, p)|
  {
    hide TreeOk, Unnamed, Short;
    TreeBasics(t, d);
    ShortUp(0);
    var t', p := Created(t, Dir, i, d, k, name), t[d].ents[1].inum;
    assert t'[d].nlink == 1 && t'[i].nlink == 1;
    NotDot(d, t[d], name);
    assert IsLink(t', d, 1, p) && IsLink(t', i, 1, d) && IsLink(t', d, k, i);
    if p == i {
      SubsetSize({(d, 1), (d, k)}, Links(t', p));
    } else if p == d {
      SubsetSize({(d, 1), (i, 1)}, Links(t', p));
    } else {
      forall x | x in Links(t, p) ensures x in Links(t', p) {
        assert IsLink(t', x.0, x.1, p);
      }
      assert (d, 1) !in Links(t, p);
      SubsetSize(Links(t, p) + {(d, 1)}, Links(t', p));
    }
  }

  lemma NotCounted(t: Table, t': Table, pend: map<nat, nat>, p: nat, made: bool)
    requires LinksOk(t, pend) && p in t'
    requires if made then |Links(t', p)| >= 2 && t'[p].nlink == 1
             else p in t && t'[p] == t[p] && |Links(t', p)| > |Links(t, p)|
    ensures !LinksOk(t', pend)
  {
    hide Links;
    if !made { assert t[p].nlink == |Links(t, p)| + Count(pend, p); }
  }

  lemma NotDot(d: nat, x: Inode, name: string)
    requires DirOk(d, x) && x.kind == Dir && d != 0 && Unnamed(x, name)
    ensures name != "." && name != ".."
  {
    assert x.ents[0].name == ".";
  }

  // ---- unlink

  /** Slot k of linked directory d names inode c, and is neither "." nor "..". */
  predicate Names(t: Table, d: nat, k: nat, c: nat) {
    d in t && t[d].kind == Dir && t[d].nlink > 0 && 2 <= k < |t[d].ents| && t[d].ents[k].inum == c && c != 0
  }

  function Unlinked(t: Table, d: nat, k: nat, c: nat): (t': Table)
    requires Names(t, d, k, c) && c in t && c != d
  {
    var n := if t[c].kind == Dir then t[d].nlink - 1 else t[d].nlink;
    t[d := Inode(Dir, n, t[d].ents[k := Dirent(0, "")])][c := t[c].(nlink := t[c].nlink - 1)]
  }

  lemma NamedIsLink(t: Table, d: nat, k: nat, c: nat)
    requires TreeOk(t) && Names(t, d, k, c)
    ensures c in t && c != d && IsLink(t, d, k, c) && (d, k) in Links(t, c) && |Links(t, c)| >= 1
    ensures t[c].kind == Dir ==> IsLink(t, c, 1, d) || t[c].nlink <= 0
  {
    assert EntryOk(t, d, k) && DirOk(d, t[d]);
    assert t[d].ents[0].name == "." && t[d].ents[0].inum != 0;
    SubsetSize({(d, k)}, Links(t, c));
    if c == d { SelfName(t, d, k); }
    if t[c].kind == Dir { assert DirOk(c, t[c]); }
  }

  /** A directory does not name itself. */
  lemma SelfName(t: Table, d: nat, k: nat)
    requires TreeOk(t) && d in t && t[d].kind == Dir && t[d].nlink > 0 && 2 <= k < |t[d].ents|
    ensures t[d].ents[k].inum != d
  {
    assert EntryOk(t, d, k);
  }

  lemma LinkMember(t: Table, d: nat, k: nat, i: nat)
    ensures (d, k) in Links(t, i) <==> IsLink(t, d, k, i)
  {
  }

  /** No directory says that an empty directory is its parent. */
  lemma NoChild(t: Table, c: nat, x: nat)
    requires TreeOk(t) && c in t && c != ROOT && EmptyDir(t[c]) && x in t && t[x].kind == Dir && t[x].nlink > 0
    ensures |t[x].ents| >= 2 && t[x].ents[1].inum != c
  {
    assert UpOk(t, x);
  }

  lemma OnlyLink(t: Table, d: nat, k: nat, c: nat, x: nat, y: nat)
    requires TreeOk(t) && Names(t, d, k, c) && c in t && t[c].kind == Dir && EmptyDir(t[c]) && IsLink(t, x, y, c)
    ensures x == d && y == k
  {
    assert EntryOk(t, d, k) && EntryOk(t, x, y) && DirOk(x, t[x]);
    NoChild(t, c, x);
    assert y >= 2;
    assert OneName(t, x, k, y) && OneName(t, x, y, k);
  }

  /** An empty directory has exactly one link. */
  lemma EmptyDirOneLink(t: Table, pend: map<nat, nat>, refs: map<nat, nat>, d: nat, k: nat, c: nat)
    requires Good(t, pend, refs) && Names(t, d, k, c) && c in t && t[c].kind == Dir && EmptyDir(t[c])
    ensures t[c].nlink == 1 && Links(t, c) == {(d, k)}
  {
    hide TreeOk, Links, IsLink, EmptyDir;
    NamedIsLink(t, d, k, c);
    forall p: (nat, nat) ensures p in Links(t, c) <==> p in {(d, k)} {
      LinkMember(t, p.0, p.1, c);
      if IsLink(t, p.0, p.1, c) { OnlyLink(t, d, k, c, p.0, p.1); }
    }
    assert Links(t, c) == {(d, k)};
  }

  lemma UpNamed(t: Table, d: nat) returns (p: nat, y: nat)
    requires TreeOk(t) && d in t && t[d].kind == Dir && t[d].nlink > 0
    ensures if d == ROOT then IsLink(t, ROOT, 1, ROOT) else Names(t, p, y, d)
  {
    assert UpOk(t, d) && DirOk(d, t[d]);
    p, y := t[d].ents[1].inum, 0;
    if d != ROOT {
      y :| 2 <= y < |t[p].ents| && t[p].ents[y].inum == d;
    }
  }

  lemma NotRoot(t: Table, d: nat, k: nat, c: nat)
    requires TreeOk(t) && Names(t, d, k, c)
    ensures c in t && (t[c].kind == Dir ==> c != ROOT)
  {
    assert EntryOk(t, d, k);
  }

  /** The parent of a directory that is about to go has at least one more link. */
  lemma ParentStays(t: Table, pend: map<nat, nat>, refs: map<nat, nat>, d: nat, k: nat, c: nat)
    requires Good(t, pend, refs) && Names(t, d, k, c) && c in t && t[c].kind == Dir && t[c].nlink > 0
    ensures t[d].nlink >= 2
  {
    hide TreeOk, Links, IsLink;
    NamedIsLink(t, d, k, c);
    NotRoot(t, d, k, c);
    var p, y := UpNamed(t, d);
    LinkMember(t, c, 1, d);
    LinkMember(t, ROOT, 1, d);
    if d == ROOT {
      SubsetSize({(ROOT, 1), (c, 1)}, Links(t, d));
    } else {
      NamedIsLink(t, p, y, d);
      SubsetSize({(p, y), (c, 1)}, Links(t, d));
    }
  }

  // The table after an unlink, before a freed inode is removed.

  lemma UnlinkedLinks(t: Table, d: nat, k: nat, c: nat, j: nat)
    requires TreeOk(t) && Names(t, d, k, c) && c in t && c != d && j != 0 && t[c].nlink > 0
    requires t[c].kind == Dir ==> t[d].nlink >= 2 && t[c].nlink == 1 && EmptyDir(t[c])
    ensures Links(Unlinked(t, d, k, c), j) == Links(t, j) - {(d, k)} - (if t[c].kind == Dir then {(c, 1)} else {})
  {
    hide TreeOk;
    TreeBasics(t, c);
    var t' := Unlinked(t, d, k, c);
    var gone := if t[c].kind == Dir then {(c, 1)} else {};
    forall x: nat, y: nat ensures IsLink(t', x, y, j) <==> IsLink(t, x, y, j) && (x, y) != (d, k) && (x, y) !in gone {
    }
    forall p ensures p in Links(t', j) <==> p in Links(t, j) - {(d, k)} - gone {
    }
  }

  lemma UnlinkedTree(t: Table, d: nat, k: nat, c: nat)
    requires TreeOk(t) && Names(t, d, k, c) && c in t && c != d && t[c].nlink > 0
    requires t[c].kind == Dir ==> t[d].nlink >= 2 && t[c].nlink == 1 && EmptyDir(t[c])
    ensures TreeOk(Unlinked(t, d, k, c))
  {
    hide UpOk, DirOk, EntryOk, OneName;
    var t' := Unlinked(t, d, k, c);
    NotRoot(t, d, k, c);
    forall x | x in t' ensures DirOk(x, t'[x]) {
      UnlinkedDirOk(t, d, k, c, x);
    }
    forall x, y | x in t' && t'[x].nlink > 0 && 0 <= y < |t'[x].ents| ensures EntryOk(t', x, y) {
      UnlinkedEntry(t, d, k, c, x, y, y);
    }
    forall x, y, z | x in t' && t'[x].nlink > 0 && 0 <= y < |t'[x].ents| && 0 <= z < |t'[x].ents|
      ensures OneName(t', x, y, z)
    {
      UnlinkedEntry(t, d, k, c, x, y, z);
    }
    forall s | s in t' && t'[s].kind == Dir && t'[s].nlink > 0 ensures |t'[s].ents| >= 2 && UpOk(t', s) {
      UnlinkedUp(t, d, k, c, s);
    }
  }

  lemma UnlinkedDirOk(t: Table, d: nat, k: nat, c: nat, x: nat)
    requires Names(t, d, k, c) && c in t && c != d && x in t && DirOk(x, t[x])
    ensures DirOk(x, Unlinked(t, d, k, c)[x])
  {
  }

  lemma UnlinkedEntry(t: Table, d: nat, k: nat, c: nat, x: nat, y: nat, z: nat)
    requires Names(t, d, k, c) && c in t && c != d && x in t && y < |t[x].ents| && z < |t[x].ents|
        && EntryOk(t, x, y) && OneName(t, x, y, z)
    ensures var t' := Unlinked(t, d, k, c);
            y < |t'[x].ents| && z < |t'[x].ents| && EntryOk(t', x, y) && OneName(t', x, y, z)
  {
  }

  lemma UnlinkedUp(t: Table, d: nat, k: nat, c: nat, s: nat)
    requires TreeOk(t) && Names(t, d, k, c) && c in t && c != d && c != ROOT && t[c].nlink > 0
    requires t[c].kind == Dir ==> t[d].nlink >= 2 && t[c].nlink == 1 && EmptyDir(t[c])
    requires var t' := Unlinked(t, d, k, c); s in t' && t'[s].kind == Dir && t'[s].nlink > 0
    ensures var t' := Unlinked(t, d, k, c); |t'[s].ents| >= 2 && UpOk(t', s)
  {
    var t' := Unlinked(t, d, k, c);
    assert UpOk(t, s) && DirOk(s, t[s]);
    if t[c].kind == Dir { NoChild(t, c, s); }
    UpKept(t, t', s);
  }

  // ---- iput: an inode without links and references is freed

  lemma NoLinksNamed(t: Table, pend: map<nat, nat>, c: nat, x: nat, y: nat)
    requires TreeOk(t) && LinksOk(t, pend) && c in t && t[c].nlink == 0 && x in t && t[x].nlink > 0 && y < |t[x].ents|
    ensures t[x].ents[y].inum != c
  {
    assert DirOk(x, t[x]);
    LinkMember(t, x, y, c);
    if IsLink(t, x, y, c) { SubsetSize({(x, y)}, Links(t, c)); }
    assert y != 0 ==> t[x].ents[y].inum == 0 || t[x].ents[y].name != ".";
  }

  lemma RemovedTree(t: Table, pend: map<nat, nat>, c: nat)
    requires TreeOk(t) && LinksOk(t, pend) && c in t && t[c].nlink == 0
    ensures TreeOk(t - {c})
  {
    hide LinksOk, DirOk;
    var t' := t - {c};
    forall x, y | x in t' && t'[x].nlink > 0 && 0 <= y < |t'[x].ents| ensures EntryOk(t', x, y) {
      assert EntryOk(t, x, y);
      NoLinksNamed(t, pend, c, x, y);
    }
    forall x, y, z | x in t' && t'[x].nlink > 0 && 0 <= y < |t'[x].ents| && 0 <= z < |t'[x].ents|
      ensures OneName(t', x, y, z)
    {
      assert OneName(t, x, y, z);
      NoLinksNamed(t, pend, c, x, y);
    }
    forall s | s in t' && t'[s].kind == Dir && t'[s].nlink > 0 ensures |t'[s].ents| >= 2 && UpOk(t', s) {
      assert UpOk(t, s);
    }
  }

  lemma RemovedLinks(t: Table, c: nat, j: nat)
    requires c in t && t[c].nlink == 0
    ensures Links(t - {c}, j) == Links(t, j)
  {
    var t' := t - {c};
    forall x: nat, y: nat ensures IsLink(t', x, y, j) <==> IsLink(t, x, y, j) {
    }
    forall p ensures p in Links(t', j) <==> p in Links(t, j) {
    }
  }

  /** What iput leaves: an inode whose last reference and last link are gone is removed. */
  function Put(t: Table, refs: map<nat, nat>, i: nat): (t': Table) {
    if i in t && t[i].nlink == 0 && Count(refs, i) == 0 then t - {i} else t
  }

  /** Everything is in order except that inode i may have neither link nor reference. */
  ghost predicate Almost(t: Table, pend: map<nat, nat>, refs: map<nat, nat>, i: nat) {
    && LinksOk(t, pend) && TreeOk(t)
    && (forall j :: Count(pend, j) > 0 ==> j in t && t[j].kind != Dir && Count(refs, j) > 0)
    && (forall j :: Count(refs, j) > 0 ==> j in t)
    && (forall j :: j in t && j != i && t[j].nlink == 0 ==> Count(refs, j) > 0)
  }

  lemma PutGood(t: Table, pend: map<nat, nat>, refs: map<nat, nat>, i: nat)
    requires Almost(t, pend, refs, i)
    ensures Good(Put(t, refs, i), pend, refs)
  {
    hide TreeOk, Links;
    if i in t && t[i].nlink == 0 && Count(refs, i) == 0 {
      RemovedTree(t, pend, i);
      forall j | j in t - {i} ensures (t - {i})[j].nlink == |Links(t - {i}, j)| + Count(pend, j) {
        RemovedLinks(t, i, j);
      }
    }
  }

  /** unlink keeps everything in order, whatever it removes. */
  lemma UnlinkGood(t: Table, pend: map<nat, nat>, refs: map<nat, nat>, d: nat, k: nat, c: nat)
    requires Good(t, pend, refs) && Names(t, d, k, c) && (c in t && t[c].kind == Dir ==> EmptyDir(t[c]))
    ensures c in t && c != d && t[c].nlink >= 1
    ensures Good(Put(Unlinked(t, d, k, c), refs, c), pend, refs)
  {
    hide TreeOk, Links, EmptyDir;
    NamedIsLink(t, d, k, c);
    if t[c].kind == Dir {
      EmptyDirOneLink(t, pend, refs, d, k, c);
      ParentStays(t, pend, refs, d, k, c);
    }
    var t' := Unlinked(t, d, k, c);
    UnlinkedTree(t, d, k, c);
    forall j | j in t' ensures t'[j].nlink == |Links(t', j)| + Count(pend, j) {
      UnlinkedCount(t, pend, d, k, c, j);
    }
    PutGood(t', pend, refs, c);
  }

  lemma UnlinkedCount(t: Table, pend: map<nat, nat>, d: nat, k: nat, c: nat, j: nat)
    requires TreeOk(t) && LinksOk(t, pend) && Names(t, d, k, c) && c in t && c != d && t[c].nlink > 0 && j in t
    requires t[c].kind == Dir ==> t[d].nlink >= 2 && t[c].nlink == 1 && EmptyDir(t[c])
    ensures Unlinked(t, d, k, c)[j].nlink == |Links(Unlinked(t, d, k, c), j)| + Count(pend, j)
  {
    hide TreeOk, Links, EmptyDir;
    TreeBasics(t, j);
    TreeBasics(t, c);
    NamedIsLink(t, d, k, c);
    UnlinkedLinks(t, d, k, c, j);
    LinkMember(t, d, k, j);
    LinkMember(t, c, 1, j);
  }
}
