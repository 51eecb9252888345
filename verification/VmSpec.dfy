/** Specification side of kernel/kalloc.c and kernel/vm.c: how page ownership and flat maps evolve. */
module VmSpec {
  import opened Collections
  import opened Sv39
  import opened PageTable

  /** Pages between KERNBASE and PHYSTOP. */
  const MAXPAGES: nat := 0x8000

  /** Every managed page is either free or in use, never both. */
  ghost predicate Parted(managed: set<nat>, free: seq<nat>, used: set<nat>) {
    && Distinct(free) && Elems(free) !! used && Elems(free) + used == managed
    && 0 !in managed && |managed| <= MAXPAGES
  }

  /** Pages in use determine the free pages. */
  lemma SameFree(managed: set<nat>, free: seq<nat>, free': seq<nat>, used: set<nat>)
    requires Parted(managed, free, used) && Parted(managed, free', used)
    ensures Elems(free) == Elems(free')
  {
    assert Elems(free) == managed - used && Elems(free') == managed - used;
  }

  /** The range of a C int. */
  predicate CInt(n: int) {
    -0x8000_0000 <= n < 0x8000_0000
  }

  /** The page numbers below `hi` down to `lo`. */
  function FreeDown(lo: nat, hi: nat): (s: seq<nat>)
    requires lo <= hi
  {
    if lo == hi then [] else [hi - 1] + FreeDown(lo, hi - 1)
  }

  lemma {:induction false} DownMember(lo: nat, hi: nat, p: nat)
    requires lo <= hi
    ensures p in Elems(FreeDown(lo, hi)) <==> lo <= p < hi
    decreases hi
  {
    if lo < hi {
      hide Elems;
      DownMember(lo, hi - 1, p);
      ElemsJoin([hi - 1], FreeDown(lo, hi - 1));
      OneElem(hi - 1);
    } else {
      assert FreeDown(lo, hi) == [];
    }
  }

  lemma NoElems()
    ensures Distinct([]) && Elems([]) == {}
  {
  }

  lemma OneElem(p: nat)
    ensures Elems([p]) == {p}
  {
  }

  lemma {:induction false} DownDistinct(lo: nat, hi: nat)
    requires lo <= hi
    ensures Distinct(FreeDown(lo, hi)) && |Elems(FreeDown(lo, hi))| == hi - lo
    decreases hi
  {
    hide Distinct, Elems;
    var s := FreeDown(lo, hi);
    if lo < hi {
      DownDistinct(lo, hi - 1);
      assert s[1..] == FreeDown(lo, hi - 1) && s[0] == hi - 1;
      TailElems(s);
      DownMember(lo, hi - 1, hi - 1);
    } else {
      NoElems();
    }
  }

  lemma AllFree(lo: nat, hi: nat, m: Mem)
    requires 0 < lo <= hi <= lo + MAXPAGES && m == map[]
    ensures Parted(Elems(FreeDown(lo, hi)), FreeDown(lo, hi), m.Keys)
  {
    DownDistinct(lo, hi);
    DownMember(lo, hi, 0);
  }

  lemma NullUnused(managed: set<nat>, free: seq<nat>, m: Mem)
    requires Parted(managed, free, m.Keys)
    ensures 0 !in m
  {
  }

  lemma TakeFree(managed: set<nat>, free: seq<nat>, used: set<nat>)
    requires Parted(managed, free, used) && free != []
    ensures free[0] in managed && free[0] !in used
    ensures Parted(managed, free[1..], used + {free[0]})
  {
    assert free[0] in Elems(free);
    TailElems(free);
  }

  lemma PutFree(managed: set<nat>, free: seq<nat>, used: set<nat>, p: nat)
    requires Parted(managed, free, used) && p in used
    ensures Parted(managed, [p] + free, used - {p})
  {
    var f := [p] + free;
    assert f[1..] == free;
    TailElems(f);
  }

  function Filled(x: nat): (p: Page) {
    Data(seq(PGSIZE, _ => x))
  }

  /** The space only grew by table pages that were free before. */
  ghost predicate Extends(m: Mem, sp: Space, m': Mem, sp': Space) {
    && sp'.root == sp.root
    && (forall t :: t in sp.pos ==> t in sp'.pos && sp'.pos[t] == sp.pos[t])
    && (forall t :: t in sp'.pos && t !in sp.pos ==> t !in m)
    && m'.Keys == m.Keys + sp'.pos.Keys
    && forall p :: p in m && p !in sp.pos ==> m'[p] == m[p]
  }

  datatype MapStatus = Mapped | NoMem | Remap

  /** How many pages the range of `size` bytes from `va` touches. */
  function Pages(va: nat, size: nat): (n: nat)
    requires size > 0
  {
    (va + size - 1) / PGSIZE - va / PGSIZE + 1
  }

  /** Insert `n` consecutive pages into a flat map. */
  ghost function MapRange(f: map<nat, nat>, v: nat, ppn: nat, n: nat, perm: nat): (r: map<nat, nat>) {
    if n == 0 then f else MapRange(f, v, ppn, n - 1, perm)[v + n - 1 := Pack(ppn + n - 1, OrV(perm))]
  }

  lemma MapNone(f: map<nat, nat>, v: nat, ppn: nat, perm: nat)
    ensures MapRange(f, v, ppn, 0, perm) == f
  {
  }

  lemma MapMore(f: map<nat, nat>, v: nat, ppn: nat, n: nat, perm: nat)
    ensures MapRange(f, v, ppn, n + 1, perm) == MapRange(f, v, ppn, n, perm)[v + n := Pack(ppn + n, OrV(perm))]
  {
  }

  /** Pages above the inserted ones are as before. */
  lemma {:induction false} MapBeyond(f: map<nat, nat>, v: nat, ppn: nat, n: nat, perm: nat, w: nat)
    requires w >= v + n
    ensures w in MapRange(f, v, ppn, n, perm) <==> w in f
  {
    if n > 0 { MapBeyond(f, v, ppn, n - 1, perm, w); }
  }

  function PathAt(level: nat, va: nat): (p: Path)
    requires level <= 2
  {
    if level == 2 then Root else if level == 1 then Mid(PX(2, va)) else Low(PX(2, va), PX(1, va))
  }

  /** One more table page keeps everything the walk relies on. */
  lemma GraftExtends(m0: Mem, sp0: Space, m: Mem, sp: Space, t: nat, i: nat, c: nat)
    requires WF(m0, sp0) && WF(m, sp) && Extends(m0, sp0, m, sp)
    requires t in sp.pos && !sp.pos[t].Low? && i < 512 && !V(m[t].e[i]) && c !in m
    requires sp.pos[t].Root? ==> i < 256
    ensures WF(Graft(m, t, i, c), Grown(sp, t, i, c))
    ensures Flat(Graft(m, t, i, c), Grown(sp, t, i, c)) == Flat(m, sp)
    ensures Extends(m0, sp0, Graft(m, t, i, c), Grown(sp, t, i, c))
  {
    hide V, Pack, Down, Up, Flat;
    GraftFlat(m, sp, t, i, c);
    var m', sp' := Graft(m, t, i, c), Grown(sp, t, i, c);
    assert m'.Keys == m.Keys + {c};
    assert sp'.pos.Keys == sp.pos.Keys + {c};
  }

  lemma TailElems(s: seq<nat>)
    requires s != [] && Distinct(s[1..])
    ensures Elems(s) == Elems(s[1..]) + {s[0]}
    ensures Distinct(s) <==> s[0] !in Elems(s[1..])
  {
    forall x | x in Elems(s) ensures x in Elems(s[1..]) + {s[0]} {
      var i :| 0 <= i < |s| && s[i] == x;
      if i > 0 { assert s[1..][i - 1] == x; }
    }
    forall x | x in Elems(s[1..]) ensures x in Elems(s) {
      var i :| 0 <= i < |s[1..]| && s[1..][i] == x;
      assert s[i + 1] == x;
    }
    if s[0] !in Elems(s[1..]) {
      forall i, j | 0 <= i < j < |s| ensures s[i] != s[j] {
        assert s[j] == s[1..][j - 1];
        if i > 0 { assert s[i] == s[1..][i - 1]; }
      }
    } else {
      var i :| 0 <= i < |s[1..]| && s[1..][i] == s[0];
      assert s[i + 1] == s[0];
    }
  }

  lemma PackedValid(ppn: nat, perm: nat)
    requires perm < 1024
    ensures V(Pack(ppn, OrV(perm)))
  {
    PackRoundTrip(ppn, OrV(perm));
  }

  lemma FlatAt(m: Mem, sp: Space, v: nat)
    requires WF(m, sp) && v < PAGES
    ensures v in Flat(m, sp) <==> V(Pte(m, sp, v))
    ensures v in Flat(m, sp) ==> Flat(m, sp)[v] == Pte(m, sp, v)
  {
  }

  /** The entry that walk found is the one the flat map talks about. */
  lemma LeafAt(m: Mem, sp: Space, t: nat, va: nat)
    requires WF(m, sp) && va < MAXVA && t in sp.pos && sp.pos[t] == PathAt(0, va)
    ensures Pte(m, sp, va / PGSIZE) == m[t].e[PX(0, va)]
    ensures va / PGSIZE in Flat(m, sp) <==> V(m[t].e[PX(0, va)])
    ensures va / PGSIZE in Flat(m, sp) ==> Flat(m, sp)[va / PGSIZE] == m[t].e[PX(0, va)]
  {
    PageIndices(va);
    SplitVpn(va / PGSIZE);
    PteInLow(m, sp, t, PX(0, va));
    FlatAt(m, sp, va / PGSIZE);
  }

  /** walk ends at the same slot for two addresses exactly when they are in the same page. */
  lemma SameSlot(m: Mem, sp: Space, a: nat, t: nat, b: nat, t': nat)
    requires WF(m, sp) && a < MAXVA && b < MAXVA && t in sp.pos && t' in sp.pos
    requires sp.pos[t] == PathAt(0, a) && sp.pos[t'] == PathAt(0, b)
    ensures t == t' && PX(0, a) == PX(0, b) <==> a / PGSIZE == b / PGSIZE
  {
    hide Down, Up, PX;
    SamePage(a, b);
    if t == t' && PX(0, a) == PX(0, b) {
      assert PathAt(0, a) == PathAt(0, b);
      forall level: nat | level <= 2 ensures PX(level, a) == PX(level, b) {
        assert level == 0 || level == 1 || level == 2;
      }
    }
    if a / PGSIZE == b / PGSIZE {
      assert PX(0, a) == PX(0, b) && PX(1, a) == PX(1, b) && PX(2, a) == PX(2, b);
      PlacesDiffer(m, sp, t, t');
    }
  }

  lemma LeafWrite(m0: Mem, sp0: Space, m: Mem, sp: Space, t: nat, va: nat, x: nat)
    requires WF(m, sp) && va < MAXVA && t in sp.pos && sp.pos[t] == PathAt(0, va)
    requires Extends(m0, sp0, m, sp)
    ensures WF(SetEntry(m, t, PX(0, va), x), sp)
    ensures Flat(SetEntry(m, t, PX(0, va), x), sp) ==
              if V(x) then Flat(m, sp)[va / PGSIZE := x] else Flat(m, sp) - {va / PGSIZE}
    ensures Extends(m0, sp0, SetEntry(m, t, PX(0, va), x), sp)
  {
    PageIndices(va);
    SplitVpn(va / PGSIZE);
    SetLeafFlat(m, sp, t, PX(0, va), x);
    assert SetEntry(m, t, PX(0, va), x).Keys == m.Keys;
  }

  lemma {:induction false} ExtendsTrans(m: Mem, sp: Space, m1: Mem, sp1: Space, m2: Mem, sp2: Space)
    requires Extends(m, sp, m1, sp1) && Extends(m1, sp1, m2, sp2) && sp1.pos.Keys <= m1.Keys
    ensures Extends(m, sp, m2, sp2)
  {
    assert m2.Keys == m.Keys + sp2.pos.Keys;
  }

  lemma ExtendsSelf(m: Mem, sp: Space)
    requires WF(m, sp)
    ensures Extends(m, sp, m, sp)
  {
    assert sp.pos.Keys <= m.Keys;
  }

  lemma Child(m: Mem, sp: Space, t: nat, i: nat)
    requires WF(m, sp) && t in sp.pos && !sp.pos[t].Low? && i < 512 && V(m[t].e[i])
    ensures ChildOk(sp, t, i, m[t].e[i])
  {
  }

  lemma NotNull(managed: set<nat>, free: seq<nat>, used: set<nat>)
    requires Parted(managed, free, used) && free != []
    ensures free[0] != 0
  {
    assert free[0] in Elems(free);
  }

  lemma NonZero(managed: set<nat>, free: seq<nat>, m: Mem, sp: Space, t: nat)
    requires Parted(managed, free, m.Keys) && WF(m, sp) && t in sp.pos
    ensures t != 0
  {
    assert t in m.Keys;
  }

  lemma MissingTable(m: Mem, sp: Space, t: nat, level: nat, va: nat)
    requires WF(m, sp) && t in sp.pos && va < MAXVA && 1 <= level <= 2
    requires sp.pos[t] == PathAt(level, va) && !V(m[t].e[PX(level, va)])
    ensures Pte(m, sp, va / PGSIZE) == 0
  {
    PageIndices(va);
    assert Reached(m, sp, t);
  }

  // -------------------------------------------------------------- leaf pages

  /** A leaf entry whose page holds plain bytes. */
  ghost predicate LeafOk(m: Mem, pte: nat) {
    Ppn(pte) in m && m[Ppn(pte)].Data? && |m[Ppn(pte)].bytes| == PGSIZE
  }

  /** The map without the page numbers lo..hi. */
  function Without(f: map<nat, nat>, lo: nat, hi: nat): (r: map<nat, nat>) {
    map v | v in f && !(lo <= v < hi) :: f[v]
  }

  /** Page numbers lo..hi are mapped by leaf entries. */
  ghost predicate MappedRange(f: map<nat, nat>, lo: nat, hi: nat) {
    forall v: nat :: lo <= v < hi ==> v in f && Flags(f[v]) != PTE_V
  }

  /** They are backed by pages in use, no page twice. */
  ghost predicate Backed(m: Mem, f: map<nat, nat>, lo: nat, hi: nat) {
    && (forall v: nat :: lo <= v < hi ==> v in f && LeafOk(m, f[v]))
    && (forall v: nat, w: nat :: lo <= v < w < hi ==> v in f && w in f && Ppn(f[v]) != Ppn(f[w]))
  }

  /** The physical pages behind page numbers lo..hi. */
  ghost function Leaves(f: map<nat, nat>, lo: nat, hi: nat): (r: set<nat>) {
    set v: nat | lo <= v < hi && v in f :: Ppn(f[v])
  }

  lemma UnmapNone(f: map<nat, nat>, v: nat, used: set<nat>)
    ensures Without(f, v, v) == f && used - Leaves(f, v, v) == used
  {
  }

  lemma LeavesMore(f: map<nat, nat>, lo: nat, hi: nat)
    requires lo <= hi && hi in f
    ensures Leaves(f, lo, hi + 1) == Leaves(f, lo, hi) + {Ppn(f[hi])}
  {
  }

  lemma RangeMore(f: map<nat, nat>, lo: nat, hi: nat)
    requires lo <= hi
    ensures Without(f, lo, hi + 1) == Without(f, lo, hi) - {hi}
  {
  }

  /** The state of uvmunmap's loop allows one more page. */
  lemma UnmapOne(m0: Mem, m: Mem, sp: Space, f: map<nat, nat>, v: nat, n: nat, k: nat, doFree: bool)
    requires WF(m0, sp) && k < n && MappedRange(f, v, v + n) && (doFree ==> Backed(m0, f, v, v + n))
    requires m.Keys == if doFree then m0.Keys - Leaves(f, v, v + k) else m0.Keys
    requires forall p :: p in m && p !in sp.pos ==> m[p] == m0[p]
    ensures v + k in Without(f, v, v + k) && Without(f, v, v + k)[v + k] == f[v + k] && Flags(f[v + k]) != PTE_V
    ensures doFree ==> LeafOk(m, f[v + k])
    ensures Leaves(f, v, v + k + 1) == Leaves(f, v, v + k) + {Ppn(f[v + k])}
    ensures Without(f, v, v + k + 1) == Without(f, v, v + k) - {v + k}
  {
    hide Ppn, Flags, Down, Up;
    LeavesMore(f, v, v + k);
    RangeMore(f, v, v + k);
    if doFree {
      var p := Ppn(f[v + k]);
      assert LeafOk(m0, f[v + k]);
      assert p !in Leaves(f, v, v + k);
      assert p in m.Keys;
      assert p !in sp.pos;
    }
  }

  // ------------------------------------------------------------- whole trees

  function Height(p: Path): (h: nat) {
    if p.Root? then 2 else if p.Mid? then 1 else 0
  }

  ghost predicate Below(p: Path, q: Path) {
    q.Root? || p == q || (q.Mid? && p.Low? && p.i == q.i)
  }

  /** The table pages of the subtree at `t`. */
  ghost function Subtree(sp: Space, t: nat): (r: set<nat>)
    requires t in sp.pos
  {
    set s | s in sp.pos && Below(sp.pos[s], sp.pos[t])
  }

  /** Those strictly below `t` that hang under one of its first `i` entries. */
  ghost function FirstSubtrees(sp: Space, t: nat, i: nat): (r: set<nat>)
    requires t in sp.pos
  {
    set s | s in sp.pos && Below(sp.pos[s], sp.pos[t]) && sp.pos[s] != sp.pos[t] && Branch(sp.pos[s], sp.pos[t]) < i
  }

  ghost function Branch(p: Path, q: Path): (r: nat) {
    if q.Root? then if p.Root? then 0 else p.i
    else if p.Low? then p.j else 0
  }

  ghost predicate NoLeaves(m: Mem, sp: Space)
    requires WF(m, sp)
  {
    forall t, k :: t in sp.pos && sp.pos[t].Low? && 0 <= k < 512 ==> !V(m[t].e[k])
  }

  lemma EmptyHasNoLeaves(m: Mem, sp: Space)
    requires WF(m, sp) && Flat(m, sp) == map[]
    ensures NoLeaves(m, sp)
  {
    forall t, k | t in sp.pos && sp.pos[t].Low? && 0 <= k < 512 ensures !V(m[t].e[k]) {
      PteInLow(m, sp, t, k);
      FlatAt(m, sp, Vpn(sp.pos[t].i, sp.pos[t].j, k));
    }
  }

  lemma NoneFreed(sp: Space, t: nat)
    requires t in sp.pos
    ensures FirstSubtrees(sp, t, 0) == {}
  {
  }

  lemma AllFreed(m: Mem, sp: Space, t: nat)
    requires WF(m, sp) && t in sp.pos
    ensures FirstSubtrees(sp, t, 512) + {t} == Subtree(sp, t)
    ensures t !in FirstSubtrees(sp, t, 512)
  {
    hide Down, V;
    forall s | s in Subtree(sp, t) ensures s in FirstSubtrees(sp, t, 512) + {t} {
      assert Reached(m, sp, s);
      if sp.pos[s] == sp.pos[t] {
        PlacesDiffer(m, sp, s, t);
      } else if sp.pos[s].Low? {
        var p :| p in sp.pos && sp.pos[p] == Mid(sp.pos[s].i) && Leads(m, p, sp.pos[s].j, s);
        assert Reached(m, sp, p);
      }
    }
  }

  /** Entry `i` is not valid: nothing hangs under it. */
  lemma SkipEntry(m: Mem, sp: Space, t: nat, i: nat)
    requires WF(m, sp) && t in sp.pos && i < 512 && (sp.pos[t].Low? || !V(m[t].e[i]))
    ensures FirstSubtrees(sp, t, i + 1) == FirstSubtrees(sp, t, i)
  {
    hide Down, V;
    forall s | s in FirstSubtrees(sp, t, i + 1) ensures s in FirstSubtrees(sp, t, i) {
      assert Reached(m, sp, s) && Reached(m, sp, t);
      if sp.pos[s].Low? {
        var p :| p in sp.pos && sp.pos[p] == Mid(sp.pos[s].i) && Leads(m, p, sp.pos[s].j, s);
        assert Reached(m, sp, p);
        if sp.pos[t].Mid? {
          PlacesDiffer(m, sp, p, t);
        }
      }
    }
  }

  /** Entry `i` leads to table `c`: the subtree of `c` comes next. */
  lemma NextSubtree(m: Mem, sp: Space, t: nat, i: nat)
    requires WF(m, sp) && t in sp.pos && !sp.pos[t].Low? && i < 512 && V(m[t].e[i])
    ensures ChildOk(sp, t, i, m[t].e[i])
    ensures FirstSubtrees(sp, t, i + 1) == FirstSubtrees(sp, t, i) + Subtree(sp, Ppn(m[t].e[i]))
    ensures FirstSubtrees(sp, t, i) !! Subtree(sp, Ppn(m[t].e[i])) && t !in Subtree(sp, Ppn(m[t].e[i]))
    ensures Subtree(sp, Ppn(m[t].e[i])) <= Subtree(sp, t)
  {
    hide Up, V;
    assert ChildOk(sp, t, i, m[t].e[i]);
  }

  lemma SelfBelow(sp: Space, t: nat)
    requires t in sp.pos
    ensures t in Subtree(sp, t)
  {
  }

  lemma LowHasNone(m: Mem, sp: Space, t: nat, i: nat)
    requires WF(m, sp) && NoLeaves(m, sp) && t in sp.pos && i < 512 && V(m[t].e[i])
    ensures !sp.pos[t].Low?
  {
  }

  /** In a tree without leaf mappings freewalk meets inner entries only. */
  lemma LeafIsInterior(m: Mem, sp: Space, t: nat, i: nat)
    requires WF(m, sp) && NoLeaves(m, sp) && t in sp.pos && i < 512 && V(m[t].e[i])
    ensures Interior(m[t].e[i])
  {
    LowHasNone(m, sp, t, i);
    assert ChildOk(sp, t, i, m[t].e[i]);
  }

  // ------------------------------------------------------- user address spaces

  /** First page number above user memory: the trapframe page. */
  const HIGH: nat := PAGES - 2

  /**
   A user address space of `n` pages: page numbers 0..n are mapped, each to a page of its
   own, and nothing else is mapped below the trapframe.
   */
  ghost predicate UserMap(m: Mem, f: map<nat, nat>, n: nat) {
    && n <= HIGH
    && MappedRange(f, 0, n) && Backed(m, f, 0, n)
    && forall v :: v in f ==> v < n || v >= HIGH
  }

  /** The space gained table pages, and the pages in `leaves` were taken into use. */
  ghost predicate Grew(m0: Mem, sp0: Space, m: Mem, sp: Space, leaves: set<nat>) {
    && sp.root == sp0.root
    && (forall t :: t in sp0.pos ==> t in sp.pos && sp.pos[t] == sp0.pos[t])
    && (forall t :: t in sp.pos && t !in sp0.pos ==> t !in m0)
    && leaves !! m0.Keys && leaves !! sp.pos.Keys
    && m.Keys == m0.Keys + sp.pos.Keys + leaves
    && forall p :: p in m0 && p !in sp0.pos ==> m[p] == m0[p]
  }

  lemma GrewTrans(m0: Mem, sp0: Space, m1: Mem, sp1: Space, l1: set<nat>, m2: Mem, sp2: Space, l2: set<nat>)
    requires Grew(m0, sp0, m1, sp1, l1) && Grew(m1, sp1, m2, sp2, l2)
    ensures Grew(m0, sp0, m2, sp2, l1 + l2)
  {
    assert sp1.pos.Keys <= sp2.pos.Keys;
    assert m0.Keys <= m1.Keys && l1 <= m1.Keys;
    forall p | p in l1 ensures p !in sp2.pos {
      assert p in m1.Keys;
    }
    forall p | p in m0 && p !in sp0.pos ensures m2[p] == m0[p] {
      assert p in m1.Keys;
    }
  }

  lemma GrewNone(m: Mem, sp: Space)
    requires WF(m, sp)
    ensures Grew(m, sp, m, sp, {})
  {
    assert sp.pos.Keys <= m.Keys;
  }

  lemma ExtendsGrew(m: Mem, sp: Space, m': Mem, sp': Space)
    requires Extends(m, sp, m', sp')
    ensures Grew(m, sp, m', sp', {})
  {
  }

  /** kalloc, fill, mappages: table pages and the new leaf page. */
  lemma FreshGrew(m: Mem, sp: Space, p: nat, page: Page, m': Mem, sp': Space)
    requires WF(m, sp) && p !in m && Extends(m[p := page], sp, m', sp')
    ensures Grew(m, sp, m', sp', {p})
    ensures m'[p] == page
  {
    assert p in m[p := page];
    assert sp.pos.Keys <= m.Keys;
  }

  /** The same when the leaf page was given back. */
  lemma ReturnedGrew(m: Mem, sp: Space, p: nat, page: Page, m': Mem, sp': Space)
    requires WF(m, sp) && p !in m && Extends(m[p := page], sp, m', sp')
    ensures p in m' && p !in sp'.pos
    ensures Grew(m, sp, m' - {p}, sp', {})
  {
    assert p in m[p := page];
    assert sp.pos.Keys <= m.Keys;
    assert (m' - {p}).Keys == m'.Keys - {p};
  }

  /** Distinct pages are at most as many as there are pages. */
  lemma {:induction false} LeavesCount(f: map<nat, nat>, n: nat)
    requires forall v: nat :: v < n ==> v in f
    requires forall v: nat, w: nat :: v < w < n ==> Ppn(f[v]) != Ppn(f[w])
    ensures |Leaves(f, 0, n)| == n
  {
    hide Ppn, Leaves;
    if n == 0 {
      LeavesNone(f);
    } else {
      LeavesCount(f, n - 1);
      LeavesMore(f, 0, n - 1);
      LeafIsNew(f, n - 1);
    }
  }

  lemma LeafIsNew(f: map<nat, nat>, n: nat)
    requires forall v: nat :: v <= n ==> v in f
    requires forall v: nat :: v < n ==> Ppn(f[v]) != Ppn(f[n])
    ensures Ppn(f[n]) !in Leaves(f, 0, n)
  {
    hide Ppn;
  }

  /** No user address space can outgrow physical memory. */
  lemma UserBound(managed: set<nat>, free: seq<nat>, m: Mem, f: map<nat, nat>, n: nat)
    requires Parted(managed, free, m.Keys) && UserMap(m, f, n)
    ensures n <= MAXPAGES
  {
    LeavesCount(f, n);
    forall p | p in Leaves(f, 0, n) ensures p in managed {
      var v: nat :| v < n && v in f && p == Ppn(f[v]);
      assert LeafOk(m, f[v]);
      assert p in m.Keys;
    }
    SubsetSize(Leaves(f, 0, n), managed);
  }

  lemma LeavesNone(f: map<nat, nat>)
    ensures Leaves(f, 0, 0) == {}
  {
  }

  lemma RootSubtree(sp: Space)
    requires sp.root in sp.pos && sp.pos[sp.root] == Root
    ensures Subtree(sp, sp.root) == sp.pos.Keys
  {
  }

  lemma EmptySpace(m: Mem, root: nat)
    requires root in m && m[root] == ZeroTable()
    ensures WF(m, Space(root, map[root := Root])) && Flat(m, Space(root, map[root := Root])) == map[]
  {
    hide V;
    ZeroInvalid();
    var sp := Space(root, map[root := Root]);
    assert Reached(m, sp, root);
    forall v | 0 <= v < PAGES ensures !V(Pte(m, sp, v)) {
      assert I2(v) < 256;
    }
  }

  /** User page `v` came to be mapped to the fresh page `p`, which holds `page`. */
  lemma UserMapMore(m: Mem, f: map<nat, nat>, n: nat, m': Mem, sp: Space, p: nat, page: Page, perm: nat)
    requires UserMap(m, f, n) && n < HIGH && p !in m && perm < 1024 && OrV(perm) != PTE_V
    requires page.Data? && |page.bytes| == PGSIZE
    requires WF(m, sp) && p in m' && m'[p] == page
    requires forall q :: q in m && q !in sp.pos ==> q in m' && m'[q] == m[q]
    ensures UserMap(m', f[n := Pack(p, OrV(perm))], n + 1)
    ensures Ppn(Pack(p, OrV(perm))) == p && Flags(Pack(p, OrV(perm))) == OrV(perm)
  {
    hide Down, Up, V, Ppn, Flags, Pack;
    PackRoundTrip(p, OrV(perm));
    var f' := f[n := Pack(p, OrV(perm))];
    forall v: nat | v < n ensures LeafOk(m', f'[v]) && Ppn(f'[v]) != p {
      assert LeafOk(m, f[v]);
    }
  }

  /** Pages elsewhere do not matter to a user map. */
  lemma UserMapFrame(m: Mem, f: map<nat, nat>, n: nat, m': Mem, sp: Space)
    requires UserMap(m, f, n) && WF(m, sp)
    requires forall q :: q in m && q !in sp.pos ==> q in m' && m'[q] == m[q]
    ensures UserMap(m', f, n)
  {
    hide Down, Up, V, Ppn, Flags;
    forall v: nat | v < n ensures LeafOk(m', f[v]) {
      assert LeafOk(m, f[v]);
    }
  }

  lemma UserLeafKept(m: Mem, f: map<nat, nat>, n: nat, n': nat, m': Mem, sp: Space, v: nat)
    requires UserMap(m, f, n) && v < n' <= n && WF(m, sp)
    requires m'.Keys == m.Keys - Leaves(f, n', n)
    requires forall q :: q in m' && q !in sp.pos ==> m'[q] == m[q]
    ensures v in f && LeafOk(m', f[v])
  {
    hide Down, Up, V, Ppn, Flags;
    assert LeafOk(m, f[v]);
    assert Ppn(f[v]) !in Leaves(f, n', n);
    assert Ppn(f[v]) in m'.Keys;
  }

  /** The user part of the trimmed map. */
  lemma UserMapLess(m: Mem, f: map<nat, nat>, n: nat, n': nat, m': Mem, sp: Space)
    requires UserMap(m, f, n) && n' <= n && WF(m, sp)
    requires m'.Keys == m.Keys - Leaves(f, n', n)
    requires forall q :: q in m' && q !in sp.pos ==> m'[q] == m[q]
    ensures UserMap(m', Without(f, n', n), n')
  {
    hide WF, LeafOk, Leaves, Ppn, Flags;
    var f' := Without(f, n', n);
    forall v: nat | v < n' ensures v in f' && f'[v] == f[v] && LeafOk(m', f[v]) {
      UserLeafKept(m, f, n, n', m', sp, v);
    }
  }

  /** What mappages does when asked for a single page. */
  lemma OnePage(f: map<nat, nat>, a: nat, v: nat, p: nat, perm: nat, k: nat)
    requires a == v * PGSIZE && k <= Pages(a, PGSIZE)
    ensures Pages(a, PGSIZE) == 1 && a / PGSIZE == v
    ensures MapRange(f, v, p, k, perm) == if k == 0 then f else f[v := Pack(p, OrV(perm))]
  {
    assert (a + PGSIZE - 1) / PGSIZE == v;
    MapNone(f, v, p, perm);
    MapMore(f, v, p, 0, perm);
  }

  /** Pages lo..hi are zeroed and mapped with the given flags. */
  ghost predicate Zeroed(m: Mem, f: map<nat, nat>, lo: nat, hi: nat, flags: nat) {
    forall w: nat :: lo <= w < hi ==> w in f && Flags(f[w]) == flags && Ppn(f[w]) in m && m[Ppn(f[w])] == Filled(0)
  }

  /** uvmalloc's progress: the space `sp0` with flat map `f0` grew from `lo` to `hi` pages. */
  ghost predicate Growing(m0: Mem, sp0: Space, f0: map<nat, nat>, m: Mem, sp: Space, f: map<nat, nat>, lo: nat,
      hi: nat, flags: nat) {
    && lo <= hi && Without(f, lo, hi) == f0
    && Zeroed(m, f, lo, hi, flags)
    && Grew(m0, sp0, m, sp, Leaves(f, lo, hi))
  }

  lemma GrowingNone(m: Mem, sp: Space, f: map<nat, nat>, lo: nat, flags: nat)
    requires WF(m, sp) && UserMap(m, f, lo)
    ensures Growing(m, sp, f, m, sp, f, lo, lo, flags)
  {
    hide Down, Up;
    GrewNone(m, sp);
    assert Leaves(f, lo, lo) == {};
  }

  lemma GrowingOne(m0: Mem, sp0: Space, f0: map<nat, nat>, m: Mem, sp: Space, f: map<nat, nat>, lo: nat, hi: nat,
      perm: nat, m': Mem, sp': Space, p: nat)
    requires Growing(m0, sp0, f0, m, sp, f, lo, hi, OrV(perm)) && UserMap(m, f, hi) && hi < HIGH && perm < 1024
    requires WF(m, sp) && Grew(m, sp, m', sp', {p}) && p !in m && p in m' && m'[p] == Filled(0)
    ensures Growing(m0, sp0, f0, m', sp', f[hi := Pack(p, OrV(perm))], lo, hi + 1, OrV(perm))
  {
    hide Down, Up, Pack, Ppn, Flags, Filled, Grew, Leaves;
    PackRoundTrip(p, OrV(perm));
    var f' := f[hi := Pack(p, OrV(perm))];
    GrewTrans(m0, sp0, m, sp, Leaves(f, lo, hi), m', sp', {p});
    LeavesMore(f', lo, hi);
    SameLeaves(f, f', lo, hi);
    assert Without(f', lo, hi + 1) == f0;
    assert Zeroed(m', f', lo, hi + 1, OrV(perm)) by { ZeroedStay(m, sp, f, lo, hi, perm, m', sp', p); }
  }

  lemma SameLeaves(f: map<nat, nat>, f': map<nat, nat>, lo: nat, hi: nat)
    requires forall w: nat :: lo <= w < hi ==> w in f && w in f' && f'[w] == f[w]
    ensures Leaves(f', lo, hi) == Leaves(f, lo, hi)
  {
    hide Ppn;
  }

  lemma ZeroedStay(m: Mem, sp: Space, f: map<nat, nat>, lo: nat, hi: nat, perm: nat, m': Mem, sp': Space, p: nat)
    requires Zeroed(m, f, lo, hi, OrV(perm)) && WF(m, sp) && Grew(m, sp, m', sp', {p})
    ensures Zeroed(m', f, lo, hi, OrV(perm))
  {
    hide Down, Up, Ppn, Flags;
    forall w: nat | lo <= w < hi ensures Ppn(f[w]) in m' && m'[Ppn(f[w])] == Filled(0) {
      assert m[Ppn(f[w])].Data?;
    }
  }

  /** Giving back the pages taken since undoes all but the table pages. */
  lemma RolledBack(m0: Mem, sp0: Space, m1: Mem, sp1: Space, leaves: set<nat>, m2: Mem)
    requires WF(m0, sp0) && Grew(m0, sp0, m1, sp1, leaves)
    requires m2.Keys == m1.Keys - leaves
    requires forall q :: q in m2 && q !in sp1.pos ==> m2[q] == m1[q]
    ensures Grew(m0, sp0, m2, sp1, {})
  {
    hide Down, Up;
  }

  /** `fn` maps the first `k` pages like `fo`, with equal flags and equal contents. */
  ghost predicate Copied(m: Mem, fo: map<nat, nat>, fn: map<nat, nat>, k: nat) {
    forall v: nat :: v < k ==>
      && v in fo && v in fn && Flags(fn[v]) == Flags(fo[v])
      && Ppn(fo[v]) in m && Ppn(fn[v]) in m && m[Ppn(fn[v])] == m[Ppn(fo[v])]
  }

  lemma SubRange(m: Mem, f: map<nat, nat>, lo: nat, hi: nat)
    requires UserMap(m, f, hi)
    ensures MappedRange(f, lo, hi) && Backed(m, f, lo, hi)
  {
  }

  /** Pages in use, other than tables of the space, are still there with their contents. */
  ghost predicate PagesStay(m: Mem, m': Mem, sp: Space) {
    forall p :: p in m && p !in sp.pos ==> p in m' && m'[p] == m[p]
  }

  lemma GrewStay(m: Mem, sp: Space, m': Mem, sp': Space, leaves: set<nat>)
    requires Grew(m, sp, m', sp', leaves)
    ensures PagesStay(m, m', sp)
  {
    forall p | p in m && p !in sp.pos ensures p in m' && m'[p] == m[p] {
      assert p in m'.Keys;
    }
  }

  lemma WithoutNone(f: map<nat, nat>, n: nat)
    ensures Without(f, n, n) == f
  {
  }

  lemma ZeroedNone(m: Mem, f: map<nat, nat>, n: nat, flags: nat)
    ensures Zeroed(m, f, n, n, flags)
  {
  }

  lemma SameRoot(m: Mem, sp: Space, m': Mem, sp': Space, leaves: set<nat>)
    requires Grew(m, sp, m', sp', leaves)
    ensures sp'.root == sp.root
  {
  }

  lemma GrowingFailed(m0: Mem, sp0: Space, f0: map<nat, nat>, m: Mem, sp: Space, f: map<nat, nat>, lo: nat, hi: nat,
      flags: nat, m': Mem, sp': Space)
    requires Growing(m0, sp0, f0, m, sp, f, lo, hi, flags) && Grew(m, sp, m', sp', {})
    ensures Grew(m0, sp0, m', sp', Leaves(f, lo, hi)) && Without(f, lo, hi) == f0
  {
    hide Leaves, Grew;
    GrewTrans(m0, sp0, m, sp, Leaves(f, lo, hi), m', sp', {});
    assert Leaves(f, lo, hi) + {} == Leaves(f, lo, hi);
  }

  /** uvmcopy's progress: `v` of the parent's `n` pages are copied. */
  ghost predicate Copying(m0: Mem, od: Space, nw: Space, fo: map<nat, nat>, f0: map<nat, nat>, m: Mem, nw': Space,
      f: map<nat, nat>, n: nat, v: nat) {
    && v <= n && WF(m0, od) && WF(m0, nw) && od.pos.Keys !! nw.pos.Keys && Flat(m0, od) == fo
    && UserMap(m0, fo, n)
    && UserMap(m, f, v) && Without(f, 0, v) == f0
    && Copied(m, fo, f, v)
    && Grew(m0, nw, m, nw', Leaves(f, 0, v))
  }

  lemma CopyingNone(m: Mem, od: Space, nw: Space, fo: map<nat, nat>, f0: map<nat, nat>, n: nat)
    requires WF(m, od) && WF(m, nw) && od.pos.Keys !! nw.pos.Keys && Flat(m, od) == fo
    requires UserMap(m, fo, n) && UserMap(m, f0, 0)
    ensures Copying(m, od, nw, fo, f0, m, nw, f0, n, 0)
  {
    hide WF, UserMap, Flat, Grew;
    GrewNone(m, nw);
    LeavesNone(f0);
    assert Without(f0, 0, 0) == f0;
  }

  /** Pages that are not tables of the child are as they were. */
  lemma ParentUntouched(m0: Mem, od: Space, nw: Space, fo: map<nat, nat>, m: Mem, nw': Space, leaves: set<nat>, n: nat)
    requires WF(m0, od) && WF(m0, nw) && od.pos.Keys !! nw.pos.Keys && Flat(m0, od) == fo && UserMap(m0, fo, n)
    requires Grew(m0, nw, m, nw', leaves)
    ensures forall p :: p in m0 && p !in nw.pos ==> p in m && m[p] == m0[p]
    ensures WF(m, od) && Flat(m, od) == fo && UserMap(m, fo, n)
  {
    hide Down, Up, UserMap, Flat, V;
    assert m0.Keys <= m.Keys;
    FrameSpace(m0, m, od);
    UserMapFrame(m0, fo, n, m, nw);
  }

  lemma CopyingSource(managed: set<nat>, free: seq<nat>, m0: Mem, od: Space, nw: Space, fo: map<nat, nat>,
      f0: map<nat, nat>, m: Mem, nw': Space, f: map<nat, nat>, n: nat, v: nat)
    requires Copying(m0, od, nw, fo, f0, m, nw', f, n, v) && v < n && Parted(managed, free, m.Keys)
    ensures v < HIGH && WF(m, od) && Flat(m, od) == fo && UserMap(m, f, v)
    ensures v in fo && LeafOk(m, fo[v]) && Flags(fo[v]) != PTE_V && OrV(Flags(fo[v])) == Flags(fo[v])
  {
    hide WF, Flat, Grew, Parted, V, Ppn, Flags;
    ParentUntouched(m0, od, nw, fo, m, nw', Leaves(f, 0, v), n);
    UserBound(managed, free, m, f, v);
    MappedIsValid(m, od, v);
  }

  lemma MappedIsValid(m: Mem, sp: Space, v: nat)
    requires WF(m, sp) && v in Flat(m, sp)
    ensures V(Flat(m, sp)[v]) && OrV(Flags(Flat(m, sp)[v])) == Flags(Flat(m, sp)[v])
  {
  }

  lemma FoundLeaf(m: Mem, sp: Space, t: nat, a: nat, v: nat)
    requires WF(m, sp) && a == v * PGSIZE && v < PAGES && v in Flat(m, sp)
    requires t == 0 ==> Pte(m, sp, a / PGSIZE) == 0
    requires t != 0 ==> t in sp.pos && sp.pos[t] == PathAt(0, a)
    ensures t != 0 && IsTable(m, t) && m[t].e[PX(0, a)] == Flat(m, sp)[v]
  {
    hide Down, Up, V, Flat, PX, PathAt;
    assert a / PGSIZE == v;
    FlatAt(m, sp, v);
    ZeroInvalid();
    if t != 0 {
      LeafAt(m, sp, t, a);
    }
  }

  lemma CopyingOne(m0: Mem, od: Space, nw: Space, fo: map<nat, nat>, f0: map<nat, nat>, m: Mem, nw1: Space,
      f: map<nat, nat>, n: nat, v: nat, m': Mem, nw': Space, p: nat, pte: nat)
    requires Copying(m0, od, nw, fo, f0, m, nw1, f, n, v) && v < n && v < HIGH && v in fo && pte == fo[v]
    requires WF(m, nw1) && Grew(m, nw1, m', nw', {p}) && p !in m && p in m'
    requires Ppn(pte) in m && m[Ppn(pte)].Data? && m'[p] == m[Ppn(pte)] && OrV(Flags(pte)) == Flags(pte)
    requires UserMap(m', f[v := Pack(p, OrV(Flags(pte)))], v + 1)
    ensures Copying(m0, od, nw, fo, f0, m', nw', f[v := Pack(p, OrV(Flags(pte)))], n, v + 1)
  {
    hide WF, Pack, Ppn, Flags, Grew, Leaves, Flat, OrV, V;
    var f' := f[v := Pack(p, OrV(Flags(pte)))];
    PackRoundTrip(p, Flags(pte));
    GrewTrans(m0, nw, m, nw1, Leaves(f, 0, v), m', nw', {p});
    LeavesMore(f', 0, v);
    SameLeaves(f, f', 0, v);
    assert Without(f', 0, v + 1) == f0 by { WithoutMore(f, 0, v, m, p, f'); }
    CopiedStay(m, nw1, fo, f, v, m', nw', p, f', pte);
  }

  lemma WithoutMore(f: map<nat, nat>, lo: nat, hi: nat, m: Mem, p: nat, f': map<nat, nat>)
    requires lo <= hi && UserMap(m, f, hi) && hi < HIGH && f'.Keys == f.Keys + {hi}
    requires forall w :: w in f ==> f'[w] == f[w]
    ensures Without(f', lo, hi + 1) == Without(f, lo, hi)
  {
  }

  lemma CopiedStay(m: Mem, sp: Space, fo: map<nat, nat>, f: map<nat, nat>, v: nat, m': Mem, sp': Space, p: nat,
      f': map<nat, nat>, pte: nat)
    requires Copied(m, fo, f, v) && WF(m, sp) && Grew(m, sp, m', sp', {p})
    requires forall w: nat :: w < v ==> w in f && LeafOk(m, f[w]) && w in f' && f'[w] == f[w]
    requires v in fo && pte == fo[v] && Ppn(pte) in m && m[Ppn(pte)].Data? && p in m' && m'[p] == m[Ppn(pte)]
    requires v in f' && Ppn(f'[v]) == p && Flags(f'[v]) == Flags(pte)
    ensures Copied(m', fo, f', v + 1)
  {
    hide Down, Up, Ppn, Flags;
    forall w: nat | w < v + 1
      ensures w in fo && w in f' && Flags(f'[w]) == Flags(fo[w])
              && Ppn(fo[w]) in m' && Ppn(f'[w]) in m' && m'[Ppn(f'[w])] == m'[Ppn(fo[w])]
    {
      if w < v {
        assert LeafOk(m, f[w]);
        assert m[Ppn(fo[w])] == m[Ppn(f[w])];
      }
    }
  }

  lemma CopyingFailed(m0: Mem, od: Space, nw: Space, fo: map<nat, nat>, f0: map<nat, nat>, m: Mem, nw1: Space,
      f: map<nat, nat>, n: nat, v: nat, m': Mem, nw': Space)
    requires Copying(m0, od, nw, fo, f0, m, nw1, f, n, v)
    requires WF(m, nw1) && Grew(m, nw1, m', nw', {}) && UserMap(m', f, v)
    ensures Grew(m0, nw, m', nw', Leaves(f, 0, v)) && Without(f, 0, v) == f0
    ensures MappedRange(f, 0, v) && Backed(m', f, 0, v)
  {
    hide Leaves, Grew, WF, Flat;
    GrewTrans(m0, nw, m, nw1, Leaves(f, 0, v), m', nw', {});
    assert Leaves(f, 0, v) + {} == Leaves(f, 0, v);
  }

  lemma CopyRolledBack(m0: Mem, od: Space, nw: Space, fo: map<nat, nat>, f0: map<nat, nat>, m: Mem, nw': Space,
      f: map<nat, nat>, n: nat, v: nat, m': Mem)
    requires WF(m0, od) && WF(m0, nw) && od.pos.Keys !! nw.pos.Keys && Flat(m0, od) == fo && UserMap(m0, fo, n)
    requires Grew(m0, nw, m, nw', Leaves(f, 0, v))
    requires m'.Keys == m.Keys - Leaves(f, 0, v)
    requires forall q :: q in m' && q !in nw'.pos ==> m'[q] == m[q]
    ensures Grew(m0, nw, m', nw', {})
    ensures WF(m', od) && Flat(m', od) == fo && UserMap(m', fo, n)
    ensures forall p :: p in m0 && p !in nw.pos ==> p in m' && m'[p] == m0[p]
  {
    hide WF, Flat, UserMap, Leaves, Grew;
    RolledBack(m0, nw, m, nw', Leaves(f, 0, v), m');
    ParentUntouched(m0, od, nw, fo, m', nw', {}, n);
  }

  lemma CopyingDone(m0: Mem, od: Space, nw: Space, fo: map<nat, nat>, f0: map<nat, nat>, m: Mem, nw': Space,
      f: map<nat, nat>, n: nat, v: nat)
    requires Copying(m0, od, nw, fo, f0, m, nw', f, n, v)
    ensures WF(m, od) && Flat(m, od) == fo && UserMap(m, fo, n)
    ensures forall p :: p in m0 && p !in nw.pos ==> p in m && m[p] == m0[p]
    ensures UserMap(m, f, v) && Without(f, 0, v) == f0 && Copied(m, fo, f, v) && Grew(m0, nw, m, nw', Leaves(f, 0, v))
  {
    hide WF, Flat, UserMap, Leaves, Grew, Copied, Without;
    ParentUntouched(m0, od, nw, fo, m, nw', Leaves(f, 0, v), n);
  }

  // ------------------------------------------------- process address spaces

  /** The two supervisor pages that every process address space maps. */
  function ProcFlat(trampoline: nat, trapframe: nat): (f: map<nat, nat>) {
    map[PAGES - 1 := Pack(trampoline, OrV(PTE_R + PTE_X)), PAGES - 2 := Pack(trapframe, OrV(PTE_R + PTE_W))]
  }

  /** The trampoline and trapframe pages are mapped, and no page up there is for the user. */
  ghost predicate HighPages(f: map<nat, nat>) {
    MappedRange(f, PAGES - 2, PAGES) && forall v :: v in f && v >= HIGH ==> !U(f[v])
  }

  /** A process address space with `n` user pages. */
  ghost predicate ProcSpace(m: Mem, sp: Space, n: nat) {
    && WF(m, sp) && UserMap(m, Flat(m, sp), n)
    && HighPages(Flat(m, sp))
  }

  /** All that came into use since `m0` is the space's tables and the pages in `leaves`. */
  ghost predicate Apart(m0: Mem, m: Mem, sp: Space, leaves: set<nat>) {
    && sp.pos.Keys !! m0.Keys && leaves !! m0.Keys
    && m.Keys == m0.Keys + sp.pos.Keys + leaves
    && forall p :: p in m0 ==> m[p] == m0[p]
  }

  lemma ApartGrew(m0: Mem, m: Mem, sp: Space, leaves: set<nat>, m': Mem, sp': Space, more: set<nat>)
    requires Apart(m0, m, sp, leaves) && Grew(m, sp, m', sp', more)
    ensures Apart(m0, m', sp', leaves + more)
  {
    assert m0.Keys <= m.Keys;
    assert sp.pos.Keys <= sp'.pos.Keys;
  }

  lemma ApartTables(m0: Mem, m: Mem, sp: Space, leaves: set<nat>, m': Mem, sp': Space)
    requires Apart(m0, m, sp, leaves) && Grew(m, sp, m', sp', {})
    ensures Apart(m0, m', sp', leaves)
  {
    hide Grew;
    ApartGrew(m0, m, sp, leaves, m', sp', {});
    assert leaves + {} == leaves;
  }

  lemma FlatBound(m: Mem, sp: Space)
    requires WF(m, sp)
    ensures forall v :: v in Flat(m, sp) ==> v < PAGES
  {
  }

  /** Freeing the space restores the memory there was before it. */
  lemma ApartFreed(m0: Mem, m: Mem, sp: Space, leaves: set<nat>)
    requires Apart(m0, m, sp, leaves)
    ensures m - sp.pos.Keys - leaves == m0
  {
    var r := m - sp.pos.Keys - leaves;
    assert r.Keys == m0.Keys;
  }

  lemma LeavesSplit(f: map<nat, nat>, f': map<nat, nat>, lo: nat, hi: nat)
    requires lo <= hi && Without(f', lo, hi) == f
    ensures Leaves(f', 0, hi) == Leaves(f, 0, lo) + Leaves(f', lo, hi)
  {
    hide Ppn;
    forall v: nat | v < lo ensures v in f' <==> v in f {
      assert v in f' ==> v in Without(f', lo, hi);
    }
    forall v: nat | v < lo && v in f ensures f'[v] == f[v] {
      assert v in Without(f', lo, hi);
    }
  }

  lemma HighStays(m: Mem, f: map<nat, nat>, f': map<nat, nat>, lo: nat, hi: nat)
    requires Without(f', lo, hi) == f && hi <= HIGH && HighPages(f)
    ensures HighPages(f')
  {
    hide Flags, U;
    forall v: nat | PAGES - 2 <= v < PAGES ensures v in f' && Flags(f'[v]) != PTE_V {
      assert v in Without(f', lo, hi);
    }
    forall v | v in f' && v >= HIGH ensures !U(f'[v]) {
      assert v in Without(f', lo, hi);
    }
  }

  lemma ProcFlatMapped(trampoline: nat, trapframe: nat)
    ensures HighPages(ProcFlat(trampoline, trapframe))
  {
    hide Flags, Pack, U;
    PackRoundTrip(trampoline, OrV(PTE_R + PTE_X));
    PackRoundTrip(trapframe, OrV(PTE_R + PTE_W));
  }

  /** What the hardware lets the kernel do with the two pages; the user may not touch them. */
  lemma ProcFlatBits(trampoline: nat, trapframe: nat)
    ensures var f := ProcFlat(trampoline, trapframe);
      && f.Keys == {TRAMPOLINE / PGSIZE, TRAPFRAME / PGSIZE}
      && var a := f[TRAMPOLINE / PGSIZE];
      && var b := f[TRAPFRAME / PGSIZE];
      && Ppn(a) == trampoline && V(a) && R(a) && X(a) && !W(a) && !U(a)
      && Ppn(b) == trapframe && V(b) && R(b) && W(b) && !X(b) && !U(b)
  {
    hide Flags, Ppn, Pack, U, V, R, W, X;
    var fa, fb := OrV(PTE_R + PTE_X), OrV(PTE_R + PTE_W);
    PackRoundTrip(trampoline, fa);
    PackRoundTrip(trapframe, fb);
    PackBits(trampoline, fa);
    PackBits(trapframe, fb);
  }

  lemma PackBits(ppn: nat, flags: nat)
    ensures var pte := Pack(ppn, flags);
      R(pte) == (flags / 2 % 2 == 1) && W(pte) == (flags / 4 % 2 == 1) && X(pte) == (flags / 8 % 2 == 1)
  {
    hide Pack, R, W, X;
    PackR(ppn, flags);
    PackW(ppn, flags);
    PackX(ppn, flags);
  }

  lemma NoUserPages(m: Mem, f: map<nat, nat>)
    requires forall v :: v in f ==> v >= HIGH
    ensures UserMap(m, f, 0)
  {
  }

  lemma CreatedApart(m0: Mem, m: Mem, sp: Space, root: nat)
    requires root !in m0 && m == m0[root := ZeroTable()] && sp.pos.Keys == {root}
    ensures Apart(m0, m, sp, {})
  {
  }

  lemma UnmappedApart(m0: Mem, m: Mem, m': Mem, sp: Space)
    requires Apart(m0, m, sp, {}) && m'.Keys == m.Keys
    requires forall p :: p in m' && p !in sp.pos ==> m'[p] == m[p]
    ensures Apart(m0, m', sp, {})
  {
  }

  lemma TrampolineMapped(trampoline: nat)
    ensures MappedRange(map[PAGES - 1 := Pack(trampoline, OrV(PTE_R + PTE_X))], PAGES - 1, PAGES)
  {
    hide Flags, Pack;
    PackRoundTrip(trampoline, OrV(PTE_R + PTE_X));
  }

  lemma TrampolineGone(trampoline: nat)
    ensures Without(map[PAGES - 1 := Pack(trampoline, OrV(PTE_R + PTE_X))], PAGES - 1, PAGES) == map[]
  {
  }

  lemma UserOnly(m: Mem, f: map<nat, nat>, f': map<nat, nat>, n: nat)
    requires UserMap(m, f, n) && f' == Without(Without(f, PAGES - 1, PAGES), PAGES - 2, PAGES - 1)
    requires forall v :: v in f ==> v < PAGES
    ensures UserMap(m, f', n) && (forall v :: v in f' ==> v < HIGH) && Leaves(f', 0, n) == Leaves(f, 0, n)
  {
    hide Flags, LeafOk, Ppn;
    SameLeaves(f, f', 0, n);
  }

  /** An image under construction: everything taken since `m0` belongs to it. */
  ghost predicate Image(m0: Mem, m: Mem, sp: Space, n: nat) {
    ProcSpace(m, sp, n) && Apart(m0, m, sp, Leaves(Flat(m, sp), 0, n))
  }

  lemma ImageShape(m0: Mem, m: Mem, sp: Space, n: nat)
    requires Image(m0, m, sp, n)
    ensures WF(m, sp)
  {
  }

  lemma ImageNone(m0: Mem, m: Mem, sp: Space)
    requires ProcSpace(m, sp, 0) && Apart(m0, m, sp, {})
    ensures Image(m0, m, sp, 0)
  {
    LeavesNone(Flat(m, sp));
  }

  /** New pages between the old end and the new one make a larger image. */
  lemma ImageGrew(m0: Mem, m: Mem, sp: Space, n: nat, m': Mem, sp': Space, n': nat)
    requires Image(m0, m, sp, n) && WF(m', sp') && n <= n' && UserMap(m', Flat(m', sp'), n')
    requires Without(Flat(m', sp'), n, n') == Flat(m, sp)
    requires Grew(m, sp, m', sp', Leaves(Flat(m', sp'), n, n'))
    ensures Image(m0, m', sp', n')
  {
    hide WF, Flat, Leaves, Grew, Apart, Backed, MappedRange, Without, HighPages;
    var f, f' := Flat(m, sp), Flat(m', sp');
    HighStays(m, f, f', n, n');
    LeavesSplit(f, f', n, n');
    ApartGrew(m0, m, sp, Leaves(f, 0, n), m', sp', Leaves(f', n, n'));
  }

  lemma ImageSame(m0: Mem, m: Mem, sp: Space, n: nat, m': Mem, sp': Space)
    requires Image(m0, m, sp, n) && WF(m', sp') && UserMap(m', Flat(m', sp'), n)
    requires Flat(m', sp') == Flat(m, sp) && Grew(m, sp, m', sp', {})
    ensures Image(m0, m', sp', n)
  {
    hide WF, Flat, Leaves, Grew, Apart, Backed, MappedRange, HighPages;
    ApartTables(m0, m, sp, Leaves(Flat(m, sp), 0, n), m', sp');
  }

  lemma HighKept(f: map<nat, nat>, lo: nat, hi: nat)
    requires hi <= HIGH && HighPages(f)
    ensures HighPages(Without(f, lo, hi))
  {
    hide Flags, U;
  }

  /** The pages below and above n' are different pages. */
  lemma LeavesApart(m: Mem, f: map<nat, nat>, n: nat, n': nat)
    requires Backed(m, f, 0, n) && n' <= n
    ensures Leaves(f, 0, n') !! Leaves(f, n', n)
  {
    hide Ppn;
  }

  lemma LeavesNotTables(m: Mem, sp: Space, n: nat, n': nat)
    requires WF(m, sp) && Backed(m, Flat(m, sp), 0, n) && n' <= n
    ensures Leaves(Flat(m, sp), n', n) !! sp.pos.Keys
  {
    hide Flat, Ppn, Down, Up;
    var f := Flat(m, sp);
    forall v: nat | v < n ensures Ppn(f[v]) !in sp.pos {
      assert LeafOk(m, f[v]);
    }
  }

  /** uvmdealloc keeps the image, with the pages below the new end. */
  lemma ImageShrunk(m0: Mem, m: Mem, sp: Space, n: nat, m': Mem, n': nat)
    requires Image(m0, m, sp, n) && WF(m', sp) && n' <= n && UserMap(m', Flat(m', sp), n')
    requires Flat(m', sp) == Without(Flat(m, sp), n', n)
    requires m'.Keys == m.Keys - Leaves(Flat(m, sp), n', n)
    requires forall q :: q in m' && q !in sp.pos ==> m'[q] == m[q]
    ensures Image(m0, m', sp, n')
  {
    hide WF, Flat, Leaves, MappedRange, Without, Backed, HighPages;
    var f, f' := Flat(m, sp), Flat(m', sp);
    HighKept(f, n', n);
    LeavesSplit(f', f, n', n);
    ShrunkBelow(f, n, n');
    LeavesApart(m, f, n, n');
    LeavesNotTables(m, sp, n, n');
    assert m'.Keys == m0.Keys + sp.pos.Keys + Leaves(f', 0, n');
  }

  lemma ShrunkBelow(f: map<nat, nat>, n: nat, n': nat)
    requires n' <= n
    ensures Leaves(Without(f, n', n), 0, n') == Leaves(f, 0, n')
  {
    hide Ppn;
    forall v: nat | v < n' ensures v in Without(f, n', n) <==> v in f {
    }
  }

  /** Freeing an image restores the memory there was before it. */
  lemma ImageFreed(m0: Mem, m: Mem, sp: Space, n: nat)
    requires Image(m0, m, sp, n)
    ensures m - sp.pos.Keys - Leaves(Flat(m, sp), 0, n) == m0
  {
    hide WF, Flat, Leaves, UserMap, HighPages;
    ApartFreed(m0, m, sp, Leaves(Flat(m, sp), 0, n));
  }

  /** Clearing the U bit of one page keeps the image. */
  lemma ImageGuarded(m0: Mem, m: Mem, sp: Space, n: nat, m': Mem, v: nat)
    requires Image(m0, m, sp, n) && v < n && WF(m', sp)
    requires v in Flat(m, sp) && R(Flat(m, sp)[v])
    requires Flat(m', sp) == Flat(m, sp)[v := ClearU(Flat(m, sp)[v])]
    requires m'.Keys == m.Keys && forall p :: p in m && p !in sp.pos ==> m'[p] == m[p]
    ensures Image(m0, m', sp, n)
  {
    hide WF, Flat, Leaves, ClearU, V, U, R, Ppn, Flags;
    var f, f' := Flat(m, sp), Flat(m', sp);
    ClearUKeeps(f[v]);
    UserMapFrame(m, f, n, m', sp);
    forall w: nat | w < n ensures LeafOk(m', f'[w]) && Ppn(f'[w]) == Ppn(f[w]) {
      assert LeafOk(m', f[w]);
    }
    SamePpns(f, f', n);
  }

  lemma SamePpns(f: map<nat, nat>, f': map<nat, nat>, n: nat)
    requires f'.Keys == f.Keys && forall w: nat :: w < n && w in f ==> Ppn(f'[w]) == Ppn(f[w])
    ensures Leaves(f', 0, n) == Leaves(f, 0, n)
  {
    hide Ppn;
  }

  /** The old image survives while the new one is built beside it. */
  lemma OldImageStays(m0: Mem, od: Space, n: nat, m: Mem, sp: Space, leaves: set<nat>)
    requires ProcSpace(m0, od, n) && Apart(m0, m, sp, leaves)
    ensures ProcSpace(m, od, n) && Flat(m, od) == Flat(m0, od)
  {
    hide Down, Up, Flat, V, Backed, MappedRange, HighPages;
    FrameSpace(m0, m, od);
    UserMapFrame(m0, Flat(m0, od), n, m, od);
  }

  /** Exchanging one image for another: the rest of memory is untouched. */
  lemma Exchanged(m0: Mem, od: Space, old_: set<nat>, m: Mem, sp: Space, leaves: set<nat>)
    requires Apart(m0, m, sp, leaves) && od.pos.Keys <= m0.Keys && old_ <= m0.Keys
    ensures Apart(m0 - od.pos.Keys - old_, m - od.pos.Keys - old_, sp, leaves)
  {
    var r, r' := m0 - od.pos.Keys - old_, m - od.pos.Keys - old_;
    assert r.Keys == m0.Keys - od.pos.Keys - old_;
    assert r'.Keys == m.Keys - od.pos.Keys - old_;
  }

  lemma OwnedInUse(m: Mem, sp: Space, n: nat)
    requires ProcSpace(m, sp, n)
    ensures sp.pos.Keys <= m.Keys && Leaves(Flat(m, sp), 0, n) <= m.Keys
  {
    hide Down, Up, Flat, V, Ppn;
    var f := Flat(m, sp);
    forall p | p in Leaves(f, 0, n) ensures p in m.Keys {
      var v: nat :| v < n && v in f && p == Ppn(f[v]);
      assert LeafOk(m, f[v]);
    }
  }

  lemma RoundUpLess(a: nat, b: nat)
    requires a <= b
    ensures PgRoundUp(a) / PGSIZE <= PgRoundUp(b) / PGSIZE
  {
  }

  lemma RoundUpZero()
    ensures PgRoundUp(0) / PGSIZE == 0
  {
  }

  lemma RoundUpTwice(sz: nat)
    requires sz % PGSIZE == 0
    ensures PgRoundUp(sz) == sz && PgRoundUp(sz + 2 * PGSIZE) == sz + 2 * PGSIZE
    ensures sz / PGSIZE * PGSIZE == sz && (sz + 2 * PGSIZE) / PGSIZE == sz / PGSIZE + 2
  {
  }

  /** The first of the two new pages is mapped readable, so it stays a leaf without U. */
  lemma GuardPage(m: Mem, sp: Space, lo: nat, n: nat)
    requires WF(m, sp) && n == lo + 2 && UserMap(m, Flat(m, sp), n)
    requires Zeroed(m, Flat(m, sp), lo, n, OrV(PTE_R + PTE_U + PTE_W))
    ensures n <= HIGH && lo in Flat(m, sp) && R(Flat(m, sp)[lo])
  {
    hide WF, Flat, Ppn, Filled, Pack, R, Flags;
    var pte := Flat(m, sp)[lo];
    Packed(pte);
    PackR(Ppn(pte), Flags(pte));
  }

  /** An image depends on its own pages only. */
  lemma ExchangedImage(m0: Mem, m: Mem, m': Mem, sp: Space, n: nat, r: Mem)
    requires Image(m0, m, sp, n) && Apart(r, m', sp, Leaves(Flat(m, sp), 0, n))
    requires forall p :: p in m' ==> p in m && m'[p] == m[p]
    ensures Image(r, m', sp, n) && Flat(m', sp) == Flat(m, sp)
  {
    hide Down, Up, Flat, V, MappedRange, HighPages, Ppn, Flags;
    var f := Flat(m, sp);
    forall t | t in sp.pos ensures t in m' && m'[t] == m[t] {
      assert t in m'.Keys;
    }
    FrameSpace(m, m', sp);
    forall v: nat | v < n ensures v in f && LeafOk(m', f[v]) {
      assert LeafOk(m, f[v]);
      assert Ppn(f[v]) in Leaves(f, 0, n);
      assert Ppn(f[v]) in m'.Keys;
    }
  }
}
