/** Physical pages and user page tables: kernel/kalloc.c and kernel/vm.c. */
module Vm {
  import opened Collections
  import opened Sv39
  import opened PageTable
  import opened VmSpec
  import opened PageCost
  import opened UserMem

  class Vm {
    ghost const managed: set<nat>
    var free: seq<nat>   // kmem.freelist
    var mem: Mem         // pages in use

    ghost predicate Partition()
      reads this
    {
      Parted(managed, free, mem.Keys)
    }

    /** kinit: every page between the end of the kernel and the top of memory goes on the free list. */
    constructor (lo: nat, hi: nat)
      requires 0 < lo <= hi <= lo + MAXPAGES
      ensures Partition() && mem == map[] && free == FreeDown(lo, hi) && managed == Elems(FreeDown(lo, hi))
    {
      var pages := FreeRange(lo, hi);
      AllFree(lo, hi, map[]);
      managed, free, mem := Elems(pages), pages, map[];
    }

    static method FreeRange(lo: nat, hi: nat) returns (pages: seq<nat>)
      requires lo <= hi
      ensures pages == FreeDown(lo, hi)
    {
      pages := [];
      var p := lo;
      while p < hi
        invariant lo <= p <= hi && pages == FreeDown(lo, p)
      {
        pages := [p] + pages;
        p := p + 1;
      }
    }

    /** kalloc: the first page of the free list, filled with junk; 0 when there is none. */
    method Kalloc() returns (p: nat)
      requires Partition()
      modifies this
      ensures Partition()
      ensures p == 0 <==> old(free) == []
      ensures p == 0 ==> mem == old(mem) && free == old(free)
      ensures p != 0 ==> p !in old(mem) && p in managed && free == old(free)[1..] && mem == old(mem)[p := Filled(5)]
    {
      hide Parted, Filled;
      if free == [] {
        return 0;
      }
      TakeFree(managed, free, mem.Keys);
      p := free[0];
      NotNull(managed, free, mem.Keys);
      free := free[1..];
      mem := mem[p := Filled(5)];
      assert mem.Keys == old(mem.Keys) + {p};
    }

    /** kfree: put the page back on the free list. */
    method Kfree(p: nat)
      requires Partition() && p in mem
      modifies this
      ensures Partition()
      ensures free == [p] + old(free) && mem == old(mem) - {p}
    {
      hide Parted;
      PutFree(managed, free, mem.Keys, p);
      free := [p] + free;
      mem := mem - {p};
      assert mem.Keys == old(mem.Keys) - {p};
    }

    /** Create a table page under entry `i` of table `t`. */
    method NewTable(ghost m0: Mem, ghost sp0: Space, ghost sp: Space, t: nat, i: nat) returns (c: nat, ghost sp': Space)
      requires Partition() && WF(m0, sp0) && WF(mem, sp) && Extends(m0, sp0, mem, sp)
      requires t in sp.pos && !sp.pos[t].Low? && i < 512 && !V(mem[t].e[i])
      requires sp.pos[t].Root? ==> i < 256
      modifies this
      ensures Partition() && WF(mem, sp') && Extends(m0, sp0, mem, sp') && sp'.root == sp.root
      ensures Flat(mem, sp') == old(Flat(mem, sp))
      ensures c == 0 ==> free == [] && old(free) == [] && sp' == sp && mem == old(mem)
      ensures c != 0 ==> sp' == Grown(sp, t, i, c) && c in sp'.pos && |free| == |old(free)| - 1
      ensures c != 0 ==> Places(sp') == Places(sp) + {Sub(sp.pos[t], i)}
    {
      hide V, Ppn, Flat, Down, Up, Extends, Pack, Parted, Places;
      ghost var m := mem;
      c := Kalloc();
      if c == 0 {
        return 0, sp;
      }
      ghost var used := mem.Keys;
      mem := mem[c := ZeroTable()];
      mem := SetEntry(mem, t, i, Pack(c, PTE_V));
      assert mem.Keys == used;
      assert mem == Graft(m, t, i, c);
      GraftExtends(m0, sp0, m, sp, t, i, c);
      GrownPlaces(sp, t, i, c);
      sp' := Grown(sp, t, i, c);
    }

    /**
     walk: the leaf table that holds the entry for `va`, or 0. With `alloc`, missing table
     pages are created. The flat map never changes.
     */
    method Walk(ghost sp: Space, root: nat, va: nat, alloc: bool) returns (t: nat, ghost sp': Space)
      requires Partition() && WF(mem, sp) && root == sp.root && va < MAXVA
      modifies this
      ensures Partition() && WF(mem, sp') && Extends(old(mem), sp, mem, sp')
      ensures Flat(mem, sp') == old(Flat(mem, sp))
      ensures t != 0 ==> t in sp'.pos && sp'.pos[t] == PathAt(0, va)
      ensures t == 0 && alloc ==> free == []
      ensures alloc ==> (t == 0 <==> |old(free)| < |Missing(Places(sp), va / PGSIZE, va / PGSIZE + 1)|)
      ensures alloc && t != 0 ==> GotTables(sp, sp', va / PGSIZE, va / PGSIZE + 1, |old(free)|, |free|)
      ensures !alloc ==> mem == old(mem) && free == old(free) && sp' == sp
      ensures t == 0 && !alloc ==> Pte(mem, sp, va / PGSIZE) == 0
    {
      hide V, Ppn, Flat, Down, Up, Extends, Parted, PX, Places, Walked, Missing, GotTables;
      ExtendsSelf(mem, sp);
      PageIndices(va);
      WalkStarts(sp, va, |free|);
      t, sp' := root, sp;
      var level := 2;
      while level > 0
        invariant 0 <= level <= 2
        invariant Partition() && WF(mem, sp') && Extends(old(mem), sp, mem, sp')
        invariant Flat(mem, sp') == old(Flat(mem, sp))
        invariant t in sp'.pos && sp'.pos[t] == PathAt(level, va)
        invariant Walked(sp, sp', level, va, |old(free)|, |free|)
        invariant !alloc ==> mem == old(mem) && free == old(free) && sp' == sp
      {
        var pte := mem[t].e[PX(level, va)];
        NotPlaced(mem, sp', t, level, va);
        if V(pte) {
          Child(mem, sp', t, PX(level, va));
          WalkDown(sp, sp', level, va, |old(free)|, |free|);
          t := Ppn(pte);
        } else {
          if !alloc {
            MissingTable(mem, sp, t, level, va);
            return 0, sp;
          }
          ghost var sp1, free1 := sp', |free|;
          t, sp' := NewTable(old(mem), sp, sp', t, PX(level, va));
          if t == 0 {
            WalkFails(sp, sp1, level, va, |old(free)|);
            return;
          }
          WalkNew(sp, sp1, sp', level, va, |old(free)|, free1);
        }
        level := level - 1;
      }
      NonZero(managed, free, mem, sp', t);
      WalkEnds(sp, sp', va, |old(free)|, |free|);
      GotAll(sp, sp', va / PGSIZE, |old(free)|, |free|);
    }

    /** walk with `alloc`, as one of several steps on the same space. */
    method WalkOn(ghost m0: Mem, ghost sp0: Space, ghost sp: Space, root: nat, va: nat)
      returns (t: nat, ghost sp': Space)
      requires Partition() && WF(mem, sp) && Extends(m0, sp0, mem, sp) && root == sp.root && va < MAXVA
      modifies this
      ensures Partition() && WF(mem, sp') && Extends(m0, sp0, mem, sp') && sp'.root == sp.root
      ensures Flat(mem, sp') == old(Flat(mem, sp))
      ensures t != 0 ==> t in sp'.pos && sp'.pos[t] == PathAt(0, va)
      ensures t == 0 ==> free == []
      ensures t == 0 <==> |old(free)| < |Missing(Places(sp), va / PGSIZE, va / PGSIZE + 1)|
      ensures t != 0 ==> GotTables(sp, sp', va / PGSIZE, va / PGSIZE + 1, |old(free)|, |free|)
    {
      hide Flat, Down, Up, Parted, Missing, GotTables;
      t, sp' := Walk(sp, root, va, true);
      assert sp.pos.Keys <= old(mem).Keys;
      ExtendsTrans(m0, sp0, old(mem), sp, mem, sp');
    }

    /** The body of mappages's loop. */
    method MapPage(ghost m0: Mem, ghost sp0: Space, ghost sp: Space, root: nat, a: nat, p: nat, perm: nat, ghost v: nat)
      returns (r: MapStatus, ghost sp': Space)
      requires Partition() && WF(mem, sp) && Extends(m0, sp0, mem, sp) && root == sp.root && a == v * PGSIZE
          && v < PAGES && perm < 1024
      modifies this
      ensures Partition() && WF(mem, sp') && Extends(m0, sp0, mem, sp') && sp'.root == sp.root
      ensures Flat(mem, sp') == if r.Mapped? then old(Flat(mem, sp))[v := Pack(p, OrV(perm))] else old(Flat(mem, sp))
      ensures r.Mapped? ==> v !in old(Flat(mem, sp))
      ensures r.Remap? ==> v in old(Flat(mem, sp))
      ensures r.NoMem? ==> free == []
      ensures r.NoMem? <==> |old(free)| < |Missing(Places(sp), v, v + 1)|
      ensures !r.NoMem? ==> GotTables(sp, sp', v, v + 1, |old(free)|, |free|)
    {
      hide V, Ppn, Pack, Flat, Down, Up, Extends, Parted, PX, PathAt, Missing, GotTables;
      assert a / PGSIZE == v;
      var t;
      t, sp' := WalkOn(m0, sp0, sp, root, a);
      if t == 0 {
        return NoMem, sp';
      }
      LeafAt(mem, sp', t, a);
      if V(mem[t].e[PX(0, a)]) {
        return Remap, sp';
      }
      LeafWrite(m0, sp0, mem, sp', t, a, Pack(p, OrV(perm)));
      PackedValid(p, perm);
      ghost var m := mem;
      mem := SetEntry(mem, t, PX(0, a), Pack(p, OrV(perm)));
      assert mem.Keys == m.Keys;
      r := Mapped;
    }

    /**
     mappages: map the pages from va to va + size - 1 to consecutive physical pages. `k` is
     how many were mapped: all of them, or those before walk ran out of memory or before an
     entry that was already valid (the kernel then panics).
     */
    method MapPages(ghost sp: Space, root: nat, va: nat, size: nat, ppn: nat, perm: nat)
      returns (r: MapStatus, ghost k: nat, ghost sp': Space)
      requires Partition() && WF(mem, sp) && root == sp.root
      requires size > 0 && va + size <= MAXVA && perm < 1024
      modifies this
      ensures Partition() && WF(mem, sp') && Extends(old(mem), sp, mem, sp')
      ensures Flat(mem, sp') == MapRange(old(Flat(mem, sp)), va / PGSIZE, ppn, k, perm)
      ensures k <= Pages(va, size) && (r.Mapped? <==> k == Pages(va, size))
      ensures forall i :: va / PGSIZE <= i < va / PGSIZE + k ==> i !in old(Flat(mem, sp))
      ensures r.Remap? ==> va / PGSIZE + k in old(Flat(mem, sp))
      ensures r.NoMem? ==> free == []
      ensures r.NoMem? ==> |old(free)| < |Missing(Places(sp), va / PGSIZE, va / PGSIZE + k + 1)|
      ensures r.Mapped? ==> GotTables(sp, sp', va / PGSIZE, va / PGSIZE + k, |old(free)|, |free|)
    {
      hide Flat, WF, Extends, Parted, MapRange, Missing, GotTables;
      var a := PgRoundDown(va);
      var last := PgRoundDown(va + size - 1);
      r, k, sp' := MapLoop(sp, root, a, last, ppn, perm, va / PGSIZE, Pages(va, size));
    }

    /** The loop of mappages, from the aligned address `a` to `last`. */
    method MapLoop(ghost sp: Space, root: nat, first: nat, last: nat, ppn: nat, perm: nat, ghost v: nat, ghost n: nat)
      returns (r: MapStatus, ghost k: nat, ghost sp': Space)
      requires Partition() && WF(mem, sp) && root == sp.root && perm < 1024
      requires n > 0 && first == v * PGSIZE && last == (v + n - 1) * PGSIZE && v + n <= PAGES
      modifies this
      ensures Partition() && WF(mem, sp') && Extends(old(mem), sp, mem, sp')
      ensures Flat(mem, sp') == MapRange(old(Flat(mem, sp)), v, ppn, k, perm)
      ensures k <= n && (r.Mapped? <==> k == n)
      ensures forall i :: v <= i < v + k ==> i !in old(Flat(mem, sp))
      ensures r.Remap? ==> v + k in old(Flat(mem, sp))
      ensures r.NoMem? ==> free == []
      ensures r.NoMem? ==> |old(free)| < |Missing(Places(sp), v, v + k + 1)|
      ensures r.Mapped? ==> GotTables(sp, sp', v, v + k, |old(free)|, |free|)
    {
      hide V, Ppn, Pack, Flat, WF, Extends, Parted, MapRange, Missing, GotTables;
      var a, p := first, ppn;
      ghost var f := Flat(mem, sp);
      k, sp' := 0, sp;
      ExtendsSelf(mem, sp);
      MapNone(f, v, ppn, perm);
      GotNone(sp, v, |free|);
      while true
        invariant 0 <= k < n && a == (v + k) * PGSIZE && p == ppn + k
        invariant Partition() && WF(mem, sp') && Extends(old(mem), sp, mem, sp') && sp'.root == root
        invariant Flat(mem, sp') == MapRange(f, v, ppn, k, perm)
        invariant forall i :: v <= i < v + k ==> i !in f
        invariant GotTables(sp, sp', v, v + k, |old(free)|, |free|)
        decreases n - k
      {
        MapBeyond(f, v, ppn, k, perm, v + k);
        ghost var sp1, free1 := sp', |free|;
        r, sp' := MapPage(old(mem), sp, sp', root, a, p, perm, v + k);
        if r.NoMem? {
          TooManyTables(sp, sp1, v, v + k, v + k + 1, |old(free)|, free1);
        }
        if !r.Mapped? {
          return;
        }
        GotTablesMore(sp, sp1, sp', v, v + k, v + k + 1, |old(free)|, free1, |free|);
        MapMore(f, v, ppn, k, perm);
        k := k + 1;
        if a == last {
          break;
        }
        a := a + PGSIZE;
        p := p + 1;
      }
      r := Mapped;
    }

    /** The body of uvmunmap's loop. */
    method UnmapPage(ghost sp: Space, root: nat, a: nat, doFree: bool, ghost v: nat) returns (panic: bool)
      requires Partition() && WF(mem, sp) && root == sp.root && a == v * PGSIZE && v < PAGES
      requires v in Flat(mem, sp) && Flags(Flat(mem, sp)[v]) != PTE_V
      requires doFree ==> LeafOk(mem, Flat(mem, sp)[v])
      modifies this
      ensures !panic && Partition() && WF(mem, sp)
      ensures Flat(mem, sp) == old(Flat(mem, sp)) - {v}
      ensures mem.Keys == if doFree then old(mem.Keys) - {Ppn(old(Flat(mem, sp))[v])} else old(mem.Keys)
      ensures forall p :: p in mem && p !in sp.pos ==> mem[p] == old(mem)[p]
    {
      hide V, Ppn, Flat, Down, Up, Parted, PX, PathAt, Extends;
      assert a / PGSIZE == v;
      ghost var f := Flat(mem, sp);
      FlatAt(mem, sp, v);
      ZeroInvalid();
      var t;
      ghost var sp';
      t, sp' := Walk(sp, root, a, false);
      if t == 0 {
        return true;
      }
      LeafAt(mem, sp, t, a);
      var pte := mem[t].e[PX(0, a)];
      if !V(pte) {
        return true;
      }
      if Flags(pte) == PTE_V {
        return true;
      }
      if doFree {
        ghost var m := mem;
        Kfree(Ppn(pte));
        FrameSpace(m, mem, sp);
      }
      ExtendsSelf(mem, sp);
      LeafWrite(mem, sp, mem, sp, t, a, 0);
      ghost var m, used := mem, mem.Keys;
      mem := SetEntry(mem, t, PX(0, a), 0);
      assert mem.Keys == used;
      panic := false;
    }

    /** uvmunmap: remove `npages` mappings from `va` on, optionally freeing the pages. */
    method UvmUnmap(ghost sp: Space, root: nat, va: nat, npages: nat, doFree: bool) returns (panic: bool)
      requires Partition() && WF(mem, sp) && root == sp.root
      requires va % PGSIZE == 0 && va / PGSIZE + npages <= PAGES
      requires MappedRange(Flat(mem, sp), va / PGSIZE, va / PGSIZE + npages)
      requires doFree ==> Backed(mem, Flat(mem, sp), va / PGSIZE, va / PGSIZE + npages)
      modifies this
      ensures !panic && Partition() && WF(mem, sp)
      ensures Flat(mem, sp) == Without(old(Flat(mem, sp)), va / PGSIZE, va / PGSIZE + npages)
      ensures mem.Keys == if doFree then old(mem.Keys - Leaves(Flat(mem, sp), va / PGSIZE, va / PGSIZE + npages))
                          else old(mem.Keys)
      ensures forall p :: p in mem && p !in sp.pos ==> mem[p] == old(mem)[p]
    {
      hide Ppn, Flat, WF, Parted, LeafOk, Flags, Leaves, Without;
      ghost var v, f, m0, k := va / PGSIZE, Flat(mem, sp), mem, 0;
      if va % PGSIZE != 0 {
        return true;
      }
      var a := va;
      UnmapNone(f, v, mem.Keys);
      panic := false;
      while a < va + npages * PGSIZE
        invariant !panic && 0 <= k <= npages && a == (v + k) * PGSIZE
        invariant Partition() && WF(mem, sp)
        invariant Flat(mem, sp) == Without(f, v, v + k)
        invariant mem.Keys == if doFree then m0.Keys - Leaves(f, v, v + k) else m0.Keys
        invariant forall p :: p in mem && p !in sp.pos ==> mem[p] == m0[p]
      {
        UnmapOne(m0, mem, sp, f, v, npages, k, doFree);
        panic := UnmapPage(sp, root, a, doFree, v + k);
        if panic {
          return;
        }
        a := a + PGSIZE;
        k := k + 1;
      }
    }

    /** freewalk: free the table pages of the subtree at `t`, which must map nothing. */
    method FreeWalk(ghost sp: Space, ghost m0: Mem, t: nat) returns (panic: bool)
      requires Partition() && WF(m0, sp) && NoLeaves(m0, sp) && t in sp.pos
      requires forall s :: s in Subtree(sp, t) ==> s in mem && mem[s] == m0[s]
      modifies this
      ensures !panic && Partition() && mem == old(mem) - Subtree(sp, t)
      decreases Height(sp.pos[t])
    {
      hide V, Ppn, Down, Up, Parted, Interior, Subtree, FirstSubtrees;
      ghost var m := mem;
      SelfBelow(sp, t);
      NoneFreed(sp, t);
      panic := false;
      var i := 0;
      while i < 512
        invariant !panic && 0 <= i <= 512
        invariant Partition()
        invariant mem.Keys == m.Keys - FirstSubtrees(sp, t, i)
        invariant t in mem && mem[t].Table? && |mem[t].e| == 512
        invariant forall k :: i <= k < 512 ==> mem[t].e[k] == m0[t].e[k]
        invariant forall p :: p in mem && p != t ==> mem[p] == m[p]
      {
        var pte := mem[t].e[i];
        if V(pte) && Interior(pte) {
          LowHasNone(m0, sp, t, i);
          NextSubtree(m0, sp, t, i);
          ghost var mi := mem;
          panic := FreeWalk(sp, m0, Ppn(pte));
          if panic {
            return;
          }
          ghost var used := mem.Keys;
          mem := SetEntry(mem, t, i, 0);
          assert mem.Keys == used;
        } else if V(pte) {
          LeafIsInterior(m0, sp, t, i);
          return true;
        } else {
          SkipEntry(m0, sp, t, i);
        }
        i := i + 1;
      }
      AllFreed(m0, sp, t);
      Kfree(t);
      assert mem.Keys == m.Keys - Subtree(sp, t);
    }

    /** uvmfree: unmap and free the user pages, then free the table pages. */
    method UvmFree(ghost sp: Space, root: nat, sz: nat) returns (panic: bool)
      requires Partition() && WF(mem, sp) && root == sp.root
      requires UserMap(mem, Flat(mem, sp), PgRoundUp(sz) / PGSIZE)
      requires forall v :: v in Flat(mem, sp) ==> v < HIGH
      modifies this
      ensures !panic && Partition()
      ensures mem == old(mem - sp.pos.Keys - Leaves(Flat(mem, sp), 0, PgRoundUp(sz) / PGSIZE))
    {
      hide Flat, Down, Up, Parted, Leaves, Backed, MappedRange, Subtree, NoLeaves;
      ghost var m, f, n := mem, Flat(mem, sp), PgRoundUp(sz) / PGSIZE;
      LeavesNone(f);
      if sz > 0 {
        panic := UvmUnmap(sp, root, 0, PgRoundUp(sz) / PGSIZE, true);
        if panic {
          return;
        }
      } else {
        assert n == 0;
      }
      assert Flat(mem, sp) == map[];
      EmptyHasNoLeaves(mem, sp);
      RootSubtree(sp);
      ghost var m1 := mem;
      panic := FreeWalk(sp, mem, root);
      assert mem.Keys == m.Keys - sp.pos.Keys - Leaves(f, 0, n);
    }

    /** uvmcreate: a root table that maps nothing. */
    method UvmCreate() returns (root: nat, ghost sp: Space)
      requires Partition()
      modifies this
      ensures Partition()
      ensures root == 0 ==> mem == old(mem)
      ensures root == 0 <==> old(free) == []
      ensures root != 0 ==> WF(mem, sp) && sp.root == root && sp.pos.Keys == {root} && Flat(mem, sp) == map[]
      ensures root != 0 ==> Places(sp) == {Root} && |free| == |old(free)| - 1
      ensures root != 0 ==> root !in old(mem) && mem == old(mem)[root := ZeroTable()]
    {
      hide Parted, Filled, Flat;
      root := Kalloc();
      sp := Space(root, map[root := Root]);
      if root == 0 {
        return;
      }
      ghost var used := mem.Keys;
      mem := mem[root := ZeroTable()];
      assert mem.Keys == used;
      EmptySpace(mem, root);
      assert sp.pos[root] == Root;
    }

    /**
     The allocation step of uvmalloc and uvmcopy: kalloc a page, fill it, map it as user
     page `v`; if mappages fails, kfree the page again.
     */
    method MapFresh(ghost sp: Space, root: nat, a: nat, page: Page, perm: nat, ghost v: nat)
      returns (p: nat, ghost sp': Space)
      requires Partition() && WF(mem, sp) && root == sp.root && a == v * PGSIZE && v < HIGH
      requires UserMap(mem, Flat(mem, sp), v) && perm < 1024 && OrV(perm) != PTE_V
      requires page.Data? && |page.bytes| == PGSIZE
      modifies this
      ensures Partition() && WF(mem, sp')
      ensures p == 0 ==> Flat(mem, sp') == old(Flat(mem, sp)) && Grew(old(mem), sp, mem, sp', {})
      ensures p != 0 ==>
                Flat(mem, sp') == old(Flat(mem, sp))[v := Pack(p, OrV(perm))] && Grew(old(mem), sp, mem, sp', {p})
      ensures p != 0 ==> p in mem && mem[p] == page && p !in old(mem)
      ensures p == 0 ==> UserMap(mem, Flat(mem, sp'), v)
      ensures p != 0 ==> UserMap(mem, Flat(mem, sp'), v + 1)
      ensures p == 0 <==> |old(free)| < Need(Places(sp), v, v + 1)
      ensures p != 0 ==> GotPages(sp, sp', v, v + 1, |old(free)|, |free|)
    {
      hide Flat, Down, Up, Parted, Pack, Ppn, Flags, MappedRange, Backed, Extends, Need, GotPages, GotTables, Missing;
      ghost var m, f := mem, Flat(mem, sp);
      sp' := sp;
      p := Kalloc();
      if p == 0 {
        GrewNone(mem, sp);
        OneNeeded(Places(sp), v);
        return;
      }
      ghost var used := mem.Keys;
      mem := mem[p := page];
      assert mem.Keys == used;
      assert mem == m[p := page];
      FrameSpace(m, mem, sp);
      var r;
      ghost var k;
      ghost var m1 := mem;
      r, k, sp' := MapPages(sp, root, a, PGSIZE, p, perm);
      OnePage(f, a, v, p, perm, k);
      assert !r.Remap?;
      GotOne(sp, sp', v, |old(free)|, |free|);
      if !r.Mapped? {
        ReturnedGrew(m, sp, p, page, mem, sp');
        ghost var m2 := mem;
        Kfree(p);
        FrameSpace(m2, mem, sp');
        UserMapFrame(m, f, v, mem, sp);
        p := 0;
        return;
      }
      GotAll(sp, sp', v, |old(free)| - 1, |free|);
      FreshGrew(m, sp, p, page, mem, sp');
      UserMapMore(m, f, v, mem, sp, p, page, perm);
    }

    /** uvmdealloc: shrink the user memory from oldsz to newsz bytes. */
    method UvmDealloc(ghost sp: Space, root: nat, oldsz: nat, newsz: nat) returns (r: nat)
      requires Partition() && WF(mem, sp) && root == sp.root
      requires UserMap(mem, Flat(mem, sp), PgRoundUp(oldsz) / PGSIZE)
      modifies this
      ensures Partition() && WF(mem, sp) && r == if newsz < oldsz then newsz else oldsz
      ensures UserMap(mem, Flat(mem, sp), PgRoundUp(r) / PGSIZE)
      ensures Flat(mem, sp) == Without(old(Flat(mem, sp)), PgRoundUp(r) / PGSIZE, PgRoundUp(oldsz) / PGSIZE)
      ensures mem.Keys == old(mem.Keys) - Leaves(old(Flat(mem, sp)), PgRoundUp(r) / PGSIZE, PgRoundUp(oldsz) / PGSIZE)
      ensures forall p :: p in mem && p !in sp.pos ==> mem[p] == old(mem)[p]
    {
      hide Flat, Down, Up, Parted, Leaves, Without, MappedRange, Backed;
      UnmapNone(Flat(mem, sp), PgRoundUp(oldsz) / PGSIZE, mem.Keys);
      if newsz >= oldsz {
        return oldsz;
      }
      ghost var m, f := mem, Flat(mem, sp);
      if PgRoundUp(newsz) < PgRoundUp(oldsz) {
        var npages := (PgRoundUp(oldsz) - PgRoundUp(newsz)) / PGSIZE;
        SubRange(mem, f, PgRoundUp(newsz) / PGSIZE, PgRoundUp(oldsz) / PGSIZE);
        var panic := UvmUnmap(sp, root, PgRoundUp(newsz), npages, true);
        UserMapLess(m, f, PgRoundUp(oldsz) / PGSIZE, PgRoundUp(newsz) / PGSIZE, mem, sp);
      }
      return newsz;
    }

    /**
     uvmalloc: grow the user memory from oldsz to newsz bytes with zeroed pages. When memory
     runs out the flat map is as before and only table pages of this space were taken.
     */
    method UvmAlloc(ghost sp: Space, root: nat, oldsz: nat, newsz: nat, xperm: nat) returns (r: nat, ghost sp': Space)
      requires Partition() && WF(mem, sp) && root == sp.root
      requires UserMap(mem, Flat(mem, sp), PgRoundUp(oldsz) / PGSIZE)
      requires xperm == 0 || xperm == PTE_W || xperm == PTE_X || xperm == PTE_W + PTE_X
      modifies this
      ensures Partition() && WF(mem, sp')
      ensures newsz < oldsz ==> r == oldsz && sp' == sp && mem == old(mem) && free == old(free)
      ensures newsz >= oldsz ==> r == newsz || r == 0
      ensures newsz >= oldsz && r == newsz ==>
                && UserMap(mem, Flat(mem, sp'), PgRoundUp(newsz) / PGSIZE)
                && Growing(old(mem), sp, old(Flat(mem, sp)), mem, sp', Flat(mem, sp'),
                           PgRoundUp(oldsz) / PGSIZE, PgRoundUp(newsz) / PGSIZE, OrV(PTE_R + PTE_U + xperm))
      ensures newsz >= oldsz && r != newsz ==>
                && Flat(mem, sp') == old(Flat(mem, sp)) && Grew(old(mem), sp, mem, sp', {})
                && UserMap(mem, Flat(mem, sp'), PgRoundUp(oldsz) / PGSIZE)
      ensures newsz >= oldsz ==>
                (r == newsz <==> |old(free)| >= Need(Places(sp), PgRoundUp(oldsz) / PGSIZE, PgRoundUp(newsz) / PGSIZE))
      ensures newsz >= oldsz && r == newsz ==>
                GotPages(sp, sp', PgRoundUp(oldsz) / PGSIZE, PgRoundUp(newsz) / PGSIZE, |old(free)|, |free|)
    {
      hide Flat, Down, Up, Parted, Leaves, Without, MappedRange, Backed, Growing, Grew, Pack, Need, GotPages;
      sp' := sp;
      if newsz < oldsz {
        return oldsz, sp';
      }
      ghost var m0, f0, n0 := mem, Flat(mem, sp), PgRoundUp(oldsz) / PGSIZE;
      ghost var v := n0;
      var perm := PTE_R + PTE_U + xperm;
      var old_ := PgRoundUp(oldsz);
      var a := old_;
      GrowingNone(mem, sp, f0, n0, OrV(perm));
      GotNone(sp, n0, |free|);
      while a < newsz
        invariant n0 <= v && a == v * PGSIZE && (v > n0 ==> v <= PgRoundUp(newsz) / PGSIZE)
        invariant Partition() && WF(mem, sp') && sp'.root == root
        invariant UserMap(mem, Flat(mem, sp'), v)
        invariant Growing(m0, sp, f0, mem, sp', Flat(mem, sp'), n0, v, OrV(perm))
        invariant GotPages(sp, sp', n0, v, |old(free)|, |free|)
        decreases newsz - a
      {
        UserBound(managed, free, mem, Flat(mem, sp'), v);
        ghost var m1, sp1, free1 := mem, sp', |free|;
        var p;
        p, sp' := MapFresh(sp', root, a, Filled(0), perm, v);
        SameRoot(m1, sp1, mem, sp', if p == 0 then {} else {p});
        if p == 0 {
          ghost var fv, m2 := Flat(mem, sp'), mem;
          GrowingFailed(m0, sp, f0, m1, sp1, fv, n0, v, OrV(perm), mem, sp');
          RoundUpAbove(a, newsz, v);
          TooMuch(sp, sp1, n0, v, v + 1, |old(free)|, free1, PgRoundUp(newsz) / PGSIZE);
          var _ := UvmDealloc(sp', root, a, old_);
          RolledBack(m0, sp, m2, sp', Leaves(fv, n0, v), mem);
          return 0, sp';
        }
        GrowingOne(m0, sp, f0, m1, sp1, Flat(m1, sp1), n0, v, perm, mem, sp', p);
        GotPagesMore(sp, sp1, sp', n0, v, v + 1, |old(free)|, free1, |free|);
        a := a + PGSIZE;
        v := v + 1;
      }
      GotEnough(sp, sp', n0, v, |old(free)|, |free|);
      r := newsz;
    }

    /**
     uvmcopy: give the empty space `nw` its own copy of the first sz bytes of `od`. On
     failure `nw` maps nothing again; the parent space is untouched either way.
     */
    method UvmCopy(ghost od: Space, oldRoot: nat, ghost nw: Space, newRoot: nat, sz: nat)
      returns (r: int, ghost nw': Space)
      requires Partition() && WF(mem, od) && WF(mem, nw) && oldRoot == od.root && newRoot == nw.root
      requires od.pos.Keys !! nw.pos.Keys
      requires UserMap(mem, Flat(mem, od), PgRoundUp(sz) / PGSIZE) && UserMap(mem, Flat(mem, nw), 0)
      modifies this
      ensures Partition() && WF(mem, nw') && WF(mem, od) && Flat(mem, od) == old(Flat(mem, od))
      ensures UserMap(mem, Flat(mem, od), PgRoundUp(sz) / PGSIZE)
      ensures forall p :: p in old(mem) && p !in nw.pos ==> p in mem && mem[p] == old(mem)[p]
      ensures r == 0 || r == -1
      ensures r == 0 ==>
                && UserMap(mem, Flat(mem, nw'), PgRoundUp(sz) / PGSIZE)
                && Without(Flat(mem, nw'), 0, PgRoundUp(sz) / PGSIZE) == old(Flat(mem, nw))
                && Copied(mem, Flat(mem, od), Flat(mem, nw'), PgRoundUp(sz) / PGSIZE)
                && Grew(old(mem), nw, mem, nw', Leaves(Flat(mem, nw'), 0, PgRoundUp(sz) / PGSIZE))
      ensures r == -1 ==>
                && Flat(mem, nw') == old(Flat(mem, nw)) && Grew(old(mem), nw, mem, nw', {})
      ensures r == 0 <==> |old(free)| >= Need(Places(nw), 0, PgRoundUp(sz) / PGSIZE)
      ensures r == 0 ==> GotPages(nw, nw', 0, PgRoundUp(sz) / PGSIZE, |old(free)|, |free|)
    {
      hide Flat, WF, Parted, Leaves, Without, UserMap, Grew, Copied, Copying, Need, GotPages, PgRoundUp, MappedRange,
        Backed;
      ghost var m0, fo, f0, n := mem, Flat(mem, od), Flat(mem, nw), PgRoundUp(sz) / PGSIZE;
      ghost var v := 0;
      nw' := nw;
      var i := 0;
      CopyingNone(mem, od, nw, fo, f0, n);
      GotNone(nw, 0, |free|);
      while i < sz
        invariant 0 <= v <= n && i == v * PGSIZE
        invariant Partition() && WF(mem, nw') && nw'.root == newRoot
        invariant Copying(m0, od, nw, fo, f0, mem, nw', Flat(mem, nw'), n, v)
        invariant GotPages(nw, nw', 0, v, |old(free)|, |free|)
        decreases sz - i
      {
        ghost var nw1, free1 := nw', |free|;
        RoundUpAbove(i, sz, v);
        var p;
        ghost var f1 := Flat(mem, nw');
        p, nw' := CopyPage(m0, od, oldRoot, nw, nw', newRoot, fo, f0, n, i, v);
        if p == 0 {
          ghost var m2 := mem;
          TooMuch(nw, nw1, 0, v, v + 1, |old(free)|, free1, n);
          var panic := UvmUnmap(nw', newRoot, 0, i / PGSIZE, true);
          CopyRolledBack(m0, od, nw, fo, f0, m2, nw', f1, n, v, mem);
          return -1, nw';
        }
        GotPagesMore(nw, nw1, nw', 0, v, v + 1, |old(free)|, free1, |free|);
        i := i + PGSIZE;
        v := v + 1;
      }
      CopyingDone(m0, od, nw, fo, f0, mem, nw', Flat(mem, nw'), n, v);
      RoundUpDone(i, sz, v);
      GotEnough(nw, nw', 0, v, |old(free)|, |free|);
      r := 0;
    }

    /** The body of uvmcopy's loop. */
    method CopyPage(ghost m0: Mem, ghost od: Space, oldRoot: nat, ghost nw: Space, ghost nw1: Space, newRoot: nat,
        ghost fo: map<nat, nat>, ghost f0: map<nat, nat>, ghost n: nat, i: nat, ghost v: nat)
      returns (p: nat, ghost nw': Space)
      requires Partition() && WF(mem, nw1) && nw1.root == newRoot && oldRoot == od.root && i == v * PGSIZE && v < n
      requires Copying(m0, od, nw, fo, f0, mem, nw1, Flat(mem, nw1), n, v)
      modifies this
      ensures Partition() && WF(mem, nw') && nw'.root == newRoot && v < HIGH
      ensures p != 0 ==> Copying(m0, od, nw, fo, f0, mem, nw', Flat(mem, nw'), n, v + 1)
      ensures p == 0 ==>
                var f := old(Flat(mem, nw1));
                && Flat(mem, nw') == f && Grew(m0, nw, mem, nw', Leaves(f, 0, v)) && Without(f, 0, v) == f0
                && MappedRange(f, 0, v) && Backed(mem, f, 0, v)
      ensures p == 0 <==> |old(free)| < Need(Places(nw1), v, v + 1)
      ensures p != 0 ==> GotPages(nw1, nw', v, v + 1, |old(free)|, |free|)
    {
      hide Flat, WF, Parted, Leaves, Without, UserMap, Grew, Pack, Copied, Copying, Flags, Ppn, V, PX, PathAt, OrV,
        Need, GotPages;
      ghost var m1, f1 := mem, Flat(mem, nw1);
      CopyingSource(managed, free, m0, od, nw, fo, f0, mem, nw1, f1, n, v);
      assert i / PGSIZE == v;
      var t;
      ghost var od';
      t, od' := Walk(od, oldRoot, i, false);
      FoundLeaf(mem, od, t, i, v);
      var pte := mem[t].e[PX(0, i)];
      p, nw' := MapFresh(nw1, newRoot, i, mem[Ppn(pte)], Flags(pte), v);
      SameRoot(m1, nw1, mem, nw', if p == 0 then {} else {p});
      if p == 0 {
        CopyingFailed(m0, od, nw, fo, f0, m1, nw1, f1, n, v, mem, nw');
      } else {
        CopyingOne(m0, od, nw, fo, f0, m1, nw1, f1, n, v, mem, nw', p, pte);
      }
    }

    /** mappages of one supervisor page, as proc_pagetable does it. */
    method MapOne(ghost sp: Space, root: nat, va: nat, ppn: nat, perm: nat, ghost v: nat)
      returns (ok: bool, ghost sp': Space)
      requires Partition() && WF(mem, sp) && root == sp.root && va == v * PGSIZE && v < PAGES && perm < 1024
      requires v !in Flat(mem, sp)
      modifies this
      ensures Partition() && WF(mem, sp') && Grew(old(mem), sp, mem, sp', {}) && sp'.root == root
      ensures Flat(mem, sp') == if ok then old(Flat(mem, sp))[v := Pack(ppn, OrV(perm))] else old(Flat(mem, sp))
      ensures ok <==> |old(free)| >= |Missing(Places(sp), v, v + 1)|
      ensures ok ==> GotTables(sp, sp', v, v + 1, |old(free)|, |free|)
    {
      hide Flat, WF, Parted, Pack, Extends, Missing, GotTables;
      var r;
      ghost var k;
      ghost var f := Flat(mem, sp);
      r, k, sp' := MapPages(sp, root, va, PGSIZE, ppn, perm);
      OnePage(f, va, v, ppn, perm, k);
      ExtendsGrew(old(mem), sp, mem, sp');
      ok := r.Mapped?;
      if ok {
        GotAll(sp, sp', v, |old(free)|, |free|);
      }
    }

    /** proc_pagetable: an address space with the trampoline and trapframe pages only. */
    method ProcPagetable(trampoline: nat, trapframe: nat) returns (root: nat, ghost sp: Space)
      requires Partition()
      modifies this
      ensures Partition()
      ensures root == 0 ==> mem == old(mem)
      ensures root == 0 <==> |old(free)| < 3
      ensures root != 0 ==> Places(sp) == FirstPlaces() && |free| == |old(free)| - 3
      ensures root != 0 ==> ProcSpace(mem, sp, 0) && sp.root == root && Flat(mem, sp) == ProcFlat(trampoline, trapframe)
      ensures root != 0 ==> Apart(old(mem), mem, sp, {})
    {
      hide Flat, WF, Parted, Pack, Grew, Apart, Flags, ZeroTable, Leaves, MappedRange, Backed, HighPages, Missing,
        GotTables;
      ghost var m0 := mem;
      root, sp := UvmCreate();
      if root == 0 {
        return;
      }
      CreatedApart(m0, mem, sp, root);
      ghost var m1, sp1 := mem, sp;
      var ok;
      HighNeed(sp);
      ok, sp := MapOne(sp, root, TRAMPOLINE, trampoline, PTE_R + PTE_X, PAGES - 1);
      ApartTables(m0, m1, sp1, {}, mem, sp);
      if !ok {
        FreeEmpty(m0, sp, root);
        return 0, sp;
      }
      HighGot(sp1, sp, |old(free)| - 1, |free|);
      ghost var sp2, free2 := sp, |free|;
      root, sp := MapTrapframe(m0, sp, root, trampoline, trapframe);
      HighAgain(sp2, sp, free2, |free|);
      ProcFlatMapped(trampoline, trapframe);
      NoUserPages(mem, ProcFlat(trampoline, trapframe));
    }

    /** The second half of proc_pagetable, which takes everything back when it fails. */
    method MapTrapframe(ghost m0: Mem, ghost sp: Space, root: nat, ghost trampoline: nat, trapframe: nat)
      returns (root': nat, ghost sp': Space)
      requires Partition() && WF(mem, sp) && sp.root == root != 0 && Apart(m0, mem, sp, {})
      requires Flat(mem, sp) == map[PAGES - 1 := Pack(trampoline, OrV(PTE_R + PTE_X))]
      modifies this
      ensures Partition() && (root' == 0 || root' == root)
      ensures root' == 0 ==> mem == m0
      ensures root' == 0 <==> |old(free)| < |Missing(Places(sp), PAGES - 2, PAGES - 1)|
      ensures root' != 0 ==>
                && WF(mem, sp') && sp'.root == root && Flat(mem, sp') == ProcFlat(trampoline, trapframe)
                && Apart(m0, mem, sp', {}) && GotTables(sp, sp', PAGES - 2, PAGES - 1, |old(free)|, |free|)
    {
      hide Flat, WF, Parted, Pack, Grew, Apart, Flags, Leaves, MappedRange, Backed, Missing, GotTables;
      root' := root;
      var ok;
      ok, sp' := MapOne(sp, root, TRAPFRAME, trapframe, PTE_R + PTE_W, PAGES - 2);
      ApartTables(m0, old(mem), sp, {}, mem, sp');
      if !ok {
        ghost var m3 := mem;
        TrampolineMapped(trampoline);
        var panic := UvmUnmap(sp', root, TRAMPOLINE, 1, false);
        UnmappedApart(m0, m3, mem, sp');
        TrampolineGone(trampoline);
        FreeEmpty(m0, sp', root);
        root' := 0;
      }
    }

    /** uvmfree of a space that maps nothing undoes everything since `m0`. */
    method FreeEmpty(ghost m0: Mem, ghost sp: Space, root: nat)
      requires Partition() && WF(mem, sp) && sp.root == root && Flat(mem, sp) == map[] && Apart(m0, mem, sp, {})
      modifies this
      ensures Partition() && mem == m0
    {
      hide Flat, WF, Parted, Apart, Leaves, MappedRange, Backed;
      ApartFreed(m0, mem, sp, {});
      NoUserPages(mem, map[]);
      LeavesNone(map[]);
      var panic := UvmFree(sp, root, 0);
    }

    /** proc_freepagetable: free a process's page table and its memory. */
    method ProcFreePagetable(ghost sp: Space, root: nat, sz: nat) returns (panic: bool)
      requires Partition() && root == sp.root && ProcSpace(mem, sp, PgRoundUp(sz) / PGSIZE)
      modifies this
      ensures !panic && Partition()
      ensures mem == old(mem - sp.pos.Keys - Leaves(Flat(mem, sp), 0, PgRoundUp(sz) / PGSIZE))
    {
      hide Flat, WF, Parted, Leaves, Flags, LeafOk, Backed;
      ghost var m, f, n := mem, Flat(mem, sp), PgRoundUp(sz) / PGSIZE;
      FlatBound(mem, sp);
      panic := UvmUnmap(sp, root, TRAMPOLINE, 1, false);
      if panic {
        return;
      }
      panic := UvmUnmap(sp, root, TRAPFRAME, 1, false);
      if panic {
        return;
      }
      ghost var f' := Without(Without(f, PAGES - 1, PAGES), PAGES - 2, PAGES - 1);
      UserMapFrame(m, f, n, mem, sp);
      UserOnly(mem, f, f', n);
      ghost var m1 := mem;
      panic := UvmFree(sp, root, sz);
      assert mem.Keys == m.Keys - sp.pos.Keys - Leaves(f, 0, n);
    }

    /** uvmclear: take the user bit from the page at `va`. */
    method UvmClear(ghost sp: Space, root: nat, va: nat, ghost v: nat) returns (panic: bool)
      requires Partition() && WF(mem, sp) && root == sp.root && va == v * PGSIZE && v < PAGES
      requires v in Flat(mem, sp)
      modifies this
      ensures !panic && Partition() && WF(mem, sp)
      ensures Flat(mem, sp) == old(Flat(mem, sp))[v := ClearU(old(Flat(mem, sp))[v])]
      ensures mem.Keys == old(mem.Keys) && forall p :: p in mem && p !in sp.pos ==> mem[p] == old(mem)[p]
      ensures free == old(free)
    {
      hide V, U, Ppn, Flat, Down, Up, Parted, PX, PathAt, Extends, ClearU;
      assert va / PGSIZE == v;
      var t;
      ghost var sp';
      t, sp' := Walk(sp, root, va, false);
      FoundLeaf(mem, sp, t, va, v);
      if t == 0 {
        return true;
      }
      var x := ClearU(mem[t].e[PX(0, va)]);
      MappedIsValid(mem, sp, v);
      ClearUKeeps(mem[t].e[PX(0, va)]);
      ExtendsSelf(mem, sp);
      LeafWrite(mem, sp, mem, sp, t, va, x);
      ghost var used := mem.Keys;
      mem := SetEntry(mem, t, PX(0, va), x);
      assert mem.Keys == used;
      panic := false;
    }

    /** One uvmalloc on behalf of exec; failure leaves the image as it was. */
    method GrowImage(ghost m0: Mem, ghost sp: Space, root: nat, sz: nat, newsz: nat, xperm: nat)
      returns (sz': nat, ghost sp': Space)
      requires Partition() && root == sp.root && Image(m0, mem, sp, PgRoundUp(sz) / PGSIZE)
      requires xperm == 0 || xperm == PTE_W || xperm == PTE_X || xperm == PTE_W + PTE_X
      modifies this
      ensures Partition() && sp'.root == root
      ensures PagesStay(old(mem), mem, sp)
      ensures sz' == 0 ==> Image(m0, mem, sp', PgRoundUp(sz) / PGSIZE)
      ensures sz' == 0 && newsz != 0 ==> Flat(mem, sp') == old(Flat(mem, sp))
      ensures sz' != 0 ==> sz' == (if newsz < sz then sz else newsz) && Image(m0, mem, sp', PgRoundUp(sz') / PGSIZE)
      ensures sz' != 0 && newsz < sz ==> mem == old(mem) && sp' == sp
      ensures sz' != 0 && newsz >= sz ==>
                && Without(Flat(mem, sp'), PgRoundUp(sz) / PGSIZE, PgRoundUp(sz') / PGSIZE) == old(Flat(mem, sp))
                && Zeroed(mem, Flat(mem, sp'), PgRoundUp(sz) / PGSIZE, PgRoundUp(sz') / PGSIZE,
                          OrV(PTE_R + PTE_U + xperm))
      ensures sz' == 0 <==>
                || (sz == 0 && newsz == 0)
                || (newsz >= sz && |old(free)| < Need(Places(sp), PgRoundUp(sz) / PGSIZE, PgRoundUp(newsz) / PGSIZE))
      ensures sz' != 0 ==> GotPages(sp, sp', PgRoundUp(sz) / PGSIZE, PgRoundUp(sz') / PGSIZE, |old(free)|, |free|)
    {
      hide Flat, WF, Parted, UserMap, Apart, Grew, Leaves, Without, Zeroed, Need, GotPages;
      GotNone(sp, PgRoundUp(sz) / PGSIZE, |free|);
      NeedNone(Places(sp), PgRoundUp(sz) / PGSIZE);
      sz', sp' := UvmAlloc(sp, root, sz, newsz, xperm);
      if newsz >= sz {
        if sz' == newsz {
          ImageGrew(m0, old(mem), sp, PgRoundUp(sz) / PGSIZE, mem, sp', PgRoundUp(newsz) / PGSIZE);
          SameRoot(old(mem), sp, mem, sp', Leaves(Flat(mem, sp'), PgRoundUp(sz) / PGSIZE, PgRoundUp(newsz) / PGSIZE));
          GrewStay(old(mem), sp, mem, sp', Leaves(Flat(mem, sp'), PgRoundUp(sz) / PGSIZE, PgRoundUp(newsz) / PGSIZE));
        } else {
          ImageSame(m0, old(mem), sp, PgRoundUp(sz) / PGSIZE, mem, sp');
          SameRoot(old(mem), sp, mem, sp', {});
          GrewStay(old(mem), sp, mem, sp', {});
        }
      }
    }

    /**
     growproc: `n` bytes more or less. Growth adds zeroed pages above the old end, a shrink
     takes away those above the new one, and all other pages keep mapping and contents; a
     failure, or a shrink by more than there is, changes no mapping.
     */
    method GrowProc(ghost m0: Mem, ghost sp: Space, root: nat, sz: nat, n: int)
      returns (ok: bool, sz': nat, ghost sp': Space)
      requires Partition() && root == sp.root && Image(m0, mem, sp, PgRoundUp(sz) / PGSIZE) && CInt(n)
      modifies this
      ensures Partition() && sp'.root == root && Image(m0, mem, sp', PgRoundUp(sz') / PGSIZE)
      ensures sz' == if ok && sz + n >= 0 then sz + n else sz
      ensures ok <==> n <= 0 || |old(free)| >= Need(Places(sp), PgRoundUp(sz) / PGSIZE, PgRoundUp(sz + n) / PGSIZE)
      ensures !ok || sz + n < 0 ==> Flat(mem, sp') == old(Flat(mem, sp))
      ensures ok && n >= 0 ==>
                && Without(Flat(mem, sp'), PgRoundUp(sz) / PGSIZE, PgRoundUp(sz') / PGSIZE) == old(Flat(mem, sp))
                && Zeroed(mem, Flat(mem, sp'), PgRoundUp(sz) / PGSIZE, PgRoundUp(sz') / PGSIZE,
                          OrV(PTE_R + PTE_U + PTE_W))
      ensures ok && n < 0 ==>
                && sp' == sp
                && Flat(mem, sp) == Without(old(Flat(mem, sp)), PgRoundUp(sz') / PGSIZE, PgRoundUp(sz) / PGSIZE)
      ensures n >= 0 ==> PagesStay(old(mem), mem, sp)
      ensures n < 0 ==> forall p :: p in mem && p !in sp.pos ==> p in old(mem) && mem[p] == old(mem)[p]
    {
      hide Image, Parted, PgRoundUp, Flat, Without, Zeroed, Need;
      sp' := sp;
      ImageShape(m0, mem, sp, PgRoundUp(sz) / PGSIZE);
      WithoutNone(Flat(mem, sp), PgRoundUp(sz) / PGSIZE);
      ZeroedNone(mem, Flat(mem, sp), PgRoundUp(sz) / PGSIZE, OrV(PTE_R + PTE_U + PTE_W));
      if n > 0 {
        var r;
        r, sp' := GrowImage(m0, sp, root, sz, sz + n, PTE_W);
        if r == 0 {
          return false, sz, sp';
        }
        return true, r, sp';
      }
      sz' := sz;
      if n < 0 {
        sz' := ShrinkImage(m0, sp, root, sz, if sz + n < 0 then sz + n + 0x1_0000_0000_0000_0000 else sz + n);
      }
      ok := true;
    }

    /** uvmdealloc of a process's memory. */
    method ShrinkImage(ghost m0: Mem, ghost sp: Space, root: nat, sz: nat, newsz: nat) returns (sz': nat)
      requires Partition() && root == sp.root && Image(m0, mem, sp, PgRoundUp(sz) / PGSIZE)
      modifies this
      ensures Partition() && Image(m0, mem, sp, PgRoundUp(sz') / PGSIZE) && sz' == if newsz < sz then newsz else sz
      ensures Flat(mem, sp) == Without(old(Flat(mem, sp)), PgRoundUp(sz') / PGSIZE, PgRoundUp(sz) / PGSIZE)
      ensures forall p :: p in mem && p !in sp.pos ==> p in old(mem) && mem[p] == old(mem)[p]
    {
      hide Flat, WF, Parted, UserMap, Apart, Leaves, Without;
      sz' := UvmDealloc(sp, root, sz, newsz);
      RoundUpLess(sz', sz);
      ImageShrunk(m0, old(mem), sp, PgRoundUp(sz) / PGSIZE, mem, PgRoundUp(sz') / PGSIZE);
    }

    /** The life of an address space: whatever it asks for, freeing it brings back every page. */
    method Lifetime(trampoline: nat, trapframe: nat, asks: seq<int>)
      requires Partition() && forall i :: 0 <= i < |asks| ==> CInt(asks[i])
      modifies this
      ensures Partition() && mem == old(mem) && Elems(free) == Elems(old(free))
    {
      hide Image, Parted, PgRoundUp;
      ghost var m0 := mem;
      var root;
      ghost var sp;
      root, sp := ProcPagetable(trampoline, trapframe);
      if root != 0 {
        ImageNone(m0, mem, sp);
        RoundUpZero();
        var sz, i := 0, 0;
        while i < |asks|
          invariant Partition() && sp.root == root && Image(m0, mem, sp, PgRoundUp(sz) / PGSIZE)
        {
          var ok;
          ok, sz, sp := GrowProc(m0, sp, root, sz, asks[i]);
          i := i + 1;
        }
        Discard(m0, sp, root, sz);
      }
      SameFree(managed, old(free), free, mem.Keys);
    }

    /** The failure path of exec and fork. */
    method Discard(ghost m0: Mem, ghost sp: Space, root: nat, sz: nat)
      requires Partition() && root == sp.root && Image(m0, mem, sp, PgRoundUp(sz) / PGSIZE)
      modifies this
      ensures Partition() && mem == m0
    {
      hide Flat, WF, Parted, UserMap, Apart, Leaves;
      ImageFreed(m0, mem, sp, PgRoundUp(sz) / PGSIZE);
      var panic := ProcFreePagetable(sp, root, sz);
    }

    /** walkaddr: the physical page behind `va` if user code may use it, else 0. */
    method WalkAddr(ghost sp: Space, root: nat, va: nat) returns (p: nat)
      requires Partition() && WF(mem, sp) && root == sp.root && UserPages(mem, Flat(mem, sp))
      modifies this
      ensures mem == old(mem) && free == old(free)
      ensures p != 0 <==> Access(Flat(mem, sp), va / PGSIZE)
      ensures p != 0 ==> p == Ppn(Flat(mem, sp)[va / PGSIZE]) && LeafOk(mem, Flat(mem, sp)[va / PGSIZE]) && va < MAXVA
    {
      hide V, U, Ppn, Flat, Down, Up, Parted, PX, PathAt, Extends, LeafOk;
      FlatBound(mem, sp);
      if va >= MAXVA {
        return 0;
      }
      FlatAt(mem, sp, va / PGSIZE);
      ZeroInvalid();
      var t;
      ghost var sp';
      t, sp' := Walk(sp, root, va, false);
      if t == 0 {
        return 0;
      }
      LeafAt(mem, sp, t, va);
      var pte := mem[t].e[PX(0, va)];
      if !V(pte) {
        return 0;
      }
      if !U(pte) {
        return 0;
      }
      return Ppn(pte);
    }

    /**
     copyout: copy `src` to user address dstva. It succeeds exactly when the whole range is
     accessible, and stores exactly the addressed bytes; on failure it has stored the bytes
     up to the first inaccessible page.
     */
    method CopyOut(ghost sp: Space, root: nat, dstva: nat, src: seq<nat>) returns (r: int, ghost k: nat)
      requires Partition() && WF(mem, sp) && root == sp.root && UserPages(mem, Flat(mem, sp))
      modifies this
      ensures Partition() && WF(mem, sp) && Flat(mem, sp) == old(Flat(mem, sp)) && UserPages(mem, Flat(mem, sp))
      ensures r == 0 || r == -1
      ensures r == 0 <==> Span(Flat(mem, sp), dstva, |src|)
      ensures k <= |src| && Stored(old(mem), mem, Flat(mem, sp), dstva, src, k) && Span(Flat(mem, sp), dstva, k)
      ensures r == 0 ==> k == |src|
      ensures r == -1 ==> k < |src| && !Access(Flat(mem, sp), (dstva + k) / PGSIZE)
      ensures free == old(free)
    {
      hide Ppn, Flat, WF, Parted, Access, UserPages, Stored, LeafOk, Span;
      ghost var f, m0 := Flat(mem, sp), mem;
      var a, len := dstva, |src|;
      var done := 0;
      k := 0;
      StoredNone(mem, f, dstva, src);
      SpanNone(f, dstva);
      while len > 0
        invariant k == done <= |src| && len == |src| - k && (len > 0 ==> a == dstva + k)
        invariant Partition() && WF(mem, sp) && Flat(mem, sp) == f && UserPages(mem, f) && free == old(free)
        invariant Stored(m0, mem, f, dstva, src, k) && Span(f, dstva, k)
        decreases len
      {
        var va0 := PgRoundDown(a);
        var pa0 := WalkAddr(sp, root, va0);
        assert va0 / PGSIZE == a / PGSIZE;
        if pa0 == 0 {
          NotSpan(f, dstva, |src|, k);
          return -1, k;
        }
        var n := PGSIZE - (a - va0);
        if n > len {
          n := len;
        }
        StoredMore(m0, mem, f, dstva, src, k, n, a / PGSIZE);
        SpanMore(f, dstva, k, n);
        ghost var m1 := mem;
        PatchShape(mem, f, a / PGSIZE);
        mem := Patch(mem, pa0, a - va0, src[done..done + n]);
        PatchFrame(m1, mem, sp, pa0);
        len := len - n;
        done := done + n;
        k := k + n;
        a := va0 + PGSIZE;
      }
      return 0, k;
    }

    /** copyin: read `len` bytes from user address srcva. */
    method CopyIn(ghost sp: Space, root: nat, srcva: nat, len: nat) returns (r: int, dst: seq<nat>)
      requires Partition() && WF(mem, sp) && root == sp.root && UserPages(mem, Flat(mem, sp))
      modifies this
      ensures mem == old(mem) && free == old(free)
      ensures r == 0 || r == -1
      ensures r == 0 <==> Span(Flat(mem, sp), srcva, len)
      ensures r == 0 ==> dst == Bytes(mem, Flat(mem, sp), srcva, len)
    {
      hide Ppn, Flat, WF, Parted, Access, UserPages, LeafOk, Span;
      ghost var f, k := Flat(mem, sp), 0;
      var a, left := srcva, len;
      dst := [];
      SpanNone(f, srcva);
      while left > 0
        invariant k <= len && left == len - k && (left > 0 ==> a == srcva + k)
        invariant mem == old(mem) && free == old(free)
        invariant Span(f, srcva, k) && dst == Bytes(mem, f, srcva, k)
        decreases left
      {
        var va0 := PgRoundDown(a);
        var pa0 := WalkAddr(sp, root, va0);
        assert va0 / PGSIZE == a / PGSIZE;
        if pa0 == 0 {
          NotSpan(f, srcva, len, k);
          return -1, dst;
        }
        var n := PGSIZE - (a - va0);
        if n > left {
          n := left;
        }
        BytesMore(mem, f, srcva, k, n, a / PGSIZE);
        PatchShape(mem, f, a / PGSIZE);
        dst := dst + mem[pa0].bytes[a - va0..a - va0 + n];
        left := left - n;
        k := k + n;
        a := va0 + PGSIZE;
      }
      return 0, dst;
    }

    /** copyout to a process: the process's memory is what the copy functions rely on. */
    method CopyToProc(ghost sp: Space, root: nat, sz: nat, dstva: nat, src: seq<nat>) returns (r: int, ghost k: nat)
      requires Partition() && root == sp.root && ProcSpace(mem, sp, PgRoundUp(sz) / PGSIZE)
      modifies this
      ensures Partition() && ProcSpace(mem, sp, PgRoundUp(sz) / PGSIZE) && Flat(mem, sp) == old(Flat(mem, sp))
      ensures UserPages(old(mem), Flat(mem, sp)) && UserPages(mem, Flat(mem, sp))
      ensures (r == 0 || r == -1) && (r == 0 <==> Span(Flat(mem, sp), dstva, |src|))
      ensures k <= |src| && Stored(old(mem), mem, Flat(mem, sp), dstva, src, k) && (r == 0 <==> k == |src|)
      ensures r == 0 ==> Bytes(mem, Flat(mem, sp), dstva, |src|) == src
    {
      hide Flat, WF, Parted, UserPages, Stored, Span, UserMap, HighPages;
      NullUnused(managed, free, mem);
      ProcUserPages(mem, sp, PgRoundUp(sz) / PGSIZE);
      ghost var m0 := mem;
      r, k := CopyOut(sp, root, dstva, src);
      StoredProc(m0, mem, sp, PgRoundUp(sz) / PGSIZE, dstva, src, k);
      if r == 0 {
        ReadBack(m0, mem, Flat(mem, sp), dstva, src);
      }
    }

    /** A copyin of the range that a successful copyout wrote returns what was written. */
    method CopyOutThenIn(ghost sp: Space, root: nat, va: nat, src: seq<nat>) returns (r: int, dst: seq<nat>)
      requires Partition() && WF(mem, sp) && root == sp.root && UserPages(mem, Flat(mem, sp))
      modifies this
      ensures r == 0 <==> Span(old(Flat(mem, sp)), va, |src|)
      ensures r == 0 ==> dst == src
    {
      hide Flat, WF, Parted, UserPages, Stored, Span;
      ghost var m0 := mem;
      ghost var k;
      dst := [];
      r, k := CopyOut(sp, root, va, src);
      if r == 0 {
        ReadBack(m0, mem, Flat(mem, sp), va, src);
        r, dst := CopyIn(sp, root, va, |src|);
      }
    }

    /**
     copyinstr: copy a NUL-terminated string of at most max bytes, NUL included. It succeeds
     exactly when such a string starts at srcva within accessible pages.
     */
    method CopyInStr(ghost sp: Space, root: nat, srcva: nat, max: nat) returns (r: int, dst: seq<nat>)
      requires Partition() && WF(mem, sp) && root == sp.root && UserPages(mem, Flat(mem, sp))
      modifies this
      ensures mem == old(mem) && free == old(free)
      ensures r == 0 || r == -1
      ensures r == 0 <==> exists k: nat :: k < max && StringAt(mem, Flat(mem, sp), srcva, k)
      ensures r == 0 ==> |dst| > 0 && StringAt(mem, Flat(mem, sp), srcva, |dst| - 1)
                         && dst == Bytes(mem, Flat(mem, sp), srcva, |dst| - 1) + [0]
    {
      hide Ppn, Flat, WF, Parted, Access, UserPages, LeafOk, Span, StringAt;
      ghost var f, k := Flat(mem, sp), 0;
      var a, left := srcva, max;
      dst := [];
      SpanNone(f, srcva);
      while left > 0
        invariant k <= max && left == max - k && (left > 0 ==> a == srcva + k)
        invariant mem == old(mem) && free == old(free)
        invariant Span(f, srcva, k) && dst == Bytes(mem, f, srcva, k) && 0 !in dst
        decreases left
      {
        var va0 := PgRoundDown(a);
        var pa0 := WalkAddr(sp, root, va0);
        assert va0 / PGSIZE == a / PGSIZE;
        if pa0 == 0 {
          NoString(mem, f, srcva, max, k);
          return -1, dst;
        }
        var n := PGSIZE - (a - va0);
        if n > left {
          n := left;
        }
        PatchShape(mem, f, a / PGSIZE);
        var p := a - va0;
        ghost var k0 := k;
        while n > 0
          invariant 0 <= n && k0 <= k <= max && left == max - k
          invariant p == a - va0 + (k - k0) && p + n <= PGSIZE && n <= left
          invariant p + n == PGSIZE || n == left
          invariant mem == old(mem) && free == old(free)
          invariant Span(f, srcva, k) && dst == Bytes(mem, f, srcva, k) && 0 !in dst
          invariant n > 0 ==> (srcva + k) / PGSIZE == a / PGSIZE && (srcva + k) % PGSIZE == p
          decreases n
        {
          BytesMore(mem, f, srcva, k, 1, a / PGSIZE);
          NextByte(mem, f, srcva, k, pa0, p, a / PGSIZE);
          if mem[pa0].bytes[p] == 0 {
            dst := dst + [0];
            return 0, dst;
          }
          dst := dst + [mem[pa0].bytes[p]];
          n := n - 1;
          left := left - 1;
          k := k + 1;
          p := p + 1;
          if n > 0 { ChunkByte(a, n + (k - k0), k - k0); }
        }
        a := va0 + PGSIZE;
      }
      NoStringInMax(mem, f, srcva, max);
      return -1, dst;
    }
  }
}
