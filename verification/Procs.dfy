/**
 Any number of process address spaces side by side: which pages each of them owns, and that
 every page in use is owned by one of them or was in use before.
 */
module ProcSpec {
  import opened Sv39
  import opened PageTable
  import opened VmSpec

  /** A process's address space with `n` user pages. */
  datatype Proc = Proc(sp: Space, n: nat)

  /** Its table pages and the pages of its memory. */
  ghost function Own(m: Mem, q: Proc): (r: set<nat>) {
    q.sp.pos.Keys + if WF(m, q.sp) then Leaves(Flat(m, q.sp), 0, q.n) else {}
  }

  ghost function Owns(m: Mem, ps: seq<Proc>): (r: seq<set<nat>>)
    ensures |r| == |ps| && forall i :: 0 <= i < |ps| ==> r[i] == Own(m, ps[i])
  {
    seq(|ps|, (i: nat) requires i < |ps| => Own(m, ps[i]))
  }

  /** The pages `used` are those of `kept` and those of the owners `os`, no page twice. */
  ghost predicate Shared(kept: set<nat>, used: set<nat>, os: seq<set<nat>>) {
    && kept <= used && (forall i :: 0 <= i < |os| ==> os[i] <= used && os[i] !! kept)
    && (forall i, j :: 0 <= i < j < |os| ==> os[i] !! os[j])
    && (forall p :: p in used ==> p in kept || exists i :: 0 <= i < |os| && p in os[i])
  }

  /** Pages in use are those of `m0`, as they were, and the processes' own, no page twice. */
  ghost predicate World(m0: Mem, m: Mem, ps: seq<Proc>) {
    && (forall i :: 0 <= i < |ps| ==> ProcSpace(m, ps[i].sp, ps[i].n))
    && Shared(m0.Keys, m.Keys, Owns(m, ps))
    && (forall p :: p in m0 ==> p in m && m[p] == m0[p])
  }

  lemma SharedAdd(kept: set<nat>, used: set<nat>, os: seq<set<nat>>, o: set<nat>)
    requires Shared(kept, used, os) && o !! used
    ensures Shared(kept, used + o, os + [o])
  {
    var os' := os + [o];
    forall p | p in used + o ensures p in kept || exists i :: 0 <= i < |os'| && p in os'[i] {
      if p in used && p !in kept {
        var i :| 0 <= i < |os| && p in os[i];
        assert p in os'[i];
      } else if p in o {
        assert p in os'[|os|];
      }
    }
  }

  lemma SharedRemove(kept: set<nat>, used: set<nat>, os: seq<set<nat>>, i: nat)
    requires Shared(kept, used, os) && i < |os|
    ensures Shared(kept, used - os[i], os[..i] + os[i + 1..])
    ensures forall j :: 0 <= j < |os| && j != i ==> os[j] <= used - os[i]
  {
    var os', rest := os[..i] + os[i + 1..], used - os[i];
    assert forall j :: 0 <= j < |os'| ==> os'[j] == os[if j < i then j else j + 1];
    forall j | 0 <= j < |os| && j != i ensures os[j] <= rest {
      assert if i < j then os[i] !! os[j] else os[j] !! os[i];
    }
    forall p | p in rest ensures p in kept || exists j :: 0 <= j < |os'| && p in os'[j] {
      if p !in kept {
        var j :| 0 <= j < |os| && p in os[j];
        assert os'[if j < i then j else j - 1] == os[j];
      }
    }
  }

  lemma SharedChange(kept: set<nat>, used: set<nat>, os: seq<set<nat>>, i: nat, o: set<nat>)
    requires Shared(kept, used, os) && i < |os| && o !! used - os[i]
    ensures Shared(kept, used - os[i] + o, os[i := o])
    ensures forall j :: 0 <= j < |os| && j != i ==> os[j] <= used - os[i]
  {
    var os', rest := os[i := o], used - os[i];
    forall j | 0 <= j < |os| && j != i ensures os[j] <= rest {
      assert if i < j then os[i] !! os[j] else os[j] !! os[i];
    }
    forall p | p in rest + o ensures p in kept || exists j :: 0 <= j < |os'| && p in os'[j] {
      if p in o {
        assert p in os'[i];
      } else if p !in kept {
        var j :| 0 <= j < |os| && p in os[j];
        assert p in os'[j];
      }
    }
  }

  /** Process `q` is as it was: same mapping, same page contents. */
  ghost predicate SameProc(m: Mem, m': Mem, q: Proc) {
    && WF(m, q.sp) && WF(m', q.sp) && Flat(m', q.sp) == Flat(m, q.sp)
    && forall p :: p in Own(m, q) ==> p in m && p in m' && m'[p] == m[p]
  }

  lemma WorldStart(m: Mem)
    ensures World(m, m, [])
  {
  }

  /** When no process is left, memory is as it was. */
  lemma WorldEnd(m0: Mem, m: Mem)
    requires World(m0, m, [])
    ensures m == m0
  {
  }

  lemma OwnImage(m: Mem, q: Proc)
    requires ProcSpace(m, q.sp, q.n)
    ensures Image(m - Own(m, q), m, q.sp, q.n)
  {
    hide WF, Flat, UserMap, HighPages, Leaves;
    OwnedInUse(m, q.sp, q.n);
    var rest := m - Own(m, q);
    assert rest.Keys == m.Keys - Own(m, q);
  }

  lemma ImageOwn(r: Mem, m: Mem, q: Proc)
    requires Image(r, m, q.sp, q.n)
    ensures ProcSpace(m, q.sp, q.n) && Own(m, q) !! r.Keys && m.Keys == r.Keys + Own(m, q)
    ensures forall p :: p in r ==> p in m && m[p] == r[p]
  {
    hide WF, Flat, UserMap, HighPages, Leaves;
    forall p | p in r ensures p in m && m[p] == r[p] {
      assert p in m.Keys;
    }
  }

  /** A process depends on its own pages only. */
  lemma ProcStays(m: Mem, m': Mem, q: Proc)
    requires ProcSpace(m, q.sp, q.n)
    requires forall p :: p in Own(m, q) ==> p in m' && p in m && m'[p] == m[p]
    ensures ProcSpace(m', q.sp, q.n) && SameProc(m, m', q) && Own(m', q) == Own(m, q)
  {
    hide Down, Up, Flat, V, HighPages, Ppn, Flags;
    FrameSpace(m, m', q.sp);
    var f := Flat(m, q.sp);
    forall v: nat | v < q.n ensures v in f && LeafOk(m', f[v]) {
      assert LeafOk(m, f[v]);
      assert Ppn(f[v]) in Leaves(f, 0, q.n);
    }
  }

  /** Processes whose pages are untouched are as they were. */
  lemma OthersStay(m: Mem, m': Mem, r: Mem, q: Proc)
    requires ProcSpace(m, q.sp, q.n) && Own(m, q) <= r.Keys
    requires forall p :: p in r ==> p in m && p in m' && m'[p] == r[p] == m[p]
    ensures ProcSpace(m', q.sp, q.n) && SameProc(m, m', q) && Own(m', q) == Own(m, q)
  {
    hide ProcSpace, Own;
    forall p | p in Own(m, q) ensures p in m' && p in m && m'[p] == m[p] {
      assert p in r.Keys;
    }
    ProcStays(m, m', q);
  }

  /** Process `i` changes, in pages of its own or pages that were free. */
  lemma WorldChange(m0: Mem, m: Mem, ps: seq<Proc>, i: nat, m': Mem, q: Proc)
    requires World(m0, m, ps) && i < |ps| && Image(m - Own(m, ps[i]), m', q.sp, q.n)
    ensures World(m0, m', ps[i := q])
    ensures forall j :: 0 <= j < |ps| && j != i ==> SameProc(m, m', ps[j])
  {
    hide ProcSpace, Own, Image, Shared, SameProc;
    var r, os := m - Own(m, ps[i]), Owns(m, ps);
    assert r.Keys == m.Keys - os[i];
    ImageOwn(r, m', q);
    SharedChange(m0.Keys, m.Keys, os, i, Own(m', q));
    forall j | 0 <= j < |ps| && j != i
      ensures ProcSpace(m', ps[j].sp, ps[j].n) && SameProc(m, m', ps[j]) && Own(m', ps[j]) == os[j]
    {
      OthersStay(m, m', r, ps[j]);
    }
    assert Owns(m', ps[i := q]) == os[i := Own(m', q)];
    KeptStay(m0, m, os, i, r, m');
  }

  lemma KeptStay(m0: Mem, m: Mem, os: seq<set<nat>>, i: nat, r: Mem, m': Mem)
    requires Shared(m0.Keys, m.Keys, os) && i < |os| && r == m - os[i]
    requires forall p :: p in m0 ==> p in m && m[p] == m0[p]
    requires forall p :: p in r ==> p in m' && m'[p] == r[p]
    ensures forall p :: p in m0 ==> p in m' && m'[p] == m0[p]
  {
    forall p | p in m0 ensures p in m' && m'[p] == m0[p] {
      assert p in m0.Keys && p !in os[i];
      assert p in r;
    }
  }

  /** A process appears, in pages that were free. */
  lemma WorldAdd(m0: Mem, m: Mem, ps: seq<Proc>, m': Mem, q: Proc)
    requires World(m0, m, ps) && Image(m, m', q.sp, q.n)
    ensures World(m0, m', ps + [q])
    ensures forall j :: 0 <= j < |ps| ==> SameProc(m, m', ps[j])
  {
    hide ProcSpace, Own, Image, SameProc;
    var os := Owns(m, ps);
    ImageOwn(m, m', q);
    forall j | 0 <= j < |ps|
      ensures ProcSpace(m', ps[j].sp, ps[j].n) && SameProc(m, m', ps[j]) && Own(m', ps[j]) == os[j]
    {
      OthersStay(m, m', m, ps[j]);
    }
    SharedAdd(m0.Keys, m.Keys, os, Own(m', q));
    assert Owns(m', ps + [q]) == os + [Own(m', q)];
  }

  /** A process goes, and takes nothing but its own pages with it. */
  lemma WorldRemove(m0: Mem, m: Mem, ps: seq<Proc>, i: nat, m': Mem)
    requires World(m0, m, ps) && i < |ps| && m' == m - Own(m, ps[i])
    ensures World(m0, m', ps[..i] + ps[i + 1..])
    ensures forall j :: 0 <= j < |ps| && j != i ==> SameProc(m, m', ps[j])
  {
    hide ProcSpace, Own, Shared, SameProc;
    var os, ps' := Owns(m, ps), ps[..i] + ps[i + 1..];
    assert m'.Keys == m.Keys - os[i];
    SharedRemove(m0.Keys, m.Keys, os, i);
    forall j | 0 <= j < |ps| && j != i
      ensures ProcSpace(m', ps[j].sp, ps[j].n) && SameProc(m, m', ps[j]) && Own(m', ps[j]) == os[j]
    {
      OthersStay(m, m', m', ps[j]);
    }
    assert Owns(m', ps') == os[..i] + os[i + 1..];
    KeptStay(m0, m, os, i, m', m');
  }
}

/**
 Creating, growing, forking, replacing and ending processes (kernel/proc.c, kernel/exec.c),
 in any order and any number.
 */
module Procs {
  import opened Collections
  import opened Sv39
  import opened PageTable
  import opened VmSpec
  import opened PageCost
  import opened ProcSpec
  import opened ExecSpec
  import Exec
  import V = Vm

  /** The memory part of fork: the child's copy, or memory as it was. */
  method Fork(vm: V.Vm, ghost od: Space, oldRoot: nat, sz: nat, trampoline: nat, trapframe: nat)
    returns (root: nat, ghost sp: Space)
    requires vm.Partition() && oldRoot == od.root && ProcSpace(vm.mem, od, PageCount(sz))
    modifies vm
    ensures vm.Partition()
    ensures root == 0 ==> vm.mem == old(vm.mem)
    ensures root == 0 <==> |old(vm.free)| < NewSpace(PageCount(sz))
    ensures root != 0 ==> sp.root == root && Image(old(vm.mem), vm.mem, sp, PageCount(sz))
    ensures root != 0 ==>
              && WF(vm.mem, od) && Flat(vm.mem, od) == old(Flat(vm.mem, od))
              && Copied(vm.mem, Flat(vm.mem, od), Flat(vm.mem, sp), PageCount(sz))
  {
    hide Flat, WF, Parted, UserMap, HighPages, Apart, Leaves, Copied, Grew, Without, ProcFlat, NewSpace, Need, GotPages,
      FirstPlaces;
    ghost var m0, n := vm.mem, PageCount(sz);
    FreeCount(vm.managed, vm.free, vm.mem);
    NewSpaceNeed(n, |vm.free|);
    root, sp := vm.ProcPagetable(trampoline, trapframe);
    if root == 0 {
      return;
    }
    ImageNone(m0, vm.mem, sp);
    OldImageStays(m0, od, n, vm.mem, sp, {});
    TablesApart(m0, od, n, vm.mem, sp, {});
    ghost var m1, sp1 := vm.mem, sp;
    var r;
    r, sp := vm.UvmCopy(od, oldRoot, sp, root, sz);
    if r == 0 {
      SameRoot(m1, sp1, vm.mem, sp, Leaves(Flat(vm.mem, sp), 0, n));
      ImageGrew(m0, m1, sp1, 0, vm.mem, sp, n);
    } else {
      SameRoot(m1, sp1, vm.mem, sp, {});
      EmptyStays(m1, vm.mem, Flat(vm.mem, sp));
      ImageSame(m0, m1, sp1, 0, vm.mem, sp);
      RoundUpZero();
      vm.Discard(m0, sp, root, 0);
      root := 0;
    }
  }

  lemma TablesApart(m0: Mem, od: Space, n: nat, m: Mem, sp: Space, leaves: set<nat>)
    requires ProcSpace(m0, od, n) && Apart(m0, m, sp, leaves)
    ensures od.pos.Keys !! sp.pos.Keys
  {
    hide ProcSpace;
    OwnedInUse(m0, od, n);
  }

  lemma EmptyStays(m: Mem, m': Mem, f: map<nat, nat>)
    requires UserMap(m, f, 0)
    ensures UserMap(m', f, 0)
  {
  }

  /** What may be asked of the kernel, for the i-th process there is. */
  datatype Ask =
    | Start
    | Grow(i: nat, n: int)
    | Copy(i: nat)
    | Replace(i: nat, segs: seq<Segment>, argv: seq<seq<nat>>)
    | Stop(i: nat)

  /** Memory, the processes there are and their sizes in bytes. */
  datatype Stage = Stage(m: Mem, ps: seq<Proc>, szs: seq<nat>)

  /** The kernel's record of the processes agrees with their address spaces. */
  ghost predicate Known(ps: seq<Proc>, roots: seq<nat>, szs: seq<nat>) {
    && |ps| == |roots| == |szs|
    && forall i :: 0 <= i < |ps| ==> ps[i].sp.root == roots[i] && ps[i].n == PageCount(szs[i])
  }

  /** Of the processes of `a`, all but the i-th are as they were. */
  ghost predicate OthersSame(a: Stage, b: Stage, i: nat) {
    forall j :: 0 <= j < |a.ps| && j != i ==> SameProc(a.m, b.m, a.ps[j])
  }

  /** A new process of size `sz` joins the others, all of which are as they were. */
  ghost predicate Joins(a: Stage, b: Stage, sz: nat) {
    && |b.ps| == |a.ps| + 1 && a.ps == b.ps[..|a.ps|] && b.szs == a.szs + [sz]
    && OthersSame(a, b, |a.ps|)
  }

  /** The last process maps what process `i` maps, with equal flags and bytes on pages of its own. */
  ghost predicate CopyOf(b: Stage, i: nat)
    requires i < |b.ps|
  {
    var p, q := b.ps[i], b.ps[|b.ps| - 1];
    WF(b.m, p.sp) && WF(b.m, q.sp) && p.n == q.n && Copied(b.m, Flat(b.m, p.sp), Flat(b.m, q.sp), q.n)
  }

  /** Only process `i` changes. */
  ghost predicate Changes(a: Stage, b: Stage, i: nat)
    requires i < |a.ps|
  {
    && |b.ps| == |a.ps| == |a.szs| == |b.szs| && b.ps == a.ps[i := b.ps[i]] && b.szs == a.szs[i := b.szs[i]]
    && OthersSame(a, b, i)
  }

  /** Pages below the smaller of the two ends keep mapping and bytes, and those above the old end are zeroed. */
  ghost predicate Resized(m: Mem, p: Proc, m': Mem, q: Proc) {
    && WF(m, p.sp) && WF(m', q.sp)
    && (forall v: nat :: v < p.n && v < q.n ==> KeptPage(m, Flat(m, p.sp), m', Flat(m', q.sp), v))
    && Zeroed(m', Flat(m', q.sp), p.n, q.n, OrV(PTE_R + PTE_U + PTE_W))
  }

  ghost predicate KeptPage(m: Mem, f: map<nat, nat>, m': Mem, f': map<nat, nat>, v: nat) {
    v in f && v in f' && f'[v] == f[v] && Ppn(f[v]) in m && Ppn(f[v]) in m' && m'[Ppn(f[v])] == m[Ppn(f[v])]
  }

  /**
   A request for `n` bytes more is granted exactly when `free` pages are enough; one for less
   always is, unless less than nothing would be left.
   */
  ghost function Granted(free: int, p: Proc, sz: nat, n: int): (sz': nat) {
    if sz + n < 0 || (n > 0 && free < Need(Places(p.sp), PageCount(sz), PageCount(sz + n))) then sz else sz + n
  }

  /** Process `i` is about to start the program, its arguments on the stack. */
  ghost predicate Runs(b: Stage, i: nat, segs: seq<Segment>, argv: seq<seq<nat>>)
    requires i < |b.ps| == |b.szs|
  {
    WF(b.m, b.ps[i].sp) && exists usp, ptrs :: Exec.Ready(b.m, b.ps[i].sp, b.szs[i], segs, argv, usp, ptrs)
  }

  /** What one request does to the processes when there are `pages` pages in all. */
  ghost predicate Follows(pages: nat, a: Stage, x: Ask, b: Stage) {
    var free := pages - |a.m|;
    match x {
      case Start => if free >= NewSpace(0) then Joins(a, b, 0) else b == a
      case Grow(i, n) =>
        if i < |a.ps| then
          && Changes(a, b, i) && b.szs[i] == Granted(free, a.ps[i], a.szs[i], n)
          && Resized(a.m, a.ps[i], b.m, b.ps[i])
        else b == a
      case Copy(i) =>
        if i < |a.ps| == |a.szs| && free >= NewSpace(PageCount(a.szs[i])) then Joins(a, b, a.szs[i]) && CopyOf(b, i)
        else b == a
      case Replace(i, segs, argv) =>
        if i < |a.ps| && free >= 0 && ExecFits(free, segs, argv) then Changes(a, b, i) && Runs(b, i, segs, argv)
        else b == a
      case Stop(i) =>
        if i < |a.ps| == |a.szs| then
          && b.ps == a.ps[..i] + a.ps[i + 1..] && b.szs == a.szs[..i] + a.szs[i + 1..]
          && b.m == a.m - Own(a.m, a.ps[i]) && OthersSame(a, b, i)
        else b == a
    }
  }

  /** Process `i` asks for `n` bytes more or less. */
  method DoGrow(vm: V.Vm, ghost m0: Mem, ghost ps: seq<Proc>, roots: seq<nat>, szs: seq<nat>, i: nat, n: int)
    returns (szs': seq<nat>, ghost ps': seq<Proc>)
    requires vm.Partition() && World(m0, vm.mem, ps) && Known(ps, roots, szs) && i < |roots| && CInt(n)
    modifies vm
    ensures vm.Partition() && World(m0, vm.mem, ps') && Known(ps', roots, szs')
    ensures Follows(|vm.managed|, Stage(old(vm.mem), ps, szs), Grow(i, n), Stage(vm.mem, ps', szs'))
  {
    hide Parted, Image, Shared, ProcSpace, Own, SameProc, PageCount, Without, Zeroed, PagesStay, Need, Resized, Flat,
      WF;
    ghost var m := vm.mem;
    FreeCount(vm.managed, vm.free, m);
    OwnImage(m, ps[i]);
    var ok, sz;
    ghost var sp;
    SizeIs(szs[i]);
    ok, sz, sp := vm.GrowProc(m - Own(m, ps[i]), ps[i].sp, roots[i], szs[i], n);
    SizeIs(sz);
    ghost var q := Proc(sp, PageCount(sz));
    WorldChange(m0, m, ps, i, vm.mem, q);
    ImageShape(m - Own(m, ps[i]), vm.mem, sp, q.n);
    WithoutNone(Flat(vm.mem, sp), q.n);
    ZeroedNone(vm.mem, Flat(vm.mem, sp), q.n, OrV(PTE_R + PTE_U + PTE_W));
    if n >= 0 {
      SizeIs(szs[i] + n);
      RoundUpLess(szs[i], sz);
      Enlarged(m - Own(m, ps[i]), m, ps[i], vm.mem, q);
    } else {
      RoundUpLess(sz, szs[i]);
      Reduced(m - Own(m, ps[i]), m, ps[i], vm.mem, q);
    }
    szs', ps' := szs[i := sz], ps[i := q];
  }

  lemma Enlarged(m0: Mem, m: Mem, p: Proc, m': Mem, q: Proc)
    requires Image(m0, m, p.sp, p.n) && Image(m0, m', q.sp, q.n) && p.n <= q.n && PagesStay(m, m', p.sp)
    requires Without(Flat(m', q.sp), p.n, q.n) == Flat(m, p.sp)
    requires Zeroed(m', Flat(m', q.sp), p.n, q.n, OrV(PTE_R + PTE_U + PTE_W))
    ensures Resized(m, p, m', q)
  {
    hide Down, Up, Flat, Zeroed, HighPages, Apart, Ppn, Flags;
    var f, f' := Flat(m, p.sp), Flat(m', q.sp);
    forall v: nat | v < p.n && v < q.n ensures KeptPage(m, f, m', f', v) {
      assert v in Without(f', p.n, q.n);
      assert LeafOk(m, f[v]);
    }
  }

  lemma Reduced(m0: Mem, m: Mem, p: Proc, m': Mem, q: Proc)
    requires Image(m0, m, p.sp, p.n) && Image(m0, m', q.sp, q.n) && q.n <= p.n && q.sp == p.sp
    requires Flat(m', q.sp) == Without(Flat(m, p.sp), q.n, p.n)
    requires forall x :: x in m' && x !in p.sp.pos ==> x in m && m'[x] == m[x]
    ensures Resized(m, p, m', q)
  {
    hide Down, Up, Flat, HighPages, Apart, Ppn, Flags;
    var f, f' := Flat(m, p.sp), Flat(m', q.sp);
    forall v: nat | v < p.n && v < q.n ensures KeptPage(m, f, m', f', v) {
      assert LeafOk(m', f'[v]);
      assert v in Without(f, q.n, p.n);
    }
  }

  lemma SizeIs(sz: nat)
    ensures PageCount(sz) == PgRoundUp(sz) / PGSIZE
  {
  }

  /** A new process, empty or a copy of process `i`. */
  method DoCreate(vm: V.Vm, ghost m0: Mem, ghost ps: seq<Proc>, roots: seq<nat>, szs: seq<nat>, copy: bool, i: nat,
      trampoline: nat, trapframe: nat)
    returns (roots': seq<nat>, szs': seq<nat>, ghost ps': seq<Proc>)
    requires vm.Partition() && World(m0, vm.mem, ps) && Known(ps, roots, szs) && (copy ==> i < |roots|)
    modifies vm
    ensures vm.Partition() && World(m0, vm.mem, ps') && Known(ps', roots', szs')
    ensures Follows(|vm.managed|, Stage(old(vm.mem), ps, szs), if copy then Copy(i) else Start,
                    Stage(vm.mem, ps', szs'))
  {
    hide Parted, Image, Shared, ProcSpace, Own, PageCount, Copied, ProcFlat, Apart, WF, Flat, SameProc;
    ghost var m := vm.mem;
    FreeCount(vm.managed, vm.free, m);
    roots', szs', ps' := roots, szs, ps;
    var root, sz := 0, 0;
    ghost var sp;
    if copy {
      sz := szs[i];
      root, sp := Fork(vm, ps[i].sp, roots[i], sz, trampoline, trapframe);
    } else {
      root, sp := vm.ProcPagetable(trampoline, trapframe);
      if root != 0 { ImageNone(m, vm.mem, sp); }
      NoPages();
    }
    if root != 0 {
      ghost var q := Proc(sp, PageCount(sz));
      WorldAdd(m0, m, ps, vm.mem, q);
      roots', szs', ps' := roots + [root], szs + [sz], ps + [q];
      ImageShape(m, vm.mem, sp, PageCount(sz));
    }
  }

  lemma NoPages()
    ensures PageCount(0) == 0
  {
  }

  lemma WorldProc(m0: Mem, m: Mem, ps: seq<Proc>, i: nat)
    requires World(m0, m, ps) && i < |ps|
    ensures ProcSpace(m, ps[i].sp, ps[i].n)
  {
    hide ProcSpace, Shared, Own;
  }

  /** What sys_exec and the file system pass to exec. */
  predicate ExecOk(segs: seq<Segment>, argv: seq<seq<nat>>) {
    && (forall s :: s in segs ==> |s.bytes| <= s.filesz)
    && |argv| < MAXARG && forall i :: 0 <= i < |argv| ==> |argv[i]| < PGSIZE
  }

  /** exec in process `i`. */
  method DoReplace(vm: V.Vm, ghost m0: Mem, ghost ps: seq<Proc>, roots: seq<nat>, szs: seq<nat>, i: nat,
      segs: seq<Segment>, argv: seq<seq<nat>>, trampoline: nat, trapframe: nat)
    returns (roots': seq<nat>, szs': seq<nat>, ghost ps': seq<Proc>)
    requires vm.Partition() && World(m0, vm.mem, ps) && Known(ps, roots, szs) && i < |roots| && ExecOk(segs, argv)
    modifies vm
    ensures vm.Partition() && World(m0, vm.mem, ps') && Known(ps', roots', szs')
    ensures Follows(|vm.managed|, Stage(old(vm.mem), ps, szs), Replace(i, segs, argv), Stage(vm.mem, ps', szs'))
  {
    hide Parted, Image, World, ProcSpace, Own, PageCount, U, SameProc, Flat, WF, Leaves, ExecFits, Exec.Ready;
    ghost var m := vm.mem;
    FreeCount(vm.managed, vm.free, m);
    roots', szs', ps' := roots, szs, ps;
    SizeIs(szs[i]);
    WorldProc(m0, m, ps, i);
    OwnTwoSteps(m, ps[i]);
    var r, root, sz, usp, ptrs;
    ghost var sp;
    r, root, sz, usp, ptrs, sp := Exec.Exec(vm, ps[i].sp, roots[i], szs[i], segs, argv, trampoline, trapframe);
    if r != -1 {
      SizeIs(sz);
      ghost var q := Proc(sp, PageCount(sz));
      WorldChange(m0, m, ps, i, vm.mem, q);
      roots', szs', ps' := roots[i := root], szs[i := sz], ps[i := q];
    }
  }

  lemma OwnTwoSteps(m: Mem, q: Proc)
    requires ProcSpace(m, q.sp, q.n)
    ensures WF(m, q.sp) && m - q.sp.pos.Keys - Leaves(Flat(m, q.sp), 0, q.n) == m - Own(m, q)
  {
    hide Flat, Leaves, UserMap, HighPages;
  }

  predicate AskOk(a: Ask) {
    (a.Grow? ==> CInt(a.n)) && (a.Replace? ==> ExecOk(a.segs, a.argv))
  }

  /** The end of process `i`. */
  method DoStop(vm: V.Vm, ghost m0: Mem, ghost ps: seq<Proc>, roots: seq<nat>, szs: seq<nat>, i: nat)
    returns (roots': seq<nat>, szs': seq<nat>, ghost ps': seq<Proc>)
    requires vm.Partition() && World(m0, vm.mem, ps) && Known(ps, roots, szs) && i < |roots|
    modifies vm
    ensures vm.Partition() && World(m0, vm.mem, ps') && Known(ps', roots', szs')
    ensures Follows(|vm.managed|, Stage(old(vm.mem), ps, szs), Stop(i), Stage(vm.mem, ps', szs'))
  {
    hide Parted, World, ProcSpace, Own, PageCount, SameProc, Flat, WF, Leaves;
    ghost var m := vm.mem;
    SizeIs(szs[i]);
    WorldProc(m0, m, ps, i);
    OwnTwoSteps(m, ps[i]);
    var panic := vm.ProcFreePagetable(ps[i].sp, roots[i], szs[i]);
    WorldRemove(m0, m, ps, i, vm.mem);
    roots', szs', ps' := roots[..i] + roots[i + 1..], szs[..i] + szs[i + 1..], ps[..i] + ps[i + 1..];
  }

  /**
   Any run of any number of processes, up to the present: every request does exactly what it
   should to its own process, being refused only for want of pages or of a sound program, and
   nothing to the others; each page in use was in use before and is unchanged, or belongs to
   exactly one process.
   */
  method RunProcesses(vm: V.Vm, asks: seq<Ask>, trampoline: nat, trapframe: nat)
    returns (roots: seq<nat>, szs: seq<nat>, ghost run: seq<Stage>)
    requires vm.Partition() && forall k :: 0 <= k < |asks| ==> AskOk(asks[k])
    modifies vm
    ensures |run| == |asks| + 1 && run[0] == Stage(old(vm.mem), [], [])
    ensures forall k :: 0 <= k < |asks| ==> Follows(|vm.managed|, run[k], asks[k], run[k + 1])
    ensures forall k :: 0 <= k < |run| ==> World(old(vm.mem), run[k].m, run[k].ps)
    ensures vm.Partition() && run[|asks|].m == vm.mem && run[|asks|].szs == szs && Known(run[|asks|].ps, roots, szs)
  {
    hide Parted, World, Follows;
    ghost var m0 := vm.mem;
    roots, szs := [], [];
    ghost var ps: seq<Proc> := [];
    WorldStart(m0);
    run := [Stage(m0, [], [])];
    var k := 0;
    while k < |asks|
      invariant 0 <= k <= |asks| && vm.Partition() && World(m0, vm.mem, ps) && Known(ps, roots, szs)
      invariant |run| == k + 1 && run[0] == Stage(m0, [], []) && run[k] == Stage(vm.mem, ps, szs)
      invariant forall j :: 0 <= j < k ==> Follows(|vm.managed|, run[j], asks[j], run[j + 1])
      invariant forall j :: 0 <= j <= k ==> World(m0, run[j].m, run[j].ps)
    {
      roots, szs, ps := Perform(vm, m0, ps, roots, szs, asks[k], trampoline, trapframe);
      run := run + [Stage(vm.mem, ps, szs)];
      k := k + 1;
    }
  }

  /** When all processes there are have ended, memory and the set of free pages are what they were before any. */
  method StopAll(vm: V.Vm, ghost m0: Mem, ghost free0: seq<nat>, ghost ps: seq<Proc>, roots: seq<nat>, szs: seq<nat>)
    requires vm.Partition() && World(m0, vm.mem, ps) && Known(ps, roots, szs) && Parted(vm.managed, free0, m0.Keys)
    modifies vm
    ensures vm.Partition() && vm.mem == m0 && Elems(vm.free) == Elems(free0)
  {
    hide Parted, World;
    var rs, ss := roots, szs;
    ghost var qs := ps;
    while |rs| > 0
      invariant vm.Partition() && World(m0, vm.mem, qs) && Known(qs, rs, ss)
      decreases |rs|
    {
      rs, ss, qs := StopLast(vm, m0, qs, rs, ss);
    }
    assert qs == [];
    WorldEnd(m0, vm.mem);
    SameFree(vm.managed, free0, vm.free, vm.mem.Keys);
  }

  /** One request. */
  method Perform(vm: V.Vm, ghost m0: Mem, ghost ps: seq<Proc>, roots: seq<nat>, szs: seq<nat>, ask: Ask,
      trampoline: nat, trapframe: nat)
    returns (roots': seq<nat>, szs': seq<nat>, ghost ps': seq<Proc>)
    requires vm.Partition() && World(m0, vm.mem, ps) && Known(ps, roots, szs) && AskOk(ask)
    modifies vm
    ensures vm.Partition() && World(m0, vm.mem, ps') && Known(ps', roots', szs')
    ensures Follows(|vm.managed|, Stage(old(vm.mem), ps, szs), ask, Stage(vm.mem, ps', szs'))
  {
    hide Parted, World, Joins, CopyOf, Changes, Granted, Resized, Runs, OthersSame, Own, ExecFits, NewSpace;
    roots', szs', ps' := roots, szs, ps;
    match ask {
      case Start =>
        roots', szs', ps' := DoCreate(vm, m0, ps, roots, szs, false, 0, trampoline, trapframe);
      case Copy(i) =>
        if i < |roots| {
          roots', szs', ps' := DoCreate(vm, m0, ps, roots, szs, true, i, trampoline, trapframe);
        }
      case Grow(i, n) =>
        if i < |roots| {
          szs', ps' := DoGrow(vm, m0, ps, roots, szs, i, n);
        }
      case Replace(i, segs, argv) =>
        if i < |roots| {
          roots', szs', ps' := DoReplace(vm, m0, ps, roots, szs, i, segs, argv, trampoline, trapframe);
        }
      case Stop(i) =>
        if i < |roots| {
          roots', szs', ps' := DoStop(vm, m0, ps, roots, szs, i);
        }
    }
  }

  method StopLast(vm: V.Vm, ghost m0: Mem, ghost ps: seq<Proc>, roots: seq<nat>, szs: seq<nat>)
    returns (roots': seq<nat>, szs': seq<nat>, ghost ps': seq<Proc>)
    requires vm.Partition() && World(m0, vm.mem, ps) && Known(ps, roots, szs) && |roots| > 0
    modifies vm
    ensures vm.Partition() && World(m0, vm.mem, ps') && Known(ps', roots', szs') && |roots'| == |roots| - 1
  {
    hide Parted, World, OthersSame, Own;
    roots', szs', ps' := DoStop(vm, m0, ps, roots, szs, |roots| - 1);
  }
}
