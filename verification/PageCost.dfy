/** How many pages page tables and address spaces take (kernel/vm.c, kernel/proc.c). */
module PageCost {
  import opened Collections
  import opened Sv39
  import opened PageTable
  import opened VmSpec

  /** The pages that `sz` bytes take. */
  function PageCount(sz: nat): (n: nat) {
    PgRoundUp(sz) / PGSIZE
  }

  /** What is not in use is free. */
  lemma FreeCount(managed: set<nat>, free: seq<nat>, m: Mem)
    requires Parted(managed, free, m.Keys)
    ensures |free| == |managed| - |m| && |free| <= MAXPAGES
  {
    ElemsCount(free);
    assert managed == Elems(free) + m.Keys;
    assert |m.Keys| == |m|;
  }

  lemma {:induction false} ElemsCount(s: seq<nat>)
    requires Distinct(s)
    ensures |Elems(s)| == |s|
  {
    if s != [] {
      ElemsCount(s[1..]);
      TailElems(s);
    }
  }

  /** The places of the table pages that lead to page number `v`, the root aside. */
  function TablesAt(v: nat): (r: set<Path>) {
    {Mid(I2(v)), Low(I2(v), I1(v))}
  }

  /** Those that lead to any of the page numbers lo..hi. */
  ghost function Tables(lo: nat, hi: nat): (r: set<Path>) {
    set v, p | lo <= v < hi && p in TablesAt(v) :: p
  }

  /** Where the space has a table page. */
  ghost function Places(sp: Space): (r: set<Path>) {
    sp.pos.Values
  }

  /** The table pages that are yet to be made for page numbers lo..hi. */
  ghost function Missing(pl: set<Path>, lo: nat, hi: nat): (r: set<Path>) {
    Tables(lo, hi) - pl
  }

  /** Pages that mapping fresh pages at lo..hi takes: one each, and the missing tables. */
  ghost function Need(pl: set<Path>, lo: nat, hi: nat): (n: nat) {
    if hi <= lo then 0 else hi - lo + |Missing(pl, lo, hi)|
  }

  /** The space got its missing tables for lo..hi, which left `after` of `before` free pages. */
  ghost predicate GotTables(sp: Space, sp': Space, lo: nat, hi: nat, before: nat, after: nat) {
    Places(sp') == Places(sp) + Tables(lo, hi) && after == before - |Missing(Places(sp), lo, hi)|
  }

  /** It got fresh pages at lo..hi, and the tables for them. */
  ghost predicate GotPages(sp: Space, sp': Space, lo: nat, hi: nat, before: nat, after: nat) {
    Places(sp') == Places(sp) + Tables(lo, hi) && after == before - Need(Places(sp), lo, hi)
  }

  lemma TablesNone(lo: nat)
    ensures Tables(lo, lo) == {}
  {
  }

  lemma TablesJoin(lo: nat, mid: nat, hi: nat)
    requires lo <= mid <= hi
    ensures Tables(lo, hi) == Tables(lo, mid) + Tables(mid, hi)
  {
    hide TablesAt;
  }

  lemma TablesOne(v: nat)
    ensures Tables(v, v + 1) == TablesAt(v)
  {
  }

  lemma MissingJoin(pl: set<Path>, lo: nat, mid: nat, hi: nat)
    requires lo <= mid <= hi
    ensures |Missing(pl, lo, hi)| == |Missing(pl, lo, mid)| + |Missing(pl + Tables(lo, mid), mid, hi)|
  {
    hide Tables;
    TablesJoin(lo, mid, hi);
    assert Missing(pl, lo, hi) == Missing(pl, lo, mid) + Missing(pl + Tables(lo, mid), mid, hi);
  }

  /** Growing in two steps takes as much as growing in one. */
  lemma NeedJoin(pl: set<Path>, lo: nat, mid: nat, hi: nat)
    requires lo <= mid <= hi
    ensures Need(pl, lo, hi) == Need(pl, lo, mid) + Need(pl + Tables(lo, mid), mid, hi)
    ensures pl + Tables(lo, hi) == pl + Tables(lo, mid) + Tables(mid, hi)
  {
    hide Tables, Missing;
    TablesJoin(lo, mid, hi);
    MissingJoin(pl, lo, mid, hi);
    MissingNone(pl, lo);
    MissingNone(pl + Tables(lo, mid), mid);
  }

  lemma GotNone(sp: Space, lo: nat, free: nat)
    ensures GotTables(sp, sp, lo, lo, free, free) && GotPages(sp, sp, lo, lo, free, free)
  {
    hide Tables;
    TablesNone(lo);
    MissingNone(Places(sp), lo);
  }

  lemma GotTablesMore(sp: Space, sp1: Space, sp2: Space, lo: nat, mid: nat, hi: nat, f0: nat, f1: nat, f2: nat)
    requires lo <= mid <= hi && GotTables(sp, sp1, lo, mid, f0, f1) && GotTables(sp1, sp2, mid, hi, f1, f2)
    ensures GotTables(sp, sp2, lo, hi, f0, f2)
  {
    hide Tables, Missing;
    MissingJoin(Places(sp), lo, mid, hi);
    TablesJoin(lo, mid, hi);
  }

  lemma GotPagesMore(sp: Space, sp1: Space, sp2: Space, lo: nat, mid: nat, hi: nat, f0: nat, f1: nat, f2: nat)
    requires lo <= mid <= hi && GotPages(sp, sp1, lo, mid, f0, f1) && GotPages(sp1, sp2, mid, hi, f1, f2)
    ensures GotPages(sp, sp2, lo, hi, f0, f2)
  {
    hide Tables, Missing, Need;
    NeedJoin(Places(sp), lo, mid, hi);
  }

  /** When the next step does not fit, the whole does not fit. */
  lemma TooMuch(sp: Space, sp1: Space, lo: nat, mid: nat, hi: nat, f0: nat, f1: nat, end: nat)
    requires lo <= mid <= hi <= end && GotPages(sp, sp1, lo, mid, f0, f1) && f1 < Need(Places(sp1), mid, hi)
    ensures f0 < Need(Places(sp), lo, end)
  {
    hide Tables, Missing, Need;
    NeedJoin(Places(sp), lo, mid, hi);
    NeedJoin(Places(sp), lo, hi, end);
  }

  lemma TooManyTables(sp: Space, sp1: Space, lo: nat, mid: nat, hi: nat, f0: nat, f1: nat)
    requires lo <= mid <= hi && GotTables(sp, sp1, lo, mid, f0, f1) && f1 < |Missing(Places(sp1), mid, hi)|
    ensures f0 < |Missing(Places(sp), lo, hi)|
  {
    hide Tables, Missing;
    MissingJoin(Places(sp), lo, mid, hi);
  }

  /** One fresh page and the tables it lacks. */
  lemma GotOne(sp: Space, sp': Space, v: nat, before: nat, after: nat)
    requires before > 0
    ensures GotTables(sp, sp', v, v + 1, before - 1, after) <==> GotPages(sp, sp', v, v + 1, before, after)
    ensures Need(Places(sp), v, v + 1) == 1 + |Missing(Places(sp), v, v + 1)|
  {
    hide Tables, Missing;
  }

  lemma NeedNone(pl: set<Path>, lo: nat)
    ensures Need(pl, lo, lo) == 0
  {
  }

  lemma OneNeeded(pl: set<Path>, v: nat)
    ensures Need(pl, v, v + 1) > 0
  {
  }

  lemma GotEnough(sp: Space, sp': Space, lo: nat, hi: nat, before: nat, after: nat)
    requires GotPages(sp, sp', lo, hi, before, after)
    ensures before >= Need(Places(sp), lo, hi)
  {
  }

  lemma RoundUpAbove(a: nat, sz: nat, v: nat)
    requires a == v * PGSIZE && a < sz
    ensures v + 1 <= PgRoundUp(sz) / PGSIZE
  {
  }

  lemma RoundUpDone(a: nat, sz: nat, v: nat)
    requires a == v * PGSIZE && a >= sz && v <= PgRoundUp(sz) / PGSIZE
    ensures v == PgRoundUp(sz) / PGSIZE
  {
  }

  lemma MissingNone(pl: set<Path>, lo: nat)
    ensures Missing(pl, lo, lo) == {}
  {
    TablesNone(lo);
  }

  // ------------------------------------------------------------------ new spaces

  /** Where a new address space has its tables: those of the trampoline and trapframe pages. */
  function FirstPlaces(): (r: set<Path>) {
    {Root, Mid(255), Low(255, 511)}
  }

  lemma HighTables()
    ensures TablesAt(PAGES - 1) == {Mid(255), Low(255, 511)} == TablesAt(PAGES - 2)
    ensures {Root} + TablesAt(PAGES - 1) == FirstPlaces()
  {
  }

  /** Two tables are yet to be made for the trampoline page. */
  lemma HighNeed(sp: Space)
    requires Places(sp) == {Root}
    ensures |Missing(Places(sp), PAGES - 1, PAGES)| == 2
  {
    hide Tables, TablesAt;
    TablesOne(PAGES - 1);
    HighTables();
    assert Missing(Places(sp), PAGES - 1, PAGES) == {Mid(255), Low(255, 511)};
  }

  lemma HighGot(sp: Space, sp': Space, before: nat, after: nat)
    requires Places(sp) == {Root} && GotTables(sp, sp', PAGES - 1, PAGES, before, after)
    ensures Places(sp') == FirstPlaces() && after == before - 2
    ensures |Missing(Places(sp'), PAGES - 2, PAGES - 1)| == 0
  {
    hide Tables, TablesAt;
    TablesOne(PAGES - 1);
    TablesOne(PAGES - 2);
    HighTables();
    HighNeed(sp);
    assert Missing(Places(sp'), PAGES - 2, PAGES - 1) == {};
  }

  /** None more for the trapframe page. */
  lemma HighAgain(sp: Space, sp': Space, before: nat, after: nat)
    requires Places(sp) == FirstPlaces() && GotTables(sp, sp', PAGES - 2, PAGES - 1, before, after)
    ensures Places(sp') == FirstPlaces() && after == before
  {
    hide Tables, TablesAt;
    TablesOne(PAGES - 2);
    HighTables();
    assert Missing(Places(sp), PAGES - 2, PAGES - 1) == {};
  }

  /** Pages of a new address space with `n` user pages: three tables, the pages, and a table for each 512 of them. */
  function NewSpace(n: nat): (r: nat) {
    3 + n + (n + 511) / 512 + if n > 0 then 1 else 0
  }

  /** The first `k` leaf tables. */
  ghost function Lows(k: nat): (r: set<Path>) {
    set j | 0 <= j < k :: Low(0, j)
  }

  lemma LowsMore(k: nat)
    ensures Lows(k + 1) == Lows(k) + {Low(0, k)} && Low(0, k) !in Lows(k)
  {
  }

  lemma {:induction false} LowsCount(k: nat)
    ensures |Lows(k)| == k && Mid(0) !in Lows(k)
  {
    if k == 0 {
      assert Lows(0) == {};
    } else {
      LowsCount(k - 1);
      LowsMore(k - 1);
    }
  }

  /** The tables for the first `n` pages. */
  lemma {:induction false} FirstTables(n: nat)
    requires n <= MAXPAGES
    ensures Missing(FirstPlaces(), 0, n) == Lows((n + 511) / 512) + if n > 0 then {Mid(0)} else {}
  {
    if n == 0 {
      MissingNone(FirstPlaces(), 0);
      assert Lows(0) == {};
    } else {
      hide Tables, Lows;
      FirstTables(n - 1);
      TablesJoin(0, n - 1, n);
      TablesOne(n - 1);
      LowTables(n);
    }
  }

  lemma LowTables(n: nat)
    requires 0 < n <= MAXPAGES
    ensures TablesAt(n - 1) == {Mid(0), Low(0, (n - 1) / 512)} && TablesAt(n - 1) !! FirstPlaces()
    ensures Lows((n + 511) / 512) == Lows((n + 510) / 512) + {Low(0, (n - 1) / 512)}
  {
    var j := (n - 1) / 512;
    assert I2(n - 1) == 0 && I1(n - 1) == j;
    LowsMore(j);
  }

  /** A new address space with `n` pages fits exactly when NewSpace(n) pages are free. */
  lemma NewSpaceNeed(n: nat, free: nat)
    requires free <= MAXPAGES
    ensures free >= 3 + Need(FirstPlaces(), 0, n) <==> free >= NewSpace(n)
  {
    if n <= MAXPAGES {
      FirstTables(n);
      LowsCount((n + 511) / 512);
    }
  }

  // -------------------------------------------------------------------- the walk

  /** The places below the root that walk has passed on its way down to `level`. */
  function Passed(level: nat, va: nat): (r: set<Path>)
    requires level <= 2
  {
    if level == 2 then {} else if level == 1 then {PathAt(1, va)} else {PathAt(1, va), PathAt(0, va)}
  }

  /** walk's progress: the tables passed are there, and the new ones among them were taken from the free pages. */
  ghost predicate Walked(sp: Space, sp': Space, level: nat, va: nat, before: nat, after: nat)
    requires level <= 2
  {
    Places(sp') == Places(sp) + Passed(level, va) && after == before - |Passed(level, va) - Places(sp)|
  }

  lemma WalkStarts(sp: Space, va: nat, free: nat)
    ensures Walked(sp, sp, 2, va, free, free)
  {
    assert Passed(2, va) - Places(sp) == {};
  }

  lemma PassedStep(level: nat, va: nat)
    requires 0 < level <= 2
    ensures Passed(level - 1, va) == Passed(level, va) + {PathAt(level - 1, va)}
    ensures PathAt(level - 1, va) !in Passed(level, va)
  {
  }

  /** One more level, the table being there already. */
  lemma WalkDown(sp: Space, sp': Space, level: nat, va: nat, before: nat, after: nat)
    requires 0 < level <= 2 && Walked(sp, sp', level, va, before, after) && PathAt(level - 1, va) in Places(sp')
    ensures Walked(sp, sp', level - 1, va, before, after)
  {
    hide Places, Passed, PathAt;
    PassedStep(level, va);
    assert Passed(level - 1, va) - Places(sp) == Passed(level, va) - Places(sp);
  }

  /** One more level with a new table. */
  lemma WalkNew(sp: Space, sp1: Space, sp2: Space, level: nat, va: nat, before: nat, after: nat)
    requires 0 < level <= 2 && Walked(sp, sp1, level, va, before, after) && PathAt(level - 1, va) !in Places(sp1)
    requires Places(sp2) == Places(sp1) + {PathAt(level - 1, va)} && after > 0
    ensures Walked(sp, sp2, level - 1, va, before, after - 1)
  {
    hide Places, Passed, PathAt;
    PassedStep(level, va);
    assert Passed(level - 1, va) - Places(sp) == (Passed(level, va) - Places(sp)) + {PathAt(level - 1, va)};
  }

  /** No page is left for a missing table. */
  lemma WalkFails(sp: Space, sp': Space, level: nat, va: nat, before: nat)
    requires 0 < level <= 2 && va < MAXVA && Walked(sp, sp', level, va, before, 0)
    requires PathAt(level - 1, va) !in Places(sp')
    ensures before < |Missing(Places(sp), va / PGSIZE, va / PGSIZE + 1)|
  {
    hide Places, Tables;
    PassedAll(va);
    var pl, p := Places(sp), PathAt(level - 1, va);
    assert (Passed(level, va) - pl) + {p} <= Passed(0, va) - pl;
    SubsetSize((Passed(level, va) - pl) + {p}, Passed(0, va) - pl);
  }

  lemma WalkEnds(sp: Space, sp': Space, va: nat, before: nat, after: nat)
    requires va < MAXVA && Walked(sp, sp', 0, va, before, after)
    ensures GotTables(sp, sp', va / PGSIZE, va / PGSIZE + 1, before, after)
  {
    hide Places, Tables;
    PassedAll(va);
  }

  lemma GotAll(sp: Space, sp': Space, v: nat, before: nat, after: nat)
    requires GotTables(sp, sp', v, v + 1, before, after)
    ensures before >= |Missing(Places(sp), v, v + 1)|
  {
  }

  lemma PassedAll(va: nat)
    requires va < MAXVA
    ensures Passed(0, va) == TablesAt(va / PGSIZE) == Tables(va / PGSIZE, va / PGSIZE + 1)
  {
    PageIndices(va);
    TablesOne(va / PGSIZE);
  }

  /** A missing entry of an inner table means a missing table. */
  lemma NotPlaced(m: Mem, sp: Space, t: nat, level: nat, va: nat)
    requires WF(m, sp) && t in sp.pos && 0 < level <= 2 && sp.pos[t] == PathAt(level, va)
    ensures V(m[t].e[PX(level, va)]) <==> PathAt(level - 1, va) in Places(sp)
  {
    hide V, Ppn, Interior, PX;
    var q := PathAt(level - 1, va);
    if V(m[t].e[PX(level, va)]) {
      Child(m, sp, t, PX(level, va));
    }
    if q in Places(sp) {
      var c :| c in sp.pos && sp.pos[c] == q;
      assert Reached(m, sp, c) && Reached(m, sp, t);
      if q.Low? {
        var p :| p in sp.pos && sp.pos[p] == Mid(q.i) && Leads(m, p, q.j, c);
        PlacesDiffer(m, sp, p, t);
      }
    }
  }

  lemma GrownPlaces(sp: Space, t: nat, i: nat, c: nat)
    requires t in sp.pos && !sp.pos[t].Low? && c !in sp.pos
    ensures Places(Grown(sp, t, i, c)) == Places(sp) + {Sub(sp.pos[t], i)}
  {
    var sp' := Grown(sp, t, i, c);
    forall p | p in Places(sp) ensures p in Places(sp') {
      var s :| s in sp.pos && sp.pos[s] == p;
      assert s in sp'.pos && sp'.pos[s] == p;
    }
    assert c in sp'.pos && sp'.pos[c] == Sub(sp.pos[t], i);
  }
}
