/**
 The user-level allocator (user/umalloc.c). Addresses are counted in header-sized units;
 the static header `base` sits at 0, below everything that sbrk hands out.
 */
module FreeList {
  /** A stretch of memory: `size` units from `addr` on, the first of them its header. */
  datatype Blk = Blk(addr: nat, size: nat)

  /** Address-ordered, non-empty, with a gap between neighbours: fully coalesced. */
  ghost predicate Wf(fl: seq<Blk>) {
    && (forall i :: 0 <= i < |fl| ==> fl[i].addr > 0 && fl[i].size > 0)
    && forall i, j :: 0 <= i < j < |fl| ==> fl[i].addr + fl[i].size < fl[j].addr
  }

  ghost predicate Disjoint(a: Blk, b: Blk) {
    a.addr + a.size <= b.addr || b.addr + b.size <= a.addr
  }

  ghost predicate DisjointFrom(fl: seq<Blk>, b: Blk) {
    forall i :: 0 <= i < |fl| ==> Disjoint(fl[i], b)
  }

  /** `b` belongs between fl[t - 1] and fl[t]. */
  ghost predicate Place(fl: seq<Blk>, b: Blk, t: nat) {
    && t <= |fl|
    && (forall i :: 0 <= i < t ==> fl[i].addr + fl[i].size <= b.addr)
    && (forall i :: t <= i < |fl| ==> b.addr + b.size <= fl[i].addr)
  }

  /** The block extended by the first of the blocks above it, if they touch. */
  function MergeUp(b: Blk, hi: seq<Blk>): (r: seq<Blk>)
    ensures |r| > 0 && r[0].addr == b.addr
  {
    if hi != [] && b.addr + b.size == hi[0].addr then [Blk(b.addr, b.size + hi[0].size)] + hi[1..] else [b] + hi
  }

  /** The blocks below and above joined, where the last below and the first above touch or not. */
  function MergeDown(lo: seq<Blk>, up: seq<Blk>): (r: seq<Blk>)
    requires |up| > 0
  {
    if lo != [] && lo[|lo| - 1].addr + lo[|lo| - 1].size == up[0].addr
    then lo[..|lo| - 1] + ([Blk(lo[|lo| - 1].addr, lo[|lo| - 1].size + up[0].size)] + up[1..])
    else lo + up
  }

  /** Insert `b` at its place, merged with the neighbours it touches. */
  function Insert(fl: seq<Blk>, b: Blk, t: nat): (r: seq<Blk>)
    requires t <= |fl|
  {
    MergeDown(fl[..t], MergeUp(b, fl[t..]))
  }

  function Sum(fl: seq<Blk>): (n: nat) {
    if fl == [] then 0 else Sum(fl[..|fl| - 1]) + fl[|fl| - 1].size
  }

  lemma {:induction false} SumConcat(a: seq<Blk>, b: seq<Blk>)
    ensures Sum(a + b) == Sum(a) + Sum(b)
  {
    if b == [] {
      assert a + b == a;
    } else {
      assert (a + b)[..|a + b| - 1] == a + b[..|b| - 1];
      SumConcat(a, b[..|b| - 1]);
    }
  }

  lemma SumOne(b: Blk)
    ensures Sum([b]) == b.size
  {
    assert [b][..0] == [];
  }

  lemma WfConcat(a: seq<Blk>, b: seq<Blk>)
    requires Wf(a) && Wf(b)
    requires a != [] && b != [] ==> a[|a| - 1].addr + a[|a| - 1].size < b[0].addr
    ensures Wf(a + b)
  {
    var c := a + b;
    forall i, j | 0 <= i < j < |c| ensures c[i].addr + c[i].size < c[j].addr {
      if i < |a| <= j {
        assert c[i].addr + c[i].size <= a[|a| - 1].addr + a[|a| - 1].size;
        assert b[0].addr <= c[j].addr;
      }
    }
  }

  lemma WfSlice(fl: seq<Blk>, i: nat, j: nat)
    requires Wf(fl) && i <= j <= |fl|
    ensures Wf(fl[i..j])
  {
  }

  lemma WfAt(fl: seq<Blk>, i: nat)
    requires Wf(fl) && i < |fl|
    ensures fl[i].addr > 0 && fl[i].size > 0
    ensures i + 1 < |fl| ==> fl[i].addr + fl[i].size < fl[i + 1].addr
  {
  }

  lemma WfOne(b: Blk)
    requires b.addr > 0 && b.size > 0
    ensures Wf([b])
  {
  }

  lemma MergeUpWf(b: Blk, hi: seq<Blk>)
    requires Wf(hi) && b.addr > 0 && b.size > 0 && (hi != [] ==> b.addr + b.size <= hi[0].addr)
    ensures Wf(MergeUp(b, hi))
  {
    hide Wf;
    if hi != [] && b.addr + b.size == hi[0].addr {
      var m := Blk(b.addr, b.size + hi[0].size);
      WfOne(m);
      WfAt(hi, 0);
      WfSlice(hi, 1, |hi|);
      assert hi[1..|hi|] == hi[1..];
      WfConcat([m], hi[1..]);
    } else {
      WfOne(b);
      WfConcat([b], hi);
    }
  }

  lemma MergeDownWf(lo: seq<Blk>, up: seq<Blk>)
    requires Wf(lo) && Wf(up) && |up| > 0 && (lo != [] ==> lo[|lo| - 1].addr + lo[|lo| - 1].size <= up[0].addr)
    ensures Wf(MergeDown(lo, up))
  {
    hide Wf;
    if lo != [] && lo[|lo| - 1].addr + lo[|lo| - 1].size == up[0].addr {
      var l := |lo| - 1;
      var m := Blk(lo[l].addr, lo[l].size + up[0].size);
      WfAt(lo, l);
      WfAt(up, 0);
      WfOne(m);
      WfSlice(up, 1, |up|);
      assert up[1..|up|] == up[1..];
      WfConcat([m], up[1..]);
      WfSlice(lo, 0, l);
      assert lo[0..l] == lo[..l];
      if l > 0 { WfAt(lo, l - 1); }
      WfConcat(lo[..l], [m] + up[1..]);
    } else {
      WfConcat(lo, up);
    }
  }

  /** Inserting keeps the list ordered and coalesced. */
  lemma InsertWf(fl: seq<Blk>, b: Blk, t: nat)
    requires Wf(fl) && b.addr > 0 && b.size > 0 && Place(fl, b, t)
    ensures Wf(Insert(fl, b, t))
  {
    MergeUpWf(b, fl[t..]);
    MergeDownWf(fl[..t], MergeUp(b, fl[t..]));
  }

  lemma MergeUpSum(b: Blk, hi: seq<Blk>)
    ensures Sum(MergeUp(b, hi)) == b.size + Sum(hi)
  {
    hide Sum;
    if hi != [] && b.addr + b.size == hi[0].addr {
      var m := Blk(b.addr, b.size + hi[0].size);
      assert hi == [hi[0]] + hi[1..];
      SumOne(hi[0]);
      SumOne(m);
      SumConcat([hi[0]], hi[1..]);
      SumConcat([m], hi[1..]);
    } else {
      SumOne(b);
      SumConcat([b], hi);
    }
  }

  lemma MergeDownSum(lo: seq<Blk>, up: seq<Blk>)
    requires |up| > 0
    ensures Sum(MergeDown(lo, up)) == Sum(lo) + Sum(up)
  {
    hide Sum;
    if lo != [] && lo[|lo| - 1].addr + lo[|lo| - 1].size == up[0].addr {
      var l := |lo| - 1;
      var m := Blk(lo[l].addr, lo[l].size + up[0].size);
      assert lo == lo[..l] + [lo[l]] && up == [up[0]] + up[1..];
      SumOne(lo[l]);
      SumOne(up[0]);
      SumOne(m);
      SumConcat(lo[..l], [lo[l]]);
      SumConcat([up[0]], up[1..]);
      SumConcat([m], up[1..]);
      SumConcat(lo[..l], [m] + up[1..]);
    } else {
      SumConcat(lo, up);
    }
  }

  /** Inserting adds exactly the units of the block. */
  lemma InsertSum(fl: seq<Blk>, b: Blk, t: nat)
    requires t <= |fl|
    ensures Sum(Insert(fl, b, t)) == Sum(fl) + b.size
  {
    hide Sum;
    assert fl == fl[..t] + fl[t..];
    SumConcat(fl[..t], fl[t..]);
    MergeUpSum(b, fl[t..]);
    MergeDownSum(fl[..t], MergeUp(b, fl[t..]));
  }

  /** Whatever is disjoint from the list and the block is disjoint from the new list. */
  lemma InsertDisjoint(fl: seq<Blk>, b: Blk, t: nat, x: Blk)
    requires t <= |fl| && x.size > 0 && b.size > 0 && (forall i :: 0 <= i < |fl| ==> fl[i].size > 0)
    requires DisjointFrom(fl, x) && Disjoint(b, x)
    ensures DisjointFrom(Insert(fl, b, t), x)
  {
    var up := MergeUp(b, fl[t..]);
    assert DisjointFrom(up, x) by {
      forall i | 0 <= i < |up| ensures Disjoint(up[i], x) {
        if t < |fl| { assert Disjoint(fl[t], x); }
        if i > 0 { assert up[i] in fl[t..]; }
      }
    }
    var lo := fl[..t];
    if lo != [] && lo[|lo| - 1].addr + lo[|lo| - 1].size == up[0].addr {
      assert Disjoint(fl[t - 1], x) && Disjoint(up[0], x);
    }
  }

  /** A block disjoint from all free ones has a place among them. */
  lemma {:induction false} PlaceExists(fl: seq<Blk>, b: Blk) returns (t: nat)
    requires Wf(fl) && b.size > 0 && DisjointFrom(fl, b)
    ensures Place(fl, b, t)
  {
    t := 0;
    while t < |fl| && fl[t].addr < b.addr
      invariant t <= |fl|
      invariant forall i :: 0 <= i < t ==> fl[i].addr < b.addr
    {
      t := t + 1;
    }
    forall i | 0 <= i < |fl|
      ensures if i < t then fl[i].addr + fl[i].size <= b.addr else b.addr + b.size <= fl[i].addr
    {
      assert Disjoint(fl[i], b);
    }
  }

  /** Take `n` units from the end of block `k`, or all of it. */
  function Take(fl: seq<Blk>, k: nat, n: nat): (r: seq<Blk>)
    requires k < |fl| && n <= fl[k].size
  {
    if fl[k].size == n then fl[..k] + fl[k + 1..] else fl[k := Blk(fl[k].addr, fl[k].size - n)]
  }

  /** The block that Take removes. */
  function Taken(fl: seq<Blk>, k: nat, n: nat): (b: Blk)
    requires k < |fl| && n <= fl[k].size
  {
    Blk(fl[k].addr + fl[k].size - n, n)
  }

  lemma TakeWf(fl: seq<Blk>, k: nat, n: nat)
    requires Wf(fl) && k < |fl| && 0 < n <= fl[k].size
    ensures Wf(Take(fl, k, n)) && DisjointFrom(Take(fl, k, n), Taken(fl, k, n))
  {
  }

  lemma TakeSum(fl: seq<Blk>, k: nat, n: nat)
    requires k < |fl| && n <= fl[k].size
    ensures Sum(Take(fl, k, n)) + n == Sum(fl)
  {
    hide Sum;
    assert fl == fl[..k] + ([fl[k]] + fl[k + 1..]);
    SumConcat(fl[..k], [fl[k]] + fl[k + 1..]);
    SumConcat([fl[k]], fl[k + 1..]);
    SumOne(fl[k]);
    if fl[k].size == n {
      SumConcat(fl[..k], fl[k + 1..]);
    } else {
      var b := Blk(fl[k].addr, fl[k].size - n);
      assert fl[k := b] == fl[..k] + ([b] + fl[k + 1..]);
      SumConcat(fl[..k], [b] + fl[k + 1..]);
      SumConcat([b], fl[k + 1..]);
      SumOne(b);
    }
  }

  lemma TakeDisjoint(fl: seq<Blk>, k: nat, n: nat, x: Blk)
    requires Wf(fl) && k < |fl| && 0 < n <= fl[k].size && DisjointFrom(fl, x)
    ensures DisjointFrom(Take(fl, k, n), x) && Disjoint(Taken(fl, k, n), x)
  {
    assert Disjoint(fl[k], x);
  }

  // ------------------------------------------------ the list is its set of units

  predicate In(b: Blk, u: nat) {
    b.addr <= u < b.addr + b.size
  }

  ghost predicate Covers(fl: seq<Blk>, u: nat) {
    exists i :: 0 <= i < |fl| && In(fl[i], u)
  }

  lemma CoversConcat(a: seq<Blk>, b: seq<Blk>, u: nat)
    ensures Covers(a + b, u) <==> Covers(a, u) || Covers(b, u)
  {
    var c := a + b;
    if Covers(a, u) {
      var i :| 0 <= i < |a| && In(a[i], u);
      assert In(c[i], u);
    }
    if Covers(b, u) {
      var i :| 0 <= i < |b| && In(b[i], u);
      assert In(c[|a| + i], u);
    }
    if Covers(c, u) {
      var i :| 0 <= i < |c| && In(c[i], u);
      assert if i < |a| then In(a[i], u) else In(b[i - |a|], u);
    }
  }

  lemma CoversOne(b: Blk, u: nat)
    ensures Covers([b], u) <==> In(b, u)
  {
    assert In([b][0], u) <==> In(b, u);
  }

  /** Inserting adds exactly the units of the block. */
  lemma InsertCovers(fl: seq<Blk>, b: Blk, t: nat, u: nat)
    requires t <= |fl|
    ensures Covers(Insert(fl, b, t), u) <==> Covers(fl, u) || In(b, u)
  {
    hide Covers;
    var lo, hi := fl[..t], fl[t..];
    assert fl == lo + hi;
    CoversConcat(lo, hi, u);
    var up := MergeUp(b, hi);
    assert Covers(up, u) <==> In(b, u) || Covers(hi, u) by { MergeUpCovers(b, hi, u); }
    if lo != [] && lo[|lo| - 1].addr + lo[|lo| - 1].size == up[0].addr {
      var init, x, m := lo[..|lo| - 1], lo[|lo| - 1], Blk(lo[|lo| - 1].addr, lo[|lo| - 1].size + up[0].size);
      assert lo == init + [x] && up == [up[0]] + up[1..];
      CoversConcat(init, [x], u);
      CoversConcat([up[0]], up[1..], u);
      CoversConcat(init, [m] + up[1..], u);
      CoversConcat([m], up[1..], u);
      CoversOne(x, u);
      CoversOne(up[0], u);
      CoversOne(m, u);
    } else {
      CoversConcat(lo, up, u);
    }
  }

  lemma MergeUpCovers(b: Blk, hi: seq<Blk>, u: nat)
    ensures Covers(MergeUp(b, hi), u) <==> In(b, u) || Covers(hi, u)
  {
    hide Covers;
    CoversOne(b, u);
    if hi != [] && b.addr + b.size == hi[0].addr {
      var m := Blk(b.addr, b.size + hi[0].size);
      assert hi == [hi[0]] + hi[1..];
      CoversConcat([hi[0]], hi[1..], u);
      CoversConcat([m], hi[1..], u);
      CoversOne(hi[0], u);
      CoversOne(m, u);
    } else {
      CoversConcat([b], hi, u);
    }
  }

  lemma FirstCovered(f: seq<Blk>, g: seq<Blk>)
    requires Wf(f) && Wf(g) && (forall u :: Covers(f, u) <==> Covers(g, u)) && f != []
    ensures g != [] && g[0].addr <= f[0].addr
  {
    var u := f[0].addr;
    assert In(f[0], u);
    assert Covers(g, u);
    var i :| 0 <= i < |g| && In(g[i], u);
  }

  lemma FirstSize(f: seq<Blk>, g: seq<Blk>)
    requires Wf(f) && Wf(g) && (forall u :: Covers(f, u) <==> Covers(g, u)) && f != [] && g != []
    requires f[0].addr == g[0].addr
    ensures g[0].size <= f[0].size
  {
    var u := f[0].addr + f[0].size;
    forall i | 0 <= i < |f| ensures !In(f[i], u) {
    }
    assert !Covers(f, u);
    assert !In(g[0], u);
  }

  lemma TailCovers(f: seq<Blk>, u: nat)
    requires Wf(f) && f != []
    ensures Covers(f[1..], u) <==> Covers(f, u) && u >= f[0].addr + f[0].size
  {
    if Covers(f[1..], u) {
      var i :| 0 <= i < |f| - 1 && In(f[1..][i], u);
      assert In(f[i + 1], u);
    }
    if Covers(f, u) && u >= f[0].addr + f[0].size {
      var i :| 0 <= i < |f| && In(f[i], u);
      assert In(f[1..][i - 1], u);
    }
  }

  /** A free list without touching neighbours is determined by the units it covers: nothing stays fragmented. */
  lemma {:induction false} Canonical(f: seq<Blk>, g: seq<Blk>)
    requires Wf(f) && Wf(g) && forall u :: Covers(f, u) <==> Covers(g, u)
    ensures f == g
    decreases |f|
  {
    hide Covers;
    if f == [] {
      if g != [] { FirstCovered(g, f); }
    } else {
      FirstCovered(f, g);
      FirstCovered(g, f);
      FirstSize(f, g);
      FirstSize(g, f);
      assert Wf(f[1..]) && Wf(g[1..]);
      forall u ensures Covers(f[1..], u) <==> Covers(g[1..], u) {
        TailCovers(f, u);
        TailCovers(g, u);
      }
      Canonical(f[1..], g[1..]);
      assert f == [f[0]] + f[1..] && g == [g[0]] + g[1..];
    }
  }

  /** The order in which two blocks are freed does not matter. */
  lemma FreeOrder(fl: seq<Blk>, a: Blk, b: Blk, s: nat, t: nat, s': nat, t': nat)
    requires Wf(fl) && a.addr > 0 && a.size > 0 && b.addr > 0 && b.size > 0
    requires Place(fl, a, s) && Place(Insert(fl, a, s), b, t)
    requires Place(fl, b, t') && Place(Insert(fl, b, t'), a, s')
    ensures Insert(Insert(fl, a, s), b, t) == Insert(Insert(fl, b, t'), a, s')
  {
    hide Wf, Place, Insert, Covers;
    PlaceBound(fl, a, s);
    PlaceBound(fl, b, t');
    var fa, fb := Insert(fl, a, s), Insert(fl, b, t');
    PlaceBound(fa, b, t);
    PlaceBound(fb, a, s');
    InsertWf(fl, a, s);
    InsertWf(fl, b, t');
    InsertWf(fa, b, t);
    InsertWf(fb, a, s');
    forall u ensures Covers(Insert(fa, b, t), u) <==> Covers(Insert(fb, a, s'), u) {
      InsertCovers(fl, a, s, u);
      InsertCovers(fl, b, t', u);
      InsertCovers(fa, b, t, u);
      InsertCovers(fb, a, s', u);
    }
    Canonical(Insert(fa, b, t), Insert(fb, a, s'));
  }

  lemma PlaceBound(fl: seq<Blk>, b: Blk, t: nat)
    requires Place(fl, b, t)
    ensures t <= |fl|
  {
  }

  /** Freeing what malloc() took gives back the free list malloc() started from. */
  lemma FreeUndoesTake(fl: seq<Blk>, k: nat, n: nat, t: nat)
    requires Wf(fl) && k < |fl| && 0 < n <= fl[k].size && Place(Take(fl, k, n), Taken(fl, k, n), t)
    ensures Insert(Take(fl, k, n), Taken(fl, k, n), t) == fl
  {
    hide Insert, Covers;
    var r, b := Take(fl, k, n), Taken(fl, k, n);
    TakeWf(fl, k, n);
    InsertWf(r, b, t);
    forall u ensures Covers(Insert(r, b, t), u) <==> Covers(fl, u) {
      InsertCovers(r, b, t, u);
      TakeCovers(fl, k, n, u);
    }
    Canonical(Insert(r, b, t), fl);
  }

  lemma TakeCovers(fl: seq<Blk>, k: nat, n: nat, u: nat)
    requires k < |fl| && n <= fl[k].size
    ensures Covers(fl, u) <==> Covers(Take(fl, k, n), u) || In(Taken(fl, k, n), u)
  {
    hide Covers;
    var lo, hi := fl[..k], fl[k + 1..];
    assert fl == lo + ([fl[k]] + hi);
    CoversConcat(lo, [fl[k]] + hi, u);
    CoversConcat([fl[k]], hi, u);
    CoversOne(fl[k], u);
    if fl[k].size == n {
      CoversConcat(lo, hi, u);
    } else {
      var x := Blk(fl[k].addr, fl[k].size - n);
      assert Take(fl, k, n) == lo + ([x] + hi);
      CoversConcat(lo, [x] + hi, u);
      CoversConcat([x], hi, u);
      CoversOne(x, u);
    }
  }
}

module Umalloc {
  import opened FreeList

  /** union header: the next free block and the size in units. */
  datatype Header = Header(ptr: nat, size: nat)

  const HEADER: nat := 16 // sizeof(Header)

  /** The circular list: the static header `base`, then the free blocks. */
  function Nodes(fl: seq<Blk>): (nl: seq<Blk>)
    ensures |nl| == |fl| + 1
  {
    [Blk(0, 0)] + fl
  }

  /** A stretch of linked headers that ends with a pointer to `end`. */
  ghost predicate Chain(hdr: map<nat, Header>, s: seq<Blk>, end: nat) {
    forall j :: 0 <= j < |s| ==> s[j].addr in hdr && hdr[s[j].addr] == Header(Follow(s, j, end), s[j].size)
  }

  function Follow(s: seq<Blk>, j: nat, end: nat): (a: nat)
    requires j < |s|
  {
    if j + 1 < |s| then s[j + 1].addr else end
  }

  function First(s: seq<Blk>, end: nat): (a: nat) {
    if s == [] then end else s[0].addr
  }

  /** The headers in memory form exactly this circular list. */
  ghost predicate Links(hdr: map<nat, Header>, fl: seq<Blk>) {
    Chain(hdr, Nodes(fl), 0)
  }

  lemma ChainSplit(hdr: map<nat, Header>, a: seq<Blk>, b: seq<Blk>, end: nat)
    ensures Chain(hdr, a + b, end) <==> Chain(hdr, a, First(b, end)) && Chain(hdr, b, end)
  {
    var s := a + b;
    if Chain(hdr, s, end) {
      forall j | 0 <= j < |a|
        ensures a[j].addr in hdr && hdr[a[j].addr] == Header(Follow(a, j, First(b, end)), a[j].size)
      {
        assert s[j] == a[j];
      }
      forall j | 0 <= j < |b| ensures b[j].addr in hdr && hdr[b[j].addr] == Header(Follow(b, j, end), b[j].size) {
        assert s[|a| + j] == b[j];
      }
    }
    if Chain(hdr, a, First(b, end)) && Chain(hdr, b, end) {
      forall j | 0 <= j < |s| ensures s[j].addr in hdr && hdr[s[j].addr] == Header(Follow(s, j, end), s[j].size) {
        if j >= |a| { assert s[j] == b[j - |a|]; }
      }
    }
  }

  ghost predicate NotIn(s: seq<Blk>, a: nat) {
    forall j :: 0 <= j < |s| ==> s[j].addr != a
  }

  /** A header outside the stretch does not matter to it. */
  lemma ChainFrame(hdr: map<nat, Header>, s: seq<Blk>, end: nat, a: nat, h: Header)
    requires Chain(hdr, s, end) && NotIn(s, a)
    ensures Chain(hdr[a := h], s, end)
  {
  }

  lemma ChainOne(hdr: map<nat, Header>, b: Blk, end: nat)
    ensures Chain(hdr, [b], end) <==> b.addr in hdr && hdr[b.addr] == Header(end, b.size)
  {
    assert [b][0] == b;
  }

  /** The first update of free(): link the block to what follows, or swallow it. */
  function UpHeader(hdr: map<nat, Header>, bp: nat, q: nat): (h: Header)
    requires bp in hdr && q in hdr
  {
    if bp + hdr[bp].size == q then Header(hdr[q].ptr, hdr[bp].size + hdr[q].size) else Header(q, hdr[bp].size)
  }

  /** The second update: link the predecessor to the block, or let it swallow the block. */
  function DownHeader(hdr: map<nat, Header>, p: nat, bp: nat): (h: Header)
    requires p in hdr && bp in hdr
  {
    if p + hdr[p].size == bp then Header(hdr[bp].ptr, hdr[p].size + hdr[bp].size) else Header(bp, hdr[p].size)
  }

  lemma UpChain(hdr: map<nat, Header>, b: Blk, hi: seq<Blk>)
    requires Chain(hdr, hi, 0) && NotIn(hi, b.addr) && b.addr in hdr && hdr[b.addr].size == b.size && b.size > 0
    requires First(hi, 0) in hdr
    ensures Chain(hdr[b.addr := UpHeader(hdr, b.addr, First(hi, 0))], MergeUp(b, hi), 0)
  {
    var h := hdr[b.addr := UpHeader(hdr, b.addr, First(hi, 0))];
    ChainFrame(hdr, hi, 0, b.addr, h[b.addr]);
    if hi != [] && b.addr + b.size == hi[0].addr {
      assert hi == [hi[0]] + hi[1..];
      ChainSplit(h, [hi[0]], hi[1..], 0);
      ChainOne(h, hi[0], First(hi[1..], 0));
      var m := Blk(b.addr, b.size + hi[0].size);
      ChainOne(h, m, First(hi[1..], 0));
      ChainSplit(h, [m], hi[1..], 0);
    } else {
      ChainOne(h, b, First(hi, 0));
      ChainSplit(h, [b], hi, 0);
    }
  }

  lemma DownChain(hdr: map<nat, Header>, lo: seq<Blk>, p: Blk, next: nat, up: seq<Blk>)
    requires |up| > 0 && Chain(hdr, lo + [p], next) && Chain(hdr, up, 0)
    requires NotIn(lo, p.addr) && NotIn(up, p.addr)
    ensures p.addr in hdr && up[0].addr in hdr
    ensures Chain(hdr[p.addr := DownHeader(hdr, p.addr, up[0].addr)], MergeDown(lo + [p], up), 0)
  {
    hide Chain, NotIn;
    ChainSplit(hdr, lo, [p], next);
    ChainOne(hdr, p, next);
    assert up == [up[0]] + up[1..];
    ChainSplit(hdr, [up[0]], up[1..], 0);
    ChainOne(hdr, up[0], First(up[1..], 0));
    var h := hdr[p.addr := DownHeader(hdr, p.addr, up[0].addr)];
    ChainFrame(hdr, lo, p.addr, p.addr, h[p.addr]);
    ChainFrame(hdr, up, 0, p.addr, h[p.addr]);
    var l := lo + [p];
    assert l[..|l| - 1] == lo && l[|l| - 1] == p;
    if p.addr + p.size == up[0].addr {
      var m := Blk(p.addr, p.size + up[0].size);
      ChainSplit(h, [up[0]], up[1..], 0);
      ChainOne(h, m, First(up[1..], 0));
      ChainSplit(h, [m], up[1..], 0);
      ChainSplit(h, lo, [m] + up[1..], 0);
    } else {
      ChainOne(h, p, up[0].addr);
      ChainSplit(h, [p], up, 0);
      ChainSplit(h, lo, [p] + up, 0);
      assert lo + ([p] + up) == l + up;
    }
  }

  /** `base` has no units and never merges. */
  lemma MergeDownBase(lo: seq<Blk>, up: seq<Blk>)
    requires |up| > 0 && up[0].addr > 0
    ensures MergeDown(Nodes(lo), up) == Nodes(MergeDown(lo, up))
    ensures |lo| < |Nodes(MergeDown(lo, up))| && Nodes(MergeDown(lo, up))[|lo|].addr == Nodes(lo)[|lo|].addr
  {
    var l := Nodes(lo);
    if lo != [] && lo[|lo| - 1].addr + lo[|lo| - 1].size == up[0].addr {
      var m := [Blk(lo[|lo| - 1].addr, lo[|lo| - 1].size + up[0].size)] + up[1..];
      assert l[..|l| - 1] == [Blk(0, 0)] + lo[..|lo| - 1];
      assert l[..|l| - 1] + m == [Blk(0, 0)] + (lo[..|lo| - 1] + m);
    } else {
      assert l + up == [Blk(0, 0)] + (lo + up);
    }
  }

  /** Node t of the circular list is the predecessor of a block placed at t. */
  lemma NodesInsert(fl: seq<Blk>, b: Blk, t: nat)
    requires t <= |fl| && b.addr > 0
    ensures Nodes(Insert(fl, b, t)) == MergeDown(Nodes(fl)[..t + 1], MergeUp(b, Nodes(fl)[t + 1..]))
    ensures Nodes(fl)[t + 1..] == fl[t..]
    ensures t < |Nodes(Insert(fl, b, t))| && Nodes(Insert(fl, b, t))[t].addr == Nodes(fl)[t].addr
  {
    hide MergeDown, MergeUp;
    assert Nodes(fl)[t + 1..] == fl[t..];
    assert Nodes(fl)[..t + 1] == Nodes(fl[..t]);
    MergeDownBase(fl[..t], MergeUp(b, fl[t..]));
  }

  lemma NodesIncrease(fl: seq<Blk>, i: nat, j: nat)
    requires Wf(fl) && i < j <= |fl|
    ensures Nodes(fl)[i].addr < Nodes(fl)[j].addr
  {
  }

  /** Nodes up to the place of `b` lie below it, the others above. */
  lemma PlaceNodes(fl: seq<Blk>, b: Blk, t: nat, j: nat)
    requires Wf(fl) && Place(fl, b, t) && b.addr > 0 && b.size > 0 && j <= |fl|
    ensures j <= t ==> Nodes(fl)[j].addr < b.addr
    ensures j > t ==> b.addr + b.size <= Nodes(fl)[j].addr
  {
    if 0 < j <= t { assert fl[j - 1].size > 0; }
  }

  /** The two updates of free() after predecessor p. */
  function Spliced(hdr: map<nat, Header>, p: nat, bp: nat): (r: map<nat, Header>)
    requires p in hdr && bp in hdr && hdr[p].ptr in hdr
  {
    var h := hdr[bp := UpHeader(hdr, bp, hdr[p].ptr)];
    h[p := DownHeader(h, p, bp)]
  }

  /** They turn the list into the one with the block inserted. */
  lemma SplicedLinks(hdr: map<nat, Header>, fl: seq<Blk>, b: Blk, t: nat)
    requires Links(hdr, fl) && Wf(fl) && Place(fl, b, t) && b.addr > 0 && b.size > 0
    requires b.addr in hdr && hdr[b.addr].size == b.size
    ensures Nodes(fl)[t].addr in hdr && hdr[Nodes(fl)[t].addr].ptr in hdr && Nodes(fl)[t].addr != b.addr
    ensures Links(Spliced(hdr, Nodes(fl)[t].addr, b.addr), Insert(fl, b, t))
    ensures t < |Nodes(Insert(fl, b, t))| && Nodes(Insert(fl, b, t))[t].addr == Nodes(fl)[t].addr
  {
    hide Insert, MergeUp, MergeDown, Wf, UpHeader, DownHeader, Chain;
    NodesInsert(fl, b, t);
    var nl := Nodes(fl);
    var lo, p, hi := nl[..t], nl[t], nl[t + 1..];
    assert nl == (lo + [p]) + hi && nl[..t + 1] == lo + [p];
    ChainSplit(hdr, lo + [p], hi, 0);
    ChainSplit(hdr, lo, [p], First(hi, 0));
    ChainOne(hdr, p, First(hi, 0));
    HeadKnown(hdr, fl, hi);
    Apart(fl, b, t);
    UpChain(hdr, b, hi);
    var h1 := hdr[b.addr := UpHeader(hdr, b.addr, First(hi, 0))];
    ChainFrame(hdr, lo + [p], First(hi, 0), b.addr, h1[b.addr]);
    MergeUpAddrs(b, hi, p.addr);
    DownChain(h1, lo, p, First(hi, 0), MergeUp(b, hi));
  }

  lemma HeadKnown(hdr: map<nat, Header>, fl: seq<Blk>, hi: seq<Blk>)
    requires Links(hdr, fl) && Chain(hdr, hi, 0)
    ensures First(hi, 0) in hdr
  {
    assert Nodes(fl)[0].addr in hdr;
  }

  lemma MergeUpAddrs(b: Blk, hi: seq<Blk>, a: nat)
    requires NotIn(hi, a) && b.addr != a
    ensures NotIn(MergeUp(b, hi), a)
  {
  }

  lemma Apart(fl: seq<Blk>, b: Blk, t: nat)
    requires Wf(fl) && Place(fl, b, t) && b.addr > 0 && b.size > 0
    ensures var nl := Nodes(fl);
            && NotIn(nl, b.addr) && NotIn(nl[t + 1..], b.addr) && NotIn(nl[..t] + [nl[t]], b.addr)
            && NotIn(nl[..t], nl[t].addr) && NotIn(nl[t + 1..], nl[t].addr)
  {
    hide Wf;
    var nl := Nodes(fl);
    forall j | 0 <= j < |nl| ensures nl[j].addr != b.addr && (j != t ==> nl[j].addr != nl[t].addr) {
      PlaceNodes(fl, b, t, j);
      if j < t { NodesIncrease(fl, j, t); } else if j > t { NodesIncrease(fl, t, j); }
    }
  }

  /** The four parts of the circular list around block k: before, predecessor, block, after. */
  lemma SplitAt(hdr: map<nat, Header>, fl: seq<Blk>, k: nat)
    requires Links(hdr, fl) && Wf(fl) && k < |fl|
    ensures var nl := Nodes(fl);
            var lo, p, b, hi := nl[..k], nl[k], nl[k + 1], nl[k + 2..];
            && nl == lo + ([p] + ([b] + hi)) && b == fl[k]
            && Chain(hdr, lo, p.addr) && Chain(hdr, [p], b.addr) && Chain(hdr, [b], First(hi, 0)) && Chain(hdr, hi, 0)
            && p.addr in hdr && hdr[p.addr] == Header(b.addr, p.size)
            && b.addr in hdr && hdr[b.addr] == Header(First(hi, 0), b.size)
            && NotIn(lo, p.addr) && NotIn(lo, b.addr) && NotIn([p], b.addr) && NotIn(hi, p.addr) && NotIn(hi, b.addr)
  {
    hide Chain, Wf;
    DistinctNodes(fl);
    var nl := Nodes(fl);
    var lo, p, b, hi := nl[..k], nl[k], nl[k + 1], nl[k + 2..];
    assert nl == lo + ([p] + ([b] + hi));
    ChainSplit(hdr, lo, [p] + ([b] + hi), 0);
    ChainSplit(hdr, [p], [b] + hi, 0);
    ChainSplit(hdr, [b], hi, 0);
    ChainOne(hdr, p, b.addr);
    ChainOne(hdr, b, First(hi, 0));
  }

  /** malloc unlinks block k, which has just the right size. */
  lemma UnlinkLinks(hdr: map<nat, Header>, fl: seq<Blk>, k: nat)
    requires Links(hdr, fl) && Wf(fl) && k < |fl|
    ensures fl[k].addr in hdr && Nodes(fl)[k].addr in hdr
    ensures Links(hdr[Nodes(fl)[k].addr := Header(hdr[fl[k].addr].ptr, hdr[Nodes(fl)[k].addr].size)],
                  fl[..k] + fl[k + 1..])
    ensures Nodes(fl[..k] + fl[k + 1..])[k].addr == Nodes(fl)[k].addr
  {
    hide Chain, Wf, NotIn;
    SplitAt(hdr, fl, k);
    var nl := Nodes(fl);
    var lo, p, hi := nl[..k], nl[k], nl[k + 2..];
    var h := Header(First(hi, 0), p.size);
    var hdr' := hdr[p.addr := h];
    ChainFrame(hdr, lo, p.addr, p.addr, h);
    ChainFrame(hdr, hi, 0, p.addr, h);
    ChainOne(hdr', p, First(hi, 0));
    ChainSplit(hdr', [p], hi, 0);
    ChainSplit(hdr', lo, [p] + hi, 0);
    assert Nodes(fl[..k] + fl[k + 1..]) == lo + ([p] + hi);
  }

  lemma CutNodes(fl: seq<Blk>, k: nat, n: nat)
    requires k < |fl| && n < fl[k].size
    ensures Nodes(Take(fl, k, n)) ==
            Nodes(fl)[..k] + ([Nodes(fl)[k]] + ([Blk(fl[k].addr, fl[k].size - n)] + Nodes(fl)[k + 2..]))
  {
    assert Nodes(fl)[k + 2..] == fl[k + 1..];
    assert Nodes(fl)[..k] + [Nodes(fl)[k]] == [Blk(0, 0)] + fl[..k];
  }

  /** malloc cuts `n` units off the end of block k and writes a header `x` there. */
  lemma CutLinks(hdr: map<nat, Header>, fl: seq<Blk>, k: nat, n: nat, x: Header)
    requires Links(hdr, fl) && Wf(fl) && k < |fl| && 0 < n < fl[k].size
    ensures fl[k].addr in hdr
    ensures Links(hdr[fl[k].addr := Header(hdr[fl[k].addr].ptr, fl[k].size - n)][Taken(fl, k, n).addr := x],
                  Take(fl, k, n))
  {
    hide Chain, Wf, NotIn, Take, Follow;
    SplitAt(hdr, fl, k);
    var nl := Nodes(fl);
    var lo, p, b, hi := nl[..k], nl[k], nl[k + 1], nl[k + 2..];
    var h, b' := Header(First(hi, 0), b.size - n), Blk(b.addr, b.size - n);
    var hdr' := hdr[b.addr := h];
    ChainFrame(hdr, lo, p.addr, b.addr, h);
    ChainFrame(hdr, [p], b.addr, b.addr, h);
    ChainFrame(hdr, hi, 0, b.addr, h);
    ChainOne(hdr', b', First(hi, 0));
    ChainSplit(hdr', [b'], hi, 0);
    ChainSplit(hdr', [p], [b'] + hi, 0);
    ChainSplit(hdr', lo, [p] + ([b'] + hi), 0);
    CutNodes(fl, k, n);
    TakenIsNoNode(fl, k, n);
    ChainFrame(hdr', Nodes(Take(fl, k, n)), 0, Taken(fl, k, n).addr, x);
  }

  lemma DistinctNodes(fl: seq<Blk>)
    requires Wf(fl)
    ensures forall i, j :: 0 <= i < j <= |fl| ==> Nodes(fl)[i].addr != Nodes(fl)[j].addr
  {
  }

  lemma TakenIsNoNode(fl: seq<Blk>, k: nat, n: nat)
    requires Wf(fl) && k < |fl| && 0 < n < fl[k].size
    ensures NotIn(Nodes(Take(fl, k, n)), Taken(fl, k, n).addr)
  {
    var r, a := Take(fl, k, n), Taken(fl, k, n).addr;
    forall j | 0 <= j < |Nodes(r)| ensures Nodes(r)[j].addr != a {
      if j > 0 && j - 1 != k { assert r[j - 1] == fl[j - 1]; }
    }
  }

  // ------------------------------------------------------------ walking the list

  function NextI(n: nat, q: nat): (r: nat) {
    if q == n then 0 else q + 1
  }

  /** Steps forward from node i to node t in a circle of nodes 0..n. */
  function Dist(n: nat, i: nat, t: nat): (d: nat)
    requires i <= n && t <= n
  {
    if i <= t then t - i else t + n + 1 - i
  }

  lemma NodeAt(hdr: map<nat, Header>, fl: seq<Blk>, q: nat)
    requires Links(hdr, fl) && q <= |fl|
    ensures Nodes(fl)[q].addr in hdr
    ensures hdr[Nodes(fl)[q].addr] == Header(Nodes(fl)[NextI(|fl|, q)].addr, Nodes(fl)[q].size)
  {
  }

  lemma HeapWf(hdr: map<nat, Header>, fl: seq<Blk>, live: seq<Blk>, granted: nat, limit: nat)
    requires HeapOk(hdr, fl, live, granted, limit)
    ensures Wf(fl)
  {
  }

  lemma SameNode(fl: seq<Blk>, i: nat, j: nat)
    requires Wf(fl) && i <= |fl| && j <= |fl|
    ensures Nodes(fl)[i].addr == Nodes(fl)[j].addr <==> i == j
  {
    DistinctNodes(fl);
  }

  /** The test that ends free()'s search holds at the predecessor and nowhere else. */
  lemma SearchTest(fl: seq<Blk>, b: Blk, t: nat, i: nat)
    requires Wf(fl) && Place(fl, b, t) && b.addr > 0 && b.size > 0 && i <= |fl|
    ensures var p, q, bp := Nodes(fl)[i].addr, Nodes(fl)[NextI(|fl|, i)].addr, b.addr;
            ((bp > p && bp < q) || (p >= q && (bp > p || bp < q))) <==> i == t
  {
    PlaceNodes(fl, b, t, i);
    PlaceNodes(fl, b, t, NextI(|fl|, i));
    if i < |fl| { NodesIncrease(fl, i, i + 1); }
  }

  /** The inserted block can be found in the new list. */
  lemma InsertBig(fl: seq<Blk>, b: Blk, t: nat) returns (g: nat)
    requires t <= |fl|
    ensures g <= |Insert(fl, b, t)| && Nodes(Insert(fl, b, t))[g].size >= b.size
  {
    var up := MergeUp(b, fl[t..]);
    var lo := fl[..t];
    g := if lo != [] && lo[|lo| - 1].addr + lo[|lo| - 1].size == up[0].addr then t else t + 1;
  }

  // ----------------------------------------------------------------- whole heap

  ghost predicate InUse(hdr: map<nat, Header>, b: Blk, limit: nat) {
    b.addr > 0 && b.size > 0 && b.addr + b.size <= limit && b.addr in hdr && hdr[b.addr].size == b.size
  }

  /** Free and live blocks: within the memory obtained, pairwise disjoint, and together all of it. */
  ghost predicate HeapOk(hdr: map<nat, Header>, fl: seq<Blk>, live: seq<Blk>, granted: nat, limit: nat) {
    && Wf(fl)
    && (forall i :: 0 <= i < |fl| ==> fl[i].addr + fl[i].size <= limit)
    && (forall i :: 0 <= i < |live| ==> InUse(hdr, live[i], limit) && DisjointFrom(fl, live[i]))
    && (forall i, j :: 0 <= i < j < |live| ==> Disjoint(live[i], live[j]))
    && Sum(fl) + Sum(live) == granted
    && limit > 0
  }

  function RemoveAt(s: seq<Blk>, k: nat): (r: seq<Blk>)
    requires k < |s|
  {
    s[..k] + s[k + 1..]
  }

  lemma SumRemove(s: seq<Blk>, k: nat)
    requires k < |s|
    ensures Sum(RemoveAt(s, k)) + s[k].size == Sum(s)
  {
    hide Sum;
    assert s == s[..k] + ([s[k]] + s[k + 1..]);
    SumConcat(s[..k], [s[k]] + s[k + 1..]);
    SumConcat([s[k]], s[k + 1..]);
    SumOne(s[k]);
    SumConcat(s[..k], s[k + 1..]);
  }

  /** Returning block `b` to the free list, when it is none of the remaining live blocks. */
  lemma ReleasedOk(hdr: map<nat, Header>, fl: seq<Blk>, live: seq<Blk>, granted: nat, limit: nat, b: Blk, t: nat,
      hdr': map<nat, Header>)
    requires HeapOk(hdr, fl, live, granted, limit) && Place(fl, b, t) && b.addr > 0 && b.size > 0
        && b.addr + b.size <= limit
    requires forall i :: 0 <= i < |live| ==> Disjoint(b, live[i])
    requires forall a :: a in hdr && a != b.addr && a != Nodes(fl)[t].addr ==> a in hdr' && hdr'[a] == hdr[a]
    ensures HeapOk(hdr', Insert(fl, b, t), live, granted + b.size, limit)
  {
    hide Sum, Insert;
    InsertWf(fl, b, t);
    InsertSum(fl, b, t);
    var r := Insert(fl, b, t);
    InsertLimit(fl, b, t, limit);
    forall i | 0 <= i < |live| ensures InUse(hdr', live[i], limit) && DisjointFrom(r, live[i]) {
      InsertDisjoint(fl, b, t, live[i]);
      if t > 0 { assert Disjoint(fl[t - 1], live[i]); }
    }
  }

  lemma InsertLimit(fl: seq<Blk>, b: Blk, t: nat, limit: nat)
    requires t <= |fl| && b.addr + b.size <= limit && forall i :: 0 <= i < |fl| ==> fl[i].addr + fl[i].size <= limit
    ensures forall i :: 0 <= i < |Insert(fl, b, t)| ==> Insert(fl, b, t)[i].addr + Insert(fl, b, t)[i].size <= limit
  {
    var up := MergeUp(b, fl[t..]);
    assert forall i :: 0 <= i < |up| ==> up[i].addr + up[i].size <= limit;
  }

  /** Handing out `n` units of block k. */
  lemma TakenOk(hdr: map<nat, Header>, fl: seq<Blk>, live: seq<Blk>, granted: nat, limit: nat, k: nat, n: nat,
      hdr': map<nat, Header>)
    requires HeapOk(hdr, fl, live, granted, limit) && k < |fl| && 0 < n <= fl[k].size
    requires Taken(fl, k, n).addr in hdr' && hdr'[Taken(fl, k, n).addr].size == n
    requires forall a :: a in hdr && a != fl[k].addr && a != Nodes(fl)[k].addr && a != Taken(fl, k, n).addr ==>
               a in hdr' && hdr'[a] == hdr[a]
    ensures HeapOk(hdr', Take(fl, k, n), live + [Taken(fl, k, n)], granted, limit)
  {
    hide Sum;
    var b := Taken(fl, k, n);
    TakeWf(fl, k, n);
    TakeSum(fl, k, n);
    SumOne(b);
    SumConcat(live, [b]);
    var all, r := live + [b], Take(fl, k, n);
    forall i | 0 <= i < |live| ensures InUse(hdr', live[i], limit) && DisjointFrom(r, live[i]) && Disjoint(live[i], b) {
      TakeDisjoint(fl, k, n, live[i]);
      assert Disjoint(fl[k], live[i]);
      if k > 0 { assert Disjoint(fl[k - 1], live[i]); }
    }
  }

  /** Without one live block the rest still accounts for everything but that block. */
  lemma RemovedOk(hdr: map<nat, Header>, fl: seq<Blk>, live: seq<Blk>, granted: nat, limit: nat, k: nat)
    requires HeapOk(hdr, fl, live, granted, limit) && k < |live|
    ensures live[k].size <= granted && HeapOk(hdr, fl, RemoveAt(live, k), granted - live[k].size, limit)
    ensures forall i :: 0 <= i < |live| - 1 ==> Disjoint(live[k], RemoveAt(live, k)[i])
  {
    hide Sum;
    SumRemove(live, k);
  }

  /** Memory above the limit: its header may be written, and it touches no block. */
  lemma FreshOk(hdr: map<nat, Header>, fl: seq<Blk>, live: seq<Blk>, granted: nat, limit: nat, b: Blk)
    requires HeapOk(hdr, fl, live, granted, limit) && b.addr >= limit
    ensures HeapOk(hdr[b.addr := Header(0, b.size)], fl, live, granted, b.addr + b.size)
    ensures DisjointFrom(fl, b) && forall i :: 0 <= i < |live| ==> Disjoint(b, live[i])
  {
    hide Sum;
    var h := hdr[b.addr := Header(0, b.size)];
    forall i | 0 <= i < |live| ensures InUse(h, live[i], b.addr + b.size) {
      assert InUse(hdr, live[i], limit);
    }
  }

  lemma FreshLinks(hdr: map<nat, Header>, fl: seq<Blk>, limit: nat, b: Blk, h: Header)
    requires Links(hdr, fl) && b.addr >= limit > 0
    requires forall i :: 0 <= i < |fl| ==> fl[i].addr + fl[i].size <= limit && fl[i].size > 0
    ensures Links(hdr[b.addr := h], fl)
  {
    ChainFrame(hdr, Nodes(fl), 0, b.addr, h);
  }

  /** The first call makes the list of just the base header. */
  lemma BaseAlone(hdr: map<nat, Header>, fl: seq<Blk>, live: seq<Blk>, granted: nat, limit: nat)
    requires HeapOk(hdr, fl, live, granted, limit) && fl == [] && live == []
    ensures HeapOk(hdr[0 := Header(0, 0)], fl, live, granted, limit) && Links(hdr[0 := Header(0, 0)], fl)
        && Nodes(fl)[0].addr == 0
  {
  }

  /** Every node from freep's successor up to node q is too small. */
  ghost predicate Seen(fl: seq<Blk>, fi: nat, q: nat, nunits: nat)
    requires fi <= |fl| && q <= |fl|
  {
    forall j :: 0 <= j <= |fl| && Dist(|fl|, j, fi) >= Dist(|fl|, NextI(|fl|, q), fi) + 1 ==> Nodes(fl)[j].size < nunits
  }

  lemma SeenNone(fl: seq<Blk>, fi: nat, nunits: nat)
    requires fi <= |fl|
    ensures Seen(fl, fi, fi, nunits)
  {
  }

  lemma SeenMore(fl: seq<Blk>, fi: nat, q: nat, nunits: nat)
    requires fi <= |fl| && q <= |fl| && Seen(fl, fi, q, nunits) && NextI(|fl|, q) != fi
        && Nodes(fl)[NextI(|fl|, q)].size < nunits
    ensures Seen(fl, fi, NextI(|fl|, q), nunits)
  {
  }

  /** One step nearer to node t, and past no other node. */
  lemma DistStep(n: nat, x: nat, t: nat, g: nat)
    requires x <= n && t <= n && g <= n
    ensures Dist(n, x, t) == 0 <==> x == t
    ensures x != t ==> Dist(n, NextI(n, x), t) == Dist(n, x, t) - 1
    ensures Dist(n, g, t) <= Dist(n, NextI(n, t), t)
    ensures g != x ==> Dist(n, g, t) != Dist(n, x, t)
  {
  }

  lemma AllSeen(fl: seq<Blk>, fi: nat, q: nat, nunits: nat)
    requires fi <= |fl| && q <= |fl| && Seen(fl, fi, q, nunits) && NextI(|fl|, q) == fi && Nodes(fl)[fi].size < nunits
    ensures forall i :: 0 <= i < |fl| ==> fl[i].size < nunits
  {
    forall i | 0 <= i < |fl| ensures fl[i].size < nunits {
      assert fl[i] == Nodes(fl)[i + 1];
    }
  }

  lemma NodeIsBlock(fl: seq<Blk>, q: nat, nunits: nat)
    requires q <= |fl| && nunits > 0 && Nodes(fl)[NextI(|fl|, q)].size >= nunits
    ensures q < |fl| && fl[q] == Nodes(fl)[NextI(|fl|, q)]
  {
  }

  // ------------------------------------------------------------ sizes in units

  /** Header units for `nbytes` bytes: the payload rounded up, and one for the header. */
  function Units(nbytes: nat): (n: nat)
    ensures n > 0 && (n - 1) * HEADER >= nbytes && (n - 2) * HEADER < nbytes
  {
    (nbytes + HEADER - 1) / HEADER + 1
  }

  function MoreUnits(nu: nat): (n: nat)
    ensures n >= nu
  {
    if nu < 4096 then 4096 else nu
  }

  /** The increment that reaches sbrk, whose parameter is a signed 32-bit integer. */
  function SbrkArgument(nu: nat): (n: int) {
    var low := nu * HEADER % 0x1_0000_0000;
    if low >= 0x8000_0000 then low - 0x1_0000_0000 else low
  }

  const LARGEST: nat := 0x7fff_ffe0

  /** No free block has `n` units. */
  predicate NoneFits(fl: seq<Blk>, n: nat) {
    forall i :: 0 <= i < |fl| ==> fl[i].size < n
  }

  /**
   The request sbrk sees is the one morecore meant exactly up to LARGEST bytes; any larger one arrives negative
   or too small.
   */
  lemma SbrkRequestExactIff(nbytes: nat)
    requires nbytes < 0x1_0000_0000
    ensures SbrkArgument(MoreUnits(Units(nbytes))) == MoreUnits(Units(nbytes)) * HEADER <==> nbytes <= LARGEST
  {
    var u := Units(nbytes);
    assert u <= 0x800_0000 - 1 <==> nbytes <= LARGEST;
  }

  class Heap {
    var hdr: map<nat, Header>
    var freep: nat
    var started: bool          // freep is not the null pointer
    ghost var fl: seq<Blk>     // the free blocks in address order
    ghost var fi: nat          // freep is node fi of the list
    ghost var live: seq<Blk>   // blocks handed out
    ghost var granted: nat     // units obtained from sbrk
    var limit: nat             // end of the memory obtained

    ghost predicate Listed()
      reads this
    {
      Links(hdr, fl) && fi <= |fl| && freep == Nodes(fl)[fi].addr
    }

    ghost predicate Valid()
      reads this
    {
      && HeapOk(hdr, fl, live, granted, limit)
      && (if started then Listed() else fl == [] && live == [])
    }

    constructor ()
      ensures Valid() && live == [] && granted == 0
    {
      hdr, freep, started := map[], 0, false;
      fl, fi, live, granted, limit := [], 0, [], 0, 1;
    }

    /** The body of free(): find the place of the block by walking from freep, then link it in. */
    method LinkIn(bp: nat, ghost b: Blk) returns (ghost t: nat)
      requires Listed() && Wf(fl) && b.addr == bp > 0 && b.size > 0 && bp in hdr && hdr[bp].size == b.size
      requires DisjointFrom(fl, b)
      modifies this`hdr, this`freep, this`fl, this`fi
      ensures Place(old(fl), b, t) && fl == Insert(old(fl), b, t) && Listed()
      ensures forall a :: a in old(hdr) && a != bp && a != Nodes(old(fl))[t].addr ==> a in hdr && hdr[a] == old(hdr)[a]
    {
      hide Links, Wf, Place, DisjointFrom, Insert, UpHeader, DownHeader;
      t := PlaceExists(fl, b);
      var p := freep;
      ghost var i: nat := fi;
      NodeAt(hdr, fl, i);
      while !(bp > p && bp < hdr[p].ptr)
        invariant i <= |fl| && p == Nodes(fl)[i].addr && p in hdr && hdr == old(hdr) && fl == old(fl)
        invariant hdr[p].ptr == Nodes(fl)[NextI(|fl|, i)].addr
        decreases Dist(|fl|, i, t)
      {
        SearchTest(fl, b, t, i);
        if p >= hdr[p].ptr && (bp > p || bp < hdr[p].ptr) {
          break;
        }
        p := hdr[p].ptr;
        i := NextI(|fl|, i);
        NodeAt(hdr, fl, i);
      }
      SearchTest(fl, b, t, i);
      SplicedLinks(hdr, fl, b, t);
      hdr := hdr[bp := UpHeader(hdr, bp, hdr[p].ptr)];
      hdr := hdr[p := DownHeader(hdr, p, bp)];
      freep := p;
      fl := Insert(fl, b, t);
      fi := t;
    }

    /** free(): give back the live block whose header is at ap - 1. */
    method Free(ap: nat, ghost k: nat)
      requires Valid() && k < |live| && ap == live[k].addr + 1
      modifies this
      ensures Valid() && started && granted == old(granted)
      ensures live == RemoveAt(old(live), k)
      ensures exists t :: Place(old(fl), old(live)[k], t) && fl == Insert(old(fl), old(live)[k], t)
    {
      hide Links, Sum, Insert;
      ghost var b, rest := live[k], RemoveAt(live, k);
      RemovedOk(hdr, fl, live, granted, limit, k);
      ghost var hdr0, fl0 := hdr, fl;
      ghost var t := LinkIn(ap - 1, b);
      ReleasedOk(hdr0, fl0, rest, granted - b.size, limit, b, t, hdr);
      live := rest;
    }

    /** morecore(): obtain at least `nu` units from sbrk, which may fail, and free() them. */
    method MoreCore(nu: nat, sbrkWorks: bool, gap: nat) returns (p: int, ghost g: nat)
      requires Valid() && started && nu > 0
      modifies this
      ensures Valid() && started && live == old(live)
      ensures p == -1 <==> !sbrkWorks
      ensures p == -1 ==>
                hdr == old(hdr) && fl == old(fl) && fi == old(fi) && freep == old(freep) && granted == old(granted)
      ensures p != -1 ==> p == freep && granted == old(granted) + (if nu < 4096 then 4096 else nu)
      ensures p != -1 ==> g <= |fl| && Nodes(fl)[g].size >= nu
    {
      hide Links, Sum, Insert, Nodes;
      g := 0;
      var n := nu;
      if n < 4096 {
        n := 4096;
      }
      if !sbrkWorks {
        return -1, 0;
      }
      var hp := limit + gap;
      ghost var b := Blk(hp, n);
      FreshOk(hdr, fl, live, granted, limit, b);
      FreshLinks(hdr, fl, limit, b, Header(0, n));
      hdr := hdr[hp := Header(0, n)];
      limit := hp + n;
      ghost var hdr1, fl1 := hdr, fl;
      ghost var t := LinkIn(hp, b);
      ReleasedOk(hdr1, fl1, live, granted, limit, b, t, hdr);
      granted := granted + n;
      g := InsertBig(fl1, b, t);
      return freep, g;
    }

    /** The part of malloc() that takes `n` units from node q + 1. */
    method TakeFrom(prevp: nat, p: nat, n: nat, ghost q: nat) returns (r: nat)
      requires Valid() && started && q < |fl| && 0 < n <= fl[q].size && prevp == Nodes(fl)[q].addr && p == fl[q].addr
      modifies this`hdr, this`freep, this`fl, this`fi, this`live
      ensures Valid() && fl == Take(old(fl), q, n) && live == old(live) + [Taken(old(fl), q, n)]
      ensures r == Taken(old(fl), q, n).addr + 1
    {
      hide Links, Sum;
      NodeAt(hdr, fl, q);
      NodeAt(hdr, fl, q + 1);
      ghost var hdr0, b := hdr, Taken(fl, q, n);
      if hdr[p].size == n {
        UnlinkLinks(hdr, fl, q);
        SameNode(fl, q, q + 1);
        hdr := hdr[prevp := Header(hdr[p].ptr, hdr[prevp].size)];
        r := p;
      } else {
        r := p + hdr[p].size - n;
        ghost var h := Header(if r in hdr then hdr[r].ptr else 0, n);
        CutLinks(hdr, fl, q, n, h);
        hdr := hdr[p := Header(hdr[p].ptr, hdr[p].size - n)];
        hdr := hdr[r := Header(if r in hdr then hdr[r].ptr else 0, n)];
      }
      TakenOk(hdr0, fl, live, granted, limit, q, n, hdr);
      freep := prevp;
      fi := q;
      live := live + [b];
      fl := Take(fl, q, n);
      r := r + 1;
    }

    /**
     malloc(): first fit from freep on, asking for more memory after a full turn. A request
     for which sbrk would be asked for something else than is meant, because its argument is
     a signed 32-bit integer, is `misled`; the model stops there with the heap unchanged.
     */
    method Malloc(nbytes: nat, sbrkWorks: bool, gap: nat) returns (r: int, ghost tried: bool, misled: bool)
      requires Valid() && nbytes < 0x1_0000_0000
      modifies this
      ensures Valid()
      ensures misled <==> nbytes > LARGEST && sbrkWorks && NoneFits(old(fl), Units(nbytes))
      ensures r == -1 ==> live == old(live) && granted == old(granted) && fl == old(fl)
      ensures r == -1 <==> NoneFits(old(fl), Units(nbytes)) && (misled || !sbrkWorks)
      ensures r != -1 ==> |live| == |old(live)| + 1 && live[..|old(live)|] == old(live)
      ensures r != -1 ==> live[|old(live)|].addr + 1 == r && live[|old(live)|].size == Units(nbytes)
      ensures granted == if r != -1 && tried then old(granted) + MoreUnits(Units(nbytes)) else old(granted)
      ensures tried <==> NoneFits(old(fl), Units(nbytes))
    {
      hide Links, Wf, Sum, Insert, Nodes, HeapOk, Take, Seen, Dist;
      var nunits := Units(nbytes);
      if !started {
        started, freep := true, 0;
        BaseAlone(hdr, fl, live, granted, limit);
        hdr := hdr[0 := Header(0, 0)];
        fi := 0;
      }
      tried, misled := false, false;
      var prevp := freep;
      ghost var q: nat, g: nat := fi, 0;
      NodeAt(hdr, fl, q);
      SeenNone(fl, fi, nunits);
      var p := hdr[prevp].ptr;
      while true
        invariant Valid() && started && live == old(live) && !misled
        invariant tried ==> nbytes <= LARGEST && NoneFits(old(fl), nunits)
        invariant granted == if tried then old(granted) + MoreUnits(nunits) else old(granted)
        invariant q <= |fl| && prevp == Nodes(fl)[q].addr && p == Nodes(fl)[NextI(|fl|, q)].addr
        invariant g <= |fl|
        invariant tried ==>
                    sbrkWorks && Nodes(fl)[g].size >= nunits && Dist(|fl|, g, fi) <= Dist(|fl|, NextI(|fl|, q), fi)
        invariant !tried ==> fl == old(fl) && Seen(fl, fi, q, nunits)
        decreases if tried then 0 else 1, Dist(|fl|, NextI(|fl|, q), fi)
      {
        ghost var x := NextI(|fl|, q);
        NodeAt(hdr, fl, x);
        NodeAt(hdr, fl, q);
        if hdr[p].size >= nunits {
          NodeIsBlock(fl, q, nunits);
          if !tried { assert !NoneFits(fl, nunits) by { assert fl[q].size >= nunits; } }
          r := TakeFrom(prevp, p, nunits, q);
          return;
        }
        HeapWf(hdr, fl, live, granted, limit);
        SameNode(fl, x, fi);
        DistStep(|fl|, x, fi, g);
        if p == freep {
          assert !tried;
          AllSeen(fl, fi, q, nunits);
          tried := true;
          SbrkRequestExactIff(nbytes);
          if sbrkWorks && SbrkArgument(MoreUnits(nunits)) != MoreUnits(nunits) * HEADER {
            r, misled := -1, true;
            return;
          }
          var m;
          m, g := MoreCore(nunits, sbrkWorks, gap);
          if m == -1 {
            r := -1;
            return;
          }
          p := m;
          q := fi;
          NodeAt(hdr, fl, q);
          DistStep(|fl|, q, fi, g);
        } else {
          if !tried { SeenMore(fl, fi, q, nunits); }
          q := x;
        }
        prevp := p;
        p := hdr[p].ptr;
      }
      r := -1;
    }
  }
}
