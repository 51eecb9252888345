/**
 Three-level page tables as values: what a tree of unshared table pages is, the flat map
 from page number to entry that it stands for, and how single entry writes change it.
 */
module PageTable {
  import opened Sv39

  /** A page in use: 512 page-table entries, or plain bytes. */
  datatype Page = Table(e: seq<nat>) | Data(bytes: seq<nat>)

  /** The pages in use, by physical page number. */
  type Mem = map<nat, Page>

  /** The place of a table page in the tree, as the indices that lead to it. */
  datatype Path = Root | Mid(i: nat) | Low(i: nat, j: nat)

  function Sub(p: Path, i: nat): (r: Path)
    requires !p.Low?
  {
    if p.Root? then Mid(i) else Low(p.i, i)
  }

  /** An address space: its root table and the place of every table page. */
  datatype Space = Space(root: nat, pos: map<nat, Path>)

  ghost predicate IsTable(m: Mem, t: nat) {
    t in m && m[t].Table? && |m[t].e| == 512
  }

  /** Valid entries of inner tables lead to the table that belongs there. */
  ghost predicate Down(m: Mem, sp: Space) {
    forall t, i :: t in sp.pos && !sp.pos[t].Low? && IsTable(m, t) && 0 <= i < 512 && V(m[t].e[i]) ==>
                     ChildOk(sp, t, i, m[t].e[i])
  }

  ghost predicate ChildOk(sp: Space, t: nat, i: nat, pte: nat)
    requires t in sp.pos && !sp.pos[t].Low?
  {
    Interior(pte) && Ppn(pte) in sp.pos && sp.pos[Ppn(pte)] == Sub(sp.pos[t], i)
  }

  /** Entry `i` of table `t` is valid and leads to `c`. */
  ghost predicate Leads(m: Mem, t: nat, i: nat, c: nat) {
    IsTable(m, t) && i < 512 && V(m[t].e[i]) && Ppn(m[t].e[i]) == c
  }

  /** Every table page is where its path says. */
  ghost predicate Up(m: Mem, sp: Space) {
    forall t :: t in sp.pos ==> Reached(m, sp, t)
  }

  ghost predicate Reached(m: Mem, sp: Space, t: nat)
    requires t in sp.pos
  {
    match sp.pos[t]
    case Root => t == sp.root
    case Mid(i) => i < 256 && Leads(m, sp.root, i, t)
    case Low(i, j) => exists p :: p in sp.pos && sp.pos[p] == Mid(i) && Leads(m, p, j, t)
  }

  /** A tree of unshared table pages. */
  ghost predicate WF(m: Mem, sp: Space) {
    && sp.root in sp.pos && sp.pos[sp.root] == Root
    && (forall t :: t in sp.pos ==> IsTable(m, t))
    && Down(m, sp)
    && Up(m, sp)
  }

  /** The leaf entry for page number `v`, 0 when a table on the way is missing. */
  ghost function Pte(m: Mem, sp: Space, v: nat): (pte: nat)
    requires WF(m, sp) && v < PAGES
  {
    var e2 := m[sp.root].e[I2(v)];
    if !V(e2) then 0 else
      assert ChildOk(sp, sp.root, I2(v), e2);
      var e1 := m[Ppn(e2)].e[I1(v)];
      if !V(e1) then 0 else
        assert ChildOk(sp, Ppn(e2), I1(v), e1);
        m[Ppn(e1)].e[I0(v)]
  }

  /** The flat map that the tree stands for: page number to valid leaf entry. */
  ghost function Flat(m: Mem, sp: Space): (f: map<nat, nat>)
    requires WF(m, sp)
  {
    map v | 0 <= v < PAGES && V(Pte(m, sp, v)) :: Pte(m, sp, v)
  }

  function SetEntry(m: Mem, t: nat, i: nat, x: nat): (r: Mem)
    requires t in m && m[t].Table? && i < |m[t].e|
  {
    m[t := Table(m[t].e[i := x])]
  }

  function ZeroTable(): (p: Page) {
    Table(seq(512, _ => 0))
  }

  // ------------------------------------------------------------ unshared tables

  /** No two table pages have the same place. */
  lemma PlacesDiffer(m: Mem, sp: Space, t: nat, t': nat)
    requires WF(m, sp) && t in sp.pos && t' in sp.pos && sp.pos[t] == sp.pos[t']
    ensures t == t'
  {
    assert Reached(m, sp, t) && Reached(m, sp, t');
    match sp.pos[t]
    case Root =>
    case Mid(i) =>
    case Low(i, j) =>
      var p :| p in sp.pos && sp.pos[p] == Mid(i) && Leads(m, p, j, t);
      var p' :| p' in sp.pos && sp.pos[p'] == Mid(i) && Leads(m, p', j, t');
      assert Reached(m, sp, p) && Reached(m, sp, p');
  }

  /** The leaf table at place Low(i, j) holds the entries of the page numbers under (i, j). */
  lemma PteInLow(m: Mem, sp: Space, t: nat, k: nat)
    requires WF(m, sp) && t in sp.pos && sp.pos[t].Low? && k < 512
    ensures Vpn(sp.pos[t].i, sp.pos[t].j, k) < PAGES
    ensures Pte(m, sp, Vpn(sp.pos[t].i, sp.pos[t].j, k)) == m[t].e[k]
  {
    var Low(i, j) := sp.pos[t];
    assert Reached(m, sp, t);
    var p :| p in sp.pos && sp.pos[p] == Mid(i) && Leads(m, p, j, t);
    assert Reached(m, sp, p);
    JoinVpn(i, j, k);
  }

  // -------------------------------------------------------------- writing a leaf

  lemma SetLeafWF(m: Mem, sp: Space, t: nat, k: nat, x: nat)
    requires WF(m, sp) && t in sp.pos && sp.pos[t].Low? && k < 512
    ensures WF(SetEntry(m, t, k, x), sp)
  {
    var m' := SetEntry(m, t, k, x);
    forall c | c in sp.pos ensures Reached(m', sp, c) {
      assert Reached(m, sp, c);
      if sp.pos[c].Low? {
        var p :| p in sp.pos && sp.pos[p] == Mid(sp.pos[c].i) && Leads(m, p, sp.pos[c].j, c);
        assert Leads(m', p, sp.pos[c].j, c);
      }
    }
  }

  /** Writing one leaf entry changes the flat map at one page number only. */
  lemma SetLeafPte(m: Mem, sp: Space, t: nat, k: nat, x: nat, v: nat)
    requires WF(m, sp) && t in sp.pos && sp.pos[t].Low? && k < 512 && v < PAGES
    requires WF(SetEntry(m, t, k, x), sp)
    ensures Pte(SetEntry(m, t, k, x), sp, v) ==
              if v == Vpn(sp.pos[t].i, sp.pos[t].j, k) then x else Pte(m, sp, v)
  {
    var m' := SetEntry(m, t, k, x);
    SplitVpn(v);
    if v == Vpn(sp.pos[t].i, sp.pos[t].j, k) {
      PteInLow(m', sp, t, k);
    } else {
      assert I2(v) != sp.pos[t].i || I1(v) != sp.pos[t].j || I0(v) != k;
      var e2 := m[sp.root].e[I2(v)];
      if V(e2) {
        assert ChildOk(sp, sp.root, I2(v), e2);
        var e1 := m[Ppn(e2)].e[I1(v)];
        if V(e1) {
          assert ChildOk(sp, Ppn(e2), I1(v), e1);
        }
      }
    }
  }

  // -------------------------------------------------------- adding a table page

  /** Hang a zeroed table page `c` under entry `i` of the inner table `t`. */
  function Graft(m: Mem, t: nat, i: nat, c: nat): (r: Mem)
    requires t in m && m[t].Table? && i < |m[t].e|
  {
    SetEntry(m, t, i, Pack(c, PTE_V))[c := ZeroTable()]
  }

  function Grown(sp: Space, t: nat, i: nat, c: nat): (r: Space)
    requires t in sp.pos && !sp.pos[t].Low?
  {
    sp.(pos := sp.pos[c := Sub(sp.pos[t], i)])
  }

  lemma GraftEntry(c: nat)
    ensures V(Pack(c, PTE_V)) && Interior(Pack(c, PTE_V)) && Ppn(Pack(c, PTE_V)) == c
  {
    hide V, Interior, Ppn, Pack;
    PackRoundTrip(c, PTE_V);
  }

  lemma ZeroInvalid()
    ensures !V(0)
  {
  }

  lemma GraftWF(m: Mem, sp: Space, t: nat, i: nat, c: nat)
    requires WF(m, sp) && t in sp.pos && !sp.pos[t].Low? && i < 512 && !V(m[t].e[i]) && c !in sp.pos
    requires sp.pos[t].Root? ==> i < 256
    ensures WF(Graft(m, t, i, c), Grown(sp, t, i, c))
  {
    hide V, Interior, Ppn, Pack, Reached;
    var m', sp' := Graft(m, t, i, c), Grown(sp, t, i, c);
    GraftEntry(c);
    ZeroInvalid();
    forall s | s in sp'.pos ensures Reached(m', sp', s) {
      GraftReached(m, sp, t, i, c, s);
    }
    forall s, k | s in sp'.pos && !sp'.pos[s].Low? && 0 <= k < 512 && V(m'[s].e[k])
      ensures ChildOk(sp', s, k, m'[s].e[k])
    {
      if s != c && !(s == t && k == i) {
        assert ChildOk(sp, s, k, m[s].e[k]);
      }
    }
  }

  lemma GraftReached(m: Mem, sp: Space, t: nat, i: nat, c: nat, s: nat)
    requires WF(m, sp) && t in sp.pos && !sp.pos[t].Low? && i < 512 && !V(m[t].e[i]) && c !in sp.pos
    requires (s in sp.pos || s == c)
    requires sp.pos[t].Root? ==> i < 256
    ensures Reached(Graft(m, t, i, c), Grown(sp, t, i, c), s)
  {
    hide V, Interior, Ppn, Pack, ChildOk;
    var m', sp' := Graft(m, t, i, c), Grown(sp, t, i, c);
    GraftEntry(c);
    ZeroInvalid();
    assert Leads(m', t, i, c);
    if s == c {
      assert Reached(m, sp, t);
    } else {
      assert Reached(m, sp, s);
      if sp.pos[s].Low? {
        var p :| p in sp.pos && sp.pos[p] == Mid(sp.pos[s].i) && Leads(m, p, sp.pos[s].j, s);
        assert p in sp'.pos && Leads(m', p, sp.pos[s].j, s);
      }
    }
  }

  /** A fresh table page leaves the flat map as it was. */
  lemma GraftPte(m: Mem, sp: Space, t: nat, i: nat, c: nat, v: nat)
    requires WF(m, sp) && t in sp.pos && !sp.pos[t].Low? && i < 512 && !V(m[t].e[i]) && c !in sp.pos
    requires sp.pos[t].Root? ==> i < 256
    requires WF(Graft(m, t, i, c), Grown(sp, t, i, c)) && v < PAGES
    ensures Pte(Graft(m, t, i, c), Grown(sp, t, i, c), v) == Pte(m, sp, v)
  {
    hide V, Interior, Ppn, Pack;
    var m', sp' := Graft(m, t, i, c), Grown(sp, t, i, c);
    GraftEntry(c);
    ZeroInvalid();
    var e2 := m[sp.root].e[I2(v)];
    if V(e2) {
      assert ChildOk(sp, sp.root, I2(v), e2);
      var e1 := m[Ppn(e2)].e[I1(v)];
      if V(e1) {
        assert ChildOk(sp, Ppn(e2), I1(v), e1);
      }
    }
  }

  // ---------------------------------------------------------------- flat maps

  lemma FlatSame(m: Mem, sp: Space, m': Mem, sp': Space)
    requires WF(m, sp) && WF(m', sp')
    requires forall v :: 0 <= v < PAGES ==> Pte(m', sp', v) == Pte(m, sp, v)
    ensures Flat(m', sp') == Flat(m, sp)
  {
  }

  lemma FlatSet(m: Mem, m': Mem, sp: Space, w: nat, x: nat)
    requires WF(m, sp) && WF(m', sp) && w < PAGES
    requires forall v :: 0 <= v < PAGES ==> Pte(m', sp, v) == if v == w then x else Pte(m, sp, v)
    ensures Flat(m', sp) == if V(x) then Flat(m, sp)[w := x] else Flat(m, sp) - {w}
  {
    hide V, WF, Pte;
  }

  /** What SetLeafPte says, for the flat map. */
  lemma SetLeafFlat(m: Mem, sp: Space, t: nat, k: nat, x: nat)
    requires WF(m, sp) && t in sp.pos && sp.pos[t].Low? && k < 512
    ensures WF(SetEntry(m, t, k, x), sp)
    ensures Flat(SetEntry(m, t, k, x), sp) ==
              var v := Vpn(sp.pos[t].i, sp.pos[t].j, k);
              if V(x) then Flat(m, sp)[v := x] else Flat(m, sp) - {v}
  {
    hide V, Pte, Flat, Down, Up, Vpn;
    var m', w := SetEntry(m, t, k, x), Vpn(sp.pos[t].i, sp.pos[t].j, k);
    SetLeafWF(m, sp, t, k, x);
    PteInLow(m, sp, t, k);
    forall v | 0 <= v < PAGES
      ensures Pte(m', sp, v) == if v == w then x else Pte(m, sp, v)
    {
      SetLeafPte(m, sp, t, k, x, v);
    }
    FlatSet(m, m', sp, w, x);
  }

  lemma GraftFlat(m: Mem, sp: Space, t: nat, i: nat, c: nat)
    requires WF(m, sp) && t in sp.pos && !sp.pos[t].Low? && i < 512 && !V(m[t].e[i]) && c !in sp.pos
    requires sp.pos[t].Root? ==> i < 256
    ensures WF(Graft(m, t, i, c), Grown(sp, t, i, c))
    ensures Flat(Graft(m, t, i, c), Grown(sp, t, i, c)) == Flat(m, sp)
  {
    GraftWF(m, sp, t, i, c);
    forall v | 0 <= v < PAGES
      ensures Pte(Graft(m, t, i, c), Grown(sp, t, i, c), v) == Pte(m, sp, v)
    {
      GraftPte(m, sp, t, i, c, v);
    }
    FlatSame(m, sp, Graft(m, t, i, c), Grown(sp, t, i, c));
  }

  /** An address space depends on its own table pages only. */
  lemma FrameSpace(m: Mem, m': Mem, sp: Space)
    requires WF(m, sp)
    requires forall t :: t in sp.pos ==> t in m' && m'[t] == m[t]
    ensures WF(m', sp) && Flat(m', sp) == Flat(m, sp)
  {
    forall t | t in sp.pos ensures Reached(m', sp, t) {
      assert Reached(m, sp, t);
      if sp.pos[t].Low? {
        var p :| p in sp.pos && sp.pos[p] == Mid(sp.pos[t].i) && Leads(m, p, sp.pos[t].j, t);
        assert Leads(m', p, sp.pos[t].j, t);
      }
    }
    forall v | 0 <= v < PAGES ensures Pte(m', sp, v) == Pte(m, sp, v) {
      var e2 := m[sp.root].e[I2(v)];
      if V(e2) {
        assert ChildOk(sp, sp.root, I2(v), e2);
        var e1 := m[Ppn(e2)].e[I1(v)];
        if V(e1) {
          assert ChildOk(sp, Ppn(e2), I1(v), e1);
        }
      }
    }
    FlatSame(m, sp, m', sp);
  }
}
