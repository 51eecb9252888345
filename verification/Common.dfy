/** Constants of kernel/param.h that several parts share. */
module Params {
  const MAXOPBLOCKS: nat := 10
  const LOGSIZE: nat := MAXOPBLOCKS * 3
}

/** Facts about finite collections. */
module Collections {
  ghost predicate Distinct(s: seq<nat>) {
    forall i, j :: 0 <= i < j < |s| ==> s[i] != s[j]
  }

  function Elems(s: seq<nat>): (r: set<nat>) {
    set x | x in s
  }

  lemma ElemsJoin(a: seq<nat>, b: seq<nat>)
    ensures Elems(a + b) == Elems(a) + Elems(b)
  {
  }

  /** What a map of block contents says about block `k`, nothing if it has none. */
  function Lookup<K(==), C>(m: map<K, seq<C>>, k: K): (c: seq<C>) {
    if k in m then m[k] else []
  }

  lemma UnionSize<T>(a: set<T>, b: set<T>)
    ensures |a + b| <= |a| + |b|
  {
    assert a + b == a + (b - a);
    assert b == (b - a) + (b * a);
  }

  lemma SubsetSize<T>(a: set<T>, b: set<T>)
    requires a <= b
    ensures |a| <= |b|
  {
    assert b == a + (b - a);
  }
}

/** Slots of a ring buffer that is indexed by a counter. */
module Rings {
  lemma Times(n: nat, p: int, q: int)
    ensures p < q ==> n * p + n <= n * q
  {
    if p < q {
      var e := q - p - 1;
      assert 0 <= n * e;
      assert n * (p + 1 + e) == n * p + n + n * e;
    }
  }

  lemma Unique(n: nat, q: int, r: nat, q': int, r': nat)
    requires r < n && r' < n && n * q + r == n * q' + r'
    ensures q == q' && r == r'
  {
    Times(n, q, q');
    Times(n, q', q);
  }

  /** Counters less than a ring apart use different slots. */
  lemma SlotsDiffer(a: nat, b: nat, n: nat)
    requires a < b < a + n
    ensures a % n != b % n
  {
    var q, p := a / n, b / n;
    assert a == n * q + a % n && b == n * p + b % n;
    if p != q {
      Times(n, q, p);
      Times(n, p, q);
    }
  }

  /** A counter that wraps at a multiple of the ring's size still picks the right slot. */
  lemma WrapSlot(k: nat, n: nat, f: nat)
    requires n > 0 && n * f > 0
    ensures k % (n * f) % n == k % n
  {
    var w := n * f;
    var q, r := k / w, k % w;
    var m := r / n;
    assert k == w * q + r;
    assert r == n * m + r % n;
    assert w * q == n * (f * q);
    assert k == n * (f * q + m) + r % n;
    Unique(n, f * q + m, r % n, k / n, k % n);
  }
}
