/**
 * The circular doubly linked list of the buffer cache (kernel/bio.c) as an order of
 * its buffers.
 */
module LruList {
  import opened Collections

  /** The node after position i of a circular list of nodes. */
  function After(ring: seq<nat>, i: nat): (x: nat)
    requires i < |ring|
  {
    if i + 1 < |ring| then ring[i + 1] else ring[0]
  }

  /** Node n is the list head; next and prev go round the head and `order`, both ways. */
  ghost predicate ListOk(next: seq<nat>, prev: seq<nat>, order: seq<nat>, n: nat) {
    && |next| == |prev| == n + 1
    && Distinct(order) && (forall i :: 0 <= i < |order| ==> order[i] < n)
    && Links(next, prev, [n] + order)
  }

  ghost predicate Links(next: seq<nat>, prev: seq<nat>, ring: seq<nat>) {
    forall i :: 0 <= i < |ring| ==>
      ring[i] < |next| && After(ring, i) < |prev| && next[ring[i]] == After(ring, i) && prev[After(ring, i)] == ring[i]
  }

  function Without(order: seq<nat>, k: nat): (r: seq<nat>)
    requires k < |order|
    ensures |r| == |order| - 1
  {
    order[..k] + order[k + 1..]
  }

  lemma RingDistinct(order: seq<nat>, n: nat)
    requires Distinct(order) && forall i :: 0 <= i < |order| ==> order[i] < n
    ensures Distinct([n] + order)
  {
  }

  lemma WithoutOk(order: seq<nat>, n: nat, k: nat)
    requires Distinct(order) && (forall i :: 0 <= i < |order| ==> order[i] < n) && k < |order|
    ensures Distinct(Without(order, k)) && forall i :: 0 <= i < |order| - 1 ==> Without(order, k)[i] < n
    ensures [n] + Without(order, k) == ([n] + order)[..k + 1] + ([n] + order)[k + 2..]
  {
  }

  lemma WithoutMembers(order: seq<nat>, k: nat)
    requires Distinct(order) && k < |order|
    ensures forall x :: x in Without(order, k) <==> x in order && x != order[k]
  {
    var r := Without(order, k);
    forall x | x in order && x != order[k] ensures x in r {
      var i :| 0 <= i < |order| && order[i] == x;
      assert r[if i < k then i else i - 1] == x;
    }
    forall x | x in r ensures x in order && x != order[k] {
      var i :| 0 <= i < |r| && r[i] == x;
      assert order[if i < k then i else i + 1] == x;
    }
  }

  lemma UnlinkRing(next: seq<nat>, prev: seq<nat>, ring: seq<nat>, k: nat)
    requires |next| == |prev| && Links(next, prev, ring) && Distinct(ring) && 0 < k < |ring|
    ensures ring[k] < |next| && next[ring[k]] < |prev| && prev[ring[k]] < |next|
    ensures var b := ring[k]; Links(next[prev[b] := next[b]], prev[next[b] := prev[b]], ring[..k] + ring[k + 1..])
  {
    assert After(ring, k - 1) == ring[k] && After(ring, k) == next[ring[k]];
    var b, ring' := ring[k], ring[..k] + ring[k + 1..];
    var next', prev' := next[prev[b] := next[b]], prev[next[b] := prev[b]];
    forall i | 0 <= i < |ring'|
      ensures ring'[i] < |next'| && After(ring', i) < |prev'| && next'[ring'[i]] == After(ring', i)
      ensures prev'[After(ring', i)] == ring'[i]
    {
      UnlinkAt(next, prev, ring, k, i);
    }
  }

  /** A buffer leaves the list when its two neighbours are linked to each other. */
  lemma Unlink(next: seq<nat>, prev: seq<nat>, order: seq<nat>, n: nat, k: nat)
    requires ListOk(next, prev, order, n) && k < |order|
    ensures var b := order[k];
      && b < n && next[b] < |prev| && prev[b] < |next|
      && ListOk(next[prev[b] := next[b]], prev[next[b] := prev[b]], Without(order, k), n)
  {
    hide Links, Distinct, Without;
    RingDistinct(order, n);
    WithoutOk(order, n, k);
    assert ([n] + order)[k + 1] == order[k];
    UnlinkRing(next, prev, [n] + order, k + 1);
  }

  lemma UnlinkAt(next: seq<nat>, prev: seq<nat>, ring: seq<nat>, k: nat, i: nat)
    requires |next| == |prev| && Links(next, prev, ring) && Distinct(ring) && 0 < k < |ring| && i < |ring| - 1
        && ring[k] < |prev| && next[ring[k]] < |prev| && prev[ring[k]] < |next|
    ensures var b, ring' := ring[k], ring[..k] + ring[k + 1..];
      var next', prev' := next[prev[b] := next[b]], prev[next[b] := prev[b]];
      && ring'[i] < |next'| && After(ring', i) < |prev'| && next'[ring'[i]] == After(ring', i)
      && prev'[After(ring', i)] == ring'[i]
  {
    var j := if i < k then i else i + 1; // where ring'[i] stood
    assert ring[j] != ring[k] && (j != k - 1 ==> ring[j] != ring[k - 1]);
    assert next[ring[j]] == After(ring, j) && prev[After(ring, j)] == ring[j];
    assert next[ring[k - 1]] == After(ring, k - 1) && prev[After(ring, k - 1)] == ring[k - 1];
    assert next[ring[k]] == After(ring, k) && prev[After(ring, k)] == ring[k];
  }

  /** A buffer that is linked between the head and its successor becomes the most recently used one. */
  lemma LinkFront(next: seq<nat>, prev: seq<nat>, order: seq<nat>, n: nat, b: nat)
    requires ListOk(next, prev, order, n) && b < n && b !in order
    ensures next[n] < |prev| && ListOk(next[b := next[n]][n := b], prev[b := n][next[n] := b], [b] + order, n)
  {
    var ring, ring' := [n] + order, [n] + ([b] + order);
    RingDistinct(order, n);
    var f := After(ring, 0);
    assert ring[0] == n && next[n] == f && prev[f] == n;
    var next', prev' := next[b := next[n]][n := b], prev[b := n][next[n] := b];
    assert Distinct([b] + order);
    forall i | 0 <= i < |ring'|
      ensures ring'[i] < |next'| && After(ring', i) < |prev'| && next'[ring'[i]] == After(ring', i)
      ensures prev'[After(ring', i)] == ring'[i]
    {
      if i >= 2 {
        assert ring'[i] == ring[i - 1] && After(ring', i) == After(ring, i - 1);
        assert ring[i - 1] == order[i - 2];
        FrontStays(ring, i - 1);
      }
    }
  }

  /** Only the head's successor follows the head. */
  lemma FrontStays(ring: seq<nat>, i: nat)
    requires Distinct(ring) && 0 < i < |ring|
    ensures After(ring, i) != After(ring, 0)
  {
  }

  /** Walking forward or backward from position i of the list. */
  lemma Neighbours(next: seq<nat>, prev: seq<nat>, order: seq<nat>, n: nat, i: nat)
    requires ListOk(next, prev, order, n) && i < |order|
    ensures order[i] < n
    ensures next[order[i]] == if i + 1 < |order| then order[i + 1] else n
    ensures prev[order[i]] == if i > 0 then order[i - 1] else n
  {
    var ring := [n] + order;
    assert ring[i + 1] == order[i];
    assert After(ring, i) == ring[i + 1] && next[ring[i]] == After(ring, i) && prev[After(ring, i)] == ring[i];
    assert next[ring[i + 1]] == After(ring, i + 1);
  }

  lemma Ends(next: seq<nat>, prev: seq<nat>, order: seq<nat>, n: nat)
    requires ListOk(next, prev, order, n)
    ensures next[n] == if order == [] then n else order[0]
    ensures prev[n] == if order == [] then n else order[|order| - 1]
  {
    var ring := [n] + order;
    assert next[ring[0]] == After(ring, 0);
    assert prev[After(ring, |order|)] == ring[|order|];
  }
}

/** The protocol of the buffer cache: references, pins, and agreement with the disk. */
module BioSpec {
  import opened Collections

  type Content = seq<bv8>
  datatype Key = Key(dev: nat, blockno: nat)
  datatype Buf = Buf(key: Key, valid: bool, refcnt: nat, data: Content)

  /** A call of bget, until its brelse is over: waiting for the buffer's lock, holding it, or past releasesleep. */
  datatype Stage = Waits | Holds | Leaves
  datatype Ref = Ref(b: nat, stage: Stage)
  type Refs = map<nat, Ref>

  function Users(refs: Refs, b: nat): (s: set<nat>) {
    set h | h in refs && refs[h].b == b
  }

  ghost predicate Held(refs: Refs, b: nat) {
    exists h :: h in refs && refs[h] == Ref(b, Holds)
  }

  /**
   Buffers, references to them, pins, the blocks that a buffer holds newer than the disk
   (`stale` names the buffer), the disk, and what each block is meant to contain.
   */
  datatype State = State(bufs: seq<Buf>, refs: Refs, pins: seq<nat>, stale: map<Key, nat>, disk: map<Key, Content>,
    logical: map<Key, Content>)

  predicate Dirty(s: State, b: nat)
    requires b < |s.bufs|
  {
    s.bufs[b].key in s.stale && s.stale[s.bufs[b].key] == b
  }

  /** refcnt counts holders, waiters and pins. */
  ghost predicate CountsOk(s: State) {
    && |s.pins| == |s.bufs|
    && (forall h :: h in s.refs ==> s.refs[h].b < |s.bufs|)
    && (forall b :: 0 <= b < |s.bufs| ==> s.bufs[b].refcnt == |Users(s.refs, b)| + s.pins[b])
  }

  ghost predicate OneHolder(refs: Refs) {
    forall h, g ::
      h in refs && g in refs && refs[h].b == refs[g].b && refs[h].stage == Holds && refs[g].stage == Holds ==> h == g
  }

  /** At most one buffer holds a given block of a device other than 0. */
  ghost predicate Unique(bufs: seq<Buf>) {
    forall a, b :: 0 <= a < b < |bufs| && bufs[a].key.dev != 0 ==> bufs[a].key != bufs[b].key
  }

  /** A buffer newer than the disk is valid, and held or pinned. */
  ghost predicate StaleOk(s: State)
    requires |s.pins| == |s.bufs|
  {
    forall k :: k in s.stale ==>
      && k.dev != 0 && s.stale[k] < |s.bufs| && s.bufs[s.stale[k]].key == k && s.bufs[s.stale[k]].valid
      && (s.pins[s.stale[k]] > 0 || Held(s.refs, s.stale[k]))
  }

  /** Every block reads as `logical`: from a valid buffer, and from the disk unless a newer buffer supersedes it. */
  ghost predicate Agrees(s: State) {
    && (forall b :: 0 <= b < |s.bufs| && s.bufs[b].valid && s.bufs[b].key.dev != 0 ==>
          s.bufs[b].data == Lookup(s.logical, s.bufs[b].key))
    && (forall k: Key {:trigger Lookup(s.disk, k)} :: k.dev != 0 && k !in s.stale ==>
          Lookup(s.disk, k) == Lookup(s.logical, k))
  }

  lemma NoUser(refs: Refs, b: nat)
    requires |Users(refs, b)| == 0
    ensures !Held(refs, b) && forall h :: h in refs ==> refs[h].b != b
  {
    forall h | h in refs ensures refs[h].b != b {
      assert h in Users(refs, b) <==> refs[h].b == b;
    }
  }

  lemma UserCounts(refs: Refs, h: nat)
    requires h in refs
    ensures |Users(refs, refs[h].b)| > 0
  {
    assert h in Users(refs, refs[h].b);
  }

  lemma AddUser(refs: Refs, h: nat, r: Ref, b: nat)
    requires h !in refs
    ensures |Users(refs[h := r], b)| == |Users(refs, b)| + if r.b == b then 1 else 0
  {
    assert Users(refs[h := r], b) == Users(refs, b) + if r.b == b then {h} else {};
  }

  lemma DropUser(refs: Refs, h: nat, b: nat)
    requires h in refs
    ensures |Users(refs, b)| == |Users(refs - {h}, b)| + if refs[h].b == b then 1 else 0
  {
    assert Users(refs - {h}, b) == Users(refs, b) - {h};
    assert h in Users(refs, b) <==> refs[h].b == b;
  }

  lemma MoveUser(refs: Refs, h: nat, stage: Stage, b: nat)
    requires h in refs
    ensures Users(refs[h := Ref(refs[h].b, stage)], b) == Users(refs, b)
  {
    var refs' := refs[h := Ref(refs[h].b, stage)];
    assert forall x :: x in Users(refs', b) <==> x in Users(refs, b);
  }

  // ------------------------------------------------------------- whole invariant

  ghost predicate Good(s: State) {
    CountsOk(s) && OneHolder(s.refs) && Unique(s.bufs) && StaleOk(s) && Agrees(s)
  }

  /** A valid buffer nobody refers to equals its disk block. */
  lemma UnreferencedIsClean(s: State, b: nat)
    requires Good(s) && b < |s.bufs| && s.bufs[b].refcnt == 0 && s.bufs[b].key.dev != 0 && s.bufs[b].valid
    ensures s.bufs[b].data == Lookup(s.disk, s.bufs[b].key)
  {
    NoUser(s.refs, b);
    assert s.bufs[b].key !in s.stale;
  }

  function AddRef(bufs: seq<Buf>, b: nat): (r: seq<Buf>)
    requires b < |bufs|
  {
    bufs[b := bufs[b].(refcnt := bufs[b].refcnt + 1)]
  }

  function Recycle(bufs: seq<Buf>, b: nat, k: Key): (r: seq<Buf>)
    requires b < |bufs|
  {
    bufs[b := Buf(k, false, 1, bufs[b].data)]
  }

  /** bget finds the block. */
  lemma HitGood(s: State, b: nat, h: nat)
    requires Good(s) && b < |s.bufs| && h !in s.refs
    ensures Good(s.(bufs := AddRef(s.bufs, b), refs := s.refs[h := Ref(b, Waits)]))
  {
    hide Users;
    var refs' := s.refs[h := Ref(b, Waits)];
    forall x | 0 <= x < |s.bufs| ensures AddRef(s.bufs, b)[x].refcnt == |Users(refs', x)| + s.pins[x] {
      AddUser(s.refs, h, Ref(b, Waits), x);
    }
    HeldStays(s.refs, refs', h);
  }

  /** References other than h are unchanged, and h holds no buffer before the change. */
  lemma HeldStays(refs: Refs, refs': Refs, h: nat)
    requires h in refs ==> refs[h].stage != Holds
    requires forall x :: x in refs && x != h ==> x in refs' && refs'[x] == refs[x]
    ensures forall b :: Held(refs, b) ==> Held(refs', b)
  {
    forall b | Held(refs, b) ensures Held(refs', b) {
      var x :| x in refs && refs[x] == Ref(b, Holds);
      assert x in refs' && refs'[x] == Ref(b, Holds);
    }
  }

  /** bget takes over a buffer nobody refers to, for a block that is in no buffer. */
  lemma RecycleGood(s: State, b: nat, h: nat, k: Key)
    requires Good(s) && b < |s.bufs| && h !in s.refs && s.bufs[b].refcnt == 0
    requires forall i :: 0 <= i < |s.bufs| ==> s.bufs[i].key != k
    ensures Good(s.(bufs := Recycle(s.bufs, b, k), refs := s.refs[h := Ref(b, Waits)]))
  {
    hide Users, Held;
    var bufs', refs' := Recycle(s.bufs, b, k), s.refs[h := Ref(b, Waits)];
    forall x | 0 <= x < |s.bufs| ensures bufs'[x].refcnt == |Users(refs', x)| + s.pins[x] {
      AddUser(s.refs, h, Ref(b, Waits), x);
    }
    HeldStays(s.refs, refs', h);
    NoUser(s.refs, b);
  }

  /** Every conjunct but StaleOk is indifferent to the stage of a reference, except for a second holder. */
  lemma StageRest(s: State, h: nat, stage: Stage)
    requires Good(s) && h in s.refs && (stage == Holds ==> !Held(s.refs, s.refs[h].b))
    ensures var s' := s.(refs := s.refs[h := Ref(s.refs[h].b, stage)]);
            CountsOk(s') && OneHolder(s'.refs) && Unique(s'.bufs) && Agrees(s')
  {
    hide Users;
    forall x | 0 <= x < |s.bufs| ensures Users(s.refs[h := Ref(s.refs[h].b, stage)], x) == Users(s.refs, x) {
      MoveUser(s.refs, h, stage, x);
    }
  }

  /** acquiresleep returns for reference h. */
  lemma AcquireGood(s: State, h: nat)
    requires Good(s) && h in s.refs && s.refs[h].stage == Waits && !Held(s.refs, s.refs[h].b)
    ensures Good(s.(refs := s.refs[h := Ref(s.refs[h].b, Holds)]))
  {
    hide CountsOk, OneHolder, Unique, Agrees;
    StageRest(s, h, Holds);
    HeldStays(s.refs, s.refs[h := Ref(s.refs[h].b, Holds)], h);
  }

  /** releasesleep for reference h is right exactly when what it changed is pinned. */
  lemma ReleaseIff(s: State, h: nat)
    requires Good(s) && h in s.refs && s.refs[h].stage == Holds
    ensures s.refs[h].b < |s.bufs| == |s.pins|
    ensures Good(s.(refs := s.refs[h := Ref(s.refs[h].b, Leaves)])) <==>
            (Dirty(s, s.refs[h].b) ==> s.pins[s.refs[h].b] > 0)
  {
    hide Unique, Agrees;
    var b, refs' := s.refs[h].b, s.refs[h := Ref(s.refs[h].b, Leaves)];
    StageRest(s, h, Leaves);
    assert !Held(refs', b);
    if Dirty(s, b) ==> s.pins[b] > 0 {
      forall k | k in s.stale ensures s.pins[s.stale[k]] > 0 || Held(refs', s.stale[k]) {
        if s.pins[s.stale[k]] == 0 {
          var x :| x in s.refs && s.refs[x] == Ref(s.stale[k], Holds);
          assert x != h;
          assert refs'[x] == Ref(s.stale[k], Holds);
        }
      }
    } else {
      assert s.bufs[b].key in s.stale;
    }
  }

  /** bread fills a buffer that is not valid. */
  lemma FillGood(s: State, b: nat)
    requires Good(s) && b < |s.bufs| && !s.bufs[b].valid
    ensures Good(s.(bufs := s.bufs[b := s.bufs[b].(valid := true, data := Lookup(s.disk, s.bufs[b].key))]))
  {
    hide Users, Held;
    assert s.bufs[b].key !in s.stale;
  }

  /** The holder changes the data: only its block's contents change. Device 0 stands for no device. */
  function Modified(s: State, b: nat, data: Content): (r: State)
    requires b < |s.bufs|
  {
    var k, s' := s.bufs[b].key, s.(bufs := s.bufs[b := s.bufs[b].(data := data)]);
    if k.dev == 0 then s' else s'.(stale := s.stale[k := b], logical := s.logical[k := data])
  }

  lemma ModifyAgrees(s: State, b: nat, data: Content)
    requires Unique(s.bufs) && Agrees(s) && b < |s.bufs| && s.bufs[b].valid
    ensures Agrees(Modified(s, b, data))
  {
    var s', key := Modified(s, b, data), s.bufs[b].key;
    if key.dev != 0 {
      forall x | 0 <= x < |s'.bufs| && s'.bufs[x].valid && s'.bufs[x].key.dev != 0
        ensures s'.bufs[x].data == Lookup(s'.logical, s'.bufs[x].key)
      {
        assert x != b ==> s'.bufs[x].key != key;
      }
    }
  }

  lemma ModifyStale(s: State, b: nat, data: Content)
    requires |s.pins| == |s.bufs| && StaleOk(s) && b < |s.bufs| && s.bufs[b].valid && Held(s.refs, b)
    ensures StaleOk(Modified(s, b, data))
  {
    hide Held;
  }

  lemma ModifyGood(s: State, b: nat, data: Content)
    requires Good(s) && b < |s.bufs| && s.bufs[b].valid && Held(s.refs, b)
    ensures Good(Modified(s, b, data))
  {
    hide Users, Held, Agrees, StaleOk;
    ModifyAgrees(s, b, data);
    ModifyStale(s, b, data);
  }

  /** bwrite: the disk block becomes the buffer's contents. */
  lemma WriteGood(s: State, b: nat)
    requires Good(s) && b < |s.bufs| && s.bufs[b].valid
    ensures Good(s.(stale := s.stale - {s.bufs[b].key}, disk := s.disk[s.bufs[b].key := s.bufs[b].data]))
  {
    hide Users, Held;
    var key := s.bufs[b].key;
    var disk' := s.disk[key := s.bufs[b].data];
    forall k: Key | k.dev != 0 && k !in s.stale - {key} ensures Lookup(disk', k) == Lookup(s.logical, k) {
      assert k != key ==> Lookup(disk', k) == Lookup(s.disk, k);
    }
  }

  lemma PinGood(s: State, b: nat)
    requires Good(s) && b < |s.bufs|
    ensures |s.pins| == |s.bufs| && Good(s.(bufs := AddRef(s.bufs, b), pins := s.pins[b := s.pins[b] + 1]))
  {
    hide Users, Held;
  }

  function DropRef(bufs: seq<Buf>, b: nat): (r: seq<Buf>)
    requires b < |bufs| && bufs[b].refcnt > 0
  {
    bufs[b := bufs[b].(refcnt := bufs[b].refcnt - 1)]
  }

  /** bunpin is right exactly when a block newer than the disk stays pinned or is held. */
  lemma UnpinIff(s: State, b: nat)
    requires Good(s) && b < |s.bufs| == |s.pins| && s.pins[b] > 0
    ensures s.bufs[b].refcnt > 0
    ensures Good(s.(bufs := DropRef(s.bufs, b), pins := s.pins[b := s.pins[b] - 1])) <==>
            (Dirty(s, b) ==> s.pins[b] > 1 || Held(s.refs, b))
  {
    hide Users, Held;
  }

  /** The end of brelse: the reference is gone. */
  lemma LeaveGood(s: State, h: nat)
    requires Good(s) && h in s.refs && s.refs[h].stage == Leaves
    ensures s.refs[h].b < |s.bufs| && s.bufs[s.refs[h].b].refcnt > 0
    ensures Good(s.(bufs := DropRef(s.bufs, s.refs[h].b), refs := s.refs - {h}))
  {
    hide Users, Held;
    var b := s.refs[h].b;
    UserCounts(s.refs, h);
    forall x | 0 <= x < |s.bufs| ensures DropRef(s.bufs, b)[x].refcnt == |Users(s.refs - {h}, x)| + s.pins[x] {
      DropUser(s.refs, h, x);
    }
    HeldStays(s.refs, s.refs - {h}, h);
  }
}
