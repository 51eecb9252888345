/**
 * The buffer cache (kernel/bio.c). Each method is one critical section under
 * bcache.lock, one transition of a buffer's sleeplock, or an action of the process
 * that holds the buffer; any sequence of calls is an interleaving of processes.
 */
module Bio {
  import opened Collections
  import opened LruList
  import opened BioSpec

  class Cache {
    const n: nat               // NBUF; node n of the list is bcache.head
    var bufs: seq<Buf>
    var next: seq<nat>
    var prev: seq<nat>
    var disk: map<Key, Content>
    ghost var order: seq<nat>  // most recently used first
    ghost var refs: Refs
    ghost var pins: seq<nat>
    ghost var stale: map<Key, nat>
    ghost var logical: map<Key, Content>

    ghost predicate Valid()
      reads this
    {
      && |bufs| == n && |order| == n && (forall b :: 0 <= b < n ==> b in order)
      && ListOk(next, prev, order, n)
      && Good(Now())
    }

    ghost function Now(): (s: State)
      reads this
    {
      State(bufs, refs, pins, stale, disk, logical)
    }

    /** binit. */
    constructor (n: nat, disk: map<Key, Content>)
      ensures Valid() && this.n == n && this.disk == disk && logical == disk && refs == map[] && stale == map[]
    {
      this.n := n;
      bufs := seq(n, i => Buf(Key(0, 0), false, 0, []));
      next := seq(n + 1, i => n);
      prev := seq(n + 1, i => n);
      order := [];
      this.disk, logical, refs, stale := disk, disk, map[], map[];
      pins := seq(n, i => 0);
      new;
      var b := 0;
      while b < n
        invariant b <= n && |order| == b && ListOk(next, prev, order, n) && (forall x :: 0 <= x < b <==> x in order)
        invariant this.n == n && this.disk == logical == disk && refs == map[] && stale == map[]
        invariant bufs == seq(n, i => Buf(Key(0, 0), false, 0, [])) && pins == seq(n, i => 0)
      {
        LinkFront(next, prev, order, n, b);
        next := next[b := next[n]];
        prev := prev[b := n];
        prev := prev[next[n] := b];
        next := next[n := b];
        order := [b] + order;
        b := b + 1;
      }
      EmptyGood(bufs, pins, disk);
    }

    /** The first loop of bget: the buffer of a block, or n exactly when no buffer holds it. */
    method FindBlock(k: Key) returns (b: nat)
      requires Valid()
      ensures b == n ==> forall x :: 0 <= x < n ==> bufs[x].key != k
      ensures b != n ==> b < n && bufs[b].key == k
    {
      hide Good, Links, Distinct;
      Ends(next, prev, order, n);
      b := next[n];
      ghost var i := 0;
      while b != n
        invariant 0 <= i <= n && b == (if i < n then order[i] else n)
        invariant forall j :: 0 <= j < i ==> order[j] < n && bufs[order[j]].key != k
        decreases n - i
      {
        Neighbours(next, prev, order, n, i);
        if bufs[b].key == k {
          return;
        }
        b := next[b];
        i := i + 1;
      }
      NotCached(order, bufs, k, n);
    }

    /** The second loop of bget: the least recently used of the unused buffers, or n exactly when there is none. */
    method FindUnused() returns (b: nat)
      requires Valid()
      ensures b == n ==> forall x :: 0 <= x < n ==> bufs[x].refcnt > 0
      ensures b != n ==> b < n && bufs[b].refcnt == 0 && LeastRecent(order, bufs, b)
    {
      hide Good, Links, Distinct, LeastRecent;
      Ends(next, prev, order, n);
      b := prev[n];
      ghost var i := n - 1;
      while b != n
        invariant -1 <= i < n && b == (if i >= 0 then order[i] else n)
        invariant forall j :: i < j < n ==> order[j] < n && bufs[order[j]].refcnt > 0
        decreases i
      {
        Neighbours(next, prev, order, n, i);
        if bufs[b].refcnt == 0 {
          IsLeastRecent(order, bufs, i);
          return;
        }
        b := prev[b];
        i := i - 1;
      }
      NoneUnused(order, bufs, n);
    }

    /** bget up to acquiresleep, for a new reference h; n means that every buffer is in use. */
    method Bget(k: Key, ghost h: nat) returns (b: nat)
      requires Valid() && h !in refs
      modifies this`bufs, this`refs
      ensures Valid()
      ensures b == n ==> bufs == old(bufs) && refs == old(refs) && forall i :: 0 <= i < n ==>
                bufs[i].key != k && bufs[i].refcnt > 0
      ensures b != n ==> b < n && refs == old(refs)[h := Ref(b, Waits)] && bufs[b].key == k
      ensures b != n ==> if old(bufs)[b].key == k then bufs == AddRef(old(bufs), b)
              else (forall i :: 0 <= i < n ==> old(bufs)[i].key != k) && old(bufs)[b].refcnt == 0
                   && bufs == Recycle(old(bufs), b, k)
      ensures b != n && old(bufs)[b].key != k ==> LeastRecent(order, old(bufs), b)
      ensures forall x :: x in old(refs) ==>
                && refs[x] == old(refs)[x] && refs[x].b < n
                && bufs[refs[x].b].(refcnt := 0) == old(bufs)[refs[x].b].(refcnt := 0)
    {
      hide Good, ListOk;
      RefsInUse(Now());
      b := FindBlock(k);
      if b != n {
        HitGood(Now(), b, h);
        bufs := bufs[b := bufs[b].(refcnt := bufs[b].refcnt + 1)];
        refs := refs[h := Ref(b, Waits)];
        return;
      }
      b := FindUnused();
      if b != n {
        RecycleGood(Now(), b, h, k);
        bufs := bufs[b := Buf(k, false, 1, bufs[b].data)];
        refs := refs[h := Ref(b, Waits)];
      }
    }

    /** acquiresleep(&b->lock) returns. */
    ghost method Acquired(h: nat)
      requires Valid() && h in refs && refs[h].stage == Waits && !Held(refs, refs[h].b)
      modifies this`refs
      ensures Valid() && refs == old(refs)[h := Ref(old(refs)[h].b, Holds)]
    {
      hide ListOk, Good;
      AcquireGood(Now(), h);
      refs := refs[h := Ref(refs[h].b, Holds)];
    }

    /** The rest of bread: the holder finds the block's contents, and no other buffer changes. */
    method Fill(b: nat, ghost h: nat)
      requires Valid() && h in refs && refs[h] == Ref(b, Holds)
      modifies this`bufs
      ensures Valid() && b < n && bufs[b].valid
      ensures bufs == old(bufs)[b := old(bufs)[b].(valid := true, data := bufs[b].data)]
      ensures bufs[b].data == if old(bufs)[b].valid then old(bufs)[b].data else Lookup(disk, bufs[b].key)
      ensures bufs[b].key.dev != 0 ==> bufs[b].data == Lookup(logical, bufs[b].key)
    {
      hide ListOk;
      if !bufs[b].valid {
        FillGood(Now(), b);
        bufs := bufs[b := bufs[b].(valid := true, data := Lookup(disk, bufs[b].key))];
      }
    }

    /** The holder writes into b->data: this is the one action that changes what a block contains. */
    method Modify(b: nat, data: Content, ghost h: nat)
      requires Valid() && h in refs && refs[h] == Ref(b, Holds) && b < |bufs| && bufs[b].valid
      modifies this`bufs, this`stale, this`logical
      ensures Valid() && Now() == Modified(old(Now()), b, data)
    {
      hide ListOk, Good;
      ModifyGood(Now(), b, data);
      if bufs[b].key.dev != 0 {
        stale, logical := stale[bufs[b].key := b], logical[bufs[b].key := data];
      }
      bufs := bufs[b := bufs[b].(data := data)];
    }

    /** bwrite. */
    method Bwrite(b: nat, ghost h: nat)
      requires Valid() && h in refs && refs[h] == Ref(b, Holds) && b < |bufs| && bufs[b].valid
      modifies this`disk, this`stale
      ensures Valid() && disk == old(disk)[bufs[b].key := bufs[b].data] && !Dirty(Now(), b)
      ensures bufs[b].key.dev != 0 ==> Lookup(disk, bufs[b].key) == Lookup(logical, bufs[b].key)
    {
      hide ListOk;
      WriteGood(Now(), b);
      disk := disk[bufs[b].key := bufs[b].data];
      stale := stale - {bufs[b].key};
    }

    /** releasesleep in brelse: right exactly when what the holder changed is written or pinned. */
    ghost method Released(h: nat)
      requires Valid() && h in refs && refs[h].stage == Holds && refs[h].b < |bufs| == |pins|
      modifies this`refs
      ensures refs == old(refs)[h := Ref(old(refs)[h].b, Leaves)]
      ensures Valid() <==> (old(Dirty(Now(), refs[h].b)) ==> pins[old(refs)[h].b] > 0)
    {
      hide ListOk, Good;
      ReleaseIff(Now(), h);
      refs := refs[h := Ref(refs[h].b, Leaves)];
    }

    /** The rest of brelse: the buffer moves to the front of the list when nobody refers to it any more. */
    method Brelse(b: nat, ghost h: nat)
      requires Valid() && h in refs && refs[h] == Ref(b, Leaves)
      modifies this`bufs, this`next, this`prev, this`order, this`refs
      ensures Valid() && refs == old(refs) - {h} && b < n && old(bufs)[b].refcnt > 0 && bufs == DropRef(old(bufs), b)
      ensures bufs[b].refcnt > 0 ==> order == old(order)
      ensures bufs[b].refcnt == 0 ==>
                exists i :: 0 <= i < n && old(order)[i] == b && order == [b] + Without(old(order), i)
    {
      hide Good, ListOk;
      LeaveGood(Now(), h);
      bufs := bufs[b := bufs[b].(refcnt := bufs[b].refcnt - 1)];
      refs := refs - {h};
      if bufs[b].refcnt == 0 {
        MoveToFront(b);
      }
    }

    method MoveToFront(b: nat)
      requires b < n && |order| == n && (forall x :: 0 <= x < n ==> x in order) && ListOk(next, prev, order, n)
      modifies this`next, this`prev, this`order
      ensures |order| == n && (forall x :: 0 <= x < n ==> x in order) && ListOk(next, prev, order, n)
      ensures exists i :: 0 <= i < n && old(order)[i] == b && order == [b] + Without(old(order), i)
    {
      hide Links, Distinct, Without;
      assert b in order;
      ghost var i: nat :| i < |order| && order[i] == b;
      Unlink(next, prev, order, n, i);
      WithoutMembers(order, i);
      ghost var rest := Without(order, i);
      var bn, bp := next[b], prev[b];
      prev := prev[bn := bp];
      next := next[bp := bn];
      LinkFront(next, prev, rest, n, b);
      next := next[b := next[n]];
      prev := prev[b := n];
      prev := prev[next[n] := b];
      next := next[n := b];
      order := [b] + rest;
      assert forall x :: 0 <= x < n && x != b ==> x in rest;
    }

    method Bpin(b: nat)
      requires Valid() && b < n
      modifies this`bufs, this`pins
      ensures Valid() && |old(pins)| == n && pins == old(pins)[b := old(pins)[b] + 1] && bufs == AddRef(old(bufs), b)
    {
      hide ListOk;
      PinGood(Now(), b);
      bufs := bufs[b := bufs[b].(refcnt := bufs[b].refcnt + 1)];
      pins := pins[b := pins[b] + 1];
    }

    /** bunpin: right exactly when a block newer than the disk stays pinned or is held. */
    method Bunpin(b: nat)
      requires Valid() && b < n && |pins| == n && pins[b] > 0
      modifies this`bufs, this`pins
      ensures pins == old(pins)[b := old(pins)[b] - 1] && old(bufs)[b].refcnt > 0 && bufs == DropRef(old(bufs), b)
      ensures Valid() <==> (old(Dirty(Now(), b)) ==> old(pins)[b] > 1 || Held(refs, b))
    {
      hide ListOk, Good;
      UnpinIff(Now(), b);
      bufs := bufs[b := bufs[b].(refcnt := bufs[b].refcnt - 1)];
      pins := pins[b := pins[b] - 1];
    }
  }

  lemma EmptyGood(bufs: seq<Buf>, pins: seq<nat>, disk: map<Key, Content>)
    requires |pins| == |bufs| && forall b :: 0 <= b < |bufs| ==> bufs[b] == Buf(Key(0, 0), false, 0, []) && pins[b] == 0
    ensures Good(State(bufs, map[], pins, map[], disk, disk))
  {
    forall b | 0 <= b < |bufs| ensures Users(map[], b) == {} {
    }
  }

  lemma RefsInUse(s: State)
    requires Good(s)
    ensures forall x :: x in s.refs ==> s.refs[x].b < |s.bufs| && s.bufs[s.refs[x].b].refcnt > 0
  {
    forall x | x in s.refs ensures s.bufs[s.refs[x].b].refcnt > 0 {
      UserCounts(s.refs, x);
    }
  }

  /** Every buffer after b in the order, that is, used less recently, is in use. */
  ghost predicate LeastRecent(order: seq<nat>, bufs: seq<Buf>, b: nat) {
    exists i :: 0 <= i < |order| && order[i] == b
      && forall j :: i < j < |order| ==> order[j] < |bufs| && bufs[order[j]].refcnt > 0
  }

  lemma IsLeastRecent(order: seq<nat>, bufs: seq<Buf>, i: nat)
    requires i < |order| && forall j :: i < j < |order| ==> order[j] < |bufs| && bufs[order[j]].refcnt > 0
    ensures LeastRecent(order, bufs, order[i])
  {
  }

  lemma NotCached(order: seq<nat>, bufs: seq<Buf>, k: Key, n: nat)
    requires |bufs| == n && |order| == n && (forall b :: 0 <= b < n ==> b in order)
    requires forall j :: 0 <= j < n ==> order[j] < n && bufs[order[j]].key != k
    ensures forall i :: 0 <= i < n ==> bufs[i].key != k
  {
    forall i | 0 <= i < n ensures bufs[i].key != k {
      assert i in order;
      var j :| 0 <= j < n && order[j] == i;
    }
  }

  lemma NoneUnused(order: seq<nat>, bufs: seq<Buf>, n: nat)
    requires |bufs| == n && |order| == n && (forall b :: 0 <= b < n ==> b in order)
    requires forall j :: 0 <= j < n ==> order[j] < n && bufs[order[j]].refcnt > 0
    ensures forall i :: 0 <= i < n ==> bufs[i].refcnt > 0
  {
    forall i | 0 <= i < n ensures bufs[i].refcnt > 0 {
      assert i in order;
      var j :| 0 <= j < n && order[j] == i;
    }
  }
}
