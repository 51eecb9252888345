/**
 * The virtio disk driver (kernel/virtio_disk.c). Each method is one critical section
 * under vdisk_lock, or one step of a device that serves requests in any order.
 */
module Virtio {
  import opened Collections
  import opened VirtioSpec

  type Content = seq<bv8>

  function Successor(chain: seq<nat>, k: nat): (n: nat) {
    if k + 1 < |chain| then chain[k + 1] else 0
  }

  /** A chain of distinct descriptors in use, linked through next. */
  ghost predicate Linked(free: seq<bool>, desc: seq<Desc>, chain: seq<nat>) {
    && |free| == |desc| == NUM && |chain| > 0 && Distinct(chain)
    && (forall k :: 0 <= k < |chain| ==> chain[k] < NUM && !free[chain[k]])
    && (forall k :: 0 <= k < |chain| ==>
          desc[chain[k]].next? == (k + 1 < |chain|) && desc[chain[k]].next == Successor(chain, k))
  }

  lemma LinkAt(free: seq<bool>, desc: seq<Desc>, chain: seq<nat>, k: nat)
    requires Linked(free, desc, chain) && k < |chain|
    ensures |free| == |desc| == NUM && chain[k] < NUM && !free[chain[k]] && chain[k] !in chain[..k]
    ensures desc[chain[k]].next? <==> k + 1 < |chain|
    ensures k + 1 < |chain| ==> desc[chain[k]].next == chain[k + 1]
  {
  }

  /** Exactly the listed descriptors have become free. */
  ghost predicate Cleared(free: seq<bool>, desc: seq<Desc>, free': seq<bool>, desc': seq<Desc>, done: seq<nat>) {
    && |free| == |desc| == |free'| == |desc'| == NUM
    && forall j :: 0 <= j < NUM ==>
         (free'[j] <==> free[j] || j in done) && desc'[j] == if j in done then NODESC else desc[j]
  }

  lemma ClearedNone(free: seq<bool>, desc: seq<Desc>)
    requires |free| == |desc| == NUM
    ensures Cleared(free, desc, free, desc, [])
  {
  }

  lemma ClearedOne(free: seq<bool>, desc: seq<Desc>, free': seq<bool>, desc': seq<Desc>, done: seq<nat>, i: nat)
    requires Cleared(free, desc, free', desc', done) && i < NUM && i !in done
    ensures |free'| == |desc'| == |free| == |desc| == NUM && free'[i] == free[i] && desc'[i] == desc[i]
    ensures Cleared(free, desc, free'[i := true], desc'[i := NODESC], done + [i])
  {
  }

  lemma ChainLinked(a: Area, own: seq<int>, reqs: Reqs, h: nat)
    requires Chains(a, own, reqs) && h in reqs
    ensures Linked(a.free, a.desc, [h, reqs[h].d1, reqs[h].d2])
    ensures forall i :: 0 <= i < NUM ==> (own[i] == h <==> i in [h, reqs[h].d1, reqs[h].d2])
  {
    ReqAt(a, own, reqs, h);
  }

  lemma GoodChains(s: State)
    requires Good(s)
    ensures Chains(s.area, s.t.own, s.t.reqs) && Shaped(s.area) && |s.t.own| == NUM
  {
  }

  lemma GoodBufs(s: State)
    requires Good(s)
    ensures BufsOk(s.t.reqs, s.busy, s.t.at) && s.t.seen <= |s.t.usedHist|
    ensures forall k :: s.t.seen <= k < |s.t.usedHist| ==>
              s.t.usedHist[k] in s.t.reqs && s.t.reqs[s.t.usedHist[k]].phase == Used
    ensures forall k, l :: s.t.seen <= k < l < |s.t.usedHist| ==> s.t.usedHist[k] != s.t.usedHist[l]
    ensures s.usedIdx == s.used.idx ==> s.t.seen == |s.t.usedHist| && forall h :: h in s.t.reqs ==>
              s.t.reqs[h].phase != Used
  {
    RingIndex(s.used.ring, s.t.usedHist, s.t.seen, s.t.reqs, Used);
    if s.t.seen == |s.t.usedHist| { NoneUsed(s.used.ring, s.t.usedHist, s.t.seen, s.t.reqs); }
  }

  /** The first `k` completions that were waiting in the used ring have been noticed. */
  function SeenUpTo(t: Trace, k: nat): (t': Trace)
    requires t.seen <= k <= |t.usedHist|
  {
    var reqs' := map h | h in t.reqs :: if h in t.usedHist[t.seen..k] then t.reqs[h].(phase := Seen) else t.reqs[h];
    t.(reqs := reqs', seen := k)
  }

  lemma SeenNone(t: Trace)
    requires t.seen <= |t.usedHist|
    ensures SeenUpTo(t, t.seen) == t
  {
  }

  lemma SeenMore(t: Trace, k: nat)
    requires t.seen <= k < |t.usedHist| && t.usedHist[k] in t.reqs && t.usedHist[k] !in t.usedHist[t.seen..k]
    ensures var t', h := SeenUpTo(t, k), t.usedHist[k];
            && t'.reqs[h] == t.reqs[h]
            && SeenUpTo(t, k + 1) == t'.(reqs := t'.reqs[h := t'.reqs[h].(phase := Seen)], seen := k + 1)
  {
    assert t.usedHist[t.seen..k + 1] == t.usedHist[t.seen..k] + [t.usedHist[k]];
  }

  /** The device reported success for the completions from..to. */
  ghost predicate Succeeded(t: Trace, from: nat, to: nat) {
    forall k :: from <= k < to && k < |t.usedHist| ==> t.usedHist[k] in t.reqs && t.reqs[t.usedHist[k]].status == 0
  }

  class Disk {
    var free: seq<bool>
    var desc: seq<Desc>
    var ops: seq<Op>
    var info: seq<Info>
    var avail: Ring
    var used: Ring
    var usedIdx: nat       // disk.used_idx, how far the driver has read the used ring
    var busy: set<nat>     // buffers with b->disk == 1
    // The device: how far it has read the avail ring, its blocks, and the buffers it moves data to and from.
    var devAvail: nat
    var blocks: map<nat, Content>
    var bufs: map<nat, Content>
    ghost var t: Trace

    ghost predicate Valid()
      reads this
    {
      Good(Now())
    }

    ghost function Shared(): (a: Area)
      reads this
    {
      Area(free, desc, ops, info)
    }

    ghost function Now(): (s: State)
      reads this
    {
      State(Shared(), avail, used, usedIdx, busy, devAvail, t)
    }

    constructor ()
      ensures Valid() && t.reqs == map[] && busy == {} && |free| == NUM && forall i :: 0 <= i < NUM ==> free[i]
    {
      free := seq(NUM, i => true);
      desc := seq(NUM, i => NODESC);
      ops := seq(NUM, i => Op(false, 0));
      info := seq(NUM, i => Info(-1, 0));
      avail, used := Ring(0, seq(NUM, i => 0)), Ring(0, seq(NUM, i => 0));
      usedIdx, devAvail, busy, blocks, bufs := 0, 0, {}, map[], map[];
      t := Trace(seq(NUM, i => -1), map[], map[], [], 0, [], 0);
    }

    // ---------------------------------------------------------------- descriptors

    /** alloc_desc: the first free descriptor, or -1 when there is none. */
    method AllocDesc() returns (i: int)
      requires |free| == NUM
      modifies this`free
      ensures i == -1 ==> free == old(free) && forall j :: 0 <= j < NUM ==> !free[j]
      ensures i != -1 ==> 0 <= i < NUM && old(free)[i] && free == old(free)[i := false]
      ensures forall j :: 0 <= j < i ==> !old(free)[j]
    {
      i := 0;
      while i < NUM
        invariant 0 <= i <= NUM && free == old(free) && forall j :: 0 <= j < i ==> !free[j]
      {
        if free[i] {
          free := free[i := false];
          return;
        }
        i := i + 1;
      }
      i := -1;
    }

    method FreeDesc(i: nat)
      requires |free| == |desc| == NUM && i < NUM && !free[i]
      modifies this`free, this`desc
      ensures free == old(free)[i := true] && desc == old(desc)[i := NODESC]
    {
      desc := desc[i := NODESC];
      free := free[i := true];
    }

    /** free_chain: neither panic of free_desc is reached, and exactly the chain becomes free. */
    method FreeChain(start: nat, ghost chain: seq<nat>)
      requires |chain| > 0 && chain[0] == start && Linked(free, desc, chain)
      modifies this`free, this`desc
      ensures Cleared(old(free), old(desc), free, desc, chain)
    {
      hide Linked, Cleared;
      var i := start;
      ghost var k := 0;
      LinkAt(free, desc, chain, 0);
      ClearedNone(free, desc);
      assert chain[..0] == [];
      while true
        invariant 0 <= k < |chain| && i == chain[k] && Cleared(old(free), old(desc), free, desc, chain[..k])
        decreases |chain| - k
      {
        LinkAt(old(free), old(desc), chain, k);
        ClearedOne(old(free), old(desc), free, desc, chain[..k], i);
        assert chain[..k + 1] == chain[..k] + [i];
        var more, nxt := desc[i].next?, desc[i].next;
        FreeDesc(i);
        if !more {
          assert chain[..k + 1] == chain;
          break;
        }
        i := nxt;
        k := k + 1;
      }
    }

    /** alloc3_desc: three different free descriptors, or none when fewer than three are free. */
    method Alloc3Desc() returns (ok: bool, a: nat, b: nat, c: nat)
      requires |free| == |desc| == NUM
      modifies this`free, this`desc
      ensures |desc| == NUM && forall j :: 0 <= j < NUM && !old(free)[j] ==> desc[j] == old(desc)[j]
      ensures ok ==>
                && a < NUM && b < NUM && c < NUM && a != b && a != c && b != c && old(free)[a] && old(free)[b]
                && old(free)[c]
      ensures ok ==> free == Allocated(old(free), a, b, c)
      ensures !ok ==> free == old(free) && forall i, j, k :: 0 <= i < j < k < NUM ==> !(free[i] && free[j] && free[k])
    {
      a, b, c := 0, 0, 0;
      var x := AllocDesc();
      if x == -1 {
        return false, 0, 0, 0;
      }
      var y := AllocDesc();
      if y == -1 {
        FreeDesc(x);
        return false, 0, 0, 0;
      }
      var z := AllocDesc();
      if z == -1 {
        FreeDesc(x);
        FreeDesc(y);
        return false, 0, 0, 0;
      }
      return true, x, y, z;
    }

    // ------------------------------------------------------------------- requests

    /** virtio_disk_rw up to the wait for b->disk; the caller holds b's lock, so b is in no other request. */
    method Submit(b: nat, blockno: nat, write: bool) returns (ok: bool, h: nat)
      requires Valid() && b !in t.at
      modifies this`free, this`desc, this`ops, this`info, this`avail, this`busy, this`t
      ensures Valid()
      ensures !ok ==> free == old(free) && t == old(t) && busy == old(busy) && avail == old(avail)
      ensures !ok ==> |free| == NUM && forall i, j, k :: 0 <= i < j < k < NUM ==> !(free[i] && free[j] && free[k])
      ensures ok ==> h !in old(t).reqs
      ensures ok ==> exists d1, d2 :: t.reqs == old(t).reqs[h := Req(d1, d2, b, blockno, write, Pending, 0xff)]
      ensures ok ==> t.at == old(t).at[b := h] && busy == old(busy) + {b}
      ensures ok ==> t.availHist == old(t).availHist + [h] && t.usedHist == old(t).usedHist
    {
      hide RingOk, Chains, BufsOk, ReqOk, Allocated, Sector;
      var d1, d2;
      ghost var s0 := Now();
      GoodChains(s0);
      ok, h, d1, d2 := Alloc3Desc();
      if !ok {
        ChainsFrame(s0.area, desc, t.own, t.reqs);
        return;
      }
      ghost var r := Req(d1, d2, b, blockno, write, Pending, 0xff);
      Format(h, d1, d2, b, blockno, write, t.own[h := h][d1 := h][d2 := h]);
      assert OthersKept(s0.area, Shared());
      SubmitGood(s0, h, r, Shared());
      busy := busy + {b};
      avail := Push(avail, h);
      t := Submitted(t, h, r);
    }

    /** The three descriptors of a request, its command header and its entry in info. */
    method Format(h: nat, d1: nat, d2: nat, b: nat, blockno: nat, write: bool, ghost own': seq<int>)
      requires Shaped(Shared()) && |own'| == NUM && h < NUM && d1 < NUM && d2 < NUM && h != d1 && h != d2 && d1 != d2
      requires own'[h] == h && own'[d1] == h && own'[d2] == h
      modifies this`desc, this`ops, this`info
      ensures Shaped(Shared()) && ReqOk(Shared(), own', h, Req(d1, d2, b, blockno, write, Pending, 0xff))
      ensures forall i :: 0 <= i < NUM && i != h && i != d1 && i != d2 ==>
                desc[i] == old(desc)[i] && ops[i] == old(ops)[i] && info[i] == old(info)[i]
    {
      ops := ops[h := Op(write, Sector(blockno))];
      desc := desc[h := Desc(OpAt(h), 16, true, false, d1)];
      desc := desc[d1 := Desc(DataOf(b), BSIZE, true, !write, d2)];
      info := info[h := Info(info[h].b, 0xff)];
      desc := desc[d2 := Desc(StatusAt(h), 1, false, true, 0)];
      info := info[h := Info(b, info[h].status)];
    }

    /** The waiting process, once b->disk is 0: its chain goes back to the free descriptors. */
    method Finish(h: nat, b: nat)
      requires Valid() && b in t.at && t.at[b] == h && b !in busy
      modifies this`free, this`desc, this`info, this`t
      ensures Valid() && h in old(t).reqs && old(t).reqs[h].status == 0
      ensures t.reqs == old(t).reqs - {h} && t.at == old(t).at - {b}
      ensures |free| == |old(free)| == |old(t).own| == NUM
      ensures forall i :: 0 <= i < NUM ==> (free[i] <==> old(free)[i] || old(t).own[i] == h)
    {
      hide RingOk, Chains, BufsOk, ReqOk, Linked, Good;
      FinishGood(Now(), b);
      ghost var r, free0, desc0 := t.reqs[h], free, desc;
      GoodChains(Now());
      ChainLinked(Shared(), t.own, t.reqs, h);
      info := info[h := Info(-1, info[h].status)];
      FreeChain(h, [h, r.d1, r.d2]);
      assert free == Freed(free0, h, r.d1, r.d2);
      assert desc == desc0[h := NODESC][r.d1 := NODESC][r.d2 := NODESC];
      t := Finished(t, h, r);
    }

    // -------------------------------------------------------------------- device

    /** The device reads the next head from the avail ring. */
    method DeviceTake() returns (h: nat)
      requires Valid() && devAvail != avail.idx
      modifies this`devAvail, this`t
      ensures Valid() && old(t).taken < |old(t).availHist| && h == old(t).availHist[old(t).taken]
      ensures h in old(t).reqs
          && t == old(t).(reqs := old(t).reqs[h := old(t).reqs[h].(phase := InDevice)], taken := old(t).taken + 1)
    {
      hide Good;
      TakeGood(Now());
      h := avail.ring[devAvail % NUM];
      devAvail := (devAvail + 1) % WRAP;
      t := t.(reqs := t.reqs[h := t.reqs[h].(phase := InDevice)], taken := t.taken + 1);
    }

    /**
     The device follows the chain from its head, moves the data the way the command header
     says unless it fails, and writes the status byte. It reads and writes memory only as the
     lengths and flags of the descriptors allow, and whole sectors of one block.
     */
    method Serve(h: nat, status: nat, ghost r: Req, ghost own: seq<int>)
      requires Shaped(Shared()) && |own| == NUM && ReqOk(Shared(), own, h, r)
      modifies this`blocks, this`bufs, this`info
      ensures info == old(info)[h := Info(old(info)[h].b, status)]
      ensures Moved(old(blocks), old(bufs), blocks, bufs, r, status)
    {
      var op := ops[desc[h].addr.i];
      var data := desc[desc[h].next];
      var last := desc[data.next];
      var fits := desc[h].next? && !desc[h].write? && desc[h].len == 16 && data.next? && data.len == BSIZE;
      if status == 0 && fits && data.write? != op.write && op.sector % (BSIZE / 512) == 0 {
        if op.write {
          blocks := blocks[op.sector / (BSIZE / 512) := Lookup(bufs, data.addr.buf)];
        } else {
          bufs := bufs[data.addr.buf := Lookup(blocks, op.sector / (BSIZE / 512))];
        }
      }
      if !last.next? && last.write? && last.len == 1 {
        info := info[last.addr.i := Info(info[last.addr.i].b, status)];
      }
    }

    /** The device carries out a request it has taken, in any order, and reports it in the used ring. */
    method DeviceComplete(h: nat, status: nat)
      requires Valid() && h in t.reqs && t.reqs[h].phase == InDevice
      modifies this`blocks, this`bufs, this`info, this`used, this`t
      ensures Valid()
      ensures t == old(t).(reqs := old(t).reqs[h := old(t).reqs[h].(phase := Used, status := status)],
                           usedHist := old(t).usedHist + [h])
      ensures Moved(old(blocks), old(bufs), blocks, bufs, old(t).reqs[h], status)
    {
      hide Good, ReqOk, Lookup, Chains, Moved;
      CompleteGood(Now(), h, status);
      GoodChains(Now());
      ReqAt(Shared(), t.own, t.reqs, h);
      Serve(h, status, t.reqs[h], t.own);
      used := Push(used, h);
      t := t.(reqs := t.reqs[h := t.reqs[h].(phase := Used, status := status)], usedHist := t.usedHist + [h]);
    }

    // ----------------------------------------------------------------- interrupts

    /**
     One turn of the interrupt handler's loop: it panics exactly when the device reported a
     failure, and otherwise releases exactly the buffer that submitted the request.
     */
    method NoticeOne() returns (id: nat, panic: bool)
      requires Valid() && usedIdx != used.idx
      modifies this`usedIdx, this`busy, this`t
      ensures Valid() && old(t).seen < |old(t).usedHist| && id == old(t).usedHist[old(t).seen]
      ensures id in old(t).reqs && old(t).reqs[id].phase == Used && old(t).reqs[id].buf in old(busy)
      ensures panic <==> old(t).reqs[id].status != 0
      ensures panic ==> t == old(t) && busy == old(busy) && usedIdx == old(usedIdx)
      ensures !panic ==>
                && t == old(t).(reqs := old(t).reqs[id := old(t).reqs[id].(phase := Seen)], seen := old(t).seen + 1)
                && busy == old(busy) - {old(t).reqs[id].buf}
    {
      hide Good;
      NoticeGood(Now());
      id := used.ring[usedIdx % NUM];
      if info[id].status != 0 {
        return id, true;
      }
      var b := info[id].b;
      busy := busy - {b};
      usedIdx := (usedIdx + 1) % WRAP;
      t := t.(reqs := t.reqs[id := t.reqs[id].(phase := Seen)], seen := t.seen + 1);
      panic := false;
    }

    /**
     virtio_disk_intr: every completed request is noticed, and no other, up to the first one
     that failed, at which it panics.
     */
    method Intr() returns (panic: bool)
      requires Valid()
      modifies this`usedIdx, this`busy, this`t
      ensures Valid() && old(t).seen <= t.seen <= |t.usedHist| == |old(t).usedHist| && t == SeenUpTo(old(t), t.seen)
      ensures Succeeded(old(t), old(t).seen, t.seen)
      ensures panic <==> t.seen < |t.usedHist|
      ensures panic ==> t.usedHist[t.seen] in t.reqs && t.reqs[t.usedHist[t.seen]].status != 0
      ensures forall b :: b in busy <==> b in old(busy) && b in t.at && t.reqs[t.at[b]].phase != Seen
    {
      hide Good, SeenUpTo;
      GoodBufs(Now());
      ghost var t0 := t;
      SeenNone(t);
      while usedIdx != used.idx
        invariant Valid() && t0.seen <= t.seen <= |t0.usedHist| && t == SeenUpTo(t0, t.seen)
        invariant Succeeded(t0, t0.seen, t.seen) && busy <= old(busy)
        decreases |t0.usedHist| - t.seen
      {
        SeenFields(t0, t.seen);
        ghost var k := t.seen;
        var id;
        id, panic := NoticeOne();
        NotSeenYet(t0, k);
        if panic {
          GoodBufs(Now());
          return;
        }
      }
      panic := false;
      SeenFields(t0, t.seen);
      GoodBufs(Now());
    }
  }

  /** What a request does to the disk's blocks and the buffers: nothing unless it succeeds. */
  ghost predicate Moved(blocks: map<nat, Content>, bufs: map<nat, Content>, blocks': map<nat, Content>,
      bufs': map<nat, Content>, r: Req, status: nat)
  {
    if status != 0 then blocks' == blocks && bufs' == bufs
    else if r.write then blocks' == blocks[r.blockno := Lookup(bufs, r.buf)] && bufs' == bufs
    else bufs' == bufs[r.buf := Lookup(blocks, r.blockno)] && blocks' == blocks
  }

  lemma SeenFields(t: Trace, k: nat)
    requires t.seen <= k <= |t.usedHist|
    ensures var t' := SeenUpTo(t, k);
            t'.usedHist == t.usedHist && t'.at == t.at && t'.seen == k && t'.reqs.Keys == t.reqs.Keys
  {
  }

  lemma NotSeenYet(t: Trace, k: nat)
    requires t.seen <= k < |t.usedHist| && t.usedHist[k] in t.reqs
    requires forall i, j :: t.seen <= i < j < |t.usedHist| ==> t.usedHist[i] != t.usedHist[j]
    ensures var t', h := SeenUpTo(t, k), t.usedHist[k];
            && h in t'.reqs && t'.reqs[h] == t.reqs[h]
            && SeenUpTo(t, k + 1) == t'.(reqs := t'.reqs[h := t'.reqs[h].(phase := Seen)], seen := k + 1)
  {
    hide SeenUpTo;
    SeenFields(t, k);
    SeenMore(t, k);
  }
}
