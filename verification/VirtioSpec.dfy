/**
 * The invariants behind the virtio disk driver (kernel/virtio_disk.c): descriptors
 * partitioned into free ones and three-element chains, and two rings of chain heads
 * whose indices wrap at 16 bits.
 */
module VirtioSpec {
  import opened Collections
  import opened Rings

  const NUM: nat := 8
  const WRAP: nat := 0x1_0000 // avail->idx and used->idx are unsigned 16-bit
  const BSIZE: nat := 1024

  /** What a descriptor may point to: a command header, the data of a buffer, a status byte. */
  datatype Addr = NoAddr | OpAt(i: nat) | DataOf(buf: nat) | StatusAt(i: nat)

  /** flags holds VRING_DESC_F_NEXT and VRING_DESC_F_WRITE. */
  datatype Desc = Desc(addr: Addr, len: nat, next?: bool, write?: bool, next: nat)

  const NODESC: Desc := Desc(NoAddr, 0, false, false, 0)

  datatype Op = Op(write: bool, sector: nat)
  datatype Info = Info(b: int, status: nat)

  /** Waiting in the avail ring, with the device, in the used ring, or seen by the interrupt handler. */
  datatype Phase = Pending | InDevice | Used | Seen

  /** A request in flight; its head descriptor is its key. The status is 0xff until the device sets it. */
  datatype Req = Req(d1: nat, d2: nat, buf: nat, blockno: nat, write: bool, phase: Phase, status: nat)

  type Reqs = map<nat, Req>

  // ----------------------------------------------------------------------- rings

  lemma {:induction false} Pigeonhole(s: seq<nat>, n: nat)
    requires Distinct(s) && forall k :: 0 <= k < |s| ==> s[k] < n
    ensures |s| <= n
    decreases n
  {
    if |s| > 0 {
      assert s[0] < n;
      if exists k :: 0 <= k < |s| && s[k] == n - 1 {
        var k :| 0 <= k < |s| && s[k] == n - 1;
        var r := s[..k] + s[k + 1..];
        forall i | 0 <= i < |r| ensures r[i] < n - 1 {
          assert r[i] == if i < k then s[i] else s[i + 1];
        }
        Pigeonhole(r, n - 1);
      } else {
        Pigeonhole(s, n - 1);
      }
    }
  }

  /** The entries of hist from `from` on are the heads in phase ph, each once, and the ring still holds them. */
  ghost predicate RingOk(ring: seq<nat>, hist: seq<nat>, from: nat, reqs: Reqs, ph: Phase) {
    && |ring| == NUM && from <= |hist|
    && (forall k :: from <= k < |hist| ==>
          hist[k] in reqs && hist[k] < NUM && reqs[hist[k]].phase == ph && ring[k % NUM] == hist[k])
    && (forall k, l :: from <= k < l < |hist| ==> hist[k] != hist[l])
    && (forall h :: h in reqs && reqs[h].phase == ph ==> h in hist[from..])
  }

  /** There is room for a head that is not in the ring. */
  lemma RingRoom(ring: seq<nat>, hist: seq<nat>, from: nat, reqs: Reqs, ph: Phase, h: nat)
    requires RingOk(ring, hist, from, reqs, ph) && h < NUM && (h in reqs ==> reqs[h].phase != ph)
    ensures |hist| - from < NUM
  {
    var s := hist[from..] + [h];
    forall k, l | 0 <= k < l < |s| ensures s[k] != s[l] {
      assert s[k] == hist[from + k];
      if l < |s| - 1 { assert s[l] == hist[from + l]; }
    }
    Pigeonhole(s, NUM);
  }

  lemma RingPush(ring: seq<nat>, hist: seq<nat>, from: nat, reqs: Reqs, ph: Phase, h: nat, r: Req)
    requires RingOk(ring, hist, from, reqs, ph) && h < NUM && (h in reqs ==> reqs[h].phase != ph) && r.phase == ph
    ensures RingOk(ring[|hist| % NUM := h], hist + [h], from, reqs[h := r], ph)
  {
    RingRoom(ring, hist, from, reqs, ph, h);
    var hist', reqs' := hist + [h], reqs[h := r];
    forall k | from <= k < |hist| ensures k % NUM != |hist| % NUM {
      SlotsDiffer(k, |hist|, NUM);
    }
    forall x | x in reqs' && reqs'[x].phase == ph ensures x in hist'[from..] {
      assert hist'[from..] == hist[from..] + [h];
      if x != h { assert x in hist[from..]; }
    }
  }

  lemma RingPop(ring: seq<nat>, hist: seq<nat>, from: nat, reqs: Reqs, ph: Phase, r: Req)
    requires RingOk(ring, hist, from, reqs, ph) && from < |hist| && r.phase != ph
    ensures RingOk(ring, hist, from + 1, reqs[hist[from] := r], ph)
  {
    var h := hist[from];
    var reqs' := reqs[h := r];
    assert hist[from..] == [h] + hist[from + 1..];
    forall x | x in reqs' && reqs'[x].phase == ph ensures x in hist[from + 1..] {
      assert x in hist[from..];
    }
  }

  /** A change to a request that is in this ring neither before nor after. */
  lemma RingFrame(ring: seq<nat>, hist: seq<nat>, from: nat, reqs: Reqs, reqs': Reqs, ph: Phase, h: nat)
    requires RingOk(ring, hist, from, reqs, ph)
    requires (h in reqs ==> reqs[h].phase != ph) && (h in reqs' ==> reqs'[h].phase != ph)
    requires forall x :: x != h ==> (x in reqs <==> x in reqs') && (x in reqs ==> reqs'[x] == reqs[x])
    ensures RingOk(ring, hist, from, reqs', ph)
  {
  }

  /** Equal indices mean an empty ring. */
  lemma WrapSame(from: nat, n: nat)
    requires from <= n <= from + NUM
    ensures from % WRAP == n % WRAP <==> from == n
  {
  }

  lemma WrapNext(n: nat)
    ensures (n % WRAP + 1) % WRAP == (n + 1) % WRAP
  {
  }

  // ---------------------------------------------------------------------- chains

  function Sector(blockno: nat): (s: nat) {
    blockno * (BSIZE / 512)
  }

  /** The memory that driver and device share, and the driver's note of what is free. */
  datatype Area = Area(free: seq<bool>, desc: seq<Desc>, ops: seq<Op>, info: seq<Info>)

  ghost predicate Shaped(a: Area) {
    |a.free| == |a.desc| == |a.ops| == |a.info| == NUM
  }

  ghost predicate ReqOk(a: Area, own: seq<int>, h: nat, r: Req)
    requires Shaped(a) && |own| == NUM
  {
    && h < NUM && r.d1 < NUM && r.d2 < NUM && h != r.d1 && h != r.d2 && r.d1 != r.d2
    && own[h] == h && own[r.d1] == h && own[r.d2] == h
    && a.desc[h] == Desc(OpAt(h), 16, true, false, r.d1)
    && a.desc[r.d1] == Desc(DataOf(r.buf), BSIZE, true, !r.write, r.d2)
    && a.desc[r.d2] == Desc(StatusAt(h), 1, false, true, 0)
    && a.ops[h] == Op(r.write, Sector(r.blockno))
    && a.info[h] == Info(r.buf, r.status) && (r.phase == Seen ==> r.status == 0)
  }

  /** Descriptor `i` and what belongs to it are the same in both. */
  ghost predicate SameAt(a: Area, own: seq<int>, b: Area, own': seq<int>, i: nat)
    requires Shaped(a) && Shaped(b) && |own| == |own'| == NUM
  {
    i < NUM ==> own'[i] == own[i] && b.desc[i] == a.desc[i] && b.ops[i] == a.ops[i] && b.info[i] == a.info[i]
  }

  lemma ReqSame(a: Area, own: seq<int>, b: Area, own': seq<int>, x: nat, r: Req)
    requires Shaped(a) && Shaped(b) && |own| == |own'| == NUM && ReqOk(a, own, x, r)
    requires SameAt(a, own, b, own', x) && SameAt(a, own, b, own', r.d1) && SameAt(a, own, b, own', r.d2)
    ensures ReqOk(b, own', x, r)
  {
  }

  ghost predicate Within(reqs: Reqs, h: nat, i: nat) {
    h in reqs && (i == h || i == reqs[h].d1 || i == reqs[h].d2)
  }

  /** own[i] is the head of the chain descriptor i is in, or -1. */
  ghost predicate Chains(a: Area, own: seq<int>, reqs: Reqs) {
    && Shaped(a) && |own| == NUM
    && (forall i :: 0 <= i < NUM ==> (a.free[i] <==> own[i] == -1))
    && (forall i :: 0 <= i < NUM && own[i] != -1 ==> own[i] >= 0 && Within(reqs, own[i], i))
    && (forall h :: h in reqs ==> ReqOk(a, own, h, reqs[h]))
  }

  /** A buffer is in at most one request, and its disk flag is set until the request is seen to be done. */
  ghost predicate BufsOk(reqs: Reqs, busy: set<nat>, at: map<nat, nat>) {
    && (forall h :: h in reqs ==>
          reqs[h].buf in at && at[reqs[h].buf] == h && (reqs[h].buf in busy <==> reqs[h].phase != Seen))
    && (forall b :: b in at ==> at[b] in reqs && reqs[at[b]].buf == b)
    && busy <= at.Keys
  }

  function Allocated(free: seq<bool>, a: nat, b: nat, c: nat): (r: seq<bool>)
    requires a < |free| && b < |free| && c < |free|
    ensures |r| == |free|
  {
    free[a := false][b := false][c := false]
  }

  /** Three different free descriptors. */
  ghost predicate FreeThree(a: Area, h: nat, r: Req)
    requires Shaped(a)
  {
    && h < NUM && r.d1 < NUM && r.d2 < NUM && h != r.d1 && h != r.d2 && r.d1 != r.d2
    && a.free[h] && a.free[r.d1] && a.free[r.d2]
  }

  /** Only free descriptors were written to. */
  ghost predicate OthersKept(a: Area, a': Area)
    requires Shaped(a) && Shaped(a')
  {
    forall i :: 0 <= i < NUM && !a.free[i] ==>
      a'.desc[i] == a.desc[i] && a'.ops[i] == a.ops[i] && a'.info[i] == a.info[i]
  }

  /** A new chain of three free descriptors leaves every other chain alone. */
  lemma ChainsAdd(a: Area, own: seq<int>, reqs: Reqs, h: nat, r: Req, a': Area)
    requires Chains(a, own, reqs) && FreeThree(a, h, r) && Shaped(a') && OthersKept(a, a')
    requires ReqOk(a', own[h := h][r.d1 := h][r.d2 := h], h, r)
    ensures h !in reqs
    ensures Chains(a'.(free := Allocated(a.free, h, r.d1, r.d2)), own[h := h][r.d1 := h][r.d2 := h], reqs[h := r])
  {
    var own', b := own[h := h][r.d1 := h][r.d2 := h], a'.(free := Allocated(a.free, h, r.d1, r.d2));
    assert ReqOk(b, own', h, r);
    hide ReqOk, Within, Allocated;
    var reqs' := reqs[h := r];
    forall x | x in reqs ensures x != h && ReqOk(b, own', x, reqs[x]) {
      ReqKept(a, own, reqs, h, r, a', x);
    }
    forall i: nat | i < NUM
      ensures (b.free[i] <==> own'[i] == -1) && (own'[i] != -1 ==> own'[i] >= 0 && Within(reqs', own'[i], i))
    {
      AddedOwn(a, own, reqs, h, r, i);
    }
  }

  lemma AddedOwn(a: Area, own: seq<int>, reqs: Reqs, h: nat, r: Req, i: nat)
    requires Chains(a, own, reqs) && FreeThree(a, h, r) && i < NUM && h !in reqs
    ensures var o := own[h := h][r.d1 := h][r.d2 := h][i];
            && (Allocated(a.free, h, r.d1, r.d2)[i] <==> o == -1)
            && (o != -1 ==> o >= 0 && Within(reqs[h := r], o, i))
  {
    hide ReqOk;
    if own[i] != -1 { assert Within(reqs, own[i], i); }
  }

  lemma ReqKept(a: Area, own: seq<int>, reqs: Reqs, h: nat, r: Req, a': Area, x: nat)
    requires Chains(a, own, reqs) && FreeThree(a, h, r) && Shaped(a') && OthersKept(a, a') && x in reqs
    ensures x != h
    ensures ReqOk(a'.(free := Allocated(a.free, h, r.d1, r.d2)), own[h := h][r.d1 := h][r.d2 := h], x, reqs[x])
  {
    var b, own' := a'.(free := Allocated(a.free, h, r.d1, r.d2)), own[h := h][r.d1 := h][r.d2 := h];
    ReqInUse(a, own, reqs, x);
    hide ReqOk, Chains;
    ReqSame(a, own, b, own', x, reqs[x]);
  }

  lemma ReqInUse(a: Area, own: seq<int>, reqs: Reqs, x: nat)
    requires Chains(a, own, reqs) && x in reqs
    ensures Shaped(a) && |own| == NUM && ReqOk(a, own, x, reqs[x])
    ensures var r := reqs[x]; x < NUM && r.d1 < NUM && r.d2 < NUM && !a.free[x] && !a.free[r.d1] && !a.free[r.d2]
  {
    assert ReqOk(a, own, x, reqs[x]);
  }

  function Freed(free: seq<bool>, a: nat, b: nat, c: nat): (r: seq<bool>)
    requires a < |free| && b < |free| && c < |free|
    ensures |r| == |free|
  {
    free[a := true][b := true][c := true]
  }

  /** The area after free_chain on the chain of request `h`. */
  function Released(a: Area, h: nat, r: Req): (a': Area)
    requires Shaped(a) && h < NUM && r.d1 < NUM && r.d2 < NUM
  {
    Area(Freed(a.free, h, r.d1, r.d2), a.desc[h := NODESC][r.d1 := NODESC][r.d2 := NODESC], a.ops,
      a.info[h := Info(-1, a.info[h].status)])
  }

  /** Freeing a chain takes away exactly its three descriptors. */
  lemma ChainsRemove(a: Area, own: seq<int>, reqs: Reqs, h: nat)
    requires Chains(a, own, reqs) && h in reqs
    ensures var r := reqs[h];
            && h < NUM && r.d1 < NUM && r.d2 < NUM && !a.free[h] && !a.free[r.d1] && !a.free[r.d2]
            && h != r.d1 && h != r.d2 && r.d1 != r.d2
            && Chains(Released(a, h, r), own[h := -1][r.d1 := -1][r.d2 := -1], reqs - {h})
  {
    hide ReqOk, Within, Freed;
    var r := reqs[h];
    ReqInUse(a, own, reqs, h);
    ReqApart(a, own, reqs, h, h);
    var b, own', reqs' := Released(a, h, r), own[h := -1][r.d1 := -1][r.d2 := -1], reqs - {h};
    forall x | x in reqs' ensures ReqOk(b, own', x, reqs'[x]) {
      ReleasedReq(a, own, reqs, h, x);
    }
    forall i: nat | i < NUM
      ensures (b.free[i] <==> own'[i] == -1) && (own'[i] != -1 ==> own'[i] >= 0 && Within(reqs', own'[i], i))
    {
      ReleasedOwn(a, own, reqs, h, i);
    }
  }

  lemma ReleasedReq(a: Area, own: seq<int>, reqs: Reqs, h: nat, x: nat)
    requires Chains(a, own, reqs) && h in reqs && x in reqs && x != h
    ensures var r := reqs[h];
            && h < NUM && r.d1 < NUM && r.d2 < NUM
            && ReqOk(Released(a, h, r), own[h := -1][r.d1 := -1][r.d2 := -1], x, reqs[x])
  {
    hide ReqOk;
    ReqApart(a, own, reqs, h, x);
    ReqInUse(a, own, reqs, h);
    var r := reqs[h];
    ReqSame(a, own, Released(a, h, r), own[h := -1][r.d1 := -1][r.d2 := -1], x, reqs[x]);
  }

  lemma ReleasedOwn(a: Area, own: seq<int>, reqs: Reqs, h: nat, i: nat)
    requires Chains(a, own, reqs) && h in reqs && i < NUM
    ensures var r := reqs[h];
            && h < NUM && r.d1 < NUM && r.d2 < NUM
            && var o := own[h := -1][r.d1 := -1][r.d2 := -1][i];
               && (Freed(a.free, h, r.d1, r.d2)[i] <==> o == -1)
               && (o != -1 ==> o >= 0 && Within(reqs - {h}, o, i))
  {
    ReqInUse(a, own, reqs, h);
    hide ReqOk;
    if own[i] != -1 { assert Within(reqs, own[i], i); }
  }

  /** The chains of two requests share no descriptor. */
  lemma ReqApart(a: Area, own: seq<int>, reqs: Reqs, h: nat, x: nat)
    requires Chains(a, own, reqs) && h in reqs && x in reqs
    ensures ReqOk(a, own, h, reqs[h]) && ReqOk(a, own, x, reqs[x])
    ensures var r := reqs[h]; h != r.d1 && h != r.d2 && r.d1 != r.d2
    ensures x != h ==> !Within(reqs, h, x) && !Within(reqs, h, reqs[x].d1) && !Within(reqs, h, reqs[x].d2)
  {
    assert ReqOk(a, own, h, reqs[h]) && ReqOk(a, own, x, reqs[x]);
  }

  /** A request moves to another phase. */
  lemma ChainsMove(a: Area, own: seq<int>, reqs: Reqs, h: nat, ph: Phase, status: nat)
    requires Chains(a, own, reqs) && h in reqs && (ph == Seen ==> status == 0)
    ensures h < NUM
    ensures Chains(a.(info := a.info[h := Info(a.info[h].b, status)]), own,
                   reqs[h := reqs[h].(phase := ph, status := status)])
  {
    assert ReqOk(a, own, h, reqs[h]);
    var b := a.(info := a.info[h := Info(a.info[h].b, status)]);
    var reqs' := reqs[h := reqs[h].(phase := ph, status := status)];
    forall x | x in reqs' ensures ReqOk(b, own, x, reqs'[x]) {
      assert ReqOk(a, own, x, reqs[x]);
    }
  }

  /** Descriptors that are free may hold anything. */
  lemma ChainsFrame(a: Area, desc': seq<Desc>, own: seq<int>, reqs: Reqs)
    requires Chains(a, own, reqs) && |desc'| == NUM && forall j :: 0 <= j < NUM && !a.free[j] ==> desc'[j] == a.desc[j]
    ensures Chains(a.(desc := desc'), own, reqs)
  {
    forall x | x in reqs ensures ReqOk(a.(desc := desc'), own, x, reqs[x]) {
      assert ReqOk(a, own, x, reqs[x]);
    }
  }

  lemma BufsAdd(reqs: Reqs, busy: set<nat>, at: map<nat, nat>, h: nat, r: Req)
    requires BufsOk(reqs, busy, at) && h !in reqs && r.buf !in at && r.phase != Seen
    ensures r.buf !in busy && BufsOk(reqs[h := r], busy + {r.buf}, at[r.buf := h])
  {
  }

  /** At most NUM entries are outstanding, so the wrapped index names the slot of the next one. */
  lemma RingIndex(ring: seq<nat>, hist: seq<nat>, from: nat, reqs: Reqs, ph: Phase)
    requires RingOk(ring, hist, from, reqs, ph)
    ensures |ring| == NUM && |hist| % WRAP % NUM == |hist| % NUM && from % WRAP % NUM == from % NUM
        && from <= |hist| <= from + NUM
    ensures from % WRAP == |hist| % WRAP <==> from == |hist|
  {
    var s := hist[from..];
    forall k | 0 <= k < |s| ensures s[k] < NUM {
      assert s[k] == hist[from + k];
    }
    Pigeonhole(s, NUM);
    WrapSlot(|hist|, NUM, WRAP / NUM);
    WrapSlot(from, NUM, WRAP / NUM);
    WrapSame(from, |hist|);
  }

  /** The oldest entry still in the ring. */
  lemma RingHead(ring: seq<nat>, hist: seq<nat>, from: nat, reqs: Reqs, ph: Phase)
    requires RingOk(ring, hist, from, reqs, ph) && from < |hist|
    ensures var h := hist[from]; h in reqs && h < NUM && reqs[h].phase == ph && |ring| == NUM && ring[from % NUM] == h
  {
  }

  lemma ReqAt(a: Area, own: seq<int>, reqs: Reqs, h: nat)
    requires Chains(a, own, reqs) && h in reqs
    ensures Shaped(a) && |own| == NUM && h < NUM && ReqOk(a, own, h, reqs[h])
    ensures a.info[h] == Info(reqs[h].buf, reqs[h].status)
  {
  }

  lemma BufsMove(reqs: Reqs, busy: set<nat>, at: map<nat, nat>, h: nat, ph: Phase, status: nat)
    requires BufsOk(reqs, busy, at) && h in reqs && reqs[h].phase != Seen && ph != Seen
    ensures BufsOk(reqs[h := reqs[h].(phase := ph, status := status)], busy, at)
  {
  }

  lemma BufsSeen(reqs: Reqs, busy: set<nat>, at: map<nat, nat>, h: nat)
    requires BufsOk(reqs, busy, at) && h in reqs && reqs[h].phase != Seen
    ensures reqs[h].buf in busy && BufsOk(reqs[h := reqs[h].(phase := Seen)], busy - {reqs[h].buf}, at)
  {
  }

  lemma BufsRemove(reqs: Reqs, busy: set<nat>, at: map<nat, nat>, b: nat)
    requires BufsOk(reqs, busy, at) && b in at && b !in busy
    ensures at[b] in reqs && reqs[at[b]].phase == Seen && BufsOk(reqs - {at[b]}, busy, at - {b})
  {
  }

  lemma NoneUsed(ring: seq<nat>, hist: seq<nat>, from: nat, reqs: Reqs)
    requires RingOk(ring, hist, from, reqs, Used) && from == |hist|
    ensures forall h :: h in reqs ==> reqs[h].phase != Used
  {
  }

  // ----------------------------------------------------------------- whole state

  /** struct virtq_avail and struct virtq_used: an index that wraps and the entries. */
  datatype Ring = Ring(idx: nat, ring: seq<nat>)

  /**
   What is known beside the driver's own variables: the chains, the requests in flight, and
   all that ever went through the rings.
   */
  datatype Trace = Trace(own: seq<int>, reqs: Reqs, at: map<nat, nat>, availHist: seq<nat>, taken: nat,
    usedHist: seq<nat>, seen: nat)

  /** usedIdx and devAvail say how far the driver has read the used ring, and the device the avail ring. */
  datatype State = State(area: Area, avail: Ring, used: Ring, usedIdx: nat, busy: set<nat>, devAvail: nat, t: Trace)

  ghost predicate Good(s: State) {
    && Chains(s.area, s.t.own, s.t.reqs) && BufsOk(s.t.reqs, s.busy, s.t.at)
    && RingOk(s.avail.ring, s.t.availHist, s.t.taken, s.t.reqs, Pending)
    && s.avail.idx == |s.t.availHist| % WRAP && s.devAvail == s.t.taken % WRAP
    && RingOk(s.used.ring, s.t.usedHist, s.t.seen, s.t.reqs, Used)
    && s.used.idx == |s.t.usedHist| % WRAP && s.usedIdx == s.t.seen % WRAP
  }

  /** An entry is added at a ring's index. */
  function Push(r: Ring, h: nat): (r': Ring)
    requires |r.ring| == NUM
  {
    Ring((r.idx + 1) % WRAP, r.ring[r.idx % NUM := h])
  }

  /** The entry goes to the slot after the latest one. */
  lemma PushNext(r: Ring, hist: seq<nat>, from: nat, reqs: Reqs, ph: Phase, h: nat)
    requires RingOk(r.ring, hist, from, reqs, ph) && r.idx == |hist| % WRAP
    ensures |r.ring| == NUM && Push(r, h) == Ring(|hist + [h]| % WRAP, r.ring[|hist| % NUM := h])
  {
    RingIndex(r.ring, hist, from, reqs, ph);
    WrapNext(|hist|);
  }

  function Submitted(t: Trace, h: nat, r: Req): (t': Trace)
    requires |t.own| == NUM && h < NUM && r.d1 < NUM && r.d2 < NUM
  {
    t.(own := t.own[h := h][r.d1 := h][r.d2 := h], reqs := t.reqs[h := r], at := t.at[r.buf := h],
       availHist := t.availHist + [h])
  }

  /** virtio_disk_rw hands three descriptors to the device. */
  lemma SubmitGood(s: State, h: nat, r: Req, a': Area)
    requires Good(s) && r.buf !in s.t.at && r.phase == Pending
    requires Shaped(s.area) && |s.t.own| == NUM && FreeThree(s.area, h, r) && Shaped(a') && OthersKept(s.area, a')
    requires ReqOk(a', s.t.own[h := h][r.d1 := h][r.d2 := h], h, r)
    ensures h !in s.t.reqs && |s.avail.ring| == NUM
    ensures Good(s.(area := a'.(free := Allocated(s.area.free, h, r.d1, r.d2)), avail := Push(s.avail, h),
                    busy := s.busy + {r.buf}, t := Submitted(s.t, h, r)))
  {
    hide RingOk, Chains, BufsOk, ReqOk, Allocated, Push;
    ChainsAdd(s.area, s.t.own, s.t.reqs, h, r, a');
    BufsAdd(s.t.reqs, s.busy, s.t.at, h, r);
    RingPush(s.avail.ring, s.t.availHist, s.t.taken, s.t.reqs, Pending, h, r);
    RingFrame(s.used.ring, s.t.usedHist, s.t.seen, s.t.reqs, s.t.reqs[h := r], Used, h);
    PushNext(s.avail, s.t.availHist, s.t.taken, s.t.reqs, Pending, h);
  }

  function Finished(t: Trace, h: nat, r: Req): (t': Trace)
    requires |t.own| == NUM && h < NUM && r.d1 < NUM && r.d2 < NUM
  {
    t.(own := t.own[h := -1][r.d1 := -1][r.d2 := -1], reqs := t.reqs - {h}, at := t.at - {r.buf})
  }

  /** The waiting process gives its chain back. */
  lemma FinishGood(s: State, b: nat)
    requires Good(s) && b in s.t.at && b !in s.busy
    ensures Shaped(s.area) && |s.t.own| == NUM && s.t.at[b] in s.t.reqs
    ensures var h := s.t.at[b];
            var r := s.t.reqs[h];
            && h < NUM && r.d1 < NUM && r.d2 < NUM && r.buf == b && r.status == 0
            && Good(s.(area := Released(s.area, h, r), t := Finished(s.t, h, r)))
  {
    hide RingOk, Freed;
    BufsRemove(s.t.reqs, s.busy, s.t.at, b);
    var h := s.t.at[b];
    ChainsRemove(s.area, s.t.own, s.t.reqs, h);
    assert ReqOk(s.area, s.t.own, h, s.t.reqs[h]);
    hide Chains, BufsOk, ReqOk;
    RingFrame(s.avail.ring, s.t.availHist, s.t.taken, s.t.reqs, s.t.reqs - {h}, Pending, h);
    RingFrame(s.used.ring, s.t.usedHist, s.t.seen, s.t.reqs, s.t.reqs - {h}, Used, h);
  }

  /** The device takes the oldest pending request. */
  lemma TakeGood(s: State)
    requires Good(s) && s.devAvail != s.avail.idx
    ensures s.t.taken < |s.t.availHist| && |s.avail.ring| == NUM
    ensures var h := s.t.availHist[s.t.taken];
            && h == s.avail.ring[s.devAvail % NUM] && h in s.t.reqs
            && Good(s.(devAvail := (s.devAvail + 1) % WRAP,
                       t := s.t.(reqs := s.t.reqs[h := s.t.reqs[h].(phase := InDevice)], taken := s.t.taken + 1)))
  {
    hide Chains, BufsOk, RingOk;
    RingIndex(s.avail.ring, s.t.availHist, s.t.taken, s.t.reqs, Pending);
    RingHead(s.avail.ring, s.t.availHist, s.t.taken, s.t.reqs, Pending);
    var h := s.t.availHist[s.t.taken];
    var r := s.t.reqs[h].(phase := InDevice);
    RingPop(s.avail.ring, s.t.availHist, s.t.taken, s.t.reqs, Pending, r);
    RingFrame(s.used.ring, s.t.usedHist, s.t.seen, s.t.reqs, s.t.reqs[h := r], Used, h);
    ChainsTake(s.area, s.t.own, s.t.reqs, h);
    BufsMove(s.t.reqs, s.busy, s.t.at, h, InDevice, r.status);
    WrapNext(s.t.taken);
  }

  lemma ChainsTake(a: Area, own: seq<int>, reqs: Reqs, h: nat)
    requires Chains(a, own, reqs) && h in reqs && reqs[h].phase == Pending
    ensures Chains(a, own, reqs[h := reqs[h].(phase := InDevice)])
  {
    ReqAt(a, own, reqs, h);
    ChainsMove(a, own, reqs, h, InDevice, reqs[h].status);
    assert a.info[h := Info(a.info[h].b, reqs[h].status)] == a.info;
  }

  /** The device reports a request it has taken, with success or failure. */
  lemma CompleteGood(s: State, h: nat, status: nat)
    requires Good(s) && h in s.t.reqs && s.t.reqs[h].phase == InDevice
    ensures h < |s.area.info| && |s.used.ring| == NUM
    ensures Good(s.(area := s.area.(info := s.area.info[h := Info(s.area.info[h].b, status)]), used := Push(s.used, h),
                    t := s.t.(reqs := s.t.reqs[h := s.t.reqs[h].(phase := Used, status := status)],
                              usedHist := s.t.usedHist + [h])))
  {
    hide Chains, BufsOk, RingOk, ReqOk, Push;
    var r := s.t.reqs[h].(phase := Used, status := status);
    ReqAt(s.area, s.t.own, s.t.reqs, h);
    ChainsMove(s.area, s.t.own, s.t.reqs, h, Used, status);
    BufsMove(s.t.reqs, s.busy, s.t.at, h, Used, status);
    RingPush(s.used.ring, s.t.usedHist, s.t.seen, s.t.reqs, Used, h, r);
    RingFrame(s.avail.ring, s.t.availHist, s.t.taken, s.t.reqs, s.t.reqs[h := r], Pending, h);
    PushNext(s.used, s.t.usedHist, s.t.seen, s.t.reqs, Used, h);
  }

  /** What the handler finds at the head of the used ring, and what follows when it reports success. */
  lemma NoticeGood(s: State)
    requires Good(s) && s.usedIdx != s.used.idx
    ensures s.t.seen < |s.t.usedHist| && |s.used.ring| == NUM == |s.area.info|
    ensures var h := s.t.usedHist[s.t.seen];
            && h == s.used.ring[s.usedIdx % NUM] < NUM && h in s.t.reqs && s.t.reqs[h].phase == Used
            && s.area.info[h] == Info(s.t.reqs[h].buf, s.t.reqs[h].status) && s.t.reqs[h].buf in s.busy
            && (s.t.reqs[h].status == 0 ==>
                  Good(s.(usedIdx := (s.usedIdx + 1) % WRAP, busy := s.busy - {s.t.reqs[h].buf},
                          t := s.t.(reqs := s.t.reqs[h := s.t.reqs[h].(phase := Seen)], seen := s.t.seen + 1))))
  {
    hide Chains, BufsOk, ReqOk, RingOk;
    RingIndex(s.used.ring, s.t.usedHist, s.t.seen, s.t.reqs, Used);
    RingHead(s.used.ring, s.t.usedHist, s.t.seen, s.t.reqs, Used);
    var h := s.t.usedHist[s.t.seen];
    var r := s.t.reqs[h].(phase := Seen);
    ReqAt(s.area, s.t.own, s.t.reqs, h);
    BufsSeen(s.t.reqs, s.busy, s.t.at, h);
    if s.t.reqs[h].status == 0 {
      RingPop(s.used.ring, s.t.usedHist, s.t.seen, s.t.reqs, Used, r);
      RingFrame(s.avail.ring, s.t.availHist, s.t.taken, s.t.reqs, s.t.reqs[h := r], Pending, h);
      ChainsMove(s.area, s.t.own, s.t.reqs, h, Seen, 0);
      assert s.area.info[h := Info(s.area.info[h].b, 0)] == s.area.info;
      WrapNext(s.t.seen);
    }
  }
}
