/**
 What writei passes to log_write, exactly, and why filewrite's chunk size (kernel/file.c)
 keeps every operation within the log's reservation.
 */
module FsCost {
  import opened Collections
  import opened Params
  import opened FsSpec

  /** The chunk size of filewrite. */
  const CHUNK: nat := (MAXOPBLOCKS - 1 - 1 - 2) / 2 * BSIZE

  // ------------------------------------------------------------ blocks allocated

  /** Blocks taken into use between two states of ownership. */
  ghost function Added(own: map<nat, Slot>, own': map<nat, Slot>): (r: set<nat>) {
    own'.Keys - own.Keys
  }

  ghost function Bitmaps(sb: Super, s: set<nat>): (r: set<nat>) {
    set b | b in s :: BBlock(sb, b)
  }

  /** Is the indirect block, or an entry of it, among the new references? */
  ghost predicate IndirectAdded(own: map<nat, Slot>, own': map<nat, Slot>) {
    exists b :: b in Added(own, own') && own'[b].k >= NDIRECT
  }

  /** The blocks that allocation logs: the new blocks, their bitmap blocks, the indirect block. */
  ghost function Allocs(sb: Super, own: map<nat, Slot>, own': map<nat, Slot>, ip: Inode): (r: set<nat>)
    requires |ip.addrs| == NDIRECT + 1
  {
    Added(own, own') + Bitmaps(sb, Added(own, own'))
    + if IndirectAdded(own, own') then {ip.addrs[NDIRECT]} else {}
  }

  /** The file block that slot `k` is for. */
  function BlockOf(k: nat): (bn: nat) {
    if k <= NDIRECT then k else k - 1
  }

  /** Ownership only grew, by slots of inode `i` for its blocks lo..hi and the indirect pointer. */
  ghost predicate Grown(own: map<nat, Slot>, own': map<nat, Slot>, i: nat, lo: nat, hi: nat) {
    && (forall b :: b in own ==> b in own' && own'[b] == own[b])
    && (forall b :: b in own' && b !in own ==>
          own'[b].i == i && (own'[b].k != NDIRECT ==> lo <= BlockOf(own'[b].k) < hi))
  }

  lemma GrownJoin(own: map<nat, Slot>, own1: map<nat, Slot>, own2: map<nat, Slot>, i: nat, lo: nat, mid: nat, hi: nat)
    requires Grown(own, own1, i, lo, mid) && Grown(own1, own2, i, mid, hi) && lo <= mid <= hi
    ensures Grown(own, own2, i, lo, hi)
  {
  }

  lemma GrownWider(own: map<nat, Slot>, own': map<nat, Slot>, i: nat, lo: nat, hi: nat, lo': nat, hi': nat)
    requires Grown(own, own', i, lo, hi) && lo' <= lo && hi <= hi'
    ensures Grown(own, own', i, lo', hi')
  {
  }

  lemma AllocsNone(sb: Super, own: map<nat, Slot>, ip: Inode)
    requires |ip.addrs| == NDIRECT + 1
    ensures Allocs(sb, own, own, ip) == {}
  {
  }

  lemma AllocsOne(sb: Super, own: map<nat, Slot>, b: nat, i: nat, k: nat, ip: Inode)
    requires b !in own && |ip.addrs| == NDIRECT + 1 && (k == NDIRECT ==> ip.addrs[NDIRECT] == b)
    ensures Allocs(sb, own, own[b := Slot(i, k)], ip) ==
              {BBlock(sb, b), b} + if k > NDIRECT then {ip.addrs[NDIRECT]} else {}
  {
    hide BBlock;
    var own' := own[b := Slot(i, k)];
    assert Added(own, own') == {b};
    assert IndirectAdded(own, own') <==> k >= NDIRECT by { assert own'[b].k == k; }
  }

  lemma AddedJoin(own: map<nat, Slot>, own1: map<nat, Slot>, own2: map<nat, Slot>)
    requires forall b :: b in own ==> b in own1 && own1[b] == own[b]
    requires forall b :: b in own1 ==> b in own2 && own2[b] == own1[b]
    ensures Added(own, own2) == Added(own, own1) + Added(own1, own2)
    ensures IndirectAdded(own, own2) <==> IndirectAdded(own, own1) || IndirectAdded(own1, own2)
  {
    if IndirectAdded(own, own1) {
      var b :| b in Added(own, own1) && own1[b].k >= NDIRECT;
      assert b in Added(own, own2) && own2[b].k >= NDIRECT;
    }
    if IndirectAdded(own1, own2) {
      var b :| b in Added(own1, own2) && own2[b].k >= NDIRECT;
      assert b in Added(own, own2);
    }
    if IndirectAdded(own, own2) {
      var b :| b in Added(own, own2) && own2[b].k >= NDIRECT;
      assert b in Added(own, own1) || b in Added(own1, own2);
    }
  }

  lemma BitmapsJoin(sb: Super, a: set<nat>, b: set<nat>)
    ensures Bitmaps(sb, a + b) == Bitmaps(sb, a) + Bitmaps(sb, b)
  {
    hide BBlock;
  }

  /** Allocations in two steps log what they log together. */
  lemma AllocsJoin(sb: Super, own: map<nat, Slot>, own1: map<nat, Slot>, own2: map<nat, Slot>, ip1: Inode, ip2: Inode)
    requires forall b :: b in own ==> b in own1 && own1[b] == own[b]
    requires forall b :: b in own1 ==> b in own2 && own2[b] == own1[b]
    requires |ip1.addrs| == |ip2.addrs| == NDIRECT + 1
    requires IndirectAdded(own, own1) ==> ip2.addrs[NDIRECT] == ip1.addrs[NDIRECT]
    ensures Allocs(sb, own, own2, ip2) == Allocs(sb, own, own1, ip1) + Allocs(sb, own1, own2, ip2)
  {
    hide Bitmaps, IndirectAdded, Added;
    AddedJoin(own, own1, own2);
    BitmapsJoin(sb, Added(own, own1), Added(own1, own2));
  }

  // -------------------------------------------------------------- blocks written

  /** The data blocks lo..hi of a file. */
  ghost function Touched(d: Disk, ip: Inode, lo: nat, hi: nat): (r: set<nat>)
    requires InodeOk(d, ip) && hi <= MAXFILE
  {
    set bn | lo <= bn < hi :: Ref(d, ip, DataSlot(bn))
  }

  ghost predicate AllThere(d: Disk, ip: Inode, lo: nat, hi: nat)
    requires InodeOk(d, ip) && hi <= MAXFILE
  {
    forall bn :: lo <= bn < hi ==> Ref(d, ip, DataSlot(bn)) != 0
  }

  /** References in use stay. */
  ghost predicate RefsStay(d: Disk, ip: Inode, d': Disk, ip': Inode)
    requires InodeOk(d, ip) && InodeOk(d', ip')
  {
    forall k :: 0 <= k < NSLOT && Ref(d, ip, k) != 0 ==> Ref(d', ip', k) == Ref(d, ip, k)
  }

  lemma TouchedStay(d: Disk, ip: Inode, d': Disk, ip': Inode, lo: nat, hi: nat)
    requires InodeOk(d, ip) && InodeOk(d', ip') && hi <= MAXFILE && RefsStay(d, ip, d', ip') && AllThere(d, ip, lo, hi)
    ensures Touched(d', ip', lo, hi) == Touched(d, ip, lo, hi) && AllThere(d', ip', lo, hi)
  {
    hide Ref, InodeOk;
    forall bn | lo <= bn < hi ensures Ref(d', ip', DataSlot(bn)) == Ref(d, ip, DataSlot(bn)) != 0 {
      DataSlotsDiffer(bn, 0);
    }
  }

  lemma TouchedMore(d: Disk, ip: Inode, lo: nat, hi: nat)
    requires InodeOk(d, ip) && lo <= hi < MAXFILE
    ensures Touched(d, ip, lo, hi + 1) == Touched(d, ip, lo, hi) + {Ref(d, ip, DataSlot(hi))}
  {
    hide Ref, InodeOk;
  }

  lemma TouchedNone(d: Disk, ip: Inode, lo: nat)
    requires InodeOk(d, ip) && lo <= MAXFILE
    ensures Touched(d, ip, lo, lo) == {}
  {
  }

  lemma {:induction false} TouchedSize(d: Disk, ip: Inode, lo: nat, hi: nat)
    requires InodeOk(d, ip) && lo <= hi <= MAXFILE
    ensures |Touched(d, ip, lo, hi)| <= hi - lo
    decreases hi
  {
    hide Touched, InodeOk, Ref;
    if hi == lo {
      TouchedNone(d, ip, lo);
    } else {
      TouchedSize(d, ip, lo, hi - 1);
      TouchedMore(d, ip, lo, hi - 1);
      UnionSize(Touched(d, ip, lo, hi - 1), {Ref(d, ip, DataSlot(hi - 1))});
    }
  }

  // --------------------------------------------------------------- the whole write

  /** Writes start here, and the first block that can be new: a block begun earlier exists. */
  function FirstNew(off: nat): (lo: nat) {
    if off % BSIZE != 0 then off / BSIZE + 1 else off / BSIZE
  }

  function Last(off: nat, tot: nat): (hi: nat) {
    off / BSIZE + Blocks(off, tot)
  }

  /**
   What the write of `tot` bytes has logged up to the inode's block, beside `l0`: exactly the
   blocks that hold these bytes and what the allocation of blocks for `req` bytes logs.
   */
  ghost predicate Logs(sb: Super, own0: map<nat, Slot>, d: Disk, ip: Inode, own: map<nat, Slot>, i: nat, off: nat,
      tot: nat, req: nat, l0: set<nat>, l: set<nat>)
    requires InodeOk(d, ip)
  {
    && tot <= req && Last(off, tot) <= Last(off, req) <= MAXFILE
    && Grown(own0, own, i, FirstNew(off), Last(off, req))
    && AllThere(d, ip, off / BSIZE, Last(off, req))
    && l == l0 + Allocs(sb, own0, own, ip) + Touched(d, ip, off / BSIZE, Last(off, tot))
  }

  lemma LogsNone(sb: Super, own: map<nat, Slot>, d: Disk, ip: Inode, i: nat, off: nat, l: set<nat>)
    requires InodeOk(d, ip) && off <= MAXBYTES
    ensures Logs(sb, own, d, ip, own, i, off, 0, 0, l, l)
  {
    AllocsNone(sb, own, ip);
    TouchedNone(d, ip, off / BSIZE);
  }

  /** The indirect pointer of a file with an indirect reference is in use. */
  lemma IndirectInUse(sb: Super, d: Disk, ino: Inodes, own: map<nat, Slot>, own0: map<nat, Slot>, i: nat, lo: nat,
      hi: nat)
    requires Inv(sb, d, ino, own) && i < |ino| && Grown(own0, own, i, lo, hi) && IndirectAdded(own0, own)
    ensures |ino[i].addrs| == NDIRECT + 1 && ino[i].addrs[NDIRECT] != 0
  {
    hide BitSet, Word, RefsOk, BitsOk;
    var b :| b in Added(own0, own) && own[b].k >= NDIRECT;
    assert Ref(d, ino[i], own[b].k) == b != 0;
  }

  /** One pass of the loop: after bmap, and after the data block is logged as well. */
  lemma LogsMore(sb: Super, own0: map<nat, Slot>, d: Disk, ino: Inodes, own: map<nat, Slot>, d': Disk, ino': Inodes,
      own': map<nat, Slot>, i: nat, off: nat, tot: nat, m: nat, l0: set<nat>, l: set<nat>)
    requires Inv(sb, d, ino, own) && InodesOk(d', ino') && i < |ino| == |ino'|
    requires Logs(sb, own0, d, ino[i], own, i, off, tot, tot, l0, l) && RefsStay(d, ino[i], d', ino'[i])
    requires m > 0 && (off + tot) % BSIZE + m <= BSIZE && (tot > 0 ==> (off + tot) % BSIZE == 0)
    requires (off + tot) / BSIZE < MAXFILE && Ref(d', ino'[i], DataSlot((off + tot) / BSIZE)) != 0
    requires Grown(own, own', i, (off + tot) / BSIZE, (off + tot) / BSIZE + 1)
    requires tot == 0 && off % BSIZE != 0 ==> own' == own
    ensures var a, l1 := Ref(d', ino'[i], DataSlot((off + tot) / BSIZE)), l + Allocs(sb, own, own', ino'[i]);
            && Logs(sb, own0, d', ino'[i], own', i, off, tot, tot + m, l0, l1)
            && Logs(sb, own0, d', ino'[i], own', i, off, tot + m, tot + m, l0, l1 + {a})
  {
    hide OwnedOk, RefsOk, BitsOk, DiskOk, InodeOk, Ref, Grown, Allocs, Touched, AllThere, Blocks, NewBlocks;
    LastMore(off, tot, m);
    var lo, hi := off / BSIZE, Last(off, tot);
    LogsAllocs(sb, own0, d, ino, own, d', ino', own', i, FirstNew(off), hi, hi, hi + 1);
    TouchedStay(d, ino[i], d', ino'[i], lo, hi);
    TouchedMore(d', ino'[i], lo, hi);
    AllThereMore(d', ino'[i], lo, hi);
    if tot == 0 && off % BSIZE != 0 {
      GrownWider(own0, own, i, FirstNew(off), hi, FirstNew(off), hi + 1);
    } else {
      GrownJoin(own0, own, own', i, FirstNew(off), hi, hi + 1);
    }
  }

  /** The pass in which bmap finds the disk full. */
  lemma LogsStopped(sb: Super, own0: map<nat, Slot>, d: Disk, ino: Inodes, own: map<nat, Slot>, d': Disk, ino': Inodes,
      own': map<nat, Slot>, i: nat, off: nat, tot: nat, l0: set<nat>, l: set<nat>, l': set<nat>)
    requires Inv(sb, d, ino, own) && InodesOk(d', ino') && i < |ino| == |ino'|
    requires Logs(sb, own0, d, ino[i], own, i, off, tot, tot, l0, l) && RefsStay(d, ino[i], d', ino'[i])
    requires Grown(own, own', i, 0, 0) && l' == l + Allocs(sb, own, own', ino'[i])
    ensures Logs(sb, own0, d', ino'[i], own', i, off, tot, tot, l0, l')
  {
    hide OwnedOk, RefsOk, BitsOk, DiskOk, InodeOk, Ref, Allocs, Touched, AllThere, Blocks, NewBlocks;
    var lo, hi := off / BSIZE, Last(off, tot);
    LogsAllocs(sb, own0, d, ino, own, d', ino', own', i, FirstNew(off), hi, 0, 0);
    TouchedStay(d, ino[i], d', ino'[i], lo, hi);
  }

  /** The size of the file plays no part. */
  lemma LogsGrow(sb: Super, own0: map<nat, Slot>, d: Disk, ip: Inode, ip': Inode, own: map<nat, Slot>, i: nat,
      off: nat, tot: nat, req: nat, l0: set<nat>, l: set<nat>)
    requires InodeOk(d, ip) && InodeOk(d, ip') && ip'.addrs == ip.addrs
    requires Logs(sb, own0, d, ip, own, i, off, tot, req, l0, l)
    ensures Logs(sb, own0, d, ip', own, i, off, tot, req, l0, l)
  {
    hide InodeOk, Ref, Grown, Added, Bitmaps, IndirectAdded, Last;
    assert RefsStay(d, ip, d, ip') by {
      forall k | 0 <= k < NSLOT ensures Ref(d, ip', k) == Ref(d, ip, k) {
        SameAddrs(d, ip, ip', k);
      }
    }
    TouchedStay(d, ip, d, ip', off / BSIZE, Last(off, req));
    AllThereFewer(d, ip, off / BSIZE, Last(off, tot), Last(off, req));
    TouchedStay(d, ip, d, ip', off / BSIZE, Last(off, tot));
  }

  lemma AllThereFewer(d: Disk, ip: Inode, lo: nat, hi: nat, hi': nat)
    requires InodeOk(d, ip) && hi <= hi' <= MAXFILE && AllThere(d, ip, lo, hi')
    ensures AllThere(d, ip, lo, hi)
  {
  }

  lemma LogsAllocs(sb: Super, own0: map<nat, Slot>, d: Disk, ino: Inodes, own: map<nat, Slot>, d': Disk, ino': Inodes,
      own': map<nat, Slot>, i: nat, lo: nat, hi: nat, lo': nat, hi': nat)
    requires Inv(sb, d, ino, own) && InodesOk(d', ino') && i < |ino| == |ino'|
    requires RefsStay(d, ino[i], d', ino'[i]) && Grown(own0, own, i, lo, hi) && Grown(own, own', i, lo', hi')
    ensures |ino[i].addrs| == |ino'[i].addrs| == NDIRECT + 1
    ensures Allocs(sb, own0, own', ino'[i]) == Allocs(sb, own0, own, ino[i]) + Allocs(sb, own, own', ino'[i])
  {
    hide OwnedOk, RefsOk, BitsOk, IndirectAdded, Allocs, Word;
    if IndirectAdded(own0, own) {
      IndirectInUse(sb, d, ino, own, own0, i, lo, hi);
      assert Ref(d, ino[i], NDIRECT) == ino[i].addrs[NDIRECT];
    }
    AllocsJoin(sb, own0, own, own', ino[i], ino'[i]);
  }

  lemma AllThereMore(d: Disk, ip: Inode, lo: nat, hi: nat)
    requires InodeOk(d, ip) && lo <= hi < MAXFILE && AllThere(d, ip, lo, hi) && Ref(d, ip, DataSlot(hi)) != 0
    ensures AllThere(d, ip, lo, hi + 1)
  {
    hide InodeOk, Ref;
  }

  lemma LastMore(off: nat, tot: nat, m: nat)
    requires m > 0 && (off + tot) % BSIZE + m <= BSIZE && (tot > 0 ==> (off + tot) % BSIZE == 0)
    ensures Last(off, tot) == (off + tot) / BSIZE && Last(off, tot + m) == Last(off, tot) + 1
    ensures FirstNew(off) <= Last(off, tot) + 1 && (!(tot == 0 && off % BSIZE != 0) ==> FirstNew(off) <= Last(off, tot))
  {
    CountMore(off, tot, m);
    if tot > 0 {
      assert (off + tot - 1) / BSIZE == (off + tot) / BSIZE - 1;
    }
  }

  // -------------------------------------------------------------------- the bound

  lemma {:induction false} BitmapsSize(sb: Super, s: set<nat>)
    ensures |Bitmaps(sb, s)| <= |s|
    decreases |s|
  {
    if s == {} {
      assert Bitmaps(sb, s) == {};
    } else {
      var b :| b in s;
      assert s == (s - {b}) + {b};
      BitmapsSize(sb, s - {b});
      BitmapsJoin(sb, s - {b}, {b});
      assert Bitmaps(sb, {b}) == {BBlock(sb, b)};
      UnionSize(Bitmaps(sb, s - {b}), {BBlock(sb, b)});
    }
  }

  /** A new block is the indirect block or one of the file's new data blocks. */
  lemma AddedWhere(sb: Super, d: Disk, ino: Inodes, own0: map<nat, Slot>, own: map<nat, Slot>, i: nat, lo: nat, hi: nat)
    requires Inv(sb, d, ino, own) && i < |ino| && Grown(own0, own, i, lo, hi) && hi <= MAXFILE
    ensures |ino[i].addrs| == NDIRECT + 1
    ensures Added(own0, own) <= Touched(d, ino[i], lo, hi) + {ino[i].addrs[NDIRECT]}
    ensures forall b :: b in Added(own0, own) && own[b].k != NDIRECT ==> b in Touched(d, ino[i], lo, hi)
  {
    hide BitSet, Word, RefsOk, BitsOk;
    forall b | b in Added(own0, own)
      ensures if own[b].k == NDIRECT then b == ino[i].addrs[NDIRECT] else b in Touched(d, ino[i], lo, hi)
    {
      assert Ref(d, ino[i], own[b].k) == b;
      if own[b].k != NDIRECT {
        assert DataSlot(BlockOf(own[b].k)) == own[b].k;
      }
    }
  }

  lemma TouchedFewer(d: Disk, ip: Inode, lo: nat, lo': nat, hi: nat)
    requires InodeOk(d, ip) && lo <= lo' && hi <= MAXFILE
    ensures Touched(d, ip, lo', hi) <= Touched(d, ip, lo, hi)
  {
    hide Ref, InodeOk;
  }

  lemma TouchedMost(d: Disk, ip: Inode, lo: nat, hi: nat, hi': nat)
    requires InodeOk(d, ip) && hi <= hi' <= MAXFILE
    ensures Touched(d, ip, lo, hi) <= Touched(d, ip, lo, hi')
  {
    hide Ref, InodeOk;
  }

  lemma NewCount(off: nat, tot: nat)
    requires tot > 0
    ensures FirstNew(off) <= Last(off, tot) && Last(off, tot) - FirstNew(off) == NewBlocks(off, tot)
  {
  }

  lemma Tally(l: set<nat>, t: set<nat>, t': set<nat>, x: nat, added: set<nat>, bm: set<nat>)
    requires l <= t + {x} + bm && |bm| <= |added| && added <= t' + {x}
    ensures |l| <= |t| + |t'| + 2
  {
    SubsetSize(added, t' + {x});
    UnionSize(t', {x});
    SubsetSize(l, t + {x} + bm);
    UnionSize(t + {x}, bm);
    UnionSize(t, {x});
  }

  /** The new data blocks of a write are among its data blocks, and as many as it can add. */
  lemma NewSize(d: Disk, ip: Inode, off: nat, tot: nat)
    requires InodeOk(d, ip) && Last(off, tot) <= MAXFILE
    ensures Touched(d, ip, FirstNew(off), Last(off, tot)) <= Touched(d, ip, off / BSIZE, Last(off, tot))
    ensures |Touched(d, ip, FirstNew(off), Last(off, tot))| <= NewBlocks(off, tot)
    ensures |Touched(d, ip, off / BSIZE, Last(off, tot))| <= Blocks(off, tot)
  {
    hide Touched, InodeOk, NewBlocks, Blocks;
    TouchedFewer(d, ip, off / BSIZE, FirstNew(off), Last(off, tot));
    TouchedSize(d, ip, off / BSIZE, Last(off, tot));
    if tot > 0 {
      NewCount(off, tot);
      TouchedSize(d, ip, FirstNew(off), Last(off, tot));
    } else {
      CountNone(off);
      NothingNew(d, ip, off);
    }
  }

  /** A write logs its data blocks, a bitmap block for each new block, and the indirect block. */
  lemma LogsSize(sb: Super, own0: map<nat, Slot>, d: Disk, ino: Inodes, own: map<nat, Slot>, i: nat, off: nat,
      tot: nat, req: nat, l: set<nat>)
    requires Inv(sb, d, ino, own) && i < |ino|
    requires Logs(sb, own0, d, ino[i], own, i, off, tot, req, {}, l)
    ensures |l| <= Blocks(off, req) + NewBlocks(off, req) + 2
  {
    hide OwnedOk, RefsOk, BitsOk, DiskOk, InodeOk, Grown, Touched, Blocks, NewBlocks, AllThere, Bitmaps, Added, Last,
      FirstNew, IndirectAdded;
    AddedWhere(sb, d, ino, own0, own, i, FirstNew(off), Last(off, req));
    var lo, hi := off / BSIZE, Last(off, req);
    var added := Added(own0, own);
    NewSize(d, ino[i], off, req);
    BitmapsSize(sb, added);
    TouchedMost(d, ino[i], lo, Last(off, tot), hi);
    var t, t', x := Touched(d, ino[i], lo, hi), Touched(d, ino[i], FirstNew(off), hi), ino[i].addrs[NDIRECT];
    Tally(l, t, t', x, added, Bitmaps(sb, added));
  }

  lemma NothingNew(d: Disk, ip: Inode, off: nat)
    requires InodeOk(d, ip) && off / BSIZE <= MAXFILE
    ensures Last(off, 0) == off / BSIZE && Touched(d, ip, FirstNew(off), off / BSIZE) == {}
  {
  }

  // ---------------------------------------------------------- filewrite's operations

  /**
   The log_write calls of one operation stay within its reservation: it appends at most
   MAXOPBLOCKS blocks, and fewer than that before each call.
   */
  ghost predicate Fits(calls: seq<nat>) {
    && |Elems(calls)| <= MAXOPBLOCKS
    && forall k :: 0 <= k < |calls| ==> |Elems(calls[..k])| < MAXOPBLOCKS
  }

  /** What an operation may leave to end_op: calls that fit, on blocks of the file system proper. */
  ghost predicate OpOk(sb: Super, calls: seq<nat>) {
    Fits(calls) && forall b :: b in calls ==> sb.inodestart <= b < sb.size
  }

  /** Calls that end with a block not logged before. */
  lemma FitsLast(calls: seq<nat>)
    requires |calls| > 0 && |Elems(calls[..|calls| - 1])| < MAXOPBLOCKS
    ensures Fits(calls)
  {
    var pre, x := calls[..|calls| - 1], calls[|calls| - 1];
    assert Elems(calls) == Elems(pre) + {x};
    UnionSize(Elems(pre), {x});
    forall k | 0 <= k < |calls| ensures |Elems(calls[..k])| < MAXOPBLOCKS {
      assert Elems(calls[..k]) <= Elems(pre);
      SubsetSize(Elems(calls[..k]), Elems(pre));
    }
  }

  lemma ChunkCost(off: nat, n: nat)
    requires n <= CHUNK
    ensures Blocks(off, n) + NewBlocks(off, n) + 2 < MAXOPBLOCKS
  {
    var q, r := off / BSIZE, off % BSIZE;
    assert off == q * BSIZE + r;
    if n > 0 {
      assert (off + n - 1) / BSIZE <= q + 3;
      if r == 0 { assert (off + n - 1) / BSIZE <= q + 2; }
    }
  }

  // ------------------------------------------------------------------- truncation

  /** Since `calls0` the bitmap blocks of the blocks `s` were logged, and nothing else. */
  ghost predicate FreeLogs(sb: Super, calls0: seq<nat>, calls: seq<nat>, s: set<nat>) {
    calls0 <= calls && Elems(calls) == Elems(calls0) + Bitmaps(sb, s)
  }

  lemma FreeLogsNone(sb: Super, calls: seq<nat>)
    ensures FreeLogs(sb, calls, calls, {})
  {
    assert Bitmaps(sb, {}) == {};
  }

  /** bfree logs one bitmap block. */
  lemma FreeLogsOne(sb: Super, calls0: seq<nat>, calls: seq<nat>, s: set<nat>, b: nat)
    requires FreeLogs(sb, calls0, calls, s)
    ensures FreeLogs(sb, calls0, calls + [BBlock(sb, b)], s + {b})
  {
    hide BBlock, Elems;
    BitmapsJoin(sb, s, {b});
    assert Bitmaps(sb, {b}) == {BBlock(sb, b)};
    ElemsOne(calls, BBlock(sb, b));
  }

  lemma FreeLogsPrefix(sb: Super, calls0: seq<nat>, calls: seq<nat>, s: set<nat>)
    requires FreeLogs(sb, calls0, calls, s)
    ensures calls0 <= calls
  {
  }

  lemma FreeLogsJoin(sb: Super, calls0: seq<nat>, calls1: seq<nat>, calls2: seq<nat>, s: set<nat>, t: set<nat>)
    requires FreeLogs(sb, calls0, calls1, s) && FreeLogs(sb, calls1, calls2, t)
    ensures FreeLogs(sb, calls0, calls2, s + t)
  {
    hide Bitmaps;
    BitmapsJoin(sb, s, t);
  }

  /**
   The calls of an operation that truncates, which freed the blocks `s` of inode `i`, fit
   exactly when fewer than MAXOPBLOCKS bitmap blocks are involved.
   */
  lemma TruncFitsIff(sb: Super, s: set<nat>, i: nat, calls: seq<nat>)
    requires |calls| > 0 && calls[|calls| - 1] == IBlock(sb, i) && FreeLogs(sb, [], calls[..|calls| - 1], s)
    requires IBlock(sb, i) < sb.bmapstart <= sb.size && forall b :: b in s ==> BBlock(sb, b) < sb.size
    ensures OpOk(sb, calls) <==> |Bitmaps(sb, s)| < MAXOPBLOCKS
  {
    hide Bitmaps, IBlock, BBlock;
    var pre := calls[..|calls| - 1];
    ElemsNone();
    assert Elems(pre) == Bitmaps(sb, s);
    if |Bitmaps(sb, s)| < MAXOPBLOCKS {
      FitsLast(calls);
      forall b | b in calls ensures sb.inodestart <= b < sb.size {
        TruncCall(sb, s, i, b, pre, calls);
      }
    }
  }

  lemma TruncCall(sb: Super, s: set<nat>, i: nat, x: nat, pre: seq<nat>, calls: seq<nat>)
    requires calls == pre + [IBlock(sb, i)] && Elems(pre) == Bitmaps(sb, s) && x in calls
    requires IBlock(sb, i) < sb.bmapstart <= sb.size && forall b :: b in s ==> BBlock(sb, b) < sb.size
    ensures sb.inodestart <= x < sb.size
  {
    assert x in Elems(pre) || x == IBlock(sb, i);
  }

  /** On a volume with fewer than MAXOPBLOCKS bitmap blocks every truncation fits. */
  lemma SmallVolume(sb: Super, s: set<nat>)
    requires sb.size <= (MAXOPBLOCKS - 1) * BPB && forall b :: b in s ==> b < sb.size
    ensures |Bitmaps(sb, s)| < MAXOPBLOCKS
  {
    hide Interval;
    var all := Interval(sb.bmapstart, MAXOPBLOCKS - 1);
    assert Bitmaps(sb, s) <= all;
    SubsetSize(Bitmaps(sb, s), all);
  }

  /** The `n` numbers from `lo` on. */
  ghost function Interval(lo: nat, n: nat): (r: set<nat>)
    ensures |r| == n && forall x :: x in r <==> lo <= x < lo + n
  {
    if n == 0 then {} else Interval(lo, n - 1) + {lo + n - 1}
  }

  // ------------------------------------------------------------ for the methods of Fs

  /** Inode blocks lie before the bitmap. */
  ghost predicate InodeArea(sb: Super, n: nat) {
    forall i :: 0 <= i < n ==> IBlock(sb, i) < sb.bmapstart
  }

  lemma ElemsOne(s: seq<nat>, a: nat)
    ensures Elems(s + [a]) == Elems(s) + {a}
  {
  }

  lemma ElemsTwo(s: seq<nat>, a: nat, b: nat)
    ensures Elems(s + [a, b]) == Elems(s) + {a, b}
  {
  }

  lemma ElemsThree(s: seq<nat>, a: nat, b: nat, c: nat)
    ensures Elems(s + [a, b] + [c]) == Elems(s) + ({a, b} + {c})
  {
  }

  lemma FreeNotOwned(sb: Super, d: Disk, ino: Inodes, own: map<nat, Slot>, b: nat)
    requires Inv(sb, d, ino, own) && b < sb.size && !BitSet(sb, d, b)
    ensures b !in own
  {
    hide BitSet, Ref, InodeOk;
  }

  /** The two halves of bmap on an indirect block. */
  lemma BmapJoin(sb: Super, own: map<nat, Slot>, own1: map<nat, Slot>, own2: map<nat, Slot>, ip: Inode, i: nat,
      bn: nat, addr: nat)
    requires Grown(own, own1, i, 0, 0) && Grown(own1, own2, i, bn, bn + 1) && (addr == 0 ==> own2 == own1)
    requires |ip.addrs| == NDIRECT + 1
    ensures Allocs(sb, own, own2, ip) == Allocs(sb, own, own1, ip) + Allocs(sb, own1, own2, ip)
    ensures if addr == 0 then Grown(own, own2, i, 0, 0) else Grown(own, own2, i, bn, bn + 1)
  {
    AllocsJoin(sb, own, own1, own2, ip, ip);
  }

  lemma KeepsRefs(d: Disk, ino: Inodes, d': Disk, ino': Inodes, i: nat)
    requires InodesOk(d, ino) && InodesOk(d', ino') && Keeps(d, ino, d', ino') && i < |ino|
    ensures |ino'| == |ino| && InodeOk(d, ino[i]) && InodeOk(d', ino'[i]) && RefsStay(d, ino[i], d', ino'[i])
  {
    hide InodeOk, Ref;
    forall k | 0 <= k < NSLOT && Ref(d, ino[i], k) != 0 ensures Ref(d', ino'[i], k) == Ref(d, ino[i], k) {
      assert KeepsSlot(d, ino[i], d', ino'[i], k);
    }
  }

  lemma AddrsOk(d: Disk, ino: Inodes, i: nat)
    requires InodesOk(d, ino) && i < |ino|
    ensures InodeOk(d, ino[i])
  {
  }

  lemma GrownInode(sb: Super, d: Disk, ino: Inodes, own: map<nat, Slot>, i: nat, size: nat)
    requires Inv(sb, d, ino, own) && i < |ino|
    ensures InodeOk(d, ino[i]) && InodeOk(d, GrowTo(ino, i, size)[i]) && GrowTo(ino, i, size)[i].addrs == ino[i].addrs
  {
    GrowInv(sb, d, ino, own, i, size);
  }

  /** Writing to a data block changes nothing that the account speaks of. */
  lemma PatchLogs(sb: Super, own0: map<nat, Slot>, d: Disk, ino: Inodes, own: map<nat, Slot>, i: nat, o: nat,
      chunk: seq<bv8>, off: nat, tot: nat, req: nat, l0: set<nat>, l: set<nat>)
    requires Inv(sb, d, ino, own) && i < |ino| && o < MAXBYTES && o % BSIZE + |chunk| <= BSIZE
    requires Ref(d, ino[i], DataSlot(o / BSIZE)) != 0 && Logs(sb, own0, d, ino[i], own, i, off, tot, req, l0, l)
    ensures Ref(d, ino[i], DataSlot(o / BSIZE)) < |d| && |d[Ref(d, ino[i], DataSlot(o / BSIZE))]| == BSIZE
    ensures var b := Ref(d, ino[i], DataSlot(o / BSIZE));
            var d' := d[b := SpliceBlock(d[b], o % BSIZE, chunk)];
            InodeOk(d', ino[i]) && Logs(sb, own0, d', ino[i], own, i, off, tot, req, l0, l)
  {
    hide OwnedOk, RefsOk, BitsOk, InodeOk, Ref, Grown, Allocs, AllThere, Last, SpliceBlock;
    DataSlotsDiffer(o / BSIZE, 0);
    ChunkByte(sb, d, ino, own, i, o, chunk, i, o);
    var b := Ref(d, ino[i], DataSlot(o / BSIZE));
    var d' := d[b := SpliceBlock(d[b], o % BSIZE, chunk)];
    DataWriteInv(sb, d, ino, own, i, DataSlot(o / BSIZE), d'[b]);
    assert RefsStay(d, ino[i], d', ino[i]);
    TouchedStay(d, ino[i], d', ino[i], off / BSIZE, Last(off, req));
    AllThereFewer(d, ino[i], off / BSIZE, Last(off, tot), Last(off, req));
    TouchedStay(d, ino[i], d', ino[i], off / BSIZE, Last(off, tot));
  }

  lemma ElemsNone()
    ensures Elems([]) == {}
  {
  }

  /** The calls of a write of at most CHUNK bytes fit one operation. */
  lemma WriteFits(sb: Super, own0: map<nat, Slot>, d: Disk, ino: Inodes, own: map<nat, Slot>, i: nat, off: nat, n: nat,
      r: int, req: nat, calls: seq<nat>)
    requires Inv(sb, d, ino, own) && i < |ino| && n <= CHUNK && InodeArea(sb, |ino|)
    requires r == -1 ==> calls == []
    requires r != -1 ==> 0 <= r <= req <= n && |calls| > 0 && calls[|calls| - 1] == IBlock(sb, i)
    requires r != -1 ==> Logs(sb, own0, d, ino[i], own, i, off, r, req, {}, Elems(calls[..|calls| - 1]))
    ensures OpOk(sb, calls)
  {
    hide OwnedOk, RefsOk, BitsOk, InodeOk, Logs, Blocks, NewBlocks;
    if r != -1 {
      LogsAboveInodes(sb, d, ino, own, own0, i, off, r, req, Elems(calls[..|calls| - 1]));
      assert sb.inodestart <= IBlock(sb, i) < sb.bmapstart <= sb.size;
      forall b | b in calls ensures sb.inodestart <= b < sb.size {
        assert b in Elems(calls[..|calls| - 1]) || b == IBlock(sb, i);
      }
      LogsSize(sb, own0, d, ino, own, i, off, r, req, Elems(calls[..|calls| - 1]));
      Counted(off, req, n);
      ChunkCost(off, n);
      FitsLast(calls);
    } else {
      ElemsNone();
    }
  }

  /** After `k` of `n` bytes in whole chunks, `ops` operations are done. */
  predicate ChunksDone(n: nat, k: nat, ops: nat) {
    if k == n then ops == (n + CHUNK - 1) / CHUNK else k == ops * CHUNK
  }

  lemma ChunksStart(n: nat)
    ensures ChunksDone(n, 0, 0)
  {
  }

  /** One more operation on the next chunk, of which `r` bytes are written. */
  lemma ChunksMore(n: nat, k: nat, n1: nat, r: nat, ops: nat)
    requires k < n && ChunksDone(n, k, ops) && n1 == (if n - k > CHUNK then CHUNK else n - k) && r <= n1
    ensures r == n1 ==> ChunksDone(n, k + r, ops + 1)
    ensures k + r == n ==> (n + CHUNK - 1) / CHUNK == ops + 1
    ensures r < n1 ==> (k + r) / CHUNK == ops
  {
    assert CHUNK == 3072;
    assert k == ops * 3072;
    if r < n1 {
      assert (k + r) / 3072 == ops;
    }
    if k + r == n {
      assert (n + 3071) / 3072 == ops + 1;
    }
  }

  lemma ChunksEnd(n: nat, ops: nat)
    requires ChunksDone(n, n, ops)
    ensures ops == (n + CHUNK - 1) / CHUNK
  {
  }

  /** A full disk stays full when ownership only grows. */
  lemma LogsFull(sb: Super, d: Disk, ino: Inodes, own: map<nat, Slot>, d': Disk, ino': Inodes, own': map<nat, Slot>,
      i: nat, off: nat, tot: nat, req: nat)
    requires Inv(sb, d, ino, own) && Inv(sb, d', ino', own') && i < |ino'|
    requires exists l0, l :: Logs(sb, own, d', ino'[i], own', i, off, tot, req, l0, l)
    ensures Full(sb, d) ==> Full(sb, d')
  {
    hide BitSet, Ref, InodeOk, Last, FirstNew, Allocs, Touched, AllThere;
    if Full(sb, d) {
      forall x: nat | x < sb.size ensures BitSet(sb, d', x) {
        if x >= sb.dataLo {
          assert x in own;
        }
      }
    }
  }

  /** All blocks that a write logs before the inode's block lie behind the inode blocks. */
  lemma LogsAboveInodes(sb: Super, d: Disk, ino: Inodes, own: map<nat, Slot>, own0: map<nat, Slot>, i: nat, off: nat,
      tot: nat, req: nat, l: set<nat>)
    requires Inv(sb, d, ino, own) && i < |ino| && InodeArea(sb, |ino|)
    requires Logs(sb, own0, d, ino[i], own, i, off, tot, req, {}, l)
    ensures forall b :: b in l ==> sb.bmapstart <= b < sb.size && b != IBlock(sb, i)
  {
    hide BitSet, Ref, InodeOk, BitsOk, LayoutOk, BBlock, IBlock, Last, FirstNew;
    forall b | b in l ensures sb.bmapstart <= b < sb.size {
      LoggedBlock(sb, d, ino, own, own0, i, off, tot, req, l, b);
    }
  }

  lemma LoggedBlock(sb: Super, d: Disk, ino: Inodes, own: map<nat, Slot>, own0: map<nat, Slot>, i: nat, off: nat,
      tot: nat, req: nat, l: set<nat>, b: nat)
    requires Inv(sb, d, ino, own) && i < |ino| && b in l
    requires Logs(sb, own0, d, ino[i], own, i, off, tot, req, {}, l)
    ensures sb.bmapstart <= b < sb.size
  {
    hide BitSet, InodeOk, BitsOk, BBlock, Last, FirstNew;
    if b in Touched(d, ino[i], off / BSIZE, Last(off, tot)) {
      var bn :| off / BSIZE <= bn < Last(off, tot) && Ref(d, ino[i], DataSlot(bn)) == b;
      assert Ref(d, ino[i], DataSlot(bn)) in own;
    } else if b in Added(own0, own) {
      assert b in own;
    } else if b in Bitmaps(sb, Added(own0, own)) {
      var x :| x in Added(own0, own) && BBlock(sb, x) == b;
      BBlockInRange(sb, x);
    } else {
      IndirectInUse(sb, d, ino, own, own0, i, FirstNew(off), Last(off, req));
      assert Ref(d, ino[i], NDIRECT) == b;
      assert b in own;
    }
  }
}
