/**
 A file system on which a write of one byte more than filewrite's chunk size overruns the
 log's reservation: five free blocks, each in a bitmap block of its own, and a file whose
 next block is the first one behind the indirect block.
 */
module FsImage {
  import opened Collections
  import opened Params
  import opened FsSpec
  import opened FsCost
  import F = Fs

  const LO: nat := 209
  const STRIDE: nat := 8197 // a free block and the blocks of GROUP inodes
  const GROUP: nat := 683
  const TARGET: nat := 4 * GROUP
  const SIZE: nat := LO + 4 * STRIDE + 1 + NDIRECT

  function Sb(): (sb: Super) {
    Super(SIZE, 33, 204, LO)
  }

  function SpareAt(z: nat): (b: nat) {
    LO + z * STRIDE
  }

  predicate Spare(b: nat) {
    LO <= b < SIZE && (b - LO) % STRIDE == 0
  }

  /** The block in direct slot `k` of inode `i`. */
  function BlockAt(i: nat, k: nat): (b: nat) {
    LO + i / GROUP * STRIDE + 1 + i % GROUP * NDIRECT + k
  }

  function SlotAt(b: nat): (s: Slot)
    requires LO <= b < SIZE && !Spare(b)
  {
    var x := b - LO;
    Slot(GROUP * (x / STRIDE) + (x % STRIDE - 1) / NDIRECT, (x % STRIDE - 1) % NDIRECT)
  }

  lemma SlotOfBlock(i: nat, k: nat)
    requires i <= TARGET && k < NDIRECT
    ensures LO <= BlockAt(i, k) < SIZE && !Spare(BlockAt(i, k)) && SlotAt(BlockAt(i, k)) == Slot(i, k)
  {
    var z, q := i / GROUP, i % GROUP;
    var y := 1 + q * NDIRECT + k;
    assert y < STRIDE;
    var x := z * STRIDE + y;
    assert x / STRIDE == z && x % STRIDE == y;
    assert (y - 1) / NDIRECT == q && (y - 1) % NDIRECT == k;
    assert z <= 4 && (z == 4 ==> q == 0);
  }

  lemma BlockOfSlot(b: nat)
    requires LO <= b < SIZE && !Spare(b)
    ensures SlotAt(b).i <= TARGET && SlotAt(b).k < NDIRECT && BlockAt(SlotAt(b).i, SlotAt(b).k) == b
  {
    var x := b - LO;
    var z, y := x / STRIDE, x % STRIDE;
    var q := (y - 1) / NDIRECT;
    assert q < GROUP;
    var i := GROUP * z + q;
    assert i / GROUP == z && i % GROUP == q;
    assert z <= 4 && (z == 4 ==> q == 0);
  }

  function Node(i: nat): (ip: Inode) {
    var addrs := seq(NDIRECT + 1, (k: nat) => if k < NDIRECT then BlockAt(i, k) else 0);
    Inode(addrs, if i == TARGET then NDIRECT * BSIZE else 0)
  }

  function Nodes(): (ino: Inodes)
    ensures |ino| == TARGET + 1
  {
    seq(TARGET + 1, (i: nat) => Node(i))
  }

  ghost function Owners(): (own: map<nat, Slot>) {
    map b | LO <= b < SIZE && !Spare(b) :: SlotAt(b)
  }

  function Ones(): (b: Block)
    ensures |b| == BSIZE && forall x :: 0 <= x < BSIZE ==> b[x] == 0xff
  {
    seq(BSIZE, _ => 0xff)
  }

  function BlockOnDisk(b: nat): (blk: Block)
    ensures |blk| == BSIZE
  {
    if Sb().bmapstart <= b < LO then Ones() else ZeroBlock()
  }

  function AllUsed(): (d: Disk)
    ensures |d| == SIZE && forall b :: 0 <= b < SIZE ==> d[b] == BlockOnDisk(b)
  {
    seq(SIZE, (b: nat) => BlockOnDisk(b))
  }

  lemma AllUsedOk()
    ensures DiskOk(Sb(), AllUsed())
  {
    var d := AllUsed();
    forall b | 0 <= b < |d| ensures |d[b]| == BSIZE {
      assert d[b] == BlockOnDisk(b);
    }
  }

  lemma AllUsedBits(x: nat)
    requires x < SIZE
    ensures DiskOk(Sb(), AllUsed()) && BitSet(Sb(), AllUsed(), x)
  {
    AllUsedOk();
    BBlockInRange(Sb(), x);
    hide Bit, BBlock, BitByte, BitPos;
    assert AllUsed()[BBlock(Sb(), x)] == Ones();
    OnesBit(BitPos(x));
  }

  lemma OnesBit(k: nat)
    requires k < 8
    ensures Bit(0xff, k)
  {
  }

  /** The disk with the first `n` spare blocks free. */
  function Freed(n: nat): (d: Disk)
    requires n <= 5
    ensures DiskOk(Sb(), d)
  {
    AllUsedOk();
    if n == 0 then AllUsed() else
      var d := Freed(n - 1);
      MarkFreeBit(Sb(), d, SpareAt(n - 1), 0);
      MarkFree(Sb(), d, SpareAt(n - 1))
  }

  lemma {:induction false} FreedBits(n: nat, x: nat)
    requires n <= 5 && x < SIZE
    ensures BitSet(Sb(), Freed(n), x) <==> !(Spare(x) && x < SpareAt(n))
    decreases n
  {
    hide BitSet, DiskOk, MarkFree;
    if n == 0 {
      AllUsedBits(x);
    } else {
      FreedBits(n - 1, x);
      MarkFreeBit(Sb(), Freed(n - 1), SpareAt(n - 1), x);
      SparesApart(n - 1, x);
    }
  }

  lemma SparesApart(z: nat, x: nat)
    requires x < SIZE
    ensures Spare(x) && x < SpareAt(z + 1) <==> (Spare(x) && x < SpareAt(z)) || (x == SpareAt(z) && x < SIZE)
  {
    if Spare(x) {
      var q := (x - LO) / STRIDE;
      assert x == SpareAt(q);
    }
    if x == SpareAt(z) {
      assert (x - LO) % STRIDE == 0;
    }
  }

  /** References of the image: the direct blocks and nothing else. */
  lemma NodeRef(d: Disk, i: nat, k: nat)
    requires DiskOk(Sb(), d) && i <= TARGET && k < NSLOT
    ensures InodeOk(d, Nodes()[i]) && Ref(d, Nodes()[i], k) == if k < NDIRECT then BlockAt(i, k) else 0
  {
    assert Nodes()[i] == Node(i);
    forall l | 0 <= l < NDIRECT + 1 ensures Node(i).addrs[l] < |d| {
      if l < NDIRECT { SlotOfBlock(i, l); }
    }
  }

  lemma ImageOwned(d: Disk)
    requires d == Freed(5)
    ensures DiskOk(Sb(), d) && InodesOk(d, Nodes()) && OwnedOk(Sb(), d, Nodes(), Owners())
  {
    hide DiskOk, BitSet, InodeOk, Ref, Node, Nodes, Spare, Freed, BlockAt, SlotAt;
    forall i | 0 <= i < |Nodes()| ensures InodeOk(d, Nodes()[i]) {
      NodeRef(d, i, 0);
    }
    var own := Owners();
    forall b | b in own
      ensures LO <= b < SIZE && BitSet(Sb(), d, b)
      ensures own[b].i < |Nodes()| && own[b].k < NSLOT && Ref(d, Nodes()[own[b].i], own[b].k) == b
    {
      FreedBits(5, b);
      BlockOfSlot(b);
      NodeRef(d, own[b].i, own[b].k);
    }
  }

  lemma ImageRefs(d: Disk)
    requires d == Freed(5) && InodesOk(d, Nodes())
    ensures RefsOk(d, Nodes(), Owners())
  {
    hide DiskOk, BitSet, InodeOk, Ref, Node, Nodes, Spare, Freed, BlockAt, SlotAt;
    forall i, k | 0 <= i < |Nodes()| && 0 <= k < NSLOT && Ref(d, Nodes()[i], k) != 0
      ensures Ref(d, Nodes()[i], k) in Owners() && Owners()[Ref(d, Nodes()[i], k)] == Slot(i, k)
    {
      NodeRef(d, i, k);
      SlotOfBlock(i, k);
    }
  }

  lemma ImageBits(d: Disk)
    requires d == Freed(5)
    ensures BitsOk(Sb(), d, Owners())
  {
    hide DiskOk, BitSet, Freed, SlotAt;
    forall b: nat | b < SIZE ensures b < LO ==> BitSet(Sb(), d, b)
      ensures LO <= b && BitSet(Sb(), d, b) ==> b in Owners()
    {
      FreedBits(5, b);
      assert SIZE <= SpareAt(5);
    }
  }

  /** The image is a file system in order. */
  lemma ImageOk()
    ensures Inv(Sb(), Freed(5), Nodes(), Owners()) && FilesOk(Freed(5), Nodes()) && InodeArea(Sb(), |Nodes()|)
    ensures Nodes()[TARGET].size == NDIRECT * BSIZE
  {
    hide DiskOk, OwnedOk, RefsOk, BitsOk, InodeOk, Ref, BlockAt, Freed;
    var d := Freed(5);
    ImageOwned(d);
    ImageRefs(d);
    ImageBits(d);
    forall i | 0 <= i < |Nodes()| ensures NoHoles(d, Nodes()[i]) {
      assert Nodes()[i] == Node(i);
      forall bn: nat | bn < MAXFILE && bn * BSIZE < Node(i).size ensures Ref(d, Nodes()[i], DataSlot(bn)) != 0 {
        NodeRef(d, i, DataSlot(bn));
        SlotOfBlock(i, bn);
      }
    }
  }

  // ------------------------------------------------------------- what writei may do

  /** A file system: layout, blocks, inodes and the ownership of blocks. */
  datatype Volume = Volume(sb: Super, disk: Disk, ino: Inodes, own: map<nat, Slot>)

  ghost predicate InOrder(v: Volume) {
    Inv(v.sb, v.disk, v.ino, v.own) && FilesOk(v.disk, v.ino) && InodeArea(v.sb, |v.ino|)
  }

  /** A write of `n` bytes that writei does not refuse. */
  ghost predicate Writable(v: Volume, i: nat, off: nat, n: nat) {
    InOrder(v) && i < |v.ino| && off <= v.ino[i].size && off + n <= MAXBYTES
  }

  /**
   What writei promises when the whole source can be read: it leads from `v` to `v'`, writes
   `r` of `n` bytes and logs the blocks `l`.
   */
  ghost predicate Outcome(v: Volume, v': Volume, i: nat, off: nat, n: nat, r: nat, l: set<nat>) {
    && Writable(v, i, off, n) && v'.sb == v.sb && |v'.ino| == |v.ino|
    && Inv(v.sb, v'.disk, v'.ino, v'.own) && r <= n && (r < n ==> Full(v.sb, v'.disk))
    && LogsTo(v, v', i, off, r, l - {IBlock(v.sb, i)}) && IBlock(v.sb, i) in l
  }

  ghost predicate LogsTo(v: Volume, v': Volume, i: nat, off: nat, r: nat, l: set<nat>)
    requires InodesOk(v'.disk, v'.ino) && i < |v'.ino|
  {
    Logs(v.sb, v.own, v'.disk, v'.ino[i], v'.own, i, off, r, r, {}, l)
  }

  /** However writei goes about it, this write logs too much for one operation. */
  ghost predicate OverBudget(v: Volume, i: nat, off: nat, n: nat) {
    && Writable(v, i, off, n)
    && forall v', r, l :: Outcome(v, v', i, off, n, r, l) ==> |l| > MAXOPBLOCKS
  }

  lemma WithinBudget(v: Volume, v': Volume, i: nat, off: nat, n: nat, r: nat, l: set<nat>)
    requires Outcome(v, v', i, off, n, r, l) && n <= CHUNK
    ensures |l| <= MAXOPBLOCKS
  {
    hide OwnedOk, RefsOk, BitsOk, DiskOk, InodeOk, Logs, Blocks, NewBlocks, Full, InOrder, InodeArea;
    var x := IBlock(v.sb, i);
    LogsSize(v.sb, v.own, v'.disk, v'.ino, v'.own, i, off, r, r, l - {x});
    Counted(off, r, n);
    ChunkCost(off, n);
    assert l == (l - {x}) + {x};
  }

  function Spares(): (s: set<nat>) {
    {SpareAt(0), SpareAt(1), SpareAt(2), SpareAt(3), SpareAt(4)}
  }

  lemma SpareIsOne(b: nat)
    ensures Spare(b) <==> b in Spares()
    ensures |Spares()| == 5
  {
    if Spare(b) {
      var q := (b - LO) / STRIDE;
      assert b == SpareAt(q) && q <= 4;
    }
  }

  /** New blocks of the image come from the five spare ones. */
  lemma AddedSpares(d: Disk, ino: Inodes, own: map<nat, Slot>)
    requires Inv(Sb(), d, ino, own)
    ensures Added(Owners(), own) <= Spares()
  {
    hide BitSet, Ref, InodeOk, Spares, SlotAt;
    forall b | b in Added(Owners(), own) ensures b in Spares() {
      SpareIsOne(b);
    }
  }

  lemma FullAddsAll(d: Disk, ino: Inodes, own: map<nat, Slot>)
    requires Inv(Sb(), d, ino, own) && Full(Sb(), d)
    ensures Spares() <= Added(Owners(), own)
  {
    hide BitSet, Ref, InodeOk, Spares, SlotAt;
    forall b | b in Spares() ensures b in Added(Owners(), own) {
      SpareIsOne(b);
      assert BitSet(Sb(), d, b);
    }
  }

  lemma OwnersDirect()
    ensures forall b :: b in Owners() ==> Owners()[b].k < NDIRECT
  {
  }

  /** The block in an indirect slot, or in the indirect pointer, was not there before. */
  lemma IndirectIsNew(d: Disk, ino: Inodes, own: map<nat, Slot>, lo: nat, hi: nat, k: nat)
    requires Inv(Sb(), d, ino, own) && TARGET < |ino| && Grown(Owners(), own, TARGET, lo, hi)
    requires NDIRECT <= k < NSLOT && Ref(d, ino[TARGET], k) != 0
    ensures Ref(d, ino[TARGET], k) in Added(Owners(), own)
    ensures Ref(d, ino[TARGET], k) in own && own[Ref(d, ino[TARGET], k)].k == k
  {
    hide BitSet, Ref, InodeOk, OwnedOk, BitsOk;
    var b := Ref(d, ino[TARGET], k);
    assert own[b] == Slot(TARGET, k);
    OwnersDirect();
  }

  lemma PointerInUse(d: Disk, ip: Inode, k: nat)
    requires InodeOk(d, ip) && NDIRECT < k < NSLOT && Ref(d, ip, k) != 0
    ensures Ref(d, ip, NDIRECT) != 0
  {
  }

  /** Four blocks behind the indirect block take all five spare blocks. */
  lemma FourBlocksAddAll(d: Disk, ino: Inodes, own: map<nat, Slot>, lo: nat, hi: nat)
    requires Inv(Sb(), d, ino, own) && TARGET < |ino| && Grown(Owners(), own, TARGET, lo, hi)
    requires NDIRECT + 4 <= hi <= MAXFILE && AllThere(d, ino[TARGET], NDIRECT, hi)
    ensures Spares() <= Added(Owners(), own)
  {
    hide BitSet, Ref, InodeOk, OwnedOk, RefsOk, BitsOk, DiskOk, Spares, Added, Grown, Owners;
    var ip := ino[TARGET];
    forall k | 13 <= k < 17 ensures Ref(d, ip, k) != 0 {
      assert DataSlot(k - 1) == k;
    }
    PointerInUse(d, ip, 13);
    var a := Added(Owners(), own);
    forall k | 12 <= k < 17 ensures Ref(d, ip, k) in a && Ref(d, ip, k) in own && own[Ref(d, ip, k)].k == k {
      IndirectIsNew(d, ino, own, lo, hi, k);
    }
    var five := {Ref(d, ip, 12), Ref(d, ip, 13), Ref(d, ip, 14), Ref(d, ip, 15), Ref(d, ip, 16)};
    FiveDistinct(Ref(d, ip, 12), Ref(d, ip, 13), Ref(d, ip, 14), Ref(d, ip, 15), Ref(d, ip, 16));
    assert five <= a;
    SubsetSize(five, a);
    AddedSpares(d, ino, own);
    SpareIsOne(0);
    SameSize(a, Spares());
  }

  lemma FiveDistinct(a: nat, b: nat, c: nat, d: nat, e: nat)
    ensures a != b && a != c && a != d && a != e && b != c && b != d && b != e && c != d && c != e && d != e ==>
              |{a, b, c, d, e}| == 5
  {
  }

  lemma SameSize(a: set<nat>, b: set<nat>)
    requires a <= b && |b| <= |a|
    ensures b <= a
  {
    assert b == a + (b - a);
    assert |b| == |a| + |b - a|;
    assert b - a == {};
  }

  /** The five spare blocks, their five bitmap blocks and the inode's block are eleven blocks. */
  lemma Eleven(l: set<nat>)
    requires Spares() <= l && Bitmaps(Sb(), Spares()) <= l && IBlock(Sb(), TARGET) in l
    ensures |l| > MAXOPBLOCKS
  {
    SpareIsOne(0);
    var bm := {204, 205, 206, 207, 208};
    SpareBitmaps();
    hide Spares, SpareAt, Bitmaps;
    var all := Spares() + bm + {IBlock(Sb(), TARGET)};
    assert Spares() !! bm by { SparesHigh(); }
    assert |bm| == 5;
    assert |Spares() + bm| == 10;
    assert IBlock(Sb(), TARGET) !in Spares() + bm by { SparesHigh(); }
    SubsetSize(all, l);
  }

  lemma SpareBitmaps()
    ensures {204, 205, 206, 207, 208} <= Bitmaps(Sb(), Spares())
  {
    assert forall z: nat :: z < 5 ==> BBlock(Sb(), SpareAt(z)) == 204 + z;
    assert SpareAt(0) in Spares() && SpareAt(1) in Spares() && SpareAt(2) in Spares();
    assert SpareAt(3) in Spares() && SpareAt(4) in Spares();
  }

  lemma SparesHigh()
    ensures forall b :: b in Spares() ==> b >= LO
  {
  }

  lemma {:induction false} ImageOverBudget(n: nat)
    requires CHUNK < n <= MAXBYTES - NDIRECT * BSIZE
    ensures OverBudget(Volume(Sb(), Freed(5), Nodes(), Owners()), TARGET, NDIRECT * BSIZE, n)
  {
    hide Inv, FilesOk, InodeArea, Freed, Nodes, Owners, Full, LogsTo;
    ImageOk();
    var v := Volume(Sb(), Freed(5), Nodes(), Owners());
    forall v', r: nat, l | Outcome(v, v', TARGET, NDIRECT * BSIZE, n, r, l) ensures |l| > MAXOPBLOCKS {
      OutcomeTooLarge(v', n, r, l);
    }
  }

  lemma OutcomeTooLarge(v': Volume, n: nat, r: nat, l: set<nat>)
    requires CHUNK < n
    requires Outcome(Volume(Sb(), Freed(5), Nodes(), Owners()), v', TARGET, NDIRECT * BSIZE, n, r, l)
    ensures |l| > MAXOPBLOCKS
  {
    hide OwnedOk, RefsOk, BitsOk, DiskOk, InodeOk, Ref, Full, Freed, Owners, Grown, Touched, Spares, InOrder, Bitmaps;
    var off, lo := NDIRECT * BSIZE, NDIRECT;
    assert off / BSIZE == lo && off % BSIZE == 0;
    if r < n {
      FullAddsAll(v'.disk, v'.ino, v'.own);
    } else {
      assert (off + n - 1) / BSIZE >= lo + 3;
      FourBlocksAddAll(v'.disk, v'.ino, v'.own, FirstNew(off), Last(off, r));
    }
    AddedSpares(v'.disk, v'.ino, v'.own);
    assert Added(Owners(), v'.own) == Spares();
    Eleven(l);
  }

  /**
   filewrite's chunk size is exactly the largest: up to it every write on every file system
   in order stays within an operation's reservation, and beyond it some write does not,
   however it goes.
   */
  lemma ChunkExact(limit: nat)
    ensures limit <= CHUNK ==>
              forall v, v', i: nat, off: nat, n: nat, r: nat, l :: n <= limit && Outcome(v, v', i, off, n, r, l) ==>
                |l| <= MAXOPBLOCKS
    ensures limit > CHUNK ==> exists v, i: nat, off: nat, n: nat :: n <= limit && OverBudget(v, i, off, n)
  {
    hide Outcome, OverBudget, Freed, Nodes, Owners, Sb;
    if limit <= CHUNK {
      forall v, v', i: nat, off: nat, n: nat, r: nat, l | n <= limit && Outcome(v, v', i, off, n, r, l)
        ensures |l| <= MAXOPBLOCKS
      {
        WithinBudget(v, v', i, off, n, r, l);
      }
    } else {
      ImageOverBudget(CHUNK + 1);
      var v := Volume(Sb(), Freed(5), Nodes(), Owners());
      assert OverBudget(v, TARGET, NDIRECT * BSIZE, CHUNK + 1);
    }
  }

  /** Such a write, done: more than CHUNK bytes in one operation log more than MAXOPBLOCKS blocks. */
  method WriteTooMuch(src: seq<bv8>) returns (fs: F.Fs, r: int)
    requires CHUNK < |src| <= MAXBYTES - NDIRECT * BSIZE
    ensures fresh(fs) && fs.ValidFiles() && fs.inOp && 0 <= r <= |src| && |Elems(fs.calls)| > MAXOPBLOCKS
  {
    hide Inv, FilesOk, InodeArea, Full, Logs, Elems, Freed, Owners, Nodes;
    ImageOk();
    fs := new F.Fs(Sb(), Freed(5), Nodes(), Owners());
    fs.BeginOp();
    ElemsNone();
    ghost var v := Volume(fs.sb, fs.disk, fs.inodes, fs.own);
    ghost var q, req;
    r, q, req := fs.Writei(TARGET, NDIRECT * BSIZE, src, |src|);
    ghost var v' := Volume(fs.sb, fs.disk, fs.inodes, fs.own);
    ImageOverBudget(|src|);
    CallsOutcome(v, v', TARGET, NDIRECT * BSIZE, |src|, r, fs.calls);
  }

  /** The calls of writei make an outcome. */
  lemma CallsOutcome(v: Volume, v': Volume, i: nat, off: nat, n: nat, r: nat, calls: seq<nat>)
    requires Writable(v, i, off, n) && v'.sb == v.sb && |v'.ino| == |v.ino|
    requires Inv(v.sb, v'.disk, v'.ino, v'.own) && r <= n && (r < n ==> Full(v.sb, v'.disk))
    requires |calls| > 0 && calls[|calls| - 1] == IBlock(v.sb, i)
    requires LogsTo(v, v', i, off, r, Elems(calls[..|calls| - 1]))
    ensures Outcome(v, v', i, off, n, r, Elems(calls))
  {
    hide OwnedOk, RefsOk, BitsOk, DiskOk, InodeOk, Full, Logs, FilesOk;
    var pre, x := calls[..|calls| - 1], IBlock(v.sb, i);
    assert calls == pre + [x];
    ElemsOne(pre, x);
    LogsAboveInodes(v.sb, v'.disk, v'.ino, v'.own, v.own, i, off, r, r, Elems(pre));
    assert Elems(calls) - {x} == Elems(pre);
  }
}
