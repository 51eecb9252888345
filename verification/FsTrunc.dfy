/**
 A file system on which truncating one file overruns the log's reservation: its ten blocks
 lie in ten bitmap blocks.
 */
module FsTrunc {
  import opened Collections
  import opened Params
  import opened FsSpec
  import opened FsCost
  import F = Fs

  const LO: nat := 44

  function Sb(): (sb: Super) {
    Super(MAXOPBLOCKS * BPB, 33, 34, LO)
  }

  /** The k-th block of the file. */
  function BlockAt(k: nat): (b: nat) {
    LO + k * BPB
  }

  function Node(): (ip: Inode) {
    Inode(seq(NDIRECT + 1, (k: nat) => if k < MAXOPBLOCKS then BlockAt(k) else 0), MAXOPBLOCKS * BSIZE)
  }

  ghost function Owners(): (own: map<nat, Slot>) {
    map b | LO <= b < Sb().size && b % BPB == LO :: Slot(0, b / BPB)
  }

  function Zeroes(): (d: Disk)
    ensures |d| == Sb().size && forall b :: 0 <= b < |d| ==> d[b] == ZeroBlock()
  {
    seq(Sb().size, _ => ZeroBlock())
  }

  lemma ZeroesOk()
    ensures DiskOk(Sb(), Zeroes())
  {
  }

  lemma ZeroesBits(x: nat)
    requires x < Sb().size
    ensures DiskOk(Sb(), Zeroes()) && !BitSet(Sb(), Zeroes(), x)
  {
    ZeroesOk();
    BBlockInRange(Sb(), x);
    hide Bit, BBlock, BitByte, BitPos;
    assert Zeroes()[BBlock(Sb(), x)] == ZeroBlock();
    NoBit(BitPos(x));
  }

  lemma NoBit(k: nat)
    requires k < 8
    ensures !Bit(0, k)
  {
  }

  /** Block `n` of those in use: the metadata first, then the file's. */
  function UsedAt(n: nat): (b: nat)
    requires n < LO + MAXOPBLOCKS
    ensures b < Sb().size
  {
    if n < LO then n else BlockAt(n - LO)
  }

  function Used(n: nat): (d: Disk)
    requires n <= LO + MAXOPBLOCKS
    ensures DiskOk(Sb(), d)
  {
    ZeroesOk();
    if n == 0 then Zeroes() else
      var d := Used(n - 1);
      MarkUsedBit(Sb(), d, UsedAt(n - 1), 0);
      MarkUsed(Sb(), d, UsedAt(n - 1))
  }

  lemma {:induction false} UsedBits(n: nat, x: nat)
    requires n <= LO + MAXOPBLOCKS && x < Sb().size
    ensures BitSet(Sb(), Used(n), x) <==> exists j: nat :: j < n && x == UsedAt(j)
    decreases n
  {
    hide BitSet, DiskOk, MarkUsed, UsedAt;
    if n == 0 {
      ZeroesBits(x);
    } else {
      UsedBits(n - 1, x);
      MarkUsedBit(Sb(), Used(n - 1), UsedAt(n - 1), x);
    }
  }

  function Image(): (d: Disk)
    ensures DiskOk(Sb(), d)
  {
    Used(LO + MAXOPBLOCKS)
  }

  lemma ImageBit(x: nat)
    requires x < Sb().size
    ensures BitSet(Sb(), Image(), x) <==> x < LO || x % BPB == LO
  {
    hide BitSet, DiskOk, Used;
    var n := LO + MAXOPBLOCKS;
    UsedBits(n, x);
    if x < LO {
      assert x == UsedAt(x);
    } else if x % BPB == LO {
      assert x == UsedAt(LO + x / BPB);
    } else {
      forall j: nat | j < n ensures x != UsedAt(j) {
        if j >= LO { BlockPlace(j - LO); }
      }
    }
  }

  lemma BlockPlace(k: nat)
    requires k < MAXOPBLOCKS
    ensures LO <= BlockAt(k) < Sb().size && BlockAt(k) % BPB == LO && BlockAt(k) / BPB == k
  {
  }

  lemma NodeRef(d: Disk, k: nat)
    requires DiskOk(Sb(), d) && k < NSLOT
    ensures InodeOk(d, Node()) && Ref(d, Node(), k) == if k < MAXOPBLOCKS then BlockAt(k) else 0
  {
    forall l | 0 <= l < NDIRECT + 1 ensures Node().addrs[l] < |d| {
      if l < MAXOPBLOCKS { BlockPlace(l); }
    }
  }

  lemma ImageOwned()
    ensures InodesOk(Image(), [Node()]) && OwnedOk(Sb(), Image(), [Node()], Owners())
  {
    hide BitSet, DiskOk, Image, InodeOk, Ref, Node, BlockAt;
    var d, own := Image(), Owners();
    NodeRef(d, 0);
    forall b | b in own
      ensures BitSet(Sb(), d, b) && own[b].k < NSLOT && Ref(d, Node(), own[b].k) == b
    {
      ImageBit(b);
      NodeRef(d, b / BPB);
      BlockBack(b);
    }
  }

  lemma BlockBack(b: nat)
    requires LO <= b < Sb().size && b % BPB == LO
    ensures b / BPB < MAXOPBLOCKS && BlockAt(b / BPB) == b
  {
  }

  lemma ImageRefs()
    requires InodesOk(Image(), [Node()])
    ensures RefsOk(Image(), [Node()], Owners())
  {
    hide BitSet, DiskOk, Image, InodeOk, Ref, Node, BlockAt;
    var d, ino := Image(), [Node()];
    forall i, k | 0 <= i < |ino| && 0 <= k < NSLOT && Ref(d, ino[i], k) != 0
      ensures Ref(d, ino[i], k) in Owners() && Owners()[Ref(d, ino[i], k)] == Slot(i, k)
    {
      NodeRef(d, k);
      BlockPlace(k);
    }
  }

  lemma ImageBits()
    ensures BitsOk(Sb(), Image(), Owners())
  {
    hide BitSet, DiskOk, Image;
    forall b: nat | b < Sb().size
      ensures b < LO ==> BitSet(Sb(), Image(), b)
      ensures LO <= b && BitSet(Sb(), Image(), b) ==> b in Owners()
    {
      ImageBit(b);
    }
  }

  /** The image is a file system in order. */
  lemma ImageOk()
    ensures Inv(Sb(), Image(), [Node()], Owners()) && FilesOk(Image(), [Node()]) && InodeArea(Sb(), 1)
  {
    hide DiskOk, OwnedOk, RefsOk, BitsOk, InodeOk, Ref, BlockAt, Image;
    ImageOwned();
    ImageRefs();
    ImageBits();
    NodeRef(Image(), 0);
    forall bn: nat | bn < MAXFILE && bn * BSIZE < Node().size ensures Ref(Image(), Node(), DataSlot(bn)) != 0 {
      NodeRef(Image(), DataSlot(bn));
      BlockPlace(bn);
    }
  }

  lemma BitmapAt(k: nat)
    requires k < MAXOPBLOCKS
    ensures BlockAt(k) in OwnedBy(Owners(), 0, 0, NSLOT) && BBlock(Sb(), BlockAt(k)) == Sb().bmapstart + k
  {
    BlockPlace(k);
  }

  /** The blocks of the file are in as many bitmap blocks. */
  lemma TenBitmaps()
    ensures |Bitmaps(Sb(), OwnedBy(Owners(), 0, 0, NSLOT))| == MAXOPBLOCKS
  {
    hide Interval;
    var s, all := OwnedBy(Owners(), 0, 0, NSLOT), Interval(Sb().bmapstart, MAXOPBLOCKS);
    forall x | x in all ensures x in Bitmaps(Sb(), s) {
      hide BBlock, BlockAt, Owners, OwnedBy;
      BitmapAt(x - Sb().bmapstart);
    }
    assert Bitmaps(Sb(), s) == all by {
      hide BlockAt;
    }
  }

  /** An operation that truncates a file, where its blocks lie in few enough bitmap blocks. */
  method TruncateOp(fs: F.Fs, i: nat)
    requires fs.ValidFiles() && !fs.inOp && i < |fs.inodes|
    requires |Bitmaps(fs.sb, OwnedBy(fs.own, i, 0, NSLOT))| < MAXOPBLOCKS
    modifies fs
    ensures fs.ValidFiles() && !fs.inOp && |fs.ops| == |old(fs.ops)| + 1 && OpOk(fs.sb, fs.ops[|fs.ops| - 1])
    ensures Files(fs.disk, fs.inodes) == old(Files(fs.disk, fs.inodes))[i := []]
  {
    hide Files, FreeLogs, OwnedBy, Bitmaps, OpOk, BBlock, IBlock, Cleared, Disowned, FilesOk;
    ghost var s := OwnedBy(fs.own, i, 0, NSLOT);
    BitmapsInRange(fs.sb, fs.disk, fs.inodes, fs.own, i);
    fs.BeginOp();
    var panic := fs.Itrunc(i);
    TruncFitsIff(fs.sb, s, i, fs.calls);
    fs.EndOp();
  }

  lemma BitmapsInRange(sb: Super, d: Disk, ino: Inodes, own: map<nat, Slot>, i: nat)
    requires Inv(sb, d, ino, own)
    ensures sb.bmapstart <= sb.size && forall b :: b in OwnedBy(own, i, 0, NSLOT) ==> BBlock(sb, b) < sb.size
  {
    hide BBlock, BitsOk, RefsOk, InodeOk, Ref, BitSet;
    BBlockInRange(sb, 0);
    forall b | b in OwnedBy(own, i, 0, NSLOT) ensures BBlock(sb, b) < sb.size {
      BBlockInRange(sb, b);
    }
  }

  /** Truncating the file logs more than an operation may. */
  method TruncTooMuch() returns (fs: F.Fs)
    ensures fresh(fs) && fs.ValidFiles() && fs.inOp && |Elems(fs.calls)| > MAXOPBLOCKS && !OpOk(fs.sb, fs.calls)
  {
    hide Inv, FilesOk, InodeArea, Image, Node, Owners, Bitmaps, OwnedBy, BBlock;
    ImageOk();
    fs := new F.Fs(Sb(), Image(), [Node()], Owners());
    fs.BeginOp();
    var panic := fs.Itrunc(0);
    TenBitmaps();
    TooManyCalls(fs.calls, OwnedBy(Owners(), 0, 0, NSLOT));
  }

  lemma TooManyCalls(calls: seq<nat>, s: set<nat>)
    requires |calls| > 0 && calls[|calls| - 1] == IBlock(Sb(), 0) && FreeLogs(Sb(), [], calls[..|calls| - 1], s)
    requires |Bitmaps(Sb(), s)| == MAXOPBLOCKS
    ensures |Elems(calls)| > MAXOPBLOCKS && !OpOk(Sb(), calls)
  {
    var pre, x := calls[..|calls| - 1], IBlock(Sb(), 0);
    ElemsNone();
    assert Elems(pre) == Bitmaps(Sb(), s);
    assert calls == pre + [x];
    ElemsOne(pre, x);
    assert x !in Elems(pre);
  }
}
