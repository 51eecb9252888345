/** Bytes as bit vectors. */
module Bytes {
  lemma ByteRoundTrip(x: int)
    requires 0 <= x < 256
    ensures (x as bv8) as int == x
  {
  }
}

/**
 Blocks, bitmap and block references of the file system (kernel/fs.c), as values: how a
 bitmap bit and an indirect entry are stored, and what it means that every allocated data
 block has exactly one owner.
 */
module FsSpec {
  import opened Bytes

  const BSIZE: nat := 1024
  const NDIRECT: nat := 12
  const NINDIRECT: nat := 256
  const MAXFILE: nat := NDIRECT + NINDIRECT
  const BPB: nat := 8192        // bitmap bits per block
  const UINT: nat := 0x1_0000_0000

  type Block = seq<bv8>
  type Disk = seq<Block>

  /** Disk layout: `bmapstart` is the first bitmap block, data blocks are dataLo..size. */
  datatype Super = Super(size: nat, inodestart: nat, bmapstart: nat, dataLo: nat)

  datatype Inode = Inode(addrs: seq<nat>, size: nat)
  type Inodes = seq<Inode>

  function ZeroBlock(): (b: Block) {
    seq(BSIZE, _ => 0)
  }

  ghost predicate LayoutOk(sb: Super) {
    && 0 < sb.dataLo <= sb.size < UINT
    && sb.bmapstart + (sb.size - 1) / BPB + 1 <= sb.dataLo
  }

  ghost predicate DiskOk(sb: Super, d: Disk) {
    && LayoutOk(sb) && |d| == sb.size
    && forall b :: 0 <= b < |d| ==> |d[b]| == BSIZE
  }

  // ------------------------------------------------------------------- bitmap

  function Mask(k: nat): (m: bv8)
    requires k < 8
  {
    match k
    case 0 => 1 case 1 => 2 case 2 => 4 case 3 => 8
    case 4 => 16 case 5 => 32 case 6 => 64 case 7 => 128
  }

  predicate Bit(x: bv8, k: nat)
    requires k < 8
  {
    x & Mask(k) != 0
  }

  function SetBit(x: bv8, k: nat): (r: bv8)
    requires k < 8
  {
    x | Mask(k)
  }

  function ClearBit(x: bv8, k: nat): (r: bv8)
    requires k < 8
  {
    x & !Mask(k)
  }

  lemma Masks(x: bv8, k: nat, j: nat)
    requires k < 8 && j < 8
    ensures Bit(SetBit(x, k), j) == (j == k || Bit(x, j))
    ensures Bit(ClearBit(x, k), j) == (j != k && Bit(x, j))
  {
  }

  // Where the bit of block b is: its bitmap block (BBLOCK), its byte and its position.
  function BitByte(b: nat): (r: nat) ensures r < BSIZE { b % BPB / 8 }
  function BitPos(b: nat): (r: nat) ensures r < 8 { b % BPB % 8 }

  /** BBLOCK */
  function BBlock(sb: Super, b: nat): (r: nat) {
    b / BPB + sb.bmapstart
  }

  lemma BBlockInRange(sb: Super, b: nat)
    requires LayoutOk(sb) && b < sb.size
    ensures sb.bmapstart <= BBlock(sb, b) < sb.dataLo <= sb.size
  {
    assert b / BPB <= (sb.size - 1) / BPB;
  }

  ghost predicate BitSet(sb: Super, d: Disk, b: nat)
    requires DiskOk(sb, d) && b < sb.size
  {
    BBlockInRange(sb, b);
    Bit(d[BBlock(sb, b)][BitByte(b)], BitPos(b))
  }

  /** Distinct blocks have distinct bits. */
  lemma BitPlace(sb: Super, a: nat, b: nat)
    requires BBlock(sb, a) == BBlock(sb, b) && BitByte(a) == BitByte(b) && BitPos(a) == BitPos(b)
    ensures a == b
  {
    var r, s := a % BPB, b % BPB;
    assert r == r / 8 * 8 + r % 8 && s == s / 8 * 8 + s % 8;
  }

  /** Setting the bit of block `b` in its bitmap block. */
  function MarkUsed(sb: Super, d: Disk, b: nat): (r: Disk)
    requires BBlock(sb, b) < |d| && |d[BBlock(sb, b)]| == BSIZE
  {
    var blk := d[BBlock(sb, b)];
    d[BBlock(sb, b) := blk[BitByte(b) := SetBit(blk[BitByte(b)], BitPos(b))]]
  }

  function MarkFree(sb: Super, d: Disk, b: nat): (r: Disk)
    requires BBlock(sb, b) < |d| && |d[BBlock(sb, b)]| == BSIZE
  {
    var blk := d[BBlock(sb, b)];
    d[BBlock(sb, b) := blk[BitByte(b) := ClearBit(blk[BitByte(b)], BitPos(b))]]
  }

  lemma MarkUsedBit(sb: Super, d: Disk, b: nat, x: nat)
    requires DiskOk(sb, d) && b < sb.size && x < sb.size
    ensures BBlock(sb, b) < |d| && DiskOk(sb, MarkUsed(sb, d, b))
    ensures BitSet(sb, MarkUsed(sb, d, b), x) <==> x == b || BitSet(sb, d, x)
  {
    hide BBlock, BitByte, BitPos, Bit, SetBit, ClearBit, LayoutOk;
    BBlockInRange(sb, b);
    BBlockInRange(sb, x);
    Masks(d[BBlock(sb, b)][BitByte(b)], BitPos(b), BitPos(x));
    if BBlock(sb, x) == BBlock(sb, b) && BitByte(x) == BitByte(b) && BitPos(x) == BitPos(b) {
      BitPlace(sb, x, b);
    }
  }

  lemma MarkFreeBit(sb: Super, d: Disk, b: nat, x: nat)
    requires DiskOk(sb, d) && b < sb.size && x < sb.size
    ensures BBlock(sb, b) < |d| && DiskOk(sb, MarkFree(sb, d, b))
    ensures BitSet(sb, MarkFree(sb, d, b), x) <==> x != b && BitSet(sb, d, x)
  {
    hide BBlock, BitByte, BitPos, Bit, SetBit, ClearBit, LayoutOk;
    BBlockInRange(sb, b);
    BBlockInRange(sb, x);
    Masks(d[BBlock(sb, b)][BitByte(b)], BitPos(b), BitPos(x));
    if BBlock(sb, x) == BBlock(sb, b) && BitByte(x) == BitByte(b) && BitPos(x) == BitPos(b) {
      BitPlace(sb, x, b);
    }
  }

  // --------------------------------------------------------- indirect entries

  /** The j-th 32-bit entry of a block, little-endian. */
  function Word(blk: Block, j: nat): (w: nat)
    requires |blk| == BSIZE && j < NINDIRECT
    ensures w < UINT
  {
    (blk[4 * j] as int) + 256 * (blk[4 * j + 1] as int)
    + 65536 * (blk[4 * j + 2] as int) + 16777216 * (blk[4 * j + 3] as int)
  }

  function SetWord(blk: Block, j: nat, w: nat): (r: Block)
    requires |blk| == BSIZE && j < NINDIRECT && w < UINT
    ensures |r| == BSIZE
  {
    blk[4 * j := (w % 256) as bv8][4 * j + 1 := (w / 256 % 256) as bv8]
       [4 * j + 2 := (w / 65536 % 256) as bv8][4 * j + 3 := (w / 16777216) as bv8]
  }

  lemma Digits(w: nat)
    requires w < UINT
    ensures w == w % 256 + 256 * (w / 256 % 256) + 65536 * (w / 65536 % 256) + 16777216 * (w / 16777216)
    ensures w / 16777216 < 256
  {
    assert w / 65536 == w / 256 / 256;
    assert w / 16777216 == w / 65536 / 256;
  }

  lemma SetWordAt(blk: Block, j: nat, w: nat)
    requires |blk| == BSIZE && j < NINDIRECT && w < UINT
    ensures Word(SetWord(blk, j, w), j) == w
  {
    Digits(w);
    ByteRoundTrip(w % 256);
    ByteRoundTrip(w / 256 % 256);
    ByteRoundTrip(w / 65536 % 256);
    ByteRoundTrip(w / 16777216);
  }

  lemma SetWordOther(blk: Block, j: nat, w: nat, k: nat)
    requires |blk| == BSIZE && j < NINDIRECT && w < UINT && k < NINDIRECT && k != j
    ensures Word(SetWord(blk, j, w), k) == Word(blk, k)
  {
  }

  lemma ZeroWord(j: nat)
    requires j < NINDIRECT
    ensures Word(ZeroBlock(), j) == 0
  {
  }

  // --------------------------------------------------------- block references

  const NSLOT: nat := NDIRECT + 1 + NINDIRECT

  /** A place that can hold a block number: direct 0..11, indirect pointer 12, entries 13... */
  datatype Slot = Slot(i: nat, k: nat)

  /** The slot of a file's bn-th block. */
  function DataSlot(bn: nat): (k: nat) {
    if bn < NDIRECT then bn else bn + 1
  }

  ghost predicate InodeOk(d: Disk, ip: Inode) {
    && |ip.addrs| == NDIRECT + 1
    && (forall k :: 0 <= k < NDIRECT + 1 ==> ip.addrs[k] < |d|)
    && |d[ip.addrs[NDIRECT]]| == BSIZE
  }

  /** The block number in slot `k` of an inode, 0 if there is none. */
  ghost function Ref(d: Disk, ip: Inode, k: nat): (b: nat)
    requires InodeOk(d, ip) && k < NSLOT
  {
    if k <= NDIRECT then ip.addrs[k]
    else if ip.addrs[NDIRECT] == 0 then 0
    else Word(d[ip.addrs[NDIRECT]], k - NDIRECT - 1)
  }

  ghost predicate InodesOk(d: Disk, ino: Inodes) {
    forall i :: 0 <= i < |ino| ==> InodeOk(d, ino[i])
  }

  /** Every owned block is a marked data block and sits in the slot it is registered for. */
  ghost predicate OwnedOk(sb: Super, d: Disk, ino: Inodes, own: map<nat, Slot>)
    requires DiskOk(sb, d) && InodesOk(d, ino)
  {
    forall b :: b in own ==>
      && sb.dataLo <= b < sb.size && BitSet(sb, d, b)
      && own[b].i < |ino| && own[b].k < NSLOT && Ref(d, ino[own[b].i], own[b].k) == b
  }

  /** Every block number in use is registered for its slot, hence appears nowhere else. */
  ghost predicate RefsOk(d: Disk, ino: Inodes, own: map<nat, Slot>)
    requires InodesOk(d, ino)
  {
    forall i, k :: 0 <= i < |ino| && 0 <= k < NSLOT && Ref(d, ino[i], k) != 0 ==>
                     Ref(d, ino[i], k) in own && own[Ref(d, ino[i], k)] == Slot(i, k)
  }

  /** Boot block, superblock, log, inodes and bitmap are marked in use. */
  ghost predicate MetaMarked(sb: Super, d: Disk)
    requires DiskOk(sb, d)
  {
    forall b: nat :: b < sb.dataLo ==> BitSet(sb, d, b)
  }

  /** Metadata blocks are marked, and a marked data block is owned. */
  ghost predicate BitsOk(sb: Super, d: Disk, own: map<nat, Slot>)
    requires DiskOk(sb, d)
  {
    && MetaMarked(sb, d)
    && (forall b: nat :: sb.dataLo <= b < sb.size && BitSet(sb, d, b) ==> b in own)
  }

  ghost predicate Inv(sb: Super, d: Disk, ino: Inodes, own: map<nat, Slot>) {
    DiskOk(sb, d) && InodesOk(d, ino) && OwnedOk(sb, d, ino, own) && RefsOk(d, ino, own) && BitsOk(sb, d, own)
  }

  /** Each block is in at most one slot of one inode. */
  lemma OneOwner(sb: Super, d: Disk, ino: Inodes, own: map<nat, Slot>, i: nat, k: nat, j: nat, l: nat)
    requires Inv(sb, d, ino, own) && i < |ino| && j < |ino| && k < NSLOT && l < NSLOT
    requires Ref(d, ino[i], k) == Ref(d, ino[j], l) != 0
    ensures i == j && k == l
  {
    hide DiskOk, BitsOk, OwnedOk, InodeOk, Ref;
    assert own[Ref(d, ino[i], k)] == Slot(i, k);
    assert own[Ref(d, ino[j], l)] == Slot(j, l);
  }

  /** An allocated data block is in exactly one slot. */
  lemma AllocatedIsOwned(sb: Super, d: Disk, ino: Inodes, own: map<nat, Slot>, b: nat)
    requires Inv(sb, d, ino, own) && sb.dataLo <= b < sb.size
    ensures BitSet(sb, d, b) <==> exists i: nat, k: nat :: i < |ino| && k < NSLOT && Ref(d, ino[i], k) == b
  {
    hide InodeOk, Ref, BitSet;
    if BitSet(sb, d, b) {
      assert b in own;
      assert Ref(d, ino[own[b].i], own[b].k) == b;
    }
    forall i: nat, k: nat | i < |ino| && k < NSLOT && Ref(d, ino[i], k) == b ensures BitSet(sb, d, b) {
      assert b != 0;
      assert b in own;
    }
  }

  // ------------------------------------------------------------ content frames

  /** A free block comes into use: its bit is set and it is zeroed. */
  function Fresh(sb: Super, d: Disk, b: nat): (r: Disk)
    requires BBlock(sb, b) < |d| && |d[BBlock(sb, b)]| == BSIZE && b < |d|
  {
    MarkUsed(sb, d, b)[b := ZeroBlock()]
  }

  lemma FreshFacts(sb: Super, d: Disk, b: nat)
    requires DiskOk(sb, d) && sb.dataLo <= b < sb.size
    ensures BBlock(sb, b) < |d| && DiskOk(sb, Fresh(sb, d, b))
    ensures Fresh(sb, d, b)[b] == ZeroBlock()
    ensures forall x :: sb.dataLo <= x < sb.size && x != b ==> Fresh(sb, d, b)[x] == d[x]
    ensures forall x: nat :: x < sb.size ==> (BitSet(sb, Fresh(sb, d, b), x) <==> x == b || BitSet(sb, d, x))
  {
    hide BBlock, BitByte, BitPos, Bit, SetBit, LayoutOk;
    BBlockInRange(sb, b);
    var r := Fresh(sb, d, b);
    forall x: nat | x < sb.size ensures BitSet(sb, r, x) <==> x == b || BitSet(sb, d, x) {
      MarkUsedBit(sb, d, b, x);
      BBlockInRange(sb, x);
    }
  }

  // ------------------------------------------------------------- new references

  /** A block number goes into a direct slot or the indirect pointer. */
  function PutAddr(ino: Inodes, i: nat, k: nat, b: nat): (r: Inodes)
    requires i < |ino| && k < |ino[i].addrs|
  {
    ino[i := ino[i].(addrs := ino[i].addrs[k := b])]
  }

  /** What one new reference changes: slot (i, k) now holds `b`, all other slots are as before. */
  ghost predicate RefAdded(d: Disk, ino: Inodes, d': Disk, ino': Inodes, i: nat, k: nat, b: nat)
    requires InodesOk(d, ino) && InodesOk(d', ino') && |ino'| == |ino|
  {
    forall j, l :: 0 <= j < |ino| && 0 <= l < NSLOT ==>
      Ref(d', ino'[j], l) == if j == i && l == k then b else Ref(d, ino[j], l)
  }

  /** Adding a reference to a fresh block keeps the ownership invariant. */
  lemma AddedInv(sb: Super, d: Disk, ino: Inodes, own: map<nat, Slot>, d': Disk, ino': Inodes, i: nat, k: nat, b: nat)
    requires Inv(sb, d, ino, own) && DiskOk(sb, d') && InodesOk(d', ino') && |ino'| == |ino|
    requires i < |ino| && k < NSLOT && sb.dataLo <= b < sb.size && !BitSet(sb, d, b) && Ref(d, ino[i], k) == 0
    requires RefAdded(d, ino, d', ino', i, k, b)
    requires forall x: nat :: x < sb.size ==> (BitSet(sb, d', x) <==> x == b || BitSet(sb, d, x))
    ensures b !in own && Inv(sb, d', ino', own[b := Slot(i, k)])
  {
    hide InodeOk, Ref, BitSet;
    assert b !in own;
    var own' := own[b := Slot(i, k)];
    forall x | x in own'
      ensures sb.dataLo <= x < sb.size && BitSet(sb, d', x) && own'[x].i < |ino'| && own'[x].k < NSLOT
              && Ref(d', ino'[own'[x].i], own'[x].k) == x
    {
      if x != b {
        assert Ref(d, ino[own[x].i], own[x].k) == x;
      }
    }
    forall j, l | 0 <= j < |ino'| && 0 <= l < NSLOT && Ref(d', ino'[j], l) != 0
      ensures Ref(d', ino'[j], l) in own' && own'[Ref(d', ino'[j], l)] == Slot(j, l)
    {
      if !(j == i && l == k) {
        assert Ref(d, ino[j], l) in own;
      }
    }
  }

  lemma SameIndirect(d: Disk, ip: Inode, d': Disk, l: nat)
    requires InodeOk(d, ip) && InodeOk(d', ip) && l < NSLOT
    requires ip.addrs[NDIRECT] != 0 ==> d'[ip.addrs[NDIRECT]] == d[ip.addrs[NDIRECT]]
    ensures Ref(d', ip, l) == Ref(d, ip, l)
  {
  }

  /** An owned block is not the block just taken into use. */
  lemma NotFresh(sb: Super, d: Disk, ino: Inodes, own: map<nat, Slot>, j: nat, l: nat, b: nat)
    requires Inv(sb, d, ino, own) && j < |ino| && l < NSLOT && sb.dataLo <= b < sb.size && !BitSet(sb, d, b)
    ensures Ref(d, ino[j], l) != b && (Ref(d, ino[j], l) != 0 ==> sb.dataLo <= Ref(d, ino[j], l) < sb.size)
  {
    hide InodeOk, Ref, BitSet;
    if Ref(d, ino[j], l) != 0 {
      assert Ref(d, ino[j], l) in own;
    }
  }

  lemma SizesStay(sb: Super, d: Disk, d': Disk, ip: Inode)
    requires DiskOk(sb, d) && DiskOk(sb, d') && InodeOk(d, ip)
    ensures InodeOk(d', ip)
  {
  }

  /** bmap stores a fresh block in ip->addrs. */
  lemma AttachAddr(sb: Super, d: Disk, ino: Inodes, own: map<nat, Slot>, i: nat, k: nat, b: nat)
    requires Inv(sb, d, ino, own) && i < |ino| && k <= NDIRECT && sb.dataLo <= b < sb.size && !BitSet(sb, d, b)
    requires ino[i].addrs[k] == 0
    ensures BBlock(sb, b) < |d|
    ensures var d', ino' := Fresh(sb, d, b), PutAddr(ino, i, k, b);
            && Inv(sb, d', ino', own[b := Slot(i, k)])
            && RefAdded(d, ino, d', ino', i, k, b)
  {
    hide BitSet, LayoutOk, BBlock, MarkUsed, Word, ZeroBlock;
    FreshFacts(sb, d, b);
    var d', ino' := Fresh(sb, d, b), PutAddr(ino, i, k, b);
    forall j | 0 <= j < |ino| ensures InodeOk(d', ino'[j]) {
      SizesStay(sb, d, d', ino[j]);
    }
    forall j, l | 0 <= j < |ino| && 0 <= l < NSLOT
      ensures Ref(d', ino'[j], l) == if j == i && l == k then b else Ref(d, ino[j], l)
    {
      AttachedRef(sb, d, ino, own, i, k, b, d', j, l);
    }
    AddedInv(sb, d, ino, own, d', ino', i, k, b);
  }

  lemma AttachedRef(sb: Super, d: Disk, ino: Inodes, own: map<nat, Slot>, i: nat, k: nat, b: nat, d': Disk, j: nat,
      l: nat)
    requires Inv(sb, d, ino, own) && i < |ino| && k <= NDIRECT && sb.dataLo <= b < sb.size && !BitSet(sb, d, b)
    requires ino[i].addrs[k] == 0 && DiskOk(sb, d') && d'[b] == ZeroBlock()
    requires forall x :: sb.dataLo <= x < sb.size && x != b ==> d'[x] == d[x]
    requires j < |ino| && l < NSLOT && InodeOk(d', PutAddr(ino, i, k, b)[j])
    ensures Ref(d', PutAddr(ino, i, k, b)[j], l) == if j == i && l == k then b else Ref(d, ino[j], l)
  {
    hide BitSet, LayoutOk, Word, ZeroBlock, OwnedOk, RefsOk, BitsOk;
    if j == i && k == NDIRECT {
      if l > NDIRECT { ZeroWord(l - NDIRECT - 1); }
    } else {
      NotFresh(sb, d, ino, own, j, NDIRECT, b);
    }
  }

  /** bmap stores a fresh block in entry `e` of the indirect block. */
  lemma AttachEntry(sb: Super, d: Disk, ino: Inodes, own: map<nat, Slot>, i: nat, e: nat, b: nat)
    requires Inv(sb, d, ino, own) && i < |ino| && e < NINDIRECT && sb.dataLo <= b < sb.size && !BitSet(sb, d, b)
    requires ino[i].addrs[NDIRECT] != 0 && Ref(d, ino[i], NDIRECT + 1 + e) == 0
    ensures BBlock(sb, b) < |d| && ino[i].addrs[NDIRECT] < |d|
    ensures var ind := ino[i].addrs[NDIRECT];
            var d' := Fresh(sb, d, b)[ind := SetWord(d[ind], e, b)];
            && ind != b && sb.dataLo <= ind < sb.size
            && Inv(sb, d', ino, own[b := Slot(i, NDIRECT + 1 + e)])
            && RefAdded(d, ino, d', ino, i, NDIRECT + 1 + e, b)
  {
    hide BitSet, BBlock, MarkUsed, Word, SetWord, ZeroBlock;
    FreshFacts(sb, d, b);
    NotFresh(sb, d, ino, own, i, NDIRECT, b);
    var ind := ino[i].addrs[NDIRECT];
    var f := Fresh(sb, d, b);
    var d' := f[ind := SetWord(d[ind], e, b)];
    forall j | 0 <= j < |ino| ensures InodeOk(d', ino[j]) {
      SizesStay(sb, d, d', ino[j]);
    }
    forall j, l | 0 <= j < |ino| && 0 <= l < NSLOT
      ensures Ref(d', ino[j], l) == if j == i && l == NDIRECT + 1 + e then b else Ref(d, ino[j], l)
    {
      EntryRef(sb, d, ino, own, i, e, b, d', j, l);
    }
    forall x: nat | x < sb.size ensures BitSet(sb, d', x) <==> x == b || BitSet(sb, d, x) {
      SameBit(sb, f, d', x);
    }
    AddedInv(sb, d, ino, own, d', ino, i, NDIRECT + 1 + e, b);
  }

  /** Bits depend on the metadata blocks only. */
  lemma SameBit(sb: Super, d: Disk, d': Disk, x: nat)
    requires DiskOk(sb, d) && DiskOk(sb, d') && x < sb.size
    requires forall b :: 0 <= b < sb.dataLo ==> d'[b] == d[b]
    ensures BitSet(sb, d', x) <==> BitSet(sb, d, x)
  {
    hide BBlock, BitByte, BitPos, Bit;
    BBlockInRange(sb, x);
  }

  lemma EntryRef(sb: Super, d: Disk, ino: Inodes, own: map<nat, Slot>, i: nat, e: nat, b: nat, d': Disk, j: nat, l: nat)
    requires Inv(sb, d, ino, own) && i < |ino| && e < NINDIRECT && sb.dataLo <= b < sb.size && !BitSet(sb, d, b)
    requires ino[i].addrs[NDIRECT] != 0 && DiskOk(sb, d')
    requires d'[ino[i].addrs[NDIRECT]] == SetWord(d[ino[i].addrs[NDIRECT]], e, b)
    requires forall x :: sb.dataLo <= x < sb.size && x != b && x != ino[i].addrs[NDIRECT] ==> d'[x] == d[x]
    requires j < |ino| && l < NSLOT && InodeOk(d', ino[j])
    ensures Ref(d', ino[j], l) == if j == i && l == NDIRECT + 1 + e then b else Ref(d, ino[j], l)
  {
    hide BitSet, Word, SetWord, OwnedOk, RefsOk, BitsOk;
    if j == i {
      if l > NDIRECT {
        if l == NDIRECT + 1 + e { SetWordAt(d[ino[i].addrs[NDIRECT]], e, b); }
        else { SetWordOther(d[ino[i].addrs[NDIRECT]], e, b, l - NDIRECT - 1); }
      }
    } else {
      NotFresh(sb, d, ino, own, j, NDIRECT, b);
      if ino[j].addrs[NDIRECT] == ino[i].addrs[NDIRECT] && ino[j].addrs[NDIRECT] != 0 {
        OneOwner(sb, d, ino, own, i, NDIRECT, j, NDIRECT);
      }
    }
  }

  /** The bit that balloc and bfree look at is the bit of the block they mean. */
  lemma BitAt(sb: Super, d: Disk, base: nat, bi: nat)
    requires DiskOk(sb, d) && base % BPB == 0 && bi < BPB && base + bi < sb.size
    ensures BBlock(sb, base) == BBlock(sb, base + bi) < sb.dataLo <= |d| == sb.size && |d[BBlock(sb, base)]| == BSIZE
    ensures BitByte(base + bi) == bi / 8 && BitPos(base + bi) == bi % 8
    ensures BitSet(sb, d, base + bi) <==> Bit(d[BBlock(sb, base)][bi / 8], bi % 8)
  {
    hide Bit;
    BBlockInRange(sb, base + bi);
    SameBitmapBlock(base, bi);
  }

  lemma SameBitmapBlock(base: nat, bi: nat)
    requires base % BPB == 0 && bi < BPB
    ensures (base + bi) / BPB == base / BPB && (base + bi) % BPB == bi
  {
  }

  // --------------------------------------------------------------- file bytes

  const MAXBYTES: nat := MAXFILE * BSIZE

  /** Byte `a` of a file, wherever its block is; 0 where no block is allocated. */
  ghost function FByte(d: Disk, ip: Inode, a: nat): (x: bv8)
    requires InodeOk(d, ip) && a < MAXBYTES
  {
    var b := Ref(d, ip, DataSlot(a / BSIZE));
    if 0 < b < |d| && |d[b]| == BSIZE then d[b][a % BSIZE] else 0
  }

  /** The file as a byte sequence. */
  ghost function Content(d: Disk, ip: Inode): (c: seq<bv8>)
    requires InodeOk(d, ip) && ip.size <= MAXBYTES
    ensures |c| == ip.size
  {
    seq(ip.size, (a: nat) requires a < ip.size => FByte(d, ip, a))
  }

  /** Where a file's blocks are: the first twelve in the inode, the rest in the indirect block. */
  lemma FileBlock(d: Disk, ip: Inode, bn: nat)
    requires InodeOk(d, ip) && bn < MAXFILE
    ensures bn < 12 ==> Ref(d, ip, DataSlot(bn)) == ip.addrs[bn]
    ensures bn >= 12 && ip.addrs[12] == 0 ==> Ref(d, ip, DataSlot(bn)) == 0
    ensures bn >= 12 && ip.addrs[12] != 0 ==> Ref(d, ip, DataSlot(bn)) == Word(d[ip.addrs[12]], bn - 12)
  {
  }

  /** Every block below the end of the file is allocated. */
  ghost predicate NoHoles(d: Disk, ip: Inode)
    requires InodeOk(d, ip)
  {
    && ip.size <= MAXBYTES
    && forall bn: nat :: bn < MAXFILE && bn * BSIZE < ip.size ==> Ref(d, ip, DataSlot(bn)) != 0
  }

  ghost predicate FilesOk(d: Disk, ino: Inodes)
    requires InodesOk(d, ino)
  {
    forall i :: 0 <= i < |ino| ==> NoHoles(d, ino[i])
  }

  /** References in use stay, and the data blocks behind them keep their contents. */
  ghost predicate Keeps(d: Disk, ino: Inodes, d': Disk, ino': Inodes)
    requires InodesOk(d, ino) && InodesOk(d', ino')
  {
    && |ino'| == |ino| && |d'| == |d|
    && (forall j :: 0 <= j < |ino| ==> ino'[j].size == ino[j].size)
    && forall j, l :: 0 <= j < |ino| && 0 <= l < NSLOT && Ref(d, ino[j], l) != 0 ==>
         KeepsSlot(d, ino[j], d', ino'[j], l)
  }

  ghost predicate KeepsSlot(d: Disk, ip: Inode, d': Disk, ip': Inode, l: nat)
    requires InodeOk(d, ip) && InodeOk(d', ip') && l < NSLOT
  {
    var b := Ref(d, ip, l);
    Ref(d', ip', l) == b && (l != NDIRECT ==> b < |d| && b < |d'| && d'[b] == d[b])
  }

  lemma KeepsSelf(sb: Super, d: Disk, ino: Inodes, own: map<nat, Slot>)
    requires Inv(sb, d, ino, own)
    ensures Keeps(d, ino, d, ino)
  {
    hide BitSet, InodeOk, Ref, LayoutOk;
    forall j, l | 0 <= j < |ino| && 0 <= l < NSLOT && Ref(d, ino[j], l) != 0
      ensures KeepsSlot(d, ino[j], d, ino[j], l)
    {
      assert Ref(d, ino[j], l) in own;
    }
  }

  lemma KeepsTrans(d: Disk, ino: Inodes, d1: Disk, ino1: Inodes, d2: Disk, ino2: Inodes)
    requires InodesOk(d, ino) && InodesOk(d1, ino1) && InodesOk(d2, ino2)
    requires Keeps(d, ino, d1, ino1) && Keeps(d1, ino1, d2, ino2)
    ensures Keeps(d, ino, d2, ino2)
  {
    hide InodeOk, Ref;
    forall j, l | 0 <= j < |ino| && 0 <= l < NSLOT && Ref(d, ino[j], l) != 0
      ensures KeepsSlot(d, ino[j], d2, ino2[j], l)
    {
      assert KeepsSlot(d, ino[j], d1, ino1[j], l);
      assert KeepsSlot(d1, ino1[j], d2, ino2[j], l);
    }
  }

  lemma AttachAddrKeeps(sb: Super, d: Disk, ino: Inodes, own: map<nat, Slot>, i: nat, k: nat, b: nat)
    requires Inv(sb, d, ino, own) && i < |ino| && k <= NDIRECT && sb.dataLo <= b < sb.size && !BitSet(sb, d, b)
    requires ino[i].addrs[k] == 0
    ensures BBlock(sb, b) < |d|
    ensures var d', ino' := Fresh(sb, d, b), PutAddr(ino, i, k, b);
            InodesOk(d', ino') && Keeps(d, ino, d', ino') && d'[b] == ZeroBlock()
  {
    hide BitSet, LayoutOk, BBlock, MarkUsed, Word, ZeroBlock, OwnedOk, RefsOk, BitsOk;
    AttachAddr(sb, d, ino, own, i, k, b);
    FreshFacts(sb, d, b);
    var d', ino' := Fresh(sb, d, b), PutAddr(ino, i, k, b);
    forall j, l | 0 <= j < |ino| && 0 <= l < NSLOT && Ref(d, ino[j], l) != 0
      ensures KeepsSlot(d, ino[j], d', ino'[j], l)
    {
      NotFresh(sb, d, ino, own, j, l, b);
    }
  }

  lemma AttachEntryKeeps(sb: Super, d: Disk, ino: Inodes, own: map<nat, Slot>, i: nat, e: nat, b: nat)
    requires Inv(sb, d, ino, own) && i < |ino| && e < NINDIRECT && sb.dataLo <= b < sb.size && !BitSet(sb, d, b)
    requires ino[i].addrs[NDIRECT] != 0 && Ref(d, ino[i], NDIRECT + 1 + e) == 0
    ensures BBlock(sb, b) < |d| && ino[i].addrs[NDIRECT] < |d|
    ensures var d' := Fresh(sb, d, b)[ino[i].addrs[NDIRECT] := SetWord(d[ino[i].addrs[NDIRECT]], e, b)];
            InodesOk(d', ino) && Keeps(d, ino, d', ino) && d'[b] == ZeroBlock()
  {
    hide BitSet, LayoutOk, BBlock, MarkUsed, Word, SetWord, ZeroBlock, OwnedOk, RefsOk, BitsOk;
    AttachEntry(sb, d, ino, own, i, e, b);
    FreshFacts(sb, d, b);
    var ind := ino[i].addrs[NDIRECT];
    var d' := Fresh(sb, d, b)[ind := SetWord(d[ind], e, b)];
    forall j, l | 0 <= j < |ino| && 0 <= l < NSLOT && Ref(d, ino[j], l) != 0
      ensures KeepsSlot(d, ino[j], d', ino[j], l)
    {
      NotFresh(sb, d, ino, own, j, l, b);
      if Ref(d, ino[j], l) == ind {
        OneOwner(sb, d, ino, own, i, NDIRECT, j, l);
      }
    }
  }

  lemma SplitBit(sb: Super, d: Disk, b: nat)
    requires DiskOk(sb, d) && b < sb.size
    ensures BBlock(sb, b) < |d| && |d[BBlock(sb, b)]| == BSIZE
    ensures BitByte(b) == b % BPB / 8 && BitPos(b) == b % BPB % 8
    ensures BitSet(sb, d, b) <==> Bit(d[BBlock(sb, b)][b % BPB / 8], b % BPB % 8)
  {
    hide Bit;
    BBlockInRange(sb, b);
  }

  // ---------------------------------------------------------- writing file data

  /** Overwrite part of a block. */
  function SpliceBlock(blk: Block, off: nat, chunk: seq<bv8>): (r: Block)
    requires off + |chunk| <= |blk|
    ensures |r| == |blk|
    ensures forall x :: 0 <= x < |blk| ==> r[x] == if off <= x < off + |chunk| then chunk[x - off] else blk[x]
  {
    blk[..off] + chunk + blk[off + |chunk|..]
  }

  /** Writing to a file's own data block disturbs neither bitmap nor references. */
  lemma DataWriteInv(sb: Super, d: Disk, ino: Inodes, own: map<nat, Slot>, i: nat, l: nat, blk: Block)
    requires Inv(sb, d, ino, own) && i < |ino| && l < NSLOT && l != NDIRECT && Ref(d, ino[i], l) != 0 && |blk| == BSIZE
    ensures sb.dataLo <= Ref(d, ino[i], l) < sb.size == |d|
    ensures var d' := d[Ref(d, ino[i], l) := blk];
            && Inv(sb, d', ino, own)
            && forall j, k :: 0 <= j < |ino| && 0 <= k < NSLOT ==> Ref(d', ino[j], k) == Ref(d, ino[j], k)
  {
    hide BitSet, Word;
    var b := Ref(d, ino[i], l);
    assert b in own;
    var d' := d[b := blk];
    forall j | 0 <= j < |ino| ensures InodeOk(d', ino[j]) {
      SizesStay(sb, d, d', ino[j]);
    }
    forall j, k | 0 <= j < |ino| && 0 <= k < NSLOT ensures Ref(d', ino[j], k) == Ref(d, ino[j], k) {
      if ino[j].addrs[NDIRECT] == b {
        OneOwner(sb, d, ino, own, i, l, j, NDIRECT);
      }
      SameIndirect(d, ino[j], d', k);
    }
    SameRefsInv(sb, d, ino, own, d');
  }

  lemma SameRefsInv(sb: Super, d: Disk, ino: Inodes, own: map<nat, Slot>, d': Disk)
    requires Inv(sb, d, ino, own) && DiskOk(sb, d') && InodesOk(d', ino)
    requires forall b :: 0 <= b < sb.dataLo ==> d'[b] == d[b]
    requires forall j, k :: 0 <= j < |ino| && 0 <= k < NSLOT ==> Ref(d', ino[j], k) == Ref(d, ino[j], k)
    ensures Inv(sb, d', ino, own)
  {
    hide BitSet, Ref, InodeOk;
    forall x: nat | x < sb.size ensures BitSet(sb, d', x) <==> BitSet(sb, d, x) {
      SameBit(sb, d, d', x);
    }
  }

  /** `tot` bytes of `src` were written to file `i` from `off` on; everything else is as in (d0, ino0). */
  ghost predicate Written(d0: Disk, ino0: Inodes, d: Disk, ino: Inodes, i: nat, off: nat, src: seq<bv8>, tot: nat)
    requires InodesOk(d0, ino0) && InodesOk(d, ino) && tot <= |src| && off + |src| <= MAXBYTES
  {
    && |ino| == |ino0| && i < |ino|
    && (forall j :: 0 <= j < |ino| ==> ino[j].size == ino0[j].size)
    && (forall j, l :: 0 <= j < |ino| && 0 <= l < NSLOT && Ref(d0, ino0[j], l) != 0 ==>
          Ref(d, ino[j], l) == Ref(d0, ino0[j], l))
    && (forall a :: off <= a < off + tot ==>
          Ref(d, ino[i], DataSlot(a / BSIZE)) != 0 && FByte(d, ino[i], a) == src[a - off])
    && (forall j, a: nat :: 0 <= j < |ino| && a < MAXBYTES && !(j == i && off <= a < off + tot) ==>
          Ref(d0, ino0[j], DataSlot(a / BSIZE)) != 0 ==> FByte(d, ino[j], a) == FByte(d0, ino0[j], a))
  }

  lemma WrittenNone(d: Disk, ino: Inodes, i: nat, off: nat, src: seq<bv8>)
    requires InodesOk(d, ino) && i < |ino| && off + |src| <= MAXBYTES
    ensures Written(d, ino, d, ino, i, off, src, 0)
  {
  }

  lemma KeepsByte(d: Disk, ip: Inode, d': Disk, ip': Inode, a: nat)
    requires InodeOk(d, ip) && InodeOk(d', ip') && |d'| == |d| && a < MAXBYTES && Ref(d, ip, DataSlot(a / BSIZE)) != 0
    requires KeepsSlot(d, ip, d', ip', DataSlot(a / BSIZE))
    ensures Ref(d', ip', DataSlot(a / BSIZE)) == Ref(d, ip, DataSlot(a / BSIZE)) && FByte(d', ip', a) == FByte(d, ip, a)
  {
    hide InodeOk, Ref;
  }

  /** bmap does not disturb what has been written. */
  lemma WrittenKeeps(d0: Disk, ino0: Inodes, d: Disk, ino: Inodes, i: nat, off: nat, src: seq<bv8>, tot: nat,
      d': Disk, ino': Inodes)
    requires InodesOk(d0, ino0) && InodesOk(d, ino) && InodesOk(d', ino') && tot <= |src| && off + |src| <= MAXBYTES
    requires Written(d0, ino0, d, ino, i, off, src, tot) && Keeps(d, ino, d', ino')
    ensures Written(d0, ino0, d', ino', i, off, src, tot)
  {
    hide InodeOk, Ref, FByte;
    forall j, l | 0 <= j < |ino| && 0 <= l < NSLOT && Ref(d0, ino0[j], l) != 0
      ensures Ref(d', ino'[j], l) == Ref(d0, ino0[j], l)
    {
      assert KeepsSlot(d, ino[j], d', ino'[j], l);
    }
    forall j, a: nat | 0 <= j < |ino| && a < MAXBYTES && Ref(d, ino[j], DataSlot(a / BSIZE)) != 0
      ensures Ref(d', ino'[j], DataSlot(a / BSIZE)) == Ref(d, ino[j], DataSlot(a / BSIZE))
          && FByte(d', ino'[j], a) == FByte(d, ino[j], a)
    {
      assert KeepsSlot(d, ino[j], d', ino'[j], DataSlot(a / BSIZE));
      KeepsByte(d, ino[j], d', ino'[j], a);
    }
  }

  lemma DataSlotsDiffer(bn: nat, bm: nat)
    ensures DataSlot(bn) == DataSlot(bm) <==> bn == bm
    ensures DataSlot(bn) != NDIRECT && (bn < MAXFILE <==> DataSlot(bn) < NSLOT)
  {
  }

  /** The effect of one data-block write on every byte of every file. */
  lemma ChunkByte(sb: Super, d: Disk, ino: Inodes, own: map<nat, Slot>, i: nat, o: nat, chunk: seq<bv8>, j: nat, a: nat)
    requires Inv(sb, d, ino, own) && i < |ino| && j < |ino| && o < MAXBYTES && a < MAXBYTES
    requires o % BSIZE + |chunk| <= BSIZE && Ref(d, ino[i], DataSlot(o / BSIZE)) != 0
    ensures Ref(d, ino[i], DataSlot(o / BSIZE)) < |d| && |d[Ref(d, ino[i], DataSlot(o / BSIZE))]| == BSIZE
    ensures var b := Ref(d, ino[i], DataSlot(o / BSIZE));
            var d' := d[b := SpliceBlock(d[b], o % BSIZE, chunk)];
            && InodesOk(d', ino)
            && FByte(d', ino[j], a) == if j == i && o <= a < o + |chunk| then chunk[a - o] else FByte(d, ino[j], a)
  {
    hide BitSet, Word, InodeOk, Ref, OwnedOk, BitsOk, LayoutOk, SpliceBlock;
    DataSlotsDiffer(o / BSIZE, a / BSIZE);
    var b := Ref(d, ino[i], DataSlot(o / BSIZE));
    assert b in own by { assert own[b] == Slot(i, DataSlot(o / BSIZE)); }
    OwnedRange(sb, d, ino, own, b);
    var d' := d[b := SpliceBlock(d[b], o % BSIZE, chunk)];
    DataWriteInv(sb, d, ino, own, i, DataSlot(o / BSIZE), d'[b]);
    if Ref(d, ino[j], DataSlot(a / BSIZE)) == b {
      OneOwner(sb, d, ino, own, i, DataSlot(o / BSIZE), j, DataSlot(a / BSIZE));
      SameBlockBytes(o, a, |chunk|);
    } else {
      if j == i { NotInChunk(o, a, |chunk|); }
    }
  }

  lemma OwnedRange(sb: Super, d: Disk, ino: Inodes, own: map<nat, Slot>, b: nat)
    requires Inv(sb, d, ino, own) && b in own
    ensures 0 < sb.dataLo <= b < |d| == sb.size && |d[b]| == BSIZE
  {
  }

  lemma SameBlockBytes(o: nat, a: nat, n: nat)
    requires o / BSIZE == a / BSIZE && o % BSIZE + n <= BSIZE
    ensures (o <= a < o + n <==> o % BSIZE <= a % BSIZE < o % BSIZE + n) && a % BSIZE - o % BSIZE == a - o
  {
  }

  lemma NotInChunk(o: nat, a: nat, n: nat)
    requires o / BSIZE != a / BSIZE && o % BSIZE + n <= BSIZE
    ensures !(o <= a < o + n)
  {
  }

  /** One pass of writei's loop after bmap. */
  lemma WrittenChunk(sb: Super, d0: Disk, ino0: Inodes, d: Disk, ino: Inodes, own: map<nat, Slot>, i: nat,
      off: nat, src: seq<bv8>, tot: nat, m: nat)
    requires InodesOk(d0, ino0) && Inv(sb, d, ino, own) && tot + m <= |src| && off + |src| <= MAXBYTES
    requires Written(d0, ino0, d, ino, i, off, src, tot) && m > 0
    requires (off + tot) % BSIZE + m <= BSIZE && Ref(d, ino[i], DataSlot((off + tot) / BSIZE)) != 0
    ensures Ref(d, ino[i], DataSlot((off + tot) / BSIZE)) < |d|
        && |d[Ref(d, ino[i], DataSlot((off + tot) / BSIZE))]| == BSIZE
    ensures var b := Ref(d, ino[i], DataSlot((off + tot) / BSIZE));
            var d' := d[b := SpliceBlock(d[b], (off + tot) % BSIZE, src[tot..tot + m])];
            Inv(sb, d', ino, own) && Written(d0, ino0, d', ino, i, off, src, tot + m)
  {
    hide BitSet, Word, InodeOk, Ref, FByte, OwnedOk, BitsOk, RefsOk, LayoutOk, SpliceBlock;
    var o, chunk := off + tot, src[tot..tot + m];
    DataSlotsDiffer(o / BSIZE, 0);
    ChunkByte(sb, d, ino, own, i, o, chunk, i, o);
    var b := Ref(d, ino[i], DataSlot(o / BSIZE));
    var d' := d[b := SpliceBlock(d[b], o % BSIZE, chunk)];
    DataWriteInv(sb, d, ino, own, i, DataSlot(o / BSIZE), d'[b]);
    forall j, a: nat | 0 <= j < |ino| && a < MAXBYTES
      ensures FByte(d', ino[j], a) == if j == i && o <= a < o + m then chunk[a - o] else FByte(d, ino[j], a)
    {
      ChunkByte(sb, d, ino, own, i, o, chunk, j, a);
    }
    forall a | off <= a < off + tot + m
      ensures Ref(d', ino[i], DataSlot(a / BSIZE)) != 0 && FByte(d', ino[i], a) == src[a - off]
    {
      DataSlotsDiffer(a / BSIZE, 0);
      if a >= o { InChunk(o, a, m); }
    }
    forall j, a: nat | 0 <= j < |ino| && a < MAXBYTES && !(j == i && off <= a < off + tot + m)
        && Ref(d0, ino0[j], DataSlot(a / BSIZE)) != 0
      ensures FByte(d', ino[j], a) == FByte(d0, ino0[j], a)
    {
    }
  }

  lemma InChunk(o: nat, a: nat, n: nat)
    requires o <= a < o + n && o % BSIZE + n <= BSIZE
    ensures o / BSIZE == a / BSIZE
  {
  }

  /** No block is free. */
  ghost predicate Full(sb: Super, d: Disk)
    requires DiskOk(sb, d)
  {
    forall x: nat :: x < sb.size ==> BitSet(sb, d, x)
  }

  /** `s` laid over the contents from `off` on. */
  function Splice(c: seq<bv8>, off: nat, s: seq<bv8>): (r: seq<bv8>)
    requires off <= |c|
    ensures |r| == if off + |s| > |c| then off + |s| else |c|
  {
    c[..off] + s + (if off + |s| < |c| then c[off + |s|..] else [])
  }

  /**
   `s` laid over the contents from `off` on, in a file whose size counts only the first
   `len` bytes of it.
   */
  function Laid(c: seq<bv8>, off: nat, s: seq<bv8>, len: nat): (r: seq<bv8>)
    requires off <= |c| && len <= |s|
    ensures |r| == if off + len > |c| then off + len else |c|
  {
    Splice(c, off, s)[..if off + len > |c| then off + len else |c|]
  }

  /** Byte by byte: what was laid over the contents, and the old contents elsewhere. */
  lemma LaidIs(c: seq<bv8>, off: nat, s: seq<bv8>, len: nat)
    requires off <= |c| && len <= |s|
    ensures |Laid(c, off, s, len)| == if off + len > |c| then off + len else |c|
    ensures forall x :: 0 <= x < |Laid(c, off, s, len)| ==>
              (off <= x < off + |s| ==> Laid(c, off, s, len)[x] == s[x - off])
              && (x < off || off + |s| <= x ==> x < |c| && Laid(c, off, s, len)[x] == c[x])
  {
  }

  lemma LaidAll(c: seq<bv8>, off: nat, s: seq<bv8>)
    requires off <= |c|
    ensures Laid(c, off, s, |s|) == Splice(c, off, s)
  {
  }

  /**
   What is laid over the contents is no more than the counted bytes, whatever they are,
   exactly when all of them are counted or the count reaches the end of the file.
   */
  lemma LaidIff(c: seq<bv8>, off: nat, n: nat, len: nat)
    requires off <= |c| && len <= n
    ensures (forall s: seq<bv8> :: |s| == n ==> Laid(c, off, s, len) == Splice(c, off, s[..len])) <==>
            len == n || off + len >= |c|
  {
    if len == n || off + len >= |c| {
      forall s: seq<bv8> | |s| == n ensures Laid(c, off, s, len) == Splice(c, off, s[..len]) {
        if len == n { assert s[..len] == s; }
      }
    } else {
      var s := seq(n, _ => !c[off + len]);
      assert Laid(c, off, s, len)[off + len] == s[len];
      assert Splice(c, off, s[..len])[off + len] == c[off + len];
      BitsDiffer(c[off + len]);
    }
  }

  lemma BitsDiffer(x: bv8)
    ensures !x != x
  {
  }

  /** Raise the size of file `i` to `size`. */
  function GrowTo(ino: Inodes, i: nat, size: nat): (r: Inodes)
    requires i < |ino|
  {
    if size > ino[i].size then ino[i := ino[i].(size := size)] else ino
  }

  /** The size field plays no part in block ownership. */
  lemma GrowInv(sb: Super, d: Disk, ino: Inodes, own: map<nat, Slot>, i: nat, size: nat)
    requires Inv(sb, d, ino, own) && i < |ino|
    ensures Inv(sb, d, GrowTo(ino, i, size), own)
  {
    hide BitSet, Word;
    var ino' := GrowTo(ino, i, size);
    forall j | 0 <= j < |ino| ensures InodeOk(d, ino'[j]) && ino'[j].addrs == ino[j].addrs {
      assert InodeOk(d, ino[j]);
    }
    forall j, k | 0 <= j < |ino| && 0 <= k < NSLOT ensures Ref(d, ino'[j], k) == Ref(d, ino[j], k) {
    }
  }

  lemma SameAddrs(d: Disk, ip: Inode, ip': Inode, l: nat)
    requires InodeOk(d, ip) && InodeOk(d, ip') && ip'.addrs == ip.addrs && l < NSLOT
    ensures Ref(d, ip', l) == Ref(d, ip, l)
  {
  }

  /** The end of writei: every file has the contents it should, and still no holes. */
  lemma WrittenContent(d0: Disk, ino0: Inodes, d: Disk, ino: Inodes, i: nat, off: nat, src: seq<bv8>, tot: nat,
      len: nat, j: nat)
    requires InodesOk(d0, ino0) && FilesOk(d0, ino0) && InodesOk(d, ino) && tot <= |src| && off + |src| <= MAXBYTES
    requires Written(d0, ino0, d, ino, i, off, src, tot) && off <= ino0[i].size && j < |ino| && len <= tot
    requires InodesOk(d, GrowTo(ino, i, off + len))
    ensures NoHoles(d, GrowTo(ino, i, off + len)[j]) && NoHoles(d0, ino0[j])
    ensures Content(d, GrowTo(ino, i, off + len)[j]) ==
              if j == i then Laid(Content(d0, ino0[i]), off, src[..tot], len) else Content(d0, ino0[j])
  {
    hide InodeOk, Ref, FByte, NoHoles;
    var ip := GrowTo(ino, i, off + len)[j];
    WrittenNoHoles(d0, ino0, d, ino, i, off, src, tot, len, j);
    NoHolesSize(d0, ino0[j]);
    var want := if j == i then Laid(Content(d0, ino0[i]), off, src[..tot], len) else Content(d0, ino0[j]);
    assert |Content(d, ip)| == |want|;
    forall a | 0 <= a < |want| ensures Content(d, ip)[a] == want[a] {
      WrittenByte(d0, ino0, d, ino, i, off, src, tot, len, j, a);
      assert Content(d, ip)[a] == FByte(d, ip, a);
    }
  }

  lemma NoHolesSize(d: Disk, ip: Inode)
    requires InodeOk(d, ip) && NoHoles(d, ip)
    ensures ip.size <= MAXBYTES
  {
  }

  lemma WrittenByte(d0: Disk, ino0: Inodes, d: Disk, ino: Inodes, i: nat, off: nat, src: seq<bv8>, tot: nat,
      len: nat, j: nat, a: nat)
    requires InodesOk(d0, ino0) && FilesOk(d0, ino0) && InodesOk(d, ino) && tot <= |src| && off + |src| <= MAXBYTES
    requires Written(d0, ino0, d, ino, i, off, src, tot) && off <= ino0[i].size && j < |ino| && len <= tot
    requires InodesOk(d, GrowTo(ino, i, off + len))
    requires a < GrowTo(ino, i, off + len)[j].size && a < MAXBYTES
    ensures var ip := GrowTo(ino, i, off + len)[j];
            && Ref(d, ip, DataSlot(a / BSIZE)) != 0
            && FByte(d, ip, a) == if j == i && off <= a < off + tot then src[a - off] else FByte(d0, ino0[j], a)
  {
    hide InodeOk, Ref, FByte, NoHoles;
    var ip := GrowTo(ino, i, off + len)[j];
    DataSlotsDiffer(a / BSIZE, 0);
    SameAddrs(d, ino[j], ip, DataSlot(a / BSIZE));
    SameAddrsByte(d, ino[j], ip, a);
    if !(j == i && off <= a < off + tot) {
      AllocatedBelow(d0, ino0[j], a);
    }
  }

  lemma WrittenNoHoles(d0: Disk, ino0: Inodes, d: Disk, ino: Inodes, i: nat, off: nat, src: seq<bv8>, tot: nat,
      len: nat, j: nat)
    requires InodesOk(d0, ino0) && FilesOk(d0, ino0) && InodesOk(d, ino) && tot <= |src| && off + |src| <= MAXBYTES
    requires Written(d0, ino0, d, ino, i, off, src, tot) && off <= ino0[i].size && j < |ino| && len <= tot
    requires InodesOk(d, GrowTo(ino, i, off + len))
    ensures NoHoles(d, GrowTo(ino, i, off + len)[j]) && NoHoles(d0, ino0[j])
  {
    hide InodeOk, Ref, FByte;
    assert NoHoles(d0, ino0[j]);
    var ip := GrowTo(ino, i, off + len)[j];
    forall bn: nat | bn < MAXFILE && bn * BSIZE < ip.size ensures Ref(d, ip, DataSlot(bn)) != 0 {
      assert bn * BSIZE / BSIZE == bn;
      WrittenByte(d0, ino0, d, ino, i, off, src, tot, len, j, bn * BSIZE);
    }
  }

  lemma SameAddrsByte(d: Disk, ip: Inode, ip': Inode, a: nat)
    requires InodeOk(d, ip) && InodeOk(d, ip') && ip'.addrs == ip.addrs && a < MAXBYTES
    ensures FByte(d, ip', a) == FByte(d, ip, a)
  {
    hide InodeOk, Ref;
    DataSlotsDiffer(a / BSIZE, 0);
    SameAddrs(d, ip, ip', DataSlot(a / BSIZE));
  }

  /** The block of a byte below the end of the file is allocated. */
  lemma AllocatedBelow(d: Disk, ip: Inode, a: nat)
    requires InodeOk(d, ip) && NoHoles(d, ip) && a < ip.size
    ensures a < MAXBYTES && Ref(d, ip, DataSlot(a / BSIZE)) != 0
  {
    hide InodeOk, Ref;
    var bn := a / BSIZE;
    assert bn * BSIZE <= a;
    assert bn < MAXFILE;
  }

  // --------------------------------------------- blocks logged by one write

  /** The number of blocks that bytes off..off+n lie in. */
  function Blocks(off: nat, n: nat): (r: nat) {
    if n == 0 then 0 else (off + n - 1) / BSIZE - off / BSIZE + 1
  }

  function IBlock(sb: Super, i: nat): (b: nat) {
    i / 16 + sb.inodestart
  }

  /** Of the touched blocks the first was there already if the write starts inside it. */
  function NewBlocks(off: nat, n: nat): (r: nat) {
    if off % BSIZE != 0 && n > 0 then Blocks(off, n) - 1 else Blocks(off, n)
  }

  function Some(b: nat): (r: set<nat>) {
    if b == 0 then {} else {b}
  }

  /** 32-bit wrap-around of off + n happens only far beyond the largest file. */
  lemma WrapsOnlyWhenLarge(off: nat, n: nat)
    requires off < UINT && n < UINT
    ensures (off + n) % UINT < off <==> off + n >= UINT
    ensures off + n < UINT ==> (off + n) % UINT == off + n
    ensures off + n >= UINT ==> off + n > MAXBYTES
  {
  }

  lemma CountNone(off: nat)
    ensures Blocks(off, 0) == 0 && NewBlocks(off, 0) == 0
  {
  }

  /** One more chunk, up to the end of its block at most, touches one more block. */
  lemma CountMore(off: nat, tot: nat, m: nat)
    requires m > 0 && (off + tot) % BSIZE + m <= BSIZE && (tot > 0 ==> (off + tot) % BSIZE == 0)
    ensures Blocks(off, tot + m) == Blocks(off, tot) + 1
    ensures NewBlocks(off, tot + m) == NewBlocks(off, tot) + if tot == 0 && off % BSIZE != 0 then 0 else 1
  {
    var o := off + tot;
    assert (o + m - 1) / BSIZE == o / BSIZE;
    if tot > 0 {
      assert (o - 1) / BSIZE == o / BSIZE - 1;
    }
  }

  lemma Counted(off: nat, tot: nat, n: nat)
    requires tot <= n
    ensures Blocks(off, tot) <= Blocks(off, n) && NewBlocks(off, tot) <= NewBlocks(off, n)
  {
    if tot > 0 { assert (off + tot - 1) / BSIZE <= (off + n - 1) / BSIZE; }
  }

  lemma BlockInFile(o: nat)
    requires o < MAXBYTES
    ensures o / BSIZE < MAXFILE
  {
  }

  /** A write that starts inside a block starts in a block that exists. */
  lemma FirstBlockThere(d0: Disk, ino0: Inodes, d: Disk, ino: Inodes, i: nat, off: nat, src: seq<bv8>)
    requires InodesOk(d0, ino0) && FilesOk(d0, ino0) && InodesOk(d, ino) && off + |src| <= MAXBYTES
    requires Written(d0, ino0, d, ino, i, off, src, 0) && off <= ino0[i].size && off % BSIZE != 0
    ensures off / BSIZE < MAXFILE && Ref(d, ino[i], DataSlot(off / BSIZE)) != 0
  {
    hide InodeOk, Ref, FByte;
    var bn := off / BSIZE;
    assert bn * BSIZE < off;
    assert NoHoles(d0, ino0[i]);
    DataSlotsDiffer(bn, 0);
  }

  lemma WrittenFiles(d0: Disk, ino0: Inodes, d: Disk, ino: Inodes, i: nat, off: nat, src: seq<bv8>, tot: nat,
      len: nat)
    requires InodesOk(d0, ino0) && FilesOk(d0, ino0) && InodesOk(d, ino) && tot <= |src| && off + |src| <= MAXBYTES
    requires Written(d0, ino0, d, ino, i, off, src, tot) && off <= ino0[i].size && len <= tot
    requires InodesOk(d, GrowTo(ino, i, off + len))
    ensures var ino' := GrowTo(ino, i, off + len);
            && |ino'| == |ino0| && FilesOk(d, ino')
            && ino0[i].size <= MAXBYTES && ino'[i].size <= MAXBYTES
            && Content(d, ino'[i]) == Laid(Content(d0, ino0[i]), off, src[..tot], len)
            && forall j :: 0 <= j < |ino0| && j != i ==>
                 ino0[j].size <= MAXBYTES && ino'[j].size <= MAXBYTES && Content(d, ino'[j]) == Content(d0, ino0[j])
  {
    hide InodeOk, Content, Ref, FByte;
    var ino' := GrowTo(ino, i, off + len);
    forall j | 0 <= j < |ino0|
      ensures NoHoles(d, ino'[j]) && NoHoles(d0, ino0[j])
      ensures Content(d, ino'[j]) ==
                if j == i then Laid(Content(d0, ino0[i]), off, src[..tot], len) else Content(d0, ino0[j])
    {
      WrittenContent(d0, ino0, d, ino, i, off, src, tot, len, j);
    }
  }

  lemma AddrsLength(d: Disk, ino: Inodes, i: nat)
    requires InodesOk(d, ino) && i < |ino|
    ensures |ino[i].addrs| == NDIRECT + 1
  {
  }

  lemma NoneZero()
    ensures Some(0) == {}
  {
  }

  lemma OneSome(b: nat)
    requires b != 0
    ensures Some(b) == {b}
  {
  }

  // ------------------------------------------------------------------ truncation

  /** The bits of the blocks in `gone` are cleared; data blocks keep their contents. */
  ghost predicate Cleared(sb: Super, d: Disk, d': Disk, gone: set<nat>)
    requires DiskOk(sb, d)
  {
    && DiskOk(sb, d')
    && (forall x: nat :: x < sb.size ==> (BitSet(sb, d', x) <==> BitSet(sb, d, x) && x !in gone))
    && forall x :: sb.dataLo <= x < sb.size ==> d'[x] == d[x]
  }

  lemma ClearedNone(sb: Super, d: Disk)
    requires DiskOk(sb, d)
    ensures Cleared(sb, d, d, {})
  {
  }

  lemma ClearedMore(sb: Super, d: Disk, d1: Disk, gone: set<nat>, b: nat)
    requires DiskOk(sb, d) && Cleared(sb, d, d1, gone) && b < sb.size
    ensures BBlock(sb, b) < |d1| && |d1[BBlock(sb, b)]| == BSIZE
    ensures Cleared(sb, d, MarkFree(sb, d1, b), gone + {b})
  {
    hide BitSet, LayoutOk, BBlock, BitByte, BitPos, ClearBit;
    BBlockInRange(sb, b);
    var d' := MarkFree(sb, d1, b);
    forall x: nat | x < sb.size ensures BitSet(sb, d', x) <==> BitSet(sb, d, x) && x !in gone + {b} {
      MarkFreeBit(sb, d1, b, x);
    }
    MarkFreeBit(sb, d1, b, b);
  }

  /** The blocks of file `i` in slots lo..hi. */
  ghost function OwnedBy(own: map<nat, Slot>, i: nat, lo: nat, hi: nat): (r: set<nat>) {
    set b | b in own && own[b].i == i && lo <= own[b].k < hi
  }

  ghost function Disowned(own: map<nat, Slot>, gone: set<nat>): (r: map<nat, Slot>) {
    map b | b in own && b !in gone :: own[b]
  }

  /** Dropping references together with the bits of their blocks keeps the invariant. */
  lemma RemovedInv(sb: Super, d: Disk, ino: Inodes, own: map<nat, Slot>, d': Disk, ino': Inodes, i: nat, lo: nat,
      hi: nat)
    requires Inv(sb, d, ino, own) && InodesOk(d', ino') && |ino'| == |ino| && hi <= NSLOT
    requires Cleared(sb, d, d', OwnedBy(own, i, lo, hi))
    requires forall j, l :: 0 <= j < |ino| && 0 <= l < NSLOT ==>
               Ref(d', ino'[j], l) == if j == i && lo <= l < hi then 0 else Ref(d, ino[j], l)
    ensures Inv(sb, d', ino', Disowned(own, OwnedBy(own, i, lo, hi)))
  {
    hide BitSet, Ref, InodeOk;
    var gone := OwnedBy(own, i, lo, hi);
    var own' := Disowned(own, gone);
    forall b | b in own'
      ensures sb.dataLo <= b < sb.size && BitSet(sb, d', b) && own'[b].i < |ino'| && own'[b].k < NSLOT
          && Ref(d', ino'[own'[b].i], own'[b].k) == b
    {
      assert Ref(d, ino[own[b].i], own[b].k) == b;
    }
    forall j, l | 0 <= j < |ino'| && 0 <= l < NSLOT && Ref(d', ino'[j], l) != 0
      ensures Ref(d', ino'[j], l) in own' && own'[Ref(d', ino'[j], l)] == Slot(j, l)
    {
      assert own[Ref(d, ino[j], l)] == Slot(j, l);
    }
    forall b: nat | b < sb.dataLo ensures BitSet(sb, d', b) {
      assert BitSet(sb, d, b);
    }
  }

  lemma SlotBlocks(sb: Super, d: Disk, ino: Inodes, own: map<nat, Slot>, i: nat, k: nat)
    requires Inv(sb, d, ino, own) && i < |ino| && k < NSLOT
    ensures OwnedBy(own, i, k, k + 1) == Some(Ref(d, ino[i], k))
    ensures Ref(d, ino[i], k) != 0 ==> Ref(d, ino[i], k) < sb.size && BitSet(sb, d, Ref(d, ino[i], k))
  {
    hide BitSet, InodeOk, BitsOk;
    var b := Ref(d, ino[i], k);
    if b != 0 {
      assert own[b] == Slot(i, k);
    }
    var mine := OwnedBy(own, i, k, k + 1);
    forall x | x in mine ensures x == b && b != 0 {
      assert Ref(d, ino[own[x].i], own[x].k) == x;
    }
  }

  /** itrunc frees one direct block. */
  lemma DetachAddr(sb: Super, d: Disk, ino: Inodes, own: map<nat, Slot>, i: nat, k: nat)
    requires Inv(sb, d, ino, own) && i < |ino| && k < NDIRECT && Ref(d, ino[i], k) != 0
    ensures var b := Ref(d, ino[i], k);
            && b < sb.size && BBlock(sb, b) < |d| && |d[BBlock(sb, b)]| == BSIZE
            && Cleared(sb, d, MarkFree(sb, d, b), {b})
            && Inv(sb, MarkFree(sb, d, b), PutAddr(ino, i, k, 0), Disowned(own, {b}))
  {
    hide BitSet, MarkFree, BBlock, Word, OwnedOk, RefsOk, BitsOk;
    SlotBlocks(sb, d, ino, own, i, k);
    var b := Ref(d, ino[i], k);
    ClearedNone(sb, d);
    ClearedMore(sb, d, d, {}, b);
    assert {} + {b} == {b};
    var d', ino' := MarkFree(sb, d, b), PutAddr(ino, i, k, 0);
    DetachedRefs(sb, d, ino, own, d', i, k, b);
    OneSome(b);
    RemovedInv(sb, d, ino, own, d', ino', i, k, k + 1);
  }

  lemma DetachedRefs(sb: Super, d: Disk, ino: Inodes, own: map<nat, Slot>, d': Disk, i: nat, k: nat, b: nat)
    requires Inv(sb, d, ino, own) && i < |ino| && k < NDIRECT && Cleared(sb, d, d', {b})
    ensures var ino' := PutAddr(ino, i, k, 0);
            && InodesOk(d', ino')
            && forall j, l :: 0 <= j < |ino| && 0 <= l < NSLOT ==>
                 Ref(d', ino'[j], l) == if j == i && l == k then 0 else Ref(d, ino[j], l)
  {
    hide BitSet, Word, OwnedOk, BitsOk;
    var ino' := PutAddr(ino, i, k, 0);
    forall j | 0 <= j < |ino| ensures InodeOk(d', ino'[j]) {
      SizesStay(sb, d, d', ino[j]);
    }
    forall j, l | 0 <= j < |ino| && 0 <= l < NSLOT
      ensures Ref(d', ino'[j], l) == if j == i && l == k then 0 else Ref(d, ino[j], l)
    {
      IndirectIsData(sb, d, ino, own, j);
    }
  }

  lemma IndirectIsData(sb: Super, d: Disk, ino: Inodes, own: map<nat, Slot>, j: nat)
    requires Inv(sb, d, ino, own) && j < |ino|
    ensures |ino[j].addrs| == NDIRECT + 1
    ensures ino[j].addrs[NDIRECT] != 0 ==> sb.dataLo <= ino[j].addrs[NDIRECT] < sb.size
  {
    hide BitSet, Word;
    if ino[j].addrs[NDIRECT] != 0 {
      assert Ref(d, ino[j], NDIRECT) in own;
    }
  }

  /** itrunc frees the entries of the indirect block and the block itself. */
  lemma DetachIndirect(sb: Super, d: Disk, ino: Inodes, own: map<nat, Slot>, i: nat, d': Disk)
    requires Inv(sb, d, ino, own) && i < |ino| && Cleared(sb, d, d', OwnedBy(own, i, NDIRECT, NSLOT))
    ensures Inv(sb, d', PutAddr(ino, i, NDIRECT, 0), Disowned(own, OwnedBy(own, i, NDIRECT, NSLOT)))
  {
    hide BitSet, Word, OwnedOk, RefsOk, BitsOk;
    var ino' := PutAddr(ino, i, NDIRECT, 0);
    forall j | 0 <= j < |ino| ensures InodeOk(d', ino'[j]) {
      SizesStay(sb, d, d', ino[j]);
    }
    forall j, l | 0 <= j < |ino| && 0 <= l < NSLOT
      ensures Ref(d', ino'[j], l) == if j == i && NDIRECT <= l < NSLOT then 0 else Ref(d, ino[j], l)
    {
      IndirectIsData(sb, d, ino, own, j);
    }
    RemovedInv(sb, d, ino, own, d', ino', i, NDIRECT, NSLOT);
  }

  lemma OwnedByMore(own: map<nat, Slot>, i: nat, lo: nat, hi: nat)
    requires lo <= hi
    ensures OwnedBy(own, i, lo, hi + 1) == OwnedBy(own, i, lo, hi) + OwnedBy(own, i, hi, hi + 1)
    ensures OwnedBy(own, i, lo, hi) !! OwnedBy(own, i, hi, hi + 1)
    ensures OwnedBy(own, i, lo, lo) == {}
  {
  }

  /** Files other than `i` are as they were. */
  ghost predicate OthersKept(d: Disk, ino: Inodes, d': Disk, ino': Inodes, i: nat)
    requires InodesOk(d, ino) && InodesOk(d', ino')
  {
    && |ino'| == |ino| && |d'| == |d|
    && forall j :: 0 <= j < |ino| && j != i ==>
         && ino'[j] == ino[j]
         && (ino[j].addrs[NDIRECT] != 0 ==> d'[ino[j].addrs[NDIRECT]] == d[ino[j].addrs[NDIRECT]])
         && forall l: nat :: l < NSLOT && 0 < Ref(d, ino[j], l) < |d| ==> d'[Ref(d, ino[j], l)] == d[Ref(d, ino[j], l)]
  }

  lemma ClearedOthers(sb: Super, d: Disk, ino: Inodes, own: map<nat, Slot>, d': Disk, ino': Inodes, i: nat,
      gone: set<nat>)
    requires Inv(sb, d, ino, own) && Cleared(sb, d, d', gone) && InodesOk(d', ino') && |ino'| == |ino|
    requires forall j :: 0 <= j < |ino| && j != i ==> ino'[j] == ino[j]
    ensures OthersKept(d, ino, d', ino', i)
  {
    hide BitSet, Word;
    forall j, l: nat | 0 <= j < |ino| && l < NSLOT && 0 < Ref(d, ino[j], l) < |d|
      ensures d'[Ref(d, ino[j], l)] == d[Ref(d, ino[j], l)]
    {
      assert Ref(d, ino[j], l) in own;
    }
    forall j | 0 <= j < |ino| && j != i
      ensures ino[j].addrs[NDIRECT] != 0 ==> d'[ino[j].addrs[NDIRECT]] == d[ino[j].addrs[NDIRECT]]
    {
      IndirectIsData(sb, d, ino, own, j);
    }
  }

  lemma OthersContent(d: Disk, ino: Inodes, d': Disk, ino': Inodes, i: nat, j: nat)
    requires InodesOk(d, ino) && InodesOk(d', ino') && OthersKept(d, ino, d', ino', i) && j < |ino| && j != i
    requires NoHoles(d, ino[j])
    ensures NoHoles(d', ino'[j]) && Content(d', ino'[j]) == Content(d, ino[j])
  {
    hide Word, InodeOk;
    forall l: nat | l < NSLOT ensures Ref(d', ino'[j], l) == Ref(d, ino[j], l) {
      SameIndirect(d, ino[j], d', l);
    }
    forall a: nat | a < ino[j].size ensures FByte(d', ino'[j], a) == FByte(d, ino[j], a) {
      DataSlotsDiffer(a / BSIZE, 0);
    }
  }

  /** The inode that itrunc leaves behind. */
  function EmptyInode(): (ip: Inode) {
    Inode(seq(NDIRECT + 1, _ => 0), 0)
  }

  /** The first `k` direct slots of file `i` are gone. */
  ghost predicate Cut(ino: Inodes, ino0: Inodes, i: nat, k: nat) {
    && |ino| == |ino0| && i < |ino| && |ino[i].addrs| == |ino0[i].addrs| == NDIRECT + 1 && k <= NDIRECT
    && ino[i].size == ino0[i].size
    && (forall j :: 0 <= j < |ino| && j != i ==> ino[j] == ino0[j])
    && forall l :: 0 <= l <= NDIRECT ==> ino[i].addrs[l] == if l < k then 0 else ino0[i].addrs[l]
  }

  lemma DisownedTwice(own: map<nat, Slot>, a: set<nat>, b: set<nat>)
    ensures Disowned(Disowned(own, a), b) == Disowned(own, a + b)
  {
  }

  lemma DisownedNone(own: map<nat, Slot>)
    ensures Disowned(own, {}) == own
  {
  }

  lemma OwnedAfter(own: map<nat, Slot>, i: nat, lo: nat, mid: nat, hi: nat)
    requires lo <= mid <= hi
    ensures OwnedBy(Disowned(own, OwnedBy(own, i, lo, mid)), i, mid, hi) == OwnedBy(own, i, mid, hi)
    ensures OwnedBy(own, i, lo, mid) + OwnedBy(own, i, mid, hi) == OwnedBy(own, i, lo, hi)
  {
  }

  lemma ClearedTrans(sb: Super, d: Disk, d1: Disk, d2: Disk, a: set<nat>, b: set<nat>)
    requires DiskOk(sb, d) && Cleared(sb, d, d1, a) && Cleared(sb, d1, d2, b)
    ensures Cleared(sb, d, d2, a + b)
  {
    hide BitSet, LayoutOk;
  }

  lemma FileOk(d: Disk, ino: Inodes, i: nat)
    requires InodesOk(d, ino) && FilesOk(d, ino) && i < |ino|
    ensures InodeOk(d, ino[i]) && NoHoles(d, ino[i]) && ino[i].size <= MAXBYTES
  {
  }

  /** One chunk within a block, read from where the block is. */
  lemma ReadChunk(sb: Super, d: Disk, ino: Inodes, own: map<nat, Slot>, i: nat, o: nat, m: nat)
    requires Inv(sb, d, ino, own) && FilesOk(d, ino) && i < |ino| && o + m <= ino[i].size && m > 0
        && o % BSIZE + m <= BSIZE
    ensures ino[i].size <= MAXBYTES && o < MAXBYTES && o / BSIZE < MAXFILE
    ensures var b := Ref(d, ino[i], DataSlot(o / BSIZE));
            && b < |d| && |d[b]| == BSIZE
            && d[b][o % BSIZE..o % BSIZE + m] == Content(d, ino[i])[o..o + m]
  {
    hide BitSet, Word, InodeOk, Ref, OwnedOk, BitsOk, NoHoles;
    FileOk(d, ino, i);
    AllocatedBelow(d, ino[i], o);
    BlockInFile(o);
    DataSlotsDiffer(o / BSIZE, 0);
    var b := Ref(d, ino[i], DataSlot(o / BSIZE));
    assert own[b] == Slot(i, DataSlot(o / BSIZE));
    OwnedRange(sb, d, ino, own, b);
    var l, r := d[b][o % BSIZE..o % BSIZE + m], Content(d, ino[i])[o..o + m];
    forall x | 0 <= x < m ensures l[x] == r[x] {
      InChunk(o, o + x, m);
      SameBlockBytes(o, o + x, m);
      assert Content(d, ino[i])[o + x] == FByte(d, ino[i], o + x);
    }
  }

  lemma IndirectBlock(sb: Super, d: Disk, ino: Inodes, own: map<nat, Slot>, i: nat)
    requires Inv(sb, d, ino, own) && i < |ino|
    ensures |ino[i].addrs| == NDIRECT + 1 && ino[i].addrs[NDIRECT] < |d| && |d[ino[i].addrs[NDIRECT]]| == BSIZE
    ensures Ref(d, ino[i], NDIRECT) == ino[i].addrs[NDIRECT]
  {
  }

  lemma EntryBlock(sb: Super, d: Disk, ino: Inodes, own: map<nat, Slot>, i: nat, j: nat)
    requires Inv(sb, d, ino, own) && i < |ino| && j < NINDIRECT && |ino[i].addrs| == NDIRECT + 1
        && ino[i].addrs[NDIRECT] != 0
    ensures ino[i].addrs[NDIRECT] < |d| && |d[ino[i].addrs[NDIRECT]]| == BSIZE
    ensures var w := Word(d[ino[i].addrs[NDIRECT]], j);
            && OwnedBy(own, i, NDIRECT + 1 + j, NDIRECT + 2 + j) == Some(w)
            && (w != 0 ==> w < sb.size && BitSet(sb, d, w))
  {
    hide BitSet, Word, OwnedOk, RefsOk, BitsOk;
    IndirectBlock(sb, d, ino, own, i);
    SlotBlocks(sb, d, ino, own, i, NDIRECT + 1 + j);
  }

  /** A block is freed once: its bit is still set when its turn comes. */
  lemma StillSet(sb: Super, d: Disk, d': Disk, gone: set<nat>, b: nat)
    requires DiskOk(sb, d) && Cleared(sb, d, d', gone) && b < sb.size && BitSet(sb, d, b) && b !in gone
    ensures DiskOk(sb, d') && BitSet(sb, d', b)
  {
  }

  lemma IndirectApart(own: map<nat, Slot>, i: nat, ind: nat)
    requires OwnedBy(own, i, NDIRECT, NDIRECT + 1) == {ind}
    ensures ind !in OwnedBy(own, i, NDIRECT + 1, NSLOT)
    ensures OwnedBy(own, i, NDIRECT + 1, NSLOT) + {ind} == OwnedBy(own, i, NDIRECT, NSLOT)
  {
    assert ind in OwnedBy(own, i, NDIRECT, NDIRECT + 1);
    OwnedAfter(own, i, NDIRECT, NDIRECT + 1, NSLOT);
  }

  lemma NoIndirect(sb: Super, d: Disk, ino: Inodes, own: map<nat, Slot>, i: nat)
    requires Inv(sb, d, ino, own) && i < |ino| && |ino[i].addrs| == NDIRECT + 1 && ino[i].addrs[NDIRECT] == 0
    ensures OwnedBy(own, i, NDIRECT, NSLOT) == {}
  {
    hide BitSet, Word;
    forall b | b in own ensures !(own[b].i == i && NDIRECT <= own[b].k < NSLOT) {
      assert Ref(d, ino[own[b].i], own[b].k) == b;
    }
  }

  lemma TruncDone(sb: Super, d0: Disk, ino0: Inodes, own0: map<nat, Slot>, d1: Disk, ino1: Inodes, d2: Disk,
      ino2: Inodes, i: nat)
    requires Inv(sb, d0, ino0, own0) && FilesOk(d0, ino0) && InodesOk(d2, ino2) && DiskOk(sb, d1)
    requires Cut(ino1, ino0, i, NDIRECT) && ino2 == PutAddr(ino1, i, NDIRECT, 0)
    requires Cleared(sb, d0, d1, OwnedBy(own0, i, 0, NDIRECT))
    requires Cleared(sb, d1, d2, OwnedBy(Disowned(own0, OwnedBy(own0, i, 0, NDIRECT)), i, NDIRECT, NSLOT))
    ensures Cleared(sb, d0, d2, OwnedBy(own0, i, 0, NSLOT))
    ensures var own1 := Disowned(own0, OwnedBy(own0, i, 0, NDIRECT));
            Disowned(own1, OwnedBy(own1, i, NDIRECT, NSLOT)) == Disowned(own0, OwnedBy(own0, i, 0, NSLOT))
    ensures ino2[i].addrs == EmptyInode().addrs && |ino2| == |ino0|
    ensures forall j :: 0 <= j < |ino0| && j != i ==>
              && ino2[j] == ino0[j] && NoHoles(d2, ino2[j]) && NoHoles(d0, ino0[j])
              && Content(d2, ino2[j]) == Content(d0, ino0[j])
  {
    hide BitSet, Word, OwnedOk, RefsOk, BitsOk, Cleared, OwnedBy, Disowned, OthersKept, Content, InodeOk, Ref;
    var a := OwnedBy(own0, i, 0, NDIRECT);
    OwnedAfter(own0, i, 0, NDIRECT, NSLOT);
    ClearedTrans(sb, d0, d1, d2, a, OwnedBy(own0, i, NDIRECT, NSLOT));
    DisownedTwice(own0, a, OwnedBy(own0, i, NDIRECT, NSLOT));
    ClearedOthers(sb, d0, ino0, own0, d2, ino2, i, OwnedBy(own0, i, 0, NSLOT));
    forall j | 0 <= j < |ino0| && j != i
      ensures NoHoles(d2, ino2[j]) && NoHoles(d0, ino0[j]) && Content(d2, ino2[j]) == Content(d0, ino0[j])
    {
      FileOk(d0, ino0, j);
      OthersContent(d0, ino0, d2, ino2, i, j);
    }
  }

  lemma TruncSize(sb: Super, d: Disk, ino: Inodes, own: map<nat, Slot>, i: nat)
    requires Inv(sb, d, ino, own) && i < |ino| && ino[i].addrs == EmptyInode().addrs
    requires forall j :: 0 <= j < |ino| && j != i ==> NoHoles(d, ino[j])
    ensures var ino' := ino[i := ino[i].(size := 0)];
            Inv(sb, d, ino', own) && FilesOk(d, ino') && ino'[i] == EmptyInode() && Content(d, ino'[i]) == []
  {
    hide BitSet, Word, NoHoles;
    var ino' := ino[i := ino[i].(size := 0)];
    forall j | 0 <= j < |ino| ensures InodeOk(d, ino'[j]) && ino'[j].addrs == ino[j].addrs {
      assert InodeOk(d, ino[j]);
    }
    forall j, k | 0 <= j < |ino| && 0 <= k < NSLOT ensures Ref(d, ino'[j], k) == Ref(d, ino[j], k) {
    }
    EmptyHasNoHoles(d, ino'[i]);
  }

  lemma EmptyHasNoHoles(d: Disk, ip: Inode)
    requires InodeOk(d, ip) && ip.size == 0
    ensures NoHoles(d, ip)
  {
  }

  // ------------------------------------------------------------- pieces of a file

  /** A whole piece and then one of which only `len` bytes count. */
  lemma LaidTwice(c: seq<bv8>, off: nat, a: seq<bv8>, b: seq<bv8>, len: nat)
    requires off <= |c| && len <= |b|
    ensures Laid(Splice(c, off, a), off + |a|, b, len) == Laid(c, off, a + b, |a| + len)
  {
    hide Splice;
    SpliceTwice(c, off, a, b);
  }

  lemma SpliceTwice(c: seq<bv8>, off: nat, a: seq<bv8>, b: seq<bv8>)
    requires off <= |c|
    ensures Splice(Splice(c, off, a), off + |a|, b) == Splice(c, off, a + b)
  {
  }

  lemma LaidNothing(c: seq<bv8>, off: nat)
    requires off <= |c|
    ensures Laid(c, off, [], 0) == c
  {
  }

  /** The next chunk of filewrite, of which `q` bytes reach the file and `r` count. */
  lemma LaidMore(c: seq<bv8>, off: nat, src: seq<bv8>, k: nat, n: nat, q: nat, r: nat)
    requires off <= |c| && k + n <= |src| && r <= q <= n
    ensures off + k <= |Laid(c, off, src[..k], k)|
    ensures Laid(Laid(c, off, src[..k], k), off + k, src[k..k + n][..q], r) == Laid(c, off, src[..k + q], k + r)
  {
    hide Laid, Splice;
    LaidAll(c, off, src[..k]);
    LaidTwice(c, off, src[..k], src[k..k + n][..q], r);
    assert src[..k] + src[k..k + n][..q] == src[..k + q];
  }

  lemma SlicesJoin(c: seq<bv8>, a: nat, b: nat, d: nat)
    requires a <= b <= d <= |c|
    ensures c[a..b] + c[b..d] == c[a..d]
  {
  }

  /** All files as byte sequences. */
  ghost function Files(d: Disk, ino: Inodes): (fs: seq<seq<bv8>>)
    requires InodesOk(d, ino) && FilesOk(d, ino)
    ensures |fs| == |ino|
    ensures forall j :: 0 <= j < |ino| ==> |fs[j]| == ino[j].size
  {
    seq(|ino|, (j: nat) requires j < |ino| =>
      FileOk(d, ino, j);
      Content(d, ino[j]))
  }

  lemma FilesAt(d: Disk, ino: Inodes, j: nat)
    requires InodesOk(d, ino) && FilesOk(d, ino) && j < |ino|
    ensures InodeOk(d, ino[j]) && ino[j].size <= MAXBYTES && Files(d, ino)[j] == Content(d, ino[j])
  {
    FileOk(d, ino, j);
  }

  /** One file changed, the others did not. */
  lemma FilesSet(d: Disk, ino: Inodes, d': Disk, ino': Inodes, i: nat, c: seq<bv8>)
    requires InodesOk(d, ino) && FilesOk(d, ino) && InodesOk(d', ino') && FilesOk(d', ino') && |ino'| == |ino|
        && i < |ino|
    requires ino'[i].size <= MAXBYTES && Content(d', ino'[i]) == c
    requires forall j :: 0 <= j < |ino| && j != i ==>
               ino[j].size <= MAXBYTES && ino'[j].size <= MAXBYTES && Content(d', ino'[j]) == Content(d, ino[j])
    ensures Files(d', ino') == Files(d, ino)[i := c]
  {
    hide Content, NoHoles, InodeOk;
    forall j | 0 <= j < |ino| ensures Files(d', ino')[j] == Files(d, ino)[i := c][j] {
      FilesAt(d, ino, j);
      FilesAt(d', ino', j);
    }
  }

  // ---------------------------------------------------------- sequences of calls

  /** A call of writei or itrunc on an inode. */
  datatype Call = Write(i: nat, off: nat, src: seq<bv8>) | Truncate(i: nat)

  predicate CallOk(c: Call, n: nat) {
    c.i < n && (c.Write? ==> c.off < UINT && |c.src| < UINT)
  }

  /** What a call does to plain byte sequences, given its result. */
  function Apply(fs: seq<seq<bv8>>, c: Call, r: int): (fs': seq<seq<bv8>>)
    ensures |fs'| == |fs|
  {
    if c.i >= |fs| then fs
    else match c
      case Write(i, off, src) => if 0 <= r <= |src| && off <= |fs[i]| then fs[i := Splice(fs[i], off, src[..r])] else fs
      case Truncate(i) => fs[i := []]
  }

  function Replay(fs: seq<seq<bv8>>, cs: seq<Call>, rs: seq<int>): (fs': seq<seq<bv8>>)
    requires |rs| == |cs|
    ensures |fs'| == |fs|
    decreases |cs|
  {
    if cs == [] then fs else Apply(Replay(fs, cs[..|cs| - 1], rs[..|rs| - 1]), cs[|cs| - 1], rs[|rs| - 1])
  }

  lemma ReplayNone(fs: seq<seq<bv8>>, cs: seq<Call>, rs: seq<int>)
    requires cs == [] && rs == []
    ensures Replay(fs, cs, rs) == fs
  {
  }

  /** The result of a call, as far as the files before it decide it. */
  ghost predicate ResultOk(fs: seq<seq<bv8>>, c: Call, r: int) {
    c.i < |fs| &&
    match c
    case Write(i, off, src) =>
      (r == -1 <==> off > |fs[i]| || off + |src| > MAXBYTES) && -1 <= r <= |src|
    case Truncate(i) => r == 0
  }

  ghost predicate ResultsOk(fs: seq<seq<bv8>>, cs: seq<Call>, rs: seq<int>)
    requires |rs| == |cs|
    decreases |cs|
  {
    cs == [] ||
    (var m := |cs| - 1;
     ResultsOk(fs, cs[..m], rs[..m]) && ResultOk(Replay(fs, cs[..m], rs[..m]), cs[m], rs[m]))
  }

  /** Fewer bytes written than asked for. */
  predicate Short(c: Call, r: int) {
    c.Write? && 0 <= r < |c.src|
  }

  predicate OnlyWrites(cs: seq<Call>) {
    forall k :: 0 <= k < |cs| ==> cs[k].Write?
  }

  lemma OnlyWritesFewer(cs: seq<Call>, j: nat, k: nat)
    requires j <= k < |cs| && OnlyWrites(cs[j..k + 1])
    ensures OnlyWrites(cs[j..k]) && cs[k].Write?
  {
    var more, fewer := cs[j..k + 1], cs[j..k];
    assert more[k - j] == cs[k];
    forall x | 0 <= x < |fewer| ensures fewer[x].Write? {
      assert fewer[x] == more[x];
    }
  }

  lemma ResultsMore(fs: seq<seq<bv8>>, cs: seq<Call>, rs: seq<int>, k: nat, r: int)
    requires |rs| == k < |cs| && ResultsOk(fs, cs[..k], rs) && ResultOk(Replay(fs, cs[..k], rs), cs[k], r)
    ensures ResultsOk(fs, cs[..k + 1], rs + [r])
  {
    var cs', rs' := cs[..k + 1], rs + [r];
    assert cs'[..|cs'| - 1] == cs[..k] && rs'[..|rs'| - 1] == rs;
  }

  lemma ResultsNone(fs: seq<seq<bv8>>, cs: seq<Call>, rs: seq<int>)
    requires cs == [] && rs == []
    ensures ResultsOk(fs, cs, rs)
  {
  }

  lemma ReplayMore(fs: seq<seq<bv8>>, cs: seq<Call>, rs: seq<int>, k: nat, r: int)
    requires |rs| == k < |cs|
    ensures Replay(fs, cs[..k + 1], rs + [r]) == Apply(Replay(fs, cs[..k], rs), cs[k], r)
  {
    var cs', rs' := cs[..k + 1], rs + [r];
    assert cs'[..|cs'| - 1] == cs[..k] && rs'[..|rs'| - 1] == rs;
  }
}
