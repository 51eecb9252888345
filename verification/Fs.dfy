/** The block and inode layer of kernel/fs.c. */
module Fs {
  import opened Collections
  import opened FsSpec
  import opened FsCost

  class Fs {
    const sb: Super
    var disk: Disk               // the blocks as the cache and log show them
    var inodes: Inodes           // in-memory inodes
    var dinodes: Inodes          // inodes on disk
    ghost var own: map<nat, Slot>
    ghost var inOp: bool         // between begin_op and end_op
    ghost var calls: seq<nat>    // the blocks passed to log_write since begin_op
    ghost var ops: seq<seq<nat>> // the log_write calls of each finished operation

    constructor (sb: Super, disk: Disk, inodes: Inodes, ghost own: map<nat, Slot>)
      requires Inv(sb, disk, inodes, own) && FilesOk(disk, inodes) && InodeArea(sb, |inodes|)
      ensures ValidFiles() && this.sb == sb && this.disk == disk && this.inodes == inodes && this.own == own
      ensures !inOp && calls == [] && ops == []
    {
      this.sb, this.disk, this.inodes, dinodes, this.own := sb, disk, inodes, inodes, own;
      inOp, calls, ops := false, [], [];
    }

    // Blocks are logged inside operations only, and an operation may end only within its
    // reservation.

    ghost method BeginOp()
      requires !inOp
      modifies this`inOp, this`calls
      ensures inOp && calls == []
    {
      inOp, calls := true, [];
    }

    ghost method LogWrite(b: nat)
      requires inOp
      modifies this`calls
      ensures calls == old(calls) + [b]
    {
      calls := calls + [b];
    }

    ghost method EndOp()
      requires inOp && OpOk(sb, calls)
      modifies this`inOp, this`calls, this`ops
      ensures !inOp && calls == [] && ops == old(ops) + [old(calls)]
    {
      inOp, calls, ops := false, [], ops + [calls];
    }

    /** balloc: mark the first free block used and zero it; 0 when all blocks are in use. */
    method Balloc() returns (b: nat)
      requires DiskOk(sb, disk) && MetaMarked(sb, disk) && inOp
      modifies this`disk, this`calls
      ensures b == 0 ==> disk == old(disk) && calls == old(calls)
      ensures b == 0 ==> forall x: nat :: x < sb.size ==> BitSet(sb, old(disk), x)
      ensures b != 0 ==> sb.dataLo <= b < sb.size && !BitSet(sb, old(disk), b)
      ensures b != 0 ==> forall x: nat :: x < b ==> BitSet(sb, old(disk), x)
      ensures b != 0 ==> BBlock(sb, b) < |old(disk)| && disk == Fresh(sb, old(disk), b)
      ensures b != 0 ==> calls == old(calls) + [BBlock(sb, b), b]
    {
      hide DiskOk, BitSet;
      var base := 0;
      while base < sb.size
        invariant base % BPB == 0
        invariant disk == old(disk) && calls == old(calls)
        invariant forall x: nat :: x < base && x < sb.size ==> BitSet(sb, disk, x)
      {
        var bi := 0;
        while bi < BPB && base + bi < sb.size
          invariant 0 <= bi <= BPB
          invariant disk == old(disk) && calls == old(calls)
          invariant forall x: nat :: x < base + bi && x < sb.size ==> BitSet(sb, disk, x)
        {
          BitAt(sb, disk, base, bi);
          var bp := disk[BBlock(sb, base)];
          if !Bit(bp[bi / 8], bi % 8) {
            b := base + bi;
            bp := bp[bi / 8 := SetBit(bp[bi / 8], bi % 8)];
            disk := disk[BBlock(sb, base) := bp];
            LogWrite(BBlock(sb, b));
            // bzero
            disk := disk[b := ZeroBlock()];
            LogWrite(b);
            return;
          }
          bi := bi + 1;
        }
        base := base + BPB;
      }
      b := 0;
    }

    /** bfree: clear the block's bit; freeing a free block panics. */
    method Bfree(b: nat) returns (panic: bool)
      requires DiskOk(sb, disk) && b < sb.size && inOp
      modifies this`disk, this`calls
      ensures panic <==> !BitSet(sb, old(disk), b)
      ensures panic ==> disk == old(disk) && calls == old(calls)
      ensures !panic ==> BBlock(sb, b) < |old(disk)| && disk == MarkFree(sb, old(disk), b)
      ensures !panic ==> calls == old(calls) + [BBlock(sb, b)]
    {
      hide DiskOk, BitSet;
      SplitBit(sb, disk, b);
      var bp := disk[BBlock(sb, b)];
      var bi := b % BPB;
      if !Bit(bp[bi / 8], bi % 8) {
        return true;
      }
      bp := bp[bi / 8 := ClearBit(bp[bi / 8], bi % 8)];
      disk := disk[BBlock(sb, b) := bp];
      LogWrite(BBlock(sb, b));
      return false;
    }

    ghost predicate Valid()
      reads this
    {
      Inv(sb, disk, inodes, own)
    }

    /**
     bmap: the block that holds the file's bn-th block, allocated if there is none yet; 0
     when the disk is full. Nothing that was in use changes, and what is logged is exactly
     what the new blocks require.
     */
    method Bmap(i: nat, bn: nat) returns (addr: nat)
      requires Valid() && i < |inodes| && bn < MAXFILE
      requires inOp || Ref(disk, inodes[i], DataSlot(bn)) != 0
      modifies this`disk, this`inodes, this`own, this`calls
      ensures Valid() && InodesOk(old(disk), old(inodes)) && Keeps(old(disk), old(inodes), disk, inodes)
      ensures |inodes| == |old(inodes)| && |inodes[i].addrs| == NDIRECT + 1
      ensures addr != 0 ==> Ref(disk, inodes[i], DataSlot(bn)) == addr
      ensures old(Ref(disk, inodes[i], DataSlot(bn))) != 0 ==>
                addr != 0 && disk == old(disk) && inodes == old(inodes) && own == old(own) && calls == old(calls)
      ensures addr == 0 ==> Full(sb, disk) && Grown(old(own), own, i, 0, 0)
      ensures addr != 0 ==> Grown(old(own), own, i, bn, bn + 1)
      ensures old(calls) <= calls && Elems(calls) == Elems(old(calls)) + Allocs(sb, old(own), own, inodes[i])
    {
      hide DiskOk, InodesOk, OwnedOk, RefsOk, BitsOk, Keeps, Fresh, Word, SetWord, BBlock, Grown, Allocs, Elems;
      KeepsSelf(sb, disk, inodes, own);
      if bn < NDIRECT {
        addr := BmapAddr(i, bn);
        return;
      }
      var e := bn - NDIRECT;
      ghost var d0, ino0, own0, calls0 := disk, inodes, own, calls;
      var ind := BmapAddr(i, NDIRECT);
      if ind == 0 {
        return 0;
      }
      ghost var d1, ino1, own1, calls1 := disk, inodes, own, calls;
      addr := BmapEntry(i, e);
      KeepsTrans(d0, ino0, d1, ino1, disk, inodes);
      BmapJoin(sb, own0, own1, own, inodes[i], i, bn, addr);
    }

    /** The part of bmap that deals with ip->addrs[k]. */
    method BmapAddr(i: nat, k: nat) returns (addr: nat)
      requires Valid() && i < |inodes| && k <= NDIRECT
      requires inOp || Ref(disk, inodes[i], k) != 0
      modifies this`disk, this`inodes, this`own, this`calls
      ensures Valid() && InodesOk(old(disk), old(inodes)) && Keeps(old(disk), old(inodes), disk, inodes)
      ensures |inodes| == |old(inodes)| && |inodes[i].addrs| == NDIRECT + 1
      ensures addr == inodes[i].addrs[k] == Ref(disk, inodes[i], k)
      ensures old(Ref(disk, inodes[i], k)) != 0 ==>
                addr != 0 && disk == old(disk) && inodes == old(inodes) && own == old(own) && calls == old(calls)
      ensures addr == 0 ==> Full(sb, disk) && Grown(old(own), own, i, 0, 0)
      ensures addr != 0 ==> Grown(old(own), own, i, k, k + 1)
      ensures addr != 0 && k == NDIRECT ==> Grown(old(own), own, i, 0, 0)
      ensures old(calls) <= calls && Elems(calls) == Elems(old(calls)) + Allocs(sb, old(own), own, inodes[i])
    {
      hide OwnedOk, RefsOk, BitSet, Keeps, Fresh, Word, SetWord, BBlock, LayoutOk, Allocs;
      KeepsSelf(sb, disk, inodes, own);
      AllocsNone(sb, own, inodes[i]);
      addr := inodes[i].addrs[k];
      if addr == 0 {
        ghost var d0 := disk;
        addr := Balloc();
        if addr == 0 {
          return;
        }
        AttachAddr(sb, d0, inodes, own, i, k, addr);
        AttachAddrKeeps(sb, d0, inodes, own, i, k, addr);
        FreeNotOwned(sb, d0, inodes, own, addr);
        own := own[addr := Slot(i, k)];
        inodes := PutAddr(inodes, i, k, addr);
        AllocsOne(sb, old(own), addr, i, k, inodes[i]);
        ElemsTwo(old(calls), BBlock(sb, addr), addr);
      }
    }

    /** The part of bmap that deals with entry `e` of the indirect block. */
    method BmapEntry(i: nat, e: nat) returns (addr: nat)
      requires Valid() && i < |inodes| && e < NINDIRECT && inodes[i].addrs[NDIRECT] != 0
      requires inOp || Ref(disk, inodes[i], NDIRECT + 1 + e) != 0
      modifies this`disk, this`own, this`calls
      ensures Valid() && InodesOk(old(disk), old(inodes)) && Keeps(old(disk), inodes, disk, inodes)
      ensures |inodes[i].addrs| == NDIRECT + 1
      ensures addr == Ref(disk, inodes[i], NDIRECT + 1 + e)
      ensures old(Ref(disk, inodes[i], NDIRECT + 1 + e)) != 0 ==>
                addr != 0 && disk == old(disk) && own == old(own) && calls == old(calls)
      ensures addr == 0 ==> Full(sb, disk) && own == old(own)
      ensures Grown(old(own), own, i, NDIRECT + e, NDIRECT + e + 1)
      ensures old(calls) <= calls && Elems(calls) == Elems(old(calls)) + Allocs(sb, old(own), own, inodes[i])
    {
      hide OwnedOk, RefsOk, BitSet, Keeps, Word, SetWord, BBlock, LayoutOk, ZeroBlock, Allocs;
      KeepsSelf(sb, disk, inodes, own);
      AllocsNone(sb, own, inodes[i]);
      var ind := inodes[i].addrs[NDIRECT];
      addr := Word(disk[ind], e);
      if addr == 0 {
        ghost var d0 := disk;
        addr := Balloc();
        if addr != 0 {
          AttachEntry(sb, d0, inodes, own, i, e, addr);
          AttachEntryKeeps(sb, d0, inodes, own, i, e, addr);
          FreshFacts(sb, d0, addr);
          FreeNotOwned(sb, d0, inodes, own, addr);
          disk := disk[ind := SetWord(disk[ind], e, addr)];
          LogWrite(ind);
          own := own[addr := Slot(i, NDIRECT + 1 + e)];
          AllocsOne(sb, old(own), addr, i, NDIRECT + 1 + e, inodes[i]);
          ElemsThree(old(calls), BBlock(sb, addr), addr, ind);
        }
      }
    }

    ghost predicate ValidFiles()
      reads this
    {
      Valid() && FilesOk(disk, inodes) && |dinodes| == |inodes| && InodeArea(sb, |inodes|)
    }

    /** iupdate: copy the in-memory inode to disk. */
    method Iupdate(i: nat)
      requires i < |inodes| == |dinodes| && inOp
      modifies this`dinodes, this`calls
      ensures dinodes == old(dinodes)[i := inodes[i]] && calls == old(calls) + [IBlock(sb, i)]
    {
      dinodes := dinodes[i := inodes[i]];
      LogWrite(IBlock(sb, i));
    }

    /**
     writei: write `src` to file `i` at offset `off`; only the first `avail` bytes of the
     source can be read. It refuses offsets beyond the end of the file and writes beyond the
     largest file. Otherwise it writes the first `r` bytes, all of them unless the disk is
     full or the source cannot be read, and leaves every other file alone. A copy that fails
     in the middle of a block has changed the bytes up to `q` as well. The log_write calls
     are those of the data written and of the blocks allocated, and the inode's block last.
     */
    method Writei(i: nat, off: nat, src: seq<bv8>, avail: nat) returns (r: int, ghost q: nat, ghost req: nat)
      requires ValidFiles() && inOp && i < |inodes| && off < UINT && |src| < UINT
      modifies this`disk, this`inodes, this`dinodes, this`own, this`calls
      ensures ValidFiles() && |inodes| == |old(inodes)|
      ensures r == -1 <==> off > old(inodes[i].size) || off + |src| > MAXBYTES
      ensures r == -1 ==> disk == old(disk) && inodes == old(inodes) && dinodes == old(dinodes)
      ensures r == -1 ==> own == old(own) && calls == old(calls)
      ensures r != -1 ==>
                && 0 <= r <= q <= |src| && r <= avail && (q > r ==> q == avail)
                && (r < |src| ==> Full(sb, disk) || avail < |src|)
                && Files(disk, inodes) ==
                   old(Files(disk, inodes))[i := Laid(old(Files(disk, inodes)[i]), off, src[..q], r)]
                && dinodes == old(dinodes)[i := inodes[i]]
      ensures r != -1 ==>
                && r <= req <= |src| && (avail >= |src| ==> req == r == q)
                && old(calls) < calls && calls[|calls| - 1] == IBlock(sb, i)
                && Logs(sb, old(own), disk, inodes[i], own, i, off, r, req, Elems(old(calls)),
                        Elems(calls[..|calls| - 1]))
    {
      hide DiskOk, InodesOk, OwnedOk, RefsOk, BitsOk, FilesOk, Keeps, Written, Content, Laid, NoHoles, Full, Logs,
        Elems;
      q, req := 0, 0;
      if off > inodes[i].size || (off + |src|) % UINT < off {
        WrapsOnlyWhenLarge(off, |src|);
        r := -1;
        return;
      }
      WrapsOnlyWhenLarge(off, |src|);
      if (off + |src|) % UINT > MAXFILE * BSIZE {
        r := -1;
        return;
      }
      ghost var d0, ino0 := disk, inodes;
      r, q, req := WriteBlocks(i, off, src, avail);
      ghost var ino1 := inodes;
      GrowInv(sb, disk, inodes, own, i, off + r);
      GrownInode(sb, disk, inodes, own, i, off + r);
      WrittenFiles(d0, ino0, disk, inodes, i, off, src, q, r);
      FilesAt(d0, ino0, i);
      FilesSet(d0, ino0, disk, GrowTo(inodes, i, off + r), i, Laid(Files(d0, ino0)[i], off, src[..q], r));
      inodes := GrowTo(inodes, i, off + r);
      LogsGrow(sb, old(own), disk, ino1[i], inodes[i], own, i, off, r, req, Elems(old(calls)), Elems(calls));
      Iupdate(i);
      assert calls[..|calls| - 1] + [IBlock(sb, i)] == calls;
    }

    /**
     One pass of writei's loop: the number of bytes written and logged, 0 if there is no
     block to be had or the copy from the source fails, then after `p` bytes.
     */
    method WriteOne(ghost d0: Disk, ghost ino0: Inodes, ghost own0: map<nat, Slot>, ghost l0: set<nat>, i: nat,
        off: nat, src: seq<bv8>, tot: nat, avail: nat)
      returns (m: nat, ghost p: nat, ghost req: nat)
      requires Valid() && inOp && InodesOk(d0, ino0) && i < |inodes| && tot < |src| && off + |src| <= MAXBYTES
      requires tot <= avail
      requires Written(d0, ino0, disk, inodes, i, off, src, tot) && (tot > 0 ==> (off + tot) % BSIZE == 0)
      requires Logs(sb, own0, disk, inodes[i], own, i, off, tot, tot, l0, Elems(calls))
      requires tot == 0 && off % BSIZE != 0 ==>
                 off / BSIZE < MAXFILE && Ref(disk, inodes[i], DataSlot(off / BSIZE)) != 0
      modifies this`disk, this`inodes, this`own, this`calls
      ensures Valid() && |inodes| == |old(inodes)| && tot + m + p <= |src| && old(calls) <= calls
      ensures Written(d0, ino0, disk, inodes, i, off, src, tot + m + p)
      ensures tot + m <= req <= |src| && Logs(sb, own0, disk, inodes[i], own, i, off, tot + m, req, l0, Elems(calls))
      ensures m > 0 ==> p == 0 && req == tot + m <= avail && (req < |src| ==> (off + req) % BSIZE == 0)
      ensures m == 0 ==> (Full(sb, disk) && p == 0 && req == tot) || tot + p == avail < |src|
    {
      hide DiskOk, InodesOk, OwnedOk, RefsOk, BitsOk, Keeps, Written, Full, Ref, SpliceBlock, Logs, Elems, Allocs,
        Grown;
      var o := off + tot;
      BlockInFile(o);
      ghost var d1, ino1, own1, l1 := disk, inodes, own, Elems(calls);
      var a := Bmap(i, o / BSIZE);
      WrittenKeeps(d0, ino0, d1, ino1, i, off, src, tot, disk, inodes);
      KeepsRefs(d1, ino1, disk, inodes, i);
      p, req := 0, tot;
      if a == 0 {
        m := 0;
        LogsStopped(sb, own0, d1, ino1, own1, disk, inodes, own, i, off, tot, l0, l1, Elems(calls));
        return;
      }
      m := if |src| - tot < BSIZE - o % BSIZE then |src| - tot else BSIZE - o % BSIZE;
      LogsMore(sb, own0, d1, ino1, own1, disk, inodes, own, i, off, tot, m, l0, l1);
      req := tot + m;
      if tot + m > avail {
        // either_copyin fails after what can be read
        var n := avail - tot;
        if n > 0 {
          PatchLogs(sb, own0, disk, inodes, own, i, o, src[tot..avail], off, tot, req, l0, Elems(calls));
          WrittenChunk(sb, d0, ino0, disk, inodes, own, i, off, src, tot, n);
          disk := disk[a := SpliceBlock(disk[a], o % BSIZE, src[tot..avail])];
        }
        m, p := 0, n;
        return;
      }
      PatchLogs(sb, own0, disk, inodes, own, i, o, src[tot..tot + m], off, req, req, l0, Elems(calls) + {a});
      WrittenChunk(sb, d0, ino0, disk, inodes, own, i, off, src, tot, m);
      disk := disk[a := SpliceBlock(disk[a], o % BSIZE, src[tot..tot + m])];
      ghost var before := calls;
      LogWrite(a);
      ElemsOne(before, a);
    }

    /** The loop of writei. */
    method WriteBlocks(i: nat, off: nat, src: seq<bv8>, avail: nat) returns (tot: nat, ghost q: nat, ghost req: nat)
      requires ValidFiles() && inOp && i < |inodes| && off <= inodes[i].size && off + |src| <= MAXBYTES
      modifies this`disk, this`inodes, this`own, this`calls
      ensures Valid() && InodesOk(old(disk), old(inodes)) && |inodes| == |old(inodes)| && old(calls) <= calls
      ensures tot <= q <= |src| && tot <= avail && (q > tot ==> q == avail) && tot <= req <= |src|
      ensures tot < |src| ==> Full(sb, disk) || avail < |src|
      ensures avail >= |src| ==> q == req == tot
      ensures Written(old(disk), old(inodes), disk, inodes, i, off, src, q)
      ensures Logs(sb, old(own), disk, inodes[i], own, i, off, tot, req, Elems(old(calls)), Elems(calls))
    {
      hide DiskOk, InodeOk, OwnedOk, RefsOk, BitsOk, FilesOk, Keeps, Written, NoHoles, Full, Ref, Logs, Elems;
      ghost var d0, ino0, l0 := disk, inodes, Elems(calls);
      AddrsOk(disk, inodes, i);
      tot, q, req := 0, 0, 0;
      WrittenNone(disk, inodes, i, off, src);
      LogsNone(sb, own, disk, inodes[i], i, off, l0);
      while tot < |src|
        invariant tot <= |src| && i < |inodes| == |ino0| && old(calls) <= calls
        invariant q == req == tot <= avail
        invariant Valid() && Written(d0, ino0, disk, inodes, i, off, src, tot)
        invariant 0 < tot < |src| ==> (off + tot) % BSIZE == 0
        invariant Logs(sb, old(own), disk, inodes[i], own, i, off, tot, tot, l0, Elems(calls))
        decreases |src| - tot
      {
        if tot == 0 && off % BSIZE != 0 { FirstBlockThere(d0, ino0, disk, inodes, i, off, src); }
        var m;
        ghost var p;
        m, p, req := WriteOne(d0, ino0, old(own), l0, i, off, src, tot, avail);
        q := tot + m + p;
        if m == 0 {
          return;
        }
        tot := tot + m;
      }
    }

    /**
     readi: the bytes of file `i` from `off` on, at most n and not beyond the end; -1 when the
     destination takes only `room` bytes and that is too few. An offset beyond the end, or
     off + n wrapping around 32 bits, yields nothing.
     */
    method Readi(i: nat, off: nat, n: nat, room: nat) returns (r: int, dst: seq<bv8>)
      requires ValidFiles() && i < |inodes| && off < UINT && n < UINT
      modifies this`disk, this`inodes, this`own, this`calls
      ensures ValidFiles() && disk == old(disk) && inodes == old(inodes) && own == old(own) && calls == old(calls)
      ensures r >= 0 ==> |dst| == r
      ensures dst == [] || (off + |dst| <= inodes[i].size && dst == Files(disk, inodes)[i][off..off + |dst|])
      ensures off > inodes[i].size || off + n >= UINT ==> r == 0
      ensures off <= inodes[i].size && off + n < UINT ==>
                && (r == -1 <==> room < n && off + room < inodes[i].size)
                && (r != -1 ==> 0 <= r <= n && off + r <= inodes[i].size && (r < n ==> off + r == inodes[i].size))
    {
      hide DiskOk, InodesOk, OwnedOk, RefsOk, BitsOk, Keeps, NoHoles, Full, Ref, Content, FilesOk, Files, Grown, Allocs;
      dst := [];
      WrapsOnlyWhenLarge(off, n);
      if off > inodes[i].size || (off + n) % UINT < off {
        return 0, dst;
      }
      FileOk(disk, inodes, i);
      FilesAt(disk, inodes, i);
      var len := if off + n > inodes[i].size then inodes[i].size - off else n;
      ghost var c := Content(disk, inodes[i]);
      var tot := 0;
      while tot < len
        invariant tot <= len && tot <= room && ValidFiles()
        invariant disk == old(disk) && inodes == old(inodes) && own == old(own) && calls == old(calls)
        invariant dst == c[off..off + tot]
        decreases len - tot
      {
        var o := off + tot;
        AllocatedBelow(disk, inodes[i], o);
        BlockInFile(o);
        var addr := Bmap(i, o / BSIZE);
        if addr == 0 {
          break;
        }
        var m := if len - tot < BSIZE - o % BSIZE then len - tot else BSIZE - o % BSIZE;
        if tot + m > room {
          return -1, dst;
        }
        ReadChunk(sb, disk, inodes, own, i, o, m);
        dst := dst + disk[addr][o % BSIZE..o % BSIZE + m];
        SlicesJoin(c, off, o, o + m);
        tot := tot + m;
      }
      r := tot;
    }

    /**
     itrunc: free every block of file `i`. Each of them is allocated, so bfree never panics,
     and no other file's contents change. What is logged is exactly the bitmap blocks of these
     blocks, and the inode.
     */
    method Itrunc(i: nat) returns (panic: bool)
      requires ValidFiles() && inOp && i < |inodes|
      modifies this`disk, this`inodes, this`dinodes, this`own, this`calls
      ensures !panic && ValidFiles() && |inodes| == |old(inodes)|
      ensures inodes == old(inodes)[i := EmptyInode()] && dinodes == old(dinodes)[i := EmptyInode()]
      ensures Files(disk, inodes) == old(Files(disk, inodes))[i := []]
      ensures DiskOk(sb, old(disk)) && Cleared(sb, old(disk), disk, OwnedBy(old(own), i, 0, NSLOT))
      ensures own == Disowned(old(own), OwnedBy(old(own), i, 0, NSLOT))
      ensures old(calls) < calls && calls[|calls| - 1] == IBlock(sb, i)
      ensures FreeLogs(sb, old(calls), calls[..|calls| - 1], OwnedBy(old(own), i, 0, NSLOT))
    {
      hide DiskOk, InodesOk, OwnedOk, RefsOk, BitsOk, FilesOk, Cleared, OthersKept, OwnedBy, Disowned, Content, Ref,
        Files, FreeLogs;
      ghost var d0, ino0, own0 := disk, inodes, own;
      panic := TruncDirect(i);
      if panic {
        return;
      }
      ghost var d1, ino1, own1, calls1 := disk, inodes, own, calls;
      panic := TruncIndirect(i);
      if panic {
        return;
      }
      OwnedAfter(own0, i, 0, NDIRECT, NSLOT);
      FreeLogsJoin(sb, old(calls), calls1, calls, OwnedBy(own0, i, 0, NDIRECT), OwnedBy(own1, i, NDIRECT, NSLOT));
      FreeLogsPrefix(sb, old(calls), calls, OwnedBy(own0, i, 0, NSLOT));
      TruncDone(sb, d0, ino0, own0, d1, ino1, disk, inodes, i);
      TruncSize(sb, disk, inodes, own, i);
      FilesSet(d0, ino0, disk, inodes[i := inodes[i].(size := 0)], i, []);
      inodes := inodes[i := inodes[i].(size := 0)];
      ghost var calls2 := calls;
      Iupdate(i);
      assert calls[..|calls| - 1] == calls2;
    }

    method TruncDirect(i: nat) returns (panic: bool)
      requires Valid() && inOp && i < |inodes|
      modifies this`disk, this`inodes, this`own, this`calls
      ensures !panic && Valid() && InodesOk(old(disk), old(inodes)) && DiskOk(sb, old(disk))
      ensures Cut(inodes, old(inodes), i, NDIRECT)
      ensures Cleared(sb, old(disk), disk, OwnedBy(old(own), i, 0, NDIRECT))
      ensures own == Disowned(old(own), OwnedBy(old(own), i, 0, NDIRECT))
      ensures FreeLogs(sb, old(calls), calls, OwnedBy(old(own), i, 0, NDIRECT))
    {
      hide DiskOk, InodesOk, OwnedOk, RefsOk, BitsOk, Cleared, OwnedBy, Disowned, BitSet, Word, MarkFree, BBlock,
        FreeLogs;
      ghost var d0, ino0, own0 := disk, inodes, own;
      AddrsLength(disk, inodes, i);
      ClearedNone(sb, disk);
      OwnedByMore(own, i, 0, 0);
      DisownedNone(own);
      FreeLogsNone(sb, calls);
      panic := false;
      var k := 0;
      while k < NDIRECT
        invariant !panic && k <= NDIRECT && Valid() && Cut(inodes, ino0, i, k)
        invariant Cleared(sb, d0, disk, OwnedBy(own0, i, 0, k)) && own == Disowned(own0, OwnedBy(own0, i, 0, k))
        invariant FreeLogs(sb, old(calls), calls, OwnedBy(own0, i, 0, k))
      {
        OwnedByMore(own0, i, 0, k);
        OwnedAfter(own0, i, 0, k, k + 1);
        SlotBlocks(sb, disk, inodes, own, i, k);
        var b := inodes[i].addrs[k];
        NoneZero();
        assert OwnedBy(own0, i, 0, k) + {} == OwnedBy(own0, i, 0, k);
        if b != 0 {
          OneSome(b);
          DetachAddr(sb, disk, inodes, own, i, k);
          FreeLogsOne(sb, old(calls), calls, OwnedBy(own0, i, 0, k), b);
          ghost var d1 := disk;
          panic := Bfree(b);
          if panic {
            return;
          }
          ClearedTrans(sb, d0, d1, disk, OwnedBy(own0, i, 0, k), {b});
          DisownedTwice(own0, OwnedBy(own0, i, 0, k), {b});
          inodes := PutAddr(inodes, i, k, 0);
          own := Disowned(own, {b});
        }
        k := k + 1;
      }
    }

    method TruncIndirect(i: nat) returns (panic: bool)
      requires Valid() && inOp && i < |inodes|
      modifies this`disk, this`inodes, this`own, this`calls
      ensures !panic && Valid() && InodesOk(old(disk), old(inodes)) && DiskOk(sb, old(disk))
      ensures |old(inodes)[i].addrs| == NDIRECT + 1 && inodes == PutAddr(old(inodes), i, NDIRECT, 0)
      ensures Cleared(sb, old(disk), disk, OwnedBy(old(own), i, NDIRECT, NSLOT))
      ensures own == Disowned(old(own), OwnedBy(old(own), i, NDIRECT, NSLOT))
      ensures FreeLogs(sb, old(calls), calls, OwnedBy(old(own), i, NDIRECT, NSLOT))
    {
      hide DiskOk, InodesOk, OwnedOk, RefsOk, BitsOk, Cleared, OwnedBy, Disowned, BitSet, Word, MarkFree, BBlock, Ref,
        FreeLogs;
      ghost var d0, own0 := disk, own;
      AddrsLength(disk, inodes, i);
      ClearedNone(sb, disk);
      FreeLogsNone(sb, calls);
      panic := false;
      var ind := inodes[i].addrs[NDIRECT];
      if ind != 0 {
        IndirectBlock(sb, disk, inodes, own, i);
        var a := disk[ind];
        var j := 0;
        OwnedByMore(own0, i, NDIRECT + 1, NDIRECT + 1);
        while j < NINDIRECT
          invariant !panic && j <= NINDIRECT && inodes == old(inodes) && own == own0
          invariant Cleared(sb, d0, disk, OwnedBy(own0, i, NDIRECT + 1, NDIRECT + 1 + j))
          invariant FreeLogs(sb, old(calls), calls, OwnedBy(own0, i, NDIRECT + 1, NDIRECT + 1 + j))
        {
          OwnedByMore(own0, i, NDIRECT + 1, NDIRECT + 1 + j);
          EntryBlock(sb, d0, inodes, own0, i, j);
          NoneZero();
          assert OwnedBy(own0, i, NDIRECT + 1, NDIRECT + 1 + j) + {} == OwnedBy(own0, i, NDIRECT + 1, NDIRECT + 1 + j);
          if Word(a, j) != 0 {
            OneSome(Word(a, j));
            StillSet(sb, d0, disk, OwnedBy(own0, i, NDIRECT + 1, NDIRECT + 1 + j), Word(a, j));
            ClearedMore(sb, d0, disk, OwnedBy(own0, i, NDIRECT + 1, NDIRECT + 1 + j), Word(a, j));
            FreeLogsOne(sb, old(calls), calls, OwnedBy(own0, i, NDIRECT + 1, NDIRECT + 1 + j), Word(a, j));
            panic := Bfree(Word(a, j));
            if panic {
              return;
            }
          }
          j := j + 1;
        }
        OwnedAfter(own0, i, NDIRECT, NDIRECT + 1, NSLOT);
        OwnedByMore(own0, i, NDIRECT, NDIRECT);
        SlotBlocks(sb, d0, inodes, own0, i, NDIRECT);
        OneSome(ind);
        IndirectApart(own0, i, ind);
        StillSet(sb, d0, disk, OwnedBy(own0, i, NDIRECT + 1, NSLOT), ind);
        ClearedMore(sb, d0, disk, OwnedBy(own0, i, NDIRECT + 1, NSLOT), ind);
        FreeLogsOne(sb, old(calls), calls, OwnedBy(own0, i, NDIRECT + 1, NSLOT), ind);
        panic := Bfree(ind);
        if panic {
          return;
        }
      } else {
        NoIndirect(sb, d0, inodes, own0, i);
      }
      assert Cleared(sb, d0, disk, OwnedBy(own0, i, NDIRECT, NSLOT));
      DetachIndirect(sb, d0, inodes, own0, i, disk);
      inodes := PutAddr(inodes, i, NDIRECT, 0);
      own := Disowned(own, OwnedBy(own0, i, NDIRECT, NSLOT));
    }

    /** One operation of filewrite. */
    method WriteChunk(i: nat, off: nat, src: seq<bv8>, avail: nat) returns (r: int, ghost q: nat)
      requires ValidFiles() && !inOp && i < |inodes| && off < UINT && |src| <= CHUNK
      modifies this`disk, this`inodes, this`dinodes, this`own, this`inOp, this`calls, this`ops
      ensures ValidFiles() && !inOp && |inodes| == |old(inodes)|
      ensures |ops| == |old(ops)| + 1 && old(ops) <= ops && OpOk(sb, ops[|ops| - 1])
      ensures r == -1 <==> off > old(inodes[i].size) || off + |src| > MAXBYTES
      ensures r == -1 ==> disk == old(disk) && inodes == old(inodes) && dinodes == old(dinodes)
      ensures r != -1 ==>
                && 0 <= r <= q <= |src| && r <= avail && (avail >= |src| ==> q == r)
                && (r < |src| ==> Full(sb, disk) || avail < |src|)
                && Files(disk, inodes) ==
                   old(Files(disk, inodes))[i := Laid(old(Files(disk, inodes)[i]), off, src[..q], r)]
    {
      hide DiskOk, InodesOk, OwnedOk, RefsOk, BitsOk, FilesOk, Laid, Full, Files, Logs, OpOk, Elems;
      BeginOp();
      ElemsNone();
      ghost var req;
      r, q, req := Writei(i, off, src, avail);
      WriteFits(sb, old(own), disk, inodes, own, i, off, |src|, r, req, calls);
      EndOp();
    }

    /**
     filewrite on an inode: write `src` at the file offset, in chunks that are one log
     operation each; only the first `avail` bytes of the source can be read. Every operation
     stays within its reservation, and the file receives the first foff' - foff bytes, all of
     them exactly when the result is not -1.
     */
    method FileWrite(i: nat, foff: nat, src: seq<bv8>, avail: nat) returns (ret: int, foff': nat, ghost q: nat)
      requires ValidFiles() && !inOp && i < |inodes| && foff < UINT && |src| < UINT
      modifies this`disk, this`inodes, this`dinodes, this`own, this`inOp, this`calls, this`ops
      ensures ValidFiles() && !inOp && |inodes| == |old(inodes)|
      ensures old(ops) <= ops && forall k :: |old(ops)| <= k < |ops| ==> OpOk(sb, ops[k])
      ensures |ops| == |old(ops)| + if ret == -1 then (foff' - foff) / CHUNK + 1 else (|src| + CHUNK - 1) / CHUNK
      ensures foff <= foff' <= foff + |src| && (ret == |src| || ret == -1) && (ret == |src| <==> foff' == foff + |src|)
      ensures foff > old(inodes[i].size) ==> foff' == foff && disk == old(disk) && inodes == old(inodes)
      ensures foff <= old(inodes[i].size) ==>
                && foff' - foff <= q <= |src| && (avail >= |src| ==> q == foff' - foff)
                && Files(disk, inodes) ==
                   old(Files(disk, inodes))[i := Laid(old(Files(disk, inodes)[i]), foff, src[..q], foff' - foff)]
      ensures ret == -1 ==>
                foff > old(inodes[i].size) || foff + |src| > MAXBYTES || Full(sb, disk) || avail < |src|
    {
      hide DiskOk, InodesOk, OwnedOk, RefsOk, BitsOk, FilesOk, Splice, Laid, Full, Files, OpOk, ChunksDone;
      ghost var size0, fs0 := inodes[i].size, Files(disk, inodes);
      var k := 0;
      foff', q, ret := foff, 0, -1;
      ChunksStart(|src|);
      if foff <= size0 { LaidNothing(fs0[i], foff); }
      while k < |src|
        invariant k <= |src| && k <= avail && foff' == foff + k && q == k && ValidFiles() && !inOp
        invariant |inodes| == |old(inodes)| && old(ops) <= ops && ChunksDone(|src|, k, |ops| - |old(ops)|)
        invariant forall j :: |old(ops)| <= j < |ops| ==> OpOk(sb, ops[j])
        invariant foff > size0 ==> k == 0 && disk == old(disk) && inodes == old(inodes)
        invariant foff <= size0 ==> Files(disk, inodes) == fs0[i := Laid(fs0[i], foff, src[..k], k)]
        decreases |src| - k
      {
        var n1 := |src| - k;
        if n1 > CHUNK {
          n1 := CHUNK;
        }
        FileOk(disk, inodes, i);
        var r;
        ghost var q1;
        r, q1 := WriteChunk(i, foff', src[k..k + n1], avail - k);
        if r > 0 {
          foff' := foff' + r;
        }
        if r >= 0 && foff <= size0 {
          LaidMore(fs0[i], foff, src, k, n1, q1, r);
          q := k + q1;
        }
        ChunksMore(|src|, k, n1, if r > 0 then r else 0, |ops| - |old(ops)| - 1);
        if r != n1 {
          return;
        }
        k := k + r;
      }
      ChunksEnd(|src|, |ops| - |old(ops)|);
      ret := |src|;
    }

    /**
     Any sequence of calls: the files are what the same calls make of plain byte sequences,
     the ownership of blocks is in order after every one of them, and each result is the one
     that the files before the call demand; a write falls short only when the disk is full.
     */
    method RunCalls(cs: seq<Call>) returns (rs: seq<int>)
      requires ValidFiles() && inOp && forall c :: c in cs ==> CallOk(c, |inodes|)
      modifies this`disk, this`inodes, this`dinodes, this`own, this`calls
      ensures ValidFiles() && |rs| == |cs| && Files(disk, inodes) == Replay(old(Files(disk, inodes)), cs, rs)
      ensures ResultsOk(old(Files(disk, inodes)), cs, rs)
      ensures forall k :: 0 <= k < |cs| && Short(cs[k], rs[k]) && OnlyWrites(cs[k + 1..]) ==> Full(sb, disk)
    {
      hide DiskOk, InodesOk, OwnedOk, RefsOk, BitsOk, FilesOk, Splice, Laid, Full, Files, Replay, Cleared, OwnedBy,
        Disowned, Logs, ResultsOk, OnlyWrites;
      ghost var fs0 := Files(disk, inodes);
      rs := [];
      ReplayNone(fs0, cs[..0], rs);
      ResultsNone(fs0, cs[..0], rs);
      var k := 0;
      while k < |cs|
        invariant 0 <= k <= |cs| && |rs| == k && ValidFiles() && |inodes| == |old(inodes)|
        invariant Files(disk, inodes) == Replay(fs0, cs[..k], rs) && ResultsOk(fs0, cs[..k], rs)
        invariant forall j :: 0 <= j < k && Short(cs[j], rs[j]) && OnlyWrites(cs[j + 1..k]) ==> Full(sb, disk)
      {
        assert cs[k] in cs;
        ghost var fs1, d1, ino1, own1 := Files(disk, inodes), disk, inodes, own;
        var r := 0;
        match cs[k] {
          case Write(i, off, src) =>
            ghost var q, req;
            r, q, req := Writei(i, off, src, |src|);
            if r >= 0 {
              LaidAll(fs1[i], off, src[..r]);
              LogsFull(sb, d1, ino1, own1, disk, inodes, own, i, off, r, req);
            }
          case Truncate(i) =>
            var panic := Itrunc(i);
        }
        assert Files(disk, inodes) == Apply(fs1, cs[k], r);
        ReplayMore(fs0, cs, rs, k, r);
        ResultsMore(fs0, cs, rs, k, r);
        forall j | 0 <= j < k + 1 && Short(cs[j], (rs + [r])[j]) && OnlyWrites(cs[j + 1..k + 1])
          ensures Full(sb, disk)
        {
          if j < k { OnlyWritesFewer(cs, j + 1, k); }
        }
        rs := rs + [r];
        k := k + 1;
      }
      assert cs[..k] == cs;
      forall j | 0 <= j < |cs| && Short(cs[j], rs[j]) && OnlyWrites(cs[j + 1..]) ensures Full(sb, disk) {
        assert cs[j + 1..k] == cs[j + 1..];
      }
    }
  }
}
