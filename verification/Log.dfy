/**
 The on-disk side of the write-ahead log (kernel/log.c): block contents, the header
 block format, and what recovery makes of a disk.
 */
module LogDisk {
  import opened Params
  import opened Collections

  const WORDS: nat := 256 // BSIZE / sizeof(int)

  /** A disk block, seen as its 32-bit words. */
  type Block = seq<nat>
  type Disk = seq<Block>

  /** Where the log lives: `start` holds the header, `start + 1 ..` the logged blocks. */
  datatype Geometry = Geometry(start: nat, size: nat)

  ghost predicate InLog(g: Geometry, b: nat) {
    g.start <= b < g.start + g.size
  }

  /** A block of the file system proper, that is, one outside the log region. */
  ghost predicate Home(g: Geometry, d: Disk, b: nat) {
    b < |d| && !InLog(g, b)
  }

  ghost predicate DiskOk(g: Geometry, d: Disk) {
    && 1 <= g.size
    && g.start + g.size <= |d|
    && forall b :: 0 <= b < |d| ==> |d[b]| == WORDS
  }

  /** A list of block numbers that may stand in the header. */
  ghost predicate HeadOk(g: Geometry, d: Disk, h: seq<nat>) {
    && |h| <= LOGSIZE
    && |h| < g.size
    && Distinct(h)
    && forall i :: 0 <= i < |h| ==> Home(g, d, h[i])
  }

  // struct logheader: word 0 is n, words 1..n are the block numbers. Writing the header
  // leaves the words beyond n as they were.

  function EncodeHead(blk: Block, h: seq<nat>): (r: Block)
    requires |blk| == WORDS && |h| <= LOGSIZE
    ensures |r| == WORDS
  {
    [|h|] + h + blk[1 + |h|..]
  }

  function DecodeHead(blk: Block): (h: seq<nat>)
    requires |blk| == WORDS && blk[0] <= LOGSIZE
    ensures |h| == blk[0]
  {
    blk[1..1 + blk[0]]
  }

  lemma HeadRoundTrip(blk: Block, h: seq<nat>)
    requires |blk| == WORDS && |h| <= LOGSIZE
    ensures EncodeHead(blk, h)[0] == |h| && (forall i :: 0 <= i < |h| ==> EncodeHead(blk, h)[1 + i] == h[i])
    ensures forall i :: 1 + |h| <= i < WORDS ==> EncodeHead(blk, h)[i] == blk[i]
    ensures DecodeHead(EncodeHead(blk, h)) == h
  {
  }

  ghost predicate HasHead(g: Geometry, d: Disk) {
    DiskOk(g, d) && d[g.start][0] <= LOGSIZE
  }

  ghost function Head(g: Geometry, d: Disk): (h: seq<nat>)
    requires HasHead(g, d)
  {
    DecodeHead(d[g.start])
  }

  /** The i-th logged block. */
  function Slot(g: Geometry, d: Disk, i: nat): (blk: Block)
    requires g.start + 1 + i < |d|
  {
    d[g.start + 1 + i]
  }

  // The three kinds of single-block write the protocol performs.

  function PutSlot(g: Geometry, d: Disk, tail: nat, blk: Block): (r: Disk)
    requires g.start + 1 + tail < |d|
  {
    d[g.start + 1 + tail := blk]
  }

  function PutHead(g: Geometry, d: Disk, h: seq<nat>): (r: Disk)
    requires g.start < |d| && |d[g.start]| == WORDS && |h| <= LOGSIZE
  {
    d[g.start := EncodeHead(d[g.start], h)]
  }

  function InstallOne(g: Geometry, d: Disk, h: seq<nat>, tail: nat): (r: Disk)
    requires tail < |h| && h[tail] < |d| && g.start + 1 + tail < |d|
    ensures |r| == |d|
  {
    d[h[tail] := Slot(g, d, tail)]
  }

  /** The disk after installing the first `k` logged blocks. */
  ghost function Install(g: Geometry, d: Disk, h: seq<nat>, k: nat): (r: Disk)
    requires DiskOk(g, d) && HeadOk(g, d, h) && k <= |h|
    ensures |r| == |d|
  {
    if k == 0 then d else InstallOne(g, Install(g, d, h, k - 1), h, k - 1)
  }

  /** The contents of the home blocks. */
  ghost function HomeBlocks(g: Geometry, d: Disk): map<nat, Block> {
    map b | 0 <= b < |d| && !InLog(g, b) :: d[b]
  }

  ghost predicate Recoverable(g: Geometry, d: Disk) {
    HasHead(g, d) && HeadOk(g, d, Head(g, d))
  }

  /** The home blocks as an uninterrupted recovery would leave them. */
  ghost function Durable(g: Geometry, d: Disk): map<nat, Block>
    requires Recoverable(g, d)
  {
    HomeBlocks(g, Install(g, d, Head(g, d), |Head(g, d)|))
  }

  /** Installation copies slot `i` over the home block `h[i]` and touches nothing else. */
  lemma {:induction false} InstallAt(g: Geometry, d: Disk, h: seq<nat>, k: nat)
    requires DiskOk(g, d) && HeadOk(g, d, h) && k <= |h|
    ensures forall i :: 0 <= i < k ==> Install(g, d, h, k)[h[i]] == Slot(g, d, i)
    ensures forall b :: 0 <= b < |d| && b !in h[..k] ==> Install(g, d, h, k)[b] == d[b]
  {
    if k > 0 {
      InstallAt(g, d, h, k - 1);
      assert h[..k] == h[..k - 1] + [h[k - 1]];
      assert h[k - 1] !in h[..k - 1];
      assert Home(g, d, h[k - 1]);
    }
  }

  /** Two disks with the same home blocks outside `h` and the same slots recover alike. */
  lemma SameDurable(g: Geometry, d: Disk, d': Disk)
    requires Recoverable(g, d) && Recoverable(g, d') && |d| == |d'|
    requires Head(g, d) == Head(g, d')
    requires forall i :: 0 <= i < |Head(g, d)| ==> Slot(g, d, i) == Slot(g, d', i)
    requires forall b: nat :: Home(g, d, b) && b !in Head(g, d) ==> d[b] == d'[b]
    ensures Durable(g, d) == Durable(g, d')
  {
    var h := Head(g, d);
    InstallAt(g, d, h, |h|);
    InstallAt(g, d', h, |h|);
    assert h[..|h|] == h;
    var r, r' := Install(g, d, h, |h|), Install(g, d', h, |h|);
    forall b | 0 <= b < |d| && !InLog(g, b)
      ensures r[b] == r'[b]
    {
      if b in h {
        var i :| 0 <= i < |h| && h[i] == b;
      } else {
        assert Home(g, d, b);
      }
    }
  }

  /** An empty header means the home blocks are the durable state. */
  lemma DurableWhenEmpty(g: Geometry, d: Disk)
    requires Recoverable(g, d) && Head(g, d) == []
    ensures Durable(g, d) == HomeBlocks(g, d)
  {
  }

  /** While the header is empty, filling a log slot changes nothing durable. */
  lemma SlotKeepsDurable(g: Geometry, d: Disk, tail: nat, blk: Block)
    requires Recoverable(g, d) && Head(g, d) == []
    requires tail + 1 < g.size && |blk| == WORDS
    ensures Recoverable(g, PutSlot(g, d, tail, blk))
    ensures Head(g, PutSlot(g, d, tail, blk)) == []
    ensures HomeBlocks(g, PutSlot(g, d, tail, blk)) == HomeBlocks(g, d)
    ensures Durable(g, PutSlot(g, d, tail, blk)) == Durable(g, d)
  {
    var d' := PutSlot(g, d, tail, blk);
    assert d'[g.start] == d[g.start];
    assert HomeBlocks(g, d') == HomeBlocks(g, d);
    DurableWhenEmpty(g, d);
    DurableWhenEmpty(g, d');
  }

  lemma InstalledContents(g: Geometry, d: Disk, d': Disk, h: seq<nat>, upd: map<nat, Block>)
    requires DiskOk(g, d) && DiskOk(g, d') && HeadOk(g, d, h) && HeadOk(g, d', h) && |d'| == |d|
    requires upd.Keys == set i | 0 <= i < |h| :: h[i]
    requires forall i :: 0 <= i < |h| ==> Slot(g, d, i) == upd[h[i]]
    requires forall b :: 0 <= b < |d| && b != g.start ==> d'[b] == d[b]
    ensures forall b: nat :: Home(g, d, b) ==> Install(g, d', h, |h|)[b] == if b in upd then upd[b] else d[b]
  {
    InstallAt(g, d', h, |h|);
    assert h[..|h|] == h;
    var r := Install(g, d', h, |h|);
    forall b: nat | Home(g, d, b)
      ensures r[b] == if b in upd then upd[b] else d[b]
    {
      if b in upd {
        var i :| 0 <= i < |h| && h[i] == b;
        assert Slot(g, d', i) == Slot(g, d, i);
      } else {
        assert b !in h;
      }
    }
  }

  /** The commit point: with every slot filled, one header write makes all updates durable. */
  lemma HeadWriteCommits(g: Geometry, d: Disk, h: seq<nat>, upd: map<nat, Block>)
    requires DiskOk(g, d) && HeadOk(g, d, h)
    requires upd.Keys == set i | 0 <= i < |h| :: h[i]
    requires forall i :: 0 <= i < |h| ==> Slot(g, d, i) == upd[h[i]]
    ensures Recoverable(g, PutHead(g, d, h)) && Head(g, PutHead(g, d, h)) == h
    ensures Durable(g, PutHead(g, d, h)) == HomeBlocks(g, d) + upd
  {
    HeadRoundTrip(d[g.start], h);
    var d' := PutHead(g, d, h);
    assert forall i :: 0 <= i < |h| ==> Home(g, d, h[i]) ==> Home(g, d', h[i]);
    InstalledContents(g, d, d', h, upd);
    forall i | 0 <= i < |h| ensures h[i] in HomeBlocks(g, d) {
      assert Home(g, d, h[i]);
    }
    Overridden(g, d, Install(g, d', h, |h|), upd);
  }

  lemma Overridden(g: Geometry, d: Disk, r: Disk, upd: map<nat, Block>)
    requires |r| == |d|
    requires forall b: nat :: Home(g, d, b) ==> r[b] == if b in upd then upd[b] else d[b]
    requires upd.Keys <= HomeBlocks(g, d).Keys
    ensures HomeBlocks(g, r) == HomeBlocks(g, d) + upd
  {
    forall b: nat | b in HomeBlocks(g, d)
      ensures HomeBlocks(g, r)[b] == (HomeBlocks(g, d) + upd)[b]
    {
      assert Home(g, d, b);
    }
  }

  /** Installing a logged block, first time or again, leaves the durable state alone. */
  lemma InstallKeepsDurable(g: Geometry, d: Disk, tail: nat)
    requires Recoverable(g, d) && tail < |Head(g, d)|
    ensures Home(g, d, Head(g, d)[tail])
    ensures
      var d' := InstallOne(g, d, Head(g, d), tail);
      Recoverable(g, d') && Head(g, d') == Head(g, d) && Durable(g, d') == Durable(g, d)
  {
    var h := Head(g, d);
    assert Home(g, d, h[tail]);
    var d' := InstallOne(g, d, h, tail);
    assert d'[g.start] == d[g.start];
    assert forall b :: Home(g, d, b) ==> Home(g, d', b);
    SameDurable(g, d, d');
  }

  /** Once every logged block is installed the header may be cleared. */
  lemma EraseKeepsDurable(g: Geometry, d: Disk)
    requires Recoverable(g, d)
    requires forall i :: 0 <= i < |Head(g, d)| ==> Home(g, d, Head(g, d)[i]) ==> d[Head(g, d)[i]] == Slot(g, d, i)
    ensures Recoverable(g, PutHead(g, d, [])) && Head(g, PutHead(g, d, [])) == []
    ensures Durable(g, PutHead(g, d, [])) == Durable(g, d) == HomeBlocks(g, d)
  {
    var h := Head(g, d);
    HeadRoundTrip(d[g.start], []);
    var d' := PutHead(g, d, []);
    DurableWhenEmpty(g, d');
    InstallAt(g, d, h, |h|);
    assert h[..|h|] == h;
    var r := Install(g, d, h, |h|);
    forall b | 0 <= b < |d| && !InLog(g, b)
      ensures r[b] == d[b] == d'[b]
    {
      if b in h {
        var i :| 0 <= i < |h| && h[i] == b;
        assert Home(g, d, h[i]);
      }
    }
    assert HomeBlocks(g, r) == HomeBlocks(g, d);
    assert HomeBlocks(g, d') == HomeBlocks(g, d);
  }
}
