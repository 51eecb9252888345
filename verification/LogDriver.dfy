/** The functions of kernel/log.c in their own form, proved against the protocol's steps. */
module LogDriver {
  import opened Params
  import opened LogDisk
  import M = LogMachine
  import opened LogRuns

  ghost predicate StepTo(g: Geometry, s: M.State, s': M.State) {
    M.DiskStepReady(g, s) && M.DoDisk(g, s) == M.Ok(s')
  }

  /** Consecutive states one disk step apart. */
  ghost predicate DiskRun(g: Geometry, ss: seq<M.State>) {
    forall i, j :: 0 <= i && j == i + 1 && j < |ss| ==> StepTo(g, ss[i], ss[j])
  }

  /** The phase of commit() after `k` block writes. */
  function CommitPc(n: nat, k: nat): (pc: M.Pc)
    requires 0 < n && k <= 2 * n + 2
  {
    if k < n then M.WriteLog(k) else if k == n then M.WriteHead
    else if k <= 2 * n then M.InstallTrans(k - n - 1) else if k == 2 * n + 1 then M.EraseHead else M.Finish
  }

  /** One step of commit(): what it does to the position and to the two versions. */
  lemma CommitStep(g: Geometry, s: M.State, s': M.State, n: nat, k: nat)
    requires M.Inv(g, s) && 0 < n && k <= 2 * n + 1 && s.pc == CommitPc(n, k) && |s.lh| == n
    requires StepTo(g, s, s')
    ensures M.Inv(g, s') && s'.pc == CommitPc(n, k + 1)
    ensures k < 2 * n + 1 ==> |s'.lh| == n
    ensures M.Abs(g, s').current == M.Abs(g, s).current
    ensures M.Abs(g, s').durable == if k == n then M.Abs(g, s).current else M.Abs(g, s).durable
  {
    hide M.Inv, M.Abs;
    M.StepRefines(g, s, M.DiskStep);
  }

  /** commit() left alone: its 2n + 2 steps in order, and what is durable after each. */
  lemma {:induction false} CommitPhases(g: Geometry, ss: seq<M.State>, n: nat, k: nat)
    requires DiskRun(g, ss) && k < |ss| && 0 < n && k <= 2 * n + 2
    requires M.Inv(g, ss[0]) && ss[0].pc == M.WriteLog(0) && |ss[0].lh| == n
    ensures M.Inv(g, ss[k]) && ss[k].pc == CommitPc(n, k)
    ensures k <= 2 * n + 1 ==> |ss[k].lh| == n
    ensures M.Abs(g, ss[k]).durable == if k <= n then M.Abs(g, ss[0]).durable else M.Abs(g, ss[0]).current
    ensures M.Abs(g, ss[k]).current == M.Abs(g, ss[0]).current
  {
    hide M.Inv, M.Abs, StepTo;
    if k > 0 {
      CommitPhases(g, ss, n, k - 1);
      CommitStep(g, ss[k - 1], ss[k], n, k - 1);
    }
  }

  /** The phase of install_trans after `tail` blocks. */
  function InstallPc(recovering: bool, n: nat, tail: nat): (pc: M.Pc) {
    if recovering then if tail < n then M.Recover(tail) else M.RecoverErase
    else if tail < n then M.InstallTrans(tail) else M.EraseHead
  }

  ghost function InstallNext(g: Geometry, s: M.State, recovering: bool, tail: nat): (r: M.State)
    requires tail < |s.lh| && s.lh[tail] < |s.disk| && g.start + 1 + tail < |s.disk|
  {
    var b, pc, d := s.lh[tail], InstallPc(recovering, |s.lh|, tail + 1), InstallOne(g, s.disk, s.lh, tail);
    if recovering then s.(disk := d, pc := pc)
    else s.(disk := d, pc := pc, cache := s.cache - {b}, pins := s.pins - multiset{b})
  }

  lemma InstallStepTo(g: Geometry, s: M.State, recovering: bool, n: nat, tail: nat)
    requires DiskOk(g, s.disk) && HeadOk(g, s.disk, s.lh) && |s.lh| == n && tail < n
    requires s.pc == InstallPc(recovering, n, tail)
    ensures Home(g, s.disk, s.lh[tail])
    ensures StepTo(g, s, InstallNext(g, s, recovering, tail))
  {
  }

  /** From `m` and `l` on, the disks are those of the states. */
  ghost predicate SameDisks(ds: seq<Disk>, m: nat, ss: seq<M.State>, l: nat) {
    && m <= |ds| && |ds| - m + l == |ss|
    && forall i :: m <= i < |ds| ==> ds[i] == ss[i - m + l].disk
  }

  lemma SameDisksStart(ds: seq<Disk>, ss: seq<M.State>)
    ensures SameDisks(ds, |ds|, ss, |ss|)
  {
  }

  lemma SameDisksAdd(ds: seq<Disk>, m: nat, ss: seq<M.State>, l: nat, s: M.State)
    requires SameDisks(ds, m, ss, l)
    ensures SameDisks(ds + [s.disk], m, ss + [s], l)
  {
  }

  lemma SameDisksJoin(ds: seq<Disk>, m: nat, ss: seq<M.State>, l: nat, ds': seq<Disk>, ss': seq<M.State>)
    requires SameDisks(ds, m, ss, l) && ds <= ds' && ss <= ss' && SameDisks(ds', |ds|, ss', |ss|)
    ensures SameDisks(ds', m, ss', l)
  {
    forall i | m <= i < |ds'| ensures ds'[i] == ss'[i - m + l].disk {
      if i < |ds| {
        assert ds'[i] == ds[i] && ss'[i - m + l] == ss[i - m + l];
      }
    }
  }

  class Log {
    const g: Geometry
    const block: array<nat>        // log.lh.block
    var n: nat                     // log.lh.n
    var outstanding: int
    var committing: bool
    var disk: Disk
    var cache: map<nat, Block>     // pinned buffers
    var pins: multiset<nat>
    ghost var ops: map<nat, nat>   // operations in progress
    ghost var disks: seq<Disk>     // the disk at power-on and after each block write
    ghost var trace: seq<M.State>  // the protocol state after each block write

    ghost predicate Shaped()
      reads this, block
    {
      block.Length == LOGSIZE && n <= LOGSIZE
    }

    /** The protocol state, with the position of the calling code made explicit. */
    ghost function At(pc: M.Pc): (s: M.State)
      requires Shaped()
      reads this, block
    {
      M.State(disk, block[..n], outstanding, committing, cache, pins, ops, pc)
    }

    constructor (g: Geometry, disk: Disk)
      ensures Shaped() && Recorded() && this.g == g && fresh(block) && trace == []
      ensures At(M.Boot) == PowerOn(disk)
    {
      this.g := g;
      block := new nat[LOGSIZE];
      n, outstanding, committing := 0, 0, false;
      this.disk, cache, pins, ops, disks, trace := disk, map[], multiset{}, map[], [disk], [];
    }

    /** The disk is as the last recorded write left it. */
    ghost predicate Recorded()
      reads this
    {
      |disks| > 0 && disks[|disks| - 1] == disk
    }

    /** The disks recorded since `m` are those of the trace from `l` on. */
    ghost predicate Written(m: nat, l: nat)
      reads this
    {
      Recorded() && SameDisks(disks, m, trace, l)
    }

    /** bwrite of one block: the only place where the disk changes. */
    method Bwrite(b: nat, data: Block)
      requires Recorded() && b < |disk|
      modifies this`disk, this`disks
      ensures Recorded() && disk == old(disk)[b := data] && disks == old(disks) + [disk]
    {
      disk := disk[b := data];
      disks := disks + [disk];
    }

    /** One pass of begin_op's loop: admit the operation, or leave it to sleep. */
    method BeginOp(ghost op: nat) returns (admitted: bool)
      requires Shaped() && op !in ops
      modifies this
      ensures Shaped() && trace == old(trace) && disks == old(disks)
      ensures admitted <==> M.DoBegin(old(At(M.Idle)), op).Ok?
      ensures admitted <==> !old(committing) && old(n) + (old(outstanding) + 1) * MAXOPBLOCKS <= LOGSIZE
      ensures admitted ==> outstanding == old(outstanding) + 1
      ensures At(M.Idle) == if admitted then M.DoBegin(old(At(M.Idle)), op).s else old(At(M.Idle))
    {
      if committing {
        admitted := false;
      } else if n + (outstanding + 1) * MAXOPBLOCKS > LOGSIZE {
        admitted := false;
      } else {
        outstanding := outstanding + 1;
        ops := ops[op := 0];
        admitted := true;
      }
    }

    /** log_write of block `b`, whose buffer now holds `data`. */
    method LogWrite(ghost op: nat, b: nat, data: Block) returns (panic: bool)
      requires Shaped() && op in ops
      modifies this, block
      ensures Shaped() && trace == old(trace) && disks == old(disks)
      ensures panic <==> M.DoWrite(g, old(At(M.Idle)), op, b, data).Panic?
      ensures !panic ==> At(M.Idle) == M.DoWrite(g, old(At(M.Idle)), op, b, data).s
    {
      if n >= LOGSIZE || n >= g.size - 1 {
        return true;
      }
      if outstanding < 1 {
        return true;
      }
      var i := 0;
      while i < n && block[i] != b
        invariant 0 <= i <= n
        invariant forall j :: 0 <= j < i ==> block[j] != b
      {
        i := i + 1;
      }
      ghost var h := block[..n];
      cache := cache[b := data];
      block[i] := b;
      if i == n {
        pins := pins + multiset{b};
        n := n + 1;
        ops := ops[op := ops[op] + 1];
        assert block[..n] == h + [b];
      } else {
        assert h[i] == b;
        assert block[..n] == h;
      }
      return false;
    }

    /** The first critical section of end_op. */
    method EndOp(ghost op: nat) returns (panic: bool, doCommit: bool)
      requires Shaped() && op in ops
      modifies this
      ensures Shaped() && trace == old(trace) && disks == old(disks)
      ensures panic <==> M.DoEnd(old(At(M.Idle)), op).Panic?
      ensures !panic ==> var s' := M.DoEnd(old(At(M.Idle)), op).s; At(s'.pc) == s' && (doCommit <==> s'.committing)
      ensures outstanding == old(outstanding) - 1 && (panic <==> old(committing))
      ensures !panic ==> (doCommit <==> outstanding == 0)
    {
      doCommit := false;
      outstanding := outstanding - 1;
      ops := ops - {op};
      if committing {
        return true, false;
      }
      if outstanding == 0 {
        doCommit := true;
        committing := true;
      }
      return false, doCommit;
    }

    /**
     end_op as a whole. The last operation commits: all that was written since the last commit
     is at home on disk when it returns. Any other leaves the disk alone.
     */
    method EndAndCommit(ghost op: nat)
      requires Shaped() && Recorded() && op in ops && M.Inv(g, At(M.Idle))
      modifies this, block
      ensures Shaped() && Recorded() && M.Inv(g, At(M.Idle)) && ops == old(ops) - {op}
      ensures |old(ops)| == 1 ==> n == 0 && cache == map[] && HomeBlocks(g, disk) == old(HomeBlocks(g, disk) + cache)
      ensures |old(ops)| > 1 ==>
                n == old(n) && cache == old(cache) && disk == old(disk) && disks == old(disks) && trace == old(trace)
    {
      hide M.Inv, HomeBlocks, M.DoEnd, DiskRun, Committed, SameDisks, HeadOk, DiskOk;
      ghost var s := At(M.Idle);
      M.EndRefines(g, s, op);
      EndCases(g, s, op);
      var panic, doCommit := EndOp(op);
      if panic {
        return;
      }
      if doCommit {
        Commit();
        FinishIdle(g, At(M.Finish));
        committing := false;
      }
    }

    /** The disk and the header are in the shape that every block write relies on. */
    ghost predicate Writable()
      reads this, block
    {
      Shaped() && Recorded() && DiskOk(g, disk) && HeadOk(g, disk, block[..n])
    }

    /** The steps recorded since `l` lead from state `s` to the present one. */
    ghost predicate Traced(l: nat, s: M.State, k: nat, pc: M.Pc)
      reads this, block
    {
      && Shaped() && l <= |trace| && |trace| == l + k
      && DiskRun(g, [s] + trace[l..])
      && ([s] + trace[l..])[k] == At(pc)
    }

    lemma Untraced(pc: M.Pc)
      requires Shaped()
      ensures Traced(|trace|, At(pc), 0, pc)
    {
    }

    /** Note down the block write just made. */
    ghost method Record(l: nat, s: M.State, k: nat, was: M.State, pc': M.Pc)
      requires Shaped() && l <= |trace| && |trace| == l + k
      requires DiskRun(g, [s] + trace[l..]) && ([s] + trace[l..])[k] == was
      requires StepTo(g, was, At(pc'))
      modifies this`trace
      ensures trace == old(trace) + [At(pc')]
      ensures Traced(l, s, k + 1, pc')
    {
      trace := trace + [At(pc')];
      assert trace[l..] == old(trace)[l..] + [At(pc')];
      ExtendRun(g, [s] + old(trace)[l..], At(pc'));
      assert [s] + trace[l..] == [s] + old(trace)[l..] + [At(pc')];
    }

    /** The body of write_log's loop. */
    method WriteSlot(tail: nat, ghost l: nat, ghost s: M.State, ghost m: nat)
      requires Writable() && tail < n && block[tail] in cache && |cache[block[tail]]| == WORDS
      requires Traced(l, s, tail, CommitPc(n, tail)) && Written(m, l)
      modifies this`disk, this`disks, this`trace
      ensures Writable() && old(trace) <= trace && old(disks) <= disks
      ensures Traced(l, s, tail + 1, CommitPc(n, tail + 1)) && Written(m, l)
    {
      hide StepTo, DiskRun, SameDisks;
      ghost var was := At(M.WriteLog(tail));
      assert block[..n][tail] == block[tail];
      WriteLogStepTo(g, was, tail);
      Bwrite(g.start + tail + 1, cache[block[tail]]);
      SlotWritable(g, was.disk, disk, block[..n], tail);
      SameDisksAdd(old(disks), m, trace, l, At(CommitPc(n, tail + 1)));
      Record(l, s, tail, was, CommitPc(n, tail + 1));
    }

    /** write_log: copy the pinned blocks into the log slots. */
    method WriteLog()
      requires Writable() && n > 0
      requires forall i :: 0 <= i < n ==> block[i] in cache && |cache[block[i]]| == WORDS
      modifies this`disk, this`disks, this`trace
      ensures Writable() && old(trace) <= trace && old(disks) <= disks
      ensures Traced(|old(trace)|, old(At(M.WriteLog(0))), n, M.WriteHead)
      ensures Written(|old(disks)|, |old(trace)|)
    {
      hide StepTo, DiskRun, SameDisks, HeadOk, DiskOk;
      ghost var s, l := At(M.WriteLog(0)), |trace|;
      var tail := 0;
      SameDisksStart(disks, trace);
      Untraced(M.WriteLog(0));
      while tail < n
        invariant 0 <= tail <= n
        invariant Writable() && old(trace) <= trace && old(disks) <= disks
        invariant Traced(l, s, tail, CommitPc(n, tail))
        invariant Written(|old(disks)|, l)
      {
        WriteSlot(tail, l, s, |old(disks)|);
        tail := tail + 1;
      }
    }

    /** write_head: overwrite n and the block numbers in the header block. */
    method WriteHead(ghost was: M.State, ghost pc': M.Pc)
      requires Writable()
      requires was.disk == disk
      requires StepTo(g, was, At(pc').(disk := PutHead(g, disk, block[..n])))
      modifies this`disk, this`disks, this`trace
      ensures Writable() && old(trace) <= trace && old(disks) <= disks
      ensures disk == PutHead(g, old(disk), block[..n])
      ensures Traced(|old(trace)|, was, 1, pc')
      ensures Written(|old(disks)|, |old(trace)|)
    {
      hide StepTo, SameDisks;
      var hb := disk[g.start];
      hb := hb[0 := n];
      var i := 0;
      while i < n
        invariant 0 <= i <= n && |hb| == WORDS
        invariant hb == [n] + block[..i] + disk[g.start][1 + i..]
      {
        hb := hb[1 + i := block[i]];
        i := i + 1;
      }
      ghost var l, d := |trace|, disk;
      Bwrite(g.start, hb);
      HeadWritable(g, d, disk, block[..n]);
      assert trace[l..] == [];
      SameDisksStart(old(disks), trace);
      SameDisksAdd(old(disks), |old(disks)|, trace, l, At(pc'));
      Record(l, was, 0, was, pc');
    }

    /** The body of install_trans's loop. */
    method InstallBlock(recovering: bool, tail: nat)
      requires Writable() && tail < n && Home(g, disk, block[tail])
      modifies this`disk, this`disks, this`cache, this`pins
      ensures Writable() && disks == old(disks) + [disk]
      ensures At(InstallPc(recovering, n, tail + 1)) ==
              InstallNext(g, old(At(InstallPc(recovering, n, tail))), recovering, tail)
    {
      hide DiskRun, StepTo, SameDisks;
      var b := block[tail];
      ghost var d, h := disk, block[..n];
      assert h[tail] == b;
      Bwrite(b, disk[g.start + tail + 1]);
      HomeWritable(g, d, disk, h, b);
      assert disk == InstallOne(g, d, h, tail);
      if !recovering {
        cache := cache - {b};
        pins := pins - multiset{b};
      }
    }

    /** One pass of install_trans's loop with its record. */
    method InstallSlot(recovering: bool, tail: nat, ghost l: nat, ghost s: M.State, ghost m: nat)
      requires Writable() && tail < n
      requires Traced(l, s, tail, InstallPc(recovering, n, tail)) && Written(m, l)
      modifies this`disk, this`disks, this`trace, this`cache, this`pins
      ensures Writable() && old(trace) <= trace && old(disks) <= disks
      ensures Traced(l, s, tail + 1, InstallPc(recovering, n, tail + 1)) && Written(m, l)
    {
      hide StepTo, DiskRun, HeadOk, DiskOk, SameDisks, InstallOne;
      ghost var was := At(InstallPc(recovering, n, tail));
      InstallStepTo(g, was, recovering, n, tail);
      InstallBlock(recovering, tail);
      SameDisksAdd(old(disks), m, trace, l, At(InstallPc(recovering, n, tail + 1)));
      Record(l, s, tail, was, InstallPc(recovering, n, tail + 1));
    }

    /** install_trans: copy every logged block home; outside recovery also unpin it. */
    method InstallTrans(recovering: bool)
      requires Writable()
      modifies this`disk, this`disks, this`trace, this`cache, this`pins
      ensures Writable() && old(trace) <= trace && old(disks) <= disks
      ensures Traced(|old(trace)|, old(At(InstallPc(recovering, n, 0))), n, InstallPc(recovering, n, n))
      ensures Written(|old(disks)|, |old(trace)|)
    {
      hide StepTo, DiskRun, HeadOk, DiskOk, SameDisks;
      ghost var s, l := At(InstallPc(recovering, n, 0)), |trace|;
      var tail := 0;
      SameDisksStart(disks, trace);
      Untraced(InstallPc(recovering, n, 0));
      while tail < n
        invariant 0 <= tail <= n
        invariant Writable() && old(trace) <= trace && old(disks) <= disks
        invariant Traced(l, s, tail, InstallPc(recovering, n, tail))
        invariant Written(|old(disks)|, l)
      {
        InstallSlot(recovering, tail, l, s, |old(disks)|);
        tail := tail + 1;
      }
    }

    /** Two consecutive stretches of the trace make one. */
    lemma JoinTraced(l: nat, s: M.State, k: nat, mid: M.State, k': nat, pc: M.Pc)
      requires l + k <= |trace|
      requires DiskRun(g, [s] + trace[l..l + k]) && ([s] + trace[l..l + k])[k] == mid
      requires Traced(l + k, mid, k', pc)
      ensures Traced(l, s, k + k', pc)
    {
      hide StepTo;
      var ss, tt := [s] + trace[l..l + k], trace[l + k..];
      JoinRuns(g, ss, tt);
      assert ss + tt == [s] + trace[l..];
      if k' > 0 {
        assert ([mid] + tt)[k'] == tt[k' - 1] == (ss + tt)[k + k'];
      } else {
        assert (ss + tt)[k] == ss[k];
      }
    }

    lemma CommitStarts()
      requires Shaped() && Recorded() && n > 0 && M.Inv(g, At(M.WriteLog(0)))
      ensures Writable() && forall i :: 0 <= i < n ==> block[i] in cache && |cache[block[i]]| == WORDS
    {
      hide M.Inv;
      var s := At(M.WriteLog(0));
      CommitReady(g, s);
      assert forall i :: 0 <= i < n ==> s.lh[i] == block[i];
    }

    /**
     commit(): 2n + 2 block writes. After each of them recovery would restore the old
     contents, up to and including the last log block, and the new contents from the first
     header write on; at the end the home blocks hold the new contents and the log is empty.
     */
    method Commit()
      requires Shaped() && Recorded() && M.Inv(g, At(if n > 0 then M.WriteLog(0) else M.Finish))
      modifies this, block
      ensures Shaped() && M.Inv(g, At(M.Finish)) && n == 0 && cache == map[] && pins == multiset{}
      ensures old(trace) <= trace && old(disks) <= disks
      ensures Written(|old(disks)|, |old(trace)|)
      ensures old(n) > 0 ==> |trace| > 0 && trace[|trace| - 1] == At(M.Finish)
      ensures HomeBlocks(g, disk) == old(HomeBlocks(g, disk) + cache)
      ensures old(n) == 0 ==> trace == old(trace) && disk == old(disk)
      ensures old(n) > 0 ==>
                && DiskRun(g, [old(At(M.WriteLog(0)))] + trace[|old(trace)|..])
                && Committed(g, trace[|old(trace)|..], old(n), old(HomeBlocks(g, disk)),
                             old(HomeBlocks(g, disk) + cache))
    {
      hide M.Inv, DiskRun, DiskOk, HeadOk, Committed, HomeBlocks, SameDisks;
      SameDisksStart(disks, trace);
      if n > 0 {
        ghost var s, l, n0 := At(M.WriteLog(0)), |trace|, n;
        CommitStarts();
        CommitWrites();
        CommitResult(g, s, trace[l..], n0);
        assert trace[l..][2 * n0 + 1] == At(M.Finish) == trace[|trace| - 1];
      } else {
        AbsFinish(g, At(M.Finish));
      }
    }

    /** write_log and the header write that commits. */
    method LogAndHead()
      requires Writable() && n > 0
      requires forall i :: 0 <= i < n ==> block[i] in cache && |cache[block[i]]| == WORDS
      modifies this`disk, this`disks, this`trace
      ensures Writable() && old(trace) <= trace && old(disks) <= disks
      ensures Traced(|old(trace)|, old(At(M.WriteLog(0))), n + 1, M.InstallTrans(0))
      ensures Written(|old(disks)|, |old(trace)|)
    {
      hide StepTo, DiskRun, DiskOk, HeadOk, SameDisks;
      ghost var s, l := At(M.WriteLog(0)), |trace|;
      WriteLog();
      ghost var d1, t1, s1 := disks, trace, At(M.WriteHead);
      WriteHeadStepTo(g, s1);
      WriteHead(s1, M.InstallTrans(0));
      assert trace[l..l + n] == t1[l..];
      JoinTraced(l, s, n, s1, 1, M.InstallTrans(0));
      SameDisksJoin(d1, |old(disks)|, t1, l, disks, trace);
    }

    /** The four parts of commit() in order. */
    method CommitWrites()
      requires Writable() && n > 0
      requires forall i :: 0 <= i < n ==> block[i] in cache && |cache[block[i]]| == WORDS
      modifies this`disk, this`disks, this`trace, this`cache, this`pins, this`n
      ensures Writable() && old(trace) <= trace && old(disks) <= disks
      ensures Traced(|old(trace)|, old(At(M.WriteLog(0))), 2 * old(n) + 2, M.Finish)
      ensures Written(|old(disks)|, |old(trace)|)
    {
      hide StepTo, DiskRun, DiskOk, HeadOk, SameDisks;
      ghost var s, l, n0 := At(M.WriteLog(0)), |trace|, n;
      LogAndHead();
      ghost var d2, t2, s2 := disks, trace, At(M.InstallTrans(0));
      InstallAndErase(false);
      assert trace[l..l + n0 + 1] == t2[l..];
      JoinTraced(l, s, n0 + 1, s2, n0 + 1, M.Finish);
      SameDisksJoin(d2, |old(disks)|, t2, l, disks, trace);
    }

    /** install_trans, then erase the header: the end of commit() and of recovery. */
    method InstallAndErase(recovering: bool)
      requires Writable()
      modifies this`disk, this`disks, this`trace, this`cache, this`pins, this`n
      ensures Writable() && old(trace) <= trace && old(disks) <= disks && n == 0
      ensures var pc := if recovering then M.Idle else M.Finish;
              Traced(|old(trace)|, old(At(InstallPc(recovering, n, 0))), old(n) + 1, pc)
      ensures Written(|old(disks)|, |old(trace)|)
    {
      hide StepTo, DiskRun, DiskOk, HeadOk, SameDisks;
      ghost var s, l, n0 := At(InstallPc(recovering, n, 0)), |trace|, n;
      ghost var pc := if recovering then M.Idle else M.Finish;
      InstallTrans(recovering);
      ghost var d3, t3, s3 := disks, trace, At(InstallPc(recovering, n, n));
      EraseStepTo(g, s3, pc);
      n := 0;
      EmptyHeadOk(g, disk);
      assert block[..n] == [];
      WriteHead(s3, pc);
      SameDisksJoin(d3, |old(disks)|, t3, l, disks, trace);
      assert trace[l..l + n0] == t3[l..];
      JoinTraced(l, s, n0, s3, 1, pc);
    }

    /**
     recover_from_log, with a fresh machine: the home blocks get their durable contents, the
     log ends up empty, and a crash after any of the writes leaves the durable contents alone.
     */
    method RecoverFromLog()
      requires Shaped() && Recorded() && Recoverable(g, disk) && At(M.Boot) == PowerOn(disk) && trace == []
      modifies this, block
      ensures Shaped() && n == 0 && M.Inv(g, At(M.Idle))
      ensures old(disks) <= disks && |trace| > 1 && Written(|old(disks)|, 1)
      ensures trace[|trace| - 1] == At(M.Idle)
      ensures HomeBlocks(g, disk) == Durable(g, old(disk))
      ensures |trace| == |old(Head(g, disk))| + 2 && DiskRun(g, [old(At(M.Boot))] + trace)
      ensures forall i :: 0 <= i < |trace| ==>
                Recoverable(g, trace[i].disk) && Durable(g, trace[i].disk) == Durable(g, old(disk))
    {
      hide StepTo, DiskRun, DiskOk, HeadOk, M.PhaseOk, HomeBlocks, SameDisks;
      ghost var s, d := At(M.Boot), disk;
      ReadHead();
      BootStepTo(g, s);
      Untraced(M.Boot);
      assert [s] + trace[0..] == [s];
      SingletonRun(g, s);
      Record(0, s, 0, s, InstallPc(true, n, 0));
      ghost var n0, s1 := n, At(InstallPc(true, n, 0));
      InstallAndErase(true);
      assert trace[0..1] == [s1];
      JoinTraced(0, s, 1, s1, n0 + 1, M.Idle);
      assert trace[0..] == trace;
      RecoveryResult(g, d, s, trace);
      assert ([s] + trace)[n0 + 2] == trace[|trace| - 1];
    }

    /** read_head: load n and the block numbers from the header block. */
    method ReadHead()
      requires Shaped() && HasHead(g, disk)
      modifies this`n, block
      ensures Shaped() && block[..n] == Head(g, disk)
    {
      var lh := disk[g.start];
      n := lh[0];
      var i := 0;
      while i < n
        invariant 0 <= i <= n && n == lh[0]
        invariant block[..i] == lh[1..1 + i]
      {
        block[i] := lh[1 + i];
        i := i + 1;
      }
    }
  }

  lemma HeadWritable(g: Geometry, d: Disk, d': Disk, h: seq<nat>)
    requires DiskOk(g, d) && HeadOk(g, d, h)
    requires |d'| == |d| && |d'[g.start]| == WORDS
    requires forall x :: 0 <= x < |d| && x != g.start ==> d'[x] == d[x]
    ensures DiskOk(g, d') && HeadOk(g, d', h)
  {
    assert forall x: nat :: Home(g, d, x) ==> Home(g, d', x);
  }

  lemma HomeWritable(g: Geometry, d: Disk, d': Disk, h: seq<nat>, b: nat)
    requires DiskOk(g, d) && HeadOk(g, d, h) && Home(g, d, b)
    requires |d'| == |d| && |d'[b]| == WORDS
    requires forall x :: 0 <= x < |d| && x != b ==> d'[x] == d[x]
    ensures DiskOk(g, d') && HeadOk(g, d', h)
  {
    assert forall x: nat :: Home(g, d, x) ==> Home(g, d', x);
  }

  ghost predicate Committed(g: Geometry, ss: seq<M.State>, n: nat, before: map<nat, Block>, after: map<nat, Block>) {
    && |ss| == 2 * n + 2
    && forall i :: 0 <= i < |ss| ==>
         Recoverable(g, ss[i].disk) && Durable(g, ss[i].disk) == if i < n then before else after
  }

  lemma JoinRuns(g: Geometry, ss: seq<M.State>, tt: seq<M.State>)
    requires |ss| > 0 && DiskRun(g, ss) && DiskRun(g, [ss[|ss| - 1]] + tt)
    ensures DiskRun(g, ss + tt)
  {
    hide StepTo;
    var all, rest := ss + tt, [ss[|ss| - 1]] + tt;
    forall i, j | 0 <= i && j == i + 1 && j < |all| ensures StepTo(g, all[i], all[j]) {
      if j >= |ss| {
        assert all[i] == rest[i - |ss| + 1] && all[j] == rest[j - |ss| + 1];
      }
    }
  }

  lemma ExtendRun(g: Geometry, ss: seq<M.State>, s: M.State)
    requires |ss| > 0 && DiskRun(g, ss) && StepTo(g, ss[|ss| - 1], s)
    ensures DiskRun(g, ss + [s])
  {
    hide StepTo;
  }

  lemma SlotWritable(g: Geometry, d: Disk, d': Disk, h: seq<nat>, tail: nat)
    requires DiskOk(g, d) && HeadOk(g, d, h) && tail < |h|
    requires |d'| == |d| && |d'[g.start + 1 + tail]| == WORDS
    requires forall b :: 0 <= b < |d| && b != g.start + 1 + tail ==> d'[b] == d[b]
    ensures DiskOk(g, d') && HeadOk(g, d', h)
  {
    assert forall b: nat :: Home(g, d, b) ==> Home(g, d', b);
  }

  lemma WriteLogStepTo(g: Geometry, s: M.State, tail: nat)
    requires DiskOk(g, s.disk) && HeadOk(g, s.disk, s.lh) && tail < |s.lh| && s.pc == M.WriteLog(tail)
    requires s.lh[tail] in s.cache && |s.cache[s.lh[tail]]| == WORDS
    ensures var d := s.disk[g.start + tail + 1 := s.cache[s.lh[tail]]];
            StepTo(g, s, s.(disk := d, pc := CommitPc(|s.lh|, tail + 1)))
  {
  }

  lemma SingletonRun(g: Geometry, s: M.State)
    ensures DiskRun(g, [s])
  {
  }

  lemma BootStepTo(g: Geometry, s: M.State)
    requires Recoverable(g, s.disk) && s == PowerOn(s.disk)
    ensures DiskOk(g, s.disk) && HeadOk(g, s.disk, Head(g, s.disk))
    ensures StepTo(g, s, s.(lh := Head(g, s.disk), pc := InstallPc(true, |Head(g, s.disk)|, 0)))
  {
  }

  /** Recovery writes leave the durable version alone. */
  lemma RecoveryStep(g: Geometry, s: M.State, s': M.State)
    requires M.Inv(g, s) && (s.pc.Boot? || s.pc.Recover? || s.pc.RecoverErase?) && StepTo(g, s, s')
    ensures M.Inv(g, s') && M.Abs(g, s').durable == M.Abs(g, s).durable
    ensures s'.pc.Recover? || s'.pc.RecoverErase? || s'.pc.Idle?
  {
    hide M.Inv, M.Abs;
    M.StepRefines(g, s, M.DiskStep);
  }

  lemma {:induction false} RecoveryPhases(g: Geometry, ss: seq<M.State>, k: nat)
    requires DiskRun(g, ss) && k < |ss| && M.Inv(g, ss[0]) && ss[0].pc.Boot?
    ensures M.Inv(g, ss[k]) && M.Abs(g, ss[k]).durable == M.Abs(g, ss[0]).durable
    ensures ss[k].pc.Boot? || ss[k].pc.Recover? || ss[k].pc.RecoverErase? || (ss[k].pc.Idle? && k == |ss| - 1)
  {
    hide M.Inv, M.Abs, M.DoDisk, M.DiskStepReady;
    if k > 0 {
      RecoveryPhases(g, ss, k - 1);
      RecoveryStep(g, ss[k - 1], ss[k]);
      if ss[k].pc.Idle? && k < |ss| - 1 {
        IdleIsLast(g, ss[k], ss[k + 1]);
      }
    }
  }

  lemma IdleIsLast(g: Geometry, s: M.State, s': M.State)
    requires StepTo(g, s, s')
    ensures !s.pc.Idle?
  {
  }

  lemma BootInv(g: Geometry, d: Disk)
    requires Recoverable(g, d)
    ensures M.Inv(g, PowerOn(d)) && M.Abs(g, PowerOn(d)).durable == Durable(g, d)
  {
  }

  lemma RecoveryResult(g: Geometry, d: Disk, s: M.State, tt: seq<M.State>)
    requires Recoverable(g, d) && s == PowerOn(d) && DiskRun(g, [s] + tt) && |tt| > 0
    requires tt[|tt| - 1].pc.Idle? && tt[|tt| - 1].lh == []
    ensures M.Inv(g, tt[|tt| - 1]) && HomeBlocks(g, tt[|tt| - 1].disk) == Durable(g, d)
    ensures forall i :: 0 <= i < |tt| ==> Recoverable(g, tt[i].disk) && Durable(g, tt[i].disk) == Durable(g, d)
  {
    hide M.PhaseOk, DiskRun, HeadOk, HomeBlocks, Recoverable;
    BootInv(g, d);
    var ss := [s] + tt;
    forall i | 0 <= i < |tt|
      ensures M.Inv(g, tt[i]) && Recoverable(g, tt[i].disk) && Durable(g, tt[i].disk) == Durable(g, d)
    {
      RecoveryPhases(g, ss, i + 1);
      assert ss[i + 1] == tt[i];
    }
    IdleHome(g, tt[|tt| - 1]);
  }

  lemma CommitReady(g: Geometry, s: M.State)
    requires M.Inv(g, s) && s.pc == M.WriteLog(0)
    ensures DiskOk(g, s.disk) && HeadOk(g, s.disk, s.lh)
    ensures forall i :: 0 <= i < |s.lh| ==> s.lh[i] in s.cache && |s.cache[s.lh[i]]| == WORDS
  {
    forall i | 0 <= i < |s.lh| ensures s.lh[i] in s.cache {
      assert s.lh[i] in M.Logged(s.lh, 0);
    }
  }

  lemma EmptyHeadOk(g: Geometry, d: Disk)
    requires DiskOk(g, d)
    ensures HeadOk(g, d, [])
  {
  }

  lemma WriteHeadStepTo(g: Geometry, s: M.State)
    requires DiskOk(g, s.disk) && HeadOk(g, s.disk, s.lh) && s.pc.WriteHead? && |s.lh| > 0
    ensures StepTo(g, s, s.(disk := PutHead(g, s.disk, s.lh), pc := M.InstallTrans(0)))
  {
  }

  lemma EraseStepTo(g: Geometry, s: M.State, pc: M.Pc)
    requires DiskOk(g, s.disk) && HeadOk(g, s.disk, s.lh)
    requires (s.pc.EraseHead? && pc.Finish?) || (s.pc.RecoverErase? && pc.Idle?)
    ensures StepTo(g, s, s.(disk := PutHead(g, s.disk, []), lh := [], pc := pc))
  {
  }

  /** The durable contents after the (i+1)-st block write of a commit. */
  lemma CommitDurable(g: Geometry, s: M.State, tt: seq<M.State>, n: nat, i: nat)
    requires M.Inv(g, s) && s.pc == M.WriteLog(0) && |s.lh| == n
    requires 0 < n && i < |tt| <= 2 * n + 2 && DiskRun(g, [s] + tt)
    ensures M.Inv(g, tt[i]) && tt[i].pc == CommitPc(n, i + 1)
    ensures M.Abs(g, tt[i]).durable == if i < n then M.Abs(g, s).durable else M.Abs(g, s).current
    ensures M.Abs(g, tt[i]).current == M.Abs(g, s).current
  {
    hide M.Inv, M.Abs, DiskRun;
    CommitPhases(g, [s] + tt, n, i + 1);
    assert ([s] + tt)[i + 1] == tt[i];
  }

  /** At rest before and after a commit both versions are what the home blocks and cache say. */
  lemma AbsStart(g: Geometry, s: M.State)
    requires M.Inv(g, s) && s.pc.WriteLog?
    ensures M.Abs(g, s).durable == HomeBlocks(g, s.disk) && M.Abs(g, s).current == HomeBlocks(g, s.disk) + s.cache
  {
    DurableWhenEmpty(g, s.disk);
  }

  lemma AbsFinish(g: Geometry, s: M.State)
    requires M.Inv(g, s) && s.pc.Finish?
    ensures s.cache == map[] && s.pins == multiset{} && s.lh == [] && M.Abs(g, s).durable == HomeBlocks(g, s.disk)
  {
    assert M.Logged(s.lh, 0) == {};
    assert s.cache.Keys == {};
    DurableWhenEmpty(g, s.disk);
  }

  lemma CommitResult(g: Geometry, s: M.State, tt: seq<M.State>, n: nat)
    requires M.Inv(g, s) && s.pc == M.WriteLog(0) && |s.lh| == n
    requires 0 < n && |tt| == 2 * n + 2 && DiskRun(g, [s] + tt)
    ensures Committed(g, tt, n, HomeBlocks(g, s.disk), HomeBlocks(g, s.disk) + s.cache)
    ensures var z := tt[|tt| - 1];
            M.Inv(g, z) && z.cache == map[] && z.pins == multiset{} && z.lh == []
            && HomeBlocks(g, z.disk) == HomeBlocks(g, s.disk) + s.cache
  {
    hide M.PhaseOk, DiskRun, HeadOk, HomeBlocks, Recoverable;
    AbsStart(g, s);
    forall i | 0 <= i < |tt|
      ensures Recoverable(g, tt[i].disk) &&
              Durable(g, tt[i].disk) == if i < n then HomeBlocks(g, s.disk) else HomeBlocks(g, s.disk) + s.cache
    {
      CommitDurable(g, s, tt, n, i);
    }
    CommitDurable(g, s, tt, n, 2 * n + 1);
    AbsFinish(g, tt[|tt| - 1]);
  }

  /** The two ways in which end_op goes on. */
  lemma EndCases(g: Geometry, s: M.State, op: nat)
    requires M.Inv(g, s) && s.pc.Idle? && op in s.ops && M.DoEnd(s, op).Ok?
    ensures var s' := M.DoEnd(s, op).s;
            && s'.ops == s.ops - {op} && (s'.committing <==> |s.ops| == 1) && s'.disk == s.disk
            && s'.cache == s.cache && s'.lh == s.lh
            && s'.pc == (if !s'.committing then M.Idle else if |s.lh| > 0 then M.WriteLog(0) else M.Finish)
            && (|s.ops| == 1 ==> s'.ops == map[])
  {
    var ops := s.ops - {op};
    assert ops.Keys == s.ops.Keys - {op};
    if |s.ops| == 1 {
      assert |ops.Keys| == 0;
      assert ops == map[];
    }
  }

  /** After commit the log is idle again. */
  lemma FinishIdle(g: Geometry, s: M.State)
    requires M.Inv(g, s) && s.pc.Finish?
    ensures M.Inv(g, s.(committing := false, pc := M.Idle)) && s.ops == map[]
  {
  }
}
