/**
 The log as a protocol (kernel/log.c): any number of file-system operations calling
 begin_op, log_write and end_op in any interleaving, the group commit run by the last
 end_op one block write at a time, crashes at any point, and recovery, itself
 interruptible by crashes. The protocol refines a store with atomic, durable commits.
 */
module LogMachine {
  import opened Params
  import opened Collections
  import opened LogDisk

  /** What the machine is doing to the disk; each phase but the last is one block write. */
  datatype Pc =
    | Idle                    // nobody is in commit()
    | WriteLog(tail: nat)     // write_log, about to copy block `tail`
    | WriteHead               // first write_head: the commit point
    | InstallTrans(tail: nat) // install_trans(0)
    | EraseHead               // second write_head
    | Finish                  // commit() returned, log.committing still set
    | Boot                    // after a crash, before read_head
    | Recover(tail: nat)      // install_trans(1)
    | RecoverErase            // write_head of recover_from_log

  datatype State = State(
    disk: Disk,
    lh: seq<nat>,             // in-memory header: log.lh.block[..log.lh.n]
    outstanding: int,
    committing: bool,
    cache: map<nat, Block>,   // contents of the pinned buffers
    pins: multiset<nat>,      // bpin minus bunpin, per block
    ops: map<nat, nat>,       // operations in progress and how many blocks each appended
    pc: Pc)

  datatype Event =
    | BeginOp(op: nat)
    | LogWrite(op: nat, b: nat, data: Block)
    | EndOp(op: nat)
    | DiskStep                // the committer or recovery proceeds by one write
    | Crash

  datatype Outcome = Ok(s: State) | Blocked | Panic

  /** The guards of log_write that lead to panic. */
  predicate TooBig(g: Geometry, n: nat) {
    n >= LOGSIZE || n >= g.size - 1
  }

  function DoBegin(s: State, op: nat): (r: Outcome) {
    if s.committing then Blocked
    else if |s.lh| + (s.outstanding + 1) * MAXOPBLOCKS > LOGSIZE then Blocked
    else Ok(s.(outstanding := s.outstanding + 1, ops := s.ops[op := 0]))
  }

  function DoWrite(g: Geometry, s: State, op: nat, b: nat, data: Block): (r: Outcome)
    requires op in s.ops
  {
    if TooBig(g, |s.lh|) then Panic
    else if s.outstanding < 1 then Panic
    else if b in s.lh then Ok(s.(cache := s.cache[b := data]))
    else Ok(s.(cache := s.cache[b := data],
               lh := s.lh + [b],
               pins := s.pins + multiset{b},
               ops := s.ops[op := s.ops[op] + 1]))
  }

  function DoEnd(s: State, op: nat): (r: Outcome)
    requires op in s.ops
  {
    if s.committing then Panic
    else
      var s' := s.(outstanding := s.outstanding - 1, ops := s.ops - {op});
      if s'.outstanding != 0 then Ok(s')
      else Ok(s'.(committing := true, pc := if |s.lh| > 0 then WriteLog(0) else Finish))
  }

  ghost predicate DiskStepReady(g: Geometry, s: State) {
    && DiskOk(g, s.disk) && HeadOk(g, s.disk, s.lh)
    && (s.pc.WriteLog? ==> s.pc.tail < |s.lh| && s.lh[s.pc.tail] in s.cache)
    && (s.pc.InstallTrans? || s.pc.Recover? ==> s.pc.tail < |s.lh| && Home(g, s.disk, s.lh[s.pc.tail]))
    && (s.pc.Boot? ==> HasHead(g, s.disk))
  }

  ghost function DoDisk(g: Geometry, s: State): (r: Outcome)
    requires DiskStepReady(g, s)
  {
    match s.pc
    case Idle => Blocked
    case WriteLog(t) =>
      Ok(s.(disk := PutSlot(g, s.disk, t, s.cache[s.lh[t]]),
            pc := if t + 1 < |s.lh| then WriteLog(t + 1) else WriteHead))
    case WriteHead =>
      Ok(s.(disk := PutHead(g, s.disk, s.lh), pc := if |s.lh| > 0 then InstallTrans(0) else EraseHead))
    case InstallTrans(t) =>
      Ok(s.(disk := InstallOne(g, s.disk, s.lh, t),
            cache := s.cache - {s.lh[t]},
            pins := s.pins - multiset{s.lh[t]},
            pc := if t + 1 < |s.lh| then InstallTrans(t + 1) else EraseHead))
    case EraseHead =>
      Ok(s.(disk := PutHead(g, s.disk, []), lh := [], pc := Finish))
    case Finish =>
      Ok(s.(committing := false, pc := Idle))
    case Boot =>
      var h := Head(g, s.disk);
      Ok(s.(lh := h, pc := if |h| > 0 then Recover(0) else RecoverErase))
    case Recover(t) =>
      Ok(s.(disk := InstallOne(g, s.disk, s.lh, t),
            pc := if t + 1 < |s.lh| then Recover(t + 1) else RecoverErase))
    case RecoverErase =>
      Ok(s.(disk := PutHead(g, s.disk, []), lh := [], pc := Idle))
  }

  /** A crash loses everything but the disk. */
  function DoCrash(s: State): (r: State) {
    State(s.disk, [], 0, false, map[], multiset{}, map[], Boot)
  }

  /** What callers owe the log: live operations, home blocks, and whole blocks of data. */
  ghost predicate Enabled(g: Geometry, s: State, e: Event) {
    match e
    case BeginOp(op) => op !in s.ops && !s.pc.Boot? && !s.pc.Recover? && !s.pc.RecoverErase?
    case LogWrite(op, b, data) => op in s.ops && Home(g, s.disk, b) && |data| == WORDS
    case EndOp(op) => op in s.ops
    case DiskStep => DiskStepReady(g, s)
    case Crash => true
  }

  /** The per-operation bound: a block is appended only within the operation's reservation. */
  ghost predicate WithinBudget(s: State, e: Event) {
    e.LogWrite? && e.op in s.ops ==> s.ops[e.op] < MAXOPBLOCKS || e.b in s.lh
  }

  ghost function Step(g: Geometry, s: State, e: Event): (r: Outcome)
    requires Enabled(g, s, e)
  {
    match e
    case BeginOp(op) => DoBegin(s, op)
    case LogWrite(op, b, data) => DoWrite(g, s, op, b, data)
    case EndOp(op) => DoEnd(s, op)
    case DiskStep => DoDisk(g, s)
    case Crash => Ok(DoCrash(s))
  }

  // ---------------------------------------------------------------- invariant

  /** The blocks in the header from position `lo` on. */
  ghost function Logged(h: seq<nat>, lo: nat): set<nat> {
    set i | lo <= i < |h| :: h[i]
  }

  /** Slots `lo..hi` hold the cached contents of the blocks they are logged for. */
  ghost predicate SlotsHold(g: Geometry, s: State, lo: nat, hi: nat)
    requires DiskOk(g, s.disk) && HeadOk(g, s.disk, s.lh) && hi <= |s.lh|
  {
    forall i :: lo <= i < hi ==> s.lh[i] in s.cache && Slot(g, s.disk, i) == s.cache[s.lh[i]]
  }

  /** Home blocks of `h[..k]` already hold their logged contents. */
  ghost predicate Installed(g: Geometry, d: Disk, h: seq<nat>, k: nat)
    requires DiskOk(g, d) && HeadOk(g, d, h) && k <= |h|
  {
    forall i :: 0 <= i < k ==> Home(g, d, h[i]) && d[h[i]] == Slot(g, d, i)
  }

  ghost predicate CacheIs(s: State, lo: nat)
    requires lo <= |s.lh|
  {
    && s.cache.Keys == Logged(s.lh, lo)
    && s.pins == multiset(s.lh[lo..])
    && forall b :: b in s.cache ==> |s.cache[b]| == WORDS
  }

  ghost predicate Quiet(s: State) {
    s.outstanding == 0 && s.ops == map[] && s.committing
  }

  ghost predicate Down(s: State) {
    s.outstanding == 0 && s.ops == map[] && !s.committing && s.cache == map[] && s.pins == multiset{}
  }

  ghost predicate PhaseOk(g: Geometry, s: State)
    requires Recoverable(g, s.disk) && HeadOk(g, s.disk, s.lh)
  {
    var h := Head(g, s.disk);
    match s.pc
    case Idle => h == [] && CacheIs(s, 0) && !s.committing && (s.ops == map[] ==> s.lh == [])
    case WriteLog(t) => Quiet(s) && h == [] && CacheIs(s, 0) && t < |s.lh| && SlotsHold(g, s, 0, t)
    case WriteHead => Quiet(s) && h == [] && CacheIs(s, 0) && 0 < |s.lh| && SlotsHold(g, s, 0, |s.lh|)
    case InstallTrans(t) => Quiet(s) && h == s.lh && t < |s.lh| && CacheIs(s, t)
                            && SlotsHold(g, s, t, |s.lh|) && Installed(g, s.disk, h, t)
    case EraseHead => Quiet(s) && h == s.lh && CacheIs(s, |s.lh|) && Installed(g, s.disk, h, |h|)
    case Finish => Quiet(s) && h == [] && s.lh == [] && CacheIs(s, 0)
    case Boot => Down(s) && s.lh == []
    case Recover(t) => Down(s) && h == s.lh && t < |s.lh| && Installed(g, s.disk, h, t)
    case RecoverErase => Down(s) && h == s.lh && Installed(g, s.disk, h, |h|)
  }

  /** What is left of one operation's reservation after `used` appends. */
  function Left(used: nat): (r: nat)
    ensures r <= MAXOPBLOCKS
  {
    if used < MAXOPBLOCKS then MAXOPBLOCKS - used else 0
  }

  /** Blocks that the operations in progress may still append within their reservations. */
  ghost function Unused(ops: map<nat, nat>): (r: nat)
    ensures r <= |ops| * MAXOPBLOCKS
  {
    if |ops| == 0 then 0 else
      var k :| k in ops;
      assert (ops - {k}).Keys == ops.Keys - {k};
      Left(ops[k]) + Unused(ops - {k})
  }

  ghost predicate Inv(g: Geometry, s: State) {
    && Recoverable(g, s.disk)
    && HeadOk(g, s.disk, s.lh)
    && PhaseOk(g, s)
    && s.outstanding == |s.ops|
  }

  /** The reservation invariant: blocks logged plus blocks still reserved fit in the log. */
  ghost predicate Reserved(s: State) {
    |s.lh| + Unused(s.ops) <= LOGSIZE
  }

  // ------------------------------------------------------------- specification

  /** A store with a durable and a current version and a set of running operations. */
  datatype Store = Store(durable: map<nat, Block>, current: map<nat, Block>, active: set<nat>)

  datatype Action = Begin(op: nat) | Write(op: nat, b: nat, data: Block) | End(op: nat) | Commit | Lose | Stutter

  ghost predicate StoreStep(a: Store, act: Action, a': Store) {
    match act
    case Begin(op) => op !in a.active && a' == a.(active := a.active + {op})
    case Write(op, b, data) => op in a.active && b in a.current && a' == a.(current := a.current[b := data])
    case End(op) => op in a.active && a' == a.(active := a.active - {op})
    case Commit => a.active == {} && a' == a.(durable := a.current)
    case Lose => a' == Store(a.durable, a.durable, {})
    case Stutter => a' == a
  }

  /** During recovery nobody can read blocks yet, so the current version is the durable one. */
  ghost function Abs(g: Geometry, s: State): (a: Store)
    requires Inv(g, s)
  {
    var dur := Durable(g, s.disk);
    var cur := if s.pc.Boot? || s.pc.Recover? || s.pc.RecoverErase? then dur else HomeBlocks(g, s.disk) + s.cache;
    Store(dur, cur, s.ops.Keys)
  }

  ghost function Meaning(s: State, e: Event): (act: Action) {
    match e
    case BeginOp(op) => Begin(op)
    case LogWrite(op, b, data) => Write(op, b, data)
    case EndOp(op) => End(op)
    case DiskStep => if s.pc.WriteHead? then Commit else Stutter
    case Crash => Lose
  }

  // -------------------------------------------------------------------- proofs

  /** Between commits the invariant leaves the operations and their number open, if there are any. */
  lemma IdlePhase(g: Geometry, s: State, n: nat, ops: map<nat, nat>)
    requires Recoverable(g, s.disk) && HeadOk(g, s.disk, s.lh) && PhaseOk(g, s) && s.pc.Idle? && ops != map[]
    ensures PhaseOk(g, s.(outstanding := n, ops := ops))
  {
    hide DiskOk, HeadOk, Head, Recoverable, Logged;
  }

  lemma BeginKeepsInv(g: Geometry, s: State, op: nat)
    requires Inv(g, s) && Enabled(g, s, BeginOp(op)) && DoBegin(s, op).Ok?
    ensures Inv(g, DoBegin(s, op).s) && s.pc.Idle?
  {
    assert s.pc.Idle? by {
      hide DiskOk, HeadOk, Head, SlotsHold, Installed, Recoverable, CacheIs;
    }
    hide PhaseOk, HeadOk, Recoverable;
    assert s.ops[op := 0].Keys == s.ops.Keys + {op};
    assert op in s.ops[op := 0];
    IdlePhase(g, s, s.outstanding + 1, s.ops[op := 0]);
  }

  lemma BeginRefines(g: Geometry, s: State, op: nat)
    requires Inv(g, s) && Enabled(g, s, BeginOp(op)) && DoBegin(s, op).Ok?
    ensures var s' := DoBegin(s, op).s; Inv(g, s') && StoreStep(Abs(g, s), Begin(op), Abs(g, s'))
  {
    hide Inv, Durable, HomeBlocks;
    BeginKeepsInv(g, s, op);
    assert DoBegin(s, op).s.ops.Keys == s.ops.Keys + {op};
  }

  lemma LoggedAppend(h: seq<nat>, b: nat)
    ensures Logged(h + [b], 0) == Logged(h, 0) + {b}
  {
    var h' := h + [b];
    forall x | x in Logged(h, 0) ensures x in Logged(h', 0) {
      var i :| 0 <= i < |h| && h[i] == x;
      assert h'[i] == x;
    }
    assert h'[|h|] == b;
  }

  lemma CacheKeys(cache: map<nat, Block>, h: seq<nat>, b: nat, data: Block)
    requires cache.Keys == Logged(h, 0)
    ensures cache[b := data].Keys == Logged(if b in h then h else h + [b], 0)
  {
    if b in h {
      assert b in Logged(h, 0);
    } else {
      LoggedAppend(h, b);
    }
    assert cache[b := data].Keys == cache.Keys + {b};
  }

  lemma LoggedDrop(h: seq<nat>, t: nat)
    requires Distinct(h) && t < |h|
    ensures Logged(h, t + 1) == Logged(h, t) - {h[t]}
    ensures multiset(h[t..]) - multiset{h[t]} == multiset(h[t + 1..])
  {
    assert h[t..] == [h[t]] + h[t + 1..];
  }

  /** log_write keeps the cache in step with the header, whether it appends or absorbs. */
  lemma WriteKeepsCache(g: Geometry, s: State, op: nat, b: nat, data: Block)
    requires CacheIs(s, 0) && op in s.ops && |data| == WORDS && DoWrite(g, s, op, b, data).Ok?
    ensures CacheIs(DoWrite(g, s, op, b, data).s, 0)
  {
    hide Logged;
    CacheKeys(s.cache, s.lh, b, data);
    var s' := DoWrite(g, s, op, b, data).s;
    assert s.lh[0..] == s.lh;
    assert s'.lh[0..] == s'.lh;
  }

  lemma WriteKeepsHead(g: Geometry, s: State, op: nat, b: nat, data: Block)
    requires HeadOk(g, s.disk, s.lh) && op in s.ops && Home(g, s.disk, b)
    requires DoWrite(g, s, op, b, data).Ok?
    ensures HeadOk(g, s.disk, DoWrite(g, s, op, b, data).s.lh)
  {
    var h' := DoWrite(g, s, op, b, data).s.lh;
    forall i | 0 <= i < |h'| ensures Home(g, s.disk, h'[i]) {
      if i < |s.lh| { assert Home(g, s.disk, s.lh[i]); }
    }
  }

  lemma OverrideUpdate(home: map<nat, Block>, cache: map<nat, Block>, b: nat, data: Block)
    ensures (home + cache)[b := data] == home + cache[b := data]
  {
  }

  lemma WriteKeepsInv(g: Geometry, s: State, op: nat, b: nat, data: Block)
    requires Inv(g, s) && Enabled(g, s, LogWrite(op, b, data)) && DoWrite(g, s, op, b, data).Ok?
    ensures Inv(g, DoWrite(g, s, op, b, data).s) && s.pc.Idle?
  {
    assert op in s.ops.Keys;
    assert s.pc.Idle?;
    assert DoWrite(g, s, op, b, data).s.ops.Keys == s.ops.Keys;
    WriteKeepsHead(g, s, op, b, data);
    WriteKeepsCache(g, s, op, b, data);
  }

  lemma WriteRefines(g: Geometry, s: State, op: nat, b: nat, data: Block)
    requires Inv(g, s) && Enabled(g, s, LogWrite(op, b, data)) && DoWrite(g, s, op, b, data).Ok?
    ensures var s' := DoWrite(g, s, op, b, data).s; Inv(g, s') && StoreStep(Abs(g, s), Write(op, b, data), Abs(g, s'))
  {
    WriteKeepsInv(g, s, op, b, data);
    var s' := DoWrite(g, s, op, b, data).s;
    assert op in s.ops.Keys;
    assert s'.ops.Keys == s.ops.Keys;
    var home := HomeBlocks(g, s.disk);
    assert b in home;
    OverrideUpdate(home, s.cache, b, data);
  }

  lemma EndRefines(g: Geometry, s: State, op: nat)
    requires Inv(g, s) && Enabled(g, s, EndOp(op))
    ensures DoEnd(s, op).Ok?
    ensures var s' := DoEnd(s, op).s; Inv(g, s') && StoreStep(Abs(g, s), End(op), Abs(g, s'))
  {
    assert op in s.ops.Keys;
    assert (s.ops - {op}).Keys == s.ops.Keys - {op};
    assert s.pc.Idle?;
    assert |s.ops| >= 1;
    var s' := DoEnd(s, op).s;
    if s'.outstanding == 0 {
      assert |s'.ops.Keys| == 0;
      assert s'.ops == map[];
      assert s'.pc.WriteLog? ==> SlotsHold(g, s', 0, 0);
    }
  }

  lemma CrashRefines(g: Geometry, s: State)
    requires Inv(g, s)
    ensures var s' := DoCrash(s); Inv(g, s') && StoreStep(Abs(g, s), Lose, Abs(g, s'))
  {
  }

  lemma WriteLogRefines(g: Geometry, s: State)
    requires Inv(g, s) && s.pc.WriteLog?
    ensures DiskStepReady(g, s)
    ensures var s' := DoDisk(g, s).s; Inv(g, s') && Abs(g, s') == Abs(g, s)
  {
    var t := s.pc.tail;
    assert s.lh[t] in s.cache.Keys;
    SlotKeepsDurable(g, s.disk, t, s.cache[s.lh[t]]);
    var s' := DoDisk(g, s).s;
    assert HeadOk(g, s'.disk, s'.lh) by {
      assert forall b: nat :: Home(g, s.disk, b) ==> Home(g, s'.disk, b);
    }
    assert SlotsHold(g, s', 0, t + 1) by {
      assert forall i :: 0 <= i < t ==> Slot(g, s'.disk, i) == Slot(g, s.disk, i);
    }
  }

  lemma HeadWriteKeeps(g: Geometry, d: Disk, h: seq<nat>)
    requires DiskOk(g, d) && HeadOk(g, d, h)
    ensures var d' := PutHead(g, d, h);
            && |d'| == |d| && DiskOk(g, d')
            && HomeBlocks(g, d') == HomeBlocks(g, d)
            && (forall i :: 0 <= i < |h| ==> Slot(g, d', i) == Slot(g, d, i))
  {
    var d' := PutHead(g, d, h);
    assert forall b :: 0 <= b < |d| && b != g.start ==> d'[b] == d[b];
  }

  lemma HeadWriteReads(g: Geometry, d: Disk, h: seq<nat>)
    requires DiskOk(g, d) && HeadOk(g, d, h)
    ensures var d' := PutHead(g, d, h); Recoverable(g, d') && HeadOk(g, d', h) && Head(g, d') == h
  {
    HeadRoundTrip(d[g.start], h);
    assert forall b: nat :: Home(g, d, b) ==> Home(g, PutHead(g, d, h), b);
  }

  lemma WriteHeadKeepsInv(g: Geometry, s: State)
    requires Inv(g, s) && s.pc.WriteHead?
    ensures DiskStepReady(g, s) && Inv(g, DoDisk(g, s).s)
  {
    hide HomeBlocks, HeadOk, PutHead;
    HeadWriteReads(g, s.disk, s.lh);
    HeadWriteKeeps(g, s.disk, s.lh);
  }

  lemma WriteHeadView(g: Geometry, s: State)
    requires Inv(g, s) && s.pc.WriteHead?
    ensures var d' := PutHead(g, s.disk, s.lh);
            && Recoverable(g, d') && HomeBlocks(g, d') == HomeBlocks(g, s.disk)
            && Durable(g, d') == HomeBlocks(g, s.disk) + s.cache
  {
    HeadWriteCommits(g, s.disk, s.lh, s.cache);
    HeadWriteKeeps(g, s.disk, s.lh);
  }

  lemma WriteHeadRefines(g: Geometry, s: State)
    requires Inv(g, s) && s.pc.WriteHead?
    ensures DiskStepReady(g, s)
    ensures var s' := DoDisk(g, s).s; Inv(g, s') && StoreStep(Abs(g, s), Commit, Abs(g, s'))
  {
    WriteHeadKeepsInv(g, s);
    WriteHeadView(g, s);
    assert s.ops.Keys == {};
  }

  lemma InstallStepInstalled(g: Geometry, d: Disk, h: seq<nat>, t: nat)
    requires DiskOk(g, d) && HeadOk(g, d, h) && t < |h| && Home(g, d, h[t])
    requires Installed(g, d, h, t)
    ensures var d' := InstallOne(g, d, h, t);
            && DiskOk(g, d') && HeadOk(g, d', h) && Installed(g, d', h, t + 1)
            && forall i :: 0 <= i < |h| ==> Slot(g, d', i) == Slot(g, d, i)
  {
    var d' := InstallOne(g, d, h, t);
    assert forall b: nat :: Home(g, d, b) ==> Home(g, d', b);
    forall i | 0 <= i < t + 1 ensures Home(g, d', h[i]) && d'[h[i]] == Slot(g, d', i) {
      assert Home(g, d, h[i]);
    }
  }

  /** Dropping the cached copy of a block just as it is installed is invisible to readers. */
  lemma InstallKeepsView(g: Geometry, d: Disk, cache: map<nat, Block>, h: seq<nat>, t: nat)
    requires DiskOk(g, d) && HeadOk(g, d, h) && t < |h| && Home(g, d, h[t])
    requires h[t] in cache && cache[h[t]] == Slot(g, d, t)
    ensures HomeBlocks(g, InstallOne(g, d, h, t)) + (cache - {h[t]}) == HomeBlocks(g, d) + cache
  {
    var d' := InstallOne(g, d, h, t);
    var v, v' := HomeBlocks(g, d) + cache, HomeBlocks(g, d') + (cache - {h[t]});
    assert h[t] in HomeBlocks(g, d');
    assert v.Keys == v'.Keys;
    forall b | b in v ensures v'[b] == v[b] {
      if b != h[t] && b !in cache { assert d'[b] == d[b]; }
    }
  }

  lemma InstallTransKeepsCache(s: State, s': State, t: nat)
    requires t < |s.lh| && CacheIs(s, t) && Distinct(s.lh) && s'.lh == s.lh
    requires s'.cache == s.cache - {s.lh[t]} && s'.pins == s.pins - multiset{s.lh[t]}
    ensures CacheIs(s', t + 1)
  {
    LoggedDrop(s.lh, t);
    assert s'.cache.Keys == s.cache.Keys - {s.lh[t]};
  }

  lemma InstallTransKeepsSlots(g: Geometry, s: State, s': State, t: nat)
    requires DiskOk(g, s.disk) && HeadOk(g, s.disk, s.lh) && t < |s.lh| && s'.lh == s.lh
    requires DiskOk(g, s'.disk) && HeadOk(g, s'.disk, s'.lh)
    requires SlotsHold(g, s, t, |s.lh|) && s'.cache == s.cache - {s.lh[t]}
    requires forall i :: 0 <= i < |s.lh| ==> Slot(g, s'.disk, i) == Slot(g, s.disk, i)
    ensures SlotsHold(g, s', t + 1, |s.lh|)
  {
  }

  lemma InstallTransKeepsInv(g: Geometry, s: State)
    requires Inv(g, s) && s.pc.InstallTrans?
    ensures DiskStepReady(g, s)
    ensures var s' := DoDisk(g, s).s; Inv(g, s') && Durable(g, s'.disk) == Durable(g, s.disk)
  {
    var t := s.pc.tail;
    InstallKeepsDurable(g, s.disk, t);
    InstallStepInstalled(g, s.disk, s.lh, t);
    var s' := DoDisk(g, s).s;
    InstallTransKeepsCache(s, s', t);
    InstallTransKeepsSlots(g, s, s', t);
  }

  lemma InstallTransRefines(g: Geometry, s: State)
    requires Inv(g, s) && s.pc.InstallTrans?
    ensures DiskStepReady(g, s)
    ensures var s' := DoDisk(g, s).s; Inv(g, s') && Abs(g, s') == Abs(g, s)
  {
    InstallTransKeepsInv(g, s);
    InstallKeepsView(g, s.disk, s.cache, s.lh, s.pc.tail);
  }

  lemma EraseKeepsInv(g: Geometry, s: State)
    requires Inv(g, s) && (s.pc.EraseHead? || s.pc.RecoverErase?)
    ensures DiskStepReady(g, s)
    ensures Inv(g, DoDisk(g, s).s) && s.cache == map[]
    ensures Durable(g, DoDisk(g, s).s.disk) == Durable(g, s.disk) == HomeBlocks(g, s.disk)
    ensures HomeBlocks(g, DoDisk(g, s).s.disk) == HomeBlocks(g, s.disk)
  {
    hide Durable, SlotsHold, HomeBlocks;
    EraseKeepsDurable(g, s.disk);
    HeadWriteKeeps(g, s.disk, []);
    if s.pc.EraseHead? {
      assert s.cache.Keys == {};
    }
  }

  lemma EraseRefines(g: Geometry, s: State)
    requires Inv(g, s) && (s.pc.EraseHead? || s.pc.RecoverErase?)
    ensures DiskStepReady(g, s)
    ensures var s' := DoDisk(g, s).s; Inv(g, s') && Abs(g, s') == Abs(g, s)
  {
    hide Inv, Durable, HomeBlocks, PutHead;
    EraseKeepsInv(g, s);
  }

  lemma RecoverRefines(g: Geometry, s: State)
    requires Inv(g, s) && s.pc.Recover?
    ensures DiskStepReady(g, s)
    ensures var s' := DoDisk(g, s).s; Inv(g, s') && Abs(g, s') == Abs(g, s)
  {
    assert Home(g, s.disk, s.lh[s.pc.tail]);
    InstallKeepsDurable(g, s.disk, s.pc.tail);
    InstallStepInstalled(g, s.disk, s.lh, s.pc.tail);
  }

  /** Reading the header at boot, and admitting operations again after a commit. */
  lemma QuietRefines(g: Geometry, s: State)
    requires Inv(g, s) && (s.pc.Boot? || s.pc.Finish?)
    ensures DiskStepReady(g, s)
    ensures var s' := DoDisk(g, s).s; Inv(g, s') && Abs(g, s') == Abs(g, s)
  {
  }

  lemma AlwaysReady(g: Geometry, s: State)
    requires Inv(g, s)
    ensures DiskStepReady(g, s)
  {
  }

  lemma DiskStepRefines(g: Geometry, s: State)
    requires Inv(g, s)
    ensures DiskStepReady(g, s)
    ensures DoDisk(g, s).Ok? ==>
              var s' := DoDisk(g, s).s;
              Inv(g, s') && StoreStep(Abs(g, s), Meaning(s, DiskStep), Abs(g, s'))
  {
    hide Inv, Abs, DiskStepReady, PutHead, PutSlot, InstallOne, Head;
    AlwaysReady(g, s);
    match s.pc
    case Idle =>
    case WriteLog(t) => WriteLogRefines(g, s);
    case WriteHead => WriteHeadRefines(g, s);
    case InstallTrans(t) => InstallTransRefines(g, s);
    case EraseHead => EraseRefines(g, s);
    case RecoverErase => EraseRefines(g, s);
    case Recover(t) => RecoverRefines(g, s);
    case Boot => QuietRefines(g, s);
    case Finish => QuietRefines(g, s);
  }

  /**
   One step. From every state satisfying the invariant, whatever the event, the machine
   keeps the invariant and does exactly what the store specification allows; the durable
   version changes at the first header write and at no other step, and only when no
   operation is in progress.
   */
  lemma StepRefines(g: Geometry, s: State, e: Event)
    requires Inv(g, s)
    requires e.DiskStep? || Enabled(g, s, e)
    ensures Enabled(g, s, e)
    ensures Step(g, s, e).Ok? ==>
              var s' := Step(g, s, e).s;
              Inv(g, s') && StoreStep(Abs(g, s), Meaning(s, e), Abs(g, s'))
  {
    hide Inv, StoreStep, Abs;
    match e
    case BeginOp(op) => if DoBegin(s, op).Ok? { BeginRefines(g, s, op); }
    case LogWrite(op, b, data) => if DoWrite(g, s, op, b, data).Ok? { WriteRefines(g, s, op, b, data); }
    case EndOp(op) => EndRefines(g, s, op);
    case Crash => CrashRefines(g, s);
    case DiskStep => DiskStepRefines(g, s);
  }
}
