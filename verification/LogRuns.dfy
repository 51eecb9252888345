/** Whole runs of the log protocol: refinement, crash atomicity and log space. */
module LogRuns {
  import opened Params
  import opened Collections
  import opened LogDisk
  import opened LogMachine

  /** The machine as it powers on with disk `d`. */
  function PowerOn(d: Disk): (s: State) {
    State(d, [], 0, false, map[], multiset{}, map[], Boot)
  }

  ghost predicate Runs(g: Geometry, s: State, es: seq<Event>, s': State)
    decreases |es|
  {
    if es == [] then s' == s
    else Enabled(g, s, es[0]) && Step(g, s, es[0]).Ok? && Runs(g, Step(g, s, es[0]).s, es[1..], s')
  }

  ghost predicate StoreRuns(a: Store, acts: seq<Action>, a': Store)
    decreases |acts|
  {
    if acts == [] then a' == a
    else exists m :: StoreStep(a, acts[0], m) && StoreRuns(m, acts[1..], a')
  }

  ghost function Meanings(g: Geometry, s: State, es: seq<Event>, s': State): (acts: seq<Action>)
    requires Runs(g, s, es, s')
    decreases |es|
  {
    if es == [] then [] else [Meaning(s, es[0])] + Meanings(g, Step(g, s, es[0]).s, es[1..], s')
  }

  /** Every run of the log, crashes and all, is a run of the store with atomic commits. */
  lemma {:induction false} RunRefines(g: Geometry, s: State, es: seq<Event>, s': State)
    requires Inv(g, s) && Runs(g, s, es, s')
    ensures Inv(g, s') && StoreRuns(Abs(g, s), Meanings(g, s, es, s'), Abs(g, s'))
    decreases |es|
  {
    if es != [] {
      StepRefines(g, s, es[0]);
      var m := Step(g, s, es[0]).s;
      RunRefines(g, m, es[1..], s');
      var acts := Meanings(g, s, es, s');
      assert acts[1..] == Meanings(g, m, es[1..], s');
      assert StoreStep(Abs(g, s), acts[0], Abs(g, m));
    }
  }

  /** The same from power-on, with any disk whose header is sane. */
  lemma PowerOnRefines(g: Geometry, d: Disk, es: seq<Event>, s': State)
    requires Recoverable(g, d) && Runs(g, PowerOn(d), es, s')
    ensures Inv(g, PowerOn(d)) && Abs(g, PowerOn(d)) == Store(Durable(g, d), Durable(g, d), {})
    ensures Inv(g, s')
    ensures StoreRuns(Store(Durable(g, d), Durable(g, d), {}), Meanings(g, PowerOn(d), es, s'), Abs(g, s'))
  {
    assert PowerOn(d).ops.Keys == {};
    RunRefines(g, PowerOn(d), es, s');
  }

  // ------------------------------------------------------------ crash atomicity

  /** Does the run perform the first header write of a commit? */
  ghost predicate CommitsIn(g: Geometry, s: State, es: seq<Event>, s': State)
    requires Runs(g, s, es, s')
    decreases |es|
  {
    es != [] && ((es[0].DiskStep? && s.pc.WriteHead?) || CommitsIn(g, Step(g, s, es[0]).s, es[1..], s'))
  }

  ghost predicate OnlyDisk(es: seq<Event>) {
    forall i :: 0 <= i < |es| ==> es[i].DiskStep? || es[i].Crash?
  }

  ghost predicate BeforeCommitPoint(s: State) {
    s.pc.WriteLog? || s.pc.WriteHead?
  }

  lemma FinishEmpty(g: Geometry, s: State)
    requires Inv(g, s)
    ensures s.pc.Finish? ==> s.lh == []
  {
  }

  /** Where a disk step of commit or recovery leads. */
  lemma DiskStepLeads(g: Geometry, s: State, m: State)
    requires DiskStepReady(g, s) && DoDisk(g, s).Ok? && m == DoDisk(g, s).s && (s.pc.Finish? ==> s.lh == [])
    ensures m.pc.Idle? ==> m.lh == []
    ensures BeforeCommitPoint(m) ==> s.pc.WriteLog?
  {
    hide PutHead, PutSlot, InstallOne, Head;
    match s.pc
    case Idle =>
    case WriteLog(t) =>
    case WriteHead =>
    case InstallTrans(t) =>
    case EraseHead =>
    case Finish =>
    case Boot =>
    case Recover(t) =>
    case RecoverErase =>
  }

  /** One block write or crash: its effect on the durable and the current version. */
  lemma DiskOrCrash(g: Geometry, s: State, e: Event)
    requires Inv(g, s) && (e.DiskStep? || e.Crash?) && (s.pc.Idle? ==> s.lh == [])
    ensures Enabled(g, s, e)
    ensures Step(g, s, e).Ok? ==>
              var m := Step(g, s, e).s;
              && Inv(g, m) && (m.pc.Idle? ==> m.lh == [])
              && (BeforeCommitPoint(m) ==> BeforeCommitPoint(s) && Abs(g, m) == Abs(g, s))
              && Abs(g, m).durable == if e.DiskStep? && s.pc.WriteHead? then Abs(g, s).current else Abs(g, s).durable
  {
    hide Inv, Abs, DoDisk, DiskStepReady;
    StepRefines(g, s, e);
    FinishEmpty(g, s);
    if e.DiskStep? && DoDisk(g, s).Ok? {
      DiskStepLeads(g, s, DoDisk(g, s).s);
    }
  }

  /** Past the commit point no second commit happens by itself, crashes or not. */
  lemma {:induction false} NoSecondCommit(g: Geometry, s: State, es: seq<Event>, s': State)
    requires Inv(g, s) && Runs(g, s, es, s') && OnlyDisk(es) && (s.pc.Idle? ==> s.lh == [])
    requires !BeforeCommitPoint(s)
    ensures !CommitsIn(g, s, es, s')
    decreases |es|
  {
    if es != [] {
      DiskOrCrash(g, s, es[0]);
      NoSecondCommit(g, Step(g, s, es[0]).s, es[1..], s');
    }
  }

  /**
   No operation calls run, only block writes and crashes, any number of both. If the run
   gets past the commit point the durable state becomes the current one, else it stays.
   */
  lemma {:induction false} DurableAfter(g: Geometry, s: State, es: seq<Event>, s': State)
    requires Inv(g, s) && Runs(g, s, es, s') && OnlyDisk(es)
    requires s.pc.Idle? ==> s.lh == []
    ensures Inv(g, s') && (s'.pc.Idle? ==> s'.lh == [])
    ensures Abs(g, s').durable ==
              if CommitsIn(g, s, es, s') then Abs(g, s).current else Abs(g, s).durable
    decreases |es|
  {
    if es != [] {
      DiskOrCrash(g, s, es[0]);
      var m := Step(g, s, es[0]).s;
      DurableAfter(g, m, es[1..], s');
      if !BeforeCommitPoint(m) {
        NoSecondCommit(g, m, es[1..], s');
      }
    }
  }

  /**
   Crash atomicity. A commit is under way; the machine crashes and recovers any number of
   times, each time possibly crashing again during recovery. Whenever it is back to rest,
   the home blocks on disk are all of the transaction or none of it, and all of it exactly
   when the first header write reached the disk.
   */
  lemma CrashAtomicity(g: Geometry, s: State, es: seq<Event>, s': State)
    requires Inv(g, s) && s.pc == WriteLog(0)
    requires Runs(g, s, es, s') && OnlyDisk(es) && s'.pc.Idle?
    ensures HomeBlocks(g, s'.disk) ==
              if CommitsIn(g, s, es, s') then HomeBlocks(g, s.disk) + s.cache else HomeBlocks(g, s.disk)
  {
    DurableAfter(g, s, es, s');
    assert s'.cache.Keys == {};
    DurableWhenEmpty(g, s.disk);
    DurableWhenEmpty(g, s'.disk);
  }

  /** The number of writes recovery still has to do. */
  ghost function Remaining(g: Geometry, s: State): (n: nat)
    requires Inv(g, s)
  {
    match s.pc
    case Boot => |Head(g, s.disk)| + 2
    case Recover(t) => |s.lh| - t + 1
    case RecoverErase => 1
    case _ => 0
  }

  function Steps(n: nat): (es: seq<Event>) {
    seq(n, _ => DiskStep)
  }

  lemma RestHasNoSteps(g: Geometry, s: State)
    requires Inv(g, s) && s.pc.Idle?
    ensures Remaining(g, s) == 0
  {
  }

  lemma IdleHome(g: Geometry, s: State)
    requires Inv(g, s) && s.pc.Idle?
    ensures Durable(g, s.disk) == HomeBlocks(g, s.disk)
  {
    DurableWhenEmpty(g, s.disk);
  }

  lemma StepsTail(n: nat)
    requires n > 0
    ensures |Steps(n)| == n && Steps(n)[0] == DiskStep && Steps(n)[1..] == Steps(n - 1)
    ensures Steps(0) == []
  {
  }

  lemma RecoverOne(g: Geometry, s: State)
    requires Inv(g, s) && (s.pc.Boot? || s.pc.Recover? || s.pc.RecoverErase?)
    ensures Enabled(g, s, DiskStep) && Step(g, s, DiskStep).Ok?
    ensures var m := Step(g, s, DiskStep).s;
            && Inv(g, m) && Abs(g, m).durable == Abs(g, s).durable
            && (if s.pc.RecoverErase? then m.pc.Idle? && m.lh == [] else m.pc.Recover? || m.pc.RecoverErase?)
            && Remaining(g, m) == Remaining(g, s) - 1
  {
    hide Abs, Installed, SlotsHold, CacheIs, PutHead, PutSlot, InstallOne, HeadOk;
    StepRefines(g, s, DiskStep);
  }

  /**
   Recovery terminates: left alone for n + 2 steps after any crash, the machine is idle with
   an empty log and the durable contents in place.
   */
  lemma {:induction false} RecoveryCompletes(g: Geometry, s: State) returns (s': State)
    requires Inv(g, s) && (s.pc.Boot? || s.pc.Recover? || s.pc.RecoverErase?)
    ensures Runs(g, s, Steps(Remaining(g, s)), s')
    ensures Inv(g, s') && s'.pc.Idle? && s'.lh == []
    ensures HomeBlocks(g, s'.disk) == Durable(g, s.disk)
    decreases Remaining(g, s)
  {
    hide PhaseOk, Step, HomeBlocks, Durable, HeadOk, Remaining, Steps;
    RecoverOne(g, s);
    var m := Step(g, s, DiskStep).s;
    StepsTail(Remaining(g, s));
    if s.pc.RecoverErase? {
      s' := m;
      RestHasNoSteps(g, m);
      IdleHome(g, s');
    } else {
      s' := RecoveryCompletes(g, m);
    }
  }

  // ------------------------------------------------------------- group commit ends

  /** With no operation in progress and nobody in commit, nothing waits to be committed. */
  lemma RestIsDurable(g: Geometry, s: State)
    requires Inv(g, s) && s.pc.Idle? && s.ops == map[]
    ensures s.lh == [] && s.cache == map[] && Abs(g, s).durable == Abs(g, s).current
  {
    assert s.cache.Keys == {};
    DurableWhenEmpty(g, s.disk);
  }

  /**
   Durability over whole runs: whenever the machine is at rest, whatever operations and
   crashes came before, the durable version is the current one.
   */
  lemma DurableAtRest(g: Geometry, s: State, es: seq<Event>, s': State)
    requires Inv(g, s) && Runs(g, s, es, s') && s'.pc.Idle? && s'.ops == map[]
    ensures Inv(g, s') && Abs(g, s').durable == Abs(g, s').current
  {
    RunRefines(g, s, es, s');
    RestIsDurable(g, s');
  }

  predicate Committing(pc: Pc) {
    pc.WriteLog? || pc.WriteHead? || pc.InstallTrans? || pc.EraseHead? || pc.Finish?
  }

  /** The number of steps commit still has to do. */
  ghost function CommitLeft(s: State): (n: int) {
    match s.pc
    case WriteLog(t) => 2 * |s.lh| - t + 3
    case WriteHead => |s.lh| + 3
    case InstallTrans(t) => |s.lh| - t + 2
    case EraseHead => 2
    case Finish => 1
    case _ => 0
  }

  lemma CommitOne(g: Geometry, s: State)
    requires Inv(g, s) && Committing(s.pc)
    ensures Enabled(g, s, DiskStep) && Step(g, s, DiskStep).Ok? && CommitLeft(s) > 0
    ensures var m := Step(g, s, DiskStep).s;
            && Inv(g, m) && Abs(g, m).current == Abs(g, s).current && m.ops == map[]
            && (if s.pc.Finish? then m.pc.Idle? else Committing(m.pc) && CommitLeft(m) == CommitLeft(s) - 1)
  {
    hide Inv, Abs, DoDisk, PhaseOk;
    StepRefines(g, s, DiskStep);
    CommitShape(g, s);
    CommitMoves(g, s);
  }

  lemma CommitShape(g: Geometry, s: State)
    requires Inv(g, s) && Committing(s.pc)
    ensures s.ops == map[] && (s.pc.WriteHead? ==> |s.lh| > 0)
  {
  }

  lemma CommitMoves(g: Geometry, s: State)
    requires Committing(s.pc) && DiskStepReady(g, s) && s.ops == map[] && (s.pc.WriteHead? ==> |s.lh| > 0)
    ensures DoDisk(g, s).Ok? && CommitLeft(s) > 0
    ensures var m := DoDisk(g, s).s;
            && m.ops == map[]
            && (if s.pc.Finish? then m.pc.Idle? else Committing(m.pc) && CommitLeft(m) == CommitLeft(s) - 1)
  {
    hide PutHead, PutSlot, InstallOne, HeadOk, Head;
    match s.pc
    case WriteLog(t) =>
    case WriteHead =>
    case InstallTrans(t) =>
    case EraseHead =>
    case Finish =>
  }

  /**
   commit terminates: left alone it is over after CommitLeft(s) steps, and the home blocks then
   hold the current version.
   */
  lemma {:induction false} CommitCompletes(g: Geometry, s: State) returns (s': State)
    requires Inv(g, s) && Committing(s.pc)
    ensures CommitLeft(s) > 0 && Runs(g, s, Steps(CommitLeft(s)), s')
    ensures Inv(g, s') && s'.pc.Idle? && s'.ops == map[] && s'.lh == []
    ensures HomeBlocks(g, s'.disk) == Durable(g, s'.disk) == Abs(g, s).current
    decreases CommitLeft(s)
  {
    hide Inv, Step, HomeBlocks, Durable, Steps, Abs;
    CommitOne(g, s);
    var m := Step(g, s, DiskStep).s;
    StepsTail(CommitLeft(s));
    if s.pc.Finish? {
      s' := m;
      AtHome(g, m);
    } else {
      s' := CommitCompletes(g, m);
    }
  }

  lemma AtHome(g: Geometry, s: State)
    requires Inv(g, s) && s.pc.Idle? && s.ops == map[]
    ensures s.lh == [] && HomeBlocks(g, s.disk) == Durable(g, s.disk) == Abs(g, s).current
  {
    RestIsDurable(g, s);
    DurableWhenEmpty(g, s.disk);
  }

  /** The last end_op starts a commit, which makes all that was written durable; any other end_op starts none. */
  lemma LastEndCommits(g: Geometry, s: State, op: nat) returns (n: nat, s': State)
    requires Inv(g, s) && Enabled(g, s, EndOp(op))
    ensures Step(g, s, EndOp(op)).Ok?
    ensures |s.ops| == 1 ==>
              && Runs(g, s, [EndOp(op)] + Steps(n), s') && Inv(g, s') && s'.pc.Idle? && s'.ops == map[]
              && HomeBlocks(g, s'.disk) == Durable(g, s'.disk) == Abs(g, s).current
    ensures |s.ops| > 1 ==> var m := Step(g, s, EndOp(op)).s; m.pc.Idle? && m.ops == s.ops - {op} && m.disk == s.disk
  {
    n, s' := 0, s;
    EndLeads(g, s, op);
    if |s.ops| == 1 {
      hide Inv, Step, Abs, HomeBlocks, Durable, Steps;
      var m := Step(g, s, EndOp(op)).s;
      n := CommitLeft(m);
      s' := CommitCompletes(g, m);
      assert ([EndOp(op)] + Steps(n))[1..] == Steps(n);
    }
  }

  lemma EndLeads(g: Geometry, s: State, op: nat)
    requires Inv(g, s) && Enabled(g, s, EndOp(op))
    ensures Step(g, s, EndOp(op)).Ok?
    ensures var m := Step(g, s, EndOp(op)).s;
            && Inv(g, m) && Abs(g, m).current == Abs(g, s).current
            && (if |s.ops| == 1 then Committing(m.pc) && CommitLeft(m) > 0
                else m.pc.Idle? && m.ops == s.ops - {op} && m.disk == s.disk)
  {
    hide Abs, Installed, SlotsHold, CacheIs, HeadOk;
    EndRefines(g, s, op);
    KeysMinus(s.ops, op);
  }

  /**
   begin_op admits exactly when nobody is in commit and the log would hold what is in it and a
   whole reservation for every operation, the new one included.
   */
  lemma AdmitIff(g: Geometry, s: State, op: nat)
    requires Inv(g, s) && Enabled(g, s, BeginOp(op))
    ensures Step(g, s, BeginOp(op)).Ok? <==> s.pc.Idle? && |s.lh| + |s.ops[op := 0]| * MAXOPBLOCKS <= LOGSIZE
    ensures !Step(g, s, BeginOp(op)).Ok? ==> Step(g, s, BeginOp(op)).Blocked?
    ensures s.pc.Idle? && |s.ops| == 0 ==> Step(g, s, BeginOp(op)).Ok?
  {
    hide Installed, SlotsHold, CacheIs, HeadOk;
    assert s.ops[op := 0].Keys == s.ops.Keys + {op};
  }

  // ------------------------------------------------------------------ log space

  lemma KeysMinus(ops: map<nat, nat>, k: nat)
    requires k in ops
    ensures (ops - {k}).Keys == ops.Keys - {k} && |ops - {k}| == |ops| - 1
  {
    assert (ops - {k}).Keys == ops.Keys - {k};
  }

  lemma UnusedPick(ops: map<nat, nat>) returns (c: nat)
    requires |ops| != 0
    ensures c in ops && Unused(ops) == Left(ops[c]) + Unused(ops - {c})
  {
    c :| c in ops && Unused(ops) == Left(ops[c]) + Unused(ops - {c});
  }

  lemma MinusCommutes(ops: map<nat, nat>, c: nat, k: nat)
    ensures ops - {c} - {k} == ops - {k} - {c}
  {
  }

  lemma {:induction false} UnusedRemove(ops: map<nat, nat>, k: nat)
    requires k in ops
    ensures Unused(ops) == Left(ops[k]) + Unused(ops - {k})
    decreases |ops|
  {
    KeysMinus(ops, k);
    var c := UnusedPick(ops);
    if c != k {
      KeysMinus(ops, c);
      UnusedRemove(ops - {c}, k);
      UnusedRemove(ops - {k}, c);
      MinusCommutes(ops, c, k);
    }
  }

  lemma UnusedSet(ops: map<nat, nat>, k: nat, v: nat)
    ensures Unused(ops[k := v]) == Left(v) + Unused(ops - {k})
  {
    UnusedRemove(ops[k := v], k);
    assert ops[k := v] - {k} == ops - {k};
  }

  lemma ReservedBegin(s: State, op: nat)
    requires s.outstanding == |s.ops| && op !in s.ops && DoBegin(s, op).Ok?
    ensures Reserved(DoBegin(s, op).s)
  {
    hide Unused;
    UnusedSet(s.ops, op, 0);
    assert s.ops - {op} == s.ops;
  }

  lemma ReservedWrite(g: Geometry, s: State, op: nat, b: nat, data: Block)
    requires Reserved(s) && op in s.ops && (s.ops[op] < MAXOPBLOCKS || b in s.lh)
    requires DoWrite(g, s, op, b, data).Ok?
    ensures Reserved(DoWrite(g, s, op, b, data).s)
  {
    if b !in s.lh {
      UnusedSet(s.ops, op, s.ops[op] + 1);
      UnusedRemove(s.ops, op);
    }
  }

  lemma ReservedDisk(g: Geometry, s: State)
    requires Recoverable(g, s.disk) && HeadOk(g, s.disk, s.lh) && PhaseOk(g, s)
    requires DiskStepReady(g, s) && DoDisk(g, s).Ok?
    ensures Reserved(DoDisk(g, s).s)
  {
    assert s.ops == map[];
  }

  /** Admission control keeps every reservation covered by free log space. */
  lemma ReservedStep(g: Geometry, s: State, e: Event)
    requires Inv(g, s) && Reserved(s) && Enabled(g, s, e) && WithinBudget(s, e) && Step(g, s, e).Ok?
    ensures Reserved(Step(g, s, e).s)
  {
    match e
    case BeginOp(op) => ReservedBegin(s, op);
    case LogWrite(op, b, data) => ReservedWrite(g, s, op, b, data);
    case EndOp(op) => UnusedRemove(s.ops, op);
    case DiskStep => ReservedDisk(g, s);
    case Crash =>
  }

  ghost predicate BudgetRun(g: Geometry, s: State, es: seq<Event>, s': State)
    requires Runs(g, s, es, s')
    decreases |es|
  {
    es != [] ==> WithinBudget(s, es[0]) && BudgetRun(g, Step(g, s, es[0]).s, es[1..], s')
  }

  /**
   Group-commit safety over whole runs: the log never overfills, commit runs only while no
   operation is in progress and admits none, and each logged block is pinned exactly once.
   */
  lemma {:induction false} GroupCommit(g: Geometry, s: State, es: seq<Event>, s': State)
    requires Inv(g, s) && Reserved(s) && Runs(g, s, es, s') && BudgetRun(g, s, es, s')
    ensures Inv(g, s') && Reserved(s') && |s'.lh| <= LOGSIZE
    ensures s'.committing ==> s'.outstanding == 0 && s'.ops == map[] && forall op :: DoBegin(s', op).Blocked?
    ensures s'.pc.Idle? ==> Distinct(s'.lh) && s'.pins == multiset(s'.lh) && forall b :: b in s'.pins ==>
              s'.pins[b] == 1
    decreases |es|
  {
    if es == [] {
      if s.pc.Idle? {
        assert s.lh[0..] == s.lh;
        DistinctCount(s.lh);
      }
    } else {
      StepRefines(g, s, es[0]);
      ReservedStep(g, s, es[0]);
      GroupCommit(g, Step(g, s, es[0]).s, es[1..], s');
    }
  }

  lemma {:induction false} DistinctCount(h: seq<nat>)
    requires Distinct(h)
    ensures forall b :: b in multiset(h) ==> multiset(h)[b] == 1
  {
    if h != [] {
      var t := h[..|h| - 1];
      DistinctCount(t);
      assert h == t + [h[|h| - 1]];
      assert h[|h| - 1] !in t;
    }
  }

  /**
   Exactly when log_write panics, on a log with room for LOGSIZE blocks beside the header and
   for an operation within its reservation: when the log is full. The write that panics is
   then an absorbed one, and no operation in progress has any reservation left.
   */
  lemma LogWritePanicsIff(g: Geometry, s: State, e: Event)
    requires Inv(g, s) && Reserved(s) && Enabled(g, s, e) && WithinBudget(s, e)
    requires e.LogWrite? && g.size - 1 >= LOGSIZE
    ensures Step(g, s, e).Panic? <==> |s.lh| == LOGSIZE
    ensures Step(g, s, e).Panic? ==> e.b in s.lh && s.ops[e.op] >= MAXOPBLOCKS && Unused(s.ops) == 0
  {
    StepRefines(g, s, e);
    UnusedRemove(s.ops, e.op);
    assert e.op in s.ops.Keys;
  }

  /**
   No event but a log_write panics, and log_write does not panic for an operation that has
   not used up its reservation.
   */
  lemma NoPanic(g: Geometry, s: State, e: Event)
    requires Inv(g, s) && Reserved(s) && Enabled(g, s, e)
    requires e.LogWrite? ==> s.ops[e.op] < MAXOPBLOCKS && g.size - 1 >= LOGSIZE
    ensures !Step(g, s, e).Panic?
  {
    if e.LogWrite? {
      LogWritePanicsIff(g, s, e);
    } else {
      StepRefines(g, s, e);
    }
  }

  // ---- The exact condition: without that room a run within budget reaches the panic.

  /** The k-th block number outside the log region. */
  function NthHome(g: Geometry, k: nat): (b: nat) {
    if k < g.start then k else k + g.size
  }

  function FirstHomes(g: Geometry, k: nat): (h: seq<nat>) {
    seq(k, (i: nat) => NthHome(g, i))
  }

  function Spent(k: nat, op: nat): nat {
    if k <= op * MAXOPBLOCKS then 0 else if k >= (op + 1) * MAXOPBLOCKS then MAXOPBLOCKS else k - op * MAXOPBLOCKS
  }

  /** Three operations have begun and together appended the first k home blocks. */
  ghost predicate Filled(g: Geometry, s: State, d: Disk, k: nat) {
    && s.disk == d && s.pc.Idle? && !s.committing && s.outstanding == 3
    && s.lh == FirstHomes(g, k)
    && s.ops == map[0 := Spent(k, 0), 1 := Spent(k, 1), 2 := Spent(k, 2)]
  }

  lemma {:induction false} RunsAppend(g: Geometry, s: State, es: seq<Event>, m: State, e: Event)
    requires Runs(g, s, es, m) && BudgetRun(g, s, es, m)
    requires Enabled(g, m, e) && WithinBudget(m, e) && Step(g, m, e).Ok?
    ensures Runs(g, s, es + [e], Step(g, m, e).s) && BudgetRun(g, s, es + [e], Step(g, m, e).s)
    decreases |es|
  {
    var all := es + [e];
    var t := Step(g, m, e).s;
    assert all[0] == if es == [] then e else es[0];
    if es == [] {
      assert all[1..] == [];
      assert Runs(g, t, [], t) && BudgetRun(g, t, [], t);
    } else {
      assert all[1..] == es[1..] + [e];
      RunsAppend(g, Step(g, s, es[0]).s, es[1..], m, e);
    }
  }

  /** A clean, idle machine whose disk is `d`. */
  function IdleOn(d: Disk): (s: State) {
    PowerOn(d).(pc := Idle)
  }

  lemma {:induction false} FillLog(g: Geometry, d: Disk, k: nat) returns (es: seq<Event>, s: State)
    requires Recoverable(g, d) && Head(g, d) == [] && |d| >= g.size + LOGSIZE
    requires k <= LOGSIZE && k <= g.size - 1
    ensures Runs(g, IdleOn(d), es, s) && BudgetRun(g, IdleOn(d), es, s) && Filled(g, s, d, k)
  {
    if k == 0 {
      var s0 := IdleOn(d);
      var s1 := DoBegin(s0, 0).s;
      var s2 := DoBegin(s1, 1).s;
      s := DoBegin(s2, 2).s;
      assert Runs(g, s0, [], s0) && BudgetRun(g, s0, [], s0);
      RunsAppend(g, s0, [], s0, BeginOp(0));
      RunsAppend(g, s0, [] + [BeginOp(0)], s1, BeginOp(1));
      RunsAppend(g, s0, [] + [BeginOp(0)] + [BeginOp(1)], s2, BeginOp(2));
      es := [] + [BeginOp(0)] + [BeginOp(1)] + [BeginOp(2)];
    } else {
      var es0, s0 := FillLog(g, d, k - 1);
      var e := NextAppend(g, d, k - 1);
      NextAppendWorks(g, s0, d, k - 1);
      RunsAppend(g, IdleOn(d), es0, s0, e);
      es, s := es0 + [e], Step(g, s0, e).s;
    }
  }

  /** The append of the k-th home block by the operation whose turn it is. */
  ghost function NextAppend(g: Geometry, d: Disk, k: nat): (e: Event)
    requires NthHome(g, k) < |d|
  {
    LogWrite(k / MAXOPBLOCKS, NthHome(g, k), d[NthHome(g, k)])
  }

  lemma NextAppendWorks(g: Geometry, s: State, d: Disk, k: nat)
    requires Recoverable(g, d) && |d| >= g.size + LOGSIZE && k < LOGSIZE && Filled(g, s, d, k)
    ensures NthHome(g, k) < |d|
    ensures Enabled(g, s, NextAppend(g, d, k)) && WithinBudget(s, NextAppend(g, d, k))
    ensures NthHome(g, k) !in s.lh
    ensures k < g.size - 1 ==>
              Step(g, s, NextAppend(g, d, k)).Ok? && Filled(g, Step(g, s, NextAppend(g, d, k)).s, d, k + 1)
    ensures k >= g.size - 1 ==> Step(g, s, NextAppend(g, d, k)).Panic?
  {
    var e := NextAppend(g, d, k);
    assert 0 <= e.op <= 2;
    forall i | 0 <= i < k ensures FirstHomes(g, k)[i] != NthHome(g, k) {
    }
    if k < g.size - 1 {
      var s' := Step(g, s, e).s;
      assert s'.lh == FirstHomes(g, k + 1);
      assert s'.ops == map[0 := Spent(k + 1, 0), 1 := Spent(k + 1, 1), 2 := Spent(k + 1, 2)];
    }
  }

  /** Some run within budget, from a clean idle machine, makes an appending log_write panic. */
  ghost predicate AppendCanPanic(g: Geometry, d: Disk) {
    exists es, s, e :: Runs(g, IdleOn(d), es, s) && BudgetRun(g, IdleOn(d), es, s) && PanickingAppend(g, s, e)
  }

  ghost predicate PanickingAppend(g: Geometry, s: State, e: Event) {
    && e.LogWrite? && Enabled(g, s, e) && WithinBudget(s, e) && e.b !in s.lh && Step(g, s, e).Panic?
  }

  lemma IdleOnInv(g: Geometry, d: Disk)
    requires Recoverable(g, d) && Head(g, d) == []
    ensures Inv(g, IdleOn(d)) && Reserved(IdleOn(d))
  {
    var s := IdleOn(d);
    assert s.lh[0..] == [];
    assert s.cache.Keys == Logged(s.lh, 0);
  }

  /**
   An append within budget can panic exactly when the log is smaller than LOGSIZE blocks
   plus its header. The image built by mkfs has size LOGSIZE and is one block short.
   */
  lemma AppendPanicsIff(g: Geometry, d: Disk)
    requires Recoverable(g, d) && Head(g, d) == [] && |d| >= g.size + LOGSIZE
    ensures AppendCanPanic(g, d) <==> g.size - 1 < LOGSIZE
  {
    hide Inv, Step, Runs, BudgetRun, Enabled, Filled, PanickingAppend;
    IdleOnInv(g, d);
    if g.size - 1 < LOGSIZE {
      var es, s := FillLog(g, d, g.size - 1);
      LastAppendPanics(g, s, d);
    }
    forall es, s, e | Runs(g, IdleOn(d), es, s) && BudgetRun(g, IdleOn(d), es, s) && PanickingAppend(g, s, e)
      ensures g.size - 1 < LOGSIZE
    {
      GroupCommit(g, IdleOn(d), es, s);
      PanicNeedsShort(g, s, e);
    }
  }

  lemma LastAppendPanics(g: Geometry, s: State, d: Disk)
    requires Recoverable(g, d) && |d| >= g.size + LOGSIZE && g.size - 1 < LOGSIZE && Filled(g, s, d, g.size - 1)
    ensures NthHome(g, g.size - 1) < |d| && PanickingAppend(g, s, NextAppend(g, d, g.size - 1))
  {
    NextAppendWorks(g, s, d, g.size - 1);
  }

  lemma PanicNeedsShort(g: Geometry, s: State, e: Event)
    requires Inv(g, s) && Reserved(s) && PanickingAppend(g, s, e)
    ensures g.size - 1 < LOGSIZE
  {
    hide Inv, Reserved, Step;
    if g.size - 1 >= LOGSIZE {
      NoPanic(g, s, e);
    }
  }

  /**
   On a log of any sufficient size, three operations that each used their whole reservation
   leave no room for the size check, which precedes absorption: re-logging a block that is
   already in the log panics although nothing would be appended.
   */
  lemma AbsorbingWriteCanPanic(g: Geometry, d: Disk) returns (es: seq<Event>, s: State, e: Event)
    requires Recoverable(g, d) && Head(g, d) == [] && |d| >= g.size + LOGSIZE && g.size - 1 >= LOGSIZE
    ensures Runs(g, IdleOn(d), es, s) && BudgetRun(g, IdleOn(d), es, s)
    ensures e.LogWrite? && Enabled(g, s, e) && WithinBudget(s, e) && e.b in s.lh && Step(g, s, e).Panic?
  {
    es, s := FillLog(g, d, LOGSIZE);
    var b := NthHome(g, 0);
    assert s.lh[0] == b;
    e := LogWrite(2, b, d[b]);
  }
}
