/**
 * Sleeping locks (kernel/sleeplock.c) as clients of sleep and wakeup (kernel/proc.c):
 * every process is a program counter, a step is one lock operation or one critical
 * section under a process lock, and any interleaving of steps is a run.
 */
module Sleeplock {

  datatype Chan = NoChan | OnLock | OnOther
  datatype PState = RUNNING | RUNNABLE | SLEEPING

  /** Where a process is with respect to one sleeplock. */
  datatype Pc =
    | Idle       // outside acquiresleep and releasesleep
    | AcqWant    // before acquire(&lk->lk)
    | AcqTest    // holds lk->lk, before the test of the while loop
    | SlpWant    // in sleep, before acquire(&p->lock)
    | SlpGot     // holds both, before release(lk)
    | SlpSet     // holds p->lock, before it becomes SLEEPING
    | SlpSwitch  // SLEEPING, before the scheduler releases p->lock
    | Asleep     // switched out
    | Woken      // switched in again, holds p->lock
    | Reacquire  // in sleep, before acquire(lk)
    | AcqDone    // has set lk->locked, before release(&lk->lk)
    | Crit       // between acquiresleep and releasesleep
    | RelWant    // before acquire(&lk->lk)
    | RelClear   // holds lk->lk, before lk->locked = 0
    | Scan(i: nat) // in wakeup, before process i is looked at

  datatype Proc = Proc(pc: Pc, state: PState, chan: Chan, plock: bool)

  /** lk is the process that holds the spinlock lk->lk, or -1. */
  datatype State = State(procs: seq<Proc>, lk: int, locked: bool, pid: nat)

  /** A step of process p itself, of the scheduler on p, of kill on p, or of p at some other channel. */
  datatype Act = Local | SwitchOut | Resume | Kill | SleepElsewhere | WakeElsewhere | Yield | Schedule

  predicate HoldsSpin(pc: Pc) {
    pc in {AcqTest, SlpWant, SlpGot, AcqDone, RelClear} || pc.Scan?
  }

  predicate HoldsOwn(pc: Pc) {
    pc in {SlpGot, SlpSet, SlpSwitch, Woken}
  }

  /** The process has the sleeplock. */
  predicate Has(pc: Pc) {
    pc in {AcqDone, Crit, RelWant, RelClear}
  }

  predicate Enabled(s: State, p: nat, a: Act)
    requires p < |s.procs|
  {
    var x := s.procs[p];
    match a
    case Local =>
      x.state == RUNNING && (
        match x.pc
        case SlpSwitch => false
        case Asleep => false
        case AcqWant | Reacquire | RelWant => s.lk == -1
        case SlpWant => !x.plock
        case Scan(i) => i < |s.procs| && i != p ==> !s.procs[i].plock
        case _ => true)
    case SwitchOut => x.pc == SlpSwitch
    case Resume => x.pc == Asleep && x.state == RUNNABLE && !x.plock
    case Kill => !x.plock
    case SleepElsewhere => x.pc in {Idle, Crit} && x.state == RUNNING && !x.plock
    case WakeElsewhere => x.state == SLEEPING && x.chan == OnOther && !x.plock
    case Yield => x.state == RUNNING && !HoldsSpin(x.pc) && !HoldsOwn(x.pc)
    case Schedule => x.state == RUNNABLE && x.pc != Asleep && !x.plock
  }

  function Put(s: State, p: nat, x: Proc): (s': State)
    requires p < |s.procs|
  {
    s.(procs := s.procs[p := x])
  }

  function Woke(x: Proc): (x': Proc) {
    if x.state == SLEEPING && x.chan == OnLock then x.(state := RUNNABLE) else x
  }

  /** One step of process p of acquiresleep, releasesleep, sleep or wakeup. */
  function LocalStep(pids: seq<nat>, s: State, p: nat): (s': State)
    requires p < |s.procs| == |pids| && Enabled(s, p, Local)
  {
    var x := s.procs[p];
    match x.pc
    case Idle => Put(s, p, x.(pc := AcqWant))
    case AcqWant => Put(s, p, x.(pc := AcqTest)).(lk := p)
    case AcqTest =>
      if s.locked then Put(s, p, x.(pc := SlpWant))
      else Put(s, p, x.(pc := AcqDone)).(locked := true, pid := pids[p])
    case SlpWant => Put(s, p, x.(pc := SlpGot, plock := true))
    case SlpGot => Put(s, p, x.(pc := SlpSet)).(lk := -1)
    case SlpSet => Put(s, p, x.(pc := SlpSwitch, chan := OnLock, state := SLEEPING))
    case Woken => Put(s, p, x.(pc := Reacquire, chan := NoChan, plock := false))
    case Reacquire => Put(s, p, x.(pc := AcqTest)).(lk := p)
    case AcqDone => Put(s, p, x.(pc := Crit)).(lk := -1)
    case Crit => Put(s, p, x.(pc := RelWant))
    case RelWant => Put(s, p, x.(pc := RelClear)).(lk := p)
    case RelClear => Put(s, p, x.(pc := Scan(0))).(locked := false, pid := 0)
    case Scan(i) =>
      if i >= |s.procs| then Put(s, p, x.(pc := Idle)).(lk := -1)
      else if i == p then Put(s, p, x.(pc := Scan(i + 1)))
      else Put(Put(s, i, Woke(s.procs[i])), p, x.(pc := Scan(i + 1)))
  }

  function Step(pids: seq<nat>, s: State, p: nat, a: Act): (s': State)
    requires p < |s.procs| == |pids| && Enabled(s, p, a)
  {
    var x := s.procs[p];
    match a
    case Local => LocalStep(pids, s, p)
    case SwitchOut => Put(s, p, x.(pc := Asleep, plock := false))
    case Resume => Put(s, p, x.(pc := Woken, state := RUNNING, plock := true))
    case Kill => Put(s, p, if x.state == SLEEPING then x.(state := RUNNABLE) else x)
    case SleepElsewhere => Put(s, p, x.(state := SLEEPING, chan := OnOther))
    case WakeElsewhere => Put(s, p, x.(state := RUNNABLE))
    case Yield => Put(s, p, x.(state := RUNNABLE))
    case Schedule => Put(s, p, x.(state := RUNNING, chan := NoChan))
  }

  // ----------------------------------------------------------------- invariants

  /** Process p is asleep on the lock, or is past the point where it can notice a release itself. */
  predicate Waits(x: Proc) {
    x.pc == SlpSet || (x.state == SLEEPING && x.chan == OnLock)
  }

  /** A releaser is inside its wakeup scan and has not yet looked at process p. */
  ghost predicate WillWake(s: State, p: nat) {
    0 <= s.lk < |s.procs| && s.lk != p && s.procs[s.lk].pc.Scan? && s.procs[s.lk].pc.i <= p
  }

  ghost predicate ProcOk(pids: seq<nat>, s: State, p: nat)
    requires p < |s.procs| == |pids|
  {
    var x := s.procs[p];
    && (HoldsSpin(x.pc) <==> s.lk == p)
    && (HoldsOwn(x.pc) <==> x.plock)
    && (x.chan == OnLock ==> x.pc in {SlpSwitch, Asleep, Woken})
    && (x.pc in {SlpSwitch, Asleep} ==> x.chan == OnLock && x.state != RUNNING)
    && (x.pc == SlpSwitch ==> x.state == SLEEPING)
    && (HoldsSpin(x.pc) || HoldsOwn(x.pc) ==> x.pc == SlpSwitch || x.state == RUNNING)
    && (x.pc.Scan? ==> x.pc.i <= |s.procs| && !s.locked)
    && (x.pc in {SlpWant, SlpGot} ==> s.locked)
    && (Has(x.pc) ==> s.locked && s.pid == pids[p])
    && (Waits(x) ==> s.locked || WillWake(s, p))
  }

  ghost predicate Inv(pids: seq<nat>, s: State) {
    && |s.procs| == |pids|
    && -1 <= s.lk < |s.procs|
    && (forall p :: 0 <= p < |s.procs| ==> ProcOk(pids, s, p))
    && (s.locked ==> exists p :: 0 <= p < |s.procs| && Has(s.procs[p].pc))
  }

  /** Process ids are positive and differ. */
  ghost predicate Pids(pids: seq<nat>) {
    (forall p :: 0 <= p < |pids| ==> pids[p] > 0) && (forall p, q :: 0 <= p < q < |pids| ==> pids[p] != pids[q])
  }

  /** The process that takes the step is in order afterwards. */
  lemma SelfOk(pids: seq<nat>, s: State, p: nat)
    requires |s.procs| == |pids| && -1 <= s.lk < |s.procs| && p < |s.procs| && ProcOk(pids, s, p)
        && Enabled(s, p, Local)
    ensures ProcOk(pids, LocalStep(pids, s, p), p)
  {
  }

  /** Two processes never hold the spinlock together, nor the sleeplock. */
  lemma Exclusive(pids: seq<nat>, s: State, p: nat, q: nat)
    requires Pids(pids) && |s.procs| == |pids| && p < |s.procs| && q < |s.procs| && p != q && ProcOk(pids, s, p)
        && ProcOk(pids, s, q)
    ensures !(HoldsSpin(s.procs[p].pc) && HoldsSpin(s.procs[q].pc))
    ensures !(Has(s.procs[p].pc) && Has(s.procs[q].pc))
  {
    assert p < q ==> pids[p] != pids[q];
    assert q < p ==> pids[q] != pids[p];
  }

  /** A step of p that does not touch q's entry leaves q in order. */
  lemma OtherOk(pids: seq<nat>, s: State, p: nat, q: nat)
    requires Pids(pids) && |s.procs| == |pids| && -1 <= s.lk < |s.procs| && p < |s.procs| && q < |s.procs| && p != q
    requires ProcOk(pids, s, p) && ProcOk(pids, s, q) && Enabled(s, p, Local)
    ensures ProcOk(pids, LocalStep(pids, s, p), q)
  {
    hide Pids;
    Exclusive(pids, s, p, q);
  }

  lemma LocalOwned(pids: seq<nat>, s: State, p: nat)
    requires Pids(pids) && Inv(pids, s) && p < |s.procs| && Enabled(s, p, Local) && LocalStep(pids, s, p).locked
    ensures var s' := LocalStep(pids, s, p); exists q :: 0 <= q < |s'.procs| && Has(s'.procs[q].pc)
  {
    hide ProcOk, Pids;
    var s' := LocalStep(pids, s, p);
    if s.procs[p].pc == AcqTest && !s.locked {
      assert Has(s'.procs[p].pc);
    } else {
      var q :| 0 <= q < |s.procs| && Has(s.procs[q].pc);
      assert Has(s'.procs[q].pc);
    }
  }

  /** Every step of every process keeps the invariant. */
  lemma StepKeeps(pids: seq<nat>, s: State, p: nat, a: Act)
    requires Pids(pids) && Inv(pids, s) && p < |s.procs| && Enabled(s, p, a)
    ensures Inv(pids, Step(pids, s, p, a))
  {
    hide Pids;
    var s' := Step(pids, s, p, a);
    if a == Local {
      hide LocalStep, ProcOk;
      LocalShape(pids, s, p);
      forall q | 0 <= q < |s.procs| ensures ProcOk(pids, s', q) {
        if q == p { SelfOk(pids, s, p); } else { OtherOk(pids, s, p, q); }
      }
      if s'.locked { LocalOwned(pids, s, p); }
    } else {
      forall q | 0 <= q < |s.procs| ensures ProcOk(pids, s', q) {
        assert ProcOk(pids, s, p) && ProcOk(pids, s, q);
      }
      if s.locked {
        var q :| 0 <= q < |s.procs| && Has(s.procs[q].pc);
        assert Has(s'.procs[q].pc);
      }
    }
  }

  lemma LocalShape(pids: seq<nat>, s: State, p: nat)
    requires |s.procs| == |pids| && p < |s.procs| && Enabled(s, p, Local) && -1 <= s.lk < |s.procs|
    ensures var s' := LocalStep(pids, s, p); |s'.procs| == |s.procs| && -1 <= s'.lk < |s'.procs|
  {
  }

  // ---------------------------------------------------------------- whole runs

  datatype Move = Move(p: nat, a: Act)

  /** The states of a run, one move after the other. */
  ghost predicate Run(pids: seq<nat>, ss: seq<State>, ms: seq<Move>) {
    && |ss| == |ms| + 1
    && (forall i :: 0 <= i < |ss| ==> |ss[i].procs| == |pids|)
    && (forall i :: 0 <= i < |ms| ==> Moves(pids, ss[i], ms[i], ss[i + 1]))
  }

  ghost predicate Moves(pids: seq<nat>, s: State, m: Move, s': State) {
    m.p < |s.procs| == |pids| && Enabled(s, m.p, m.a) && s' == Step(pids, s, m.p, m.a)
  }

  /** After initsleeplock, with every process outside. */
  predicate Initial(s: State) {
    && s.lk == -1 && !s.locked && s.pid == 0
    && forall p :: 0 <= p < |s.procs| ==> s.procs[p].pc == Idle && !s.procs[p].plock && s.procs[p].chan != OnLock
  }

  lemma {:induction false} RunKeeps(pids: seq<nat>, ss: seq<State>, ms: seq<Move>, i: nat)
    requires Pids(pids) && Run(pids, ss, ms) && Initial(ss[0]) && i < |ss|
    ensures Inv(pids, ss[i])
  {
    if i == 0 {
      var s := ss[0];
      forall p | 0 <= p < |s.procs| ensures ProcOk(pids, s, p) {
      }
    } else {
      hide Inv, Step, Enabled, Initial;
      RunKeeps(pids, ss, ms, i - 1);
      assert Moves(pids, ss[i - 1], ms[i - 1], ss[i - 1 + 1]);
      StepKeeps(pids, ss[i - 1], ms[i - 1].p, ms[i - 1].a);
    }
  }

  /**
   No lost wakeup: in every run, a process asleep on the lock has a holder to wait for, or a releaser whose scan
   is still to reach it.
   */
  lemma NoLostWakeup(pids: seq<nat>, ss: seq<State>, ms: seq<Move>, i: nat, p: nat)
    requires Pids(pids) && Run(pids, ss, ms) && Initial(ss[0]) && i < |ss| && p < |pids|
    requires ss[i].procs[p].state == SLEEPING && ss[i].procs[p].chan == OnLock
    ensures (exists q :: 0 <= q < |pids| && q != p && Has(ss[i].procs[q].pc)) || WillWake(ss[i], p)
  {
    RunKeeps(pids, ss, ms, i);
    assert ProcOk(pids, ss[i], p);
    if !WillWake(ss[i], p) {
      var q :| 0 <= q < |pids| && Has(ss[i].procs[q].pc);
    }
  }

  function Holders(s: State): (h: set<int>) {
    set p | 0 <= p < |s.procs| && Has(s.procs[p].pc)
  }

  /** At most one process is between acquiresleep and releasesleep, and the lock fields name it. */
  lemma MutualExclusion(pids: seq<nat>, ss: seq<State>, ms: seq<Move>, i: nat)
    requires Pids(pids) && Run(pids, ss, ms) && Initial(ss[0]) && i < |ss|
    ensures !ss[i].locked ==> Holders(ss[i]) == {}
    ensures ss[i].locked ==> exists p :: 0 <= p < |pids| && Holders(ss[i]) == {p} && ss[i].pid == pids[p]
  {
    RunKeeps(pids, ss, ms, i);
    if ss[i].locked { OneHolder(pids, ss[i]); } else { NoHolder(pids, ss[i]); }
  }

  lemma NoHolder(pids: seq<nat>, s: State)
    requires Inv(pids, s) && !s.locked
    ensures Holders(s) == {}
  {
    forall p | 0 <= p < |s.procs| ensures !Has(s.procs[p].pc) {
      assert ProcOk(pids, s, p);
    }
  }

  lemma OneHolder(pids: seq<nat>, s: State)
    requires Pids(pids) && Inv(pids, s) && s.locked
    ensures exists p :: 0 <= p < |pids| && Holders(s) == {p} && s.pid == pids[p]
  {
    var p :| 0 <= p < |s.procs| && Has(s.procs[p].pc);
    assert ProcOk(pids, s, p);
    forall q | q in Holders(s) ensures q == p {
      assert ProcOk(pids, s, q);
      if q != p { Exclusive(pids, s, p, q); }
    }
    assert Holders(s) == {p};
  }

  /** Each step is invisible, or takes the free lock, or gives up the lock its process had. */
  lemma StepRefinesLock(pids: seq<nat>, s: State, p: nat, a: Act)
    requires Pids(pids) && Inv(pids, s) && p < |s.procs| && Enabled(s, p, a)
    ensures var h, h' := Holders(s), Holders(Step(pids, s, p, a));
            h' == h || (h == {} && h' == {p as int}) || (h == {p as int} && h' == {})
  {
    var s' := Step(pids, s, p, a);
    assert ProcOk(pids, s, p);
    if a == Local && s.procs[p].pc == AcqTest && !s.locked {
      NoHolder(pids, s);
      assert forall q :: 0 <= q < |s.procs| && q != p ==> s'.procs[q] == s.procs[q];
      assert Holders(s') == {p};
    } else if a == Local && s.procs[p].pc == RelClear {
      OneHolder(pids, s);
      assert p in Holders(s);
      StepKeeps(pids, s, p, a);
      NoHolder(pids, s');
    } else {
      assert forall q :: 0 <= q < |s.procs| ==> (Has(s'.procs[q].pc) <==> Has(s.procs[q].pc));
      assert Holders(s') == Holders(s);
    }
  }

  /** What holdingsleep computes, under lk->lk, for process p. */
  function HoldingSleep(pids: seq<nat>, s: State, p: nat): (r: bool)
    requires p < |pids|
  {
    s.locked && s.pid == pids[p]
  }

  lemma HoldingSleepExact(pids: seq<nat>, s: State, p: nat)
    requires Pids(pids) && Inv(pids, s) && p < |s.procs|
    ensures HoldingSleep(pids, s, p) <==> Holders(s) == {p as int}
  {
    if s.locked {
      OneHolder(pids, s);
      var q :| 0 <= q < |pids| && Holders(s) == {q} && s.pid == pids[q];
      assert q in Holders(s);
      assert q < p ==> pids[q] != pids[p];
      assert p < q ==> pids[p] != pids[q];
    } else {
      NoHolder(pids, s);
      assert p !in Holders(s);
    }
  }

  // ------------------------------------------------- what the calls themselves promise

  /** Inside acquiresleep, without the lock so far. */
  predicate Acquires(pc: Pc) {
    pc in {AcqWant, AcqTest, SlpWant, SlpGot, SlpSet, SlpSwitch, Asleep, Woken, Reacquire}
  }

  /** Inside releasesleep. */
  predicate Releases(pc: Pc) {
    pc in {RelWant, RelClear} || pc.Scan?
  }

  /** acquiresleep is left only with the lock, which was free; at its test it takes the lock exactly when it is free. */
  lemma AcquireLeaves(pids: seq<nat>, s: State, p: nat, a: Act)
    requires Pids(pids) && Inv(pids, s) && p < |s.procs| && Enabled(s, p, a) && Acquires(s.procs[p].pc)
    ensures var s' := Step(pids, s, p, a);
            && |s'.procs| == |s.procs|
            && (!Acquires(s'.procs[p].pc) ==> Holders(s) == {} && Holders(s') == {p as int})
            && (a == Local && s.procs[p].pc == AcqTest ==> (Holders(s) == {} <==> Holders(s') == {p as int}))
            && (a == Local && s.procs[p].pc == AcqTest && Holders(s) != {} ==> s'.procs[p].pc == SlpWant)
  {
    assert ProcOk(pids, s, p);
    StepRefinesLock(pids, s, p, a);
    var s' := Step(pids, s, p, a);
    if s.locked {
      OneHolder(pids, s);
    } else {
      NoHolder(pids, s);
    }
    assert Has(s'.procs[p].pc) <==> p in Holders(s');
    assert Has(s.procs[p].pc) <==> p in Holders(s);
  }

  /** releasesleep is entered by the holder, and left without the lock after a scan of the whole table. */
  lemma ReleaseLeaves(pids: seq<nat>, s: State, p: nat, a: Act)
    requires Pids(pids) && Inv(pids, s) && p < |s.procs| && Enabled(s, p, a)
    ensures var s' := Step(pids, s, p, a);
            && |s'.procs| == |s.procs|
            && (!Releases(s.procs[p].pc) && Releases(s'.procs[p].pc) ==> s.procs[p].pc == Crit)
            && (Releases(s.procs[p].pc) && !Releases(s'.procs[p].pc) ==>
                  s.procs[p].pc == Scan(|s.procs|) && s'.procs[p].pc == Idle && p !in Holders(s') && s'.lk == -1)
  {
    assert ProcOk(pids, s, p);
  }

  /** A process asleep on the lock is woken by kill or by a scan that looks at it, and by nothing else. */
  lemma WokenBy(pids: seq<nat>, s: State, p: nat, a: Act, q: nat)
    requires Pids(pids) && Inv(pids, s) && p < |s.procs| && q < |s.procs| && Enabled(s, p, a)
    requires s.procs[q].state == SLEEPING && s.procs[q].chan == OnLock
    ensures var s' := Step(pids, s, p, a);
            && |s'.procs| == |s.procs|
            && (s'.procs[q].state == SLEEPING <==>
                  !((p == q && a == Kill) || (p != q && a == Local && s.procs[p].pc == Scan(q))))
  {
    assert ProcOk(pids, s, p) && ProcOk(pids, s, q);
  }
}
