/**
 * What wait, exit and kill promise over whole runs of the machine in ExitWait: when wait
 * sleeps and when it returns, whose status it reports, and who wakes whom.
 */
module WaitRuns {
  import opened ExitWait

  ghost predicate HasChild(s: State, p: nat) {
    exists c :: 0 <= c < |s.procs| && s.procs[c].parent == p
  }

  /** A scan that has seen a child has one. */
  ghost predicate Seen(s: State) {
    forall p :: 0 <= p < |s.procs| && s.procs[p].pc.WtScan? && s.procs[p].pc.kids ==> HasChild(s, p)
  }

  // ------------------------------------------------- what a step does to other slots

  /** A step of p leaves the children of others with their parents. */
  lemma ParentStays(s: State, p: nat, a: Act, c: nat)
    requires Slots(s) && p < |s.procs| && c < |s.procs| && Enabled(s, p, a)
    requires s.procs[c].parent >= 0 && s.procs[c].parent != p
    ensures |Step(s, p, a).procs| == |s.procs| && Step(s, p, a).procs[c].parent == s.procs[c].parent
  {
    assert SlotOk(s, p) && SlotOk(s, c) && ChildOk(s, p, p);
    hide Slots, LockOk, ExitOk, ForkGo, ExitGo, WaitGo, ExitNext, WaitNext, ForkNext, ChildOk;
    if a.Go? {
      if IsFork(s.procs[p].pc) {
        ForkSelf(s, p);
        if c != p && c != s.procs[p].pc.np { ForkOther(s, p, c); }
      } else if GoExitOk(s, p) {
        ExitSelf(s, p);
        if c != p { ExitOther(s, p, c); }
      } else {
        WaitSelf(s, p);
        if c != p { WaitOther(s, p, c); }
      }
    }
  }

  /** A step of p does not put another process into a scan. */
  lemma OthersScan(s: State, p: nat, a: Act, q: nat)
    requires Slots(s) && p < |s.procs| && q < |s.procs| && q != p && Enabled(s, p, a)
    ensures |Step(s, p, a).procs| == |s.procs|
    ensures Step(s, p, a).procs[q].pc.WtScan? ==> Step(s, p, a).procs[q].pc == s.procs[q].pc
  {
    assert SlotOk(s, p) && ChildOk(s, p, p);
    hide Slots, LockOk, ExitOk, StateOk, ForkGo, ExitGo, WaitGo, ExitNext, WaitNext, ForkNext, ChildOk;
    if a.Go? {
      if IsFork(s.procs[p].pc) {
        ForkSelf(s, p);
        if q != s.procs[p].pc.np { ForkOther(s, p, q); }
      } else if GoExitOk(s, p) {
        ExitOther(s, p, q);
      } else {
        WaitOther(s, p, q);
      }
    }
  }

  /** Its own scan goes on with the children it had. */
  lemma OwnScan(s: State, p: nat, a: Act)
    requires Slots(s) && Seen(s) && p < |s.procs| && Enabled(s, p, a)
    ensures var s' := Step(s, p, a);
            |s'.procs| == |s.procs| && (s'.procs[p].pc.WtScan? && s'.procs[p].pc.kids ==> HasChild(s', p))
  {
    assert SlotOk(s, p) && ChildOk(s, p, p);
    hide Slots, LockOk, ExitOk, ForkGo, ExitGo, WaitGo, ExitNext, ForkNext, ChildOk;
    var s' := Step(s, p, a);
    if a.Go? {
      if IsFork(s.procs[p].pc) {
        ForkSelf(s, p);
      } else if GoExitOk(s, p) {
        ExitSelf(s, p);
        assert !s'.procs[p].pc.WtScan? by { ExitNotWait(s.procs[p], |s.procs|); }
      } else {
        WaitSelf(s, p);
        if s'.procs[p].pc.WtScan? && s'.procs[p].pc.kids {
          ScanGoesOn(s, p);
        }
      }
    } else if s'.procs[p].pc.WtScan? && s'.procs[p].pc.kids {
      OneEffect(s, p, a);
      var c :| 0 <= c < |s.procs| && s.procs[c].parent == p;
      assert s'.procs[c].parent == p;
    }
  }

  lemma ExitNotWait(x: Proc, n: nat)
    ensures !ExitNext(x, n, true).WtScan? && !ExitNext(x, n, false).WtScan?
  {
  }

  lemma ScanGoesOn(s: State, p: nat)
    requires WaitsOn(s, p) && Seen(s) && s.procs[p].parent != p && !IsFork(s.procs[p].pc)
    requires WaitNext(s, p).WtScan? && WaitNext(s, p).kids
    ensures HasChild(WaitGo(s, p), p)
  {
    var x := s.procs[p];
    assert x.pc.WtScan? && !Reaps(s, p);
    var c :| 0 <= c < |s.procs| && s.procs[c].parent == p;
    hide WaitGo;
    WaitOther(s, p, c);
    assert WaitGo(s, p).procs[c].parent == p;
  }

  lemma StepSeen(s: State, p: nat, a: Act)
    requires Slots(s) && Seen(s) && p < |s.procs| && Enabled(s, p, a)
    ensures Seen(Step(s, p, a))
  {
    hide Slots, Step, Enabled;
    var s' := Step(s, p, a);
    OwnScan(s, p, a);
    forall q | 0 <= q < |s'.procs| && s'.procs[q].pc.WtScan? && s'.procs[q].pc.kids ensures HasChild(s', q) {
      if q != p {
        OthersScan(s, p, a, q);
        var c :| 0 <= c < |s.procs| && s.procs[c].parent == q;
        ParentStays(s, p, a, c);
        assert s'.procs[c].parent == q;
      }
    }
  }

  lemma {:induction false} RunSeen(ss: seq<State>, ms: seq<Move>, k: nat)
    requires Run(ss, ms) && Initial(ss[0]) && k < |ss|
    ensures Slots(ss[k]) && Seen(ss[k])
  {
    RunKeeps(ss, ms, k);
    if k > 0 {
      hide Slots, Seen, Step, Enabled, Initial;
      RunSeen(ss, ms, k - 1);
      assert Moves(ss[k - 1], ms[k - 1], ss[k - 1 + 1]);
      StepSeen(ss[k - 1], ms[k - 1].p, ms[k - 1].a);
    } else {
      assert forall i :: 0 <= i < |ss[0].procs| ==> !ss[0].procs[i].pc.WtScan?;
    }
  }

  // ------------------------------------------------------- when wait returns, when it sleeps

  /**
   At the end of a scan: no child has exited, and wait goes on to sleep exactly when it has a
   child and was not killed; otherwise it returns.
   */
  lemma ScanEnds(ss: seq<State>, ms: seq<Move>, k: nat)
    requires Run(ss, ms) && Initial(ss[0]) && k < |ms| && ms[k].p < |ss[k].procs| && ms[k].a == Go
    requires ss[k].procs[ms[k].p].pc.WtScan? && ss[k].procs[ms[k].p].pc.i >= |ss[k].procs|
    ensures |ss[k + 1].procs| == |ss[k].procs| && ss[k + 1].got == ss[k].got
    ensures var p := ms[k].p;
            ss[k + 1].procs[p].pc == if HasChild(ss[k], p) && !ss[k].procs[p].killed then WtSlp else WtRel
    ensures forall c :: 0 <= c < |ss[k].procs| && ss[k].procs[c].parent == ms[k].p ==> ss[k].procs[c].st != ZOMBIE
  {
    var s, p := ss[k], ms[k].p;
    RunSeen(ss, ms, k);
    assert Moves(ss[k], ms[k], ss[k + 1]);
    assert SlotOk(s, p);
    forall c | 0 <= c < |s.procs| && s.procs[c].parent == p
      ensures s.procs[c].st != ZOMBIE && s.procs[p].pc.kids
    {
      assert ChildOk(s, p, c);
    }
  }

  /** A wait that returns and collected no child was killed, could not copy the status out, or has no child. */
  lemma ReturnsEmpty(ss: seq<State>, ms: seq<Move>, k: nat)
    requires Run(ss, ms) && Initial(ss[0]) && k < |ms|
    requires ms[k].p < |ss[k].procs| && ss[k].procs[ms[k].p].pc != WtRel
    requires ms[k].p < |ss[k + 1].procs| && ss[k + 1].procs[ms[k].p].pc == WtRel && ss[k + 1].got == ss[k].got
    ensures ms[k].a == CopyFails || ss[k].procs[ms[k].p].killed || !HasChild(ss[k], ms[k].p)
  {
    var s, p := ss[k], ms[k].p;
    RunKeeps(ss, ms, k);
    assert Moves(ss[k], ms[k], ss[k + 1]);
    assert SlotOk(s, p) && ChildOk(s, p, p);
    if ms[k].a == Go {
      OnlyScanReturns(s, p);
      ScanEnds(ss, ms, k);
    }
  }

  lemma OnlyScanReturns(s: State, p: nat)
    requires p < |s.procs| && Enabled(s, p, Go) && SlotOk(s, p) && s.procs[p].parent != p && s.procs[p].pc != WtRel
    requires Step(s, p, Go).procs[p].pc == WtRel && Step(s, p, Go).got == s.got
    ensures s.procs[p].pc.WtScan? && s.procs[p].pc.i >= |s.procs|
  {
    hide LockOk, StateOk, ForkGo, ExitGo;
    if IsFork(s.procs[p].pc) {
      ForkSelf(s, p);
    } else if GoExitOk(s, p) {
      ExitSelf(s, p);
    }
  }

  // ------------------------------------------------------------- whose status is reported

  /** Process `pid` called exit with this status before state k. */
  ghost predicate CalledExit(ss: seq<State>, ms: seq<Move>, k: nat, pid: nat, status: int)
    requires |ss| == |ms| + 1 && k < |ss|
  {
    exists j :: 0 <= j < k && ms[j].a == Die(status) && ms[j].p < |ss[j].procs| && ss[j].procs[ms[j].p].pid == pid
  }

  lemma {:induction false} ExitsCalled(ss: seq<State>, ms: seq<Move>, k: nat)
    requires Run(ss, ms) && Initial(ss[0]) && k < |ss|
    ensures forall pid :: pid in ss[k].exits ==> CalledExit(ss, ms, k, pid, ss[k].exits[pid])
  {
    if k > 0 {
      ExitsCalled(ss, ms, k - 1);
      var s, s', p, a := ss[k - 1], ss[k - 1 + 1], ms[k - 1].p, ms[k - 1].a;
      assert Moves(s, ms[k - 1], s');
      StepExits(s, p, a);
      hide Step, Enabled;
      forall pid | pid in s'.exits ensures CalledExit(ss, ms, k, pid, s'.exits[pid]) {
        if a.Die? && pid == s.procs[p].pid {
          assert ms[k - 1].a == Die(s'.exits[pid]);
        } else {
          assert CalledExit(ss, ms, k - 1, pid, s.exits[pid]);
        }
      }
    }
  }

  lemma StepExits(s: State, p: nat, a: Act)
    requires p < |s.procs| && Enabled(s, p, a)
    ensures Step(s, p, a).exits == if a.Die? then s.exits[s.procs[p].pid := a.status] else s.exits
  {
  }

  /** In every run wait reports, for each process it collects, the status with which that process called exit. */
  lemma StatusReported(ss: seq<State>, ms: seq<Move>, k: nat, i: nat)
    requires Run(ss, ms) && Initial(ss[0]) && k < |ss| && i < |ss[k].got|
    ensures CalledExit(ss, ms, k, ss[k].got[i].pid, ss[k].got[i].status)
  {
    CollectedOnce(ss, ms, k);
    ExitsCalled(ss, ms, k);
  }

  // --------------------------------------------------------------------- sleep and kill

  /** p is looking at q in a wakeup of channel c. */
  predicate WakesOn(s: State, p: nat, q: nat, c: int)
    requires p < |s.procs|
  {
    var pc := s.procs[p].pc;
    || (pc.ExWakeInit? && pc.j == q && c == s.ini)
    || (pc.ExWakeParent? && pc.j == q && c == pc.c)
  }

  /** A sleeper is woken by kill, by its own event elsewhere, or by a wakeup of its channel, and by nothing else. */
  lemma WokenBy(s: State, p: nat, a: Act, q: nat)
    requires Slots(s) && p < |s.procs| && q < |s.procs| && Enabled(s, p, a) && s.procs[q].st == SLEEPING
    ensures |Step(s, p, a).procs| == |s.procs|
    ensures Step(s, p, a).procs[q].st == SLEEPING <==>
              !(|| (p == q && (a == Kill || a == WakeElsewhere))
                || (p != q && a == Go && WakesOn(s, p, q, s.procs[q].chan)))
  {
    assert SlotOk(s, p) && SlotOk(s, q) && ChildOk(s, p, p);
    if a.Go? {
      hide Slots, LockOk, ExitOk, ChildOk, Step;
      GoWokenBy(s, p, q);
    } else {
      hide Slots, LockOk, ExitOk, ChildOk, StateOk;
    }
  }

  lemma GoWokenBy(s: State, p: nat, q: nat)
    requires p < |s.procs| && q < |s.procs| && Enabled(s, p, Go) && s.procs[q].st == SLEEPING
    requires SlotOk(s, p) && SlotOk(s, q) && s.procs[p].parent != p
    ensures |Step(s, p, Go).procs| == |s.procs|
    ensures Step(s, p, Go).procs[q].st == SLEEPING <==> !(p != q && WakesOn(s, p, q, s.procs[q].chan))
  {
    hide LockOk, ExitOk, ForkGo, ExitGo, WaitGo, ExitNext, WaitNext, ForkNext;
    if IsFork(s.procs[p].pc) {
      ForkSelf(s, p);
      if q != p && q != s.procs[p].pc.np { ForkOther(s, p, q); }
    } else if GoExitOk(s, p) {
      ExitSelf(s, p);
      if q != p { ExitOther(s, p, q); }
    } else {
      WaitSelf(s, p);
      if q != p { WaitOther(s, p, q); }
    }
  }

  /** kill marks the process and leaves it awake. */
  lemma KillWakes(s: State, p: nat)
    requires p < |s.procs| && Enabled(s, p, Kill)
    ensures var s' := Step(s, p, Kill);
            && s'.procs[p].killed && s'.procs[p].st != SLEEPING
            && (s.procs[p].st != SLEEPING ==> s'.procs[p].st == s.procs[p].st)
            && s' == s.(procs := s.procs[p := s'.procs[p]]) && s'.procs[p].pc == s.procs[p].pc
  {
  }

  /** Asleep in wait although killed. */
  predicate KilledAsleep(x: Proc) {
    x.killed && x.st == SLEEPING && x.chan >= 0
  }

  /**
   A process comes to sleep in wait although killed exactly when it is killed between its last
   look at `killed` and its going to sleep: nothing else leads there.
   */
  lemma KilledAsleepIff(s: State, p: nat, a: Act, q: nat)
    requires Slots(s) && p < |s.procs| && q < |s.procs| && Enabled(s, p, a) && !KilledAsleep(s.procs[q])
    ensures |Step(s, p, a).procs| == |s.procs|
    ensures KilledAsleep(Step(s, p, a).procs[q]) <==> p == q && a == Go && s.procs[q].pc == WtSet && s.procs[q].killed
  {
    assert SlotOk(s, p) && SlotOk(s, q) && ChildOk(s, p, p);
    if a.Go? {
      hide Slots, LockOk, ExitOk, ChildOk, Step;
      GoKilledAsleep(s, p, q);
    } else {
      hide Slots, LockOk, ExitOk, ChildOk;
    }
  }

  lemma GoKilledAsleep(s: State, p: nat, q: nat)
    requires p < |s.procs| && q < |s.procs| && Enabled(s, p, Go) && !KilledAsleep(s.procs[q])
    requires SlotOk(s, p) && SlotOk(s, q) && s.procs[p].parent != p
    ensures |Step(s, p, Go).procs| == |s.procs|
    ensures KilledAsleep(Step(s, p, Go).procs[q]) <==> p == q && s.procs[q].pc == WtSet && s.procs[q].killed
  {
    hide LockOk, ExitOk, ForkGo, ExitGo, WaitGo, ExitNext, ForkNext;
    if IsFork(s.procs[p].pc) {
      ForkSelf(s, p);
      if q != p && q != s.procs[p].pc.np { ForkOther(s, p, q); }
    } else if GoExitOk(s, p) {
      ExitSelf(s, p);
      if q != p { ExitOther(s, p, q); }
    } else {
      WaitSelf(s, p);
      if q != p { WaitOther(s, p, q); }
    }
  }

  // ---- A run that leads there: init forks, waits, and is killed just before it sleeps.

  lemma RunMore(ss: seq<State>, ms: seq<Move>, m: Move, s': State)
    requires Run(ss, ms) && Moves(ss[|ms|], m, s')
    ensures Run(ss + [s'], ms + [m])
  {
    var ss', ms' := ss + [s'], ms + [m];
    forall i | 0 <= i < |ms'| ensures Moves(ss'[i], ms'[i], ss'[i + 1]) {
      if i < |ms| { assert Moves(ss[i], ms[i], ss[i + 1]); }
    }
  }

  /** Two slots: init at `pc`, and its child in the making or runnable. */
  function Two(pc: Pc, st: PState, child: Proc, wl: int): (s: State) {
    State([Proc(pc, st, -1, -1, -1, false, 1, 0, -1), child], 0, wl, 3, map[], [])
  }

  function Child(st: PState, pc: Pc, parent: int, plock: int, maker: int): (x: Proc) {
    Proc(pc, st, parent, -1, plock, false, 2, 0, maker)
  }

  lemma RunNone(s: State)
    ensures Run([s], [])
  {
  }

  lemma InitRuns() returns (ss: seq<State>, ms: seq<Move>)
    ensures Run(ss, ms) && Initial(ss[0])
    ensures ss[|ms|] == State([Proc(User, RUNNING, -1, -1, -1, false, 1, 0, -1), FREED], 0, -1, 2, map[], [])
  {
    hide Run;
    var s0 := State([Proc(User, RUNNABLE, -1, -1, -1, false, 1, 0, -1), FREED], 0, -1, 2, map[], []);
    ss, ms := [s0], [];
    RunNone(s0);
    ss, ms := Did(ss, ms, Schedule, s0.(procs := s0.procs[0 := s0.procs[0].(st := RUNNING)]));
  }

  lemma ForkBegun() returns (ss: seq<State>, ms: seq<Move>)
    ensures Run(ss, ms) && Initial(ss[0]) && ss[|ms|] == Two(FkSet(1), RUNNING, Child(USED, Off, -1, -1, 0), 0)
  {
    hide Run, Initial;
    ss, ms := InitRuns();
    ss, ms := Did(ss, ms, StartFork(1), Two(FkGot(1), RUNNING, Child(USED, Off, -1, 0, 0), -1));
    ss, ms := Did(ss, ms, Go, Two(FkWant(1), RUNNING, Child(USED, Off, -1, -1, 0), -1));
    ss, ms := Did(ss, ms, Go, Two(FkSet(1), RUNNING, Child(USED, Off, -1, -1, 0), 0));
  }

  lemma ForkEnded() returns (ss: seq<State>, ms: seq<Move>)
    ensures Run(ss, ms) && Initial(ss[0]) && ss[|ms|] == Two(User, RUNNING, Child(RUNNABLE, User, 0, -1, -1), -1)
  {
    hide Run, Initial;
    ss, ms := ForkBegun();
    ss, ms := Did(ss, ms, Go, Two(FkRel(1), RUNNING, Child(USED, Off, 0, -1, 0), 0));
    ss, ms := Did(ss, ms, Go, Two(FkReady(1), RUNNING, Child(USED, Off, 0, -1, 0), -1));
    ss, ms := Did(ss, ms, Go, Two(User, RUNNING, Child(RUNNABLE, User, 0, -1, -1), -1));
  }

  /** After fork, init calls wait and finds its child alive. */
  lemma WaitWithChild() returns (ss: seq<State>, ms: seq<Move>)
    ensures Run(ss, ms) && Initial(ss[0])
    ensures ss[|ms|] == Two(WtScan(2, true), RUNNING, Child(RUNNABLE, User, 0, -1, -1), 0)
  {
    hide Run, Initial;
    ss, ms := ForkEnded();
    var c := Child(RUNNABLE, User, 0, -1, -1);
    ss, ms := Did(ss, ms, StartWait, Two(WtWant, RUNNING, c, -1));
    ss, ms := Did(ss, ms, Go, Two(WtScan(0, false), RUNNING, c, 0));
    ss, ms := Did(ss, ms, Go, Two(WtScan(1, false), RUNNING, c, 0));
    ss, ms := Did(ss, ms, Go, Two(WtScan(2, true), RUNNING, c, 0));
  }

  /** The run goes on with a step of init. */
  lemma Did(ss: seq<State>, ms: seq<Move>, a: Act, s': State) returns (ss': seq<State>, ms': seq<Move>)
    requires Run(ss, ms) && Moves(ss[|ms|], Move(0, a), s')
    ensures Run(ss', ms') && ss'[0] == ss[0] && |ms'| == |ms| + 1 && ss'[|ms'|] == s'
  {
    hide Moves;
    RunMore(ss, ms, Move(0, a), s');
    ss', ms' := ss + [s'], ms + [Move(0, a)];
  }

  lemma KilledSleeper() returns (ss: seq<State>, ms: seq<Move>)
    ensures Run(ss, ms) && Initial(ss[0]) && |ss[|ms|].procs| > 0 && KilledAsleep(ss[|ms|].procs[0])
  {
    ss, ms := WaitWithChild();
    var c := Child(RUNNABLE, User, 0, -1, -1);
    var s := Two(WtSlp, RUNNING, c, 0);
    ss, ms := Did(ss, ms, Go, s);
    s := Put(s, 0, s.procs[0].(killed := true));
    ss, ms := Did(ss, ms, Kill, s);
    s := Put(s, 0, s.procs[0].(pc := WtGot, plock := 0));
    ss, ms := Did(ss, ms, Go, s);
    s := At(s, 0, WtSet).(wl := -1);
    ss, ms := Did(ss, ms, Go, s);
    s := Put(s, 0, s.procs[0].(pc := WtSwitch, chan := 0, st := SLEEPING));
    ss, ms := Did(ss, ms, Go, s);
  }

  // ---- A run in which the child exits and init collects it.

  /** The run goes on with a step of the child. */
  lemma ChildDid(ss: seq<State>, ms: seq<Move>, a: Act, s': State) returns (ss': seq<State>, ms': seq<Move>)
    requires Run(ss, ms) && Moves(ss[|ms|], Move(1, a), s')
    ensures Run(ss', ms') && ss'[0] == ss[0] && |ms'| == |ms| + 1 && ss'[|ms'|] == s'
  {
    hide Moves;
    RunMore(ss, ms, Move(1, a), s');
    ss', ms' := ss + [s'], ms + [Move(1, a)];
  }

  /** Init runs, and its child is inside exit. */
  function Exiting(pc: Pc, plock: int, wl: int): (s: State) {
    Two(User, RUNNING, Child(RUNNING, pc, 0, plock, -1), wl)
  }

  lemma ExitBegun() returns (ss: seq<State>, ms: seq<Move>)
    ensures Run(ss, ms) && Initial(ss[0]) && ss[|ms|] == Exiting(ExReparent(0), -1, 1)
  {
    hide Run, Initial;
    ss, ms := ForkEnded();
    ss, ms := ChildDid(ss, ms, Schedule, Exiting(User, -1, -1));
    ss, ms := ChildDid(ss, ms, StartExit, Exiting(ExWant, -1, -1));
    ss, ms := ChildDid(ss, ms, Go, Exiting(ExReparent(0), -1, 1));
  }

  lemma ExitReparented() returns (ss: seq<State>, ms: seq<Move>)
    ensures Run(ss, ms) && Initial(ss[0]) && ss[|ms|] == Exiting(ExWakeParent(0, 0), -1, 1)
  {
    hide Run, Initial;
    ss, ms := ExitBegun();
    ss, ms := ChildDid(ss, ms, Go, Exiting(ExReparent(1), -1, 1));
    ss, ms := ChildDid(ss, ms, Go, Exiting(ExReparent(2), -1, 1));
    ss, ms := ChildDid(ss, ms, Go, Exiting(ExWakeParent(0, 0), -1, 1));
  }

  lemma ExitWoke() returns (ss: seq<State>, ms: seq<Move>)
    ensures Run(ss, ms) && Initial(ss[0]) && ss[|ms|] == Exiting(ExZombie, 1, 1)
  {
    hide Run, Initial;
    ss, ms := ExitReparented();
    ss, ms := ChildDid(ss, ms, Go, Exiting(ExWakeParent(0, 1), -1, 1));
    ss, ms := ChildDid(ss, ms, Go, Exiting(ExWakeParent(0, 2), -1, 1));
    ss, ms := ChildDid(ss, ms, Go, Exiting(ExLock, -1, 1));
    ss, ms := ChildDid(ss, ms, Go, Exiting(ExZombie, 1, 1));
  }

  /** Init at `pc`, and its child a zombie with its status. */
  function Exited(pc: Pc, cpc: Pc, plock: int, wl: int, status: int): (s: State) {
    Two(pc, RUNNING, Child(ZOMBIE, cpc, 0, plock, -1).(xstate := status), wl).(exits := map[2 := status])
  }

  lemma ExitEnded(status: int) returns (ss: seq<State>, ms: seq<Move>)
    ensures Run(ss, ms) && Initial(ss[0]) && ss[|ms|] == Exited(User, Dead, -1, -1, status)
  {
    hide Run, Initial;
    ss, ms := ExitWoke();
    ss, ms := ChildDid(ss, ms, Die(status), Exited(User, ExRel, 1, 1, status));
    ss, ms := ChildDid(ss, ms, Go, Exited(User, ExSwitch, 1, -1, status));
    ss, ms := ChildDid(ss, ms, SwitchOut, Exited(User, Dead, -1, -1, status));
  }

  /** Wait finds the zombie. */
  lemma ZombieFound(status: int) returns (ss: seq<State>, ms: seq<Move>)
    ensures Run(ss, ms) && Initial(ss[0]) && ss[|ms|] == Exited(WtScan(1, false), Dead, -1, 0, status)
  {
    hide Run, Initial;
    ss, ms := ExitEnded(status);
    ss, ms := Did(ss, ms, StartWait, Exited(WtWant, Dead, -1, -1, status));
    ss, ms := Did(ss, ms, Go, Exited(WtScan(0, false), Dead, -1, 0, status));
    ss, ms := Did(ss, ms, Go, Exited(WtScan(1, false), Dead, -1, 0, status));
  }

  /** For every status there is a run in which wait returns it, and the slot is free again. */
  lemma Collected(status: int) returns (ss: seq<State>, ms: seq<Move>)
    ensures Run(ss, ms) && Initial(ss[0])
    ensures var s := ss[|ms|]; s.got == [Reaped(2, status)] && |s.procs| == 2 && s.procs[1] == FREED
  {
    hide Run, Initial;
    ss, ms := ZombieFound(status);
    var s := Two(WtRel, RUNNING, FREED, 0).(exits := map[2 := status], got := [Reaped(2, status)]);
    ss, ms := Did(ss, ms, Go, s);
    ss, ms := Did(ss, ms, Go, At(s, 0, User).(wl := -1));
  }
}
