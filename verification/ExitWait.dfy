/**
 * fork, exit, reparent, wait and kill (kernel/proc.c) as an interleaving of the
 * processes in the process table: a step is one lock operation, or one critical
 * section under a process lock.
 */
module ExitWait {

  datatype PState = UNUSED | USED | RUNNABLE | RUNNING | SLEEPING | ZOMBIE

  datatype Pc =
    | Off                           // no process, or one still being made
    | User                          // outside fork, exit and wait
    | FkGot(np: nat)                // np is USED and its lock held
    | FkWant(np: nat)               // before acquire(&wait_lock)
    | FkSet(np: nat)                // before np->parent = p
    | FkRel(np: nat)                // before release(&wait_lock)
    | FkReady(np: nat)              // before np->state = RUNNABLE
    | ExWant                        // before acquire(&wait_lock)
    | ExReparent(i: nat)            // reparent looks at slot i
    | ExWakeInit(i: nat, j: nat)    // slot i was given to init; wakeup(initproc) looks at slot j
    | ExWakeParent(c: int, j: nat)  // wakeup(p->parent) looks at slot j
    | ExLock                        // before acquire(&p->lock)
    | ExZombie                      // before p->state = ZOMBIE
    | ExRel                         // before release(&wait_lock)
    | ExSwitch                      // before the scheduler releases p->lock
    | Dead                          // never runs again
    | WtWant                        // before acquire(&wait_lock)
    | WtScan(i: nat, kids: bool)    // looks at slot i
    | WtSlp                         // in sleep, before acquire(&p->lock)
    | WtGot                         // before release(&wait_lock)
    | WtSet                         // before it becomes SLEEPING
    | WtSwitch                      // before the scheduler releases p->lock
    | WtAsleep
    | WtWoken                       // switched in again, holds p->lock
    | WtReacq                       // before acquire(&wait_lock)
    | WtRel                         // before release(&wait_lock) and return

  /**
   parent, plock and maker are slots or -1; chan is the slot slept on, -1 for none, -2 for
   some other channel. pid numbers the processes as allocpid made them; the int that the
   kernel stores and returns is CPid(pid).
   */
  datatype Proc = Proc(pc: Pc, st: PState, parent: int, chan: int, plock: int, killed: bool, pid: nat, xstate: int,
    maker: int)

  /** nextpid is a 32-bit signed integer. */
  function CPid(pid: nat): (c: int) {
    var low := pid % 0x1_0000_0000;
    if low >= 0x8000_0000 then low - 0x1_0000_0000 else low
  }

  /** Two processes have the same int pid exactly when a multiple of 2^32 allocations lies between them. */
  lemma SamePidIff(a: nat, b: nat)
    ensures CPid(a) == CPid(b) <==> (a - b) % 0x1_0000_0000 == 0
  {
    var q, p := a / 0x1_0000_0000, b / 0x1_0000_0000;
    var r, t := a % 0x1_0000_0000, b % 0x1_0000_0000;
    assert a - b == 0x1_0000_0000 * (q - p) + (r - t);
  }

  /** What a wait returned: a pid and the exit status copied out. */
  datatype Reaped = Reaped(pid: nat, status: int)

  /** wl is the slot that holds wait_lock, or -1; exits and got record every exit and every wait that collected one. */
  datatype State = State(procs: seq<Proc>, ini: nat, wl: int, nextpid: nat, exits: map<nat, int>, got: seq<Reaped>)

  datatype Act =
    | StartFork(np: nat) | ForkFails | StartExit | Die(status: int) | StartWait | CopyFails
    | Go | SwitchOut | Resume | Kill | SleepElsewhere | WakeElsewhere | Yield | Schedule

  const FREED: Proc := Proc(Off, UNUSED, -1, -1, -1, false, 0, 0, -1)

  predicate IsFork(pc: Pc) {
    pc.FkGot? || pc.FkWant? || pc.FkSet? || pc.FkRel? || pc.FkReady?
  }

  predicate IsExit(pc: Pc) {
    || pc.ExWant? || pc.ExLock? || pc.ExZombie? || pc.ExRel? || pc.ExSwitch?
    || pc.ExReparent? || pc.ExWakeInit? || pc.ExWakeParent?
  }

  predicate HoldsWait(pc: Pc) {
    || pc.FkSet? || pc.FkRel? || pc.ExReparent? || pc.ExWakeInit? || pc.ExWakeParent? || pc.WtScan?
    || pc.ExLock? || pc.ExZombie? || pc.ExRel? || pc.WtSlp? || pc.WtGot? || pc.WtRel?
  }

  predicate HoldsOwn(pc: Pc) {
    (pc.ExZombie? || pc.ExRel? || pc.ExSwitch? || pc.WtGot? || pc.WtSet? || pc.WtSwitch? || pc.WtWoken?)
  }

  predicate Alive(x: Proc) {
    (x.st.RUNNABLE? || x.st.RUNNING? || x.st.SLEEPING?)
  }

  /** Asleep in wait, or past the point where it would see a zombie itself. */
  predicate Waits(x: Proc) {
    x.pc == WtSet || (x.st == SLEEPING && x.chan >= 0)
  }

  // ---------------------------------------------------------------------- steps

  predicate GoForkOk(s: State, p: nat)
    requires p < |s.procs| && IsFork(s.procs[p].pc)
  {
    var pc := s.procs[p].pc;
    && pc.np < |s.procs| && pc.np != p
    && (pc.FkWant? ==> s.wl == -1)
    && (pc.FkReady? ==> s.procs[pc.np].plock == -1)
  }

  predicate GoExitOk(s: State, p: nat)
    requires p < |s.procs|
  {
    match s.procs[p].pc
    case ExWant => s.wl == -1
    case ExReparent(_) => s.ini < |s.procs|
    case ExWakeInit(_, j) => j < |s.procs| && j != p ==> s.procs[j].plock == -1
    case ExWakeParent(_, j) => j < |s.procs| && j != p ==> s.procs[j].plock == -1
    case ExLock => s.procs[p].plock == -1
    case ExRel => true
    case _ => false
  }

  predicate GoWaitOk(s: State, p: nat)
    requires p < |s.procs|
  {
    match s.procs[p].pc
    case WtWant | WtReacq => s.wl == -1
    case WtScan(i, kids) =>
      if i < |s.procs| then s.procs[i].parent == p ==> s.procs[i].plock == -1 else kids ==> s.procs[p].plock == -1
    case WtSlp => s.procs[p].plock == -1
    case WtGot | WtSet | WtWoken | WtRel => true
    case _ => false
  }

  predicate Enabled(s: State, p: nat, a: Act)
    requires p < |s.procs|
  {
    var x := s.procs[p];
    match a
    case StartFork(np) =>
      && x.pc == User && x.st == RUNNING && np < |s.procs| && np != p && s.procs[np].st == UNUSED
      && s.procs[np].plock == -1
    case ForkFails => x.pc.FkGot? && x.st == RUNNING && x.pc.np < |s.procs| && x.pc.np != p
    case StartExit => x.pc == User && x.st == RUNNING && p != s.ini
    case Die(_) => x.pc == ExZombie && x.st == RUNNING
    case StartWait => x.pc == User && x.st == RUNNING
    case CopyFails =>
      && x.pc.WtScan? && x.st == RUNNING && x.pc.i < |s.procs| && s.procs[x.pc.i].parent == p
      && s.procs[x.pc.i].plock == -1 && s.procs[x.pc.i].st == ZOMBIE
    case Go =>
      && (x.st == RUNNING || x.pc == ExRel)
      && (if IsFork(x.pc) then GoForkOk(s, p) else GoExitOk(s, p) || GoWaitOk(s, p))
    case SwitchOut => (x.pc.ExSwitch? || x.pc.WtSwitch?)
    case Resume => x.pc == WtAsleep && x.st == RUNNABLE && x.plock == -1
    case Kill => x.plock == -1
    case SleepElsewhere => x.pc == User && x.st == RUNNING && x.plock == -1
    case WakeElsewhere => x.st == SLEEPING && x.chan == -2 && x.plock == -1
    case Yield => x.st == RUNNING && !HoldsWait(x.pc) && !HoldsOwn(x.pc) && !x.pc.FkGot?
    case Schedule => x.st == RUNNABLE && x.pc != WtAsleep && x.plock == -1
  }

  function Put(s: State, p: nat, x: Proc): (s': State)
    requires p < |s.procs|
  {
    s.(procs := s.procs[p := x])
  }

  function At(s: State, p: nat, pc: Pc): (s': State)
    requires p < |s.procs|
  {
    Put(s, p, s.procs[p].(pc := pc))
  }

  /** wakeup(&proc[c]) looks at one process. */
  function Woke(x: Proc, c: int): (x': Proc) {
    if x.st == SLEEPING && x.chan == c then x.(st := RUNNABLE) else x
  }

  function ForkGo(s: State, p: nat): (s': State)
    requires p < |s.procs| && IsFork(s.procs[p].pc) && GoForkOk(s, p)
  {
    var np := s.procs[p].pc.np;
    var y := s.procs[np];
    match s.procs[p].pc
    case FkGot(_) => At(Put(s, np, y.(plock := -1)), p, FkWant(np))
    case FkWant(_) => At(s, p, FkSet(np)).(wl := p)
    case FkSet(_) => At(Put(s, np, y.(parent := p)), p, FkRel(np))
    case FkRel(_) => At(s, p, FkReady(np)).(wl := -1)
    case FkReady(_) => At(Put(s, np, y.(st := RUNNABLE, pc := User, maker := -1)), p, User)
  }

  function ExitGo(s: State, p: nat): (s': State)
    requires p < |s.procs| && GoExitOk(s, p)
  {
    var x := s.procs[p];
    match x.pc
    case ExWant => At(s, p, ExReparent(0)).(wl := p)
    case ExReparent(i) =>
      if i >= |s.procs| then At(s, p, ExWakeParent(x.parent, 0))
      else if s.procs[i].parent == p then At(Put(s, i, s.procs[i].(parent := s.ini)), p, ExWakeInit(i, 0))
      else At(s, p, ExReparent(i + 1))
    case ExWakeInit(i, j) =>
      if j >= |s.procs| then At(s, p, ExReparent(i + 1))
      else At(if j == p then s else Put(s, j, Woke(s.procs[j], s.ini)), p, ExWakeInit(i, j + 1))
    case ExWakeParent(c, j) =>
      if j >= |s.procs| then At(s, p, ExLock)
      else At(if j == p then s else Put(s, j, Woke(s.procs[j], c)), p, ExWakeParent(c, j + 1))
    case ExLock => Put(s, p, x.(pc := ExZombie, plock := p))
    case ExRel => At(s, p, ExSwitch).(wl := -1)
  }

  function WaitGo(s: State, p: nat): (s': State)
    requires p < |s.procs| && GoWaitOk(s, p)
  {
    var x := s.procs[p];
    match x.pc
    case WtWant | WtReacq => At(s, p, WtScan(0, false)).(wl := p)
    case WtScan(i, kids) =>
      if i < |s.procs| then
        var y := s.procs[i];
        if y.parent != p then At(s, p, WtScan(i + 1, kids))
        else if y.st == ZOMBIE then At(Put(s, i, FREED), p, WtRel).(got := s.got + [Reaped(y.pid, y.xstate)])
        else At(s, p, WtScan(i + 1, true))
      else if !kids || x.killed then At(s, p, WtRel)
      else At(s, p, WtSlp)
    case WtSlp => Put(s, p, x.(pc := WtGot, plock := p))
    case WtGot => At(s, p, WtSet).(wl := -1)
    case WtSet => Put(s, p, x.(pc := WtSwitch, chan := p, st := SLEEPING))
    case WtWoken => Put(s, p, x.(pc := WtReacq, chan := -1, plock := -1))
    case WtRel => At(s, p, User).(wl := -1)
  }

  function Step(s: State, p: nat, a: Act): (s': State)
    requires p < |s.procs| && Enabled(s, p, a)
  {
    var x := s.procs[p];
    match a
    case StartFork(np) =>
      var made := s.procs[np].(st := USED, plock := p, pid := s.nextpid, maker := p);
      At(Put(s, np, made), p, FkGot(np)).(nextpid := s.nextpid + 1)
    case ForkFails => At(Put(s, x.pc.np, FREED), p, User)
    case StartExit => At(s, p, ExWant)
    case Die(status) => Put(s, p, x.(pc := ExRel, st := ZOMBIE, xstate := status)).(exits := s.exits[x.pid := status])
    case StartWait => At(s, p, WtWant)
    case CopyFails => At(s, p, WtRel)
    case Go => if IsFork(x.pc) then ForkGo(s, p) else if GoExitOk(s, p) then ExitGo(s, p) else WaitGo(s, p)
    case SwitchOut => Put(s, p, x.(pc := if x.pc == ExSwitch then Dead else WtAsleep, plock := -1))
    case Resume => Put(s, p, x.(pc := WtWoken, st := RUNNING, plock := p))
    case Kill => Put(s, p, x.(killed := true, st := if x.st == SLEEPING then RUNNABLE else x.st))
    case SleepElsewhere => Put(s, p, x.(st := SLEEPING, chan := -2))
    case WakeElsewhere => Put(s, p, x.(st := RUNNABLE))
    case Yield => Put(s, p, x.(st := RUNNABLE))
    case Schedule => Put(s, p, x.(st := RUNNING, chan := if x.chan == -2 then -1 else x.chan))
  }

  // ------------------------------------------------------------------ invariant

  predicate InTable(s: State, p: int) {
    0 <= p < |s.procs|
  }

  /** Who holds wait_lock and the lock of slot p. */
  ghost predicate LockOk(s: State, p: nat)
    requires p < |s.procs|
  {
    var x := s.procs[p];
    && (HoldsWait(x.pc) <==> s.wl == p)
    && (HoldsOwn(x.pc) <==> x.plock == p)
    && (x.plock != -1 && x.plock != p ==> InTable(s, x.plock) && s.procs[x.plock].pc == FkGot(p))
  }

  /** The state and channel of slot p agree with where its process is. */
  predicate StateOk(x: Proc, p: nat) {
    && (x.pc == Off <==> (x.st.UNUSED? || x.st.USED?))
    && ((x.pc.ExRel? || x.pc.ExSwitch? || x.pc.Dead?) <==> x.st == ZOMBIE)
    && (HoldsWait(x.pc) || HoldsOwn(x.pc) || x.pc.FkGot? ==>
          x.st == RUNNING || x.pc.ExRel? || x.pc.ExSwitch? || x.pc.WtSwitch?)
    && (x.pc == WtSwitch ==> x.st == SLEEPING)
    && (x.pc == WtAsleep ==> (x.st.SLEEPING? || x.st.RUNNABLE?))
    && (x.chan >= 0 ==> x.chan == p && (x.pc.WtSwitch? || x.pc.WtAsleep? || x.pc.WtWoken?))
    && ((x.pc.WtSwitch? || x.pc.WtAsleep?) ==> x.chan == p)
  }

  ghost predicate SlotOk(s: State, p: nat)
    requires p < |s.procs|
  {
    LockOk(s, p) && StateOk(s.procs[p], p) && ForkOk(s, p) && ExitOk(s, p)
  }

  ghost predicate ForkOk(s: State, p: nat)
    requires p < |s.procs|
  {
    var x := s.procs[p];
    && (IsFork(x.pc) ==> x.pc.np < |s.procs| && x.pc.np != p && Making(s.procs[x.pc.np], p, x.pc))
    && (x.st == USED ==> InTable(s, x.maker) && IsFork(s.procs[x.maker].pc) && s.procs[x.maker].pc.np == p)
    && -1 <= x.parent < |s.procs|
    && (x.st == UNUSED ==> x.parent == -1)
    && (p == s.ini ==> x.parent == -1 && Alive(x) && !IsExit(x.pc))
    && (p != s.ini && !(x.st.UNUSED? || x.st.USED?) ==> x.parent >= 0)
  }

  ghost predicate Making(y: Proc, p: nat, pc: Pc) {
    && y.st == USED && y.maker == p
    && (pc.FkGot? <==> y.plock == p)
    && y.parent == if pc.FkRel? || pc.FkReady? then p else -1
  }

  ghost predicate ExitOk(s: State, p: nat)
    requires p < |s.procs|
  {
    var x := s.procs[p];
    match x.pc
    case ExWakeInit(i, j) => s.ini < j && s.ini < |s.procs| ==> !Waits(s.procs[s.ini])
    case ExWakeParent(c, j) => c == x.parent && InTable(s, c) && (c < j ==> !Waits(s.procs[c]))
    case ExLock | ExZombie => InTable(s, x.parent) && !Waits(s.procs[x.parent])
    case _ => true
  }

  /** What holds between a process and each of its children. */
  ghost predicate ChildOk(s: State, p: nat, c: nat)
    requires p < |s.procs| && c < |s.procs|
  {
    var x, y := s.procs[p], s.procs[c];
    y.parent == p ==>
      && p != c && Alive(x)
      && (x.pc.ExReparent? ==> x.pc.i <= c)
      && (x.pc.ExWakeInit? ==> x.pc.i < c)
      && !x.pc.ExWakeParent? && !(x.pc.ExLock? || x.pc.ExZombie?)
      && (x.pc.WtScan? && !x.pc.kids ==> x.pc.i <= c)
      && (y.st == ZOMBIE ==> (x.pc.WtScan? ==> x.pc.i <= c) && !(x.pc.WtSlp? || x.pc.WtGot?))
      && (y.st == ZOMBIE && Waits(x) ==>
            p == s.ini && InTable(s, s.wl) && s.procs[s.wl].pc.ExWakeInit? && s.procs[s.wl].pc.j <= p)
  }

  ghost predicate Slots(s: State) {
    && s.ini < |s.procs| && -1 <= s.wl < |s.procs|
    && (forall p :: 0 <= p < |s.procs| ==> SlotOk(s, p))
    && (forall p, c :: 0 <= p < |s.procs| && 0 <= c < |s.procs| ==> ChildOk(s, p, c))
  }

  // --------------------------------------------------------------- fork's steps

  predicate Forks(s: State, p: nat) {
    p < |s.procs| && IsFork(s.procs[p].pc) && s.procs[p].st == RUNNING && GoForkOk(s, p)
  }

  /** What a step of fork does to its own slot, to the new process and to wait_lock. */
  lemma ForkSelf(s: State, p: nat)
    requires Forks(s, p)
    ensures var s', x := ForkGo(s, p), s.procs[p];
      var y := s.procs[x.pc.np];
      && |s'.procs| == |s.procs| && s'.ini == s.ini
      && s'.wl == (if x.pc.FkWant? then p else if x.pc.FkRel? then -1 else s.wl)
      && s'.procs[p] == x.(pc := ForkNext(x.pc))
      && s'.procs[x.pc.np] == (match x.pc
         case FkGot(_) => y.(plock := -1)
         case FkSet(_) => y.(parent := p)
         case FkReady(_) => y.(st := RUNNABLE, pc := User, maker := -1)
         case _ => y)
  {
  }

  function ForkNext(pc: Pc): (pc': Pc)
    requires IsFork(pc)
  {
    match pc
    case FkGot(np) => FkWant(np)
    case FkWant(np) => FkSet(np)
    case FkSet(np) => FkRel(np)
    case FkRel(np) => FkReady(np)
    case FkReady(_) => User
  }

  lemma ForkOther(s: State, p: nat, q: nat)
    requires Forks(s, p) && q < |s.procs| && q != p && q != s.procs[p].pc.np
    ensures |ForkGo(s, p).procs| == |s.procs| && ForkGo(s, p).procs[q] == s.procs[q]
  {
  }

  lemma ForkLock(s: State, p: nat, q: nat)
    requires Forks(s, p) && q < |s.procs| && LockOk(s, p) && LockOk(s, q) && ForkOk(s, p)
        && StateOk(s.procs[s.procs[p].pc.np], s.procs[p].pc.np)
    requires LockOk(s, s.procs[p].pc.np)
    ensures LockOk(ForkGo(s, p), q)
  {
    hide ForkGo;
    ForkSelf(s, p);
    var np, h := s.procs[p].pc.np, s.procs[q].plock;
    if q != p && q != np { ForkOther(s, p, q); }
    if InTable(s, h) && h != p && h != np { ForkOther(s, p, h); }
  }

  lemma ForkState(s: State, p: nat, q: nat)
    requires Forks(s, p) && q < |s.procs| && StateOk(s.procs[p], p) && StateOk(s.procs[q], q) && ForkOk(s, p)
    requires StateOk(s.procs[s.procs[p].pc.np], s.procs[p].pc.np)
    ensures StateOk(ForkGo(s, p).procs[q], q)
  {
    hide ForkGo;
    ForkSelf(s, p);
    if q != p && q != s.procs[p].pc.np { ForkOther(s, p, q); }
  }

  lemma ForkFork(s: State, p: nat, q: nat)
    requires Forks(s, p) && q < |s.procs| && s.ini < |s.procs| && ForkOk(s, p) && ForkOk(s, q)
        && ForkOk(s, s.procs[p].pc.np)
    requires StateOk(s.procs[s.procs[p].pc.np], s.procs[p].pc.np)
    ensures ForkOk(ForkGo(s, p), q)
  {
    hide ForkGo;
    ForkSelf(s, p);
    var np, y := s.procs[p].pc.np, s.procs[q];
    if q != p && q != np { ForkOther(s, p, q); }
    if IsFork(y.pc) && y.pc.np != p && y.pc.np != np { ForkOther(s, p, y.pc.np); }
    if InTable(s, y.maker) && y.maker != p && y.maker != np { ForkOther(s, p, y.maker); }
  }

  lemma ForkExit(s: State, p: nat, q: nat)
    requires Forks(s, p) && q < |s.procs| && s.ini < |s.procs| && ForkOk(s, p) && ExitOk(s, q)
    requires StateOk(s.procs[s.procs[p].pc.np], s.procs[p].pc.np)
    requires LockOk(s, p) && LockOk(s, q)
    ensures ExitOk(ForkGo(s, p), q)
  {
    hide ForkGo;
    ForkSelf(s, p);
    var np, y := s.procs[p].pc.np, s.procs[q];
    if q != p && q != np { ForkOther(s, p, q); }
    if s.ini != p && s.ini != np { ForkOther(s, p, s.ini); }
    if InTable(s, y.parent) && y.parent != p && y.parent != np { ForkOther(s, p, y.parent); }
  }

  lemma ForkChild(s: State, p: nat, q: nat, c: nat)
    requires Forks(s, p) && q < |s.procs| && c < |s.procs| && SlotOk(s, p)
        && StateOk(s.procs[s.procs[p].pc.np], s.procs[p].pc.np)
    requires LockOk(s, q) && ChildOk(s, q, c)
    ensures ChildOk(ForkGo(s, p), q, c)
  {
    hide ForkGo;
    ForkSelf(s, p);
    var np := s.procs[p].pc.np;
    if q != p && q != np { ForkOther(s, p, q); }
    if c != p && c != np { ForkOther(s, p, c); }
    if InTable(s, s.wl) && s.wl != p && s.wl != np { ForkOther(s, p, s.wl); }
  }

  // --------------------------------------------------------------- exit's steps

  predicate Exits(s: State, p: nat) {
    p < |s.procs| && (s.procs[p].st == RUNNING || s.procs[p].pc == ExRel) && GoExitOk(s, p)
  }

  /** Where exit goes next; `child` says whether the slot reparent looks at has p as its parent. */
  function ExitNext(x: Proc, n: nat, child: bool): (pc: Pc) {
    match x.pc
    case ExWant => ExReparent(0)
    case ExReparent(i) =>
      if i >= n then ExWakeParent(x.parent, 0) else if child then ExWakeInit(i, 0) else ExReparent(i + 1)
    case ExWakeInit(i, j) => if j >= n then ExReparent(i + 1) else ExWakeInit(i, j + 1)
    case ExWakeParent(c, j) => if j >= n then ExLock else ExWakeParent(c, j + 1)
    case ExLock => ExZombie
    case _ => ExSwitch
  }

  /** What a step of exit does to its own slot and to wait_lock. */
  lemma ExitSelf(s: State, p: nat)
    requires Exits(s, p)
    requires s.procs[p].pc.ExReparent? && s.procs[p].pc.i < |s.procs| ==>
               s.procs[s.procs[p].pc.i].parent != p || s.procs[p].pc.i != p
    ensures var s', x := ExitGo(s, p), s.procs[p];
      var child := x.pc.ExReparent? && x.pc.i < |s.procs| && s.procs[x.pc.i].parent == p;
      && |s'.procs| == |s.procs| && s'.ini == s.ini
      && s'.wl == (if x.pc.ExWant? then p else if x.pc.ExRel? then -1 else s.wl)
      && s'.procs[p] == x.(pc := ExitNext(x, |s.procs|, child), plock := if x.pc.ExLock? then p else x.plock)
  {
  }

  /** What a step of exit does to another slot: it gives it to init, or wakes it, or nothing. */
  lemma ExitOther(s: State, p: nat, q: nat)
    requires Exits(s, p) && q < |s.procs| && q != p
    ensures var s', x, y := ExitGo(s, p), s.procs[p], s.procs[q];
      && |s'.procs| == |s.procs| && s'.ini == s.ini
      && s'.procs[q] == (if x.pc == ExReparent(q) && y.parent == p then y.(parent := s.ini)
                         else if x.pc.ExWakeInit? && x.pc.j == q then Woke(y, s.ini)
                         else if x.pc.ExWakeParent? && x.pc.j == q then Woke(y, x.pc.c)
                         else y)
      && ((x.pc.ExWakeInit? || x.pc.ExWakeParent?) && x.pc.j == q ==> y.plock == -1)
  {
  }

  lemma ExitLock(s: State, p: nat, q: nat)
    requires Exits(s, p) && q < |s.procs| && LockOk(s, p) && LockOk(s, q) && s.procs[p].parent != p
    ensures LockOk(ExitGo(s, p), q)
  {
    hide ExitGo;
    ExitSelf(s, p);
    if q != p { ExitOther(s, p, q); }
    var h := s.procs[q].plock;
    if InTable(s, h) && h != p { ExitOther(s, p, h); }
  }

  lemma ExitState(s: State, p: nat, q: nat)
    requires Exits(s, p) && q < |s.procs| && StateOk(s.procs[p], p) && StateOk(s.procs[q], q) && LockOk(s, q)
        && s.procs[p].parent != p
    ensures StateOk(ExitGo(s, p).procs[q], q)
  {
    hide ExitGo;
    ExitSelf(s, p);
    if q != p { ExitOther(s, p, q); }
  }

  lemma ExitForkSelf(s: State, p: nat)
    requires Exits(s, p) && s.ini < |s.procs| && StateOk(s.procs[p], p) && ForkOk(s, p) && s.procs[p].parent != p
    ensures ForkOk(ExitGo(s, p), p)
  {
    hide ExitGo;
    ExitSelf(s, p);
  }

  lemma ExitFork(s: State, p: nat, q: nat)
    requires Exits(s, p) && q < |s.procs| && q != p && s.ini < |s.procs| && StateOk(s.procs[p], p)
        && ForkOk(s, p) && ForkOk(s, q) && s.procs[p].parent != p
    ensures ForkOk(ExitGo(s, p), q)
  {
    hide ExitGo, ExitNext;
    ExitOther(s, p, q);
    var y := s.procs[q];
    if IsFork(y.pc) && y.pc.np != p { ExitOther(s, p, y.pc.np); }
    if y.st == USED && y.maker != p { ExitOther(s, p, y.maker); }
  }

  lemma ExitExit(s: State, p: nat, q: nat)
    requires Exits(s, p) && q < |s.procs| && s.ini < |s.procs| && ExitOk(s, p) && ExitOk(s, q) && ForkOk(s, p)
        && StateOk(s.procs[p], p)
    requires LockOk(s, p) && LockOk(s, q) && SlotOk(s, s.ini)
    requires s.procs[p].parent >= 0 && SlotOk(s, s.procs[p].parent) && s.procs[p].parent != p
    ensures ExitOk(ExitGo(s, p), q)
  {
    hide ExitGo;
    ExitSelf(s, p);
    if q != p {
      ExitOther(s, p, q);
    } else {
      var c := s.procs[p].parent;
      ExitOther(s, p, c);
      ExitOther(s, p, s.ini);
    }
  }

  lemma ExitOwnChild(s: State, p: nat, c: nat)
    requires Exits(s, p) && c < |s.procs| && c != p && s.ini < |s.procs| && StateOk(s.procs[p], p)
        && ForkOk(s, p) && s.procs[p].parent != p
    requires ChildOk(s, p, c)
    ensures ChildOk(ExitGo(s, p), p, c)
  {
    hide ExitGo;
    ExitSelf(s, p);
    ExitOther(s, p, c);
  }

  lemma ExitChild(s: State, p: nat, q: nat, c: nat)
    requires Exits(s, p) && q < |s.procs| && c < |s.procs| && q != p && s.ini < |s.procs| && SlotOk(s, p)
        && SlotOk(s, s.ini) && SlotOk(s, q) && ForkOk(s, c)
    requires ChildOk(s, q, c) && s.procs[p].parent != p
    ensures ChildOk(ExitGo(s, p), q, c)
  {
    hide ExitGo;
    ExitSelf(s, p);
    ExitOther(s, p, q);
    if c != p { ExitOther(s, p, c); }
  }

  // --------------------------------------------------------------- wait's steps

  predicate WaitsOn(s: State, p: nat) {
    p < |s.procs| && s.procs[p].st == RUNNING && GoWaitOk(s, p)
  }

  /** The slot a wait looks at. */
  function Looked(s: State, p: nat): (i: int)
    requires p < |s.procs|
  {
    if s.procs[p].pc.WtScan? && s.procs[p].pc.i < |s.procs| then s.procs[p].pc.i else -1
  }

  /** wait finds a child that has exited, and frees it. */
  predicate Reaps(s: State, p: nat)
    requires p < |s.procs|
  {
    var i := Looked(s, p);
    i >= 0 && s.procs[i].parent == p && s.procs[i].st == ZOMBIE
  }

  function WaitNext(s: State, p: nat): (pc: Pc)
    requires p < |s.procs|
  {
    var x := s.procs[p];
    match x.pc
    case WtWant | WtReacq => WtScan(0, false)
    case WtScan(i, kids) =>
      if Reaps(s, p) then WtRel
      else if i < |s.procs| then WtScan(i + 1, kids || s.procs[i].parent == p)
      else if !kids || x.killed then WtRel
      else WtSlp
    case WtSlp => WtGot
    case WtGot => WtSet
    case WtSet => WtSwitch
    case WtWoken => WtReacq
    case _ => User
  }

  lemma WaitSelf(s: State, p: nat)
    requires WaitsOn(s, p)
    ensures var s', x := WaitGo(s, p), s.procs[p];
      && |s'.procs| == |s.procs| && s'.ini == s.ini
      && s'.wl == (if x.pc.WtWant? || x.pc.WtReacq? then p else if x.pc.WtGot? || x.pc.WtRel? then -1 else s.wl)
      && s'.procs[p].pc == WaitNext(s, p)
      && (!Reaps(s, p) || Looked(s, p) != p ==>
            s'.procs[p] == x.(pc := WaitNext(s, p),
                              plock := if x.pc.WtSlp? then p else if x.pc.WtWoken? then -1 else x.plock,
                              chan := if x.pc.WtSet? then p else if x.pc.WtWoken? then -1 else x.chan,
                              st := if x.pc.WtSet? then SLEEPING else x.st))
  {
  }

  lemma WaitOther(s: State, p: nat, q: nat)
    requires WaitsOn(s, p) && q < |s.procs| && q != p
    ensures |WaitGo(s, p).procs| == |s.procs|
    ensures WaitGo(s, p).procs[q] == (if Reaps(s, p) && Looked(s, p) == q then FREED else s.procs[q])
    ensures Reaps(s, p) && Looked(s, p) == q ==> s.procs[q].plock == -1
  {
  }

  lemma WaitLock(s: State, p: nat, q: nat)
    requires WaitsOn(s, p) && q < |s.procs| && LockOk(s, p) && LockOk(s, q) && StateOk(s.procs[q], q)
        && s.procs[p].parent != p
    requires Looked(s, p) >= 0 ==> StateOk(s.procs[Looked(s, p)], Looked(s, p)) && LockOk(s, Looked(s, p))
    ensures LockOk(WaitGo(s, p), q)
  {
    hide WaitGo;
    WaitSelf(s, p);
    var h := s.procs[q].plock;
    if q != p { WaitOther(s, p, q); }
    if InTable(s, h) && h != p { WaitOther(s, p, h); }
  }

  lemma WaitState(s: State, p: nat, q: nat)
    requires WaitsOn(s, p) && q < |s.procs| && StateOk(s.procs[p], p) && StateOk(s.procs[q], q)
        && s.procs[p].parent != p
    ensures StateOk(WaitGo(s, p).procs[q], q)
  {
    hide WaitGo;
    WaitSelf(s, p);
    if q != p { WaitOther(s, p, q); }
  }

  lemma WaitFork(s: State, p: nat, q: nat)
    requires WaitsOn(s, p) && q < |s.procs| && s.ini < |s.procs| && ForkOk(s, p) && ForkOk(s, q)
        && s.procs[p].parent != p
    requires Looked(s, p) >= 0 ==> StateOk(s.procs[Looked(s, p)], Looked(s, p))
    ensures ForkOk(WaitGo(s, p), q)
  {
    hide WaitGo;
    WaitSelf(s, p);
    var y := s.procs[q];
    if q != p { WaitOther(s, p, q); }
    if IsFork(y.pc) && y.pc.np != p { WaitOther(s, p, y.pc.np); }
    if InTable(s, y.maker) && y.maker != p { WaitOther(s, p, y.maker); }
  }

  lemma WaitExit(s: State, p: nat, q: nat)
    requires WaitsOn(s, p) && q < |s.procs| && s.ini < |s.procs| && ExitOk(s, q) && LockOk(s, p) && LockOk(s, q)
        && StateOk(s.procs[q], q) && s.procs[p].parent != p
    ensures ExitOk(WaitGo(s, p), q)
  {
    hide WaitGo;
    WaitSelf(s, p);
    var y := s.procs[q];
    if q != p { WaitOther(s, p, q); }
    if s.ini != p { WaitOther(s, p, s.ini); }
    if InTable(s, y.parent) && y.parent != p { WaitOther(s, p, y.parent); }
  }

  /** The process in wait and its own children. */
  lemma WaitOwnChild(s: State, p: nat, c: nat)
    requires WaitsOn(s, p) && c < |s.procs| && c != p && LockOk(s, p) && StateOk(s.procs[p], p)
        && StateOk(s.procs[c], c) && s.procs[p].parent != p
    requires ChildOk(s, p, c)
    ensures ChildOk(WaitGo(s, p), p, c)
  {
    hide WaitGo;
    WaitSelf(s, p);
    WaitOther(s, p, c);
    if s.wl == p {
      hide HoldsOwn;
    } else if InTable(s, s.wl) {
      WaitOther(s, p, s.wl);
    }
  }

  lemma WaitChild(s: State, p: nat, q: nat, c: nat)
    requires WaitsOn(s, p) && q < |s.procs| && c < |s.procs| && q != p && LockOk(s, p) && StateOk(s.procs[p], p)
        && StateOk(s.procs[q], q) && s.procs[p].parent != p
    requires ChildOk(s, q, c)
    ensures ChildOk(WaitGo(s, p), q, c)
  {
    hide WaitGo;
    WaitSelf(s, p);
    WaitOther(s, p, q);
    if c != p { WaitOther(s, p, c); }
    if InTable(s, s.wl) && s.wl != p { WaitOther(s, p, s.wl); }
  }

  // --------------------------------------------------------- steps of one slot

  predicate OneSlot(a: Act) {
    !a.Go? && !a.StartFork? && !a.ForkFails?
  }

  /** Such a step changes slot p only, and little of what other slots depend on. */
  lemma OneEffect(s: State, p: nat, a: Act)
    requires p < |s.procs| && OneSlot(a) && Enabled(s, p, a) && StateOk(s.procs[p], p)
    ensures var s', x := Step(s, p, a), s.procs[p];
      && s'.wl == s.wl && s'.ini == s.ini && |s'.procs| == |s.procs|
      && s'.procs == s.procs[p := s'.procs[p]]
      && Near(x, s'.procs[p]) && (Alive(x) && !a.Die? ==> Alive(s'.procs[p]))
  {
  }

  predicate Near(x: Proc, x': Proc) {
    && x'.parent == x.parent && x'.maker == x.maker
    && (HoldsWait(x'.pc) <==> HoldsWait(x.pc))
    && (IsFork(x.pc) || IsFork(x'.pc) || x.pc.ExWakeInit? || x'.pc.ExWakeInit? ==> x'.pc == x.pc)
    && (x.st == USED || x'.st == USED ==> x'.st == x.st && x'.plock == x.plock)
    && (Waits(x') ==> Waits(x))
    && (x'.st == UNUSED <==> x.st == UNUSED)
  }

  lemma OneState(s: State, p: nat, a: Act)
    requires p < |s.procs| && OneSlot(a) && Enabled(s, p, a) && StateOk(s.procs[p], p) && LockOk(s, p)
    ensures StateOk(Step(s, p, a).procs[p], p)
  {
  }

  lemma OneLock(s: State, p: nat, a: Act, q: nat)
    requires p < |s.procs| && q < |s.procs| && OneSlot(a) && Enabled(s, p, a) && StateOk(s.procs[p], p)
        && LockOk(s, p) && LockOk(s, q)
    ensures LockOk(Step(s, p, a), q)
  {
    OneEffect(s, p, a);
    if q != p {
      hide Step, Enabled, StateOk;
      assert Step(s, p, a).procs[q] == s.procs[q];
    }
  }

  lemma OneFork(s: State, p: nat, a: Act, q: nat)
    requires p < |s.procs| && q < |s.procs| && OneSlot(a) && Enabled(s, p, a) && StateOk(s.procs[p], p)
        && ForkOk(s, p) && ForkOk(s, q)
    ensures ForkOk(Step(s, p, a), q)
  {
    hide Step, StateOk;
    OneEffect(s, p, a);
    OneInit(s, p, a);
  }

  lemma OneInit(s: State, p: nat, a: Act)
    requires p < |s.procs| && OneSlot(a) && Enabled(s, p, a) && StateOk(s.procs[p], p)
    requires p == s.ini ==> Alive(s.procs[p]) && !IsExit(s.procs[p].pc)
    ensures p == s.ini ==> var x' := Step(s, p, a).procs[p]; Alive(x') && !IsExit(x'.pc)
  {
  }

  lemma OneExit(s: State, p: nat, a: Act, q: nat)
    requires p < |s.procs| && q < |s.procs| && s.ini < |s.procs| && OneSlot(a) && Enabled(s, p, a)
        && StateOk(s.procs[p], p) && ExitOk(s, p) && ExitOk(s, q)
    ensures ExitOk(Step(s, p, a), q)
  {
    OneEffect(s, p, a);
    if q != p {
      hide Step, Enabled, StateOk;
      assert Step(s, p, a).procs[q] == s.procs[q];
    }
  }

  lemma OneChild(s: State, p: nat, a: Act, q: nat, c: nat)
    requires p < |s.procs| && q < |s.procs| && c < |s.procs| && OneSlot(a) && Enabled(s, p, a)
        && StateOk(s.procs[p], p) && ExitOk(s, p) && LockOk(s, p) && LockOk(s, q)
    requires ChildOk(s, q, c)
    ensures ChildOk(Step(s, p, a), q, c)
  {
    OneEffect(s, p, a);
    if q != p {
      hide StateOk, Near;
      assert Step(s, p, a).procs[q] == s.procs[q];
    }
  }

  // ------------------------------------------------ a fork begins, or gives up

  lemma BeginEffect(s: State, p: nat, np: nat)
    requires p < |s.procs| && Enabled(s, p, StartFork(np))
    ensures var s' := Step(s, p, StartFork(np));
      && np < |s.procs| && np != p && s.procs[np].st == UNUSED && s.procs[np].plock == -1
      && s.procs[p].pc == User && s.procs[p].st == RUNNING
      && s'.wl == s.wl && s'.ini == s.ini && |s'.procs| == |s.procs|
      && s'.procs[p] == s.procs[p].(pc := FkGot(np))
      && s'.procs[np] == s.procs[np].(st := USED, plock := p, pid := s.nextpid, maker := p)
      && forall i :: 0 <= i < |s.procs| && i != p && i != np ==> s'.procs[i] == s.procs[i]
  {
  }

  lemma BeginExit(s: State, p: nat, np: nat, q: nat)
    requires p < |s.procs| && q < |s.procs| && s.ini < |s.procs| && Enabled(s, p, StartFork(np))
        && SlotOk(s, np) && ExitOk(s, q) && StateOk(s.procs[q], q)
    ensures ExitOk(Step(s, p, StartFork(np)), q)
  {
    hide Step, Enabled;
    BeginEffect(s, p, np);
  }

  lemma FailEffect(s: State, p: nat)
    requires p < |s.procs| && Enabled(s, p, ForkFails)
    ensures var s', np := Step(s, p, ForkFails), s.procs[p].pc.np;
      && np < |s.procs| && np != p && s.procs[p].pc == FkGot(np) && s.procs[p].st == RUNNING
      && s'.wl == s.wl && s'.ini == s.ini && |s'.procs| == |s.procs|
      && s'.procs[p] == s.procs[p].(pc := User)
      && s'.procs[np] == FREED
      && forall i :: 0 <= i < |s.procs| && i != p && i != np ==> s'.procs[i] == s.procs[i]
  {
  }

  lemma FailExit(s: State, p: nat, q: nat)
    requires p < |s.procs| && q < |s.procs| && s.ini < |s.procs| && Enabled(s, p, ForkFails) && SlotOk(s, p)
        && SlotOk(s, s.procs[p].pc.np) && ExitOk(s, q) && StateOk(s.procs[q], q)
    ensures ExitOk(Step(s, p, ForkFails), q)
  {
    hide Step, Enabled;
    FailEffect(s, p);
  }

  lemma BeginSlot(s: State, p: nat, np: nat, q: nat)
    requires p < |s.procs| && q < |s.procs| && s.ini < |s.procs| && Enabled(s, p, StartFork(np)) && SlotOk(s, p)
        && SlotOk(s, np) && SlotOk(s, q)
    ensures SlotOk(Step(s, p, StartFork(np)), q)
  {
    hide Step, Enabled, ExitOk;
    BeginEffect(s, p, np);
    BeginExit(s, p, np, q);
  }

  lemma BeginChild(s: State, p: nat, np: nat, q: nat, c: nat)
    requires p < |s.procs| && q < |s.procs| && c < |s.procs| && Enabled(s, p, StartFork(np)) && SlotOk(s, p)
        && SlotOk(s, np)
    requires ChildOk(s, q, c)
    ensures ChildOk(Step(s, p, StartFork(np)), q, c)
  {
  }

  lemma FailSlot(s: State, p: nat, q: nat)
    requires p < |s.procs| && q < |s.procs| && s.ini < |s.procs| && Enabled(s, p, ForkFails) && SlotOk(s, p)
        && SlotOk(s, s.procs[p].pc.np) && SlotOk(s, q)
    ensures SlotOk(Step(s, p, ForkFails), q)
  {
    hide Step, Enabled, ExitOk;
    FailEffect(s, p);
    FailExit(s, p, q);
  }

  lemma FailChild(s: State, p: nat, q: nat, c: nat)
    requires p < |s.procs| && q < |s.procs| && c < |s.procs| && Enabled(s, p, ForkFails) && SlotOk(s, p)
        && SlotOk(s, s.procs[p].pc.np)
    requires ChildOk(s, q, c)
    ensures ChildOk(Step(s, p, ForkFails), q, c)
  {
  }

  // ------------------------------------------------------------- any one step

  /** The facts of every slot and pair that a step of p may need. */
  lemma Known(s: State, p: nat, q: nat, c: nat)
    requires Slots(s) && p < |s.procs| && q < |s.procs| && c < |s.procs|
    ensures s.ini < |s.procs| && SlotOk(s, p) && SlotOk(s, q) && SlotOk(s, c) && SlotOk(s, s.ini)
        && ChildOk(s, q, c) && s.procs[p].parent != p
    ensures s.procs[p].parent >= 0 ==> s.procs[p].parent < |s.procs| && SlotOk(s, s.procs[p].parent)
    ensures Looked(s, p) >= 0 ==> SlotOk(s, Looked(s, p))
    ensures IsFork(s.procs[p].pc) ==> s.procs[p].pc.np < |s.procs| && SlotOk(s, s.procs[p].pc.np)
  {
    assert SlotOk(s, p) && ChildOk(s, p, p);
  }

  lemma StepSlot(s: State, p: nat, a: Act, q: nat)
    requires Slots(s) && p < |s.procs| && q < |s.procs| && Enabled(s, p, a)
    ensures |Step(s, p, a).procs| == |s.procs| && SlotOk(Step(s, p, a), q)
  {
    hide Slots, LockOk, StateOk, ForkOk, ExitOk, ChildOk, ForkGo, ExitGo, WaitGo;
    Known(s, p, q, q);
    if a.Go? {
      GoSlot(s, p, q);
    } else if a.StartFork? {
      Known(s, a.np, q, q);
      BeginSlot(s, p, a.np, q);
    } else if a.ForkFails? {
      FailSlot(s, p, q);
    } else {
      OneState(s, p, a);
      OneEffect(s, p, a);
      OneLock(s, p, a, q);
      OneFork(s, p, a, q);
      OneExit(s, p, a, q);
    }
  }

  lemma GoSlot(s: State, p: nat, q: nat)
    requires Slots(s) && p < |s.procs| && q < |s.procs| && Enabled(s, p, Go)
    ensures |Step(s, p, Go).procs| == |s.procs| && SlotOk(Step(s, p, Go), q)
  {
    hide Slots, LockOk, StateOk, ForkOk, ExitOk, ChildOk, ForkGo, ExitGo, WaitGo;
    Known(s, p, q, q);
    if IsFork(s.procs[p].pc) {
      ForkSelf(s, p);
      ForkLock(s, p, q);
      ForkState(s, p, q);
      ForkFork(s, p, q);
      ForkExit(s, p, q);
    } else if GoExitOk(s, p) {
      ExitSelf(s, p);
      Exiting(s, p);
      ExitLock(s, p, q);
      ExitState(s, p, q);
      if q == p { ExitForkSelf(s, p); } else { ExitFork(s, p, q); }
      ExitExit(s, p, q);
    } else {
      Waiting(s, p);
      WaitSelf(s, p);
      WaitLock(s, p, q);
      WaitState(s, p, q);
      WaitFork(s, p, q);
      WaitExit(s, p, q);
    }
  }

  lemma Exiting(s: State, p: nat)
    requires Exits(s, p) && SlotOk(s, p)
    ensures s.procs[p].parent >= 0
  {
  }

  lemma Waiting(s: State, p: nat)
    requires p < |s.procs| && Enabled(s, p, Go) && !IsFork(s.procs[p].pc) && !GoExitOk(s, p)
    ensures WaitsOn(s, p)
  {
  }

  lemma StepChild(s: State, p: nat, a: Act, q: nat, c: nat)
    requires Slots(s) && p < |s.procs| && q < |s.procs| && c < |s.procs| && Enabled(s, p, a)
    ensures |Step(s, p, a).procs| == |s.procs| && ChildOk(Step(s, p, a), q, c)
  {
    hide Slots, LockOk, StateOk, ForkOk, ExitOk, ChildOk, ForkGo, ExitGo, WaitGo;
    Known(s, p, q, c);
    StepSlot(s, p, a, q);
    if a.Go? {
      GoChild(s, p, q, c);
    } else if a.StartFork? {
      Known(s, a.np, q, c);
      BeginChild(s, p, a.np, q, c);
    } else if a.ForkFails? {
      FailChild(s, p, q, c);
    } else {
      OneChild(s, p, a, q, c);
    }
  }

  lemma GoChild(s: State, p: nat, q: nat, c: nat)
    requires Slots(s) && p < |s.procs| && q < |s.procs| && c < |s.procs| && Enabled(s, p, Go)
    ensures |Step(s, p, Go).procs| == |s.procs| && ChildOk(Step(s, p, Go), q, c)
  {
    hide Slots, LockOk, StateOk, ForkOk, ExitOk, ChildOk, ForkGo, ExitGo, WaitGo;
    Known(s, p, q, c);
    GoSlot(s, p, q);
    if IsFork(s.procs[p].pc) {
      ForkChild(s, p, q, c);
    } else if GoExitOk(s, p) {
      if q != p { ExitChild(s, p, q, c); } else if c != p { ExitOwnChild(s, p, c); } else { OwnParent(s, p); }
    } else {
      Waiting(s, p);
      if q != p { WaitChild(s, p, q, c); } else if c != p { WaitOwnChild(s, p, c); } else { OwnParent(s, p); }
    }
  }

  /** A step of exit or wait does not make a process its own parent. */
  lemma OwnParent(s: State, p: nat)
    requires p < |s.procs| && Enabled(s, p, Go) && !IsFork(s.procs[p].pc) && s.procs[p].parent != p && SlotOk(s, p)
    ensures |Step(s, p, Go).procs| == |s.procs| && ChildOk(Step(s, p, Go), p, p)
  {
    hide ExitGo, WaitGo;
    if GoExitOk(s, p) { ExitSelf(s, p); } else { WaitSelf(s, p); }
  }

  lemma StepSlots(s: State, p: nat, a: Act)
    requires Slots(s) && p < |s.procs| && Enabled(s, p, a)
    ensures Slots(Step(s, p, a))
  {
    hide SlotOk, ChildOk, Step, Enabled;
    var s' := Step(s, p, a);
    StepSlot(s, p, a, 0);
    forall q | 0 <= q < |s'.procs| ensures SlotOk(s', q) {
      StepSlot(s, p, a, q);
    }
    forall q, c | 0 <= q < |s'.procs| && 0 <= c < |s'.procs| ensures ChildOk(s', q, c) {
      StepChild(s, p, a, q, c);
    }
    StepGlobals(s, p, a);
  }

  lemma StepGlobals(s: State, p: nat, a: Act)
    requires s.ini < |s.procs| && -1 <= s.wl < |s.procs| && p < |s.procs| && Enabled(s, p, a)
    ensures Step(s, p, a).ini == s.ini && -1 <= Step(s, p, a).wl < |s.procs|
  {
  }

  // ---------------------------------------------------- what became of each exit

  ghost predicate Collected(s: State, pid: nat) {
    exists k :: 0 <= k < |s.got| && s.got[k].pid == pid
  }

  ghost predicate Lingers(s: State, pid: nat) {
    exists i :: 0 <= i < |s.procs| && s.procs[i].st == ZOMBIE && s.procs[i].pid == pid
  }

  ghost predicate PidOk(s: State, i: nat)
    requires i < |s.procs|
  {
    var x := s.procs[i];
    x.st != UNUSED ==>
      && x.pid < s.nextpid && !Collected(s, x.pid)
      && (x.pid in s.exits <==> x.st == ZOMBIE)
      && (x.st == ZOMBIE ==> s.exits[x.pid] == x.xstate)
  }

  ghost predicate PidsDiffer(s: State, i: nat, j: nat)
    requires i < |s.procs| && j < |s.procs|
  {
    i != j && s.procs[i].st != UNUSED && s.procs[j].st != UNUSED ==> s.procs[i].pid != s.procs[j].pid
  }

  /** Every collected exit happened, with that status, and was collected once. */
  ghost predicate GotOk(s: State) {
    && (forall k :: 0 <= k < |s.got| ==> s.got[k].pid in s.exits && s.exits[s.got[k].pid] == s.got[k].status)
    && (forall k, l :: 0 <= k < l < |s.got| ==> s.got[k].pid != s.got[l].pid)
    && (forall pid :: pid in s.exits ==> pid < s.nextpid && (Collected(s, pid) || Lingers(s, pid)))
  }

  ghost predicate Pids(s: State) {
    && (forall i :: 0 <= i < |s.procs| ==> PidOk(s, i))
    && (forall i, j :: 0 <= i < |s.procs| && 0 <= j < |s.procs| ==> PidsDiffer(s, i, j))
    && GotOk(s)
  }

  /** A slot that keeps its process, which does not exit. */
  predicate Keeps(x: Proc, x': Proc) {
    && (x.st == UNUSED <==> x'.st == UNUSED) && (x.st == ZOMBIE <==> x'.st == ZOMBIE)
    && (x.st != UNUSED ==> x'.pid == x.pid && x'.xstate == x.xstate)
  }

  predicate Quiet(s: State, p: nat, a: Act)
    requires p < |s.procs|
  {
    !a.StartFork? && !a.ForkFails? && !a.Die? && !(a.Go? && Reaps(s, p))
  }

  lemma QuietKeeps(s: State, p: nat, a: Act, q: nat)
    requires p < |s.procs| && q < |s.procs| && Enabled(s, p, a) && Quiet(s, p, a) && SlotOk(s, p)
        && s.procs[p].parent != p
    ensures var s' := Step(s, p, a); |s'.procs| == |s.procs| && Keeps(s.procs[q], s'.procs[q])
  {
    if a.Go? {
      GoKeeps(s, p, q);
    } else {
      hide LockOk, ExitOk, ForkOk;
    }
  }

  lemma GoKeeps(s: State, p: nat, q: nat)
    requires p < |s.procs| && q < |s.procs| && Enabled(s, p, Go) && !Reaps(s, p) && SlotOk(s, p)
        && s.procs[p].parent != p
    ensures var s' := Step(s, p, Go); |s'.procs| == |s.procs| && Keeps(s.procs[q], s'.procs[q])
  {
    hide LockOk, ExitOk, StateOk, ForkGo, ExitGo, WaitGo, ExitNext, WaitNext;
    if IsFork(s.procs[p].pc) {
      ForkSelf(s, p);
      if q != p && q != s.procs[p].pc.np { ForkOther(s, p, q); }
    } else if GoExitOk(s, p) {
      ExitSelf(s, p);
      if q != p { ExitOther(s, p, q); }
    } else {
      WaitSelf(s, p);
      if q != p { WaitOther(s, p, q); }
    }
  }

  lemma QuietRecords(s: State, p: nat, a: Act)
    requires p < |s.procs| && Enabled(s, p, a) && Quiet(s, p, a)
    ensures var s' := Step(s, p, a); s'.exits == s.exits && s'.got == s.got && s'.nextpid == s.nextpid
  {
  }

  lemma SamePids(s: State, s': State)
    requires Pids(s) && |s'.procs| == |s.procs| && s'.exits == s.exits && s'.got == s.got && s'.nextpid == s.nextpid
    requires forall q :: 0 <= q < |s.procs| ==> Keeps(s.procs[q], s'.procs[q])
    ensures Pids(s')
  {
    forall i | 0 <= i < |s'.procs| ensures PidOk(s', i) {
      assert PidOk(s, i) && Keeps(s.procs[i], s'.procs[i]);
    }
    forall i, j | 0 <= i < |s'.procs| && 0 <= j < |s'.procs| ensures PidsDiffer(s', i, j) {
      assert PidsDiffer(s, i, j);
    }
    forall pid | pid in s.exits ensures Collected(s', pid) || Lingers(s', pid) {
      if Lingers(s, pid) {
        var i :| 0 <= i < |s.procs| && s.procs[i].st == ZOMBIE && s.procs[i].pid == pid;
        assert s'.procs[i].st == ZOMBIE && s'.procs[i].pid == pid;
      }
    }
  }

  /** Slot i changes, the others do not. */
  ghost predicate OthersKeep(s: State, s': State, i: nat) {
    && |s'.procs| == |s.procs| && i < |s.procs|
    && forall q :: 0 <= q < |s.procs| && q != i ==> Keeps(s.procs[q], s'.procs[q])
  }

  lemma BeginPids(s: State, s': State, np: nat)
    requires Pids(s) && OthersKeep(s, s', np) && s.procs[np].st == UNUSED && s'.procs[np].st == USED
        && s'.procs[np].pid == s.nextpid
    requires s'.nextpid == s.nextpid + 1 && s'.exits == s.exits && s'.got == s.got
    ensures Pids(s')
  {
    forall i | 0 <= i < |s'.procs| ensures PidOk(s', i) {
      assert PidOk(s, i);
      if i != np { assert Keeps(s.procs[i], s'.procs[i]); }
    }
    forall i, j | 0 <= i < |s'.procs| && 0 <= j < |s'.procs| ensures PidsDiffer(s', i, j) {
      assert PidsDiffer(s, i, j) && PidOk(s, i) && PidOk(s, j);
    }
    forall pid | pid in s.exits ensures Collected(s', pid) || Lingers(s', pid) {
      if !Collected(s, pid) { LingersOn(s, s', np, pid); }
    }
  }

  /** A zombie in another slot still lingers. */
  lemma LingersOn(s: State, s': State, i: nat, pid: nat)
    requires OthersKeep(s, s', i) && (s.procs[i].st != ZOMBIE || s.procs[i].pid != pid) && Lingers(s, pid)
    ensures Lingers(s', pid)
  {
    var k :| 0 <= k < |s.procs| && s.procs[k].st == ZOMBIE && s.procs[k].pid == pid;
    assert Keeps(s.procs[k], s'.procs[k]);
  }

  lemma FailPids(s: State, s': State, np: nat)
    requires Pids(s) && OthersKeep(s, s', np) && s.procs[np].st != ZOMBIE && s'.procs[np].st == UNUSED
    requires s'.nextpid == s.nextpid && s'.exits == s.exits && s'.got == s.got
    ensures Pids(s')
  {
    forall i | 0 <= i < |s'.procs| ensures PidOk(s', i) {
      assert PidOk(s, i);
      if i != np { assert Keeps(s.procs[i], s'.procs[i]); }
    }
    forall i, j | 0 <= i < |s'.procs| && 0 <= j < |s'.procs| ensures PidsDiffer(s', i, j) {
      assert PidsDiffer(s, i, j);
    }
    forall pid | pid in s.exits ensures Collected(s', pid) || Lingers(s', pid) {
      if !Collected(s, pid) { LingersOn(s, s', np, pid); }
    }
  }

  lemma DiePids(s: State, s': State, p: nat, status: int)
    requires Pids(s) && OthersKeep(s, s', p) && s.procs[p].st == RUNNING && s'.procs[p].st == ZOMBIE
    requires s'.procs[p].pid == s.procs[p].pid && s'.procs[p].xstate == status
    requires s'.nextpid == s.nextpid && s'.exits == s.exits[s.procs[p].pid := status] && s'.got == s.got
    ensures Pids(s')
  {
    var mine := s.procs[p].pid;
    assert PidOk(s, p);
    forall i | 0 <= i < |s'.procs| ensures PidOk(s', i) {
      assert PidOk(s, i) && PidsDiffer(s, i, p);
      if i != p { assert Keeps(s.procs[i], s'.procs[i]); }
    }
    forall i, j | 0 <= i < |s'.procs| && 0 <= j < |s'.procs| ensures PidsDiffer(s', i, j) {
      assert PidsDiffer(s, i, j);
    }
    forall pid | pid in s'.exits ensures Collected(s', pid) || Lingers(s', pid) {
      if pid == mine {
        assert s'.procs[p].st == ZOMBIE && s'.procs[p].pid == pid;
      } else if !Collected(s, pid) {
        LingersOn(s, s', p, pid);
      }
    }
  }

  lemma ReapPids(s: State, s': State, i: nat)
    requires Pids(s) && OthersKeep(s, s', i) && s.procs[i].st == ZOMBIE && s'.procs[i].st == UNUSED
    requires s'.nextpid == s.nextpid && s'.exits == s.exits
        && s'.got == s.got + [Reaped(s.procs[i].pid, s.procs[i].xstate)]
    ensures Pids(s')
  {
    var mine, n := s.procs[i].pid, |s.got|;
    assert PidOk(s, i);
    forall pid ensures Collected(s', pid) <==> Collected(s, pid) || pid == mine {
      if Collected(s, pid) {
        var k :| 0 <= k < |s.got| && s.got[k].pid == pid;
        assert s'.got[k].pid == pid;
      }
      assert s'.got[n].pid == mine;
    }
    forall j | 0 <= j < |s'.procs| ensures PidOk(s', j) {
      assert PidOk(s, j) && PidsDiffer(s, i, j);
      if j != i { assert Keeps(s.procs[j], s'.procs[j]); }
    }
    forall j, k | 0 <= j < |s'.procs| && 0 <= k < |s'.procs| ensures PidsDiffer(s', j, k) {
      assert PidsDiffer(s, j, k);
    }
    forall pid | pid in s.exits ensures Collected(s', pid) || Lingers(s', pid) {
      if !Collected(s, pid) && pid != mine { LingersOn(s, s', i, pid); }
    }
  }

  lemma StepPids(s: State, p: nat, a: Act)
    requires Slots(s) && Pids(s) && p < |s.procs| && Enabled(s, p, a)
    ensures Pids(Step(s, p, a))
  {
    hide Pids, Slots, LockOk, StateOk, ForkOk, ExitOk, ForkGo, ExitGo, WaitGo;
    Known(s, p, p, p);
    var s' := Step(s, p, a);
    if Quiet(s, p, a) {
      hide Enabled;
      forall q | 0 <= q < |s.procs| ensures |s'.procs| == |s.procs| && Keeps(s.procs[q], s'.procs[q]) {
        QuietKeeps(s, p, a, q);
      }
      QuietKeeps(s, p, a, p);
      QuietRecords(s, p, a);
      SamePids(s, s');
    } else if a.StartFork? {
      BeginPids(s, s', a.np);
    } else if a.ForkFails? {
      FailMade(s, p);
      FailPids(s, s', s.procs[p].pc.np);
    } else if a.Die? {
      DiePids(s, s', p, a.status);
    } else {
      ReapEffect(s, p);
      ReapPids(s, s', Looked(s, p));
    }
  }

  lemma FailMade(s: State, p: nat)
    requires p < |s.procs| && Enabled(s, p, ForkFails) && SlotOk(s, p)
    ensures s.procs[s.procs[p].pc.np].st == USED
  {
  }

  lemma ReapEffect(s: State, p: nat)
    requires p < |s.procs| && Enabled(s, p, Go) && Reaps(s, p) && s.procs[p].parent != p
    ensures var s', i := Step(s, p, Go), Looked(s, p);
      && OthersKeep(s, s', i) && s'.procs[i].st == UNUSED && s'.nextpid == s.nextpid && s'.exits == s.exits
      && s'.got == s.got + [Reaped(s.procs[i].pid, s.procs[i].xstate)]
  {
  }

  // ---------------------------------------------------------------- whole runs

  datatype Move = Move(p: nat, a: Act)

  ghost predicate Moves(s: State, m: Move, s': State) {
    m.p < |s.procs| && Enabled(s, m.p, m.a) && s' == Step(s, m.p, m.a)
  }

  ghost predicate Run(ss: seq<State>, ms: seq<Move>) {
    |ss| == |ms| + 1 && forall i :: 0 <= i < |ms| ==> Moves(ss[i], ms[i], ss[i + 1])
  }

  /** After userinit: the first process, and otherwise an empty table. */
  predicate Initial(s: State) {
    && s.ini < |s.procs| && s.wl == -1 && s.nextpid == 2 && s.exits == map[] && s.got == []
    && s.procs[s.ini] == Proc(User, RUNNABLE, -1, -1, -1, false, 1, 0, -1)
    && forall i :: 0 <= i < |s.procs| && i != s.ini ==> s.procs[i] == FREED
  }

  lemma {:induction false} RunKeeps(ss: seq<State>, ms: seq<Move>, k: nat)
    requires Run(ss, ms) && Initial(ss[0]) && k < |ss|
    ensures Slots(ss[k]) && Pids(ss[k])
  {
    if k > 0 {
      hide Slots, Pids, Step, Enabled, Initial;
      RunKeeps(ss, ms, k - 1);
      assert Moves(ss[k - 1], ms[k - 1], ss[k - 1 + 1]);
      StepSlots(ss[k - 1], ms[k - 1].p, ms[k - 1].a);
      StepPids(ss[k - 1], ms[k - 1].p, ms[k - 1].a);
    }
  }

  /** In every run, each process past fork except init has a parent, and every parent is alive. */
  lemma ParentAlive(ss: seq<State>, ms: seq<Move>, k: nat, i: nat)
    requires Run(ss, ms) && Initial(ss[0]) && k < |ss| && i < |ss[k].procs|
    ensures ss[k].procs[i].st != UNUSED && ss[k].procs[i].st != USED && i != ss[k].ini ==> ss[k].procs[i].parent >= 0
    ensures ss[k].procs[i].parent >= 0 ==>
              ss[k].procs[i].parent < |ss[k].procs| && Alive(ss[k].procs[ss[k].procs[i].parent])
  {
    RunKeeps(ss, ms, k);
    assert SlotOk(ss[k], i);
    var q := ss[k].procs[i].parent;
    if q >= 0 { assert ChildOk(ss[k], q, i); }
  }

  /** In every run, with wait_lock free no process is asleep in wait while it has a child that exited. */
  lemma NoZombieMissed(ss: seq<State>, ms: seq<Move>, k: nat, p: nat, c: nat)
    requires Run(ss, ms) && Initial(ss[0]) && k < |ss| && p < |ss[k].procs| && c < |ss[k].procs|
    requires ss[k].wl == -1 && ss[k].procs[p].st == SLEEPING && ss[k].procs[p].pc == WtAsleep
        && ss[k].procs[c].parent == p
    ensures ss[k].procs[c].st != ZOMBIE
  {
    RunKeeps(ss, ms, k);
    assert SlotOk(ss[k], p) && ChildOk(ss[k], p, c);
  }

  /** In every run, each exit is collected at most once, with its own status, and until then its zombie remains. */
  lemma CollectedOnce(ss: seq<State>, ms: seq<Move>, k: nat)
    requires Run(ss, ms) && Initial(ss[0]) && k < |ss|
    ensures forall i, j :: 0 <= i < j < |ss[k].got| ==> ss[k].got[i].pid != ss[k].got[j].pid
    ensures forall i :: 0 <= i < |ss[k].got| ==>
              ss[k].got[i].pid in ss[k].exits && ss[k].exits[ss[k].got[i].pid] == ss[k].got[i].status
    ensures forall pid :: pid in ss[k].exits ==> (Collected(ss[k], pid) <==> !Lingers(ss[k], pid))
  {
    RunKeeps(ss, ms, k);
    forall pid | pid in ss[k].exits && Lingers(ss[k], pid) ensures !Collected(ss[k], pid) {
      var i :| 0 <= i < |ss[k].procs| && ss[k].procs[i].st == ZOMBIE && ss[k].procs[i].pid == pid;
      assert PidOk(ss[k], i);
    }
  }

  /**
   wait frees a child only when it has left its own stack for good, and finds no children only when there are
   none.
   */
  lemma WaitFinds(ss: seq<State>, ms: seq<Move>, k: nat, p: nat)
    requires Run(ss, ms) && Initial(ss[0]) && k < |ss| && p < |ss[k].procs| && WaitsOn(ss[k], p)
    ensures Reaps(ss[k], p) ==> ss[k].procs[Looked(ss[k], p)].pc == Dead
    ensures ss[k].procs[p].pc == WtScan(|ss[k].procs|, false) ==> forall c :: 0 <= c < |ss[k].procs| ==>
              ss[k].procs[c].parent != p
  {
    RunKeeps(ss, ms, k);
    if Reaps(ss[k], p) {
      assert SlotOk(ss[k], Looked(ss[k], p));
    }
    forall c | 0 <= c < |ss[k].procs|
      ensures ss[k].procs[p].pc == WtScan(|ss[k].procs|, false) ==> ss[k].procs[c].parent != p
    {
      assert ChildOk(ss[k], p, c);
    }
  }
}
