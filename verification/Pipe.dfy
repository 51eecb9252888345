/**
 * Pipes (kernel/pipe.c): the ring buffer with its wrapping 32-bit counters, and any
 * number of readers and writers that take turns under the pipe's lock.
 */
module PipeSpec {

  const SIZE: nat := 512          // PIPESIZE
  const WRAP: nat := 0x1_0000_0000 // the counters are unsigned 32-bit

  type Byte = bv8

  /** What a pipe means: every byte ever stored, and how many of them were taken out. */
  datatype Fifo = Fifo(stored: seq<Byte>, consumed: nat, readopen: bool, writeopen: bool)

  predicate Fits(f: Fifo) {
    f.consumed <= |f.stored| <= f.consumed + SIZE
  }

  predicate Full(f: Fifo) {
    |f.stored| == f.consumed + SIZE
  }

  predicate Empty(f: Fifo) {
    |f.stored| == f.consumed
  }

  /** How a turn under the lock ends: with an error, asleep, or with the call's result. */
  datatype End = Failed | Slept | Done

  /** A writer that has stored src[..i] goes on until j. */
  ghost predicate WriteTurn(f: Fifo, src: seq<Byte>, i: nat, f': Fifo, j: nat, end: End) {
    && i <= j <= |src| && Fits(f')
    && f' == f.(stored := f.stored + src[i..j])
    && (end == Slept ==> j < |src| && Full(f') && f.readopen)
    && (end == Failed ==> j < |src|)
    && (!f.readopen ==> j == i && (i < |src| ==> end == Failed))
  }

  /** A reader asks for n bytes and takes k; `counted` of them are reported as read. */
  ghost predicate ReadTurn(f: Fifo, n: nat, f': Fifo, k: nat, counted: nat, end: End) {
    && Fits(f') && f' == f.(consumed := f.consumed + k)
    && counted <= k <= n && k <= counted + 1
    && (end == Slept ==> k == 0 && Empty(f) && f.writeopen)
    && (end == Failed ==> k == 0 && Empty(f) && f.writeopen)
    && (end == Done && Empty(f) ==> !f.writeopen)
    && (end == Done && k == counted < n ==> Empty(f'))
  }

  // -------------------------------------------------------------------- threads

  datatype Thread = Idle | Writer(src: seq<Byte>, i: nat, asleep: bool) | Reader(n: nat, asleep: bool)

  /** who[k] is the thread that stored byte k; put[t] is what thread t has stored so far, in order. */
  datatype Sys = Sys(f: Fifo, ts: seq<Thread>, who: seq<nat>, put: seq<seq<Byte>>)

  datatype Act =
    | BeginWrite(src: seq<Byte>)
    | BeginRead(n: nat)
    | Write(j: nat, wend: End)
    | Read(k: nat, counted: nat, rend: End)
    | Close(writable: bool)
    | Kill

  function WakeReader(t: Thread): (t': Thread) {
    if t.Reader? then Reader(t.n, false) else t
  }

  function WakeWriter(t: Thread): (t': Thread) {
    if t.Writer? then Writer(t.src, t.i, false) else t
  }

  /** wakeup(&pi->nread) and wakeup(&pi->nwrite). */
  function WakeReaders(ts: seq<Thread>): (r: seq<Thread>) {
    seq(|ts|, i requires 0 <= i < |ts| => WakeReader(ts[i]))
  }

  function WakeWriters(ts: seq<Thread>): (r: seq<Thread>) {
    seq(|ts|, i requires 0 <= i < |ts| => WakeWriter(ts[i]))
  }

  ghost predicate Enabled(s: Sys, t: nat, a: Act) {
    t < |s.ts| == |s.put| &&
    match a
    case BeginWrite(_) => s.ts[t].Idle?
    case BeginRead(_) => s.ts[t].Idle?
    case Write(j, end) =>
      && s.ts[t].Writer? && !s.ts[t].asleep && s.ts[t].i <= j <= |s.ts[t].src|
      && WriteTurn(s.f, s.ts[t].src, s.ts[t].i, s.f.(stored := s.f.stored + s.ts[t].src[s.ts[t].i..j]), j, end)
    case Read(k, counted, end) =>
      && s.ts[t].Reader? && !s.ts[t].asleep
      && ReadTurn(s.f, s.ts[t].n, s.f.(consumed := s.f.consumed + k), k, counted, end)
    case Close(_) => true
    case Kill => true
  }

  ghost function Step(s: Sys, t: nat, a: Act): (s': Sys)
    requires Enabled(s, t, a)
  {
    var x := s.ts[t];
    match a
    case BeginWrite(src) => s.(ts := s.ts[t := Writer(src, 0, false)])
    case BeginRead(n) => s.(ts := s.ts[t := Reader(n, false)])
    case Write(j, end) =>
      var more := x.src[x.i..j];
      Sys(s.f.(stored := s.f.stored + more),
          match end {
            case Failed => s.ts[t := Idle]
            case Slept => WakeReaders(s.ts)[t := Writer(x.src, j, true)]
            case Done => WakeReaders(s.ts)[t := Idle]
          },
          s.who + seq(|more|, k => t), s.put[t := s.put[t] + more])
    case Read(k, _, end) =>
      s.(f := s.f.(consumed := s.f.consumed + k),
         ts := match end {
           case Failed => s.ts[t := Idle]
           case Slept => s.ts[t := Reader(x.n, true)]
           case Done => WakeWriters(s.ts)[t := Idle]
         })
    case Close(writable) =>
      if writable then s.(f := s.f.(writeopen := false), ts := WakeReaders(s.ts))
      else s.(f := s.f.(readopen := false), ts := WakeWriters(s.ts))
    case Kill => s.(ts := s.ts[t := WakeReader(WakeWriter(x))])
  }

  // ----------------------------------------------------------------- invariants

  /** The bytes of `stored` that thread t put there. */
  function Share(stored: seq<Byte>, who: seq<nat>, t: nat): (r: seq<Byte>)
    requires |who| == |stored|
  {
    if stored == [] then []
    else Share(stored[..|stored| - 1], who[..|who| - 1], t)
         + (if who[|who| - 1] == t then [stored[|stored| - 1]] else [])
  }

  lemma {:induction false} ShareAppend(stored: seq<Byte>, who: seq<nat>, more: seq<Byte>, t: nat, u: nat)
    requires |who| == |stored|
    ensures Share(stored + more, who + seq(|more|, k => t), u) == Share(stored, who, u) + (if u == t then more else [])
  {
    if more == [] {
      assert stored + more == stored && who + seq(|more|, k => t) == who;
    } else {
      var init := more[..|more| - 1];
      ShareAppend(stored, who, init, t, u);
      assert (stored + more)[..|stored + more| - 1] == stored + init;
      assert (who + seq(|more|, k => t))[..|stored + more| - 1] == who + seq(|init|, k => t);
      assert more == init + [more[|more| - 1]];
    }
  }

  ghost predicate Inv(s: Sys) {
    && Fits(s.f) && |s.who| == |s.f.stored| && |s.put| == |s.ts|
    && (forall t :: 0 <= t < |s.ts| ==> s.put[t] == Share(s.f.stored, s.who, t))
    && (forall t :: 0 <= t < |s.ts| && s.ts[t].Writer? ==> WriterOk(s, t))
  }

  ghost predicate WriterOk(s: Sys, t: nat)
    requires t < |s.ts| == |s.put| && s.ts[t].Writer?
  {
    var x := s.ts[t];
    && x.i <= |x.src| && |s.put[t]| >= x.i && s.put[t][|s.put[t]| - x.i..] == x.src[..x.i]
    && (x.asleep ==> Full(s.f) && s.f.readopen)
  }

  /** A reader asleep finds nothing to read. */
  ghost predicate ReadersOk(s: Sys) {
    forall t :: 0 <= t < |s.ts| && s.ts[t].Reader? && s.ts[t].asleep ==> Empty(s.f) && s.f.writeopen
  }

  lemma StepKeeps(s: Sys, t: nat, a: Act)
    requires Inv(s) && Enabled(s, t, a)
    ensures Inv(Step(s, t, a))
  {
    hide Share, WriterOk;
    var s' := Step(s, t, a);
    forall u | 0 <= u < |s.ts| ensures s'.put[u] == Share(s'.f.stored, s'.who, u) {
      if a.Write? { ShareAppend(s.f.stored, s.who, s.ts[t].src[s.ts[t].i..a.j], t, u); }
    }
    forall u | 0 <= u < |s'.ts| && s'.ts[u].Writer? ensures WriterOk(s', u) {
      WriterKept(s, t, a, u);
    }
  }

  lemma WriterKept(s: Sys, t: nat, a: Act, u: nat)
    requires Inv(s) && Enabled(s, t, a) && u < |s.ts| && |Step(s, t, a).ts| == |s.ts| && Step(s, t, a).ts[u].Writer?
    ensures WriterOk(Step(s, t, a), u)
  {
    hide Share;
    if s.ts[u].Writer? { assert WriterOk(s, u); }
  }

  /** A writer that is killed after storing bytes leaves without waking a reader that is asleep. */
  ghost predicate Strands(s: Sys, t: nat, a: Act)
    requires Enabled(s, t, a)
  {
    && a.Write? && a.wend == Failed && a.j > s.ts[t].i
    && exists r :: 0 <= r < |s.ts| && r != t && s.ts[r].Reader? && s.ts[r].asleep
  }

  /** The promise to readers survives a step exactly when the step is not such an exit. */
  lemma ReadersKeptIff(s: Sys, t: nat, a: Act)
    requires Inv(s) && ReadersOk(s) && Enabled(s, t, a)
    ensures ReadersOk(Step(s, t, a)) <==> !Strands(s, t, a)
  {
    hide Share;
    var s' := Step(s, t, a);
    if Strands(s, t, a) {
      var r :| 0 <= r < |s.ts| && r != t && s.ts[r].Reader? && s.ts[r].asleep;
      assert s'.ts[r] == s.ts[r];
      assert !Empty(s'.f);
    } else {
      forall r | 0 <= r < |s'.ts| && s'.ts[r].Reader? && s'.ts[r].asleep ensures Empty(s'.f) && s'.f.writeopen {
        if r != t { assert s.ts[r].Reader? && s.ts[r].asleep; }
      }
    }
  }

  /** Closing an end wakes those asleep on the other side, and kill whomever it is meant for. */
  lemma CloseAndKill(s: Sys, t: nat, a: Act)
    requires Enabled(s, t, a) && (a.Close? || a.Kill?)
    ensures var s' := Step(s, t, a);
            && |s'.ts| == |s.ts| && s'.f.stored == s.f.stored && s'.f.consumed == s.f.consumed
            && s'.f.writeopen == (s.f.writeopen && a != Close(true))
            && s'.f.readopen == (s.f.readopen && a != Close(false))
            && (a == Close(true) ==> forall u :: 0 <= u < |s'.ts| && s'.ts[u].Reader? ==> !s'.ts[u].asleep)
            && (a == Close(false) ==> forall u :: 0 <= u < |s'.ts| && s'.ts[u].Writer? ==> !s'.ts[u].asleep)
            && (a == Kill && !s'.ts[t].Idle? ==> !s'.ts[t].asleep)
  {
  }

  // ---------------------------------------------------------------- whole runs

  datatype Move = Move(t: nat, a: Act)

  ghost predicate Moves(s: Sys, m: Move, s': Sys) {
    Enabled(s, m.t, m.a) && s' == Step(s, m.t, m.a)
  }

  ghost predicate Run(ss: seq<Sys>, ms: seq<Move>) {
    |ss| == |ms| + 1 && forall i :: 0 <= i < |ms| ==> Moves(ss[i], ms[i], ss[i + 1])
  }

  /** After pipealloc, before any call. */
  ghost predicate Initial(s: Sys) {
    && s.f == Fifo([], 0, true, true) && s.who == [] && |s.put| == |s.ts|
    && forall t :: 0 <= t < |s.ts| ==> s.ts[t] == Idle && s.put[t] == []
  }

  lemma {:induction false} RunKeeps(ss: seq<Sys>, ms: seq<Move>, k: nat)
    requires Run(ss, ms) && Initial(ss[0]) && k < |ss|
    ensures Inv(ss[k])
  {
    if k > 0 {
      hide Inv, Step, Enabled, Initial;
      RunKeeps(ss, ms, k - 1);
      assert Moves(ss[k - 1], ms[k - 1], ss[k - 1 + 1]);
      StepKeeps(ss[k - 1], ms[k - 1].t, ms[k - 1].a);
    }
  }

  /** In every run a writer sleeps only while the pipe is full and the read end open. */
  lemma WritersSleepWhenFull(ss: seq<Sys>, ms: seq<Move>, k: nat, t: nat)
    requires Run(ss, ms) && Initial(ss[0]) && k < |ss| && t < |ss[k].ts| && ss[k].ts[t].Writer? && ss[k].ts[t].asleep
    ensures Full(ss[k].f) && ss[k].f.readopen
  {
    RunKeeps(ss, ms, k);
    assert WriterOk(ss[k], t);
  }

  /** In every run without a stranding exit a reader sleeps only while the pipe is empty and the write end open. */
  lemma {:induction false} ReadersSleepWhenEmpty(ss: seq<Sys>, ms: seq<Move>, k: nat)
    requires Run(ss, ms) && Initial(ss[0]) && k < |ss|
    requires forall i :: 0 <= i < k ==> Moves(ss[i], ms[i], ss[i + 1]) && !Strands(ss[i], ms[i].t, ms[i].a)
    ensures ReadersOk(ss[k])
  {
    if k > 0 {
      hide Inv, Step, Enabled, Initial, ReadersOk, Strands;
      RunKeeps(ss, ms, k - 1);
      ReadersSleepWhenEmpty(ss, ms, k - 1);
      assert Moves(ss[k - 1], ms[k - 1], ss[k - 1 + 1]) && !Strands(ss[k - 1], ms[k - 1].t, ms[k - 1].a);
      ReadersKeptIff(ss[k - 1], ms[k - 1].t, ms[k - 1].a);
    }
  }

  /**
   In every run the ring never holds more than its size, bytes are taken out in the order they were stored, and
   each writer's bytes stay in its order.
   */
  lemma FirstInFirstOut(ss: seq<Sys>, ms: seq<Move>, k: nat, l: nat, t: nat)
    requires Run(ss, ms) && Initial(ss[0]) && k <= l < |ss| && t < |ss[k].ts|
    ensures Fits(ss[k].f) && Fits(ss[l].f) && ss[k].f.consumed <= ss[l].f.consumed && ss[k].f.stored <= ss[l].f.stored
    ensures ss[k].f.stored[..ss[k].f.consumed] <= ss[l].f.stored[..ss[l].f.consumed]
    ensures |ss[k].who| == |ss[k].f.stored| && |ss[k].put| == |ss[k].ts|
        && Share(ss[k].f.stored, ss[k].who, t) == ss[k].put[t]
  {
    RunKeeps(ss, ms, k);
    RunKeeps(ss, ms, l);
    OnlyGrows(ss, ms, k, l);
  }

  lemma {:induction false} OnlyGrows(ss: seq<Sys>, ms: seq<Move>, k: nat, l: nat)
    requires Run(ss, ms) && k <= l < |ss|
    ensures ss[k].f.consumed <= ss[l].f.consumed && ss[k].f.stored <= ss[l].f.stored
    decreases l - k
  {
    if k < l {
      OnlyGrows(ss, ms, k, l - 1);
      assert Moves(ss[l - 1], ms[l - 1], ss[l - 1 + 1]);
    }
  }

  // The run of KilledWriterStrandsReader, state by state.
  const EMPTIED := Fifo([], 0, true, true)
  const ONE_BYTE := Fifo([7], 0, true, true)
  const AT_START := Sys(EMPTIED, [Idle, Idle], [], [[], []])
  const READER_COMES := Sys(EMPTIED, [Reader(1, false), Idle], [], [[], []])
  const READER_SLEEPS := Sys(EMPTIED, [Reader(1, true), Idle], [], [[], []])
  const WRITER_COMES := Sys(EMPTIED, [Reader(1, true), Writer([7, 8], 0, false)], [], [[], []])
  const WRITER_KILLED := Sys(ONE_BYTE, [Reader(1, true), Idle], [1], [[], [7]])

  lemma ReaderComes()
    ensures Moves(AT_START, Move(0, BeginRead(1)), READER_COMES)
  {
    assert AT_START.ts[0 := Reader(1, false)] == READER_COMES.ts;
  }

  lemma SleepsOnEmpty(s: Sys, t: nat)
    requires t < |s.ts| == |s.put| && s.ts[t].Reader? && !s.ts[t].asleep && Empty(s.f) && s.f.writeopen
    ensures Moves(s, Move(t, Read(0, 0, Slept)), s.(ts := s.ts[t := Reader(s.ts[t].n, true)]))
  {
    assert s.f.(consumed := s.f.consumed + 0) == s.f;
  }

  lemma ReaderFindsNothing()
    ensures Moves(READER_COMES, Move(0, Read(0, 0, Slept)), READER_SLEEPS)
  {
    hide Moves;
    SleepsOnEmpty(READER_COMES, 0);
    assert READER_COMES.ts[0 := Reader(1, true)] == READER_SLEEPS.ts;
  }

  lemma WriterComes()
    ensures Moves(READER_SLEEPS, Move(1, BeginWrite([7, 8])), WRITER_COMES)
  {
    assert READER_SLEEPS.ts[1 := Writer([7, 8], 0, false)] == WRITER_COMES.ts;
  }

  lemma WriterLeaves()
    ensures Moves(WRITER_COMES, Move(1, Write(1, Failed)), WRITER_KILLED)
  {
    var s := WRITER_COMES;
    assert s.ts[1] == Writer([7, 8], 0, false);
    assert [7, 8][0..1] == [7 as Byte];
    assert s.f.stored + [7] == ONE_BYTE.stored;
    assert Enabled(s, 1, Write(1, Failed));
    assert s.ts[1 := Idle] == WRITER_KILLED.ts;
    assert s.who + seq(1, k => 1 as nat) == WRITER_KILLED.who;
    assert s.put[1 := s.put[1] + [7]] == WRITER_KILLED.put;
  }

  /**
   A reader can be left asleep beside unread bytes: it sleeps on the empty pipe, then a writer stores a byte,
   finds itself killed and returns.
   */
  lemma KilledWriterStrandsReader() returns (ss: seq<Sys>, ms: seq<Move>)
    ensures Run(ss, ms) && Initial(ss[0])
    ensures var last := ss[|ss| - 1];
            && |last.ts| == 2 && last.ts[0] == Reader(1, true)
            && !Empty(last.f) && last.f.readopen && last.f.writeopen
  {
    hide Moves;
    ReaderComes();
    ReaderFindsNothing();
    WriterComes();
    WriterLeaves();
    ss := [AT_START, READER_COMES, READER_SLEEPS, WRITER_COMES, WRITER_KILLED];
    ms := [Move(0, BeginRead(1)), Move(0, Read(0, 0, Slept)), Move(1, BeginWrite([7, 8])), Move(1, Write(1, Failed))];
  }
}

module Pipe {
  import opened PipeSpec
  import opened Rings

  /** The counters meet exactly when the pipe is empty, and are a ring apart exactly when it is full. */
  lemma CountersMean(c: nat, n: nat)
    requires c <= n <= c + SIZE
    ensures c % WRAP == n % WRAP <==> n == c
    ensures n % WRAP == (c % WRAP + SIZE) % WRAP <==> n == c + SIZE
  {
  }

  lemma SliceMore(s: seq<Byte>, a: nat, b: nat)
    requires a <= b < |s|
    ensures s[a..b] + [s[b]] == s[a..b + 1]
  {
  }

  lemma StoredMore(s: seq<Byte>, more: seq<Byte>, ch: Byte)
    ensures s + more + [ch] == s + (more + [ch])
  {
  }

  /** The ring holds the bytes that are not consumed yet. */
  ghost predicate Holds(ring: seq<Byte>, stored: seq<Byte>, consumed: nat) {
    |ring| == SIZE && forall k :: consumed <= k < |stored| ==> ring[k % SIZE] == stored[k]
  }

  /** struct pipe, with the whole stream as a ghost. */
  class Buffer {
    const data: array<Byte>
    var nread: nat
    var nwrite: nat
    var readopen: bool
    var writeopen: bool
    ghost var stored: seq<Byte>
    ghost var consumed: nat

    ghost function Abs(): (f: Fifo)
      reads this
    {
      Fifo(stored, consumed, readopen, writeopen)
    }

    ghost predicate Valid()
      reads this, data
    {
      && data.Length == SIZE && Fits(Abs())
      && nread == consumed % WRAP && nwrite == |stored| % WRAP
      && Holds(data[..], stored, consumed)
    }

    constructor ()
      ensures Valid() && Abs() == Fifo([], 0, true, true) && fresh(data)
    {
      data := new Byte[SIZE];
      nread, nwrite, readopen, writeopen := 0, 0, true, true;
      stored, consumed := [], 0;
    }

    /** The byte goes to the slot of the write counter. */
    method Put(ch: Byte)
      requires Valid() && !Full(Abs())
      modifies this`nwrite, this`stored, data
      ensures Valid() && Abs() == old(Abs()).(stored := old(stored) + [ch])
    {
      WrapSlot(|stored|, SIZE, WRAP / SIZE);
      forall k | consumed <= k < |stored| ensures k % SIZE != |stored| % SIZE {
        SlotsDiffer(k, |stored|, SIZE);
      }
      data[nwrite % SIZE] := ch;
      NextCounter(|stored|);
      nwrite := (nwrite + 1) % WRAP;
      stored := stored + [ch];
    }

    method Get() returns (ch: Byte)
      requires Valid() && !Empty(Abs())
      modifies this`nread, this`consumed
      ensures Valid() && Abs() == old(Abs()).(consumed := old(consumed) + 1) && ch == stored[old(consumed)]
    {
      WrapSlot(consumed, SIZE, WRAP / SIZE);
      ch := data[nread % SIZE];
      NextCounter(consumed);
      nread := (nread + 1) % WRAP;
      consumed := consumed + 1;
    }

    /** pipeclose: one end is closed; the pipe is to be freed when both are. */
    method Close(writable: bool) returns (gone: bool)
      requires Valid()
      modifies this`readopen, this`writeopen
      ensures Valid()
      ensures writeopen == (old(writeopen) && !writable) && readopen == (old(readopen) && writable)
      ensures gone <==> !writeopen && !readopen
    {
      if writable {
        writeopen := false;
      } else {
        readopen := false;
      }
      gone := !readopen && !writeopen;
    }

    /**
     One turn of pipewrite under the lock, from src[start] on; killed and copied say what killed() and copyin()
     answer for byte i.
     */
    method WriteBytes(src: seq<Byte>, start: nat, killed: nat -> bool, copied: nat -> bool) returns (i: nat, end: End)
      requires Valid() && start <= |src|
      modifies this`nwrite, this`stored, data
      ensures Valid() && WriteTurn(old(Abs()), src, start, Abs(), i, end)
      ensures start <= i <= |src| && stored == old(stored) + src[start..i] && |stored| <= consumed + SIZE
      ensures forall k :: start <= k < i ==> copied(k) && !killed(k)
      ensures end == Failed <==> i < |src| && (!readopen || killed(i))
      ensures end == Slept <==> i < |src| && readopen && !killed(i) && Full(Abs())
      ensures end == Done <==> i == |src| || (readopen && !killed(i) && !Full(Abs()) && !copied(i))
    {
      hide Holds;
      i := start;
      while i < |src|
        invariant start <= i <= |src| && Valid() && Abs() == old(Abs()).(stored := old(stored) + src[start..i])
        invariant !readopen ==> i == start
        invariant forall k :: start <= k < i ==> copied(k) && !killed(k)
      {
        if !readopen || killed(i) {
          return i, Failed;
        }
        CountersMean(consumed, |stored|);
        if nwrite == (nread + SIZE) % WRAP {
          return i, Slept;
        }
        if !copied(i) {
          return i, Done;
        }
        SliceMore(src, start, i);
        StoredMore(old(stored), src[start..i], src[i]);
        Put(src[i]);
        i := i + 1;
      }
      return i, Done;
    }

    /**
     One turn of piperead under the lock: the bytes handed to copyout, of which the last is lost if it cannot be
     copied.
     */
    method ReadBytes(n: nat, killed: bool, copied: nat -> bool) returns (bytes: seq<Byte>, counted: nat, end: End)
      requires Valid()
      modifies this`nread, this`consumed
      ensures Valid() && ReadTurn(old(Abs()), n, Abs(), |bytes|, counted, end)
      ensures bytes == stored[old(consumed)..consumed]
      ensures end == Failed <==> old(Empty(Abs())) && writeopen && killed
      ensures end == Slept <==> old(Empty(Abs())) && writeopen && !killed
      ensures forall i :: 0 <= i < counted ==> copied(i)
      ensures counted < |bytes| ==> !copied(counted)
      ensures consumed == old(consumed) + |bytes| <= |stored| && counted <= |bytes| <= counted + 1 && |bytes| <= n
      ensures end == Done && counted == |bytes| ==> counted == n || consumed == |stored|
    {
      hide Holds;
      bytes, counted := [], 0;
      CountersMean(consumed, |stored|);
      if nread == nwrite && writeopen {
        end := if killed then Failed else Slept;
        return;
      }
      end := Done;
      while counted < n
        invariant Valid() && counted == |bytes| <= n && stored == old(stored)
        invariant Abs() == old(Abs()).(consumed := old(consumed) + |bytes|) && bytes == stored[old(consumed)..consumed]
        invariant forall i :: 0 <= i < counted ==> copied(i)
      {
        CountersMean(consumed, |stored|);
        if nread == nwrite {
          return;
        }
        SliceMore(stored, old(consumed), consumed);
        var ch := Get();
        bytes := bytes + [ch];
        if !copied(counted) {
          return;
        }
        counted := counted + 1;
      }
    }
  }

  lemma NextCounter(k: nat)
    ensures (k % WRAP + 1) % WRAP == (k + 1) % WRAP
  {
  }
}
