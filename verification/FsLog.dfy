/**
 The file system on the log: the log_write calls of one filewrite operation, in any
 interleaving with other operations, stay within its reservation and never panic.
 */
module FsLog {
  import opened Collections
  import opened Params
  import opened LogDisk
  import opened LogMachine
  import opened LogRuns
  import FsCost
  import FsSpec

  /** The blocks that operation `op` passes to log_write in a run, in order. */
  function OpWrites(es: seq<Event>, op: nat): (bs: seq<nat>) {
    if es == [] then []
    else (if es[0].LogWrite? && es[0].op == op then [es[0].b] else []) + OpWrites(es[1..], op)
  }

  /** The run neither ends the operation nor crashes. */
  predicate Keeps(es: seq<Event>, op: nat) {
    forall i :: 0 <= i < |es| ==> !es[i].Crash? && es[i] != EndOp(op)
  }

  /** Blocks of `bs` that are not in the log yet. */
  ghost function NotLogged(bs: seq<nat>, lh: seq<nat>): (r: set<nat>) {
    set b | b in bs && b !in lh
  }

  /** One step while the operation is in progress. */
  lemma StepUses(g: Geometry, s: State, e: Event, op: nat)
    requires Inv(g, s) && op in s.ops && Enabled(g, s, e) && Step(g, s, e).Ok? && !e.Crash? && e != EndOp(op)
    ensures var m := Step(g, s, e).s;
            && op in m.ops && (forall b :: b in s.lh ==> b in m.lh)
            && if e.LogWrite? && e.op == op && e.b !in s.lh then m.ops[op] == s.ops[op] + 1 && e.b in m.lh
               else m.ops[op] == s.ops[op]
  {
    hide HeadOk, Recoverable, Installed, SlotsHold, CacheIs, Home;
    assert op in s.ops.Keys;
    assert s.pc.Idle?;
  }

  /** An operation has used at most as much of its reservation as it logged blocks that were not there. */
  lemma {:induction false} Used(g: Geometry, s: State, es: seq<Event>, s': State, op: nat)
    requires Inv(g, s) && Runs(g, s, es, s') && op in s.ops && Keeps(es, op)
    ensures op in s'.ops && s'.ops[op] <= s.ops[op] + |NotLogged(OpWrites(es, op), s.lh)|
    decreases |es|
  {
    hide Inv, Step, Enabled;
    if es != [] {
      var e := es[0];
      var m := Step(g, s, e).s;
      StepUses(g, s, e, op);
      StepRefines(g, s, e);
      Used(g, m, es[1..], s', op);
      var now, rest := NotLogged(OpWrites(es, op), s.lh), NotLogged(OpWrites(es[1..], op), m.lh);
      if e.LogWrite? && e.op == op && e.b !in s.lh {
        assert rest <= now - {e.b};
        SubsetSize(rest, now - {e.b});
      } else {
        assert rest <= now;
        SubsetSize(rest, now);
      }
    }
  }

  /**
   The calls of a filewrite operation never panic: whatever the other operations do in
   between, as long as they keep to their own reservations, log_write may be called with the
   next block, stays within the operation's reservation and does not panic. The log lies
   before the inodes and has room for LOGSIZE blocks beside its header.
   */
  lemma CallsNeverPanic(g: Geometry, sb: FsSpec.Super, s: State, es: seq<Event>, s': State, op: nat, calls: seq<nat>,
      data: Block)
    requires Inv(g, s) && Reserved(s) && op in s.ops && s.ops[op] == 0
    requires Runs(g, s, es, s') && BudgetRun(g, s, es, s') && Keeps(es, op)
    requires FsCost.OpOk(sb, calls) && OpWrites(es, op) < calls && |data| == WORDS
    requires g.start + g.size <= sb.inodestart && sb.size <= |s'.disk| && g.size - 1 >= LOGSIZE
    ensures var e := LogWrite(op, calls[|OpWrites(es, op)|], data);
            Enabled(g, s', e) && WithinBudget(s', e) && !Step(g, s', e).Panic?
  {
    hide Inv, Step, Unused;
    Used(g, s, es, s', op);
    GroupCommit(g, s, es, s');
    var ws := OpWrites(es, op);
    assert ws == calls[..|ws|];
    assert NotLogged(ws, s.lh) <= Elems(ws);
    SubsetSize(NotLogged(ws, s.lh), Elems(ws));
    assert calls[|ws|] in calls;
    NoPanic(g, s', LogWrite(op, calls[|ws|], data));
  }
}
