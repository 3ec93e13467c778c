/**
 Whole calls of the virtual machine, as functions on its state: frames, search,
 searchResolve and closeOut (src/lib/vm.cpp:376-434, 549-676). Between frames
 the active threads are the state's rest, and everything a frame collects is
 empty.
 */
module Searching {
  import opened Basics
  import opened Bytecode
  import opened Frames

  /** A thread that a frame may be asked to run. */
  ghost predicate Runs(prog: Program, plan: Plan, t: Thread)
    requires |plan| == |prog.code|
  {
    && t.pc < |prog.code|
    && (t.lbl == NOLABEL || t.lbl <= prog.maxLabel)
    && (prog.code[t.pc].Halt? || Fits(plan[t.pc].kind, t.lbl))
  }

  ghost predicate AllRun(prog: Program, plan: Plan, ts: seq<Thread>)
    requires |plan| == |prog.code|
  {
    forall i :: 0 <= i < |ts| ==> Runs(prog, plan, ts[i])
  }

  ghost predicate StateOk(prog: Program, plan: Plan, s: State)
    requires |plan| == |prog.code|
  {
    && |s.ends| == prog.maxLabel + 1
    && AllRun(prog, plan, s.rest)
    && AllRun(prog, plan, s.next)
  }

  lemma {:induction false} KillRuns(prog: Program, plan: Plan, ts: seq<Thread>, t: Thread)
    requires Sound(prog, plan)
    requires AllRun(prog, plan, ts)
    ensures |Kill(ts, t, |prog.code| - 2)| == |ts| && AllRun(prog, plan, Kill(ts, t, |prog.code| - 2))
    decreases |ts|
  {
    if ts != [] {
      KillRuns(prog, plan, ts[1..], t);
      var r := Kill(ts, t, |prog.code| - 2);
      if t.lead || ts[0].start == t.start {
        assert r[1..] == Kill(ts[1..], t, |prog.code| - 2);
        forall i | 0 <= i < |r| ensures Runs(prog, plan, r[i]) {
          if i > 0 {
            assert r[i] == r[1..][i - 1];
          }
        }
      }
    }
  }

  lemma PushOk(prog: Program, plan: Plan, s: State, t: Thread)
    requires Sound(prog, plan) && StateOk(prog, plan, s) && Runs(prog, plan, t)
    ensures StateOk(prog, plan, Push(s, t))
  {
  }

  lemma FinishOk(prog: Program, plan: Plan, s: State, t: Thread, offset: nat)
    requires Sound(prog, plan) && StateOk(prog, plan, s) && Runs(prog, plan, t) && t.lbl < |s.ends|
    ensures var r := FinishStep(prog, s, t, offset); StateOk(prog, plan, r) && |r.rest| == |s.rest|
  {
    KillRuns(prog, plan, s.rest, t);
    var killed := Kill(s.rest, t, |prog.code| - 2);
    var s1 := if t.end == offset then s.(rest := killed) else s;
    assert StateOk(prog, plan, s1);
    PushOk(prog, plan, s1, t);
  }

  lemma {:induction false} EpSequenceOk(prog: Program, plan: Plan, s: State, t: Thread, offset: nat)
    requires Sound(prog, plan) && StateOk(prog, plan, s) && Runs(prog, plan, t) && Fits(plan[t.pc].kind, t.lbl)
    ensures var r := EpSequence(prog, plan, s, t, offset); StateOk(prog, plan, r) && |r.rest| == |s.rest|
    decreases plan[t.pc].rank, 1
  {
    if !(t.lbl != NOLABEL && t.start < s.ends[t.lbl]) {
      EpsilonsOk(prog, plan, s, t, offset);
    }
  }

  lemma {:induction false} EpsilonsOk(prog: Program, plan: Plan, s: State, t: Thread, offset: nat)
    requires Sound(prog, plan) && StateOk(prog, plan, s) && Runs(prog, plan, t) && Fits(plan[t.pc].kind, t.lbl)
    ensures var r := Epsilons(prog, plan, s, t, offset); StateOk(prog, plan, r) && |r.rest| == |s.rest|
    decreases plan[t.pc].rank, 0
  {
    hide AllRun;
    assert WordOk(prog, plan, t.pc);
    var i := prog.code[t.pc];
    if i.Finish? {
      FinishOk(prog, plan, s, t, offset);
    } else if i.Fork? {
      EpSequenceOk(prog, plan, s, t.(pc := t.pc + 2), offset);
      EpsilonsOk(prog, plan, EpSequence(prog, plan, s, t.(pc := t.pc + 2), offset), t.(pc := i.target), offset);
    } else if i.Jump? {
      EpsilonsOk(prog, plan, s, t.(pc := i.target), offset);
    } else if i.CheckHalt? {
      if i.index !in s.locks {
        var s1 := if LiveCheck(s, t.start, t.lbl) then s else s.(locks := s.locks + {i.index});
        EpsilonsOk(prog, plan, s1, t.(pc := t.pc + 1), offset);
      }
    } else if i.Label? {
      if t.start >= s.ends[i.lbl] {
        EpsilonsOk(prog, plan, s, t.(lbl := i.lbl, pc := t.pc + 1), offset);
      }
    } else if i.Match? {
      EpsilonsOk(prog, plan, s, t.(end := offset, pc := t.pc + 1, lead := !LiveAbove(s, t.lbl)), offset);
    } else if !i.Halt? {
      PushOk(prog, plan, s, t);
    }
  }

  lemma ExecuteThreadOk(prog: Program, plan: Plan, s: State, t: Thread, b: Byte, offset: nat)
    requires Sound(prog, plan) && StateOk(prog, plan, s) && Runs(prog, plan, t)
    ensures var r := ExecuteThread(prog, plan, s, t, b, offset); StateOk(prog, plan, r) && |r.rest| == |s.rest|
  {
    ByteStepFlows(prog, plan, t.pc, b);
    var q := ByteStep(prog.code, t.pc, b);
    if q.Some? {
      EpSequenceOk(prog, plan, s, t.(pc := q.value), offset);
    }
  }

  /** Run the threads of the rest in turn. */
  ghost function RunAll(prog: Program, plan: Plan, s: State, b: Byte, offset: nat): (r: State)
    requires Sound(prog, plan) && StateOk(prog, plan, s)
    ensures StateOk(prog, plan, r) && r.rest == []
    decreases |s.rest|
  {
    if s.rest == [] then s
    else
      var s0 := s.(rest := s.rest[1..]);
      ExecuteThreadOk(prog, plan, s0, s.rest[0], b, offset);
      RunAll(prog, plan, ExecuteThread(prog, plan, s0, s.rest[0], b, offset), b, offset)
  }

  /** The program counters of the threads that every start begins with: Vm::First. */
  ghost function FirstPcs(prog: Program, plan: Plan, pc: nat): (r: seq<nat>)
    requires Sound(prog, plan) && pc < |prog.code| && Plain(prog, plan, pc)
    ensures forall i :: 0 <= i < |r| ==> r[i] < |prog.code|
    decreases plan[pc].rank
  {
    assert WordOk(prog, plan, pc);
    var i := prog.code[pc];
    if i.Fork? then FirstPcs(prog, plan, pc + 2) + FirstPcs(prog, plan, i.target)
    else if i.Jump? then FirstPcs(prog, plan, i.target)
    else [pc]
  }

  function Newborn(first: seq<nat>, offset: nat): (r: seq<Thread>)
    ensures |r| == |first|
    ensures forall i :: 0 <= i < |r| ==> r[i] == Thread(first[i], NOLABEL, offset, NOEND, false)
  {
    seq(|first|, i requires 0 <= i < |first| => Thread(first[i], NOLABEL, offset, NOEND, false))
  }

  lemma {:induction false} FirstUnlabelled(prog: Program, plan: Plan, pc: nat)
    requires Sound(prog, plan) && pc < |prog.code| && Plain(prog, plan, pc)
    requires Fits(plan[pc].kind, NOLABEL) && !plan[pc].ended
    ensures forall i :: 0 <= i < |FirstPcs(prog, plan, pc)| ==>
              var q := FirstPcs(prog, plan, pc)[i];
              Fits(plan[q].kind, NOLABEL) && !plan[q].ended && AtRest(prog.code[q]) && !prog.code[q].Finish?
    decreases plan[pc].rank
  {
    assert WordOk(prog, plan, pc);
    var i := prog.code[pc];
    if i.Fork? {
      FirstUnlabelled(prog, plan, pc + 2);
      FirstUnlabelled(prog, plan, i.target);
    } else if i.Jump? {
      FirstUnlabelled(prog, plan, i.target);
    }
  }

  /** Vm::_cleanup */
  function Cleanup(s: State): State {
    State(s.next, [], {}, {}, false, s.ends, s.endsMax, s.hits)
  }

  /** Vm::_executeFrame and Vm::_cleanup: admit says whether a match may start at this byte. */
  ghost function Frame(prog: Program, plan: Plan, s: State, b: Byte, offset: nat, admit: bool): (r: State)
    requires Runnable(prog, plan) && StateOk(prog, plan, s)
    ensures StateOk(prog, plan, r)
  {
    FirstUnlabelled(prog, plan, 0);
    var s1 := RunAll(prog, plan, s, b, offset);
    var s2 := if admit
              then RunAll(prog, plan, s1.(rest := Newborn(FirstPcs(prog, plan, 0), offset)), b, offset)
              else s1;
    Cleanup(s2)
  }

  /** Whether the two-byte filter lets a match start at buf[i]; near the end of the buffer it is not asked. */
  predicate Admits(prog: Program, buf: seq<Byte>, i: nat) {
    |buf| <= i + prog.filterOff + 1 || PairIndex(buf[i + prog.filterOff], buf[i + prog.filterOff + 1]) in prog.filter
  }

  /** Vm::search over buf[i..], where buf[0] is at the offset base. */
  ghost function Search(prog: Program, plan: Plan, s: State, buf: seq<Byte>, i: nat, base: nat): (r: State)
    requires Runnable(prog, plan) && StateOk(prog, plan, s) && i <= |buf|
    ensures StateOk(prog, plan, r)
    decreases |buf| - i
  {
    if i == |buf| then s
    else Search(prog, plan, Frame(prog, plan, s, buf[i], base + i, Admits(prog, buf, i)), buf, i + 1, base)
  }

  /** The opcodes that vm.cpp:634 does not count as real: such a thread reads nothing more. */
  predicate Spent(prog: Program, t: Thread)
    requires t.pc < |prog.code|
  {
    prog.code[t.pc].Halt? || prog.code[t.pc].Finish?
  }

  /** Whether any thread of the rest is not spent when its turn comes. */
  ghost predicate HadRealOps(prog: Program, plan: Plan, s: State, b: Byte, offset: nat)
    requires Sound(prog, plan) && StateOk(prog, plan, s)
    decreases |s.rest|
  {
    s.rest != []
    && (|| !Spent(prog, s.rest[0])
        || (var s0 := s.(rest := s.rest[1..]);
            ExecuteThreadOk(prog, plan, s0, s.rest[0], b, offset);
            HadRealOps(prog, plan, ExecuteThread(prog, plan, s0, s.rest[0], b, offset), b, offset)))
  }

  /** Vm::searchResolve over buf[i..]: no new threads; it stops after a frame without real operations. */
  ghost function Resolve(prog: Program, plan: Plan, s: State, buf: seq<Byte>, i: nat, base: nat): (r: State)
    requires Runnable(prog, plan) && StateOk(prog, plan, s) && i <= |buf|
    ensures StateOk(prog, plan, r)
    decreases |buf| - i
  {
    if i == |buf| || s.rest == [] then s
    else
      var s1 := Cleanup(RunAll(prog, plan, s, buf[i], base + i));
      if HadRealOps(prog, plan, s, buf[i], base + i) then Resolve(prog, plan, s1, buf, i + 1, base) else s1
  }

  /** How many bytes of the buffer searchResolve has taken when it stops. */
  ghost function Resolved(prog: Program, plan: Plan, s: State, buf: seq<Byte>, i: nat, base: nat): (r: nat)
    requires Runnable(prog, plan) && StateOk(prog, plan, s) && i <= |buf|
    ensures i <= r <= |buf|
    decreases |buf| - i
  {
    if i == |buf| || s.rest == [] then i
    else if HadRealOps(prog, plan, s, buf[i], base + i) then
      Resolved(prog, plan, Cleanup(RunAll(prog, plan, s, buf[i], base + i)), buf, i + 1, base)
    else i + 1
  }

  /** What closeOut does for one active thread. */
  function CloseOne(prog: Program, s: State, t: Thread): State
    requires t.pc < |prog.code| && (prog.code[t.pc].Finish? ==> t.lbl < |s.ends|)
  {
    if prog.code[t.pc].Finish? && s.ends[t.lbl] <= t.start
    then s.(ends := s.ends[t.lbl := t.end + 1], hits := s.hits + [Hit(t.start, t.end + 1, t.lbl)])
    else s
  }

  /** closeOut finds a label on every finished thread. */
  ghost predicate Closable(prog: Program, s: State) {
    && |s.ends| == prog.maxLabel + 1
    && forall k :: 0 <= k < |s.rest| ==>
         s.rest[k].pc < |prog.code| && (prog.code[s.rest[k].pc].Finish? ==> s.rest[k].lbl <= prog.maxLabel)
  }

  /** Vm::closeOut over the active threads from the i-th on. */
  ghost function CloseOut(prog: Program, s: State, i: nat): (r: State)
    requires Closable(prog, s) && i <= |s.rest|
    ensures r.rest == s.rest && |r.ends| == |s.ends|
    decreases |s.rest| - i
  {
    if i == |s.rest| then s
    else
      CloseOut(prog, CloseOne(prog, s, s.rest[i]), i + 1)
  }

  /** Vm::_startOfLeftmostLiveThread */
  ghost function LeftmostLive(prog: Program, ts: seq<Thread>, offset: nat): nat
    requires forall i :: 0 <= i < |ts| ==> ts[i].pc < |prog.code|
  {
    if ts == [] then offset
    else if Spent(prog, ts[0]) then LeftmostLive(prog, ts[1..], offset)
    else ts[0].start
  }

  /** The machine after reset. */
  function Fresh(prog: Program): (s: State) {
    State([], [], {}, {}, false, seq(prog.maxLabel + 1, i => 0), 0, [])
  }
}
