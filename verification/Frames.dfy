/**
 What one frame of the virtual machine does to its thread lists, as functions
 on the machine's state: the specification that the methods of class Vm meet
 (src/lib/vm.cpp:192-434).
 */
module Frames {
  import opened Basics
  import opened Bytecode

  const NOEND: nat := 0xFFFF_FFFF_FFFF_FFFF

  /** include/thread.h. The last matched byte is at offset end. */
  datatype Thread = Thread(pc: nat, lbl: nat, start: nat, end: nat, lead: bool)

  /** A reported hit covers the offsets from start up to, not including, end. */
  datatype Hit = Hit(start: nat, end: nat, lbl: nat)

  /**
   The state in the middle of a frame: the threads still to run in priority
   order, those that have survived the frame so far, the locks taken, the labels
   live among the survivors, where the last hit of each label ends, and the hits
   reported so far.
   */
  datatype State = State(rest: seq<Thread>, next: seq<Thread>, locks: set<nat>,
                         live: set<nat>, liveNoLabel: bool,
                         ends: seq<nat>, endsMax: nat, hits: seq<Hit>)

  function Mark(s: State, lbl: nat): State {
    if lbl == NOLABEL then s.(liveNoLabel := true) else s.(live := s.live + {lbl})
  }

  function Push(s: State, t: Thread): State {
    Mark(s, t.lbl).(next := s.next + [t])
  }

  /** A survivor so far has no label or this one. */
  predicate LiveAbove(s: State, lbl: nat) {
    s.liveNoLabel || lbl in s.live
  }

  /** Vm::_liveCheck */
  predicate LiveCheck(s: State, start: nat, lbl: nat) {
    if lbl == NOLABEL then s.next != [] || start < s.endsMax else LiveAbove(s, lbl)
  }

  /** The threads with the label are sent to the HALT at address halt. */
  function KillLabel(ts: seq<Thread>, lbl: nat, halt: nat): (r: seq<Thread>)
    ensures |r| == |ts|
  {
    if ts == [] then []
    else [if ts[0].lbl == lbl then ts[0].(pc := halt) else ts[0]] + KillLabel(ts[1..], lbl, halt)
  }

  /** The same, among the leading threads with the given start. */
  function KillStart(ts: seq<Thread>, lbl: nat, start: nat, halt: nat): (r: seq<Thread>)
    ensures |r| == |ts|
  {
    if ts == [] || ts[0].start != start then ts
    else [if ts[0].lbl == lbl then ts[0].(pc := halt) else ts[0]] + KillStart(ts[1..], lbl, start, halt)
  }

  function Kill(ts: seq<Thread>, t: Thread, halt: nat): seq<Thread> {
    if t.lead then KillLabel(ts, t.lbl, halt) else KillStart(ts, t.lbl, t.start, halt)
  }

  function Report(s: State, t: Thread): State
    requires t.lbl < |s.ends|
  {
    if t.start < s.ends[t.lbl] then s
    else s.(ends := s.ends[t.lbl := t.end + 1], endsMax := Max(s.endsMax, t.end + 1),
            hits := s.hits + [Hit(t.start, t.end + 1, t.lbl)])
  }

  /** FINISH_OP: kill what the match supersedes, then report it unless something live may supersede it. */
  function FinishStep(prog: Program, s: State, t: Thread, offset: nat): State
    requires t.lbl < |s.ends| && 2 <= |prog.code|
  {
    var s1 := if t.end == offset then s.(rest := Kill(s.rest, t, |prog.code| - 2)) else s;
    if LiveAbove(s1, t.lbl) then Push(s1, t) else Report(s1, t)
  }

  /** The label of a thread, if it has one, is one of the program's. */
  predicate Labels(prog: Program, s: State, t: Thread) {
    && |s.ends| == prog.maxLabel + 1
    && (t.lbl == NOLABEL || t.lbl <= prog.maxLabel)
  }

  /** Vm::_executeEpSequence, and the push of the thread if it survives. */
  ghost function EpSequence(prog: Program, plan: Plan, s: State, t: Thread, offset: nat): (r: State)
    requires Sound(prog, plan) && t.pc < |prog.code| && Labels(prog, s, t) && Fits(plan[t.pc].kind, t.lbl)
    ensures |r.ends| == |s.ends|
    decreases plan[t.pc].rank, 1
  {
    if t.lbl != NOLABEL && t.start < s.ends[t.lbl] then s
    else Epsilons(prog, plan, s, t, offset)
  }

  /** The loop over Vm::_executeEpsilon: run t until it dies, waits for a byte, or forks (and then both). */
  ghost function Epsilons(prog: Program, plan: Plan, s: State, t: Thread, offset: nat): (r: State)
    requires Sound(prog, plan) && t.pc < |prog.code| && Labels(prog, s, t) && Fits(plan[t.pc].kind, t.lbl)
    ensures |r.ends| == |s.ends|
    decreases plan[t.pc].rank, 0
  {
    assert WordOk(prog, plan, t.pc);
    var i := prog.code[t.pc];
    if i.Finish? then FinishStep(prog, s, t, offset)
    else if i.Fork? then
      Epsilons(prog, plan, EpSequence(prog, plan, s, t.(pc := t.pc + 2), offset), t.(pc := i.target), offset)
    else if i.Jump? then Epsilons(prog, plan, s, t.(pc := i.target), offset)
    else if i.CheckHalt? then
      if i.index in s.locks then s
      else
        var s1 := if LiveCheck(s, t.start, t.lbl) then s else s.(locks := s.locks + {i.index});
        Epsilons(prog, plan, s1, t.(pc := t.pc + 1), offset)
    else if i.Label? then
      if t.start >= s.ends[i.lbl] then Epsilons(prog, plan, s, t.(lbl := i.lbl, pc := t.pc + 1), offset) else s
    else if i.Match? then
      Epsilons(prog, plan, s, t.(end := offset, pc := t.pc + 1, lead := !LiveAbove(s, t.lbl)), offset)
    else if i.Halt? then s
    else Push(s, t)
  }

  /** Vm::_executeThread */
  ghost function ExecuteThread(prog: Program, plan: Plan, s: State, t: Thread, b: Byte, offset: nat): (r: State)
    requires Sound(prog, plan) && t.pc < |prog.code| && Labels(prog, s, t)
    requires prog.code[t.pc].Halt? || Fits(plan[t.pc].kind, t.lbl)
    ensures |r.ends| == |s.ends|
  {
    var q := ByteStep(prog.code, t.pc, b);
    ByteStepFlows(prog, plan, t.pc, b);
    if q.None? then s else EpSequence(prog, plan, s, t.(pc := q.value), offset)
  }
}
