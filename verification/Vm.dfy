/**
 The virtual machine itself (include/vm.h, src/lib/vm.cpp), method by method.
 Every method is tied to its function in Frames and Searching, about which
 Leftmost and SafeRuns prove what the search promises.
 */
module Vm {
  import opened Basics
  import opened Bytecode
  import opened Frames
  import opened Searching

  /** The entry of a program forks into the first threads and does nothing else. */
  lemma {:induction false} EntryForks(prog: Program, plan: Plan, s: State, t: Thread, offset: nat)
    requires Sound(prog, plan) && t.pc < |prog.code| && Plain(prog, plan, t.pc)
    requires Labels(prog, s, t) && t.lbl == NOLABEL && Fits(plan[t.pc].kind, NOLABEL)
    ensures var r := Epsilons(prog, plan, s, t, offset);
            var pcs := FirstPcs(prog, plan, t.pc);
            && r == s.(next := r.next, liveNoLabel := true)
            && |r.next| == |s.next| + |pcs|
            && r.next[..|s.next|] == s.next
            && forall k :: 0 <= k < |pcs| ==> r.next[|s.next| + k].pc == pcs[k]
    decreases plan[t.pc].rank
  {
    assert WordOk(prog, plan, t.pc);
    var i := prog.code[t.pc];
    if i.Fork? {
      EntryForks(prog, plan, s, t.(pc := t.pc + 2), offset);
      var s1 := Epsilons(prog, plan, s, t.(pc := t.pc + 2), offset);
      EntryForks(prog, plan, s1, t.(pc := i.target), offset);
      var r := Epsilons(prog, plan, s1, t.(pc := i.target), offset);
      var a, b := FirstPcs(prog, plan, t.pc + 2), FirstPcs(prog, plan, i.target);
      forall k | 0 <= k < |a + b| ensures r.next[|s.next| + k].pc == (a + b)[k] {
        if k < |a| {
          assert r.next[..|s1.next|][|s.next| + k] == s1.next[|s.next| + k];
        }
      }
      assert r.next[..|s.next|] == r.next[..|s1.next|][..|s.next|];
    } else if i.Jump? {
      EntryForks(prog, plan, s, t.(pc := i.target), offset);
    }
  }

  /** Running t' from s' amounts to running t from s. */
  ghost predicate Continues(prog: Program, plan: Plan, s: State, t: Thread, s': State, t': Thread, offset: nat)
    requires Sound(prog, plan) && t.pc < |prog.code| && Labels(prog, s, t) && Fits(plan[t.pc].kind, t.lbl)
  {
    && t'.pc < |prog.code| && Labels(prog, s', t') && Fits(plan[t'.pc].kind, t'.lbl)
    && plan[t'.pc].rank < plan[t.pc].rank
    && Epsilons(prog, plan, s', t', offset) == Epsilons(prog, plan, s, t, offset)
  }

  lemma ForkContinues(prog: Program, plan: Plan, s: State, t: Thread, s': State, offset: nat)
    requires Sound(prog, plan) && t.pc < |prog.code| && Labels(prog, s, t) && Fits(plan[t.pc].kind, t.lbl)
    requires prog.code[t.pc].Fork? && t.pc + 2 < |prog.code| && Fits(plan[t.pc + 2].kind, t.lbl)
    requires s' == EpSequence(prog, plan, s, t.(pc := t.pc + 2), offset)
    ensures Continues(prog, plan, s, t, s', t.(pc := prog.code[t.pc].target), offset)
  {
    assert WordOk(prog, plan, t.pc);
  }

  /** The steps that only move the thread on. */
  lemma MoveContinues(prog: Program, plan: Plan, s: State, t: Thread, offset: nat)
    requires Sound(prog, plan) && t.pc < |prog.code| && Labels(prog, s, t) && Fits(plan[t.pc].kind, t.lbl)
    ensures prog.code[t.pc].Jump? ==> Continues(prog, plan, s, t, s, t.(pc := prog.code[t.pc].target), offset)
    ensures prog.code[t.pc].Label? && prog.code[t.pc].lbl < |s.ends| && s.ends[prog.code[t.pc].lbl] <= t.start ==>
              Continues(prog, plan, s, t, s, t.(lbl := prog.code[t.pc].lbl, pc := t.pc + 1), offset)
    ensures prog.code[t.pc].Match? ==>
              Continues(prog, plan, s, t, s, t.(end := offset, pc := t.pc + 1, lead := !LiveAbove(s, t.lbl)), offset)
  {
    assert WordOk(prog, plan, t.pc);
  }

  lemma CheckContinues(prog: Program, plan: Plan, s: State, t: Thread, offset: nat)
    requires Sound(prog, plan) && t.pc < |prog.code| && Labels(prog, s, t) && Fits(plan[t.pc].kind, t.lbl)
    requires prog.code[t.pc].CheckHalt? && prog.code[t.pc].index !in s.locks
    ensures var s' := if LiveCheck(s, t.start, t.lbl) then s else s.(locks := s.locks + {prog.code[t.pc].index});
            Continues(prog, plan, s, t, s', t.(pc := t.pc + 1), offset)
  {
    assert WordOk(prog, plan, t.pc);
  }

  /** The steps after which the thread runs no further. */
  lemma StopsHere(prog: Program, plan: Plan, s: State, t: Thread, offset: nat)
    requires Sound(prog, plan) && t.pc < |prog.code| && Labels(prog, s, t) && Fits(plan[t.pc].kind, t.lbl)
    ensures prog.code[t.pc].Finish? ==>
              t.lbl < |s.ends| && Epsilons(prog, plan, s, t, offset) == FinishStep(prog, s, t, offset)
    ensures prog.code[t.pc].Label? ==> prog.code[t.pc].lbl < |s.ends|
    ensures || prog.code[t.pc].Halt?
            || (prog.code[t.pc].CheckHalt? && prog.code[t.pc].index in s.locks)
            || (prog.code[t.pc].Label? && t.start < s.ends[prog.code[t.pc].lbl])
            ==> Epsilons(prog, plan, s, t, offset) == s
    ensures AtRest(prog.code[t.pc]) && !prog.code[t.pc].Finish? ==>
              Epsilons(prog, plan, s, t, offset) == Push(s, t)
  {
    assert WordOk(prog, plan, t.pc);
  }

  /** Making one more of the leading threads with a start the next to be killed. */
  lemma KillStartStep(ts: seq<Thread>, lbl: nat, start: nat, halt: nat)
    requires ts != [] && ts[0].start == start
    ensures KillStart(ts, lbl, start, halt)
         == [if ts[0].lbl == lbl then ts[0].(pc := halt) else ts[0]] + KillStart(ts[1..], lbl, start, halt)
  {
  }

  lemma KillLabelStep(ts: seq<Thread>, lbl: nat, halt: nat)
    requires ts != []
    ensures KillLabel(ts, lbl, halt)
         == [if ts[0].lbl == lbl then ts[0].(pc := halt) else ts[0]] + KillLabel(ts[1..], lbl, halt)
  {
  }

  lemma KillLabelNone(lbl: nat, halt: nat)
    ensures KillLabel([], lbl, halt) == []
  {
  }

  lemma KillLabelMove(before: seq<Thread>, after: seq<Thread>, all: seq<Thread>, i: nat, k: nat, later: seq<Thread>)
    requires i <= k < |before| == |all| == |after| && after == before[k := after[k]] && before[k..] == all[k..]
    requires before[..i] == all[..i]
    ensures all[k..][1..] == all[k + 1..] && after[k + 1..] == all[k + 1..] && after[..i] == all[..i] && before[k] == all[k]
    ensures before[i..k] + ([after[k]] + later) == after[i..k + 1] + later
  {
    assert all[k] == all[k..][0] == before[k..][0];
    assert after[k + 1..] == before[k..][1..];
    assert after[i..k + 1] == before[i..k] + [after[k]];
  }

  lemma KillStartStop(ts: seq<Thread>, lbl: nat, start: nat, halt: nat)
    requires ts == [] || ts[0].start != start
    ensures KillStart(ts, lbl, start, halt) == ts
  {
  }

  /** One byte of a search; near the end of the buffer the filter is not asked. */
  lemma SearchStep(prog: Program, plan: Plan, s: State, buf: seq<Byte>, cur: nat, base: nat)
    requires Runnable(prog, plan) && StateOk(prog, plan, s) && cur < |buf|
    ensures var admit := |buf| <= cur + prog.filterOff + 1
                         || PairIndex(buf[cur + prog.filterOff], buf[cur + prog.filterOff + 1]) in prog.filter;
            var s' := Frame(prog, plan, s, buf[cur], base + cur, admit);
            StateOk(prog, plan, s') && Searching.Search(prog, plan, s', buf, cur + 1, base) == Searching.Search(prog, plan, s, buf, cur, base)
  {
    hide Runnable, Frame, StateOk;
  }

  lemma SearchEnd(prog: Program, plan: Plan, s: State, buf: seq<Byte>, base: nat)
    requires Runnable(prog, plan) && StateOk(prog, plan, s)
    ensures Searching.Search(prog, plan, s, buf, |buf|, base) == s
  {
    hide Runnable, StateOk;
  }

  class Machine {
    const Prog: Program
    ghost const Layout: Plan
    var First: seq<Thread>
    var Active: seq<Thread>
    var Next: seq<Thread>
    var CheckLabels: set<nat>
    var LiveNoLabel: bool
    var Live: set<nat>
    var MatchEnds: seq<nat>
    var MatchEndsMax: nat
    var Reported: seq<Hit>

    /** The state of the frame when the threads from the i-th on are still to run. */
    ghost function View(i: nat): State
      reads this
      requires i <= |Active|
    {
      State(Active[i..], Next, CheckLabels, Live, LiveNoLabel, MatchEnds, MatchEndsMax, Reported)
    }

    ghost predicate Valid()
      reads this
    {
      Linked() && StateOk(Prog, Layout, View(0))
    }

    /** The program can be run, and First is where its entry leads. */
    ghost predicate Linked()
      reads this`First
    {
      && Runnable(Prog, Layout)
      && |First| == |FirstPcs(Prog, Layout, 0)|
      && forall k :: 0 <= k < |First| ==> First[k].pc == FirstPcs(Prog, Layout, 0)[k]
    }

    /** Vm::Vm: run the entry once, to find the threads that every start begins with. */
    constructor (prog: Program, ghost plan: Plan)
      requires Runnable(prog, plan)
      ensures Valid() && Prog == prog && Layout == plan
      ensures View(0) == Fresh(prog)
    {
      Prog := prog;
      Layout := plan;
      First := [];
      Active := [Thread(0, NOLABEL, 0, NOEND, false)];
      Next := [];
      CheckLabels := {};
      LiveNoLabel := false;
      Live := {};
      MatchEnds := seq(prog.maxLabel + 1, i => 0);
      MatchEndsMax := 0;
      Reported := [];
      new;
      FindFirst();
      Reset();
    }

    /** Run the entry, alone in the active list, and keep the threads it leaves. */
    method FindFirst()
      requires Runnable(Prog, Layout) && |MatchEnds| == Prog.maxLabel + 1 && Next == []
      requires Active == [Thread(0, NOLABEL, 0, NOEND, false)]
      modifies this
      ensures |First| == |FirstPcs(Prog, Layout, 0)|
      ensures forall k :: 0 <= k < |First| ==> First[k].pc == FirstPcs(Prog, Layout, 0)[k]
      ensures |MatchEnds| == Prog.maxLabel + 1 && Reported == old(Reported)
    {
      ghost var s0 := View(1);
      EntryForks(Prog, Layout, s0, Active[0], 0);
      hide Epsilons, FirstPcs, Runnable;
      var alive, t := ExecuteEpSequence(1, Active[0], 0);
      if alive {
        Survive(t, 1);
      }
      assert View(1) == Epsilons(Prog, Layout, s0, Thread(0, NOLABEL, 0, NOEND, false), 0);
      First := Next;
    }

    /** Vm::reset */
    method Reset()
      modifies this`Active, this`Next, this`CheckLabels, this`LiveNoLabel, this`Live, this`MatchEnds, this`MatchEndsMax
      ensures Active == [] && Next == [] && CheckLabels == {} && Live == {} && !LiveNoLabel
      ensures MatchEnds == seq(|old(MatchEnds)|, i => 0) && MatchEndsMax == 0
    {
      Active, Next, CheckLabels, LiveNoLabel, Live := [], [], {}, false, {};
      MatchEnds := seq(|MatchEnds|, i => 0);
      MatchEndsMax := 0;
    }

    /** Vm::_markLive */
    method MarkLive(lbl: nat, ghost i: nat)
      requires i <= |Active|
      modifies this`LiveNoLabel, this`Live
      ensures View(i) == Mark(old(View(i)), lbl)
    {
      if lbl == NOLABEL {
        LiveNoLabel := true;
      } else if lbl !in Live {
        Live := Live + {lbl};
      }
    }

    /** Mark the label live and push the thread, as every caller of _executeEpSequence does. */
    method Survive(t: Thread, ghost i: nat)
      requires i <= |Active|
      modifies this`LiveNoLabel, this`Live, this`Next
      ensures View(i) == Push(old(View(i)), t)
    {
      MarkLive(t.lbl, i);
      Next := Next + [t];
    }

    /** The loop of vm.cpp:274-279: kill the threads with the label, from the i-th on. */
    method KillSameLabel(i: nat, lbl: nat)
      requires i <= |Active| && 2 <= |Prog.code|
      modifies this`Active
      ensures |Active| == |old(Active)| && Active[..i] == old(Active[..i])
      ensures Active[i..] == KillLabel(old(Active[i..]), lbl, |Prog.code| - 2)
    {
      hide *;
      KillLabelNone(lbl, |Prog.code| - 2);
      ghost var all := Active;
      var k := i;
      while k < |Active|
        invariant i <= k <= |Active| == |all|
        invariant Active[..i] == all[..i] && Active[k..] == all[k..]
        invariant Active[i..k] + KillLabel(all[k..], lbl, |Prog.code| - 2) == KillLabel(all[i..], lbl, |Prog.code| - 2)
      {
        KillLabelStep(all[k..], lbl, |Prog.code| - 2);
        ghost var before := Active;
        if Active[k].lbl == lbl {
          Active := Active[k := Active[k].(pc := |Prog.code| - 2)];
        }
        KillLabelMove(before, Active, all, i, k, KillLabel(all[k..][1..], lbl, |Prog.code| - 2));
        k := k + 1;
      }
      assert all[k..] == [];
      assert Active[i..] == Active[i..k] + [];
    }

    /** The loop of vm.cpp:283-288: the same, while the start is the given one. */
    method KillSameStart(i: nat, lbl: nat, start: nat)
      requires i <= |Active| && 2 <= |Prog.code|
      modifies this`Active
      ensures |Active| == |old(Active)| && Active[..i] == old(Active[..i])
      ensures Active[i..] == KillStart(old(Active[i..]), lbl, start, |Prog.code| - 2)
    {
      hide KillStart;
      var k := i;
      while k < |Active| && Active[k].start == start
        invariant i <= k <= |Active| == |old(Active)|
        invariant Active[..i] == old(Active[..i])
        invariant Active[i..k] + KillStart(Active[k..], lbl, start, |Prog.code| - 2)
               == KillStart(old(Active[i..]), lbl, start, |Prog.code| - 2)
      {
        ghost var before := Active;
        KillStartStep(before[k..], lbl, start, |Prog.code| - 2);
        if Active[k].lbl == lbl {
          Active := Active[k := Active[k].(pc := |Prog.code| - 2)];
        }
        assert Active[k + 1..] == before[k..][1..];
        ghost var later := KillStart(Active[k + 1..], lbl, start, |Prog.code| - 2);
        assert before[i..k] + ([Active[k]] + later) == Active[i..k + 1] + later;
        k := k + 1;
      }
      KillStartStop(Active[k..], lbl, start, |Prog.code| - 2);
      assert Active[i..] == Active[i..k] + Active[k..];
    }

    /** Vm::_execute */
    method ExecuteByte(t: Thread, b: Byte) returns (alive: bool, t': Thread)
      requires t.pc < |Prog.code|
      ensures var q := ByteStep(Prog.code, t.pc, b);
              alive == q.Some? && t' == (if alive then t.(pc := q.value) else t)
    {
      t' := t;
      match Prog.code[t.pc] {
        case JumpTableRange(first, last) =>
          if first <= b <= last {
            var entry: nat := t.pc + 1 + (b - first);
            var addr := if entry < |Prog.code| && Prog.code[entry].Raw? then Prog.code[entry].value else 0;
            if addr != 0 {
              t' := t.(pc := addr);
              return true, t';
            }
          }
        case ByteOp(x) =>
          if b == x {
            return true, t.(pc := t.pc + 1);
          }
        case BitVector(allowed) =>
          if b in allowed {
            return true, t.(pc := t.pc + 9);
          }
        case Either(one, two) =>
          if b == one || b == two {
            return true, t.(pc := t.pc + 1);
          }
        case Range(first, last) =>
          if first <= b <= last {
            return true, t.(pc := t.pc + 1);
          }
        case AnyByte => return true, t.(pc := t.pc + 1);
        case Finish => return true, t;
        case _ =>
      }
      // Die.
      alive := false;
    }

    /** Vm::_executeEpsilon on FINISH_OP */
    method ExecuteFinish(i: nat, t: Thread, offset: nat) returns (alive: bool)
      requires i <= |Active| && 2 <= |Prog.code| && t.lbl < |MatchEnds|
      modifies this`Active, this`MatchEnds, this`MatchEndsMax, this`Reported
      ensures |Active| == |old(Active)| && Active[..i] == old(Active[..i])
      ensures (if alive then Push(View(i), t) else View(i)) == FinishStep(Prog, old(View(i)), t, offset)
    {
      if t.end == offset {
        if t.lead {
          KillSameLabel(i, t.lbl);
        } else {
          KillSameStart(i, t.lbl, t.start);
        }
      }
      alive := true;
      if !LiveNoLabel && t.lbl !in Live {
        if t.start >= MatchEnds[t.lbl] {
          MatchEnds := MatchEnds[t.lbl := t.end + 1];
          if t.end + 1 > MatchEndsMax {
            MatchEndsMax := t.end + 1;
          }
          Reported := Reported + [Hit(t.start, t.end + 1, t.lbl)];
        }
        alive := false;
      }
    }

    /**
     Vm::_executeEpsilon: one epsilon step of the thread whose successors in the
     active list begin at i. It is to be called again while again holds; at the
     end the thread has survived, as t', or not.
     */
    method ExecuteEpsilon(i: nat, t: Thread, offset: nat) returns (again: bool, alive: bool, t': Thread)
      requires Sound(Prog, Layout) && i <= |Active|
      requires t.pc < |Prog.code| && Labels(Prog, View(i), t) && Fits(Layout[t.pc].kind, t.lbl)
      modifies this`Active, this`Next, this`CheckLabels, this`LiveNoLabel, this`Live,
               this`MatchEnds, this`MatchEndsMax, this`Reported
      ensures |Active| == |old(Active)| && Active[..i] == old(Active[..i])
      ensures again ==> Continues(Prog, Layout, old(View(i)), t, View(i), t', offset)
      ensures !again ==>
                (if alive then Push(View(i), t') else View(i)) == old(Epsilons(Prog, Layout, View(i), t, offset))
      decreases Layout[t.pc].rank, 1
    {
      ghost var s0 := View(i);
      StopsHere(Prog, Layout, s0, t, offset);
      MoveContinues(Prog, Layout, s0, t, offset);
      hide Sound, Epsilons, EpSequence, Continues, Fits, FinishStep;
      again, alive, t' := false, false, t;
      var w := Prog.code[t.pc];
      if w.Finish? {
        alive := ExecuteFinish(i, t, offset);
      } else if w.Fork? {
        ExecuteParent(i, t, offset);
        ForkContinues(Prog, Layout, s0, t, View(i), offset);
        // the forked child takes the parent's place
        again, t' := true, t.(pc := w.target);
      } else if w.Jump? {
        again, t' := true, t.(pc := w.target);
      } else if w.CheckHalt? {
        if w.index !in CheckLabels {
          CheckContinues(Prog, Layout, s0, t, offset);
          if !LiveCheck(t.start, t.lbl) {
            CheckLabels := CheckLabels + {w.index};
          }
          again, t' := true, t.(pc := t.pc + 1);
        }
      } else if w.Label? {
        if t.start >= MatchEnds[w.lbl] {
          again, t' := true, t.(lbl := w.lbl, pc := t.pc + 1);
        }
      } else if w.Match? {
        again, t' := true, t.(end := offset, pc := t.pc + 1, lead := !LiveNoLabel && t.lbl !in Live);
      } else if !w.Halt? {
        alive := true;
      }
    }

    /** On FORK_OP: keep going in sequence with the thread itself, before its child. */
    method ExecuteParent(i: nat, t: Thread, offset: nat)
      requires Sound(Prog, Layout) && i <= |Active|
      requires t.pc < |Prog.code| && Labels(Prog, View(i), t) && Fits(Layout[t.pc].kind, t.lbl)
      requires Prog.code[t.pc].Fork?
      modifies this`Active, this`Next, this`CheckLabels, this`LiveNoLabel, this`Live,
               this`MatchEnds, this`MatchEndsMax, this`Reported
      ensures |Active| == |old(Active)| && Active[..i] == old(Active[..i])
      ensures t.pc + 2 < |Prog.code| && Fits(Layout[t.pc + 2].kind, t.lbl)
      ensures View(i) == old(EpSequence(Prog, Layout, View(i), t.(pc := t.pc + 2), offset))
      decreases Layout[t.pc].rank, 0
    {
      assert WordOk(Prog, Layout, t.pc);
      var alive, parent := ExecuteEpSequence(i, t.(pc := t.pc + 2), offset);
      if alive {
        Survive(parent, i);
      }
    }

    /** Vm::_liveCheck */
    predicate LiveCheck(start: nat, lbl: nat)
      reads this
    {
      if lbl == NOLABEL then Next != [] || start < MatchEndsMax else LiveNoLabel || lbl in Live
    }

    /** Vm::_executeEpSequence */
    method ExecuteEpSequence(i: nat, t: Thread, offset: nat) returns (alive: bool, t': Thread)
      requires Sound(Prog, Layout) && i <= |Active|
      requires t.pc < |Prog.code| && Labels(Prog, View(i), t) && Fits(Layout[t.pc].kind, t.lbl)
      modifies this`Active, this`Next, this`CheckLabels, this`LiveNoLabel, this`Live,
               this`MatchEnds, this`MatchEndsMax, this`Reported
      ensures |Active| == |old(Active)| && Active[..i] == old(Active[..i])
      ensures (if alive then Push(View(i), t') else View(i)) == old(EpSequence(Prog, Layout, View(i), t, offset))
      decreases Layout[t.pc].rank, 2
    {
      t' := t;
      if t.lbl != NOLABEL && t.start < MatchEnds[t.lbl] {
        return false, t;
      }
      var again := true;
      alive := true;
      while again
        invariant |Active| == |old(Active)| && Active[..i] == old(Active[..i])
        invariant again ==>
                    && t'.pc < |Prog.code| && Labels(Prog, View(i), t') && Fits(Layout[t'.pc].kind, t'.lbl)
                    && Layout[t'.pc].rank <= Layout[t.pc].rank
                    && Epsilons(Prog, Layout, View(i), t', offset) == old(Epsilons(Prog, Layout, View(i), t, offset))
        invariant !again ==>
                    (if alive then Push(View(i), t') else View(i)) == old(Epsilons(Prog, Layout, View(i), t, offset))
        decreases if again then Layout[t'.pc].rank + 1 else 0
      {
        again, alive, t' := ExecuteEpsilon(i, t', offset);
      }
    }

    /** Vm::_executeThread, on the i-th active thread */
    method ExecuteThread(i: nat, b: Byte, offset: nat)
      requires Sound(Prog, Layout) && i < |Active| && StateOk(Prog, Layout, View(i))
      modifies this`Active, this`Next, this`CheckLabels, this`LiveNoLabel, this`Live,
               this`MatchEnds, this`MatchEndsMax, this`Reported
      ensures |Active| == |old(Active)| && Active[..i + 1] == old(Active[..i + 1])
      ensures Runs(Prog, Layout, old(Active[i])) && |old(MatchEnds)| == Prog.maxLabel + 1
      ensures View(i + 1) == old(Frames.ExecuteThread(Prog, Layout, View(i + 1), Active[i], b, offset))
    {
      assert View(i).rest[0] == Active[i];
      ByteStepFlows(Prog, Layout, Active[i].pc, b);
      var alive, t := ExecuteByte(Active[i], b);
      if alive {
        alive, t := ExecuteEpSequence(i + 1, t, offset);
        if alive {
          Survive(t, i + 1);
        }
      }
    }

    /** The loop over the active threads from the i-th on (vm.cpp:405-408, 426-429, 636-639). */
    method ExecuteFrom(i: nat, b: Byte, offset: nat) returns (hadRealOps: bool)
      requires Sound(Prog, Layout) && i <= |Active| && StateOk(Prog, Layout, View(i))
      modifies this`Active, this`Next, this`CheckLabels, this`LiveNoLabel, this`Live,
               this`MatchEnds, this`MatchEndsMax, this`Reported
      ensures View(|Active|) == old(RunAll(Prog, Layout, View(i), b, offset))
      ensures hadRealOps == old(HadRealOps(Prog, Layout, View(i), b, offset))
    {
      var k := i;
      hadRealOps := false;
      ghost var s0 := View(i);
      while k < |Active|
        invariant i <= k <= |Active| && StateOk(Prog, Layout, View(k))
        invariant RunAll(Prog, Layout, View(k), b, offset) == RunAll(Prog, Layout, s0, b, offset)
        invariant hadRealOps || HadRealOps(Prog, Layout, View(k), b, offset) == HadRealOps(Prog, Layout, s0, b, offset)
        invariant hadRealOps ==> HadRealOps(Prog, Layout, s0, b, offset)
        decreases |Active| - k
      {
        ghost var s := View(k);
        assert s.rest[0] == Active[k] && s.rest[1..] == Active[k + 1..];
        ExecuteThreadOk(Prog, Layout, s.(rest := s.rest[1..]), s.rest[0], b, offset);
        hadRealOps := hadRealOps || !(Prog.code[Active[k].pc].Halt? || Prog.code[Active[k].pc].Finish?);
        ExecuteThread(k, b, offset);
        k := k + 1;
      }
    }

    /** Vm::_executeNewThreads */
    method ExecuteNewThreads(b: Byte, offset: nat)
      requires Linked() && StateOk(Prog, Layout, View(|Active|))
      modifies this`Active, this`Next, this`CheckLabels, this`LiveNoLabel, this`Live,
               this`MatchEnds, this`MatchEndsMax, this`Reported
      ensures StateOk(Prog, Layout, old(View(|Active|)).(rest := Newborn(FirstPcs(Prog, Layout, 0), offset)))
      ensures View(|Active|)
           == RunAll(Prog, Layout, old(View(|Active|)).(rest := Newborn(FirstPcs(Prog, Layout, 0), offset)), b, offset)
    {
      var oldsize := |Active|;
      ghost var s := View(oldsize);
      ghost var born := Newborn(FirstPcs(Prog, Layout, 0), offset);
      for k := 0 to |First|
        invariant |Active| == oldsize + k
        invariant Active[oldsize..] == born[..k]
        invariant View(|Active|) == s
      {
        Active := Active + [Thread(First[k].pc, NOLABEL, offset, NOEND, false)];
      }
      FirstUnlabelled(Prog, Layout, 0);
      assert born[..|First|] == born;
      assert View(oldsize) == s.(rest := born);
      var _ := ExecuteFrom(oldsize, b, offset);
    }

    /** Vm::_executeFrame and Vm::_cleanup; admit is what the filter says, or true when it is not asked. */
    method ExecuteFrame(b: Byte, offset: nat, admit: bool)
      requires Valid()
      modifies this`Active, this`Next, this`CheckLabels, this`LiveNoLabel, this`Live,
               this`MatchEnds, this`MatchEndsMax, this`Reported
      ensures Valid()
      ensures View(0) == old(Frame(Prog, Layout, View(0), b, offset, admit))
    {
      ghost var s := View(0);
      var _ := ExecuteFrom(0, b, offset);
      if admit {
        ExecuteNewThreads(b, offset);
      }
      CleanupFrame();
    }

    /** Vm::_cleanup */
    method CleanupFrame()
      modifies this`Active, this`Next, this`CheckLabels, this`LiveNoLabel, this`Live
      ensures View(0) == Cleanup(old(View(|Active|)))
    {
      Active, Next, CheckLabels, LiveNoLabel, Live := Next, [], {}, false, {};
    }

    /** Vm::search: run every byte of buf, and say how far back a hit may still start. */
    method Search(buf: seq<Byte>, startOffset: nat) returns (leftmost: nat)
      requires Valid()
      modifies this`Active, this`Next, this`CheckLabels, this`LiveNoLabel, this`Live,
               this`MatchEnds, this`MatchEndsMax, this`Reported
      ensures Valid()
      ensures View(0) == old(Searching.Search(Prog, Layout, View(0), buf, 0, startOffset))
      ensures (forall k :: 0 <= k < |Active| ==> Active[k].pc < |Prog.code|)
              && leftmost == LeftmostLive(Prog, Active, startOffset + |buf|)
    {
      hide *;
      ValidOk();
      var cur := 0;
      ghost var s0 := View(0);
      // while the pair at the filter's offset lies in the buffer, ask the filter
      while cur + Prog.filterOff + 1 < |buf|
        invariant cur <= |buf| && Valid() && StateOk(Prog, Layout, View(0))
        invariant Searching.Search(Prog, Layout, View(0), buf, cur, startOffset)
               == Searching.Search(Prog, Layout, s0, buf, 0, startOffset)
      {
        SearchStep(Prog, Layout, View(0), buf, cur, startOffset);
        var admit := PairIndex(buf[cur + Prog.filterOff], buf[cur + Prog.filterOff + 1]) in Prog.filter;
        ExecuteFrame(buf[cur], startOffset + cur, admit);
        ValidOk();
        cur := cur + 1;
      }
      while cur < |buf|
        invariant cur <= |buf| && |buf| <= cur + Prog.filterOff + 1 && Valid() && StateOk(Prog, Layout, View(0))
        invariant Searching.Search(Prog, Layout, View(0), buf, cur, startOffset)
               == Searching.Search(Prog, Layout, s0, buf, 0, startOffset)
      {
        SearchStep(Prog, Layout, View(0), buf, cur, startOffset);
        ExecuteFrame(buf[cur], startOffset + cur, true);
        ValidOk();
        cur := cur + 1;
      }
      ValidOk();
      SearchEnd(Prog, Layout, View(0), buf, startOffset);
      leftmost := StartOfLeftmostLiveThread(startOffset + |buf|);
    }

    lemma ValidOk()
      requires Valid()
      ensures Runnable(Prog, Layout) && |Layout| == |Prog.code| && StateOk(Prog, Layout, View(0))
      ensures forall k :: 0 <= k < |Active| ==> Active[k].pc < |Prog.code|
    {
      assert View(0).rest == Active;
      hide Runnable;
      forall k | 0 <= k < |Active| ensures Active[k].pc < |Prog.code| {
        assert View(0).rest[k] == Active[k];
      }
    }

    /** Vm::searchResolve: go on without new threads, until none is left or none has read anything. */
    method SearchResolve(buf: seq<Byte>, startOffset: nat) returns (leftmost: nat)
      requires Valid()
      modifies this`Active, this`Next, this`CheckLabels, this`LiveNoLabel, this`Live,
               this`MatchEnds, this`MatchEndsMax, this`Reported
      ensures Valid()
      ensures View(0) == old(Resolve(Prog, Layout, View(0), buf, 0, startOffset))
      ensures (forall k :: 0 <= k < |Active| ==> Active[k].pc < |Prog.code|)
              && leftmost == LeftmostLive(Prog, Active, startOffset + old(Resolved(Prog, Layout, View(0), buf, 0, startOffset)))
    {
      var hadRealOps := true;
      var cur := 0;
      ghost var s0 := View(0);
      while cur < |buf| && Active != [] && hadRealOps
        invariant cur <= |buf| && Valid()
        invariant (if hadRealOps then Resolve(Prog, Layout, View(0), buf, cur, startOffset) else View(0))
               == Resolve(Prog, Layout, s0, buf, 0, startOffset)
        invariant (if hadRealOps then Resolved(Prog, Layout, View(0), buf, cur, startOffset) else cur)
               == Resolved(Prog, Layout, s0, buf, 0, startOffset)
        decreases |buf| - cur
      {
        hadRealOps := ExecuteFrom(0, buf[cur], startOffset + cur);
        CleanupFrame();
        cur := cur + 1;
      }
      ValidOk();
      leftmost := StartOfLeftmostLiveThread(startOffset + cur);
    }

    /** Vm::_startOfLeftmostLiveThread */
    method StartOfLeftmostLiveThread(offset: nat) returns (leftmost: nat)
      requires forall k :: 0 <= k < |Active| ==> Active[k].pc < |Prog.code|
      ensures leftmost == LeftmostLive(Prog, Active, offset)
    {
      var k := 0;
      while k < |Active|
        invariant k <= |Active|
        invariant LeftmostLive(Prog, Active[k..], offset) == LeftmostLive(Prog, Active, offset)
      {
        if !(Prog.code[Active[k].pc].Halt? || Prog.code[Active[k].pc].Finish?) {
          return Active[k].start;
        }
        assert Active[k..][1..] == Active[k + 1..];
        k := k + 1;
      }
      return offset;
    }

    /** Vm::closeOut: report the matches of the threads that have finished. */
    method CloseOut()
      requires Valid() && Closable(Prog, View(0))
      modifies this`MatchEnds, this`Reported
      ensures View(0) == old(Searching.CloseOut(Prog, View(0), 0))
    {
      ghost var s0 := View(0);
      var k := 0;
      while k < |Active|
        invariant k <= |Active| && Closable(Prog, View(0))
        invariant Searching.CloseOut(Prog, View(0), k) == Searching.CloseOut(Prog, s0, 0)
      {
        var t := Active[k];
        if Prog.code[t.pc].Finish? {
          if t.start >= MatchEnds[t.lbl] {
            MatchEnds := MatchEnds[t.lbl := t.end + 1];
            Reported := Reported + [Hit(t.start, t.end + 1, t.lbl)];
          }
        }
        k := k + 1;
      }
    }
  }
}
