/**
 What a priority list of threads is worth: the hits that come of it when every
 thread is run to its end by backtracking, one after the other, and a thread
 that starts inside an earlier hit of its label counts for nothing.
 */
module Settling {
  import opened Basics
  import opened Bytecode
  import opened Frames

  /** How far label l is covered by hits, and those hits. */
  datatype Tally = Tally(bound: nat, hits: seq<Hit>)

  ghost function Value(prog: Program, plan: Plan, l: nat, t: Thread, w: seq<Byte>, pos: nat): Option<nat>
    requires Sound(prog, plan) && t.pc < |prog.code|
  {
    Backtrack(prog, plan, l, t.pc, t.lbl, t.end + 1, w, pos)
  }

  ghost predicate Placed(prog: Program, ts: seq<Thread>) {
    forall i :: 0 <= i < |ts| ==> ts[i].pc < |prog.code|
  }

  ghost function Settle1(prog: Program, plan: Plan, l: nat, acc: Tally, t: Thread, w: seq<Byte>, pos: nat): Tally
    requires Sound(prog, plan) && t.pc < |prog.code|
  {
    var v := Value(prog, plan, l, t, w, pos);
    if v.Some? && acc.bound <= t.start then Tally(v.value, acc.hits + [Hit(t.start, v.value, l)]) else acc
  }

  ghost function Settle(prog: Program, plan: Plan, l: nat, acc: Tally, ts: seq<Thread>, w: seq<Byte>, pos: nat): Tally
    requires Sound(prog, plan) && Placed(prog, ts)
    decreases |ts|
  {
    if ts == [] then acc
    else Settle(prog, plan, l, Settle1(prog, plan, l, acc, ts[0], w, pos), ts[1..], w, pos)
  }

  lemma {:induction false} SettleAppend(prog: Program, plan: Plan, l: nat, acc: Tally, a: seq<Thread>, b: seq<Thread>,
                     w: seq<Byte>, pos: nat)
    requires Sound(prog, plan) && Placed(prog, a) && Placed(prog, b)
    ensures Placed(prog, a + b)
    ensures Settle(prog, plan, l, acc, a + b, w, pos)
         == Settle(prog, plan, l, Settle(prog, plan, l, acc, a, w, pos), b, w, pos)
    decreases |a|
  {
    if a == [] {
      assert a + b == b;
    } else {
      assert (a + b)[0] == a[0] && (a + b)[1..] == a[1..] + b;
      SettleAppend(prog, plan, l, Settle1(prog, plan, l, acc, a[0], w, pos), a[1..], b, w, pos);
    }
  }

  lemma SettlePush(prog: Program, plan: Plan, l: nat, acc: Tally, a: seq<Thread>, t: Thread, w: seq<Byte>, pos: nat)
    requires Sound(prog, plan) && Placed(prog, a) && t.pc < |prog.code|
    ensures Placed(prog, a + [t])
    ensures Settle(prog, plan, l, acc, a + [t], w, pos)
         == Settle1(prog, plan, l, Settle(prog, plan, l, acc, a, w, pos), t, w, pos)
  {
    SettleAppend(prog, plan, l, acc, a, [t], w, pos);
    var acc' := Settle(prog, plan, l, acc, a, w, pos);
    assert [t][1..] == [];
    assert Settle(prog, plan, l, Settle1(prog, plan, l, acc', t, w, pos), [], w, pos)
        == Settle1(prog, plan, l, acc', t, w, pos);
  }

  // ----- facts about backtracking -----

  /** A match ends at or after the bytes still to come, unless it is the one already made. */
  lemma {:induction false} MatchEnd(prog: Program, plan: Plan, l: nat, pc: nat, lab: nat, end: nat, w: seq<Byte>, pos: nat)
    requires Sound(prog, plan) && pc < |prog.code|
    ensures var r := Backtrack(prog, plan, l, pc, lab, end, w, pos);
            r.Some? ==> pos <= r.value || (plan[pc].ended && r.value == end)
    decreases |w|, plan[pc].rank
  {
    assert WordOk(prog, plan, pc);
    var i := prog.code[pc];
    if i.Fork? {
      MatchEnd(prog, plan, l, pc + 2, lab, end, w, pos);
      MatchEnd(prog, plan, l, i.target, lab, end, w, pos);
    } else if i.Jump? {
      MatchEnd(prog, plan, l, i.target, lab, end, w, pos);
    } else if i.CheckHalt? {
      MatchEnd(prog, plan, l, pc + 1, lab, end, w, pos);
    } else if i.Label? {
      MatchEnd(prog, plan, l, pc + 1, i.lbl, end, w, pos);
    } else if i.Match? {
      MatchEnd(prog, plan, l, pc + 1, lab, pos, w, pos);
    } else if !i.Finish? && w != [] {
      var q := ByteStep(prog.code, pc, w[0]);
      ByteStepFlows(prog, plan, pc, w[0]);
      if q.Some? {
        MatchEnd(prog, plan, l, q.value, lab, end, w[1..], pos + 1);
      }
    }
  }

  /** A thread that waits for a byte makes no match that ends before that byte. */
  lemma RestMatchEnd(prog: Program, plan: Plan, l: nat, t: Thread, w: seq<Byte>, pos: nat)
    requires Sound(prog, plan) && t.pc < |prog.code| && (AtRest(prog.code[t.pc]) || prog.code[t.pc].Halt?)
    requires !prog.code[t.pc].Finish?
    ensures var r := Value(prog, plan, l, t, w, pos); r.Some? ==> pos < r.value
  {
    if w != [] {
      var q := ByteStep(prog.code, t.pc, w[0]);
      ByteStepFlows(prog, plan, t.pc, w[0]);
      if q.Some? {
        MatchEnd(prog, plan, l, q.value, t.lbl, t.end + 1, w[1..], pos + 1);
      }
    }
  }

  /** A thread that carries another label makes no match for l. */
  lemma {:induction false} OtherLabel(prog: Program, plan: Plan, l: nat, pc: nat, lab: nat, end: nat, w: seq<Byte>, pos: nat)
    requires Sound(prog, plan) && pc < |prog.code|
    requires Fits(plan[pc].kind, lab) && lab != NOLABEL && lab != l
    ensures Backtrack(prog, plan, l, pc, lab, end, w, pos).None?
    decreases |w|, plan[pc].rank
  {
    assert WordOk(prog, plan, pc);
    var i := prog.code[pc];
    if i.Fork? {
      OtherLabel(prog, plan, l, pc + 2, lab, end, w, pos);
      OtherLabel(prog, plan, l, i.target, lab, end, w, pos);
    } else if i.Jump? {
      OtherLabel(prog, plan, l, i.target, lab, end, w, pos);
    } else if i.CheckHalt? || i.Label? {
      OtherLabel(prog, plan, l, pc + 1, lab, end, w, pos);
    } else if i.Match? {
      OtherLabel(prog, plan, l, pc + 1, lab, pos, w, pos);
    } else if !i.Finish? && w != [] {
      var q := ByteStep(prog.code, pc, w[0]);
      ByteStepFlows(prog, plan, pc, w[0]);
      if q.Some? {
        OtherLabel(prog, plan, l, q.value, lab, end, w[1..], pos + 1);
      }
    }
  }

  /** Whether there is a match does not depend on the last one. */
  lemma {:induction false} EndIrrelevant(prog: Program, plan: Plan, l: nat, pc: nat, lab: nat, e: nat, e': nat, w: seq<Byte>, pos: nat)
    requires Sound(prog, plan) && pc < |prog.code|
    ensures Backtrack(prog, plan, l, pc, lab, e, w, pos).Some? <==> Backtrack(prog, plan, l, pc, lab, e', w, pos).Some?
    decreases |w|, plan[pc].rank
  {
    assert WordOk(prog, plan, pc);
    var i := prog.code[pc];
    if i.Fork? {
      EndIrrelevant(prog, plan, l, pc + 2, lab, e, e', w, pos);
      EndIrrelevant(prog, plan, l, i.target, lab, e, e', w, pos);
    } else if i.Jump? {
      EndIrrelevant(prog, plan, l, i.target, lab, e, e', w, pos);
    } else if i.CheckHalt? {
      EndIrrelevant(prog, plan, l, pc + 1, lab, e, e', w, pos);
    } else if i.Label? {
      EndIrrelevant(prog, plan, l, pc + 1, i.lbl, e, e', w, pos);
    } else if !i.Match? && !i.Finish? && !i.Halt? && w != [] {
      var q := ByteStep(prog.code, pc, w[0]);
      ByteStepFlows(prog, plan, pc, w[0]);
      if q.Some? {
        EndIrrelevant(prog, plan, l, q.value, lab, e, e', w[1..], pos + 1);
      }
    }
  }
}
