/**
 Running a thread changes neither the hits that its frame is worth nor how far
 they reach: killing, locking, and waiting only drop what counts for nothing.
 */
module Priority {
  import opened Basics
  import opened Bytecode
  import opened Frames
  import opened Settling

  function HitsFor(hits: seq<Hit>, l: nat): seq<Hit> {
    if hits == [] then []
    else HitsFor(hits[..|hits| - 1], l) + (if hits[|hits| - 1].lbl == l then [hits[|hits| - 1]] else [])
  }

  lemma HitsForPush(hits: seq<Hit>, h: Hit, l: nat)
    ensures HitsFor(hits + [h], l) == HitsFor(hits, l) + (if h.lbl == l then [h] else [])
  {
    assert (hits + [h])[..|hits + [h]| - 1] == hits;
  }

  // ----- the invariant of a frame -----

  /** A thread that has read every byte before pos. */
  ghost predicate Good(prog: Program, plan: Plan, t: Thread, pos: nat)
    requires |plan| == |prog.code|
  {
    && t.pc < |prog.code|
    && (t.lbl == NOLABEL || t.lbl <= prog.maxLabel)
    && Fits(plan[t.pc].kind, t.lbl)
    && (plan[t.pc].ended ==> t.start <= t.end < pos)
  }

  ghost predicate Survivor(prog: Program, plan: Plan, t: Thread, pos: nat)
    requires |plan| == |prog.code|
  {
    Good(prog, plan, t, pos) && AtRest(prog.code[t.pc]) && t.start < pos
  }

  /** A thread still to be run in the frame of the byte at offset, perhaps killed. */
  ghost predicate Queued(prog: Program, plan: Plan, t: Thread, offset: nat)
    requires |plan| == |prog.code|
  {
    && t.pc < |prog.code|
    && (t.lbl == NOLABEL || t.lbl <= prog.maxLabel)
    && t.start <= offset
    && (prog.code[t.pc].Halt? || (Good(prog, plan, t, offset) && AtRest(prog.code[t.pc])))
  }

  ghost predicate FrameInv(prog: Program, plan: Plan, s: State, offset: nat)
    requires |plan| == |prog.code|
  {
    && |s.ends| == prog.maxLabel + 1
    && (forall i :: 0 <= i < |s.ends| ==> s.ends[i] <= s.endsMax)
    && (forall i :: 0 <= i < |s.next| ==> Survivor(prog, plan, s.next[i], offset + 1) && LiveAbove(s, s.next[i].lbl))
    && (forall i :: 0 <= i < |s.next| ==> s.next[i].lbl == NOLABEL ==> s.liveNoLabel)
    && (forall i :: 0 <= i < |s.rest| ==> Queued(prog, plan, s.rest[i], offset))
  }

  /** What the survivors so far are worth, after the hits already reported. */
  ghost function Tallied(prog: Program, plan: Plan, l: nat, s: State, offset: nat, w: seq<Byte>): Tally
    requires Sound(prog, plan) && FrameInv(prog, plan, s, offset) && l <= prog.maxLabel
  {
    Settle(prog, plan, l, Tally(s.ends[l], HitsFor(s.hits, l)), s.next, w, offset + 1)
  }

  function LabelAt(k: Kind): nat {
    if k.Labelled? then k.lbl else NOLABEL
  }

  /**
   The lock at p shuts out nothing of worth: a match from p on would follow a
   survivor whose hit already reaches past this byte.
   */
  ghost predicate Held(prog: Program, plan: Plan, l: nat, p: nat, offset: nat, w: seq<Byte>, bound: nat)
    requires Sound(prog, plan) && p < |prog.code| && prog.code[p].CheckHalt?
  {
    var k := LabelAt(plan[p].kind);
    assert WordOk(prog, plan, p);
    (k == NOLABEL || k == l) && Backtrack(prog, plan, l, p + 1, k, 0, w, offset + 1).Some? ==> offset < bound
  }

  ghost predicate LocksHeld(prog: Program, plan: Plan, l: nat, s: State, offset: nat, w: seq<Byte>, ex: set<nat>, bound: nat)
    requires Sound(prog, plan)
  {
    forall p: nat :: p < |prog.code| && prog.code[p].CheckHalt? && prog.code[p].index in s.locks && p !in ex
      ==> Held(prog, plan, l, p, offset, w, bound)
  }

  /** b is a with some threads killed, none of which counts once label l is covered up to bound. */
  ghost predicate Weeded(prog: Program, l: nat, a: seq<Thread>, b: seq<Thread>, bound: nat)
    requires 2 <= |prog.code|
  {
    && |a| == |b|
    && forall i :: 0 <= i < |a| ==>
         || b[i] == a[i]
         || (b[i] == a[i].(pc := |prog.code| - 2) && a[i].lbl != NOLABEL && (a[i].lbl != l || a[i].start < bound))
  }

  lemma WeededTrans(prog: Program, l: nat, a: seq<Thread>, b: seq<Thread>, c: seq<Thread>, bound: nat, bound': nat)
    requires 2 <= |prog.code| && bound <= bound'
    requires Weeded(prog, l, a, b, bound) && Weeded(prog, l, b, c, bound')
    ensures Weeded(prog, l, a, c, bound')
  {
    forall i | 0 <= i < |a|
      ensures || c[i] == a[i]
              || (c[i] == a[i].(pc := |prog.code| - 2) && a[i].lbl != NOLABEL && (a[i].lbl != l || a[i].start < bound'))
    {
      assert b[i].lbl == a[i].lbl && b[i].start == a[i].start;
    }
  }

  lemma {:induction false} SettleWeeded(prog: Program, plan: Plan, l: nat, acc: Tally, a: seq<Thread>, b: seq<Thread>,
                                        w: seq<Byte>, offset: nat, bound: nat)
    requires Sound(prog, plan) && Weeded(prog, l, a, b, bound) && bound <= acc.bound
    requires forall i :: 0 <= i < |a| ==> Queued(prog, plan, a[i], offset)
    ensures Placed(prog, a) && Placed(prog, b)
    ensures Settle(prog, plan, l, acc, a, w, offset) == Settle(prog, plan, l, acc, b, w, offset)
    decreases |a|
  {
    if a != [] {
      var t, u := a[0], b[0];
      if t != u {
        assert Value(prog, plan, l, u, w, offset).None?;
        if t.lbl != l && !prog.code[t.pc].Halt? {
          OtherLabel(prog, plan, l, t.pc, t.lbl, t.end + 1, w, offset);
        }
      }
      var acc' := Settle1(prog, plan, l, acc, t, w, offset);
      assert acc' == Settle1(prog, plan, l, acc, u, w, offset);
      QueuedEnd(prog, plan, l, t, w, offset);
      assert forall i :: 0 <= i < |a[1..]| ==> a[1..][i] == a[i + 1] && b[1..][i] == b[i + 1];
      SettleWeeded(prog, plan, l, acc', a[1..], b[1..], w, offset, bound);
    }
  }

  /** A queued thread's match is not empty. */
  lemma QueuedEnd(prog: Program, plan: Plan, l: nat, t: Thread, w: seq<Byte>, offset: nat)
    requires Sound(prog, plan) && Queued(prog, plan, t, offset)
    ensures var v := Value(prog, plan, l, t, w, offset); v.Some? ==> t.start < v.value
  {
    assert WordOk(prog, plan, t.pc);
    if !prog.code[t.pc].Finish? {
      RestMatchEnd(prog, plan, l, t, w, offset);
    }
  }

  lemma SurvivorEnd(prog: Program, plan: Plan, l: nat, t: Thread, w: seq<Byte>, pos: nat)
    requires Sound(prog, plan) && Survivor(prog, plan, t, pos)
    ensures var v := Value(prog, plan, l, t, w, pos); v.Some? ==> t.start < v.value
  {
    assert WordOk(prog, plan, t.pc);
    if !prog.code[t.pc].Finish? {
      RestMatchEnd(prog, plan, l, t, w, pos);
    }
  }

  lemma {:induction false} SettleGrows(prog: Program, plan: Plan, l: nat, acc: Tally, ts: seq<Thread>, w: seq<Byte>, pos: nat)
    requires Sound(prog, plan)
    requires forall i :: 0 <= i < |ts| ==> Survivor(prog, plan, ts[i], pos)
    ensures Placed(prog, ts)
    ensures acc.bound <= Settle(prog, plan, l, acc, ts, w, pos).bound
    decreases |ts|
  {
    if ts != [] {
      SurvivorEnd(prog, plan, l, ts[0], w, pos);
      SettleGrows(prog, plan, l, Settle1(prog, plan, l, acc, ts[0], w, pos), ts[1..], w, pos);
    }
  }

  /** Threads that carry other labels are worth nothing. */
  lemma {:induction false} SettleOthers(prog: Program, plan: Plan, l: nat, acc: Tally, ts: seq<Thread>, w: seq<Byte>, pos: nat)
    requires Sound(prog, plan)
    requires forall i :: 0 <= i < |ts| ==> Survivor(prog, plan, ts[i], pos) && ts[i].lbl != NOLABEL && ts[i].lbl != l
    ensures Placed(prog, ts)
    ensures Settle(prog, plan, l, acc, ts, w, pos) == acc
    decreases |ts|
  {
    if ts != [] {
      OtherLabel(prog, plan, l, ts[0].pc, ts[0].lbl, ts[0].end + 1, w, pos);
      SettleOthers(prog, plan, l, acc, ts[1..], w, pos);
    }
  }

  // ----- one thread's epsilon steps -----

  /** Nothing up to x hides a match of t that ends at offset or later. */
  predicate Ahead(x: nat, t: Thread, offset: nat) {
    x <= t.start || offset < x
  }

  ghost predicate Flying(prog: Program, plan: Plan, l: nat, s: State, t: Thread, offset: nat, w: seq<Byte>, ex: set<nat>)
    requires Sound(prog, plan)
  {
    && FrameInv(prog, plan, s, offset)
    && l <= prog.maxLabel
    && Good(prog, plan, t, offset + 1)
    && t.start <= offset
    && (plan[t.pc].ended ==> t.end == offset || prog.code[t.pc].Finish?)
    && (t.lbl == l && t.lead && plan[t.pc].ended && t.end == offset
        ==> Ahead(Tallied(prog, plan, l, s, offset, w).bound, t, offset))
    && LocksHeld(prog, plan, l, s, offset, w, ex, Tallied(prog, plan, l, s, offset, w).bound)
    && (forall p :: p in ex ==> p < |prog.code| && plan[t.pc].rank < plan[p].rank)
  }

  ghost predicate Kept(prog: Program, plan: Plan, l: nat, s: State, s': State, t: Thread, offset: nat, w: seq<Byte>, ex: set<nat>)
    requires Sound(prog, plan) && Flying(prog, plan, l, s, t, offset, w, ex)
  {
    && FrameInv(prog, plan, s', offset)
    && Tallied(prog, plan, l, s', offset, w)
       == Settle1(prog, plan, l, Tallied(prog, plan, l, s, offset, w), t, w, offset + 1)
    && LocksHeld(prog, plan, l, s', offset, w, ex, Tallied(prog, plan, l, s', offset, w).bound)
    && Weeded(prog, l, s.rest, s'.rest, Tallied(prog, plan, l, s', offset, w).bound)
    && (s'.ends[l] == s.ends[l] || offset < s'.ends[l] || (prog.code[t.pc].Finish? && plan[t.pc].ended && t.end != offset))
  }

  lemma FlyingEnd(prog: Program, plan: Plan, l: nat, s: State, t: Thread, offset: nat, w: seq<Byte>, ex: set<nat>)
    requires Sound(prog, plan) && Flying(prog, plan, l, s, t, offset, w, ex)
    ensures var v := Value(prog, plan, l, t, w, offset + 1);
            v.Some? ==> t.start < v.value && (offset < v.value || prog.code[t.pc].Finish?)
  {
    MatchEnd(prog, plan, l, t.pc, t.lbl, t.end + 1, w, offset + 1);
  }

  /** The survivors so far count for nothing when none of them has this label or no label. */
  lemma NothingAbove(prog: Program, plan: Plan, l: nat, s: State, offset: nat, w: seq<Byte>)
    requires Sound(prog, plan) && FrameInv(prog, plan, s, offset) && l <= prog.maxLabel
    requires !LiveAbove(s, l) || s.next == []
    ensures Tallied(prog, plan, l, s, offset, w) == Tally(s.ends[l], HitsFor(s.hits, l))
  {
    SettleOthers(prog, plan, l, Tally(s.ends[l], HitsFor(s.hits, l)), s.next, w, offset + 1);
  }

  lemma PushKeeps(prog: Program, plan: Plan, l: nat, s: State, t: Thread, offset: nat, w: seq<Byte>, ex: set<nat>)
    requires Sound(prog, plan) && Flying(prog, plan, l, s, t, offset, w, ex)
    requires AtRest(prog.code[t.pc])
    ensures Kept(prog, plan, l, s, Push(s, t), t, offset, w, ex)
  {
    SettlePush(prog, plan, l, Tally(s.ends[l], HitsFor(s.hits, l)), s.next, t, w, offset + 1);
    FlyingEnd(prog, plan, l, s, t, offset, w, ex);
    var s' := Push(s, t);
    forall i | 0 <= i < |s'.next|
      ensures Survivor(prog, plan, s'.next[i], offset + 1) && LiveAbove(s', s'.next[i].lbl)
      ensures s'.next[i].lbl == NOLABEL ==> s'.liveNoLabel
    {
      if i < |s.next| {
        assert s'.next[i] == s.next[i];
      }
    }
  }

  /** A thread that counts for nothing may die. */
  lemma DropKeeps(prog: Program, plan: Plan, l: nat, s: State, t: Thread, offset: nat, w: seq<Byte>, ex: set<nat>)
    requires Sound(prog, plan) && Flying(prog, plan, l, s, t, offset, w, ex)
    requires Settle1(prog, plan, l, Tallied(prog, plan, l, s, offset, w), t, w, offset + 1)
          == Tallied(prog, plan, l, s, offset, w)
    ensures Kept(prog, plan, l, s, s, t, offset, w, ex)
  {
  }

  lemma TalliedGrows(prog: Program, plan: Plan, l: nat, s: State, offset: nat, w: seq<Byte>)
    requires Sound(prog, plan) && FrameInv(prog, plan, s, offset) && l <= prog.maxLabel
    ensures s.ends[l] <= Tallied(prog, plan, l, s, offset, w).bound
  {
    SettleGrows(prog, plan, l, Tally(s.ends[l], HitsFor(s.hits, l)), s.next, w, offset + 1);
  }

  lemma {:induction false} KillLabelWeeds(prog: Program, l: nat, ts: seq<Thread>, lbl: nat, bound: nat)
    requires 2 <= |prog.code| && lbl != NOLABEL
    requires lbl != l || forall i :: 0 <= i < |ts| ==> ts[i].start < bound
    ensures Weeded(prog, l, ts, KillLabel(ts, lbl, |prog.code| - 2), bound)
    decreases |ts|
  {
    if ts != [] {
      KillLabelWeeds(prog, l, ts[1..], lbl, bound);
      var r := KillLabel(ts, lbl, |prog.code| - 2);
      forall i | 0 < i < |ts|
        ensures ts[i] == ts[1..][i - 1] && r[i] == KillLabel(ts[1..], lbl, |prog.code| - 2)[i - 1]
      {
      }
    }
  }

  lemma {:induction false} KillStartWeeds(prog: Program, l: nat, ts: seq<Thread>, lbl: nat, start: nat, bound: nat)
    requires 2 <= |prog.code| && lbl != NOLABEL
    requires lbl != l || start < bound
    ensures Weeded(prog, l, ts, KillStart(ts, lbl, start, |prog.code| - 2), bound)
    decreases |ts|
  {
    if ts != [] && ts[0].start == start {
      KillStartWeeds(prog, l, ts[1..], lbl, start, bound);
      var r := KillStart(ts, lbl, start, |prog.code| - 2);
      forall i | 0 < i < |ts|
        ensures ts[i] == ts[1..][i - 1] && r[i] == KillStart(ts[1..], lbl, start, |prog.code| - 2)[i - 1]
      {
      }
    }
  }

  /** A finished match kills only threads that it hides. */
  lemma KillWeeds(prog: Program, plan: Plan, l: nat, s: State, t: Thread, offset: nat, w: seq<Byte>, ex: set<nat>)
    requires Sound(prog, plan) && Flying(prog, plan, l, s, t, offset, w, ex)
    requires prog.code[t.pc].Finish? && t.end == offset
    ensures Weeded(prog, l, s.rest, Kill(s.rest, t, |prog.code| - 2),
                   Settle1(prog, plan, l, Tallied(prog, plan, l, s, offset, w), t, w, offset + 1).bound)
  {
    assert WordOk(prog, plan, t.pc);
    var bound := Settle1(prog, plan, l, Tallied(prog, plan, l, s, offset, w), t, w, offset + 1).bound;
    if t.lead {
      KillLabelWeeds(prog, l, s.rest, t.lbl, bound);
    } else {
      KillStartWeeds(prog, l, s.rest, t.lbl, t.start, bound);
    }
  }

  lemma FinishKeeps(prog: Program, plan: Plan, l: nat, s: State, t: Thread, offset: nat, w: seq<Byte>, ex: set<nat>)
    requires Sound(prog, plan) && Flying(prog, plan, l, s, t, offset, w, ex)
    requires prog.code[t.pc].Finish?
    ensures t.lbl < |s.ends| && Kept(prog, plan, l, s, FinishStep(prog, s, t, offset), t, offset, w, ex)
  {
    assert WordOk(prog, plan, t.pc);
    var s1 := if t.end == offset then s.(rest := Kill(s.rest, t, |prog.code| - 2)) else s;
    var after := Settle1(prog, plan, l, Tallied(prog, plan, l, s, offset, w), t, w, offset + 1);
    if t.end == offset {
      KillWeeds(prog, plan, l, s, t, offset, w, ex);
    }
    assert Weeded(prog, l, s.rest, s1.rest, after.bound);
    assert FrameInv(prog, plan, s1, offset);
    assert Tallied(prog, plan, l, s1, offset, w) == Tallied(prog, plan, l, s, offset, w);
    assert Flying(prog, plan, l, s1, t, offset, w, ex);
    if LiveAbove(s1, t.lbl) {
      PushKeeps(prog, plan, l, s1, t, offset, w, ex);
    } else {
      ReportKeeps(prog, plan, l, s1, t, offset, w, ex);
    }
    var s' := FinishStep(prog, s, t, offset);
    assert s'.rest == s1.rest;
  }

  /** A report leaves the invariant, and what the other labels are worth. */
  lemma ReportInv(prog: Program, plan: Plan, s: State, t: Thread, offset: nat)
    requires |plan| == |prog.code| && FrameInv(prog, plan, s, offset) && t.lbl < |s.ends|
    ensures FrameInv(prog, plan, Report(s, t), offset)
  {
  }

  lemma ReportTally(prog: Program, plan: Plan, l: nat, s: State, t: Thread, offset: nat, w: seq<Byte>)
    requires Sound(prog, plan) && l <= prog.maxLabel && FrameInv(prog, plan, s, offset)
    requires t.pc < |prog.code| && prog.code[t.pc].Finish? && t.lbl < |s.ends| && !LiveAbove(s, t.lbl)
    requires FrameInv(prog, plan, Report(s, t), offset)
    ensures Tallied(prog, plan, l, Report(s, t), offset, w)
         == Settle1(prog, plan, l, Tallied(prog, plan, l, s, offset, w), t, w, offset + 1)
  {
    var h := Hit(t.start, t.end + 1, t.lbl);
    HitsForPush(s.hits, h, l);
    if t.lbl == l {
      NothingAbove(prog, plan, l, s, offset, w);
      NothingAbove(prog, plan, l, Report(s, t), offset, w);
      assert Value(prog, plan, l, t, w, offset + 1) == Some(t.end + 1);
    } else {
      assert Value(prog, plan, l, t, w, offset + 1) == None;
      assert Report(s, t).ends[l] == s.ends[l] && HitsFor(Report(s, t).hits, l) == HitsFor(s.hits, l);
    }
  }

  lemma ReportKeeps(prog: Program, plan: Plan, l: nat, s: State, t: Thread, offset: nat, w: seq<Byte>, ex: set<nat>)
    requires Sound(prog, plan) && Flying(prog, plan, l, s, t, offset, w, ex)
    requires prog.code[t.pc].Finish? && !LiveAbove(s, t.lbl)
    ensures t.lbl < |s.ends| && Kept(prog, plan, l, s, Report(s, t), t, offset, w, ex)
  {
    assert WordOk(prog, plan, t.pc);
    ReportInv(prog, plan, s, t, offset);
    ReportTally(prog, plan, l, s, t, offset, w);
    FlyingEnd(prog, plan, l, s, t, offset, w, ex);
  }

  /** A thread at a lock that another holds may die. */
  lemma LockedKeeps(prog: Program, plan: Plan, l: nat, s: State, t: Thread, offset: nat, w: seq<Byte>, ex: set<nat>)
    requires Sound(prog, plan) && Flying(prog, plan, l, s, t, offset, w, ex)
    requires prog.code[t.pc].CheckHalt? && prog.code[t.pc].index in s.locks
    ensures Kept(prog, plan, l, s, s, t, offset, w, ex)
  {
    assert WordOk(prog, plan, t.pc);
    var bound := Tallied(prog, plan, l, s, offset, w).bound;
    assert Held(prog, plan, l, t.pc, offset, w, bound);
    assert t.lbl == LabelAt(plan[t.pc].kind);
    if t.lbl == NOLABEL || t.lbl == l {
      EndIrrelevant(prog, plan, l, t.pc + 1, t.lbl, 0, t.end + 1, w, offset + 1);
    } else {
      OtherLabel(prog, plan, l, t.pc, t.lbl, t.end + 1, w, offset + 1);
    }
    DropKeeps(prog, plan, l, s, t, offset, w, ex);
  }

  /** The lock taken by a thread that nothing live supersedes holds once that thread has been run. */
  lemma NewLockHeld(prog: Program, plan: Plan, l: nat, s: State, t: Thread, offset: nat, w: seq<Byte>, ex: set<nat>)
    requires Sound(prog, plan) && Flying(prog, plan, l, s, t, offset, w, ex)
    requires prog.code[t.pc].CheckHalt? && !LiveCheck(s, t.start, t.lbl)
    requires t.lbl == l ==> Ahead(s.ends[l], t, offset)
    ensures Held(prog, plan, l, t.pc, offset, w,
                 Settle1(prog, plan, l, Tallied(prog, plan, l, s, offset, w), t, w, offset + 1).bound)
  {
    assert WordOk(prog, plan, t.pc);
    if t.lbl == NOLABEL || t.lbl == l {
      NothingAbove(prog, plan, l, s, offset, w);
      EndIrrelevant(prog, plan, l, t.pc + 1, t.lbl, 0, t.end + 1, w, offset + 1);
      FlyingEnd(prog, plan, l, s, t, offset, w, ex);
    }
  }

  lemma ForkKeeps(prog: Program, plan: Plan, l: nat, s: State, s1: State, s2: State, t: Thread, offset: nat, w: seq<Byte>, ex: set<nat>)
    requires Sound(prog, plan) && Flying(prog, plan, l, s, t, offset, w, ex) && prog.code[t.pc].Fork?
    requires t.pc + 2 < |prog.code| && prog.code[t.pc].target < |prog.code|
    requires Flying(prog, plan, l, s, t.(pc := t.pc + 2), offset, w, ex)
    requires Kept(prog, plan, l, s, s1, t.(pc := t.pc + 2), offset, w, ex)
    requires Flying(prog, plan, l, s1, t.(pc := prog.code[t.pc].target), offset, w, ex)
    requires Kept(prog, plan, l, s1, s2, t.(pc := prog.code[t.pc].target), offset, w, ex)
    ensures Kept(prog, plan, l, s, s2, t, offset, w, ex)
  {
    assert WordOk(prog, plan, t.pc);
    var t1, t2 := t.(pc := t.pc + 2), t.(pc := prog.code[t.pc].target);
    assert WordOk(prog, plan, t1.pc) && WordOk(prog, plan, t2.pc);
    FlyingEnd(prog, plan, l, s, t1, offset, w, ex);
    FlyingEnd(prog, plan, l, s1, t2, offset, w, ex);
    var b1 := Tallied(prog, plan, l, s1, offset, w).bound;
    var b2 := Tallied(prog, plan, l, s2, offset, w).bound;
    WeededTrans(prog, l, s.rest, s1.rest, s2.rest, b1, b2);
  }

  lemma {:induction false} EpSequenceKeeps(prog: Program, plan: Plan, l: nat, s: State, t: Thread, offset: nat, w: seq<Byte>, ex: set<nat>)
    requires Sound(prog, plan) && Flying(prog, plan, l, s, t, offset, w, ex)
    ensures Kept(prog, plan, l, s, EpSequence(prog, plan, s, t, offset), t, offset, w, ex)
    decreases plan[t.pc].rank, 2
  {
    if t.lbl != NOLABEL && t.start < s.ends[t.lbl] {
      if t.lbl == l {
        TalliedGrows(prog, plan, l, s, offset, w);
      } else {
        OtherLabel(prog, plan, l, t.pc, t.lbl, t.end + 1, w, offset + 1);
      }
      DropKeeps(prog, plan, l, s, t, offset, w, ex);
    } else {
      EpsilonsKeep(prog, plan, l, s, t, offset, w, ex);
    }
  }

  lemma {:induction false} ForkCase(prog: Program, plan: Plan, l: nat, s: State, t: Thread, offset: nat, w: seq<Byte>, ex: set<nat>)
    requires Sound(prog, plan) && Flying(prog, plan, l, s, t, offset, w, ex)
    requires t.lbl == l ==> Ahead(s.ends[l], t, offset)
    requires prog.code[t.pc].Fork?
    ensures Kept(prog, plan, l, s, Epsilons(prog, plan, s, t, offset), t, offset, w, ex)
    decreases plan[t.pc].rank, 0
  {
    hide *;
    ForkThreads(prog, plan, l, s, t, offset, w, ex);
    var t1, t2 := t.(pc := t.pc + 2), t.(pc := prog.code[t.pc].target);
    EpSequenceKeeps(prog, plan, l, s, t1, offset, w, ex);
    var s1 := EpSequence(prog, plan, s, t1, offset);
    ForkChild(prog, plan, l, s, s1, t, offset, w, ex);
    EpsilonsKeep(prog, plan, l, s1, t2, offset, w, ex);
    ForkKeeps(prog, plan, l, s, s1, Epsilons(prog, plan, s1, t2, offset), t, offset, w, ex);
    EpsilonsFork(prog, plan, s, t, offset);
  }

  /** The parent goes on from the next word, before the child jumps. */
  lemma ForkThreads(prog: Program, plan: Plan, l: nat, s: State, t: Thread, offset: nat, w: seq<Byte>, ex: set<nat>)
    requires Sound(prog, plan) && Flying(prog, plan, l, s, t, offset, w, ex) && prog.code[t.pc].Fork?
    ensures t.pc < |prog.code| && t.pc + 2 < |prog.code| && prog.code[t.pc].target < |prog.code|
    ensures 0 <= plan[t.pc + 2].rank < plan[t.pc].rank && 0 <= plan[prog.code[t.pc].target].rank < plan[t.pc].rank
    ensures Flying(prog, plan, l, s, t.(pc := t.pc + 2), offset, w, ex)
    ensures Labels(prog, s, t) && Fits(plan[t.pc].kind, t.lbl)
    ensures Labels(prog, s, t.(pc := t.pc + 2)) && Fits(plan[t.pc + 2].kind, t.lbl)
    ensures |s.ends| == prog.maxLabel + 1 && l <= prog.maxLabel
  {
    hide LocksHeld, Weeded;
    assert WordOk(prog, plan, t.pc);
    var t1 := t.(pc := t.pc + 2);
    assert WordOk(prog, plan, t1.pc);
  }

  /** And the child flies where the parent has left off. */
  lemma ForkChild(prog: Program, plan: Plan, l: nat, s: State, s1: State, t: Thread, offset: nat, w: seq<Byte>, ex: set<nat>)
    requires Sound(prog, plan) && Flying(prog, plan, l, s, t, offset, w, ex) && prog.code[t.pc].Fork?
    requires t.lbl == l ==> l < |s.ends| && Ahead(s.ends[l], t, offset)
    requires t.pc + 2 < |prog.code| && prog.code[t.pc].target < |prog.code|
    requires Flying(prog, plan, l, s, t.(pc := t.pc + 2), offset, w, ex)
    requires Kept(prog, plan, l, s, s1, t.(pc := t.pc + 2), offset, w, ex)
    ensures Flying(prog, plan, l, s1, t.(pc := prog.code[t.pc].target), offset, w, ex)
    ensures Labels(prog, s1, t.(pc := prog.code[t.pc].target)) && Fits(plan[prog.code[t.pc].target].kind, t.lbl)
    ensures t.lbl == l ==> l < |s1.ends| && Ahead(s1.ends[l], t.(pc := prog.code[t.pc].target), offset)
  {
    hide LocksHeld, Weeded;
    assert WordOk(prog, plan, t.pc);
    var t1, t2 := t.(pc := t.pc + 2), t.(pc := prog.code[t.pc].target);
    assert WordOk(prog, plan, t1.pc) && WordOk(prog, plan, t2.pc);
    FlyingEnd(prog, plan, l, s, t1, offset, w, ex);
  }

  lemma EpsilonsFork(prog: Program, plan: Plan, s: State, t: Thread, offset: nat)
    requires Sound(prog, plan) && t.pc < |prog.code| && Labels(prog, s, t) && Fits(plan[t.pc].kind, t.lbl) && prog.code[t.pc].Fork?
    ensures WordOk(prog, plan, t.pc)
    ensures Epsilons(prog, plan, s, t, offset)
         == Epsilons(prog, plan, EpSequence(prog, plan, s, t.(pc := t.pc + 2), offset), t.(pc := prog.code[t.pc].target), offset)
  {
    assert WordOk(prog, plan, t.pc);
    hide EpSequence;
  }

  function Locked(s: State, index: nat): State {
    s.(locks := s.locks + {index})
  }

  lemma LockTaken(prog: Program, plan: Plan, l: nat, s: State, t: Thread, offset: nat, w: seq<Byte>, ex: set<nat>)
    requires Sound(prog, plan) && Flying(prog, plan, l, s, t, offset, w, ex)
    requires prog.code[t.pc].CheckHalt?
    ensures t.pc + 1 < |prog.code|
    ensures Flying(prog, plan, l, Locked(s, prog.code[t.pc].index), t.(pc := t.pc + 1), offset, w, ex + {t.pc})
  {
    assert WordOk(prog, plan, t.pc);
    var s1 := Locked(s, prog.code[t.pc].index);
    assert Tallied(prog, plan, l, s1, offset, w) == Tallied(prog, plan, l, s, offset, w);
    forall p: nat | p < |prog.code| && prog.code[p].CheckHalt? && prog.code[p].index in s1.locks && p !in ex + {t.pc}
      ensures Held(prog, plan, l, p, offset, w, Tallied(prog, plan, l, s1, offset, w).bound)
    {
      assert prog.code[p] != prog.code[t.pc];
    }
  }

  lemma LockReleasedInto(prog: Program, plan: Plan, l: nat, s: State, s2: State, t: Thread, offset: nat, w: seq<Byte>, ex: set<nat>)
    requires Sound(prog, plan) && Flying(prog, plan, l, s, t, offset, w, ex)
    requires prog.code[t.pc].CheckHalt? && t.pc + 1 < |prog.code|
    requires Flying(prog, plan, l, Locked(s, prog.code[t.pc].index), t.(pc := t.pc + 1), offset, w, ex + {t.pc})
    requires Kept(prog, plan, l, Locked(s, prog.code[t.pc].index), s2, t.(pc := t.pc + 1), offset, w, ex + {t.pc})
    requires Held(prog, plan, l, t.pc, offset, w,
                  Settle1(prog, plan, l, Tallied(prog, plan, l, s, offset, w), t, w, offset + 1).bound)
    ensures Kept(prog, plan, l, s, s2, t, offset, w, ex)
  {
    assert WordOk(prog, plan, t.pc);
    var s1 := Locked(s, prog.code[t.pc].index);
    assert Tallied(prog, plan, l, s1, offset, w) == Tallied(prog, plan, l, s, offset, w);
    forall p: nat | p < |prog.code| && prog.code[p].CheckHalt? && prog.code[p].index in s2.locks && p !in ex
      ensures Held(prog, plan, l, p, offset, w, Tallied(prog, plan, l, s2, offset, w).bound)
    {
      assert p != t.pc ==> p !in ex + {t.pc};
    }
  }

  lemma {:induction false} CheckHaltCase(prog: Program, plan: Plan, l: nat, s: State, t: Thread, offset: nat, w: seq<Byte>, ex: set<nat>)
    requires Sound(prog, plan) && Flying(prog, plan, l, s, t, offset, w, ex)
    requires t.lbl == l ==> Ahead(s.ends[l], t, offset)
    requires prog.code[t.pc].CheckHalt? && prog.code[t.pc].index !in s.locks
    ensures Kept(prog, plan, l, s, Epsilons(prog, plan, s, t, offset), t, offset, w, ex)
    decreases plan[t.pc].rank, 0
  {
    assert WordOk(prog, plan, t.pc);
    var t' := t.(pc := t.pc + 1);
    if LiveCheck(s, t.start, t.lbl) {
      EpsilonsKeep(prog, plan, l, s, t', offset, w, ex);
    } else {
      LockTaken(prog, plan, l, s, t, offset, w, ex);
      var s1 := Locked(s, prog.code[t.pc].index);
      EpsilonsKeep(prog, plan, l, s1, t', offset, w, ex + {t.pc});
      NewLockHeld(prog, plan, l, s, t, offset, w, ex);
      LockReleasedInto(prog, plan, l, s, Epsilons(prog, plan, s1, t', offset), t, offset, w, ex);
    }
  }

  lemma {:induction false} LabelCase(prog: Program, plan: Plan, l: nat, s: State, t: Thread, offset: nat, w: seq<Byte>, ex: set<nat>)
    requires Sound(prog, plan) && Flying(prog, plan, l, s, t, offset, w, ex)
    requires t.lbl == l ==> Ahead(s.ends[l], t, offset)
    requires prog.code[t.pc].Label?
    ensures Kept(prog, plan, l, s, Epsilons(prog, plan, s, t, offset), t, offset, w, ex)
    decreases plan[t.pc].rank, 0
  {
    assert WordOk(prog, plan, t.pc);
    var i := prog.code[t.pc];
    if t.start >= s.ends[i.lbl] {
      EpsilonsKeep(prog, plan, l, s, t.(lbl := i.lbl, pc := t.pc + 1), offset, w, ex);
    } else {
      if i.lbl == l {
        TalliedGrows(prog, plan, l, s, offset, w);
      } else {
        OtherLabel(prog, plan, l, t.pc + 1, i.lbl, t.end + 1, w, offset + 1);
      }
      DropKeeps(prog, plan, l, s, t, offset, w, ex);
    }
  }

  lemma {:induction false} MatchCase(prog: Program, plan: Plan, l: nat, s: State, t: Thread, offset: nat, w: seq<Byte>, ex: set<nat>)
    requires Sound(prog, plan) && Flying(prog, plan, l, s, t, offset, w, ex)
    requires t.lbl == l ==> Ahead(s.ends[l], t, offset)
    requires prog.code[t.pc].Match?
    ensures Kept(prog, plan, l, s, Epsilons(prog, plan, s, t, offset), t, offset, w, ex)
    decreases plan[t.pc].rank, 0
  {
    assert WordOk(prog, plan, t.pc);
    if !LiveAbove(s, t.lbl) && t.lbl == l {
      NothingAbove(prog, plan, l, s, offset, w);
    }
    EpsilonsKeep(prog, plan, l, s, t.(end := offset, pc := t.pc + 1, lead := !LiveAbove(s, t.lbl)), offset, w, ex);
  }

  lemma {:induction false} EpsilonsKeep(prog: Program, plan: Plan, l: nat, s: State, t: Thread, offset: nat, w: seq<Byte>, ex: set<nat>)
    requires Sound(prog, plan) && Flying(prog, plan, l, s, t, offset, w, ex)
    requires t.lbl == l ==> Ahead(s.ends[l], t, offset)
    ensures Kept(prog, plan, l, s, Epsilons(prog, plan, s, t, offset), t, offset, w, ex)
    decreases plan[t.pc].rank, 1
  {
    assert WordOk(prog, plan, t.pc);
    var i := prog.code[t.pc];
    if i.Finish? {
      FinishKeeps(prog, plan, l, s, t, offset, w, ex);
    } else if i.Fork? {
      ForkCase(prog, plan, l, s, t, offset, w, ex);
    } else if i.Jump? {
      EpsilonsKeep(prog, plan, l, s, t.(pc := i.target), offset, w, ex);
    } else if i.CheckHalt? {
      if i.index in s.locks {
        LockedKeeps(prog, plan, l, s, t, offset, w, ex);
      } else {
        CheckHaltCase(prog, plan, l, s, t, offset, w, ex);
      }
    } else if i.Label? {
      LabelCase(prog, plan, l, s, t, offset, w, ex);
    } else if i.Match? {
      MatchCase(prog, plan, l, s, t, offset, w, ex);
    } else if i.Halt? {
      DropKeeps(prog, plan, l, s, t, offset, w, ex);
    } else {
      PushKeeps(prog, plan, l, s, t, offset, w, ex);
    }
  }
}
