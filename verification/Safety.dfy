/**
 What holds in every run of search, searchResolve and closeOut, whatever the
 filter: the threads stay sorted by start, the first of them is still reading,
 and every hit is the end of a path of the program over the bytes it covers,
 apart from the other hits of its label.
 */
module Safety {
  import opened Basics
  import opened Bytecode
  import opened Frames
  import opened Settling
  import opened Priority
  import opened Searching

  // ----- the language of a program -----

  /** From pc, some path reads exactly u and then passes a MATCH under label l. */
  ghost predicate Accepts(prog: Program, plan: Plan, l: nat, pc: nat, lab: nat, u: seq<Byte>)
    requires Sound(prog, plan) && pc < |prog.code|
    decreases |u|, plan[pc].rank
  {
    assert WordOk(prog, plan, pc);
    var i := prog.code[pc];
    if i.Finish? || i.Halt? then false
    else if i.Fork? then Accepts(prog, plan, l, pc + 2, lab, u) || Accepts(prog, plan, l, i.target, lab, u)
    else if i.Jump? then Accepts(prog, plan, l, i.target, lab, u)
    else if i.CheckHalt? then Accepts(prog, plan, l, pc + 1, lab, u)
    else if i.Label? then Accepts(prog, plan, l, pc + 1, i.lbl, u)
    else if i.Match? then (u == [] && lab == l) || Accepts(prog, plan, l, pc + 1, lab, u)
    else if u == [] then false
    else
      var q := ByteStep(prog.code, pc, u[0]);
      q.Some? && Accepts(prog, plan, l, q.value, lab, u[1..])
  }

  /** Some path from the entry spells u and ends in a match of pattern l. */
  ghost predicate Spells(prog: Program, plan: Plan, l: nat, u: seq<Byte>)
    requires Sound(prog, plan)
  {
    Accepts(prog, plan, l, 0, NOLABEL, u)
  }

  /** The match that backtracking finds is spelled by the bytes up to its end, unless it was made before. */
  lemma {:induction false} BacktrackSpells(prog: Program, plan: Plan, l: nat, pc: nat, lab: nat, end: nat, w: seq<Byte>, pos: nat)
    requires Sound(prog, plan) && pc < |prog.code|
    ensures var r := Backtrack(prog, plan, l, pc, lab, end, w, pos);
            r.Some? ==> || (plan[pc].ended && r.value == end && lab == l)
                        || (pos <= r.value <= pos + |w| && Accepts(prog, plan, l, pc, lab, w[..r.value - pos]))
    decreases |w|, plan[pc].rank
  {
    assert WordOk(prog, plan, pc);
    var i := prog.code[pc];
    var r := Backtrack(prog, plan, l, pc, lab, end, w, pos);
    if i.Fork? {
      BacktrackSpells(prog, plan, l, pc + 2, lab, end, w, pos);
      BacktrackSpells(prog, plan, l, i.target, lab, end, w, pos);
    } else if i.Jump? {
      BacktrackSpells(prog, plan, l, i.target, lab, end, w, pos);
    } else if i.CheckHalt? {
      BacktrackSpells(prog, plan, l, pc + 1, lab, end, w, pos);
    } else if i.Label? {
      BacktrackSpells(prog, plan, l, pc + 1, i.lbl, end, w, pos);
    } else if i.Match? {
      BacktrackSpells(prog, plan, l, pc + 1, lab, pos, w, pos);
    } else if !i.Finish? && !i.Halt? && w != [] {
      var q := ByteStep(prog.code, pc, w[0]);
      ByteStepFlows(prog, plan, pc, w[0]);
      if q.Some? {
        BacktrackSpells(prog, plan, l, q.value, lab, end, w[1..], pos + 1);
        if r.Some? {
          assert w[..r.value - pos][1..] == w[1..][..r.value - (pos + 1)];
        }
      }
    }
  }

  // ----- what is known of a thread and of the hits -----

  /** What the thread has read since its start, u, begins a path that reaches it. */
  ghost predicate Traced(prog: Program, plan: Plan, t: Thread, u: seq<Byte>)
    requires Sound(prog, plan) && t.pc < |prog.code|
  {
    forall l: nat, v: seq<Byte> :: Accepts(prog, plan, l, t.pc, t.lbl, v) ==> Spells(prog, plan, l, u + v)
  }

  /** The bytes of text from offset a up to b, where text begins at the offset base. */
  function Slice(text: seq<Byte>, base: nat, a: nat, b: nat): seq<Byte>
    requires base <= a <= b <= base + |text|
  {
    text[a - base..b - base]
  }

  /** A thread that has read all of text from its start on; if it has matched, it matched a path. */
  ghost predicate OnPath(prog: Program, plan: Plan, t: Thread, text: seq<Byte>, base: nat)
    requires Sound(prog, plan)
  {
    && t.pc < |prog.code|
    && base <= t.start <= base + |text|
    && (prog.code[t.pc].Finish? || Traced(prog, plan, t, Slice(text, base, t.start, base + |text|)))
    && (plan[t.pc].ended ==> t.start <= t.end < base + |text|
                             && Spells(prog, plan, t.lbl, Slice(text, base, t.start, t.end + 1)))
  }

  ghost predicate HitsSound(prog: Program, plan: Plan, hits: seq<Hit>, ends: seq<nat>, text: seq<Byte>, base: nat)
    requires Sound(prog, plan)
  {
    && (forall i :: 0 <= i < |hits| ==>
          && hits[i].lbl < |ends|
          && base <= hits[i].start < hits[i].end <= base + |text|
          && hits[i].end <= ends[hits[i].lbl]
          && Spells(prog, plan, hits[i].lbl, Slice(text, base, hits[i].start, hits[i].end)))
    && (forall i, j :: 0 <= i < j < |hits| && hits[i].lbl == hits[j].lbl ==> hits[i].end <= hits[j].start)
  }

  ghost predicate Sorted(ts: seq<Thread>) {
    forall i, j :: 0 <= i < j < |ts| ==> ts[i].start <= ts[j].start
  }

  ghost predicate AllFrom(ts: seq<Thread>, from: nat) {
    forall i :: 0 <= i < |ts| ==> from <= ts[i].start
  }

  ghost predicate AllUpTo(ts: seq<Thread>, upTo: nat) {
    forall i :: 0 <= i < |ts| ==> ts[i].start <= upTo
  }

  /** The threads that have survived the frame that read the last byte of text. */
  ghost predicate NextSafe(prog: Program, plan: Plan, s: State, text: seq<Byte>, base: nat)
    requires Sound(prog, plan)
  {
    && (forall i :: 0 <= i < |s.next| ==>
          OnPath(prog, plan, s.next[i], text, base) && Survivor(prog, plan, s.next[i], base + |text|))
    && Sorted(s.next)
    && (s.next != [] ==> !prog.code[s.next[0].pc].Finish?)
    && (s.liveNoLabel || s.live != {} ==> s.next != [])
  }

  /** In the middle of the frame of the last byte of text; the rest has not read it. */
  ghost predicate MidSafe(prog: Program, plan: Plan, s: State, text: seq<Byte>, base: nat)
    requires Sound(prog, plan) && text != []
  {
    && |s.ends| == prog.maxLabel + 1
    && NextSafe(prog, plan, s, text, base)
    && Sorted(s.rest)
    && (forall i :: 0 <= i < |s.rest| ==> Waits(prog, plan, s.rest[i], text[..|text| - 1], base))
    && HitsSound(prog, plan, s.hits, s.ends, text, base)
  }

  /** An active thread that has read text, or one killed since. */
  ghost predicate Waits(prog: Program, plan: Plan, t: Thread, text: seq<Byte>, base: nat)
    requires Sound(prog, plan)
  {
    && Queued(prog, plan, t, base + |text|)
    && (prog.code[t.pc].Halt? || OnPath(prog, plan, t, text, base))
  }

  /** The hits are the earlier ones and then some that start at a. */
  ghost predicate NewHitsAt(earlier: seq<Hit>, hits: seq<Hit>, a: nat) {
    earlier <= hits && forall i :: |earlier| <= i < |hits| ==> hits[i].start == a
  }

  // ----- every step keeps it -----

  ghost predicate Killed(prog: Program, a: seq<Thread>, b: seq<Thread>)
    requires 2 <= |prog.code|
  {
    |a| == |b| && forall i :: 0 <= i < |a| ==> b[i] == a[i] || b[i] == a[i].(pc := |prog.code| - 2)
  }

  lemma {:induction false} KillKills(prog: Program, ts: seq<Thread>, t: Thread)
    requires 2 <= |prog.code|
    ensures Killed(prog, ts, Kill(ts, t, |prog.code| - 2))
    decreases |ts|
  {
    if ts != [] {
      KillKills(prog, ts[1..], t);
      var r := Kill(ts, t, |prog.code| - 2);
      if t.lead || ts[0].start == t.start {
        assert r[1..] == Kill(ts[1..], t, |prog.code| - 2);
        forall i | 0 <= i < |ts| ensures r[i] == ts[i] || r[i] == ts[i].(pc := |prog.code| - 2) {
          if i > 0 {
            assert r[i] == r[1..][i - 1] && ts[i] == ts[1..][i - 1];
          }
        }
      }
    }
  }

  /** A thread on its epsilon steps: older survivors started no later, waiting threads no earlier. */
  ghost predicate FlightSafe(prog: Program, plan: Plan, s: State, t: Thread, text: seq<Byte>, base: nat)
    requires Sound(prog, plan) && text != []
  {
    && MidSafe(prog, plan, s, text, base)
    && Good(prog, plan, t, base + |text|)
    && OnPath(prog, plan, t, text, base)
    && t.start < base + |text|
    && AllUpTo(s.next, t.start)
    && AllFrom(s.rest, t.start)
  }

  ghost predicate StepSafe(prog: Program, plan: Plan, s: State, s': State, t: Thread, text: seq<Byte>, base: nat)
    requires Sound(prog, plan) && text != []
  {
    && MidSafe(prog, plan, s', text, base)
    && AllUpTo(s'.next, t.start)
    && AllFrom(s'.rest, t.start)
    && NewHitsAt(s.hits, s'.hits, t.start)
  }

  lemma PushSafe(prog: Program, plan: Plan, s: State, t: Thread, text: seq<Byte>, base: nat)
    requires Sound(prog, plan) && text != [] && FlightSafe(prog, plan, s, t, text, base)
    requires AtRest(prog.code[t.pc]) && (prog.code[t.pc].Finish? ==> s.next != [])
    ensures StepSafe(prog, plan, s, Push(s, t), t, text, base)
  {
    var s' := Push(s, t);
    forall i | 0 <= i < |s'.next|
      ensures OnPath(prog, plan, s'.next[i], text, base) && Survivor(prog, plan, s'.next[i], base + |text|)
    {
      if i < |s.next| {
        assert s'.next[i] == s.next[i];
      }
    }
  }

  lemma ReportSafe(prog: Program, plan: Plan, s: State, t: Thread, text: seq<Byte>, base: nat)
    requires Sound(prog, plan) && text != [] && FlightSafe(prog, plan, s, t, text, base)
    requires prog.code[t.pc].Finish?
    ensures t.lbl < |s.ends| && StepSafe(prog, plan, s, Report(s, t), t, text, base)
  {
    assert WordOk(prog, plan, t.pc);
    HitSound(prog, plan, s.hits, s.ends, t, text, base);
  }

  /** One more hit, of a matched thread that the last hit of its label does not cover. */
  lemma HitSound(prog: Program, plan: Plan, hits: seq<Hit>, ends: seq<nat>, t: Thread, text: seq<Byte>, base: nat)
    requires Sound(prog, plan) && HitsSound(prog, plan, hits, ends, text, base)
    requires t.lbl < |ends| && t.pc < |prog.code| && plan[t.pc].ended && OnPath(prog, plan, t, text, base)
    ensures ends[t.lbl] <= t.start ==>
              HitsSound(prog, plan, hits + [Hit(t.start, t.end + 1, t.lbl)], ends[t.lbl := t.end + 1], text, base)
  {
    if ends[t.lbl] <= t.start {
      var hits' := hits + [Hit(t.start, t.end + 1, t.lbl)];
      forall i | 0 <= i < |hits'|
        ensures hits'[i].end <= ends[t.lbl := t.end + 1][hits'[i].lbl]
      {
        if i < |hits| {
          assert hits'[i] == hits[i];
        }
      }
    }
  }

  lemma KilledSafe(prog: Program, plan: Plan, s: State, s1: State, t: Thread, text: seq<Byte>, base: nat)
    requires Sound(prog, plan) && text != [] && FlightSafe(prog, plan, s, t, text, base)
    requires s1 == s.(rest := s1.rest) && (s1.rest == s.rest || Killed(prog, s.rest, s1.rest))
    ensures FlightSafe(prog, plan, s1, t, text, base)
  {
    hide HitsSound, OnPath, Good;
    forall i | 0 <= i < |s1.rest| ensures Waits(prog, plan, s1.rest[i], text[..|text| - 1], base) {
      assert Waits(prog, plan, s.rest[i], text[..|text| - 1], base);
    }
  }

  lemma FinishSafe(prog: Program, plan: Plan, s: State, t: Thread, offset: nat, text: seq<Byte>, base: nat)
    requires Sound(prog, plan) && text != [] && FlightSafe(prog, plan, s, t, text, base)
    requires prog.code[t.pc].Finish?
    ensures t.lbl < |s.ends| && StepSafe(prog, plan, s, FinishStep(prog, s, t, offset), t, text, base)
  {
    assert WordOk(prog, plan, t.pc);
    KillKills(prog, s.rest, t);
    var s1 := if t.end == offset then s.(rest := Kill(s.rest, t, |prog.code| - 2)) else s;
    hide MidSafe, Killed;
    KilledSafe(prog, plan, s, s1, t, text, base);
    if LiveAbove(s1, t.lbl) {
      PushSafe(prog, plan, s1, t, text, base);
    } else {
      ReportSafe(prog, plan, s1, t, text, base);
    }
  }

  /** An epsilon step stays on the path. */
  lemma StepOnPath(prog: Program, plan: Plan, t: Thread, q: nat, text: seq<Byte>, base: nat)
    requires Sound(prog, plan) && t.pc < |prog.code| && OnPath(prog, plan, t, text, base)
    requires q < |prog.code| && (plan[q].ended ==> plan[t.pc].ended)
    requires !prog.code[t.pc].Finish?
    requires forall l: nat, v: seq<Byte> :: Accepts(prog, plan, l, q, t.lbl, v) ==> Accepts(prog, plan, l, t.pc, t.lbl, v)
    ensures OnPath(prog, plan, t.(pc := q), text, base)
  {
  }

  lemma {:induction false} EpSequenceSafe(prog: Program, plan: Plan, s: State, t: Thread, offset: nat, text: seq<Byte>, base: nat)
    requires Sound(prog, plan) && text != [] && FlightSafe(prog, plan, s, t, text, base) && offset + 1 == base + |text|
    ensures StepSafe(prog, plan, s, EpSequence(prog, plan, s, t, offset), t, text, base)
    decreases plan[t.pc].rank, 2
  {
    if !(t.lbl != NOLABEL && t.start < s.ends[t.lbl]) {
      EpsilonsSafe(prog, plan, s, t, offset, text, base);
    }
  }

  lemma {:induction false} ForkSafe(prog: Program, plan: Plan, s: State, t: Thread, offset: nat, text: seq<Byte>, base: nat)
    requires Sound(prog, plan) && text != [] && FlightSafe(prog, plan, s, t, text, base) && offset + 1 == base + |text|
    requires prog.code[t.pc].Fork?
    ensures StepSafe(prog, plan, s, Epsilons(prog, plan, s, t, offset), t, text, base)
    decreases plan[t.pc].rank, 0
  {
    hide MidSafe;
    assert WordOk(prog, plan, t.pc);
    var q1, q2 := t.pc + 2, prog.code[t.pc].target;
    StepOnPath(prog, plan, t, q1, text, base);
    StepOnPath(prog, plan, t, q2, text, base);
    assert |s.ends| == prog.maxLabel + 1 by { MidEnds(prog, plan, s, text, base); }
    EpSequenceSafe(prog, plan, s, t.(pc := q1), offset, text, base);
    var s1 := EpSequence(prog, plan, s, t.(pc := q1), offset);
    EpsilonsSafe(prog, plan, s1, t.(pc := q2), offset, text, base);
  }

  lemma MidEnds(prog: Program, plan: Plan, s: State, text: seq<Byte>, base: nat)
    requires Sound(prog, plan) && text != [] && MidSafe(prog, plan, s, text, base)
    ensures |s.ends| == prog.maxLabel + 1
  {
  }

  lemma {:induction false} MatchSafe(prog: Program, plan: Plan, s: State, t: Thread, offset: nat, text: seq<Byte>, base: nat)
    requires Sound(prog, plan) && text != [] && FlightSafe(prog, plan, s, t, text, base) && offset + 1 == base + |text|
    requires prog.code[t.pc].Match?
    ensures StepSafe(prog, plan, s, Epsilons(prog, plan, s, t, offset), t, text, base)
    decreases plan[t.pc].rank, 0
  {
    MidEnds(prog, plan, s, text, base);
    hide MidSafe;
    assert WordOk(prog, plan, t.pc);
    assert Accepts(prog, plan, t.lbl, t.pc, t.lbl, []);
    var u := Slice(text, base, t.start, base + |text|);
    assert u + [] == u;
    var t' := t.(end := offset, pc := t.pc + 1, lead := !LiveAbove(s, t.lbl));
    EpsilonsSafe(prog, plan, s, t', offset, text, base);
  }

  lemma {:induction false} GateSafe(prog: Program, plan: Plan, s: State, t: Thread, offset: nat, text: seq<Byte>, base: nat)
    requires Sound(prog, plan) && text != [] && FlightSafe(prog, plan, s, t, text, base) && offset + 1 == base + |text|
    requires prog.code[t.pc].CheckHalt? || prog.code[t.pc].Label?
    ensures StepSafe(prog, plan, s, Epsilons(prog, plan, s, t, offset), t, text, base)
    decreases plan[t.pc].rank, 0
  {
    MidEnds(prog, plan, s, text, base);
    hide MidSafe;
    assert WordOk(prog, plan, t.pc);
    var i := prog.code[t.pc];
    if i.CheckHalt? {
      if i.index !in s.locks {
        StepOnPath(prog, plan, t, t.pc + 1, text, base);
        var s1 := if LiveCheck(s, t.start, t.lbl) then s else s.(locks := s.locks + {i.index});
        LocksSafe(prog, plan, s, s1, text, base);
        EpsilonsSafe(prog, plan, s1, t.(pc := t.pc + 1), offset, text, base);
      }
    } else if t.start >= s.ends[i.lbl] {
      EpsilonsSafe(prog, plan, s, t.(lbl := i.lbl, pc := t.pc + 1), offset, text, base);
    }
  }

  lemma {:induction false} EpsilonsSafe(prog: Program, plan: Plan, s: State, t: Thread, offset: nat, text: seq<Byte>, base: nat)
    requires Sound(prog, plan) && text != [] && FlightSafe(prog, plan, s, t, text, base) && offset + 1 == base + |text|
    ensures StepSafe(prog, plan, s, Epsilons(prog, plan, s, t, offset), t, text, base)
    decreases plan[t.pc].rank, 1
  {
    MidEnds(prog, plan, s, text, base);
    hide NextSafe, HitsSound, Waits, Sorted;
    assert WordOk(prog, plan, t.pc);
    var i := prog.code[t.pc];
    if i.Finish? {
      FinishSafe(prog, plan, s, t, offset, text, base);
    } else if i.Fork? {
      ForkSafe(prog, plan, s, t, offset, text, base);
    } else if i.Jump? {
      StepOnPath(prog, plan, t, i.target, text, base);
      EpsilonsSafe(prog, plan, s, t.(pc := i.target), offset, text, base);
    } else if i.CheckHalt? || i.Label? {
      GateSafe(prog, plan, s, t, offset, text, base);
    } else if i.Match? {
      MatchSafe(prog, plan, s, t, offset, text, base);
    } else if !i.Halt? {
      PushSafe(prog, plan, s, t, text, base);
    }
  }

  lemma LocksSafe(prog: Program, plan: Plan, s: State, s1: State, text: seq<Byte>, base: nat)
    requires Sound(prog, plan) && text != [] && MidSafe(prog, plan, s, text, base)
    requires s1 == s.(locks := s1.locks)
    ensures MidSafe(prog, plan, s1, text, base)
  {
  }
}
