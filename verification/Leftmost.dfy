/**
 What is reported for every label are the leftmost matches in turn: each hit
 starts at the least offset at or after the end of the one before at which the
 program has a match, and ends where backtracking ends it. Starts are looked for in
 the bytes that search has read; searchResolve only goes on with what has started.
 */
module Leftmost {
  import opened Basics
  import opened Bytecode
  import opened Frames
  import opened Settling
  import opened Priority
  import opened Searching
  import opened Safety
  import opened SafeRuns

  // ----- the specification -----

  /** The end of the match that backtracking prefers from the start of w, for label l. */
  ghost function Preferred(prog: Program, plan: Plan, l: nat, w: seq<Byte>, pos: nat): Option<nat>
    requires Runnable(prog, plan)
  {
    Backtrack(prog, plan, l, 0, NOLABEL, 0, w, pos)
  }

  /** The scan: try every start in turn where a match may start and that the last hit does not cover. */
  ghost function Scan(prog: Program, plan: Plan, l: nat, acc: Tally, w: seq<Byte>, may: seq<bool>, pos: nat): Tally
    requires Runnable(prog, plan) && |may| == |w|
    decreases |w|
  {
    if w == [] then acc
    else
      var v := Preferred(prog, plan, l, w, pos);
      Scan(prog, plan, l,
           if may[0] && v.Some? && acc.bound <= pos then Tally(v.value, acc.hits + [Hit(pos, v.value, l)]) else acc,
           w[1..], may[1..], pos + 1)
  }

  /** All the hits for label l in text, whose first byte is at the offset base, that start where they may. */
  ghost function ScanHits(prog: Program, plan: Plan, l: nat, text: seq<Byte>, may: seq<bool>, base: nat): seq<Hit>
    requires Runnable(prog, plan) && |may| == |text|
  {
    Scan(prog, plan, l, Tally(0, []), text, may, base).hits
  }

  // ----- threads at the start -----

  /** A fork is worth what its two sides are worth, one after the other. */
  lemma ForkSettles(prog: Program, plan: Plan, l: nat, pc: nat, acc: Tally, w: seq<Byte>, pos: nat)
    requires Sound(prog, plan) && pc < |prog.code| && Plain(prog, plan, pc) && prog.code[pc].Fork?
    ensures pc + 2 < |prog.code| && prog.code[pc].target < |prog.code|
    ensures var t := Thread(pc, NOLABEL, pos, NOEND, false);
            Settle1(prog, plan, l, acc, t, w, pos)
            == Settle1(prog, plan, l, Settle1(prog, plan, l, acc, t.(pc := pc + 2), w, pos),
                       t.(pc := prog.code[pc].target), w, pos)
  {
    assert WordOk(prog, plan, pc);
    PlainMatchEnd(prog, plan, l, pc + 2, NOEND + 1, w, pos);
  }

  lemma NewbornAppend(prog: Program, plan: Plan, l: nat, acc: Tally, a: seq<nat>, b: seq<nat>, w: seq<Byte>, pos: nat)
    requires Sound(prog, plan) && Placed(prog, Newborn(a, pos)) && Placed(prog, Newborn(b, pos))
    ensures Placed(prog, Newborn(a + b, pos))
    ensures Settle(prog, plan, l, acc, Newborn(a + b, pos), w, pos)
         == Settle(prog, plan, l, Settle(prog, plan, l, acc, Newborn(a, pos), w, pos), Newborn(b, pos), w, pos)
  {
    assert Newborn(a + b, pos) == Newborn(a, pos) + Newborn(b, pos);
    SettleAppend(prog, plan, l, acc, Newborn(a, pos), Newborn(b, pos), w, pos);
  }

  lemma {:induction false} FirstSettles(prog: Program, plan: Plan, l: nat, pc: nat, acc: Tally, w: seq<Byte>, pos: nat)
    requires Sound(prog, plan) && pc < |prog.code| && Plain(prog, plan, pc)
    ensures var ts := Newborn(FirstPcs(prog, plan, pc), pos);
            Placed(prog, ts)
            && Settle(prog, plan, l, acc, ts, w, pos)
               == Settle1(prog, plan, l, acc, Thread(pc, NOLABEL, pos, NOEND, false), w, pos)
    decreases plan[pc].rank
  {
    assert WordOk(prog, plan, pc);
    var i := prog.code[pc];
    if i.Fork? {
      var a, b := FirstPcs(prog, plan, pc + 2), FirstPcs(prog, plan, i.target);
      FirstSettles(prog, plan, l, pc + 2, acc, w, pos);
      var mid := Settle(prog, plan, l, acc, Newborn(a, pos), w, pos);
      FirstSettles(prog, plan, l, i.target, mid, w, pos);
      NewbornAppend(prog, plan, l, acc, a, b, w, pos);
      ForkSettles(prog, plan, l, pc, acc, w, pos);
    } else if i.Jump? {
      FirstSettles(prog, plan, l, i.target, acc, w, pos);
    } else {
      assert Newborn([pc], pos) == [] + [Thread(pc, NOLABEL, pos, NOEND, false)];
      SettlePush(prog, plan, l, acc, [], Thread(pc, NOLABEL, pos, NOEND, false), w, pos);
    }
  }

  /** No match is empty. */
  lemma {:induction false} PlainMatchEnd(prog: Program, plan: Plan, l: nat, pc: nat, end: nat, w: seq<Byte>, pos: nat)
    requires Sound(prog, plan) && pc < |prog.code| && Plain(prog, plan, pc)
    ensures var v := Backtrack(prog, plan, l, pc, NOLABEL, end, w, pos); v.Some? ==> w != [] && pos < v.value
    decreases plan[pc].rank
  {
    assert WordOk(prog, plan, pc);
    var i := prog.code[pc];
    if i.Fork? {
      PlainMatchEnd(prog, plan, l, pc + 2, end, w, pos);
      PlainMatchEnd(prog, plan, l, i.target, end, w, pos);
    } else if i.Jump? {
      PlainMatchEnd(prog, plan, l, i.target, end, w, pos);
    } else if w != [] {
      var q := ByteStep(prog.code, pc, w[0]);
      ByteStepFlows(prog, plan, pc, w[0]);
      if q.Some? {
        MatchEnd(prog, plan, l, q.value, NOLABEL, end, w[1..], pos + 1);
      }
    }
  }

  /** The last match does not matter to a thread that has made none. */
  lemma {:induction false} EndUnused(prog: Program, plan: Plan, l: nat, pc: nat, lab: nat, e: nat, e': nat, w: seq<Byte>, pos: nat)
    requires Sound(prog, plan) && pc < |prog.code| && !plan[pc].ended
    ensures Backtrack(prog, plan, l, pc, lab, e, w, pos) == Backtrack(prog, plan, l, pc, lab, e', w, pos)
    decreases |w|, plan[pc].rank
  {
    assert WordOk(prog, plan, pc);
    var i := prog.code[pc];
    if i.Fork? {
      EndUnused(prog, plan, l, pc + 2, lab, e, e', w, pos);
      EndUnused(prog, plan, l, i.target, lab, e, e', w, pos);
    } else if i.Jump? {
      EndUnused(prog, plan, l, i.target, lab, e, e', w, pos);
    } else if i.CheckHalt? {
      EndUnused(prog, plan, l, pc + 1, lab, e, e', w, pos);
    } else if i.Label? {
      EndUnused(prog, plan, l, pc + 1, i.lbl, e, e', w, pos);
    } else if !i.Match? && !i.Halt? && w != [] {
      var q := ByteStep(prog.code, pc, w[0]);
      ByteStepFlows(prog, plan, pc, w[0]);
      if q.Some? {
        EndUnused(prog, plan, l, q.value, lab, e, e', w[1..], pos + 1);
      }
    }
  }

  /** The threads born at an offset are worth what the scan finds there. */
  lemma NewbornSettle(prog: Program, plan: Plan, l: nat, acc: Tally, w: seq<Byte>, pos: nat)
    requires Runnable(prog, plan)
    ensures var ts := Newborn(FirstPcs(prog, plan, 0), pos);
            var v := Preferred(prog, plan, l, w, pos);
            && Placed(prog, ts)
            && Settle(prog, plan, l, acc, ts, w, pos)
               == (if v.Some? && acc.bound <= pos then Tally(v.value, acc.hits + [Hit(pos, v.value, l)]) else acc)
  {
    FirstSettles(prog, plan, l, 0, acc, w, pos);
    EndUnused(prog, plan, l, 0, NOLABEL, NOEND + 1, 0, w, pos);
  }

  // ----- frames -----

  ghost predicate Steady(prog: Program, plan: Plan, l: nat, s: State, offset: nat, w: seq<Byte>)
    requires Sound(prog, plan)
  {
    && l <= prog.maxLabel
    && FrameInv(prog, plan, s, offset)
    && LocksHeld(prog, plan, l, s, offset, w, {}, Tallied(prog, plan, l, s, offset, w).bound)
  }

  lemma FrameInvOk(prog: Program, plan: Plan, s: State, offset: nat)
    requires |plan| == |prog.code| && FrameInv(prog, plan, s, offset)
    ensures StateOk(prog, plan, s)
  {
    forall i | 0 <= i < |s.next| ensures Runs(prog, plan, s.next[i]) {
      assert Survivor(prog, plan, s.next[i], offset + 1);
    }
  }

  /** Running one queued thread moves its worth among the survivors. */
  lemma ExecuteKeeps(prog: Program, plan: Plan, l: nat, s: State, t: Thread, b: Byte, offset: nat, w: seq<Byte>)
    requires Sound(prog, plan) && Steady(prog, plan, l, s, offset, w) && Queued(prog, plan, t, offset)
    ensures var s' := ExecuteThread(prog, plan, s, t, b, offset);
            && Steady(prog, plan, l, s', offset, w)
            && Tallied(prog, plan, l, s', offset, w)
               == Settle1(prog, plan, l, Tallied(prog, plan, l, s, offset, w), t, [b] + w, offset)
            && Weeded(prog, l, s.rest, s'.rest, Tallied(prog, plan, l, s', offset, w).bound)
  {
    assert WordOk(prog, plan, t.pc);
    var q := ByteStep(prog.code, t.pc, b);
    ByteStepFlows(prog, plan, t.pc, b);
    assert ([b] + w)[1..] == w;
    if q.Some? {
      var t' := t.(pc := q.value);
      assert Value(prog, plan, l, t, [b] + w, offset) == Value(prog, plan, l, t', w, offset + 1);
      EpSequenceKeeps(prog, plan, l, s, t', offset, w, {});
    }
  }

  lemma {:induction false} RunAllKeeps(prog: Program, plan: Plan, l: nat, s: State, b: Byte, offset: nat, w: seq<Byte>)
    requires Sound(prog, plan) && Steady(prog, plan, l, s, offset, w)
    ensures Placed(prog, s.rest) && StateOk(prog, plan, s)
    ensures var s' := RunAll(prog, plan, s, b, offset);
            && Steady(prog, plan, l, s', offset, w)
            && Tallied(prog, plan, l, s', offset, w)
               == Settle(prog, plan, l, Tallied(prog, plan, l, s, offset, w), s.rest, [b] + w, offset)
    decreases |s.rest|
  {
    FrameInvOk(prog, plan, s, offset);
    if s.rest != [] {
      var t := s.rest[0];
      var s0 := s.(rest := s.rest[1..]);
      assert FrameInv(prog, plan, s0, offset);
      assert Tallied(prog, plan, l, s0, offset, w) == Tallied(prog, plan, l, s, offset, w);
      ExecuteKeeps(prog, plan, l, s0, t, b, offset, w);
      FrameInvOk(prog, plan, s0, offset);
      ExecuteThreadOk(prog, plan, s0, t, b, offset);
      var s1 := ExecuteThread(prog, plan, s0, t, b, offset);
      var acc := Tallied(prog, plan, l, s1, offset, w);
      SettleWeeded(prog, plan, l, acc, s0.rest, s1.rest, [b] + w, offset, acc.bound);
      RunAllKeeps(prog, plan, l, s1, b, offset, w);
    }
  }

  /** What is to come: the active threads, then every later start. */
  ghost function Worth(prog: Program, plan: Plan, l: nat, s: State, w: seq<Byte>, may: seq<bool>, pos: nat): Tally
    requires Runnable(prog, plan) && l < |s.ends| && Placed(prog, s.rest) && |may| == |w|
  {
    Scan(prog, plan, l, Settle(prog, plan, l, Tally(s.ends[l], HitsFor(s.hits, l)), s.rest, w, pos), w, may, pos)
  }

  /** Between frames: only the active threads, which have read every byte before pos. */
  ghost predicate Between(prog: Program, plan: Plan, s: State, pos: nat)
    requires |plan| == |prog.code|
  {
    FrameInv(prog, plan, s, pos) && s.next == [] && s.locks == {}
  }

  lemma CleanupKeeps(prog: Program, plan: Plan, l: nat, s: State, offset: nat, w: seq<Byte>)
    requires Sound(prog, plan) && l <= prog.maxLabel && FrameInv(prog, plan, s, offset)
    ensures var s' := Cleanup(s);
            && Between(prog, plan, s', offset + 1)
            && Placed(prog, s'.rest)
            && Settle(prog, plan, l, Tally(s'.ends[l], HitsFor(s'.hits, l)), s'.rest, w, offset + 1)
               == Tallied(prog, plan, l, s, offset, w)
  {
    forall i | 0 <= i < |s.next| ensures Queued(prog, plan, s.next[i], offset + 1) {
      assert Survivor(prog, plan, s.next[i], offset + 1);
    }
  }

  /** The threads born at an offset may be run with the survivors of the older ones in place. */
  lemma BirthSteady(prog: Program, plan: Plan, l: nat, s: State, offset: nat, w: seq<Byte>)
    requires Runnable(prog, plan) && Steady(prog, plan, l, s, offset, w)
    ensures var sb := s.(rest := Newborn(FirstPcs(prog, plan, 0), offset));
            && Steady(prog, plan, l, sb, offset, w)
            && Tallied(prog, plan, l, sb, offset, w) == Tallied(prog, plan, l, s, offset, w)
  {
    FirstUnlabelled(prog, plan, 0);
    var sb := s.(rest := Newborn(FirstPcs(prog, plan, 0), offset));
    assert FrameInv(prog, plan, sb, offset);
  }

  /** One frame, before its cleanup. */
  lemma FrameRuns(prog: Program, plan: Plan, l: nat, s: State, b: Byte, offset: nat, admit: bool, w: seq<Byte>)
    returns (s2: State)
    requires Runnable(prog, plan) && l <= prog.maxLabel && Between(prog, plan, s, offset)
    ensures StateOk(prog, plan, s) && Placed(prog, s.rest)
    ensures Frame(prog, plan, s, b, offset, admit) == Cleanup(s2) && FrameInv(prog, plan, s2, offset)
    ensures var v := Preferred(prog, plan, l, [b] + w, offset);
            var acc := Settle(prog, plan, l, Tally(s.ends[l], HitsFor(s.hits, l)), s.rest, [b] + w, offset);
            Tallied(prog, plan, l, s2, offset, w)
              == (if admit && v.Some? && acc.bound <= offset then Tally(v.value, acc.hits + [Hit(offset, v.value, l)]) else acc)
  {
    RunAllKeeps(prog, plan, l, s, b, offset, w);
    s2 := RunAll(prog, plan, s, b, offset);
    if admit {
      var acc := Tallied(prog, plan, l, s2, offset, w);
      NewbornSettle(prog, plan, l, acc, [b] + w, offset);
      BirthSteady(prog, plan, l, s2, offset, w);
      var sb := s2.(rest := Newborn(FirstPcs(prog, plan, 0), offset));
      RunAllKeeps(prog, plan, l, sb, b, offset, w);
      s2 := RunAll(prog, plan, sb, b, offset);
    }
  }

  /** A frame that lets matches start only where they may, and turns away none. */
  lemma FrameKeeps(prog: Program, plan: Plan, l: nat, s: State, b: Byte, offset: nat, admit: bool, m: bool, w: seq<Byte>, may: seq<bool>)
    requires Runnable(prog, plan) && l <= prog.maxLabel && Between(prog, plan, s, offset) && |may| == |w|
    requires (admit ==> m) && (m ==> admit || Preferred(prog, plan, l, [b] + w, offset).None?)
    ensures StateOk(prog, plan, s) && Placed(prog, s.rest)
    ensures var s' := Frame(prog, plan, s, b, offset, admit);
            && Between(prog, plan, s', offset + 1) && Placed(prog, s'.rest)
            && Worth(prog, plan, l, s', w, may, offset + 1) == Worth(prog, plan, l, s, [b] + w, [m] + may, offset)
  {
    var s2 := FrameRuns(prog, plan, l, s, b, offset, admit, w);
    CleanupKeeps(prog, plan, l, s2, offset, w);
    assert ([b] + w)[1..] == w && ([m] + may)[1..] == may;
  }

  // ----- whole calls -----

  /** The filter admits every start of a match that it is asked about. */
  ghost predicate FilterSound(prog: Program, plan: Plan)
    requires Runnable(prog, plan)
  {
    forall l: nat, w: seq<Byte>, pos: nat ::
      l <= prog.maxLabel && prog.filterOff + 2 <= |w| && Preferred(prog, plan, l, w, pos).Some?
      ==> PairIndex(w[prog.filterOff], w[prog.filterOff + 1]) in prog.filter
  }

  function Flags(m: bool, n: nat): (r: seq<bool>)
    ensures |r| == n && forall i :: 0 <= i < n ==> r[i] == m
  {
    seq(n, i => m)
  }

  /** One frame of a search: what the filter turns away starts no match. */
  lemma SearchStep(prog: Program, plan: Plan, l: nat, s: State, buf: seq<Byte>, i: nat, base: nat, later: seq<Byte>, may: seq<bool>)
    requires Runnable(prog, plan) && FilterSound(prog, plan) && l <= prog.maxLabel && |may| == |later|
    requires i < |buf| && Between(prog, plan, s, base + i)
    ensures StateOk(prog, plan, s) && Placed(prog, s.rest)
    ensures var s' := Frame(prog, plan, s, buf[i], base + i, Admits(prog, buf, i));
            && Between(prog, plan, s', base + i + 1) && Placed(prog, s'.rest)
            && Worth(prog, plan, l, s', buf[i + 1..] + later, Flags(true, |buf| - i - 1) + may, base + i + 1)
               == Worth(prog, plan, l, s, buf[i..] + later, Flags(true, |buf| - i) + may, base + i)
  {
    hide FrameInv, Frame, Settle, Scan;
    var w := buf[i + 1..] + later;
    var all := [buf[i]] + w;
    assert buf[i..] + later == all;
    assert [true] + (Flags(true, |buf| - i - 1) + may) == Flags(true, |buf| - i) + may;
    if !Admits(prog, buf, i) {
      assert all[prog.filterOff] == buf[i + prog.filterOff] && all[prog.filterOff + 1] == buf[i + prog.filterOff + 1];
      assert Preferred(prog, plan, l, all, base + i).None?;
    }
    FrameKeeps(prog, plan, l, s, buf[i], base + i, Admits(prog, buf, i), true, w, Flags(true, |buf| - i - 1) + may);
  }

  lemma {:induction false} SearchKeeps(prog: Program, plan: Plan, l: nat, s: State, buf: seq<Byte>, i: nat, base: nat, later: seq<Byte>,
                                       may: seq<bool>)
    requires Runnable(prog, plan) && FilterSound(prog, plan) && l <= prog.maxLabel && |may| == |later|
    requires i <= |buf| && Between(prog, plan, s, base + i)
    ensures StateOk(prog, plan, s) && Placed(prog, s.rest)
    ensures var s' := Search(prog, plan, s, buf, i, base);
            && Between(prog, plan, s', base + |buf|) && Placed(prog, s'.rest)
            && Worth(prog, plan, l, s', later, may, base + |buf|)
               == Worth(prog, plan, l, s, buf[i..] + later, Flags(true, |buf| - i) + may, base + i)
    decreases |buf| - i
  {
    hide FrameInv, Frame, Settle, Scan, FilterSound;
    if i == |buf| {
      FrameInvOk(prog, plan, s, base + i);
      assert buf[i..] + later == later && Flags(true, 0) + may == may;
    } else {
      SearchStep(prog, plan, l, s, buf, i, base, later, may);
      SearchKeeps(prog, plan, l, Frame(prog, plan, s, buf[i], base + i, Admits(prog, buf, i)), buf, i + 1, base, later, may);
    }
  }

  /** Without threads, bytes in which no match may start are worth nothing. */
  lemma {:induction false} ScanSkips(prog: Program, plan: Plan, l: nat, acc: Tally, w: seq<Byte>, later: seq<Byte>, may: seq<bool>, pos: nat)
    requires Runnable(prog, plan) && |may| == |later|
    ensures Scan(prog, plan, l, acc, w + later, Flags(false, |w|) + may, pos) == Scan(prog, plan, l, acc, later, may, pos + |w|)
    decreases |w|
  {
    if w == [] {
      assert w + later == later && Flags(false, 0) + may == may;
    } else {
      assert (w + later)[1..] == w[1..] + later;
      assert (Flags(false, |w|) + may)[1..] == Flags(false, |w[1..]|) + may;
      ScanSkips(prog, plan, l, acc, w[1..], later, may, pos + 1);
    }
  }

  lemma NoThreadsKeep(prog: Program, plan: Plan, l: nat, s: State, pos: nat, w: seq<Byte>, later: seq<Byte>, may: seq<bool>)
    requires Runnable(prog, plan) && l <= prog.maxLabel && Between(prog, plan, s, pos) && s.rest == [] && |may| == |later|
    ensures Between(prog, plan, s, pos + |w|) && Placed(prog, s.rest)
    ensures Worth(prog, plan, l, s, later, may, pos + |w|) == Worth(prog, plan, l, s, w + later, Flags(false, |w|) + may, pos)
  {
    ScanSkips(prog, plan, l, Tally(s.ends[l], HitsFor(s.hits, l)), w, later, may, pos);
  }

  /** One frame of searchResolve: no match may start, and nothing that has started is forgotten. */
  lemma ResolveStep(prog: Program, plan: Plan, l: nat, s: State, buf: seq<Byte>, i: nat, base: nat, later: seq<Byte>, may: seq<bool>)
    requires Runnable(prog, plan) && l <= prog.maxLabel && |may| == |later|
    requires i < |buf| && Between(prog, plan, s, base + i)
    ensures StateOk(prog, plan, s) && Placed(prog, s.rest)
    ensures var s' := Cleanup(RunAll(prog, plan, s, buf[i], base + i));
            && Between(prog, plan, s', base + i + 1) && Placed(prog, s'.rest)
            && Worth(prog, plan, l, s', buf[i + 1..] + later, Flags(false, |buf| - i - 1) + may, base + i + 1)
               == Worth(prog, plan, l, s, buf[i..] + later, Flags(false, |buf| - i) + may, base + i)
  {
    var w := buf[i + 1..] + later;
    assert buf[i..] + later == [buf[i]] + w;
    assert [false] + (Flags(false, |buf| - i - 1) + may) == Flags(false, |buf| - i) + may;
    hide FrameInv, Settle, Scan;
    FrameKeeps(prog, plan, l, s, buf[i], base + i, false, false, w, Flags(false, |buf| - i - 1) + may);
  }

  /**
   searchResolve keeps what the active threads are worth over the bytes that it reads and
   those that come later.
   */
  lemma {:induction false} ResolveKeeps(prog: Program, plan: Plan, l: nat, s: State, buf: seq<Byte>, i: nat, text: seq<Byte>, base: nat,
                                        later: seq<Byte>, may: seq<bool>)
    requires Runnable(prog, plan) && l <= prog.maxLabel && |may| == |later| && i <= |buf| && i <= base + |text|
    requires CallSafe(prog, plan, s, text, base) && Between(prog, plan, s, base + |text|)
    ensures StateOk(prog, plan, s) && Placed(prog, s.rest)
    ensures var s' := Resolve(prog, plan, s, buf, i, base + |text| - i);
            var pos := base + |text| + (|buf| - i);
            && Between(prog, plan, s', pos) && Placed(prog, s'.rest)
            && Worth(prog, plan, l, s', later, may, pos)
               == Worth(prog, plan, l, s, buf[i..] + later, Flags(false, |buf| - i) + may, base + |text|)
    decreases |buf| - i
  {
    hide *;
    BetweenOk(prog, plan, s, base + |text|);
    var start := base + |text| - i;
    var pos := base + |text| + (|buf| - i);
    ResolveOnce(prog, plan, s, buf, i, start);
    if i == |buf| {
      NothingLeft(buf[i..], later, may);
    } else if s.rest == [] {
      NoThreadsKeep(prog, plan, l, s, base + |text|, buf[i..], later, may);
    } else {
      var s1 := Cleanup(RunAll(prog, plan, s, buf[i], base + |text|));
      AllFromZero(s.rest);
      ResolveByte(prog, plan, s, buf[i], text, base, 0);
      ResolveStep(prog, plan, l, s, buf, i, start, later, may);
      ResolveKeeps(prog, plan, l, s1, buf, i + 1, text + [buf[i]], base, later, may);
    }
  }

  lemma NothingLeft(w: seq<Byte>, later: seq<Byte>, may: seq<bool>)
    requires |w| == 0
    ensures w + later == later && Flags(false, 0) + may == may
  {
  }

  lemma BetweenOk(prog: Program, plan: Plan, s: State, pos: nat)
    requires Runnable(prog, plan) && Between(prog, plan, s, pos)
    ensures Sound(prog, plan) && StateOk(prog, plan, s) && Placed(prog, s.rest)
  {
    FrameInvOk(prog, plan, s, pos);
  }

  lemma ResolveOnce(prog: Program, plan: Plan, s: State, buf: seq<Byte>, i: nat, base: nat)
    requires Runnable(prog, plan) && StateOk(prog, plan, s) && i <= |buf|
    ensures i == |buf| || s.rest == [] ==> Resolve(prog, plan, s, buf, i, base) == s
    ensures i < |buf| && s.rest != [] && HadRealOps(prog, plan, s, buf[i], base + i) ==>
              Resolve(prog, plan, s, buf, i, base)
              == Resolve(prog, plan, Cleanup(RunAll(prog, plan, s, buf[i], base + i)), buf, i + 1, base)
  {
    hide Cleanup, RunAll, HadRealOps, StateOk;
  }

  lemma AllFromZero(ts: seq<Thread>)
    ensures AllFrom(ts, 0)
  {
  }

  // ----- calls -----

  /** Calls of search and searchResolve. */
  ghost predicate Reading(calls: seq<Call>) {
    forall i :: 0 <= i < |calls| ==> !calls[i].CloseOutCall?
  }

  /** The bytes that the calls read. */
  function TextOf(calls: seq<Call>): seq<Byte> {
    if calls == [] then [] else BytesOf(calls[0]) + TextOf(calls[1..])
  }

  /** At which of them a match may start: those that search reads. */
  function MayOf(calls: seq<Call>): (r: seq<bool>)
    ensures |r| == |TextOf(calls)|
  {
    if calls == [] then [] else Flags(calls[0].SearchCall?, |BytesOf(calls[0])|) + MayOf(calls[1..])
  }

  lemma OneCallKeeps(prog: Program, plan: Plan, l: nat, s: State, c: Call, text: seq<Byte>, base: nat, later: seq<Byte>, may: seq<bool>)
    requires Runnable(prog, plan) && FilterSound(prog, plan) && l <= prog.maxLabel && |may| == |later| && !c.CloseOutCall?
    requires CallSafe(prog, plan, s, text, base) && Between(prog, plan, s, base + |text|)
    ensures StateOk(prog, plan, s) && Closable(prog, s) && Placed(prog, s.rest)
    ensures var s' := Perform(prog, plan, s, c, base + |text|);
            var pos := base + |text| + |BytesOf(c)|;
            && CallSafe(prog, plan, s', text + BytesOf(c), base) && Between(prog, plan, s', pos) && Placed(prog, s'.rest)
            && Worth(prog, plan, l, s', later, may, pos)
               == Worth(prog, plan, l, s, BytesOf(c) + later, Flags(c.SearchCall?, |BytesOf(c)|) + may, base + |text|)
  {
    hide *;
    AllFromZero(s.rest);
    PerformSafe(prog, plan, s, c, text, base, 0);
    CallParts(prog, plan, s, c, base + |text|);
    var buf := BytesOf(c);
    assert buf[0..] == buf;
    if c.SearchCall? {
      SearchKeeps(prog, plan, l, s, buf, 0, base + |text|, later, may);
    } else {
      ResolveKeeps(prog, plan, l, s, buf, 0, text, base, later, may);
    }
  }

  lemma CallParts(prog: Program, plan: Plan, s: State, c: Call, offset: nat)
    requires Runnable(prog, plan) && StateOk(prog, plan, s) && Closable(prog, s) && !c.CloseOutCall?
    ensures Perform(prog, plan, s, c, offset)
         == if c.SearchCall? then Search(prog, plan, s, BytesOf(c), 0, offset) else Resolve(prog, plan, s, BytesOf(c), 0, offset)
  {
    hide Search, Resolve;
  }

  lemma {:induction false} CallsKeep(prog: Program, plan: Plan, l: nat, s: State, calls: seq<Call>, text: seq<Byte>, base: nat)
    requires Runnable(prog, plan) && FilterSound(prog, plan) && l <= prog.maxLabel && Reading(calls)
    requires CallSafe(prog, plan, s, text, base) && Between(prog, plan, s, base + |text|)
    ensures Placed(prog, s.rest)
    ensures var s' := Continue(prog, plan, s, calls, text, base);
            var pos := base + |text| + |TextOf(calls)|;
            && Between(prog, plan, s', pos) && Placed(prog, s'.rest)
            && Worth(prog, plan, l, s', [], [], pos) == Worth(prog, plan, l, s, TextOf(calls), MayOf(calls), base + |text|)
    decreases |calls|
  {
    hide FrameInv, Settle, Scan, FilterSound, CallSafe, Perform;
    if calls == [] {
      FrameInvOk(prog, plan, s, base + |text|);
    } else {
      var c := calls[0];
      OneCallKeeps(prog, plan, l, s, c, text, base, TextOf(calls[1..]), MayOf(calls[1..]));
      CallsKeep(prog, plan, l, Perform(prog, plan, s, c, base + |text|), calls[1..], text + BytesOf(c), base);
    }
  }

  lemma FreshIsSafe(prog: Program, plan: Plan, base: nat)
    requires Runnable(prog, plan)
    ensures CallSafe(prog, plan, Fresh(prog), [], base) && Between(prog, plan, Fresh(prog), base)
  {
  }

  /** The machine after the calls, from a reset one. */
  ghost function Run(prog: Program, plan: Plan, calls: seq<Call>, base: nat): State
    requires Runnable(prog, plan)
  {
    FreshIsSafe(prog, plan, base);
    Continue(prog, plan, Fresh(prog), calls, [], base)
  }

  lemma CloseOneSettles(prog: Program, plan: Plan, l: nat, s: State, t: Thread, pos: nat)
    requires Sound(prog, plan) && l < |s.ends|
    requires t.pc < |prog.code| && (prog.code[t.pc].Finish? ==> t.lbl < |s.ends|)
    requires prog.code[t.pc].Halt? || AtRest(prog.code[t.pc])
    ensures Settle1(prog, plan, l, Tally(s.ends[l], HitsFor(s.hits, l)), t, [], pos)
         == Tally(CloseOne(prog, s, t).ends[l], HitsFor(CloseOne(prog, s, t).hits, l))
  {
    HitsForPush(s.hits, Hit(t.start, t.end + 1, t.lbl), l);
  }

  /** A finished thread carries one of the program's labels. */
  lemma FinishLabel(prog: Program, plan: Plan, t: Thread, pos: nat)
    requires Sound(prog, plan) && Queued(prog, plan, t, pos)
    ensures prog.code[t.pc].Finish? ==> t.lbl <= prog.maxLabel
  {
    assert WordOk(prog, plan, t.pc);
  }

  /** Closing out reports what the active threads are worth when no byte follows. */
  lemma {:induction false} CloseOutSettles(prog: Program, plan: Plan, l: nat, s: State, i: nat, pos: nat)
    requires Sound(prog, plan) && l <= prog.maxLabel && Closable(prog, s) && i <= |s.rest|
    requires forall k :: 0 <= k < |s.rest| ==> prog.code[s.rest[k].pc].Halt? || AtRest(prog.code[s.rest[k].pc])
    ensures Placed(prog, s.rest[i..])
    ensures HitsFor(CloseOut(prog, s, i).hits, l)
         == Settle(prog, plan, l, Tally(s.ends[l], HitsFor(s.hits, l)), s.rest[i..], [], pos).hits
    decreases |s.rest| - i
  {
    if i < |s.rest| {
      var t := s.rest[i];
      assert s.rest[i..][0] == t && s.rest[i..][1..] == s.rest[i + 1..];
      CloseOneSettles(prog, plan, l, s, t, pos);
      CloseOutSettles(prog, plan, l, CloseOne(prog, s, t), i + 1, pos);
    }
  }

  /**
   Calls of search and searchResolve in any order over consecutive bytes, from a fresh
   machine, and then closing out, report for every label exactly the hits of the scan
   over all the bytes for the matches that start in those that search has read.
   */
  lemma SearchIsScan(prog: Program, plan: Plan, l: nat, calls: seq<Call>, base: nat)
    requires Runnable(prog, plan) && FilterSound(prog, plan) && l <= prog.maxLabel && Reading(calls)
    ensures var s := Run(prog, plan, calls, base);
            Closable(prog, s) && HitsFor(CloseOut(prog, s, 0).hits, l) == ScanHits(prog, plan, l, TextOf(calls), MayOf(calls), base)
  {
    hide *;
    FreshIsSafe(prog, plan, base);
    CallsKeep(prog, plan, l, Fresh(prog), calls, [], base);
    RunIs(prog, plan, calls, base);
    ClosingSettles(prog, plan, l, Run(prog, plan, calls, base), base + |TextOf(calls)|);
    FreshWorth(prog, plan, l, TextOf(calls), MayOf(calls), base);
  }

  lemma RunIs(prog: Program, plan: Plan, calls: seq<Call>, base: nat)
    requires Runnable(prog, plan)
    ensures CallSafe(prog, plan, Fresh(prog), [], base)
    ensures Run(prog, plan, calls, base) == Continue(prog, plan, Fresh(prog), calls, [], base)
  {
    FreshIsSafe(prog, plan, base);
    hide Continue, CallSafe, Fresh;
  }

  lemma ClosingSettles(prog: Program, plan: Plan, l: nat, s: State, pos: nat)
    requires Runnable(prog, plan) && l <= prog.maxLabel && Between(prog, plan, s, pos) && Placed(prog, s.rest)
    ensures Closable(prog, s)
    ensures HitsFor(CloseOut(prog, s, 0).hits, l) == Worth(prog, plan, l, s, [], [], pos).hits
  {
    forall k | 0 <= k < |s.rest|
      ensures s.rest[k].pc < |prog.code| && (prog.code[s.rest[k].pc].Finish? ==> s.rest[k].lbl <= prog.maxLabel)
    {
      FinishLabel(prog, plan, s.rest[k], pos);
    }
    hide CloseOut, Settle;
    CloseOutSettles(prog, plan, l, s, 0, pos);
    assert s.rest[0..] == s.rest;
  }

  lemma FreshWorth(prog: Program, plan: Plan, l: nat, w: seq<Byte>, may: seq<bool>, base: nat)
    requires Runnable(prog, plan) && l <= prog.maxLabel && |may| == |w|
    ensures Between(prog, plan, Fresh(prog), base)
    ensures Worth(prog, plan, l, Fresh(prog), w, may, base).hits == ScanHits(prog, plan, l, w, may, base)
  {
    hide Scan;
    FreshIsSafe(prog, plan, base);
  }

  // ----- what the scan is -----

  /** Offset i of text is the start of a match. */
  ghost predicate Starts(prog: Program, plan: Plan, l: nat, text: seq<Byte>, base: nat, i: nat)
    requires Runnable(prog, plan) && i <= |text|
  {
    Preferred(prog, plan, l, text[i..], base + i).Some?
  }

  /**
   The hits, in order: each starts at the least offset from from on that may and does
   start a match, ends where that match ends, and is not empty; the next is looked for
   from there; and after the last nothing that may start a match does.
   */
  ghost predicate LeftmostFrom(prog: Program, plan: Plan, l: nat, text: seq<Byte>, may: seq<bool>, base: nat, from: nat, hits: seq<Hit>)
    requires Runnable(prog, plan) && |may| == |text|
    decreases |hits|
  {
    if hits == [] then
      forall i: nat :: from <= i < |text| && may[i] ==> !Starts(prog, plan, l, text, base, i)
    else
      var h := hits[0];
      && base + from <= h.start < h.end
      && h.start - base < |text| && may[h.start - base]
      && h.lbl == l
      && Preferred(prog, plan, l, text[h.start - base..], h.start) == Some(h.end)
      && (forall i: nat :: from <= i < h.start - base && may[i] ==> !Starts(prog, plan, l, text, base, i))
      && LeftmostFrom(prog, plan, l, text, may, base, h.end - base, hits[1..])
  }

  lemma {:induction false} ScanExtends(prog: Program, plan: Plan, l: nat, acc: Tally, w: seq<Byte>, may: seq<bool>, pos: nat)
    requires Runnable(prog, plan) && |may| == |w|
    ensures Scan(prog, plan, l, acc, w, may, pos).hits == acc.hits + Scan(prog, plan, l, Tally(acc.bound, []), w, may, pos).hits
    decreases |w|
  {
    if w != [] {
      var v := Preferred(prog, plan, l, w, pos);
      if may[0] && v.Some? && acc.bound <= pos {
        var h := Hit(pos, v.value, l);
        ScanExtends(prog, plan, l, Tally(v.value, acc.hits + [h]), w[1..], may[1..], pos + 1);
        ScanExtends(prog, plan, l, Tally(v.value, [] + [h]), w[1..], may[1..], pos + 1);
      } else {
        ScanExtends(prog, plan, l, acc, w[1..], may[1..], pos + 1);
      }
    }
  }

  lemma WidenFrom(prog: Program, plan: Plan, l: nat, text: seq<Byte>, may: seq<bool>, base: nat, i: nat, hits: seq<Hit>)
    requires Runnable(prog, plan) && |may| == |text| && i < |text| && (may[i] ==> !Starts(prog, plan, l, text, base, i))
    requires LeftmostFrom(prog, plan, l, text, may, base, i + 1, hits)
    ensures LeftmostFrom(prog, plan, l, text, may, base, i, hits)
  {
  }

  lemma {:induction false} ScanFromIsLeftmost(prog: Program, plan: Plan, l: nat, text: seq<Byte>, may: seq<bool>, base: nat, i: nat, bound: nat)
    requires Runnable(prog, plan) && i <= |text| == |may|
    ensures var from := if bound <= base + i then i else bound - base;
            LeftmostFrom(prog, plan, l, text, may, base, from, Scan(prog, plan, l, Tally(bound, []), text[i..], may[i..], base + i).hits)
    decreases |text| - i
  {
    var w := text[i..];
    if w != [] {
      assert w[1..] == text[i + 1..] && may[i..][1..] == may[i + 1..];
      var v := Preferred(prog, plan, l, w, base + i);
      PlainMatchEnd(prog, plan, l, 0, 0, w, base + i);
      if may[i] && v.Some? && bound <= base + i {
        var h := Hit(base + i, v.value, l);
        ScanExtends(prog, plan, l, Tally(v.value, [h]), w[1..], may[i + 1..], base + i + 1);
        ScanFromIsLeftmost(prog, plan, l, text, may, base, i + 1, v.value);
        var later := Scan(prog, plan, l, Tally(v.value, []), w[1..], may[i + 1..], base + i + 1).hits;
        assert ([h] + later)[0] == h && ([h] + later)[1..] == later;
        assert [] + [h] == [h];
      } else {
        ScanFromIsLeftmost(prog, plan, l, text, may, base, i + 1, bound);
        if bound <= base + i {
          WidenFrom(prog, plan, l, text, may, base, i, Scan(prog, plan, l, Tally(bound, []), w[1..], may[i + 1..], base + i + 1).hits);
        }
      }
    }
  }

  /** The scan meets its description. */
  lemma ScanIsLeftmost(prog: Program, plan: Plan, l: nat, text: seq<Byte>, may: seq<bool>, base: nat)
    requires Runnable(prog, plan) && |may| == |text|
    ensures LeftmostFrom(prog, plan, l, text, may, base, 0, ScanHits(prog, plan, l, text, may, base))
  {
    ScanFromIsLeftmost(prog, plan, l, text, may, base, 0, 0);
    assert text[0..] == text && may[0..] == may;
  }
}
