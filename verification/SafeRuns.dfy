/** Whole runs: what Safety keeps through frames, calls, and sequences of calls. */
module SafeRuns {
  import opened Basics
  import opened Bytecode
  import opened Frames
  import opened Settling
  import opened Priority
  import opened Searching
  import opened Safety

  /** Between frames, when all of text has been read. */
  ghost predicate CallSafe(prog: Program, plan: Plan, s: State, text: seq<Byte>, base: nat)
    requires Sound(prog, plan)
  {
    && |s.ends| == prog.maxLabel + 1
    && s.next == [] && !s.liveNoLabel && s.live == {}
    && (forall i :: 0 <= i < |s.rest| ==>
          OnPath(prog, plan, s.rest[i], text, base) && Survivor(prog, plan, s.rest[i], base + |text|))
    && Sorted(s.rest)
    && (s.rest != [] ==> !Spent(prog, s.rest[0]))
    && HitsSound(prog, plan, s.hits, s.ends, text, base)
  }

  ghost predicate NewHitsFrom(earlier: seq<Hit>, hits: seq<Hit>, a: nat) {
    earlier <= hits && forall i :: |earlier| <= i < |hits| ==> a <= hits[i].start
  }

  ghost predicate SplitSorted(a: seq<Thread>, b: seq<Thread>) {
    forall i, j :: 0 <= i < |a| && 0 <= j < |b| ==> a[i].start <= b[j].start
  }

  lemma StretchHits(prog: Program, plan: Plan, hits: seq<Hit>, ends: seq<nat>, text: seq<Byte>, more: seq<Byte>, base: nat)
    requires Sound(prog, plan) && HitsSound(prog, plan, hits, ends, text, base)
    ensures HitsSound(prog, plan, hits, ends, text + more, base)
  {
    forall i | 0 <= i < |hits|
      ensures base <= hits[i].start < hits[i].end <= base + |text + more|
      ensures Spells(prog, plan, hits[i].lbl, Slice(text + more, base, hits[i].start, hits[i].end))
    {
      assert Slice(text + more, base, hits[i].start, hits[i].end) == Slice(text, base, hits[i].start, hits[i].end);
    }
  }

  /** Reading a byte keeps a thread on its path. */
  lemma ByteOnPath(prog: Program, plan: Plan, t: Thread, b: Byte, text: seq<Byte>, base: nat)
    requires Sound(prog, plan) && Waits(prog, plan, t, text, base)
    ensures var q := ByteStep(prog.code, t.pc, b);
            q.Some? ==> && q.value < |prog.code|
                        && Good(prog, plan, t.(pc := q.value), base + |text| + 1)
                        && OnPath(prog, plan, t.(pc := q.value), text + [b], base)
  {
    ByteStepFlows(prog, plan, t.pc, b);
    var q := ByteStep(prog.code, t.pc, b);
    var text' := text + [b];
    if q.Some? {
      if prog.code[t.pc].Finish? {
        assert WordOk(prog, plan, t.pc);
        assert Slice(text', base, t.start, t.end + 1) == Slice(text, base, t.start, t.end + 1);
      } else {
        var u := Slice(text, base, t.start, base + |text|);
        var u' := Slice(text', base, t.start, base + |text'|);
        assert u' == u + [b];
        forall l: nat, v: seq<Byte> | Accepts(prog, plan, l, q.value, t.lbl, v)
          ensures Spells(prog, plan, l, u' + v)
        {
          assert ([b] + v)[1..] == v;
          assert Accepts(prog, plan, l, t.pc, t.lbl, [b] + v);
          assert u + ([b] + v) == u' + v;
        }
      }
    }
  }

  /** The invariant of the loop over the active threads. */
  ghost predicate LoopSafe(prog: Program, plan: Plan, s: State, text: seq<Byte>, base: nat, from: nat)
    requires Sound(prog, plan) && text != []
  {
    && MidSafe(prog, plan, s, text, base)
    && SplitSorted(s.next, s.rest)
    && AllFrom(s.next, from)
    && AllFrom(s.rest, from)
  }

  lemma ExecuteSafe(prog: Program, plan: Plan, s: State, b: Byte, text: seq<Byte>, base: nat, from: nat)
    requires Sound(prog, plan) && LoopSafe(prog, plan, s, text + [b], base, from) && s.rest != []
    ensures var t := s.rest[0];
            var s' := ExecuteThread(prog, plan, s.(rest := s.rest[1..]), t, b, base + |text|);
            LoopSafe(prog, plan, s', text + [b], base, from) && NewHitsFrom(s.hits, s'.hits, from)
  {
    var t := s.rest[0];
    var s0 := s.(rest := s.rest[1..]);
    var text' := text + [b];
    assert text'[..|text'| - 1] == text;
    assert Waits(prog, plan, t, text, base);
    assert MidSafe(prog, plan, s0, text', base);
    ByteOnPath(prog, plan, t, b, text, base);
    var q := ByteStep(prog.code, t.pc, b);
    if q.Some? {
      EpSequenceSafe(prog, plan, s0, t.(pc := q.value), base + |text|, text', base);
    }
    NextFrom(prog, plan, s0, t, b, base + |text|, from);
  }

  /** Running a thread adds only threads with its own start. */
  lemma NextFrom(prog: Program, plan: Plan, s: State, t: Thread, b: Byte, offset: nat, from: nat)
    requires Sound(prog, plan) && t.pc < |prog.code| && Labels(prog, s, t)
    requires prog.code[t.pc].Halt? || Fits(plan[t.pc].kind, t.lbl)
    requires AllFrom(s.next, from) && from <= t.start
    ensures AllFrom(ExecuteThread(prog, plan, s, t, b, offset).next, from)
  {
    ByteStepFlows(prog, plan, t.pc, b);
    var q := ByteStep(prog.code, t.pc, b);
    if q.Some? {
      EpSequenceFrom(prog, plan, s, t.(pc := q.value), offset, from);
    }
  }

  lemma {:induction false} EpSequenceFrom(prog: Program, plan: Plan, s: State, t: Thread, offset: nat, from: nat)
    requires Sound(prog, plan) && t.pc < |prog.code| && Labels(prog, s, t) && Fits(plan[t.pc].kind, t.lbl)
    requires AllFrom(s.next, from) && from <= t.start
    ensures AllFrom(EpSequence(prog, plan, s, t, offset).next, from)
    decreases plan[t.pc].rank, 1
  {
    if !(t.lbl != NOLABEL && t.start < s.ends[t.lbl]) {
      EpsilonsFrom(prog, plan, s, t, offset, from);
    }
  }

  lemma {:induction false} EpsilonsFrom(prog: Program, plan: Plan, s: State, t: Thread, offset: nat, from: nat)
    requires Sound(prog, plan) && t.pc < |prog.code| && Labels(prog, s, t) && Fits(plan[t.pc].kind, t.lbl)
    requires AllFrom(s.next, from) && from <= t.start
    ensures AllFrom(Epsilons(prog, plan, s, t, offset).next, from)
    decreases plan[t.pc].rank, 0
  {
    assert WordOk(prog, plan, t.pc);
    var i := prog.code[t.pc];
    if i.Fork? {
      EpSequenceFrom(prog, plan, s, t.(pc := t.pc + 2), offset, from);
      EpsilonsFrom(prog, plan, EpSequence(prog, plan, s, t.(pc := t.pc + 2), offset), t.(pc := i.target), offset, from);
    } else if i.Jump? {
      EpsilonsFrom(prog, plan, s, t.(pc := i.target), offset, from);
    } else if i.CheckHalt? {
      if i.index !in s.locks {
        var s1 := if LiveCheck(s, t.start, t.lbl) then s else s.(locks := s.locks + {i.index});
        EpsilonsFrom(prog, plan, s1, t.(pc := t.pc + 1), offset, from);
      }
    } else if i.Label? {
      if t.start >= s.ends[i.lbl] {
        EpsilonsFrom(prog, plan, s, t.(lbl := i.lbl, pc := t.pc + 1), offset, from);
      }
    } else if i.Match? {
      EpsilonsFrom(prog, plan, s, t.(end := offset, pc := t.pc + 1, lead := !LiveAbove(s, t.lbl)), offset, from);
    }
  }

  lemma MidSafeOk(prog: Program, plan: Plan, s: State, text: seq<Byte>, base: nat)
    requires Sound(prog, plan) && text != [] && MidSafe(prog, plan, s, text, base)
    ensures StateOk(prog, plan, s)
  {
    forall i | 0 <= i < |s.rest| ensures Runs(prog, plan, s.rest[i]) {
      assert Waits(prog, plan, s.rest[i], text[..|text| - 1], base);
    }
    forall i | 0 <= i < |s.next| ensures Runs(prog, plan, s.next[i]) {
      assert Survivor(prog, plan, s.next[i], base + |text|);
    }
  }

  lemma {:induction false} RunAllSafe(prog: Program, plan: Plan, s: State, b: Byte, text: seq<Byte>, base: nat, from: nat)
    requires Sound(prog, plan) && LoopSafe(prog, plan, s, text + [b], base, from)
    ensures StateOk(prog, plan, s)
    ensures var s' := RunAll(prog, plan, s, b, base + |text|);
            LoopSafe(prog, plan, s', text + [b], base, from) && NewHitsFrom(s.hits, s'.hits, from)
    decreases |s.rest|
  {
    hide MidSafe, SplitSorted, AllFrom;
    MidSafeOk(prog, plan, s, text + [b], base);
    if s.rest != [] {
      ExecuteSafe(prog, plan, s, b, text, base, from);
      var s0 := s.(rest := s.rest[1..]);
      RestOk(prog, plan, s);
      ExecuteThreadOk(prog, plan, s0, s.rest[0], b, base + |text|);
      RunAllSafe(prog, plan, ExecuteThread(prog, plan, s0, s.rest[0], b, base + |text|), b, text, base, from);
    }
  }

  lemma RestOk(prog: Program, plan: Plan, s: State)
    requires |plan| == |prog.code| && StateOk(prog, plan, s) && s.rest != []
    ensures StateOk(prog, plan, s.(rest := s.rest[1..])) && Runs(prog, plan, s.rest[0])
  {
  }

  // ----- frames -----

  lemma BeginFrame(prog: Program, plan: Plan, s: State, b: Byte, text: seq<Byte>, base: nat, from: nat)
    requires Sound(prog, plan) && CallSafe(prog, plan, s, text, base) && AllFrom(s.rest, from)
    ensures LoopSafe(prog, plan, s, text + [b], base, from)
  {
    StretchHits(prog, plan, s.hits, s.ends, text, [b], base);
    assert (text + [b])[..|text + [b]| - 1] == text;
    forall i | 0 <= i < |s.rest| ensures Waits(prog, plan, s.rest[i], text, base) {
      assert OnPath(prog, plan, s.rest[i], text, base) && Survivor(prog, plan, s.rest[i], base + |text|);
    }
  }

  /** A new thread has read nothing, and nothing begins every path. */
  lemma {:induction false} FirstTraced(prog: Program, plan: Plan, pc: nat, l: nat, v: seq<Byte>)
    requires Sound(prog, plan) && pc < |prog.code| && Plain(prog, plan, pc)
    ensures forall i :: 0 <= i < |FirstPcs(prog, plan, pc)| ==>
              Accepts(prog, plan, l, FirstPcs(prog, plan, pc)[i], NOLABEL, v) ==> Accepts(prog, plan, l, pc, NOLABEL, v)
    decreases plan[pc].rank
  {
    assert WordOk(prog, plan, pc);
    var i := prog.code[pc];
    if i.Fork? {
      FirstTraced(prog, plan, pc + 2, l, v);
      FirstTraced(prog, plan, i.target, l, v);
    } else if i.Jump? {
      FirstTraced(prog, plan, i.target, l, v);
    }
  }

  lemma BornWaits(prog: Program, plan: Plan, text: seq<Byte>, base: nat)
    requires Runnable(prog, plan)
    ensures var born := Newborn(FirstPcs(prog, plan, 0), base + |text|);
            forall i :: 0 <= i < |born| ==> Waits(prog, plan, born[i], text, base)
  {
    FirstUnlabelled(prog, plan, 0);
    var pcs := FirstPcs(prog, plan, 0);
    var born := Newborn(pcs, base + |text|);
    forall i | 0 <= i < |born| ensures Waits(prog, plan, born[i], text, base) {
      var u := Slice(text, base, base + |text|, base + |text|);
      forall l: nat, v: seq<Byte> | Accepts(prog, plan, l, pcs[i], NOLABEL, v)
        ensures Spells(prog, plan, l, u + v)
      {
        FirstTraced(prog, plan, 0, l, v);
        assert u + v == v;
      }
    }
  }

  lemma BirthSafe(prog: Program, plan: Plan, s: State, b: Byte, text: seq<Byte>, base: nat, from: nat)
    requires Runnable(prog, plan) && LoopSafe(prog, plan, s, text + [b], base, from) && from <= base + |text|
    ensures LoopSafe(prog, plan, s.(rest := Newborn(FirstPcs(prog, plan, 0), base + |text|)), text + [b], base, from)
  {
    BornWaits(prog, plan, text, base);
    assert (text + [b])[..|text + [b]| - 1] == text;
    var born := Newborn(FirstPcs(prog, plan, 0), base + |text|);
    forall i | 0 <= i < |s.next| ensures s.next[i].start <= base + |text| {
      assert Survivor(prog, plan, s.next[i], base + |text + [b]|);
    }
  }

  lemma EndFrame(prog: Program, plan: Plan, s: State, text: seq<Byte>, base: nat, from: nat)
    requires Sound(prog, plan) && text != [] && LoopSafe(prog, plan, s, text, base, from)
    ensures CallSafe(prog, plan, Cleanup(s), text, base) && AllFrom(Cleanup(s).rest, from)
  {
    if s.next != [] {
      assert Survivor(prog, plan, s.next[0], base + |text|);
    }
  }

  lemma CallSafeOk(prog: Program, plan: Plan, s: State, text: seq<Byte>, base: nat)
    requires Sound(prog, plan) && CallSafe(prog, plan, s, text, base)
    ensures StateOk(prog, plan, s) && Closable(prog, s)
  {
    forall i | 0 <= i < |s.rest|
      ensures Runs(prog, plan, s.rest[i]) && (prog.code[s.rest[i].pc].Finish? ==> s.rest[i].lbl <= prog.maxLabel)
    {
      assert Survivor(prog, plan, s.rest[i], base + |text|);
      assert WordOk(prog, plan, s.rest[i].pc);
    }
  }

  lemma FrameSafe(prog: Program, plan: Plan, s: State, b: Byte, admit: bool, text: seq<Byte>, base: nat, from: nat)
    requires Runnable(prog, plan) && CallSafe(prog, plan, s, text, base)
    requires AllFrom(s.rest, from) && from <= base + |text|
    ensures StateOk(prog, plan, s)
    ensures var s' := Frame(prog, plan, s, b, base + |text|, admit);
            && CallSafe(prog, plan, s', text + [b], base)
            && AllFrom(s'.rest, from)
            && NewHitsFrom(s.hits, s'.hits, from)
  {
    CallSafeOk(prog, plan, s, text, base);
    BeginFrame(prog, plan, s, b, text, base, from);
    RunAllSafe(prog, plan, s, b, text, base, from);
    var s1 := RunAll(prog, plan, s, b, base + |text|);
    var s2 := s1;
    if admit {
      BirthSafe(prog, plan, s1, b, text, base, from);
      var sb := s1.(rest := Newborn(FirstPcs(prog, plan, 0), base + |text|));
      RunAllSafe(prog, plan, sb, b, text, base, from);
      s2 := RunAll(prog, plan, sb, b, base + |text|);
    }
    EndFrame(prog, plan, s2, text + [b], base, from);
  }

  // ----- calls -----

  lemma {:induction false} SearchSafe(prog: Program, plan: Plan, s: State, buf: seq<Byte>, i: nat, text: seq<Byte>, base: nat, from: nat)
    requires Runnable(prog, plan) && i <= |buf| && CallSafe(prog, plan, s, text, base)
    requires AllFrom(s.rest, from) && i <= base + |text| && from <= base + |text|
    ensures StateOk(prog, plan, s)
    ensures var s' := Search(prog, plan, s, buf, i, base + |text| - i);
            && CallSafe(prog, plan, s', text + buf[i..], base)
            && AllFrom(s'.rest, from)
            && NewHitsFrom(s.hits, s'.hits, from)
    decreases |buf| - i
  {
    hide *;
    RunnableIsSound(prog, plan);
    CallSafeOk(prog, plan, s, text, base);
    if i == |buf| {
      SearchNone(prog, plan, s, buf, base + |text| - i);
      NoNewHits(s.hits, from);
      assert text + buf[i..] == text;
    } else {
      var admit := Admits(prog, buf, i);
      FrameSafe(prog, plan, s, buf[i], admit, text, base, from);
      var s1 := Frame(prog, plan, s, buf[i], base + |text|, admit);
      CallSafeOk(prog, plan, s1, text + [buf[i]], base);
      SearchSafe(prog, plan, s1, buf, i + 1, text + [buf[i]], base, from);
      assert (text + [buf[i]]) + buf[i + 1..] == text + buf[i..];
      SearchNext(prog, plan, s, buf, i, base + |text| - i);
      MoreNewHits(s.hits, s1.hits, Search(prog, plan, s1, buf, i + 1, base + |text| - i).hits, from);
    }
  }

  lemma RunnableIsSound(prog: Program, plan: Plan)
    requires Runnable(prog, plan)
    ensures Sound(prog, plan)
  {
  }

  lemma SearchNone(prog: Program, plan: Plan, s: State, buf: seq<Byte>, base: nat)
    requires Runnable(prog, plan) && StateOk(prog, plan, s)
    ensures Search(prog, plan, s, buf, |buf|, base) == s
  {
    hide Runnable, StateOk;
  }

  lemma SearchNext(prog: Program, plan: Plan, s: State, buf: seq<Byte>, i: nat, base: nat)
    requires Runnable(prog, plan) && StateOk(prog, plan, s) && i < |buf|
    ensures var s1 := Frame(prog, plan, s, buf[i], base + i, Admits(prog, buf, i));
            StateOk(prog, plan, s1) && Search(prog, plan, s, buf, i, base) == Search(prog, plan, s1, buf, i + 1, base)
  {
    hide Runnable, StateOk, Frame, Admits;
  }

  lemma NoNewHits(hits: seq<Hit>, from: nat)
    ensures NewHitsFrom(hits, hits, from)
  {
  }

  lemma MoreNewHits(a: seq<Hit>, b: seq<Hit>, c: seq<Hit>, from: nat)
    requires NewHitsFrom(a, b, from) && NewHitsFrom(b, c, from)
    ensures NewHitsFrom(a, c, from)
  {
  }

  /** The first active thread is always still reading, so searchResolve never stops for want of real operations. */
  lemma RealOpsRemain(prog: Program, plan: Plan, s: State, b: Byte, text: seq<Byte>, base: nat, offset: nat)
    requires Sound(prog, plan) && CallSafe(prog, plan, s, text, base) && StateOk(prog, plan, s)
    ensures HadRealOps(prog, plan, s, b, offset) <==> s.rest != []
  {
  }

  /** With no thread left, the bytes that follow may be skipped. */
  lemma SkipSafe(prog: Program, plan: Plan, s: State, text: seq<Byte>, more: seq<Byte>, base: nat)
    requires Sound(prog, plan) && CallSafe(prog, plan, s, text, base) && s.rest == []
    ensures CallSafe(prog, plan, s, text + more, base)
  {
    StretchHits(prog, plan, s.hits, s.ends, text, more, base);
  }

  /** One frame without new threads. */
  lemma ResolveByte(prog: Program, plan: Plan, s: State, b: Byte, text: seq<Byte>, base: nat, from: nat)
    requires Runnable(prog, plan) && CallSafe(prog, plan, s, text, base) && AllFrom(s.rest, from) && s.rest != []
    ensures StateOk(prog, plan, s) && HadRealOps(prog, plan, s, b, base + |text|)
    ensures var s1 := Cleanup(RunAll(prog, plan, s, b, base + |text|));
            && CallSafe(prog, plan, s1, text + [b], base)
            && AllFrom(s1.rest, from)
            && NewHitsFrom(s.hits, s1.hits, from)
  {
    CallSafeOk(prog, plan, s, text, base);
    hide CallSafe, AllFrom, StateOk;
    BeginFrame(prog, plan, s, b, text, base, from);
    RunAllSafe(prog, plan, s, b, text, base, from);
    RealOpsRemain(prog, plan, s, b, text, base, base + |text|);
    EndFrame(prog, plan, RunAll(prog, plan, s, b, base + |text|), text + [b], base, from);
  }

  lemma {:induction false} ResolveSafe(prog: Program, plan: Plan, s: State, buf: seq<Byte>, i: nat, text: seq<Byte>, base: nat, from: nat)
    requires Runnable(prog, plan) && i <= |buf| && CallSafe(prog, plan, s, text, base)
    requires AllFrom(s.rest, from) && i <= base + |text|
    ensures StateOk(prog, plan, s)
    ensures var s' := Resolve(prog, plan, s, buf, i, base + |text| - i);
            && CallSafe(prog, plan, s', text + buf[i..], base)
            && AllFrom(s'.rest, from)
            && NewHitsFrom(s.hits, s'.hits, from)
            && (s'.rest != [] ==> Resolved(prog, plan, s, buf, i, base + |text| - i) == |buf|)
    decreases |buf| - i
  {
    CallSafeOk(prog, plan, s, text, base);
    hide CallSafe, AllFrom, StateOk, Cleanup;
    if i == |buf| {
      assert text + buf[i..] == text;
    } else if s.rest == [] {
      SkipSafe(prog, plan, s, text, buf[i..], base);
    } else {
      var b := buf[i];
      ResolveByte(prog, plan, s, b, text, base, from);
      var s1 := Cleanup(RunAll(prog, plan, s, b, base + |text|));
      assert (text + [b]) + buf[i + 1..] == text + buf[i..];
      ResolveSafe(prog, plan, s1, buf, i + 1, text + [b], base, from);
    }
  }

  lemma {:induction false} CloseOutSafe(prog: Program, plan: Plan, s: State, i: nat, text: seq<Byte>, base: nat, from: nat)
    requires Sound(prog, plan) && CallSafe(prog, plan, s, text, base) && Closable(prog, s) && i <= |s.rest|
    requires AllFrom(s.rest, from)
    ensures var s' := CloseOut(prog, s, i);
            && CallSafe(prog, plan, s', text, base)
            && AllFrom(s'.rest, from)
            && NewHitsFrom(s.hits, s'.hits, from)
    decreases |s.rest| - i
  {
    if i < |s.rest| {
      var t := s.rest[i];
      assert OnPath(prog, plan, t, text, base) && WordOk(prog, plan, t.pc);
      if prog.code[t.pc].Finish? {
        HitSound(prog, plan, s.hits, s.ends, t, text, base);
      }
      CloseOutSafe(prog, plan, CloseOne(prog, s, t), i + 1, text, base, from);
    }
  }

  // ----- runs -----

  datatype Call = SearchCall(buf: seq<Byte>) | ResolveCall(buf: seq<Byte>) | CloseOutCall

  function BytesOf(c: Call): seq<Byte> {
    if c.CloseOutCall? then [] else c.buf
  }

  ghost function Perform(prog: Program, plan: Plan, s: State, c: Call, offset: nat): (r: State)
    requires Runnable(prog, plan) && StateOk(prog, plan, s) && Closable(prog, s)
  {
    match c
    case SearchCall(buf) => Search(prog, plan, s, buf, 0, offset)
    case ResolveCall(buf) => Resolve(prog, plan, s, buf, 0, offset)
    case CloseOutCall => CloseOut(prog, s, 0)
  }

  lemma PerformSafe(prog: Program, plan: Plan, s: State, c: Call, text: seq<Byte>, base: nat, from: nat)
    requires Runnable(prog, plan) && CallSafe(prog, plan, s, text, base)
    requires AllFrom(s.rest, from) && from <= base + |text|
    ensures StateOk(prog, plan, s) && Closable(prog, s)
    ensures var s' := Perform(prog, plan, s, c, base + |text|);
            && CallSafe(prog, plan, s', text + BytesOf(c), base)
            && AllFrom(s'.rest, from)
            && NewHitsFrom(s.hits, s'.hits, from)
  {
    CallSafeOk(prog, plan, s, text, base);
    match c
    case SearchCall(buf) =>
      SearchSafe(prog, plan, s, buf, 0, text, base, from);
      assert buf[0..] == buf;
    case ResolveCall(buf) =>
      ResolveSafe(prog, plan, s, buf, 0, text, base, from);
      assert buf[0..] == buf;
    case CloseOutCall =>
      CloseOutSafe(prog, plan, s, 0, text, base, from);
      assert text + [] == text;
  }

  /** The states that calls over consecutive bytes, the first at the offset base, lead to from a reset machine. */
  ghost predicate Reached(prog: Program, plan: Plan, calls: seq<Call>, base: nat, s: State, text: seq<Byte>)
    requires Runnable(prog, plan)
    decreases |calls|
  {
    if calls == [] then s == Fresh(prog) && text == []
    else
      var c := calls[|calls| - 1];
      exists s0: State, text0: seq<Byte> ::
        && Reached(prog, plan, calls[..|calls| - 1], base, s0, text0)
        && StateOk(prog, plan, s0) && Closable(prog, s0)
        && s == Perform(prog, plan, s0, c, base + |text0|)
        && text == text0 + BytesOf(c)
  }

  /** Every reachable state is safe. */
  lemma {:induction false} RunsAreSafe(prog: Program, plan: Plan, calls: seq<Call>, base: nat, s: State, text: seq<Byte>)
    requires Runnable(prog, plan) && Reached(prog, plan, calls, base, s, text)
    ensures CallSafe(prog, plan, s, text, base)
    decreases |calls|
  {
    if calls != [] {
      var c := calls[|calls| - 1];
      var s0: State, text0: seq<Byte> :|
        && Reached(prog, plan, calls[..|calls| - 1], base, s0, text0)
        && StateOk(prog, plan, s0) && Closable(prog, s0)
        && s == Perform(prog, plan, s0, c, base + |text0|)
        && text == text0 + BytesOf(c);
      RunsAreSafe(prog, plan, calls[..|calls| - 1], base, s0, text0);
      PerformSafe(prog, plan, s0, c, text0, base, 0);
    }
  }

  /** What search returns bounds below the start of every thread, and so of whatever is reported later. */
  lemma LeftmostBounds(prog: Program, plan: Plan, s: State, text: seq<Byte>, base: nat)
    requires Sound(prog, plan) && CallSafe(prog, plan, s, text, base)
    ensures forall i :: 0 <= i < |s.rest| ==> s.rest[i].pc < |prog.code|
    ensures var r := LeftmostLive(prog, s.rest, base + |text|);
            r <= base + |text| && AllFrom(s.rest, r)
            && r == (if s.rest == [] then base + |text| else s.rest[0].start)
  {
    forall i | 0 <= i < |s.rest| ensures s.rest[i].pc < |prog.code| && s.rest[i].start < base + |text| {
      assert Survivor(prog, plan, s.rest[i], base + |text|);
    }
  }

  /** Any number of further calls. */
  ghost function Continue(prog: Program, plan: Plan, s: State, calls: seq<Call>, text: seq<Byte>, base: nat): (r: State)
    requires Runnable(prog, plan) && CallSafe(prog, plan, s, text, base)
    decreases |calls|
  {
    if calls == [] then s
    else
      PerformSafe(prog, plan, s, calls[0], text, base, 0);
      Continue(prog, plan, Perform(prog, plan, s, calls[0], base + |text|), calls[1..], text + BytesOf(calls[0]), base)
  }

  /** After a call returned r, no later call reports a hit that starts before r. */
  lemma {:induction false} LaterHitsFrom(prog: Program, plan: Plan, s: State, calls: seq<Call>, text: seq<Byte>, base: nat, r: nat)
    requires Runnable(prog, plan) && CallSafe(prog, plan, s, text, base)
    requires AllFrom(s.rest, r) && r <= base + |text|
    ensures NewHitsFrom(s.hits, Continue(prog, plan, s, calls, text, base).hits, r)
    decreases |calls|
  {
    if calls != [] {
      PerformSafe(prog, plan, s, calls[0], text, base, 0);
      PerformSafe(prog, plan, s, calls[0], text, base, r);
      var s1 := Perform(prog, plan, s, calls[0], base + |text|);
      LaterHitsFrom(prog, plan, s1, calls[1..], text + BytesOf(calls[0]), base, r);
    }
  }

  /** In particular for the value that search returns. */
  lemma ReturnedBoundHolds(prog: Program, plan: Plan, calls: seq<Call>, s: State, later: seq<Call>, text: seq<Byte>, base: nat)
    requires Runnable(prog, plan) && Reached(prog, plan, calls, base, s, text)
    ensures CallSafe(prog, plan, s, text, base)
    ensures forall i :: 0 <= i < |s.rest| ==> s.rest[i].pc < |prog.code|
    ensures NewHitsFrom(s.hits, Continue(prog, plan, s, later, text, base).hits,
                        LeftmostLive(prog, s.rest, base + |text|))
  {
    RunsAreSafe(prog, plan, calls, base, s, text);
    LeftmostBounds(prog, plan, s, text, base);
    LaterHitsFrom(prog, plan, s, later, text, base, LeftmostLive(prog, s.rest, base + |text|));
  }
}
