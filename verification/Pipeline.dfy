/**
 From an automaton to the hits of a search: labels are guarded, the automaton is
 compiled, the program is searched with, and what is reported for every label is
 the leftmost scan of the automaton that one started from
 (src/lib/nfaoptimizer.cpp:255-258, src/lib/compiler.cpp:166-191, src/lib/vm.cpp:577-676).
 */
module Pipeline {
  import opened Basics
  import opened Automata
  import opened Sequences
  import opened Graphs
  import opened Guards
  import opened Carrying
  import opened Compiled
  import Layouts
  import opened Losses
  import opened Meaning
  import Compiler
  import Filters
  import Sturdies
  import Subsets
  import Bytecode
  import Frames
  import Searching
  import Leftmost
  import SafeRuns
  import Priority

  // ----- the filter -----

  /** The preferred match, whatever label the walk carries, reads a string that some match vertex accepts. */
  lemma {:induction false} RanIsAccepted(g: Nfa, l: nat, v: nat, c: nat, w: seq<Byte>)
    requires Wired(g) && v < |g.vertices|
    ensures var r := Ran(g, l, v, c, w); r.Some? ==> r.value <= |w| && Filters.AcceptsSome(g, v, w[..r.value])
    decreases |w|
  {
    var r := Ran(g, l, v, c, w);
    if RanOf(g, l, g.out[v], c, w).Some? && !(w != [] && Loses(g, v, w[0])) {
      var i := RanOfPicks(g, l, g.out[v], c, w);
      var t := g.out[v][i];
      RanIsAccepted(g, l, t, Enter(g, t, c), w[1..]);
      assert w[..r.value][1..] == w[1..][..r.value - 1];
    }
  }

  lemma {:induction false} RanOfPicks(g: Nfa, l: nat, ts: seq<nat>, c: nat, w: seq<Byte>) returns (i: nat)
    requires Wired(g) && Within(g, ts) && RanOf(g, l, ts, c, w).Some?
    ensures i < |ts| && RanVia(g, l, ts[i], c, w) == RanOf(g, l, ts, c, w)
    decreases |ts|
  {
    if RanVia(g, l, ts[0], c, w).Some? {
      i := 0;
    } else {
      var k := RanOfPicks(g, l, ts[1..], c, w);
      i := k + 1;
    }
  }

  lemma CompiledPrefers(b: Build, l: nat, w: seq<Byte>, pos: nat)
    requires Complete(b)
    ensures Bytecode.Runnable(b.prog, b.plan) && Wired(b.g)
    ensures Leftmost.Preferred(b.prog, b.plan, l, w, pos) == Plus(Ran(b.g, l, 0, NOLABEL, w), pos)
  {
    CompiledIsRunnable(b);
    CompiledMeans(b, l, w, 0, pos);
    hide Complete, Bytecode.Sound;
  }

  /** The filter of a compiled program turns away no start of a match. */
  lemma CompiledFilterIsSound(b: Build)
    requires Complete(b) && Wired(b.g) && Filters.Admissible(b.g, b.prog.filterOff, b.prog.filter)
    ensures Bytecode.Runnable(b.prog, b.plan) && Leftmost.FilterSound(b.prog, b.plan)
  {
    hide *;
    CompiledIsRunnable(b);
    InitialThere(b.g);
    forall l: nat, w: seq<Byte>, pos: nat |
        l <= b.prog.maxLabel && b.prog.filterOff + 2 <= |w| && Leftmost.Preferred(b.prog, b.plan, l, w, pos).Some?
      ensures PairIndex(w[b.prog.filterOff], w[b.prog.filterOff + 1]) in b.prog.filter
    {
      CompiledPrefers(b, l, w, pos);
      PlusSome(Ran(b.g, l, 0, NOLABEL, w), pos);
      RanIsAccepted(b.g, l, 0, NOLABEL, w);
      AdmitsPair(b, w, Ran(b.g, l, 0, NOLABEL, w).value);
    }
    SoundBy(b);
  }

  lemma InitialThere(g: Nfa)
    requires Wired(g)
    ensures 0 < |g.vertices|
  {
  }

  lemma PlusSome(r: Option<nat>, pos: nat)
    ensures Plus(r, pos).Some? <==> r.Some?
  {
  }

  lemma AdmitsPair(b: Build, w: seq<Byte>, n: nat)
    requires Wired(b.g) && Filters.Admissible(b.g, b.prog.filterOff, b.prog.filter) && b.prog.filterOff + 2 <= |w|
    requires n <= |w| && Filters.AcceptsSome(b.g, 0, w[..n])
    ensures PairIndex(w[b.prog.filterOff], w[b.prog.filterOff + 1]) in b.prog.filter
  {
  }

  lemma SoundBy(b: Build)
    requires Bytecode.Runnable(b.prog, b.plan)
    requires forall l: nat, w: seq<Byte>, pos: nat ::
               l <= b.prog.maxLabel && b.prog.filterOff + 2 <= |w| && Leftmost.Preferred(b.prog, b.plan, l, w, pos).Some?
               ==> PairIndex(w[b.prog.filterOff], w[b.prog.filterOff + 1]) in b.prog.filter
    ensures Leftmost.FilterSound(b.prog, b.plan)
  {
    hide Leftmost.Preferred, Bytecode.Runnable;
  }

  // ----- the hits -----

  /** Offset i of text is the start of a match of the automaton. */
  ghost predicate Matches(g: Nfa, l: nat, text: seq<Byte>, i: nat)
    requires Wired(g) && i <= |text|
  {
    Best(g, l, 0, text[i..]).Some?
  }

  /**
   The hits, in order: each starts at the least offset from from on at which a
   match of the automaton may and does start and ends where trying the edges in order ends
   it; the next is looked for from there; and after the last there is none.
   */
  ghost predicate LeftmostHits(g: Nfa, l: nat, text: seq<Byte>, may: seq<bool>, base: nat, from: nat, hits: seq<Frames.Hit>)
    requires Wired(g) && |may| == |text|
    decreases |hits|
  {
    if hits == [] then
      forall i: nat :: from <= i < |text| && may[i] ==> !Matches(g, l, text, i)
    else
      var h := hits[0];
      && base + from <= h.start < h.end
      && h.start - base < |text| && may[h.start - base]
      && h.lbl == l
      && Plus(Best(g, l, 0, text[h.start - base..]), h.start) == Some(h.end)
      && (forall i: nat :: from <= i < h.start - base && may[i] ==> !Matches(g, l, text, i))
      && LeftmostHits(g, l, text, may, base, h.end - base, hits[1..])
  }

  /** The program prefers what the automaton prefers. */
  ghost predicate Compiles(g: Nfa, b: Build)
    requires Wired(g) && Complete(b)
  {
    forall l: nat, w: seq<Byte> :: Wired(b.g) && Carry(b.g, l, 0, NOLABEL, w) == Best(g, l, 0, w)
  }

  lemma PreferredIsBest(g: Nfa, b: Build, l: nat, w: seq<Byte>, pos: nat)
    requires Wired(g) && Complete(b) && Compiles(g, b) && Wired(b.g) && Lossless(b.g)
    ensures Bytecode.Runnable(b.prog, b.plan)
    ensures Leftmost.Preferred(b.prog, b.plan, l, w, pos) == Plus(Best(g, l, 0, w), pos)
  {
    CompiledPrefers(b, l, w, pos);
    InitialThere(b.g);
    RanIsCarry(b.g, l, 0, NOLABEL, w);
    hide Complete, Leftmost.Preferred, Lossless;
  }

  lemma {:induction false} LeftmostTransfers(g: Nfa, b: Build, l: nat, text: seq<Byte>, may: seq<bool>, base: nat, from: nat, hits: seq<Frames.Hit>)
    requires Wired(g) && Complete(b) && Compiles(g, b) && Wired(b.g) && Lossless(b.g) && Bytecode.Runnable(b.prog, b.plan)
    requires |may| == |text| && Leftmost.LeftmostFrom(b.prog, b.plan, l, text, may, base, from, hits)
    ensures LeftmostHits(g, l, text, may, base, from, hits)
    decreases |hits|
  {
    hide Complete, Compiles, Lossless, Bytecode.Runnable, Leftmost.Preferred, Best;
    forall i: nat | i <= |text| ensures Leftmost.Starts(b.prog, b.plan, l, text, base, i) <==> Matches(g, l, text, i) {
      PreferredIsBest(g, b, l, text[i..], base + i);
    }
    if hits != [] {
      var h := hits[0];
      PreferredIsBest(g, b, l, text[h.start - base..], h.start);
      LeftmostTransfers(g, b, l, text, may, base, h.end - base, hits[1..]);
    }
  }

  /**
   The whole: if no table loses a byte, calls of search and searchResolve in any order over
   consecutive bytes, from a fresh machine, and then closing out, report for every label of
   the program exactly the leftmost matches of the automaton that start in the bytes that
   search has read.
   */
  lemma SearchFindsLeftmost(g: Nfa, b: Build, l: nat, calls: seq<SafeRuns.Call>, base: nat)
    requires Wired(g) && Complete(b) && Compiles(g, b) && Wired(b.g) && Lossless(b.g) && Leftmost.Reading(calls)
    requires Filters.Admissible(b.g, b.prog.filterOff, b.prog.filter) && l <= b.prog.maxLabel
    ensures Bytecode.Runnable(b.prog, b.plan)
    ensures var s := Leftmost.Run(b.prog, b.plan, calls, base);
            Searching.Closable(b.prog, s)
            && LeftmostHits(g, l, Leftmost.TextOf(calls), Leftmost.MayOf(calls), base, 0,
                            Priority.HitsFor(Searching.CloseOut(b.prog, s, 0).hits, l))
  {
    hide *;
    CompiledFilterIsSound(b);
    Leftmost.SearchIsScan(b.prog, b.plan, l, calls, base);
    var text, may := Leftmost.TextOf(calls), Leftmost.MayOf(calls);
    Leftmost.ScanIsLeftmost(b.prog, b.plan, l, text, may, base);
    LeftmostTransfers(g, b, l, text, may, base, 0, Leftmost.ScanHits(b.prog, b.plan, l, text, may, base));
  }

  // ----- guarding and compiling -----

  /** The shape that the compiler asks for, before labels are guarded. */
  ghost predicate Buildable(g: Nfa) {
    && Unguarded(g) && AllReachable(g)
    && g.out[0] != []
    && g.vertices[0] == Vertex(NoTransition, false, NOLABEL)
    && (forall v :: 0 < v < |g.vertices| ==> SomeByte(g.vertices[v].trans))
    && (forall v :: 0 <= v < |g.vertices| ==> NoRepeats(g.out[v]) && !Barren(g, v))
  }

  /** What adding patterns, and determinizing, leave can be compiled. */
  lemma SturdyBuildable(g: Nfa)
    requires Sturdies.Sturdy(g) && |g.vertices| > 1 && 0 < |g.out| && g.out[0] != []
    ensures Buildable(g)
  {
    Sturdies.SturdyParts(g);
    forall v: nat | v < |g.vertices| ensures !Barren(g, v) {
      Sturdies.AllLead(g, v);
    }
    hide Reaches, Barren, SomeByte, AllReachable, NoRepeats;
  }

  /** Some label is all that can be matched from v, unless labels are still open there. */
  ghost predicate Settled(g: Nfa, open: set<nat>, v: nat) {
    v in open || exists l :: Knows(g, v, l)
  }

  ghost predicate Knows(g: Nfa, v: nat, l: nat) {
    forall l' :: Reaches(g, v, l') ==> l' == l
  }

  lemma KnowsStep(g: Nfa, v: nat, t: nat, l: nat)
    requires Wired(g) && v < |g.out| && t in g.out[v] && Knows(g, v, l)
    ensures Knows(g, t, l)
  {
    forall l' | Reaches(g, t, l') ensures l' == l {
      ReachesStep(g, v, t, l');
    }
  }

  lemma SettledStep(g: Nfa, lab: seq<nat>, open: set<nat>, seen: set<nat>, v: nat, i: nat)
    requires Guarded(g, lab, open, seen) && v < |g.out| && i < |g.out[v]| && g.out[v][i] < |lab| && Settled(g, open, v)
    ensures Settled(g, open, g.out[v][i])
  {
    var t := g.out[v][i];
    assert t in g.out[v];
    hide Reaches;
    if v in open {
      if t !in open {
        assert Decided(g, lab, t);
        assert Knows(g, t, lab[t]);
      }
    } else {
      var l :| Knows(g, v, l);
      KnowsStep(g, v, t, l);
    }
  }

  lemma AllSettled(g: Nfa, lab: seq<nat>, open: set<nat>, seen: set<nat>)
    requires Buildable(g) && Guarded(g, lab, open, seen)
    ensures forall v: nat :: v < |g.vertices| ==> v in seen && Settled(g, open, v)
  {
    WiredOf(g);
    WiredSizes(g);
    var s: set<nat> := set v | v in Numbers(|g.vertices|) && v in seen && Settled(g, open, v);
    assert ClosedUnder(g, s) by {
      forall v: nat, i: nat | v in s && v < |g.out| && i < |g.out[v]| ensures g.out[v][i] in s {
        ChildrenWithin(g);
        SettledStep(g, lab, open, seen, v, i);
        assert OutWithin(g, v, seen);
      }
    }
    assert 0 in s;
    forall v: nat | v < |g.vertices| ensures v in seen && Settled(g, open, v) {
      assert v in s;
    }
  }

  /** The label that a thread at v carries once v has been entered, if it must carry one. */
  ghost function KindAt(g: Nfa, open: set<nat>, v: nat): Option<nat> {
    if v in open || Barren(g, v) then None
    else
      var l :| Reaches(g, v, l);
      Some(l)
  }

  ghost function Kinds(g: Nfa, open: set<nat>): (kv: seq<Option<nat>>)
    ensures |kv| == |g.vertices| && forall v :: 0 <= v < |kv| ==> kv[v] == KindAt(g, open, v)
  {
    seq(|g.vertices|, v requires 0 <= v < |g.vertices| => KindAt(g, open, v))
  }

  /** Where labels are settled, the kind is the one label that can be matched. */
  lemma KindIs(g: Nfa, open: set<nat>, v: nat, l: nat)
    requires v !in open && Reaches(g, v, l) && Settled(g, open, v)
    ensures KindAt(g, open, v) == Some(l)
  {
    hide Reaches;
  }

  lemma OpenKind(g: Nfa, open: set<nat>, v: nat)
    requires v in open
    ensures KindAt(g, open, v) == None
  {
  }

  /** A vertex that knows its label is not torn. */
  lemma KnowsNotTorn(g: Nfa, v: nat, l: nat)
    requires Knows(g, v, l)
    ensures !Torn(g, v)
  {
    hide Reaches;
  }

  lemma SomeReached(g: Nfa, v: nat) returns (l: nat)
    requires Buildable(g) && v < |g.vertices|
    ensures Reaches(g, v, l)
  {
    assert !Barren(g, v);
    hide Reaches;
    l :| Reaches(g, v, l);
  }

  lemma KindFlows(g: Nfa, lab: seq<nat>, open: set<nat>, seen: set<nat>, v: nat, i: nat)
    requires Buildable(g) && Guarded(g, lab, open, seen) && v < |g.vertices| == |g.out| && i < |g.out[v]| && g.out[v][i] < |g.vertices|
    ensures var t := g.out[v][i];
            KindAt(g, open, v) == KindAt(g, open, t) || (KindAt(g, open, v) == None && t < |lab| && lab[t] != NOLABEL)
  {
    var t := g.out[v][i];
    AllSettled(g, lab, open, seen);
    WiredOf(g);
    assert t in g.out[v];
    var m := SomeReached(g, t);
    ReachesStep(g, v, t, m);
    assert t != 0 by {
      TailNotInitial(g, v, i);
    }
    hide Reaches, Buildable, Wired;
    if v in open {
      OpenKind(g, open, v);
      if t in open {
        OpenKind(g, open, t);
      } else {
        assert Decided(g, lab, t);
      }
    } else {
      KindIs(g, open, v, m);
      var l :| Knows(g, v, l);
      KnowsStep(g, v, t, l);
      KnowsNotTorn(g, t, l);
      assert t !in open;
      KindIs(g, open, t, m);
    }
  }

  lemma TailNotInitial(g: Nfa, v: nat, i: nat)
    requires Unguarded(g) && v < |g.out| && i < |g.out[v]|
    ensures g.out[v][i] != 0
  {
    assert g.out[v][i] in g.out[v];
  }

  lemma MatchKind(g: Nfa, lab: seq<nat>, open: set<nat>, seen: set<nat>, v: nat)
    requires Buildable(g) && Guarded(g, lab, open, seen) && v < |g.vertices| && g.vertices[v].isMatch
    ensures KindAt(g, open, v).Some?
  {
    WiredOf(g);
    AllSettled(g, lab, open, seen);
    ReachesSelf(g, v);
    assert v !in open by {
      if v in open && v != 0 {
        TornNoMatch(g, v);
      }
    }
    KindIs(g, open, v, g.vertices[v].lbl);
  }

  lemma LabelKind(g: Nfa, lab: seq<nat>, open: set<nat>, seen: set<nat>, v: nat)
    requires Buildable(g) && Guarded(g, lab, open, seen) && v < |g.vertices| == |lab| && lab[v] != NOLABEL
    ensures KindAt(g, open, v) == Some(lab[v]) && lab[v] < UNLABELABLE
  {
    AllSettled(g, lab, open, seen);
    assert v !in open;
    assert Pure(g, v, lab[v]);
    KindIs(g, open, v, lab[v]);
    RealLabel(g, v, lab[v]);
  }

  lemma RealLabel(g: Nfa, v: nat, l: nat)
    requires Unguarded(g) && Reaches(g, v, l)
    ensures l < UNLABELABLE
  {
    var p :| EndsAt(g, p, l) && p[0] == v;
  }

  lemma KindValue(g: Nfa, open: set<nat>, v: nat)
    requires Unguarded(g) && KindAt(g, open, v).Some?
    ensures KindAt(g, open, v).value < UNLABELABLE
  {
    var l := KindAt(g, open, v).value;
    assert Reaches(g, v, l) by {
      hide Reaches;
    }
    RealLabel(g, v, l);
  }

  /** Guard labels are consistent with one label for every vertex at which they are settled. */
  lemma GuardsAreConsistent(g: Nfa, lab: seq<nat>, open: set<nat>, seen: set<nat>)
    requires Buildable(g) && Guarded(g, lab, open, seen)
    ensures |lab| == |g.vertices| && Wired(Relabelled(g, lab)) && Consistent(Relabelled(g, lab), Kinds(g, open))
  {
    GuardedSizes(g, lab, open, seen);
    RelabelledWired(g, lab);
    WiredSizes(g);
    var r, kv := Relabelled(g, lab), Kinds(g, open);
    OpenKind(g, open, 0);
    forall v | 0 <= v < |kv|
      ensures kv[v].Some? ==> kv[v].value != NOLABEL
      ensures r.vertices[v].isMatch ==> kv[v].Some?
      ensures r.vertices[v].lbl != NOLABEL ==> kv[v] == Some(r.vertices[v].lbl)
    {
      if kv[v].Some? {
        KindValue(g, open, v);
      }
      if g.vertices[v].isMatch {
        MatchKind(g, lab, open, seen, v);
      }
      if lab[v] != NOLABEL {
        LabelKind(g, lab, open, seen, v);
      }
    }
    forall v: nat, i: nat | v < |kv| && i < |r.out[v]| ensures LabelFlows(r, kv, v, r.out[v][i]) {
      ChildrenWithin(g);
      KindFlows(g, lab, open, seen, v, i);
    }
    hide Buildable, Guarded, KindAt;
  }

  lemma GuardedSizes(g: Nfa, lab: seq<nat>, open: set<nat>, seen: set<nat>)
    requires Guarded(g, lab, open, seen)
    ensures Wired(g) && |lab| == |g.vertices| && 0 in open && lab[0] == NOLABEL
  {
  }

  lemma EveryEdge(g: Nfa, v: nat)
    requires Buildable(g) && 0 < v < |g.vertices| && !g.vertices[v].isMatch
    ensures v < |g.out| && g.out[v] != []
  {
    WiredOf(g);
    var l := SomeReached(g, v);
    var p :| EndsAt(g, p, l) && p[0] == v;
    assert |p| > 1 && p[1] in g.out[v];
  }

  lemma GuardedIsCompilable(g: Nfa, lab: seq<nat>, open: set<nat>, seen: set<nat>)
    requires Buildable(g) && Guarded(g, lab, open, seen)
    ensures |lab| == |g.vertices| && Compilable(Relabelled(g, lab)) && Wired(Relabelled(g, lab))
    ensures AllReachable(Relabelled(g, lab))
  {
    GuardedSizes(g, lab, open, seen);
    RelabelledWired(g, lab);
    WiredSizes(g);
    var r := Relabelled(g, lab);
    forall v | 0 < v < |r.vertices| && !r.vertices[v].isMatch ensures r.out[v] != [] {
      EveryEdge(g, v);
    }
    forall v | 0 <= v < |r.vertices| ensures r.vertices[v].lbl <= NOLABEL {
      if lab[v] != NOLABEL {
        LabelKind(g, lab, open, seen, v);
      }
    }
    SameReachable(g, r);
    hide Reaches, Guarded, Torn, Barren;
  }

  lemma SameReachable(g: Nfa, r: Nfa)
    requires Wired(g) && Wired(r) && r.out == g.out && |r.vertices| == |g.vertices| && AllReachable(g)
    ensures AllReachable(r)
  {
    hide Wired;
    forall s: set<nat> | ClosedUnder(r, s) && 0 in s ensures forall v: nat :: v < |r.vertices| ==> v in s {
      assert ClosedUnder(g, s);
    }
  }

  // ----- guard labels and lost bytes -----

  /** The only child of the initial vertex is labelled, or every label is in front of a vertex that cannot lead back to it. */
  lemma NoLabelOnTheWayBack(g: Nfa, lab: seq<nat>, open: set<nat>, seen: set<nat>, t: nat)
    requires Buildable(g) && Guarded(g, lab, open, seen) && 0 < t < |g.vertices| && Wired(g)
    requires |g.out[0]| == 1 && |g.out[t]| == 1 && g.out[t][0] == g.out[0][0] && !g.vertices[t].isMatch
    ensures t < |lab| && lab[t] == NOLABEL
  {
    GuardedSizes(g, lab, open, seen);
    var s := g.out[0][0];
    if lab[t] != NOLABEL {
      AllSettled(g, lab, open, seen);
      var h := LabelledFrom(g, lab, open, seen, t);
      assert s in g.out[t];
      KnowsStep(g, t, s, lab[t]);
      if h == 0 {
        SelfLoopIsBarren(g, t);
      } else {
        BehindKnows(g, s, lab[t], h);
        KnowsNotTorn(g, h, lab[t]);
      }
    }
  }

  lemma LabelledFrom(g: Nfa, lab: seq<nat>, open: set<nat>, seen: set<nat>, t: nat) returns (h: nat)
    requires Guarded(g, lab, open, seen) && t in seen && t < |lab| && lab[t] != NOLABEL
    ensures h < |g.out| && t in g.out[h] && (h != 0 ==> Torn(g, h)) && Knows(g, t, lab[t])
  {
    hide Reaches, Torn;
    assert EnteredFrom(g, open, t);
    h :| h in open && h < |g.out| && t in g.out[h];
  }

  lemma SelfLoopIsBarren(g: Nfa, t: nat)
    requires Buildable(g) && 0 < t < |g.vertices| && t < |g.out| && g.out[t] == [t]
    ensures g.vertices[t].isMatch
  {
    var l := SomeReached(g, t);
    var p :| EndsAt(g, p, l) && p[0] == t;
    StaysAt(g, p, t, |p| - 1);
  }

  lemma {:induction false} StaysAt(g: Nfa, p: seq<nat>, t: nat, i: nat)
    requires Path(g, p) && p[0] == t && t < |g.out| && g.out[t] == [t] && i < |p|
    ensures p[i] == t
    decreases i
  {
    if i > 0 {
      StaysAt(g, p, t, i - 1);
    }
  }

  /** What the only child of the initial vertex knows, every other vertex knows. */
  lemma BehindKnows(g: Nfa, s: nat, l: nat, v: nat)
    requires Buildable(g) && |g.out| == |g.vertices| && g.out[0] == [s] && Knows(g, s, l) && 0 < v < |g.vertices|
    ensures Knows(g, v, l)
  {
    WiredOf(g);
    var k: set<nat> := {0} + set u | u in Numbers(|g.vertices|) && Knows(g, u, l);
    ChildrenWithin(g);
    assert ClosedUnder(g, k) by {
      forall u: nat, i: nat | u in k && u < |g.out| && i < |g.out[u]| ensures g.out[u][i] in k {
        if u != 0 {
          assert g.out[u][i] in g.out[u];
          KnowsStep(g, u, g.out[u][i], l);
        }
      }
    }
    assert 0 in k;
    assert v in k;
  }

  /** Guard labels neither save nor lose a byte. */
  lemma SameLosses(g: Nfa, lab: seq<nat>, open: set<nat>, seen: set<nat>)
    requires Buildable(g) && Guarded(g, lab, open, seen)
    ensures |lab| == |g.vertices| && Wired(g) && Wired(Relabelled(g, lab)) && (Lossless(Relabelled(g, lab)) <==> Lossless(g))
  {
    GuardedSizes(g, lab, open, seen);
    RelabelledWired(g, lab);
    var r := Relabelled(g, lab);
    forall t: nat | 0 < t < |g.vertices| ensures Lost(r, t) <==> Lost(g, t) {
      SameLost(g, lab, open, seen, t);
    }
    hide Guarded;
    forall v: nat, x: Byte | v < |g.out| ensures Loses(r, v, x) <==> Loses(g, v, x) {
      SameLoses(g, r, v, x);
    }
  }

  lemma SameLost(g: Nfa, lab: seq<nat>, open: set<nat>, seen: set<nat>, t: nat)
    requires Buildable(g) && Guarded(g, lab, open, seen) && Wired(g) && 0 < t < |g.vertices| == |lab|
    ensures Wired(Relabelled(g, lab)) && (Lost(Relabelled(g, lab), t) <==> Lost(g, t))
  {
    RelabelledWired(g, lab);
    if |g.out[0]| == 1 && |g.out[t]| == 1 && g.out[t][0] == g.out[0][0] && !g.vertices[t].isMatch {
      NoLabelOnTheWayBack(g, lab, open, seen, t);
    }
    hide Guarded, Reaches, Barren;
  }

  lemma SameLoses(g: Nfa, r: Nfa, v: nat, x: Byte)
    requires Buildable(g) && Wired(g) && Wired(r) && r.out == g.out && |r.vertices| == |g.vertices| && v < |g.out|
    requires forall u :: 0 <= u < |g.vertices| ==> r.vertices[u].trans == g.vertices[u].trans
    requires forall t: nat :: 0 < t < |g.vertices| ==> (Lost(r, t) <==> Lost(g, t))
    ensures Loses(r, v, x) <==> Loses(g, v, x)
  {
    SameTable(g, r, v);
    if Layouts.Pivot(g, v)[x] != [] {
      var t := Layouts.Pivot(g, v)[x][0];
      assert t in Sequences.Dedup(Subsets.Via(g, g.out[v], x));
      var i: nat :| i < |g.out[v]| && g.out[v][i] == t;
      TailNotInitial(g, v, i);
    }
    hide Lost, Layouts.Pivot, Layouts.UsesTable;
  }

  lemma SameTable(g: Nfa, r: Nfa, v: nat)
    requires Wired(g) && Wired(r) && r.out == g.out && |r.vertices| == |g.vertices| && v < |g.out|
    requires forall u :: 0 <= u < |g.vertices| ==> r.vertices[u].trans == g.vertices[u].trans
    ensures Layouts.Pivot(g, v) == Layouts.Pivot(r, v) && Layouts.UsesTable(g, v) == Layouts.UsesTable(r, v)
  {
    forall x: Byte ensures Layouts.Pivot(g, v)[x] == Layouts.Pivot(r, v)[x] {
      SameVia(g, r, g.out[v], x);
    }
    assert Layouts.Pivot(g, v) == Layouts.Pivot(r, v);
  }

  lemma {:induction false} SameVia(g: Nfa, r: Nfa, ts: seq<nat>, x: Byte)
    requires |r.vertices| == |g.vertices|
    requires forall u :: 0 <= u < |g.vertices| ==> r.vertices[u].trans == g.vertices[u].trans
    ensures Subsets.Via(g, ts, x) == Subsets.Via(r, ts, x)
    decreases |ts|
  {
    if ts != [] {
      SameVia(g, r, ts[1..], x);
    }
  }

  /** labelGuardStates, then createProgram. */
  method CompileAutomaton(g: Graph) returns (prog: Bytecode.Program, ok: bool, ghost b: Build)
    requires g.Valid() && Buildable(g.Value())
    modifies g
    ensures ok && Complete(b) && b.prog == prog && Wired(b.g)
    ensures Wired(old(g.Value())) && Compiles(old(g.Value()), b)
    ensures Lossless(b.g) <==> Lossless(old(g.Value()))
    ensures Filters.Admissible(b.g, prog.filterOff, prog.filter)
    ensures forall l: nat :: Reaches(old(g.Value()), 0, l) ==> l <= prog.maxLabel
    ensures forall v: nat :: v < |b.g.vertices| ==> Leads(b.g, v)
  {
    hide *;
    ghost var g0 := g.Value();
    BuildableIs(g0);
    ghost var lab, open, seen := LabelGuardStates(g);
    GuardedIsCompilable(g0, lab, open, seen);
    GuardsAreConsistent(g0, lab, open, seen);
    var guarded := Snapshot(g);
    prog, ok, b := Compiler.CreateProgram(guarded, Kinds(g0, open));
    CompilesBy(g0, lab, open, seen, b);
    SameLosses(g0, lab, open, seen);
    forall l: nat | Reaches(g0, 0, l) ensures l <= prog.maxLabel {
      LabelCounted(g0, lab, open, seen, b, l);
    }
    SameCount(g0, lab);
    forall v: nat | v < |b.g.vertices| ensures Leads(b.g, v) {
      StillLeads(g0, lab, v);
    }
  }

  /** A label that can be matched is on a vertex, so that the greatest label is not less. */
  lemma LabelCounted(g: Nfa, lab: seq<nat>, open: set<nat>, seen: set<nat>, b: Build, l: nat)
    requires Buildable(g) && Guarded(g, lab, open, seen) && |lab| == |g.vertices| && Complete(b) && b.g == Relabelled(g, lab)
    requires Reaches(g, 0, l)
    ensures l <= b.prog.maxLabel
  {
    hide *;
    BuildableIs(g);
    RealLabel(g, 0, l);
    var p := GuardedPath(g, lab, open, seen, l);
    var i :| 0 <= i < |p| && p[i] < |lab| && lab[p[i]] == l;
    GreatestNotLess(b, g, lab, p[i]);
  }

  lemma GuardedPath(g: Nfa, lab: seq<nat>, open: set<nat>, seen: set<nat>, l: nat) returns (p: seq<nat>)
    requires Buildable(g) && Guarded(g, lab, open, seen) && |lab| == |g.vertices| && Reaches(g, 0, l)
    ensures Wired(g) && exists i :: 0 <= i < |p| && p[i] < |lab| && lab[p[i]] == l
  {
    p :| EndsAt(g, p, l) && p[0] == 0;
    PathsGuarded(g, lab, open, seen, p, l);
    hide *;
  }

  lemma GreatestNotLess(b: Build, g: Nfa, lab: seq<nat>, v: nat)
    requires Complete(b) && |lab| == |g.vertices| && b.g == Relabelled(g, lab) && v < |lab| && lab[v] < UNLABELABLE
    ensures lab[v] <= b.prog.maxLabel
  {
    assert b.g.vertices[v].lbl == lab[v];
    hide Consistent, Tiled, Apart, Written;
  }

  lemma SameCount(g: Nfa, lab: seq<nat>)
    requires |lab| == |g.vertices|
    ensures |Relabelled(g, lab).vertices| == |g.vertices|
  {
  }

  lemma StillLeads(g: Nfa, lab: seq<nat>, v: nat)
    requires Buildable(g) && |lab| == |g.vertices| && v < |g.vertices|
    ensures Leads(Relabelled(g, lab), v)
  {
    var l := SomeReached(g, v);
    var p :| EndsAt(g, p, l) && p[0] == v;
    assert LeadsOn(Relabelled(g, lab), p);
  }

  /** The automaton that createProgram reads. */
  method Snapshot(g: Graph) returns (r: Nfa)
    requires g.Valid()
    ensures r == g.Value()
  {
    r := g.Snapshot().Value();
  }

  lemma BuildableIs(g: Nfa)
    requires Buildable(g)
    ensures Unguarded(g) && Wired(g)
  {
  }

  lemma CompilesBy(g: Nfa, lab: seq<nat>, open: set<nat>, seen: set<nat>, b: Build)
    requires Unguarded(g) && Wired(g) && Guarded(g, lab, open, seen) && |lab| == |g.vertices| && Complete(b) && b.g == Relabelled(g, lab)
    ensures Compiles(g, b)
  {
    RelabelledWired(g, lab);
    hide Unguarded, Guarded, Complete, Relabelled;
    forall l: nat, w: seq<Byte> ensures Wired(b.g) && Carry(b.g, l, 0, NOLABEL, w) == Best(g, l, 0, w) {
      GuardsKeepPreference(g, lab, open, seen, l, w);
    }
  }

  /** If the automaton determinizes another, the hits are those of the other. */
  lemma CompilesSource(src: Nfa, g: Nfa, lists: seq<seq<nat>>, b: Build)
    requires Subsets.Determinizes(src, g, lists) && Wired(g) && Complete(b) && Compiles(g, b)
    ensures Wired(src) && Compiles(src, b)
  {
    assert Wired(src);
    hide Subsets.Determinizes, Complete, Carry, Best;
    forall l: nat, w: seq<Byte> ensures Wired(b.g) && Carry(b.g, l, 0, NOLABEL, w) == Best(src, l, 0, w) {
      Subsets.SamePreferredMatch(src, g, lists, l, w);
    }
  }
}
