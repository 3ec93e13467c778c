/**
 From patterns to hits: what is reported under the label of a pattern is that
 pattern's leftmost matches, one after the other, in the bytes of all buffers.
 */
module Whole {
  import opened Basics
  import opened Automata
  import opened Regexes
  import opened Patterns
  import opened Pipeline
  import opened Meaning
  import Compiled
  import Losses
  import Frames
  import Filters
  import Bytecode
  import Searching
  import Leftmost
  import SafeRuns
  import Priority
  import Subsets
  import Traversals
  import Sturdies
  import Guards
  import Building
  import Choices

  /**
   The hits are strings of the pattern; each starts at the least offset from the
   end of the one before on at which a string of the pattern may and does start, and after
   the last no string of the pattern starts where one may.
   */
  ghost predicate PatternHits(n: Node, l: nat, text: seq<Byte>, may: seq<bool>, base: nat, from: nat, hits: seq<Frames.Hit>)
    requires |may| == |text|
    decreases |hits|
  {
    if hits == [] then
      forall i: nat :: from <= i < |text| && may[i] ==> !StartsAt(n, text, i)
    else
      var h := hits[0];
      && base + from <= h.start < h.end <= base + |text| && may[h.start - base]
      && h.lbl == l
      && Lang(n, text[h.start - base..h.end - base])
      && (forall i: nat :: from <= i < h.start - base && may[i] ==> !StartsAt(n, text, i))
      && PatternHits(n, l, text, may, base, h.end - base, hits[1..])
  }

  ghost predicate StartsAt(n: Node, text: seq<Byte>, i: nat)
    requires i <= |text|
  {
    Starts(n, text[i..])
  }

  lemma StartsIsMatches(g: Nfa, l: nat, n: Node, text: seq<Byte>, i: nat)
    requires Wired(g) && Finds(g, l, n) && i <= |text|
    ensures StartsAt(n, text, i) <==> Matches(g, l, text, i)
  {
    hide Starts, Found, Best, Accepts, Lang;
    FoundIsBest(g, l, text[i..]);
  }

  lemma HitIsString(g: Nfa, l: nat, n: Node, text: seq<Byte>, from: nat, base: nat, end: nat)
    requires Wired(g) && Finds(g, l, n) && base <= from && from - base <= |text|
    requires Plus(Best(g, l, 0, text[from - base..]), from) == Some(end)
    ensures from <= end <= base + |text| && Lang(n, text[from - base..end - base])
  {
    var w := text[from - base..];
    BestIsAccepted(g, l, 0, w);
    hide Starts, Found, Best, Accepts, Lang;
    var r := Best(g, l, 0, w);
    assert w[..r.value] == text[from - base..end - base];
  }

  /** The leftmost hits of the automaton are those of the pattern. */
  lemma {:induction false} HitsOfPattern(g: Nfa, l: nat, n: Node, text: seq<Byte>, may: seq<bool>, base: nat, from: nat,
                                         hits: seq<Frames.Hit>)
    requires Wired(g) && Finds(g, l, n) && |may| == |text| && LeftmostHits(g, l, text, may, base, from, hits)
    ensures PatternHits(n, l, text, may, base, from, hits)
    decreases |hits|
  {
    hide Finds, Best, Lang;
    forall i: nat | i <= |text| ensures StartsAt(n, text, i) <==> Matches(g, l, text, i) {
      StartsIsMatches(g, l, n, text, i);
    }
    hide StartsAt, Matches;
    if hits != [] {
      var h := hits[0];
      HitIsString(g, l, n, text, h.start, base, h.end);
      HitsOfPattern(g, l, n, text, may, base, h.end - base, hits[1..]);
    }
  }

  /** Every hit ends where backtracking through the pattern ends it. */
  ghost predicate PreferredEnds(n: Node, text: seq<Byte>, base: nat, hits: seq<Frames.Hit>) {
    forall i :: 0 <= i < |hits| ==> PreferredEnd(n, text, base, hits[i])
  }

  ghost predicate PreferredEnd(n: Node, text: seq<Byte>, base: nat, h: Frames.Hit) {
    && base <= h.start < h.end && h.start - base <= |text|
    && Building.Preferred(n, text[h.start - base..]) == Some(h.end - h.start)
  }

  /** The hits of the automaton end where backtracking through the pattern ends them, if the automaton prefers the same. */
  lemma {:induction false} EndsOfPattern(g: Nfa, l: nat, n: Node, text: seq<Byte>, may: seq<bool>, base: nat, from: nat,
                                         hits: seq<Frames.Hit>)
    requires Wired(g) && Prefers(g, l, n) && |may| == |text| && LeftmostHits(g, l, text, may, base, from, hits)
    ensures PreferredEnds(n, text, base, hits)
    decreases |hits|
  {
    hide Best, Building.Preferred, Prefers;
    if hits != [] {
      var h := hits[0];
      EndOfPattern(g, l, n, text[h.start - base..], h.start, h.end);
      EndsOfPattern(g, l, n, text, may, base, h.end - base, hits[1..]);
      forall i | 0 <= i < |hits| ensures PreferredEnd(n, text, base, hits[i]) {
        if i > 0 {
          assert hits[i] == hits[1..][i - 1];
        }
      }
    }
  }

  lemma EndOfPattern(g: Nfa, l: nat, n: Node, w: seq<Byte>, start: nat, end: nat)
    requires Wired(g) && Prefers(g, l, n) && start < end && Plus(Best(g, l, 0, w), start) == Some(end)
    ensures Building.Preferred(n, w) == Some(end - start)
  {
    hide Best, Building.Preferred;
    assert Best(g, l, 0, w) == Building.Preferred(n, w);
  }

  /** Counting out repetitions makes no difference to the ends, unless one of them is {0,0}. */
  lemma FlatEnds(n: Node, text: seq<Byte>, base: nat, hits: seq<Frames.Hit>)
    requires Traversals.WellFormed(n) && Traversals.NoZero(n)
    ensures PreferredEnds(Traversals.Flat(n), text, base, hits) <==> PreferredEnds(n, text, base, hits)
  {
    Choices.FlatPrefers(n);
    forall w: seq<Byte> ensures Building.Preferred(Traversals.Flat(n), w) == Building.Preferred(n, w) {
    }
    hide Building.Preferred, Traversals.Flat;
    forall i | 0 <= i < |hits| ensures PreferredEnd(Traversals.Flat(n), text, base, hits[i]) <==> PreferredEnd(n, text, base, hits[i]) {
    }
  }

  /**
   For every set of patterns that were added, and every one of them: searching any
   buffers with a program compiled from the automaton reports under its label
   the leftmost strings of the pattern.
   */
  lemma PatternsAreFound(g: Nfa, patterns: map<nat, Node>, orderly: set<nat>, b: Compiled.Build, l: nat, calls: seq<SafeRuns.Call>,
                         base: nat)
    requires Holds(g, patterns) && HoldsOrder(g, patterns, orderly) && l in patterns
    requires Wired(g) && Compiled.Complete(b) && Compiles(g, b) && Wired(b.g) && Losses.Lossless(b.g) && Leftmost.Reading(calls)
    requires Filters.Admissible(b.g, b.prog.filterOff, b.prog.filter) && l <= b.prog.maxLabel
    ensures Bytecode.Runnable(b.prog, b.plan)
    ensures var s := Leftmost.Run(b.prog, b.plan, calls, base);
            Searching.Closable(b.prog, s) &&
            var hits := Priority.HitsFor(Searching.CloseOut(b.prog, s, 0).hits, l);
            && PatternHits(patterns[l], l, Leftmost.TextOf(calls), Leftmost.MayOf(calls), base, 0, hits)
            && (l in orderly ==> PreferredEnds(patterns[l], Leftmost.TextOf(calls), base, hits))
  {
    HoldsFor(g, patterns, l);
    if l in orderly {
      OrderFor(g, patterns, orderly, l);
    }
    hide *;
    SearchFindsLeftmost(g, b, l, calls, base);
    var s := Leftmost.Run(b.prog, b.plan, calls, base);
    var hits := Priority.HitsFor(Searching.CloseOut(b.prog, s, 0).hits, l);
    HitsOfPattern(g, l, patterns[l], Leftmost.TextOf(calls), Leftmost.MayOf(calls), base, 0, hits);
    if l in orderly {
      EndsOfPattern(g, l, patterns[l], Leftmost.TextOf(calls), Leftmost.MayOf(calls), base, 0, hits);
    }
  }

  lemma OrderFor(g: Nfa, patterns: map<nat, Node>, orderly: set<nat>, l: nat)
    requires HoldsOrder(g, patterns, orderly) && l in orderly
    ensures l in patterns && Wired(g) && Prefers(g, l, patterns[l])
  {
  }

  lemma HoldsFor(g: Nfa, patterns: map<nat, Node>, l: nat)
    requires Holds(g, patterns) && l in patterns
    ensures Wired(g) && Finds(g, l, patterns[l])
  {
  }

  /** Counting out repetitions makes no difference to the hits, unless one of them is {0,0}. */
  lemma {:induction false} FlatHits(n: Node, l: nat, text: seq<Byte>, may: seq<bool>, base: nat, from: nat, hits: seq<Frames.Hit>)
    requires Traversals.WellFormed(n) && Traversals.NoZero(n) && |may| == |text|
    ensures PatternHits(Traversals.Flat(n), l, text, may, base, from, hits) <==> PatternHits(n, l, text, may, base, from, hits)
    decreases |hits|
  {
    forall u: seq<Byte> ensures Lang(Traversals.Flat(n), u) <==> Lang(n, u) {
      Traversals.FlatMeans(n, u);
    }
    hide Lang, Traversals.Flat;
    forall i: nat | i <= |text| ensures StartsAt(Traversals.Flat(n), text, i) <==> StartsAt(n, text, i) {
    }
    hide StartsAt;
    if hits != [] && base + from <= hits[0].start < hits[0].end {
      FlatHits(n, l, text, may, base, hits[0].end - base, hits[1..]);
    }
  }

  /** The same, when the automaton is determinized before it is compiled. */
  lemma PatternsAreFoundDeterminized(src: Nfa, g: Nfa, lists: seq<seq<nat>>, patterns: map<nat, Node>, orderly: set<nat>, b: Compiled.Build,
                                     l: nat, calls: seq<SafeRuns.Call>, base: nat)
    requires Holds(src, patterns) && HoldsOrder(src, patterns, orderly) && l in patterns && Subsets.Determinizes(src, g, lists)
    requires Wired(g) && Compiled.Complete(b) && Compiles(g, b) && Wired(b.g) && Losses.Lossless(b.g) && Leftmost.Reading(calls)
    requires Filters.Admissible(b.g, b.prog.filterOff, b.prog.filter) && l <= b.prog.maxLabel
    ensures Bytecode.Runnable(b.prog, b.plan)
    ensures var s := Leftmost.Run(b.prog, b.plan, calls, base);
            Searching.Closable(b.prog, s) &&
            var hits := Priority.HitsFor(Searching.CloseOut(b.prog, s, 0).hits, l);
            && PatternHits(patterns[l], l, Leftmost.TextOf(calls), Leftmost.MayOf(calls), base, 0, hits)
            && (l in orderly ==> PreferredEnds(patterns[l], Leftmost.TextOf(calls), base, hits))
  {
    hide *;
    CompilesSource(src, g, lists, b);
    PatternsAreFound(src, patterns, orderly, b, l, calls, base);
  }

  // ----- from addPattern to hits -----

  /**
   Searching any buffers with the program reports, under the label, the leftmost strings
   of the pattern, and where the order is kept those that backtracking prefers.
   */
  ghost predicate Reports(b: Compiled.Build, n: Node, orderly: bool, l: nat, calls: seq<SafeRuns.Call>, base: nat)
    requires Bytecode.Runnable(b.prog, b.plan)
  {
    var s := Leftmost.Run(b.prog, b.plan, calls, base);
       Searching.Closable(b.prog, s) &&
       var hits := Priority.HitsFor(Searching.CloseOut(b.prog, s, 0).hits, l);
       && PatternHits(n, l, Leftmost.TextOf(calls), Leftmost.MayOf(calls), base, 0, hits)
       && (orderly ==> PreferredEnds(n, Leftmost.TextOf(calls), base, hits))
  }

  /** Every pattern is reported, in all buffers. */
  ghost predicate ReportsAll(b: Compiled.Build, patterns: map<nat, Node>, orderly: set<nat>)
    requires Bytecode.Runnable(b.prog, b.plan)
  {
    forall l: nat, calls: seq<SafeRuns.Call>, base: nat ::
      l in patterns && Leftmost.Reading(calls) ==> Reports(b, patterns[l], l in orderly, l, calls, base)
  }

  lemma ReportsOne(src: Nfa, patterns: map<nat, Node>, orderly: set<nat>, b: Compiled.Build, l: nat, calls: seq<SafeRuns.Call>, base: nat)
    requires Holds(src, patterns) && HoldsOrder(src, patterns, orderly) && l in patterns
    requires Wired(src) && Compiled.Complete(b) && Compiles(src, b) && Wired(b.g) && Losses.Lossless(b.g) && Leftmost.Reading(calls)
    requires Filters.Admissible(b.g, b.prog.filterOff, b.prog.filter) && l <= b.prog.maxLabel
    ensures Bytecode.Runnable(b.prog, b.plan) && Reports(b, patterns[l], l in orderly, l, calls, base)
  {
    hide HoldsOrder, PreferredEnds, Holds, Compiled.Complete, Compiles, Losses.Lossless, Filters.Admissible, PatternHits, Bytecode.Runnable;
    PatternsAreFound(src, patterns, orderly, b, l, calls, base);
  }

  /** An added pattern can be matched from the initial vertex. */
  lemma AddedReaches(src: Nfa, patterns: map<nat, Node>, l: nat, n: nat)
    requires Holds(src, patterns) && l in patterns && (forall k: nat :: Guards.Reaches(src, 0, k) ==> k <= n)
    requires Speaks(patterns[l])
    ensures l <= n
  {
    HoldsFor(src, patterns, l);
    var u: seq<Byte> :| Lang(patterns[l], u);
    assert u[..|u|] == u;
    StartsBy(patterns[l], u, |u|);
    assert Found(src, l, u);
    var i: nat :| i <= |u| && Accepts(src, l, 0, u[..i]);
    WiredStart(src);
    Sturdies.AcceptedIsReached(src, l, 0, u[..i]);
  }

  lemma WiredStart(g: Nfa)
    requires Wired(g)
    ensures 0 < |g.vertices|
  {
  }

  /** The automaton that is compiled: that of the patterns, or one that determinizes it. */
  ghost predicate Finalizes(src: Nfa, g: Nfa, determinize: bool) {
    if determinize then exists lists :: Subsets.Determinizes(src, g, lists) else g == src
  }

  /** What is left of finalizeGraph and createProgram: a program that reports all patterns if no table loses a byte. */
  ghost predicate Programs(src: Nfa, g: Nfa, patterns: map<nat, Node>, orderly: set<nat>, b: Compiled.Build) {
    && Compiled.Complete(b) && Bytecode.Runnable(b.prog, b.plan) && Wired(g) && Wired(b.g)
    && (Losses.Lossless(b.g) <==> Losses.Lossless(g))
    && (Losses.Lossless(g) ==> ReportsAll(b, patterns, orderly))
  }

  /**
   finalizeGraph, then createProgram, after any calls of addPattern: no program where
   finalizeGraph throws, for want of patterns. If no table of the program loses a byte,
   every pattern that was added is reported. Whether one does can be told from the
   automaton before guard labels are set.
   */
  method CompilePatterns(fsm: FsmThingy, determinize: bool)
    returns (prog: Option<Bytecode.Program>, ghost unguarded: Nfa, ghost b: Compiled.Build)
    requires fsm.Valid()
    modifies fsm`Fsm, fsm.Fsm
    ensures prog.Some? <==> fsm.Added != map[]
    ensures prog.Some? ==> b.prog == prog.value && Finalizes(old(fsm.Fsm.Value()), unguarded, determinize)
    ensures prog.Some? ==> Programs(old(fsm.Fsm.Value()), unguarded, fsm.Added, fsm.Orderly, b)
  {
    hide *;
    FsmUse(fsm);
    ghost var src := fsm.Fsm.Value();
    b := *;
    var ok;
    ghost var lists;
    ok, lists := fsm.FinalizeGraph(determinize);
    unguarded := fsm.Fsm.Value();
    prog := None;
    if ok {
      Patterns.SomeEdge(unguarded);
      SturdyBuildable(unguarded);
      BuildableIs(unguarded);
      var p, _, b' := CompileAutomaton(fsm.Fsm);
      prog, b := Some(p), b';
      FinalizesBy(src, unguarded, lists, determinize);
      ProgramsBy(src, unguarded, lists, determinize, fsm.Added, fsm.Orderly, b);
    }
  }

  lemma FsmUse(fsm: FsmThingy)
    requires fsm.Valid()
    ensures fsm.Fsm.Valid() && Holds(fsm.Fsm.Value(), fsm.Added) && HoldsOrder(fsm.Fsm.Value(), fsm.Added, fsm.Orderly)
    ensures forall l :: l in fsm.Added ==> Speaks(fsm.Added[l])
    ensures Sturdies.Walkable(fsm.Fsm.Value())
  {
    Sturdies.SturdyWalkable(fsm.Fsm.Value());
    hide Holds, HoldsOrder, Sturdies.Sturdy, Sturdies.Walkable;
  }

  lemma FinalizesBy(src: Nfa, g: Nfa, lists: seq<seq<nat>>, determinize: bool)
    requires if determinize then Subsets.Determinizes(src, g, lists) else g == src
    ensures Finalizes(src, g, determinize)
  {
  }

  lemma ProgramsBy(src: Nfa, g: Nfa, lists: seq<seq<nat>>, determinize: bool, patterns: map<nat, Node>, orderly: set<nat>, b: Compiled.Build)
    requires Holds(src, patterns) && HoldsOrder(src, patterns, orderly) && (forall l :: l in patterns ==> Speaks(patterns[l])) && Sturdies.Walkable(src)
    requires if determinize then Subsets.Determinizes(src, g, lists) else g == src
    requires Compiled.Complete(b) && Wired(b.g) && Wired(g) && Compiles(g, b) && (Losses.Lossless(b.g) <==> Losses.Lossless(g))
    requires Filters.Admissible(b.g, b.prog.filterOff, b.prog.filter)
    requires forall l: nat :: Guards.Reaches(g, 0, l) ==> l <= b.prog.maxLabel
    ensures Programs(src, g, patterns, orderly, b)
  {
    hide *;
    Compiled.CompiledIsRunnable(b);
    if determinize {
      CompilesSource(src, g, lists, b);
    }
    if Losses.Lossless(g) {
      forall l: nat, calls: seq<SafeRuns.Call>, base: nat | l in patterns && Leftmost.Reading(calls)
        ensures Reports(b, patterns[l], l in orderly, l, calls, base)
      {
        HoldsFor(src, patterns, l);
        SameReached(src, g, lists, determinize, b.prog.maxLabel);
        AddedReaches(src, patterns, l, b.prog.maxLabel);
        ReportsOne(src, patterns, orderly, b, l, calls, base);
      }
      ReportsBy(b, patterns, orderly);
    }
    ProgramsIs(src, g, patterns, orderly, b);
  }

  lemma ReportsBy(b: Compiled.Build, patterns: map<nat, Node>, orderly: set<nat>)
    requires Bytecode.Runnable(b.prog, b.plan)
    requires forall l: nat, calls: seq<SafeRuns.Call>, base: nat ::
               l in patterns && Leftmost.Reading(calls) ==> Reports(b, patterns[l], l in orderly, l, calls, base)
    ensures ReportsAll(b, patterns, orderly)
  {
    hide Reports, Bytecode.Runnable;
  }

  lemma ProgramsIs(src: Nfa, g: Nfa, patterns: map<nat, Node>, orderly: set<nat>, b: Compiled.Build)
    requires Compiled.Complete(b) && Bytecode.Runnable(b.prog, b.plan) && Wired(g) && Wired(b.g)
    requires (Losses.Lossless(b.g) <==> Losses.Lossless(g)) && (Losses.Lossless(g) ==> ReportsAll(b, patterns, orderly))
    ensures Programs(src, g, patterns, orderly, b)
  {
    hide Compiled.Complete, Bytecode.Runnable, Losses.Lossless, ReportsAll;
  }

  /** Determinizing does not add labels. */
  lemma SameReached(src: Nfa, g: Nfa, lists: seq<seq<nat>>, determinize: bool, n: nat)
    requires if determinize then Subsets.Determinizes(src, g, lists) else g == src
    requires Wired(src) && Wired(g) && Sturdies.Walkable(src) && forall l: nat :: Guards.Reaches(g, 0, l) ==> l <= n
    ensures forall l: nat :: Guards.Reaches(src, 0, l) ==> l <= n
  {
    if determinize {
      forall l: nat | Guards.Reaches(src, 0, l) ensures Guards.Reaches(g, 0, l) {
        var w := Sturdies.ReachedIsBest(src, l, 0);
        Subsets.SamePreferredMatch(src, g, lists, l, w);
        Sturdies.BestIsReached(g, l, 0, w);
      }
    }
  }
}
