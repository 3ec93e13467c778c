/**
 NFABuilder's callbacks, traverse and build (src/lib/nfabuilder.cpp:303-659): the
 automaton has exactly the strings of the tree, and there is one exactly when the
 tree does not have the empty string.
 */
module Building {
  import opened Basics
  import opened Automata
  import opened Readings
  import opened Graphs
  import opened Regexes
  import opened Fragments
  import opened Choices
  import opened Orders
  import opened Assembling
  import opened Leaves
  import opened Traversals
  import opened Builders

  // ----- what patching asks for, and what it does to the stack -----

  ghost predicate Patchable(g: Nfa, a: Fragment, dst: seq<nat>) {
    ExitsInside(a.outs, 0, |g.vertices|) && Within(g, dst) && DistinctExits(a.outs)
  }

  lemma PatchableUse(g: Nfa, a: Fragment, dst: seq<nat>)
    requires Patchable(g, a, dst)
    ensures ExitsInside(a.outs, 0, |g.vertices|) && Within(g, dst) && DistinctExits(a.outs)
  {
  }

  lemma BuildsFits(g: Nfa, f: Fragment, n: Node, lo: nat, hi: nat)
    requires Wired(g) && Assembled(g, f, n, lo, hi)
    ensures ExitsInside(f.outs, 0, |g.vertices|) && Within(g, f.ins) && DistinctExits(f.outs)
    ensures f.skip.Some? ==> f.skip.value <= |f.ins|
  {
    AssembledShape(g, f, n, lo, hi);
    IslandBound(g, lo, hi);
    hide Assembled;
  }

  /** Fragments of the stack can be patched to each other. */
  lemma StackPatchable(g: Nfa, stack: seq<Fragment>, nodes: seq<Node>, marks: seq<nat>, i: nat, j: nat)
    requires StackOk(g, stack, nodes, marks) && i < |stack| && 0 < j < |stack|
    ensures Wired(g) && Patchable(g, stack[i], stack[j].ins)
    ensures stack[i].skip.Some? ==> stack[i].skip.value <= |stack[i].ins|
  {
    hide *;
    StackUse(g, stack, nodes, marks);
    BuildsFits(g, stack[j], nodes[j - 1], marks[j], Hi(g, marks, j));
    if i == 0 {
      StartFits(g);
    } else {
      BuildsFits(g, stack[i], nodes[i - 1], marks[i], Hi(g, marks, i));
    }
    PatchableBy(g, stack[i], stack[j].ins);
  }

  lemma StartFits(g: Nfa)
    requires Wired(g)
    ensures ExitsInside(START.outs, 0, |g.vertices|) && DistinctExits(START.outs) && START.skip == None
  {
  }

  lemma PatchableBy(g: Nfa, a: Fragment, dst: seq<nat>)
    requires ExitsInside(a.outs, 0, |g.vertices|) && Within(g, dst) && DistinctExits(a.outs)
    ensures Patchable(g, a, dst)
  {
  }

  function Topped(stack: seq<Fragment>, k: nat, f: Fragment): seq<Fragment>
    requires k <= |stack|
  {
    stack[..|stack| - k] + [f]
  }

  function TreeTopped(trees: seq<Node>, k: nat, n: Node): seq<Node>
    requires k <= |trees|
  {
    trees[..|trees| - k] + [n]
  }

  // ----- what the callbacks do to the stack of trees -----

  lemma TopBuilds(g: Nfa, stack: seq<Fragment>, nodes: seq<Node>, marks: seq<nat>)
    requires StackOk(g, stack, nodes, marks) && |nodes| > 0
    ensures Wired(g) && |stack| == |marks| == |nodes| + 1
    ensures Assembled(g, stack[|nodes|], nodes[|nodes| - 1], marks[|nodes|], |g.vertices|)
    ensures Inside(stack[|nodes|].ins, marks[|nodes|], |g.vertices|) && ExitsInside(stack[|nodes|].outs, marks[|nodes|], |g.vertices|)
    ensures stack[|nodes|].skip.Some? ==> stack[|nodes|].skip.value <= |stack[|nodes|].ins|
  {
    hide *;
    StackUse(g, stack, nodes, marks);
    HiIs(g, marks, |nodes|);
    AssembledShape(g, stack[|nodes|], nodes[|nodes| - 1], marks[|nodes|], |g.vertices|);
  }

  lemma QuestionStack(g: Nfa, stack: seq<Fragment>, nodes: seq<Node>, marks: seq<nat>, greedy: bool)
    requires StackOk(g, stack, nodes, marks) && |nodes| > 0 && |stack| > 0
    ensures StackOk(g, Topped(stack, 1, Skippable(stack[|stack| - 1], greedy)),
                    TreeTopped(nodes, 1, Repetition(nodes[|nodes| - 1], 0, Some(1), greedy)), marks)
  {
    TopBuilds(g, stack, nodes, marks);
    var f, n := stack[|nodes|], nodes[|nodes| - 1];
    NothingLinked(g);
    hide StackOk, Assembled, Linked, Skippable, Wired;
    QuestionAssembled(g, f, n, greedy, marks[|nodes|], |g.vertices|);
    MatchedOf(g, stack, nodes, marks);
    StackTop(g, g, stack, nodes, marks, Skippable(f, greedy), Repetition(n, 0, Some(1), greedy), [], []);
  }

  lemma MatchedOf(g: Nfa, stack: seq<Fragment>, nodes: seq<Node>, marks: seq<nat>)
    requires StackOk(g, stack, nodes, marks)
    ensures Wired(g) && Matched(g)
  {
  }

  /** plus, or star if the fragment can be skipped afterwards. */
  lemma PlusStack(g: Nfa, g': Nfa, stack: seq<Fragment>, nodes: seq<Node>, marks: seq<nat>, greedy: bool, star: bool)
    requires StackOk(g, stack, nodes, marks) && |nodes| > 0 && |stack| > 0 && Wired(g) && Wired(g') && Matched(g')
    requires var f := stack[|stack| - 1]; Patched(g, g', f.outs, |f.outs|, f.ins)
    ensures var r := Repeating(stack[|stack| - 1], greedy);
            StackOk(g', Topped(stack, 1, if star then Skippable(r, greedy) else r),
                    TreeTopped(nodes, 1, Repetition(nodes[|nodes| - 1], if star then 0 else 1, None, greedy)), marks)
  {
    TopBuilds(g, stack, nodes, marks);
    var f, n := stack[|nodes|], nodes[|nodes| - 1];
    var r := Repeating(f, greedy);
    PatchedLinks(g, g', f.outs, f.ins);
    hide StackOk, Assembled, Linked, Skippable, Repeating, Wired, Matched, Patched, Inside, ExitsInside;
    PlusAssembled(g, g', f, n, greedy, marks[|nodes|], |g.vertices|);
    if star {
      StarAssembled(g', r, n, greedy, marks[|nodes|], |g.vertices|);
      StackTop(g, g', stack, nodes, marks, Skippable(r, greedy), Repetition(n, 0, None, greedy), f.outs, f.ins);
    } else {
      StackTop(g, g', stack, nodes, marks, r, Repetition(n, 1, None, greedy), f.outs, f.ins);
    }
  }

  lemma TwoBuild(g: Nfa, stack: seq<Fragment>, nodes: seq<Node>, marks: seq<nat>)
    requires StackOk(g, stack, nodes, marks) && |nodes| > 1
    ensures Wired(g) && Matched(g) && |stack| == |marks| == |nodes| + 1
    ensures var m := |nodes| - 1;
            && Assembled(g, stack[m], nodes[m - 1], marks[m], marks[m + 1])
            && Assembled(g, stack[m + 1], nodes[m], marks[m + 1], |g.vertices|)
            && marks[m] <= marks[m + 1] <= |g.vertices|
            && ExitsInside(stack[m].outs, marks[m], |g.vertices|) && Inside(stack[m + 1].ins, marks[m], |g.vertices|)
  {
    hide *;
    StackUse(g, stack, nodes, marks);
    var m := |nodes| - 1;
    HiIs(g, marks, m);
    HiIs(g, marks, m + 1);
    AssembledShape(g, stack[m], nodes[m - 1], marks[m], marks[m + 1]);
    AssembledShape(g, stack[m + 1], nodes[m], marks[m + 1], |g.vertices|);
    WiderExits(stack[m].outs, marks[m], marks[m + 1], |g.vertices|);
    WiderIns(stack[m + 1].ins, marks[m], marks[m + 1], |g.vertices|);
  }

  lemma WiderExits(outs: seq<Exit>, lo: nat, mid: nat, hi: nat)
    requires ExitsInside(outs, lo, mid) && mid <= hi
    ensures ExitsInside(outs, lo, hi)
  {
  }

  lemma WiderIns(ins: seq<nat>, lo: nat, mid: nat, hi: nat)
    requires Inside(ins, mid, hi) && lo <= mid
    ensures Inside(ins, lo, hi)
  {
  }

  lemma AlternateStack(g: Nfa, stack: seq<Fragment>, nodes: seq<Node>, marks: seq<nat>)
    requires StackOk(g, stack, nodes, marks) && |nodes| > 1 && |stack| > 1 && |marks| > 0
    ensures StackOk(g, Topped(stack, 2, Alternated(stack[|stack| - 2], stack[|stack| - 1])),
                    TreeTopped(nodes, 2, Alternation(nodes[|nodes| - 2], nodes[|nodes| - 1])), marks[..|marks| - 1])
  {
    TwoBuild(g, stack, nodes, marks);
    var m := |nodes| - 1;
    NothingLinked(g);
    NoExits(marks[m], |g.vertices|);
    hide StackOk, Assembled, Linked, Wired, Matched, Alternated, ExitsInside, Inside;
    AlternateAssembled(g, stack[m], nodes[m - 1], marks[m], marks[m + 1], stack[m + 1], nodes[m], |g.vertices|);
    StackMerge(g, g, stack, nodes, marks, Alternated(stack[m], stack[m + 1]), Alternation(nodes[m - 1], nodes[m]), [], []);
  }

  lemma NoExits(lo: nat, hi: nat)
    ensures ExitsInside([], lo, hi) && Inside([], lo, hi)
  {
  }

  lemma ConcatenateStack(g: Nfa, g': Nfa, stack: seq<Fragment>, nodes: seq<Node>, marks: seq<nat>)
    requires StackOk(g, stack, nodes, marks) && |nodes| > 1 && |stack| > 1 && |marks| > 0 && Wired(g) && Wired(g') && Matched(g')
    requires var a, b := stack[|stack| - 2], stack[|stack| - 1]; Patched(g, g', a.outs, |a.outs|, b.ins)
    requires var a := stack[|stack| - 2]; a.skip.Some? ==> a.skip.value <= |a.ins|
    ensures var a, b := stack[|stack| - 2], stack[|stack| - 1];
            StackOk(g', Topped(stack, 2, Concatenated(a, b, Onward(a, b))),
                    TreeTopped(nodes, 2, Concatenation(nodes[|nodes| - 2], nodes[|nodes| - 1])), marks[..|marks| - 1])
  {
    TwoBuild(g, stack, nodes, marks);
    var m := |nodes| - 1;
    var a, b := stack[m], stack[m + 1];
    PatchedLinks(g, g', a.outs, b.ins);
    hide StackOk, Assembled, Linked, Wired, Matched, Concatenated, ExitsInside, Inside, Patched, Onward;
    ConcatenateAssembled(g, g', a, nodes[m - 1], marks[m], marks[m + 1], b, nodes[m], |g.vertices|);
    StackMerge(g, g', stack, nodes, marks, Concatenated(a, b, Onward(a, b)), Concatenation(nodes[m - 1], nodes[m]), a.outs, b.ins);
  }

  // ----- marking the matches -----

  /** The exits are matches of label l, the other vertices are as they were. */
  ghost predicate Marked(g: Nfa, g': Nfa, outs: seq<Exit>, l: nat) {
    && g'.out == g.out && g'.ins == g.ins && |g'.vertices| == |g.vertices|
    && forall v: nat :: v < |g.vertices| ==>
         g'.vertices[v] == if Exits(outs, v) then Vertex(g.vertices[v].trans, true, l) else g.vertices[v]
  }

  lemma MarkedNone(g: Nfa, l: nat)
    ensures Marked(g, g, [], l)
  {
  }

  lemma MarkedStep(g: Nfa, g1: Nfa, g2: Nfa, outs: seq<Exit>, i: nat, l: nat)
    requires i < |outs| && Marked(g, g1, outs[..i], l) && outs[i].v < |g1.vertices|
    requires g2 == g1.(vertices := g1.vertices[outs[i].v := Vertex(g1.vertices[outs[i].v].trans, true, l)])
    ensures Marked(g, g2, outs[..i + 1], l)
  {
    assert outs[..i + 1] == outs[..i] + [outs[i]];
    forall v: nat ensures Exits(outs[..i + 1], v) <==> Exits(outs[..i], v) || v == outs[i].v {
      ExitsEither(outs[..i], [outs[i]], v);
      assert [outs[i]][0].v == outs[i].v;
    }
    hide Exits;
  }

  // ----- the finished automaton -----

  /** From the fragment of the whole tree to the automaton: the initial vertex linked to it, its exits marked. */
  ghost predicate Finished(g0: Nfa, g1: Nfa, g2: Nfa, f: Fragment, n: Node, l: nat) {
    && StackOk(g0, [START, f], [n], [0, 1]) && f.skip.None?
    && Wired(g0) && Wired(g1) && Linked(g0, g1, START.outs, f.ins) && Wired(g2) && Matched(g2) && Marked(g1, g2, f.outs, l)
    && g1.out[0] == f.ins
  }

  lemma FinishedUse(g0: Nfa, g1: Nfa, g2: Nfa, f: Fragment, n: Node, l: nat)
    requires Finished(g0, g1, g2, f, n, l)
    ensures Wired(g0) && Wired(g2) && Matched(g2) && Assembled(g0, f, n, 1, |g0.vertices|)
    ensures Island(g0, 1, |g0.vertices|) && Inside(f.ins, 1, |g0.vertices|) && ExitsInside(f.outs, 1, |g0.vertices|)
    ensures |g2.vertices| == |g0.vertices| == |g2.out| == |g0.out|
    ensures forall v: nat :: v < |g0.vertices| ==>
              g2.vertices[v] == if Exits(f.outs, v) then Vertex(g0.vertices[v].trans, true, l) else g0.vertices[v]
    ensures g0.vertices[0] == Vertex(NoTransition, false, NOLABEL) && !Exits(f.outs, 0)
    ensures forall v: nat :: 1 <= v < |g0.vertices| ==> Bare(g0.vertices[v])
    ensures g2.out[0] == f.ins && forall v: nat :: 1 <= v < |g0.out| ==> g2.out[v] == g0.out[v]
  {
    StackUse(g0, [START, f], [n], [0, 1]);
    FirstMark(g0, [START, f], [n], [0, 1]);
    HiIs(g0, [0, 1], 1);
    hide StackOk, Hi;
    assert [START, f][1] == f && [n][0] == n && [0, 1][1] == 1;
    AssembledShape(g0, f, n, 1, |g0.vertices|);
    SameVertices(g0, g1, START.outs, f.ins);
    forall v: nat ensures Exits(START.outs, v) <==> v == 0 {
      assert START.outs[0].v == 0;
    }
    hide Assembled, Island, Exits;
    if Exits(f.outs, 0) {
      ExitInside(f.outs, 0, 1, |g0.vertices|);
    }
    forall v: nat | 1 <= v < |g0.out| ensures g2.out[v] == g0.out[v] {
      assert !Exits(START.outs, v);
    }
  }

  /** Reading from the initial vertex is running through the fragment. */
  lemma {:induction false} ReadsIsRuns(g0: Nfa, g1: Nfa, g2: Nfa, f: Fragment, n: Node, l: nat, u: seq<Byte>, v: nat)
    requires Finished(g0, g1, g2, f, n, l) && Wired(g0) && Wired(g2) && u != [] && v < |g2.vertices|
    ensures Reads(g2, u, v) <==> Runs(g0, f.ins, u, v)
    decreases |u|
  {
    FinishedUse(g0, g1, g2, f, n, l);
    hide Finished, Assembled, Exits, Bare, Matched, Wired, Inside, ExitsInside;
    var front, x := u[..|u| - 1], u[|u| - 1];
    assert u == front + [x];
    assert Permits(g2, v, x) <==> Permits(g0, v, x);
    if |u| == 1 {
      assert u == [x] && front == [];
      RunsOne(g0, f.ins, x, v);
      FirstRead(g2, x, v);
    } else {
      if Reads(g2, u, v) {
        var h: nat :| h < |g2.out| && v in g2.out[h] && Permits(g2, v, x) && Reads(g2, front, h);
        ReadsIsRuns(g0, g1, g2, f, n, l, front, h);
        RunsInside(g0, f.ins, front, h, 1, |g0.vertices|);
        RunsSnoc(g0, f.ins, front, x, h, v);
      }
      if Runs(g0, f.ins, u, v) {
        var h := RunsLast(g0, f.ins, u, v);
        ReadsIsRuns(g0, g1, g2, f, n, l, front, h);
        RunsInside(g0, f.ins, front, h, 1, |g0.vertices|);
        assert v in g2.out[h] && Reads(g2, front, h);
      }
    }
  }

  lemma FirstRead(g: Nfa, x: Byte, v: nat)
    requires Wired(g) && v < |g.vertices|
    ensures Reads(g, [x], v) <==> v in g.out[0] && Permits(g, v, x)
  {
    assert [x][..0] == [];
    assert Reads(g, [], 0);
    if Reads(g, [x], v) {
      var h: nat :| h < |g.out| && v in g.out[h] && Permits(g, v, x) && Reads(g, [x][..0], h);
      assert h == 0;
    }
  }

  /** The automaton has the strings of the tree. */
  lemma FinishedSpells(g0: Nfa, g1: Nfa, g2: Nfa, f: Fragment, n: Node, l: nat, u: seq<Byte>)
    requires Finished(g0, g1, g2, f, n, l) && Wired(g2)
    ensures Accepts(g2, l, 0, u) <==> Lang(n, u)
  {
    SpellsIsAccepts(g2, l, u);
    FinishedUse(g0, g1, g2, f, n, l);
    hide Finished, Bare, Matched, Wired, Inside, ExitsInside, Lang, Accepts, Reads, Runs, Island, Exits;
    NoEmptyString(g0, f, n);
    if u == [] {
      NothingRead(g2);
    } else {
      if Spells(g2, l, u) {
        var v: nat :| v < |g2.vertices| && Reads(g2, u, v) && Accepting(g2, l, v);
        ReadsIsRuns(g0, g1, g2, f, n, l, u, v);
        NotBare(g0, v);
        assert Spelled(g0, f.ins, f.outs, u);
      }
      if Lang(n, u) {
        var v := SpelledBy(g0, f, n, 1, |g0.vertices|, u);
        ReadsIsRuns(g0, g1, g2, f, n, l, u, v);
        assert Accepting(g2, l, v);
      }
    }
  }

  lemma NoEmptyString(g0: Nfa, f: Fragment, n: Node)
    requires Wired(g0) && Assembled(g0, f, n, 1, |g0.vertices|) && f.skip.None?
    ensures !Lang(n, [])
  {
    AssembledShape(g0, f, n, 1, |g0.vertices|);
  }

  lemma NothingRead(g: Nfa)
    requires Wired(g)
    ensures forall v: nat :: Reads(g, [], v) <==> v == 0
  {
  }

  lemma NotBare(g: Nfa, v: nat)
    requires |g.vertices| > 0 && g.vertices[0] == Vertex(NoTransition, false, NOLABEL)
    requires forall v: nat :: 1 <= v < |g.vertices| ==> Bare(g.vertices[v])
    ensures v < |g.vertices| ==> !g.vertices[v].isMatch
  {
  }

  /** What build delivers: an automaton of one pattern that nothing leads back into, with the given strings. */
  ghost predicate BuiltFor(g: Nfa, l: nat, n: Node) {
    && Wired(g) && Matched(g)
    && g.vertices[0] == Vertex(NoTransition, false, NOLABEL) && g.ins[0] == []
    && (forall v :: 0 <= v < |g.vertices| && g.vertices[v].isMatch ==> g.vertices[v].lbl == l)
    && (forall v :: 0 <= v < |g.vertices| && !g.vertices[v].isMatch ==> g.vertices[v].lbl == NOLABEL)
    && g.out[0] != [] && (forall v :: 0 < v < |g.vertices| ==> SomeByte(g.vertices[v].trans) && LeadsToMatch(g, v))
    && (forall u: seq<Byte> :: Accepts(g, l, 0, u) <==> Lang(n, u))
    && (forall w: seq<Byte> :: Best(g, l, 0, w) == Preferred(n, w))
  }

  ghost predicate LeadsToMatch(g: Nfa, v: nat) {
    exists p :: Path(g, p) && p[0] == v && p[|p| - 1] < |g.vertices| && g.vertices[p[|p| - 1]].isMatch
  }

  /** How many bytes the preferred string of the tree has that w begins with. */
  ghost function Preferred(n: Node, w: seq<Byte>): Option<nat> {
    Pref(n, w, u => Some(0))
  }

  // ----- the preference of the finished automaton -----

  ghost function Nothing(): Rest {
    u => Some(0)
  }

  /** A match that reads nothing, wherever it is among the edges, comes last. */
  lemma MatchComesLast(a: Option<nat>, b: Option<nat>)
    requires a != Some(0) && b != Some(0)
    ensures Prefer(a, Prefer(Some(0), b)) == OrElse(Prefer(a, b), Some(0)) && Prefer(a, b) == OrElse(a, b) && Prefer(a, b) != Some(0)
  {
  }

  lemma {:induction false} AlongReads(g: Nfa, outs: seq<Exit>, k: Rest, ts: seq<nat>, w: seq<Byte>)
    requires Wired(g) && Within(g, ts)
    ensures Along(g, outs, k, ts, w) != Some(0)
    decreases |ts|
  {
    if ts != [] {
      AlongReads(g, outs, k, ts[1..], w);
      hide At;
    }
  }

  /** The finished automaton at v, and the fragment with nothing to follow. */
  lemma {:induction false} BestIsAt(g0: Nfa, g1: Nfa, g2: Nfa, f: Fragment, n: Node, l: nat, v: nat, w: seq<Byte>)
    requires Finished(g0, g1, g2, f, n, l) && Wired(g0) && Wired(g2) && 1 <= v < |g0.vertices| && v < |g2.vertices|
    ensures Best(g2, l, v, w) == At(g0, f.outs, Nothing(), v, w)
    decreases |w|, 1
  {
    FinishedUse(g0, g1, g2, f, n, l);
    AssembledUse(g0, f, n, 1, |g0.vertices|);
    NotBare(g0, v);
    var ts := g0.out[v];
    IslandOut(g0, 1, |g0.vertices|, v);
    hide *;
    BestIsAlong(g0, g1, g2, f, n, l, ts, w);
    PointNone(f.outs, v);
    AlongReads(g0, f.outs, Nothing(), ts, w);
    BestIs(g2, l, v, w);
    AtIs(g0, f.outs, Nothing(), v, w);
    if Exits(f.outs, v) {
      PointedAt(g0, f.outs, v);
      var p := Point(f.outs, v).value;
      ThroughIs(g0, f.outs, Nothing(), ts, p, w);
      AlongCut(g0, f.outs, Nothing(), ts, p, w);
      AlongReads(g0, f.outs, Nothing(), ts[..p], w);
      AlongReads(g0, f.outs, Nothing(), ts[p..], w);
      MatchComesLast(Along(g0, f.outs, Nothing(), ts[..p], w), Along(g0, f.outs, Nothing(), ts[p..], w));
      NothingIs(w);
      AcceptingIs(g2, l, v);
    } else {
      AcceptingIs(g2, l, v);
      OrElseNothing(BestOf(g2, l, ts, w));
    }
  }

  lemma OrElseNothing(a: Option<nat>)
    ensures OrElse(a, None) == a
  {
  }

  lemma NothingIs(w: seq<Byte>)
    ensures Nothing()(w) == Some(0)
  {
  }

  lemma AcceptingIs(g: Nfa, l: nat, v: nat)
    requires v < |g.vertices|
    ensures Accepting(g, l, v) <==> g.vertices[v].isMatch && g.vertices[v].lbl == l
  {
  }

  lemma {:induction false} PointedAt(g: Nfa, outs: seq<Exit>, v: nat)
    requires Pointed(g, outs) && Point(outs, v).Some?
    ensures v < |g.out| && Point(outs, v).value <= |g.out[v]|
    decreases |outs|
  {
    if outs[0].v != v {
      PointedAt(g, outs[1..], v);
    }
  }

  lemma BestIs(g: Nfa, l: nat, v: nat, w: seq<Byte>)
    requires Wired(g) && v < |g.vertices|
    ensures v < |g.out| && Within(g, g.out[v])
    ensures Best(g, l, v, w) == OrElse(BestOf(g, l, g.out[v], w), if Accepting(g, l, v) then Some(0) else None)
  {
    hide BestOf;
  }

  lemma {:induction false} BestIsAlong(g0: Nfa, g1: Nfa, g2: Nfa, f: Fragment, n: Node, l: nat, ts: seq<nat>, w: seq<Byte>)
    requires Finished(g0, g1, g2, f, n, l) && Wired(g0) && Wired(g2) && Inside(ts, 1, |g0.vertices|)
    ensures Within(g0, ts) && Within(g2, ts) && BestOf(g2, l, ts, w) == Along(g0, f.outs, Nothing(), ts, w)
    decreases |w|, 0, |ts|
  {
    FinishedUse(g0, g1, g2, f, n, l);
    if ts != [] {
      var t := ts[0];
      hide Finished, Assembled, Best, At;
      BestIsAlong(g0, g1, g2, f, n, l, ts[1..], w);
      if w != [] {
        BestIsAt(g0, g1, g2, f, n, l, t, w[1..]);
      }
      AlongReads(g0, f.outs, Nothing(), ts[1..], w);
      FirstBest(g0, g2, f.outs, l, ts, w);
    }
  }

  lemma FirstBest(g0: Nfa, g2: Nfa, outs: seq<Exit>, l: nat, ts: seq<nat>, w: seq<Byte>)
    requires Wired(g0) && Wired(g2) && ts != [] && Within(g0, ts) && Within(g2, ts) && Within(g0, ts[1..]) && Within(g2, ts[1..])
    requires g2.vertices[ts[0]].trans == g0.vertices[ts[0]].trans
    requires w != [] ==> Best(g2, l, ts[0], w[1..]) == At(g0, outs, Nothing(), ts[0], w[1..])
    requires BestOf(g2, l, ts[1..], w) == Along(g0, outs, Nothing(), ts[1..], w) != Some(0)
    ensures BestOf(g2, l, ts, w) == Along(g0, outs, Nothing(), ts, w)
  {
    hide Best, At;
  }

  lemma FinishedPrefers(g0: Nfa, g1: Nfa, g2: Nfa, f: Fragment, n: Node, l: nat, w: seq<Byte>)
    requires Finished(g0, g1, g2, f, n, l) && Wired(g2)
    ensures Best(g2, l, 0, w) == Preferred(n, w)
  {
    FinishedUse(g0, g1, g2, f, n, l);
    AssembledUse(g0, f, n, 1, |g0.vertices|);
    assert f.skip.None?;
    hide *;
    BestIs(g2, l, 0, w);
    BestIsAlong(g0, g1, g2, f, n, l, f.ins, w);
    AcceptingIs(g2, l, 0);
    OrElseNothing(BestOf(g2, l, f.ins, w));
    PrefersUse(g0, f, n, w);
  }

  lemma PrefersUse(g: Nfa, f: Fragment, n: Node, w: seq<Byte>)
    requires Wired(g) && Prefers(g, f, n) && f.skip.None?
    ensures Within(g, f.ins) && Along(g, f.outs, Nothing(), f.ins, w) == Preferred(n, w)
  {
    assert Entering(g, f, Nothing(), w) == Pref(n, w, Nothing());
    PrefSame(n, w, Nothing(), u => Some(0));
    hide Along, Pref;
  }

  /** Every vertex leads to a match. */
  lemma FinishedLeads(g0: Nfa, g1: Nfa, g2: Nfa, f: Fragment, n: Node, l: nat, v: nat)
    requires Finished(g0, g1, g2, f, n, l) && 1 <= v < |g0.vertices|
    ensures LeadsToMatch(g2, v)
  {
    FinishedUse(g0, g1, g2, f, n, l);
    AssembledUse(g0, f, n, 1, |g0.vertices|);
    hide Finished, Assembled, Builds, Prefers;
    assert WayOut(g0, f.outs, v);
    var p :| Path(g0, p) && p[0] == v && Exits(f.outs, p[|p| - 1]);
    forall i | 0 <= i < |p| ensures 1 <= p[i] < |g0.vertices| {
      PathKept(g0, g2, 1, |g0.vertices|, p, i);
    }
    assert Path(g2, p);
  }

  lemma FinishedBuilds(g0: Nfa, g1: Nfa, g2: Nfa, f: Fragment, n: Node, l: nat)
    requires Finished(g0, g1, g2, f, n, l)
    ensures BuiltFor(g2, l, n)
  {
    FinishedUse(g0, g1, g2, f, n, l);
    AssembledUse(g0, f, n, 1, |g0.vertices|);
    forall u: seq<Byte> ensures Accepts(g2, l, 0, u) <==> Lang(n, u) {
      FinishedSpells(g0, g1, g2, f, n, l, u);
    }
    forall w: seq<Byte> ensures Best(g2, l, 0, w) == Preferred(n, w) {
      FinishedPrefers(g0, g1, g2, f, n, l, w);
    }
    forall v: nat | 0 < v < |g2.vertices| ensures SomeByte(g2.vertices[v].trans) && LeadsToMatch(g2, v) {
      FinishedLeads(g0, g1, g2, f, n, l, v);
    }
    NothingBack(g0, g2, f);
    hide Finished, Exits, Island, Inside, ExitsInside, Assembled, Matched, Accepts, Lang, Best, Preferred, LeadsToMatch, SomeByte;
  }

  lemma NothingBack(g0: Nfa, g2: Nfa, f: Fragment)
    requires Wired(g0) && Wired(g2) && Matched(g2) && Island(g0, 1, |g0.vertices|) && Inside(f.ins, 1, |g0.vertices|)
    requires |g2.vertices| == |g0.vertices|
    requires forall t: nat :: t in g2.out[0] <==> t in f.ins
    requires forall v: nat, t: nat :: 1 <= v < |g0.out| ==> (t in g2.out[v] <==> t in g0.out[v])
    ensures g2.ins[0] == []
  {
    forall h: nat | h < |g2.out| ensures 0 !in g2.out[h] {
      if h == 0 {
        assert 0 !in f.ins;
      } else {
        assert 0 !in g0.out[h];
      }
    }
    var h := SomeListed(g2.ins[0]);
    assert h < |g2.out| ==> 0 !in g2.out[h];
    assert h !in g2.ins[0];
  }

  // ----- the callbacks against the stack of trees -----

  lemma ReduceLeaf(stack: seq<Node>, n: Node)
    requires n.Literal? || n.RawByte? || n.CharClass?
    ensures Arity(n) <= |stack| && Reduce(stack, n) == stack + [n]
  {
  }

  lemma ReduceTop(stack: seq<Node>, n: Node)
    requires Arity(n) <= |stack|
    ensures n.Alternation? ==> |stack| > 1 && Reduce(stack, n) == TreeTopped(stack, 2, Alternation(stack[|stack| - 2], stack[|stack| - 1]))
    ensures n.Concatenation? ==> |stack| > 1 && Reduce(stack, n) == TreeTopped(stack, 2, Concatenation(stack[|stack| - 2], stack[|stack| - 1]))
    ensures n.Repetition? ==> |stack| > 0
    ensures n.Repetition? ==>
              Reduce(stack, n) == (if !Named(n.min, n.max) then stack
                                   else TreeTopped(stack, 1, Repetition(stack[|stack| - 1], n.min, n.max, n.greedy)))
  {
  }

  lemma LeafOkIs(n: Node)
    ensures LeafOk(n) <==> (n.Literal? ==> n.enc != [])
                           && (n.CharClass? ==> WellWritten(n.ranges) && Adjusted(n.ranges, n.breakout, n.additive).Some?)
    ensures OpFormed(n) && n.CharClass? ==> WellWritten(n.ranges)
  {
  }

  lemma NamedIs(min: nat, max: Option<nat>)
    ensures Named(min, max) <==> (min == 0 && (max == Some(1) || max == None)) || (min == 1 && max == None)
  {
  }

  lemma SizesAgree(g: Nfa, stack: seq<Fragment>, nodes: seq<Node>, marks: seq<nat>)
    requires StackOk(g, stack, nodes, marks)
    ensures |stack| == |marks| == |nodes| + 1 && stack[0] == START
  {
  }

  /** A single byte is a literal of one byte. */
  lemma ByteBuilds(g0: Nfa, g: Nfa, b: Byte)
    requires Wired(g0) && Wired(g) && g.vertices == g0.vertices + [Vertex(ByteState(b), false, NOLABEL)] && g.out == g0.out + [[]]
    ensures Added(g0, g)
    ensures Assembled(g, Fragment([|g0.vertices|], [Exit(|g0.vertices|, 0)], None), RawByte(b), |g0.vertices|, |g.vertices|)
  {
    hide *;
    SizesOf(g0);
    LiteralFirst(g0, g, [b]);
    LiteralBuilds(g0, g, [b], RawByte(b));
    LiteralAdded(g0, g, [b]);
  }

  lemma ReducesStep(stack: seq<Node>, op: Node, rest: seq<Node>, result: seq<Node>)
    requires Reduces(stack, [op] + rest, result)
    ensures Arity(op) <= |stack| && Reduces(Reduce(stack, op), rest, result)
  {
    assert ([op] + rest)[1..] == rest;
  }

  lemma ReducesNone(stack: seq<Node>, result: seq<Node>)
    requires Reduces(stack, [], result)
    ensures stack == result
  {
  }

  lemma LeavesNone()
    ensures AllLeavesOk([])
  {
  }

  lemma OneTree(g: Nfa, stack: seq<Fragment>, nodes: seq<Node>, marks: seq<nat>)
    requires StackOk(g, stack, nodes, marks) && |stack| == 2
    ensures |nodes| == 1 && StackOk(g, [START, stack[1]], [nodes[0]], [0, 1])
  {
    FirstMark(g, stack, nodes, marks);
    SizesAgree(g, stack, nodes, marks);
    StackUse(g, stack, nodes, marks);
    hide StackOk;
    assert stack == [START, stack[1]] && nodes == [nodes[0]] && marks == [0, 1];
  }

  lemma ToppedTwo(f: Fragment, c: Fragment)
    ensures Topped([START, f], 2, c) == [c]
  {
    assert [START, f][..0] == [];
  }

  lemma FinishLinks(g0: Nfa, g1: Nfa, f: Fragment)
    requires Wired(g0) && Patched(g0, g1, START.outs, |START.outs|, f.ins)
    ensures Wired(g1) && Linked(g0, g1, START.outs, f.ins) && (g0.out[0] == [] ==> g1.out[0] == f.ins)
  {
    PatchedLinks(g0, g1, START.outs, f.ins);
    assert START.outs[0] == Exit(0, 0);
    if g0.out[0] == [] {
      SplicedIs([], 0, f.ins);
    }
  }

  /** The initial vertex is an exit exactly when the tree can be skipped. */
  lemma FinishOuts(g: Nfa, f: Fragment, n: Node)
    requires StackOk(g, [START, f], [n], [0, 1])
    ensures var outs := Concatenated(START, f, Onward(START, f)).outs;
            && (Exits(outs, 0) <==> Lang(n, []))
            && (f.skip.None? ==> outs == f.outs) && (f.skip.None? <==> !Lang(n, []))
  {
    StackUse(g, [START, f], [n], [0, 1]);
    HiIs(g, [0, 1], 1);
    hide StackOk, Hi;
    assert [START, f][1] == f && [n][0] == n && [0, 1][1] == 1;
    AssembledShape(g, f, n, 1, |g.vertices|);
    hide Lang;
    var outs := Onward(START, f);
    assert outs[0].v == 0;
    assert Exits(outs, 0);
    ExitsEither(outs, f.outs, 0);
    if Exits(f.outs, 0) {
      ExitInside(f.outs, 0, 1, |g.vertices|);
    }
  }

  lemma ZeroExit(outs: seq<Exit>, i: nat)
    requires i < |outs| && outs[i].v == 0
    ensures Exits(outs, 0)
  {
  }

  lemma NoZeroExit(outs: seq<Exit>)
    requires forall k :: 0 <= k < |outs| ==> outs[k].v != 0
    ensures !Exits(outs, 0)
  {
  }

  lemma FinishedBy(g0: Nfa, g1: Nfa, g2: Nfa, f: Fragment, n: Node, l: nat)
    requires StackOk(g0, [START, f], [n], [0, 1]) && f.skip.None?
    requires Wired(g0) && Wired(g1) && Linked(g0, g1, START.outs, f.ins) && Wired(g2) && Matched(g2) && Marked(g1, g2, f.outs, l)
    requires g1.out[0] == f.ins
    ensures Finished(g0, g1, g2, f, n, l)
  {
  }

  lemma FinishInside(g0: Nfa, g1: Nfa, g2: Nfa, f: Fragment, n: Node, outs: seq<Exit>, i: nat, l: nat)
    requires StackOk(g0, [START, f], [n], [0, 1]) && Wired(g0) && Wired(g1) && Linked(g0, g1, START.outs, f.ins)
    requires i < |outs| && outs == Concatenated(START, f, Onward(START, f)).outs && Marked(g1, g2, outs[..i], l)
    ensures outs[i].v < |g2.vertices|
  {
    StackUse(g0, [START, f], [n], [0, 1]);
    HiIs(g0, [0, 1], 1);
    hide StackOk, Hi, Exits;
    assert [START, f][1] == f && [n][0] == n && [0, 1][1] == 1;
    AssembledShape(g0, f, n, 1, |g0.vertices|);
    hide Assembled;
    SameVertices(g0, g1, START.outs, f.ins);
    var first := Onward(START, f);
    assert |first| == 1 && first[0].v == 0;
  }

  /** Without {0,0}, the strings are those of the tree that was given. */
  lemma FlatBuilt(g: Nfa, l: nat, n: Node)
    requires WellFormed(n) && NoZero(n) && BuiltFor(g, l, Flat(n))
    ensures BuiltFor(g, l, n)
  {
    forall u: seq<Byte> ensures Lang(Flat(n), u) <==> Lang(n, u) {
      FlatMeans(n, u);
    }
    FlatPrefers(n);
    forall w: seq<Byte> ensures Preferred(Flat(n), w) == Preferred(n, w) {
    }
    hide Lang, Accepts, Flat, Best, Preferred;
  }

  // ----- the builder -----

  datatype Outcome = Built | EmptyMatches | Throws

  class NfaBuilder {
    const Fsm: Graph
    var CurLabel: nat
    var Stack: seq<Fragment>
    var IsGood: bool
    /** The trees that the fragments after the first are for, and where their vertices begin. */
    ghost var Trees: seq<Node>
    ghost var Marks: seq<nat>

    constructor ()
      ensures fresh(Fsm) && Fsm.Valid() && StackOk(Fsm.Value(), Stack, Trees, Marks) && Trees == [] && !IsGood
    {
      Fsm := new Graph(1);
      CurLabel, IsGood := 0, false;
      Stack := [START];
      Trees, Marks := [], [0];
      new;
      assert Fsm.Value().out == [[]];
      StackStart(Fsm.Value());
    }

    /** reset */
    method Reset()
      modifies `Stack, `IsGood, `Trees, `Marks, Fsm
      ensures Fsm.Valid() && StackOk(Fsm.Value(), Stack, Trees, Marks) && Trees == [] && !IsGood
    {
      Fsm.StartOver();
      IsGood := false;
      Stack := [START];
      Trees, Marks := [], [0];
      StackStart(Fsm.Value());
    }

    // ----- leaves -----

    /** literal; not ok where it throws, the encoder having no bytes for the code point. */
    method PushLiteral(n: Node) returns (ok: bool)
      requires n.Literal? && Fsm.Valid() && StackOk(Fsm.Value(), Stack, Trees, Marks)
      modifies `Stack, `Trees, `Marks, Fsm
      ensures Fsm.Valid() && (ok <==> LeafOk(n))
      ensures ok ==> StackOk(Fsm.Value(), Stack, Trees, Marks) && Trees == Reduce(old(Trees), n)
    {
      hide *;
      LeafOkIs(n);
      ok := n.enc != [];
      if ok {
        ghost var g0 := Fsm.Value();
        var f := BuildLiteral(Fsm, n.enc);
        assert n == Literal(n.enc);
        StackPush(g0, Fsm.Value(), Stack, Trees, Marks, f, n);
        ReduceLeaf(Trees, n);
        Stack := Stack + [f];
        Trees, Marks := Trees + [n], Marks + [|g0.vertices|];
      }
    }

    /** rawByte */
    method PushRawByte(n: Node)
      requires n.RawByte? && Fsm.Valid() && StackOk(Fsm.Value(), Stack, Trees, Marks)
      modifies `Stack, `Trees, `Marks, Fsm
      ensures Fsm.Valid() && StackOk(Fsm.Value(), Stack, Trees, Marks) && Trees == Reduce(old(Trees), n)
    {
      hide *;
      ghost var g0 := Fsm.Value();
      var v := Fsm.AddVertex(Vertex(ByteState(n.b), false, NOLABEL));
      var f := Fragment([v], [Exit(v, 0)], None);
      ByteBuilds(g0, Fsm.Value(), n.b);
      assert n == RawByte(n.b);
      StackPush(g0, Fsm.Value(), Stack, Trees, Marks, f, n);
      ReduceLeaf(Trees, n);
      Stack := Stack + [f];
      Trees, Marks := Trees + [n], Marks + [|g0.vertices|];
    }

    /** charClass; not ok where it throws, no byte being left. */
    method PushCharClass(n: Node) returns (ok: bool)
      requires n.CharClass? && WellWritten(n.ranges) && Fsm.Valid() && StackOk(Fsm.Value(), Stack, Trees, Marks)
      modifies `Stack, `Trees, `Marks, Fsm
      ensures Fsm.Valid() && (ok <==> LeafOk(n))
      ensures ok ==> StackOk(Fsm.Value(), Stack, Trees, Marks) && Trees == Reduce(old(Trees), n)
    {
      hide *;
      LeafOkIs(n);
      ghost var g0 := Fsm.Value();
      var f: Fragment;
      f, ok := BuildClass(Fsm, n);
      if ok {
        StackPush(g0, Fsm.Value(), Stack, Trees, Marks, f, n);
        ReduceLeaf(Trees, n);
        Stack := Stack + [f];
        Trees, Marks := Trees + [n], Marks + [|g0.vertices|];
      }
    }

    // ----- operators on the stack of fragments -----

    /** question and question_ng */
    method Question(greedy: bool)
      requires Stack != []
      modifies `Stack
      ensures Stack == Topped(old(Stack), 1, Skippable(old(Stack[|Stack| - 1]), greedy))
    {
      var optional := Stack[|Stack| - 1];
      if greedy {
        if optional.skip.None? || optional.skip.value > |optional.ins| {
          optional := optional.(skip := Some(|optional.ins|));
        }
      } else {
        optional := optional.(skip := Some(0));
      }
      Stack := Stack[..|Stack| - 1] + [optional];
    }

    /** plus and plus_ng: back edges in front of, or behind, what follows. */
    method Plus(greedy: bool)
      requires Stack != [] && Fsm.Valid() && Patchable(Fsm.Value(), Stack[|Stack| - 1], Stack[|Stack| - 1].ins)
      modifies `Stack, Fsm
      ensures Fsm.Valid() && Stack == Topped(old(Stack), 1, Repeating(old(Stack[|Stack| - 1]), greedy))
      ensures var f := old(Stack[|Stack| - 1]); Patched(old(Fsm.Value()), Fsm.Value(), f.outs, |f.outs|, f.ins)
    {
      hide Patched, Patchable, Wired;
      var repeat := Stack[|Stack| - 1];
      PatchableUse(Fsm.Value(), repeat, repeat.ins);
      var outs := PatchMid(Fsm, repeat.outs, repeat.ins, Some(if greedy then |repeat.ins| else 0));
      Stack := Stack[..|Stack| - 1] + [repeat.(outs := outs)];
    }

    /** star and star_ng */
    method Star(greedy: bool)
      requires Stack != [] && Fsm.Valid() && Patchable(Fsm.Value(), Stack[|Stack| - 1], Stack[|Stack| - 1].ins)
      modifies `Stack, Fsm
      ensures Fsm.Valid() && Stack == Topped(old(Stack), 1, Skippable(Repeating(old(Stack[|Stack| - 1]), greedy), greedy))
      ensures var f := old(Stack[|Stack| - 1]); Patched(old(Fsm.Value()), Fsm.Value(), f.outs, |f.outs|, f.ins)
    {
      hide Patched, Patchable, Wired, Skippable, Repeating;
      Plus(greedy);
      Question(greedy);
    }

    /** alternate */
    method Alternate()
      requires |Stack| > 1
      modifies `Stack
      ensures Stack == Topped(old(Stack), 2, Alternated(old(Stack[|Stack| - 2]), old(Stack[|Stack| - 1])))
    {
      var second := Stack[|Stack| - 1];
      var first := Stack[|Stack| - 2];
      if first.skip.Some? {
        // leave the place where the first is skipped unchanged
      } else if second.skip.Some? {
        first := first.(skip := Some(|first.ins| + second.skip.value));
      }
      first := first.(ins := first.ins + second.ins, outs := first.outs + second.outs);
      Stack := Stack[..|Stack| - 2] + [first];
    }

    /** concatenate */
    method Concatenate()
      requires |Stack| > 1 && Fsm.Valid() && Patchable(Fsm.Value(), Stack[|Stack| - 2], Stack[|Stack| - 1].ins)
      requires var a := Stack[|Stack| - 2]; a.skip.Some? ==> a.skip.value <= |a.ins|
      modifies `Stack, Fsm
      ensures Fsm.Valid()
      ensures var a, b := old(Stack[|Stack| - 2]), old(Stack[|Stack| - 1]);
              && Patched(old(Fsm.Value()), Fsm.Value(), a.outs, |a.outs|, b.ins)
              && Stack == Topped(old(Stack), 2, Concatenated(a, b, Onward(a, b)))
    {
      hide Patched, Patchable, Wired;
      var second := Stack[|Stack| - 1];
      var first := Stack[|Stack| - 2];
      PatchableUse(Fsm.Value(), first, second.ins);
      // patch left out to right in
      var outs := PatchMid(Fsm, first.outs, second.ins, second.skip);
      // build new in list
      var ins := first.ins;
      if first.skip.Some? {
        ins := first.ins[..first.skip.value] + second.ins + first.ins[first.skip.value..];
      }
      // build new out list
      if second.skip.Some? {
        outs := outs + second.outs;
      } else {
        outs := second.outs;
      }
      // set new skippable
      var skip := if first.skip.None? || second.skip.None? then None else Some(first.skip.value + second.skip.value);
      Stack := Stack[..|Stack| - 2] + [Fragment(ins, outs, skip)];
    }

    // ----- the same, on the stack of trees -----

    /** repetition and repetition_ng */
    method Repeat(n: Node)
      requires n.Repetition? && Arity(n) <= |Trees| && Fsm.Valid() && StackOk(Fsm.Value(), Stack, Trees, Marks)
      modifies `Stack, `Trees, Fsm
      ensures Fsm.Valid() && StackOk(Fsm.Value(), Stack, Trees, Marks) && Trees == Reduce(old(Trees), n)
    {
      hide *;
      ghost var g0, stack, trees := Fsm.Value(), Stack, Trees;
      ReduceTop(Trees, n);
      NamedIs(n.min, n.max);
      SizesAgree(g0, Stack, Trees, Marks);
      StackPatchable(g0, Stack, Trees, Marks, |Stack| - 1, |Stack| - 1);
      if n.min == 0 && n.max == Some(1) {
        Question(n.greedy);
        QuestionStack(g0, stack, trees, Marks, n.greedy);
        Trees := TreeTopped(trees, 1, Repetition(trees[|trees| - 1], 0, Some(1), n.greedy));
      } else if n.min == 0 && n.max == None {
        Star(n.greedy);
        PlusStack(g0, Fsm.Value(), stack, trees, Marks, n.greedy, true);
        Trees := TreeTopped(trees, 1, Repetition(trees[|trees| - 1], 0, None, n.greedy));
      } else if n.min == 1 && n.max == None {
        Plus(n.greedy);
        PlusStack(g0, Fsm.Value(), stack, trees, Marks, n.greedy, false);
        Trees := TreeTopped(trees, 1, Repetition(trees[|trees| - 1], 1, None, n.greedy));
      }
      // all other cases are already reduced by traverse
    }

    /** callback, for all but the root. */
    method Callback(n: Node) returns (ok: bool)
      requires OpFormed(n) && Arity(n) <= |Trees| && Fsm.Valid() && StackOk(Fsm.Value(), Stack, Trees, Marks)
      modifies `Stack, `Trees, `Marks, Fsm
      ensures Fsm.Valid() && (ok <==> LeafOk(n))
      ensures ok ==> StackOk(Fsm.Value(), Stack, Trees, Marks) && Trees == Reduce(old(Trees), n)
    {
      hide *;
      LeafOkIs(n);
      ok := true;
      ghost var g0, stack, trees, marks := Fsm.Value(), Stack, Trees, Marks;
      SizesAgree(g0, Stack, Trees, Marks);
      ReduceTop(Trees, n);
      match n {
        case Alternation(_, _) =>
          Alternate();
          AlternateStack(g0, stack, trees, marks);
          Trees := TreeTopped(trees, 2, Alternation(trees[|trees| - 2], trees[|trees| - 1]));
          Marks := marks[..|marks| - 1];
        case Concatenation(_, _) =>
          StackPatchable(g0, stack, trees, marks, |stack| - 2, |stack| - 1);
          Concatenate();
          ConcatenateStack(g0, Fsm.Value(), stack, trees, marks);
          Trees := TreeTopped(trees, 2, Concatenation(trees[|trees| - 2], trees[|trees| - 1]));
          Marks := marks[..|marks| - 1];
        case Repetition(_, _, _, _) => Repeat(n);
        case Literal(_) => ok := PushLiteral(n);
        case RawByte(_) => PushRawByte(n);
        case CharClass(_, _, _) => ok := PushCharClass(n);
      }
    }

    /** traverse; not ok where a callback throws. */
    method Traverse(root: Node) returns (ok: bool)
      requires WellFormed(root) && Fsm.Valid() && StackOk(Fsm.Value(), Stack, Trees, Marks) && Trees == []
      modifies `Stack, `Trees, `Marks, Fsm
      ensures Fsm.Valid() && (ok <==> Encodable(root))
      ensures ok ==> StackOk(Fsm.Value(), Stack, Trees, Marks) && Trees == [Flat(root)]
    {
      hide *;
      var unwind := Wind(root);
      PostLeaves(root);
      PostReduces([], root);
      assert [] + [Flat(root)] == [Flat(root)];
      ok := true;
      while unwind != []
        invariant Fsm.Valid() && StackOk(Fsm.Value(), Stack, Trees, Marks)
        invariant AllFormed(Rev(unwind)) && (AllLeavesOk(Rev(unwind)) <==> Encodable(root))
        invariant Reduces(Trees, Rev(unwind), [Flat(root)])
        decreases |unwind|
      {
        var n := unwind[|unwind| - 1];
        var below := unwind[..|unwind| - 1];
        assert unwind == below + [n];
        ghost var rest := Rev(below);
        RevSnoc(below, n);
        unwind := below;
        ReducesStep(Trees, n, rest, [Flat(root)]);
        LeavesAppend([n], rest);
        OneLeaf(n);
        ok := Callback(n);
        if !ok {
          return;
        }
      }
      RevNone();
      LeavesNone();
      ReducesNone(Trees, [Flat(root)]);
    }

    /**
     finish, the callback of the root: the fragment is hung on the initial vertex
     and its exits become matches; not good if the initial vertex is among them.
     */
    method Finish()
      requires Fsm.Valid() && StackOk(Fsm.Value(), Stack, Trees, Marks) && !IsGood
      modifies `Stack, `IsGood, `Trees, `Marks, Fsm
      ensures Fsm.Valid()
      ensures IsGood <==> |old(Trees)| == 1 && !Lang(old(Trees)[0], [])
      ensures IsGood ==> BuiltFor(Fsm.Value(), CurLabel, old(Trees)[0]) && Stack == []
      ensures !IsGood ==> StackOk(Fsm.Value(), Stack, Trees, Marks) && Trees == []
    {
      hide *;
      ghost var g0, trees := Fsm.Value(), Trees;
      SizesAgree(g0, Stack, Trees, Marks);
      if |Stack| != 2 {
        Reset();
        return;
      }
      ghost var f, n := Stack[1], Trees[0];
      OneTree(g0, Stack, Trees, Marks);
      assert Stack == [START, f];
      StackPatchable(g0, Stack, Trees, Marks, 0, 1);
      Concatenate();
      ghost var g1 := Fsm.Value();
      FirstMark(g0, [START, f], [n], [0, 1]);
      FinishLinks(g0, g1, f);
      FinishOuts(g0, f, n);
      ToppedTwo(f, Concatenated(START, f, Onward(START, f)));
      var start := Stack[0];
      MarkedNone(g1, CurLabel);
      assert start.outs[..0] == [];
      for i := 0 to |start.outs|
        invariant Fsm.Valid() && Marked(g1, Fsm.Value(), start.outs[..i], CurLabel)
        invariant Stack == [start] && Trees == trees && !IsGood
        invariant forall k :: 0 <= k < i ==> start.outs[k].v != 0
      {
        var v := start.outs[i].v;
        if v == 0 {
          // state 0 is not allowed to be a match state
          ZeroExit(start.outs, i);
          Reset();
          return;
        }
        ghost var g2 := Fsm.Value();
        FinishInside(g0, g1, g2, f, n, start.outs, i, CurLabel);
        Fsm.SetVertex(v, Vertex(Fsm.Vertices[v].trans, true, CurLabel));
        MarkedStep(g1, g2, Fsm.Value(), start.outs, i, CurLabel);
      }
      NoZeroExit(start.outs);
      assert start.outs[..|start.outs|] == start.outs;
      FinishedBy(g0, g1, Fsm.Value(), f, n, CurLabel);
      FinishedBuilds(g0, g1, Fsm.Value(), f, n, CurLabel);
      IsGood := true;
      Stack := [];
    }

    /** build, after reset: what comes of the tree under the root, if there is one. */
    method Build(root: Option<Node>) returns (outcome: Outcome)
      requires root.Some? ==> WellFormed(root.value)
      requires Fsm.Valid() && StackOk(Fsm.Value(), Stack, Trees, Marks) && Trees == [] && !IsGood
      modifies `Stack, `IsGood, `Trees, `Marks, Fsm
      ensures Fsm.Valid()
      ensures outcome.Throws? <==> root.Some? && !Encodable(root.value)
      ensures outcome.Built? <==> root.Some? && Encodable(root.value) && !Lang(Flat(root.value), [])
      ensures outcome.Built? ==> BuiltFor(Fsm.Value(), CurLabel, Flat(root.value))
      ensures root.Some? && NoZero(root.value) ==>
                && (outcome.Built? <==> Encodable(root.value) && !Lang(root.value, []))
                && (outcome.Built? ==> BuiltFor(Fsm.Value(), CurLabel, root.value))
    {
      hide *;
      if root.Some? && NoZero(root.value) {
        FlatMeans(root.value, []);
      }
      if root.Some? {
        var ok := Traverse(root.value);
        if !ok {
          return Throws;
        }
      }
      Finish();
      outcome := if IsGood then Built else EmptyMatches;
      if IsGood && root.Some? && NoZero(root.value) {
        FlatBuilt(Fsm.Value(), CurLabel, root.value);
      }
    }
  }
}
