/** NFABuilder (src/lib/nfabuilder.cpp): from a parse tree to an automaton with its strings. */
module Builders {
  import opened Basics
  import opened Automata
  import opened Readings
  import opened Graphs
  import opened Regexes
  import opened Fragments
  import opened Assembling
  import opened Leaves
  import opened Traversals

  // ----- patching -----

  lemma SplicedStep(s: seq<nat>, pos: nat, dst: seq<nat>, j: nat)
    requires j < |dst|
    ensures Inserted(Spliced(s, pos, dst[..j]), pos + j, dst[j]) == Spliced(s, pos, dst[..j + 1])
  {
    assert dst[..j + 1] == dst[..j] + [dst[j]];
  }

  lemma SplicedNone(s: seq<nat>, pos: nat, dst: seq<nat>)
    ensures Spliced(s, pos, dst[..0]) == s
  {
    var p := if pos < |s| then pos else |s|;
    assert s == s[..p] + s[p..];
  }

  /** The out list of v has been spliced, the others are as they were. */
  ghost predicate PatchedAt(g: Nfa, g': Nfa, v: nat, pos: nat, dst: seq<nat>)
    requires Wired(g)
  {
    && Wired(g') && Matched(g') && v < |g.out| && g'.vertices == g.vertices && g'.out == g.out[v := Spliced(g.out[v], pos, dst)]
  }

  /** The inner loops of patch_mid: from one exit to every vertex of dst. */
  method PatchExit(g: Graph, e: Exit, dst: seq<nat>)
    requires g.Valid() && e.v < |g.Vertices| && Within(g.Value(), dst)
    modifies g
    ensures g.Valid() && PatchedAt(old(g.Value()), g.Value(), e.v, e.pos, dst)
  {
    hide *;
    ghost var g0 := g.Value();
    assert dst[..|dst|] == dst;
    PatchNothing(g0, e, dst);
    for j := 0 to |dst|
      invariant g.Valid() && PatchedAt(g0, g.Value(), e.v, e.pos, dst[..j])
    {
      ghost var g1 := g.Value();
      PatchReady(g0, g1, e, dst, j);
      var last := |g.InVertices(dst[j])|;
      var _ := g.InsertEdge(e.v, dst[j], e.pos + j, last);
      PatchOne(g0, g1, g.Value(), e, dst, j, last);
    }
  }

  lemma PatchNothing(g: Nfa, e: Exit, dst: seq<nat>)
    requires Wired(g) && Matched(g) && e.v < |g.vertices|
    ensures PatchedAt(g, g, e.v, e.pos, dst[..0])
  {
    SplicedNone(g.out[e.v], e.pos, dst);
    assert g.out[e.v := g.out[e.v]] == g.out;
    hide Spliced, Matched;
  }

  lemma PatchReady(g0: Nfa, g1: Nfa, e: Exit, dst: seq<nat>, j: nat)
    requires Wired(g0) && j < |dst| && PatchedAt(g0, g1, e.v, e.pos, dst[..j]) && Within(g0, dst)
    ensures Wired(g1) && e.v < |g1.vertices| == |g1.out| && dst[j] < |g1.vertices| == |g1.ins|
  {
    hide Spliced, Matched;
  }

  /** One more vertex of dst. */
  lemma PatchOne(g0: Nfa, g1: Nfa, g2: Nfa, e: Exit, dst: seq<nat>, j: nat, ti: nat)
    requires Wired(g0) && j < |dst| && PatchedAt(g0, g1, e.v, e.pos, dst[..j]) && Wired(g1) && Wired(g2) && Matched(g2)
    requires dst[j] < |g1.ins| && e.v < |g1.out|
    requires g2 == Nfa(g1.vertices, g1.out[e.v := Inserted(g1.out[e.v], e.pos + j, dst[j])],
                       g1.ins[dst[j] := Inserted(g1.ins[dst[j]], ti, e.v)])
    ensures PatchedAt(g0, g2, e.v, e.pos, dst[..j + 1])
  {
    SplicedStep(g0.out[e.v], e.pos, dst, j);
    hide Spliced, Inserted, Matched;
  }

  lemma PatchedStep(g: Nfa, g1: Nfa, g': Nfa, src: seq<Exit>, k: nat, dst: seq<nat>)
    requires Wired(g) && k < |src| && DistinctExits(src) && Patched(g, g1, src, k, dst)
    requires src[k].v < |g.out| && PatchedAt(g1, g', src[k].v, src[k].pos, dst)
    ensures Patched(g, g', src, k + 1, dst)
  {
    hide Spliced;
    assert src[..k + 1] == src[..k] + [src[k]];
    forall v: nat ensures Exits(src[..k + 1], v) <==> Exits(src[..k], v) || v == src[k].v {
      ExitsEither(src[..k], [src[k]], v);
      assert [src[k]][0].v == src[k].v;
    }
    assert !Exits(src[..k], src[k].v);
    hide Exits;
  }

  /** patch_mid: the new out lists, and the new insertion points, which are after the first skip of dst. */
  method PatchMid(g: Graph, src: seq<Exit>, dst: seq<nat>, dstskip: Option<nat>) returns (src': seq<Exit>)
    requires g.Valid() && ExitsInside(src, 0, |g.Vertices|) && Within(g.Value(), dst) && DistinctExits(src)
    modifies g
    ensures g.Valid() && Patched(old(g.Value()), g.Value(), src, |src|, dst)
    ensures src' == Moved(src, |src|, if dstskip.Some? && dstskip.value < |dst| then dstskip.value else |dst|)
  {
    hide *;
    ghost var g0 := g.Value();
    var stop := if dstskip.Some? && dstskip.value < |dst| then dstskip.value else |dst|;
    src' := src;
    PatchedNone(g0, src, dst);
    MovedNone(src, stop);
    for k := 0 to |src|
      invariant g.Valid() && Patched(g0, g.Value(), src, k, dst) && src' == Moved(src, k, stop)
    {
      ghost var g1 := g.Value();
      PatchFits(g0, g1, src, k, dst);
      PatchExit(g, src[k], dst);
      PatchedStep(g0, g1, g.Value(), src, k, dst);
      MovedStep(src, k, stop);
      src' := src'[k := Exit(src[k].v, src[k].pos + stop)];
    }
  }

  lemma MovedNone(src: seq<Exit>, stop: nat)
    ensures Moved(src, 0, stop) == src
  {
  }

  lemma MovedStep(src: seq<Exit>, k: nat, stop: nat)
    requires k < |src|
    ensures Moved(src, k, stop)[k := Exit(src[k].v, src[k].pos + stop)] == Moved(src, k + 1, stop)
  {
  }

  /** The next exit and the vertices it is linked to are in the automaton. */
  lemma PatchFits(g: Nfa, g1: Nfa, src: seq<Exit>, k: nat, dst: seq<nat>)
    requires Wired(g) && Patched(g, g1, src, k, dst) && k < |src| && ExitsInside(src, 0, |g.vertices|) && Within(g, dst)
    ensures g1.vertices == g.vertices && src[k].v < |g.vertices| && src[k].v < |g.out| && Within(g1, dst)
  {
    hide Exits;
  }

  lemma PatchedNone(g: Nfa, src: seq<Exit>, dst: seq<nat>)
    requires Wired(g) && Matched(g)
    ensures Patched(g, g, src, 0, dst)
  {
  }

  // ----- the stack -----

  const START: Fragment := Fragment([0], [Exit(0, 0)], None)

  /** Where the vertices of the i-th fragment end. */
  function Hi(g: Nfa, marks: seq<nat>, i: nat): nat {
    if i + 1 < |marks| then marks[i + 1] else |g.vertices|
  }

  /** What the builder keeps: fragments on islands one after the other, for the trees that have been read. */
  ghost predicate StackOk(g: Nfa, stack: seq<Fragment>, nodes: seq<Node>, marks: seq<nat>) {
    && Wired(g) && Matched(g)
    && |stack| == |marks| == |nodes| + 1
    && stack[0] == START && marks[0] == 0 && Hi(g, marks, 0) == 1
    && g.vertices[0] == Vertex(NoTransition, false, NOLABEL) && g.out[0] == [] && Island(g, 0, 1)
    && (forall v: nat :: 1 <= v < |g.vertices| ==> Bare(g.vertices[v]))
    && (forall i: nat :: 1 <= i < |stack| ==> Assembled(g, stack[i], nodes[i - 1], marks[i], Hi(g, marks, i)))
  }

  lemma StackUse(g: Nfa, stack: seq<Fragment>, nodes: seq<Node>, marks: seq<nat>)
    requires StackOk(g, stack, nodes, marks)
    ensures Wired(g) && Matched(g) && |stack| == |marks| == |nodes| + 1 && stack[0] == START && marks[0] == 0
    ensures |g.vertices| == |g.out| == |g.ins| && |g.vertices| > 0
    ensures forall i: nat :: 1 <= i < |stack| ==> Assembled(g, stack[i], nodes[i - 1], marks[i], Hi(g, marks, i))
  {
    hide Assembled, Island, Hi;
  }

  lemma StackStart(g: Nfa)
    requires Wired(g) && Matched(g) && g.vertices == [Vertex(NoTransition, false, NOLABEL)] && g.out == [[]]
    ensures StackOk(g, [START], [], [0])
  {
  }

  /** An island that nothing new touches. */
  lemma IslandKept(g0: Nfa, g: Nfa, lo: nat, hi: nat)
    requires Added(g0, g) && Island(g0, lo, hi) && Island(g, |g0.vertices|, |g.vertices|)
    ensures Island(g, lo, hi) && SameWithin(g0, g, lo, hi)
  {
    forall v: nat, t: nat | v < |g.out| && t in g.out[v] ensures lo <= v < hi <==> lo <= t < hi {
      if v < |g0.out| {
        assert t in g0.out[v];
      }
    }
  }

  /** A new fragment on a new island. */
  lemma StackPush(g0: Nfa, g: Nfa, stack: seq<Fragment>, nodes: seq<Node>, marks: seq<nat>, f: Fragment, n: Node)
    requires StackOk(g0, stack, nodes, marks) && Added(g0, g) && Matched(g) && Assembled(g, f, n, |g0.vertices|, |g.vertices|)
    ensures StackOk(g, stack + [f], nodes + [n], marks + [|g0.vertices|])
  {
    var stack', nodes', marks' := stack + [f], nodes + [n], marks + [|g0.vertices|];
    AssembledShape(g, f, n, |g0.vertices|, |g.vertices|);
    forall i: nat | 1 <= i < |stack'| ensures Assembled(g, stack'[i], nodes'[i - 1], marks'[i], Hi(g, marks', i)) {
      if i < |stack| {
        PushKeeps(g0, g, stack, nodes, marks, i);
        assert Hi(g, marks', i) == Hi(g0, marks, i);
      }
    }
    IslandKept(g0, g, 0, 1);
    assert g.vertices[0] == g0.vertices[0];
    hide Assembled, Island, SameWithin;
  }

  lemma PushKeeps(g0: Nfa, g: Nfa, stack: seq<Fragment>, nodes: seq<Node>, marks: seq<nat>, i: nat)
    requires StackOk(g0, stack, nodes, marks) && Added(g0, g) && Island(g, |g0.vertices|, |g.vertices|) && 1 <= i < |stack|
    ensures Assembled(g, stack[i], nodes[i - 1], marks[i], Hi(g0, marks, i))
  {
    hide *;
    StackUse(g0, stack, nodes, marks);
    var lo, hi := marks[i], Hi(g0, marks, i);
    AssembledShape(g0, stack[i], nodes[i - 1], lo, hi);
    IslandKept(g0, g, lo, hi);
    AddedWired(g0, g);
    AssembledElsewhere(g0, g, stack[i], nodes[i - 1], lo, hi);
  }

  lemma AddedWired(g0: Nfa, g: Nfa)
    requires Added(g0, g)
    ensures Wired(g0) && Wired(g) && g0.vertices <= g.vertices
  {
  }

  /** Linking inside the range from lo on does not concern what is below. */
  lemma LinkKeeps(g: Nfa, g': Nfa, outs: seq<Exit>, ins: seq<nat>, lo: nat, f: Fragment, n: Node, lo': nat, hi': nat)
    requires Wired(g) && Wired(g') && Linked(g, g', outs, ins) && ExitsInside(outs, lo, |g.vertices|) && Inside(ins, lo, |g.vertices|)
    requires Assembled(g, f, n, lo', hi') && hi' <= lo
    ensures Assembled(g', f, n, lo', hi')
  {
    hide *;
    AssembledShape(g, f, n, lo', hi');
    LinkElsewhere(g, g', outs, ins, lo, lo', hi');
    AssembledElsewhere(g, g', f, n, lo', hi');
  }

  lemma LinkElsewhere(g: Nfa, g': Nfa, outs: seq<Exit>, ins: seq<nat>, lo: nat, lo': nat, hi': nat)
    requires Wired(g) && Wired(g') && Linked(g, g', outs, ins) && ExitsInside(outs, lo, |g.vertices|) && Inside(ins, lo, |g.vertices|)
    requires Island(g, lo', hi') && hi' <= lo
    ensures Island(g', lo', hi') && SameWithin(g, g', lo', hi')
  {
    SameVertices(g, g', outs, ins);
    forall v: nat, t: nat | v < |g'.out| && t in g'.out[v]
      ensures (lo' <= v < hi' <==> lo' <= t < hi') && (lo' <= v < hi' ==> t in g.out[v])
    {
      if t !in g.out[v] {
        NewEdge(g, g', outs, ins, v, t);
        ExitInside(outs, v, lo, |g.vertices|);
      }
    }
  }

  /** The fragments below the last k are as they were. */
  lemma BelowKept(g: Nfa, g': Nfa, stack: seq<Fragment>, nodes: seq<Node>, marks: seq<nat>, outs: seq<Exit>, ins: seq<nat>, m: nat, i: nat)
    requires StackOk(g, stack, nodes, marks) && Wired(g') && Linked(g, g', outs, ins) && 1 <= i < m < |marks|
    requires ExitsInside(outs, marks[m], |g.vertices|) && Inside(ins, marks[m], |g.vertices|)
    ensures Assembled(g', stack[i], nodes[i - 1], marks[i], Hi(g, marks, i))
  {
    hide *;
    StackUse(g, stack, nodes, marks);
    MarksGrow(g, stack, nodes, marks, i + 1, m);
    HiIs(g, marks, i);
    LinkKeeps(g, g', outs, ins, marks[m], stack[i], nodes[i - 1], marks[i], Hi(g, marks, i));
  }

  lemma HiIs(g: Nfa, marks: seq<nat>, i: nat)
    ensures Hi(g, marks, i) == if i + 1 < |marks| then marks[i + 1] else |g.vertices|
  {
  }

  lemma {:induction false} MarksGrow(g: Nfa, stack: seq<Fragment>, nodes: seq<Node>, marks: seq<nat>, i: nat, m: nat)
    requires StackOk(g, stack, nodes, marks) && 1 <= i <= m < |marks|
    ensures marks[i] <= marks[m] <= |g.vertices| && 1 <= marks[i]
    decreases m
  {
    hide *;
    StackUse(g, stack, nodes, marks);
    HiIs(g, marks, m);
    AssembledShape(g, stack[m], nodes[m - 1], marks[m], Hi(g, marks, m));
    IslandBound(g, marks[m], Hi(g, marks, m));
    FirstMark(g, stack, nodes, marks);
    if i < m {
      MarksGrow(g, stack, nodes, marks, i, m - 1);
      HiIs(g, marks, m - 1);
      AssembledShape(g, stack[m - 1], nodes[m - 2], marks[m - 1], Hi(g, marks, m - 1));
    } else if i > 1 {
      MarksGrow(g, stack, nodes, marks, 1, m - 1);
      HiIs(g, marks, m - 1);
      AssembledShape(g, stack[m - 1], nodes[m - 2], marks[m - 1], Hi(g, marks, m - 1));
    }
  }

  lemma IslandBound(g: Nfa, lo: nat, hi: nat)
    requires Wired(g) && Island(g, lo, hi)
    ensures lo <= hi <= |g.vertices|
  {
  }

  lemma FirstMark(g: Nfa, stack: seq<Fragment>, nodes: seq<Node>, marks: seq<nat>)
    requires StackOk(g, stack, nodes, marks)
    ensures |marks| > 1 ==> marks[1] == 1
    ensures Island(g, 0, 1) && g.out[0] == [] && g.vertices[0] == Vertex(NoTransition, false, NOLABEL)
    ensures forall v: nat :: 1 <= v < |g.vertices| ==> Bare(g.vertices[v])
    ensures |marks| == 1 ==> |g.vertices| == 1
  {
    hide Assembled, Island;
  }

  /** The stack, put together again. */
  lemma StackBy(g: Nfa, stack: seq<Fragment>, nodes: seq<Node>, marks: seq<nat>)
    requires Wired(g) && Matched(g) && |stack| == |marks| == |nodes| + 1 && stack[0] == START && marks[0] == 0
    requires Hi(g, marks, 0) == 1 && Island(g, 0, 1) && |g.out| == |g.vertices| > 0
    requires g.vertices[0] == Vertex(NoTransition, false, NOLABEL) && g.out[0] == []
    requires forall v: nat :: 1 <= v < |g.vertices| ==> Bare(g.vertices[v])
    requires forall i: nat :: 1 <= i < |stack| ==> Assembled(g, stack[i], nodes[i - 1], marks[i], Hi(g, marks, i))
    ensures StackOk(g, stack, nodes, marks)
  {
    hide Assembled, Island, Hi;
  }

  /** The initial vertex, after linking above it. */
  lemma LinkStart(g: Nfa, g': Nfa, outs: seq<Exit>, ins: seq<nat>, lo: nat)
    requires Wired(g) && Wired(g') && Linked(g, g', outs, ins) && 1 <= lo && Island(g, 0, 1) && g.out[0] == []
    requires ExitsInside(outs, lo, |g.vertices|) && Inside(ins, lo, |g.vertices|)
    ensures Island(g', 0, 1) && |g'.out| > 0 && g'.out[0] == [] && g'.vertices == g.vertices
  {
    LinkElsewhere(g, g', outs, ins, lo, 0, 1);
    SameVertices(g, g', outs, ins);
    assert !Exits(outs, 0);
    hide Exits, Island, Inside, ExitsInside, SameWithin;
    var t := SomeListed(g'.out[0]);
    assert t !in g'.out[0];
  }

  lemma SomeListed(s: seq<nat>) returns (t: nat)
    ensures s != [] ==> t in s
  {
    t := if s == [] then 0 else s[0];
  }

  /** The top of the stack is replaced, its exits having been linked to ins of its own. */
  lemma StackTop(g: Nfa, g': Nfa, stack: seq<Fragment>, nodes: seq<Node>, marks: seq<nat>, f: Fragment, n: Node, outs: seq<Exit>, ins: seq<nat>)
    requires StackOk(g, stack, nodes, marks) && |stack| > 1 && Wired(g') && Matched(g') && Linked(g, g', outs, ins)
    requires ExitsInside(outs, marks[|marks| - 1], |g.vertices|) && Inside(ins, marks[|marks| - 1], |g.vertices|)
    requires Assembled(g', f, n, marks[|marks| - 1], |g.vertices|)
    ensures StackOk(g', stack[..|stack| - 1] + [f], nodes[..|nodes| - 1] + [n], marks)
  {
    hide *;
    StackUse(g, stack, nodes, marks);
    var m := |marks| - 1;
    var stack', nodes' := stack[..m] + [f], nodes[..m - 1] + [n];
    MarksGrow(g, stack, nodes, marks, m, m);
    FirstMark(g, stack, nodes, marks);
    SameVertices(g, g', outs, ins);
    LinkStart(g, g', outs, ins, marks[m]);
    SizesOf(g');
    forall i: nat | 1 <= i < |stack'| ensures Assembled(g', stack'[i], nodes'[i - 1], marks[i], Hi(g', marks, i)) {
      HiIs(g, marks, i);
      HiIs(g', marks, i);
      if i < m {
        BelowKept(g, g', stack, nodes, marks, outs, ins, m, i);
      }
    }
    HiIs(g', marks, 0);
    StackBy(g', stack', nodes', marks);
  }

  /** The two top fragments become one, the exits of the lower having been linked to the ins of the upper, or not at all. */
  lemma StackMerge(g: Nfa, g': Nfa, stack: seq<Fragment>, nodes: seq<Node>, marks: seq<nat>, f: Fragment, n: Node, outs: seq<Exit>, ins: seq<nat>)
    requires StackOk(g, stack, nodes, marks) && |stack| > 2 && Wired(g') && Matched(g') && Linked(g, g', outs, ins)
    requires ExitsInside(outs, marks[|marks| - 2], |g.vertices|) && Inside(ins, marks[|marks| - 2], |g.vertices|)
    requires Assembled(g', f, n, marks[|marks| - 2], |g.vertices|)
    ensures StackOk(g', stack[..|stack| - 2] + [f], nodes[..|nodes| - 2] + [n], marks[..|marks| - 1])
  {
    hide *;
    StackUse(g, stack, nodes, marks);
    var m := |marks| - 2;
    var stack', nodes', marks' := stack[..m] + [f], nodes[..m - 1] + [n], marks[..m + 1];
    MarksGrow(g, stack, nodes, marks, m, m);
    FirstMark(g, stack, nodes, marks);
    SameVertices(g, g', outs, ins);
    LinkStart(g, g', outs, ins, marks[m]);
    SizesOf(g');
    forall i: nat | 1 <= i < |stack'| ensures Assembled(g', stack'[i], nodes'[i - 1], marks'[i], Hi(g', marks', i)) {
      HiIs(g, marks, i);
      HiIs(g', marks', i);
      if i < m {
        BelowKept(g, g', stack, nodes, marks, outs, ins, m, i);
      }
    }
    HiIs(g', marks', 0);
    StackBy(g', stack', nodes', marks');
  }

  lemma NothingLinked(g: Nfa)
    requires Wired(g)
    ensures Linked(g, g, [], [])
  {
  }
}
