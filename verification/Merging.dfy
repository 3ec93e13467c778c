/** NFAOptimizer::mergeIntoFSM (src/lib/nfaoptimizer.cpp:37-200). */
module Merging {
  import opened Basics
  import opened Automata
  import opened Graphs
  import opened Readings
  import opened Sequences
  import opened Images
  import opened Lineups

  lemma GraphIsSingle(g: Graph)
    requires g.Valid()
    ensures Single(g.Value())
  {
    StoreIsSingle(g.Snapshot());
    hide Single;
  }

  class NfaOptimizer {
    var Src2Dst: seq<Option<nat>>
    var Dst2Src: map<nat, seq<nat>>
    var DstPos: map<nat, nat>
    var Visited: set<(nat, nat)>
    var Edges: seq<(nat, nat)>

    constructor ()
      ensures Src2Dst == [] && Dst2Src == map[] && DstPos == map[] && Visited == {} && Edges == []
    {
      Src2Dst, Dst2Src, DstPos, Visited, Edges := [], map[], map[], {}, [];
    }

    /** What the walk works on. */
    ghost function State(dst: Graph): Walk
      requires dst.Valid()
      reads this, dst
    {
      Walk(dst.Value(), Src2Dst, Dst2Src, DstPos, Visited, Edges)
    }

    /** NFAOptimizer::canMerge */
    predicate CanMerge(dst: Graph, dstTail: nat, src: Nfa, srcTail: nat)
      reads this, dst
      requires dst.Valid() && dstTail < |dst.Vertices| && Wired(src) && srcTail < |src.vertices|
      requires dstTail in Dst2Src ==> Dst2Src[dstTail] != [] && Dst2Src[dstTail][0] < |src.ins|
      ensures CanMerge(dst, dstTail, src, srcTail) <==> Mergeable(src, dst.Value(), Dst2Src, dstTail, srcTail)
    {
      && dst.Vertices[dstTail].lbl == src.vertices[srcTail].lbl
      && (dst.Vertices[dstTail].lbl == NOLABEL || (|src.out[srcTail]| == 0 && |dst.OutVertices(dstTail)| == 0))
      && 1 == |dst.InVertices(dstTail)| && 1 == |src.ins[srcTail]|
      && (dstTail in Dst2Src ==> 1 == |src.ins[Dst2Src[dstTail][0]]|)
      && SameBytes(dst.Vertices[dstTail].trans, src.vertices[srcTail].trans)
    }

    lemma MergeJoins(dst: Graph, d: nat, src: Nfa, g0: Nfa, h: nat, t: nat)
      requires dst.Valid() && Plain(src) && Plain(g0) && Plain(dst.Value()) && Image(src, g0, dst.Value(), Src2Dst)
      requires Kept(g0, dst.Value()) && Inverted(Src2Dst, Dst2Src)
      requires h < |Src2Dst| && t in src.out[h] && Src2Dst[h].Some? && t < |Src2Dst| && t != 0 && Src2Dst[t].None?
      requires Src2Dst[h].value < |dst.Vertices| && d < |dst.Vertices| && d in dst.Value().out[Src2Dst[h].value]
      requires d in Dst2Src ==> Dst2Src[d] != [] && Dst2Src[d][0] < |src.ins|
      requires CanMerge(dst, d, src, t)
      ensures ChildDone(src, g0, dst.Value(), dst.Value(), Src2Dst, h, t, d)
    {
      var g := dst.Value();
      assert Src2Dst[h].value in g.ins[d];
      assert d != 0;
      assert SameVertex(src.vertices[t], g.vertices[d]) by {
        assert g.vertices[d].isMatch <==> g.vertices[d].lbl != NOLABEL;
      }
      JoinableClass(src, g0, g, Src2Dst, Dst2Src, d);
      Join(src, g0, g, Src2Dst, h, t, d);
    }

    /** The loop that looks for a successor to merge with; the out degree if there is none. */
    method FindMergeable(dst: Graph, dstHead: nat, src: Nfa, srcTail: nat, start: nat) returns (di: nat)
      requires dst.Valid() && dstHead < |dst.Vertices| && Wired(src) && srcTail < |src.vertices|
      requires forall d :: d in Dst2Src ==> Dst2Src[d] != [] && Dst2Src[d][0] < |src.ins|
      ensures di == NextMergeable(src, dst.Value(), Dst2Src, dst.Value().out[dstHead], srcTail, start)
      ensures di < |dst.Value().out[dstHead]| ==>
                dst.Value().out[dstHead][di] < |dst.Vertices| && CanMerge(dst, dst.Value().out[dstHead][di], src, srcTail)
    {
      var ts := dst.OutVertices(dstHead);
      forall k | 0 <= k < |ts| ensures ts[k] < |dst.Vertices| {
      }
      di := start;
      while di < |ts|
        invariant start <= di
        invariant NextMergeable(src, dst.Value(), Dst2Src, ts, srcTail, start) == NextMergeable(src, dst.Value(), Dst2Src, ts, srcTail, di)
      {
        if CanMerge(dst, ts[di], src, srcTail) {
          return;
        }
        di := di + 1;
      }
    }

    /** The loop that looks for a successor; the out degree if it is none. */
    method FindSuccessor(dst: Graph, dstHead: nat, dstTail: nat) returns (di: nat)
      requires dst.Valid() && dstHead < |dst.Vertices|
      ensures di == IndexOf(dst.Value().out[dstHead], dstTail)
    {
      var ts := dst.OutVertices(dstHead);
      di := 0;
      while di < |ts|
        invariant di <= |ts| && dstTail !in ts[..di]
      {
        if ts[di] == dstTail {
          return;
        }
        di := di + 1;
      }
      assert ts[..|ts|] == ts;
    }

    /** First part of processChild: the image of a child is its own if it has one, else one to merge with, else a new one. */
    method ImageOf(src: Nfa, dst: Graph, srcHead: nat, srcTail: nat, dstHead: nat, ghost g0: Nfa)
      returns (dstTail: nat, di: nat)
      requires dst.Valid() && Plain(src) && Plain(g0) && Plain(dst.Value())
      requires Image(src, g0, dst.Value(), Src2Dst) && Kept(g0, dst.Value()) && Inverted(Src2Dst, Dst2Src)
      requires srcHead < |Src2Dst| && |Src2Dst| == |src.out| && 0 < srcTail < |src.out| && srcTail in src.out[srcHead]
      requires Src2Dst[srcHead] == Some(dstHead) && dstHead < |dst.Vertices|
      requires |src.vertices| == |src.out| == |src.ins|
      modifies dst
      ensures dst.Valid() && srcTail < |src.vertices|
      ensures (forall k :: 0 <= k < |old(dst.Value()).out[dstHead]| ==> old(dst.Value()).out[dstHead][k] < |old(dst.Value()).vertices|)
           && (forall d: nat :: d in Dst2Src ==> Dst2Src[d] != [] && Dst2Src[d][0] < |src.ins|)
           && Place(dst.Value(), dstTail, di) == PlaceOf(src, old(dst.Value()), Src2Dst, Dst2Src, DstPos, dstHead, srcTail)
      ensures var g := old(dst.Value());
              if Src2Dst[srcTail].Some? then dst.Value() == g && dstTail == Src2Dst[srcTail].value
              else if dst.Value() == g then dstHead < |g.out| && dstTail in g.out[dstHead] && ChildDone(src, g0, g, g, Src2Dst, srcHead, srcTail, dstTail)
              else dstTail == |g.vertices| && dst.Value() == Nfa(g.vertices + [src.vertices[srcTail]], g.out + [[]], g.ins + [[]])
    {
      PlainWired(src);
      PlainWired(dst.Value());
      InvertedUse(src);
      hide *;
      ghost var g := dst.Value();
      PlaceCases(src, g, Src2Dst, Dst2Src, DstPos, dstHead, srcTail);
      var degree := |dst.OutVertices(dstHead)|;
      if Src2Dst[srcTail].Some? {
        dstTail := Src2Dst[srcTail].value;
        di := FindSuccessor(dst, dstHead, dstTail);
      } else {
        di := if dstHead in DstPos then DstPos[dstHead] else 0;
        di := FindMergeable(dst, dstHead, src, srcTail, di);
        if di < degree {
          dstTail := dst.OutVertices(dstHead)[di];
          MergeJoins(dst, dstTail, src, g0, srcHead, srcTail);
        } else {
          // add a new vertex to the destination
          dstTail := dst.AddVertex(src.vertices[srcTail]);
          if dstHead !in DstPos {
            di := 0;
          }
        }
      }
    }

    /** Second part: don't insert duplicate edges. */
    method InsertUnlessThere(dst: Graph, dstHead: nat, dstTail: nat, di: nat)
      requires dst.Valid() && dstHead < |dst.Vertices| && dstTail < |dst.Vertices|
      modifies dst
      ensures dst.Valid() && dst.Value() == EdgeTo(old(dst.Value()), dstHead, dstTail, di)
      ensures Linked(old(dst.Value()), dst.Value(), dstHead, dstTail, di)
    {
      var dup := FindSuccessor(dst, dstHead, dstTail);
      if dup == |dst.OutVertices(dstHead)| {
        var _ := dst.InsertEdge(dstHead, dstTail, di, |dst.Ins[dstTail]|);
      }
    }

    /** NFAOptimizer::processChild */
    method ProcessChild(src: Nfa, dst: Graph, si: nat, srcHead: nat, dstHead: nat, ghost g0: Nfa)
      returns (dstTail: nat, srcTail: nat)
      requires dst.Valid() && Plain(src) && Plain(g0) && Plain(dst.Value())
      requires Image(src, g0, dst.Value(), Src2Dst) && Kept(g0, dst.Value()) && Inverted(Src2Dst, Dst2Src)
      requires Tracked(src, dst.Value(), Src2Dst, Visited)
      requires srcHead < |Src2Dst| && |Src2Dst| == |src.out| && si < |src.out[srcHead]|
      requires 0 < src.out[srcHead][si] < |src.out| && src.out[srcHead][si] in src.out[srcHead]
      requires Src2Dst[srcHead] == Some(dstHead) && dstHead < |dst.Vertices|
      modifies this`DstPos, dst
      ensures dst.Valid() && srcTail == src.out[srcHead][si]
      ensures |src.vertices| == |src.out| == |src.ins|
           && (forall k :: 0 <= k < |old(dst.Value()).out[dstHead]| ==> old(dst.Value()).out[dstHead][k] < |old(dst.Value()).vertices|)
           && (forall d: nat :: d in Dst2Src ==> Dst2Src[d] != [] && Dst2Src[d][0] < |src.ins|)
      ensures var x := PlaceOf(src, old(dst.Value()), Src2Dst, Dst2Src, old(DstPos), dstHead, srcTail);
              && dstTail == x.d && dstHead < |x.g.out| && dstTail < |x.g.ins|
              && dst.Value() == EdgeTo(x.g, dstHead, dstTail, x.di) && DstPos == old(DstPos)[dstHead := x.di]
      ensures ChildDone(src, g0, old(dst.Value()), dst.Value(), Src2Dst, srcHead, srcTail, dstTail)
      ensures Spread(old(dst.Value())) ==> Spread(dst.Value())
    {
      hide *;
      ghost var g := dst.Value();
      PlainWired(g);
      PlainWired(src);
      srcTail := src.out[srcHead][si];
      var di: nat;
      dstTail, di := ImageOf(src, dst, srcHead, srcTail, dstHead, g0);
      ghost var g1 := dst.Value();
      TailInRange(src, g0, g, g1, Src2Dst, srcHead, srcTail, dstTail);
      InsertUnlessThere(dst, dstHead, dstTail, di);
      ChildCases(src, g0, g, g1, dst.Value(), Src2Dst, Visited, srcHead, si, dstTail, di);
      if Spread(g) {
        SpreadChild(g, g1, dst.Value(), dstHead, dstTail, di);
      }
      DstPos := DstPos[dstHead := di];
    }

    lemma InvertedUse(src: Nfa)
      requires Inverted(Src2Dst, Dst2Src) && |Src2Dst| == |src.ins|
      ensures forall d :: d in Dst2Src ==> Dst2Src[d] != [] && Dst2Src[d][0] < |src.ins|
    {
    }

    /** One round of the loop, for an edge not seen yet. */
    method VisitEdge(src: Nfa, dst: Graph, p: (nat, nat), ghost g0: Nfa)
      requires dst.Valid() && Working(src, g0, dst.Value(), Src2Dst, Dst2Src, Visited, Edges)
      requires Edges != [] && p == Edges[|Edges| - 1] && p !in Visited
      requires Fits(src, State(dst))
      modifies this, dst
      ensures dst.Valid() && Working(src, g0, dst.Value(), Src2Dst, Dst2Src, Visited, Edges)
      ensures State(dst) == Stepped(src, old(State(dst)))
      ensures |EdgesOf(src) - Visited| < |EdgesOf(src) - old(Visited)|
      ensures Spread(old(dst.Value())) ==> Spread(dst.Value())
    {
      hide *;
      ghost var g := dst.Value();
      ghost var m := State(dst);
      StateIs(dst);
      WorkingTop(src, g0, g, Src2Dst, Dst2Src, Visited, Edges);
      var dstHead := Src2Dst[p.0].value;
      var dstTail, srcTail := ProcessChild(src, dst, p.1, p.0, dstHead, g0);
      WorkingStep(src, g0, g, dst.Value(), Src2Dst, Dst2Src, Visited, Edges, p.0, p.1, dstTail);
      assert p == (p.0, p.1);
      Visited := Visited + {p};
      Src2Dst := Src2Dst[srcTail := Some(dstTail)];
      Dst2Src := Dst2Src[dstTail := (if dstTail in Dst2Src then Dst2Src[dstTail] else []) + [srcTail]];
      Edges := PushAll(Edges[..|Edges| - 1], srcTail, |src.out[srcTail]|);
      SteppedTo(src, m, p.0, p.1);
      StateIs(dst);
    }

    lemma StateIs(dst: Graph)
      requires dst.Valid()
      ensures State(dst) == Walk(dst.Value(), Src2Dst, Dst2Src, DstPos, Visited, Edges)
    {
    }

    /** One round of the loop of mergeIntoFSM. */
    method Round(src: Nfa, dst: Graph, ghost g0: Nfa)
      requires dst.Valid() && Going(src, g0, State(dst)) && Edges != []
      modifies this, dst
      ensures dst.Valid() && Going(src, g0, State(dst))
      ensures old(Fits(src, State(dst))) && State(dst) == Stepped(src, old(State(dst)))
      ensures |EdgesOf(src) - Visited| < |EdgesOf(src) - old(Visited)|
           || (Visited == old(Visited) && |Edges| < |old(Edges)|)
      ensures Spread(old(dst.Value())) ==> Spread(dst.Value())
    {
      hide *;
      ghost var m := State(dst);
      StateIs(dst);
      GoingWorks(src, g0, m);
      GraphIsSingle(dst);
      var p := Edges[|Edges| - 1];
      // skip if we've seen this edge already
      if p in Visited {
        WorkingSkip(src, g0, dst.Value(), Src2Dst, Dst2Src, Visited, Edges);
        SteppedOver(src, m, p.0, p.1);
        Edges := Edges[..|Edges| - 1];
        StateIs(dst);
        WorksIs(src, g0, State(dst));
        GoingSkip(src, g0, m);
      } else {
        VisitEdge(src, dst, p, g0);
        StateIs(dst);
        WorksIs(src, g0, State(dst));
        GoingStep(src, g0, m);
      }
    }

    /**
     NFAOptimizer::mergeIntoFSM. The walk ends. Every label has the language it should have, and prefers what it should
     prefer: the new one if the source is untangled.
     */
    method MergeIntoFSM(dst: Graph, src: Nfa, ghost lnew: nat) returns (ghost phi: seq<Option<nat>>)
      requires dst.Valid() && Plain(src) && Plain(dst.Value()) && FreshLabel(src, dst.Value(), lnew)
      modifies this, dst
      ensures dst.Valid() && Plain(dst.Value())
      ensures SameLanguages(src, old(dst.Value()), dst.Value(), lnew) && OnlyLabels(old(dst.Value()), dst.Value(), lnew)
      ensures OthersPrefer(old(dst.Value()), dst.Value(), lnew)
      ensures Untangled(src) ==> NewPrefersSame(src, dst.Value(), lnew)
      ensures MergesTo(src, old(dst.Value()), dst.Value())
      ensures MergedBy(src, old(dst.Value()), dst.Value(), phi)
      ensures Spread(old(dst.Value())) ==> Spread(dst.Value())
    {
      hide *;
      ghost var g0 := dst.Value();
      PlainWired(src);
      PlainWired(g0);
      Src2Dst := seq(|src.out|, i => if i == 0 then Some(0) else None);
      Dst2Src, DstPos, Visited := map[], map[], {};
      // push all outedges of the initial state in the source
      Edges := PushAll([], 0, |src.out[0]|);
      WorkingFirst(src, g0, Src2Dst);
      StateIs(dst);
      FirstIs(src, g0, State(dst));
      WorksIs(src, g0, State(dst));
      GoingFirst(src, g0);
      ghost var rounds := [State(dst)];
      RoundsOne(src, State(dst));
      while Edges != []
        invariant dst.Valid() && Going(src, g0, State(dst)) && State(dst).edges == Edges
        invariant Rounds(src, rounds) && rounds != [] && rounds[0] == First(src, g0) && rounds[|rounds| - 1] == State(dst)
        invariant Spread(g0) ==> Spread(dst.Value())
        decreases |EdgesOf(src) - Visited|, |Edges|
      {
        ghost var m := State(dst);
        Round(src, dst, g0);
        RoundsMore(src, rounds);
        rounds := rounds + [State(dst)];
        StateIs(dst);
      }
      StateIs(dst);
      GoingWorks(src, g0, State(dst));
      WorkingEnd(src, g0, dst.Value(), Src2Dst, Dst2Src, Visited, lnew);
      GoingEnd(src, g0, State(dst), lnew);
      MergesToBy(src, g0, rounds);
      phi := Src2Dst;
      MergedIs(src, g0, dst.Value(), Src2Dst, Dst2Src, Visited);
    }
  }
}
