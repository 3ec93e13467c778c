/**
 Places where the compiled code does something else than the automaton, and exactly
 when: a table entry that is 0, and a vertex with no way on
 (src/lib/compiler.cpp:27-38, src/lib/compiler.cpp:110-161, src/lib/vm.cpp:196-206).
 */
module Findings {
  import opened Basics
  import opened Automata
  import opened Sequences
  import opened Subsets
  import opened Guards
  import opened Carrying
  import opened Layouts
  import opened Compiled
  import opened Losses
  import opened Meaning
  import opened Tables
  import Pipeline
  import B = Bytecode

  // ----- an entry of 0 -----

  /** The table of v turns a byte away exactly if no successor permits it, or it is lost. */
  lemma TurnedAwayExactly(b: Build, v: nat, x: Byte)
    requires Complete(b) && v < |b.g.vertices| && UsesTable(b.g, v)
    ensures Fits(b.g, b.lay, b.kv) && v < |b.lay.start| && v < |b.g.out| && Wired(b.g)
    ensures var m := EntryOf(b.g, b.lay, v) + |GateCells(b.g, b.lay, b.kv, v)|;
            m < |b.prog.code|
            && (B.ByteStep(b.prog.code, m, x) == None <==> Via(b.g, b.g.out[v], x) == [] || Loses(b.g, v, x))
  {
    hide *;
    CompleteUse(b);
    SnippetParts(b, v);
    var m := EntryOf(b.g, b.lay, v) + |GateCells(b.g, b.lay, b.kv, v)|;
    TableHasEdges(b.g, v);
    EdgeShape(b, v, m);
    PivotRow(b.g, v, x);
    var tbl := Pivot(b.g, v);
    TableSteps(b, KindOf(b.kv[v]), tbl, m, x);
    EntryShape(b.g, b.lay, tbl, m, x);
    LosesIs(b.g, v, x);
    DedupNone(Via(b.g, b.g.out[v], x));
    if |tbl[x]| == 1 {
      FirstOf(b.g, tbl[x]);
      ZeroLandingExactly(b.g, b.lay, b.kv, tbl[x][0]);
    }
  }

  lemma TableHasEdges(g: Nfa, v: nat)
    requires v < |g.out| && UsesTable(g, v)
    ensures g.out[v] != []
  {
  }

  lemma DedupNone(s: seq<nat>)
    ensures Dedup(s) == [] <==> s == []
  {
    if s != [] {
      assert s[0] in Dedup(s);
    }
  }

  lemma FirstOf(g: Nfa, ts: seq<nat>)
    requires |ts| == 1 && Within(g, ts) && NotInitial(ts)
    ensures 0 < ts[0] < |g.vertices|
  {
  }

  // ----- an input -----

  function Reads(x: Byte): Vertex {
    Vertex(ByteState(x), false, NOLABEL)
  }

  const XOrY := Vertex(EitherState('x' as Byte, 'y' as Byte), true, 0)

  /** What is built for (a(b|c|d))*a[xy]. */
  const Starred := Nfa(
    [Vertex(NoTransition, false, NOLABEL), Reads('a' as Byte), Reads('b' as Byte), Reads('c' as Byte), Reads('d' as Byte),
     Reads('a' as Byte), XOrY],
    [[1, 5], [2, 3, 4], [1, 5], [1, 5], [1, 5], [6], []],
    [[], [0, 2, 3, 4], [1], [1], [1], [0, 2, 3, 4], [5]])

  /** The same determinized: both vertices for a become one, with four successors. */
  const Starred1 := Nfa(
    [Vertex(NoTransition, false, NOLABEL), Reads('a' as Byte), Reads('b' as Byte), Reads('c' as Byte), Reads('d' as Byte), XOrY],
    [[1], [2, 3, 4, 5], [1], [1], [1], []],
    [[], [0, 2, 3, 4], [1], [1], [1], [1]])

  const StarredLists: seq<seq<nat>> := [[0], [1, 5], [2], [3], [4], [6]]

  const Abax: seq<Byte> := ['a' as Byte, 'b' as Byte, 'a' as Byte, 'x' as Byte]

  lemma {:induction false} ViaNone(g: Nfa, ts: seq<nat>, x: Byte)
    requires forall i :: 0 <= i < |ts| ==> ts[i] < |g.vertices| && !Permits(g, ts[i], x)
    ensures Via(g, ts, x) == []
    decreases |ts|
  {
    if ts != [] {
      ViaNone(g, ts[1..], x);
    }
  }

  lemma {:induction false} ViaOne(g: Nfa, ts: seq<nat>, x: Byte, k: nat)
    requires k < |ts| && forall i :: 0 <= i < |ts| ==> ts[i] < |g.vertices| && (Permits(g, ts[i], x) <==> i == k)
    ensures Via(g, ts, x) == [ts[k]]
    decreases |ts|
  {
    if k == 0 {
      ViaNone(g, ts[1..], x);
    } else {
      ViaOne(g, ts[1..], x, k - 1);
    }
  }

  lemma FlatMapOne(f: nat -> seq<nat>, a: nat)
    ensures FlatMap(f, [a]) == f(a)
  {
    assert [a][1..] == [];
    assert FlatMap(f, [a][1..]) == [];
    assert f(a) + [] == f(a);
  }

  lemma FlatMapTwo(f: nat -> seq<nat>, a: nat, b: nat)
    ensures FlatMap(f, [a, b]) == f(a) + f(b)
  {
    assert [a, b][1..] == [b];
    FlatMapOne(f, b);
  }

  lemma {:induction false} ViaAll(g: Nfa, ts: seq<nat>, x: Byte)
    requires forall i :: 0 <= i < |ts| ==> ts[i] < |g.vertices| && Permits(g, ts[i], x)
    ensures Via(g, ts, x) == ts
    decreases |ts|
  {
    if ts != [] {
      ViaAll(g, ts[1..], x);
    }
  }


  lemma LettersPermit(g: Nfa, x: Byte)
    requires g == Starred || g == Starred1
    ensures |g.vertices| >= 6 && forall t: nat :: 2 <= t <= 4 ==> (Permits(g, t, x) <==> x == t + 96)
    ensures g == Starred1 ==> (Permits(g, 5, x) <==> x == 'x' as Byte || x == 'y' as Byte)
  {
  }

  /** Where x leads from the vertices for a to those for b, c, d, and for x and y. */
  lemma AfterA(g: Nfa, ts: seq<nat>, x: Byte)
    requires g == Starred || g == Starred1
    requires ts == [2, 3, 4] || (ts == [2, 3, 4, 5] && g == Starred1)
    ensures Via(g, ts, x)
         == if 98 <= x <= 100 then [x - 96] else if |ts| == 4 && (x == 'x' as Byte || x == 'y' as Byte) then [5] else []
  {
    hide *;
    LettersPermit(g, x);
    assert forall i :: 0 <= i < |ts| ==> ts[i] == i + 2;
    if 98 <= x <= 100 {
      ViaOne(g, ts, x, x - 98);
    } else if |ts| == 4 && (x == 'x' as Byte || x == 'y' as Byte) {
      ViaOne(g, ts, x, 3);
    } else {
      ViaNone(g, ts, x);
    }
  }

  lemma OntoA(g: Nfa, ts: seq<nat>, x: Byte)
    requires (g == Starred && ts == [1, 5]) || (g == Starred1 && ts == [1])
    ensures Via(g, ts, x) == if x == 'a' as Byte then ts else []
  {
    if x == 'a' as Byte {
      ViaAll(g, ts, x);
    } else {
      ViaNone(g, ts, x);
    }
  }

  lemma OntoEnd(x: Byte)
    ensures Via(Starred, [6], x) == if x == 'x' as Byte || x == 'y' as Byte then [6] else []
  {
    EndPermits(x);
    hide *;
    if x == 'x' as Byte || x == 'y' as Byte {
      ViaAll(Starred, [6], x);
    } else {
      ViaNone(Starred, [6], x);
    }
  }

  lemma EndPermits(x: Byte)
    ensures 6 < |Starred.vertices| && (Permits(Starred, 6, x) <==> x == 'x' as Byte || x == 'y' as Byte)
  {
  }

  /** The one successor of d on x. */
  function Successor(d: nat, x: Byte): Option<nat> {
    if d == 5 then None
    else if d != 1 then if x == 'a' as Byte then Some(1) else None
    else if 98 <= x <= 100 then Some(x - 96)
    else if x == 'x' as Byte || x == 'y' as Byte then Some(5)
    else None
  }

  lemma StarredVia(d: nat, x: Byte)
    requires d < 6
    ensures Via(Starred1, Starred1.out[d], x) == if Successor(d, x).Some? then [Successor(d, x).value] else []
  {
    if d == 1 {
      AfterA(Starred1, [2, 3, 4, 5], x);
    } else if d == 5 {
      ViaNone(Starred1, [], x);
    } else {
      OntoA(Starred1, [1], x);
    }
    hide Via;
  }

  function SourceSuccessors(v: nat, x: Byte): seq<nat> {
    if v == 1 then if 98 <= x <= 100 then [x - 96] else []
    else if v == 5 then if x == 'x' as Byte || x == 'y' as Byte then [6] else []
    else if v == 6 then []
    else if x == 'a' as Byte then [1, 5] else []
  }

  lemma SourceMoves(v: nat, x: Byte)
    requires v < 7
    ensures Moves(Starred, x)(v) == SourceSuccessors(v, x) && NoRepeats(SourceSuccessors(v, x))
  {
    if v == 1 {
      AfterA(Starred, [2, 3, 4], x);
    } else if v == 5 {
      OntoEnd(x);
    } else if v == 6 {
      ViaNone(Starred, [], x);
    } else {
      OntoA(Starred, [1, 5], x);
    }
    hide Via;
  }

  lemma NeighborsOfOne(v: nat, x: Byte)
    requires v < 7
    ensures Neighborhood(Starred, [v], x) == SourceSuccessors(v, x)
  {
    SourceMoves(v, x);
    FlatMapOne(Moves(Starred, x), v);
    DedupDistinct(SourceSuccessors(v, x));
    hide Moves, FlatMap, Dedup, SourceSuccessors;
  }

  lemma NeighborsOfTwo(x: Byte)
    ensures Neighborhood(Starred, [1, 5], x) == SourceSuccessors(1, x) + SourceSuccessors(5, x)
  {
    SourceMoves(1, x);
    SourceMoves(5, x);
    FlatMapTwo(Moves(Starred, x), 1, 5);
    DedupDistinct(SourceSuccessors(1, x) + SourceSuccessors(5, x));
    hide Moves, FlatMap, Dedup;
  }

  lemma StarredNeighbors(d: nat, x: Byte)
    requires d < 6
    ensures Neighborhood(Starred, StarredLists[d], x) == if Successor(d, x).Some? then StarredLists[Successor(d, x).value] else []
  {
    hide Neighborhood;
    if d == 1 {
      NeighborsOfTwo(x);
    } else {
      NeighborsOfOne(if d == 5 then 6 else d, x);
    }
  }

  lemma StarredStep(d: nat, x: Byte)
    requires d < 6
    ensures StepsTo(Starred, Starred1, StarredLists, d, x)
  {
    StarredVia(d, x);
    StarredNeighbors(d, x);
    hide Via, Neighborhood;
    if Successor(d, x).Some? {
      FlatMapOne(ListOf(StarredLists), Successor(d, x).value);
    }
  }

  lemma StarredDeterminizes()
    ensures Determinizes(Starred, Starred1, StarredLists)
  {
    forall d: nat, x: Byte | d < |StarredLists| ensures StepsTo(Starred, Starred1, StarredLists, d, x) {
      StarredStep(d, x);
    }
    forall d: nat | d < |StarredLists| ensures StandsFor(Starred, Starred1, d, StarredLists[d]) {
    }
    hide StandsFor, StepsTo;
  }

  /** What the guard passes make of it: the one label is on the vertex for a. */
  const Starred2 := Starred1.(vertices := Starred1.vertices[1 := Reads('a' as Byte).(lbl := 0)][5 := XOrY.(lbl := NOLABEL)])

  lemma OnlyOneLabel(v: nat, l: nat)
    requires Reaches(Starred1, v, l)
    ensures l == 0
  {
    var p :| EndsAt(Starred1, p, l) && p[0] == v;
    assert Starred1.vertices[p[|p| - 1]].isMatch;
  }

  lemma GuardsOfStarred(lab: seq<nat>, open: set<nat>, seen: set<nat>)
    requires Guarded(Starred1, lab, open, seen)
    ensures |lab| == 6 && Relabelled(Starred1, lab) == Starred2
  {
    forall v: nat, l: nat | Reaches(Starred1, v, l) ensures l == 0 {
      OnlyOneLabel(v, l);
    }
    assert EndsAt(Starred1, [1, 5], 0) && [1, 5][0] == 1;
    assert Reaches(Starred1, 1, 0);
    hide Reaches;
    assert forall v :: v in open ==> v == 0;
    assert OutWithin(Starred1, 0, seen) && Starred1.out[0][0] == 1;
    assert lab[1] == 0;
    assert OutWithin(Starred1, 1, seen);
    forall v: nat | v < 6 && v != 1 ensures lab[v] == NOLABEL {
      assert v > 1 ==> Starred1.out[1][v - 2] == v;
    }
    assert Relabelled(Starred1, lab).vertices == Starred2.vertices;
  }

  lemma SameViaAfterA(x: Byte)
    ensures Via(Starred2, [2, 3, 4, 5], x) == Via(Starred1, [2, 3, 4, 5], x)
  {
    Pipeline.SameVia(Starred1, Starred2, [2, 3, 4, 5], x);
  }

  lemma StarredTable(x: Byte)
    ensures UsesTable(Starred2, 1)
    ensures Pivot(Starred2, 1)[x] == if Successor(1, x).Some? then [Successor(1, x).value] else []
  {
    forall y: Byte ensures Pivot(Starred2, 1)[y] == if Successor(1, y).Some? then [Successor(1, y).value] else [] {
      SameViaAfterA(y);
      AfterA(Starred1, [2, 3, 4, 5], y);
      DedupDistinct(Via(Starred1, [2, 3, 4, 5], y));
    }
    var tbl := Pivot(Starred2, 1);
    hide Pivot, Via, Dedup;
    var m := MaxLen(tbl);
    var i :| 0 <= i < |tbl| && |tbl[i]| == m;
    assert |tbl[i as Byte]| <= 1;
  }

  /** Where the byte leads to one vertex, the preferred match goes on there. */
  lemma BestFollows(g: Nfa, v: nat, t: nat, w: seq<Byte>, r: nat)
    requires Wired(g) && v < |g.vertices| && v < |g.out| && w != [] && Via(g, g.out[v], w[0]) == [t]
    requires t < |g.vertices| && Best(g, 0, t, w[1..]) == Some(r)
    ensures Best(g, 0, v, w) == Some(r + 1)
  {
    BestOfVia(g, 0, g.out[v], w);
    assert [t][1..] == [];
    assert BestAmong(g, 0, [t][1..], w[1..]) == None;
    hide Via, BestOf;
  }

  lemma BestStep(v: nat, w: seq<Byte>, r: nat)
    requires v < 5 && w != [] && Successor(v, w[0]).Some? && Best(Starred1, 0, Successor(v, w[0]).value, w[1..]) == Some(r)
    ensures Best(Starred1, 0, v, w) == Some(r + 1)
  {
    StarredVia(v, w[0]);
    StarredSizes();
    SuccessorWithin(v, w[0]);
    hide *;
    BestFollows(Starred1, v, Successor(v, w[0]).value, w, r);
  }

  lemma SuccessorWithin(v: nat, x: Byte)
    ensures Successor(v, x).Some? ==> Successor(v, x).value < 6
  {
  }

  lemma StarredSizes()
    ensures Wired(Starred1) && |Starred1.vertices| == |Starred1.out| == 6
  {
  }

  /** The automaton, before and after determinizing, prefers all four bytes. */
  lemma StarredPrefers()
    ensures Best(Starred, 0, 0, Abax) == Best(Starred1, 0, 0, Abax) == Some(4)
  {
    assert Best(Starred1, 0, 5, []) == Some(0);
    assert Abax[1..][1..][1..][1..] == [];
    BestStep(1, Abax[1..][1..][1..], 0);
    BestStep(2, Abax[1..][1..], 1);
    BestStep(1, Abax[1..], 2);
    BestStep(0, Abax, 3);
    StarredDeterminizes();
    SamePreferredMatch(Starred, Starred1, StarredLists, 0, Abax);
  }

  lemma Starred2Edges()
    ensures Wired(Starred2) && |Starred2.vertices| == 6 && Lost(Starred2, 2)
    ensures Starred2.out[0] == [1] && !UsesTable(Starred2, 0) && Enter(Starred2, 1, NOLABEL) == 0
    ensures !Starred2.vertices[0].isMatch && !Starred2.vertices[1].isMatch
  {
    assert |Starred2.out[0]| == 1;
    hide Pivot;
  }

  lemma StarredLoses()
    ensures Wired(Starred2) && Loses(Starred2, 1, 'b' as Byte) && !Lossless(Starred2)
  {
    assert Successor(1, 'b' as Byte) == Some(2);
    hide *;
    StarredTable('b' as Byte);
    Starred2Edges();
    LosesIs(Starred2, 1, 'b' as Byte);
    LossyBy(Starred2, 1, 'b' as Byte);
  }

  lemma LossyBy(g: Nfa, v: nat, x: Byte)
    requires Wired(g) && v < |g.out| && Loses(g, v, x)
    ensures !Lossless(g)
  {
  }

  /** A lost byte ends the walk. */
  lemma LostEnds(g: Nfa, l: nat, v: nat, c: nat, w: seq<Byte>)
    requires Wired(g) && v < |g.vertices| && v < |g.out| && w != [] && Loses(g, v, w[0]) && !g.vertices[v].isMatch
    ensures Ran(g, l, v, c, w) == None
  {
    hide Loses, RanOf;
  }

  lemma OnlyEdge(g: Nfa, l: nat, v: nat, t: nat, c: nat, w: seq<Byte>)
    requires Wired(g) && v < |g.vertices| && v < |g.out| && g.out[v] == [t] && !UsesTable(g, v) && !g.vertices[v].isMatch
    ensures t < |g.vertices|
    ensures Ran(g, l, v, c, w) == None || (w != [] && Ran(g, l, v, c, w) == Later(Ran(g, l, t, Enter(g, t, c), w[1..])))
  {
    assert Within(g, g.out[v]);
    RanOfIs(g, l, g.out[v], c, w);
    hide RanOf, UsesTable, Permits;
  }

  /** The program gives the match up at the second byte. */
  lemma StarredGivesUp()
    ensures Wired(Starred2) && 0 < |Starred2.vertices| && Ran(Starred2, 0, 0, NOLABEL, Abax) == None
  {
    var w := Abax[1..];
    assert Abax != [] && w != [] && w[0] == 'b' as Byte;
    hide *;
    Starred2Edges();
    StarredLoses();
    OnlyEdge(Starred2, 0, 0, 1, NOLABEL, Abax);
    LostEnds(Starred2, 0, 1, 0, w);
    LaterNone();
  }

  /**
   A pattern with a match that is not found: (a(b|c|d))*a[xy], determinized, guarded and
   compiled, in abax. Whatever program is compiled from it finds nothing at the first byte,
   although the automaton prefers all four.
   */
  lemma MatchIsLost(lab: seq<nat>, open: set<nat>, seen: set<nat>, b: Build, end: nat, pos: nat)
    requires Guarded(Starred1, lab, open, seen) && |lab| == 6
    requires Complete(b) && b.g == Relabelled(Starred1, lab)
    ensures Determinizes(Starred, Starred1, StarredLists) && Best(Starred, 0, 0, Abax) == Some(4)
    ensures B.Sound(b.prog, b.plan) && 0 < |b.prog.code|
    ensures B.Backtrack(b.prog, b.plan, 0, 0, NOLABEL, end, Abax, pos) == None
  {
    hide *;
    GuardsOfStarred(lab, open, seen);
    StarredDeterminizes();
    StarredPrefers();
    StarredGivesUp();
    CompiledMeans(b, 0, Abax, end, pos);
    PlusNone(pos);
  }

  // ----- dead ends -----

  /** The snippet ends with the byte test: a thread that has passed the test goes on with the next snippet. */
  predicate NothingAfterTest(g: Nfa, lay: Layout, kv: seq<Option<nat>>, v: nat)
    requires Fits(g, lay, kv) && v < |g.vertices|
  {
    EntryOf(g, lay, v) == lay.start[v] + SnippetSize(g, lay, kv, v)
  }

  /**
   That is meant to happen where the only child is next. It also happens at every
   vertex without edges that is no match and has no label and no check, which goes on
   with a vertex that it has no edge to.
   */
  lemma DeadEndsFallThrough(g: Nfa, lay: Layout, kv: seq<Option<nat>>, v: nat)
    requires Fits(g, lay, kv) && 0 < v < |g.vertices|
    ensures NothingAfterTest(g, lay, kv, v)
       <==> !g.vertices[v].isMatch && g.vertices[v].lbl == NOLABEL && lay.check[v].None?
            && (g.out[v] == [] || (|g.out[v]| == 1 && Falls(g, lay, v)))
  {
    if g.out[v] != [] && UsesTable(g, v) {
      assert CountedSize(Pivot(g, v)) > 0;
    }
    hide Pivot, UsesTable;
  }
}
