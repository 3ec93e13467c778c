/**
 A pattern whose preferred match is not kept when it is added: (x(a|az))+z. Its two a
 are kin, and the loop leads from the first to the second before all edges of the first are visited
 (src/lib/nfaoptimizer.cpp:163-200).
 */
module Twins {
  import opened Basics
  import opened Automata
  import Graphs
  import opened Images
  import opened Lineups
  import opened Regexes
  import opened Choices
  import Building

  const A: Byte := 97
  const X: Byte := 120
  const Z: Byte := 122

  function Reader(b: Byte): Vertex {
    Vertex(ByteState(b), false, NOLABEL)
  }

  const Initial: Vertex := Vertex(NoTransition, false, NOLABEL)
  const Match: Vertex := Vertex(ByteState(Z), true, 1)

  /** The Glushkov automaton of the pattern: x, a, a, z, and the match. */
  const Looped: Nfa :=
    Nfa([Initial, Reader(X), Reader(A), Reader(A), Reader(Z), Match],
        [[1], [2, 3], [1, 5], [4], [1, 5], []],
        [[], [0, 2, 4], [1], [1], [3], [2, 4]])

  const Empty: Nfa := Nfa([Initial], [[]], [[]])

  /** What merging it into an empty automaton leaves: the a share a vertex, and the z behind the second comes first. */
  const Mixed: Nfa :=
    Nfa([Initial, Reader(X), Reader(A), Reader(Z), Match],
        [[1], [2], [1, 3, 4], [1, 4], []],
        [[], [0, 2, 3], [1], [2], [3, 2]])

  const XAZZ: seq<Byte> := [X, A, Z, Z]

  // ----- the rounds of the walk -----

  const M0: Walk := Walk(Empty, [Some(0), None, None, None, None, None], map[], map[], {}, [(0, 0)])

  const M1: Walk :=
    Walk(Nfa([Initial, Reader(X)], [[1], []], [[], [0]]),
         [Some(0), Some(1), None, None, None, None], map[1 := [1]], map[0 := 0], {(0, 0)}, [(1, 1), (1, 0)])

  const M2: Walk :=
    Walk(Nfa([Initial, Reader(X), Reader(A)], [[1], [2], []], [[], [0], [1]]),
         [Some(0), Some(1), Some(2), None, None, None], map[1 := [1], 2 := [2]], map[0 := 0, 1 := 0],
         {(0, 0), (1, 0)}, [(1, 1), (2, 1), (2, 0)])

  const M3: Walk :=
    Walk(Nfa([Initial, Reader(X), Reader(A)], [[1], [2], [1]], [[], [0, 2], [1]]),
         [Some(0), Some(1), Some(2), None, None, None], map[1 := [1, 1], 2 := [2]], map[0 := 0, 1 := 0, 2 := 0],
         {(0, 0), (1, 0), (2, 0)}, [(1, 1), (2, 1), (1, 1), (1, 0)])

  const M4: Walk := M3.(edges := [(1, 1), (2, 1), (1, 1)])

  /** The second a is merged with the first, whose other edge waits. */
  const M5: Walk :=
    Walk(M3.g, [Some(0), Some(1), Some(2), Some(2), None, None], map[1 := [1, 1], 2 := [2, 3]], map[0 := 0, 1 := 0, 2 := 0],
         {(0, 0), (1, 0), (2, 0), (1, 1)}, [(1, 1), (2, 1), (3, 0)])

  const M6: Walk :=
    Walk(Nfa([Initial, Reader(X), Reader(A), Reader(Z)], [[1], [2], [1, 3], []], [[], [0, 2], [1], [2]]),
         [Some(0), Some(1), Some(2), Some(2), Some(3), None], map[1 := [1, 1], 2 := [2, 3], 3 := [4]], map[0 := 0, 1 := 0, 2 := 1],
         {(0, 0), (1, 0), (2, 0), (1, 1), (3, 0)}, [(1, 1), (2, 1), (4, 1), (4, 0)])

  const M7: Walk :=
    Walk(Nfa([Initial, Reader(X), Reader(A), Reader(Z)], [[1], [2], [1, 3], [1]], [[], [0, 2, 3], [1], [2]]),
         [Some(0), Some(1), Some(2), Some(2), Some(3), None], map[1 := [1, 1, 1], 2 := [2, 3], 3 := [4]],
         map[0 := 0, 1 := 0, 2 := 1, 3 := 0],
         {(0, 0), (1, 0), (2, 0), (1, 1), (3, 0), (4, 0)}, [(1, 1), (2, 1), (4, 1), (1, 1), (1, 0)])

  const M8: Walk := M7.(edges := [(1, 1), (2, 1), (4, 1), (1, 1)])

  const M9: Walk := M7.(edges := [(1, 1), (2, 1), (4, 1)])

  const M10: Walk :=
    Walk(Nfa([Initial, Reader(X), Reader(A), Reader(Z), Match], [[1], [2], [1, 3], [1, 4], []], [[], [0, 2, 3], [1], [2], [3]]),
         [Some(0), Some(1), Some(2), Some(2), Some(3), Some(4)], map[1 := [1, 1, 1], 2 := [2, 3], 3 := [4], 4 := [5]],
         map[0 := 0, 1 := 0, 2 := 1, 3 := 1],
         {(0, 0), (1, 0), (2, 0), (1, 1), (3, 0), (4, 0), (4, 1)}, [(1, 1), (2, 1)])

  const M11: Walk :=
    Walk(Mixed, [Some(0), Some(1), Some(2), Some(2), Some(3), Some(4)], map[1 := [1, 1, 1], 2 := [2, 3], 3 := [4], 4 := [5, 5]],
         map[0 := 0, 1 := 0, 2 := 2, 3 := 1],
         {(0, 0), (1, 0), (2, 0), (1, 1), (3, 0), (4, 0), (4, 1), (2, 1)}, [(1, 1)])

  const M12: Walk := M11.(edges := [])

  ghost predicate Leads(m: Walk, m': Walk) {
    Fits(Looped, m) && m.edges != [] && Stepped(Looped, m) == m'
  }

  lemma LoopedWired()
    ensures Wired(Looped) && Even(Looped)
  {
  }

  lemma FirstRound()
    ensures First(Looped, Empty) == M0
  {
    assert PushAll([], 0, 1) == [(0, 0)];
    assert First(Looped, Empty).phi == M0.phi;
  }

  lemma Joins(xs: seq<nat>, t: nat)
    ensures xs == [] ==> xs + [t] == [t]
    ensures |xs| == 1 ==> xs + [t] == [xs[0], t]
    ensures |xs| == 2 ==> xs + [t] == [xs[0], xs[1], t]
  {
  }

  /** A round, part by part. */
  lemma RoundBy(m: Walk, m': Walk, h: nat, i: nat)
    requires Fits(Looped, m) && m.edges != [] && m.edges[|m.edges| - 1] == (h, i) && (h, i) !in m.visited
    requires Even(Looped) && Even(m.g) && h < |Looped.out| && i < |Looped.out[h]| && Looped.out[h][i] < |Looped.out|
    requires |m.phi| == |Looped.vertices| && h < |m.phi| && m.phi[h].Some? && m.phi[h].value < |m.g.out|
    requires var t, p := Looped.out[h][i], m.phi[h].value;
             var x := PlaceOf(Looped, m.g, m.phi, m.back, m.pos, p, t);
             && p < |x.g.out| && x.d < |x.g.ins|
             && m'.g == EdgeTo(x.g, p, x.d, x.di)
             && m'.phi == m.phi[t := Some(x.d)]
             && m'.back == m.back[x.d := (if x.d in m.back then m.back[x.d] else []) + [t]]
             && m'.pos == m.pos[p := x.di]
             && m'.visited == m.visited + {(h, i)}
             && m'.edges == PushAll(m.edges[..|m.edges| - 1], t, |Looped.out[t]|)
    ensures Leads(m, m')
  {
    hide *;
    SteppedTo(Looped, m, h, i);
    LeadsBy(m, m');
  }

  lemma LeadsBy(m: Walk, m': Walk)
    requires Fits(Looped, m) && m.edges != [] && Stepped(Looped, m) == m'
    ensures Leads(m, m')
  {
    hide Fits, Stepped;
  }

  lemma Push1(edges: seq<(nat, nat)>, t: nat)
    ensures PushAll(edges, t, 0) == edges
    ensures PushAll(edges, t, 1) == edges + [(t, 0)]
    ensures PushAll(edges, t, 2) == edges + [(t, 1), (t, 0)]
  {
    assert edges + [(t, 1)] + [(t, 0)] == edges + [(t, 1), (t, 0)];
    assert PushAll(edges + [(t, 1)], t, 1) == edges + [(t, 1)] + [(t, 0)];
  }

  /** An edge that goes to the end. */
  lemma EdgeEnd(g: Nfa, p: nat, d: nat, di: nat)
    requires p < |g.out| && d < |g.ins| && d !in g.out[p] && di >= |g.out[p]|
    ensures EdgeTo(g, p, d, di) == Nfa(g.vertices, g.out[p := g.out[p] + [d]], g.ins[d := g.ins[d] + [p]])
  {
  }

  lemma Fits0()
    ensures Fits(Looped, M0)
  {
  }

  lemma Fits1()
    ensures Fits(Looped, M1)
  {
  }

  lemma Fits2()
    ensures Fits(Looped, M2)
  {
  }

  lemma Fits3()
    ensures Fits(Looped, M3)
  {
  }

  lemma Fits4()
    ensures Fits(Looped, M4)
  {
  }

  lemma Fits5()
    ensures Fits(Looped, M5)
  {
  }

  lemma Fits6()
    ensures Fits(Looped, M6)
  {
  }

  lemma Fits7()
    ensures Fits(Looped, M7)
  {
  }

  lemma Fits8()
    ensures Fits(Looped, M8)
  {
  }

  lemma Fits9()
    ensures Fits(Looped, M9)
  {
  }

  lemma Fits10()
    ensures Fits(Looped, M10)
  {
  }

  lemma Fits11()
    ensures Fits(Looped, M11)
  {
  }

  lemma Place0()
    ensures Fits(Looped, M0) && PlaceOf(Looped, M0.g, M0.phi, M0.back, M0.pos, 0, 1) == Place(Nfa([Initial, Reader(X)], [[], []], [[], []]), 1, 0)
  {
    Fits0();
    PlaceCases(Looped, M0.g, M0.phi, M0.back, M0.pos, 0, 1);
  }

  lemma Edge0()
    ensures EdgeTo(Nfa([Initial, Reader(X)], [[], []], [[], []]), 0, 1, 0) == M1.g
  {
    var g := Nfa([Initial, Reader(X)], [[], []], [[], []]);
    EdgeEnd(g, 0, 1, 0);
    assert g.out[0] + [1] == [1] && g.ins[1] + [0] == [0];
    assert g.out[0 := [1]] == M1.g.out && g.ins[1 := [0]] == M1.g.ins;
  }

  lemma Parts0()
    ensures |M0.edges| == 1 && M0.edges[0] == (0, 0) && (0, 0) !in M0.visited
    ensures M1.phi == M0.phi[1 := Some(1)] && M1.pos == M0.pos[0 := 0] && M1.visited == M0.visited + {(0, 0)}
    ensures M1.edges == PushAll(M0.edges[..0], 1, |Looped.out[1]|)
    ensures Looped.out[0][0] == 1 && M0.phi[0] == Some(0)
  {
    Push1([], 1);
    assert M0.edges[..0] == [];
    hide PushAll;
  }

  lemma Back0()
    ensures M1.back == M0.back[1 := (if 1 in M0.back then M0.back[1] else []) + [1]]
  {
    Joins([], 1);
  }

  lemma Round0()
    ensures Leads(M0, M1)
  {
    hide *;
    LoopedWired();
    Place0();
    Edge0();
    Parts0();
    Back0();
    SteppedTo(Looped, M0, 0, 0);
    RoundBy(M0, M1, 0, 0);
  }

  lemma Place1()
    ensures Fits(Looped, M1) && PlaceOf(Looped, M1.g, M1.phi, M1.back, M1.pos, 1, 2) == Place(Nfa([Initial, Reader(X), Reader(A)], [[1], [], []], [[], [0], []]), 2, 0)
  {
    Fits1();
    PlaceCases(Looped, M1.g, M1.phi, M1.back, M1.pos, 1, 2);
  }

  lemma Edge1()
    ensures EdgeTo(Nfa([Initial, Reader(X), Reader(A)], [[1], [], []], [[], [0], []]), 1, 2, 0) == M2.g
  {
    var g := Nfa([Initial, Reader(X), Reader(A)], [[1], [], []], [[], [0], []]);
    EdgeEnd(g, 1, 2, 0);
    assert g.out[1] + [2] == [2] && g.ins[2] + [1] == [1];
    assert g.out[1 := [2]] == M2.g.out && g.ins[2 := [1]] == M2.g.ins;
  }

  lemma Parts1()
    ensures |M1.edges| == 2 && M1.edges[1] == (1, 0) && (1, 0) !in M1.visited
    ensures M2.phi == M1.phi[2 := Some(2)] && M2.pos == M1.pos[1 := 0] && M2.visited == M1.visited + {(1, 0)}
    ensures M2.edges == PushAll(M1.edges[..1], 2, |Looped.out[2]|)
    ensures Looped.out[1][0] == 2 && M1.phi[1] == Some(1)
  {
    Push1([(1, 1)], 2);
    assert M1.edges[..1] == [(1, 1)];
    hide PushAll;
  }

  lemma Back1()
    ensures M2.back == M1.back[2 := (if 2 in M1.back then M1.back[2] else []) + [2]]
  {
    Joins([], 2);
  }

  lemma Round1()
    ensures Leads(M1, M2)
  {
    hide *;
    LoopedWired();
    Place1();
    Edge1();
    Parts1();
    Back1();
    SteppedTo(Looped, M1, 1, 0);
    RoundBy(M1, M2, 1, 0);
  }

  lemma Place2()
    ensures Fits(Looped, M2) && PlaceOf(Looped, M2.g, M2.phi, M2.back, M2.pos, 2, 1) == Place(M2.g, 1, 0)
  {
    Fits2();
    PlaceCases(Looped, M2.g, M2.phi, M2.back, M2.pos, 2, 1);
  }

  lemma Edge2()
    ensures EdgeTo(M2.g, 2, 1, 0) == M3.g
  {
    var g := M2.g;
    EdgeEnd(g, 2, 1, 0);
    assert g.out[2] + [1] == [1] && g.ins[1] + [2] == [0, 2];
    assert g.out[2 := [1]] == M3.g.out && g.ins[1 := [0, 2]] == M3.g.ins;
  }

  lemma Parts2()
    ensures |M2.edges| == 3 && M2.edges[2] == (2, 0) && (2, 0) !in M2.visited
    ensures M3.phi == M2.phi[1 := Some(1)] && M3.pos == M2.pos[2 := 0] && M3.visited == M2.visited + {(2, 0)}
    ensures M3.edges == PushAll(M2.edges[..2], 1, |Looped.out[1]|)
    ensures Looped.out[2][0] == 1 && M2.phi[2] == Some(2)
  {
    Push1([(1, 1), (2, 1)], 1);
    assert M2.edges[..2] == [(1, 1), (2, 1)];
    hide PushAll;
  }

  lemma Back2()
    ensures M3.back == M2.back[1 := (if 1 in M2.back then M2.back[1] else []) + [1]]
  {
    Joins([1], 1);
  }

  lemma Round2()
    ensures Leads(M2, M3)
  {
    hide *;
    LoopedWired();
    Place2();
    Edge2();
    Parts2();
    Back2();
    SteppedTo(Looped, M2, 2, 0);
    RoundBy(M2, M3, 2, 0);
  }

  lemma Round3()
    ensures Leads(M3, M4)
  {
    Fits3();
    SteppedOver(Looped, M3, 1, 0);
    assert M3.edges[..3] == M4.edges;
    hide Fits, Stepped;
  }

  lemma Place4()
    ensures Fits(Looped, M4) && PlaceOf(Looped, M4.g, M4.phi, M4.back, M4.pos, 1, 3) == Place(M4.g, 2, 0)
  {
    Fits4();
    PlaceCases(Looped, M4.g, M4.phi, M4.back, M4.pos, 1, 3);
    assert Mergeable(Looped, M4.g, M4.back, 2, 3);
  }

  lemma Edge4()
    ensures EdgeTo(M4.g, 1, 2, 0) == M5.g
  {
    assert 2 in M4.g.out[1];
  }

  lemma Parts4()
    ensures |M4.edges| == 3 && M4.edges[2] == (1, 1) && (1, 1) !in M4.visited
    ensures M5.phi == M4.phi[3 := Some(2)] && M5.pos == M4.pos[1 := 0] && M5.visited == M4.visited + {(1, 1)}
    ensures M5.edges == PushAll(M4.edges[..2], 3, |Looped.out[3]|)
    ensures Looped.out[1][1] == 3 && M4.phi[1] == Some(1)
  {
    Push1([(1, 1), (2, 1)], 3);
    assert M4.edges[..2] == [(1, 1), (2, 1)];
    hide PushAll;
  }

  lemma Back4()
    ensures M5.back == M4.back[2 := (if 2 in M4.back then M4.back[2] else []) + [3]]
  {
    Joins([2], 3);
  }

  /** The second a finds the first: same byte, no label, one in edge each. */
  lemma Round4()
    ensures Leads(M4, M5)
  {
    hide *;
    LoopedWired();
    Place4();
    Edge4();
    Parts4();
    Back4();
    SteppedTo(Looped, M4, 1, 1);
    RoundBy(M4, M5, 1, 1);
  }

  lemma Place5()
    ensures Fits(Looped, M5) && PlaceOf(Looped, M5.g, M5.phi, M5.back, M5.pos, 2, 4) == Place(Nfa([Initial, Reader(X), Reader(A), Reader(Z)], [[1], [2], [1], []], [[], [0, 2], [1], []]), 3, 1)
  {
    Fits5();
    PlaceCases(Looped, M5.g, M5.phi, M5.back, M5.pos, 2, 4);
    assert !Mergeable(Looped, M5.g, M5.back, 1, 4);
  }

  lemma Edge5()
    ensures EdgeTo(Nfa([Initial, Reader(X), Reader(A), Reader(Z)], [[1], [2], [1], []], [[], [0, 2], [1], []]), 2, 3, 1) == M6.g
  {
    var g := Nfa([Initial, Reader(X), Reader(A), Reader(Z)], [[1], [2], [1], []], [[], [0, 2], [1], []]);
    EdgeEnd(g, 2, 3, 1);
    assert g.out[2] + [3] == [1, 3] && g.ins[3] + [2] == [2];
    assert g.out[2 := [1, 3]] == M6.g.out && g.ins[3 := [2]] == M6.g.ins;
  }

  lemma Parts5()
    ensures |M5.edges| == 3 && M5.edges[2] == (3, 0) && (3, 0) !in M5.visited
    ensures M6.phi == M5.phi[4 := Some(3)] && M6.pos == M5.pos[2 := 1] && M6.visited == M5.visited + {(3, 0)}
    ensures M6.edges == PushAll(M5.edges[..2], 4, |Looped.out[4]|)
    ensures Looped.out[3][0] == 4 && M5.phi[3] == Some(2)
  {
    Push1([(1, 1), (2, 1)], 4);
    assert M5.edges[..2] == [(1, 1), (2, 1)];
    hide PushAll;
  }

  lemma Back5()
    ensures M6.back == M5.back[3 := (if 3 in M5.back then M5.back[3] else []) + [4]]
  {
    Joins([], 4);
  }

  /** The z behind it goes to the end, while an edge of the first a still waits. */
  lemma Round5()
    ensures Leads(M5, M6)
  {
    hide *;
    LoopedWired();
    Place5();
    Edge5();
    Parts5();
    Back5();
    SteppedTo(Looped, M5, 3, 0);
    RoundBy(M5, M6, 3, 0);
  }

  lemma Place6()
    ensures Fits(Looped, M6) && PlaceOf(Looped, M6.g, M6.phi, M6.back, M6.pos, 3, 1) == Place(M6.g, 1, 0)
  {
    Fits6();
    PlaceCases(Looped, M6.g, M6.phi, M6.back, M6.pos, 3, 1);
  }

  lemma Edge6()
    ensures EdgeTo(M6.g, 3, 1, 0) == M7.g
  {
    var g := M6.g;
    EdgeEnd(g, 3, 1, 0);
    assert g.out[3] + [1] == [1] && g.ins[1] + [3] == [0, 2, 3];
    assert g.out[3 := [1]] == M7.g.out && g.ins[1 := [0, 2, 3]] == M7.g.ins;
  }

  lemma Parts6()
    ensures |M6.edges| == 4 && M6.edges[3] == (4, 0) && (4, 0) !in M6.visited
    ensures M7.phi == M6.phi[1 := Some(1)] && M7.pos == M6.pos[3 := 0] && M7.visited == M6.visited + {(4, 0)}
    ensures M7.edges == PushAll(M6.edges[..3], 1, |Looped.out[1]|)
    ensures Looped.out[4][0] == 1 && M6.phi[4] == Some(3)
  {
    Push1([(1, 1), (2, 1), (4, 1)], 1);
    assert M6.edges[..3] == [(1, 1), (2, 1), (4, 1)];
    hide PushAll;
  }

  lemma Back6()
    ensures M7.back == M6.back[1 := (if 1 in M6.back then M6.back[1] else []) + [1]]
  {
    Joins([1, 1], 1);
  }

  lemma Round6()
    ensures Leads(M6, M7)
  {
    hide *;
    LoopedWired();
    Place6();
    Edge6();
    Parts6();
    Back6();
    SteppedTo(Looped, M6, 4, 0);
    RoundBy(M6, M7, 4, 0);
  }

  lemma Round7()
    ensures Leads(M7, M8)
  {
    Fits7();
    SteppedOver(Looped, M7, 1, 0);
    assert M7.edges[..4] == M8.edges;
    hide Fits, Stepped;
  }

  lemma Round8()
    ensures Leads(M8, M9)
  {
    Fits8();
    SteppedOver(Looped, M8, 1, 1);
    assert M8.edges[..3] == M9.edges;
    hide Fits, Stepped;
  }

  lemma Place9()
    ensures Fits(Looped, M9) && PlaceOf(Looped, M9.g, M9.phi, M9.back, M9.pos, 3, 5) == Place(Nfa([Initial, Reader(X), Reader(A), Reader(Z), Match], [[1], [2], [1, 3], [1], []], [[], [0, 2, 3], [1], [2], []]), 4, 1)
  {
    Fits9();
    PlaceCases(Looped, M9.g, M9.phi, M9.back, M9.pos, 3, 5);
    assert !Mergeable(Looped, M9.g, M9.back, 1, 5);
  }

  lemma Edge9()
    ensures EdgeTo(Nfa([Initial, Reader(X), Reader(A), Reader(Z), Match], [[1], [2], [1, 3], [1], []], [[], [0, 2, 3], [1], [2], []]), 3, 4, 1) == M10.g
  {
    var g := Nfa([Initial, Reader(X), Reader(A), Reader(Z), Match], [[1], [2], [1, 3], [1], []], [[], [0, 2, 3], [1], [2], []]);
    EdgeEnd(g, 3, 4, 1);
    assert g.out[3] + [4] == [1, 4] && g.ins[4] + [3] == [3];
    assert g.out[3 := [1, 4]] == M10.g.out && g.ins[4 := [3]] == M10.g.ins;
  }

  lemma Parts9()
    ensures |M9.edges| == 3 && M9.edges[2] == (4, 1) && (4, 1) !in M9.visited
    ensures M10.phi == M9.phi[5 := Some(4)] && M10.pos == M9.pos[3 := 1] && M10.visited == M9.visited + {(4, 1)}
    ensures M10.edges == PushAll(M9.edges[..2], 5, |Looped.out[5]|)
    ensures Looped.out[4][1] == 5 && M9.phi[4] == Some(3)
  {
    Push1([(1, 1), (2, 1)], 5);
    assert M9.edges[..2] == [(1, 1), (2, 1)];
    hide PushAll;
  }

  lemma Back9()
    ensures M10.back == M9.back[4 := (if 4 in M9.back then M9.back[4] else []) + [5]]
  {
    Joins([], 5);
  }

  lemma Round9()
    ensures Leads(M9, M10)
  {
    hide *;
    LoopedWired();
    Place9();
    Edge9();
    Parts9();
    Back9();
    SteppedTo(Looped, M9, 4, 1);
    RoundBy(M9, M10, 4, 1);
  }

  lemma Place10()
    ensures Fits(Looped, M10) && PlaceOf(Looped, M10.g, M10.phi, M10.back, M10.pos, 2, 5) == Place(M10.g, 4, 2)
  {
    Fits10();
    PlaceCases(Looped, M10.g, M10.phi, M10.back, M10.pos, 2, 5);
    assert Graphs.IndexOf([1, 3], 4) == 2;
  }

  lemma Edge10()
    ensures EdgeTo(M10.g, 2, 4, 2) == M11.g
  {
    var g := M10.g;
    EdgeEnd(g, 2, 4, 2);
    assert g.out[2] + [4] == [1, 3, 4] && g.ins[4] + [2] == [3, 2];
    assert g.out[2 := [1, 3, 4]] == M11.g.out && g.ins[4 := [3, 2]] == M11.g.ins;
  }

  lemma Parts10()
    ensures |M10.edges| == 2 && M10.edges[1] == (2, 1) && (2, 1) !in M10.visited
    ensures M11.phi == M10.phi[5 := Some(4)] && M11.pos == M10.pos[2 := 2] && M11.visited == M10.visited + {(2, 1)}
    ensures M11.edges == PushAll(M10.edges[..1], 5, |Looped.out[5]|)
    ensures Looped.out[2][1] == 5 && M10.phi[2] == Some(2)
  {
    Push1([(1, 1)], 5);
    assert M10.edges[..1] == [(1, 1)];
    hide PushAll;
  }

  lemma Back10()
    ensures M11.back == M10.back[4 := (if 4 in M10.back then M10.back[4] else []) + [5]]
  {
    Joins([5], 5);
  }

  lemma Round10()
    ensures Leads(M10, M11)
  {
    hide *;
    LoopedWired();
    Place10();
    Edge10();
    Parts10();
    Back10();
    SteppedTo(Looped, M10, 2, 1);
    RoundBy(M10, M11, 2, 1);
  }

  lemma Round11()
    ensures Leads(M11, M12)
  {
    Fits11();
    SteppedOver(Looped, M11, 1, 1);
    assert M11.edges[..0] == M12.edges;
    hide Fits, Stepped;
  }

  /** Merging that automaton into an empty one leaves the other. */
  lemma LoopedMerges()
    ensures MergesTo(Looped, Empty, Mixed)
  {
    Round0(); Round1(); Round2(); Round3(); Round4(); Round5();
    Round6(); Round7(); Round8(); Round9(); Round10(); Round11();
    FirstRound();
    hide Fits, Stepped, First;
    var ms := [M0, M1, M2, M3, M4, M5, M6, M7, M8, M9, M10, M11, M12];
    assert Rounds(Looped, ms);
    MergesToBy(Looped, Empty, ms);
  }

  // ----- what is preferred -----

  lemma LoopedPrefers()
    ensures Wired(Looped) && Best(Looped, 1, 0, XAZZ) == Some(3)
  {
    assert XAZZ[1..] == [A, Z, Z] && [A, Z, Z][1..] == [Z, Z] && [Z, Z][1..] == [Z];
    assert Best(Looped, 1, 5, [Z]) == Some(0);
    assert BestOf(Looped, 1, [1, 5], [Z, Z]) == Some(1) by {
      assert [1, 5][1..] == [5];
      assert BestVia(Looped, 1, 1, [Z, Z]) == None;
      assert BestVia(Looped, 1, 5, [Z, Z]) == Some(1);
      assert BestOf(Looped, 1, [5], [Z, Z]) == Some(1);
    }
    assert Best(Looped, 1, 2, [Z, Z]) == Some(1);
    assert BestOf(Looped, 1, [2, 3], [A, Z, Z]) == Some(2);
    assert Best(Looped, 1, 1, [A, Z, Z]) == Some(2);
    assert BestOf(Looped, 1, [1], XAZZ) == Some(3);
  }

  lemma MixedPrefers()
    ensures Wired(Mixed) && Best(Mixed, 1, 0, XAZZ) == Some(4)
  {
    assert XAZZ[1..] == [A, Z, Z] && [A, Z, Z][1..] == [Z, Z] && [Z, Z][1..] == [Z] && [Z][1..] == [];
    assert Best(Mixed, 1, 4, []) == Some(0);
    assert BestOf(Mixed, 1, [1, 4], [Z]) == Some(1) by {
      assert [1, 4][1..] == [4];
      assert BestVia(Mixed, 1, 1, [Z]) == None;
      assert BestVia(Mixed, 1, 4, [Z]) == Some(1);
      assert BestOf(Mixed, 1, [4], [Z]) == Some(1);
    }
    assert Best(Mixed, 1, 3, [Z]) == Some(1);
    assert BestOf(Mixed, 1, [1, 3, 4], [Z, Z]) == Some(2) by {
      assert [1, 3, 4][1..] == [3, 4];
      assert BestVia(Mixed, 1, 1, [Z, Z]) == None;
      assert BestVia(Mixed, 1, 3, [Z, Z]) == Some(2);
      assert BestOf(Mixed, 1, [3, 4], [Z, Z]) == Some(2);
    }
    assert Best(Mixed, 1, 2, [Z, Z]) == Some(2);
    assert BestOf(Mixed, 1, [2], [A, Z, Z]) == Some(3);
    assert Best(Mixed, 1, 1, [A, Z, Z]) == Some(3);
    assert BestOf(Mixed, 1, [1], XAZZ) == Some(4);
  }

  lemma LoopedPlain()
    ensures Plain(Looped) && Plain(Empty) && FreshLabel(Looped, Empty, 1)
  {
  }

  lemma LoopedTwins()
    ensures !Untangled(Looped)
  {
    hide OnTrunk, NoneAlike;
    assert SameKind(Looped, 2, 3);
    assert Path(Looped, [1, 2]) && Path(Looped, [1, 3]) && Path(Looped, [2, 1, 3]);
    assert Forked(Looped, [1, 2], [1, 3]);
    assert Kin(Looped, 2, 3);
    assert Reaching(Looped, 2, 3);
    assert !Separate(Looped, 2, 3);
  }

  const Body: Node := Concatenation(RawByte(X), Alternation(RawByte(A), Concatenation(RawByte(A), RawByte(Z))))

  /** (x(a|az))+z */
  const Pattern: Node := Concatenation(Repetition(Body, 1, None, true), RawByte(Z))

  ghost function Last(): Rest {
    u => Pref(RawByte(Z), u, v => Some(0))
  }

  ghost function Loop(w: seq<Byte>): Rest {
    u => if |u| < |w| then Again(Body, true, u, Last()) else Last()(u)
  }

  lemma BodyIs(w: seq<Byte>, j: Rest)
    ensures w != [] && w[0] != X ==> Pref(Body, w, j) == None
    ensures w != [] && w[0] == X ==> Pref(Body, w, j) == Beyond(1, Pref(Body.right, w[1..], j))
  {
  }

  lemma AgainOnZ()
    ensures Again(Body, true, [Z, Z], Last()) == Some(1)
  {
    BodyIs([Z, Z], u => if |u| < 2 then Again(Body, true, u, Last()) else None);
    assert [Z, Z][1..] == [Z];
    assert Last()([Z, Z]) == Some(1);
  }

  /** Backtracking through the pattern: x, the first a, no more, and z. */
  lemma PatternPrefers()
    ensures Building.Preferred(Pattern, XAZZ) == Some(3)
  {
    var j := Loop(XAZZ);
    assert XAZZ[1..] == [A, Z, Z] && [A, Z, Z][1..] == [Z, Z];
    AgainOnZ();
    BodyIs(XAZZ, j);
    assert Pref(Body.right, [A, Z, Z], j) == Some(2);
    assert Pref(Body, XAZZ, j) == Some(3);
    PatternIs();
  }

  lemma PatternIs()
    ensures Building.Preferred(Pattern, XAZZ) == Pref(Body, XAZZ, Loop(XAZZ))
  {
    var last: Rest := u => Pref(RawByte(Z), u, v => Some(0));
    hide Pref;
    assert Building.Preferred(Pattern, XAZZ) == OnceOrMore(Body, true, XAZZ, last) by {
      PatternUnfolds();
    }
    forall u: seq<Byte> ensures Again(Body, true, u, last) == Again(Body, true, u, Last()) {
      AgainSame(Body, true, u, last, Last());
    }
    PrefSame(Body, XAZZ, u => if |u| < |XAZZ| then Again(Body, true, u, last) else last(u), Loop(XAZZ));
  }

  lemma PatternUnfolds()
    ensures Building.Preferred(Pattern, XAZZ) == OnceOrMore(Body, true, XAZZ, u => Pref(RawByte(Z), u, v => Some(0)))
  {
    OnceSame(Body, true, XAZZ, u => Pref(RawByte(Z), u, v => Some(0)), u => Pref(Pattern.right, u, v => Some(0)));
    hide OnceOrMore;
  }

  /** Whatever is left of merging the automaton into an empty one, it does not prefer what the automaton prefers. */
  lemma PreferenceIsLost(g: Nfa)
    requires MergesTo(Looped, Empty, g)
    ensures Wired(Looped) && Best(Looped, 1, 0, XAZZ) == Some(3)
    ensures Wired(g) && Best(g, 1, 0, XAZZ) == Some(4)
    ensures Building.Preferred(Pattern, XAZZ) == Some(3)
    ensures Plain(Looped) && Plain(Empty) && FreshLabel(Looped, Empty, 1) && !Untangled(Looped)
  {
    hide *;
    PatternPrefers();
    LoopedPlain();
    LoopedMerges();
    MergesToOne(Looped, Empty, g, Mixed);
    LoopedPrefers();
    MixedPrefers();
    LoopedTwins();
  }
}
