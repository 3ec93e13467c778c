/**
 A compiled program: snippets laid out in the order of discovery, then a HALT
 and a FINISH. Here: its plan is sound, so that every epsilon run in it ends
 and the search can be run on it (src/lib/compiler.cpp:106-191).
 */
module Compiled {
  import opened Basics
  import opened Automata
  import opened Sequences
  import opened Subsets
  import opened Layouts
  import B = Bytecode

  datatype Build = Build(g: Nfa, lay: Layout, kv: seq<Option<nat>>, prog: B.Program, plan: B.Plan)

  // ----- what is asked of the automaton -----

  /** Every vertex but a match has an edge to follow. */
  ghost predicate Compilable(g: Nfa) {
    && Wired(g) && Matched(g)
    && g.ins[0] == [] && g.out[0] != []
    && g.vertices[0] == Vertex(NoTransition, false, NOLABEL)
    && (forall v :: 0 < v < |g.vertices| ==> SomeByte(g.vertices[v].trans))
    && (forall v :: 0 < v < |g.vertices| && !g.vertices[v].isMatch ==> g.out[v] != [])
    && (forall v :: 0 <= v < |g.vertices| ==> NoRepeats(g.out[v]))
    && (forall v :: 0 <= v < |g.vertices| ==> g.vertices[v].lbl <= NOLABEL)
  }

  /** Every vertex is always entered with the same label in the end: see Guards. */
  ghost predicate Consistent(g: Nfa, kv: seq<Option<nat>>)
    requires Wired(g)
  {
    && |kv| == |g.vertices| && kv[0] == None
    && (forall v :: 0 <= v < |kv| ==> (kv[v].Some? ==> kv[v].value != NOLABEL) && (g.vertices[v].isMatch ==> kv[v].Some?))
    && (forall v :: 0 <= v < |kv| && g.vertices[v].lbl != NOLABEL ==> kv[v] == Some(g.vertices[v].lbl))
    && (forall v: nat, i: nat :: v < |kv| && i < |g.out[v]| ==> LabelFlows(g, kv, v, g.out[v][i]))
  }

  predicate LabelFlows(g: Nfa, kv: seq<Option<nat>>, v: nat, t: nat)
    requires |kv| == |g.vertices| && v < |kv| && t < |kv|
  {
    kv[v] == kv[t] || (kv[v] == None && g.vertices[t].lbl != NOLABEL)
  }

  // ----- what the passes leave -----

  ghost predicate Has(prog: B.Program, plan: B.Plan, at: nat, cells: seq<Cell>) {
    && |plan| == |prog.code| && at + |cells| <= |prog.code|
    && forall i :: 0 <= i < |cells| ==> prog.code[at + i] == cells[i].word && plan[at + i] == cells[i].slot
  }

  lemma HasSplit(prog: B.Program, plan: B.Plan, at: nat, a: seq<Cell>, b: seq<Cell>)
    requires Has(prog, plan, at, a + b)
    ensures Has(prog, plan, at, a) && Has(prog, plan, at + |a|, b)
  {
    forall i | 0 <= i < |a| ensures prog.code[at + i] == a[i].word && plan[at + i] == a[i].slot {
      assert (a + b)[i] == a[i];
    }
    forall i | 0 <= i < |b| ensures prog.code[at + |a| + i] == b[i].word && plan[at + |a| + i] == b[i].slot {
      assert (a + b)[|a| + i] == b[i];
    }
  }

  /**
   Code that falls through goes on at the first child, as the initial vertex does to an only
   child, and the snippets fill the words before the guard.
   */
  ghost predicate Tiled(g: Nfa, lay: Layout, kv: seq<Option<nat>>)
    requires Fits(g, lay, kv)
  {
    && lay.start[0] == 0 && (|g.out[0]| == 1 ==> Falls(g, lay, 0))
    && (forall v: nat :: v < |lay.start| ==> lay.start[v] + SnippetSize(g, lay, kv, v) <= lay.guard)
    && (forall v: nat :: v < |lay.start| && g.out[v] != [] && Falls(g, lay, v) ==>
          lay.start[v] + SnippetSize(g, lay, kv, v) == lay.start[g.out[v][0]])
    && (forall p: nat :: p < lay.guard ==> Owned(g, lay, kv, p))
  }

  ghost predicate Owned(g: Nfa, lay: Layout, kv: seq<Option<nat>>, p: nat)
    requires Fits(g, lay, kv)
  {
    exists v: nat :: v < |lay.start| && lay.start[v] <= p < lay.start[v] + SnippetSize(g, lay, kv, v)
  }

  /** Snippets do not overlap. */
  ghost predicate Apart(g: Nfa, lay: Layout, kv: seq<Option<nat>>)
    requires Fits(g, lay, kv)
  {
    forall u: nat, v: nat :: u < |lay.start| && v < |lay.start| && u != v ==>
      lay.start[u] + SnippetSize(g, lay, kv, u) <= lay.start[v] || lay.start[v] + SnippetSize(g, lay, kv, v) <= lay.start[u]
  }

  /** Exactly the vertices with several in edges have locks, each one of its own. */
  ghost predicate ChecksOk(g: Nfa, lay: Layout, maxCheck: nat) {
    && (forall v :: 0 <= v < |lay.check| && v < |g.ins| ==> (lay.check[v].Some? <==> |g.ins[v]| > 1))
    && (forall v :: 0 <= v < |lay.check| && lay.check[v].Some? ==> lay.check[v].value <= maxCheck)
    && (forall u, v :: 0 <= u < v < |lay.check| && lay.check[u].Some? ==> lay.check[u] != lay.check[v])
  }

  ghost predicate Written(b: Build)
    requires Fits(b.g, b.lay, b.kv)
  {
    && |b.prog.code| == |b.plan| == b.lay.guard + 2
    && (forall v: nat :: v < |b.g.vertices| ==> Has(b.prog, b.plan, b.lay.start[v], Snippet(b.g, b.lay, b.kv, v)))
    && b.prog.code[b.lay.guard] == B.Halt
    && b.prog.code[b.lay.guard + 1] == B.Finish
    && b.plan[b.lay.guard + 1] == B.Slot(0, B.SomeLabel, true)
  }

  ghost predicate Complete(b: Build) {
    && Compilable(b.g) && Consistent(b.g, b.kv) && Fits(b.g, b.lay, b.kv)
    && Tiled(b.g, b.lay, b.kv) && Apart(b.g, b.lay, b.kv) && Written(b)
    && ChecksOk(b.g, b.lay, b.prog.maxCheck)
    && b.prog.maxLabel < NOLABEL
    && (forall v :: 0 <= v < |b.g.vertices| && b.g.vertices[v].lbl != NOLABEL ==> b.g.vertices[v].lbl <= b.prog.maxLabel)
  }

  // ----- where threads arrive -----

  /** A thread of kind k may arrive at q, having read a byte. */
  ghost predicate Welcomes(b: Build, q: nat, k: B.Kind) {
    && |b.plan| == |b.prog.code| && q < |b.prog.code|
    && B.Within(k, b.plan[q].kind) && !b.plan[q].ended && b.plan[q].rank < b.lay.guard + 1
  }

  lemma SnippetParts(b: Build, v: nat)
    requires Complete(b) && v < |b.g.vertices|
    ensures var gates := GateCells(b.g, b.lay, b.kv, v);
            var e := EntryOf(b.g, b.lay, v);
            && Has(b.prog, b.plan, b.lay.start[v], EvalCells(b.g, b.kv, v))
            && Has(b.prog, b.plan, e, gates)
            && Has(b.prog, b.plan, e + |gates|, EdgeCells(b.g, b.lay, b.kv, v, e + |gates|))
            && e + |gates| + EdgeSize(b.g, b.lay, b.kv, v) == b.lay.start[v] + SnippetSize(b.g, b.lay, b.kv, v) <= b.lay.guard
            && |b.plan| == |b.prog.code| == b.lay.guard + 2
  {
    hide *;
    BuildUse(b, v);
    SnippetIs(b.g, b.lay, b.kv, v);
    var gates := GateCells(b.g, b.lay, b.kv, v);
    var e := EntryOf(b.g, b.lay, v);
    var evals := EvalCells(b.g, b.kv, v);
    var edges := EdgeCells(b.g, b.lay, b.kv, v, e + |gates|);
    SnippetLength(b.g, b.lay, b.kv, v);
    HasSplit(b.prog, b.plan, b.lay.start[v], evals + gates, edges);
    HasSplit(b.prog, b.plan, b.lay.start[v], evals, gates);
    EntryIs(b.g, b.lay, v);
  }

  lemma BuildUse(b: Build, v: nat)
    requires Complete(b) && v < |b.g.vertices|
    ensures Fits(b.g, b.lay, b.kv) && v < |b.lay.start| && v < |b.kv|
    ensures Has(b.prog, b.plan, b.lay.start[v], Snippet(b.g, b.lay, b.kv, v))
    ensures b.lay.start[v] + SnippetSize(b.g, b.lay, b.kv, v) <= b.lay.guard
    ensures |b.plan| == |b.prog.code| == b.lay.guard + 2
  {
    hide Compilable, Consistent, ChecksOk, Snippet, SnippetSize;
  }

  lemma SnippetIs(g: Nfa, lay: Layout, kv: seq<Option<nat>>, v: nat)
    requires Fits(g, lay, kv) && v < |g.vertices|
    ensures var gates := GateCells(g, lay, kv, v);
            v < |lay.start| && v < |kv| && Snippet(g, lay, kv, v) == EvalCells(g, kv, v) + gates + EdgeCells(g, lay, kv, v, EntryOf(g, lay, v) + |gates|)
  {
    hide EvalCells, GateCells, EdgeCells, UsesTable, Wired;
  }

  lemma EntryIs(g: Nfa, lay: Layout, v: nat)
    requires v < |g.vertices| && v < |lay.start|
    ensures EntryOf(g, lay, v) == lay.start[v] + NumEval(g, v)
  {
  }

  /** At the byte test of v. */
  lemma AtStart(b: Build, v: nat)
    requires Complete(b) && 0 < v < |b.g.vertices|
    ensures var s := b.lay.start[v];
            && s < b.lay.guard && s < |b.prog.code| == |b.plan|
            && b.prog.code[s] == TransWord(b.g.vertices[v].trans)
            && b.plan[s] == B.Slot(0, Arriving(b.g, b.kv, v), false)
  {
    SnippetParts(b, v);
    assert EvalCells(b.g, b.kv, v)[0] == Cell(TransWord(b.g.vertices[v].trans), B.Slot(0, Arriving(b.g, b.kv, v), false));
  }

  lemma ArrivingFits(g: Nfa, kv: seq<Option<nat>>, v: nat, i: nat)
    requires Wired(g) && Consistent(g, kv) && v < |g.out| && i < |g.out[v]|
    ensures B.Within(KindOf(kv[v]), Arriving(g, kv, g.out[v][i]))
    ensures g.vertices[g.out[v][i]].lbl == NOLABEL ==> kv[v] == kv[g.out[v][i]]
  {
    assert LabelFlows(g, kv, v, g.out[v][i]);
  }

  /** After the byte test of v, both from the test itself and from a jump table that did the test. */
  ghost predicate Enterable(b: Build, v: nat)
    requires v < |b.g.vertices| && v < |b.lay.start| && v < |b.kv|
  {
    var e := EntryOf(b.g, b.lay, v);
    && Welcomes(b, e, Arriving(b.g, b.kv, v))
    && (b.g.vertices[v].lbl != NOLABEL ==> b.plan[e].kind == B.Maybe(b.g.vertices[v].lbl))
  }

  lemma HasFirst(prog: B.Program, plan: B.Plan, at: nat, cells: seq<Cell>)
    requires Has(prog, plan, at, cells) && cells != []
    ensures at < |plan| == |prog.code| && prog.code[at] == cells[0].word && plan[at] == cells[0].slot
  {
  }

  lemma AtEntryGates(b: Build, v: nat)
    requires Complete(b) && v < |b.g.vertices| && GateCells(b.g, b.lay, b.kv, v) != []
    ensures v < |b.lay.start| && v < |b.kv| && Enterable(b, v)
  {
    SnippetParts(b, v);
    GateFirst(b.g, b.lay, b.kv, v);
    HasFirst(b.prog, b.plan, EntryOf(b.g, b.lay, v), GateCells(b.g, b.lay, b.kv, v));
    hide Complete, GateCells, EdgeCells, EvalCells, EdgeSize, SnippetSize, Has, KindOf, EntryOf;
  }

  lemma PlainEnterable(b: Build, v: nat)
    requires v < |b.g.vertices| && v < |b.lay.start| && v < |b.kv| && b.g.vertices[v].lbl == NOLABEL
    requires var e := EntryOf(b.g, b.lay, v);
             && |b.plan| == |b.prog.code| && e < |b.prog.code| && !b.plan[e].ended && b.plan[e].rank < b.lay.guard + 1
             && B.Within(KindOf(b.kv[v]), b.plan[e].kind)
    ensures Enterable(b, v)
  {
  }

  lemma WithinSelf(k: B.Kind)
    ensures B.Within(k, k)
  {
  }

  lemma AtEntryEdges(b: Build, v: nat)
    requires Complete(b) && v < |b.g.vertices| && GateCells(b.g, b.lay, b.kv, v) == [] && EdgeSize(b.g, b.lay, b.kv, v) > 0
    ensures v < |b.lay.start| && v < |b.kv| && Enterable(b, v)
  {
    hide *;
    BuildUse(b, v);
    SnippetParts(b, v);
    CompleteUse(b);
    NoGates(b.g, b.lay, b.kv, v);
    var e := EntryOf(b.g, b.lay, v);
    EdgeFirst(b.g, b.lay, b.kv, v, e);
    assert e + |GateCells(b.g, b.lay, b.kv, v)| == e;
    HasFirst(b.prog, b.plan, e, EdgeCells(b.g, b.lay, b.kv, v, e));
    WithinSelf(KindOf(b.kv[v]));
    PlainEnterable(b, v);
  }

  lemma CompleteUse(b: Build)
    requires Complete(b)
    ensures Compilable(b.g) && Wired(b.g) && Consistent(b.g, b.kv) && Fits(b.g, b.lay, b.kv) && Tiled(b.g, b.lay, b.kv) && Apart(b.g, b.lay, b.kv)
    ensures |b.g.out| == |b.g.vertices| == |b.lay.start| == |b.kv| == |b.lay.check| == |b.lay.rank|
  {
    hide SnippetSize, Tiled, Apart, Written, NoRepeats, SomeByte, UsesTable;
  }

  lemma AtEntryFalls(b: Build, v: nat)
    requires Complete(b) && v < |b.g.vertices| && GateCells(b.g, b.lay, b.kv, v) == [] && EdgeSize(b.g, b.lay, b.kv, v) == 0
    ensures v < |b.lay.start| && v < |b.kv| && Enterable(b, v)
  {
    hide *;
    BuildUse(b, v);
    SnippetParts(b, v);
    CompleteUse(b);
    NoGates(b.g, b.lay, b.kv, v);
    NoEdgeCells(b.g, b.lay, b.kv, v);
    ArrivingFits(b.g, b.kv, v, 0);
    AtStart(b, b.g.out[v][0]);
    PlainEnterable(b, v);
  }

  lemma AtEntry(b: Build, v: nat)
    requires Complete(b) && v < |b.g.vertices|
    ensures v < |b.lay.start| && v < |b.kv| && Enterable(b, v)
  {
    hide *;
    BuildUse(b, v);
    if GateCells(b.g, b.lay, b.kv, v) != [] {
      AtEntryGates(b, v);
    } else if EdgeSize(b.g, b.lay, b.kv, v) > 0 {
      AtEntryEdges(b, v);
    } else {
      AtEntryFalls(b, v);
    }
  }

  lemma GateFirst(g: Nfa, lay: Layout, kv: seq<Option<nat>>, v: nat)
    requires Fits(g, lay, kv) && v < |g.vertices| && Consistent(g, kv) && GateCells(g, lay, kv, v) != []
    ensures var s := GateCells(g, lay, kv, v)[0].slot;
            && s.kind == Arriving(g, kv, v) && !s.ended && s.rank == |GateCells(g, lay, kv, v)| + EdgeSize(g, lay, kv, v)
  {
  }

  lemma NoGates(g: Nfa, lay: Layout, kv: seq<Option<nat>>, v: nat)
    requires Fits(g, lay, kv) && v < |g.vertices| && Compilable(g) && GateCells(g, lay, kv, v) == []
    ensures g.vertices[v].lbl == NOLABEL && !g.vertices[v].isMatch && g.out[v] != []
  {
  }

  lemma EdgeFirst(g: Nfa, lay: Layout, kv: seq<Option<nat>>, v: nat, at: nat)
    requires Fits(g, lay, kv) && v < |g.vertices| && EdgeSize(g, lay, kv, v) > 0
    ensures var s := EdgeCells(g, lay, kv, v, at)[0].slot;
            s.kind == KindOf(kv[v]) && !s.ended && s.rank == EdgeSize(g, lay, kv, v)
  {
  }

  lemma NoEdgeCells(g: Nfa, lay: Layout, kv: seq<Option<nat>>, v: nat)
    requires Fits(g, lay, kv) && v < |g.vertices| && Compilable(g) && g.out[v] != [] && EdgeSize(g, lay, kv, v) == 0
    ensures Falls(g, lay, v) && |g.out[v]| == 1 && 0 < g.out[v][0] < |g.vertices|
    ensures Tiled(g, lay, kv) ==> lay.start[v] + SnippetSize(g, lay, kv, v) == lay.start[g.out[v][0]]
  {
    ChildNotInitial(g, v, 0);
  }

  lemma ChildNotInitial(g: Nfa, v: nat, i: nat)
    requires Compilable(g) && v < |g.out| && i < |g.out[v]|
    ensures 0 < g.out[v][i] < |g.vertices|
  {
    assert g.out[v][i] in g.out[v];
  }

  /** The slot at q is one that a step of kind k and rank r may lead to. */
  ghost predicate Follows(b: Build, q: nat, k: B.Kind, r: nat) {
    && |b.plan| == |b.prog.code| && q < |b.prog.code|
    && B.Within(k, b.plan[q].kind) && !b.plan[q].ended && b.plan[q].rank < r
  }

  // ----- byte tests -----

  lemma EvalOk(b: Build, v: nat, p: nat)
    requires Complete(b) && v < |b.g.vertices| && v < |b.lay.start| && b.lay.start[v] <= p < EntryOf(b.g, b.lay, v)
    ensures p < |b.prog.code| == |b.plan| && B.WordOk(b.prog, b.plan, p)
  {
    hide *;
    BuildUse(b, v);
    CompleteUse(b);
    SnippetParts(b, v);
    AtEntry(b, v);
    EntryIs(b.g, b.lay, v);
    EvalCellAt(b.g, b.kv, v, p - b.lay.start[v]);
    HasAt(b.prog, b.plan, b.lay.start[v], EvalCells(b.g, b.kv, v), p - b.lay.start[v]);
    EvalWordOk(b, v, p);
  }

  lemma HasAt(prog: B.Program, plan: B.Plan, at: nat, cells: seq<Cell>, i: nat)
    requires Has(prog, plan, at, cells) && i < |cells|
    ensures at + i < |plan| == |prog.code| && prog.code[at + i] == cells[i].word && plan[at + i] == cells[i].slot
  {
  }

  lemma EvalCellAt(g: Nfa, kv: seq<Option<nat>>, v: nat, i: nat)
    requires v < |g.vertices| && v < |kv| && i < NumEval(g, v)
    ensures v != 0
    ensures EvalCells(g, kv, v)[i]
         == Cell(if i == 0 then TransWord(g.vertices[v].trans) else B.Ext, B.Slot(0, Arriving(g, kv, v), false))
  {
  }

  lemma EvalWordOk(b: Build, v: nat, p: nat)
    requires 0 < v < |b.g.vertices| && v < |b.lay.start| && v < |b.kv| && Compilable(b.g) && Enterable(b, v)
    requires p < |b.prog.code| == |b.plan| && b.lay.start[v] <= p < EntryOf(b.g, b.lay, v)
    requires b.plan[p] == B.Slot(0, Arriving(b.g, b.kv, v), false)
    requires b.prog.code[p] == if p == b.lay.start[v] then TransWord(b.g.vertices[v].trans) else B.Ext
    ensures B.WordOk(b.prog, b.plan, p)
  {
    assert SomeByte(b.g.vertices[v].trans);
  }

  // ----- gates -----

  /** Where the edges of v begin. */
  lemma AtEdges(b: Build, v: nat)
    requires Complete(b) && v < |b.g.vertices| && b.g.out[v] != []
    ensures Follows(b, EntryOf(b.g, b.lay, v) + |GateCells(b.g, b.lay, b.kv, v)|, KindOf(b.kv[v]), EdgeSize(b.g, b.lay, b.kv, v) + 1)
  {
    hide *;
    BuildUse(b, v);
    SnippetParts(b, v);
    CompleteUse(b);
    var at := EntryOf(b.g, b.lay, v) + |GateCells(b.g, b.lay, b.kv, v)|;
    var k := KindOf(b.kv[v]);
    if EdgeSize(b.g, b.lay, b.kv, v) > 0 {
      EdgeFirst(b.g, b.lay, b.kv, v, at);
      HasFirst(b.prog, b.plan, at, EdgeCells(b.g, b.lay, b.kv, v, at));
      WithinSelf(k);
      FollowsBy(b, at, k, EdgeSize(b.g, b.lay, b.kv, v) + 1);
    } else {
      NoEdgeCells(b.g, b.lay, b.kv, v);
      ArrivingFits(b.g, b.kv, v, 0);
      AtStart(b, b.g.out[v][0]);
      FollowsBy(b, at, k, EdgeSize(b.g, b.lay, b.kv, v) + 1);
    }
  }

  lemma FollowsBy(b: Build, q: nat, k: B.Kind, r: nat)
    requires |b.plan| == |b.prog.code| && q < |b.prog.code|
    requires B.Within(k, b.plan[q].kind) && !b.plan[q].ended && b.plan[q].rank < r
    ensures Follows(b, q, k, r)
  {
  }

  /**
   The i-th of the gates is sound if what follows them is: leads says whether
   edges follow at all, and left how many words they have.
   */
  ghost predicate GateFine(gates: seq<Cell>, k: B.Kind, leads: bool, left: nat, guard: nat, maxLabel: nat, maxCheck: nat, i: nat)
    requires i < |gates|
  {
    var (w, s) := (gates[i].word, gates[i].slot);
    match w
    case Label(l) => l <= maxLabel && s.kind == B.Maybe(l) && !s.ended && k == B.Labelled(l) && Onward(gates, k, leads, left, i)
    case CheckHalt(x) => x <= maxCheck && s.kind == k && Onward(gates, k, leads, left, i)
    case Match => s.kind == k && k.Labelled? && i + 1 < |gates| && gates[i + 1].slot.kind == k && gates[i + 1].slot.rank < s.rank
    case Finish => s.kind == k && k.Labelled? && s.ended
    case Fork(t) => s.kind == k && k.Labelled? && s.ended && t == guard + 1 && leads && i + 2 == |gates| && left + 1 <= s.rank
    case Ext => true
    case _ => false
  }

  ghost predicate Onward(gates: seq<Cell>, k: B.Kind, leads: bool, left: nat, i: nat)
    requires i < |gates|
  {
    if i + 1 == |gates| then leads && left + 1 <= gates[i].slot.rank
    else gates[i + 1].slot.kind == k && !gates[i + 1].slot.ended && gates[i + 1].slot.rank < gates[i].slot.rank
  }

  lemma GateShape(g: Nfa, lay: Layout, kv: seq<Option<nat>>, v: nat)
    requires Fits(g, lay, kv) && v < |g.vertices|
    ensures v < |lay.check| && v < |kv| && v < |g.out|
    ensures var left := EdgeSize(g, lay, kv, v);
            var k := KindOf(kv[v]);
            var m := MatchCells(g, lay, k, v, left);
            var c := CheckCells(lay, k, v, left + |m|);
            GateCells(g, lay, kv, v) == LabelCells(g, v, left + |m| + |c|) + c + m
    ensures v == 0 ==> GateCells(g, lay, kv, v) == []
  {
    hide EdgeSize, UsesTable;
  }

  /** What the label says of the vertex, and what the vertex must be. */
  lemma VertexFacts(g: Nfa, kv: seq<Option<nat>>, v: nat)
    requires Compilable(g) && Consistent(g, kv) && 0 < v < |g.vertices| && v < |g.out| && v < |kv|
    ensures g.vertices[v].lbl != NOLABEL ==> kv[v] == Some(g.vertices[v].lbl)
    ensures g.vertices[v].isMatch ==> kv[v].Some?
    ensures !g.vertices[v].isMatch ==> g.out[v] != []
  {
  }

  lemma MatchShape(g: Nfa, lay: Layout, k: B.Kind, v: nat, left: nat, leads: bool)
    requires v < |g.out| && leads == (g.out[v] != [])
    requires 0 < v < |g.vertices| && v < |g.out| && (g.vertices[v].isMatch ==> k.Labelled?) && (!g.vertices[v].isMatch ==> g.out[v] != [])
    ensures var m := MatchCells(g, lay, k, v, left);
            && (forall i: nat :: i < |m| ==> GateFine(m, k, leads, left, lay.guard, 0, 0, i))
            && (m != [] ==> m[0].slot == B.Slot(left + |m|, k, false))
            && (m == [] ==> g.out[v] != [])
  {
  }

  /** Another gate in front. */
  lemma GateBefore(first: Cell, rest: seq<Cell>, k: B.Kind, leads: bool, left: nat, guard: nat, maxLabel: nat, maxCheck: nat)
    requires forall i: nat :: i < |rest| ==> GateFine(rest, k, leads, left, guard, maxLabel, maxCheck, i)
    requires GateFine([first] + rest, k, leads, left, guard, maxLabel, maxCheck, 0)
    ensures forall i: nat :: i < |[first] + rest| ==> GateFine([first] + rest, k, leads, left, guard, maxLabel, maxCheck, i)
  {
    var all := [first] + rest;
    forall i: nat | i < |all| ensures GateFine(all, k, leads, left, guard, maxLabel, maxCheck, i) {
      if i > 0 {
        assert all[i] == rest[i - 1] && GateFine(rest, k, leads, left, guard, maxLabel, maxCheck, i - 1);
        if i + 1 < |all| {
          assert all[i + 1] == rest[i];
        }
      }
    }
  }

  lemma FineLimits(m: seq<Cell>, k: B.Kind, leads: bool, left: nat, guard: nat, maxLabel: nat, maxCheck: nat, i: nat)
    requires i < |m| && GateFine(m, k, leads, left, guard, 0, 0, i)
    ensures GateFine(m, k, leads, left, guard, maxLabel, maxCheck, i)
  {
  }

  /** A check in front of what a match writes, and a label in front of that. */
  lemma CheckAndLabel(m: seq<Cell>, c: seq<Cell>, l: seq<Cell>, k: B.Kind, leads: bool, left: nat, guard: nat,
                      maxLabel: nat, maxCheck: nat)
    requires forall i: nat :: i < |m| ==> GateFine(m, k, leads, left, guard, maxLabel, maxCheck, i)
    requires m != [] ==> m[0].slot == B.Slot(left + |m|, k, false)
    requires m == [] ==> leads
    requires c == [] || exists x: nat :: x <= maxCheck && c == [Cell(B.CheckHalt(x), B.Slot(left + |m| + 1, k, false))]
    requires l == [] || exists x: nat :: x <= maxLabel && k == B.Labelled(x)
                          && l == [Cell(B.Label(x), B.Slot(left + |m| + |c| + 1, B.Maybe(x), false))]
    ensures forall i: nat :: i < |l + c + m| ==> GateFine(l + c + m, k, leads, left, guard, maxLabel, maxCheck, i)
  {
    var cm := c + m;
    if c == [] {
      assert cm == m;
    } else {
      GateBefore(c[0], m, k, leads, left, guard, maxLabel, maxCheck);
      assert cm == [c[0]] + m;
    }
    if l == [] {
      assert l + c + m == cm;
    } else {
      GateBefore(l[0], cm, k, leads, left, guard, maxLabel, maxCheck);
      assert l + c + m == [l[0]] + cm;
    }
  }

  lemma GatesAreFine(g: Nfa, lay: Layout, kv: seq<Option<nat>>, v: nat, maxLabel: nat, maxCheck: nat, i: nat)
    requires Fits(g, lay, kv) && v < |g.vertices| && v < |kv| && v < |g.out| && i < |GateCells(g, lay, kv, v)|
    requires Compilable(g) && Consistent(g, kv) && ChecksOk(g, lay, maxCheck)
    requires g.vertices[v].lbl != NOLABEL ==> g.vertices[v].lbl <= maxLabel
    ensures GateFine(GateCells(g, lay, kv, v), KindOf(kv[v]), g.out[v] != [], EdgeSize(g, lay, kv, v), lay.guard, maxLabel, maxCheck, i)
  {
    hide *;
    GateShape(g, lay, kv, v);
    var left := EdgeSize(g, lay, kv, v);
    var k := KindOf(kv[v]);
    var m := MatchCells(g, lay, k, v, left);
    var c := CheckCells(lay, k, v, left + |m|);
    var l := LabelCells(g, v, left + |m| + |c|);
    var leads := g.out[v] != [];
    VertexFacts(g, kv, v);
    KindShape(kv[v]);
    MatchShape(g, lay, k, v, left, leads);
    forall j: nat | j < |m| ensures GateFine(m, k, leads, left, lay.guard, maxLabel, maxCheck, j) {
      FineLimits(m, k, leads, left, lay.guard, maxLabel, maxCheck, j);
    }
    CheckShape(g, lay, k, v, left + |m|, maxCheck);
    LabelShape(g, v, left + |m| + |c|, maxLabel);
    CheckAndLabel(m, c, l, k, leads, left, lay.guard, maxLabel, maxCheck);
  }

  lemma KindShape(k: Option<nat>)
    ensures KindOf(k) == if k.Some? then B.Labelled(k.value) else B.Unlabelled
  {
  }

  lemma CheckShape(g: Nfa, lay: Layout, k: B.Kind, v: nat, left: nat, maxCheck: nat)
    requires 0 < v < |lay.check| && ChecksOk(g, lay, maxCheck)
    ensures var c := CheckCells(lay, k, v, left);
            c == [] || exists x: nat :: x <= maxCheck && c == [Cell(B.CheckHalt(x), B.Slot(left + 1, k, false))]
  {
    if lay.check[v].Some? {
      assert lay.check[v].value <= maxCheck;
    }
  }

  lemma LabelShape(g: Nfa, v: nat, left: nat, maxLabel: nat)
    requires 0 < v < |g.vertices| && (g.vertices[v].lbl != NOLABEL ==> g.vertices[v].lbl <= maxLabel)
    ensures var l := LabelCells(g, v, left);
            l == [] || (g.vertices[v].lbl != NOLABEL && g.vertices[v].lbl <= maxLabel
                        && l == [Cell(B.Label(g.vertices[v].lbl), B.Slot(left + 1, B.Maybe(g.vertices[v].lbl), false))])
  {
  }

  lemma GateWordOk(b: Build, e: nat, gates: seq<Cell>, k: B.Kind, leads: bool, left: nat, i: nat)
    requires i < |gates| && GateFine(gates, k, leads, left, b.lay.guard, b.prog.maxLabel, b.prog.maxCheck, i)
    requires Has(b.prog, b.plan, e, gates) && (k.Unlabelled? || k.Labelled?)
    requires leads ==> Follows(b, e + |gates|, k, left + 1)
    requires |b.plan| == |b.prog.code| == b.lay.guard + 2 && b.plan[b.lay.guard + 1] == B.Slot(0, B.SomeLabel, true)
    ensures B.WordOk(b.prog, b.plan, e + i)
  {
    assert b.prog.code[e + i] == gates[i].word && b.plan[e + i] == gates[i].slot;
    if i + 1 < |gates| {
      assert b.plan[e + (i + 1)] == gates[i + 1].slot;
    }
    hide B.TableOk, B.ByteFlow, Has;
  }

  lemma GatesOk(b: Build, v: nat, p: nat)
    requires Complete(b) && v < |b.g.vertices| && v < |b.lay.start|
    requires EntryOf(b.g, b.lay, v) <= p < EntryOf(b.g, b.lay, v) + |GateCells(b.g, b.lay, b.kv, v)|
    ensures p < |b.prog.code| == |b.plan| && B.WordOk(b.prog, b.plan, p)
  {
    hide *;
    BuildUse(b, v);
    CompleteUse(b);
    LimitsUse(b);
    SnippetParts(b, v);
    var i := p - EntryOf(b.g, b.lay, v);
    GatesAreFine(b.g, b.lay, b.kv, v, b.prog.maxLabel, b.prog.maxCheck, i);
    if b.g.out[v] != [] {
      AtEdges(b, v);
    }
    KindShape(b.kv[v]);
    GateWordOk(b, EntryOf(b.g, b.lay, v), GateCells(b.g, b.lay, b.kv, v), KindOf(b.kv[v]), b.g.out[v] != [],
               EdgeSize(b.g, b.lay, b.kv, v), i);
  }

  lemma LimitsUse(b: Build)
    requires Complete(b)
    ensures ChecksOk(b.g, b.lay, b.prog.maxCheck) && b.prog.maxLabel < NOLABEL
    ensures forall v: nat :: v < |b.g.vertices| && b.g.vertices[v].lbl != NOLABEL ==> b.g.vertices[v].lbl <= b.prog.maxLabel
    ensures |b.prog.code| == |b.plan| == b.lay.guard + 2 && b.plan[b.lay.guard + 1] == B.Slot(0, B.SomeLabel, true)
    ensures b.prog.code[b.lay.guard] == B.Halt && b.prog.code[b.lay.guard + 1] == B.Finish
  {
    hide SnippetSize, Tiled, ChecksOk, Compilable, Consistent, Snippet;
  }

  lemma FollowsMore(b: Build, q: nat, k: B.Kind, r: nat, r': nat)
    requires Follows(b, q, k, r) && r <= r'
    ensures Follows(b, q, k, r')
  {
  }

  // ----- forks -----

  lemma ForkWordOk(b: Build, p: nat)
    requires |b.plan| == |b.prog.code| && p < |b.plan|
    requires match b.prog.code[p]
             case Fork(t) => Follows(b, t, b.plan[p].kind, b.plan[p].rank) && Follows(b, p + 2, b.plan[p].kind, b.plan[p].rank)
             case Jump(t) => Follows(b, t, b.plan[p].kind, b.plan[p].rank)
             case Ext => true
             case _ => false
    ensures B.WordOk(b.prog, b.plan, p)
  {
    hide B.TableOk, B.ByteFlow;
  }

  /** The children of v can be stepped to. */
  lemma ChildFollows(b: Build, v: nat, i: nat, r: nat)
    requires Complete(b) && v < |b.g.out| && i < |b.g.out[v]| && 0 < r
    ensures b.g.out[v][i] < |b.lay.start| && v < |b.kv|
    ensures Follows(b, b.lay.start[b.g.out[v][i]], KindOf(b.kv[v]), r)
  {
    hide *;
    CompleteUse(b);
    ChildNotInitial(b.g, v, i);
    ArrivingFits(b.g, b.kv, v, i);
    AtStart(b, b.g.out[v][i]);
    FollowsBy(b, b.lay.start[b.g.out[v][i]], KindOf(b.kv[v]), r);
  }

  lemma {:induction false} ForksOk(b: Build, v: nat, n: nat, falls: bool, at: nat, p: nat)
    requires Complete(b) && v < |b.g.out| && v < |b.kv| && 0 < n <= |b.g.out[v]|
    requires forall i :: 0 <= i < |b.g.out[v][..n]| ==> b.g.out[v][..n][i] < |b.lay.start|
    requires Has(b.prog, b.plan, at, ForkCells(b.lay, KindOf(b.kv[v]), b.g.out[v][..n], falls))
    requires falls ==> b.g.out[v][0] < |b.lay.start|
                       && at + |ForkCells(b.lay, KindOf(b.kv[v]), b.g.out[v][..n], falls)| == b.lay.start[b.g.out[v][0]]
    requires at <= p < at + |ForkCells(b.lay, KindOf(b.kv[v]), b.g.out[v][..n], falls)|
    ensures p < |b.prog.code| == |b.plan| && B.WordOk(b.prog, b.plan, p)
    decreases n
  {
    hide *;
    var ts := b.g.out[v][..n];
    var k := KindOf(b.kv[v]);
    var cells := ForkCells(b.lay, k, ts, falls);
    HasAt(b.prog, b.plan, at, cells, p - at);
    if n == 1 {
      LastFork(b.lay, k, ts, falls);
      ChildFollows(b, v, 0, 2);
      ForkWordOk(b, p);
    } else {
      assert ts[..n - 1] == b.g.out[v][..n - 1];
      FirstFork(b.lay, k, ts, falls);
      HasSplit(b.prog, b.plan, at, cells[..2], ForkCells(b.lay, k, b.g.out[v][..n - 1], falls));
      if p < at + 2 {
        ChildFollows(b, v, n - 1, |cells|);
        AfterFork(b, v, n - 1, falls, at + 2);
        FollowsMore(b, at + 2, k, |cells| - 1, |cells|);
        ForkWordOk(b, p);
      } else {
        ForksOk(b, v, n - 1, falls, at + 2, p);
      }
    }
  }

  lemma LastFork(lay: Layout, k: B.Kind, ts: seq<nat>, falls: bool)
    requires |ts| == 1 && ts[0] < |lay.start|
    ensures ForkCells(lay, k, ts, falls)
         == if falls then [] else [Cell(B.Jump(lay.start[ts[0]]), B.Slot(2, k, false)), Cell(B.Ext, B.Slot(1, k, false))]
  {
  }

  lemma FirstFork(lay: Layout, k: B.Kind, ts: seq<nat>, falls: bool)
    requires |ts| > 1 && forall i :: 0 <= i < |ts| ==> ts[i] < |lay.start|
    ensures var cells := ForkCells(lay, k, ts, falls);
            && |cells| >= 2
            && cells == cells[..2] + ForkCells(lay, k, ts[..|ts| - 1], falls)
            && cells[0] == Cell(B.Fork(lay.start[ts[|ts| - 1]]), B.Slot(|cells|, k, false))
            && cells[1].word == B.Ext
  {
  }

  /** After a fork come the forks to the children before it, or the code of the first child. */
  lemma AfterFork(b: Build, v: nat, n: nat, falls: bool, at: nat)
    requires Complete(b) && v < |b.g.out| && v < |b.kv| && 0 < n <= |b.g.out[v]|
    requires forall i :: 0 <= i < |b.g.out[v][..n]| ==> b.g.out[v][..n][i] < |b.lay.start|
    requires Has(b.prog, b.plan, at, ForkCells(b.lay, KindOf(b.kv[v]), b.g.out[v][..n], falls))
    requires falls ==> b.g.out[v][0] < |b.lay.start|
                       && at + |ForkCells(b.lay, KindOf(b.kv[v]), b.g.out[v][..n], falls)| == b.lay.start[b.g.out[v][0]]
    ensures Follows(b, at, KindOf(b.kv[v]), |ForkCells(b.lay, KindOf(b.kv[v]), b.g.out[v][..n], falls)| + 1)
  {
    hide *;
    var ts := b.g.out[v][..n];
    var k := KindOf(b.kv[v]);
    var cells := ForkCells(b.lay, k, ts, falls);
    WithinSelf(k);
    if |cells| > 0 {
      HasFirst(b.prog, b.plan, at, cells);
      if n == 1 {
        LastFork(b.lay, k, ts, falls);
      } else {
        FirstFork(b.lay, k, ts, falls);
      }
      FollowsBy(b, at, k, |cells| + 1);
    } else {
      if n > 1 {
        FirstFork(b.lay, k, ts, falls);
      } else {
        LastFork(b.lay, k, ts, falls);
      }
      ChildFollows(b, v, 0, 1);
    }
  }

  // ----- jump tables -----

  /** Where a table may send a thread of v that has read the byte of u. */
  lemma LandingOk(b: Build, v: nat, i: nat)
    requires Complete(b) && v < |b.g.out| && i < |b.g.out[v]| && b.g.out[v][i] < |b.g.vertices| == |b.lay.start|
    requires v < |b.kv|
    ensures Wired(b.g) && Follows(b, Landing(b.g, b.lay, b.g.out[v][i]), KindOf(b.kv[v]), b.lay.guard + 1)
  {
    hide *;
    CompleteUse(b);
    var u := b.g.out[v][i];
    ArrivingFits(b.g, b.kv, v, i);
    ChildNotInitial(b.g, v, i);
    if Shortcut(b.g, u) {
      LandingIs(b.g, b.lay, u);
      ShortcutIs(b.g, u);
      AtStart(b, u);
      ChildFollows(b, u, 0, b.lay.guard + 1);
    } else {
      LandingIs(b.g, b.lay, u);
      AtEntry(b, u);
      EntryFollows(b, v, i);
    }
  }

  lemma ShortcutIs(g: Nfa, u: nat)
    requires u < |g.out| && u < |g.vertices| && Shortcut(g, u)
    ensures |g.out[u]| == 1 && g.vertices[u].lbl == NOLABEL && !g.vertices[u].isMatch
  {
  }

  lemma LandingIs(g: Nfa, lay: Layout, u: nat)
    requires Wired(g) && u < |g.vertices| && |lay.start| == |g.vertices|
    ensures u < |g.out| && (Shortcut(g, u) ==> g.out[u][0] < |lay.start|)
    ensures Landing(g, lay, u) == if Shortcut(g, u) then lay.start[g.out[u][0]] else EntryOf(g, lay, u)
  {
  }

  lemma EntryFollows(b: Build, v: nat, i: nat)
    requires v < |b.g.out| && v < |b.kv| && i < |b.g.out[v]|
    requires var u := b.g.out[v][i];
             && u < |b.g.vertices| && u < |b.lay.start| && u < |b.kv| && Enterable(b, u)
             && B.Within(KindOf(b.kv[v]), Arriving(b.g, b.kv, u))
             && (b.g.vertices[u].lbl == NOLABEL ==> b.kv[v] == b.kv[u])
    ensures Follows(b, EntryOf(b.g, b.lay, b.g.out[v][i]), KindOf(b.kv[v]), b.lay.guard + 1)
  {
    hide EntryOf;
  }

  /** All of them are successors of v. */
  ghost predicate AllOut(g: Nfa, v: nat, ts: seq<nat>) {
    v < |g.out| && forall i :: 0 <= i < |ts| ==> ts[i] in g.out[v]
  }

  /** The two words for the last of ts. */
  function BlockHead(g: Nfa, lay: Layout, k: B.Kind, ts: seq<nat>): (r: seq<Cell>)
    requires Wired(g) && |lay.start| == |g.vertices| && ts != [] && Within(g, ts)
    ensures |r| == 2 && r[1].word == B.Ext && r[0].slot == B.Slot(lay.guard + 2 * |ts|, k, false)
    ensures r[0].word == var w := Landing(g, lay, ts[|ts| - 1]); if |ts| > 1 then B.Fork(w) else B.Jump(w)
  {
    var w := Landing(g, lay, ts[|ts| - 1]);
    var s := B.Slot(lay.guard + 2 * |ts|, k, false);
    [Cell(if |ts| > 1 then B.Fork(w) else B.Jump(w), s), Cell(B.Ext, s)]
  }

  lemma BlockShape(g: Nfa, lay: Layout, k: B.Kind, ts: seq<nat>)
    requires Wired(g) && |lay.start| == |g.vertices| && ts != [] && Within(g, ts)
    ensures Within(g, ts[..|ts| - 1])
    ensures BlockCells(g, lay, k, ts)
         == BlockHead(g, lay, k, ts) + if |ts| > 1 then BlockCells(g, lay, k, ts[..|ts| - 1]) else []
  {
    hide Landing, Wired;
  }

  lemma WithinFront(g: Nfa, ts: seq<nat>)
    requires ts != [] && Within(g, ts)
    ensures Within(g, ts[..|ts| - 1]) && ts[|ts| - 1] < |g.vertices|
  {
  }

  lemma AllOutFront(g: Nfa, v: nat, ts: seq<nat>)
    requires ts != [] && AllOut(g, v, ts)
    ensures v < |g.out| && AllOut(g, v, ts[..|ts| - 1]) && ts[|ts| - 1] in g.out[v]
  {
    var front := ts[..|ts| - 1];
    forall i | 0 <= i < |front| ensures front[i] in g.out[v] {
      assert front[i] == ts[i];
    }
  }

  lemma BlockFirst(g: Nfa, lay: Layout, k: B.Kind, ts: seq<nat>)
    requires Wired(g) && |lay.start| == |g.vertices| && ts != [] && Within(g, ts)
    ensures BlockCells(g, lay, k, ts)[0].slot == B.Slot(lay.guard + 2 * |ts|, k, false)
  {
    hide Landing, Wired;
  }

  lemma BlockFollows(b: Build, k: B.Kind, ts: seq<nat>, at: nat)
    requires Wired(b.g) && |b.lay.start| == |b.g.vertices| && ts != [] && Within(b.g, ts)
    requires Has(b.prog, b.plan, at, BlockCells(b.g, b.lay, k, ts))
    ensures Follows(b, at, k, b.lay.guard + 2 * |ts| + 1)
  {
    hide *;
    BlockFirst(b.g, b.lay, k, ts);
    HasFirst(b.prog, b.plan, at, BlockCells(b.g, b.lay, k, ts));
    WithinSelf(k);
    FollowsBy(b, at, k, b.lay.guard + 2 * |ts| + 1);
  }

  /** After the first two words of a block comes the block of the others. */
  lemma BlockRest(b: Build, k: B.Kind, ts: seq<nat>, at: nat)
    requires Wired(b.g) && |b.lay.start| == |b.g.vertices| && ts != [] && Within(b.g, ts)
    requires Has(b.prog, b.plan, at, BlockCells(b.g, b.lay, k, ts))
    ensures Has(b.prog, b.plan, at, BlockHead(b.g, b.lay, k, ts)) && Within(b.g, ts[..|ts| - 1])
    ensures |ts| > 1 ==> Has(b.prog, b.plan, at + 2, BlockCells(b.g, b.lay, k, ts[..|ts| - 1]))
  {
    hide *;
    BlockShape(b.g, b.lay, k, ts);
    HasSplit(b.prog, b.plan, at, BlockHead(b.g, b.lay, k, ts), if |ts| > 1 then BlockCells(b.g, b.lay, k, ts[..|ts| - 1]) else []);
  }

  lemma LandingOfLast(b: Build, v: nat, ts: seq<nat>, r: nat)
    requires Complete(b) && v < |b.kv| && Wired(b.g) && |b.lay.start| == |b.g.vertices|
    requires ts != [] && Within(b.g, ts) && AllOut(b.g, v, ts) && b.lay.guard + 1 <= r
    ensures ts[|ts| - 1] < |b.g.vertices| && Follows(b, Landing(b.g, b.lay, ts[|ts| - 1]), KindOf(b.kv[v]), r)
  {
    hide *;
    WithinFront(b.g, ts);
    AllOutFront(b.g, v, ts);
    CompleteUse(b);
    var i: nat :| i < |b.g.out[v]| && b.g.out[v][i] == ts[|ts| - 1];
    LandingOk(b, v, i);
    FollowsMore(b, Landing(b.g, b.lay, ts[|ts| - 1]), KindOf(b.kv[v]), b.lay.guard + 1, r);
  }

  lemma {:induction false} BlocksOk(b: Build, v: nat, ts: seq<nat>, at: nat, p: nat)
    requires Complete(b) && v < |b.kv| && Wired(b.g) && |b.lay.start| == |b.g.vertices|
    requires ts != [] && Within(b.g, ts) && AllOut(b.g, v, ts)
    requires Has(b.prog, b.plan, at, BlockCells(b.g, b.lay, KindOf(b.kv[v]), ts)) && at <= p < at + 2 * |ts|
    ensures p < |b.prog.code| == |b.plan| && B.WordOk(b.prog, b.plan, p)
    decreases |ts|
  {
    hide *;
    var k := KindOf(b.kv[v]);
    BlockRest(b, k, ts, at);
    AllOutFront(b.g, v, ts);
    if p >= at + 2 {
      BlocksOk(b, v, ts[..|ts| - 1], at + 2, p);
    } else {
      if |ts| > 1 {
        BlockFollows(b, k, ts[..|ts| - 1], at + 2);
        FollowsMore(b, at + 2, k, b.lay.guard + 2 * (|ts| - 1) + 1, b.lay.guard + 2 * |ts|);
      }
      HasAt(b.prog, b.plan, at, BlockHead(b.g, b.lay, k, ts), p - at);
      LandingOfLast(b, v, ts, b.lay.guard + 2 * |ts|);
      ForkWordOk(b, p);
    }
  }

  ghost predicate TableOut(g: Nfa, v: nat, tbl: seq<seq<nat>>) {
    |tbl| == 256 && forall b: Byte :: AllOut(g, v, tbl[b])
  }

  lemma TableRow(g: Nfa, v: nat, tbl: seq<seq<nat>>, b: Byte)
    requires TableOut(g, v, tbl) && TableWithin(g, tbl)
    ensures |tbl| == 256 && AllOut(g, v, tbl[b]) && Within(g, tbl[b])
  {
  }

  lemma IndirectShape(g: Nfa, lay: Layout, k: B.Kind, tbl: seq<seq<nat>>, n: nat)
    requires Wired(g) && |lay.start| == |g.vertices| && TableWithin(g, tbl) && 0 < n <= 256
    ensures |tbl| == 256 && Within(g, tbl[n - 1])
    ensures IndirectCells(g, lay, k, tbl, n)
         == IndirectCells(g, lay, k, tbl, n - 1) + if |tbl[n - 1]| > 1 then BlockCells(g, lay, k, tbl[n - 1]) else []
    ensures IndirectSize(tbl, n) == IndirectSize(tbl, n - 1) + if |tbl[n - 1]| > 1 then |tbl[n - 1]| else 0
  {
    hide BlockCells, Wired;
  }

  /** The indirect table of byte x is where its entry says. */
  lemma {:induction false} BlockAt(b: Build, k: B.Kind, tbl: seq<seq<nat>>, at: nat, n: nat, x: Byte)
    requires Wired(b.g) && |b.lay.start| == |b.g.vertices| && TableWithin(b.g, tbl) && x < n <= 256
    requires Has(b.prog, b.plan, at, IndirectCells(b.g, b.lay, k, tbl, n))
    requires |tbl| == 256 && |tbl[x]| > 1 && Within(b.g, tbl[x])
    ensures Has(b.prog, b.plan, at + 2 * IndirectSize(tbl, x), BlockCells(b.g, b.lay, k, tbl[x]))
    decreases n
  {
    hide *;
    IndirectShape(b.g, b.lay, k, tbl, n);
    var front := IndirectCells(b.g, b.lay, k, tbl, n - 1);
    var last := if |tbl[n - 1]| > 1 then BlockCells(b.g, b.lay, k, tbl[n - 1]) else [];
    HasSplit(b.prog, b.plan, at, front, last);
    if x < n - 1 {
      BlockAt(b, k, tbl, at, n - 1, x);
    }
  }

  lemma {:induction false} IndirectOk(b: Build, v: nat, tbl: seq<seq<nat>>, at: nat, n: nat, p: nat)
    requires Complete(b) && v < |b.kv| && Wired(b.g) && |b.lay.start| == |b.g.vertices|
    requires TableWithin(b.g, tbl) && TableOut(b.g, v, tbl) && n <= 256 && |tbl| == 256
    requires Has(b.prog, b.plan, at, IndirectCells(b.g, b.lay, KindOf(b.kv[v]), tbl, n))
    requires at <= p < at + 2 * IndirectSize(tbl, n)
    ensures p < |b.prog.code| == |b.plan| && B.WordOk(b.prog, b.plan, p)
    decreases n
  {
    hide *;
    var k := KindOf(b.kv[v]);
    if n > 0 {
      IndirectShape(b.g, b.lay, k, tbl, n);
      var front := IndirectCells(b.g, b.lay, k, tbl, n - 1);
      var last := if |tbl[n - 1]| > 1 then BlockCells(b.g, b.lay, k, tbl[n - 1]) else [];
      HasSplit(b.prog, b.plan, at, front, last);
      if p < at + |front| {
        IndirectOk(b, v, tbl, at, n - 1, p);
      } else {
        TableRow(b.g, v, tbl, n - 1);
        BlocksOk(b, v, tbl[n - 1], at + |front|, p);
      }
    } else {
      NoIndirect(tbl);
    }
  }

  lemma NoIndirect(tbl: seq<seq<nat>>)
    ensures IndirectSize(tbl, 0) == 0
  {
  }

  lemma TableShape(g: Nfa, lay: Layout, k: B.Kind, tbl: seq<seq<nat>>, at: nat)
    requires Wired(g) && |lay.start| == |g.vertices| && TableWithin(g, tbl) && |tbl| == 256
    requires FirstUsed(tbl, 0) <= LastUsed(tbl, 256)
    ensures var first, last := FirstUsed(tbl, 0), LastUsed(tbl, 256);
            var cells := TableCells(g, lay, k, tbl, at);
            && last < 256
            && |cells| == 2 + (last - first) + 2 * IndirectSize(tbl, 256)
            && cells[0] == Cell(B.JumpTableRange(first, last), B.Slot(|cells|, k, false))
            && (forall x: Byte :: first <= x <= last ==>
                  cells[1 + (x - first)] == Cell(B.Raw(Entry(g, lay, tbl, at, x)), B.Slot(0, k, false)))
            && cells == cells[..2 + (last - first)] + IndirectCells(g, lay, k, tbl, 256)
  {
    hide Entry, IndirectCells, FirstUsed, LastUsed, Wired, TableWithin, IndirectSize;
  }

  /** What a table entry leads to, if it is not 0. */
  lemma EntryOk(b: Build, v: nat, tbl: seq<seq<nat>>, at: nat, x: Byte)
    requires Complete(b) && v < |b.kv| && Wired(b.g) && |b.lay.start| == |b.g.vertices|
    requires TableWithin(b.g, tbl) && TableOut(b.g, v, tbl) && |tbl| == 256 && FirstUsed(tbl, 0) <= LastUsed(tbl, 256)
    requires Has(b.prog, b.plan, at, TableCells(b.g, b.lay, KindOf(b.kv[v]), tbl, at))
    ensures tbl[x] != [] ==>
              Follows(b, Entry(b.g, b.lay, tbl, at, x), KindOf(b.kv[v]), b.lay.guard + 2 * |tbl[x]| + 1)
    ensures tbl[x] == [] ==> Entry(b.g, b.lay, tbl, at, x) == 0
  {
    hide *;
    var k := KindOf(b.kv[v]);
    var first, last := FirstUsed(tbl, 0), LastUsed(tbl, 256);
    EntryShape(b.g, b.lay, tbl, at, x);
    TableRow(b.g, v, tbl, x);
    CompleteUse(b);
    if |tbl[x]| == 1 {
      AllOutFront(b.g, v, tbl[x]);
      WithinFront(b.g, tbl[x]);
      var i: nat :| i < |b.g.out[v]| && b.g.out[v][i] == tbl[x][0];
      LandingOk(b, v, i);
      FollowsMore(b, Landing(b.g, b.lay, tbl[x][0]), k, b.lay.guard + 1, b.lay.guard + 2 * |tbl[x]| + 1);
    } else if |tbl[x]| > 1 {
      TableBlock(b, k, tbl, at, x);
      var base := at + 2 + (last - first) + 2 * IndirectSize(tbl, x);
      BlockShape(b.g, b.lay, k, tbl[x]);
      HasFirst(b.prog, b.plan, base, BlockCells(b.g, b.lay, k, tbl[x]));
      WithinSelf(k);
      FollowsBy(b, base, k, b.lay.guard + 2 * |tbl[x]| + 1);
    }
  }

  lemma TableBlock(b: Build, k: B.Kind, tbl: seq<seq<nat>>, at: nat, x: Byte)
    requires Wired(b.g) && |b.lay.start| == |b.g.vertices| && TableWithin(b.g, tbl) && |tbl| == 256
    requires FirstUsed(tbl, 0) <= LastUsed(tbl, 256) && |tbl[x]| > 1 && Within(b.g, tbl[x])
    requires Has(b.prog, b.plan, at, TableCells(b.g, b.lay, k, tbl, at))
    ensures Has(b.prog, b.plan, at + 2 + (LastUsed(tbl, 256) - FirstUsed(tbl, 0)) + 2 * IndirectSize(tbl, x),
                BlockCells(b.g, b.lay, k, tbl[x]))
  {
    hide *;
    var cells := TableCells(b.g, b.lay, k, tbl, at);
    var n := 2 + (LastUsed(tbl, 256) - FirstUsed(tbl, 0));
    TableShape(b.g, b.lay, k, tbl, at);
    HasSplit(b.prog, b.plan, at, cells[..n], IndirectCells(b.g, b.lay, k, tbl, 256));
    BlockAt(b, k, tbl, at + n, 256, x);
  }

  lemma EntryShape(g: Nfa, lay: Layout, tbl: seq<seq<nat>>, at: nat, x: Byte)
    requires Wired(g) && |lay.start| == |g.vertices| && TableWithin(g, tbl) && |tbl| == 256
    requires FirstUsed(tbl, 0) <= LastUsed(tbl, 256)
    ensures |tbl[x]| == 1 ==> tbl[x][0] < |g.vertices| && Entry(g, lay, tbl, at, x) == Landing(g, lay, tbl[x][0])
    ensures |tbl[x]| > 1 ==>
              Entry(g, lay, tbl, at, x) == at + 2 + (LastUsed(tbl, 256) - FirstUsed(tbl, 0)) + 2 * IndirectSize(tbl, x)
    ensures tbl[x] == [] ==> Entry(g, lay, tbl, at, x) == 0
  {
    assert Within(g, tbl[x]);
    hide Landing, FirstUsed, LastUsed, IndirectSize, Wired, TableWithin;
  }

  lemma TableHeadOk(b: Build, v: nat, tbl: seq<seq<nat>>, at: nat)
    requires Complete(b) && v < |b.kv| && Wired(b.g) && |b.lay.start| == |b.g.vertices|
    requires TableWithin(b.g, tbl) && TableOut(b.g, v, tbl) && |tbl| == 256 && FirstUsed(tbl, 0) <= LastUsed(tbl, 256)
    requires Has(b.prog, b.plan, at, TableCells(b.g, b.lay, KindOf(b.kv[v]), tbl, at))
    ensures at < |b.prog.code| == |b.plan| && B.WordOk(b.prog, b.plan, at)
  {
    hide *;
    var k := KindOf(b.kv[v]);
    var cells := TableCells(b.g, b.lay, k, tbl, at);
    var first, last := FirstUsed(tbl, 0), LastUsed(tbl, 256);
    TableShape(b.g, b.lay, k, tbl, at);
    HasAt(b.prog, b.plan, at, cells, 0);
    forall x: nat | first <= x <= last
      ensures at + 1 + (x - first) < |b.prog.code| && b.prog.code[at + 1 + (x - first)] == B.Raw(Entry(b.g, b.lay, tbl, at, x))
      ensures Entry(b.g, b.lay, tbl, at, x) != 0 ==> Follows(b, Entry(b.g, b.lay, tbl, at, x), k, b.lay.guard + 2 * |tbl[x]| + 1)
    {
      EntryOk(b, v, tbl, at, x);
      HasAt(b.prog, b.plan, at, cells, 1 + (x - first));
    }
    TableWordOk(b, at, tbl, first, last, k);
  }

  lemma TableWordsOk(b: Build, v: nat, tbl: seq<seq<nat>>, at: nat, p: nat)
    requires Complete(b) && v < |b.kv| && Wired(b.g) && |b.lay.start| == |b.g.vertices|
    requires TableWithin(b.g, tbl) && TableOut(b.g, v, tbl) && |tbl| == 256 && FirstUsed(tbl, 0) <= LastUsed(tbl, 256)
    requires Has(b.prog, b.plan, at, TableCells(b.g, b.lay, KindOf(b.kv[v]), tbl, at))
    requires at <= p < at + |TableCells(b.g, b.lay, KindOf(b.kv[v]), tbl, at)|
    ensures p < |b.prog.code| == |b.plan| && B.WordOk(b.prog, b.plan, p)
  {
    hide *;
    var k := KindOf(b.kv[v]);
    var cells := TableCells(b.g, b.lay, k, tbl, at);
    var first, last := FirstUsed(tbl, 0), LastUsed(tbl, 256);
    TableShape(b.g, b.lay, k, tbl, at);
    HasAt(b.prog, b.plan, at, cells, p - at);
    if p == at {
      TableHeadOk(b, v, tbl, at);
    } else if p < at + 2 + (last - first) {
      var x: Byte := first + (p - at - 1);
      assert cells[1 + (x - first)] == Cell(B.Raw(Entry(b.g, b.lay, tbl, at, x)), B.Slot(0, k, false));
      RawOk(b, p);
    } else {
      HasSplit(b.prog, b.plan, at, cells[..2 + (last - first)], IndirectCells(b.g, b.lay, k, tbl, 256));
      IndirectOk(b, v, tbl, at + 2 + (last - first), 256, p);
    }
  }

  lemma RawOk(b: Build, p: nat)
    requires p < |b.prog.code| == |b.plan| && b.prog.code[p].Raw?
    ensures B.WordOk(b.prog, b.plan, p)
  {
  }

  lemma TableWordOk(b: Build, at: nat, tbl: seq<seq<nat>>, first: nat, last: nat, k: B.Kind)
    requires Wired(b.g) && |b.lay.start| == |b.g.vertices| && TableWithin(b.g, tbl) && |tbl| == 256
    requires first == FirstUsed(tbl, 0) <= LastUsed(tbl, 256) == last < 256
    requires at < |b.prog.code| == |b.plan| && b.prog.code[at] == B.JumpTableRange(first, last) && b.plan[at].kind == k
    requires forall x: nat :: first <= x <= last ==>
               at + 1 + (x - first) < |b.prog.code| && b.prog.code[at + 1 + (x - first)] == B.Raw(Entry(b.g, b.lay, tbl, at, x))
    requires forall x: nat :: first <= x <= last ==>
               (Entry(b.g, b.lay, tbl, at, x) != 0 ==> Follows(b, Entry(b.g, b.lay, tbl, at, x), k, b.lay.guard + 2 * |tbl[x]| + 1))
    ensures B.WordOk(b.prog, b.plan, at)
  {
    hide Entry, FirstUsed, LastUsed, TableWithin, Wired;
    forall q: nat | at + 1 <= q <= at + 1 + (last - first)
      ensures q < |b.prog.code| && b.prog.code[q].Raw?
           && (b.prog.code[q].value != 0 ==> B.ByteFlow(b.prog.code, b.plan, at, b.prog.code[q].value))
    {
      var x := q - at - 1 + first;
      assert at + 1 + (x - first) == q;
      assert b.prog.code[at + 1 + (x - first)] == B.Raw(Entry(b.g, b.lay, tbl, at, x));
    }
    assert at + 1 + (last - first) < |b.prog.code|;
  }

  // ----- every word is sound -----

  lemma PivotOut(g: Nfa, v: nat)
    requires Wired(g) && v < |g.out|
    ensures TableWithin(g, Pivot(g, v)) && TableOut(g, v, Pivot(g, v))
  {
    PivotWithin(g, v);
    forall b: Byte ensures AllOut(g, v, Pivot(g, v)[b]) {
      forall i | 0 <= i < |Pivot(g, v)[b]| ensures Pivot(g, v)[b][i] in g.out[v] {
        assert Pivot(g, v)[b][i] in Via(g, g.out[v], b);
      }
    }
  }

  lemma EdgeShape(b: Build, v: nat, at: nat)
    requires Complete(b) && v < |b.g.vertices|
    ensures v < |b.kv| && v < |b.g.out| && Wired(b.g) && |b.lay.start| == |b.g.vertices|
    ensures TableWithin(b.g, Pivot(b.g, v)) && TableOut(b.g, v, Pivot(b.g, v))
    ensures b.g.out[v] == [] ==> EdgeCells(b.g, b.lay, b.kv, v, at) == []
    ensures UsesTable(b.g, v) ==> b.g.out[v] != []
    ensures b.g.out[v] != [] && UsesTable(b.g, v) ==>
              FirstUsed(Pivot(b.g, v), 0) <= LastUsed(Pivot(b.g, v), 256)
              && EdgeCells(b.g, b.lay, b.kv, v, at) == TableCells(b.g, b.lay, KindOf(b.kv[v]), Pivot(b.g, v), at)
    ensures b.g.out[v] != [] && !UsesTable(b.g, v) ==>
              (forall i :: 0 <= i < |b.g.out[v]| ==> b.g.out[v][i] < |b.lay.start|)
              && v < |b.lay.rank| && b.g.out[v][0] < |b.lay.rank|
              && EdgeCells(b.g, b.lay, b.kv, v, at) == ForkCells(b.lay, KindOf(b.kv[v]), b.g.out[v], Falls(b.g, b.lay, v))
              && (Falls(b.g, b.lay, v) ==>
                    b.lay.start[v] + SnippetSize(b.g, b.lay, b.kv, v) == b.lay.start[b.g.out[v][0]])
  {
    CompleteUse(b);
    PivotOut(b.g, v);
    hide TableWithin, TableOut, Complete, Compilable, Consistent, TableCells, ForkCells, Pivot, MaxLen, SnippetSize, Owned;
  }

  lemma EdgesOk(b: Build, v: nat, p: nat)
    requires Complete(b) && v < |b.g.vertices| && v < |b.lay.start|
    requires var m := EntryOf(b.g, b.lay, v) + |GateCells(b.g, b.lay, b.kv, v)|; m <= p < m + EdgeSize(b.g, b.lay, b.kv, v)
    ensures p < |b.prog.code| == |b.plan| && B.WordOk(b.prog, b.plan, p)
  {
    hide *;
    CompleteUse(b);
    SnippetParts(b, v);
    var m := EntryOf(b.g, b.lay, v) + |GateCells(b.g, b.lay, b.kv, v)|;
    EdgeShape(b, v, m);
    if b.g.out[v] != [] {
      if UsesTable(b.g, v) {
        TableWordsOk(b, v, Pivot(b.g, v), m, p);
      } else {
        var n := |b.g.out[v]|;
        assert b.g.out[v][..n] == b.g.out[v];
        ForksOk(b, v, n, Falls(b.g, b.lay, v), m, p);
      }
    }
  }

  lemma AllWordsOk(b: Build, p: nat)
    requires Complete(b) && p < |b.prog.code|
    ensures |b.plan| == |b.prog.code| && B.WordOk(b.prog, b.plan, p)
  {
    hide *;
    CompleteUse(b);
    LimitsUse(b);
    if p < b.lay.guard {
      OwnerOf(b, p);
      var v: nat :| v < |b.lay.start| && b.lay.start[v] <= p < b.lay.start[v] + SnippetSize(b.g, b.lay, b.kv, v);
      SnippetParts(b, v);
      if p < EntryOf(b.g, b.lay, v) {
        EvalOk(b, v, p);
      } else if p < EntryOf(b.g, b.lay, v) + |GateCells(b.g, b.lay, b.kv, v)| {
        GatesOk(b, v, p);
      } else {
        EdgesOk(b, v, p);
      }
    } else {
      LastWordsOk(b, p);
    }
  }

  lemma OwnerOf(b: Build, p: nat)
    requires Complete(b) && p < b.lay.guard
    ensures Fits(b.g, b.lay, b.kv) && |b.lay.start| == |b.g.vertices|
    ensures exists v: nat :: v < |b.lay.start| && b.lay.start[v] <= p < b.lay.start[v] + SnippetSize(b.g, b.lay, b.kv, v)
  {
    CompleteUse(b);
    hide SnippetSize, Complete, Compilable, Consistent, UsesTable;
    assert Owned(b.g, b.lay, b.kv, p);
  }

  lemma LastWordsOk(b: Build, p: nat)
    requires |b.prog.code| == |b.plan| == b.lay.guard + 2 && b.lay.guard <= p < |b.prog.code|
    requires b.prog.code[b.lay.guard] == B.Halt && b.prog.code[b.lay.guard + 1] == B.Finish
    requires b.plan[b.lay.guard + 1] == B.Slot(0, B.SomeLabel, true)
    ensures B.WordOk(b.prog, b.plan, p)
  {
  }

  // ----- locks -----

  /** The cells hold no lock. */
  ghost predicate NoLock(cells: seq<Cell>) {
    forall i :: 0 <= i < |cells| ==> !cells[i].word.CheckHalt?
  }

  lemma {:induction false} ForksNoLock(lay: Layout, k: B.Kind, ts: seq<nat>, falls: bool)
    requires ts != [] && forall i :: 0 <= i < |ts| ==> ts[i] < |lay.start|
    ensures NoLock(ForkCells(lay, k, ts, falls))
    decreases |ts|
  {
    if |ts| > 1 {
      ForksNoLock(lay, k, ts[..|ts| - 1], falls);
    }
  }

  lemma {:induction false} BlockNoLock(g: Nfa, lay: Layout, k: B.Kind, ts: seq<nat>)
    requires Wired(g) && |lay.start| == |g.vertices| && ts != [] && Within(g, ts)
    ensures NoLock(BlockCells(g, lay, k, ts))
    decreases |ts|
  {
    hide Landing, Wired;
    if |ts| > 1 {
      BlockNoLock(g, lay, k, ts[..|ts| - 1]);
    }
  }

  lemma {:induction false} IndirectNoLock(g: Nfa, lay: Layout, k: B.Kind, tbl: seq<seq<nat>>, n: nat)
    requires Wired(g) && |lay.start| == |g.vertices| && TableWithin(g, tbl) && n <= 256
    ensures NoLock(IndirectCells(g, lay, k, tbl, n))
    decreases n
  {
    hide BlockCells, Wired, IndirectSize;
    if n > 0 {
      IndirectNoLock(g, lay, k, tbl, n - 1);
      if |tbl[n - 1]| > 1 {
        BlockNoLock(g, lay, k, tbl[n - 1]);
      }
    }
  }

  lemma EdgesNoLock(b: Build, v: nat, at: nat)
    requires Complete(b) && v < |b.g.vertices|
    ensures Fits(b.g, b.lay, b.kv) && NoLock(EdgeCells(b.g, b.lay, b.kv, v, at))
  {
    hide *;
    CompleteUse(b);
    EdgeShape(b, v, at);
    if b.g.out[v] != [] {
      if UsesTable(b.g, v) {
        TableNoLock(b.g, b.lay, KindOf(b.kv[v]), Pivot(b.g, v), at);
      } else {
        ForksNoLock(b.lay, KindOf(b.kv[v]), b.g.out[v], Falls(b.g, b.lay, v));
      }
    } else {
      NoCellsNoLock();
    }
  }

  lemma NoCellsNoLock()
    ensures NoLock([])
  {
  }

  lemma TableNoLock(g: Nfa, lay: Layout, k: B.Kind, tbl: seq<seq<nat>>, at: nat)
    requires Wired(g) && |lay.start| == |g.vertices| && TableWithin(g, tbl) && |tbl| == 256 && FirstUsed(tbl, 0) <= LastUsed(tbl, 256)
    ensures NoLock(TableCells(g, lay, k, tbl, at))
  {
    hide *;
    IndirectNoLock(g, lay, k, tbl, 256);
    TableShape(g, lay, k, tbl, at);
    var cells := TableCells(g, lay, k, tbl, at);
    var first, last := FirstUsed(tbl, 0), LastUsed(tbl, 256);
    forall i | 0 <= i < |cells| ensures !cells[i].word.CheckHalt? {
      if 1 <= i < 2 + (last - first) {
        var x: Byte := first + (i - 1);
        assert cells[1 + (x - first)] == Cell(B.Raw(Entry(g, lay, tbl, at, x)), B.Slot(0, k, false));
      } else if i >= 2 + (last - first) {
        NoLockAt(IndirectCells(g, lay, k, tbl, 256), i - 2 - (last - first));
      }
    }
    NoLockBy(cells);
  }

  /** The only lock among the gates is that of the vertex, at one place. */
  lemma GateLock(g: Nfa, lay: Layout, kv: seq<Option<nat>>, v: nat, i: nat)
    requires Fits(g, lay, kv) && v < |g.vertices| && v < |lay.check| && i < |GateCells(g, lay, kv, v)|
    requires GateCells(g, lay, kv, v)[i].word.CheckHalt?
    ensures lay.check[v] == Some(GateCells(g, lay, kv, v)[i].word.index)
    ensures i == if g.vertices[v].lbl != NOLABEL then 1 else 0
  {
    GateShape(g, lay, kv, v);
    hide EdgeSize, Fits, GateCells;
  }

  /** A lock is at its vertex's only place for one. */
  lemma LockAt(b: Build, p: nat) returns (v: nat)
    requires Complete(b) && p < |b.prog.code| && b.prog.code[p].CheckHalt?
    ensures v < |b.lay.check| && v < |b.g.vertices| && v < |b.lay.start| && b.lay.check[v] == Some(b.prog.code[p].index)
    ensures p == EntryOf(b.g, b.lay, v) + (if b.g.vertices[v].lbl != NOLABEL then 1 else 0)
  {
    hide *;
    CompleteUse(b);
    LimitsUse(b);
    assert p < b.lay.guard;
    OwnerOf(b, p);
    v :| v < |b.lay.start| && b.lay.start[v] <= p < b.lay.start[v] + SnippetSize(b.g, b.lay, b.kv, v);
    SnippetParts(b, v);
    var e := EntryOf(b.g, b.lay, v);
    var gates := GateCells(b.g, b.lay, b.kv, v);
    if p < e {
      EntryIs(b.g, b.lay, v);
      EvalCellAt(b.g, b.kv, v, p - b.lay.start[v]);
      HasAt(b.prog, b.plan, b.lay.start[v], EvalCells(b.g, b.kv, v), p - b.lay.start[v]);
      NoTestIsLock(b.g.vertices[v].trans);
    } else if p < e + |gates| {
      HasAt(b.prog, b.plan, e, gates, p - e);
      GateLock(b.g, b.lay, b.kv, v, p - e);
    } else {
      HasAt(b.prog, b.plan, e + |gates|, EdgeCells(b.g, b.lay, b.kv, v, e + |gates|), p - e - |gates|);
      EdgesNoLock(b, v, e + |gates|);
      NoLockAt(EdgeCells(b.g, b.lay, b.kv, v, e + |gates|), p - e - |gates|);
    }
  }

  lemma NoLockBy(cells: seq<Cell>)
    requires forall i :: 0 <= i < |cells| ==> !cells[i].word.CheckHalt?
    ensures NoLock(cells)
  {
  }

  lemma NoLockAt(cells: seq<Cell>, i: nat)
    requires NoLock(cells) && i < |cells|
    ensures !cells[i].word.CheckHalt?
  {
  }

  lemma NoTestIsLock(t: Transition)
    ensures !TransWord(t).CheckHalt?
  {
  }

  lemma LocksAreDistinct(b: Build)
    requires Complete(b)
    ensures B.LocksDistinct(b.prog.code)
  {
    LimitsUse(b);
    forall p: nat, q: nat | p < |b.prog.code| && q < |b.prog.code| && b.prog.code[p].CheckHalt? && b.prog.code[p] == b.prog.code[q]
      ensures p == q
    {
      hide *;
      var u := LockAt(b, p);
      var v := LockAt(b, q);
      ChecksApart(b.g, b.lay, b.prog.maxCheck, u, v);
    }
  }

  lemma ChecksApart(g: Nfa, lay: Layout, maxCheck: nat, u: nat, v: nat)
    requires ChecksOk(g, lay, maxCheck) && u < |lay.check| && v < |lay.check| && lay.check[u].Some? && lay.check[u] == lay.check[v]
    ensures u == v
  {
  }

  /** The plan of a compiled program is sound. */
  lemma CompiledIsSound(b: Build)
    requires Complete(b)
    ensures B.Sound(b.prog, b.plan)
  {
    hide *;
    LimitsUse(b);
    LocksAreDistinct(b);
    forall p: nat | p < |b.prog.code| ensures B.WordOk(b.prog, b.plan, p) {
      AllWordsOk(b, p);
    }
    SoundBy(b);
  }

  lemma SoundBy(b: Build)
    requires |b.plan| == |b.prog.code| == b.lay.guard + 2 && b.prog.maxLabel < NOLABEL && b.prog.code[b.lay.guard] == B.Halt
    requires B.LocksDistinct(b.prog.code)
    requires forall p: nat :: p < |b.prog.code| ==> B.WordOk(b.prog, b.plan, p)
    ensures B.Sound(b.prog, b.plan)
  {
    hide B.WordOk, B.LocksDistinct;
  }

  // ----- the entry of the program -----

  lemma {:induction false} ForksPlain(b: Build, v: nat, n: nat, falls: bool, at: nat)
    requires Complete(b) && B.Sound(b.prog, b.plan) && v < |b.g.out| && v < |b.kv| && 0 < n <= |b.g.out[v]|
    requires forall i :: 0 <= i < |b.g.out[v][..n]| ==> b.g.out[v][..n][i] < |b.lay.start|
    requires Has(b.prog, b.plan, at, ForkCells(b.lay, KindOf(b.kv[v]), b.g.out[v][..n], falls))
    requires falls ==> b.g.out[v][0] < |b.lay.start|
                       && at + |ForkCells(b.lay, KindOf(b.kv[v]), b.g.out[v][..n], falls)| == b.lay.start[b.g.out[v][0]]
    ensures at < |b.prog.code| && B.Plain(b.prog, b.plan, at)
    decreases n
  {
    hide *;
    CompleteUse(b);
    var ts := b.g.out[v][..n];
    var k := KindOf(b.kv[v]);
    var cells := ForkCells(b.lay, k, ts, falls);
    if n == 1 {
      LastFork(b.lay, k, ts, falls);
      ChildNotInitial(b.g, v, 0);
      StartPlain(b, b.g.out[v][0]);
      if !falls {
        HasFirst(b.prog, b.plan, at, cells);
        JumpPlain(b, at);
      }
    } else {
      assert ts[..n - 1] == b.g.out[v][..n - 1];
      FirstFork(b.lay, k, ts, falls);
      HasSplit(b.prog, b.plan, at, cells[..2], ForkCells(b.lay, k, b.g.out[v][..n - 1], falls));
      ForksPlain(b, v, n - 1, falls, at + 2);
      ChildNotInitial(b.g, v, n - 1);
      StartPlain(b, b.g.out[v][n - 1]);
      HasFirst(b.prog, b.plan, at, cells);
      JumpPlain(b, at);
    }
  }

  lemma StartPlain(b: Build, v: nat)
    requires Complete(b) && B.Sound(b.prog, b.plan) && 0 < v < |b.g.vertices|
    ensures v < |b.lay.start| && b.lay.start[v] < |b.prog.code| && B.Plain(b.prog, b.plan, b.lay.start[v])
  {
    hide *;
    CompleteUse(b);
    AtStart(b, v);
    TestIsTest(b.g, v);
    TestPlain(b, b.lay.start[v]);
  }

  lemma TestIsTest(g: Nfa, v: nat)
    requires Compilable(g) && 0 < v < |g.vertices|
    ensures B.AtRest(TransWord(g.vertices[v].trans)) && !TransWord(g.vertices[v].trans).Finish?
  {
    assert SomeByte(g.vertices[v].trans);
  }

  lemma TestPlain(b: Build, p: nat)
    requires B.Sound(b.prog, b.plan) && p < |b.prog.code| && B.AtRest(b.prog.code[p]) && !b.prog.code[p].Finish?
    ensures B.Plain(b.prog, b.plan, p)
  {
    assert B.WordOk(b.prog, b.plan, p);
    hide B.WordOk;
  }

  lemma JumpPlain(b: Build, p: nat)
    requires B.Sound(b.prog, b.plan) && p < |b.prog.code|
    requires b.prog.code[p].Fork? || b.prog.code[p].Jump?
    requires b.prog.code[p].target < |b.prog.code| && B.Plain(b.prog, b.plan, b.prog.code[p].target)
    requires b.prog.code[p].Fork? ==> p + 2 < |b.prog.code| && B.Plain(b.prog, b.plan, p + 2)
    ensures B.Plain(b.prog, b.plan, p)
  {
    assert B.WordOk(b.prog, b.plan, p);
    hide B.TableOk, B.ByteFlow;
  }

  lemma TablePlain(b: Build, p: nat)
    requires B.Sound(b.prog, b.plan) && p < |b.prog.code| && b.prog.code[p].JumpTableRange?
    ensures B.Plain(b.prog, b.plan, p)
  {
    assert B.WordOk(b.prog, b.plan, p);
  }

  lemma InitialShape(b: Build)
    requires Complete(b)
    ensures 0 < |b.g.vertices| && 0 < |b.lay.start| && EntryOf(b.g, b.lay, 0) == 0 && b.lay.start[0] == 0
    ensures GateCells(b.g, b.lay, b.kv, 0) == [] && 0 < |b.kv| && b.kv[0] == None && b.g.out[0] != []
  {
    CompleteUse(b);
    GateShape(b.g, b.lay, b.kv, 0);
    hide Complete, GateCells;
  }

  /** The search can run a compiled program. */
  lemma CompiledIsRunnable(b: Build)
    requires Complete(b)
    ensures B.Runnable(b.prog, b.plan)
  {
    hide *;
    CompiledIsSound(b);
    CompleteUse(b);
    LimitsUse(b);
    InitialShape(b);
    SnippetParts(b, 0);
    EdgeShape(b, 0, 0);
    AtEntry(b, 0);
    InitialKind(b);
    if UsesTable(b.g, 0) {
      TableShape(b.g, b.lay, KindOf(b.kv[0]), Pivot(b.g, 0), 0);
      HasFirst(b.prog, b.plan, 0, EdgeCells(b.g, b.lay, b.kv, 0, 0));
      TablePlain(b, 0);
    } else {
      var n := |b.g.out[0]|;
      assert b.g.out[0][..n] == b.g.out[0];
      ForksPlain(b, 0, n, Falls(b.g, b.lay, 0), 0);
    }
    RunnableBy(b);
  }

  /** The first thread arrives without a label. */
  lemma InitialKind(b: Build)
    requires Complete(b) && 0 < |b.g.vertices| && 0 < |b.lay.start| && 0 < |b.kv| && Enterable(b, 0)
    requires EntryOf(b.g, b.lay, 0) == 0 && b.kv[0] == None
    ensures 0 < |b.plan| == |b.prog.code| && B.Within(B.Unlabelled, b.plan[0].kind) && !b.plan[0].ended
  {
  }

  lemma RunnableBy(b: Build)
    requires B.Sound(b.prog, b.plan) && B.Within(B.Unlabelled, b.plan[0].kind) && !b.plan[0].ended && B.Plain(b.prog, b.plan, 0)
    ensures B.Runnable(b.prog, b.plan)
  {
  }
}
