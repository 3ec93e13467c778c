/** NFAOptimizer::labelGuardStates (src/lib/nfaoptimizer.cpp:255-379). */
module Guards {
  import opened Basics
  import opened Automata
  import opened Graphs

  const UNLABELABLE: nat := 0xFFFF_FFFE

  // ----- match descendants -----

  ghost predicate EndsAt(g: Nfa, p: seq<nat>, l: nat) {
    Path(g, p) && p[|p| - 1] < |g.vertices| && Accepting(g, l, p[|p| - 1])
  }

  /** Some path, possibly of no edges, leads from v to a match vertex of label l. */
  ghost predicate Reaches(g: Nfa, v: nat, l: nat) {
    exists p :: EndsAt(g, p, l) && p[0] == v
  }

  ghost predicate Torn(g: Nfa, v: nat) {
    exists l, l' :: l != l' && Reaches(g, v, l) && Reaches(g, v, l')
  }

  ghost predicate Barren(g: Nfa, v: nat) {
    forall l :: !Reaches(g, v, l)
  }

  ghost predicate Pure(g: Nfa, v: nat, l: nat) {
    Reaches(g, v, l) && forall l' :: Reaches(g, v, l') ==> l' == l
  }

  lemma ReachesSelf(g: Nfa, v: nat)
    requires Wired(g) && v < |g.vertices| && g.vertices[v].isMatch
    ensures Reaches(g, v, g.vertices[v].lbl)
  {
    assert EndsAt(g, [v], g.vertices[v].lbl);
  }

  lemma ReachesStep(g: Nfa, h: nat, t: nat, l: nat)
    requires Wired(g) && h < |g.out| && t in g.out[h] && Reaches(g, t, l)
    ensures Reaches(g, h, l)
  {
    var p :| EndsAt(g, p, l) && p[0] == t;
    var q := [h] + p;
    forall i | 0 <= i < |q| - 1 ensures q[i + 1] in g.out[q[i]] {
      if i > 0 {
        assert q[i] == p[i - 1] && q[i + 1] == p[i];
      }
    }
    assert EndsAt(g, q, l);
  }

  lemma ReachesSuffix(g: Nfa, p: seq<nat>, l: nat, i: nat)
    requires EndsAt(g, p, l) && i < |p|
    ensures Reaches(g, p[i], l)
  {
    assert EndsAt(g, p[i..], l);
  }

  /** What determinizing leaves: labels on match vertices only, and all match descendants of one share its label. */
  ghost predicate Unguarded(g: Nfa) {
    && Wired(g) && Matched(g) && g.ins[0] == []
    && (forall v :: 0 <= v < |g.vertices| ==> (g.vertices[v].trans.NoTransition? <==> v == 0))
    && (forall v :: 0 <= v < |g.vertices| ==>
          if g.vertices[v].isMatch then g.vertices[v].lbl < UNLABELABLE else g.vertices[v].lbl == NOLABEL)
    && !g.vertices[0].isMatch
    && (forall v, l :: 0 <= v < |g.vertices| && g.vertices[v].isMatch && Reaches(g, v, l) ==> l == g.vertices[v].lbl)
  }

  /** The automaton with other labels. */
  function Relabelled(g: Nfa, lab: seq<nat>): (r: Nfa)
    requires |lab| == |g.vertices|
  {
    g.(vertices := seq(|lab|, i requires 0 <= i < |lab| => g.vertices[i].(lbl := lab[i])))
  }

  function LabelsOf(g: Nfa): (r: seq<nat>)
    ensures |r| == |g.vertices| && forall i :: 0 <= i < |r| ==> r[i] == g.vertices[i].lbl
  {
    seq(|g.vertices|, i requires 0 <= i < |g.vertices| => g.vertices[i].lbl)
  }

  // ----- propagateMatchLabels -----

  /** A label is borne out by the match descendants; matches keep theirs. */
  ghost predicate Justified(g: Nfa, lab: seq<nat>) {
    && |lab| == |g.vertices|
    && (0 < |lab| ==> lab[0] == NOLABEL)
    && (forall v :: 0 < v < |lab| && lab[v] == UNLABELABLE ==> Torn(g, v))
    && (forall v :: 0 < v < |lab| && lab[v] != UNLABELABLE && lab[v] != NOLABEL ==> Reaches(g, v, lab[v]))
    && (forall v :: 0 <= v < |lab| && g.vertices[v].isMatch ==> lab[v] == g.vertices[v].lbl)
  }

  predicate Covers(a: nat, b: nat) {
    b == NOLABEL || a == UNLABELABLE || a == b
  }

  /** The label of t has reached the parents of t. */
  ghost predicate ClosedAt(g: Nfa, lab: seq<nat>, t: nat)
    requires Wired(g) && t < |g.ins| && |lab| == |g.vertices|
  {
    forall i :: 0 <= i < |g.ins[t]| && g.ins[t][i] != 0 ==> Covers(lab[g.ins[t][i]], lab[t])
  }

  /** So it is at every vertex but the exempt ones and the match vertices from the k-th on. */
  ghost predicate Closed(g: Nfa, lab: seq<nat>, k: nat, exempt: set<nat>)
    requires Wired(g) && |lab| == |g.vertices|
  {
    forall t: nat :: t < |lab| && t !in exempt && !(g.vertices[t].isMatch && k <= t) ==> ClosedAt(g, lab, t)
  }

  ghost predicate TornClosed(g: Nfa, lab: seq<nat>)
    requires Wired(g) && |lab| == |g.vertices|
  {
    forall t: nat :: t < |lab| && lab[t] == UNLABELABLE ==> ClosedAt(g, lab, t)
  }

  /** What the propagation promises about vertex v. */
  ghost predicate Told(g: Nfa, lab: seq<nat>, v: nat)
    requires v < |lab|
  {
    && (lab[v] == NOLABEL <==> Barren(g, v))
    && (lab[v] == UNLABELABLE <==> Torn(g, v))
    && (forall l :: l != NOLABEL && l != UNLABELABLE ==> (lab[v] == l <==> Pure(g, v, l)))
  }

  ghost predicate AllTold(g: Nfa, lab: seq<nat>) {
    && |lab| == |g.vertices|
    && (0 < |lab| ==> lab[0] == NOLABEL)
    && (forall v: nat :: 0 < v < |lab| ==> Told(g, lab, v))
  }

  /** Along a path to a match, the label of the match has reached every vertex but the initial one. */
  lemma {:induction false} CoversAlong(g: Nfa, lab: seq<nat>, p: seq<nat>, l: nat)
    requires Unguarded(g) && Justified(g, lab) && Closed(g, lab, |lab|, {}) && EndsAt(g, p, l) && p[0] != 0
    ensures Covers(lab[p[0]], l) && l != NOLABEL && l != UNLABELABLE
    decreases |p|
  {
    if |p| > 1 {
      var h, t := p[0], p[1];
      assert EndsAt(g, p[1..], l);
      assert t in g.out[h] && h in g.ins[t];
      assert t != 0;
      CoversAlong(g, lab, p[1..], l);
      assert ClosedAt(g, lab, t);
      var i :| 0 <= i < |g.ins[t]| && g.ins[t][i] == h;
      assert Covers(lab[h], lab[t]);
    }
  }

  /** Justified and closed everywhere, the labels say exactly what the match descendants are. */
  lemma LabelsTell(g: Nfa, lab: seq<nat>)
    requires Unguarded(g) && Justified(g, lab) && Closed(g, lab, |lab|, {})
    ensures AllTold(g, lab)
  {
    forall v: nat | 0 < v < |lab| ensures Told(g, lab, v) {
      forall l | Reaches(g, v, l) ensures Covers(lab[v], l) && l != NOLABEL && l != UNLABELABLE {
        var p :| EndsAt(g, p, l) && p[0] == v;
        CoversAlong(g, lab, p, l);
      }
      ToldByCover(g, lab, v);
    }
  }

  lemma ToldByCover(g: Nfa, lab: seq<nat>, v: nat)
    requires Justified(g, lab) && 0 < v < |lab|
    requires forall l :: Reaches(g, v, l) ==> Covers(lab[v], l) && l != NOLABEL && l != UNLABELABLE
    ensures Told(g, lab, v)
  {
    hide Reaches;
    if lab[v] == UNLABELABLE {
      var l, l' :| l != l' && Reaches(g, v, l) && Reaches(g, v, l');
    } else if lab[v] == NOLABEL {
    } else {
      assert Reaches(g, v, lab[v]);
      assert Pure(g, v, lab[v]);
    }
  }

  /** A torn vertex is no match. */
  lemma TornNoMatch(g: Nfa, v: nat)
    requires Unguarded(g) && v < |g.vertices| && Torn(g, v)
    ensures !g.vertices[v].isMatch
  {
    var l, l' :| l != l' && Reaches(g, v, l) && Reaches(g, v, l');
  }

  lemma RelabelledPut(g: Nfa, lab: seq<nat>, v: nat, l: nat)
    requires |lab| == |g.vertices| && v < |lab|
    ensures var r := Relabelled(g, lab);
            Relabelled(g, lab[v := l]) == r.(vertices := r.vertices[v := r.vertices[v].(lbl := l)])
  {
  }

  /** g[v].Label = l */
  method SetLabel(g: Graph, v: nat, l: nat, ghost g0: Nfa, ghost lab: seq<nat>)
    requires g.Valid() && v < |g.Vertices| && |lab| == |g0.vertices| && g.Value() == Relabelled(g0, lab)
    modifies g
    ensures g.Valid() && g.Value() == Relabelled(g0, lab[v := l])
  {
    RelabelledPut(g0, lab, v, l);
    g.SetVertex(v, g.Vertices[v].(lbl := l));
  }

  /** The ends that are not labelled unlabelable yet. */
  ghost function Unmarked(lab: seq<nat>, l: nat): (r: set<nat>) {
    set v | v in Numbers(|lab|) && lab[v] == l
  }

  ghost function Markable(lab: seq<nat>): set<nat> {
    set v | v in Numbers(|lab|) && lab[v] != UNLABELABLE
  }

  lemma MarkedOne(lab: seq<nat>, v: nat)
    requires v < |lab| && lab[v] != UNLABELABLE
    ensures |Markable(lab[v := UNLABELABLE])| < |Markable(lab)|
  {
    assert Markable(lab[v := UNLABELABLE]) == Markable(lab) - {v};
  }

  /** p waits on the stack, above every occurrence of w. */
  ghost predicate Above(stack: seq<nat>, p: nat, w: nat) {
    exists j :: 0 <= j < |stack| && stack[j] == p && forall i :: 0 <= i < |stack| && stack[i] == w ==> i < j
  }

  /** Every parent of a marked vertex is marked, or waits above it. */
  ghost predicate Climbing(g: Nfa, lab: seq<nat>, stack: seq<nat>)
    requires Wired(g) && |lab| == |g.vertices|
  {
    forall w: nat, i: nat :: w < |lab| && lab[w] == UNLABELABLE && i < |g.ins[w]| && g.ins[w][i] != 0 ==>
      lab[g.ins[w][i]] == UNLABELABLE || Above(stack, g.ins[w][i], w)
  }

  lemma AbovePop(stack: seq<nat>, p: nat, w: nat)
    requires stack != [] && Above(stack, p, w) && p != stack[|stack| - 1]
    ensures Above(stack[..|stack| - 1], p, w)
  {
    var j :| 0 <= j < |stack| && stack[j] == p && forall i :: 0 <= i < |stack| && stack[i] == w ==> i < j;
    assert stack[..|stack| - 1][j] == p;
  }

  lemma AbovePush(stack: seq<nat>, p: nat, w: nat, x: nat)
    requires Above(stack, p, w) && w != x
    ensures Above(stack + [x], p, w)
  {
    var j :| 0 <= j < |stack| && stack[j] == p && forall i :: 0 <= i < |stack| && stack[i] == w ==> i < j;
    assert (stack + [x])[j] == p;
  }

  lemma AboveTop(stack: seq<nat>, x: nat, w: nat)
    requires w != x
    ensures Above(stack + [x], x, w)
  {
    assert (stack + [x])[|stack|] == x;
  }

  lemma TornStep(g: Nfa, h: nat, t: nat)
    requires Wired(g) && h < |g.out| && t in g.out[h] && Torn(g, t)
    ensures Torn(g, h)
  {
    var l, l' :| l != l' && Reaches(g, t, l) && Reaches(g, t, l');
    ReachesStep(g, h, t, l);
    ReachesStep(g, h, t, l');
  }

  /** The i-th parent of t. */
  lemma ParentOf(g: Nfa, t: nat, i: nat)
    requires Wired(g) && Matched(g) && t < |g.ins| && i < |g.ins[t]|
    ensures g.ins[t][i] < |g.vertices| && t in g.out[g.ins[t][i]]
  {
    assert g.ins[t][i] in g.ins[t];
  }

  ghost predicate Marks(lab: seq<nat>, lab': seq<nat>) {
    |lab'| == |lab| && forall v :: 0 <= v < |lab| ==> lab'[v] == lab[v] || lab'[v] == UNLABELABLE
  }

  /** Vertices to be marked. */
  ghost predicate AllTorn(g: Nfa, stack: seq<nat>) {
    forall i :: 0 <= i < |stack| ==> 0 < stack[i] < |g.vertices| && Torn(g, stack[i])
  }

  /** While u's first i parents have been pushed. */
  ghost predicate ClimbingFrom(g: Nfa, lab: seq<nat>, stack: seq<nat>, u: nat, i: nat)
    requires Wired(g) && |lab| == |g.vertices|
  {
    && u < |lab| && lab[u] == UNLABELABLE
    && forall w: nat, k: nat :: w < |lab| && lab[w] == UNLABELABLE && k < |g.ins[w]| && g.ins[w][k] != 0 && (w == u ==> k < i) ==>
         lab[g.ins[w][k]] == UNLABELABLE || Above(stack, g.ins[w][k], w)
  }

  lemma ClimbPop(g: Nfa, lab: seq<nat>, stack: seq<nat>)
    requires Wired(g) && |lab| == |g.vertices| && Climbing(g, lab, stack)
    requires stack != [] && 0 < stack[|stack| - 1] < |lab|
    ensures var u := stack[|stack| - 1];
            && ClimbingFrom(g, lab[u := UNLABELABLE], stack[..|stack| - 1], u, 0)
            && (lab[u] == UNLABELABLE ==> forall i :: 0 <= i < |g.ins[u]| ==> g.ins[u][i] == 0 || lab[g.ins[u][i]] == UNLABELABLE)
  {
    var u := stack[|stack| - 1];
    var lab' := lab[u := UNLABELABLE];
    forall w: nat, k: nat | w < |lab| && lab'[w] == UNLABELABLE && k < |g.ins[w]| && g.ins[w][k] != 0 && w != u
      ensures lab'[g.ins[w][k]] == UNLABELABLE || Above(stack[..|stack| - 1], g.ins[w][k], w)
    {
      if lab[g.ins[w][k]] != UNLABELABLE && g.ins[w][k] != u {
        AbovePop(stack, g.ins[w][k], w);
      }
    }
  }

  lemma ClimbPush(g: Nfa, lab: seq<nat>, stack: seq<nat>, u: nat, i: nat)
    requires Wired(g) && |lab| == |g.vertices| && ClimbingFrom(g, lab, stack, u, i) && i < |g.ins[u]|
    ensures var p := g.ins[u][i];
            ClimbingFrom(g, lab, if p != 0 && lab[p] != UNLABELABLE then stack + [p] else stack, u, i + 1)
  {
    var p := g.ins[u][i];
    if p != 0 && lab[p] != UNLABELABLE {
      forall w: nat, k: nat | w < |lab| && lab[w] == UNLABELABLE && k < |g.ins[w]| && g.ins[w][k] != 0 && (w == u ==> k < i + 1)
        ensures lab[g.ins[w][k]] == UNLABELABLE || Above(stack + [p], g.ins[w][k], w)
      {
        if w == u && k == i {
          AboveTop(stack, p, w);
        } else if lab[g.ins[w][k]] != UNLABELABLE {
          AbovePush(stack, g.ins[w][k], w, p);
        }
      }
    }
  }

  /** What the inner loops keep. */
  ghost predicate Marking(g: Nfa, lab: seq<nat>, lab': seq<nat>, stack: seq<nat>, h: nat) {
    && Unguarded(g) && |lab'| == |g.vertices| == |lab| && h < |lab|
    && Justified(g, lab') && Marks(lab, lab') && AllTorn(g, stack)
    && (h in stack || lab'[h] == UNLABELABLE)
  }

  lemma MarkingPop(g: Nfa, lab: seq<nat>, lab': seq<nat>, stack: seq<nat>, h: nat)
    requires Marking(g, lab, lab', stack, h) && stack != [] && Climbing(g, lab', stack)
    ensures var u := stack[|stack| - 1];
            && 0 < u < |lab'|
            && Marking(g, lab, lab'[u := UNLABELABLE], stack[..|stack| - 1], h)
            && ClimbingFrom(g, lab'[u := UNLABELABLE], stack[..|stack| - 1], u, 0)
            && Torn(g, u)
            && (lab'[u] == UNLABELABLE ==> forall i :: 0 <= i < |g.ins[u]| ==> g.ins[u][i] == 0 || lab'[g.ins[u][i]] == UNLABELABLE)
            && (lab'[u] != UNLABELABLE ==> |Markable(lab'[u := UNLABELABLE])| < |Markable(lab')|)
  {
    hide Torn, Reaches, Matched, Markable, Climbing, ClimbingFrom;
    var u := stack[|stack| - 1];
    TornNoMatch(g, u);
    ClimbPop(g, lab', stack);
    if lab'[u] != UNLABELABLE {
      MarkedOne(lab', u);
    }
  }

  lemma MarkingPush(g: Nfa, lab: seq<nat>, lab': seq<nat>, stack: seq<nat>, h: nat, u: nat, i: nat)
    requires Marking(g, lab, lab', stack, h) && ClimbingFrom(g, lab', stack, u, i) && i < |g.ins[u]| && Torn(g, u)
    ensures var p := g.ins[u][i];
            && p < |lab'| && (g.vertices[p].trans.NoTransition? <==> p == 0)
            && var stack' := if p != 0 && lab'[p] != UNLABELABLE then stack + [p] else stack;
               Marking(g, lab, lab', stack', h) && ClimbingFrom(g, lab', stack', u, i + 1)
  {
    hide Torn, Reaches, Climbing, ClimbingFrom;
    ClimbUse(g, lab', stack, u, i);
    ParentOf(g, u, i);
    TornStep(g, g.ins[u][i], u);
    ClimbPush(g, lab', stack, u, i);
  }

  lemma ClimbUse(g: Nfa, lab: seq<nat>, stack: seq<nat>, u: nat, i: nat)
    requires Wired(g) && |lab| == |g.vertices| && ClimbingFrom(g, lab, stack, u, i)
    ensures u < |lab| && u < |g.ins| && lab[u] == UNLABELABLE
  {
  }

  lemma ClimbLast(g: Nfa, lab: seq<nat>, stack: seq<nat>, u: nat)
    requires Wired(g) && |lab| == |g.vertices| && u < |lab| && ClimbingFrom(g, lab, stack, u, |g.ins[u]|)
    ensures Climbing(g, lab, stack)
  {
  }

  lemma ClimbFirst(g: Nfa, lab: seq<nat>, stack: seq<nat>)
    requires Wired(g) && |lab| == |g.vertices| && TornClosed(g, lab)
    ensures Climbing(g, lab, stack)
  {
    forall w: nat, i: nat | w < |lab| && lab[w] == UNLABELABLE && i < |g.ins[w]| && g.ins[w][i] != 0
      ensures lab[g.ins[w][i]] == UNLABELABLE
    {
      assert ClosedAt(g, lab, w);
    }
  }

  lemma ClimbEnd(g: Nfa, lab: seq<nat>)
    requires Wired(g) && |lab| == |g.vertices| && Climbing(g, lab, [])
    ensures TornClosed(g, lab)
  {
  }

  lemma RelabelledAt(g: Nfa, lab: seq<nat>, v: nat)
    requires Wired(g) && |lab| == |g.vertices| && v < |lab|
    ensures var r := Relabelled(g, lab);
            && v < |g.ins| && v < |g.out| && |r.vertices| == |lab| && r.vertices[v] == g.vertices[v].(lbl := lab[v]) && r.ins == g.ins && r.out == g.out
  {
  }

  /** The walk that marks a vertex and all of its ancestors unlabelable. It ends. */
  method MarkUnlabelable(g: Graph, h: nat, ghost g0: Nfa, ghost lab: seq<nat>) returns (ghost lab': seq<nat>)
    requires g.Valid() && Unguarded(g0) && |lab| == |g0.vertices| && g.Value() == Relabelled(g0, lab)
    requires Justified(g0, lab) && TornClosed(g0, lab) && 0 < h < |lab| && Torn(g0, h)
    modifies g
    ensures g.Valid() && |lab'| == |lab| && g.Value() == Relabelled(g0, lab')
    ensures Justified(g0, lab') && TornClosed(g0, lab') && Marks(lab, lab') && lab'[h] == UNLABELABLE
  {
    hide *;
    var unext := [h];
    lab' := lab;
    MarkingFirst(g0, lab, h);
    while unext != []
      invariant g.Valid() && |lab'| == |g0.vertices| && Marking(g0, lab, lab', unext, h) && g.Value() == Relabelled(g0, lab')
      invariant Climbing(g0, lab', unext)
      decreases |Markable(lab')|, |unext|
    {
      ghost var before, labBefore := unext, lab';
      var u := unext[|unext| - 1];
      MarkingPop(g0, lab, lab', unext, h);
      unext := unext[..|unext| - 1];
      RelabelledAt(g0, lab', u);
      SetLabel(g, u, UNLABELABLE, g0, lab');
      lab' := lab'[u := UNLABELABLE];
      assert labBefore[u] == UNLABELABLE ==> lab' == labBefore;
      RelabelledAt(g0, lab', u);
      var hs := g.InVertices(u);
      unext := PushUnmarked(g, hs, unext, u, g0, lab, lab', h);
      ClimbLast(g0, lab', unext, u);
    }
    ClimbEnd(g0, lab');
    MarkingEnd(g0, lab, lab', h);
  }

  lemma MarkingFirst(g: Nfa, lab: seq<nat>, h: nat)
    requires Unguarded(g) && |lab| == |g.vertices| && Justified(g, lab) && TornClosed(g, lab) && 0 < h < |lab| && Torn(g, h)
    ensures Wired(g) && |g.ins| == |g.vertices| && Marking(g, lab, lab, [h], h) && Climbing(g, lab, [h])
  {
    ClimbFirst(g, lab, [h]);
  }

  lemma MarkingEnd(g: Nfa, lab: seq<nat>, lab': seq<nat>, h: nat)
    requires Marking(g, lab, lab', [], h)
    ensures Justified(g, lab') && Marks(lab, lab') && lab'[h] == UNLABELABLE
  {
  }

  /** One round of that walk: the parents of u that are not marked yet. */
  method PushUnmarked(g: Graph, hs: seq<nat>, stack: seq<nat>, ghost u: nat, ghost g0: Nfa, ghost lab: seq<nat>,
                      ghost lab': seq<nat>, ghost h: nat)
    returns (stack': seq<nat>)
    requires g.Valid() && Marking(g0, lab, lab', stack, h) && g.Value() == Relabelled(g0, lab')
    requires u < |g0.ins| && hs == g0.ins[u] && Torn(g0, u) && ClimbingFrom(g0, lab', stack, u, 0)
    ensures Marking(g0, lab, lab', stack', h) && ClimbingFrom(g0, lab', stack', u, |hs|)
    ensures (forall i :: 0 <= i < |hs| ==> hs[i] == 0 || (hs[i] < |lab'| && lab'[hs[i]] == UNLABELABLE)) ==> stack' == stack
  {
    stack' := stack;
    assert Wired(g0) && |lab'| == |g0.vertices|;
    hide *;
    for i := 0 to |hs|
      invariant Marking(g0, lab, lab', stack', h) && ClimbingFrom(g0, lab', stack', u, i)
      invariant (forall k :: 0 <= k < |hs| ==> hs[k] == 0 || (hs[k] < |lab'| && lab'[hs[k]] == UNLABELABLE)) ==> stack' == stack
    {
      MarkingPush(g0, lab, lab', stack', h, u, i);
      RelabelledAt(g0, lab', hs[i]);
      if !g.Vertices[hs[i]].trans.NoTransition? && g.Vertices[hs[i]].lbl != UNLABELABLE {
        stack' := stack' + [hs[i]];
      }
    }
  }

  // ----- walking one label back -----

  predicate HasOrTorn(lab: seq<nat>, v: nat, l: nat) {
    v == 0 || (v < |lab| && (lab[v] == l || lab[v] == UNLABELABLE))
  }

  ghost predicate Waiting(g: Nfa, lab: seq<nat>, next: seq<nat>, l: nat) {
    forall i :: 0 <= i < |next| ==> 0 < next[i] < |lab| && HasOrTorn(lab, next[i], l) && Reaches(g, next[i], l)
  }

  ghost function Elements(s: seq<nat>): (r: set<nat>)
    ensures forall x :: x in r <==> x in s
  {
    set x | x in s
  }

  /** What the walk from match m, of label l, keeps; the vertex in hand is exempt too. */
  ghost predicate Walking(g: Nfa, lab: seq<nat>, next: seq<nat>, m: nat, l: nat, hand: set<nat>) {
    && Unguarded(g) && |lab| == |g.vertices| && l < UNLABELABLE
    && Justified(g, lab) && TornClosed(g, lab)
    && Closed(g, lab, m + 1, Elements(next) + hand)
    && Waiting(g, lab, next, l)
  }

  /** The vertex in hand, after its first i parents. */
  ghost predicate InHand(g: Nfa, lab: seq<nat>, t: nat, l: nat, i: nat)
    requires Wired(g)
  {
    && 0 < t < |lab| == |g.ins| && HasOrTorn(lab, t, l) && Reaches(g, t, l)
    && forall k :: 0 <= k < i && k < |g.ins[t]| ==> HasOrTorn(lab, g.ins[t][k], l)
  }

  lemma JustifiedMore(g: Nfa, lab: seq<nat>, h: nat, l: nat)
    requires Justified(g, lab) && 0 < h < |lab| == |g.vertices| && !g.vertices[h].isMatch && Reaches(g, h, l) && l < UNLABELABLE
    ensures Justified(g, lab[h := l])
  {
  }

  /** Relabelling an unmarked vertex, which then waits. */
  lemma ClosedMore(g: Nfa, lab: seq<nat>, h: nat, l: nat, k: nat, exempt: set<nat>)
    requires Wired(g) && |lab| == |g.vertices| && h < |lab| && lab[h] == NOLABEL && l < UNLABELABLE
    requires Closed(g, lab, k, exempt) && TornClosed(g, lab)
    ensures Closed(g, lab[h := l], k, exempt + {h}) && TornClosed(g, lab[h := l])
  {
    var lab' := lab[h := l];
    forall t: nat | t < |lab| && t != h && ClosedAt(g, lab, t) ensures ClosedAt(g, lab', t) {
      forall i | 0 <= i < |g.ins[t]| && g.ins[t][i] != 0 ensures Covers(lab'[g.ins[t][i]], lab'[t]) {
        assert Covers(lab[g.ins[t][i]], lab[t]);
      }
    }
  }

  lemma ClosedMarked(g: Nfa, lab: seq<nat>, lab': seq<nat>, k: nat, exempt: set<nat>)
    requires Wired(g) && |lab| == |g.vertices| && Marks(lab, lab') && Closed(g, lab, k, exempt) && TornClosed(g, lab')
    ensures Closed(g, lab', k, exempt)
  {
    forall t: nat | t < |lab| && t !in exempt && !(g.vertices[t].isMatch && k <= t) ensures ClosedAt(g, lab', t) {
      if lab'[t] != UNLABELABLE {
        assert ClosedAt(g, lab, t);
        forall i | 0 <= i < |g.ins[t]| && g.ins[t][i] != 0 ensures Covers(lab'[g.ins[t][i]], lab'[t]) {
          assert Covers(lab[g.ins[t][i]], lab[t]);
        }
      }
    }
  }

  lemma WaitingMore(g: Nfa, lab: seq<nat>, next: seq<nat>, h: nat, l: nat)
    requires Waiting(g, lab, next, l) && 0 < h < |lab| && lab[h] == NOLABEL && l < UNLABELABLE && Reaches(g, h, l)
    ensures Waiting(g, lab[h := l], next + [h], l)
  {
    hide Reaches;
  }

  lemma InHandMore(g: Nfa, lab: seq<nat>, t: nat, l: nat, i: nat)
    requires Wired(g) && InHand(g, lab, t, l, i) && i < |g.ins[t]| && l < UNLABELABLE
    requires g.ins[t][i] < |lab| && lab[g.ins[t][i]] == NOLABEL
    ensures InHand(g, lab[g.ins[t][i] := l], t, l, i + 1)
  {
    hide Reaches, Wired;
  }

  lemma UnmarkedOne(lab: seq<nat>, h: nat, l: nat)
    requires h < |lab| && lab[h] == NOLABEL && l < UNLABELABLE
    ensures |Unmarked(lab[h := l], NOLABEL)| < |Unmarked(lab, NOLABEL)|
  {
    assert Unmarked(lab[h := l], NOLABEL) == Unmarked(lab, NOLABEL) - {h};
  }

  lemma UnmarkedIsNoMatch(g: Nfa, lab: seq<nat>, h: nat)
    requires Unguarded(g) && Justified(g, lab) && h < |lab| == |g.vertices| && lab[h] == NOLABEL
    ensures !g.vertices[h].isMatch
  {
    hide Reaches;
  }

  lemma VisitUnmarked(g: Nfa, lab: seq<nat>, next: seq<nat>, m: nat, l: nat, t: nat, i: nat)
    requires Walking(g, lab, next, m, l, {t}) && InHand(g, lab, t, l, i) && i < |g.ins[t]|
    requires var h := g.ins[t][i]; h != 0 && lab[h] == NOLABEL
    ensures var h := g.ins[t][i];
            && Walking(g, lab[h := l], next + [h], m, l, {t}) && InHand(g, lab[h := l], t, l, i + 1)
            && |Unmarked(lab[h := l], NOLABEL)| < |Unmarked(lab, NOLABEL)|
  {
    var h := g.ins[t][i];
    WiredOf(g);
    assert Matched(g);
    hide *;
    ParentOf(g, t, i);
    InHandUse(g, lab, t, l, i);
    ReachesStep(g, h, t, l);
    WalkingParts(g, lab, next, m, l, {t});
    UnmarkedIsNoMatch(g, lab, h);
    JustifiedMore(g, lab, h, l);
    ClosedMore(g, lab, h, l, m + 1, Elements(next) + {t});
    WaitingMore(g, lab, next, h, l);
    InHandMore(g, lab, t, l, i);
    UnmarkedOne(lab, h, l);
    assert Elements(next) + {t} + {h} == Elements(next + [h]) + {t};
    WalkingWhole(g, lab[h := l], next + [h], m, l, {t});
  }

  lemma InHandUse(g: Nfa, lab: seq<nat>, t: nat, l: nat, i: nat)
    requires Wired(g) && InHand(g, lab, t, l, i)
    ensures t < |g.ins| && t < |lab| && Reaches(g, t, l) && HasOrTorn(lab, t, l) && |g.ins| == |g.out| == |g.vertices| == |lab|
  {
  }

  lemma WalkingParts(g: Nfa, lab: seq<nat>, next: seq<nat>, m: nat, l: nat, hand: set<nat>)
    requires Walking(g, lab, next, m, l, hand)
    ensures Unguarded(g) && |lab| == |g.vertices| && Justified(g, lab) && TornClosed(g, lab) && l < UNLABELABLE
    ensures Closed(g, lab, m + 1, Elements(next) + hand) && Waiting(g, lab, next, l)
  {
  }

  lemma WalkingWhole(g: Nfa, lab: seq<nat>, next: seq<nat>, m: nat, l: nat, hand: set<nat>)
    requires Unguarded(g) && |lab| == |g.vertices| && Justified(g, lab) && TornClosed(g, lab) && l < UNLABELABLE
    requires Closed(g, lab, m + 1, Elements(next) + hand) && Waiting(g, lab, next, l)
    ensures Walking(g, lab, next, m, l, hand)
  {
  }

  lemma VisitKnown(g: Nfa, lab: seq<nat>, next: seq<nat>, m: nat, l: nat, t: nat, i: nat)
    requires Walking(g, lab, next, m, l, {t}) && InHand(g, lab, t, l, i) && i < |g.ins[t]|
    requires HasOrTorn(lab, g.ins[t][i], l)
    ensures InHand(g, lab, t, l, i + 1)
  {
  }

  /** A parent with another label leads to matches of two labels. */
  lemma VisitOther(g: Nfa, lab: seq<nat>, next: seq<nat>, m: nat, l: nat, t: nat, i: nat)
    requires Walking(g, lab, next, m, l, {t}) && InHand(g, lab, t, l, i) && i < |g.ins[t]|
    requires g.ins[t][i] != 0 && lab[g.ins[t][i]] != NOLABEL
    requires !HasOrTorn(lab, g.ins[t][i], l)
    ensures Torn(g, g.ins[t][i])
  {
    ParentOf(g, t, i);
    ReachesStep(g, g.ins[t][i], t, l);
    hide Reaches, Matched, Closed, TornClosed;
  }

  lemma VisitMarked(g: Nfa, lab: seq<nat>, lab': seq<nat>, next: seq<nat>, m: nat, l: nat, t: nat, i: nat)
    requires Walking(g, lab, next, m, l, {t}) && InHand(g, lab, t, l, i) && i < |g.ins[t]|
    requires g.ins[t][i] < |lab| && Marks(lab, lab') && Justified(g, lab') && TornClosed(g, lab')
    requires lab'[g.ins[t][i]] == UNLABELABLE
    ensures Walking(g, lab', next, m, l, {t}) && InHand(g, lab', t, l, i + 1)
    ensures |Unmarked(lab', NOLABEL)| <= |Unmarked(lab, NOLABEL)|
  {
    hide Reaches, Matched, Closed, TornClosed, Torn, Justified;
    ClosedMarked(g, lab, lab', m + 1, Elements(next) + {t});
    assert Unmarked(lab', NOLABEL) <= Unmarked(lab, NOLABEL);
    SubsetCount(Unmarked(lab', NOLABEL), Unmarked(lab, NOLABEL));
  }

  lemma {:induction false} SubsetCount<T>(a: set<T>, b: set<T>)
    requires a <= b
    ensures |a| <= |b|
  {
    assert b == a + (b - a);
  }

  /** Once all of its parents have been visited, the vertex in hand is closed. */
  lemma VisitDone(g: Nfa, lab: seq<nat>, next: seq<nat>, m: nat, l: nat, t: nat)
    requires Walking(g, lab, next, m, l, {t}) && 0 < t < |g.ins| && InHand(g, lab, t, l, |g.ins[t]|)
    ensures Walking(g, lab, next, m, l, {})
  {
    assert ClosedAt(g, lab, t) by {
      hide Reaches, Matched, Closed, Torn, Justified;
      if lab[t] != UNLABELABLE {
        forall i | 0 <= i < |g.ins[t]| && g.ins[t][i] != 0 ensures Covers(lab[g.ins[t][i]], lab[t]) {
          assert HasOrTorn(lab, g.ins[t][i], l);
        }
      }
    }
    hide Reaches, Matched, Torn, Justified, ClosedAt, TornClosed;
    assert Closed(g, lab, m + 1, Elements(next) + {t});
  }

  lemma WalkPop(g: Nfa, lab: seq<nat>, next: seq<nat>, m: nat, l: nat)
    requires Walking(g, lab, next, m, l, {}) && next != []
    ensures var t := next[|next| - 1];
            && Wired(g) && |lab| == |g.vertices| && 0 < t < |g.ins| && t < |lab|
            && Walking(g, lab, next[..|next| - 1], m, l, {t}) && InHand(g, lab, t, l, 0)
  {
    hide Reaches, Matched, Torn, Justified, ClosedAt, TornClosed;
    var t := next[|next| - 1];
    assert next == next[..|next| - 1] + [t];
    assert Elements(next) + {} == Elements(next[..|next| - 1]) + {t};
  }

  lemma WalkUse(g: Nfa, lab: seq<nat>, next: seq<nat>, m: nat, l: nat, t: nat, i: nat)
    requires Walking(g, lab, next, m, l, {t}) && InHand(g, lab, t, l, i) && i < |g.ins[t]|
    ensures |lab| == |g.vertices| && g.ins[t][i] < |lab| && (g.vertices[g.ins[t][i]].trans.NoTransition? <==> g.ins[t][i] == 0)
    ensures Justified(g, lab) && TornClosed(g, lab) && Unguarded(g)
    ensures HasOrTorn(lab, g.ins[t][i], l) <==>
              g.ins[t][i] == 0 || lab[g.ins[t][i]] == UNLABELABLE || lab[g.ins[t][i]] == l
  {
    ParentOf(g, t, i);
  }

  /** The loop over the parents of t. */
  method VisitParents(g: Graph, hs: seq<nat>, next: seq<nat>, mark: nat, ghost t: nat, ghost m: nat,
                      ghost g0: Nfa, ghost lab: seq<nat>)
    returns (next': seq<nat>, ghost lab': seq<nat>)
    requires g.Valid() && |lab| == |g0.vertices| && g.Value() == Relabelled(g0, lab)
    requires Wired(g0) && 0 < t < |g0.ins| && hs == g0.ins[t]
    requires Walking(g0, lab, next, m, mark, {t}) && InHand(g0, lab, t, mark, 0)
    modifies g
    ensures g.Valid() && |lab'| == |lab| && g.Value() == Relabelled(g0, lab')
    ensures Walking(g0, lab', next', m, mark, {})
    ensures |Unmarked(lab', NOLABEL)| < |Unmarked(lab, NOLABEL)|
         || (|Unmarked(lab', NOLABEL)| == |Unmarked(lab, NOLABEL)| && next' == next)
  {
    hide *;
    next', lab' := next, lab;
    for i := 0 to |hs|
      invariant g.Valid() && |lab'| == |lab| && g.Value() == Relabelled(g0, lab')
      invariant Walking(g0, lab', next', m, mark, {t}) && InHand(g0, lab', t, mark, i)
      invariant |Unmarked(lab', NOLABEL)| < |Unmarked(lab, NOLABEL)|
             || (|Unmarked(lab', NOLABEL)| == |Unmarked(lab, NOLABEL)| && next' == next)
    {
      var h := hs[i];
      WalkUse(g0, lab', next', m, mark, t, i);
      RelabelledAt(g0, lab', h);
      if g.Vertices[h].trans.NoTransition? {
        // Skip the initial state.
        VisitKnown(g0, lab', next', m, mark, t, i);
      } else if g.Vertices[h].lbl == NOLABEL {
        // Mark unmarked parents with our label and walk back to them.
        VisitUnmarked(g0, lab', next', m, mark, t, i);
        SetLabel(g, h, mark, g0, lab');
        lab' := lab'[h := mark];
        next' := next' + [h];
      } else if g.Vertices[h].lbl == UNLABELABLE || g.Vertices[h].lbl == mark {
        VisitKnown(g0, lab', next', m, mark, t, i);
      } else {
        VisitOther(g0, lab', next', m, mark, t, i);
        ghost var before := lab';
        lab' := MarkUnlabelable(g, h, g0, lab');
        VisitMarked(g0, before, lab', next', m, mark, t, i);
      }
    }
    VisitDone(g0, lab', next', m, mark, t);
  }

  lemma WalkFirst(g: Nfa, lab: seq<nat>, m: nat)
    requires Unguarded(g) && |lab| == |g.vertices| && Justified(g, lab) && TornClosed(g, lab) && Closed(g, lab, m, {})
    requires m < |lab| && g.vertices[m].isMatch
    ensures lab[m] < UNLABELABLE && Walking(g, lab, [m], m, lab[m], {})
  {
    ReachesSelf(g, m);
    assert lab[m] == g.vertices[m].lbl;
    assert Waiting(g, lab, [m], lab[m]) by {
      assert m != 0;
      hide *;
    }
    assert Closed(g, lab, m + 1, Elements([m]) + {}) by {
      ClosedNext(g, lab, m);
      assert Elements([m]) + {} == {m};
    }
    hide *;
    WalkingWhole(g, lab, [m], m, lab[m], {});
  }

  lemma ClosedNext(g: Nfa, lab: seq<nat>, m: nat)
    requires Wired(g) && |lab| == |g.vertices| && Closed(g, lab, m, {})
    ensures Closed(g, lab, m + 1, {m})
  {
    hide ClosedAt;
  }

  lemma WalkEnd(g: Nfa, lab: seq<nat>, m: nat, l: nat)
    requires Walking(g, lab, [], m, l, {})
    ensures Justified(g, lab) && TornClosed(g, lab) && Closed(g, lab, m + 1, {})
  {
    assert Elements([]) + {} == {};
  }

  /** The walk from one match vertex. */
  method WalkBack(g: Graph, m: nat, mark: nat, ghost g0: Nfa, ghost lab: seq<nat>) returns (ghost lab': seq<nat>)
    requires g.Valid() && Unguarded(g0) && |lab| == |g0.vertices| && g.Value() == Relabelled(g0, lab)
    requires Justified(g0, lab) && TornClosed(g0, lab) && Closed(g0, lab, m, {})
    requires m < |lab| && g0.vertices[m].isMatch && mark == lab[m]
    modifies g
    ensures g.Valid() && |lab'| == |lab| && g.Value() == Relabelled(g0, lab')
    ensures Justified(g0, lab') && TornClosed(g0, lab') && Closed(g0, lab', m + 1, {})
  {
    hide *;
    lab' := lab;
    var next := [m];
    WalkFirst(g0, lab, m);
    while next != []
      invariant g.Valid() && |lab'| == |lab| && g.Value() == Relabelled(g0, lab')
      invariant Walking(g0, lab', next, m, mark, {})
      decreases |Unmarked(lab', NOLABEL)|, |next|
    {
      WalkPop(g0, lab', next, m, mark);
      var t := next[|next| - 1];
      next := next[..|next| - 1];
      RelabelledAt(g0, lab', t);
      var hs := g.InVertices(t);
      next, lab' := VisitParents(g, hs, next, mark, t, m, g0, lab');
    }
    WalkEnd(g0, lab', m, mark);
  }

  lemma PropagateFirst(g: Nfa)
    requires Unguarded(g)
    ensures var lab := LabelsOf(g);
            && |lab| == |g.vertices| && Relabelled(g, lab) == g
            && Justified(g, lab) && TornClosed(g, lab) && Closed(g, lab, 0, {})
  {
    var lab := LabelsOf(g);
    assert Relabelled(g, lab).vertices == g.vertices;
    forall v | 0 <= v < |lab| && g.vertices[v].isMatch ensures Reaches(g, v, lab[v]) {
      ReachesSelf(g, v);
    }
  }

  lemma NotMatch(g: Nfa, lab: seq<nat>, m: nat)
    requires Wired(g) && |lab| == |g.vertices| && m < |lab| && !g.vertices[m].isMatch && Closed(g, lab, m, {})
    ensures Closed(g, lab, m + 1, {})
  {
  }

  /**
   propagateMatchLabels: afterwards a vertex other than the initial one is
   unmarked if no match can be reached from it, labelled l if only matches of
   label l can, and unlabelable if matches of two labels can.
   */
  method PropagateMatchLabels(g: Graph) returns (ghost lab: seq<nat>)
    requires g.Valid() && Unguarded(g.Value())
    modifies g
    ensures g.Valid() && |lab| == |old(g.Value()).vertices| && g.Value() == Relabelled(old(g.Value()), lab)
    ensures AllTold(old(g.Value()), lab) && Justified(old(g.Value()), lab)
  {
    hide *;
    ghost var g0 := g.Value();
    lab := LabelsOf(g0);
    PropagateFirst(g0);
    for m := 0 to |g.Vertices|
      invariant g.Valid() && |lab| == |g0.vertices| && g.Value() == Relabelled(g0, lab)
      invariant Justified(g0, lab) && TornClosed(g0, lab) && Closed(g0, lab, m, {})
    {
      WiredOf(g0);
      RelabelledAt(g0, lab, m);
      if !g.Vertices[m].isMatch {
        // skip non-match vertices
        NotMatch(g0, lab, m);
      } else {
        lab := WalkBack(g, m, g.Vertices[m].lbl, g0, lab);
      }
    }
    LabelsTell(g0, lab);
  }

  lemma WiredOf(g: Nfa)
    requires Unguarded(g)
    ensures Wired(g)
  {
  }

  // ----- removeNonMinimalLabels -----

  /** Labels are left where a decided vertex is entered from an undecided one. */
  ghost predicate Decided(g: Nfa, lab: seq<nat>, t: nat)
    requires t < |lab|
  {
    if lab[t] == NOLABEL then Barren(g, t) else Pure(g, t, lab[t])
  }

  ghost predicate OutWithin(g: Nfa, v: nat, s: set<nat>)
    requires v < |g.out|
  {
    forall i :: 0 <= i < |g.out[v]| ==> g.out[v][i] in s
  }

  /**
   The open vertices are the initial one and those reached through vertices with
   matches of two labels below them: they have no label. Whoever steps out of them
   steps on a vertex that knows its label, or has no match below it; and no vertex
   that can be reached has a label other than that of the matches below it. Labels are
   left only on vertices that an open vertex leads to.
   */
  ghost predicate Guarded(g: Nfa, lab: seq<nat>, open: set<nat>, seen: set<nat>) {
    && Wired(g) && |lab| == |g.vertices|
    && 0 in open && open <= seen && (forall v :: v in seen ==> v < |lab|)
    && (forall v :: v in open ==> lab[v] == NOLABEL && (v == 0 || Torn(g, v)))
    && (forall v, i :: v in open && 0 <= i < |g.out[v]| ==> g.out[v][i] in open || Decided(g, lab, g.out[v][i]))
    && (forall v :: v in seen ==> OutWithin(g, v, seen))
    && (forall v :: v in seen && lab[v] != NOLABEL ==> Pure(g, v, lab[v]) && EnteredFrom(g, open, v))
  }

  ghost predicate EnteredFrom(g: Nfa, s: set<nat>, t: nat) {
    exists h: nat :: h in s && h < |g.out| && t in g.out[h]
  }

  lemma EnteredMore(g: Nfa, s: set<nat>, s': set<nat>)
    requires s <= s'
    ensures forall t: nat :: EnteredFrom(g, s, t) ==> EnteredFrom(g, s', t)
  {
  }

  /** The visited bits, as a set. */
  ghost function Seen(visited: seq<bool>): (r: set<nat>)
    ensures forall v: nat :: v in r <==> v < |visited| && visited[v]
  {
    set v: nat | v in Numbers(|visited|) && visited[v]
  }

  ghost predicate StackIn(stack: seq<nat>, s: set<nat>) {
    forall i :: 0 <= i < |stack| ==> stack[i] in s
  }

  /** The first walk: open vertices lose their mark, the others it meets are heads. */
  ghost predicate Opening(g: Nfa, lab0: seq<nat>, lab: seq<nat>, open: set<nat>, heads: set<nat>, seen: set<nat>,
                          stack: seq<nat>, hand: set<nat>)
  {
    && Wired(g) && |lab| == |lab0| == |g.vertices|
    && seen == open + heads && 0 in open && open !! heads
    && (forall v :: v in seen ==> v < |lab|)
    && (forall v :: v in open && v != 0 ==> lab0[v] == UNLABELABLE)
    && (forall v :: v in heads ==> lab0[v] != UNLABELABLE && v != 0 && EnteredFrom(g, open, v))
    && (forall v :: 0 <= v < |lab| ==> lab[v] == if v in open then NOLABEL else lab0[v])
    && StackIn(stack, open)
    && (forall v :: v in open && v !in stack && v !in hand ==> OutWithin(g, v, seen))
  }

  /** The second walk: whatever else it meets loses its label. */
  ghost predicate Clearing(g: Nfa, lab0: seq<nat>, lab: seq<nat>, open: set<nat>, heads: set<nat>, seen: set<nat>,
                           stack: seq<nat>, hand: set<nat>)
  {
    && Wired(g) && |lab| == |lab0| == |g.vertices|
    && open + heads <= seen && 0 in open && open !! heads
    && (forall v :: v in seen ==> v < |lab|)
    && (forall v :: v in open && v != 0 ==> lab0[v] == UNLABELABLE)
    && (forall v :: v in heads ==> lab0[v] != UNLABELABLE && v != 0 && EnteredFrom(g, open, v))
    && (forall v :: 0 <= v < |lab| ==> lab[v] == if v in seen && v !in heads then NOLABEL else lab0[v])
    && StackIn(stack, seen)
    && (forall v :: v in open ==> OutWithin(g, v, open + heads))
    && (forall v :: v in seen && v !in stack && v !in hand ==> OutWithin(g, v, seen))
  }

  ghost predicate FirstOut(g: Nfa, v: nat, k: nat, s: set<nat>)
    requires v < |g.out|
  {
    forall i :: 0 <= i < k && i < |g.out[v]| ==> g.out[v][i] in s
  }

  lemma OpeningFirst(g: Nfa, lab0: seq<nat>, seen: set<nat>)
    requires Wired(g) && |lab0| == |g.vertices| && lab0[0] == NOLABEL && seen == {0}
    ensures Opening(g, lab0, lab0, {0}, {}, seen, [0], {})
  {
  }

  lemma OpeningPop(g: Nfa, lab0: seq<nat>, lab: seq<nat>, open: set<nat>, heads: set<nat>, seen: set<nat>, stack: seq<nat>)
    requires Opening(g, lab0, lab, open, heads, seen, stack, {}) && stack != []
    ensures var h := stack[|stack| - 1];
            && h < |g.out| && h in open && Opening(g, lab0, lab, open, heads, seen, stack[..|stack| - 1], {h})
            && FirstOut(g, h, 0, seen)
  {
    hide OutWithin;
    assert stack == stack[..|stack| - 1] + [stack[|stack| - 1]];
  }

  lemma OutWithinMore(g: Nfa, s: set<nat>, s': set<nat>)
    requires s <= s'
    ensures forall v: nat :: v < |g.out| && OutWithin(g, v, s) ==> OutWithin(g, v, s')
  {
  }

  /** An unmarked-for-good successor becomes open, another becomes a head. */
  lemma OpeningStep(g: Nfa, lab0: seq<nat>, lab: seq<nat>, open: set<nat>, heads: set<nat>, seen: set<nat>,
                    stack: seq<nat>, h: nat, t: nat)
    requires Opening(g, lab0, lab, open, heads, seen, stack, {h}) && t < |lab| && t !in seen
    requires h in open && h < |g.out| && t in g.out[h]
    ensures lab[t] == UNLABELABLE ==>
              Opening(g, lab0, lab[t := NOLABEL], open + {t}, heads, seen + {t}, stack + [t], {h})
    ensures lab[t] != UNLABELABLE ==>
              Opening(g, lab0, lab, open, heads + {t}, seen + {t}, stack, {h})
  {
    OutWithinMore(g, seen, seen + {t});
    EnteredMore(g, open, open + {t});
    assert EnteredFrom(g, open, t);
    hide OutWithin, Wired, EnteredFrom;
  }

  lemma OpeningDone(g: Nfa, lab0: seq<nat>, lab: seq<nat>, open: set<nat>, heads: set<nat>, seen: set<nat>,
                    stack: seq<nat>, h: nat)
    requires Opening(g, lab0, lab, open, heads, seen, stack, {h}) && h < |g.out| && FirstOut(g, h, |g.out[h]|, seen)
    ensures Opening(g, lab0, lab, open, heads, seen, stack, {})
  {
    assert OutWithin(g, h, seen);
    hide OutWithin, Wired;
  }

  lemma ClearingFirst(g: Nfa, lab0: seq<nat>, lab: seq<nat>, open: set<nat>, heads: set<nat>, seen: set<nat>, stack: seq<nat>)
    requires Opening(g, lab0, lab, open, heads, seen, [], {})
    requires forall v :: v in stack <==> v in heads
    ensures Clearing(g, lab0, lab, open, heads, seen, stack, {})
  {
    hide OutWithin, Wired;
  }

  lemma ClearingPop(g: Nfa, lab0: seq<nat>, lab: seq<nat>, open: set<nat>, heads: set<nat>, seen: set<nat>, stack: seq<nat>)
    requires Clearing(g, lab0, lab, open, heads, seen, stack, {}) && stack != []
    ensures var h := stack[|stack| - 1];
            && h < |g.out| && h in seen && Clearing(g, lab0, lab, open, heads, seen, stack[..|stack| - 1], {h})
            && FirstOut(g, h, 0, seen)
  {
    hide OutWithin;
    assert stack == stack[..|stack| - 1] + [stack[|stack| - 1]];
  }

  lemma ClearingStep(g: Nfa, lab0: seq<nat>, lab: seq<nat>, open: set<nat>, heads: set<nat>, seen: set<nat>,
                     stack: seq<nat>, h: nat, t: nat)
    requires Clearing(g, lab0, lab, open, heads, seen, stack, {h}) && t < |lab| && t !in seen
    ensures Clearing(g, lab0, lab[t := NOLABEL], open, heads, seen + {t}, stack + [t], {h})
  {
    OutWithinMore(g, seen, seen + {t});
    hide OutWithin, Wired;
  }

  lemma ClearingDone(g: Nfa, lab0: seq<nat>, lab: seq<nat>, open: set<nat>, heads: set<nat>, seen: set<nat>,
                     stack: seq<nat>, h: nat)
    requires Clearing(g, lab0, lab, open, heads, seen, stack, {h}) && h < |g.out| && FirstOut(g, h, |g.out[h]|, seen)
    ensures Clearing(g, lab0, lab, open, heads, seen, stack, {})
  {
    assert OutWithin(g, h, seen);
    hide OutWithin, Wired;
  }

  lemma ClearingEnd(g: Nfa, lab0: seq<nat>, lab: seq<nat>, open: set<nat>, heads: set<nat>, seen: set<nat>)
    requires Clearing(g, lab0, lab, open, heads, seen, [], {}) && AllTold(g, lab0)
    ensures Guarded(g, lab, open, seen)
  {
    WiredSizes(g);
    ChildrenWithin(g);
    hide Torn, Barren, Pure, Wired;
    forall v | v in open ensures lab[v] == NOLABEL && (v == 0 || Torn(g, v)) {
      assert v != 0 ==> Told(g, lab0, v);
    }
    forall v | v in heads ensures Decided(g, lab, v) {
      assert Told(g, lab0, v);
      assert lab[v] == lab0[v];
    }
    forall v, i | v in open && 0 <= i < |g.out[v]| ensures g.out[v][i] in open || Decided(g, lab, g.out[v][i]) {
      assert OutWithin(g, v, open + heads);
    }
    forall v | v in seen && lab[v] != NOLABEL ensures Pure(g, v, lab[v]) {
      assert v in heads && Decided(g, lab, v);
    }
  }

  lemma ChildrenWithin(g: Nfa)
    requires Wired(g)
    ensures forall v: nat, i: nat :: v < |g.out| && i < |g.out[v]| ==> g.out[v][i] < |g.vertices|
  {
  }

  lemma SeenMore(visited: seq<bool>, t: nat)
    requires t < |visited|
    ensures Seen(visited[t := true]) == Seen(visited) + {t}
    ensures !visited[t] ==> |Numbers(|visited|) - Seen(visited[t := true])| < |Numbers(|visited|) - Seen(visited)|
  {
    if !visited[t] {
      assert Numbers(|visited|) - Seen(visited[t := true]) == Numbers(|visited|) - Seen(visited) - {t};
    }
  }

  /** The edges out of one vertex, in the first walk. */
  method OpenSuccessors(g: Graph, ts: seq<nat>, visited: seq<bool>, heads: set<nat>, stack: seq<nat>, ghost h: nat,
                        ghost g0: Nfa, ghost lab0: seq<nat>, ghost lab: seq<nat>, ghost open: set<nat>)
    returns (visited': seq<bool>, heads': set<nat>, stack': seq<nat>, ghost lab': seq<nat>, ghost open': set<nat>)
    requires g.Valid() && |lab| == |g0.vertices| == |visited| && g.Value() == Relabelled(g0, lab)
    requires Wired(g0) && h < |g0.out| && ts == g0.out[h]
    requires Opening(g0, lab0, lab, open, heads, Seen(visited), stack, {h}) && FirstOut(g0, h, 0, Seen(visited)) && h in open
    modifies g
    ensures g.Valid() && |lab'| == |visited'| == |visited| && g.Value() == Relabelled(g0, lab')
    ensures Opening(g0, lab0, lab', open', heads', Seen(visited'), stack', {})
    ensures |Numbers(|visited|) - Seen(visited')| < |Numbers(|visited|) - Seen(visited)|
         || (|Numbers(|visited|) - Seen(visited')| == |Numbers(|visited|) - Seen(visited)| && stack' == stack)
  {
    hide *;
    visited', heads', stack', lab', open' := visited, heads, stack, lab, open;
    for i := 0 to |ts|
      invariant g.Valid() && |lab'| == |visited'| == |visited| && g.Value() == Relabelled(g0, lab')
      invariant Opening(g0, lab0, lab', open', heads', Seen(visited'), stack', {h}) && h in open'
      invariant FirstOut(g0, h, i, Seen(visited'))
      invariant |Numbers(|visited|) - Seen(visited')| < |Numbers(|visited|) - Seen(visited)|
             || (|Numbers(|visited|) - Seen(visited')| == |Numbers(|visited|) - Seen(visited)| && stack' == stack)
    {
      var t := ts[i];
      ChildOf(g0, h, i);
      RelabelledAt(g0, lab', t);
      SeenMore(visited', t);
      FirstOutMore(g0, h, i, Seen(visited'), Seen(visited'[t := true]));
      if !visited'[t] {
        OpeningStep(g0, lab0, lab', open', heads', Seen(visited'), stack', h, t);
        if g.Vertices[t].lbl == UNLABELABLE {
          SetLabel(g, t, NOLABEL, g0, lab');
          lab', open' := lab'[t := NOLABEL], open' + {t};
          stack' := stack' + [t];
        } else {
          heads' := heads' + {t};
        }
        visited' := visited'[t := true];
      } else {
        assert visited' == visited'[t := true];
      }
    }
    OpeningDone(g0, lab0, lab', open', heads', Seen(visited'), stack', h);
  }

  lemma ChildOf(g: Nfa, h: nat, i: nat)
    requires Wired(g) && h < |g.out| && i < |g.out[h]|
    ensures g.out[h][i] < |g.vertices|
  {
  }

  lemma FirstOutMore(g: Nfa, h: nat, k: nat, s: set<nat>, s': set<nat>)
    requires h < |g.out| && k < |g.out[h]| && FirstOut(g, h, k, s) && s <= s' && g.out[h][k] in s'
    ensures FirstOut(g, h, k + 1, s')
  {
  }

  /** The edges out of one vertex, in the second walk. */
  method ClearSuccessors(g: Graph, ts: seq<nat>, visited: seq<bool>, stack: seq<nat>, ghost heads: set<nat>, ghost h: nat,
                         ghost g0: Nfa, ghost lab0: seq<nat>, ghost lab: seq<nat>, ghost open: set<nat>)
    returns (visited': seq<bool>, stack': seq<nat>, ghost lab': seq<nat>)
    requires g.Valid() && |lab| == |g0.vertices| == |visited| && g.Value() == Relabelled(g0, lab)
    requires Wired(g0) && h < |g0.out| && ts == g0.out[h]
    requires Clearing(g0, lab0, lab, open, heads, Seen(visited), stack, {h}) && FirstOut(g0, h, 0, Seen(visited))
    modifies g
    ensures g.Valid() && |lab'| == |visited'| == |visited| && g.Value() == Relabelled(g0, lab')
    ensures Clearing(g0, lab0, lab', open, heads, Seen(visited'), stack', {})
    ensures |Numbers(|visited|) - Seen(visited')| < |Numbers(|visited|) - Seen(visited)|
         || (|Numbers(|visited|) - Seen(visited')| == |Numbers(|visited|) - Seen(visited)| && stack' == stack)
  {
    hide *;
    visited', stack', lab' := visited, stack, lab;
    for i := 0 to |ts|
      invariant g.Valid() && |lab'| == |visited'| == |visited| && g.Value() == Relabelled(g0, lab')
      invariant Clearing(g0, lab0, lab', open, heads, Seen(visited'), stack', {h})
      invariant FirstOut(g0, h, i, Seen(visited'))
      invariant |Numbers(|visited|) - Seen(visited')| < |Numbers(|visited|) - Seen(visited)|
             || (|Numbers(|visited|) - Seen(visited')| == |Numbers(|visited|) - Seen(visited)| && stack' == stack)
    {
      var t := ts[i];
      ChildOf(g0, h, i);
      RelabelledAt(g0, lab', t);
      SeenMore(visited', t);
      FirstOutMore(g0, h, i, Seen(visited'), Seen(visited'[t := true]));
      if !visited'[t] {
        ClearingStep(g0, lab0, lab', open, heads, Seen(visited'), stack', h, t);
        SetLabel(g, t, NOLABEL, g0, lab');
        lab' := lab'[t := NOLABEL];
        stack' := stack' + [t];
        visited' := visited'[t := true];
      } else {
        assert visited' == visited'[t := true];
      }
    }
    ClearingDone(g0, lab0, lab', open, heads, Seen(visited'), stack', h);
  }

  /** removeNonMinimalLabels */
  method RemoveNonMinimalLabels(g: Graph, ghost g0: Nfa, ghost lab0: seq<nat>)
    returns (ghost lab: seq<nat>, ghost open: set<nat>, ghost seen: set<nat>)
    requires g.Valid() && Wired(g0) && |lab0| == |g0.vertices| && g.Value() == Relabelled(g0, lab0) && AllTold(g0, lab0)
    modifies g
    ensures g.Valid() && |lab| == |g0.vertices| && g.Value() == Relabelled(g0, lab)
    ensures Guarded(g0, lab, open, seen)
  {
    assert lab0[0] == NOLABEL;
    hide *;
    WiredSizes(g0);
    RelabelledAt(g0, lab0, 0);
    var visited := seq(|g.Vertices|, i => i == 0);
    assert Seen(visited) == {0};
    var heads: set<nat> := {};
    lab, open := lab0, {0};
    var next := [0];
    OpeningFirst(g0, lab0, Seen(visited));
    while next != []
      invariant g.Valid() && |lab| == |g0.vertices| == |visited| && g.Value() == Relabelled(g0, lab)
      invariant Opening(g0, lab0, lab, open, heads, Seen(visited), next, {})
      decreases |Numbers(|visited|) - Seen(visited)|, |next|
    {
      OpeningPop(g0, lab0, lab, open, heads, Seen(visited), next);
      var h := next[|next| - 1];
      next := next[..|next| - 1];
      RelabelledAt(g0, lab, h);
      var ts := g.OutVertices(h);
      visited, heads, next, lab, open := OpenSuccessors(g, ts, visited, heads, next, h, g0, lab0, lab, open);
    }
    // Push all of the minimal guard states we found back onto the stack.
    next := StackOf(heads);
    ClearingFirst(g0, lab0, lab, open, heads, Seen(visited), next);
    while next != []
      invariant g.Valid() && |lab| == |g0.vertices| == |visited| && g.Value() == Relabelled(g0, lab)
      invariant Clearing(g0, lab0, lab, open, heads, Seen(visited), next, {})
      decreases |Numbers(|visited|) - Seen(visited)|, |next|
    {
      ClearingPop(g0, lab0, lab, open, heads, Seen(visited), next);
      var h := next[|next| - 1];
      next := next[..|next| - 1];
      RelabelledAt(g0, lab, h);
      var ts := g.OutVertices(h);
      visited, next, lab := ClearSuccessors(g, ts, visited, next, heads, h, g0, lab0, lab, open);
    }
    seen := Seen(visited);
    ClearingEnd(g0, lab0, lab, open, heads, seen);
  }

  lemma WiredSizes(g: Nfa)
    requires Wired(g)
    ensures |g.vertices| == |g.out| == |g.ins| && 0 < |g.vertices|
  {
  }

  method StackOf(s: set<nat>) returns (r: seq<nat>)
    ensures forall v :: v in r <==> v in s
  {
    r := [];
    var todo := s;
    while todo != {}
      invariant todo <= s && forall v :: v in r <==> v in s && v !in todo
      decreases |todo|
    {
      var v :| v in todo;
      r := r + [v];
      todo := todo - {v};
    }
  }

  /** NFAOptimizer::labelGuardStates */
  method LabelGuardStates(g: Graph) returns (ghost lab: seq<nat>, ghost open: set<nat>, ghost seen: set<nat>)
    requires g.Valid() && Unguarded(g.Value())
    modifies g
    ensures g.Valid() && |lab| == |old(g.Value()).vertices| && g.Value() == Relabelled(old(g.Value()), lab)
    ensures Guarded(old(g.Value()), lab, open, seen)
  {
    hide *;
    ghost var g0 := g.Value();
    WiredOf(g0);
    var lab0 := PropagateMatchLabels(g);
    lab, open, seen := RemoveNonMinimalLabels(g, g0, lab0);
  }

  // ----- what the labels are good for -----

  /** Every path from the initial vertex to a match of label l meets a labelled vertex, and no label but l. */
  lemma PathsGuarded(g: Nfa, lab: seq<nat>, open: set<nat>, seen: set<nat>, p: seq<nat>, l: nat)
    requires Unguarded(g) && Guarded(g, lab, open, seen) && EndsAt(g, p, l) && p[0] == 0
    ensures forall i :: 0 <= i < |p| ==> p[i] < |lab| && (lab[p[i]] == NOLABEL || lab[p[i]] == l)
    ensures exists i :: 0 <= i < |p| && p[i] < |lab| && lab[p[i]] == l
  {
    forall i | 0 <= i < |p| ensures p[i] in seen && (lab[p[i]] == NOLABEL || lab[p[i]] == l) {
      PathStaysSeen(g, lab, open, seen, p, i);
      ReachesSuffix(g, p, l, i);
    }
    var k := LeavesOpen(g, lab, open, seen, p, l);
    ReachesSuffix(g, p, l, k);
  }

  lemma {:induction false} PathStaysSeen(g: Nfa, lab: seq<nat>, open: set<nat>, seen: set<nat>, p: seq<nat>, i: nat)
    requires Guarded(g, lab, open, seen) && Path(g, p) && p[0] == 0 && i < |p|
    ensures p[i] in seen
    decreases i
  {
    if i > 0 {
      PathStaysSeen(g, lab, open, seen, p, i - 1);
      assert OutWithin(g, p[i - 1], seen) && p[i] in g.out[p[i - 1]];
    }
  }

  /** The first vertex of the path that is not open. */
  lemma {:induction false} LeavesOpen(g: Nfa, lab: seq<nat>, open: set<nat>, seen: set<nat>, p: seq<nat>, l: nat) returns (k: nat)
    requires Unguarded(g) && Guarded(g, lab, open, seen) && EndsAt(g, p, l) && p[0] == 0
    ensures 0 < k < |p| && p[k] < |lab| && p[k] !in open && Decided(g, lab, p[k])
  {
    var last := p[|p| - 1];
    assert last !in open by {
      if last in open && last != 0 {
        TornNoMatch(g, last);
      }
    }
    k := 0;
    while p[k] in open
      invariant k < |p| && (k > 0 ==> p[k - 1] in open)
      decreases |p| - k
    {
      k := k + 1;
    }
    assert p[k] in g.out[p[k - 1]];
    var i :| 0 <= i < |g.out[p[k - 1]]| && g.out[p[k - 1]][i] == p[k];
  }
}
