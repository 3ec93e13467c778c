/**
 Walking an automaton whose labels sit on guard vertices: a walk takes on the
 label of every labelled vertex it enters, and a match vertex is a match of the
 label that the walk carries (src/lib/nfaoptimizer.cpp:255-379).
 */
module Carrying {
  import opened Basics
  import opened Automata
  import opened Guards

  /** The label carried after entering v. */
  function Enter(g: Nfa, v: nat, c: nat): nat
    requires v < |g.vertices|
  {
    if g.vertices[v].lbl == NOLABEL then c else g.vertices[v].lbl
  }

  /** Best, for a walk that carries the label c at v. */
  ghost function Carry(g: Nfa, l: nat, v: nat, c: nat, w: seq<Byte>): (r: Option<nat>)
    requires Wired(g) && v < |g.vertices|
    decreases |w|, 1, 0
  {
    OrElse(CarryOf(g, l, g.out[v], c, w), if g.vertices[v].isMatch && c == l then Some(0) else None)
  }

  ghost function CarryVia(g: Nfa, l: nat, t: nat, c: nat, w: seq<Byte>): (r: Option<nat>)
    requires Wired(g) && t < |g.vertices|
    decreases |w|, 0, 0
  {
    if w != [] && Permits(g, t, w[0]) then Later(Carry(g, l, t, Enter(g, t, c), w[1..])) else None
  }

  ghost function CarryOf(g: Nfa, l: nat, ts: seq<nat>, c: nat, w: seq<Byte>): (r: Option<nat>)
    requires Wired(g) && Within(g, ts)
    decreases |w|, 0, |ts| + 1
  {
    if ts == [] then None else OrElse(CarryVia(g, l, ts[0], c, w), CarryOf(g, l, ts[1..], c, w))
  }

  /** A walk at v with label c cannot go wrong: it knows what it will match, or its label is still to come. */
  ghost predicate Ready(g: Nfa, open: set<nat>, seen: set<nat>, v: nat, c: nat) {
    && v in seen
    && ((v in open && c == NOLABEL) || forall l :: Reaches(g, v, l) ==> l == c)
  }

  lemma ReadyStep(g: Nfa, lab: seq<nat>, open: set<nat>, seen: set<nat>, v: nat, i: nat, c: nat)
    requires Unguarded(g) && Guarded(g, lab, open, seen) && Ready(g, open, seen, v, c)
    requires v < |g.out| && i < |g.out[v]| && g.out[v][i] < |g.vertices|
    ensures var t := g.out[v][i]; Ready(g, open, seen, t, Enter(Relabelled(g, lab), t, c))
  {
    var t := g.out[v][i];
    assert OutWithin(g, v, seen);
    forall l | Reaches(g, t, l) ensures Reaches(g, v, l) {
      ReachesStep(g, v, t, l);
    }
    hide Reaches;
  }

  lemma ReadyMatch(g: Nfa, lab: seq<nat>, open: set<nat>, seen: set<nat>, v: nat, l: nat, c: nat)
    requires Unguarded(g) && Guarded(g, lab, open, seen) && Ready(g, open, seen, v, c) && v < |g.vertices|
    ensures g.vertices[v].isMatch ==> (c == l <==> g.vertices[v].lbl == l)
  {
    if g.vertices[v].isMatch {
      ReachesSelf(g, v);
      if v in open && v != 0 {
        TornNoMatch(g, v);
      }
    }
  }

  lemma RelabelledWired(g: Nfa, lab: seq<nat>)
    requires Wired(g) && |lab| == |g.vertices|
    ensures Wired(Relabelled(g, lab))
  {
  }

  /** Carrying the guard labels prefers the same matches as looking at the match vertex. */
  lemma {:induction false} CarryAgrees(g: Nfa, lab: seq<nat>, open: set<nat>, seen: set<nat>, l: nat, v: nat, c: nat, w: seq<Byte>)
    requires Unguarded(g) && Guarded(g, lab, open, seen) && Ready(g, open, seen, v, c) && v < |g.vertices|
    ensures Wired(Relabelled(g, lab)) && Carry(Relabelled(g, lab), l, v, c, w) == Best(g, l, v, w)
    decreases |w|, |g.out| + 1, 0
  {
    var r := Relabelled(g, lab);
    RelabelledWired(g, lab);
    assert |g.out| == |g.vertices| && r.out == g.out && r.vertices[v].isMatch == g.vertices[v].isMatch;
    assert g.out[v][0..] == g.out[v];
    CarryOfAgrees(g, lab, open, seen, l, v, c, w, 0);
    ReadyMatch(g, lab, open, seen, v, l, c);
  }

  lemma {:induction false} CarryOfAgrees(g: Nfa, lab: seq<nat>, open: set<nat>, seen: set<nat>, l: nat, v: nat, c: nat, w: seq<Byte>, i: nat)
    requires Unguarded(g) && Guarded(g, lab, open, seen) && Ready(g, open, seen, v, c)
    requires v < |g.vertices| == |g.out| && i <= |g.out[v]| && Within(g, g.out[v][i..])
    ensures Wired(Relabelled(g, lab)) && Within(Relabelled(g, lab), g.out[v][i..])
    ensures CarryOf(Relabelled(g, lab), l, g.out[v][i..], c, w) == BestOf(g, l, g.out[v][i..], w)
    decreases |w|, 0, |g.out[v]| - i
  {
    var r := Relabelled(g, lab);
    RelabelledWired(g, lab);
    if i < |g.out[v]| {
      var ts := g.out[v][i..];
      assert ts[1..] == g.out[v][i + 1..] && ts[0] == g.out[v][i];
      CarryOfAgrees(g, lab, open, seen, l, v, c, w, i + 1);
      var t := g.out[v][i];
      assert r.vertices[t].trans == g.vertices[t].trans;
      if w != [] && Permits(g, t, w[0]) {
        ReadyStep(g, lab, open, seen, v, i, c);
        CarryAgrees(g, lab, open, seen, l, t, Enter(r, t, c), w[1..]);
      }
    }
  }

  /** labelGuardStates keeps the preferred match of every label. */
  lemma GuardsKeepPreference(g: Nfa, lab: seq<nat>, open: set<nat>, seen: set<nat>, l: nat, w: seq<Byte>)
    requires Unguarded(g) && Guarded(g, lab, open, seen)
    ensures Wired(Relabelled(g, lab)) && Carry(Relabelled(g, lab), l, 0, NOLABEL, w) == Best(g, l, 0, w)
  {
    CarryAgrees(g, lab, open, seen, l, 0, NOLABEL, w);
  }
}
