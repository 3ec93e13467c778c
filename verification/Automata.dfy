/**
 Glushkov automata with ordered edges (include/automata.h) and what they mean:
 the language of each label, and the match that trying the edges in order prefers.
 */
module Automata {
  import opened Basics

  /** The classes of include/states.h; only the initial vertex has no transition. */
  datatype Transition =
    | NoTransition
    | ByteState(b: Byte)
    | EitherState(one: Byte, two: Byte)
    | RangeState(first: Byte, last: Byte)
    | ByteSetState(allowed: set<Byte>)
  {
    predicate Permits(x: Byte) {
      match this
      case NoTransition => false
      case ByteState(b) => x == b
      case EitherState(one, two) => x == one || x == two
      case RangeState(first, last) => first <= x <= last
      case ByteSetState(allowed) => x in allowed
    }
  }

  ghost predicate SomeByte(t: Transition) {
    exists x: Byte :: t.Permits(x)
  }

  const NOLABEL: nat := 0xFFFF_FFFF

  datatype Vertex = Vertex(trans: Transition, isMatch: bool, lbl: nat)

  /** A graph: the vertices, and for each the tails of its out edges and the heads of its in edges, in order. */
  datatype Nfa = Nfa(vertices: seq<Vertex>, out: seq<seq<nat>>, ins: seq<seq<nat>>)

  ghost predicate Wired(g: Nfa) {
    && |g.vertices| == |g.out| == |g.ins|
    && 0 < |g.vertices|
    && (forall v: nat, i: nat :: v < |g.out| && i < |g.out[v]| ==> g.out[v][i] < |g.vertices|)
    && (forall v: nat, i: nat :: v < |g.ins| && i < |g.ins[v]| ==> g.ins[v][i] < |g.vertices|)
  }

  /** The out edges and the in edges are the same edges. */
  ghost predicate Matched(g: Nfa)
    requires Wired(g)
  {
    forall h: nat, t: nat :: h < |g.out| && t < |g.ins| ==> (t in g.out[h] <==> h in g.ins[t])
  }

  predicate Permits(g: Nfa, v: nat, x: Byte)
    requires v < |g.vertices|
  {
    g.vertices[v].trans.Permits(x)
  }

  // ----- reachability -----

  ghost predicate ClosedUnder(g: Nfa, s: set<nat>)
    requires Wired(g)
  {
    forall v: nat, i: nat :: v in s && v < |g.out| && i < |g.out[v]| ==> g.out[v][i] in s
  }

  /** Every vertex can be reached from the initial one. */
  ghost predicate AllReachable(g: Nfa)
    requires Wired(g)
  {
    forall s: set<nat> :: ClosedUnder(g, s) && 0 in s ==> forall v: nat :: v < |g.vertices| ==> v in s
  }

  ghost predicate Path(g: Nfa, p: seq<nat>) {
    && p != []
    && (forall i :: 0 <= i < |p| ==> p[i] < |g.out|)
    && (forall i :: 0 <= i < |p| - 1 ==> p[i + 1] in g.out[p[i]])
  }

  // ----- language -----

  predicate Accepting(g: Nfa, l: nat, v: nat)
    requires v < |g.vertices|
  {
    g.vertices[v].isMatch && g.vertices[v].lbl == l
  }

  /** Some path from v reads u and ends at a match vertex of label l. */
  ghost predicate Accepts(g: Nfa, l: nat, v: nat, u: seq<Byte>)
    requires Wired(g) && v < |g.vertices|
    decreases |u|
  {
    if u == [] then Accepting(g, l, v)
    else exists i: nat :: i < |g.out[v]| && Permits(g, g.out[v][i], u[0]) && Accepts(g, l, g.out[v][i], u[1..])
  }

  // ----- preference -----

  function Later(r: Option<nat>): Option<nat> {
    if r.Some? then Some(r.value + 1) else None
  }

  /**
   How many bytes of w the preferred match of label l from v reads: try the out
   edges in order, and stop at a match vertex only if none of them leads to a match.
   */
  ghost function Best(g: Nfa, l: nat, v: nat, w: seq<Byte>): (r: Option<nat>)
    requires Wired(g) && v < |g.vertices|
    decreases |w|, 1, 0
  {
    OrElse(BestOf(g, l, g.out[v], w), if Accepting(g, l, v) then Some(0) else None)
  }

  ghost predicate Within(g: Nfa, ts: seq<nat>) {
    forall i :: 0 <= i < |ts| ==> ts[i] < |g.vertices|
  }

  ghost function BestVia(g: Nfa, l: nat, t: nat, w: seq<Byte>): (r: Option<nat>)
    requires Wired(g) && t < |g.vertices|
    decreases |w|, 0, 0
  {
    if w != [] && Permits(g, t, w[0]) then Later(Best(g, l, t, w[1..])) else None
  }

  /** The same, over the given successors in order. */
  ghost function BestOf(g: Nfa, l: nat, ts: seq<nat>, w: seq<Byte>): (r: Option<nat>)
    requires Wired(g) && Within(g, ts)
    decreases |w|, 0, |ts| + 1
  {
    if ts == [] then None else OrElse(BestVia(g, l, ts[0], w), BestOf(g, l, ts[1..], w))
  }

  lemma {:induction false} BestOfAppend(g: Nfa, l: nat, a: seq<nat>, b: seq<nat>, w: seq<Byte>)
    requires Wired(g) && Within(g, a) && Within(g, b)
    ensures Within(g, a + b) && BestOf(g, l, a + b, w) == OrElse(BestOf(g, l, a, w), BestOf(g, l, b, w))
    decreases |a|
  {
    if a == [] {
      assert a + b == b;
    } else {
      assert (a + b)[0] == a[0] && (a + b)[1..] == a[1..] + b;
      BestOfAppend(g, l, a[1..], b, w);
    }
  }

  // ----- preference against language -----

  /** The preferred match reads an accepted string, and there is one whenever some beginning of w is accepted. */
  lemma {:induction false} BestIsAccepted(g: Nfa, l: nat, v: nat, w: seq<Byte>)
    requires Wired(g) && v < |g.vertices|
    ensures var r := Best(g, l, v, w); r.Some? ==> r.value <= |w| && Accepts(g, l, v, w[..r.value])
    decreases |w|
  {
    var r := BestOf(g, l, g.out[v], w);
    if r.Some? {
      var i := BestOfPicks(g, l, g.out[v], w);
      var t := g.out[v][i];
      BestIsAccepted(g, l, t, w[1..]);
      assert w[..r.value][1..] == w[1..][..r.value - 1];
    }
  }

  lemma {:induction false} BestOfPicks(g: Nfa, l: nat, ts: seq<nat>, w: seq<Byte>) returns (i: nat)
    requires Wired(g) && Within(g, ts) && BestOf(g, l, ts, w).Some?
    ensures i < |ts| && BestVia(g, l, ts[i], w) == BestOf(g, l, ts, w)
    decreases |ts|
  {
    if BestVia(g, l, ts[0], w).Some? {
      i := 0;
    } else {
      var k := BestOfPicks(g, l, ts[1..], w);
      i := k + 1;
    }
  }

  lemma {:induction false} BestOfSome(g: Nfa, l: nat, ts: seq<nat>, w: seq<Byte>, i: nat)
    requires Wired(g) && Within(g, ts) && i < |ts| && BestVia(g, l, ts[i], w).Some?
    ensures BestOf(g, l, ts, w).Some?
    decreases i
  {
    if i > 0 {
      BestOfSome(g, l, ts[1..], w, i - 1);
    }
  }

  lemma {:induction false} AcceptedIsFound(g: Nfa, l: nat, v: nat, w: seq<Byte>, n: nat)
    requires Wired(g) && v < |g.vertices| && n <= |w| && Accepts(g, l, v, w[..n])
    ensures Best(g, l, v, w).Some?
    decreases |w|
  {
    if n > 0 {
      var u := w[..n];
      var i: nat :| i < |g.out[v]| && Permits(g, g.out[v][i], u[0]) && Accepts(g, l, g.out[v][i], u[1..]);
      assert u[1..] == w[1..][..n - 1];
      AcceptedIsFound(g, l, g.out[v][i], w[1..], n - 1);
      BestOfSome(g, l, g.out[v], w, i);
    }
  }
}
