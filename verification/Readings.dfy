/** Reading strings from the initial vertex of an automaton, backwards: the same languages as Automata. */
module Readings {
  import opened Basics
  import opened Automata

  /** Some path reads u from the initial vertex to v. */
  ghost predicate Reads(g: Nfa, u: seq<Byte>, v: nat)
    requires Wired(g)
    decreases |u|
  {
    if u == [] then v == 0
    else exists h: nat :: h < |g.out| && v in g.out[h] && Permits(g, v, u[|u| - 1]) && Reads(g, u[..|u| - 1], h)
  }

  /** Some path reads u from the initial vertex to a match vertex of label l. */
  ghost predicate Spells(g: Nfa, l: nat, u: seq<Byte>)
    requires Wired(g)
  {
    exists v: nat :: v < |g.vertices| && Reads(g, u, v) && Accepting(g, l, v)
  }

  /** Reading a from the initial vertex and being accepted from there with b. */
  lemma {:induction false} ReadsThenAccepts(g: Nfa, l: nat, a: seq<Byte>, b: seq<Byte>, v: nat)
    requires Wired(g) && v < |g.vertices| && Reads(g, a, v) && Accepts(g, l, v, b)
    ensures Spells(g, l, a + b)
    decreases |b|
  {
    if b == [] {
      assert a + b == a;
    } else {
      var i: nat :| i < |g.out[v]| && Permits(g, g.out[v][i], b[0]) && Accepts(g, l, g.out[v][i], b[1..]);
      assert (a + [b[0]])[..|a|] == a && g.out[v][i] in g.out[v];
      assert Reads(g, a + [b[0]], g.out[v][i]);
      ReadsThenAccepts(g, l, a + [b[0]], b[1..], g.out[v][i]);
      assert a + [b[0]] + b[1..] == a + b;
    }
  }

  lemma {:induction false} ReadThenAccepted(g: Nfa, l: nat, a: seq<Byte>, b: seq<Byte>, v: nat)
    requires Wired(g) && v < |g.vertices| && Reads(g, a, v) && Accepts(g, l, v, b)
    ensures Accepts(g, l, 0, a + b)
    decreases |a|
  {
    if a == [] {
      assert a + b == b;
    } else {
      var front, x := a[..|a| - 1], a[|a| - 1];
      var h: nat :| h < |g.out| && v in g.out[h] && Permits(g, v, x) && Reads(g, front, h);
      var i: nat :| i < |g.out[h]| && g.out[h][i] == v;
      assert ([x] + b)[1..] == b;
      assert Accepts(g, l, h, [x] + b);
      ReadThenAccepted(g, l, front, [x] + b, h);
      assert front + ([x] + b) == a + b;
    }
  }

  /** The language of a label, read forwards or backwards. */
  lemma SpellsIsAccepts(g: Nfa, l: nat, u: seq<Byte>)
    requires Wired(g)
    ensures Spells(g, l, u) <==> Accepts(g, l, 0, u)
  {
    if Accepts(g, l, 0, u) {
      ReadsThenAccepts(g, l, [], u, 0);
      assert [] + u == u;
    }
    if Spells(g, l, u) {
      var v: nat :| v < |g.vertices| && Reads(g, u, v) && Accepting(g, l, v);
      ReadThenAccepted(g, l, u, [], v);
      assert u + [] == u;
    }
  }
}
