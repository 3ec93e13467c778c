/**
 What a compiled program does instead of walking the automaton: a table entry of 0
 stands for "no transition", but 0 is also where the only child of the initial vertex
 is written. A byte whose only successor is passed over for that child is lost
 (src/lib/compiler.cpp:27-38, src/lib/compiler.cpp:78-85, src/lib/vm.cpp:196-206).
 */
module Losses {
  import opened Basics
  import opened Automata
  import opened Sequences
  import opened Subsets
  import opened Layouts
  import opened Compiled
  import opened Guards
  import opened Carrying

  /** The landing of t is the address of the only child of the initial vertex. */
  predicate Lost(g: Nfa, t: nat)
    requires Wired(g) && t < |g.vertices|
  {
    |g.out[0]| == 1 && Shortcut(g, t) && g.out[t][0] == g.out[0][0]
  }

  /** The table of v turns x away, although a successor permits it. */
  predicate Loses(g: Nfa, v: nat, x: Byte)
    requires Wired(g) && v < |g.out|
  {
    UsesTable(g, v) && |Pivot(g, v)[x]| == 1 && Pivot(g, v)[x][0] < |g.vertices| && Lost(g, Pivot(g, v)[x][0])
  }

  ghost predicate Lossless(g: Nfa)
    requires Wired(g)
  {
    forall v: nat, x: Byte :: v < |g.out| ==> !Loses(g, v, x)
  }

  /** Two edges from the initial vertex are enough. */
  lemma ManyStartsLoseNothing(g: Nfa)
    requires Wired(g) && |g.out[0]| != 1
    ensures Lossless(g)
  {
  }

  // ----- walking without the lost bytes -----

  /** Carry, but that no successor is tried where the table loses the byte. */
  ghost function Ran(g: Nfa, l: nat, v: nat, c: nat, w: seq<Byte>): (r: Option<nat>)
    requires Wired(g) && v < |g.vertices|
    decreases |w|, 1, 0
  {
    OrElse(if w != [] && Loses(g, v, w[0]) then None else RanOf(g, l, g.out[v], c, w),
           if g.vertices[v].isMatch && c == l then Some(0) else None)
  }

  ghost function RanVia(g: Nfa, l: nat, t: nat, c: nat, w: seq<Byte>): (r: Option<nat>)
    requires Wired(g) && t < |g.vertices|
    decreases |w|, 0, 0
  {
    if w != [] && Permits(g, t, w[0]) then Later(Ran(g, l, t, Enter(g, t, c), w[1..])) else None
  }

  ghost function RanOf(g: Nfa, l: nat, ts: seq<nat>, c: nat, w: seq<Byte>): (r: Option<nat>)
    requires Wired(g) && Within(g, ts)
    decreases |w|, 0, |ts| + 1
  {
    if ts == [] then None else OrElse(RanVia(g, l, ts[0], c, w), RanOf(g, l, ts[1..], c, w))
  }

  /** Where nothing is lost, both walks prefer the same. */
  lemma {:induction false} RanIsCarry(g: Nfa, l: nat, v: nat, c: nat, w: seq<Byte>)
    requires Wired(g) && Lossless(g) && v < |g.vertices|
    ensures Ran(g, l, v, c, w) == Carry(g, l, v, c, w)
    decreases |w|, 1, 0
  {
    assert w != [] ==> !Loses(g, v, w[0]);
    RanOfIsCarryOf(g, l, g.out[v], c, w);
  }

  lemma {:induction false} RanOfIsCarryOf(g: Nfa, l: nat, ts: seq<nat>, c: nat, w: seq<Byte>)
    requires Wired(g) && Lossless(g) && Within(g, ts)
    ensures RanOf(g, l, ts, c, w) == CarryOf(g, l, ts, c, w)
    decreases |w|, 0, |ts| + 1
  {
    hide Lossless;
    if ts != [] {
      if w != [] && Permits(g, ts[0], w[0]) {
        RanIsCarry(g, l, ts[0], Enter(g, ts[0], c), w[1..]);
      }
      RanOfIsCarryOf(g, l, ts[1..], c, w);
    }
  }

  // ----- a loss shows -----

  /** Some path leads from v to a match. */
  ghost predicate Leads(g: Nfa, v: nat) {
    exists p :: LeadsOn(g, p) && p[0] == v
  }

  ghost predicate LeadsOn(g: Nfa, p: seq<nat>) {
    Path(g, p) && p[|p| - 1] < |g.vertices| && g.vertices[p[|p| - 1]].isMatch
  }

  /** What can be asked of every automaton that is compiled. */
  ghost predicate Fruitful(g: Nfa)
    requires Wired(g)
  {
    && (forall v: nat :: v < |g.vertices| ==> Leads(g, v))
    && (forall v: nat :: 0 < v < |g.vertices| ==> SomeByte(g.vertices[v].trans))
    && g.ins[0] == [] && Matched(g)
  }

  lemma {:induction false} CarryOfSome(g: Nfa, l: nat, ts: seq<nat>, t: nat, c: nat, w: seq<Byte>)
    requires Wired(g) && Within(g, ts) && t in ts && t < |g.vertices| && CarryVia(g, l, t, c, w).Some?
    ensures CarryOf(g, l, ts, c, w).Some?
    decreases |ts|
  {
    if ts[0] != t {
      CarryOfSome(g, l, ts[1..], t, c, w);
    }
  }

  lemma {:induction false} CarryOfReads(g: Nfa, l: nat, ts: seq<nat>, c: nat, w: seq<Byte>)
    requires Wired(g) && Within(g, ts)
    ensures CarryOf(g, l, ts, c, w) != Some(0)
    decreases |ts|
  {
    if ts != [] {
      CarryOfReads(g, l, ts[1..], c, w);
    }
  }

  lemma NeverBack(g: Nfa, v: nat, t: nat)
    requires Wired(g) && Fruitful(g) && v < |g.out| && t in g.out[v]
    ensures 0 < t < |g.vertices| && SomeByte(g.vertices[t].trans)
  {
    hide Leads, SomeByte;
    assert v !in g.ins[0];
    var i :| 0 <= i < |g.out[v]| && g.out[v][i] == t;
  }

  /** Along a path to a match, a walk with any label finds a match under some label. */
  lemma {:induction false} PathIsCarried(g: Nfa, p: seq<nat>, c: nat) returns (l: nat, w: seq<Byte>)
    requires Wired(g) && Fruitful(g) && LeadsOn(g, p)
    ensures p[0] < |g.vertices| && Carry(g, l, p[0], c, w).Some?
    decreases |p|
  {
    if |p| == 1 {
      l, w := c, [];
    } else {
      var t := p[1];
      assert p[0] < |g.out| && t in g.out[p[0]];
      NeverBack(g, p[0], t);
      var x: Byte :| g.vertices[t].trans.Permits(x);
      assert p[1..][|p[1..]| - 1] == p[|p| - 1];
      var u;
      l, u := PathIsCarried(g, p[1..], Enter(g, t, c));
      w := [x] + u;
      assert w[1..] == u;
      assert CarryVia(g, l, t, c, w).Some?;
      CarryOfSome(g, l, g.out[p[0]], t, c, w);
    }
  }

  /** Where a byte is lost, some input that begins with it has a match that is lost with it. */
  lemma LossShows(g: Nfa, v: nat, x: Byte, c: nat) returns (l: nat, w: seq<Byte>)
    requires Wired(g) && Fruitful(g) && v < |g.out| && Loses(g, v, x)
    ensures w != [] && w[0] == x && v < |g.vertices| && Carry(g, l, v, c, w) != Ran(g, l, v, c, w)
  {
    var t := LostAt(g, v, x);
    hide *;
    FruitfulUse(g, t);
    var p :| LeadsOn(g, p) && p[0] == t;
    var u;
    l, u := PathIsCarried(g, p, Enter(g, t, c));
    w := [x] + u;
    assert w[1..] == u;
    ViaSome(g, l, t, c, w);
    CarryOfSome(g, l, g.out[v], t, c, w);
    CarryOfReads(g, l, g.out[v], c, w);
    Differ(g, l, v, c, w);
  }

  lemma LostAt(g: Nfa, v: nat, x: Byte) returns (t: nat)
    requires Wired(g) && v < |g.out| && Loses(g, v, x)
    ensures t in g.out[v] && t < |g.vertices| && Permits(g, t, x) && Within(g, g.out[v]) && v < |g.vertices|
  {
    t := Pivot(g, v)[x][0];
    assert t in Dedup(Via(g, g.out[v], x));
  }

  lemma FruitfulUse(g: Nfa, v: nat)
    requires Wired(g) && Fruitful(g) && v < |g.vertices|
    ensures exists p :: LeadsOn(g, p) && p[0] == v
  {
    assert Leads(g, v);
  }

  lemma ViaSome(g: Nfa, l: nat, t: nat, c: nat, w: seq<Byte>)
    requires Wired(g) && t < |g.vertices| && w != [] && Permits(g, t, w[0]) && Carry(g, l, t, Enter(g, t, c), w[1..]).Some?
    ensures CarryVia(g, l, t, c, w).Some?
  {
  }

  lemma Differ(g: Nfa, l: nat, v: nat, c: nat, w: seq<Byte>)
    requires Wired(g) && v < |g.vertices| && v < |g.out| && Within(g, g.out[v]) && w != [] && Loses(g, v, w[0])
    requires CarryOf(g, l, g.out[v], c, w).Some? && CarryOf(g, l, g.out[v], c, w) != Some(0)
    ensures Carry(g, l, v, c, w) != Ran(g, l, v, c, w)
  {
    hide Loses, CarryOf;
  }

  /** Both walks agree everywhere exactly if no table loses a byte. */
  lemma AgreeExactly(g: Nfa)
    requires Wired(g) && Fruitful(g)
    ensures (forall l: nat, v: nat, c: nat, w: seq<Byte> :: v < |g.vertices| ==> Ran(g, l, v, c, w) == Carry(g, l, v, c, w))
       <==> Lossless(g)
  {
    if Lossless(g) {
      forall l: nat, v: nat, c: nat, w: seq<Byte> | v < |g.vertices| ensures Ran(g, l, v, c, w) == Carry(g, l, v, c, w) {
        RanIsCarry(g, l, v, c, w);
      }
    } else {
      var v: nat, x: Byte :| v < |g.out| && Loses(g, v, x);
      var l, w := LossShows(g, v, x, 0);
    }
  }
}
