/**
 What a determinized automaton is to its source, and what follows: the same
 ordered frontier after every string and the same preferred matches.
 The construction itself is in Determinizing.
 */
module Subsets {
  import opened Basics
  import opened Automata
  import opened Sequences

  // ----- moving a list of vertices by one byte -----

  /** Those of ts that permit x, in order. */
  function Via(g: Nfa, ts: seq<nat>, x: Byte): (r: seq<nat>)
    ensures forall t :: t in r <==> t in ts && t < |g.vertices| && Permits(g, t, x)
    decreases |ts|
  {
    if ts == [] then []
    else (if ts[0] < |g.vertices| && Permits(g, ts[0], x) then [ts[0]] else []) + Via(g, ts[1..], x)
  }

  lemma {:induction false} ViaSnoc(g: Nfa, ts: seq<nat>, t: nat, x: Byte)
    ensures Via(g, ts + [t], x) == Via(g, ts, x) + (if t < |g.vertices| && Permits(g, t, x) then [t] else [])
    decreases |ts|
  {
    if ts == [] {
      assert [t][1..] == [] && [] + [t] == [t];
    } else {
      assert (ts + [t])[0] == ts[0] && (ts + [t])[1..] == ts[1..] + [t];
      ViaSnoc(g, ts[1..], t, x);
    }
  }

  function Moves(g: Nfa, x: Byte): nat -> seq<nat> {
    (v: nat) => if v < |g.out| then Via(g, g.out[v], x) else []
  }

  /** Where the vertices of vs lead on x, in priority order and once each. */
  function Neighborhood(g: Nfa, vs: seq<nat>, x: Byte): seq<nat> {
    Dedup(FlatMap(Moves(g, x), vs))
  }

  /** The priority-ordered vertices that u leads to from the initial one. */
  function Frontier(g: Nfa, u: seq<Byte>): seq<nat>
    decreases |u|
  {
    if u == [] then [0] else Neighborhood(g, Frontier(g, u[..|u| - 1]), u[|u| - 1])
  }

  // ----- the preferred match from a list of vertices -----

  ghost function BestAmong(g: Nfa, l: nat, vs: seq<nat>, w: seq<Byte>): Option<nat>
    requires Wired(g) && Within(g, vs)
    decreases |vs|
  {
    if vs == [] then None else OrElse(Best(g, l, vs[0], w), BestAmong(g, l, vs[1..], w))
  }

  lemma {:induction false} BestAmongAppend(g: Nfa, l: nat, a: seq<nat>, b: seq<nat>, w: seq<Byte>)
    requires Wired(g) && Within(g, a) && Within(g, b)
    ensures Within(g, a + b)
    ensures BestAmong(g, l, a + b, w) == OrElse(BestAmong(g, l, a, w), BestAmong(g, l, b, w))
    decreases |a|
  {
    if a == [] {
      assert a + b == b;
    } else {
      assert (a + b)[0] == a[0] && (a + b)[1..] == a[1..] + b;
      BestAmongAppend(g, l, a[1..], b, w);
    }
  }

  lemma {:induction false} BestAmongSome(g: Nfa, l: nat, vs: seq<nat>, v: nat, w: seq<Byte>)
    requires Wired(g) && Within(g, vs) && v in vs && v < |g.vertices| && Best(g, l, v, w).Some?
    ensures BestAmong(g, l, vs, w).Some?
    decreases |vs|
  {
    if v != vs[0] {
      BestAmongSome(g, l, vs[1..], v, w);
    }
  }

  /** Later occurrences never matter. */
  lemma {:induction false} BestAmongDedup(g: Nfa, l: nat, vs: seq<nat>, w: seq<Byte>)
    requires Wired(g) && Within(g, vs)
    ensures Within(g, Dedup(vs)) && BestAmong(g, l, Dedup(vs), w) == BestAmong(g, l, vs, w)
    decreases |vs|
  {
    DedupWithin(g, vs);
    if vs != [] {
      var front, v := vs[..|vs| - 1], vs[|vs| - 1];
      assert vs == front + [v];
      BestAmongDedup(g, l, front, w);
      BestAmongAppend(g, l, front, [v], w);
      BestAmongAppend(g, l, Dedup(front), [v], w);
      assert BestAmong(g, l, [v], w) == Best(g, l, v, w);
      if v in front && Best(g, l, v, w).Some? {
        BestAmongSome(g, l, front, v, w);
      }
    }
  }

  lemma DedupWithin(g: Nfa, vs: seq<nat>)
    requires Within(g, vs)
    ensures Within(g, Dedup(vs))
  {
    forall i | 0 <= i < |Dedup(vs)| ensures Dedup(vs)[i] < |g.vertices| {
      assert Dedup(vs)[i] in vs;
    }
  }

  /** Trying edges is moving by the first byte and going on from there. */
  lemma {:induction false} BestOfVia(g: Nfa, l: nat, ts: seq<nat>, w: seq<Byte>)
    requires Wired(g) && Within(g, ts) && w != []
    ensures Within(g, Via(g, ts, w[0]))
    ensures BestOf(g, l, ts, w) == Later(BestAmong(g, l, Via(g, ts, w[0]), w[1..]))
    decreases |ts|
  {
    forall i | 0 <= i < |Via(g, ts, w[0])| ensures Via(g, ts, w[0])[i] < |g.vertices| {
      assert Via(g, ts, w[0])[i] in Via(g, ts, w[0]);
    }
    if ts != [] {
      BestOfVia(g, l, ts[1..], w);
      if Permits(g, ts[0], w[0]) {
        var r := Via(g, ts, w[0]);
        assert r[0] == ts[0] && r[1..] == Via(g, ts[1..], w[0]);
      } else {
        assert Via(g, ts, w[0]) == Via(g, ts[1..], w[0]);
      }
    }
  }

  lemma FlatMapWithin(g: Nfa, x: Byte, vs: seq<nat>)
    ensures Within(g, FlatMap(Moves(g, x), vs))
    decreases |vs|
  {
    if vs != [] {
      FlatMapWithin(g, x, vs[1..]);
      var a, b := Moves(g, x)(vs[0]), FlatMap(Moves(g, x), vs[1..]);
      forall i | 0 <= i < |a + b| ensures (a + b)[i] < |g.vertices| {
        if i < |a| {
          assert a[i] in a;
        } else {
          assert (a + b)[i] == b[i - |a|];
        }
      }
    }
  }

  ghost predicate NoneMatch(g: Nfa, vs: seq<nat>) {
    forall i :: 0 <= i < |vs| ==> vs[i] < |g.vertices| && !g.vertices[vs[i]].isMatch
  }

  /** From vertices none of which is a match, the preferred match goes on from where they lead. */
  lemma {:induction false} BestAmongMoves(g: Nfa, l: nat, vs: seq<nat>, w: seq<Byte>)
    requires Wired(g) && Within(g, vs) && NoneMatch(g, vs) && w != []
    ensures Within(g, FlatMap(Moves(g, w[0]), vs))
    ensures BestAmong(g, l, vs, w) == Later(BestAmong(g, l, FlatMap(Moves(g, w[0]), vs), w[1..]))
    decreases |vs|
  {
    FlatMapWithin(g, w[0], vs);
    if vs != [] {
      BestAmongMoves(g, l, vs[1..], w);
      BestOfVia(g, l, g.out[vs[0]], w);
      BestAmongAppend(g, l, Via(g, g.out[vs[0]], w[0]), FlatMap(Moves(g, w[0]), vs[1..]), w[1..]);
    }
  }

  lemma {:induction false} NoBytesNoBest(g: Nfa, l: nat, vs: seq<nat>)
    requires Wired(g) && Within(g, vs) && NoneMatch(g, vs)
    ensures BestAmong(g, l, vs, []) == None
    decreases |vs|
  {
    if vs != [] {
      NoBytesNoBest(g, l, vs[1..]);
      EdgesNeedBytes(g, l, g.out[vs[0]]);
    }
  }

  lemma {:induction false} EdgesNeedBytes(g: Nfa, l: nat, ts: seq<nat>)
    requires Wired(g) && Within(g, ts)
    ensures BestOf(g, l, ts, []) == None
    decreases |ts|
  {
    if ts != [] {
      EdgesNeedBytes(g, l, ts[1..]);
    }
  }

  // ----- a determinized automaton -----

  function ListOf(lists: seq<seq<nat>>): nat -> seq<nat> {
    (d: nat) => if d < |lists| then lists[d] else []
  }

  /** Vertex d stands for the given list: one match vertex, or any number of others. */
  ghost predicate StandsFor(src: Nfa, g: Nfa, d: nat, vs: seq<nat>)
    requires d < |g.vertices|
  {
    && vs != [] && Within(src, vs) && NoRepeats(vs)
    && if g.vertices[d].isMatch
       then |vs| == 1 && src.vertices[vs[0]].isMatch && src.vertices[vs[0]].lbl == g.vertices[d].lbl
       else NoneMatch(src, vs)
  }

  /** Of two neighbours in the list, one at least is a match. */
  ghost predicate Separated(g: Nfa, ts: seq<nat>) {
    forall i :: 0 <= i < |ts| - 1 && ts[i] < |g.vertices| && ts[i + 1] < |g.vertices| ==>
      g.vertices[ts[i]].isMatch || g.vertices[ts[i + 1]].isMatch
  }

  /** On byte x, the successors of d stand, one after the other, for where its list leads. */
  ghost predicate StepsTo(src: Nfa, g: Nfa, lists: seq<seq<nat>>, d: nat, x: Byte)
    requires d < |g.out| && d < |lists|
  {
    && FlatMap(ListOf(lists), Via(g, g.out[d], x)) == Neighborhood(src, lists[d], x)
    && Separated(g, Via(g, g.out[d], x))
  }

  ghost predicate Determinizes(src: Nfa, g: Nfa, lists: seq<seq<nat>>) {
    && Wired(src) && Wired(g)
    && |lists| == |g.vertices|
    && lists[0] == [0]
    && (forall d: nat :: d < |lists| ==> StandsFor(src, g, d, lists[d]))
    && (forall d: nat, x: Byte :: d < |lists| ==> StepsTo(src, g, lists, d, x))
  }

  /** One byte: flattening commutes with moving, up to later occurrences. */
  lemma SameFrontierStep(src: Nfa, g: Nfa, lists: seq<seq<nat>>, F: seq<nat>, x: Byte)
    requires forall d :: d in F ==> d < |lists| && d < |g.out| && StepsTo(src, g, lists, d, x)
    ensures Dedup(FlatMap(ListOf(lists), Neighborhood(g, F, x)))
         == Neighborhood(src, Dedup(FlatMap(ListOf(lists), F)), x)
  {
    var L, mg, ms := ListOf(lists), Moves(g, x), Moves(src, x);
    DedupFlatMap(L, FlatMap(mg, F));
    FlatMapTwice(mg, L, F);
    forall d | d in F ensures Then(mg, L)(d) == Dedup(Then(L, ms)(d)) {
      assert StepsTo(src, g, lists, d, x);
    }
    DedupPieces(Then(mg, L), Then(L, ms), F);
    FlatMapTwice(L, ms, F);
    DedupFlatMap(ms, FlatMap(L, F));
  }

  /** The lists of the ordered frontier, flattened and deduplicated, are the source's ordered frontier. */
  lemma {:induction false} SameFrontier(src: Nfa, g: Nfa, lists: seq<seq<nat>>, u: seq<Byte>)
    requires Determinizes(src, g, lists)
    ensures Dedup(FlatMap(ListOf(lists), Frontier(g, u))) == Frontier(src, u)
    decreases |u|
  {
    if u == [] {
      assert FlatMap(ListOf(lists), [0]) == lists[0] + FlatMap(ListOf(lists), [0][1..]);
      assert FlatMap(ListOf(lists), [0]) == [] + [0];
      DedupSnoc([], 0);
    } else {
      var front, x := u[..|u| - 1], u[|u| - 1];
      SameFrontier(src, g, lists, front);
      FrontierWithin(g, front);
      SameFrontierStep(src, g, lists, Frontier(g, front), x);
    }
  }

  lemma {:induction false} FrontierWithin(g: Nfa, u: seq<Byte>)
    requires Wired(g)
    ensures forall d :: d in Frontier(g, u) ==> d < |g.vertices|
    decreases |u|
  {
    if u != [] {
      var front, x := u[..|u| - 1], u[|u| - 1];
      FlatMapWithin(g, x, Frontier(g, front));
    }
  }

  /** BestAmong over the flattened lists, when each successor is worth what its list is worth. */
  lemma {:induction false} BestAmongLists(src: Nfa, g: Nfa, lists: seq<seq<nat>>, l: nat, ds: seq<nat>, w: seq<Byte>)
    requires Determinizes(src, g, lists) && Within(g, ds)
    requires forall d: nat :: d < |lists| ==> Best(g, l, d, w) == BestAmong(src, l, lists[d], w)
    ensures Within(src, FlatMap(ListOf(lists), ds))
    ensures BestAmong(g, l, ds, w) == BestAmong(src, l, FlatMap(ListOf(lists), ds), w)
    decreases |ds|
  {
    if ds != [] {
      var d := ds[0];
      assert d < |lists| && StandsFor(src, g, d, lists[d]);
      BestAmongLists(src, g, lists, l, ds[1..], w);
      BestAmongAppend(src, l, lists[d], FlatMap(ListOf(lists), ds[1..]), w);
    }
  }

  /** Every vertex prefers the match that its list prefers. */
  lemma {:induction false} SamePreference(src: Nfa, g: Nfa, lists: seq<seq<nat>>, l: nat, w: seq<Byte>)
    requires Determinizes(src, g, lists)
    ensures forall d: nat :: d < |lists| ==> Best(g, l, d, w) == BestAmong(src, l, lists[d], w)
    decreases |w|
  {
    if w != [] {
      SamePreference(src, g, lists, l, w[1..]);
    }
    forall d: nat | d < |lists| ensures Best(g, l, d, w) == BestAmong(src, l, lists[d], w) {
      assert StandsFor(src, g, d, lists[d]);
      if w == [] {
        NoEdgesUsed(src, g, lists, l, d);
      } else {
        EdgesPrefer(src, g, lists, l, d, w);
      }
    }
  }

  lemma NoEdgesUsed(src: Nfa, g: Nfa, lists: seq<seq<nat>>, l: nat, d: nat)
    requires Determinizes(src, g, lists) && d < |lists|
    ensures StandsFor(src, g, d, lists[d]) && Best(g, l, d, []) == BestAmong(src, l, lists[d], [])
  {
    var vs := lists[d];
    assert StandsFor(src, g, d, vs);
    EdgesNeedBytes(g, l, g.out[d]);
    if g.vertices[d].isMatch {
      EdgesNeedBytes(src, l, src.out[vs[0]]);
      assert vs[1..] == [];
    } else {
      NoBytesNoBest(src, l, vs);
    }
  }

  /** The edges of d are worth what the edges of its list are worth. */
  lemma EdgesMove(src: Nfa, g: Nfa, lists: seq<seq<nat>>, l: nat, d: nat, w: seq<Byte>)
    requires Determinizes(src, g, lists) && d < |lists| && w != []
    requires forall e: nat :: e < |lists| ==> Best(g, l, e, w[1..]) == BestAmong(src, l, lists[e], w[1..])
    ensures Within(src, FlatMap(Moves(src, w[0]), lists[d]))
    ensures BestOf(g, l, g.out[d], w) == Later(BestAmong(src, l, FlatMap(Moves(src, w[0]), lists[d]), w[1..]))
  {
    var x := w[0];
    assert StepsTo(src, g, lists, d, x);
    BestOfVia(g, l, g.out[d], w);
    BestAmongLists(src, g, lists, l, Via(g, g.out[d], x), w[1..]);
    FlatMapWithin(src, x, lists[d]);
    BestAmongDedup(src, l, FlatMap(Moves(src, x), lists[d]), w[1..]);
  }

  lemma EdgesPrefer(src: Nfa, g: Nfa, lists: seq<seq<nat>>, l: nat, d: nat, w: seq<Byte>)
    requires Determinizes(src, g, lists) && d < |lists| && w != []
    requires forall e: nat :: e < |lists| ==> Best(g, l, e, w[1..]) == BestAmong(src, l, lists[e], w[1..])
    ensures StandsFor(src, g, d, lists[d]) && Best(g, l, d, w) == BestAmong(src, l, lists[d], w)
  {
    var vs := lists[d];
    assert StandsFor(src, g, d, vs);
    EdgesMove(src, g, lists, l, d, w);
    hide Determinizes, BestOf;
    if g.vertices[d].isMatch {
      OneVertexMoves(src, l, vs, w);
    } else {
      BestAmongMoves(src, l, vs, w);
    }
  }

  lemma OneVertexMoves(g: Nfa, l: nat, vs: seq<nat>, w: seq<Byte>)
    requires Wired(g) && Within(g, vs) && |vs| == 1 && w != []
    ensures Within(g, FlatMap(Moves(g, w[0]), vs))
    ensures BestAmong(g, l, vs, w)
         == OrElse(Later(BestAmong(g, l, FlatMap(Moves(g, w[0]), vs), w[1..])), if Accepting(g, l, vs[0]) then Some(0) else None)
  {
    assert vs == [vs[0]] && vs[1..] == [];
    var moved := FlatMap(Moves(g, w[0]), vs);
    assert FlatMap(Moves(g, w[0]), []) == [];
    assert moved == Via(g, g.out[vs[0]], w[0]);
    hide FlatMap, Via;
    BestOfVia(g, l, g.out[vs[0]], w);
    assert BestAmong(g, l, vs, w) == Best(g, l, vs[0], w);
  }

  /** In particular, from the initial vertex. */
  lemma SamePreferredMatch(src: Nfa, g: Nfa, lists: seq<seq<nat>>, l: nat, w: seq<Byte>)
    requires Determinizes(src, g, lists)
    ensures Best(g, l, 0, w) == Best(src, l, 0, w)
  {
    SamePreference(src, g, lists, l, w);
    assert lists[0][1..] == [];
    assert BestAmong(src, l, lists[0], w) == Best(src, l, 0, w);
  }
}
