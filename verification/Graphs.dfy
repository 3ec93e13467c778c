/**
 The graph store (include/graph.h): edges are numbered, and every vertex lists
 the numbers of its in edges and of its out edges in order. Edge numbers stay
 0, 1, 2, ... when an edge is removed, so later ones are renumbered in place.
 Users see the automaton that the store stands for, Value().
 */
module Graphs {
  import opened Basics
  import opened Automata

  // ----- lists of edge numbers -----

  /** The first place of x in s; |s| if there is none. */
  function IndexOf(s: seq<nat>, x: nat): (i: nat)
    ensures i <= |s|
    ensures i < |s| ==> s[i] == x
    ensures forall k :: 0 <= k < i ==> s[k] != x
    ensures x in s <==> i < |s|
  {
    if s == [] then 0 else if s[0] == x then 0 else 1 + IndexOf(s[1..], x)
  }

  /** Assignment through the iterator that find returns. */
  function Put(s: seq<nat>, i: nat, x: nat): seq<nat>
    requires i < |s|
  {
    s[i := x]
  }

  function Without<T>(s: seq<T>, i: nat): (r: seq<T>)
    requires i < |s|
    ensures |r| == |s| - 1
    ensures forall k :: 0 <= k < |r| ==> r[k] == (if k < i then s[k] else s[k + 1])
  {
    s[..i] + s[i + 1..]
  }

  /** std::vector::insert at i, or at the end if i is past it. */
  function Inserted<T>(s: seq<T>, i: nat, x: T): (r: seq<T>)
    ensures |r| == |s| + 1
    ensures r[Min(i, |s|)] == x
    ensures forall k :: 0 <= k < |s| ==> r[if k < i then k else k + 1] == s[k]
    ensures forall k :: 0 <= k < |r| ==>
              r[k] == (if k < Min(i, |s|) then s[k] else if k == Min(i, |s|) then x else s[k - 1])
  {
    if i < |s| then s[..i] + [x] + s[i..] else s + [x]
  }

  ghost predicate Distinct(s: seq<nat>) {
    forall i, j :: 0 <= i < j < |s| ==> s[i] != s[j]
  }

  /** The list holds, once each and no others, the edges whose end is v. */
  ghost predicate Lists(es: seq<nat>, ends: seq<nat>, v: nat) {
    && Distinct(es)
    && (forall i :: 0 <= i < |es| ==> es[i] < |ends| && ends[es[i]] == v)
    && (forall e: nat :: e < |ends| && ends[e] == v ==> e in es)
  }

  ghost predicate InRange(es: seq<nat>, n: nat) {
    forall i :: 0 <= i < |es| ==> es[i] < n
  }

  /** The ends of the listed edges. */
  function Pick(ends: seq<nat>, es: seq<nat>): (r: seq<nat>)
    requires InRange(es, |ends|)
    ensures |r| == |es| && forall i :: 0 <= i < |es| ==> r[i] == ends[es[i]]
  {
    seq(|es|, i requires 0 <= i < |es| => ends[es[i]])
  }

  lemma InsertedIn(es: seq<nat>, i: nat, x: nat, y: nat)
    ensures y in Inserted(es, i, x) <==> y == x || y in es
  {
    var r := Inserted(es, i, x);
    if y in es {
      var k :| 0 <= k < |es| && es[k] == y;
      assert r[if k < i then k else k + 1] == y;
    }
    assert r[Min(i, |es|)] == x;
  }

  lemma InsertedDistinct(es: seq<nat>, i: nat, x: nat)
    requires Distinct(es) && x !in es
    ensures Distinct(Inserted(es, i, x))
  {
  }

  /** A new edge in its list. */
  lemma InsertedLists(es: seq<nat>, ends: seq<nat>, i: nat, v: nat)
    requires Lists(es, ends, v)
    ensures Lists(Inserted(es, i, |ends|), ends + [v], v)
  {
    InsertedDistinct(es, i, |ends|);
    var r := Inserted(es, i, |ends|);
    forall e: nat | e < |ends + [v]| && (ends + [v])[e] == v ensures e in r {
      InsertedIn(es, i, |ends|, e);
    }
  }

  lemma OtherLists(es: seq<nat>, ends: seq<nat>, v: nat, w: nat)
    requires Lists(es, ends, v) && v != w
    ensures Lists(es, ends + [w], v)
  {
  }

  lemma InsertedPick(es: seq<nat>, ends: seq<nat>, i: nat, x: nat)
    requires InRange(es, |ends|)
    ensures InRange(Inserted(es, i, |ends|), |ends| + 1)
    ensures Pick(ends + [x], Inserted(es, i, |ends|)) == Inserted(Pick(ends, es), i, x)
  {
    var a, p, more := Inserted(es, i, |ends|), Pick(ends, es), ends + [x];
    var b := Inserted(p, i, x);
    var at := Min(i, |es|);
    forall k | 0 <= k < |a| ensures a[k] < |more| && more[a[k]] == b[k] {
      if k < at {
        assert a[k] == es[k] && b[k] == p[k];
      } else if k > at {
        assert a[k] == es[k - 1] && b[k] == p[k - 1];
      }
    }
  }

  // ----- renumbering -----

  /** The edge number x after edge ed is gone and the edges before the k-th have been renumbered. */
  function Renumbered(x: nat, ed: nat, k: nat): nat {
    if ed < x < k then x - 1 else x
  }

  function RenumberedAll(s: seq<nat>, ed: nat, k: nat): (r: seq<nat>)
    ensures |r| == |s|
    ensures forall i :: 0 <= i < |s| ==> r[i] == Renumbered(s[i], ed, k)
  {
    seq(|s|, i requires 0 <= i < |s| => Renumbered(s[i], ed, k))
  }

  /** One step of the loop: the entry for edge k, found in the list, is decremented. */
  lemma RenumberStep(es: seq<nat>, ed: nat, k: nat)
    requires Distinct(es) && ed < k && ed !in es
    ensures var r := RenumberedAll(es, ed, k);
            var i := IndexOf(r, k);
            && (k in es <==> i < |r|)
            && RenumberedAll(es, ed, k + 1) == (if i < |r| then r[i := k - 1] else r)
  {
    var r := RenumberedAll(es, ed, k);
    var i := IndexOf(r, k);
    if k in es {
      var j :| 0 <= j < |es| && es[j] == k;
      assert r[j] == k;
    }
  }

  /** When every edge has been renumbered, the lists are those of the shorter list of edges. */
  lemma RenumberedLists(es: seq<nat>, ends: seq<nat>, ed: nat, v: nat)
    requires ed < |ends| && Distinct(es) && ed !in es
    requires forall i :: 0 <= i < |es| ==> es[i] < |ends| && ends[es[i]] == v
    requires forall e: nat :: e < |ends| && ends[e] == v && e != ed ==> e in es
    ensures Lists(RenumberedAll(es, ed, |ends|), Without(ends, ed), v)
  {
    var r := RenumberedAll(es, ed, |ends|);
    var ends' := Without(ends, ed);
    forall e: nat | e < |ends'| && ends'[e] == v ensures e in r {
      var x := if e < ed then e else e + 1;
      assert x in es;
      var j :| 0 <= j < |es| && es[j] == x;
      assert r[j] == e;
    }
  }

  lemma RenumberedPick(es: seq<nat>, ends: seq<nat>, ed: nat)
    requires ed < |ends| && ed !in es && InRange(es, |ends|)
    ensures InRange(RenumberedAll(es, ed, |ends|), |ends| - 1)
    ensures Pick(Without(ends, ed), RenumberedAll(es, ed, |ends|)) == Pick(ends, es)
  {
  }

  // ----- one side of the store: the out lists, or the in lists -----

  ghost predicate SideOk(lists: seq<seq<nat>>, ends: seq<nat>) {
    forall v :: 0 <= v < |lists| ==> Lists(lists[v], ends, v)
  }

  ghost predicate AllInRange(lists: seq<seq<nat>>, n: nat) {
    forall v :: 0 <= v < |lists| ==> InRange(lists[v], n)
  }

  function PickAll(ends: seq<nat>, lists: seq<seq<nat>>): (r: seq<seq<nat>>)
    requires AllInRange(lists, |ends|)
    ensures |r| == |lists| && forall v :: 0 <= v < |lists| ==> r[v] == Pick(ends, lists[v])
  {
    seq(|lists|, v requires 0 <= v < |lists| => Pick(ends, lists[v]))
  }

  lemma SideInserted(lists: seq<seq<nat>>, ends: seq<nat>, i: nat, v: nat)
    requires SideOk(lists, ends) && v < |lists|
    ensures SideOk(lists[v := Inserted(lists[v], i, |ends|)], ends + [v])
  {
    var r := lists[v := Inserted(lists[v], i, |ends|)];
    forall u | 0 <= u < |r| ensures Lists(r[u], ends + [v], u) {
      if u == v {
        InsertedLists(lists[v], ends, i, v);
      } else {
        OtherLists(lists[u], ends, u, v);
      }
    }
  }

  lemma PickInserted(lists: seq<seq<nat>>, ends: seq<nat>, i: nat, v: nat, x: nat)
    requires AllInRange(lists, |ends|) && v < |lists|
    ensures AllInRange(lists[v := Inserted(lists[v], i, |ends|)], |ends| + 1)
    ensures PickAll(ends + [x], lists[v := Inserted(lists[v], i, |ends|)])
         == PickAll(ends, lists)[v := Inserted(Pick(ends, lists[v]), i, x)]
  {
    hide Inserted;
    InsertedPick(lists[v], ends, i, x);
    forall u | 0 <= u < |lists| && u != v ensures InRange(lists[u], |ends| + 1) && Pick(ends + [x], lists[u]) == Pick(ends, lists[u]) {
      assert InRange(lists[u], |ends|);
    }
  }

  /** The list without its entry for ed, if it has one. */
  function Dropped(es: seq<nat>, ed: nat): seq<nat> {
    var i := IndexOf(es, ed);
    if i < |es| then Without(es, i) else es
  }

  /** The lists without ed, the edges before the k-th renumbered. */
  function SideRemoved(lists: seq<seq<nat>>, ed: nat, k: nat): (r: seq<seq<nat>>)
    ensures |r| == |lists| && forall v :: 0 <= v < |lists| ==> r[v] == RenumberedAll(Dropped(lists[v], ed), ed, k)
  {
    seq(|lists|, v requires 0 <= v < |lists| => RenumberedAll(Dropped(lists[v], ed), ed, k))
  }

  lemma WithoutIn(es: seq<nat>, i: nat, e: nat)
    requires Distinct(es) && i < |es|
    ensures e in Without(es, i) <==> e in es && e != es[i]
  {
    var r := Without(es, i);
    if e in es && e != es[i] {
      var k :| 0 <= k < |es| && es[k] == e;
      assert r[if k < i then k else k - 1] == e;
    }
    if e in r {
      var k :| 0 <= k < |r| && r[k] == e;
      assert es[if k < i then k else k + 1] == e;
    }
  }

  lemma DroppedIn(es: seq<nat>, ed: nat, e: nat)
    requires Distinct(es)
    ensures e in Dropped(es, ed) <==> e in es && e != ed
  {
    var i := IndexOf(es, ed);
    hide Distinct, Without;
    if i < |es| {
      WithoutIn(es, i, e);
    }
  }

  lemma DroppedDistinct(es: seq<nat>, ed: nat)
    requires Distinct(es)
    ensures Distinct(Dropped(es, ed))
  {
    var i := IndexOf(es, ed);
    var r := Dropped(es, ed);
    if i < |es| {
      forall a, b | 0 <= a < b < |r| ensures r[a] != r[b] {
        assert r[a] == es[if a < i then a else a + 1] && r[b] == es[if b < i then b else b + 1];
      }
    }
  }

  lemma DroppedEntries(es: seq<nat>, ends: seq<nat>, ed: nat, v: nat)
    requires Lists(es, ends, v) && ed < |ends|
    ensures var r := Dropped(es, ed);
            && Distinct(r) && ed !in r
            && (forall i :: 0 <= i < |r| ==> r[i] < |ends| && ends[r[i]] == v)
            && (forall e: nat :: e < |ends| && ends[e] == v && e != ed ==> e in r)
  {
    hide Dropped, Distinct;
    DroppedDistinct(es, ed);
    DroppedIn(es, ed, ed);
    var r := Dropped(es, ed);
    forall e: nat | e < |ends| && ends[e] == v && e != ed ensures e in r {
      DroppedIn(es, ed, e);
    }
    forall i | 0 <= i < |r| ensures r[i] < |ends| && ends[r[i]] == v {
      DroppedIn(es, ed, r[i]);
    }
  }

  lemma SideRemovedOk(lists: seq<seq<nat>>, ends: seq<nat>, ed: nat)
    requires SideOk(lists, ends) && ed < |ends|
    ensures SideOk(SideRemoved(lists, ed, |ends|), Without(ends, ed))
  {
    var r := SideRemoved(lists, ed, |ends|);
    forall v | 0 <= v < |r| ensures Lists(r[v], Without(ends, ed), v) {
      DroppedEntries(lists[v], ends, ed, v);
      RenumberedLists(Dropped(lists[v], ed), ends, ed, v);
    }
  }

  lemma WithoutPick(es: seq<nat>, other: seq<nat>, i: nat)
    requires InRange(es, |other|) && i < |es|
    ensures InRange(Without(es, i), |other|) && Pick(other, Without(es, i)) == Without(Pick(other, es), i)
  {
  }

  lemma DroppedPick(es: seq<nat>, own: seq<nat>, other: seq<nat>, ed: nat, v: nat)
    requires Lists(es, own, v) && |own| == |other| && ed < |own|
    ensures InRange(es, |other|) && InRange(Dropped(es, ed), |other|)
    ensures own[ed] == v <==> IndexOf(es, ed) < |es|
    ensures Pick(other, Dropped(es, ed))
         == (if own[ed] == v then Without(Pick(other, es), IndexOf(es, ed)) else Pick(other, es))
  {
    hide Without, Pick;
    assert own[ed] == v ==> ed in es;
    if IndexOf(es, ed) < |es| {
      WithoutPick(es, other, IndexOf(es, ed));
    }
  }

  /** Whatever the renumbering did, the picked ends only lose the place of ed. */
  lemma SideRemovedPick(lists: seq<seq<nat>>, own: seq<nat>, other: seq<nat>, ed: nat)
    requires SideOk(lists, own) && |own| == |other| && ed < |own| && own[ed] < |lists|
    ensures AllInRange(lists, |other|) && AllInRange(SideRemoved(lists, ed, |own|), |own| - 1)
    ensures var v := own[ed];
            var i := IndexOf(lists[v], ed);
            && i < |lists[v]|
            && PickAll(Without(other, ed), SideRemoved(lists, ed, |own|))
               == PickAll(other, lists)[v := Without(Pick(other, lists[v]), i)]
  {
    hide Dropped, RenumberedAll, Without, Distinct;
    forall u | 0 <= u < |lists|
      ensures InRange(lists[u], |other|) && InRange(RenumberedAll(Dropped(lists[u], ed), ed, |own|), |own| - 1)
      ensures own[ed] == u <==> IndexOf(lists[u], ed) < |lists[u]|
      ensures Pick(Without(other, ed), RenumberedAll(Dropped(lists[u], ed), ed, |own|))
           == (if own[ed] == u then Without(Pick(other, lists[u]), IndexOf(lists[u], ed)) else Pick(other, lists[u]))
    {
      DroppedEntries(lists[u], own, ed, u);
      DroppedPick(lists[u], own, other, ed, u);
      RenumberedPick(Dropped(lists[u], ed), other, ed);
    }
  }

  /** Before any renumbering. */
  lemma FirstSide(lists: seq<seq<nat>>, ends: seq<nat>, ed: nat)
    requires SideOk(lists, ends) && ed < |ends| && ends[ed] < |lists|
    ensures IndexOf(lists[ends[ed]], ed) < |lists[ends[ed]]|
    ensures SideRemoved(lists, ed, ed + 1)
         == lists[ends[ed] := Without(lists[ends[ed]], IndexOf(lists[ends[ed]], ed))]
  {
    assert ed in lists[ends[ed]];
    forall v | 0 <= v < |lists| ensures RenumberedAll(Dropped(lists[v], ed), ed, ed + 1) == Dropped(lists[v], ed) {
    }
    forall v | 0 <= v < |lists| && v != ends[ed] ensures Dropped(lists[v], ed) == lists[v] {
      assert ed !in lists[v];
    }
  }

  /** Renumbering one more edge, number k + 1, changes one entry of one list. */
  lemma ListStep(es: seq<nat>, ends: seq<nat>, ed: nat, k: nat, v: nat)
    requires Lists(es, ends, v) && ed <= k < |ends| - 1
    ensures var r := RenumberedAll(Dropped(es, ed), ed, k + 1);
            var i := IndexOf(r, k + 1);
            && (ends[k + 1] == v <==> i < |r|)
            && RenumberedAll(Dropped(es, ed), ed, k + 2) == (if i < |r| then Put(r, i, k) else r)
  {
    DroppedEntries(es, ends, ed, v);
    RenumberStep(Dropped(es, ed), ed, k + 1);
    assert k + 1 in Dropped(es, ed) <==> ends[k + 1] == v;
  }

  lemma SideStep(lists: seq<seq<nat>>, ends: seq<nat>, ed: nat, k: nat)
    requires SideOk(lists, ends) && ed <= k < |ends| - 1 && ends[k + 1] < |lists|
    ensures var r := SideRemoved(lists, ed, k + 1);
            var v := ends[k + 1];
            && IndexOf(r[v], k + 1) < |r[v]|
            && SideRemoved(lists, ed, k + 2) == r[v := Put(r[v], IndexOf(r[v], k + 1), k)]
  {
    hide Dropped, RenumberedAll, Put;
    forall v | 0 <= v < |lists|
      ensures var r := RenumberedAll(Dropped(lists[v], ed), ed, k + 1);
              var i := IndexOf(r, k + 1);
              && (ends[k + 1] == v <==> i < |r|)
              && RenumberedAll(Dropped(lists[v], ed), ed, k + 2) == (if i < |r| then Put(r, i, k) else r)
    {
      ListStep(lists[v], ends, ed, k, v);
    }
  }

  // ----- the store -----

  datatype Store = Store(vertices: seq<Vertex>, outs: seq<seq<nat>>, ins: seq<seq<nat>>, heads: seq<nat>, tails: seq<nat>)
  {
    /** Every edge is exactly once in its head's out list and exactly once in its tail's in list. */
    ghost predicate Valid() {
      && 0 < |vertices| == |outs| == |ins|
      && |heads| == |tails|
      && InRange(heads, |vertices|) && InRange(tails, |vertices|)
      && SideOk(outs, heads) && SideOk(ins, tails)
      && AllInRange(outs, |heads|) && AllInRange(ins, |heads|)
    }

    function Value(): (g: Nfa)
      requires Valid()
    {
      Nfa(vertices, PickAll(tails, outs), PickAll(heads, ins))
    }

    /** An edge that leaves a vertex enters one, and the other way round. */
    lemma ValueIsMatched()
      requires Valid()
      ensures Wired(Value()) && Matched(Value())
    {
      var g := Value();
      forall h: nat, t: nat | h < |g.out| && t < |g.ins|
        ensures t in g.out[h] <==> h in g.ins[t]
      {
        assert Lists(outs[h], heads, h) && Lists(ins[t], tails, t);
        if t in g.out[h] {
          var i :| 0 <= i < |g.out[h]| && g.out[h][i] == t;
          assert outs[h][i] in ins[t];
          var j :| 0 <= j < |ins[t]| && ins[t][j] == outs[h][i];
          assert g.ins[t][j] == h;
        }
        if h in g.ins[t] {
          var j :| 0 <= j < |g.ins[t]| && g.ins[t][j] == h;
          assert ins[t][j] in outs[h];
          var i :| 0 <= i < |outs[h]| && outs[h][i] == ins[t][j];
          assert g.out[h][i] == t;
        }
      }
    }
  }

  lemma SideRange(lists: seq<seq<nat>>, ends: seq<nat>)
    requires SideOk(lists, ends)
    ensures AllInRange(lists, |ends|)
  {
    forall v | 0 <= v < |lists| ensures InRange(lists[v], |ends|) {
      assert Lists(lists[v], ends, v);
    }
  }

  /** The store with one more edge. */
  function WithEdge(s: Store, head: nat, tail: nat, hi: nat, ti: nat): Store
    requires head < |s.outs| && tail < |s.ins|
  {
    Store(s.vertices,
          s.outs[head := Inserted(s.outs[head], hi, |s.heads|)],
          s.ins[tail := Inserted(s.ins[tail], ti, |s.heads|)],
          s.heads + [head], s.tails + [tail])
  }

  /** In the automaton, the tail is inserted in the head's out list and the head in the tail's in list. */
  lemma WithEdgeValue(s: Store, head: nat, tail: nat, hi: nat, ti: nat)
    requires s.Valid() && head < |s.vertices| && tail < |s.vertices|
    ensures WithEdge(s, head, tail, hi, ti).Valid()
    ensures var g := s.Value();
            WithEdge(s, head, tail, hi, ti).Value()
            == Nfa(g.vertices, g.out[head := Inserted(g.out[head], hi, tail)], g.ins[tail := Inserted(g.ins[tail], ti, head)])
  {
    hide SideOk, AllInRange, Inserted, Pick;
    SideInserted(s.outs, s.heads, hi, head);
    SideInserted(s.ins, s.tails, ti, tail);
    var r := WithEdge(s, head, tail, hi, ti);
    SideRange(r.outs, r.heads);
    SideRange(r.ins, r.tails);
    PickInserted(s.outs, s.tails, hi, head, tail);
    PickInserted(s.ins, s.heads, ti, tail, head);
  }

  /** The store without edge ed, when the later edges before the k-th have been renumbered. */
  function HalfRemoved(s: Store, ed: nat, k: nat): (r: Store)
    requires ed < |s.heads| == |s.tails|
  {
    Store(s.vertices, SideRemoved(s.outs, ed, k), SideRemoved(s.ins, ed, k), Without(s.heads, ed), Without(s.tails, ed))
  }

  lemma WithoutInRange(es: seq<nat>, i: nat, n: nat)
    requires InRange(es, n) && i < |es|
    ensures InRange(Without(es, i), n)
  {
  }

  lemma RemovedValid(s: Store, ed: nat)
    requires s.Valid() && ed < |s.heads|
    ensures HalfRemoved(s, ed, |s.heads|).Valid()
  {
    hide SideOk, AllInRange, InRange, SideRemoved;
    var r := HalfRemoved(s, ed, |s.heads|);
    WithoutInRange(s.heads, ed, |s.vertices|);
    WithoutInRange(s.tails, ed, |s.vertices|);
    SideRemovedOk(s.outs, s.heads, ed);
    SideRemovedOk(s.ins, s.tails, ed);
    SideRange(r.outs, r.heads);
    SideRange(r.ins, r.tails);
  }

  /** In the automaton, the edge's places in the two lists are gone and every order is kept. */
  lemma RemovedValue(s: Store, ed: nat)
    requires s.Valid() && ed < |s.heads| && HalfRemoved(s, ed, |s.heads|).Valid()
    ensures var g := s.Value();
            var h, t := s.heads[ed], s.tails[ed];
            var i, j := IndexOf(s.outs[h], ed), IndexOf(s.ins[t], ed);
            && i < |g.out[h]| && g.out[h][i] == t
            && j < |g.ins[t]| && g.ins[t][j] == h
            && HalfRemoved(s, ed, |s.heads|).Value()
               == Nfa(g.vertices, g.out[h := Without(g.out[h], i)], g.ins[t := Without(g.ins[t], j)])
  {
    hide SideOk, AllInRange, SideRemoved, Without;
    SideRemovedPick(s.outs, s.heads, s.tails, ed);
    SideRemovedPick(s.ins, s.tails, s.heads, ed);
  }

  class Graph {
    var Vertices: seq<Vertex>
    var Outs: seq<seq<nat>>
    var Ins: seq<seq<nat>>
    var Heads: seq<nat>
    var Tails: seq<nat>

    function Snapshot(): Store
      reads this
    {
      Store(Vertices, Outs, Ins, Heads, Tails)
    }

    ghost predicate Valid()
      reads this
    {
      Snapshot().Valid()
    }

    /** The automaton that the store stands for. */
    ghost function Value(): (g: Nfa)
      reads this
      requires Valid()
      ensures g == Snapshot().Value() && Wired(g) && Matched(g)
      ensures g.vertices == Vertices
    {
      Snapshot().ValueIsMatched();
      Snapshot().Value()
    }

    /** Graph::outVertices */
    function OutVertices(v: nat): (ts: seq<nat>)
      reads this
      requires Valid() && v < |Vertices|
      ensures ts == Value().out[v]
    {
      Pick(Tails, Outs[v])
    }

    /** Graph::inVertices */
    function InVertices(v: nat): (hs: seq<nat>)
      reads this
      requires Valid() && v < |Vertices|
      ensures hs == Value().ins[v]
    {
      Pick(Heads, Ins[v])
    }

    constructor (n: nat)
      requires 0 < n
      ensures Valid()
      ensures Value() == Nfa(seq(n, i => Vertex(NoTransition, false, NOLABEL)), seq(n, i => []), seq(n, i => []))
    {
      Vertices := seq(n, i => Vertex(NoTransition, false, NOLABEL));
      Outs := seq(n, i => []);
      Ins := seq(n, i => []);
      Heads, Tails := [], [];
    }

    /** Graph::clear, then addVertex. */
    method StartOver()
      modifies this
      ensures Valid()
      ensures Value() == Nfa([Vertex(NoTransition, false, NOLABEL)], [[]], [[]])
    {
      Vertices := [Vertex(NoTransition, false, NOLABEL)];
      Outs, Ins := [[]], [[]];
      Heads, Tails := [], [];
    }

    /** Graph::addVertex */
    method AddVertex(v: Vertex) returns (vd: nat)
      requires Valid()
      modifies this
      ensures Valid() && vd == |old(Vertices)|
      ensures Value() == Nfa(old(Vertices) + [v], old(Value()).out + [[]], old(Value()).ins + [[]])
    {
      vd := |Vertices|;
      Vertices := Vertices + [v];
      Outs := Outs + [[]];
      Ins := Ins + [[]];
    }

    /** Assignment through Graph::operator[]. */
    method SetVertex(vd: nat, v: Vertex)
      requires Valid() && vd < |Vertices|
      modifies this`Vertices
      ensures Valid()
      ensures Value() == old(Value()).(vertices := old(Vertices)[vd := v])
    {
      Vertices := Vertices[vd := v];
    }

    /** Graph::insertEdge */
    method InsertEdge(head: nat, tail: nat, hi: nat, ti: nat) returns (ed: nat)
      requires Valid() && head < |Vertices| && tail < |Vertices|
      modifies this
      ensures Valid()
      ensures var g := old(Value());
              Value() == Nfa(g.vertices, g.out[head := Inserted(g.out[head], hi, tail)],
                             g.ins[tail := Inserted(g.ins[tail], ti, head)])
    {
      WithEdgeValue(Snapshot(), head, tail, hi, ti);
      ed := |Heads|;
      Heads, Tails := Heads + [head], Tails + [tail];
      Outs := Outs[head := Inserted(Outs[head], hi, ed)];
      Ins := Ins[tail := Inserted(Ins[tail], ti, ed)];
    }

    /** Graph::addEdge */
    method AddEdge(head: nat, tail: nat) returns (ed: nat)
      requires Valid() && head < |Vertices| && tail < |Vertices|
      modifies this
      ensures Valid()
      ensures var g := old(Value());
              Value() == Nfa(g.vertices, g.out[head := g.out[head] + [tail]], g.ins[tail := g.ins[tail] + [head]])
    {
      ed := InsertEdge(head, tail, |Outs[head]|, |Ins[tail]|);
    }

    /** Graph::removeEdge and Graph::compact_after_edge */
    method RemoveEdge(ed: nat)
      requires Valid() && ed < |Heads|
      modifies this
      ensures Valid()
      ensures var g := old(Value());
              var h, t := old(Heads)[ed], old(Tails)[ed];
              var i, j := IndexOf(old(Outs)[h], ed), IndexOf(old(Ins)[t], ed);
              && i < |g.out[h]| && g.out[h][i] == t
              && j < |g.ins[t]| && g.ins[t][j] == h
              && Value() == Nfa(g.vertices, g.out[h := Without(g.out[h], i)], g.ins[t := Without(g.ins[t], j)])
    {
      ghost var s := Snapshot();
      RemovedValid(s, ed);
      RemovedValue(s, ed);
      FirstSide(s.outs, s.heads, ed);
      FirstSide(s.ins, s.tails, ed);
      hide SideOk, AllInRange, SideRemoved, InRange;
      RemoveEntries(ed);
      CompactAfterEdge(s, ed);
    }

    /** The two removals, and the erasure of the edge itself. */
    method RemoveEntries(ed: nat)
      requires ed < |Heads| == |Tails| && Heads[ed] < |Outs| && Tails[ed] < |Ins|
      requires IndexOf(Outs[Heads[ed]], ed) < |Outs[Heads[ed]]| && IndexOf(Ins[Tails[ed]], ed) < |Ins[Tails[ed]]|
      modifies this
      ensures var s := old(Snapshot());
              var h, t := s.heads[ed], s.tails[ed];
              Snapshot() == Store(s.vertices,
                                  s.outs[h := Without(s.outs[h], IndexOf(s.outs[h], ed))],
                                  s.ins[t := Without(s.ins[t], IndexOf(s.ins[t], ed))],
                                  Without(s.heads, ed), Without(s.tails, ed))
    {
      var h, t := Heads[ed], Tails[ed];
      Outs := Outs[h := Without(Outs[h], IndexOf(Outs[h], ed))];
      Ins := Ins[t := Without(Ins[t], IndexOf(Ins[t], ed))];
      Heads, Tails := Without(Heads, ed), Without(Tails, ed);
    }

    /** Graph::compact_after_edge: every later edge number goes down by one, in its two lists. */
    method CompactAfterEdge(ghost s: Store, ed: nat)
      requires s.Valid() && ed < |s.heads| == |s.tails|
      requires Vertices == s.vertices && Heads == Without(s.heads, ed) && Tails == Without(s.tails, ed)
      requires Outs == SideRemoved(s.outs, ed, ed + 1) && Ins == SideRemoved(s.ins, ed, ed + 1)
      modifies this
      ensures Vertices == s.vertices && Heads == Without(s.heads, ed) && Tails == Without(s.tails, ed)
      ensures Outs == SideRemoved(s.outs, ed, |s.heads|) && Ins == SideRemoved(s.ins, ed, |s.heads|)
    {
      hide *;
      StoreUse(s, ed);
      var k: nat := ed;
      while k < |Heads|
        invariant ed <= k <= |Heads| == |s.heads| - 1
        invariant Heads == Without(s.heads, ed) && Tails == Without(s.tails, ed) && Vertices == s.vertices
        invariant Outs == SideRemoved(s.outs, ed, k + 1) && Ins == SideRemoved(s.ins, ed, k + 1)
      {
        SideStep(s.outs, s.heads, ed, k);
        SideStep(s.ins, s.tails, ed, k);
        var oi := IndexOf(Outs[Heads[k]], k + 1);
        Outs := Outs[Heads[k] := Put(Outs[Heads[k]], oi, k)];
        var ii := IndexOf(Ins[Tails[k]], k + 1);
        Ins := Ins[Tails[k] := Put(Ins[Tails[k]], ii, k)];
        k := k + 1;
      }
    }
  }

  lemma StoreUse(s: Store, ed: nat)
    requires s.Valid() && ed < |s.heads|
    ensures |s.heads| == |s.tails| && SideOk(s.outs, s.heads) && SideOk(s.ins, s.tails)
    ensures forall e :: 0 <= e < |s.heads| ==> s.heads[e] < |s.outs| && s.tails[e] < |s.ins|
  {
    hide SideOk, AllInRange;
  }
}
