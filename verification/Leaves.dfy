/**
 The fragments of literals and character classes: chains of vertices, in which
 an encoding may share the end of the chain of another
 (src/lib/nfabuilder.cpp:147-301).
 */
module Leaves {
  import opened Basics
  import opened Automata
  import opened Regexes
  import opened Choices
  import opened Fragments
  import opened Orders
  import opened Assembling
  import opened Graphs
  import Transitions

  type Encoding = seq<set<Byte>>

  /** Transition::getBytes */
  function BytesOf(t: Transition): (s: set<Byte>)
    ensures forall x: Byte :: x in s <==> t.Permits(x)
  {
    set x: Byte | x in Numbers(256) && t.Permits(x)
  }

  // ----- reading forwards -----

  /** Some path from v, v's own byte included, reads u and ends at an exit. */
  ghost predicate Leads(g: Nfa, outs: seq<Exit>, v: nat, u: seq<Byte>)
    requires Wired(g)
    decreases |u|
  {
    && u != [] && v < |g.vertices| && Permits(g, v, u[0])
    && if |u| == 1 then Exits(outs, v)
       else exists t: nat :: v < |g.out| && t in g.out[v] && Leads(g, outs, t, u[1..])
  }

  ghost predicate LeadsFrom(g: Nfa, ins: seq<nat>, outs: seq<Exit>, u: seq<Byte>)
    requires Wired(g)
  {
    exists v: nat :: v in ins && Leads(g, outs, v, u)
  }

  lemma LeadsCons(g: Nfa, outs: seq<Exit>, v: nat, x: Byte, t: nat, u: seq<Byte>)
    requires Wired(g) && v < |g.out| && v < |g.vertices| && t in g.out[v] && Permits(g, v, x) && Leads(g, outs, t, u)
    ensures Leads(g, outs, v, [x] + u)
  {
    assert ([x] + u)[1..] == u;
  }

  lemma LeadsNext(g: Nfa, outs: seq<Exit>, v: nat, u: seq<Byte>) returns (t: nat)
    requires Wired(g) && |u| > 1 && Leads(g, outs, v, u)
    ensures v < |g.out| && v < |g.vertices| && Permits(g, v, u[0]) && t in g.out[v] && Leads(g, outs, t, u[1..])
  {
    t :| v < |g.out| && t in g.out[v] && Leads(g, outs, t, u[1..]);
  }

  /** Up to v backwards, and from v forwards. */
  lemma {:induction false} RunsThenLeads(g: Nfa, ins: seq<nat>, outs: seq<Exit>, a: seq<Byte>, v: nat, b: seq<Byte>)
    requires Wired(g) && Runs(g, ins, a, v) && v < |g.out|
    requires if b == [] then Exits(outs, v) else exists t: nat :: t in g.out[v] && Leads(g, outs, t, b)
    ensures LeadsFrom(g, ins, outs, a + b)
    decreases |a|
  {
    hide Exits;
    var x := a[|a| - 1];
    assert Leads(g, outs, v, [x] + b) by {
      if b == [] {
        assert [x] + b == [x];
      } else {
        var t: nat :| t in g.out[v] && Leads(g, outs, t, b);
        LeadsCons(g, outs, v, x, t, b);
      }
    }
    if |a| == 1 {
      assert a + b == [x] + b;
    } else {
      var p := RunsLast(g, ins, a, v);
      RunsThenLeads(g, ins, outs, a[..|a| - 1], p, [x] + b);
      assert a[..|a| - 1] + ([x] + b) == a + b;
    }
  }

  lemma {:induction false} LeadsThenRuns(g: Nfa, ins: seq<nat>, outs: seq<Exit>, a: seq<Byte>, v: nat, b: seq<Byte>)
    requires Wired(g) && Leads(g, outs, v, b)
    requires if a == [] then v in ins else exists p: nat :: p < |g.out| && v in g.out[p] && Runs(g, ins, a, p)
    ensures Spelled(g, ins, outs, a + b)
    decreases |b|
  {
    hide Exits;
    var x := b[0];
    assert Runs(g, ins, a + [x], v) by {
      if a == [] {
        assert a + [x] == [x];
      } else {
        var p: nat :| p < |g.out| && v in g.out[p] && Runs(g, ins, a, p);
        RunsSnoc(g, ins, a, x, p, v);
      }
    }
    if |b| == 1 {
      assert a + b == a + [x];
    } else {
      var t := LeadsNext(g, outs, v, b);
      LeadsThenRuns(g, ins, outs, a + [x], t, b[1..]);
      assert a + [x] + b[1..] == a + b;
    }
  }

  /** Backwards or forwards, the same strings. */
  lemma SpelledIsLed(g: Nfa, ins: seq<nat>, outs: seq<Exit>, u: seq<Byte>)
    requires Wired(g)
    ensures Spelled(g, ins, outs, u) <==> LeadsFrom(g, ins, outs, u)
  {
    hide Exits;
    if Spelled(g, ins, outs, u) {
      var v := SpelledTo(g, ins, outs, u);
      assert u + [] == u;
      RunsThenLeads(g, ins, outs, u, v, []);
    }
    if LeadsFrom(g, ins, outs, u) {
      var v: nat :| v in ins && Leads(g, outs, v, u);
      assert [] + u == u;
      LeadsThenRuns(g, ins, outs, [], v, u);
    }
  }

  // ----- chains -----

  /** From vertex lo + i there is one way on, and it reads the i-th chain. */
  ghost predicate ChainAt(g: Nfa, outs: seq<Exit>, lo: nat, chains: seq<Encoding>, i: nat)
    requires Wired(g) && i < |chains|
  {
    && lo + i < |g.vertices| && chains[i] != []
    && BytesOf(g.vertices[lo + i].trans) == chains[i][0]
    && (Exits(outs, lo + i) <==> |chains[i]| == 1)
    && if |chains[i]| == 1 then g.out[lo + i] == []
       else exists j: nat :: j < |chains| && g.out[lo + i] == [lo + j] && chains[j] == chains[i][1..]
  }

  ghost predicate Chains(g: Nfa, outs: seq<Exit>, lo: nat, chains: seq<Encoding>)
    requires Wired(g)
  {
    && |g.vertices| == lo + |chains|
    && forall i: nat :: i < |chains| ==> ChainAt(g, outs, lo, chains, i)
  }

  lemma {:induction false} ChainLeads(g: Nfa, outs: seq<Exit>, lo: nat, chains: seq<Encoding>, i: nat, u: seq<Byte>)
    requires Wired(g) && Chains(g, outs, lo, chains) && i < |chains|
    ensures Leads(g, outs, lo + i, u) <==> InProduct(chains[i], u)
    decreases |u|
  {
    hide Exits;
    assert ChainAt(g, outs, lo, chains, i);
    var c := chains[i];
    if u != [] && |c| > 1 {
      var j: nat :| j < |chains| && g.out[lo + i] == [lo + j] && chains[j] == c[1..];
      ChainLeads(g, outs, lo, chains, j, u[1..]);
      assert lo + j in g.out[lo + i];
      ProductCons(c, u);
    }
  }

  lemma ProductCons(c: Encoding, u: seq<Byte>)
    requires c != [] && u != []
    ensures InProduct(c, u) <==> u[0] in c[0] && InProduct(c[1..], u[1..])
  {
    if InProduct(c[1..], u[1..]) && u[0] in c[0] {
      forall k | 0 <= k < |u| ensures u[k] in c[k] {
        if k > 0 {
          assert u[k] == u[1..][k - 1] && c[k] == c[1..][k - 1];
        }
      }
    }
  }

  /** Each entry of the in list begins the chain of one range. */
  ghost predicate Begins(lo: nat, ins: seq<nat>, chains: seq<Encoding>, ranges: Ranges) {
    && |ins| == |ranges|
    && forall k :: 0 <= k < |ins| ==> lo <= ins[k] < lo + |chains| && chains[ins[k] - lo] == ranges[k]
  }

  lemma ChainsSpell(g: Nfa, ins: seq<nat>, outs: seq<Exit>, lo: nat, chains: seq<Encoding>, ranges: Ranges, u: seq<Byte>)
    requires Wired(g) && Chains(g, outs, lo, chains) && Begins(lo, ins, chains, ranges)
    ensures Spelled(g, ins, outs, u) <==> InRanges(ranges, u)
  {
    SpelledIsLed(g, ins, outs, u);
    hide Chains, Spelled, Leads, InProduct;
    if LeadsFrom(g, ins, outs, u) {
      var v: nat :| v in ins && Leads(g, outs, v, u);
      var k :| 0 <= k < |ins| && ins[k] == v;
      ChainLeads(g, outs, lo, chains, v - lo, u);
      assert InProduct(ranges[k], u);
    }
    if InRanges(ranges, u) {
      var k :| 0 <= k < |ranges| && InProduct(ranges[k], u);
      ChainLeads(g, outs, lo, chains, ins[k] - lo, u);
      assert ins[k] in ins;
    }
  }

  lemma ChainsIsland(g: Nfa, g0: Nfa, outs: seq<Exit>, lo: nat, chains: seq<Encoding>)
    requires Wired(g) && Wired(g0) && Chains(g, outs, lo, chains) && |g0.vertices| == lo
    requires forall v: nat :: v < lo ==> g.out[v] == g0.out[v]
    ensures Island(g, lo, |g.vertices|)
  {
    hide Exits;
    forall v: nat, t: nat | v < |g.out| && t in g.out[v] ensures lo <= v < |g.vertices| <==> lo <= t < |g.vertices| {
      if v >= lo {
        assert ChainAt(g, outs, lo, chains, v - lo);
      }
    }
  }

  lemma ClassSpells(n: Node, ranges: Ranges, u: seq<Byte>)
    requires n.CharClass? && Adjusted(n.ranges, n.breakout, n.additive) == Some(ranges)
    ensures Lang(n, u) <==> InRanges(ranges, u)
  {
  }

  lemma LiteralSpells(enc: seq<Byte>, u: seq<Byte>)
    requires enc != []
    ensures Lang(Literal(enc), u) <==> InRanges([Singles(enc)], u)
  {
    assert InProduct(Singles(enc), enc);
    if InRanges([Singles(enc)], u) {
      assert InProduct(Singles(enc), u);
      assert u == enc;
    }
    if u == enc {
      assert InProduct([Singles(enc)][0], u);
    }
  }

  function Singles(enc: seq<Byte>): (r: Encoding)
    ensures |r| == |enc| && forall i :: 0 <= i < |r| ==> r[i] == {enc[i]}
  {
    seq(|enc|, i requires 0 <= i < |enc| => {enc[i]})
  }

  lemma NoEmptyChain(g: Nfa, outs: seq<Exit>, lo: nat, chains: seq<Encoding>, ins: seq<nat>, ranges: Ranges)
    requires Wired(g) && Chains(g, outs, lo, chains) && Begins(lo, ins, chains, ranges)
    ensures forall k :: 0 <= k < |ranges| ==> ranges[k] != []
  {
    forall k | 0 <= k < |ranges| ensures ranges[k] != [] {
      assert ChainAt(g, outs, lo, chains, ins[k] - lo);
    }
  }

  /** A chain graph is the fragment of a node whose strings are those of the ranges. */
  lemma ChainsBuild(g: Nfa, g0: Nfa, f: Fragment, n: Node, lo: nat, chains: seq<Encoding>, ranges: Ranges)
    requires Wired(g) && Wired(g0) && Chains(g, f.outs, lo, chains) && Begins(lo, f.ins, chains, ranges)
    requires |g0.vertices| == lo && forall v: nat :: v < lo ==> g.out[v] == g0.out[v]
    requires f.skip.None? && ExitsInside(f.outs, lo, |g.vertices|)
    requires forall i, j :: 0 <= i < j < |f.outs| ==> f.outs[i].v != f.outs[j].v
    requires forall u: seq<Byte> :: Lang(n, u) <==> InRanges(ranges, u)
    ensures Builds(g, f, n, lo, |g.vertices|)
  {
    ChainsIsland(g, g0, f.outs, lo, chains);
    forall u: seq<Byte> | u != [] ensures Spelled(g, f.ins, f.outs, u) <==> Lang(n, u) {
      ChainsSpell(g, f.ins, f.outs, lo, chains, ranges, u);
    }
    NoEmptyChain(g, f.outs, lo, chains, f.ins, ranges);
    assert !InRanges(ranges, []);
    hide Chains, Spelled, Lang, InRanges;
  }

  // ----- the order of chains -----

  /** Going over to a chain reads its range. */
  lemma {:induction false} ChainOver(g: Nfa, outs: seq<Exit>, lo: nat, chains: seq<Encoding>, i: nat, k: Rest, w: seq<Byte>)
    requires Wired(g) && Chains(g, outs, lo, chains) && i < |chains| && (forall x :: 0 <= x < |outs| ==> outs[x].pos == 0)
    ensures lo + i < |g.vertices| && Over(g, outs, k, lo + i, w) == ThisRange(chains[i], w, k)
    decreases |w|
  {
    var j := ChainUse(g, outs, lo, chains, i, w);
    var c := chains[i];
    hide *;
    OverIs(g, outs, k, lo + i, w);
    if w != [] && w[0] in c[0] {
      PointNone(outs, lo + i);
      PointZero(outs, lo + i);
      if |c| == 1 {
        ChainEnds(g, outs, k, lo + i, w[1..]);
        ThisRangeOne(c, w, k);
      } else {
        ChainOver(g, outs, lo, chains, j, k, w[1..]);
        ChainGoesOn(g, outs, k, lo + i, lo + j, w[1..]);
        ThisRangeMore(c, w, k);
      }
    } else {
      NotThisRange(c, w, k);
    }
  }

  lemma ChainUse(g: Nfa, outs: seq<Exit>, lo: nat, chains: seq<Encoding>, i: nat, w: seq<Byte>) returns (j: nat)
    requires Wired(g) && Chains(g, outs, lo, chains) && i < |chains|
    ensures lo + i < |g.vertices| && chains[i] != [] && (Exits(outs, lo + i) <==> |chains[i]| == 1)
    ensures w != [] ==> (Permits(g, lo + i, w[0]) <==> w[0] in chains[i][0])
    ensures |chains[i]| == 1 ==> lo + i < |g.out| && g.out[lo + i] == []
    ensures |chains[i]| > 1 ==> j < |chains| && lo + j < |g.vertices| == |g.out| && g.out[lo + i] == [lo + j] && chains[j] == chains[i][1..]
  {
    assert ChainAt(g, outs, lo, chains, i);
    j := 0;
    if |chains[i]| > 1 {
      j :| j < |chains| && g.out[lo + i] == [lo + j] && chains[j] == chains[i][1..];
    }
    hide Exits;
  }

  lemma OverIs(g: Nfa, outs: seq<Exit>, k: Rest, t: nat, w: seq<Byte>)
    requires Wired(g) && t < |g.vertices|
    ensures Over(g, outs, k, t, w) == if w != [] && Permits(g, t, w[0]) then Beyond(1, At(g, outs, k, t, w[1..])) else None
  {
    hide At;
  }

  lemma NotThisRange(c: Encoding, w: seq<Byte>, k: Rest)
    requires c != [] && (w != [] ==> w[0] !in c[0])
    ensures ThisRange(c, w, k) == None
  {
    if |c| <= |w| {
      assert w[..|c|][0] == w[0];
    }
  }

  lemma {:induction false} PointZero(outs: seq<Exit>, v: nat)
    requires forall x :: 0 <= x < |outs| ==> outs[x].pos == 0
    ensures Point(outs, v).Some? ==> Point(outs, v) == Some(0)
    decreases |outs|
  {
    if outs != [] {
      PointZero(outs[1..], v);
    }
  }

  lemma ChainEnds(g: Nfa, outs: seq<Exit>, k: Rest, v: nat, w: seq<Byte>)
    requires Wired(g) && v < |g.vertices| && g.out[v] == [] && Point(outs, v) == Some(0)
    ensures At(g, outs, k, v, w) == k(w)
  {
    assert g.out[v][..0] == [] && g.out[v][0..] == [];
    assert Along(g, outs, k, [], w) == None;
    hide Along;
  }

  lemma ChainGoesOn(g: Nfa, outs: seq<Exit>, k: Rest, v: nat, t: nat, w: seq<Byte>)
    requires Wired(g) && v < |g.vertices| && t < |g.vertices| && g.out[v] == [t] && Point(outs, v) == None
    ensures At(g, outs, k, v, w) == Over(g, outs, k, t, w)
  {
    assert [t][1..] == [];
    assert Along(g, outs, k, [t][1..], w) == None;
  }

  lemma ThisRangeOne(c: Encoding, w: seq<Byte>, k: Rest)
    requires |c| == 1 && w != [] && w[0] in c[0]
    ensures ThisRange(c, w, k) == Beyond(1, k(w[1..]))
  {
    assert w[..1][0] == w[0];
  }

  lemma ThisRangeMore(c: Encoding, w: seq<Byte>, k: Rest)
    requires |c| > 1 && w != [] && w[0] in c[0]
    ensures ThisRange(c, w, k) == Beyond(1, ThisRange(c[1..], w[1..], k))
  {
    if |c| <= |w| {
      var u := w[..|c|];
      assert u[0] == w[0] && u[1..] == w[1..][..|c[1..]|];
      ProductCons(c, u);
      assert w[|c|..] == w[1..][|c[1..]|..];
    }
  }

  lemma {:induction false} ChainsAlong(g: Nfa, ins: seq<nat>, outs: seq<Exit>, lo: nat, chains: seq<Encoding>, ranges: Ranges, k: Rest, w: seq<Byte>)
    requires Wired(g) && Chains(g, outs, lo, chains) && Begins(lo, ins, chains, ranges) && Within(g, ins)
    requires forall x :: 0 <= x < |outs| ==> outs[x].pos == 0
    ensures Along(g, outs, k, ins, w) == FirstRange(ranges, w, k)
    decreases |ins|
  {
    hide Chains;
    if ins != [] {
      ChainOver(g, outs, lo, chains, ins[0] - lo, k, w);
      ChainsAlong(g, ins[1..], outs, lo, chains, ranges[1..], k, w);
    }
  }

  lemma {:induction false} ChainWayOut(g: Nfa, outs: seq<Exit>, lo: nat, chains: seq<Encoding>, i: nat)
    requires Wired(g) && Chains(g, outs, lo, chains) && i < |chains|
    ensures WayOut(g, outs, lo + i)
    decreases |chains[i]|
  {
    hide Exits;
    assert ChainAt(g, outs, lo, chains, i);
    var v := lo + i;
    if |chains[i]| == 1 {
      assert Path(g, [v]) && [v][0] == v && Exits(outs, [v][|[v]| - 1]);
    } else {
      var j: nat :| j < |chains| && g.out[v] == [lo + j] && chains[j] == chains[i][1..];
      ChainWayOut(g, outs, lo, chains, j);
      var p :| Path(g, p) && p[0] == lo + j && Exits(outs, p[|p| - 1]);
      assert Path(g, [v]);
      assert lo + j in g.out[v];
      PathsJoin(g, [v], p);
      assert ([v] + p)[0] == v && ([v] + p)[|[v] + p| - 1] == p[|p| - 1];
    }
  }

  /** The tree is preferred like the ranges in their order. */
  ghost predicate PrefersRanges(n: Node, ranges: Ranges) {
    forall w: seq<Byte>, k: Rest :: Pref(n, w, k) == FirstRange(ranges, w, k)
  }

  lemma ChainsPrefer(g: Nfa, f: Fragment, n: Node, lo: nat, chains: seq<Encoding>, ranges: Ranges)
    requires Wired(g) && Chains(g, f.outs, lo, chains) && Begins(lo, f.ins, chains, ranges) && f.skip.None?
    requires (forall x :: 0 <= x < |f.outs| ==> f.outs[x].pos == 0) && ExitsInside(f.outs, lo, |g.vertices|) && PrefersRanges(n, ranges)
    ensures Prefers(g, f, n)
  {
    assert Within(g, f.ins);
    forall k: Rest, w: seq<Byte> ensures Entering(g, f, k, w) == Pref(n, w, k) {
      ChainsAlong(g, f.ins, f.outs, lo, chains, ranges, k, w);
    }
    hide Chains, Begins, Entering, Pref;
  }

  lemma ChainsAssemble(g: Nfa, g0: Nfa, f: Fragment, n: Node, lo: nat, chains: seq<Encoding>, ranges: Ranges)
    requires Wired(g) && Wired(g0) && Chains(g, f.outs, lo, chains) && Begins(lo, f.ins, chains, ranges) && ranges != []
    requires |g0.vertices| == lo && forall v: nat :: v < lo ==> g.out[v] == g0.out[v]
    requires f.skip.None? && ExitsInside(f.outs, lo, |g.vertices|) && (forall x :: 0 <= x < |f.outs| ==> f.outs[x].pos == 0)
    requires forall i, j :: 0 <= i < j < |f.outs| ==> f.outs[i].v != f.outs[j].v
    requires forall u: seq<Byte> :: Lang(n, u) <==> InRanges(ranges, u)
    requires PrefersRanges(n, ranges)
    ensures Assembled(g, f, n, lo, |g.vertices|)
  {
    ChainsBuild(g, g0, f, n, lo, chains, ranges);
    ChainsPrefer(g, f, n, lo, chains, ranges);
    assert |g.vertices| == lo + |chains|;
    forall v: nat | lo <= v < |g.vertices| ensures WayOut(g, f.outs, v) {
      ChainWayOut(g, f.outs, lo, chains, v - lo);
    }
    assert f.ins != [];
    hide Builds, Prefers, Chains, WayOut, Begins;
    AssembledBy(g, f, n, lo, |g.vertices|);
  }

  lemma FirstOfOne(enc: Encoding, w: seq<Byte>, k: Rest)
    ensures FirstRange([enc], w, k) == ThisRange(enc, w, k)
  {
    assert [enc][1..] == [];
    assert FirstRange([enc][1..], w, k) == None;
  }

  lemma LiteralPrefers(enc: seq<Byte>)
    ensures PrefersRanges(Literal(enc), [Singles(enc)])
  {
    forall w: seq<Byte>, k: Rest ensures Pref(Literal(enc), w, k) == FirstRange([Singles(enc)], w, k) {
      FirstOfOne(Singles(enc), w, k);
      if |enc| <= |w| {
        assert InProduct(Singles(enc), w[..|enc|]) <==> enc == w[..|enc|];
      }
    }
  }

  lemma BytePrefers(b: Byte)
    ensures PrefersRanges(RawByte(b), [Singles([b])])
  {
    LiteralPrefers([b]);
    forall w: seq<Byte>, k: Rest ensures Pref(RawByte(b), w, k) == Pref(Literal([b]), w, k) {
      if w != [] {
        assert [b] <= w <==> w[0] == b;
      }
    }
  }

  // ----- growing the automaton -----

  /** A vertex as the builder leaves it until it is marked as a match. */
  ghost predicate Bare(v: Vertex) {
    !v.isMatch && v.lbl == NOLABEL && SomeByte(v.trans)
  }

  lemma ReadsByte(b: Byte)
    ensures SomeByte(ByteState(b))
  {
    assert ByteState(b).Permits(b);
  }

  lemma ReadsCovered(t: Transition, c: set<Byte>)
    requires Transitions.Covers(t, c) && c != {}
    ensures SomeByte(t)
  {
    var x :| x in c;
    assert t.Permits(x);
  }

  /** The old vertices and their edges are as they were, the new ones are bare. */
  ghost predicate Added(g0: Nfa, g: Nfa) {
    && Wired(g0) && Wired(g) && g0.vertices <= g.vertices
    && (forall v: nat :: v < |g0.out| ==> v < |g.out| && g.out[v] == g0.out[v])
    && (forall v: nat :: |g0.vertices| <= v < |g.vertices| ==> Bare(g.vertices[v]))
  }

  lemma AddedTwice(a: Nfa, b: Nfa, c: Nfa)
    requires Added(a, b) && Added(b, c)
    ensures Added(a, c)
  {
    forall v: nat | |a.vertices| <= v < |c.vertices| ensures Bare(c.vertices[v]) {
      if v < |b.vertices| {
        assert c.vertices[v] == b.vertices[v];
      }
    }
  }

  // ----- literals -----

  /** The first n vertices of the chain of a literal. */
  ghost predicate LiteralGraph(g0: Nfa, g: Nfa, enc: seq<Byte>, n: nat)
    requires n <= |enc|
  {
    && Added(g0, g) && |g.vertices| == |g0.vertices| + n
    && (forall v: nat :: |g0.vertices| <= v < |g.vertices| ==> g.vertices[v] == Vertex(ByteState(enc[v - |g0.vertices|]), false, NOLABEL))
    && (forall v: nat :: |g0.vertices| <= v < |g.out| ==> g.out[v] == if v + 1 < |g.vertices| then [v + 1] else [])
  }

  lemma LiteralFirst(g0: Nfa, g: Nfa, enc: seq<Byte>)
    requires Wired(g0) && Wired(g) && enc != []
    requires g.vertices == g0.vertices + [Vertex(ByteState(enc[0]), false, NOLABEL)] && g.out == g0.out + [[]]
    ensures LiteralGraph(g0, g, enc, 1)
  {
    ReadsByte(enc[0]);
  }

  lemma LiteralStep(g0: Nfa, g: Nfa, g': Nfa, enc: seq<Byte>, n: nat)
    requires 0 < n < |enc| && LiteralGraph(g0, g, enc, n) && Wired(g')
    requires g'.vertices == g.vertices + [Vertex(ByteState(enc[n]), false, NOLABEL)]
    requires var last := |g.vertices| - 1; g'.out == (g.out + [[]])[last := g.out[last] + [|g.vertices|]]
    ensures LiteralGraph(g0, g', enc, n + 1)
  {
    ReadsByte(enc[n]);
    hide SomeByte;
  }

  lemma LiteralBuilds(g0: Nfa, g: Nfa, enc: seq<Byte>, n: Node)
    requires enc != [] && LiteralGraph(g0, g, enc, |enc|) && (n == Literal(enc) || (|enc| == 1 && n == RawByte(enc[0])))
    ensures Assembled(g, Fragment([|g0.vertices|], [Exit(|g.vertices| - 1, 0)], None), n, |g0.vertices|, |g.vertices|)
  {
    hide *;
    var lo, len := |g0.vertices|, |enc|;
    var f := Fragment([lo], [Exit(lo + len - 1, 0)], None);
    var chains := Tails(enc);
    LiteralChains(g0, g, enc);
    assert enc[0..] == enc;
    LiteralPrefers(enc);
    if n != Literal(enc) {
      assert enc == [enc[0]];
      BytePrefers(enc[0]);
    }
    forall u: seq<Byte> ensures Lang(n, u) <==> InRanges([Singles(enc)], u) {
      LiteralSpells(enc, u);
      if n != Literal(enc) {
        ByteIsLiteral(enc[0], u);
      }
    }
    LiteralShape(g0, g, enc, f);
    ChainsAssemble(g, g0, f, n, lo, chains, [Singles(enc)]);
  }

  lemma ByteIsLiteral(b: Byte, u: seq<Byte>)
    ensures Lang(RawByte(b), u) <==> Lang(Literal([b]), u)
  {
  }

  /** What is left of the literal from each of its vertices on. */
  function Tails(enc: seq<Byte>): (r: seq<Encoding>)
    ensures |r| == |enc| && forall i :: 0 <= i < |r| ==> r[i] == Singles(enc[i..])
  {
    seq(|enc|, i requires 0 <= i < |enc| => Singles(enc[i..]))
  }

  lemma LiteralShape(g0: Nfa, g: Nfa, enc: seq<Byte>, f: Fragment)
    requires enc != [] && LiteralGraph(g0, g, enc, |enc|)
    requires f == Fragment([|g0.vertices|], [Exit(|g0.vertices| + |enc| - 1, 0)], None)
    ensures Wired(g) && Wired(g0) && |g.vertices| == |g0.vertices| + |enc|
    ensures forall v: nat :: v < |g0.vertices| ==> v < |g.out| && v < |g0.out| && g.out[v] == g0.out[v]
    ensures ExitsInside(f.outs, |g0.vertices|, |g.vertices|)
    ensures Begins(|g0.vertices|, f.ins, Tails(enc), [Singles(enc)])
  {
    assert enc[0..] == enc;
  }

  lemma LiteralChains(g0: Nfa, g: Nfa, enc: seq<Byte>)
    requires enc != [] && LiteralGraph(g0, g, enc, |enc|)
    ensures Wired(g) && Chains(g, [Exit(|g0.vertices| + |enc| - 1, 0)], |g0.vertices|, Tails(enc))
  {
    var lo, outs, chains := |g0.vertices|, [Exit(|g0.vertices| + |enc| - 1, 0)], Tails(enc);
    forall i: nat | i < |chains| ensures ChainAt(g, outs, lo, chains, i) {
      LiteralChainAt(g0, g, enc, i);
    }
  }

  lemma LiteralChainAt(g0: Nfa, g: Nfa, enc: seq<Byte>, i: nat)
    requires i < |enc| && LiteralGraph(g0, g, enc, |enc|)
    ensures Wired(g) && ChainAt(g, [Exit(|g0.vertices| + |enc| - 1, 0)], |g0.vertices|, Tails(enc), i)
  {
    var lo, n := |g0.vertices|, |enc|;
    var outs, chains := [Exit(lo + n - 1, 0)], Tails(enc);
    assert Exits(outs, lo + i) <==> i == n - 1 by {
      assert outs[0].v == lo + n - 1;
    }
    assert g.vertices[lo + i] == Vertex(ByteState(enc[i]), false, NOLABEL);
    assert BytesOf(ByteState(enc[i])) == {enc[i]};
    hide Exits, BytesOf, Added;
    if i + 1 < n {
      var j: nat := i + 1;
      assert Singles(enc[i..])[1..] == Singles(enc[j..]);
      assert g.out[lo + i] == [lo + j] && chains[j] == chains[i][1..];
    }
  }

  /** literal, for the bytes that the encoder writes. */
  method BuildLiteral(g: Graph, enc: seq<Byte>) returns (f: Fragment)
    requires g.Valid() && enc != []
    modifies g
    ensures g.Valid() && Added(old(g.Value()), g.Value())
    ensures Assembled(g.Value(), f, Literal(enc), |old(g.Value()).vertices|, |g.Value().vertices|)
  {
    hide *;
    ghost var g0 := g.Value();
    SizesOf(g0);
    var first := g.AddVertex(Vertex(ByteState(enc[0]), false, NOLABEL));
    LiteralFirst(g0, g.Value(), enc);
    var prev, last := first, first;
    for i := 1 to |enc|
      invariant g.Valid() && LiteralGraph(g0, g.Value(), enc, i)
      invariant first == |g0.vertices| && prev == last == |g.Value().vertices| - 1
    {
      ghost var g1 := g.Value();
      SizesOf(g1);
      last := g.AddVertex(Vertex(ByteState(enc[i]), false, NOLABEL));
      var _ := g.AddEdge(prev, last);
      LiteralStep(g0, g1, g.Value(), enc, i);
      prev := last;
    }
    f := Fragment([first], [Exit(last, 0)], None);
    LiteralBuilds(g0, g.Value(), enc, Literal(enc));
    LiteralAdded(g0, g.Value(), enc);
  }

  lemma LiteralAdded(g0: Nfa, g: Nfa, enc: seq<Byte>)
    requires LiteralGraph(g0, g, enc, |enc|)
    ensures Added(g0, g)
  {
  }

  lemma SizesOf(g: Nfa)
    requires Wired(g)
    ensures |g.vertices| == |g.out| == |g.ins|
  {
  }

  // ----- character classes -----

  /** The chains of the ranges so far, and where each begins. */
  ghost predicate ClassGraph(g0: Nfa, g: Nfa, f: Fragment, chains: seq<Encoding>, ranges: Ranges) {
    && Added(g0, g) && Chains(g, f.outs, |g0.vertices|, chains) && Begins(|g0.vertices|, f.ins, chains, ranges)
    && f.skip.None? && ExitsInside(f.outs, |g0.vertices|, |g.vertices|)
    && (forall i, j :: 0 <= i < j < |f.outs| ==> f.outs[i].v != f.outs[j].v)
    && (forall i :: 0 <= i < |f.outs| ==> f.outs[i].pos == 0)
  }

  /** While a range is being built: tail begins the chain of its part from b on. */
  ghost predicate Meets(lo: nat, chains: seq<Encoding>, tail: nat, enc: Encoding, b: nat) {
    && lo <= tail < lo + |chains| && b <= |enc| && chains[tail - lo] == enc[b..]
  }

  lemma ChainsGrow(g: Nfa, g': Nfa, outs: seq<Exit>, outs': seq<Exit>, lo: nat, chains: seq<Encoding>, c: Encoding)
    requires Wired(g) && Wired(g') && Chains(g, outs, lo, chains) && c != []
    requires |g'.vertices| == |g.vertices| + 1 && g.vertices <= g'.vertices
    requires forall v: nat :: v < |g.out| ==> g'.out[v] == g.out[v]
    requires forall v: nat :: v < |g.vertices| ==> (Exits(outs', v) <==> Exits(outs, v))
    requires Exits(outs', |g.vertices|) <==> |c| == 1
    requires BytesOf(g'.vertices[|g.vertices|].trans) == c[0]
    requires if |c| == 1 then g'.out[|g.vertices|] == []
             else exists j: nat :: j < |chains| && g'.out[|g.vertices|] == [lo + j] && chains[j] == c[1..]
    ensures Chains(g', outs', lo, chains + [c])
  {
    hide Exits;
    var chains' := chains + [c];
    forall i: nat | i < |chains'| ensures ChainAt(g', outs', lo, chains', i) {
      if i < |chains| {
        assert ChainAt(g, outs, lo, chains, i);
        if |chains[i]| > 1 {
          var j: nat :| j < |chains| && g.out[lo + i] == [lo + j] && chains[j] == chains[i][1..];
          assert chains'[j] == chains'[i][1..];
        }
      } else if |c| > 1 {
        var j: nat :| j < |chains| && g'.out[|g.vertices|] == [lo + j] && chains[j] == c[1..];
        assert chains'[j] == chains'[i][1..];
      }
    }
  }

  lemma BeginsGrow(lo: nat, ins: seq<nat>, chains: seq<Encoding>, ranges: Ranges, c: Encoding)
    requires Begins(lo, ins, chains, ranges)
    ensures Begins(lo, ins, chains + [c], ranges)
  {
  }

  lemma ExitsOne(outs: seq<Exit>, x: nat, v: nat)
    ensures Exits(outs + [Exit(x, 0)], v) <==> Exits(outs, v) || v == x
  {
    ExitsEither(outs, [Exit(x, 0)], v);
    assert [Exit(x, 0)][0].v == x;
  }

  /** A new last vertex, which is an exit. */
  lemma NewTail(g0: Nfa, g: Nfa, g': Nfa, f: Fragment, chains: seq<Encoding>, ranges: Ranges, t: Transition, c: set<Byte>)
    requires ClassGraph(g0, g, f, chains, ranges) && Wired(g')
    requires g'.vertices == g.vertices + [Vertex(t, false, NOLABEL)] && g'.out == g.out + [[]]
    requires Transitions.Covers(t, c) && c != {}
    ensures ClassGraph(g0, g', f.(outs := f.outs + [Exit(|g.vertices|, 0)]), chains + [[c]], ranges)
  {
    var outs' := f.outs + [Exit(|g.vertices|, 0)];
    ReadsCovered(t, c);
    assert BytesOf(t) == c;
    assert Added(g, g') && Wired(g);
    AddedTwice(g0, g, g');
    forall v: nat ensures Exits(outs', v) <==> Exits(f.outs, v) || v == |g.vertices| {
      ExitsOne(f.outs, |g.vertices|, v);
    }
    forall v: nat ensures Exits(f.outs, v) ==> v < |g.vertices| {
      if Exits(f.outs, v) {
        ExitInside(f.outs, v, |g0.vertices|, |g.vertices|);
      }
    }
    hide Exits, BytesOf;
    ChainsGrow(g, g', f.outs, outs', |g0.vertices|, chains, [c]);
    BeginsGrow(|g0.vertices|, f.ins, chains, ranges, [c]);
    hide Chains, Begins, Added;
  }

  /** A new vertex in front of a chain. */
  lemma NewHead(g0: Nfa, g: Nfa, g': Nfa, f: Fragment, chains: seq<Encoding>, ranges: Ranges, t: Transition, c: set<Byte>, tail: nat)
    requires ClassGraph(g0, g, f, chains, ranges) && Wired(g')
    requires |g0.vertices| <= tail < |g0.vertices| + |chains|
    requires g'.vertices == g.vertices + [Vertex(t, false, NOLABEL)] && g'.out == g.out + [[tail]]
    requires Transitions.Covers(t, c) && c != {}
    ensures ClassGraph(g0, g', f, chains + [[c] + chains[tail - |g0.vertices|]], ranges)
  {
    var lo := |g0.vertices|;
    var enc := [c] + chains[tail - lo];
    ReadsCovered(t, c);
    assert BytesOf(t) == c;
    assert Added(g, g') && Wired(g);
    AddedTwice(g0, g, g');
    assert ChainAt(g, f.outs, lo, chains, tail - lo);
    assert enc[1..] == chains[tail - lo] && chains[tail - lo] != [];
    forall v: nat ensures Exits(f.outs, v) ==> v < |g.vertices| {
      if Exits(f.outs, v) {
        ExitInside(f.outs, v, |g0.vertices|, |g.vertices|);
      }
    }
    hide Exits, BytesOf, ChainAt;
    ChainsGrow(g, g', f.outs, f.outs, lo, chains, enc);
    BeginsGrow(lo, f.ins, chains, ranges, enc);
    hide Chains, Begins, Added;
  }

  /** An entry for a range whose chain is complete. */
  lemma NewEntry(g0: Nfa, g: Nfa, f: Fragment, chains: seq<Encoding>, ranges: Ranges, enc: Encoding, tail: nat)
    requires ClassGraph(g0, g, f, chains, ranges) && Meets(|g0.vertices|, chains, tail, enc, 0)
    ensures ClassGraph(g0, g, f.(ins := f.ins + [tail]), chains, ranges + [enc])
  {
    assert enc[0..] == enc;
    hide Chains, Added;
  }

  /** An exit whose bytes are the last of the range. */
  method FindExit(g: Graph, outs: seq<Exit>, last: set<Byte>) returns (oi: nat)
    requires g.Valid() && ExitsInside(outs, 0, |g.Vertices|)
    ensures oi <= |outs| && (oi < |outs| ==> outs[oi].v < |g.Vertices| && BytesOf(g.Vertices[outs[oi].v].trans) == last)
  {
    oi := 0;
    while oi < |outs|
      invariant oi <= |outs|
    {
      if BytesOf(g.Vertices[outs[oi].v].trans) == last {
        return;
      }
      oi := oi + 1;
    }
  }

  /** A parent whose bytes are the given ones, or 0. */
  method FindParent(g: Graph, tail: nat, bytes: set<Byte>) returns (head: nat)
    requires g.Valid() && tail < |g.Vertices|
    ensures head != 0 ==> head < |g.Vertices| && BytesOf(g.Vertices[head].trans) == bytes && head in g.Value().ins[tail]
  {
    var hs := g.InVertices(tail);
    assert forall i :: 0 <= i < |hs| ==> hs[i] in g.Value().ins[tail] && hs[i] < |g.Vertices|;
    head := 0;
    for i := 0 to |hs|
      invariant head == 0
    {
      if BytesOf(g.Vertices[hs[i]].trans) == bytes {
        head := hs[i];
        return;
      }
    }
  }

  /** An exit of the class begins a chain of one. */
  lemma ExitMeets(g0: Nfa, g: Nfa, f: Fragment, chains: seq<Encoding>, ranges: Ranges, oi: nat, enc: Encoding)
    requires ClassGraph(g0, g, f, chains, ranges) && oi < |f.outs| && enc != []
    requires f.outs[oi].v < |g.vertices| && BytesOf(g.vertices[f.outs[oi].v].trans) == enc[|enc| - 1]
    ensures Meets(|g0.vertices|, chains, f.outs[oi].v, enc, |enc| - 1)
  {
    var lo, v := |g0.vertices|, f.outs[oi].v;
    assert Exits(f.outs, v);
    assert ChainAt(g, f.outs, lo, chains, v - lo);
    assert chains[v - lo] == [enc[|enc| - 1]];
  }

  /** A parent in the class begins a chain of one more. */
  lemma ParentMeets(g0: Nfa, g: Nfa, f: Fragment, chains: seq<Encoding>, ranges: Ranges, tail: nat, head: nat, enc: Encoding, b: nat)
    requires ClassGraph(g0, g, f, chains, ranges) && Matched(g) && Meets(|g0.vertices|, chains, tail, enc, b + 1)
    requires head < |g.vertices| && tail < |g.ins| && head in g.ins[tail] && BytesOf(g.vertices[head].trans) == enc[b]
    ensures Meets(|g0.vertices|, chains, head, enc, b)
  {
    var lo := |g0.vertices|;
    assert tail in g.out[head];
    assert head >= lo;
    assert ChainAt(g, f.outs, lo, chains, head - lo);
    var c := chains[head - lo];
    if |c| > 1 {
      var j: nat :| j < |chains| && g.out[head] == [lo + j] && chains[j] == c[1..];
      assert lo + j == tail;
      assert c == [enc[b]] + enc[b + 1..];
      assert enc[b..] == c;
    }
  }

  lemma MeetsLast(lo: nat, chains: seq<Encoding>, enc: Encoding)
    requires enc != []
    ensures Meets(lo, chains + [[enc[|enc| - 1]]], lo + |chains|, enc, |enc| - 1)
  {
    assert enc[|enc| - 1..] == [enc[|enc| - 1]];
  }

  lemma MeetsHead(lo: nat, chains: seq<Encoding>, tail: nat, enc: Encoding, b: nat)
    requires Meets(lo, chains, tail, enc, b + 1)
    ensures b < |enc| && lo <= tail < lo + |chains|
    ensures Meets(lo, chains + [[enc[b]] + chains[tail - lo]], lo + |chains|, enc, b)
  {
    assert enc[b..] == [enc[b]] + enc[b + 1..];
  }

  lemma ClassSizes(g0: Nfa, g: Nfa, f: Fragment, chains: seq<Encoding>, ranges: Ranges)
    requires ClassGraph(g0, g, f, chains, ranges)
    ensures Wired(g0) && Wired(g) && |g.vertices| == |g0.vertices| + |chains| && |g.out| == |g.vertices| == |g.ins|
    ensures ExitsInside(f.outs, 0, |g.vertices|)
    ensures forall i :: 0 <= i < |f.outs| ==> f.outs[i].v < |g.vertices|
    ensures 0 < |g.vertices|
  {
    hide ChainAt, Begins;
  }

  /** Walk back from the end of a chain as far as its bytes are those of the encoding. */
  method WalkBack(g: Graph, tail0: nat, enc: Encoding, ghost g0: Nfa, ghost f: Fragment, ghost chains: seq<Encoding>, ghost ranges: Ranges)
    returns (tail: nat, b: nat)
    requires g.Valid() && ClassGraph(g0, g.Value(), f, chains, ranges) && enc != []
    requires Meets(|g0.vertices|, chains, tail0, enc, |enc| - 1)
    ensures Meets(|g0.vertices|, chains, tail, enc, b)
  {
    hide *;
    ClassSizes(g0, g.Value(), f, chains, ranges);
    tail, b := tail0, |enc| - 1;
    while b > 0
      invariant b < |enc| && Meets(|g0.vertices|, chains, tail, enc, b)
    {
      MeetsInside(|g0.vertices|, chains, tail, enc, b);
      var head := FindParent(g, tail, enc[b - 1]);
      if head == 0 {
        // tail is as far back as we can go
        return;
      }
      ParentMeets(g0, g.Value(), f, chains, ranges, tail, head, enc, b - 1);
      tail := head;
      b := b - 1;
    }
  }

  lemma MeetsInside(lo: nat, chains: seq<Encoding>, tail: nat, enc: Encoding, b: nat)
    requires Meets(lo, chains, tail, enc, b)
    ensures lo <= tail < lo + |chains|
  {
  }

  lemma FirstEdge(out: seq<seq<nat>>, tail: nat)
    ensures (out + [[]])[|out| := (out + [[]])[|out|] + [tail]] == out + [[tail]]
  {
    assert (out + [[]])[|out|] + [tail] == [tail];
  }

  /** Build from the start of the encoding to meet the existing suffix. */
  method BuildHeads(g: Graph, tail0: nat, enc: Encoding, b0: nat, ghost g0: Nfa, ghost f: Fragment, ghost chains: seq<Encoding>,
                    ghost ranges: Ranges)
    returns (tail: nat, ghost chains': seq<Encoding>)
    requires g.Valid() && ClassGraph(g0, g.Value(), f, chains, ranges) && Meets(|g0.vertices|, chains, tail0, enc, b0)
    requires Proper(enc)
    modifies g
    ensures g.Valid() && ClassGraph(g0, g.Value(), f, chains', ranges) && Meets(|g0.vertices|, chains', tail, enc, 0)
  {
    hide *;
    tail, chains' := tail0, chains;
    var b: nat := b0;
    while b > 0
      invariant g.Valid() && ClassGraph(g0, g.Value(), f, chains', ranges) && Meets(|g0.vertices|, chains', tail, enc, b)
    {
      ghost var g1 := g.Value();
      ClassSizes(g0, g1, f, chains', ranges);
      b := b - 1;
      MeetsHead(|g0.vertices|, chains', tail, enc, b);
      ProperAt(enc, b);
      var t := Transitions.GetSmallest(enc[b]);
      var head := g.AddVertex(Vertex(t, false, NOLABEL));
      var _ := g.AddEdge(head, tail);
      FirstEdge(g1.out, tail);
      NewHead(g0, g1, g.Value(), f, chains', ranges, t, enc[b], tail);
      chains' := chains' + [[enc[b]] + chains'[tail - |g0.vertices|]];
      tail := head;
    }
  }

  lemma ProperAt(enc: Encoding, i: int)
    requires Proper(enc)
    ensures enc != [] && (0 <= i < |enc| ==> enc[i] != {})
  {
  }

  /** One range of a character class, sharing the end of another if there is one that fits. */
  method AddRange(g: Graph, f: Fragment, enc: Encoding, ghost g0: Nfa, ghost chains: seq<Encoding>, ghost ranges: Ranges)
    returns (f': Fragment, ghost chains': seq<Encoding>)
    requires g.Valid() && ClassGraph(g0, g.Value(), f, chains, ranges) && Proper(enc)
    modifies g
    ensures g.Valid() && ClassGraph(g0, g.Value(), f', chains', ranges + [enc])
  {
    ProperAt(enc, |enc| - 1);
    hide *;
    ghost var g1 := g.Value();
    ClassSizes(g0, g1, f, chains, ranges);
    f', chains' := f, chains;
    // find a match for the last transition
    var oi := FindExit(g, f.outs, enc[|enc| - 1]);
    var tail: nat, b: nat;
    if oi < |f.outs| {
      // match, use this tail
      ExitMeets(g0, g1, f, chains, ranges, oi, enc);
      tail, b := WalkBack(g, f.outs[oi].v, enc, g0, f, chains, ranges);
    } else {
      // no match, build a new tail
      var t := Transitions.GetSmallest(enc[|enc| - 1]);
      tail := g.AddVertex(Vertex(t, false, NOLABEL));
      b := |enc| - 1;
      NewTail(g0, g1, g.Value(), f, chains, ranges, t, enc[b]);
      MeetsLast(|g0.vertices|, chains, enc);
      f' := f.(outs := f.outs + [Exit(tail, 0)]);
      chains' := chains + [[enc[b]]];
    }
    tail, chains' := BuildHeads(g, tail, enc, b, g0, f', chains', ranges);
    NewEntry(g0, g.Value(), f', chains', ranges, enc, tail);
    f' := f'.(ins := f'.ins + [tail]);
  }

  lemma NoRangesYet(g0: Nfa)
    requires Wired(g0)
    ensures ClassGraph(g0, g0, Fragment([], [], None), [], [])
  {
  }

  lemma ClassBuilds(g0: Nfa, g: Nfa, f: Fragment, chains: seq<Encoding>, ranges: Ranges, n: Node)
    requires ClassGraph(g0, g, f, chains, ranges) && n.CharClass? && Adjusted(n.ranges, n.breakout, n.additive) == Some(ranges)
    requires ranges != []
    ensures Added(g0, g) && Assembled(g, f, n, |g0.vertices|, |g.vertices|)
  {
    forall u: seq<Byte> ensures Lang(n, u) <==> InRanges(ranges, u) {
      ClassSpells(n, ranges, u);
    }
    assert PrefersRanges(n, ranges);
    hide Chains, Lang, InRanges, PrefersRanges;
    ChainsAssemble(g, g0, f, n, |g0.vertices|, chains, ranges);
  }

  /** charClass, for the ranges that the encoder writes; nothing is built where the source throws. */
  method BuildClass(g: Graph, n: Node) returns (f: Fragment, ok: bool)
    requires g.Valid() && n.CharClass? && WellWritten(n.ranges)
    modifies g
    ensures ok <==> Adjusted(n.ranges, n.breakout, n.additive).Some?
    ensures g.Valid() && Added(old(g.Value()), g.Value())
    ensures ok ==> Assembled(g.Value(), f, n, |old(g.Value()).vertices|, |g.Value().vertices|)
  {
    hide *;
    ghost var g0 := g.Value();
    f := Fragment([], [], None);
    AddedSelf(g0);
    NoRangesYet(g0);
    var adjusted := Adjusted(n.ranges, n.breakout, n.additive);
    if adjusted.None? {
      ok := false;
      return;
    }
    ok := true;
    AdjustedShape(n);
    var ranges := adjusted.value;
    ghost var chains: seq<Encoding> := [];
    assert ranges[..0] == [];
    for k := 0 to |ranges|
      invariant g.Valid() && ClassGraph(g0, g.Value(), f, chains, ranges[..k])
    {
      f, chains := AddRange(g, f, ranges[k], g0, chains, ranges[..k]);
      assert ranges[..k] + [ranges[k]] == ranges[..k + 1];
    }
    assert ranges[..|ranges|] == ranges;
    ClassBuilds(g0, g.Value(), f, chains, ranges, n);
  }

  lemma AddedSelf(g: Nfa)
    requires Wired(g)
    ensures Added(g, g)
  {
  }

  lemma AdjustedShape(n: Node)
    requires n.CharClass? && WellWritten(n.ranges) && Adjusted(n.ranges, n.breakout, n.additive).Some?
    ensures var r := Adjusted(n.ranges, n.breakout, n.additive).value;
            r != [] && forall i :: 0 <= i < |r| ==> Proper(r[i])
  {
    AdjustedProper(n.ranges, n.breakout, n.additive);
  }
}
