/**
 The image of one automaton in another: what mergeIntoFSM builds step by step
 (src/lib/nfaoptimizer.cpp:37-200), and what it does to the languages.
 */
module Images {
  import opened Basics
  import opened Automata
  import opened Graphs
  import opened Readings
  import opened Sequences

  // ----- the image of the source in the destination -----

  predicate SameBytes(a: Transition, b: Transition) {
    forall x: nat | 0 <= x < 256 :: a.Permits(x) <==> b.Permits(x)
  }

  predicate SameVertex(a: Vertex, b: Vertex) {
    SameBytes(a.trans, b.trans) && a.isMatch == b.isMatch && a.lbl == b.lbl
  }

  /** What is asked of both automata: only matches have labels, and nothing leads to the initial vertex. */
  ghost predicate Plain(g: Nfa) {
    && Wired(g) && Matched(g) && g.ins[0] == [] && !g.vertices[0].isMatch
    && (forall v :: 0 <= v < |g.vertices| ==> (g.vertices[v].isMatch <==> g.vertices[v].lbl != NOLABEL))
  }

  /** Another source vertex has the same image, or the image was there before. */
  ghost predicate Shared(phi: seq<Option<nat>>, n0: nat, s: nat)
    requires s < |phi| && phi[s].Some?
  {
    phi[s].value < n0 || exists s' :: 0 <= s' < |phi| && s' != s && phi[s'] == phi[s]
  }

  /** Every in edge of the image of s is the image of an in edge of s. */
  ghost predicate BackAt(src: Nfa, g: Nfa, phi: seq<Option<nat>>, s: nat, p: nat)
    requires Wired(src) && Wired(g) && |phi| == |src.out|
  {
    exists h: nat :: h < |phi| && phi[h] == Some(p) && s in src.out[h]
  }

  ghost predicate Image(src: Nfa, g0: Nfa, g: Nfa, phi: seq<Option<nat>>)
    requires Wired(src) && Wired(g0) && Wired(g)
  {
    && |phi| == |src.out| && |g0.vertices| <= |g.vertices|
    && (forall s: nat :: s < |phi| && phi[s].Some? ==> phi[s].value < |g.vertices| && (phi[s].value == 0 <==> s == 0))
    && phi[0] == Some(0)
    && (forall s: nat :: 0 < s < |phi| && phi[s].Some? ==> SameVertex(src.vertices[s], g.vertices[phi[s].value]))
    && (forall s: nat, p: nat :: 0 < s < |phi| && phi[s].Some? && p < |g.out| && phi[s].value in g.out[p] ==>
          BackAt(src, g, phi, s, p))
    && (forall s: nat :: 0 < s < |phi| && phi[s].Some? && Shared(phi, |g0.vertices|, s) ==> |src.ins[s]| == 1)
    && (forall d: nat :: |g0.vertices| <= d < |g.vertices| ==> Some(d) in phi)
  }

  /** The destination as it was is still there, and nothing new leads into it. */
  ghost predicate Kept(g0: Nfa, g: Nfa)
    requires Wired(g0) && Wired(g)
  {
    && g0.vertices <= g.vertices
    && (forall h: nat, t :: h < |g0.out| && t in g0.out[h] ==> t in g.out[h])
    && (forall h: nat, t :: h < |g.out| && t in g.out[h] && t < |g0.vertices| ==> h < |g0.out| && t in g0.out[h])
  }

  /** The edges that have been visited have images, and every mapped vertex was entered by one. */
  ghost predicate Tracked(src: Nfa, g: Nfa, phi: seq<Option<nat>>, visited: set<(nat, nat)>)
    requires Wired(src) && Wired(g)
  {
    && |phi| == |src.out|
    && (forall h: nat, i: nat :: (h, i) in visited ==>
          && h < |phi| && i < |src.out[h]| && phi[h].Some? && phi[h].value < |g.out|
          && phi[src.out[h][i]].Some? && phi[src.out[h][i]].value in g.out[phi[h].value])
    && (forall t: nat :: 0 < t < |phi| && phi[t].Some? ==> Entered(src, visited, t))
  }

  ghost predicate Entered(src: Nfa, visited: set<(nat, nat)>, t: nat) {
    exists h: nat, i: nat :: (h, i) in visited && h < |src.out| && i < |src.out[h]| && src.out[h][i] == t
  }

  /** Every out edge of a mapped vertex has been visited or waits. */
  ghost predicate Queued(src: Nfa, phi: seq<Option<nat>>, visited: set<(nat, nat)>, edges: seq<(nat, nat)>)
    requires Wired(src)
  {
    && |phi| == |src.out|
    && (forall h: nat, i: nat :: h < |phi| && phi[h].Some? && i < |src.out[h]| ==> (h, i) in visited || (h, i) in edges)
    && (forall k :: 0 <= k < |edges| ==>
          edges[k].0 < |phi| && edges[k].1 < |src.out[edges[k].0]| && phi[edges[k].0].Some?)
  }

  /** Dst2Src: the sources of an image, the first of them in front. */
  ghost predicate Inverted(phi: seq<Option<nat>>, back: map<nat, seq<nat>>) {
    && (forall s: nat :: 0 < s < |phi| && phi[s].Some? ==> phi[s].value in back)
    && (forall d: nat :: d in back ==> back[d] != [] && 0 < back[d][0] < |phi| && phi[back[d][0]] == Some(d))
  }

  // ----- what an image gives -----

  /** Whoever is mapped and read in the source is read in the destination. */
  lemma {:induction false} ReadsForward(src: Nfa, g0: Nfa, g: Nfa, phi: seq<Option<nat>>, visited: set<(nat, nat)>, u: seq<Byte>, s: nat)
    requires Wired(src) && Wired(g0) && Wired(g) && Plain(src)
    requires Image(src, g0, g, phi) && Tracked(src, g, phi, visited) && Queued(src, phi, visited, [])
    requires s < |phi| && Reads(src, u, s)
    ensures phi[s].Some? && Reads(g, u, phi[s].value)
    decreases |u|
  {
    if u != [] {
      var front, x := u[..|u| - 1], u[|u| - 1];
      var h: nat :| h < |src.out| && s in src.out[h] && Permits(src, s, x) && Reads(src, front, h);
      ReadsForward(src, g0, g, phi, visited, front, h);
      var i: nat :| i < |src.out[h]| && src.out[h][i] == s;
      assert (h, i) in visited;
      assert h in src.ins[s] && s != 0;
      assert SameVertex(src.vertices[s], g.vertices[phi[s].value]);
    }
  }

  /** Whatever is read to an image in the destination is read to each of its sources. */
  lemma {:induction false} ReadsBackward(src: Nfa, g0: Nfa, g: Nfa, phi: seq<Option<nat>>, u: seq<Byte>, s: nat)
    requires Wired(src) && Wired(g0) && Wired(g) && Plain(g) && Image(src, g0, g, phi)
    requires s < |phi| && phi[s].Some? && Reads(g, u, phi[s].value)
    ensures Reads(src, u, s)
    decreases |u|
  {
    if u != [] {
      var front, x := u[..|u| - 1], u[|u| - 1];
      var p: nat :| p < |g.out| && phi[s].value in g.out[p] && Permits(g, phi[s].value, x) && Reads(g, front, p);
      assert p in g.ins[phi[s].value] && s != 0;
      assert BackAt(src, g, phi, s, p);
      var h: nat :| h < |phi| && phi[h] == Some(p) && s in src.out[h];
      ReadsBackward(src, g0, g, phi, front, h);
      assert SameVertex(src.vertices[s], g.vertices[phi[s].value]);
    }
  }

  /** What could be read can still be read, and what is read to an old vertex could be read. */
  lemma {:induction false} ReadsKept(g0: Nfa, g: Nfa, u: seq<Byte>, v: nat)
    requires Wired(g0) && Wired(g) && Kept(g0, g) && v < |g0.vertices|
    ensures Reads(g0, u, v) <==> Reads(g, u, v)
    decreases |u|
  {
    if u != [] {
      var front, x := u[..|u| - 1], u[|u| - 1];
      if Reads(g0, u, v) {
        var h: nat :| h < |g0.out| && v in g0.out[h] && Permits(g0, v, x) && Reads(g0, front, h);
        ReadsKept(g0, g, front, h);
        assert v in g.out[h];
      }
      if Reads(g, u, v) {
        var h: nat :| h < |g.out| && v in g.out[h] && Permits(g, v, x) && Reads(g, front, h);
        assert h < |g0.out| && v in g0.out[h];
        ReadsKept(g0, g, front, h);
      }
    }
  }

  /** No match of the destination has the label of the source. */
  ghost predicate FreshLabel(src: Nfa, g0: Nfa, l: nat) {
    && (forall v :: 0 <= v < |src.vertices| && src.vertices[v].isMatch ==> src.vertices[v].lbl == l)
    && (forall v :: 0 <= v < |g0.vertices| && g0.vertices[v].isMatch ==> g0.vertices[v].lbl != l)
  }

  ghost predicate Merged(src: Nfa, g0: Nfa, g: Nfa, phi: seq<Option<nat>>, visited: set<(nat, nat)>, edges: seq<(nat, nat)>) {
    && Plain(src) && Plain(g0) && Plain(g)
    && Image(src, g0, g, phi) && Kept(g0, g) && Tracked(src, g, phi, visited) && Queued(src, phi, visited, edges)
  }

  /** The label of the source keeps the language of the source, every other label its own. */
  lemma LanguagesMerged(src: Nfa, g0: Nfa, g: Nfa, phi: seq<Option<nat>>, visited: set<(nat, nat)>, lnew: nat, l: nat, u: seq<Byte>)
    requires Merged(src, g0, g, phi, visited, []) && FreshLabel(src, g0, lnew)
    ensures Accepts(g, l, 0, u) <==> (if l == lnew then Accepts(src, l, 0, u) else Accepts(g0, l, 0, u))
  {
    SpellsIsAccepts(g, l, u);
    SpellsIsAccepts(src, l, u);
    SpellsIsAccepts(g0, l, u);
    if l == lnew {
      NewLanguage(src, g0, g, phi, visited, l, u);
    } else {
      OldLanguage(src, g0, g, phi, visited, lnew, l, u);
    }
  }

  lemma NewLanguage(src: Nfa, g0: Nfa, g: Nfa, phi: seq<Option<nat>>, visited: set<(nat, nat)>, l: nat, u: seq<Byte>)
    requires Merged(src, g0, g, phi, visited, []) && FreshLabel(src, g0, l)
    ensures Spells(g, l, u) <==> Spells(src, l, u)
  {
    hide Accepts, Kept, Tracked, Queued;
    if Spells(src, l, u) {
      var s: nat :| s < |src.vertices| && Reads(src, u, s) && Accepting(src, l, s);
      ReadsForward(src, g0, g, phi, visited, u, s);
      assert Accepting(g, l, phi[s].value);
    }
    if Spells(g, l, u) {
      var d: nat :| d < |g.vertices| && Reads(g, u, d) && Accepting(g, l, d);
      assert d >= |g0.vertices| by {
        KeptVertex(g0, g, d);
      }
      var s: nat :| s < |phi| && phi[s] == Some(d);
      ReadsBackward(src, g0, g, phi, u, s);
      assert s != 0 && Accepting(src, l, s);
    }
  }

  lemma KeptVertex(g0: Nfa, g: Nfa, d: nat)
    requires Wired(g0) && Wired(g) && Kept(g0, g)
    ensures d < |g0.vertices| ==> d < |g.vertices| && g.vertices[d] == g0.vertices[d]
  {
  }

  /** A new match has the label of the source. */
  lemma NewIsOfSource(src: Nfa, g0: Nfa, g: Nfa, phi: seq<Option<nat>>, d: nat)
    requires Wired(src) && Wired(g0) && Wired(g) && Image(src, g0, g, phi) && |g0.vertices| <= d < |g.vertices|
    ensures exists s: nat :: s < |src.vertices| && SameVertex(src.vertices[s], g.vertices[d])
  {
    var s: nat :| s < |phi| && phi[s] == Some(d);
    assert SameVertex(src.vertices[s], g.vertices[d]);
  }

  lemma OldLanguage(src: Nfa, g0: Nfa, g: Nfa, phi: seq<Option<nat>>, visited: set<(nat, nat)>, lnew: nat, l: nat, u: seq<Byte>)
    requires Merged(src, g0, g, phi, visited, []) && FreshLabel(src, g0, lnew) && l != lnew
    ensures Spells(g, l, u) <==> Spells(g0, l, u)
  {
    hide Accepts, Tracked, Queued;
    if Spells(g0, l, u) {
      var v: nat :| v < |g0.vertices| && Reads(g0, u, v) && Accepting(g0, l, v);
      ReadsKept(g0, g, u, v);
      assert Accepting(g, l, v);
    }
    if Spells(g, l, u) {
      var d: nat :| d < |g.vertices| && Reads(g, u, d) && Accepting(g, l, d);
      if d >= |g0.vertices| {
        NewIsOfSource(src, g0, g, phi, d);
      }
      ReadsKept(g0, g, u, d);
      assert Accepting(g0, l, d);
    }
  }

  // ----- the steps -----

  /** The image of the only in edge of a mapped vertex. */
  lemma OnlyEdge(src: Nfa, g: Nfa, phi: seq<Option<nat>>, visited: set<(nat, nat)>, h: nat, i: nat)
    requires Wired(src) && Wired(g) && Plain(src) && Tracked(src, g, phi, visited)
    requires h < |phi| && i < |src.out[h]| && src.out[h][i] < |phi| && phi[src.out[h][i]].Some?
    requires |src.ins[src.out[h][i]]| == 1
    ensures phi[h].Some? && phi[h].value < |g.out| && phi[src.out[h][i]].value in g.out[phi[h].value]
  {
    var t := src.out[h][i];
    ParentIn(src, h, i);
    assert Entered(src, visited, t);
    hide Plain, Wired;
    var h': nat, i': nat :| (h', i') in visited && h' < |src.out| && i' < |src.out[h']| && src.out[h'][i'] == t;
    ParentIn(src, h', i');
    assert h' == h;
  }

  /** A mapped vertex that is not alone in its image has one in edge, which has been visited. */
  lemma MappedAgain(src: Nfa, g0: Nfa, g: Nfa, phi: seq<Option<nat>>, visited: set<(nat, nat)>, h: nat, i: nat)
    requires Plain(src) && Plain(g0) && Plain(g) && Image(src, g0, g, phi) && Tracked(src, g, phi, visited)
    requires h < |phi| && i < |src.out[h]| && phi[h].Some? && phi[src.out[h][i]].Some?
    ensures phi[h].value < |g.out|
    ensures phi[src.out[h][i]].value in g.out[phi[h].value]
         || !Shared(phi, |g0.vertices|, src.out[h][i])
  {
    var t := src.out[h][i];
    ParentIn(src, h, i);
    hide Plain, Wired, Tracked, Shared;
    if Shared(phi, |g0.vertices|, t) {
      OnlyEdge(src, g, phi, visited, h, i);
    }
  }

  lemma ParentIn(g: Nfa, h: nat, i: nat)
    requires Plain(g) && h < |g.out| && i < |g.out[h]|
    ensures g.out[h][i] < |g.ins| && g.out[h][i] in g.out[h] && h in g.ins[g.out[h][i]] && g.out[h][i] != 0
  {
    assert g.out[h][i] in g.out[h];
  }

  /** An edge between two images. */
  lemma AddImageEdge(src: Nfa, g0: Nfa, g: Nfa, g': Nfa, phi: seq<Option<nat>>, h: nat, t: nat, di: nat, ti: nat)
    requires Plain(src) && Plain(g0) && Plain(g) && Image(src, g0, g, phi) && Kept(g0, g)
    requires h < |phi| && t in src.out[h] && phi[h].Some? && t < |phi| && t != 0 && phi[t].Some?
    requires !Shared(phi, |g0.vertices|, t)
    requires var p, d := phi[h].value, phi[t].value;
             p < |g.out| && d < |g.ins| &&
             g' == Nfa(g.vertices, g.out[p := Inserted(g.out[p], di, d)], g.ins[d := Inserted(g.ins[d], ti, p)])
    requires Wired(g') && Matched(g')
    ensures Plain(g') && Image(src, g0, g', phi) && Kept(g0, g') && phi[t].value in g'.out[phi[h].value]
    ensures forall q: nat, x :: q < |g.out| && x in g.out[q] ==> x in g'.out[q]
  {
    var p, d := phi[h].value, phi[t].value;
    forall q: nat, x: nat | q < |g.out| ensures x in g'.out[q] <==> x in g.out[q] || (q == p && x == d) {
      if q == p {
        InsertedIn(g.out[p], di, d, x);
      }
    }
    assert g'.ins[0] == g.ins[0];
    forall s: nat, q: nat | 0 < s < |phi| && phi[s].Some? && q < |g'.out| && phi[s].value in g'.out[q]
      ensures BackAt(src, g', phi, s, q)
    {
      if phi[s].value in g.out[q] {
        assert BackAt(src, g, phi, s, q);
      } else {
        assert phi[s] == phi[t];
        assert s == t;
        assert phi[h] == Some(q) && s in src.out[h];
      }
    }
  }

  /** The classes that are mapped onto d, before one more is. */
  ghost predicate Joinable(src: Nfa, phi: seq<Option<nat>>, d: nat)
    requires Wired(src) && |phi| == |src.ins|
  {
    forall s: nat :: s < |phi| && phi[s] == Some(d) ==> |src.ins[s]| == 1
  }

  /** Another source vertex for a vertex with one in edge. */
  lemma Join(src: Nfa, g0: Nfa, g: Nfa, phi: seq<Option<nat>>, h: nat, t: nat, d: nat)
    requires Plain(src) && Plain(g0) && Plain(g) && Image(src, g0, g, phi)
    requires h < |phi| && t in src.out[h] && phi[h].Some? && t < |phi| && phi[t].None? && 0 < d < |g.vertices|
    requires phi[h].value < |g.out| && d in g.out[phi[h].value] && |g.ins[d]| == 1 && |src.ins[t]| == 1
    requires SameVertex(src.vertices[t], g.vertices[d]) && Joinable(src, phi, d)
    ensures Image(src, g0, g, phi[t := Some(d)])
  {
    var phi' := phi[t := Some(d)];
    PlainWired(src);
    PlainWired(g);
    JoinBack(src, g0, g, phi, h, t, d);
    JoinCovers(src, g0, g, phi, t, d);
    forall s: nat | 0 < s < |phi'| && phi'[s].Some? && Shared(phi', |g0.vertices|, s) ensures |src.ins[s]| == 1 {
      JoinShared(src, g0, g, phi, t, d, s);
    }
    assert t != 0;
    hide BackAt, Shared, Matched, SameVertex;
  }

  lemma JoinBack(src: Nfa, g0: Nfa, g: Nfa, phi: seq<Option<nat>>, h: nat, t: nat, d: nat)
    requires Plain(src) && Plain(g0) && Plain(g) && Image(src, g0, g, phi)
    requires h < |phi| && t in src.out[h] && phi[h].Some? && t < |phi| && phi[t].None? && 0 < d < |g.vertices|
    requires phi[h].value < |g.out| && d in g.out[phi[h].value] && |g.ins[d]| == 1
    ensures var phi' := phi[t := Some(d)];
            forall s: nat, p: nat :: 0 < s < |phi'| && phi'[s].Some? && p < |g.out| && phi'[s].value in g.out[p] ==> BackAt(src, g, phi', s, p)
  {
    var phi' := phi[t := Some(d)];
    hide Shared;
    forall s: nat, p: nat | 0 < s < |phi'| && phi'[s].Some? && p < |g.out| && phi'[s].value in g.out[p]
      ensures BackAt(src, g, phi', s, p)
    {
      if s == t {
        assert p in g.ins[d] && phi[h].value in g.ins[d];
        assert phi'[h] == Some(p) && s in src.out[h];
      } else {
        assert BackAt(src, g, phi, s, p);
        var k: nat :| k < |phi| && phi[k] == Some(p) && s in src.out[k];
        assert phi'[k] == Some(p);
      }
    }
  }

  lemma JoinCovers(src: Nfa, g0: Nfa, g: Nfa, phi: seq<Option<nat>>, t: nat, d: nat)
    requires Wired(src) && Wired(g0) && Wired(g) && Image(src, g0, g, phi) && t < |phi| && phi[t].None?
    ensures forall x: nat :: |g0.vertices| <= x < |g.vertices| ==> Some(x) in phi[t := Some(d)]
  {
    var phi' := phi[t := Some(d)];
    hide Wired, Shared, BackAt;
    forall x: nat | |g0.vertices| <= x < |g.vertices| ensures Some(x) in phi' {
      var s: nat :| s < |phi| && phi[s] == Some(x);
      assert phi'[s] == Some(x);
    }
  }

  lemma JoinShared(src: Nfa, g0: Nfa, g: Nfa, phi: seq<Option<nat>>, t: nat, d: nat, s: nat)
    requires Plain(src) && Plain(g0) && Plain(g) && Image(src, g0, g, phi)
    requires t < |phi| && phi[t].None? && Joinable(src, phi, d) && |src.ins[t]| == 1
    requires 0 < s < |phi| && phi[t := Some(d)][s].Some? && Shared(phi[t := Some(d)], |g0.vertices|, s)
    ensures |src.ins[s]| == 1
  {
    var phi' := phi[t := Some(d)];
    if s != t && phi[s] != Some(d) {
      if phi[s].value >= |g0.vertices| {
        var s' :| 0 <= s' < |phi'| && s' != s && phi'[s'] == phi'[s];
        assert phi[s'] == phi[s];
      }
      assert Shared(phi, |g0.vertices|, s);
    }
  }

  /** A new vertex for a source vertex, and the edge to it. */
  lemma AddImage(src: Nfa, g0: Nfa, g: Nfa, g': Nfa, phi: seq<Option<nat>>, h: nat, t: nat, di: nat, ti: nat)
    requires Plain(src) && Plain(g0) && Plain(g) && Image(src, g0, g, phi) && Kept(g0, g)
    requires h < |phi| && t in src.out[h] && phi[h].Some? && t < |phi| && phi[t].None? && phi[h].value < |g.out|
    requires var p, d := phi[h].value, |g.vertices|;
             g' == Nfa(g.vertices + [src.vertices[t]],
                       (g.out + [[]])[p := Inserted(g.out[p], di, d)], (g.ins + [[]])[d := Inserted([], ti, p)])
    requires Wired(g') && Matched(g')
    ensures Plain(g') && Image(src, g0, g', phi[t := Some(|g.vertices|)]) && Kept(g0, g') && |g.vertices| in g'.out[phi[h].value]
    ensures forall q: nat, x :: q < |g.out| && x in g.out[q] ==> x in g'.out[q]
  {
    var p, d := phi[h].value, |g.vertices|;
    var phi' := phi[t := Some(d)];
    PlainWired(src);
    PlainWired(g);
    NewEdgeOnly(g, g', p, d, di, ti, src.vertices[t]);
    AddBack(src, g0, g, g', phi, h, t);
    AddShared(src, g0, g, phi, t);
    AddCovers(src, g0, g, phi, t);
    AddPlain(src, g, g', t, p, di, ti);
    assert t != 0;
    hide BackAt, Shared, Matched, Inserted;
  }

  /** The one edge that is new. */
  lemma NewEdgeOnly(g: Nfa, g': Nfa, p: nat, d: nat, di: nat, ti: nat, v: Vertex)
    requires Wired(g) && p < |g.out| && d == |g.vertices|
    requires g' == Nfa(g.vertices + [v], (g.out + [[]])[p := Inserted(g.out[p], di, d)], (g.ins + [[]])[d := Inserted([], ti, p)])
    ensures forall q: nat, x: nat :: q < |g'.out| ==> (x in g'.out[q] <==> (q < |g.out| && x in g.out[q]) || (q == p && x == d))
    ensures forall q: nat :: q < |g.out| ==> d !in g.out[q]
  {
    hide Inserted;
    forall q: nat, x: nat | q < |g'.out| ensures x in g'.out[q] <==> (q < |g.out| && x in g.out[q]) || (q == p && x == d) {
      if q == p {
        InsertedIn(g.out[p], di, d, x);
      }
    }
  }

  lemma AddPlain(src: Nfa, g: Nfa, g': Nfa, t: nat, p: nat, di: nat, ti: nat)
    requires Plain(src) && Plain(g) && t < |src.vertices| && p < |g.out|
    requires g' == Nfa(g.vertices + [src.vertices[t]], (g.out + [[]])[p := Inserted(g.out[p], di, |g.vertices|)],
                       (g.ins + [[]])[|g.vertices| := Inserted([], ti, p)])
    requires Wired(g') && Matched(g')
    ensures Plain(g')
  {
    assert g'.ins[0] == g.ins[0];
    hide Matched, Inserted, Wired;
  }

  lemma AddBack(src: Nfa, g0: Nfa, g: Nfa, g': Nfa, phi: seq<Option<nat>>, h: nat, t: nat)
    requires Wired(src) && Wired(g0) && Wired(g) && Wired(g') && Image(src, g0, g, phi)
    requires h < |phi| && t in src.out[h] && phi[h].Some? && 0 <= t < |phi| && phi[t].None?
    requires var p, d := phi[h].value, |g.vertices|;
             forall q: nat, x: nat :: q < |g'.out| ==> (x in g'.out[q] <==> (q < |g.out| && x in g.out[q]) || (q == p && x == d))
    requires forall q: nat :: q < |g.out| ==> |g.vertices| !in g.out[q]
    ensures var phi' := phi[t := Some(|g.vertices|)];
            forall s: nat, q: nat :: 0 < s < |phi'| && phi'[s].Some? && q < |g'.out| && phi'[s].value in g'.out[q] ==>
              BackAt(src, g', phi', s, q)
  {
    hide Wired, Shared;
    var phi' := phi[t := Some(|g.vertices|)];
    forall s: nat, q: nat | 0 < s < |phi'| && phi'[s].Some? && q < |g'.out| && phi'[s].value in g'.out[q]
      ensures BackAt(src, g', phi', s, q)
    {
      if s == t {
        assert phi'[h] == Some(q) && s in src.out[h];
      } else {
        assert BackAt(src, g, phi, s, q);
        var k: nat :| k < |phi| && phi[k] == Some(q) && s in src.out[k];
        assert phi'[k] == Some(q);
      }
    }
  }

  lemma AddCovers(src: Nfa, g0: Nfa, g: Nfa, phi: seq<Option<nat>>, t: nat)
    requires Wired(src) && Wired(g0) && Wired(g) && Image(src, g0, g, phi) && t < |phi| && phi[t].None?
    ensures forall x: nat :: |g0.vertices| <= x <= |g.vertices| ==> Some(x) in phi[t := Some(|g.vertices|)]
  {
    var phi' := phi[t := Some(|g.vertices|)];
    hide Wired, Shared, BackAt;
    forall x: nat | |g0.vertices| <= x <= |g.vertices| ensures Some(x) in phi' {
      if x < |g.vertices| {
        var s: nat :| s < |phi| && phi[s] == Some(x);
        assert phi'[s] == Some(x);
      } else {
        assert phi'[t] == Some(x);
      }
    }
  }

  lemma AddShared(src: Nfa, g0: Nfa, g: Nfa, phi: seq<Option<nat>>, t: nat)
    requires Plain(src) && Plain(g0) && Plain(g) && Image(src, g0, g, phi) && t < |phi| && phi[t].None?
    ensures var phi' := phi[t := Some(|g.vertices|)];
            forall s: nat :: 0 < s < |phi'| && phi'[s].Some? && Shared(phi', |g0.vertices|, s) ==> |src.ins[s]| == 1
  {
    var phi' := phi[t := Some(|g.vertices|)];
    forall s: nat | 0 < s < |phi'| && phi'[s].Some? && Shared(phi', |g0.vertices|, s) ensures |src.ins[s]| == 1 {
      if phi'[s].value >= |g0.vertices| {
        var s' :| 0 <= s' < |phi'| && s' != s && phi'[s'] == phi'[s];
        assert s != t && s' != t;
        assert phi[s'] == phi[s];
      }
      assert s != t;
      assert Shared(phi, |g0.vertices|, s);
    }
  }

  lemma JoinableClass(src: Nfa, g0: Nfa, g: Nfa, phi: seq<Option<nat>>, back: map<nat, seq<nat>>, d: nat)
    requires Plain(src) && Plain(g0) && Plain(g) && Image(src, g0, g, phi) && Inverted(phi, back) && d != 0
    requires d in back ==> 0 < back[d][0] < |src.ins| && |src.ins[back[d][0]]| == 1
    ensures Joinable(src, phi, d)
  {
    forall s: nat | s < |phi| && phi[s] == Some(d) ensures |src.ins[s]| == 1 {
      assert d in back;
      var f := back[d][0];
      assert phi[f] == Some(d);
      if s != f {
        assert Shared(phi, |g0.vertices|, s);
      }
    }
  }

  lemma TrackedStep(src: Nfa, g: Nfa, g': Nfa, phi: seq<Option<nat>>, visited: set<(nat, nat)>, h: nat, i: nat, d: nat)
    requires Plain(src) && Wired(g) && Wired(g') && Tracked(src, g, phi, visited) && |g.out| <= |g'.out|
    requires h < |phi| && i < |src.out[h]| && phi[h].Some? && phi[h].value < |g.out|
    requires src.out[h][i] < |phi| && (phi[src.out[h][i]].None? || phi[src.out[h][i]] == Some(d)) && d in g'.out[phi[h].value]
    requires src.out[h][i] != h || phi[h].Some?
    requires forall q: nat, x :: q < |g.out| && x in g.out[q] ==> x in g'.out[q]
    ensures Tracked(src, g', phi[src.out[h][i] := Some(d)], visited + {(h, i)})
  {
    PlainWired(src);
    hide Plain;
    var t := src.out[h][i];
    var phi', visited' := phi[t := Some(d)], visited + {(h, i)};
    forall h': nat, i': nat | (h', i') in visited'
      ensures h' < |phi'| && i' < |src.out[h']| && phi'[h'].Some? && phi'[h'].value < |g'.out|
           && phi'[src.out[h'][i']].Some? && phi'[src.out[h'][i']].value in g'.out[phi'[h'].value]
    {
      if (h', i') != (h, i) {
        assert (h', i') in visited;
        assert phi[src.out[h'][i']].Some?;
      }
    }
    hide Wired;
    forall x: nat | 0 < x < |phi'| && phi'[x].Some? ensures Entered(src, visited', x) {
      if x == t {
        assert (h, i) in visited';
      } else {
        assert Entered(src, visited, x);
        var h': nat, i': nat :| (h', i') in visited && h' < |src.out| && i' < |src.out[h']| && src.out[h'][i'] == x;
        assert (h', i') in visited';
      }
    }
  }

  /** The edges out of t, last first, on top of the stack. */
  function PushAll(edges: seq<(nat, nat)>, t: nat, n: nat): (r: seq<(nat, nat)>)
    ensures forall e :: e in r <==> e in edges || (e.0 == t && e.1 < n)
    decreases n
  {
    if n == 0 then edges else PushAll(edges + [(t, n - 1)], t, n - 1)
  }

  lemma QueuedStep(src: Nfa, phi: seq<Option<nat>>, visited: set<(nat, nat)>, edges: seq<(nat, nat)>, h: nat, i: nat, d: nat)
    requires Wired(src) && Queued(src, phi, visited, edges) && edges != [] && edges[|edges| - 1] == (h, i)
    requires h < |phi| && i < |src.out[h]| && src.out[h][i] < |phi|
    ensures var t := src.out[h][i];
            Queued(src, phi[t := Some(d)], visited + {(h, i)}, PushAll(edges[..|edges| - 1], t, |src.out[t]|))
  {
    var t := src.out[h][i];
    var edges' := PushAll(edges[..|edges| - 1], t, |src.out[t]|);
    assert edges == edges[..|edges| - 1] + [(h, i)];
    hide Wired;
    forall k | 0 <= k < |edges'|
      ensures edges'[k].0 < |phi| && edges'[k].1 < |src.out[edges'[k].0]| && phi[t := Some(d)][edges'[k].0].Some?
    {
      assert edges'[k] in edges';
      if edges'[k] in edges[..|edges| - 1] {
        var j :| 0 <= j < |edges| - 1 && edges[..|edges| - 1][j] == edges'[k];
        assert edges[j] == edges'[k];
      }
    }
  }

  lemma QueuedSkip(src: Nfa, phi: seq<Option<nat>>, visited: set<(nat, nat)>, edges: seq<(nat, nat)>)
    requires Wired(src) && Queued(src, phi, visited, edges) && edges != [] && edges[|edges| - 1] in visited
    ensures Queued(src, phi, visited, edges[..|edges| - 1])
  {
    assert edges == edges[..|edges| - 1] + [edges[|edges| - 1]];
  }

  lemma InvertedStep(phi: seq<Option<nat>>, back: map<nat, seq<nat>>, t: nat, d: nat)
    requires Inverted(phi, back) && 0 < t < |phi| && (phi[t].None? || phi[t] == Some(d))
    ensures Inverted(phi[t := Some(d)], back[d := (if d in back then back[d] else []) + [t]])
  {
    var back' := back[d := (if d in back then back[d] else []) + [t]];
    forall x: nat | x in back' ensures back'[x] != [] && 0 < back'[x][0] < |phi| && phi[t := Some(d)][back'[x][0]] == Some(x) {
      if x == d && d in back {
        assert back'[x][0] == back[x][0];
      }
    }
  }

  // ----- the optimizer -----

  /** All edges of the source. */
  ghost function EdgesOf(src: Nfa): (r: set<(nat, nat)>) {
    set h, i | h in Numbers(|src.out|) && i in Numbers(|src.out[h]|) :: (h, i)
  }

  ghost predicate Working(src: Nfa, g0: Nfa, g: Nfa, phi: seq<Option<nat>>, back: map<nat, seq<nat>>,
                          visited: set<(nat, nat)>, edges: seq<(nat, nat)>)
  {
    && Merged(src, g0, g, phi, visited, edges) && Inverted(phi, back) && visited <= EdgesOf(src)
  }

  /** What processChild leaves: the image of the child, an edge to it, and all that was there. */
  ghost predicate ChildDone(src: Nfa, g0: Nfa, g: Nfa, g': Nfa, phi: seq<Option<nat>>, h: nat, t: nat, d: nat) {
    && Plain(src) && Plain(g0) && Plain(g) && Plain(g') && Image(src, g0, g, phi)
    && t < |phi| && h < |phi| && t != 0 && phi[h].Some?
    && (phi[t].None? || phi[t] == Some(d))
    && Image(src, g0, g', phi[t := Some(d)]) && Kept(g0, g') && |g.out| <= |g'.out|
    && phi[h].value < |g.out| && d in g'.out[phi[h].value]
    && (forall q: nat, x :: q < |g.out| && x in g.out[q] ==> x in g'.out[q])
  }

  lemma WorkingStep(src: Nfa, g0: Nfa, g: Nfa, g': Nfa, phi: seq<Option<nat>>, back: map<nat, seq<nat>>,
                    visited: set<(nat, nat)>, edges: seq<(nat, nat)>, h: nat, i: nat, d: nat)
    requires Working(src, g0, g, phi, back, visited, edges) && edges != [] && edges[|edges| - 1] == (h, i)
    requires h < |src.out| && i < |src.out[h]| && src.out[h][i] < |src.out|
    requires ChildDone(src, g0, g, g', phi, h, src.out[h][i], d)
    ensures var t := src.out[h][i];
            Working(src, g0, g', phi[t := Some(d)], back[d := (if d in back then back[d] else []) + [t]],
                    visited + {(h, i)}, PushAll(edges[..|edges| - 1], t, |src.out[t]|))
    ensures (h, i) !in visited ==> |EdgesOf(src) - (visited + {(h, i)})| < |EdgesOf(src) - visited|
  {
    hide Image, Kept, Plain, Tracked, Queued, Inverted;
    var t := src.out[h][i];
    PlainWired(src);
    PlainWired(g);
    PlainWired(g');
    PlainWired(g0);
    ImageSize(src, g0, g, phi);
    TrackedStep(src, g, g', phi, visited, h, i, d);
    QueuedStep(src, phi, visited, edges, h, i, d);
    InvertedStep(phi, back, t, d);
    assert (h, i) in EdgesOf(src);
    if (h, i) !in visited {
      assert EdgesOf(src) - (visited + {(h, i)}) == EdgesOf(src) - visited - {(h, i)};
    }
  }

  lemma PlainWired(g: Nfa)
    requires Plain(g)
    ensures Wired(g) && |g.vertices| == |g.out| == |g.ins|
  {
  }

  lemma ImageSize(src: Nfa, g0: Nfa, g: Nfa, phi: seq<Option<nat>>)
    requires Wired(src) && Wired(g0) && Wired(g) && Image(src, g0, g, phi)
    ensures |phi| == |src.out|
  {
  }

  lemma WorkingSkip(src: Nfa, g0: Nfa, g: Nfa, phi: seq<Option<nat>>, back: map<nat, seq<nat>>,
                    visited: set<(nat, nat)>, edges: seq<(nat, nat)>)
    requires Working(src, g0, g, phi, back, visited, edges) && edges != [] && edges[|edges| - 1] in visited
    ensures Working(src, g0, g, phi, back, visited, edges[..|edges| - 1])
  {
    hide Image, Kept, Plain, Tracked, Queued, Inverted;
    PlainWired(src);
    QueuedSkip(src, phi, visited, edges);
  }

  lemma WorkingTop(src: Nfa, g0: Nfa, g: Nfa, phi: seq<Option<nat>>, back: map<nat, seq<nat>>,
                   visited: set<(nat, nat)>, edges: seq<(nat, nat)>)
    requires Working(src, g0, g, phi, back, visited, edges) && edges != []
    ensures var (h, i) := edges[|edges| - 1];
            && |phi| == |src.out| == |src.vertices| == |src.ins|
            && h < |src.out| && i < |src.out[h]| && 0 < src.out[h][i] < |src.out|
            && src.out[h][i] in src.out[h]
            && phi[h].Some? && phi[h].value < |g.vertices|
    ensures Plain(src) && Plain(g0) && Plain(g) && Image(src, g0, g, phi) && Kept(g0, g) && Tracked(src, g, phi, visited)
    ensures Inverted(phi, back)
  {
    var (h, i) := edges[|edges| - 1];
    ParentIn(src, h, i);
  }

  lemma WorkingFirst(src: Nfa, g0: Nfa, phi: seq<Option<nat>>)
    requires Plain(src) && Plain(g0)
    requires |phi| == |src.out| && phi[0] == Some(0) && forall s :: 0 < s < |phi| ==> phi[s].None?
    ensures Working(src, g0, g0, phi, map[], {}, PushAll([], 0, |src.out[0]|))
  {
    var edges := PushAll([], 0, |src.out[0]|);
    forall k | 0 <= k < |edges| ensures edges[k].0 == 0 && edges[k].1 < |src.out[0]| {
      assert edges[k] in edges;
    }
  }

  /** The source has an image with all edges of the vertices that have one, beside what was there before. */
  ghost predicate MergedBy(src: Nfa, g0: Nfa, g: Nfa, phi: seq<Option<nat>>) {
    exists visited :: Merged(src, g0, g, phi, visited, [])
  }

  lemma MergedIs(src: Nfa, g0: Nfa, g: Nfa, phi: seq<Option<nat>>, back: map<nat, seq<nat>>, visited: set<(nat, nat)>)
    requires Working(src, g0, g, phi, back, visited, [])
    ensures MergedBy(src, g0, g, phi)
  {
    hide Merged, Inverted;
  }

  // ----- shape -----

  /** Every vertex can be reached, and no edge is there twice. */
  ghost predicate Spread(g: Nfa) {
    Wired(g) && AllReachable(g) && forall v :: 0 <= v < |g.out| ==> NoRepeats(g.out[v])
  }

  lemma SpreadChild(g: Nfa, g1: Nfa, g': Nfa, p: nat, d: nat, di: nat)
    requires Spread(g) && Wired(g) && Wired(g1) && p < |g.vertices| && Linked(g1, g', p, d, di)
    requires g1 == g || (d == |g.vertices| && exists v :: g1 == Nfa(g.vertices + [v], g.out + [[]], g.ins + [[]]))
    ensures Spread(g')
  {
    SpreadEdges(g, g1, g', p, d, di);
    SpreadReaches(g, g1, g', p, d, di);
  }

  lemma SpreadEdges(g: Nfa, g1: Nfa, g': Nfa, p: nat, d: nat, di: nat)
    requires Spread(g) && Wired(g) && Wired(g1) && p < |g.vertices| && Linked(g1, g', p, d, di)
    requires g1 == g || g1.out == g.out + [[]]
    ensures forall v :: 0 <= v < |g'.out| ==> NoRepeats(g'.out[v])
  {
    hide AllReachable, Matched;
    forall v | 0 <= v < |g1.out| ensures NoRepeats(g1.out[v]) {
    }
    if d !in g1.out[p] {
      InsertedDistinct(g1.out[p], di, d);
    }
  }

  lemma InsertedDistinct(s: seq<nat>, pos: nat, x: nat)
    requires NoRepeats(s) && x !in s
    ensures NoRepeats(Inserted(s, pos, x))
  {
    var r := Inserted(s, pos, x);
    var p := if pos < |s| then pos else |s|;
    forall i, j | 0 <= i < j < |r| ensures r[i] != r[j] {
      assert r[i] == if i < p then s[i] else if i == p then x else s[i - 1];
      assert r[j] == if j < p then s[j] else if j == p then x else s[j - 1];
    }
  }

  lemma SpreadReaches(g: Nfa, g1: Nfa, g': Nfa, p: nat, d: nat, di: nat)
    requires Spread(g) && Wired(g) && Wired(g1) && p < |g.vertices| && Linked(g1, g', p, d, di)
    requires g1 == g || (d == |g.vertices| && |g1.vertices| == |g.vertices| + 1 && g1.out == g.out + [[]])
    ensures Wired(g') && AllReachable(g')
  {
    LinkedEdges(g1, g', p, d, di);
    forall s: set<nat> | ClosedUnder(g', s) && 0 in s ensures forall v: nat :: v < |g'.vertices| ==> v in s {
      assert ClosedUnder(g, s) by {
        forall v: nat, i: nat | v in s && v < |g.out| && i < |g.out[v]| ensures g.out[v][i] in s {
          assert g1.out[v] == g.out[v];
          assert g.out[v][i] in g'.out[v];
          var j: nat :| j < |g'.out[v]| && g'.out[v][j] == g.out[v][i];
        }
      }
      assert p in s;
      var k: nat :| k < |g'.out[p]| && g'.out[p][k] == d;
      assert d in s;
    }
  }

  lemma LinkedEdges(g: Nfa, g': Nfa, p: nat, d: nat, di: nat)
    requires Wired(g) && Linked(g, g', p, d, di)
    ensures Wired(g') && g'.vertices == g.vertices && |g'.out| == |g.out| && p < |g.out| && d in g'.out[p]
    ensures forall v: nat, t: nat :: v < |g.out| && t in g.out[v] ==> t in g'.out[v]
  {
    hide Matched;
  }

  /** Every label but the new one keeps its language, and the new one has that of the source. */
  ghost predicate SameLanguages(src: Nfa, g0: Nfa, g: Nfa, lnew: nat) {
    && Wired(src) && Wired(g0) && Wired(g)
    && forall l: nat, u :: Accepts(g, l, 0, u) <==> (if l == lnew then Accepts(src, l, 0, u) else Accepts(g0, l, 0, u))
  }

  /** Every match has the label l, or one that was there before. */
  ghost predicate OnlyLabels(g0: Nfa, g: Nfa, l: nat) {
    forall d :: 0 <= d < |g.vertices| && g.vertices[d].isMatch ==> g.vertices[d].lbl == l || HasLabel(g0, g.vertices[d].lbl)
  }

  ghost predicate HasLabel(g: Nfa, l: nat) {
    exists d :: 0 <= d < |g.vertices| && g.vertices[d].isMatch && g.vertices[d].lbl == l
  }

  lemma NoOtherLabels(src: Nfa, g0: Nfa, g: Nfa, phi: seq<Option<nat>>, visited: set<(nat, nat)>, l: nat)
    requires Merged(src, g0, g, phi, visited, []) && FreshLabel(src, g0, l)
    ensures OnlyLabels(g0, g, l)
  {
    forall d | 0 <= d < |g.vertices| && g.vertices[d].isMatch
      ensures g.vertices[d].lbl == l || HasLabel(g0, g.vertices[d].lbl)
    {
      if d < |g0.vertices| {
        assert g.vertices[d] == g0.vertices[d];
      } else {
        assert Some(d) in phi;
        var s :| 0 <= s < |phi| && phi[s] == Some(d);
        assert SameVertex(src.vertices[s], g.vertices[d]);
      }
    }
  }

  lemma WorkingEnd(src: Nfa, g0: Nfa, g: Nfa, phi: seq<Option<nat>>, back: map<nat, seq<nat>>, visited: set<(nat, nat)>, lnew: nat)
    requires Working(src, g0, g, phi, back, visited, []) && FreshLabel(src, g0, lnew)
    ensures Plain(g) && SameLanguages(src, g0, g, lnew) && OnlyLabels(g0, g, lnew)
  {
    NoOtherLabels(src, g0, g, phi, visited, lnew);
    hide Accepts, FreshLabel, OnlyLabels;
    forall l: nat, u
      ensures Accepts(g, l, 0, u) <==> (if l == lnew then Accepts(src, l, 0, u) else Accepts(g0, l, 0, u))
    {
      LanguagesMerged(src, g0, g, phi, visited, lnew, l, u);
    }
  }

  /** The edge to an image, unless it is there. */
  function EdgeTo(g: Nfa, p: nat, d: nat, di: nat): Nfa
    requires p < |g.out| && d < |g.ins|
  {
    if d in g.out[p] then g
    else Nfa(g.vertices, g.out[p := Inserted(g.out[p], di, d)], g.ins[d := Inserted(g.ins[d], |g.ins[d]|, p)])
  }

  /** The automaton after the second part of processChild. */
  ghost predicate Linked(g: Nfa, g': Nfa, head: nat, tail: nat, di: nat)
    requires Wired(g)
  {
    && Wired(g') && Matched(g') && head < |g.out| && tail < |g.ins|
    && g' == EdgeTo(g, head, tail, di)
  }

  lemma TailInRange(src: Nfa, g0: Nfa, g: Nfa, g1: Nfa, phi: seq<Option<nat>>, h: nat, t: nat, d: nat)
    requires Plain(src) && Plain(g0) && Plain(g) && Image(src, g0, g, phi) && h < |phi| && 0 < t < |phi| && t < |src.vertices|
    requires phi[h].Some? && phi[h].value < |g.vertices|
    requires if phi[t].Some? then g1 == g && d == phi[t].value
             else if g1 == g then phi[h].value < |g.out| && d in g.out[phi[h].value]
             else d == |g.vertices| && g1 == Nfa(g.vertices + [src.vertices[t]], g.out + [[]], g.ins + [[]])
    ensures d < |g1.vertices| && phi[h].value < |g1.vertices|
  {
  }

  lemma ChildCases(src: Nfa, g0: Nfa, g: Nfa, g1: Nfa, g': Nfa, phi: seq<Option<nat>>, visited: set<(nat, nat)>,
                   h: nat, i: nat, d: nat, di: nat)
    requires Plain(src) && Plain(g0) && Plain(g) && Image(src, g0, g, phi) && Kept(g0, g) && Tracked(src, g, phi, visited)
    requires h < |phi| == |src.out| && i < |src.out[h]| && 0 < src.out[h][i] < |phi| && src.out[h][i] < |src.vertices|
    requires phi[h].Some? && phi[h].value < |g.out|
    requires var t := src.out[h][i];
             if phi[t].Some? then g1 == g && d == phi[t].value
             else if g1 == g then d in g.out[phi[h].value] && ChildDone(src, g0, g, g, phi, h, t, d)
             else d == |g.vertices| && g1 == Nfa(g.vertices + [src.vertices[t]], g.out + [[]], g.ins + [[]])
    requires Wired(g1) && Linked(g1, g', phi[h].value, d, di)
    ensures ChildDone(src, g0, g, g', phi, h, src.out[h][i], d)
  {
    var t := src.out[h][i];
    var p := phi[h].value;
    PlainWired(g);
    assert t in src.out[h];
    if g1 != g {
      NotThere(g, d, p);
      assert g1.out[p] == g.out[p] && g1.ins[d] == [];
      hide Plain, Image, Kept, Tracked, Wired, Matched, Inserted;
      ChildNew(src, g0, g, g', phi, h, t, di, 0);
    } else if d !in g.out[p] {
      hide Plain, Image, Kept, Tracked, Wired, Matched, Inserted;
      ChildEdge(src, g0, g, g', phi, visited, h, i, t, p, d, di);
    } else if phi[t].Some? {
      hide Plain, Image, Kept, Tracked, Wired, Matched, Inserted;
      ChildThere(src, g0, g, phi, h, t, d);
    }
  }

  lemma NotThere(g: Nfa, d: nat, p: nat)
    requires Wired(g) && p < |g.out| && d >= |g.vertices|
    ensures d !in g.out[p]
  {
  }

  lemma ChildThere(src: Nfa, g0: Nfa, g: Nfa, phi: seq<Option<nat>>, h: nat, t: nat, d: nat)
    requires Plain(src) && Plain(g0) && Plain(g) && Image(src, g0, g, phi) && Kept(g0, g)
    requires h < |phi| && 0 < t < |phi| && phi[h].Some? && phi[h].value < |g.out| && d in g.out[phi[h].value] && phi[t] == Some(d)
    ensures ChildDone(src, g0, g, g, phi, h, t, d)
  {
    assert phi[t := Some(d)] == phi;
  }

  lemma ChildEdge(src: Nfa, g0: Nfa, g: Nfa, g': Nfa, phi: seq<Option<nat>>, visited: set<(nat, nat)>, h: nat, i: nat, t: nat,
                  p: nat, d: nat, di: nat)
    requires Plain(src) && Plain(g0) && Plain(g) && Image(src, g0, g, phi) && Kept(g0, g) && Tracked(src, g, phi, visited)
    requires h < |phi| == |src.out| && i < |src.out[h]| && t == src.out[h][i] && 0 < t < |phi|
    requires phi[h] == Some(p) && phi[t] == Some(d)
    requires Linked(g, g', p, d, di) && d !in g.out[p]
    ensures ChildDone(src, g0, g, g', phi, h, t, d)
  {
    LinkedUse(g, g', p, d, di);
    hide *;
    PlainWired(src);
    ParentIn(src, h, i);
    MappedAgain(src, g0, g, phi, visited, h, i);
    AddImageEdge(src, g0, g, g', phi, h, t, di, |g.ins[d]|);
    assert phi[t := Some(d)] == phi;
    ChildDoneBy(src, g0, g, g', phi, h, t, d);
  }

  lemma LinkedUse(g: Nfa, g': Nfa, p: nat, d: nat, di: nat)
    requires Wired(g) && Linked(g, g', p, d, di)
    ensures Wired(g') && Matched(g') && p < |g.out| && d < |g.ins|
    ensures d !in g.out[p] ==>
              g' == Nfa(g.vertices, g.out[p := Inserted(g.out[p], di, d)], g.ins[d := Inserted(g.ins[d], |g.ins[d]|, p)])
              && |g.out| <= |g'.out|
  {
    hide Inserted, Matched;
  }

  lemma ChildDoneBy(src: Nfa, g0: Nfa, g: Nfa, g': Nfa, phi: seq<Option<nat>>, h: nat, t: nat, d: nat)
    requires Plain(src) && Plain(g0) && Plain(g) && Plain(g') && Image(src, g0, g, phi)
    requires t < |phi| && h < |phi| && t != 0 && phi[h].Some? && (phi[t].None? || phi[t] == Some(d))
    requires Image(src, g0, g', phi[t := Some(d)]) && Kept(g0, g') && |g.out| <= |g'.out|
    requires phi[h].value < |g.out| && d in g'.out[phi[h].value]
    requires forall q: nat, x :: q < |g.out| && x in g.out[q] ==> x in g'.out[q]
    ensures ChildDone(src, g0, g, g', phi, h, t, d)
  {
    hide Plain, Image, Kept;
  }

  lemma ChildNew(src: Nfa, g0: Nfa, g: Nfa, g': Nfa, phi: seq<Option<nat>>, h: nat, t: nat, di: nat, ti: nat)
    requires Plain(src) && Plain(g0) && Plain(g) && Image(src, g0, g, phi) && Kept(g0, g)
    requires h < |phi| && t in src.out[h] && phi[h].Some? && 0 < t < |phi| && phi[t].None? && phi[h].value < |g.out|
    requires t < |src.vertices|
    requires var p, d := phi[h].value, |g.vertices|;
             g' == Nfa(g.vertices + [src.vertices[t]],
                       (g.out + [[]])[p := Inserted(g.out[p], di, d)], (g.ins + [[]])[d := Inserted([], ti, p)])
    requires Wired(g') && Matched(g')
    ensures ChildDone(src, g0, g, g', phi, h, t, |g.vertices|)
  {
    hide *;
    AddImage(src, g0, g, g', phi, h, t, di, ti);
    ChildDoneBy(src, g0, g, g', phi, h, t, |g.vertices|);
  }
}
