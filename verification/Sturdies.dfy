/**
 What every automaton keeps on its way to the compiler (src/lib/fsmthingy.cpp:30-62):
 every vertex can be reached, reads some byte and leads to a match, no edge is there
 twice, and the matches behind a match have its label. Pruning, merging and
 determinizing keep this.
 */
module Sturdies {
  import opened Basics
  import opened Automata
  import opened Sequences
  import opened Guards
  import Subsets
  import Determinizing
  import Images
  import Pruning

  ghost predicate Sturdy(g: Nfa) {
    && Unguarded(g) && AllReachable(g) && Live(g)
    && g.vertices[0] == Vertex(NoTransition, false, NOLABEL)
    && (forall v :: 0 <= v < |g.out| ==> NoRepeats(g.out[v]))
  }

  /** Every vertex but the initial one reads some byte and leads to a match. */
  ghost predicate Live(g: Nfa) {
    forall v :: 0 < v < |g.vertices| ==> SomeByte(g.vertices[v].trans) && !Barren(g, v)
  }

  // ----- paths and strings -----

  /** Nothing leads to the initial vertex, and every other one reads some byte. */
  ghost predicate Walkable(g: Nfa) {
    && Wired(g)
    && (forall v: nat, i: nat :: v < |g.out| && i < |g.out[v]| ==> g.out[v][i] != 0)
    && (forall v :: 0 < v < |g.vertices| ==> SomeByte(g.vertices[v].trans))
  }

  lemma WalkableStep(g: Nfa, v: nat, t: nat)
    requires Walkable(g) && v < |g.out| && t in g.out[v]
    ensures 0 < t < |g.vertices| && SomeByte(g.vertices[t].trans)
    ensures exists i: nat :: i < |g.out[v]| && g.out[v][i] == t
  {
    var i :| 0 <= i < |g.out[v]| && g.out[v][i] == t;
    hide SomeByte;
  }

  /** A path to a match can be read. */
  lemma {:induction false} PathIsAccepted(g: Nfa, p: seq<nat>, l: nat) returns (u: seq<Byte>)
    requires Walkable(g) && EndsAt(g, p, l)
    ensures p[0] < |g.vertices| && Accepts(g, l, p[0], u)
    decreases |p|
  {
    if |p| == 1 {
      u := [];
    } else {
      var t := p[1];
      assert t in g.out[p[0]];
      WalkableStep(g, p[0], t);
      var x: Byte :| g.vertices[t].trans.Permits(x);
      var i: nat :| i < |g.out[p[0]]| && g.out[p[0]][i] == t;
      assert p[1..][|p[1..]| - 1] == p[|p| - 1];
      var w := PathIsAccepted(g, p[1..], l);
      u := [x] + w;
      assert u[1..] == w && Permits(g, t, x);
    }
  }

  lemma {:induction false} AcceptedIsReached(g: Nfa, l: nat, v: nat, u: seq<Byte>)
    requires Wired(g) && v < |g.vertices| && Accepts(g, l, v, u)
    ensures Reaches(g, v, l)
    decreases |u|
  {
    if u == [] {
      ReachesSelf(g, v);
    } else {
      var i: nat :| i < |g.out[v]| && Permits(g, g.out[v][i], u[0]) && Accepts(g, l, g.out[v][i], u[1..]);
      AcceptedIsReached(g, l, g.out[v][i], u[1..]);
      ReachesStep(g, v, g.out[v][i], l);
    }
  }

  /** A match is preferred on some input exactly if a path leads to one. */
  lemma ReachedIsBest(g: Nfa, l: nat, v: nat) returns (w: seq<Byte>)
    requires Walkable(g) && v < |g.vertices| && Reaches(g, v, l)
    ensures Best(g, l, v, w).Some?
  {
    var p :| EndsAt(g, p, l) && p[0] == v;
    w := PathIsAccepted(g, p, l);
    assert w[..|w|] == w;
    AcceptedIsFound(g, l, v, w, |w|);
  }

  lemma BestIsReached(g: Nfa, l: nat, v: nat, w: seq<Byte>)
    requires Wired(g) && v < |g.vertices| && Best(g, l, v, w).Some?
    ensures Reaches(g, v, l)
  {
    BestIsAccepted(g, l, v, w);
    AcceptedIsReached(g, l, v, w[..Best(g, l, v, w).value]);
  }

  // ----- pruning -----

  lemma PrunedLive(g: Nfa, g': Nfa, l: nat)
    requires Walkable(g) && Wired(g') && g'.vertices == g.vertices && Pruning.SinglePattern(g, l) && Pruning.SameBest(g, g', l)
    requires Live(g)
    ensures Live(g')
  {
    forall v: nat | 0 < v < |g'.vertices| ensures SomeByte(g'.vertices[v].trans) && !Barren(g', v) {
      assert !Barren(g, v);
      var k :| Reaches(g, v, k);
      MatchLabel(g, l, v, k);
      var w := ReachedIsBest(g, l, v);
      assert Best(g', l, v, w) == Best(g, l, v, w);
      BestIsReached(g', l, v, w);
    }
  }

  lemma MatchLabel(g: Nfa, l: nat, v: nat, k: nat)
    requires Pruning.SinglePattern(g, l) && Reaches(g, v, k)
    ensures k == l
  {
    var p :| EndsAt(g, p, k) && p[0] == v;
  }

  // ----- merging -----

  /** The merged automaton, with the edges that the source vertices with an image have. */
  ghost predicate Joined(src: Nfa, g0: Nfa, g: Nfa, phi: seq<Option<nat>>, l: nat) {
    && Images.MergedBy(src, g0, g, phi) && Images.FreshLabel(src, g0, l) && Wired(src) && Wired(g0) && Wired(g)
  }

  lemma JoinedUse(src: Nfa, g0: Nfa, g: Nfa, phi: seq<Option<nat>>, l: nat)
    requires Joined(src, g0, g, phi, l)
    ensures Images.Plain(src) && Images.Plain(g0) && Images.Plain(g) && Images.Image(src, g0, g, phi) && Images.Kept(g0, g)
    ensures |phi| == |src.out| == |src.vertices| && |g0.vertices| <= |g.vertices| && |g.out| == |g.vertices| && |g0.out| == |g0.vertices|
    ensures forall h: nat, i: nat :: h < |phi| && phi[h].Some? && i < |src.out[h]| ==>
              && phi[h].value < |g.out| && src.out[h][i] < |phi| && phi[src.out[h][i]].Some?
              && phi[src.out[h][i]].value in g.out[phi[h].value]
  {
    var visited :| Images.Merged(src, g0, g, phi, visited, []);
    hide Images.Image, Images.Kept, Images.Plain;
    Images.PlainWired(src);
    Images.PlainWired(g0);
    Images.PlainWired(g);
    assert Images.Tracked(src, g, phi, visited) && Images.Queued(src, phi, visited, []);
    forall h: nat, i: nat | h < |phi| && phi[h].Some? && i < |src.out[h]|
      ensures phi[h].value < |g.out| && src.out[h][i] < |phi| && phi[src.out[h][i]].Some?
              && phi[src.out[h][i]].value in g.out[phi[h].value]
    {
      assert (h, i) in visited;
    }
    JoinedSizes(src, g0, g, phi);
  }

  lemma JoinedSizes(src: Nfa, g0: Nfa, g: Nfa, phi: seq<Option<nat>>)
    requires Images.Plain(src) && Images.Plain(g0) && Images.Plain(g) && Images.Image(src, g0, g, phi)
    ensures |phi| == |src.out| && |g0.vertices| <= |g.vertices|
  {
  }

  /** A path of the source has an image. */
  lemma {:induction false} PathHasImage(src: Nfa, g0: Nfa, g: Nfa, phi: seq<Option<nat>>, l: nat, p: seq<nat>, k: nat)
    requires Joined(src, g0, g, phi, l) && EndsAt(src, p, k) && p[0] < |phi| && phi[p[0]].Some? && p[|p| - 1] != 0
    ensures exists m: nat :: Reaches(g, phi[p[0]].value, m)
    decreases |p|
  {
    JoinedUse(src, g0, g, phi, l);
    var s := p[0];
    if |p| == 1 {
      ImageOf(src, g0, g, phi, s);
      ReachesSelf(g, phi[s].value);
    } else {
      var t := p[1];
      assert t in src.out[s];
      var i :| 0 <= i < |src.out[s]| && src.out[s][i] == t;
      assert p[1..][|p[1..]| - 1] == p[|p| - 1];
      hide Reaches;
      PathHasImage(src, g0, g, phi, l, p[1..], k);
      var m: nat :| Reaches(g, phi[t].value, m);
      ReachesStep(g, phi[s].value, phi[t].value, m);
    }
  }

  lemma ImageOf(src: Nfa, g0: Nfa, g: Nfa, phi: seq<Option<nat>>, s: nat)
    requires Wired(src) && Wired(g0) && Wired(g) && Images.Image(src, g0, g, phi) && 0 < s < |phi| && phi[s].Some?
    ensures 0 < phi[s].value < |g.vertices| && Images.SameVertex(src.vertices[s], g.vertices[phi[s].value])
  {
  }

  /** A path of the destination is still one. */
  lemma OldPath(g0: Nfa, g: Nfa, p: seq<nat>, l: nat)
    requires Wired(g0) && Wired(g) && Images.Kept(g0, g) && EndsAt(g0, p, l)
    ensures EndsAt(g, p, l)
  {
    forall i | 0 <= i < |p| - 1 ensures p[i + 1] in g.out[p[i]] {
      assert p[i + 1] in g0.out[p[i]];
    }
  }

  /** A path that ends at an old vertex is an old path. */
  lemma {:induction false} EndsOld(g0: Nfa, g: Nfa, p: seq<nat>, i: nat)
    requires Wired(g0) && Wired(g) && Images.Kept(g0, g) && Path(g, p) && p[|p| - 1] < |g0.vertices| && i < |p|
    ensures p[i] < |g0.vertices| && (i + 1 < |p| ==> p[i + 1] in g0.out[p[i]])
    decreases |p| - i
  {
    if i + 1 < |p| {
      EndsOld(g0, g, p, i + 1);
      assert p[i + 1] in g.out[p[i]];
    }
  }

  /** Whatever leads to an image is an image. */
  lemma {:induction false} LeadsToImage(src: Nfa, g0: Nfa, g: Nfa, phi: seq<Option<nat>>, l: nat, p: seq<nat>, s: nat)
    requires Joined(src, g0, g, phi, l) && Path(g, p) && 0 < s < |phi| && phi[s] == Some(p[|p| - 1])
    ensures exists h: nat :: h < |phi| && phi[h] == Some(p[0])
    decreases |p|
  {
    JoinedUse(src, g0, g, phi, l);
    if |p| > 1 {
      var q := p[|p| - 2];
      var front := p[..|p| - 1];
      assert p[|p| - 2 + 1] in g.out[p[|p| - 2]];
      BackFrom(src, g0, g, phi, s, q);
      var h: nat :| h < |phi| && phi[h] == Some(q) && s in src.out[h];
      assert front[|front| - 1] == q && front[0] == p[0];
      if h > 0 {
        LeadsToImage(src, g0, g, phi, l, front, h);
      } else {
        MapsInitial(src, g0, g, phi);
        if |front| > 1 {
          EndsElsewhere(g, front);
        }
      }
    }
  }

  lemma MapsInitial(src: Nfa, g0: Nfa, g: Nfa, phi: seq<Option<nat>>)
    requires Wired(src) && Wired(g0) && Wired(g) && Images.Image(src, g0, g, phi)
    ensures 0 < |phi| && phi[0] == Some(0)
  {
  }

  lemma EndsElsewhere(g: Nfa, p: seq<nat>)
    requires Images.Plain(g) && Path(g, p) && |p| > 1
    ensures p[|p| - 1] != 0
  {
    assert p[|p| - 2 + 1] in g.out[p[|p| - 2]];
    assert p[|p| - 2] !in g.ins[0];
  }

  lemma BackFrom(src: Nfa, g0: Nfa, g: Nfa, phi: seq<Option<nat>>, s: nat, q: nat)
    requires Wired(src) && Wired(g0) && Wired(g) && Images.Image(src, g0, g, phi) && 0 < s < |phi| && phi[s].Some?
    requires q < |g.out| && phi[s].value in g.out[q]
    ensures exists h: nat :: h < |phi| && h < |src.out| && phi[h] == Some(q) && s in src.out[h]
  {
    assert Images.BackAt(src, g, phi, s, q);
  }

  lemma MergedLive(src: Nfa, g0: Nfa, g: Nfa, phi: seq<Option<nat>>, l: nat, v: nat)
    requires Joined(src, g0, g, phi, l) && Live(src) && Live(g0) && 0 < v < |g.vertices|
    ensures SomeByte(g.vertices[v].trans) && !Barren(g, v)
  {
    JoinedUse(src, g0, g, phi, l);
    if v < |g0.vertices| {
      KeptVertex(g0, g, v);
      var k :| Reaches(g0, v, k);
      var p :| EndsAt(g0, p, k) && p[0] == v;
      OldPath(g0, g, p, k);
      assert Reaches(g, v, k);
    } else {
      var s := NewIsImage(src, g0, g, phi, v);
      ImageOf(src, g0, g, phi, s);
      SameReads(src.vertices[s], g.vertices[v]);
      var k :| Reaches(src, s, k);
      var p :| EndsAt(src, p, k) && p[0] == s;
      NoInitialMatch(src, p, k);
      PathHasImage(src, g0, g, phi, l, p, k);
      hide Reaches;
      var m: nat :| Reaches(g, phi[s].value, m);
    }
  }

  lemma KeptVertex(g0: Nfa, g: Nfa, v: nat)
    requires Wired(g0) && Wired(g) && Images.Kept(g0, g) && v < |g0.vertices|
    ensures v < |g.vertices| && g.vertices[v] == g0.vertices[v]
  {
  }

  lemma NewIsImage(src: Nfa, g0: Nfa, g: Nfa, phi: seq<Option<nat>>, d: nat) returns (s: nat)
    requires Wired(src) && Wired(g0) && Wired(g) && Images.Image(src, g0, g, phi) && |g0.vertices| <= d < |g.vertices|
    ensures 0 < s < |phi| && phi[s] == Some(d)
  {
    assert Some(d) in phi;
    s :| 0 <= s < |phi| && phi[s] == Some(d);
  }

  lemma SameReads(a: Vertex, b: Vertex)
    requires Images.SameVertex(a, b) && SomeByte(a.trans)
    ensures SomeByte(b.trans)
  {
    var x: Byte :| a.trans.Permits(x);
    assert b.trans.Permits(x);
  }

  lemma NoInitialMatch(g: Nfa, p: seq<nat>, k: nat)
    requires Images.Plain(g) && EndsAt(g, p, k)
    ensures p[|p| - 1] != 0
  {
  }

  /** The matches behind a match have its label. */
  lemma MergedOwn(src: Nfa, g0: Nfa, g: Nfa, phi: seq<Option<nat>>, l: nat, v: nat, k: nat)
    requires Joined(src, g0, g, phi, l) && Unguarded(g0) && v < |g.vertices| && g.vertices[v].isMatch && Reaches(g, v, k)
    ensures k == g.vertices[v].lbl
  {
    JoinedUse(src, g0, g, phi, l);
    var p :| EndsAt(g, p, k) && p[0] == v;
    var e := p[|p| - 1];
    if v >= |g0.vertices| {
      NewLabel(src, g0, g, phi, l, v);
      if e < |g0.vertices| {
        EndsOld(g0, g, p, 0);
      }
      NewLabel(src, g0, g, phi, l, e);
    } else if e < |g0.vertices| {
      forall i | 0 <= i < |p| ensures p[i] < |g0.vertices| && (i + 1 < |p| ==> p[i + 1] in g0.out[p[i]]) {
        EndsOld(g0, g, p, i);
      }
      KeptVertex(g0, g, e);
      KeptVertex(g0, g, v);
      assert EndsAt(g0, p, k);
      assert Reaches(g0, v, k);
    } else {
      var s := NewIsImage(src, g0, g, phi, e);
      LeadsToImage(src, g0, g, phi, l, p, s);
      var h: nat :| h < |phi| && phi[h] == Some(v);
      OldMatchNoImage(src, g0, g, phi, l, v, h);
    }
  }

  lemma NewLabel(src: Nfa, g0: Nfa, g: Nfa, phi: seq<Option<nat>>, l: nat, v: nat)
    requires Joined(src, g0, g, phi, l) && v < |g.vertices| && g.vertices[v].isMatch
    ensures v >= |g0.vertices| ==> g.vertices[v].lbl == l
  {
    JoinedUse(src, g0, g, phi, l);
    if v >= |g0.vertices| {
      var s := NewIsImage(src, g0, g, phi, v);
      ImageOf(src, g0, g, phi, s);
    }
  }

  lemma OldMatchNoImage(src: Nfa, g0: Nfa, g: Nfa, phi: seq<Option<nat>>, l: nat, v: nat, h: nat)
    requires Joined(src, g0, g, phi, l) && v < |g0.vertices| && v < |g.vertices| && g.vertices[v].isMatch && h < |phi|
    ensures phi[h] != Some(v)
  {
    JoinedUse(src, g0, g, phi, l);
    KeptVertex(g0, g, v);
    InitialNoMatch(g);
    MapsInitial(src, g0, g, phi);
    if h > 0 && phi[h].Some? {
      ImageOf(src, g0, g, phi, h);
    }
  }

  lemma InitialNoMatch(g: Nfa)
    requires Images.Plain(g)
    ensures 0 < |g.vertices| && !g.vertices[0].isMatch
  {
  }

  /** Merging keeps what the compiler relies on. */
  lemma MergedSturdy(src: Nfa, g0: Nfa, g: Nfa, phi: seq<Option<nat>>, l: nat)
    requires Joined(src, g0, g, phi, l) && Sturdy(g0) && Live(src) && l < UNLABELABLE && Images.Spread(g)
    ensures Sturdy(g)
  {
    JoinedUse(src, g0, g, phi, l);
    SturdyParts(g0);
    KeptVertex(g0, g, 0);
    forall v | 0 < v < |g.vertices| ensures SomeByte(g.vertices[v].trans) && !Barren(g, v) {
      MergedLive(src, g0, g, phi, l, v);
    }
    forall v, k | 0 <= v < |g.vertices| && g.vertices[v].isMatch && Reaches(g, v, k) ensures k == g.vertices[v].lbl {
      MergedOwn(src, g0, g, phi, l, v, k);
    }
    forall v | 0 <= v < |g.vertices| ensures if g.vertices[v].isMatch then g.vertices[v].lbl < UNLABELABLE else g.vertices[v].lbl == NOLABEL {
      PlainLabels(g, v);
      if g.vertices[v].isMatch {
        NewLabel(src, g0, g, phi, l, v);
        if v < |g0.vertices| {
          KeptVertex(g0, g, v);
        }
      }
    }
    SturdyBy(g);
  }

  lemma PlainLabels(g: Nfa, v: nat)
    requires Images.Plain(g) && v < |g.vertices|
    ensures g.vertices[v].isMatch <==> g.vertices[v].lbl != NOLABEL
  {
  }

  lemma SturdyParts(g: Nfa)
    requires Sturdy(g)
    ensures Unguarded(g) && Live(g) && Wired(g) && 0 < |g.vertices| && g.vertices[0] == Vertex(NoTransition, false, NOLABEL)
    ensures forall v :: 0 <= v < |g.vertices| && g.vertices[v].isMatch ==> g.vertices[v].lbl < UNLABELABLE
    ensures forall v: nat, i: nat :: v < |g.out| && i < |g.out[v]| ==> 0 < g.out[v][i] < |g.vertices|
  {
    forall v: nat, i: nat | v < |g.out| && i < |g.out[v]| ensures 0 < g.out[v][i] < |g.vertices| {
      assert g.out[v][i] in g.out[v];
      assert v !in g.ins[0];
    }
    hide Reaches, AllReachable, NoRepeats;
  }

  lemma SturdyBy(g: Nfa)
    requires Images.Plain(g) && Images.Spread(g) && g.vertices[0] == Vertex(NoTransition, false, NOLABEL)
    requires forall v :: 0 < v < |g.vertices| ==> SomeByte(g.vertices[v].trans) && !Barren(g, v)
    requires forall v, k :: 0 <= v < |g.vertices| && g.vertices[v].isMatch && Reaches(g, v, k) ==> k == g.vertices[v].lbl
    requires forall v :: 0 <= v < |g.vertices| ==>
               if g.vertices[v].isMatch then g.vertices[v].lbl < UNLABELABLE else g.vertices[v].lbl == NOLABEL
    ensures Sturdy(g)
  {
    forall v | 0 <= v < |g.vertices| ensures g.vertices[v].trans.NoTransition? <==> v == 0 {
      if v > 0 {
        assert SomeByte(g.vertices[v].trans);
      }
    }
    hide Reaches, Barren, AllReachable, NoRepeats, SomeByte;
  }

  lemma NothingSturdy(g: Nfa)
    requires Wired(g) && Matched(g) && g.vertices == [Vertex(NoTransition, false, NOLABEL)] && g.ins == [[]] && g.out == [[]]
    ensures Sturdy(g)
  {
  }

  // ----- determinizing -----

  /** What the list of a vertex can match, the vertex can. */
  lemma DeterminizedReaches(src: Nfa, g: Nfa, lists: seq<seq<nat>>, d: nat, l: nat)
    requires Subsets.Determinizes(src, g, lists) && Walkable(src) && d < |lists|
    requires lists[d] != [] && lists[d][0] < |src.vertices| && Reaches(src, lists[d][0], l)
    ensures d < |g.vertices| && Reaches(g, d, l)
  {
    var w := ReachedIsBest(src, l, lists[d][0]);
    Subsets.SamePreference(src, g, lists, l, w);
    assert Subsets.StandsFor(src, g, d, lists[d]);
    assert Subsets.BestAmong(src, l, lists[d], w).Some?;
    hide Reaches;
    BestIsReached(g, l, d, w);
  }

  lemma DeterminizedOwn(src: Nfa, g: Nfa, lists: seq<seq<nat>>, d: nat, l: nat)
    requires Subsets.Determinizes(src, g, lists) && Walkable(g) && d < |g.vertices| && g.vertices[d].isMatch && Reaches(g, d, l)
    requires forall v, k :: 0 <= v < |src.vertices| && src.vertices[v].isMatch && Reaches(src, v, k) ==> k == src.vertices[v].lbl
    ensures d < |lists| && lists[d] != [] && lists[d][0] < |src.vertices| && src.vertices[lists[d][0]].isMatch
    ensures l == g.vertices[d].lbl == src.vertices[lists[d][0]].lbl
  {
    var w := ReachedIsBest(g, l, d);
    Subsets.SamePreference(src, g, lists, l, w);
    assert Subsets.StandsFor(src, g, d, lists[d]);
    var m := lists[d][0];
    assert lists[d][1..] == [];
    assert Subsets.BestAmong(src, l, lists[d][1..], w) == None;
    hide Reaches;
    BestIsReached(src, l, m, w);
  }

  lemma {:induction false} FlatMapHas(f: nat -> seq<nat>, ts: seq<nat>, i: nat, x: nat)
    requires i < |ts| && x in f(ts[i])
    ensures x in FlatMap(f, ts)
    decreases |ts|
  {
    if i > 0 {
      FlatMapHas(f, ts[1..], i - 1, x);
    }
  }

  lemma {:induction false} FlatMapTwice(f: nat -> seq<nat>, ts: seq<nat>, i: nat, j: nat, x: nat)
    requires i < j < |ts| && x in f(ts[i]) && x in f(ts[j])
    ensures !NoRepeats(FlatMap(f, ts))
    decreases |ts|
  {
    var rest := FlatMap(f, ts[1..]);
    if i == 0 {
      FlatMapHas(f, ts[1..], j - 1, x);
      var a :| 0 <= a < |f(ts[0])| && f(ts[0])[a] == x;
      var b :| 0 <= b < |rest| && rest[b] == x;
      assert FlatMap(f, ts)[a] == x && FlatMap(f, ts)[|f(ts[0])| + b] == x;
    } else {
      FlatMapTwice(f, ts[1..], i - 1, j - 1, x);
      var a, b :| 0 <= a < b < |rest| && rest[a] == rest[b];
      var k := |f(ts[0])|;
      assert FlatMap(f, ts)[k + a] == rest[a] && FlatMap(f, ts)[k + b] == rest[b];
    }
  }

  lemma {:induction false} ViaTwice(g: Nfa, ts: seq<nat>, x: Byte, i: nat, j: nat) returns (a: nat, b: nat)
    requires i < j < |ts| && ts[i] == ts[j] && ts[i] < |g.vertices| && Permits(g, ts[i], x)
    ensures a < b < |Subsets.Via(g, ts, x)| && Subsets.Via(g, ts, x)[a] == Subsets.Via(g, ts, x)[b] == ts[i]
    decreases |ts|
  {
    var rest := Subsets.Via(g, ts[1..], x);
    var k := if ts[0] < |g.vertices| && Permits(g, ts[0], x) then 1 else 0;
    if i == 0 {
      assert ts[j] in ts[1..] by {
        assert ts[1..][j - 1] == ts[j];
      }
      assert ts[j] in rest;
      var c :| 0 <= c < |rest| && rest[c] == ts[j];
      a, b := 0, c + 1;
    } else {
      var c, d := ViaTwice(g, ts[1..], x, i - 1, j - 1);
      a, b := c + k, d + k;
    }
  }

  /** No edge of a determinized automaton is there twice: the successors on a byte stand for disjoint lists. */
  lemma DeterminizedDistinct(src: Nfa, g: Nfa, lists: seq<seq<nat>>, d: nat)
    requires Subsets.Determinizes(src, g, lists) && Walkable(g) && d < |g.out|
    ensures NoRepeats(g.out[d])
  {
    var ts := g.out[d];
    forall i, j | 0 <= i < j < |ts| ensures ts[i] != ts[j] {
      if ts[i] == ts[j] {
        var t := ts[i];
        WalkableStep(g, d, t);
        var x: Byte :| g.vertices[t].trans.Permits(x);
        var via := Subsets.Via(g, ts, x);
        var a, b := ViaTwice(g, ts, x, i, j);
        assert Subsets.StepsTo(src, g, lists, d, x);
        assert Subsets.StandsFor(src, g, t, lists[t]);
        FlatMapTwice(Subsets.ListOf(lists), via, a, b, lists[t][0]);
        DedupNoRepeats(FlatMap(Subsets.Moves(src, x), lists[d]));
        assert false;
      }
    }
  }

  lemma SturdyWalkable(g: Nfa)
    requires Sturdy(g)
    ensures Walkable(g)
  {
    SturdyParts(g);
    hide Barren, Unguarded, AllReachable, NoRepeats;
  }

  /** Everything but the initial vertex of a sturdy automaton that has edges leads to a match, and so does it. */
  lemma AllLead(g: Nfa, v: nat)
    requires Sturdy(g) && 0 < |g.out| && g.out[0] != [] && v < |g.vertices|
    ensures !Barren(g, v)
  {
    SturdyParts(g);
    if v == 0 {
      var t := g.out[0][0];
      assert t in g.out[0] && !Barren(g, t);
      var l :| Reaches(g, t, l);
      ReachesStep(g, 0, t, l);
    }
  }

  /** Determinizing keeps what the compiler relies on. */
  lemma DeterminizedSturdy(src: Nfa, g: Nfa, lists: seq<seq<nat>>)
    requires Sturdy(src) && 0 < |src.out| && src.out[0] != []
    requires Subsets.Determinizes(src, g, lists) && Determinizing.Formed(g) && Wired(g) && Matched(g)
    ensures Sturdy(g)
  {
    SturdyParts(src);
    SturdyWalkable(src);
    FormedWalkable(g);
    forall d: nat | d < |g.vertices| ensures !Barren(g, d) {
      assert Subsets.StandsFor(src, g, d, lists[d]);
      var s := lists[d][0];
      AllLead(src, s);
      var l :| Reaches(src, s, l);
      DeterminizedReaches(src, g, lists, d, l);
    }
    forall d, l | 0 <= d < |g.vertices| && g.vertices[d].isMatch && Reaches(g, d, l) ensures l == g.vertices[d].lbl {
      DeterminizedOwn(src, g, lists, d, l);
    }
    forall d: nat | d < |g.out| ensures NoRepeats(g.out[d]) {
      DeterminizedDistinct(src, g, lists, d);
    }
    forall d: nat | d < |g.vertices| ensures if g.vertices[d].isMatch then g.vertices[d].lbl < UNLABELABLE else g.vertices[d].lbl == NOLABEL {
      assert Subsets.StandsFor(src, g, d, lists[d]);
    }
    assert Subsets.StandsFor(src, g, 0, lists[0]);
    FormedPlain(g);
    SturdyBy(g);
  }

  lemma FormedWalkable(g: Nfa)
    requires Determinizing.Formed(g)
    ensures Walkable(g)
  {
    hide SomeByte, AllReachable;
  }

  function Any(s: seq<nat>): (x: nat)
    ensures s != [] ==> x in s
  {
    if s == [] then 0 else s[0]
  }

  lemma FormedPlain(g: Nfa)
    requires Determinizing.Formed(g) && Matched(g)
    requires forall d: nat :: d < |g.vertices| ==> if g.vertices[d].isMatch then g.vertices[d].lbl < UNLABELABLE else g.vertices[d].lbl == NOLABEL
    requires forall d: nat :: d < |g.out| ==> NoRepeats(g.out[d])
    ensures Images.Plain(g) && Images.Spread(g) && g.vertices[0] == Vertex(NoTransition, false, NOLABEL)
    ensures forall d :: 0 < d < |g.vertices| ==> SomeByte(g.vertices[d].trans)
  {
    hide SomeByte, AllReachable, NoRepeats;
    var h := Any(g.ins[0]);
    assert h < |g.out| ==> 0 !in g.out[h];
    assert h !in g.ins[0];
  }
}
