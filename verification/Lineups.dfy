/**
 Where mergeIntoFSM puts the edges to the images (src/lib/nfaoptimizer.cpp:67-159), and what
 that does to the preferred matches: those of every other label stay what they were, and the
 new label prefers what the source prefers, if the source is untangled.
 */
module Lineups {
  import opened Basics
  import opened Automata
  import opened Graphs
  import opened Sequences
  import opened Images

  // ----- the members of a set, in their order -----

  function Only(ds: seq<nat>, s: set<nat>): seq<nat> {
    if ds == [] then [] else (if ds[0] in s then [ds[0]] else []) + Only(ds[1..], s)
  }

  lemma OnlyFirst(ds: seq<nat>, s: set<nat>)
    requires ds != []
    ensures Only(ds, s) == (if ds[0] in s then [ds[0]] else []) + Only(ds[1..], s)
  {
  }

  lemma {:induction false} OnlyAppend(a: seq<nat>, b: seq<nat>, s: set<nat>)
    ensures Only(a + b, s) == Only(a, s) + Only(b, s)
    decreases |a|
  {
    if a == [] {
      assert a + b == b;
    } else {
      assert (a + b)[0] == a[0] && (a + b)[1..] == a[1..] + b;
      OnlyAppend(a[1..], b, s);
      OnlyFirst(a, s);
      OnlyFirst(a + b, s);
      hide Only;
    }
  }

  lemma {:induction false} OnlyIn(ds: seq<nat>, s: set<nat>, x: nat)
    ensures x in Only(ds, s) <==> x in ds && x in s
    decreases |ds|
  {
    if ds != [] {
      OnlyIn(ds[1..], s, x);
      assert ds == [ds[0]] + ds[1..];
    }
  }

  lemma {:induction false} OnlyNone(ds: seq<nat>, s: set<nat>)
    requires forall x :: x in ds ==> x !in s
    ensures Only(ds, s) == []
    decreases |ds|
  {
    if ds != [] {
      OnlyNone(ds[1..], s);
    }
  }

  /** Members of neither or both sets make no difference. */
  lemma {:induction false} OnlyLike(ds: seq<nat>, s: set<nat>, s': set<nat>)
    requires forall x :: x in ds ==> (x in s <==> x in s')
    ensures Only(ds, s) == Only(ds, s')
    decreases |ds|
  {
    if ds != [] {
      OnlyLike(ds[1..], s, s');
    }
  }

  lemma InsertedParts(ds: seq<nat>, i: nat, x: nat, k: nat)
    requires k == if i < |ds| then i else |ds|
    ensures Inserted(ds, i, x) == ds[..k] + ([x] + ds[k..]) && ds == ds[..k] + ds[k..]
  {
  }

  lemma OnlyParts(a: seq<nat>, x: nat, b: seq<nat>, s: set<nat>)
    ensures Only(a + ([x] + b), s) == Only(a, s) + ((if x in s then [x] else []) + Only(b, s))
    ensures Only(a + b, s) == Only(a, s) + Only(b, s)
  {
    OnlyAppend(a, [x] + b, s);
    OnlyAppend(a, b, s);
    assert ([x] + b)[1..] == b;
  }

  /** One that is not in the set may be put anywhere. */
  lemma OnlyOther(ds: seq<nat>, s: set<nat>, i: nat, x: nat)
    requires x !in s
    ensures Only(Inserted(ds, i, x), s) == Only(ds, s)
  {
    hide Only, Inserted;
    var k := if i < |ds| then i else |ds|;
    InsertedParts(ds, i, x, k);
    OnlyParts(ds[..k], x, ds[k..], s);
  }

  /** One more member, behind all others, is the last. */
  lemma OnlyLast(ds: seq<nat>, s: set<nat>, i: nat, x: nat)
    requires x in s && forall k :: i <= k < |ds| ==> ds[k] !in s
    ensures Only(Inserted(ds, i, x), s) == Only(ds, s) + [x]
  {
    hide Only, Inserted;
    var k := if i < |ds| then i else |ds|;
    InsertedParts(ds, i, x, k);
    OnlyParts(ds[..k], x, ds[k..], s);
    OnlyNone(ds[k..], s);
  }

  /** An entry that becomes a member, behind all others, is the last. */
  lemma OnlyJoined(ds: seq<nat>, s: set<nat>, i: nat)
    requires i < |ds| && ds[i] !in s && (forall k :: i < k < |ds| ==> ds[k] !in s)
    requires forall k :: 0 <= k < |ds| && k != i ==> ds[k] != ds[i]
    ensures Only(ds, s + {ds[i]}) == Only(ds, s) + [ds[i]]
  {
    var x := ds[i];
    assert ds == ds[..i] + ([x] + ds[i + 1..]);
    OnlyAppend(ds[..i], [x] + ds[i + 1..], s);
    OnlyAppend([x], ds[i + 1..], s);
    OnlyAppend(ds[..i], [x] + ds[i + 1..], s + {x});
    OnlyAppend([x], ds[i + 1..], s + {x});
    OnlyLike(ds[..i], s, s + {x});
    OnlyNone(ds[i + 1..], s);
    OnlyNone(ds[i + 1..], s + {x});
  }

  // ----- images -----

  function ImageSet(phi: seq<Option<nat>>): set<nat> {
    set s: nat | s < |phi| && phi[s].Some? :: phi[s].value
  }

  lemma ImageSetIs(phi: seq<Option<nat>>, d: nat)
    ensures d in ImageSet(phi) <==> Some(d) in phi
  {
    if d in ImageSet(phi) {
      var s: nat :| s < |phi| && phi[s].Some? && phi[s].value == d;
      assert phi[s] == Some(d);
    }
    if Some(d) in phi {
      var s :| 0 <= s < |phi| && phi[s] == Some(d);
    }
  }

  lemma ImageSetMore(phi: seq<Option<nat>>, t: nat, d: nat)
    requires t < |phi| && (phi[t].None? || phi[t] == Some(d))
    ensures ImageSet(phi[t := Some(d)]) == ImageSet(phi) + {d}
  {
    var phi' := phi[t := Some(d)];
    forall x ensures x in ImageSet(phi') <==> x in ImageSet(phi) + {d} {
      if x in ImageSet(phi) {
        var s: nat :| s < |phi| && phi[s].Some? && phi[s].value == x;
        assert phi'[s].Some? && phi'[s].value == x;
      }
      assert phi'[t].value == d;
    }
  }

  // ----- preference among successors -----

  /** Successors that find nothing may be left out. */
  lemma {:induction false} BestOfOnly(g: Nfa, l: nat, ds: seq<nat>, s: set<nat>, w: seq<Byte>)
    requires Wired(g) && Within(g, ds)
    requires forall d :: d in ds && d !in s ==> BestVia(g, l, d, w) == None
    ensures Within(g, Only(ds, s)) && BestOf(g, l, Only(ds, s), w) == BestOf(g, l, ds, w)
    decreases |ds|
  {
    if ds != [] {
      BestOfOnly(g, l, ds[1..], s, w);
      if ds[0] in s {
        var r := [ds[0]] + Only(ds[1..], s);
        assert r[0] == ds[0] && r[1..] == Only(ds[1..], s);
      } else {
        assert ds[0] in ds && BestVia(g, l, ds[0], w) == None;
        assert [] + Only(ds[1..], s) == Only(ds[1..], s);
      }
    }
  }

  lemma {:induction false} BestOfHas(g: Nfa, l: nat, ts: seq<nat>, x: nat, w: seq<Byte>)
    requires Wired(g) && Within(g, ts) && x in ts && BestOf(g, l, ts, w).None?
    ensures x < |g.vertices| && BestVia(g, l, x, w).None?
    decreases |ts|
  {
    if ts[0] != x {
      assert ts == [ts[0]] + ts[1..];
      BestOfHas(g, l, ts[1..], x, w);
    }
  }

  /** Trying a successor again makes no difference. */
  lemma {:induction false} BestOfDedup(g: Nfa, l: nat, ts: seq<nat>, w: seq<Byte>)
    requires Wired(g) && Within(g, ts)
    ensures Within(g, Dedup(ts)) && BestOf(g, l, Dedup(ts), w) == BestOf(g, l, ts, w)
    decreases |ts|
  {
    if ts != [] {
      var front, x := ts[..|ts| - 1], ts[|ts| - 1];
      assert ts == front + [x];
      BestOfDedup(g, l, front, w);
      BestOfAppend(g, l, front, [x], w);
      DedupSnoc(front, x);
      if x in front {
        if BestOf(g, l, front, w).None? {
          BestOfHas(g, l, front, x, w);
        }
      } else {
        BestOfAppend(g, l, Dedup(front), [x], w);
      }
    }
  }

  /** Successors that find the same, one by one. */
  lemma {:induction false} BestOfLike(g: Nfa, g': Nfa, l: nat, ts: seq<nat>, ds: seq<nat>, w: seq<Byte>)
    requires Wired(g) && Wired(g') && Within(g, ts) && Within(g', ds) && |ts| == |ds|
    requires forall i :: 0 <= i < |ts| ==> BestVia(g, l, ts[i], w) == BestVia(g', l, ds[i], w)
    ensures BestOf(g, l, ts, w) == BestOf(g', l, ds, w)
    decreases |ts|
  {
    if ts != [] {
      BestOfLike(g, g', l, ts[1..], ds[1..], w);
    }
  }

  // ----- other labels -----

  /** The successors that were there before are in the order that they were in. */
  ghost predicate OldInOrder(g0: Nfa, g: Nfa) {
    |g0.out| <= |g.out| && forall h: nat :: h < |g0.out| ==> Only(g.out[h], Numbers(|g0.out|)) == g0.out[h]
  }

  /** Behind a new vertex, no other label than the new one is matched. */
  lemma {:induction false} NewFindsNoOther(src: Nfa, g0: Nfa, g: Nfa, phi: seq<Option<nat>>, lnew: nat, l: nat, d: nat, w: seq<Byte>)
    requires Plain(src) && Plain(g0) && Plain(g) && Image(src, g0, g, phi) && Kept(g0, g) && FreshLabel(src, g0, lnew) && l != lnew
    requires |g0.vertices| <= d < |g.vertices|
    ensures Best(g, l, d, w).None?
    decreases |w|
  {
    NewIsOfSource(src, g0, g, phi, d);
    var s: nat :| s < |src.vertices| && SameVertex(src.vertices[s], g.vertices[d]);
    var ts := g.out[d];
    forall x | x in ts && x !in {} ensures x < |g.vertices| && BestVia(g, l, x, w) == None {
      assert x >= |g0.vertices|;
      if w != [] {
        NewFindsNoOther(src, g0, g, phi, lnew, l, x, w[1..]);
      }
    }
    BestOfOnly(g, l, ts, {}, w);
    OnlyNone(ts, {});
  }

  /** What is matched under every other label is what it was. */
  lemma {:induction false} OldPrefers(src: Nfa, g0: Nfa, g: Nfa, phi: seq<Option<nat>>, lnew: nat, l: nat, v: nat, w: seq<Byte>)
    requires Plain(src) && Plain(g0) && Plain(g) && Image(src, g0, g, phi) && Kept(g0, g) && FreshLabel(src, g0, lnew) && l != lnew
    requires OldInOrder(g0, g) && v < |g0.vertices|
    ensures v < |g.vertices| && Best(g, l, v, w) == Best(g0, l, v, w)
    decreases |w|
  {
    var n0 := |g0.vertices|;
    var ds := g.out[v];
    forall x | x in ds && x !in Numbers(n0) ensures x < |g.vertices| && BestVia(g, l, x, w) == None {
      if w != [] {
        NewFindsNoOther(src, g0, g, phi, lnew, l, x, w[1..]);
      }
    }
    BestOfOnly(g, l, ds, Numbers(n0), w);
    forall i | 0 <= i < |g0.out[v]| ensures BestVia(g0, l, g0.out[v][i], w) == BestVia(g, l, g0.out[v][i], w) {
      if w != [] {
        OldPrefers(src, g0, g, phi, lnew, l, g0.out[v][i], w[1..]);
      }
    }
    BestOfLike(g0, g, l, g0.out[v], Only(ds, Numbers(n0)), w);
  }

  // ----- one step of the walk -----

  predicate Even(g: Nfa) {
    |g.vertices| == |g.out| == |g.ins|
  }

  /** What the walk works on. */
  datatype Walk = Walk(g: Nfa, phi: seq<Option<nat>>, back: map<nat, seq<nat>>, pos: map<nat, nat>,
                       visited: set<(nat, nat)>, edges: seq<(nat, nat)>)

  /** Everything that is looked up is there. */
  ghost predicate Fits(src: Nfa, m: Walk) {
    && Wired(src) && Wired(m.g) && |m.phi| == |src.out|
    && (forall s: nat :: s < |m.phi| && m.phi[s].Some? ==> m.phi[s].value < |m.g.out|)
    && (forall d: nat :: d in m.back ==> m.back[d] != [] && m.back[d][0] < |src.ins|)
    && (forall k :: 0 <= k < |m.edges| ==>
          m.edges[k].0 < |src.out| && m.edges[k].1 < |src.out[m.edges[k].0]| && m.phi[m.edges[k].0].Some?)
  }

  /** canMerge */
  predicate Mergeable(src: Nfa, g: Nfa, back: map<nat, seq<nat>>, d: nat, t: nat)
    requires Even(src) && Even(g) && d < |g.vertices| && t < |src.vertices|
    requires d in back ==> back[d] != [] && back[d][0] < |src.ins|
  {
    && g.vertices[d].lbl == src.vertices[t].lbl
    && (g.vertices[d].lbl == NOLABEL || (|src.out[t]| == 0 && |g.out[d]| == 0))
    && 1 == |g.ins[d]| && 1 == |src.ins[t]|
    && (d in back ==> 1 == |src.ins[back[d][0]]|)
    && SameBytes(g.vertices[d].trans, src.vertices[t].trans)
  }

  /** The place of the first of ts, from start on, that t can be merged with. */
  function NextMergeable(src: Nfa, g: Nfa, back: map<nat, seq<nat>>, ts: seq<nat>, t: nat, start: nat): (r: nat)
    requires Even(src) && Even(g) && t < |src.vertices| && forall k :: 0 <= k < |ts| ==> ts[k] < |g.vertices|
    requires forall d: nat :: d in back ==> back[d] != [] && back[d][0] < |src.ins|
    ensures start <= r && (r < |ts| ==> Mergeable(src, g, back, ts[r], t))
    ensures forall k :: start <= k < r && k < |ts| ==> !Mergeable(src, g, back, ts[k], t)
    decreases |ts| - start
  {
    if start >= |ts| || Mergeable(src, g, back, ts[start], t) then start
    else NextMergeable(src, g, back, ts, t, start + 1)
  }

  /** The automaton with the image of a child, the image, and where the edge to it goes. */
  datatype Place = Place(g: Nfa, d: nat, di: nat)

  /** A new vertex, by itself. */
  function WithVertex(src: Nfa, g: Nfa, t: nat): Nfa
    requires t < |src.vertices|
  {
    Nfa(g.vertices + [src.vertices[t]], g.out + [[]], g.ins + [[]])
  }

  /** The image that the child t has already; one to merge with, from the last place on; or a new one. */
  function PlaceOf(src: Nfa, g: Nfa, phi: seq<Option<nat>>, back: map<nat, seq<nat>>, pos: map<nat, nat>, p: nat, t: nat): Place
    requires Even(src) && Even(g) && |phi| == |src.vertices| && t < |phi| && p < |g.out|
    requires forall k :: 0 <= k < |g.out[p]| ==> g.out[p][k] < |g.vertices|
    requires forall d: nat :: d in back ==> back[d] != [] && back[d][0] < |src.ins|
  {
    if phi[t].Some? then Place(g, phi[t].value, IndexOf(g.out[p], phi[t].value))
    else
      var di := NextMergeable(src, g, back, g.out[p], t, if p in pos then pos[p] else 0);
      if di < |g.out[p]| then Place(g, g.out[p][di], di)
      else Place(WithVertex(src, g, t), |g.vertices|, if p in pos then di else 0)
  }

  lemma PlaceCases(src: Nfa, g: Nfa, phi: seq<Option<nat>>, back: map<nat, seq<nat>>, pos: map<nat, nat>, p: nat, t: nat)
    requires Wired(src) && Wired(g) && |phi| == |src.vertices| && t < |phi| && p < |g.out|
    requires forall d: nat :: d in back ==> back[d] != [] && back[d][0] < |src.ins|
    ensures Even(src) && Even(g) && forall k :: 0 <= k < |g.out[p]| ==> g.out[p][k] < |g.vertices|
    ensures phi[t].Some? ==> PlaceOf(src, g, phi, back, pos, p, t) == Place(g, phi[t].value, IndexOf(g.out[p], phi[t].value))
    ensures phi[t].None? ==>
              var di := NextMergeable(src, g, back, g.out[p], t, if p in pos then pos[p] else 0);
              PlaceOf(src, g, phi, back, pos, p, t)
              == if di < |g.out[p]| then Place(g, g.out[p][di], di)
                 else Place(Nfa(g.vertices + [src.vertices[t]], g.out + [[]], g.ins + [[]]), |g.vertices|, if p in pos then di else 0)
  {
    hide NextMergeable;
  }

  function Sources(back: map<nat, seq<nat>>, d: nat): seq<nat> {
    if d in back then back[d] else []
  }

  /** One round of the loop of mergeIntoFSM. */
  ghost function Stepped(src: Nfa, m: Walk): Walk
    requires Fits(src, m)
  {
    if m.edges == [] then m
    else
      var (h, i) := m.edges[|m.edges| - 1];
      var rest := m.edges[..|m.edges| - 1];
      if (h, i) in m.visited then m.(edges := rest)
      else
        var t, p := src.out[h][i], m.phi[h].value;
        var x := PlaceOf(src, m.g, m.phi, m.back, m.pos, p, t);
        Walk(EdgeTo(x.g, p, x.d, x.di), m.phi[t := Some(x.d)], m.back[x.d := Sources(m.back, x.d) + [t]],
             m.pos[p := x.di], m.visited + {(h, i)}, PushAll(rest, t, |src.out[t]|))
  }

  // ----- the order of the walk -----

  /** Of the edges out of h, the first n have been visited. */
  ghost predicate SeenTo(visited: set<(nat, nat)>, h: nat, n: nat) {
    forall j: nat :: (h, j) in visited <==> j < n
  }

  ghost predicate Above(edges: seq<(nat, nat)>, k: nat, e: (nat, nat)) {
    exists k' :: k < k' < |edges| && edges[k'] == e
  }

  /** The edges out of a vertex are visited in their order: the earlier ones lie above the later ones. */
  ghost predicate InTurn(visited: set<(nat, nat)>, edges: seq<(nat, nat)>) {
    && (forall k: nat, j: nat :: k < |edges| && j < edges[k].1 ==> (edges[k].0, j) in visited || Above(edges, k, (edges[k].0, j)))
    && (forall h: nat, i: nat, j: nat :: (h, i) in visited && j < i ==> (h, j) in visited)
  }

  lemma TopSeen(visited: set<(nat, nat)>, edges: seq<(nat, nat)>, h: nat, i: nat)
    requires InTurn(visited, edges) && edges != [] && edges[|edges| - 1] == (h, i) && (h, i) !in visited
    ensures SeenTo(visited, h, i)
  {
    forall j: nat | j < i ensures (h, j) in visited {
      assert !Above(edges, |edges| - 1, (h, j));
    }
  }

  lemma SeenMore(visited: set<(nat, nat)>, h: nat, i: nat)
    requires SeenTo(visited, h, i)
    ensures SeenTo(visited + {(h, i)}, h, i + 1)
  {
  }

  lemma {:induction false} PushedPlace(edges: seq<(nat, nat)>, t: nat, n: nat)
    ensures var r := PushAll(edges, t, n);
            && |r| == |edges| + n
            && (forall k :: 0 <= k < |edges| ==> r[k] == edges[k])
            && (forall k :: |edges| <= k < |r| ==> r[k] == (t, |r| - 1 - k))
    decreases n
  {
    if n > 0 {
      PushedPlace(edges + [(t, n - 1)], t, n - 1);
    }
  }

  lemma TurnSkip(visited: set<(nat, nat)>, edges: seq<(nat, nat)>)
    requires InTurn(visited, edges) && edges != [] && edges[|edges| - 1] in visited
    ensures InTurn(visited, edges[..|edges| - 1])
  {
    var rest := edges[..|edges| - 1];
    forall k: nat, j: nat | k < |rest| && j < rest[k].1 && (rest[k].0, j) !in visited ensures Above(rest, k, (rest[k].0, j)) {
      assert Above(edges, k, (edges[k].0, j));
      var k' :| k < k' < |edges| && edges[k'] == (edges[k].0, j);
      assert rest[k'] == edges[k'];
    }
  }

  /** What lay above an entry, other than the top, still does. */
  lemma StillAbove(edges: seq<(nat, nat)>, r: seq<(nat, nat)>, k: nat, e: (nat, nat))
    requires edges != [] && |r| >= |edges| - 1 && forall x :: 0 <= x < |edges| - 1 ==> r[x] == edges[x]
    requires Above(edges, k, e) && edges[|edges| - 1] != e
    ensures Above(r, k, e)
  {
    var k' :| k < k' < |edges| && edges[k'] == e;
    assert r[k'] == e;
  }

  /** The edges of one vertex on the stack lie in their order. */
  lemma PushedAbove(r: seq<(nat, nat)>, low: nat, t: nat, k: nat, j: nat)
    requires low <= k < |r| && j < |r| - 1 - k
    requires forall k :: low <= k < |r| ==> r[k] == (t, |r| - 1 - k)
    ensures Above(r, k, (t, j))
  {
    assert r[|r| - 1 - j] == (t, j);
  }

  lemma TurnEntry(visited: set<(nat, nat)>, edges: seq<(nat, nat)>, h: nat, i: nat, t: nat, n: nat, k: nat, j: nat)
    requires InTurn(visited, edges) && edges != [] && edges[|edges| - 1] == (h, i)
    requires var r := PushAll(edges[..|edges| - 1], t, n); k < |r| && j < r[k].1 && (r[k].0, j) !in visited + {(h, i)}
    ensures var r := PushAll(edges[..|edges| - 1], t, n); Above(r, k, (r[k].0, j))
  {
    hide *;
    var rest := edges[..|edges| - 1];
    var r := PushAll(rest, t, n);
    PushedPlace(rest, t, n);
    if k < |rest| {
      assert r[k] == rest[k] == edges[k];
      InTurnAt(visited, edges, k, j);
      StillAbove(edges, r, k, (edges[k].0, j));
    } else {
      PushedAbove(r, |rest|, t, k, j);
    }
  }

  lemma InTurnAt(visited: set<(nat, nat)>, edges: seq<(nat, nat)>, k: nat, j: nat)
    requires InTurn(visited, edges) && k < |edges| && j < edges[k].1
    ensures (edges[k].0, j) in visited || Above(edges, k, (edges[k].0, j))
  {
    hide Above;
  }

  lemma TurnStep(visited: set<(nat, nat)>, edges: seq<(nat, nat)>, h: nat, i: nat, t: nat, n: nat)
    requires InTurn(visited, edges) && edges != [] && edges[|edges| - 1] == (h, i)
    ensures InTurn(visited + {(h, i)}, PushAll(edges[..|edges| - 1], t, n))
  {
    hide *;
    var r := PushAll(edges[..|edges| - 1], t, n);
    var visited' := visited + {(h, i)};
    forall k: nat, j: nat | k < |r| && j < r[k].1 && (r[k].0, j) !in visited' ensures Above(r, k, (r[k].0, j)) {
      TurnEntry(visited, edges, h, i, t, n, k, j);
    }
    forall x: nat, y: nat, j: nat | (x, y) in visited' && j < y ensures (x, j) in visited' {
      TurnClosed(visited, edges, h, i, x, y, j);
    }
    TurnBy(visited', r);
  }

  lemma TurnBy(visited: set<(nat, nat)>, edges: seq<(nat, nat)>)
    requires forall k: nat, j: nat :: k < |edges| && j < edges[k].1 && (edges[k].0, j) !in visited ==> Above(edges, k, (edges[k].0, j))
    requires forall h: nat, i: nat, j: nat :: (h, i) in visited && j < i ==> (h, j) in visited
    ensures InTurn(visited, edges)
  {
    hide Above;
  }

  lemma TurnClosed(visited: set<(nat, nat)>, edges: seq<(nat, nat)>, h: nat, i: nat, x: nat, y: nat, j: nat)
    requires InTurn(visited, edges) && edges != [] && edges[|edges| - 1] == (h, i)
    requires (x, y) in visited + {(h, i)} && j < y
    ensures (x, j) in visited + {(h, i)}
  {
    if (x, y) !in visited && Above(edges, |edges| - 1, (h, j)) {
      assert false;
    }
  }

  lemma TurnFirst(n: nat)
    ensures InTurn({}, PushAll([], 0, n))
  {
    var r := PushAll([], 0, n);
    PushedPlace([], 0, n);
    hide PushAll, Above;
    forall k: nat, j: nat | k < |r| && j < r[k].1 ensures Above(r, k, (r[k].0, j)) {
      PushedAbove(r, 0, 0, k, j);
    }
  }

  // ----- vertices that may share an image -----

  ghost predicate OneIn(g: Nfa, d: nat) {
    d < |g.ins| && |g.ins[d]| == 1
  }

  /** s and t read the same bytes, have the same label, and have one in edge each. */
  ghost predicate SameKind(src: Nfa, s: nat, t: nat) {
    && Even(src) && s < |src.vertices| && t < |src.vertices|
    && SameVertex(src.vertices[s], src.vertices[t])
    && OneIn(src, s) && OneIn(src, t)
  }

  /** Two paths from one vertex, step by step through vertices of the same kind. */
  ghost predicate Forked(src: Nfa, p: seq<nat>, q: seq<nat>) {
    && Path(src, p) && Path(src, q) && |p| == |q| && p[0] == q[0]
    && forall i :: 1 <= i < |p| ==> SameKind(src, p[i], q[i])
  }

  ghost predicate Kin(src: Nfa, s: nat, t: nat) {
    exists p: seq<nat>, q: seq<nat> :: Forked(src, p, q) && p[|p| - 1] == s && q[|q| - 1] == t
  }

  ghost predicate Reaching(src: Nfa, s: nat, t: nat) {
    exists p: seq<nat> :: Path(src, p) && p[0] == s && p[|p| - 1] == t
  }

  /** A path from the initial vertex leads to h on which every vertex has one in edge. */
  ghost predicate OnTrunk(src: Nfa, h: nat) {
    exists p: seq<nat> :: Path(src, p) && p[0] == 0 && p[|p| - 1] == h && forall i :: 1 <= i < |p| ==> OneIn(src, p[i])
  }

  /** t cannot be reached from s, and they have no child in common, nor s one twice. */
  ghost predicate Separate(src: Nfa, s: nat, t: nat) {
    && s < |src.out| && t < |src.out| && !Reaching(src, s, t) && NoRepeats(src.out[s])
    && forall u :: u in src.out[s] ==> u !in src.out[t]
  }

  ghost predicate NoneAlike(src: Nfa, ts: seq<nat>) {
    forall i, j :: 0 <= i < |ts| && 0 <= j < |ts| && ts[i] != ts[j] ==> !SameKind(src, ts[i], ts[j])
  }

  /** Kin are separate; a vertex with a child twice is off the trunk, and has no children of the same kind. */
  ghost predicate Untangled(src: Nfa) {
    && (forall s: nat, t: nat :: s != t && Kin(src, s, t) ==> Separate(src, s, t))
    && (forall h: nat :: h < |src.out| && !NoRepeats(src.out[h]) ==> !OnTrunk(src, h) && NoneAlike(src, src.out[h]))
  }

  lemma PathMore(g: Nfa, p: seq<nat>, t: nat)
    requires Path(g, p) && t < |g.out| && t in g.out[p[|p| - 1]]
    ensures Path(g, p + [t])
  {
    var q := p + [t];
    forall k | 0 <= k < |q| - 1 ensures q[k + 1] in g.out[q[k]] {
      if k < |p| - 1 {
        assert p[k + 1] in g.out[p[k]];
      }
    }
  }

  lemma KinSelf(src: Nfa, s: nat)
    requires s < |src.out|
    ensures Kin(src, s, s)
  {
    assert Forked(src, [s], [s]);
  }

  lemma KinSwaps(src: Nfa, s: nat, t: nat)
    requires Kin(src, s, t)
    ensures Kin(src, t, s)
  {
    var p: seq<nat>, q: seq<nat> :| Forked(src, p, q) && p[|p| - 1] == s && q[|q| - 1] == t;
    assert Forked(src, q, p);
  }

  /** Children of the same kind of kin are kin. */
  lemma KinStep(src: Nfa, h: nat, k: nat, s: nat, t: nat)
    requires Kin(src, h, k) && Wired(src) && h < |src.out| && k < |src.out| && s in src.out[h] && t in src.out[k] && SameKind(src, s, t)
    ensures Kin(src, s, t)
  {
    var p: seq<nat>, q: seq<nat> :| Forked(src, p, q) && p[|p| - 1] == h && q[|q| - 1] == k;
    PathMore(src, p, s);
    PathMore(src, q, t);
    hide SameKind;
    assert Forked(src, p + [s], q + [t]);
  }

  lemma ReachingSelf(src: Nfa, s: nat)
    requires s < |src.out|
    ensures Reaching(src, s, s)
  {
    assert Path(src, [s]);
  }

  lemma ReachingStep(src: Nfa, s: nat, h: nat, t: nat)
    requires Reaching(src, s, h) && h < |src.out| && t < |src.out| && t in src.out[h]
    ensures Reaching(src, s, t)
  {
    var p: seq<nat> :| Path(src, p) && p[0] == s && p[|p| - 1] == h;
    PathMore(src, p, t);
    assert (p + [t])[0] == s;
  }

  lemma TrunkGrows(src: Nfa, h: nat, t: nat)
    requires OnTrunk(src, h) && h < |src.out| && t < |src.out| && t in src.out[h] && OneIn(src, t)
    ensures OnTrunk(src, t)
  {
    var p: seq<nat> :| Path(src, p) && p[0] == 0 && p[|p| - 1] == h && forall i :: 1 <= i < |p| ==> OneIn(src, p[i]);
    PathMore(src, p, t);
    var q := p + [t];
    assert q[0] == 0 && forall i :: 1 <= i < |q| ==> OneIn(src, q[i]);
  }

  // ----- when nothing is tangled -----

  lemma {:induction false} SameForks(src: Nfa, p: seq<nat>, q: seq<nat>, i: nat)
    requires Forked(src, p, q) && i < |p| && forall h: nat :: h < |src.out| ==> NoneAlike(src, src.out[h])
    ensures p[i] == q[i]
    decreases i
  {
    hide SameKind;
    if i > 0 {
      SameForks(src, p, q, i - 1);
      var h := p[i - 1];
      assert p[i - 1 + 1] in src.out[h] && q[i - 1 + 1] in src.out[h];
      var j :| 0 <= j < |src.out[h]| && src.out[h][j] == p[i];
      var k :| 0 <= k < |src.out[h]| && src.out[h][k] == q[i];
      assert NoneAlike(src, src.out[h]);
      assert SameKind(src, src.out[h][j], src.out[h][k]);
    }
  }

  /** Where no two children of a vertex are of the same kind, no two vertices are kin. */
  lemma UnlikeSiblings(src: Nfa)
    requires forall h: nat :: h < |src.out| ==> NoneAlike(src, src.out[h]) && (OnTrunk(src, h) ==> NoRepeats(src.out[h]))
    ensures Untangled(src)
  {
    hide SameKind, OnTrunk;
    forall s: nat, t: nat | Kin(src, s, t) ensures s == t {
      var p: seq<nat>, q: seq<nat> :| Forked(src, p, q) && p[|p| - 1] == s && q[|q| - 1] == t;
      SameForks(src, p, q, |p| - 1);
    }
    hide Kin, Separate, NoneAlike;
  }

  /** A level for every vertex, one more after every edge. */
  ghost predicate Levelled(src: Nfa, level: nat -> nat) {
    forall h: nat, t: nat :: h < |src.out| && t in src.out[h] ==> level(t) == level(h) + 1
  }

  lemma {:induction false} LevelOf(src: Nfa, level: nat -> nat, p: seq<nat>, i: nat)
    requires Levelled(src, level) && Path(src, p) && i < |p|
    ensures level(p[i]) == level(p[0]) + i
    decreases i
  {
    if i > 0 {
      LevelOf(src, level, p, i - 1);
      assert p[i - 1 + 1] in src.out[p[i - 1]];
    }
  }

  lemma NoCommonChild(src: Nfa, s: nat, t: nat, u: nat)
    requires Wired(src) && Matched(src) && s != t && s < |src.out| && t < |src.out| && u in src.out[s] && u < |src.ins| && |src.ins[u]| <= 1
    ensures u !in src.out[t]
  {
    assert s in src.ins[u];
  }

  /** Trees: kin are on one level, and no two vertices have a child in common. */
  lemma TreesAreUntangled(src: Nfa, level: nat -> nat)
    requires Wired(src) && Matched(src) && Levelled(src, level) && forall v: nat :: v < |src.ins| ==> |src.ins[v]| <= 1
    requires forall h: nat :: h < |src.out| ==> NoRepeats(src.out[h])
    ensures Untangled(src)
  {
    forall s: nat, t: nat | s != t && Kin(src, s, t) ensures Separate(src, s, t) {
      var p: seq<nat>, q: seq<nat> :| Forked(src, p, q) && p[|p| - 1] == s && q[|q| - 1] == t;
      LevelOf(src, level, p, |p| - 1);
      LevelOf(src, level, q, |q| - 1);
      hide SameKind, Matched, Levelled;
      forall r: seq<nat> | Path(src, r) && r[0] == s ensures r[|r| - 1] != t {
        LevelOf(src, level, r, |r| - 1);
      }
      forall u | u in src.out[s] ensures u !in src.out[t] {
        NoCommonChild(src, s, t, u);
      }
    }
    hide Kin, Separate, NoneAlike, OnTrunk;
  }

  // ----- the edges that wait -----

  /** What lies higher can be reached from what lies lower. */
  ghost predicate Nested(src: Nfa, edges: seq<(nat, nat)>) {
    forall j, k :: 0 <= j <= k < |edges| ==> Reaching(src, edges[j].0, edges[k].0)
  }

  lemma NestedStep(src: Nfa, edges: seq<(nat, nat)>, h: nat, i: nat, t: nat, n: nat)
    requires Nested(src, edges) && edges != [] && edges[|edges| - 1] == (h, i) && h < |src.out| && t < |src.out| && t in src.out[h]
    ensures Nested(src, PushAll(edges[..|edges| - 1], t, n))
  {
    var rest := edges[..|edges| - 1];
    var r := PushAll(rest, t, n);
    PushedPlace(rest, t, n);
    ReachingSelf(src, t);
    hide PushAll, Reaching;
    forall j, k | 0 <= j <= k < |r| ensures Reaching(src, r[j].0, r[k].0) {
      if k < |rest| {
        assert r[j] == edges[j] && r[k] == edges[k];
      } else if j < |rest| {
        assert r[j] == edges[j];
        assert Reaching(src, edges[j].0, edges[|edges| - 1].0);
        ReachingStep(src, edges[j].0, h, t);
      }
    }
  }

  lemma NestedSkip(src: Nfa, edges: seq<(nat, nat)>)
    requires Nested(src, edges) && edges != []
    ensures Nested(src, edges[..|edges| - 1])
  {
    hide Reaching;
  }

  lemma NestedFirst(src: Nfa, n: nat)
    requires 0 < |src.out|
    ensures Nested(src, PushAll([], 0, n))
  {
    PushedPlace([], 0, n);
    ReachingSelf(src, 0);
    hide PushAll, Reaching;
  }

  // ----- the vertices that have an image -----

  /** Those that d is the image of, in the order in which they got it. */
  function ClassOf(back: map<nat, seq<nat>>, d: nat): seq<nat> {
    if d == 0 then [0] else Dedup(Sources(back, d))
  }

  ghost function Classes(back: map<nat, seq<nat>>): nat -> seq<nat> {
    d => ClassOf(back, d)
  }

  ghost function Outs(src: Nfa): nat -> seq<nat> {
    (s: nat) => if s < |src.out| then src.out[s] else []
  }

  ghost predicate BackOk(phi: seq<Option<nat>>, back: map<nat, seq<nat>>) {
    && 0 < |phi| && phi[0] == Some(0)
    && (forall s: nat :: s < |phi| && phi[s].Some? ==> (phi[s].value == 0 <==> s == 0))
    && (forall d: nat, s: nat :: d in back && s in back[d] ==> Maps(phi, s, d))
    && (forall s: nat :: 0 < s < |phi| && phi[s].Some? ==> phi[s].value in back && s in back[phi[s].value])
  }

  predicate Maps(phi: seq<Option<nat>>, s: nat, d: nat) {
    0 < s < |phi| && phi[s] == Some(d)
  }

  lemma ClassIn(phi: seq<Option<nat>>, back: map<nat, seq<nat>>, d: nat, s: nat)
    requires BackOk(phi, back)
    ensures s in ClassOf(back, d) <==> s < |phi| && phi[s] == Some(d)
    ensures NoRepeats(ClassOf(back, d))
  {
    DedupNoRepeats(Sources(back, d));
  }

  lemma ClassStep(back: map<nat, seq<nat>>, d: nat, t: nat)
    requires d != 0
    ensures var back' := back[d := Sources(back, d) + [t]];
            && ClassOf(back', d) == (if t in ClassOf(back, d) then ClassOf(back, d) else ClassOf(back, d) + [t])
            && forall x: nat :: x != d ==> ClassOf(back', x) == ClassOf(back, x)
  {
    DedupSnoc(Sources(back, d), t);
    hide Dedup;
  }

  lemma BackStep(phi: seq<Option<nat>>, back: map<nat, seq<nat>>, t: nat, d: nat)
    requires BackOk(phi, back) && 0 < t < |phi| && d != 0 && (phi[t].None? || phi[t] == Some(d))
    ensures BackOk(phi[t := Some(d)], back[d := Sources(back, d) + [t]])
  {
    var phi', back' := phi[t := Some(d)], back[d := Sources(back, d) + [t]];
    forall x: nat, s: nat | x in back' && s in back'[x] ensures Maps(phi', s, x) {
      BackEntry(phi, back, t, d, x, s);
    }
    forall s: nat | 0 < s < |phi'| && phi'[s].Some? ensures phi'[s].value in back' && s in back'[phi'[s].value] {
      if s != t && phi'[s].value == d {
        assert s in Sources(back, d);
      }
    }
  }

  lemma BackEntry(phi: seq<Option<nat>>, back: map<nat, seq<nat>>, t: nat, d: nat, x: nat, s: nat)
    requires BackOk(phi, back) && 0 < t < |phi| && d != 0 && (phi[t].None? || phi[t] == Some(d))
    requires var back' := back[d := Sources(back, d) + [t]]; x in back' && s in back'[x]
    ensures Maps(phi[t := Some(d)], s, x)
  {
    if x == d {
      if s != t {
        assert s in Sources(back, d);
        BackAtIs(phi, back, d, s);
      }
    } else {
      BackAtIs(phi, back, x, s);
    }
  }

  lemma BackAtIs(phi: seq<Option<nat>>, back: map<nat, seq<nat>>, d: nat, s: nat)
    requires BackOk(phi, back) && d in back && s in back[d]
    ensures 0 < s < |phi| && phi[s] == Some(d)
  {
  }

  ghost predicate Kindred(src: Nfa, phi: seq<Option<nat>>) {
    forall s: nat, t: nat :: s < |phi| && t < |phi| && phi[s].Some? && phi[s] == phi[t] ==> Kin(src, s, t)
  }

  /** The last that has got its image. */
  ghost predicate IsLast(m: Walk, s: nat) {
    && s < |m.phi| && m.phi[s].Some?
    && var cs := ClassOf(m.back, m.phi[s].value);
       cs != [] && cs[|cs| - 1] == s
  }

  ghost predicate AllVisited(src: Nfa, m: Walk, s: nat) {
    s < |src.out| && forall i: nat :: i < |src.out[s]| ==> (s, i) in m.visited
  }

  /** Of vertices with the same image only the last can have edges that wait. */
  ghost predicate Finished(src: Nfa, m: Walk) {
    forall s: nat :: s < |m.phi| && m.phi[s].Some? && s < |src.out| ==> AllVisited(src, m, s) || IsLast(m, s)
  }

  ghost predicate MatchAt(src: Nfa, s: nat) {
    s < |src.vertices| && src.vertices[s].isMatch
  }

  /** Matches that share an image have no successors. */
  ghost predicate Endings(src: Nfa, phi: seq<Option<nat>>) {
    forall s: nat, t: nat :: s < |phi| && t < |phi| && s != t && phi[s].Some? && phi[s] == phi[t] && MatchAt(src, s) ==>
      s < |src.out| && src.out[s] == []
  }

  ghost predicate Trunked(src: Nfa, n0: nat, phi: seq<Option<nat>>) {
    forall h: nat :: h < |phi| && phi[h].Some? && phi[h].value < n0 ==> OnTrunk(src, h)
  }

  // ----- the images of the children, in order -----

  /** A vertex with one in edge is one successor of one vertex. */
  ghost predicate Single(g: Nfa) {
    forall p: nat, i: nat, q: nat, j: nat ::
      p < |g.out| && i < |g.out[p]| && q < |g.out| && j < |g.out[q]| && g.out[p][i] == g.out[q][j] && OneIn(g, g.out[p][i]) ==>
        p == q && i == j
  }

  /** The children tried so far from p: those of all vertices that it is the image of, and of the last, h, the first n. */
  ghost function Tried(src: Nfa, back: map<nat, seq<nat>>, p: nat, h: nat, n: nat): seq<nat>
    requires h < |src.out| && n <= |src.out[h]| && ClassOf(back, p) != []
  {
    var cs := ClassOf(back, p);
    FlatMap(Outs(src), cs[..|cs| - 1]) + src.out[h][..n]
  }

  /** The images among the successors of the image of h stand for the children tried so far, in their order. */
  ghost predicate Lined(src: Nfa, g: Nfa, phi: seq<Option<nat>>, back: map<nat, seq<nat>>, h: nat, n: nat) {
    && h < |phi| && phi[h].Some? && phi[h].value < |g.out| && h < |src.out| && n <= |src.out[h]|
    && var cs := ClassOf(back, phi[h].value);
       && cs != [] && cs[|cs| - 1] == h
       && Dedup(Tried(src, back, phi[h].value, h, n)) == FlatMap(Classes(back), Only(g.out[phi[h].value], ImageSet(phi)))
  }

  ghost predicate Lines(src: Nfa, m: Walk) {
    forall h: nat, n: nat :: IsLast(m, h) && h < |src.out| && n <= |src.out[h]| && SeenTo(m.visited, h, n) ==>
      Lined(src, m.g, m.phi, m.back, h, n)
  }

  /** No vertex with image p has a child twice. */
  ghost predicate Steady(src: Nfa, phi: seq<Option<nat>>, p: nat) {
    forall s: nat :: s < |phi| && phi[s] == Some(p) && s < |src.out| ==> NoRepeats(src.out[s])
  }

  ghost predicate NoneBehind(g: Nfa, phi: seq<Option<nat>>, p: nat, i: nat)
    requires p < |g.out|
  {
    forall k :: i < k < |g.out[p]| ==> g.out[p][k] !in ImageSet(phi)
  }

  /** Behind the place of the last child there is no image. */
  ghost predicate Placed(src: Nfa, m: Walk) {
    && (forall p: nat :: p in m.pos ==> exists h: nat, i: nat :: (h, i) in m.visited && h < |m.phi| && m.phi[h] == Some(p))
    && (forall h: nat, i: nat :: (h, i) in m.visited ==> h < |m.phi| && m.phi[h].Some? && m.phi[h].value in m.pos)
    && (forall p: nat :: p in m.pos && p < |m.g.out| && Steady(src, m.phi, p) ==> NoneBehind(m.g, m.phi, p, m.pos[p]))
  }

  ghost predicate InLine(src: Nfa, n0: nat, m: Walk) {
    && BackOk(m.phi, m.back) && Kindred(src, m.phi) && Finished(src, m) && Lines(src, m)
    && Placed(src, m) && Trunked(src, n0, m.phi) && Endings(src, m.phi)
  }

  // ----- lists of classes -----

  lemma {:induction false} FlatMapHas(f: nat -> seq<nat>, s: seq<nat>, y: nat)
    requires y in FlatMap(f, s)
    ensures exists x :: x in s && y in f(x)
    decreases |s|
  {
    if y in f(s[0]) {
      assert s[0] in s;
    } else {
      FlatMapHas(f, s[1..], y);
      var x :| x in s[1..] && y in f(x);
      assert s == [s[0]] + s[1..];
    }
  }

  lemma {:induction false} FlatMapLike(f: nat -> seq<nat>, g: nat -> seq<nat>, s: seq<nat>)
    requires forall x :: x in s ==> f(x) == g(x)
    ensures FlatMap(f, s) == FlatMap(g, s)
    decreases |s|
  {
    if s != [] {
      assert s == [s[0]] + s[1..];
      FlatMapLike(f, g, s[1..]);
    }
  }

  /** What has been tried has an image among the successors. */
  lemma TriedHas(src: Nfa, g: Nfa, phi: seq<Option<nat>>, back: map<nat, seq<nat>>, h: nat, n: nat, t: nat)
    requires Lined(src, g, phi, back, h, n) && BackOk(phi, back)
    ensures t in Tried(src, back, phi[h].value, h, n) <==>
              t < |phi| && phi[t].Some? && phi[t].value in g.out[phi[h].value]
  {
    hide *;
    LinedUse(src, g, phi, back, h, n);
    var p := phi[h].value;
    var ds := Only(g.out[p], ImageSet(phi));
    if t in Tried(src, back, p, h, n) {
      assert t in FlatMap(Classes(back), ds);
      FlatMapHas(Classes(back), ds, t);
      var x :| x in ds && t in Classes(back)(x);
      ClassesIs(back, x);
      ClassIn(phi, back, x, t);
      OnlyIn(g.out[p], ImageSet(phi), x);
    }
    if t < |phi| && phi[t].Some? && phi[t].value in g.out[p] {
      var d := phi[t].value;
      assert phi[t] == Some(d);
      ImageSetIs(phi, d);
      OnlyIn(g.out[p], ImageSet(phi), d);
      ClassIn(phi, back, d, t);
      ClassesIs(back, d);
      FlatMapIn(Classes(back), ds, d, t);
    }
  }

  lemma ClassesIs(back: map<nat, seq<nat>>, d: nat)
    ensures Classes(back)(d) == ClassOf(back, d)
  {
  }

  lemma LinedUse(src: Nfa, g: Nfa, phi: seq<Option<nat>>, back: map<nat, seq<nat>>, h: nat, n: nat)
    requires Lined(src, g, phi, back, h, n)
    ensures h < |phi| && phi[h].Some? && phi[h].value < |g.out| && h < |src.out| && n <= |src.out[h]|
    ensures var cs := ClassOf(back, phi[h].value); cs != [] && cs[|cs| - 1] == h
    ensures Dedup(Tried(src, back, phi[h].value, h, n)) == FlatMap(Classes(back), Only(g.out[phi[h].value], ImageSet(phi)))
    ensures forall t :: t in Tried(src, back, phi[h].value, h, n) <==> t in FlatMap(Classes(back), Only(g.out[phi[h].value], ImageSet(phi)))
  {
    hide FlatMap, Only, ImageSet, Classes, ClassOf, Tried;
  }

  lemma LinedBy(src: Nfa, g: Nfa, phi: seq<Option<nat>>, back: map<nat, seq<nat>>, h: nat, n: nat)
    requires h < |phi| && phi[h].Some? && phi[h].value < |g.out| && h < |src.out| && n <= |src.out[h]|
    requires var cs := ClassOf(back, phi[h].value); cs != [] && cs[|cs| - 1] == h
    requires Dedup(Tried(src, back, phi[h].value, h, n)) == FlatMap(Classes(back), Only(g.out[phi[h].value], ImageSet(phi)))
    ensures Lined(src, g, phi, back, h, n)
  {
    hide FlatMap, Only, ImageSet, Classes, ClassOf, Tried;
  }

  lemma TriedNext(src: Nfa, back: map<nat, seq<nat>>, back': map<nat, seq<nat>>, p: nat, h: nat, n: nat)
    requires h < |src.out| && n < |src.out[h]| && ClassOf(back, p) != [] && ClassOf(back', p) == ClassOf(back, p)
    ensures Tried(src, back', p, h, n + 1) == Tried(src, back, p, h, n) + [src.out[h][n]]
  {
    hide FlatMap, ClassOf;
    assert src.out[h][..n + 1] == src.out[h][..n] + [src.out[h][n]];
  }

  lemma ClassesLike(back: map<nat, seq<nat>>, back': map<nat, seq<nat>>, ds: seq<nat>)
    requires forall x :: x in ds ==> ClassOf(back', x) == ClassOf(back, x)
    ensures FlatMap(Classes(back'), ds) == FlatMap(Classes(back), ds)
  {
    hide ClassOf, FlatMap;
    FlatMapLike(Classes(back'), Classes(back), ds);
  }

  // ----- the list of the head -----

  /** A child that has been tried already. */
  lemma LinedSame(src: Nfa, g: Nfa, phi: seq<Option<nat>>, back: map<nat, seq<nat>>, back': map<nat, seq<nat>>, h: nat, i: nat)
    requires Lined(src, g, phi, back, h, i) && i < |src.out[h]| && src.out[h][i] in Tried(src, back, phi[h].value, h, i)
    requires forall x: nat :: ClassOf(back', x) == ClassOf(back, x)
    ensures Lined(src, g, phi, back', h, i + 1)
  {
    hide *;
    LinedUse(src, g, phi, back, h, i);
    var p := phi[h].value;
    TriedNext(src, back, back', p, h, i);
    DedupSnoc(Tried(src, back, p, h, i), src.out[h][i]);
    ClassesLike(back, back', Only(g.out[p], ImageSet(phi)));
    LinedBy(src, g, phi, back', h, i + 1);
  }

  /** One more, with an image of its own, behind all others. */
  lemma LinedMore(src: Nfa, g: Nfa, g': Nfa, phi: seq<Option<nat>>, phi': seq<Option<nat>>, back: map<nat, seq<nat>>,
                  back': map<nat, seq<nat>>, h: nat, i: nat, d: nat)
    requires Lined(src, g, phi, back, h, i) && i < |src.out[h]| && src.out[h][i] !in Tried(src, back, phi[h].value, h, i)
    requires h < |phi'| && phi'[h] == phi[h] && phi[h].value < |g'.out| && ClassOf(back', phi[h].value) == ClassOf(back, phi[h].value)
    requires var ds := Only(g.out[phi[h].value], ImageSet(phi));
             && Only(g'.out[phi[h].value], ImageSet(phi')) == ds + [d]
             && forall x :: x in ds ==> ClassOf(back', x) == ClassOf(back, x)
    requires ClassOf(back', d) == [src.out[h][i]]
    ensures Lined(src, g', phi', back', h, i + 1)
  {
    hide *;
    LinedUse(src, g, phi, back, h, i);
    var p, t := phi[h].value, src.out[h][i];
    var ds := Only(g.out[p], ImageSet(phi));
    TriedNext(src, back, back', p, h, i);
    DedupSnoc(Tried(src, back, p, h, i), t);
    ClassesLike(back, back', ds);
    FlatMapSnoc(Classes(back'), ds, d);
    ClassesIs(back', d);
    LinedBy(src, g', phi', back', h, i + 1);
  }

  /** One more, which joins those of the last image. */
  lemma LinedGrown(src: Nfa, g: Nfa, phi: seq<Option<nat>>, phi': seq<Option<nat>>, back: map<nat, seq<nat>>, back': map<nat, seq<nat>>,
                   h: nat, i: nat, ds: seq<nat>, d: nat)
    requires Lined(src, g, phi, back, h, i) && i < |src.out[h]| && src.out[h][i] !in Tried(src, back, phi[h].value, h, i)
    requires h < |phi'| && phi'[h] == phi[h] && ClassOf(back', phi[h].value) == ClassOf(back, phi[h].value)
    requires Only(g.out[phi[h].value], ImageSet(phi)) == ds + [d] == Only(g.out[phi[h].value], ImageSet(phi'))
    requires forall x :: x in ds ==> ClassOf(back', x) == ClassOf(back, x)
    requires ClassOf(back', d) == ClassOf(back, d) + [src.out[h][i]]
    ensures Lined(src, g, phi', back', h, i + 1)
  {
    hide *;
    LinedUse(src, g, phi, back, h, i);
    var p, t := phi[h].value, src.out[h][i];
    TriedNext(src, back, back', p, h, i);
    DedupSnoc(Tried(src, back, p, h, i), t);
    ClassesLike(back, back', ds);
    FlatMapSnoc(Classes(back'), ds, d);
    FlatMapSnoc(Classes(back), ds, d);
    ClassesIs(back', d);
    ClassesIs(back, d);
    assert FlatMap(Classes(back), ds) + (ClassOf(back, d) + [t]) == (FlatMap(Classes(back), ds) + ClassOf(back, d)) + [t];
    LinedBy(src, g, phi', back', h, i + 1);
  }

  /** The list of another vertex. */
  lemma LinedOther(src: Nfa, g: Nfa, g': Nfa, phi: seq<Option<nat>>, back: map<nat, seq<nat>>, back': map<nat, seq<nat>>, h: nat, n: nat,
                   t: nat, d: nat)
    requires Lined(src, g, phi, back, h, n) && t < |phi| && (phi[t].None? || phi[t] == Some(d))
    requires phi[h].value < |g'.out| && g'.out[phi[h].value] == g.out[phi[h].value]
    requires ClassOf(back', phi[h].value) == ClassOf(back, phi[h].value) && forall x: nat :: x != d ==> ClassOf(back', x) == ClassOf(back, x)
    requires d in g.out[phi[h].value] ==> d in ImageSet(phi) && ClassOf(back', d) == ClassOf(back, d)
    ensures Lined(src, g', phi[t := Some(d)], back', h, n)
  {
    hide *;
    LinedUse(src, g, phi, back, h, n);
    var p := phi[h].value;
    ImageSetMore(phi, t, d);
    OnlyLike(g.out[p], ImageSet(phi), ImageSet(phi) + {d});
    var ds := Only(g.out[p], ImageSet(phi));
    forall x | x in ds ensures ClassOf(back', x) == ClassOf(back, x) {
      OnlyIn(g.out[p], ImageSet(phi), x);
    }
    ClassesLike(back, back', ds);
    TriedLike(src, back, back', p, h, n);
    LinedBy(src, g', phi[t := Some(d)], back', h, n);
  }

  lemma TriedLike(src: Nfa, back: map<nat, seq<nat>>, back': map<nat, seq<nat>>, p: nat, h: nat, n: nat)
    requires h < |src.out| && n <= |src.out[h]| && ClassOf(back, p) != [] && ClassOf(back', p) == ClassOf(back, p)
    ensures Tried(src, back', p, h, n) == Tried(src, back, p, h, n)
  {
    hide FlatMap, ClassOf;
  }

  /** A vertex that is the only one with its image, and none of whose children have been tried. */
  lemma LinedAlone(src: Nfa, g: Nfa, phi: seq<Option<nat>>, back: map<nat, seq<nat>>, h: nat)
    requires h < |phi| && phi[h].Some? && phi[h].value < |g.out| && h < |src.out| && ClassOf(back, phi[h].value) == [h]
    requires forall x :: x in g.out[phi[h].value] ==> x !in ImageSet(phi)
    ensures Lined(src, g, phi, back, h, 0)
  {
    OnlyNone(g.out[phi[h].value], ImageSet(phi));
    assert [h][..0] == [];
    assert src.out[h][..0] == [];
    hide ClassOf, ImageSet, Classes;
  }

  /** A vertex that joins others: theirs are the children tried so far. */
  lemma LinedNext(src: Nfa, g: Nfa, phi: seq<Option<nat>>, phi': seq<Option<nat>>, back: map<nat, seq<nat>>, back': map<nat, seq<nat>>,
                  s: nat, t: nat, d: nat)
    requires Wired(src) && s < |src.out| && Lined(src, g, phi, back, s, |src.out[s]|) && phi[s] == Some(d)
    requires t < |phi'| && phi'[t] == Some(d) && t < |src.out| && ClassOf(back', d) == ClassOf(back, d) + [t]
    requires ImageSet(phi') == ImageSet(phi) && d !in g.out[d] && forall x: nat :: x != d ==> ClassOf(back', x) == ClassOf(back, x)
    ensures Lined(src, g, phi', back', t, 0)
  {
    hide *;
    LinedUse(src, g, phi, back, s, |src.out[s]|);
    TriedAll(src, back, back', d, s, t);
    var ds := Only(g.out[d], ImageSet(phi));
    forall x | x in ds ensures ClassOf(back', x) == ClassOf(back, x) {
      OnlyIn(g.out[d], ImageSet(phi), x);
    }
    ClassesLike(back, back', ds);
    LinedBy(src, g, phi', back', t, 0);
  }

  lemma TriedAll(src: Nfa, back: map<nat, seq<nat>>, back': map<nat, seq<nat>>, d: nat, s: nat, t: nat)
    requires s < |src.out| && t < |src.out| && ClassOf(back', d) == ClassOf(back, d) + [t]
    requires ClassOf(back, d) != [] && ClassOf(back, d)[|ClassOf(back, d)| - 1] == s
    ensures Tried(src, back', d, t, 0) == Tried(src, back, d, s, |src.out[s]|) == FlatMap(Outs(src), ClassOf(back, d))
  {
    var cs := ClassOf(back, d);
    var front := cs[..|cs| - 1];
    assert cs == front + [s];
    FlatMapSnoc(Outs(src), front, s);
    assert src.out[s][..|src.out[s]|] == src.out[s];
    assert src.out[t][..0] == [];
    assert (cs + [t])[..|cs|] == cs;
    hide ClassOf, FlatMap;
  }

  // ----- one child -----

  ghost predicate PosInRange(m: Walk) {
    forall s: nat :: s < |m.phi| && m.phi[s].Some? ==> m.phi[s].value < |m.g.out|
  }

  /** A vertex that gets an image. */
  ghost predicate Settled(src: Nfa, n0: nat, m: Walk, m': Walk, t: nat, d: nat) {
    && Lined(src, m'.g, m'.phi, m'.back, t, 0)
    && (d < n0 ==> OnTrunk(src, t))
    && (forall s: nat :: s < |m.phi| && m.phi[s] == Some(d) ==> Joins(src, m, s, t))
  }

  /** Another vertex with the same image: it is kin, all its edges have been visited, and neither is a match with successors. */
  ghost predicate Joins(src: Nfa, m: Walk, s: nat, t: nat) {
    && Kin(src, s, t) && AllVisited(src, m, s)
    && s < |src.vertices| && t < |src.vertices| && s < |src.out| && t < |src.out|
    && (src.vertices[s].isMatch ==> src.out[s] == []) && (src.vertices[t].isMatch ==> src.out[t] == [])
  }

  /** Where a child is put, and what becomes of the lists. */
  ghost predicate Seated(src: Nfa, n0: nat, m: Walk, m': Walk, h: nat, i: nat, d: nat, di: nat) {
    && h < |m.phi| && m.phi[h].Some? && h < |src.out| && i < |src.out[h]| && src.out[h][i] < |m.phi| && m.phi[h].value < |m.g.out|
    && 0 < src.out[h][i] && d != 0
    && m'.phi == m.phi[src.out[h][i] := Some(d)] && m'.back == m.back[d := Sources(m.back, d) + [src.out[h][i]]]
    && m'.pos == m.pos[m.phi[h].value := di] && m'.visited == m.visited + {(h, i)}
    && |m.g.out| <= |m'.g.out|
    && (forall q: nat :: q < |m.g.out| && q != m.phi[h].value ==> m'.g.out[q] == m.g.out[q])
    && (forall q: nat :: q < |m.g.out| && q != m.phi[h].value && d in m.g.out[q] ==>
          d in ImageSet(m.phi) && ClassOf(m'.back, d) == ClassOf(m.back, d))
    && (m.phi[src.out[h][i]].None? ==> d != m.phi[h].value)
    && Lined(src, m'.g, m'.phi, m'.back, h, i + 1)
    && (Steady(src, m'.phi, m.phi[h].value) ==> NoneBehind(m'.g, m'.phi, m.phi[h].value, di))
    && (m.phi[src.out[h][i]].Some? ==> m.phi[src.out[h][i]] == Some(d))
    && (m.phi[src.out[h][i]].None? ==> Settled(src, n0, m, m', src.out[h][i], d))
  }

  lemma SeatedUse(src: Nfa, n0: nat, m: Walk, m': Walk, h: nat, i: nat, d: nat, di: nat)
    requires Seated(src, n0, m, m', h, i, d, di) && InLine(src, n0, m)
    ensures h < |m.phi| && m.phi[h].Some? && h < |src.out| && i < |src.out[h]| && 0 < src.out[h][i] < |m.phi| && d != 0
    ensures m'.phi == m.phi[src.out[h][i] := Some(d)] && m'.back == m.back[d := Sources(m.back, d) + [src.out[h][i]]]
    ensures m'.pos == m.pos[m.phi[h].value := di] && m'.visited == m.visited + {(h, i)}
    ensures m.phi[src.out[h][i]].None? || m.phi[src.out[h][i]] == Some(d)
    ensures m.phi[src.out[h][i]].None? ==> d != m.phi[h].value && Settled(src, n0, m, m', src.out[h][i], d)
    ensures BackOk(m.phi, m.back) && BackOk(m'.phi, m'.back)
    ensures var t := src.out[h][i];
            && ClassOf(m'.back, d) == (if m.phi[t].None? then ClassOf(m.back, d) + [t] else ClassOf(m.back, d))
            && forall x: nat :: x != d ==> ClassOf(m'.back, x) == ClassOf(m.back, x)
  {
    hide Lined, Settled, Kindred, Finished, Lines, Placed, Trunked, Endings, Steady, NoneBehind, ClassOf, Sources, BackOk, ImageSet;
    var t := src.out[h][i];
    BackStep(m.phi, m.back, t, d);
    ClassStep(m.back, d, t);
    ClassIn(m.phi, m.back, d, t);
  }

  lemma SeatedKindred(src: Nfa, n0: nat, m: Walk, m': Walk, h: nat, i: nat, d: nat, di: nat)
    requires Seated(src, n0, m, m', h, i, d, di) && InLine(src, n0, m) && |m.phi| == |src.out|
    ensures Kindred(src, m'.phi)
  {
    hide *;
    SeatedUse(src, n0, m, m', h, i, d, di);
    InLineUse(src, n0, m);
    var t := src.out[h][i];
    KinSelf(src, t);
    if m.phi[t].None? {
      SettledUse(src, n0, m, m', t, d);
      forall s: nat | s < |m.phi| && m.phi[s] == Some(d) ensures Kin(src, s, t) && Kin(src, t, s) {
        JoinsUse(src, m, s, t);
        KinSwaps(src, s, t);
      }
    }
    KindredStep(src, m.phi, t, d);
  }

  lemma KindredStep(src: Nfa, phi: seq<Option<nat>>, t: nat, d: nat)
    requires Kindred(src, phi) && t < |phi| && (phi[t].None? || phi[t] == Some(d)) && Kin(src, t, t)
    requires phi[t].None? ==> forall s: nat :: s < |phi| && phi[s] == Some(d) ==> Kin(src, s, t) && Kin(src, t, s)
    ensures Kindred(src, phi[t := Some(d)])
  {
    hide Kin;
    var phi' := phi[t := Some(d)];
    forall x: nat, y: nat | x < |phi'| && y < |phi'| && phi'[x].Some? && phi'[x] == phi'[y] ensures Kin(src, x, y) {
      if x != t && y != t {
        assert phi[x] == phi[y];
      }
    }
  }

  lemma SettledUse(src: Nfa, n0: nat, m: Walk, m': Walk, t: nat, d: nat)
    requires Settled(src, n0, m, m', t, d)
    ensures Lined(src, m'.g, m'.phi, m'.back, t, 0) && (d < n0 ==> OnTrunk(src, t))
    ensures forall s: nat :: s < |m.phi| && m.phi[s] == Some(d) ==> Joins(src, m, s, t)
  {
    hide Lined, OnTrunk, Joins;
  }

  lemma JoinsUse(src: Nfa, m: Walk, s: nat, t: nat)
    requires Joins(src, m, s, t)
    ensures Kin(src, s, t) && AllVisited(src, m, s) && s < |src.out| && t < |src.out|
    ensures (MatchAt(src, s) ==> src.out[s] == []) && (MatchAt(src, t) ==> src.out[t] == [])
  {
    hide Kin, AllVisited;
  }

  lemma FinishedStep(src: Nfa, m: Walk, m': Walk, h: nat, i: nat, t: nat, d: nat)
    requires Finished(src, m) && t < |m.phi| && m'.phi == m.phi[t := Some(d)] && (m.phi[t].None? || m.phi[t] == Some(d))
    requires m'.visited == m.visited + {(h, i)}
    requires ClassOf(m'.back, d) == (if m.phi[t].None? then ClassOf(m.back, d) + [t] else ClassOf(m.back, d))
    requires forall x: nat :: x != d ==> ClassOf(m'.back, x) == ClassOf(m.back, x)
    requires m.phi[t].None? ==> forall s: nat :: s < |m.phi| && m.phi[s] == Some(d) ==> AllVisited(src, m, s)
    ensures Finished(src, m')
  {
    hide ClassOf;
    forall s: nat | s < |m'.phi| && m'.phi[s].Some? && s < |src.out| && !IsLast(m', s) ensures AllVisited(src, m', s) {
      if s != t || m.phi[t].Some? {
        assert m.phi[s] == m'.phi[s];
        assert AllVisited(src, m, s) || IsLast(m, s);
        assert AllVisited(src, m, s);
      }
    }
  }

  lemma SeatedFinished(src: Nfa, n0: nat, m: Walk, m': Walk, h: nat, i: nat, d: nat, di: nat)
    requires Seated(src, n0, m, m', h, i, d, di) && InLine(src, n0, m)
    ensures Finished(src, m')
  {
    hide *;
    SeatedUse(src, n0, m, m', h, i, d, di);
    InLineUse(src, n0, m);
    var t := src.out[h][i];
    if m.phi[t].None? {
      SettledUse(src, n0, m, m', t, d);
      forall s: nat | s < |m.phi| && m.phi[s] == Some(d) ensures AllVisited(src, m, s) {
        JoinsUse(src, m, s, t);
      }
    }
    FinishedStep(src, m, m', h, i, t, d);
  }

  lemma EndingsStep(src: Nfa, phi: seq<Option<nat>>, t: nat, d: nat)
    requires Endings(src, phi) && t < |phi| && (phi[t].None? || phi[t] == Some(d))
    requires phi[t].None? ==> forall s: nat :: s < |phi| && phi[s] == Some(d) ==>
               s < |src.out| && t < |src.out| && (MatchAt(src, s) ==> src.out[s] == []) && (MatchAt(src, t) ==> src.out[t] == [])
    ensures Endings(src, phi[t := Some(d)])
  {
    hide MatchAt;
  }

  lemma TrunkedStep(src: Nfa, n0: nat, phi: seq<Option<nat>>, t: nat, d: nat)
    requires Trunked(src, n0, phi) && t < |phi| && (phi[t].None? || phi[t] == Some(d)) && (phi[t].None? && d < n0 ==> OnTrunk(src, t))
    ensures Trunked(src, n0, phi[t := Some(d)])
  {
    hide OnTrunk;
  }

  lemma SeatedEndings(src: Nfa, n0: nat, m: Walk, m': Walk, h: nat, i: nat, d: nat, di: nat)
    requires Seated(src, n0, m, m', h, i, d, di) && InLine(src, n0, m)
    ensures Endings(src, m'.phi) && Trunked(src, n0, m'.phi)
  {
    hide *;
    SeatedUse(src, n0, m, m', h, i, d, di);
    InLineUse(src, n0, m);
    var t := src.out[h][i];
    if m.phi[t].None? {
      SettledUse(src, n0, m, m', t, d);
      forall s: nat | s < |m.phi| && m.phi[s] == Some(d)
        ensures s < |src.out| && t < |src.out| && (MatchAt(src, s) ==> src.out[s] == []) && (MatchAt(src, t) ==> src.out[t] == [])
      {
        JoinsUse(src, m, s, t);
      }
    }
    EndingsStep(src, m.phi, t, d);
    TrunkedStep(src, n0, m.phi, t, d);
  }

  lemma VisitedStep(m: Walk, m': Walk, h: nat, i: nat, t: nat, d: nat, di: nat)
    requires h < |m.phi| && m.phi[h].Some? && t < |m.phi| && (m.phi[t].None? || m.phi[t] == Some(d))
    requires m'.phi == m.phi[t := Some(d)] && m'.pos == m.pos[m.phi[h].value := di] && m'.visited == m.visited + {(h, i)}
    requires forall p: nat :: p in m.pos ==> exists h: nat, i: nat :: (h, i) in m.visited && h < |m.phi| && m.phi[h] == Some(p)
    requires forall h: nat, i: nat :: (h, i) in m.visited ==> h < |m.phi| && m.phi[h].Some? && m.phi[h].value in m.pos
    ensures forall p: nat :: p in m'.pos ==> exists h: nat, i: nat :: (h, i) in m'.visited && h < |m'.phi| && m'.phi[h] == Some(p)
    ensures forall h: nat, i: nat :: (h, i) in m'.visited ==> h < |m'.phi| && m'.phi[h].Some? && m'.phi[h].value in m'.pos
  {
    forall q: nat | q in m'.pos ensures exists x: nat, j: nat :: (x, j) in m'.visited && x < |m'.phi| && m'.phi[x] == Some(q) {
      if q == m.phi[h].value {
        assert (h, i) in m'.visited;
      } else {
        var x: nat, j: nat :| (x, j) in m.visited && x < |m.phi| && m.phi[x] == Some(q);
        assert (x, j) in m'.visited;
      }
    }
    forall x: nat, j: nat | (x, j) in m'.visited ensures x < |m'.phi| && m'.phi[x].Some? && m'.phi[x].value in m'.pos {
      if (x, j) != (h, i) {
        assert (x, j) in m.visited;
      }
    }
  }

  lemma PlacedBy(src: Nfa, m: Walk)
    requires forall p: nat :: p in m.pos ==> exists h: nat, i: nat :: (h, i) in m.visited && h < |m.phi| && m.phi[h] == Some(p)
    requires forall h: nat, i: nat :: (h, i) in m.visited ==> h < |m.phi| && m.phi[h].Some? && m.phi[h].value in m.pos
    requires forall p: nat :: p in m.pos && p < |m.g.out| && Steady(src, m.phi, p) ==> NoneBehind(m.g, m.phi, p, m.pos[p])
    ensures Placed(src, m)
  {
    hide Steady, NoneBehind;
  }

  lemma PlacedParts(src: Nfa, m: Walk)
    requires Placed(src, m)
    ensures forall p: nat :: p in m.pos ==> exists h: nat, i: nat :: (h, i) in m.visited && h < |m.phi| && m.phi[h] == Some(p)
    ensures forall h: nat, i: nat :: (h, i) in m.visited ==> h < |m.phi| && m.phi[h].Some? && m.phi[h].value in m.pos
    ensures forall p: nat :: p in m.pos && p < |m.g.out| && Steady(src, m.phi, p) ==> NoneBehind(m.g, m.phi, p, m.pos[p])
  {
    hide Steady, NoneBehind;
  }

  lemma SeatedPlaces(src: Nfa, n0: nat, m: Walk, m': Walk, h: nat, i: nat, d: nat, di: nat)
    requires Seated(src, n0, m, m', h, i, d, di) && InLine(src, n0, m) && PosInRange(m)
    ensures Placed(src, m')
  {
    hide *;
    SeatedUse(src, n0, m, m', h, i, d, di);
    InLineUse(src, n0, m);
    PlacedParts(src, m);
    SeatedLists(src, n0, m, m', h, i, d, di);
    var p, t := m.phi[h].value, src.out[h][i];
    VisitedStep(m, m', h, i, t, d, di);
    forall q: nat | q in m'.pos && q < |m'.g.out| && Steady(src, m'.phi, q) ensures NoneBehind(m'.g, m'.phi, q, m'.pos[q]) {
      if q != p {
        InRange(m, q);
        SteadyLess(src, m.phi, t, d, q);
        BehindOther(m.g, m'.g, m.phi, t, d, q, m.pos[q]);
      }
    }
    PlacedBy(src, m');
  }

  lemma SeatedLists(src: Nfa, n0: nat, m: Walk, m': Walk, h: nat, i: nat, d: nat, di: nat)
    requires Seated(src, n0, m, m', h, i, d, di)
    ensures h < |m.phi| && m.phi[h].Some? && m.phi[h].value < |m.g.out| <= |m'.g.out|
    ensures forall q: nat :: q < |m.g.out| && q != m.phi[h].value ==> m'.g.out[q] == m.g.out[q]
    ensures forall q: nat :: q < |m.g.out| && q != m.phi[h].value && d in m.g.out[q] ==>
              d in ImageSet(m.phi) && ClassOf(m'.back, d) == ClassOf(m.back, d)
    ensures Lined(src, m'.g, m'.phi, m'.back, h, i + 1)
    ensures m.phi[h].value < |m'.g.out| && (Steady(src, m'.phi, m.phi[h].value) ==> NoneBehind(m'.g, m'.phi, m.phi[h].value, di))
  {
    hide Lined, Settled, ImageSet, ClassOf, Sources, Steady, NoneBehind;
  }

  lemma InRange(m: Walk, q: nat)
    requires PosInRange(m) && exists h: nat, i: nat :: (h, i) in m.visited && h < |m.phi| && m.phi[h] == Some(q)
    ensures q < |m.g.out|
  {
  }

  lemma SteadyLess(src: Nfa, phi: seq<Option<nat>>, t: nat, d: nat, q: nat)
    requires t < |phi| && (phi[t].None? || phi[t] == Some(d)) && Steady(src, phi[t := Some(d)], q)
    ensures Steady(src, phi, q)
  {
    var phi' := phi[t := Some(d)];
    forall s: nat | s < |phi| && phi[s] == Some(q) && s < |src.out| ensures NoRepeats(src.out[s]) {
      assert phi'[s] == Some(q);
    }
  }

  lemma BehindOther(g: Nfa, g': Nfa, phi: seq<Option<nat>>, t: nat, d: nat, q: nat, i: nat)
    requires q < |g.out| && q < |g'.out| && g'.out[q] == g.out[q] && NoneBehind(g, phi, q, i) && (d in g.out[q] ==> d in ImageSet(phi))
    requires t < |phi| && (phi[t].None? || phi[t] == Some(d))
    ensures NoneBehind(g', phi[t := Some(d)], q, i)
  {
    ImageSetMore(phi, t, d);
    hide ImageSet;
    forall k | i < k < |g'.out[q]| ensures g'.out[q][k] !in ImageSet(phi) + {d} {
      assert g.out[q][k] in g.out[q];
    }
  }

  lemma SeatedLine(src: Nfa, n0: nat, m: Walk, m': Walk, h: nat, i: nat, d: nat, di: nat, h': nat, n: nat)
    requires Seated(src, n0, m, m', h, i, d, di) && InLine(src, n0, m) && SeenTo(m.visited, h, i) && IsLast(m, h) && PosInRange(m)
    requires IsLast(m', h') && h' < |src.out| && n <= |src.out[h']| && SeenTo(m'.visited, h', n)
    ensures Lined(src, m'.g, m'.phi, m'.back, h', n)
  {
    hide *;
    SeatedUse(src, n0, m, m', h, i, d, di);
    SeatedLists(src, n0, m, m', h, i, d, di);
    InLineUse(src, n0, m);
    var t := src.out[h][i];
    if h' == h {
      SeenMore(m.visited, h, i);
      SeenOnce(m'.visited, h, n, i + 1);
    } else if h' == t && m.phi[t].None? {
      NotVisited(src, m, t, h, i, n);
      SettledUse(src, n0, m, m', t, d);
    } else {
      SeenLess(m.visited, h, i, h', n);
      StillLast(m, m', h', t, d);
      OtherHead(m, h, h');
      MappedInRange(m, h');
      LinesAt(src, m, h', n);
      LinedOther(src, m.g, m'.g, m.phi, m.back, m'.back, h', n, t, d);
    }
  }

  lemma MappedInRange(m: Walk, s: nat)
    requires PosInRange(m) && IsLast(m, s)
    ensures s < |m.phi| && m.phi[s].Some? && m.phi[s].value < |m.g.out|
  {
    hide ClassOf;
  }

  lemma StillLast(m: Walk, m': Walk, s: nat, t: nat, d: nat)
    requires IsLast(m', s) && t < |m.phi| && m'.phi == m.phi[t := Some(d)] && (m.phi[t].None? || m.phi[t] == Some(d))
    requires s == t ==> m.phi[t].Some?
    requires ClassOf(m'.back, d) == (if m.phi[t].None? then ClassOf(m.back, d) + [t] else ClassOf(m.back, d))
    requires forall x: nat :: x != d ==> ClassOf(m'.back, x) == ClassOf(m.back, x)
    ensures IsLast(m, s) && m.phi[s] == m'.phi[s] && ClassOf(m'.back, m.phi[s].value) == ClassOf(m.back, m.phi[s].value)
  {
    hide ClassOf;
  }

  lemma OtherHead(m: Walk, h: nat, h': nat)
    requires IsLast(m, h) && IsLast(m, h') && h != h'
    ensures m.phi[h] != m.phi[h']
  {
    hide ClassOf;
  }

  lemma SeenOnce(visited: set<(nat, nat)>, h: nat, m: nat, n: nat)
    requires SeenTo(visited, h, m) && SeenTo(visited, h, n)
    ensures m == n
  {
    assert (h, m) !in visited && (h, n) !in visited;
  }

  lemma SeenLess(visited: set<(nat, nat)>, h: nat, i: nat, h': nat, n: nat)
    requires SeenTo(visited + {(h, i)}, h', n) && h' != h
    ensures SeenTo(visited, h', n)
  {
    forall j: nat ensures (h', j) in visited <==> j < n {
      assert (h', j) in visited <==> (h', j) in visited + {(h, i)};
    }
  }

  lemma NotVisited(src: Nfa, m: Walk, t: nat, h: nat, i: nat, n: nat)
    requires Placed(src, m) && t < |m.phi| && m.phi[t].None? && t != h && SeenTo(m.visited + {(h, i)}, t, n)
    ensures n == 0
  {
    hide Steady, NoneBehind;
    assert (t, 0) !in m.visited;
    assert (t, 0) !in m.visited + {(h, i)};
  }

  /** A child is in line when the lists are as they should be. */
  lemma SeatedStep(src: Nfa, n0: nat, m: Walk, m': Walk, h: nat, i: nat, d: nat, di: nat)
    requires Seated(src, n0, m, m', h, i, d, di) && InLine(src, n0, m) && SeenTo(m.visited, h, i) && IsLast(m, h) && PosInRange(m)
    requires |m.phi| == |src.out|
    ensures InLine(src, n0, m')
  {
    hide *;
    SeatedUse(src, n0, m, m', h, i, d, di);
    SeatedKindred(src, n0, m, m', h, i, d, di);
    SeatedFinished(src, n0, m, m', h, i, d, di);
    SeatedEndings(src, n0, m, m', h, i, d, di);
    SeatedPlaces(src, n0, m, m', h, i, d, di);
    forall h': nat, n: nat | IsLast(m', h') && h' < |src.out| && n <= |src.out[h']| && SeenTo(m'.visited, h', n)
      ensures Lined(src, m'.g, m'.phi, m'.back, h', n)
    {
      SeatedLine(src, n0, m, m', h, i, d, di, h', n);
    }
    InLineBy(src, n0, m');
  }

  lemma InLineBy(src: Nfa, n0: nat, m: Walk)
    requires BackOk(m.phi, m.back) && Kindred(src, m.phi) && Finished(src, m)
    requires forall h: nat, n: nat :: IsLast(m, h) && h < |src.out| && n <= |src.out[h]| && SeenTo(m.visited, h, n) ==>
               Lined(src, m.g, m.phi, m.back, h, n)
    requires Placed(src, m) && Trunked(src, n0, m.phi) && Endings(src, m.phi)
    ensures InLine(src, n0, m)
  {
    hide BackOk, Kindred, Finished, Placed, Trunked, Endings, IsLast, SeenTo, Lined;
  }

  // ----- the cases of processChild -----

  /** Before a child is put in its place. */
  ghost predicate Waits(src: Nfa, g0: Nfa, m: Walk, h: nat, i: nat) {
    && Plain(src) && Plain(g0) && Plain(m.g) && Image(src, g0, m.g, m.phi) && Kept(g0, m.g)
    && Tracked(src, m.g, m.phi, m.visited) && Queued(src, m.phi, m.visited, m.edges)
    && InLine(src, |g0.vertices|, m) && Untangled(src) && Single(m.g) && Nested(src, m.edges) && SeenTo(m.visited, h, i)
    && m.edges != [] && m.edges[|m.edges| - 1] == (h, i) && (h, i) !in m.visited
    && h < |m.phi| && h < |src.out| && i < |src.out[h]| && m.phi[h].Some?
  }

  lemma WaitsUse(src: Nfa, g0: Nfa, m: Walk, h: nat, i: nat)
    requires Waits(src, g0, m, h, i)
    ensures Plain(src) && Plain(g0) && Plain(m.g) && Image(src, g0, m.g, m.phi) && Kept(g0, m.g) && Wired(src) && Wired(m.g)
    ensures |m.phi| == |src.out| && h < |m.phi| && i < |src.out[h]| && m.phi[h].Some? && 0 < src.out[h][i] < |m.phi|
    ensures m.phi[h].value < |m.g.out| && PosInRange(m) && src.out[h][i] in src.out[h]
    ensures |g0.vertices| <= |m.g.vertices| && |g0.vertices| == |g0.out| && |m.g.vertices| == |m.g.out| && |src.vertices| == |src.out|
    ensures InLine(src, |g0.vertices|, m) && Untangled(src) && Single(m.g) && SeenTo(m.visited, h, i)
  {
    ParentIn(src, h, i);
    hide InLine, Untangled, Single, Nested, SeenTo, Kept, Tracked, Queued, BackAt, Shared, SameVertex, Matched;
  }

  lemma InLineUse(src: Nfa, n0: nat, m: Walk)
    requires InLine(src, n0, m)
    ensures BackOk(m.phi, m.back) && Kindred(src, m.phi) && Finished(src, m) && Lines(src, m)
    ensures Placed(src, m) && Trunked(src, n0, m.phi) && Endings(src, m.phi)
  {
    hide BackOk, Kindred, Finished, Lines, Placed, Trunked, Endings;
  }

  /** Whose turn it is is the last with its image, and its list is in line. */
  lemma WaitsLast(src: Nfa, g0: Nfa, m: Walk, h: nat, i: nat)
    requires Waits(src, g0, m, h, i)
    ensures IsLast(m, h) && Lined(src, m.g, m.phi, m.back, h, i)
  {
    WaitsOpen(src, g0, m, h, i);
    InLineUse(src, |g0.vertices|, m);
    hide Waits, InLine, BackOk, Kindred, Placed, Trunked, Endings, IsLast, Lined, SeenTo;
    assert !AllVisited(src, m, h);
    assert IsLast(m, h);
  }

  lemma WaitsOpen(src: Nfa, g0: Nfa, m: Walk, h: nat, i: nat)
    requires Waits(src, g0, m, h, i)
    ensures h < |m.phi| && m.phi[h].Some? && h < |src.out| && i < |src.out[h]| && (h, i) !in m.visited
    ensures InLine(src, |g0.vertices|, m) && SeenTo(m.visited, h, i)
  {
    hide Plain, Image, Kept, Tracked, Queued, InLine, Untangled, Single, Nested, SeenTo;
  }

  lemma NotInitial(g: Nfa, p: nat, d: nat)
    requires Plain(g) && p < |g.out| && d in g.out[p]
    ensures d != 0 && d < |g.vertices| && d < |g.ins| && p in g.ins[d]
  {
  }

  lemma EdgeToIs(g: Nfa, p: nat, d: nat, di: nat)
    requires Even(g) && p < |g.out| && d < |g.ins| && d !in g.out[p]
    ensures var g' := EdgeTo(g, p, d, di);
            && |g'.out| == |g.out| && g'.out[p] == Inserted(g.out[p], di, d)
            && forall q: nat :: q < |g.out| && q != p ==> g'.out[q] == g.out[q]
  {
    hide Inserted;
  }

  /** Behind the new successor is what was behind its place. */
  lemma BehindNew(ds: seq<nat>, di: nat, d: nat, s: set<nat>)
    requires forall k :: di <= k < |ds| ==> ds[k] !in s
    ensures forall k :: di < k < |Inserted(ds, di, d)| ==> Inserted(ds, di, d)[k] !in s
  {
  }

  // a child that has an image

  /** A child tried already by kin is tried by itself twice. */
  lemma TriedTwice(src: Nfa, g0: Nfa, m: Walk, h: nat, i: nat)
    requires Waits(src, g0, m, h, i) && Lined(src, m.g, m.phi, m.back, h, i)
    requires src.out[h][i] in Tried(src, m.back, m.phi[h].value, h, i)
    ensures !Steady(src, m.phi, m.phi[h].value)
  {
    WaitsUse(src, g0, m, h, i);
    InLineUse(src, |g0.vertices|, m);
    hide Waits, InLine, Lined, Finished, Lines, Placed, Trunked, Endings, Plain, Image, Kept, Single;
    var p, t := m.phi[h].value, src.out[h][i];
    var cs := ClassOf(m.back, p);
    var front := cs[..|cs| - 1];
    LinedUse(src, m.g, m.phi, m.back, h, i);
    if t in FlatMap(Outs(src), front) {
      FlatMapHas(Outs(src), front, t);
      var s :| s in front && t in Outs(src)(s);
      FrontOther(cs, s);
      ClassIn(m.phi, m.back, p, s);
      ClassIn(m.phi, m.back, p, h);
      assert Kin(src, s, h);
      hide Kin, ClassOf, FlatMap, BackOk, Kindred, SeenTo, Untangled;
      KinApart(src, s, h, t);
    } else {
      assert t in src.out[h][..i];
      hide Kin, ClassOf, FlatMap, BackOk, Kindred, SeenTo, Untangled;
      assert !NoRepeats(src.out[h]);
    }
  }

  lemma FrontOther(cs: seq<nat>, s: nat)
    requires cs != [] && s in cs[..|cs| - 1]
    ensures s in cs && (NoRepeats(cs) ==> s != cs[|cs| - 1])
  {
  }

  lemma KinApart(src: Nfa, s: nat, h: nat, t: nat)
    requires Untangled(src) && s != h && Kin(src, s, h) && s < |src.out| && h < |src.out|
    ensures t in src.out[s] ==> t !in src.out[h]
  {
    hide Kin, OnTrunk, NoneAlike;
    assert Separate(src, s, h);
    hide Reaching;
  }

  /** The child has an image, which is a successor of the head already. */
  lemma ChildKnown(src: Nfa, g0: Nfa, m: Walk, m': Walk, h: nat, i: nat, d: nat, di: nat)
    requires Waits(src, g0, m, h, i) && src.out[h][i] < |m.phi| && m.phi[src.out[h][i]] == Some(d)
    requires m.phi[h].value < |m.g.out| && d in m.g.out[m.phi[h].value] && m'.g == m.g && After(src, m, m', h, i, d, di)
    ensures Seated(src, |g0.vertices|, m, m', h, i, d, di)
  {
    hide *;
    WaitsUse(src, g0, m, h, i);
    var p, t := m.phi[h].value, src.out[h][i];
    WaitsLast(src, g0, m, h, i);
    InLineUse(src, |g0.vertices|, m);
    AfterUse(src, m, m', h, i, d, di);
    NotInitial(m.g, p, d);
    TriedHas(src, m.g, m.phi, m.back, h, i, t);
    TriedTwice(src, g0, m, h, i);
    ClassStep(m.back, d, t);
    ClassIn(m.phi, m.back, d, t);
    assert m'.phi == m.phi;
    LinedSame(src, m.g, m.phi, m.back, m'.back, h, i);
    ImageSetIs(m.phi, d);
    assert m.phi[t] == Some(d);
    SeatedBy(src, |g0.vertices|, m, m', h, i, d, di);
  }

  /** The parts of the walk that do not depend on the place. */
  ghost predicate After(src: Nfa, m: Walk, m': Walk, h: nat, i: nat, d: nat, di: nat)
    requires h < |m.phi| && m.phi[h].Some? && h < |src.out| && i < |src.out[h]| && src.out[h][i] < |m.phi|
  {
    && m'.phi == m.phi[src.out[h][i] := Some(d)] && m'.back == m.back[d := Sources(m.back, d) + [src.out[h][i]]]
    && m'.pos == m.pos[m.phi[h].value := di] && m'.visited == m.visited + {(h, i)}
  }

  lemma AfterUse(src: Nfa, m: Walk, m': Walk, h: nat, i: nat, d: nat, di: nat)
    requires h < |m.phi| && m.phi[h].Some? && h < |src.out| && i < |src.out[h]| && src.out[h][i] < |m.phi| && After(src, m, m', h, i, d, di)
    ensures m'.phi == m.phi[src.out[h][i] := Some(d)] && m'.back == m.back[d := Sources(m.back, d) + [src.out[h][i]]]
    ensures m'.pos == m.pos[m.phi[h].value := di] && m'.visited == m.visited + {(h, i)}
  {
  }

  lemma SeatedBy(src: Nfa, n0: nat, m: Walk, m': Walk, h: nat, i: nat, d: nat, di: nat)
    requires h < |m.phi| && m.phi[h].Some? && h < |src.out| && i < |src.out[h]| && 0 < src.out[h][i] < |m.phi| && m.phi[h].value < |m.g.out|
    requires d != 0 && After(src, m, m', h, i, d, di) && |m.g.out| <= |m'.g.out|
    requires forall q: nat :: q < |m.g.out| && q != m.phi[h].value ==> m'.g.out[q] == m.g.out[q]
    requires forall q: nat :: q < |m.g.out| && q != m.phi[h].value && d in m.g.out[q] ==>
               d in ImageSet(m.phi) && ClassOf(m'.back, d) == ClassOf(m.back, d)
    requires m.phi[src.out[h][i]].None? ==> d != m.phi[h].value
    requires Lined(src, m'.g, m'.phi, m'.back, h, i + 1)
    requires Steady(src, m'.phi, m.phi[h].value) ==> NoneBehind(m'.g, m'.phi, m.phi[h].value, di)
    requires m.phi[src.out[h][i]].Some? ==> m.phi[src.out[h][i]] == Some(d)
    requires m.phi[src.out[h][i]].None? ==> Settled(src, n0, m, m', src.out[h][i], d)
    ensures Seated(src, n0, m, m', h, i, d, di)
  {
    hide Lined, Settled, ImageSet, ClassOf, Sources, Steady, NoneBehind;
  }

  lemma OnlyMember(cs: seq<nat>, t: nat)
    requires NoRepeats(cs) && t in cs && forall s :: s in cs ==> s == t
    ensures cs == [t]
  {
    var k := |cs| - 1;
    assert cs[k] in cs && cs[0] in cs;
    assert k == 0;
  }

  /** A vertex with several in edges is alone in its image. */
  lemma AloneIn(src: Nfa, g0: Nfa, m: Walk, h: nat, i: nat, d: nat)
    requires Waits(src, g0, m, h, i) && src.out[h][i] < |m.phi| && m.phi[src.out[h][i]] == Some(d)
    requires m.phi[h].value < |m.g.out| && d !in m.g.out[m.phi[h].value]
    ensures ClassOf(m.back, d) == [src.out[h][i]]
  {
    var t := src.out[h][i];
    MappedAgain(src, g0, m.g, m.phi, m.visited, h, i);
    WaitsUse(src, g0, m, h, i);
    InLineUse(src, |g0.vertices|, m);
    hide Waits, InLine, Lined, Finished, Lines, Placed, Trunked, Endings, Plain, Image, Kept, Single, Kindred, ClassOf, Untangled, BackOk;
    ClassIn(m.phi, m.back, d, t);
    forall s | s in ClassOf(m.back, d) ensures s == t {
      ClassIn(m.phi, m.back, d, s);
    }
    OnlyMember(ClassOf(m.back, d), t);
  }

  /** The child has an image, which becomes a successor, the last one. */
  lemma ChildLinked(src: Nfa, g0: Nfa, m: Walk, m': Walk, h: nat, i: nat, d: nat, di: nat)
    requires Waits(src, g0, m, h, i) && src.out[h][i] < |m.phi| && m.phi[src.out[h][i]] == Some(d) && Even(m.g)
    requires m.phi[h].value < |m.g.out| && d < |m.g.ins| && d !in m.g.out[m.phi[h].value] && di >= |m.g.out[m.phi[h].value]|
    requires After(src, m, m', h, i, d, di) && m'.g == EdgeTo(m.g, m.phi[h].value, d, di)
    ensures Seated(src, |g0.vertices|, m, m', h, i, d, di)
  {
    hide *;
    WaitsUse(src, g0, m, h, i);
    var p, t := m.phi[h].value, src.out[h][i];
    var ds := m.g.out[p];
    WaitsLast(src, g0, m, h, i);
    InLineUse(src, |g0.vertices|, m);
    AfterUse(src, m, m', h, i, d, di);
    AloneIn(src, g0, m, h, i, d);
    NonZero(m.phi, m.back, t, d);
    TriedHas(src, m.g, m.phi, m.back, h, i, t);
    ClassStep(m.back, d, t);
    assert m'.phi == m.phi;
    EdgeToIs(m.g, p, d, di);
    ImageSetIs(m.phi, d);
    assert m.phi[t] == Some(d);
    OnlyLast(ds, ImageSet(m.phi), di, d);
    forall x | x in Only(ds, ImageSet(m.phi)) ensures ClassOf(m'.back, x) == ClassOf(m.back, x) {
      OnlyIn(ds, ImageSet(m.phi), x);
    }
    LinedMore(src, m.g, m'.g, m.phi, m'.phi, m.back, m'.back, h, i, d);
    BehindNew(ds, di, d, ImageSet(m.phi));
    NoneBehindBy(m'.g, m'.phi, p, di);
    SeatedBy(src, |g0.vertices|, m, m', h, i, d, di);
  }

  lemma NonZero(phi: seq<Option<nat>>, back: map<nat, seq<nat>>, t: nat, d: nat)
    requires BackOk(phi, back) && 0 < t < |phi| && phi[t] == Some(d)
    ensures d != 0
  {
  }

  lemma NoneBehindBy(g: Nfa, phi: seq<Option<nat>>, p: nat, i: nat)
    requires p < |g.out| && forall k :: i < k < |g.out[p]| ==> g.out[p][k] !in ImageSet(phi)
    ensures NoneBehind(g, phi, p, i)
  {
    hide ImageSet;
  }

  // a child without an image

  /** No image is a successor of a vertex none of whose children have been tried. */
  lemma NoneYet(src: Nfa, g0: Nfa, m: Walk, h: nat, i: nat)
    requires Waits(src, g0, m, h, i) && m.phi[h].value !in m.pos && m.phi[h].value < |m.g.out|
    ensures forall x :: x in m.g.out[m.phi[h].value] ==> x !in ImageSet(m.phi)
  {
    hide *;
    WaitsUse(src, g0, m, h, i);
    var p := m.phi[h].value;
    WaitsLast(src, g0, m, h, i);
    InLineUse(src, |g0.vertices|, m);
    forall x | x in m.g.out[p] ensures x !in ImageSet(m.phi) {
      ImageSetIs(m.phi, x);
      if x in ImageSet(m.phi) {
        var s := SourceOf(m.phi, x);
        TriedHas(src, m.g, m.phi, m.back, h, i, s);
        NoneTried(src, m, h, i, s);
      }
    }
  }

  lemma SourceOf(phi: seq<Option<nat>>, d: nat) returns (s: nat)
    requires d in ImageSet(phi)
    ensures s < |phi| && phi[s] == Some(d)
  {
    s :| s < |phi| && phi[s].Some? && phi[s].value == d;
  }

  lemma NoneTried(src: Nfa, m: Walk, h: nat, i: nat, t: nat)
    requires BackOk(m.phi, m.back) && Finished(src, m) && Placed(src, m) && SeenTo(m.visited, h, i) && |m.phi| == |src.out|
    requires h < |m.phi| && m.phi[h].Some? && m.phi[h].value !in m.pos && Lined(src, m.g, m.phi, m.back, h, i)
    ensures t !in Tried(src, m.back, m.phi[h].value, h, i)
  {
    hide *;
    var p := m.phi[h].value;
    LinedUse(src, m.g, m.phi, m.back, h, i);
    var cs := ClassOf(m.back, p);
    var front := cs[..|cs| - 1];
    NoneSeen(src, m, h, i, p);
    TriedIs(src, m.back, p, h, i);
    if t in FlatMap(Outs(src), front) {
      FlatMapHas(Outs(src), front, t);
      var s :| s in front && t in Outs(src)(s);
      FrontOther(cs, s);
      ClassIn(m.phi, m.back, p, s);
      ClassIn(m.phi, m.back, p, h);
      NotLast(m, cs, s, h);
      FinishedAt(src, m, s);
      NoChildSeen(src, m, s, t, p);
    }
  }

  lemma TriedIs(src: Nfa, back: map<nat, seq<nat>>, p: nat, h: nat, n: nat)
    requires h < |src.out| && n <= |src.out[h]| && ClassOf(back, p) != []
    ensures var cs := ClassOf(back, p);
            Tried(src, back, p, h, n) == FlatMap(Outs(src), cs[..|cs| - 1]) + src.out[h][..n]
  {
  }

  lemma NoneSeen(src: Nfa, m: Walk, h: nat, i: nat, p: nat)
    requires Placed(src, m) && SeenTo(m.visited, h, i) && h < |m.phi| && m.phi[h] == Some(p) && p !in m.pos
    ensures i == 0
  {
    PlacedParts(src, m);
    hide Placed;
    assert (h, 0) !in m.visited;
  }

  lemma FinishedAt(src: Nfa, m: Walk, s: nat)
    requires Finished(src, m) && s < |m.phi| && m.phi[s].Some? && s < |src.out| && !IsLast(m, s)
    ensures AllVisited(src, m, s)
  {
    hide AllVisited, IsLast;
  }

  /** Where no edge has been visited, a vertex all of whose edges have been has none. */
  lemma NoChildSeen(src: Nfa, m: Walk, s: nat, t: nat, p: nat)
    requires Placed(src, m) && AllVisited(src, m, s) && s < |m.phi| && m.phi[s] == Some(p) && p !in m.pos
    ensures t !in Outs(src)(s)
  {
    PlacedParts(src, m);
    hide Placed;
    assert (s, 0) !in m.visited;
    assert src.out[s] == [];
  }

  lemma NotLast(m: Walk, cs: seq<nat>, s: nat, h: nat)
    requires s < |m.phi| && m.phi[s].Some? && cs == ClassOf(m.back, m.phi[s].value) && cs != [] && cs[|cs| - 1] == h && s != h
    ensures !IsLast(m, s)
  {
    hide ClassOf;
  }

  /** Where a child is to be put by itself, there is no image behind. */
  lemma Behind(src: Nfa, g0: Nfa, m: Walk, h: nat, i: nat, di: nat)
    requires Waits(src, g0, m, h, i) && m.phi[h].value < |m.g.out|
    requires m.phi[h].value in m.pos ==> di >= m.pos[m.phi[h].value] && Steady(src, m.phi, m.phi[h].value)
    ensures forall k :: di < k < |m.g.out[m.phi[h].value]| ==> m.g.out[m.phi[h].value][k] !in ImageSet(m.phi)
  {
    var p := m.phi[h].value;
    if p in m.pos {
      WaitsUse(src, g0, m, h, i);
      InLineUse(src, |g0.vertices|, m);
      PlacedUse(src, m, p);
      hide *;
      BehindPlace(m, p, di);
    } else {
      NoneYet(src, g0, m, h, i);
      hide *;
    }
  }

  lemma PlacedUse(src: Nfa, m: Walk, p: nat)
    requires Placed(src, m) && p in m.pos && p < |m.g.out| && Steady(src, m.phi, p)
    ensures NoneBehind(m.g, m.phi, p, m.pos[p])
  {
    hide Steady, NoneBehind;
  }

  lemma BehindPlace(m: Walk, p: nat, di: nat)
    requires p in m.pos && p < |m.g.out| && m.pos[p] <= di && NoneBehind(m.g, m.phi, p, m.pos[p])
    ensures forall k :: di < k < |m.g.out[p]| ==> m.g.out[p][k] !in ImageSet(m.phi)
  {
    hide ImageSet;
  }

  /** Old vertices that are images lie on the trunk, so that no child of their sources is there twice. */
  lemma OldSteady(src: Nfa, g0: Nfa, m: Walk, h: nat, i: nat)
    requires Waits(src, g0, m, h, i) && m.phi[h].value < |g0.vertices|
    ensures Steady(src, m.phi, m.phi[h].value) && OnTrunk(src, h)
  {
    WaitsUse(src, g0, m, h, i);
    InLineUse(src, |g0.vertices|, m);
    hide Waits, InLine, Lined, Finished, Lines, Placed, Endings, Plain, Image, Kept, Single, Kindred, ClassOf, BackOk, OnTrunk, NoneAlike,
         Kin, Separate;
  }

  lemma SingleAt(g: Nfa, p: nat, i: nat, q: nat, d: nat)
    requires Single(g) && p < |g.out| && i < |g.out[p]| && g.out[p][i] == d && OneIn(g, d) && q < |g.out|
    ensures d in g.out[q] ==> q == p
    ensures forall k :: 0 <= k < |g.out[p]| && k != i ==> g.out[p][k] != d
  {
    if d in g.out[q] {
      var j :| 0 <= j < |g.out[q]| && g.out[q][j] == d;
    }
  }

  lemma MergeableUse(src: Nfa, g: Nfa, back: map<nat, seq<nat>>, d: nat, t: nat)
    requires Even(src) && Even(g) && d < |g.vertices| && t < |src.vertices| && (d in back ==> back[d] != [] && back[d][0] < |src.ins|)
    requires Mergeable(src, g, back, d, t)
    ensures OneIn(g, d) && OneIn(src, t) && (d in back ==> OneIn(src, back[d][0]))
    ensures SameBytes(g.vertices[d].trans, src.vertices[t].trans) && g.vertices[d].lbl == src.vertices[t].lbl
    ensures g.vertices[d].lbl != NOLABEL ==> src.out[t] == [] && g.out[d] == []
  {
  }

  lemma NoImageIsOld(src: Nfa, g0: Nfa, m: Walk, d: nat, p: nat)
    requires Plain(src) && Plain(g0) && Plain(m.g) && Image(src, g0, m.g, m.phi) && Kept(g0, m.g)
    requires d !in ImageSet(m.phi) && d < |m.g.vertices| && p < |m.g.out| && d in m.g.out[p]
    ensures d < |g0.vertices| && p < |g0.vertices|
  {
    ImageSetIs(m.phi, d);
  }

  /** Behind a vertex that is no image there are none. */
  lemma NoImagesBehind(src: Nfa, g0: Nfa, m: Walk, d: nat, x: nat)
    requires Plain(src) && Plain(g0) && Plain(m.g) && Image(src, g0, m.g, m.phi)
    requires d < |m.g.out| && x in m.g.out[d]
    ensures x in ImageSet(m.phi) ==> d in ImageSet(m.phi)
  {
    NotInitial(m.g, d, x);
    ImageSetIs(m.phi, d);
    if x in ImageSet(m.phi) {
      ImageSetIs(m.phi, x);
      var s: nat :| s < |m.phi| && m.phi[s] == Some(x);
      assert s != 0;
      assert BackAt(src, m.g, m.phi, s, d);
      var k: nat :| k < |m.phi| && m.phi[k] == Some(d) && s in src.out[k];
      assert Some(d) in m.phi;
    }
  }

  /** A vertex that was no image has no sources. */
  lemma NoSources(phi: seq<Option<nat>>, back: map<nat, seq<nat>>, d: nat)
    requires BackOk(phi, back) && d !in ImageSet(phi) && d != 0
    ensures ClassOf(back, d) == [] && forall s: nat :: s < |phi| ==> phi[s] != Some(d)
  {
    var cs := ClassOf(back, d);
    forall s: nat | s < |phi| ensures phi[s] != Some(d) {
      if phi[s] == Some(d) {
        ImageSetIs(phi, d);
      }
    }
    var x := if cs == [] then 0 else cs[0];
    ClassIn(phi, back, d, x);
    hide ClassOf;
  }

  lemma NoneBehindMore(g: Nfa, phi: seq<Option<nat>>, phi': seq<Option<nat>>, p: nat, i: nat, d: nat)
    requires p < |g.out| && ImageSet(phi') == ImageSet(phi) + {d}
    requires forall k :: i < k < |g.out[p]| ==> g.out[p][k] !in ImageSet(phi) && g.out[p][k] != d
    ensures NoneBehind(g, phi', p, i)
  {
    hide ImageSet;
  }

  /** The child is merged with an old successor of the head that is no image yet. */
  lemma ChildJoinsOld(src: Nfa, g0: Nfa, m: Walk, m': Walk, h: nat, i: nat, di: nat)
    requires Waits(src, g0, m, h, i) && src.out[h][i] < |m.phi| && m.phi[src.out[h][i]].None? && Even(src) && Even(m.g)
    requires m.phi[h].value < |m.g.out| && di < |m.g.out[m.phi[h].value]| && src.out[h][i] < |src.vertices|
    requires m.phi[h].value in m.pos ==> di >= m.pos[m.phi[h].value]
    requires var d := m.g.out[m.phi[h].value][di];
             && d < |m.g.vertices| && (d in m.back ==> m.back[d] != [] && m.back[d][0] < |src.ins|)
             && Mergeable(src, m.g, m.back, d, src.out[h][i]) && d !in ImageSet(m.phi)
             && m'.g == m.g && After(src, m, m', h, i, d, di)
    ensures Seated(src, |g0.vertices|, m, m', h, i, m.g.out[m.phi[h].value][di], di)
  {
    hide *;
    WaitsUse(src, g0, m, h, i);
    var p, t := m.phi[h].value, src.out[h][i];
    var ds := m.g.out[p];
    var d := ds[di];
    var s := ImageSet(m.phi);
    assert d in ds;
    WaitsLast(src, g0, m, h, i);
    InLineUse(src, |g0.vertices|, m);
    AfterUse(src, m, m', h, i, d, di);
    NotInitial(m.g, p, d);
    NoImageIsOld(src, g0, m, d, p);
    OldSteady(src, g0, m, h, i);
    MergeableUse(src, m.g, m.back, d, t);
    Behind(src, g0, m, h, i, di);
    SingleAt(m.g, p, di, p, d);
    forall q: nat | q < |m.g.out| ensures d in m.g.out[q] ==> q == p {
      SingleAt(m.g, p, di, q, d);
    }
    HasImage(m.phi, h, p);
    OnlyJoined(ds, s, di);
    ImageSetMore(m.phi, t, d);
    NoSources(m.phi, m.back, d);
    ClassStep(m.back, d, t);
    TriedHas(src, m.g, m.phi, m.back, h, i, t);
    forall x | x in Only(ds, s) ensures ClassOf(m'.back, x) == ClassOf(m.back, x) {
      OnlyIn(ds, s, x);
    }
    LinedMore(src, m.g, m'.g, m.phi, m'.phi, m.back, m'.back, h, i, d);
    forall x | x in m.g.out[d] ensures x !in ImageSet(m'.phi) {
      NoImagesBehind(src, g0, m, d, x);
    }
    LinedAlone(src, m'.g, m'.phi, m'.back, t);
    TrunkGrows(src, h, t);
    SettledAlone(src, |g0.vertices|, m, m', t, d);
    NoneBehindMore(m'.g, m.phi, m'.phi, p, di, d);
    SeatedBy(src, |g0.vertices|, m, m', h, i, d, di);
  }

  lemma HasImage(phi: seq<Option<nat>>, h: nat, p: nat)
    requires h < |phi| && phi[h].Some? && phi[h].value == p
    ensures p in ImageSet(phi)
  {
  }

  lemma SettledAlone(src: Nfa, n0: nat, m: Walk, m': Walk, t: nat, d: nat)
    requires Lined(src, m'.g, m'.phi, m'.back, t, 0) && (d < n0 ==> OnTrunk(src, t))
    requires forall s: nat :: s < |m.phi| ==> m.phi[s] != Some(d)
    ensures Settled(src, n0, m, m', t, d)
  {
    hide Lined, OnTrunk;
  }

  // a child that joins others

  lemma ImagePart(src: Nfa, g0: Nfa, g: Nfa, phi: seq<Option<nat>>, s: nat)
    requires Plain(src) && Plain(g0) && Plain(g) && Image(src, g0, g, phi) && s < |phi| && phi[s].Some?
    ensures Wired(src) && Wired(g) && s < |src.vertices| == |src.out| && phi[s].value < |g.vertices| == |g.out|
    ensures s > 0 ==> SameVertex(src.vertices[s], g.vertices[phi[s].value])
    ensures src.vertices[s].isMatch <==> g.vertices[phi[s].value].isMatch
    ensures src.vertices[s].isMatch ==> src.vertices[s].lbl == g.vertices[phi[s].value].lbl
    ensures s > 0 && Shared(phi, |g0.vertices|, s) ==> OneIn(src, s)
  {
    hide Shared;
  }

  lemma MatchLabelled(g: Nfa, v: nat)
    requires Plain(g) && v < |g.vertices|
    ensures g.vertices[v].isMatch <==> g.vertices[v].lbl != NOLABEL
  {
  }

  lemma SameKindBy(src: Nfa, g: Nfa, s: nat, t: nat, d: nat)
    requires Plain(src) && Plain(g) && Even(src) && s < |src.vertices| && t < |src.vertices| && d < |g.vertices|
    requires SameVertex(src.vertices[s], g.vertices[d])
    requires SameBytes(g.vertices[d].trans, src.vertices[t].trans) && g.vertices[d].lbl == src.vertices[t].lbl
    requires OneIn(src, s) && OneIn(src, t)
    ensures SameKind(src, s, t)
  {
    MatchLabelled(src, s);
    MatchLabelled(src, t);
  }

  /** The others have one in edge each, from kin of the head. */
  lemma MemberKin(src: Nfa, g0: Nfa, m: Walk, h: nat, i: nat, d: nat, s: nat) returns (k: nat)
    requires Waits(src, g0, m, h, i) && src.out[h][i] < |m.phi| && m.phi[src.out[h][i]].None? && Even(src) && Even(m.g)
    requires m.phi[h].value < |m.g.out| && d in m.g.out[m.phi[h].value] && d < |m.g.vertices| && src.out[h][i] < |src.vertices|
    requires d in m.back ==> m.back[d] != [] && m.back[d][0] < |src.ins|
    requires Mergeable(src, m.g, m.back, d, src.out[h][i]) && s < |m.phi| && m.phi[s] == Some(d)
    ensures k < |m.phi| && m.phi[k] == m.phi[h] && k < |src.out| && s in src.out[k] && SameKind(src, s, src.out[h][i]) && Kin(src, s, src.out[h][i])
    ensures s != 0 && s != src.out[h][i]
  {
    hide *;
    WaitsUse(src, g0, m, h, i);
    var p, t := m.phi[h].value, src.out[h][i];
    InLineUse(src, |g0.vertices|, m);
    MergeableUse(src, m.g, m.back, d, t);
    NotInitial(m.g, p, d);
    ZeroIs(m.phi, m.back, s);
    k := ParentOf(src, g0, m, s, p, d);
    MemberOnce(src, g0, m, d, s);
    ImagePart(src, g0, m.g, m.phi, s);
    SameKindBy(src, m.g, s, t, d);
    KindredAt(src, m.phi, k, h);
    KinStep(src, k, h, s, t);
  }

  lemma ZeroIs(phi: seq<Option<nat>>, back: map<nat, seq<nat>>, s: nat)
    requires BackOk(phi, back) && s < |phi| && phi[s].Some?
    ensures phi[s].value == 0 <==> s == 0
  {
  }

  lemma KindredAt(src: Nfa, phi: seq<Option<nat>>, s: nat, t: nat)
    requires Kindred(src, phi) && s < |phi| && t < |phi| && phi[s].Some? && phi[s] == phi[t]
    ensures Kin(src, s, t)
  {
    hide Kin;
  }

  lemma ParentOf(src: Nfa, g0: Nfa, m: Walk, s: nat, p: nat, d: nat) returns (k: nat)
    requires Plain(src) && Plain(g0) && Plain(m.g) && Image(src, g0, m.g, m.phi) && 0 < s < |m.phi| && m.phi[s] == Some(d)
    requires p < |m.g.out| && d in m.g.out[p]
    ensures k < |m.phi| && k < |src.out| && m.phi[k] == Some(p) && s in src.out[k]
  {
    assert BackAt(src, m.g, m.phi, s, p);
    k :| k < |m.phi| && m.phi[k] == Some(p) && s in src.out[k];
  }

  lemma MemberOnce(src: Nfa, g0: Nfa, m: Walk, d: nat, s: nat)
    requires Plain(src) && Plain(g0) && Plain(m.g) && Image(src, g0, m.g, m.phi) && BackOk(m.phi, m.back)
    requires 0 < s < |m.phi| && m.phi[s] == Some(d)
    requires (d in m.back ==> m.back[d] != [] && m.back[d][0] < |src.ins| && OneIn(src, m.back[d][0]))
    ensures OneIn(src, s)
  {
    var f := m.back[d][0];
    assert f in m.back[d];
    ImagePart(src, g0, m.g, m.phi, s);
    if s != f {
      assert Shared(m.phi, |g0.vertices|, s);
    }
  }

  lemma Apart(src: Nfa, s: nat, t: nat)
    requires Untangled(src) && s != t && Kin(src, s, t)
    ensures s < |src.out| && t < |src.out| && !Reaching(src, s, t) && NoRepeats(src.out[s])
  {
    hide Kin, Reaching, OnTrunk, NoneAlike;
  }

  lemma NotAlike(src: Nfa, h: nat, s: nat, t: nat)
    requires Untangled(src) && h < |src.out| && s in src.out[h] && t in src.out[h] && s != t && SameKind(src, s, t)
    ensures NoRepeats(src.out[h])
  {
    hide Kin, SameKind, OnTrunk, Separate;
    var i :| 0 <= i < |src.out[h]| && src.out[h][i] == s;
    var j :| 0 <= j < |src.out[h]| && src.out[h][j] == t;
    assert !NoneAlike(src, src.out[h]);
  }

  /** Where siblings of the same kind meet, no child of a head is there twice. */
  lemma JoinSteady(src: Nfa, g0: Nfa, m: Walk, h: nat, i: nat, s: nat, k: nat)
    requires Waits(src, g0, m, h, i) && src.out[h][i] < |m.phi|
    requires k < |m.phi| && m.phi[k] == m.phi[h] && k < |src.out| && s in src.out[k] && SameKind(src, s, src.out[h][i]) && s != src.out[h][i]
    ensures Steady(src, m.phi, m.phi[h].value)
  {
    hide *;
    WaitsUse(src, g0, m, h, i);
    var p := m.phi[h].value;
    InLineUse(src, |g0.vertices|, m);
    forall x: nat | x < |m.phi| && m.phi[x] == Some(p) && x < |src.out| ensures NoRepeats(src.out[x]) {
      if x != h {
        KindredAt(src, m.phi, x, h);
        Apart(src, x, h);
      } else if k != h {
        KindredAt(src, m.phi, h, k);
        Apart(src, h, k);
      } else {
        NotAlike(src, h, s, src.out[h][i]);
      }
    }
    SteadyBy(src, m.phi, p);
  }

  lemma SteadyBy(src: Nfa, phi: seq<Option<nat>>, p: nat)
    requires forall s: nat :: s < |phi| && phi[s] == Some(p) && s < |src.out| ==> NoRepeats(src.out[s])
    ensures Steady(src, phi, p)
  {
  }

  /** None of the others has an edge that waits: the child could be reached from it. */
  lemma MemberVisited(src: Nfa, g0: Nfa, m: Walk, h: nat, i: nat, s: nat)
    requires Waits(src, g0, m, h, i) && src.out[h][i] < |m.phi| && s < |m.phi| && m.phi[s].Some? && s != src.out[h][i]
    requires Kin(src, s, src.out[h][i])
    ensures AllVisited(src, m, s)
  {
    var t := src.out[h][i];
    WaitsUse(src, g0, m, h, i);
    QueuedAt(src, g0, m, h, i, s);
    hide *;
    Apart(src, s, t);
    forall j: nat | j < |src.out[s]| ensures (s, j) in m.visited {
      if (s, j) in m.edges {
        NestedTop(src, m.edges, (s, j));
        ReachingStep(src, s, h, t);
      }
    }
    AllVisitedBy(src, m, s);
  }

  lemma AllVisitedBy(src: Nfa, m: Walk, s: nat)
    requires s < |src.out| && forall i: nat :: i < |src.out[s]| ==> (s, i) in m.visited
    ensures AllVisited(src, m, s)
  {
  }

  lemma QueuedAt(src: Nfa, g0: Nfa, m: Walk, h: nat, i: nat, s: nat)
    requires Waits(src, g0, m, h, i) && s < |m.phi| && m.phi[s].Some?
    ensures s < |src.out| && forall j: nat :: j < |src.out[s]| ==> (s, j) in m.visited || (s, j) in m.edges
    ensures Nested(src, m.edges) && m.edges != [] && m.edges[|m.edges| - 1] == (h, i)
  {
    hide Plain, Image, Kept, Tracked, InLine, Untangled, Single, Nested, SeenTo;
  }

  lemma NestedTop(src: Nfa, edges: seq<(nat, nat)>, e: (nat, nat))
    requires Nested(src, edges) && e in edges
    ensures Reaching(src, e.0, edges[|edges| - 1].0)
  {
    hide Reaching;
    var k :| 0 <= k < |edges| && edges[k] == e;
  }

  lemma TrackedAt(src: Nfa, g0: Nfa, m: Walk, h: nat, i: nat, s: nat)
    requires Waits(src, g0, m, h, i) && s < |m.phi| && AllVisited(src, m, s)
    ensures s < |src.out| && SeenTo(m.visited, s, |src.out[s]|)
    ensures src.out[s] != [] ==> m.phi[s].Some? && m.phi[s].value < |m.g.out| && m.g.out[m.phi[s].value] != []
  {
    hide Plain, Image, Kept, Queued, InLine, Untangled, Single, Nested, Entered;
    assert src.out[s] != [] ==> (s, 0) in m.visited;
  }

  /** The last one with image d, and its list. */
  lemma LastMember(src: Nfa, n0: nat, m: Walk, d: nat, f: nat) returns (s: nat)
    requires InLine(src, n0, m) && f < |m.phi| && m.phi[f] == Some(d)
    ensures IsLast(m, s) && s < |m.phi| && m.phi[s] == Some(d)
  {
    InLineUse(src, n0, m);
    hide *;
    var cs := ClassOf(m.back, d);
    ClassIn(m.phi, m.back, d, f);
    s := cs[|cs| - 1];
    assert s in cs;
    ClassIn(m.phi, m.back, d, s);
    LastBy(m, s);
  }

  lemma LastBy(m: Walk, s: nat)
    requires s < |m.phi| && m.phi[s].Some?
    requires var cs := ClassOf(m.back, m.phi[s].value); cs != [] && cs[|cs| - 1] == s
    ensures IsLast(m, s)
  {
    hide ClassOf;
  }

  lemma LinesAt(src: Nfa, m: Walk, h: nat, n: nat)
    requires Lines(src, m) && IsLast(m, h) && h < |src.out| && n <= |src.out[h]| && SeenTo(m.visited, h, n)
    ensures Lined(src, m.g, m.phi, m.back, h, n)
  {
    hide Lined, IsLast, SeenTo;
  }

  /** The successor with the last image is the last one in Only. */
  lemma OnlyEnds(ds: seq<nat>, s: set<nat>, i: nat)
    requires i < |ds| && ds[i] in s && (forall k :: i < k < |ds| ==> ds[k] !in s)
    ensures Only(ds, s) == Only(ds[..i], s) + [ds[i]]
  {
    var x, b := ds[i], ds[i + 1..];
    assert ds == ds[..i] + ([x] + b);
    OnlyParts(ds[..i], x, b, s);
    OnlyNone(b, s);
    hide Only;
  }

  /** Others that the child joins are those of the last image among the successors of the head. */
  lemma JoinedLast(src: Nfa, g0: Nfa, m: Walk, h: nat, i: nat, di: nat)
    requires Waits(src, g0, m, h, i) && m.phi[h].value < |m.g.out| && di < |m.g.out[m.phi[h].value]|
    requires m.g.out[m.phi[h].value][di] in ImageSet(m.phi) && Steady(src, m.phi, m.phi[h].value)
    requires m.phi[h].value in m.pos ==> di >= m.pos[m.phi[h].value]
    ensures forall k :: di < k < |m.g.out[m.phi[h].value]| ==> m.g.out[m.phi[h].value][k] !in ImageSet(m.phi)
  {
    hide *;
    Behind(src, g0, m, h, i, di);
  }

  lemma NoLoop(src: Nfa, g0: Nfa, m: Walk, h: nat, i: nat)
    requires Waits(src, g0, m, h, i) && src.out[h][i] < |m.phi| && h != src.out[h][i]
    ensures !Kin(src, h, src.out[h][i])
  {
    WaitsUse(src, g0, m, h, i);
    hide *;
    var t := src.out[h][i];
    ReachingSelf(src, h);
    ReachingStep(src, h, h, t);
    if Kin(src, h, t) {
      Apart(src, h, t);
    }
  }

  /** Matches that join have no successors. */
  lemma JoinsEnd(src: Nfa, g0: Nfa, m: Walk, h: nat, i: nat, d: nat, s: nat)
    requires Waits(src, g0, m, h, i) && src.out[h][i] < |m.phi| && Even(src) && Even(m.g) && d < |m.g.vertices| && src.out[h][i] < |src.vertices|
    requires d in m.back ==> m.back[d] != [] && m.back[d][0] < |src.ins|
    requires Mergeable(src, m.g, m.back, d, src.out[h][i]) && s < |m.phi| && m.phi[s] == Some(d) && Kin(src, s, src.out[h][i])
    requires AllVisited(src, m, s)
    ensures Joins(src, m, s, src.out[h][i])
  {
    hide *;
    WaitsUse(src, g0, m, h, i);
    var t := src.out[h][i];
    MergeableUse(src, m.g, m.back, d, t);
    TrackedAt(src, g0, m, h, i, s);
    ImagePart(src, g0, m.g, m.phi, s);
    MatchLabelled(src, t);
    MatchLabelled(src, s);
    JoinsBy(src, m, s, t);
  }

  lemma JoinsBy(src: Nfa, m: Walk, s: nat, t: nat)
    requires Kin(src, s, t) && AllVisited(src, m, s)
    requires s < |src.vertices| && t < |src.vertices| && s < |src.out| && t < |src.out|
    requires (src.vertices[s].isMatch ==> src.out[s] == []) && (src.vertices[t].isMatch ==> src.out[t] == [])
    ensures Joins(src, m, s, t)
  {
    hide Kin, AllVisited;
  }

  lemma OldHead(g0: Nfa, g: Nfa, p: nat, d: nat)
    requires Wired(g0) && Wired(g) && Kept(g0, g) && p < |g.out| && d in g.out[p] && d < |g0.vertices|
    ensures p < |g0.vertices|
  {
  }

  /** The child is merged with the last image among the successors of the head. */
  lemma ChildJoins(src: Nfa, g0: Nfa, m: Walk, m': Walk, h: nat, i: nat, di: nat)
    requires Waits(src, g0, m, h, i) && src.out[h][i] < |m.phi| && m.phi[src.out[h][i]].None? && Even(src) && Even(m.g)
    requires m.phi[h].value < |m.g.out| && di < |m.g.out[m.phi[h].value]| && src.out[h][i] < |src.vertices|
    requires m.phi[h].value in m.pos ==> di >= m.pos[m.phi[h].value]
    requires var d := m.g.out[m.phi[h].value][di];
             && d < |m.g.vertices| && (d in m.back ==> m.back[d] != [] && m.back[d][0] < |src.ins|)
             && Mergeable(src, m.g, m.back, d, src.out[h][i]) && d in ImageSet(m.phi)
             && m'.g == m.g && After(src, m, m', h, i, d, di)
    ensures Seated(src, |g0.vertices|, m, m', h, i, m.g.out[m.phi[h].value][di], di)
  {
    hide *;
    WaitsUse(src, g0, m, h, i);
    var p, t := m.phi[h].value, src.out[h][i];
    var ds := m.g.out[p];
    var d := ds[di];
    assert d in ds;
    WaitsLast(src, g0, m, h, i);
    InLineUse(src, |g0.vertices|, m);
    AfterUse(src, m, m', h, i, d, di);
    NotInitial(m.g, p, d);
    MergeableUse(src, m.g, m.back, d, t);
    var f := SourceOf(m.phi, d);
    var k := MemberKin(src, g0, m, h, i, d, f);
    JoinSteady(src, g0, m, h, i, f, k);
    JoinedLast(src, g0, m, h, i, di);
    SingleAt(m.g, p, di, p, d);
    forall q: nat | q < |m.g.out| ensures d in m.g.out[q] ==> q == p {
      SingleAt(m.g, p, di, q, d);
    }
    NotOwnHead(src, g0, m, h, i, d);
    forall s: nat | s < |m.phi| && m.phi[s] == Some(d) ensures Joins(src, m, s, t) {
      var _ := MemberKin(src, g0, m, h, i, d, s);
      MemberVisited(src, g0, m, h, i, s);
      JoinsEnd(src, g0, m, h, i, d, s);
    }
    JoinedLists(src, g0, m, m', h, i, di);
    JoinedNext(src, g0, m, m', h, i, d, f);
    if d < |g0.vertices| {
      PlainWired(g0);
      OldHead(g0, m.g, p, d);
      OldSteady(src, g0, m, h, i);
      TrunkGrows(src, h, t);
    }
    SettledBy(src, |g0.vertices|, m, m', t, d);
    ImageSetMore(m.phi, t, d);
    forall x | di < x < |ds| ensures ds[x] !in ImageSet(m.phi) && ds[x] != d {
    }
    NoneBehindMore(m'.g, m.phi, m'.phi, p, di, d);
    SeatedBy(src, |g0.vertices|, m, m', h, i, d, di);
  }

  lemma SettledBy(src: Nfa, n0: nat, m: Walk, m': Walk, t: nat, d: nat)
    requires Lined(src, m'.g, m'.phi, m'.back, t, 0) && (d < n0 ==> OnTrunk(src, t))
    requires forall s: nat :: s < |m.phi| && m.phi[s] == Some(d) ==> Joins(src, m, s, t)
    ensures Settled(src, n0, m, m', t, d)
  {
    hide Lined, OnTrunk, Joins;
  }

  lemma NotOwnHead(src: Nfa, g0: Nfa, m: Walk, h: nat, i: nat, d: nat)
    requires Waits(src, g0, m, h, i) && src.out[h][i] < |m.phi| && m.phi[src.out[h][i]].None? && Even(src) && Even(m.g)
    requires m.phi[h].value < |m.g.out| && d in m.g.out[m.phi[h].value] && d < |m.g.vertices| && src.out[h][i] < |src.vertices|
    requires d in m.back ==> m.back[d] != [] && m.back[d][0] < |src.ins|
    requires Mergeable(src, m.g, m.back, d, src.out[h][i])
    ensures d != m.phi[h].value
  {
    hide *;
    WaitsUse(src, g0, m, h, i);
    if d == m.phi[h].value {
      assert m.phi[h] == Some(d);
      var _ := MemberKin(src, g0, m, h, i, d, h);
      NoLoop(src, g0, m, h, i);
    }
  }

  lemma JoinedLists(src: Nfa, g0: Nfa, m: Walk, m': Walk, h: nat, i: nat, di: nat)
    requires Waits(src, g0, m, h, i) && src.out[h][i] < |m.phi| && m.phi[src.out[h][i]].None?
    requires Lined(src, m.g, m.phi, m.back, h, i) && m.phi[h].value < |m.g.out| && di < |m.g.out[m.phi[h].value]|
    requires var ds := m.g.out[m.phi[h].value];
             && ds[di] in ImageSet(m.phi) && ds[di] != 0 && ds[di] != m.phi[h].value
             && (forall k :: di < k < |ds| ==> ds[k] !in ImageSet(m.phi))
             && (forall k :: 0 <= k < |ds| && k != di ==> ds[k] != ds[di])
             && After(src, m, m', h, i, ds[di], di)
    ensures Lined(src, m.g, m'.phi, m'.back, h, i + 1)
  {
    hide *;
    WaitsUse(src, g0, m, h, i);
    var p, t := m.phi[h].value, src.out[h][i];
    var ds := m.g.out[p];
    var d := ds[di];
    InLineUse(src, |g0.vertices|, m);
    AfterUse(src, m, m', h, i, d, di);
    ImageSetMore(m.phi, t, d);
    assert ImageSet(m'.phi) == ImageSet(m.phi);
    OnlyEnds(ds, ImageSet(m.phi), di);
    ClassStep(m.back, d, t);
    ClassIn(m.phi, m.back, d, t);
    TriedHas(src, m.g, m.phi, m.back, h, i, t);
    var front := Only(ds[..di], ImageSet(m.phi));
    forall x | x in front ensures ClassOf(m'.back, x) == ClassOf(m.back, x) {
      OnlyIn(ds[..di], ImageSet(m.phi), x);
    }
    LinedGrown(src, m.g, m.phi, m'.phi, m.back, m'.back, h, i, front, d);
  }

  lemma JoinedNext(src: Nfa, g0: Nfa, m: Walk, m': Walk, h: nat, i: nat, d: nat, f: nat)
    requires Waits(src, g0, m, h, i) && src.out[h][i] < |m.phi| && m.phi[src.out[h][i]].None?
    requires m'.g == m.g && m'.phi == m.phi[src.out[h][i] := Some(d)] && m'.back == m.back[d := Sources(m.back, d) + [src.out[h][i]]]
    requires f < |m.phi| && m.phi[f] == Some(d) && d != 0 && d < |m.g.out| && d !in m.g.out[d]
    requires forall s: nat :: s < |m.phi| && m.phi[s] == Some(d) ==> Joins(src, m, s, src.out[h][i])
    ensures Lined(src, m'.g, m'.phi, m'.back, src.out[h][i], 0)
  {
    hide *;
    WaitsUse(src, g0, m, h, i);
    var t := src.out[h][i];
    InLineUse(src, |g0.vertices|, m);
    var s := LastMember(src, |g0.vertices|, m, d, f);
    JoinsVisited(src, m, s, t);
    TrackedAt(src, g0, m, h, i, s);
    LinesAt(src, m, s, |src.out[s]|);
    ImageSetMore(m.phi, t, d);
    HasImage(m.phi, f, d);
    assert ImageSet(m'.phi) == ImageSet(m.phi);
    ClassStep(m.back, d, t);
    ClassIn(m.phi, m.back, d, t);
    LinedNext(src, m.g, m.phi, m'.phi, m.back, m'.back, s, t, d);
  }

  lemma JoinsVisited(src: Nfa, m: Walk, s: nat, t: nat)
    requires Joins(src, m, s, t)
    ensures AllVisited(src, m, s) && s < |src.out|
  {
    hide Kin;
  }

  // a child with a new image

  lemma FreshLists(src: Nfa, g: Nfa, t: nat, p: nat, d: nat, di: nat)
    requires Even(g) && t < |src.vertices| && p < |g.out| && d == |g.vertices| && d !in g.out[p]
    ensures var g' := EdgeTo(WithVertex(src, g, t), p, d, di);
            && |g'.out| == |g.out| + 1 && g'.out[p] == Inserted(g.out[p], di, d) && g'.out[d] == []
            && forall q: nat :: q < |g.out| && q != p ==> g'.out[q] == g.out[q]
  {
    var g1 := WithVertex(src, g, t);
    assert g1.out[p] == g.out[p] && g1.ins[d] == [] && g1.out[d] == [];
    EdgeToIs(g1, p, d, di);
    hide Inserted;
  }

  lemma NoImageAbove(src: Nfa, g0: Nfa, m: Walk, d: nat)
    requires Plain(src) && Plain(g0) && Plain(m.g) && Image(src, g0, m.g, m.phi) && d >= |m.g.vertices|
    ensures d !in ImageSet(m.phi) && d >= |g0.vertices| && forall q: nat :: q < |m.g.out| ==> d !in m.g.out[q]
  {
    ImageSetIs(m.phi, d);
  }

  /** A new vertex for the child, behind all images. */
  lemma ChildFresh(src: Nfa, g0: Nfa, m: Walk, m': Walk, h: nat, i: nat, di: nat)
    requires Waits(src, g0, m, h, i) && src.out[h][i] < |m.phi| && m.phi[src.out[h][i]].None? && Even(m.g)
    requires m.phi[h].value < |m.g.out| && src.out[h][i] < |src.vertices|
    requires m.phi[h].value in m.pos ==> di >= |m.g.out[m.phi[h].value]|
    requires After(src, m, m', h, i, |m.g.vertices|, di)
    requires m'.g == EdgeTo(WithVertex(src, m.g, src.out[h][i]), m.phi[h].value, |m.g.vertices|, di)
    ensures Seated(src, |g0.vertices|, m, m', h, i, |m.g.vertices|, di)
  {
    hide *;
    WaitsUse(src, g0, m, h, i);
    var p, t := m.phi[h].value, src.out[h][i];
    var d: nat := |m.g.vertices|;
    var ds := m.g.out[p];
    var s := ImageSet(m.phi);
    WaitsLast(src, g0, m, h, i);
    InLineUse(src, |g0.vertices|, m);
    AfterUse(src, m, m', h, i, d, di);
    NoImageAbove(src, g0, m, d);
    if p !in m.pos {
      NoneYet(src, g0, m, h, i);
    }
    ImageSetMore(m.phi, t, d);
    forall k | di <= k < |ds| ensures ds[k] !in ImageSet(m'.phi) && ds[k] !in s {
      assert ds[k] in ds;
    }
    FreshLists(src, m.g, t, p, d, di);
    NoSources(m.phi, m.back, d);
    ClassStep(m.back, d, t);
    TriedHas(src, m.g, m.phi, m.back, h, i, t);
    OnlyLast(ds, ImageSet(m'.phi), di, d);
    OnlyLike(ds, s, ImageSet(m'.phi));
    forall x | x in Only(ds, s) ensures ClassOf(m'.back, x) == ClassOf(m.back, x) {
      OnlyIn(ds, s, x);
    }
    LinedMore(src, m.g, m'.g, m.phi, m'.phi, m.back, m'.back, h, i, d);
    LinedAlone(src, m'.g, m'.phi, m'.back, t);
    SettledAlone(src, |g0.vertices|, m, m', t, d);
    BehindNew(ds, di, d, ImageSet(m'.phi));
    NoneBehindBy(m'.g, m'.phi, p, di);
    SeatedBy(src, |g0.vertices|, m, m', h, i, d, di);
  }

  /** After any child, the images are in line. */
  lemma ChildInLine(src: Nfa, g0: Nfa, m: Walk, m': Walk, h: nat, i: nat)
    requires Waits(src, g0, m, h, i) && Fits(src, m) && Even(src) && Even(m.g) && src.out[h][i] < |m.phi| && m.phi[h].value < |m.g.out|
    requires |m.phi| == |src.vertices| && forall k :: 0 <= k < |m.g.out[m.phi[h].value]| ==> m.g.out[m.phi[h].value][k] < |m.g.vertices|
    requires var x := PlaceOf(src, m.g, m.phi, m.back, m.pos, m.phi[h].value, src.out[h][i]);
             && After(src, m, m', h, i, x.d, x.di)
             && m.phi[h].value < |x.g.out| && x.d < |x.g.ins| && m'.g == EdgeTo(x.g, m.phi[h].value, x.d, x.di)
    ensures var x := PlaceOf(src, m.g, m.phi, m.back, m.pos, m.phi[h].value, src.out[h][i]);
            Seated(src, |g0.vertices|, m, m', h, i, x.d, x.di)
  {
    var p, t := m.phi[h].value, src.out[h][i];
    var x := PlaceOf(src, m.g, m.phi, m.back, m.pos, p, t);
    var start := if p in m.pos then m.pos[p] else 0;
    if m.phi[t].Some? {
      hide Waits, Wired, Mergeable, Inserted, After, Seated;
      if x.d in m.g.out[p] {
        ChildKnown(src, g0, m, m', h, i, x.d, x.di);
      } else {
        ChildLinked(src, g0, m, m', h, i, x.d, x.di);
      }
    } else {
      var di := NextMergeable(src, m.g, m.back, m.g.out[p], t, start);
      hide Waits, Wired, Mergeable, Inserted, NextMergeable, After, Seated, ImageSet;
      if di < |m.g.out[p]| {
        assert x.d in m.g.out[p];
        if x.d in ImageSet(m.phi) {
          ChildJoins(src, g0, m, m', h, i, di);
        } else {
          ChildJoinsOld(src, g0, m, m', h, i, di);
        }
      } else {
        ChildFresh(src, g0, m, m', h, i, x.di);
      }
    }
  }

  // ----- what the walk leaves -----

  /** For every image, its successors that are images stand for the children of all its sources, in their order. */
  ghost predicate AllLined(src: Nfa, m: Walk) {
    && BackOk(m.phi, m.back) && Endings(src, m.phi)
    && forall d: nat :: d in ImageSet(m.phi) ==>
         && d < |m.g.out|
         && Dedup(FlatMap(Outs(src), ClassOf(m.back, d))) == FlatMap(Classes(m.back), Only(m.g.out[d], ImageSet(m.phi)))
  }

  lemma EndsLined(src: Nfa, g0: Nfa, m: Walk)
    requires Merged(src, g0, m.g, m.phi, m.visited, []) && InLine(src, |g0.vertices|, m)
    ensures AllLined(src, m)
  {
    InLineUse(src, |g0.vertices|, m);
    forall d: nat | d in ImageSet(m.phi)
      ensures d < |m.g.out|
           && Dedup(FlatMap(Outs(src), ClassOf(m.back, d))) == FlatMap(Classes(m.back), Only(m.g.out[d], ImageSet(m.phi)))
    {
      EndsLinedAt(src, g0, m, d);
    }
    hide InLine, BackOk, Endings, Merged, ImageSet, ClassOf;
  }

  lemma EndsLinedAt(src: Nfa, g0: Nfa, m: Walk, d: nat)
    requires Merged(src, g0, m.g, m.phi, m.visited, []) && InLine(src, |g0.vertices|, m) && d in ImageSet(m.phi)
    ensures d < |m.g.out|
    ensures Dedup(FlatMap(Outs(src), ClassOf(m.back, d))) == FlatMap(Classes(m.back), Only(m.g.out[d], ImageSet(m.phi)))
  {
    hide *;
    InLineUse(src, |g0.vertices|, m);
    var f := SourceOf(m.phi, d);
    var s := LastMember(src, |g0.vertices|, m, d, f);
    AllSeen(src, g0, m, s);
    LinesAt(src, m, s, |src.out[s]|);
    LinedUse(src, m.g, m.phi, m.back, s, |src.out[s]|);
    TriedEnd(src, m.back, d, s);
  }

  lemma TriedEnd(src: Nfa, back: map<nat, seq<nat>>, d: nat, s: nat)
    requires s < |src.out| && ClassOf(back, d) != [] && ClassOf(back, d)[|ClassOf(back, d)| - 1] == s
    ensures Tried(src, back, d, s, |src.out[s]|) == FlatMap(Outs(src), ClassOf(back, d))
  {
    var cs := ClassOf(back, d);
    var front := cs[..|cs| - 1];
    assert cs == front + [s];
    FlatMapSnoc(Outs(src), front, s);
    assert src.out[s][..|src.out[s]|] == src.out[s];
    hide ClassOf, FlatMap;
  }

  lemma AllSeen(src: Nfa, g0: Nfa, m: Walk, h: nat)
    requires Merged(src, g0, m.g, m.phi, m.visited, []) && h < |m.phi| && m.phi[h].Some?
    ensures h < |src.out| && SeenTo(m.visited, h, |src.out[h]|)
  {
    hide Image, Kept, Plain, Entered;
    PlainWired(src);
    PlainWired(m.g);
    forall j: nat ensures (h, j) in m.visited <==> j < |src.out[h]| {
    }
  }

  /** What is preferred from several vertices, the first of them first. */
  ghost function BestOver(g: Nfa, l: nat, cs: seq<nat>, w: seq<Byte>): Option<nat>
    requires Wired(g) && Within(g, cs)
  {
    if cs == [] then None else OrElse(Best(g, l, cs[0], w), BestOver(g, l, cs[1..], w))
  }

  lemma {:induction false} OutsWithin(src: Nfa, cs: seq<nat>)
    requires Wired(src)
    ensures Within(src, FlatMap(Outs(src), cs))
    decreases |cs|
  {
    if cs != [] {
      OutsWithin(src, cs[1..]);
    }
  }

  /** Of vertices that are no match, this is what their successors prefer, in order. */
  lemma {:induction false} BestOverOuts(src: Nfa, l: nat, cs: seq<nat>, w: seq<Byte>)
    requires Wired(src) && Within(src, cs) && forall s :: s in cs ==> s < |src.vertices| && !Accepting(src, l, s)
    ensures Within(src, FlatMap(Outs(src), cs))
    ensures BestOver(src, l, cs, w) == BestOf(src, l, FlatMap(Outs(src), cs), w)
    decreases |cs|
  {
    OutsWithin(src, cs);
    if cs != [] {
      assert cs == [cs[0]] + cs[1..];
      BestOverOuts(src, l, cs[1..], w);
      OutsWithin(src, cs[1..]);
      BestOfAppend(src, l, src.out[cs[0]], FlatMap(Outs(src), cs[1..]), w);
    }
  }

  /** The same for matches, if there is one of them or none has successors. */
  lemma BestOverMatches(src: Nfa, l: nat, cs: seq<nat>, w: seq<Byte>)
    requires Wired(src) && Within(src, cs) && cs != [] && forall s :: s in cs ==> s < |src.vertices| && Accepting(src, l, s)
    requires |cs| > 1 ==> forall s :: s in cs ==> s < |src.out| && src.out[s] == []
    ensures Within(src, FlatMap(Outs(src), cs))
    ensures BestOver(src, l, cs, w) == OrElse(BestOf(src, l, FlatMap(Outs(src), cs), w), Some(0))
  {
    OutsWithin(src, cs);
    assert cs[0] in cs;
    if |cs| == 1 {
      assert cs[1..] == [] && src.out[cs[0]] + [] == src.out[cs[0]];
      assert FlatMap(Outs(src), cs) == src.out[cs[0]];
      assert BestOver(src, l, cs, w) == OrElse(Best(src, l, cs[0], w), None);
    } else {
      NoOuts(src, cs);
    }
  }

  lemma {:induction false} NoOuts(src: Nfa, cs: seq<nat>)
    requires forall s :: s in cs ==> s < |src.out| && src.out[s] == []
    ensures FlatMap(Outs(src), cs) == []
    decreases |cs|
  {
    if cs != [] {
      assert cs[0] in cs;
      forall s | s in cs[1..] ensures s < |src.out| && src.out[s] == [] {
        assert s in cs;
      }
      NoOuts(src, cs[1..]);
    }
  }

  /** Successors that read the same bytes prefer together what they prefer after the byte. */
  lemma {:induction false} BestOfSame(src: Nfa, l: nat, cs: seq<nat>, w: seq<Byte>, yes: bool)
    requires Wired(src) && Within(src, cs) && w != [] && forall s :: s in cs ==> s < |src.vertices| && (Permits(src, s, w[0]) <==> yes)
    ensures BestOf(src, l, cs, w) == if yes then Later(BestOver(src, l, cs, w[1..])) else None
    decreases |cs|
  {
    if cs != [] {
      assert cs == [cs[0]] + cs[1..];
      BestOfSame(src, l, cs[1..], w, yes);
    }
  }

  /** Successors one by one, each for several of the source. */
  lemma {:induction false} BestOfClasses(src: Nfa, g: Nfa, l: nat, f: nat -> seq<nat>, ds: seq<nat>, w: seq<Byte>)
    requires Wired(src) && Wired(g) && Within(g, ds)
    requires forall d :: d in ds ==> d < |g.vertices| && Within(src, f(d)) && BestVia(g, l, d, w) == BestOf(src, l, f(d), w)
    ensures Within(src, FlatMap(f, ds)) && BestOf(g, l, ds, w) == BestOf(src, l, FlatMap(f, ds), w)
    decreases |ds|
  {
    if ds != [] {
      assert ds == [ds[0]] + ds[1..];
      BestOfClasses(src, g, l, f, ds[1..], w);
      BestOfAppend(src, l, f(ds[0]), FlatMap(f, ds[1..]), w);
    }
  }

  /** Whatever is no image leads to no match of the new label. */
  lemma {:induction false} OldFindsNothing(src: Nfa, g0: Nfa, m: Walk, lnew: nat, d: nat, w: seq<Byte>)
    requires Plain(src) && Plain(g0) && Plain(m.g) && Image(src, g0, m.g, m.phi) && Kept(g0, m.g) && FreshLabel(src, g0, lnew)
    requires d < |m.g.vertices| && d !in ImageSet(m.phi)
    ensures Best(m.g, lnew, d, w) == None
    decreases |w|
  {
    ImageSetIs(m.phi, d);
    assert d < |g0.vertices|;
    assert m.g.vertices[d] == g0.vertices[d];
    var ds := m.g.out[d];
    forall x | x in ds && x !in {} ensures x < |m.g.vertices| && BestVia(m.g, lnew, x, w) == None {
      NoImagesBehind(src, g0, m, d, x);
      NotInitial(m.g, d, x);
      if w != [] {
        OldFindsNothing(src, g0, m, lnew, x, w[1..]);
      }
    }
    BestOfOnly(m.g, lnew, ds, {}, w);
    OnlyNone(ds, {});
  }

  /** A walk that has ended with all images in line. */
  ghost predicate Done(src: Nfa, g0: Nfa, m: Walk, lnew: nat) {
    && Plain(src) && Plain(g0) && Plain(m.g) && Image(src, g0, m.g, m.phi) && Kept(g0, m.g) && FreshLabel(src, g0, lnew)
    && AllLined(src, m)
  }

  lemma DoneUse(src: Nfa, g0: Nfa, m: Walk, lnew: nat, d: nat)
    requires Done(src, g0, m, lnew) && d in ImageSet(m.phi)
    ensures Plain(src) && Plain(g0) && Plain(m.g) && Image(src, g0, m.g, m.phi) && Kept(g0, m.g) && FreshLabel(src, g0, lnew)
    ensures Wired(src) && Wired(m.g) && |m.phi| == |src.vertices| == |src.out| && d < |m.g.vertices| == |m.g.out|
    ensures BackOk(m.phi, m.back) && Endings(src, m.phi)
    ensures Dedup(FlatMap(Outs(src), ClassOf(m.back, d))) == FlatMap(Classes(m.back), Only(m.g.out[d], ImageSet(m.phi)))
  {
    hide Endings, BackOk, ImageSet, BackAt, Shared, SameVertex, Kept, Matched;
  }

  /** All sources of an image read its bytes, and are matches of the new label if it is. */
  lemma SourcesAlike(src: Nfa, g0: Nfa, m: Walk, lnew: nat, d: nat, s: nat)
    requires Done(src, g0, m, lnew) && d in ImageSet(m.phi) && s in ClassOf(m.back, d)
    ensures s < |src.vertices| && d < |m.g.vertices| && (Accepting(src, lnew, s) <==> Accepting(m.g, lnew, d))
    ensures d != 0 ==> forall x: nat :: x < 256 ==> (Permits(src, s, x) <==> Permits(m.g, d, x))
    ensures s < |m.phi| && m.phi[s] == Some(d)
  {
    DoneUse(src, g0, m, lnew, d);
    ClassIn(m.phi, m.back, d, s);
    ZeroIs(m.phi, m.back, s);
    ImagePart(src, g0, m.g, m.phi, s);
    hide Done, AllLined, ClassOf, Image, Kept, FreshLabel, Plain, BackOk, Endings, Wired;
  }

  lemma ClassWithin(src: Nfa, g0: Nfa, m: Walk, lnew: nat, d: nat)
    requires Done(src, g0, m, lnew) && d in ImageSet(m.phi)
    ensures Wired(src) && Within(src, ClassOf(m.back, d)) && ClassOf(m.back, d) != []
  {
    DoneUse(src, g0, m, lnew, d);
    var f := SourceOf(m.phi, d);
    ClassIn(m.phi, m.back, d, f);
    var cs := ClassOf(m.back, d);
    hide Done, ClassOf, Wired, BackOk, Endings;
    forall i | 0 <= i < |cs| ensures cs[i] < |src.vertices| {
      assert cs[i] in cs;
      ClassIn(m.phi, m.back, d, cs[i]);
    }
  }

  /** Together, the sources of an image prefer what their children prefer in order, or to stop. */
  lemma BestOverClass(src: Nfa, g0: Nfa, m: Walk, lnew: nat, d: nat, w: seq<Byte>)
    requires Done(src, g0, m, lnew) && d in ImageSet(m.phi)
    ensures Wired(src) && Within(src, ClassOf(m.back, d)) && d < |m.g.vertices|
    ensures Within(src, FlatMap(Outs(src), ClassOf(m.back, d)))
    ensures BestOver(src, lnew, ClassOf(m.back, d), w)
         == OrElse(BestOf(src, lnew, FlatMap(Outs(src), ClassOf(m.back, d)), w), if Accepting(m.g, lnew, d) then Some(0) else None)
  {
    DoneUse(src, g0, m, lnew, d);
    ClassWithin(src, g0, m, lnew, d);
    var cs := ClassOf(m.back, d);
    forall s | s in cs ensures s < |src.vertices| && (Accepting(src, lnew, s) <==> Accepting(m.g, lnew, d)) {
      SourcesAlike(src, g0, m, lnew, d, s);
    }
    if Accepting(m.g, lnew, d) {
      if |cs| > 1 {
        forall s | s in cs ensures s < |src.out| && src.out[s] == [] {
          ClassEnds(src, g0, m, lnew, d, s);
        }
      }
      hide Done, ClassOf, BackOk, Endings, BestOver, Best, BestOf, FlatMap;
      BestOverMatches(src, lnew, cs, w);
    } else {
      hide Done, ClassOf, BackOk, Endings, BestOver, Best, BestOf, FlatMap;
      BestOverOuts(src, lnew, cs, w);
    }
  }

  lemma ClassEnds(src: Nfa, g0: Nfa, m: Walk, lnew: nat, d: nat, s: nat)
    requires Done(src, g0, m, lnew) && d in ImageSet(m.phi) && s in ClassOf(m.back, d) && |ClassOf(m.back, d)| > 1
    requires d < |m.g.vertices| && Accepting(m.g, lnew, d)
    ensures s < |src.out| && src.out[s] == []
  {
    DoneUse(src, g0, m, lnew, d);
    SourcesAlike(src, g0, m, lnew, d, s);
    var cs := ClassOf(m.back, d);
    var t := if cs[0] == s then cs[1] else cs[0];
    assert t in cs;
    ClassIn(m.phi, m.back, d, s);
    ClassIn(m.phi, m.back, d, t);
    assert s != t;
    hide Done, ClassOf, BackOk, Wired;
  }

  /** Where the images are in line, every image prefers what its sources prefer, the first first. */
  lemma {:induction false} NewPrefers(src: Nfa, g0: Nfa, m: Walk, lnew: nat, d: nat, w: seq<Byte>)
    requires Done(src, g0, m, lnew) && d in ImageSet(m.phi)
    ensures Wired(src) && Wired(m.g) && d < |m.g.vertices| && Within(src, ClassOf(m.back, d))
    ensures Best(m.g, lnew, d, w) == BestOver(src, lnew, ClassOf(m.back, d), w)
    decreases |w|, 1
  {
    DoneUse(src, g0, m, lnew, d);
    BestOverClass(src, g0, m, lnew, d, w);
    var g := m.g;
    var s := ImageSet(m.phi);
    var ds := g.out[d];
    var mine := FlatMap(Outs(src), ClassOf(m.back, d));
    hide Done, ClassOf, BackOk, Endings, BestOver, BestOf, FlatMap, ImageSet, Only, Wired, Plain, Image, Kept, FreshLabel, BestVia;
    NewPrefersList(src, g0, m, lnew, d, w);
    BestOfDedup(src, lnew, mine, w);
  }

  /** The same for the successors of an image. */
  lemma {:induction false} NewPrefersList(src: Nfa, g0: Nfa, m: Walk, lnew: nat, d: nat, w: seq<Byte>)
    requires Done(src, g0, m, lnew) && d in ImageSet(m.phi)
    ensures Wired(src) && Wired(m.g) && d < |m.g.out| && Within(m.g, m.g.out[d])
    ensures Within(src, FlatMap(Classes(m.back), Only(m.g.out[d], ImageSet(m.phi))))
    ensures BestOf(m.g, lnew, m.g.out[d], w) == BestOf(src, lnew, FlatMap(Classes(m.back), Only(m.g.out[d], ImageSet(m.phi))), w)
    decreases |w|, 0
  {
    DoneUse(src, g0, m, lnew, d);
    var g := m.g;
    var ds := g.out[d];
    WithinOut(g, d);
    hide Done, ClassOf, BackOk, Endings, BestOver, BestOf, FlatMap, ImageSet, Only, Wired, Plain, Image, Kept, FreshLabel, BestVia;
    forall x | x in ds && x !in ImageSet(m.phi) ensures x < |g.vertices| && BestVia(g, lnew, x, w) == None {
      OutsideVia(src, g0, m, lnew, d, x, w);
    }
    BestOfOnly(g, lnew, ds, ImageSet(m.phi), w);
    var os := Only(ds, ImageSet(m.phi));
    forall x | x in os
      ensures x < |g.vertices| && Within(src, Classes(m.back)(x)) && BestVia(g, lnew, x, w) == BestOf(src, lnew, Classes(m.back)(x), w)
    {
      OnlyIn(ds, ImageSet(m.phi), x);
      ClassesIs(m.back, x);
      NotInitial(g, d, x);
      ClassWithin(src, g0, m, lnew, x);
      if w == [] {
        ViaNothing(src, g, lnew, x, ClassOf(m.back, x));
      } else {
        NewPrefers(src, g0, m, lnew, x, w[1..]);
        InsideVia(src, g0, m, lnew, x, w);
      }
    }
    BestOfClasses(src, g, lnew, Classes(m.back), os, w);
  }

  lemma WithinOut(g: Nfa, d: nat)
    requires Wired(g) && d < |g.out|
    ensures Within(g, g.out[d])
  {
  }

  lemma OutsideVia(src: Nfa, g0: Nfa, m: Walk, lnew: nat, d: nat, x: nat, w: seq<Byte>)
    requires Done(src, g0, m, lnew) && d in ImageSet(m.phi) && d < |m.g.out| && x in m.g.out[d] && x !in ImageSet(m.phi)
    ensures Wired(m.g) && x < |m.g.vertices| && BestVia(m.g, lnew, x, w) == None
  {
    DoneUse(src, g0, m, lnew, d);
    NotInitial(m.g, d, x);
    hide Done, Plain, Image, Kept, FreshLabel, Wired, Best, ImageSet;
    if w != [] {
      OldFindsNothing(src, g0, m, lnew, x, w[1..]);
    }
  }

  lemma {:induction false} ViaNothing(src: Nfa, g: Nfa, l: nat, x: nat, cs: seq<nat>)
    requires Wired(src) && Wired(g) && x < |g.vertices| && Within(src, cs)
    ensures BestVia(g, l, x, []) == None == BestOf(src, l, cs, [])
    decreases |cs|
  {
    if cs != [] {
      ViaNothing(src, g, l, x, cs[1..]);
    }
  }

  lemma InsideVia(src: Nfa, g0: Nfa, m: Walk, lnew: nat, x: nat, w: seq<Byte>)
    requires Done(src, g0, m, lnew) && x in ImageSet(m.phi) && x != 0 && w != []
    requires Wired(src) && Wired(m.g) && x < |m.g.vertices| && Within(src, ClassOf(m.back, x))
    requires Best(m.g, lnew, x, w[1..]) == BestOver(src, lnew, ClassOf(m.back, x), w[1..])
    ensures BestVia(m.g, lnew, x, w) == BestOf(src, lnew, ClassOf(m.back, x), w)
  {
    var cs := ClassOf(m.back, x);
    var yes := Permits(m.g, x, w[0]);
    forall s | s in cs ensures s < |src.vertices| && (Permits(src, s, w[0]) <==> yes) {
      SourcesAlike(src, g0, m, lnew, x, s);
    }
    hide Done, ClassOf, ImageSet, Wired, BestOver, Best, BestOf;
    BestOfSame(src, lnew, cs, w, yes);
  }

  /** Every label but the new one prefers what it did, from every vertex that was there. */
  ghost predicate OthersPrefer(g0: Nfa, g: Nfa, lnew: nat) {
    && Wired(g0) && Wired(g) && |g0.vertices| <= |g.vertices|
    && forall l: nat, v: nat, w: seq<Byte> :: l != lnew && v < |g0.vertices| ==> Best(g, l, v, w) == Best(g0, l, v, w)
  }

  /** The new label prefers what the source prefers. */
  ghost predicate NewPrefersSame(src: Nfa, g: Nfa, lnew: nat) {
    && Wired(src) && Wired(g)
    && forall w: seq<Byte> :: Best(g, lnew, 0, w) == Best(src, lnew, 0, w)
  }

  lemma OthersKept(src: Nfa, g0: Nfa, g: Nfa, phi: seq<Option<nat>>, visited: set<(nat, nat)>, lnew: nat)
    requires Merged(src, g0, g, phi, visited, []) && FreshLabel(src, g0, lnew) && OldInOrder(g0, g)
    ensures OthersPrefer(g0, g, lnew)
  {
    hide FreshLabel, OldInOrder, Best, Tracked, Queued;
    forall l: nat, v: nat, w: seq<Byte> | l != lnew && v < |g0.vertices| ensures Best(g, l, v, w) == Best(g0, l, v, w) {
      OldPrefers(src, g0, g, phi, lnew, l, v, w);
    }
  }

  lemma NewKept(src: Nfa, g0: Nfa, m: Walk, lnew: nat)
    requires Merged(src, g0, m.g, m.phi, m.visited, []) && FreshLabel(src, g0, lnew) && InLine(src, |g0.vertices|, m)
    ensures NewPrefersSame(src, m.g, lnew)
  {
    EndsLined(src, g0, m);
    hide FreshLabel, InLine, Best, Tracked, Queued, AllLined, Matched, BackAt, Shared, SameVertex, Kept;
    assert Done(src, g0, m, lnew);
    assert m.phi[0] == Some(0);
    HasImage(m.phi, 0, 0);
    forall w: seq<Byte> ensures Best(m.g, lnew, 0, w) == Best(src, lnew, 0, w) {
      NewPrefers(src, g0, m, lnew, 0, w);
      assert ClassOf(m.back, 0) == [0];
      assert [0][1..] == [];
      assert BestOver(src, lnew, [0], w) == OrElse(Best(src, lnew, 0, w), BestOver(src, lnew, [], w));
    }
  }

  // ----- the order of the old successors -----

  lemma OrderFirst(g0: Nfa)
    requires Wired(g0)
    ensures OldInOrder(g0, g0)
  {
    forall h: nat | h < |g0.out| ensures Only(g0.out[h], Numbers(|g0.out|)) == g0.out[h] {
      OnlyAll(g0.out[h], Numbers(|g0.out|));
    }
  }

  lemma {:induction false} OnlyAll(ds: seq<nat>, s: set<nat>)
    requires forall i :: 0 <= i < |ds| ==> ds[i] in s
    ensures Only(ds, s) == ds
    decreases |ds|
  {
    if ds != [] {
      OnlyAll(ds[1..], s);
      assert ds == [ds[0]] + ds[1..];
    }
  }

  /** An edge that is added leads to a new vertex, so that the old ones stay in order. */
  lemma OrderStep(g0: Nfa, g: Nfa, g1: Nfa, p: nat, d: nat, di: nat)
    requires Wired(g0) && Wired(g) && OldInOrder(g0, g) && Even(g1) && p < |g1.out| && d < |g1.ins|
    requires g1.out == g.out || g1.out == g.out + [[]]
    requires d !in g1.out[p] ==> d >= |g0.vertices|
    ensures OldInOrder(g0, EdgeTo(g1, p, d, di))
  {
    var g' := EdgeTo(g1, p, d, di);
    forall h: nat | h < |g0.out| ensures h < |g'.out| && Only(g'.out[h], Numbers(|g0.out|)) == g0.out[h] {
      assert g1.out[h] == g.out[h];
      if h == p && d !in g1.out[p] {
        OnlyOther(g.out[h], Numbers(|g0.out|), di, d);
      }
    }
  }

  // ----- every round of the loop -----

  /** No edge leads from elsewhere, or again, to a vertex with one in edge: in the store every edge is listed once. */
  lemma StoreIsSingle(s: Store)
    requires s.Valid()
    ensures Single(s.Value())
  {
    var g := s.Value();
    forall p: nat, i: nat, q: nat, j: nat |
      p < |g.out| && i < |g.out[p]| && q < |g.out| && j < |g.out[q]| && g.out[p][i] == g.out[q][j] && OneIn(g, g.out[p][i])
      ensures p == q && i == j
    {
      SameEdge(s, p, i, q, j);
    }
  }

  lemma SameEdge(s: Store, p: nat, i: nat, q: nat, j: nat)
    requires s.Valid()
    requires p < |s.outs| && i < |s.outs[p]| && q < |s.outs| && j < |s.outs[q]|
    requires s.tails[s.outs[p][i]] == s.tails[s.outs[q][j]] && |s.ins[s.tails[s.outs[p][i]]]| == 1
    ensures p == q && i == j
  {
    var e, f := s.outs[p][i], s.outs[q][j];
    var d := s.tails[e];
    assert Lists(s.ins[d], s.tails, d) && Lists(s.outs[p], s.heads, p) && Lists(s.outs[q], s.heads, q);
    assert e in s.ins[d] && f in s.ins[d];
    assert e == f;
  }

  ghost predicate Works(src: Nfa, g0: Nfa, m: Walk) {
    Working(src, g0, m.g, m.phi, m.back, m.visited, m.edges)
  }

  lemma WorksFits(src: Nfa, g0: Nfa, m: Walk)
    requires Works(src, g0, m)
    ensures Fits(src, m) && Even(src) && Even(m.g) && |m.phi| == |src.vertices|
  {
    hide Kept, Tracked, SameVertex, BackAt, Shared, Matched;
  }

  /** The whole of a walk that has come to m. */
  ghost predicate Going(src: Nfa, g0: Nfa, m: Walk) {
    && Works(src, g0, m) && InTurn(m.visited, m.edges) && Nested(src, m.edges) && OldInOrder(g0, m.g)
    && (Untangled(src) ==> InLine(src, |g0.vertices|, m))
  }

  lemma GoingUse(src: Nfa, g0: Nfa, m: Walk)
    requires Going(src, g0, m)
    ensures Works(src, g0, m) && InTurn(m.visited, m.edges) && Nested(src, m.edges) && OldInOrder(g0, m.g)
    ensures Untangled(src) ==> InLine(src, |g0.vertices|, m)
  {
    hide Works, InTurn, Nested, OldInOrder, Untangled, InLine;
  }

  lemma WorksUse(src: Nfa, g0: Nfa, m: Walk)
    requires Works(src, g0, m)
    ensures Plain(src) && Plain(g0) && Plain(m.g) && Image(src, g0, m.g, m.phi) && Kept(g0, m.g)
    ensures Tracked(src, m.g, m.phi, m.visited) && Queued(src, m.phi, m.visited, m.edges)
  {
    hide Plain, Image, Kept, Tracked, Queued, Inverted;
  }

  lemma GoingWaits(src: Nfa, g0: Nfa, m: Walk, h: nat, i: nat)
    requires Going(src, g0, m) && Fits(src, m) && Untangled(src) && Single(m.g)
    requires m.edges != [] && m.edges[|m.edges| - 1] == (h, i) && (h, i) !in m.visited
    ensures Waits(src, g0, m, h, i)
  {
    GoingUse(src, g0, m);
    WorksUse(src, g0, m);
    TopSeen(m.visited, m.edges, h, i);
    assert m.phi[m.edges[|m.edges| - 1].0].Some?;
    hide Going, Works, InTurn, InLine, Untangled, Single, SeenTo, OldInOrder, Plain, Image, Kept, Tracked, Queued, Inverted, Nested;
  }

  /** After one round the images are in line, if they were and the source is untangled. */
  lemma StepInLine(src: Nfa, g0: Nfa, m: Walk)
    requires Going(src, g0, m) && Fits(src, m) && Untangled(src) && Single(m.g)
    requires m.edges != [] && m.edges[|m.edges| - 1] !in m.visited
    ensures InLine(src, |g0.vertices|, Stepped(src, m))
  {
    hide *;
    var (h, i) := m.edges[|m.edges| - 1];
    var m' := Stepped(src, m);
    GoingWaits(src, g0, m, h, i);
    WaitsUse(src, g0, m, h, i);
    WaitsLast(src, g0, m, h, i);
    SteppedTo(src, m, h, i);
    FitsBack(src, m);
    var t, p := src.out[h][i], m.phi[h].value;
    var x := PlaceOf(src, m.g, m.phi, m.back, m.pos, p, t);
    AfterBy(src, m, m', h, i, x.d, x.di);
    ChildInLine(src, g0, m, m', h, i);
    SeatedStep(src, |g0.vertices|, m, m', h, i, x.d, x.di);
  }

  lemma AfterBy(src: Nfa, m: Walk, m': Walk, h: nat, i: nat, d: nat, di: nat)
    requires h < |m.phi| && m.phi[h].Some? && h < |src.out| && i < |src.out[h]| && src.out[h][i] < |m.phi|
    requires m'.phi == m.phi[src.out[h][i] := Some(d)] && m'.pos == m.pos[m.phi[h].value := di] && m'.visited == m.visited + {(h, i)}
    requires m'.back == m.back[d := (if d in m.back then m.back[d] else []) + [src.out[h][i]]]
    ensures After(src, m, m', h, i, d, di)
  {
  }

  lemma GoingFits(src: Nfa, g0: Nfa, m: Walk)
    requires Going(src, g0, m)
    ensures Even(src) && Even(m.g) && |m.phi| == |src.vertices| && InTurn(m.visited, m.edges) && OldInOrder(g0, m.g)
  {
    GoingUse(src, g0, m);
    WorksFits(src, g0, m);
    hide Going, Works, InTurn, OldInOrder, InLine, Untangled, Nested;
  }

  lemma SkipInLine(src: Nfa, n0: nat, m: Walk, edges: seq<(nat, nat)>)
    requires InLine(src, n0, m)
    ensures InLine(src, n0, m.(edges := edges))
  {
    InLineUse(src, n0, m);
    var m' := m.(edges := edges);
    SkipLines(src, m, edges);
    SkipFinished(src, m, edges);
    SkipPlaced(src, m, edges);
    hide InLine, BackOk, Kindred, Finished, Lines, Placed, Trunked, Endings;
  }

  lemma SkipLines(src: Nfa, m: Walk, edges: seq<(nat, nat)>)
    requires Lines(src, m)
    ensures Lines(src, m.(edges := edges))
  {
    hide Lined, ClassOf, SeenTo;
    var m' := m.(edges := edges);
    forall h: nat, n: nat | IsLast(m', h) && h < |src.out| && n <= |src.out[h]| && SeenTo(m'.visited, h, n)
      ensures Lined(src, m'.g, m'.phi, m'.back, h, n)
    {
      assert IsLast(m, h);
    }
  }

  lemma SkipFinished(src: Nfa, m: Walk, edges: seq<(nat, nat)>)
    requires Finished(src, m)
    ensures Finished(src, m.(edges := edges))
  {
    hide ClassOf;
    var m' := m.(edges := edges);
    forall s: nat | s < |m'.phi| && m'.phi[s].Some? && s < |src.out| ensures AllVisited(src, m', s) || IsLast(m', s) {
      assert AllVisited(src, m, s) || IsLast(m, s);
    }
  }

  lemma SkipPlaced(src: Nfa, m: Walk, edges: seq<(nat, nat)>)
    requires Placed(src, m)
    ensures Placed(src, m.(edges := edges))
  {
    hide Steady, NoneBehind;
  }

  /** The old successors stay in their order: whatever is put among them is new. */
  lemma StepInOrder(src: Nfa, g0: Nfa, m: Walk)
    requires Going(src, g0, m) && Fits(src, m) && m.edges != [] && m.edges[|m.edges| - 1] !in m.visited
    requires Wired(Stepped(src, m).g) && Kept(g0, Stepped(src, m).g)
    ensures OldInOrder(g0, Stepped(src, m).g)
  {
    var (h, i) := m.edges[|m.edges| - 1];
    GoingFits(src, g0, m);
    GoingKept(src, g0, m);
    SteppedTo(src, m, h, i);
    FitsBack(src, m);
    var t, p := src.out[h][i], m.phi[h].value;
    var x := PlaceOf(src, m.g, m.phi, m.back, m.pos, p, t);
    PlaceIs(src, m, p, t);
    hide Going, PlaceOf, PushAll, Sources, Kept, OldInOrder, Inserted;
    OldAmongOld(g0, m.g, x.g, p, x.d, x.di);
    OrderStep(g0, m.g, x.g, p, x.d, x.di);
  }

  lemma FitsBack(src: Nfa, m: Walk)
    requires Fits(src, m)
    ensures forall d: nat :: d in m.back ==> m.back[d] != [] && m.back[d][0] < |src.ins|
  {
    hide Wired;
  }

  lemma PlaceIs(src: Nfa, m: Walk, p: nat, t: nat)
    requires Fits(src, m) && t < |m.phi| && p < |m.g.out|
    ensures var x := PlaceOf(src, m.g, m.phi, m.back, m.pos, p, t);
            && (x.g.out == m.g.out || x.g.out == m.g.out + [[]]) && Even(x.g) && p < |x.g.out| && x.d < |x.g.ins| && Wired(m.g)
            && x.g.out[p] == m.g.out[p]
  {
    hide Mergeable, NextMergeable, IndexOf;
  }

  lemma GoingKept(src: Nfa, g0: Nfa, m: Walk)
    requires Going(src, g0, m)
    ensures Wired(g0) && Wired(m.g) && Kept(g0, m.g)
  {
    GoingUse(src, g0, m);
    hide Going, Kept, Image, Tracked, Queued, Inverted, InTurn, OldInOrder, InLine, Untangled, Nested, Matched;
  }

  lemma OldAmongOld(g0: Nfa, g: Nfa, g1: Nfa, p: nat, d: nat, di: nat)
    requires Wired(g0) && Wired(g) && Kept(g0, g) && Even(g1) && p < |g1.out| && d < |g1.ins| && p < |g.out| && g1.out[p] == g.out[p]
    requires Wired(EdgeTo(g1, p, d, di)) && Kept(g0, EdgeTo(g1, p, d, di))
    ensures d !in g1.out[p] ==> d >= |g0.vertices|
  {
    var g' := EdgeTo(g1, p, d, di);
    if d !in g1.out[p] {
      InsertedIn(g1.out[p], di, d, d);
      assert d in g'.out[p];
    }
  }

  lemma GoingStep(src: Nfa, g0: Nfa, m: Walk)
    requires Going(src, g0, m) && Fits(src, m) && Single(m.g) && m.edges != [] && m.edges[|m.edges| - 1] !in m.visited
    requires Works(src, g0, Stepped(src, m))
    ensures Going(src, g0, Stepped(src, m))
  {
    hide *;
    var m' := Stepped(src, m);
    var (h, i) := m.edges[|m.edges| - 1];
    GoingUse(src, g0, m);
    WorksKept(src, g0, m');
    SteppedTo(src, m, h, i);
    var t := src.out[h][i];
    TurnStep(m.visited, m.edges, h, i, t, |src.out[t]|);
    assert t in src.out[h];
    NestedStep(src, m.edges, h, i, t, |src.out[t]|);
    StepInOrder(src, g0, m);
    if Untangled(src) {
      StepInLine(src, g0, m);
    }
    GoingBy(src, g0, m');
  }

  lemma GoingBy(src: Nfa, g0: Nfa, m: Walk)
    requires Works(src, g0, m) && InTurn(m.visited, m.edges) && Nested(src, m.edges) && OldInOrder(g0, m.g)
    requires Untangled(src) ==> InLine(src, |g0.vertices|, m)
    ensures Going(src, g0, m)
  {
    hide Works, InTurn, Nested, OldInOrder, Untangled, InLine;
  }

  lemma WorksKept(src: Nfa, g0: Nfa, m: Walk)
    requires Works(src, g0, m)
    ensures Wired(g0) && Wired(m.g) && Kept(g0, m.g)
  {
    hide Kept, Image, Tracked, Queued, Inverted, Matched;
  }

  lemma GoingSkip(src: Nfa, g0: Nfa, m: Walk)
    requires Going(src, g0, m) && Fits(src, m) && m.edges != [] && m.edges[|m.edges| - 1] in m.visited
    requires Works(src, g0, Stepped(src, m))
    ensures Going(src, g0, Stepped(src, m))
  {
    hide *;
    var (h, i) := m.edges[|m.edges| - 1];
    var rest := m.edges[..|m.edges| - 1];
    GoingUse(src, g0, m);
    SteppedOver(src, m, h, i);
    TurnSkip(m.visited, m.edges);
    NestedSkip(src, m.edges);
    if Untangled(src) {
      SkipInLine(src, |g0.vertices|, m, rest);
    }
    GoingBy(src, g0, Stepped(src, m));
  }

  /** The walk begins with the edges of the initial vertex. */
  function First(src: Nfa, g0: Nfa): Walk
    requires 0 < |src.out|
  {
    Walk(g0, seq(|src.out|, i => if i == 0 then Some(0) else None), map[], map[], {}, PushAll([], 0, |src.out[0]|))
  }

  lemma FirstParts(src: Nfa, g0: Nfa)
    requires 0 < |src.out|
    ensures var m := First(src, g0);
            && m.g == g0 && |m.phi| == |src.out| && m.phi[0] == Some(0) && (forall s: nat :: 0 < s < |m.phi| ==> m.phi[s].None?)
            && m.back == map[] && m.pos == map[] && m.visited == {} && m.edges == PushAll([], 0, |src.out[0]|)
            && ClassOf(m.back, 0) == [0]
  {
    hide PushAll;
  }

  lemma FirstInLine(src: Nfa, g0: Nfa)
    requires Plain(src) && Plain(g0)
    ensures 0 < |src.out| && InLine(src, |g0.vertices|, First(src, g0))
  {
    hide *;
    PlainWired(src);
    PlainWired(g0);
    var m := First(src, g0);
    FirstParts(src, g0);
    KinSelf(src, 0);
    FirstTrunk(src, m.phi, |g0.vertices|);
    FirstBack(src, m);
    FirstFinished(src, m);
    FirstPlaced(src, m);
    forall h: nat, n: nat | IsLast(m, h) && h < |src.out| && n <= |src.out[h]| && SeenTo(m.visited, h, n)
      ensures Lined(src, m.g, m.phi, m.back, h, n)
    {
      FirstLine(src, g0, m, h, n);
    }
    InLineBy(src, |g0.vertices|, m);
  }

  lemma FirstTrunk(src: Nfa, phi: seq<Option<nat>>, n0: nat)
    requires 0 < |src.out| && 0 < |phi| && forall s: nat :: 0 < s < |phi| ==> phi[s].None?
    ensures Trunked(src, n0, phi)
  {
    assert Path(src, [0]);
    assert OnTrunk(src, 0);
    hide OnTrunk;
  }

  lemma FirstBack(src: Nfa, m: Walk)
    requires 0 < |src.out| && Kin(src, 0, 0) && 0 < |m.phi| && m.phi[0] == Some(0) && (forall s: nat :: 0 < s < |m.phi| ==> m.phi[s].None?)
    requires m.back == map[]
    ensures BackOk(m.phi, m.back) && Kindred(src, m.phi) && Endings(src, m.phi)
  {
    hide Kin;
  }

  lemma FirstFinished(src: Nfa, m: Walk)
    requires 0 < |m.phi| && m.phi[0] == Some(0) && (forall s: nat :: 0 < s < |m.phi| ==> m.phi[s].None?)
    ensures Finished(src, m)
  {
    hide AllVisited;
    assert IsLast(m, 0);
  }

  lemma FirstPlaced(src: Nfa, m: Walk)
    requires m.pos == map[] && m.visited == {}
    ensures Placed(src, m)
  {
    hide Steady, NoneBehind;
  }

  lemma FirstLine(src: Nfa, g0: Nfa, m: Walk, h: nat, n: nat)
    requires Plain(src) && Plain(g0) && m.g == g0 && |m.phi| == |src.out| && 0 < |m.phi| && m.phi[0] == Some(0)
    requires (forall s: nat :: 0 < s < |m.phi| ==> m.phi[s].None?) && ClassOf(m.back, 0) == [0] && m.visited == {}
    requires IsLast(m, h) && h < |src.out| && n <= |src.out[h]| && SeenTo(m.visited, h, n)
    ensures Lined(src, m.g, m.phi, m.back, h, n)
  {
    assert h == 0;
    assert SeenTo(m.visited, h, 0);
    SeenOnce(m.visited, h, n, 0);
    forall x | x in g0.out[0] ensures x !in ImageSet(m.phi) {
      NotInitial(g0, 0, x);
    }
    hide Plain, ClassOf, IsLast, SeenTo, ImageSet;
    LinedAlone(src, m.g, m.phi, m.back, 0);
  }

  lemma GoingFirst(src: Nfa, g0: Nfa)
    requires Plain(src) && Plain(g0) && 0 < |src.out| && Works(src, g0, First(src, g0))
    ensures Going(src, g0, First(src, g0))
  {
    hide *;
    PlainWired(src);
    PlainWired(g0);
    FirstParts(src, g0);
    FirstInLine(src, g0);
    TurnFirst(|src.out[0]|);
    NestedFirst(src, |src.out[0]|);
    OrderFirst(g0);
    GoingBy(src, g0, First(src, g0));
  }

  /** What the merged automaton prefers, when no edge waits. */
  lemma GoingEnd(src: Nfa, g0: Nfa, m: Walk, lnew: nat)
    requires Going(src, g0, m) && m.edges == [] && FreshLabel(src, g0, lnew)
    ensures OthersPrefer(g0, m.g, lnew)
    ensures Untangled(src) ==> NewPrefersSame(src, m.g, lnew)
  {
    hide FreshLabel, InTurn, OldInOrder, InLine, Untangled, Merged, Inverted, OthersPrefer, NewPrefersSame;
    OthersKept(src, g0, m.g, m.phi, m.visited, lnew);
    if Untangled(src) {
      NewKept(src, g0, m, lnew);
    }
  }

  // ----- the whole walk -----

  /** Each round follows from the one before. */
  ghost predicate Rounds(src: Nfa, ms: seq<Walk>) {
    ms != [] && forall i: nat :: i < |ms| - 1 ==> Fits(src, ms[i]) && ms[i].edges != [] && ms[i + 1] == Stepped(src, ms[i])
  }

  /** The walk from the first round to the last leaves g. */
  ghost predicate MergesTo(src: Nfa, g0: Nfa, g: Nfa) {
    0 < |src.out| && exists ms: seq<Walk> :: Rounds(src, ms) && ms[0] == First(src, g0) && ms[|ms| - 1].edges == [] && ms[|ms| - 1].g == g
  }

  lemma {:induction false} SameRounds(src: Nfa, a: seq<Walk>, b: seq<Walk>, i: nat)
    requires Rounds(src, a) && Rounds(src, b) && a[0] == b[0] && i < |a| && i < |b|
    ensures a[i] == b[i]
    decreases i
  {
    hide Stepped, Fits;
    if i > 0 {
      SameRounds(src, a, b, i - 1);
      assert a[i - 1 + 1] == Stepped(src, a[i - 1]) && b[i - 1 + 1] == Stepped(src, b[i - 1]);
    }
  }

  lemma RoundsOf(src: Nfa, g0: Nfa, g: Nfa) returns (ms: seq<Walk>)
    requires MergesTo(src, g0, g)
    ensures 0 < |src.out| && ms != [] && Rounds(src, ms) && ms[0] == First(src, g0) && ms[|ms| - 1].edges == [] && ms[|ms| - 1].g == g
  {
    ms :| Rounds(src, ms) && ms[0] == First(src, g0) && ms[|ms| - 1].edges == [] && ms[|ms| - 1].g == g;
    hide Stepped, Fits, First;
  }

  /** A walk that has ended goes no further. */
  lemma RoundsEnd(src: Nfa, ms: seq<Walk>, i: nat)
    requires Rounds(src, ms) && i < |ms| && ms[i].edges == []
    ensures i == |ms| - 1
  {
    hide Stepped, Fits;
  }

  /** There is one outcome. */
  lemma MergesToOne(src: Nfa, g0: Nfa, g: Nfa, g': Nfa)
    requires MergesTo(src, g0, g) && MergesTo(src, g0, g')
    ensures g == g'
  {
    hide *;
    var a := RoundsOf(src, g0, g);
    var b := RoundsOf(src, g0, g');
    var i := if |a| <= |b| then |a| - 1 else |b| - 1;
    SameRounds(src, a, b, i);
    if |a| <= |b| {
      RoundsEnd(src, b, i);
    } else {
      RoundsEnd(src, a, i);
    }
  }

  lemma RoundsMore(src: Nfa, ms: seq<Walk>)
    requires Rounds(src, ms) && Fits(src, ms[|ms| - 1]) && ms[|ms| - 1].edges != []
    ensures Rounds(src, ms + [Stepped(src, ms[|ms| - 1])])
  {
    hide Stepped, Fits;
    var more := ms + [Stepped(src, ms[|ms| - 1])];
    forall i: nat | i < |more| - 1 ensures Fits(src, more[i]) && more[i].edges != [] && more[i + 1] == Stepped(src, more[i]) {
      if i < |ms| - 1 {
        assert ms[i + 1] == Stepped(src, ms[i]);
      }
    }
  }

  // ----- for the method -----

  lemma SteppedTo(src: Nfa, m: Walk, h: nat, i: nat)
    requires Fits(src, m) && m.edges != [] && m.edges[|m.edges| - 1] == (h, i) && (h, i) !in m.visited
    ensures Even(src) && Even(m.g) && h < |src.out| && i < |src.out[h]| && src.out[h][i] < |src.out|
    ensures |m.phi| == |src.vertices| && h < |m.phi| && m.phi[h].Some? && m.phi[h].value < |m.g.out|
    ensures forall k :: 0 <= k < |m.g.out[m.phi[h].value]| ==> m.g.out[m.phi[h].value][k] < |m.g.vertices|
    ensures var t, p := src.out[h][i], m.phi[h].value;
            var x := PlaceOf(src, m.g, m.phi, m.back, m.pos, p, t);
            && p < |x.g.out| && x.d < |x.g.ins|
            && Stepped(src, m)
               == Walk(EdgeTo(x.g, p, x.d, x.di), m.phi[t := Some(x.d)],
                       m.back[x.d := (if x.d in m.back then m.back[x.d] else []) + [t]], m.pos[p := x.di], m.visited + {(h, i)},
                       PushAll(m.edges[..|m.edges| - 1], t, |src.out[t]|))
  {
    hide PushAll, EdgeTo, Mergeable, NextMergeable, IndexOf;
  }

  lemma SteppedOver(src: Nfa, m: Walk, h: nat, i: nat)
    requires Fits(src, m) && m.edges != [] && m.edges[|m.edges| - 1] == (h, i) && (h, i) in m.visited
    ensures Stepped(src, m) == m.(edges := m.edges[..|m.edges| - 1])
  {
  }

  lemma WorksIs(src: Nfa, g0: Nfa, m: Walk)
    requires Working(src, g0, m.g, m.phi, m.back, m.visited, m.edges)
    ensures Works(src, g0, m)
  {
  }

  lemma GoingWorks(src: Nfa, g0: Nfa, m: Walk)
    requires Going(src, g0, m)
    ensures Working(src, g0, m.g, m.phi, m.back, m.visited, m.edges) && Works(src, g0, m) && Fits(src, m)
  {
    WorksFits(src, g0, m);
    hide Merged, Inverted, InTurn, OldInOrder, InLine, Untangled;
  }

  lemma FirstIs(src: Nfa, g0: Nfa, m: Walk)
    requires 0 < |src.out| && |m.phi| == |src.out| && (forall i :: 0 <= i < |m.phi| ==> m.phi[i] == if i == 0 then Some(0) else None)
    requires m.g == g0 && m.back == map[] && m.pos == map[] && m.visited == {} && m.edges == PushAll([], 0, |src.out[0]|)
    ensures m == First(src, g0)
  {
    assert m.phi == First(src, g0).phi;
  }

  lemma RoundsOne(src: Nfa, m: Walk)
    ensures Rounds(src, [m])
  {
  }

  lemma MergesToBy(src: Nfa, g0: Nfa, ms: seq<Walk>)
    requires 0 < |src.out| && Rounds(src, ms) && ms != [] && ms[0] == First(src, g0) && ms[|ms| - 1].edges == []
    ensures MergesTo(src, g0, ms[|ms| - 1].g)
  {
    hide First, Rounds;
  }
}
