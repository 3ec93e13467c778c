/** NFAOptimizer::pruneBranches (src/lib/nfaoptimizer.cpp:202-253). */
module Pruning {
  import opened Basics
  import opened Automata
  import opened Graphs

  /** All match vertices belong to pattern l. */
  ghost predicate SinglePattern(g: Nfa, l: nat) {
    forall v :: 0 <= v < |g.vertices| && g.vertices[v].isMatch ==> g.vertices[v].lbl == l
  }

  /** On byte x, a match vertex among the first n successors of h comes first. */
  ghost predicate Taken(g: Nfa, h: nat, n: nat, x: Byte)
    requires Wired(g) && h < |g.out| && n <= |g.out[h]|
  {
    exists k: nat :: k < n && g.vertices[g.out[h][k]].isMatch && Permits(g, g.out[h][k], x)
  }

  /** The i-th edge of h has a byte that no match vertex before it takes. */
  ghost predicate Useful(g: Nfa, h: nat, i: nat)
    requires Wired(g) && h < |g.out| && i < |g.out[h]|
  {
    exists x: Byte :: Permits(g, g.out[h][i], x) && !Taken(g, h, i, x)
  }

  ghost predicate Pruned(g: Nfa, h: nat)
    requires Wired(g) && h < |g.out|
  {
    PrunedUpTo(g, h, |g.out[h]|)
  }

  /** The two automata prefer the same matches from everywhere. */
  ghost predicate SameBest(g: Nfa, g': Nfa, l: nat)
    requires Wired(g) && Wired(g') && |g.vertices| == |g'.vertices|
  {
    forall v: nat, w: seq<Byte> :: v < |g.vertices| ==> Best(g', l, v, w) == Best(g, l, v, w)
  }

  /** Every edge was there before. */
  ghost predicate Thinner(g: Nfa, g': Nfa)
    requires Wired(g) && Wired(g')
  {
    forall h: nat, t: nat :: h < |g'.out| && t in g'.out[h] ==> h < |g.out| && t in g.out[h]
  }

  /** Without the i-th edge of h. */
  ghost predicate LosesEdge(g: Nfa, g': Nfa, h: nat, i: nat)
    requires Wired(g) && Wired(g')
  {
    && h < |g.out| && i < |g.out[h]|
    && g'.vertices == g.vertices
    && g'.out == g.out[h := Without(g.out[h], i)]
  }

  /** With the same preferences one byte on, the same successors are worth the same. */
  lemma {:induction false} SameBestOf(g: Nfa, g': Nfa, l: nat, ts: seq<nat>, w: seq<Byte>)
    requires Wired(g) && Wired(g') && g'.vertices == g.vertices && Within(g, ts)
    requires w != [] ==> forall v: nat :: v < |g.vertices| ==> Best(g', l, v, w[1..]) == Best(g, l, v, w[1..])
    ensures Within(g', ts) && BestOf(g', l, ts, w) == BestOf(g, l, ts, w)
    decreases |ts|
  {
    if ts != [] {
      var t := ts[0];
      assert BestVia(g', l, t, w) == BestVia(g, l, t, w);
      SameBestOf(g, g', l, ts[1..], w);
    }
  }

  lemma {:induction false} RedundantEdge(g: Nfa, g': Nfa, l: nat, h: nat, i: nat, w: seq<Byte>)
    requires Wired(g) && Wired(g') && SinglePattern(g, l) && LosesEdge(g, g', h, i)
    requires forall x: Byte :: Permits(g, g.out[h][i], x) ==> Taken(g, h, i, x)
    ensures forall v: nat :: v < |g.vertices| ==> Best(g', l, v, w) == Best(g, l, v, w)
    decreases |w|
  {
    if w != [] {
      RedundantEdge(g, g', l, h, i, w[1..]);
    }
    forall v: nat | v < |g.vertices| ensures Best(g', l, v, w) == Best(g, l, v, w) {
      SameBestOf(g, g', l, g'.out[v], w);
      if v == h {
        NeverTried(g, l, h, i, w);
      }
    }
  }

  /** The edge behind a match vertex is never tried on the bytes that vertex takes. */
  lemma NeverTried(g: Nfa, l: nat, h: nat, i: nat, w: seq<Byte>)
    requires Wired(g) && SinglePattern(g, l) && h < |g.out| && i < |g.out[h]|
    requires forall x: Byte :: Permits(g, g.out[h][i], x) ==> Taken(g, h, i, x)
    ensures Within(g, Without(g.out[h], i)) && BestOf(g, l, Without(g.out[h], i), w) == BestOf(g, l, g.out[h], w)
  {
    var ts := g.out[h];
    var a, t, b := ts[..i], ts[i], ts[i + 1..];
    assert ts == a + ([t] + b);
    assert Without(ts, i) == a + b;
    BestOfAppend(g, l, a, [t] + b, w);
    BestOfAppend(g, l, a, b, w);
    assert ([t] + b)[1..] == b;
    if BestVia(g, l, t, w).Some? {
      var k: nat :| k < i && g.vertices[ts[k]].isMatch && Permits(g, ts[k], w[0]);
      assert Best(g, l, ts[k], w[1..]).Some?;
      assert a[k] == ts[k];
      BestOfSome(g, l, a, w, k);
    }
  }

  /** What has been collected about the match vertices among the first n successors of h. */
  ghost predicate Collected(g: Nfa, h: nat, n: nat, mbs: set<Byte>)
    requires Wired(g) && h < |g.out| && n <= |g.out[h]|
  {
    forall x: Byte :: x in mbs <==> Taken(g, h, n, x)
  }

  function BytesOf(t: Transition): (bs: set<Byte>)
    ensures forall x: Byte :: x in bs <==> t.Permits(x)
  {
    set x: nat | 0 <= x < 256 && t.Permits(x) :: x
  }

  /** Every edge among the first n of h has a byte of its own. */
  ghost predicate PrunedUpTo(g: Nfa, h: nat, n: nat)
    requires Wired(g) && h < |g.out| && n <= |g.out[h]|
  {
    forall i: nat :: i < n ==> Useful(g, h, i)
  }

  /** Dropping a later edge changes nothing about the first n. */
  lemma PrefixKept(g: Nfa, g': Nfa, h: nat, i: nat, mbs: set<Byte>)
    requires Wired(g) && Wired(g') && LosesEdge(g, g', h, i)
    requires PrunedUpTo(g, h, i) && Collected(g, h, i, mbs)
    ensures PrunedUpTo(g', h, i) && Collected(g', h, i, mbs)
  {
    assert forall k: nat :: k < i ==> g'.out[h][k] == g.out[h][k];
    forall n: nat, x: Byte | n <= i ensures Taken(g', h, n, x) <==> Taken(g, h, n, x) {
      if Taken(g, h, n, x) {
        var k: nat :| k < n && g.vertices[g.out[h][k]].isMatch && Permits(g, g.out[h][k], x);
        assert g'.out[h][k] == g.out[h][k];
      }
      if Taken(g', h, n, x) {
        var k: nat :| k < n && g'.vertices[g'.out[h][k]].isMatch && Permits(g', g'.out[h][k], x);
        assert g'.out[h][k] == g.out[h][k];
      }
    }
    forall j: nat | j < i ensures Useful(g', h, j) {
      assert Useful(g, h, j);
      var x: Byte :| Permits(g, g.out[h][j], x) && !Taken(g, h, j, x);
      assert Permits(g', g'.out[h][j], x) && !Taken(g', h, j, x);
    }
  }

  /** One more successor has been looked at, and kept. */
  lemma CollectStep(g: Nfa, h: nat, i: nat, mbs: set<Byte>, obs: set<Byte>)
    requires Wired(g) && h < |g.out| && i < |g.out[h]| && Collected(g, h, i, mbs)
    requires obs == BytesOf(g.vertices[g.out[h][i]].trans) - mbs
    ensures Collected(g, h, i + 1, if g.vertices[g.out[h][i]].isMatch then mbs + obs else mbs)
  {
    forall x: Byte
      ensures Taken(g, h, i + 1, x)
         <==> Taken(g, h, i, x) || (g.vertices[g.out[h][i]].isMatch && Permits(g, g.out[h][i], x))
    {
      if Taken(g, h, i, x) {
        var k: nat :| k < i && g.vertices[g.out[h][k]].isMatch && Permits(g, g.out[h][k], x);
        assert k < i + 1;
      }
    }
  }

  /** Removing an edge of h leaves the other vertices as they are. */
  lemma OthersKept(g: Nfa, g': Nfa, h: nat, i: nat, u: nat)
    requires Wired(g) && Wired(g') && LosesEdge(g, g', h, i) && u < |g.out| && u != h && Pruned(g, u)
    ensures Pruned(g', u)
  {
    forall n: nat, x: Byte | n <= |g.out[u]| ensures Taken(g', u, n, x) <==> Taken(g, u, n, x) {
      if Taken(g, u, n, x) {
        var k: nat :| k < n && g.vertices[g.out[u][k]].isMatch && Permits(g, g.out[u][k], x);
        assert g'.out[u][k] == g.out[u][k];
      }
      if Taken(g', u, n, x) {
        var k: nat :| k < n && g'.vertices[g'.out[u][k]].isMatch && Permits(g', g'.out[u][k], x);
        assert g'.out[u][k] == g.out[u][k];
      }
    }
    forall j: nat | j < |g'.out[u]| ensures Useful(g', u, j) {
      assert Useful(g, u, j);
      var x: Byte :| Permits(g, g.out[u][j], x) && !Taken(g, u, j, x);
      assert Permits(g', g'.out[u][j], x) && !Taken(g', u, j, x);
    }
  }

  /** Every successor of h is in the set. */
  ghost predicate Inside(g: Nfa, h: nat, n: nat, s: set<nat>)
    requires Wired(g) && h < |g.out| && n <= |g.out[h]|
  {
    forall k: nat :: k < n ==> g.out[h][k] in s
  }

  /** A set of vertices that holds the initial one and what its members lead to, each of them pruned. */
  ghost predicate AllPruned(g: Nfa, reached: set<nat>)
    requires Wired(g)
  {
    && 0 in reached
    && forall h :: h in reached ==> h < |g.out| && Inside(g, h, |g.out[h]|, reached) && Pruned(g, h)
  }

  /** The vertices dealt with: pruned, and with every successor seen. */
  ghost predicate DoneOk(g: Nfa, done: set<nat>, seen: set<nat>)
    requires Wired(g)
  {
    forall h :: h in done ==> h < |g.out| && Inside(g, h, |g.out[h]|, seen) && Pruned(g, h)
  }

  /** The vertex at hand, as far as its first i edges. */
  ghost predicate PartOk(g: Nfa, h: nat, i: nat, mbs: set<Byte>, seen: set<nat>)
    requires Wired(g)
  {
    h < |g.out| && i <= |g.out[h]| && PrunedUpTo(g, h, i) && Collected(g, h, i, mbs) && Inside(g, h, i, seen)
  }

  /** What has been seen is done, or waits once on the stack. */
  ghost predicate WorkOk(n: nat, seen: set<nat>, next: seq<nat>, done: set<nat>) {
    && (forall v :: v in seen ==> v < n)
    && (forall v :: v in seen <==> v in done || v in next)
    && (forall k :: 0 <= k < |next| ==> next[k] !in done)
    && (forall j, k :: 0 <= j < k < |next| ==> next[j] != next[k])
  }

  lemma RemoveStep(g: Nfa, g': Nfa, l: nat, h: nat, i: nat, mbs: set<Byte>, seen: set<nat>, done: set<nat>)
    requires Wired(g) && Wired(g') && SinglePattern(g, l) && LosesEdge(g, g', h, i) && h !in done
    requires PartOk(g, h, i, mbs, seen) && DoneOk(g, done, seen)
    requires forall x: Byte :: Permits(g, g.out[h][i], x) ==> x in mbs
    ensures SameBest(g, g', l) && PartOk(g', h, i, mbs, seen) && DoneOk(g', done, seen)
  {
    forall v: nat, w: seq<Byte> | v < |g.vertices| ensures Best(g', l, v, w) == Best(g, l, v, w) {
      RedundantEdge(g, g', l, h, i, w);
    }
    PrefixKept(g, g', h, i, mbs);
    assert forall k: nat :: k < i ==> g'.out[h][k] == g.out[h][k];
    forall u | u in done ensures u < |g'.out| && Inside(g', u, |g'.out[u]|, seen) && Pruned(g', u) {
      OthersKept(g, g', h, i, u);
    }
  }

  lemma KeepStep(g: Nfa, h: nat, i: nat, mbs: set<Byte>, obs: set<Byte>, seen: set<nat>)
    requires Wired(g) && PartOk(g, h, i, mbs, seen) && i < |g.out[h]| && g.out[h][i] in seen
    requires obs == BytesOf(g.vertices[g.out[h][i]].trans) - mbs && obs != {}
    ensures PartOk(g, h, i + 1, if g.vertices[g.out[h][i]].isMatch then mbs + obs else mbs, seen)
  {
    CollectStep(g, h, i, mbs, obs);
    var x :| x in obs;
    assert Permits(g, g.out[h][i], x) && !Taken(g, h, i, x);
    assert Useful(g, h, i);
  }

  /** Seeing one more vertex. */
  lemma SeeStep(g: Nfa, seen: set<nat>, next: seq<nat>, head: nat, i: nat, mbs: set<Byte>, done: set<nat>, tail: nat)
    requires Wired(g) && tail < |g.vertices| && tail !in seen
    requires WorkOk(|g.vertices|, seen, next, done + {head}) && DoneOk(g, done, seen) && PartOk(g, head, i, mbs, seen)
    ensures WorkOk(|g.vertices|, seen + {tail}, next + [tail], done + {head})
    ensures DoneOk(g, done, seen + {tail}) && PartOk(g, head, i, mbs, seen + {tail})
  {
    hide Pruned, PrunedUpTo, Collected;
    var next' := next + [tail];
    assert forall v :: v in next' <==> v in next || v == tail;
  }

  /** Taking a vertex from the stack. */
  lemma PopStep(n: nat, seen: set<nat>, next: seq<nat>, done: set<nat>)
    requires WorkOk(n, seen, next, done) && next != []
    ensures var head := next[|next| - 1];
            head < n && head !in done && WorkOk(n, seen, next[..|next| - 1], done + {head})
  {
    var head := next[|next| - 1];
    assert head in next;
    var next' := next[..|next| - 1];
    assert next == next' + [head];
    assert forall v :: v in next <==> v in next' || v == head;
  }

  lemma OneLess(g: Nfa, g': Nfa, h: nat, i: nat)
    requires Wired(g) && Wired(g') && LosesEdge(g, g', h, i)
    ensures g'.vertices == g.vertices && h < |g.out| == |g'.out| && |g'.out[h]| == |g.out[h]| - 1
  {
  }

  lemma ThinnerTrans(a: Nfa, b: Nfa, c: Nfa)
    requires Wired(a) && Wired(b) && Wired(c) && Thinner(a, b) && Thinner(b, c)
    ensures Thinner(a, c)
  {
  }

  lemma LosesThinner(g: Nfa, g': Nfa, h: nat, i: nat)
    requires Wired(g) && Wired(g') && LosesEdge(g, g', h, i)
    ensures Thinner(g, g')
  {
    forall t: nat | t in g'.out[h] ensures t in g.out[h] {
      var k :| 0 <= k < |g'.out[h]| && g'.out[h][k] == t;
      assert g.out[h][if k < i then k else k + 1] == t;
    }
  }

  lemma SameBestTrans(a: Nfa, b: Nfa, c: Nfa, l: nat)
    requires Wired(a) && Wired(b) && Wired(c) && |a.vertices| == |b.vertices| == |c.vertices|
    requires SameBest(a, b, l) && SameBest(b, c, l)
    ensures SameBest(a, c, l)
  {
    forall v: nat, w: seq<Byte> | v < |a.vertices| ensures Best(c, l, v, w) == Best(a, l, v, w) {
      assert Best(b, l, v, w) == Best(a, l, v, w);
    }
  }

  /** One vertex: drop every edge that the match edges before it leave no byte. */
  method PruneVertex(g: Graph, ghost l: nat, head: nat, seen: set<nat>, next: seq<nat>, ghost done: set<nat>)
    returns (seen': set<nat>, next': seq<nat>)
    requires g.Valid() && head < |g.Vertices| && SinglePattern(g.Value(), l) && head !in done
    requires WorkOk(|g.Vertices|, seen, next, done + {head}) && DoneOk(g.Value(), done, seen)
    modifies g
    ensures g.Valid() && g.Value().vertices == old(g.Value()).vertices
    ensures SameBest(old(g.Value()), g.Value(), l) && Thinner(old(g.Value()), g.Value())
    ensures WorkOk(|g.Vertices|, seen', next', done + {head}) && DoneOk(g.Value(), done + {head}, seen')
    ensures seen <= seen'
  {
    hide Pruned, Collected, PrunedUpTo, Inside;
    seen', next' := seen, next;
    var mbs: set<Byte> := {};
    var i := 0;
    ghost var g0 := g.Value();
    NothingYet(g0, head, seen);
    assert SameBest(g0, g0, l) && Thinner(g0, g0);
    hide DoneOk, PartOk, WorkOk, SameBest, Thinner, LosesEdge;
    while i < |g.OutVertices(head)|
      invariant g.Valid() && g.Value().vertices == g0.vertices && head < |g.Vertices| && i <= |g.Value().out[head]|
      invariant SameBest(g0, g.Value(), l) && Thinner(g0, g.Value())
      invariant PartOk(g.Value(), head, i, mbs, seen') && DoneOk(g.Value(), done, seen')
      invariant WorkOk(|g.Vertices|, seen', next', done + {head})
      invariant seen <= seen'
      decreases |g.Value().out[head]| - i
    {
      ghost var g1 := g.Value();
      var tail := g.OutVertices(head)[i];
      if tail !in seen' {
        SeeStep(g1, seen', next', head, i, mbs, done, tail);
        seen', next' := seen' + {tail}, next' + [tail];
      }
      var obs := BytesOf(g.Vertices[tail].trans) - mbs;
      if obs == {} {
        // an edge is removed without moving on, and its match bytes are none
        forall x: Byte | Permits(g1, g1.out[head][i], x) ensures x in mbs {
          assert x !in obs;
        }
        RemoveEdgeAt(g, head, i);
        assert g.Value().vertices == g1.vertices && |g.Value().out[head]| == |g1.out[head]| - 1 by {
          OneLess(g1, g.Value(), head, i);
        }
        RemoveStep(g1, g.Value(), l, head, i, mbs, seen', done);
        SameBestTrans(g0, g1, g.Value(), l);
        LosesThinner(g1, g.Value(), head, i);
        ThinnerTrans(g0, g1, g.Value());
      } else {
        KeepStep(g1, head, i, mbs, obs, seen');
        i := i + 1;
        if g.Vertices[tail].isMatch {
          mbs := mbs + obs;
        }
      }
    }
    AllLookedAt(g.Value(), head, mbs, seen', done);
  }

  lemma NothingYet(g: Nfa, h: nat, seen: set<nat>)
    requires Wired(g) && h < |g.out|
    ensures PartOk(g, h, 0, {}, seen)
  {
  }

  lemma AllLookedAt(g: Nfa, h: nat, mbs: set<Byte>, seen: set<nat>, done: set<nat>)
    requires Wired(g) && h < |g.out| && PartOk(g, h, |g.out[h]|, mbs, seen) && DoneOk(g, done, seen)
    ensures DoneOk(g, done + {h}, seen)
  {
  }

  /** g.removeEdge(g.outEdge(head, i)) */
  method RemoveEdgeAt(g: Graph, head: nat, i: nat)
    requires g.Valid() && head < |g.Vertices| && i < |g.Value().out[head]|
    modifies g
    ensures g.Valid() && LosesEdge(old(g.Value()), g.Value(), head, i)
  {
    var ed := g.Outs[head][i];
    assert Lists(g.Outs[head], g.Heads, head);
    assert IndexOf(g.Outs[head], ed) == i;
    g.RemoveEdge(ed);
  }

  /**
   pruneBranches: for a single pattern, the preferred match from every vertex on
   every input stays what it was, and no reachable vertex keeps an edge that it
   could never take.
   */
  method PruneBranches(g: Graph, ghost l: nat) returns (ghost reached: set<nat>)
    requires g.Valid() && SinglePattern(g.Value(), l)
    modifies g
    ensures g.Valid() && g.Value().vertices == old(g.Value()).vertices
    ensures SameBest(old(g.Value()), g.Value(), l) && Thinner(old(g.Value()), g.Value())
    ensures AllPruned(g.Value(), reached)
  {
    hide Pruned, Inside;
    var next: seq<nat> := [0];
    var seen: set<nat> := {0};
    ghost var done: set<nat> := {};
    ghost var g0 := g.Value();
    ghost var all := Numbers(|g0.vertices|);
    assert DoneOk(g0, done, seen) && SameBest(g0, g0, l) && Thinner(g0, g0);
    hide DoneOk, SameBest, Thinner;
    while next != []
      invariant g.Valid() && g.Value().vertices == g0.vertices
      invariant SameBest(g0, g.Value(), l) && Thinner(g0, g.Value())
      invariant 0 in seen && WorkOk(|g0.vertices|, seen, next, done) && DoneOk(g.Value(), done, seen)
      invariant done <= all
      decreases |all - done|
    {
      PopStep(|g0.vertices|, seen, next, done);
      var head := next[|next| - 1];
      next := next[..|next| - 1];
      ghost var g1 := g.Value();
      seen, next := PruneVertex(g, l, head, seen, next, done);
      SameBestTrans(g0, g1, g.Value(), l);
      ThinnerTrans(g0, g1, g.Value());
      assert all - (done + {head}) < all - done;
      done := done + {head};
    }
    reached := done;
    NothingLeft(g.Value(), seen, done);
  }

  lemma NothingLeft(g: Nfa, seen: set<nat>, done: set<nat>)
    requires Wired(g) && 0 in seen && WorkOk(|g.vertices|, seen, [], done) && DoneOk(g, done, seen)
    ensures AllPruned(g, done)
  {
    assert seen == done;
  }
}
