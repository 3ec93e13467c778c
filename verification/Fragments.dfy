/**
 Fragments of the automaton that is being built (include/fragment.h), and why
 linking them the way the builder does spells the strings of the parse tree
 (src/lib/nfabuilder.cpp:106-461).
 */
module Fragments {
  import opened Basics
  import opened Automata
  import opened Sequences
  import opened Regexes

  /** A vertex with edges leaving the fragment, and where in its out list the next of them go. */
  datatype Exit = Exit(v: nat, pos: nat)

  /** skip is the place in the in list where the fragment may be skipped; None is NOSKIP. */
  datatype Fragment = Fragment(ins: seq<nat>, outs: seq<Exit>, skip: Option<nat>)

  // ----- lists and insertion points -----

  /** The list with all of dst inserted at pos. */
  function Spliced(s: seq<nat>, pos: nat, dst: seq<nat>): (r: seq<nat>)
    ensures forall x :: x in r <==> x in s || x in dst
  {
    var p := if pos < |s| then pos else |s|;
    assert s == s[..p] + s[p..];
    s[..p] + dst + s[p..]
  }

  /** The first k exits with their insertion points moved on. */
  function Moved(src: seq<Exit>, k: nat, shift: nat): (r: seq<Exit>)
    ensures |r| == |src|
    ensures forall i :: 0 <= i < |src| ==> r[i] == if i < k then Exit(src[i].v, src[i].pos + shift) else src[i]
  {
    seq(|src|, i requires 0 <= i < |src| => if i < k then Exit(src[i].v, src[i].pos + shift) else src[i])
  }

  // ----- reading a string within a fragment -----

  /** Some path that begins in ins reads u and ends at v. */
  ghost predicate Runs(g: Nfa, ins: seq<nat>, u: seq<Byte>, v: nat)
    requires Wired(g)
    decreases |u|
  {
    && u != [] && v < |g.vertices| && Permits(g, v, u[|u| - 1])
    && if |u| == 1 then v in ins
       else exists p: nat :: p < |g.out| && v in g.out[p] && Runs(g, ins, u[..|u| - 1], p)
  }

  ghost predicate Exits(outs: seq<Exit>, v: nat) {
    exists i :: 0 <= i < |outs| && outs[i].v == v
  }

  /** Some path of the fragment reads u. */
  ghost predicate Spelled(g: Nfa, ins: seq<nat>, outs: seq<Exit>, u: seq<Byte>)
    requires Wired(g)
  {
    exists v: nat :: Exits(outs, v) && Runs(g, ins, u, v)
  }

  /** The vertices from lo on, below hi, and the edges among them and nowhere else. */
  ghost predicate Island(g: Nfa, lo: nat, hi: nat)
    requires Wired(g)
  {
    && lo <= hi <= |g.vertices|
    && (forall v: nat, t: nat :: v < |g.out| && t in g.out[v] ==> (lo <= v < hi <==> lo <= t < hi))
  }

  ghost predicate Inside(s: seq<nat>, lo: nat, hi: nat) {
    forall i :: 0 <= i < |s| ==> lo <= s[i] < hi
  }

  ghost predicate ExitsInside(outs: seq<Exit>, lo: nat, hi: nat) {
    forall i :: 0 <= i < |outs| ==> lo <= outs[i].v < hi
  }

  /** A path that begins in an island stays there. */
  lemma {:induction false} RunsInside(g: Nfa, ins: seq<nat>, u: seq<Byte>, v: nat, lo: nat, hi: nat)
    requires Wired(g) && Island(g, lo, hi) && Inside(ins, lo, hi) && Runs(g, ins, u, v)
    ensures lo <= v < hi
    decreases |u|
  {
    if |u| > 1 {
      var p: nat :| p < |g.out| && v in g.out[p] && Runs(g, ins, u[..|u| - 1], p);
      RunsInside(g, ins, u[..|u| - 1], p, lo, hi);
    }
  }

  /** The fragment spells the strings of the node; the empty one by being skippable. */
  ghost predicate Builds(g: Nfa, f: Fragment, n: Node, lo: nat, hi: nat)
    requires Wired(g)
  {
    && Island(g, lo, hi) && Inside(f.ins, lo, hi) && ExitsInside(f.outs, lo, hi)
    && (f.skip.Some? ==> f.skip.value <= |f.ins|)
    && (forall i, j :: 0 <= i < j < |f.outs| ==> f.outs[i].v != f.outs[j].v)
    && (forall u: seq<Byte> :: u != [] ==> (Spelled(g, f.ins, f.outs, u) <==> Lang(n, u)))
    && (f.skip.Some? <==> Lang(n, []))
  }

  // ----- changes elsewhere -----

  /** Within the range, vertices and edges are the same. */
  ghost predicate SameWithin(g: Nfa, g': Nfa, lo: nat, hi: nat)
    requires Wired(g) && Wired(g')
  {
    && hi <= |g.vertices| && hi <= |g'.vertices|
    && (forall v :: lo <= v < hi ==> g'.vertices[v] == g.vertices[v])
    && (forall v: nat :: lo <= v < hi ==> g'.out[v] == g.out[v])
  }

  lemma {:induction false} RunsSame(g: Nfa, g': Nfa, ins: seq<nat>, u: seq<Byte>, v: nat, lo: nat, hi: nat)
    requires Wired(g) && Wired(g') && SameWithin(g, g', lo, hi) && Island(g, lo, hi) && Island(g', lo, hi) && Inside(ins, lo, hi)
    ensures Runs(g', ins, u, v) <==> Runs(g, ins, u, v)
    decreases |u|
  {
    if Runs(g, ins, u, v) {
      RunsInside(g, ins, u, v, lo, hi);
      if |u| > 1 {
        var p: nat :| p < |g.out| && v in g.out[p] && Runs(g, ins, u[..|u| - 1], p);
        RunsInside(g, ins, u[..|u| - 1], p, lo, hi);
        RunsSame(g, g', ins, u[..|u| - 1], p, lo, hi);
        assert v in g'.out[p];
      }
    }
    if Runs(g', ins, u, v) {
      RunsInside(g', ins, u, v, lo, hi);
      if |u| > 1 {
        var p: nat :| p < |g'.out| && v in g'.out[p] && Runs(g', ins, u[..|u| - 1], p);
        RunsInside(g', ins, u[..|u| - 1], p, lo, hi);
        RunsSame(g, g', ins, u[..|u| - 1], p, lo, hi);
        assert v in g.out[p];
      }
    }
  }

  /** A fragment is not concerned by what happens outside its island. */
  lemma BuildsElsewhere(g: Nfa, g': Nfa, f: Fragment, n: Node, lo: nat, hi: nat)
    requires Wired(g) && Wired(g') && Builds(g, f, n, lo, hi) && SameWithin(g, g', lo, hi) && Island(g', lo, hi)
    ensures Builds(g', f, n, lo, hi)
  {
    hide Lang, Runs;
    forall u: seq<Byte> | u != [] ensures Spelled(g', f.ins, f.outs, u) <==> Spelled(g, f.ins, f.outs, u) {
      forall v: nat ensures Runs(g', f.ins, u, v) <==> Runs(g, f.ins, u, v) {
        RunsSame(g, g', f.ins, u, v, lo, hi);
      }
    }
  }

  // ----- linking -----

  /** The first k exits have been patched. */
  ghost predicate Patched(g: Nfa, g': Nfa, src: seq<Exit>, k: nat, dst: seq<nat>)
    requires Wired(g)
  {
    && Wired(g') && Matched(g') && g'.vertices == g.vertices && k <= |src|
    && (forall v: nat :: v < |g.out| && !Exits(src[..k], v) ==> g'.out[v] == g.out[v])
    && (forall i :: 0 <= i < k ==> src[i].v < |g.out| && g'.out[src[i].v] == Spliced(g.out[src[i].v], src[i].pos, dst))
  }

  ghost predicate DistinctExits(src: seq<Exit>) {
    forall i, j :: 0 <= i < j < |src| ==> src[i].v != src[j].v
  }


  /** The edges from every exit to every one of ins have been added. */
  ghost predicate Linked(g: Nfa, g': Nfa, outs: seq<Exit>, ins: seq<nat>)
    requires Wired(g) && Wired(g')
  {
    && g'.vertices == g.vertices
    && (forall v: nat, t: nat :: v < |g.out| && t in g.out[v] ==> t in g'.out[v])
    && (forall v: nat, t: nat :: v < |g.out| && Exits(outs, v) && t in ins ==> t in g'.out[v])
    && (forall v: nat, t: nat :: v < |g'.out| && t in g'.out[v] ==> t in g.out[v] || (Exits(outs, v) && t in ins))
    && (forall v: nat :: v < |g.out| && !Exits(outs, v) ==> g'.out[v] == g.out[v])
  }

  lemma PatchedLinks(g: Nfa, g': Nfa, src: seq<Exit>, dst: seq<nat>)
    requires Wired(g) && Patched(g, g', src, |src|, dst)
    ensures Linked(g, g', src, dst)
  {
    hide Spliced;
    assert src[..|src|] == src;
    forall v: nat, t: nat | v < |g.out| ensures t in g'.out[v] <==> t in g.out[v] || (Exits(src, v) && t in dst) {
      if Exits(src, v) {
        var i :| 0 <= i < |src| && src[i].v == v;
      }
    }
  }

  lemma RunsOne(g: Nfa, ins: seq<nat>, x: Byte, v: nat)
    requires Wired(g)
    ensures Runs(g, ins, [x], v) <==> v < |g.vertices| && v in ins && Permits(g, v, x)
  {
  }

  lemma RunsSnoc(g: Nfa, ins: seq<nat>, u: seq<Byte>, x: Byte, p: nat, v: nat)
    requires Wired(g) && p < |g.out| && v < |g.vertices| && v in g.out[p] && Permits(g, v, x) && Runs(g, ins, u, p)
    ensures Runs(g, ins, u + [x], v)
  {
    assert (u + [x])[..|u|] == u;
  }

  lemma RunsLast(g: Nfa, ins: seq<nat>, u: seq<Byte>, v: nat) returns (p: nat)
    requires Wired(g) && |u| > 1 && Runs(g, ins, u, v)
    ensures v < |g.vertices| && Permits(g, v, u[|u| - 1]) && p < |g.out| && v in g.out[p] && Runs(g, ins, u[..|u| - 1], p)
  {
    p :| p < |g.out| && v in g.out[p] && Runs(g, ins, u[..|u| - 1], p);
  }

  /** More edges, and more to begin with, read no less. */
  lemma {:induction false} RunsMore(g: Nfa, g': Nfa, ins: seq<nat>, ins': seq<nat>, u: seq<Byte>, v: nat)
    requires Wired(g) && Wired(g') && g.vertices <= g'.vertices && (forall x :: x in ins ==> x in ins')
    requires forall p: nat, t: nat :: p < |g.out| && t in g.out[p] ==> p < |g'.out| && t in g'.out[p]
    requires Runs(g, ins, u, v)
    ensures Runs(g', ins', u, v)
    decreases |u|
  {
    if |u| > 1 {
      var p := RunsLast(g, ins, u, v);
      RunsMore(g, g', ins, ins', u[..|u| - 1], p);
      assert u == u[..|u| - 1] + [u[|u| - 1]];
    }
  }

  /** A path to an exit, then a path from the linked ins. */
  lemma {:induction false} RunsJoin(g: Nfa, g': Nfa, outs: seq<Exit>, link: seq<nat>, ins: seq<nat>,
                                    a: seq<Byte>, p: nat, b: seq<Byte>, v: nat)
    requires Wired(g) && Wired(g') && Linked(g, g', outs, link)
    requires Exits(outs, p) && Runs(g', ins, a, p) && Runs(g', link, b, v)
    ensures Runs(g', ins, a + b, v)
    decreases |b|
  {
    hide Linked;
    var x := b[|b| - 1];
    if |b| == 1 {
      assert b == [x];
      RunsOne(g', link, x, v);
      LinkedEdge(g, g', outs, link, p, v);
      RunsSnoc(g', ins, a, x, p, v);
    } else {
      var q := RunsLast(g', link, b, v);
      RunsJoin(g, g', outs, link, ins, a, p, b[..|b| - 1], q);
      RunsSnoc(g', ins, a + b[..|b| - 1], x, q, v);
      assert a + b == a + b[..|b| - 1] + [x];
    }
  }

  lemma LinkedEdge(g: Nfa, g': Nfa, outs: seq<Exit>, link: seq<nat>, p: nat, v: nat)
    requires Wired(g) && Wired(g') && Linked(g, g', outs, link) && Exits(outs, p) && v in link && p < |g'.out|
    ensures v in g'.out[p]
  {
  }

  /** A path over old and new edges, cut at the last new edge. */
  ghost predicate CutAt(g: Nfa, g': Nfa, outs: seq<Exit>, link: seq<nat>, ins: seq<nat>, u: seq<Byte>, v: nat, i: nat)
    requires Wired(g) && Wired(g')
  {
    && 0 < i < |u| && Spelled(g', ins, outs, u[..i]) && Runs(g, link, u[i..], v)
  }

  lemma {:induction false} RunsCut(g: Nfa, g': Nfa, outs: seq<Exit>, link: seq<nat>, ins: seq<nat>, u: seq<Byte>, v: nat) returns (i: nat)
    requires Wired(g) && Wired(g') && Linked(g, g', outs, link) && Runs(g', ins, u, v)
    ensures (i == 0 && Runs(g, ins, u, v)) || CutAt(g, g', outs, link, ins, u, v, i)
    decreases |u|
  {
    hide Linked;
    SameVertices(g, g', outs, link);
    i := 0;
    var x := u[|u| - 1];
    if |u| == 1 {
      assert u == [x];
      RunsOne(g', ins, x, v);
      RunsOne(g, ins, x, v);
    } else {
      var p := RunsLast(g', ins, u, v);
      var front := u[..|u| - 1];
      assert u == front + [x];
      if v in g.out[p] {
        i := RunsCut(g, g', outs, link, ins, front, p);
        if i == 0 {
          RunsSnoc(g, ins, front, x, p, v);
        } else {
          assert u[..i] == front[..i] && u[i..] == front[i..] + [x];
          RunsSnoc(g, link, front[i..], x, p, v);
        }
      } else {
        NewEdge(g, g', outs, link, p, v);
        i := |u| - 1;
        assert u[..i] == front && u[i..] == [x];
        RunsOne(g, link, x, v);
        assert Spelled(g', ins, outs, front);
      }
    }
  }

  lemma SameVertices(g: Nfa, g': Nfa, outs: seq<Exit>, link: seq<nat>)
    requires Wired(g) && Wired(g') && Linked(g, g', outs, link)
    ensures g'.vertices == g.vertices && |g'.out| == |g.out|
    ensures forall v: nat, t: nat :: v < |g.out| && t in g.out[v] ==> t in g'.out[v]
  {
  }

  lemma NewEdge(g: Nfa, g': Nfa, outs: seq<Exit>, link: seq<nat>, p: nat, v: nat)
    requires Wired(g) && Wired(g') && Linked(g, g', outs, link) && p < |g.out| && v in g'.out[p] && v !in g.out[p]
    ensures Exits(outs, p) && v in link
  {
    hide Exits;
    assert p < |g'.out|;
    assert v in g.out[p] || (Exits(outs, p) && v in link);
  }

  // ----- repeating -----

  /** question; question_ng when not greedy. */
  function Skippable(f: Fragment, greedy: bool): Fragment {
    f.(skip := if !greedy then Some(0) else if f.skip.None? || f.skip.value > |f.ins| then Some(|f.ins|) else f.skip)
  }

  /** plus; plus_ng when not greedy. */
  function Repeating(f: Fragment, greedy: bool): Fragment {
    f.(outs := Moved(f.outs, |f.outs|, if greedy then |f.ins| else 0))
  }

  /** Where the exits of a insert next, after they have been patched to b. */
  function Onward(a: Fragment, b: Fragment): seq<Exit> {
    Moved(a.outs, |a.outs|, if b.skip.Some? && b.skip.value < |b.ins| then b.skip.value else |b.ins|)
  }

  /** With the exits linked back to the ins, the fragment spells one or more of its strings. */
  lemma {:induction false} PlusSpells(g: Nfa, g': Nfa, f: Fragment, n: Node, lo: nat, hi: nat, u: seq<Byte>) returns (k: nat)
    requires Wired(g) && Wired(g') && Builds(g, f, n, lo, hi) && Linked(g, g', f.outs, f.ins)
    requires Spelled(g', f.ins, f.outs, u)
    ensures k > 0 && Power(n, k, u)
    decreases |u|
  {
    hide Lang, Power, Runs, Island, Linked;
    var v: nat :| Exits(f.outs, v) && Runs(g', f.ins, u, v);
    RunsNotEmpty(g', f.ins, u, v);
    var i := RunsCut(g, g', f.outs, f.ins, f.ins, u, v);
    if i == 0 {
      assert Spelled(g, f.ins, f.outs, u);
      PowerOne(n, u);
      k := 1;
    } else {
      var j := PlusSpells(g, g', f, n, lo, hi, u[..i]);
      assert Spelled(g, f.ins, f.outs, u[i..]);
      PowerOne(n, u[i..]);
      PowerAdd(n, j, 1, u[..i], u[i..]);
      assert u[..i] + u[i..] == u;
      k := j + 1;
    }
  }

  lemma RunsNotEmpty(g: Nfa, ins: seq<nat>, u: seq<Byte>, v: nat)
    requires Wired(g) && Runs(g, ins, u, v)
    ensures u != [] && v < |g.vertices|
  {
  }

  lemma {:induction false} PlusReads(g: Nfa, g': Nfa, f: Fragment, n: Node, lo: nat, hi: nat, k: nat, u: seq<Byte>)
    requires Wired(g) && Wired(g') && Builds(g, f, n, lo, hi) && Linked(g, g', f.outs, f.ins)
    requires u != [] && Power(n, k, u)
    ensures Spelled(g', f.ins, f.outs, u)
    decreases k
  {
    hide *;
    PowerZero(n, u);
    var i := PowerFirst(n, k, u);
    if i == 0 {
      assert u[i..] == u;
      PlusReads(g, g', f, n, lo, hi, k - 1, u);
    } else {
      var p := SpelledBy(g, f, n, lo, hi, u[..i]);
      SameVertices(g, g', f.outs, f.ins);
      RunsMore(g, g', f.ins, f.ins, u[..i], p);
      if i == |u| {
        assert u[..i] == u;
        SpelledAt(g', f.ins, f.outs, u, p);
      } else {
        PlusReads(g, g', f, n, lo, hi, k - 1, u[i..]);
        var v := SpelledTo(g', f.ins, f.outs, u[i..]);
        RunsJoin(g, g', f.outs, f.ins, f.ins, u[..i], p, u[i..], v);
        assert u[..i] + u[i..] == u;
        SpelledAt(g', f.ins, f.outs, u, v);
      }
    }
  }

  lemma SpelledAt(g: Nfa, ins: seq<nat>, outs: seq<Exit>, u: seq<Byte>, v: nat)
    requires Wired(g) && Exits(outs, v) && Runs(g, ins, u, v)
    ensures Spelled(g, ins, outs, u)
  {
  }

  lemma SpelledTo(g: Nfa, ins: seq<nat>, outs: seq<Exit>, u: seq<Byte>) returns (v: nat)
    requires Wired(g) && Spelled(g, ins, outs, u)
    ensures Exits(outs, v) && Runs(g, ins, u, v) && v < |g.vertices|
  {
    v :| Exits(outs, v) && Runs(g, ins, u, v);
  }

  /** A string of the node is read to an exit. */
  lemma SpelledBy(g: Nfa, f: Fragment, n: Node, lo: nat, hi: nat, u: seq<Byte>) returns (v: nat)
    requires Wired(g) && Builds(g, f, n, lo, hi) && u != [] && Lang(n, u)
    ensures Exits(f.outs, v) && Runs(g, f.ins, u, v) && v < |g.vertices|
  {
    hide Lang, Runs;
    assert Spelled(g, f.ins, f.outs, u);
    v := SpelledTo(g, f.ins, f.outs, u);
  }

  lemma {:induction false} PowerOfEmpty(n: Node, k: nat)
    requires Power(n, k, []) && k > 0
    ensures Lang(n, [])
  {
    var u: seq<Byte> := [];
    var i := PowerFirst(n, k, u);
    assert u[..i] == u;
  }

  lemma LinkedIsland(g: Nfa, g': Nfa, outs: seq<Exit>, ins: seq<nat>, lo: nat, hi: nat)
    requires Wired(g) && Wired(g') && Linked(g, g', outs, ins) && Island(g, lo, hi)
    requires Inside(ins, lo, hi) && ExitsInside(outs, lo, hi)
    ensures Island(g', lo, hi)
  {
    SameVertices(g, g', outs, ins);
    forall v: nat, t: nat | v < |g'.out| && t in g'.out[v] ensures lo <= v < hi <==> lo <= t < hi {
      if t !in g.out[v] {
        NewEdge(g, g', outs, ins, v, t);
        ExitInside(outs, v, lo, hi);
      }
    }
  }

  lemma ExitInside(outs: seq<Exit>, v: nat, lo: nat, hi: nat)
    requires ExitsInside(outs, lo, hi) && Exits(outs, v)
    ensures lo <= v < hi
  {
  }

  /** plus: the exits may have moved their insertion points. */
  lemma PlusBuilds(g: Nfa, g': Nfa, f: Fragment, f': Fragment, n: Node, greedy: bool, lo: nat, hi: nat)
    requires Wired(g) && Wired(g') && Builds(g, f, n, lo, hi) && Linked(g, g', f.outs, f.ins)
    requires f'.ins == f.ins && f'.skip == f.skip && SameExits(f.outs, f'.outs)
    ensures Builds(g', f', Repetition(n, 1, None, greedy), lo, hi)
  {
    hide *;
    BuildsShape(g, f, n, lo, hi);
    LinkedIsland(g, g', f.outs, f.ins, lo, hi);
    MovedExits(f.outs, f'.outs, lo, hi);
    var r := Repetition(n, 1, None, greedy);
    forall u: seq<Byte> | u != [] ensures Spelled(g', f'.ins, f'.outs, u) <==> Lang(r, u) {
      SameSpelled(g', f.ins, f.outs, f'.outs, u);
      RepeatIs(n, greedy, u);
      if Spelled(g', f.ins, f.outs, u) {
        var k := PlusSpells(g, g', f, n, lo, hi, u);
        TimesBy(n, 1, None, k, u);
      }
      if Lang(r, u) {
        var k := TimesOf(n, 1, None, u);
        PlusReads(g, g', f, n, lo, hi, k, u);
      }
    }
    RepeatIs(n, greedy, []);
    if f.skip.Some? {
      PowerOne(n, []);
      TimesBy(n, 1, None, 1, []);
    }
    if Lang(r, []) {
      var k := TimesOf(n, 1, None, []);
      PowerOfEmpty(n, k);
    }
    BuildsBy(g', f', r, lo, hi);
  }

  lemma RepeatIs(n: Node, greedy: bool, u: seq<Byte>)
    ensures Lang(Repetition(n, 1, None, greedy), u) <==> Times(n, 1, None, u)
    ensures forall k: nat :: InBounds(k, 1, None) <==> k >= 1
  {
  }

  ghost predicate SameExits(outs: seq<Exit>, outs': seq<Exit>) {
    |outs| == |outs'| && forall i :: 0 <= i < |outs| ==> outs'[i].v == outs[i].v
  }

  lemma SameSpelled(g: Nfa, ins: seq<nat>, outs: seq<Exit>, outs': seq<Exit>, u: seq<Byte>)
    requires Wired(g) && SameExits(outs, outs')
    ensures Spelled(g, ins, outs', u) <==> Spelled(g, ins, outs, u)
  {
    hide Runs;
    forall v: nat ensures Exits(outs, v) <==> Exits(outs', v) {
      if i :| 0 <= i < |outs| && outs[i].v == v {
        assert outs'[i].v == v;
      }
      if i :| 0 <= i < |outs'| && outs'[i].v == v {
        assert outs[i].v == v;
      }
    }
  }

  /** question: the fragment can be skipped. */
  lemma QuestionBuilds(g: Nfa, f: Fragment, f': Fragment, n: Node, greedy: bool, lo: nat, hi: nat)
    requires Wired(g) && Builds(g, f, n, lo, hi)
    requires f'.ins == f.ins && f'.outs == f.outs && f'.skip.Some? && f'.skip.value <= |f.ins|
    ensures Builds(g, f', Repetition(n, 0, Some(1), greedy), lo, hi)
  {
    forall u: seq<Byte> ensures Lang(Repetition(n, 0, Some(1), greedy), u) <==> u == [] || Lang(n, u) {
      QuestionMeans(n, u);
    }
    hide Lang, Spelled, Island;
  }

  /** star is plus, then question. */
  lemma StarBuilds(g: Nfa, f: Fragment, f': Fragment, n: Node, greedy: bool, lo: nat, hi: nat)
    requires Wired(g) && Builds(g, f, Repetition(n, 1, None, greedy), lo, hi)
    requires f'.ins == f.ins && f'.outs == f.outs && f'.skip.Some? && f'.skip.value <= |f.ins|
    ensures Builds(g, f', Repetition(n, 0, None, greedy), lo, hi)
  {
    forall u: seq<Byte> ensures Lang(Repetition(n, 0, None, greedy), u) <==> u == [] || Lang(Repetition(n, 1, None, greedy), u) {
      StarMeans(n, u);
    }
    hide Lang, Spelled, Island;
  }

  lemma StarMeans(n: Node, u: seq<Byte>)
    ensures Times(n, 0, None, u) <==> u == [] || Times(n, 1, None, u)
  {
    if Times(n, 0, None, u) {
      var k := TimesOf(n, 0, None, u);
      if k > 0 {
        TimesBy(n, 1, None, k, u);
      }
    }
    if u == [] {
      TimesBy(n, 0, None, 0, u);
    }
    if Times(n, 1, None, u) {
      var k := TimesOf(n, 1, None, u);
      TimesBy(n, 0, None, k, u);
    }
  }

  // ----- one after the other -----

  ghost predicate Adjacent(g: Nfa, a: Fragment, l: Node, lo: nat, mid: nat, b: Fragment, r: Node, hi: nat)
    requires Wired(g)
  {
    Builds(g, a, l, lo, mid) && Builds(g, b, r, mid, hi)
  }

  /** Two islands, linked one way, make one. */
  lemma JoinIslands(g: Nfa, g': Nfa, outs: seq<Exit>, ins: seq<nat>, lo: nat, mid: nat, hi: nat)
    requires Wired(g) && Wired(g') && Linked(g, g', outs, ins) && Island(g, lo, mid) && Island(g, mid, hi)
    requires ExitsInside(outs, lo, mid) && Inside(ins, mid, hi)
    ensures Island(g', lo, hi)
    ensures forall v: nat, t: nat :: v < |g'.out| && t in g'.out[v] && lo <= t < mid ==> lo <= v < mid && t in g.out[v]
  {
    SameVertices(g, g', outs, ins);
    forall v: nat, t: nat | v < |g'.out| && t in g'.out[v]
      ensures (lo <= v < hi <==> lo <= t < hi) && (lo <= t < mid ==> lo <= v < mid && t in g.out[v])
    {
      if t !in g.out[v] {
        NewEdge(g, g', outs, ins, v, t);
        ExitInside(outs, v, lo, mid);
      }
    }
  }

  /** Nothing leads back into the first island. */
  ghost predicate OnlyWithin(g: Nfa, g': Nfa, lo: nat, mid: nat)
    requires Wired(g) && Wired(g')
  {
    forall v: nat, t: nat :: v < |g'.out| && t in g'.out[v] && lo <= t < mid ==> lo <= v < mid && v < |g.out| && t in g.out[v]
  }

  ghost predicate Among(ins: seq<nat>, ins': seq<nat>, lo: nat, mid: nat) {
    forall x :: lo <= x < mid ==> (x in ins' <==> x in ins)
  }

  /** Paths that end in the first island have never left it. */
  lemma {:induction false} RunsFirst(g: Nfa, g': Nfa, ins: seq<nat>, ins': seq<nat>, u: seq<Byte>, v: nat, lo: nat, mid: nat)
    requires Wired(g) && Wired(g') && g'.vertices == g.vertices && OnlyWithin(g, g', lo, mid) && Among(ins, ins', lo, mid)
    requires forall p: nat, t: nat :: p < |g.out| && t in g.out[p] ==> p < |g'.out| && t in g'.out[p]
    requires Island(g, lo, mid) && lo <= v < mid
    ensures Runs(g', ins', u, v) <==> Runs(g, ins, u, v)
    decreases |u|
  {
    if |u| > 1 {
      if Runs(g', ins', u, v) {
        var p := RunsLast(g', ins', u, v);
        RunsFirst(g, g', ins, ins', u[..|u| - 1], p, lo, mid);
        RunsSnoc(g, ins, u[..|u| - 1], u[|u| - 1], p, v);
        assert u == u[..|u| - 1] + [u[|u| - 1]];
      }
      if Runs(g, ins, u, v) {
        var p := RunsLast(g, ins, u, v);
        assert lo <= p < mid;
        RunsFirst(g, g', ins, ins', u[..|u| - 1], p, lo, mid);
        RunsSnoc(g', ins', u[..|u| - 1], u[|u| - 1], p, v);
        assert u == u[..|u| - 1] + [u[|u| - 1]];
      }
    }
  }

  /** A start from one of two lists. */
  lemma {:induction false} RunsEither(g: Nfa, a: seq<nat>, b: seq<nat>, c: seq<nat>, u: seq<Byte>, v: nat)
    requires Wired(g) && forall x :: x in c <==> x in a || x in b
    ensures Runs(g, c, u, v) <==> Runs(g, a, u, v) || Runs(g, b, u, v)
    decreases |u|
  {
    if |u| > 1 {
      var front := u[..|u| - 1];
      if Runs(g, c, u, v) {
        var p := RunsLast(g, c, u, v);
        RunsEither(g, a, b, c, front, p);
      }
      if Runs(g, a, u, v) {
        var p := RunsLast(g, a, u, v);
        RunsEither(g, a, b, c, front, p);
      }
      if Runs(g, b, u, v) {
        var p := RunsLast(g, b, u, v);
        RunsEither(g, a, b, c, front, p);
      }
    }
  }

  // ----- alternatives -----

  lemma ExitsEither(a: seq<Exit>, b: seq<Exit>, v: nat)
    ensures Exits(a + b, v) <==> Exits(a, v) || Exits(b, v)
  {
    var c := a + b;
    if i :| 0 <= i < |a| && a[i].v == v {
      assert c[i].v == v;
    }
    if i :| 0 <= i < |b| && b[i].v == v {
      assert c[|a| + i].v == v;
    }
    if i :| 0 <= i < |c| && c[i].v == v {
      assert i < |a| ==> a[i].v == v;
      assert i >= |a| ==> b[i - |a|].v == v;
    }
  }

  lemma NoCrossing(g: Nfa, ins: seq<nat>, outs: seq<Exit>, u: seq<Byte>, lo: nat, mid: nat, hi: nat)
    requires Wired(g) && Island(g, lo, mid) && Inside(ins, lo, mid) && ExitsInside(outs, mid, hi)
    ensures !Spelled(g, ins, outs, u)
  {
    if Spelled(g, ins, outs, u) {
      var v := SpelledTo(g, ins, outs, u);
      RunsInside(g, ins, u, v, lo, mid);
      ExitInside(outs, v, mid, hi);
    }
  }

  lemma NoCrossingBack(g: Nfa, ins: seq<nat>, outs: seq<Exit>, u: seq<Byte>, lo: nat, mid: nat, hi: nat)
    requires Wired(g) && Island(g, mid, hi) && Inside(ins, mid, hi) && ExitsInside(outs, lo, mid)
    ensures !Spelled(g, ins, outs, u)
  {
    if Spelled(g, ins, outs, u) {
      var v := SpelledTo(g, ins, outs, u);
      RunsInside(g, ins, u, v, mid, hi);
      ExitInside(outs, v, lo, mid);
    }
  }

  lemma AlternativesSpell(g: Nfa, a: Fragment, l: Node, lo: nat, mid: nat, b: Fragment, r: Node, hi: nat, u: seq<Byte>)
    requires Wired(g) && Adjacent(g, a, l, lo, mid, b, r, hi) && u != []
    ensures Spelled(g, a.ins + b.ins, a.outs + b.outs, u) <==> Lang(Alternation(l, r), u)
  {
    assert Lang(Alternation(l, r), u) <==> Lang(l, u) || Lang(r, u);
    hide Lang, Runs;
    NoCrossing(g, a.ins, b.outs, u, lo, mid, hi);
    NoCrossingBack(g, b.ins, a.outs, u, lo, mid, hi);
    hide Island;
    forall v: nat
      ensures Exits(a.outs + b.outs, v) <==> Exits(a.outs, v) || Exits(b.outs, v)
      ensures Runs(g, a.ins + b.ins, u, v) <==> Runs(g, a.ins, u, v) || Runs(g, b.ins, u, v)
    {
      ExitsEither(a.outs, b.outs, v);
      RunsEither(g, a.ins, b.ins, a.ins + b.ins, u, v);
    }
  }

  lemma DisjointExits(a: seq<Exit>, b: seq<Exit>, lo: nat, mid: nat, hi: nat)
    requires ExitsInside(a, lo, mid) && ExitsInside(b, mid, hi)
    requires forall i, j :: 0 <= i < j < |a| ==> a[i].v != a[j].v
    requires forall i, j :: 0 <= i < j < |b| ==> b[i].v != b[j].v
    ensures forall i, j :: 0 <= i < j < |a + b| ==> (a + b)[i].v != (a + b)[j].v
    ensures lo <= mid <= hi ==> ExitsInside(a + b, lo, hi)
  {
  }

  lemma InsideBoth(a: seq<nat>, b: seq<nat>, lo: nat, mid: nat, hi: nat)
    requires Inside(a, lo, mid) && Inside(b, mid, hi) && lo <= mid <= hi
    ensures Inside(a + b, lo, hi)
  {
  }

  lemma IslandsTogether(g: Nfa, lo: nat, mid: nat, hi: nat)
    requires Wired(g) && Island(g, lo, mid) && Island(g, mid, hi)
    ensures Island(g, lo, hi)
  {
  }

  /** alternate: where the first can be skipped there, else where the second can. */
  function Alternated(a: Fragment, b: Fragment): Fragment {
    Fragment(a.ins + b.ins, a.outs + b.outs,
             if a.skip.Some? then a.skip else if b.skip.Some? then Some(|a.ins| + b.skip.value) else None)
  }

  lemma AlternateBuilds(g: Nfa, a: Fragment, l: Node, lo: nat, mid: nat, b: Fragment, r: Node, hi: nat)
    requires Wired(g) && Adjacent(g, a, l, lo, mid, b, r, hi)
    ensures Builds(g, Alternated(a, b), Alternation(l, r), lo, hi)
  {
    var f := Alternated(a, b);
    forall u: seq<Byte> | u != [] ensures Spelled(g, f.ins, f.outs, u) <==> Lang(Alternation(l, r), u) {
      AlternativesSpell(g, a, l, lo, mid, b, r, hi, u);
    }
    assert Lang(Alternation(l, r), []) <==> Lang(l, []) || Lang(r, []);
    DisjointExits(a.outs, b.outs, lo, mid, hi);
    InsideBoth(a.ins, b.ins, lo, mid, hi);
    IslandsTogether(g, lo, mid, hi);
    hide Lang, Spelled, Island, Inside, ExitsInside;
  }

  // ----- concatenation -----

  /** concatenate, once the exits of the first are linked to the ins of the second; outs are those exits afterwards. */
  function Concatenated(a: Fragment, b: Fragment, outs: seq<Exit>): Fragment
    requires a.skip.Some? ==> a.skip.value <= |a.ins|
  {
    Fragment(if a.skip.Some? then a.ins[..a.skip.value] + b.ins + a.ins[a.skip.value..] else a.ins,
             if b.skip.Some? then outs + b.outs else b.outs,
             if a.skip.None? || b.skip.None? then None else Some(a.skip.value + b.skip.value))
  }

  lemma ConcatenatedIns(a: Fragment, b: Fragment, outs: seq<Exit>, x: nat)
    requires a.skip.Some? ==> a.skip.value <= |a.ins|
    ensures x in Concatenated(a, b, outs).ins <==> x in a.ins || (a.skip.Some? && x in b.ins)
  {
    if a.skip.Some? {
      var k := a.skip.value;
      assert a.ins == a.ins[..k] + a.ins[k..];
    }
  }

  /** What the parts and the linked automaton have to do with each other. */
  ghost predicate Chained(g: Nfa, g': Nfa, a: Fragment, l: Node, lo: nat, mid: nat, b: Fragment, r: Node, hi: nat, ins: seq<nat>)
    requires Wired(g) && Wired(g')
  {
    && Adjacent(g, a, l, lo, mid, b, r, hi) && Linked(g, g', a.outs, b.ins)
    && forall x: nat :: x in ins <==> x in a.ins || (a.skip.Some? && x in b.ins)
  }

  lemma ChainedUse(g: Nfa, g': Nfa, a: Fragment, l: Node, lo: nat, mid: nat, b: Fragment, r: Node, hi: nat, ins: seq<nat>)
    requires Wired(g) && Wired(g') && Chained(g, g', a, l, lo, mid, b, r, hi, ins)
    ensures Builds(g, a, l, lo, mid) && Builds(g, b, r, mid, hi) && Linked(g, g', a.outs, b.ins)
    ensures Island(g, lo, mid) && Island(g, mid, hi) && Inside(a.ins, lo, mid) && Inside(b.ins, mid, hi)
    ensures ExitsInside(a.outs, lo, mid) && ExitsInside(b.outs, mid, hi)
    ensures a.skip.Some? <==> Lang(l, [])
    ensures b.skip.Some? <==> Lang(r, [])
    ensures forall x: nat :: x in ins <==> x in a.ins || (a.skip.Some? && x in b.ins)
  {
    hide Island, Inside, ExitsInside, Linked, Spelled, Lang;
  }

  /** In the first island, nothing has changed. */
  lemma ChainFirst(g: Nfa, g': Nfa, a: Fragment, l: Node, lo: nat, mid: nat, b: Fragment, r: Node, hi: nat, ins: seq<nat>,
                   u: seq<Byte>, v: nat)
    requires Wired(g) && Wired(g') && Chained(g, g', a, l, lo, mid, b, r, hi, ins) && lo <= v < mid
    ensures Runs(g', ins, u, v) <==> Runs(g, a.ins, u, v)
  {
    ChainedUse(g, g', a, l, lo, mid, b, r, hi, ins);
    SameVertices(g, g', a.outs, b.ins);
    JoinIslands(g, g', a.outs, b.ins, lo, mid, hi);
    assert Among(a.ins, ins, lo, mid) by {
      hide Builds, Linked, Island;
    }
    hide Builds, Linked, Runs;
    RunsFirst(g, g', a.ins, ins, u, v, lo, mid);
  }

  lemma ChainSecond(g: Nfa, g': Nfa, a: Fragment, l: Node, lo: nat, mid: nat, b: Fragment, r: Node, hi: nat, ins: seq<nat>,
                    u: seq<Byte>, v: nat) returns (i: nat)
    requires Wired(g) && Wired(g') && Chained(g, g', a, l, lo, mid, b, r, hi, ins) && mid <= v < hi && Runs(g', ins, u, v)
    ensures i < |u| && Lang(l, u[..i]) && Runs(g, b.ins, u[i..], v)
  {
    ChainedUse(g, g', a, l, lo, mid, b, r, hi, ins);
    hide Lang, Runs, Builds, Linked;
    i := RunsCut(g, g', a.outs, b.ins, ins, u, v);
    if i == 0 {
      RunsNotEmpty(g, ins, u, v);
      if a.skip.Some? {
        RunsEither(g, a.ins, b.ins, ins, u, v);
      } else {
        RunsEither(g, a.ins, [], ins, u, v);
        RunsNowhere(g, u, v);
      }
      if Runs(g, a.ins, u, v) {
        RunsInside(g, a.ins, u, v, lo, mid);
      }
      assert u[0..] == u && u[..0] == [];
    } else {
      var p := SpelledTo(g', ins, a.outs, u[..i]);
      ExitInside(a.outs, p, lo, mid);
      ChainFirst(g, g', a, l, lo, mid, b, r, hi, ins, u[..i], p);
      SpelledIsLang(g, a, l, lo, mid, u[..i], p);
    }
  }

  lemma {:induction false} RunsNowhere(g: Nfa, u: seq<Byte>, v: nat)
    requires Wired(g)
    ensures !Runs(g, [], u, v)
    decreases |u|
  {
    if Runs(g, [], u, v) && |u| > 1 {
      var p := RunsLast(g, [], u, v);
      RunsNowhere(g, u[..|u| - 1], p);
    }
  }

  lemma SpelledIsLang(g: Nfa, f: Fragment, n: Node, lo: nat, hi: nat, u: seq<Byte>, v: nat)
    requires Wired(g) && Builds(g, f, n, lo, hi) && Exits(f.outs, v) && Runs(g, f.ins, u, v)
    ensures u != [] && Lang(n, u)
  {
    RunsNotEmpty(g, f.ins, u, v);
    hide Lang, Runs;
    assert Spelled(g, f.ins, f.outs, u);
  }

  lemma ConcatenationMeans(l: Node, r: Node, u: seq<Byte>, i: nat)
    requires i <= |u| && Lang(l, u[..i]) && Lang(r, u[i..])
    ensures Lang(Concatenation(l, r), u)
  {
  }

  lemma ConcatenationSplits(l: Node, r: Node, u: seq<Byte>) returns (i: nat)
    requires Lang(Concatenation(l, r), u)
    ensures i <= |u| && Lang(l, u[..i]) && Lang(r, u[i..])
  {
    i :| i <= |u| && Lang(l, u[..i]) && Lang(r, u[i..]);
  }

  /** What the concatenation spells is in the language. */
  lemma ChainSpells(g: Nfa, g': Nfa, a: Fragment, l: Node, lo: nat, mid: nat, b: Fragment, r: Node, hi: nat, ins: seq<nat>,
                    outs: seq<Exit>, u: seq<Byte>)
    requires Wired(g) && Wired(g') && Chained(g, g', a, l, lo, mid, b, r, hi, ins)
    requires forall v: nat :: Exits(outs, v) <==> Exits(b.outs, v) || (b.skip.Some? && Exits(a.outs, v))
    requires Spelled(g', ins, outs, u)
    ensures Lang(Concatenation(l, r), u)
  {
    hide *;
    ChainedUse(g, g', a, l, lo, mid, b, r, hi, ins);
    SameVertices(g, g', a.outs, b.ins);
    var v := SpelledTo(g', ins, outs, u);
    if Exits(b.outs, v) {
      ExitInside(b.outs, v, mid, hi);
      var i := ChainSecond(g, g', a, l, lo, mid, b, r, hi, ins, u, v);
      SpelledIsLang(g, b, r, mid, hi, u[i..], v);
      ConcatenationMeans(l, r, u, i);
    } else {
      ExitInside(a.outs, v, lo, mid);
      ChainFirst(g, g', a, l, lo, mid, b, r, hi, ins, u, v);
      SpelledIsLang(g, a, l, lo, mid, u, v);
      assert u[..|u|] == u && u[|u|..] == [];
      ConcatenationMeans(l, r, u, |u|);
    }
  }

  /** And what is in the language is spelled. */
  lemma ChainReads(g: Nfa, g': Nfa, a: Fragment, l: Node, lo: nat, mid: nat, b: Fragment, r: Node, hi: nat, ins: seq<nat>,
                   outs: seq<Exit>, u: seq<Byte>)
    requires Wired(g) && Wired(g') && Chained(g, g', a, l, lo, mid, b, r, hi, ins)
    requires forall v: nat :: Exits(outs, v) <==> Exits(b.outs, v) || (b.skip.Some? && Exits(a.outs, v))
    requires u != [] && Lang(Concatenation(l, r), u)
    ensures Spelled(g', ins, outs, u)
  {
    hide *;
    var i := ConcatenationSplits(l, r, u);
    ChainedUse(g, g', a, l, lo, mid, b, r, hi, ins);
    SameVertices(g, g', a.outs, b.ins);
    if i == 0 {
      assert u[..0] == [] && u[0..] == u;
      var v := SpelledBy(g, b, r, mid, hi, u);
      RunsMore(g, g', b.ins, ins, u, v);
      SpelledAt(g', ins, outs, u, v);
    } else if i == |u| {
      assert u[..i] == u && u[i..] == [];
      var p := SpelledBy(g, a, l, lo, mid, u);
      RunsMore(g, g', a.ins, ins, u, p);
      SpelledAt(g', ins, outs, u, p);
    } else {
      var v := ChainAcross(g, g', a, l, lo, mid, b, r, hi, ins, u, i);
      SpelledAt(g', ins, outs, u, v);
    }
  }

  lemma ChainAcross(g: Nfa, g': Nfa, a: Fragment, l: Node, lo: nat, mid: nat, b: Fragment, r: Node, hi: nat, ins: seq<nat>,
                    u: seq<Byte>, i: nat) returns (v: nat)
    requires Wired(g) && Wired(g') && Chained(g, g', a, l, lo, mid, b, r, hi, ins)
    requires 0 < i < |u| && Lang(l, u[..i]) && Lang(r, u[i..])
    ensures Exits(b.outs, v) && Runs(g', ins, u, v)
  {
    hide *;
    ChainedUse(g, g', a, l, lo, mid, b, r, hi, ins);
    SameVertices(g, g', a.outs, b.ins);
    var p := SpelledBy(g, a, l, lo, mid, u[..i]);
    RunsMore(g, g', a.ins, ins, u[..i], p);
    v := SpelledBy(g, b, r, mid, hi, u[i..]);
    RunsMore(g, g', b.ins, b.ins, u[i..], v);
    RunsJoin(g, g', a.outs, b.ins, ins, u[..i], p, u[i..], v);
    assert u[..i] + u[i..] == u;
  }

  lemma ConcatenatedOuts(a: Fragment, b: Fragment, outs: seq<Exit>, v: nat)
    requires (a.skip.Some? ==> a.skip.value <= |a.ins|) && SameExits(a.outs, outs)
    ensures Exits(Concatenated(a, b, outs).outs, v) <==> Exits(b.outs, v) || (b.skip.Some? && Exits(a.outs, v))
  {
    ExitsEither(outs, b.outs, v);
    if i :| 0 <= i < |a.outs| && a.outs[i].v == v {
      assert outs[i].v == v;
    }
    if i :| 0 <= i < |outs| && outs[i].v == v {
      assert a.outs[i].v == v;
    }
  }

  lemma ConcatenatedInside(a: Fragment, b: Fragment, outs: seq<Exit>, lo: nat, mid: nat, hi: nat)
    requires a.skip.Some? ==> a.skip.value <= |a.ins|
    requires Inside(a.ins, lo, mid) && Inside(b.ins, mid, hi) && lo <= mid <= hi
    ensures Inside(Concatenated(a, b, outs).ins, lo, hi)
  {
    var f := Concatenated(a, b, outs);
    forall i | 0 <= i < |f.ins| ensures lo <= f.ins[i] < hi {
      ConcatenatedIns(a, b, outs, f.ins[i]);
    }
  }

  lemma MovedExits(outs: seq<Exit>, outs': seq<Exit>, lo: nat, hi: nat)
    requires SameExits(outs, outs') && ExitsInside(outs, lo, hi)
    requires forall i, j :: 0 <= i < j < |outs| ==> outs[i].v != outs[j].v
    ensures ExitsInside(outs', lo, hi)
    ensures forall i, j :: 0 <= i < j < |outs'| ==> outs'[i].v != outs'[j].v
  {
  }

  lemma ConcatenateBuilds(g: Nfa, g': Nfa, a: Fragment, l: Node, lo: nat, mid: nat, b: Fragment, r: Node, hi: nat, outs: seq<Exit>)
    requires Wired(g) && Wired(g') && Adjacent(g, a, l, lo, mid, b, r, hi)
    requires Linked(g, g', a.outs, b.ins) && SameExits(a.outs, outs)
    ensures a.skip.Some? ==> a.skip.value <= |a.ins|
    ensures Builds(g', Concatenated(a, b, outs), Concatenation(l, r), lo, hi)
  {
    BuildsShape(g, a, l, lo, mid);
    BuildsShape(g, b, r, mid, hi);
    hide *;
    var f := Concatenated(a, b, outs);
    forall x: nat ensures x in f.ins <==> x in a.ins || (a.skip.Some? && x in b.ins) {
      ConcatenatedIns(a, b, outs, x);
    }
    ChainedBy(g, g', a, l, lo, mid, b, r, hi, f.ins);
    forall v: nat ensures Exits(f.outs, v) <==> Exits(b.outs, v) || (b.skip.Some? && Exits(a.outs, v)) {
      ConcatenatedOuts(a, b, outs, v);
    }
    forall u: seq<Byte> | u != [] ensures Spelled(g', f.ins, f.outs, u) <==> Lang(Concatenation(l, r), u) {
      if Spelled(g', f.ins, f.outs, u) {
        ChainSpells(g, g', a, l, lo, mid, b, r, hi, f.ins, f.outs, u);
      }
      if Lang(Concatenation(l, r), u) {
        ChainReads(g, g', a, l, lo, mid, b, r, hi, f.ins, f.outs, u);
      }
    }
    EmptyConcatenation(l, r);
    JoinIslands(g, g', a.outs, b.ins, lo, mid, hi);
    ConcatenatedInside(a, b, outs, lo, mid, hi);
    MovedExits(a.outs, outs, lo, mid);
    DisjointExits(outs, b.outs, lo, mid, hi);
    ConcatenatedShape(a, b, outs, lo, mid, hi);
    BuildsBy(g', f, Concatenation(l, r), lo, hi);
  }

  lemma EmptyConcatenation(l: Node, r: Node)
    ensures Lang(Concatenation(l, r), []) <==> Lang(l, []) && Lang(r, [])
  {
    var u: seq<Byte> := [];
    if Lang(Concatenation(l, r), u) {
      var i := ConcatenationSplits(l, r, u);
      assert u[..i] == u && u[i..] == u;
    }
    if Lang(l, u) && Lang(r, u) {
      assert u[..0] == u && u[0..] == u;
      ConcatenationMeans(l, r, u, 0);
    }
  }

  lemma BuildsShape(g: Nfa, f: Fragment, n: Node, lo: nat, hi: nat)
    requires Wired(g) && Builds(g, f, n, lo, hi)
    ensures Island(g, lo, hi) && lo <= hi && Inside(f.ins, lo, hi) && ExitsInside(f.outs, lo, hi)
    ensures (f.skip.Some? ==> f.skip.value <= |f.ins|) && (f.skip.Some? <==> Lang(n, []))
    ensures forall i, j :: 0 <= i < j < |f.outs| ==> f.outs[i].v != f.outs[j].v
  {
    hide Spelled, Lang, Inside, ExitsInside;
  }

  lemma BuildsBy(g: Nfa, f: Fragment, n: Node, lo: nat, hi: nat)
    requires Wired(g) && Island(g, lo, hi) && Inside(f.ins, lo, hi) && ExitsInside(f.outs, lo, hi)
    requires (f.skip.Some? ==> f.skip.value <= |f.ins|) && (f.skip.Some? <==> Lang(n, []))
    requires forall i, j :: 0 <= i < j < |f.outs| ==> f.outs[i].v != f.outs[j].v
    requires forall u: seq<Byte> :: u != [] ==> (Spelled(g, f.ins, f.outs, u) <==> Lang(n, u))
    ensures Builds(g, f, n, lo, hi)
  {
    hide Spelled, Lang, Inside, ExitsInside, Island;
  }

  lemma ChainedBy(g: Nfa, g': Nfa, a: Fragment, l: Node, lo: nat, mid: nat, b: Fragment, r: Node, hi: nat, ins: seq<nat>)
    requires Wired(g) && Wired(g') && Adjacent(g, a, l, lo, mid, b, r, hi) && Linked(g, g', a.outs, b.ins)
    requires forall x: nat :: x in ins <==> x in a.ins || (a.skip.Some? && x in b.ins)
    ensures Chained(g, g', a, l, lo, mid, b, r, hi, ins)
  {
    hide Adjacent, Linked;
  }

  lemma ConcatenatedShape(a: Fragment, b: Fragment, outs: seq<Exit>, lo: nat, mid: nat, hi: nat)
    requires (a.skip.Some? ==> a.skip.value <= |a.ins|) && (b.skip.Some? ==> b.skip.value <= |b.ins|)
    requires ExitsInside(outs + b.outs, lo, hi) && ExitsInside(b.outs, mid, hi) && lo <= mid
    requires forall i, j :: 0 <= i < j < |outs + b.outs| ==> (outs + b.outs)[i].v != (outs + b.outs)[j].v
    requires forall i, j :: 0 <= i < j < |b.outs| ==> b.outs[i].v != b.outs[j].v
    ensures var f := Concatenated(a, b, outs);
            && (f.skip.Some? ==> f.skip.value <= |f.ins|) && (f.skip.Some? <==> a.skip.Some? && b.skip.Some?)
            && ExitsInside(f.outs, lo, hi)
            && forall i, j :: 0 <= i < j < |f.outs| ==> f.outs[i].v != f.outs[j].v
  {
  }
}
