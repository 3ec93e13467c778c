/**
 What the builder's operations keep of every fragment: it spells the strings of its
 tree, prefers what the tree prefers, and leads from every vertex to an exit
 (src/lib/nfabuilder.cpp:303-432).
 */
module Assembling {
  import opened Basics
  import opened Automata
  import opened Regexes
  import opened Choices
  import opened Fragments
  import opened Orders

  /** Some path leads from v to an exit. */
  ghost predicate WayOut(g: Nfa, outs: seq<Exit>, v: nat) {
    exists p :: Path(g, p) && p[0] == v && Exits(outs, p[|p| - 1])
  }

  ghost predicate Alive(g: Nfa, f: Fragment, lo: nat, hi: nat) {
    f.ins != [] && forall v: nat :: lo <= v < hi ==> WayOut(g, f.outs, v)
  }

  ghost predicate Assembled(g: Nfa, f: Fragment, n: Node, lo: nat, hi: nat)
    requires Wired(g)
  {
    Builds(g, f, n, lo, hi) && Alive(g, f, lo, hi) && Prefers(g, f, n)
  }

  lemma AssembledShape(g: Nfa, f: Fragment, n: Node, lo: nat, hi: nat)
    requires Wired(g) && Assembled(g, f, n, lo, hi)
    ensures Island(g, lo, hi) && lo <= hi && Inside(f.ins, lo, hi) && ExitsInside(f.outs, lo, hi)
    ensures (f.skip.Some? ==> f.skip.value <= |f.ins|) && (f.skip.Some? <==> Lang(n, []))
    ensures forall i, j :: 0 <= i < j < |f.outs| ==> f.outs[i].v != f.outs[j].v
  {
    hide Builds, Alive, Prefers;
    BuildsShape(g, f, n, lo, hi);
  }

  lemma AssembledUse(g: Nfa, f: Fragment, n: Node, lo: nat, hi: nat)
    requires Wired(g) && Assembled(g, f, n, lo, hi)
    ensures Builds(g, f, n, lo, hi) && Alive(g, f, lo, hi) && Prefers(g, f, n) && Pointed(g, f.outs) && DistinctExits(f.outs)
    ensures hi <= |g.vertices| && f.ins != []
  {
    hide Pref, Entering, Lang, Spelled, Pointed, WayOut;
  }

  lemma AssembledBy(g: Nfa, f: Fragment, n: Node, lo: nat, hi: nat)
    requires Wired(g) && Builds(g, f, n, lo, hi) && Alive(g, f, lo, hi) && Prefers(g, f, n)
    ensures Assembled(g, f, n, lo, hi)
  {
  }

  // ----- ways out -----

  lemma {:induction false} PathKept(g: Nfa, g': Nfa, lo: nat, hi: nat, p: seq<nat>, i: nat)
    requires Wired(g) && Island(g, lo, hi) && Path(g, p) && lo <= p[0] < hi && i < |p|
    ensures lo <= p[i] < hi
    decreases i
  {
    if i > 0 {
      PathKept(g, g', lo, hi, p, i - 1);
      assert p[i - 1 + 1] in g.out[p[i - 1]];
    }
  }

  /** With no fewer edges and exits there is still a way out. */
  lemma WayOutKept(g: Nfa, g': Nfa, outs: seq<Exit>, outs': seq<Exit>, lo: nat, hi: nat, v: nat)
    requires Wired(g) && Wired(g') && Island(g, lo, hi) && hi <= |g'.vertices| && lo <= v < hi && WayOut(g, outs, v)
    requires forall h: nat, t: nat :: lo <= h < hi && t in g.out[h] ==> t in g'.out[h]
    requires forall x: nat :: Exits(outs, x) ==> Exits(outs', x)
    ensures WayOut(g', outs', v)
  {
    var p :| Path(g, p) && p[0] == v && Exits(outs, p[|p| - 1]);
    forall i | 0 <= i < |p| ensures lo <= p[i] < hi {
      PathKept(g, g', lo, hi, p, i);
    }
    forall i | 0 <= i < |p| - 1 ensures p[i + 1] in g'.out[p[i]] {
      assert p[i + 1] in g.out[p[i]];
    }
    assert Path(g', p);
  }

  lemma AliveKept(g: Nfa, g': Nfa, f: Fragment, f': Fragment, lo: nat, hi: nat)
    requires Wired(g) && Wired(g') && Island(g, lo, hi) && hi <= |g'.vertices| && Alive(g, f, lo, hi) && f'.ins == f.ins
    requires forall h: nat, t: nat :: lo <= h < hi && t in g.out[h] ==> t in g'.out[h]
    requires forall x: nat :: Exits(f.outs, x) ==> Exits(f'.outs, x)
    ensures Alive(g', f', lo, hi)
  {
    forall v: nat | lo <= v < hi ensures WayOut(g', f'.outs, v) {
      WayOutKept(g, g', f.outs, f'.outs, lo, hi, v);
    }
  }

  lemma AlternateAlive(g: Nfa, a: Fragment, lo: nat, mid: nat, b: Fragment, hi: nat)
    requires Wired(g) && Island(g, lo, mid) && Island(g, mid, hi) && Alive(g, a, lo, mid) && Alive(g, b, mid, hi)
    ensures Alive(g, Alternated(a, b), lo, hi)
  {
    var f := Alternated(a, b);
    forall x: nat ensures Exits(f.outs, x) <==> Exits(a.outs, x) || Exits(b.outs, x) {
      ExitsEither(a.outs, b.outs, x);
    }
    forall v: nat | lo <= v < hi ensures WayOut(g, f.outs, v) {
      if v < mid {
        WayOutKept(g, g, a.outs, f.outs, lo, mid, v);
      } else {
        WayOutKept(g, g, b.outs, f.outs, mid, hi, v);
      }
    }
    hide WayOut;
  }

  /** From an exit of the first part there is a way through the second. */
  lemma WayAcross(g: Nfa, g': Nfa, a: Fragment, b: Fragment, outs: seq<Exit>, lo: nat, mid: nat, hi: nat, v: nat)
    requires Wired(g) && Wired(g') && Island(g, lo, mid) && Island(g, mid, hi) && Inside(b.ins, mid, hi)
    requires Linked(g, g', a.outs, b.ins) && Alive(g, a, lo, mid) && Alive(g, b, mid, hi) && lo <= v < mid
    requires forall x: nat :: Exits(b.outs, x) ==> Exits(outs, x)
    ensures WayOut(g', outs, v)
  {
    SameVertices(g, g', a.outs, b.ins);
    var t := b.ins[0];
    assert t in b.ins;
    WayOutKept(g, g', b.outs, outs, mid, hi, t);
    WayOutKept(g, g', a.outs, a.outs, lo, mid, v);
    var p :| Path(g', p) && p[0] == v && Exits(a.outs, p[|p| - 1]);
    var q :| Path(g', q) && q[0] == t && Exits(outs, q[|q| - 1]);
    LinkedEdge(g, g', a.outs, b.ins, p[|p| - 1], t);
    PathsJoin(g', p, q);
    assert (p + q)[|p + q| - 1] == q[|q| - 1] && (p + q)[0] == v;
  }

  lemma PathsJoin(g: Nfa, p: seq<nat>, q: seq<nat>)
    requires Path(g, p) && Path(g, q) && q[0] in g.out[p[|p| - 1]]
    ensures Path(g, p + q)
  {
    var r := p + q;
    forall i | 0 <= i < |r| - 1 ensures r[i + 1] in g.out[r[i]] {
      if i + 1 < |p| {
        assert p[i + 1] in g.out[p[i]];
      } else if i >= |p| {
        assert q[i - |p| + 1] in g.out[q[i - |p|]];
      }
    }
  }

  lemma ConcatenateAlive(g: Nfa, g': Nfa, a: Fragment, lo: nat, mid: nat, b: Fragment, hi: nat, outs: seq<Exit>)
    requires Wired(g) && Wired(g') && Island(g, lo, mid) && Island(g, mid, hi) && Inside(b.ins, mid, hi)
    requires Linked(g, g', a.outs, b.ins) && Alive(g, a, lo, mid) && Alive(g, b, mid, hi) && (a.skip.Some? ==> a.skip.value <= |a.ins|)
    ensures Alive(g', Concatenated(a, b, outs), lo, hi)
  {
    var f := Concatenated(a, b, outs);
    forall x: nat ensures Exits(b.outs, x) ==> Exits(f.outs, x) {
      ExitsEither(outs, b.outs, x);
    }
    SameVertices(g, g', a.outs, b.ins);
    forall v: nat | lo <= v < hi ensures WayOut(g', f.outs, v) {
      if v < mid {
        WayAcross(g, g', a, b, f.outs, lo, mid, hi, v);
      } else {
        WayOutKept(g, g', b.outs, f.outs, mid, hi, v);
      }
    }
    assert a.ins[0] in a.ins;
    ConcatenatedIns(a, b, outs, a.ins[0]);
    hide WayOut;
  }

  // ----- insertion points -----

  lemma {:induction false} PointIs(outs: seq<Exit>, i: nat)
    requires DistinctExits(outs) && i < |outs|
    ensures Point(outs, outs[i].v) == Some(outs[i].pos)
    decreases i
  {
    if i > 0 {
      assert outs[0].v != outs[i].v;
      PointIs(outs[1..], i - 1);
    }
  }

  lemma {:induction false} PointNone(outs: seq<Exit>, v: nat)
    ensures Point(outs, v).None? <==> !Exits(outs, v)
    decreases |outs|
  {
    if outs != [] {
      PointNone(outs[1..], v);
      if outs[0].v != v {
        if i :| 0 <= i < |outs| && outs[i].v == v {
          assert outs[1..][i - 1].v == v;
        }
        if i :| 0 <= i < |outs[1..]| && outs[1..][i].v == v {
          assert outs[i + 1].v == v;
        }
      }
    }
  }

  lemma {:induction false} PointMoved(outs: seq<Exit>, shift: nat, v: nat)
    ensures Point(Moved(outs, |outs|, shift), v)
         == if Point(outs, v).Some? then Some(Point(outs, v).value + shift) else None
    decreases |outs|
  {
    if outs != [] {
      assert Moved(outs, |outs|, shift)[1..] == Moved(outs[1..], |outs[1..]|, shift);
      PointMoved(outs[1..], shift, v);
    }
  }

  /** patch_mid splices. */
  lemma PatchedSplices(g: Nfa, g': Nfa, src: seq<Exit>, dst: seq<nat>, shift: nat, keep: bool, outs: seq<Exit>, lo: nat, hi: nat)
    requires Wired(g) && Patched(g, g', src, |src|, dst) && DistinctExits(src) && Pointed(g, src)
    requires hi <= |g.vertices| && Within(g, dst) && shift <= |dst|
    requires forall v: nat :: lo <= v < hi ==> Point(outs, v) == if keep then Point(Moved(src, |src|, shift), v) else None
    ensures Wired(g') && SplicedIn(g, src, g', outs, lo, hi, dst, shift, keep)
  {
    assert src[..|src|] == src;
    forall v: nat | lo <= v < hi ensures SplicedAt(g, src, g', outs, dst, shift, keep, v) {
      PointMoved(src, shift, v);
      PointNone(src, v);
      if Exits(src, v) {
        var i :| 0 <= i < |src| && src[i].v == v;
        PointIs(src, i);
        SplicedIs(g.out[v], src[i].pos, dst);
      }
    }
  }

  lemma SplicedIs(s: seq<nat>, pos: nat, dst: seq<nat>)
    requires pos <= |s|
    ensures Spliced(s, pos, dst) == s[..pos] + dst + s[pos..]
  {
  }

  lemma PatchedPoints(g: Nfa, g': Nfa, src: seq<Exit>, dst: seq<nat>, shift: nat)
    requires Wired(g) && Patched(g, g', src, |src|, dst) && Pointed(g, src) && shift <= |dst|
    ensures Pointed(g', Moved(src, |src|, shift))
  {
    forall i | 0 <= i < |src| ensures src[i].v < |g'.out| && src[i].pos + shift <= |g'.out[src[i].v]| {
      SplicedIs(g.out[src[i].v], src[i].pos, dst);
    }
  }

  // ----- the operations -----

  lemma AssembledElsewhere(g: Nfa, g': Nfa, f: Fragment, n: Node, lo: nat, hi: nat)
    requires Wired(g) && Wired(g') && Assembled(g, f, n, lo, hi) && SameWithin(g, g', lo, hi) && Island(g', lo, hi)
    ensures Assembled(g', f, n, lo, hi)
  {
    AssembledUse(g, f, n, lo, hi);
    AssembledShape(g, f, n, lo, hi);
    BuildsElsewhere(g, g', f, n, lo, hi);
    WithinUse(g, g', f.outs, lo, hi);
    hide *;
    AliveKept(g, g', f, f, lo, hi);
    PrefersElsewhere(g, g', f, n, lo, hi);
    AssembledBy(g', f, n, lo, hi);
  }

  lemma WithinUse(g: Nfa, g': Nfa, outs: seq<Exit>, lo: nat, hi: nat)
    requires Wired(g) && Wired(g') && SameWithin(g, g', lo, hi)
    ensures SameOrder(g, outs, g', outs, lo, hi) && hi <= |g'.vertices|
    ensures forall h: nat, t: nat :: lo <= h < hi && t in g.out[h] ==> t in g'.out[h]
  {
  }

  lemma QuestionAssembled(g: Nfa, f: Fragment, n: Node, greedy: bool, lo: nat, hi: nat)
    requires Wired(g) && Assembled(g, f, n, lo, hi)
    ensures Assembled(g, Skippable(f, greedy), Repetition(n, 0, Some(1), greedy), lo, hi)
  {
    var f' := Skippable(f, greedy);
    AssembledUse(g, f, n, lo, hi);
    AssembledShape(g, f, n, lo, hi);
    SkippableFacts(f, greedy);
    hide *;
    QuestionBuilds(g, f, f', n, greedy, lo, hi);
    AliveKept(g, g, f, f', lo, hi);
    QuestionPrefers(g, f, f', n, greedy);
    AssembledBy(g, f', Repetition(n, 0, Some(1), greedy), lo, hi);
  }

  lemma SkippableFacts(f: Fragment, greedy: bool)
    requires f.skip.Some? ==> f.skip.value <= |f.ins|
    ensures var f' := Skippable(f, greedy);
            && f'.ins == f.ins && f'.outs == f.outs && f'.skip.Some? && f'.skip.value <= |f.ins|
            && f'.skip == if !greedy then Some(0) else if f.skip.None? then Some(|f.ins|) else f.skip
  {
  }

  lemma PlusAssembled(g: Nfa, g': Nfa, f: Fragment, n: Node, greedy: bool, lo: nat, hi: nat)
    requires Wired(g) && Assembled(g, f, n, lo, hi) && Patched(g, g', f.outs, |f.outs|, f.ins)
    ensures Wired(g') && Assembled(g', Repeating(f, greedy), Repetition(n, 1, None, greedy), lo, hi)
  {
    var f' := Repeating(f, greedy);
    var shift := if greedy then |f.ins| else 0;
    AssembledUse(g, f, n, lo, hi);
    AssembledShape(g, f, n, lo, hi);
    PatchedLinks(g, g', f.outs, f.ins);
    RepeatingFacts(f, greedy);
    InsideWithin(g, f.ins, lo, hi);
    hide *;
    PatchedSplices(g, g', f.outs, f.ins, shift, true, f'.outs, lo, hi);
    PatchedPoints(g, g', f.outs, f.ins, shift);
    SameVertices(g, g', f.outs, f.ins);
    LoopsBy(g, g', f, f', greedy, lo, hi);
    PlusBuilds(g, g', f, f', n, greedy, lo, hi);
    PlusAlive(g, g', f, f', lo, hi);
    PlusPrefers(g, g', f, f', n, greedy, lo, hi);
    AssembledBy(g', f', Repetition(n, 1, None, greedy), lo, hi);
  }

  lemma RepeatingFacts(f: Fragment, greedy: bool)
    ensures var f' := Repeating(f, greedy);
            && f'.ins == f.ins && f'.skip == f.skip && SameExits(f.outs, f'.outs)
            && f'.outs == Moved(f.outs, |f.outs|, if greedy then |f.ins| else 0)
  {
  }

  lemma InsideWithin(g: Nfa, s: seq<nat>, lo: nat, hi: nat)
    requires Inside(s, lo, hi) && hi <= |g.vertices|
    ensures Within(g, s)
  {
  }

  lemma LoopsBy(g: Nfa, g': Nfa, f: Fragment, f': Fragment, greedy: bool, lo: nat, hi: nat)
    requires Wired(g) && Wired(g') && Island(g, lo, hi) && Inside(f.ins, lo, hi) && f'.ins == f.ins && f'.skip == f.skip
    requires SplicedIn(g, f.outs, g', f'.outs, lo, hi, f.ins, if greedy then |f.ins| else 0, true)
    ensures LoopsBack(g, g', f, f', greedy, lo, hi)
  {
  }

  lemma PlusAlive(g: Nfa, g': Nfa, f: Fragment, f': Fragment, lo: nat, hi: nat)
    requires Wired(g) && Wired(g') && Island(g, lo, hi) && Alive(g, f, lo, hi) && f'.ins == f.ins && SameExits(f.outs, f'.outs)
    requires g'.vertices == g.vertices && |g'.out| == |g.out| && hi <= |g.vertices|
    requires forall v: nat, t: nat :: v < |g.out| && t in g.out[v] ==> t in g'.out[v]
    ensures Alive(g', f', lo, hi)
  {
    forall x: nat ensures Exits(f.outs, x) ==> Exits(f'.outs, x) {
      if i :| 0 <= i < |f.outs| && f.outs[i].v == x {
        assert f'.outs[i].v == x;
      }
    }
    hide Alive, Exits;
    AliveKept(g, g', f, f', lo, hi);
  }

  lemma StarAssembled(g: Nfa, f: Fragment, n: Node, greedy: bool, lo: nat, hi: nat)
    requires Wired(g) && Assembled(g, f, Repetition(n, 1, None, greedy), lo, hi)
    ensures Assembled(g, Skippable(f, greedy), Repetition(n, 0, None, greedy), lo, hi)
  {
    var f' := Skippable(f, greedy);
    AssembledUse(g, f, Repetition(n, 1, None, greedy), lo, hi);
    AssembledShape(g, f, Repetition(n, 1, None, greedy), lo, hi);
    SkippableFacts(f, greedy);
    hide *;
    StarBuilds(g, f, f', n, greedy, lo, hi);
    AliveKept(g, g, f, f', lo, hi);
    StarPrefers(g, f, f', n, greedy);
    AssembledBy(g, f', Repetition(n, 0, None, greedy), lo, hi);
  }

  lemma AlternateAssembled(g: Nfa, a: Fragment, l: Node, lo: nat, mid: nat, b: Fragment, r: Node, hi: nat)
    requires Wired(g) && Assembled(g, a, l, lo, mid) && Assembled(g, b, r, mid, hi)
    ensures Assembled(g, Alternated(a, b), Alternation(l, r), lo, hi)
  {
    AssembledUse(g, a, l, lo, mid);
    AssembledUse(g, b, r, mid, hi);
    AssembledShape(g, a, l, lo, mid);
    AssembledShape(g, b, r, mid, hi);
    AdjacentFrom(g, a, l, lo, mid, b, r, hi);
    hide *;
    AlternateBuilds(g, a, l, lo, mid, b, r, hi);
    AlternateAlive(g, a, lo, mid, b, hi);
    AlternatePrefers(g, a, l, lo, mid, b, r, hi);
    AssembledBy(g, Alternated(a, b), Alternation(l, r), lo, hi);
  }

  lemma AdjacentFrom(g: Nfa, a: Fragment, l: Node, lo: nat, mid: nat, b: Fragment, r: Node, hi: nat)
    requires Wired(g) && Builds(g, a, l, lo, mid) && Builds(g, b, r, mid, hi)
    ensures Adjacent(g, a, l, lo, mid, b, r, hi)
  {
  }

  lemma ConcatenateAssembled(g: Nfa, g': Nfa, a: Fragment, l: Node, lo: nat, mid: nat, b: Fragment, r: Node, hi: nat)
    requires Wired(g) && Assembled(g, a, l, lo, mid) && Assembled(g, b, r, mid, hi) && Patched(g, g', a.outs, |a.outs|, b.ins)
    ensures a.skip.Some? ==> a.skip.value <= |a.ins|
    ensures Wired(g') && Assembled(g', Concatenated(a, b, Onward(a, b)), Concatenation(l, r), lo, hi)
  {
    var f := Concatenated(a, b, Onward(a, b));
    var stop := if b.skip.Some? then b.skip.value else |b.ins|;
    AssembledUse(g, a, l, lo, mid);
    AssembledUse(g, b, r, mid, hi);
    AssembledShape(g, a, l, lo, mid);
    AssembledShape(g, b, r, mid, hi);
    AdjacentFrom(g, a, l, lo, mid, b, r, hi);
    PatchedLinks(g, g', a.outs, b.ins);
    OnwardFacts(a, b);
    InsideWithin(g, b.ins, mid, hi);
    hide *;
    SameVertices(g, g', a.outs, b.ins);
    ChainPoints(a, b, lo, mid, hi);
    PatchedSplices(g, g', a.outs, b.ins, stop, b.skip.Some?, f.outs, lo, mid);
    SecondSame(g, g', a, b, f.outs, lo, mid, hi);
    ChainsBy(g, g', a, b, f.outs, lo, mid, hi);
    ConcatenateBuilds(g, g', a, l, lo, mid, b, r, hi, Onward(a, b));
    ConcatenateAlive(g, g', a, lo, mid, b, hi, Onward(a, b));
    PatchedPoints(g, g', a.outs, b.ins, stop);
    ChainPointed(g, g', a, b);
    ConcatenatePrefers(g, g', a, b, f, l, r, lo, mid, hi);
    AssembledBy(g', f, Concatenation(l, r), lo, hi);
  }

  lemma OnwardFacts(a: Fragment, b: Fragment)
    requires (a.skip.Some? ==> a.skip.value <= |a.ins|) && (b.skip.Some? ==> b.skip.value <= |b.ins|)
    ensures Onward(a, b) == Moved(a.outs, |a.outs|, if b.skip.Some? then b.skip.value else |b.ins|)
    ensures SameExits(a.outs, Onward(a, b))
    ensures var f := Concatenated(a, b, Onward(a, b));
            && f.outs == (if b.skip.Some? then Onward(a, b) + b.outs else b.outs)
            && f == Concatenated(a, b, f.outs).(outs := f.outs)
  {
  }

  lemma ChainPoints(a: Fragment, b: Fragment, lo: nat, mid: nat, hi: nat)
    requires (a.skip.Some? ==> a.skip.value <= |a.ins|) && (b.skip.Some? ==> b.skip.value <= |b.ins|)
    requires ExitsInside(a.outs, lo, mid) && ExitsInside(b.outs, mid, hi)
    ensures var outs := Concatenated(a, b, Onward(a, b)).outs;
            var stop := if b.skip.Some? then b.skip.value else |b.ins|;
            && (forall v: nat :: lo <= v < mid ==> Point(outs, v) == if b.skip.Some? then Point(Moved(a.outs, |a.outs|, stop), v) else None)
            && (forall v: nat :: mid <= v < hi ==> Point(outs, v) == Point(b.outs, v))
  {
    OnwardFacts(a, b);
    var moved := Onward(a, b);
    var outs := Concatenated(a, b, Onward(a, b)).outs;
    var stop := if b.skip.Some? then b.skip.value else |b.ins|;
    forall v: nat
      ensures lo <= v < mid ==> Point(outs, v) == if b.skip.Some? then Point(Moved(a.outs, |a.outs|, stop), v) else None
      ensures mid <= v < hi ==> Point(outs, v) == Point(b.outs, v)
    {
      PointAppend(moved, b.outs, v);
      if v < mid {
        PointOutside(b.outs, mid, hi, v);
      } else {
        PointOutside(a.outs, lo, mid, v);
        PointMoved(a.outs, stop, v);
      }
    }
  }

  lemma SecondSame(g: Nfa, g': Nfa, a: Fragment, b: Fragment, outs: seq<Exit>, lo: nat, mid: nat, hi: nat)
    requires Wired(g) && Wired(g') && Linked(g, g', a.outs, b.ins) && ExitsInside(a.outs, lo, mid) && hi <= |g.vertices|
    requires forall v: nat :: mid <= v < hi ==> Point(outs, v) == Point(b.outs, v)
    ensures SameOrder(g, b.outs, g', outs, mid, hi)
  {
    forall v: nat | mid <= v < hi ensures g'.out[v] == g.out[v] {
      if Exits(a.outs, v) {
        ExitInside(a.outs, v, lo, mid);
      }
    }
  }

  lemma ChainsBy(g: Nfa, g': Nfa, a: Fragment, b: Fragment, outs: seq<Exit>, lo: nat, mid: nat, hi: nat)
    requires Wired(g) && Wired(g') && (b.skip.Some? ==> b.skip.value <= |b.ins|)
    requires Island(g, lo, mid) && Island(g, mid, hi) && Inside(a.ins, lo, mid) && Inside(b.ins, mid, hi)
    requires SplicedIn(g, a.outs, g', outs, lo, mid, b.ins, if b.skip.Some? then b.skip.value else |b.ins|, b.skip.Some?)
    requires SameOrder(g, b.outs, g', outs, mid, hi)
    ensures Chains(g, g', a, b, outs, lo, mid, hi)
  {
  }

  lemma ChainPointed(g: Nfa, g': Nfa, a: Fragment, b: Fragment)
    requires (a.skip.Some? ==> a.skip.value <= |a.ins|) && (b.skip.Some? ==> b.skip.value <= |b.ins|)
    requires Wired(g) && Patched(g, g', a.outs, |a.outs|, b.ins) && Pointed(g, b.outs)
    requires Pointed(g', Moved(a.outs, |a.outs|, if b.skip.Some? then b.skip.value else |b.ins|))
    ensures Pointed(g', Concatenated(a, b, Onward(a, b)).outs)
  {
    OnwardFacts(a, b);
    assert a.outs[..|a.outs|] == a.outs;
    forall i | 0 <= i < |b.outs| ensures b.outs[i].v < |g'.out| && b.outs[i].pos <= |g'.out[b.outs[i].v]| {
      var v := b.outs[i].v;
      if Exits(a.outs, v) {
        var j :| 0 <= j < |a.outs| && a.outs[j].v == v;
        SplicedLonger(g.out[v], a.outs[j].pos, b.ins);
      }
    }
  }

  lemma SplicedLonger(s: seq<nat>, pos: nat, dst: seq<nat>)
    ensures |Spliced(s, pos, dst)| == |s| + |dst|
  {
  }
}
