/**
 The order of the edges of a fragment: where it is entered, and wherever one of its
 exits is, the vertices to go on with come in the order in which the tree prefers its
 strings, and what follows the fragment comes at the insertion point
 (src/lib/nfabuilder.cpp:106-145, src/lib/nfabuilder.cpp:303-432).
 */
module Orders {
  import opened Basics
  import opened Automata
  import opened Regexes
  import opened Choices
  import opened Fragments

  // ----- running through a fragment -----

  /** Where in the out list of v what follows is inserted, if v is an exit. */
  function Point(outs: seq<Exit>, v: nat): Option<nat>
    decreases |outs|
  {
    if outs == [] then None else if outs[0].v == v then Some(outs[0].pos) else Point(outs[1..], v)
  }

  /** The preferred way on from v, whose byte has been read; k is what follows the fragment. */
  ghost function At(g: Nfa, outs: seq<Exit>, k: Rest, v: nat, w: seq<Byte>): Option<nat>
    requires Wired(g) && v < |g.vertices|
    decreases |w|, 2, 0
  {
    var p := Point(outs, v);
    if p.Some? && p.value <= |g.out[v]| then Through(g, outs, k, g.out[v], p.value, w) else Along(g, outs, k, g.out[v], w)
  }

  /** The vertices of ts in order, and what follows before the one at p. */
  ghost function Through(g: Nfa, outs: seq<Exit>, k: Rest, ts: seq<nat>, p: nat, w: seq<Byte>): Option<nat>
    requires Wired(g) && Within(g, ts) && p <= |ts|
    decreases |w|, 1, |ts| + 1
  {
    Prefer(Along(g, outs, k, ts[..p], w), Prefer(k(w), Along(g, outs, k, ts[p..], w)))
  }

  ghost function Along(g: Nfa, outs: seq<Exit>, k: Rest, ts: seq<nat>, w: seq<Byte>): Option<nat>
    requires Wired(g) && Within(g, ts)
    decreases |w|, 1, |ts|
  {
    if ts == [] then None else Prefer(Over(g, outs, k, ts[0], w), Along(g, outs, k, ts[1..], w))
  }

  ghost function Over(g: Nfa, outs: seq<Exit>, k: Rest, t: nat, w: seq<Byte>): Option<nat>
    requires Wired(g) && t < |g.vertices|
    decreases |w|, 0, 0
  {
    if w != [] && Permits(g, t, w[0]) then Beyond(1, At(g, outs, k, t, w[1..])) else None
  }

  /** The preferred way through the fragment, from its in list on. */
  ghost function Entering(g: Nfa, f: Fragment, k: Rest, w: seq<Byte>): Option<nat>
    requires Wired(g) && Within(g, f.ins)
  {
    if f.skip.Some? && f.skip.value <= |f.ins| then Through(g, f.outs, k, f.ins, f.skip.value, w)
    else Along(g, f.outs, k, f.ins, w)
  }

  /** The insertion points are in the out lists. */
  ghost predicate Pointed(g: Nfa, outs: seq<Exit>) {
    forall i :: 0 <= i < |outs| ==> outs[i].v < |g.out| && outs[i].pos <= |g.out[outs[i].v]|
  }

  /** The fragment prefers what the tree prefers, whatever follows. */
  ghost predicate Prefers(g: Nfa, f: Fragment, n: Node)
    requires Wired(g)
  {
    && Within(g, f.ins) && Pointed(g, f.outs)
    && forall k: Rest, w: seq<Byte> :: Entering(g, f, k, w) == Pref(n, w, k)
  }

  // ----- lists -----

  lemma {:induction false} AlongAppend(g: Nfa, outs: seq<Exit>, k: Rest, a: seq<nat>, b: seq<nat>, w: seq<Byte>)
    requires Wired(g) && Within(g, a) && Within(g, b)
    ensures Within(g, a + b) && Along(g, outs, k, a + b, w) == Prefer(Along(g, outs, k, a, w), Along(g, outs, k, b, w))
    decreases |a|
  {
    if a == [] {
      assert a + b == b;
    } else {
      assert (a + b)[0] == a[0] && (a + b)[1..] == a[1..] + b;
      AlongAppend(g, outs, k, a[1..], b, w);
    }
  }

  lemma AlongCut(g: Nfa, outs: seq<Exit>, k: Rest, ts: seq<nat>, p: nat, w: seq<Byte>)
    requires Wired(g) && Within(g, ts) && p <= |ts|
    ensures Along(g, outs, k, ts, w) == Prefer(Along(g, outs, k, ts[..p], w), Along(g, outs, k, ts[p..], w))
  {
    assert ts == ts[..p] + ts[p..];
    AlongAppend(g, outs, k, ts[..p], ts[p..], w);
  }

  // ----- what does not matter -----

  /** The same from t on, for whatever is shorter than w. */
  ghost predicate SameOnwards(g: Nfa, outs: seq<Exit>, j: Rest, g': Nfa, outs': seq<Exit>, k: Rest, t: nat, w: seq<Byte>)
    requires Wired(g) && Wired(g')
  {
    t < |g.vertices| && t < |g'.vertices| && g'.vertices[t] == g.vertices[t]
    && (w != [] ==> At(g', outs', k, t, w[1..]) == At(g, outs, j, t, w[1..]))
  }

  lemma {:induction false} AlongSame(g: Nfa, outs: seq<Exit>, j: Rest, g': Nfa, outs': seq<Exit>, k: Rest, ts: seq<nat>, w: seq<Byte>)
    requires Wired(g) && Wired(g') && Within(g, ts)
    requires forall i :: 0 <= i < |ts| ==> SameOnwards(g, outs, j, g', outs', k, ts[i], w)
    ensures Within(g', ts) && Along(g', outs', k, ts, w) == Along(g, outs, j, ts, w)
    decreases |ts|
  {
    if ts != [] {
      assert SameOnwards(g, outs, j, g', outs', k, ts[0], w);
      AlongSame(g, outs, j, g', outs', k, ts[1..], w);
    }
    forall i | 0 <= i < |ts| ensures ts[i] < |g'.vertices| {
      assert SameOnwards(g, outs, j, g', outs', k, ts[i], w);
    }
  }

  /** Rests that agree on what is shorter than n, or not longer. */
  ghost predicate Agree(j: Rest, k: Rest, n: nat) {
    forall u: seq<Byte> :: |u| < n ==> j(u) == k(u)
  }

  lemma {:induction false} AtAgree(g: Nfa, outs: seq<Exit>, j: Rest, k: Rest, v: nat, w: seq<Byte>)
    requires Wired(g) && v < |g.vertices| && Agree(j, k, |w| + 1)
    ensures At(g, outs, k, v, w) == At(g, outs, j, v, w)
    decreases |w|, 1
  {
    assert Within(g, g.out[v]);
    AlongAgree(g, outs, j, k, g.out[v], w);
    var p := Point(outs, v);
    if p.Some? && p.value <= |g.out[v]| {
      AlongAgree(g, outs, j, k, g.out[v][..p.value], w);
      AlongAgree(g, outs, j, k, g.out[v][p.value..], w);
    }
    hide Along, Wired;
  }

  /** Bytes are read before anything follows. */
  lemma {:induction false} AlongAgree(g: Nfa, outs: seq<Exit>, j: Rest, k: Rest, ts: seq<nat>, w: seq<Byte>)
    requires Wired(g) && Within(g, ts) && Agree(j, k, |w|)
    ensures Along(g, outs, k, ts, w) == Along(g, outs, j, ts, w)
    decreases |w|, 0
  {
    forall i | 0 <= i < |ts| ensures SameOnwards(g, outs, j, g, outs, k, ts[i], w) {
      if w != [] {
        AtAgree(g, outs, j, k, ts[i], w[1..]);
      }
    }
    AlongSame(g, outs, j, g, outs, k, ts, w);
  }

  /** Within an island, the vertices, the out lists and the insertion points are the same. */
  ghost predicate SameOrder(g: Nfa, outs: seq<Exit>, g': Nfa, outs': seq<Exit>, lo: nat, hi: nat)
    requires Wired(g) && Wired(g')
  {
    && hi <= |g.vertices| && hi <= |g'.vertices|
    && (forall v: nat :: lo <= v < hi ==> g'.vertices[v] == g.vertices[v] && g'.out[v] == g.out[v])
    && (forall v: nat :: lo <= v < hi ==> Point(outs', v) == Point(outs, v))
  }

  lemma IslandStays(g: Nfa, lo: nat, hi: nat, v: nat, i: nat)
    requires Wired(g) && Island(g, lo, hi) && lo <= v < hi && v < |g.out| && i < |g.out[v]|
    ensures lo <= g.out[v][i] < hi
  {
    assert g.out[v][i] in g.out[v];
  }

  lemma {:induction false} AtElsewhere(g: Nfa, outs: seq<Exit>, g': Nfa, outs': seq<Exit>, k: Rest, lo: nat, hi: nat, v: nat, w: seq<Byte>)
    requires Wired(g) && Wired(g') && Island(g, lo, hi) && SameOrder(g, outs, g', outs', lo, hi) && lo <= v < hi
    ensures v < |g.vertices| && v < |g'.vertices| && At(g', outs', k, v, w) == At(g, outs, k, v, w)
    decreases |w|, 1
  {
    var ts := g.out[v];
    assert Within(g, ts);
    forall i | 0 <= i < |ts| ensures lo <= ts[i] < hi {
      IslandStays(g, lo, hi, v, i);
    }
    assert g'.out[v] == ts;
    AlongElsewhere(g, outs, g', outs', k, lo, hi, ts, w);
    var p := Point(outs, v);
    if p.Some? && p.value <= |ts| {
      AlongElsewhere(g, outs, g', outs', k, lo, hi, ts[..p.value], w);
      AlongElsewhere(g, outs, g', outs', k, lo, hi, ts[p.value..], w);
    }
    hide Along, Wired, Island;
  }

  lemma {:induction false} AlongElsewhere(g: Nfa, outs: seq<Exit>, g': Nfa, outs': seq<Exit>, k: Rest, lo: nat, hi: nat, ts: seq<nat>, w: seq<Byte>)
    requires Wired(g) && Wired(g') && Island(g, lo, hi) && SameOrder(g, outs, g', outs', lo, hi) && Inside(ts, lo, hi)
    ensures Within(g, ts) && Within(g', ts) && Along(g', outs', k, ts, w) == Along(g, outs, k, ts, w)
    decreases |w|, 0
  {
    forall i | 0 <= i < |ts| ensures SameOnwards(g, outs, k, g', outs', k, ts[i], w) {
      if w != [] {
        AtElsewhere(g, outs, g', outs', k, lo, hi, ts[i], w[1..]);
      }
    }
    assert Within(g, ts);
    AlongSame(g, outs, k, g', outs', k, ts, w);
  }

  /** The fragment, in an automaton that has it unchanged. */
  lemma EnteringElsewhere(g: Nfa, f: Fragment, g': Nfa, outs': seq<Exit>, k: Rest, lo: nat, hi: nat, w: seq<Byte>)
    requires Wired(g) && Wired(g') && Island(g, lo, hi) && SameOrder(g, f.outs, g', outs', lo, hi) && Inside(f.ins, lo, hi)
    ensures Within(g, f.ins) && Within(g', f.ins) && Entering(g', f.(outs := outs'), k, w) == Entering(g, f, k, w)
  {
    AlongElsewhere(g, f.outs, g', outs', k, lo, hi, f.ins, w);
    if f.skip.Some? && f.skip.value <= |f.ins| {
      AlongElsewhere(g, f.outs, g', outs', k, lo, hi, f.ins[..f.skip.value], w);
      AlongElsewhere(g, f.outs, g', outs', k, lo, hi, f.ins[f.skip.value..], w);
    }
    hide Along, Wired, Island, SameOrder;
  }

  lemma PrefersElsewhere(g: Nfa, g': Nfa, f: Fragment, n: Node, lo: nat, hi: nat)
    requires Wired(g) && Wired(g') && Prefers(g, f, n) && Island(g, lo, hi) && SameOrder(g, f.outs, g', f.outs, lo, hi)
    requires Inside(f.ins, lo, hi) && ExitsInside(f.outs, lo, hi)
    ensures Prefers(g', f, n)
  {
    assert f.(outs := f.outs) == f;
    forall k: Rest, w: seq<Byte> ensures Within(g', f.ins) && Entering(g', f, k, w) == Pref(n, w, k) {
      EnteringElsewhere(g, f, g', f.outs, k, lo, hi, w);
    }
    var w: seq<Byte> := [];
    EnteringElsewhere(g, f, g', f.outs, u => None, lo, hi, w);
    forall i | 0 <= i < |f.outs| ensures f.outs[i].v < |g'.out| && f.outs[i].pos <= |g'.out[f.outs[i].v]| {
      assert lo <= f.outs[i].v < hi;
    }
    hide Entering, Pref, Island;
  }

  // ----- splicing -----

  /** dst has been inserted at the exits of the island; what follows comes after the first stop of them, if at all. */
  ghost predicate SplicedIn(g: Nfa, outs: seq<Exit>, g': Nfa, outs': seq<Exit>, lo: nat, hi: nat, dst: seq<nat>, stop: nat, keep: bool)
    requires Wired(g) && Wired(g')
  {
    && hi <= |g.vertices| && hi <= |g'.vertices| && Within(g', dst) && stop <= |dst|
    && forall v: nat :: lo <= v < hi ==> SplicedAt(g, outs, g', outs', dst, stop, keep, v)
  }

  ghost predicate SplicedAt(g: Nfa, outs: seq<Exit>, g': Nfa, outs': seq<Exit>, dst: seq<nat>, stop: nat, keep: bool, v: nat)
    requires Wired(g) && Wired(g') && v < |g.vertices| && v < |g'.vertices|
  {
    var p := Point(outs, v);
    && g'.vertices[v] == g.vertices[v]
    && if p.None? then g'.out[v] == g.out[v] && Point(outs', v) == None
       else && p.value <= |g.out[v]|
            && g'.out[v] == g.out[v][..p.value] + dst + g.out[v][p.value..]
            && Point(outs', v) == if keep then Some(p.value + stop) else None
  }

  /** What the inserted vertices, and what follows among them, come to. */
  ghost function Insertion(g: Nfa, outs: seq<Exit>, k: Rest, dst: seq<nat>, stop: nat, keep: bool, w: seq<Byte>): Option<nat>
    requires Wired(g) && Within(g, dst) && stop <= |dst|
  {
    if keep then Through(g, outs, k, dst, stop, w) else Along(g, outs, k, dst, w)
  }

  /** Before, what has been inserted follows the fragment. */
  ghost predicate Follows(j: Rest, g: Nfa, outs: seq<Exit>, k: Rest, dst: seq<nat>, stop: nat, keep: bool, n: nat)
    requires Wired(g) && Within(g, dst) && stop <= |dst|
  {
    forall u: seq<Byte> :: |u| < n ==> j(u) == Insertion(g, outs, k, dst, stop, keep, u)
  }

  lemma ThroughSpliced(g: Nfa, outs: seq<Exit>, k: Rest, a: seq<nat>, dst: seq<nat>, b: seq<nat>, stop: nat, w: seq<Byte>)
    requires Wired(g) && Within(g, a) && Within(g, dst) && Within(g, b) && stop <= |dst|
    ensures var ts := a + dst + b;
            && Within(g, ts)
            && Through(g, outs, k, ts, |a| + stop, w)
               == Prefer(Along(g, outs, k, a, w), Prefer(Through(g, outs, k, dst, stop, w), Along(g, outs, k, b, w)))
            && Along(g, outs, k, ts, w)
               == Prefer(Along(g, outs, k, a, w), Prefer(Along(g, outs, k, dst, w), Along(g, outs, k, b, w)))
  {
    hide *;
    var ts := a + dst + b;
    assert ts[..|a| + stop] == a + dst[..stop] && ts[|a| + stop..] == dst[stop..] + b;
    assert ts == a + (dst + b);
    CutWithin(g, dst, stop);
    AlongAppend(g, outs, k, a, dst[..stop], w);
    AlongAppend(g, outs, k, dst[stop..], b, w);
    AlongAppend(g, outs, k, dst, b, w);
    AlongAppend(g, outs, k, a, dst + b, w);
    ThroughIs(g, outs, k, ts, |a| + stop, w);
    ThroughIs(g, outs, k, dst, stop, w);
    InTheMiddle(Along(g, outs, k, a, w), Along(g, outs, k, dst[..stop], w), k(w), Along(g, outs, k, dst[stop..], w), Along(g, outs, k, b, w));
  }

  lemma InTheMiddle(a: Option<nat>, d1: Option<nat>, k: Option<nat>, d2: Option<nat>, b: Option<nat>)
    ensures Prefer(Prefer(a, d1), Prefer(k, Prefer(d2, b))) == Prefer(a, Prefer(Prefer(d1, Prefer(k, d2)), b))
  {
  }

  lemma CutWithin(g: Nfa, ts: seq<nat>, p: nat)
    requires Within(g, ts) && p <= |ts|
    ensures Within(g, ts[..p]) && Within(g, ts[p..])
  {
  }

  lemma ThroughIs(g: Nfa, outs: seq<Exit>, k: Rest, ts: seq<nat>, p: nat, w: seq<Byte>)
    requires Wired(g) && Within(g, ts) && p <= |ts|
    ensures Within(g, ts[..p]) && Within(g, ts[p..])
    ensures Through(g, outs, k, ts, p, w) == Prefer(Along(g, outs, k, ts[..p], w), Prefer(k(w), Along(g, outs, k, ts[p..], w)))
  {
    hide Along;
  }

  lemma {:induction false} AtSpliced(g: Nfa, outs: seq<Exit>, j: Rest, g': Nfa, outs': seq<Exit>, k: Rest, lo: nat, hi: nat,
                                     dst: seq<nat>, stop: nat, keep: bool, v: nat, w: seq<Byte>)
    requires Wired(g) && Wired(g') && Island(g, lo, hi) && SplicedIn(g, outs, g', outs', lo, hi, dst, stop, keep) && lo <= v < hi
    requires Follows(j, g', outs', k, dst, stop, keep, |w| + 1)
    ensures At(g', outs', k, v, w) == At(g, outs, j, v, w)
    decreases |w|, 1
  {
    hide *;
    SplicedUse(g, outs, g', outs', lo, hi, dst, stop, keep, v);
    IslandOut(g, lo, hi, v);
    FollowsLess(j, g', outs', k, dst, stop, keep, |w|);
    var ts := g.out[v];
    AtIs(g, outs, j, v, w);
    AtIs(g', outs', k, v, w);
    AlongSpliced(g, outs, j, g', outs', k, lo, hi, dst, stop, keep, ts, w);
    var p := Point(outs, v);
    if p.Some? {
      CutInside(ts, p.value, lo, hi);
      AlongSpliced(g, outs, j, g', outs', k, lo, hi, dst, stop, keep, ts[..p.value], w);
      AlongSpliced(g, outs, j, g', outs', k, lo, hi, dst, stop, keep, ts[p.value..], w);
      ThroughSpliced(g', outs', k, ts[..p.value], dst, ts[p.value..], stop, w);
      InsertionIs(g', outs', k, dst, stop, keep, w);
      ThroughIs(g, outs, j, ts, p.value, w);
    }
  }

  lemma SplicedUse(g: Nfa, outs: seq<Exit>, g': Nfa, outs': seq<Exit>, lo: nat, hi: nat, dst: seq<nat>, stop: nat, keep: bool, v: nat)
    requires Wired(g) && Wired(g') && SplicedIn(g, outs, g', outs', lo, hi, dst, stop, keep) && lo <= v < hi
    ensures v < |g.vertices| && v < |g'.vertices| && v < |g.out| && v < |g'.out| && Within(g', dst) && stop <= |dst|
    ensures var p := Point(outs, v);
            if p.None? then g'.out[v] == g.out[v] && Point(outs', v) == None
            else && p.value <= |g.out[v]|
                 && g'.out[v] == g.out[v][..p.value] + dst + g.out[v][p.value..] && |g.out[v][..p.value]| == p.value
                 && p.value + stop <= |g'.out[v]|
                 && Point(outs', v) == if keep then Some(p.value + stop) else None
  {
    assert SplicedAt(g, outs, g', outs', dst, stop, keep, v);
  }

  lemma IslandOut(g: Nfa, lo: nat, hi: nat, v: nat)
    requires Wired(g) && Island(g, lo, hi) && lo <= v < hi
    ensures v < |g.out| && Inside(g.out[v], lo, hi) && Within(g, g.out[v])
  {
    forall i | 0 <= i < |g.out[v]| ensures lo <= g.out[v][i] < hi {
      IslandStays(g, lo, hi, v, i);
    }
  }

  lemma CutInside(ts: seq<nat>, p: nat, lo: nat, hi: nat)
    requires Inside(ts, lo, hi) && p <= |ts|
    ensures Inside(ts[..p], lo, hi) && Inside(ts[p..], lo, hi)
  {
  }

  lemma AtIs(g: Nfa, outs: seq<Exit>, k: Rest, v: nat, w: seq<Byte>)
    requires Wired(g) && v < |g.vertices|
    ensures v < |g.out| && Within(g, g.out[v])
    ensures var p := Point(outs, v);
            At(g, outs, k, v, w)
            == if p.Some? && p.value <= |g.out[v]| then Through(g, outs, k, g.out[v], p.value, w) else Along(g, outs, k, g.out[v], w)
  {
    hide Along, Through;
  }

  lemma {:induction false} AlongSpliced(g: Nfa, outs: seq<Exit>, j: Rest, g': Nfa, outs': seq<Exit>, k: Rest, lo: nat, hi: nat,
                                        dst: seq<nat>, stop: nat, keep: bool, ts: seq<nat>, w: seq<Byte>)
    requires Wired(g) && Wired(g') && Island(g, lo, hi) && SplicedIn(g, outs, g', outs', lo, hi, dst, stop, keep)
    requires Inside(ts, lo, hi) && Follows(j, g', outs', k, dst, stop, keep, |w|)
    ensures Within(g, ts) && Within(g', ts) && Along(g', outs', k, ts, w) == Along(g, outs, j, ts, w)
    decreases |w|, 0
  {
    forall i | 0 <= i < |ts| ensures SameOnwards(g, outs, j, g', outs', k, ts[i], w) {
      assert SplicedAt(g, outs, g', outs', dst, stop, keep, ts[i]);
      if w != [] {
        AtSpliced(g, outs, j, g', outs', k, lo, hi, dst, stop, keep, ts[i], w[1..]);
      }
    }
    assert Within(g, ts);
    AlongSame(g, outs, j, g', outs', k, ts, w);
  }

  // ----- question -----

  /** Splitting the in list where nothing follows makes no difference. */
  lemma EnteringNothing(g: Nfa, f: Fragment, k: Rest, w: seq<Byte>)
    requires Wired(g) && Within(g, f.ins) && k(w) == None
    ensures Entering(g, f, k, w) == Along(g, f.outs, k, f.ins, w)
  {
    if f.skip.Some? && f.skip.value <= |f.ins| {
      AlongCut(g, f.outs, k, f.ins, f.skip.value, w);
    }
    hide Along;
  }

  lemma ThroughEnd(g: Nfa, outs: seq<Exit>, k: Rest, ts: seq<nat>, w: seq<Byte>)
    requires Wired(g) && Within(g, ts)
    ensures Through(g, outs, k, ts, |ts|, w) == Prefer(Along(g, outs, k, ts, w), k(w))
    ensures Through(g, outs, k, ts, 0, w) == Prefer(k(w), Along(g, outs, k, ts, w))
  {
    assert ts[..|ts|] == ts && ts[|ts|..] == [] && ts[..0] == [] && ts[0..] == ts;
    assert Along(g, outs, k, ts[|ts|..], w) == None && Along(g, outs, k, ts[..0], w) == None;
    hide Along;
  }

  /** question and question_ng, on what the fragment comes to. */
  lemma EnteringSkipped(g: Nfa, f: Fragment, f': Fragment, greedy: bool, k: Rest, w: seq<Byte>)
    requires Wired(g) && Within(g, f.ins) && f'.ins == f.ins && f'.outs == f.outs && (f.skip.Some? ==> f.skip.value <= |f.ins|)
    requires f'.skip == if !greedy then Some(0) else if f.skip.None? then Some(|f.ins|) else f.skip
    ensures Entering(g, f', k, w) == Either(greedy, Entering(g, f, k, w), k(w))
  {
    ThroughEnd(g, f.outs, k, f.ins, w);
    if f.skip.Some? {
      AlongCut(g, f.outs, k, f.ins, f.skip.value, w);
    }
    hide Along;
  }

  lemma QuestionPrefers(g: Nfa, f: Fragment, f': Fragment, n: Node, greedy: bool)
    requires Wired(g) && Prefers(g, f, n) && f'.ins == f.ins && f'.outs == f.outs && (f.skip.Some? ==> f.skip.value <= |f.ins|)
    requires f'.skip == if !greedy then Some(0) else if f.skip.None? then Some(|f.ins|) else f.skip
    ensures Prefers(g, f', Repetition(n, 0, Some(1), greedy))
  {
    forall k: Rest, w: seq<Byte> ensures Entering(g, f', k, w) == Pref(Repetition(n, 0, Some(1), greedy), w, k) {
      EnteringSkipped(g, f, f', greedy, k, w);
      CountedZero(n, greedy, k);
      PrefSame(n, w, u => Counted(n, 0, Some(0), greedy, u, k), k);
    }
    hide Entering;
  }

  // ----- plus and star -----

  /** The fragment, its exits linked back to its ins. */
  ghost predicate LoopsBack(g: Nfa, g': Nfa, f: Fragment, f': Fragment, greedy: bool, lo: nat, hi: nat)
    requires Wired(g) && Wired(g')
  {
    && Island(g, lo, hi) && Inside(f.ins, lo, hi) && f'.ins == f.ins && f'.skip == f.skip
    && SplicedIn(g, f.outs, g', f'.outs, lo, hi, f.ins, if greedy then |f.ins| else 0, true)
  }

  /** What comes after an iteration: the next, and what follows the loop. */
  lemma {:induction false} LoopAgain(g: Nfa, g': Nfa, f: Fragment, f': Fragment, n: Node, greedy: bool, lo: nat, hi: nat, k: Rest, w: seq<Byte>)
    requires Wired(g) && Wired(g') && Prefers(g, f, n) && LoopsBack(g, g', f, f', greedy, lo, hi)
    ensures Within(g', f.ins)
    ensures Insertion(g', f'.outs, k, f.ins, if greedy then |f.ins| else 0, true, w) == Again(n, greedy, w, k)
    decreases |w|
  {
    hide Pref;
    var stop := if greedy then |f.ins| else 0;
    var j: Rest := u => Again(n, greedy, u, k);
    forall u: seq<Byte> | |u| < |w| ensures j(u) == Insertion(g', f'.outs, k, f.ins, stop, true, u) {
      LoopAgain(g, g', f, f', n, greedy, lo, hi, k, u);
    }
    AlongSpliced(g, f.outs, j, g', f'.outs, k, lo, hi, f.ins, stop, true, f.ins, w);
    var i: Rest := u => if |u| < |w| then Again(n, greedy, u, k) else None;
    AlongAgree(g, f.outs, i, j, f.ins, w);
    EnteringNothing(g, f, i, w);
    assert Entering(g, f, i, w) == Pref(n, w, i);
    ThroughEnd(g', f'.outs, k, f.ins, w);
    hide Along, Entering;
  }

  /** The loop is entered once, and what follows the first iteration is another or what follows the loop. */
  lemma LoopOnce(g: Nfa, g': Nfa, f: Fragment, f': Fragment, n: Node, greedy: bool, lo: nat, hi: nat, k: Rest, w: seq<Byte>)
    requires Wired(g) && Wired(g') && Prefers(g, f, n) && LoopsBack(g, g', f, f', greedy, lo, hi)
    ensures Within(g', f'.ins) && Entering(g', f', k, w) == OnceOrMore(n, greedy, w, k)
  {
    hide Pref;
    var stop := if greedy then |f.ins| else 0;
    var j: Rest := u => Again(n, greedy, u, k);
    forall u: seq<Byte> | |u| < |w| ensures j(u) == Insertion(g', f'.outs, k, f.ins, stop, true, u) {
      LoopAgain(g, g', f, f', n, greedy, lo, hi, k, u);
    }
    var i: Rest := u => if |u| < |w| then Again(n, greedy, u, k) else k(u);
    assert Entering(g, f, i, w) == Pref(n, w, i);
    PartsOnce(g, g', f, f', j, i, k, lo, hi, stop, f.ins, w);
    if f.skip.Some? && f.skip.value <= |f.ins| {
      PartsOnce(g, g', f, f', j, i, k, lo, hi, stop, f.ins[..f.skip.value], w);
      PartsOnce(g, g', f, f', j, i, k, lo, hi, stop, f.ins[f.skip.value..], w);
    }
    hide Along;
  }

  lemma PartsOnce(g: Nfa, g': Nfa, f: Fragment, f': Fragment, j: Rest, i: Rest, k: Rest, lo: nat, hi: nat, stop: nat, ts: seq<nat>, w: seq<Byte>)
    requires Wired(g) && Wired(g') && Island(g, lo, hi) && SplicedIn(g, f.outs, g', f'.outs, lo, hi, f.ins, stop, true)
    requires Inside(ts, lo, hi) && Follows(j, g', f'.outs, k, f.ins, stop, true, |w|) && Agree(i, j, |w|)
    ensures Within(g, ts) && Within(g', ts) && Along(g', f'.outs, k, ts, w) == Along(g, f.outs, i, ts, w)
  {
    AlongSpliced(g, f.outs, j, g', f'.outs, k, lo, hi, f.ins, stop, true, ts, w);
    AlongAgree(g, f.outs, i, j, ts, w);
  }

  lemma PlusPrefers(g: Nfa, g': Nfa, f: Fragment, f': Fragment, n: Node, greedy: bool, lo: nat, hi: nat)
    requires Wired(g) && Wired(g') && Prefers(g, f, n) && LoopsBack(g, g', f, f', greedy, lo, hi) && Pointed(g', f'.outs)
    ensures Prefers(g', f', Repetition(n, 1, None, greedy))
  {
    hide LoopsBack, Wired, Pointed;
    LoopOnce(g, g', f, f', n, greedy, lo, hi, u => None, []);
    forall k: Rest, w: seq<Byte> ensures Entering(g', f', k, w) == Pref(Repetition(n, 1, None, greedy), w, k) {
      LoopOnce(g, g', f, f', n, greedy, lo, hi, k, w);
    }
    hide Entering, OnceOrMore;
  }

  /** A loop that can be skipped. */
  lemma StarPrefers(g: Nfa, f: Fragment, f': Fragment, n: Node, greedy: bool)
    requires Wired(g) && Prefers(g, f, Repetition(n, 1, None, greedy)) && (f.skip.Some? ==> f.skip.value <= |f.ins|)
    requires f'.ins == f.ins && f'.outs == f.outs
    requires f'.skip == if !greedy then Some(0) else if f.skip.None? then Some(|f.ins|) else f.skip
    ensures Prefers(g, f', Repetition(n, 0, None, greedy))
  {
    forall k: Rest, w: seq<Byte> ensures Entering(g, f', k, w) == Pref(Repetition(n, 0, None, greedy), w, k) {
      EnteringSkipped(g, f, f', greedy, k, w);
      assert Entering(g, f, k, w) == Pref(Repetition(n, 1, None, greedy), w, k);
      StarIs(n, greedy, w, k);
    }
    hide Entering, OnceOrMore, Pref;
  }

  lemma StarIs(n: Node, greedy: bool, w: seq<Byte>, k: Rest)
    ensures Pref(Repetition(n, 0, None, greedy), w, k) == Either(greedy, Pref(Repetition(n, 1, None, greedy), w, k), k(w))
  {
    hide OnceOrMore;
  }

  // ----- alternation -----

  lemma {:induction false} PointAppend(a: seq<Exit>, b: seq<Exit>, v: nat)
    ensures Point(a + b, v) == if Point(a, v).Some? then Point(a, v) else Point(b, v)
    decreases |a|
  {
    if a == [] {
      assert a + b == b;
    } else {
      assert (a + b)[0] == a[0] && (a + b)[1..] == a[1..] + b;
      PointAppend(a[1..], b, v);
    }
  }

  lemma {:induction false} PointOutside(outs: seq<Exit>, lo: nat, hi: nat, v: nat)
    requires ExitsInside(outs, lo, hi) && !(lo <= v < hi)
    ensures Point(outs, v) == None
    decreases |outs|
  {
    if outs != [] {
      assert lo <= outs[0].v < hi;
      PointOutside(outs[1..], lo, hi, v);
    }
  }

  lemma BothOrders(g: Nfa, a: seq<Exit>, b: seq<Exit>, lo: nat, mid: nat, hi: nat)
    requires Wired(g) && ExitsInside(a, lo, mid) && ExitsInside(b, mid, hi) && lo <= mid <= hi <= |g.vertices|
    ensures SameOrder(g, a, g, a + b, lo, mid) && SameOrder(g, b, g, a + b, mid, hi)
  {
    forall v: nat | lo <= v < hi ensures v < mid ==> Point(a + b, v) == Point(a, v)
                                 ensures mid <= v ==> Point(a + b, v) == Point(b, v) {
      PointAppend(a, b, v);
      if v < mid {
        PointOutside(b, mid, hi, v);
      } else {
        PointOutside(a, lo, mid, v);
      }
    }
  }

  lemma EnteringIs(g: Nfa, f: Fragment, k: Rest, w: seq<Byte>)
    requires Wired(g) && Within(g, f.ins) && (f.skip.Some? ==> f.skip.value <= |f.ins|)
    ensures f.skip.None? ==> Entering(g, f, k, w) == Along(g, f.outs, k, f.ins, w)
    ensures f.skip.Some? ==>
              Entering(g, f, k, w)
              == Prefer(Along(g, f.outs, k, f.ins[..f.skip.value], w), Prefer(k(w), Along(g, f.outs, k, f.ins[f.skip.value..], w)))
  {
    hide Along;
  }

  /** The second time that nothing is read does not matter. */
  lemma SkippedTwice(a1: Option<nat>, a2: Option<nat>, b1: Option<nat>, b2: Option<nat>, k: Option<nat>)
    ensures Prefer(a1, Prefer(k, Prefer(a2, Prefer(b1, b2)))) == Prefer(Prefer(a1, Prefer(k, a2)), Prefer(b1, Prefer(k, b2)))
  {
  }

  lemma AlternatedSizes(a: Fragment, b: Fragment)
    requires (a.skip.Some? ==> a.skip.value <= |a.ins|) && (b.skip.Some? ==> b.skip.value <= |b.ins|)
    ensures var f := Alternated(a, b);
            && f.ins == a.ins + b.ins && (f.skip.Some? ==> f.skip.value <= |f.ins|)
            && (a.skip.Some? ==> f.skip == a.skip && f.ins[..a.skip.value] == a.ins[..a.skip.value]
                                 && f.ins[a.skip.value..] == a.ins[a.skip.value..] + b.ins)
            && (a.skip.None? && b.skip.Some? ==>
                  f.skip == Some(|a.ins| + b.skip.value) && f.ins[..|a.ins| + b.skip.value] == a.ins + b.ins[..b.skip.value]
                  && f.ins[|a.ins| + b.skip.value..] == b.ins[b.skip.value..])
            && (a.skip.None? && b.skip.None? ==> f.skip == None)
  {
  }

  lemma EnteringBoth(g: Nfa, a: Fragment, b: Fragment, k: Rest, w: seq<Byte>)
    requires Wired(g) && Within(g, a.ins) && Within(g, b.ins) && a.outs == b.outs
    requires (a.skip.Some? ==> a.skip.value <= |a.ins|) && (b.skip.Some? ==> b.skip.value <= |b.ins|)
    ensures var f := Alternated(a, b).(outs := a.outs);
            Within(g, f.ins) && Entering(g, f, k, w) == Prefer(Entering(g, a, k, w), Entering(g, b, k, w))
  {
    var f := Alternated(a, b).(outs := a.outs);
    AlternatedSizes(a, b);
    hide *;
    AlongAppend(g, a.outs, k, a.ins, b.ins, w);
    EnteringIs(g, f, k, w);
    EnteringIs(g, a, k, w);
    EnteringIs(g, b, k, w);
    WithinParts(g, a);
    WithinParts(g, b);
    if a.skip.Some? {
      AlongAppend(g, a.outs, k, a.ins[a.skip.value..], b.ins, w);
    }
    if b.skip.Some? {
      AlongCut(g, b.outs, k, b.ins, b.skip.value, w);
      AlongAppend(g, a.outs, k, a.ins, b.ins[..b.skip.value], w);
    }
    var (aSkips, bSkips) := (a.skip.Some?, b.skip.Some?);
    BothPrefer(aSkips, bSkips, Along(g, a.outs, k, a.ins, w),
               if aSkips then Along(g, a.outs, k, a.ins[..a.skip.value], w) else None,
               if aSkips then Along(g, a.outs, k, a.ins[a.skip.value..], w) else None,
               Along(g, b.outs, k, b.ins, w),
               if bSkips then Along(g, b.outs, k, b.ins[..b.skip.value], w) else None,
               if bSkips then Along(g, b.outs, k, b.ins[b.skip.value..], w) else None, k(w));
  }

  lemma WithinParts(g: Nfa, f: Fragment)
    requires Within(g, f.ins) && (f.skip.Some? ==> f.skip.value <= |f.ins|)
    ensures f.skip.Some? ==> Within(g, f.ins[..f.skip.value]) && Within(g, f.ins[f.skip.value..])
  {
  }

  /** The same, where the parts are worth a1 and a2, b1 and b2, and what follows k. */
  lemma BothPrefer(aSkips: bool, bSkips: bool, a: Option<nat>, a1: Option<nat>, a2: Option<nat>, b: Option<nat>, b1: Option<nat>,
                   b2: Option<nat>, k: Option<nat>)
    requires bSkips ==> b == Prefer(b1, b2)
    ensures (if aSkips then Prefer(a1, Prefer(k, Prefer(a2, b)))
             else if bSkips then Prefer(Prefer(a, b1), Prefer(k, b2)) else Prefer(a, b))
         == Prefer(if aSkips then Prefer(a1, Prefer(k, a2)) else a, if bSkips then Prefer(b1, Prefer(k, b2)) else b)
  {
    if aSkips && bSkips {
      SkippedTwice(a1, a2, b1, b2, k);
    } else if aSkips {
      PreferAssoc(k, a2, b);
      PreferAssoc(a1, Prefer(k, a2), b);
    } else if bSkips {
      PreferAssoc(a, b1, Prefer(k, b2));
    }
  }

  lemma AlternatePrefers(g: Nfa, a: Fragment, l: Node, lo: nat, mid: nat, b: Fragment, r: Node, hi: nat)
    requires Wired(g) && Prefers(g, a, l) && Prefers(g, b, r) && Island(g, lo, mid) && Island(g, mid, hi)
    requires Inside(a.ins, lo, mid) && Inside(b.ins, mid, hi) && ExitsInside(a.outs, lo, mid) && ExitsInside(b.outs, mid, hi)
    requires (a.skip.Some? ==> a.skip.value <= |a.ins|) && (b.skip.Some? ==> b.skip.value <= |b.ins|)
    ensures Prefers(g, Alternated(a, b), Alternation(l, r))
  {
    var f := Alternated(a, b);
    BothOrders(g, a.outs, b.outs, lo, mid, hi);
    forall k: Rest, w: seq<Byte> ensures Within(g, f.ins) && Entering(g, f, k, w) == Pref(Alternation(l, r), w, k) {
      EnteringElsewhere(g, a, g, f.outs, k, lo, mid, w);
      EnteringElsewhere(g, b, g, f.outs, k, mid, hi, w);
      EnteringBoth(g, a.(outs := f.outs), b.(outs := f.outs), k, w);
      assert Alternated(a.(outs := f.outs), b.(outs := f.outs)).(outs := f.outs) == f;
      assert Entering(g, a, k, w) == Pref(l, w, k) && Entering(g, b, k, w) == Pref(r, w, k);
    }
    assert Within(g, f.ins);
    hide Entering, SameOrder, Island;
  }

  // ----- concatenation -----

  /** The exits of a have been linked to the ins of b, and go on after its skip. */
  ghost predicate Chains(g: Nfa, g': Nfa, a: Fragment, b: Fragment, outs: seq<Exit>, lo: nat, mid: nat, hi: nat)
    requires Wired(g) && Wired(g') && (b.skip.Some? ==> b.skip.value <= |b.ins|)
  {
    && Island(g, lo, mid) && Island(g, mid, hi) && Inside(a.ins, lo, mid) && Inside(b.ins, mid, hi)
    && SplicedIn(g, a.outs, g', outs, lo, mid, b.ins, if b.skip.Some? then b.skip.value else |b.ins|, b.skip.Some?)
    && SameOrder(g, b.outs, g', outs, mid, hi)
  }

  lemma InsertionIsEntering(g: Nfa, b: Fragment, k: Rest, w: seq<Byte>)
    requires Wired(g) && Within(g, b.ins) && (b.skip.Some? ==> b.skip.value <= |b.ins|)
    ensures Insertion(g, b.outs, k, b.ins, if b.skip.Some? then b.skip.value else |b.ins|, b.skip.Some?, w) == Entering(g, b, k, w)
  {
  }

  /** What follows the first part, when k follows the second. */
  ghost function Then(r: Node, k: Rest): Rest {
    u => Pref(r, u, k)
  }

  lemma SecondFollows(g: Nfa, g': Nfa, a: Fragment, b: Fragment, outs: seq<Exit>, r: Node, lo: nat, mid: nat, hi: nat, k: Rest, n: nat)
    requires Wired(g) && Wired(g') && Prefers(g, b, r) && (b.skip.Some? ==> b.skip.value <= |b.ins|)
    requires Chains(g, g', a, b, outs, lo, mid, hi)
    ensures Within(g', b.ins)
    ensures Follows(Then(r, k), g', outs, k, b.ins, if b.skip.Some? then b.skip.value else |b.ins|, b.skip.Some?, n)
  {
    forall u: seq<Byte>
      ensures Within(g', b.ins)
      ensures Then(r, k)(u) == Insertion(g', outs, k, b.ins, if b.skip.Some? then b.skip.value else |b.ins|, b.skip.Some?, u)
    {
      EnteringElsewhere(g, b, g', outs, k, mid, hi, u);
      InsertionIsEntering(g', b.(outs := outs), k, u);
      assert Entering(g, b, k, u) == Pref(r, u, k);
    }
    var u: seq<Byte> := [];
    EnteringElsewhere(g, b, g', outs, k, mid, hi, u);
    hide Entering, Insertion, Pref, SplicedIn, SameOrder;
  }

  lemma ChainIns(a: Fragment, b: Fragment, f: Fragment)
    requires (a.skip.Some? ==> a.skip.value <= |a.ins|) && (b.skip.Some? ==> b.skip.value <= |b.ins|)
    requires f == Concatenated(a, b, f.outs).(outs := f.outs)
    ensures f.ins == if a.skip.Some? then a.ins[..a.skip.value] + b.ins + a.ins[a.skip.value..] else a.ins
    ensures f.skip == if a.skip.None? || b.skip.None? then None else Some(|a.ins[..a.skip.value]| + b.skip.value)
    ensures f.skip.Some? ==> f.skip.value <= |f.ins|
  {
  }

  lemma EnteringChain(g: Nfa, g': Nfa, a: Fragment, b: Fragment, f: Fragment, l: Node, r: Node, lo: nat, mid: nat, hi: nat, k: Rest, w: seq<Byte>)
    requires Wired(g) && Wired(g') && Prefers(g, a, l) && Prefers(g, b, r)
    requires (a.skip.Some? ==> a.skip.value <= |a.ins|) && (b.skip.Some? ==> b.skip.value <= |b.ins|)
    requires Chains(g, g', a, b, f.outs, lo, mid, hi) && f == Concatenated(a, b, f.outs).(outs := f.outs)
    ensures Within(g', f.ins) && Entering(g', f, k, w) == Pref(Concatenation(l, r), w, k)
  {
    hide *;
    var j := Then(r, k);
    var stop, keep := if b.skip.Some? then b.skip.value else |b.ins|, b.skip.Some?;
    PrefersAt(g, a, l, j, w);
    ThenIs(l, r, k, w);
    ChainIns(a, b, f);
    ChainParts(g, g', a, b, f.outs, lo, mid, hi);
    SecondFollows(g, g', a, b, f.outs, r, lo, mid, hi, k, |w| + 1);
    FollowsLess(j, g', f.outs, k, b.ins, stop, keep, |w|);
    AlongSpliced(g, a.outs, j, g', f.outs, k, lo, mid, b.ins, stop, keep, a.ins, w);
    EnteringIs(g, a, j, w);
    if a.skip.Some? {
      var a1, a2 := a.ins[..a.skip.value], a.ins[a.skip.value..];
      InsideParts(a, lo, mid);
      AlongSpliced(g, a.outs, j, g', f.outs, k, lo, mid, b.ins, stop, keep, a1, w);
      AlongSpliced(g, a.outs, j, g', f.outs, k, lo, mid, b.ins, stop, keep, a2, w);
      ThroughSpliced(g', f.outs, k, a1, b.ins, a2, stop, w);
      InsertionIs(g', f.outs, k, b.ins, stop, keep, w);
    }
    EnteringThrough(g', f, k, w);
  }

  lemma PrefersAt(g: Nfa, f: Fragment, n: Node, k: Rest, w: seq<Byte>)
    requires Wired(g) && Prefers(g, f, n)
    ensures Within(g, f.ins) && Entering(g, f, k, w) == Pref(n, w, k)
  {
    hide Entering, Pref;
  }

  lemma ThenIs(l: Node, r: Node, k: Rest, w: seq<Byte>)
    ensures Pref(Concatenation(l, r), w, k) == Pref(l, w, Then(r, k))
  {
    PrefSame(l, w, u => Pref(r, u, k), Then(r, k));
  }

  lemma EnteringThrough(g: Nfa, f: Fragment, k: Rest, w: seq<Byte>)
    requires Wired(g) && Within(g, f.ins) && (f.skip.Some? ==> f.skip.value <= |f.ins|)
    ensures Entering(g, f, k, w) == if f.skip.Some? then Through(g, f.outs, k, f.ins, f.skip.value, w) else Along(g, f.outs, k, f.ins, w)
  {
  }

  lemma InsertionIs(g: Nfa, outs: seq<Exit>, k: Rest, dst: seq<nat>, stop: nat, keep: bool, w: seq<Byte>)
    requires Wired(g) && Within(g, dst) && stop <= |dst|
    ensures Insertion(g, outs, k, dst, stop, keep, w) == if keep then Through(g, outs, k, dst, stop, w) else Along(g, outs, k, dst, w)
  {
  }

  lemma InsideParts(f: Fragment, lo: nat, hi: nat)
    requires Inside(f.ins, lo, hi) && f.skip.Some? && f.skip.value <= |f.ins|
    ensures Inside(f.ins[..f.skip.value], lo, hi) && Inside(f.ins[f.skip.value..], lo, hi)
  {
  }

  lemma FollowsLess(j: Rest, g: Nfa, outs: seq<Exit>, k: Rest, dst: seq<nat>, stop: nat, keep: bool, n: nat)
    requires Wired(g) && Within(g, dst) && stop <= |dst| && Follows(j, g, outs, k, dst, stop, keep, n + 1)
    ensures Follows(j, g, outs, k, dst, stop, keep, n)
    ensures forall u: seq<Byte> :: |u| == n ==> j(u) == Insertion(g, outs, k, dst, stop, keep, u)
  {
    hide Insertion;
  }

  lemma ChainParts(g: Nfa, g': Nfa, a: Fragment, b: Fragment, outs: seq<Exit>, lo: nat, mid: nat, hi: nat)
    requires Wired(g) && Wired(g') && (b.skip.Some? ==> b.skip.value <= |b.ins|) && Chains(g, g', a, b, outs, lo, mid, hi)
    ensures Island(g, lo, mid) && Inside(a.ins, lo, mid) && Within(g', b.ins)
    ensures SplicedIn(g, a.outs, g', outs, lo, mid, b.ins, if b.skip.Some? then b.skip.value else |b.ins|, b.skip.Some?)
  {
    hide Island, SplicedAt, SameOrder;
  }

  lemma ConcatenatePrefers(g: Nfa, g': Nfa, a: Fragment, b: Fragment, f: Fragment, l: Node, r: Node, lo: nat, mid: nat, hi: nat)
    requires Wired(g) && Wired(g') && Prefers(g, a, l) && Prefers(g, b, r)
    requires (a.skip.Some? ==> a.skip.value <= |a.ins|) && (b.skip.Some? ==> b.skip.value <= |b.ins|)
    requires Chains(g, g', a, b, f.outs, lo, mid, hi) && f == Concatenated(a, b, f.outs).(outs := f.outs)
    requires Pointed(g', f.outs)
    ensures Prefers(g', f, Concatenation(l, r))
  {
    forall k: Rest, w: seq<Byte> ensures Within(g', f.ins) && Entering(g', f, k, w) == Pref(Concatenation(l, r), w, k) {
      EnteringChain(g, g', a, b, f, l, r, lo, mid, hi, k, w);
    }
    EnteringChain(g, g', a, b, f, l, r, lo, mid, hi, u => None, []);
    hide Entering, Pref, Chains;
  }
}
