/**
 Which string of a tree is preferred: alternatives in order, greedy repetitions
 once more before they stop, nongreedy ones stop first. What ends without reading
 on is only taken if nothing that reads on is found: an automaton has no place among
 its edges for a match (src/lib/nfabuilder.cpp:303-432).
 */
module Choices {
  import opened Basics
  import opened Regexes
  import opened Traversals

  /** What is read after a string of the tree: how many bytes, if it finds something. */
  type Rest = seq<Byte> -> Option<nat>

  /** The first that reads on, else one that ends here. */
  function Prefer(a: Option<nat>, b: Option<nat>): Option<nat> {
    if a.Some? && a.value > 0 then a
    else if b.Some? && b.value > 0 then b
    else OrElse(a, b)
  }

  lemma PreferAssoc(a: Option<nat>, b: Option<nat>, c: Option<nat>)
    ensures Prefer(Prefer(a, b), c) == Prefer(a, Prefer(b, c))
  {
  }

  /** n bytes more. */
  function Beyond(n: nat, r: Option<nat>): Option<nat> {
    if r.Some? then Some(n + r.value) else None
  }

  function Either(greedy: bool, more: Option<nat>, less: Option<nat>): Option<nat> {
    if greedy then Prefer(more, less) else Prefer(less, more)
  }

  // ----- leaves -----

  /** The first of the ranges that begins w, and after which something is found. */
  ghost function FirstRange(ranges: Ranges, w: seq<Byte>, k: Rest): Option<nat>
    decreases |ranges|
  {
    if ranges == [] then None else Prefer(ThisRange(ranges[0], w, k), FirstRange(ranges[1..], w, k))
  }

  ghost function ThisRange(enc: seq<set<Byte>>, w: seq<Byte>, k: Rest): Option<nat> {
    if |enc| <= |w| && InProduct(enc, w[..|enc|]) then Beyond(|enc|, k(w[|enc|..])) else None
  }

  // ----- trees -----

  /** How many bytes of w the preferred string of n takes, together with what k reads after it. */
  ghost function Pref(n: Node, w: seq<Byte>, k: Rest): Option<nat>
    decreases n, 0, 0
  {
    match n
    case Literal(enc) => if enc <= w then Beyond(|enc|, k(w[|enc|..])) else None
    case RawByte(b) => if w != [] && w[0] == b then Beyond(1, k(w[1..])) else None
    case CharClass(ranges, breakout, additive) =>
      var r := Adjusted(ranges, breakout, additive);
      if r.Some? then FirstRange(r.value, w, k) else None
    case Alternation(l, r) => Prefer(Pref(l, w, k), Pref(r, w, k))
    case Concatenation(l, r) => Pref(l, w, u => Pref(r, u, k))
    case Repetition(c, min, max, greedy) => Counted(c, min, max, greedy, w, k)
  }

  /** One time after the other: those that have to be, then those that may be. */
  ghost function Counted(c: Node, min: nat, max: Option<nat>, greedy: bool, w: seq<Byte>, k: Rest): Option<nat>
    decreases c, 2, min + if max.Some? then max.value else 0
  {
    if min == 1 && max.None? then OnceOrMore(c, greedy, w, k)
    else if min > 0 then Pref(c, w, u => Counted(c, min - 1, OneLess(max), greedy, u, k))
    else if max.None? then Either(greedy, OnceOrMore(c, greedy, w, k), k(w))
    else if max.value == 0 then k(w)
    else Either(greedy, Pref(c, w, u => Counted(c, 0, OneLess(max), greedy, u, k)), k(w))
  }

  function OneLess(max: Option<nat>): Option<nat> {
    if max.Some? && max.value > 0 then Some(max.value - 1) else max
  }

  /** Once, and if bytes were read, again. */
  ghost function OnceOrMore(c: Node, greedy: bool, w: seq<Byte>, k: Rest): Option<nat>
    decreases c, 1, |w|
  {
    Pref(c, w, u => if |u| < |w| then Again(c, greedy, u, k) else k(u))
  }

  /** Again and again, as long as bytes are read. */
  ghost function Again(c: Node, greedy: bool, w: seq<Byte>, k: Rest): Option<nat>
    decreases c, 1, |w|
  {
    Either(greedy, Pref(c, w, u => if |u| < |w| then Again(c, greedy, u, k) else None), k(w))
  }

  // ----- the same rest -----

  ghost predicate SameRest(j: Rest, k: Rest) {
    forall u: seq<Byte> :: j(u) == k(u)
  }

  /** The same rest of everything that can be left of w. */
  ghost predicate SameOn(j: Rest, k: Rest, w: seq<Byte>) {
    forall u: seq<Byte> :: |u| <= |w| ==> j(u) == k(u)
  }

  lemma {:induction false} FirstRangeSame(ranges: Ranges, w: seq<Byte>, j: Rest, k: Rest)
    requires SameOn(j, k, w)
    ensures FirstRange(ranges, w, j) == FirstRange(ranges, w, k)
    decreases |ranges|
  {
    if ranges != [] {
      FirstRangeSame(ranges[1..], w, j, k);
    }
  }

  lemma {:induction false} PrefSame(n: Node, w: seq<Byte>, j: Rest, k: Rest)
    requires SameOn(j, k, w)
    ensures Pref(n, w, j) == Pref(n, w, k)
    decreases n, 0, 0
  {
    match n
    case Literal(_) =>
    case RawByte(_) =>
    case CharClass(ranges, breakout, additive) =>
      var r := Adjusted(ranges, breakout, additive);
      if r.Some? {
        FirstRangeSame(r.value, w, j, k);
      }
    case Alternation(l, r) =>
      PrefSame(l, w, j, k);
      PrefSame(r, w, j, k);
    case Concatenation(l, r) =>
      forall u: seq<Byte> | |u| <= |w| ensures Pref(r, u, j) == Pref(r, u, k) {
        PrefSame(r, u, j, k);
      }
      PrefSame(l, w, u => Pref(r, u, j), u => Pref(r, u, k));
    case Repetition(c, min, max, greedy) =>
      CountedSame(c, min, max, greedy, w, j, k);
  }

  lemma {:induction false} CountedSame(c: Node, min: nat, max: Option<nat>, greedy: bool, w: seq<Byte>, j: Rest, k: Rest)
    requires SameOn(j, k, w)
    ensures Counted(c, min, max, greedy, w, j) == Counted(c, min, max, greedy, w, k)
    decreases c, 2, min + if max.Some? then max.value else 0
  {
    if max.None? && min <= 1 {
      OnceSame(c, greedy, w, j, k);
    } else if min > 0 || max.value > 0 {
      var m := if min > 0 then min - 1 else 0;
      forall u: seq<Byte> | |u| <= |w| ensures Counted(c, m, OneLess(max), greedy, u, j) == Counted(c, m, OneLess(max), greedy, u, k) {
        CountedSame(c, m, OneLess(max), greedy, u, j, k);
      }
      PrefSame(c, w, u => Counted(c, m, OneLess(max), greedy, u, j), u => Counted(c, m, OneLess(max), greedy, u, k));
    }
  }

  lemma {:induction false} OnceSame(c: Node, greedy: bool, w: seq<Byte>, j: Rest, k: Rest)
    requires SameOn(j, k, w)
    ensures OnceOrMore(c, greedy, w, j) == OnceOrMore(c, greedy, w, k)
    decreases c, 1, |w|
  {
    forall u: seq<Byte> | |u| < |w| ensures Again(c, greedy, u, j) == Again(c, greedy, u, k) {
      AgainSame(c, greedy, u, j, k);
    }
    PrefSame(c, w, u => if |u| < |w| then Again(c, greedy, u, j) else j(u), u => if |u| < |w| then Again(c, greedy, u, k) else k(u));
  }

  lemma {:induction false} AgainSame(c: Node, greedy: bool, w: seq<Byte>, j: Rest, k: Rest)
    requires SameOn(j, k, w)
    ensures Again(c, greedy, w, j) == Again(c, greedy, w, k)
    decreases c, 1, |w|
  {
    forall u: seq<Byte> | |u| < |w| ensures Again(c, greedy, u, j) == Again(c, greedy, u, k) {
      AgainSame(c, greedy, u, j, k);
    }
    PrefSame(c, w, u => if |u| < |w| then Again(c, greedy, u, j) else None, u => if |u| < |w| then Again(c, greedy, u, k) else None);
  }

  // ----- counting out -----

  ghost predicate SamePrefs(a: Node, b: Node) {
    forall w: seq<Byte>, k: Rest :: Pref(a, w, k) == Pref(b, w, k)
  }

  lemma SameTwice(a: Node, b: Node, w: seq<Byte>, j: Rest, k: Rest)
    requires SamePrefs(a, b) && SameRest(j, k)
    ensures Pref(a, w, j) == Pref(b, w, k)
  {
    PrefSame(b, w, j, k);
    hide Pref;
  }

  lemma {:induction false} CountedLike(a: Node, b: Node, min: nat, max: Option<nat>, greedy: bool, w: seq<Byte>, k: Rest)
    requires SamePrefs(a, b)
    ensures Counted(a, min, max, greedy, w, k) == Counted(b, min, max, greedy, w, k)
    decreases min + if max.Some? then max.value else 0
  {
    hide SamePrefs, Pref;
    if max.None? && min <= 1 {
      OnceLike(a, b, greedy, w, k);
    } else if min > 0 || max.value > 0 {
      var m := if min > 0 then min - 1 else 0;
      forall u: seq<Byte> ensures Counted(a, m, OneLess(max), greedy, u, k) == Counted(b, m, OneLess(max), greedy, u, k) {
        CountedLike(a, b, m, OneLess(max), greedy, u, k);
      }
      SameTwice(a, b, w, u => Counted(a, m, OneLess(max), greedy, u, k), u => Counted(b, m, OneLess(max), greedy, u, k));
    }
  }

  lemma OnceLike(a: Node, b: Node, greedy: bool, w: seq<Byte>, k: Rest)
    requires SamePrefs(a, b)
    ensures OnceOrMore(a, greedy, w, k) == OnceOrMore(b, greedy, w, k)
  {
    hide SamePrefs, Pref;
    forall u: seq<Byte> ensures Again(a, greedy, u, k) == Again(b, greedy, u, k) {
      AgainLike(a, b, greedy, u, k);
    }
    SameTwice(a, b, w, u => if |u| < |w| then Again(a, greedy, u, k) else k(u), u => if |u| < |w| then Again(b, greedy, u, k) else k(u));
  }

  lemma {:induction false} AgainLike(a: Node, b: Node, greedy: bool, w: seq<Byte>, k: Rest)
    requires SamePrefs(a, b)
    ensures Again(a, greedy, w, k) == Again(b, greedy, w, k)
    decreases |w|
  {
    hide SamePrefs, Pref;
    forall u: seq<Byte> | |u| < |w| ensures Again(a, greedy, u, k) == Again(b, greedy, u, k) {
      AgainLike(a, b, greedy, u, k);
    }
    SameTwice(a, b, w, u => if |u| < |w| then Again(a, greedy, u, k) else None, u => if |u| < |w| then Again(b, greedy, u, k) else None);
  }

  /** The tree is preferred like the counts. */
  ghost predicate PrefersCount(n: Node, t: Node, min: nat, max: Option<nat>, greedy: bool) {
    forall w: seq<Byte>, k: Rest :: Pref(n, w, k) == Counted(t, min, max, greedy, w, k)
  }

  lemma CountedZero(t: Node, greedy: bool, k: Rest)
    ensures SameRest(u => Counted(t, 0, Some(0), greedy, u, k), k)
  {
  }

  lemma OneCounts(t: Node, greedy: bool)
    ensures PrefersCount(t, t, 1, Some(1), greedy)
  {
    forall w: seq<Byte>, k: Rest ensures Pref(t, w, k) == Counted(t, 1, Some(1), greedy, w, k) {
      CountedZero(t, greedy, k);
      PrefSame(t, w, u => Counted(t, 0, Some(0), greedy, u, k), k);
    }
  }

  lemma {:induction false} OptionalCounts(t: Node, n: nat, greedy: bool)
    requires n > 0
    ensures PrefersCount(Optional(t, n, greedy), t, 0, Some(n), greedy)
    decreases n
  {
    if n > 1 {
      var rest := Optional(t, n - 1, greedy);
      var c := Concatenation(t, rest);
      OptionalCounts(t, n - 1, greedy);
      forall w: seq<Byte>, k: Rest ensures Pref(Optional(t, n, greedy), w, k) == Counted(t, 0, Some(n), greedy, w, k) {
        CountedZero(c, greedy, k);
        PrefSame(c, w, u => Counted(c, 0, Some(0), greedy, u, k), k);
        PrefSame(t, w, u => Pref(rest, u, k), u => Counted(t, 0, Some(n - 1), greedy, u, k));
      }
    }
  }

  lemma {:induction false} MandatoryCounts(t: Node, n: nat, rest: Node, min: nat, max: Option<nat>, greedy: bool)
    requires PrefersCount(rest, t, min, max, greedy) && (max.None? ==> min > 0)
    ensures PrefersCount(Mandatory(t, n, rest), t, min + n, if max.Some? then Some(max.value + n) else None, greedy)
    decreases n
  {
    if n > 0 {
      var m := Mandatory(t, n - 1, rest);
      var max' := if max.Some? then Some(max.value + n - 1) else None;
      MandatoryCounts(t, n - 1, rest, min, max, greedy);
      forall w: seq<Byte>, k: Rest
        ensures Pref(Mandatory(t, n, rest), w, k) == Counted(t, min + n, if max.Some? then Some(max.value + n) else None, greedy, w, k)
      {
        PrefSame(t, w, u => Pref(m, u, k), u => Counted(t, min + n - 1, max', greedy, u, k));
      }
    }
  }

  /** What traverse puts in the place of a counted repetition is preferred like it, unless it is {0,0}. */
  lemma ExpandedPrefers(t: Node, min: nat, max: Option<nat>, greedy: bool)
    requires !Named(min, max) && (max.Some? ==> min <= max.value) && max != Some(0)
    ensures SamePrefs(Expanded(t, min, max, greedy), Repetition(t, min, max, greedy))
  {
    if max == Some(min) {
      OneCounts(t, greedy);
      MandatoryCounts(t, min - 1, t, 1, Some(1), greedy);
    } else if max == None {
      assert PrefersCount(Repetition(t, 1, None, greedy), t, 1, None, greedy);
      MandatoryCounts(t, min - 1, Repetition(t, 1, None, greedy), 1, None, greedy);
    } else {
      OptionalCounts(t, max.value - min, greedy);
      MandatoryCounts(t, min, Optional(t, max.value - min, greedy), 0, Some(max.value - min), greedy);
    }
    assert PrefersCount(Expanded(t, min, max, greedy), t, min, max, greedy);
    hide Counted, Expanded;
  }

  /** Without {0,0}, the flat tree prefers what the tree prefers. */
  lemma {:induction false} FlatPrefers(n: Node)
    requires WellFormed(n) && NoZero(n)
    ensures SamePrefs(Flat(n), n)
    decreases n
  {
    match n
    case Alternation(l, r) =>
      FlatPrefers(l);
      FlatPrefers(r);
    case Concatenation(l, r) =>
      FlatPrefers(l);
      FlatPrefers(r);
      forall w: seq<Byte>, k: Rest ensures Pref(Flat(n), w, k) == Pref(n, w, k) {
        SameTwice(Flat(l), l, w, u => Pref(Flat(r), u, k), u => Pref(r, u, k));
      }
    case Repetition(c, min, max, greedy) =>
      FlatPrefers(c);
      if !Named(min, max) {
        ExpandedPrefers(Flat(c), min, max, greedy);
      }
      forall w: seq<Byte>, k: Rest ensures Pref(Flat(n), w, k) == Pref(n, w, k) {
        CountedLike(Flat(c), c, min, max, greedy, w, k);
        assert Pref(Repetition(Flat(c), min, max, greedy), w, k) == Counted(Flat(c), min, max, greedy, w, k);
      }
    case Literal(_) =>
    case RawByte(_) =>
    case CharClass(_, _, _) =>
  }
}
