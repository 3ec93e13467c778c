/**
 What the passes over the parse tree do to the preferred string. Rotating and dropping
 useless repetitions keep it on every input. Adding the counts of two repetitions keeps
 it for some counts only, and this module says for which (src/lib/rewriter.cpp:262-486).
 */
module Precedence {
  import opened Basics
  import opened Regexes
  import opened Choices
  import opened Rewriting
  import opened Traversals

  // ----- congruence -----

  lemma PrefsTransitive(a: Node, b: Node, c: Node)
    requires SamePrefs(a, b) && SamePrefs(b, c)
    ensures SamePrefs(a, c)
  {
    hide Pref;
  }

  lemma AlternationLike(a: Node, a': Node, b: Node, b': Node)
    requires SamePrefs(a, a') && SamePrefs(b, b')
    ensures SamePrefs(Alternation(a, b), Alternation(a', b'))
  {
  }

  lemma ConcatenationLike(a: Node, a': Node, b: Node, b': Node)
    requires SamePrefs(a, a') && SamePrefs(b, b')
    ensures SamePrefs(Concatenation(a, b), Concatenation(a', b'))
  {
    var x, y := Concatenation(a, b), Concatenation(a', b');
    forall w: seq<Byte>, k: Rest ensures Pref(x, w, k) == Pref(y, w, k) {
      SameTwice(a, a', w, u => Pref(b, u, k), u => Pref(b', u, k));
    }
  }

  lemma RepetitionLike(a: Node, a': Node, min: nat, max: Option<nat>, greedy: bool)
    requires SamePrefs(a, a')
    ensures SamePrefs(Repetition(a, min, max, greedy), Repetition(a', min, max, greedy))
  {
    var x, y := Repetition(a, min, max, greedy), Repetition(a', min, max, greedy);
    forall w: seq<Byte>, k: Rest ensures Pref(x, w, k) == Pref(y, w, k) {
      CountedLike(a, a', min, max, greedy, w, k);
      hide SamePrefs;
    }
  }

  // ----- makeBinopsRightAssociative -----

  lemma OrPrefers(a: Node, b: Node, c: Node)
    ensures SamePrefs(Alternation(Alternation(a, b), c), Alternation(a, Alternation(b, c)))
  {
    var x, y := Alternation(Alternation(a, b), c), Alternation(a, Alternation(b, c));
    forall w: seq<Byte>, k: Rest ensures Pref(x, w, k) == Pref(y, w, k) {
      PreferAssoc(Pref(a, w, k), Pref(b, w, k), Pref(c, w, k));
    }
  }

  lemma AndPrefers(a: Node, b: Node, c: Node)
    ensures SamePrefs(Concatenation(Concatenation(a, b), c), Concatenation(a, Concatenation(b, c)))
  {
    var x, y := Concatenation(Concatenation(a, b), c), Concatenation(a, Concatenation(b, c));
    forall w: seq<Byte>, k: Rest ensures Pref(x, w, k) == Pref(y, w, k) {
      PrefSame(a, w, u => Pref(b, u, t => Pref(c, t, k)), u => Pref(Concatenation(b, c), u, k));
    }
  }

  /** Rotating keeps the preferred string, whatever is read and whatever comes after it. */
  lemma {:induction false} RotatedPrefers(n: Node)
    ensures SamePrefs(n, Rotated(n))
    decreases n
  {
    hide SamePrefs, Pref;
    match n
    case Alternation(l, r) =>
      RotatedPrefers(l);
      RotatedPrefers(r);
      var l', r' := Rotated(l), Rotated(r);
      AlternationLike(l, l', r, r');
      if l'.Alternation? {
        OrPrefers(l'.left, l'.right, r');
        PrefsTransitive(n, Alternation(l', r'), Rotated(n));
      }
    case Concatenation(l, r) =>
      RotatedPrefers(l);
      RotatedPrefers(r);
      var l', r' := Rotated(l), Rotated(r);
      ConcatenationLike(l, l', r, r');
      if l'.Concatenation? {
        AndPrefers(l'.left, l'.right, r');
        PrefsTransitive(n, Concatenation(l', r'), Rotated(n));
      }
    case Repetition(c, min, max, greedy) =>
      RotatedPrefers(c);
      RepetitionLike(c, Rotated(c), min, max, greedy);
    case Literal(_) => PrefsReflexive(n);
    case RawByte(_) => PrefsReflexive(n);
    case CharClass(_, _, _) => PrefsReflexive(n);
  }

  lemma PrefsReflexive(n: Node)
    ensures SamePrefs(n, n)
  {
    hide Pref;
  }

  /** No alternation is the left child of one, and no concatenation that of one. */
  predicate RightAssociative(n: Node) {
    match n
    case Alternation(l, r) => !l.Alternation? && RightAssociative(l) && RightAssociative(r)
    case Concatenation(l, r) => !l.Concatenation? && RightAssociative(l) && RightAssociative(r)
    case Repetition(c, _, _, _) => RightAssociative(c)
    case Literal(_) => true
    case RawByte(_) => true
    case CharClass(_, _, _) => true
  }

  /** Where a left child is of its parent's kind, none of its own children is. */
  predicate OneDeep(n: Node) {
    match n
    case Alternation(l, r) => (l.Alternation? ==> !l.left.Alternation? && !l.right.Alternation?) && OneDeep(l) && OneDeep(r)
    case Concatenation(l, r) => (l.Concatenation? ==> !l.left.Concatenation? && !l.right.Concatenation?) && OneDeep(l) && OneDeep(r)
    case Repetition(c, _, _, _) => OneDeep(c)
    case Literal(_) => true
    case RawByte(_) => true
    case CharClass(_, _, _) => true
  }

  lemma {:induction false} RotatedSize(n: Node)
    ensures Size(Rotated(n)) == Size(n)
    decreases n
  {
    match n
    case Alternation(l, r) =>
      RotatedSize(l);
      RotatedSize(r);
    case Concatenation(l, r) =>
      RotatedSize(l);
      RotatedSize(r);
    case Repetition(c, _, _, _) => RotatedSize(c);
    case Literal(_) =>
    case RawByte(_) =>
    case CharClass(_, _, _) =>
  }

  /** The pass changes exactly those trees that are not right associative. */
  lemma {:induction false} RotatedChanges(n: Node)
    ensures Rotated(n) == n <==> RightAssociative(n)
    ensures Rotated(n).Alternation? <==> n.Alternation?
    ensures Rotated(n).Concatenation? <==> n.Concatenation?
    decreases n
  {
    match n
    case Alternation(l, r) =>
      RotatedChanges(l);
      RotatedChanges(r);
      RotatedSize(r);
    case Concatenation(l, r) =>
      RotatedChanges(l);
      RotatedChanges(r);
      RotatedSize(r);
    case Repetition(c, _, _, _) => RotatedChanges(c);
    case Literal(_) =>
    case RawByte(_) =>
    case CharClass(_, _, _) =>
  }

  /** One run of the pass makes a tree right associative exactly if its left children are one deep. */
  lemma {:induction false} RotatedExactly(n: Node)
    ensures RightAssociative(Rotated(n)) <==> OneDeep(n)
    decreases n
  {
    match n
    case Alternation(l, r) =>
      RotatedExactly(l);
      RotatedExactly(r);
      RotatedChanges(l);
      if l.Alternation? {
        RotatedChanges(l.left);
        RotatedChanges(l.right);
      }
    case Concatenation(l, r) =>
      RotatedExactly(l);
      RotatedExactly(r);
      RotatedChanges(l);
      if l.Concatenation? {
        RotatedChanges(l.left);
        RotatedChanges(l.right);
      }
    case Repetition(c, _, _, _) => RotatedExactly(c);
    case Literal(_) =>
    case RawByte(_) =>
    case CharClass(_, _, _) =>
  }

  // ----- reduceUselessRepetitions -----

  /** The two that the pass looks for: {1,1}, and a nongreedy {n}. */
  predicate Useless(n: Node) {
    n.Repetition? && ((n.min == 1 && n.max == Some(1)) || (!n.greedy && n.max == Some(n.min)))
  }

  predicate Tidy(n: Node) {
    && !Useless(n)
    && match n
       case Alternation(l, r) => Tidy(l) && Tidy(r)
       case Concatenation(l, r) => Tidy(l) && Tidy(r)
       case Repetition(c, _, _, _) => Tidy(c)
       case Literal(_) => true
       case RawByte(_) => true
       case CharClass(_, _, _) => true
  }

  /** A repetition that leaves no choice is as good greedy as nongreedy. */
  lemma {:induction false} NoChoice(c: Node, n: nat, w: seq<Byte>, k: Rest)
    ensures Counted(c, n, Some(n), false, w, k) == Counted(c, n, Some(n), true, w, k)
    decreases n
  {
    if n > 0 {
      var m := n - 1;
      forall u: seq<Byte> ensures Counted(c, m, Some(m), false, u, k) == Counted(c, m, Some(m), true, u, k) {
        NoChoice(c, m, u, k);
      }
      PrefSame(c, w, u => Counted(c, m, Some(m), false, u, k), u => Counted(c, m, Some(m), true, u, k));
    }
  }

  lemma {:induction false} UsefulPrefers(n: Node)
    ensures SamePrefs(n, Useful(n)) && !Useless(Useful(n))
    decreases n
  {
    if n.Repetition? && n.min == 1 && n.max == Some(1) {
      UsefulPrefers(n.child);
      OneCounts(n.child, n.greedy);
      assert SamePrefs(n, n.child);
      PrefsTransitive(n, n.child, Useful(n));
    } else if n.Repetition? && !n.greedy && n.max == Some(n.min) {
      forall w: seq<Byte>, k: Rest ensures Pref(n, w, k) == Pref(Useful(n), w, k) {
        NoChoice(n.child, n.min, w, k);
      }
    }
  }

  /** Dropping useless repetitions keeps the preferred string. */
  lemma {:induction false} ReducedPrefers(n: Node)
    ensures SamePrefs(n, Reduced(n))
    decreases Size(n), 0
  {
    hide SamePrefs, Pref;
    match n
    case Alternation(l, r) =>
      ChildPrefers(l);
      ChildPrefers(r);
      AlternationLike(l, Reduced(Useful(l)), r, Reduced(Useful(r)));
    case Concatenation(l, r) =>
      ChildPrefers(l);
      ChildPrefers(r);
      ConcatenationLike(l, Reduced(Useful(l)), r, Reduced(Useful(r)));
    case Repetition(c, min, max, greedy) =>
      ChildPrefers(c);
      RepetitionLike(c, Reduced(Useful(c)), min, max, greedy);
    case Literal(_) => PrefsReflexive(n);
    case RawByte(_) => PrefsReflexive(n);
    case CharClass(_, _, _) => PrefsReflexive(n);
  }

  lemma {:induction false} ChildPrefers(n: Node)
    ensures SamePrefs(n, Reduced(Useful(n)))
    decreases Size(n), 1
  {
    hide SamePrefs, Pref, Useful, Reduced;
    UsefulIsSmall(n);
    UsefulPrefers(n);
    ReducedPrefers(Useful(n));
    PrefsTransitive(n, Useful(n), Reduced(Useful(n)));
  }

  /** Nothing useless is left, and a tree without any is left alone. */
  lemma {:induction false} ReducedTidies(n: Node)
    ensures Tidy(Reduced(Useful(n)))
    ensures Reduced(Useful(n)) == n <==> Tidy(n)
    decreases Size(n)
  {
    UsefulIsSmall(n);
    UsefulPrefers(n);
    hide SamePrefs;
    var m := Useful(n);
    match m
    case Alternation(l, r) =>
      ReducedTidies(l);
      ReducedTidies(r);
    case Concatenation(l, r) =>
      ReducedTidies(l);
      ReducedTidies(r);
    case Repetition(c, min, max, greedy) =>
      ReducedTidies(c);
    case Literal(_) =>
    case RawByte(_) =>
    case CharClass(_, _, _) =>
  }

  // ----- one rest finds at least what another does -----

  /** a is something if b is, and reads on if b does. */
  predicate Covers(a: Option<nat>, b: Option<nat>) {
    (b.Some? ==> a.Some?) && (b.Some? && b.value > 0 ==> a.Some? && a.value > 0)
  }

  lemma CoveredIsIdle(a: Option<nat>, b: Option<nat>)
    requires Covers(a, b)
    ensures Prefer(a, b) == a
  {
  }

  ghost predicate CoversOn(j: Rest, k: Rest, w: seq<Byte>) {
    forall u: seq<Byte> :: |u| <= |w| ==> Covers(j(u), k(u))
  }

  lemma {:induction false} FirstRangeCovers(ranges: Ranges, w: seq<Byte>, j: Rest, k: Rest)
    requires CoversOn(j, k, w)
    ensures Covers(FirstRange(ranges, w, j), FirstRange(ranges, w, k))
    decreases |ranges|
  {
    if ranges != [] {
      FirstRangeCovers(ranges[1..], w, j, k);
    }
  }

  lemma {:induction false} PrefCovers(n: Node, w: seq<Byte>, j: Rest, k: Rest)
    requires CoversOn(j, k, w)
    ensures Covers(Pref(n, w, j), Pref(n, w, k))
    decreases n, 0, 0
  {
    match n
    case Literal(_) =>
    case RawByte(_) =>
    case CharClass(ranges, breakout, additive) =>
      var r := Adjusted(ranges, breakout, additive);
      if r.Some? {
        FirstRangeCovers(r.value, w, j, k);
      }
    case Alternation(l, r) =>
      PrefCovers(l, w, j, k);
      PrefCovers(r, w, j, k);
    case Concatenation(l, r) =>
      forall u: seq<Byte> | |u| <= |w| ensures Covers(Pref(r, u, j), Pref(r, u, k)) {
        PrefCovers(r, u, j, k);
      }
      PrefCovers(l, w, u => Pref(r, u, j), u => Pref(r, u, k));
    case Repetition(c, min, max, greedy) =>
      CountedCovers(c, min, max, greedy, w, j, k);
  }

  lemma {:induction false} CountedCovers(c: Node, min: nat, max: Option<nat>, greedy: bool, w: seq<Byte>, j: Rest, k: Rest)
    requires CoversOn(j, k, w)
    ensures Covers(Counted(c, min, max, greedy, w, j), Counted(c, min, max, greedy, w, k))
    decreases c, 2, min + if max.Some? then max.value else 0
  {
    if max.None? && min <= 1 {
      OnceCovers(c, greedy, w, j, k);
    } else if min > 0 || max.value > 0 {
      var m := if min > 0 then min - 1 else 0;
      var x := OneLess(max);
      forall u: seq<Byte> | |u| <= |w| ensures Covers(Counted(c, m, x, greedy, u, j), Counted(c, m, x, greedy, u, k)) {
        CountedCovers(c, m, x, greedy, u, j, k);
      }
      PrefCovers(c, w, u => Counted(c, m, x, greedy, u, j), u => Counted(c, m, x, greedy, u, k));
    }
  }

  lemma {:induction false} OnceCovers(c: Node, greedy: bool, w: seq<Byte>, j: Rest, k: Rest)
    requires CoversOn(j, k, w)
    ensures Covers(OnceOrMore(c, greedy, w, j), OnceOrMore(c, greedy, w, k))
    decreases c, 1, |w|
  {
    forall u: seq<Byte> | |u| < |w| ensures Covers(Again(c, greedy, u, j), Again(c, greedy, u, k)) {
      AgainCovers(c, greedy, u, j, k);
    }
    PrefCovers(c, w, u => if |u| < |w| then Again(c, greedy, u, j) else j(u), u => if |u| < |w| then Again(c, greedy, u, k) else k(u));
  }

  lemma {:induction false} AgainCovers(c: Node, greedy: bool, w: seq<Byte>, j: Rest, k: Rest)
    requires CoversOn(j, k, w)
    ensures Covers(Again(c, greedy, w, j), Again(c, greedy, w, k))
    decreases c, 1, |w|
  {
    forall u: seq<Byte> | |u| < |w| ensures Covers(Again(c, greedy, u, j), Again(c, greedy, u, k)) {
      AgainCovers(c, greedy, u, j, k);
    }
    PrefCovers(c, w, u => if |u| < |w| then Again(c, greedy, u, j) else None, u => if |u| < |w| then Again(c, greedy, u, k) else None);
  }

  // ----- one candidate more, which reads no byte -----

  /** b is what a is once v is among the candidates, wherever it is. */
  predicate Joined(a: Option<nat>, b: Option<nat>, v: Option<nat>) {
    && (a.Some? ==> a.value > 0)
    && (b == a || (b == v && v.Some? && (a.Some? ==> v.value > 0)))
  }

  /** The same for v and for x, each in the same place. */
  predicate Mixed(a: Option<nat>, b: Option<nat>, c: Option<nat>, v: Option<nat>, x: Option<nat>) {
    && Joined(a, b, v)
    && Joined(a, c, x)
    && (v.Some? && v.value > 0 && x.Some? && x.value > 0 ==> (b == a && c == a) || (b == v && c == x))
  }

  lemma MixedEither(greedy: bool, a: Option<nat>, b: Option<nat>, c: Option<nat>, a': Option<nat>, b': Option<nat>, c': Option<nat>,
                    v: Option<nat>, x: Option<nat>)
    requires Mixed(a, b, c, v, x) && Mixed(a', b', c', v, x)
    ensures Mixed(Either(greedy, a, a'), Either(greedy, b, b'), Either(greedy, c, c'), v, x)
  {
  }

  /** The rests differ at w alone, where one has v as well, and another x. */
  ghost predicate MixesAt(i: Rest, j: Rest, k: Rest, w: seq<Byte>, v: Option<nat>, x: Option<nat>) {
    && (forall u: seq<Byte> :: |u| < |w| ==> i(u) == j(u) == k(u))
    && Mixed(i(w), j(w), k(w), v, x)
  }

  lemma {:induction false} FirstRangeMixes(ranges: Ranges, w: seq<Byte>, i: Rest, j: Rest, k: Rest, v: Option<nat>, x: Option<nat>)
    requires MixesAt(i, j, k, w, v, x)
    ensures Mixed(FirstRange(ranges, w, i), FirstRange(ranges, w, j), FirstRange(ranges, w, k), v, x)
    decreases |ranges|
  {
    if ranges != [] {
      var e, r := ranges[0], ranges[1..];
      FirstRangeMixes(r, w, i, j, k, v, x);
      assert w[0..] == w;
      MixedEither(true, ThisRange(e, w, i), ThisRange(e, w, j), ThisRange(e, w, k),
                  FirstRange(r, w, i), FirstRange(r, w, j), FirstRange(r, w, k), v, x);
    }
  }

  /** A candidate that reads no byte stays one, and stays in its place, whatever is put in front of it. */
  lemma {:induction false} PrefMixes(n: Node, w: seq<Byte>, i: Rest, j: Rest, k: Rest, v: Option<nat>, x: Option<nat>)
    requires MixesAt(i, j, k, w, v, x)
    ensures Mixed(Pref(n, w, i), Pref(n, w, j), Pref(n, w, k), v, x)
    decreases n, 0, 0
  {
    match n
    case Literal(enc) => assert w[0..] == w;
    case RawByte(_) =>
    case CharClass(ranges, breakout, additive) =>
      var r := Adjusted(ranges, breakout, additive);
      if r.Some? {
        FirstRangeMixes(r.value, w, i, j, k, v, x);
      }
    case Alternation(l, r) =>
      PrefMixes(l, w, i, j, k, v, x);
      PrefMixes(r, w, i, j, k, v, x);
      MixedEither(true, Pref(l, w, i), Pref(l, w, j), Pref(l, w, k), Pref(r, w, i), Pref(r, w, j), Pref(r, w, k), v, x);
    case Concatenation(l, r) =>
      forall u: seq<Byte> | |u| < |w| ensures Pref(r, u, i) == Pref(r, u, j) == Pref(r, u, k) {
        PrefSame(r, u, i, j);
        PrefSame(r, u, i, k);
      }
      PrefMixes(r, w, i, j, k, v, x);
      PrefMixes(l, w, u => Pref(r, u, i), u => Pref(r, u, j), u => Pref(r, u, k), v, x);
    case Repetition(c, min, max, greedy) =>
      CountedMixes(c, min, max, greedy, w, i, j, k, v, x);
  }

  lemma {:induction false} CountedMixes(c: Node, min: nat, max: Option<nat>, greedy: bool, w: seq<Byte>, i: Rest, j: Rest, k: Rest,
                                        v: Option<nat>, x: Option<nat>)
    requires MixesAt(i, j, k, w, v, x)
    ensures Mixed(Counted(c, min, max, greedy, w, i), Counted(c, min, max, greedy, w, j), Counted(c, min, max, greedy, w, k), v, x)
    decreases c, 2, min + if max.Some? then max.value else 0
  {
    if max.None? && min <= 1 {
      OnceMixes(c, greedy, w, i, j, k, v, x);
      MixedEither(greedy, OnceOrMore(c, greedy, w, i), OnceOrMore(c, greedy, w, j), OnceOrMore(c, greedy, w, k), i(w), j(w), k(w), v, x);
    } else if min > 0 || max.value > 0 {
      var m := if min > 0 then min - 1 else 0;
      var less := OneLess(max);
      forall u: seq<Byte> | |u| < |w|
        ensures Counted(c, m, less, greedy, u, i) == Counted(c, m, less, greedy, u, j) == Counted(c, m, less, greedy, u, k)
      {
        CountedSame(c, m, less, greedy, u, i, j);
        CountedSame(c, m, less, greedy, u, i, k);
      }
      CountedMixes(c, m, less, greedy, w, i, j, k, v, x);
      var p: Rest := u => Counted(c, m, less, greedy, u, i);
      var q: Rest := u => Counted(c, m, less, greedy, u, j);
      var r: Rest := u => Counted(c, m, less, greedy, u, k);
      PrefMixes(c, w, p, q, r, v, x);
      MixedEither(greedy, Pref(c, w, p), Pref(c, w, q), Pref(c, w, r), i(w), j(w), k(w), v, x);
    }
  }

  lemma {:induction false} OnceMixes(c: Node, greedy: bool, w: seq<Byte>, i: Rest, j: Rest, k: Rest, v: Option<nat>, x: Option<nat>)
    requires MixesAt(i, j, k, w, v, x)
    ensures Mixed(OnceOrMore(c, greedy, w, i), OnceOrMore(c, greedy, w, j), OnceOrMore(c, greedy, w, k), v, x)
    decreases c, 1, |w|
  {
    forall u: seq<Byte> | |u| < |w| ensures Again(c, greedy, u, i) == Again(c, greedy, u, j) == Again(c, greedy, u, k) {
      AgainSame(c, greedy, u, i, j);
      AgainSame(c, greedy, u, i, k);
    }
    PrefMixes(c, w, u => if |u| < |w| then Again(c, greedy, u, i) else i(u), u => if |u| < |w| then Again(c, greedy, u, j) else j(u),
              u => if |u| < |w| then Again(c, greedy, u, k) else k(u), v, x);
  }

  // ----- counts one after the other -----

  /** The same times first do not make a difference. */
  lemma {:induction false} LeadIn(c: Node, p: nat, a: nat, x: Option<nat>, b: nat, y: Option<nat>, greedy: bool, w: seq<Byte>, j: Rest, k: Rest)
    requires (x.None? ==> a > 0) && (y.None? ==> b > 0)
    requires forall u: seq<Byte> :: Counted(c, a, x, greedy, u, j) == Counted(c, b, y, greedy, u, k)
    ensures Counted(c, p + a, More(p, x), greedy, w, j) == Counted(c, p + b, More(p, y), greedy, w, k)
    decreases p
  {
    if p > 0 {
      var q := p - 1;
      var a', b', x', y' := q + a, q + b, More(q, x), More(q, y);
      forall u: seq<Byte> ensures Counted(c, a', x', greedy, u, j) == Counted(c, b', y', greedy, u, k) {
        LeadIn(c, q, a, x, b, y, greedy, u, j, k);
      }
      PrefSame(c, w, u => Counted(c, a', x', greedy, u, j), u => Counted(c, b', y', greedy, u, k));
    }
  }

  function More(p: nat, x: Option<nat>): Option<nat> {
    if x.Some? then Some(p + x.value) else None
  }

  /** c min to max times, and again. */
  ghost function Then(c: Node, min: nat, max: Option<nat>, greedy: bool, k: Rest): Rest {
    u => Counted(c, min, max, greedy, u, k)
  }

  lemma ExactTwice(c: Node, n: nat, greedy: bool, w: seq<Byte>, k: Rest)
    ensures Counted(c, n, Some(n), greedy, w, Then(c, n, Some(n), greedy, k)) == Counted(c, n + n, Some(n + n), greedy, w, k)
  {
    LeadIn(c, n, 0, Some(0), n, Some(n), greedy, w, Then(c, n, Some(n), greedy, k), k);
  }

  // ----- greedy, from none -----

  lemma {:induction false} MoreCovers(c: Node, n: nat, w: seq<Byte>, k: Rest)
    ensures Covers(Counted(c, 0, Some(n + 1), true, w, k), Counted(c, 0, Some(n), true, w, k))
    decreases n
  {
    if n > 0 {
      var m := n - 1;
      forall u: seq<Byte> ensures Covers(Counted(c, 0, Some(n), true, u, k), Counted(c, 0, Some(m), true, u, k)) {
        MoreCovers(c, m, u, k);
      }
      PrefCovers(c, w, u => Counted(c, 0, Some(n), true, u, k), u => Counted(c, 0, Some(m), true, u, k));
    }
  }

  lemma {:induction false} MostCovers(c: Node, m: nat, n: nat, w: seq<Byte>, k: Rest)
    ensures Covers(Counted(c, 0, Some(m + n), true, w, k), Counted(c, 0, Some(n), true, w, k))
    decreases m
  {
    if m > 0 {
      MostCovers(c, m - 1, n, w, k);
      MoreCovers(c, m - 1 + n, w, k);
    }
  }

  lemma {:induction false} GreedyAdds(c: Node, m: nat, n: nat, w: seq<Byte>, k: Rest)
    ensures Counted(c, 0, Some(m), true, w, Then(c, 0, Some(n), true, k)) == Counted(c, 0, Some(m + n), true, w, k)
    decreases m
  {
    if m > 0 {
      var p := m - 1;
      var t := Then(c, 0, Some(n), true, k);
      forall u: seq<Byte> ensures Counted(c, 0, Some(p), true, u, t) == Counted(c, 0, Some(p + n), true, u, k) {
        GreedyAdds(c, p, n, u, k);
      }
      var all: Rest := u => Counted(c, 0, Some(p + n), true, u, k);
      PrefSame(c, w, u => Counted(c, 0, Some(p), true, u, t), all);
      if n > 0 {
        var q := n - 1;
        forall u: seq<Byte> ensures Covers(Counted(c, 0, Some(p + n), true, u, k), Counted(c, 0, Some(q), true, u, k)) {
          MostCovers(c, m, q, u, k);
        }
        var some: Rest := u => Counted(c, 0, Some(q), true, u, k);
        PrefCovers(c, w, all, some);
        Absorbed(Pref(c, w, all), Pref(c, w, some), k(w));
      }
    }
  }

  lemma Absorbed(a: Option<nat>, b: Option<nat>, c: Option<nat>)
    requires Covers(a, b)
    ensures Prefer(a, Prefer(b, c)) == Prefer(a, c)
  {
  }

  /** Once more with at least one byte, and then whatever j finds. */
  ghost function Onward(j: Rest, w: seq<Byte>): Rest {
    u => if |u| < |w| then j(u) else None
  }

  ghost function AgainRest(c: Node, greedy: bool, k: Rest): Rest {
    u => Again(c, greedy, u, k)
  }

  /** Again or, if no byte has been read, k. */
  ghost function OnceRest(c: Node, greedy: bool, w: seq<Byte>, k: Rest): Rest {
    u => if |u| < |w| then Again(c, greedy, u, k) else k(u)
  }

  lemma OnceIs(c: Node, greedy: bool, w: seq<Byte>, k: Rest)
    ensures OnceOrMore(c, greedy, w, k) == Pref(c, w, OnceRest(c, greedy, w, k))
    ensures Again(c, greedy, w, k) == Either(greedy, Pref(c, w, Onward(AgainRest(c, greedy, k), w)), k(w))
  {
    PrefSame(c, w, u => if |u| < |w| then Again(c, greedy, u, k) else k(u), OnceRest(c, greedy, w, k));
    PrefSame(c, w, u => if |u| < |w| then Again(c, greedy, u, k) else None, Onward(AgainRest(c, greedy, k), w));
  }

  /** Once or more may find k(w) too, if nothing need be read, and no more than that. */
  lemma OnceJoins(c: Node, greedy: bool, w: seq<Byte>, k: Rest)
    ensures Joined(Pref(c, w, Onward(AgainRest(c, greedy, k), w)), OnceOrMore(c, greedy, w, k), k(w))
  {
    OnceIs(c, greedy, w, k);
    var i := Onward(AgainRest(c, greedy, k), w);
    PrefMixes(c, w, i, OnceRest(c, greedy, w, k), i, k(w), None);
  }

  lemma AgainCoversMany(c: Node, greedy: bool, w: seq<Byte>, k: Rest)
    ensures Covers(Again(c, greedy, w, k), OnceOrMore(c, greedy, w, k))
    ensures Covers(Again(c, greedy, w, k), Counted(c, 0, None, greedy, w, k))
  {
    OnceIs(c, greedy, w, k);
    OnceJoins(c, greedy, w, k);
  }

  lemma JoinedIdle(a: Option<nat>, b: Option<nat>, v: Option<nat>)
    requires Joined(a, b, v)
    ensures Prefer(a, Prefer(b, v)) == Prefer(a, v)
  {
  }

  /** Greedy and without bounds: again, and then as often as may be, is again. */
  lemma {:induction false} AgainIdle(c: Node, w: seq<Byte>, k: Rest)
    ensures Again(c, true, w, Then(c, 0, None, true, k)) == Again(c, true, w, k)
    decreases |w|
  {
    var t := Then(c, 0, None, true, k);
    forall u: seq<Byte> | |u| < |w| ensures Again(c, true, u, t) == Again(c, true, u, k) {
      AgainIdle(c, u, k);
    }
    OnceIs(c, true, w, t);
    OnceIs(c, true, w, k);
    PrefSame(c, w, Onward(AgainRest(c, true, t), w), Onward(AgainRest(c, true, k), w));
    OnceJoins(c, true, w, k);
    JoinedIdle(Pref(c, w, Onward(AgainRest(c, true, k), w)), OnceOrMore(c, true, w, k), k(w));
  }

  lemma GreedyIdle(c: Node, w: seq<Byte>, k: Rest)
    ensures Counted(c, 0, None, true, w, Then(c, 0, None, true, k)) == Counted(c, 0, None, true, w, k)
  {
    var t := Then(c, 0, None, true, k);
    forall u: seq<Byte> ensures Again(c, true, u, t) == Again(c, true, u, k) {
      AgainIdle(c, u, k);
    }
    OnceIs(c, true, w, t);
    OnceIs(c, true, w, k);
    PrefMixes(c, w, Onward(AgainRest(c, true, k), w), OnceRest(c, true, w, k), OnceRest(c, true, w, t), k(w), t(w));
    MixedIdle(Pref(c, w, Onward(AgainRest(c, true, k), w)), OnceOrMore(c, true, w, k), OnceOrMore(c, true, w, t), k(w));
  }

  lemma MixedIdle(a: Option<nat>, b: Option<nat>, c: Option<nat>, v: Option<nat>)
    requires Mixed(a, b, c, v, Prefer(b, v))
    ensures Prefer(c, Prefer(b, v)) == Prefer(b, v)
  {
  }

  // ----- nongreedy, without bound -----

  /** Once more finds nothing new. */
  lemma {:induction false} MinusCovers(c: Node, n: nat, w: seq<Byte>, k: Rest)
    requires n > 0
    ensures Covers(Counted(c, n, None, false, w, k), Counted(c, n + 1, None, false, w, k))
    decreases n
  {
    if n > 1 {
      var m := n - 1;
      forall u: seq<Byte> ensures Covers(Counted(c, m, None, false, u, k), Counted(c, n, None, false, u, k)) {
        MinusCovers(c, m, u, k);
      }
      PrefCovers(c, w, u => Counted(c, m, None, false, u, k), u => Counted(c, n, None, false, u, k));
    } else {
      var once: Rest := u => Counted(c, 1, None, false, u, k);
      assert Counted(c, 2, None, false, w, k) == Pref(c, w, once) by {
        PrefSame(c, w, u => Counted(c, 2 - 1, OneLess(None), false, u, k), once);
      }
      PrefMixes(c, w, Onward(once, w), once, Onward(once, w), once(w), None);
      forall u: seq<Byte> | |u| < |w| ensures Covers(Again(c, false, u, k), once(u)) {
        AgainCoversMany(c, false, u, k);
      }
      OnceIs(c, false, w, k);
      PrefCovers(c, w, OnceRest(c, false, w, k), Onward(once, w));
    }
  }

  /** After n times or more, n > 0: again, and then n times or more, is n times or more. */
  lemma {:induction false} AgainBefore(c: Node, n: nat, w: seq<Byte>, k: Rest)
    requires n > 0
    ensures Again(c, false, w, Then(c, n, None, false, k)) == Counted(c, n, None, false, w, k)
    decreases |w|
  {
    var t := Then(c, n, None, false, k);
    forall u: seq<Byte> | |u| < |w| ensures Again(c, false, u, t) == t(u) {
      AgainBefore(c, n, u, k);
    }
    OnceIs(c, false, w, t);
    PrefCovers(c, w, t, Onward(AgainRest(c, false, t), w));
    MinusCovers(c, n, w, k);
    PrefSame(c, w, t, u => Counted(c, n, None, false, u, k));
  }

  lemma OnceBefore(c: Node, n: nat, w: seq<Byte>, k: Rest)
    requires n > 0
    ensures Counted(c, 1, None, false, w, Then(c, n, None, false, k)) == Counted(c, n + 1, None, false, w, k)
  {
    var t := Then(c, n, None, false, k);
    forall u: seq<Byte> ensures Again(c, false, u, t) == t(u) {
      AgainBefore(c, n, u, k);
    }
    OnceIs(c, false, w, t);
    PrefSame(c, w, OnceRest(c, false, w, t), u => Counted(c, n, None, false, u, k));
  }

  lemma LazyTwice(c: Node, n: nat, w: seq<Byte>, k: Rest)
    requires n > 0
    ensures Counted(c, n, None, false, w, Then(c, n, None, false, k)) == Counted(c, n + n, None, false, w, k)
  {
    var t := Then(c, n, None, false, k);
    forall u: seq<Byte> ensures Counted(c, 1, None, false, u, t) == Counted(c, n + 1, None, false, u, k) {
      OnceBefore(c, n, u, k);
    }
    LeadIn(c, n - 1, 1, None, n + 1, None, false, w, t, k);
  }

  lemma {:induction false} LazyAgain(c: Node, w: seq<Byte>, k: Rest)
    ensures Covers(Counted(c, 0, None, false, w, k), Again(c, false, w, Then(c, 0, None, false, k)))
    decreases |w|
  {
    var t := Then(c, 0, None, false, k);
    forall u: seq<Byte> | |u| < |w| ensures Covers(Again(c, false, u, k), Again(c, false, u, t)) {
      LazyAgain(c, u, k);
      AgainCoversMany(c, false, u, k);
    }
    OnceIs(c, false, w, t);
    OnceIs(c, false, w, k);
    PrefCovers(c, w, OnceRest(c, false, w, k), Onward(AgainRest(c, false, t), w));
  }

  lemma LazyIdle(c: Node, w: seq<Byte>, k: Rest)
    ensures Counted(c, 0, None, false, w, Then(c, 0, None, false, k)) == Counted(c, 0, None, false, w, k)
  {
    var t := Then(c, 0, None, false, k);
    forall u: seq<Byte> ensures Covers(Again(c, false, u, k), Again(c, false, u, t)) {
      LazyAgain(c, u, k);
      AgainCoversMany(c, false, u, k);
    }
    OnceIs(c, false, w, t);
    OnceIs(c, false, w, k);
    PrefCovers(c, w, OnceRest(c, false, w, k), Onward(AgainRest(c, false, t), w));
    OnceJoins(c, false, w, t);
    CoveredIsIdle(t(w), OnceOrMore(c, false, w, t));
  }

  // ----- combineConsecutiveRepetitions -----

  /** The counts leave no choice; or greedy from none; or nongreedy without bound. */
  predicate Orderly(min: nat, max: Option<nat>, greedy: bool) {
    || max == Some(min)
    || (greedy && min == 0)
    || (!greedy && max.None?)
  }

  lemma TwiceIs(x: Node, w: seq<Byte>, k: Rest)
    requires x.Repetition?
    ensures Pref(Concatenation(x, x), w, k) == Counted(x.child, x.min, x.max, x.greedy, w, Then(x.child, x.min, x.max, x.greedy, k))
  {
    var t := Then(x.child, x.min, x.max, x.greedy, k);
    PrefSame(x, w, u => Pref(x, u, k), t);
  }

  lemma SumIs(x: Node, w: seq<Byte>, k: Rest)
    requires x.Repetition? && SumFits(x, x)
    ensures Pref(Combination(x, x), w, k)
         == Counted(x.child, x.min + x.min, if x.max.Some? then Some(x.max.value + x.max.value) else None, x.greedy, w, k)
  {
  }

  /** T{a,b}T{a,b} and T{2a,2b} prefer the same if the counts are orderly. */
  lemma CombinationPrefers(x: Node)
    requires x.Repetition? && SumFits(x, x) && Orderly(x.min, x.max, x.greedy)
    ensures SamePrefs(Concatenation(x, x), Combination(x, x))
  {
    var c, min, max := x.child, x.min, x.max;
    forall w: seq<Byte>, k: Rest ensures Pref(Concatenation(x, x), w, k) == Pref(Combination(x, x), w, k) {
      TwiceIs(x, w, k);
      SumIs(x, w, k);
      OrderlySum(c, min, max, x.greedy, w, k);
    }
  }

  lemma OrderlySum(c: Node, min: nat, max: Option<nat>, greedy: bool, w: seq<Byte>, k: Rest)
    requires Orderly(min, max, greedy)
    ensures Counted(c, min, max, greedy, w, Then(c, min, max, greedy, k))
         == Counted(c, min + min, if max.Some? then Some(max.value + max.value) else None, greedy, w, k)
  {
    hide Counted, Then;
    if max == Some(min) {
      ExactTwice(c, min, greedy, w, k);
    } else if greedy && max.Some? {
      GreedyAdds(c, max.value, max.value, w, k);
    } else if greedy {
      GreedyIdle(c, w, k);
    } else if min == 0 {
      LazyIdle(c, w, k);
    } else {
      LazyTwice(c, min, w, k);
    }
  }

  /** Every repetition that the pass adds to another has orderly counts. */
  predicate AllOrderly(n: Node) {
    match n
    case Alternation(l, r) => AllOrderly(l) && AllOrderly(r)
    case Concatenation(l, r) => AllOrderly(l) && AllOrderly(r) && PairOrderly(Combined(l), Combined(r))
    case Repetition(c, _, _, _) => AllOrderly(c)
    case Literal(_) => true
    case RawByte(_) => true
    case CharClass(_, _, _) => true
  }

  predicate PairOrderly(l: Node, r: Node) {
    && (Combinable(l, r) ==> Orderly(l.min, l.max, l.greedy))
    && (r.Concatenation? && Combinable(l, r.left) ==> Orderly(l.min, l.max, l.greedy))
  }

  lemma CombineAtPrefers(l: Node, r: Node)
    requires CombineFits(l, r) && PairOrderly(l, r)
    ensures SamePrefs(Concatenation(l, r), CombineAt(l, r))
  {
    hide SamePrefs, Pref, Combination;
    if Combinable(l, r) {
      CombinationPrefers(l);
    } else if r.Concatenation? && Combinable(l, r.left) {
      var m, t := r.left, r.right;
      CombinationPrefers(l);
      AndPrefers(l, m, t);
      PrefsReflexive(t);
      ConcatenationLike(Concatenation(l, m), Combination(l, m), t, t);
      PrefsSymmetric(Concatenation(Concatenation(l, m), t), Concatenation(l, r));
      PrefsTransitive(Concatenation(l, r), Concatenation(Concatenation(l, m), t), Concatenation(Combination(l, m), t));
    } else {
      PrefsReflexive(Concatenation(l, r));
    }
  }

  lemma PrefsSymmetric(a: Node, b: Node)
    requires SamePrefs(a, b)
    ensures SamePrefs(b, a)
  {
    hide Pref;
  }

  /** Combining keeps the preferred string, if no count overflows and all that are added are orderly. */
  lemma {:induction false} CombinedPrefers(n: Node)
    requires Fits(n) && AllOrderly(n)
    ensures SamePrefs(n, Combined(n))
    decreases n
  {
    hide SamePrefs, Pref;
    match n
    case Alternation(l, r) =>
      CombinedPrefers(l);
      CombinedPrefers(r);
      AlternationLike(l, Combined(l), r, Combined(r));
    case Concatenation(l, r) =>
      CombinedPrefers(l);
      CombinedPrefers(r);
      ConcatenationLike(l, Combined(l), r, Combined(r));
      CombineAtPrefers(Combined(l), Combined(r));
      PrefsTransitive(n, Concatenation(Combined(l), Combined(r)), Combined(n));
    case Repetition(c, min, max, greedy) =>
      CombinedPrefers(c);
      RepetitionLike(c, Combined(c), min, max, greedy);
    case Literal(_) => PrefsReflexive(n);
    case RawByte(_) => PrefsReflexive(n);
    case CharClass(_, _, _) => PrefsReflexive(n);
  }

  // ----- counts that are not orderly -----

  const A: Byte := 97
  const B: Byte := 98
  const C: Byte := 99
  const Z: Byte := 122

  /** z|a|ab|bc */
  const Choosy: Node := Alternation(RawByte(Z), Alternation(RawByte(A), Alternation(Literal([A, B]), Literal([B, C]))))

  lemma ChoosyIs(w: seq<Byte>, k: Rest)
    ensures w == [] ==> Pref(Choosy, w, k).None?
    ensures w != [] && w[0] == Z ==> Pref(Choosy, w, k) == Beyond(1, k(w[1..]))
    ensures w != [] && w[0] == A ==>
              Pref(Choosy, w, k) == Prefer(Beyond(1, k(w[1..])), if |w| > 1 && w[1] == B then Beyond(2, k(w[2..])) else None)
    ensures w != [] && w[0] == B ==> Pref(Choosy, w, k) == if |w| > 1 && w[1] == C then Beyond(2, k(w[2..])) else None
    ensures w != [] && w[0] !in {A, B, Z} ==> Pref(Choosy, w, k).None?
  {
    PickIs(RawByte(Z), Alternation(RawByte(A), Alternation(Literal([A, B]), Literal([B, C]))), w, k);
    PickIs(RawByte(A), Alternation(Literal([A, B]), Literal([B, C])), w, k);
    PickIs(Literal([A, B]), Literal([B, C]), w, k);
    PairIs(A, B, w, k);
    PairIs(B, C, w, k);
  }

  lemma PickIs(l: Node, r: Node, w: seq<Byte>, k: Rest)
    ensures Pref(Alternation(l, r), w, k) == Prefer(Pref(l, w, k), Pref(r, w, k))
  {
  }

  lemma PairIs(x: Byte, y: Byte, w: seq<Byte>, k: Rest)
    ensures Pref(Literal([x, y]), w, k) == if |w| > 1 && w[0] == x && w[1] == y then Beyond(2, k(w[2..])) else None
  {
    if |w| > 1 {
      assert w[..2] == [w[0], w[1]];
      assert [x, y] <= w <==> [x, y] == w[..2];
    }
  }

  function Zs(n: nat): seq<Byte> {
    if n == 0 then [] else [Z] + Zs(n - 1)
  }

  lemma {:induction false} ZsAdd(m: nat, n: nat, t: seq<Byte>)
    ensures Zs(m + n) + t == Zs(m) + (Zs(n) + t)
    decreases m
  {
    if m == 0 {
      assert Zs(0) + (Zs(n) + t) == Zs(n) + t;
    } else {
      ZsAdd(m - 1, n, t);
      var x := Zs(n) + t;
      assert Zs(m + n) + t == [Z] + (Zs(m - 1 + n) + t);
      assert Zs(m) + x == [Z] + (Zs(m - 1) + x);
    }
  }

  lemma ZsFirst(n: nat, t: seq<Byte>)
    requires n > 0
    ensures Zs(n) + t != [] && (Zs(n) + t)[0] == Z && (Zs(n) + t)[1..] == Zs(n - 1) + t
  {
  }

  /** Times that have to be take a z each. */
  lemma {:induction false} ZsMust(j: nat, p: nat, x: Option<nat>, greedy: bool, t: seq<Byte>, k: Rest)
    requires x.None? ==> p > 0
    ensures Counted(Choosy, j + p, More(j, x), greedy, Zs(j) + t, k) == Beyond(j, Counted(Choosy, p, x, greedy, t, k))
    decreases j
  {
    if j == 0 {
      assert Zs(0) + t == t;
    } else {
      hide Pref;
      ZsFirst(j, t);
      ZsMust(j - 1, p, x, greedy, t, k);
      ChoosyIs(Zs(j) + t, u => Counted(Choosy, j + p - 1, OneLess(More(j, x)), greedy, u, k));
    }
  }

  // nongreedy and bounded

  /** At most one byte is left. */
  ghost function NearlyAll(): Rest {
    u => if |u| <= 1 then Some(0) else None
  }

  lemma {:induction false} ZsMay(j: nat, r: nat, t: seq<Byte>)
    requires j <= r && |t| > 1
    ensures Counted(Choosy, 0, Some(r), false, Zs(j) + t, NearlyAll()) == Beyond(j, Counted(Choosy, 0, Some(r - j), false, t, NearlyAll()))
    decreases j
  {
    if j == 0 {
      assert Zs(0) + t == t;
    } else {
      hide Pref;
      ZsFirst(j, t);
      ZsMay(j - 1, r - 1, t);
      ChoosyIs(Zs(j) + t, u => Counted(Choosy, 0, Some(r - 1), false, u, NearlyAll()));
    }
  }

  const ABC: seq<Byte> := [A, B, C]

  /** abc, with r times left. */
  lemma AbcMay(r: nat)
    requires r > 0
    ensures Counted(Choosy, 0, Some(r), false, ABC, NearlyAll()) == Some(if r > 1 then 3 else 2)
  {
    hide Pref;
    var k, less: Rest := NearlyAll(), u => Counted(Choosy, 0, Some(r - 1), false, u, NearlyAll());
    assert ABC[1..] == [B, C] && ABC[2..] == [C] && [B, C][2..] == [];
    ChoosyIs(ABC, less);
    if r > 1 {
      var last: Rest := u => Counted(Choosy, 0, Some(r - 2), false, u, NearlyAll());
      ChoosyIs([B, C], last);
      ChoosyIs([], u => Counted(Choosy, 0, OneLess(Some(r - 2)), false, u, NearlyAll()));
      assert last([]) == Some(0);
      assert less([B, C]) == Some(2);
    } else {
      assert less([B, C]) == None && less([C]) == Some(0);
    }
  }

  lemma LazyWhole(a: nat, b: nat)
    requires a < b
    ensures Counted(Choosy, a + a, Some(b + b), false, Zs(a + b - 1) + ABC, NearlyAll()) == Some(a + b + 2)
  {
    hide Counted, Pref;
    ZsAdd(a + a, b - a - 1, ABC);
    ZsMust(a + a, 0, Some(b + b - a - a), false, Zs(b - a - 1) + ABC, NearlyAll());
    ZsMay(b - a - 1, b + b - a - a, ABC);
    AbcMay(b - a + 1);
  }

  lemma LazyHalf(a: nat, b: nat)
    requires a < b
    ensures Counted(Choosy, a, Some(b), false, Zs(b - 1) + ABC, NearlyAll()) == Some(b + 1)
  {
    hide Counted, Pref;
    ZsAdd(a, b - a - 1, ABC);
    ZsMust(a, 0, Some(b - a), false, Zs(b - a - 1) + ABC, NearlyAll());
    ZsMay(b - a - 1, b - a, ABC);
    AbcMay(1);
  }

  lemma LazyHalves(a: nat, b: nat)
    requires a < b
    ensures Counted(Choosy, a, Some(b), false, Zs(a + b - 1) + ABC, Then(Choosy, a, Some(b), false, NearlyAll())) == Some(a + b + 1)
  {
    hide Pref;
    var t := Then(Choosy, a, Some(b), false, NearlyAll());
    ZsAdd(a, b - 1, ABC);
    ZsMust(a, 0, Some(b - a), false, Zs(b - 1) + ABC, t);
    LazyHalf(a, b);
    assert Counted(Choosy, 0, Some(b - a), false, Zs(b - 1) + ABC, t) == Some(b + 1);
  }

  // greedy, from one or more

  ghost function Anywhere(): Rest {
    u => Some(0)
  }

  /** How many strings of the tree can be read one after the other. */
  function Items(u: seq<Byte>): nat {
    if u == [] then 0
    else if u[0] == Z then 1 + Items(u[1..])
    else if u[0] == A then 1 + if |u| > 1 && u[1] == B then Greater(Items(u[1..]), Items(u[2..])) else Items(u[1..])
    else if u[0] == B && |u| > 1 && u[1] == C then 1 + Items(u[2..])
    else 0
  }

  function Greater(m: nat, n: nat): nat {
    if m < n then n else m
  }

  lemma {:induction false} TooFew(min: nat, max: Option<nat>, u: seq<Byte>, k: Rest)
    requires Items(u) < min
    ensures Counted(Choosy, min, max, true, u, k) == None
    decreases min
  {
    hide Pref;
    if min == 1 && max.None? {
      ChoosyIs(u, v => if |v| < |u| then Again(Choosy, true, v, k) else k(v));
    } else {
      ChoosyIs(u, v => Counted(Choosy, min - 1, OneLess(max), true, v, k));
      if Items(u) > 0 && u[0] != B {
        TooFew(min - 1, OneLess(max), u[1..], k);
      }
      if |u| > 1 && Items(u) > 0 && u[0] != Z && (u[0] == A ==> u[1] == B) {
        TooFew(min - 1, OneLess(max), u[2..], k);
      }
    }
  }

  /** So many times more, with or without a bound. */
  ghost function Run(r: Option<nat>, u: seq<Byte>, k: Rest): Option<nat> {
    if r.Some? then Counted(Choosy, 0, r, true, u, k) else Again(Choosy, true, u, k)
  }

  ghost function RunRest(r: Option<nat>, k: Rest): Rest {
    u => Run(r, u, k)
  }

  /** The tree reads a byte each time, so that the rest of a run is asked of less. */
  lemma ChoosyReads(u: seq<Byte>, j: Rest, k: Rest)
    requires forall v: seq<Byte> :: |v| < |u| ==> j(v) == k(v)
    ensures Pref(Choosy, u, j) == Pref(Choosy, u, k)
  {
    hide Pref;
    ChoosyIs(u, j);
    ChoosyIs(u, k);
  }

  lemma RunIs(r: Option<nat>, u: seq<Byte>, k: Rest)
    ensures r == Some(0) ==> Run(r, u, k) == k(u)
    ensures r != Some(0) ==> Run(r, u, k) == Prefer(Pref(Choosy, u, RunRest(OneLess(r), k)), k(u))
    ensures Counted(Choosy, 1, More(1, r), true, u, k) == Pref(Choosy, u, RunRest(r, k))
  {
    hide Pref;
    if r.Some? {
      PrefSame(Choosy, u, v => Counted(Choosy, 0, OneLess(More(1, r)), true, v, k), RunRest(r, k));
      if r.value > 0 {
        PrefSame(Choosy, u, v => Counted(Choosy, 0, OneLess(r), true, v, k), RunRest(OneLess(r), k));
      }
    } else {
      ChoosyReads(u, v => if |v| < |u| then Again(Choosy, true, v, k) else None, RunRest(r, k));
      ChoosyReads(u, v => if |v| < |u| then Again(Choosy, true, v, k) else k(v), RunRest(r, k));
    }
  }

  /** Where there are too few for the second repetition, going on with the first finds nothing. */
  lemma {:induction false} Fruitless(r: Option<nat>, u: seq<Byte>, min: nat, max: Option<nat>, k: Rest)
    requires Items(u) < min
    ensures Run(r, u, Then(Choosy, min, max, true, k)) == None
    decreases |u|
  {
    hide Pref, Counted, Again, Run;
    var t := Then(Choosy, min, max, true, k);
    TooFew(min, max, u, k);
    RunIs(r, u, t);
    if r != Some(0) {
      ChoosyIs(u, RunRest(OneLess(r), t));
      if Items(u) > 0 && u[0] != B {
        Fruitless(OneLess(r), u[1..], min, max, k);
      }
      if |u| > 1 && Items(u) > 0 && u[0] != Z && (u[0] == A ==> u[1] == B) {
        Fruitless(OneLess(r), u[2..], min, max, k);
      }
    }
  }

  const ABZ: seq<Byte> := [A, B, Z]

  lemma {:induction false} ZsItems(n: nat)
    ensures Items(Zs(n) + ABZ) == n + 2
    decreases n
  {
    if n == 0 {
      assert Zs(0) + ABZ == ABZ && ABZ[1..] == [B, Z] && ABZ[2..] == [Z] && [Z][1..] == [];
      assert Items([Z]) == 1 && Items([B, Z]) == 0;
    } else {
      ZsFirst(n, ABZ);
      ZsItems(n - 1);
    }
  }

  /** abz, with one that has to be: a is enough. */
  lemma AbzOnce(r: Option<nat>)
    ensures r != Some(0) ==> Counted(Choosy, 1, More(1, r), true, ABZ, Anywhere()) == Some(1)
  {
    hide Pref, Counted, Run, Again;
    assert ABZ[1..] == [B, Z];
    RunIs(r, ABZ, Anywhere());
    ChoosyIs(ABZ, RunRest(r, Anywhere()));
    RunIs(r, [B, Z], Anywhere());
    ChoosyIs([B, Z], RunRest(OneLess(r), Anywhere()));
    assert RunRest(r, Anywhere())([B, Z]) == Run(r, [B, Z], Anywhere());
  }

  /** z, with one that has to be. */
  lemma ZOnce(r: Option<nat>)
    ensures Counted(Choosy, 1, More(1, r), true, [Z], Anywhere()) == Some(1)
  {
    hide Pref, Counted, Run, Again;
    assert [Z][1..] == [];
    RunIs(r, [Z], Anywhere());
    ChoosyIs([Z], RunRest(r, Anywhere()));
    RunIs(r, [], Anywhere());
    ChoosyIs([], RunRest(OneLess(r), Anywhere()));
    assert RunRest(r, Anywhere())([]) == Run(r, [], Anywhere());
  }

  /** abz, with two that have to be: ab and z. */
  lemma AbzTwice(r: Option<nat>)
    ensures Counted(Choosy, 2, More(2, r), true, ABZ, Anywhere()) == Some(3)
  {
    hide Pref;
    assert ABZ[1..] == [B, Z] && ABZ[2..] == [Z];
    ChoosyIs(ABZ, u => Counted(Choosy, 1, OneLess(More(2, r)), true, u, Anywhere()));
    assert OneLess(More(2, r)) == More(1, r);
    TooFew(1, More(1, r), [B, Z], Anywhere());
    ZOnce(r);
  }

  lemma EagerWhole(a: nat, r: Option<nat>)
    requires a > 0 && r != Some(0)
    ensures Counted(Choosy, a + a, More(a + a, r), true, Zs(a + a - 1) + ABZ, Anywhere()) == Some(a + a)
  {
    hide Counted, Pref;
    ZsMust(a + a - 1, 1, More(1, r), true, ABZ, Anywhere());
    AbzOnce(r);
  }

  /** Where a of them are left, exactly, the second repetition takes them all. */
  lemma EagerSecond(a: nat, r: Option<nat>, q: Option<nat>)
    requires a > 1
    ensures Run(q, Zs(a - 2) + ABZ, Then(Choosy, a, More(a, r), true, Anywhere())) == Some(a + 1)
  {
    var t := Then(Choosy, a, More(a, r), true, Anywhere());
    var u := Zs(a - 2) + ABZ;
    assert t(u) == Some(a + 1) by {
      ZsMust(a - 2, 2, More(2, r), true, ABZ, Anywhere());
      AbzTwice(r);
      assert More(a - 2, More(2, r)) == More(a, r);
    }
    hide Counted, Pref, Run, Again;
    RunIs(q, u, t);
    if q != Some(0) {
      ChoosyIs(u, RunRest(OneLess(q), t));
      EagerLess(a, r, OneLess(q));
    }
  }

  lemma EagerLess(a: nat, r: Option<nat>, q: Option<nat>)
    requires a > 1
    ensures Pref(Choosy, Zs(a - 2) + ABZ, RunRest(q, Then(Choosy, a, More(a, r), true, Anywhere()))) == None
  {
    hide Counted, Pref, Run, Again;
    var t := Then(Choosy, a, More(a, r), true, Anywhere());
    var u := Zs(a - 2) + ABZ;
    ChoosyIs(u, RunRest(q, t));
    if a > 2 {
      ZsFirst(a - 2, ABZ);
      ZsItems(a - 3);
      Fruitless(q, u[1..], a, More(a, r), Anywhere());
    } else {
      assert u == ABZ && u[1..] == [B, Z] && u[2..] == [Z] && [Z][1..] == [];
      Fruitless(q, [B, Z], a, More(a, r), Anywhere());
      Fruitless(q, [Z], a, More(a, r), Anywhere());
    }
  }

  lemma EagerZ(r: Option<nat>, q: Option<nat>)
    ensures Run(q, [Z], Then(Choosy, 1, More(1, r), true, Anywhere())) == Some(1)
  {
    hide Counted, Pref, Run, Again;
    var t := Then(Choosy, 1, More(1, r), true, Anywhere());
    ZOnce(r);
    RunIs(q, [Z], t);
    if q != Some(0) {
      assert [Z][1..] == [];
      ChoosyIs([Z], RunRest(OneLess(q), t));
      Fruitless(OneLess(q), [], 1, More(1, r), Anywhere());
    }
  }

  lemma EagerRun(a: nat, r: Option<nat>)
    requires a > 0 && r != Some(0)
    ensures Run(r, Zs(a - 1) + ABZ, Then(Choosy, a, More(a, r), true, Anywhere())) == Some(a + 2)
  {
    hide Counted, Pref, Run, Again;
    var t := Then(Choosy, a, More(a, r), true, Anywhere());
    var u := Zs(a - 1) + ABZ;
    RunIs(r, u, t);
    ChoosyIs(u, RunRest(OneLess(r), t));
    if a > 1 {
      ZsFirst(a - 1, ABZ);
      EagerSecond(a, r, OneLess(r));
    } else {
      assert u == ABZ && u[1..] == [B, Z] && u[2..] == [Z];
      Fruitless(OneLess(r), [B, Z], a, More(a, r), Anywhere());
      EagerZ(r, OneLess(r));
    }
  }

  lemma EagerHalves(a: nat, r: Option<nat>)
    requires a > 0 && r != Some(0)
    ensures Counted(Choosy, a, More(a, r), true, Zs(a + a - 1) + ABZ, Then(Choosy, a, More(a, r), true, Anywhere())) == Some(a + a + 2)
  {
    hide Counted, Pref, Run, Again;
    var t := Then(Choosy, a, More(a, r), true, Anywhere());
    ZsAdd(a - 1, a, ABZ);
    ZsMust(a - 1, 1, More(1, r), true, Zs(a) + ABZ, t);
    RunIs(r, Zs(a) + ABZ, t);
    ZsFirst(a, ABZ);
    ChoosyIs(Zs(a) + ABZ, RunRest(r, t));
    EagerRun(a, r);
  }

  // ----- exactly -----

  /** Adding the counts keeps the preferred string whatever is repeated exactly if the counts are orderly. */
  lemma CombinationPrefersExactly(min: nat, max: Option<nat>, greedy: bool)
    requires max.Some? ==> min <= max.value
    requires min + min <= UNBOUNDED && (max.Some? ==> max.value + max.value < UNBOUNDED)
    ensures (forall t: Node :: var x := Repetition(t, min, max, greedy); SamePrefs(Concatenation(x, x), Combination(x, x)))
       <==> Orderly(min, max, greedy)
  {
    hide SamePrefs, Pref, Combination;
    if Orderly(min, max, greedy) {
      forall t: Node ensures var x := Repetition(t, min, max, greedy); SamePrefs(Concatenation(x, x), Combination(x, x)) {
        CombinationPrefers(Repetition(t, min, max, greedy));
      }
    } else {
      DisorderShows(min, max, greedy);
    }
  }

  lemma DisorderShows(min: nat, max: Option<nat>, greedy: bool)
    requires max.Some? ==> min <= max.value
    requires min + min <= UNBOUNDED && (max.Some? ==> max.value + max.value < UNBOUNDED)
    requires !Orderly(min, max, greedy)
    ensures var x := Repetition(Choosy, min, max, greedy); !SamePrefs(Concatenation(x, x), Combination(x, x))
  {
    hide Pref, Combination, Counted;
    var x := Repetition(Choosy, min, max, greedy);
    if greedy {
      var r := if max.Some? then Some(max.value - min) else None;
      var w := Zs(min + min - 1) + ABZ;
      EagerWhole(min, if max.Some? then Some(max.value - min + max.value - min) else None);
      EagerHalves(min, r);
      TwiceIs(x, w, Anywhere());
      SumIs(x, w, Anywhere());
    } else {
      var w := Zs(min + max.value - 1) + ABC;
      LazyWhole(min, max.value);
      LazyHalves(min, max.value);
      TwiceIs(x, w, NearlyAll());
      SumIs(x, w, NearlyAll());
    }
  }
}
