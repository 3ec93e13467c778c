/**
 Passes over the parse tree that leave its strings as they are, and the test for
 the empty string (src/lib/rewriter.cpp:80-105, src/lib/rewriter.cpp:262-486).
 */
module Rewriting {
  import opened Basics
  import opened Regexes
  import opened Traversals
  import Fragments

  ghost predicate Equivalent(a: Node, b: Node) {
    forall u: seq<Byte> :: Lang(a, u) <==> Lang(b, u)
  }

  // ----- congruence -----

  lemma SameConcatenation(a: Node, a': Node, b: Node, b': Node)
    requires Equivalent(a, a') && Equivalent(b, b')
    ensures Equivalent(Concatenation(a, b), Concatenation(a', b'))
  {
    forall u: seq<Byte> ensures Lang(Concatenation(a, b), u) <==> Lang(Concatenation(a', b'), u) {
      if Lang(Concatenation(a, b), u) {
        var i := Fragments.ConcatenationSplits(a, b, u);
        Fragments.ConcatenationMeans(a', b', u, i);
      }
      if Lang(Concatenation(a', b'), u) {
        var i := Fragments.ConcatenationSplits(a', b', u);
        Fragments.ConcatenationMeans(a, b, u, i);
      }
    }
  }

  lemma SameAlternation(a: Node, a': Node, b: Node, b': Node)
    requires Equivalent(a, a') && Equivalent(b, b')
    ensures Equivalent(Alternation(a, b), Alternation(a', b'))
  {
    forall u: seq<Byte> ensures Lang(Alternation(a, b), u) <==> Lang(Alternation(a', b'), u) {
      assert Lang(Alternation(a, b), u) <==> Lang(a, u) || Lang(b, u);
      assert Lang(Alternation(a', b'), u) <==> Lang(a', u) || Lang(b', u);
    }
  }

  lemma SameRepetition(a: Node, a': Node, min: nat, max: Option<nat>, greedy: bool, greedy': bool)
    requires Equivalent(a, a')
    ensures Equivalent(Repetition(a, min, max, greedy), Repetition(a', min, max, greedy'))
  {
    forall u: seq<Byte> ensures Lang(Repetition(a, min, max, greedy), u) <==> Lang(Repetition(a', min, max, greedy'), u) {
      TimesSame(a, a', min, max, u);
    }
  }

  lemma Transitive(a: Node, b: Node, c: Node)
    requires Equivalent(a, b) && Equivalent(b, c)
    ensures Equivalent(a, c)
  {
    hide Lang;
  }

  // ----- makeBinopsRightAssociative -----

  /** One rotation at every node whose left child is of its own kind. */
  function Rotated(n: Node): Node {
    match n
    case Alternation(l, r) => RotateOr(Rotated(l), Rotated(r))
    case Concatenation(l, r) => RotateAnd(Rotated(l), Rotated(r))
    case Repetition(c, min, max, greedy) => Repetition(Rotated(c), min, max, greedy)
    case Literal(_) => n
    case RawByte(_) => n
    case CharClass(_, _, _) => n
  }

  function RotateOr(l: Node, r: Node): Node {
    if l.Alternation? then Alternation(l.left, Alternation(l.right, r)) else Alternation(l, r)
  }

  function RotateAnd(l: Node, r: Node): Node {
    if l.Concatenation? then Concatenation(l.left, Concatenation(l.right, r)) else Concatenation(l, r)
  }

  lemma OrAssociates(a: Node, b: Node, c: Node)
    ensures Equivalent(Alternation(Alternation(a, b), c), Alternation(a, Alternation(b, c)))
  {
  }

  lemma SliceTwice(u: seq<Byte>, i: nat, j: nat)
    requires i <= j <= |u|
    ensures u[..j][..i] == u[..i] && u[..j][i..] == u[i..][..j - i] && u[i..][j - i..] == u[j..]
  {
  }

  lemma AndToRight(a: Node, b: Node, c: Node, u: seq<Byte>)
    requires Lang(Concatenation(Concatenation(a, b), c), u)
    ensures Lang(Concatenation(a, Concatenation(b, c)), u)
  {
    hide *;
    var j := Fragments.ConcatenationSplits(Concatenation(a, b), c, u);
    var i := Fragments.ConcatenationSplits(a, b, u[..j]);
    SliceTwice(u, i, j);
    Fragments.ConcatenationMeans(b, c, u[i..], j - i);
    Fragments.ConcatenationMeans(a, Concatenation(b, c), u, i);
  }

  lemma AndToLeft(a: Node, b: Node, c: Node, u: seq<Byte>)
    requires Lang(Concatenation(a, Concatenation(b, c)), u)
    ensures Lang(Concatenation(Concatenation(a, b), c), u)
  {
    hide *;
    var i := Fragments.ConcatenationSplits(a, Concatenation(b, c), u);
    var k := Fragments.ConcatenationSplits(b, c, u[i..]);
    SliceTwice(u, i, i + k);
    Fragments.ConcatenationMeans(a, b, u[..i + k], i);
    Fragments.ConcatenationMeans(Concatenation(a, b), c, u, i + k);
  }

  lemma AndAssociates(a: Node, b: Node, c: Node)
    ensures Equivalent(Concatenation(Concatenation(a, b), c), Concatenation(a, Concatenation(b, c)))
  {
    hide *;
    var left, right := Concatenation(Concatenation(a, b), c), Concatenation(a, Concatenation(b, c));
    forall u: seq<Byte> ensures Lang(left, u) <==> Lang(right, u) {
      if Lang(left, u) {
        AndToRight(a, b, c, u);
      }
      if Lang(right, u) {
        AndToLeft(a, b, c, u);
      }
    }
    EquivalentBy(left, right);
  }

  lemma EquivalentBy(a: Node, b: Node)
    requires forall u: seq<Byte> :: Lang(a, u) <==> Lang(b, u)
    ensures Equivalent(a, b)
  {
    hide Lang;
  }

  lemma Same(n: Node)
    ensures Equivalent(n, n)
  {
    hide Lang;
  }

  lemma {:induction false} RotatedMeans(n: Node)
    ensures Equivalent(n, Rotated(n))
    decreases n
  {
    match n
    case Alternation(l, r) =>
      RotatedMeans(l);
      RotatedMeans(r);
      hide Equivalent;
      var l', r' := Rotated(l), Rotated(r);
      SameAlternation(l, l', r, r');
      if l'.Alternation? {
        OrAssociates(l'.left, l'.right, r');
        Transitive(n, Alternation(l', r'), Rotated(n));
      }
    case Concatenation(l, r) =>
      RotatedMeans(l);
      RotatedMeans(r);
      hide Equivalent;
      var l', r' := Rotated(l), Rotated(r);
      SameConcatenation(l, l', r, r');
      if l'.Concatenation? {
        AndAssociates(l'.left, l'.right, r');
        Transitive(n, Concatenation(l', r'), Rotated(n));
      }
    case Repetition(c, min, max, greedy) =>
      RotatedMeans(c);
      SameRepetition(c, Rotated(c), min, max, greedy, greedy);
    case Literal(_) => Same(n);
    case RawByte(_) => Same(n);
    case CharClass(_, _, _) => Same(n);
  }

  // ----- reduceUselessRepetitions -----

  /** prune_useless_repetitions: what takes the place of the child. */
  function Useful(n: Node): Node {
    if n.Repetition? && n.min == 1 && n.max == Some(1) then Useful(n.child)
    else if n.Repetition? && !n.greedy && n.max == Some(n.min) then Repetition(n.child, n.min, n.max, true)
    else n
  }

  lemma {:induction false} UsefulMeans(n: Node)
    ensures Equivalent(n, Useful(n))
    decreases n
  {
    hide *;
    UsefulIs(n);
    if n.Repetition? && n.min == 1 && n.max == Some(1) {
      UsefulMeans(n.child);
      forall u: seq<Byte> ensures Lang(n, u) <==> Lang(n.child, u) {
        OnceMeans(n.child, u);
        RepetitionIs(n, u);
      }
      EquivalentBy(n, n.child);
      Transitive(n, n.child, Useful(n));
    } else if n.Repetition? && !n.greedy && n.max == Some(n.min) {
      Same(n.child);
      SameRepetition(n.child, n.child, n.min, n.max, n.greedy, true);
      assert n == Repetition(n.child, n.min, n.max, n.greedy);
    } else {
      Same(n);
    }
  }

  lemma UsefulIs(n: Node)
    ensures Useful(n) == if n.Repetition? && n.min == 1 && n.max == Some(1) then Useful(n.child)
                         else if n.Repetition? && !n.greedy && n.max == Some(n.min) then Repetition(n.child, n.min, n.max, true)
                         else n
  {
  }

  lemma RepetitionIs(n: Node, u: seq<Byte>)
    requires n.Repetition?
    ensures Lang(n, u) <==> Times(n.child, n.min, n.max, u)
  {
  }

  lemma {:induction false} UsefulIsSmall(n: Node)
    ensures Size(Useful(n)) <= Size(n)
    decreases n
  {
    if n.Repetition? && n.min == 1 && n.max == Some(1) {
      UsefulIsSmall(n.child);
    }
  }

  /** reduceUselessRepetitions, below n. */
  function Reduced(n: Node): Node
    decreases Size(n)
  {
    match n
    case Alternation(l, r) =>
      UsefulIsSmall(l); UsefulIsSmall(r);
      Alternation(Reduced(Useful(l)), Reduced(Useful(r)))
    case Concatenation(l, r) =>
      UsefulIsSmall(l); UsefulIsSmall(r);
      Concatenation(Reduced(Useful(l)), Reduced(Useful(r)))
    case Repetition(c, min, max, greedy) =>
      UsefulIsSmall(c);
      Repetition(Reduced(Useful(c)), min, max, greedy)
    case Literal(_) => n
    case RawByte(_) => n
    case CharClass(_, _, _) => n
  }

  lemma {:induction false} ReducedMeans(n: Node)
    ensures Equivalent(n, Reduced(n))
    decreases Size(n), 0
  {
    hide Equivalent;
    match n
    case Alternation(l, r) =>
      ChildReduced(l);
      ChildReduced(r);
      SameAlternation(l, Reduced(Useful(l)), r, Reduced(Useful(r)));
    case Concatenation(l, r) =>
      ChildReduced(l);
      ChildReduced(r);
      SameConcatenation(l, Reduced(Useful(l)), r, Reduced(Useful(r)));
    case Repetition(c, min, max, greedy) =>
      ChildReduced(c);
      SameRepetition(c, Reduced(Useful(c)), min, max, greedy, greedy);
    case Literal(_) => Same(n);
    case RawByte(_) => Same(n);
    case CharClass(_, _, _) => Same(n);
  }

  lemma {:induction false} ChildReduced(n: Node)
    ensures Equivalent(n, Reduced(Useful(n)))
    decreases Size(n), 1
  {
    hide Equivalent, Useful, Reduced;
    UsefulIsSmall(n);
    UsefulMeans(n);
    ReducedMeans(Useful(n));
    Transitive(n, Useful(n), Reduced(Useful(n)));
  }

  // ----- combineConsecutiveRepetitions -----

  const UNBOUNDED: nat := 0xFFFF_FFFF

  /** 32-bit addition. */
  function Plus32(a: nat, b: nat): nat {
    (a + b) % 0x1_0000_0000
  }

  function MaxSum(a: Option<nat>, b: Option<nat>): Option<nat> {
    if a.None? || b.None? then None
    else if Plus32(a.value, b.value) == UNBOUNDED then None
    else Some(Plus32(a.value, b.value))
  }

  predicate Combinable(x: Node, y: Node) {
    x.Repetition? && y.Repetition? && x == y
  }

  function Combination(x: Node, y: Node): Node
    requires x.Repetition? && y.Repetition?
  {
    Repetition(x.child, Plus32(x.min, y.min), MaxSum(x.max, y.max), x.greedy)
  }

  function CombineAt(l: Node, r: Node): Node {
    if Combinable(l, r) then Combination(l, r)
    else if r.Concatenation? && Combinable(l, r.left) then Concatenation(Combination(l, r.left), r.right)
    else Concatenation(l, r)
  }

  /** Siblings first, then the left nephew. */
  function Combined(n: Node): Node {
    match n
    case Alternation(l, r) => Alternation(Combined(l), Combined(r))
    case Concatenation(l, r) => CombineAt(Combined(l), Combined(r))
    case Repetition(c, min, max, greedy) => Repetition(Combined(c), min, max, greedy)
    case Literal(_) => n
    case RawByte(_) => n
    case CharClass(_, _, _) => n
  }

  /** The counts of the two repetitions do not overflow. */
  predicate SumFits(x: Node, y: Node)
    requires x.Repetition? && y.Repetition?
  {
    && x.min + y.min <= UNBOUNDED
    && (x.max.Some? && y.max.Some? ==> x.max.value + y.max.value < UNBOUNDED)
  }

  predicate CombineFits(l: Node, r: Node) {
    && (Combinable(l, r) ==> SumFits(l, r))
    && (r.Concatenation? && Combinable(l, r.left) ==> SumFits(l, r.left))
  }

  /** Wherever the pass adds counts, they do not overflow. */
  predicate Fits(n: Node) {
    match n
    case Alternation(l, r) => Fits(l) && Fits(r)
    case Concatenation(l, r) => Fits(l) && Fits(r) && CombineFits(Combined(l), Combined(r))
    case Repetition(c, _, _, _) => Fits(c)
    case Literal(_) => true
    case RawByte(_) => true
    case CharClass(_, _, _) => true
  }

  /** An interval of counts and another: every count of the sum is one of each. */
  lemma SumSplits(k: nat, x: Node, y: Node) returns (i: nat, j: nat)
    requires x.Repetition? && y.Repetition? && SumFits(x, y)
    requires (x.max.Some? ==> x.min <= x.max.value) && (y.max.Some? ==> y.min <= y.max.value)
    requires InBounds(k, Plus32(x.min, y.min), MaxSum(x.max, y.max))
    ensures i + j == k && InBounds(i, x.min, x.max) && InBounds(j, y.min, y.max)
  {
    if x.max.None? || k - y.min <= x.max.value {
      i, j := k - y.min, y.min;
    } else {
      i, j := x.max.value, k - x.max.value;
    }
  }

  /** T{a,b} and T{c,d} one after the other are T{a+c,b+d}. */
  lemma CombinationMeans(x: Node, y: Node)
    requires x.Repetition? && y.Repetition? && x.child == y.child && SumFits(x, y)
    requires (x.max.Some? ==> x.min <= x.max.value) && (y.max.Some? ==> y.min <= y.max.value)
    ensures Equivalent(Concatenation(x, y), Combination(x, y))
  {
    var t, z := x.child, Combination(x, y);
    forall u: seq<Byte> ensures Lang(Concatenation(x, y), u) <==> Lang(z, u) {
      RepetitionIs(z, u);
      if Lang(Concatenation(x, y), u) {
        var i := Fragments.ConcatenationSplits(x, y, u);
        OneAfterOther(x, y, u, i);
      }
      if Lang(z, u) {
        var i := Apart(x, y, u);
        Fragments.ConcatenationMeans(x, y, u, i);
      }
    }
    hide Lang, Combination;
  }

  lemma OneAfterOther(x: Node, y: Node, u: seq<Byte>, i: nat)
    requires x.Repetition? && y.Repetition? && x.child == y.child && SumFits(x, y)
    requires i <= |u| && Lang(x, u[..i]) && Lang(y, u[i..])
    ensures Times(x.child, Plus32(x.min, y.min), MaxSum(x.max, y.max), u)
  {
    hide *;
    RepetitionIs(x, u[..i]);
    RepetitionIs(y, u[i..]);
    var j := TimesOf(x.child, x.min, x.max, u[..i]);
    var k := TimesOf(y.child, y.min, y.max, u[i..]);
    PowerAdd(x.child, j, k, u[..i], u[i..]);
    assert u[..i] + u[i..] == u;
    SumBounds(x, y, j, k);
    TimesBy(x.child, Plus32(x.min, y.min), MaxSum(x.max, y.max), j + k, u);
  }

  lemma SumBounds(x: Node, y: Node, j: nat, k: nat)
    requires x.Repetition? && y.Repetition? && SumFits(x, y) && InBounds(j, x.min, x.max) && InBounds(k, y.min, y.max)
    ensures InBounds(j + k, Plus32(x.min, y.min), MaxSum(x.max, y.max))
  {
  }

  lemma Apart(x: Node, y: Node, u: seq<Byte>) returns (i: nat)
    requires x.Repetition? && y.Repetition? && x.child == y.child && SumFits(x, y)
    requires (x.max.Some? ==> x.min <= x.max.value) && (y.max.Some? ==> y.min <= y.max.value)
    requires Times(x.child, Plus32(x.min, y.min), MaxSum(x.max, y.max), u)
    ensures i <= |u| && Lang(x, u[..i]) && Lang(y, u[i..])
  {
    hide Lang, Times, Power, SumFits, Plus32, MaxSum, InBounds;
    var n := TimesOf(x.child, Plus32(x.min, y.min), MaxSum(x.max, y.max), u);
    var j, k := SumSplits(n, x, y);
    i := PowerSplit(x.child, j, k, u);
    TimesBy(x.child, x.min, x.max, j, u[..i]);
    TimesBy(y.child, y.min, y.max, k, u[i..]);
    RepetitionIs(x, u[..i]);
    RepetitionIs(y, u[i..]);
  }

  lemma CombineAtMeans(l: Node, r: Node)
    requires WellFormed(l) && WellFormed(r) && CombineFits(l, r)
    ensures Equivalent(Concatenation(l, r), CombineAt(l, r)) && WellFormed(CombineAt(l, r))
  {
    if Combinable(l, r) {
      CombinationMeans(l, r);
    } else if r.Concatenation? && Combinable(l, r.left) {
      CombinationMeans(l, r.left);
      AndAssociates(l, r.left, r.right);
      Same(r.right);
      SameConcatenation(Concatenation(l, r.left), Combination(l, r.left), r.right, r.right);
      NephewMeans(l, r.left, r.right);
    } else {
      Same(Concatenation(l, r));
    }
  }

  lemma NephewMeans(l: Node, m: Node, r: Node)
    requires l.Repetition? && m.Repetition?
    requires Equivalent(Concatenation(Concatenation(l, m), r), Concatenation(l, Concatenation(m, r)))
    requires Equivalent(Concatenation(Concatenation(l, m), r), Concatenation(Combination(l, m), r))
    ensures Equivalent(Concatenation(l, Concatenation(m, r)), Concatenation(Combination(l, m), r))
  {
    hide Lang;
  }

  /** Combining leaves the strings of the tree as they are, if no count overflows. */
  lemma {:induction false} CombinedMeans(n: Node)
    requires WellFormed(n) && Fits(n)
    ensures Equivalent(n, Combined(n)) && WellFormed(Combined(n))
    decreases n
  {
    match n
    case Alternation(l, r) =>
      CombinedMeans(l);
      CombinedMeans(r);
      SameAlternation(l, Combined(l), r, Combined(r));
    case Concatenation(l, r) =>
      CombinedMeans(l);
      CombinedMeans(r);
      hide Equivalent;
      SameConcatenation(l, Combined(l), r, Combined(r));
      CombineAtMeans(Combined(l), Combined(r));
      Transitive(n, Concatenation(Combined(l), Combined(r)), Combined(n));
    case Repetition(c, min, max, greedy) =>
      CombinedMeans(c);
      SameRepetition(c, Combined(c), min, max, greedy, greedy);
    case Literal(_) => Same(n);
    case RawByte(_) => Same(n);
    case CharClass(_, _, _) => Same(n);
  }

  // ----- hasZeroLengthMatch -----

  predicate HasZeroLengthMatch(n: Node) {
    match n
    case Alternation(l, r) => HasZeroLengthMatch(l) || HasZeroLengthMatch(r)
    case Concatenation(l, r) => HasZeroLengthMatch(l) && HasZeroLengthMatch(r)
    case Repetition(c, min, _, _) => min == 0 || HasZeroLengthMatch(c)
    case Literal(_) => false
    case RawByte(_) => false
    case CharClass(_, _, _) => false
  }

  lemma {:induction false} EmptyPower(n: Node, k: nat)
    requires Lang(n, [])
    ensures Power(n, k, [])
    decreases k
  {
    if k > 0 {
      EmptyPower(n, k - 1);
      var none: seq<Byte> := [];
      PowerCons(n, k - 1, none, none);
      assert none + none == none;
    }
  }

  /** The test is exact, where every leaf has bytes to be read. */
  lemma {:induction false} ZeroLengthIsEmptyString(n: Node)
    requires WellFormed(n) && Encodable(n)
    ensures HasZeroLengthMatch(n) <==> Lang(n, [])
    decreases n
  {
    match n
    case Alternation(l, r) =>
      ZeroLengthIsEmptyString(l);
      ZeroLengthIsEmptyString(r);
    case Concatenation(l, r) =>
      ZeroLengthIsEmptyString(l);
      ZeroLengthIsEmptyString(r);
      Fragments.EmptyConcatenation(l, r);
    case Repetition(c, min, max, greedy) =>
      ZeroLengthIsEmptyString(c);
      RepeatEmpty(n);
    case Literal(_) =>
    case RawByte(_) =>
    case CharClass(ranges, breakout, additive) => ClassNotEmpty(ranges, breakout, additive);
  }

  lemma RepeatEmpty(n: Node)
    requires n.Repetition? && (n.max.Some? ==> n.min <= n.max.value)
    ensures Lang(n, []) <==> n.min == 0 || Lang(n.child, [])
  {
    RepetitionIs(n, []);
    hide Lang, Times, Power;
    if n.min == 0 {
      PowerZero(n.child, []);
      TimesBy(n.child, n.min, n.max, 0, []);
    } else if Lang(n.child, []) {
      EmptyPower(n.child, n.min);
      TimesBy(n.child, n.min, n.max, n.min, []);
    } else if Times(n.child, n.min, n.max, []) {
      var k := TimesOf(n.child, n.min, n.max, []);
      Fragments.PowerOfEmpty(n.child, k);
    }
  }

  lemma ClassNotEmpty(ranges: Ranges, breakout: set<Byte>, additive: bool)
    requires WellWritten(ranges)
    ensures !Lang(CharClass(ranges, breakout, additive), [])
  {
    var a := Adjusted(ranges, breakout, additive);
    if a.Some? {
      AdjustedProper(ranges, breakout, additive);
    }
  }

  // ----- counts that overflow -----

  /** A tree whose leaves have bytes has some string. */
  lemma {:induction false} SomeString(n: Node) returns (u: seq<Byte>)
    requires WellFormed(n) && Encodable(n)
    ensures Lang(n, u)
    decreases n
  {
    match n
    case Alternation(l, r) => u := SomeString(l);
    case Concatenation(l, r) =>
      var a := SomeString(l);
      var b := SomeString(r);
      u := a + b;
      assert u[..|a|] == a && u[|a|..] == b;
    case Repetition(c, min, max, greedy) =>
      var a := SomeString(c);
      u := PowerOf(c, min, a);
      TimesBy(c, min, max, min, u);
    case Literal(enc) => u := enc;
    case RawByte(b) => u := [b];
    case CharClass(ranges, breakout, additive) => u := SomeOfClass(n);
  }

  lemma SomeOfClass(n: Node) returns (u: seq<Byte>)
    requires n.CharClass? && WellFormed(n) && Encodable(n)
    ensures Lang(n, u)
  {
    AdjustedProper(n.ranges, n.breakout, n.additive);
    var r := Adjusted(n.ranges, n.breakout, n.additive).value;
    u := SomeOfProduct(r[0]);
    assert InProduct(r[0], u);
  }

  lemma {:induction false} SomeOfProduct(enc: seq<set<Byte>>) returns (u: seq<Byte>)
    requires forall i :: 0 <= i < |enc| ==> enc[i] != {}
    ensures InProduct(enc, u)
    decreases |enc|
  {
    if enc == [] {
      u := [];
    } else {
      var x :| x in enc[0];
      var v := SomeOfProduct(enc[1..]);
      u := [x] + v;
      forall i | 0 <= i < |u| ensures u[i] in enc[i] {
        if i > 0 {
          assert u[i] == v[i - 1] && enc[i] == enc[1..][i - 1];
        }
      }
    }
  }

  lemma {:induction false} PowerOf(n: Node, k: nat, s: seq<Byte>) returns (u: seq<Byte>)
    requires Lang(n, s)
    ensures Power(n, k, u) && |u| == k * |s|
    decreases k
  {
    hide Lang, Power;
    if k == 0 {
      u := [];
      PowerZero(n, u);
    } else {
      var v := PowerOf(n, k - 1, s);
      u := s + v;
      PowerCons(n, k - 1, s, v);
      assert k * |s| == (k - 1) * |s| + |s|;
    }
  }

  lemma {:induction false} PowerIsLong(n: Node, k: nat, u: seq<Byte>, m: nat)
    requires Power(n, k, u) && forall t :: Lang(n, t) ==> m <= |t|
    ensures k * m <= |u|
    decreases k
  {
    hide Lang, Power;
    if k > 0 {
      var i := PowerFirst(n, k, u);
      PowerIsLong(n, k - 1, u[i..], m);
      assert k * m == (k - 1) * m + m;
    }
  }

  lemma {:induction false} Shortest(n: Node, u: seq<Byte>) returns (s: seq<Byte>)
    requires Lang(n, u)
    ensures Lang(n, s) && forall t :: Lang(n, t) ==> |s| <= |t|
    decreases |u|
  {
    hide Lang;
    if t :| Lang(n, t) && |t| < |u| {
      s := Shortest(n, t);
    } else {
      s := u;
    }
  }

  /** Two repetitions are at least both minima long; their combination, whose minimum is wrapped around, has shorter strings. */
  lemma WrapsShorter(x: Node, k: nat)
    requires x.Repetition? && WellFormed(x) && Encodable(x) && !Lang(x.child, [])
    requires k < 2 * x.min && InBounds(k, Combination(x, x).min, Combination(x, x).max)
    ensures !Equivalent(Concatenation(x, x), Combination(x, x))
  {
    var c, z := x.child, Combination(x, x);
    var some := SomeString(c);
    var s := Shortest(c, some);
    var u := PowerOf(c, k, s);
    TimesBy(c, z.min, z.max, k, u);
    RepetitionIs(z, u);
    assert |s| > 0;
    hide Lang, Power, Times, Equivalent;
    if Lang(Concatenation(x, x), u) {
      var i := Fragments.ConcatenationSplits(x, x, u);
      RepetitionIs(x, u[..i]);
      RepetitionIs(x, u[i..]);
      var a := TimesOf(c, x.min, x.max, u[..i]);
      var b := TimesOf(c, x.min, x.max, u[i..]);
      PowerIsLong(c, a, u[..i], |s|);
      PowerIsLong(c, b, u[i..], |s|);
      Longer(k, a, b, |s|);
    }
    NotEquivalent(Concatenation(x, x), z, u);
  }

  lemma Longer(k: nat, a: nat, b: nat, m: nat)
    requires k < a + b && m > 0
    ensures k * m < a * m + b * m
  {
    assert a * m + b * m == (a + b) * m;
    assert (a + b) * m == k * m + (a + b - k) * m;
    assert (a + b - k) * m >= 1;
  }

  lemma NotEquivalent(x: Node, y: Node, u: seq<Byte>)
    requires Lang(y, u) && !Lang(x, u)
    ensures !Equivalent(x, y)
  {
    hide Lang;
  }

  /** If the empty string may be repeated, a least count makes no difference. */
  lemma PaddedTimes(n: Node, min: nat, min': nat, u: seq<Byte>)
    requires Lang(n, []) && Times(n, min, None, u)
    ensures Times(n, min', None, u)
  {
    var k := TimesOf(n, min, None, u);
    EmptyPower(n, min');
    PowerAdd(n, k, min', u, []);
    assert u + [] == u;
    TimesBy(n, min', None, k + min', u);
  }

  /**
   Where the minimum of two unbounded repetitions does overflow, combining them
   leaves the strings as they are exactly if the empty string may be repeated.
   */
  lemma OverflowExactly(x: Node)
    requires x.Repetition? && WellFormed(x) && Encodable(x) && x.max.None? && x.min <= UNBOUNDED && x.min + x.min > UNBOUNDED
    ensures Equivalent(Concatenation(x, x), Combination(x, x)) <==> HasZeroLengthMatch(x.child)
  {
    var c, z := x.child, Combination(x, x);
    ZeroLengthIsEmptyString(c);
    if Lang(c, []) {
      forall u: seq<Byte> ensures Lang(Concatenation(x, x), u) <==> Lang(z, u) {
        PaddedOverflow(x, u);
      }
    } else {
      WrapsShorter(x, z.min);
    }
  }

  lemma PaddedOverflow(x: Node, u: seq<Byte>)
    requires x.Repetition? && x.max.None? && Lang(x.child, [])
    ensures Lang(Concatenation(x, x), u) <==> Lang(Combination(x, x), u)
  {
    CombinationIs(x);
    hide *;
    var z := Combination(x, x);
    RepetitionIs(z, u);
    if Lang(Concatenation(x, x), u) {
      PaddedPair(x, z.min, u);
    }
    if Lang(z, u) {
      RepetitionIs(x, u);
      RepetitionIs(x, []);
      PaddedTimes(x.child, z.min, x.min, u);
      EmptyPower(x.child, x.min);
      PowerTimes(x.child, x.min, []);
      assert u[..|u|] == u && u[|u|..] == [];
      Fragments.ConcatenationMeans(x, x, u, |u|);
    }
  }

  lemma CombinationIs(x: Node)
    requires x.Repetition? && x.max.None?
    ensures var z := Combination(x, x); z.Repetition? && z.child == x.child && z.max == None
  {
  }

  lemma PowerTimes(n: Node, k: nat, u: seq<Byte>)
    requires Power(n, k, u)
    ensures Times(n, k, None, u)
  {
    TimesBy(n, k, None, k, u);
  }

  lemma PaddedPair(x: Node, min: nat, u: seq<Byte>)
    requires x.Repetition? && x.max.None? && Lang(x.child, []) && Lang(Concatenation(x, x), u)
    ensures Times(x.child, min, None, u)
  {
    hide *;
    var i := Fragments.ConcatenationSplits(x, x, u);
    RepetitionIs(x, u[..i]);
    RepetitionIs(x, u[i..]);
    var a := TimesOf(x.child, x.min, x.max, u[..i]);
    var b := TimesOf(x.child, x.min, x.max, u[i..]);
    PowerAdd(x.child, a, b, u[..i], u[i..]);
    assert u[..i] + u[i..] == u;
    PowerTimes(x.child, a + b, u);
    PaddedTimes(x.child, a + b, min, u);
  }

  /** Where the minimum of two bounded repetitions overflows, and the wrapped bounds are in order, the strings change. */
  lemma BoundedOverflowChanges(x: Node)
    requires x.Repetition? && WellFormed(x) && Encodable(x) && x.min <= UNBOUNDED && x.min + x.min > UNBOUNDED
    requires Combination(x, x).max.Some? ==> Combination(x, x).min <= Combination(x, x).max.value
    requires !HasZeroLengthMatch(x.child)
    ensures !Equivalent(Concatenation(x, x), Combination(x, x))
  {
    ZeroLengthIsEmptyString(x.child);
    WrapsShorter(x, Combination(x, x).min);
  }
}
