/**
 The order in which the builder's callbacks are run (src/lib/nfabuilder.cpp:463-604):
 the tree in postorder, with counted repetitions counted out on the way.
 */
module Traversals {
  import opened Basics
  import opened Regexes

  /** What the parser delivers: bounds in order, and ranges as the encoder writes them. */
  predicate WellFormed(n: Node) {
    match n
    case Literal(_) => true
    case RawByte(_) => true
    case CharClass(ranges, _, _) => WellWritten(ranges)
    case Alternation(l, r) => WellFormed(l) && WellFormed(r)
    case Concatenation(l, r) => WellFormed(l) && WellFormed(r)
    case Repetition(c, min, max, _) => WellFormed(c) && (max.Some? ==> min <= max.value)
  }

  /** No repetition in the tree is {0,0}. */
  predicate NoZero(n: Node) {
    match n
    case Literal(_) => true
    case RawByte(_) => true
    case CharClass(_, _, _) => true
    case Alternation(l, r) => NoZero(l) && NoZero(r)
    case Concatenation(l, r) => NoZero(l) && NoZero(r)
    case Repetition(c, _, max, _) => NoZero(c) && max != Some(0)
  }

  /** Every leaf has bytes to be read: otherwise its callback throws. */
  predicate Encodable(n: Node) {
    match n
    case Literal(enc) => enc != []
    case RawByte(_) => true
    case CharClass(ranges, breakout, additive) => Adjusted(ranges, breakout, additive).Some?
    case Alternation(l, r) => Encodable(l) && Encodable(r)
    case Concatenation(l, r) => Encodable(l) && Encodable(r)
    case Repetition(c, _, _, _) => Encodable(c)
  }

  /** The tree with its counted repetitions counted out. */
  function Flat(n: Node): Node
    requires WellFormed(n)
  {
    match n
    case Alternation(l, r) => Alternation(Flat(l), Flat(r))
    case Concatenation(l, r) => Concatenation(Flat(l), Flat(r))
    case Repetition(c, min, max, greedy) =>
      if Named(min, max) then Repetition(Flat(c), min, max, greedy) else Expanded(Flat(c), min, max, greedy)
    case Literal(_) => n
    case RawByte(_) => n
    case CharClass(_, _, _) => n
  }

  // ----- counting out keeps the strings -----

  lemma {:induction false} PowerSame(a: Node, b: Node, k: nat, u: seq<Byte>)
    requires forall w: seq<Byte> :: Lang(a, w) <==> Lang(b, w)
    ensures Power(a, k, u) <==> Power(b, k, u)
    decreases k, 1
  {
    hide *;
    if k == 0 {
      PowerZero(a, u);
      PowerZero(b, u);
    } else {
      if Power(a, k, u) {
        PowerMore(a, b, k, u);
      }
      if Power(b, k, u) {
        PowerMore(b, a, k, u);
      }
    }
  }

  lemma {:induction false} PowerMore(a: Node, b: Node, k: nat, u: seq<Byte>)
    requires (forall w: seq<Byte> :: Lang(a, w) <==> Lang(b, w)) && Power(a, k, u) && k > 0
    ensures Power(b, k, u)
    decreases k, 0
  {
    hide *;
    var i := PowerFirst(a, k, u);
    PowerSame(a, b, k - 1, u[i..]);
    PowerCons(b, k - 1, u[..i], u[i..]);
    assert u[..i] + u[i..] == u;
  }

  lemma TimesSame(a: Node, b: Node, min: nat, max: Option<nat>, u: seq<Byte>)
    requires forall w: seq<Byte> :: Lang(a, w) <==> Lang(b, w)
    ensures Times(a, min, max, u) <==> Times(b, min, max, u)
  {
    hide Lang, Power;
    if Times(a, min, max, u) {
      var k := TimesOf(a, min, max, u);
      PowerSame(a, b, k, u);
      TimesBy(b, min, max, k, u);
    }
    if Times(b, min, max, u) {
      var k := TimesOf(b, min, max, u);
      PowerSame(a, b, k, u);
      TimesBy(a, min, max, k, u);
    }
  }

  /** Without {0,0}, the flat tree has the strings of the tree. */
  lemma {:induction false} FlatMeans(n: Node, u: seq<Byte>)
    requires WellFormed(n) && NoZero(n)
    ensures Lang(Flat(n), u) <==> Lang(n, u)
    decreases n
  {
    match n
    case Alternation(l, r) =>
      FlatMeans(l, u);
      FlatMeans(r, u);
    case Concatenation(l, r) =>
      forall w: seq<Byte> ensures (Lang(Flat(l), w) <==> Lang(l, w)) && (Lang(Flat(r), w) <==> Lang(r, w)) {
        FlatMeans(l, w);
        FlatMeans(r, w);
      }
      assert Lang(n, u) <==> exists i: nat :: i <= |u| && Lang(l, u[..i]) && Lang(r, u[i..]);
      assert Lang(Flat(n), u) <==> exists i: nat :: i <= |u| && Lang(Flat(l), u[..i]) && Lang(Flat(r), u[i..]);
      hide Lang;
    case Repetition(c, min, max, greedy) =>
      forall w: seq<Byte> ensures Lang(Flat(c), w) <==> Lang(c, w) {
        FlatMeans(c, w);
      }
      TimesSame(Flat(c), c, min, max, u);
      if !Named(min, max) {
        ExpandedMeans(Flat(c), min, max, greedy, u);
      }
    case Literal(_) =>
    case RawByte(_) =>
    case CharClass(_, _, _) =>
  }

  // ----- the order -----

  /** How deeply counted repetitions are nested. */
  function Depth(n: Node): nat {
    match n
    case Alternation(l, r) => Max(Depth(l), Depth(r)) as nat
    case Concatenation(l, r) => Max(Depth(l), Depth(r)) as nat
    case Repetition(c, min, max, _) => Depth(c) + if Named(min, max) then 0 else 1
    case Literal(_) => 0
    case RawByte(_) => 0
    case CharClass(_, _, _) => 0
  }

  function Size(n: Node): nat {
    match n
    case Alternation(l, r) => 1 + Size(l) + Size(r)
    case Concatenation(l, r) => 1 + Size(l) + Size(r)
    case Repetition(c, _, _, _) => 1 + Size(c)
    case Literal(_) => 1
    case RawByte(_) => 1
    case CharClass(_, _, _) => 1
  }

  lemma {:induction false} OptionalShape(t: Node, n: nat, greedy: bool)
    requires n > 0 && WellFormed(t)
    ensures WellFormed(Optional(t, n, greedy)) && Depth(Optional(t, n, greedy)) == Depth(t)
    ensures Encodable(Optional(t, n, greedy)) <==> Encodable(t)
    ensures Flat(Optional(t, n, greedy)) == Optional(Flat(t), n, greedy)
    decreases n
  {
    if n > 1 {
      OptionalShape(t, n - 1, greedy);
    }
  }

  lemma {:induction false} MandatoryShape(t: Node, n: nat, rest: Node)
    requires WellFormed(t) && WellFormed(rest) && Depth(rest) == Depth(t) && (Encodable(rest) <==> Encodable(t))
    ensures WellFormed(Mandatory(t, n, rest)) && Depth(Mandatory(t, n, rest)) == Depth(t)
    ensures Encodable(Mandatory(t, n, rest)) <==> Encodable(t)
    ensures Flat(Mandatory(t, n, rest)) == Mandatory(Flat(t), n, Flat(rest))
    decreases n
  {
    if n > 0 {
      MandatoryShape(t, n - 1, rest);
    }
  }

  lemma ExpandedShape(t: Node, min: nat, max: Option<nat>, greedy: bool)
    requires WellFormed(t) && !Named(min, max) && (max.Some? ==> min <= max.value)
    ensures var e := Expanded(t, min, max, greedy);
            && WellFormed(e) && Depth(e) == Depth(t) && (Encodable(e) <==> Encodable(t))
            && Flat(e) == Expanded(Flat(t), min, max, greedy)
  {
    if max == Some(min) {
      MandatoryShape(t, if min == 0 then 0 else min - 1, t);
    } else if max == None {
      MandatoryShape(t, min - 1, Repetition(t, 1, None, greedy));
    } else {
      OptionalShape(t, max.value - min, greedy);
      MandatoryShape(t, min, Optional(t, max.value - min, greedy));
    }
  }

  /** The nodes whose callbacks are run for n, in order. */
  function Post(n: Node): (r: seq<Node>)
    requires WellFormed(n)
    ensures r != []
    decreases Depth(n), Size(n)
  {
    match n
    case Alternation(l, r) => Post(l) + Post(r) + [n]
    case Concatenation(l, r) => Post(l) + Post(r) + [n]
    case Repetition(c, min, max, greedy) =>
      if Named(min, max) then Post(c) + [n]
      else
        ExpandedShape(c, min, max, greedy);
        Post(Expanded(c, min, max, greedy)) + [n]
    case Literal(_) => [n]
    case RawByte(_) => [n]
    case CharClass(_, _, _) => [n]
  }

  // ----- what running the callbacks amounts to -----

  /** The trees whose fragments a callback needs on the stack. */
  function Arity(op: Node): nat {
    match op
    case Alternation(_, _) => 2
    case Concatenation(_, _) => 2
    case Repetition(_, _, _, _) => 1
    case Literal(_) => 0
    case RawByte(_) => 0
    case CharClass(_, _, _) => 0
  }

  /** The stack of trees after a callback. */
  function Reduce(stack: seq<Node>, op: Node): seq<Node>
    requires Arity(op) <= |stack|
  {
    var n := |stack|;
    match op
    case Alternation(_, _) => stack[..n - 2] + [Alternation(stack[n - 2], stack[n - 1])]
    case Concatenation(_, _) => stack[..n - 2] + [Concatenation(stack[n - 2], stack[n - 1])]
    case Repetition(_, min, max, greedy) =>
      if Named(min, max) then stack[..n - 1] + [Repetition(stack[n - 1], min, max, greedy)] else stack
    case Literal(_) => stack + [op]
    case RawByte(_) => stack + [op]
    case CharClass(_, _, _) => stack + [op]
  }

  ghost predicate Reduces(stack: seq<Node>, ops: seq<Node>, result: seq<Node>)
    decreases |ops|
  {
    if ops == [] then stack == result
    else Arity(ops[0]) <= |stack| && Reduces(Reduce(stack, ops[0]), ops[1..], result)
  }

  lemma {:induction false} ReducesThen(a: seq<Node>, p: seq<Node>, b: seq<Node>, q: seq<Node>, c: seq<Node>)
    requires Reduces(a, p, b) && Reduces(b, q, c)
    ensures Reduces(a, p + q, c)
    decreases |p|
  {
    if p == [] {
      assert p + q == q;
    } else {
      assert (p + q)[0] == p[0] && (p + q)[1..] == p[1..] + q;
      ReducesThen(Reduce(a, p[0]), p[1..], b, q, c);
    }
  }

  lemma ReducesOne(a: seq<Node>, op: Node)
    requires Arity(op) <= |a|
    ensures Reduces(a, [op], Reduce(a, op))
  {
    assert [op][1..] == [];
  }

  lemma LeafPost(n: Node)
    requires n.Literal? || n.RawByte? || n.CharClass?
    ensures WellFormed(n) ==> Post(n) == [n] && Flat(n) == n
    ensures Arity(n) == 0 && forall stack: seq<Node> :: Reduce(stack, n) == stack + [n]
  {
  }

  lemma NamedPost(n: Node)
    requires WellFormed(n) && n.Repetition? && Named(n.min, n.max)
    ensures WellFormed(n.child) && Post(n) == Post(n.child) + [n]
    ensures Flat(n) == Repetition(Flat(n.child), n.min, n.max, n.greedy) && Arity(n) == 1
  {
  }

  lemma CountedPost(n: Node)
    requires WellFormed(n) && n.Repetition? && !Named(n.min, n.max)
    ensures n.max.Some? ==> n.min <= n.max.value
    ensures var e := Expanded(n.child, n.min, n.max, n.greedy);
            && WellFormed(e) && Depth(e) < Depth(n) && Post(n) == Post(e) + [n] && Flat(n) == Flat(e)
    ensures Arity(n) <= 1 && forall stack: seq<Node> :: Arity(n) <= |stack| ==> Reduce(stack, n) == stack
  {
    ExpandedShape(n.child, n.min, n.max, n.greedy);
  }

  lemma TwoPost(l: Node, r: Node, n: Node)
    requires WellFormed(n) && (n == Alternation(l, r) || n == Concatenation(l, r))
    ensures WellFormed(l) && WellFormed(r) && Post(n) == Post(l) + Post(r) + [n] && Arity(n) == 2
    ensures Depth(l) <= Depth(n) && Depth(r) <= Depth(n) && Size(l) < Size(n) && Size(r) < Size(n)
    ensures Flat(n) == if n.Alternation? then Alternation(Flat(l), Flat(r)) else Concatenation(Flat(l), Flat(r))
  {
  }

  lemma TopReduce(stack: seq<Node>, c: Node, n: Node)
    requires n.Repetition? && Named(n.min, n.max)
    ensures Arity(n) <= |stack + [c]| && Reduce(stack + [c], n) == stack + [Repetition(c, n.min, n.max, n.greedy)]
  {
    hide Named;
    var s := stack + [c];
    assert s[..|s| - 1] == stack && s[|s| - 1] == c;
    assert Reduce(s, n) == s[..|s| - 1] + [Repetition(s[|s| - 1], n.min, n.max, n.greedy)];
  }

  lemma BothReduce(stack: seq<Node>, a: Node, b: Node, n: Node)
    requires n.Alternation? || n.Concatenation?
    ensures Arity(n) <= |stack + [a] + [b]|
    ensures Reduce(stack + [a] + [b], n) == stack + [if n.Alternation? then Alternation(a, b) else Concatenation(a, b)]
  {
    var s2 := stack + [a] + [b];
    assert s2[..|s2| - 2] == stack;
  }

  /** The callbacks of a tree put one tree on the stack: the flat one. */
  lemma {:induction false} PostReduces(stack: seq<Node>, n: Node)
    requires WellFormed(n)
    ensures Reduces(stack, Post(n), stack + [Flat(n)])
    decreases Depth(n), Size(n), 1
  {
    hide *;
    match n
    case Literal(_) =>
      LeafPost(n);
      ReducesOne(stack, n);
    case RawByte(_) =>
      LeafPost(n);
      ReducesOne(stack, n);
    case CharClass(_, _, _) =>
      LeafPost(n);
      ReducesOne(stack, n);
    case Alternation(l, r) =>
      TwoReduce(stack, l, r, n);
    case Concatenation(l, r) =>
      TwoReduce(stack, l, r, n);
    case Repetition(c, min, max, greedy) =>
      if Named(min, max) {
        NamedPost(n);
        SizeOfChild(n);
        PostReduces(stack, c);
        var s1 := stack + [Flat(c)];
        TopReduce(stack, Flat(c), n);
        ReducesOne(s1, n);
        ReducesThen(stack, Post(c), s1, [n], stack + [Flat(n)]);
      } else {
        CountedPost(n);
        var e := Expanded(c, min, max, greedy);
        PostReduces(stack, e);
        ReducesOne(stack + [Flat(e)], n);
        ReducesThen(stack, Post(e), stack + [Flat(e)], [n], stack + [Flat(n)]);
      }
  }

  lemma SizeOfChild(n: Node)
    requires n.Repetition? && Named(n.min, n.max)
    ensures Depth(n.child) <= Depth(n) && Size(n.child) < Size(n)
  {
  }

  lemma {:induction false} TwoReduce(stack: seq<Node>, l: Node, r: Node, n: Node)
    requires WellFormed(n) && (n == Alternation(l, r) || n == Concatenation(l, r))
    ensures Reduces(stack, Post(n), stack + [Flat(n)])
    decreases Depth(n), Size(n), 0
  {
    hide *;
    TwoPost(l, r, n);
    PostReduces(stack, l);
    var s1 := stack + [Flat(l)];
    PostReduces(s1, r);
    var s2 := s1 + [Flat(r)];
    BothReduce(stack, Flat(l), Flat(r), n);
    ReducesOne(s2, n);
    ReducesThen(stack, Post(l), s1, Post(r), s2);
    ReducesThen(stack, Post(l) + Post(r), s2, [n], stack + [Flat(n)]);
  }

  // ----- leaves -----

  predicate LeafOk(op: Node) {
    match op
    case Literal(enc) => enc != []
    case CharClass(ranges, breakout, additive) => WellWritten(ranges) && Adjusted(ranges, breakout, additive).Some?
    case RawByte(_) => true
    case Alternation(_, _) => true
    case Concatenation(_, _) => true
    case Repetition(_, _, _, _) => true
  }

  predicate OpFormed(op: Node) {
    (op.CharClass? ==> WellWritten(op.ranges))
    && (op.Repetition? ==> op.max.Some? ==> op.min <= op.max.value)
  }

  ghost predicate AllLeavesOk(ops: seq<Node>) {
    forall i :: 0 <= i < |ops| ==> LeafOk(ops[i])
  }

  ghost predicate AllFormed(ops: seq<Node>) {
    forall i :: 0 <= i < |ops| ==> OpFormed(ops[i])
  }

  lemma LeavesAppend(a: seq<Node>, b: seq<Node>)
    ensures AllLeavesOk(a + b) <==> AllLeavesOk(a) && AllLeavesOk(b)
    ensures AllFormed(a + b) <==> AllFormed(a) && AllFormed(b)
  {
    forall i | 0 <= i < |a| ensures (a + b)[i] == a[i] {
    }
    forall i | 0 <= i < |b| ensures (a + b)[|a| + i] == b[i] {
    }
  }

  /** The callbacks throw exactly where the tree has a leaf without bytes. */
  lemma {:induction false} PostLeaves(n: Node)
    requires WellFormed(n)
    ensures AllLeavesOk(Post(n)) <==> Encodable(n)
    ensures AllFormed(Post(n))
    decreases Depth(n), Size(n)
  {
    hide AllLeavesOk, AllFormed;
    OneLeaf(n);
    match n
    case Alternation(l, r) =>
      PostLeaves(l);
      PostLeaves(r);
      LeavesAppend(Post(l), Post(r));
      LeavesAppend(Post(l) + Post(r), [n]);
    case Concatenation(l, r) =>
      PostLeaves(l);
      PostLeaves(r);
      LeavesAppend(Post(l), Post(r));
      LeavesAppend(Post(l) + Post(r), [n]);
    case Repetition(c, min, max, greedy) =>
      if Named(min, max) {
        PostLeaves(c);
        LeavesAppend(Post(c), [n]);
      } else {
        ExpandedShape(c, min, max, greedy);
        PostLeaves(Expanded(c, min, max, greedy));
        LeavesAppend(Post(Expanded(c, min, max, greedy)), [n]);
      }
    case Literal(_) =>
    case RawByte(_) =>
    case CharClass(_, _, _) =>
  }

  lemma OneLeaf(n: Node)
    ensures AllLeavesOk([n]) <==> LeafOk(n)
    ensures AllFormed([n]) <==> OpFormed(n)
  {
    assert [n][0] == n;
  }

  // ----- the two stacks -----

  function Rev(s: seq<Node>): (r: seq<Node>)
    ensures |r| == |s|
  {
    if s == [] then [] else [s[|s| - 1]] + Rev(s[..|s| - 1])
  }

  lemma RevSnoc(s: seq<Node>, n: Node)
    ensures Rev(s + [n]) == [n] + Rev(s)
  {
    assert (s + [n])[..|s|] == s;
  }

  ghost predicate AllWellFormed(wind: seq<Node>) {
    forall i :: 0 <= i < |wind| ==> WellFormed(wind[i])
  }

  ghost function PostAll(wind: seq<Node>): seq<Node>
    requires AllWellFormed(wind)
  {
    if wind == [] then [] else PostAll(wind[..|wind| - 1]) + Post(wind[|wind| - 1])
  }

  lemma PostAllSnoc(wind: seq<Node>, n: Node)
    requires AllWellFormed(wind) && WellFormed(n)
    ensures AllWellFormed(wind + [n]) && PostAll(wind + [n]) == PostAll(wind) + Post(n)
  {
    assert (wind + [n])[..|wind|] == wind;
  }

  lemma {:induction false} PostAllAppend(a: seq<Node>, b: seq<Node>)
    requires AllWellFormed(a) && AllWellFormed(b)
    ensures AllWellFormed(a + b) && PostAll(a + b) == PostAll(a) + PostAll(b)
    decreases |b|
  {
    hide Post, WellFormed;
    if b == [] {
      assert a + b == a;
    } else {
      var front, n := b[..|b| - 1], b[|b| - 1];
      assert b == front + [n] && a + b == a + front + [n];
      PostAllAppend(a, front);
      PostAllSnoc(a + front, n);
    }
  }

  /** What traverse pushes for a node. */
  function Kids(n: Node): seq<Node>
    requires WellFormed(n)
  {
    match n
    case Alternation(l, r) => [l, r]
    case Concatenation(l, r) => [l, r]
    case Repetition(c, min, max, greedy) => if Named(min, max) then [c] else [Expanded(c, min, max, greedy)]
    case Literal(_) => []
    case RawByte(_) => []
    case CharClass(_, _, _) => []
  }

  lemma PostOne(n: Node)
    requires WellFormed(n)
    ensures AllWellFormed([n]) && PostAll([n]) == Post(n)
  {
    PostAllSnoc([], n);
    assert [] + [n] == [n];
    assert PostAll([]) + Post(n) == Post(n);
  }

  lemma PostTwo(l: Node, r: Node)
    requires WellFormed(l) && WellFormed(r)
    ensures AllWellFormed([l, r]) && PostAll([l, r]) == Post(l) + Post(r)
  {
    PostOne(l);
    PostAllSnoc([l], r);
    assert [l] + [r] == [l, r];
  }

  lemma PostKids(n: Node)
    requires WellFormed(n)
    ensures AllWellFormed(Kids(n)) && Post(n) == PostAll(Kids(n)) + [n]
  {
    match n
    case Alternation(l, r) => PostTwo(l, r);
    case Concatenation(l, r) => PostTwo(l, r);
    case Repetition(c, min, max, greedy) =>
      if Named(min, max) {
        PostOne(c);
      } else {
        ExpandedShape(c, min, max, greedy);
        PostOne(Expanded(c, min, max, greedy));
      }
    case Literal(_) =>
    case RawByte(_) =>
    case CharClass(_, _, _) =>
  }

  /** One step of the winding: a node leaves for its children. */
  lemma WindStep(root: Node, front: seq<Node>, n: Node, unwind: seq<Node>)
    requires WellFormed(root) && AllWellFormed(front) && WellFormed(n)
    requires PostAll(front) + Post(n) + Rev(unwind) == Post(root)
    ensures AllWellFormed(front + Kids(n))
    ensures PostAll(front + Kids(n)) + Rev(unwind + [n]) == Post(root)
    ensures |PostAll(front + Kids(n))| < |PostAll(front)| + |Post(n)|
  {
    hide *;
    RevSnoc(unwind, n);
    PostKids(n);
    PostAllAppend(front, Kids(n));
    var a, b, c := PostAll(front), PostAll(Kids(n)), Rev(unwind);
    assert a + (b + [n]) + c == a + b + ([n] + c);
  }

  lemma KidsAre(n: Node)
    requires WellFormed(n)
    ensures Kids(n) == match n
                       case Alternation(l, r) => [l, r]
                       case Concatenation(l, r) => [l, r]
                       case Repetition(c, min, max, greedy) => if Named(min, max) then [c] else [Expanded(c, min, max, greedy)]
                       case Literal(_) => []
                       case RawByte(_) => []
                       case CharClass(_, _, _) => []
  {
  }

  /** The synthesized nodes of a counted repetition, innermost first. */
  method Synthesize(t: Node, min: nat, max: Option<nat>, greedy: bool) returns (e: Node)
    requires !Named(min, max) && (max.Some? ==> min <= max.value)
    ensures e == Expanded(t, min, max, greedy)
  {
    var copies: nat := 0;
    if max == Some(min) {
      // finish the mandatory part
      e := t;
      copies := if min == 0 then 0 else min - 1;
    } else if max == None {
      // build the unbounded optional part
      e := Repetition(t, 1, None, greedy);
      copies := min - 1;
    } else {
      // build the bounded optional part
      e := Repetition(t, 0, Some(1), greedy);
      for i := 1 to max.value - min
        invariant e == Optional(t, i, greedy)
      {
        e := Repetition(Concatenation(t, e), 0, Some(1), greedy);
      }
      copies := min;
    }
    // build the mandatory part
    ghost var rest := e;
    for i := 0 to copies
      invariant e == Mandatory(t, i, rest)
    {
      e := Concatenation(t, e);
    }
  }

  /** First half of traverse: wind for preorder, so that unwinding is postorder. */
  method Wind(root: Node) returns (unwind: seq<Node>)
    requires WellFormed(root)
    ensures Rev(unwind) == Post(root)
  {
    hide *;
    var wind := [root];
    unwind := [];
    WindFirst(root);
    while wind != []
      invariant AllWellFormed(wind) && PostAll(wind) + Rev(unwind) == Post(root)
      decreases |PostAll(wind)|
    {
      var n := wind[|wind| - 1];
      var front := wind[..|wind| - 1];
      assert wind == front + [n];
      WindPop(front, n);
      assert PostAll(front) + Post(n) + Rev(unwind) == Post(root);
      var kids: seq<Node>;
      match n {
        case Alternation(l, r) => kids := [l, r];
        case Concatenation(l, r) => kids := [l, r];
        case Repetition(c, min, max, greedy) =>
          if Named(min, max) {
            kids := [c];
          } else {
            var e := Synthesize(c, min, max, greedy);
            kids := [e];
          }
        case Literal(_) => kids := [];
        case RawByte(_) => kids := [];
        case CharClass(_, _, _) => kids := [];
      }
      KidsAre(n);
      WindStep(root, front, n, unwind);
      wind := front + kids;
      unwind := unwind + [n];
    }
    WindEnd(unwind);
  }

  lemma WindFirst(root: Node)
    requires WellFormed(root)
    ensures AllWellFormed([root]) && PostAll([root]) + Rev([]) == Post(root)
  {
    hide *;
    PostOne(root);
    RevNone();
  }

  lemma RevNone()
    ensures Rev([]) == []
  {
  }

  lemma WindPop(front: seq<Node>, n: Node)
    requires AllWellFormed(front + [n])
    ensures AllWellFormed(front) && WellFormed(n) && PostAll(front + [n]) == PostAll(front) + Post(n)
    ensures n.Repetition? ==> n.max.Some? ==> n.min <= n.max.value
  {
    assert (front + [n])[|front|] == n;
    forall i | 0 <= i < |front| ensures WellFormed(front[i]) {
      assert (front + [n])[i] == front[i];
    }
    PostAllSnoc(front, n);
  }

  lemma WindEnd(unwind: seq<Node>)
    ensures PostAll([]) + Rev(unwind) == Rev(unwind)
  {
  }
}
