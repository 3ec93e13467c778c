/**
 Parse trees (include/parsenode.h) over encoded bytes, and the strings they
 denote. A literal holds the bytes that the encoder writes for its code point,
 a character class the byte ranges that the encoder writes for its code points.
 */
module Regexes {
  import opened Basics

  type Ranges = seq<seq<set<Byte>>>

  datatype Node =
    | Literal(enc: seq<Byte>)
    | RawByte(b: Byte)
    | CharClass(ranges: Ranges, breakout: set<Byte>, additive: bool)
    | Alternation(left: Node, right: Node)
    | Concatenation(left: Node, right: Node)
    | Repetition(child: Node, min: nat, max: Option<nat>, greedy: bool)

  // ----- character classes -----

  predicate InProduct(enc: seq<set<Byte>>, u: seq<Byte>) {
    |u| == |enc| && forall i :: 0 <= i < |u| ==> u[i] in enc[i]
  }

  /** The ranges with the breakout bytes added or taken away, as charClass does it; None where it throws. */
  function Adjusted(ranges: Ranges, breakout: set<Byte>, additive: bool): (r: Option<Ranges>) {
    if ranges == [] then
      if !additive || breakout == {} then None else Some([[breakout]])
    else if breakout == {} then Some(ranges)
    else if additive then
      if |ranges[0]| == 1 then Some(ranges[0 := [ranges[0][0] + breakout]]) else Some(ranges + [[breakout]])
    else if |ranges[0]| == 1 then
      if ranges[0][0] - breakout != {} then Some(ranges[0 := [ranges[0][0] - breakout]])
      else if |ranges| == 1 then None
      else Some(ranges[1..])
    else Some(ranges)
  }

  ghost predicate InRanges(ranges: Ranges, u: seq<Byte>) {
    exists i :: 0 <= i < |ranges| && InProduct(ranges[i], u)
  }

  /** Some bytes, at every place. */
  predicate Proper(enc: seq<set<Byte>>) {
    enc != [] && forall i :: 0 <= i < |enc| ==> enc[i] != {}
  }

  /** What an encoder writes: no empty encodings, and the one-byte encodings in one range in front. */
  predicate WellWritten(ranges: Ranges) {
    && (forall i :: 0 <= i < |ranges| ==> Proper(ranges[i]))
    && (forall i :: 0 < i < |ranges| ==> |ranges[i]| != 1)
  }

  /** In a range but the first. */
  ghost predicate InRest(ranges: Ranges, u: seq<Byte>) {
    exists i :: 0 < i < |ranges| && InProduct(ranges[i], u)
  }

  lemma FirstOrRest(ranges: Ranges, enc: seq<set<Byte>>, u: seq<Byte>)
    requires ranges != []
    ensures InRanges(ranges, u) <==> InProduct(ranges[0], u) || InRest(ranges, u)
    ensures InRanges(ranges[0 := enc], u) <==> InProduct(enc, u) || InRest(ranges, u)
    ensures InRanges(ranges[1..], u) <==> InRest(ranges, u)
    ensures InRanges(ranges + [enc], u) <==> InRanges(ranges, u) || InProduct(enc, u)
  {
    hide InProduct;
    if i :| 0 <= i < |ranges| && InProduct(ranges[i], u) {
      assert (ranges + [enc])[i] == ranges[i];
    }
    if i :| 0 < i < |ranges| && InProduct(ranges[i], u) {
      assert ranges[0 := enc][i] == ranges[i] && ranges[1..][i - 1] == ranges[i];
    }
    assert ranges[0 := enc][0] == enc && (ranges + [enc])[|ranges|] == enc;
  }

  /** Adjusting adds, or takes away, exactly the one-byte strings of the breakout bytes. */
  lemma AdjustedMeans(ranges: Ranges, breakout: set<Byte>, additive: bool, u: seq<Byte>)
    requires WellWritten(ranges) && Adjusted(ranges, breakout, additive).Some?
    ensures var one := |u| == 1 && u[0] in breakout;
            InRanges(Adjusted(ranges, breakout, additive).value, u)
            <==> if additive then InRanges(ranges, u) || one else InRanges(ranges, u) && !one
  {
    var one := |u| == 1 && u[0] in breakout;
    assert InProduct([breakout], u) <==> one;
    if ranges == [] {
      FirstOrRest([[breakout]], [], u);
    } else {
      assert InRest(ranges, u) ==> !one;
      var A := if ranges[0] != [] then ranges[0][0] else {};
      if |ranges[0]| == 1 {
        assert InProduct(ranges[0], u) <==> |u| == 1 && u[0] in A;
      }
      FirstOrRest(ranges, if additive then [A + breakout] else [A - breakout], u);
      FirstOrRest(ranges, [breakout], u);
      hide InRanges, InRest;
    }
  }

  /** What is left by adjusting is proper. */
  lemma AdjustedProper(ranges: Ranges, breakout: set<Byte>, additive: bool)
    requires WellWritten(ranges) && Adjusted(ranges, breakout, additive).Some?
    ensures var r := Adjusted(ranges, breakout, additive).value;
            r != [] && forall i :: 0 <= i < |r| ==> Proper(r[i])
  {
    var r := Adjusted(ranges, breakout, additive).value;
    forall i | 0 <= i < |r| ensures Proper(r[i]) {
      assert i < |ranges| ==> Proper(ranges[i]);
      assert i + 1 < |ranges| ==> Proper(ranges[i + 1]);
    }
  }

  // ----- what a tree denotes -----

  ghost predicate Lang(n: Node, u: seq<Byte>)
    decreases n, 0, 0
  {
    match n
    case Literal(enc) => u == enc
    case RawByte(b) => u == [b]
    case CharClass(ranges, breakout, additive) =>
      Adjusted(ranges, breakout, additive).Some? && InRanges(Adjusted(ranges, breakout, additive).value, u)
    case Alternation(l, r) => Lang(l, u) || Lang(r, u)
    case Concatenation(l, r) => exists i: nat :: i <= |u| && Lang(l, u[..i]) && Lang(r, u[i..])
    case Repetition(c, min, max, greedy) => Times(c, min, max, u)
  }

  predicate InBounds(k: nat, min: nat, max: Option<nat>) {
    min <= k && (max.Some? ==> k <= max.value)
  }

  /** u is at least min and at most max strings of n. */
  ghost predicate Times(n: Node, min: nat, max: Option<nat>, u: seq<Byte>)
    decreases n, 2, 0
  {
    exists k: nat :: InBounds(k, min, max) && Power(n, k, u)
  }

  /** u is k strings of n, one after the other. */
  ghost predicate Power(n: Node, k: nat, u: seq<Byte>)
    decreases n, 1, k
  {
    if k == 0 then u == []
    else exists i: nat :: i <= |u| && Lang(n, u[..i]) && Power(n, k - 1, u[i..])
  }

  lemma PowerCons(n: Node, k: nat, a: seq<Byte>, b: seq<Byte>)
    requires Lang(n, a) && Power(n, k, b)
    ensures Power(n, k + 1, a + b)
  {
    assert (a + b)[..|a|] == a && (a + b)[|a|..] == b;
  }

  lemma PowerFirst(n: Node, k: nat, u: seq<Byte>) returns (i: nat)
    requires k > 0 && Power(n, k, u)
    ensures i <= |u| && Lang(n, u[..i]) && Power(n, k - 1, u[i..])
  {
    i :| i <= |u| && Lang(n, u[..i]) && Power(n, k - 1, u[i..]);
  }

  lemma PowerZero(n: Node, u: seq<Byte>)
    ensures Power(n, 0, u) <==> u == []
  {
  }

  lemma {:induction false} PowerAdd(n: Node, j: nat, k: nat, a: seq<Byte>, b: seq<Byte>)
    requires Power(n, j, a) && Power(n, k, b)
    ensures Power(n, j + k, a + b)
    decreases j
  {
    hide *;
    if j == 0 {
      PowerZero(n, a);
      assert a + b == b;
    } else {
      var i := PowerFirst(n, j, a);
      PowerAdd(n, j - 1, k, a[i..], b);
      PowerCons(n, j - 1 + k, a[..i], a[i..] + b);
      JoinTail(a, b, i);
    }
  }

  lemma JoinTail(a: seq<Byte>, b: seq<Byte>, i: nat)
    requires i <= |a|
    ensures a[..i] + (a[i..] + b) == a + b
  {
  }

  lemma PowerOne(n: Node, u: seq<Byte>)
    ensures Power(n, 1, u) <==> Lang(n, u)
  {
    PowerZero(n, []);
    hide Lang, Power;
    if Lang(n, u) {
      PowerCons(n, 0, u, []);
      assert u + [] == u;
    }
    if Power(n, 1, u) {
      var i := PowerFirst(n, 1, u);
      PowerZero(n, u[i..]);
      assert u[..i] == u;
    }
  }

  lemma SliceInTwo(u: seq<Byte>, i: nat, j: nat)
    requires i <= |u| && j <= |u[i..]|
    ensures u[..i] + u[i..][..j] == u[..i + j] && u[i..][j..] == u[i + j..]
  {
  }

  lemma {:induction false} PowerSplit(n: Node, j: nat, k: nat, u: seq<Byte>) returns (i: nat)
    requires Power(n, j + k, u)
    ensures i <= |u| && Power(n, j, u[..i]) && Power(n, k, u[i..])
    decreases j
  {
    hide *;
    if j == 0 {
      i := 0;
      PowerZero(n, u[..0]);
      assert u[0..] == u;
    } else {
      var f := PowerFirst(n, j + k, u);
      var e := PowerSplit(n, j - 1, k, u[f..]);
      i := f + e;
      PowerCons(n, j - 1, u[..f], u[f..][..e]);
      SliceInTwo(u, f, e);
    }
  }

  // ----- counted repetitions -----

  /** The repetitions that the builder has callbacks for: ? * + and their nongreedy forms. */
  predicate Named(min: nat, max: Option<nat>) {
    (min == 0 && (max == Some(1) || max == None)) || (min == 1 && max == None)
  }

  /** The bounded optional part, n times: (T(T(T...)?)?)? */
  function Optional(t: Node, n: nat, greedy: bool): Node
    requires n > 0
  {
    if n == 1 then Repetition(t, 0, Some(1), greedy)
    else Repetition(Concatenation(t, Optional(t, n - 1, greedy)), 0, Some(1), greedy)
  }

  /** n copies of t in front of the rest. */
  function Mandatory(t: Node, n: nat, rest: Node): Node {
    if n == 0 then rest else Concatenation(t, Mandatory(t, n - 1, rest))
  }

  /** What traverse puts in the place of a repetition that has no callback. */
  function Expanded(t: Node, min: nat, max: Option<nat>, greedy: bool): Node
    requires !Named(min, max) && (max.Some? ==> min <= max.value)
  {
    if max == Some(min) then Mandatory(t, if min == 0 then 0 else min - 1, t)
    else if max == None then Mandatory(t, min - 1, Repetition(t, 1, None, greedy))
    else Mandatory(t, min, Optional(t, max.value - min, greedy))
  }

  lemma TimesBy(n: Node, min: nat, max: Option<nat>, k: nat, u: seq<Byte>)
    requires InBounds(k, min, max) && Power(n, k, u)
    ensures Times(n, min, max, u)
  {
  }

  lemma TimesOf(n: Node, min: nat, max: Option<nat>, u: seq<Byte>) returns (k: nat)
    requires Times(n, min, max, u)
    ensures InBounds(k, min, max) && Power(n, k, u)
  {
    k :| InBounds(k, min, max) && Power(n, k, u);
  }

  /** Once more in front. */
  lemma TimesCons(t: Node, min: nat, max: Option<nat>, u: seq<Byte>)
    ensures Times(t, min + 1, if max.Some? then Some(max.value + 1) else None, u)
       <==> exists i: nat :: i <= |u| && Lang(t, u[..i]) && Times(t, min, max, u[i..])
  {
    hide Lang, Power, Times;
    var max' := if max.Some? then Some(max.value + 1) else None;
    if Times(t, min + 1, max', u) {
      var k := TimesOf(t, min + 1, max', u);
      var i := PowerFirst(t, k, u);
      TimesBy(t, min, max, k - 1, u[i..]);
    }
    if i: nat :| i <= |u| && Lang(t, u[..i]) && Times(t, min, max, u[i..]) {
      var k := TimesOf(t, min, max, u[i..]);
      PowerCons(t, k, u[..i], u[i..]);
      assert u[..i] + u[i..] == u;
      TimesBy(t, min + 1, max', k + 1, u);
    }
  }

  lemma {:induction false} MandatoryMeans(t: Node, n: nat, rest: Node, min: nat, max: Option<nat>, u: seq<Byte>)
    requires forall w: seq<Byte> :: Lang(rest, w) <==> Times(t, min, max, w)
    ensures Lang(Mandatory(t, n, rest), u) <==> Times(t, n + min, if max.Some? then Some(n + max.value) else None, u)
    decreases n
  {
    hide Times, Power, InBounds;
    if n > 0 {
      var m := Mandatory(t, n - 1, rest);
      forall w: seq<Byte> ensures Lang(m, w) <==> Times(t, n - 1 + min, if max.Some? then Some(n - 1 + max.value) else None, w) {
        MandatoryMeans(t, n - 1, rest, min, max, w);
      }
      TimesCons(t, n - 1 + min, if max.Some? then Some(n - 1 + max.value) else None, u);
      assert Lang(Concatenation(t, m), u) <==> exists i: nat :: i <= |u| && Lang(t, u[..i]) && Lang(m, u[i..]);
    } else {
      assert max.Some? ==> Some(0 + max.value) == max;
    }
  }

  lemma QuestionMeans(t: Node, u: seq<Byte>)
    ensures Times(t, 0, Some(1), u) <==> u == [] || Lang(t, u)
  {
    PowerOne(t, u);
    if Times(t, 0, Some(1), u) {
      var k := TimesOf(t, 0, Some(1), u);
      assert k == 0 || k == 1;
    }
    if u == [] {
      TimesBy(t, 0, Some(1), 0, u);
    }
    if Lang(t, u) {
      TimesBy(t, 0, Some(1), 1, u);
    }
  }

  lemma OnceMeans(t: Node, u: seq<Byte>)
    ensures Times(t, 1, Some(1), u) <==> Lang(t, u)
  {
    PowerOne(t, u);
    if Times(t, 1, Some(1), u) {
      var k := TimesOf(t, 1, Some(1), u);
      assert k == 1;
    }
    if Lang(t, u) {
      TimesBy(t, 1, Some(1), 1, u);
    }
  }

  lemma TimesFromZero(t: Node, max: nat, u: seq<Byte>)
    requires max > 0
    ensures Times(t, 0, Some(max), u) <==> u == [] || Times(t, 1, Some(max), u)
  {
    if Times(t, 0, Some(max), u) {
      var k := TimesOf(t, 0, Some(max), u);
      if k > 0 {
        TimesBy(t, 1, Some(max), k, u);
      }
    }
    if u == [] {
      TimesBy(t, 0, Some(max), 0, u);
    } else if Times(t, 1, Some(max), u) {
      var k := TimesOf(t, 1, Some(max), u);
      TimesBy(t, 0, Some(max), k, u);
    }
  }

  lemma {:induction false} OptionalMeans(t: Node, n: nat, greedy: bool, u: seq<Byte>)
    requires n > 0
    ensures Lang(Optional(t, n, greedy), u) <==> Times(t, 0, Some(n), u)
    decreases n
  {
    if n > 1 {
      var rest := Optional(t, n - 1, greedy);
      var con := Concatenation(t, rest);
      QuestionMeans(con, u);
      hide Times, Power;
      forall w: seq<Byte> ensures Lang(rest, w) <==> Times(t, 0, Some(n - 1), w) {
        OptionalMeans(t, n - 1, greedy, w);
      }
      TimesCons(t, 0, Some(n - 1), u);
      TimesFromZero(t, n, u);
      assert Lang(con, u) <==> exists i: nat :: i <= |u| && Lang(t, u[..i]) && Lang(rest, u[i..]);
      if u == [] {
        TimesFromZero(t, n, u);
      }
      TimesFromOne(t, n, u);
    }
  }

  lemma TimesFromOne(t: Node, max: nat, u: seq<Byte>)
    requires max > 0
    ensures Times(t, 1, Some(max), u) ==> Times(t, 0, Some(max), u)
  {
    if Times(t, 1, Some(max), u) {
      var k := TimesOf(t, 1, Some(max), u);
      TimesBy(t, 0, Some(max), k, u);
    }
  }

  /** Counting out a repetition leaves its strings as they are, unless it is {0,0}. */
  lemma ExpandedMeans(t: Node, min: nat, max: Option<nat>, greedy: bool, u: seq<Byte>)
    requires !Named(min, max) && (max.Some? ==> min <= max.value) && max != Some(0)
    ensures Lang(Expanded(t, min, max, greedy), u) <==> Lang(Repetition(t, min, max, greedy), u)
  {
    hide Times, Power;
    if max == Some(min) {
      forall w: seq<Byte> ensures Lang(t, w) <==> Times(t, 1, Some(1), w) {
        OnceMeans(t, w);
      }
      MandatoryMeans(t, min - 1, t, 1, Some(1), u);
    } else if max == None {
      MandatoryMeans(t, min - 1, Repetition(t, 1, None, greedy), 1, None, u);
    } else {
      var n := max.value - min;
      forall w: seq<Byte> ensures Lang(Optional(t, n, greedy), w) <==> Times(t, 0, Some(n), w) {
        OptionalMeans(t, n, greedy, w);
      }
      MandatoryMeans(t, min, Optional(t, n, greedy), 0, Some(n), u);
      assert Some(min + n) == max;
    }
  }

  /** T{0,0} is built as T: exactly where T is not the empty string alone, that changes the strings. */
  lemma ZeroTimesIsOnce(t: Node, greedy: bool, u: seq<Byte>)
    ensures Lang(Expanded(t, 0, Some(0), greedy), u) <==> Lang(t, u)
    ensures Lang(Repetition(t, 0, Some(0), greedy), u) <==> u == []
  {
    if u == [] {
      TimesBy(t, 0, Some(0), 0, u);
    }
    if Times(t, 0, Some(0), u) {
      var k := TimesOf(t, 0, Some(0), u);
      assert k == 0;
    }
  }
}
