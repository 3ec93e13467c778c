/**
 RangeSet (include/rangeset.h): a set of numbers below N as the increasing
 sequence of the places where membership changes. Every mutator keeps that shape and
 computes the set operation it is for, and equal sets have equal sequences.
 */
module RangeSets {
  import opened Basics
  import Encoders

  /** How many boundaries are at most x. */
  function AtMost(vec: seq<nat>, x: nat): (n: nat)
    ensures n <= |vec|
  {
    if vec == [] then 0 else AtMost(vec[..|vec| - 1], x) + if vec[|vec| - 1] <= x then 1 else 0
  }

  predicate Odd(n: nat) {
    n % 2 == 1
  }

  lemma OddSum(a: nat, b: nat)
    ensures Odd(a + b) <==> Odd(a) != Odd(b)
    ensures !Odd(0) && Odd(1) && !Odd(2)
  {
  }

  /** x is in the set if an odd number of boundaries is passed on the way to it. */
  predicate In(vec: seq<nat>, x: nat) {
    Odd(AtMost(vec, x))
  }

  ghost predicate Increasing(vec: seq<nat>) {
    forall i, j :: 0 <= i < j < |vec| ==> vec[i] < vec[j]
  }

  ghost predicate Bounded(vec: seq<nat>, n: nat) {
    && Increasing(vec) && !Odd(|vec|)
    && forall i :: 0 <= i < |vec| ==> vec[i] <= n
  }

  lemma {:induction false} AtMostAppend(a: seq<nat>, b: seq<nat>, x: nat)
    ensures AtMost(a + b, x) == AtMost(a, x) + AtMost(b, x)
    decreases |b|
  {
    if b == [] {
      assert a + b == a;
    } else {
      var front := b[..|b| - 1];
      assert (a + b)[..|a + b| - 1] == a + front;
      AtMostAppend(a, front, x);
    }
  }

  /** All of the first k boundaries, and none of the others, are at most x. */
  lemma {:induction false} AtMostIs(vec: seq<nat>, x: nat, k: nat)
    requires k <= |vec| && (forall i :: 0 <= i < k ==> vec[i] <= x) && (forall i :: k <= i < |vec| ==> x < vec[i])
    ensures AtMost(vec, x) == k
    decreases |vec|
  {
    if vec != [] {
      AtMostIs(vec[..|vec| - 1], x, if k == |vec| then k - 1 else k);
    }
  }

  /** Membership is that of the ranges from an even place to the odd place after it. */
  lemma InIsSpan(vec: seq<nat>, x: nat)
    requires Increasing(vec) && !Odd(|vec|)
    ensures In(vec, x) <==> exists k :: InSpan(vec, k, x)
  {
    var n := Passed(vec, x);
    AtMostIs(vec, x, n);
    if n % 2 == 1 {
      assert InSpan(vec, n / 2, x);
    }
    if k :| InSpan(vec, k, x) {
      assert !(n <= 2 * k) && !(n > 2 * k + 1);
    }
  }

  predicate InSpan(vec: seq<nat>, k: int, x: nat) {
    0 <= k && 2 * k + 1 < |vec| && vec[2 * k] <= x < vec[2 * k + 1]
  }

  /** The number of boundaries that are at most x, which come first. */
  function Passed(vec: seq<nat>, x: nat): (n: nat)
    requires Increasing(vec)
    ensures n <= |vec| && (forall i :: 0 <= i < n ==> vec[i] <= x) && (forall i :: n <= i < |vec| ==> x < vec[i])
  {
    if vec == [] || vec[|vec| - 1] <= x then |vec| else Passed(vec[..|vec| - 1], x)
  }

  // ----- equal sets, equal sequences -----

  lemma LeastIsFirst(vec: seq<nat>, x: nat)
    requires Increasing(vec) && !Odd(|vec|) && vec != []
    ensures In(vec, vec[0]) && (x < vec[0] ==> !In(vec, x))
  {
    AtMostIs(vec, vec[0], 1);
    if x < vec[0] {
      AtMostIs(vec, x, 0);
    }
  }

  /** The first range ends where membership does. */
  lemma FirstSpan(vec: seq<nat>, x: nat)
    requires Increasing(vec) && !Odd(|vec|) && |vec| >= 2
    ensures vec[0] <= x < vec[1] ==> In(vec, x)
    ensures !In(vec, vec[1])
  {
    AtMostIs(vec, vec[1], 2);
    if vec[0] <= x < vec[1] {
      AtMostIs(vec, x, 1);
    }
  }

  lemma WithoutFirst(vec: seq<nat>, x: nat)
    requires Increasing(vec) && !Odd(|vec|) && |vec| >= 2
    ensures In(vec[2..], x) <==> In(vec, x) && vec[1] <= x
  {
    assert vec == vec[..2] + vec[2..];
    AtMostAppend(vec[..2], vec[2..], x);
    if x < vec[0] {
      AtMostIs(vec[..2], x, 0);
      AtMostIs(vec[2..], x, 0);
    } else if x < vec[1] {
      AtMostIs(vec[..2], x, 1);
      AtMostIs(vec[2..], x, 0);
    } else {
      AtMostIs(vec[..2], x, 2);
    }
  }

  lemma {:induction false} SameSetSameSequence(a: seq<nat>, b: seq<nat>)
    requires Increasing(a) && Increasing(b) && !Odd(|a|) && !Odd(|b|)
    requires forall x: nat :: In(a, x) <==> In(b, x)
    ensures a == b
    decreases |a|
  {
    hide In;
    if a == [] || b == [] {
      Nothing(a, b);
      Nothing(b, a);
    } else {
      SameFirst(a, b);
      forall x: nat ensures In(a[2..], x) <==> In(b[2..], x) {
        WithoutFirst(a, x);
        WithoutFirst(b, x);
      }
      SameSetSameSequence(a[2..], b[2..]);
      assert a == [a[0], a[1]] + a[2..] && b == [b[0], b[1]] + b[2..];
    }
  }

  lemma Nothing(a: seq<nat>, b: seq<nat>)
    requires Increasing(b) && !Odd(|b|) && forall x: nat :: In(a, x) <==> In(b, x)
    ensures a == [] ==> b == []
  {
    if b != [] {
      LeastIsFirst(b, 0);
    }
  }

  lemma SameFirst(a: seq<nat>, b: seq<nat>)
    requires Increasing(a) && Increasing(b) && !Odd(|a|) && !Odd(|b|) && |a| >= 2 && |b| >= 2
    requires forall x: nat :: In(a, x) <==> In(b, x)
    ensures a[0] == b[0] && a[1] == b[1]
  {
    hide In;
    LeastIsFirst(a, b[0]);
    LeastIsFirst(b, a[0]);
    FirstSpan(a, b[1]);
    FirstSpan(b, a[1]);
  }

  // ----- what the mutators do to the sequence -----

  // ----- increasing sequences, in pieces -----

  ghost predicate Below(a: seq<nat>, b: seq<nat>) {
    forall i, j :: 0 <= i < |a| && 0 <= j < |b| ==> a[i] < b[j]
  }

  lemma JoinIncreasing(a: seq<nat>, b: seq<nat>)
    requires Increasing(a) && Increasing(b) && Below(a, b)
    ensures Increasing(a + b)
  {
  }

  lemma PartIncreasing(vec: seq<nat>, i: nat, j: nat)
    requires Increasing(vec) && i <= j <= |vec|
    ensures Increasing(vec[i..j]) && Below(vec[..i], vec[j..])
  {
  }

  lemma One(b: nat, x: nat)
    ensures AtMost([b], x) == if b <= x then 1 else 0
    ensures AtMost([], x) == 0
  {
    assert [b][..0] == [];
  }

  lemma AtMostNone(vec: seq<nat>, x: nat)
    requires forall i :: 0 <= i < |vec| ==> x < vec[i]
    ensures AtMost(vec, x) == 0
  {
    AtMostIs(vec, x, 0);
  }

  lemma AtMostAll(vec: seq<nat>, x: nat)
    requires forall i :: 0 <= i < |vec| ==> vec[i] <= x
    ensures AtMost(vec, x) == |vec|
  {
    AtMostIs(vec, x, |vec|);
  }

  // ----- flip -----

  /** A boundary at 0 is removed, or put there; the same at n. */
  function FlippedFront(vec: seq<nat>): seq<nat>
    requires vec != []
  {
    if vec[0] == 0 then vec[1..] else [0] + vec
  }

  function FlippedBack(vec: seq<nat>, n: nat): seq<nat>
    requires vec != []
  {
    if vec[|vec| - 1] == n then vec[..|vec| - 1] else vec + [n]
  }

  lemma FrontCounts(vec: seq<nat>, x: nat)
    requires vec != []
    ensures In(FlippedFront(vec), x) <==> !In(vec, x)
  {
    var r := FlippedFront(vec);
    One(0, x);
    hide AtMost, Odd;
    if vec[0] == 0 {
      assert vec == [0] + r;
      AtMostAppend([0], r, x);
      OddSum(1, AtMost(r, x));
    } else {
      AtMostAppend([0], vec, x);
      OddSum(1, AtMost(vec, x));
    }
  }

  lemma FrontShape(vec: seq<nat>)
    requires Increasing(vec) && !Odd(|vec|) && vec != []
    ensures Increasing(FlippedFront(vec)) && Odd(|FlippedFront(vec)|)
  {
    if vec[0] == 0 {
      PartIncreasing(vec, 1, |vec|);
      assert vec[1..|vec|] == vec[1..];
      OddSum(1, |vec[1..]|);
    } else {
      JoinIncreasing([0], vec);
      OddSum(1, |vec|);
    }
  }

  lemma FrontMeans(vec: seq<nat>, n: nat, x: nat)
    requires Bounded(vec, n) && vec != [] && 0 < n
    ensures var r := FlippedFront(vec);
            && Increasing(r) && Odd(|r|) && (forall i :: 0 <= i < |r| ==> r[i] <= n) && (In(r, x) <==> !In(vec, x))
  {
    FrontShape(vec);
    FrontCounts(vec, x);
    hide Odd, Increasing, In;
  }

  lemma BackMeans(vec: seq<nat>, n: nat, x: nat)
    requires Increasing(vec) && Odd(|vec|) && (forall i :: 0 <= i < |vec| ==> vec[i] <= n) && x < n
    ensures vec != [] && Bounded(FlippedBack(vec, n), n) && (In(FlippedBack(vec, n), x) <==> In(vec, x))
  {
    var r := FlippedBack(vec, n);
    One(n, x);
    if vec[|vec| - 1] == n {
      assert vec == r + [n];
      AtMostAppend(r, [n], x);
    } else {
      AtMostAppend(vec, [n], x);
      LastIsGreatest(vec);
      JoinIncreasing(vec, [n]);
    }
    hide AtMost;
  }

  lemma LastIsGreatest(vec: seq<nat>)
    requires Increasing(vec) && vec != []
    ensures forall i :: 0 <= i < |vec| ==> vec[i] <= vec[|vec| - 1]
  {
  }

  // ----- insert -----

  /** Between the boundaries below first and those above last, first and last themselves where membership changes there. */
  function Inserted(vec: seq<nat>, l: nat, u: nat, first: nat, last: nat): seq<nat>
    requires l <= u <= |vec|
  {
    vec[..l] + ((if Odd(l) then [] else [first]) + (if Odd(u) then [] else [last]) + vec[u..])
  }

  /** l and u are the lower bound of first and the upper bound of last. */
  ghost predicate Cut(vec: seq<nat>, l: nat, u: nat, first: nat, last: nat) {
    && l <= u <= |vec| && first < last
    && (forall i :: 0 <= i < l ==> vec[i] < first)
    && (forall i :: l <= i < u ==> first <= vec[i] <= last)
    && (forall i :: u <= i < |vec| ==> last < vec[i])
  }

  lemma CutCounts(vec: seq<nat>, l: nat, u: nat, first: nat, last: nat, x: nat)
    requires Cut(vec, l, u, first, last)
    ensures var a, f, t, b := vec[..l], if Odd(l) then [] else [first], if Odd(u) then [] else [last], vec[u..];
            && AtMost(Inserted(vec, l, u, first, last), x) == AtMost(a, x) + (AtMost(f, x) + AtMost(t, x) + AtMost(b, x))
            && AtMost(vec, x) == AtMost(a, x) + (AtMost(vec[l..u], x) + AtMost(b, x))
  {
    var a, f, t, b := vec[..l], if Odd(l) then [] else [first], if Odd(u) then [] else [last], vec[u..];
    var m := vec[l..u];
    hide *;
    InsertedIs(vec, l, u, first, last);
    assert vec == a + (m + b);
    AtMostAppend(f, t, x);
    AtMostAppend(f + t, b, x);
    AtMostAppend(a, f + t + b, x);
    AtMostAppend(m, b, x);
    AtMostAppend(a, m + b, x);
  }

  lemma InsertedIs(vec: seq<nat>, l: nat, u: nat, first: nat, last: nat)
    requires Cut(vec, l, u, first, last)
    ensures l <= u <= |vec|
    ensures Inserted(vec, l, u, first, last)
         == vec[..l] + ((if Odd(l) then [] else [first]) + (if Odd(u) then [] else [last]) + vec[u..])
  {
  }

  lemma PiecesCount(vec: seq<nat>, l: nat, u: nat, first: nat, last: nat, x: nat)
    requires Cut(vec, l, u, first, last)
    ensures x < first ==> AtMost(vec[l..u], x) == 0 && AtMost(vec[u..], x) == 0
    ensures first <= x ==> AtMost(vec[..l], x) == l
    ensures first <= x < last ==> AtMost(vec[u..], x) == 0
    ensures last <= x ==> AtMost(vec[l..u], x) == u - l
  {
    hide AtMost;
    if x < first {
      AtMostNone(vec[l..u], x);
      AtMostNone(vec[u..], x);
    } else if x < last {
      AtMostAll(vec[..l], x);
      AtMostNone(vec[u..], x);
    } else {
      AtMostAll(vec[..l], x);
      AtMostAll(vec[l..u], x);
    }
  }

  /** A boundary that is put where there is none of its kind. */
  lemma PutCounts(l: nat, b: nat, x: nat)
    ensures AtMost(if Odd(l) then [] else [b], x) == if Odd(l) || x < b then 0 else 1
  {
    One(b, x);
    hide AtMost, Odd;
  }

  lemma ParityKept(l: nat, u: nat, f: nat, t: nat, b: nat)
    requires l <= u && f == (if Odd(l) then 0 else 1) && t == if Odd(u) then 0 else 1
    ensures Odd(l + f)
    ensures Odd(l + (f + t + b)) <==> Odd(l + (u - l + b))
  {
  }

  lemma InIs(vec: seq<nat>, x: nat)
    ensures In(vec, x) <==> Odd(AtMost(vec, x))
  {
  }

  /** An interval is added. */
  lemma InsertMeans(vec: seq<nat>, l: nat, u: nat, first: nat, last: nat, x: nat)
    requires Cut(vec, l, u, first, last)
    ensures l <= u <= |vec|
    ensures In(Inserted(vec, l, u, first, last), x) <==> In(vec, x) || first <= x < last
  {
    hide *;
    CutOrder(vec, l, u, first, last);
    CutCounts(vec, l, u, first, last, x);
    PiecesCount(vec, l, u, first, last, x);
    PutCounts(l, first, x);
    PutCounts(u, last, x);
    InIs(vec, x);
    InIs(Inserted(vec, l, u, first, last), x);
    ParityKept(l, u, if Odd(l) then 0 else 1, if Odd(u) then 0 else 1, AtMost(vec[u..], x));
  }

  lemma CutOrder(vec: seq<nat>, l: nat, u: nat, first: nat, last: nat)
    requires Cut(vec, l, u, first, last)
    ensures l <= u <= |vec| && first < last
  {
  }

  lemma InsertShape(vec: seq<nat>, n: nat, l: nat, u: nat, first: nat, last: nat)
    requires Bounded(vec, n) && Cut(vec, l, u, first, last) && last <= n
    ensures Bounded(Inserted(vec, l, u, first, last), n)
  {
    var mid := (if Odd(l) then [] else [first]) + (if Odd(u) then [] else [last]);
    InsertedLength(vec, l, u, first, last);
    MidShape(vec, l, u, first, last, mid);
    ShapeBy(vec, n, l, u, first, last, mid);
    assert Inserted(vec, l, u, first, last) == vec[..l] + (mid + vec[u..]);
    hide Odd, Increasing;
  }

  lemma MidShape(vec: seq<nat>, l: nat, u: nat, first: nat, last: nat, mid: seq<nat>)
    requires Cut(vec, l, u, first, last)
    requires mid == (if Odd(l) then [] else [first]) + (if Odd(u) then [] else [last])
    ensures Increasing(mid) && forall i :: 0 <= i < |mid| ==> first <= mid[i] <= last
  {
    hide Odd;
  }

  lemma ShapeBy(vec: seq<nat>, n: nat, l: nat, u: nat, first: nat, last: nat, mid: seq<nat>)
    requires Bounded(vec, n) && Cut(vec, l, u, first, last) && last <= n
    requires Increasing(mid) && forall i :: 0 <= i < |mid| ==> first <= mid[i] <= last
    ensures Increasing(vec[..l] + (mid + vec[u..]))
    ensures forall i :: 0 <= i < |vec[..l] + (mid + vec[u..])| ==> (vec[..l] + (mid + vec[u..]))[i] <= n
  {
    hide Odd;
    PartIncreasing(vec, u, |vec|);
    PartIncreasing(vec, 0, l);
    assert vec[0..l] == vec[..l] && vec[u..|vec|] == vec[u..];
    JoinIncreasing(mid, vec[u..]);
    assert Below(vec[..l], mid + vec[u..]);
    JoinIncreasing(vec[..l], mid + vec[u..]);
    hide Increasing;
  }

  lemma InsertedLength(vec: seq<nat>, l: nat, u: nat, first: nat, last: nat)
    requires l <= u <= |vec| && !Odd(|vec|)
    ensures !Odd(|Inserted(vec, l, u, first, last)|)
  {
    var k: nat, m: nat := if Odd(l) then 0 else 1, if Odd(u) then 0 else 1;
    assert |Inserted(vec, l, u, first, last)| == l + k + m + (|vec| - u);
    ParityOf(l, u, |vec|, k, m);
  }

  lemma ParityOf(l: nat, u: nat, n: nat, k: nat, m: nat)
    requires l <= u <= n && !Odd(n) && k == (if Odd(l) then 0 else 1) && m == if Odd(u) then 0 else 1
    ensures !Odd(l + k + m + (n - u))
  {
  }

  // ----- searching -----

  /** std::lower_bound */
  function LowerBound(vec: seq<nat>, x: nat): (l: nat)
    requires Increasing(vec)
    ensures l <= |vec| && (forall i :: 0 <= i < l ==> vec[i] < x) && (forall i :: l <= i < |vec| ==> x <= vec[i])
  {
    if vec == [] || vec[|vec| - 1] < x then |vec| else LowerBound(vec[..|vec| - 1], x)
  }

  lemma BoundsCut(vec: seq<nat>, n: nat, first: nat, last: nat)
    requires Bounded(vec, n) && first < last
    ensures var l, u := LowerBound(vec, first), Passed(vec, last);
            && Cut(vec, l, u, first, last)
            && (l == |vec| || u == 0 ==> !Odd(l) && !Odd(u) && l == u)
  {
    var l, u := LowerBound(vec, first), Passed(vec, last);
    assert u < |vec| ==> last < vec[u];
    assert l <= u;
    hide LowerBound, Passed;
  }

  /** Nothing is in the set from n on. */
  lemma Outside(vec: seq<nat>, n: nat, x: nat)
    requires Bounded(vec, n) && n <= x
    ensures !In(vec, x)
  {
    AtMostAll(vec, x);
  }

  function Flipped(vec: seq<nat>, n: nat): seq<nat> {
    if vec == [] then [0, n]
    else if FlippedFront(vec) == [] then [n]
    else FlippedBack(FlippedFront(vec), n)
  }

  /** flip computes the complement. */
  lemma FlipMeans(vec: seq<nat>, n: nat, x: nat)
    requires Bounded(vec, n) && 0 < n
    ensures Bounded(Flipped(vec, n), n) && (In(Flipped(vec, n), x) <==> x < n && !In(vec, x))
  {
    if vec == [] {
      AtMostIs([0, n], x, if x < n then 1 else 2);
    } else {
      FrontMeans(vec, n, x);
      FrontMeans(vec, n, 0);
      BackMeans(FlippedFront(vec), n, 0);
      if x < n {
        BackMeans(FlippedFront(vec), n, x);
      } else {
        Outside(Flipped(vec, n), n, x);
      }
    }
  }

  /** In one of the first k ranges. */
  ghost predicate InFirst(vec: seq<nat>, k: nat, x: nat) {
    exists j :: 0 <= j < k && InSpan(vec, j, x)
  }

  lemma InFirstNext(vec: seq<nat>, k: nat, x: nat)
    ensures InFirst(vec, k + 1, x) <==> InFirst(vec, k, x) || InSpan(vec, k, x)
    ensures !InFirst(vec, 0, x)
  {
    hide InSpan;
  }

  lemma InFirstAll(vec: seq<nat>, n: nat, x: nat)
    requires Bounded(vec, n)
    ensures InFirst(vec, |vec| / 2, x) <==> In(vec, x)
  {
    InIsSpan(vec, x);
    hide In, AtMost;
  }

  lemma SpanBounds(vec: seq<nat>, n: nat, k: nat)
    requires Bounded(vec, n) && 2 * k + 1 < |vec|
    ensures vec[2 * k] < vec[2 * k + 1] <= n
  {
  }

  /** What the iterator delivers. */
  function Spans(vec: seq<nat>): (r: seq<(nat, nat)>)
    ensures |r| == |vec| / 2 && forall k :: 0 <= k < |r| ==> r[k] == (vec[2 * k], vec[2 * k + 1])
  {
    seq(|vec| / 2, k requires 0 <= k < |vec| / 2 => (vec[2 * k], vec[2 * k + 1]))
  }

  /** The ranges are what an encoder is given: apart, in order, and with the same members. */
  lemma SpansMean(vec: seq<nat>, n: nat, x: nat)
    requires Bounded(vec, n)
    ensures Encoders.Ranged(Spans(vec)) && (Encoders.InSpans(Spans(vec), x) <==> In(vec, x))
  {
    InIsSpan(vec, x);
    hide In, AtMost;
    var r := Spans(vec);
    forall i, j | 0 <= i < j < |r| ensures r[i].1 < r[j].0 {
      assert vec[2 * i + 1] < vec[2 * j];
    }
    if k :| InSpan(vec, k, x) {
      assert r[k].0 <= x < r[k].1;
    }
    if Encoders.InSpans(r, x) {
      var k :| 0 <= k < |r| && r[k].0 <= x < r[k].1;
      assert InSpan(vec, k, x);
    }
  }

  /** Erasing and inserting leave what Inserted says. */
  lemma InsertWrites(vec: seq<nat>, l: nat, u: nat, first: nat, last: nat)
    requires l <= u <= |vec|
    ensures !Odd(l) && !Odd(u) && l == u ==> vec[..l] + [first, last] + vec[l..] == Inserted(vec, l, u, first, last)
    ensures var a := vec[..l] + vec[u..];
            var b := if u % 2 == 0 then a[..l] + [last] + a[l..] else a;
            Inserted(vec, l, u, first, last) == if l % 2 == 0 then b[..l] + [first] + b[l..] else b
  {
    var a, f, t := vec[..l] + vec[u..], if l % 2 == 0 then [first] else [], if u % 2 == 0 then [last] else [];
    PutAt(vec[..l], vec[u..], t);
    PutAt(vec[..l], t + vec[u..], f);
    assert f + (t + vec[u..]) == f + t + vec[u..];
    assert [first] + [last] == [first, last];
  }

  lemma PutAt(front: seq<nat>, back: seq<nat>, x: seq<nat>)
    ensures var a := front + back; a[..|front|] + x + a[|front|..] == front + (x + back)
  {
  }

  // ----- the set -----

  class RangeSet {
    const N: nat
    var vec: seq<nat>

    ghost predicate Valid()
      reads this
    {
      0 < N && Bounded(vec, N)
    }

    constructor (n: nat)
      requires 0 < n
      ensures Valid() && N == n && forall x: nat :: !In(vec, x)
    {
      N, vec := n, [];
    }

    constructor Copy(r: RangeSet)
      ensures N == r.N && vec == r.vec
    {
      N, vec := r.N, r.vec;
    }

    /** test */
    method Test(pos: nat) returns (r: bool)
      requires Valid()
      ensures r <==> In(vec, pos)
    {
      var i := LowerBound(vec, pos);
      ghost var k := if i < |vec| && vec[i] == pos then i + 1 else i;
      AtMostIs(vec, pos, k);
      if i == |vec| {
        r := false;
      } else if i % 2 == 1 {
        r := pos < vec[i];
      } else {
        r := pos == vec[i];
      }
    }

    /** insert */
    method Insert(first: nat, last: nat)
      requires Valid() && first <= last <= N
      modifies `vec
      ensures Valid() && forall x: nat :: In(vec, x) <==> In(old(vec), x) || first <= x < last
    {
      if first == last {
        return;
      }
      hide *;
      ghost var v0 := vec;
      ValidUse();
      var l, u := LowerBound(vec, first), Passed(vec, last);
      BoundsCut(vec, N, first, last);
      CutOrder(vec, l, u, first, last);
      InsertShape(vec, N, l, u, first, last);
      forall x: nat ensures In(Inserted(v0, l, u, first, last), x) <==> In(v0, x) || first <= x < last {
        InsertMeans(v0, l, u, first, last, x);
      }
      InsertWrites(vec, l, u, first, last);
      if l == |vec| || u == 0 {
        vec := vec[..l] + [first, last] + vec[l..];
      } else {
        // where the insertion point is a start point, the bound itself is inserted
        var insertFirst := l % 2 == 0;
        var insertLast := u % 2 == 0;
        vec := vec[..l] + vec[u..];
        if insertLast {
          vec := vec[..l] + [last] + vec[l..];
        }
        if insertFirst {
          vec := vec[..l] + [first] + vec[l..];
        }
      }
      ValidBy();
    }

    lemma ValidUse()
      requires Valid()
      ensures 0 < N && Bounded(vec, N) && Increasing(vec)
    {
    }

    lemma ValidBy()
      requires 0 < N && Bounded(vec, N)
      ensures Valid()
    {
    }

    /** flip */
    method Flip()
      requires Valid()
      modifies `vec
      ensures Valid() && forall x: nat :: In(vec, x) <==> x < N && !In(old(vec), x)
    {
      ghost var v0 := vec;
      forall x: nat ensures Bounded(Flipped(v0, N), N) && (In(Flipped(v0, N), x) <==> x < N && !In(v0, x)) {
        FlipMeans(v0, N, x);
      }
      assert Bounded(Flipped(v0, N), N) by {
        FlipMeans(v0, N, 0);
      }
      if vec == [] {
        vec := [0, N];
      } else {
        FrontMeans(vec, N, 0);
        if vec[0] == 0 {
          vec := vec[1..];
        } else {
          vec := [0] + vec;
        }
        if vec[|vec| - 1] == N {
          vec := vec[..|vec| - 1];
        } else {
          vec := vec + [N];
        }
      }
      assert vec == Flipped(v0, N);
    }

    /** erase */
    method Erase(first: nat, last: nat)
      requires Valid() && first <= last <= N
      modifies `vec
      ensures Valid() && forall x: nat :: In(vec, x) <==> In(old(vec), x) && !(first <= x < last)
    {
      hide Bounded, In;
      ghost var v0 := vec;
      forall x: nat | N <= x ensures !In(v0, x) {
        Outside(v0, N, x);
      }
      Flip();
      Insert(first, last);
      Flip();
    }

    /** set(pos, value) */
    method Set(pos: nat, value: bool)
      requires Valid() && pos < N
      modifies `vec
      ensures Valid() && forall x: nat :: In(vec, x) <==> if x == pos then value else In(old(vec), x)
    {
      hide Bounded, In;
      if value {
        Insert(pos, pos + 1);
      } else {
        Erase(pos, pos + 1);
      }
    }

    /** flip(pos) */
    method FlipAt(pos: nat)
      requires Valid() && pos < N
      modifies `vec
      ensures Valid() && forall x: nat :: In(vec, x) <==> (In(old(vec), x) != (x == pos))
    {
      hide Bounded, In;
      var t := Test(pos);
      Set(pos, !t);
    }

    /** operator|= */
    method Join(r: RangeSet)
      requires Valid() && r.Valid() && r.N == N
      modifies `vec
      ensures Valid() && forall x: nat :: In(vec, x) <==> In(old(vec), x) || In(old(r.vec), x)
    {
      hide Bounded, In;
      if this != r {
        ghost var v0, w := vec, r.vec;
        var i: nat := 0;
        forall x: nat ensures !InFirst(w, 0, x) && (InFirst(w, |w| / 2, x) <==> In(w, x)) {
          InFirstNext(w, 0, x);
          InFirstAll(w, N, x);
        }
        EvenLength(w, N);
        hide InFirst;
        while i < |r.vec|
          invariant r.vec == w && i <= |w| && i % 2 == 0 && Valid()
          invariant forall x: nat :: In(vec, x) <==> In(v0, x) || InFirst(w, i / 2, x)
          decreases |w| - i
        {
          assert 2 * (i / 2) == i && (i + 2) / 2 == i / 2 + 1;
          SpanBounds(w, N, i / 2);
          forall x: nat ensures InFirst(w, i / 2 + 1, x) <==> InFirst(w, i / 2, x) || w[i] <= x < w[i + 1] {
            InFirstNext(w, i / 2, x);
          }
          Insert(r.vec[i], r.vec[i + 1]);
          i := i + 2;
        }
      }
    }

    /** operator~ */
    method Complement() returns (c: RangeSet)
      requires Valid()
      ensures fresh(c) && c.N == N && c.Valid() && forall x: nat :: In(c.vec, x) <==> x < N && !In(vec, x)
    {
      c := new RangeSet.Copy(this);
      c.Flip();
    }

    /** operator&= */
    method Meet(r: RangeSet)
      requires Valid() && r.Valid() && r.N == N
      modifies `vec
      ensures Valid() && forall x: nat :: In(vec, x) <==> In(old(vec), x) && In(old(r.vec), x)
    {
      hide Bounded, In;
      ghost var v0 := vec;
      forall x: nat | N <= x ensures !In(v0, x) {
        Outside(v0, N, x);
      }
      var c := Complement();
      var d := r.Complement();
      c.Join(d);
      vec := c.vec;
      Flip();
    }

    /** operator-= */
    method Subtract(r: RangeSet)
      requires Valid() && r.Valid() && r.N == N
      modifies `vec
      ensures Valid() && forall x: nat :: In(vec, x) <==> In(old(vec), x) && !In(old(r.vec), x)
    {
      hide Bounded, In;
      ghost var v0 := vec;
      forall x: nat | N <= x ensures !In(v0, x) {
        Outside(v0, N, x);
      }
      var d := r.Complement();
      Meet(d);
    }

    /** operator^= */
    method Differ(r: RangeSet)
      requires Valid() && r.Valid() && r.N == N
      modifies `vec
      ensures Valid() && forall x: nat :: In(vec, x) <==> In(old(vec), x) != In(old(r.vec), x)
    {
      hide Bounded, In;
      ghost var v0, w := vec, r.vec;
      forall x: nat | N <= x ensures !In(v0, x) && !In(w, x) {
        Outside(v0, N, x);
        Outside(w, N, x);
      }
      var a := new RangeSet.Copy(this);
      var b := r.Complement();
      a.Meet(b);
      var c := Complement();
      c.Meet(r);
      a.Join(c);
      vec := a.vec;
    }

    /** any, and its opposite none */
    method Any() returns (r: bool)
      requires Valid()
      ensures r <==> exists x: nat :: In(vec, x)
    {
      r := vec != [];
      if r {
        LeastIsFirst(vec, 0);
        assert In(vec, vec[0]);
      }
    }

    /** all */
    method All() returns (r: bool)
      requires Valid()
      ensures r <==> forall x: nat :: x < N ==> In(vec, x)
    {
      r := |vec| == 2 && vec[0] == 0 && vec[1] == N;
      ghost var v := vec;
      Everything(N);
      assert r ==> v == [0, N];
      if forall x: nat :: x < N ==> In(v, x) {
        forall x: nat ensures In(v, x) <==> In([0, N], x) {
          if N <= x {
            Outside(v, N, x);
          }
        }
        hide In;
        SameSetSameSequence(v, [0, N]);
      }
    }
  }

  lemma Everything(n: nat)
    requires 0 < n
    ensures Bounded([0, n], n) && forall x: nat :: In([0, n], x) <==> x < n
  {
    forall x: nat ensures In([0, n], x) <==> x < n {
      AtMostIs([0, n], x, if x < n then 1 else 2);
    }
  }

  lemma EvenLength(vec: seq<nat>, n: nat)
    requires Bounded(vec, n)
    ensures |vec| % 2 == 0
  {
  }
}
