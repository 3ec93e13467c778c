/**
 EncoderBase (src/lib/encoderbase.cpp): encodings collected one by one, and the
 rounds in which encodings are collapsed that differ in one place only. Neither
 changes what the ranges denote, whatever order the sorts leave.
 */
module Collapsing {
  import opened Basics
  import opened Regexes
  import opened Encoders

  // ----- rounds -----

  /** std::sort by a comparator of which nothing is known: some order of the same encodings. */
  type Order = (Ranges, nat) -> Ranges

  ghost predicate Permutes(order: Order) {
    forall g: Ranges, n: nat :: multiset(order(g, n)) == multiset(g)
  }

  ghost predicate Same(va: Ranges, vb: Ranges) {
    forall u: seq<Byte> :: InRanges(va, u) <==> InRanges(vb, u)
  }

  /** a and b are equal everywhere, disregarding the n-th place from the end. */
  predicate EqualExceptAt(n: nat, a: Encoding, b: Encoding)
    requires n < |a| == |b|
  {
    && (|a| <= n + 1 || a[..|a| - n - 1] == b[..|a| - n - 1])
    && (n == 0 || a[|a| - n..] == b[|b| - n..])
  }

  function Joined(n: nat, a: Encoding, b: Encoding): Encoding
    requires n < |a| == |b|
  {
    var k := |a| - n - 1;
    a[k := a[k] + b[k]]
  }

  /** A product with a union at one place is the union of two products. */
  lemma JoinedMeans(n: nat, a: Encoding, b: Encoding, u: seq<Byte>)
    requires n < |a| == |b| && EqualExceptAt(n, a, b)
    ensures InProduct(Joined(n, a, b), u) <==> InProduct(a, u) || InProduct(b, u)
  {
    var k := |a| - n - 1;
    forall j | 0 <= j < |a| && j != k ensures a[j] == b[j] {
      if j < k {
        assert a[..k][j] == b[..k][j];
      } else {
        assert a[k + 1..][j - k - 1] == b[k + 1..][j - k - 1];
      }
    }
    if |u| == |a| {
      assert InProduct(Joined(n, a, b), u) ==> u[k] in a[k] + b[k];
    }
  }

  lemma InSplit(a: Ranges, b: Ranges, u: seq<Byte>)
    ensures InRanges(a + b, u) <==> InRanges(a, u) || InRanges(b, u)
  {
    hide InProduct;
    var c := a + b;
    if i :| 0 <= i < |a| && InProduct(a[i], u) {
      assert c[i] == a[i];
    }
    if i :| 0 <= i < |b| && InProduct(b[i], u) {
      assert c[|a| + i] == b[i];
    }
  }

  lemma InOne(e: Encoding, u: seq<Byte>)
    ensures InRanges([e], u) <==> InProduct(e, u)
  {
    assert [e][0] == e;
  }

  /** Every encoding has this length, and bytes in every place. */
  ghost predicate Uniform(g: Ranges, elen: nat) {
    forall k :: 0 <= k < |g| ==> |g[k]| == elen && Proper(g[k])
  }

  lemma SortedSame(g: Ranges, r: Ranges, elen: nat)
    requires multiset(r) == multiset(g) && Uniform(g, elen)
    ensures Same(g, r) && Uniform(r, elen) && |r| == |g|
  {
    hide InProduct, Proper;
    MultisetSize(g, r);
    forall k | 0 <= k < |r| ensures |r[k]| == elen && Proper(r[k]) {
      assert r[k] in multiset(g);
    }
    forall u: seq<Byte> ensures InRanges(g, u) <==> InRanges(r, u) {
      if i :| 0 <= i < |g| && InProduct(g[i], u) {
        assert g[i] in multiset(r);
      }
      if i :| 0 <= i < |r| && InProduct(r[i], u) {
        assert r[i] in multiset(g);
      }
    }
  }

  lemma MultisetSize(g: Ranges, r: Ranges)
    requires multiset(r) == multiset(g)
    ensures |r| == |g|
  {
    assert |multiset(r)| == |r| && |multiset(g)| == |g|;
  }

  /** While collapsing: the output, then the encoding at hand, then the rest of the group. */
  ghost predicate Halfway(g: Ranges, r: Ranges, e: Ranges, i: nat, elen: nat) {
    && i <= |g| && Uniform(g, elen) && Uniform(r, elen) && Uniform(e, elen)
    && forall u: seq<Byte> :: InRanges(g, u) <==> InRanges(r, u) || InRanges(e, u) || InRanges(g[i..], u)
  }

  lemma HalfwayTake(g: Ranges, r: Ranges, i: nat, elen: nat)
    requires Halfway(g, r, [], i, elen) && i < |g|
    ensures Halfway(g, r, [g[i]], i + 1, elen)
  {
    assert g[i..] == [g[i]] + g[i + 1..];
    hide InProduct, Proper, InRanges;
    forall u: seq<Byte> ensures InRanges(g[i..], u) <==> InRanges([g[i]], u) || InRanges(g[i + 1..], u) {
      InSplit([g[i]], g[i + 1..], u);
    }
    forall u: seq<Byte> ensures !InRanges([], u) {
      InNone(u);
    }
  }

  lemma InNone(u: seq<Byte>)
    ensures !InRanges([], u)
  {
  }

  lemma HalfwayJoin(g: Ranges, r: Ranges, e: Encoding, i: nat, elen: nat, n: nat)
    requires Halfway(g, r, [e], i, elen) && i < |g| && n < elen == |e| && |g[i]| == elen && EqualExceptAt(n, e, g[i])
    ensures Halfway(g, r, [Joined(n, e, g[i])], i + 1, elen)
  {
    assert g[i..] == [g[i]] + g[i + 1..];
    var j := Joined(n, e, g[i]);
    assert [e][0] == e && [j][0] == j;
    assert Proper(j);
    hide InProduct, Proper, InRanges;
    forall u: seq<Byte> ensures InRanges(g[i..], u) <==> InRanges([g[i]], u) || InRanges(g[i + 1..], u) {
      InSplit([g[i]], g[i + 1..], u);
    }
    forall u: seq<Byte> ensures InRanges([j], u) <==> InRanges([e], u) || InRanges([g[i]], u) {
      JoinedMeans(n, e, g[i], u);
      InOne(j, u);
      InOne(e, u);
      InOne(g[i], u);
    }
  }

  lemma HalfwayPut(g: Ranges, r: Ranges, e: Encoding, i: nat, elen: nat)
    requires Halfway(g, r, [e], i, elen)
    ensures Halfway(g, r + [e], [], i, elen)
  {
    assert [e][0] == e;
    hide InProduct, Proper, InRanges;
    forall u: seq<Byte> ensures InRanges(r + [e], u) <==> InRanges(r, u) || InRanges([e], u) {
      InSplit(r, [e], u);
    }
    forall u: seq<Byte> ensures !InRanges([], u) {
      InNone(u);
    }
  }

  lemma HalfwayFirst(g: Ranges, elen: nat)
    requires Uniform(g, elen)
    ensures Halfway(g, [], [], 0, elen)
  {
    assert g[0..] == g;
    hide InProduct, Proper, InRanges;
    forall u: seq<Byte> ensures !InRanges([], u) {
      InNone(u);
    }
  }

  lemma HalfwayEnd(g: Ranges, r: Ranges, elen: nat)
    requires Halfway(g, r, [], |g|, elen)
    ensures Same(g, r) && Uniform(r, elen)
  {
    assert g[|g|..] == [];
    hide InProduct, Proper, InRanges;
    forall u: seq<Byte> ensures !InRanges([], u) {
      InNone(u);
    }
  }

  lemma HalfwayUse(g: Ranges, r: Ranges, e: Ranges, i: nat, elen: nat)
    requires Halfway(g, r, e, i, elen)
    ensures i <= |g| && Uniform(g, elen) && (forall k :: 0 <= k < |g| ==> |g[k]| == elen) && (forall k :: 0 <= k < |e| ==> |e[k]| == elen)
  {
    hide Proper, InRanges;
  }

  /** One group of a round: collapse each encoding with those after it that match everywhere but at n from the end. */
  method CollapseGroup(g: Ranges, n: nat, elen: nat) returns (r: Ranges)
    requires Uniform(g, elen) && n < elen
    ensures Same(g, r) && Uniform(r, elen)
    ensures elen == 1 && g != [] ==> |r| == 1
  {
    hide *;
    r := [];
    var i: nat := 0;
    HalfwayFirst(g, elen);
    while i < |g|
      invariant Halfway(g, r, [], i, elen) && i <= |g|
      invariant elen == 1 ==> if i == 0 then r == [] else |r| == 1 && i == |g|
    {
      HalfwayTake(g, r, i, elen);
      HalfwayUse(g, r, [g[i]], i + 1, elen);
      var e := g[i];
      assert [e][0] == e;
      i := i + 1;
      while i < |g| && EqualExceptAt(n, e, g[i])
        invariant Halfway(g, r, [e], i, elen) && i <= |g| && |e| == elen
        decreases |g| - i
      {
        HalfwayJoin(g, r, e, i, elen, n);
        HalfwayUse(g, r, [Joined(n, e, g[i])], i + 1, elen);
        e := Joined(n, e, g[i]);
        assert [e][0] == e;
        i := i + 1;
      }
      if elen == 1 && i < |g| {
        OnePlace(n, e, g[i]);
      }
      HalfwayPut(g, r, e, i, elen);
      r := r + [e];
    }
    HalfwayEnd(g, r, elen);
  }

  /** Encodings of one byte collapse totally. */
  lemma OnePlace(n: nat, a: Encoding, b: Encoding)
    requires n < |a| == |b| == 1
    ensures EqualExceptAt(n, a, b)
  {
  }

  /** The first place after from where the length changes, or the end. */
  method SizeBoundary(va: Ranges, from: nat) returns (sb: nat)
    requires from < |va|
    ensures from < sb <= |va| && forall k :: from <= k < sb ==> |va[k]| == |va[from]|
    ensures sb < |va| ==> |va[sb]| != |va[from]|
  {
    sb := from + 1;
    while sb < |va| && |va[sb]| == |va[sb - 1]|
      invariant from < sb <= |va| && forall k :: from <= k < sb ==> |va[k]| == |va[from]|
    {
      sb := sb + 1;
    }
  }

  // ----- all rounds -----

  ghost predicate LongerThan(va: Ranges, n: nat) {
    forall k :: 0 <= k < |va| ==> n < |va[k]|
  }

  ghost predicate OneInFront(vo: Ranges) {
    forall k :: 0 < k < |vo| ==> |vo[k]| != 1
  }

  /** Between rounds: what is done is at most n long, what is not is longer. */
  ghost predicate BetweenRounds(va0: Ranges, vo: Ranges, va: Ranges, n: nat, mlen: nat) {
    && (forall u: seq<Byte> :: InRanges(va0, u) <==> InRanges(vo, u) || InRanges(va, u))
    && Ascending(va) && AllProper(va) && UpTo(va, mlen) && LongerThan(va, n)
    && AllProper(vo) && UpTo(vo, n) && OneInFront(vo) && (n == 0 ==> vo == [])
  }

  /** Within a round: the output, what is kept for the next round, and what is still to do. */
  ghost predicate Round(va0: Ranges, va: Ranges, vo: Ranges, vb: Ranges, i: nat, n: nat, mlen: nat) {
    && i <= |va|
    && (forall u: seq<Byte> :: InRanges(va0, u) <==> InRanges(vo, u) || InRanges(vb, u) || InRanges(va[i..], u))
    && Ascending(va) && AllProper(va) && UpTo(va, mlen) && LongerThan(va, n)
    && Ascending(vb) && AllProper(vb) && UpTo(vb, mlen) && LongerThan(vb, n + 1)
    && (forall j, k :: 0 <= j < |vb| && i <= k < |va| ==> |vb[j]| < |va[k]|)
    && AllProper(vo) && UpTo(vo, n + 1) && OneInFront(vo) && (n == 0 && i == 0 ==> vo == [])
    && (n == 0 && i > 0 ==> LongerThan(va[i..], 1))
  }

  lemma RoundFirst(va0: Ranges, vo: Ranges, va: Ranges, n: nat, mlen: nat)
    requires BetweenRounds(va0, vo, va, n, mlen)
    ensures Round(va0, va, vo, [], 0, n, mlen)
  {
    assert va[0..] == va;
    hide InProduct, Proper, InRanges;
    forall u: seq<Byte> ensures !InRanges([], u) {
      InNone(u);
    }
  }

  lemma RoundEnd(va0: Ranges, va: Ranges, vo: Ranges, vb: Ranges, n: nat, mlen: nat)
    requires Round(va0, va, vo, vb, |va|, n, mlen)
    ensures BetweenRounds(va0, vo, vb, n + 1, mlen)
  {
    assert va[|va|..] == [];
    hide InProduct, Proper, InRanges;
    forall u: seq<Byte> ensures !InRanges([], u) {
      InNone(u);
    }
  }

  lemma RoundUse(va0: Ranges, va: Ranges, vo: Ranges, vb: Ranges, i: nat, n: nat, mlen: nat, sb: nat)
    requires Round(va0, va, vo, vb, i, n, mlen) && i < sb <= |va| && forall k :: i <= k < sb ==> |va[k]| == |va[i]|
    ensures Uniform(va[i..sb], |va[i]|) && n < |va[i]| <= mlen
  {
    hide Proper, InRanges;
  }

  /** A group has been collapsed into out. */
  lemma RoundStep(va0: Ranges, va: Ranges, vo: Ranges, vb: Ranges, i: nat, n: nat, mlen: nat, sb: nat, out: Ranges)
    requires Round(va0, va, vo, vb, i, n, mlen) && i < sb <= |va|
    requires (forall k :: i <= k < sb ==> |va[k]| == |va[i]|) && (sb < |va| ==> |va[sb]| != |va[i]|)
    requires Same(va[i..sb], out) && Uniform(out, |va[i]|) && (|va[i]| == 1 ==> |out| == 1)
    ensures n == |va[i]| - 1 ==> Round(va0, va, vo + out, vb, sb, n, mlen)
    ensures n != |va[i]| - 1 ==> Round(va0, va, vo, vb + out, sb, n, mlen)
  {
    hide InProduct, Proper, InRanges;
    assert va[i..] == va[i..sb] + va[sb..];
    forall u: seq<Byte>
      ensures InRanges(va[i..], u) <==> InRanges(out, u) || InRanges(va[sb..], u)
      ensures InRanges(vo + out, u) <==> InRanges(vo, u) || InRanges(out, u)
      ensures InRanges(vb + out, u) <==> InRanges(vb, u) || InRanges(out, u)
    {
      InSplit(va[i..sb], va[sb..], u);
      InSplit(vo, out, u);
      InSplit(vb, out, u);
    }
    RoundLengths(va0, va, vo, vb, i, n, mlen, sb, out);
  }

  lemma RoundLengths(va0: Ranges, va: Ranges, vo: Ranges, vb: Ranges, i: nat, n: nat, mlen: nat, sb: nat, out: Ranges)
    requires Round(va0, va, vo, vb, i, n, mlen) && i < sb <= |va|
    requires (forall k :: i <= k < sb ==> |va[k]| == |va[i]|) && (sb < |va| ==> |va[sb]| != |va[i]|)
    requires Uniform(out, |va[i]|) && (|va[i]| == 1 ==> |out| == 1)
    ensures forall k :: sb <= k < |va| ==> |va[i]| < |va[k]|
    ensures n == |va[i]| - 1 ==> AllProper(vo + out) && UpTo(vo + out, n + 1) && OneInFront(vo + out)
    ensures n != |va[i]| - 1 ==> Ascending(vb + out) && AllProper(vb + out) && UpTo(vb + out, mlen) && LongerThan(vb + out, n + 1)
    ensures n == 0 ==> LongerThan(va[sb..], 1)
    ensures n == 0 && i > 0 ==> |va[i]| > 1
  {
    hide InProduct, Proper, InRanges;
    if n == 0 && i > 0 {
      assert va[i..][0] == va[i];
    }
  }

  /** What a character class is to be built from: the encodings of the set, in ranges as WellWritten says. */
  ghost predicate WritesSet(enc: Scheme, s: seq<Span>, vo: Ranges) {
    Denotes(enc, s, vo) && WellWritten(vo) && AllProper(vo)
  }

  lemma NothingFits(va: Ranges, n: nat)
    requires UpTo(va, n) && LongerThan(va, n)
    ensures va == []
  {
    assert va != [] ==> FirstLength(va) <= n;
    assert va != [] ==> n < FirstLength(va);
  }

  function FirstLength(va: Ranges): nat {
    if va == [] then 0 else |va[0]|
  }

  lemma BetweenEnd(va0: Ranges, vo: Ranges, va: Ranges, mlen: nat)
    requires BetweenRounds(va0, vo, va, mlen, mlen)
    ensures Same(va0, vo) && WellWritten(vo) && AllProper(vo)
  {
    NothingFits(va, mlen);
    hide InProduct, InRanges;
    forall u: seq<Byte> ensures !InRanges([], u) {
      InNone(u);
    }
  }

  lemma BetweenFirst(va: Ranges, mlen: nat)
    requires Ascending(va) && AllProper(va) && UpTo(va, mlen)
    ensures BetweenRounds(va, [], va, 0, mlen)
  {
    hide InProduct, InRanges;
    forall u: seq<Byte> ensures !InRanges([], u) {
      InNone(u);
    }
  }

  /** The rounds of EncoderBase::write: collapse place by place, from the last to the first. */
  method Collapse(va0: Ranges, mlen: nat, order: Order) returns (vo: Ranges)
    requires Ascending(va0) && AllProper(va0) && UpTo(va0, mlen) && Permutes(order)
    ensures Same(va0, vo) && WellWritten(vo) && AllProper(vo)
  {
    hide *;
    var va := va0;
    vo := [];
    BetweenFirst(va, mlen);
    for n := 0 to mlen
      invariant BetweenRounds(va0, vo, va, n, mlen)
    {
      var vb: Ranges := [];
      var i: nat := 0;
      RoundFirst(va0, vo, va, n, mlen);
      while i < |va|
        invariant i <= |va| && Round(va0, va, vo, vb, i, n, mlen)
        decreases |va| - i
      {
        // find next size boundary
        var sb := SizeBoundary(va, i);
        RoundUse(va0, va, vo, vb, i, n, mlen, sb);
        var elen := |va[i]|;
        var group := va[i..sb];
        // length-1 encodings collapse totally, no need to sort them
        if elen > 1 {
          group := order(va[i..sb], n);
          OrderUse(order, va[i..sb], n);
        }
        SortedSame(va[i..sb], group, elen);
        var out := CollapseGroup(group, n, elen);
        SameTwice(va[i..sb], group, out);
        RoundStep(va0, va, vo, vb, i, n, mlen, sb, out);
        if n == elen - 1 {
          vo := vo + out;
        } else {
          vb := vb + out;
        }
        i := sb;
      }
      RoundEnd(va0, va, vo, vb, n, mlen);
      va := vb;
    }
    BetweenEnd(va0, vo, va, mlen);
  }

  /** EncoderBase::write, for UTF-8 and UTF-16. */
  method WriteSet(enc: Scheme, s: seq<Span>, order: Order) returns (vo: Ranges)
    requires Ranged(s) && AllValid(s) && Permutes(order)
    ensures WritesSet(enc, s, vo)
  {
    hide *;
    var va := CollectRanges(enc, s);
    vo := Collapse(va, 4, order);
    WritesBy(enc, s, va, vo);
  }

  lemma WritesBy(enc: Scheme, s: seq<Span>, va: Ranges, vo: Ranges)
    requires Denotes(enc, s, va) && Same(va, vo) && WellWritten(vo) && AllProper(vo)
    ensures WritesSet(enc, s, vo)
  {
    hide InRanges, EncodesSome;
  }

  lemma OrderUse(order: Order, g: Ranges, n: nat)
    requires Permutes(order)
    ensures multiset(order(g, n)) == multiset(g)
  {
  }

  lemma SameTwice(a: Ranges, b: Ranges, c: Ranges)
    requires Same(a, b) && Same(b, c)
    ensures Same(a, c)
  {
    hide InRanges;
  }

  /**
   What a character class denotes, from the code points to the bytes: the encodings
   of its code points, and the breakout bytes added, or taken away.
   */
  lemma ClassDenotes(enc: Scheme, s: seq<Span>, vo: Ranges, breakout: set<Byte>, additive: bool, u: seq<Byte>)
    requires WritesSet(enc, s, vo) && Adjusted(vo, breakout, additive).Some?
    ensures var one := |u| == 1 && u[0] in breakout;
            Lang(CharClass(vo, breakout, additive), u)
            <==> if additive then EncodesSome(enc, s, u) || one else EncodesSome(enc, s, u) && !one
  {
    AdjustedMeans(vo, breakout, additive, u);
    hide EncodesSome, InRanges;
  }

  // ----- encoders without a faster way -----

  /** The first i ranges of the set, and of the i-th what is below c. */
  ghost predicate Before(s: seq<Span>, i: nat, c: nat, cp: nat) {
    (exists k :: 0 <= k < i && k < |s| && s[k].0 <= cp < s[k].1) || (i < |s| && s[i].0 <= cp < c)
  }

  ghost predicate EachBefore(encode: nat -> seq<Byte>, s: seq<Span>, i: nat, c: nat, u: seq<Byte>) {
    u != [] && exists cp: nat :: Before(s, i, c, cp) && encode(cp) == u
  }

  ghost predicate EncodesEach(encode: nat -> seq<Byte>, s: seq<Span>, u: seq<Byte>) {
    u != [] && exists cp: nat :: InSpans(s, cp) && encode(cp) == u
  }

  /** The last entry is for encodings that are like prev up to the last byte. */
  ghost predicate LastLike(va: Ranges, prev: seq<Byte>) {
    if va == [] then prev == []
    else
      var e := va[|va| - 1];
      && |e| == |prev| > 0
      && forall j :: 0 <= j < |e| - 1 ==> e[j] == {prev[j]}
  }

  ghost predicate Gathering(encode: nat -> seq<Byte>, s: seq<Span>, va: Ranges, prev: seq<Byte>, i: nat, c: nat, mlen: nat) {
    && (forall u: seq<Byte> :: InRanges(va, u) <==> EachBefore(encode, s, i, c, u))
    && AllProper(va) && UpTo(va, mlen) && LastLike(va, prev)
  }

  lemma GatheringFirst(encode: nat -> seq<Byte>, s: seq<Span>, mlen: nat)
    ensures Gathering(encode, s, [], [], 0, if s == [] then 0 else s[0].0, mlen)
  {
  }

  lemma GatheringSpan(encode: nat -> seq<Byte>, s: seq<Span>, va: Ranges, prev: seq<Byte>, i: nat, mlen: nat)
    requires i < |s| && Gathering(encode, s, va, prev, i, s[i].1, mlen)
    ensures Gathering(encode, s, va, prev, i + 1, if i + 1 < |s| then s[i + 1].0 else 0, mlen)
  {
    var c := if i + 1 < |s| then s[i + 1].0 else 0;
    forall cp: nat ensures Before(s, i + 1, c, cp) <==> Before(s, i, s[i].1, cp) {
      if Before(s, i, s[i].1, cp) {
        assert s[i].0 <= cp < s[i].1 ==> Before(s, i + 1, c, cp);
      }
    }
    hide Before, InRanges, Proper;
    forall u: seq<Byte> ensures EachBefore(encode, s, i + 1, c, u) <==> EachBefore(encode, s, i, s[i].1, u) {
    }
  }

  lemma EachNext(encode: nat -> seq<Byte>, s: seq<Span>, i: nat, c: nat, u: seq<Byte>)
    requires i < |s| && s[i].0 <= c < s[i].1
    ensures EachBefore(encode, s, i, c + 1, u) <==> EachBefore(encode, s, i, c, u) || (u != [] && encode(c) == u)
  {
    assert Before(s, i, c + 1, c);
    forall cp: nat ensures Before(s, i, c + 1, cp) <==> Before(s, i, c, cp) || cp == c {
    }
    hide Before;
  }

  /** A code point without encoding is skipped. */
  lemma GatheringSkip(encode: nat -> seq<Byte>, s: seq<Span>, va: Ranges, prev: seq<Byte>, i: nat, c: nat, mlen: nat)
    requires Gathering(encode, s, va, prev, i, c, mlen) && i < |s| && s[i].0 <= c < s[i].1 && encode(c) == []
    ensures Gathering(encode, s, va, prev, i, c + 1, mlen)
  {
    forall u: seq<Byte> ensures EachBefore(encode, s, i, c + 1, u) <==> EachBefore(encode, s, i, c, u) {
      EachNext(encode, s, i, c, u);
    }
    hide EachBefore, InRanges, Proper;
  }

  /** The same as the one before up to the last byte: another last byte. */
  lemma GatheringJoin(encode: nat -> seq<Byte>, s: seq<Span>, va: Ranges, prev: seq<Byte>, i: nat, c: nat, mlen: nat)
    requires Gathering(encode, s, va, prev, i, c, mlen) && i < |s| && s[i].0 <= c < s[i].1
    requires var cur := encode(c); |cur| == |prev| > 0 && cur[..|cur| - 1] == prev[..|cur| - 1]
    ensures va != [] && |va[|va| - 1]| == |prev|
    ensures var cur, e := encode(c), va[|va| - 1];
            Gathering(encode, s, va[|va| - 1 := e[|e| - 1 := e[|e| - 1] + {cur[|cur| - 1]}]], prev, i, c + 1, mlen)
  {
    var cur, e := encode(c), va[|va| - 1];
    var k := |e| - 1;
    var e' := e[k := e[k] + {cur[k]}];
    var va' := va[|va| - 1 := e'];
    var front := va[..|va| - 1];
    assert va == front + [e] && va' == front + [e'];
    forall u: seq<Byte> ensures InRanges(va', u) <==> InRanges(va, u) || u == cur {
      InSplit(front, [e], u);
      InSplit(front, [e'], u);
      InOne(e, u);
      InOne(e', u);
      LastByte(e, prev, cur, u);
    }
    forall u: seq<Byte> ensures EachBefore(encode, s, i, c + 1, u) <==> EachBefore(encode, s, i, c, u) || u == cur {
      EachNext(encode, s, i, c, u);
    }
    assert Proper(e');
    hide EachBefore, InRanges, Proper;
  }

  lemma LastByte(e: Encoding, prev: seq<Byte>, cur: seq<Byte>, u: seq<Byte>)
    requires |e| == |prev| == |cur| > 0 && cur[..|cur| - 1] == prev[..|cur| - 1]
    requires forall j :: 0 <= j < |e| - 1 ==> e[j] == {prev[j]}
    ensures InProduct(e[|e| - 1 := e[|e| - 1] + {cur[|cur| - 1]}], u) <==> InProduct(e, u) || u == cur
  {
    var k := |e| - 1;
    var e' := e[k := e[k] + {cur[k]}];
    forall j | 0 <= j < k ensures cur[j] == prev[j] {
      assert cur[..k][j] == prev[..k][j];
    }
    if InProduct(e', u) && u[k] !in e[k] {
      assert u == cur;
    }
    if InProduct(e', u) && u[k] in e[k] {
      assert InProduct(e, u);
    }
  }

  /** Otherwise, a new encoding. */
  lemma GatheringAdd(encode: nat -> seq<Byte>, s: seq<Span>, va: Ranges, prev: seq<Byte>, i: nat, c: nat, mlen: nat)
    requires Gathering(encode, s, va, prev, i, c, mlen) && i < |s| && s[i].0 <= c < s[i].1
    requires 0 < |encode(c)| <= mlen
    ensures Gathering(encode, s, va + [Singleton(encode(c))], encode(c), i, c + 1, mlen)
  {
    var cur := encode(c);
    var e := Singleton(cur);
    forall u: seq<Byte> ensures InRanges(va + [e], u) <==> InRanges(va, u) || u == cur {
      InSplit(va, [e], u);
      InOne(e, u);
      OnlyOne(cur, u);
    }
    forall u: seq<Byte> ensures EachBefore(encode, s, i, c + 1, u) <==> EachBefore(encode, s, i, c, u) || u == cur {
      EachNext(encode, s, i, c, u);
    }
    assert Proper(e);
    hide EachBefore, InRanges, Proper;
  }

  lemma OnlyOne(cur: seq<Byte>, u: seq<Byte>)
    ensures InProduct(Singleton(cur), u) <==> u == cur
  {
    if InProduct(Singleton(cur), u) {
      assert u == cur;
    }
  }

  lemma GatheringEnd(encode: nat -> seq<Byte>, s: seq<Span>, va: Ranges, prev: seq<Byte>, mlen: nat)
    requires Gathering(encode, s, va, prev, |s|, 0, mlen)
    ensures forall u: seq<Byte> :: InRanges(va, u) <==> EncodesEach(encode, s, u)
    ensures AllProper(va) && UpTo(va, mlen)
  {
    forall cp: nat ensures Before(s, |s|, 0, cp) <==> InSpans(s, cp) {
    }
    hide Before, InSpans, InRanges, Proper;
    forall u: seq<Byte> ensures EncodesEach(encode, s, u) <==> EachBefore(encode, s, |s|, 0, u) {
    }
  }

  lemma LastLikeUse(encode: nat -> seq<Byte>, s: seq<Span>, va: Ranges, prev: seq<Byte>, i: nat, c: nat, mlen: nat)
    requires Gathering(encode, s, va, prev, i, c, mlen) && prev != []
    ensures va != [] && |va[|va| - 1]| == |prev|
  {
  }

  /** std::sort by size. */
  ghost predicate SortsBySize(bySize: Ranges -> Ranges) {
    forall g: Ranges :: multiset(bySize(g)) == multiset(g) && Ascending(bySize(g))
  }

  lemma SizedSame(va: Ranges, r: Ranges, mlen: nat)
    requires multiset(r) == multiset(va) && AllProper(va) && UpTo(va, mlen)
    ensures Same(va, r) && AllProper(r) && UpTo(r, mlen)
  {
    hide InProduct, Proper;
    forall k | 0 <= k < |r| ensures Proper(r[k]) && |r[k]| <= mlen {
      assert r[k] in multiset(va);
    }
    forall u: seq<Byte> ensures InRanges(va, u) <==> InRanges(r, u) {
      if i :| 0 <= i < |va| && InProduct(va[i], u) {
        assert va[i] in multiset(r);
      }
      if i :| 0 <= i < |r| && InProduct(r[i], u) {
        assert r[i] in multiset(va);
      }
    }
  }

  /** EncoderBase::collectRanges, for any encoder: code point by code point, joining neighbours that differ in the last byte. */
  method CollectEach(encode: nat -> seq<Byte>, mlen: nat, s: seq<Span>, bySize: Ranges -> Ranges) returns (va: Ranges)
    requires Ranged(s) && (forall cp :: |encode(cp)| <= mlen) && SortsBySize(bySize)
    ensures forall u: seq<Byte> :: InRanges(va, u) <==> EncodesEach(encode, s, u)
    ensures Ascending(va) && AllProper(va) && UpTo(va, mlen)
  {
    hide *;
    va := [];
    var prev: seq<Byte> := [];
    GatheringFirst(encode, s, mlen);
    for i := 0 to |s|
      invariant Gathering(encode, s, va, prev, i, if i < |s| then s[i].0 else 0, mlen)
    {
      RangedAt(s, i);
      var c := s[i].0;
      while c < s[i].1
        invariant s[i].0 <= c <= s[i].1 && Gathering(encode, s, va, prev, i, c, mlen)
      {
        var cur := encode(c);
        if |cur| == 0 {
          // c is invalid, skip it
          GatheringSkip(encode, s, va, prev, i, c, mlen);
        } else if |cur| == |prev| && cur[..|cur| - 1] == prev[..|cur| - 1] {
          // join the previous code point if we are the same up to the last byte
          LastLikeUse(encode, s, va, prev, i, c, mlen);
          GatheringJoin(encode, s, va, prev, i, c, mlen);
          var e := va[|va| - 1];
          va := va[|va| - 1 := e[|e| - 1 := e[|e| - 1] + {cur[|cur| - 1]}]];
        } else {
          // otherwise add a new encoding to the list
          GatheringAdd(encode, s, va, prev, i, c, mlen);
          va := va + [Singleton(cur)];
          prev := cur;
        }
        c := c + 1;
      }
      GatheringSpan(encode, s, va, prev, i, mlen);
    }
    GatheringEnd(encode, s, va, prev, mlen);
    // sort encoding ranges by size
    var sorted := bySize(va);
    SizedBy(bySize, va);
    SizedSame(va, sorted, mlen);
    SameEach(encode, s, va, sorted);
    va := sorted;
  }

  lemma RangedAt(s: seq<Span>, i: nat)
    requires Ranged(s) && i < |s|
    ensures s[i].0 < s[i].1
  {
  }

  lemma SizedBy(bySize: Ranges -> Ranges, va: Ranges)
    requires SortsBySize(bySize)
    ensures multiset(bySize(va)) == multiset(va) && Ascending(bySize(va))
  {
  }

  lemma SameEach(encode: nat -> seq<Byte>, s: seq<Span>, va: Ranges, vb: Ranges)
    requires Same(va, vb) && forall u: seq<Byte> :: InRanges(va, u) <==> EncodesEach(encode, s, u)
    ensures forall u: seq<Byte> :: InRanges(vb, u) <==> EncodesEach(encode, s, u)
  {
    hide InRanges, EncodesEach;
  }

  /** EncoderBase::write, for any encoder. */
  method WriteEach(encode: nat -> seq<Byte>, mlen: nat, s: seq<Span>, bySize: Ranges -> Ranges, order: Order) returns (vo: Ranges)
    requires Ranged(s) && (forall cp :: |encode(cp)| <= mlen) && SortsBySize(bySize) && Permutes(order)
    ensures WellWritten(vo) && AllProper(vo)
    ensures forall u: seq<Byte> :: InRanges(vo, u) <==> EncodesEach(encode, s, u)
  {
    hide *;
    var va := CollectEach(encode, mlen, s, bySize);
    vo := Collapse(va, mlen, order);
    SameEach(encode, s, va, vo);
  }
}
