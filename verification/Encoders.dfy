/**
 Encoders for sets of code points (src/lib/encoderbase.cpp, src/lib/utfbase.cpp,
 src/lib/utf8.cpp, include/encoders/utf16.h): the byte ranges written for a set
 denote exactly the encodings of its members. The encodings are those of section 3
 of RFC 3629 and section 2.1 of RFC 2781; shifts and masks are written as division
 and remainder.
 */
module Encoders {
  import opened Basics
  import opened Regexes

  type Encoding = seq<set<Byte>>

  // ----- one code point -----

  datatype Scheme = Utf8 | Utf16(le: bool)

  function Trail(x: nat): Byte {
    0x80 + x % 64
  }

  function Unit(le: bool, w: nat): (r: seq<Byte>)
    requires w < 0x1_0000
    ensures |r| == 2
  {
    if le then [w % 256, w / 256] else [w / 256, w % 256]
  }

  /** UTF8::write and UTF16Base::write; no bytes for what is no code point. */
  function Encode(enc: Scheme, cp: int): (r: seq<Byte>)
    ensures |r| <= 4
  {
    match enc
    case Utf8 =>
      if cp < 0 then []
      else if cp < 0x80 then [cp]
      else if cp < 0x800 then [0xC0 + cp / 64, Trail(cp)]
      else if cp < 0xD800 then [0xE0 + cp / 4096, Trail(cp / 64), Trail(cp)]
      else if cp < 0xE000 then []
      else if cp < 0x1_0000 then [0xE0 + cp / 4096, Trail(cp / 64), Trail(cp)]
      else if cp < 0x11_0000 then [0xF0 + cp / 0x4_0000, Trail(cp / 4096), Trail(cp / 64), Trail(cp)]
      else []
    case Utf16(le) =>
      if cp < 0 then []
      else if cp < 0xD800 then Unit(le, cp)
      else if cp < 0xE000 then []
      else if cp < 0x1_0000 then Unit(le, cp)
      else if cp < 0x11_0000 then Unit(le, 0xD800 - 64 + cp / 1024) + Unit(le, 0xDC00 + cp % 1024)
      else []
  }

  /** UTFBase's validCodePoints. */
  predicate ValidCodePoint(cp: int) {
    0 <= cp < 0xD800 || 0xE000 <= cp < 0x11_0000
  }

  lemma EncodeValid(enc: Scheme, cp: int)
    ensures Encode(enc, cp) != [] <==> ValidCodePoint(cp)
  {
  }

  // ----- sets of code points, as a UnicodeSet lists its ranges -----

  type Span = (nat, nat)

  ghost predicate Ranged(s: seq<Span>) {
    && (forall i :: 0 <= i < |s| ==> s[i].0 < s[i].1)
    && (forall i, j :: 0 <= i < j < |s| ==> s[i].1 < s[j].0)
  }

  ghost predicate InSpans(s: seq<Span>, cp: nat) {
    exists i :: 0 <= i < |s| && s[i].0 <= cp < s[i].1
  }

  ghost predicate AllValid(s: seq<Span>) {
    forall cp: nat :: InSpans(s, cp) ==> ValidCodePoint(cp)
  }

  // ----- blocks of code points whose encodings differ in one byte -----

  /** All of the code points from lo to below hi have encodings of this length. */
  predicate Window(enc: Scheme, len: nat, lo: nat, hi: nat) {
    match enc
    case Utf8 => (len == 1 && hi <= 0x80)
                 || (len == 2 && 0x80 <= lo && hi <= 0x800)
                 || (len == 3 && 0x800 <= lo && hi <= 0xD800)
                 || (len == 3 && 0xE000 <= lo && hi <= 0x1_0000)
                 || (len == 4 && 0x1_0000 <= lo && hi <= 0x11_0000)
    case Utf16(_) => (len == 2 && hi <= 0xD800)
                     || (len == 2 && 0xE000 <= lo && hi <= 0x1_0000)
                     || (len == 4 && 0x1_0000 <= lo && hi <= 0x11_0000)
  }

  /** The place of the byte in which the encodings of a block differ. */
  function Spot(enc: Scheme, len: nat): nat
    requires 0 < len && (enc.Utf16? ==> len > 1)
  {
    if enc == Utf16(true) then len - 2 else len - 1
  }

  /** That byte. */
  function Low(enc: Scheme, len: nat, cp: nat): Byte {
    if enc.Utf16? then cp % 256 else if len == 1 then cp % 256 else Trail(cp)
  }

  function BlockOf(enc: Scheme, len: nat, cp: nat): nat {
    if enc.Utf16? then cp / 256 else if len == 1 then 0 else cp / 64
  }

  lemma Quotients(x: nat)
    ensures x / 4096 == x / 64 / 64 && x / 0x4_0000 == x / 64 / 64 / 64
  {
  }

  lemma UnitParts(x: nat)
    ensures x / 1024 == x / 256 / 4
    ensures (0xDC00 + x % 1024) / 256 == 0xDC + x / 256 % 4 && (0xDC00 + x % 1024) % 256 == x % 256
  {
  }

  lemma SameBlockUtf8(len: nat, lo: nat, hi: nat, a: nat, b: nat)
    requires Window(Utf8, len, lo, hi) && lo <= a < hi && lo <= b < hi && BlockOf(Utf8, len, a) == BlockOf(Utf8, len, b)
    ensures 0 < len == |Encode(Utf8, a)|
    ensures Encode(Utf8, b) == Encode(Utf8, a)[len - 1 := Low(Utf8, len, b)]
    ensures Encode(Utf8, a)[len - 1] == Low(Utf8, len, a)
  {
    Quotients(a);
    Quotients(b);
  }

  lemma SameBlockUtf16(le: bool, len: nat, lo: nat, hi: nat, a: nat, b: nat)
    requires Window(Utf16(le), len, lo, hi) && lo <= a < hi && lo <= b < hi && a / 256 == b / 256
    ensures 1 < len == |Encode(Utf16(le), a)|
    ensures Encode(Utf16(le), b) == Encode(Utf16(le), a)[Spot(Utf16(le), len) := b % 256]
    ensures Encode(Utf16(le), a)[Spot(Utf16(le), len)] == a % 256
  {
    UnitParts(a);
    UnitParts(b);
  }

  lemma SameBlockEncodes(enc: Scheme, len: nat, lo: nat, hi: nat, a: nat, b: nat)
    requires Window(enc, len, lo, hi) && lo <= a < hi && lo <= b < hi && BlockOf(enc, len, a) == BlockOf(enc, len, b)
    ensures 0 < len && (enc.Utf16? ==> len > 1) && |Encode(enc, a)| == len
    ensures Encode(enc, b) == Encode(enc, a)[Spot(enc, len) := Low(enc, len, b)]
    ensures Encode(enc, a)[Spot(enc, len)] == Low(enc, len, a)
  {
    hide Encode;
    match enc
    case Utf8 => SameBlockUtf8(len, lo, hi, a, b);
    case Utf16(le) => SameBlockUtf16(le, len, lo, hi, a, b);
  }

  /** The code points from l to below h. */
  ghost predicate EncodesOne(enc: Scheme, l: nat, h: nat, u: seq<Byte>) {
    exists cp: nat :: l <= cp < h && Encode(enc, cp) == u
  }

  /** v is the encodings of the code points from a to below m, which are in one block. */
  ghost predicate BlockIs(enc: Scheme, len: nat, v: Encoding, a: nat, m: nat)
    requires 0 < len && (enc.Utf16? ==> len > 1)
  {
    && |v| == len == |Encode(enc, a)| && a < m
    && (forall j :: 0 <= j < len && j != Spot(enc, len) ==> v[j] == {Encode(enc, a)[j]})
    && (forall x: Byte :: x in v[Spot(enc, len)] <==> LowFrom(enc, len, a, m, x))
  }

  ghost predicate LowFrom(enc: Scheme, len: nat, a: nat, m: nat, x: Byte) {
    exists cp: nat :: a <= cp < m && Low(enc, len, cp) == x
  }

  lemma BlockEncodes(enc: Scheme, len: nat, lo: nat, hi: nat, v: Encoding, a: nat, m: nat, u: seq<Byte>)
    requires Window(enc, len, lo, hi) && lo <= a < m <= hi && BlockOf(enc, len, a) == BlockOf(enc, len, m - 1)
    requires 0 < len && (enc.Utf16? ==> len > 1) && BlockIs(enc, len, v, a, m)
    ensures InProduct(v, u) <==> EncodesOne(enc, a, m, u)
  {
    var k := Spot(enc, len);
    forall cp: nat | a <= cp < m
      ensures |Encode(enc, a)| == len && Encode(enc, cp) == Encode(enc, a)[k := Low(enc, len, cp)]
    {
      SameBlockMiddle(enc, len, a, cp, m);
      SameBlockEncodes(enc, len, lo, hi, a, cp);
    }
    hide Encode, Low, BlockOf;
    if InProduct(v, u) {
      assert u[k] in v[k];
      var cp: nat :| a <= cp < m && Low(enc, len, cp) == u[k];
      forall j | 0 <= j < len ensures u[j] == Encode(enc, cp)[j] {
        assert u[j] in v[j];
      }
      assert Encode(enc, cp) == u;
    }
    if EncodesOne(enc, a, m, u) {
      var cp: nat :| a <= cp < m && Encode(enc, cp) == u;
      assert LowFrom(enc, len, a, m, Low(enc, len, cp));
      forall j | 0 <= j < |u| ensures u[j] in v[j] {
      }
    }
  }

  lemma SameBlockMiddle(enc: Scheme, len: nat, a: nat, cp: nat, m: nat)
    requires a <= cp < m && BlockOf(enc, len, a) == BlockOf(enc, len, m - 1)
    ensures BlockOf(enc, len, cp) == BlockOf(enc, len, a)
  {
  }

  // ----- writing ranges -----

  /** ByteSet::set(lo, hi, true), on an empty set. */
  function Between(lo: nat, hi: nat): (r: set<Byte>)
    ensures forall x: Byte :: x in r <==> lo <= x < hi
  {
    set x: Byte | x in Numbers(256) && lo <= x < hi
  }

  function Singleton(u: seq<Byte>): (r: Encoding)
    ensures |r| == |u| && forall i :: 0 <= i < |r| ==> r[i] == {u[i]}
  {
    seq(|u|, i requires 0 <= i < |u| => {u[i]})
  }

  /** The end of the block, as far as the range and the limit go. */
  ghost predicate BlockEnd(enc: Scheme, len: nat, l: nat, h: nat, blimit: nat, l': nat) {
    && l <= l' && (l < l' ==> l' <= h && l' <= blimit)
    && (0 < l ==> BlockOf(enc, len, l - 1) == BlockOf(enc, len, l' - 1))
  }

  /** writeRangeBlock: add what is left of the block of the code point before l. */
  method WriteRangeBlock(enc: Scheme, v: Encoding, l: nat, h: nat, len: nat, blimit: nat) returns (v': Encoding, l': nat)
    requires 0 < l <= h && l <= blimit && 0 < len && (enc.Utf16? ==> len > 1)
    requires Window(enc, len, l - 1, blimit) && BlockIs(enc, len, v, l - 1, l)
    ensures BlockEnd(enc, len, l, h, blimit, l') && BlockIs(enc, len, v', l - 1, l')
  {
    v', l' := v, l;
    match enc {
      case Utf8 =>
        if len == 1 {
          // the one-byte encodings form a single contiguous block
          var m := Min(h, blimit);
          v', l' := v[0 := v[0] + Between(l, m)], m;
          OneByteBlock(enc, v, v', l, m);
        } else if l < Min(h, blimit) && l % 64 > 0 {
          var m := Min(Min(h, blimit), (l / 64 + 1) * 64);
          v', l' := v[len - 1 := v[len - 1] + Between(Trail(l), Trail(m - 1) + 1)], m;
          TrailBlock(enc, len, v, v', l, m);
        }
      case Utf16(le) =>
        if l < Min(h, blimit) && l % 256 > 0 {
          var m := Min(Min(h, blimit), (l / 256 + 1) * 256);
          var k := len - (if le then 2 else 1);
          v', l' := v[k := v[k] + Between(l % 256, (m - 1) % 256 + 1)], m;
          UnitBlock(enc, len, v, v', l, m);
        }
    }
  }

  lemma OneByteBlock(enc: Scheme, v: Encoding, v': Encoding, l: nat, m: nat)
    requires enc == Utf8 && 0 < l <= m <= 0x80 && BlockIs(enc, 1, v, l - 1, l) && v' == v[0 := v[0] + Between(l, m)]
    ensures BlockIs(enc, 1, v', l - 1, m)
  {
    forall x: Byte ensures x in v'[0] <==> LowFrom(enc, 1, l - 1, m, x) {
      LowSplit(enc, 1, l - 1, l, m, x);
      OneByteInterval(l, m, x);
    }
    hide LowFrom;
  }

  lemma OneByteInterval(l: nat, m: nat, x: Byte)
    requires l <= m <= 0x80
    ensures LowFrom(Utf8, 1, l, m, x) <==> l <= x < m
  {
    if l <= x < m {
      assert Low(Utf8, 1, x) == x;
    }
  }

  lemma LowSplit(enc: Scheme, len: nat, a: nat, b: nat, c: nat, x: Byte)
    requires a <= b <= c
    ensures LowFrom(enc, len, a, c, x) <==> LowFrom(enc, len, a, b, x) || LowFrom(enc, len, b, c, x)
  {
    hide Low;
  }

  lemma Remainder(q: nat, p: nat, x: nat)
    requires p == 64 || p == 256
    requires p * q <= x < p * q + p
    ensures x / p == q && x % p == x - p * q
  {
  }

  /** Within a block, an interval of low bytes is an interval of code points. */
  lemma TrailInterval(len: nat, l: nat, m: nat, x: Byte)
    requires len > 1 && l < m <= (l / 64 + 1) * 64
    ensures LowFrom(Utf8, len, l, m, x) <==> Trail(l) <= x <= Trail(m - 1)
  {
    var q := l / 64;
    Remainder(q, 64, l);
    Remainder(q, 64, m - 1);
    if Trail(l) <= x <= Trail(m - 1) {
      var cp: nat := 64 * q + (x - 0x80);
      Remainder(q, 64, cp);
      assert Low(Utf8, len, cp) == x;
    }
    if LowFrom(Utf8, len, l, m, x) {
      var cp: nat :| l <= cp < m && Low(Utf8, len, cp) == x;
      Remainder(q, 64, cp);
    }
  }

  lemma UnitInterval(enc: Scheme, len: nat, l: nat, m: nat, x: Byte)
    requires enc.Utf16? && l < m <= (l / 256 + 1) * 256
    ensures LowFrom(enc, len, l, m, x) <==> l % 256 <= x <= (m - 1) % 256
  {
    var q := l / 256;
    Remainder(q, 256, l);
    Remainder(q, 256, m - 1);
    if l % 256 <= x <= (m - 1) % 256 {
      var cp: nat := 256 * q + x;
      Remainder(q, 256, cp);
      assert Low(enc, len, cp) == x;
    }
    if LowFrom(enc, len, l, m, x) {
      var cp: nat :| l <= cp < m && Low(enc, len, cp) == x;
      Remainder(q, 256, cp);
    }
  }

  lemma TrailBlock(enc: Scheme, len: nat, v: Encoding, v': Encoding, l: nat, m: nat)
    requires enc == Utf8 && len > 1 && 0 < l < m <= (l / 64 + 1) * 64 && l % 64 > 0 && BlockIs(enc, len, v, l - 1, l)
    requires v' == v[len - 1 := v[len - 1] + Between(Trail(l), Trail(m - 1) + 1)]
    ensures BlockIs(enc, len, v', l - 1, m)
    ensures BlockOf(enc, len, l - 1) == BlockOf(enc, len, m - 1)
  {
    hide Encode;
    var k, last := len - 1, v'[len - 1];
    forall x: Byte ensures x in last <==> LowFrom(enc, len, l - 1, m, x) {
      LowSplit(enc, len, l - 1, l, m, x);
      TrailInterval(len, l, m, x);
    }
  }

  lemma UnitBlock(enc: Scheme, len: nat, v: Encoding, v': Encoding, l: nat, m: nat)
    requires enc.Utf16? && len > 1 && 0 < l < m <= (l / 256 + 1) * 256 && l % 256 > 0 && BlockIs(enc, len, v, l - 1, l)
    requires var k := Spot(enc, len); v' == v[k := v[k] + Between(l % 256, (m - 1) % 256 + 1)]
    ensures BlockIs(enc, len, v', l - 1, m)
    ensures BlockOf(enc, len, l - 1) == BlockOf(enc, len, m - 1)
  {
    hide Encode;
    var k := Spot(enc, len);
    forall x: Byte ensures x in v'[k] <==> LowFrom(enc, len, l - 1, m, x) {
      LowSplit(enc, len, l - 1, l, m, x);
      UnitInterval(enc, len, l, m, x);
    }
  }

  // ----- the iterator over the set -----

  /** In a range after the i-th. */
  ghost predicate InRestOf(s: seq<Span>, i: nat, cp: nat) {
    exists k :: i < k < |s| && s[k].0 <= cp < s[k].1
  }

  /** What is left of the set: from l to below h, and the ranges after the i-th. */
  ghost predicate Left(s: seq<Span>, i: nat, l: nat, h: nat, cp: nat) {
    l <= cp < h || InRestOf(s, i, cp)
  }

  ghost predicate Cursor(s: seq<Span>, i: nat, l: nat, h: nat) {
    && Ranged(s) && i <= |s|
    && (i < |s| ==> s[i].0 <= l < h == s[i].1)
    && (i == |s| ==> l == h)
  }

  /** The new entries are proper, and as long as the encodings here. */
  ghost predicate Appended(va0: Ranges, va: Ranges, len: nat) {
    && |va0| <= |va| && va[..|va0|] == va0
    && forall k :: |va0| <= k < |va| ==> |va[k]| == len && Proper(va[k])
  }

  ghost predicate EncodesLeft(enc: Scheme, s: seq<Span>, i: nat, l: nat, h: nat, below: nat, u: seq<Byte>) {
    exists cp: nat :: Left(s, i, l, h, cp) && cp < below && Encode(enc, cp) == u
  }

  /** Of what was left, everything below the new l has been written, and it is below the limit. */
  ghost predicate Writing(enc: Scheme, s: seq<Span>, va0: Ranges, i0: nat, l0: nat, h0: nat, va: Ranges, i: nat, l: nat, h: nat,
                          len: nat, blimit: nat)
  {
    && Cursor(s, i, l, h) && l0 <= l && Appended(va0, va, len)
    && (forall cp: nat :: Left(s, i, l, h, cp) <==> Left(s, i0, l0, h0, cp) && l <= cp)
    && (forall cp: nat :: Left(s, i0, l0, h0, cp) && cp < l ==> cp < blimit)
    && (forall u: seq<Byte> :: InRanges(va, u) <==> InRanges(va0, u) || EncodesLeft(enc, s, i0, l0, h0, l, u))
  }

  lemma WritingFirst(enc: Scheme, s: seq<Span>, va: Ranges, i: nat, l: nat, h: nat, len: nat, blimit: nat)
    requires Cursor(s, i, l, h)
    ensures Writing(enc, s, va, i, l, h, va, i, l, h, len, blimit)
  {
    forall cp: nat | Left(s, i, l, h, cp) ensures l <= cp {
      if InRestOf(s, i, cp) {
        var k :| i < k < |s| && s[k].0 <= cp < s[k].1;
      }
    }
  }

  lemma InRangesSnoc(va: Ranges, v: Encoding, u: seq<Byte>)
    ensures InRanges(va + [v], u) <==> InRanges(va, u) || InProduct(v, u)
  {
    hide InProduct;
    var w := va + [v];
    if i :| 0 <= i < |va| && InProduct(va[i], u) {
      assert w[i] == va[i];
    }
    assert w[|va|] == v;
  }

  lemma EncodesMore(enc: Scheme, s: seq<Span>, i: nat, l: nat, h: nat, a: nat, m: nat, u: seq<Byte>)
    requires a <= m && forall cp: nat :: a <= cp < m ==> Left(s, i, l, h, cp)
    ensures EncodesLeft(enc, s, i, l, h, m, u) <==> EncodesLeft(enc, s, i, l, h, a, u) || EncodesOne(enc, a, m, u)
  {
    hide Left, Encode;
  }

  lemma BlockProper(enc: Scheme, len: nat, v: Encoding, a: nat, m: nat)
    requires 0 < len && (enc.Utf16? ==> len > 1) && BlockIs(enc, len, v, a, m)
    ensures Proper(v) && |v| == len
  {
    hide Encode, Low;
    assert LowFrom(enc, len, a, m, Low(enc, len, a));
  }

  /** Within the current range: its next block. */
  lemma WritingBlock(enc: Scheme, s: seq<Span>, va0: Ranges, i0: nat, l0: nat, h0: nat, va: Ranges, i: nat, l: nat, h: nat,
                     len: nat, lo: nat, blimit: nat, v: Encoding, m: nat)
    requires Writing(enc, s, va0, i0, l0, h0, va, i, l, h, len, blimit) && i < |s| && Window(enc, len, lo, blimit) && lo <= l
    requires l < m <= h && m <= blimit && BlockOf(enc, len, l) == BlockOf(enc, len, m - 1)
    requires 0 < len && (enc.Utf16? ==> len > 1) && BlockIs(enc, len, v, l, m)
    ensures Appended(va0, va + [v], len)
    ensures forall cp: nat :: Left(s, i, m, h, cp) <==> Left(s, i0, l0, h0, cp) && m <= cp
    ensures forall cp: nat :: Left(s, i0, l0, h0, cp) && cp < m ==> cp < blimit
    ensures forall u: seq<Byte> :: InRanges(va + [v], u) <==> InRanges(va0, u) || EncodesLeft(enc, s, i0, l0, h0, m, u)
  {
    BlockProper(enc, len, v, l, m);
    forall cp: nat ensures Left(s, i, m, h, cp) <==> Left(s, i, l, h, cp) && m <= cp {
      if InRestOf(s, i, cp) {
        RestIsAbove(s, i, l, h, cp);
      }
    }
    forall u: seq<Byte> ensures InRanges(va + [v], u) <==> InRanges(va0, u) || EncodesLeft(enc, s, i0, l0, h0, m, u) {
      InRangesSnoc(va, v, u);
      BlockEncodes(enc, len, lo, blimit, v, l, m, u);
      forall cp: nat | l <= cp < m ensures Left(s, i0, l0, h0, cp) {
        assert Left(s, i, l, h, cp);
      }
      EncodesMore(enc, s, i0, l0, h0, l, m, u);
    }
    hide Proper;
  }

  lemma RestIsAbove(s: seq<Span>, i: nat, l: nat, h: nat, cp: nat)
    requires Cursor(s, i, l, h) && InRestOf(s, i, cp)
    ensures i < |s| && h < cp
  {
    var k :| i < k < |s| && s[k].0 <= cp < s[k].1;
  }

  /** Nothing was left between the old place and the new one. */
  lemma WritingJump(enc: Scheme, s: seq<Span>, va0: Ranges, i0: nat, l0: nat, h0: nat, va: Ranges, i: nat, l: nat, h: nat,
                    m: nat, len: nat, blimit: nat)
    requires Appended(va0, va, len) && Cursor(s, i, l, h) && l0 <= m <= l
    requires forall cp: nat :: Left(s, i, l, h, cp) <==> Left(s, i0, l0, h0, cp) && m <= cp
    requires forall cp: nat :: Left(s, i0, l0, h0, cp) && cp < m ==> cp < blimit
    requires forall u: seq<Byte> :: InRanges(va, u) <==> InRanges(va0, u) || EncodesLeft(enc, s, i0, l0, h0, m, u)
    ensures Writing(enc, s, va0, i0, l0, h0, va, i, l, h, len, blimit)
  {
    forall cp: nat | Left(s, i, l, h, cp) ensures l <= cp {
      if InRestOf(s, i, cp) {
        RestIsAbove(s, i, l, h, cp);
      }
    }
    hide Encode, InRanges, Cursor, Appended, InRestOf;
    forall u: seq<Byte> ensures EncodesLeft(enc, s, i0, l0, h0, m, u) <==> EncodesLeft(enc, s, i0, l0, h0, l, u) {
      if EncodesLeft(enc, s, i0, l0, h0, l, u) {
        var cp: nat :| Left(s, i0, l0, h0, cp) && cp < l && Encode(enc, cp) == u;
        assert cp < m;
      }
    }
  }

  /** The next range, if there is one. */
  lemma NextRange(s: seq<Span>, i: nat, h: nat)
    requires Ranged(s) && i < |s| && s[i].1 == h
    ensures i + 1 < |s| ==> Cursor(s, i + 1, s[i + 1].0, s[i + 1].1) && h <= s[i + 1].0
    ensures i + 1 == |s| ==> Cursor(s, i + 1, h, h)
    ensures i + 1 < |s| ==> forall cp: nat :: Left(s, i + 1, s[i + 1].0, s[i + 1].1, cp) <==> Left(s, i, h, h, cp)
    ensures i + 1 == |s| ==> forall cp: nat :: Left(s, i + 1, h, h, cp) <==> Left(s, i, h, h, cp)
  {
  }

  lemma WritingEnd(enc: Scheme, s: seq<Span>, va0: Ranges, i0: nat, l0: nat, h0: nat, va: Ranges, i: nat, l: nat, h: nat,
                   len: nat, blimit: nat)
    requires Writing(enc, s, va0, i0, l0, h0, va, i, l, h, len, blimit) && (i == |s| || blimit <= l)
    ensures Cursor(s, i, l, h) && Appended(va0, va, len)
    ensures forall cp: nat :: Left(s, i, l, h, cp) <==> Left(s, i0, l0, h0, cp) && blimit <= cp
    ensures forall u: seq<Byte> :: InRanges(va, u) <==> InRanges(va0, u) || EncodesLeft(enc, s, i0, l0, h0, blimit, u)
  {
    forall cp: nat ensures Left(s, i, l, h, cp) <==> Left(s, i0, l0, h0, cp) && blimit <= cp {
      if i == |s| {
        assert !InRestOf(s, i, cp);
        assert !Left(s, i, l, h, cp);
      }
    }
    hide Encode, InRanges, Cursor, Appended;
    forall u: seq<Byte> ensures EncodesLeft(enc, s, i0, l0, h0, blimit, u) <==> EncodesLeft(enc, s, i0, l0, h0, l, u) {
      if EncodesLeft(enc, s, i0, l0, h0, blimit, u) {
        var cp: nat :| Left(s, i0, l0, h0, cp) && cp < blimit && Encode(enc, cp) == u;
        assert !Left(s, i, l, h, cp);
      }
      if EncodesLeft(enc, s, i0, l0, h0, l, u) {
        var cp: nat :| Left(s, i0, l0, h0, cp) && cp < l && Encode(enc, cp) == u;
      }
    }
  }

  lemma WritingUse(enc: Scheme, s: seq<Span>, va0: Ranges, i0: nat, l0: nat, h0: nat, va: Ranges, i: nat, l: nat, h: nat,
                   len: nat, blimit: nat)
    requires Writing(enc, s, va0, i0, l0, h0, va, i, l, h, len, blimit)
    ensures i <= |s| && (i < |s| ==> l < h == s[i].1) && (i == |s| ==> l == h) && Ranged(s) && l0 <= l
    ensures Cursor(s, i, l, h)
    ensures l < h ==> Left(s, i0, l0, h0, l)
  {
    assert l < h ==> Left(s, i, l, h, l);
    hide Left, Encode, InRanges;
  }

  lemma FirstOfBlock(enc: Scheme, len: nat, lo: nat, hi: nat, a: nat)
    requires Window(enc, len, lo, hi) && lo <= a < hi
    ensures 0 < len && (enc.Utf16? ==> len > 1) && |Encode(enc, a)| == len
    ensures BlockIs(enc, len, Singleton(Encode(enc, a)), a, a + 1)
    ensures Window(enc, len, a, hi)
  {
    SameBlockEncodes(enc, len, lo, hi, a, a);
    var v, k := Singleton(Encode(enc, a)), Spot(enc, len);
    forall x: Byte ensures x in v[k] <==> LowFrom(enc, len, a, a + 1, x) {
      assert x == Low(enc, len, a) ==> LowFrom(enc, len, a, a + 1, x);
    }
    hide Encode, Low;
  }

  lemma BlockEndUse(enc: Scheme, len: nat, l: nat, h: nat, blimit: nat, m: nat)
    requires 0 < l && BlockEnd(enc, len, l, h, blimit, m) && l <= h && l <= blimit
    ensures l <= m <= h && m <= blimit && BlockOf(enc, len, l - 1) == BlockOf(enc, len, m - 1)
  {
  }

  /** writeRange: the encodings of what is left below blimit, block by block. */
  method WriteRange(enc: Scheme, va0: Ranges, s: seq<Span>, i0: nat, l0: nat, h0: nat, len: nat, ghost lo: nat, blimit: nat)
    returns (va: Ranges, i: nat, l: nat, h: nat)
    requires Cursor(s, i0, l0, h0) && Window(enc, len, lo, blimit)
    requires forall cp: nat :: Left(s, i0, l0, h0, cp) ==> lo <= cp
    ensures Cursor(s, i, l, h) && Appended(va0, va, len)
    ensures forall cp: nat :: Left(s, i, l, h, cp) <==> Left(s, i0, l0, h0, cp) && blimit <= cp
    ensures forall u: seq<Byte> :: InRanges(va, u) <==> InRanges(va0, u) || EncodesLeft(enc, s, i0, l0, h0, blimit, u)
  {
    hide *;
    va, i, l, h := va0, i0, l0, h0;
    WritingFirst(enc, s, va, i, l, h, len, blimit);
    while l < h && l < blimit
      invariant Writing(enc, s, va0, i0, l0, h0, va, i, l, h, len, blimit)
      decreases |s| - i, h - l
    {
      WritingUse(enc, s, va0, i0, l0, h0, va, i, l, h, len, blimit);
      FirstOfBlock(enc, len, lo, blimit, l);
      // write the encoding for the next code point, and those which differ from it in one byte
      var v, m := WriteRangeBlock(enc, Singleton(Encode(enc, l)), l + 1, h, len, blimit);
      BlockEndUse(enc, len, l + 1, h, blimit, m);
      WritingBlock(enc, s, va0, i0, l0, h0, va, i, l, h, len, lo, blimit, v, m);
      va := va + [v];
      // figure out where to look for the next code point
      if m < h {
        CursorMoves(s, i, l, h, m);
        l := m;
        WritingJump(enc, s, va0, i0, l0, h0, va, i, l, h, m, len, blimit);
      } else {
        NextRange(s, i, h);
        ghost var j := i;
        assert m == h && forall cp: nat :: Left(s, j, h, h, cp) <==> Left(s, i0, l0, h0, cp) && m <= cp;
        i := i + 1;
        l := m;
        if i < |s| {
          l, h := s[i].0, s[i].1;
        }
        assert forall cp: nat :: Left(s, i, l, h, cp) <==> Left(s, j, m, m, cp);
        WritingJump(enc, s, va0, i0, l0, h0, va, i, l, h, m, len, blimit);
        if i == |s| {
          break;
        }
      }
    }
    WritingUse(enc, s, va0, i0, l0, h0, va, i, l, h, len, blimit);
    WritingEnd(enc, s, va0, i0, l0, h0, va, i, l, h, len, blimit);
  }

  lemma CursorMoves(s: seq<Span>, i: nat, l: nat, h: nat, m: nat)
    requires Cursor(s, i, l, h) && l <= m < h
    ensures Cursor(s, i, m, h)
  {
  }

  /**
   skipRange: of the ranges after the current one, what is below ubound is left
   out. The rest of the current range is given up altogether, even what there is of it
   from ubound on, unless it is the last, which stays as it is.
   */
  method SkipRange(s: seq<Span>, i0: nat, l0: nat, h0: nat, ubound: nat) returns (i: nat, l: nat, h: nat)
    requires Cursor(s, i0, l0, h0)
    ensures ubound <= l0 || i0 == |s| ==> i == i0 && l == l0 && h == h0
    ensures l0 < ubound && i0 < |s| ==>
              forall cp: nat :: ubound <= cp ==>
                (Left(s, i, l, h, cp) <==> InRestOf(s, i0, cp) || (i0 + 1 == |s| && l0 <= cp < h0))
  {
    i, l, h := i0, l0, h0;
    if l < ubound {
      if i == |s| {
        return;
      }
      i := i + 1;
      while i < |s|
        invariant i0 < i <= |s|
        invariant i == i0 + 1 ==> l == l0 && h == h0
        invariant i > i0 + 1 ==> h <= ubound
        invariant forall k :: i0 < k < i ==> s[k].1 <= ubound
      {
        l, h := s[i].0, s[i].1;
        if h > ubound {
          if l < ubound {
            l := ubound;
          }
          return;
        }
        i := i + 1;
      }
    }
  }

  // ----- all ranges -----

  ghost predicate EncodesBelow(enc: Scheme, s: seq<Span>, below: nat, u: seq<Byte>) {
    exists cp: nat :: InSpans(s, cp) && cp < below && Encode(enc, cp) == u
  }

  ghost predicate Ascending(va: Ranges) {
    forall a, b :: 0 <= a < b < |va| ==> |va[a]| <= |va[b]|
  }

  ghost predicate AllProper(va: Ranges) {
    forall k :: 0 <= k < |va| ==> Proper(va[k])
  }

  ghost predicate UpTo(va: Ranges, len: nat) {
    forall k :: 0 <= k < |va| ==> |va[k]| <= len
  }

  /** The members of the set below the limit have been written. */
  ghost predicate Collected(enc: Scheme, s: seq<Span>, va: Ranges, i: nat, l: nat, h: nat, limit: nat, len: nat) {
    && Cursor(s, i, l, h)
    && (forall cp: nat :: Left(s, i, l, h, cp) <==> InSpans(s, cp) && limit <= cp)
    && (forall u: seq<Byte> :: InRanges(va, u) <==> EncodesBelow(enc, s, limit, u))
    && Ascending(va) && AllProper(va) && UpTo(va, len)
  }

  lemma CollectedFirst(enc: Scheme, s: seq<Span>)
    requires Ranged(s) && s != []
    ensures Collected(enc, s, [], 0, s[0].0, s[0].1, 0, 0)
  {
    forall cp: nat ensures Left(s, 0, s[0].0, s[0].1, cp) <==> InSpans(s, cp) {
      if InSpans(s, cp) {
        var k :| 0 <= k < |s| && s[k].0 <= cp < s[k].1;
        assert k > 0 ==> InRestOf(s, 0, cp);
      }
    }
    hide InProduct, Encode;
  }

  lemma CollectedStep(enc: Scheme, s: seq<Span>, va0: Ranges, i0: nat, l0: nat, h0: nat, va: Ranges, i: nat, l: nat, h: nat,
                      limit: nat, limit': nat, len: nat, len': nat)
    requires Collected(enc, s, va0, i0, l0, h0, limit, len) && limit <= limit' && len <= len'
    requires Cursor(s, i, l, h) && Appended(va0, va, len')
    requires forall cp: nat :: Left(s, i, l, h, cp) <==> Left(s, i0, l0, h0, cp) && limit' <= cp
    requires forall u: seq<Byte> :: InRanges(va, u) <==> InRanges(va0, u) || EncodesLeft(enc, s, i0, l0, h0, limit', u)
    ensures Collected(enc, s, va, i, l, h, limit', len')
  {
    hide Left, Encode, Proper, InRanges, InSpans, Cursor;
    forall u: seq<Byte>
      ensures EncodesBelow(enc, s, limit', u) <==> EncodesBelow(enc, s, limit, u) || EncodesLeft(enc, s, i0, l0, h0, limit', u)
    {
    }
    assert forall k :: 0 <= k < |va0| ==> va[k] == va0[k];
  }

  /** No member lies between the limits. */
  lemma CollectedSkip(enc: Scheme, s: seq<Span>, va: Ranges, i: nat, l: nat, h: nat, limit: nat, limit': nat, len: nat)
    requires Collected(enc, s, va, i, l, h, limit, len) && limit <= limit'
    requires forall cp: nat :: InSpans(s, cp) ==> cp < limit || limit' <= cp
    ensures Collected(enc, s, va, i, l, h, limit', len)
    ensures limit' <= l || i == |s|
  {
    assert i < |s| ==> Left(s, i, l, h, l);
    hide Left, Encode, Proper, InRanges, InSpans, Ascending, AllProper, UpTo;
    forall u: seq<Byte> ensures EncodesBelow(enc, s, limit', u) <==> EncodesBelow(enc, s, limit, u) {
    }
  }

  lemma CollectedUse(enc: Scheme, s: seq<Span>, va: Ranges, i: nat, l: nat, h: nat, limit: nat, len: nat)
    requires Collected(enc, s, va, i, l, h, limit, len)
    ensures Cursor(s, i, l, h) && forall cp: nat :: Left(s, i, l, h, cp) ==> limit <= cp
  {
    hide Left, InRanges, Ascending, AllProper, UpTo;
  }

  /** The ranges denote the encodings of the set, in order of length. */
  ghost predicate Denotes(enc: Scheme, s: seq<Span>, va: Ranges) {
    forall u: seq<Byte> :: InRanges(va, u) <==> EncodesSome(enc, s, u)
  }

  ghost predicate EncodesSome(enc: Scheme, s: seq<Span>, u: seq<Byte>) {
    exists cp: nat :: InSpans(s, cp) && Encode(enc, cp) == u
  }

  lemma CollectedEnd(enc: Scheme, s: seq<Span>, va: Ranges, i: nat, l: nat, h: nat)
    requires Collected(enc, s, va, i, l, h, 0x11_0000, 4) && AllValid(s)
    ensures Denotes(enc, s, va) && Ascending(va) && AllProper(va) && UpTo(va, 4)
  {
    hide Left, Encode, Proper, InRanges, InSpans, Cursor;
    forall u: seq<Byte> ensures EncodesSome(enc, s, u) <==> EncodesBelow(enc, s, 0x11_0000, u) {
    }
  }

  lemma NothingCollected(enc: Scheme)
    ensures Denotes(enc, [], []) && Ascending([]) && AllProper([]) && UpTo([], 4)
  {
    hide Encode;
  }

  lemma Surrogates(s: seq<Span>)
    requires AllValid(s)
    ensures forall cp: nat :: InSpans(s, cp) ==> cp < 0xD800 || 0xE000 <= cp
  {
    hide InSpans;
  }

  lemma Windows()
    ensures Window(Utf8, 1, 0, 0x80) && Window(Utf8, 2, 0x80, 0x800) && Window(Utf8, 3, 0x800, 0xD800)
    ensures Window(Utf8, 3, 0xE000, 0x1_0000) && Window(Utf8, 4, 0x1_0000, 0x11_0000)
    ensures forall le :: Window(Utf16(le), 2, 0, 0xD800)
    ensures forall le :: Window(Utf16(le), 2, 0xE000, 0x1_0000) && Window(Utf16(le), 4, 0x1_0000, 0x11_0000)
  {
  }

  /** writeRange, on what has been collected so far. */
  method WriteOn(enc: Scheme, va0: Ranges, s: seq<Span>, i0: nat, l0: nat, h0: nat, len: nat, lo: nat, blimit: nat, ghost len0: nat)
    returns (va: Ranges, i: nat, l: nat, h: nat)
    requires Collected(enc, s, va0, i0, l0, h0, lo, len0) && Window(enc, len, lo, blimit) && len0 <= len && lo <= blimit
    ensures Collected(enc, s, va, i, l, h, blimit, len)
  {
    hide *;
    CollectedUse(enc, s, va0, i0, l0, h0, lo, len0);
    va, i, l, h := WriteRange(enc, va0, s, i0, l0, h0, len, lo, blimit);
    CollectedStep(enc, s, va0, i0, l0, h0, va, i, l, h, lo, blimit, len0, len);
  }

  /** UTF8::collectRanges and UTF16Base::collectRanges, for a set of valid code points. */
  method CollectRanges(enc: Scheme, s: seq<Span>) returns (va: Ranges)
    requires Ranged(s) && AllValid(s)
    ensures Denotes(enc, s, va) && Ascending(va) && AllProper(va) && UpTo(va, 4)
  {
    hide *;
    va := [];
    if s == [] {
      NothingCollected(enc);
      return;
    }
    var i: nat, l, h := 0, s[0].0, s[0].1;
    CollectedFirst(enc, s);
    Surrogates(s);
    Windows();
    var unit := if enc.Utf8? then 3 else 2;
    if enc.Utf8? {
      // handle one-byte, two-byte and low three-byte encodings
      va, i, l, h := WriteOn(enc, va, s, i, l, h, 1, 0, 0x80, 0);
      va, i, l, h := WriteOn(enc, va, s, i, l, h, 2, 0x80, 0x800, 1);
      va, i, l, h := WriteOn(enc, va, s, i, l, h, 3, 0x800, 0xD800, 2);
    } else {
      // handle low two-byte encodings
      assert enc == Utf16(enc.le);
      va, i, l, h := WriteOn(enc, va, s, i, l, h, 2, 0, 0xD800, 0);
    }
    // skip the UTF-16 surrogates
    CollectedSkip(enc, s, va, i, l, h, 0xD800, 0xE000, unit);
    CollectedUse(enc, s, va, i, l, h, 0xE000, unit);
    i, l, h := SkipRange(s, i, l, h, 0xE000);
    // handle high three-byte, or two-byte, encodings, and four-byte encodings
    va, i, l, h := WriteOn(enc, va, s, i, l, h, unit, 0xE000, 0x1_0000, unit);
    va, i, l, h := WriteOn(enc, va, s, i, l, h, 4, 0x1_0000, 0x11_0000, unit);
    CollectedEnd(enc, s, va, i, l, h);
  }
}
