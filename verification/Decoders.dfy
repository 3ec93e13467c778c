/**
 Decoding a stream of bytes into code points (include/decoders/bytesource.h,
 include/decoders/utfdecoderbase.h, include/decoders/utf8.h, include/decoders/utf16.h).
 What is well-formed is section 4 of RFC 3629 and section 2.2 of RFC 2781.
 */
module Decoders {
  import opened Basics
  import opened Encoders

  /** Decoder::END */
  const END: int := -0x11_0001

  // ----- well-formed sequences -----

  predicate IsTail(b: Byte) {
    0x80 <= b <= 0xBF
  }

  /** The productions UTF8-1 to UTF8-4. */
  predicate Utf8Char(u: seq<Byte>) {
    || (|u| == 1 && u[0] <= 0x7F)
    || (|u| == 2 && 0xC2 <= u[0] <= 0xDF && IsTail(u[1]))
    || (|u| == 3 && IsTail(u[2]) && (
          || (u[0] == 0xE0 && 0xA0 <= u[1] <= 0xBF)
          || (0xE1 <= u[0] <= 0xEC && IsTail(u[1]))
          || (u[0] == 0xED && 0x80 <= u[1] <= 0x9F)
          || (0xEE <= u[0] <= 0xEF && IsTail(u[1]))))
    || (|u| == 4 && IsTail(u[2]) && IsTail(u[3]) && (
          || (u[0] == 0xF0 && 0x90 <= u[1] <= 0xBF)
          || (0xF1 <= u[0] <= 0xF3 && IsTail(u[1]))
          || (u[0] == 0xF4 && 0x80 <= u[1] <= 0x8F)))
  }

  function Lead(u: seq<Byte>): int
    requires u != []
  {
    u[0]
  }

  /** What a trailing byte adds. */
  function Digit(u: seq<Byte>, i: nat): int
    requires i < |u|
  {
    u[i] as int - 0x80
  }

  /** The number that the bytes of a sequence stand for. */
  function Utf8Value(u: seq<Byte>): int {
    if |u| == 1 then Lead(u)
    else if |u| == 2 then (Lead(u) - 0xC0) * 64 + Digit(u, 1)
    else if |u| == 3 then ((Lead(u) - 0xE0) * 64 + Digit(u, 1)) * 64 + Digit(u, 2)
    else if |u| == 4 then (((Lead(u) - 0xF0) * 64 + Digit(u, 1)) * 64 + Digit(u, 2)) * 64 + Digit(u, 3)
    else 0
  }

  lemma Split64(c: int, x: int, y: int)
    requires c == x * 64 + y && 0 <= y < 64
    ensures c / 64 == x && c % 64 == y
  {
  }

  lemma TwoBytes(u: seq<Byte>)
    requires |u| == 2 && Utf8Char(u)
    ensures ValidCodePoint(Utf8Value(u)) && Encode(Utf8, Utf8Value(u)) == u
  {
    Split64(Utf8Value(u), Lead(u) - 0xC0, Digit(u, 1));
  }

  lemma ThreeBytes(u: seq<Byte>)
    requires |u| == 3 && Utf8Char(u)
    ensures ValidCodePoint(Utf8Value(u)) && Encode(Utf8, Utf8Value(u)) == u
  {
    var c, d := Utf8Value(u), (Lead(u) - 0xE0) * 64 + Digit(u, 1);
    Split64(d, Lead(u) - 0xE0, Digit(u, 1));
    Split64(c, d, Digit(u, 2));
    Quotients(c);
  }

  lemma FourBytes(u: seq<Byte>)
    requires |u| == 4 && Utf8Char(u)
    ensures ValidCodePoint(Utf8Value(u)) && Encode(Utf8, Utf8Value(u)) == u
  {
    var d := (Lead(u) - 0xF0) * 64 + Digit(u, 1);
    var c, e := Utf8Value(u), d * 64 + Digit(u, 2);
    Split64(d, Lead(u) - 0xF0, Digit(u, 1));
    Split64(e, d, Digit(u, 2));
    Split64(c, e, Digit(u, 3));
    Quotients(c);
  }

  lemma EncodedValue(c: nat)
    requires ValidCodePoint(c)
    ensures Utf8Value(Encode(Utf8, c)) == c && Utf8Char(Encode(Utf8, c))
  {
    Quotients(c);
    var x, y := c / 64, c / 64 / 64;
    assert c == 64 * x + c % 64 && x == 64 * y + x % 64 && y == 64 * (y / 64) + y % 64;
  }

  /** The well-formed sequences are the encodings of the valid code points. */
  lemma Utf8CharIsEncoding(u: seq<Byte>)
    ensures Utf8Char(u) ==> ValidCodePoint(Utf8Value(u)) && Encode(Utf8, Utf8Value(u)) == u
    ensures forall c: nat :: ValidCodePoint(c) && Encode(Utf8, c) == u ==> Utf8Char(u) && Utf8Value(u) == c
  {
    forall c: nat | ValidCodePoint(c) && Encode(Utf8, c) == u ensures Utf8Char(u) && Utf8Value(u) == c {
      EncodedValue(c);
    }
    if Utf8Char(u) {
      if |u| == 2 {
        TwoBytes(u);
      } else if |u| == 3 {
        ThreeBytes(u);
      } else if |u| == 4 {
        FourBytes(u);
      }
    }
  }

  // ----- one code point from the front -----

  predicate Begins(u: seq<Byte>, buf: seq<Byte>) {
    |u| <= |buf| && buf[..|u|] == u
  }

  /** n bytes are the encoding of cp; or n is 0, and no encoding begins the bytes. */
  ghost predicate Decodes(enc: Scheme, buf: seq<Byte>, n: nat, cp: int) {
    if n > 0 then n <= |buf| && ValidCodePoint(cp) && Encode(enc, cp) == buf[..n]
    else forall c: nat :: ValidCodePoint(c) ==> !Begins(Encode(enc, c), buf)
  }

  lemma NoneBegins(buf: seq<Byte>)
    requires forall k :: 1 <= k <= 4 && k <= |buf| ==> !Utf8Char(buf[..k])
    ensures Decodes(Utf8, buf, 0, 0)
  {
    forall c: nat | ValidCodePoint(c) ensures !Begins(Encode(Utf8, c), buf) {
      EncodedValue(c);
      var u := Encode(Utf8, c);
      assert |u| <= |buf| ==> !Utf8Char(buf[..|u|]);
    }
  }

  lemma CharBegins(buf: seq<Byte>, n: nat)
    requires 1 <= n <= |buf| && Utf8Char(buf[..n])
    ensures Decodes(Utf8, buf, n, Utf8Value(buf[..n]))
  {
    Utf8CharIsEncoding(buf[..n]);
  }

  /** CONTINUATION */
  method Continuation(buf: seq<Byte>, i: nat, cp: int) returns (ok: bool, i': nat, cp': int)
    requires i < |buf|
    ensures i' == i + 1 && (ok <==> i' < |buf| && IsTail(buf[i']))
    ensures ok ==> cp' == cp * 64 + Digit(buf, i')
  {
    ok, i', cp' := false, i + 1, cp;
    if i' == |buf| {
      return;
    }
    var b := buf[i'];
    if b < 0x80 || 0xBF < b {
      return;
    }
    ok, cp' := true, cp * 64 + b % 64;
  }

  /** utf8_to_cp */
  method Utf8ToCp(buf: seq<Byte>) returns (n: nat, cp: int)
    ensures Decodes(Utf8, buf, n, cp)
  {
    n, cp := Utf8Steps(buf);
    if n > 0 {
      CharBegins(buf, n);
    } else {
      NoneBegins(buf);
    }
  }

  method Utf8Steps(buf: seq<Byte>) returns (n: nat, cp: int)
    ensures n > 0 ==> n <= |buf| && Utf8Char(buf[..n]) && cp == Utf8Value(buf[..n])
    ensures n == 0 ==> forall k :: 1 <= k <= 4 && k <= |buf| ==> !Utf8Char(buf[..k])
  {
    n, cp := 0, 0;
    if |buf| == 0 {
      return;
    }
    var i: nat, ok := 0, true;
    cp := buf[i];
    if cp < 0x80 {
      n := 1;
    } else if cp < 0xE0 {
      // overlong
      if cp < 0xC2 {
        return;
      }
      cp := cp % 0x20;
      ok, i, cp := Continuation(buf, i, cp);
      if ok {
        n := 2;
      }
    } else if cp < 0xF0 {
      cp := cp % 0x10;
      ok, i, cp := Continuation(buf, i, cp);
      if !ok { return; }
      ok, i, cp := Continuation(buf, i, cp);
      if !ok { return; }
      // check for overlong and UTF-16 surrogates
      if cp < 0x800 || (0xD7FF < cp && cp < 0xE000) {
        return;
      }
      n := 3;
    } else if cp < 0xF5 {
      cp := cp % 8;
      ok, i, cp := Continuation(buf, i, cp);
      if !ok { return; }
      ok, i, cp := Continuation(buf, i, cp);
      if !ok { return; }
      ok, i, cp := Continuation(buf, i, cp);
      if !ok { return; }
      // check for overlong and too high
      if cp < 0x1_0000 || cp > 0x10_FFFF {
        return;
      }
      n := 4;
    }
  }

  /** The number in a code unit of two bytes. */
  function UnitValue(le: bool, a: Byte, b: Byte): nat {
    if le then a as nat + 256 * b as nat else 256 * a as nat + b as nat
  }

  lemma UnitIs(le: bool, a: Byte, b: Byte, w: nat)
    requires w < 0x1_0000
    ensures Unit(le, w) == [a, b] <==> w == UnitValue(le, a, b)
  {
  }

  lemma UnitOf(le: bool, w: nat)
    requires w < 0x1_0000
    ensures UnitValue(le, Unit(le, w)[0], Unit(le, w)[1]) == w
  {
  }

  /** What an encoding in UTF-16 says of the bytes it begins. */
  lemma PairShape(le: bool, c: nat, buf: seq<Byte>)
    requires ValidCodePoint(c) && Begins(Encode(Utf16(le), c), buf)
    ensures |buf| >= 2
    ensures var w := UnitValue(le, buf[0], buf[1]);
            if c < 0x1_0000 then w == c
            else |buf| >= 4 && 0xD800 <= w < 0xDC00 && 0xDC00 <= UnitValue(le, buf[2], buf[3]) < 0xE000
  {
    var u := Encode(Utf16(le), c);
    assert forall j :: 0 <= j < |u| ==> buf[j] == u[j];
    if c < 0x1_0000 {
      UnitOf(le, c);
    } else {
      UnitOf(le, 0xD800 - 64 + c / 1024);
      UnitOf(le, 0xDC00 + c % 1024);
      hide Unit;
      assert u[2] == Unit(le, 0xDC00 + c % 1024)[0] && u[3] == Unit(le, 0xDC00 + c % 1024)[1];
    }
  }

  lemma DirectUnit(le: bool, buf: seq<Byte>)
    requires |buf| >= 2 && ValidCodePoint(UnitValue(le, buf[0], buf[1]))
    ensures Decodes(Utf16(le), buf, 2, UnitValue(le, buf[0], buf[1]))
  {
    var w := UnitValue(le, buf[0], buf[1]);
    UnitIs(le, buf[0], buf[1], w);
    assert buf[..2] == [buf[0], buf[1]];
  }

  lemma SurrogatePair(le: bool, buf: seq<Byte>, w: nat, t: nat)
    requires |buf| >= 4 && w == UnitValue(le, buf[0], buf[1]) && t == UnitValue(le, buf[2], buf[3])
    requires 0xD800 <= w < 0xDC00 && 0xDC00 <= t < 0xE000
    ensures Decodes(Utf16(le), buf, 4, (w - (0xD800 - 64)) * 1024 + (t - 0xDC00))
  {
    var c := (w - (0xD800 - 64)) * 1024 + (t - 0xDC00);
    assert c / 1024 == w - (0xD800 - 64) && c % 1024 == t - 0xDC00;
    UnitIs(le, buf[0], buf[1], w);
    UnitIs(le, buf[2], buf[3], t);
    hide Unit;
    assert buf[..4] == [buf[0], buf[1]] + [buf[2], buf[3]];
  }

  lemma NoPair(le: bool, buf: seq<Byte>, cp: int)
    requires |buf| >= 2 ==>
               var w := UnitValue(le, buf[0], buf[1]);
               && 0xD800 <= w < 0xE000
               && (w < 0xDC00 && |buf| >= 4 ==> !(0xDC00 <= UnitValue(le, buf[2], buf[3]) < 0xE000))
    ensures Decodes(Utf16(le), buf, 0, cp)
  {
    forall c: nat | ValidCodePoint(c) ensures !Begins(Encode(Utf16(le), c), buf) {
      if Begins(Encode(Utf16(le), c), buf) {
        PairShape(le, c, buf);
      }
    }
  }

  /** utf16_to_cp */
  method Utf16ToCp(le: bool, buf: seq<Byte>) returns (n: nat, cp: int)
    ensures Decodes(Utf16(le), buf, n, cp)
  {
    hide Decodes, Encode;
    n, cp := 0, 0;
    if |buf| < 2 {
      // invalid, too few bytes
      NoPair(le, buf, cp);
      return;
    }
    cp := UnitValue(le, buf[0], buf[1]);
    if cp < 0xD800 {
      // direct representation
      DirectUnit(le, buf);
      n := 2;
    } else if cp < 0xDC00 {
      // found lead of UTF-16 surrogate pair
      var lead := cp;
      if |buf| < 4 {
        // invalid, too few bytes
        NoPair(le, buf, cp);
        return;
      }
      var trail := UnitValue(le, buf[2], buf[3]);
      if trail < 0xDC00 || 0xE000 <= trail {
        // invalid
        NoPair(le, buf, cp);
      } else {
        // found trail of UTF-16 surrogate pair
        SurrogatePair(le, buf, lead, trail);
        n, cp := 4, (lead - (0xD800 - 64)) * 1024 + (trail - 0xDC00);
      }
    } else if cp < 0xE000 {
      // invalid
      NoPair(le, buf, cp);
    } else {
      // direct representation
      DirectUnit(le, buf);
      n := 2;
    }
  }

  // ----- the stream -----

  /** What next delivers: a code point, an error or END, and the offset of its first byte. */
  type Item = (int, nat)

  /** A byte by itself as an error. */
  function RawError(b: Byte): int {
    -(b as int) - 1
  }

  ghost predicate NothingBegins(enc: Scheme, rest: seq<Byte>) {
    forall c: nat :: ValidCodePoint(c) ==> !Begins(Encode(enc, c), rest)
  }

  /**
   At offset pos, r is what next delivers and pos' where it goes on: a valid code
   point and its encoding, or one byte at which no encoding begins, or END at the end.
   */
  ghost predicate Delivers(enc: Scheme, data: seq<Byte>, pos: nat, r: Item, pos': nat)
    requires pos <= |data|
  {
    && r.1 == pos
    && if pos == |data| then r.0 == END && pos' == pos
       else
         && pos < pos' <= |data|
         && (|| (ValidCodePoint(r.0) && Encode(enc, r.0) == data[pos..pos'])
             || (r.0 == RawError(data[pos]) && pos' == pos + 1 && NothingBegins(enc, data[pos..])))
  }

  /** The results, one after the other, cover the bytes from pos to the end. */
  ghost predicate Partitions(enc: Scheme, data: seq<Byte>, pos: nat, rs: seq<Item>)
    requires pos <= |data|
    decreases |rs|
  {
    if rs == [] then pos == |data|
    else exists pos': nat :: pos < pos' <= |data| && Delivers(enc, data, pos, rs[0], pos') && Partitions(enc, data, pos', rs[1..])
  }

  lemma {:induction false} PrefixFree(enc: Scheme, a: nat, b: nat, rest: seq<Byte>)
    requires ValidCodePoint(a) && ValidCodePoint(b) && Begins(Encode(enc, a), rest) && Begins(Encode(enc, b), rest)
    ensures a == b
  {
    match enc
    case Utf8 =>
      EncodedValue(a);
      EncodedValue(b);
      assert rest[0] == Encode(Utf8, a)[0] == Encode(Utf8, b)[0];
      SameLead(Encode(Utf8, a), Encode(Utf8, b));
      assert Encode(Utf8, a) == Encode(Utf8, b);
    case Utf16(le) =>
      PairShape(le, a, rest);
      PairShape(le, b, rest);
      if a >= 0x1_0000 {
        PairValue(le, a, rest);
        PairValue(le, b, rest);
      }
  }

  lemma SameLead(u: seq<Byte>, v: seq<Byte>)
    requires Utf8Char(u) && Utf8Char(v) && u[0] == v[0]
    ensures |u| == |v|
  {
  }

  lemma PairValue(le: bool, c: nat, buf: seq<Byte>)
    requires ValidCodePoint(c) && c >= 0x1_0000 && Begins(Encode(Utf16(le), c), buf)
    ensures |buf| >= 4
    ensures c == (UnitValue(le, buf[0], buf[1]) - (0xD800 - 64)) * 1024 + (UnitValue(le, buf[2], buf[3]) - 0xDC00)
  {
    var u := Encode(Utf16(le), c);
    assert forall j :: 0 <= j < |u| ==> buf[j] == u[j];
    UnitOf(le, 0xD800 - 64 + c / 1024);
    UnitOf(le, 0xDC00 + c % 1024);
    hide Unit;
    assert u[2] == Unit(le, 0xDC00 + c % 1024)[0] && u[3] == Unit(le, 0xDC00 + c % 1024)[1];
  }

  lemma DeliveredOnce(enc: Scheme, data: seq<Byte>, pos: nat, r: Item, p: nat, r': Item, p': nat)
    requires pos <= |data| && Delivers(enc, data, pos, r, p) && Delivers(enc, data, pos, r', p')
    ensures r == r' && p == p'
  {
    var rest := data[pos..];
    if pos < |data| {
      assert data[pos..p] == rest[..p - pos] && data[pos..p'] == rest[..p' - pos];
      if ValidCodePoint(r.0) && Encode(enc, r.0) == data[pos..p] {
        assert Begins(Encode(enc, r.0), rest);
      }
      if ValidCodePoint(r'.0) && Encode(enc, r'.0) == data[pos..p'] {
        assert Begins(Encode(enc, r'.0), rest);
      }
      if ValidCodePoint(r.0) && ValidCodePoint(r'.0) {
        assert r.0 >= 0 > RawError(data[pos]) && r'.0 >= 0;
        PrefixFree(enc, r.0, r'.0, rest);
      }
      hide Encode, Begins;
    }
  }

  /** The encodings of a sequence of code points. */
  function EncodeAll(enc: Scheme, cps: seq<nat>): seq<Byte> {
    if cps == [] then [] else Encode(enc, cps[0]) + EncodeAll(enc, cps[1..])
  }

  ghost predicate AllValidPoints(cps: seq<nat>) {
    forall i :: 0 <= i < |cps| ==> ValidCodePoint(cps[i])
  }

  /** The first of the encodings, and the rest of them. */
  lemma FirstEncoding(enc: Scheme, cps: seq<nat>, data: seq<Byte>, pos: nat)
    requires AllValidPoints(cps) && cps != [] && pos <= |data| && data[pos..] == EncodeAll(enc, cps)
    ensures var pos1 := pos + |Encode(enc, cps[0])|;
            pos < pos1 <= |data| && data[pos1..] == EncodeAll(enc, cps[1..]) && Delivers(enc, data, pos, (cps[0], pos), pos1)
    ensures AllValidPoints(cps[1..])
  {
    hide *;
    EncodeAllFirst(enc, cps);
    var u := Encode(enc, cps[0]);
    SplitFront(data, pos, u, EncodeAll(enc, cps[1..]));
    DeliversEncoding(enc, data, pos, cps[0]);
  }

  lemma EncodeAllFirst(enc: Scheme, cps: seq<nat>)
    requires AllValidPoints(cps) && cps != []
    ensures EncodeAll(enc, cps) == Encode(enc, cps[0]) + EncodeAll(enc, cps[1..])
    ensures ValidCodePoint(cps[0]) && Encode(enc, cps[0]) != [] && AllValidPoints(cps[1..])
  {
    EncodeValid(enc, cps[0]);
    hide Encode;
  }

  lemma SplitFront(data: seq<Byte>, pos: nat, u: seq<Byte>, rest: seq<Byte>)
    requires pos <= |data| && data[pos..] == u + rest
    ensures pos + |u| <= |data| && data[pos..pos + |u|] == u && data[pos + |u|..] == rest
  {
    assert data[pos..pos + |u|] == data[pos..][..|u|];
    assert data[pos + |u|..] == data[pos..][|u|..];
  }

  lemma DeliversEncoding(enc: Scheme, data: seq<Byte>, pos: nat, cp: nat)
    requires ValidCodePoint(cp) && Encode(enc, cp) != [] && pos + |Encode(enc, cp)| <= |data|
    requires data[pos..pos + |Encode(enc, cp)|] == Encode(enc, cp)
    ensures Delivers(enc, data, pos, (cp, pos), pos + |Encode(enc, cp)|)
  {
    hide Encode, NothingBegins;
  }

  lemma NextPart(enc: Scheme, data: seq<Byte>, pos: nat, rs: seq<Item>) returns (pos': nat)
    requires pos <= |data| && rs != [] && Partitions(enc, data, pos, rs)
    ensures pos < pos' <= |data| && Delivers(enc, data, pos, rs[0], pos') && Partitions(enc, data, pos', rs[1..])
  {
    hide Delivers;
    pos' :| pos < pos' <= |data| && Delivers(enc, data, pos, rs[0], pos') && Partitions(enc, data, pos', rs[1..]);
  }

  /** Whatever the bytes are, some results cover them. */
  lemma {:induction false} AlwaysCovered(enc: Scheme, data: seq<Byte>, pos: nat) returns (rs: seq<Item>)
    requires pos <= |data|
    ensures Partitions(enc, data, pos, rs)
    decreases |data| - pos
  {
    rs := [];
    if pos < |data| {
      var r: Item, pos': nat := (RawError(data[pos]), pos), pos + 1;
      if c: nat :| ValidCodePoint(c) && Begins(Encode(enc, c), data[pos..]) {
        EncodeValid(enc, c);
        SplitFront(data, pos, Encode(enc, c), data[pos..][|Encode(enc, c)|..]);
        DeliversEncoding(enc, data, pos, c);
        r, pos' := (c as int, pos), pos + |Encode(enc, c)|;
      } else {
        RawDelivered(enc, data, pos);
      }
      hide Delivers, Encode, Begins;
      rs := AlwaysCovered(enc, data, pos');
      assert ([r] + rs)[1..] == rs;
      rs := [r] + rs;
    }
  }

  /** Decoding what was encoded delivers the code points. */
  lemma {:induction false} RoundTrip(enc: Scheme, cps: seq<nat>, data: seq<Byte>, pos: nat, rs: seq<Item>)
    requires AllValidPoints(cps) && pos <= |data| && data[pos..] == EncodeAll(enc, cps) && Partitions(enc, data, pos, rs)
    ensures |rs| == |cps| && forall i :: 0 <= i < |rs| ==> rs[i].0 == cps[i]
    decreases |cps|
  {
    if cps == [] {
      NothingEncoded(enc);
      assert pos == |data|;
      NoMore(enc, data, pos, rs);
    } else {
      hide *;
      FirstEncoding(enc, cps, data, pos);
      var pos1 := pos + |Encode(enc, cps[0])|;
      SomeMore(enc, data, pos, rs);
      var pos' := NextPart(enc, data, pos, rs);
      DeliveredOnce(enc, data, pos, rs[0], pos', (cps[0], pos), pos1);
      RoundTrip(enc, cps[1..], data, pos1, rs[1..]);
    }
  }

  lemma NothingEncoded(enc: Scheme)
    ensures EncodeAll(enc, []) == []
  {
  }

  lemma NoMore(enc: Scheme, data: seq<Byte>, pos: nat, rs: seq<Item>)
    requires pos == |data| && Partitions(enc, data, pos, rs)
    ensures rs == []
  {
  }

  lemma SomeMore(enc: Scheme, data: seq<Byte>, pos: nat, rs: seq<Item>)
    requires pos < |data| && Partitions(enc, data, pos, rs)
    ensures rs != []
  {
  }

  /** A plain byte source over a buffer. */
  class ByteSource {
    const data: seq<Byte>
    var cur: nat

    constructor (data: seq<Byte>)
      ensures this.data == data && cur == 0
    {
      this.data := data;
      cur := 0;
    }

    /** ByteSource::next */
    method Next() returns (r: Item)
      requires cur <= |data|
      modifies `cur
      ensures r == ItemAt(data, old(cur)) && cur == old(cur) + (if old(cur) < |data| then 1 else 0)
    {
      if cur == |data| {
        r := (END, |data|);
      } else {
        r := (data[cur] as int, cur);
        cur := cur + 1;
      }
    }
  }

  /** What the byte source delivers at offset k, and from the end on. */
  function ItemAt(data: seq<Byte>, k: nat): Item {
    if k < |data| then (data[k] as int, k) else (END, |data|)
  }

  /** The queue holds what the source has delivered from pos on. */
  ghost predicate Queued(data: seq<Byte>, pos: nat, q: seq<Item>, cur: nat) {
    && pos <= |data| && cur == (if pos + |q| <= |data| then pos + |q| else |data|)
    && forall j :: 0 <= j < |q| ==> q[j] == ItemAt(data, pos + j)
  }

  lemma QueuedPush(data: seq<Byte>, pos: nat, q: seq<Item>, cur: nat)
    requires Queued(data, pos, q, cur)
    ensures cur <= |data| && Queued(data, pos, q + [ItemAt(data, cur)], cur + (if cur < |data| then 1 else 0))
  {
  }

  lemma QueuedPop(data: seq<Byte>, pos: nat, q: seq<Item>, cur: nat)
    requires Queued(data, pos, q, cur) && q != []
    ensures Queued(data, if pos < |data| then pos + 1 else pos, q[1..], cur)
  {
  }

  lemma {:induction false} QueuedDrop(data: seq<Byte>, pos: nat, q: seq<Item>, cur: nat, n: nat)
    requires Queued(data, pos, q, cur) && n <= |q| && pos + n <= |data|
    ensures Queued(data, pos + n, q[n..], cur)
  {
  }

  /** The bytes at the front of the queue are those at pos, as far as there are any. */
  lemma QueuedBytes(data: seq<Byte>, pos: nat, q: seq<Item>, cur: nat, buf: seq<Byte>, i: nat)
    requires Queued(data, pos, q, cur) && |q| >= 4 && i == |buf| <= 4
    requires forall j :: 0 <= j < i ==> q[j].0 == buf[j] as int
    requires i < 4 ==> q[i].0 < 0 || 0xFF < q[i].0
    ensures pos + i <= |data| && buf == data[pos..pos + i] && (i < 4 ==> pos + i == |data|)
    ensures q[0] == ItemAt(data, pos)
  {
    forall j | 0 <= j < i ensures pos + j < |data| && buf[j] == data[pos + j] {
      assert q[j] == ItemAt(data, pos + j);
    }
    if i > 0 {
      assert q[i - 1] == ItemAt(data, pos + (i - 1));
    }
    if i < 4 {
      assert q[i] == ItemAt(data, pos + i);
    }
  }

  /** Four bytes are enough to see whether an encoding begins. */
  lemma FourAreEnough(enc: Scheme, data: seq<Byte>, pos: nat, i: nat, n: nat, cp: int)
    requires pos + i <= |data| && (i < 4 ==> pos + i == |data|) && i <= 4 && Decodes(enc, data[pos..pos + i], n, cp)
    ensures n > 0 ==> n <= i && Delivers(enc, data, pos, (cp, pos), pos + n)
    ensures n == 0 ==> NothingBegins(enc, data[pos..])
  {
    var buf, rest := data[pos..pos + i], data[pos..];
    if n > 0 {
      assert buf[..n] == data[pos..pos + n];
    } else {
      forall c: nat | ValidCodePoint(c) ensures !Begins(Encode(enc, c), rest) {
        var u := Encode(enc, c);
        if |u| <= i {
          assert buf[..|u|] == rest[..|u|];
        }
      }
    }
    hide Encode;
  }

  /** UTFDecoderBase over a plain byte source. */
  class UtfDecoder {
    const Scheme: Scheme
    const Trans: ByteSource
    var In: seq<Item>
    /** The offset of the first byte that has not been delivered. */
    ghost var Pos: nat

    ghost predicate Valid()
      reads this, Trans
    {
      Queued(Trans.data, Pos, In, Trans.cur)
    }

    constructor (scheme: Scheme, trans: ByteSource)
      requires trans.cur == 0
      ensures Valid() && Pos == 0 && Scheme == scheme && Trans == trans
    {
      Scheme, Trans, In, Pos := scheme, trans, [], 0;
    }

    method Decode(buf: seq<Byte>) returns (n: nat, cp: int)
      ensures Decodes(Scheme, buf, n, cp)
    {
      match Scheme {
        case Utf8 => n, cp := Utf8ToCp(buf);
        case Utf16(le) => n, cp := Utf16ToCp(le, buf);
      }
    }

    /** fill queue up to four elements */
    method Fill()
      requires Valid()
      modifies `In, Trans
      ensures Valid() && |In| >= 4
    {
      while |In| < 4
        invariant Valid()
        decreases 4 - |In|
      {
        QueuedPush(Trans.data, Pos, In, Trans.cur);
        var r := Trans.Next();
        In := In + [r];
      }
    }

    /** UTFDecoderBase::next */
    method Next() returns (r: Item)
      requires Valid()
      modifies `In, `Pos, Trans
      ensures Valid() && old(Pos) <= |Trans.data| && Delivers(Scheme, Trans.data, old(Pos), r, Pos)
    {
      hide *;
      Fill();
      ghost var data, q := Trans.data, In;
      // convert the queue to be all bytes, stopping when we hit a non-byte
      var buf: seq<Byte> := [];
      var i: nat := 0;
      while i < 4 && 0 <= In[i].0 <= 0xFF
        invariant i == |buf| <= 4 && Valid() && In == q && |In| >= 4
        invariant forall j :: 0 <= j < i ==> In[j].0 == buf[j] as int
        decreases 4 - i
      {
        var b: Byte := In[i].0;
        buf := buf + [b];
        i := i + 1;
      }
      ValidUse();
      QueuedBytes(data, Pos, In, Trans.cur, buf, i);
      if i == 0 {
        // first element is an error, return it unchanged
        AtEnd(Scheme, data, Pos);
        QueuedPop(data, Pos, In, Trans.cur);
        r := In[0];
        In := In[1..];
      } else {
        // try to decode the bytes
        var consumed, cp := Decode(buf);
        FourAreEnough(Scheme, data, Pos, i, consumed, cp);
        FirstItem(data, Pos);
        if consumed == 0 {
          // no valid bytes consumed, return the first raw byte as an error
          RawDelivered(Scheme, data, Pos);
          QueuedPop(data, Pos, In, Trans.cur);
          r := (-In[0].0 - 1, In[0].1);
          In := In[1..];
          Pos := Pos + 1;
        } else {
          // get the offset from the first byte, then drop the consumed bytes from the queue
          QueuedDrop(data, Pos, In, Trans.cur, consumed);
          r := (cp, In[0].1);
          In := In[consumed..];
          Pos := Pos + consumed;
        }
      }
      ValidBy();
    }

    lemma ValidUse()
      requires Valid()
      ensures Queued(Trans.data, Pos, In, Trans.cur) && Pos <= |Trans.data|
    {
    }

    lemma ValidBy()
      requires Queued(Trans.data, Pos, In, Trans.cur)
      ensures Valid()
    {
    }
  }

  lemma AtEnd(enc: Scheme, data: seq<Byte>, pos: nat)
    ensures pos == |data| ==> Delivers(enc, data, pos, ItemAt(data, pos), pos)
  {
  }

  lemma FirstItem(data: seq<Byte>, pos: nat)
    ensures pos < |data| ==> ItemAt(data, pos) == (data[pos] as int, pos)
  {
  }

  lemma RawDelivered(enc: Scheme, data: seq<Byte>, pos: nat)
    requires pos < |data| && NothingBegins(enc, data[pos..])
    ensures Delivers(enc, data, pos, (-(data[pos] as int) - 1, pos), pos + 1)
  {
    hide NothingBegins;
  }
}
