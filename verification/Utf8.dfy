/** UTF-8 (section 3 of RFC 3629) with Go's error convention: a byte that starts no
    valid sequence decodes to U+FFFD and has width one. */
module Utf8 {
  import opened Basics

  type Rune = r: int | 0 <= r <= 0x10FFFF && !(0xD800 <= r <= 0xDFFF)

  const RUNE_ERROR: Rune := 0xFFFD

  function RuneLen(r: Rune): nat {
    if r < 0x80 then 1 else if r < 0x800 then 2 else if r < 0x10000 then 3 else 4
  }

  function EncodeRune(r: Rune): (bs: Bytes)
    ensures |bs| == RuneLen(r)
  {
    if r < 0x80 then [r]
    else if r < 0x800 then [0xC0 + r / 64, 0x80 + r % 64]
    else if r < 0x10000 then [0xE0 + r / 64 / 64, 0x80 + r / 64 % 64, 0x80 + r % 64]
    else [0xF0 + r / 64 / 64 / 64, 0x80 + r / 64 / 64 % 64, 0x80 + r / 64 % 64, 0x80 + r % 64]
  }

  predicate Continues(b: byte) { 0x80 <= b <= 0xBF }

  /** The legal range of the second byte depends on the first: it rules out overlong
      forms, surrogates and values past U+10FFFF. */
  predicate SecondByte(b0: byte, b1: byte) {
    (if b0 == 0xE0 then 0xA0 else if b0 == 0xF0 then 0x90 else 0x80) <= b1
    && b1 <= (if b0 == 0xED then 0x9F else if b0 == 0xF4 then 0x8F else 0xBF)
  }

  /** Appends the six payload bits of a continuation byte. */
  function Join(high: int, b: byte): int { high * 64 + (b as int - 0x80) }

  datatype Decoded = Decoded(r: Rune, width: nat)

  function DecodeRune(s: Bytes): (d: Decoded)
    requires s != []
    ensures 1 <= d.width <= |s|
  {
    var b0 := s[0];
    if b0 < 0x80 then Decoded(b0, 1)
    else if 0xC2 <= b0 <= 0xDF && |s| >= 2 && SecondByte(b0, s[1]) then
      Decoded(Join(b0 as int - 0xC0, s[1]), 2)
    else if 0xE0 <= b0 <= 0xEF && |s| >= 3 && SecondByte(b0, s[1]) && Continues(s[2]) then
      Decoded(Join(Join(b0 as int - 0xE0, s[1]), s[2]), 3)
    else if 0xF0 <= b0 <= 0xF4 && |s| >= 4 && SecondByte(b0, s[1]) && Continues(s[2]) && Continues(s[3]) then
      Decoded(Join(Join(Join(b0 as int - 0xF0, s[1]), s[2]), s[3]), 4)
    else Decoded(RUNE_ERROR, 1)
  }

  /** The runes a Go `range` loop over s yields. */
  function Runes(s: Bytes): seq<Rune> {
    if s == [] then [] else
      var d := DecodeRune(s);
      [d.r] + Runes(s[d.width..])
  }

  function EncodeAll(rs: seq<Rune>): Bytes {
    if rs == [] then [] else EncodeRune(rs[0]) + EncodeAll(rs[1..])
  }

  /** s is well-formed UTF-8. */
  predicate Valid(s: Bytes) { EncodeAll(Runes(s)) == s }

  lemma DecodeEncodeRune(r: Rune, rest: Bytes)
    ensures DecodeRune(EncodeRune(r) + rest) == Decoded(r, RuneLen(r))
  {
    var s := EncodeRune(r) + rest;
    assert forall i | 0 <= i < RuneLen(r) :: s[i] == EncodeRune(r)[i];
    assert r / 64 * 64 + r % 64 == r;
    assert r / 64 / 64 * 64 + r / 64 % 64 == r / 64;
    assert r / 64 / 64 / 64 * 64 + r / 64 / 64 % 64 == r / 64 / 64;
  }

  /** One rune of each length, as section 7 of RFC 3629 and the Unicode charts give it. */
  lemma EncodeRuneByValue()
    ensures EncodeRune(0x41) == [0x41] && EncodeRune(0xE9) == [0xC3, 0xA9]
    ensures EncodeRune(0x20AC) == [0xE2, 0x82, 0xAC] && EncodeRune(0x233B4) == [0xF0, 0xA3, 0x8E, 0xB4]
  {}

  /** Decoding undoes encoding: every sequence of runes survives the trip. */
  lemma {:induction false} RunesEncodeAll(rs: seq<Rune>)
    ensures Runes(EncodeAll(rs)) == rs
  {
    if rs != [] {
      DecodeEncodeRune(rs[0], EncodeAll(rs[1..]));
      var s := EncodeAll(rs);
      assert s[RuneLen(rs[0])..] == EncodeAll(rs[1..]);
      RunesEncodeAll(rs[1..]);
    }
  }

  /** What a successful decoding step consumed is exactly the encoding of what it
      yielded, so valid text has one reading only. */
  lemma EncodeDecodeRune(s: Bytes)
    requires s != []
    requires DecodeRune(s) != Decoded(RUNE_ERROR, 1)
    ensures EncodeRune(DecodeRune(s).r) == s[..DecodeRune(s).width]
  {
    var width := DecodeRune(s).width;
    if width >= 2 { SplitJoin(s[0] as int - (if width == 2 then 0xC0 else if width == 3 then 0xE0 else 0xF0), s[1]); }
    if width >= 3 { SplitJoin(Join(s[0] as int - (if width == 3 then 0xE0 else 0xF0), s[1]), s[2]); }
    if width >= 4 { SplitJoin(Join(Join(s[0] as int - 0xF0, s[1]), s[2]), s[3]); }
  }

  lemma SplitJoin(high: int, b: byte)
    requires Continues(b)
    ensures Join(high, b) / 64 == high && Join(high, b) % 64 == b - 0x80
  {}

  lemma {:induction false} EncodeAllConcat(a: seq<Rune>, b: seq<Rune>)
    ensures EncodeAll(a + b) == EncodeAll(a) + EncodeAll(b)
  {
    if a == [] {
      assert a + b == b;
    } else {
      assert (a + b)[1..] == a[1..] + b;
      EncodeAllConcat(a[1..], b);
    }
  }

  lemma {:induction false} AsciiIsValid(s: Bytes)
    requires forall i | 0 <= i < |s| :: s[i] < 0x80
    ensures Valid(s)
  {
    if s != [] {
      AsciiIsValid(s[1..]);
      assert Runes(s)[1..] == Runes(s[1..]);
      assert s == [s[0]] + s[1..];
    }
  }
}
