/** Standard padded base64 (section 4 of RFC 4648), decoded as Go's StdEncoding does:
    carriage returns and newlines are skipped, and the unused bits of a final group are
    not checked. */
module Base64 {
  import opened Basics

  const PAD: byte := 61 // '='

  type sextet = v: int | 0 <= v < 64

  function Digit(v: sextet): byte {
    if v < 26 then v + 65
    else if v < 52 then v - 26 + 97
    else if v < 62 then v - 52 + 48
    else if v == 62 then 43
    else 47
  }

  function Value(c: byte): Option<sextet> {
    if 65 <= c <= 90 then Some(c - 65)
    else if 97 <= c <= 122 then Some(c - 97 + 26)
    else if 48 <= c <= 57 then Some(c - 48 + 52)
    else if c == 43 then Some(62)
    else if c == 47 then Some(63)
    else None
  }

  /** The four sextets of three bytes. */
  function S0(a: byte): sextet { a / 4 }
  function S1(a: byte, b: byte): sextet { a % 4 * 16 + b / 16 }
  function S2(b: byte, c: byte): sextet { b % 16 * 4 + c / 64 }
  function S3(c: byte): sextet { c % 64 }

  /** And the three bytes of four sextets. */
  function B0(p: sextet, q: sextet): byte { p * 4 + q / 16 }
  function B1(q: sextet, r: sextet): byte { q % 16 * 16 + r / 4 }
  function B2(r: sextet, t: sextet): byte { r % 4 * 64 + t }

  function Encode(bs: Bytes): Bytes {
    if |bs| == 0 then []
    else if |bs| == 1 then [Digit(S0(bs[0])), Digit(S1(bs[0], 0)), PAD, PAD]
    else if |bs| == 2 then [Digit(S0(bs[0])), Digit(S1(bs[0], bs[1])), Digit(S2(bs[1], 0)), PAD]
    else
      [Digit(S0(bs[0])), Digit(S1(bs[0], bs[1])), Digit(S2(bs[1], bs[2])), Digit(S3(bs[2]))] + Encode(bs[3..])
  }

  predicate IsNewline(c: byte) { c == 10 || c == 13 }

  function Strip(s: Bytes): Bytes {
    if s == [] then []
    else if IsNewline(s[0]) then Strip(s[1..])
    else [s[0]] + Strip(s[1..])
  }

  function DecodeGroups(s: Bytes): Option<Bytes> {
    if s == [] then Some([])
    else if |s| < 4 then None
    else
      var p, q, r, t := Value(s[0]), Value(s[1]), Value(s[2]), Value(s[3]);
      if p.None? || q.None? then None
      else if s[2] == PAD then
        if s[3] == PAD && |s| == 4 then Some([B0(p.value, q.value)]) else None
      else if r.None? then None
      else if s[3] == PAD then
        if |s| == 4 then Some([B0(p.value, q.value), B1(q.value, r.value)]) else None
      else if t.None? then None
      else
        var rest := DecodeGroups(s[4..]);
        if rest.None? then None
        else Some([B0(p.value, q.value), B1(q.value, r.value), B2(r.value, t.value)] + rest.value)
  }

  function Decode(s: Bytes): Option<Bytes> {
    DecodeGroups(Strip(s))
  }

  predicate InAlphabet(c: byte) { Value(c).Some? || c == PAD }

  lemma {:induction false} EncodeStaysInAlphabet(bs: Bytes)
    ensures forall i | 0 <= i < |Encode(bs)| :: InAlphabet(Encode(bs)[i])
  {
    if |bs| >= 3 { EncodeStaysInAlphabet(bs[3..]); }
  }

  lemma {:induction false} StripKeepsAlphabet(s: Bytes)
    requires forall i | 0 <= i < |s| :: InAlphabet(s[i])
    ensures Strip(s) == s
  {
    if s != [] {
      assert InAlphabet(s[0]);
      StripKeepsAlphabet(s[1..]);
    }
  }

  /** The alphabet of table 1 in RFC 4648, in order. */
  lemma DigitByValue(v: sextet)
    ensures Digit(v) as char ==
            if v < 26 then 'A' + v as char
            else if v < 52 then 'a' + (v - 26) as char
            else if v < 62 then '0' + (v - 52) as char
            else if v == 62 then '+' else '/'
  {}

  /** The sextets of three bytes are the digits in base 64 of the number the bytes write
      in base 256, first byte first. */
  lemma GroupByValue(a: byte, b: byte, c: byte)
    ensures ((S0(a) * 64 + S1(a, b)) * 64 + S2(b, c)) * 64 + S3(c) == (a * 256 + b) * 256 + c
  {}

  lemma {:induction false} StripAppend(s: Bytes, t: Bytes)
    ensures Strip(s + t) == Strip(s) + Strip(t)
  {
    if s == [] {
      assert s + t == t;
    } else {
      assert (s + t)[1..] == s[1..] + t;
      StripAppend(s[1..], t);
    }
  }

  /** Line breaks anywhere make no difference to decoding. */
  lemma NewlinesAreSkipped(s: Bytes, t: Bytes, c: byte)
    requires c == 0x0A || c == 0x0D
    ensures Decode(s + [c] + t) == Decode(s + t)
  {
    StripAppend(s, [c]);
    StripAppend(s + [c], t);
    StripAppend(s, t);
    assert Strip([c]) == Strip([c][1..]) == [];
    assert Strip(s) + [] == Strip(s);
  }

  /** The last digit of an encoded value, whose unused bits a decoder does not check. */
  function LastDigit(s: Bytes): int {
    if |s| >= 2 && s[|s| - 2] == PAD then |s| - 3 else |s| - 2
  }

  lemma ValueIsDigit(c: byte)
    requires Value(c).Some?
    ensures Digit(Value(c).value) == c && c != PAD
  {}

  /** Nothing else decodes: apart from line breaks, whatever decodes to v is v's encoding,
      but for the unused bits of its last digit. */
  lemma FullGroupIsEncoded(s: Bytes)
    requires |s| >= 4 && s[3] != PAD && DecodeGroups(s).Some?
    ensures s[2] != PAD && DecodeGroups(s[4..]).Some?
    ensures DecodeGroups(s).value[3..] == DecodeGroups(s[4..]).value && |DecodeGroups(s).value| >= 3
    ensures Encode(DecodeGroups(s).value)[..4] == s[..4]
    ensures Encode(DecodeGroups(s).value)[4..] == Encode(DecodeGroups(s[4..]).value)
  {
    ValueIsDigit(s[0]);
    ValueIsDigit(s[1]);
    ValueIsDigit(s[2]);
    ValueIsDigit(s[3]);
    Ungroup(Value(s[0]).value, Value(s[1]).value, Value(s[2]).value, Value(s[3]).value);
    var rest := DecodeGroups(s[4..]).value;
    assert ([DecodeGroups(s).value[0], DecodeGroups(s).value[1], DecodeGroups(s).value[2]] + rest)[3..] == rest;
  }

  lemma LastGroupIsEncoded(s: Bytes)
    requires |s| >= 4 && s[3] == PAD && DecodeGroups(s).Some?
    ensures |s| == 4 && |Encode(DecodeGroups(s).value)| == 4
    ensures forall i | 0 <= i < 4 :: s[i] == Encode(DecodeGroups(s).value)[i] || i == LastDigit(s)
  {
    ValueIsDigit(s[0]);
    ValueIsDigit(s[1]);
    if s[2] == PAD {
      Ungroup(Value(s[0]).value, Value(s[1]).value, 0, 0);
    } else {
      ValueIsDigit(s[2]);
      Ungroup(Value(s[0]).value, Value(s[1]).value, Value(s[2]).value, 0);
    }
  }

  lemma {:induction false} DecodedIsEncoded(s: Bytes, v: Bytes)
    requires DecodeGroups(s) == Some(v)
    ensures |Encode(v)| == |s|
    ensures forall i | 0 <= i < |s| :: s[i] == Encode(v)[i] || (i == LastDigit(s) && s[|s| - 1] == PAD)
    decreases |s|
  {
    if s != [] {
      if s[3] != PAD {
        FullGroupIsEncoded(s);
        DecodedIsEncoded(s[4..], DecodeGroups(s[4..]).value);
        JoinGroups(s, Encode(v));
      } else {
        LastGroupIsEncoded(s);
      }
    }
  }

  lemma JoinGroups(s: Bytes, e: Bytes)
    requires |s| >= 4 && |e| >= 4 && s[3] != PAD && e[..4] == s[..4] && |e| == |s|
    requires forall i | 0 <= i < |s[4..]| :: s[4..][i] == e[4..][i] || (i == LastDigit(s[4..]) && s[4..][|s| - 5] == PAD)
    ensures forall i | 0 <= i < |s| :: s[i] == e[i] || (i == LastDigit(s) && s[|s| - 1] == PAD)
  {
    forall i | 0 <= i < |s| ensures s[i] == e[i] || (i == LastDigit(s) && s[|s| - 1] == PAD) {
      if i < 4 { assert s[..4][i] == e[..4][i]; } else { assert s[i] == s[4..][i - 4] && e[i] == e[4..][i - 4]; }
    }
  }

  lemma Ungroup(p: sextet, q: sextet, r: sextet, t: sextet)
    ensures S0(B0(p, q)) == p && S1(B0(p, q), B1(q, r)) == q && S2(B1(q, r), B2(r, t)) == r && S3(B2(r, t)) == t
  {}

  lemma Regroup(a: byte, b: byte, c: byte)
    ensures B0(S0(a), S1(a, b)) == a && B1(S1(a, b), S2(b, c)) == b && B2(S2(b, c), S3(c)) == c
  {}

  lemma DigitIsNotPad(v: sextet)
    ensures Digit(v) != PAD && Value(Digit(v)) == Some(v)
  {}

  lemma DecodeFullGroup(p: sextet, q: sextet, r: sextet, t: sextet, rest: Bytes)
    ensures DecodeGroups([Digit(p), Digit(q), Digit(r), Digit(t)] + rest) ==
            if DecodeGroups(rest).None? then None
            else Some([B0(p, q), B1(q, r), B2(r, t)] + DecodeGroups(rest).value)
  {
    DigitIsNotPad(p);
    DigitIsNotPad(q);
    DigitIsNotPad(r);
    DigitIsNotPad(t);
    var s := [Digit(p), Digit(q), Digit(r), Digit(t)] + rest;
    assert s[4..] == rest;
    assert s[0] == Digit(p) && s[1] == Digit(q) && s[2] == Digit(r) && s[3] == Digit(t);
  }

  lemma DecodeOneByte(p: sextet, q: sextet)
    ensures DecodeGroups([Digit(p), Digit(q), PAD, PAD]) == Some([B0(p, q)])
  {
    DigitIsNotPad(p);
    DigitIsNotPad(q);
  }

  lemma DecodeTwoBytes(p: sextet, q: sextet, r: sextet)
    ensures DecodeGroups([Digit(p), Digit(q), Digit(r), PAD]) == Some([B0(p, q), B1(q, r)])
  {
    DigitIsNotPad(p);
    DigitIsNotPad(q);
    DigitIsNotPad(r);
  }

  lemma FullGroup(a: byte, b: byte, c: byte, rest: Bytes)
    requires DecodeGroups(rest).Some?
    ensures DecodeGroups([Digit(S0(a)), Digit(S1(a, b)), Digit(S2(b, c)), Digit(S3(c))] + rest)
            == Some([a, b, c] + DecodeGroups(rest).value)
  {
    Regroup(a, b, c);
    DecodeFullGroup(S0(a), S1(a, b), S2(b, c), S3(c), rest);
  }

  lemma OneByte(a: byte)
    ensures DecodeGroups([Digit(S0(a)), Digit(S1(a, 0)), PAD, PAD]) == Some([a])
  {
    Regroup(a, 0, 0);
    DecodeOneByte(S0(a), S1(a, 0));
  }

  lemma TwoBytes(a: byte, b: byte)
    ensures DecodeGroups([Digit(S0(a)), Digit(S1(a, b)), Digit(S2(b, 0)), PAD]) == Some([a, b])
  {
    Regroup(a, b, 0);
    DecodeTwoBytes(S0(a), S1(a, b), S2(b, 0));
  }

  lemma {:induction false} DecodeGroupsEncode(bs: Bytes)
    ensures DecodeGroups(Encode(bs)) == Some(bs)
    decreases |bs|
  {
    if |bs| >= 3 {
      DecodeGroupsEncode(bs[3..]);
      FullGroup(bs[0], bs[1], bs[2], Encode(bs[3..]));
      assert [bs[0], bs[1], bs[2]] + bs[3..] == bs;
    } else if |bs| == 2 {
      TwoBytes(bs[0], bs[1]);
      assert bs == [bs[0], bs[1]];
    } else if |bs| == 1 {
      OneByte(bs[0]);
      assert bs == [bs[0]];
    }
  }

  /** Decoding undoes encoding, for every byte sequence. */
  lemma DecodeEncode(bs: Bytes)
    ensures Decode(Encode(bs)) == Some(bs)
  {
    EncodeStaysInAlphabet(bs);
    StripKeepsAlphabet(Encode(bs));
    DecodeGroupsEncode(bs);
  }
}
