/** sanitizeAuditClientID (api/oauth2.go): what of an untrusted client id is stored in an
    audit row. */
module AuditClientId {
  import opened Basics
  import opened Utf8

  const MAX_LEN := 255

  /** `isPrint` stands for unicode.IsPrint. */
  function Kept(rs: seq<Rune>, isPrint: Rune -> bool): seq<Rune> {
    if rs == [] then []
    else (if rs[0] == RUNE_ERROR || !isPrint(rs[0]) then [] else [rs[0]]) + Kept(rs[1..], isPrint)
  }

  /** How many leading runes encode into `budget` bytes. */
  function Fitting(rs: seq<Rune>, budget: int): (k: nat)
    ensures k <= |rs|
  {
    if rs == [] || RuneLen(rs[0]) > budget then 0 else 1 + Fitting(rs[1..], budget - RuneLen(rs[0]))
  }

  function Sanitized(s: Bytes, isPrint: Rune -> bool): Bytes {
    var kept := Kept(Runes(s), isPrint);
    EncodeAll(kept[..Fitting(kept, MAX_LEN)])
  }

  lemma {:induction false} FittingAppend(out: seq<Rune>, rest: seq<Rune>, budget: int)
    requires |EncodeAll(out)| <= budget
    ensures Fitting(out + rest, budget) == |out| + Fitting(rest, budget - |EncodeAll(out)|)
  {
    if out == [] {
      assert out + rest == rest;
    } else {
      assert (out + rest)[1..] == out[1..] + rest;
      FittingAppend(out[1..], rest, budget - RuneLen(out[0]));
    }
  }

  /** The count is the longest that fits. */
  lemma {:induction false} FittingIsLongest(rs: seq<Rune>, budget: nat)
    ensures var k := Fitting(rs, budget);
            && |EncodeAll(rs[..k])| <= budget
            && (k < |rs| ==> |EncodeAll(rs[..k + 1])| > budget)
  {
    var k := Fitting(rs, budget);
    if rs != [] && RuneLen(rs[0]) <= budget {
      FittingIsLongest(rs[1..], budget - RuneLen(rs[0]));
      assert rs[..k][1..] == rs[1..][..k - 1];
      if k < |rs| { assert rs[..k + 1][1..] == rs[1..][..k]; }
    } else if rs != [] {
      assert EncodeAll(rs[..1]) == EncodeRune(rs[0]) + EncodeAll(rs[..1][1..]);
    }
  }

  lemma {:induction false} KeptOfKept(rs: seq<Rune>, isPrint: Rune -> bool)
    requires forall i | 0 <= i < |rs| :: rs[i] != 0xFFFD && isPrint(rs[i])
    ensures Kept(rs, isPrint) == rs
  {
    if rs != [] { KeptOfKept(rs[1..], isPrint); }
  }

  lemma {:induction false} KeptIsPrintable(rs: seq<Rune>, isPrint: Rune -> bool)
    ensures forall i | 0 <= i < |Kept(rs, isPrint)| :: Kept(rs, isPrint)[i] != 0xFFFD && isPrint(Kept(rs, isPrint)[i])
  {
    if rs != [] { KeptIsPrintable(rs[1..], isPrint); }
  }

  /** What the loop still has to keep, one decoded rune at a time. */
  function KeptFrom(s: Bytes, i: nat, isPrint: Rune -> bool): seq<Rune>
    requires i <= |s|
  {
    Kept(Runes(s[i..]), isPrint)
  }

  /** The loop at position i has kept `out`. */
  ghost predicate Progress(s: Bytes, i: nat, out: seq<Rune>, isPrint: Rune -> bool) {
    i <= |s| && Kept(Runes(s), isPrint) == out + KeptFrom(s, i, isPrint)
  }

  lemma KeptFromStep(s: Bytes, i: nat, isPrint: Rune -> bool)
    requires i < |s|
    ensures var d := DecodeRune(s[i..]);
            KeptFrom(s, i, isPrint) ==
            (if d.r == RUNE_ERROR || !isPrint(d.r) then [] else [d.r]) + KeptFrom(s, i + d.width, isPrint)
  {
    var d := DecodeRune(s[i..]);
    assert s[i..][d.width..] == s[i + d.width..];
    assert Runes(s[i..])[1..] == Runes(s[i + d.width..]);
  }

  lemma ProgressStep(s: Bytes, i: nat, out: seq<Rune>, isPrint: Rune -> bool)
    requires i < |s| && Progress(s, i, out, isPrint)
    ensures var d := DecodeRune(s[i..]);
            if d.r == RUNE_ERROR || !isPrint(d.r) then Progress(s, i + d.width, out, isPrint)
            else Progress(s, i + d.width, out + [d.r], isPrint) && KeptFrom(s, i, isPrint) != [] && KeptFrom(s, i, isPrint)[0] == d.r
  {
    var d := DecodeRune(s[i..]);
    KeptFromStep(s, i, isPrint);
    assert out + ([d.r] + KeptFrom(s, i + d.width, isPrint)) == (out + [d.r]) + KeptFrom(s, i + d.width, isPrint);
  }

  lemma EncodeAllPush(out: seq<Rune>, r: Rune)
    ensures EncodeAll(out + [r]) == EncodeAll(out) + EncodeRune(r)
  {
    EncodeAllConcat(out, [r]);
    assert EncodeAll([r]) == EncodeRune(r) + EncodeAll([]);
  }

  /** The loop may stop with `out` once the next rune does not fit, or none is left. */
  lemma StopHere(s: Bytes, i: nat, out: seq<Rune>, isPrint: Rune -> bool)
    requires Progress(s, i, out, isPrint) && |EncodeAll(out)| <= MAX_LEN
    requires var rest := KeptFrom(s, i, isPrint); rest == [] || |EncodeAll(out)| + RuneLen(rest[0]) > MAX_LEN
    ensures Sanitized(s, isPrint) == EncodeAll(out)
  {
    var rest := KeptFrom(s, i, isPrint);
    FittingAppend(out, rest, MAX_LEN);
    assert (out + rest)[..|out|] == out;
  }

  /** The loop: decode a rune, skip it or stop, or append its encoding. */
  method SanitizeAuditClientID(s: Bytes, isPrint: Rune -> bool) returns (b: Bytes)
    ensures b == Sanitized(s, isPrint)
  {
    b := [];
    var i := 0;
    ghost var out: seq<Rune> := [];
    assert s[0..] == s;
    while i < |s|
      invariant 0 <= i <= |s|
      invariant Progress(s, i, out, isPrint)
      invariant b == EncodeAll(out) && |b| <= MAX_LEN
    {
      var d := DecodeRune(s[i..]);
      ProgressStep(s, i, out, isPrint);
      if d.r == RUNE_ERROR || !isPrint(d.r) {
        i := i + d.width;
        continue;
      }
      if |b| + RuneLen(d.r) > MAX_LEN {
        StopHere(s, i, out, isPrint);
        return;
      }
      EncodeAllPush(out, d.r);
      b := b + EncodeRune(d.r);
      i := i + d.width;
      out := out + [d.r];
    }
    StopHere(s, i, out, isPrint);
  }

  predicate LongestPrefix(rs: seq<Rune>, k: nat)
    requires k <= |rs|
  {
    |EncodeAll(rs[..k])| <= 255 && (k < |rs| ==> |EncodeAll(rs[..k + 1])| > 255)
  }

  /** The result is the encoding of the longest prefix of the printable, valid runes that
      fits in 255 bytes; it is well-formed UTF-8, so no rune is split. */
  lemma SanitizedIsLongestPrefix(s: Bytes, isPrint: Rune -> bool) returns (k: nat)
    ensures var kept := Kept(Runes(s), isPrint);
            && k <= |kept|
            && LongestPrefix(kept, k)
            && Sanitized(s, isPrint) == EncodeAll(kept[..k])
            && Runes(Sanitized(s, isPrint)) == kept[..k]
    ensures Valid(Sanitized(s, isPrint))
  {
    var kept := Kept(Runes(s), isPrint);
    k := Fitting(kept, MAX_LEN);
    FittingIsLongest(kept, MAX_LEN);
    RunesEncodeAll(kept[..k]);
  }

  /** Sanitising again changes nothing. */
  lemma SanitizedIsIdempotent(s: Bytes, isPrint: Rune -> bool)
    ensures Sanitized(Sanitized(s, isPrint), isPrint) == Sanitized(s, isPrint)
  {
    var kept := Kept(Runes(s), isPrint);
    var out := kept[..Fitting(kept, MAX_LEN)];
    FittingIsLongest(kept, MAX_LEN);
    RunesEncodeAll(out);
    KeptIsPrintable(Runes(s), isPrint);
    KeptOfKept(out, isPrint);
    FittingAppend(out, [], MAX_LEN);
    assert out + [] == out && out[..|out|] == out;
  }
}
