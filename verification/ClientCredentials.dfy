/** extractClientCredentials (api/oauth2.go): HTTP Basic (section 2 of RFC 7617) before the
    form body (section 2.3.1 of RFC 6749). */
module ClientCredentials {
  import opened Basics
  import Base64

  const COLON: byte := 58
  const BASIC: Bytes := [66, 97, 115, 105, 99, 32] // "Basic "

  function FirstColon(s: Bytes): (i: nat)
    ensures i <= |s| && COLON !in s[..i] && (i < |s| ==> s[i] == COLON)
  {
    if s == [] || s[0] == COLON then 0 else
      var k := FirstColon(s[1..]);
      assert s[..k + 1] == [s[0]] + s[1..][..k];
      k + 1
  }

  function SplitAtColon(s: Bytes): Option<(Bytes, Bytes)> {
    var i := FirstColon(s);
    if i == |s| then None else Some((s[..i], s[i + 1..]))
  }

  /** `auth` is the Authorization header, empty when absent; the form values are the body's. */
  function ExtractClientCredentials(auth: Bytes, formId: Bytes, formSecret: Bytes): Option<(Bytes, Bytes)> {
    if BASIC <= auth then
      var decoded := Base64.Decode(auth[|BASIC|..]);
      if decoded.None? then None else SplitAtColon(decoded.value)
    else Some((formId, formSecret))
  }

  /** The header a client sends for a pair. */
  function BasicHeader(id: Bytes, secret: Bytes): Bytes {
    BASIC + Base64.Encode(id + [COLON] + secret)
  }

  lemma SplitFirst(id: Bytes, secret: Bytes)
    ensures SplitAtColon(id + [COLON] + secret) == Some((id, secret)) <==> COLON !in id
  {
    var s := id + [COLON] + secret;
    var i := FirstColon(s);
    assert s[|id|] == COLON && COLON in s;
    assert forall k | 0 <= k < |id| :: s[k] == id[k];
    if COLON !in id {
      assert forall k | 0 <= k < i :: s[..i][k] != COLON;
      assert s[..|id|] == id && s[|id| + 1..] == secret;
    }
  }

  /** Decoding a header gives back the pair it was made from exactly when the id has no
      colon; the secret may contain anything. */
  lemma BasicHeaderRoundTrip(id: Bytes, secret: Bytes, formId: Bytes, formSecret: Bytes)
    ensures ExtractClientCredentials(BasicHeader(id, secret), formId, formSecret) == Some((id, secret)) <==> COLON !in id
  {
    var auth := BasicHeader(id, secret);
    assert auth[|BASIC|..] == Base64.Encode(id + [COLON] + secret);
    Base64.DecodeEncode(id + [COLON] + secret);
    SplitFirst(id, secret);
  }

  /** Which pair comes out of a request: that of a Basic header, split at its first colon,
      and without such a header exactly that of the body. */
  lemma ExtractedIff(auth: Bytes, formId: Bytes, formSecret: Bytes, id: Bytes, secret: Bytes)
    ensures ExtractClientCredentials(auth, formId, formSecret) == Some((id, secret)) <==>
            if IsBasic(auth) then
              COLON !in id && Base64.Decode(auth[6..]) == Some(id + [COLON] + secret)
            else (id, secret) == (formId, formSecret)
  {
    if BASIC <= auth {
      var decoded := Base64.Decode(auth[6..]);
      if decoded.Some? {
        var s := decoded.value;
        var i := FirstColon(s);
        if i < |s| { assert s == s[..i] + [COLON] + s[i + 1..]; }
        if s == id + [COLON] + secret { SplitFirst(id, secret); }
      }
    }
  }

  /** The header starts with "Basic" and a space. */
  predicate IsBasic(auth: Bytes) {
    |auth| >= 6 && forall i | 0 <= i < 6 :: auth[i] as char == "Basic "[i]
  }

  /** A Basic header, well formed or not, is never overridden by the body; without one the
      body is what counts. */
  lemma FormNeverOverridesBasic(auth: Bytes, formId: Bytes, formSecret: Bytes, formId': Bytes, formSecret': Bytes)
    requires formId != formId' || formSecret != formSecret'
    ensures ExtractClientCredentials(auth, formId, formSecret) == ExtractClientCredentials(auth, formId', formSecret')
            <==> BASIC <= auth
  {}
}
