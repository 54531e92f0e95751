/** The names of the CLI session cache (common/session.go): server keys, session file
    names and the text of the current-session pointer. */
module ServerKey {
  import opened Basics

  const LOCAL := "local"
  const CURRENT := "current"
  const REMOTE_PREFIX := "srv_"

  predicate Safe(c: char) {
    'a' <= c <= 'z' || 'A' <= c <= 'Z' || Digit(c) || c == '.' || c == '_' || c == '-'
  }

  /** Every character outside the safe set becomes an underscore. */
  function Sanitize(s: string): (r: string)
    ensures |r| == |s| && forall i | 0 <= i < |s| :: r[i] == if Safe(s[i]) then s[i] else '_'
  {
    seq(|s|, i requires 0 <= i < |s| => if Safe(s[i]) then s[i] else '_')
  }

  function LowerChar(c: char): char {
    if 'A' <= c <= 'Z' then c - 'A' + 'a' else c
  }

  function ToLower(s: string): (r: string)
    ensures |r| == |s| && forall i | 0 <= i < |s| :: r[i] == LowerChar(s[i])
  {
    seq(|s|, i requires 0 <= i < |s| => LowerChar(s[i]))
  }

  /** What url.Parse makes of a server: its parts as u.Scheme, u.User, u.Host, u.Hostname()
      and u.Port() report them. */
  datatype Url = Url(scheme: string, userinfo: string, host: string, hostname: string, port: string)

  function DefaultPort(scheme: string): string {
    if scheme == "https" then "443" else if scheme == "http" then "80" else ""
  }

  function KeyFromUrl(u: Url): string {
    var scheme := ToLower(u.scheme);
    var host := ToLower(u.hostname);
    var hostPort := if u.port != "" && u.port != DefaultPort(scheme) then host + "_" + u.port else host;
    Sanitize(REMOTE_PREFIX + scheme + "_" + hostPort)
  }

  function TrimPrefix(s: string, prefix: string): string {
    if prefix <= s then s[|prefix|..] else s
  }

  /** `parsed` is url.Parse(server), None when it fails. */
  function SanitizeServerKey(server: string, parsed: Option<Url>): string {
    if server == "" || server == LOCAL then LOCAL
    else if parsed.Some? && parsed.value.host != "" then KeyFromUrl(parsed.value)
    else REMOTE_PREFIX + Sanitize(ToLower(TrimPrefix(TrimPrefix(server, "https://"), "http://")))
  }

  function FileName(key: string, user: string): string { key + "__" + Sanitize(user) + ".json" }

  function LegacyName(user: string): string { Sanitize(user) + ".json" }

  function Pointer(key: string, user: string): string { key + "|" + user }

  /** The key and username a pointer names; one without a separator is a bare local
      username. */
  function ParsePointer(text: string): (string, string) {
    var i := FirstBar(text, 0);
    if i == |text| then (LOCAL, text) else (text[..i], text[i + 1..])
  }

  function FirstBar(text: string, from: nat): (i: nat)
    requires from <= |text|
    ensures from <= i <= |text|
    ensures forall j | from <= j < i :: text[j] != '|'
    ensures i < |text| ==> text[i] == '|'
    decreases |text| - from
  {
    if from == |text| || text[from] == '|' then from else FirstBar(text, from + 1)
  }

  /* ---------- which servers share a key ---------- */

  /** An http or https URL with a host of any kind, and no port or one without leading
      zeros. */
  predicate WebUrl(u: Url) {
    && (ToLower(u.scheme) == "http" || ToLower(u.scheme) == "https") && u.host != ""
    && (u.port != "" ==> u.port[0] != '0')
    && (forall i | 0 <= i < |u.port| :: Digit(u.port[i]))
  }

  /** One whose host sanitising leaves alone. */
  predicate Ordinary(u: Url) { WebUrl(u) && u.hostname != "" && AllSafe(u.hostname) }

  /** One without underscores in its host, as every DNS name is. */
  predicate Plain(u: Url) { Ordinary(u) && Without(u.hostname, '_') }

  datatype Endpoint = Endpoint(scheme: string, host: string, port: string)

  /** The server a URL reaches, whoever it authenticates as. */
  function EndpointOf(u: Url): Endpoint {
    var scheme := ToLower(u.scheme);
    Endpoint(scheme, ToLower(u.hostname), if u.port == "" then DefaultPort(scheme) else u.port)
  }

  predicate AllSafe(s: string) { forall i | 0 <= i < |s| :: Safe(s[i]) }

  predicate Without(s: string, c: char) { forall i | 0 <= i < |s| :: s[i] != c }

  /** What a port adds to a key. */
  function PortSuffix(u: Url): string {
    if u.port != "" && u.port != DefaultPort(ToLower(u.scheme)) then "_" + u.port else ""
  }

  function KeyBase(scheme: string, host: string): string { REMOTE_PREFIX + scheme + "_" + host }

  /** The host as keys show it. */
  function ShownHost(u: Url): string { Sanitize(ToLower(u.hostname)) }

  lemma SanitizeAppend(s: string, t: string)
    ensures Sanitize(s + t) == Sanitize(s) + Sanitize(t)
  {}

  lemma SanitizeSafe(s: string)
    requires AllSafe(s)
    ensures Sanitize(s) == s
  {}

  lemma WebKey(u: Url)
    requires WebUrl(u)
    ensures KeyFromUrl(u) == KeyBase(ToLower(u.scheme), ShownHost(u) + PortSuffix(u))
  {
    var host, prefix := ToLower(u.hostname), REMOTE_PREFIX + ToLower(u.scheme) + "_";
    if PortSuffix(u) == "" { assert host + "" == host; } else { assert host + "_" + u.port == host + PortSuffix(u); }
    SanitizeAppend(prefix, host + PortSuffix(u));
    SanitizeAppend(host, PortSuffix(u));
    SanitizeSafe(prefix);
    SanitizeSafe(PortSuffix(u));
  }

  lemma OrdinaryHost(u: Url)
    requires Ordinary(u)
    ensures ShownHost(u) == ToLower(u.hostname)
  {
    var host := ToLower(u.hostname);
    assert forall i | 0 <= i < |host| :: Safe(u.hostname[i]) && Safe(host[i]);
  }

  /** Two texts that end the same way after their last underscores split the same way. */
  lemma SplitLast(a: string, p: string, b: string, q: string)
    requires Without(p, '_') && Without(q, '_') && a + "_" + p == b + "_" + q
    ensures a == b && p == q
  {
    var s, t := a + "_" + p, b + "_" + q;
    assert s[|a|] == '_' && t[|b|] == '_';
    assert forall i | |a| < i < |s| :: s[i] == p[i - |a| - 1];
    assert forall i | |b| < i < |t| :: t[i] == q[i - |b| - 1];
    assert a == s[..|a|] && b == t[..|b|] && p == s[|a| + 1..] && q == t[|b| + 1..];
  }

  lemma BaseSplits(s: string, h: string, t: string, g: string)
    requires (s == "http" || s == "https") && (t == "http" || t == "https")
    ensures KeyBase(s, h) == KeyBase(t, g) <==> s == t && h == g
  {
    var a, b := KeyBase(s, h), KeyBase(t, g);
    assert a[8] == (if s == "http" then '_' else 's') && b[8] == (if t == "http" then '_' else 's');
    assert h == a[|s| + 5..] && g == b[|t| + 5..];
  }

  predicate SameScheme(u: Url, v: Url) { ToLower(u.scheme) == ToLower(v.scheme) }

  /** u's host followed by u's explicit port reads like v's host. */
  predicate HostReadsAsPort(u: Url, v: Url) {
    SameScheme(u, v) && PortSuffix(u) != "" && PortSuffix(v) == "" && ShownHost(v) == ShownHost(u) + PortSuffix(u)
  }

  /** Two hosts read alike, on one port. */
  predicate HostsReadAlike(u: Url, v: Url) {
    && SameScheme(u, v) && PortSuffix(u) == PortSuffix(v)
    && ToLower(u.hostname) != ToLower(v.hostname) && ShownHost(u) == ShownHost(v)
  }

  predicate Confusable(u: Url, v: Url) { HostReadsAsPort(u, v) || HostReadsAsPort(v, u) || HostsReadAlike(u, v) }

  lemma SameSuffixIffSamePort(u: Url, v: Url)
    requires WebUrl(u) && WebUrl(v) && SameScheme(u, v)
    ensures PortSuffix(u) == PortSuffix(v) <==> EndpointOf(u).port == EndpointOf(v).port
  {
    if PortSuffix(u) != "" { assert u.port == PortSuffix(u)[1..]; }
    if PortSuffix(v) != "" { assert v.port == PortSuffix(v)[1..]; }
  }

  lemma SplitHostAndPort(h: string, p: string, g: string, q: string)
    requires Without(p, '_') && Without(q, '_') && h + ("_" + p) == g + ("_" + q)
    ensures h == g && p == q
  {
    assert h + "_" + p == h + ("_" + p) && g + "_" + q == g + ("_" + q);
    SplitLast(h, p, g, q);
  }

  lemma SameShownIff(u: Url, v: Url)
    requires WebUrl(u) && WebUrl(v) && SameScheme(u, v)
    ensures ShownHost(u) + PortSuffix(u) == ShownHost(v) + PortSuffix(v) <==>
            HostReadsAsPort(u, v) || HostReadsAsPort(v, u) || (ShownHost(u) == ShownHost(v) && PortSuffix(u) == PortSuffix(v))
  {
    var h, g := ShownHost(u), ShownHost(v);
    if PortSuffix(u) != "" && PortSuffix(v) != "" {
      if h + PortSuffix(u) == g + PortSuffix(v) { SplitHostAndPort(h, u.port, g, v.port); }
    } else {
      assert h + "" == h && g + "" == g;
    }
  }

  /** Two web URLs get one key exactly when they are one server or one is taken for the
      other. */
  lemma SameUrlKeyIff(u: Url, v: Url)
    requires WebUrl(u) && WebUrl(v)
    ensures KeyFromUrl(u) == KeyFromUrl(v) <==> EndpointOf(u) == EndpointOf(v) || Confusable(u, v)
  {
    WebKey(u);
    WebKey(v);
    BaseSplits(ToLower(u.scheme), ShownHost(u) + PortSuffix(u), ToLower(v.scheme), ShownHost(v) + PortSuffix(v));
    if SameScheme(u, v) {
      SameShownIff(u, v);
      SameSuffixIffSamePort(u, v);
    }
  }

  /** The text of a URL, as against the reserved local names. */
  predicate IsUrlText(server: string) { server != "" && server != LOCAL }

  lemma ConfusableAreTwoServers(u: Url, v: Url)
    requires WebUrl(u) && WebUrl(v) && Confusable(u, v)
    ensures EndpointOf(u) != EndpointOf(v)
  {
    if SameScheme(u, v) { SameSuffixIffSamePort(u, v); }
  }

  /** So sharing a key means being one server exactly when neither is taken for the other,
      whatever the hosts. */
  lemma KeysTellServersApartIff(server: string, u: Url, server': string, v: Url)
    requires IsUrlText(server) && IsUrlText(server') && WebUrl(u) && WebUrl(v)
    ensures (SanitizeServerKey(server, Some(u)) == SanitizeServerKey(server', Some(v)) <==> EndpointOf(u) == EndpointOf(v))
            <==> !Confusable(u, v)
  {
    SameUrlKeyIff(u, v);
    if Confusable(u, v) { ConfusableAreTwoServers(u, v); }
  }

  /** With hosts that sanitising leaves alone, only the port can be misread. */
  lemma SameKeyIffSameServerIff(server: string, u: Url, server': string, v: Url)
    requires IsUrlText(server) && IsUrlText(server') && Ordinary(u) && Ordinary(v)
    ensures (SanitizeServerKey(server, Some(u)) == SanitizeServerKey(server', Some(v)) <==> EndpointOf(u) == EndpointOf(v))
            <==> !HostReadsAsPort(u, v) && !HostReadsAsPort(v, u)
  {
    OrdinaryHost(u);
    OrdinaryHost(v);
    KeysTellServersApartIff(server, u, server', v);
  }

  lemma PlainHostIsNoPort(u: Url, v: Url)
    requires Plain(v)
    ensures !HostReadsAsPort(u, v)
  {
    OrdinaryHost(v);
    var host := ToLower(v.hostname);
    assert forall i | 0 <= i < |host| :: v.hostname[i] != '_' && host[i] != '_';
    assert PortSuffix(u) != "" ==> (ShownHost(u) + PortSuffix(u))[|u.hostname|] == '_';
  }

  /** Two servers given by plain URLs get one key exactly when they are one server. */
  lemma SameKeyIffSameServer(server: string, u: Url, server': string, v: Url)
    requires IsUrlText(server) && IsUrlText(server') && Plain(u) && Plain(v)
    ensures SanitizeServerKey(server, Some(u)) == SanitizeServerKey(server', Some(v)) <==> EndpointOf(u) == EndpointOf(v)
  {
    PlainHostIsNoPort(u, v);
    PlainHostIsNoPort(v, u);
    SameKeyIffSameServerIff(server, u, server', v);
  }

  /** Which server a web URL reaches, in plain values: 443 is the port of https and 80
      that of http, unless the URL has one. */
  lemma EndpointByValue(u: Url)
    requires WebUrl(u)
    ensures EndpointOf(u).host == ToLower(u.hostname) && EndpointOf(u).scheme == ToLower(u.scheme)
    ensures u.port != "" ==> EndpointOf(u).port == u.port
    ensures u.port == "" ==> EndpointOf(u).port == if ToLower(u.scheme) == "https" then "443" else "80"
  {}

  /** https://h and https://h:443 share a key and https://h and https://h:80 do not;
      for http it is the other way round. */
  lemma DefaultPortIsNormalised(scheme: string, host: string, h: string)
    requires (scheme == "https" || scheme == "http") && Plain(Url(scheme, "", host, h, ""))
    ensures var bare, u443, u80 := Url(scheme, "", host, h, ""), Url(scheme, "", host, h, "443"), Url(scheme, "", host, h, "80");
            && (KeyFromUrl(bare) == KeyFromUrl(u443) <==> scheme == "https")
            && (KeyFromUrl(bare) == KeyFromUrl(u80) <==> scheme == "http")
  {
    assert ToLower("https") == "https" && ToLower("http") == "http";
    var bare, u443, u80 := Url(scheme, "", host, h, ""), Url(scheme, "", host, h, "443"), Url(scheme, "", host, h, "80");
    assert Plain(u443) && Plain(u80);
    SameKeyIffSameServer("u", bare, "u", u443);
    SameKeyIffSameServer("u", bare, "u", u80);
  }

  /** What the key of a plain URL looks like. */
  lemma PlainKeyByValue(u: Url)
    requires Plain(u)
    ensures KeyFromUrl(u) == "srv_" + ToLower(u.scheme) + "_" + ToLower(u.hostname) + PortSuffix(u)
    ensures PortSuffix(u) == if u.port == "" || EndpointOf(u).port == EndpointOf(u.(port := "")).port then "" else "_" + u.port
  {
    WebKey(u);
    OrdinaryHost(u);
    var prefix := "srv_" + ToLower(u.scheme) + "_";
    assert prefix + (ToLower(u.hostname) + PortSuffix(u)) == prefix + ToLower(u.hostname) + PortSuffix(u);
  }

  predicate Letter(c: char) { 'a' <= c <= 'z' || 'A' <= c <= 'Z' }

  /** Every host of letters, digits, dots and hyphens is plain. */
  lemma DnsHostIsPlain(u: Url)
    requires WebUrl(u) && u.hostname != ""
    requires forall i | 0 <= i < |u.hostname| ::
               Letter(u.hostname[i]) || '0' <= u.hostname[i] <= '9' || u.hostname[i] == '.' || u.hostname[i] == '-'
    ensures Plain(u)
  {}

  /** Letters, digits, dots, underscores and hyphens are kept in file names, nothing else
      is, and everything else reads as an underscore. */
  lemma SanitizeByValue(s: string, i: nat)
    requires i < |s|
    ensures Sanitize(s)[i] ==
            if Letter(s[i]) || '0' <= s[i] <= '9' || s[i] == '.' || s[i] == '_' || s[i] == '-' then s[i] else '_'
  {}

  /** One letter in both cases, or one character. */
  predicate SameLetter(c: char, d: char) {
    c == d || ('A' <= c <= 'Z' && d == c - 'A' + 'a') || ('A' <= d <= 'Z' && c == d - 'A' + 'a')
  }

  predicate SameLetters(s: string, t: string) { |s| == |t| && forall i | 0 <= i < |s| :: SameLetter(s[i], t[i]) }

  lemma SameLettersLower(s: string, t: string)
    requires SameLetters(s, t)
    ensures ToLower(s) == ToLower(t)
  {}

  /** Neither the case of scheme and host nor who is logging in makes another server. */
  lemma CaseAndUserDoNotMatter(u: Url, v: Url)
    requires SameLetters(u.scheme, v.scheme) && SameLetters(u.hostname, v.hostname) && u.port == v.port
    ensures KeyFromUrl(u) == KeyFromUrl(v)
  {
    SameLettersLower(u.scheme, v.scheme);
    SameLettersLower(u.hostname, v.hostname);
  }

  /** Only the two local names get the local key. */
  lemma LocalKeyIff(server: string, parsed: Option<Url>)
    ensures SanitizeServerKey(server, parsed) == "local" <==> server == "" || server == "local"
  {
    if parsed.Some? { KeyIsRemote(parsed.value); }
    if server != "" && server != "local" { assert SanitizeServerKey(server, parsed)[0] == 's'; }
  }

  /** Whatever the host, one server always has one key, and it starts like no local name. */
  lemma SameServerSameKey(u: Url, v: Url)
    requires EndpointOf(u) == EndpointOf(v)
    ensures KeyFromUrl(u) == KeyFromUrl(v)
  {}

  lemma KeyIsRemote(u: Url)
    ensures REMOTE_PREFIX <= KeyFromUrl(u) && AllSafe(KeyFromUrl(u))
  {
    assert forall i | 0 <= i < 4 :: Safe(REMOTE_PREFIX[i]);
  }

  /** No key is empty or has the pointer's separator in it. */
  lemma KeysAreProper(server: string, parsed: Option<Url>)
    ensures var key := SanitizeServerKey(server, parsed); key != "" && Without(key, '|')
  {
    if parsed.Some? { KeyIsRemote(parsed.value); }
  }

  /* ---------- which names are unambiguous ---------- */

  predicate DoubleUnderscoreAt(s: string, i: int) {
    0 <= i < |s| - 1 && s[i] == '_' && s[i + 1] == '_'
  }

  predicate NoDoubleUnderscore(s: string) { forall i | 0 <= i < |s| :: !DoubleUnderscoreAt(s, i) }

  /** A key that cannot run into the separators that follow it. */
  predicate GoodKey(key: string) {
    key != "" && key[|key| - 1] != '_' && NoDoubleUnderscore(key) && Without(key, '|')
  }

  lemma JoinGoodKey(a: string, b: string)
    requires GoodKey(a) && b != "" && Without(b, '_') && Without(b, '|')
    ensures GoodKey(a + "_" + b)
  {
    var s := a + "_" + b;
    assert s[|a|] == '_';
    forall i ensures !DoubleUnderscoreAt(s, i) {
      assert i + 1 < |a| ==> DoubleUnderscoreAt(s, i) == DoubleUnderscoreAt(a, i);
      assert |a| <= i < |s| - 1 ==> s[i + 1] == b[i - |a|];
    }
  }

  lemma PlainPartsHaveNoSeparators(u: Url)
    requires Plain(u)
    ensures Without(ToLower(u.hostname), '_') && Without(ToLower(u.hostname), '|') && ToLower(u.hostname) != ""
    ensures Without(u.port, '_') && Without(u.port, '|')
  {
    var host := ToLower(u.hostname);
    assert forall i | 0 <= i < |host| :: Safe(u.hostname[i]) && u.hostname[i] != '_' && host[i] == LowerChar(u.hostname[i]);
  }

  lemma BaseIsGood(scheme: string, host: string)
    requires scheme == "http" || scheme == "https"
    requires host != "" && Without(host, '_') && Without(host, '|')
    ensures GoodKey(KeyBase(scheme, host))
  {
    JoinGoodKey("srv", scheme);
    JoinGoodKey("srv_" + scheme, host);
  }

  lemma PlainUrlKeyIsGood(u: Url)
    requires Plain(u)
    ensures GoodKey(KeyFromUrl(u)) && KeyFromUrl(u) != LOCAL
  {
    WebKey(u);
    OrdinaryHost(u);
    PlainPartsHaveNoSeparators(u);
    BaseWithPortIsGood(ToLower(u.scheme), ToLower(u.hostname), u.port);
    if PortSuffix(u) == "" { assert ShownHost(u) + "" == ShownHost(u); }
    assert KeyFromUrl(u)[0] == 's';
  }

  lemma BaseWithPortIsGood(scheme: string, host: string, port: string)
    requires scheme == "http" || scheme == "https"
    requires host != "" && Without(host, '_') && Without(host, '|') && Without(port, '_') && Without(port, '|')
    ensures GoodKey(KeyBase(scheme, host)) && (port != "" ==> GoodKey(KeyBase(scheme, host + ("_" + port))))
  {
    BaseIsGood(scheme, host);
    if port != "" {
      JoinGoodKey(KeyBase(scheme, host), port);
      assert KeyBase(scheme, host + ("_" + port)) == KeyBase(scheme, host) + "_" + port;
    }
  }

  /** The keys of plain URLs, and the reserved local key, are good and never meet. */
  lemma PlainKeysAreGood(server: string, u: Url)
    requires IsUrlText(server) && Plain(u)
    ensures GoodKey(SanitizeServerKey(server, Some(u))) && SanitizeServerKey(server, Some(u)) != LOCAL
    ensures GoodKey(LOCAL)
  {
    LocalKeyIsGood();
    PlainUrlKeyIsGood(u);
    assert SanitizeServerKey(server, Some(u)) == KeyFromUrl(u);
  }

  lemma LocalKeyIsGood()
    ensures GoodKey(LOCAL)
  {}

  /** A file name determines its key and its sanitised username. */
  lemma FileNameInjective(k1: string, u1: string, k2: string, u2: string)
    requires GoodKey(k1) && GoodKey(k2)
    ensures FileName(k1, u1) == FileName(k2, u2) <==> k1 == k2 && Sanitize(u1) == Sanitize(u2)
  {
    if FileName(k1, u1) == FileName(k2, u2) {
      if |k1| <= |k2| { KeyIsPrefix(k1, u1, k2, u2); } else { KeyIsPrefix(k2, u2, k1, u1); }
      var tail1, tail2 := Sanitize(u1) + ".json", Sanitize(u2) + ".json";
      assert FileName(k1, u1) == k1 + "__" + tail1 && FileName(k2, u2) == k2 + "__" + tail2;
      assert tail1 == FileName(k1, u1)[|k1| + 2..] && tail2 == FileName(k2, u2)[|k2| + 2..];
      assert Sanitize(u1) == tail1[..|tail1| - 5] && Sanitize(u2) == tail2[..|tail2| - 5];
    }
  }

  lemma KeyIsPrefix(k1: string, u1: string, k2: string, u2: string)
    requires GoodKey(k1) && GoodKey(k2) && |k1| <= |k2|
    requires FileName(k1, u1) == FileName(k2, u2)
    ensures k1 == k2
  {
    var f := FileName(k1, u1);
    assert f[..|k1|] == k1 && FileName(k2, u2)[..|k2|] == k2;
    if |k1| < |k2| {
      assert f[|k1|] == '_' && f[|k1| + 1] == '_';
      assert k2[|k1|] == '_';
      assert |k1| + 1 < |k2| ==> DoubleUnderscoreAt(k2, |k1|);
      assert false;
    }
  }

  /** A legacy name never is a new-format name, nor either one the pointer's. */
  lemma NamesDisjoint(user: string, key: string, user': string)
    requires NoDoubleUnderscore(Sanitize(user))
    ensures LegacyName(user) != FileName(key, user')
    ensures LegacyName(user) != CURRENT && FileName(key, user') != CURRENT
  {
    var f, g := FileName(key, user'), LegacyName(user);
    assert DoubleUnderscoreAt(f, |key|);
    if f == g {
      assert g[|key|] == '_' && g[|key| + 1] == '_';
      assert |key| + 1 < |Sanitize(user)|;
      assert DoubleUnderscoreAt(Sanitize(user), |key|);
      assert false;
    }
    assert f[|f| - 1] == 'n' && g[|g| - 1] == 'n';
  }

  /** Every text reads as a pointer in one way: up to its first bar and after it, or, with
      no bar, as a local username. */
  lemma ParsePointerIff(text: string, key: string, user: string)
    ensures ParsePointer(text) == (key, user) <==>
            (Without(key, '|') && text == key + "|" + user) || (key == "local" && Without(text, '|') && text == user)
  {
    if Without(key, '|') && text == key + "|" + user { ParsePointerOfPointer(key, user); }
    var i := FirstBar(text, 0);
    if i < |text| { assert text == text[..i] + "|" + text[i + 1..]; }
  }

  /** Reading back a pointer gives the key and username it was written for. */
  lemma ParsePointerOfPointer(key: string, user: string)
    requires Without(key, '|')
    ensures ParsePointer(Pointer(key, user)) == (key, user)
  {
    var text := Pointer(key, user);
    assert text[|key|] == '|';
    assert forall j | 0 <= j < |key| :: text[j] == key[j];
    assert FirstBar(text, 0) == |key|;
    assert text[..|key|] == key && text[|key| + 1..] == user;
  }

  /* ---------- which keys share file names ---------- */

  /** The longer key reads like the shorter one, its separator and part of a username. */
  predicate RunsInto(shorter: string, longer: string) {
    || longer == shorter + "_"
    || (shorter + "__" <= longer && AllSafe(longer[|shorter| + 2..]))
  }

  /** Two keys for which some users' session files have one name. */
  predicate KeysMeet(k: string, k': string) { k == k' || RunsInto(k, k') || RunsInto(k', k) }

  ghost predicate ShareAName(k: string, k': string) {
    exists u, u' :: FileName(k, u) == FileName(k', u')
  }

  lemma SharedNameRunsInto(k: string, u: string, k': string, u': string)
    requires FileName(k, u) == FileName(k', u') && |k| < |k'|
    ensures RunsInto(k, k')
  {
    var f, f' := FileName(k, u), FileName(k', u');
    assert k == f[..|k|] && k' == f'[..|k'|];
    var rest := k'[|k|..];
    assert k' == k + rest && rest[0] == f[|k|] == '_';
    if |rest| == 1 {
      assert rest == "_";
    } else {
      assert rest[1] == f[|k| + 1] == '_';
      assert k + "__" == k'[..|k| + 2];
      TailIsSafe(k, u, k', u');
    }
  }

  lemma TailIsSafe(k: string, u: string, k': string, u': string)
    requires FileName(k, u) == FileName(k', u') && |k| + 2 <= |k'|
    ensures AllSafe(k'[|k| + 2..])
  {
    var f, tail := FileName(k, u), k'[|k| + 2..];
    assert forall i | 0 <= i < |tail| :: tail[i] == FileName(k', u')[|k| + 2 + i] == f[|k| + 2 + i] == Sanitize(u)[i];
  }

  /** Users with names of their own for whom two such keys share a file. */
  lemma RunsIntoSharesName(k: string, k': string) returns (u: string, u': string)
    requires RunsInto(k, k')
    ensures FileName(k, u) == FileName(k', u') && u != "" && u' != ""
  {
    u' := "a";
    if k' == k + "_" {
      u := "_a";
      assert Sanitize("_a") == "_" + Sanitize("a");
      assert k + "__" + ("_" + Sanitize("a")) + ".json" == (k + "_") + "__" + Sanitize("a") + ".json";
    } else {
      var rest := k'[|k| + 2..];
      u := rest + "__a";
      assert k' == k + "__" + rest;
      assert Sanitize(u) == rest + "__" + Sanitize("a");
      assert k + "__" + (rest + "__" + Sanitize("a")) + ".json" == (k + "__" + rest) + "__" + Sanitize("a") + ".json";
    }
  }

  lemma MeetingKeysShareName(k: string, k': string) returns (u: string, u': string)
    requires KeysMeet(k, k')
    ensures FileName(k, u) == FileName(k', u') && u != "" && u' != ""
  {
    if k == k' { u, u' := "a", "a"; }
    else if RunsInto(k, k') { u, u' := RunsIntoSharesName(k, k'); }
    else { u', u := RunsIntoSharesName(k', k); }
  }

  /** Some session file is shared exactly by two keys that meet. */
  lemma ShareANameIff(k: string, k': string)
    ensures ShareAName(k, k') <==> KeysMeet(k, k')
  {
    if KeysMeet(k, k') { var u, u' := MeetingKeysShareName(k, k'); }
    if ShareAName(k, k') {
      var u, u' :| FileName(k, u) == FileName(k', u');
      if |k| < |k'| { SharedNameRunsInto(k, u, k', u'); }
      else if |k'| < |k| { SharedNameRunsInto(k', u', k, u); }
      else { assert k == FileName(k, u)[..|k|] && k' == FileName(k', u')[..|k'|]; }
    }
  }

  lemma GoodKeysDoNotMeet(k: string, k': string)
    requires GoodKey(k) && GoodKey(k') && k != k'
    ensures !KeysMeet(k, k')
  {
    if KeysMeet(k, k') {
      var u, u' := MeetingKeysShareName(k, k');
      FileNameInjective(k, u, k', u');
    }
  }

  /** http://h and http://h_ are two servers with two keys that meet. */
  lemma UnderscoreHostSharesNames()
    ensures var u, v := Url("http", "", "h", "h", ""), Url("http", "", "h_", "h_", "");
            && Ordinary(u) && Ordinary(v) && EndpointOf(u) != EndpointOf(v)
            && KeyFromUrl(u) != KeyFromUrl(v) && RunsInto(KeyFromUrl(u), KeyFromUrl(v))
  {
    var u, v := Url("http", "", "h", "h", ""), Url("http", "", "h_", "h_", "");
    assert ToLower("http") == "http" && ToLower("h") == "h" && ToLower("h_") == "h" + "_";
    WebKey(u);
    WebKey(v);
    assert ShownHost(u) + "" == "h" && ShownHost(v) + "" == "h_";
    assert KeyBase("http", "h_") == KeyBase("http", "h") + "_";
  }

  /** https://h:8443 and https://h_8443 are two servers with one key. */
  lemma UnderscoreHostSharesKey()
    ensures var u, v := Url("https", "", "h:8443", "h", "8443"), Url("https", "", "h_8443", "h_8443", "");
            && Ordinary(u) && Ordinary(v) && EndpointOf(u) != EndpointOf(v)
            && KeyFromUrl(u) == KeyFromUrl(v)
  {
    var u, v := Url("https", "", "h:8443", "h", "8443"), Url("https", "", "h_8443", "h_8443", "");
    assert ToLower("https") == "https" && ShownHost(u) == "h" && ShownHost(v) == "h" + "_8443";
    assert HostReadsAsPort(u, v);
    SameUrlKeyIff(u, v);
  }

  /** So are https://[::1]:8443 and https://[::1:8443], without any underscore. */
  lemma Ipv6HostSharesKey()
    ensures var u, v := Url("https", "", "[::1]:8443", "::1", "8443"), Url("https", "", "[::1:8443]", "::1:8443", "");
            && WebUrl(u) && WebUrl(v) && EndpointOf(u) != EndpointOf(v)
            && KeyFromUrl(u) == KeyFromUrl(v)
  {
    var u, v := Url("https", "", "[::1]:8443", "::1", "8443"), Url("https", "", "[::1:8443]", "::1:8443", "");
    assert ToLower("https") == "https" && ShownHost(u) == "__1" && ShownHost(v) == "__1" + "_8443";
    assert HostReadsAsPort(u, v);
    SameUrlKeyIff(u, v);
  }

  /** Two usernames can share a sanitised form, and so a file. */
  lemma UsersCanMeet()
    ensures FileName(LOCAL, "u@h") == FileName(LOCAL, "u_h")
  {
    assert Sanitize("u@h") == "u_h" && Sanitize("u_h") == "u_h";
  }
}
