/**
 The OIDC login and callback handlers (api/oidc.go) and the browser's cookies between
 them.  The browser applies each response before its next request; cookies may expire at
 any time, one by one; callback parameters are arbitrary.
 */
module OidcFlow {
  import opened Basics
  import opened CliExchange
  import opened ServerKey

  const STATE := "oidc_state"
  const NONCE := "oidc_nonce"
  const PKCE := "oidc_pkce"
  const CLI_REDIRECT := "oidc_cli_redirect"

  /** What net/http keeps of a cookie's value. */
  predicate CookieChar(c: char) { ' ' <= c <= '~' && c != '"' && c != ';' && c != '\\' }

  predicate CookieSafe(s: string) { forall i | 0 <= i < |s| :: CookieChar(s[i]) }

  function CookieValue(s: string): (r: string)
    ensures CookieSafe(r) && |r| <= |s|
  {
    if s == "" then "" else (if CookieChar(s[0]) then [s[0]] else "") + CookieValue(s[1..])
  }

  lemma {:induction false} CookieKeepsIff(s: string)
    ensures CookieValue(s) == s <==> CookieSafe(s)
  {
    if s != "" {
      CookieKeepsIff(s[1..]);
      assert s == [s[0]] + s[1..];
      if CookieValue(s) == s { assert |CookieValue(s)| == |s|; }
    }
  }

  lemma {:induction false} CookieDropsSemicolon(s: string, t: string)
    requires CookieSafe(s) && CookieSafe(t)
    ensures CookieValue(s + ";" + t) == s + t
  {
    if s == "" {
      CookieKeepsIff(t);
      assert "" + ";" + t == [';'] + t;
    } else {
      CookieDropsSemicolon(s[1..], t);
      assert (s + ";" + t)[1..] == s[1..] + ";" + t;
      assert s + t == [s[0]] + (s[1..] + t);
    }
  }

  /** Hex or base64url, as the random values are. */
  type CookieText = s: string | CookieSafe(s)

  datatype Cookie = Set(name: string, value: string) | Clear(name: string)

  type Jar = map<string, string>

  function Apply(jar: Jar, cookies: seq<Cookie>): Jar
    decreases |cookies|
  {
    if cookies == [] then jar else Apply(ApplyOne(jar, cookies[0]), cookies[1..])
  }

  function ApplyOne(jar: Jar, c: Cookie): Jar {
    match c case Set(n, v) => jar[n := CookieValue(v)] case Clear(n) => jar - {n}
  }

  /** Only plain HTTP on the loopback with an explicit port; empty asks for none. */
  function ValidateCLIRedirectURI(raw: string, parse: string -> Option<Url>): Option<string> {
    if raw == "" then Some("") else
      var u := parse(raw);
      if u.None? || u.value.scheme != "http" then None
      else if u.value.hostname != "127.0.0.1" && u.value.hostname != "localhost" then None
      else if u.value.port == "" then None
      else Some(raw)
  }

  /** What the random source yields to a login; None when it fails. */
  datatype Randomness = Randomness(state: Option<CookieText>, nonce: Option<CookieText>, verifier: CookieText)

  datatype UserLookup = UserFound | UserDenied | UserError

  datatype SessionIssue = Issued(response: LoginResponse) | AuditUnavailable | IssueError

  /** The services a callback reaches, and how they answer it. */
  datatype Backend = Backend(userService: bool, authService: bool, identityOk: bool, user: UserLookup,
                             session: SessionIssue, code: Option<string>, now: int)

  /** The exchange of the authorization code with the provider. */
  datatype Exchange = Exchange(state: string, code: string, nonce: string, verifier: string)

  datatype Body = Status(status: nat) | ToProvider(state: string, nonce: string, verifier: string)
                | Json(response: LoginResponse) | ToCli(uri: string, code: string)

  /** A response, with what was done to make it: the call to HandleCallback, if any, and
      whether a session was issued. */
  datatype Reply = Reply(cookies: seq<Cookie>, body: Body, exchange: Option<Exchange>, issued: bool)

  datatype Visit =
    | Login(cliRedirect: string, random: Randomness)
    | Callback(state: string, code: string, backend: Backend)
    | Expire(name: string)

  const CLEAR_ALL: seq<Cookie> := [Clear(STATE), Clear(NONCE), Clear(PKCE), Clear(CLI_REDIRECT)]

  function Refusal(cookies: seq<Cookie>, status: nat, exchange: Option<Exchange>): Reply {
    Reply(cookies, Status(status), exchange, false)
  }

  function OnLogin(configured: bool, parse: string -> Option<Url>, cliRedirect: string, r: Randomness): Reply {
    var uri := ValidateCLIRedirectURI(cliRedirect, parse);
    if !configured then Refusal([], 503, None)
    else if uri.None? then Refusal([], 400, None)
    else if r.state.None? || r.nonce.None? then Refusal([], 500, None)
    else
      Reply([Set(STATE, r.state.value), Set(NONCE, r.nonce.value), Set(PKCE, r.verifier)]
            + (if uri.value == "" then [] else [Set(CLI_REDIRECT, uri.value)]),
            ToProvider(r.state.value, r.nonce.value, r.verifier), None, false)
  }

  function OnCallback(configured: bool, parse: string -> Option<Url>, jar: Jar, state: string, code: string, b: Backend): Reply {
    if !configured then Refusal([], 503, None)
    else if STATE !in jar || NONCE !in jar || PKCE !in jar then Refusal(CLEAR_ALL, 400, None)
    else
      var uri := if CLI_REDIRECT in jar then ValidateCLIRedirectURI(jar[CLI_REDIRECT], parse) else Some("");
      if uri.None? || jar[STATE] == "" || state != jar[STATE] || code == "" then Refusal(CLEAR_ALL, 400, None)
      else
        var x := Some(Exchange(state, code, jar[NONCE], jar[PKCE]));
        if !b.identityOk then Refusal(CLEAR_ALL, 401, x)
        else if !b.userService then Refusal(CLEAR_ALL, 500, x)
        else if b.user != UserFound then Refusal(CLEAR_ALL, if b.user == UserDenied then 403 else 500, x)
        else if !b.authService then Refusal(CLEAR_ALL, 500, x)
        else match b.session
          case AuditUnavailable => Refusal(CLEAR_ALL, 503, x)
          case IssueError => Refusal(CLEAR_ALL, 500, x)
          case Issued(response) =>
            Reply(CLEAR_ALL,
                  if uri.value == "" then Json(response)
                  else if b.code.None? then Status(500)
                  else ToCli(uri.value, b.code.value),
                  x, true)
  }

  /* ---------- what the handlers answer ---------- */

  /** Every service lets the callback through, and the user was found: not denied, and
      not just without an error. */
  predicate Grants(b: Backend) {
    b.identityOk && b.userService && b.user == UserFound && b.authService && b.session.Issued?
  }

  /** A login sends the browser to the provider exactly when nothing stands in the way,
      and what it sends is what was drawn. */
  lemma LoginStartsIff(configured: bool, parse: string -> Option<Url>, cliRedirect: string, r: Randomness)
    ensures var reply := OnLogin(configured, parse, cliRedirect, r);
            && (reply.body.ToProvider? <==>
                  && configured && r.state.Some? && r.nonce.Some?
                  && (cliRedirect != "" ==> ValidateCLIRedirectURI(cliRedirect, parse).Some?))
            && (reply.body.ToProvider? ==> reply.body == ToProvider(r.state.value, r.nonce.value, r.verifier))
            && (!reply.body.ToProvider? ==> reply.cookies == [] && reply.body.Status?)
            && !reply.issued && reply.exchange.None?
            && (reply.body == Status(503) <==> !configured)
            && (reply.body == Status(400) <==> configured && cliRedirect != "" && ValidateCLIRedirectURI(cliRedirect, parse).None?)
  {}

  /** The provider is asked exactly when every cookie is there, the state is the non-empty
      one of its cookie, there is a code, and any redirect cookie is acceptable. */
  lemma ProviderAskedIff(configured: bool, parse: string -> Option<Url>, jar: Jar, state: string, code: string, b: Backend)
    ensures OnCallback(configured, parse, jar, state, code, b).exchange.Some? <==>
            && configured && STATE in jar && NONCE in jar && PKCE in jar
            && jar[STATE] != "" && state == jar[STATE] && code != ""
            && (CLI_REDIRECT in jar ==> ValidateCLIRedirectURI(jar[CLI_REDIRECT], parse).Some?)
  {}

  /** A session is issued exactly when the provider was asked and everyone agreed. */
  lemma SessionIssuedIff(configured: bool, parse: string -> Option<Url>, jar: Jar, state: string, code: string, b: Backend)
    ensures var r := OnCallback(configured, parse, jar, state, code, b);
            && (r.issued <==> r.exchange.Some? && Grants(b))
            && (r.issued ==> r.body == Json(b.session.response) || (r.body.ToCli? && Some(r.body.code) == b.code)
                             || (r.body == Status(500) && b.code.None?))
  {}

  /** And which refusal is answered otherwise; a user the policy denies gets 403. */
  lemma RefusalIff(configured: bool, parse: string -> Option<Url>, jar: Jar, state: string, code: string, b: Backend)
    ensures var r := OnCallback(configured, parse, jar, state, code, b);
            var identified := r.exchange.Some? && b.identityOk && b.userService;
            && (r.body == Status(400) <==> configured && r.exchange.None?)
            && (r.body == Status(401) <==> r.exchange.Some? && !b.identityOk)
            && (r.body == Status(403) <==> identified && b.user == UserDenied)
            && (r.body == Status(503) <==> !configured || (identified && b.user == UserFound && b.authService && b.session.AuditUnavailable?))
            && (r.body.Status? ==> r.body.status in {400, 401, 403, 500, 503})
            && (!r.issued ==> r.body.Status?)
  {}

  /* ---------- the code itself ---------- */

  class OidcHandlers {
    const configured: bool
    const parse: string -> Option<Url>
    const cliExchange: CliExchangeStore
    var cookies: seq<Cookie> // the Set-Cookie headers of the response being built

    constructor (configured: bool, parse: string -> Option<Url>)
      ensures this.configured == configured && this.parse == parse && fresh(cliExchange)
    {
      this.configured, this.parse, cookies := configured, parse, [];
      cliExchange := new CliExchangeStore();
    }

    method SetOIDCCookie(name: string, value: string)
      modifies this
      ensures cookies == old(cookies) + [Set(name, value)]
    {
      cookies := cookies + [Set(name, value)];
    }

    method ClearOIDCCookies()
      modifies this
      ensures cookies == old(cookies) + CLEAR_ALL
    {
      var names := [STATE, NONCE, PKCE, CLI_REDIRECT];
      for i := 0 to |names|
        invariant cookies == old(cookies) + CLEAR_ALL[..i]
      {
        cookies := cookies + [Clear(names[i])];
      }
    }

    method LoginHandler(cliRedirect: string, random: Randomness) returns (r: Reply)
      modifies this
      ensures r == OnLogin(configured, parse, cliRedirect, random)
    {
      cookies := [];
      if !configured { return Refusal(cookies, 503, None); }
      var uri := ValidateCLIRedirectURI(cliRedirect, parse);
      if uri.None? { return Refusal(cookies, 400, None); }
      if random.state.None? { return Refusal(cookies, 500, None); }
      if random.nonce.None? { return Refusal(cookies, 500, None); }
      SetOIDCCookie(STATE, random.state.value);
      SetOIDCCookie(NONCE, random.nonce.value);
      SetOIDCCookie(PKCE, random.verifier);
      if uri.value != "" { SetOIDCCookie(CLI_REDIRECT, uri.value); }
      return Reply(cookies, ToProvider(random.state.value, random.nonce.value, random.verifier), None, false);
    }

    method CallbackHandler(request: Jar, state: string, code: string, b: Backend) returns (r: Reply)
      modifies this, cliExchange
      ensures r == OnCallback(configured, parse, request, state, code, b)
      ensures cliExchange.entries ==
              if r.body.ToCli? then
                After(old(cliExchange.entries), Put(r.body.code, b.session.response, b.now))
              else old(cliExchange.entries)
    {
      cookies := [];
      if !configured { return Refusal(cookies, 503, None); }
      ClearOIDCCookies();
      if STATE !in request { return Refusal(cookies, 400, None); }
      if NONCE !in request { return Refusal(cookies, 400, None); }
      if PKCE !in request { return Refusal(cookies, 400, None); }
      var cliRedirectURI := "";
      if CLI_REDIRECT in request {
        var validated := ValidateCLIRedirectURI(request[CLI_REDIRECT], parse);
        if validated.None? { return Refusal(cookies, 400, None); }
        cliRedirectURI := validated.value;
      }
      if request[STATE] == "" || state != request[STATE] { return Refusal(cookies, 400, None); }
      if code == "" { return Refusal(cookies, 400, None); }
      var x := Some(Exchange(state, code, request[NONCE], request[PKCE]));
      if !b.identityOk { return Refusal(cookies, 401, x); }
      if !b.userService { return Refusal(cookies, 500, x); }
      if b.user == UserDenied { return Refusal(cookies, 403, x); }
      if b.user == UserError { return Refusal(cookies, 500, x); }
      if !b.authService { return Refusal(cookies, 500, x); }
      if b.session == AuditUnavailable { return Refusal(cookies, 503, x); }
      if b.session == IssueError { return Refusal(cookies, 500, x); }
      var response := b.session.response;
      if cliRedirectURI != "" {
        var exchangeCode := cliExchange.Put(response, b.code, b.now);
        if exchangeCode.None? { return Reply(cookies, Status(500), x, true); }
        return Reply(cookies, ToCli(cliRedirectURI, exchangeCode.value), x, true);
      }
      return Reply(cookies, Json(response), x, true);
    }

    /** The CLI redeems a code. */
    method CliExchangeHandler(code: string, now: int) returns (body: Body)
      modifies cliExchange
      ensures cliExchange.entries == if code == "" then old(cliExchange.entries) else After(old(cliExchange.entries), Consume(code, now))
      ensures body == if code == "" then Status(400)
                      else match Answer(old(cliExchange.entries), code, now) case Some(response) => Json(response) case None => Status(410)
    {
      if code == "" { return Status(400); }
      var response := cliExchange.Consume(code, now);
      if response.None? { return Status(410); }
      return Json(response.value);
    }
  }

  /* ---------- a browser's run ---------- */

  function ReplyTo(configured: bool, parse: string -> Option<Url>, jar: Jar, v: Visit): Reply {
    match v
    case Login(cli, r) => OnLogin(configured, parse, cli, r)
    case Callback(state, code, b) => OnCallback(configured, parse, jar, state, code, b)
    case Expire(_) => Reply([], Status(0), None, false)
  }

  function JarAfter(configured: bool, parse: string -> Option<Url>, visits: seq<Visit>): Jar {
    if visits == [] then map[] else
      var jar := JarAfter(configured, parse, visits[..|visits| - 1]);
      var v := visits[|visits| - 1];
      if v.Expire? then jar - {v.name} else Apply(jar, ReplyTo(configured, parse, jar, v).cookies)
  }

  /** The response to the visit at i. */
  function ReplyAt(configured: bool, parse: string -> Option<Url>, visits: seq<Visit>, i: nat): Reply
    requires i < |visits|
  {
    ReplyTo(configured, parse, JarAfter(configured, parse, visits[..i]), visits[i])
  }

  /** Visit i sent the browser to the provider, so it left a full set of cookies. */
  ghost predicate Started(configured: bool, parse: string -> Option<Url>, visits: seq<Visit>, i: int) {
    0 <= i < |visits| && visits[i].Login? && ReplyAt(configured, parse, visits, i).body.ToProvider?
  }

  /** Visit i is the latest started login, and no callback came after it. */
  ghost predicate Pending(configured: bool, parse: string -> Option<Url>, visits: seq<Visit>, i: int) {
    && Started(configured, parse, visits, i)
    && forall j | i < j < |visits| :: !visits[j].Callback? && !Started(configured, parse, visits, j)
  }

  predicate FromLogin(jar: Jar, r: Randomness) {
    && r.state.Some? && r.nonce.Some?
    && (STATE in jar ==> jar[STATE] == r.state.value)
    && (NONCE in jar ==> jar[NONCE] == r.nonce.value)
    && (PKCE in jar ==> jar[PKCE] == r.verifier)
  }

  predicate NoFlowCookies(jar: Jar) { STATE !in jar && NONCE !in jar && PKCE !in jar }

  lemma ApplyLogin(jar: Jar, r: Randomness, rest: seq<Cookie>)
    requires r.state.Some? && r.nonce.Some?
    requires rest == [] || (|rest| == 1 && rest[0].Set? && rest[0].name == CLI_REDIRECT)
    ensures FromLogin(Apply(jar, [Set(STATE, r.state.value), Set(NONCE, r.nonce.value), Set(PKCE, r.verifier)] + rest), r)
  {
    ApplyFlow(jar, r, rest);
    if rest != [] { assert rest == [rest[0]] + []; }
  }

  lemma ApplyFlow(jar: Jar, r: Randomness, rest: seq<Cookie>)
    requires r.state.Some? && r.nonce.Some?
    ensures Apply(jar, [Set(STATE, r.state.value), Set(NONCE, r.nonce.value), Set(PKCE, r.verifier)] + rest)
            == Apply(jar[STATE := r.state.value][NONCE := r.nonce.value][PKCE := r.verifier], rest)
  {
    CookieKeepsIff(r.state.value);
    CookieKeepsIff(r.nonce.value);
    CookieKeepsIff(r.verifier);
    var c1, c2, c3 := Set(STATE, r.state.value), Set(NONCE, r.nonce.value), Set(PKCE, r.verifier);
    assert [c1, c2, c3] + rest == [c1] + ([c2] + ([c3] + rest));
    ApplyCons(jar, c1, [c2] + ([c3] + rest));
    ApplyCons(ApplyOne(jar, c1), c2, [c3] + rest);
    ApplyCons(ApplyOne(ApplyOne(jar, c1), c2), c3, rest);
  }

  lemma ApplyCons(jar: Jar, c: Cookie, rest: seq<Cookie>)
    ensures Apply(jar, [c] + rest) == Apply(ApplyOne(jar, c), rest)
  {
    assert ([c] + rest)[1..] == rest;
  }

  lemma ApplyClearAll(jar: Jar)
    ensures NoFlowCookies(Apply(jar, CLEAR_ALL)) && CLI_REDIRECT !in Apply(jar, CLEAR_ALL)
  {
    assert CLEAR_ALL == [Clear(STATE)] + ([Clear(NONCE)] + ([Clear(PKCE)] + ([Clear(CLI_REDIRECT)] + [])));
    ApplyCons(jar, Clear(STATE), [Clear(NONCE)] + ([Clear(PKCE)] + ([Clear(CLI_REDIRECT)] + [])));
    ApplyCons(jar - {STATE}, Clear(NONCE), [Clear(PKCE)] + ([Clear(CLI_REDIRECT)] + []));
    ApplyCons(jar - {STATE} - {NONCE}, Clear(PKCE), [Clear(CLI_REDIRECT)] + []);
    ApplyCons(jar - {STATE} - {NONCE} - {PKCE}, Clear(CLI_REDIRECT), []);
  }

  lemma StartedEarlier(configured: bool, parse: string -> Option<Url>, visits: seq<Visit>, n: nat, i: int)
    requires i < n <= |visits|
    ensures Started(configured, parse, visits[..n], i) <==> Started(configured, parse, visits, i)
  {
    if 0 <= i { assert visits[..n][..i] == visits[..i]; }
  }

  /** A visit that starts nothing and calls nothing back leaves a pending login pending. */
  lemma PendingSurvives(configured: bool, parse: string -> Option<Url>, visits: seq<Visit>, n: nat, i: int)
    requires n + 1 == |visits| && Pending(configured, parse, visits[..n], i)
    requires !visits[n].Callback? && !Started(configured, parse, visits, n)
    ensures Pending(configured, parse, visits, i)
  {
    StartedEarlier(configured, parse, visits, n, i);
    forall j | i < j < n ensures !visits[j].Callback? && !Started(configured, parse, visits, j) {
      StartedEarlier(configured, parse, visits, n, j);
      assert visits[..n][j] == visits[j];
    }
  }

  lemma LoginSetsItsCookies(configured: bool, parse: string -> Option<Url>, visits: seq<Visit>, n: nat)
    requires n + 1 == |visits| && Started(configured, parse, visits, n)
    ensures FromLogin(JarAfter(configured, parse, visits), visits[n].random)
  {
    var r := visits[n].random;
    var uri := ValidateCLIRedirectURI(visits[n].cliRedirect, parse).value;
    ApplyLogin(JarAfter(configured, parse, visits[..n]), r, if uri == "" then [] else [Set(CLI_REDIRECT, uri)]);
  }

  /** At every point of a run, any state, nonce and PKCE cookies in the jar come from the
      one login that is still pending; without one there are none. */
  lemma {:induction false} CookiesComeFromPendingLogin(configured: bool, parse: string -> Option<Url>, visits: seq<Visit>)
    returns (i: int)
    ensures NoFlowCookies(JarAfter(configured, parse, visits)) || Pending(configured, parse, visits, i)
    ensures Pending(configured, parse, visits, i) ==> FromLogin(JarAfter(configured, parse, visits), visits[i].random)
    decreases |visits|
  {
    i := -1;
    if visits != [] {
      var n := |visits| - 1;
      var jar := JarAfter(configured, parse, visits[..n]);
      i := CookiesComeFromPendingLogin(configured, parse, visits[..n]);
      if Started(configured, parse, visits, n) {
        LoginSetsItsCookies(configured, parse, visits, n);
        i := n;
      } else if visits[n].Callback? {
        if configured {
          ApplyClearAll(jar);
        } else {
          NothingStarts(parse, visits[..n], i);
        }
        i := -1;
      } else if Pending(configured, parse, visits[..n], i) {
        PendingSurvives(configured, parse, visits, n, i);
      } else {
        i := -1;
      }
    }
  }

  lemma NothingStarts(parse: string -> Option<Url>, visits: seq<Visit>, i: int)
    ensures !Started(false, parse, visits, i)
  {}

  /** A session is issued only when the callback's state is the non-empty state of the
      login still pending, and HandleCallback gets that same login's nonce and verifier. */
  lemma SessionBelongsToPendingLogin(configured: bool, parse: string -> Option<Url>, visits: seq<Visit>, n: nat) returns (i: int)
    requires n < |visits| && ReplyAt(configured, parse, visits, n).exchange.Some?
    ensures visits[n].Callback? && Pending(configured, parse, visits[..n], i)
    ensures var r := visits[i].random;
            && r.state.value != ""
            && ReplyAt(configured, parse, visits, n).exchange
               == Some(Exchange(r.state.value, visits[n].code, r.nonce.value, r.verifier))
            && visits[n].state == r.state.value
  {
    i := CookiesComeFromPendingLogin(configured, parse, visits[..n]);
  }

  /** Each login yields at most one session: two sessions come from two logins, one
      before and one after the earlier callback. */
  lemma OneSessionPerLogin(configured: bool, parse: string -> Option<Url>, visits: seq<Visit>, m: nat, n: nat)
    returns (i: int, j: int)
    requires m < n < |visits|
    requires ReplyAt(configured, parse, visits, m).issued && ReplyAt(configured, parse, visits, n).issued
    ensures Pending(configured, parse, visits[..m], i) && Pending(configured, parse, visits[..n], j)
    ensures i < m < j < n
  {
    i := SessionBelongsToPendingLogin(configured, parse, visits, m);
    j := SessionBelongsToPendingLogin(configured, parse, visits, n);
    assert visits[..n][m] == visits[m];
    assert Started(configured, parse, visits[..n], j);
  }

  /* ---------- when a session is issued ---------- */

  /** Visit i is the pending login, and its cookie of this name has not expired. */
  ghost predicate Kept(configured: bool, parse: string -> Option<Url>, visits: seq<Visit>, i: int, name: string) {
    Pending(configured, parse, visits, i) && forall j | i < j < |visits| :: visits[j] != Expire(name)
  }

  lemma KeptStep(configured: bool, parse: string -> Option<Url>, visits: seq<Visit>, n: nat, i: int, name: string)
    requires n + 1 == |visits|
    ensures Kept(configured, parse, visits, i, name) <==>
            if Started(configured, parse, visits, n) then i == n
            else Kept(configured, parse, visits[..n], i, name) && !visits[n].Callback? && visits[n] != Expire(name)
  {
    forall j | 0 <= j < n
      ensures visits[..n][j] == visits[j]
      ensures Started(configured, parse, visits[..n], j) <==> Started(configured, parse, visits, j)
    {
      StartedEarlier(configured, parse, visits, n, j);
    }
  }

  predicate IsFlowCookie(name: string) { name == STATE || name == NONCE || name == PKCE }

  lemma LoginSetsAll(jar: Jar, r: Randomness, rest: seq<Cookie>, name: string)
    requires r.state.Some? && r.nonce.Some? && IsFlowCookie(name)
    requires rest == [] || (|rest| == 1 && rest[0].Set?)
    ensures name in Apply(jar, [Set(STATE, r.state.value), Set(NONCE, r.nonce.value), Set(PKCE, r.verifier)] + rest)
  {
    ApplyFlow(jar, r, rest);
    if rest != [] { assert rest == [rest[0]] + []; }
  }

  lemma FlowCookieAfterVisit(configured: bool, parse: string -> Option<Url>, visits: seq<Visit>, n: nat, name: string)
    requires n + 1 == |visits| && (configured || JarAfter(configured, parse, visits[..n]) == map[]) && IsFlowCookie(name)
    ensures name in JarAfter(configured, parse, visits) <==>
            if Started(configured, parse, visits, n) then true
            else name in JarAfter(configured, parse, visits[..n]) && !visits[n].Callback? && visits[n] != Expire(name)
  {
    var jar, v := JarAfter(configured, parse, visits[..n]), visits[n];
    if Started(configured, parse, visits, n) {
      var uri := ValidateCLIRedirectURI(v.cliRedirect, parse).value;
      LoginSetsAll(jar, v.random, if uri == "" then [] else [Set(CLI_REDIRECT, uri)], name);
    } else if v.Callback? && configured {
      ApplyClearAll(jar);
    }
  }

  /** At every point of a run each flow cookie is there exactly while its login is pending
      and the cookie itself has not expired. */
  lemma {:induction false} FlowCookieIff(configured: bool, parse: string -> Option<Url>, visits: seq<Visit>, name: string)
    requires IsFlowCookie(name)
    ensures name in JarAfter(configured, parse, visits) <==> exists i :: Kept(configured, parse, visits, i, name)
    decreases |visits|
  {
    if visits != [] {
      var n := |visits| - 1;
      FlowCookieIff(configured, parse, visits[..n], name);
      if !configured { UnconfiguredSetsNothing(parse, visits[..n]); }
      FlowCookieAfterVisit(configured, parse, visits, n, name);
      forall i {
        KeptStep(configured, parse, visits, n, i, name);
      }
      if Started(configured, parse, visits, n) { assert Kept(configured, parse, visits, n, name); }
    }
  }

  /** `state` is the non-empty state of the login at i, pending with all its cookies. */
  ghost predicate Presents(configured: bool, parse: string -> Option<Url>, visits: seq<Visit>, i: int, state: string) {
    && Kept(configured, parse, visits, i, STATE) && Kept(configured, parse, visits, i, NONCE) && Kept(configured, parse, visits, i, PKCE)
    && state != "" && state == visits[i].random.state.value
  }

  /** What a cookie keeps of the pending redirect, if any, is still acceptable. */
  ghost predicate RedirectUsable(configured: bool, parse: string -> Option<Url>, visits: seq<Visit>) {
    forall k | RedirectPending(configured, parse, visits, k) ::
      ValidateCLIRedirectURI(CookieValue(visits[k].cliRedirect), parse).Some?
  }

  lemma StateMatchesIff(configured: bool, parse: string -> Option<Url>, visits: seq<Visit>, state: string)
    ensures var jar := JarAfter(configured, parse, visits);
            (STATE in jar && NONCE in jar && PKCE in jar && jar[STATE] != "" && state == jar[STATE])
            <==> exists i :: Presents(configured, parse, visits, i, state)
  {
    var jar := JarAfter(configured, parse, visits);
    FlowCookieIff(configured, parse, visits, STATE);
    FlowCookieIff(configured, parse, visits, NONCE);
    FlowCookieIff(configured, parse, visits, PKCE);
    var p := CookiesComeFromPendingLogin(configured, parse, visits);
    forall i | Pending(configured, parse, visits, i) && !NoFlowCookies(jar) ensures i == p {
      assert Started(configured, parse, visits, i) && Started(configured, parse, visits, p);
    }
    if STATE in jar && NONCE in jar && PKCE in jar && jar[STATE] != "" && state == jar[STATE] {
      assert Presents(configured, parse, visits, p, state);
    }
  }

  /** Over every run: a visit is issued a session exactly when it is a callback with a
      code that presents the state of the login pending in this browser, and the user was
      found and everyone else agreed. */
  lemma SessionIssuedIffLoginPending(configured: bool, parse: string -> Option<Url>, visits: seq<Visit>, n: nat)
    requires n < |visits|
    ensures ReplyAt(configured, parse, visits, n).issued <==>
            && visits[n].Callback? && visits[n].code != "" && Grants(visits[n].backend)
            && RedirectUsable(configured, parse, visits[..n])
            && exists i :: Presents(configured, parse, visits[..n], i, visits[n].state)
  {
    if visits[n].Callback? {
      var jar, v := JarAfter(configured, parse, visits[..n]), visits[n];
      StateMatchesIff(configured, parse, visits[..n], v.state);
      RedirectComesFromAskingLogin(configured, parse, visits[..n]);
      ProviderAskedIff(configured, parse, jar, v.state, v.code, v.backend);
      SessionIssuedIff(configured, parse, jar, v.state, v.code, v.backend);
      if !configured { UnconfiguredSetsNothing(parse, visits[..n]); }
    }
  }

  /** Whatever the redirect cookie went through, a session only ever leaves for plain HTTP
      on the loopback with an explicit port. */
  lemma HandOffStaysOnLoopback(configured: bool, parse: string -> Option<Url>, visits: seq<Visit>, n: nat)
    requires n < |visits| && ReplyAt(configured, parse, visits, n).body.ToCli?
    ensures var u := parse(ReplyAt(configured, parse, visits, n).body.uri);
            u.Some? && u.value.scheme == "http" && u.value.hostname in {"127.0.0.1", "localhost"} && u.value.port != ""
  {}

  /* ---------- the hand-off to a waiting CLI ---------- */

  /** Visit i started a login for a CLI that waits at its redirect. */
  ghost predicate AsksForCli(configured: bool, parse: string -> Option<Url>, visits: seq<Visit>, i: int) {
    Started(configured, parse, visits, i) && visits[i].cliRedirect != ""
  }

  /** Visit i is the latest login to have asked, with no callback and no expiry of the
      redirect cookie since.  Logins that ask for no CLI do not matter. */
  ghost predicate RedirectPending(configured: bool, parse: string -> Option<Url>, visits: seq<Visit>, i: int) {
    && AsksForCli(configured, parse, visits, i)
    && forall j | i < j < |visits| ::
         !visits[j].Callback? && visits[j] != Expire(CLI_REDIRECT) && !AsksForCli(configured, parse, visits, j)
  }

  /** A started login leaves a CLI redirect in the jar exactly when it asked for one or an
      older one was still there; its own loses what a cookie cannot hold. */
  lemma CliRedirectSurvivesLogin(parse: string -> Option<Url>, jar: Jar, cliRedirect: string, r: Randomness)
    requires OnLogin(true, parse, cliRedirect, r).body.ToProvider?
    ensures var jar' := Apply(jar, OnLogin(true, parse, cliRedirect, r).cookies);
            && (CLI_REDIRECT in jar' <==> cliRedirect != "" || CLI_REDIRECT in jar)
            && (CLI_REDIRECT in jar' ==> jar'[CLI_REDIRECT] == if cliRedirect != "" then CookieValue(cliRedirect) else jar[CLI_REDIRECT])
  {
    var rest := if cliRedirect == "" then [] else [Set(CLI_REDIRECT, cliRedirect)];
    ApplyFlow(jar, r, rest);
    if rest != [] { assert rest == [rest[0]] + []; }
  }

  lemma RedirectPendingStep(configured: bool, parse: string -> Option<Url>, visits: seq<Visit>, n: nat, i: int)
    requires n + 1 == |visits|
    ensures RedirectPending(configured, parse, visits, i) <==>
            if AsksForCli(configured, parse, visits, n) then i == n
            else RedirectPending(configured, parse, visits[..n], i) && !visits[n].Callback? && visits[n] != Expire(CLI_REDIRECT)
  {
    forall j | 0 <= j < n
      ensures visits[..n][j] == visits[j]
      ensures AsksForCli(configured, parse, visits[..n], j) <==> AsksForCli(configured, parse, visits, j)
    {
      StartedEarlier(configured, parse, visits, n, j);
    }
  }

  lemma CallbackClears(parse: string -> Option<Url>, jar: Jar, v: Visit)
    requires v.Callback?
    ensures CLI_REDIRECT !in Apply(jar, ReplyTo(true, parse, jar, v).cookies)
  {
    ApplyClearAll(jar);
  }

  lemma RedirectAfterVisit(configured: bool, parse: string -> Option<Url>, visits: seq<Visit>, n: nat)
    requires n + 1 == |visits| && (configured || JarAfter(configured, parse, visits[..n]) == map[])
    ensures var jar, jar' := JarAfter(configured, parse, visits[..n]), JarAfter(configured, parse, visits);
            if AsksForCli(configured, parse, visits, n) then
              CLI_REDIRECT in jar' && jar'[CLI_REDIRECT] == CookieValue(visits[n].cliRedirect)
            else if visits[n].Callback? || visits[n] == Expire(CLI_REDIRECT) then CLI_REDIRECT !in jar'
            else
              && (CLI_REDIRECT in jar' <==> CLI_REDIRECT in jar)
              && (CLI_REDIRECT in jar' ==> jar'[CLI_REDIRECT] == jar[CLI_REDIRECT])
  {
    var jar := JarAfter(configured, parse, visits[..n]);
    if Started(configured, parse, visits, n) {
      CliRedirectSurvivesLogin(parse, jar, visits[n].cliRedirect, visits[n].random);
    } else if visits[n].Callback? && configured {
      CallbackClears(parse, jar, visits[n]);
    }
  }

  lemma {:induction false} UnconfiguredSetsNothing(parse: string -> Option<Url>, visits: seq<Visit>)
    ensures JarAfter(false, parse, visits) == map[]
    decreases |visits|
  {
    if visits != [] { UnconfiguredSetsNothing(parse, visits[..|visits| - 1]); }
  }

  /** At every point of a run the jar holds a CLI redirect exactly when some login's is
      pending, and then it is what a cookie keeps of that login's. */
  lemma {:induction false} RedirectComesFromAskingLogin(configured: bool, parse: string -> Option<Url>, visits: seq<Visit>)
    ensures CLI_REDIRECT in JarAfter(configured, parse, visits) <==> exists i :: RedirectPending(configured, parse, visits, i)
    ensures forall i | RedirectPending(configured, parse, visits, i) ::
              CLI_REDIRECT in JarAfter(configured, parse, visits)
              && JarAfter(configured, parse, visits)[CLI_REDIRECT] == CookieValue(visits[i].cliRedirect)
    decreases |visits|
  {
    if visits != [] {
      var n := |visits| - 1;
      RedirectComesFromAskingLogin(configured, parse, visits[..n]);
      if !configured { UnconfiguredSetsNothing(parse, visits[..n]); }
      RedirectAfterVisit(configured, parse, visits, n);
      forall i {
        RedirectPendingStep(configured, parse, visits, n, i);
      }
      if AsksForCli(configured, parse, visits, n) { assert RedirectPending(configured, parse, visits, n); }
    }
  }

  /** A login whose redirect is pending, and of which the cookie keeps something. */
  ghost predicate CliWaits(configured: bool, parse: string -> Option<Url>, visits: seq<Visit>, i: int) {
    RedirectPending(configured, parse, visits, i) && CookieValue(visits[i].cliRedirect) != ""
  }

  /** An issued session is handed to a CLI exactly when some login's redirect is pending
      and a code was drawn, and then to that login's, exactly as given exactly when it has
      only characters that a cookie can hold. */
  lemma HandedOffIff(configured: bool, parse: string -> Option<Url>, visits: seq<Visit>, n: nat)
    requires n < |visits| && ReplyAt(configured, parse, visits, n).issued
    ensures ReplyAt(configured, parse, visits, n).body.ToCli? <==>
            visits[n].backend.code.Some? && exists i :: CliWaits(configured, parse, visits[..n], i)
    ensures ReplyAt(configured, parse, visits, n).body.ToCli? ==>
              forall i | CliWaits(configured, parse, visits[..n], i) ::
                var uri := ReplyAt(configured, parse, visits, n).body.uri;
                uri == CookieValue(visits[i].cliRedirect) && (uri == visits[i].cliRedirect <==> CookieSafe(visits[i].cliRedirect))
  {
    RedirectComesFromAskingLogin(configured, parse, visits[..n]);
    forall i | CliWaits(configured, parse, visits[..n], i)
      ensures CookieValue(visits[i].cliRedirect) == visits[i].cliRedirect <==> CookieSafe(visits[i].cliRedirect)
    {
      CookieKeepsIff(visits[i].cliRedirect);
    }
  }

  /** It goes to the CLI of the very login that yields the session exactly when that login
      asked for one; otherwise it goes to the CLI of an older login. */
  lemma HandedToItsOwnLoginIff(configured: bool, parse: string -> Option<Url>, visits: seq<Visit>, n: nat, i: int)
    requires n < |visits| && ReplyAt(configured, parse, visits, n).body.ToCli?
    requires Pending(configured, parse, visits[..n], i)
    ensures RedirectPending(configured, parse, visits[..n], i) <==> visits[i].cliRedirect != ""
    ensures visits[i].cliRedirect == "" ==> exists k :: k < i && RedirectPending(configured, parse, visits[..n], k)
  {
    HandedOffIff(configured, parse, visits, n);
    var k :| CliWaits(configured, parse, visits[..n], k);
    assert Started(configured, parse, visits[..n], k);
  }

  lemma LoginVisit(parse: string -> Option<Url>, visits: seq<Visit>, v: Visit)
    requires v.Login?
    ensures JarAfter(true, parse, visits + [v])
            == Apply(JarAfter(true, parse, visits), OnLogin(true, parse, v.cliRedirect, v.random).cookies)
  {
    assert (visits + [v])[..|visits|] == visits;
  }

  predicate Drawn(r: Randomness) { r.state.Some? && r.nonce.Some? }

  lemma TwoLogins(parse: string -> Option<Url>, uri: string, r1: Randomness, r2: Randomness)
    requires uri != "" && CookieSafe(uri) && ValidateCLIRedirectURI(uri, parse) == Some(uri) && Drawn(r1) && Drawn(r2)
    ensures var jar := JarAfter(true, parse, [Login(uri, r1), Login("", r2)]);
            && STATE in jar && NONCE in jar && PKCE in jar && CLI_REDIRECT in jar
            && jar[STATE] == r2.state.value && jar[CLI_REDIRECT] == uri
  {
    CookieKeepsIff(uri);
    var first, second := Login(uri, r1), Login("", r2);
    var jar := Apply(map[], OnLogin(true, parse, uri, r1).cookies);
    LoginVisit(parse, [], first);
    LoginVisit(parse, [first], second);
    assert [first] + [second] == [first, second] && [] + [first] == [first];
    CliRedirectSurvivesLogin(parse, map[], uri, r1);
    CliRedirectSurvivesLogin(parse, jar, "", r2);
    ApplyFlow(jar, r2, []);
  }

  /** A login for a CLI, then a plain browser login, then that second login's callback:
      the session of the second is handed to the first's CLI. */
  lemma BrowserSessionReachesOlderCli(parse: string -> Option<Url>, uri: string, r1: Randomness, r2: Randomness,
                                      code: string, response: LoginResponse, exchangeCode: string, now: int)
    requires uri != "" && CookieSafe(uri) && ValidateCLIRedirectURI(uri, parse) == Some(uri)
    requires Drawn(r1) && Drawn(r2) && r2.state.value != "" && code != ""
    ensures var b := Backend(true, true, true, UserFound, Issued(response), Some(exchangeCode), now);
            var visits := [Login(uri, r1), Login("", r2), Callback(r2.state.value, code, b)];
            ReplyAt(true, parse, visits, 2).issued && ReplyAt(true, parse, visits, 2).body == ToCli(uri, exchangeCode)
  {
    var b := Backend(true, true, true, UserFound, Issued(response), Some(exchangeCode), now);
    var visits := [Login(uri, r1), Login("", r2), Callback(r2.state.value, code, b)];
    TwoLogins(parse, uri, r1, r2);
    assert visits[..2] == [Login(uri, r1), Login("", r2)];
  }
}
