/**
 The loopback login from end to end (api/oidc.go and api/oidc_cli.go): any number of
 browsers visit the login and callback handlers, callbacks put codes into the one store,
 and anyone may try to redeem a code at any time.
 */
module CliHandOff {
  import opened Basics
  import opened CliExchange
  import opened ServerKey
  import opened OidcFlow

  datatype Setup = Setup(configured: bool, parse: string -> Option<Url>)

  datatype Request = Visited(browser: nat, visit: Visit) | Redeem(code: string, now: int)

  /** One browser's part of the log. */
  function VisitsOf(log: seq<Request>, browser: nat): seq<Visit> {
    if log == [] then [] else
      var before, last := VisitsOf(log[..|log| - 1], browser), log[|log| - 1];
      if last.Visited? && last.browser == browser then before + [last.visit] else before
  }

  function ReplyIn(c: Setup, log: seq<Request>, m: nat): Reply
    requires m < |log| && log[m].Visited?
  {
    ReplyTo(c.configured, c.parse, JarAfter(c.configured, c.parse, VisitsOf(log[..m], log[m].browser)), log[m].visit)
  }

  /** The call to the code store that request m makes, if any. */
  function CallAt(c: Setup, log: seq<Request>, m: nat): Option<Event>
    requires m < |log|
  {
    match log[m]
    case Redeem(code, now) => if code == "" then None else Some(Consume(code, now))
    case Visited(_, v) =>
      var r := ReplyIn(c, log, m);
      if v.Callback? && r.body.ToCli? then Some(Put(r.body.code, v.backend.session.response, v.backend.now)) else None
  }

  function CallsOf(c: Setup, log: seq<Request>): seq<Event> {
    if log == [] then [] else
      var call := CallAt(c, log, |log| - 1);
      CallsOf(c, log[..|log| - 1]) + if call.Some? then [call.value] else []
  }

  /** What redeeming answers when it is request n. */
  function RedeemedAt(c: Setup, log: seq<Request>, n: nat): Option<LoginResponse>
    requires n < |log| && log[n].Redeem?
  {
    if log[n].code == "" then None else Redeemed(CallsOf(c, log[..n]), log[n].code, log[n].now)
  }

  predicate Mentions(call: Option<Event>, code: string) { call.Some? && call.value.code == code }

  /** Request m handed out `code`, and no call since has mentioned it. */
  ghost predicate Waiting(c: Setup, log: seq<Request>, m: int, code: string) {
    && 0 <= m < |log| && Mentions(CallAt(c, log, m), code) && CallAt(c, log, m).value.Put?
    && forall j | m < j < |log| :: !Mentions(CallAt(c, log, j), code)
  }

  lemma EarlierCall(c: Setup, log: seq<Request>, n: nat, m: nat)
    requires m < n <= |log|
    ensures CallAt(c, log[..n], m) == CallAt(c, log, m)
  {
    assert log[..n][..m] == log[..m];
  }

  lemma {:induction false} CallIsWaiting(c: Setup, log: seq<Request>, i: int, code: string) returns (m: int)
    requires Outstanding(CallsOf(c, log), i, code)
    ensures Waiting(c, log, m, code) && CallAt(c, log, m) == Some(CallsOf(c, log)[i])
    decreases |log|
  {
    var n := |log| - 1;
    var before, call := CallsOf(c, log[..n]), CallAt(c, log, n);
    if call.Some? && i == |before| {
      m := n;
    } else {
      assert forall j | 0 <= j < |before| :: CallsOf(c, log)[j] == before[j];
      assert call.Some? ==> CallsOf(c, log)[|before|] == call.value;
      m := CallIsWaiting(c, log[..n], i, code);
      EarlierCall(c, log, n, m);
      WaitingLonger(c, log, m, code);
    }
  }

  lemma WaitingLonger(c: Setup, log: seq<Request>, m: int, code: string)
    requires log != [] && Waiting(c, log[..|log| - 1], m, code) && !Mentions(CallAt(c, log, |log| - 1), code)
    ensures Waiting(c, log, m, code)
  {
    var n := |log| - 1;
    EarlierCall(c, log, n, m);
    forall j | m < j < |log| ensures !Mentions(CallAt(c, log, j), code) {
      if j < n { EarlierCall(c, log, n, j); }
    }
  }

  lemma WaitingShorter(c: Setup, log: seq<Request>, m: int, code: string)
    requires Waiting(c, log, m, code) && m < |log| - 1
    ensures Waiting(c, log[..|log| - 1], m, code) && !Mentions(CallAt(c, log, |log| - 1), code)
  {
    var n := |log| - 1;
    EarlierCall(c, log, n, m);
    forall j | m < j < n ensures !Mentions(CallAt(c, log[..n], j), code) {
      EarlierCall(c, log, n, j);
    }
  }

  lemma OutstandingLonger(h: seq<Event>, i: int, code: string, call: Option<Event>)
    requires Outstanding(h, i, code) && !Mentions(call, code)
    ensures var h' := h + if call.Some? then [call.value] else []; Outstanding(h', i, code) && h'[i] == h[i]
  {}

  lemma {:induction false} WaitingIsCall(c: Setup, log: seq<Request>, m: int, code: string) returns (i: int)
    requires Waiting(c, log, m, code)
    ensures Outstanding(CallsOf(c, log), i, code) && CallAt(c, log, m) == Some(CallsOf(c, log)[i])
    decreases |log|
  {
    var n := |log| - 1;
    if m == n {
      i := |CallsOf(c, log[..n])|;
    } else {
      WaitingShorter(c, log, m, code);
      EarlierCall(c, log, n, m);
      i := WaitingIsCall(c, log[..n], m, code);
      OutstandingLonger(CallsOf(c, log[..n]), i, code, CallAt(c, log, n));
    }
  }

  /** A code redeems exactly when some callback handed it out at most 60 s ago and nothing
      has used it since, and then for the session that callback issued. */
  lemma RedeemedIffHandedOff(c: Setup, log: seq<Request>, code: string, now: int, response: LoginResponse)
    requires Monotone(CallsOf(c, log) + [Consume(code, now)])
    ensures Redeemed(CallsOf(c, log), code, now) == Some(response) <==>
            exists m :: && Waiting(c, log, m, code) && now <= CallAt(c, log, m).value.now + 60_000_000_000
                        && log[m].Visited? && log[m].visit.Callback? && log[m].visit.backend.session == Issued(response)
  {
    var h := CallsOf(c, log);
    RedeemedIff(h, code, now, response);
    if i :| Outstanding(h, i, code) && now <= h[i].now + CODE_TTL && h[i].response == response {
      var m := CallIsWaiting(c, log, i, code);
    }
    if m :| Waiting(c, log, m, code) && now <= CallAt(c, log, m).value.now + CODE_TTL
            && log[m].Visited? && log[m].visit.Callback? && log[m].visit.backend.session == Issued(response) {
      var i := WaitingIsCall(c, log, m, code);
    }
  }

  /** Whoever redeems a code gets the session of the login that was pending in the browser
      whose callback handed the code out, and that callback presented that login's state,
      nonce and verifier. */
  lemma RedeemedSessionHasItsLogin(c: Setup, log: seq<Request>, n: nat, response: LoginResponse) returns (m: nat, i: int)
    requires n < |log| && log[n].Redeem? && RedeemedAt(c, log, n) == Some(response)
    ensures m < n && log[m].Visited? && log[m].visit.Callback? && log[m].visit.backend.session == Issued(response)
    ensures ReplyIn(c, log, m).body.ToCli? && ReplyIn(c, log, m).body.code == log[n].code
    ensures var visits := VisitsOf(log[..m], log[m].browser);
            && Pending(c.configured, c.parse, visits, i)
            && log[m].visit.state == visits[i].random.state.value
            && ReplyIn(c, log, m).exchange == Some(Exchange(log[m].visit.state, log[m].visit.code,
                                                            visits[i].random.nonce.value, visits[i].random.verifier))
  {
    var code := log[n].code;
    var k := EntryMeansOutstanding(CallsOf(c, log[..n]), code);
    m := CallIsWaiting(c, log[..n], k, code);
    EarlierCall(c, log, n, m);
    i := HandOffHasItsLogin(c, log, m);
  }

  lemma HandOffHasItsLogin(c: Setup, log: seq<Request>, m: nat) returns (i: int)
    requires m < |log| && log[m].Visited? && ReplyIn(c, log, m).body.ToCli?
    ensures var visits := VisitsOf(log[..m], log[m].browser);
            && log[m].visit.Callback?
            && Pending(c.configured, c.parse, visits, i)
            && log[m].visit.state == visits[i].random.state.value
            && ReplyIn(c, log, m).exchange == Some(Exchange(log[m].visit.state, log[m].visit.code,
                                                            visits[i].random.nonce.value, visits[i].random.verifier))
  {
    var visits, v := VisitsOf(log[..m], log[m].browser), log[m].visit;
    assert (visits + [v])[..|visits|] == visits;
    i := SessionBelongsToPendingLogin(c.configured, c.parse, visits + [v], |visits|);
  }

  lemma {:induction false} CallsOfPrefix(c: Setup, log: seq<Request>, n: nat)
    requires n < |log|
    ensures |CallsOf(c, log[..n])| <= |CallsOf(c, log)| && CallsOf(c, log)[..|CallsOf(c, log[..n])|] == CallsOf(c, log[..n])
    ensures CallAt(c, log, n).Some? ==>
              |CallsOf(c, log[..n])| < |CallsOf(c, log)| && CallsOf(c, log)[|CallsOf(c, log[..n])|] == CallAt(c, log, n).value
    decreases |log|
  {
    if n < |log| - 1 {
      var shorter := log[..|log| - 1];
      CallsOfPrefix(c, shorter, n);
      assert shorter[..n] == log[..n];
      EarlierCall(c, log, |log| - 1, n);
    }
  }

  /** With fresh codes, no code is redeemed twice, whoever tries. */
  lemma HandedOverAtMostOnce(c: Setup, log: seq<Request>, i: nat, j: nat)
    requires i < j < |log| && log[i].Redeem? && log[j].Redeem? && log[i].code == log[j].code
    requires FreshCodes(CallsOf(c, log)) && RedeemedAt(c, log, i).Some?
    ensures RedeemedAt(c, log, j) == None
  {
    var h, p, q := CallsOf(c, log), |CallsOf(c, log[..i])|, |CallsOf(c, log[..j])|;
    CallsOfPrefix(c, log, i);
    CallsOfPrefix(c, log, j);
    CallsOfPrefix(c, log[..j], i);
    EarlierCall(c, log, j, i);
    assert log[..j][..i] == log[..i];
    RedeemedAtMostOnce(h, p, q);
  }
}
