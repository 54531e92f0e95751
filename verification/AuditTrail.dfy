/**
 Write-ahead auditing of service-account changes, signing-key rotations and token issue
 (api/oauth2.go, api/jwks.go, api/context.go): an attempt row, then the effect, then a
 result row.  Each handler's steps are one request's; any number of requests interleave
 in one log, audit writes fail, and a crash cuts every request short.
 */
module AuditTrail {
  import opened Basics

  datatype Action = AccountCreate | AccountDelete | AccountRotate | JwksRotate | TokenIssue

  /** A row written, a change made or a token delivered, in the order they happen. */
  datatype Step = Attempted | Changed | Resulted(success: bool) | Delivered

  /** How a critical audit write ends: a failed one may still have left its row. */
  datatype Write = Recorded | Lost | Ambiguous

  /** A request and how everything it calls turns out.  `admitted`: its role, parameters
      and services pass the checks made first.  A call may report an error although its
      change was made. */
  datatype Request = Request(action: Action, admitted: bool, wired: bool, attempt: Write,
                             changes: bool, fails: bool, resultWritten: bool)

  datatype Event = Event(id: nat, step: Step)

  /** The branch a handler answers from. */
  datatype Answer = Done | Refused | BadCredentials | ChangeFailed | AuditUnavailable

  /* ---------- the steps each handler takes ---------- */

  function AttemptSteps(r: Request): seq<Step> {
    if r.wired && r.attempt != Lost then [Attempted] else []
  }

  predicate AttemptPasses(r: Request) { !r.wired || r.attempt == Recorded }

  function ResultSteps(r: Request, success: bool): seq<Step> {
    if r.wired && r.resultWritten then [Resulted(success)] else []
  }

  function ChangeSteps(r: Request): seq<Step> { if r.changes then [Changed] else [] }

  function HandlerSteps(r: Request): seq<Step> {
    if !r.admitted then []
    else if r.action == TokenIssue then
      if r.fails then ResultSteps(r, false)
      else if !AttemptPasses(r) then AttemptSteps(r)
      else AttemptSteps(r) + ResultSteps(r, true) + [Delivered]
    else if !AttemptPasses(r) then AttemptSteps(r)
    else AttemptSteps(r) + ChangeSteps(r) + ResultSteps(r, !r.fails)
  }

  function Tag(id: nat, steps: seq<Step>): seq<Event> {
    seq(|steps|, i requires 0 <= i < |steps| => Event(id, steps[i]))
  }

  /* ---------- the code itself ---------- */

  class Server {
    var log: seq<Event>

    constructor ()
      ensures log == []
    {
      log := [];
    }

    /** The attempt row; an error means the operation must not run. */
    method RecordCriticalAttempt(id: nat, r: Request) returns (ok: bool)
      modifies this
      ensures log == old(log) + Tag(id, AttemptSteps(r)) && ok == AttemptPasses(r)
    {
      if !r.wired { return true; }
      if r.attempt != Lost { log := log + [Event(id, Attempted)]; }
      ok := r.attempt == Recorded;
    }

    /** The result row, whose own failure is swallowed. */
    method RecordResult(id: nat, r: Request, success: bool)
      modifies this
      ensures log == old(log) + Tag(id, ResultSteps(r, success))
    {
      if !r.wired { return; }
      if r.resultWritten { log := log + [Event(id, Resulted(success))]; }
    }

    method Change(id: nat, r: Request) returns (ok: bool)
      modifies this
      ensures log == old(log) + Tag(id, ChangeSteps(r)) && ok == !r.fails
    {
      if r.changes { log := log + [Event(id, Changed)]; }
      ok := !r.fails;
    }

    /** createServiceAccount, deleteServiceAccount, rotateServiceAccountSecret and
        rotateJWKS all follow this order. */
    method ManagementHandler(id: nat, r: Request) returns (answer: Answer)
      requires r.action != TokenIssue
      modifies this
      ensures log == old(log) + Tag(id, HandlerSteps(r))
      ensures answer == Refused <==> !r.admitted
      ensures answer == AuditUnavailable <==> r.admitted && !AttemptPasses(r)
      ensures answer == Done <==> r.admitted && AttemptPasses(r) && !r.fails
      ensures answer == ChangeFailed <==> r.admitted && AttemptPasses(r) && r.fails
    {
      if !r.admitted { return Refused; }
      var began := RecordCriticalAttempt(id, r);
      if !began { return AuditUnavailable; }
      var ok := Change(id, r);
      if !ok {
        RecordResult(id, r, false);
        return ChangeFailed;
      }
      RecordResult(id, r, true);
      return Done;
    }

    method TokenHandler(id: nat, r: Request) returns (answer: Answer)
      requires r.action == TokenIssue
      modifies this
      ensures log == old(log) + Tag(id, HandlerSteps(r))
      ensures answer == Refused <==> !r.admitted
      ensures answer == BadCredentials <==> r.admitted && r.fails
      ensures answer == AuditUnavailable <==> r.admitted && !r.fails && !AttemptPasses(r)
      ensures answer == Done <==> r.admitted && !r.fails && AttemptPasses(r)
    {
      if !r.admitted { return Refused; }
      if r.fails {
        RecordResult(id, r, false);
        return BadCredentials;
      }
      var began := RecordCriticalAttempt(id, r);
      if !began { return AuditUnavailable; }
      RecordResult(id, r, true);
      log := log + [Event(id, Delivered)];
      return Done;
    }
  }

  /* ---------- any interleaving of requests, cut short anywhere ---------- */

  /** One request's own steps in the log. */
  function Project(log: seq<Event>, id: nat): seq<Step> {
    if log == [] then []
    else (if log[0].id == id then [log[0].step] else []) + Project(log[1..], id)
  }

  /** Every request in the log is a known one and got through some prefix of its steps. */
  ghost predicate Interleaves(log: seq<Event>, requests: map<nat, Request>) {
    && (forall i | 0 <= i < |log| :: log[i].id in requests)
    && (forall id | id in requests :: Project(log, id) <= HandlerSteps(requests[id]))
  }

  ghost predicate Wired(requests: map<nat, Request>) {
    forall id | id in requests :: requests[id].wired
  }

  lemma {:induction false} ProjectedStepIsLogged(log: seq<Event>, id: nat, k: nat) returns (j: nat)
    requires k < |Project(log, id)|
    ensures j < |log| && log[j] == Event(id, Project(log, id)[k])
  {
    if log[0].id == id && k == 0 {
      j := 0;
    } else {
      j := ProjectedStepIsLogged(log[1..], id, if log[0].id == id then k - 1 else k);
      j := j + 1;
    }
  }

  lemma {:induction false} ProjectAt(log: seq<Event>, i: nat, id: nat)
    requires i < |log| && log[i].id == id
    ensures var before := Project(log[..i], id);
            |before| < |Project(log, id)| && Project(log, id)[..|before|] == before && Project(log, id)[|before|] == log[i].step
  {
    if i > 0 {
      ProjectAt(log[1..], i - 1, id);
      assert log[..i][1..] == log[1..][..i - 1];
    }
  }

  /** An event of the log is one of its request's own steps, and the steps logged before
      it are the ones the handler takes first. */
  lemma EventIsHandlerStep(log: seq<Event>, requests: map<nat, Request>, i: nat)
    requires Interleaves(log, requests) && i < |log|
    ensures var before := Project(log[..i], log[i].id);
            var steps := HandlerSteps(requests[log[i].id]);
            |before| < |steps| && before == steps[..|before|] && steps[|before|] == log[i].step
  {
    ProjectAt(log, i, log[i].id);
  }

  /** Write-ahead: under any interleaving, any failing writes and a crash anywhere, every
      change made and every token delivered comes after its own request's attempt row. */
  lemma EffectHasItsAttempt(log: seq<Event>, requests: map<nat, Request>, i: nat) returns (j: nat)
    requires Interleaves(log, requests) && Wired(requests)
    requires i < |log| && (log[i].step == Changed || log[i].step == Delivered)
    ensures j < i && log[j] == Event(log[i].id, Attempted)
  {
    EventIsHandlerStep(log, requests, i);
    EffectIsNotFirst(requests[log[i].id], |Project(log[..i], log[i].id)|);
    j := ProjectedStepIsLogged(log[..i], log[i].id, 0);
  }

  lemma EffectIsNotFirst(r: Request, k: nat)
    requires r.wired && k < |HandlerSteps(r)| && (HandlerSteps(r)[k] == Changed || HandlerSteps(r)[k] == Delivered)
    ensures k > 0 && HandlerSteps(r)[0] == Attempted
  {}

  /** If the attempt row could not be written, the effect does not happen. */
  lemma NoEffectWithoutAttempt(log: seq<Event>, requests: map<nat, Request>, i: nat)
    requires Interleaves(log, requests) && i < |log|
    requires requests[log[i].id].wired && requests[log[i].id].attempt != Recorded
    ensures log[i].step != Changed && log[i].step != Delivered
  {
    EventIsHandlerStep(log, requests, i);
  }

  /** A result row comes after its own request's attempt row exactly when the request is
      not a token request refused for its credentials: that branch writes a result row
      without ever writing an attempt row. */
  lemma ResultHasItsAttemptIff(log: seq<Event>, requests: map<nat, Request>, i: nat)
    requires Interleaves(log, requests) && Wired(requests)
    requires i < |log| && log[i].step.Resulted?
    ensures (exists j :: 0 <= j < i && log[j] == Event(log[i].id, Attempted))
            <==> requests[log[i].id].action != TokenIssue || !requests[log[i].id].fails
  {
    var id := log[i].id;
    var r, before := requests[id], Project(log[..i], id);
    EventIsHandlerStep(log, requests, i);
    if r.action != TokenIssue || !r.fails {
      ResultIsNotFirst(r, |before|);
      var j := ProjectedStepIsLogged(log[..i], id, 0);
    } else {
      assert before == [];
      if j :| 0 <= j < i && log[j] == Event(id, Attempted) {
        ProjectAt(log[..i], j, id);
      }
    }
  }

  lemma ResultIsNotFirst(r: Request, k: nat)
    requires r.wired && k < |HandlerSteps(r)| && HandlerSteps(r)[k].Resulted?
    requires r.action != TokenIssue || !r.fails
    ensures k > 0 && HandlerSteps(r)[0] == Attempted
  {}

  /** A result row tells the truth about its request. */
  lemma ResultTellsOutcome(log: seq<Event>, requests: map<nat, Request>, i: nat)
    requires Interleaves(log, requests) && i < |log| && log[i].step.Resulted?
    ensures log[i].step.success <==> !requests[log[i].id].fails
  {
    EventIsHandlerStep(log, requests, i);
    HandlerTellsOutcome(requests[log[i].id], |Project(log[..i], log[i].id)|);
  }

  lemma HandlerTellsOutcome(r: Request, k: nat)
    requires k < |HandlerSteps(r)| && HandlerSteps(r)[k].Resulted?
    ensures HandlerSteps(r)[k].success <==> !r.fails
  {}

  function Rank(s: Step): nat {
    match s case Attempted => 0 case Changed => 1 case Resulted(_) => 2 case Delivered => 3
  }

  /** Whatever else is going on, one request's rows and effects come once each and in
      this order. */
  lemma StepsInOrder(log: seq<Event>, requests: map<nat, Request>, i: nat, j: nat)
    requires Interleaves(log, requests) && i < j < |log| && log[i].id == log[j].id
    ensures Rank(log[i].step) < Rank(log[j].step)
  {
    EventIsHandlerStep(log, requests, i);
    EventIsHandlerStep(log, requests, j);
    ProjectAt(log[..j], i, log[i].id);
    assert log[..j][..i] == log[..i];
    HandlerStepsInOrder(requests[log[i].id], |Project(log[..i], log[i].id)|, |Project(log[..j], log[i].id)|);
  }

  lemma HandlerStepsInOrder(r: Request, a: nat, b: nat)
    requires a < b < |HandlerSteps(r)|
    ensures Rank(HandlerSteps(r)[a]) < Rank(HandlerSteps(r)[b])
  {}

  /** The log once every request has run to its end. */
  ghost predicate Finished(log: seq<Event>, requests: map<nat, Request>) {
    Interleaves(log, requests) && forall id | id in requests :: Project(log, id) == HandlerSteps(requests[id])
  }

  ghost predicate Logged(log: seq<Event>, e: Event) { exists i :: 0 <= i < |log| && log[i] == e }

  lemma LoggedIff(log: seq<Event>, requests: map<nat, Request>, id: nat, s: Step)
    requires Finished(log, requests) && id in requests
    ensures Logged(log, Event(id, s)) <==> s in HandlerSteps(requests[id])
  {
    if i :| 0 <= i < |log| && log[i] == Event(id, s) { EventIsHandlerStep(log, requests, i); }
    if k :| 0 <= k < |HandlerSteps(requests[id])| && HandlerSteps(requests[id])[k] == s {
      var j := ProjectedStepIsLogged(log, id, k);
    }
  }

  /** The audit service answered that the attempt row is there, or there is none to ask. */
  predicate Cleared(r: Request) { r.admitted && (r.wired ==> r.attempt == Recorded) }

  /** What a finished log holds of each request: a change exactly for a cleared management
      request that made one, a token exactly for a cleared request with valid credentials. */
  lemma FinishedLogHolds(log: seq<Event>, requests: map<nat, Request>, id: nat)
    requires Finished(log, requests) && id in requests
    ensures var r := requests[id];
            && (Logged(log, Event(id, Changed)) <==> r.action != TokenIssue && Cleared(r) && r.changes)
            && (Logged(log, Event(id, Delivered)) <==> r.action == TokenIssue && Cleared(r) && !r.fails)
            && (Logged(log, Event(id, Attempted)) <==>
                  r.admitted && r.wired && r.attempt != Lost && (r.action == TokenIssue ==> !r.fails))
            && (Logged(log, Event(id, Resulted(true))) <==> Cleared(r) && r.wired && r.resultWritten && !r.fails)
            && (Logged(log, Event(id, Resulted(false))) <==>
                  r.admitted && r.wired && r.resultWritten && r.fails && (r.action != TokenIssue ==> r.attempt == Recorded))
  {
    LoggedIff(log, requests, id, Changed);
    LoggedIff(log, requests, id, Delivered);
    LoggedIff(log, requests, id, Attempted);
    LoggedIff(log, requests, id, Resulted(true));
    LoggedIff(log, requests, id, Resulted(false));
    StepsOf(requests[id]);
  }

  lemma StepsOf(r: Request)
    ensures Changed in HandlerSteps(r) <==> r.action != TokenIssue && Cleared(r) && r.changes
    ensures Delivered in HandlerSteps(r) <==> r.action == TokenIssue && Cleared(r) && !r.fails
    ensures Attempted in HandlerSteps(r) <==> r.admitted && r.wired && r.attempt != Lost && (r.action == TokenIssue ==> !r.fails)
    ensures Resulted(true) in HandlerSteps(r) <==> Cleared(r) && r.wired && r.resultWritten && !r.fails
    ensures Resulted(false) in HandlerSteps(r) <==>
              r.admitted && r.wired && r.resultWritten && r.fails && (r.action != TokenIssue ==> r.attempt == Recorded)
  {}

  /** So the log alone tells: where result rows are written, a token was delivered exactly
      where its request has a row of success. */
  lemma DeliveredIffSuccessRow(log: seq<Event>, requests: map<nat, Request>, id: nat)
    requires Finished(log, requests) && id in requests && requests[id].action == TokenIssue
    requires requests[id].wired && requests[id].resultWritten
    ensures Logged(log, Event(id, Delivered)) <==> Logged(log, Event(id, Resulted(true)))
  {
    FinishedLogHolds(log, requests, id);
  }

  /* ---------- counting rows ---------- */

  datatype Kind = Attempts | Effects | Results

  predicate IsKind(s: Step, kind: Kind) {
    match kind
    case Attempts => s == Attempted
    case Effects => s == Changed || s == Delivered
    case Results => s.Resulted?
  }

  function CountSteps(steps: seq<Step>, kind: Kind): nat {
    if steps == [] then 0 else (if IsKind(steps[0], kind) then 1 else 0) + CountSteps(steps[1..], kind)
  }

  /** The rows or effects of one kind in the log, over all requests for one action. */
  function Count(log: seq<Event>, requests: map<nat, Request>, action: Action, kind: Kind): nat {
    if log == [] then 0 else
      (if log[0].id in requests && requests[log[0].id].action == action && IsKind(log[0].step, kind) then 1 else 0)
      + Count(log[1..], requests, action, kind)
  }

  function Others(log: seq<Event>, id: nat): (rest: seq<Event>)
    ensures |rest| <= |log|
    ensures log != [] && log[0].id == id ==> |rest| < |log|
  {
    if log == [] then []
    else (if log[0].id == id then [] else [log[0]]) + Others(log[1..], id)
  }

  lemma CountStepsCons(s: Step, steps: seq<Step>, kind: Kind)
    ensures CountSteps([s] + steps, kind) == (if IsKind(s, kind) then 1 else 0) + CountSteps(steps, kind)
  {
    assert ([s] + steps)[1..] == steps;
  }

  lemma CountCons(e: Event, log: seq<Event>, requests: map<nat, Request>, action: Action, kind: Kind)
    ensures Count([e] + log, requests, action, kind) ==
            (if e.id in requests && requests[e.id].action == action && IsKind(e.step, kind) then 1 else 0)
            + Count(log, requests, action, kind)
  {
    assert ([e] + log)[1..] == log;
  }

  lemma {:induction false} CountOneRequest(log: seq<Event>, requests: map<nat, Request>, action: Action, kind: Kind, id: nat)
    requires id in requests
    ensures Count(log, requests, action, kind) ==
            Count(Others(log, id), requests, action, kind)
            + if requests[id].action == action then CountSteps(Project(log, id), kind) else 0
  {
    if log != [] {
      CountOneRequest(log[1..], requests, action, kind, id);
      var others, steps := Others(log[1..], id), Project(log[1..], id);
      if log[0].id == id {
        assert Others(log, id) == others && Project(log, id) == [log[0].step] + steps;
        CountStepsCons(log[0].step, steps, kind);
      } else {
        assert Others(log, id) == [log[0]] + others && Project(log, id) == steps;
        CountCons(log[0], others, requests, action, kind);
      }
    }
  }

  lemma {:induction false} ProjectOthers(log: seq<Event>, id: nat, other: nat)
    ensures Project(Others(log, id), other) == if other == id then [] else Project(log, other)
    ensures forall i | 0 <= i < |Others(log, id)| :: Others(log, id)[i] in log
  {
    if log != [] {
      var others := Others(log[1..], id);
      ProjectOthers(log[1..], id, other);
      if log[0].id == id {
        assert Others(log, id) == others;
      } else {
        assert Others(log, id) == [log[0]] + others;
        assert ([log[0]] + others)[1..] == others;
      }
    }
  }

  /** One request, cut short anywhere, never has more effects than attempt rows, nor, when
      it is not for a token, more result rows. */
  lemma OneRequestCounts(r: Request, steps: seq<Step>)
    requires r.wired && steps <= HandlerSteps(r)
    ensures CountSteps(steps, Effects) <= CountSteps(steps, Attempts)
    ensures r.action != TokenIssue ==> CountSteps(steps, Results) <= CountSteps(steps, Attempts)
  {
    var all := HandlerSteps(r);
    assert forall i | 0 <= i < |steps| :: steps[i] == all[i];
    CountShort(steps, Attempts);
    CountShort(steps, Effects);
    CountShort(steps, Results);
  }

  lemma CountShort(steps: seq<Step>, kind: Kind)
    requires |steps| <= 3
    ensures CountSteps(steps, kind) == One(steps, 0, kind) + One(steps, 1, kind) + One(steps, 2, kind)
  {
    if |steps| >= 1 { assert CountSteps(steps, kind) == One(steps, 0, kind) + CountSteps(steps[1..], kind); }
    if |steps| >= 2 { assert CountSteps(steps[1..], kind) == One(steps, 1, kind) + CountSteps(steps[1..][1..], kind); }
    if |steps| >= 3 { assert CountSteps(steps[1..][1..], kind) == One(steps, 2, kind) + CountSteps(steps[1..][1..][1..], kind); }
  }

  function One(steps: seq<Step>, i: nat, kind: Kind): nat {
    if i < |steps| && IsKind(steps[i], kind) then 1 else 0
  }

  /** Over the whole log: for every action effects never outnumber attempt rows, and for
      service-account and rotation actions neither do result rows. */
  lemma {:induction false} AttemptsBoundEffectsAndResults(log: seq<Event>, requests: map<nat, Request>, action: Action)
    requires Interleaves(log, requests) && Wired(requests)
    ensures Count(log, requests, action, Effects) <= Count(log, requests, action, Attempts)
    ensures action != TokenIssue ==>
              Count(log, requests, action, Results) <= Count(log, requests, action, Attempts)
    decreases |log|
  {
    if log != [] {
      var id := log[0].id;
      var rest := Others(log, id);
      forall other | other in requests ensures Project(rest, other) <= HandlerSteps(requests[other]) {
        ProjectOthers(log, id, other);
      }
      ProjectOthers(log, id, id);
      AttemptsBoundEffectsAndResults(rest, requests, action);
      OneRequestCounts(requests[id], Project(log, id));
      CountOneRequest(log, requests, action, Effects, id);
      CountOneRequest(log, requests, action, Results, id);
      CountOneRequest(log, requests, action, Attempts, id);
    }
  }

  /** Token requests are left out of the last clause for a reason: refused credentials
      leave a result row with no attempt row. */
  lemma RefusedTokenHasNoAttempt()
    ensures exists log: seq<Event>, requests: map<nat, Request> ::
              && Interleaves(log, requests) && Wired(requests)
              && Count(log, requests, TokenIssue, Results) > Count(log, requests, TokenIssue, Attempts)
  {
    var r := Request(TokenIssue, true, true, Recorded, false, true, true);
    var log := [Event(0, Resulted(false))];
    var requests: map<nat, Request> := map[0 := r];
    assert Project(log, 0) == [Resulted(false)] + Project([], 0);
    assert Interleaves(log, requests);
    assert log[1..] == [];
    assert Count(log, requests, TokenIssue, Results) == 1;
  }
}
