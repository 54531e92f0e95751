/**
 The one-time codes that stand in for a login response during the CLI loopback flow
 (api/oidc_cli.go): a map under a mutex, so its calls happen one at a time, with a 60 s
 lifetime, a purge on every insert, and single use.  Clock readings are arguments.
 */
module CliExchange {
  import opened Basics

  datatype LoginResponse = LoginResponse(token: string, refreshToken: string, userId: string, username: string,
                                         roles: seq<string>)

  datatype Entry = Entry(response: LoginResponse, expiresAt: int)

  type Entries = map<string, Entry>

  const CODE_TTL: int := 60 * 1000000000 // 60 s in nanoseconds

  predicate Expired(e: Entry, now: int) { now > e.expiresAt }

  function Purged(entries: Entries, now: int): Entries {
    map c | c in entries && !Expired(entries[c], now) :: entries[c]
  }

  datatype Event = Put(code: string, response: LoginResponse, now: int) | Consume(code: string, now: int)

  /** The entries one call leaves. */
  function After(entries: Entries, e: Event): Entries {
    match e
    case Put(code, response, now) => Purged(entries, now)[code := Entry(response, now + CODE_TTL)]
    case Consume(code, _) => entries - {code}
  }

  /** What consuming a code answers. */
  function Answer(entries: Entries, code: string, now: int): Option<LoginResponse> {
    if code in entries && now <= entries[code].expiresAt then Some(entries[code].response) else None
  }

  class CliExchangeStore {
    var entries: Entries

    constructor ()
      ensures entries == map[]
    {
      entries := map[];
    }

    /** `random` is the new code, None when the random source fails. */
    method Put(response: LoginResponse, random: Option<string>, now: int) returns (code: Option<string>)
      modifies this
      ensures code == random
      ensures entries == if random.None? then old(entries) else After(old(entries), Event.Put(random.value, response, now))
    {
      if random.None? { return None; }
      var pending := entries.Keys;
      while pending != {}
        invariant pending <= entries.Keys
        invariant entries == map c | c in old(entries) && (c in pending || !Expired(old(entries)[c], now)) :: old(entries)[c]
        decreases |pending|
      {
        var c :| c in pending;
        if now > entries[c].expiresAt { entries := entries - {c}; }
        pending := pending - {c};
      }
      entries := entries[random.value := Entry(response, now + CODE_TTL)];
      return random;
    }

    method Consume(code: string, now: int) returns (r: Option<LoginResponse>)
      modifies this
      ensures entries == After(old(entries), Event.Consume(code, now))
      ensures r == Answer(old(entries), code, now)
    {
      if code !in entries {
        assert entries - {code} == entries;
        return None;
      }
      var entry := entries[code];
      entries := entries - {code};
      if now > entry.expiresAt { return None; }
      return Some(entry.response);
    }
  }

  /* ---------- any interleaving of calls ---------- */

  /** The entries after a history of calls on a new store. */
  function EntriesAfter(h: seq<Event>): Entries {
    if h == [] then map[] else After(EntriesAfter(h[..|h| - 1]), h[|h| - 1])
  }

  /** What consuming `code` now returns after that history. */
  function Redeemed(h: seq<Event>, code: string, now: int): Option<LoginResponse> {
    Answer(EntriesAfter(h), code, now)
  }

  ghost predicate Monotone(h: seq<Event>) {
    forall i, j | 0 <= i < j < |h| :: h[i].now <= h[j].now
  }

  /** Codes are fresh: no two puts share one. */
  ghost predicate FreshCodes(h: seq<Event>) {
    forall i, j | 0 <= i < j < |h| && h[i].Put? && h[j].Put? :: h[i].code != h[j].code
  }

  /** Call i stored `code`, and no call since has mentioned it. */
  ghost predicate Outstanding(h: seq<Event>, i: int, code: string) {
    0 <= i < |h| && h[i].Put? && h[i].code == code && forall j | i < j < |h| :: h[j].code != code
  }

  lemma {:induction false} EntryMeansOutstanding(h: seq<Event>, code: string) returns (i: int)
    requires code in EntriesAfter(h)
    ensures Outstanding(h, i, code) && EntriesAfter(h)[code] == Entry(h[i].response, h[i].now + CODE_TTL)
    decreases |h|
  {
    var n := |h| - 1;
    if h[n].code == code {
      i := n;
    } else {
      i := EntryMeansOutstanding(h[..n], code);
    }
  }

  lemma {:induction false} OutstandingStaysUntilExpiry(h: seq<Event>, i: int, code: string)
    requires Outstanding(h, i, code) && Monotone(h) && h[|h| - 1].now <= h[i].now + CODE_TTL
    ensures code in EntriesAfter(h) && EntriesAfter(h)[code] == Entry(h[i].response, h[i].now + CODE_TTL)
    decreases |h|
  {
    var n := |h| - 1;
    if i < n {
      assert h[n - 1].now <= h[n].now;
      OutstandingStaysUntilExpiry(h[..n], i, code);
    }
  }

  /** A code redeems exactly when it was put at most 60 s ago and neither put again nor
      consumed since, and then for the response stored with it: purging never drops a
      live code, and no code outlives its time. */
  lemma RedeemedIff(h: seq<Event>, code: string, now: int, response: LoginResponse)
    requires Monotone(h + [Consume(code, now)])
    ensures Redeemed(h, code, now) == Some(response) <==>
            exists i :: Outstanding(h, i, code) && now <= h[i].now + 60_000_000_000 && h[i].response == response
  {
    var all := h + [Consume(code, now)];
    assert forall i | 0 <= i < |h| :: all[i] == h[i] && all[i].now <= all[|h|].now;
    assert Monotone(h) by { assert forall i, j | 0 <= i < j < |h| :: all[i].now <= all[j].now; }
    if code in EntriesAfter(h) {
      var k := EntryMeansOutstanding(h, code);
      assert forall i | Outstanding(h, i, code) :: i == k;
    }
    forall i | Outstanding(h, i, code) && now <= h[i].now + CODE_TTL ensures Redeemed(h, code, now) == Some(h[i].response) {
      OutstandingStaysUntilExpiry(h, i, code);
    }
  }

  /** With fresh codes each code is redeemed at most once. */
  lemma RedeemedAtMostOnce(h: seq<Event>, i: int, j: int)
    requires FreshCodes(h) && 0 <= i < j < |h|
    requires h[i].Consume? && h[j].Consume? && h[i].code == h[j].code
    requires Redeemed(h[..i], h[i].code, h[i].now).Some?
    ensures Redeemed(h[..j], h[j].code, h[j].now) == None
  {
    if Redeemed(h[..j], h[j].code, h[j].now).Some? {
      var p := EntryMeansOutstanding(h[..i], h[i].code);
      var q := EntryMeansOutstanding(h[..j], h[j].code);
      assert false;
    }
  }

  /** After a put the map holds exactly the unredeemed codes not past their expiry. */
  lemma EntriesAfterPut(h: seq<Event>, code: string)
    requires h != [] && h[|h| - 1].Put? && Monotone(h)
    ensures code in EntriesAfter(h) <==> exists i :: Outstanding(h, i, code) && h[|h| - 1].now <= h[i].now + CODE_TTL
  {
    var n := |h| - 1;
    if code in EntriesAfter(h) {
      var i := EntryMeansOutstanding(h, code);
      if i < n {
        assert !Expired(EntriesAfter(h[..n])[code], h[n].now);
      }
    }
    if i :| Outstanding(h, i, code) && h[n].now <= h[i].now + CODE_TTL {
      OutstandingStaysUntilExpiry(h, i, code);
    }
  }
}
