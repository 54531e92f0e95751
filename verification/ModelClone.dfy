/** Clone in model/secret.go and model/vault.go, and the cache that relies on it
    (internal/cachekit/cache.go), over heap objects that callers may go on writing to.
    The fields of a struct that nothing else can share are grouped, and so are its time
    pointers. */
module ModelClone {
  import opened Basics

  /** The target of a *time.Time. */
  class TimeCell {
    var at: int

    constructor (at: int)
      ensures this.at == at
    {
      this.at := at;
    }
  }

  function At(t: TimeCell?): Option<int>
    reads t
  {
    if t == null then None else Some(t.at)
  }

  /** The pointers of a secret or what they point to. */
  datatype Times<+T> = Times(deletedAt: T, expiresAt: T, notBefore: T, scheduledPurgeAt: T)

  datatype SecretFields = SecretFields(id: string, userId: string, vaultId: string, name: string, version: int,
                                       createdAt: int, purgeProtection: bool, enabled: bool, contentType: string)

  /** What a secret holds, whatever objects hold it.  `tags` is None for a nil slice. */
  datatype SecretValue = SecretValue(fields: SecretFields, value: string, tags: Option<seq<string>>, times: Times<Option<int>>)

  /** Appending nothing to a nil slice leaves it nil, so an empty tag list becomes nil. */
  function Cloned(v: SecretValue): SecretValue {
    if v.tags == Some([]) then v.(tags := None) else v
  }

  ghost function Cell(t: TimeCell?): set<object> { if t == null then {} else {t} }

  ghost function Cells(t: Times<TimeCell?>): set<object> {
    Cell(t.deletedAt) + Cell(t.expiresAt) + Cell(t.notBefore) + Cell(t.scheduledPurgeAt)
  }

  function TimesAt(t: Times<TimeCell?>): Times<Option<int>>
    reads t.deletedAt, t.expiresAt, t.notBefore, t.scheduledPurgeAt
  {
    Times(At(t.deletedAt), At(t.expiresAt), At(t.notBefore), At(t.scheduledPurgeAt))
  }

  /** No two pointers have one target. */
  ghost predicate Apart(t: Times<TimeCell?>) {
    && Cell(t.deletedAt) !! Cell(t.expiresAt) && Cell(t.notBefore) !! Cell(t.scheduledPurgeAt)
    && Cell(t.deletedAt) + Cell(t.expiresAt) !! Cell(t.notBefore) + Cell(t.scheduledPurgeAt)
  }

  method CloneTimePtr(t: TimeCell?) returns (c: TimeCell?)
    ensures c == null <==> t == null
    ensures c != null ==> fresh(c) && c.at == t.at
  {
    if t == null { return null; }
    c := new TimeCell(t.at);
  }

  method CloneTimes(t: Times<TimeCell?>) returns (c: Times<TimeCell?>)
    ensures fresh(Cells(c)) && Apart(c) && TimesAt(c) == TimesAt(t)
  {
    var expiresAt := CloneTimePtr(t.expiresAt);
    var notBefore := CloneTimePtr(t.notBefore);
    var deletedAt := CloneTimePtr(t.deletedAt);
    var scheduledPurgeAt := CloneTimePtr(t.scheduledPurgeAt);
    c := Times(deletedAt, expiresAt, notBefore, scheduledPurgeAt);
  }

  /** append([]string(nil), s...): nil when there is nothing to append. */
  method CopyStrings(s: array<string>) returns (c: array?<string>)
    ensures c == null <==> s[..] == []
    ensures c != null ==> fresh(c) && c[..] == s[..]
  {
    if s.Length == 0 { return null; }
    c := new string[s.Length];
    for i := 0 to s.Length
      invariant c[..i] == s[..i]
      modifies c
    {
      c[i] := s[i];
    }
    assert c[..] == c[..s.Length] && s[..] == s[..s.Length];
  }

  class Secret {
    var fields: SecretFields
    var value: string
    var tags: array?<string>
    var times: Times<TimeCell?>

    /** A shallow copy of every field. */
    constructor Copy(s: Secret)
      ensures fields == s.fields && value == s.value && tags == s.tags && times == s.times
    {
      fields, value, tags, times := s.fields, s.value, s.tags, s.times;
    }

    constructor Of(fields: SecretFields, value: string, tags: array?<string>, times: Times<TimeCell?>)
      ensures this.fields == fields && this.value == value && this.tags == tags && this.times == times
    {
      this.fields, this.value, this.tags, this.times := fields, value, tags, times;
    }

    /** The secret and the objects it points to. */
    ghost function Parts(): set<object>
      reads this
    {
      {this} + Cells(times) + if tags == null then {} else {tags}
    }

    ghost function Value(): SecretValue
      reads this, Parts()
    {
      SecretValue(fields, value, if tags == null then None else Some(tags[..]), TimesAt(times))
    }

    /** A copy that shares no object with the original, equal to it exactly unless the tag
        list is empty but not nil. */
    method Clone() returns (c: Secret)
      ensures fresh(c.Parts()) && Apart(c.times) && c.Value() == Cloned(old(Value()))
      ensures c.Value().(tags := old(Value()).tags) == old(Value())
      ensures c.tags == null <==> tags == null || tags.Length == 0
      ensures c.Value() == old(Value()) <==> tags == null || tags.Length > 0
    {
      var copied: array?<string> := null;
      if tags != null { copied := CopyStrings(tags); }
      var cloned := CloneTimes(times);
      c := new Secret.Copy(this);
      c.tags, c.times := copied, cloned;
    }

    method Zero()
      modifies this`value
      ensures value == ""
    {
      value := "";
    }

    /** What anyone who holds the secret may do to it, its tags and its times. */
    method Apply(w: Write)
      requires Apart(times)
      modifies Parts()
      ensures Parts() == old(Parts()) && times == old(times) && Value() == Written(old(Value()), w)
    {
      match w {
        case Clear => Zero();
        case SetFields(f) => fields := f;
        case SetValue(v) => value := v;
        case SetTag(j, tag) => if tags != null && j < tags.Length { tags[j] := tag; }
        case SetTime(which, at) =>
          var cell := Pick(times, which);
          if cell != null { cell.at := at; }
      }
    }
  }

  datatype Which = Deleted | Expires | Starts | Purges

  datatype Write = Clear | SetFields(fields: SecretFields) | SetValue(value: string) | SetTag(j: nat, tag: string)
                 | SetTime(which: Which, at: int)

  function Pick<T>(t: Times<T>, which: Which): T {
    match which
    case Deleted => t.deletedAt case Expires => t.expiresAt case Starts => t.notBefore case Purges => t.scheduledPurgeAt
  }

  function WithTime(t: Times<Option<int>>, which: Which, at: int): Times<Option<int>> {
    if Pick(t, which).None? then t else
      match which
      case Deleted => t.(deletedAt := Some(at)) case Expires => t.(expiresAt := Some(at))
      case Starts => t.(notBefore := Some(at)) case Purges => t.(scheduledPurgeAt := Some(at))
  }

  /** The value after a write, the write that points at nothing included. */
  function Written(v: SecretValue, w: Write): SecretValue {
    match w
    case Clear => v.(value := "")
    case SetFields(f) => v.(fields := f)
    case SetValue(value) => v.(value := value)
    case SetTag(j, tag) =>
      if v.tags.Some? && j < |v.tags.value| then v.(tags := Some(v.tags.value[j := tag])) else v
    case SetTime(which, at) => v.(times := WithTime(v.times, which, at))
  }

  /** A secret with the objects it lives in, no two of them alike, and what it held when
      this record was made. */
  class Copy {
    const secret: Secret
    ghost const own: set<object>
    ghost const value: SecretValue

    constructor (secret: Secret)
      requires Apart(secret.times)
      ensures this.secret == secret && own == secret.Parts() && value == secret.Value() && Intact()
    {
      this.secret, own, value := secret, secret.Parts(), secret.Value();
    }

    /** The secret still holds that. */
    ghost predicate Intact()
      reads own
    {
      secret in own && secret.Parts() == own && Apart(secret.times) && secret.Value() == value
    }
  }

  twostate lemma StaysIntact(c: Copy)
    requires old(c.Intact()) && unchanged(c.own)
    ensures c.Intact()
  {}

  datatype Cached = Cached(secret: SecretValue, expiresAt: int)

  datatype CacheEntry = CacheEntry(copy: Copy, expiresAt: int)

  method NewEntry(s: Secret, expiresAt: int) returns (e: CacheEntry)
    ensures fresh(e.copy.own) && e.copy.Intact() && e.copy.value == Cloned(old(s.Value())) && e.expiresAt == expiresAt
  {
    var c := s.Clone();
    var copy := new Copy(c);
    e := CacheEntry(copy, expiresAt);
  }

  ghost function ViewOf(data: map<string, CacheEntry>): map<string, Cached> {
    map k | k in data :: Cached(data[k].copy.value, data[k].expiresAt)
  }

  lemma ViewOfUpdate(data: map<string, CacheEntry>, key: string, e: CacheEntry)
    ensures ViewOf(data[key := e]) == ViewOf(data)[key := Cached(e.copy.value, e.expiresAt)]
  {}

  lemma ViewOfRemoval(data: map<string, CacheEntry>, key: string)
    ensures ViewOf(data - {key}) == ViewOf(data) - {key}
  {}

  lemma ReplacedAtOnce(data: map<string, CacheEntry>, key: string, e: CacheEntry)
    ensures (data - {key})[key := e] == data[key := e]
  {}

  /** A cache of secrets that clones on the way in and on the way out, and clears what it
      drops.  To its callers it is a map of values. */
  class Cache {
    const ttl: int
    var data: map<string, CacheEntry>
    ghost var repr: set<object>

    /** The cache owns every object of its entries, and no two entries share one. */
    ghost predicate Valid()
      reads this, repr
    {
      && this in repr
      && (forall k | k in data :: data[k].copy.own <= repr && this !in data[k].copy.own && data[k].copy.Intact())
      && (forall j, k | j in data && k in data && j != k :: data[j].copy.own !! data[k].copy.own)
      && (forall k | k in data :: Cloned(data[k].copy.value) == data[k].copy.value)
    }

    ghost function View(): map<string, Cached>
      reads this
    {
      ViewOf(data)
    }

    constructor (ttl: int)
      ensures Valid() && fresh(repr) && View() == map[] && this.ttl == ttl
    {
      this.ttl, data := ttl, map[];
      repr := {this};
    }

    /** Drops the entry and clears the dropped copy. */
    method Remove(key: string)
      requires Valid()
      modifies repr
      ensures Valid() && repr <= old(repr) && data == old(data) - {key}
      ensures key in old(data) ==> old(data)[key].copy.secret.value == ""
    {
      if key in data {
        var dropped := Detach(key);
        dropped.secret.Zero();
      } else {
        assert data - {key} == data;
      }
    }

    /** Gives up an entry, and with it the objects it lives in. */
    method Detach(key: string) returns (dropped: Copy)
      requires Valid() && key in data
      modifies this
      ensures Valid() && repr <= old(repr) && data == old(data) - {key}
      ensures dropped == old(data)[key].copy && dropped.secret in old(repr) - repr
    {
      dropped := data[key].copy;
      EntriesAreApart(key);
      data, repr := data - {key}, repr - dropped.own;
      OthersStayIntact(key);
    }

    lemma EntriesAreApart(key: string)
      requires Valid() && key in data
      ensures forall k | k in data && k != key :: data[k].copy.own <= repr - data[key].copy.own
    {
      forall k | k in data && k != key ensures data[k].copy.own <= repr - data[key].copy.own {
        assert data[k].copy.own !! data[key].copy.own;
      }
    }

    twostate lemma OthersStayIntact(key: string)
      requires old(Valid()) && data == old(data) - {key}
      requires forall o: object | o in old(repr) && o != this :: unchanged(o)
      ensures forall k | k in data :: data[k].copy.Intact()
    {
      forall k | k in data ensures data[k].copy.Intact() {
        StaysIntact(data[k].copy);
      }
    }

    /** Stores a clone, and clears the copy it displaces. */
    method Set(key: string, s: Secret, now: int)
      requires Valid() && s.Parts() !! repr
      modifies repr
      ensures Valid() && fresh(repr - old(repr))
      ensures key in data && data == old(data)[key := data[key]]
      ensures data[key].copy.value == Cloned(old(s.Value())) && data[key].expiresAt == now + ttl
      ensures key in old(data) ==> old(data)[key].copy.secret.value == ""
    {
      var e := NewEntry(s, now + ttl);
      Replace(key, e);
    }

    /** Stores the entry in place of whatever the key held, and clears that. */
    method Replace(key: string, e: CacheEntry)
      requires Valid() && e.copy.own !! repr && e.copy.Intact() && Cloned(e.copy.value) == e.copy.value
      modifies repr
      ensures Valid() && repr <= old(repr) + e.copy.own && data == old(data)[key := e]
      ensures key in old(data) ==> old(data)[key].copy.secret.value == ""
    {
      ReplacedAtOnce(data, key, e);
      Remove(key);
      Adopt(key, e);
    }

    /** Takes over a copy nobody else holds. */
    method Adopt(key: string, e: CacheEntry)
      requires Valid() && key !in data
      requires e.copy.own !! repr && e.copy.Intact() && Cloned(e.copy.value) == e.copy.value
      modifies this
      ensures Valid() && repr == old(repr) + e.copy.own && data == old(data)[key := e]
    {
      data, repr := data[key := e], repr + e.copy.own;
    }

    /** A hit returns a copy of its own; an expired entry is dropped. */
    method Get(key: string, now: int) returns (c: Secret?)
      requires Valid()
      modifies repr
      ensures Valid() && repr <= old(repr)
      ensures c != null <==> key in old(View()) && now <= old(View())[key].expiresAt
      ensures c != null ==> fresh(c.Parts()) && c.Value() == old(View())[key].secret && Apart(c.times) && View() == old(View())
      ensures c == null ==> View() == old(View()) - {key}
    {
      c := null;
      if key in data {
        if now > data[key].expiresAt {
          ViewOfRemoval(data, key);
          Remove(key);
        } else {
          c := data[key].copy.secret.Clone();
        }
      }
    }
  }

  /* ---------- callers that go on writing ---------- */

  datatype Op =
    | Make(v: SecretValue)                // a secret of the caller's own
    | Put(key: string, i: nat, now: int)  // caches the i-th secret held
    | Fetch(key: string, now: int)        // holds on to what the cache returns
    | Drop(key: string)                   // an invalidation, a sweep or an eviction
    | Edit(i: nat, w: Write)              // writes to the i-th secret held

  /** The cache and the secrets held, as values that share nothing. */
  datatype World = World(cached: map<string, Cached>, held: seq<SecretValue>)

  function Do(ttl: int, w: World, op: Op): World {
    match op
    case Make(v) => w.(held := w.held + [v])
    case Put(key, i, now) =>
      if i < |w.held| then w.(cached := w.cached[key := Cached(Cloned(w.held[i]), now + ttl)]) else w
    case Fetch(key, now) =>
      if key in w.cached && now <= w.cached[key].expiresAt then w.(held := w.held + [w.cached[key].secret])
      else w.(cached := w.cached - {key})
    case Drop(key) => w.(cached := w.cached - {key})
    case Edit(i, write) => if i < |w.held| then w.(held := w.held[i := Written(w.held[i], write)]) else w
  }

  function DoAll(ttl: int, w: World, ops: seq<Op>): World
    decreases |ops|
  {
    if ops == [] then w else Do(ttl, DoAll(ttl, w, ops[..|ops| - 1]), ops[|ops| - 1])
  }

  /** The ops leave the entry alone: none puts or drops the key, or finds it expired. */
  ghost predicate Spares(ops: seq<Op>, key: string, expiresAt: int) {
    forall i | 0 <= i < |ops| ::
      match ops[i]
      case Put(k, _, _) => k != key
      case Drop(k) => k != key
      case Fetch(k, now) => k == key ==> now <= expiresAt
      case _ => true
  }

  /** What was put is what is fetched, whatever was written to the secrets held, the one
      put and those fetched before included. */
  lemma {:induction false} PutThenFetched(ttl: int, w: World, key: string, i: nat, now: int, ops: seq<Op>, later: int)
    requires i < |w.held| && Spares(ops, key, now + ttl) && later <= now + ttl
    ensures var last := DoAll(ttl, Do(ttl, w, Put(key, i, now)), ops);
            && key in last.cached && last.cached[key] == Cached(Cloned(w.held[i]), now + ttl)
            && Do(ttl, last, Fetch(key, later)).held == last.held + [Cloned(w.held[i])]
    decreases |ops|
  {
    if ops != [] { PutThenFetched(ttl, w, key, i, now, ops[..|ops| - 1], later); }
  }

  /** Past its time an entry is not fetched any more, and is gone. */
  lemma ExpiredIsNotFetched(ttl: int, w: World, key: string, i: nat, now: int, ops: seq<Op>, later: int)
    requires i < |w.held| && Spares(ops, key, now + ttl) && later > now + ttl
    ensures var last := DoAll(ttl, Do(ttl, w, Put(key, i, now)), ops);
            Do(ttl, last, Fetch(key, later)) == World(last.cached - {key}, last.held)
  {
    PutThenFetched(ttl, w, key, i, now, ops, now + ttl);
  }

  method NewSecret(v: SecretValue) returns (s: Secret)
    ensures fresh(s.Parts()) && Apart(s.times) && s.Value() == v
  {
    var tags: array?<string> := null;
    if v.tags.Some? {
      var t := v.tags.value;
      tags := new string[|t|](i requires 0 <= i < |t| => t[i]);
      assert tags[..] == t;
    }
    var times := NewTimes(v.times);
    s := new Secret.Of(v.fields, v.value, tags, times);
  }

  method NewTime(v: Option<int>) returns (c: TimeCell?)
    ensures At(c) == v && (c != null ==> fresh(c))
  {
    c := null;
    if v.Some? { c := new TimeCell(v.value); }
  }

  method NewTimes(v: Times<Option<int>>) returns (c: Times<TimeCell?>)
    ensures fresh(Cells(c)) && Apart(c) && TimesAt(c) == v
  {
    var expiresAt := NewTime(v.expiresAt);
    var notBefore := NewTime(v.notBefore);
    var deletedAt := NewTime(v.deletedAt);
    var scheduledPurgeAt := NewTime(v.scheduledPurgeAt);
    c := Times(deletedAt, expiresAt, notBefore, scheduledPurgeAt);
  }

  /** While its own objects stay as they are, the cache keeps its view. */
  twostate lemma UntouchedCacheKeepsView(cache: Cache)
    requires old(cache.Valid()) && unchanged(cache) && unchanged(old(cache.repr))
    ensures cache.Valid() && cache.View() == old(cache.View())
  {}

  ghost function ValuesOf(held: seq<Copy>): seq<SecretValue> {
    seq(|held|, i requires 0 <= i < |held| => held[i].value)
  }

  lemma PutsItsValue(ttl: int, data: map<string, CacheEntry>, held: seq<Copy>, key: string, i: nat, now: int, e: CacheEntry)
    requires i < |held| && e.copy.value == Cloned(held[i].value) && e.expiresAt == now + ttl
    ensures World(ViewOf(data[key := e]), ValuesOf(held)) == Do(ttl, World(ViewOf(data), ValuesOf(held)), Put(key, i, now))
  {
    ViewOfUpdate(data, key, e);
  }

  /** The callers of one cache and the secrets they hold. */
  class Client {
    const cache: Cache
    var held: seq<Copy>
    ghost var parts: set<object>

    ghost predicate Valid()
      reads this, cache, cache.repr, parts
    {
      && cache.Valid() && this !in cache.repr && this !in parts && parts !! cache.repr
      && (forall i | 0 <= i < |held| :: held[i].own <= parts && held[i].Intact())
      && (forall i, j | 0 <= i < j < |held| :: held[i].own !! held[j].own)
    }

    ghost function View(): World
      reads this, cache
    {
      World(cache.View(), ValuesOf(held))
    }

    constructor (ttl: int)
      ensures Valid() && View() == World(map[], []) && cache.ttl == ttl
      ensures fresh(cache.repr) && parts == {}
    {
      cache := new Cache(ttl);
      held, parts := [], {};
    }

    /** The cache may change by itself. */
    twostate lemma StaysValid()
      requires old(Valid()) && unchanged(this) && unchanged(old(parts))
      requires cache.Valid() && this !in cache.repr && parts !! cache.repr
      ensures Valid()
    {
      forall i | 0 <= i < |held| ensures held[i].Intact() {
        StaysIntact(held[i]);
      }
    }

    /** Holds on to a secret that nobody else holds. */
    method Keep(s: Secret)
      requires Valid() && s.Parts() !! parts && s.Parts() !! cache.repr && this !in s.Parts() && Apart(s.times)
      modifies this
      ensures Valid() && parts == old(parts) + s.Parts()
      ensures View() == World(old(cache.View()), old(ValuesOf(held)) + [old(s.Value())])
    {
      var c := new Copy(s);
      Append(c);
    }

    method Append(c: Copy)
      requires Valid() && c.Intact() && c.own !! parts && c.own !! cache.repr && this !in c.own
      modifies this
      ensures Valid() && parts == old(parts) + c.own && held == old(held) + [c]
    {
      held, parts := held + [c], parts + c.own;
    }

    /** Only the i-th secret may have changed since its record was made. */
    ghost predicate ValidExcept(i: nat)
      reads this, cache, cache.repr, parts
    {
      && cache.Valid() && this !in cache.repr && this !in parts && parts !! cache.repr
      && (forall j | 0 <= j < |held| :: held[j].own <= parts && (j != i ==> held[j].Intact()))
      && (forall j, k | 0 <= j < k < |held| :: held[j].own !! held[k].own)
    }

    method ApplyAt(i: nat, w: Write)
      requires Valid() && i < |held|
      modifies held[i].own
      ensures ValidExcept(i) && cache.View() == old(cache.View())
      ensures var s := held[i].secret;
              held[i].own == s.Parts() && Apart(s.times) && s.Value() == Written(held[i].value, w)
    {
      held[i].secret.Apply(w);
      UntouchedCacheKeepsView(cache);
      forall j | 0 <= j < |held| && j != i ensures held[j].Intact() {
        StaysIntact(held[j]);
      }
    }

    method Renew(i: nat)
      requires i < |held| && ValidExcept(i) && held[i].own == held[i].secret.Parts() && Apart(held[i].secret.times)
      modifies this`held
      ensures Valid() && cache.View() == old(cache.View())
      ensures ValuesOf(held) == old(ValuesOf(held))[i := old(held[i].secret.Value())]
    {
      var c := new Copy(held[i].secret);
      held := held[i := c];
    }

    method EditOne(i: nat, w: Write)
      requires Valid() && i < |held|
      modifies this`held, parts
      ensures Valid() && View() == Do(cache.ttl, old(View()), Edit(i, w))
    {
      ghost var after := Do(cache.ttl, View(), Edit(i, w));
      ApplyAt(i, w);
      Renew(i);
      assert View() == after;
    }

    method MakeOne(v: SecretValue)
      requires Valid()
      modifies this
      ensures Valid() && fresh(parts - old(parts))
      ensures View() == Do(cache.ttl, old(View()), Make(v))
    {
      var s := NewSecret(v);
      Keep(s);
    }

    lemma HeldIsApart(i: nat)
      requires Valid() && i < |held|
      ensures held[i].secret.Parts() !! cache.repr && held[i].secret.Value() == held[i].value
    {}

    method PutOne(key: string, i: nat, now: int)
      requires Valid() && i < |held|
      modifies cache.repr
      ensures Valid() && fresh(cache.repr - old(cache.repr))
      ensures View() == Do(cache.ttl, old(View()), Put(key, i, now))
    {
      ghost var before := cache.data;
      HeldIsApart(i);
      cache.Set(key, held[i].secret, now);
      StaysValid();
      PutsItsValue(cache.ttl, before, held, key, i, now, cache.data[key]);
    }

    method FetchOne(key: string, now: int)
      requires Valid()
      modifies this, cache.repr
      ensures Valid() && fresh(parts - old(parts)) && cache.repr <= old(cache.repr)
      ensures View() == Do(cache.ttl, old(View()), Fetch(key, now))
    {
      ghost var before, w := View(), Do(cache.ttl, View(), Fetch(key, now));
      var s := cache.Get(key, now);
      StaysValid();
      assert ValuesOf(held) == before.held;
      if s != null { Keep(s); }
      assert View() == w;
    }

    method DropOne(key: string)
      requires Valid()
      modifies cache.repr
      ensures Valid() && cache.repr <= old(cache.repr)
      ensures View() == Do(cache.ttl, old(View()), Drop(key))
    {
      ViewOfRemoval(cache.data, key);
      cache.Remove(key);
    }

    method Step(op: Op)
      requires Valid()
      modifies this, parts, cache.repr
      ensures Valid() && fresh(parts - old(parts)) && fresh(cache.repr - old(cache.repr))
      ensures View() == Do(cache.ttl, old(View()), op)
    {
      match op {
        case Make(v) => MakeOne(v);
        case Put(key, i, now) => if i < |held| { PutOne(key, i, now); }
        case Fetch(key, now) => FetchOne(key, now);
        case Drop(key) => DropOne(key);
        case Edit(i, w) => if i < |held| { EditOne(i, w); }
      }
    }

    /** Whatever anyone does with what they hold, cache and secrets behave like values. */
    method Run(ops: seq<Op>)
      requires Valid()
      modifies this, parts, cache.repr
      ensures Valid() && View() == DoAll(cache.ttl, old(View()), ops)
    {
      for n := 0 to |ops|
        invariant Valid() && fresh(parts - old(parts)) && fresh(cache.repr - old(cache.repr))
        invariant View() == DoAll(cache.ttl, old(View()), ops[..n])
      {
        assert ops[..n + 1][..n] == ops[..n];
        Step(ops[n]);
      }
      assert ops[..|ops|] == ops;
    }
  }

  /* ---------- vaults ---------- */

  /** A Go map value: copying the reference shares it. */
  class TagMap {
    var m: map<string, string>

    constructor ()
      ensures m == map[]
    {
      m := map[];
    }
  }

  /** The target of a *uuid.UUID. */
  class IdCell {
    var id: string

    constructor (id: string)
      ensures this.id == id
    {
      this.id := id;
    }
  }

  datatype VaultFields = VaultFields(id: string, name: string, enabled: bool, purgeProtection: bool, retentionDays: int,
                                     createdBy: string, createdAt: int)

  /** What a vault holds; `tags` is None for a nil map. */
  datatype VaultValue = VaultValue(fields: VaultFields, tags: Option<map<string, string>>, deletedAt: Option<int>,
                                   scheduledPurgeAt: Option<int>, updatedAt: Option<int>, updatedBy: Option<string>)

  /** Fills a map of its own pair by pair, in whatever order the pairs come. */
  method CopyTags(t: TagMap) returns (copied: TagMap)
    ensures fresh(copied) && copied.m == t.m
  {
    copied := new TagMap();
    var pending := t.m.Keys;
    while pending != {}
      invariant pending <= t.m.Keys
      invariant fresh(copied) && copied.m == map k | k in t.m && k !in pending :: t.m[k]
      decreases |pending|
      modifies copied
    {
      var k :| k in pending;
      copied.m := copied.m[k := t.m[k]];
      pending := pending - {k};
    }
  }

  ghost function TagCell(t: TagMap?): set<object> { if t == null then {} else {t} }

  ghost function IdCells(c: IdCell?): set<object> { if c == null then {} else {c} }

  function TagsAt(t: TagMap?): Option<map<string, string>>
    reads t
  {
    if t == null then None else Some(t.m)
  }

  function IdAt(c: IdCell?): Option<string>
    reads c
  {
    if c == null then None else Some(c.id)
  }

  method CloneTags(t: TagMap?) returns (c: TagMap?)
    ensures fresh(TagCell(c)) && TagsAt(c) == TagsAt(t)
  {
    c := null;
    if t != null { c := CopyTags(t); }
  }

  method CloneId(t: IdCell?) returns (c: IdCell?)
    ensures fresh(IdCells(c)) && IdAt(c) == IdAt(t)
  {
    c := null;
    if t != null { c := new IdCell(t.id); }
  }

  method CloneThree(r: TimeCell?, s: TimeCell?, t: TimeCell?) returns (x: TimeCell?, y: TimeCell?, z: TimeCell?)
    ensures fresh(Cell(x)) && fresh(Cell(y)) && fresh(Cell(z))
    ensures At(x) == At(r) && At(y) == At(s) && At(z) == At(t)
  {
    x := CloneTimePtr(r);
    y := CloneTimePtr(s);
    z := CloneTimePtr(t);
  }

  class Vault {
    var fields: VaultFields
    var tags: TagMap?
    var deletedAt: TimeCell?
    var scheduledPurgeAt: TimeCell?
    var updatedAt: TimeCell?
    var updatedBy: IdCell?

    constructor Of(fields: VaultFields, tags: TagMap?, deletedAt: TimeCell?, scheduledPurgeAt: TimeCell?,
                   updatedAt: TimeCell?, updatedBy: IdCell?)
      ensures this.fields == fields && this.tags == tags && this.deletedAt == deletedAt
      ensures this.scheduledPurgeAt == scheduledPurgeAt && this.updatedAt == updatedAt && this.updatedBy == updatedBy
    {
      this.fields, this.tags, this.deletedAt := fields, tags, deletedAt;
      this.scheduledPurgeAt, this.updatedAt, this.updatedBy := scheduledPurgeAt, updatedAt, updatedBy;
    }

    /** The vault and the objects it points to. */
    ghost function Parts(): set<object>
      reads this
    {
      {this} + Cell(deletedAt) + Cell(scheduledPurgeAt) + Cell(updatedAt) + TagCell(tags) + IdCells(updatedBy)
    }

    ghost function Value(): VaultValue
      reads this, Parts()
    {
      VaultValue(fields, TagsAt(tags), At(deletedAt), At(scheduledPurgeAt), At(updatedAt), IdAt(updatedBy))
    }

    /** A copy that shares no object with the original, and is always equal to it. */
    method Clone() returns (c: Vault)
      ensures fresh(c.Parts()) && c.Value() == old(Value())
    {
      var copied := CloneTags(tags);
      var deleted, purged, updated := CloneThree(deletedAt, scheduledPurgeAt, updatedAt);
      var author := CloneId(updatedBy);
      c := new Vault.Of(fields, copied, deleted, purged, updated, author);
    }
  }
}
