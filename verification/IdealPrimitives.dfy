/** The laws SealedExport assumes of its key derivation, cipher and JSON codec can all hold
    at once: a symbolic instance satisfies them. */
module IdealPrimitives {
  import opened Basics
  import opened SealedExport

  /** A byte string preceded by its length in unary, so that it shows where it ends. */
  function Field(b: Bytes): Bytes { Count(|b|) + b }

  function Count(n: nat): Bytes { seq(n, i => 1) + [0] }

  lemma CountIsReadable(m: nat, x: Bytes, n: nat, y: Bytes)
    requires Count(m) + x == Count(n) + y
    ensures m == n && x == y
  {
    var s, t := Count(m) + x, Count(n) + y;
    assert s[m] == 0 && t[n] == 0;
    assert forall i | 0 <= i < m :: s[i] == 1;
    assert forall i | 0 <= i < n :: t[i] == 1;
    assert x == s[m + 1..] && y == t[n + 1..];
  }

  lemma FieldIsReadable(a: Bytes, x: Bytes, b: Bytes, y: Bytes)
    requires Field(a) + x == Field(b) + y
    ensures a == b && x == y
  {
    assert Field(a) + x == Count(|a|) + (a + x) && Field(b) + y == Count(|b|) + (b + y);
    CountIsReadable(|a|, a + x, |b|, b + y);
    assert a == (a + x)[..|a|] && b == (b + y)[..|b|];
    assert x == (a + x)[|a|..] && y == (b + y)[|b|..];
  }

  function Number(n: int): Bytes { Count(if n >= 0 then 2 * n else -2 * n - 1) }

  lemma NumberIsReadable(m: int, x: Bytes, n: int, y: Bytes)
    requires Number(m) + x == Number(n) + y
    ensures m == n && x == y
  {
    CountIsReadable(if m >= 0 then 2 * m else -2 * m - 1, x, if n >= 0 then 2 * n else -2 * n - 1, y);
  }

  function PutEnvelope(e: Envelope): Bytes {
    Number(e.version) + (Field(e.kdf) + (Number(e.params.time) + (Number(e.params.memory) + (Number(e.params.threads)
    + (Field(e.salt) + (Field(e.ciphertext) + []))))))
  }

  lemma PutEnvelopeInjective(e: Envelope, f: Envelope)
    requires PutEnvelope(e) == PutEnvelope(f)
    ensures e == f
  {
    var e6, f6 := Field(e.ciphertext) + [], Field(f.ciphertext) + [];
    var e5, f5 := Field(e.salt) + e6, Field(f.salt) + f6;
    var e4, f4 := Number(e.params.threads) + e5, Number(f.params.threads) + f5;
    var e3, f3 := Number(e.params.memory) + e4, Number(f.params.memory) + f4;
    var e2, f2 := Number(e.params.time) + e3, Number(f.params.time) + f3;
    var e1, f1 := Field(e.kdf) + e2, Field(f.kdf) + f2;
    NumberIsReadable(e.version, e1, f.version, f1);
    FieldIsReadable(e.kdf, e2, f.kdf, f2);
    NumberIsReadable(e.params.time, e3, f.params.time, f3);
    NumberIsReadable(e.params.memory, e4, f.params.memory, f4);
    NumberIsReadable(e.params.threads, e5, f.params.threads, f5);
    FieldIsReadable(e.salt, e6, f.salt, f6);
    FieldIsReadable(e.ciphertext, [], f.ciphertext, []);
  }

  function PutItem(p: Item): Bytes {
    Number(p.payloadVersion) + (Field(p.kind) + (Field(p.id) + (Field(p.name) + (Number(p.version) + (Field(p.format)
    + (Field(p.keyAlgorithm) + (Field(p.content) + [])))))))
  }

  lemma PutItemInjective(p: Item, q: Item)
    requires PutItem(p) == PutItem(q)
    ensures p == q
  {
    var p7, q7 := Field(p.content) + [], Field(q.content) + [];
    var p6, q6 := Field(p.keyAlgorithm) + p7, Field(q.keyAlgorithm) + q7;
    var p5, q5 := Field(p.format) + p6, Field(q.format) + q6;
    var p4, q4 := Number(p.version) + p5, Number(q.version) + q5;
    var p3, q3 := Field(p.name) + p4, Field(q.name) + q4;
    var p2, q2 := Field(p.id) + p3, Field(q.id) + q3;
    var p1, q1 := Field(p.kind) + p2, Field(q.kind) + q2;
    NumberIsReadable(p.payloadVersion, p1, q.payloadVersion, q1);
    FieldIsReadable(p.kind, p2, q.kind, q2);
    FieldIsReadable(p.id, p3, q.id, q3);
    FieldIsReadable(p.name, p4, q.name, q4);
    NumberIsReadable(p.version, p5, q.version, q5);
    FieldIsReadable(p.format, p6, q.format, q6);
    FieldIsReadable(p.keyAlgorithm, p7, q.keyAlgorithm, q7);
    FieldIsReadable(p.content, [], q.content, []);
  }

  ghost function GetEnvelope(d: Bytes): Option<Envelope> {
    if e: Envelope :| PutEnvelope(e) == d then Some(e) else None
  }

  ghost function GetItem(d: Bytes): Option<Item> {
    if p: Item :| PutItem(p) == d then Some(p) else None
  }

  ghost function GetVersion(d: Bytes): Option<int> {
    if GetEnvelope(d).Some? then Some(GetEnvelope(d).value.version) else None
  }

  function SymbolicSeal(k: Bytes, n: Bytes, m: Bytes): Bytes { Field(k) + (Field(n) + m) }

  function SymbolicOpen(k: Bytes, n: Bytes, x: Bytes): Option<Bytes> {
    var header := Field(k) + Field(n);
    if header <= x then Some(x[|header|..]) else None
  }

  ghost function Symbolic(): Primitives {
    Primitives((k: KdfCall) => seq(32, i => 0), (k, n, m) => SymbolicSeal(k, n, m), (k, n, x) => SymbolicOpen(k, n, x),
               e => PutEnvelope(e), d => GetEnvelope(d), d => GetVersion(d), p => PutItem(p), d => GetItem(d))
  }

  lemma SymbolicOpenSeal(k: Bytes, n: Bytes, m: Bytes)
    ensures SymbolicOpen(k, n, SymbolicSeal(k, n, m)) == Some(m)
  {
    assert SymbolicSeal(k, n, m) == (Field(k) + Field(n)) + m;
  }

  lemma SymbolicOpensOnlySealed(k: Bytes, n: Bytes, x: Bytes)
    requires SymbolicOpen(k, n, x).Some?
    ensures x == SymbolicSeal(k, n, SymbolicOpen(k, n, x).value)
  {
    var header := Field(k) + Field(n);
    assert SymbolicSeal(k, n, x[|header|..]) == header + x[|header|..];
  }

  lemma SymbolicCommitsToKey(k: Bytes, k': Bytes, n: Bytes, m: Bytes)
    requires SymbolicOpen(k', n, SymbolicSeal(k, n, m)).Some?
    ensures k == k'
  {
    var x, header := SymbolicSeal(k, n, m), Field(k') + Field(n);
    assert x == Field(k') + (Field(n) + x[|header|..]);
    FieldIsReadable(k, Field(n) + m, k', Field(n) + x[|header|..]);
  }

  lemma GetPutEnvelope(e: Envelope)
    ensures GetEnvelope(PutEnvelope(e)) == Some(e)
  {
    var found := GetEnvelope(PutEnvelope(e));
    assert found.Some? && PutEnvelope(found.value) == PutEnvelope(e);
    PutEnvelopeInjective(e, found.value);
  }

  lemma GetPutItem(p: Item)
    ensures GetItem(PutItem(p)) == Some(p)
  {
    var found := GetItem(PutItem(p));
    assert found.Some? && PutItem(found.value) == PutItem(p);
    PutItemInjective(p, found.value);
  }

  /** The laws are consistent. */
  lemma SymbolicIsIdeal()
    ensures IdealKdf(Symbolic()) && IdealAead(Symbolic()) && JsonInverts(Symbolic())
  {
    var c := Symbolic();
    forall k: Bytes, n: Bytes, m: Bytes ensures c.open(k, n, c.seal(k, n, m)) == Some(m) { SymbolicOpenSeal(k, n, m); }
    forall k: Bytes, n: Bytes, x: Bytes | c.open(k, n, x).Some? ensures x == c.seal(k, n, c.open(k, n, x).value) {
      SymbolicOpensOnlySealed(k, n, x);
    }
    forall k: Bytes, k': Bytes, n: Bytes, m: Bytes | c.open(k', n, c.seal(k, n, m)).Some? ensures k == k' {
      SymbolicCommitsToKey(k, k', n, m);
    }
    forall e: Envelope ensures c.getEnvelope(c.putEnvelope(e)) == Some(e) { GetPutEnvelope(e); }
    forall p: Item ensures c.getItem(c.putItem(p)) == Some(p) { GetPutItem(p); }
  }
}
