/**
 Sealed exports: the AES-256-GCM framing of common/encrypt.go, the passphrase envelope of
 common/export_envelope.go and the item payload of common/item_export.go, four layers of
 printer and parser.  A Go string or byte slice is a sequence of bytes.
 */
module SealedExport {
  import opened Basics
  import Base64
  import Utf8

  type u32 = x: int | 0 <= x < 0x1_0000_0000
  type Nonce = n: Bytes | |n| == 12 witness seq(12, i => 0)
  type Salt = n: Bytes | |n| == 16 witness seq(16, i => 0)

  function Ascii(s: string): (bs: Bytes)
    requires forall i | 0 <= i < |s| :: s[i] < 128 as char
    ensures |bs| == |s| && forall i | 0 <= i < |s| :: bs[i] == s[i] as int
  {
    seq(|s|, i requires 0 <= i < |s| => s[i] as int)
  }

  datatype ArgonParams = ArgonParams(time: u32, memory: u32, threads: byte)

  datatype Envelope = Envelope(version: int, kdf: Bytes, params: ArgonParams, salt: Bytes, ciphertext: Bytes)

  datatype Item = Item(payloadVersion: int, kind: Bytes, id: Bytes, name: Bytes, version: int, format: Bytes,
                       keyAlgorithm: Bytes, content: Bytes)

  datatype Error =
    | BadKeyLength | NoRandomness | BadBase64 | TooShort | NotAuthentic
    | PassphraseRequired | NotAnExport | UnsupportedVersion(version: int) | UnsupportedKdf | MalformedSalt
    | BadTime | BadThreads | BadMemory | BadSaltLength | WrongPassphrase
    | UnknownKind | NotItemExport

  const FORMAT_VERSION := 1
  const ITEM_VERSION := 1
  const KEY_SIZE := 32
  const NONCE_SIZE := 12
  const SEAL_PARAMS := ArgonParams(1, 64 * 1024, 4)
  const MIN_MEMORY: u32 := 8 * 1024
  const MAX_MEMORY: u32 := 1024 * 1024
  const MIN_SALT := 8
  const MAX_SALT := 64
  const ARGON2ID: Bytes := Ascii("argon2id")
  const KIND_CERTIFICATE: Bytes := Ascii("certificate")
  const KIND_KEY: Bytes := Ascii("key")

  /* ---------- what the code calls into ---------- */

  datatype KdfCall = KdfCall(passphrase: Bytes, salt: Bytes, params: ArgonParams)

  /** argon2.IDKey panics below these bounds; callers must stay inside them. */
  predicate KdfAccepts(k: KdfCall) { k.params.time >= 1 && k.params.threads >= 1 }

  datatype Primitives = Primitives(
    idKey: KdfCall --> Bytes,
    seal: (Bytes, Bytes, Bytes) -> Bytes,         // key, nonce, plaintext
    open: (Bytes, Bytes, Bytes) -> Option<Bytes>, // key, nonce, ciphertext
    putEnvelope: Envelope -> Bytes,
    getEnvelope: Bytes -> Option<Envelope>,
    getVersion: Bytes -> Option<int>,
    putItem: Item -> Bytes,
    getItem: Bytes -> Option<Item>)

  predicate EnvelopeIsText(e: Envelope) {
    Utf8.Valid(e.kdf) && Utf8.Valid(e.salt) && Utf8.Valid(e.ciphertext)
  }

  predicate ItemIsText(p: Item) {
    Utf8.Valid(p.kind) && Utf8.Valid(p.id) && Utf8.Valid(p.name) && Utf8.Valid(p.format) && Utf8.Valid(p.keyAlgorithm)
  }

  ghost predicate IdealKdf(c: Primitives) {
    forall k: KdfCall :: KdfAccepts(k) ==> c.idKey.requires(k) && |c.idKey(k)| == KEY_SIZE
  }

  /** Opening succeeds on exactly what sealing under that key and nonce produced, and a
      ciphertext belongs to one key. */
  ghost predicate IdealAead(c: Primitives) {
    && (forall k: Bytes, n: Bytes, m: Bytes :: c.open(k, n, c.seal(k, n, m)) == Some(m))
    && (forall k: Bytes, n: Bytes, x: Bytes :: c.open(k, n, x).Some? ==> x == c.seal(k, n, c.open(k, n, x).value))
    && (forall k: Bytes, k': Bytes, n: Bytes, m: Bytes :: c.open(k', n, c.seal(k, n, m)).Some? ==> k == k')
  }

  /** encoding/json restores a value whose strings are valid UTF-8; a string that is not
      comes back with its bad bytes replaced, so nothing is said about those. */
  ghost predicate JsonInverts(c: Primitives) {
    && (forall e: Envelope :: EnvelopeIsText(e) ==> c.getEnvelope(c.putEnvelope(e)) == Some(e))
    && (forall d: Bytes :: c.getEnvelope(d).Some? ==> c.getVersion(d) == Some(c.getEnvelope(d).value.version))
    && (forall p: Item :: ItemIsText(p) ==> c.getItem(c.putItem(p)) == Some(p))
  }

  ghost predicate Ideal(c: Primitives) { IdealKdf(c) && IdealAead(c) && JsonInverts(c) }

  /** argon2.IDKey, called inside its bounds only. */
  function Key(c: Primitives, passphrase: Bytes, salt: Bytes, params: ArgonParams): (key: Bytes)
    requires IdealKdf(c) && KdfAccepts(KdfCall(passphrase, salt, params))
    ensures |key| == KEY_SIZE
  {
    c.idKey(KdfCall(passphrase, salt, params))
  }

  /* ---------- common/encrypt.go ---------- */

  /** `nonce` is what the random source returns, None when it fails. */
  function EncryptWithKey(c: Primitives, value: Bytes, key: Bytes, nonce: Option<Nonce>): Result<Bytes, Error> {
    if |key| != KEY_SIZE then Err(BadKeyLength)
    else if nonce.None? then Err(NoRandomness)
    else Ok(Base64.Encode(nonce.value + c.seal(key, nonce.value, value)))
  }

  function DecryptWithKey(c: Primitives, encrypted: Bytes, key: Bytes): Result<Bytes, Error> {
    if |key| != KEY_SIZE then Err(BadKeyLength) else
      var decoded := Base64.Decode(encrypted);
      if decoded.None? then Err(BadBase64)
      else if |decoded.value| < NONCE_SIZE then Err(TooShort)
      else
        var plain := c.open(key, decoded.value[..NONCE_SIZE], decoded.value[NONCE_SIZE..]);
        if plain.None? then Err(NotAuthentic) else Ok(plain.value)
  }

  lemma SplitFrame(n: Nonce, x: Bytes)
    ensures (n + x)[..NONCE_SIZE] == n && (n + x)[NONCE_SIZE..] == x
  {}

  /** A sealed value opens to itself under its own key and to nothing under another. */
  lemma DecryptEncrypt(c: Primitives, value: Bytes, key: Bytes, nonce: Nonce, key': Bytes)
    requires IdealAead(c) && |key| == |key'| == KEY_SIZE
    ensures DecryptWithKey(c, EncryptWithKey(c, value, key, Some(nonce)).value, key')
            == if key == key' then Ok(value) else Err(NotAuthentic)
  {
    Base64.DecodeEncode(nonce + c.seal(key, nonce, value));
    SplitFrame(nonce, c.seal(key, nonce, value));
  }

  /** Decryption accepts exactly the base64 of a nonce followed by what sealing the
      answer under that nonce gives. */
  lemma DecryptAcceptsExactly(c: Primitives, encrypted: Bytes, key: Bytes, value: Bytes)
    requires IdealAead(c) && |key| == KEY_SIZE
    ensures DecryptWithKey(c, encrypted, key) == Ok(value) <==>
            exists n: Nonce :: Base64.Decode(encrypted) == Some(n + c.seal(key, n, value))
  {
    var decoded := Base64.Decode(encrypted);
    if DecryptWithKey(c, encrypted, key) == Ok(value) {
      var n: Nonce := decoded.value[..NONCE_SIZE];
      assert decoded.value == n + decoded.value[NONCE_SIZE..];
    }
    if n: Nonce :| decoded == Some(n + c.seal(key, n, value)) {
      SplitFrame(n, c.seal(key, n, value));
    }
  }

  /* ---------- common/export_envelope.go ---------- */

  function ValidateArgonParams(p: ArgonParams, saltLen: nat): Option<Error> {
    if p.time < 1 then Some(BadTime)
    else if p.threads < 1 then Some(BadThreads)
    else if p.memory < MIN_MEMORY || p.memory > MAX_MEMORY then Some(BadMemory)
    else if saltLen < MIN_SALT || saltLen > MAX_SALT then Some(BadSaltLength)
    else None
  }

  /** The envelope that carries `ciphertext` and everything needed to derive its key. */
  function Wrap(params: ArgonParams, salt: Bytes, ciphertext: Bytes): Envelope {
    Envelope(FORMAT_VERSION, ARGON2ID, params, Base64.Encode(salt), ciphertext)
  }

  function SealExport(c: Primitives, plaintext: Bytes, passphrase: Bytes, salt: Option<Salt>, nonce: Option<Nonce>)
    : Result<Bytes, Error>
    requires IdealKdf(c)
  {
    if passphrase == [] then Err(PassphraseRequired)
    else if salt.None? then Err(NoRandomness)
    else
      var key := Key(c, passphrase, salt.value, SEAL_PARAMS);
      var ciphertext := EncryptWithKey(c, plaintext, key, nonce);
      if ciphertext.Err? then Err(ciphertext.error)
      else Ok(c.putEnvelope(Wrap(SEAL_PARAMS, salt.value, ciphertext.value)))
  }

  /** The call of Key below is checked against KdfAccepts for every input. */
  function OpenExport(c: Primitives, data: Bytes, passphrase: Bytes): Result<Bytes, Error>
    requires IdealKdf(c)
  {
    if passphrase == [] then Err(PassphraseRequired) else
      var env := c.getEnvelope(data);
      if env.None? then Err(NotAnExport)
      else if env.value.version != FORMAT_VERSION then Err(UnsupportedVersion(env.value.version))
      else if env.value.kdf != ARGON2ID then Err(UnsupportedKdf)
      else
        var salt := Base64.Decode(env.value.salt);
        if salt.None? then Err(MalformedSalt) else
          var invalid := ValidateArgonParams(env.value.params, |salt.value|);
          if invalid.Some? then Err(invalid.value)
          else
            var plaintext := DecryptWithKey(c, env.value.ciphertext, Key(c, passphrase, salt.value, env.value.params));
            if plaintext.Err? then Err(WrongPassphrase) else plaintext
  }

  function IsSealedExport(c: Primitives, data: Bytes): bool {
    var v := c.getVersion(data);
    v.Some? && v.value != 0
  }

  lemma Base64IsText(bs: Bytes)
    ensures Utf8.Valid(Base64.Encode(bs))
  {
    Base64.EncodeStaysInAlphabet(bs);
    Utf8.AsciiIsValid(Base64.Encode(bs));
  }

  lemma AsciiIsText(s: string)
    requires forall i | 0 <= i < |s| :: s[i] < 128 as char
    ensures Utf8.Valid(Ascii(s))
  {
    Utf8.AsciiIsValid(Ascii(s));
  }

  lemma WrappedIsText(params: ArgonParams, salt: Bytes, ciphertext: Bytes)
    requires Utf8.Valid(ciphertext)
    ensures EnvelopeIsText(Wrap(params, salt, ciphertext))
  {
    Base64IsText(salt);
    AsciiIsText("argon2id");
  }

  /** An envelope with any in-bounds parameters and salt opens under a passphrase exactly
      when that passphrase derives the key it was sealed with, and then to its plaintext;
      any other passphrase reports a wrong passphrase. */
  lemma OpenSealedWith(c: Primitives, plaintext: Bytes, passphrase: Bytes, params: ArgonParams, salt: Bytes, nonce: Nonce,
                       passphrase': Bytes)
    requires Ideal(c) && passphrase' != []
    requires ValidateArgonParams(params, |salt|) == None
    ensures var key := Key(c, passphrase, salt, params);
            var data := c.putEnvelope(Wrap(params, salt, EncryptWithKey(c, plaintext, key, Some(nonce)).value));
            && IsSealedExport(c, data)
            && OpenExport(c, data, passphrase') ==
               if Key(c, passphrase', salt, params) == key then Ok(plaintext) else Err(WrongPassphrase)
  {
    var key := Key(c, passphrase, salt, params);
    var ciphertext := EncryptWithKey(c, plaintext, key, Some(nonce)).value;
    Base64IsText(nonce + c.seal(key, nonce, plaintext));
    WrappedIsText(params, salt, ciphertext);
    OpenWrapped(c, params, salt, ciphertext, passphrase');
    DecryptEncrypt(c, plaintext, key, nonce, Key(c, passphrase', salt, params));
  }

  lemma OpenWrapped(c: Primitives, params: ArgonParams, salt: Bytes, ciphertext: Bytes, passphrase: Bytes)
    requires Ideal(c) && passphrase != [] && Utf8.Valid(ciphertext)
    requires ValidateArgonParams(params, |salt|) == None
    ensures var data := c.putEnvelope(Wrap(params, salt, ciphertext));
            var plaintext := DecryptWithKey(c, ciphertext, Key(c, passphrase, salt, params));
            && IsSealedExport(c, data)
            && OpenExport(c, data, passphrase) == if plaintext.Err? then Err(WrongPassphrase) else plaintext
  {
    var env := Wrap(params, salt, ciphertext);
    WrappedIsText(params, salt, ciphertext);
    assert c.getEnvelope(c.putEnvelope(env)) == Some(env);
    Base64.DecodeEncode(salt);
  }

  /** Everything OpenExport requires of a file it opens, and nothing more. */
  ghost predicate Opens(c: Primitives, data: Bytes, passphrase: Bytes, plaintext: Bytes)
    requires IdealKdf(c)
  {
    && passphrase != []
    && c.getEnvelope(data).Some?
    && var env := c.getEnvelope(data).value;
       && env.version == 1 && env.kdf == ARGON2ID
       && Base64.Decode(env.salt).Some?
       && var salt := Base64.Decode(env.salt).value;
          && 8 <= |salt| <= 64
          && env.params.time >= 1 && env.params.threads >= 1 && 8192 <= env.params.memory <= 1048576
          && exists n: Nonce ::
               Base64.Decode(env.ciphertext)
               == Some(n + c.seal(Key(c, passphrase, salt, env.params), n, plaintext))
  }

  /** On arbitrary input, OpenExport returns a plaintext exactly for those files. */
  lemma OpenAcceptsExactly(c: Primitives, data: Bytes, passphrase: Bytes, plaintext: Bytes)
    requires Ideal(c)
    ensures OpenExport(c, data, passphrase) == Ok(plaintext) <==> Opens(c, data, passphrase, plaintext)
  {
    var env := c.getEnvelope(data);
    if env.Some? && Base64.Decode(env.value.salt).Some? {
      var salt := Base64.Decode(env.value.salt).value;
      if ValidateArgonParams(env.value.params, |salt|) == None {
        DecryptAcceptsExactly(c, env.value.ciphertext, Key(c, passphrase, salt, env.value.params), plaintext);
      }
    }
  }

  /** A file says how it was sealed: version 1, argon2id with one pass over 64 MiB in four
      lanes, the 16 bytes of salt and the sealed plaintext. */
  lemma SealedHeader(c: Primitives, plaintext: Bytes, passphrase: Bytes, salt: Salt, nonce: Nonce, data: Bytes)
    requires Ideal(c) && SealExport(c, plaintext, passphrase, Some(salt), Some(nonce)) == Ok(data)
    ensures c.getEnvelope(data).Some? && HeaderSays(c.getEnvelope(data).value, ArgonParams(1, 65536, 4), salt)
    ensures Base64.Decode(c.getEnvelope(data).value.ciphertext)
            == Some(nonce + c.seal(Key(c, passphrase, salt, ArgonParams(1, 65536, 4)), nonce, plaintext))
  {
    var sealed := nonce + c.seal(Key(c, passphrase, salt, SEAL_PARAMS), nonce, plaintext);
    Base64IsText(sealed);
    Base64.DecodeEncode(sealed);
    WrappedIsText(SEAL_PARAMS, salt, Base64.Encode(sealed));
    WrappedSays(SEAL_PARAMS, salt, Base64.Encode(sealed));
    assert data == c.putEnvelope(Wrap(SEAL_PARAMS, salt, Base64.Encode(sealed)));
  }

  predicate HeaderSays(env: Envelope, params: ArgonParams, salt: Bytes) {
    env.version == 1 && env.kdf == Ascii("argon2id") && env.params == params && Base64.Decode(env.salt) == Some(salt)
  }

  lemma WrappedSays(params: ArgonParams, salt: Bytes, ciphertext: Bytes)
    ensures HeaderSays(Wrap(params, salt, ciphertext), params, salt)
  {
    Base64.DecodeEncode(salt);
  }

  /** Why sealing fails: the passphrase is asked for before any randomness is. */
  lemma SealErrors(c: Primitives, plaintext: Bytes, passphrase: Bytes, salt: Option<Salt>, nonce: Option<Nonce>)
    requires IdealKdf(c)
    ensures var r := SealExport(c, plaintext, passphrase, salt, nonce);
            && (r == Err(PassphraseRequired) <==> passphrase == [])
            && (r == Err(NoRandomness) <==> passphrase != [] && (salt.None? || nonce.None?))
            && (r.Ok? <==> passphrase != [] && salt.Some? && nonce.Some?)
  {}

  /** Whatever opens is recognised as sealed before it is opened, and a file without a
      version never is. */
  lemma OpenedIsSealed(c: Primitives, data: Bytes, passphrase: Bytes)
    requires Ideal(c)
    ensures OpenExport(c, data, passphrase).Ok? ==> IsSealedExport(c, data)
    ensures c.getVersion(data) == None || c.getVersion(data) == Some(0) ==> !IsSealedExport(c, data)
  {}

  /** A file whose header OpenExport accepts. */
  predicate HeaderOk(env: Envelope) {
    && env.version == 1 && env.kdf == Ascii("argon2id") && Base64.Decode(env.salt).Some?
    && 8 <= |Base64.Decode(env.salt).value| <= 64
    && env.params.time >= 1 && env.params.threads >= 1 && 8192 <= env.params.memory <= 1048576
  }

  /** Why opening fails: each fault of the file has its own error, and a wrong passphrase is
      reported exactly for a file without one that does not open. */
  lemma OpenErrors(c: Primitives, data: Bytes, passphrase: Bytes)
    requires Ideal(c)
    ensures OpenExport(c, data, passphrase) == Err(PassphraseRequired) <==> passphrase == []
    ensures passphrase != [] ==>
              var r, file := OpenExport(c, data, passphrase), c.getEnvelope(data);
              && (r == Err(NotAnExport) <==> file.None?)
              && (forall v :: r == Err(UnsupportedVersion(v)) <==> file.Some? && file.value.version == v != 1)
              && (r == Err(WrongPassphrase) <==>
                    file.Some? && HeaderOk(file.value) && forall m :: !Opens(c, data, passphrase, m))
              && (file.Some? && file.value.version == 1 && !HeaderOk(file.value) ==>
                    r.Err? && r.error in {UnsupportedKdf, MalformedSalt, BadTime, BadThreads, BadMemory, BadSaltLength})
  {
    var file := c.getEnvelope(data);
    forall m { OpenAcceptsExactly(c, data, passphrase, m); }
    if OpenExport(c, data, passphrase).Ok? { OpenAcceptsExactly(c, data, passphrase, OpenExport(c, data, passphrase).value); }
  }

  /** And which fault of the header each of those names. */
  lemma HeaderErrors(c: Primitives, data: Bytes, passphrase: Bytes)
    requires Ideal(c) && passphrase != [] && c.getEnvelope(data).Some? && c.getEnvelope(data).value.version == 1
    ensures var r, env := OpenExport(c, data, passphrase), c.getEnvelope(data).value;
            var params, salt := env.params, Base64.Decode(env.salt);
            var argon := env.kdf == Ascii("argon2id") && salt.Some?;
            && (r == Err(UnsupportedKdf) <==> env.kdf != Ascii("argon2id"))
            && (r == Err(MalformedSalt) <==> env.kdf == Ascii("argon2id") && salt.None?)
            && (r == Err(BadTime) <==> argon && params.time == 0)
            && (r == Err(BadThreads) <==> argon && params.time > 0 && params.threads == 0)
            && (r == Err(BadMemory) <==> argon && params.time > 0 && params.threads > 0 && !(8192 <= params.memory <= 1048576))
            && (r == Err(BadSaltLength) <==> argon && params.time > 0 && params.threads > 0 && 8192 <= params.memory <= 1048576
                                             && !(8 <= |salt.value| <= 64))
  {}

  /** Keys of any other length are refused before anything else, and so are texts too short
      to hold a nonce. */
  lemma FramingErrors(c: Primitives, value: Bytes, encrypted: Bytes, key: Bytes, nonce: Option<Nonce>)
    ensures EncryptWithKey(c, value, key, nonce) == Err(BadKeyLength) <==> |key| != 32
    ensures DecryptWithKey(c, encrypted, key) == Err(BadKeyLength) <==> |key| != 32
    ensures DecryptWithKey(c, encrypted, key) == Err(BadBase64) <==> |key| == 32 && Base64.Decode(encrypted).None?
    ensures DecryptWithKey(c, encrypted, key) == Err(TooShort) <==>
              |key| == 32 && Base64.Decode(encrypted).Some? && |Base64.Decode(encrypted).value| < 12
  {}

  /* ---------- common/item_export.go ---------- */

  predicate KnownKind(kind: Bytes) { kind == KIND_CERTIFICATE || kind == KIND_KEY }

  function SealItemExport(c: Primitives, p: Item, passphrase: Bytes, salt: Option<Salt>, nonce: Option<Nonce>)
    : Result<Bytes, Error>
    requires IdealKdf(c)
  {
    if !KnownKind(p.kind) then Err(UnknownKind)
    else SealExport(c, c.putItem(p.(payloadVersion := ITEM_VERSION)), passphrase, salt, nonce)
  }

  function OpenItemExport(c: Primitives, data: Bytes, passphrase: Bytes): (r: Result<Item, Error>)
    requires IdealKdf(c)
    ensures r.Ok? ==> KnownKind(r.value.kind) && r.value.payloadVersion == 1
  {
    var plain := OpenExport(c, data, passphrase);
    if plain.Err? then Err(plain.error) else
      var p := c.getItem(plain.value);
      if p.None? then Err(NotItemExport)
      else if p.value.payloadVersion == 0 then Err(NotItemExport)
      else if p.value.payloadVersion != ITEM_VERSION then Err(UnsupportedVersion(p.value.payloadVersion))
      else if !KnownKind(p.value.kind) then Err(NotItemExport)
      else Ok(p.value)
  }

  /** Sealing fails for an unknown kind, an empty passphrase or a failing random source,
      and for nothing else. */
  lemma SealItemSucceedsIff(c: Primitives, p: Item, passphrase: Bytes, salt: Option<Salt>, nonce: Option<Nonce>)
    requires IdealKdf(c)
    ensures SealItemExport(c, p, passphrase, salt, nonce).Ok? <==>
            KnownKind(p.kind) && passphrase != [] && salt.Some? && nonce.Some?
  {}

  /** Opening a sealed item with the same passphrase returns the item, payload version
      set; a passphrase that derives another key is refused. */
  lemma OpenSealedItem(c: Primitives, p: Item, passphrase: Bytes, salt: Salt, nonce: Nonce, passphrase': Bytes, data: Bytes)
    requires Ideal(c) && ItemIsText(p) && passphrase' != []
    requires SealItemExport(c, p, passphrase, Some(salt), Some(nonce)) == Ok(data)
    ensures IsSealedExport(c, data)
    ensures OpenItemExport(c, data, passphrase') ==
            if Key(c, passphrase', salt, SEAL_PARAMS) == Key(c, passphrase, salt, SEAL_PARAMS)
            then Ok(p.(payloadVersion := 1))
            else Err(WrongPassphrase)
  {
    var q := p.(payloadVersion := ITEM_VERSION);
    OpenSealedWith(c, c.putItem(q), passphrase, SEAL_PARAMS, salt, nonce, passphrase');
    assert c.getItem(c.putItem(q)) == Some(q);
  }

  /** An item export opens to its item exactly if it opens to an item payload of version 1
      and of kind certificate or key; every other sealed file is either of another payload
      version or no item export. */
  lemma OpenItemIff(c: Primitives, data: Bytes, passphrase: Bytes, p: Item)
    requires IdealKdf(c)
    ensures var plain, r := OpenExport(c, data, passphrase), OpenItemExport(c, data, passphrase);
            && (plain.Err? ==> r == Err(plain.error))
            && (plain.Ok? ==>
                  var item := c.getItem(plain.value);
                  var known := item.Some? && (item.value.kind == Ascii("certificate") || item.value.kind == Ascii("key"));
                  && (r == Ok(p) <==> known && item == Some(p) && p.payloadVersion == 1)
                  && (r == Err(NotItemExport) <==>
                        item.None? || item.value.payloadVersion == 0 || (item.value.payloadVersion == 1 && !known))
                  && (r.Err? ==> r.error == NotItemExport || r.error == UnsupportedVersion(item.value.payloadVersion)))
  {}

  /** A sealed file that is not an item export, such as a sealed secrets export, is told
      apart from one opened with the wrong passphrase. */
  lemma OtherSealedFilesAreNotItems(c: Primitives, plaintext: Bytes, passphrase: Bytes, salt: Salt, nonce: Nonce, data: Bytes)
    requires Ideal(c)
    requires SealExport(c, plaintext, passphrase, Some(salt), Some(nonce)) == Ok(data)
    requires c.getItem(plaintext).None? || c.getItem(plaintext).value.payloadVersion == 0
    ensures OpenItemExport(c, data, passphrase) == Err(NotItemExport)
  {
    OpenSealedWith(c, plaintext, passphrase, SEAL_PARAMS, salt, nonce, passphrase);
  }
}
