/**
 The CLI session cache (common/session.go): one file per server and user, a pointer file
 for the current session, and a legacy file name read as a fallback and rewritten lazily.
 Run by run, the directory of files is a plain map from (server key, username) to session
 with an optional current entry.
 */
module SessionStore {
  import opened Basics
  import opened ServerKey

  datatype Session = Session(token: string, refreshToken: string, userId: string, username: string,
                             roles: seq<string>, expiresAt: int, serverKey: string)

  /** A file holds a session's JSON, or text that is not one: a pointer, or the remains
      of a write that failed half way. */
  datatype Blob = Json(session: Session) | Text(text: string)

  type Files = map<string, Blob>

  /** How os.WriteFile ends.  It truncates first, so a failure can leave part of the data,
      and it can report a failing close after writing all of it. */
  datatype Io = Written | Unclosed | Untouched | Torn(left: string)

  datatype SaveIo = SaveIo(mkdirFails: bool, file: Io, pointer: Io)
  datatype LoadIo = LoadIo(pointerUnreadable: bool, unreadable: bool, rewrite: Io)
  datatype DeleteIo = DeleteIo(fileFails: bool, legacyFails: bool, pointerUnreadable: bool, pointerFails: bool)

  datatype Reply = Okay | Found(session: Session) | NoSession | IoError

  function WriteBlob(files: Files, name: string, blob: Blob, io: Io): Files {
    match io
    case Written => files[name := blob]
    case Unclosed => files[name := blob]
    case Untouched => files
    case Torn(left) => files[name := Text(left)]
  }

  function NormalKey(key: string): string { if key == "" then LOCAL else key }

  function Normal(s: Session): Session { s.(serverKey := NormalKey(s.serverKey)) }

  function TextOf(b: Blob): string { if b.Text? then b.text else "" }

  /* ---------- what each operation does to the files ---------- */

  function Save(files: Files, s: Session, io: SaveIo): (Files, Reply) {
    var n := Normal(s);
    if io.mkdirFails then (files, IoError) else
      var written := WriteBlob(files, FileName(n.serverKey, n.username), Json(n), io.file);
      if io.file != Written then (written, IoError) else
        (WriteBlob(written, CURRENT, Text(Pointer(n.serverKey, n.username)), io.pointer),
         if io.pointer == Written then Okay else IoError)
  }

  /** The file a load reads: the new name first, then, locally, the legacy one. */
  function Slot(files: Files, key: string, user: string): Option<string> {
    if FileName(key, user) in files then Some(FileName(key, user))
    else if key == LOCAL && LegacyName(user) in files then Some(LegacyName(user))
    else None
  }

  /** The session a load finds; a corrupt file is no session. */
  function Stored(files: Files, key: string, user: string): Option<Session> {
    var slot := Slot(files, key, user);
    if slot.Some? && slot.value in files && files[slot.value].Json? then Some(Normal(files[slot.value].session)) else None
  }

  function Migrated(files: Files, user: string, s: Session, io: Io): Files {
    if s.serverKey == LOCAL && FileName(LOCAL, user) !in files then
      WriteBlob(files, FileName(s.serverKey, s.username), Json(s), io)
    else files
  }

  function Load(files: Files, key: string, user: string, io: LoadIo): (Files, Reply) {
    var found := Stored(files, NormalKey(key), user);
    if io.unreadable then (files, IoError)
    else if found.None? then (files, NoSession)
    else (Migrated(files, user, found.value, io.rewrite), Found(found.value))
  }

  function LoadCurrent(files: Files, io: LoadIo): (Files, Reply) {
    if io.pointerUnreadable then (files, IoError)
    else if CURRENT !in files then (files, NoSession)
    else var (key, user) := ParsePointer(TextOf(files[CURRENT])); Load(files, key, user, io)
  }

  function Delete(files: Files, key: string, user: string, io: DeleteIo): (Files, Reply) {
    var k := NormalKey(key);
    if io.fileFails then (files, IoError) else
      var noFile := files - {FileName(k, user)};
      if k == LOCAL && io.legacyFails then (noFile, IoError) else
        var removed := if k == LOCAL then noFile - {LegacyName(user)} else noFile;
        if io.pointerUnreadable then (removed, IoError)
        else if CURRENT !in removed || ParsePointer(TextOf(removed[CURRENT])) != (k, user) then (removed, Okay)
        else if io.pointerFails then (removed, IoError)
        else (removed - {CURRENT}, Okay)
  }

  /* ---------- the code itself ---------- */

  class SessionStore {
    var files: Files

    constructor (files: Files)
      ensures this.files == files
    {
      this.files := files;
    }

    method WriteFile(name: string, blob: Blob, io: Io) returns (ok: bool)
      modifies this
      ensures files == WriteBlob(old(files), name, blob, io) && ok == (io == Written)
    {
      match io {
        case Written => files := files[name := blob];
        case Unclosed => files := files[name := blob];
        case Untouched =>
        case Torn(left) => files := files[name := Text(left)];
      }
      ok := io == Written;
    }

    /** Writes the session's file and returns it with its server key filled in. */
    method WriteSessionFile(session: Session, mkdirFails: bool, io: Io) returns (s: Session, ok: bool)
      modifies this
      ensures s == Normal(session) && ok == (!mkdirFails && io == Written)
      ensures files == if mkdirFails then old(files)
                       else WriteBlob(old(files), FileName(s.serverKey, s.username), Json(s), io)
    {
      s := session;
      if s.serverKey == "" { s := s.(serverKey := LOCAL); }
      if mkdirFails { return s, false; }
      ok := WriteFile(FileName(s.serverKey, s.username), Json(s), io);
    }

    method SaveSession(session: Session, io: SaveIo) returns (r: Reply)
      modifies this
      ensures (files, r) == Save(old(files), session, io)
    {
      var s, ok := WriteSessionFile(session, io.mkdirFails, io.file);
      if !ok { return IoError; }
      var pointer := s.serverKey + "|" + s.username;
      ok := WriteFile(CURRENT, Text(pointer), io.pointer);
      if !ok { return IoError; }
      return Okay;
    }

    method LoadSessionForServer(serverKey: string, username: string, io: LoadIo) returns (r: Reply)
      modifies this
      ensures (files, r) == Load(old(files), serverKey, username, io)
    {
      var key := serverKey;
      if key == "" { key := LOCAL; }
      if io.unreadable { return IoError; }
      var name := FileName(key, username);
      if name !in files && key == LOCAL { name := LegacyName(username); }
      if name !in files { return NoSession; }
      if files[name].Text? { return NoSession; }
      var session := files[name].session;
      if session.serverKey == "" { session := session.(serverKey := LOCAL); }
      if session.serverKey == LOCAL {
        if FileName(LOCAL, username) !in files {
          var _, _ := WriteSessionFile(session, false, io.rewrite);
        }
      }
      return Found(session);
    }

    method LoadCurrentSession(io: LoadIo) returns (r: Reply)
      modifies this
      ensures (files, r) == LoadCurrent(old(files), io)
    {
      if io.pointerUnreadable { return IoError; }
      if CURRENT !in files { return NoSession; }
      var (key, user) := ParsePointer(TextOf(files[CURRENT]));
      r := LoadSessionForServer(key, user, io);
    }

    method DeleteSessionForServer(serverKey: string, username: string, io: DeleteIo) returns (r: Reply)
      modifies this
      ensures (files, r) == Delete(old(files), serverKey, username, io)
    {
      var key := serverKey;
      if key == "" { key := LOCAL; }
      if io.fileFails { return IoError; }
      files := files - {FileName(key, username)};
      if key == LOCAL {
        if io.legacyFails { return IoError; }
        files := files - {LegacyName(username)};
      }
      if io.pointerUnreadable { return IoError; }
      if CURRENT !in files { return Okay; }
      var (currentKey, currentUser) := ParsePointer(TextOf(files[CURRENT]));
      if currentKey == key && currentUser == username {
        if io.pointerFails { return IoError; }
        files := files - {CURRENT};
      }
      return Okay;
    }
  }

  /* ---------- the plain map behind the files ---------- */

  /** The server keys and usernames in play. */
  datatype Scope = Scope(keys: set<string>, users: set<string>)

  /** Keys as SanitizeServerKey makes them: the local one is there, and none is empty or
      has the pointer's separator in it. */
  ghost predicate Proper(sc: Scope) {
    LOCAL in sc.keys && forall k | k in sc.keys :: k != "" && Without(k, '|')
  }

  /** No two entries have a file name in common, legacy names included. */
  ghost predicate NoSharedNames(sc: Scope) {
    forall k, u, k', u' | k in sc.keys && u in sc.users && k' in sc.keys && u' in sc.users && (k, u) != (k', u') ::
      FileName(k, u) != FileName(k', u') && (k == LOCAL ==> LegacyName(u) != FileName(k', u'))
  }

  ghost predicate Unambiguous(sc: Scope) { Proper(sc) && NoSharedNames(sc) }

  ghost predicate InScope(sc: Scope, key: string, user: string) { key in sc.keys && user in sc.users }

  datatype Store = Store(sessions: map<(string, string), Session>, current: Option<(string, string)>)

  ghost function Pairs(sc: Scope): set<(string, string)> {
    set k, u | k in sc.keys && u in sc.users :: (k, u)
  }

  ghost function Abs(files: Files, sc: Scope): Store {
    Store(map p | p in Pairs(sc) && Stored(files, p.0, p.1).Some? :: Stored(files, p.0, p.1).value,
          CurrentOf(files))
  }

  /** Each file in scope holds the session its name promises, or no session at all, and
      the current entry is in scope. */
  ghost predicate Consistent(files: Files, sc: Scope) {
    && (forall k, u | k in sc.keys && u in sc.users :: HoldsOwn(files, FileName(k, u), k, u))
    && (forall u | u in sc.users :: HoldsOwn(files, LegacyName(u), LOCAL, u))
    && (CURRENT in files ==> var (k, u) := ParsePointer(TextOf(files[CURRENT])); InScope(sc, k, u))
  }

  predicate HoldsOwn(files: Files, name: string, key: string, user: string) {
    name in files && files[name].Json? ==>
      Normal(files[name].session).serverKey == key && files[name].session.username == user
  }

  datatype Action =
    | Saving(session: Session, saveIo: SaveIo)
    | Loading(key: string, user: string, loadIo: LoadIo)
    | LoadingCurrent(loadIo: LoadIo)
    | Deleting(key: string, user: string, deleteIo: DeleteIo)

  function Step(files: Files, a: Action): (Files, Reply) {
    match a
    case Saving(s, io) => Save(files, s, io)
    case Loading(k, u, io) => Load(files, k, u, io)
    case LoadingCurrent(io) => LoadCurrent(files, io)
    case Deleting(k, u, io) => Delete(files, k, u, io)
  }

  /** The action stays in scope, and so does what a half-written pointer names. */
  ghost predicate Admissible(a: Action, sc: Scope) {
    match a
    case Saving(s, io) =>
      && InScope(sc, Normal(s).serverKey, s.username)
      && (io.pointer.Torn? ==> InScope(sc, ParsePointer(io.pointer.left).0, ParsePointer(io.pointer.left).1))
    case Loading(k, u, _) => InScope(sc, NormalKey(k), u)
    case LoadingCurrent(_) => true
    case Deleting(k, u, _) => InScope(sc, NormalKey(k), u)
  }

  ghost predicate SameExcept(m: map<(string, string), Session>, m': map<(string, string), Session>, p: (string, string)) {
    m - {p} == m' - {p}
  }

  /** A load of p answers from the map.  It changes nothing, except that a lazy rewrite
      torn half way loses p. */
  ghost predicate LoadSpec(st: Store, p: (string, string), io: LoadIo, st': Store, r: Reply) {
    && (io.unreadable ==> r == IoError && st' == st)
    && (!io.unreadable ==> r == if p in st.sessions then Found(st.sessions[p]) else NoSession)
    && (st' == st || (io.rewrite.Torn? && st' == st.(sessions := st.sessions - {p})))
  }

  /** The save gets as far as the pointer and leaves part of it. */
  predicate TearsPointer(io: SaveIo) { !io.mkdirFails && io.file == Written && io.pointer.Torn? }

  /** What a write over an old value leaves to be read. */
  function Left<T>(io: Io, before: Option<T>, after: T, torn: Option<T>): Option<T> {
    match io
    case Written => Some(after)
    case Unclosed => Some(after)
    case Untouched => before
    case Torn(_) => torn
  }

  function TornPointer(io: Io): Option<(string, string)> {
    if io.Torn? then Some(ParsePointer(io.left)) else None
  }

  /** What a save of n as p does to the map and its current entry, however it ends. */
  function Saved(st: Store, p: (string, string), n: Session, io: SaveIo): Store {
    if io.mkdirFails then st else
      var sessions := WithEntry(st.sessions, p, Left(io.file, Lookup(st.sessions, p), n, None));
      Store(sessions,
            if io.file == Written then Left(io.pointer, st.current, p, TornPointer(io.pointer)) else st.current)
  }

  function Lookup(m: map<(string, string), Session>, p: (string, string)): Option<Session> {
    if p in m then Some(m[p]) else None
  }

  function WithEntry(m: map<(string, string), Session>, p: (string, string), v: Option<Session>): map<(string, string), Session> {
    if v.Some? then m[p := v.value] else m - {p}
  }

  /** The operations on the map itself. */
  ghost predicate StoreStep(st: Store, a: Action, st': Store, r: Reply) {
    match a
    case Saving(s, io) =>
      var n := Normal(s); var p := (n.serverKey, n.username);
      && (r == Okay <==> !io.mkdirFails && io.file == Written && io.pointer == Written)
      && (r != Okay ==> r == IoError)
      && st' == Saved(st, p, n, io)
    case Loading(k, u, io) => LoadSpec(st, (NormalKey(k), u), io, st', r)
    case LoadingCurrent(io) =>
      if io.pointerUnreadable then st' == st && r == IoError
      else if st.current.None? then st' == st && r == NoSession
      else LoadSpec(st, st.current.value, io, st', r)
    case Deleting(k, u, io) =>
      var p := (NormalKey(k), u);
      && (r == Okay <==> && !io.fileFails && !(p.0 == LOCAL && io.legacyFails)
                         && !io.pointerUnreadable && !(st.current == Some(p) && io.pointerFails))
      && (r != Okay ==> r == IoError)
      && st'.current == (if r == Okay && st.current == Some(p) then None else st.current)
      // A legacy file that cannot be removed may show again once the new one is gone.
      && (if io.fileFails then st'.sessions == st.sessions
          else if p.0 == LOCAL && io.legacyFails then SameExcept(st.sessions, st'.sessions, p)
          else st'.sessions == st.sessions - {p})
  }

  /* ---------- refinement ---------- */

  predicate SameAt(files: Files, files': Files, f: string) {
    (f in files <==> f in files') && (f in files ==> files[f] == files'[f])
  }

  /** Nothing but the files of one entry, and the pointer, is touched. */
  ghost predicate OnlyTouches(files: Files, files': Files, key: string, user: string) {
    forall f: string :: f == FileName(key, user) || f == CURRENT || (key == LOCAL && f == LegacyName(user)) || SameAt(files, files', f)
  }

  lemma LegacyInjective(u: string, v: string)
    ensures LegacyName(u) == LegacyName(v) <==> Sanitize(u) == Sanitize(v)
  {
    var a, b := LegacyName(u), LegacyName(v);
    assert Sanitize(u) == a[..|a| - 5] && Sanitize(v) == b[..|b| - 5];
  }

  lemma NamesAreNotCurrent(key: string, user: string)
    ensures FileName(key, user) != CURRENT && LegacyName(user) != CURRENT
  {
    var f, g := FileName(key, user), LegacyName(user);
    assert f[|f| - 1] == 'n' && g[|g| - 1] == 'n';
  }

  lemma ScopeNames(sc: Scope, key: string, user: string, k: string, u: string)
    requires Unambiguous(sc) && InScope(sc, key, user) && InScope(sc, k, u)
    ensures (k, u) != (key, user) ==> FileName(k, u) != FileName(key, user)
    ensures LegacyName(u) != FileName(key, user)
    ensures LegacyName(u) == LegacyName(user) ==> u == user
  {
    LegacyInjective(u, user);
    assert |LegacyName(u)| < |FileName(LOCAL, u)|;
    if u != user { assert FileName(LOCAL, u) != FileName(LOCAL, user); }
  }

  /** No file of one entry in scope is a file of another. */
  lemma SlotsAreSeparate(files: Files, files': Files, sc: Scope, key: string, user: string, k: string, u: string)
    requires Unambiguous(sc) && InScope(sc, key, user) && InScope(sc, k, u)
    requires OnlyTouches(files, files', key, user)
    ensures (k, u) != (key, user) ==> SameAt(files, files', FileName(k, u))
    ensures u != user || (k == LOCAL && key != LOCAL) ==> SameAt(files, files', LegacyName(u))
  {
    ScopeNames(sc, key, user, k, u);
    ScopeNames(sc, k, u, key, user);
    NamesAreNotCurrent(k, u);
  }

  lemma OtherEntryKeeps(files: Files, files': Files, sc: Scope, key: string, user: string, k: string, u: string)
    requires Unambiguous(sc) && InScope(sc, key, user) && InScope(sc, k, u) && (k, u) != (key, user)
    requires OnlyTouches(files, files', key, user)
    ensures Stored(files, k, u) == Stored(files', k, u)
  {
    SlotsAreSeparate(files, files', sc, key, user, k, u);
  }

  lemma OtherEntriesKeep(files: Files, files': Files, sc: Scope, key: string, user: string)
    requires Unambiguous(sc) && InScope(sc, key, user)
    requires OnlyTouches(files, files', key, user)
    ensures forall p | p in Pairs(sc) && p != (key, user) :: Stored(files, p.0, p.1) == Stored(files', p.0, p.1)
  {
    forall p | p in Pairs(sc) && p != (key, user)
      ensures Stored(files, p.0, p.1) == Stored(files', p.0, p.1)
    {
      OtherEntryKeeps(files, files', sc, key, user, p.0, p.1);
    }
  }

  lemma SameLookupsSameEntries(files: Files, files': Files, sc: Scope, p: (string, string))
    requires p in Pairs(sc)
    requires forall q | q in Pairs(sc) && q != p :: Stored(files, q.0, q.1) == Stored(files', q.0, q.1)
    ensures Abs(files', sc).sessions == WithEntry(Abs(files, sc).sessions, p, Stored(files', p.0, p.1))
  {
  }

  /** Touching the files of one entry changes that entry of the map and no other. */
  lemma AbsChangesOneEntry(files: Files, files': Files, sc: Scope, key: string, user: string)
    requires Unambiguous(sc) && InScope(sc, key, user)
    requires OnlyTouches(files, files', key, user)
    ensures Abs(files', sc).sessions == WithEntry(Abs(files, sc).sessions, (key, user), Stored(files', key, user))
  {
    assert (key, user) in Pairs(sc);
    OtherEntriesKeep(files, files', sc, key, user);
    SameLookupsSameEntries(files, files', sc, (key, user));
  }

  lemma ConsistentAfter(files: Files, files': Files, sc: Scope, key: string, user: string)
    requires Unambiguous(sc) && InScope(sc, key, user) && Consistent(files, sc)
    requires OnlyTouches(files, files', key, user)
    requires HoldsOwn(files', FileName(key, user), key, user) && HoldsOwn(files', LegacyName(user), LOCAL, user)
    requires CURRENT in files' ==> var (k, u) := ParsePointer(TextOf(files'[CURRENT])); InScope(sc, k, u)
    ensures Consistent(files', sc)
  {
    forall k, u | k in sc.keys && u in sc.users ensures HoldsOwn(files', FileName(k, u), k, u) {
      SlotsAreSeparate(files, files', sc, key, user, k, u);
      assert HoldsOwn(files, FileName(k, u), k, u);
    }
    forall u | u in sc.users ensures HoldsOwn(files', LegacyName(u), LOCAL, u) {
      SlotsAreSeparate(files, files', sc, key, user, LOCAL, u);
      assert HoldsOwn(files, LegacyName(u), LOCAL, u);
    }
  }

  lemma SaveTouches(files: Files, s: Session, io: SaveIo)
    ensures var n := Normal(s);
            var files' := Save(files, s, io).0;
            && OnlyTouches(files, files', n.serverKey, n.username)
            && (forall f | f != FileName(n.serverKey, n.username) && f != CURRENT :: SameAt(files, files', f))
            && (FileName(n.serverKey, n.username) != CURRENT ==>
                  SameAt(files, files', FileName(n.serverKey, n.username)) ||
                  (FileName(n.serverKey, n.username) in files' &&
                   (files'[FileName(n.serverKey, n.username)].Text? || files'[FileName(n.serverKey, n.username)] == Json(n))))
  {}

  lemma SaveKeepsOwn(files: Files, sc: Scope, s: Session, io: SaveIo)
    requires Unambiguous(sc) && Consistent(files, sc) && Admissible(Saving(s, io), sc)
    ensures var files' := Save(files, s, io).0;
            && HoldsOwn(files', FileName(Normal(s).serverKey, s.username), Normal(s).serverKey, s.username)
            && HoldsOwn(files', LegacyName(s.username), LOCAL, s.username)
  {
    var key, user := Normal(s).serverKey, s.username;
    assert HoldsOwn(files, FileName(key, user), key, user) && HoldsOwn(files, LegacyName(user), LOCAL, user);
    ScopeNames(sc, key, user, key, user);
    NamesAreNotCurrent(key, user);
    SaveTouches(files, s, io);
  }

  lemma SaveKeepsConsistent(files: Files, sc: Scope, s: Session, io: SaveIo)
    requires Unambiguous(sc) && Consistent(files, sc) && Admissible(Saving(s, io), sc)
    ensures Consistent(Save(files, s, io).0, sc)
  {
    var n := Normal(s);
    var key, user := n.serverKey, n.username;
    SaveKeepsOwn(files, sc, s, io);
    NamesAreNotCurrent(key, user);
    ParsePointerOfPointer(key, user);
    SaveTouches(files, s, io);
    ConsistentAfter(files, Save(files, s, io).0, sc, key, user);
  }

  function CurrentOf(files: Files): Option<(string, string)> {
    if CURRENT in files then Some(ParsePointer(TextOf(files[CURRENT]))) else None
  }

  lemma SaveMovesPointer(st: Store, files: Files, s: Session, io: SaveIo)
    requires Without(Normal(s).serverKey, '|') && st.current == CurrentOf(files)
    ensures CurrentOf(Save(files, s, io).0) == Saved(st, (Normal(s).serverKey, s.username), Normal(s), io).current
  {
    ParsePointerOfPointer(Normal(s).serverKey, s.username);
    NamesAreNotCurrent(Normal(s).serverKey, s.username);
  }

  lemma SaveStores(files: Files, s: Session, io: SaveIo)
    ensures var (files', r) := Save(files, s, io);
            var (key, user) := (Normal(s).serverKey, s.username);
            && (r == Okay <==> !io.mkdirFails && io.file == Written && io.pointer == Written)
            && (r != Okay ==> r == IoError)
            && Stored(files', key, user) ==
               if io.mkdirFails then Stored(files, key, user)
               else Left(io.file, Stored(files, key, user), Normal(s), None)
  {
    NamesAreNotCurrent(Normal(s).serverKey, s.username);
  }

  lemma SaveRefines(files: Files, sc: Scope, s: Session, io: SaveIo)
    requires Unambiguous(sc) && Consistent(files, sc) && Admissible(Saving(s, io), sc)
    ensures var (files', r) := Save(files, s, io);
            Consistent(files', sc) && StoreStep(Abs(files, sc), Saving(s, io), Abs(files', sc), r)
  {
    var (files', r) := Save(files, s, io);
    var p := (Normal(s).serverKey, s.username);
    SaveKeepsConsistent(files, sc, s, io);
    SaveMovesPointer(Abs(files, sc), files, s, io);
    SaveStores(files, s, io);
    SaveTouches(files, s, io);
    AbsChangesOneEntry(files, files', sc, p.0, p.1);
    AbsLooksUp(files, sc, p);
    UnchangedEntry(Abs(files, sc).sessions, p);
  }

  lemma AbsLooksUp(files: Files, sc: Scope, p: (string, string))
    requires InScope(sc, p.0, p.1)
    ensures Lookup(Abs(files, sc).sessions, p) == Stored(files, p.0, p.1)
  {
    assert p in Pairs(sc);
  }

  lemma UnchangedEntry(m: map<(string, string), Session>, p: (string, string))
    ensures WithEntry(m, p, Lookup(m, p)) == m
  {}

  /** What a load finds belongs to the entry it asked for. */
  lemma StoredIsOwn(files: Files, sc: Scope, key: string, user: string)
    requires Consistent(files, sc) && InScope(sc, key, user) && Stored(files, key, user).Some?
    ensures var s := Stored(files, key, user).value; s.serverKey == key && s.username == user && Normal(s) == s
  {
    assert HoldsOwn(files, FileName(key, user), key, user) && HoldsOwn(files, LegacyName(user), LOCAL, user);
  }

  /** The lazy rewrite keeps the map, unless it is torn and loses the entry. */
  lemma MigrationKeepsMap(files: Files, sc: Scope, key: string, user: string, io: Io)
    requires Unambiguous(sc) && Consistent(files, sc) && InScope(sc, key, user) && Stored(files, key, user).Some?
    ensures var files' := Migrated(files, user, Stored(files, key, user).value, io);
            && Consistent(files', sc)
            && Abs(files', sc).current == Abs(files, sc).current
            && Abs(files', sc).sessions == WithEntry(Abs(files, sc).sessions, (key, user), Stored(files', key, user))
            && Stored(files', key, user) ==
               if key == LOCAL && FileName(LOCAL, user) !in files && io.Torn? then None else Stored(files, key, user)
  {
    var s := Stored(files, key, user).value;
    StoredIsOwn(files, sc, key, user);
    ScopeNames(sc, key, user, key, user);
    NamesAreNotCurrent(key, user);
    var files' := Migrated(files, user, s, io);
    assert HoldsOwn(files, FileName(key, user), key, user) && HoldsOwn(files, LegacyName(user), LOCAL, user);
    ConsistentAfter(files, files', sc, key, user);
    AbsChangesOneEntry(files, files', sc, key, user);
  }

  lemma LoadRefines(files: Files, sc: Scope, key: string, user: string, io: LoadIo)
    requires Unambiguous(sc) && Consistent(files, sc) && InScope(sc, NormalKey(key), user)
    ensures var (files', r) := Load(files, key, user, io);
            Consistent(files', sc) && LoadSpec(Abs(files, sc), (NormalKey(key), user), io, Abs(files', sc), r)
  {
    var p := (NormalKey(key), user);
    assert p in Pairs(sc);
    var m := Abs(files, sc).sessions;
    if !io.unreadable && p in m {
      MigrationKeepsMap(files, sc, p.0, user, io.rewrite);
      assert WithEntry(m, p, Some(m[p])) == m;
    }
  }

  /** A delete only removes: the entry's files, and the pointer if it names the entry. */
  lemma DeleteTouches(files: Files, key: string, user: string, io: DeleteIo)
    ensures var k := NormalKey(key);
            var files' := Delete(files, key, user, io).0;
            && OnlyTouches(files, files', k, user)
            && (forall f | f in files' :: f in files && files'[f] == files[f])
  {}

  lemma DeleteKeepsConsistent(files: Files, sc: Scope, key: string, user: string, io: DeleteIo)
    requires Unambiguous(sc) && Consistent(files, sc) && InScope(sc, NormalKey(key), user)
    ensures Consistent(Delete(files, key, user, io).0, sc)
  {
    var k := NormalKey(key);
    assert HoldsOwn(files, FileName(k, user), k, user) && HoldsOwn(files, LegacyName(user), LOCAL, user);
    DeleteTouches(files, key, user, io);
    ConsistentAfter(files, Delete(files, key, user, io).0, sc, k, user);
  }

  lemma DeleteMovesPointer(files: Files, key: string, user: string, io: DeleteIo)
    ensures var (files', r) := Delete(files, key, user, io);
            var p := (NormalKey(key), user);
            && (r == Okay <==> && !io.fileFails && !(p.0 == LOCAL && io.legacyFails)
                               && !io.pointerUnreadable && !(CurrentOf(files) == Some(p) && io.pointerFails))
            && (r != Okay ==> r == IoError)
            && CurrentOf(files') == if r == Okay && CurrentOf(files) == Some(p) then None else CurrentOf(files)
  {
    NamesAreNotCurrent(NormalKey(key), user);
  }

  /** What a delete leaves to be found, whatever fails: everything if the file stays, the
      legacy session if only that file stays, and else nothing. */
  lemma DeleteLeaves(files: Files, key: string, user: string, io: DeleteIo)
    ensures var k := NormalKey(key);
            var files' := Delete(files, key, user, io).0;
            Stored(files', k, user) ==
            if io.fileFails then Stored(files, k, user)
            else if k == LOCAL && io.legacyFails && LegacyName(user) in files && files[LegacyName(user)].Json? then
              Some(Normal(files[LegacyName(user)].session))
            else None
  {
    NamesAreNotCurrent(NormalKey(key), user);
    assert |FileName(LOCAL, user)| > |LegacyName(user)|;
  }

  lemma DeleteRefines(files: Files, sc: Scope, key: string, user: string, io: DeleteIo)
    requires Unambiguous(sc) && Consistent(files, sc) && InScope(sc, NormalKey(key), user)
    ensures var (files', r) := Delete(files, key, user, io);
            Consistent(files', sc) && StoreStep(Abs(files, sc), Deleting(key, user, io), Abs(files', sc), r)
  {
    var k := NormalKey(key);
    var (files', r) := Delete(files, key, user, io);
    DeleteKeepsConsistent(files, sc, key, user, io);
    DeleteMovesPointer(files, key, user, io);
    DeleteTouches(files, key, user, io);
    AbsChangesOneEntry(files, files', sc, k, user);
    DeleteLeaves(files, key, user, io);
    AbsLooksUp(files, sc, (k, user));
    UnchangedEntry(Abs(files, sc).sessions, (k, user));
    OneEntryElsewhere(Abs(files, sc).sessions, (k, user), Stored(files', k, user));
  }

  lemma OneEntryElsewhere(m: map<(string, string), Session>, p: (string, string), v: Option<Session>)
    ensures SameExcept(m, WithEntry(m, p, v), p)
  {}

  /** Once a delete succeeds, no file of the entry is left, the legacy one included. */
  lemma DeleteRemovesEveryFile(files: Files, key: string, user: string, io: DeleteIo)
    requires Delete(files, key, user, io).1 == Okay
    ensures Slot(Delete(files, key, user, io).0, NormalKey(key), user) == None
  {}

  /** Every operation of the code is the operation on the map, faults included. */
  lemma StepRefines(files: Files, sc: Scope, a: Action)
    requires Unambiguous(sc) && Consistent(files, sc) && Admissible(a, sc)
    ensures var (files', r) := Step(files, a);
            Consistent(files', sc) && StoreStep(Abs(files, sc), a, Abs(files', sc), r)
  {
    match a
    case Saving(s, io) => SaveRefines(files, sc, s, io);
    case Loading(k, u, io) => LoadRefines(files, sc, k, u, io);
    case LoadingCurrent(io) =>
      if !io.pointerUnreadable && CURRENT in files {
        var (k, u) := ParsePointer(TextOf(files[CURRENT]));
        assert k != "";
        LoadRefines(files, sc, k, u, io);
      }
    case Deleting(k, u, io) => DeleteRefines(files, sc, k, u, io);
  }

  function FilesAfter(files: Files, actions: seq<Action>): Files
    decreases |actions|
  {
    if actions == [] then files else FilesAfter(Step(files, actions[0]).0, actions[1..])
  }

  function Replies(files: Files, actions: seq<Action>): seq<Reply>
    decreases |actions|
  {
    if actions == [] then [] else [Step(files, actions[0]).1] + Replies(Step(files, actions[0]).0, actions[1..])
  }

  /** A run of the plain map that gives these replies. */
  ghost predicate StoreRun(st: Store, actions: seq<Action>, replies: seq<Reply>, st': Store)
    decreases |actions|
  {
    if actions == [] then replies == [] && st' == st
    else replies != [] && exists mid :: StoreStep(st, actions[0], mid, replies[0]) && StoreRun(mid, actions[1..], replies[1..], st')
  }

  /** Every run of saves, loads and deletes over the files, with any faults, answers as
      the same run over the plain map. */
  lemma {:induction false} RunRefines(files: Files, sc: Scope, actions: seq<Action>)
    requires Unambiguous(sc) && Consistent(files, sc)
    requires forall i | 0 <= i < |actions| :: Admissible(actions[i], sc)
    ensures StoreRun(Abs(files, sc), actions, Replies(files, actions), Abs(FilesAfter(files, actions), sc))
    decreases |actions|
  {
    if actions != [] {
      StepRefines(files, sc, actions[0]);
      RunRefines(Step(files, actions[0]).0, sc, actions[1..]);
      assert Replies(files, actions)[1..] == Replies(Step(files, actions[0]).0, actions[1..]);
    }
  }

  ghost predicate AllAdmissible(actions: seq<Action>, sc: Scope) {
    forall i | 0 <= i < |actions| :: Admissible(actions[i], sc)
  }

  /** Whatever the directory holds and whatever is run on it, it answers as the map. */
  ghost predicate Refines(sc: Scope) {
    forall files, actions | Consistent(files, sc) && AllAdmissible(actions, sc) ::
      StoreRun(Abs(files, sc), actions, Replies(files, actions), Abs(FilesAfter(files, actions), sc))
  }

  const WORKING := SaveIo(false, Written, Written)
  const READABLE := LoadIo(false, false, Written)

  function SessionFor(key: string, user: string): Session { Session("", "", "", user, [], 0, key) }

  lemma RunOfOneMore(st: Store, a: Action, actions: seq<Action>, files: Files, st': Store)
    requires StoreRun(st, [a] + actions, Replies(files, [a] + actions), st')
    ensures exists mid :: StoreStep(st, a, mid, Step(files, a).1) && StoreRun(mid, actions, Replies(Step(files, a).0, actions), st')
  {
    assert ([a] + actions)[1..] == actions;
    assert Replies(files, [a] + actions)[1..] == Replies(Step(files, a).0, actions);
  }

  lemma RunAfterSave(st: Store, files: Files, s: Session, actions: seq<Action>, st': Store)
    requires StoreRun(st, [Saving(s, WORKING)] + actions, Replies(files, [Saving(s, WORKING)] + actions), st')
    ensures StoreRun(Saved(st, (Normal(s).serverKey, s.username), Normal(s), WORKING), actions,
                     Replies(Save(files, s, WORKING).0, actions), st')
  {
    RunOfOneMore(st, Saving(s, WORKING), actions, files, st');
  }

  /** If a save and a load run as on the map, the load's file holds what the map says. */
  lemma SaveThenLoad(st: Store, files: Files, s: Session, k: string, u: string, st': Store)
    requires k != ""
    requires StoreRun(st, [Saving(s, WORKING)] + [Loading(k, u, READABLE)],
                      Replies(files, [Saving(s, WORKING)] + [Loading(k, u, READABLE)]), st')
    ensures Lookup(Saved(st, (Normal(s).serverKey, s.username), Normal(s), WORKING).sessions, (k, u))
            == Stored(Save(files, s, WORKING).0, k, u)
  {
    var mid := Saved(st, (Normal(s).serverKey, s.username), Normal(s), WORKING);
    RunAfterSave(st, files, s, [Loading(k, u, READABLE)], st');
    assert [Loading(k, u, READABLE)] + [] == [Loading(k, u, READABLE)];
    RunOfOneMore(mid, Loading(k, u, READABLE), [], Save(files, s, WORKING).0, st');
  }

  /** The second of two saves to one file name answers a load of the first. */
  lemma SharedNameBreaks(sc: Scope, k: string, u: string, k': string, u': string)
    requires Proper(sc) && InScope(sc, k, u) && InScope(sc, k', u') && (k, u) != (k', u')
    requires FileName(k, u) == FileName(k', u')
    ensures !Refines(sc)
  {
    var s, s' := SessionFor(k, u), SessionFor(k', u');
    var rest := [Saving(s', WORKING)] + [Loading(k, u, READABLE)];
    var actions := [Saving(s, WORKING)] + rest;
    var empty: Files := map[];
    var files := Save(empty, s, WORKING).0;
    NamesAreNotCurrent(k, u);
    assert Stored(Save(files, s', WORKING).0, k, u) == Some(s');
    assert AllAdmissible(actions, sc) && Consistent(empty, sc);
    if Refines(sc) {
      var st' := Abs(FilesAfter(empty, actions), sc);
      assert StoreRun(Abs(empty, sc), actions, Replies(empty, actions), st');
      RunAfterSave(Abs(empty, sc), empty, s, rest, st');
      SaveThenLoad(Saved(Abs(empty, sc), (k, u), s, WORKING), files, s', k, u, st');
    }
  }

  /** A save to a legacy name answers a load of the local user it belongs to. */
  lemma SharedLegacyNameBreaks(sc: Scope, u: string, k': string, u': string)
    requires Proper(sc) && InScope(sc, LOCAL, u) && InScope(sc, k', u') && (LOCAL, u) != (k', u')
    requires LegacyName(u) == FileName(k', u')
    ensures !Refines(sc)
  {
    var s' := SessionFor(k', u');
    var actions := [Saving(s', WORKING)] + [Loading(LOCAL, u, READABLE)];
    var empty: Files := map[];
    NamesAreNotCurrent(LOCAL, u);
    assert |FileName(LOCAL, u)| > |LegacyName(u)|;
    assert Stored(Save(empty, s', WORKING).0, LOCAL, u) == Some(s');
    assert AllAdmissible(actions, sc) && Consistent(empty, sc);
    if Refines(sc) {
      SaveThenLoad(Abs(empty, sc), empty, s', LOCAL, u, Abs(FilesAfter(empty, actions), sc));
    }
  }

  /** The directory is such a map exactly when no two entries have a file name in common. */
  lemma RefinesIff(sc: Scope)
    requires Proper(sc)
    ensures Refines(sc) <==> NoSharedNames(sc)
  {
    if NoSharedNames(sc) {
      forall files, actions | Consistent(files, sc) && AllAdmissible(actions, sc)
        ensures StoreRun(Abs(files, sc), actions, Replies(files, actions), Abs(FilesAfter(files, actions), sc))
      {
        RunRefines(files, sc, actions);
      }
    } else {
      var k, u, k', u' :| k in sc.keys && u in sc.users && k' in sc.keys && u' in sc.users && (k, u) != (k', u')
                          && (FileName(k, u) == FileName(k', u') || (k == LOCAL && LegacyName(u) == FileName(k', u')));
      if FileName(k, u) == FileName(k', u') { SharedNameBreaks(sc, k, u, k', u'); } else { SharedLegacyNameBreaks(sc, u, k', u'); }
    }
  }

  /** Enough for that: keys that do not run into the separator, as those of plain URLs,
      and usernames without double underscores that sanitising keeps apart. */
  lemma GoodNamesAreNotShared(sc: Scope)
    requires Proper(sc) && (forall k | k in sc.keys :: GoodKey(k))
    requires forall u | u in sc.users :: NoDoubleUnderscore(Sanitize(u))
    requires forall u, v | u in sc.users && v in sc.users :: Sanitize(u) == Sanitize(v) ==> u == v
    ensures NoSharedNames(sc)
  {
    forall k, u, k', u' | k in sc.keys && u in sc.users && k' in sc.keys && u' in sc.users && (k, u) != (k', u')
      ensures FileName(k, u) != FileName(k', u') && LegacyName(u) != FileName(k', u')
    {
      FileNameInjective(k, u, k', u');
      NamesDisjoint(u, k', u');
    }
  }

  /** A load leaves the map and the pointer as they were exactly when it does not tear a
      lazy rewrite: the torn file hides the legacy one it was copied from. */
  lemma LoadUnchangedIff(files: Files, sc: Scope, key: string, user: string, io: LoadIo)
    requires Unambiguous(sc) && Consistent(files, sc) && InScope(sc, NormalKey(key), user)
    ensures Abs(Load(files, key, user, io).0, sc) == Abs(files, sc) <==>
            !(&& NormalKey(key) == LOCAL && FileName(LOCAL, user) !in files
              && LegacyName(user) in files && files[LegacyName(user)].Json?
              && !io.unreadable && io.rewrite.Torn?)
  {
    var p := (NormalKey(key), user);
    assert p in Pairs(sc);
    var m := Abs(files, sc).sessions;
    if !io.unreadable && p in m {
      MigrationKeepsMap(files, sc, p.0, user, io.rewrite);
      EntryIsThereIff(m, p);
    }
  }

  lemma EntryIsThereIff(m: map<(string, string), Session>, p: (string, string))
    requires p in m
    ensures WithEntry(m, p, Some(m[p])) == m && WithEntry(m, p, None) != m
  {
    assert p !in WithEntry(m, p, None);
  }

  /** The case that fails, concretely: a user with a legacy session is found once, and
      after the torn rewrite no more. */
  lemma TornRewriteLosesSession()
    ensures exists files: Files, io: LoadIo ::
              && Load(files, LOCAL, "bob", io).1.Found?
              && Load(Load(files, LOCAL, "bob", io).0, LOCAL, "bob", io).1 == NoSession
  {
    var s := Session("t", "r", "id", "bob", [], 0, "");
    var files: Files := map[LegacyName("bob") := Json(s)];
    var io := LoadIo(false, false, Torn("{"));
    assert FileName(LOCAL, "bob")[5] == '_' && Sanitize("bob") == "bob" && LegacyName("bob") == "bob.json";
    assert Load(files, LOCAL, "bob", io).1.Found?;
  }

  predicate ProperPrefix(s: string, t: string) { s < t }

  predicate Readable(io: LoadIo) { !io.pointerUnreadable && !io.unreadable }

  /** The files once the session's own is written. */
  function WithSession(files: Files, s: Session): Files {
    files[FileName(Normal(s).serverKey, s.username) := Json(Normal(s))]
  }

  /** Following a pointer of which only `left` was written: cut before the bar it reads as
      a bare local username, cut after it as a shorter username. */
  lemma LoadAfterTear(files: Files, s: Session, left: string, load: LoadIo)
    requires Without(Normal(s).serverKey, '|') && ProperPrefix(left, Pointer(Normal(s).serverKey, s.username)) && Readable(load)
    ensures var key := Normal(s).serverKey;
            var found := if |left| <= |key| then Stored(WithSession(files, s), LOCAL, left)
                         else Stored(WithSession(files, s), key, left[|key| + 1..]);
            LoadCurrent(Save(files, s, SaveIo(false, Written, Torn(left))).0, load).1
            == if found.Some? then Found(found.value) else NoSession
  {
    var key := Normal(s).serverKey;
    TearParses(key, s.username, left);
    var (k, u) := ParsePointer(left);
    NamesAreNotCurrent(key, s.username);
    NamesAreNotCurrent(k, u);
    assert Stored(WithSession(files, s)[CURRENT := Text(left)], k, u) == Stored(WithSession(files, s), k, u);
  }

  lemma TearParses(key: string, user: string, left: string)
    requires Without(key, '|') && key != "" && ProperPrefix(left, Pointer(key, user))
    ensures ParsePointer(left) == if |left| <= |key| then (LOCAL, left) else (key, left[|key| + 1..])
  {
    SplitTear(key, user, left);
    if |left| <= |key| {
      assert forall i | 0 <= i < |left| :: left[i] == key[i];
    } else {
      assert left == Pointer(key, left[|key| + 1..]);
      ParsePointerOfPointer(key, left[|key| + 1..]);
    }
  }

  /** The save stops in its pointer, with `left` of it on disk, and some session is then
      the current one. */
  ghost predicate AnswersAfterTear(files: Files, s: Session, left: string) {
    exists load :: Readable(load) && LoadCurrent(Save(files, s, SaveIo(false, Written, Torn(left))).0, load).1.Found?
  }

  ghost predicate ShorterUserStored(files: Files, key: string, user: string) {
    exists v :: ProperPrefix(v, user) && Stored(files, key, v).Some?
  }

  ghost predicate LocalUserInKeyStored(files: Files, key: string) {
    exists v: string :: v <= key && Stored(files, LOCAL, v).Some?
  }

  lemma TearAfterBar(files: Files, s: Session, v: string)
    requires Without(Normal(s).serverKey, '|') && ProperPrefix(v, s.username)
    ensures var left := Pointer(Normal(s).serverKey, v);
            && ProperPrefix(left, Pointer(Normal(s).serverKey, s.username))
            && (AnswersAfterTear(files, s, left) <==> Stored(WithSession(files, s), Normal(s).serverKey, v).Some?)
  {
    var key := Normal(s).serverKey;
    assert Pointer(key, v)[|key| + 1..] == v;
    assert Pointer(key, s.username)[..|key| + 1 + |v|] == Pointer(key, v);
    TearIff(files, s, Pointer(key, v));
  }

  lemma TearBeforeBar(files: Files, s: Session, v: string)
    requires Without(Normal(s).serverKey, '|') && v <= Normal(s).serverKey
    ensures ProperPrefix(v, Pointer(Normal(s).serverKey, s.username))
    ensures AnswersAfterTear(files, s, v) <==> Stored(WithSession(files, s), LOCAL, v).Some?
  {
    assert Pointer(Normal(s).serverKey, s.username)[..|v|] == v;
    TearIff(files, s, v);
  }

  lemma TearIff(files: Files, s: Session, left: string)
    requires Without(Normal(s).serverKey, '|') && ProperPrefix(left, Pointer(Normal(s).serverKey, s.username))
    ensures var key := Normal(s).serverKey;
            AnswersAfterTear(files, s, left) <==>
            if |left| <= |key| then Stored(WithSession(files, s), LOCAL, left).Some?
            else Stored(WithSession(files, s), key, left[|key| + 1..]).Some?
  {
    LoadAfterTear(files, s, left, READABLE);
    forall load | Readable(load) { LoadAfterTear(files, s, left, load); }
  }

  ghost predicate SomeTearAnswers(files: Files, s: Session) {
    exists left :: ProperPrefix(left, Pointer(Normal(s).serverKey, s.username)) && AnswersAfterTear(files, s, left)
  }

  /** Which saves can leave another user's session current by stopping half way through
      the pointer: those for which a session is stored under the same key for a shorter
      username, or locally for a username that the key starts with. */
  lemma TornSaveAnswersIff(files: Files, s: Session)
    requires Without(Normal(s).serverKey, '|')
    ensures SomeTearAnswers(files, s) <==>
            ShorterUserStored(WithSession(files, s), Normal(s).serverKey, s.username)
            || LocalUserInKeyStored(WithSession(files, s), Normal(s).serverKey)
  {
    var key, w := Normal(s).serverKey, WithSession(files, s);
    if v :| ProperPrefix(v, s.username) && Stored(w, key, v).Some? { TearAfterBar(files, s, v); }
    if v: string :| v <= key && Stored(w, LOCAL, v).Some? { TearBeforeBar(files, s, v); }
    if left :| ProperPrefix(left, Pointer(key, s.username)) && AnswersAfterTear(files, s, left) {
      TearIff(files, s, left);
      SplitTear(key, s.username, left);
    }
  }

  lemma SplitTear(key: string, user: string, left: string)
    requires ProperPrefix(left, Pointer(key, user))
    ensures if |left| <= |key| then left <= key else ProperPrefix(left[|key| + 1..], user)
  {
    var text := Pointer(key, user);
    assert left == text[..|left|];
    if |left| <= |key| { assert text[..|left|] == key[..|left|]; }
    else { assert left[|key| + 1..] == user[..|left| - |key| - 1]; }
  }

  /** What is left of the pointer can read as another entry's, and that entry is then
      the current one, although the save reports an error. */
  lemma TornPointerSwitchesTo(files: Files, s: Session, io: SaveIo, key: string, user: string, load: LoadIo)
    requires TearsPointer(io) && io.pointer.left == Pointer(key, user) && key != "" && Without(key, '|')
    requires FileName(key, user) in files && files[FileName(key, user)].Json?
    requires FileName(key, user) != FileName(Normal(s).serverKey, s.username)
    requires !load.pointerUnreadable && !load.unreadable
    ensures Save(files, s, io).1 == IoError
    ensures LoadCurrent(Save(files, s, io).0, load).1 == Found(Normal(files[FileName(key, user)].session))
  {
    ParsePointerOfPointer(key, user);
    assert FileName(key, user)[|FileName(key, user)| - 1] == 'n';
    var files' := Save(files, s, io).0;
    assert CURRENT in files' && ParsePointer(TextOf(files'[CURRENT])) == (key, user);
    assert Stored(files', key, user) == Some(Normal(files[FileName(key, user)].session));
  }

  /** Concretely, saving bob@x with the pointer cut short makes bob the current user. */
  lemma TornPointerSwitchesUser()
    ensures exists files: Files, s: Session, io: SaveIo, load: LoadIo ::
              && CURRENT !in files
              && Save(files, s, io).1 == IoError
              && io.pointer.Torn? && io.pointer.left <= Pointer(s.serverKey, s.username)
              && LoadCurrent(Save(files, s, io).0, load).1.Found?
              && LoadCurrent(Save(files, s, io).0, load).1.session.username != s.username
  {
    var bob := Session("t", "r", "id", "bob", [], 0, LOCAL);
    var s := bob.(username := "bob@x");
    var files: Files := map[FileName(LOCAL, "bob") := Json(bob)];
    var io, load := SaveIo(false, Written, Torn(Pointer(LOCAL, "bob"))), LoadIo(false, false, Untouched);
    assert |Sanitize("bob")| == 3 && |Sanitize("bob@x")| == 5;
    assert |FileName(LOCAL, "bob")| == 15 && |FileName(LOCAL, "bob@x")| == 17;
    assert Pointer(LOCAL, "bob@x") == Pointer(LOCAL, "bob") + "@x";
    TornPointerSwitchesTo(files, s, io, LOCAL, "bob", load);
  }

  lemma AbsentStaysAbsentOneStep(files: Files, sc: Scope, a: Action, key: string, user: string)
    requires Unambiguous(sc) && Consistent(files, sc) && Admissible(a, sc) && InScope(sc, key, user)
    requires Slot(files, key, user) == None
    requires a.Saving? ==> (Normal(a.session).serverKey, a.session.username) != (key, user)
    ensures Slot(Step(files, a).0, key, user) == None
  {
    var files' := Step(files, a).0;
    match a
    case Saving(s, io) => SlotsAreSeparateFrom(files, files', sc, Normal(s).serverKey, s.username, key, user);
    case Loading(k, u, io) => LoadKeepsAbsent(files, sc, k, u, io, key, user);
    case LoadingCurrent(io) =>
      if !io.pointerUnreadable && CURRENT in files {
        var (k, u) := ParsePointer(TextOf(files[CURRENT]));
        LoadKeepsAbsent(files, sc, k, u, io, key, user);
      }
    case Deleting(k, u, io) => DeleteTouches(files, k, u, io);
  }

  lemma SlotsAreSeparateFrom(files: Files, files': Files, sc: Scope, key: string, user: string, k: string, u: string)
    requires Unambiguous(sc) && InScope(sc, key, user) && InScope(sc, k, u) && (k, u) != (key, user)
    requires forall f: string :: f == FileName(key, user) || f == CURRENT || SameAt(files, files', f)
    ensures Slot(files', k, u) == Slot(files, k, u)
  {
    ScopeNames(sc, key, user, k, u);
    NamesAreNotCurrent(k, u);
    assert SameAt(files, files', FileName(k, u)) && SameAt(files, files', LegacyName(u));
  }

  lemma LoadKeepsAbsent(files: Files, sc: Scope, k: string, u: string, io: LoadIo, key: string, user: string)
    requires Unambiguous(sc) && Consistent(files, sc) && InScope(sc, NormalKey(k), u) && InScope(sc, key, user)
    requires Slot(files, key, user) == None
    ensures Slot(Load(files, k, u, io).0, key, user) == None
  {
    var files' := Load(files, k, u, io).0;
    if files' != files {
      StoredIsOwn(files, sc, NormalKey(k), u);
      SlotsAreSeparateFrom(files, files', sc, NormalKey(k), u, key, user);
    }
  }

  /** Deleted for good: after a successful delete, no run without a new save of that
      entry brings it back, whatever legacy files there were and whatever fails. */
  lemma {:induction false} DeletedStaysGone(files: Files, sc: Scope, actions: seq<Action>, key: string, user: string)
    requires Unambiguous(sc) && Consistent(files, sc) && InScope(sc, key, user) && Slot(files, key, user) == None
    requires forall i | 0 <= i < |actions| ::
               && Admissible(actions[i], sc)
               && (actions[i].Saving? ==> (Normal(actions[i].session).serverKey, actions[i].session.username) != (key, user))
    ensures (key, user) !in Abs(FilesAfter(files, actions), sc).sessions
    decreases |actions|
  {
    if actions != [] {
      StepRefines(files, sc, actions[0]);
      AbsentStaysAbsentOneStep(files, sc, actions[0], key, user);
      DeletedStaysGone(Step(files, actions[0]).0, sc, actions[1..], key, user);
    }
  }
}
