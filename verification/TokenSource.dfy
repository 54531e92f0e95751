/**
 How the CLI picks the credentials it sends to a remote server: resolveRemoteTokenSource
 in cmd/root.go, the session source it builds (internal/vaultapi/sessionsource.go) and
 the login it may run first (internal/vaultapi/login.go), with the logout command
 (cmd/users/logout.go).  `issued` and `sent` record which credentials each server handed
 out and received, and `given` which passwords and client secrets users gave for it.
 */
module TokenSource {
  import opened Basics
  import opened ServerKey
  import opened SessionStore

  datatype Target = Target(server: string, parsed: Option<Url>, username: string)

  predicate IsRemote(t: Target) { IsUrlText(t.server) && t.parsed.Some? && t.parsed.value.host != "" }

  /** A target given as a URL with a host; no other can be contacted. */
  type RemoteTarget = t: Target | IsRemote(t)
    witness Target("http://h", Some(Url("http", "", "h", "h", "")), "")

  function KeyOf(t: RemoteTarget): string { SanitizeServerKey(t.server, t.parsed) }

  function ServerOf(t: RemoteTarget): Endpoint { EndpointOf(t.parsed.value) }

  datatype Flags = Flags(clientId: string, clientSecret: string, username: string, password: string)

  datatype Environment = Environment(clientId: string, clientSecret: string)

  /** What a server answers to a login or refresh. */
  datatype Grant = Grant(token: string, refreshToken: string, userId: string, username: string,
                         roles: seq<string>, expiresAt: int)

  /** The answer to one request, None for a refusal, and how saving its session ends. */
  datatype Answer = Answer(grant: Option<Grant>, io: SaveIo)

  /** A source seeded by a login has no disk behind it; a cached one reloads from disk. */
  datatype Source = ServiceAccount(id: string, secret: string) | FromSession(session: Session, onDisk: bool)

  datatype ResolveError = HalfCredentials | LoginFailed | SaveFailed | CacheUnreadable | OtherServer | NoCachedSession

  type Credentials = set<(Endpoint, string)>

  datatype CliState = CliState(files: Files, issued: Credentials, given: Credentials, sent: Credentials)

  datatype Command =
    | RemoteCommand(target: RemoteTarget, flags: Flags, env: Environment, now: int,
                    account: Option<string>, login: Answer, loadIo: LoadIo, refresh: Answer, reloadIo: LoadIo, retry: Answer)
    | LocalLogin(session: Session, io: SaveIo)
    | Logout(key: string, user: string, loadIo: LoadIo, deleteIo: DeleteIo)

  const SKEW := 30 // seconds

  /* ---------- what each step does ---------- */

  function ClientCredentials(flags: Flags, env: Environment): (string, string) {
    (if flags.clientId == "" then env.clientId else flags.clientId,
     if flags.clientSecret == "" then env.clientSecret else flags.clientSecret)
  }

  function Username(target: RemoteTarget, flags: Flags): string {
    if flags.username == "" then target.username else flags.username
  }

  function Cached(r: Reply): Result<Session, ResolveError> {
    match r case Found(s) => Ok(s) case NoSession => Err(NoCachedSession) case _ => Err(CacheUnreadable)
  }

  /** The named user's session, or the current one if it belongs to this server. */
  function CachedSession(files: Files, target: RemoteTarget, username: string, io: LoadIo): (Files, Result<Session, ResolveError>) {
    if username != "" then
      var (files', r) := Load(files, KeyOf(target), username, io); (files', Cached(r))
    else
      var (files', r) := LoadCurrent(files, io);
      (files', if r.Found? && r.session.serverKey != KeyOf(target) then Err(OtherServer) else Cached(r))
  }

  /** The secrets a command's user gives for its target. */
  function GivenFor(target: RemoteTarget, flags: Flags, env: Environment): Credentials {
    {(ServerOf(target), flags.password), (ServerOf(target), ClientCredentials(flags, env).1)}
  }

  function Send(st: CliState, target: RemoteTarget, credential: string): CliState {
    st.(sent := st.sent + {(ServerOf(target), credential)})
  }

  function Issue(st: CliState, server: Endpoint, g: Grant): CliState {
    st.(issued := st.issued + {(server, g.token), (server, g.refreshToken)})
  }

  /** An answer without both tokens is an error. */
  function Accepted(a: Answer): Option<Grant> {
    if a.grant.Some? && a.grant.value.token != "" && a.grant.value.refreshToken != "" then a.grant else None
  }

  function SessionOf(target: RemoteTarget, g: Grant): Session {
    Session(g.token, g.refreshToken, g.userId, g.username, g.roles, g.expiresAt, KeyOf(target))
  }

  /** Service-account credentials, else a password login, else the cache. */
  function Resolve(st: CliState, target: RemoteTarget, flags: Flags, env: Environment, login: Answer, loadIo: LoadIo)
    : (CliState, Result<Source, ResolveError>)
  {
    var (id, secret) := ClientCredentials(flags, env);
    var username := Username(target, flags);
    if id != "" && secret != "" then (st, Ok(ServiceAccount(id, secret)))
    else if id != "" || secret != "" then (st, Err(HalfCredentials))
    else if username != "" && flags.password != "" then
      var g := Accepted(login);
      var asked := Send(st, target, flags.password);
      if g.None? then (asked, Err(LoginFailed)) else
        var s := SessionOf(target, g.value);
        var (files, r) := Save(st.files, s, login.io);
        (Issue(asked, ServerOf(target), g.value).(files := files), if r == Okay then Ok(FromSession(s, false)) else Err(SaveFailed))
    else
      var (files, r) := CachedSession(st.files, target, username, loadIo);
      (st.(files := files), if r.Ok? then Ok(FromSession(r.value, true)) else Err(r.error))
  }

  function Updated(s: Session, g: Grant): Session {
    s.(token := g.token, refreshToken := g.refreshToken, expiresAt := g.expiresAt,
       username := if g.username != "" then g.username else s.username,
       roles := if g.roles != [] then g.roles else s.roles)
  }

  /** Sends the refresh token, and saves what comes back under the session's own key. */
  function Refresh(st: CliState, target: RemoteTarget, s: Session, answer: Answer): (CliState, Option<Session>) {
    var asked := Send(st, target, s.refreshToken);
    var g := Accepted(answer);
    if g.None? then (asked, None) else
      var (files, r) := Save(st.files, Updated(s, g.value), answer.io);
      (Issue(asked, ServerOf(target), g.value).(files := files), if r == Okay then Some(Updated(s, g.value)) else None)
  }

  /** A newer session of the same user. */
  predicate Newer(reloaded: Session, s: Session) {
    reloaded.refreshToken != s.refreshToken && reloaded.username == s.username
  }

  /** The cached token while it lasts, else a refreshed one, with one retry from disk. */
  function Token(st: CliState, c: Command, s: Session, onDisk: bool): (CliState, Option<string>)
    requires c.RemoteCommand?
  {
    if c.now < s.expiresAt - SKEW then (st, Some(s.token)) else
      var (st1, refreshed) := Refresh(st, c.target, s, c.refresh);
      if refreshed.Some? then (st1, Some(refreshed.value.token))
      else if !onDisk then (st1, None)
      else
        var (files, reloaded) := CachedSession(st1.files, c.target, Username(c.target, c.flags), c.reloadIo);
        var st2 := st1.(files := files);
        if reloaded.Err? || !Newer(reloaded.value, s) then (st2, None) else
          var (st3, again) := Refresh(st2, c.target, reloaded.value, c.retry);
          (st3, if again.Some? then Some(again.value.token) else None)
  }

  /** Sends the client secret; an answer without a token is an error. */
  function AccountToken(st: CliState, target: RemoteTarget, secret: string, answer: Option<string>): (CliState, Option<string>) {
    var asked := Send(st, target, secret);
    if answer.None? || answer.value == "" then (asked, None)
    else (asked.(issued := asked.issued + {(ServerOf(target), answer.value)}), answer)
  }

  function TokenFrom(st: CliState, c: Command, source: Source): (CliState, Option<string>)
    requires c.RemoteCommand?
  {
    match source
    case ServiceAccount(_, secret) => AccountToken(st, c.target, secret, c.account)
    case FromSession(s, onDisk) => Token(st, c, s, onDisk)
  }

  /** The named user's session, or the current one if it is this server's, is deleted. */
  function LoggedOut(files: Files, key: string, user: string, loadIo: LoadIo, deleteIo: DeleteIo): Files {
    if user != "" then Delete(files, key, user, deleteIo).0 else
      var (files', r) := LoadCurrent(files, loadIo);
      if r.Found? && r.session.serverKey == key then Delete(files', key, r.session.username, deleteIo).0 else files'
  }

  /** One command; a remote one sends the token it gets. */
  function Exec(st: CliState, c: Command): CliState {
    match c
    case RemoteCommand(target, flags, env, _, _, login, loadIo, _, _, _) =>
      var (st1, source) := Resolve(st.(given := st.given + GivenFor(target, flags, env)), target, flags, env, login, loadIo);
      if source.Err? then st1 else
        var (st2, token) := TokenFrom(st1, c, source.value);
        if token.Some? then Send(st2, target, token.value) else st2
    case LocalLogin(s, io) => st.(files := Save(st.files, s.(serverKey := ""), io).0)
    case Logout(key, user, loadIo, deleteIo) => st.(files := LoggedOut(st.files, key, user, loadIo, deleteIo))
  }

  function ExecAll(st: CliState, commands: seq<Command>): CliState
    decreases |commands|
  {
    if commands == [] then st
    else Exec(ExecAll(st, commands[..|commands| - 1]), commands[|commands| - 1])
  }

  /* ---------- which token is used ---------- */

  /** Flags come before the environment, and a flag's username before the context's. */
  lemma FlagsComeFirst(target: RemoteTarget, flags: Flags, env: Environment)
    ensures flags.clientId != "" ==> ClientCredentials(flags, env).0 == flags.clientId
    ensures flags.clientId == "" ==> ClientCredentials(flags, env).0 == env.clientId
    ensures flags.clientSecret != "" ==> ClientCredentials(flags, env).1 == flags.clientSecret
    ensures flags.clientSecret == "" ==> ClientCredentials(flags, env).1 == env.clientSecret
    ensures flags.username != "" ==> Username(target, flags) == flags.username
    ensures flags.username == "" ==> Username(target, flags) == target.username
  {}

  /** The three tiers, in order: a whole service-account pair, a login with both username
      and password, and else the cache; half a pair is an error and touches nothing. */
  lemma TiersInOrder(st: CliState, target: RemoteTarget, flags: Flags, env: Environment, login: Answer, loadIo: LoadIo)
    ensures var (id, secret) := ClientCredentials(flags, env);
            var (st', r) := Resolve(st, target, flags, env, login, loadIo);
            var cached := CachedSession(st.files, target, Username(target, flags), loadIo);
            && (id != "" && secret != "" ==> st' == st && r == Ok(ServiceAccount(id, secret)))
            && ((id == "") != (secret == "") ==> st' == st && r == Err(HalfCredentials))
            && (id == "" && secret == "" && (Username(target, flags) == "" || flags.password == "") ==>
                  st' == st.(files := cached.0) && r == if cached.1.Ok? then Ok(FromSession(cached.1.value, true)) else Err(cached.1.error))
            && (id == "" && secret == "" && Username(target, flags) != "" && flags.password != "" ==>
                  (r.Ok? ==> r.value.FromSession? && !r.value.onDisk) && (r.Err? ==> r.error in {LoginFailed, SaveFailed}))
  {}

  /** Without a username the current session is used exactly when it is this server's. */
  lemma CachedSessionChecksServer(files: Files, target: RemoteTarget, username: string, io: LoadIo)
    ensures var r := CachedSession(files, target, username, io).1;
            var current := LoadCurrent(files, io).1;
            && (username == "" && current.Found? ==>
                  if current.session.serverKey == KeyOf(target) then r == Ok(current.session) else r == Err(OtherServer))
            && (username != "" ==> (r.Ok? <==> !io.unreadable && Stored(files, KeyOf(target), username).Some?))
            && (username != "" && r.Ok? ==> Some(r.value) == Stored(files, KeyOf(target), username))
            && (r == Err(CacheUnreadable) <==> if username != "" then io.unreadable else current == IoError)
            && (r == Err(NoCachedSession) <==>
                  if username != "" then !io.unreadable && Stored(files, KeyOf(target), username).None? else current == NoSession)
  {
    KeyStartsRemote(target);
  }

  /** A token with more than 30 seconds left is used as it is, and nothing is sent for it. */
  lemma FreshTokenIsUsed(st: CliState, c: Command, s: Session, onDisk: bool)
    requires c.RemoteCommand? && c.now + 30 < s.expiresAt
    ensures Token(st, c, s, onDisk) == (st, Some(s.token))
  {}

  /** Any other is never used: the refresh token is sent, and a token comes only from the
      server's answer to that, or to a second try with a newer session of the same user. */
  lemma StaleTokenIsRefreshed(st: CliState, c: Command, s: Session, onDisk: bool)
    requires c.RemoteCommand? && c.now + 30 >= s.expiresAt
    ensures var (st', token) := Token(st, c, s, onDisk);
            var st1 := Refresh(st, c.target, s, c.refresh).0;
            var reloaded := CachedSession(st1.files, c.target, Username(c.target, c.flags), c.reloadIo).1;
            && (ServerOf(c.target), s.refreshToken) in st'.sent
            && (token.Some? ==>
                  || (c.refresh.grant.Some? && token.value == c.refresh.grant.value.token != "")
                  || (&& onDisk && reloaded.Ok? && reloaded.value.username == s.username
                      && reloaded.value.refreshToken != s.refreshToken && (ServerOf(c.target), reloaded.value.refreshToken) in st'.sent
                      && c.retry.grant.Some? && token.value == c.retry.grant.value.token != ""))
  {}

  /** A service account gets exactly the non-empty token it is answered, for its secret. */
  lemma AccountTokenIff(st: CliState, target: RemoteTarget, secret: string, answer: Option<string>)
    ensures var (st', token) := AccountToken(st, target, secret, answer);
            && token == (if answer == Some("") then None else answer)
            && st'.sent == st.sent + {(ServerOf(target), secret)} && st'.files == st.files
  {}

  /** A refresh succeeds exactly when the server grants both tokens and they are saved. */
  lemma RefreshSucceedsIff(st: CliState, target: RemoteTarget, s: Session, answer: Answer)
    ensures Refresh(st, target, s, answer).1.Some? <==>
            && answer.grant.Some? && answer.grant.value.token != "" && answer.grant.value.refreshToken != ""
            && !answer.io.mkdirFails && answer.io.file == Written && answer.io.pointer == Written
  {
    if Accepted(answer).Some? { SaveStores(st.files, Updated(s, answer.grant.value), answer.io); }
  }

  /** The rotated pair is on disk and current when the token is used, so that the next
      command finds it; what the answer does not say stays as it was. */
  lemma RefreshedSessionIsSaved(st: CliState, target: RemoteTarget, s: Session, answer: Answer)
    requires s.serverKey == KeyOf(target) && Refresh(st, target, s, answer).1.Some?
    ensures var (st', r) := Refresh(st, target, s, answer);
            var (u, g) := (r.value, answer.grant.value);
            && u.token == g.token && u.refreshToken == g.refreshToken && u.expiresAt == g.expiresAt
            && u.userId == s.userId && u.serverKey == s.serverKey
            && u.username == (if g.username == "" then s.username else g.username)
            && u.roles == (if g.roles == [] then s.roles else g.roles)
            && Stored(st'.files, KeyOf(target), u.username) == Some(u)
            && CurrentOf(st'.files) == Some((KeyOf(target), u.username))
  {
    KeyStartsRemote(target);
    KeysAreProper(target.server, target.parsed);
    var u := Updated(s, answer.grant.value);
    SaveStores(st.files, u, answer.io);
    SaveMovesPointer(Store(map[], CurrentOf(st.files)), st.files, u, answer.io);
  }

  /** So is the session a password login yields. */
  lemma LoginIsSavedForLater(st: CliState, target: RemoteTarget, flags: Flags, env: Environment, login: Answer, loadIo: LoadIo)
    requires ClientCredentials(flags, env) == ("", "") && Username(target, flags) != "" && flags.password != ""
    ensures var (st', r) := Resolve(st, target, flags, env, login, loadIo);
            && (ServerOf(target), flags.password) in st'.sent
            && (r.Ok? <==> && login.grant.Some? && login.grant.value.token != "" && login.grant.value.refreshToken != ""
                           && !login.io.mkdirFails && login.io.file == Written && login.io.pointer == Written)
            && (r == Err(LoginFailed) <==>
                  login.grant.None? || login.grant.value.token == "" || login.grant.value.refreshToken == "")
            && (r.Ok? ==>
                  var g := login.grant.value;
                  && r.value.FromSession? && !r.value.onDisk
                  && r.value.session == Session(g.token, g.refreshToken, g.userId, g.username, g.roles, g.expiresAt, KeyOf(target))
                  && Stored(st'.files, KeyOf(target), g.username) == Some(r.value.session)
                  && CurrentOf(st'.files) == Some((KeyOf(target), g.username)))
  {
    KeyStartsRemote(target);
    KeysAreProper(target.server, target.parsed);
    if Accepted(login).Some? {
      var s := SessionOf(target, login.grant.value);
      SaveStores(st.files, s, login.io);
      SaveMovesPointer(Store(map[], CurrentOf(st.files)), st.files, s, login.io);
    }
  }

  /** What the servers asked by a command may have granted it. */
  predicate GrantedTo(c: Command, x: string)
    requires c.RemoteCommand?
  {
    || c.account == Some(x)
    || (c.login.grant.Some? && (x == c.login.grant.value.token || x == c.login.grant.value.refreshToken))
    || (c.refresh.grant.Some? && x == c.refresh.grant.value.token)
    || (c.retry.grant.Some? && x == c.retry.grant.value.token)
  }

  /** The newer session of the same user that a failed refresh is tried again with. */
  function SecondTry(st: CliState, c: Command, s: Session, onDisk: bool): Option<Session>
    requires c.RemoteCommand?
  {
    var (st1, refreshed) := Refresh(st, c.target, s, c.refresh);
    var reloaded := CachedSession(st1.files, c.target, Username(c.target, c.flags), c.reloadIo).1;
    if c.now + 30 < s.expiresAt || refreshed.Some? || !onDisk || reloaded.Err? then None
    else if reloaded.value.refreshToken == s.refreshToken || reloaded.value.username != s.username then None
    else Some(reloaded.value)
  }

  /** Getting a token sends the refresh token of a stale session, that of the second try
      if there is one, and nothing else. */
  lemma TokenSends(st: CliState, c: Command, s: Session, onDisk: bool)
    requires c.RemoteCommand?
    ensures var again := SecondTry(st, c, s, onDisk);
            Token(st, c, s, onDisk).0.sent ==
            st.sent + (if c.now + 30 < s.expiresAt then {} else {(ServerOf(c.target), s.refreshToken)})
                    + (if again.Some? then {(ServerOf(c.target), again.value.refreshToken)} else {})
  {}

  /** The command resolves to this session, and `st'` is what that leaves. */
  predicate Uses(st: CliState, c: Command, s: Session, onDisk: bool, st': CliState)
    requires c.RemoteCommand?
  {
    Resolve(st.(given := st.given + GivenFor(c.target, c.flags, c.env)), c.target, c.flags, c.env, c.login, c.loadIo)
    == (st', Ok(FromSession(s, onDisk)))
  }

  /** What a remote command may send. */
  ghost predicate MaySend(st: CliState, c: Command, x: string)
    requires c.RemoteCommand?
  {
    || x == c.flags.password || x == ClientCredentials(c.flags, c.env).1 || GrantedTo(c, x)
    || exists s, onDisk, st' :: Uses(st, c, s, onDisk, st') && UsesToSend(st', c, s, onDisk, x)
  }

  predicate UsesToSend(st: CliState, c: Command, s: Session, onDisk: bool, x: string)
    requires c.RemoteCommand?
  {
    || x == (if c.now + 30 < s.expiresAt then s.token else s.refreshToken)
    || (SecondTry(st, c, s, onDisk).Some? && x == SecondTry(st, c, s, onDisk).value.refreshToken)
  }

  /** A session the command uses was just granted to it, or is the one a load finds. */
  lemma UsedSessionIsCachedOrGranted(st: CliState, c: Command, s: Session, onDisk: bool, st': CliState)
    requires c.RemoteCommand? && Uses(st, c, s, onDisk, st')
    ensures if onDisk then CachedSession(st.files, c.target, Username(c.target, c.flags), c.loadIo) == (st'.files, Ok(s))
            else c.login.grant.Some? && s == SessionOf(c.target, c.login.grant.value)
  {}

  /** A remote command sends to its target only, and of the session it uses only the token
      while it has more than 30 seconds left, and else the refresh token. */
  lemma RemoteCommandSends(st: CliState, c: Command, server: Endpoint, x: string)
    requires c.RemoteCommand? && (server, x) in Exec(st, c).sent && (server, x) !in st.sent
    ensures server == ServerOf(c.target) && MaySend(st, c, x)
  {
    var st0 := st.(given := st.given + GivenFor(c.target, c.flags, c.env));
    var (st1, source) := Resolve(st0, c.target, c.flags, c.env, c.login, c.loadIo);
    if source.Ok? && source.value.FromSession? {
      var (s, onDisk) := (source.value.session, source.value.onDisk);
      assert Uses(st, c, s, onDisk, st1);
      TokenSends(st1, c, s, onDisk);
      TokenComesFrom(st1, c, s, onDisk);
    }
  }

  lemma TokenComesFrom(st: CliState, c: Command, s: Session, onDisk: bool)
    requires c.RemoteCommand?
    ensures var token := Token(st, c, s, onDisk).1;
            token.Some? ==> GrantedTo(c, token.value) || (c.now + 30 < s.expiresAt && token.value == s.token)
  {
    if c.now + 30 < s.expiresAt { FreshTokenIsUsed(st, c, s, onDisk); } else { StaleTokenIsRefreshed(st, c, s, onDisk); }
  }

  /** The other commands send nothing, and the token a command gets is sent. */
  lemma OnlyRemoteCommandsSend(st: CliState, c: Command)
    ensures !c.RemoteCommand? ==> Exec(st, c).sent == st.sent
    ensures c.RemoteCommand? ==>
              var (st1, source) := Resolve(st.(given := st.given + GivenFor(c.target, c.flags, c.env)), c.target, c.flags, c.env,
                                           c.login, c.loadIo);
              source.Ok? && TokenFrom(st1, c, source.value).1.Some? ==>
                (ServerOf(c.target), TokenFrom(st1, c, source.value).1.value) in Exec(st, c).sent
  {}

  /** After a logout that no fault stops, the named user's session, or the current one if
      it is this server's, is not found; another server's current session is left alone. */
  lemma LoggedOutIsGone(files: Files, key: string, user: string, loadIo: LoadIo, deleteIo: DeleteIo)
    requires key != "" && !deleteIo.fileFails && !deleteIo.legacyFails
    ensures var files' := LoggedOut(files, key, user, loadIo, deleteIo);
            var current := LoadCurrent(files, loadIo).1;
            && (user != "" ==> Stored(files', key, user) == None)
            && (user == "" && current.Found? && current.session.serverKey == key ==> Stored(files', key, current.session.username) == None)
            && (user == "" && !(current.Found? && current.session.serverKey == key) ==> files' == LoadCurrent(files, loadIo).0)
  {
    if user != "" {
      DeleteLeaves(files, key, user, deleteIo);
    } else if LoadCurrent(files, loadIo).1.Found? {
      DeleteLeaves(LoadCurrent(files, loadIo).0, key, LoadCurrent(files, loadIo).1.session.username, deleteIo);
    }
  }

  /* ---------- isolation between servers ---------- */

  /** Two different servers whose session files can have one name. */
  predicate Clash(t: RemoteTarget, t': RemoteTarget) {
    ServerOf(t) != ServerOf(t') && KeysMeet(KeyOf(t), KeyOf(t'))
  }

  ghost predicate NoClash(targets: set<RemoteTarget>) {
    forall t, t' | t in targets && t' in targets :: !Clash(t, t')
  }

  predicate IssuedBy(s: Session, t: RemoteTarget, issued: Credentials) {
    && s.serverKey == KeyOf(t)
    && (ServerOf(t), s.token) in issued && (ServerOf(t), s.refreshToken) in issued
  }

  /** A local session outside the names of remote keys. */
  predicate LocalFile(name: string, s: Session) { NormalKey(s.serverKey) == LOCAL && !(REMOTE_PREFIX <= name) }

  /** Or the session of one of the targets, under its name. */
  ghost predicate FiledAs(name: string, s: Session, targets: set<RemoteTarget>, issued: Credentials) {
    || LocalFile(name, s)
    || exists t :: t in targets && IssuedBy(s, t, issued) && name == FileName(KeyOf(t), s.username)
  }

  ghost predicate Filed(files: Files, targets: set<RemoteTarget>, issued: Credentials) {
    forall f | f in files && files[f].Json? :: FiledAs(f, files[f].session, targets, issued)
  }

  /** A cache with local sessions only. */
  ghost predicate LocalOnly(files: Files) {
    forall f | f in files && files[f].Json? :: LocalFile(f, files[f].session)
  }

  ghost predicate Over(commands: seq<Command>, targets: set<RemoteTarget>) {
    forall i | 0 <= i < |commands| && commands[i].RemoteCommand? :: commands[i].target in targets
  }

  /** Whatever is run against the targets, faults included, no server ever receives a
      credential that it did not issue itself and that no user gave for it. */
  ghost predicate Isolated(targets: set<RemoteTarget>) {
    forall files, commands | LocalOnly(files) && Over(commands, targets) ::
      var st := ExecAll(CliState(files, {}, {}, {}), commands); st.sent <= st.issued + st.given
  }

  ghost predicate Inv(st: CliState, targets: set<RemoteTarget>) {
    Filed(st.files, targets, st.issued) && st.sent <= st.issued + st.given
  }

  lemma KeyStartsRemote(t: RemoteTarget)
    ensures REMOTE_PREFIX <= KeyOf(t) && KeyOf(t) != LOCAL && KeyOf(t) != ""
  {
    KeyIsRemote(t.parsed.value);
    assert KeyOf(t)[0] == 's';
  }

  lemma FiledStill(name: string, s: Session, targets: set<RemoteTarget>, issued: Credentials, more: Credentials)
    requires FiledAs(name, s, targets, issued) && issued <= more
    ensures FiledAs(name, s, targets, more)
  {
    if !LocalFile(name, s) {
      var t :| t in targets && IssuedBy(s, t, issued) && name == FileName(KeyOf(t), s.username);
      assert IssuedBy(s, t, more);
    }
  }

  /** Whatever the outcome, a save leaves each file as it was, without a session, or with
      the session saved. */
  lemma SaveKeepsFiled(files: Files, targets: set<RemoteTarget>, issued: Credentials, more: Credentials, s: Session, io: SaveIo)
    requires Filed(files, targets, issued) && issued <= more
    requires FiledAs(FileName(NormalKey(s.serverKey), s.username), Normal(s), targets, more)
    ensures Filed(Save(files, s, io).0, targets, more)
  {
    var files' := Save(files, s, io).0;
    forall f | f in files' && files'[f].Json? ensures FiledAs(f, files'[f].session, targets, more) {
      if f in files && files'[f] == files[f] {
        FiledStill(f, files[f].session, targets, issued, more);
      }
    }
  }

  lemma LocalSessionIsFiled(user: string, s: Session, targets: set<RemoteTarget>, issued: Credentials)
    requires NormalKey(s.serverKey) == LOCAL
    ensures FiledAs(FileName(LOCAL, user), s, targets, issued)
  {
    assert FileName(LOCAL, user)[0] == 'l';
  }

  /** What a load for a target finds was issued by the target's own server: another
      server's session under that name would be a clash. */
  lemma LoadFindsOwn(files: Files, targets: set<RemoteTarget>, issued: Credentials, target: RemoteTarget, user: string, io: LoadIo)
    requires Filed(files, targets, issued) && NoClash(targets) && target in targets
    ensures var r := Load(files, KeyOf(target), user, io).1; r.Found? ==> IssuedBy(r.session, target, issued)
  {
    KeyStartsRemote(target);
    var name := FileName(KeyOf(target), user);
    if name in files && files[name].Json? {
      var s := files[name].session;
      assert REMOTE_PREFIX <= name;
      var t :| t in targets && IssuedBy(s, t, issued) && name == FileName(KeyOf(t), s.username);
      KeyStartsRemote(t);
      ShareANameIff(KeyOf(t), KeyOf(target));
      assert !Clash(t, target);
      SameServerSameKey(t.parsed.value, target.parsed.value);
    }
  }

  /** So was the current session, once its key is the target's. */
  lemma OwnKeyIsOwn(name: string, s: Session, targets: set<RemoteTarget>, issued: Credentials, target: RemoteTarget)
    requires FiledAs(name, s, targets, issued) && NoClash(targets) && target in targets
    requires NormalKey(s.serverKey) == KeyOf(target)
    ensures IssuedBy(Normal(s), target, issued)
  {
    KeyStartsRemote(target);
    var t :| t in targets && IssuedBy(s, t, issued) && name == FileName(KeyOf(t), s.username);
    assert !Clash(t, target);
  }

  lemma LoadKeepsFiled(files: Files, targets: set<RemoteTarget>, issued: Credentials, key: string, user: string, io: LoadIo)
    requires Filed(files, targets, issued)
    ensures Filed(Load(files, key, user, io).0, targets, issued)
  {
    var found := Stored(files, NormalKey(key), user);
    if found.Some? && found.value.serverKey == LOCAL {
      LocalSessionIsFiled(found.value.username, found.value, targets, issued);
    }
  }

  lemma CachedSessionIsOwn(st: CliState, targets: set<RemoteTarget>, target: RemoteTarget, username: string, io: LoadIo)
    requires Inv(st, targets) && NoClash(targets) && target in targets
    ensures var (files, r) := CachedSession(st.files, target, username, io);
            Inv(st.(files := files), targets) && (r.Ok? ==> IssuedBy(r.value, target, st.issued))
  {
    if username != "" {
      LoadKeepsFiled(st.files, targets, st.issued, KeyOf(target), username, io);
      LoadFindsOwn(st.files, targets, st.issued, target, username, io);
    } else if !io.pointerUnreadable && CURRENT in st.files {
      var (key, user) := ParsePointer(TextOf(st.files[CURRENT]));
      LoadKeepsFiled(st.files, targets, st.issued, key, user, io);
      var slot := Slot(st.files, NormalKey(key), user);
      if slot.Some? && st.files[slot.value].Json? && NormalKey(st.files[slot.value].session.serverKey) == KeyOf(target) {
        OwnKeyIsOwn(slot.value, st.files[slot.value].session, targets, st.issued, target);
      }
    }
  }

  /** Saving a session its own server has just issued. */
  lemma SaveIssuedKeepsInv(st: CliState, targets: set<RemoteTarget>, target: RemoteTarget, g: Grant, s: Session, io: SaveIo)
    requires Inv(st, targets) && target in targets
    requires IssuedBy(s, target, Issue(st, ServerOf(target), g).issued)
    ensures Inv(Issue(st, ServerOf(target), g).(files := Save(st.files, s, io).0), targets)
  {
    KeyStartsRemote(target);
    var more := Issue(st, ServerOf(target), g).issued;
    assert FiledAs(FileName(KeyOf(target), s.username), s, targets, more);
    SaveKeepsFiled(st.files, targets, st.issued, more, s, io);
  }

  lemma ResolveKeepsInv(st: CliState, targets: set<RemoteTarget>, target: RemoteTarget, flags: Flags, env: Environment, login: Answer, loadIo: LoadIo)
    requires Inv(st, targets) && NoClash(targets) && target in targets && GivenFor(target, flags, env) <= st.given
    ensures var (st', r) := Resolve(st, target, flags, env, login, loadIo);
            && Inv(st', targets)
            && (r.Ok? && r.value.FromSession? ==> IssuedBy(r.value.session, target, st'.issued))
            && (r.Ok? && r.value.ServiceAccount? ==> (ServerOf(target), r.value.secret) in st'.given)
  {
    CachedSessionIsOwn(st, targets, target, Username(target, flags), loadIo);
    var g := Accepted(login);
    if g.Some? { SaveIssuedKeepsInv(Send(st, target, flags.password), targets, target, g.value, SessionOf(target, g.value), login.io); }
  }

  lemma RefreshKeepsInv(st: CliState, targets: set<RemoteTarget>, target: RemoteTarget, s: Session, answer: Answer)
    requires Inv(st, targets) && target in targets && IssuedBy(s, target, st.issued)
    ensures var (st', r) := Refresh(st, target, s, answer);
            && Inv(st', targets) && st.issued <= st'.issued
            && (r.Some? ==> IssuedBy(r.value, target, st'.issued))
  {
    var asked := Send(st, target, s.refreshToken);
    var g := Accepted(answer);
    if g.Some? { SaveIssuedKeepsInv(asked, targets, target, g.value, Updated(s, g.value), answer.io); }
  }

  lemma TokenKeepsInv(st: CliState, targets: set<RemoteTarget>, c: Command, s: Session, onDisk: bool)
    requires c.RemoteCommand? && Inv(st, targets) && NoClash(targets) && c.target in targets && IssuedBy(s, c.target, st.issued)
    ensures var (st', token) := Token(st, c, s, onDisk);
            Inv(st', targets) && (token.Some? ==> (ServerOf(c.target), token.value) in st'.issued)
  {
    RefreshKeepsInv(st, targets, c.target, s, c.refresh);
    var (st1, refreshed) := Refresh(st, c.target, s, c.refresh);
    var username := Username(c.target, c.flags);
    CachedSessionIsOwn(st1, targets, c.target, username, c.reloadIo);
    var (files, reloaded) := CachedSession(st1.files, c.target, username, c.reloadIo);
    if reloaded.Ok? { RefreshKeepsInv(st1.(files := files), targets, c.target, reloaded.value, c.retry); }
  }

  lemma IssuingKeepsFiled(files: Files, targets: set<RemoteTarget>, issued: Credentials, more: Credentials)
    requires Filed(files, targets, issued) && issued <= more
    ensures Filed(files, targets, more)
  {
    forall f | f in files && files[f].Json? ensures FiledAs(f, files[f].session, targets, more) {
      FiledStill(f, files[f].session, targets, issued, more);
    }
  }

  lemma AccountTokenKeepsInv(st: CliState, targets: set<RemoteTarget>, target: RemoteTarget, secret: string, answer: Option<string>)
    requires Inv(st, targets) && (ServerOf(target), secret) in st.given
    ensures var (st', token) := AccountToken(st, target, secret, answer);
            Inv(st', targets) && (token.Some? ==> (ServerOf(target), token.value) in st'.issued)
  {
    IssuingKeepsFiled(st.files, targets, st.issued, AccountToken(st, target, secret, answer).0.issued);
  }

  lemma LogoutKeepsFiled(files: Files, targets: set<RemoteTarget>, issued: Credentials, key: string, user: string,
                         loadIo: LoadIo, deleteIo: DeleteIo)
    requires Filed(files, targets, issued)
    ensures Filed(LoggedOut(files, key, user, loadIo, deleteIo), targets, issued)
  {
    if user != "" {
      DeleteKeepsFiled(files, targets, issued, key, user, deleteIo);
    } else {
      var (files', r) := LoadCurrent(files, loadIo);
      if !loadIo.pointerUnreadable && CURRENT in files {
        var (k, u) := ParsePointer(TextOf(files[CURRENT]));
        LoadKeepsFiled(files, targets, issued, k, u, loadIo);
      }
      if r.Found? { DeleteKeepsFiled(files', targets, issued, key, r.session.username, deleteIo); }
    }
  }

  lemma DeleteKeepsFiled(files: Files, targets: set<RemoteTarget>, issued: Credentials, key: string, user: string, io: DeleteIo)
    requires Filed(files, targets, issued)
    ensures Filed(Delete(files, key, user, io).0, targets, issued)
  {
    var files' := Delete(files, key, user, io).0;
    assert forall f | f in files' :: f in files && files'[f] == files[f];
  }

  lemma ExecKeepsInv(st: CliState, targets: set<RemoteTarget>, c: Command)
    requires Inv(st, targets) && NoClash(targets) && (c.RemoteCommand? ==> c.target in targets)
    ensures Inv(Exec(st, c), targets)
  {
    match c
    case RemoteCommand(target, flags, env, _, _, login, loadIo, _, _, _) =>
      var st0 := st.(given := st.given + GivenFor(target, flags, env));
      ResolveKeepsInv(st0, targets, target, flags, env, login, loadIo);
      var (st1, source) := Resolve(st0, target, flags, env, login, loadIo);
      if source.Ok? { TokenFromKeepsInv(st1, targets, c, source.value); }
    case LocalLogin(s, io) =>
      LocalSessionIsFiled(s.username, Normal(s.(serverKey := "")), targets, st.issued);
      SaveKeepsFiled(st.files, targets, st.issued, st.issued, s.(serverKey := ""), io);
    case Logout(key, user, loadIo, deleteIo) => LogoutKeepsFiled(st.files, targets, st.issued, key, user, loadIo, deleteIo);
  }

  lemma TokenFromKeepsInv(st: CliState, targets: set<RemoteTarget>, c: Command, source: Source)
    requires c.RemoteCommand? && Inv(st, targets) && NoClash(targets) && c.target in targets
    requires match source
             case ServiceAccount(_, secret) => (ServerOf(c.target), secret) in st.given
             case FromSession(s, _) => IssuedBy(s, c.target, st.issued)
    ensures var (st', token) := TokenFrom(st, c, source);
            Inv(st', targets) && (token.Some? ==> (ServerOf(c.target), token.value) in st'.issued)
  {
    match source
    case ServiceAccount(_, secret) => AccountTokenKeepsInv(st, targets, c.target, secret, c.account);
    case FromSession(s, onDisk) => TokenKeepsInv(st, targets, c, s, onDisk);
  }

  lemma {:induction false} RunKeepsInv(st: CliState, targets: set<RemoteTarget>, commands: seq<Command>)
    requires Inv(st, targets) && NoClash(targets) && Over(commands, targets)
    ensures Inv(ExecAll(st, commands), targets)
    decreases |commands|
  {
    if commands != [] {
      RunKeepsInv(st, targets, commands[..|commands| - 1]);
      ExecKeepsInv(ExecAll(st, commands[..|commands| - 1]), targets, commands[|commands| - 1]);
    }
  }

  /* ---------- a clash leaks ---------- */

  /** A command for t as `user`: a login that is granted a session good for a while, or,
      without a password, one from the cache. */
  function CommandAs(t: RemoteTarget, user: string, password: string): Command {
    RemoteCommand(t, Flags("", "", user, password), Environment("", ""), 0, None,
                  Answer(Some(Grant("token", "refresh", "", user, [], SKEW + 1)), WORKING), READABLE,
                  Answer(None, WORKING), READABLE, Answer(None, WORKING))
  }

  lemma LoginIsSaved(t: RemoteTarget, user: string)
    requires user != ""
    ensures var st := Exec(CliState(map[], {}, {}, {}), CommandAs(t, user, "password"));
            && FileName(KeyOf(t), user) in st.files
            && st.files[FileName(KeyOf(t), user)] == Json(Session("token", "refresh", "", user, [], SKEW + 1, KeyOf(t)))
            && st.issued == {(ServerOf(t), "token"), (ServerOf(t), "refresh")}
            && st.given == {(ServerOf(t), "password"), (ServerOf(t), "")}
  {
    KeyStartsRemote(t);
    var name := FileName(KeyOf(t), user);
    assert name[|name| - 1] == 'n' && name != CURRENT;
  }

  lemma CachedTokenIsSent(st: CliState, t: RemoteTarget, user: string, s: Session)
    requires user != "" && FileName(KeyOf(t), user) in st.files && st.files[FileName(KeyOf(t), user)] == Json(s)
    requires s.expiresAt == SKEW + 1
    ensures var st' := Exec(st, CommandAs(t, user, ""));
            && st'.issued == st.issued && st'.given == st.given + {(ServerOf(t), "")}
            && (ServerOf(t), s.token) in st'.sent
  {
    KeyStartsRemote(t);
  }

  /** A login at one server, then a command for the other with the right username. */
  lemma ClashLeaks(targets: set<RemoteTarget>, t: RemoteTarget, t': RemoteTarget)
    requires t in targets && t' in targets && Clash(t, t')
    ensures !Isolated(targets)
  {
    var u, u' := MeetingKeysShareName(KeyOf(t), KeyOf(t'));
    var empty := CliState(map[], {}, {}, {});
    var commands := [CommandAs(t, u, "password"), CommandAs(t', u', "")];
    var st := Exec(empty, commands[0]);
    LoginIsSaved(t, u);
    CachedTokenIsSent(st, t', u', st.files[FileName(KeyOf(t), u)].session);
    assert commands[..1][..0] == [];
    assert ExecAll(empty, commands[..1]) == st;
    assert ExecAll(empty, commands) == Exec(st, commands[1]);
    assert LocalOnly(map[]) && Over(commands, targets);
  }

  /** Servers are isolated from each other exactly when no two of them clash. */
  lemma IsolatedIff(targets: set<RemoteTarget>)
    ensures Isolated(targets) <==> NoClash(targets)
  {
    if NoClash(targets) {
      forall files, commands | LocalOnly(files) && Over(commands, targets)
        ensures var st := ExecAll(CliState(files, {}, {}, {}), commands); st.sent <= st.issued + st.given
      {
        RunKeepsInv(CliState(files, {}, {}, {}), targets, commands);
      }
    } else {
      var t, t' :| t in targets && t' in targets && Clash(t, t');
      ClashLeaks(targets, t, t');
    }
  }

  /** So servers given by plain URLs always are. */
  lemma PlainTargetsAreIsolated(targets: set<RemoteTarget>)
    requires forall t | t in targets :: Plain(t.parsed.value)
    ensures Isolated(targets)
  {
    forall t, t' | t in targets && t' in targets ensures !Clash(t, t') {
      SameKeyIffSameServer(t.server, t.parsed.value, t'.server, t'.parsed.value);
      PlainKeysAreGood(t.server, t.parsed.value);
      PlainKeysAreGood(t'.server, t'.parsed.value);
      if KeyOf(t) != KeyOf(t') { GoodKeysDoNotMeet(KeyOf(t), KeyOf(t')); }
    }
    IsolatedIff(targets);
  }

  /** But https://h:8443 and https://h_8443 are not, nor are https://[::1]:8443 and
      https://[::1:8443]. */
  lemma UnderscoreHostLeaks()
    ensures var t := Target("https://h:8443", Some(Url("https", "", "h:8443", "h", "8443")), "");
            var t' := Target("https://h_8443", Some(Url("https", "", "h_8443", "h_8443", "")), "");
            !Isolated({t, t'})
  {
    var t := Target("https://h:8443", Some(Url("https", "", "h:8443", "h", "8443")), "");
    var t' := Target("https://h_8443", Some(Url("https", "", "h_8443", "h_8443", "")), "");
    UnderscoreHostSharesKey();
    ClashLeaks({t, t'}, t, t');
  }

  lemma Ipv6HostLeaks()
    ensures var t := Target("https://[::1]:8443", Some(Url("https", "", "[::1]:8443", "::1", "8443")), "");
            var t' := Target("https://[::1:8443]", Some(Url("https", "", "[::1:8443]", "::1:8443", "")), "");
            !Isolated({t, t'})
  {
    var t := Target("https://[::1]:8443", Some(Url("https", "", "[::1]:8443", "::1", "8443")), "");
    var t' := Target("https://[::1:8443]", Some(Url("https", "", "[::1:8443]", "::1:8443", "")), "");
    Ipv6HostSharesKey();
    ClashLeaks({t, t'}, t, t');
  }

  /* ---------- the code itself ---------- */

  class Cli {
    const store: SessionStore
    ghost var issued: Credentials
    ghost var given: Credentials
    ghost var sent: Credentials

    constructor (store: SessionStore)
      ensures this.store == store && State() == CliState(store.files, {}, {}, {})
    {
      this.store := store;
      issued, given, sent := {}, {}, {};
    }

    ghost function State(): CliState
      reads this, store
    {
      CliState(store.files, issued, given, sent)
    }

    /** The load closure. */
    method LoadFor(target: RemoteTarget, username: string, io: LoadIo) returns (r: Result<Session, ResolveError>)
      modifies store
      ensures (store.files, r) == CachedSession(old(store.files), target, username, io)
    {
      var serverKey := KeyOf(target);
      var reply;
      if username != "" {
        reply := store.LoadSessionForServer(serverKey, username, io);
      } else {
        reply := store.LoadCurrentSession(io);
        if reply.Found? && reply.session.serverKey != serverKey { return Err(OtherServer); }
      }
      match reply {
        case Found(s) => r := Ok(s);
        case NoSession => r := Err(NoCachedSession);
        case _ => r := Err(CacheUnreadable);
      }
    }

    method ResolveRemoteTokenSource(target: RemoteTarget, flags: Flags, env: Environment, login: Answer, loadIo: LoadIo)
      returns (r: Result<Source, ResolveError>)
      modifies this`issued, this`sent, store
      ensures (State(), r) == Resolve(old(State()), target, flags, env, login, loadIo)
      // Service-account credentials win, and half a pair is an error, not a fallback.
      ensures var (id, secret) := ClientCredentials(flags, env);
              && (id != "" && secret != "" <==> r.Ok? && r.value.ServiceAccount?)
              && ((id == "") != (secret == "") <==> r == Err(HalfCredentials))
              && (id != "" || secret != "" ==> State() == old(State()))
    {
      var (id, secret) := ClientCredentials(flags, env);
      if id != "" && secret != "" { return Ok(ServiceAccount(id, secret)); }
      if id != "" || secret != "" { return Err(HalfCredentials); }
      var serverKey := KeyOf(target);
      var username := flags.username;
      if username == "" { username := target.username; }
      if username != "" && flags.password != "" {
        sent := sent + {(ServerOf(target), flags.password)};
        if login.grant.None? { return Err(LoginFailed); }
        var g := login.grant.value;
        if g.token == "" || g.refreshToken == "" { return Err(LoginFailed); }
        issued := issued + {(ServerOf(target), g.token), (ServerOf(target), g.refreshToken)};
        var session := Session(g.token, g.refreshToken, g.userId, g.username, g.roles, g.expiresAt, serverKey);
        var saved := store.SaveSession(session, login.io);
        if saved != Okay { return Err(SaveFailed); }
        return Ok(FromSession(session, false));
      }
      var cached := LoadFor(target, username, loadIo);
      if cached.Err? { return Err(cached.error); }
      return Ok(FromSession(cached.value, true));
    }

    method RefreshSession(target: RemoteTarget, session: Session, answer: Answer) returns (r: Option<Session>)
      modifies this, store
      ensures (State(), r) == Refresh(old(State()), target, session, answer)
    {
      sent := sent + {(ServerOf(target), session.refreshToken)};
      if answer.grant.None? { return None; }
      var g := answer.grant.value;
      if g.token == "" || g.refreshToken == "" { return None; }
      issued := issued + {(ServerOf(target), g.token), (ServerOf(target), g.refreshToken)};
      var updated := session.(token := g.token, refreshToken := g.refreshToken, expiresAt := g.expiresAt);
      if g.username != "" { updated := updated.(username := g.username); }
      if g.roles != [] { updated := updated.(roles := g.roles); }
      var saved := store.SaveSession(updated, answer.io);
      if saved != Okay { return None; }
      return Some(updated);
    }

    /** SessionSource.Token. */
    method GetToken(c: Command, session: Session, onDisk: bool) returns (token: Option<string>)
      requires c.RemoteCommand?
      modifies this, store
      ensures (State(), token) == Token(old(State()), c, session, onDisk)
    {
      if c.now < session.expiresAt - SKEW { return Some(session.token); }
      var refreshed := RefreshSession(c.target, session, c.refresh);
      if refreshed.None? && onDisk {
        var reloaded := LoadFor(c.target, Username(c.target, c.flags), c.reloadIo);
        if reloaded.Ok? && reloaded.value.refreshToken != session.refreshToken && reloaded.value.username == session.username {
          refreshed := RefreshSession(c.target, reloaded.value, c.retry);
        }
      }
      if refreshed.None? { return None; }
      return Some(refreshed.value.token);
    }

    /** ServiceAccountSource.Token, on a new source. */
    method GetAccountToken(target: RemoteTarget, secret: string, answer: Option<string>) returns (token: Option<string>)
      modifies this
      ensures (State(), token) == AccountToken(old(State()), target, secret, answer)
    {
      sent := sent + {(ServerOf(target), secret)};
      if answer.None? { return None; }
      if answer.value == "" { return None; }
      issued := issued + {(ServerOf(target), answer.value)};
      return answer;
    }

    method RunRemote(c: Command)
      requires c.RemoteCommand?
      modifies this, store
      ensures State() == Exec(old(State()), c)
    {
      given := given + GivenFor(c.target, c.flags, c.env);
      var r := ResolveRemoteTokenSource(c.target, c.flags, c.env, c.login, c.loadIo);
      if r.Err? { return; }
      var token;
      match r.value {
        case ServiceAccount(_, secret) => token := GetAccountToken(c.target, secret, c.account);
        case FromSession(session, onDisk) => token := GetToken(c, session, onDisk);
      }
      if token.Some? { sent := sent + {(ServerOf(c.target), token.value)}; }
    }

    /** runLogout. */
    method RunLogout(serverKey: string, user: string, loadIo: LoadIo, deleteIo: DeleteIo)
      modifies store
      ensures store.files == LoggedOut(old(store.files), serverKey, user, loadIo, deleteIo)
    {
      var username := user;
      if username == "" {
        var current := store.LoadCurrentSession(loadIo);
        if !current.Found? || current.session.serverKey != serverKey { return; }
        username := current.session.username;
      }
      var _ := store.DeleteSessionForServer(serverKey, username, deleteIo);
    }

    /** Any commands, one after the other. */
    method Run(commands: seq<Command>)
      modifies this, store
      ensures State() == ExecAll(old(State()), commands)
    {
      for i := 0 to |commands|
        invariant State() == ExecAll(old(State()), commands[..i])
      {
        assert commands[..i + 1][..i] == commands[..i];
        match commands[i] {
          case RemoteCommand(_, _, _, _, _, _, _, _, _, _) => RunRemote(commands[i]);
          case LocalLogin(s, io) => var _ := store.SaveSession(s.(serverKey := ""), io);
          case Logout(key, user, loadIo, deleteIo) => RunLogout(key, user, loadIo, deleteIo);
        }
      }
      assert commands[..|commands|] == commands;
    }
  }
}
