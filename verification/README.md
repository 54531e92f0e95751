# RocketVault: a verified model of its file writer, session cache, login flow and export format

RocketVault is a secret manager with an HTTP API and a command line. This project models the parts of it
that are protocols or stores, in Dafny 4.11, and proves what they promise:

- **Private files** (`PrivateFile.dfy`): the temporary-file writer as a step machine over directory entries and
  inodes, with other processes, failing calls and crashes between any two steps, and the code itself as methods
  that follow that machine.
- **Sealed exports** (`SealedExport.dfy`, `Base64.dfy`, `Utf8.dfy`, `ExportOpen.dfy`): four layers of printer and
  parser, and the command that opens a sealed file and writes its content. `IdealPrimitives.dfy` shows that the laws
  assumed of the cipher, key derivation and JSON codec can hold together.
- **CLI sessions** (`ServerKey.dfy`, `SessionStore.dfy`, `TokenSource.dfy`): the directory of session files as a plain
  map, and the credentials a remote command sends.
- **OIDC login** (`OidcFlow.dfy`, `CliExchange.dfy`, `CliHandOff.dfy`): the cookies between login and callback, the
  one-time codes, and both together with any number of browsers.
- **Startup route check** (`RouteAuthorization.dfy`) and **write-ahead audit** (`AuditTrail.dfy`).
- **Loops and heap objects**: audit client ids (`AuditClientId.dfy`), HTTP Basic credentials (`ClientCredentials.dfy`),
  cloning and the cache built on it (`ModelClone.dfy`), migration versions (`Migration.dfy`), master-key quality
  (`MasterKey.dfy`) and paging (`Pagination.dfy`).

What the outside world decides is an argument: clock readings, random codes and nonces, how each system call or
service call ends, what other processes do. `dafny verify dfyconfig.toml` checks everything.

## What the proofs found

- **A lazy migration can lose a session.** `os.WriteFile` truncates before it writes. If rewriting a legacy session
  under its new name fails half way, the remains hide the legacy file and the session is gone
  (`SessionStore.TornRewriteLosesSession`). A load leaves the store unchanged exactly otherwise
  (`SessionStore.LoadUnchangedIff`).
- **A failed save can switch users.** A save whose pointer write stops half way reports an error, and what is left of
  `local|bob@x` can read `local|bob` (`SessionStore.TornPointerSwitchesUser`). It can happen exactly to a save under whose
  key a shorter username is stored, or whose key starts with a local username (`SessionStore.TornSaveAnswersIff`).
- **Two servers can share a key.** `https://h:8443` and `https://h_8443` both get `srv_https_h_8443`, and
  `https://[::1]:8443` and `https://[::1:8443]` both get `srv_https___1_8443`, although `SanitizeServerKey` documents that
  a token for one server is never used against another; the CLI then sends one server's token to the other
  (`TokenSource.UnderscoreHostLeaks`, `TokenSource.Ipv6HostLeaks`). For http and https URLs it happens exactly when one
  host reads like the other's host and port, or two hosts on one port read alike, once sanitised
  (`ServerKey.KeysTellServersApartIff`). Different keys can share file names too, exactly when one runs into the `__`
  separator (`ServerKey.ShareANameIff`). Servers are isolated from each other exactly when neither happens
  (`TokenSource.IsolatedIff`), so always for plain URLs, with hosts of letters, digits, dots and hyphens
  (`TokenSource.PlainTargetsAreIsolated`).
- **Two usernames can share a file**: `sanitizeUsername` replaces `@`, although its comment says emails pass unchanged
  (`ServerKey.UsersCanMeet`). The directory of sessions behaves like a map exactly when no two entries in play share a
  file name (`SessionStore.RefinesIff`).
- **A browser login keeps an older CLI redirect**, and its session is then handed to the older login's CLI
  (`OidcFlow.BrowserSessionReachesOlderCli`). A handed-off session goes to its own login's CLI exactly when that login
  asked for one (`OidcFlow.HandedToItsOwnLoginIff`).
- **A CLI redirect with a semicolon arrives without it**, since a cookie cannot hold one: a redirect arrives as given
  exactly when it has only characters a cookie can hold (`OidcFlow.HandedOffIff`, `OidcFlow.CookieDropsSemicolon`).
- **An empty tag list clones to nil**, so a clone equals its original exactly when the list is not empty-but-present
  (`ModelClone.Secret.Clone`).
- **Refused token requests leave a result row without an attempt row** (`AuditTrail.RefusedTokenHasNoAttempt`), and they
  are the only requests that do (`AuditTrail.ResultHasItsAttemptIff`).
- **Migration numbers stop at 999999** and then repeat (`Migration.PastTheLastSequenceItRepeats`); the next version comes
  last exactly before that (`Migration.NextComesLastIff`).
- **A huge page number panics or returns a wrong page** once its offset wraps (`Pagination.HugePagesFail`); the page is
  right exactly when the offset fits or wraps past the end of the list (`Pagination.ListUsers`).
- **A target named like a temporary file is not safe.** The file writer keeps its promise in every run exactly when the
  target's own name does not have the form `.rocketvault-export-` and a number (`PrivateFile.PromiseKeptIff`).

## Model

| member | source | states |
|---|---|---|
| PrivateFile.PromiseKeptIff | common/private_file.go:22-76 | all promises of the writer (no partial target now or after a crash, at most one change, nothing replaced without overwrite, a truthful result) hold in every run exactly when the target's name does not have the temporary names' form |
| PrivateFile.TargetIsNotTemp | common/private_file.go:22-43 | a target without that form is never the temporary file |
| PrivateFile.AtMostOneInstall | common/private_file.go:26-76 | in every interleaving the writer changes the target entry in at most one step, installs the complete, durable, 0600 file, and without overwrite only where no entry was |
| PrivateFile.CrashLeavesAllOrNothing | common/private_file.go:26-33 | whenever the run stops, and whichever earlier moment the directory falls back to, a target entry naming the new file names all of the data on disk |
| PrivateFile.CommittedIffInstalled | common/private_file.go:57-75 | at every point the writer counts as committed exactly when an earlier step of its own installed the file, so an error never changed the target |
| PrivateFile.WriterStepOnTarget | common/private_file.go:57-73 | the install step is the only one that changes the target, it finds no entry there without overwrite, and an existing output is reported only when one was found |
| PrivateFile.WriterTouchesOnlyItsOwn | common/private_file.go:28-32 | no step touches another entry or another inode, so a symbolic link's target keeps its content |
| PrivateFile.TempNameGoneOnReturn | common/private_file.go:44-52 | on return the temporary name is an entry exactly when removing it failed, and is then a link to the file |
| PrivateFile.CreatesAfresh | common/private_file.go:39-43 | the temporary file takes a name of the pattern and an inode that nothing had before |
| PrivateFile.FaultsAreReported | common/private_file.go:43-105 | up to the install step a failing call always ends in a failure and no other does; the removal's own failure changes no result |
| PrivateFile.InstallOutcome | common/private_file.go:57-85 | which outcome every way rename or link can end has: an existing output, missing hard links and other errors are told apart |
| PrivateFile.DirectoryIsKept | common/private_file.go:57-64 | a directory at the target is never replaced |
| PrivateFile.OnlyTheOwnerMayRead | common/private_file.go:26-27 | whenever the target names the new file, its owner may read and write it and nobody else has any right |
| PrivateFile.WriterStepKeepsInv | common/private_file.go:43-76 | the invariant on content, durability, mode and links is kept by every step |
| PrivateFile.RunMonotone | common/private_file.go:43-76 | along a run the writer only moves forward, keeps its temporary file and stays committed |
| PrivateFile.TargetNeverPartialIff | common/private_file.go:26-43 | over every run, a target entry naming the writer's file always names all of the data exactly when the temporary name was never the target's |
| PrivateFile.TempNameMustDiffer | common/private_file.go:22-43 | for every target that has the temporary names' form, a run in which a partial file is visible there |
| PrivateFile.Host.CreateTemp | common/private_file.go:39-43 | creates a fresh name of the pattern and an inode that the writer alone holds, or aborts |
| PrivateFile.Host.WriteAndSync | common/private_file.go:87-105 | chmod, write, sync, close in order, each failure leading to removal |
| PrivateFile.Host.WriteAndInstall | common/private_file.go:47-75 | the renamed flag is set exactly when the temporary name was renamed away; otherwise the name is still held and must be removed |
| PrivateFile.Host.WritePrivateFile | common/private_file.go:34-76 | the whole call is one run of the machine, ending in the result it returns; without faults only an entry in the way stops it |
| PrivateFile.Host.Lstat | cmd/export.go:115-123 | looks at the entry without following it and without starting the writer |
| ExportOpen.RunExportOpen | cmd/export.go:105-163 | either the writer never starts, or it writes exactly the content the file opens to; it reports success exactly when the file was installed; with force every file that opens is written; the write keeps the writer's promise unless the target is named like a temporary file |
| ExportOpen.CheckOutput | cmd/export.go:105-123 | standard output is refused always, and an existing output or one that cannot be checked only without force; nothing is written |
| ExportOpen.OpenedContent | cmd/export.go:125-158 | which files open, and which of their faults each refusal names |
| ExportOpen.OpenAndWrite | cmd/export.go:125-163 | a write is attempted exactly when the file opens to something |
| ExportOpen.TargetHoldsTheSealedContent | cmd/export.go:145-163 | end to end, a target entry naming the new file holds exactly the content that was sealed, durably, and was installed at most once |
| Base64.DecodeEncode | common/encrypt.go:174-198 | decoding undoes standard base64 encoding for every byte sequence |
| Base64.EncodeStaysInAlphabet | common/encrypt.go:174-175 | encodings use the standard alphabet and padding only |
| Base64.DecodedIsEncoded | common/encrypt.go:190-198 | nothing else decodes: whatever decodes is an encoding of its value, but for the unused bits of the last digit |
| Base64.NewlinesAreSkipped | common/encrypt.go:190-198 | line breaks anywhere make no difference |
| Base64.DigitByValue | common/encrypt.go:174-175 | the alphabet, character by character |
| Base64.GroupByValue | common/encrypt.go:174-175 | the digits of a group write the number its bytes write, first byte first |
| SealedExport.DecryptEncrypt | common/encrypt.go:154-221 | a sealed value opens to itself under its key and is refused under any other |
| SealedExport.DecryptAcceptsExactly | common/encrypt.go:190-221 | decryption accepts exactly base64 of a 12-byte nonce followed by the value's sealing under it |
| SealedExport.FramingErrors | common/encrypt.go:151-215 | keys that are not 32 bytes, texts that are not base64 and texts too short for a nonce each have their own error |
| SealedExport.OpenSealedWith | common/export_envelope.go:119-155 | an envelope with any in-bounds parameters and salt opens to its plaintext exactly under passphrases that derive its key; others report a wrong passphrase |
| SealedExport.OpenAcceptsExactly | common/export_envelope.go:58-155 | on arbitrary input a plaintext is returned exactly for a version-1 argon2id envelope in bounds whose ciphertext seals it |
| SealedExport.SealedHeader | common/export_envelope.go:90-116 | a sealed file carries version 1, argon2id with one pass, 64 MiB and four lanes, its 16-byte salt and the sealed plaintext |
| SealedExport.SealErrors | common/export_envelope.go:90-103 | sealing fails exactly for an empty passphrase, asked for first, or failing randomness |
| SealedExport.OpenErrors | common/export_envelope.go:119-155 | a wrong passphrase is reported exactly for a file with a faultless header that does not open; every other fault has its own error |
| SealedExport.HeaderErrors | common/export_envelope.go:58-145 | which fault of the header each error names |
| SealedExport.OpenedIsSealed | common/export_envelope.go:157-167 | whatever opens is recognised as sealed beforehand |
| SealedExport.Key | common/export_envelope.go:58-72 | key derivation is reachable only inside the bounds below which it panics |
| SealedExport.SealItemSucceedsIff | common/item_export.go:45-56 | sealing an item fails exactly for an unknown kind, an empty passphrase or failing randomness |
| SealedExport.OpenSealedItem | common/item_export.go:45-81 | opening a sealed item returns it with payload version 1; a passphrase deriving another key is refused |
| SealedExport.OpenItemExport | common/item_export.go:61-81 | whatever opens is of a known kind and version |
| SealedExport.OpenItemIff | common/item_export.go:58-81 | an item comes out exactly of a payload of version 1 and of kind certificate or key; anything else is no item export or of another version |
| SealedExport.OtherSealedFilesAreNotItems | common/item_export.go:58-75 | a sealed file holding something else is told apart from a wrong passphrase |
| IdealPrimitives.SymbolicIsIdeal | common/encrypt.go:154-221 | the laws assumed of cipher, key derivation and JSON hold together in one instance, so the results that assume them are about something |
| ServerKey.SameKeyIffSameServer | common/session.go:95-131 | two plain URLs (http or https, a host of letters, digits, dots and hyphens) share a key exactly when scheme, lower-cased host and effective port agree, whatever the userinfo |
| ServerKey.KeysTellServersApartIff | common/session.go:76-131 | for http and https URLs with any hosts, sharing a key means being one server exactly when neither sanitised host reads like the other's host and port and no two different hosts on one port read alike |
| ServerKey.SameKeyIffSameServerIff | common/session.go:76-131 | for hosts that sanitising leaves alone, exactly when neither host reads like the other's host and port |
| ServerKey.SameServerSameKey | common/session.go:113-131 | whatever the host, one server always has one key |
| ServerKey.EndpointByValue | common/session.go:65-70 | the server a URL reaches, in plain values: port 443 for https and 80 for http unless it has one |
| ServerKey.DefaultPortIsNormalised | common/session.go:65-82 | https://h and https://h:443 share a key and https://h and https://h:80 do not, for every plain h; for http the other way round |
| ServerKey.CaseAndUserDoNotMatter | common/session.go:76-82 | neither letter case in scheme and host nor embedded credentials change the key |
| ServerKey.PlainKeyByValue | common/session.go:113-131 | what the key of a plain URL looks like |
| ServerKey.DnsHostIsPlain | common/session.go:113-131 | every host of letters, digits, dots and hyphens is plain |
| ServerKey.SanitizeByValue | common/session.go:47-56 | which characters are kept, and that every other becomes an underscore |
| ServerKey.LocalKeyIff | common/session.go:95-98 | only the two local names get the local key, whatever else a server is called |
| ServerKey.UnderscoreHostSharesKey | common/session.go:124-131 | two servers with one key |
| ServerKey.Ipv6HostSharesKey | common/session.go:118-131 | two IPv6 servers with one key, without an underscore in either host |
| ServerKey.KeysAreProper | common/session.go:95-110 | no key is empty or holds the pointer's separator, whatever the server |
| ServerKey.PlainKeysAreGood | common/session.go:58-65 | keys of plain URLs never are the local key and cannot run into the file-name separator |
| ServerKey.FileNameInjective | common/session.go:133-135 | a session file name determines its key and sanitised username |
| ServerKey.NamesDisjoint | common/session.go:133-145 | legacy names, new-format names and the pointer's name never meet |
| ServerKey.ParsePointerOfPointer | common/session.go:181-184 | reading back the pointer gives the key and username for every username |
| ServerKey.ParsePointerIff | common/session.go:243-258 | every text reads as a pointer in exactly one way: split at its first bar, or as a local username |
| ServerKey.ShareANameIff | common/session.go:133-135 | two keys have a session file name in common, for some usernames, exactly when they are equal or the longer is the shorter followed by `_`, or by `__` and safe characters |
| ServerKey.UnderscoreHostSharesNames | common/session.go:124-135 | two http URLs whose different keys share file names |
| ServerKey.UsersCanMeet | common/session.go:47-56 | two usernames with one file |
| SessionStore.SessionStore.WriteSessionFile | common/session.go:152-171 | fills in the server key and writes one file, or reports that it failed, after all, part or none of the data |
| SessionStore.SessionStore.SaveSession | common/session.go:176-187 | the file first, then the pointer, as the specification says for every fault |
| SessionStore.SessionStore.LoadSessionForServer | common/session.go:201-237 | reads with legacy fallback and lazy rewrite, as the specification says for every fault |
| SessionStore.SessionStore.LoadCurrentSession | common/session.go:243-258 | follows the pointer in either format |
| SessionStore.SessionStore.DeleteSessionForServer | common/session.go:271-305 | removes both files and a matching pointer, stopping at the first failure |
| SessionStore.SaveRefines | common/session.go:173-187 | a save updates one map entry and the current entry, in a way every fault outcome determines |
| SessionStore.LoadRefines | common/session.go:196-237 | a load answers from the map and changes nothing, but for a torn rewrite |
| SessionStore.DeleteRefines | common/session.go:267-305 | when a delete succeeds, and what it does to its entry and the current one, however it ends |
| SessionStore.DeleteLeaves | common/session.go:271-305 | what a delete leaves to be found, whatever fails |
| SessionStore.StepRefines | common/session.go:152-305 | every operation on files is the operation on the map, faults included |
| SessionStore.RunRefines | common/session.go:152-305 | every run over the files answers as the run over the map |
| SessionStore.RefinesIff | common/session.go:133-145 | the directory behaves like the map in every run over a scope exactly when no two of its entries have a file name in common |
| SessionStore.GoodNamesAreNotShared | common/session.go:133-145 | which keys and usernames are enough for that |
| SessionStore.LoadUnchangedIff | common/session.go:226-234 | a load leaves map and pointer unchanged exactly when it does not tear a lazy rewrite |
| SessionStore.TornRewriteLosesSession | common/session.go:226-234 | a concrete session found once and lost by a torn rewrite |
| SessionStore.LoadAfterTear | common/session.go:176-258 | what following a pointer cut anywhere answers |
| SessionStore.TornSaveAnswersIff | common/session.go:176-258 | some way of stopping half way through the pointer leaves a session current exactly when one is stored under the saved key for a shorter username, or locally for a username the key starts with |
| SessionStore.TornPointerSwitchesTo | common/session.go:176-258 | whichever stored entry the torn pointer reads as is the current one next |
| SessionStore.TornPointerSwitchesUser | common/session.go:181-184 | a concrete failed save that makes another user current |
| SessionStore.DeleteRemovesEveryFile | common/session.go:276-283 | after a successful delete no file of the entry is left |
| SessionStore.DeletedStaysGone | common/session.go:267-283 | no later run without a new save of the entry brings it back |
| TokenSource.IsolatedIff | cmd/root.go:468-562 | for every set of servers: over all runs of remote commands, local logins and logouts, faults included, no server receives a token it did not issue, or a password or client secret not given for it, exactly when no two of the servers have keys that meet |
| TokenSource.PlainTargetsAreIsolated | common/session.go:84-94 | so servers given by plain URLs are always isolated |
| TokenSource.ClashLeaks | cmd/root.go:529-532 | for any two servers whose keys meet, a login at one and a command for the other leak a token |
| TokenSource.UnderscoreHostLeaks | common/session.go:84-94 | which two concrete URLs do |
| TokenSource.Ipv6HostLeaks | common/session.go:84-94 | and two IPv6 ones |
| TokenSource.LoadFindsOwn | common/session.go:196-237 | what a load for a server finds under its key was issued by that server |
| TokenSource.CachedSessionIsOwn | cmd/root.go:529-543 | so was whatever the load closure accepts, by name or by the current pointer |
| TokenSource.RefreshKeepsInv | internal/vaultapi/sessionsource.go:214-276 | a refresh sends a server its own refresh token and files what it answers under that server |
| TokenSource.TokenKeepsInv | internal/vaultapi/sessionsource.go:142-208 | the token returned, after any refresh and reload, was issued by the target |
| TokenSource.RunKeepsInv | cmd/root.go:468-562 | every file stays local or filed under a server that issued both its credentials |
| TokenSource.FreshTokenIsUsed | internal/vaultapi/sessionsource.go:142-149 | a token with more than 30 seconds left is used as it is and nothing is sent for it |
| TokenSource.StaleTokenIsRefreshed | internal/vaultapi/sessionsource.go:142-208 | any other is never used: the refresh token is sent, and a token comes only from the answer to that or to one more try with a newer session of the same user |
| TokenSource.TokenSends | internal/vaultapi/sessionsource.go:142-208 | exactly which credentials getting a token sends |
| TokenSource.RemoteCommandSends | cmd/root.go:564-640 | a remote command sends to its target only, and of its session only a token with more than 30 seconds left, and else refresh tokens |
| TokenSource.OnlyRemoteCommandsSend | cmd/root.go:564-640 | no other command sends anything, and the token a command gets is sent |
| TokenSource.TiersInOrder | cmd/root.go:483-562 | a service-account pair before a login before the cache, in every case; half a pair is an error that touches nothing |
| TokenSource.FlagsComeFirst | cmd/root.go:488-507 | flags before the environment and before the context's username |
| TokenSource.CachedSessionChecksServer | cmd/root.go:529-543 | the current session is used exactly when it is this server's, a named one exactly when it is stored, and which error is which |
| TokenSource.RefreshSucceedsIff | internal/vaultapi/sessionsource.go:214-276 | a refresh succeeds exactly when both tokens are granted and saved |
| TokenSource.RefreshedSessionIsSaved | internal/vaultapi/sessionsource.go:248-276 | the rotated pair is stored and current, and what the answer does not say is kept |
| TokenSource.LoginIsSavedForLater | internal/vaultapi/login.go:60-145 | a login sends the password, succeeds exactly when both tokens are granted and saved, and its session is stored and current |
| TokenSource.AccountTokenIff | internal/vaultapi/tokensource.go:83-199 | a service account gets exactly the non-empty token it is answered |
| TokenSource.LoggedOutIsGone | cmd/users/logout.go:64-83 | after a logout the named session, or this server's current one, is not found, and another server's is left alone |
| TokenSource.Cli.LoadFor | cmd/root.go:529-543 | the load closure is its specification, faults included |
| TokenSource.Cli.ResolveRemoteTokenSource | cmd/root.go:483-562 | service-account pairs win, half a pair is an error, a login seeds a source without disk, else the cache |
| TokenSource.Cli.RefreshSession | internal/vaultapi/sessionsource.go:214-276 | the refresh request and the save of its answer are their specification |
| TokenSource.Cli.GetToken | internal/vaultapi/sessionsource.go:142-208 | the cached token, a refresh, or one retry from disk for the same user, as specified |
| TokenSource.Cli.GetAccountToken | internal/vaultapi/tokensource.go:83-199 | the client secret goes to the target and its token comes back |
| TokenSource.Cli.RunLogout | cmd/users/logout.go:64-83 | deletes the named session, or the current one if it is this server's, after a load that may migrate it |
| TokenSource.Cli.Run | cmd/root.go:564-640 | any commands in a row have the specified effect on files and on credentials issued and sent |
| CliExchange.CliExchangeStore.Put | api/oidc_cli.go:65-89 | drops exactly the expired codes and adds the new one for 60 s |
| CliExchange.CliExchangeStore.Consume | api/oidc_cli.go:93-107 | removes the code and returns its response only if not expired |
| CliExchange.RedeemedIff | api/oidc_cli.go:45-107 | a code redeems exactly when put at most 60 s ago and not mentioned since, for its own response |
| CliExchange.RedeemedAtMostOnce | api/oidc_cli.go:91-107 | with fresh codes each redeems at most once |
| CliExchange.EntriesAfterPut | api/oidc_cli.go:75-87 | after a put the map is exactly the unredeemed codes not past their expiry |
| OidcFlow.OidcHandlers.LoginHandler | api/oidc.go:59-92 | sets the cookies only when every random value was obtained |
| OidcFlow.OidcHandlers.CallbackHandler | api/oidc.go:100-218 | clears the cookies before every answer, checks in order, and stores a CLI response only when redirecting with its code |
| OidcFlow.OidcHandlers.ClearOIDCCookies | api/oidc.go:242-247 | clears all four cookies |
| OidcFlow.LoginStartsIff | api/oidc.go:59-92 | a login starts exactly when configured, with an acceptable redirect and every random value, and sends what was drawn; otherwise it sets no cookie |
| OidcFlow.ProviderAskedIff | api/oidc.go:100-151 | the provider is asked exactly with all cookies, the non-empty state of its cookie, a code and an acceptable redirect |
| OidcFlow.SessionIssuedIff | api/oidc.go:148-218 | a session is issued exactly when the provider was asked, the identity verified, the user found and both services and the audit row agreed |
| OidcFlow.RefusalIff | api/oidc.go:100-218 | which refusal is answered when: 403 exactly for a user the policy denies |
| OidcFlow.FlowCookieIff | api/oidc.go:83-110 | over every run a flow cookie is there exactly while its login is pending and it has not expired |
| OidcFlow.SessionIssuedIffLoginPending | api/oidc.go:59-218 | over every run a session is issued exactly to a callback with a code that presents the state of the login pending in that browser, for a user found |
| OidcFlow.HandOffStaysOnLoopback | api/oidc_cli.go:24-43 | a session only ever leaves for plain HTTP on the loopback with an explicit port, whatever the cookie went through |
| OidcFlow.CookiesComeFromPendingLogin | api/oidc.go:83-110 | at every point the state, nonce and PKCE cookies come from the one login still pending |
| OidcFlow.SessionBelongsToPendingLogin | api/oidc.go:107-151 | the provider is asked only with that login's nonce and verifier, and only for its non-empty state |
| OidcFlow.OneSessionPerLogin | api/oidc.go:107-110 | two sessions come from two different logins |
| OidcFlow.CliRedirectSurvivesLogin | api/oidc.go:83-89 | when a login leaves a CLI redirect behind, and what a cookie keeps of it |
| OidcFlow.RedirectComesFromAskingLogin | api/oidc.go:83-130 | over every run the jar holds a CLI redirect exactly when some login asked for one with no callback, expiry or newer asking login since, and it is what a cookie keeps of that login's |
| OidcFlow.HandedOffIff | api/oidc.go:188-218 | an issued session goes to a CLI exactly when such a login exists and a code was drawn, and to that login's URI, unchanged exactly when a cookie can hold it |
| OidcFlow.HandedToItsOwnLoginIff | api/oidc.go:83-218 | it goes to its own login's CLI exactly when that login asked for one, and otherwise to an older one's |
| OidcFlow.BrowserSessionReachesOlderCli | api/oidc.go:83-218 | runs in which it is the older one's, for every redirect and provider code |
| OidcFlow.CookieDropsSemicolon | api/oidc.go:83-89 | a redirect that comes back from its cookie changed |
| OidcFlow.OidcHandlers.CliExchangeHandler | api/oidc_cli.go:116-131 | an empty code is refused, an unknown or expired one is gone, and any other yields its response once |
| CliHandOff.RedeemedIffHandedOff | api/oidc_cli.go:45-131 | with any number of browsers, a code redeems exactly when some callback handed it out at most 60 s ago and nothing used it since, for the session that callback issued |
| CliHandOff.RedeemedSessionHasItsLogin | api/oidc.go:100-218 | that session is of the login pending in the callback's browser, with its state, nonce and verifier |
| CliHandOff.HandedOverAtMostOnce | api/oidc_cli.go:91-107 | with fresh codes no code is redeemed twice, whoever tries |
| RouteAuthorization.VerifyRouteAuthorization | api/route_authorization.go:162-247 | no problem is reported exactly for a well-classified router |
| RouteAuthorization.CheckAllowList | api/route_authorization.go:168-183 | the list is clean exactly when entries are unique, of known class and name a gate |
| RouteAuthorization.CheckMethod | api/route_authorization.go:203-223 | the switch is silent exactly for a classified method and path, and names what is wrong otherwise |
| RouteAuthorization.CheckRoute | api/route_authorization.go:186-226 | a route is clean exactly when it has a template, methods and only classified pairs |
| RouteAuthorization.CheckRoutes | api/route_authorization.go:185-229 | the walk is clean exactly when every route is, and sees exactly what is registered |
| RouteAuthorization.IsListedPublic | api/route_authorization.go:259-267 | whether the path has a public entry for any method |
| RouteAuthorization.AcceptedRouterIsCovered | api/route_authorization.go:153-161 | on an accepted router every served route is gated, and public exactly when its entry says so |
| RouteAuthorization.AcceptedListIsLive | api/route_authorization.go:168-247 | on an accepted router every list entry is registered unless optional, has a gate and a known class, and every public path has a public entry |
| RouteAuthorization.BlankByValue | api/route_authorization.go:180-182 | which plain-text gates count as blank |
| AuditTrail.Server.RecordCriticalAttempt | api/context.go:204-210 | writes the attempt row and says whether the operation may run |
| AuditTrail.Server.ManagementHandler | api/oauth2.go:253-399 | attempt, change, result in this order; and exactly when each answer is given |
| AuditTrail.Server.TokenHandler | api/oauth2.go:91-120 | the token is delivered exactly when credentials are valid and the attempt row is written, and exactly when each other answer is given |
| AuditTrail.EffectHasItsAttempt | api/jwks.go:63-69 | under any interleaving and crash, every change or delivery comes after its own attempt row |
| AuditTrail.FinishedLogHolds | api/oauth2.go:91-399 | for every request of a finished log, exactly when it left an attempt row, a change, a delivered token, and a row of success or failure |
| AuditTrail.ResultTellsOutcome | api/oauth2.go:261-395 | in every interleaved log a result row says success exactly when its request did not fail |
| AuditTrail.StepsInOrder | api/oauth2.go:91-399 | one request's attempt, change, result and delivery come once each and in this order |
| AuditTrail.DeliveredIffSuccessRow | api/oauth2.go:106-119 | where result rows are written, a token was delivered exactly where there is a row of success |
| AuditTrail.NoEffectWithoutAttempt | api/oauth2.go:224-234 | if the attempt row fails the effect does not happen |
| AuditTrail.AttemptsBoundEffectsAndResults | api/oauth2.go:270-282 | effects, and for managed actions result rows, never outnumber attempt rows |
| AuditTrail.ResultHasItsAttemptIff | api/oauth2.go:91-120 | in every interleaved log a result row comes after its own attempt row exactly unless it is a refused token request's |
| AuditTrail.RefusedTokenHasNoAttempt | api/oauth2.go:97-104 | refused credentials leave a result row without an attempt row |
| Utf8.RunesEncodeAll | api/oauth2.go:131-143 | decoding undoes encoding for every sequence of runes |
| Utf8.EncodeDecodeRune | api/oauth2.go:133-136 | what a valid decoding step consumed is the encoding of what it yielded |
| Utf8.EncodeRuneByValue | api/oauth2.go:139 | one rune of each length, byte by byte |
| AuditClientId.SanitizeAuditClientID | api/oauth2.go:131-143 | the loop computes the sanitised id |
| AuditClientId.SanitizedIsLongestPrefix | api/oauth2.go:122-143 | it is the encoding of the longest prefix of printable valid runes within 255 bytes, and valid UTF-8 |
| AuditClientId.SanitizedIsIdempotent | api/oauth2.go:131-143 | sanitising twice changes nothing |
| ClientCredentials.BasicHeaderRoundTrip | api/oauth2.go:184-196 | a Basic header gives back its pair exactly when the id has no colon |
| ClientCredentials.ExtractedIff | api/oauth2.go:179-200 | exactly which pair comes out of any header and body |
| ClientCredentials.FormNeverOverridesBasic | api/oauth2.go:179-200 | the body matters exactly when there is no Basic header |
| ModelClone.Secret.Clone | model/secret.go:67-77 | a copy in fresh objects, equal to its original exactly unless the tag list is empty but present |
| ModelClone.Vault.Clone | model/vault.go:105-121 | an equal copy in fresh objects |
| ModelClone.Cache.Set | internal/cachekit/cache.go:72-92 | to callers, a map update that stores a copy; the displaced copy is cleared |
| ModelClone.Cache.Get | internal/cachekit/cache.go:52-68 | a fresh copy of the stored value until it expires, then a removal |
| ModelClone.Cache.Remove | internal/cachekit/cache.go:146-166 | drops one entry and clears the dropped copy only |
| ModelClone.Client.Run | model/secret.go:62-66 | any gets, sets, removals and writes through any copies held have the effect they would have on values that share nothing |
| ModelClone.PutThenFetched | model/secret.go:62-66 | what is fetched is what was put, whatever was written to copies in between |
| ModelClone.ExpiredIsNotFetched | internal/cachekit/cache.go:52-68 | past its time an entry is not fetched and is gone |
| Migration.NextMigrationVersion | cmd/migrate.go:326-356 | today's date and one more than the highest number counted |
| Migration.HighestIsMaximum | cmd/migrate.go:332-353 | the number the loop keeps is the maximum counted, or zero |
| Migration.OthersDoNotCount | cmd/migrate.go:332-348 | directories, other files and other days make no difference |
| Migration.AtoiByValue | cmd/migrate.go:347-350 | a sequence text is six digits, or a sign and five |
| Migration.NextComesAfterCounted | cmd/migrate.go:323-356 | the next version is greater in byte order than every counted one, signed ones included |
| Migration.NextComesLastIff | cmd/migrate.go:323-356 | the next version comes after every counted one exactly while the highest number is below 999999 |
| Migration.RepeatedCreationCountsUp | cmd/migrate.go:323-356 | creating migrations counts up one by one, up to 999999 |
| Migration.LaterCreationsComeLater | cmd/migrate.go:323-356 | a day's versions strictly increase in byte order |
| Migration.PastTheLastSequenceItRepeats | cmd/migrate.go:341-355 | at 999999 the next version repeats for ever |
| MasterKey.DistinctBytes | common/masterkey.go:76-86 | counts the set of byte values |
| MasterKey.DistinctIgnoresOrder | common/masterkey.go:75-86 | rearranging the bytes does not change the count |
| MasterKey.AllPrintableASCII | common/masterkey.go:66-73 | whether every byte is printable |
| MasterKey.ValidateMasterKey | common/masterkey.go:37-63 | accepts exactly the 32-byte keys with a non-printable byte and 16 distinct values |
| MasterKey.DefaultIsPrintable | common/masterkey.go:8-13 | the compromised default would be refused without its own comparison |
| MasterKey.ParseOfEncoded | common/encrypt.go:126-139 | an encoded key parses back exactly when it is 32 bytes long |
| MasterKey.ParseIff | common/encrypt.go:126-139 | what parses, and why anything else does not |
| MasterKey.DefaultByValue | common/masterkey.go:8-13 | the compromised default, byte by byte |
| Pagination.PagingFromQuery | api/params.go:58-69 | page 0 unless a valid one is given; page size 60 unless a positive one is given, and at most 200 |
| Pagination.ListUsers | api/users.go:166-179 | the right page exactly when the offset fits or wraps past the end, and a panic exactly when it wraps to a negative one |
| Pagination.PagesCoverTheList | api/users.go:166-179 | the pages concatenate to the list, once each and in order |
| Pagination.HugePagesFail | api/users.go:168-179 | a page whose offset wraps to a negative one, and one whose offset wraps to the first page |

## Left out

- Cryptography: AES-GCM, Argon2id and JSON are parameters with stated laws. The cipher is ideal: a ciphertext opens under
  one key only, which real AES-GCM gives only up to negligible probability. Two passphrases deriving one key are not ruled
  out; the theorems say what happens in both cases.
- `rename()` failing with EIO, for which POSIX does not promise that the target is unaffected; every other failure is.
- Durability of directory entries: instead of a model of directory syncing, the crash theorem holds whichever earlier
  moment of the run the directory falls back to.
- `MkdirAll` and parent directories: one step that may fail. The parent path is resolved before the run starts.
- `url.Parse`, `unicode.IsPrint`, `mux.Router.Walk`, `MapRouteToDataAction` and the public paths: parameters. Non-ASCII
  host names are lower-cased by ASCII rules only.
- SessionStore.RunRefines: what is left of a torn pointer has to read as an entry in scope. Isolation
  between servers (`TokenSource`) has no such condition.
- Servers not given as a URL with a host: the CLI cannot contact them, so no command for them is part of a run. Runs
  start from a cache of local sessions, none of them under a legacy name that begins with `srv_`.
- The local login path of `resolveAuthentication`, which does not check which server the current session belongs to;
  isolation is about remote targets. Concurrent refreshes sharing one request are one refresh here.
- Cookie lifetimes: a cookie may vanish at any moment instead of after five minutes. Requests that overlap in one browser
  are outside the cookie invariant.
- The text of errors, the HTTP status an error of a service maps to, and the sorted order of the route check's problems.
- That a failed pointer write leaves a prefix of the pointer is assumed only by `SessionStore.TornSaveAnswersIff`;
  everywhere else it may leave anything.
- Mutexes: calls on the code store and the cache happen one at a time.
- ModelClone.Cache.Set: the size limit is not modelled; an eviction is a removal of any entry at any time.
- `Certificate.Clone` has the same shape as `Secret.Clone`.
- The allow-list's contents, service accounts' own storage, the audit chain and every other internal engine.
