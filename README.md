# Remote Command Center — verified model of the server core

The Remote Command Center is a desktop application that keeps a catalogue of shell
commands, runs them on request, and keeps an execution history. It offers both a desktop
window and a remote HTTP/WebSocket API guarded by bearer-token sessions. This project models
the server side of that application in Dafny:

- `wrappers.dfy`: `Option` and `Result`.
- `text.dfy`: the parts of Rust's string library the server relies on. These are `trim`
  (with the full Unicode White_Space set), ASCII case folding, the lexicographic order of
  strings, `strip_prefix`, decimal formatting and `parse::<u16>()`. It also has the
  trim-then-drop-empty chain applied to argument and tag lists.
- `domain.dfy`: the entities. Command definitions, the create/update mutation and its serde
  defaults, execution records with their status life cycle, and the six server events with
  their adjacently tagged wire form.
- `state.dfy`: the `CommandCenter` engine, a class whose fields are the command map, the
  history (newest first), the credential map, the session map and the log of broadcast
  events. Each engine operation is a method whose contract gives the new state. That state
  is tied to specification functions: `HistoryAfterPush`, `HistoryAfterUpdate`,
  `LiveSessions`, `Concluded`, `SavedCommand` and `InsertionPoint`. The properties the
  system promises are lemmas about those functions. They cover the bounded history,
  in-place update, session expiry, the sorted listing and the execution life cycle.
- `handlers.dfy`: the desktop command handlers. They normalise a save request's payload,
  and they attribute an execution to `tauri-operator` when the request names nobody.
- `http.dfy`: the remote API. It covers the choice of listening port, bearer-token
  extraction, authorisation, the 401/400 mapping of each route, and the event socket's
  replies.

Nondeterminism is passed in as parameters:

- the clock reading, as `now` (nanoseconds);
- every random UUID, as `freshId`, `logId`, `token` or a sample id;
- the password salt.

The outcome of a spawned process is also passed in, as a `ProcessOutcome`.

Two behaviours of the server are worth stating up front:

- The server keeps at most 200 history records, newest first by insertion. The history
  route returns at most the 100 most recent of them.
- The server refuses any runtime argument list for a command that does not allow arguments.
  This holds even for an empty list, or one equal to the command's defaults.

A session expiring exactly at the current instant is not "expired" by `Session::is_expired`
(`expires_at < now`). It is nevertheless purged by `cleanup_sessions` (`expires_at > now`
is kept); `State.ExpiringNowIsRemoved` states this boundary.

## Model

| member | source | states |
|---|---|---|
| Text.Trim | server-app/src-tauri/src/state.rs:88-93 | the trim has no whitespace at either end, is no longer than the input, and is empty exactly when the input is all whitespace |
| Text.TrimIdempotent | server-app/src-tauri/src/main.rs:69-74 | trimming a trimmed string changes nothing |
| Text.TrimRemovesOnlyEnds | server-app/src-tauri/src/main.rs:75-81 | the trim is a contiguous part of the original string with only whitespace before and after it, so only the two ends are removed |
| Text.EqIgnoreAsciiCaseIsLowerEquality | server-app/src-tauri/src/http.rs:173 | ASCII-case-insensitive equality is equality after ASCII lower-casing |
| Text.LexLeqReflexive | server-app/src-tauri/src/state.rs:79 | the string order used for sorting is reflexive |
| Text.LexLeqTotal | server-app/src-tauri/src/state.rs:79 | any two names are comparable |
| Text.LexLeqTransitive | server-app/src-tauri/src/state.rs:79 | the order is transitive |
| Text.LexLeqAntisymmetric | server-app/src-tauri/src/state.rs:79 | names ordered both ways are equal |
| Text.StripPrefix | server-app/src-tauri/src/http.rs:207 | a remainder exists exactly when the prefix starts the string, and prefix plus remainder rebuild it |
| Text.NatToString | server-app/src-tauri/src/state.rs:237-242 | decimal text is non-empty digits with no leading zero |
| Text.IntToString | server-app/src-tauri/src/state.rs:237-242 | the text of a negative code is a minus sign followed by the decimal digits of its magnitude; any other code is just its decimal digits, whose value is the code; there is never a leading zero |
| Text.DecimalRoundTrip | server-app/src-tauri/src/http.rs:41-44 | reading back the decimal text of a number gives the number |
| Text.ParseU16 | server-app/src-tauri/src/http.rs:43 | a parsed value always fits in 16 bits |
| Text.ParseU16Complete | server-app/src-tauri/src/http.rs:43 | every non-empty digit string whose value is at most 65535 parses to that value, leading zeros included, with or without `+` |
| Text.ParseU16Sound | server-app/src-tauri/src/http.rs:43 | whatever parses is, after at most one leading `+`, a non-empty run of decimal digits whose value is the result |
| Text.ParseU16RoundTrip | server-app/src-tauri/src/http.rs:43 | every 16-bit value parses back from its decimal text, with or without `+` |
| Text.ParseU16Overflow | server-app/src-tauri/src/http.rs:43 | a value beyond 65535 does not parse |
| Text.ParseU16RejectsMinus | server-app/src-tauri/src/http.rs:43 | a leading minus sign never parses |
| Text.TrimmedNonEmpty | server-app/src-tauri/src/state.rs:181-186 | the normalised list is no longer than the input |
| Text.TrimmedNonEmptyConcat | server-app/src-tauri/src/main.rs:69-74 | normalisation works element by element and keeps order (it distributes over concatenation) |
| Text.TrimmedNonEmptyElements | server-app/src-tauri/src/main.rs:83-88 | every normalised entry is non-empty and already trimmed |
| Text.TrimmedNonEmptyMembership | server-app/src-tauri/src/main.rs:69-74 | a string is in the normalised list exactly when it is the non-empty trim of some input entry |
| Text.TrimmedNonEmptyMembershipAll | server-app/src-tauri/src/main.rs:83-88 | the same, for all strings at once |
| Text.TrimmedNonEmptyIdempotent | server-app/src-tauri/src/state.rs:181-186 | normalising a normalised list changes nothing |
| Domain.NewCommandDefinition | server-app/src-tauri/src/domain.rs:19-33 | a new command has the given identity, no args, tags or description, allows arguments, and was created and updated at the same instant |
| Domain.DefaultAllowArguments | server-app/src-tauri/src/domain.rs:51-53 | an omitted `allowArguments` defaults to true |
| Domain.MutationFromFields | server-app/src-tauri/src/domain.rs:36-49 | omitted lists become empty, `allowArguments` is false only when sent as false, everything else passes through |
| Domain.StatusRoundTrip | server-app/src-tauri/src/domain.rs:55-73 | every status decodes from its own name |
| Domain.StatusAsStr | server-app/src-tauri/src/domain.rs:64-73 | each status has a non-empty name that decodes back to that status |
| Domain.StatusFromStrExact | server-app/src-tauri/src/domain.rs:55-73 | decoding accepts exactly the four status names |
| Domain.StatusNamesDistinct | server-app/src-tauri/src/domain.rs:64-73 | two statuses share a name only if they are the same |
| Domain.NewExecutionLog | server-app/src-tauri/src/domain.rs:90-104 | a new record is pending, not terminal, with empty output, no error and no finish time, and snapshots the command's id and name |
| Domain.EventTypeName | server-app/src-tauri/src/domain.rs:107-122 | a tag starts with `command_` exactly for the three command events, and with `execution_` exactly for the three execution events |
| Domain.EventTypeNameDeterminesVariant | server-app/src-tauri/src/domain.rs:107-122 | events with the same type tag are the same variant |
| Domain.ToEnvelope | server-app/src-tauri/src/domain.rs:107-122 | the tag is the variant's name; a deletion carries a bare id and a command event carries a whole command |
| Domain.EnvelopeRoundTrip | server-app/src-tauri/src/domain.rs:107-122 | decoding an encoded event gives the event back |
| Domain.EnvelopeDecodeExact | server-app/src-tauri/src/domain.rs:107-122 | every envelope that decodes is the encoding of its result |
| State.HashVerifiesOnlyItsPassword | server-app/src-tauri/src/state.rs:402-419 | a stored hash verifies its own password and no other, whatever the salt |
| State.Failure.Message | server-app/src-tauri/src/state.rs:173-178 | every failure has a non-empty text; the parameter refusal names the command, quoted, after `Command ` |
| State.IsExpired | server-app/src-tauri/src/state.rs:44-47 | an expired session's expiry is not after now, and a session that is not expired still reaches now |
| State.ExpiryIsPermanent | server-app/src-tauri/src/state.rs:44-47 | a session expired at one instant is expired at every later one |
| State.PositionOfId | server-app/src-tauri/src/state.rs:278 | the position found holds the id and no earlier record does; no position means no record has the id |
| State.HistoryAfterPush | server-app/src-tauri/src/state.rs:268-274 | the record becomes first, the older records follow in order, and the length is capped at 200 |
| State.HistoryAfterUpdate | server-app/src-tauri/src/state.rs:276-286 | after an update the record is present and nothing else is new; a history within 200 records stays within 200 and does not shrink |
| State.UpdateReplacesInPlace | server-app/src-tauri/src/state.rs:276-280 | updating a known id overwrites only that record; length and every other record stay |
| State.UpdateOfUnknownIdPushes | server-app/src-tauri/src/state.rs:281-285 | updating an unknown id is a push |
| State.UpdateKeepsBound | server-app/src-tauri/src/state.rs:268-286 | neither history operation takes the history past 200 |
| State.UpdateIdempotent | server-app/src-tauri/src/state.rs:276-286 | applying the same update twice equals applying it once |
| State.ExecutionRecordReplacedInPlace | server-app/src-tauri/src/state.rs:187-192 | when nothing intervenes, push-then-update-then-update of one execution leaves the history as if only the final record had been pushed, so there is one entry per execution |
| State.LiveSessions | server-app/src-tauri/src/state.rs:395-399 | exactly the sessions expiring after `now` remain, unchanged |
| State.ExpiringNowIsRemoved | server-app/src-tauri/src/state.rs:44-47 | a session expiring exactly now is not expired, yet cleanup at now removes it |
| State.CleanupComposes | server-app/src-tauri/src/state.rs:395-399 | cleaning up earlier and then later equals cleaning up later |
| State.InsertionPoint | server-app/src-tauri/src/state.rs:76-81 | every entry before the point sorts strictly below the new entry, and the entry at the point does not |
| State.InsertionKeepsSorted | server-app/src-tauri/src/state.rs:76-81 | inserting at the insertion point keeps a list sorted by lower-cased name |
| State.InsertionAddsOne | server-app/src-tauri/src/state.rs:76-81 | the insertion adds exactly the new entry and keeps ids distinct when its id is new |
| State.Concluded | server-app/src-tauri/src/state.rs:228-263 | the status is terminal and is success exactly when the process exited successfully. A failed exit carries the exit message (code -1 if none), a spawn failure carries its message, and the output is stdout, or stderr when stdout is empty. The finish time, requester and parameters are set; identity is kept |
| State.ExitMessage | server-app/src-tauri/src/state.rs:237-242 | the message starts with `Process exited with status ` and the code in decimal. It ends there exactly when stderr is empty; otherwise a colon and the trimmed stderr follow |
| State.ExecutionLifecycle | server-app/src-tauri/src/state.rs:208-263 | pending to running to concluded only moves forward; the last status is terminal; an error text is present exactly on error; a finish time is set |
| State.SampleCommands | server-app/src-tauri/src/state.rs:367-392 | the catalogue holds exactly the two sample ids. Each entry is filed under its own id, tagged `sample`, allows arguments, and was created and updated at seeding time. The ping sample runs `/sbin/ping -c 4 127.0.0.1` and the process sample runs `/bin/ps aux`, each with its name and description |
| State.SavedCommand | server-app/src-tauri/src/state.rs:95-124 | the saved entry takes every client field from the mutation, is updated now, and keeps its creation time unless it is new |
| State.MutationError | server-app/src-tauri/src/state.rs:88-93 | the only failures are a missing name and a missing executable |
| State.MutationErrorIsTrimCheck | server-app/src-tauri/src/state.rs:88-93 | a name that trims to nothing is refused first; then an executable that trims to nothing; anything else passes |
| State.CredentialError | server-app/src-tauri/src/state.rs:328-333 | the only failures are a missing user name and a missing password |
| State.CredentialErrorIsTrimCheck | server-app/src-tauri/src/state.rs:328-333 | a user name that trims to nothing is refused first; then a password that trims to nothing; anything else passes |
| State.CommandCenter.constructor | server-app/src-tauri/src/state.rs:57-70 | a new engine holds only the admin account and the two samples, with empty history, sessions and events |
| State.CommandCenter.SeedDefaults | server-app/src-tauri/src/state.rs:352-393 | the admin account is added only if missing and the samples only into an empty catalogue; nothing else changes |
| State.CommandCenter.ListCommands | server-app/src-tauri/src/state.rs:76-81 | every stored command appears exactly once, ordered by lower-cased name |
| State.CommandCenter.CreateOrUpdateCommand | server-app/src-tauri/src/state.rs:83-136 | a blank name, then a blank executable, is refused with nothing changed. Otherwise the saved entry is stored under the given or fresh id, and a created or updated event is broadcast depending on whether the id was known |
| State.CommandCenter.DeleteCommand | server-app/src-tauri/src/state.rs:138-151 | a known id is removed and a deletion event is broadcast; an unknown id reports not found and changes nothing |
| State.CommandCenter.ListHistory | server-app/src-tauri/src/state.rs:153-157 | the most recent records, in order, as many as the limit (default 50) allows |
| State.CommandCenter.ExecuteCommand | server-app/src-tauri/src/state.rs:159-206 | an unknown command, or runtime arguments for a command that forbids them, is refused with nothing changed. Otherwise a pending record with the normalised parameters is pushed first and announced |
| State.CommandCenter.MarkRunning | server-app/src-tauri/src/state.rs:216-219 | the record becomes running, replaces its entry and is announced |
| State.CommandCenter.RecordOutcome | server-app/src-tauri/src/state.rs:221-263 | the concluded record replaces its entry and is announced as finished |
| State.CommandCenter.PushHistory | server-app/src-tauri/src/state.rs:268-274 | the history becomes `HistoryAfterPush` of the old one |
| State.CommandCenter.UpdateHistory | server-app/src-tauri/src/state.rs:276-286 | the history becomes `HistoryAfterUpdate` of the old one |
| State.CommandCenter.Login | server-app/src-tauri/src/state.rs:295-319 | login fails exactly for an unknown user or a wrong password, changing nothing; success opens a 24-hour session under the token |
| State.CommandCenter.ValidateToken | server-app/src-tauri/src/state.rs:321-325 | sessions are cleaned up, and the token's session is returned only if it outlives now |
| State.CommandCenter.SetPassword | server-app/src-tauri/src/state.rs:327-344 | a blank user name, then a blank password, is refused; otherwise that user's credential becomes a hash of the password |
| State.CommandCenter.ActiveSessions | server-app/src-tauri/src/state.rs:346-350 | after cleanup, every live session is listed exactly once and none has expired |
| State.CommandCenter.CleanupSessions | server-app/src-tauri/src/state.rs:395-399 | the session map becomes `LiveSessions` of the old one; nothing else changes |
| Handlers.NormalizedDescription | server-app/src-tauri/src/main.rs:75-82 | a description is dropped exactly when absent or blank; otherwise it becomes the trim of the given text |
| Handlers.ToMutation | server-app/src-tauri/src/main.rs:65-90 | identity, name and executable pass through. Args and tags are the request's lists normalised in order, duplicates kept, and hold exactly the non-empty trims of the request's entries. The description is normalised, and `allowArguments` defaults to true |
| Handlers.ToMutationIdempotent | server-app/src-tauri/src/main.rs:65-90 | resubmitting a normalised mutation yields the same mutation |
| Handlers.RequestedByOrDefault | server-app/src-tauri/src/main.rs:112-114 | the named requester, or `tauri-operator` when none is named |
| Handlers.CreateOrUpdateCommand | server-app/src-tauri/src/main.rs:59-96 | a blank name or executable comes back as its message, with catalogue and events unchanged. Otherwise the normalised mutation is saved under the given or fresh id, and a created or updated event is broadcast. The saved args and tags are the normalised request lists. History, sessions and credentials never change |
| Handlers.ExecuteCommand | server-app/src-tauri/src/main.rs:106-119 | an unknown command, or runtime arguments it forbids, comes back as its message with nothing changed. Otherwise it succeeds: a pending record, attributed to the named requester or `tauri-operator`, with the normalised parameters, is pushed and announced |
| Http.SelectPort | server-app/src-tauri/src/http.rs:40-44 | the port fits in 16 bits, any port other than 6280 is the value the variable parses to, and whenever the value parses, the port is what it parses to |
| Http.SelectPortRoundTrip | server-app/src-tauri/src/http.rs:40-44 | any 16-bit port written in decimal is the port chosen |
| Http.SelectPortAcceptsDigits | server-app/src-tauri/src/http.rs:40-44 | any digit string within 16 bits, leading zeros included, with or without `+`, gives the port of that value |
| Http.SelectPortFallsBack | server-app/src-tauri/src/http.rs:40-44 | an unset variable, an empty value, a lone `+`, an oversized value, a negative value, or any value with a non-digit character (apart from one leading `+`) gives port 6280 |
| Http.HeaderToStr | server-app/src-tauri/src/http.rs:204 | a header reads as text exactly when every byte is visible ASCII or tab, and then character for byte |
| Http.ExtractToken | server-app/src-tauri/src/http.rs:201-212 | every failure is 401, and a missing header fails |
| Http.ExtractTokenRoundTrip | server-app/src-tauri/src/http.rs:207-208 | a header-safe token sent as `Bearer <token>` is extracted unchanged |
| Http.ExtractTokenSound | server-app/src-tauri/src/http.rs:201-212 | an extracted token was sent as `Bearer ` followed by it, byte for byte |
| Http.ExtractTokenCaseSensitive | server-app/src-tauri/src/http.rs:207-211 | a lower-case `bearer` scheme is refused with 401 |
| Http.ExtractTokenRejectsOpaqueHeader | server-app/src-tauri/src/http.rs:202-205 | a header with any byte outside visible ASCII and tab is refused with 401 |
| Http.AuthorizedSession | server-app/src-tauri/src/http.rs:192-199 | an authorised session outlives now and its token came from the header |
| Http.AuthorizedSessionBearer | server-app/src-tauri/src/http.rs:192-199 | a bearer token opens exactly its own session, and only while that session outlives now |
| Http.ReactToIncoming | server-app/src-tauri/src/http.rs:164-180 | close, end of stream and read errors disconnect; a ping gets a pong with the same data; the text `ping` in any ASCII case gets `pong`; nothing else gets a reply |
| Http.PingTextAnswered | server-app/src-tauri/src/http.rs:172-176 | a text is answered exactly when `eq_ignore_ascii_case` matches it with `ping`, so mixed-case `PiNg` is answered and only four-letter texts ever are |
| Http.Authorize | server-app/src-tauri/src/http.rs:192-199 | the result is `AuthorizedSession` of the sessions before the call, as 401 when absent; sessions are cleaned up only when a token was extracted |
| Http.LoginRoute | server-app/src-tauri/src/http.rs:78-92 | login fails with 401, sessions unchanged, exactly when the engine refuses it. Success returns the token and its expiry, and adds exactly that 24-hour session. Catalogue, history, credentials and events never change |
| Http.ListCommandsRoute | server-app/src-tauri/src/http.rs:94-101 | 401 exactly when unauthorised. Otherwise the whole catalogue, each command exactly once, sorted by lower-cased name. Only sessions change, by cleanup when a token was sent |
| Http.ExecuteRoute | server-app/src-tauri/src/http.rs:103-119 | 401 when unauthorised and 400 for an engine refusal, with history and events unchanged. Otherwise it succeeds: a pending record for the session's user, with the normalised parameters, is pushed and announced. Sessions are cleaned up when a token was sent |
| Http.HistoryRoute | server-app/src-tauri/src/http.rs:121-128 | 401 exactly when unauthorised. Otherwise the newest records in order, at most 100. Only sessions change, by cleanup when a token was sent |
| Http.EventsRoute | server-app/src-tauri/src/http.rs:130-142 | the query-string token upgrades exactly when it names a session that outlives now, otherwise 401. The sessions are cleaned up, and nothing else changes |

## Left out

- Concurrency is not modelled. Each engine operation is one atomic step on the model's
  state; the read/write locks and the interleaving of spawned tasks are not represented.
  An execution's `MarkRunning` and `RecordOutcome` steps may be interleaved with any other
  operation.
- Spawning the process, capturing its output and decoding that output leniently as UTF-8
  are outside the model: the result arrives as a `ProcessOutcome` parameter.
- Password hashing is idealised. A hash records its salt and the password, and
  verification succeeds exactly for the hashed password; Argon2 itself is not modelled.
- State.CommandCenter.SeedDefaults: the branch that skips the admin account when hashing
  fails is not modelled, because the idealised hash cannot fail.
- State.CommandCenter.SetPassword: the "Hash failure" error is not modelled, for the
  same reason.
- The clock is not modelled. Each reading is a `now` parameter; `ExecutionLog::new` and
  `execute_command` read it twice, and the model uses one reading for both. Timestamp
  overflow is not modelled.
- Random UUIDs are not modelled either: they are parameters, and their uniqueness is not
  assumed.
- State.CommandCenter.ListCommands: names are compared after ASCII lower-casing. Rust's
  `to_lowercase` also folds non-ASCII letters, so the model's ordering is weaker for
  names outside ASCII.
- Broadcasting is reduced to appending to the `events` log. The desktop window emit, the
  channel's capacity of 256 and lagging receivers are not modelled, and neither is the
  JSON text of an event beyond its tag and payload (`ToEnvelope`).
- The event socket's loop is reduced to its reply to one incoming message
  (`ReactToIncoming`). The 30-second heartbeat, forwarding of broadcast events, and send
  failures are not modelled.
- The health route is not modelled: it returns a constant status and the clock.
- Router wiring, CORS and tracing are not modelled.
- Request decoding is not modelled. axum's `Json`, `Path` and `Query` extractors reject a
  malformed body or a missing `token` query parameter before a route's handler runs, with
  axum's own 4xx status: 400 for a missing `token` or malformed JSON, 415 or 422 for other
  body errors. The routes are modelled from an already decoded request, so the model's 400
  covers only the engine's refusals.
- Text.Trim: its own contract does not say that only the two ends are removed, because
  carrying that quantified fact on every use of `Trim` makes unrelated proofs too costly.
  `Text.TrimRemovesOnlyEnds` proves it for every string.
- The desktop handlers for listing commands and history, deleting a command, setting a
  password and listing sessions are not modelled as separate members: each passes its
  arguments straight to the engine operation of the same name and turns a failure into
  its message (`State.Failure.Message`).
- The system tray, the window toggling, logging set-up and application start-up are not
  modelled.
