/**
 * The command centre's in-memory state engine: the command catalogue, the bounded execution
 * history, the credential store and the session table, with the events each change
 * broadcasts. Every operation is one atomic step; the clock, random ids and password salts
 * are parameters.
 */
module State {
  import opened Wrappers
  import opened Text
  import opened Domain

  /** The most execution records kept. */
  const HISTORY_LIMIT: nat := 200
  /** How many records `list_history` returns when the caller gives no limit. */
  const DEFAULT_LIST_LIMIT: nat := 50
  const SESSION_TTL_HOURS: nat := 24
  const NANOS_PER_HOUR: nat := 3_600_000_000_000
  /** A session's lifetime, in the nanoseconds `Timestamp` counts. */
  const SESSION_TTL: nat := SESSION_TTL_HOURS * NANOS_PER_HOUR
  const DEFAULT_ADMIN_USER: string := "admin"
  const DEFAULT_ADMIN_PASSWORD: string := "admin123"

  /** The failures the engine reports; `Message` gives the text each carries. */
  datatype Failure =
    | CommandNameRequired
    | ExecutablePathRequired
    | CommandNotFound
    | ParametersNotAllowed(commandName: string)
    | InvalidCredentials
    | UsernameRequired
    | PasswordRequired
  {
    function Message(): (r: string)
      ensures r != []
      ensures this.ParametersNotAllowed? ==> "Command '" + commandName + "'" <= r
    {
      match this
      case CommandNameRequired => "Command name is required"
      case ExecutablePathRequired => "Executable path is required"
      case CommandNotFound => "Command not found"
      case ParametersNotAllowed(name) => "Command '" + name + "' does not allow runtime parameters"
      case InvalidCredentials => "Invalid username or password"
      case UsernameRequired => "Username is required"
      case PasswordRequired => "Password is required"
    }
  }

  datatype Session = Session(token: string, username: string, createdAt: Timestamp, expiresAt: Timestamp)

  /**
   * `Session::is_expired`: the expiry lies strictly before `now`. An expired session is one
   * that cleanup would drop; one that is not expired still reaches `now`.
   */
  function IsExpired(s: Session, now: Timestamp): (expired: bool)
    ensures expired ==> s.expiresAt <= now
    ensures !expired ==> s.expiresAt >= now
  {
    s.expiresAt < now
  }

  /** Once expired, a session stays expired. */
  lemma ExpiryIsPermanent(s: Session, earlier: Timestamp, later: Timestamp)
    requires earlier <= later && IsExpired(s, earlier)
    ensures IsExpired(s, later)
  {
  }

  /**
   * A salted password hash, idealised: the salt stands for the random salt, and `secret` for
   * what the digest commits to, so that verification accepts exactly the hashed password.
   */
  datatype PasswordHash = PasswordHash(salt: string, secret: string)

  function HashPassword(password: string, salt: string): PasswordHash {
    PasswordHash(salt, password)
  }

  predicate VerifyPassword(password: string, hash: PasswordHash) {
    hash.secret == password
  }

  /** A hash verifies its own password and no other, whatever the salt. */
  lemma HashVerifiesOnlyItsPassword(password: string, attempt: string, salt: string)
    ensures VerifyPassword(attempt, HashPassword(password, salt)) <==> attempt == password
  {
  }

  datatype StoredCredential = StoredCredential(username: string, passwordHash: PasswordHash)

  // ---------------------------------------------------------------------------------------
  // Execution history

  /** `iter().position(|item| item.id == id)`: the first record carrying `id`, if any. */
  function PositionOfId(h: seq<ExecutionLog>, id: string): (r: Option<nat>)
    ensures r.Some? ==> r.value < |h| && h[r.value].id == id
    ensures r.Some? ==> forall j :: 0 <= j < r.value ==> h[j].id != id
    ensures r.None? ==> forall j :: 0 <= j < |h| ==> h[j].id != id
  {
    if h == [] then None
    else if h[0].id == id then Some(0)
    else
      match PositionOfId(h[1..], id)
      case Some(p) => Some(p + 1)
      case None => None
  }

  /** `push_history`: the record goes first and whatever falls beyond the limit is dropped. */
  function HistoryAfterPush(h: seq<ExecutionLog>, record: ExecutionLog): (r: seq<ExecutionLog>)
    ensures |r| == if |h| < HISTORY_LIMIT then |h| + 1 else HISTORY_LIMIT
    ensures r[0] == record
    ensures r[1..] == h[..|r| - 1]
  {
    var pushed := [record] + h;
    if |pushed| > HISTORY_LIMIT then pushed[..HISTORY_LIMIT] else pushed
  }

  /**
   * `update_history`: overwrite the first record with the same id, or push when there is none.
   * The record is then present, nothing else is new, and a bounded history stays bounded
   * without shrinking.
   */
  function HistoryAfterUpdate(h: seq<ExecutionLog>, record: ExecutionLog): (r: seq<ExecutionLog>)
    ensures record in r
    ensures forall x :: x in r ==> x == record || x in h
    ensures |h| <= HISTORY_LIMIT ==> |h| <= |r| <= HISTORY_LIMIT
  {
    match PositionOfId(h, record.id)
    case Some(p) =>
      assert h[p := record][p] == record;
      h[p := record]
    case None =>
      var r := HistoryAfterPush(h, record);
      assert forall j :: 1 <= j < |r| ==> r[j] == r[1..][j - 1];
      r
  }

  /** An update of a known id replaces that one position; length and every other entry stay. */
  lemma UpdateReplacesInPlace(h: seq<ExecutionLog>, record: ExecutionLog, p: nat)
    requires p < |h| && h[p].id == record.id
    requires forall j :: 0 <= j < p ==> h[j].id != record.id
    ensures |HistoryAfterUpdate(h, record)| == |h|
    ensures HistoryAfterUpdate(h, record)[p] == record
    ensures forall j :: 0 <= j < |h| && j != p ==> HistoryAfterUpdate(h, record)[j] == h[j]
  {
  }

  /** An update of an unknown id is a push. */
  lemma UpdateOfUnknownIdPushes(h: seq<ExecutionLog>, record: ExecutionLog)
    requires forall j :: 0 <= j < |h| ==> h[j].id != record.id
    ensures HistoryAfterUpdate(h, record) == HistoryAfterPush(h, record)
  {
  }

  /** Neither history operation takes the history beyond its limit. */
  lemma UpdateKeepsBound(h: seq<ExecutionLog>, record: ExecutionLog)
    requires |h| <= HISTORY_LIMIT
    ensures |HistoryAfterUpdate(h, record)| <= HISTORY_LIMIT
    ensures |HistoryAfterPush(h, record)| <= HISTORY_LIMIT
  {
  }

  /** Updating with the same record a second time changes nothing more. */
  lemma UpdateIdempotent(h: seq<ExecutionLog>, record: ExecutionLog)
    ensures HistoryAfterUpdate(HistoryAfterUpdate(h, record), record) == HistoryAfterUpdate(h, record)
  {
    var once := HistoryAfterUpdate(h, record);
    match PositionOfId(h, record.id)
    case Some(p) =>
      var q := PositionOfId(once, record.id);
      assert once[p] == record;
      assert q.Some? && q.value == p by {
        assert forall j :: 0 <= j < p ==> once[j] == h[j];
      }
      assert once[p := record] == once;
    case None =>
      assert once[0] == record;
      assert PositionOfId(once, record.id) == Some(0);
      assert once[0 := record] == once;
  }

  /**
   * One execution's record, pushed when it starts and updated when it runs and when it ends,
   * with nothing else pushed in between: the history ends up as if only the final record
   * had been pushed.
   */
  lemma ExecutionRecordReplacedInPlace(h: seq<ExecutionLog>, pending: ExecutionLog,
                                           running: ExecutionLog, done: ExecutionLog)
    requires running.id == pending.id && done.id == pending.id
    ensures HistoryAfterUpdate(HistoryAfterUpdate(HistoryAfterPush(h, pending), running), done)
            == HistoryAfterPush(h, done)
  {
  }

  // ---------------------------------------------------------------------------------------
  // Sessions

  /** `cleanup_sessions`: exactly the sessions whose expiry is still after `now` remain. */
  function LiveSessions(sessions: map<string, Session>, now: Timestamp): (live: map<string, Session>)
    ensures live.Keys <= sessions.Keys
    ensures forall t :: t in live ==> live[t] == sessions[t] && live[t].expiresAt > now
    ensures forall t :: t in sessions && sessions[t].expiresAt > now ==> t in live
  {
    map t | t in sessions && sessions[t].expiresAt > now :: sessions[t]
  }

  /**
   * The boundary case: a session expiring exactly at `now` does not count as expired, yet
   * cleaning up at `now` removes it.
   */
  lemma ExpiringNowIsRemoved(sessions: map<string, Session>, token: string, now: Timestamp)
    requires token in sessions && sessions[token].expiresAt == now
    ensures !IsExpired(sessions[token], now)
    ensures token !in LiveSessions(sessions, now)
  {
  }

  /** Cleaning up at `earlier` and then at `later` is the same as cleaning up at `later`. */
  lemma CleanupComposes(sessions: map<string, Session>, earlier: Timestamp, later: Timestamp)
    requires earlier <= later
    ensures LiveSessions(LiveSessions(sessions, earlier), later) == LiveSessions(sessions, later)
  {
  }

  // ---------------------------------------------------------------------------------------
  // Listing the catalogue

  /** The sort key of `list_commands`: the lower-cased name. */
  function NameKey(c: CommandDefinition): string {
    ToLowerAscii(c.name)
  }

  ghost predicate SortedByName(cs: seq<CommandDefinition>) {
    forall i, j :: 0 <= i < j < |cs| ==> LexLeq(NameKey(cs[i]), NameKey(cs[j]))
  }

  /** Where `c` goes in a sorted list: before the first entry whose key is not below its own. */
  function InsertionPoint(c: CommandDefinition, cs: seq<CommandDefinition>): (p: nat)
    ensures p <= |cs|
    ensures forall i :: 0 <= i < p ==> !LexLeq(NameKey(c), NameKey(cs[i]))
    ensures p < |cs| ==> LexLeq(NameKey(c), NameKey(cs[p]))
  {
    if cs == [] || LexLeq(NameKey(c), NameKey(cs[0])) then 0
    else 1 + InsertionPoint(c, cs[1..])
  }

  lemma InsertionKeepsSorted(cs: seq<CommandDefinition>, c: CommandDefinition)
    requires SortedByName(cs)
    ensures SortedByName(cs[..InsertionPoint(c, cs)] + [c] + cs[InsertionPoint(c, cs)..])
  {
    var p := InsertionPoint(c, cs);
    var r := cs[..p] + [c] + cs[p..];
    assert |r| == |cs| + 1 && r[p] == c;
    assert forall i :: 0 <= i < p ==> r[i] == cs[i];
    assert forall i :: p < i < |r| ==> r[i] == cs[i - 1];
    forall i, j | 0 <= i < j < |r| ensures LexLeq(NameKey(r[i]), NameKey(r[j])) {
      if j < p || i > p {
      } else if j == p {
        LexLeqTotal(NameKey(c), NameKey(cs[i]));
      } else if i < p {
      } else {
        if j - 1 > p {
          LexLeqTransitive(NameKey(c), NameKey(cs[p]), NameKey(cs[j - 1]));
        }
      }
    }
  }

  /** Inserting `c` at `p` adds exactly `c`, and keeps ids distinct when `c`'s id is new. */
  lemma InsertionAddsOne(cs: seq<CommandDefinition>, c: CommandDefinition, p: nat)
    requires p <= |cs|
    ensures var r := cs[..p] + [c] + cs[p..];
      && |r| == |cs| + 1
      && (forall x :: x in r <==> x == c || x in cs)
      && ((forall i, j :: 0 <= i < j < |cs| ==> cs[i].id != cs[j].id) &&
          (forall i :: 0 <= i < |cs| ==> cs[i].id != c.id)
          ==> forall i, j :: 0 <= i < j < |r| ==> r[i].id != r[j].id)
  {
  }

  // ---------------------------------------------------------------------------------------
  // Executions

  /** How the spawned process ended: its exit status and captured text, or why it could not run. */
  datatype ProcessOutcome =
    | Exited(success: bool, code: Option<int>, stdout: string, stderr: string)
    | SpawnFailed(message: string)

  const EXIT_PREFIX: string := "Process exited with status "

  /**
   * The error text for a failed exit: the exit code in decimal after a fixed prefix, then,
   * when stderr is not empty, a colon and the captured stderr, trimmed.
   */
  function ExitMessage(code: int, stderr: string): (r: string)
    ensures EXIT_PREFIX + IntToString(code) <= r
    ensures stderr == [] <==> |r| == |EXIT_PREFIX + IntToString(code)|
    ensures stderr != [] ==> r[|EXIT_PREFIX + IntToString(code)|..] == ": " + Trim(stderr)
  {
    if stderr == [] then EXIT_PREFIX + IntToString(code)
    else EXIT_PREFIX + IntToString(code) + ": " + Trim(stderr)
  }

  /**
   * The record `perform_execution` stores once the process is over: success or error, the
   * error text, the output (stdout, or stderr when stdout is empty), and the finishing time.
   */
  function Concluded(log: ExecutionLog, outcome: ProcessOutcome, parameters: seq<string>,
                     requestedBy: string, finishedAt: Timestamp): (done: ExecutionLog)
    ensures IsTerminal(done.status)
    ensures done.status == Success <==> outcome.Exited? && outcome.success
    ensures done.status == Success ==> done.error == log.error
    ensures outcome.Exited? && !outcome.success ==>
      done.error == Some(ExitMessage(outcome.code.GetOr(-1), outcome.stderr))
    ensures outcome.SpawnFailed? ==> done.error == Some(outcome.message) && done.output == log.output
    ensures outcome.Exited? ==> done.output == if outcome.stdout == [] then outcome.stderr else outcome.stdout
    ensures done.finishedAt == Some(finishedAt)
    ensures done.parameters == parameters && done.requestedBy == requestedBy
    ensures done.id == log.id && done.commandId == log.commandId
    ensures done.commandName == log.commandName && done.startedAt == log.startedAt
  {
    var classified :=
      match outcome
      case Exited(success, code, stdout, stderr) =>
        var output := if stdout == [] then stderr else stdout;
        if success then log.(status := Success, output := output)
        else log.(status := Error, error := Some(ExitMessage(code.GetOr(-1), stderr)), output := output)
      case SpawnFailed(message) =>
        log.(status := Error, error := Some(message));
    classified.(finishedAt := Some(finishedAt), requestedBy := requestedBy, parameters := parameters)
  }

  /**
   * The life of one execution record: created pending, marked running, then concluded. Each
   * step moves forward, the last is terminal, an error text is present exactly when the
   * status is error, and a finishing time exactly once the record is terminal.
   */
  lemma ExecutionLifecycle(id: string, command: CommandDefinition, requestedBy: string,
                           parameters: seq<string>, startedAt: Timestamp,
                           outcome: ProcessOutcome, finishedAt: Timestamp)
    ensures var pending := NewExecutionLog(id, command, requestedBy, parameters, startedAt);
            var running := pending.(status := Running);
            var done := Concluded(running, outcome, parameters, requestedBy, finishedAt);
            && CanAdvance(pending.status, running.status)
            && CanAdvance(running.status, done.status)
            && running.error == None && running.finishedAt == None
            && (done.error.Some? <==> done.status == Error)
            && done.finishedAt.Some?
            && done.id == pending.id
  {
  }

  // ---------------------------------------------------------------------------------------
  // Seed data

  function SampleCommand(id: string, name: string, executable: string, args: seq<string>,
                         description: string, now: Timestamp): CommandDefinition {
    NewCommandDefinition(id, name, executable, now).(args := args, description := Some(description), tags := ["sample"])
  }

  function ProcessListSample(id: string, now: Timestamp): CommandDefinition {
    SampleCommand(id, "List running processes", "/bin/ps", ["aux"], "Returns the current process list", now)
  }

  function PingSample(id: string, now: Timestamp): CommandDefinition {
    SampleCommand(id, "Ping remote host", "/sbin/ping", ["-c", "4", "127.0.0.1"],
                  "Runs a connectivity test to the specified host", now)
  }

  /**
   * The two sample commands registered into an empty catalogue, each under its own id. When
   * the two ids coincide the second overwrites the first, as a second map insert does.
   */
  function SampleCommands(firstId: string, secondId: string, now: Timestamp): (m: map<string, CommandDefinition>)
    ensures m.Keys == {firstId, secondId}
    ensures forall id :: id in m ==>
      && m[id].id == id && m[id].tags == ["sample"] && m[id].allowArguments
      && m[id].createdAt == now && m[id].updatedAt == now
    ensures m[secondId].name == "Ping remote host" && m[secondId].executable == "/sbin/ping"
    ensures m[secondId].args == ["-c", "4", "127.0.0.1"]
    ensures m[secondId].description == Some("Runs a connectivity test to the specified host")
    ensures firstId != secondId ==>
      && m[firstId].name == "List running processes" && m[firstId].executable == "/bin/ps"
      && m[firstId].args == ["aux"] && m[firstId].description == Some("Returns the current process list")
  {
    map[firstId := ProcessListSample(firstId, now)][secondId := PingSample(secondId, now)]
  }

  /**
   * The validation `create_or_update_command` does first: a name that trims to nothing is
   * refused, then an executable that does. A string trims to nothing exactly when it is all
   * whitespace (the contract of `Trim`), which is the form used here.
   */
  function MutationError(mutation: CommandMutation): (r: Option<Failure>)
    ensures r.Some? ==> r.value == CommandNameRequired || r.value == ExecutablePathRequired
  {
    if AllWhitespace(mutation.name) then Some(CommandNameRequired)
    else if AllWhitespace(mutation.executable) then Some(ExecutablePathRequired)
    else None
  }

  /** The name is checked before the executable, and each check is "trims to nothing". */
  lemma MutationErrorIsTrimCheck(mutation: CommandMutation)
    ensures MutationError(mutation) == Some(CommandNameRequired) <==> Trim(mutation.name) == []
    ensures MutationError(mutation) == Some(ExecutablePathRequired)
            <==> Trim(mutation.name) != [] && Trim(mutation.executable) == []
    ensures MutationError(mutation).None? <==> Trim(mutation.name) != [] && Trim(mutation.executable) != []
  {
  }

  /**
   * The entry `create_or_update_command` stores under `id`: every field the client controls
   * comes from the mutation, the update time is `now`, and the creation time is kept from the
   * entry it replaces, or is `now` for a new one.
   */
  function SavedCommand(previous: Option<CommandDefinition>, id: string, mutation: CommandMutation,
                        now: Timestamp): (c: CommandDefinition)
    ensures c.id == id && c.updatedAt == now
    ensures c.createdAt == if previous.Some? then previous.value.createdAt else now
    ensures c.name == mutation.name && c.executable == mutation.executable
    ensures c.args == mutation.args && c.description == mutation.description
    ensures c.tags == mutation.tags && c.allowArguments == mutation.allowArguments
  {
    var entry := if previous.None? then NewCommandDefinition(id, mutation.name, mutation.executable, now)
                 else previous.value;
    var edited := entry.(name := mutation.name, executable := mutation.executable, args := mutation.args,
                         description := mutation.description, tags := mutation.tags,
                         allowArguments := mutation.allowArguments);
    edited.(id := id, createdAt := if previous.None? then now else edited.createdAt, updatedAt := now)
  }

  /**
   * The validation `set_password` does first: a user name that trims to nothing, then a
   * password that does, is refused.
   */
  function CredentialError(username: string, password: string): (r: Option<Failure>)
    ensures r.Some? ==> r.value == UsernameRequired || r.value == PasswordRequired
  {
    if AllWhitespace(username) then Some(UsernameRequired)
    else if AllWhitespace(password) then Some(PasswordRequired)
    else None
  }

  /** The user name is checked before the password, and each check is "trims to nothing". */
  lemma CredentialErrorIsTrimCheck(username: string, password: string)
    ensures CredentialError(username, password) == Some(UsernameRequired) <==> Trim(username) == []
    ensures CredentialError(username, password) == Some(PasswordRequired)
            <==> Trim(username) != [] && Trim(password) == []
    ensures CredentialError(username, password).None? <==> Trim(username) != [] && Trim(password) != []
  {
  }

  function AdminCredential(salt: string): StoredCredential {
    StoredCredential(DEFAULT_ADMIN_USER, HashPassword(DEFAULT_ADMIN_PASSWORD, salt))
  }

  // ---------------------------------------------------------------------------------------
  // The engine

  class CommandCenter {
    var commands: map<string, CommandDefinition>
    /** Most recent first. */
    var history: seq<ExecutionLog>
    var credentials: map<string, StoredCredential>
    var sessions: map<string, Session>
    /** Every event broadcast so far, oldest first. */
    var events: seq<ServerEvent>

    /** Every entry is filed under its own id, name or token, and the history is bounded. */
    ghost predicate Valid()
      reads this
    {
      && (forall id :: id in commands ==> commands[id].id == id)
      && |history| <= HISTORY_LIMIT
      && (forall u :: u in credentials ==> credentials[u].username == u)
      && (forall t :: t in sessions ==> sessions[t].token == t)
    }

    /** `CommandCenter::new`: empty tables, then `seed_defaults`. */
    constructor (adminSalt: string, firstSampleId: string, secondSampleId: string, now: Timestamp)
      ensures Valid()
      ensures credentials == map[DEFAULT_ADMIN_USER := AdminCredential(adminSalt)]
      ensures commands == SampleCommands(firstSampleId, secondSampleId, now)
      ensures history == [] && sessions == map[] && events == []
    {
      commands := map[];
      history := [];
      credentials := map[];
      sessions := map[];
      events := [];
      new;
      SeedDefaults(adminSalt, firstSampleId, secondSampleId, now);
    }

    /** `seed_defaults`: the admin account if missing, and the sample commands if there are none. */
    method SeedDefaults(adminSalt: string, firstSampleId: string, secondSampleId: string, now: Timestamp)
      requires Valid()
      modifies this
      ensures Valid()
      ensures credentials == if DEFAULT_ADMIN_USER in old(credentials) then old(credentials)
                             else old(credentials)[DEFAULT_ADMIN_USER := AdminCredential(adminSalt)]
      ensures commands == if old(commands) == map[] then SampleCommands(firstSampleId, secondSampleId, now)
                          else old(commands)
      ensures history == old(history) && sessions == old(sessions) && events == old(events)
    {
      if DEFAULT_ADMIN_USER !in credentials {
        credentials := credentials[DEFAULT_ADMIN_USER := AdminCredential(adminSalt)];
      }
      if commands == map[] {
        var processes := ProcessListSample(firstSampleId, now);
        commands := commands[processes.id := processes];
        var ping := PingSample(secondSampleId, now);
        commands := commands[ping.id := ping];
      }
    }

    /**
     * `list_commands`: every command once, ordered by lower-cased name. The map is visited in
     * no particular order, as a hash map is, and each entry is inserted in sorted position.
     */
    method ListCommands() returns (list: seq<CommandDefinition>)
      requires Valid()
      ensures SortedByName(list)
      ensures |list| == |commands|
      ensures forall i :: 0 <= i < |list| ==> list[i].id in commands && commands[list[i].id] == list[i]
      ensures forall id :: id in commands ==> commands[id] in list
      ensures forall i, j :: 0 <= i < j < |list| ==> list[i].id != list[j].id
    {
      list := [];
      var remaining := commands.Keys;
      while remaining != {}
        invariant remaining <= commands.Keys
        invariant |list| + |remaining| == |commands|
        invariant SortedByName(list)
        invariant forall x :: x in list ==> x.id in commands && x.id !in remaining && commands[x.id] == x
        invariant forall id :: id in commands && id !in remaining ==> commands[id] in list
        invariant forall i, j :: 0 <= i < j < |list| ==> list[i].id != list[j].id
        decreases remaining
      {
        var id :| id in remaining;
        var c := commands[id];
        assert forall i :: 0 <= i < |list| ==> list[i] in list;
        var p := InsertionPoint(c, list);
        InsertionKeepsSorted(list, c);
        InsertionAddsOne(list, c, p);
        list := list[..p] + [c] + list[p..];
        remaining := remaining - {id};
      }
      assert forall i :: 0 <= i < |list| ==> list[i] in list;
    }

    /** `create_or_update_command`: validate, then insert or overwrite the entry at its id. */
    method CreateOrUpdateCommand(mutation: CommandMutation, freshId: string, now: Timestamp)
      returns (r: Result<CommandDefinition, Failure>)
      requires Valid()
      modifies this
      ensures Valid()
      ensures history == old(history) && credentials == old(credentials) && sessions == old(sessions)
      ensures MutationError(mutation).Some? ==>
        r == Err(MutationError(mutation).value) && commands == old(commands) && events == old(events)
      ensures MutationError(mutation).None? ==>
        var id := mutation.id.GetOr(freshId);
        var previous := if id in old(commands) then Some(old(commands)[id]) else None;
        && r == Ok(SavedCommand(previous, id, mutation, now))
        && commands == old(commands)[id := r.value]
        && events == old(events) + [if previous.Some? then CommandUpdated(r.value) else CommandCreated(r.value)]
    {
      var invalid := MutationError(mutation);
      if invalid.Some? {
        return Err(invalid.value);
      }
      var id := mutation.id.GetOr(freshId);
      var isNew := id !in commands;
      var entry := SavedCommand(if isNew then None else Some(commands[id]), id, mutation, now);
      commands := commands[id := entry];
      var event := if isNew then CommandCreated(entry) else CommandUpdated(entry);
      events := events + [event];
      r := Ok(entry);
    }

    /** `delete_command`: remove the entry, or report that there is none. */
    method DeleteCommand(id: string) returns (r: Result<(), Failure>)
      requires Valid()
      modifies this
      ensures Valid()
      ensures history == old(history) && credentials == old(credentials) && sessions == old(sessions)
      ensures id !in old(commands) ==>
        r == Err(CommandNotFound) && commands == old(commands) && events == old(events)
      ensures id in old(commands) ==>
        r == Ok(()) && commands == old(commands) - {id} && events == old(events) + [CommandDeleted(id)]
    {
      var removed := id in commands;
      commands := commands - {id};
      if removed {
        events := events + [CommandDeleted(id)];
        r := Ok(());
      } else {
        r := Err(CommandNotFound);
      }
    }

    /** `list_history`: the most recent records, as many as `limit` asks (50 when it is absent). */
    function ListHistory(limit: Option<nat>): (list: seq<ExecutionLog>)
      reads this
      ensures |list| == if limit.GetOr(DEFAULT_LIST_LIMIT) < |history| then limit.GetOr(DEFAULT_LIST_LIMIT) else |history|
      ensures forall i :: 0 <= i < |list| ==> list[i] == history[i]
    {
      var n := limit.GetOr(DEFAULT_LIST_LIMIT);
      if n < |history| then history[..n] else history
    }

    /**
     * `execute_command`, up to the hand-off to the background task: look the command up,
     * refuse runtime arguments it does not allow, normalise the parameters, record a
     * pending execution first in the history and announce it.
     */
    method ExecuteCommand(commandId: string, runtimeArgs: Option<seq<string>>, requestedBy: string,
                          logId: string, now: Timestamp)
      returns (r: Result<ExecutionLog, Failure>)
      requires Valid()
      modifies this
      ensures Valid()
      ensures commands == old(commands) && credentials == old(credentials) && sessions == old(sessions)
      ensures commandId !in commands ==>
        r == Err(CommandNotFound) && history == old(history) && events == old(events)
      ensures commandId in commands && runtimeArgs.Some? && !commands[commandId].allowArguments ==>
        r == Err(ParametersNotAllowed(commands[commandId].name))
        && history == old(history) && events == old(events)
      ensures commandId in commands && (runtimeArgs.None? || commands[commandId].allowArguments) ==>
        var command := commands[commandId];
        var source := if runtimeArgs.Some? then runtimeArgs.value else command.args;
        && r == Ok(NewExecutionLog(logId, command, requestedBy, TrimmedNonEmpty(source), now))
        && history == HistoryAfterPush(old(history), r.value)
        && events == old(events) + [ExecutionStarted(r.value)]
    {
      if commandId !in commands {
        return Err(CommandNotFound);
      }
      var command := commands[commandId];
      if runtimeArgs.Some? && !command.allowArguments {
        return Err(ParametersNotAllowed(command.name));
      }
      var parameters := TrimmedNonEmpty(runtimeArgs.GetOr(command.args));
      var log := NewExecutionLog(logId, command, requestedBy, parameters, now);
      PushHistory(log);
      events := events + [ExecutionStarted(log)];
      r := Ok(log);
    }

    /** The first half of `perform_execution`: the record becomes running and is announced. */
    method MarkRunning(log: ExecutionLog) returns (running: ExecutionLog)
      requires Valid()
      modifies this
      ensures Valid()
      ensures running == log.(status := Running)
      ensures history == HistoryAfterUpdate(old(history), running)
      ensures events == old(events) + [ExecutionUpdated(running)]
      ensures commands == old(commands) && credentials == old(credentials) && sessions == old(sessions)
    {
      running := log.(status := Running);
      UpdateHistory(running);
      events := events + [ExecutionUpdated(running)];
    }

    /** The second half of `perform_execution`: the concluded record replaces it and is announced. */
    method RecordOutcome(running: ExecutionLog, outcome: ProcessOutcome, parameters: seq<string>,
                         requestedBy: string, finishedAt: Timestamp) returns (done: ExecutionLog)
      requires Valid()
      modifies this
      ensures Valid()
      ensures done == Concluded(running, outcome, parameters, requestedBy, finishedAt)
      ensures history == HistoryAfterUpdate(old(history), done)
      ensures events == old(events) + [ExecutionFinished(done)]
      ensures commands == old(commands) && credentials == old(credentials) && sessions == old(sessions)
    {
      done := Concluded(running, outcome, parameters, requestedBy, finishedAt);
      UpdateHistory(done);
      events := events + [ExecutionFinished(done)];
    }

    /** `push_history`: insert at the front, then truncate to the limit. */
    method PushHistory(record: ExecutionLog)
      requires Valid()
      modifies this
      ensures Valid()
      ensures history == HistoryAfterPush(old(history), record)
      ensures commands == old(commands) && credentials == old(credentials)
      ensures sessions == old(sessions) && events == old(events)
    {
      history := [record] + history;
      if |history| > HISTORY_LIMIT {
        history := history[..HISTORY_LIMIT];
      }
    }

    /** `update_history`: find the first record with the same id and overwrite it, else push. */
    method UpdateHistory(record: ExecutionLog)
      requires Valid()
      modifies this
      ensures Valid()
      ensures history == HistoryAfterUpdate(old(history), record)
      ensures commands == old(commands) && credentials == old(credentials)
      ensures sessions == old(sessions) && events == old(events)
    {
      var position := 0;
      while position < |history| && history[position].id != record.id
        invariant 0 <= position <= |history|
        invariant forall j :: 0 <= j < position ==> history[j].id != record.id
      {
        position := position + 1;
      }
      if position < |history| {
        UpdateReplacesInPlace(history, record, position);
        history := history[position := record];
      } else {
        UpdateOfUnknownIdPushes(history, record);
        history := [record] + history;
        if |history| > HISTORY_LIMIT {
          history := history[..HISTORY_LIMIT];
        }
      }
    }

    /** `login`: check the password against the stored hash and open a 24-hour session. */
    method Login(username: string, password: string, token: string, now: Timestamp)
      returns (r: Result<Session, Failure>)
      requires Valid()
      modifies this
      ensures Valid()
      ensures commands == old(commands) && history == old(history)
      ensures credentials == old(credentials) && events == old(events)
      ensures r.Err? <==> username !in credentials || !VerifyPassword(password, credentials[username].passwordHash)
      ensures r.Err? ==> r.error == InvalidCredentials && sessions == old(sessions)
      ensures r.Ok? ==>
        && r.value == Session(token, username, now, now + SESSION_TTL)
        && sessions == old(sessions)[token := r.value]
    {
      if username !in credentials {
        return Err(InvalidCredentials);
      }
      var credential := credentials[username];
      if !VerifyPassword(password, credential.passwordHash) {
        return Err(InvalidCredentials);
      }
      var session := Session(token, credential.username, now, now + SESSION_TTL);
      sessions := sessions[session.token := session];
      r := Ok(session);
    }

    /** `validate_token`: clean up, then look the token up among the live sessions. */
    method ValidateToken(token: string, now: Timestamp) returns (s: Option<Session>)
      requires Valid()
      modifies this
      ensures Valid()
      ensures sessions == LiveSessions(old(sessions), now)
      ensures s == if token in sessions then Some(sessions[token]) else None
      ensures s.Some? ==> s.value.token == token && s.value.expiresAt > now && !IsExpired(s.value, now)
      ensures commands == old(commands) && history == old(history)
      ensures credentials == old(credentials) && events == old(events)
    {
      CleanupSessions(now);
      s := if token in sessions then Some(sessions[token]) else None;
    }

    /** `set_password`: store a fresh hash for a non-blank user name and password. */
    method SetPassword(username: string, password: string, salt: string) returns (r: Result<(), Failure>)
      requires Valid()
      modifies this
      ensures Valid()
      ensures commands == old(commands) && history == old(history)
      ensures sessions == old(sessions) && events == old(events)
      ensures CredentialError(username, password).Some? ==>
        r == Err(CredentialError(username, password).value) && credentials == old(credentials)
      ensures CredentialError(username, password).None? ==>
        r == Ok(()) && credentials == old(credentials)[username := StoredCredential(username, HashPassword(password, salt))]
    {
      var invalid := CredentialError(username, password);
      if invalid.Some? {
        return Err(invalid.value);
      }
      var hash := HashPassword(password, salt);
      credentials := credentials[username := StoredCredential(username, hash)];
      r := Ok(());
    }

    /** `active_sessions`: clean up, then every live session once, in no particular order. */
    method ActiveSessions(now: Timestamp) returns (list: seq<Session>)
      requires Valid()
      modifies this
      ensures Valid()
      ensures sessions == LiveSessions(old(sessions), now)
      ensures |list| == |sessions|
      ensures forall i :: 0 <= i < |list| ==> list[i].token in sessions && sessions[list[i].token] == list[i]
      ensures forall t :: t in sessions ==> sessions[t] in list
      ensures forall i, j :: 0 <= i < j < |list| ==> list[i].token != list[j].token
      ensures forall i :: 0 <= i < |list| ==> list[i].expiresAt > now
      ensures commands == old(commands) && history == old(history)
      ensures credentials == old(credentials) && events == old(events)
    {
      CleanupSessions(now);
      list := [];
      var remaining := sessions.Keys;
      while remaining != {}
        invariant remaining <= sessions.Keys
        invariant |list| + |remaining| == |sessions|
        invariant forall i :: 0 <= i < |list| ==>
          list[i].token in sessions && list[i].token !in remaining && sessions[list[i].token] == list[i]
        invariant forall t :: t in sessions && t !in remaining ==> sessions[t] in list
        invariant forall i, j :: 0 <= i < j < |list| ==> list[i].token != list[j].token
        decreases remaining
      {
        var token :| token in remaining;
        list := list + [sessions[token]];
        remaining := remaining - {token};
      }
    }

    /** `cleanup_sessions`: drop every session whose expiry is not after `now`. */
    method CleanupSessions(now: Timestamp)
      requires Valid()
      modifies this
      ensures Valid()
      ensures sessions == LiveSessions(old(sessions), now)
      ensures commands == old(commands) && history == old(history)
      ensures credentials == old(credentials) && events == old(events)
    {
      sessions := LiveSessions(sessions, now);
    }
  }
}
