/**
 * The entities the command centre stores and broadcasts: command definitions, the mutation
 * a client sends to create or edit one, execution records with their status, and the six
 * server events with their wire form.
 */
module Domain {
  import opened Wrappers

  /** A `DateTime<Utc>` reading, as nanoseconds since the Unix epoch. */
  type Timestamp = int

  datatype CommandDefinition = CommandDefinition(
    id: string,
    name: string,
    executable: string,
    args: seq<string>,
    description: Option<string>,
    tags: seq<string>,
    allowArguments: bool,
    createdAt: Timestamp,
    updatedAt: Timestamp)

  /**
   * `CommandDefinition::new`: a bare command that accepts runtime arguments. The random
   * UUID and the clock reading are passed in as `id` and `now`.
   */
  function NewCommandDefinition(id: string, name: string, executable: string, now: Timestamp): (c: CommandDefinition)
    ensures c.id == id && c.name == name && c.executable == executable
    ensures c.args == [] && c.tags == [] && c.description == None
    ensures c.allowArguments
    ensures c.createdAt == c.updatedAt == now
  {
    CommandDefinition(id, name, executable, [], None, [], true, now, now)
  }

  /** What a client sends to create (no `id`) or update (an `id`) a command. */
  datatype CommandMutation = CommandMutation(
    id: Option<string>,
    name: string,
    executable: string,
    args: seq<string>,
    description: Option<string>,
    tags: seq<string>,
    allowArguments: bool)

  /** The serde default for an omitted `allowArguments`. */
  function DefaultAllowArguments(): (allow: bool)
    ensures allow
  {
    true
  }

  /** A `CommandMutation` as decoded from JSON, before serde fills in the fields it defaults. */
  datatype MutationFields = MutationFields(
    id: Option<string>,
    name: string,
    executable: string,
    args: Option<seq<string>>,
    description: Option<string>,
    tags: Option<seq<string>>,
    allowArguments: Option<bool>)

  /** Missing lists become empty and a missing `allowArguments` becomes true; the rest is kept. */
  function MutationFromFields(f: MutationFields): (m: CommandMutation)
    ensures m.allowArguments <==> f.allowArguments != Some(false)
    ensures m.args == (if f.args.Some? then f.args.value else [])
    ensures m.tags == (if f.tags.Some? then f.tags.value else [])
    ensures m.id == f.id && m.name == f.name && m.executable == f.executable
    ensures m.description == f.description
  {
    CommandMutation(f.id, f.name, f.executable, f.args.GetOr([]), f.description,
                    f.tags.GetOr([]), f.allowArguments.GetOr(DefaultAllowArguments()))
  }

  datatype ExecutionStatus = Pending | Running | Success | Error

  /**
   * `ExecutionStatus::as_str`, also the lower-case serde name of each variant: a non-empty
   * name that decodes back to the same status.
   */
  function StatusAsStr(s: ExecutionStatus): (name: string)
    ensures name != []
    ensures StatusFromStr(name) == Some(s)
  {
    match s
    case Pending => "pending"
    case Running => "running"
    case Success => "success"
    case Error => "error"
  }

  /** Deserialisation of a status name; anything else is rejected. */
  function StatusFromStr(t: string): Option<ExecutionStatus> {
    if t == "pending" then Some(Pending)
    else if t == "running" then Some(Running)
    else if t == "success" then Some(Success)
    else if t == "error" then Some(Error)
    else None
  }

  lemma StatusRoundTrip(s: ExecutionStatus)
    ensures StatusFromStr(StatusAsStr(s)) == Some(s)
  {
  }

  /** Parsing accepts exactly the four names `StatusAsStr` produces. */
  lemma StatusFromStrExact(t: string, s: ExecutionStatus)
    ensures StatusFromStr(t) == Some(s) <==> t == StatusAsStr(s)
  {
  }

  /** The four status names are pairwise distinct. */
  lemma StatusNamesDistinct(a: ExecutionStatus, b: ExecutionStatus)
    ensures StatusAsStr(a) == StatusAsStr(b) <==> a == b
  {
  }

  predicate IsTerminal(s: ExecutionStatus) {
    s == Success || s == Error
  }

  /** The forward-only lifecycle of an execution: pending, then running, then success or error. */
  predicate CanAdvance(from: ExecutionStatus, to: ExecutionStatus) {
    (from == Pending && to == Running) || (from == Running && IsTerminal(to))
  }

  datatype ExecutionLog = ExecutionLog(
    id: string,
    commandId: string,
    commandName: string,
    requestedBy: string,
    status: ExecutionStatus,
    output: string,
    error: Option<string>,
    parameters: seq<string>,
    startedAt: Timestamp,
    finishedAt: Option<Timestamp>)

  /**
   * `ExecutionLog::new`: a pending record for `command` with nothing produced yet. The
   * random UUID and the clock reading are passed in as `id` and `now`.
   */
  function NewExecutionLog(id: string, command: CommandDefinition, requestedBy: string,
                           parameters: seq<string>, now: Timestamp): (log: ExecutionLog)
    ensures log.status == Pending && !IsTerminal(log.status)
    ensures log.output == [] && log.error == None && log.finishedAt == None
    ensures log.commandId == command.id && log.commandName == command.name
    ensures log.id == id && log.requestedBy == requestedBy && log.parameters == parameters
    ensures log.startedAt == now
  {
    ExecutionLog(id, command.id, command.name, requestedBy, Pending, "", None, parameters, now, None)
  }

  datatype ServerEvent =
    | CommandCreated(command: CommandDefinition)
    | CommandUpdated(command: CommandDefinition)
    | CommandDeleted(id: string)
    | ExecutionStarted(log: ExecutionLog)
    | ExecutionUpdated(log: ExecutionLog)
    | ExecutionFinished(log: ExecutionLog)

  /**
   * The `type` tag each event carries on the wire: the entity it is about, then what
   * happened to it.
   */
  function EventTypeName(e: ServerEvent): (tag: string)
    ensures "command_" <= tag <==> e.CommandCreated? || e.CommandUpdated? || e.CommandDeleted?
    ensures "execution_" <= tag <==> e.ExecutionStarted? || e.ExecutionUpdated? || e.ExecutionFinished?
  {
    var tag :=
      match e
      case CommandCreated(_) => "command_created"
      case CommandUpdated(_) => "command_updated"
      case CommandDeleted(_) => "command_deleted"
      case ExecutionStarted(_) => "execution_started"
      case ExecutionUpdated(_) => "execution_updated"
      case ExecutionFinished(_) => "execution_finished";
    assert tag[0] == if e.CommandCreated? || e.CommandUpdated? || e.CommandDeleted? then 'c' else 'e';
    tag
  }

  /** Distinct variants carry distinct type names. */
  lemma EventTypeNameDeterminesVariant(a: ServerEvent, b: ServerEvent)
    requires EventTypeName(a) == EventTypeName(b)
    ensures a.CommandCreated? == b.CommandCreated? && a.CommandUpdated? == b.CommandUpdated?
    ensures a.CommandDeleted? == b.CommandDeleted? && a.ExecutionStarted? == b.ExecutionStarted?
    ensures a.ExecutionUpdated? == b.ExecutionUpdated? && a.ExecutionFinished? == b.ExecutionFinished?
  {
  }

  /** The `payload` of an event: a whole command, a bare id, or a whole execution record. */
  datatype Payload =
    | CommandPayload(command: CommandDefinition)
    | IdPayload(id: string)
    | LogPayload(log: ExecutionLog)

  /** The adjacently tagged wire form `{"type": kind, "payload": payload}`. */
  datatype Envelope = Envelope(kind: string, payload: Payload)

  function ToEnvelope(e: ServerEvent): (env: Envelope)
    ensures env.kind == EventTypeName(e)
    ensures env.payload.IdPayload? <==> e.CommandDeleted?
    ensures env.payload.CommandPayload? <==> (e.CommandCreated? || e.CommandUpdated?)
  {
    match e
    case CommandCreated(c) => Envelope(EventTypeName(e), CommandPayload(c))
    case CommandUpdated(c) => Envelope(EventTypeName(e), CommandPayload(c))
    case CommandDeleted(id) => Envelope(EventTypeName(e), IdPayload(id))
    case ExecutionStarted(l) => Envelope(EventTypeName(e), LogPayload(l))
    case ExecutionUpdated(l) => Envelope(EventTypeName(e), LogPayload(l))
    case ExecutionFinished(l) => Envelope(EventTypeName(e), LogPayload(l))
  }

  /** Decoding an envelope: an unknown tag, or a payload of the wrong shape, is rejected. */
  function FromEnvelope(env: Envelope): Option<ServerEvent> {
    match env.payload
    case CommandPayload(c) =>
      if env.kind == "command_created" then Some(CommandCreated(c))
      else if env.kind == "command_updated" then Some(CommandUpdated(c))
      else None
    case IdPayload(id) =>
      if env.kind == "command_deleted" then Some(CommandDeleted(id)) else None
    case LogPayload(l) =>
      if env.kind == "execution_started" then Some(ExecutionStarted(l))
      else if env.kind == "execution_updated" then Some(ExecutionUpdated(l))
      else if env.kind == "execution_finished" then Some(ExecutionFinished(l))
      else None
  }

  lemma EnvelopeRoundTrip(e: ServerEvent)
    ensures FromEnvelope(ToEnvelope(e)) == Some(e)
  {
  }

  /** Every envelope that decodes is the encoding of what it decodes to. */
  lemma EnvelopeDecodeExact(env: Envelope, e: ServerEvent)
    requires FromEnvelope(env) == Some(e)
    ensures ToEnvelope(e) == env
  {
  }
}
