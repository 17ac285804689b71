/**
 * The desktop shell's command handlers: how a save request's payload is normalised into a
 * mutation before it reaches the engine, and who an execution is attributed to when the
 * request names nobody. Failures reach the desktop client as their message text.
 */
module Handlers {
  import opened Wrappers
  import opened Text
  import opened Domain
  import opened State

  /** The save request as decoded, before serde fills in the fields it defaults. */
  datatype SaveCommandArgs = SaveCommandArgs(
    id: Option<string>,
    name: string,
    executable: string,
    args: Option<seq<string>>,
    description: Option<string>,
    tags: Option<seq<string>>,
    allowArguments: Option<bool>)

  /** The execute request: which command, optional runtime arguments, optional requester. */
  datatype ExecuteArgs = ExecuteArgs(id: string, args: Option<seq<string>>, requestedBy: Option<string>)

  /** Who an execution is attributed to when the desktop request does not say. */
  const DESKTOP_OPERATOR: string := "tauri-operator"

  /** A description is trimmed, and one that trims to nothing is dropped. */
  function NormalizedDescription(d: Option<string>): (r: Option<string>)
    ensures r.None? <==> d.None? || AllWhitespace(d.value)
    ensures r.Some? ==> r.value == Trim(d.value)
    ensures r.Some? ==> r.value != [] && Trim(r.value) == r.value
  {
    match d
    case None => None
    case Some(value) =>
      var trimmed := Trim(value);
      if trimmed == [] then None
      else
        TrimIdempotent(value);
        Some(trimmed)
  }

  /**
   * The mutation built from a save request: identity, name and executable pass through,
   * argument and tag lists keep exactly their non-blank entries, trimmed, the description is
   * normalised, and `allowArguments` is true unless the request says false.
   */
  function ToMutation(p: SaveCommandArgs): (m: CommandMutation)
    ensures m.id == p.id && m.name == p.name && m.executable == p.executable
    ensures m.args == TrimmedNonEmpty(p.args.GetOr([])) && m.tags == TrimmedNonEmpty(p.tags.GetOr([]))
    ensures forall s :: s in m.args <==> IsNonEmptyTrimOf(p.args.GetOr([]), s)
    ensures forall s :: s in m.tags <==> IsNonEmptyTrimOf(p.tags.GetOr([]), s)
    ensures m.description == NormalizedDescription(p.description)
    ensures m.allowArguments <==> p.allowArguments != Some(false)
  {
    var fields := MutationFromFields(MutationFields(p.id, p.name, p.executable, p.args, p.description,
                                                    p.tags, p.allowArguments));
    TrimmedNonEmptyMembershipAll(fields.args);
    TrimmedNonEmptyMembershipAll(fields.tags);
    fields.(args := TrimmedNonEmpty(fields.args), tags := TrimmedNonEmpty(fields.tags),
            description := NormalizedDescription(fields.description))
  }

  /** The save request a client would send to store `m` again unchanged. */
  function Resubmission(m: CommandMutation): SaveCommandArgs {
    SaveCommandArgs(m.id, m.name, m.executable, Some(m.args), m.description, Some(m.tags), Some(m.allowArguments))
  }

  /** Normalisation is idempotent: sending back a normalised mutation yields the same mutation. */
  lemma ToMutationIdempotent(p: SaveCommandArgs)
    ensures ToMutation(Resubmission(ToMutation(p))) == ToMutation(p)
  {
    var m := ToMutation(p);
    var again := ToMutation(Resubmission(m));
    TrimmedNonEmptyIdempotent(p.args.GetOr([]));
    TrimmedNonEmptyIdempotent(p.tags.GetOr([]));
    if m.description.Some? {
      var d := m.description.value;
      assert Trim(d) == d && d != [];
      assert NormalizedDescription(Some(d)) == Some(d);
    }
    assert again.args == m.args && again.tags == m.tags;
    assert again.description == m.description;
  }

  /** The requester named in the request, or the desktop operator. */
  function RequestedByOrDefault(requestedBy: Option<string>): (who: string)
    ensures requestedBy.Some? ==> who == requestedBy.value
    ensures requestedBy.None? ==> who == DESKTOP_OPERATOR
  {
    requestedBy.GetOr(DESKTOP_OPERATOR)
  }

  /**
   * `create_or_update_command` as the desktop invokes it: normalise the payload, hand the
   * mutation to the engine, and report a failure as its message.
   */
  method CreateOrUpdateCommand(center: CommandCenter, payload: SaveCommandArgs, freshId: string, now: Timestamp)
    returns (r: Result<CommandDefinition, string>)
    requires center.Valid()
    modifies center
    ensures center.Valid()
    ensures center.history == old(center.history) && center.sessions == old(center.sessions)
    ensures center.credentials == old(center.credentials)
    ensures var mutation := ToMutation(payload);
      MutationError(mutation).Some? ==>
        && r == Err(MutationError(mutation).value.Message())
        && center.commands == old(center.commands) && center.events == old(center.events)
    ensures var mutation := ToMutation(payload);
      MutationError(mutation).None? ==>
        var id := payload.id.GetOr(freshId);
        var previous := if id in old(center.commands) then Some(old(center.commands)[id]) else None;
        && r == Ok(SavedCommand(previous, id, mutation, now))
        && center.commands == old(center.commands)[id := r.value]
        && center.events == old(center.events)
                            + [if previous.Some? then CommandUpdated(r.value) else CommandCreated(r.value)]
    ensures r.Ok? ==>
      && r.value.args == TrimmedNonEmpty(payload.args.GetOr([]))
      && r.value.tags == TrimmedNonEmpty(payload.tags.GetOr([]))
      && AllTrimmedNonEmpty(r.value.args) && AllTrimmedNonEmpty(r.value.tags)
      && r.value.description == NormalizedDescription(payload.description)
      && (r.value.allowArguments <==> payload.allowArguments != Some(false))
  {
    var mutation := ToMutation(payload);
    TrimmedNonEmptyElements(payload.args.GetOr([]));
    TrimmedNonEmptyElements(payload.tags.GetOr([]));
    var saved := center.CreateOrUpdateCommand(mutation, freshId, now);
    match saved
    case Ok(c) => r := Ok(c);
    case Err(failure) => r := Err(failure.Message());
  }

  /**
   * `execute_command` as the desktop invokes it: the requester defaults to the desktop
   * operator, and a failure is reported as its message.
   */
  method ExecuteCommand(center: CommandCenter, payload: ExecuteArgs, logId: string, now: Timestamp)
    returns (r: Result<ExecutionLog, string>)
    requires center.Valid()
    modifies center
    ensures center.Valid()
    ensures center.commands == old(center.commands) && center.sessions == old(center.sessions)
    ensures center.credentials == old(center.credentials)
    ensures payload.id !in center.commands ==>
      r == Err(CommandNotFound.Message()) && center.history == old(center.history) && center.events == old(center.events)
    ensures payload.id in center.commands && payload.args.Some? && !center.commands[payload.id].allowArguments ==>
      && r == Err(ParametersNotAllowed(center.commands[payload.id].name).Message())
      && center.history == old(center.history) && center.events == old(center.events)
    ensures payload.id in center.commands && (payload.args.None? || center.commands[payload.id].allowArguments) ==>
      var command := center.commands[payload.id];
      var source := if payload.args.Some? then payload.args.value else command.args;
      && r == Ok(NewExecutionLog(logId, command, RequestedByOrDefault(payload.requestedBy),
                                 TrimmedNonEmpty(source), now))
      && center.history == HistoryAfterPush(old(center.history), r.value)
      && center.events == old(center.events) + [ExecutionStarted(r.value)]
  {
    var requestedBy := RequestedByOrDefault(payload.requestedBy);
    var started := center.ExecuteCommand(payload.id, payload.args, requestedBy, logId, now);
    match started
    case Ok(log) => r := Ok(log);
    case Err(failure) => r := Err(failure.Message());
  }
}
