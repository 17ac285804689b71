/**
 * The remote HTTP and WebSocket surface: which port the server listens on, how a bearer
 * token is taken from the `Authorization` header, how each route maps engine failures to
 * status codes, and how the event socket answers what a client sends it.
 */
module Http {
  import opened Wrappers
  import opened Text
  import opened Domain
  import opened State

  newtype byte = x: int | 0 <= x < 256

  /** The two failure statuses the routes produce: 401 Unauthorized and 400 Bad Request. */
  datatype StatusCode = Unauthorized | BadRequest

  // ---------------------------------------------------------------------------------------
  // Listening port

  const DEFAULT_PORT: nat := 6280

  /**
   * The port: the environment variable's value when it parses as a 16-bit unsigned integer,
   * otherwise the default. `None` stands for a variable that is unset or not valid Unicode.
   */
  function SelectPort(env: Option<string>): (port: nat)
    ensures port <= U16_MAX
    ensures port != DEFAULT_PORT ==> env.Some? && ParseU16(env.value) == Some(port)
    ensures env.Some? && ParseU16(env.value).Some? ==> port == ParseU16(env.value).value
  {
    match env
    case None => DEFAULT_PORT
    case Some(value) => ParseU16(value).GetOr(DEFAULT_PORT)
  }

  /** Any port written in decimal, with or without a plus sign, is the port chosen. */
  lemma SelectPortRoundTrip(n: nat)
    requires n <= U16_MAX
    ensures SelectPort(Some(NatToString(n))) == n
    ensures SelectPort(Some("+" + NatToString(n))) == n
  {
    ParseU16RoundTrip(n);
  }

  /** Any run of digits within 16 bits is the port chosen, leading zeros and `+` allowed. */
  lemma SelectPortAcceptsDigits(d: string)
    requires d != [] && AllDigits(d) && DecimalValue(d) <= U16_MAX
    ensures SelectPort(Some(d)) == DecimalValue(d)
    ensures SelectPort(Some("+" + d)) == DecimalValue(d)
  {
    ParseU16Complete(d);
  }

  /**
   * An unset variable, an empty value, a lone `+`, a value beyond 16 bits, a negative value
   * and any value with a character other than a digit (bar one leading `+`) all fall back to
   * the default.
   */
  lemma SelectPortFallsBack(n: nat, s: string)
    ensures SelectPort(None) == DEFAULT_PORT
    ensures SelectPort(Some("")) == DEFAULT_PORT && SelectPort(Some("+")) == DEFAULT_PORT
    ensures n > U16_MAX ==> SelectPort(Some(NatToString(n))) == DEFAULT_PORT
    ensures s != [] && s[0] == '-' ==> SelectPort(Some(s)) == DEFAULT_PORT
    ensures (exists i :: 0 <= i < |s| && !IsDigit(s[i]) && (i > 0 || s[i] != '+')) ==>
            SelectPort(Some(s)) == DEFAULT_PORT
  {
    if n > U16_MAX {
      ParseU16Overflow(n);
    }
    if s != [] && s[0] == '-' {
      ParseU16RejectsMinus(s);
    }
    if ParseU16(s).Some? {
      ParseU16Sound(s, ParseU16(s).value);
      forall i | 0 <= i < |s| && (i > 0 || s[i] != '+') ensures IsDigit(s[i]) {
        if s[0] == '+' {
          assert s[i] == s[1..][i - 1];
        }
      }
    }
  }

  // ---------------------------------------------------------------------------------------
  // Bearer tokens

  /** What `HeaderValue::to_str` accepts, by code: visible ASCII and the horizontal tab. */
  predicate HeaderSafe(code: int) {
    code == 9 || 32 <= code < 127
  }

  /** `HeaderValue::to_str`: the text of a header made only of visible ASCII, else nothing. */
  function HeaderToStr(v: seq<byte>): (r: Option<string>)
    ensures r.Some? <==> forall i :: 0 <= i < |v| ==> HeaderSafe(v[i] as int)
    ensures r.Some? ==> |r.value| == |v| && forall i :: 0 <= i < |v| ==> r.value[i] as int == v[i] as int
  {
    if forall i :: 0 <= i < |v| ==> HeaderSafe(v[i] as int) then
      Some(seq(|v|, i requires 0 <= i < |v| => (v[i] as int) as char))
    else None
  }

  /** The bytes a client sends for a header made of header-safe characters. */
  function Encode(s: string): (v: seq<byte>)
    requires forall i :: 0 <= i < |s| ==> HeaderSafe(s[i] as int)
    ensures |v| == |s| && forall i :: 0 <= i < |s| ==> v[i] as int == s[i] as int && HeaderSafe(v[i] as int)
  {
    seq(|s|, i requires 0 <= i < |s| && HeaderSafe(s[i] as int) => s[i] as int as byte)
  }

  const BEARER_PREFIX: string := "Bearer "

  /**
   * `extract_token`: the header must be present, readable as text and start with exactly
   * `Bearer ` (capital B, one space); the token is the rest, possibly empty.
   */
  function ExtractToken(authorization: Option<seq<byte>>): (r: Result<string, StatusCode>)
    ensures r.Err? ==> r.error == Unauthorized
    ensures authorization.None? ==> r.Err?
  {
    match authorization
    case None => Err(Unauthorized)
    case Some(raw) =>
      match HeaderToStr(raw)
      case None => Err(Unauthorized)
      case Some(text) =>
        match StripPrefix(text, BEARER_PREFIX)
        case Some(token) => Ok(token)
        case None => Err(Unauthorized)
  }

  /** A header-safe token sent as `Bearer <token>` is extracted unchanged. */
  lemma ExtractTokenRoundTrip(token: string)
    requires forall i :: 0 <= i < |token| ==> HeaderSafe(token[i] as int)
    ensures forall i :: 0 <= i < |BEARER_PREFIX + token| ==> HeaderSafe((BEARER_PREFIX + token)[i] as int)
    ensures ExtractToken(Some(Encode(BEARER_PREFIX + token))) == Ok(token)
  {
    var header := BEARER_PREFIX + token;
    assert forall i :: 0 <= i < |header| ==> HeaderSafe(header[i] as int) by {
      forall i | 0 <= i < |header| ensures HeaderSafe(header[i] as int) {
        if i >= |BEARER_PREFIX| {
          assert header[i] == token[i - |BEARER_PREFIX|];
        }
      }
    }
    var text := HeaderToStr(Encode(header));
    assert text.Some?;
    assert text.value == header;
    assert text.value[..|BEARER_PREFIX|] == BEARER_PREFIX;
    assert text.value[|BEARER_PREFIX|..] == token;
  }

  /** Whatever is extracted was sent as `Bearer ` followed by it, byte for byte. */
  lemma ExtractTokenSound(raw: seq<byte>, token: string)
    requires ExtractToken(Some(raw)) == Ok(token)
    ensures forall i :: 0 <= i < |BEARER_PREFIX + token| ==> HeaderSafe((BEARER_PREFIX + token)[i] as int)
    ensures raw == Encode(BEARER_PREFIX + token)
  {
  }

  /** The scheme is matched case-sensitively: `bearer <token>` is refused. */
  lemma ExtractTokenCaseSensitive(token: string)
    requires forall i :: 0 <= i < |"bearer " + token| ==> HeaderSafe(("bearer " + token)[i] as int)
    ensures ExtractToken(Some(Encode("bearer " + token))) == Err(Unauthorized)
  {
    var text := HeaderToStr(Encode("bearer " + token));
    assert text.Some? && text.value == "bearer " + token;
    assert text.value[0] != BEARER_PREFIX[0];
  }

  /** A header with any byte outside visible ASCII and tab is refused. */
  lemma ExtractTokenRejectsOpaqueHeader(raw: seq<byte>, i: nat)
    requires i < |raw| && !HeaderSafe(raw[i] as int)
    ensures ExtractToken(Some(raw)) == Err(Unauthorized)
  {
  }

  /**
   * `authorize`: the session a request's `Authorization` header opens, if any. The token
   * must name a session that outlives `now`; sessions that do not are purged on the way.
   */
  function AuthorizedSession(sessions: map<string, Session>, authorization: Option<seq<byte>>,
                             now: Timestamp): (s: Option<Session>)
    ensures s.Some? ==> s.value.expiresAt > now && !IsExpired(s.value, now)
    ensures s.Some? ==> ExtractToken(authorization).Ok? && ExtractToken(authorization).value in sessions
  {
    match ExtractToken(authorization)
    case Err(_) => None
    case Ok(token) =>
      var live := LiveSessions(sessions, now);
      if token in live then Some(live[token]) else None
  }

  /** Sending a live session's token as a bearer token opens exactly that session, and only it. */
  lemma AuthorizedSessionBearer(sessions: map<string, Session>, token: string, now: Timestamp)
    requires forall i :: 0 <= i < |token| ==> HeaderSafe(token[i] as int)
    ensures forall i :: 0 <= i < |BEARER_PREFIX + token| ==> HeaderSafe((BEARER_PREFIX + token)[i] as int)
    ensures AuthorizedSession(sessions, Some(Encode(BEARER_PREFIX + token)), now)
            == if token in sessions && sessions[token].expiresAt > now then Some(sessions[token]) else None
  {
    ExtractTokenRoundTrip(token);
  }

  // ---------------------------------------------------------------------------------------
  // The event socket

  /** What the socket may receive from a client. */
  datatype Incoming =
    | CloseFrame
    | StreamEnded
    | ReadFailed
    | PingFrame(data: seq<byte>)
    | PongFrame(data: seq<byte>)
    | TextFrame(text: string)
    | BinaryFrame(data: seq<byte>)

  /** What the socket does in reply. */
  datatype Reaction = Disconnect | SendPong(data: seq<byte>) | SendText(text: string) | Ignore

  /**
   * The receive arm of the socket loop: close, end of stream and read errors end the
   * connection, a ping is answered with a pong carrying the same data, the text `ping` in
   * any ASCII case is answered with the text `pong`, and anything else is ignored.
   */
  function ReactToIncoming(m: Incoming): (r: Reaction)
    ensures r.Disconnect? <==> m.CloseFrame? || m.StreamEnded? || m.ReadFailed?
    ensures r.SendPong? <==> m.PingFrame?
    ensures r.SendPong? ==> r.data == m.data
    ensures r.SendText? <==> m.TextFrame? && ToLowerAscii(m.text) == "ping"
    ensures r.SendText? ==> r.text == "pong"
  {
    EqIgnoreAsciiCaseIsLowerEquality(if m.TextFrame? then m.text else "", "ping");
    match m
    case CloseFrame => Disconnect
    case StreamEnded => Disconnect
    case ReadFailed => Disconnect
    case PingFrame(data) => SendPong(data)
    case TextFrame(text) => if EqIgnoreAsciiCase(text, "ping") then SendText("pong") else Ignore
    case _ => Ignore
  }

  /**
   * The text heartbeat is answered exactly when `eq_ignore_ascii_case` says the text is
   * `ping`: whatever the letter case, and only for that word.
   */
  lemma PingTextAnswered(text: string)
    ensures ReactToIncoming(TextFrame(text)).SendText? <==> EqIgnoreAsciiCase(text, "ping")
    ensures ReactToIncoming(TextFrame("PiNg")) == SendText("pong")
    ensures ReactToIncoming(TextFrame(text)).SendText? ==> |text| == 4
  {
    EqIgnoreAsciiCaseIsLowerEquality(text, "ping");
  }

  // ---------------------------------------------------------------------------------------
  // Routes

  /** The most records the history route returns. */
  const HISTORY_PAGE: nat := 100

  datatype LoginRequest = LoginRequest(username: string, password: string)
  datatype LoginResponse = LoginResponse(token: string, expiresAt: Timestamp)

  /** `authorize`: extract the bearer token, then validate it against the live sessions. */
  method Authorize(center: CommandCenter, authorization: Option<seq<byte>>, now: Timestamp)
    returns (r: Result<Session, StatusCode>)
    requires center.Valid()
    modifies center
    ensures center.Valid()
    ensures r == match AuthorizedSession(old(center.sessions), authorization, now)
                 case Some(s) => Ok(s)
                 case None => Err(Unauthorized)
    ensures center.sessions == if ExtractToken(authorization).Ok? then LiveSessions(old(center.sessions), now)
                               else old(center.sessions)
    ensures center.commands == old(center.commands) && center.history == old(center.history)
    ensures center.credentials == old(center.credentials) && center.events == old(center.events)
  {
    var token := ExtractToken(authorization);
    if token.Err? {
      return Err(Unauthorized);
    }
    var session := center.ValidateToken(token.value, now);
    r := if session.Some? then Ok(session.value) else Err(Unauthorized);
  }

  /** `POST /api/auth/login`: any failure is 401; success returns the token and its expiry. */
  method LoginRoute(center: CommandCenter, request: LoginRequest, token: string, now: Timestamp)
    returns (r: Result<LoginResponse, StatusCode>)
    requires center.Valid()
    modifies center
    ensures center.Valid()
    ensures center.commands == old(center.commands) && center.history == old(center.history)
    ensures center.credentials == old(center.credentials) && center.events == old(center.events)
    ensures r.Err? <==> request.username !in center.credentials
                        || !VerifyPassword(request.password, center.credentials[request.username].passwordHash)
    ensures r.Err? ==> r.error == Unauthorized && center.sessions == old(center.sessions)
    ensures r.Ok? ==>
      && r.value == LoginResponse(token, now + SESSION_TTL)
      && center.sessions == old(center.sessions)[token := Session(token, request.username, now, now + SESSION_TTL)]
  {
    var session := center.Login(request.username, request.password, token, now);
    match session
    case Ok(s) => r := Ok(LoginResponse(s.token, s.expiresAt));
    case Err(_) => r := Err(Unauthorized);
  }

  /** `GET /api/commands`: the sorted catalogue, for an authorised caller only. */
  method ListCommandsRoute(center: CommandCenter, authorization: Option<seq<byte>>, now: Timestamp)
    returns (r: Result<seq<CommandDefinition>, StatusCode>)
    requires center.Valid()
    modifies center
    ensures center.Valid()
    ensures center.commands == old(center.commands) && center.history == old(center.history)
    ensures center.credentials == old(center.credentials) && center.events == old(center.events)
    ensures center.sessions == if ExtractToken(authorization).Ok? then LiveSessions(old(center.sessions), now)
                               else old(center.sessions)
    ensures r.Err? <==> AuthorizedSession(old(center.sessions), authorization, now).None?
    ensures r.Err? ==> r.error == Unauthorized
    ensures r.Ok? ==>
      && SortedByName(r.value) && |r.value| == |center.commands|
      && (forall i :: 0 <= i < |r.value| ==> r.value[i].id in center.commands && center.commands[r.value[i].id] == r.value[i])
      && (forall id :: id in center.commands ==> center.commands[id] in r.value)
      && (forall i, j :: 0 <= i < j < |r.value| ==> r.value[i].id != r.value[j].id)
  {
    var session := Authorize(center, authorization, now);
    if session.Err? {
      return Err(session.error);
    }
    var list := center.ListCommands();
    r := Ok(list);
  }

  /**
   * `POST /api/commands/{id}/execute`: the execution is attributed to the session's user,
   * and any engine failure is 400.
   */
  method ExecuteRoute(center: CommandCenter, authorization: Option<seq<byte>>, id: string,
                      parameters: Option<seq<string>>, logId: string, now: Timestamp)
    returns (r: Result<ExecutionLog, StatusCode>)
    requires center.Valid()
    modifies center
    ensures center.Valid()
    ensures center.commands == old(center.commands) && center.credentials == old(center.credentials)
    ensures center.sessions == if ExtractToken(authorization).Ok? then LiveSessions(old(center.sessions), now)
                               else old(center.sessions)
    ensures r.Err? ==> center.history == old(center.history) && center.events == old(center.events)
    ensures AuthorizedSession(old(center.sessions), authorization, now).None? ==> r == Err(Unauthorized)
    ensures AuthorizedSession(old(center.sessions), authorization, now).Some? ==>
      && (id !in center.commands ==> r == Err(BadRequest))
      && (id in center.commands && parameters.Some? && !center.commands[id].allowArguments ==> r == Err(BadRequest))
    ensures AuthorizedSession(old(center.sessions), authorization, now).Some? &&
            id in center.commands && (parameters.None? || center.commands[id].allowArguments) ==>
      var user := AuthorizedSession(old(center.sessions), authorization, now).value.username;
      var command := center.commands[id];
      var source := if parameters.Some? then parameters.value else command.args;
      && r == Ok(NewExecutionLog(logId, command, user, TrimmedNonEmpty(source), now))
      && center.history == HistoryAfterPush(old(center.history), r.value)
      && center.events == old(center.events) + [ExecutionStarted(r.value)]
  {
    var session := Authorize(center, authorization, now);
    if session.Err? {
      return Err(session.error);
    }
    var started := center.ExecuteCommand(id, parameters, session.value.username, logId, now);
    match started
    case Ok(log) => r := Ok(log);
    case Err(_) => r := Err(BadRequest);
  }

  /** `GET /api/history`: at most the hundred most recent records, for an authorised caller. */
  method HistoryRoute(center: CommandCenter, authorization: Option<seq<byte>>, now: Timestamp)
    returns (r: Result<seq<ExecutionLog>, StatusCode>)
    requires center.Valid()
    modifies center
    ensures center.Valid()
    ensures center.commands == old(center.commands) && center.history == old(center.history)
    ensures center.credentials == old(center.credentials) && center.events == old(center.events)
    ensures center.sessions == if ExtractToken(authorization).Ok? then LiveSessions(old(center.sessions), now)
                               else old(center.sessions)
    ensures r.Err? <==> AuthorizedSession(old(center.sessions), authorization, now).None?
    ensures r.Err? ==> r.error == Unauthorized
    ensures r.Ok? ==> |r.value| <= HISTORY_PAGE && |r.value| <= |center.history| && r.value == center.history[..|r.value|]
    ensures r.Ok? ==> |r.value| == HISTORY_PAGE || r.value == center.history
  {
    var session := Authorize(center, authorization, now);
    if session.Err? {
      return Err(session.error);
    }
    r := Ok(center.ListHistory(Some(HISTORY_PAGE)));
  }

  /**
   * `GET /api/events`: the token comes from the query string rather than a header; a live
   * session upgrades the connection, anything else is 401.
   */
  method EventsRoute(center: CommandCenter, queryToken: string, now: Timestamp)
    returns (r: Result<Session, StatusCode>)
    requires center.Valid()
    modifies center
    ensures center.Valid()
    ensures center.commands == old(center.commands) && center.history == old(center.history)
    ensures center.credentials == old(center.credentials) && center.events == old(center.events)
    ensures center.sessions == LiveSessions(old(center.sessions), now)
    ensures r.Ok? <==> queryToken in old(center.sessions) && old(center.sessions)[queryToken].expiresAt > now
    ensures r.Ok? ==> r.value == old(center.sessions)[queryToken]
    ensures r.Err? ==> r.error == Unauthorized
  {
    var session := center.ValidateToken(queryToken, now);
    r := if session.Some? then Ok(session.value) else Err(Unauthorized);
  }
}
