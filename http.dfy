/**
 * The HTTP transport of the server: the session registry (a map from session id to
 * session, with create, get, delete and the one-hour expiry) and the handlers of
 * POST `/mcp` and DELETE `/mcp`. Each handler runs to completion before the next
 * message is looked at; the fresh session id and the clock are inputs.
 */
module Http {
  import opened Wrappers
  import opened Text
  import opened Tools

  /** A session: its id, whether `initialize` has been answered on it, and its creation time (ms). */
  datatype Session = Session(id: string, initialized: bool, createdAt: nat)

  /** The expiry timer's delay: one hour, in milliseconds. */
  const SessionTtlMs: nat := 60 * 60 * 1000

  /** A JSON-RPC id: a number, a string, or `null` (which still makes a message a request). */
  datatype RpcId = NumId(n: int) | StrId(s: string) | NullId

  /** The parts of a POSTed JSON-RPC message the handler reads. */
  datatype Message = Message(
    jsonrpc: Option<string>,
    methodName: Option<string>,
    id: Option<RpcId>,
    params: Option<CallParams>)

  /** The request headers the handler reads; an empty value counts as absent. */
  datatype Headers = Headers(protocolVersion: Option<string>, accept: Option<string>, sessionId: Option<string>)

  /** A response body: none, a transport-level error, or a JSON-RPC reply echoing the request id. */
  datatype Body = NoBody | EnvelopeError(code: int, message: string) | RpcReply(id: RpcId, reply: Reply)

  /** A response: status, the `Mcp-Session-Id` header if set, and the body. */
  datatype HttpResponse = HttpResponse(status: nat, sessionHeader: Option<string>, body: Body)

  /** A header or field JavaScript treats as true: present and not empty. */
  predicate Present(s: Option<string>) {
    s.Some? && s.value != ""
  }

  const UnsupportedVersionPrefix: string := "Unsupported protocol version: "
  const BadAcceptMessage: string := "Accept header must include application/json, text/event-stream, or */*"
  const InvalidMessage: string := "Invalid JSON-RPC message"
  const MissingSessionMessage: string := "Missing Mcp-Session-Id header"
  const SessionNotFoundMessage: string := "Session not found"

  /** The two header checks, in order, as a 400 response; None when both pass. */
  function HeaderCheck(h: Headers): (r: Option<HttpResponse>)
    ensures r.Some? ==> r.value.status == 400 && r.value.sessionHeader.None?
    ensures r.Some? ==> r.value.body.EnvelopeError? && r.value.body.code == InvalidRequest
    ensures Present(h.protocolVersion) && h.protocolVersion.value != ProtocolVersion ==>
              r == Some(HttpResponse(400, None, EnvelopeError(InvalidRequest, UnsupportedVersionPrefix + h.protocolVersion.value)))
    ensures r.None? <==>
              (!Present(h.protocolVersion) || h.protocolVersion.value == ProtocolVersion) &&
              (!Present(h.accept) || AcceptsJson(h.accept.value))
  {
    if Present(h.protocolVersion) && h.protocolVersion.value != ProtocolVersion then
      Some(HttpResponse(400, None, EnvelopeError(InvalidRequest, UnsupportedVersionPrefix + h.protocolVersion.value)))
    else if Present(h.accept) && !AcceptsJson(h.accept.value) then
      Some(HttpResponse(400, None, EnvelopeError(InvalidRequest, BadAcceptMessage)))
    else None
  }

  /** The first envelope check that fails, as a 400 response; None when all pass. */
  function EnvelopeCheck(msg: Message, h: Headers): (r: Option<HttpResponse>)
    ensures r.Some? ==> r.value.status == 400 && r.value.sessionHeader.None?
    ensures r.Some? ==> r.value.body.EnvelopeError? && r.value.body.code == InvalidRequest
    ensures HeaderCheck(h).Some? ==> r == HeaderCheck(h)
    ensures r.None? <==>
              (!Present(h.protocolVersion) || h.protocolVersion.value == ProtocolVersion) &&
              (!Present(h.accept) || AcceptsJson(h.accept.value)) &&
              msg.jsonrpc == Some("2.0")
  {
    if HeaderCheck(h).Some? then HeaderCheck(h)
    else if msg.jsonrpc != Some("2.0") then
      Some(HttpResponse(400, None, EnvelopeError(InvalidRequest, InvalidMessage)))
    else None
  }

  /** The Accept header names a type the server can answer with. */
  predicate AcceptsJson(accept: string) {
    Includes(accept, "application/json") || Includes(accept, "text/event-stream") || Includes(accept, "*/*")
  }

  /** The id a session lives under is its own id. */
  predicate Keyed(sessions: map<string, Session>) {
    forall id :: id in sessions ==> sessions[id].id == id
  }

  /** The 500 answer of a handler that throws: here, reading `jsonrpc` of a null or absent body. */
  const InternalErrorResponse: HttpResponse := HttpResponse(500, None, EnvelopeError(InternalError, "Internal error"))

  /**
   * POST `/mcp` on the registry `sessions`, as a pure function of the old registry:
   * the response and the new registry. `body` is None for a null or absent body, which
   * passes the header checks and then throws; `freshId` is the id `randomUUID` would
   * return, and `now` the clock at the call.
   */
  function Post(sessions: map<string, Session>, body: Option<Message>, h: Headers, freshId: string, now: nat, env: Env)
    : (r: (HttpResponse, map<string, Session>))
    ensures r.0.status == 500 <==> HeaderCheck(h).None? && body.None?
    ensures r.0.status == 200 <==> r.0.body.RpcReply?
    ensures r.0.sessionHeader.Some? ==> r.0.sessionHeader == Some(freshId) && r.0.status == 200
    ensures r.1 != sessions ==> body.Some? && body.value.methodName == Some("initialize") && EnvelopeCheck(body.value, h).None?
  {
    match HeaderCheck(h)
    case Some(resp) => (resp, sessions)
    case None =>
      if body.None? then (InternalErrorResponse, sessions)
      else
        var msg := body.value;
        if msg.jsonrpc != Some("2.0") then
          (HttpResponse(400, None, EnvelopeError(InvalidRequest, InvalidMessage)), sessions)
        else if msg.methodName == Some("initialize") then
          var s := Session(freshId, false, now);
          Answer(sessions[freshId := s], msg, freshId, env)
        else if !Present(h.sessionId) then
          (HttpResponse(400, None, EnvelopeError(InvalidRequest, MissingSessionMessage)), sessions)
        else if h.sessionId.value !in sessions then
          (HttpResponse(404, None, EnvelopeError(InvalidRequest, SessionNotFoundMessage)), sessions)
        else
          Answer(sessions, msg, h.sessionId.value, env)
  }

  /**
   * The message on its resolved session `sid`: a request (a method and an id) is answered
   * with 200 and a reply echoing its id, and `initialize` also returns the session id and
   * marks the session initialized; a notification or a bare response gets 202 and no body.
   */
  function Answer(sessions: map<string, Session>, msg: Message, sid: string, env: Env)
    : (r: (HttpResponse, map<string, Session>))
    requires sid in sessions
    ensures r.0.status == 200 <==> msg.methodName.Some? && msg.id.Some?
    ensures r.0.status == 200 ==> r.0.body.RpcReply? && r.0.body.id == msg.id.value
    ensures r.0.status != 200 ==> r == (HttpResponse(202, None, NoBody), sessions)
    ensures r.0.sessionHeader.Some? <==> msg.methodName == Some("initialize") && msg.id.Some?
    ensures r.0.sessionHeader.Some? ==> r.0.sessionHeader.value == sid
    ensures r.1.Keys == sessions.Keys
  {
    if msg.methodName.Some? && msg.id.Some? then
      var reply := HandleMcpRequest(sessions[sid].initialized, Request(msg.methodName.value, msg.params), env);
      if msg.methodName.value == "initialize" then
        (HttpResponse(200, Some(sid), RpcReply(msg.id.value, reply)),
         sessions[sid := sessions[sid].(initialized := true)])
      else
        (HttpResponse(200, None, RpcReply(msg.id.value, reply)), sessions)
    else
      (HttpResponse(202, None, NoBody), sessions)
  }

  // ---------------------------------------------------------------------------
  // Properties of POST /mcp
  // ---------------------------------------------------------------------------

  /**
   * A failed header check answers 400 with -32600 whatever the body, a null or absent one
   * included; so does a failed `jsonrpc` check; and neither touches a session.
   */
  lemma EnvelopeBeforeSessions(sessions: map<string, Session>, body: Option<Message>, h: Headers, freshId: string, now: nat, env: Env)
    requires HeaderCheck(h).Some? || (body.Some? && EnvelopeCheck(body.value, h).Some?)
    ensures var (resp, after) := Post(sessions, body, h, freshId, now, env);
            && after == sessions && resp.status == 400 && resp.body.EnvelopeError? && resp.body.code == InvalidRequest
            && (HeaderCheck(h).Some? ==> resp == HeaderCheck(h).value)
            && (body.Some? ==> resp == EnvelopeCheck(body.value, h).value)
  {
  }

  /** A null or absent body that passes the header checks makes the handler throw: 500 -32603. */
  lemma MissingBodyAfterHeaders(sessions: map<string, Session>, h: Headers, freshId: string, now: nat, env: Env)
    requires HeaderCheck(h).None?
    ensures Post(sessions, None, h, freshId, now, env) == (InternalErrorResponse, sessions)
  {
  }

  /** An absent or empty protocol-version header never fails the version check. */
  lemma AbsentVersionAccepted(msg: Message, accept: Option<string>, sid: Option<string>)
    requires msg.jsonrpc == Some("2.0")
    requires !Present(accept) || AcceptsJson(accept.value)
    ensures EnvelopeCheck(msg, Headers(None, accept, sid)).None?
    ensures EnvelopeCheck(msg, Headers(Some(""), accept, sid)).None?
  {
  }

  /**
   * `initialize` always creates a new session, whatever session header is sent: the new
   * id joins the registry, every existing session stays as it was, and a request gets the
   * id back in the header with the session marked initialized.
   */
  lemma InitializeCreatesSession(sessions: map<string, Session>, msg: Message, h: Headers, freshId: string, now: nat, env: Env)
    requires freshId !in sessions
    requires EnvelopeCheck(msg, h).None? && msg.methodName == Some("initialize")
    ensures var (resp, after) := Post(sessions, Some(msg), h, freshId, now, env);
            && after.Keys == sessions.Keys + {freshId}
            && (forall id :: id in sessions ==> after[id] == sessions[id])
            && after[freshId].id == freshId && after[freshId].createdAt == now
            && (msg.id.Some? ==>
                  resp == HttpResponse(200, Some(freshId),
                            RpcReply(msg.id.value, Result(Initialized(ProtocolVersion, ServerName, ServerVersion))))
                  && after[freshId].initialized)
            && (msg.id.None? ==> resp == HttpResponse(202, None, NoBody) && !after[freshId].initialized)
  {
  }

  /**
   * Any other message, a bare response included, needs a known session: without the
   * header it gets 400, with an unknown id 404, and the registry is left alone.
   */
  lemma OtherMessagesNeedSession(sessions: map<string, Session>, msg: Message, h: Headers, freshId: string, now: nat, env: Env)
    requires EnvelopeCheck(msg, h).None? && msg.methodName != Some("initialize")
    ensures var (resp, after) := Post(sessions, Some(msg), h, freshId, now, env);
            && (!Present(h.sessionId) ==>
                  resp == HttpResponse(400, None, EnvelopeError(InvalidRequest, MissingSessionMessage)) && after == sessions)
            && (Present(h.sessionId) && h.sessionId.value !in sessions ==>
                  resp == HttpResponse(404, None, EnvelopeError(InvalidRequest, SessionNotFoundMessage)) && after == sessions)
  {
  }

  /**
   * On a known session, a request gets exactly one reply, echoing its id; notifications
   * and bare responses get 202 with no body; and only `initialize` changes the registry.
   */
  lemma KnownSessionOutcomes(sessions: map<string, Session>, msg: Message, sid: string, freshId: string, now: nat, env: Env)
    requires sid in sessions && sid != ""
    requires msg.jsonrpc == Some("2.0") && msg.methodName != Some("initialize")
    ensures var (resp, after) := Post(sessions, Some(msg), Headers(None, None, Some(sid)), freshId, now, env);
            && after == sessions
            && (msg.methodName.Some? && msg.id.Some? ==>
                  resp.status == 200 && resp.body.RpcReply? && resp.body.id == msg.id.value
                  && resp.body.reply == HandleMcpRequest(sessions[sid].initialized, Request(msg.methodName.value, msg.params), env))
            && (msg.methodName.None? || msg.id.None? ==> resp == HttpResponse(202, None, NoBody))
  {
  }

  /** POST keeps every session under its own id and never resets `initialized`. */
  lemma PostPreservesRegistry(sessions: map<string, Session>, body: Option<Message>, h: Headers, freshId: string, now: nat, env: Env)
    requires Keyed(sessions) && freshId !in sessions
    ensures var after := Post(sessions, body, h, freshId, now, env).1;
            && Keyed(after)
            && sessions.Keys <= after.Keys
            && (forall id :: id in sessions && sessions[id].initialized ==> after[id].initialized)
            && (forall id :: id in sessions ==> after[id].createdAt == sessions[id].createdAt)
  {
    if body.Some? && EnvelopeCheck(body.value, h).None? {
      var msg := body.value;
      if msg.methodName == Some("initialize") {
        AnswerKeepsRegistry(sessions[freshId := Session(freshId, false, now)], msg, freshId, env);
      } else if Present(h.sessionId) && h.sessionId.value in sessions {
        AnswerKeepsRegistry(sessions, msg, h.sessionId.value, env);
      }
    }
  }

  /** Answering changes at most the `initialized` flag of the message's own session, to true. */
  lemma AnswerKeepsRegistry(sessions: map<string, Session>, msg: Message, sid: string, env: Env)
    requires Keyed(sessions) && sid in sessions
    ensures var after := Answer(sessions, msg, sid, env).1;
            && after.Keys == sessions.Keys
            && (forall id :: id in sessions && id != sid ==> after[id] == sessions[id])
            && (after[sid] == sessions[sid] || after[sid] == sessions[sid].(initialized := true))
  {
  }

  /** `tools/call` on a session that has not been initialized is refused with -32601. */
  lemma ToolsCallBeforeInitialize(sessions: map<string, Session>, msg: Message, sid: string, freshId: string, now: nat, env: Env)
    requires sid in sessions && sid != "" && !sessions[sid].initialized
    requires msg.jsonrpc == Some("2.0") && msg.methodName == Some("tools/call") && msg.id.Some?
    ensures Post(sessions, Some(msg), Headers(None, None, Some(sid)), freshId, now, env).0
            == HttpResponse(200, None, RpcReply(msg.id.value, Error(RpcError(MethodNotFound, "Session not initialized", None))))
  {
  }

  /**
   * The handshake: after an `initialize` request, a `tools/call` that sends back the
   * returned session id is dispatched to the tool instead of being refused.
   */
  lemma HandshakeOpensTools(sessions: map<string, Session>, init: Message, call: Message, h: Headers,
                            freshId: string, other: string, t0: nat, t1: nat, env: Env)
    requires freshId !in sessions && freshId != "" && other !in sessions[freshId := Session(freshId, false, t0)]
    requires EnvelopeCheck(init, h).None? && init.methodName == Some("initialize") && init.id.Some?
    requires call.jsonrpc == Some("2.0") && call.methodName == Some("tools/call") && call.id.Some?
    ensures var (resp1, after1) := Post(sessions, Some(init), h, freshId, t0, env);
            resp1.sessionHeader == Some(freshId) &&
            var (resp2, after2) := Post(after1, Some(call), Headers(None, None, resp1.sessionHeader), other, t1, env);
            resp2.status == 200 && resp2.body.RpcReply? &&
            resp2.body.reply == HandleMcpRequest(true, Request("tools/call", call.params), env) &&
            (resp2.body.reply.Error? ==> resp2.body.reply.error.code == InternalError)
  {
  }

  // ---------------------------------------------------------------------------
  // The registry
  // ---------------------------------------------------------------------------

  /** The module-level `sessions` map and the handlers that change it. */
  class Registry {
    var sessions: map<string, Session>

    /** Every session is stored under its own id. */
    ghost predicate Valid()
      reads this
    {
      Keyed(sessions)
    }

    constructor()
      ensures sessions == map[]
      ensures Valid()
    {
      sessions := map[];
    }

    /** createSession: a new uninitialized session under a fresh id. */
    method CreateSession(freshId: string, now: nat) returns (s: Session)
      requires Valid() && freshId !in sessions
      modifies this
      ensures Valid()
      ensures s == Session(freshId, false, now)
      ensures sessions == old(sessions)[freshId := s]
    {
      s := Session(freshId, false, now);
      sessions := sessions[freshId := s];
    }

    /** getSession: the session stored under `id`, if any. */
    function GetSession(id: string): (r: Option<Session>)
      reads this
      requires Valid()
      ensures r.Some? <==> id in sessions
      ensures r.Some? ==> r.value.id == id && r.value == sessions[id]
    {
      if id in sessions then Some(sessions[id]) else None
    }

    /** The expiry timer of session `id`: it removes that entry only, and nothing if it is gone. */
    method Expire(id: string)
      requires Valid()
      modifies this
      ensures Valid()
      ensures sessions == old(sessions) - {id}
      ensures id !in old(sessions) ==> sessions == old(sessions)
    {
      sessions := sessions - {id};
    }

    /**
     * The expiry timers due by `now`: a session lives exactly one hour from its creation,
     * however it is used.
     */
    method ExpireDue(now: nat)
      requires Valid()
      modifies this
      ensures Valid()
      ensures forall id :: id in sessions <==> id in old(sessions) && now < old(sessions)[id].createdAt + SessionTtlMs
      ensures forall id :: id in sessions ==> sessions[id] == old(sessions)[id]
    {
      var due := set id | id in sessions && sessions[id].createdAt + SessionTtlMs <= now;
      while due != {}
        invariant Valid()
        invariant due <= old(sessions).Keys
        invariant forall id :: id in sessions <==>
                    id in old(sessions) && (id in due || now < old(sessions)[id].createdAt + SessionTtlMs)
        invariant forall id :: id in sessions ==> sessions[id] == old(sessions)[id]
        decreases due
      {
        var id :| id in due;
        Expire(id);
        due := due - {id};
      }
    }

    /** DELETE `/mcp`: 200 and the entry removed when the id is known, else 404 and no change. */
    method HandleDelete(sessionId: Option<string>) returns (resp: HttpResponse)
      requires Valid()
      modifies this
      ensures Valid()
      ensures Present(sessionId) && sessionId.value in old(sessions) ==>
                resp == HttpResponse(200, None, NoBody) && sessions == old(sessions) - {sessionId.value}
      ensures !(Present(sessionId) && sessionId.value in old(sessions)) ==>
                resp == HttpResponse(404, None, EnvelopeError(InvalidRequest, SessionNotFoundMessage))
                && sessions == old(sessions)
    {
      if sessionId.Some? && sessionId.value != "" && sessionId.value in sessions {
        sessions := sessions - {sessionId.value};
        resp := HttpResponse(200, None, NoBody);
      } else {
        resp := HttpResponse(404, None, EnvelopeError(InvalidRequest, SessionNotFoundMessage));
      }
    }

    /** POST `/mcp`: the checks in order, with an early return for each failure. */
    method HandlePost(body: Option<Message>, h: Headers, freshId: string, now: nat, env: Env) returns (resp: HttpResponse)
      requires Valid() && freshId !in sessions
      modifies this
      ensures Valid()
      ensures (resp, sessions) == Post(old(sessions), body, h, freshId, now, env)
    {
      var version := h.protocolVersion;
      if version.Some? && version.value != "" && version.value != ProtocolVersion {
        return HttpResponse(400, None, EnvelopeError(InvalidRequest, UnsupportedVersionPrefix + version.value));
      }
      var accept := h.accept;
      if accept.Some? && accept.value != "" && !AcceptsJson(accept.value) {
        return HttpResponse(400, None, EnvelopeError(InvalidRequest, BadAcceptMessage));
      }
      if body.None? {
        return InternalErrorResponse;
      }
      var msg := body.value;
      if msg.jsonrpc.None? || msg.jsonrpc.value != "2.0" {
        return HttpResponse(400, None, EnvelopeError(InvalidRequest, InvalidMessage));
      }
      var sid: string;
      var session: Session;
      if msg.methodName == Some("initialize") {
        session := CreateSession(freshId, now);
        sid := session.id;
      } else {
        if h.sessionId.None? || h.sessionId.value == "" {
          return HttpResponse(400, None, EnvelopeError(InvalidRequest, MissingSessionMessage));
        }
        sid := h.sessionId.value;
        var existing := GetSession(sid);
        if existing.None? {
          return HttpResponse(404, None, EnvelopeError(InvalidRequest, SessionNotFoundMessage));
        }
        session := existing.value;
      }
      if msg.methodName.Some? {
        if msg.id.Some? {
          var reply := HandleMcpRequest(session.initialized, Request(msg.methodName.value, msg.params), env);
          var header := None;
          if msg.methodName.value == "initialize" {
            header := Some(sid);
            sessions := sessions[sid := session.(initialized := true)];
          }
          resp := HttpResponse(200, header, RpcReply(msg.id.value, reply));
        } else {
          resp := HttpResponse(202, None, NoBody);
        }
      } else {
        resp := HttpResponse(202, None, NoBody);
      }
    }
  }
}
