/** The handlers of session requests: authentication, fields and ownership are tested in
    that order before the store is touched. */
module SessionHandler {
  import opened ClientAuth
  import opened Options
  import opened SessionManager

  /** What the server knows about a connection. */
  datatype Socket = Socket(client: string, authenticated: bool)

  /** A field of a JSON request; reading one of another type throws. */
  datatype Field<T> = Missing | BadType | Given(value: T)

  datatype Op = SESSION_ERROR | ERROR | CONTEXT_ERROR

  datatype Code =
    | NOT_AUTHENTICATED
    | MISSING_FIELDS
    | SESSION_NOT_FOUND
    | SESSION_LIMIT_REACHED
    | SESSION_CLOSE_FAILED
    | INTERNAL_ERROR

  /** The response; `Malformed` is the dispatcher's answer to an exception. */
  datatype Answer =
    | SessionCreated(id: SessionId, model: string)
    | SessionClosed(id: SessionId)
    | ContextSet(id: SessionId)
    | Refused(op: Op, code: Code)
    | Malformed

  // ---- Which answer each request gets -----------------------------------------------------

  /** Whether a client with this latest grant may get one more session. */
  predicate MayCreate(s: Store, data: Socket, grant: Option<Config>, model: Option<string>, contextOk: bool) {
    data.authenticated && grant.Some? && CountOf(s, data.client) < grant.value.maxSessions && model.Some? && contextOk
  }

  function CreateAnswer(s: Store, data: Socket, grant: Option<Config>, id: SessionId,
                        model: Option<string>, contextOk: bool): Answer
  {
    if !data.authenticated then Refused(SESSION_ERROR, NOT_AUTHENTICATED)
    else if MayCreate(s, data, grant, model, contextOk) then SessionCreated(id, model.value)
    else Refused(SESSION_ERROR, SESSION_LIMIT_REACHED)
  }

  function CloseAnswer(s: Store, data: Socket, field: Field<SessionId>): Answer {
    if !data.authenticated then Refused(ERROR, NOT_AUTHENTICATED)
    else match field
      case Missing => Refused(ERROR, MISSING_FIELDS)
      case BadType => Malformed
      case Given(id) => if Owns(s, data.client, id) then SessionClosed(id) else Refused(ERROR, SESSION_NOT_FOUND)
  }

  function ContextAnswer(s: Store, data: Socket, field: Field<SessionId>, context: Field<Context>): Answer {
    if !data.authenticated then Refused(CONTEXT_ERROR, NOT_AUTHENTICATED)
    else match field
      case Missing => Refused(CONTEXT_ERROR, MISSING_FIELDS)
      case BadType => Malformed
      case Given(id) =>
        if !Owns(s, data.client, id) then Refused(CONTEXT_ERROR, SESSION_NOT_FOUND)
        else match context
          case Missing => Refused(CONTEXT_ERROR, MISSING_FIELDS)
          case BadType => Malformed
          case Given(_) => ContextSet(id)
  }

  /** What an answer says was done to the store. */
  function Effect(s: Store, client: string, a: Answer, context: Context): Store {
    match a
    case SessionCreated(id, model) => Created(s, client, id, model)
    case SessionClosed(id) => Closed(s, id)
    case ContextSet(id) => ContextChanged(s, id, context)
    case _ => s
  }

  class Handler {
    const manager: SessionManager
    const auth: ClientAuth

    constructor (manager: SessionManager, auth: ClientAuth)
      ensures this.manager == manager && this.auth == auth
    {
      this.manager := manager;
      this.auth := auth;
    }

    method HandleCreate(data: Socket, unusedId: SessionId, model: Option<string>, contextOk: bool) returns (a: Answer)
      requires manager.Valid() && auth.Valid() && unusedId != "" && unusedId !in manager.sessions
      modifies manager
      ensures manager.Valid()
      ensures a ==
        CreateAnswer(old(manager.State()), data, LastGrant(auth.grants, data.client), unusedId, model, contextOk)
      ensures manager.State() == Effect(old(manager.State()), data.client, a, [])
      ensures var owned := set id | id in old(manager.sessions) && old(manager.sessions)[id].client == data.client;
        var grant := LastGrant(auth.grants, data.client);
        a == if !data.authenticated then Refused(SESSION_ERROR, NOT_AUTHENTICATED)
             else if grant.Some? && |owned| < grant.value.maxSessions && model.Some? && contextOk then
               SessionCreated(unusedId, model.value)
             else Refused(SESSION_ERROR, SESSION_LIMIT_REACHED)
      ensures manager.sessions ==
        if a.SessionCreated? then old(manager.sessions)[unusedId := SessionEntry(data.client, a.model, [], false)]
        else old(manager.sessions)
    {
      IdsOfOne(manager.State(), data.client,
               set id | id in manager.sessions && manager.sessions[id].client == data.client);
      if !data.authenticated { return Refused(SESSION_ERROR, NOT_AUTHENTICATED); }
      var id := manager.CreateSession(auth, data.client, unusedId, model, contextOk);
      if id != "" {
        var session := manager.GetSession(id);
        var modelId := if session.Some? then session.value.model else "unknown";
        return SessionCreated(id, modelId);
      }
      return Refused(SESSION_ERROR, SESSION_LIMIT_REACHED);
    }

    method HandleClose(data: Socket, field: Field<SessionId>) returns (a: Answer)
      requires manager.Valid()
      modifies manager
      ensures manager.Valid()
      ensures a == CloseAnswer(old(manager.State()), data, field)
      ensures manager.State() == Effect(old(manager.State()), data.client, a, [])
      ensures a ==
        if !data.authenticated then Refused(ERROR, NOT_AUTHENTICATED)
        else if field.Missing? then Refused(ERROR, MISSING_FIELDS)
        else if field.BadType? then Malformed
        else if field.value in old(manager.sessions) && old(manager.sessions)[field.value].client == data.client then
          SessionClosed(field.value)
        else Refused(ERROR, SESSION_NOT_FOUND)
      ensures manager.sessions == if a.SessionClosed? then old(manager.sessions) - {a.id} else old(manager.sessions)
    {
      if !data.authenticated { return Refused(ERROR, NOT_AUTHENTICATED); }
      if field.Missing? { return Refused(ERROR, MISSING_FIELDS); }
      if field.BadType? { return Malformed; }
      var session := manager.GetSession(field.value);
      if session.None? || session.value.client != data.client { return Refused(ERROR, SESSION_NOT_FOUND); }
      var closed := manager.CloseSession(field.value);
      return if closed then SessionClosed(field.value) else Refused(ERROR, SESSION_CLOSE_FAILED);
    }

    method HandleSetContext(data: Socket, field: Field<SessionId>, context: Field<Context>) returns (a: Answer)
      requires manager.Valid()
      modifies manager
      ensures manager.Valid()
      ensures a == ContextAnswer(old(manager.State()), data, field, context)
      ensures manager.State() ==
        Effect(old(manager.State()), data.client, a, if context.Given? then context.value else [])
      ensures a ==
        if !data.authenticated then Refused(CONTEXT_ERROR, NOT_AUTHENTICATED)
        else if field.Missing? then Refused(CONTEXT_ERROR, MISSING_FIELDS)
        else if field.BadType? then Malformed
        else if field.value !in old(manager.sessions) || old(manager.sessions)[field.value].client != data.client then
          Refused(CONTEXT_ERROR, SESSION_NOT_FOUND)
        else if context.Missing? then Refused(CONTEXT_ERROR, MISSING_FIELDS)
        else if context.BadType? then Malformed
        else ContextSet(field.value)
      ensures manager.sessions ==
        if a.ContextSet? then old(manager.sessions)[a.id := old(manager.sessions)[a.id].(context := context.value)]
        else old(manager.sessions)
    {
      if !data.authenticated { return Refused(CONTEXT_ERROR, NOT_AUTHENTICATED); }
      if field.Missing? { return Refused(CONTEXT_ERROR, MISSING_FIELDS); }
      if field.BadType? { return Malformed; }
      var session := manager.GetSession(field.value);
      if session.None? || session.value.client != data.client { return Refused(CONTEXT_ERROR, SESSION_NOT_FOUND); }
      if context.Missing? { return Refused(CONTEXT_ERROR, MISSING_FIELDS); }
      if context.BadType? { return Malformed; }
      var set' := manager.SetSessionContext(field.value, context.value);
      return if set' then ContextSet(field.value) else Refused(CONTEXT_ERROR, INTERNAL_ERROR);
    }
  }
}
