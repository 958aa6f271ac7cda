/** Whole runs of the server's session side: connections, authentications and session
    requests in any order, by any sockets. All of them run on the event loop, one at a
    time; aborts come from there and from the watchdog. */
module Gateway {
  import opened ClientAuth
  import opened Options
  import opened SessionManager
  import opened SessionHandler

  datatype Gate = Gate(cache: Cache, store: Store, sockets: map<nat, Socket>, grants: seq<Grant>, clock: int)

  /** The readings of the clock before and after the database is asked, and its answer. */
  datatype Inquiry = Inquiry(now: int, reply: Reply, later: int)

  datatype Step =
    | Connect(sock: nat, client: string, key: string, q: Inquiry)
    | Auth(sock: nat, clientField: Field<string>, keyField: Field<string>, q: Inquiry)
    | Create(sock: nat, unusedId: SessionId, model: Option<string>, contextOk: bool)
    | Close(sock: nat, field: Field<SessionId>)
    | SetContext(sock: nat, field: Field<SessionId>, context: Field<Context>)
    | Abort(id: SessionId)
    | Disconnect(sock: nat)
    | CloseClient(client: string)
    | CloseAll

  /** A server with some connections that have not authenticated. */
  function Init(socks: set<nat>, clock: int): Gate {
    Gate(map[], Empty, map k | k in socks :: Socket("", false), [], clock)
  }

  predicate InOrder(g: Gate, q: Inquiry) {
    g.clock <= q.now <= q.later
  }

  predicate Enabled(g: Gate, step: Step) {
    match step
    case Connect(sock, _, _, q) => sock !in g.sockets && InOrder(g, q)
    case Auth(sock, _, _, q) => sock in g.sockets && InOrder(g, q)
    case Create(sock, id, _, _) => sock in g.sockets && id != "" && id !in g.store.sessions
    case Close(sock, _) => sock in g.sockets
    case SetContext(sock, _, _) => sock in g.sockets
    case Abort(_) => true
    case Disconnect(sock) => sock in g.sockets
    case CloseClient(_) => true
    case CloseAll => true
  }

  /** Asks the authentication service; on success the socket belongs to the client. */
  function LogIn(g: Gate, sock: nat, client: string, key: string, q: Inquiry): Gate {
    var h := g.(cache := CacheAfter(g.cache, client, key, q.now, q.reply, q.later),
                grants := GrantsAfter(g.cache, g.grants, client, key, q.now, q.reply, q.later),
                clock := q.later);
    if Succeeds(g.cache, client, key, q.now, q.reply) then h.(sockets := g.sockets[sock := Socket(client, true)]) else h
  }

  /** The answer to a session request. */
  function AnswerTo(g: Gate, step: Step): Answer
    requires Enabled(g, step) && (step.Create? || step.Close? || step.SetContext?)
  {
    var data := g.sockets[step.sock];
    match step
    case Create(_, id, model, ok) => CreateAnswer(g.store, data, LastGrant(g.grants, data.client), id, model, ok)
    case Close(_, field) => CloseAnswer(g.store, data, field)
    case SetContext(_, field, context) => ContextAnswer(g.store, data, field, context)
  }

  function Request(g: Gate, step: Step, context: Context): Gate
    requires Enabled(g, step) && (step.Create? || step.Close? || step.SetContext?)
  {
    g.(store := Effect(g.store, g.sockets[step.sock].client, AnswerTo(g, step), context))
  }

  function Apply(g: Gate, step: Step): Gate
    requires Enabled(g, step)
  {
    match step
    case Connect(sock, client, key, q) => if client == "" || key == "" then g else LogIn(g, sock, client, key, q)
    case Auth(sock, clientField, keyField, q) =>
      if g.sockets[sock].authenticated || !clientField.Given? || !keyField.Given? then g
      else LogIn(g, sock, clientField.value, keyField.value, q)
    case Create(_, _, _, _) => Request(g, step, [])
    case Close(_, _) => Request(g, step, [])
    case SetContext(_, _, context) => Request(g, step, if context.Given? then context.value else [])
    case Abort(id) => g.(store := AbortMarked(g.store, id))
    case Disconnect(sock) => g.(sockets := g.sockets - {sock})
    case CloseClient(client) => g.(store := ClientClosed(g.store, client))
    case CloseAll => g.(store := Empty)
  }

  predicate Runs(g: Gate, steps: seq<Step>, h: Gate)
    decreases |steps|
  {
    if steps == [] then g == h
    else Enabled(g, steps[0]) && Runs(Apply(g, steps[0]), steps[1..], h)
  }

  // ---- Invariants --------------------------------------------------------------------------

  /** The largest `max_sessions` ever granted to a client; 0 if none is positive. */
  function MaxGranted(grants: seq<Grant>, client: string): nat {
    if grants == [] then 0
    else
      var last, most := grants[|grants| - 1], MaxGranted(grants[..|grants| - 1], client);
      if last.client == client && last.config.maxSessions > most then last.config.maxSessions else most
  }

  lemma MaxGrantedGrows(grants: seq<Grant>, g: Grant, client: string)
    ensures MaxGranted(grants + [g], client) >= MaxGranted(grants, client)
  {
    assert (grants + [g])[..|grants|] == grants;
  }

  lemma {:induction false} LastIsAtMostMax(grants: seq<Grant>, client: string)
    ensures var l := LastGrant(grants, client); l.Some? ==> l.value.maxSessions <= MaxGranted(grants, client)
  {
    if grants != [] { LastIsAtMostMax(grants[..|grants| - 1], client); }
  }

  /** No client has more sessions than the most it was ever granted. */
  ghost predicate WithinGrants(store: Store, grants: seq<Grant>) {
    forall c :: CountOf(store, c) <= MaxGranted(grants, c)
  }

  /** Every authenticated socket belongs to a client that the database accepted. */
  predicate SocketsAreKnown(g: Gate) {
    forall k :: k in g.sockets && g.sockets[k].authenticated ==> LastGrant(g.grants, g.sockets[k].client).Some?
  }

  ghost predicate Inv(g: Gate) {
    && Reflects(g.cache, g.grants)
    && AllBefore(g.grants, g.clock)
    && Agree(g.store)
    && WithinGrants(g.store, g.grants)
    && SocketsAreKnown(g)
  }

  lemma GrantKeepsBounds(store: Store, grants: seq<Grant>, g: Grant)
    requires WithinGrants(store, grants)
    ensures WithinGrants(store, grants + [g])
    ensures forall c :: LastGrant(grants, c).Some? ==> LastGrant(grants + [g], c).Some?
  {
    forall c
      ensures CountOf(store, c) <= MaxGranted(grants + [g], c) &&
        (LastGrant(grants, c).Some? ==> LastGrant(grants + [g], c).Some?)
    {
      MaxGrantedGrows(grants, g, c);
      LastGrantOneMore(grants, g, c);
    }
  }

  lemma LogInKeepsInv(g: Gate, sock: nat, client: string, key: string, q: Inquiry)
    requires Inv(g) && InOrder(g, q)
    ensures Inv(LogIn(g, sock, client, key, q))
  {
    hide Agree, WithinGrants, Reflects, LastGrant, IsHit, Granted;
    var h := LogIn(g, sock, client, key, q);
    CacheReflectsAfter(g.cache, g.grants, client, key, q.now, q.reply, q.later);
    ReflectsAt(g.cache, g.grants, client);
    ReflectsAt(h.cache, h.grants, client);
    if h.grants != g.grants {
      var new' := h.grants[|g.grants|];
      assert h.grants == g.grants + [new'];
      GrantKeepsBounds(g.store, g.grants, new');
    }
    HitIsKnown(g.cache, client, key, q.now);
  }

  lemma HitIsKnown(cache: Cache, client: string, key: string, now: int)
    ensures IsHit(cache, client, key, now) ==> client in cache
  {
  }

  lemma RequestKeepsInv(g: Gate, step: Step, context: Context)
    requires Inv(g) && Enabled(g, step) && (step.Create? || step.Close? || step.SetContext?)
    ensures Inv(Request(g, step, context))
  {
    var data, a := g.sockets[step.sock], AnswerTo(g, step);
    match a
    case SessionCreated(id, model) =>
      CreateKeepsAgreement(g.store, data.client, id, model);
      LastIsAtMostMax(g.grants, data.client);
    case SessionClosed(id) =>
      CloseKeepsAgreement(g.store, id);
    case ContextSet(id) =>
      UpdateKeepsAgreement(g.store, id, g.store.sessions[id].(context := context));
    case _ =>
  }

  lemma StepKeepsInv(g: Gate, step: Step)
    requires Inv(g) && Enabled(g, step)
    ensures Inv(Apply(g, step))
  {
    match step
    case Connect(sock, client, key, q) => LogInKeepsInv(g, sock, client, key, q);
    case Auth(sock, client, key, q) =>
      if client.Given? && key.Given? { LogInKeepsInv(g, sock, client.value, key.value, q); }
    case Create(_, _, _, _) => RequestKeepsInv(g, step, []);
    case Close(_, _) => RequestKeepsInv(g, step, []);
    case SetContext(_, _, context) => RequestKeepsInv(g, step, if context.Given? then context.value else []);
    case Abort(id) =>
      if id in g.store.sessions { UpdateKeepsAgreement(g.store, id, g.store.sessions[id].(aborted := true)); }
    case Disconnect(_) =>
    case CloseClient(client) => CloseClientKeepsAgreement(g.store, client);
    case CloseAll =>
  }

  lemma {:induction false} RunKeepsInv(g: Gate, steps: seq<Step>, h: Gate)
    requires Inv(g) && Runs(g, steps, h)
    ensures Inv(h)
    decreases |steps|
  {
    if steps != [] {
      StepKeepsInv(g, steps[0]);
      RunKeepsInv(Apply(g, steps[0]), steps[1..], h);
    }
  }

  // ---- Main results --------------------------------------------------------------------------

  /** In every reachable state the two session indexes agree, the total is the sum of the
      clients' counts, and no client is over the most it was ever granted. */
  lemma StoreIsSound(socks: set<nat>, clock: int, steps: seq<Step>, g: Gate)
    requires Runs(Init(socks, clock), steps, g)
    ensures Agree(g.store) && |g.store.sessions| == SumOf(g.store, g.store.lists.Keys)
    ensures forall c :: CountOf(g.store, c) <= MaxGranted(g.grants, c)
  {
    RunKeepsInv(Init(socks, clock), steps, g);
    TotalIsSum(g.store);
  }

  /** A successful create leaves the client within its latest grant. */
  lemma CreateRespectsLatestGrant(socks: set<nat>, clock: int, steps: seq<Step>, g: Gate, step: Step)
    requires Runs(Init(socks, clock), steps, g) && Enabled(g, step) && step.Create? && AnswerTo(g, step).SessionCreated?
    ensures var c := g.sockets[step.sock].client; var l := LastGrant(g.grants, c);
      l.Some? && CountOf(Apply(g, step).store, c) <= l.value.maxSessions && Owns(Apply(g, step).store, c, step.unusedId)
  {
    RunKeepsInv(Init(socks, clock), steps, g);
    CreateKeepsAgreement(g.store, g.sockets[step.sock].client, step.unusedId, step.model.value);
  }

  /** A socket that acts for a client does so because the database accepted that client at
      some point of the run. */
  lemma SocketsWereAccepted(socks: set<nat>, clock: int, steps: seq<Step>, g: Gate, sock: nat)
    requires Runs(Init(socks, clock), steps, g) && sock in g.sockets && g.sockets[sock].authenticated
    ensures exists a :: a in g.grants && a.client == g.sockets[sock].client && a.config.lastValidated <= g.clock
  {
    RunKeepsInv(Init(socks, clock), steps, g);
    var c := g.sockets[sock].client;
    LastGrantIsAGrant(g.grants, c);
    assert Grant(c, LastGrant(g.grants, c).value) in g.grants;
  }

  /** The credentials that a step presents for a socket that has not authenticated. */
  function Credentials(g: Gate, step: Step): Option<(string, string)>
    requires Enabled(g, step)
  {
    match step
    case Connect(_, client, key, _) => if client != "" && key != "" then Some((client, key)) else None
    case Auth(sock, client, key, _) =>
      if !g.sockets[sock].authenticated && client.Given? && key.Given? then Some((client.value, key.value)) else None
    case _ => None
  }

  /** Over every run, a step that presents credentials makes the socket the client's exactly
      if the database accepts them in this call or its latest acceptance of the client was of
      this very key within 15 minutes; no other socket changes. A login step that presents
      none changes nothing. */
  lemma LoginExactly(socks: set<nat>, clock: int, steps: seq<Step>, g: Gate, step: Step)
    requires Runs(Init(socks, clock), steps, g) && Enabled(g, step) && (step.Connect? || step.Auth?)
    ensures Credentials(g, step).None? ==> Apply(g, step) == g
    ensures Credentials(g, step).Some? ==> var (client, key) := Credentials(g, step).value;
      var last := LastGrant(g.grants, client);
      var recent := last.Some? && last.value.apiKey == key && step.q.now - last.value.lastValidated < 900_000_000_000;
      Apply(g, step).sockets ==
        if Granted(step.q.reply).Some? || recent then g.sockets[step.sock := Socket(client, true)] else g.sockets
  {
    hide Granted, LastGrant, Reflects;
    if Credentials(g, step).Some? {
      var (client, key) := Credentials(g, step).value;
      AuthenticationIsRecent(socks, clock, steps, g, client, key, step.q);
    }
  }

  /** The step logs the socket in for the client with credentials that the database accepts
      in this call, or had accepted less than 15 minutes before it. */
  ghost predicate LogsIn(g: Gate, step: Step, sock: nat, client: string) {
    Enabled(g, step) && (step.Connect? || step.Auth?) && step.sock == sock && Credentials(g, step).Some? &&
    var (c, key) := Credentials(g, step).value;
    c == client &&
    (Granted(step.q.reply).Some? ||
     exists a :: a in g.grants && a.client == client && a.config.apiKey == key &&
                 step.q.now - a.config.lastValidated < 900_000_000_000)
  }

  /** Some step of the run logged the socket in for the client. */
  ghost predicate WasLoggedIn(g: Gate, steps: seq<Step>, sock: nat, client: string) {
    exists i, h :: 0 <= i < |steps| && Runs(g, steps[..i], h) && LogsIn(h, steps[i], sock, client)
  }

  /** A socket that acts for a client was logged in by a step of the run that presented that
      client and a key which the database accepted in that call or within 15 minutes before. */
  lemma SocketsWereLoggedIn(socks: set<nat>, clock: int, steps: seq<Step>, g: Gate, sock: nat)
    requires Runs(Init(socks, clock), steps, g) && sock in g.sockets && g.sockets[sock].authenticated
    ensures WasLoggedIn(Init(socks, clock), steps, sock, g.sockets[sock].client)
  {
    LoggedInDuring(Init(socks, clock), steps, g, sock);
  }

  predicate ActsFor(g: Gate, sock: nat, client: string) {
    sock in g.sockets && g.sockets[sock] == Socket(client, true)
  }

  lemma {:induction false} LoggedInDuring(g: Gate, steps: seq<Step>, h: Gate, sock: nat)
    requires Inv(g) && Runs(g, steps, h) && sock in h.sockets && h.sockets[sock].authenticated
    ensures var c := h.sockets[sock].client; ActsFor(g, sock, c) || WasLoggedIn(g, steps, sock, c)
    decreases |steps|
  {
    hide Inv, Enabled, Apply, LogsIn;
    if steps != [] {
      var c, u := h.sockets[sock].client, Apply(g, steps[0]);
      StepKeepsInv(g, steps[0]);
      LoggedInDuring(u, steps[1..], h, sock);
      if ActsFor(u, sock, c) {
        StepLogsIn(g, steps[0], sock, c);
        assert steps[..0] == [] && Runs(g, steps[..0], g);
      } else {
        LoggedInLater(g, steps, sock, c);
      }
    }
  }

  lemma LoggedInLater(g: Gate, steps: seq<Step>, sock: nat, client: string)
    requires steps != [] && Enabled(g, steps[0]) && WasLoggedIn(Apply(g, steps[0]), steps[1..], sock, client)
    ensures WasLoggedIn(g, steps, sock, client)
  {
    hide Enabled, Apply, LogsIn;
    var rest := steps[1..];
    var i, h :| 0 <= i < |rest| && Runs(Apply(g, steps[0]), rest[..i], h) && LogsIn(h, rest[i], sock, client);
    assert steps[..i + 1][1..] == rest[..i] && steps[i + 1] == rest[i];
    assert Runs(g, steps[..i + 1], h);
  }

  lemma StepLogsIn(g: Gate, step: Step, sock: nat, client: string)
    requires Inv(g) && Enabled(g, step) && ActsFor(Apply(g, step), sock, client)
    ensures ActsFor(g, sock, client) || LogsIn(g, step, sock, client)
  {
    hide Granted, LastGrant, Agree, WithinGrants, CacheAfter, GrantsAfter;
    if Credentials(g, step).Some? {
      var (c, key) := Credentials(g, step).value;
      ReflectsAt(g.cache, g.grants, c);
      if c in g.cache {
        FreshIsUnderTtl(step.q.now, g.cache[c].lastValidated);
        assert Grant(c, g.cache[c]) in g.grants;
      }
    }
  }

  /** Over every run with a clock that does not go back: an authentication succeeds exactly
      when the database accepts the pair in this very call, or its latest acceptance of
      the client was of this very key and less than 15 minutes ago; and a client exists
      exactly when it was accepted at some point. */
  lemma AuthenticationIsRecent(socks: set<nat>, clock: int, steps: seq<Step>, g: Gate,
                               client: string, key: string, q: Inquiry)
    requires Runs(Init(socks, clock), steps, g) && InOrder(g, q)
    ensures Succeeds(g.cache, client, key, q.now, q.reply) <==>
      Granted(q.reply).Some? || IsRecent(LastGrant(g.grants, client), key, q.now)
    ensures Succeeds(g.cache, client, key, q.now, q.reply) && Granted(q.reply).None? ==>
      exists a :: a in g.grants && a.client == client &&
                  IsRecent(Some(a.config), key, q.now) && a.config.lastValidated <= q.now
    ensures client in g.cache <==> exists a :: a in g.grants && a.client == client
  {
    RunKeepsInv(Init(socks, clock), steps, g);
    ReflectsAt(g.cache, g.grants, client);
    LastGrantIsAGrant(g.grants, client);
    if client in g.cache {
      FreshIsUnderTtl(q.now, g.cache[client].lastValidated);
      assert Grant(client, g.cache[client]) in g.grants;
    }
  }

  /** The step is not a request of the client itself, and does not close its sessions from
      inside the server. */
  predicate Foreign(g: Gate, step: Step, client: string)
    requires Enabled(g, step)
  {
    match step
    case Create(sock, _, _, _) => !g.sockets[sock].authenticated || g.sockets[sock].client != client
    case Close(sock, _) => !g.sockets[sock].authenticated || g.sockets[sock].client != client
    case SetContext(sock, _, _) => !g.sockets[sock].authenticated || g.sockets[sock].client != client
    case CloseClient(c) => c != client
    case CloseAll => false
    case _ => true
  }

  predicate AllForeign(g: Gate, steps: seq<Step>, client: string)
    decreases |steps|
  {
    steps == [] ||
    (Enabled(g, steps[0]) && Foreign(g, steps[0], client) && AllForeign(Apply(g, steps[0]), steps[1..], client))
  }

  /** The client has the same sessions, with the same models and contexts. */
  ghost predicate SameSessions(s: Store, t: Store, client: string) {
    forall id ::
      (Owns(s, client, id) <==> Owns(t, client, id)) &&
      (Owns(s, client, id) ==>
         t.sessions[id].context == s.sessions[id].context && t.sessions[id].model == s.sessions[id].model)
  }

  lemma ForeignStep(g: Gate, step: Step, client: string)
    requires Inv(g) && Enabled(g, step) && Foreign(g, step, client)
    ensures SameSessions(g.store, Apply(g, step).store, client)
  {
    hide Inv, SameSessions;
    if step.Create? || step.Close? || step.SetContext? {
      ForeignRequest(g, step, client, if step.SetContext? && step.context.Given? then step.context.value else []);
    } else {
      ForeignOther(g, step, client);
    }
  }

  lemma ForeignRequest(g: Gate, step: Step, client: string, context: Context)
    requires Enabled(g, step) && Foreign(g, step, client) && (step.Create? || step.Close? || step.SetContext?)
    ensures SameSessions(g.store, Request(g, step, context).store, client)
  {
    hide SameSessions, Effect;
    var data, a := g.sockets[step.sock], AnswerTo(g, step);
    if Changes(a) {
      AnswerIsOwn(g, step);
      ForeignEffect(g.store, data.client, a, context, client);
    } else {
      NoEffect(g.store, data.client, a, context, client);
    }
  }

  /** The answer says that the store was changed. */
  predicate Changes(a: Answer) {
    a.SessionCreated? || a.SessionClosed? || a.ContextSet?
  }

  lemma AnswerIsOwn(g: Gate, step: Step)
    requires Enabled(g, step) && (step.Create? || step.Close? || step.SetContext?) && Changes(AnswerTo(g, step))
    ensures var data, a := g.sockets[step.sock], AnswerTo(g, step);
      data.authenticated && if a.SessionCreated? then a.id !in g.store.sessions else Owns(g.store, data.client, a.id)
  {
    hide MayCreate, Effect;
  }

  lemma ForeignEffect(s: Store, owner: string, a: Answer, context: Context, client: string)
    requires owner != client && Changes(a)
    requires if a.SessionCreated? then a.id !in s.sessions else Owns(s, owner, a.id)
    ensures SameSessions(s, Effect(s, owner, a, context), client)
  {
  }

  lemma NoEffect(s: Store, owner: string, a: Answer, context: Context, client: string)
    requires !Changes(a)
    ensures SameSessions(s, Effect(s, owner, a, context), client)
  {
  }

  lemma ForeignOther(g: Gate, step: Step, client: string)
    requires Inv(g) && Enabled(g, step) && Foreign(g, step, client)
    requires !step.Create? && !step.Close? && !step.SetContext?
    ensures SameSessions(g.store, Apply(g, step).store, client)
  {
    hide Reflects, AllBefore, WithinGrants, SocketsAreKnown, Agree, CacheAfter, GrantsAfter, Succeeds;
    if step.CloseClient? { CloseClientKeepsAgreement(g.store, step.client); }
  }

  /** Over every run, what others do never takes a session from a client, gives it one, or
      changes the stored context of one. */
  lemma {:induction false} OthersCannotTouch(g: Gate, steps: seq<Step>, h: Gate, client: string)
    requires Inv(g) && Runs(g, steps, h) && AllForeign(g, steps, client)
    ensures SameSessions(g.store, h.store, client)
    decreases |steps|
  {
    if steps != [] {
      ForeignStep(g, steps[0], client);
      StepKeepsInv(g, steps[0]);
      OthersCannotTouch(Apply(g, steps[0]), steps[1..], h, client);
    }
  }

  /** A request on a socket that has not authenticated changes nothing and is refused. */
  lemma StrangersTouchNothing(g: Gate, step: Step)
    requires Enabled(g, step) && (step.Create? || step.Close? || step.SetContext?)
    requires !g.sockets[step.sock].authenticated
    ensures Apply(g, step) == g && AnswerTo(g, step).Refused? && AnswerTo(g, step).code == NOT_AUTHENTICATED
  {
  }

  /** The session a request names, or creates. */
  function Named(step: Step): Option<SessionId>
    requires step.Create? || step.Close? || step.SetContext?
  {
    match step
    case Create(_, id, _, _) => Some(id)
    case Close(_, field) => if field.Given? then Some(field.value) else None
    case SetContext(_, field, _) => if field.Given? then Some(field.value) else None
  }

  /** The session with this id is the same in both stores, or in neither. */
  predicate SameAt(s: Store, t: Store, id: SessionId) {
    (id in s.sessions <==> id in t.sessions) && (id in s.sessions ==> t.sessions[id] == s.sessions[id])
  }

  /** A request touches no session but the one it names, also of the same client; a created
      session is the client's, with the live model and no context; a stored context is the
      one that was sent. */
  lemma RequestsTouchOneSession(g: Gate, step: Step)
    requires Enabled(g, step) && (step.Create? || step.Close? || step.SetContext?)
    ensures forall id :: Some(id) != Named(step) ==> SameAt(g.store, Apply(g, step).store, id)
    ensures var s, t := g.store.sessions, Apply(g, step).store.sessions;
      match AnswerTo(g, step)
      case SessionCreated(id, model) =>
        Some(id) == Named(step) && id in t && t[id] == SessionEntry(g.sockets[step.sock].client, model, [], false)
      case ContextSet(id) =>
        Some(id) == Named(step) && id in s && id in t &&
        step.context.Given? && t[id] == s[id].(context := step.context.value)
      case SessionClosed(id) => Some(id) == Named(step) && id in s && id !in t
      case _ => t == s
  {
  }

  /** After the client's own close the id is gone from both maps. */
  lemma CloseRemoves(g: Gate, step: Step)
    requires Inv(g) && Enabled(g, step) && step.Close? && AnswerTo(g, step).SessionClosed?
    ensures var c, id := g.sockets[step.sock].client, step.field.value; var t := Apply(g, step).store;
      id !in t.sessions && (forall d :: !Listed(t, d, id)) && CountOf(t, c) == CountOf(g.store, c) - 1
  {
    var t := Apply(g, step).store;
    CloseKeepsAgreement(g.store, step.field.value);
    forall d ensures !Listed(t, d, step.field.value) {
      assert Listed(t, d, step.field.value) <==> Owns(t, d, step.field.value);
    }
  }

  /** Which answer each request gets: a create succeeds exactly within the latest grant, with a
      model and a context; a close and a stored context exactly for a session of the socket's
      client; and each refusal has its reason. */
  lemma RequestsAreAnswered(g: Gate, step: Step)
    requires Inv(g) && Enabled(g, step) && (step.Create? || step.Close? || step.SetContext?)
    ensures var s, data, a := g.store.sessions, g.sockets[step.sock], AnswerTo(g, step);
      match step
      case Create(_, id, model, contextOk) =>
        var grant, owned := LastGrant(g.grants, data.client), set k | k in s && s[k].client == data.client;
        a == if !data.authenticated then Refused(SESSION_ERROR, NOT_AUTHENTICATED)
             else if grant.Some? && |owned| < grant.value.maxSessions && model.Some? && contextOk then
               SessionCreated(id, model.value)
             else Refused(SESSION_ERROR, SESSION_LIMIT_REACHED)
      case Close(_, field) =>
        a == if !data.authenticated then Refused(ERROR, NOT_AUTHENTICATED)
             else if field.Missing? then Refused(ERROR, MISSING_FIELDS)
             else if field.BadType? then Malformed
             else if field.value in s && s[field.value].client == data.client then SessionClosed(field.value)
             else Refused(ERROR, SESSION_NOT_FOUND)
      case SetContext(_, field, context) =>
        a == if !data.authenticated then Refused(CONTEXT_ERROR, NOT_AUTHENTICATED)
             else if field.Missing? then Refused(CONTEXT_ERROR, MISSING_FIELDS)
             else if field.BadType? then Malformed
             else if field.value !in s || s[field.value].client != data.client then
               Refused(CONTEXT_ERROR, SESSION_NOT_FOUND)
             else if context.Missing? then Refused(CONTEXT_ERROR, MISSING_FIELDS)
             else if context.BadType? then Malformed
             else ContextSet(field.value)
  {
    if step.Create? {
      var client := g.sockets[step.sock].client;
      IdsOfOne(g.store, client, set k | k in g.store.sessions && g.store.sessions[k].client == client);
    }
  }

  /** What the server does on its own: an abort marks that session and nothing else, a
      disconnect takes away that socket, and closing takes exactly the sessions it says. */
  lemma ServerStepsExactly(g: Gate, step: Step)
    requires Inv(g) && Enabled(g, step)
    ensures var h := Apply(g, step);
      match step
      case Abort(id) =>
        h == g.(store := h.store) && h.store.lists == g.store.lists &&
        h.store.sessions ==
          if id in g.store.sessions then g.store.sessions[id := g.store.sessions[id].(aborted := true)]
          else g.store.sessions
      case Disconnect(sock) => h == g.(sockets := g.sockets - {sock})
      case CloseClient(c) =>
        h == g.(store := h.store) && c !in h.store.lists &&
        h.store.sessions ==
          map id | id in g.store.sessions && g.store.sessions[id].client != c :: g.store.sessions[id]
      case CloseAll => h == g.(store := Store(map[], map[]))
      case _ => true
  {
    if step.CloseClient? { ClosedAreOwned(g.store, step.client); }
  }
}
