/** The session store: two maps that index each other. */
module SessionManager {
  import opened ClientAuth
  import opened Options

  type SessionId = string

  datatype ChatMessage = ChatMessage(role: string, content: string)

  type Context = seq<ChatMessage>

  datatype SessionEntry = SessionEntry(client: string, model: string, context: Context, aborted: bool)

  /** `sessions` by id, and the ids of each client. */
  datatype Store = Store(sessions: map<SessionId, SessionEntry>, lists: map<string, seq<SessionId>>)

  const Empty := Store(map[], map[])

  // ---- Agreement of the two maps ---------------------------------------------------------

  function ListOf(s: Store, client: string): seq<SessionId> {
    if client in s.lists then s.lists[client] else []
  }

  predicate NoDuplicates(list: seq<SessionId>) {
    forall i, j :: 0 <= i < j < |list| ==> list[i] != list[j]
  }

  predicate Listed(s: Store, client: string, id: SessionId) {
    id in ListOf(s, client)
  }

  predicate Owns(s: Store, client: string, id: SessionId) {
    id in s.sessions && s.sessions[id].client == client
  }

  /** An id is in the list of a client exactly when it is a live session of that client;
      lists have no duplicates and none is empty. */
  ghost predicate Agree(s: Store) {
    && (forall c, id :: Listed(s, c, id) <==> Owns(s, c, id))
    && (forall c :: c in s.lists ==> s.lists[c] != [] && NoDuplicates(s.lists[c]))
  }

  function CountOf(s: Store, client: string): nat {
    |ListOf(s, client)|
  }

  // ---- The operations on values -------------------------------------------------------------

  function Created(s: Store, client: string, id: SessionId, model: string): Store {
    Store(s.sessions[id := SessionEntry(client, model, [], false)], s.lists[client := ListOf(s, client) + [id]])
  }

  /** The list without every occurrence of `id`: `std::remove` and `erase`. */
  function Without(list: seq<SessionId>, id: SessionId): (r: seq<SessionId>)
    ensures forall x :: x in r <==> x in list && x != id
    ensures NoDuplicates(list) ==> NoDuplicates(r) && |r| == if id in list then |list| - 1 else |list|
  {
    if list == [] then []
    else if list[0] == id then
      assert NoDuplicates(list) ==> NoDuplicates(list[1..]) && id !in list[1..];
      Without(list[1..], id)
    else
      assert NoDuplicates(list) ==> NoDuplicates(list[1..]) && list[0] !in list[1..];
      [list[0]] + Without(list[1..], id)
  }

  function Closed(s: Store, id: SessionId): Store {
    if id !in s.sessions then s
    else
      var c := s.sessions[id].client;
      var rest := Without(ListOf(s, c), id);
      Store(s.sessions - {id}, if rest == [] then s.lists - {c} else s.lists[c := rest])
  }

  function ClientClosed(s: Store, client: string): Store {
    Store(s.sessions - (set id | id in ListOf(s, client)), s.lists - {client})
  }

  function ContextChanged(s: Store, id: SessionId, context: Context): Store {
    if id in s.sessions then s.(sessions := s.sessions[id := s.sessions[id].(context := context)]) else s
  }

  function AbortMarked(s: Store, id: SessionId): Store {
    if id in s.sessions then s.(sessions := s.sessions[id := s.sessions[id].(aborted := true)]) else s
  }

  lemma CreateKeepsAgreement(s: Store, client: string, id: SessionId, model: string)
    requires Agree(s) && id !in s.sessions
    ensures Agree(Created(s, client, id, model))
    ensures forall c :: CountOf(Created(s, client, id, model), c) == CountOf(s, c) + if c == client then 1 else 0
  {
    var t := Created(s, client, id, model);
    forall c, k ensures Listed(t, c, k) <==> Owns(t, c, k) {
      assert Listed(s, c, k) <==> Owns(s, c, k);
    }
    assert !Owns(s, client, id) && !Listed(s, client, id);
  }

  lemma CloseKeepsAgreement(s: Store, id: SessionId)
    requires Agree(s)
    ensures Agree(Closed(s, id))
    ensures forall c :: CountOf(Closed(s, id), c) == CountOf(s, c) - if Owns(s, c, id) then 1 else 0
  {
    var t := Closed(s, id);
    if id in s.sessions { assert Owns(s, s.sessions[id].client, id) && Listed(s, s.sessions[id].client, id); }
    forall c, k ensures Listed(t, c, k) <==> Owns(t, c, k) {
      assert Listed(s, c, k) <==> Owns(s, c, k);
    }
  }

  lemma CloseClientKeepsAgreement(s: Store, client: string)
    requires Agree(s)
    ensures Agree(ClientClosed(s, client))
    ensures forall c :: CountOf(ClientClosed(s, client), c) == if c == client then 0 else CountOf(s, c)
    ensures forall c, id :: Owns(ClientClosed(s, client), c, id) <==> Owns(s, c, id) && c != client
  {
    var t := ClientClosed(s, client);
    forall c, k ensures (Listed(t, c, k) <==> Owns(t, c, k)) && (Owns(t, c, k) <==> Owns(s, c, k) && c != client) {
      assert Listed(s, c, k) <==> Owns(s, c, k);
      assert Listed(s, client, k) <==> Owns(s, client, k);
    }
  }

  lemma UpdateKeepsAgreement(s: Store, id: SessionId, new': SessionEntry)
    requires Agree(s) && id in s.sessions && new'.client == s.sessions[id].client
    ensures Agree(s.(sessions := s.sessions[id := new']))
  {
    var t := s.(sessions := s.sessions[id := new']);
    forall c, k ensures Listed(t, c, k) <==> Owns(t, c, k) {
      assert Listed(s, c, k) <==> Owns(s, c, k);
    }
  }

  /** Closing a client takes exactly the sessions it owns. */
  lemma ClosedAreOwned(s: Store, client: string)
    requires Agree(s)
    ensures ClientClosed(s, client).sessions ==
      map id | id in s.sessions && s.sessions[id].client != client :: s.sessions[id]
  {
    forall id ensures id in ListOf(s, client) <==> Owns(s, client, id) {
      assert Listed(s, client, id) <==> Owns(s, client, id);
    }
  }

  // ---- The total is the sum of the clients' counts ----------------------------------------------

  ghost function Pick(cs: set<string>): (c: string)
    requires cs != {}
    ensures c in cs
  {
    var c :| c in cs; c
  }

  /** The sum of the counts of some clients. */
  ghost function SumOf(s: Store, cs: set<string>): nat {
    if cs == {} then 0 else var c := Pick(cs); CountOf(s, c) + SumOf(s, cs - {c})
  }

  lemma {:induction false} DistinctIdsCount(list: seq<SessionId>, ids: set<SessionId>)
    requires NoDuplicates(list) && forall id :: id in ids <==> id in list
    ensures |ids| == |list|
  {
    if list == [] {
      assert ids == {};
    } else {
      assert list == [list[0]] + list[1..];
      DistinctIdsCount(list[1..], ids - {list[0]});
    }
  }

  /** The ids of the sessions of some clients. */
  ghost function IdsOf(s: Store, cs: set<string>): set<SessionId> {
    set id | id in s.sessions && s.sessions[id].client in cs
  }

  lemma {:induction false} IdsOfClients(s: Store, cs: set<string>)
    requires Agree(s)
    ensures |IdsOf(s, cs)| == SumOf(s, cs)
    decreases cs
  {
    if cs == {} {
      assert IdsOf(s, cs) == {};
    } else {
      hide Agree, CountOf;
      var c := Pick(cs);
      IdsOfOne(s, c, IdsOf(s, {c}));
      IdsOfClients(s, cs - {c});
      assert IdsOf(s, cs) == IdsOf(s, {c}) + IdsOf(s, cs - {c});
      assert IdsOf(s, {c}) !! IdsOf(s, cs - {c});
    }
  }

  lemma IdsOfOne(s: Store, client: string, ids: set<SessionId>)
    requires Agree(s) && forall id :: id in ids <==> Owns(s, client, id)
    ensures |ids| == CountOf(s, client)
  {
    forall id ensures id in ids <==> id in ListOf(s, client) {
      assert Listed(s, client, id) <==> Owns(s, client, id);
    }
    DistinctIdsCount(ListOf(s, client), ids);
  }

  /** The number of sessions is the sum of the counts of the clients that have any. */
  lemma TotalIsSum(s: Store)
    requires Agree(s)
    ensures |s.sessions| == SumOf(s, s.lists.Keys)
  {
    forall id | id in s.sessions ensures s.sessions[id].client in s.lists.Keys {
      assert Owns(s, s.sessions[id].client, id) && Listed(s, s.sessions[id].client, id);
    }
    assert IdsOf(s, s.lists.Keys) == s.sessions.Keys;
    IdsOfClients(s, s.lists.Keys);
    assert |s.sessions| == |s.sessions.Keys|;
  }

  // ---- The manager object ---------------------------------------------------------------------------

  class SessionManager {
    var sessions: map<SessionId, SessionEntry>
    var clientSessions: map<string, seq<SessionId>>

    ghost function State(): Store
      reads this
    {
      Store(sessions, clientSessions)
    }

    ghost predicate Valid()
      reads this
    {
      Agree(State())
    }

    constructor ()
      ensures Valid() && State() == Empty
    {
      sessions, clientSessions := map[], map[];
    }

    /** `unusedId` stands for the random id that the source draws until it is unused;
        `model` is the engine's live model, and `contextOk` whether llama.cpp could create a
        context for it. The empty string reports failure. */
    method CreateSession(auth: ClientAuth?, client: string, unusedId: SessionId, model: Option<string>, contextOk: bool)
      returns (r: SessionId)
      requires Valid() && (auth != null ==> auth.Valid()) && unusedId != "" && unusedId !in sessions
      modifies this
      ensures Valid()
      ensures var grant := if auth == null then None else LastGrant(auth.grants, client);
        var ok := grant.Some? && CountOf(old(State()), client) < grant.value.maxSessions && model.Some? && contextOk;
        r == (if ok then unusedId else "") &&
        State() == (if ok then Created(old(State()), client, unusedId, model.value) else old(State())) &&
        (ok ==> CountOf(State(), client) <= grant.value.maxSessions) &&
        sessions ==
          if ok then old(sessions)[unusedId := SessionEntry(client, model.value, [], false)] else old(sessions)
    {
      if auth == null { return ""; }
      var exists' := auth.ClientExists(client);
      if !exists' { return ""; }
      var config := auth.GetClientConfig(client);
      var currentCount := if client in clientSessions then |clientSessions[client]| else 0;
      if currentCount >= config.maxSessions { return ""; }
      if model.None? || !contextOk { return ""; }
      CreateKeepsAgreement(State(), client, unusedId, model.value);
      sessions := sessions[unusedId := SessionEntry(client, model.value, [], false)];
      var list := if client in clientSessions then clientSessions[client] else [];
      clientSessions := clientSessions[client := list + [unusedId]];
      return unusedId;
    }

    method GetSession(id: SessionId) returns (r: Option<SessionEntry>)
      ensures r == if id in sessions then Some(sessions[id]) else None
    {
      return if id in sessions then Some(sessions[id]) else None;
    }

    method CloseSession(id: SessionId) returns (r: bool)
      requires Valid()
      modifies this
      ensures Valid() && State() == Closed(old(State()), id) && (r <==> id in old(sessions))
      ensures sessions == old(sessions) - {id}
    {
      hide Agree;
      CloseKeepsAgreement(State(), id);
      if id !in sessions { return false; }
      var client := sessions[id].client;
      sessions := sessions - {id};
      if client in clientSessions {
        var sessionList := Without(clientSessions[client], id);
        clientSessions :=
          if sessionList == [] then clientSessions - {client} else clientSessions[client := sessionList];
      }
      assert State() == Closed(old(State()), id);
      return true;
    }

    method SetSessionContext(id: SessionId, context: Context) returns (r: bool)
      requires Valid()
      modifies this`sessions
      ensures Valid() && State() == ContextChanged(old(State()), id, context) && (r <==> id in sessions)
      ensures sessions ==
        if id in old(sessions) then old(sessions)[id := old(sessions)[id].(context := context)] else old(sessions)
    {
      if id !in sessions { return false; }
      UpdateKeepsAgreement(State(), id, sessions[id].(context := context));
      sessions := sessions[id := sessions[id].(context := context)];
      return true;
    }

    method AbortSession(id: SessionId) returns (r: bool)
      requires Valid()
      modifies this`sessions
      ensures Valid() && State() == AbortMarked(old(State()), id) && (r <==> id in sessions)
      ensures sessions ==
        if id in old(sessions) then old(sessions)[id := old(sessions)[id].(aborted := true)] else old(sessions)
    {
      if id !in sessions { return false; }
      UpdateKeepsAgreement(State(), id, sessions[id].(aborted := true));
      sessions := sessions[id := sessions[id].(aborted := true)];
      return true;
    }

    method CloseClientSessions(client: string)
      requires Valid()
      modifies this
      ensures Valid() && State() == ClientClosed(old(State()), client)
      ensures sessions == map id | id in old(sessions) && old(sessions)[id].client != client :: old(sessions)[id]
    {
      CloseClientKeepsAgreement(State(), client);
      ClosedAreOwned(State(), client);
      if client !in clientSessions {
        assert sessions - (set id | id in ListOf(State(), client)) == sessions;
        assert clientSessions - {client} == clientSessions;
        return;
      }
      var sessionIds := clientSessions[client];
      for i := 0 to |sessionIds|
        invariant sessions == old(sessions) - (set id | id in sessionIds[..i]) && clientSessions == old(clientSessions)
      {
        assert sessionIds[..i + 1] == sessionIds[..i] + [sessionIds[i]];
        sessions := sessions - {sessionIds[i]};
      }
      assert sessionIds[..|sessionIds|] == sessionIds;
      clientSessions := clientSessions - {client};
    }

    method CloseAllSessions()
      modifies this
      ensures Valid() && State() == Empty && sessions == map[] && clientSessions == map[]
    {
      sessions := map[];
      clientSessions := map[];
    }

    method GetClientSessionCount(client: string) returns (n: nat)
      requires Valid()
      ensures n == |set id | id in sessions && sessions[id].client == client|
    {
      n := if client in clientSessions then |clientSessions[client]| else 0;
      IdsOfOne(State(), client, set id | id in sessions && sessions[id].client == client);
    }

    method GetTotalSessionCount() returns (n: nat)
      requires Valid()
      ensures n == SumOf(State(), clientSessions.Keys)
    {
      TotalIsSum(State());
      n := |sessions|;
    }
  }
}
