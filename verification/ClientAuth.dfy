/** The authentication cache: answers of the client database, trusted for 15 minutes. The
    clock and the database are arbitrary inputs. */
module ClientAuth {

  import opened Options

  /** An answer of the database. A body that is not JSON, or whose fields have other types,
      throws while it is read. */
  datatype Reply = NoResponse | Response(status: int, body: Body)

  datatype Body =
    | Unreadable
    | Json(hasError: bool, authorized: Option<bool>, hasConfig: bool, configMax: Option<int>, topMax: Option<int>)

  /** The `max_sessions` that an accepting answer grants. An answer that does not say
      whether the client is authorized accepts it. */
  function Granted(reply: Reply): Option<int> {
    if reply.NoResponse? || reply.status != 200 || reply.body.Unreadable? then None
    else if reply.body.hasError || !GetOr(reply.body.authorized, true) then None
    else Some(GetOr(if reply.body.hasConfig then reply.body.configMax else reply.body.topMax, 1))
  }

  /** Which answers grant, and what: status 200 with a readable body that has no `error`, and
      in which `authorized` is absent or true; the number is that of `config` if it is there
      and that of the top level if not, and 1 if neither says. */
  lemma GrantedExactly(reply: Reply)
    ensures Granted(reply).Some? <==>
      reply.Response? && reply.status == 200 && reply.body.Json? && !reply.body.hasError &&
      reply.body.authorized != Some(false)
    ensures Granted(reply).Some? ==> var b, max := reply.body, Granted(reply).value;
      (b.hasConfig && b.configMax.Some? ==> max == b.configMax.value) &&
      (!b.hasConfig && b.topMax.Some? ==> max == b.topMax.value) &&
      ((if b.hasConfig then b.configMax else b.topMax).None? ==> max == 1)
  {
  }

  // ---- Time ------------------------------------------------------------------------------

  const TicksPerMinute := 60_000_000_000
  const TtlMinutes := 15

  /** Division that truncates toward zero, as `duration_cast` does. */
  function Truncating(a: int, b: int): int
    requires b > 0
  {
    if a >= 0 then a / b else -((-a) / b)
  }

  predicate IsFresh(now: int, validated: int) {
    Truncating(now - validated, TicksPerMinute) < TtlMinutes
  }

  /** Whole minutes, rounded toward zero, are fewer than 15 exactly when less than 15
      minutes have passed. */
  lemma FreshIsUnderTtl(now: int, validated: int)
    ensures IsFresh(now, validated) <==> now - validated < TtlMinutes * TicksPerMinute
  {
  }

  // ---- The cache and the history of grants ---------------------------------------------------

  datatype Config = Config(apiKey: string, maxSessions: int, lastValidated: int)

  type Cache = map<string, Config>

  /** The database accepted a pair at some time. */
  datatype Grant = Grant(client: string, config: Config)

  /** The latest grant of a client. */
  function LastGrant(grants: seq<Grant>, client: string): Option<Config> {
    if grants == [] then None
    else
      var last := grants[|grants| - 1];
      if last.client == client then Some(last.config) else LastGrant(grants[..|grants| - 1], client)
  }

  /** The cache holds the latest grant of each client, and no other. */
  ghost predicate Reflects(cache: Cache, grants: seq<Grant>) {
    forall c :: LastGrant(grants, c) == if c in cache then Some(cache[c]) else None
  }

  predicate AllBefore(grants: seq<Grant>, clock: int) {
    forall g :: g in grants ==> g.config.lastValidated <= clock
  }

  /** A grant of this very key, less than 15 minutes before `now`. */
  predicate IsRecent(grant: Option<Config>, key: string, now: int) {
    grant.Some? && grant.value.apiKey == key && now - grant.value.lastValidated < TtlMinutes * TicksPerMinute
  }

  predicate IsHit(cache: Cache, client: string, key: string, now: int) {
    client in cache && IsFresh(now, cache[client].lastValidated) && cache[client].apiKey == key
  }

  /** The grants after an authentication: one more when the cache did not decide and the
      database accepted. */
  function GrantsAfter(cache: Cache, grants: seq<Grant>, client: string, key: string,
                       now: int, reply: Reply, later: int): seq<Grant>
  {
    if IsHit(cache, client, key, now) || Granted(reply).None? then grants
    else grants + [Grant(client, Config(key, Granted(reply).value, later))]
  }

  /** The client was granted this at `i`, and nothing later. */
  predicate LatestAt(grants: seq<Grant>, i: int, client: string, c: Config) {
    0 <= i < |grants| && grants[i] == Grant(client, c) && forall j :: i < j < |grants| ==> grants[j].client != client
  }

  lemma {:induction false} LastGrantExactly(grants: seq<Grant>, client: string, c: Config)
    ensures LastGrant(grants, client) == Some(c) <==> exists i :: LatestAt(grants, i, client, c)
  {
    if grants != [] {
      var n := |grants| - 1;
      if grants[n].client == client {
        assert LatestAt(grants, n, client, grants[n].config);
      } else {
        LastGrantExactly(grants[..n], client, c);
        forall i ensures LatestAt(grants, i, client, c) <==> LatestAt(grants[..n], i, client, c) {
        }
      }
    }
  }

  lemma LastGrantOneMore(grants: seq<Grant>, g: Grant, client: string)
    ensures LastGrant(grants + [g], client) == if g.client == client then Some(g.config) else LastGrant(grants, client)
  {
    assert (grants + [g])[..|grants|] == grants;
  }

  lemma {:induction false} LastGrantIsAGrant(grants: seq<Grant>, client: string)
    ensures var l := LastGrant(grants, client);
      (l.Some? ==> Grant(client, l.value) in grants) && (l.None? ==> forall g :: g in grants ==> g.client != client)
  {
    if grants != [] {
      LastGrantIsAGrant(grants[..|grants| - 1], client);
      assert grants == grants[..|grants| - 1] + [grants[|grants| - 1]];
    }
  }

  /** The cache after an authentication. */
  function CacheAfter(cache: Cache, client: string, key: string, now: int, reply: Reply, later: int): Cache {
    if IsHit(cache, client, key, now) || Granted(reply).None? then cache
    else cache[client := Config(key, Granted(reply).value, later)]
  }

  /** Whether an authentication succeeds. */
  predicate Succeeds(cache: Cache, client: string, key: string, now: int, reply: Reply) {
    IsHit(cache, client, key, now) || Granted(reply).Some?
  }

  lemma CacheReflectsAfter(cache: Cache, grants: seq<Grant>, client: string, key: string,
                           now: int, reply: Reply, later: int)
    requires Reflects(cache, grants)
    ensures Reflects(CacheAfter(cache, client, key, now, reply, later),
                     GrantsAfter(cache, grants, client, key, now, reply, later))
  {
    if !IsHit(cache, client, key, now) && Granted(reply).Some? {
      var g := Grant(client, Config(key, Granted(reply).value, later));
      forall c ensures LastGrant(grants + [g], c) == if c == client then Some(g.config) else LastGrant(grants, c) {
        LastGrantOneMore(grants, g, c);
      }
    }
  }

  lemma ReflectsAt(cache: Cache, grants: seq<Grant>, client: string)
    requires Reflects(cache, grants)
    ensures LastGrant(grants, client) == if client in cache then Some(cache[client]) else None
    ensures client in cache ==> Grant(client, cache[client]) in grants
  {
    LastGrantIsAGrant(grants, client);
  }

  class ClientAuth {
    var clientCache: Cache
    ghost var grants: seq<Grant>     // every pair the database accepted, oldest first
    ghost var clock: int             // the latest time read

    ghost predicate Valid()
      reads this
    {
      Reflects(clientCache, grants) && AllBefore(grants, clock)
    }

    constructor (ghost now: int)
      ensures Valid() && clientCache == map[] && grants == [] && clock == now
    {
      clientCache, grants, clock := map[], [], now;
    }

    /** `now` is the time of the cache test and `later` the time after the database has
        answered; the clock does not go back. The call succeeds exactly when the latest
        acceptance of this client was of this very key and less than 15 minutes ago, or
        the database accepts the pair in this call. */
    method Authenticate(client: string, key: string, now: int, reply: Reply, later: int) returns (ok: bool)
      requires Valid() && clock <= now <= later
      modifies this
      ensures Valid() && clock == later
      ensures clientCache == CacheAfter(old(clientCache), client, key, now, reply, later)
      ensures grants == GrantsAfter(old(clientCache), old(grants), client, key, now, reply, later)
      ensures ok <==> Granted(reply).Some? || IsRecent(LastGrant(old(grants), client), key, now)
      ensures ok ==> exists g :: g in grants && g.client == client && IsRecent(Some(g.config), key, now)
      ensures forall g :: g in grants ==> g.config.lastValidated <= clock
      ensures var last := LastGrant(old(grants), client);
        var recent := last.Some? && last.value.apiKey == key && now - last.value.lastValidated < 900_000_000_000;
        var accepted := reply.Response? && reply.status == 200 && reply.body.Json? && !reply.body.hasError &&
          reply.body.authorized != Some(false);
        (ok <==> recent || accepted) &&
        (recent || !accepted ==> grants == old(grants) && clientCache == old(clientCache)) &&
        (!recent && accepted ==>
           var said := if reply.body.hasConfig then reply.body.configMax else reply.body.topMax;
           var config := Config(key, if said.Some? then said.value else 1, later);
           grants == old(grants) + [Grant(client, config)] && clientCache == old(clientCache)[client := config])
    {
      hide Reflects;
      ReflectsAt(clientCache, grants, client);
      CacheReflectsAfter(clientCache, grants, client, key, now, reply, later);
      clock := later;
      if client in clientCache {
        FreshIsUnderTtl(now, clientCache[client].lastValidated);
        var elapsed := Truncating(now - clientCache[client].lastValidated, TicksPerMinute);
        if elapsed < TtlMinutes && clientCache[client].apiKey == key {
          assert Grant(client, clientCache[client]) in grants;
          return true;
        }
      }
      if reply.NoResponse? || reply.status != 200 { return false; }
      if reply.body.Unreadable? { return false; }
      if reply.body.hasError { return false; }
      if !GetOr(reply.body.authorized, true) { return false; }
      var maxSessions;
      if reply.body.hasConfig {
        maxSessions := GetOr(reply.body.configMax, 1);
      } else {
        maxSessions := GetOr(reply.body.topMax, 1);
      }
      var cfg := Config(key, maxSessions, later);
      clientCache := clientCache[client := cfg];
      grants := grants + [Grant(client, cfg)];
      assert Grant(client, cfg) in grants;
      return true;
    }

    /** The client was accepted at some point of the run, however long ago. */
    method ClientExists(client: string) returns (r: bool)
      requires Valid()
      ensures r <==> exists g :: g in grants && g.client == client
      ensures r <==> client in clientCache
    {
      LastGrantIsAGrant(grants, client);
      r := client in clientCache;
    }

    /** The latest grant, or the defaults for an unknown client. */
    method GetClientConfig(client: string) returns (c: Config)
      requires Valid()
      ensures c == GetOr(LastGrant(grants, client), Config("", 1, 0))
    {
      c := if client in clientCache then clientCache[client] else Config("", 1, 0);
    }
  }
}
