/** The server facade `ServerAPI` of erlc/api.py: one method per endpoint,
    and the player cache, a map from player id to player record that every
    player-list fetch replaces as a whole. */
module Api {
  import opened Responses
  import opened Decoders

  /** A decoded player. Only `id` and `name` are used by the facade; the
      record's other decoded fields are kept together, uninterpreted. */
  datatype Player = Player(id: int, name: string, attributes: Json)

  /** One call the facade makes to the transport. */
  datatype Request = Get(path: string) | Post(path: string, body: Json)

  /** The ids of a list of players. */
  function Ids(ps: seq<Player>): set<int>
  {
    set p | p in ps :: p.id
  }

  /** The dict comprehension `{p.id: p for p in ps}` that builds the cache:
      keyed by exactly the ids in the list, each key mapping to a player of
      the list with that id (the last one, as later entries overwrite). */
  function Index(ps: seq<Player>): (m: map<int, Player>)
    ensures m.Keys == Ids(ps)
    ensures forall k :: k in m ==> m[k].id == k && m[k] in ps
  {
    if ps == [] then map[]
    else
      var init, last := ps[..|ps| - 1], ps[|ps| - 1];
      assert ps == init + [last];
      Index(init)[last.id := last]
  }

  /** On repeated ids the cache keeps the last player of the list with
      that id. */
  lemma {:induction false} IndexKeepsLast(ps: seq<Player>, i: nat)
    requires i < |ps|
    requires forall j :: i < j < |ps| ==> ps[j].id != ps[i].id
    ensures ps[i].id in Index(ps) && Index(ps)[ps[i].id] == ps[i]
  {
    var init, last := ps[..|ps| - 1], ps[|ps| - 1];
    assert Index(ps) == Index(init)[last.id := last];
    if i < |init| {
      assert init[i] == ps[i];
      assert forall j :: i < j < |init| ==> init[j] == ps[j];
      IndexKeepsLast(init, i);
    }
  }

  /** The linear scan `for p in ps: if p.id == id: return p`: a player of
      the list with that id, or None exactly when no player has it. */
  function FindById(ps: seq<Player>, id: int): (r: Option<Player>)
    ensures r.None? <==> id !in Ids(ps)
    ensures r.Some? ==> r.value in ps && r.value.id == id
  {
    if ps == [] then None
    else if ps[0].id == id then Some(ps[0])
    else
      assert Ids(ps) == {ps[0].id} + Ids(ps[1..]) by {
        assert ps == [ps[0]] + ps[1..];
      }
      FindById(ps[1..], id)
  }

  /** The scan returns the first player of the list with that id. */
  lemma {:induction false} FindByIdFirst(ps: seq<Player>, id: int, i: nat)
    requires i < |ps| && ps[i].id == id
    requires forall j :: 0 <= j < i ==> ps[j].id != id
    ensures FindById(ps, id) == Some(ps[i])
  {
    if i > 0 {
      FindByIdFirst(ps[1..], id, i - 1);
    }
  }

  /** No two players of the list share an id. */
  ghost predicate DistinctIds(ps: seq<Player>)
  {
    forall i, j :: 0 <= i < |ps| && 0 <= j < |ps| && ps[i].id == ps[j].id ==> i == j
  }

  /** After a refresh, the scan of the fresh list finds an id exactly when
      the new cache holds it, and when the response has no repeated ids the
      player found is the cached one. */
  lemma FindByIdAgreesWithIndex(ps: seq<Player>, id: int)
    ensures FindById(ps, id).Some? <==> id in Index(ps)
    ensures DistinctIds(ps) && id in Index(ps) ==> FindById(ps, id) == Some(Index(ps)[id])
  {
    if DistinctIds(ps) && id in Index(ps) {
      assert id in Ids(ps);
      var p := FindById(ps, id).value;
      var a :| 0 <= a < |ps| && ps[a] == p;
      IndexKeepsLast(ps, a);
    }
  }

  class ServerAPI {
    /** `models.Player.from_dict`, which is not part of this model. */
    const decodePlayer: Json -> Player
    /** `self.cache["players"]`. */
    var players: map<int, Player>
    /** Every call made to the transport so far, in order. */
    ghost var requests: seq<Request>

    /** Every cached player is stored under its own id. */
    ghost predicate Valid()
      reads this
    {
      forall k :: k in players ==> players[k].id == k
    }

    /** The object as `__init__` leaves it before its first refresh: an empty
        cache and no calls made. `ServerAPI(client)` always goes on to that
        refresh, so callers obtain a facade only through `Create`. */
    constructor (decodePlayer: Json -> Player)
      ensures Valid()
      ensures this.decodePlayer == decodePlayer
      ensures players == map[] && requests == []
    {
      this.decodePlayer := decodePlayer;
      players := map[];
      requests := [];
    }

    /** `ServerAPI(client)`: construction followed by one refresh; construction
        fails exactly when that refresh does. */
    static method Create(decodePlayer: Json -> Player, response: Json) returns (r: Result<ServerAPI>)
      ensures r.Ok? <==> response.JList?
      ensures r.Ok? ==>
        && fresh(r.value)
        && r.value.Valid()
        && r.value.decodePlayer == decodePlayer
        && r.value.requests == [Get(PlayersPath)]
        && r.value.players == Index(DecodeList(response, decodePlayer).value)
    {
      var api := new ServerAPI(decodePlayer);
      var refreshed := api.GetServerPlayers(response);
      if refreshed.Ok? {
        r := Ok(api);
      } else {
        r := Failure;
      }
    }

    /** `get_server_players`: fetches the player list. On a list response it
        returns one player per element, in order, and the cache becomes the
        index of exactly those players; on any other response it fails and
        the cache is left as it was. */
    method GetServerPlayers(response: Json) returns (r: Result<seq<Player>>)
      requires Valid()
      modifies this`players, this`requests
      ensures Valid()
      ensures r == DecodeList(response, decodePlayer)
      ensures players == if r.Ok? then Index(r.value) else old(players)
      ensures requests == old(requests) + [Get(PlayersPath)]
    {
      requests := requests + [Get(PlayersPath)];
      r := DecodeList(response, decodePlayer);
      if r.Ok? {
        players := Index(r.value);
      }
    }

    /** `get_player`: on a cache hit, the cached record, with no fetch and no
        change. On a miss, exactly one refresh, whose failure is the call's
        failure; otherwise the first player of the fresh list with that id,
        or None when there is none. `response` is what the transport returns
        for that refresh. */
    method GetPlayer(playerId: int, response: Json) returns (r: Result<Option<Player>>)
      requires Valid()
      modifies this`players, this`requests
      ensures Valid()
      ensures playerId in old(players) ==>
        && r == Ok(Some(old(players)[playerId]))
        && players == old(players)
        && requests == old(requests)
      ensures playerId !in old(players) ==>
        && requests == old(requests) + [Get(PlayersPath)]
        && match DecodeList(response, decodePlayer)
           case Ok(ps) => r == Ok(FindById(ps, playerId)) && players == Index(ps)
           case Failure => r == Failure && players == old(players)
    {
      if playerId in players {
        return Ok(Some(players[playerId]));
      }
      var refreshed := GetServerPlayers(response);
      if refreshed.Failure? {
        return Failure;
      }
      var ps := refreshed.value;
      var i := 0;
      while i < |ps|
        invariant 0 <= i <= |ps|
        invariant FindById(ps[i..], playerId) == FindById(ps, playerId)
      {
        if ps[i].id == playerId {
          return Ok(Some(ps[i]));
        }
        assert ps[i..][1..] == ps[i + 1..];
        i := i + 1;
      }
      return Ok(None);
    }

    /** `get_player_by_name`: scans the current cache only (no fetch, no
        change) for a player whose name equals `name` exactly; None exactly
        when no cached player has that name. */
    method GetPlayerByName(name: string) returns (r: Option<Player>)
      ensures r.Some? ==> r.value in players.Values && r.value.name == name
      ensures r.None? <==> forall p :: p in players.Values ==> p.name != name
    {
      var remaining := players.Values;
      while remaining != {}
        invariant remaining <= players.Values
        invariant forall p :: p in players.Values && p !in remaining ==> p.name != name
        decreases remaining
      {
        var p :| p in remaining;
        if p.name == name {
          return Some(p);
        }
        remaining := remaining - {p};
      }
      return None;
    }

    /** `get_server`: an object response decodes into the server record; any
        other response fails. The cache is not touched. */
    method GetServer<T>(response: Json, decodeServer: Json -> T) returns (r: Result<T>)
      modifies this`requests
      ensures r == DecodeServer(response, decodeServer)
      ensures players == old(players)
      ensures requests == old(requests) + [Get(ServerPath)]
    {
      requests := requests + [Get(ServerPath)];
      r := DecodeServer(response, decodeServer);
    }

    /** `get_server_joinlogs`: the list endpoint for join logs. */
    method GetServerJoinLogs<T>(response: Json, decodeJoinLog: Json -> T) returns (r: Result<seq<T>>)
      modifies this`requests
      ensures r == DecodeList(response, decodeJoinLog)
      ensures players == old(players)
      ensures requests == old(requests) + [Get(JoinLogsPath)]
    {
      requests := requests + [Get(JoinLogsPath)];
      r := DecodeList(response, decodeJoinLog);
    }

    /** `get_server_queue`: a list response is returned unchanged. */
    method GetServerQueue(response: Json) returns (r: Result<seq<Json>>)
      modifies this`requests
      ensures r == DecodeQueue(response)
      ensures players == old(players)
      ensures requests == old(requests) + [Get(QueuePath)]
    {
      requests := requests + [Get(QueuePath)];
      r := DecodeQueue(response);
    }

    /** `get_server_killlogs`: the list endpoint for kill logs. */
    method GetServerKillLogs<T>(response: Json, decodeKillLog: Json -> T) returns (r: Result<seq<T>>)
      modifies this`requests
      ensures r == DecodeList(response, decodeKillLog)
      ensures players == old(players)
      ensures requests == old(requests) + [Get(KillLogsPath)]
    {
      requests := requests + [Get(KillLogsPath)];
      r := DecodeList(response, decodeKillLog);
    }

    /** `get_server_commandlogs`: the list endpoint for command logs. */
    method GetServerCommandLogs<T>(response: Json, decodeCommandLog: Json -> T) returns (r: Result<seq<T>>)
      modifies this`requests
      ensures r == DecodeList(response, decodeCommandLog)
      ensures players == old(players)
      ensures requests == old(requests) + [Get(CommandLogsPath)]
    {
      requests := requests + [Get(CommandLogsPath)];
      r := DecodeList(response, decodeCommandLog);
    }

    /** `get_server_modcalls`: the list endpoint for moderator calls. */
    method GetServerModCalls<T>(response: Json, decodeModCall: Json -> T) returns (r: Result<seq<T>>)
      modifies this`requests
      ensures r == DecodeList(response, decodeModCall)
      ensures players == old(players)
      ensures requests == old(requests) + [Get(ModCallsPath)]
    {
      requests := requests + [Get(ModCallsPath)];
      r := DecodeList(response, decodeModCall);
    }

    /** `get_server_bans`: a list response means no bans, an object response
        one ban per entry, anything else fails. */
    method GetServerBans(response: Json) returns (r: Result<seq<BannedPlayer>>)
      modifies this`requests
      ensures r == DecodeBans(response)
      ensures players == old(players)
      ensures requests == old(requests) + [Get(BansPath)]
    {
      requests := requests + [Get(BansPath)];
      r := DecodeBans(response);
    }

    /** `get_server_vehicles`: the list endpoint for vehicles. */
    method GetServerVehicles<T>(response: Json, decodeVehicle: Json -> T) returns (r: Result<seq<T>>)
      modifies this`requests
      ensures r == DecodeList(response, decodeVehicle)
      ensures players == old(players)
      ensures requests == old(requests) + [Get(VehiclesPath)]
    {
      requests := requests + [Get(VehiclesPath)];
      r := DecodeList(response, decodeVehicle);
    }

    /** `run_server_command`: posts `{"command": command}`; `body` is the
        decoded body of the response. True exactly when its "message" is
        "Success", otherwise a failure. */
    method RunServerCommand(command: string, body: Json) returns (r: Result<bool>)
      modifies this`requests
      ensures r == CommandResult(body)
      ensures players == old(players)
      ensures requests == old(requests) + [Post(CommandPath, JDict([("command", JString(command))]))]
    {
      requests := requests + [Post(CommandPath, JDict([("command", JString(command))]))];
      r := CommandResult(body);
    }
  }
}
