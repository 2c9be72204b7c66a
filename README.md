# ERLC server API facade: a verified model of the player cache

This project models `ServerAPI`, the facade of the ERLC game-server API
client (`erlc/api.py`). The facade has one method per REST resource. Each
method requests a fixed endpoint and branches on the shape of the decoded
JSON body: a list or an object decodes into records, and anything else is an
error. The facade also keeps a player cache, a map from player id to player
record. Construction fills the cache with one refresh. Every player-list
fetch replaces the cache as a whole. A lookup by id falls back to one
refresh on a miss. A lookup by name reads only the cache.

- `responses.dfy` (module `Responses`): the decoded JSON value `Json`, the
  `Option` result of the lookups (Python's `None`), the `Result` of every
  call, and `dict.get` on a decoded object.
- `decoders.dfy` (module `Decoders`): the endpoint paths and the
  shape-directed decoding of each endpoint: list endpoints, the server
  object, the queue, the bans quirk and the command reply.
- `api.dfy` (module `Api`): the player record, the comprehension that builds
  the cache (`Index`), the linear scan of `get_player` (`FindById`), and the
  class `ServerAPI`. The class has the cache as a `map` field. It keeps a
  ghost log of every transport call, so "no fetch" and "exactly one refresh"
  can be stated.

The transport (`client._get`, `client._post`, `response.json()`) is not
modelled. Each method takes the decoded body that the transport returns as a
parameter. `GetPlayer` takes the body of the refresh it makes on a miss, and
ignores it on a hit. The record decoders (`models.X.from_dict`) are not part
of this model either. Each endpoint takes its decoder as a function
parameter, and the class takes the player decoder at construction.

Two behaviours of the source are worth noting:
- The queue endpoint is typed as returning a list of integers. The source
  checks only that the body is a list, and returns it as it is, whatever its
  elements are.
- The source means to raise `APIError` or `ErlcExecption`. When a body has
  the wrong shape, or a command reply's "message" is not "Success", the source
  builds its error message from `response.status.code` or
  `response.status_code` on the decoded body. That raises `AttributeError`
  before the intended exception is built. This model does not keep the
  distinction: all of these errors are the single `Failure`.

## Model

| member | source | states |
|---|---|---|
| `Responses.Lookup` | erlc/api.py:145 | `dict.get`: None exactly when no entry has the key; otherwise the value of an entry with that key. An entry whose value is JSON null gives Some(JNull) where `dict.get` gives None; neither equals "Success", so the command check is unaffected |
| `Responses.LookupFirst` | erlc/api.py:145 | a lemma about the representation of objects as entry sequences: the lookup gives the value of the first entry with the key. On a decoded dict there is only one such entry, so this pins the value `dict.get` returns |
| `Responses.LookupDistinct` | erlc/api.py:145 | on a dict (distinct keys), the lookup gives a value exactly when the dict holds that key/value entry |
| `Decoders.DecodeEach` | erlc/api.py:31 | the list comprehension keeps the length and decodes element i of the list into element i of the result |
| `Decoders.DecodeList` | erlc/api.py:39-50 | a list endpoint succeeds exactly on a list body, with one decoded record per element in the same order; any other body is an error. The same decoding serves the players (lines 30-31), kill logs (63-66), command logs (76-80), mod calls (89-92) and vehicles (114-117) endpoints |
| `Decoders.DecodeServer` | erlc/api.py:15-26 | the server endpoint succeeds exactly on an object body and decodes that object; any other body is an error |
| `Decoders.DecodeQueue` | erlc/api.py:52-59 | the queue endpoint succeeds exactly on a list body and returns its elements unchanged |
| `Decoders.BansOf` | erlc/api.py:104-106 | one ban per entry of the object, in entry order, with id = key and name = value |
| `Decoders.DecodeBans` | erlc/api.py:99-110 | a list body gives no bans, an object body gives one ban per entry (id = key, name = value) in order, and a failure happens exactly on any other body |
| `Decoders.BansRoundTrip` | erlc/api.py:104-106 | for bans with distinct ids, decoding the object built from a list of bans gives back that list (the lemma holds for every list; with repeated ids the object built is not a decoded dict) |
| `Decoders.BanEntriesRoundTrip` | erlc/api.py:104-106 | every object body decodes, and its entries are recovered from the decoded bans |
| `Decoders.BansExamples` | erlc/api.py:99-110 | `[]` gives no bans; `{"1": "Alice", "2": "Bob"}` gives the two bans 1/Alice and 2/Bob; a string body fails |
| `Decoders.CommandResult` | erlc/api.py:145-150 | a success is always `true` and only happens on an object body holding the entry "message": "Success"; on a dict body, it succeeds exactly when that entry is present; a body that is not an object is an error |
| `Decoders.CommandExamples` | erlc/api.py:145-150 | `{"message": "Success"}` gives true; `{"message": "Failed"}` and a list body fail |
| `Api.Index` | erlc/api.py:32 | the rebuilt cache holds exactly the ids of the decoded players, and each id maps to a player of the list that has that id |
| `Api.IndexKeepsLast` | erlc/api.py:32 | on repeated ids, the cache keeps the last player of the list with that id |
| `Api.FindById` | erlc/api.py:130-133 | the scan returns a player of the list with the id, or None exactly when no player of the list has it |
| `Api.FindByIdFirst` | erlc/api.py:130-132 | the player the scan returns is the first one of the list with the id |
| `Api.FindByIdAgreesWithIndex` | erlc/api.py:124-133 | after a refresh, the scan finds an id exactly when the new cache holds it; with distinct ids it finds the cached record |
| `Api.ServerAPI.constructor` | erlc/api.py:10-12 | the state lines 11-12 leave before the refresh: an empty cache and no transport call. Callers never get this state from `ServerAPI(client)`, which always refreshes (line 13); only `Create` models that call |
| `Api.ServerAPI.Create` | erlc/api.py:10-13 | construction makes exactly one player-list request, fails exactly when that body is not a list, and otherwise leaves the cache as the index of the decoded players |
| `Api.ServerAPI.GetServerPlayers` | erlc/api.py:28-37 | one request to `/server/players`; the result is the list decoding of the body; on success the cache is replaced by the index of the decoded players, and on failure it is left unchanged; the cache stays keyed by each player's own id |
| `Api.ServerAPI.GetPlayer` | erlc/api.py:124-133 | hit: the cached record, with no request and no change; miss: exactly one refresh, then the first matching player of the fresh list or None, or a failure if the refresh fails |
| `Api.ServerAPI.GetPlayerByName` | erlc/api.py:135-140 | reads only the cache, with no request and no change: a cached player with exactly that name, and None exactly when no cached player has it |
| `Api.ServerAPI.GetServer` | erlc/api.py:15-26 | one request to `/server`, the result of the server decoding, cache unchanged |
| `Api.ServerAPI.GetServerJoinLogs` | erlc/api.py:39-50 | one request to `/server/joinlogs`, the list decoding of the body, cache unchanged |
| `Api.ServerAPI.GetServerQueue` | erlc/api.py:52-59 | one request to `/server/queue`, the list body returned unchanged or a failure, cache unchanged |
| `Api.ServerAPI.GetServerKillLogs` | erlc/api.py:61-72 | one request to `/server/killlogs`, the list decoding of the body, cache unchanged |
| `Api.ServerAPI.GetServerCommandLogs` | erlc/api.py:74-85 | one request to `/server/commandlogs`, the list decoding of the body, cache unchanged |
| `Api.ServerAPI.GetServerModCalls` | erlc/api.py:87-97 | one request to `/server/modcalls`, the list decoding of the body, cache unchanged |
| `Api.ServerAPI.GetServerBans` | erlc/api.py:99-110 | one request to `/server/bans`, the bans decoding of the body, cache unchanged |
| `Api.ServerAPI.GetServerVehicles` | erlc/api.py:112-122 | one request to `/server/vehicles`, the list decoding of the body, cache unchanged |
| `Api.ServerAPI.RunServerCommand` | erlc/api.py:142-150 | one POST to `/server/command` with body `{"command": command}`; true exactly when the reply's "message" is "Success", otherwise a failure; cache unchanged |

## Left out

- HTTP transport (`client._get`, `client._post`, `response.json()`): network I/O on a client that is not part of this model. Each call takes the decoded body as a parameter. Transport failures and a body that is not JSON are not modelled.
- Record decoding (`models.*.from_dict`, the `BannedPlayer` constructor's own behaviour): `erlc/models` is not part of this model. Decoders are function parameters and are assumed total, so an element that a decoder would reject is not an error here. Of a player, only `id` and `name` are interpreted.
- Exception classes and messages: every error, including the `AttributeError` raised while formatting the message from `.status.code` or `.status_code` (erlc/api.py:24-25, 36, 49, 58, 71, 84, 96, 109, 121, 149), is the single `Failure`.
- The `int(...)` and `str(...)` coercions of the lookup arguments (erlc/api.py:125, 136): the lookups take an `int` and a `string`.
- Api.ServerAPI.GetPlayerByName: the source scans the cache in dict insertion order and returns the first match. The model scans in an unspecified order and states only that some cached player with that name is returned.
- JSON numbers are integers; floating point is not modelled. A decoded object is a sequence of entries in order, and is assumed to have distinct keys, as a Python dict does.
- Concurrency: the source is single-threaded.
