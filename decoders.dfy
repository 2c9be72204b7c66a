/** The shape-directed decoding each endpoint of the facade applies to the
    body the transport returns (erlc/api.py). A record decoder
    (`models.X.from_dict`) is not part of this model: each decoder here takes
    it as a function parameter. */
module Decoders {
  import opened Responses

  // The fixed endpoint paths the facade requests.
  const ServerPath := "/server"
  const PlayersPath := "/server/players"
  const JoinLogsPath := "/server/joinlogs"
  const QueuePath := "/server/queue"
  const KillLogsPath := "/server/killlogs"
  const CommandLogsPath := "/server/commandlogs"
  const ModCallsPath := "/server/modcalls"
  const BansPath := "/server/bans"
  const VehiclesPath := "/server/vehicles"
  const CommandPath := "/server/command"

  /** A ban entry, built directly from one key/value pair of the bans object. */
  datatype BannedPlayer = BannedPlayer(id: string, name: Json)

  /** The list comprehension `[decode(x) for x in items]`. */
  function DecodeEach<T>(items: seq<Json>, decode: Json -> T): (r: seq<T>)
    ensures |r| == |items|
    ensures forall i :: 0 <= i < |items| ==> r[i] == decode(items[i])
  {
    if items == [] then [] else [decode(items[0])] + DecodeEach(items[1..], decode)
  }

  /** A list endpoint (players, join logs, kill logs, command logs, mod calls,
      vehicles): a list body decodes element by element, in order; any other
      body is an error. */
  function DecodeList<T>(response: Json, decode: Json -> T): (r: Result<seq<T>>)
    ensures r.Ok? <==> response.JList?
    ensures r.Ok? ==>
      |r.value| == |response.items| &&
      forall i :: 0 <= i < |response.items| ==> r.value[i] == decode(response.items[i])
  {
    if response.JList? then Ok(DecodeEach(response.items, decode)) else Failure
  }

  /** The server endpoint: an object body decodes into one record; any other
      body is an error. */
  function DecodeServer<T>(response: Json, decode: Json -> T): (r: Result<T>)
    ensures r.Ok? <==> response.JDict?
    ensures r.Ok? ==> r.value == decode(response)
  {
    if response.JDict? then Ok(decode(response)) else Failure
  }

  /** The queue endpoint: a list body is returned as it is; any other body is
      an error. */
  function DecodeQueue(response: Json): (r: Result<seq<Json>>)
    ensures r.Ok? <==> response.JList?
    ensures r.Ok? ==> r.value == response.items
  {
    if response.JList? then Ok(response.items) else Failure
  }

  /** The comprehension over `response.items()` building one ban per entry. */
  function BansOf(entries: seq<(string, Json)>): (r: seq<BannedPlayer>)
    ensures |r| == |entries|
    ensures forall i :: 0 <= i < |entries| ==> r[i] == BannedPlayer(entries[i].0, entries[i].1)
  {
    if entries == [] then []
    else [BannedPlayer(entries[0].0, entries[0].1)] + BansOf(entries[1..])
  }

  /** The bans endpoint: the API answers "no bans" with an empty list, so a
      list body gives no bans whatever it holds; an object body gives one ban
      per entry, in entry order; any other body is an error. */
  function DecodeBans(response: Json): (r: Result<seq<BannedPlayer>>)
    ensures response.JList? ==> r == Ok([])
    ensures response.JDict? ==>
      r.Ok? && |r.value| == |response.entries| &&
      forall i :: 0 <= i < |response.entries| ==>
        r.value[i].id == response.entries[i].0 && r.value[i].name == response.entries[i].1
    ensures r.Failure? <==> !response.JList? && !response.JDict?
  {
    match response
    case JList(_) => Ok([])
    case JDict(entries) => Ok(BansOf(entries))
    case _ => Failure
  }

  /** The inverse of the bans comprehension: the entries a list of bans came from. */
  function BanEntries(bans: seq<BannedPlayer>): (e: seq<(string, Json)>)
  {
    if bans == [] then [] else [(bans[0].id, bans[0].name)] + BanEntries(bans[1..])
  }

  /** Decoding the object built from a list of bans gives back that list. */
  lemma {:induction false} BansRoundTrip(bans: seq<BannedPlayer>)
    ensures DecodeBans(JDict(BanEntries(bans))) == Ok(bans)
  {
    if bans != [] {
      var e := BanEntries(bans);
      BansRoundTrip(bans[1..]);
      assert e[1..] == BanEntries(bans[1..]);
      assert BansOf(e) == [bans[0]] + BansOf(e[1..]);
      assert [bans[0]] + bans[1..] == bans;
    }
  }

  /** An object body is recovered from the bans decoded from it. */
  lemma {:induction false} BanEntriesRoundTrip(entries: seq<(string, Json)>)
    ensures DecodeBans(JDict(entries)).Ok?
    ensures BanEntries(DecodeBans(JDict(entries)).value) == entries
  {
    if entries != [] {
      BanEntriesRoundTrip(entries[1..]);
      assert BansOf(entries)[1..] == BansOf(entries[1..]);
    }
  }

  /** The command endpoint: the call succeeds, with `true`, exactly when the
      response body is an object whose "message" is the string "Success"; any
      other body is an error. */
  function CommandResult(body: Json): (r: Result<bool>)
    ensures r.Ok? ==> r.value
    ensures r.Ok? ==> body.JDict? && ("message", JString("Success")) in body.entries
    ensures body.JDict? && DistinctKeys(body.entries) ==>
      (r.Ok? <==> ("message", JString("Success")) in body.entries)
  {
    if body.JDict? && Lookup(body.entries, "message") == Some(JString("Success")) then Ok(true)
    else
      assert body.JDict? && DistinctKeys(body.entries) ==>
          ("message", JString("Success")) !in body.entries
      by {
        if body.JDict? && DistinctKeys(body.entries) {
          LookupDistinct(body.entries, "message", JString("Success"));
        }
      }
      Failure
  }

  /** The two documented ban responses: an empty list, and an object of two
      bans keyed by id. */
  lemma BansExamples()
    ensures DecodeBans(JList([])) == Ok([])
    ensures DecodeBans(JDict([("1", JString("Alice")), ("2", JString("Bob"))])) ==
      Ok([BannedPlayer("1", JString("Alice")), BannedPlayer("2", JString("Bob"))])
    ensures DecodeBans(JString("none")).Failure?
  {
    var entries := [("1", JString("Alice")), ("2", JString("Bob"))];
    var bans := DecodeBans(JDict(entries)).value;
    assert bans[0] == BannedPlayer("1", JString("Alice"));
    assert bans[1] == BannedPlayer("2", JString("Bob"));
    assert bans == [BannedPlayer("1", JString("Alice")), BannedPlayer("2", JString("Bob"))];
  }

  /** The two documented command responses, and a body that is not an object. */
  lemma CommandExamples()
    ensures CommandResult(JDict([("message", JString("Success"))])) == Ok(true)
    ensures CommandResult(JDict([("message", JString("Failed"))])) == Failure
    ensures CommandResult(JList([])) == Failure
  {
  }
}
