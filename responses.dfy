/** Decoded JSON bodies, as the transport hands them to the server facade,
    and the outcome types the facade's calls produce. */
module Responses {

  /** A decoded JSON value. An object keeps its entries in document order, as
      the Python dict built by the JSON decoder does; such a dict never holds
      two entries with the same key. */
  datatype Json =
    | JNull
    | JBool(b: bool)
    | JNumber(n: int)
    | JString(s: string)
    | JList(items: seq<Json>)
    | JDict(entries: seq<(string, Json)>)

  /** The "not found" sentinel of the two player lookups (Python's None). */
  datatype Option<+T> = None | Some(value: T)

  /** The outcome of a facade call. Every exception the facade raises or lets
      escape is the single `Failure`. */
  datatype Result<+T> = Ok(value: T) | Failure

  /** No two entries of a decoded object share a key, as in any Python dict. */
  ghost predicate DistinctKeys(entries: seq<(string, Json)>)
  {
    forall i, j :: 0 <= i < j < |entries| ==> entries[i].0 != entries[j].0
  }

  /** `dict.get(key)` on a decoded object: the value of an entry with that
      key, or None when there is none. */
  function Lookup(entries: seq<(string, Json)>, key: string): (r: Option<Json>)
    ensures r.None? <==> forall i :: 0 <= i < |entries| ==> entries[i].0 != key
    ensures r.Some? ==> (key, r.value) in entries
  {
    if entries == [] then None
    else if entries[0].0 == key then Some(entries[0].1)
    else
      assert forall i :: 1 <= i < |entries| ==> entries[i] == entries[1..][i - 1];
      Lookup(entries[1..], key)
  }

  /** On entries with repeated keys (which a decoded dict never has) the
      lookup takes the first entry with the key. */
  lemma {:induction false} LookupFirst(entries: seq<(string, Json)>, key: string, i: nat)
    requires i < |entries| && entries[i].0 == key
    requires forall j :: 0 <= j < i ==> entries[j].0 != key
    ensures Lookup(entries, key) == Some(entries[i].1)
  {
    if i > 0 {
      LookupFirst(entries[1..], key, i - 1);
    }
  }

  /** On a decoded dict, the lookup gives a value exactly when the dict holds
      that entry. */
  lemma LookupDistinct(entries: seq<(string, Json)>, key: string, v: Json)
    requires DistinctKeys(entries)
    ensures Lookup(entries, key) == Some(v) <==> (key, v) in entries
  {
    if (key, v) in entries {
      var i :| 0 <= i < |entries| && entries[i] == (key, v);
      LookupFirst(entries, key, i);
    }
  }
}
