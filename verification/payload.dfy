/** The payload check both normalisers begin with
    (api_functions.py:56-64 and 358-362): `if not payload or 'properties'
    not in payload: return None`, then `for prop in payload['properties']`. */
module Payload {
  import opened Wrappers
  import opened Json
  import opened Text

  const PropertiesKey: string := "properties"

  /** What `for x in v` walks: a list's items, a string's characters and a
      dict's keys; anything else is not iterable. */
  function Entries(v: Value): (r: Option<seq<Value>>)
    ensures r.Some? <==> v.Arr? || v.Str? || v.Obj?
    ensures v.Arr? ==> r == Some(v.items)
    ensures v.Str? ==> r.Some? && |r.value| == |v.s| && forall k :: 0 <= k < |v.s| ==> r.value[k] == Str([v.s[k]])
    ensures v.Obj? ==> r.Some? && |r.value| == |v.fields| && forall k :: 0 <= k < |v.fields| ==> r.value[k] == Str(v.fields[k].0)
  {
    match v
    case Arr(items) => Some(items)
    case Str(s) => Some(seq(|s|, k requires 0 <= k < |s| => Str([s[k]])))
    case Obj(fields) => Some(seq(|fields|, k requires 0 <= k < |fields| => Str(fields[k].0)))
    case _ => None
  }

  /** Python's `'properties' in payload` where it is defined: a key of a
      dict, an element of a list, a substring of a string. */
  predicate HasProperties(payload: Value) {
    match payload
    case Obj(fields) => Lookup(fields, PropertiesKey).Some?
    case Arr(items) => Str(PropertiesKey) in items
    case Str(s) => Contains(s, PropertiesKey)
    case _ => false
  }

  /** The payloads the check and the loop header accept without raising:
      falsy ones; dicts without "properties" or whose "properties" is
      iterable; lists and strings that fail the membership test (one that
      passes it cannot be subscripted with a string). */
  predicate Shaped(payload: Value) {
    || !Truthy(payload)
    || (payload.Obj? && (Lookup(payload.fields, PropertiesKey).None?
                         || Entries(Lookup(payload.fields, PropertiesKey).value).Some?))
    || ((payload.Arr? || payload.Str?) && !HasProperties(payload))
  }

  /** The payload passes the check, so the loop runs. */
  predicate Found(payload: Value) {
    Truthy(payload) && HasProperties(payload)
  }

  /** The entries the loop walks. */
  function Listings(payload: Value): (r: seq<Value>)
    requires Shaped(payload) && Found(payload)
    ensures payload.Obj? && Lookup(payload.fields, PropertiesKey).Some?
    ensures Entries(Lookup(payload.fields, PropertiesKey).value) == Some(r)
  {
    Entries(Lookup(payload.fields, PropertiesKey).value).value
  }

  /** A payload that passes the check is a dict holding "properties". */
  lemma FoundMeansDict(payload: Value)
    requires Shaped(payload)
    ensures Found(payload) <==> payload.Obj? && Lookup(payload.fields, PropertiesKey).Some?
  {
  }
}
