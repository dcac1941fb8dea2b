/** A Gson JsonElement tree, as an immutable value. */
module JsonTrees {

  datatype Json =
    | JNull
    | JBool(b: bool)
    | JNumber(text: string)
    | JString(s: string)
    | JArray(elements: seq<Json>)
    | JObject(members: seq<JsonMember>)

  /** One entry of a JsonObject, in the object's entry order. */
  datatype JsonMember = JsonMember(key: string, value: Json)

  /** A JsonNull becomes an empty JsonObject; anything else stays. */
  function EmptyIfNull(v: Json): (r: Json)
    ensures r != JNull
    ensures v == JNull ==> r == JObject([])
    ensures v != JNull ==> r == v
  {
    if v.JNull? then JObject([]) else v
  }
}
