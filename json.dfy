/**
 * The JSON values the relay reads and writes (Gson's JsonElement tree).
 * An object is a map from member name to value: Gson keeps one value per
 * name, and the order of the members only shows in serialised text.
 * Numbers are integers.
 */
module Json {

  datatype Json =
    | JNull
    | JBool(b: bool)
    | JNumber(n: int)
    | JString(s: string)
    | JArray(items: seq<Json>)
    | JObject(members: map<string, Json>)

  /**
   * JsonObject.get followed by JsonObject.add: a member that is missing is
   * added as JSON null.
   */
  function Member(members: map<string, Json>, key: string): Json {
    if key in members then members[key] else JNull
  }

  /** The member exists and is not JSON null ("x != null && !x.isJsonNull()"). */
  predicate Present(members: map<string, Json>, key: string) {
    key in members && members[key] != JNull
  }
}
