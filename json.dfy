/** The JSON values `JSON.parse` produces. Objects keep their member order. */
module JsonValues {
  import opened Hashes

  datatype Json =
    | JNull
    | JBool(b: bool)
    | JNumber(n: int)
    | JString(s: string)
    | JArray(items: seq<Json>)
    | JObject(members: Hash<Json>)
}
