/** The JSON values the API exchanges. */
module Json {

  /** A JSON document, as produced for a response body. */
  datatype Json =
    | JNull
    | JInt(i: int)
    | JStr(s: string)
    | JArray(items: seq<Json>)
    | JObject(fields: map<string, Json>)

  /** What a request body holds under one key: JSON `null` or a string.
      Other JSON kinds in a request body are not part of this model. */
  datatype BodyValue = NullValue | StrValue(s: string)

  /** A parsed JSON request body (an object). A body that is missing or not
      valid JSON is the empty object. */
  type Body = map<string, BodyValue>

  /** A submitted HTML form: field name to submitted text. */
  type Form = map<string, string>
}
