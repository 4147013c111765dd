/** JSON values and JSON-RPC messages, as the interceptors and the validator see them. */
module Messages {
  import opened Options

  datatype Json =
    | Null
    | Bool(b: bool)
    | Number(x: real)
    | Text(text: string)
    | Array(items: seq<Json>)
    | Object(fields: map<string, Json>)

  datatype RequestId = StringId(s: string) | NumberId(i: int) | NullId

  datatype Message =
    | Request(id: RequestId, name: string, params: Option<Json>)
    | Notification(name: string, params: Option<Json>)
    | Response(id: RequestId, result: Json)
  {
    /** The method name, for requests and notifications. */
    function Method(): Option<string> {
      if Response? then None else Some(name)
    }
  }

  datatype Direction = Outgoing | Incoming

  /** `value.get(key)`: absent unless the value is an object with the key. */
  function Get(value: Json, key: string): Option<Json> {
    if value.Object? then Lookup(value.fields, key) else None
  }

  function AsText(value: Option<Json>): Option<string> {
    if value.Some? && value.value.Text? then Some(value.value.text) else None
  }
}
