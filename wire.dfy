/**
 * Values that cross the wire between the relay server and its peers.
 *
 * JSON encoding, UTF-8 decoding and the sockets themselves are library
 * code; the model replaces them by what they produce. A payload is
 * classified by what `bytes.decode()` followed by `json.loads` makes of it.
 */
module Wire {

  datatype Option<+T> = None | Some(value: T)

  /** A decoded JSON document (numbers are integers only). */
  datatype Json =
    | JNull
    | JBool(b: bool)
    | JInt(i: int)
    | JStr(s: string)
    | JArray(items: seq<Json>)
    | JObject(fields: map<string, Json>)

  /** Python's truth value of a decoded JSON document (`if x:` / `not x`). */
  predicate Truthy(j: Json)
  {
    match j
    case JNull => false
    case JBool(b) => b
    case JInt(i) => i != 0
    case JStr(s) => s != ""
    case JArray(items) => items != []
    case JObject(fields) => fields != map[]
  }

  /** `d.get(key)` on a JSON object: `None` when the key is absent. */
  function Lookup(fields: map<string, Json>, key: string): (r: Option<Json>)
    ensures r.Some? <==> key in fields
    ensures r.Some? ==> r.value == fields[key]
  {
    if key in fields then Some(fields[key]) else None
  }

  /**
   * The bytes of one datagram or one stream read:
   *  - Encoded(j): UTF-8 text that `json.loads` turns into `j`
   *    (what `json.dumps(j).encode()` produces);
   *  - Text(t): UTF-8 text `t` that `json.loads` rejects;
   *  - Binary(bytes): bytes that are not valid UTF-8.
   */
  datatype Packet =
    | Encoded(json: Json)
    | Text(text: string)
    | Binary(bytes: seq<bv8>)

  /** An IPv4 socket address `(host, port)`. */
  datatype Addr = Addr(host: string, port: int)

  /** One `sendto(packet, dest)` handed to the operating system. */
  datatype Datagram = Datagram(dest: Addr, packet: Packet)
}
