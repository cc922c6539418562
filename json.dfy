/** An abstract JSON value (RFC 8259) and the two `encoding/json` calls the
    core uses, kept abstract: the byte-level codec is a parameter. */
module Json {
  import opened Wrappers

  /** A JSON value as `encoding/json` decodes it into `any`: objects become
      `map[string]any` (one value per key), arrays `[]any`. Numbers are
      never inspected by the core and are kept as their literal text. */
  datatype Json =
    | JNull
    | JBool(b: bool)
    | JNumber(text: string)
    | JString(s: string)
    | JArray(elems: seq<Json>)
    | JObject(members: map<string, Json>)

  /** `json.Unmarshal` (None: the bytes are not JSON) and `json.Marshal`,
      which cannot fail on a value `json.Unmarshal` produced. */
  datatype JsonCodec = JsonCodec(unmarshal: seq<Byte> -> Option<Json>, marshal: Json -> seq<Byte>)

  /** What the core relies on from `encoding/json`: marshalling then
      unmarshalling gives the value back, and empty input is not JSON. */
  ghost predicate Lawful(c: JsonCodec) {
    && (forall v :: c.unmarshal(c.marshal(v)) == Some(v))
    && c.unmarshal([]) == None
  }

  /** Unmarshalling into a `map[string]any` variable: an object fills the
      map; `null` leaves the map nil, with no error, so that it reads as
      empty; any other value is a type error, as is input that is not JSON. */
  function AsGoMap(parsed: Option<Json>): (r: Option<map<string, Json>>)
    ensures r.Some? <==> parsed.Some? && (parsed.value.JObject? || parsed.value.JNull?)
    ensures r.Some? && parsed.value.JObject? ==> r.value == parsed.value.members
    ensures r.Some? && parsed.value.JNull? ==> r.value == map[]
  {
    match parsed
    case Some(JObject(m)) => Some(m)
    case Some(JNull) => Some(map[])
    case _ => None
  }

  /** A Go map lookup followed by a type assertion to `[]any`: a missing
      key, `null` and every non-array value fail alike. */
  function ArrayField(m: map<string, Json>, key: string): (r: Option<Json>)
    ensures r.Some? <==> key in m && m[key].JArray?
    ensures r.Some? ==> r.value == m[key]
  {
    if key in m && m[key].JArray? then Some(m[key]) else None
  }

  /** The same for a type assertion to `map[string]any`. */
  function ObjectField(m: map<string, Json>, key: string): (r: Option<map<string, Json>>)
    ensures r.Some? <==> key in m && m[key].JObject?
    ensures r.Some? ==> r.value == m[key].members
  {
    if key in m && m[key].JObject? then Some(m[key].members) else None
  }

  /** The same for a type assertion to `string`. */
  function StringField(m: map<string, Json>, key: string): (r: Option<string>)
    ensures r.Some? <==> key in m && m[key].JString?
    ensures r.Some? ==> r.value == m[key].s
  {
    if key in m && m[key].JString? then Some(m[key].s) else None
  }

  /** A lawful codec never marshals a value to empty bytes. */
  lemma MarshalNonEmpty(c: JsonCodec, v: Json)
    requires Lawful(c)
    ensures |c.marshal(v)| > 0
  {
    assert c.unmarshal(c.marshal(v)) == Some(v) != c.unmarshal([]);
  }
}
