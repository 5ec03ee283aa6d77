/**
 * The request/response boundary of the `/recommend` endpoint as its two
 * clients see it: a JSON request carrying `query_text` and `top_k`, and a
 * reply that is either an exception or an HTTP status with a body.
 */
module ServiceApi {
  import opened Wrappers

  /** A decoded JSON value. Numbers are kept as reals. */
  datatype Json =
    | Null
    | Bool(b: bool)
    | Number(n: real)
    | Str(s: string)
    | Array(items: seq<Json>)
    | Object(fields: map<string, Json>)

  /** Python's `bool(v)` for the value `json.loads` produces. */
  predicate Truthy(v: Json) {
    match v
    case Null => false
    case Bool(b) => b
    case Number(n) => n != 0.0
    case Str(s) => s != ""
    case Array(items) => |items| > 0
    case Object(fields) => |fields| > 0
  }

  /** The JSON body `{"query_text": ..., "top_k": ...}` of a POST to `/recommend`. */
  datatype Request = Request(queryText: string, topK: int)

  /**
   * What `requests.post` yields: an exception (timeout, refused connection),
   * or a status code with a body that `resp.json()` decodes (`None` when the
   * body is not JSON and decoding raises).
   */
  datatype Response = Raised | Reply(status: int, body: Option<Json>)

  const StatusOk := 200

  /** The fields of one recommendation record, in the order both clients lay them out. */
  const RecordKeys: seq<string> :=
    ["assessment_name", "assessment_url", "score", "test_type", "category", "duration", "level"]

  /** Python's `rec.get(key, "")` on a decoded JSON object. */
  function FieldOrEmpty(rec: map<string, Json>, key: string): (v: Json)
    ensures key in rec ==> v == rec[key]
    ensures key !in rec ==> v == Str("")
  {
    if key in rec then rec[key] else Str("")
  }

  /** One output row, keyed by column header. */
  type Row = map<string, Json>

  /**
   * The row `{columns[i]: rec.get(RecordKeys[i], "")}` that both clients build
   * from a recommendation record.
   */
  function Project(rec: map<string, Json>, columns: seq<string>): (row: Row)
    requires |columns| == |RecordKeys|
    requires forall i, j :: 0 <= i < j < |columns| ==> columns[i] != columns[j]
    ensures forall c :: c in row <==> c in columns
    ensures forall i :: 0 <= i < |columns| ==>
      (RecordKeys[i] in rec ==> row[columns[i]] == rec[RecordKeys[i]]) &&
      (RecordKeys[i] !in rec ==> row[columns[i]] == Str(""))
  {
    map i | 0 <= i < |columns| :: columns[i] := FieldOrEmpty(rec, RecordKeys[i])
  }
}
