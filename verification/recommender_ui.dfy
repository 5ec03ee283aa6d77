/**
 * The interactive front end (ui_app.py): what one press of "Get suggestions"
 * sends and what the page then shows. Widgets, rendering and the HTTP call are
 * replaced by their values: the text area's text, the slider's value and the
 * reply the service gives.
 */
module RecommenderUi {
  import opened Wrappers
  import opened Text
  import opened ServiceApi

  /** The slider's range, 1 to 10. */
  type TopK = k: int | 1 <= k <= 10 witness 5

  /** The slider's initial position. */
  const DefaultTopK: TopK := 5

  /** The columns of the displayed table, in `RecordKeys` order. */
  const TableColumns: seq<string> :=
    ["Assessment Name", "URL", "Score", "Test Type", "Category", "Duration", "Level"]

  /** What the page shows after the button press. */
  datatype Outcome =
    /** "Please enter a valid input.": the query is blank and nothing is sent. */
    | InvalidInput
      /** "Call failed: ...": the call raised, the body is not JSON, or a record cannot be read. */
    | CallFailed
      /** "API Error <status>: ...". */
    | ApiError(status: int)
      /** "No recommendations found for this query." */
    | NoResults
      /** "Found <count> recommended assessments!" above the table. */
    | Found(count: nat, table: seq<Row>)

  /** The recommendation list inside a decoded reply: the "recommendations" member, the list itself, or nothing. */
  function Recommendations(data: Json): (recs: Json)
    ensures data.Object? && "recommendations" in data.fields ==> recs == data.fields["recommendations"]
    ensures data.Array? ==> recs == data
    ensures !(data.Object? && "recommendations" in data.fields) && !data.Array? ==> recs == Array([])
  {
    if data.Object? && "recommendations" in data.fields then data.fields["recommendations"]
    else if data.Array? then data
    else Array([])
  }

  /** One displayed row. */
  function TableRow(rec: map<string, Json>): (row: Row)
    ensures forall c :: c in row <==> c in TableColumns
    ensures forall i :: 0 <= i < |TableColumns| ==>
      (RecordKeys[i] in rec ==> row[TableColumns[i]] == rec[RecordKeys[i]]) &&
      (RecordKeys[i] !in rec ==> row[TableColumns[i]] == Str(""))
  {
    Project(rec, TableColumns)
  }

  /** Every element of the list is a JSON object, so every `r.get` succeeds. */
  predicate AllRecords(items: seq<Json>) {
    forall k :: 0 <= k < |items| ==> items[k].Object?
  }

  /** The table built from a list of records, one row per record, in order. */
  function Table(items: seq<Json>): (table: seq<Row>)
    requires AllRecords(items)
    ensures |table| == |items|
  {
    seq(|items|, k requires 0 <= k < |items| => TableRow(items[k].fields))
  }

  /** What the page shows for the reply to a sent request. */
  function Render(reply: Response): (out: Outcome)
    ensures out != InvalidInput
    ensures reply.Raised? ==> out == CallFailed
    ensures reply.Reply? && reply.status != StatusOk ==> out == ApiError(reply.status)
    ensures out.ApiError? <==> reply.Reply? && reply.status != StatusOk
    ensures out.ApiError? ==> out.status != StatusOk
    ensures out.Found? ==> out.count == |out.table| > 0
    ensures reply.Reply? && reply.status == StatusOk && reply.body.None? ==> out == CallFailed
    ensures reply.Reply? && reply.status == StatusOk && reply.body.Some? ==>
      (out == NoResults <==> !Truthy(Recommendations(reply.body.value)))
    ensures reply.Reply? && reply.status == StatusOk && reply.body.Some? ==>
      (out.Found? <==> var recs := Recommendations(reply.body.value);
                       recs.Array? && |recs.items| > 0 && AllRecords(recs.items))
  {
    match reply
    case Raised => CallFailed
    case Reply(status, body) =>
      if status != StatusOk then ApiError(status)
      else match body
        // `resp.json()` raises
        case None => CallFailed
        case Some(data) =>
          var recs := Recommendations(data);
          if !Truthy(recs) then NoResults
          // a non-empty string, object, number or `true` iterates to no records, or not at all
          else if recs.Array? && AllRecords(recs.items) then Found(|recs.items|, Table(recs.items))
          else CallFailed
  }

  /** One press of the button: the request sent, if any, and what the page shows. */
  function OnSubmit(query: string, topK: TopK, reply: Response): (r: (Option<Request>, Outcome))
    ensures r.0.None? <==> Strip(query) == ""
    ensures r.0.None? ==> r.1 == InvalidInput
    ensures r.0.Some? ==> r.0.value == Request(query, topK) && 1 <= r.0.value.topK <= 10
    ensures r.0.Some? ==> r.1 == Render(reply) && r.1 != InvalidInput
  {
    if Strip(query) == "" then (None, InvalidInput)
    else (Some(Request(query, topK)), Render(reply))
  }

  /** A non-200 reply shows the status alone: its body is never decoded. */
  lemma ErrorStatusIgnoresBody(status: int, b1: Option<Json>, b2: Option<Json>)
    requires status != StatusOk
    ensures Render(Reply(status, b1)) == Render(Reply(status, b2)) == ApiError(status)
  {
  }

  /** A 200 reply shows "no recommendations" exactly when the extracted list is falsy. */
  lemma NoResultsIff(data: Json)
    ensures Render(Reply(StatusOk, Some(data))) == NoResults <==> !Truthy(Recommendations(data))
  {
  }

  /** The count in the success message and the table both have one entry per record of the reply, in order. */
  lemma FoundTable(data: Json)
    requires Render(Reply(StatusOk, Some(data))).Found?
    ensures var recs := Recommendations(data);
            var out := Render(Reply(StatusOk, Some(data)));
            && recs.Array? && AllRecords(recs.items)
            && out.count == |recs.items| == |out.table|
            && forall k :: 0 <= k < |out.table| ==> out.table[k] == TableRow(recs.items[k].fields)
  {
  }

  /**
   * A decoded object without a "recommendations" member, and any other JSON
   * value that is neither an object nor a list, shows "no recommendations":
   * it is read as the empty list, not as a failure.
   */
  lemma UnrecognisedBodyIsNoResults(data: Json)
    requires !data.Array?
    requires data.Object? ==> "recommendations" !in data.fields
    ensures Render(Reply(StatusOk, Some(data))) == NoResults
  {
  }

  /** An empty list, bare or under "recommendations", shows "no recommendations" and not a failure. */
  lemma EmptyListIsNoResults(fields: map<string, Json>)
    ensures Render(Reply(StatusOk, Some(Array([])))) == NoResults
    ensures Render(Reply(StatusOk, Some(Object(fields["recommendations" := Array([])])))) == NoResults
  {
  }
}
