/**
 * The batch submission generator (generate_submission_csv.py): one request
 * per non-blank query of the input table, flattened into one output row per
 * returned recommendation. Reading the CSV, the HTTP calls and writing the
 * output file are replaced by their contents: each input row comes paired with
 * the reply the service gives when that row's query is sent.
 */
module SubmissionGenerator {
  import opened Wrappers
  import opened Text
  import opened ServiceApi

  /**
   * One row of the input table: column to cell. A missing key is a column the
   * table does not have; `None` is a NaN cell.
   */
  type QueryRow = map<string, Option<string>>

  /** An input row and the reply the service gives to its request. */
  datatype QueryInput = QueryInput(row: QueryRow, reply: Response)

  /** The rows to be written, and the requests issued on the way, in order. */
  datatype Submission = Submission(requests: seq<Request>, rows: seq<Row>)

  datatype SubmissionError =
    /** The input CSV does not exist: `FileNotFoundError`, raised before any request. */
    | InputNotFound(path: string)
      /** The query chosen for a row is a NaN float, whose `.strip()` raises outside the `try`. */
    | QueryNotText

  const SubmissionTopK := 10
  const QueryColumn := "Query"
  const LowerQueryColumn := "query"

  /** The output columns filled from a recommendation, in `RecordKeys` order. */
  const RecordColumns: seq<string> :=
    ["Assessment Name", "Assessment URL", "Score", "Test Type", "Category", "Duration", "Level"]

  /** Python truthiness of `row.get(column)`: an absent column is `None`, a NaN is truthy, a string when non-empty. */
  predicate CellTruthy(row: QueryRow, column: string) {
    column in row && (row[column].None? || row[column].value != "")
  }

  /** `row.get("query") or row.get("Query") or ""`; `None` when the value chosen is a NaN. */
  function QueryText(row: QueryRow): Option<string> {
    if CellTruthy(row, LowerQueryColumn) then row[LowerQueryColumn]
    else if CellTruthy(row, QueryColumn) then row[QueryColumn]
    else Some("")
  }

  /** The priority among the two query columns. */
  lemma QueryTextChoice(row: QueryRow)
    ensures !CellTruthy(row, LowerQueryColumn) && !CellTruthy(row, QueryColumn) ==> QueryText(row) == Some("")
    ensures QueryText(row).None? ==>
      (LowerQueryColumn in row && row[LowerQueryColumn].None?) || (QueryColumn in row && row[QueryColumn].None?)
    ensures CellTruthy(row, LowerQueryColumn) ==> QueryText(row) == row[LowerQueryColumn]
    ensures !CellTruthy(row, LowerQueryColumn) && CellTruthy(row, QueryColumn) ==> QueryText(row) == row[QueryColumn]
    ensures LowerQueryColumn in row && row[LowerQueryColumn].None? ==> QueryText(row).None?
  {
  }

  /** The output row for one recommendation record of the query `query`. */
  function RecordRow(query: string, rec: map<string, Json>): (row: Row)
    ensures forall c :: c in row <==> c == QueryColumn || c in RecordColumns
    ensures row[QueryColumn] == Str(query)
    ensures forall i :: 0 <= i < |RecordColumns| ==>
      (RecordKeys[i] in rec ==> row[RecordColumns[i]] == rec[RecordKeys[i]]) &&
      (RecordKeys[i] !in rec ==> row[RecordColumns[i]] == Str(""))
  {
    Project(rec, RecordColumns)[QueryColumn := Str(query)]
  }

  /**
   * `for rec in recs: all_rows.append(...)` over a JSON list: one row per
   * record, until an element that is not an object makes `rec.get` raise; the
   * rows appended before that stay.
   */
  function RecordRows(query: string, items: seq<Json>): (rows: seq<Row>)
    ensures |rows| <= |items|
    ensures forall k :: 0 <= k < |rows| ==> items[k].Object? && rows[k] == RecordRow(query, items[k].fields)
    ensures |rows| < |items| ==> !items[|rows|].Object?
    ensures forall row :: row in rows ==> QueryColumn in row && row[QueryColumn] == Str(query)
  {
    if |items| == 0 || !items[0].Object? then []
    else [RecordRow(query, items[0].fields)] + RecordRows(query, items[1..])
  }

  /** The reply is a 200 whose JSON object holds a list under "recommendations". */
  predicate CarriesList(reply: Response) {
    && reply.Reply?
    && reply.status == StatusOk
    && reply.body.Some?
    && reply.body.value.Object?
    && "recommendations" in reply.body.value.fields
    && reply.body.value.fields["recommendations"].Array?
  }

  /** The rows one reply contributes. */
  function ReplyRows(query: string, reply: Response): (rows: seq<Row>)
    ensures !CarriesList(reply) ==> rows == []
    ensures CarriesList(reply) ==> rows == RecordRows(query, reply.body.value.fields["recommendations"].items)
    ensures forall row :: row in rows ==> QueryColumn in row && row[QueryColumn] == Str(query)
  {
    match reply
    case Raised => []
    case Reply(status, body) =>
      if status != StatusOk then []
      else match body
        // `resp.json()` raises
        case None => []
        case Some(Object(fields)) =>
          // `.get("recommendations", [])`; a string or an object iterates to strs whose `.get` raises,
          // and null, a number or a bool is not iterable
          if "recommendations" in fields && fields["recommendations"].Array? then
            RecordRows(query, fields["recommendations"].items)
          else []
        // a list, a string, a number, a bool or null has no `.get`
        case Some(_) => []
  }

  /** The generator's loop over the input rows. */
  function Process(queries: seq<QueryInput>): (r: Result<Submission, SubmissionError>)
    ensures r.Failure? ==> r.error == QueryNotText
    ensures r.Failure? <==> exists i :: 0 <= i < |queries| && QueryText(queries[i].row).None?
    ensures r.Success? ==> forall req :: req in r.value.requests ==>
      req.topK == SubmissionTopK && Strip(req.queryText) != ""
    ensures r.Success? ==> forall row :: row in r.value.rows ==>
      QueryColumn in row && exists req :: req in r.value.requests && row[QueryColumn] == Str(req.queryText)
  {
    if |queries| == 0 then Success(Submission([], []))
    else
      var rest := Process(queries[1..]);
      assert forall i :: 1 <= i < |queries| ==> queries[i] == queries[1..][i - 1];
      match QueryText(queries[0].row)
      case None => Failure(QueryNotText)
      case Some(text) =>
        if Strip(text) == "" then rest
        else match rest
          case Failure(e) => Failure(e)
          case Success(later) =>
            var req := Request(text, SubmissionTopK);
            Success(Submission([req] + later.requests, ReplyRows(text, queries[0].reply) + later.rows))
  }

  /** `generate_submission(input_csv)`, with the file's existence and contents as inputs. */
  function Generate(inputExists: bool, path: string, queries: seq<QueryInput>): (r: Result<Submission, SubmissionError>)
    ensures !inputExists ==> r == Failure(InputNotFound(path))
    ensures inputExists ==> r == Process(queries)
  {
    if !inputExists then Failure(InputNotFound(path)) else Process(queries)
  }

  /** Two runs one after the other: the first failure wins, otherwise requests and rows concatenate. */
  function Combine(first: Result<Submission, SubmissionError>, second: Result<Submission, SubmissionError>)
    : Result<Submission, SubmissionError>
  {
    if first.Failure? then first
    else if second.Failure? then second
    else Success(Submission(first.value.requests + second.value.requests, first.value.rows + second.value.rows))
  }

  /**
   * The output is the concatenation, in query order, of what each query
   * contributes: processing `a + b` is processing `a`, then `b`.
   */
  lemma {:induction false} ProcessAppend(a: seq<QueryInput>, b: seq<QueryInput>)
    ensures Process(a + b) == Combine(Process(a), Process(b))
    decreases |a|
  {
    if |a| == 0 {
      assert a + b == b;
      var rb := Process(b);
      if rb.Success? {
        assert rb.value.requests == [] + rb.value.requests;
        assert rb.value.rows == [] + rb.value.rows;
      }
    } else {
      assert (a + b)[0] == a[0];
      assert (a + b)[1..] == a[1..] + b;
      ProcessAppend(a[1..], b);
      var ra, rb := Process(a[1..]), Process(b);
      match QueryText(a[0].row)
      case None =>
      case Some(text) =>
        if Strip(text) != "" && ra.Success? && rb.Success? {
          var req := Request(text, SubmissionTopK);
          var rows := ReplyRows(text, a[0].reply);
          assert [req] + (ra.value.requests + rb.value.requests) == ([req] + ra.value.requests) + rb.value.requests;
          assert rows + (ra.value.rows + rb.value.rows) == (rows + ra.value.rows) + rb.value.rows;
        }
    }
  }

  /** What a single input row contributes: a blank query sends nothing; any other sends one request with `top_k = 10`. */
  lemma SingleQuery(q: QueryInput)
    ensures QueryText(q.row).None? ==> Process([q]) == Failure(QueryNotText)
    ensures QueryText(q.row).Some? && Strip(QueryText(q.row).value) == "" ==>
      Process([q]) == Success(Submission([], []))
    ensures QueryText(q.row).Some? && Strip(QueryText(q.row).value) != "" ==>
      Process([q]) == Success(Submission([Request(QueryText(q.row).value, SubmissionTopK)],
                                         ReplyRows(QueryText(q.row).value, q.reply)))
  {
    assert [q][1..] == [];
    match QueryText(q.row)
    case None =>
    case Some(text) =>
      var req := Request(text, SubmissionTopK);
      var rows := ReplyRows(text, q.reply);
      assert [req] + [] == [req];
      assert rows + [] == rows;
  }

  /** A 200 reply whose recommendations are all objects yields exactly one row per recommendation, in order. */
  lemma OneRowPerRecommendation(query: string, items: seq<Json>)
    requires forall k :: 0 <= k < |items| ==> items[k].Object?
    ensures |RecordRows(query, items)| == |items|
    ensures forall k :: 0 <= k < |items| ==> RecordRows(query, items)[k] == RecordRow(query, items[k].fields)
  {
  }
}
