# SHL assessment recommender: the decision logic, modelled in Dafny

The repository turns SHL's product catalog into a semantic search service. Four
scripts surround that service, and this project models the decisions they make.

- **Index build** (`create_vector_index.py`):
  - Each catalog row gets a search document, `strip(title + ". " + description + ". " + test_type)`.
  - The documents are encoded and L2-normalised.
  - The texts, the metadata records and the rows of the inner-product index are all produced from the same rows, in the same order.
- **Catalog scraper** (`fetch_products.py`):
  - Product links are filtered, de-duplicated and sorted.
  - When a page has no description block, its description is a 600-character prefix of the page text.
  - A two-stage classifier assigns the test type: an explicit "test type" label first, then keyword inference.
  - Failed pages and "job solution" pages are dropped.
- **Submission generator** (`generate_submission_csv.py`):
  - It picks each input row's query and skips blank ones.
  - It sends `top_k = 10`.
  - Every returned recommendation becomes one output row, with `""` for missing fields.
- **Front end** (`ui_app.py`):
  - A blank query is refused.
  - A non-200 status is reported.
  - The recommendation list is taken out of the reply, and each record becomes a row of a 7-column table.
  - "No results" is kept apart from "call failed".

Everything is a pure function over immutable data. Whatever the scripts read from outside becomes an input:

- whether a file exists, and the rows it holds;
- the hrefs, text nodes and page text of a fetched page;
- the reply the service gives to a request.

A reply is `Raised` (the call threw) or `Reply(status, body)`, where the body is `None` when it is not JSON. The sentence encoder and `faiss.normalize_L2` are function parameters over an abstract vector type.

Modules:

- `Wrappers`: `Option` and `Result`.
- `Text`: Python's `strip`, `lower` and `in` over ASCII.
- `StringOrder`: Python's string `<`, and insertion into a sorted, duplicate-free list, which is how `sorted(set(...))` is modelled.
- `Selection`: two loop shapes, "stop at the first match" and "keep the matches in order".
- `ServiceApi`: JSON values, the request and the reply, and the 7-field record projection.
- `CatalogIndex`, `ProductScraper`, `SubmissionGenerator` and `RecommenderUi`: one module per script.

Two behaviours of the code that a reader may not expect, both modelled as errors:

- `prepare_texts` reads each column with `df.get(column, '')`. When the catalog has no such column at all, that call returns a plain `str`, and `.fillna` on it raises. `CatalogIndex.PrepareTexts` fails with `MissingColumn`, naming the first column missing in the order title, description, test type. A NaN cell inside a column that is present reads as `""`.
- In the submission loop, a NaN cell is a truthy float. A NaN `query` cell, or a NaN `Query` cell when `query` is absent or empty, is chosen as the query, and its `.strip()` raises outside the `try`, which ends the whole run. `SubmissionGenerator.Process` fails with `QueryNotText` in that case.

## Model

| member | source | states |
|---|---|---|
| Text.Strip | create_vector_index.py:18 | the stripped text is no longer than the input and has no whitespace at either end |
| Text.TrimStartSpec | create_vector_index.py:18 | left stripping removes exactly the leading run of whitespace: the result is a suffix, everything dropped is whitespace, and the result starts with a non-space or is empty exactly when the input is all whitespace |
| Text.TrimEndSpec | create_vector_index.py:18 | right stripping removes exactly the trailing run of whitespace: the result is a prefix, everything dropped is whitespace, and it ends with a non-space or is empty |
| Text.StripEmptyIff | generate_submission_csv.py:30 | a string strips to `""` exactly when it is all whitespace, which is the blank-query test |
| Text.StripIdempotent | create_vector_index.py:18 | stripping twice is the same as stripping once |
| Text.ContainsIffOccurs | fetch_products.py:39 | the substring scan finds `sub` exactly when `sub` occurs at some index of `s` |
| Text.LowerSpec | fetch_products.py:72 | lower-casing keeps the length and maps each character on its own |
| StringOrder.Insert | fetch_products.py:41 | adding a URL to the ascending, duplicate-free list keeps it ascending and duplicate-free, and its members become the old ones plus the URL |
| StringOrder.SortedUnique | fetch_products.py:43 | two ascending, duplicate-free lists with the same members are equal, so a sorted set has exactly one list form |
| StringOrder.LessTransitive | fetch_products.py:43 | Python's string order is transitive |
| StringOrder.LessTotal | fetch_products.py:43 | of two different strings, one is less than the other |
| CatalogIndex.SearchText | create_vector_index.py:18 | the search document has no outer whitespace |
| CatalogIndex.SearchTextShape | create_vector_index.py:18 | the search document is the title without its leading whitespace, `". "`, the description verbatim, `"."`, and then `" "` plus the test type without its trailing whitespace, unless the test type is blank |
| CatalogIndex.SearchTextNeverEmpty | create_vector_index.py:18 | every search document has at least 3 characters, and a `.` right after the stripped title |
| CatalogIndex.EmptyRowText | create_vector_index.py:18 | an all-empty row is indexed as `". ."` |
| CatalogIndex.SearchTextStripStable | create_vector_index.py:18 | stripping a search document again leaves it unchanged |
| CatalogIndex.MissingCellIsEmpty | create_vector_index.py:18 | a NaN title, description or test-type cell gives the same search document as an empty one |
| CatalogIndex.PrepareTexts | create_vector_index.py:16-26 | fails exactly when one of the three columns is missing, naming the first missing one in the order title, description, test type; otherwise gives one document per row, in row order |
| CatalogIndex.Build | create_vector_index.py:21-38 | a missing CSV fails before anything is produced; otherwise the build succeeds exactly when text preparation does, and the texts, vectors, metadata and index rows have equal lengths and are aligned row by row (metadata `i` is row `i` plus its search text, vector `i` is the normalised encoding of text `i`, index row `i` is vector `i`) |
| CatalogIndex.HitResolvesToRecord | create_vector_index.py:29-37 | index row `i` is the encoding of the search text that metadata record `i` carries, and that text can be rebuilt from the record's own fields |
| Selection.FirstIndex | fetch_products.py:71-78 | the loop stops at a passing element with no passing element before it, or finds none |
| Selection.FirstIndexIgnoresSuffix | fetch_products.py:78 | elements after the first passing one never change where the loop stops |
| Selection.Select | fetch_products.py:109-119 | kept elements are present, pass the filter and come from the input; every present, passing element is kept |
| Selection.SelectOne | fetch_products.py:111-119 | a single result is kept exactly when it is present and passes |
| Selection.SelectAppend | fetch_products.py:109-119 | filtering two runs of results one after the other gives the first run's kept rows, then the second's |
| Selection.SelectKeepsOrder | fetch_products.py:109-119 | any order that the results follow by position, the kept rows follow too |
| ProductScraper.CatalogLinks | fetch_products.py:36-45 | the link list is ascending and duplicate-free, and a URL is in it exactly when some href starts with `/`, contains `/products/`, and joins to that URL |
| ProductScraper.LinksAreSortedSet | fetch_products.py:43 | any ascending, duplicate-free list of exactly the collected links is the link list |
| ProductScraper.MissingHrefIgnored | fetch_products.py:38 | an anchor without an href contributes no link |
| ProductScraper.Description | fetch_products.py:65 | the description is the block's text when there is a block, and otherwise the prefix of the page text of length `min(600, length)` |
| ProductScraper.LabelType | fetch_products.py:74-77 | a label names P exactly when it mentions a personality word; K exactly when it mentions a knowledge word and no personality word; otherwise nothing |
| ProductScraper.ExplicitType | fetch_products.py:68-78 | the explicit type is K, P or `""`, and it is `""` when no text node mentions "test type" |
| ProductScraper.TestType | fetch_products.py:68-90 | the type is K, P or `""`; a non-empty explicit type wins; otherwise any K keyword gives K before any P keyword gives P; the type is `""` exactly when none of these applies |
| ProductScraper.FirstLabelNodeDecides | fetch_products.py:71-78 | the first node that mentions "test type" decides the explicit type |
| ProductScraper.LaterNodesIgnored | fetch_products.py:78 | once a label node is found, the nodes after it never change the explicit type, even when it names no type |
| ProductScraper.Scrape | fetch_products.py:104-126 | fails exactly when the catalog page fails. Every exported row is the extracted page of a collected link whose fetch succeeded: its own title, description and type, with type K, P or `""`, and it is not a job-solution page. Every collected link whose page was fetched and is not a job-solution page is exported |
| ProductScraper.ScrapedUrlsAscending | fetch_products.py:106-119 | the exported rows have strictly ascending URLs, so no page is exported twice |
| ServiceApi.Project | ui_app.py:43-51 | the row has exactly the seven given columns, each holding the record's matching field, or `""` when the field is missing |
| SubmissionGenerator.QueryTextChoice | generate_submission_csv.py:29-30 | a truthy `query` cell is chosen, NaN included; otherwise a truthy `Query` cell; otherwise `""`. A NaN `query` cell always yields the NaN that makes `.strip()` raise, and a NaN result can only come from a NaN cell |
| SubmissionGenerator.RecordRow | generate_submission_csv.py:43-52 | the output row has the `Query` column holding the query plus the seven record columns, each `""` when the field is missing |
| SubmissionGenerator.RecordRows | generate_submission_csv.py:42-52 | one row per record, in order, up to the first element that is not a record |
| SubmissionGenerator.ReplyRows | generate_submission_csv.py:33-59 | a raised call, a non-200 status, a non-JSON body, and a body without a recommendation list all contribute no rows; otherwise the rows are those of the list, and each carries the query |
| SubmissionGenerator.Process | generate_submission_csv.py:28-59 | fails exactly when some row's chosen query is a NaN; every request has `top_k = 10` and a non-blank query; every row's `Query` cell is the text of a request that was sent |
| SubmissionGenerator.Generate | generate_submission_csv.py:20-21 | a missing input CSV fails with `InputNotFound` before any request is sent |
| SubmissionGenerator.ProcessAppend | generate_submission_csv.py:28-59 | the output for two batches of rows is the first batch's requests and rows followed by the second's, and the first failure wins |
| SubmissionGenerator.SingleQuery | generate_submission_csv.py:29-52 | a single row with a blank query sends nothing and writes nothing; any other row sends one request with `top_k = 10` and writes its reply's rows |
| SubmissionGenerator.OneRowPerRecommendation | generate_submission_csv.py:42-52 | a list made only of records gives exactly one row per record, in order |
| RecommenderUi.TableRow | ui_app.py:43-51 | a table row has the seven display columns, each `""` when the field is missing |
| RecommenderUi.Table | ui_app.py:42-53 | one table row per record |
| RecommenderUi.Render | ui_app.py:22-69 | an API error is shown exactly for a non-200 status, and carries that status. A raised call or a non-JSON 200 body is "call failed". For a 200 JSON reply, the page shows "no recommendations" exactly when the extracted list is falsy, and a table exactly when it is a non-empty list of records. So a truthy list that is not all records (a list holding a non-object, a non-empty string or object, a non-zero number, `true`) is "call failed". A table's count equals its rows |
| RecommenderUi.OnSubmit | ui_app.py:15-24 | no request is sent exactly when the query is blank, and then a warning is shown; otherwise the request carries the query and the slider value, which is in 1..10 |
| RecommenderUi.ErrorStatusIgnoresBody | ui_app.py:25-26 | a non-200 reply shows the status whatever its body is |
| RecommenderUi.NoResultsIff | ui_app.py:38-39 | a 200 reply shows "no recommendations" exactly when the extracted list is falsy |
| RecommenderUi.FoundTable | ui_app.py:42-56 | a success shows one table row per record, in order, and the count reported is that number |
| RecommenderUi.UnrecognisedBodyIsNoResults | ui_app.py:31-39 | a JSON body that is neither a list nor an object with `recommendations` is read as the empty list, so the page shows "no recommendations" and not a failure |
| RecommenderUi.EmptyListIsNoResults | ui_app.py:31-39 | an empty list, bare or under `recommendations`, shows "no recommendations" and not a failure |

## Left out

- HTTP calls, timeouts, retries and `time.sleep`; printing; CSV, pickle and `.npy` reading and writing. All of these are I/O. What is read becomes an input and what is written is the result.
- BeautifulSoup parsing and selection (`h1`, the description-block selector, `get_text`, `find_all(string=True)`). The heading, block text, page text and text nodes are inputs, as the parser would produce them.
- SentenceTransformer encoding, `faiss.normalize_L2` and `IndexFlatIP` search. These are floating-point numerics in foreign libraries. The encoder and the normaliser are uninterpreted functions, and no scores or top-k search are modelled.
- CatalogIndex.Build: returns `Success` with empty artifacts for a catalog with no rows. What `encode([])`, `normalize_L2` and `vectors.shape[1]` do with an empty batch is up to the libraries and is not modelled.
- The `/recommend` service is not part of this model. Only its request and its reply, as the two clients see them, are modelled.
- ProductScraper.JoinUrl: models `urljoin` only for hrefs that start with `/`, the only ones the filter keeps. A path is appended to the site; a scheme-relative `//host/...` href takes the site's scheme. Five behaviours of Python's `urljoin` are not modelled: removing dot segments (`/a/../b`); deleting tab, carriage-return and newline characters anywhere in the href; resolving an empty host (`///products/x`) to the site's host, where the model gives `https:///products/x`; dropping an empty `?` or `#`; and dropping an empty `;` parameter at the end of the path (`/products/x;`). So `ProductScraper.CatalogLinks` can keep as two links hrefs that `urljoin` would merge into one.
- Text.Lower and Text.Strip: use ASCII case mapping and Python's ASCII whitespace. Unicode case mapping and Unicode whitespace are not modelled.
- Streamlit: page setup, the widgets' rendering, the table display and the CSV download button. Only the slider's range and default, and the decision of what the page shows, are modelled.
- Pandas CSV parsing: it turns empty fields and strings such as "NA" into NaN. A cell arrives here as already NaN (`None`) or text.
- SubmissionGenerator.QueryText: query cells that pandas parses as numbers are not modelled. A cell is text or NaN.
- JSON numbers are kept as reals, and a record's field values are passed through as JSON values without formatting.
- The content of the error and warning messages. The outcome kinds are modelled; the message text is not.
