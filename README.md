# extrator-argus: a Dafny model of the extraction pipeline

The program pulls contact-centre activity records (detailed tabulations and
detailed calls) from the Argus reporting API, page by page with a cursor.
It archives each endpoint's records as a CSV file in object storage. When
the endpoint has a table configured, it also bulk-inserts the records into
that table in chunks of 500. This project models the three loops that decide
this behaviour, in `index.js`:

- `fetchPaginatedData` is the cursor state machine. It is in
  `extraction.dfy` as the method `FetchPaginatedData`. The API is a scripted
  sequence of replies: a payload (status code, record arrays by field name,
  next cursor, end-of-table flag), a response without payload, or a thrown
  request error. The loop consumes one reply per iteration.
- `uploadJsonToTable` is the chunked, fail-fast insert. It is in
  `bulk_load.dfy` as the method `UploadJsonToTable`. An oracle says whether
  the insert of chunk number k succeeds. The method returns the list of
  chunks handed to the insert client.
- `main` selects the endpoints and processes each one in its own try block.
  It is in `orchestration.dfy` as the methods `Run`, `RunSelected` (the
  `for … of` loop over the selected endpoints) and `ProcessEndpoint`.
  They return one outcome per endpoint reached and the trace of every
  external call (page requests, storage uploads, table inserts). An
  endpoint whose page loop would ask for more pages than its script holds
  is `Unfinished`. The source would still be in that loop at that point, so
  the model makes no upload and no insert for it. The run also reaches no
  later endpoint.
- The empty-input guard of `convertJsonToCsv` is in `csv.dfy`.
- `records.dfy` holds the record values and the two configured endpoints.

Each method is proved equal to a specification function (`Consumed`,
`Collected`, `Chunk`, `FirstRejected`, `EndpointSpec`, ...). The lemmas next
to those functions state the promised behaviour:
- the cursor chain;
- stop exactly at the first stopping reply;
- concatenation of pages;
- chunks put back together give the input;
- fail-fast with no rollback;
- selection by name keeps the configured order;
- per-endpoint isolation.

Some source truthiness tests are kept as written:
- an empty `ENDPOINT` variable selects `'all'`;
- an empty table name skips the load;
- an empty CSV text skips the upload.

`uploadJsonToTable` inserts each chunk unchanged (index.js:148,
index.js:156): no empty-string-to-null step happens before the insert, and
the model does the same.

## Model

| member | source | states |
|---|---|---|
| `Extraction.FetchPaginatedData` | index.js:59-107 | The loop sends one request per consumed reply, and the bodies are exactly `Requests`. It returns exactly `Extracted`: the in-order records of the successful pages among the consumed replies. It reports stopping exactly when a consumed reply stops it. It never fails. |
| `Extraction.ReadReply` | index.js:83-97 | One response: a successful page hands over its `data[dataField]` array and moves the cursor to `idProxPagina`. The loop goes on exactly when that page neither sets `endOfTable` nor returns cursor 0. Any other response, or a thrown request error, adds nothing and ends the loop. |
| `Extraction.RequestCursors` | index.js:62-90 | Every request body sent carries the campaign, the window's start and end instants and the current cursor. That cursor is 0 for the first request, then the `idProxPagina` of the previous page. |
| `Extraction.Consumed` | index.js:85-103 | The loop consumes replies while each one is a successful page that neither sets `endOfTable` nor returns cursor 0. It stops after the first reply that is not such a page. It consumes at least one reply when the script is not empty. |
| `Extraction.ConsumedAtFirstStop` | index.js:89-103 | The number of replies consumed is exactly the position of the first stopping reply, or the whole script when no reply stops. |
| `Extraction.CollectedAppend` | index.js:86 | The records of two runs of replies are those of the first followed by those of the second (append-only accumulation). |
| `Extraction.FailedReplyAddsNothing` | index.js:92-102 | A failed or empty payload, a missing payload or a request error adds no records. |
| `Extraction.NoRequestAfterStop` | index.js:71-103 | After a stopping reply no further page is asked for. Later replies change neither the request bodies sent nor the records. |
| `Extraction.FailureKeepsEarlierPages` | index.js:85-106 | Suppose pages 0..k-1 all ask for a further page and reply k is not a successful page. Then extraction makes exactly k+1 requests, stops, and returns the earlier pages' records in order. |
| `Extraction.AllPagesCollected` | index.js:85-90 | If every page succeeds and only the last one stops, extraction finishes. It returns the concatenation of all pages' record arrays, in order. |
| `Extraction.SuccessfulPagesCollected` | index.js:85-86 | For successful pages, the accumulated records are each page's `data[dataField]` array, concatenated in order. |
| `Extraction.FirstFailureYieldsNothing` | index.js:62-106 | If the first reply fails, extraction stops after one request and returns no records. |
| `Csv.ConvertJsonToCsv` | index.js:110-123 | Empty input gives null. Otherwise the result is the parser's output, which may be null when the parser fails. |
| `BulkLoad.ChunkCount` | index.js:150 | The chunk count is `ceil(n / 500)`: the fewest chunks of 500 that cover n records. |
| `BulkLoad.FirstRejected` | index.js:159-164 | Returns the first chunk number whose insert fails: every earlier chunk succeeded. Returns none when every chunk succeeds. |
| `BulkLoad.Attempts` | index.js:147-165 | The number of inserts issued never exceeds the number of chunks. |
| `BulkLoad.UploadJsonToTable` | index.js:144-167 | Chunk k (0-based) is `data[500k .. min(500(k+1), n))`, and chunks are inserted in order. The loop stops at the first failing chunk and reports that chunk's 1-based number and the table. Otherwise it reports success after every chunk. Empty input makes no insert. |
| `BulkLoad.FlattenChunks` | index.js:147-148 | The first m chunks, put back together, are the first `min(500m, n)` records. |
| `BulkLoad.AllChunksRebuildInput` | index.js:147-148 | All chunks put back together are exactly the input. |
| `BulkLoad.ChunkSizes` | index.js:147-148 | Every chunk but the last holds 500 records. The last holds the remaining 1 to 500. |
| `BulkLoad.FailFast` | index.js:159-164 | Say chunk k is the first to fail. Then the load reports chunk k and the table, and issues exactly k inserts. Chunks 1..k-1 stay inserted, with no rollback; they are exactly the first `500(k-1)` records. |
| `BulkLoad.AllAccepted` | index.js:147-166 | When every insert succeeds, the load reports success after one insert per chunk. |
| `BulkLoad.TwelveHundredRecords` | index.js:147-150 | 1200 records make three inserts, of 500, 500 and 200 records. |
| `BulkLoad.SecondOfThreeFails` | index.js:159-164 | With 1200 records, if the second insert fails, the third is never attempted and the first 500 records remain. |
| `Orchestration.FilterByName` | index.js:177 | The filter keeps exactly the configured endpoints with the given name, and never more endpoints than are configured. |
| `Orchestration.SelectAll` | index.js:172-176 | An unset or empty variable, or `'all'`, runs every configured endpoint in order. |
| `Orchestration.SelectByName` | index.js:174-177 | Any other name selects exactly the endpoints with that name. |
| `Orchestration.FilterKeepsOrder` | index.js:177 | Filtering preserves order: filtering two lists joined together gives the first list's filter followed by the second's. |
| `Orchestration.ConfiguredSelections` | index.js:39-56 | With the two configured endpoints, each name selects its own endpoint and an unknown name selects none. Only `tabulacoesdetalhadas` has a table. |
| `Orchestration.ProcessEndpoint` | index.js:186-206 | One endpoint's outcome and calls are what `EndpointSpec` defines: first the page requests. A page loop that does not stop gives `Unfinished` and nothing more. Otherwise comes the CSV upload when there is text, then the chunk inserts when a table is set. An empty extraction does no upload and no insert. |
| `Orchestration.Reach` | index.js:184-212 | The run reaches every endpoint up to and including the first one whose page loop does not stop, or all of them. |
| `Orchestration.ReachAtFirstStall` | index.js:184-212 | The number of endpoints reached is exactly the position of the first `Unfinished` endpoint, or all of them. |
| `Orchestration.Run` | index.js:171-215 | An empty selection aborts with the selected name before any endpoint runs. Otherwise the selected endpoints are processed in order, up to the first one whose page loop does not stop. The outcomes are those endpoints' outcomes, and the trace is their calls joined in selection order. |
| `Orchestration.RunSelected` | index.js:184-212 | The loop over the selected endpoints processes them in order. Its steps are exactly the first `Reach` endpoint steps, up to and including the first endpoint whose page loop does not stop. Its trace is their calls joined in that order. |
| `Orchestration.EmptyExtractionSkipsUploads` | index.js:190-206 | An endpoint whose extraction returns no records makes neither a CSV upload nor a table insert. It is `NoData` when its loop stopped and `Unfinished` otherwise. |
| `Orchestration.UnfinishedMakesOnlyRequests` | index.js:71-103 | An endpoint whose page loop does not stop makes only page requests: no upload and no insert. |
| `Orchestration.NoTableNoInsert` | index.js:198-202 | An endpoint without a (non-empty) `sqlTable` never makes an insert call. |
| `Orchestration.UploadOnlyWithCsv` | index.js:192-196 | A CSV upload happens exactly when the page loop stopped and the conversion gives non-empty text. It sends that text to the endpoint's bucket. |
| `Orchestration.LoadIndependentOfCsv` | index.js:192-202 | Once extraction has stopped with records, the table step runs exactly when a table is set. Its result does not depend on what the CSV parser returned. |
| `Orchestration.CallsInPhaseOrder` | index.js:188-202 | Within one endpoint, all page requests come before the CSV upload, which comes before all table inserts. |
| `Orchestration.TracePrefix` | index.js:184-212 | The calls of the first endpoints are a prefix of the calls of the whole run. |
| `Orchestration.EveryEndpointRuns` | index.js:184-212 | Suppose every earlier endpoint's page loop stopped. Then the run reaches endpoint j, whatever those endpoints' loads did (a caught chunk failure included). Endpoint j's calls follow theirs in the trace. |
| `Orchestration.StallStopsRun` | index.js:71-103 | After an endpoint whose page loop does not stop, no later endpoint is reached. |
| `Orchestration.OutcomesIsolated` | index.js:184-212 | There is one step per selected endpoint, and the run records those up to `Reach`. How one endpoint's inserts turn out (a caught chunk failure included) changes neither how far the run gets nor any other endpoint's outcome. |
| `Orchestration.ReachSame` | index.js:184-212 | Two runs whose endpoints stall at the same positions reach the same number of endpoints. |

## Left out

- The HTTP client, the storage client and the table-insert client are not modelled. The first becomes a scripted sequence of replies per endpoint; the second becomes an upload call recorded in the trace; the third becomes an oracle indexed by endpoint position and chunk number.
- The insert outcome depends only on the endpoint and the chunk number, not on the rows. The storage client's returned error is only logged by the source, so it has no effect on control flow and is not modelled.
- A storage upload that throws (a rejected `await uploadCsvToStorage`, index.js:195) is not modelled. In the source it reaches the endpoint's catch (index.js:207) and skips that endpoint's table load. The model's upload never throws, so the table step always follows it. `Orchestration.LoadIndependentOfCsv` covers what the CSV parser returned, not an exception from the upload. A thrown insert client falls under the same gap: the model's table inserts report only a success flag per chunk.
- `FetchPaginatedData`: when the loop would ask for a page beyond the end of the script, the model stops and returns `finished == false`. The source would send another request. The length of the script is the termination measure, because the source itself does not guarantee termination.
- `Orchestration.Run`: for such an endpoint, the model records `Unfinished` and ends the run there. The source would still be requesting pages for it. The model does not show the requests that would follow.
- `FetchPaginatedData`: `codStatus` is an integer compared with 1, `endOfTable` is a boolean, and `idProxPagina` is an integer. JavaScript truthiness of other types in these fields (a non-boolean `endOfTable`, a missing `idProxPagina`) is not modelled.
- `pageCount`, `qtdeRegistros` and `descStatus` only feed log lines and are left out, like all console logging.
- The CSV rendering of `json2csv` (header from the union of keys, quoting) is a library and is not modelled. It is the `parse` input.
- The CSV file name is not modelled. It depends on `Date.now()` through its timestamp. The default window dates (`getYesterday`, `getSevenDaysAgo`) read the clock, and the window is an input.
- Reading `dotenv` and the environment, and the credential check with its `process.exit`, are left out. The invalid-selection `process.exit(1)` is modelled as the `InvalidEndpoint` result.
- `BulkLoad.LoadResult` carries the chunk number and the table name. It does not carry the text of the error message.
- `async`/`await` is not modelled. Every call is modelled as an ordinary sequential step.
- index.js:154 has a stray `_` after `{ error }`. The model follows the evident intent: the error is taken from the insert result.
