# esei transfer engine, modelled in Dafny

esei moves documents between an Elasticsearch index and a newline-delimited
JSON file. This project models its transfer engine (`es/engie.go`) and the
parameter check of its command line (`main.go`):

- **Export** (`EsEngine.Export`): one search on the configured index, From 0 and
  Size `EsSize`, then each hit's source is marshalled to one JSON line, in hit
  order, stopping silently at the first hit that fails to marshal. A failed
  search returns no lines and the error `"Search ElasticSearch Error. "`
  followed by the cause.
- **Import** (`EsEngine.Import`): the `esimport` retry loop. Lines are written
  one index call at a time. The first failed write ends the pass, bumps the
  consecutive-failure counter `hasRetry` and records the break point. The next
  pass sleeps `5 * hasRetry` seconds and resumes at the failing line. A success
  resets the counter. The loop gives up once ten writes in a row have failed,
  and the function returns a nil error in every case. The inner loop over
  `tda` (one pass) is the method `EsEngine.Pass`; the outer loop, with its
  sleep and reslicing, is `EsEngine.Import`. The outer loop terminates by the
  lexicographic measure (lines left from the break point, ten minus
  `hasRetry`).
- **Configuration** (`Cli`): `isParaValid` checks the URL first, then the index
  name. `main` builds `EsInfo` without a `Mode`, so `Do` takes the export branch.

The search client is represented by oracles, which are parameters of the methods:

- a search is a total function from the request (index, From, Size) to a
  result or an error message;
- `json.Marshal` is a partial function, written `S -> Option<string>`;
- an index write is a function `indexOk` from the number of the call (0, 1, 2, ...)
  to success or failure;
- the non-blocking ticker read after call `c` is `tickReady(c)`.

The run is deterministic given these answers, so quantifying over all oracle
functions covers every behaviour of the remote index and the timer.

`Import` returns the nil error and also three observations of what the run did:

- the sequence of index writes, each with its input position, body and outcome;
- the sleeps, in seconds, in order;
- the final `totalLoad`.

Its postcondition says that the writes satisfy `ImportTrace`. That predicate
combines three rules:

- each write sends the line at the next position (the line after a success,
  the same line after a failure);
- every write is made while fewer than ten writes in a row have failed;
- the run ends with every line indexed, or after ten failures in a row.

The postcondition also ties the sleeps to `Backoffs` and the counter to
`Progress`. `EsImportProperties` proves what these definitions imply.

Three behaviours of the code are easy to misread, and the model keeps them
as the code has them:

- Export issues a single search request. It does not page with a cursor.
- Export stops at the first marshal failure and drops the rest of the hits.
  It does not skip the failing hit and go on.
- `totalLoad` changes only when a tick is pending. It then grows by the
  in-pass index of the write, not by one. In the three-line scenario where
  the second write fails once, every line is indexed after exactly one 5-second
  sleep. With a tick at every check, the counter ends at 1, not at 3
  (`EsImportProperties.RetryOnceScenario`).

## Model

| member | source | states |
|---|---|---|
| EsEngine.DoBranch | es/engie.go:41-98 | Mode 0 selects export, Mode 1 selects import, any other Mode transfers nothing |
| EsEngine.Export | es/engie.go:127-150 | a failed search gives no lines and "Search ElasticSearch Error. " + cause; a successful one gives a nil error and the marshalled sources of the longest prefix of hits before the first marshal failure, in hit order, never more lines than hits |
| EsEngine.Import | es/engie.go:154-207 | always returns nil; its writes satisfy ImportTrace (each write sends the next position, only while under ten failures in a row, and the run ends complete or after ten failures in a row); its sleeps are Backoffs and its totalLoad is Progress of those writes |
| EsEngine.Pass | es/engie.go:170-198 | one pass writes tda = data[off..] in order from NextPos: on a failure it reports the break point and the failing write is the last one, with hasRetry one higher when it was the first write of the pass; without a failure every line is indexed and hasRetry is 0; the writes stay chained and bounded, the sleep owed for the previous failure is accounted for, and totalLoad tracks Progress |
| EsEngine.TrailingFailsMeaning | es/engie.go:178-186 | the counter hasRetry (TrailingFails) is exactly the number of failed writes at the end of the run so far: those last writes failed and the one before them succeeded |
| EsEngine.TrailingSuccessesMeaning | es/engie.go:171-198 | the in-pass index i (TrailingSuccesses) is exactly the number of successful writes since the last failure |
| EsImportProperties.DeliveredIsPrefix | es/engie.go:160-198 | the successfully written lines are exactly the first NextPos lines of the input, in input order |
| EsImportProperties.FirstWriteIsFirstLine | es/engie.go:158-171 | the first write sends line 0 |
| EsImportProperties.ResumeAtFailure | es/engie.go:163-183 | after a failed write the next write resends the same line; after a success it sends the next line |
| EsImportProperties.NeverBackwards | es/engie.go:167-171 | a later write is never at an earlier line, and is strictly after every line already indexed |
| EsImportProperties.IndexedAtMostOnce | es/engie.go:171-198 | two successful writes never send the same input line |
| EsImportProperties.AtMostMaxRetryInARow | es/engie.go:161-186 | no run of consecutive failed writes is longer than ten |
| EsImportProperties.RunLength | es/engie.go:161-203 | a run makes at most ten writes per input line, so the loop terminates |
| EsImportProperties.GivingUpLeavesSuffix | es/engie.go:161-206 | when some line is not indexed, the run ended after ten failures in a row at the first unindexed line, and the dropped lines are exactly the suffix from it |
| EsImportProperties.CompleteIff | es/engie.go:161-206 | every line is indexed if and only if the run did not end on ten failures in a row |
| EsImportProperties.BackoffsLinear | es/engie.go:163-166 | every sleep is a multiple of 5 seconds between 5 and 45 |
| EsImportProperties.SleepBeforeRetry | es/engie.go:163-166 | the sleep before the write that follows a failed one is exactly 5·r seconds, where r (between 1 and 9) is the number of failures in a row so far |
| EsImportProperties.SleepsCount | es/engie.go:161-183 | one sleep follows each failed write except the one that makes the loop give up; no sleep comes before the first pass |
| EsImportProperties.EveryWriteFails | es/engie.go:161-203 | if every write fails, line 0 is tried ten times with sleeps 5, 10, ..., 45 seconds and nothing is indexed |
| EsImportProperties.EveryWriteSucceeds | es/engie.go:171-202 | if every write succeeds, there is one pass of len(data) writes, write c sends line c, every line is indexed and there is no sleep |
| EsImportProperties.EmptyInput | es/engie.go:160-206 | empty input gives no write, no sleep and totalLoad 0 |
| EsImportProperties.ImportTraceUnique | es/engie.go:154-207 | the input and the oracle's answers determine the run: two traces meeting ImportTrace are equal |
| EsImportProperties.NoTickNoProgress | es/engie.go:188-196 | without a pending tick totalLoad stays 0 |
| EsImportProperties.ProgressSumsIndices | es/engie.go:188-196 | with every write succeeding and a tick at every check, totalLoad ends at n(n-1)/2 for n lines: it grows by the in-pass index, not by one |
| EsImportProperties.RetryOnceScenario | es/engie.go:154-207 | three lines, second write fails once: writes at lines 0, 1, 1, 2, one sleep of 5 seconds, all three lines indexed in order, totalLoad 1 with ticks at every check |
| EsExportProperties.MarshalledPrefixUnique | es/engie.go:139-148 | the exported lines are determined by the hits and the marshal function |
| EsExportProperties.EveryHitConverts | es/engie.go:139-148 | when every hit marshals, the export is every hit's line in hit order |
| EsExportProperties.FailedHitTruncates | es/engie.go:141-145 | a hit that fails to marshal ends the export, even when later hits would marshal |
| Cli.IsParaValid | main.go:56-66 | an empty URL yields "esurl can't be empty" whatever the index; a set URL with an empty index yields "index can't be empty"; nil exactly when both are set |
| Cli.OnlyUrlAndIndexMatter | main.go:56-66 | user, password, type, size, file and debug never affect the check |
| Cli.Start | main.go:67-88 | main exits with the check's message when it fails; otherwise it runs Do with every flag copied into EsInfo and Mode 0 |
| Cli.CliAlwaysExports | main.go:78-88 | a run started from the command line always takes the export branch of Do |

## Left out

- `clientInit` and every call into the Elasticsearch client library: the search and the index write are oracles. Index name, type, `Query(nil)` and `Pretty(true)` are passed through unchanged and not modelled.
- `Do`'s file handling: opening the output file without truncation, writing lines, and splitting the input file into lines with `bufio.Scanner`. This is operating-system and library behaviour. No export/import round trip is stated, because it would depend on that behaviour.
- The ticker goroutine and its alignment to 30-second wall-clock boundaries: this is concurrency and time. It appears only as the `tickReady` answer at each non-blocking read.
- Real sleeping: the model records each sleep's duration in seconds instead.
- The internals of `json.Marshal`: it is treated as an opaque partial function.
- All logging and printing.
- Flag registration, `flag.Parse`, the flag defaults and `os.Exit`: these are command-line plumbing. `Flags` takes the already-parsed values.
- Pagination: the code performs a single search, so there is none to model.
- Nil versus empty slices: Go distinguishes them, and the model writes both as `[]`.
