# Duplicating the curated runbook repository — a Dafny model

The script copies the runbook procedures of a platform's "PlexTrac Curated" repository into a new, editable
repository, using the platform's GraphQL API. This project models the script's core in `main.py` and
proves properties of that model:

- **Paginator** (`paginator.dfy`): `get_page_of_runbook_procedures`. It requests pages of 100 at offset
  `100 * page`. It appends each non-empty page to the accumulator and records the server's reported total.
  It recurses until the accumulated count equals that total, which starts at -1. A listing response without
  its envelope ends the run.
- **Selection** (`selection.dfy`): the filter in `load_procedures_from_instance`. It keeps the summaries whose
  repository has type `"curated"` (any such repository) and whose `isEditable` is false, in listing order.
- **Detail fetcher** (`detail_fetcher.dfy`): the per-procedure detail loop and the reshape of a detail record
  into a creation request. Items whose response is not JSON, or whose handling raises, are skipped. A
  shortfall is put to the operator, who either continues or ends the run.
- **Repository** (`repository.dfy`): `create_new_repo`. It builds the creation request and reads the new id
  from `data.runbookRepositoryCreateV2.id`. It returns the id or a fatal error.
- **Bulk loader** (`bulk_loader.dfy`): `add_procedures_to_repo`. It overwrites `data.repositoryId` in place
  on each request and then submits the request once. A submission that raises is skipped. The script does not read the response.
- **Pipeline** (`pipeline.dfy`): `load_procedures_from_instance` as a whole, and an end-to-end statement
  about what the destination repository holds.

Every network response and every prompt answer is an input to the model:

- The listing server is a sequence of page responses. Element n answers the request for page n.
- The detail server is a function from procedure id to response.
- Each submission's outcome is an element of a sequence of replies.
- The operator's continue answer is a boolean.

Each `exit()` becomes an `Err`/`Failed`/`Aborted` value that carries a `Fatal` reason.

Two behaviours of the script are worth knowing, and the model keeps both as written:

- Tags are passed to the creation request as the tag objects the detail query returns (`id`, `tag`,
  `__typename`; main.py:108, main.py:149). The script's own note on the expected input shows tags as
  strings (main.py:137-139), and the creation mutation declares `$tags: [String!]` (main.py:198).
  `DetailFetcher.Reshape` states that tags pass through unchanged.
- An empty page neither appends nor records a total (main.py:64-66), and paging ends only when the count
  equals the total (main.py:68-69). So when the first page is empty, the total stays -1 against a count
  of 0, and the script asks for page after page. `Paginator.EmptyListingNeverStops` states this.

The script never deletes the repository it created, even when the operator stops the run afterwards, so
the model has no deletion.

## Model

| member | source | states |
|---|---|---|
| `Paginator.Absorb` | main.py:64-66 | a non-empty page appends its items, in order, to the end of the accumulator and sets the total to the reported value; an empty page changes neither |
| `Paginator.Step` | main.py:59-71 | a response without the listing envelope aborts with a fatal error; a non-empty page without a total aborts; otherwise the call stops exactly when the accumulated count equals the recorded total after this page, and otherwise goes on with page + 1 |
| `Paginator.Paginate` | main.py:14-71 | the recursion ends at a page it requested, at or after the page it started from; the accumulator it started with is a prefix of what it returns; when the server's answers run out it is still paging at the page after the last one answered |
| `Paginator.GetAllPages` | main.py:14-71 | the paging loop returns what the recursion returns, and its n-th request has limit 100 and offset 100 * n; it makes one request per page up to the one it stopped or failed on |
| `Paginator.StateAfterAppends` | main.py:64-66 | over a whole run the accumulator only grows at its end: after page j it is the accumulator before page j followed by page j's items; an empty page leaves the total alone |
| `Paginator.CompleteIff` | main.py:68-71 | a run completes at page k if and only if every page up to k was readable, the count differed from the total after each earlier page, and it equals the total after page k; the result is everything accumulated through page k |
| `Paginator.FailedAtUnreadable` | main.py:60-62 | the first unreadable page reached (missing envelope, or items without a total) ends the run with a fatal error at that page and no result |
| `Paginator.EmptyPagesNeverStop` | main.py:64-71 | while the count differs from the recorded total, empty pages never end the run: it asks for page after page until the server's answers run out |
| `Paginator.EmptyListingNeverStops` | main.py:68-69 | from the first call (empty accumulator, total -1), a server that answers only empty pages is paged forever |
| `Paginator.ConsistentServerYieldsAll` | main.py:63-71 | when the non-empty pages concatenate to the listing and each reports its length, with at least one non-empty page, the run returns every item in page order and stops at the last non-empty page; empty pages on the way are passed over |
| `Selection.SelectCurated` | main.py:99 | the result is no longer than the listing; it holds exactly the listed summaries whose repository has type "curated" and that are not editable |
| `Selection.SelectCuratedKeepsOrder` | main.py:99 | the selection is a subsequence of the listing: relative order is kept |
| `Selection.SelectCuratedCounts` | main.py:99 | each kept summary occurs as often as in the listing, every other one not at all |
| `Selection.SelectCuratedAppend` | main.py:99 | filtering a concatenation is concatenating the filtered parts |
| `DetailFetcher.Reshape` | main.py:111-149 | name, shortName and description are copied; the repository id becomes data.repositoryId; execution steps keep their length, order, description and success criterion; techniqueIds lists the technique ids in order; tags pass through unchanged |
| `DetailFetcher.ReshapeIgnoresDroppedFields` | main.py:112-119 | the record's own id, its editable flag, the repository's name, step ids and technique details do not affect the request |
| `DetailFetcher.Collect` | main.py:105-150 | the loop yields at most one request per selected summary |
| `DetailFetcher.ConfirmLoaded` | main.py:161-165 | the loaded requests are returned if and only if their count matches the selection or the operator chose to continue; otherwise the run ends because the operator declined |
| `DetailFetcher.LoadDetails` | main.py:105-165 | one detail query per selected summary, for its id, in order; the result is the confirmed list of reshaped records of the successful queries |
| `DetailFetcher.CollectAppend` | main.py:105-157 | items are handled independently and in order: the loop over a + b yields the loop over a followed by the loop over b |
| `DetailFetcher.SkipsFailedItem` | main.py:110-155 | an item whose response is not JSON or whose handling raises is skipped, and the items before and after it are handled as if it were absent |
| `DetailFetcher.CollectAllFetched` | main.py:105-150 | when every query succeeds, the i-th request is the reshape of the i-th summary's record |
| `DetailFetcher.CollectShortIffFailure` | main.py:105-161 | fewer requests than summaries result if and only if some item's query failed |
| `DetailFetcher.CollectProvenance` | main.py:109-150 | every request is the reshape of the record returned for some selected summary |
| `Repository.ExtractRepositoryId` | main.py:177-185 | an id is returned if and only if data.runbookRepositoryCreateV2.id is present and not null, and it is that id; every other response, and a raising call, is fatal |
| `Repository.CreateNewRepository` | main.py:168-187 | the creation request carries the operator's name and prefix, the fixed description and type "open"; the outcome is the extracted id or a fatal error |
| `BulkLoader.BoundTo` | main.py:197 | binding a request sets data.repositoryId to the destination and keeps every other field |
| `BulkLoader.Created` | main.py:194-206 | the destination never receives more procedures than were submitted; only requests the server accepted are created |
| `BulkLoader.AddProceduresToRepo` | main.py:190-207 | the list is rebound in place to the destination; every request is submitted exactly once, in list order, after its rebinding, whatever happened to earlier ones; the created ones are those the server accepted |
| `BulkLoader.CreatedSubset` | main.py:194-206 | every created procedure is a submitted request whose submission was accepted |
| `BulkLoader.CreatedInDestination` | main.py:197-199 | every created procedure is bound to the destination repository, never to the source |
| `BulkLoader.CreatedAppend` | main.py:194-206 | submissions are independent: the outcome for a + b is the outcome for a followed by that for b |
| `BulkLoader.FailureSkipped` | main.py:199-206 | a submission that raises, or that the server answers without creating anything, is skipped and does not keep any later request from being created |
| `BulkLoader.AllAccepted` | main.py:194-201 | when every submission is accepted, the destination holds every request in order |
| `Pipeline.LoadFromInstance` | main.py:93-165 | the loading stage loads only after paging completes; it never loads more requests than selected summaries, and fewer only with the operator's consent; it is still paging exactly when paging is; a fatal listing response ends it with that reason |
| `Pipeline.LoadProceduresFromInstance` | main.py:93-165 | paging, filtering, fetching and confirming in sequence give the outcome of the whole loading stage |
| `Pipeline.MissingEnvelopeIsFatal` | main.py:60-62 | a first listing response without its envelope ends the run with nothing loaded |
| `Pipeline.EmptyListingNeverLoads` | main.py:93-99 | an all-empty listing never gets past paging |
| `Pipeline.LoadedWithoutConsentIsComplete` | main.py:158-165 | without the operator's consent, a loaded run has one request per selected summary, and every detail query succeeded |
| `Pipeline.LoadsEveryCuratedProcedure` | main.py:93-165 | with a consistent listing and successful detail queries, the run loads one request per curated, non-editable procedure, in listing order, each the reshape of its record |
| `Pipeline.MigrationPreservesProcedures` | main.py:93-207 | end to end, when all queries and submissions succeed, the destination holds one procedure per selected one, in order, bound to the destination, with name, shortName, description, execution steps (description and success criterion, in order), technique ids and tags as fetched |

## Left out

- The GraphQL transport, `Auth` and the query documents: every response is an input and the queries are not modelled.
- Interactive prompts: the repository name and prefix are string inputs and the continue answer is a boolean. Logging and `IterationMetrics` are not modelled.
- `load_procedures_from_file`, the JSON dump and the `__main__` driver: file I/O and prompt-driven plumbing.
- `settings.py` (configuration constants and a banner) and `api/_v1/files.py` (wrappers over a request handler that is not part of this model).
- The mutable default argument of `get_page_of_runbook_procedures`: the model passes the accumulator explicitly, as the only caller does.
- Paginator.GetAllPages: the caller's list is not grown in place. It is passed in and the grown list is returned. On the fatal path the process exits, so the partly grown list is never observed.
- Paginator.Paginate: the interpreter's recursion depth limit is not modelled. The length of the server's answer sequence bounds how far a run is followed; reaching it gives `Unfinished`.
- A listing total that is not an integer is not modelled.
- Paginator.Step: a non-empty page without `meta.pagination.total` raises an uncaught `KeyError` in the source. The model reports it as a fatal `ListingTotalMissing`.
- DetailFetcher.Reshape: a returned record missing a field it reads (which raises `KeyError`) is not modelled. The record is taken as well-formed; any exception inside the loop's `try` is the `Raised` response.
- The listing's `updatedAt`/`deletedAt` fields, `__typename` fields, and the technique tactics and methodologies are not modelled. The reshape drops them or never reads them.
- DetailFetcher.LoadDetails: the detail server is a function of the procedure id, so two queries for the same id get the same answer. Transient failures across repeated ids are not modelled.
- Repository.ExtractRepositoryId: an `id` of a non-string JSON type is not modelled (ids are strings). A `data` or `runbookRepositoryCreateV2` member that is present but not an object behaves like null: the next `.get` raises.
- BulkLoader.AddProceduresToRepo: `Accepted` stands for the server creating the procedure. The script cannot tell it from `Rejected`, an answer without an exception that creates nothing, because it never reads the response (main.py:199-201); both take the path that logs success. `Raised` covers every exception of the call. The source returns nothing. The model returns the list of submitted requests and the list of created ones as the observable effect on the server. The same dict appearing twice in the list is not modelled.
- Deleting the destination repository when the operator aborts: the source has no such step.
