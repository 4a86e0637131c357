# Webhook relay: delivery lifecycle model

A Dafny model of the backend of a webhook relay. Mailboxes register a target
URL and receive an API key; inbound webhooks posted to a mailbox with the
right key become `pending` events with a tracking number; a background
delivery run POSTs the payload to the target up to three times, logging one
attempt row per try and sleeping `2 ** n` seconds after failed attempt `n`,
and leaves the event `delivered` or `failed`; a failed event can be retried,
which resets it to `pending` and runs a fresh cycle whose attempts are again
numbered from 1; the dashboard lists events with their attempt counts and
shows one event's attempt history.

The database is an immutable value (`Storage.Store`): mailboxes and events
are maps keyed by their primary keys, attempts are an append-only sequence in
insertion order. Every handler is a pure function from a store to the store
it leaves and its answer or error. The HTTP POST becomes an outcome per
attempt supplied by the caller (`Delivery.Outcome`: a 2xx answer or an
exception text); the backoff sleep becomes a `Sleep` step in the run's trace,
so `Delivery.Deliver(store, tn, outcomes)` yields the new store, the trace of
commits and sleeps, and (through `Delivery.Delays`) the requested delays.
`outcomes` always holds one entry per attempt of the budget; entries after the
first success are never read. Fresh identifiers (mailbox id, API key, tracking
number) are parameters. The background task that ingestion and retry
schedule is modelled as a delivery run performed right after the handler
(`Api.ReceiveAndDeliver`, `Api.RetryAndDeliver`).

Modules: `Wrappers` (Option, Result), `Models` (backend/models.py),
`Storage` (the tables and the two aggregate queries they support),
`Delivery` (backend/delivery.py), `Api` (backend/main.py), `Lifecycle`
(invariants and end-to-end behaviour across handlers).

The delivery loop `Delivery.Run` follows the code step by step; it is
related by `Delivery.RunExact` to an independent, non-recursive description
of one cycle (`Delivery.CycleRecords`, `Delivery.FinalStatus`,
`Delivery.Backoffs`), from which the per-property lemmas are derived.

### Behaviour as written

The model follows the code in these places, where one would expect
otherwise:

- The run also sleeps after the third failure (backend/delivery.py:38 runs
  before the loop ends), so an all-failing cycle requests delays 2, 4 and 8
  seconds and the event stays `pending` during the last wait.
- A missing mailbox row does not abort the run: `mailbox.target_url` is read
  inside the `try` (backend/delivery.py:16), so each attempt logs a `failed`
  row with the text of the resulting exception and the event ends `failed`
  (`Delivery.DeliverMissingMailbox`). Only a missing event row aborts the run
  before any write (`Delivery.Fault.EventNotFound`).
- Retrying an unknown tracking number raises an unhandled exception (HTTP
  500), not a 404 (`Api.RetryWebhook`).
- Attempt numbers restart at 1 in every cycle, so after a retry an event's
  history holds two attempts numbered 1; cycles are told apart only by their
  position in the log (`Lifecycle.RetryStartsNewCycle`).

## Model

| member | source | states |
|---|---|---|
| Storage.History | backend/main.py:124-126 | the detail query's attempt list holds exactly the attempt rows whose tracking number matches, and no more rows than the log |
| Storage.CountAttempts | backend/main.py:93-96 | the per-event `count` aggregate over the outer join equals the number of rows the detail query returns for that event, and never exceeds the log's length |
| Models.NewEvent | backend/models.py:26-29 | the new event row (definition, no contract of its own): the given tracking number, mailbox and payload with the column default status; `Api.ReceiveWebhook` proves the stored event is pending with this mailbox and payload |
| Storage.Valid | backend/models.py:16-37 | the integrity every handler keeps (definition, no contract of its own; the schema declares no foreign key on the attempts' tracking number and no row-shape constraint): keys name their rows, every event refers to an existing mailbox, attempt ids are the row positions, every attempt refers to an existing event and is well formed; each handler's preservation lemma below states it is kept |
| Storage.HistoryAppend | backend/main.py:120-132 | the attempt log is append-only: the history of an extended log is the old history followed by the new rows' history, in insertion order |
| Storage.CountAppend | backend/main.py:93-96 | counting over an extended log adds the counts of old and new rows |
| Storage.NoRowsNoCount | backend/main.py:93-96 | an event's count is 0 exactly when no attempt row carries its tracking number (outer join), which is exactly when its history is empty |
| Storage.TrackingNumbersDistinct | backend/models.py:26 | `tracking_number` is the event key: distinct events have distinct tracking numbers |
| Storage.AttemptIdsDistinct | backend/models.py:36 | each attempt row has its own integer id, though many rows share a tracking number |
| Delivery.Backoff | backend/delivery.py:38 | the wait after attempt n, 2 ** n seconds (definition, no contract of its own); `Delivery.BackoffSchedule` and `Delivery.DeliverBackoff` prove the waits a run requests |
| Delivery.BackoffSchedule | backend/delivery.py:38 | the backoff after attempts 1, 2, 3 is 2, 4, 8 seconds |
| Delivery.Targeted | backend/delivery.py:11-16 | the outcomes the attempts see (definition, no contract of its own): the target's when the mailbox row exists, otherwise the `'NoneType' object has no attribute 'target_url'` failure each time; `Delivery.DeliverMissingMailbox` proves what a run then writes |
| Delivery.Run | backend/delivery.py:13-41 | the loop touches only the attempt log and this event's status, keeps earlier rows, appends at most one row per remaining attempt and at least one if any remain, and never leaves the event pending |
| Delivery.Deliver | backend/delivery.py:8-42 | a run aborts without writing exactly when the event is missing; otherwise it appends 1 to 3 rows after the unchanged old ones, changes only this event's status, to delivered or failed, and no mailbox or other event |
| Delivery.RunExact | backend/delivery.py:13-41 | from any attempt on, the loop appends exactly the rows of the independent cycle description, sets the status that description ends in, and requests one backoff per failure |
| Delivery.DeliverExact | backend/delivery.py:8-42 | a whole run equals the independent description of one cycle over the outcomes its attempts see |
| Delivery.DeliverNumbering | backend/delivery.py:6-13 | one run writes between 1 and MAX_RETRIES = 3 rows for this tracking number, numbered 1, 2, ... in order, with consecutive new ids |
| Delivery.DeliverSucceedsAt | backend/delivery.py:13-28 | if the first success is at attempt k, exactly k rows are written, k-1 failed with their error text then one success without error; the event ends delivered and only k-1 delays are requested |
| Delivery.DeliverAllFail | backend/delivery.py:30-41 | if every attempt fails, exactly 3 failed rows with their error texts are written, the event ends failed, and the delays are 2, 4, 8 |
| Delivery.DeliverMissingMailbox | backend/delivery.py:11-16 | with the mailbox row missing every attempt fails on the target URL lookup: 3 failed rows carrying that exception's text, event failed, delays 2, 4, 8 |
| Delivery.DeliverRecordShape | backend/delivery.py:19-36 | a failed row carries its attempt's exception text, a success row has no error, numbers stay within the budget, only the last row can be a success, and it is one exactly when the event ends delivered |
| Delivery.DeliverBackoff | backend/delivery.py:37-38 | after failed attempt n the run waits 2 ** n seconds; it waits after every failure, including the third, and never after a success |
| Delivery.RunReplays | backend/delivery.py:19-41 | performing the loop's commits in order, sleeps doing nothing, gives exactly the store the loop computes |
| Delivery.RunCommitsBeforeSleeps | backend/delivery.py:30-38 | every sleep comes right after the commit of the failed attempt it backs off from, lasting 2 ** (that attempt's number) seconds; the loop starts with a commit |
| Delivery.RunWritesStatusLast | backend/delivery.py:25-41 | the event status is written only by the loop's last step, and that write is the status the loop ends with |
| Delivery.DeliverTrace | backend/delivery.py:26-41 | each failed attempt is committed before its backoff wait begins, the writes of a run replay to its final store, and the terminal status is written last |
| Api.CreateMailbox | backend/main.py:34-46 | adds exactly one mailbox, under the new id, with the given name and target URL and the issued key, and returns it; nothing else changes |
| Api.Authorized | backend/main.py:60-63 | the key check (definition, no contract of its own): the mailbox exists and the key is the one stored for it; `Api.ReceiveWebhook`'s 401 if-and-only-if and `Lifecycle.NewMailboxOpensWithItsKey` prove its effect |
| Api.ReceiveWebhook | backend/main.py:52-76 | fails with status code 401 and creates nothing exactly when the mailbox is unknown or the key differs; otherwise adds exactly one pending event bound to the mailbox with the given payload and returns its tracking number |
| Api.ListWebhooks | backend/main.py:83-117 | one row per event whose mailbox exists, carrying the event's status, the mailbox's name and target URL, and as attempt count the length of the event's history |
| Api.WebhookDetails | backend/main.py:120-132 | returns the event if it exists (none otherwise) and exactly the attempt rows with its tracking number, as many as the dashboard count; the store is not changed |
| Api.ListAgreesWithDetails | backend/main.py:87-132 | the dashboard's attempt count for a listed event is the length of the history the detail query returns |
| Api.RetryWebhook | backend/main.py:135-148 | an unknown event raises (status code 500) and an event not failed is refused with status code 400, both without change; a failed event is set to pending and nothing else changes |
| Api.ReceiveAndDeliver | backend/main.py:65-76 | ingestion answers as the handler does; after its scheduled run the new event is delivered or failed and the older attempt rows are intact |
| Api.RetryAndDeliver | backend/main.py:143-148 | a retry answers as the handler does; after its scheduled run the event is delivered or failed and at least one row was appended after the old ones |
| Lifecycle.CreateMailboxPreservesValid | backend/main.py:37-46 | registering a mailbox keeps keys, references and attempt ids consistent |
| Lifecycle.ReceivePreservesValid | backend/main.py:60-71 | ingestion keeps the store consistent: the new event refers to an existing mailbox |
| Lifecycle.DeliverPreservesValid | backend/delivery.py:19-41 | a delivery run keeps the store consistent: new rows take the next ids, belong to an existing event and are well formed |
| Lifecycle.RetryPreservesValid | backend/main.py:140-144 | a retry keeps the store consistent |
| Lifecycle.ReceiveAndDeliverPreservesValid | backend/main.py:65-73 | ingestion followed by its delivery run keeps the store consistent |
| Lifecycle.RetryAndDeliverPreservesValid | backend/main.py:143-146 | a retry followed by its delivery run keeps the store consistent |
| Lifecycle.NewMailboxOpensWithItsKey | backend/main.py:37-63 | a newly registered mailbox accepts a webhook exactly when the presented key is the one it was issued |
| Lifecycle.FreshEventHasNoAttempts | backend/main.py:87-117 | a just-ingested event is listed as pending with 0 attempts and an empty history |
| Lifecycle.ListCoversEvents | backend/main.py:95 | in a consistent store the inner join with mailboxes drops no event |
| Lifecycle.DeliveryExtendsOwnHistory | backend/delivery.py:19-36 | a run extends its event's history by exactly one cycle's rows, after the old ones |
| Lifecycle.DeliveryKeepsOtherHistories | backend/delivery.py:19-36 | a run leaves every other event's history unchanged, whether or not the mailbox exists |
| Lifecycle.RetryStartsNewCycle | backend/main.py:143-146 | retrying a failed event keeps its old attempts and appends a new cycle numbered from 1, ending in that cycle's status |
| Lifecycle.IngestedEventCycle | backend/main.py:65-73 | ingestion followed by its run leaves the new event with exactly one cycle of attempts and that cycle's terminal status |
| Lifecycle.AlwaysAcceptingTarget | backend/delivery.py:13-28 | against a target answering 2xx, the event ends delivered with one success attempt numbered 1 |
| Lifecycle.IngestAgainstFailingTarget | backend/delivery.py:30-41 | against a target that always fails, the new event ends failed with three failed attempts numbered 1..3 |
| Lifecycle.RetryAgainstFailingTarget | backend/main.py:140-146 | retrying a failed event against a failing target appends three failed attempts numbered 1..3 after the old ones and leaves it failed |
| Lifecycle.AlwaysFailingTarget | backend/main.py:135-148 | end to end against a failing target: three failed attempts, status failed; retry resets to pending, then six attempts numbered 1,2,3,1,2,3, status failed |

## Left out

- The HTTP POST, its 5-second timeout and `raise_for_status` (backend/delivery.py:15-17): replaced by the `Outcome` of each attempt, given as input.
- `asyncio.sleep` (backend/delivery.py:38): the delay is recorded as a `Sleep` step, not waited out.
- Database sessions, commits and table creation: the store is a value; commit boundaries appear only as `Commit` steps of a run's trace. A crash between steps is not modelled.
- FastAPI routing, CORS, response serialisation and HTTPException plumbing: errors are `Api.ApiError` values with their status codes. A request without the `x-api-key` header is refused by FastAPI's validation (422) before the handler runs; the model takes the key as a present string.
- `list_mailboxes` (backend/main.py:26-31): a plain read of the mailbox table, outside the delivery lifecycle.
- Background task scheduling and concurrency: a scheduled delivery run is performed right after its handler; concurrent runs for one event (an ingestion run racing a retry run) are not modelled.
- UUID generation (backend/models.py:16,26; backend/main.py:39): ids, keys and tracking numbers are parameters; the mailbox id and the tracking number must be fresh, since they are primary keys. The API key is not required to differ from other mailboxes' keys.
- Timestamps (`created_at`, `attempted_at`).
- JSON floating-point numbers: `Models.Json` numbers are integers; payloads are never inspected.
- Duplicate keys in a JSON object: a payload (`Models.Payload`) and every nested object are member lists in the order received, as the parsed request body keeps them; the parser's collapsing of a repeated key to its last value is not modelled, since the relay never looks inside the payload.
- The order of the dashboard list: the SQL query has no ORDER BY, so `Api.ListWebhooks` returns rows keyed by tracking number. The detail query's rows are taken in insertion order, although the query has no ORDER BY either.
- Attempt ids: the integer primary key is modelled as the row's position plus one, which is what autoincrement yields when no row is deleted.
- The frontend (dashboard pages, table, status badge, retry button, fetch wrappers): rendering only.
