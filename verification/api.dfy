/** The HTTP handlers of the relay as transitions and queries over the store.
    Each handler that writes returns the store it leaves together with its
    answer or the error it raises; an error always leaves the store as it was.
    Freshly generated identifiers (mailbox ids, API keys, tracking numbers) are
    parameters, with freshness required where the database would enforce a key. */
module Api {
  import opened Wrappers
  import opened Models
  import opened Storage
  import opened Delivery

  /** The errors a handler raises: a bad API key (401), a retry of an event
      that is not failed (400), and the unhandled exception raised when the
      event row is missing (500). */
  datatype ApiError = Unauthorized | InvalidState | ServerError

  /** The HTTP status code each error is answered with. */
  function StatusCode(e: ApiError): int
  {
    match e
    case Unauthorized => 401
    case InvalidState => 400
    case ServerError => 500
  }

  /** The store a handler leaves and what it answers. */
  datatype Handled<T> = Handled(store: Store, result: Result<T, ApiError>)

  /** One row of the dashboard list. */
  datatype Row = Row(
    trackingNumber: TrackingNumber,
    status: EventStatus,
    mailboxName: string,
    targetUrl: Url,
    attempts: nat)

  /** The answer of the detail query: the event row, if any, and its attempts. */
  datatype Detail = Detail(event: Option<WebhookEvent>, attempts: seq<WebhookAttempt>)

  const RetryStarted: string := "Retry started"

  /** Registers a mailbox under the fresh id `id` with the freshly issued key `apiKey`. */
  function CreateMailbox(s: Store, req: MailboxCreate, id: MailboxId, apiKey: ApiKey): (h: Handled<Mailbox>)
    requires id !in s.mailboxes
    ensures h.result.Ok?
    ensures h.result.value.id == id && h.result.value.apiKey == apiKey
    ensures h.result.value.name == req.name && h.result.value.targetUrl == req.targetUrl
    ensures h.store.mailboxes.Keys == s.mailboxes.Keys + {id}
    ensures h.store.mailboxes[id] == h.result.value
    ensures forall m :: m in s.mailboxes ==> h.store.mailboxes[m] == s.mailboxes[m]
    ensures h.store.events == s.events && h.store.attempts == s.attempts
  {
    var m := Mailbox(id, req.name, apiKey, req.targetUrl);
    Handled(s.(mailboxes := s.mailboxes[id := m]), Ok(m))
  }

  /** Does the key presented for `mailboxId` open it? */
  predicate Authorized(s: Store, mailboxId: MailboxId, apiKey: ApiKey)
  {
    mailboxId in s.mailboxes && s.mailboxes[mailboxId].apiKey == apiKey
  }

  /** Ingestion: checks the key, then stores a pending event under the fresh
      tracking number `tn` and answers with it. The delivery task it
      schedules is ReceiveAndDeliver's second half. */
  function ReceiveWebhook(s: Store, mailboxId: MailboxId, payload: Payload, apiKey: ApiKey,
                          tn: TrackingNumber): (h: Handled<TrackingNumber>)
    requires tn !in s.events
    ensures h.result.Err? <==> mailboxId !in s.mailboxes || s.mailboxes[mailboxId].apiKey != apiKey
    ensures h.result.Err? ==> h.result.error == Unauthorized && h.store == s
    ensures h.result.Err? ==> StatusCode(h.result.error) == 401
    ensures h.result.Ok? ==>
      && h.result.value == tn
      && h.store.events.Keys == s.events.Keys + {tn}
      && |h.store.events| == |s.events| + 1
      && h.store.events[tn].mailboxId == mailboxId
      && h.store.events[tn].payload == payload
      && h.store.events[tn].status == Pending
      && (forall t :: t in s.events ==> h.store.events[t] == s.events[t])
      && h.store.mailboxes == s.mailboxes && h.store.attempts == s.attempts
  {
    if !Authorized(s, mailboxId, apiKey) then Handled(s, Err(Unauthorized))
    else Handled(s.(events := s.events[tn := NewEvent(tn, mailboxId, payload)]), Ok(tn))
  }

  /** The dashboard list: one row per event whose mailbox exists (an inner
      join), with the number of attempt rows of that event (an outer join, so
      0 when there are none). SQL gives no order, so the rows are keyed by
      tracking number. */
  function ListWebhooks(s: Store): (rows: map<TrackingNumber, Row>)
    ensures forall tn :: tn in rows <==> tn in s.events && s.events[tn].mailboxId in s.mailboxes
    ensures forall tn :: tn in rows ==>
      var e := s.events[tn];
      && rows[tn].trackingNumber == tn
      && rows[tn].status == e.status
      && rows[tn].mailboxName == s.mailboxes[e.mailboxId].name
      && rows[tn].targetUrl == s.mailboxes[e.mailboxId].targetUrl
      && rows[tn].attempts == |History(s.attempts, tn)|
  {
    map tn | tn in s.events && s.events[tn].mailboxId in s.mailboxes ::
      Row(tn, s.events[tn].status, s.mailboxes[s.events[tn].mailboxId].name,
          s.mailboxes[s.events[tn].mailboxId].targetUrl, CountAttempts(s.attempts, tn))
  }

  /** The detail query: the event row (none if unknown) and exactly the attempt
      rows with this tracking number, oldest first. It only reads the store. */
  function WebhookDetails(s: Store, tn: TrackingNumber): (d: Detail)
    ensures d.event.Some? <==> tn in s.events
    ensures d.event.Some? ==> d.event.value == s.events[tn]
    ensures forall a :: a in d.attempts <==> a in s.attempts && a.trackingNumber == tn
    ensures |d.attempts| == CountAttempts(s.attempts, tn)
  {
    Detail(if tn in s.events then Some(s.events[tn]) else None, History(s.attempts, tn))
  }

  /** The dashboard's attempt count of an event is the length of its detail history. */
  lemma ListAgreesWithDetails(s: Store, tn: TrackingNumber)
    requires tn in ListWebhooks(s)
    ensures ListWebhooks(s)[tn].attempts == |WebhookDetails(s, tn).attempts|
    ensures WebhookDetails(s, tn).event == Some(s.events[tn])
  {
  }

  /** Retry: only a failed event may be retried; it is reset to pending (the
      new delivery cycle it schedules is RetryAndDeliver's second half).
      A missing event row raises before anything is written. */
  function RetryWebhook(s: Store, tn: TrackingNumber): (h: Handled<string>)
    ensures h.result.Ok? <==> tn in s.events && s.events[tn].status == Failed
    ensures tn !in s.events ==> h.result == Err(ServerError)
    ensures tn in s.events && s.events[tn].status != Failed ==> h.result == Err(InvalidState)
    ensures h.result.Err? ==> StatusCode(h.result.error) == (if tn in s.events then 400 else 500)
    ensures h.result.Err? ==> h.store == s
    ensures h.result.Ok? ==>
      && h.result.value == RetryStarted
      && h.store.events.Keys == s.events.Keys
      && h.store.events[tn] == s.events[tn].(status := Pending)
      && (forall t :: t in s.events && t != tn ==> h.store.events[t] == s.events[t])
      && h.store.mailboxes == s.mailboxes && h.store.attempts == s.attempts
  {
    if tn !in s.events then Handled(s, Err(ServerError))
    else if s.events[tn].status != Failed then Handled(s, Err(InvalidState))
    else Handled(SetStatus(s, tn, Pending), Ok(RetryStarted))
  }

  /** Ingestion followed by the background delivery it schedules, run to
      completion before anything else touches the store. */
  function ReceiveAndDeliver(s: Store, mailboxId: MailboxId, payload: Payload, apiKey: ApiKey,
                             tn: TrackingNumber, outcomes: seq<Outcome>): (h: Handled<TrackingNumber>)
    requires tn !in s.events && |outcomes| == MaxRetries
    ensures h.result == ReceiveWebhook(s, mailboxId, payload, apiKey, tn).result
    ensures h.result.Err? ==> h.store == s
    ensures h.result.Ok? ==>
      && tn in h.store.events
      && h.store.events[tn].status in {Delivered, Failed}
      && h.store.events[tn].payload == payload
      && |s.attempts| < |h.store.attempts|
      && h.store.attempts[..|s.attempts|] == s.attempts
  {
    var received := ReceiveWebhook(s, mailboxId, payload, apiKey, tn);
    if received.result.Err? then received
    else Handled(Deliver(received.store, tn, outcomes).value.store, received.result)
  }

  /** Retry followed by the new delivery cycle it schedules, run to completion. */
  function RetryAndDeliver(s: Store, tn: TrackingNumber, outcomes: seq<Outcome>): (h: Handled<string>)
    requires |outcomes| == MaxRetries
    ensures h.result == RetryWebhook(s, tn).result
    ensures h.result.Err? ==> h.store == s
    ensures h.result.Ok? ==>
      && tn in h.store.events
      && h.store.events[tn].status in {Delivered, Failed}
      && |s.attempts| < |h.store.attempts|
      && h.store.attempts[..|s.attempts|] == s.attempts
  {
    var retried := RetryWebhook(s, tn);
    if retried.result.Err? then retried
    else Handled(Deliver(retried.store, tn, outcomes).value.store, retried.result)
  }
}
