/** The record shapes of the relay: the three tables (mailboxes, webhook_events,
    webhook_attempts) and the request body used to register a mailbox.
    Identifiers, keys and URLs are opaque strings; timestamps are not modelled. */
module Models {
  import opened Wrappers

  type MailboxId = string
  type TrackingNumber = string
  type ApiKey = string
  type Url = string

  /** A JSON value, forwarded verbatim to the target; the relay never looks inside it. */
  datatype Json =
    | JNull
    | JBool(b: bool)
    | JNumber(n: int)
    | JString(s: string)
    | JArray(items: seq<Json>)
    | JObject(fields: seq<(string, Json)>)

  /** The body of an inbound webhook is a JSON object, its members in the
      order they were received, like every other object value. */
  type Payload = seq<(string, Json)>

  /** Request body of mailbox registration. */
  datatype MailboxCreate = MailboxCreate(name: string, targetUrl: Url)

  /** A registered destination; `id` is its primary key. */
  datatype Mailbox = Mailbox(id: MailboxId, name: string, apiKey: ApiKey, targetUrl: Url)

  /** The `status` column of webhook_events: "pending", "delivered" or "failed". */
  datatype EventStatus = Pending | Delivered | Failed

  /** One accepted payload; `trackingNumber` is its primary key and
      `mailboxId` refers to a mailbox. */
  datatype WebhookEvent = WebhookEvent(
    trackingNumber: TrackingNumber,
    mailboxId: MailboxId,
    payload: Payload,
    status: EventStatus)

  /** The `status` column of webhook_attempts: "success" or "failed". */
  datatype AttemptStatus = Success | Failure

  /** One logged delivery try. `id` is the integer primary key; `trackingNumber`
      is not a key, so many attempts share one event; `error` is nullable. */
  datatype WebhookAttempt = WebhookAttempt(
    id: nat,
    trackingNumber: TrackingNumber,
    attemptNumber: nat,
    status: AttemptStatus,
    error: Option<string>)

  /** A fresh event row: the column default gives it status "pending". */
  function NewEvent(tn: TrackingNumber, mailboxId: MailboxId, payload: Payload): WebhookEvent
  {
    WebhookEvent(tn, mailboxId, payload, Pending)
  }

  /** A failed attempt row carries an error text and a successful one carries
      none; attempt numbers start at 1. */
  predicate WellFormedAttempt(a: WebhookAttempt)
  {
    && a.attemptNumber >= 1
    && (a.status == Success <==> a.error.None?)
  }
}
