/** The database as an immutable value: mailboxes and events keyed by their
    primary keys, and the append-only attempt log in insertion order. */
module Storage {
  import opened Wrappers
  import opened Models

  datatype Store = Store(
    mailboxes: map<MailboxId, Mailbox>,
    events: map<TrackingNumber, WebhookEvent>,
    attempts: seq<WebhookAttempt>)

  /** The integer primary key the next attempt row receives: rows are never
      deleted, so it is one more than the number of rows. */
  function NextAttemptId(s: Store): nat
  {
    |s.attempts| + 1
  }

  /** The attempt row that inserting into webhook_attempts would create. */
  function NewAttempt(s: Store, tn: TrackingNumber, number: nat, status: AttemptStatus,
                      error: Option<string>): WebhookAttempt
  {
    WebhookAttempt(NextAttemptId(s), tn, number, status, error)
  }

  function Append(s: Store, a: WebhookAttempt): Store
  {
    s.(attempts := s.attempts + [a])
  }

  function SetStatus(s: Store, tn: TrackingNumber, status: EventStatus): Store
    requires tn in s.events
  {
    s.(events := s.events[tn := s.events[tn].(status := status)])
  }

  /** The integrity every handler keeps: every key names its own row, every
      event refers to an existing mailbox, attempt ids are the row positions,
      every attempt belongs to an existing event and is well formed. The
      schema itself declares no foreign key on an attempt's tracking number
      and no constraint on the shape of an attempt row. */
  ghost predicate Valid(s: Store)
  {
    && (forall id :: id in s.mailboxes ==> s.mailboxes[id].id == id)
    && (forall tn :: tn in s.events ==>
          s.events[tn].trackingNumber == tn && s.events[tn].mailboxId in s.mailboxes)
    && (forall i :: 0 <= i < |s.attempts| ==>
          && s.attempts[i].id == i + 1
          && s.attempts[i].trackingNumber in s.events
          && WellFormedAttempt(s.attempts[i]))
  }

  /** `count(webhook_attempts.id)` grouped by tracking number; it agrees
      with the detail list: an event's count is the length of its history. */
  function CountAttempts(attempts: seq<WebhookAttempt>, tn: TrackingNumber): (c: nat)
    ensures c == |History(attempts, tn)|
    ensures c <= |attempts|
    decreases |attempts|
  {
    if attempts == [] then 0
    else (if attempts[0].trackingNumber == tn then 1 else 0) + CountAttempts(attempts[1..], tn)
  }

  /** The attempts of one event, oldest first (`filter_by(tracking_number=tn)`). */
  function History(attempts: seq<WebhookAttempt>, tn: TrackingNumber): (h: seq<WebhookAttempt>)
    ensures |h| <= |attempts|
    ensures forall a :: a in h <==> a in attempts && a.trackingNumber == tn
  {
    if attempts == [] then []
    else if attempts[0].trackingNumber == tn then [attempts[0]] + History(attempts[1..], tn)
    else History(attempts[1..], tn)
  }

  /** Filtering an appended log filters each part: history only ever grows at the end. */
  lemma {:induction false} HistoryAppend(a: seq<WebhookAttempt>, b: seq<WebhookAttempt>, tn: TrackingNumber)
    ensures History(a + b, tn) == History(a, tn) + History(b, tn)
    decreases |a|
  {
    if a == [] {
      assert a + b == b;
    } else {
      assert (a + b)[1..] == a[1..] + b;
      HistoryAppend(a[1..], b, tn);
    }
  }

  /** Counting over an appended log adds the counts of the parts. */
  lemma CountAppend(a: seq<WebhookAttempt>, b: seq<WebhookAttempt>, tn: TrackingNumber)
    ensures CountAttempts(a + b, tn) == CountAttempts(a, tn) + CountAttempts(b, tn)
  {
    HistoryAppend(a, b, tn);
  }

  /** An event with no attempt rows has count 0 and an empty history; with
      at least one row the count is positive. */
  lemma {:induction false} NoRowsNoCount(attempts: seq<WebhookAttempt>, tn: TrackingNumber)
    ensures (forall i :: 0 <= i < |attempts| ==> attempts[i].trackingNumber != tn)
            <==> CountAttempts(attempts, tn) == 0
    ensures CountAttempts(attempts, tn) == 0 <==> History(attempts, tn) == []
    decreases |attempts|
  {
    if attempts != [] {
      NoRowsNoCount(attempts[1..], tn);
      if attempts[0].trackingNumber != tn {
        assert forall i :: 1 <= i < |attempts| ==> attempts[i] == attempts[1..][i - 1];
      }
    }
  }

  /** In a valid store, distinct events have distinct tracking numbers. */
  lemma TrackingNumbersDistinct(s: Store, t1: TrackingNumber, t2: TrackingNumber)
    requires Valid(s) && t1 in s.events && t2 in s.events && t1 != t2
    ensures s.events[t1].trackingNumber != s.events[t2].trackingNumber
  {
  }

  /** In a valid store, each attempt row has its own integer id. */
  lemma AttemptIdsDistinct(s: Store, i: int, j: int)
    requires Valid(s) && 0 <= i < |s.attempts| && 0 <= j < |s.attempts| && i != j
    ensures s.attempts[i].id != s.attempts[j].id
  {
  }

  /** Rows that all belong to `tn` are their own history. */
  lemma {:induction false} HistoryOfOwnRows(rows: seq<WebhookAttempt>, tn: TrackingNumber)
    requires forall i :: 0 <= i < |rows| ==> rows[i].trackingNumber == tn
    ensures History(rows, tn) == rows
    decreases |rows|
  {
    if rows != [] {
      HistoryOfOwnRows(rows[1..], tn);
    }
  }

  /** In a valid store an unknown tracking number has no attempt rows. */
  lemma UnknownEventHasNoRows(s: Store, tn: TrackingNumber)
    requires Valid(s) && tn !in s.events
    ensures CountAttempts(s.attempts, tn) == 0
    ensures History(s.attempts, tn) == []
  {
    NoRowsNoCount(s.attempts, tn);
  }
}
