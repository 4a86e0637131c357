/** The lifecycle of events across handlers: the store's integrity is kept
    by every transition, and the end-to-end behaviour of ingestion, delivery,
    retry and the dashboard queries fits together. */
module Lifecycle {
  import opened Wrappers
  import opened Models
  import opened Storage
  import opened Delivery
  import opened Api

  // ----- Integrity of the store -----

  lemma CreateMailboxPreservesValid(s: Store, req: MailboxCreate, id: MailboxId, apiKey: ApiKey)
    requires Valid(s) && id !in s.mailboxes
    ensures Valid(CreateMailbox(s, req, id, apiKey).store)
  {
  }

  lemma ReceivePreservesValid(s: Store, mailboxId: MailboxId, payload: Payload, apiKey: ApiKey,
                              tn: TrackingNumber)
    requires Valid(s) && tn !in s.events
    ensures Valid(ReceiveWebhook(s, mailboxId, payload, apiKey, tn).store)
  {
  }

  /** A delivery run keeps the store valid: the rows it appends take the next
      ids, belong to an existing event and are well formed. */
  lemma DeliverPreservesValid(s: Store, tn: TrackingNumber, outcomes: seq<Outcome>)
    requires Valid(s) && tn in s.events && |outcomes| == MaxRetries
    ensures Valid(Deliver(s, tn, outcomes).value.store)
  {
    var after := Deliver(s, tn, outcomes).value.store;
    DeliverNumbering(s, tn, outcomes);
    DeliverRecordShape(s, tn, outcomes);
    var added := Added(s, after);
    assert after.attempts == s.attempts + added;
    forall i | 0 <= i < |after.attempts|
      ensures after.attempts[i].id == i + 1
      ensures after.attempts[i].trackingNumber in after.events
      ensures WellFormedAttempt(after.attempts[i])
    {
      if i >= |s.attempts| {
        assert after.attempts[i] == added[i - |s.attempts|];
      } else {
        assert after.attempts[i] == s.attempts[i];
      }
    }
  }

  lemma RetryPreservesValid(s: Store, tn: TrackingNumber)
    requires Valid(s)
    ensures Valid(RetryWebhook(s, tn).store)
  {
  }

  lemma ReceiveAndDeliverPreservesValid(s: Store, mailboxId: MailboxId, payload: Payload,
                                        apiKey: ApiKey, tn: TrackingNumber, outcomes: seq<Outcome>)
    requires Valid(s) && tn !in s.events && |outcomes| == MaxRetries
    ensures Valid(ReceiveAndDeliver(s, mailboxId, payload, apiKey, tn, outcomes).store)
  {
    var received := ReceiveWebhook(s, mailboxId, payload, apiKey, tn);
    if received.result.Ok? {
      DeliverPreservesValid(received.store, tn, outcomes);
    }
  }

  lemma RetryAndDeliverPreservesValid(s: Store, tn: TrackingNumber, outcomes: seq<Outcome>)
    requires Valid(s) && |outcomes| == MaxRetries
    ensures Valid(RetryAndDeliver(s, tn, outcomes).store)
  {
    var retried := RetryWebhook(s, tn);
    if retried.result.Ok? {
      DeliverPreservesValid(retried.store, tn, outcomes);
    }
  }

  // ----- Handlers working together -----

  /** A newly registered mailbox accepts webhooks exactly under the key it was issued. */
  lemma NewMailboxOpensWithItsKey(s: Store, req: MailboxCreate, id: MailboxId, apiKey: ApiKey,
                                  payload: Payload, presented: ApiKey, tn: TrackingNumber)
    requires id !in s.mailboxes && tn !in s.events
    ensures var created := CreateMailbox(s, req, id, apiKey).store;
            ReceiveWebhook(created, id, payload, presented, tn).result.Ok? <==> presented == apiKey
  {
  }

  /** A just-ingested event is listed as pending with 0 attempts and has an
      empty history. */
  lemma FreshEventHasNoAttempts(s: Store, mailboxId: MailboxId, payload: Payload, apiKey: ApiKey,
                                tn: TrackingNumber)
    requires Valid(s) && tn !in s.events && Authorized(s, mailboxId, apiKey)
    ensures var after := ReceiveWebhook(s, mailboxId, payload, apiKey, tn).store;
            && tn in ListWebhooks(after)
            && ListWebhooks(after)[tn]
               == Row(tn, Pending, s.mailboxes[mailboxId].name, s.mailboxes[mailboxId].targetUrl, 0)
            && WebhookDetails(after, tn).attempts == []
  {
    UnknownEventHasNoRows(s, tn);
  }

  /** In a valid store every event is listed: the inner join drops nothing. */
  lemma ListCoversEvents(s: Store)
    requires Valid(s)
    ensures ListWebhooks(s).Keys == s.events.Keys
  {
  }

  /** A delivery run extends the event's history by exactly the rows of one
      cycle. */
  lemma DeliveryExtendsOwnHistory(s: Store, tn: TrackingNumber, outcomes: seq<Outcome>)
    requires tn in s.events && s.events[tn].mailboxId in s.mailboxes && |outcomes| == MaxRetries
    ensures WebhookDetails(Deliver(s, tn, outcomes).value.store, tn).attempts
         == WebhookDetails(s, tn).attempts + CycleRecords(tn, outcomes, 1, |s.attempts| + 1)
  {
    var rows := CycleRecords(tn, outcomes, 1, |s.attempts| + 1);
    DeliverAppendsRecords(s, tn, outcomes);
    CycleRecordsNumbering(tn, outcomes, 1, |s.attempts| + 1);
    HistoryAppend(s.attempts, rows, tn);
    HistoryOfOwnRows(rows, tn);
  }

  /** A delivery run leaves every other event's history as it was. */
  lemma DeliveryKeepsOtherHistories(s: Store, tn: TrackingNumber, outcomes: seq<Outcome>, other: TrackingNumber)
    requires tn in s.events && |outcomes| == MaxRetries && other != tn
    ensures WebhookDetails(Deliver(s, tn, outcomes).value.store, other).attempts
         == WebhookDetails(s, other).attempts
  {
    var eff := Targeted(s, tn, outcomes);
    var rows := CycleRecords(tn, eff, 1, |s.attempts| + 1);
    DeliverAppendsRecords(s, tn, outcomes);
    CycleRecordsNumbering(tn, eff, 1, |s.attempts| + 1);
    HistoryAppend(s.attempts, rows, other);
    NoRowsNoCount(rows, other);
    assert History(rows, other) == [];
  }

  /** Retrying a failed event runs a fresh cycle: the old attempts are kept,
      the new ones follow them numbered from 1, and the event ends delivered
      or failed according to the new outcomes. */
  lemma RetryStartsNewCycle(s: Store, tn: TrackingNumber, outcomes: seq<Outcome>)
    requires tn in s.events && s.events[tn].status == Failed
    requires s.events[tn].mailboxId in s.mailboxes && |outcomes| == MaxRetries
    ensures var h := RetryAndDeliver(s, tn, outcomes);
            var before := WebhookDetails(s, tn).attempts;
            var now := WebhookDetails(h.store, tn).attempts;
            && h.result == Ok(RetryStarted)
            && now == before + CycleRecords(tn, outcomes, 1, |s.attempts| + 1)
            && |before| < |now| <= |before| + MaxRetries
            && (forall i :: |before| <= i < |now| ==> now[i].attemptNumber == i - |before| + 1)
            && h.store.events[tn].status == FinalStatus(outcomes)
  {
    var h := RetryAndDeliver(s, tn, outcomes);
    var reset := RetryWebhook(s, tn).store;
    var after := Deliver(reset, tn, outcomes).value.store;
    assert h.store == after;
    assert reset.attempts == s.attempts;
    var before := WebhookDetails(s, tn).attempts;
    var now := WebhookDetails(after, tn).attempts;
    var rows := CycleRecords(tn, outcomes, 1, |s.attempts| + 1);
    assert now == before + rows by {
      DeliveryExtendsOwnHistory(reset, tn, outcomes);
    }
    assert after.events[tn].status == FinalStatus(outcomes) by {
      DeliverFinalStatus(reset, tn, outcomes);
    }
    assert 1 <= |rows| <= MaxRetries && forall i :: 0 <= i < |rows| ==> rows[i].attemptNumber == i + 1 by {
      CycleRecordsNumbering(tn, outcomes, 1, |s.attempts| + 1);
    }
    CycleAppended(before, rows, now);
  }

  /** A history extended by one cycle's rows, numbered from 1. */
  lemma CycleAppended(before: seq<WebhookAttempt>, rows: seq<WebhookAttempt>, now: seq<WebhookAttempt>)
    requires now == before + rows && 1 <= |rows| <= MaxRetries
    requires forall i :: 0 <= i < |rows| ==> rows[i].attemptNumber == i + 1
    ensures |before| < |now| <= |before| + MaxRetries
    ensures forall i :: |before| <= i < |now| ==> now[i].attemptNumber == i - |before| + 1
  {
    assert forall i :: |before| <= i < |now| ==> now[i] == rows[i - |before|];
  }

  // ----- End-to-end scenarios -----

  /** Ingestion followed by its delivery run leaves the new event with exactly
      one cycle of attempts and the status that cycle ends in. */
  lemma IngestedEventCycle(s: Store, mailboxId: MailboxId, payload: Payload, apiKey: ApiKey,
                           tn: TrackingNumber, outcomes: seq<Outcome>)
    requires Valid(s) && tn !in s.events && Authorized(s, mailboxId, apiKey)
    requires |outcomes| == MaxRetries
    ensures var h := ReceiveAndDeliver(s, mailboxId, payload, apiKey, tn, outcomes);
            && h.result == Ok(tn)
            && WebhookDetails(h.store, tn)
               == Detail(Some(WebhookEvent(tn, mailboxId, payload, FinalStatus(outcomes))),
                         CycleRecords(tn, outcomes, 1, |s.attempts| + 1))
  {
    var received := ReceiveWebhook(s, mailboxId, payload, apiKey, tn).store;
    UnknownEventHasNoRows(s, tn);
    assert WebhookDetails(received, tn).attempts == [];
    DeliveryExtendsOwnHistory(received, tn, outcomes);
    DeliverFinalStatus(received, tn, outcomes);
    assert received.events[tn] == WebhookEvent(tn, mailboxId, payload, Pending);
  }

  /** A target that always answers 2xx: after ingestion and its delivery run,
      the event is delivered and its history is one "success" attempt number 1. */
  lemma AlwaysAcceptingTarget(s: Store, mailboxId: MailboxId, payload: Payload, apiKey: ApiKey,
                              tn: TrackingNumber, outcomes: seq<Outcome>)
    requires Valid(s) && tn !in s.events && Authorized(s, mailboxId, apiKey)
    requires |outcomes| == MaxRetries && forall i :: 0 <= i < |outcomes| ==> outcomes[i] == Accepted
    ensures var h := ReceiveAndDeliver(s, mailboxId, payload, apiKey, tn, outcomes);
            && h.result == Ok(tn)
            && WebhookDetails(h.store, tn)
               == Detail(Some(WebhookEvent(tn, mailboxId, payload, Delivered)),
                         [WebhookAttempt(|s.attempts| + 1, tn, 1, Success, None)])
  {
    IngestedEventCycle(s, mailboxId, payload, apiKey, tn, outcomes);
    assert LeadingFailures(outcomes) == 0;
    assert CycleRecords(tn, outcomes, 1, |s.attempts| + 1)
        == [WebhookAttempt(|s.attempts| + 1, tn, 1, Success, None)];
  }

  lemma AllFailingCycle(tn: TrackingNumber, outs: seq<Outcome>, firstId: nat)
    requires |outs| == MaxRetries && forall i :: 0 <= i < |outs| ==> outs[i].Rejected?
    ensures FinalStatus(outs) == Failed
    ensures var rows := CycleRecords(tn, outs, 1, firstId);
            && |rows| == 3
            && forall i :: 0 <= i < 3 ==> rows[i].attemptNumber == i + 1 && rows[i].status == Failure
  {
    assert LeadingFailures(outs) == 3;
  }

  /** Retrying a failed event against a target that keeps failing appends
      three more "failed" attempts numbered 1..3 and leaves it failed. */
  lemma RetryAgainstFailingTarget(s: Store, tn: TrackingNumber, outcomes: seq<Outcome>)
    requires tn in s.events && s.events[tn].status == Failed
    requires s.events[tn].mailboxId in s.mailboxes
    requires |outcomes| == MaxRetries && forall i :: 0 <= i < |outcomes| ==> outcomes[i].Rejected?
    ensures var h := RetryAndDeliver(s, tn, outcomes);
            var before := WebhookDetails(s, tn).attempts;
            var now := WebhookDetails(h.store, tn).attempts;
            && h.result == Ok(RetryStarted)
            && h.store.events[tn].status == Failed
            && |now| == |before| + 3 && now[..|before|] == before
            && (forall i :: |before| <= i < |now| ==>
                  now[i].attemptNumber == i - |before| + 1 && now[i].status == Failure)
  {
    var before := WebhookDetails(s, tn).attempts;
    var rows := CycleRecords(tn, outcomes, 1, |s.attempts| + 1);
    var now := WebhookDetails(RetryAndDeliver(s, tn, outcomes).store, tn).attempts;
    RetryStartsNewCycle(s, tn, outcomes);
    AllFailingCycle(tn, outcomes, |s.attempts| + 1);
    ThreeFailuresAppended(before, rows, now);
  }

  /** A history extended by three failed attempts numbered 1..3. */
  lemma ThreeFailuresAppended(before: seq<WebhookAttempt>, rows: seq<WebhookAttempt>, now: seq<WebhookAttempt>)
    requires now == before + rows && |rows| == 3
    requires forall i :: 0 <= i < 3 ==> rows[i].attemptNumber == i + 1 && rows[i].status == Failure
    ensures |now| == |before| + 3 && now[..|before|] == before
    ensures forall i :: |before| <= i < |now| ==>
              now[i].attemptNumber == i - |before| + 1 && now[i].status == Failure
  {
    assert forall i :: |before| <= i < |now| ==> now[i] == rows[i - |before|];
  }

  /** Ingesting into a mailbox whose target always fails: three "failed"
      attempts numbered 1..3, the event failed, the store still valid. */
  lemma IngestAgainstFailingTarget(s: Store, mailboxId: MailboxId, payload: Payload, apiKey: ApiKey,
                                   tn: TrackingNumber, outcomes: seq<Outcome>)
    requires Valid(s) && tn !in s.events && Authorized(s, mailboxId, apiKey)
    requires |outcomes| == MaxRetries && forall i :: 0 <= i < |outcomes| ==> outcomes[i].Rejected?
    ensures var h := ReceiveAndDeliver(s, mailboxId, payload, apiKey, tn, outcomes);
            var history := WebhookDetails(h.store, tn).attempts;
            && h.result == Ok(tn)
            && Valid(h.store)
            && tn in h.store.events
            && h.store.events[tn].status == Failed
            && |history| == 3
            && (forall i :: 0 <= i < 3 ==> history[i].attemptNumber == i + 1 && history[i].status == Failure)
  {
    IngestedEventCycle(s, mailboxId, payload, apiKey, tn, outcomes);
    AllFailingCycle(tn, outcomes, |s.attempts| + 1);
    ReceiveAndDeliverPreservesValid(s, mailboxId, payload, apiKey, tn, outcomes);
  }

  /** A target that always fails: the first cycle leaves three "failed"
      attempts numbered 1..3 and the event failed; a retry resets it to
      pending and a second cycle appends three more numbered 1..3 again. */
  lemma AlwaysFailingTarget(s: Store, mailboxId: MailboxId, payload: Payload, apiKey: ApiKey,
                            tn: TrackingNumber, first: seq<Outcome>, second: seq<Outcome>)
    requires Valid(s) && tn !in s.events && Authorized(s, mailboxId, apiKey)
    requires |first| == MaxRetries && forall i :: 0 <= i < |first| ==> first[i].Rejected?
    requires |second| == MaxRetries && forall i :: 0 <= i < |second| ==> second[i].Rejected?
    ensures var h1 := ReceiveAndDeliver(s, mailboxId, payload, apiKey, tn, first);
            var h2 := RetryAndDeliver(h1.store, tn, second);
            var cycle1 := WebhookDetails(h1.store, tn).attempts;
            var cycle2 := WebhookDetails(h2.store, tn).attempts;
            && h1.result == Ok(tn)
            && h1.store.events[tn].status == Failed
            && |cycle1| == 3
            && (forall i :: 0 <= i < 3 ==> cycle1[i].attemptNumber == i + 1 && cycle1[i].status == Failure)
            && RetryWebhook(h1.store, tn).store.events[tn].status == Pending
            && h2.result == Ok(RetryStarted)
            && h2.store.events[tn].status == Failed
            && |cycle2| == 6 && cycle2[..3] == cycle1
            && (forall i :: 3 <= i < 6 ==> cycle2[i].attemptNumber == i - 2 && cycle2[i].status == Failure)
  {
    var h1 := ReceiveAndDeliver(s, mailboxId, payload, apiKey, tn, first);
    IngestAgainstFailingTarget(s, mailboxId, payload, apiKey, tn, first);
    assert h1.store.events[tn].mailboxId in h1.store.mailboxes;
    assert |WebhookDetails(h1.store, tn).attempts| == 3;
    RetryAgainstFailingTarget(h1.store, tn, second);
  }
}
