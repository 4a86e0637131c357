/** The delivery engine: a bounded retry loop with exponential backoff that logs
    every attempt and leaves the event `delivered` or `failed`.

    The HTTP POST is replaced by an outcome per attempt, supplied by the caller
    (`outcomes[n - 1]` is what the target answers to attempt `n`), and the
    backoff sleep is recorded as a `Sleep` step instead of being waited out.
    A run is therefore a pure function from the store to the new store and the
    trace of commits and sleeps it performed. */
module Delivery {
  import opened Wrappers
  import opened Models
  import opened Storage

  /** The retry budget: attempts are numbered 1..MaxRetries. */
  const MaxRetries: nat := 3

  /** The text of the exception raised when the event's mailbox row is missing:
      the target URL is read inside the guarded block, so this is logged as an
      ordinary failed attempt. */
  const MissingMailboxError: string := "'NoneType' object has no attribute 'target_url'"

  /** What one POST to the target produced: a 2xx response, or an exception
      (non-2xx status, timeout, connection error, ...) with its text. */
  datatype Outcome = Accepted | Rejected(reason: string)

  /** The effects of a run, in order: a database commit (possibly adding an
      attempt row, possibly setting the event status) or a backoff sleep. */
  datatype Step =
    | Commit(added: Option<WebhookAttempt>, status: Option<EventStatus>)
    | Sleep(seconds: nat)

  /** The result of a completed run: the store it leaves and what it did. */
  datatype Cycle = Cycle(store: Store, trace: seq<Step>)

  /** A run aborts before any write when the event row does not exist. */
  datatype Fault = EventNotFound

  function Pow2(n: nat): (r: nat)
    ensures r >= 1
  {
    if n == 0 then 1 else 2 * Pow2(n - 1)
  }

  /** Seconds slept after failed attempt `attempt`: 2 ** attempt. */
  function Backoff(attempt: nat): nat
  {
    Pow2(attempt)
  }

  lemma BackoffSchedule()
    ensures Backoff(1) == 2 && Backoff(2) == 4 && Backoff(3) == 8
  {
    assert Pow2(1) == 2;
    assert Pow2(2) == 4;
  }

  /** The backoff delays a trace requested, in order. */
  function Delays(trace: seq<Step>): (d: seq<nat>)
    ensures |d| <= |trace|
  {
    if trace == [] then []
    else (if trace[0].Sleep? then [trace[0].seconds] else []) + Delays(trace[1..])
  }

  /** The rows a run appended to the attempt log. */
  function Added(before: Store, after: Store): seq<WebhookAttempt>
    requires |before.attempts| <= |after.attempts|
  {
    after.attempts[|before.attempts|..]
  }

  /** The outcomes the attempts actually see: with the mailbox row missing,
      every attempt fails on reading its target URL. */
  function Targeted(s: Store, tn: TrackingNumber, outcomes: seq<Outcome>): seq<Outcome>
    requires tn in s.events
  {
    if s.events[tn].mailboxId in s.mailboxes then outcomes
    else seq(|outcomes|, _ => Rejected(MissingMailboxError))
  }

  /** The loop from attempt `attempt` on. A success logs a "success" row and
      marks the event delivered in one commit, and ends the run; a failure
      logs a "failed" row with the error text, commits, then sleeps
      Backoff(attempt) seconds, including after the last attempt. When the
      budget is spent the event is marked failed. */
  function Run(s: Store, tn: TrackingNumber, outcomes: seq<Outcome>, attempt: nat): (c: Cycle)
    requires tn in s.events
    requires |outcomes| == MaxRetries && 1 <= attempt <= MaxRetries + 1
    ensures c.store.mailboxes == s.mailboxes
    ensures c.store.events.Keys == s.events.Keys
    ensures c.store.events == s.events[tn := s.events[tn].(status := c.store.events[tn].status)]
    ensures c.store.events[tn].status != Pending
    ensures |s.attempts| <= |c.store.attempts| <= |s.attempts| + MaxRetries + 1 - attempt
    ensures attempt <= MaxRetries ==> |s.attempts| < |c.store.attempts|
    ensures c.store.attempts[..|s.attempts|] == s.attempts
    decreases MaxRetries + 1 - attempt
  {
    if attempt > MaxRetries then
      Cycle(SetStatus(s, tn, Failed), [Commit(None, Some(Failed))])
    else
      match outcomes[attempt - 1]
      case Accepted =>
        var a := NewAttempt(s, tn, attempt, Success, None);
        Cycle(SetStatus(Append(s, a), tn, Delivered), [Commit(Some(a), Some(Delivered))])
      case Rejected(reason) =>
        var a := NewAttempt(s, tn, attempt, Failure, Some(reason));
        var next := Run(Append(s, a), tn, outcomes, attempt + 1);
        assert next.store.attempts[..|s.attempts|] == (s.attempts + [a])[..|s.attempts|];
        Cycle(next.store, [Commit(Some(a), None), Sleep(Backoff(attempt))] + next.trace)
  }

  /** One delivery run for `tn`. It never reports delivery failures to its
      caller: they end up in the attempt log and the event status. */
  function Deliver(s: Store, tn: TrackingNumber, outcomes: seq<Outcome>): (r: Result<Cycle, Fault>)
    requires |outcomes| == MaxRetries
    ensures r.Err? <==> tn !in s.events
    ensures r.Err? ==> r.error == EventNotFound
    ensures r.Ok? ==>
      && r.value.store.mailboxes == s.mailboxes
      && r.value.store.events.Keys == s.events.Keys
      && (forall t :: t in s.events && t != tn ==> r.value.store.events[t] == s.events[t])
      && r.value.store.events[tn] == s.events[tn].(status := r.value.store.events[tn].status)
      && r.value.store.events[tn].status in {Delivered, Failed}
      && |s.attempts| < |r.value.store.attempts| <= |s.attempts| + MaxRetries
      && r.value.store.attempts[..|s.attempts|] == s.attempts
  {
    if tn !in s.events then Err(EventNotFound)
    else Ok(Run(s, tn, Targeted(s, tn, outcomes), 1))
  }

  // ----- An independent description of one cycle -----

  /** How many attempts fail before the first success. */
  function LeadingFailures(outs: seq<Outcome>): (k: nat)
    ensures k <= |outs|
    ensures forall i :: 0 <= i < k ==> outs[i].Rejected?
    ensures k < |outs| ==> outs[k].Accepted?
  {
    if outs == [] || outs[0].Accepted? then 0 else 1 + LeadingFailures(outs[1..])
  }

  /** The rows a cycle over `outs` logs, numbered from `attempt` with ids from
      `firstId`: one "failed" row per leading failure, then one "success" row
      if a success came within the budget. */
  function CycleRecords(tn: TrackingNumber, outs: seq<Outcome>, attempt: nat, firstId: nat): seq<WebhookAttempt>
  {
    var k := LeadingFailures(outs);
    var n := if k < |outs| then k + 1 else k;
    seq(n, i requires 0 <= i < n =>
      if i < k then WebhookAttempt(firstId + i, tn, attempt + i, Failure, Some(outs[i].reason))
      else WebhookAttempt(firstId + i, tn, attempt + i, Success, None))
  }

  /** The terminal status of a cycle over `outs`. */
  function FinalStatus(outs: seq<Outcome>): EventStatus
  {
    if LeadingFailures(outs) < |outs| then Delivered else Failed
  }

  /** The delays requested after `k` failed attempts numbered from `attempt`. */
  function Backoffs(attempt: nat, k: nat): seq<nat>
    decreases k
  {
    if k == 0 then [] else [Backoff(attempt)] + Backoffs(attempt + 1, k - 1)
  }

  lemma CycleRecordsStep(tn: TrackingNumber, outs: seq<Outcome>, attempt: nat, firstId: nat)
    requires outs != [] && outs[0].Rejected?
    ensures CycleRecords(tn, outs, attempt, firstId)
         == [WebhookAttempt(firstId, tn, attempt, Failure, Some(outs[0].reason))]
            + CycleRecords(tn, outs[1..], attempt + 1, firstId + 1)
  {
    var l := CycleRecords(tn, outs, attempt, firstId);
    var r := [WebhookAttempt(firstId, tn, attempt, Failure, Some(outs[0].reason))]
             + CycleRecords(tn, outs[1..], attempt + 1, firstId + 1);
    assert LeadingFailures(outs) == 1 + LeadingFailures(outs[1..]);
    assert |l| == |r|;
    forall i | 0 <= i < |l|
      ensures l[i] == r[i]
    {
      if i > 0 {
        assert outs[1..][i - 1] == outs[i];
      }
    }
  }

  lemma DelaysOfFailureStep(a: WebhookAttempt, seconds: nat, rest: seq<Step>)
    ensures Delays(FailureSteps(a, seconds) + rest) == [seconds] + Delays(rest)
  {
    var t := FailureSteps(a, seconds) + rest;
    assert t[1..] == [Sleep(seconds)] + rest;
    assert t[1..][1..] == rest;
  }

  /** The loop computes exactly the independent description: the rows of
      CycleRecords are appended, the event takes FinalStatus, every other part
      of the store is untouched, and one delay is requested per failure. */
  lemma {:induction false} RunExact(s: Store, tn: TrackingNumber, outcomes: seq<Outcome>, attempt: nat)
    requires tn in s.events
    requires |outcomes| == MaxRetries && 1 <= attempt <= MaxRetries + 1
    ensures Run(s, tn, outcomes, attempt).store
         == Store(s.mailboxes,
                  s.events[tn := s.events[tn].(status := FinalStatus(outcomes[attempt - 1..]))],
                  s.attempts + CycleRecords(tn, outcomes[attempt - 1..], attempt, |s.attempts| + 1))
    ensures Delays(Run(s, tn, outcomes, attempt).trace)
         == Backoffs(attempt, LeadingFailures(outcomes[attempt - 1..]))
    decreases MaxRetries + 1 - attempt, 1
  {
    if attempt > MaxRetries {
      RunExhausted(s, tn, outcomes, attempt);
    } else if outcomes[attempt - 1].Accepted? {
      RunAccepted(s, tn, outcomes, attempt);
    } else {
      RunRejected(s, tn, outcomes, attempt);
    }
  }

  lemma RunExhausted(s: Store, tn: TrackingNumber, outcomes: seq<Outcome>, attempt: nat)
    requires tn in s.events
    requires |outcomes| == MaxRetries && attempt == MaxRetries + 1
    ensures Run(s, tn, outcomes, attempt).store
         == Store(s.mailboxes,
                  s.events[tn := s.events[tn].(status := FinalStatus(outcomes[attempt - 1..]))],
                  s.attempts + CycleRecords(tn, outcomes[attempt - 1..], attempt, |s.attempts| + 1))
    ensures Delays(Run(s, tn, outcomes, attempt).trace)
         == Backoffs(attempt, LeadingFailures(outcomes[attempt - 1..]))
  {
    var rest := outcomes[attempt - 1..];
    assert rest == [];
    assert CycleRecords(tn, rest, attempt, |s.attempts| + 1) == [];
    assert s.attempts + [] == s.attempts;
    var t := Run(s, tn, outcomes, attempt).trace;
    assert t[1..] == [];
  }

  lemma RunAccepted(s: Store, tn: TrackingNumber, outcomes: seq<Outcome>, attempt: nat)
    requires tn in s.events
    requires |outcomes| == MaxRetries && 1 <= attempt <= MaxRetries
    requires outcomes[attempt - 1].Accepted?
    ensures Run(s, tn, outcomes, attempt).store
         == Store(s.mailboxes,
                  s.events[tn := s.events[tn].(status := FinalStatus(outcomes[attempt - 1..]))],
                  s.attempts + CycleRecords(tn, outcomes[attempt - 1..], attempt, |s.attempts| + 1))
    ensures Delays(Run(s, tn, outcomes, attempt).trace)
         == Backoffs(attempt, LeadingFailures(outcomes[attempt - 1..]))
  {
    var rest := outcomes[attempt - 1..];
    assert rest[0] == outcomes[attempt - 1];
    assert LeadingFailures(rest) == 0;
    assert CycleRecords(tn, rest, attempt, |s.attempts| + 1)
        == [NewAttempt(s, tn, attempt, Success, None)];
    var t := Run(s, tn, outcomes, attempt).trace;
    assert t[1..] == [];
  }

  /** The inductive step of RunExact: a failed attempt prepends its row and
      its delay to what the rest of the loop does. */
  lemma {:induction false} RunRejected(s: Store, tn: TrackingNumber, outcomes: seq<Outcome>, attempt: nat)
    requires tn in s.events
    requires |outcomes| == MaxRetries && 1 <= attempt <= MaxRetries
    requires outcomes[attempt - 1].Rejected?
    ensures Run(s, tn, outcomes, attempt).store
         == Store(s.mailboxes,
                  s.events[tn := s.events[tn].(status := FinalStatus(outcomes[attempt - 1..]))],
                  s.attempts + CycleRecords(tn, outcomes[attempt - 1..], attempt, |s.attempts| + 1))
    ensures Delays(Run(s, tn, outcomes, attempt).trace)
         == Backoffs(attempt, LeadingFailures(outcomes[attempt - 1..]))
    decreases MaxRetries + 1 - attempt, 0
  {
    var rest := outcomes[attempt - 1..];
    var a := NewAttempt(s, tn, attempt, Failure, Some(outcomes[attempt - 1].reason));
    var next := Run(Append(s, a), tn, outcomes, attempt + 1);
    RunFailureUnfolds(s, tn, outcomes, attempt);
    RunExact(Append(s, a), tn, outcomes, attempt + 1);
    assert rest[0] == outcomes[attempt - 1];
    assert outcomes[attempt..] == rest[1..];
    FailureStepStore(s, tn, rest, outcomes[attempt..], attempt, next.store);
    FailureStepDelays(a, attempt, rest, outcomes[attempt..], next.trace);
  }

  lemma FailureStepStore(s: Store, tn: TrackingNumber, rest: seq<Outcome>, tail: seq<Outcome>,
                         attempt: nat, after: Store)
    requires tn in s.events && rest != [] && rest[0].Rejected? && tail == rest[1..]
    requires var s1 := Append(s, NewAttempt(s, tn, attempt, Failure, Some(rest[0].reason)));
      after == Store(s1.mailboxes,
                     s1.events[tn := s1.events[tn].(status := FinalStatus(tail))],
                     s1.attempts + CycleRecords(tn, tail, attempt + 1, |s1.attempts| + 1))
    ensures after == Store(s.mailboxes,
                           s.events[tn := s.events[tn].(status := FinalStatus(rest))],
                           s.attempts + CycleRecords(tn, rest, attempt, |s.attempts| + 1))
  {
    var a := NewAttempt(s, tn, attempt, Failure, Some(rest[0].reason));
    LeadingFailuresStep(rest);
    assert FinalStatus(rest) == FinalStatus(rest[1..]);
    CycleRecordsStep(tn, rest, attempt, |s.attempts| + 1);
    assert (s.attempts + [a]) + CycleRecords(tn, rest[1..], attempt + 1, |s.attempts| + 2)
        == s.attempts + ([a] + CycleRecords(tn, rest[1..], attempt + 1, |s.attempts| + 2));
  }

  lemma FailureStepDelays(a: WebhookAttempt, attempt: nat, rest: seq<Outcome>, tail: seq<Outcome>, trace: seq<Step>)
    requires rest != [] && rest[0].Rejected? && tail == rest[1..]
    requires Delays(trace) == Backoffs(attempt + 1, LeadingFailures(tail))
    ensures Delays(FailureSteps(a, Backoff(attempt)) + trace)
         == Backoffs(attempt, LeadingFailures(rest))
  {
    LeadingFailuresStep(rest);
    DelaysOfFailureStep(a, Backoff(attempt), trace);
  }

  lemma LeadingFailuresStep(outs: seq<Outcome>)
    requires outs != [] && outs[0].Rejected?
    ensures LeadingFailures(outs) == 1 + LeadingFailures(outs[1..])
  {
  }

  lemma {:induction false} BackoffsIndex(attempt: nat, k: nat, i: nat)
    requires i < k
    ensures |Backoffs(attempt, k)| == k
    ensures Backoffs(attempt, k)[i] == Backoff(attempt + i)
    decreases k
  {
    if i > 0 {
      BackoffsIndex(attempt + 1, k - 1, i - 1);
    } else if k > 1 {
      BackoffsIndex(attempt + 1, k - 1, 0);
    }
  }

  lemma {:induction false} BackoffsLength(attempt: nat, k: nat)
    ensures |Backoffs(attempt, k)| == k
    decreases k
  {
    if k > 0 {
      BackoffsLength(attempt + 1, k - 1);
    }
  }

  // ----- Facts about the independent description -----

  /** One cycle's rows: at least one and at most one per outcome, all for
      `tn`, numbered from `attempt` with consecutive ids from `firstId`. */
  lemma CycleRecordsNumbering(tn: TrackingNumber, outs: seq<Outcome>, attempt: nat, firstId: nat)
    ensures |CycleRecords(tn, outs, attempt, firstId)| <= |outs|
    ensures outs != [] ==> |CycleRecords(tn, outs, attempt, firstId)| >= 1
    ensures forall i :: 0 <= i < |CycleRecords(tn, outs, attempt, firstId)| ==>
              && CycleRecords(tn, outs, attempt, firstId)[i].trackingNumber == tn
              && CycleRecords(tn, outs, attempt, firstId)[i].attemptNumber == attempt + i
              && CycleRecords(tn, outs, attempt, firstId)[i].id == firstId + i
  {
  }

  /** One cycle's rows: failures first, each carrying its exception text,
      and a final success exactly when the cycle ends delivered. */
  lemma CycleRecordsStatus(tn: TrackingNumber, outs: seq<Outcome>, attempt: nat, firstId: nat)
    ensures |CycleRecords(tn, outs, attempt, firstId)|
         == if FinalStatus(outs) == Delivered then LeadingFailures(outs) + 1 else LeadingFailures(outs)
    ensures forall i :: 0 <= i < |CycleRecords(tn, outs, attempt, firstId)| ==>
              var r := CycleRecords(tn, outs, attempt, firstId)[i];
              && (r.status == Failure <==> i < LeadingFailures(outs))
              && (r.status == Failure <==> outs[i].Rejected?)
              && (r.status == Failure ==> r.error == Some(outs[i].reason))
              && (r.status == Success ==> r.error == None)
    ensures |CycleRecords(tn, outs, attempt, firstId)| > 0 ==>
              (FinalStatus(outs) == Delivered
               <==> CycleRecords(tn, outs, attempt, firstId)[|CycleRecords(tn, outs, attempt, firstId)| - 1].status == Success)
  {
    var k := LeadingFailures(outs);
    assert FinalStatus(outs) == Delivered <==> k < |outs|;
  }

  // ----- Properties of one delivery run -----

  /** Deliver is the loop over the outcomes its attempts see, described
      without recursion. */
  lemma DeliverExact(s: Store, tn: TrackingNumber, outcomes: seq<Outcome>)
    requires tn in s.events && |outcomes| == MaxRetries
    ensures var eff := Targeted(s, tn, outcomes);
            var c := Deliver(s, tn, outcomes).value;
            && c.store == Store(s.mailboxes,
                                s.events[tn := s.events[tn].(status := FinalStatus(eff))],
                                s.attempts + CycleRecords(tn, eff, 1, |s.attempts| + 1))
            && Delays(c.trace) == Backoffs(1, LeadingFailures(eff))
  {
    var eff := Targeted(s, tn, outcomes);
    assert eff[0..] == eff;
    RunExact(s, tn, eff, 1);
  }

  /** The three parts of DeliverExact separately: rows, status, delays. */
  lemma AddedRecords(s: Store, tn: TrackingNumber, outcomes: seq<Outcome>)
    requires tn in s.events && |outcomes| == MaxRetries
    ensures Added(s, Deliver(s, tn, outcomes).value.store)
         == CycleRecords(tn, Targeted(s, tn, outcomes), 1, |s.attempts| + 1)
  {
    DeliverExact(s, tn, outcomes);
  }

  lemma DeliverAppendsRecords(s: Store, tn: TrackingNumber, outcomes: seq<Outcome>)
    requires tn in s.events && |outcomes| == MaxRetries
    ensures Deliver(s, tn, outcomes).value.store.attempts
         == s.attempts + CycleRecords(tn, Targeted(s, tn, outcomes), 1, |s.attempts| + 1)
  {
    DeliverExact(s, tn, outcomes);
  }

  lemma DeliverFinalStatus(s: Store, tn: TrackingNumber, outcomes: seq<Outcome>)
    requires tn in s.events && |outcomes| == MaxRetries
    ensures Deliver(s, tn, outcomes).value.store.events[tn].status == FinalStatus(Targeted(s, tn, outcomes))
  {
    DeliverExact(s, tn, outcomes);
  }

  lemma DeliverDelays(s: Store, tn: TrackingNumber, outcomes: seq<Outcome>)
    requires tn in s.events && |outcomes| == MaxRetries
    ensures Delays(Deliver(s, tn, outcomes).value.trace)
         == Backoffs(1, LeadingFailures(Targeted(s, tn, outcomes)))
  {
    DeliverExact(s, tn, outcomes);
  }

  /** One run writes between 1 and MaxRetries attempt rows for this event,
      numbered 1, 2, ... in order, with consecutive fresh ids. */
  lemma DeliverNumbering(s: Store, tn: TrackingNumber, outcomes: seq<Outcome>)
    requires tn in s.events && |outcomes| == MaxRetries
    ensures var added := Added(s, Deliver(s, tn, outcomes).value.store);
            && 1 <= |added| <= MaxRetries
            && forall i :: 0 <= i < |added| ==>
                 && added[i].trackingNumber == tn
                 && added[i].attemptNumber == i + 1
                 && added[i].id == |s.attempts| + i + 1
  {
    AddedRecords(s, tn, outcomes);
    CycleRecordsNumbering(tn, Targeted(s, tn, outcomes), 1, |s.attempts| + 1);
  }

  /** If the first success is at attempt k, exactly k rows are written:
      k - 1 failures carrying their error text, then one success without
      one; the event ends delivered and the delays are 2, 4, ... for the
      k - 1 failures only. */
  lemma DeliverSucceedsAt(s: Store, tn: TrackingNumber, outcomes: seq<Outcome>, k: nat)
    requires tn in s.events && |outcomes| == MaxRetries
    requires s.events[tn].mailboxId in s.mailboxes
    requires 1 <= k <= MaxRetries && outcomes[k - 1].Accepted?
    requires forall i :: 0 <= i < k - 1 ==> outcomes[i].Rejected?
    ensures var c := Deliver(s, tn, outcomes).value;
            var added := Added(s, c.store);
            && |added| == k
            && (forall i :: 0 <= i < k - 1 ==>
                  added[i].status == Failure && added[i].error == Some(outcomes[i].reason))
            && added[k - 1].status == Success && added[k - 1].error == None
            && c.store.events[tn].status == Delivered
            && Delays(c.trace) == Backoffs(1, k - 1)
  {
    assert Targeted(s, tn, outcomes) == outcomes;
    AddedRecords(s, tn, outcomes);
    DeliverFinalStatus(s, tn, outcomes);
    DeliverDelays(s, tn, outcomes);
    assert LeadingFailures(outcomes) == k - 1;
    CycleRecordsNumbering(tn, outcomes, 1, |s.attempts| + 1);
    CycleRecordsStatus(tn, outcomes, 1, |s.attempts| + 1);
  }

  /** If every attempt fails, exactly MaxRetries "failed" rows are written,
      each with its error text, the event ends failed, and the run waits
      2, 4 and 8 seconds, the last wait coming after the final failure. */
  lemma DeliverAllFail(s: Store, tn: TrackingNumber, outcomes: seq<Outcome>)
    requires tn in s.events && |outcomes| == MaxRetries
    requires s.events[tn].mailboxId in s.mailboxes
    requires forall i :: 0 <= i < |outcomes| ==> outcomes[i].Rejected?
    ensures var c := Deliver(s, tn, outcomes).value;
            var added := Added(s, c.store);
            && |added| == MaxRetries
            && (forall i :: 0 <= i < MaxRetries ==>
                  added[i].status == Failure && added[i].error == Some(outcomes[i].reason))
            && c.store.events[tn].status == Failed
            && Delays(c.trace) == [2, 4, 8]
  {
    assert Targeted(s, tn, outcomes) == outcomes;
    AddedRecords(s, tn, outcomes);
    DeliverFinalStatus(s, tn, outcomes);
    DeliverDelays(s, tn, outcomes);
    assert LeadingFailures(outcomes) == MaxRetries;
    CycleRecordsNumbering(tn, outcomes, 1, |s.attempts| + 1);
    CycleRecordsStatus(tn, outcomes, 1, |s.attempts| + 1);
    BackoffSchedule();
  }

  /** A run for an event whose mailbox row is missing does not abort: every
      attempt fails reading the target URL, so three "failed" rows carrying
      that exception's text are written and the event ends failed. */
  lemma DeliverMissingMailbox(s: Store, tn: TrackingNumber, outcomes: seq<Outcome>)
    requires tn in s.events && |outcomes| == MaxRetries
    requires s.events[tn].mailboxId !in s.mailboxes
    ensures var c := Deliver(s, tn, outcomes).value;
            var added := Added(s, c.store);
            && |added| == MaxRetries
            && (forall i :: 0 <= i < MaxRetries ==>
                  added[i].status == Failure && added[i].error == Some(MissingMailboxError))
            && c.store.events[tn].status == Failed
            && Delays(c.trace) == [2, 4, 8]
  {
    var eff := Targeted(s, tn, outcomes);
    AddedRecords(s, tn, outcomes);
    DeliverFinalStatus(s, tn, outcomes);
    DeliverDelays(s, tn, outcomes);
    assert LeadingFailures(eff) == MaxRetries;
    CycleRecordsStatus(tn, eff, 1, |s.attempts| + 1);
    BackoffSchedule();
  }

  /** Every row a run writes is well formed: a failure carries the text of
      the exception its attempt raised, a success carries no error, only the
      last row can be a success, and it is one exactly when the event ends
      delivered. */
  lemma DeliverRecordShape(s: Store, tn: TrackingNumber, outcomes: seq<Outcome>)
    requires tn in s.events && |outcomes| == MaxRetries
    ensures var c := Deliver(s, tn, outcomes).value;
            var added := Added(s, c.store);
            var eff := Targeted(s, tn, outcomes);
            && (forall i :: 0 <= i < |added| ==>
                  && WellFormedAttempt(added[i])
                  && added[i].attemptNumber <= MaxRetries
                  && (added[i].status == Failure <==> eff[i].Rejected?)
                  && (added[i].status == Failure ==> added[i].error == Some(eff[i].reason)))
            && (forall i :: 0 <= i < |added| - 1 ==> added[i].status == Failure)
            && (c.store.events[tn].status == Delivered <==> added[|added| - 1].status == Success)
  {
    var eff := Targeted(s, tn, outcomes);
    AddedRecords(s, tn, outcomes);
    DeliverFinalStatus(s, tn, outcomes);
    CycleRecordsNumbering(tn, eff, 1, |s.attempts| + 1);
    CycleRecordsStatus(tn, eff, 1, |s.attempts| + 1);
  }

  /** After failed attempt n the run asks to wait Backoff(n) = 2 ** n seconds,
      and it waits after every failure and after no success. */
  lemma DeliverBackoff(s: Store, tn: TrackingNumber, outcomes: seq<Outcome>)
    requires tn in s.events && |outcomes| == MaxRetries
    ensures var c := Deliver(s, tn, outcomes).value;
            var added := Added(s, c.store);
            var d := Delays(c.trace);
            && |d| == (if c.store.events[tn].status == Delivered then |added| - 1 else |added|)
            && forall i :: 0 <= i < |d| ==> d[i] == Backoff(i + 1) && added[i].status == Failure
  {
    var eff := Targeted(s, tn, outcomes);
    var k := LeadingFailures(eff);
    AddedRecords(s, tn, outcomes);
    DeliverFinalStatus(s, tn, outcomes);
    DeliverDelays(s, tn, outcomes);
    CycleRecordsStatus(tn, eff, 1, |s.attempts| + 1);
    BackoffsLength(1, k);
    forall i | 0 <= i < k
      ensures Backoffs(1, k)[i] == Backoff(i + 1)
    {
      BackoffsIndex(1, k, i);
    }
  }

  // ----- The order of writes and waits -----

  /** Applies one step of a trace to the store; sleeps change nothing. */
  function ApplyStep(s: Store, tn: TrackingNumber, step: Step): Store
    requires tn in s.events
  {
    match step
    case Sleep(_) => s
    case Commit(added, status) =>
      var s1 := if added.Some? then Append(s, added.value) else s;
      if status.Some? then SetStatus(s1, tn, status.value) else s1
  }

  /** The store obtained by performing the writes of a trace in order. */
  function Replay(s: Store, tn: TrackingNumber, trace: seq<Step>): Store
    requires tn in s.events
    decreases |trace|
  {
    if trace == [] then s
    else
      var s1 := ApplyStep(s, tn, trace[0]);
      assert s1.events.Keys == s.events.Keys;
      Replay(s1, tn, trace[1..])
  }

  /** Each sleep is immediately preceded by the commit of the failed attempt
      it backs off from, lasting 2 ** (that attempt's number) seconds. */
  ghost predicate CommitsBeforeSleeps(trace: seq<Step>)
  {
    forall i :: 0 <= i < |trace| && trace[i].Sleep? ==>
      && 0 < i
      && trace[i - 1].Commit?
      && trace[i - 1].added.Some?
      && trace[i - 1].status.None?
      && trace[i - 1].added.value.status == Failure
      && trace[i].seconds == Backoff(trace[i - 1].added.value.attemptNumber)
  }

  /** Only the last step of a trace writes the event status, and it writes `status`. */
  ghost predicate StatusWrittenLast(trace: seq<Step>, status: EventStatus)
  {
    && trace != []
    && trace[|trace| - 1].Commit?
    && trace[|trace| - 1].status == Some(status)
    && forall i :: 0 <= i < |trace| - 1 ==> trace[i].Sleep? || trace[i].status.None?
  }

  /** The two steps a failed attempt contributes to a trace. */
  function FailureSteps(a: WebhookAttempt, seconds: nat): seq<Step>
  {
    [Commit(Some(a), None), Sleep(seconds)]
  }

  /** The loop over a failed attempt: its two steps, then the rest of the loop. */
  lemma RunFailureUnfolds(s: Store, tn: TrackingNumber, outcomes: seq<Outcome>, attempt: nat)
    requires tn in s.events
    requires |outcomes| == MaxRetries && 1 <= attempt <= MaxRetries
    requires outcomes[attempt - 1].Rejected?
    ensures var a := NewAttempt(s, tn, attempt, Failure, Some(outcomes[attempt - 1].reason));
            var next := Run(Append(s, a), tn, outcomes, attempt + 1);
            Run(s, tn, outcomes, attempt) == Cycle(next.store, FailureSteps(a, Backoff(attempt)) + next.trace)
  {
  }

  lemma ReplayFailureSteps(s: Store, tn: TrackingNumber, a: WebhookAttempt, seconds: nat, rest: seq<Step>)
    requires tn in s.events
    ensures Replay(s, tn, FailureSteps(a, seconds) + rest) == Replay(Append(s, a), tn, rest)
  {
    var t := FailureSteps(a, seconds) + rest;
    assert t[1..] == [Sleep(seconds)] + rest;
    assert t[1..][1..] == rest;
  }

  lemma CommitsBeforeSleepsCons(a: WebhookAttempt, rest: seq<Step>)
    requires CommitsBeforeSleeps(rest) && a.status == Failure
    requires rest != [] ==> !rest[0].Sleep?
    ensures CommitsBeforeSleeps(FailureSteps(a, Backoff(a.attemptNumber)) + rest)
  {
    var t := FailureSteps(a, Backoff(a.attemptNumber)) + rest;
    forall i | 0 <= i < |t| && t[i].Sleep?
      ensures 0 < i && t[i - 1].Commit? && t[i - 1].added.Some? && t[i - 1].status.None?
      ensures t[i - 1].added.value.status == Failure
      ensures t[i].seconds == Backoff(t[i - 1].added.value.attemptNumber)
    {
      if i >= 2 {
        assert t[i] == rest[i - 2];
        if i >= 3 {
          assert t[i - 1] == rest[i - 3];
        }
      }
    }
  }

  lemma StatusWrittenLastCons(a: WebhookAttempt, seconds: nat, rest: seq<Step>, status: EventStatus)
    requires StatusWrittenLast(rest, status)
    ensures StatusWrittenLast(FailureSteps(a, seconds) + rest, status)
  {
    var t := FailureSteps(a, seconds) + rest;
    assert t[|t| - 1] == rest[|rest| - 1];
    forall i | 0 <= i < |t| - 1
      ensures t[i].Sleep? || t[i].status.None?
    {
      if i >= 2 {
        assert t[i] == rest[i - 2];
      }
    }
  }

  /** Replaying the loop's writes in order gives the store it computes. */
  lemma {:induction false} RunReplays(s: Store, tn: TrackingNumber, outcomes: seq<Outcome>, attempt: nat)
    requires tn in s.events
    requires |outcomes| == MaxRetries && 1 <= attempt <= MaxRetries + 1
    ensures Replay(s, tn, Run(s, tn, outcomes, attempt).trace) == Run(s, tn, outcomes, attempt).store
    decreases MaxRetries + 1 - attempt
  {
    if attempt > MaxRetries || outcomes[attempt - 1].Accepted? {
      assert Run(s, tn, outcomes, attempt).trace[1..] == [];
    } else {
      var a := NewAttempt(s, tn, attempt, Failure, Some(outcomes[attempt - 1].reason));
      var next := Run(Append(s, a), tn, outcomes, attempt + 1);
      RunFailureUnfolds(s, tn, outcomes, attempt);
      RunReplays(Append(s, a), tn, outcomes, attempt + 1);
      ReplayFailureSteps(s, tn, a, Backoff(attempt), next.trace);
    }
  }

  /** Every sleep of the loop comes right after the commit of the failed
      attempt it backs off from, and the loop's trace never starts with a sleep. */
  lemma {:induction false} RunCommitsBeforeSleeps(s: Store, tn: TrackingNumber, outcomes: seq<Outcome>, attempt: nat)
    requires tn in s.events
    requires |outcomes| == MaxRetries && 1 <= attempt <= MaxRetries + 1
    ensures CommitsBeforeSleeps(Run(s, tn, outcomes, attempt).trace)
    ensures Run(s, tn, outcomes, attempt).trace != []
    ensures Run(s, tn, outcomes, attempt).trace[0].Commit?
    decreases MaxRetries + 1 - attempt
  {
    if attempt <= MaxRetries && outcomes[attempt - 1].Rejected? {
      var a := NewAttempt(s, tn, attempt, Failure, Some(outcomes[attempt - 1].reason));
      var next := Run(Append(s, a), tn, outcomes, attempt + 1);
      RunFailureUnfolds(s, tn, outcomes, attempt);
      RunCommitsBeforeSleeps(Append(s, a), tn, outcomes, attempt + 1);
      CommitsBeforeSleepsCons(a, next.trace);
    }
  }

  /** The loop writes the event status only in its last step, and writes
      the status it ends in. */
  lemma {:induction false} RunWritesStatusLast(s: Store, tn: TrackingNumber, outcomes: seq<Outcome>, attempt: nat)
    requires tn in s.events
    requires |outcomes| == MaxRetries && 1 <= attempt <= MaxRetries + 1
    ensures StatusWrittenLast(Run(s, tn, outcomes, attempt).trace,
                              Run(s, tn, outcomes, attempt).store.events[tn].status)
    decreases MaxRetries + 1 - attempt
  {
    if attempt <= MaxRetries && outcomes[attempt - 1].Rejected? {
      var a := NewAttempt(s, tn, attempt, Failure, Some(outcomes[attempt - 1].reason));
      var next := Run(Append(s, a), tn, outcomes, attempt + 1);
      RunFailureUnfolds(s, tn, outcomes, attempt);
      RunWritesStatusLast(Append(s, a), tn, outcomes, attempt + 1);
      StatusWrittenLastCons(a, Backoff(attempt), next.trace, next.store.events[tn].status);
    }
  }

  /** The trace of a delivery run: writes replay to the final store, every
      failed attempt is committed before its backoff sleep, and the terminal
      status is the last thing written. */
  lemma DeliverTrace(s: Store, tn: TrackingNumber, outcomes: seq<Outcome>)
    requires tn in s.events && |outcomes| == MaxRetries
    ensures var c := Deliver(s, tn, outcomes).value;
            && Replay(s, tn, c.trace) == c.store
            && CommitsBeforeSleeps(c.trace)
            && StatusWrittenLast(c.trace, c.store.events[tn].status)
  {
    var eff := Targeted(s, tn, outcomes);
    RunReplays(s, tn, eff, 1);
    RunCommitsBeforeSleeps(s, tn, eff, 1);
    RunWritesStatusLast(s, tn, eff, 1);
  }
}
