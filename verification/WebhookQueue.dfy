/**
 The delivery queue and its consumer. A job is handled as one step: the delivery is processed,
 then the job is settled through its handle, at most once.
 */
module WebhookQueue {
  import opened Prelude
  import opened Retry
  import opened WebhookWorker

  type Metadata = map<string, string>

  datatype Message = Message(deliveryId: string, attempt: int, enqueuedAt: int, readyAt: int, metadata: Metadata)

  datatype DeadJob = DeadJob(
    deliveryId: string, attempt: int, enqueuedAt: int, metadata: Metadata,
    reason: string, attempts: int, deadLetterUri: Option<string>)

  datatype Settlement = Open | Acked | Retried(next: Message) | Dead(job: DeadJob) | Broken

  // The message put back for another attempt.
  function Again(m: Message, nextAttempt: int, delaySeconds: nat, enqueuedAt: int, more: Metadata): Message {
    Message(m.deliveryId, nextAttempt, enqueuedAt, enqueuedAt + delaySeconds * 1000, m.metadata + more)
  }

  function Buried(m: Message, reason: string, attempts: int, deadLetterUri: Option<string>, more: Metadata): DeadJob {
    DeadJob(m.deliveryId, m.attempt, m.enqueuedAt, m.metadata + more, reason, attempts, deadLetterUri)
  }

  // What happens while one job is handled: the delivery read, its processing, whether a write to a
  // queue fails, and the clock when the delay is computed and when the retry is enqueued.
  datatype Handling = Handling(
    readOk: bool, conditions: Conditions, addOk: bool, delayAt: int, enqueuedAt: int)

  // --------------------------------------------------------------------- a handle

  class JobHandle {
    const message: Message
    var settled: bool
    var settlement: Settlement

    constructor (message: Message)
      ensures this.message == message && !settled && settlement == Open
    {
      this.message, settled, settlement := message, false, Open;
    }

    ghost predicate Valid()
      reads this
    {
      settled <==> settlement != Open
    }

    // `finish`: the first settlement counts, later ones change nothing.
    method Finish(action: Settlement, actionOk: bool) returns (ok: bool)
      requires Valid() && action != Open && action != Broken
      modifies this
      ensures Valid() && settled
      ensures old(settled) ==> ok && settlement == old(settlement)
      ensures !old(settled) ==> ok == actionOk && settlement == if actionOk then action else Broken
    {
      if settled {
        return true;
      }
      settled := true;
      if !actionOk {
        settlement := Broken;
        return false;
      }
      settlement := action;
      return true;
    }

    method Ack() returns (ok: bool)
      requires Valid()
      modifies this
      ensures Valid() && settled && ok && settlement == if old(settled) then old(settlement) else Acked
    {
      ok := Finish(Acked, true);
    }

    method Retry(delaySeconds: nat, nextAttempt: int, metadata: Metadata, enqueuedAt: int, addOk: bool)
      returns (ok: bool)
      requires Valid()
      modifies this
      ensures Valid() && settled
      ensures settlement ==
              if old(settled) then old(settlement)
              else if addOk then Retried(Again(message, nextAttempt, delaySeconds, enqueuedAt, metadata))
              else Broken
      ensures ok == (old(settled) || addOk)
    {
      var next := Message(message.deliveryId, nextAttempt, enqueuedAt, enqueuedAt + delaySeconds * 1000,
                          message.metadata + metadata);
      ok := Finish(Retried(next), addOk);
    }

    method DeadLetter(reason: string, attempts: int, deadLetterUri: Option<string>, metadata: Metadata, addOk: bool)
      returns (ok: bool)
      requires Valid()
      modifies this
      ensures Valid() && settled
      ensures settlement ==
              if old(settled) then old(settlement)
              else if addOk then Dead(Buried(message, reason, attempts, deadLetterUri, metadata))
              else Broken
      ensures ok == (old(settled) || addOk)
    {
      var payload := DeadJob(message.deliveryId, message.attempt, message.enqueuedAt, message.metadata + metadata,
                             reason, attempts, deadLetterUri);
      ok := Finish(Dead(payload), addOk);
    }
  }

  // ------------------------------------------------------------------ one handling

  function StoredAfter(rows: map<string, Delivery>, id: string, h: Handling): map<string, Delivery> {
    if h.readOk && id in rows then rows[id := Stored(rows[id], h.conditions)] else rows
  }

  // How a job is settled, given what became of its delivery.
  function SettlementOf(rows: map<string, Delivery>, m: Message, h: Handling, errorDelaySeconds: nat): Settlement {
    if h.readOk && m.deliveryId !in rows then Acked
    else if !h.readOk || Answer(rows[m.deliveryId], h.conditions).Err? then
      if !h.addOk then Broken
      else Retried(Again(m, m.attempt + 1, errorDelaySeconds, h.enqueuedAt, map["reason" := "processing_error"]))
    else
      var p := Answer(rows[m.deliveryId], h.conditions).value;
      match p.record.status
      case Succeeded => Acked
      case Pending =>
        var delay := QueueDelaySeconds(p.record.nextAttemptAt, h.delayAt);
        if !h.addOk then Broken
        else Retried(Again(m, p.record.attemptCount + 1, delay, h.enqueuedAt, map["deliveryId" := m.deliveryId]))
      case _ =>
        var reason := p.record.errorMessage.GetOr("Delivery moved to dead-letter queue.");
        if !h.addOk then Broken
        else
          Dead(Buried(m, reason, p.record.attemptCount, p.deadLetterUri, map["deliveryId" := m.deliveryId]))
  }

  class QueueWorker {
    const worker: DeliveryWorker
    const errorRetryDelaySeconds: nat

    constructor (worker: DeliveryWorker, errorRetryDelaySeconds: Option<int>)
      ensures this.worker == worker
      ensures this.errorRetryDelaySeconds == Max(0, errorRetryDelaySeconds.GetOr(60))
    {
      this.worker, this.errorRetryDelaySeconds := worker, Max(0, errorRetryDelaySeconds.GetOr(60));
    }

    // `handleMessage`
    method HandleMessage(handle: JobHandle, h: Handling)
      requires handle.Valid() && !handle.settled && worker.store.Valid()
      modifies handle, worker, worker.store
      ensures worker.store.Valid() && handle.Valid() && handle.settled
      ensures worker.store.rows == StoredAfter(old(worker.store.rows), handle.message.deliveryId, h)
      ensures handle.settlement == SettlementOf(old(worker.store.rows), handle.message, h, errorRetryDelaySeconds)
    {
      var id := handle.message.deliveryId;
      var found := h.readOk && id in worker.store.rows;
      if h.readOk && !found {
        var _ := handle.Ack();
        return;
      }
      var outcome: Result<Processed, WorkerError> := Err(LookupError);
      if found {
        outcome := worker.ProcessDeliveryRecord(worker.store.rows[id], h.conditions);
      }
      if outcome.Err? {
        var _ := handle.Retry(errorRetryDelaySeconds, handle.message.attempt + 1, map["reason" := "processing_error"],
                              h.enqueuedAt, h.addOk);
        return;
      }
      var record := outcome.value.record;
      if record.status == Succeeded {
        var _ := handle.Ack();
      } else if record.status == Pending {
        var delay := QueueDelaySeconds(record.nextAttemptAt, h.delayAt);
        var _ := handle.Retry(delay, record.attemptCount + 1, map["deliveryId" := id], h.enqueuedAt, h.addOk);
      } else {
        var _ := handle.DeadLetter(record.errorMessage.GetOr("Delivery moved to dead-letter queue."),
                                   record.attemptCount, outcome.value.deadLetterUri, map["deliveryId" := id], h.addOk);
      }
    }
  }

  // -------------------------------------------------------------------- whole runs

  // The rows, the jobs waiting, and by delivery the jobs ever enqueued from outside and those settled.
  datatype QueueState = QueueState(
    rows: map<string, Delivery>, jobs: seq<Message>, enqueued: multiset<string>,
    acked: multiset<string>, dead: multiset<string>, broken: multiset<string>)

  datatype Event =
    | Enqueue(m: Message)
    | Handle(job: nat, handling: Handling)

  function Ids(jobs: seq<Message>): multiset<string> {
    if jobs == [] then multiset{} else Ids(Front(jobs)) + multiset{Last(jobs).deliveryId}
  }

  function Taken(jobs: seq<Message>, i: nat): seq<Message>
    requires i < |jobs|
  {
    jobs[..i] + jobs[i + 1..]
  }

  function AfterEvent(q: QueueState, e: Event, errorDelaySeconds: nat): QueueState {
    match e
    case Enqueue(m) => q.(jobs := q.jobs + [m], enqueued := q.enqueued + multiset{m.deliveryId})
    case Handle(i, h) =>
      if i >= |q.jobs| then q
      else
        var m := q.jobs[i];
        AfterSettling(q, i, StoredAfter(q.rows, m.deliveryId, h), SettlementOf(q.rows, m, h, errorDelaySeconds))
  }

  // Job i is settled, and the stored deliveries have become `rows`.
  function AfterSettling(q: QueueState, i: nat, rows: map<string, Delivery>, s: Settlement): QueueState
    requires i < |q.jobs|
  {
    var id := multiset{q.jobs[i].deliveryId};
    var left := q.(rows := rows, jobs := Taken(q.jobs, i));
    match s
    case Acked => left.(acked := q.acked + id)
    case Retried(next) => left.(jobs := left.jobs + [next])
    case Dead(_) => left.(dead := q.dead + id)
    case Broken => left.(broken := q.broken + id)
    case Open => left
  }

  function AfterEvents(q: QueueState, events: seq<Event>, errorDelaySeconds: nat): QueueState {
    if events == [] then q
    else AfterEvent(AfterEvents(q, Front(events), errorDelaySeconds), Last(events), errorDelaySeconds)
  }

  // Per delivery, every message enqueued is waiting, acknowledged, dead-lettered or failed to settle.
  ghost predicate Conserved(q: QueueState) {
    forall id :: q.enqueued[id] == Ids(q.jobs)[id] + q.acked[id] + q.dead[id] + q.broken[id]
  }

  // The ledgers count, per delivery, the messages from outside and the settlements of each kind.
  lemma EventCounts(q: QueueState, e: Event, id: string, errorDelaySeconds: nat)
    ensures var after := AfterEvent(q, e, errorDelaySeconds);
            var handled := e.Handle? && e.job < |q.jobs| && q.jobs[e.job].deliveryId == id;
            var s := if handled then SettlementOf(q.rows, q.jobs[e.job], e.handling, errorDelaySeconds) else Open;
            && after.acked[id] == q.acked[id] + (if s.Acked? then 1 else 0)
            && after.dead[id] == q.dead[id] + (if s.Dead? then 1 else 0)
            && after.broken[id] == q.broken[id] + (if s.Broken? then 1 else 0)
            && after.enqueued[id] == q.enqueued[id] + (if e.Enqueue? && e.m.deliveryId == id then 1 else 0)
            && (handled && s.Retried? ==> after.jobs != [] && Last(after.jobs) == s.next)
  {
  }

  lemma {:induction false} IdsAppend(a: seq<Message>, b: seq<Message>)
    ensures Ids(a + b) == Ids(a) + Ids(b)
  {
    if b == [] {
      assert a + b == a;
    } else {
      assert Front(a + b) == a + Front(b) && Last(a + b) == Last(b);
      IdsAppend(a, Front(b));
      assert Ids(a + b) == Ids(a + Front(b)) + multiset{Last(b).deliveryId};
    }
  }

  lemma IdsOne(m: Message)
    ensures Ids([m]) == multiset{m.deliveryId}
  {
    assert Front([m]) == [];
  }

  lemma IdsTaken(jobs: seq<Message>, i: nat)
    requires i < |jobs|
    ensures forall id :: Ids(jobs)[id] == Ids(Taken(jobs, i))[id] + if jobs[i].deliveryId == id then 1 else 0
  {
    var a, b := jobs[..i], jobs[i + 1..];
    assert jobs == a + ([jobs[i]] + b);
    IdsAppend(a, [jobs[i]] + b);
    IdsAppend([jobs[i]], b);
    IdsAppend(a, b);
    IdsOne(jobs[i]);
    assert Taken(jobs, i) == a + b;
  }

  lemma EventConserves(q: QueueState, e: Event, errorDelaySeconds: nat)
    requires Conserved(q)
    ensures Conserved(AfterEvent(q, e, errorDelaySeconds))
  {
    match e
    case Enqueue(m) =>
      IdsAppend(q.jobs, [m]);
      IdsOne(m);
    case Handle(i, h) =>
      if i < |q.jobs| {
        var m := q.jobs[i];
        SettledForGood(q.rows, m, h, errorDelaySeconds);
        SettlingConserves(q, i, StoredAfter(q.rows, m.deliveryId, h), SettlementOf(q.rows, m, h, errorDelaySeconds));
      }
  }

  // Settling a job takes its message away, unless it is put back.
  lemma IdsSettled(q: QueueState, i: nat, rows: map<string, Delivery>, s: Settlement)
    requires i < |q.jobs| && (s.Retried? ==> s.next.deliveryId == q.jobs[i].deliveryId)
    ensures forall id :: Ids(q.jobs)[id] ==
              Ids(AfterSettling(q, i, rows, s).jobs)[id] + if !s.Retried? && q.jobs[i].deliveryId == id then 1 else 0
  {
    IdsTaken(q.jobs, i);
    if s.Retried? {
      IdsAppend(Taken(q.jobs, i), [s.next]);
      IdsOne(s.next);
    }
  }

  lemma SettlingConserves(q: QueueState, i: nat, rows: map<string, Delivery>, s: Settlement)
    requires Conserved(q) && i < |q.jobs|
    requires s != Open && (s.Retried? ==> s.next.deliveryId == q.jobs[i].deliveryId)
    ensures Conserved(AfterSettling(q, i, rows, s))
  {
    IdsSettled(q, i, rows, s);
  }

  // Every handled job is settled, and a message put back is for the same delivery.
  lemma SettledForGood(rows: map<string, Delivery>, m: Message, h: Handling, errorDelaySeconds: nat)
    ensures SettlementOf(rows, m, h, errorDelaySeconds) != Open
    ensures SettlementOf(rows, m, h, errorDelaySeconds).Retried? ==>
              SettlementOf(rows, m, h, errorDelaySeconds).next.deliveryId == m.deliveryId
  {
  }

  // How each job ends, by what is stored once its delivery is processed.
  lemma SettlementMeaning(rows: map<string, Delivery>, m: Message, h: Handling, errorDelaySeconds: nat)
    ensures var s, after := SettlementOf(rows, m, h, errorDelaySeconds), StoredAfter(rows, m.deliveryId, h);
            var found := h.readOk && m.deliveryId in rows;
            var processed := found && Answer(rows[m.deliveryId], h.conditions).Ok?;
            && (h.readOk && m.deliveryId !in rows ==> s == Acked)
            && (processed && after[m.deliveryId].status == Succeeded ==> s == Acked)
            && (processed && after[m.deliveryId].status != Succeeded && !h.addOk ==> s == Broken)
            && (processed && after[m.deliveryId].status == DeadLettered && h.addOk ==>
                  && s.Dead? && s.job.deliveryId == m.deliveryId && s.job.attempt == m.attempt
                  && s.job.attempts == after[m.deliveryId].attemptCount
                  && Some(s.job.reason) == after[m.deliveryId].errorMessage)
            && (processed && after[m.deliveryId].status == Pending && h.addOk ==>
                  && s.Retried? && s.next.deliveryId == m.deliveryId
                  && s.next.attempt == after[m.deliveryId].attemptCount + 1)
            && (!h.readOk || (found && !processed) ==>
                  if h.addOk then
                    && s.Retried? && s.next.deliveryId == m.deliveryId && s.next.attempt == m.attempt + 1
                    && s.next.readyAt == h.enqueuedAt + 1000 * errorDelaySeconds
                  else s == Broken)
            && (processed ==> after[m.deliveryId].status in {Succeeded, Pending, DeadLettered})
            && (forall id :: id != m.deliveryId ==> Get(after, id) == Get(rows, id))
  {
  }

  // What goes along: a retry and a dead letter keep the message's metadata, and add the delivery or
  // the reason to it; a dead letter keeps when it was enqueued.
  lemma MetadataMeaning(rows: map<string, Delivery>, m: Message, h: Handling, errorDelaySeconds: nat, name: string)
    ensures var s := SettlementOf(rows, m, h, errorDelaySeconds);
            var processed := h.readOk && m.deliveryId in rows && Answer(rows[m.deliveryId], h.conditions).Ok?;
            && (s.Retried? ==>
                  && s.next.enqueuedAt == h.enqueuedAt
                  && Get(s.next.metadata, name) ==
                     if processed && name == "deliveryId" then Some(m.deliveryId)
                     else if !processed && name == "reason" then Some("processing_error")
                     else Get(m.metadata, name))
            && (s.Dead? ==>
                  && processed && s.job.enqueuedAt == m.enqueuedAt
                  && s.job.deadLetterUri == Answer(rows[m.deliveryId], h.conditions).value.deadLetterUri
                  && Get(s.job.metadata, name) ==
                     if name == "deliveryId" then Some(m.deliveryId) else Get(m.metadata, name))
  {
  }

  // Conservation over every run.
  lemma {:induction false} NothingLost(q: QueueState, events: seq<Event>, errorDelaySeconds: nat)
    requires Conserved(q)
    ensures Conserved(AfterEvents(q, events, errorDelaySeconds))
  {
    if events != [] {
      NothingLost(q, Front(events), errorDelaySeconds);
      EventConserves(AfterEvents(q, Front(events), errorDelaySeconds), Last(events), errorDelaySeconds);
    }
  }

  // --------------------------------------------- deliveries that are enqueued once

  lemma {:induction false} IdsCount(jobs: seq<Message>, id: string)
    ensures Ids(jobs)[id] > 0 <==> exists i :: 0 <= i < |jobs| && jobs[i].deliveryId == id
    ensures Ids(jobs)[id] <= 1 ==>
              forall i, j :: 0 <= i < j < |jobs| ==> !(jobs[i].deliveryId == id && jobs[j].deliveryId == id)
  {
    if jobs != [] {
      IdsCount(Front(jobs), id);
      var n := |jobs| - 1;
      forall i, j | 0 <= i < j < |jobs| && Ids(jobs)[id] <= 1
        ensures !(jobs[i].deliveryId == id && jobs[j].deliveryId == id)
      {
        assert Front(jobs)[i] == jobs[i];
        assert Ids(jobs)[id] == Ids(Front(jobs))[id] + if jobs[n].deliveryId == id then 1 else 0;
      }
    }
  }

  // For a delivery enqueued at most once: its waiting message names an attempt beyond those made,
  // and there is none once the delivery is finished.
  ghost predicate OnCourse(q: QueueState, id: string) {
    Conserved(q) && q.enqueued[id] <= 1 && MessagesOnCourse(q, id)
  }

  // The event does not enqueue the delivery again, and enqueues it fresh.
  ghost predicate Fresh(q: QueueState, e: Event, id: string) {
    e.Enqueue? && e.m.deliveryId == id ==>
      && q.enqueued[id] == 0
      && (id in q.rows ==> e.m.attempt >= q.rows[id].attemptCount + 1 && !Terminal(q.rows[id]))
  }

  // A message put back carries the next attempt of a delivery that is not finished.
  lemma RetriedOnCourse(rows: map<string, Delivery>, m: Message, h: Handling, errorDelaySeconds: nat)
    requires m.deliveryId in rows ==> m.attempt >= rows[m.deliveryId].attemptCount + 1 && !Terminal(rows[m.deliveryId])
    requires SettlementOf(rows, m, h, errorDelaySeconds).Retried?
    ensures var next, after := SettlementOf(rows, m, h, errorDelaySeconds).next, StoredAfter(rows, m.deliveryId, h);
            && next.deliveryId == m.deliveryId
            && (m.deliveryId in after ==>
                  next.attempt >= after[m.deliveryId].attemptCount + 1 && !Terminal(after[m.deliveryId]))
  {
  }

  // The waiting messages of the delivery, as `OnCourse` wants them.
  ghost predicate MessagesOnCourse(q: QueueState, id: string) {
    id in q.rows ==>
      forall i :: 0 <= i < |q.jobs| && q.jobs[i].deliveryId == id ==>
        q.jobs[i].attempt >= q.rows[id].attemptCount + 1 && !Terminal(q.rows[id])
  }

  lemma EventKeepsCourse(q: QueueState, e: Event, id: string, errorDelaySeconds: nat)
    requires OnCourse(q, id) && Fresh(q, e, id)
    ensures OnCourse(AfterEvent(q, e, errorDelaySeconds), id)
  {
    var after := AfterEvent(q, e, errorDelaySeconds);
    EventConserves(q, e, errorDelaySeconds);
    assert Conserved(after);
    match e
    case Enqueue(m) => EnqueueKeepsCourse(q, m, id, errorDelaySeconds);
    case Handle(i, h) =>
      if i < |q.jobs| {
        HandlingKeepsCourse(q, i, h, id, errorDelaySeconds);
      }
  }

  lemma EnqueueKeepsCourse(q: QueueState, m: Message, id: string, errorDelaySeconds: nat)
    requires OnCourse(q, id) && Fresh(q, Enqueue(m), id)
    ensures var after := AfterEvent(q, Enqueue(m), errorDelaySeconds);
            MessagesOnCourse(after, id) && after.enqueued[id] <= 1
  {
  }

  lemma HandlingKeepsCourse(q: QueueState, i: nat, h: Handling, id: string, errorDelaySeconds: nat)
    requires OnCourse(q, id) && i < |q.jobs|
    ensures var after := AfterEvent(q, Handle(i, h), errorDelaySeconds);
            MessagesOnCourse(after, id) && after.enqueued == q.enqueued
  {
    var m, s := q.jobs[i], SettlementOf(q.rows, q.jobs[i], h, errorDelaySeconds);
    SettledForGood(q.rows, m, h, errorDelaySeconds);
    if m.deliveryId == id {
      if s.Retried? {
        RetriedOnCourse(q.rows, m, h, errorDelaySeconds);
      }
      OwnJobOnCourse(q, i, StoredAfter(q.rows, id, h), s, id);
    } else {
      OtherJobOnCourse(q, i, StoredAfter(q.rows, m.deliveryId, h), s, id);
    }
  }

  lemma OwnJobOnCourse(q: QueueState, i: nat, rows: map<string, Delivery>, s: Settlement, id: string)
    requires OnCourse(q, id) && i < |q.jobs| && q.jobs[i].deliveryId == id
    requires s.Retried? && id in rows ==> s.next.attempt >= rows[id].attemptCount + 1 && !Terminal(rows[id])
    ensures MessagesOnCourse(AfterSettling(q, i, rows, s), id)
  {
    OthersRemain(q, i, id);
  }

  lemma OtherJobOnCourse(q: QueueState, i: nat, rows: map<string, Delivery>, s: Settlement, id: string)
    requires OnCourse(q, id) && i < |q.jobs| && q.jobs[i].deliveryId != id && Get(rows, id) == Get(q.rows, id)
    requires s.Retried? ==> s.next.deliveryId != id
    ensures MessagesOnCourse(AfterSettling(q, i, rows, s), id)
  {
    var taken := Taken(q.jobs, i);
    assert forall j :: 0 <= j < |taken| ==> taken[j] == q.jobs[if j < i then j else j + 1];
    assert id in rows ==> id in q.rows && rows[id] == q.rows[id];
  }

  // Taking the one message of a delivery leaves those of others.
  lemma OthersRemain(q: QueueState, i: nat, id: string)
    requires OnCourse(q, id) && i < |q.jobs| && q.jobs[i].deliveryId == id
    ensures forall j :: 0 <= j < |Taken(q.jobs, i)| ==> Taken(q.jobs, i)[j].deliveryId != id
  {
    var taken := Taken(q.jobs, i);
    IdsCount(q.jobs, id);
    assert forall j :: 0 <= j < |taken| ==> taken[j] == q.jobs[if j < i then j else j + 1];
  }

  ghost predicate AllFresh(q: QueueState, events: seq<Event>, id: string, errorDelaySeconds: nat) {
    events == [] ||
    (&& AllFresh(q, Front(events), id, errorDelaySeconds)
     && Fresh(AfterEvents(q, Front(events), errorDelaySeconds), Last(events), id))
  }

  // Over every run: a delivery enqueued once has at most one waiting message, which carries an
  // attempt beyond those made; and none once it is finished.
  lemma {:induction false} OneMessageAtMost(q: QueueState, events: seq<Event>, id: string, errorDelaySeconds: nat)
    requires OnCourse(q, id) && AllFresh(q, events, id, errorDelaySeconds)
    ensures var after := AfterEvents(q, events, errorDelaySeconds);
            && OnCourse(after, id)
            && Ids(after.jobs)[id] <= 1
            && (id in after.rows && Terminal(after.rows[id]) ==> Ids(after.jobs)[id] == 0)
  {
    if events != [] {
      OneMessageAtMost(q, Front(events), id, errorDelaySeconds);
      EventKeepsCourse(AfterEvents(q, Front(events), errorDelaySeconds), Last(events), id, errorDelaySeconds);
    }
    IdsCount(AfterEvents(q, events, errorDelaySeconds).jobs, id);
  }

  // ------------------------------------------------------------- the requests sent

  // The event sends the delivery, by handling one of its messages.
  predicate SendsIn(q: QueueState, e: Event, id: string) {
    && e.Handle? && e.job < |q.jobs| && q.jobs[e.job].deliveryId == id
    && e.handling.readOk && id in q.rows && Sends(e.handling.conditions)
  }

  function SendCount(q: QueueState, events: seq<Event>, id: string, errorDelaySeconds: nat): nat {
    if events == [] then 0
    else
      SendCount(q, Front(events), id, errorDelaySeconds) +
      if SendsIn(AfterEvents(q, Front(events), errorDelaySeconds), Last(events), id) then 1 else 0
  }

  // How many of them failed to record their outcome.
  function LostCount(q: QueueState, events: seq<Event>, id: string, errorDelaySeconds: nat): nat {
    if events == [] then 0
    else
      var last := Last(events);
      LostCount(q, Front(events), id, errorDelaySeconds) +
      if SendsIn(AfterEvents(q, Front(events), errorDelaySeconds), last, id)
         && LosesOutcome(last.handling.conditions) then 1 else 0
  }

  ghost predicate PoliciesAtMost(events: seq<Event>, m: int) {
    forall i :: 0 <= i < |events| && events[i].Handle? ==> PolicyAtMost(events[i].handling.conditions, m)
  }

  // The sends and retries so far of a delivery, against the messages it has had.
  datatype Ledger = Ledger(sends: nat, lost: nat, retries: nat)

  // A retry is a request whose failure was recorded with an attempt left.
  function AfterEntry(l: Ledger, q: QueueState, e: Event, id: string): Ledger {
    if !SendsIn(q, e, id) then l
    else
      var lost := LosesOutcome(e.handling.conditions);
      var retried := !lost && Stored(q.rows[id], e.handling.conditions).status == Pending;
      Ledger(l.sends + 1, l.lost + if lost then 1 else 0, l.retries + if retried then 1 else 0)
  }

  function LedgerOf(q: QueueState, events: seq<Event>, id: string, errorDelaySeconds: nat): Ledger {
    if events == [] then Ledger(0, 0, 0)
    else
      AfterEntry(LedgerOf(q, Front(events), id, errorDelaySeconds),
                 AfterEvents(q, Front(events), errorDelaySeconds), Last(events), id)
  }

  // Every request is an attempt; a recorded retry leaves an attempt; every other request whose
  // outcome was recorded used up one of the messages that the delivery was enqueued with.
  ghost predicate Balanced(l: Ledger, q: QueueState, id: string, m: int) {
    && id in q.rows && l.sends == q.rows[id].attemptCount
    && l.retries <= l.sends && l.retries <= Max(1, m) - 1
    && l.sends + Ids(q.jobs)[id] <= l.retries + l.lost + q.enqueued[id]
  }

  // What becomes of a stored delivery whose message is handled: an attempt if a request is sent, and
  // an end of the message if its outcome is recorded as final.
  lemma HandlingOutcome(rows: map<string, Delivery>, m: Message, h: Handling, limit: int, errorDelaySeconds: nat)
    requires m.deliveryId in rows && PolicyAtMost(h.conditions, limit)
    ensures var d, sends := rows[m.deliveryId], h.readOk && Sends(h.conditions);
            var stored := StoredAfter(rows, m.deliveryId, h)[m.deliveryId];
            && stored.attemptCount == d.attemptCount + (if sends then 1 else 0)
            && (sends && !LosesOutcome(h.conditions) && stored.status == Pending ==> stored.attemptCount < limit)
            && (sends && !LosesOutcome(h.conditions) && stored.status != Pending ==>
                  !SettlementOf(rows, m, h, errorDelaySeconds).Retried?)
  {
  }

  lemma SettlingBalances(l: Ledger, q: QueueState, i: nat, h: Handling, id: string, m: int, errorDelaySeconds: nat)
    requires Balanced(l, q, id, m) && i < |q.jobs| && q.jobs[i].deliveryId == id
    requires PolicyAtMost(h.conditions, m)
    ensures var rows, s := StoredAfter(q.rows, id, h), SettlementOf(q.rows, q.jobs[i], h, errorDelaySeconds);
            Balanced(AfterEntry(l, q, Handle(i, h), id), AfterSettling(q, i, rows, s), id, m)
  {
    var rows, s := StoredAfter(q.rows, id, h), SettlementOf(q.rows, q.jobs[i], h, errorDelaySeconds);
    SettledForGood(q.rows, q.jobs[i], h, errorDelaySeconds);
    HandlingOutcome(q.rows, q.jobs[i], h, m, errorDelaySeconds);
    IdsSettled(q, i, rows, s);
    EntryBalances(l, q, Handle(i, h), id, m, AfterSettling(q, i, rows, s));
  }

  lemma EntryBalances(l: Ledger, q: QueueState, e: Event, id: string, m: int, after: QueueState)
    requires Balanced(l, q, id, m) && e.Handle? && id in after.rows && after.enqueued == q.enqueued
    requires after.rows[id].attemptCount == q.rows[id].attemptCount + if SendsIn(q, e, id) then 1 else 0
    requires Ids(after.jobs)[id] <= Ids(q.jobs)[id]
    requires SendsIn(q, e, id) && !LosesOutcome(e.handling.conditions) ==>
               if Stored(q.rows[id], e.handling.conditions).status == Pending then after.rows[id].attemptCount < m
               else Ids(after.jobs)[id] + 1 <= Ids(q.jobs)[id]
    ensures Balanced(AfterEntry(l, q, e, id), after, id, m)
  {
  }

  lemma OtherSettlingBalances(l: Ledger, q: QueueState, i: nat, h: Handling, id: string, m: int, errorDelaySeconds: nat)
    requires Balanced(l, q, id, m) && i < |q.jobs| && q.jobs[i].deliveryId != id
    ensures var other := q.jobs[i].deliveryId;
            var rows, s := StoredAfter(q.rows, other, h), SettlementOf(q.rows, q.jobs[i], h, errorDelaySeconds);
            Balanced(l, AfterSettling(q, i, rows, s), id, m)
  {
    var rows := StoredAfter(q.rows, q.jobs[i].deliveryId, h);
    SettledForGood(q.rows, q.jobs[i], h, errorDelaySeconds);
    IdsSettled(q, i, rows, SettlementOf(q.rows, q.jobs[i], h, errorDelaySeconds));
  }

  lemma EventBalances(l: Ledger, q: QueueState, e: Event, id: string, m: int, errorDelaySeconds: nat)
    requires Balanced(l, q, id, m) && (e.Handle? ==> PolicyAtMost(e.handling.conditions, m))
    ensures Balanced(AfterEntry(l, q, e, id), AfterEvent(q, e, errorDelaySeconds), id, m)
  {
    match e
    case Enqueue(message) =>
      IdsAppend(q.jobs, [message]);
      IdsOne(message);
    case Handle(i, h) =>
      if i < |q.jobs| {
        if q.jobs[i].deliveryId == id {
          SettlingBalances(l, q, i, h, id, m, errorDelaySeconds);
        } else {
          OtherSettlingBalances(l, q, i, h, id, m, errorDelaySeconds);
        }
      }
  }

  lemma {:induction false} RunBalances(q: QueueState, events: seq<Event>, id: string, m: int, errorDelaySeconds: nat)
    requires Balanced(Ledger(0, 0, 0), q, id, m) && PoliciesAtMost(events, m)
    ensures Balanced(LedgerOf(q, events, id, errorDelaySeconds), AfterEvents(q, events, errorDelaySeconds), id, m)
  {
    if events != [] {
      RunBalances(q, Front(events), id, m, errorDelaySeconds);
      EventBalances(LedgerOf(q, Front(events), id, errorDelaySeconds),
                    AfterEvents(q, Front(events), errorDelaySeconds), Last(events), id, m, errorDelaySeconds);
    }
  }

  lemma {:induction false} LedgerCounts(q: QueueState, events: seq<Event>, id: string, errorDelaySeconds: nat)
    ensures LedgerOf(q, events, id, errorDelaySeconds).sends == SendCount(q, events, id, errorDelaySeconds)
    ensures LedgerOf(q, events, id, errorDelaySeconds).lost == LostCount(q, events, id, errorDelaySeconds)
  {
    if events != [] {
      LedgerCounts(q, Front(events), id, errorDelaySeconds);
    }
  }

  // On the queue path, over every run, whatever the HTTP results and failing reads and writes: a
  // fresh delivery enqueued k times is sent at most max(1, maxAttempts) - 1 + k times, and once
  // more for each outcome that could not be recorded. Its waiting messages count against that.
  lemma QueueSendsBounded(q: QueueState, events: seq<Event>, id: string, m: int, errorDelaySeconds: nat)
    requires Conserved(q) && id in q.rows && q.rows[id].attemptCount == 0 && PoliciesAtMost(events, m)
    ensures var after := AfterEvents(q, events, errorDelaySeconds);
            && id in after.rows
            && SendCount(q, events, id, errorDelaySeconds) == after.rows[id].attemptCount
            && SendCount(q, events, id, errorDelaySeconds) + Ids(after.jobs)[id] <=
               Max(1, m) - 1 + after.enqueued[id] + LostCount(q, events, id, errorDelaySeconds)
  {
    RunBalances(q, events, id, m, errorDelaySeconds);
    LedgerCounts(q, events, id, errorDelaySeconds);
  }

  // A queue of nothing but messages for one stored delivery.
  ghost predicate OnlyFor(q: QueueState, id: string, jobs: nat, attempts: int) {
    && |q.jobs| == jobs && (forall i :: 0 <= i < jobs ==> q.jobs[i].deliveryId == id)
    && id in q.rows && q.rows[id].attemptCount == attempts
  }

  // Its first message is handled, and the request fails.
  function FailFirst(m: nat, recorded: bool): Event {
    var policy := Some(RetryPolicy(Some(m), [], None));
    Handle(0, Handling(true, Conditions(Subscribed(policy), true, Threw(None), recorded, 0, 0, 0), true, 0, 0))
  }

  lemma FailedFirst(q: QueueState, id: string, jobs: nat, attempts: nat, m: nat, recorded: bool)
    requires OnlyFor(q, id, jobs, attempts) && jobs > 0 && m > 0
    ensures SendsIn(q, FailFirst(m, recorded), id)
    ensures var after := AfterEvent(q, FailFirst(m, recorded), 0);
            && after.enqueued == q.enqueued
            && OnlyFor(after, id, if recorded && attempts + 1 >= m then jobs - 1 else jobs, attempts + 1)
  {
    SettledForGood(q.rows, q.jobs[0], FailFirst(m, recorded).handling, 0);
  }

  // One more event, in the terms of the counts.
  lemma OneMore(q: QueueState, events: seq<Event>, e: Event, id: string, m: int)
    requires PoliciesAtMost(events, m) && (e.Handle? ==> PolicyAtMost(e.handling.conditions, m))
    ensures PoliciesAtMost(events + [e], m)
    ensures AfterEvents(q, events + [e], 0) == AfterEvent(AfterEvents(q, events, 0), e, 0)
    ensures var sends := SendsIn(AfterEvents(q, events, 0), e, id);
            && SendCount(q, events + [e], id, 0) == SendCount(q, events, id, 0) + (if sends then 1 else 0)
            && LostCount(q, events + [e], id, 0) ==
               LostCount(q, events, id, 0) + if sends && LosesOutcome(e.handling.conditions) then 1 else 0
  {
    assert Front(events + [e]) == events;
  }

  // The bound is met, however often the delivery is enqueued: every request fails, and the outcome
  // of the last attempt is lost `lost` times.
  lemma QueueBoundMet(d: Delivery, m: nat, n: nat, lost: nat) returns (events: seq<Event>)
    requires d.attemptCount == 0 && m >= 1 && n >= 1
    ensures var q := QueueState(map[d.id := d], [], multiset{}, multiset{}, multiset{}, multiset{});
            && PoliciesAtMost(events, m) && AfterEvents(q, events, 0).enqueued[d.id] == n
            && SendCount(q, events, d.id, 0) == m - 1 + n + lost && LostCount(q, events, d.id, 0) == lost
  {
    var q := QueueState(map[d.id := d], [], multiset{}, multiset{}, multiset{}, multiset{});
    events := [];
    for k := 0 to n
      invariant PoliciesAtMost(events, m) && OnlyFor(AfterEvents(q, events, 0), d.id, k, 0)
      invariant AfterEvents(q, events, 0).enqueued[d.id] == k
      invariant SendCount(q, events, d.id, 0) == 0 && LostCount(q, events, d.id, 0) == 0
    {
      var e := Enqueue(Message(d.id, 1, 0, 0, map[]));
      OneMore(q, events, e, d.id, m);
      events := events + [e];
    }
    for k := 0 to m - 1 + lost + n
      invariant PoliciesAtMost(events, m) && AfterEvents(q, events, 0).enqueued[d.id] == n
      invariant OnlyFor(AfterEvents(q, events, 0), d.id, if k < m - 1 + lost then n else n - (k - (m - 1 + lost)), k)
      invariant SendCount(q, events, d.id, 0) == k
      invariant LostCount(q, events, d.id, 0) == if k < m - 1 then 0 else if k < m - 1 + lost then k - (m - 1) else lost
    {
      var e := FailFirst(m, !(m - 1 <= k < m - 1 + lost));
      var now := AfterEvents(q, events, 0);
      FailedFirst(now, d.id, |now.jobs|, k, m, e.handling.conditions.completeOk);
      OneMore(q, events, e, d.id, m);
      events := events + [e];
    }
  }

  ghost predicate NotEnqueued(events: seq<Event>, id: string) {
    forall i :: 0 <= i < |events| && events[i].Enqueue? ==> events[i].m.deliveryId != id
  }

  // A delivery without a waiting message is neither sent nor changed until it is enqueued.
  lemma {:induction false} NoMessageNoSend(q: QueueState, events: seq<Event>, id: string, errorDelaySeconds: nat)
    requires NotEnqueued(events, id) && Ids(q.jobs)[id] == 0
    ensures SendCount(q, events, id, errorDelaySeconds) == 0
    ensures var after := AfterEvents(q, events, errorDelaySeconds);
            Ids(after.jobs)[id] == 0 && Get(after.rows, id) == Get(q.rows, id)
  {
    if events != [] {
      NoMessageNoSend(q, Front(events), id, errorDelaySeconds);
      EventWithoutMessage(AfterEvents(q, Front(events), errorDelaySeconds), Last(events), id, errorDelaySeconds);
    }
  }

  lemma EventWithoutMessage(q: QueueState, e: Event, id: string, errorDelaySeconds: nat)
    requires Ids(q.jobs)[id] == 0 && (e.Enqueue? ==> e.m.deliveryId != id)
    ensures !SendsIn(q, e, id)
    ensures var after := AfterEvent(q, e, errorDelaySeconds);
            Ids(after.jobs)[id] == 0 && Get(after.rows, id) == Get(q.rows, id)
  {
    IdsCount(q.jobs, id);
    match e
    case Enqueue(message) =>
      IdsAppend(q.jobs, [message]);
      IdsOne(message);
    case Handle(i, h) =>
      if i < |q.jobs| {
        SettledForGood(q.rows, q.jobs[i], h, errorDelaySeconds);
        IdsSettled(q, i, StoredAfter(q.rows, q.jobs[i].deliveryId, h),
                   SettlementOf(q.rows, q.jobs[i], h, errorDelaySeconds));
      }
  }

  // A finished delivery can be sent again, with no further enqueuing, exactly when a message for it
  // is still waiting; and it is the handling of such a message that sends it.
  lemma SentAgainExactly(q: QueueState, id: string, errorDelaySeconds: nat)
    requires id in q.rows && Terminal(q.rows[id])
    ensures (exists events :: NotEnqueued(events, id) && SendCount(q, events, id, errorDelaySeconds) > 0) <==>
            exists i :: 0 <= i < |q.jobs| && q.jobs[i].deliveryId == id
  {
    IdsCount(q.jobs, id);
    if exists i :: 0 <= i < |q.jobs| && q.jobs[i].deliveryId == id {
      var i :| 0 <= i < |q.jobs| && q.jobs[i].deliveryId == id;
      var sending := Conditions(Subscribed(None), true, Threw(None), true, 0, 0, 0);
      var events := [Handle(i, Handling(true, sending, true, 0, 0))];
      assert Front(events) == [];
      assert SendsIn(q, Last(events), id);
      assert NotEnqueued(events, id) && SendCount(q, events, id, errorDelaySeconds) > 0;
    } else {
      forall events | NotEnqueued(events, id) ensures SendCount(q, events, id, errorDelaySeconds) == 0 {
        NoMessageNoSend(q, events, id, errorDelaySeconds);
      }
    }
  }

  // Enqueued once, a finished delivery is never sent or changed again.
  lemma {:induction false} FinishedNeverSentAgain(q: QueueState, events: seq<Event>, id: string, errorDelaySeconds: nat)
    requires OnCourse(q, id) && AllFresh(q, events, id, errorDelaySeconds)
    requires id in q.rows && Terminal(q.rows[id]) && q.enqueued[id] == 1
    ensures SendCount(q, events, id, errorDelaySeconds) == 0
    ensures Get(AfterEvents(q, events, errorDelaySeconds).rows, id) == Some(q.rows[id])
  {
    IdsCount(q.jobs, id);
    StillOnce(q, events, id, errorDelaySeconds);
    NoMessageNoSend(q, events, id, errorDelaySeconds);
  }

  // A delivery enqueued already is not enqueued again by fresh events.
  lemma {:induction false} StillOnce(q: QueueState, events: seq<Event>, id: string, errorDelaySeconds: nat)
    requires q.enqueued[id] == 1 && AllFresh(q, events, id, errorDelaySeconds)
    ensures NotEnqueued(events, id) && AfterEvents(q, events, errorDelaySeconds).enqueued[id] == 1
  {
    if events != [] {
      StillOnce(q, Front(events), id, errorDelaySeconds);
      OnceMore(AfterEvents(q, Front(events), errorDelaySeconds), Last(events), id, errorDelaySeconds);
      NotEnqueuedNext(events, id);
    }
  }

  lemma OnceMore(q: QueueState, e: Event, id: string, errorDelaySeconds: nat)
    requires q.enqueued[id] == 1 && Fresh(q, e, id)
    ensures e.Enqueue? ==> e.m.deliveryId != id
    ensures AfterEvent(q, e, errorDelaySeconds).enqueued[id] == 1
  {
  }

  lemma NotEnqueuedNext(events: seq<Event>, id: string)
    requires events != [] && NotEnqueued(Front(events), id)
    requires Last(events).Enqueue? ==> Last(events).m.deliveryId != id
    ensures NotEnqueued(events, id)
  {
    assert events == Front(events) + [Last(events)];
  }

  // While a delivery is not finished, every request so far was lost or is being retried.
  ghost predicate Unfinished(l: Ledger, q: QueueState, id: string) {
    id in q.rows ==> Owing(l, q.rows[id])
  }

  predicate Owing(l: Ledger, d: Delivery) {
    Terminal(d) || l.sends <= l.lost + l.retries
  }

  lemma EventUnfinished(l: Ledger, q: QueueState, e: Event, id: string, errorDelaySeconds: nat)
    requires OnCourse(q, id) && Unfinished(l, q, id)
    ensures Unfinished(AfterEntry(l, q, e, id), AfterEvent(q, e, errorDelaySeconds), id)
  {
    RowsAfter(q, e, errorDelaySeconds);
    if SendsIn(q, e, id) {
      assert !Terminal(q.rows[id]);
      SentOwing(l, q, e, id);
    } else if e.Handle? && id in q.rows && !Sends(e.handling.conditions) {
      UnsentOrFinal(q.rows[id], e.handling.conditions);
    }
  }

  lemma SentOwing(l: Ledger, q: QueueState, e: Event, id: string)
    requires SendsIn(q, e, id) && !Terminal(q.rows[id]) && Owing(l, q.rows[id])
    ensures Owing(AfterEntry(l, q, e, id), Stored(q.rows[id], e.handling.conditions))
  {
    if !LosesOutcome(e.handling.conditions) {
      FinalOrRetried(q.rows[id], e.handling.conditions);
    }
  }

  lemma RowsAfter(q: QueueState, e: Event, errorDelaySeconds: nat)
    ensures AfterEvent(q, e, errorDelaySeconds).rows ==
            if e.Handle? && e.job < |q.jobs| then StoredAfter(q.rows, q.jobs[e.job].deliveryId, e.handling) else q.rows
  {
  }

  lemma UnsentOrFinal(d: Delivery, c: Conditions)
    requires !Sends(c)
    ensures Stored(d, c) == d || Terminal(Stored(d, c))
  {
  }

  lemma FinalOrRetried(d: Delivery, c: Conditions)
    requires Sends(c) && !LosesOutcome(c)
    ensures Stored(d, c).status == Pending || Terminal(Stored(d, c))
  {
  }

  lemma {:induction false} RunUnfinished(q: QueueState, events: seq<Event>, id: string, errorDelaySeconds: nat)
    requires OnCourse(q, id) && AllFresh(q, events, id, errorDelaySeconds)
    ensures Unfinished(LedgerOf(q, events, id, errorDelaySeconds), AfterEvents(q, events, errorDelaySeconds), id)
  {
    if events != [] {
      RunUnfinished(q, Front(events), id, errorDelaySeconds);
      OneMessageAtMost(q, Front(events), id, errorDelaySeconds);
      EventUnfinished(LedgerOf(q, Front(events), id, errorDelaySeconds),
                      AfterEvents(q, Front(events), errorDelaySeconds), Last(events), id, errorDelaySeconds);
    }
  }

  // Enqueued at most once, a fresh delivery meets the bound of the polling path, and has an attempt
  // left while it is not finished.
  lemma OnceSendsBounded(q: QueueState, events: seq<Event>, id: string, m: int, errorDelaySeconds: nat)
    requires OnCourse(q, id) && AllFresh(q, events, id, errorDelaySeconds)
    requires id in q.rows && q.rows[id].attemptCount == 0 && PoliciesAtMost(events, m)
    ensures var after, sends := AfterEvents(q, events, errorDelaySeconds), SendCount(q, events, id, errorDelaySeconds);
            && id in after.rows
            && sends <= Max(1, m) + LostCount(q, events, id, errorDelaySeconds)
            && (!Terminal(after.rows[id]) ==> sends < Max(1, m) + LostCount(q, events, id, errorDelaySeconds))
  {
    QueueSendsBounded(q, events, id, m, errorDelaySeconds);
    OneMessageAtMost(q, events, id, errorDelaySeconds);
    RunBalances(q, events, id, m, errorDelaySeconds);
    RunUnfinished(q, events, id, errorDelaySeconds);
    LedgerCounts(q, events, id, errorDelaySeconds);
  }

  // A retry scheduled by the policy never comes up before the record says it is due, and less than
  // a second and the enqueuing after.
  lemma ScheduledRetryOnTime(rows: map<string, Delivery>, m: Message, h: Handling, errorDelaySeconds: nat)
    requires m.deliveryId in rows && h.readOk && h.addOk && h.delayAt <= h.enqueuedAt
    requires Answer(rows[m.deliveryId], h.conditions).Ok? && Stored(rows[m.deliveryId], h.conditions).status == Pending
    ensures var s := SettlementOf(rows, m, h, errorDelaySeconds);
            var due := Stored(rows[m.deliveryId], h.conditions).nextAttemptAt;
            s.Retried? && due.Some?
            && due.value <= s.next.readyAt < Max(due.value, h.delayAt) + 1000 + (h.enqueuedAt - h.delayAt)
  {
    var due := Stored(rows[m.deliveryId], h.conditions).nextAttemptAt;
    RetryMatures(due.value, h.delayAt, h.enqueuedAt);
  }
}
