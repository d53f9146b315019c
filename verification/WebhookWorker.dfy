/**
 The delivery worker over its store. What the environment does to one processing (the
 subscription found, the HTTP result, which writes fail, the clock) is its `Conditions`.
 */
module WebhookWorker {
  import opened Prelude
  import opened Ordering
  import opened Retry

  datatype Status = Pending | Delivering | Succeeded | Failed | DeadLettered

  datatype Response = Response(status: int, headers: map<string, string>, body: Option<string>)

  datatype Delivery = Delivery(
    id: string, subscriptionId: string, status: Status, attemptCount: int, lastAttemptAt: Option<int>,
    nextAttemptAt: Option<int>, response: Option<Response>, errorMessage: Option<string>,
    createdAt: int, updatedAt: int)

  datatype Lookup = LookupFailed | NoSubscription | Subscribed(policy: Option<RetryPolicy>)

  // What was thrown, as text; None if it does not count as an error value.
  datatype Http = Responded(response: Response) | Threw(error: Option<string>)

  datatype Conditions = Conditions(
    lookup: Lookup, markOk: bool, http: Http, completeOk: bool,
    startedAt: int, decidedAt: int, completedAt: int)

  datatype Processed = Processed(record: Delivery, deadLetterUri: Option<string>)

  datatype WorkerError = LookupError | WriteError | ListError

  predicate IsSuccess(h: Http) {
    h.Responded? && 200 <= h.response.status <= 299
  }

  predicate Terminal(d: Delivery) {
    d.status == Succeeded || d.status == DeadLettered
  }

  // ------------------------------------------------------- one processing, as a whole

  function Marked(d: Delivery, c: Conditions): Delivery {
    d.(status := Delivering, attemptCount := d.attemptCount + 1, lastAttemptAt := Some(c.startedAt),
       nextAttemptAt := None, errorMessage := None, updatedAt := c.startedAt)
  }

  function NatText(n: nat): string {
    if n < 10 then [(48 + n) as char] else NatText(n / 10) + [(48 + n % 10) as char]
  }

  function IntText(n: int): string {
    if n < 0 then "-" + NatText(-n) else NatText(n)
  }

  function FailureMessage(h: Http): string {
    match h
    case Responded(response) => "HTTP " + IntText(response.status)
    case Threw(error) => error.GetOr("Unknown delivery failure")
  }

  // Without a response the stored one stays.
  function ResponseAfter(d: Delivery, h: Http): Option<Response> {
    if h.Responded? then Some(h.response) else d.response
  }

  // The record that the completion write stores, if it succeeds.
  function Completed(d: Delivery, c: Conditions): Delivery
    requires c.lookup.Subscribed?
  {
    var m := Marked(d, c);
    if IsSuccess(c.http) then
      m.(status := Succeeded, response := ResponseAfter(d, c.http), updatedAt := c.completedAt)
    else
      var next := NextAttemptAt(m.attemptCount, c.lookup.policy, c.decidedAt);
      m.(status := if next.Some? then Pending else DeadLettered, nextAttemptAt := next,
         response := ResponseAfter(d, c.http), errorMessage := Some(FailureMessage(c.http)), updatedAt := c.completedAt)
  }

  function Orphaned(d: Delivery, c: Conditions): Delivery {
    d.(status := DeadLettered, nextAttemptAt := None, errorMessage := Some("Webhook subscription not found."),
       updatedAt := c.completedAt)
  }

  // Whether the processing sends a request.
  predicate Sends(c: Conditions) {
    c.lookup.Subscribed? && c.markOk
  }

  // Whether it sends one and then fails to record its outcome.
  predicate LosesOutcome(c: Conditions) {
    Sends(c) && !c.completeOk
  }

  // The stored record afterwards.
  function Stored(d: Delivery, c: Conditions): Delivery {
    match c.lookup
    case LookupFailed => d
    case NoSubscription => if c.completeOk then Orphaned(d, c) else d
    case Subscribed(_) =>
      if !c.markOk then d else if !c.completeOk then Marked(d, c) else Completed(d, c)
  }

  function Answer(d: Delivery, c: Conditions): Result<Processed, WorkerError> {
    match c.lookup
    case LookupFailed => Err(LookupError)
    case NoSubscription => if c.completeOk then Ok(Processed(Orphaned(d, c), None)) else Err(WriteError)
    case Subscribed(p) =>
      if !(c.markOk && c.completeOk) then Err(WriteError)
      else Ok(Processed(Completed(d, c),
                        if Completed(d, c).status == DeadLettered && p.Some? then p.value.deadLetterUri else None))
  }

  // ---------------------------------------------------------------- the polling path

  // `listPendingDeliveries` selects this record.
  predicate Listed(d: Delivery, before: int) {
    && (d.status == Pending || d.status == Delivering)
    && (d.nextAttemptAt.Some? ==> d.nextAttemptAt.value <= before)
  }

  datatype Poll = Poll(before: int, conditions: Conditions)

  datatype PollState = PollState(record: Delivery, sends: nat, lost: nat)

  // One poll, as far as one delivery goes.
  function AfterPoll(s: PollState, p: Poll): PollState {
    if !Listed(s.record, p.before) then s
    else
      PollState(Stored(s.record, p.conditions),
                s.sends + if Sends(p.conditions) then 1 else 0,
                s.lost + if LosesOutcome(p.conditions) then 1 else 0)
  }

  function AfterPolls(s: PollState, polls: seq<Poll>): PollState {
    if polls == [] then s else AfterPoll(AfterPolls(s, Front(polls)), Last(polls))
  }

  ghost predicate PolicyAtMost(c: Conditions, m: int) {
    c.lookup.Subscribed? ==> MaxAttempts(c.lookup.policy) <= m
  }

  // Under any HTTP results and failing writes, a fresh delivery is sent at most max(1, maxAttempts)
  // times, and once more for each outcome that could not be recorded; an unfinished one has an
  // attempt left.
  lemma {:induction false} SendsBounded(d: Delivery, polls: seq<Poll>, m: int)
    requires d.status == Pending && d.attemptCount == 0
    requires forall i :: 0 <= i < |polls| ==> PolicyAtMost(polls[i].conditions, m)
    ensures var s := AfterPolls(PollState(d, 0, 0), polls);
            && s.sends == s.record.attemptCount
            && s.sends <= Max(1, m) + s.lost
            && (!Terminal(s.record) ==>
                  s.sends < Max(1, m) + s.lost && (s.record.status == Pending || s.record.status == Delivering))
  {
    if polls != [] {
      assert PolicyAtMost(Last(polls).conditions, m);
      SendsBounded(d, Front(polls), m);
    }
  }

  // The bound is met: all attempts fail, and the outcome of the last one is lost `lost` times.
  lemma {:induction false} BoundMet(d: Delivery, m: nat, lost: nat) returns (polls: seq<Poll>)
    requires d.status == Pending && d.attemptCount == 0 && d.nextAttemptAt == None && m >= 1
    ensures forall i :: 0 <= i < |polls| ==> PolicyAtMost(polls[i].conditions, m)
    ensures var s := AfterPolls(PollState(d, 0, 0), polls);
            s.sends == m + lost && s.lost == lost && s.record.status == DeadLettered
  {
    var policy := Some(RetryPolicy(Some(m), [], None));
    var failing := Conditions(Subscribed(policy), true, Threw(None), true, 0, 0, 0);
    polls := [];
    ghost var s := PollState(d, 0, 0);
    while s.sends < m - 1
      invariant forall i :: 0 <= i < |polls| ==> PolicyAtMost(polls[i].conditions, m)
      invariant s == AfterPolls(PollState(d, 0, 0), polls)
      invariant s.sends == s.record.attemptCount <= m - 1 && s.lost == 0 && s.record.status == Pending
    {
      var poll := Poll(s.record.nextAttemptAt.GetOr(0), failing);
      assert Front(polls + [poll]) == polls;
      polls, s := polls + [poll], AfterPoll(s, poll);
    }
    while s.lost < lost
      invariant forall i :: 0 <= i < |polls| ==> PolicyAtMost(polls[i].conditions, m)
      invariant s == AfterPolls(PollState(d, 0, 0), polls)
      invariant s.sends == s.record.attemptCount == m - 1 + s.lost && s.lost <= lost
      invariant s.record.status == Pending || s.record.status == Delivering
    {
      var poll := Poll(s.record.nextAttemptAt.GetOr(0), failing.(completeOk := false));
      assert Front(polls + [poll]) == polls;
      polls, s := polls + [poll], AfterPoll(s, poll);
    }
    var poll := Poll(s.record.nextAttemptAt.GetOr(0), failing);
    assert Front(polls + [poll]) == polls;
    polls := polls + [poll];
  }

  // When no write fails, a processing ends the delivery or uses up one of its attempts.
  lemma ProcessingProgresses(d: Delivery, c: Conditions, m: int)
    requires !c.lookup.LookupFailed? && c.markOk && c.completeOk && PolicyAtMost(c, m)
    ensures var after := Stored(d, c);
            || Terminal(after)
            || (after.status == Pending && 0 < Max(1, m) - after.attemptCount < Max(1, m) - d.attemptCount)
  {
  }

  // What a processing that goes through stores, in full: a success for the statuses 200 to 299, else
  // a retry below the policy's maximum, else the end.
  lemma OutcomeMeaning(d: Delivery, c: Conditions)
    requires c.lookup.Subscribed? && c.markOk && c.completeOk
    ensures var after := Stored(d, c);
            var reached := c.http.Responded? && 200 <= c.http.response.status < 300;
            var next := NextAttemptAt(d.attemptCount + 1, c.lookup.policy, c.decidedAt);
            && (after.status == Succeeded <==> reached)
            && (after.status == Pending <==> !reached && next.Some?)
            && (after.status == DeadLettered <==> !reached && next.None?)
            && after.nextAttemptAt == (if reached then None else next)
            && after.attemptCount == d.attemptCount + 1 && after.lastAttemptAt == Some(c.startedAt)
            && after.updatedAt == c.completedAt
            && after.response == (if c.http.Responded? then Some(c.http.response) else d.response)
            && (reached ==> after.errorMessage == None)
            && (!reached && c.http.Responded? ==>
                  after.errorMessage == Some("HTTP " + IntText(c.http.response.status)))
            && (!reached && c.http.Threw? ==>
                  after.errorMessage == Some(c.http.error.GetOr("Unknown delivery failure")))
            && after.id == d.id && after.subscriptionId == d.subscriptionId && after.createdAt == d.createdAt
  {
  }

  // A failed lookup or mark changes nothing and sends nothing; a lost completion leaves the delivery
  // marked; without a subscription it ends, unsent.
  lemma FailureMeaning(d: Delivery, c: Conditions)
    ensures c.lookup.LookupFailed? || (c.lookup.Subscribed? && !c.markOk)
            || (c.lookup.NoSubscription? && !c.completeOk) ==>
              Stored(d, c) == d && !Sends(c) && Answer(d, c).Err?
    ensures c.lookup.Subscribed? && c.markOk ==> Sends(c)
    ensures c.lookup.Subscribed? && c.markOk && !c.completeOk ==>
              && Stored(d, c) == d.(status := Delivering, attemptCount := d.attemptCount + 1,
                                    lastAttemptAt := Some(c.startedAt), nextAttemptAt := None, errorMessage := None,
                                    updatedAt := c.startedAt)
              && Answer(d, c).Err?
    ensures c.lookup.NoSubscription? && c.completeOk ==>
              && !Sends(c) && Stored(d, c).status == DeadLettered && Stored(d, c).attemptCount == d.attemptCount
              && Stored(d, c).errorMessage == Some("Webhook subscription not found.") && Answer(d, c).Ok?
  {
  }

  // A delivery that is given up is answered with the dead-letter address of its policy, if that has one.
  lemma DeadLetterUriMeaning(d: Delivery, c: Conditions)
    requires Answer(d, c).Ok?
    ensures var p, after := Answer(d, c).value, Stored(d, c);
            && p.record == after
            && p.deadLetterUri ==
               if c.lookup.Subscribed? && after.status == DeadLettered && c.lookup.policy.Some?
               then c.lookup.policy.value.deadLetterUri else None
  {
  }

  lemma {:induction false} NatTextMeaning(n: nat)
    ensures |NatText(n)| >= 1 && (n < 10 ==> NatText(n) == [(48 + n) as char])
    ensures n >= 10 ==> NatText(n) == NatText(n / 10) + NatText(n % 10)
  {
    if n >= 10 {
      NatTextMeaning(n / 10);
    }
  }

  // The polling path never touches a finished delivery again.
  lemma {:induction false} FinishedStaysFinished(s: PollState, polls: seq<Poll>)
    requires Terminal(s.record)
    ensures AfterPolls(s, polls) == s
  {
    if polls != [] {
      FinishedStaysFinished(s, Front(polls));
    }
  }

  // -------------------------------------------------------------------- the store

  // A field of a patch that is None stays as it is.
  datatype Patch = Patch(
    status: Option<Status>, attemptCount: Option<int>, lastAttemptAt: Option<Option<int>>,
    nextAttemptAt: Option<Option<int>>, response: Option<Option<Response>>,
    errorMessage: Option<Option<string>>, updatedAt: int)

  function Patched(d: Delivery, p: Patch): Delivery {
    d.(status := p.status.GetOr(d.status), attemptCount := p.attemptCount.GetOr(d.attemptCount),
       lastAttemptAt := p.lastAttemptAt.GetOr(d.lastAttemptAt),
       nextAttemptAt := p.nextAttemptAt.GetOr(d.nextAttemptAt),
       response := p.response.GetOr(d.response), errorMessage := p.errorMessage.GetOr(d.errorMessage),
       updatedAt := p.updatedAt)
  }

  // ORDER BY next_attempt_at NULLS FIRST, created_at; ties in the order of the ids.
  // A patch changes the fields it gives, and the time of the change.
  lemma PatchMeaning(d: Delivery, p: Patch)
    ensures var after := Patched(d, p);
            && after.id == d.id && after.subscriptionId == d.subscriptionId && after.createdAt == d.createdAt
            && after.updatedAt == p.updatedAt
            && after.status == (if p.status.Some? then p.status.value else d.status)
            && after.attemptCount == (if p.attemptCount.Some? then p.attemptCount.value else d.attemptCount)
            && after.lastAttemptAt == (if p.lastAttemptAt.Some? then p.lastAttemptAt.value else d.lastAttemptAt)
            && after.nextAttemptAt == (if p.nextAttemptAt.Some? then p.nextAttemptAt.value else d.nextAttemptAt)
            && after.response == (if p.response.Some? then p.response.value else d.response)
            && after.errorMessage == (if p.errorMessage.Some? then p.errorMessage.value else d.errorMessage)
  {
  }

  function DeliveryLess(a: Delivery, b: Delivery): bool {
    if a.nextAttemptAt != b.nextAttemptAt then
      b.nextAttemptAt.Some? && (a.nextAttemptAt.Some? ==> a.nextAttemptAt.value < b.nextAttemptAt.value)
    else a.createdAt < b.createdAt || (a.createdAt == b.createdAt && StringLess(a.id, b.id))
  }

  lemma DeliveryOrder()
    ensures StrictOrder(DeliveryLess)
    ensures forall a: Delivery, b: Delivery :: a.id != b.id ==> DeliveryLess(a, b) || DeliveryLess(b, a)
  {
    StringOrder();
  }

  ghost predicate KeyedById(rows: map<string, Delivery>) {
    forall id :: id in rows ==> rows[id].id == id
  }

  function Due(rows: map<string, Delivery>, before: int): set<Delivery> {
    set id | id in rows && Listed(rows[id], before) :: rows[id]
  }

  function Take<T>(s: seq<T>, limit: nat): seq<T> {
    if 0 < limit < |s| then s[..limit] else s
  }

  // The rows due, in order, up to the limit; a limit of 0 is none.
  ghost function PendingRows(rows: map<string, Delivery>, before: int, limit: nat): seq<Delivery>
    requires KeyedById(rows)
  {
    DeliveryOrder();
    Take(Listing(DeliveryLess, Due(rows, before)), limit)
  }

  lemma PendingRowsMeaning(rows: map<string, Delivery>, before: int, limit: nat)
    requires KeyedById(rows)
    ensures var listed := PendingRows(rows, before, limit);
            AsStored(listed, rows) && forall d :: d in listed ==> Listed(d, before)
  {
    DeliveryOrder();
    var sorted := Listing(DeliveryLess, Due(rows, before));
    forall d | d in sorted ensures d.id in rows && rows[d.id] == d && Listed(d, before) {
      assert d in Elements(sorted);
    }
    forall i, j | 0 <= i < j < |sorted| ensures sorted[i].id != sorted[j].id {
      assert DeliveryLess(sorted[i], sorted[j]);
      assert sorted[i] in sorted && sorted[j] in sorted;
    }
  }

  // A poll takes up the deliveries that are pending or under delivery and whose next attempt, if it
  // has a time, has come; those without a time first, then by time, then by creation. If the limit
  // leaves some out, they come after the ones taken.
  lemma DueMeaning(rows: map<string, Delivery>, before: int, limit: nat, d: Delivery)
    requires KeyedById(rows) && d.id in rows && rows[d.id] == d
    ensures var listed := PendingRows(rows, before, limit);
            var due := (d.status == Pending || d.status == Delivering)
                       && (d.nextAttemptAt.None? || d.nextAttemptAt.value <= before);
            && (d in listed ==> due)
            && (limit > 0 ==> |listed| <= limit)
            && (due && d !in listed ==> limit > 0 && |listed| == limit && forall e :: e in listed ==> !Sooner(d, e))
  {
    DeliveryOrder();
    var sorted := Listing(DeliveryLess, Due(rows, before));
    var listed := PendingRows(rows, before, limit);
    assert d in sorted <==> d in Elements(sorted);
    assert d in listed ==> d in sorted;
    if d in sorted && d !in listed {
      var k :| 0 <= k < |sorted| && sorted[k] == d;
      assert k >= limit > 0;
      forall e | e in listed ensures !Sooner(d, e) {
        var i :| 0 <= i < |listed| && listed[i] == e;
        assert sorted[i] == e && DeliveryLess(e, d);
      }
    }
  }

  // The first is due before the second, or created before it when they are due together.
  predicate Sooner(a: Delivery, b: Delivery) {
    if a.nextAttemptAt == b.nextAttemptAt then a.createdAt < b.createdAt
    else a.nextAttemptAt.None? || (b.nextAttemptAt.Some? && a.nextAttemptAt.value < b.nextAttemptAt.value)
  }

  // And within a poll, none comes after a later one.
  lemma DueOrder(rows: map<string, Delivery>, before: int, limit: nat, i: nat, j: nat)
    requires KeyedById(rows) && i < j < |PendingRows(rows, before, limit)|
    ensures !Sooner(PendingRows(rows, before, limit)[j], PendingRows(rows, before, limit)[i])
  {
    DeliveryOrder();
    var sorted := Listing(DeliveryLess, Due(rows, before));
    assert DeliveryLess(sorted[i], sorted[j]);
  }

  class DeliveryStore {
    var rows: map<string, Delivery>

    ghost predicate Valid()
      reads this
    {
      KeyedById(rows)
    }

    constructor (rows: map<string, Delivery>)
      requires KeyedById(rows)
      ensures Valid() && this.rows == rows
    {
      this.rows := rows;
    }

    method UpdateDelivery(id: string, patch: Patch, writeOk: bool) returns (r: Result<Delivery, WorkerError>)
      requires Valid()
      modifies this
      ensures Valid()
      ensures r.Ok? <==> writeOk && id in old(rows)
      ensures r.Ok? ==> r.value == Patched(old(rows)[id], patch) && rows == old(rows)[id := r.value]
      ensures r.Err? ==> rows == old(rows) && r.error == WriteError
    {
      if !writeOk || id !in rows {
        return Err(WriteError);
      }
      rows := rows[id := Patched(rows[id], patch)];
      return Ok(rows[id]);
    }

    method ListPending(before: int, limit: nat) returns (listed: seq<Delivery>)
      requires Valid()
      ensures listed == PendingRows(rows, before, limit)
    {
      DeliveryOrder();
      var sorted := SortRows(DeliveryLess, Due(rows, before));
      listed := Take(sorted, limit);
    }
  }

  // ------------------------------------------------------------------- the worker

  datatype Summary = Summary(total: nat, succeeded: nat, retried: nat, deadLettered: nat)

  class DeliveryWorker {
    const store: DeliveryStore
    // The requests sent, by delivery.
    var sent: seq<string>

    constructor (store: DeliveryStore)
      ensures this.store == store && sent == []
    {
      this.store, sent := store, [];
    }

    // `processDeliveryRecord`, for a record as it is stored.
    method ProcessDeliveryRecord(d: Delivery, c: Conditions) returns (r: Result<Processed, WorkerError>)
      requires store.Valid() && d.id in store.rows && store.rows[d.id] == d
      modifies this, store
      ensures store.Valid()
      ensures store.rows == old(store.rows)[d.id := Stored(d, c)]
      ensures r == Answer(d, c)
      ensures sent == old(sent) + if Sends(c) then [d.id] else []
    {
      match c.lookup
      case LookupFailed =>
        return Err(LookupError);
      case NoSubscription =>
        var updated := store.UpdateDelivery(
          d.id, Patch(Some(DeadLettered), None, None, Some(None), None, Some(Some("Webhook subscription not found.")),
                      c.completedAt), c.completeOk);
        if updated.Err? {
          return Err(updated.error);
        }
        return Ok(Processed(updated.value, None));
      case Subscribed(policy) =>
        r := AttemptDelivery(d, policy, c);
    }

    method AttemptDelivery(d: Delivery, policy: Option<RetryPolicy>, c: Conditions)
      returns (r: Result<Processed, WorkerError>)
      requires store.Valid() && d.id in store.rows && store.rows[d.id] == d && c.lookup == Subscribed(policy)
      modifies this, store
      ensures store.Valid()
      ensures store.rows == old(store.rows)[d.id := Stored(d, c)]
      ensures r == Answer(d, c)
      ensures sent == old(sent) + if Sends(c) then [d.id] else []
    {
      var attemptNumber := d.attemptCount + 1;
      var marked := store.UpdateDelivery(
        d.id, Patch(Some(Delivering), Some(attemptNumber), Some(Some(c.startedAt)), Some(None), None, Some(None),
                    c.startedAt), c.markOk);
      if marked.Err? {
        return Err(marked.error);
      }
      sent := sent + [d.id];
      if IsSuccess(c.http) {
        var updated := store.UpdateDelivery(
          d.id, Patch(Some(Succeeded), Some(attemptNumber), None, Some(None), Some(Some(c.http.response)), Some(None),
                      c.completedAt), c.completeOk);
        if updated.Err? {
          return Err(updated.error);
        }
        return Ok(Processed(updated.value, None));
      }
      r := HandleFailure(d, attemptNumber, policy, c);
    }

    method HandleFailure(d: Delivery, attemptNumber: int, policy: Option<RetryPolicy>, c: Conditions)
      returns (r: Result<Processed, WorkerError>)
      requires store.Valid() && d.id in store.rows && store.rows[d.id] == Marked(d, c)
      requires c.lookup == Subscribed(policy) && c.markOk && !IsSuccess(c.http) && attemptNumber == d.attemptCount + 1
      modifies store
      ensures store.Valid()
      ensures store.rows == old(store.rows)[d.id := Stored(d, c)]
      ensures r == Answer(d, c)
    {
      var next := NextAttemptAt(attemptNumber, policy, c.decidedAt);
      var updated := store.UpdateDelivery(
        d.id, Patch(Some(if next.Some? then Pending else DeadLettered), Some(attemptNumber), None, Some(next),
                    if c.http.Responded? then Some(Some(c.http.response)) else None,
                    Some(Some(FailureMessage(c.http))), c.completedAt), c.completeOk);
      if updated.Err? {
        return Err(updated.error);
      }
      return Ok(Processed(updated.value,
                          if next.None? && policy.Some? then policy.value.deadLetterUri else None));
    }

    // One pass of the poller. `conditions` says what happens to each delivery.
    method RunOnce(before: int, limit: nat, listOk: bool, conditions: string -> Conditions)
      returns (r: Result<Summary, WorkerError>)
      requires store.Valid()
      modifies this, store
      ensures store.Valid()
      ensures var listed := if listOk then PendingRows(old(store.rows), before, limit) else [];
              var p := Pass(old(store.rows), listed, conditions);
              && store.rows == p.rows && sent == old(sent) + p.sent
              && r == if !listOk then Err(ListError) else if p.error.Some? then Err(p.error.value) else Ok(p.summary)
    {
      if !listOk {
        return Err(ListError);
      }
      var pending := store.ListPending(before, limit);
      PendingRowsMeaning(store.rows, before, limit);
      r := ProcessAll(pending, conditions);
    }

    // One delivery of a pass that has come to `p`.
    method ProcessNext(d: Delivery, c: Conditions, ghost p: Passed, ghost before: seq<string>)
      returns (r: Result<Processed, WorkerError>)
      requires store.Valid() && d.id in store.rows && store.rows[d.id] == d
      requires store.rows == p.rows && sent == before + p.sent && p.error.None?
      modifies this, store
      ensures store.Valid()
      ensures var q := AfterOne(p, d, c);
              && store.rows == q.rows && sent == before + q.sent
              && (if r.Err? then q.error == Some(r.error)
                  else q.error.None? && q.summary == Counted(p.summary, r.value.record.status))
      ensures r.Ok? ==> r.value.record.status in {Succeeded, Pending, DeadLettered}
    {
      r := ProcessDeliveryRecord(d, c);
      if r.Ok? {
        AnswerSettles(d, c);
      }
    }

    // The loop over the listed deliveries, which stops at the first error.
    method ProcessAll(pending: seq<Delivery>, conditions: string -> Conditions)
      returns (r: Result<Summary, WorkerError>)
      requires store.Valid() && AsStored(pending, store.rows)
      modifies this, store
      ensures store.Valid()
      ensures var p := Pass(old(store.rows), pending, conditions);
              && store.rows == p.rows && sent == old(sent) + p.sent
              && r == if p.error.Some? then Err(p.error.value) else Ok(p.summary)
    {
      var succeeded, retried, deadLettered := 0, 0, 0;
      for i := 0 to |pending|
        invariant store.Valid()
        invariant var p := Pass(old(store.rows), pending[..i], conditions);
                  && store.rows == p.rows && sent == old(sent) + p.sent && p.error.None?
                  && p.summary == Summary(i, succeeded, retried, deadLettered)
      {
        ghost var p := Pass(old(store.rows), pending[..i], conditions);
        NotYetTouched(old(store.rows), pending, i, conditions);
        var processed := ProcessNext(pending[i], conditions(pending[i].id), p, old(sent));
        PassNext(old(store.rows), pending, i, conditions);
        if processed.Err? {
          StopsThere(old(store.rows), pending, i + 1, conditions);
          return Err(processed.error);
        }
        match processed.value.record.status
        case Succeeded => succeeded := succeeded + 1;
        case Pending => retried := retried + 1;
        case DeadLettered => deadLettered := deadLettered + 1;
        case _ =>
      }
      assert pending[..|pending|] == pending;
      return Ok(Summary(|pending|, succeeded, retried, deadLettered));
    }
  }

  // ------------------------------------------------------------------ what a pass does

  datatype Passed = Passed(rows: map<string, Delivery>, sent: seq<string>, summary: Summary, error: Option<WorkerError>)

  // The listed deliveries processed in order, up to the first error.
  function Pass(rows: map<string, Delivery>, listed: seq<Delivery>, conditions: string -> Conditions): Passed {
    if listed == [] then Passed(rows, [], Summary(0, 0, 0, 0), None)
    else
      var p := Pass(rows, Front(listed), conditions);
      if p.error.Some? then p else AfterOne(p, Last(listed), conditions(Last(listed).id))
  }

  function AfterOne(p: Passed, d: Delivery, c: Conditions): Passed {
    var answer := Answer(d, c);
    Passed(p.rows[d.id := Stored(d, c)],
           p.sent + if Sends(c) then [d.id] else [],
           if answer.Ok? then Counted(p.summary, answer.value.record.status) else p.summary,
           if answer.Err? then Some(answer.error) else None)
  }

  function Counted(s: Summary, status: Status): Summary {
    var t := s.(total := s.total + 1);
    match status
    case Succeeded => t.(succeeded := s.succeeded + 1)
    case Pending => t.(retried := s.retried + 1)
    case DeadLettered => t.(deadLettered := s.deadLettered + 1)
    case _ => t
  }

  lemma PassNext(rows: map<string, Delivery>, listed: seq<Delivery>, i: nat, conditions: string -> Conditions)
    requires i < |listed| && Pass(rows, listed[..i], conditions).error.None?
    ensures Pass(rows, listed[..i + 1], conditions) ==
            AfterOne(Pass(rows, listed[..i], conditions), listed[i], conditions(listed[i].id))
  {
    assert Front(listed[..i + 1]) == listed[..i];
  }

  // Listed once each, as they are stored.
  ghost predicate AsStored(listed: seq<Delivery>, rows: map<string, Delivery>) {
    && (forall i, j :: 0 <= i < j < |listed| ==> listed[i].id != listed[j].id)
    && (forall d :: d in listed ==> d.id in rows && rows[d.id] == d)
  }

  // Deliveries that are not listed are as before.
  ghost predicate Elsewhere(listed: seq<Delivery>, before: map<string, Delivery>, after: map<string, Delivery>) {
    && before.Keys == after.Keys
    && forall id :: id in before && (forall d :: d in listed ==> d.id != id) ==> after[id] == before[id]
  }

  // A delivery is finished, or pending for a time after its processing.
  predicate Settled(d: Delivery, decidedAt: int) {
    Terminal(d) || (d.status == Pending && d.nextAttemptAt.Some? && d.nextAttemptAt.value > decidedAt)
  }

  ghost predicate AllSettled(listed: seq<Delivery>, rows: map<string, Delivery>, conditions: string -> Conditions) {
    forall d :: d in listed ==>
      d.id in rows && rows[d.id] == Stored(d, conditions(d.id)) && Settled(rows[d.id], conditions(d.id).decidedAt)
  }

  // How many of the listed deliveries are left with the status.
  function Tally(listed: seq<Delivery>, conditions: string -> Conditions, status: Status): nat {
    if listed == [] then 0
    else
      Tally(Front(listed), conditions, status) +
      if Stored(Last(listed), conditions(Last(listed).id)).status == status then 1 else 0
  }

  lemma {:induction false} StopsThere(rows: map<string, Delivery>, listed: seq<Delivery>, i: nat,
                                      conditions: string -> Conditions)
    requires i <= |listed| && Pass(rows, listed[..i], conditions).error.Some?
    ensures Pass(rows, listed, conditions) == Pass(rows, listed[..i], conditions)
    decreases |listed|
  {
    if i < |listed| {
      assert Front(listed)[..i] == listed[..i];
      StopsThere(rows, Front(listed), i, conditions);
    } else {
      assert listed[..i] == listed;
    }
  }

  lemma FrontAsStored(listed: seq<Delivery>, rows: map<string, Delivery>)
    requires listed != [] && AsStored(listed, rows)
    ensures AsStored(Front(listed), rows) && forall d :: d in Front(listed) ==> d.id != Last(listed).id
  {
    assert listed == Front(listed) + [Last(listed)];
  }

  lemma OneMoreElsewhere(front: seq<Delivery>, d: Delivery, before: map<string, Delivery>, rows: map<string, Delivery>,
                         after: map<string, Delivery>)
    requires Elsewhere(front, before, rows) && d.id in before
    requires after.Keys == rows.Keys && forall id :: id in rows && id != d.id ==> after[id] == rows[id]
    ensures Elsewhere(front + [d], before, after)
  {
    assert d in front + [d] && forall e :: e in front ==> e in front + [d];
  }

  // A pass leaves deliveries that are not listed as they were.
  lemma {:induction false} PassElsewhere(rows: map<string, Delivery>, listed: seq<Delivery>,
                                         conditions: string -> Conditions)
    requires AsStored(listed, rows)
    ensures Elsewhere(listed, rows, Pass(rows, listed, conditions).rows)
  {
    if listed != [] {
      FrontAsStored(listed, rows);
      PassElsewhere(rows, Front(listed), conditions);
      assert listed == Front(listed) + [Last(listed)];
      OneMoreElsewhere(Front(listed), Last(listed), rows, Pass(rows, Front(listed), conditions).rows,
                       Pass(rows, listed, conditions).rows);
    }
  }

  lemma NotYetTouched(rows: map<string, Delivery>, listed: seq<Delivery>, i: nat, conditions: string -> Conditions)
    requires AsStored(listed, rows) && i < |listed|
    ensures var after := Pass(rows, listed[..i], conditions).rows;
            listed[i].id in after && after[listed[i].id] == listed[i]
  {
    assert listed[i] in listed;
    assert forall d :: d in listed[..i] ==> d in listed && d.id != listed[i].id;
    PassElsewhere(rows, listed[..i], conditions);
  }

  // A pass fails exactly when the processing of a listed delivery fails.
  lemma {:induction false} PassFails(rows: map<string, Delivery>, listed: seq<Delivery>,
                                     conditions: string -> Conditions)
    ensures Pass(rows, listed, conditions).error.Some? <==>
            exists d :: d in listed && Answer(d, conditions(d.id)).Err?
  {
    if listed != [] {
      PassFails(rows, Front(listed), conditions);
      assert listed == Front(listed) + [Last(listed)];
    }
  }

  lemma AnswerSettles(d: Delivery, c: Conditions)
    requires Answer(d, c).Ok?
    ensures Answer(d, c).value.record == Stored(d, c) && Settled(Stored(d, c), c.decidedAt)
    ensures Stored(d, c).status in {Succeeded, Pending, DeadLettered}
  {
  }

  // When none fails, every listed delivery is finished or pending for later.
  lemma {:induction false} PassSettles(rows: map<string, Delivery>, listed: seq<Delivery>,
                                       conditions: string -> Conditions)
    requires AsStored(listed, rows) && Pass(rows, listed, conditions).error.None?
    ensures AllSettled(listed, Pass(rows, listed, conditions).rows, conditions)
  {
    if listed != [] {
      FrontAsStored(listed, rows);
      PassSettles(rows, Front(listed), conditions);
      AnswerSettles(Last(listed), conditions(Last(listed).id));
      OneMoreSettled(Front(listed), Last(listed), Pass(rows, Front(listed), conditions).rows, conditions);
      assert listed == Front(listed) + [Last(listed)];
    }
  }

  lemma OneMoreSettled(front: seq<Delivery>, d: Delivery, rows: map<string, Delivery>, conditions: string -> Conditions)
    requires AllSettled(front, rows, conditions) && forall e :: e in front ==> e.id != d.id
    requires Settled(Stored(d, conditions(d.id)), conditions(d.id).decidedAt)
    ensures AllSettled(front + [d], rows[d.id := Stored(d, conditions(d.id))], conditions)
  {
  }

  // And the counts are those of the listed deliveries left in each state, which is all of them.
  lemma {:induction false} PassCounts(rows: map<string, Delivery>, listed: seq<Delivery>,
                                      conditions: string -> Conditions)
    requires Pass(rows, listed, conditions).error.None?
    ensures var s := Pass(rows, listed, conditions).summary;
            && s.total == |listed| == s.succeeded + s.retried + s.deadLettered
            && s.succeeded == Tally(listed, conditions, Succeeded)
            && s.retried == Tally(listed, conditions, Pending)
            && s.deadLettered == Tally(listed, conditions, DeadLettered)
  {
    if listed != [] {
      PassCounts(rows, Front(listed), conditions);
      AnswerSettles(Last(listed), conditions(Last(listed).id));
    }
  }
}
