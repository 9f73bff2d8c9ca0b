/**
 * What accepted requests come to in the store, in terms of the entries they name: the request body, the
 * queue and the bulk write path put together.
 */
module BulkRequests {
  import opened Wrappers
  import opened Reporting
  import opened ReportingInvariants
  import opened AttendanceQueue

  datatype BulkRequest = BulkRequest(event: string, raws: seq<RawItem>, batchId: string, permissions: seq<string>)

  /** The batch is what the request was accepted as. */
  ghost predicate IsFrom(b: Batch, q: BulkRequest) {
    BulkSubmit(q.event, q.raws, q.batchId, q.permissions) == Success(b)
  }

  ghost predicate Names(q: BulkRequest, attendee: string) {
    exists k :: 0 <= k < |q.raws| && q.raws[k].attendeeRef == attendee
  }

  ghost predicate NamesEachOnce(q: BulkRequest) {
    forall i, j :: 0 <= i < j < |q.raws| ==> q.raws[i].attendeeRef != q.raws[j].attendeeRef
  }

  lemma FromEntries(b: Batch, q: BulkRequest)
    requires IsFrom(b, q)
    ensures |b.items| == |q.raws| && InScope(b)
    ensures forall k :: 0 <= k < |q.raws| ==> Records(b.items[k], q.event, q.raws[k])
  {
    AcceptedBatchesAreInScope(q.event, q.raws, q.batchId, q.permissions);
  }

  /** A persisted request has stored an attendance at its event for every entry, under the entry's attendee. */
  lemma PersistedRequestIsStored(s: Store, b: Batch, q: BulkRequest, k: nat)
    requires Sound(s) && IsFrom(b, q) && Persisted(s, b) && k < |q.raws|
    ensures Times(s.rows, q.event, q.raws[k].attendeeRef) > 0
  {
    FromEntries(b, q);
    assert b.items[k] in b.items;
    TimesMeaning(s.rows, q.event, q.raws[k].attendeeRef);
  }

  lemma NamingOnceIsDistinct(b: Batch, q: BulkRequest)
    requires IsFrom(b, q) && NamesEachOnce(q)
    ensures DistinctAttendees(b.items)
  {
    FromEntries(b, q);
  }

  /** Every batch accepted in the run came from a request that names nobody twice. */
  ghost predicate FromRequests(steps: seq<QueueStep>) {
    forall j :: 0 <= j < |steps| && steps[j].Accept? ==> exists q :: IsFrom(steps[j].batch, q) && NamesEachOnce(q)
  }

  /**
   * However requests, failures, crashes and redeliveries interleave, no attendee is stored twice at an
   * event, whatever request ids the entries carry, as long as no single request names somebody twice.
   */
  lemma NobodyIsStoredTwice(states: seq<System>, steps: seq<QueueStep>, k: nat, event: string, attendee: string)
    requires IsRun(states, steps) && states[0] == EMPTY_SYSTEM && k < |states| && FromRequests(steps)
    ensures Times(states[k].store.rows, event, attendee) <= 1
  {
    forall j | 0 <= j < |steps| && steps[j].Accept? ensures DistinctAttendees(steps[j].batch.items) {
      var q :| IsFrom(steps[j].batch, q) && NamesEachOnce(q);
      NamingOnceIsDistinct(steps[j].batch, q);
    }
    NeverCountedTwice(states, steps, k);
    DistinctMeansOnce(states[k].store.rows, event, attendee);
  }

  /**
   * Two accepted requests for one event that name the same attendee, under whatever request ids, leave
   * exactly one row for them once either is persisted.
   */
  lemma TwoRequestsLeaveOneRow(states: seq<System>, steps: seq<QueueStep>, k: nat, first: Batch, second: Batch,
                               q: BulkRequest, r: BulkRequest, attendee: string)
    requires IsRun(states, steps) && states[0] == EMPTY_SYSTEM && k < |states| && FromRequests(steps)
    requires IsFrom(first, q) && IsFrom(second, r) && q.event == r.event && Names(q, attendee) && Names(r, attendee)
    requires Persisted(states[k].store, first) || Persisted(states[k].store, second)
    ensures Times(states[k].store.rows, q.event, attendee) == 1
  {
    EveryRunIsSafe(states, steps, k);
    NobodyIsStoredTwice(states, steps, k, q.event, attendee);
    var i :| 0 <= i < |q.raws| && q.raws[i].attendeeRef == attendee;
    var j :| 0 <= j < |r.raws| && r.raws[j].attendeeRef == attendee;
    if Persisted(states[k].store, first) {
      PersistedRequestIsStored(states[k].store, first, q, i);
    } else {
      PersistedRequestIsStored(states[k].store, second, r, j);
    }
  }

  /** Once the queue is empty, each entry of an accepted request is stored, or its request is dead-lettered. */
  lemma DrainedRequestIsStored(states: seq<System>, steps: seq<QueueStep>, k: nat, b: Batch, q: BulkRequest,
                               attendee: string)
    requires IsRun(states, steps) && states[0] == EMPTY_SYSTEM && k < |states| && FromRequests(steps)
    requires states[k].jobs == [] && b in states[k].accepted && IsFrom(b, q) && Names(q, attendee)
    ensures DeadLettered(states[k].dead, b) || Times(states[k].store.rows, q.event, attendee) == 1
  {
    DrainedMeansSettled(states, steps, k, b);
    if !DeadLettered(states[k].dead, b) { TwoRequestsLeaveOneRow(states, steps, k, b, b, q, q, attendee); }
  }

  // ---- nothing else is stored ------------------------------------------------------

  ghost predicate InSomeBatch(accepted: seq<Batch>, i: Item) {
    exists b :: b in accepted && i in b.items
  }

  /** Every queued copy is of an accepted batch, and every row is an item of one. */
  ghost predicate Traceable(sys: System) {
    && (forall j :: 0 <= j < |sys.jobs| ==> sys.jobs[j].batch in sys.accepted)
    && (forall i :: i in sys.store.rows ==> InSomeBatch(sys.accepted, i))
  }

  lemma AfterAddsItems(s: Store, b: Batch, reached: Reached, i: Item)
    requires i in After(s, b, reached).rows
    ensures i in s.rows || i in b.items
  {
    NewItemsMeaning(s, b.items);
  }

  lemma SettleKeepsJobs(sys: System, i: nat, result: AttemptResult)
    requires i < |sys.jobs| && sys.jobs[i].running.Some?
    requires forall j :: 0 <= j < |sys.jobs| ==> sys.jobs[j].batch in sys.accepted
    ensures var sys' := Settle(sys, i, result);
            && (forall j :: 0 <= j < |sys'.jobs| ==> sys'.jobs[j].batch in sys'.accepted)
            && sys'.accepted == sys.accepted && sys'.store == sys.store
  {
    WithoutMembers(sys.jobs, i);
    assert sys.jobs[i].batch in sys.accepted;
  }

  lemma StepKeepsTrace(sys: System, step: QueueStep)
    requires Traceable(sys) && Enabled(sys, step)
    ensures Traceable(Next(sys, step))
  {
    match step {
      case Accept(b) =>
        forall i | i in sys.store.rows ensures InSomeBatch(sys.accepted + [b], i) {
          var c :| c in sys.accepted && i in c.items;
          assert c in sys.accepted + [b];
        }
      case Start(i) =>
      case Crash(i) =>
      case Redeliver(i) =>
      case Attempt(i, result) =>
        var b := sys.jobs[i].batch;
        var s := After(sys.store, b, ReachedBy(result));
        SettleKeepsJobs(sys.(store := s), i, result);
        forall r | r in s.rows ensures InSomeBatch(sys.accepted, r) {
          AfterAddsItems(sys.store, b, ReachedBy(result), r);
        }
    }
  }

  lemma {:induction false} EveryRunIsTraceable(states: seq<System>, steps: seq<QueueStep>, k: nat)
    requires IsRun(states, steps) && states[0] == EMPTY_SYSTEM && k < |states|
    ensures Traceable(states[k])
  {
    if k > 0 {
      EveryRunIsTraceable(states, steps, k - 1);
      assert TakesStep(states, steps, k - 1);
      StepKeepsTrace(states[k - 1], steps[k - 1]);
    }
  }

  lemma {:induction false} AcceptedWereSubmitted(states: seq<System>, steps: seq<QueueStep>, k: nat, b: Batch)
    requires IsRun(states, steps) && states[0] == EMPTY_SYSTEM && k < |states| && b in states[k].accepted
    ensures exists j :: 0 <= j < |steps| && steps[j] == Accept(b)
  {
    assert TakesStep(states, steps, k - 1);
    if b in states[k - 1].accepted { AcceptedWereSubmitted(states, steps, k - 1, b); }
  }

  /** Whoever is stored at an event was named, for that event, by an accepted request. */
  lemma StoredWereNamed(states: seq<System>, steps: seq<QueueStep>, k: nat, event: string, attendee: string)
    returns (b: Batch, q: BulkRequest)
    requires IsRun(states, steps) && states[0] == EMPTY_SYSTEM && k < |states| && FromRequests(steps)
    requires Times(states[k].store.rows, event, attendee) > 0
    ensures b in states[k].accepted && IsFrom(b, q) && q.event == event && Names(q, attendee)
  {
    EveryRunIsTraceable(states, steps, k);
    TimesMeaning(states[k].store.rows, event, attendee);
    var i :| i in states[k].store.rows && i.event == event && i.attendeeRef == attendee;
    assert InSomeBatch(states[k].accepted, i);
    b :| b in states[k].accepted && i in b.items;
    AcceptedWereSubmitted(states, steps, k, b);
    var j :| 0 <= j < |steps| && steps[j] == Accept(b);
    q :| IsFrom(steps[j].batch, q) && NamesEachOnce(q);
    FromEntries(b, q);
    var n :| 0 <= n < |b.items| && b.items[n] == i;
    assert q.raws[n].attendeeRef == attendee;
  }
}
