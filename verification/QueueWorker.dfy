/** One run of the background job of `attendance.py`, as the worker executes it. */
module QueueWorker {
  import opened Wrappers
  import opened Reporting
  import opened ReportingInvariants
  import opened AttendanceQueue

  // ---- what one job run does, as protocol steps ------------------------------------

  /** The in-place attempts of a running job from attempt `t` on; `results[k]` is how attempt `k` ends. */
  function RunAttempts(sys: System, i: nat, t: nat, results: seq<AttemptResult>): System
    requires |results| == 10 && t < |results|
    requires i < |sys.jobs| && sys.jobs[i].running == Some(t)
    decreases |results| - t
  {
    var sys' := Next(sys, Attempt(i, results[t]));
    if results[t].RaisedTransient? && t + 1 < BULK_ATTENDANCE_IN_PLACE_ATTEMPTS
    then RunAttempts(sys', i, t + 1, results) else sys'
  }

  function RunJob(sys: System, i: nat, results: seq<AttemptResult>): System
    requires |results| == 10 && i < |sys.jobs| && sys.jobs[i].running.None?
  {
    RunAttempts(Next(sys, Start(i)), i, 0, results)
  }

  /** The store after the in-place attempts from `t` on, and whether one of them returned. */
  function Attempts(s: Store, b: Batch, t: nat, results: seq<AttemptResult>): (Store, bool)
    requires t <= |results|
    decreases |results| - t
  {
    if t == |results| then (s, false)
    else
      var s' := After(s, b, ReachedBy(results[t]));
      match results[t]
      case Returned => (s', true)
      case RaisedOther(_) => (s', false)
      case RaisedTransient(_) => Attempts(s', b, t + 1, results)
  }

  lemma RestartedJobLeavesAlike(sys: System, i: nat, job: Job)
    requires i < |sys.jobs| && job.batch == sys.jobs[i].batch && job.attempt == sys.jobs[i].attempt
    ensures Without(sys.jobs[i := job], i) == Without(sys.jobs, i)
    ensures DeadletterOrRetry(sys.(jobs := sys.jobs[i := job]), i) == DeadletterOrRetry(sys, i)
  {
  }

  /** The attempts decide what becomes of the job: done, or re-enqueued or dead-lettered. */
  lemma {:induction false} AttemptsDecide(sys: System, i: nat, t: nat, results: seq<AttemptResult>)
    requires |results| == 10 && t < |results|
    requires i < |sys.jobs| && sys.jobs[i].running == Some(t)
    ensures var (s, done) := Attempts(sys.store, sys.jobs[i].batch, t, results);
            RunAttempts(sys, i, t, results) ==
            if done then sys.(store := s, jobs := Without(sys.jobs, i)) else DeadletterOrRetry(sys.(store := s), i)
    decreases |results| - t
  {
    if results[t].RaisedTransient? && t + 1 < BULK_ATTENDANCE_IN_PLACE_ATTEMPTS {
      var job := sys.jobs[i].(running := Some(t + 1));
      var sys' := Next(sys, Attempt(i, results[t]));
      var (s, done) := Attempts(sys'.store, job.batch, t + 1, results);
      AttemptsDecide(sys', i, t + 1, results);
      RestartedJobLeavesAlike(sys.(store := s), i, job);
    }
  }

  lemma {:induction false} AttemptsAreSteps(sys: System, i: nat, t: nat, results: seq<AttemptResult>)
    returns (states: seq<System>, steps: seq<QueueStep>)
    requires |results| == 10 && t < |results|
    requires i < |sys.jobs| && sys.jobs[i].running == Some(t)
    ensures IsRun(states, steps) && states[0] == sys && states[|steps|] == RunAttempts(sys, i, t, results)
    ensures forall k :: 0 <= k < |steps| ==> WorkerStep(steps[k])
    decreases |results| - t
  {
    var step := Attempt(i, results[t]);
    var sys' := Next(sys, step);
    if results[t].RaisedTransient? && t + 1 < BULK_ATTENDANCE_IN_PLACE_ATTEMPTS {
      var states', steps' := AttemptsAreSteps(sys', i, t + 1, results);
      states, steps := Prefixed(sys, step, states', steps');
    } else {
      states, steps := [sys, sys'], [step];
    }
  }

  lemma Prefixed(sys: System, step: QueueStep, states': seq<System>, steps': seq<QueueStep>)
    returns (states: seq<System>, steps: seq<QueueStep>)
    requires IsRun(states', steps') && Enabled(sys, step) && states'[0] == Next(sys, step)
    ensures states == [sys] + states' && steps == [step] + steps' && IsRun(states, steps)
  {
    states, steps := [sys] + states', [step] + steps';
    forall k | 0 <= k < |steps| ensures TakesStep(states, steps, k) {
      if k > 0 { assert TakesStep(states', steps', k - 1); }
    }
  }

  /** A job run is a run of the protocol, so everything every run keeps holds after it. */
  lemma JobRunIsRun(sys: System, i: nat, results: seq<AttemptResult>)
      returns (states: seq<System>, steps: seq<QueueStep>)
    requires |results| == 10 && i < |sys.jobs| && sys.jobs[i].running.None?
    ensures IsRun(states, steps) && states[0] == sys && states[|steps|] == RunJob(sys, i, results)
    ensures forall k :: 0 <= k < |steps| ==> WorkerStep(steps[k])
  {
    var states', steps' := AttemptsAreSteps(Next(sys, Start(i)), i, 0, results);
    states, steps := Prefixed(sys, Start(i), states', steps');
  }

  // ---- the job itself --------------------------------------------------------------

  /** The deserialised payload of one delivery. */
  class Payload {
    const batch: Batch
    const deadlettered: bool
    var attempt: nat

    constructor (batch: Batch, attempt: nat, deadlettered: bool)
      ensures this.batch == batch && this.attempt == attempt && this.deadlettered == deadlettered
    {
      this.batch, this.attempt, this.deadlettered := batch, attempt, deadlettered;
    }
  }

  /** The per-batch event that acknowledges a finished submit. */
  datatype Ack = Ack(batchId: string, accepted: bool, inserted: nat, deduplicated: nat, rejected: nat)

  function AckOf(batchId: string, outcome: Outcome): Ack {
    Ack(batchId, outcome.accepted, outcome.inserted, outcome.deduplicated, |outcome.rejected|)
  }

  /** The acknowledgement of a submit of the batch that left the store at `after`. */
  ghost predicate Acknowledges(ack: Ack, b: Batch, after: Store) {
    exists s: Store :: Submit(s, b.items, b.branch, b.batchId).0 == after &&
                       ack == AckOf(b.batchId, Submit(s, b.items, b.branch, b.batchId).1)
  }

  class Worker {
    const service: BulkAttendanceService
    var queue: seq<Job>
    var dead: seq<DeadLetter>
    var delays: seq<real>
    var acks: seq<Ack>
    /** Batches logged as stale dead letters. */
    var stale: seq<Batch>

    constructor (service: BulkAttendanceService, queue: seq<Job>)
      ensures this.service == service && this.queue == queue && dead == [] && delays == [] && acks == [] && stale == []
    {
      this.service, this.queue, dead, delays, acks, stale := service, queue, [], [], [], [];
    }

    ghost function State(accepted: seq<Batch>): System
      reads this, service.gateway
    {
      System(service.gateway.Contents(), queue, accepted, dead)
    }

    /** The effect on the store of one `service.submit` that ends in `result`. */
    method TrySubmit(batch: Batch, result: AttemptResult) returns (outcome: Option<Outcome>)
      modifies service.gateway
      ensures service.gateway.Contents() ==
              After(old(service.gateway.Contents()), batch, ReachedBy(result))
      ensures outcome == if ReachedBy(result) != WriteCommitted then None
                         else Some(Submit(old(service.gateway.Contents()), batch.items, batch.branch, batch.batchId).1)
    {
      outcome := None;
      match ReachedBy(result) {
        case NothingCommitted =>
        case SeedCommitted =>
          var outOfScope := CountOutOfScope(batch.items, batch.branch);
          if outOfScope == 0 { service.gateway.SeedAggregate(batch.branch, EventSet(batch.items)); }
        case WriteCommitted =>
          var submitted := service.SubmitBatch(batch.items, batch.branch, batch.batchId);
          outcome := Some(submitted);
      }
    }

    /** Re-enqueue the payload with its attempt number raised in place, or dead-letter it. */
    method DeadletterOrRetryPayload(payload: Payload, ghost sys: System, ghost i: nat)
      requires i < |sys.jobs| && sys.jobs[i].batch == payload.batch && sys.jobs[i].attempt == payload.attempt
      requires queue == Without(sys.jobs, i) && dead == sys.dead
      modifies payload, this`queue, this`dead, this`delays
      ensures queue == DeadletterOrRetry(sys, i).jobs && dead == DeadletterOrRetry(sys, i).dead
      ensures payload.attempt == old(payload.attempt)
              + (if old(payload.attempt) < BULK_ATTENDANCE_MAX_RETRY then 1 else 0)
      ensures delays == old(delays) + (if old(payload.attempt) < BULK_ATTENDANCE_MAX_RETRY
                                       then [WithExponentialBackoff(old(payload.attempt), 1.0, 300.0)] else [])
    {
      var attempt := payload.attempt + 1;
      if attempt > BULK_ATTENDANCE_MAX_RETRY {
        dead := dead + [DeadLetter(payload.batch, attempt - 1)];
        return;
      }
      payload.attempt := attempt;
      delays := delays + [WithExponentialBackoff(attempt - 1, 1.0, 300.0)];
      queue := queue + [Job(payload.batch, payload.attempt, None)];
    }

    /** `_submit_with_in_place_retry`; the delivered job has already left the queue. */
    method SubmitWithInPlaceRetry(payload: Payload, results: seq<AttemptResult>, ghost sys: System, ghost i: nat)
      returns (outcome: Option<Outcome>)
      requires |results| == 10
      requires i < |sys.jobs| && sys.jobs[i] == Job(payload.batch, payload.attempt, Some(0))
      requires queue == Without(sys.jobs, i) && dead == sys.dead && sys.store == service.gateway.Contents()
      modifies payload, this`queue, this`dead, this`delays, service.gateway
      ensures State(sys.accepted) == RunAttempts(sys, i, 0, results)
      ensures outcome.Some? <==> FirstReturns(results)
      ensures outcome.Some? ==>
                Acknowledges(AckOf(payload.batch.batchId, outcome.value), payload.batch, service.gateway.Contents())
    {
      AttemptsDecide(sys, i, 0, results);
      outcome := AttemptInPlace(payload.batch, results);
      if outcome.None? { DeadletterOrRetryPayload(payload, sys.(store := service.gateway.Contents()), i); }
    }

    /** The attempt loop: transient errors are tried again, anything else ends it. */
    method AttemptInPlace(batch: Batch, results: seq<AttemptResult>) returns (outcome: Option<Outcome>)
      requires |results| == 10
      modifies service.gateway
      ensures (service.gateway.Contents(), outcome.Some?) ==
              Attempts(old(service.gateway.Contents()), batch, 0, results)
      ensures outcome.Some? <==> FirstReturns(results)
      ensures outcome.Some? ==> Acknowledges(AckOf(batch.batchId, outcome.value), batch, service.gateway.Contents())
    {
      ghost var before := service.gateway.Contents();
      for attempt := 0 to BULK_ATTENDANCE_IN_PLACE_ATTEMPTS
        invariant Attempts(before, batch, 0, results) == Attempts(service.gateway.Contents(), batch, attempt, results)
        invariant forall j :: 0 <= j < attempt ==> results[j].RaisedTransient?
      {
        ghost var s := service.gateway.Contents();
        var submitted := TrySubmit(batch, results[attempt]);
        match results[attempt] {
          case Returned =>
            ReturnsAt(results, attempt);
            AcknowledgesFrom(s, batch);
            return submitted;
          case RaisedTransient(_) =>
          case RaisedOther(_) =>
            RaisesAt(results, attempt);
            return None;
        }
      }
      return None;
    }

    /**
     * `process_bulk_batch` on the queued job at `i`. A payload marked as dead-lettered, which nothing in
     * the queue is, would be logged and dropped without touching the store.
     */
    method ProcessBulkBatch(i: nat, deadlettered: bool, results: seq<AttemptResult>, ghost accepted: seq<Batch>)
      requires |results| == 10 && i < |queue| && queue[i].running.None?
      modifies this`queue, this`dead, this`delays, this`acks, this`stale, service.gateway
      ensures State(accepted) == if deadlettered then old(State(accepted)).(jobs := Without(old(queue), i))
                                 else RunJob(old(State(accepted)), i, results)
      ensures stale == old(stale) + (if deadlettered then [old(queue[i]).batch] else [])
      ensures if !deadlettered && FirstReturns(results)
              then exists ack ::
                     acks == old(acks) + [ack] && Acknowledges(ack, old(queue[i]).batch, service.gateway.Contents())
              else acks == old(acks)
    {
      ghost var started := Next(State(accepted), Start(i));
      var payload := new Payload(queue[i].batch, queue[i].attempt, deadlettered);
      queue := Without(queue, i);
      if payload.deadlettered {
        stale := stale + [payload.batch];
        return;
      }
      var outcome := SubmitWithInPlaceRetry(payload, results, started, i);
      if outcome.None? { return; }
      acks := acks + [AckOf(payload.batch.batchId, outcome.value)];
    }
  }

  /** An attempt returns, after transient errors only. */
  ghost predicate FirstReturns(results: seq<AttemptResult>) {
    exists k :: 0 <= k < |results| && results[k].Returned? && forall j :: 0 <= j < k ==> results[j].RaisedTransient?
  }

  lemma ReturnsAt(results: seq<AttemptResult>, k: nat)
    requires k < |results| && results[k].Returned? && forall j :: 0 <= j < k ==> results[j].RaisedTransient?
    ensures FirstReturns(results)
  {
  }

  lemma RaisesAt(results: seq<AttemptResult>, k: nat)
    requires k < |results| && results[k].RaisedOther? && forall j :: 0 <= j < k ==> results[j].RaisedTransient?
    ensures !FirstReturns(results)
  {
  }

  lemma AcknowledgesFrom(before: Store, b: Batch)
    ensures Acknowledges(AckOf(b.batchId, Submit(before, b.items, b.branch, b.batchId).1), b,
                         Submit(before, b.items, b.branch, b.batchId).0)
  {
  }
}
