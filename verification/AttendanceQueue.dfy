/**
 * The queue protocol of `attendance.py`: batches are accepted, run with in-place retries, re-enqueued
 * with backoff and finally dead-lettered, while the queue may deliver any job again at any time.
 */
module AttendanceQueue {
  import opened Wrappers
  import opened Reporting
  import opened ReportingInvariants

  const BULK_ATTENDANCE_MAX_RETRY: nat := 5
  const BULK_ATTENDANCE_IN_PLACE_ATTEMPTS: nat := 10

  // ---- accepting a batch -----------------------------------------------------------

  /** One entry of the request body; an absent id is an empty one, and is refused. */
  datatype RawItem = RawItem(attendeeRef: string, clientReqId: string, status: Option<string>, source: Option<string>,
                             member: Option<string>)

  datatype TransportError = EventRequired | BatchIdRequired | AttendeeRequired(index: nat)
      | ClientReqIdRequired(index: nat)
                          | BatchTooLarge | AmbiguousBranch

  function ItemFromPayload(event: string, branch: string, raw: RawItem): Item {
    Item(event, raw.attendeeRef, branch, raw.status.GetOr("Present"), raw.source.GetOr("bulk"),
         Some(raw.clientReqId), Some(event),
         if Truthy(raw.member) then raw.member else None, None, None)
  }

  function ItemsFromPayload(event: string, branch: string, raws: seq<RawItem>, index: nat)
      : Result<seq<Item>, TransportError>
    requires index <= |raws|
    decreases |raws| - index
  {
    if index == |raws| then Success([])
    else if raws[index].attendeeRef == "" then Failure(AttendeeRequired(index))
    else if raws[index].clientReqId == "" then Failure(ClientReqIdRequired(index))
    else
      match ItemsFromPayload(event, branch, raws, index + 1)
      case Failure(e) => Failure(e)
      case Success(rest) => Success([ItemFromPayload(event, branch, raws[index])] + rest)
  }

  /** The distinct branches a caller's User Permissions name. */
  function BranchesOf(permissions: seq<string>): set<string> {
    set b | b in permissions && b != ""
  }

  /** The one branch of the caller, if there is exactly one. */
  function CallerBranch(permissions: seq<string>): Option<string> {
    if permissions == [] then None
    else
      var last, before := permissions[|permissions| - 1], permissions[..|permissions| - 1];
      if last == "" then CallerBranch(before)
      else if BranchesOf(before) <= {last} then Some(last) else None
  }

  /** `bulk_submit` up to the enqueue. */
  function BulkSubmit(event: string, raws: seq<RawItem>, batchId: string, permissions: seq<string>)
      : Result<Batch, TransportError>
  {
    if event == "" then Failure(EventRequired)
    else if batchId == "" then Failure(BatchIdRequired)
    else if CallerBranch(permissions).None? then Failure(AmbiguousBranch)
    else
      var branch := CallerBranch(permissions).value;
      match ItemsFromPayload(event, branch, raws, 0)
      case Failure(e) => Failure(e)
      case Success(items) => if |items| > BULK_BATCH_SIZE then Failure(BatchTooLarge)
                             else Success(Batch(items, branch, batchId))
  }

  ghost predicate InScope(b: Batch) {
    forall i :: i in b.items ==> i.branch == b.branch
  }

  /** The item is an attendance of the entry's attendee at the event, as a member only if the entry says so. */
  predicate Records(i: Item, event: string, raw: RawItem) {
    && i.event == event && i.attendeeRef == raw.attendeeRef && i.gathering == Some(event)
    && i.clientReqId == Some(raw.clientReqId)
    && (raw.member == None || raw.member == Some("") ==> i.member == None)
    && (raw.member.Some? && raw.member.value != "" ==> i.member == raw.member)
    && i.status == raw.status.GetOr("Present") && i.source == raw.source.GetOr("bulk")
    && i.engagementSession == None && i.attendeeKey == None
  }

  /** Every entry from `index` on is complete. */
  ghost predicate Complete(raws: seq<RawItem>, index: nat) {
    forall k :: index <= k < |raws| ==> raws[k].attendeeRef != "" && raws[k].clientReqId != ""
  }

  lemma {:induction false} PayloadItems(event: string, branch: string, raws: seq<RawItem>, index: nat)
    requires index <= |raws|
    ensures match ItemsFromPayload(event, branch, raws, index)
            case Success(items) =>
              && |items| == |raws| - index
              && (forall k :: 0 <= k < |items| ==> items[k] == ItemFromPayload(event, branch, raws[index + k]))
              && Complete(raws, index)
            case Failure(e) =>
              exists k :: && index <= k < |raws| && (raws[k].attendeeRef == "" || raws[k].clientReqId == "")
                          && (forall j :: index <= j < k ==> raws[j].attendeeRef != "" && raws[j].clientReqId != "")
                          && e == if raws[k].attendeeRef == "" then AttendeeRequired(k) else ClientReqIdRequired(k)
    decreases |raws| - index
  {
    if index < |raws| && raws[index].attendeeRef != "" && raws[index].clientReqId != "" {
      PayloadItems(event, branch, raws, index + 1);
      if ItemsFromPayload(event, branch, raws, index).Success? {
        var rest := ItemsFromPayload(event, branch, raws, index + 1).value;
        forall k | 0 <= k < |raws| - index
          ensures ([ItemFromPayload(event, branch, raws[index])] + rest)[k] ==
                  ItemFromPayload(event, branch, raws[index + k])
        {
          if k > 0 { assert rest[k - 1] == ItemFromPayload(event, branch, raws[index + 1 + (k - 1)]); }
        }
      }
    }
  }

  /** A caller has a branch exactly when the permissions name exactly one. */
  lemma {:induction false} CallerBranchIff(permissions: seq<string>, branch: string)
    ensures CallerBranch(permissions) == Some(branch) <==> BranchesOf(permissions) == {branch}
    ensures CallerBranch(permissions).Some? ==> BranchesOf(permissions) == {CallerBranch(permissions).value}
  {
    if permissions != [] {
      var before, last := permissions[..|permissions| - 1], permissions[|permissions| - 1];
      assert permissions == before + [last];
      CallerBranchIff(before, branch);
      assert BranchesOf(permissions) == BranchesOf(before) + (if last == "" then {} else {last});
      assert last != "" ==> last in BranchesOf(permissions);
    }
  }

  /**
   * A batch is accepted iff the caller has exactly one branch, every entry is complete and there are at
   * most 500; it is in that branch's scope by construction, and records each entry's attendee at the event.
   */
  lemma AcceptedBatchesAreInScope(event: string, raws: seq<RawItem>, batchId: string, permissions: seq<string>)
    ensures var r := BulkSubmit(event, raws, batchId, permissions);
            && (r.Success? <==> && event != "" && batchId != "" && |raws| <= 500
                                && (exists b :: BranchesOf(permissions) == {b})
                                && Complete(raws, 0))
            && (r.Success? ==>
                && InScope(r.value) && |r.value.items| == |raws| && BranchesOf(permissions) == {r.value.branch}
                && forall k :: 0 <= k < |raws| ==> Records(r.value.items[k], event, raws[k]))
  {
    if b :| BranchesOf(permissions) == {b} { CallerBranchIff(permissions, b); }
    if CallerBranch(permissions).Some? {
      CallerBranchIff(permissions, CallerBranch(permissions).value);
      PayloadItems(event, CallerBranch(permissions).value, raws, 0);
    }
  }

  // ---- the protocol as a step relation ---------------------------------------------

  /** How far a submit got before it raised: the seed commits on its own, the write as one unit. */
  datatype Reached = NothingCommitted | SeedCommitted | WriteCommitted

  datatype AttemptResult = Returned | RaisedTransient(reached: Reached) | RaisedOther(reached: Reached)

  /** A queued payload; `running` counts the in-place attempts already spent by its worker. */
  datatype Job = Job(batch: Batch, attempt: nat, running: Option<nat>)

  datatype DeadLetter = DeadLetter(batch: Batch, attempts: nat)

  datatype System = System(store: Store, jobs: seq<Job>, accepted: seq<Batch>, dead: seq<DeadLetter>)

  datatype QueueStep =
    | Accept(batch: Batch)
    | Start(job: nat)
    | Attempt(job: nat, result: AttemptResult)
    | Redeliver(job: nat)
    | Crash(job: nat)

  const EMPTY_SYSTEM := System(EMPTY_LEDGER.store, [], [], [])

  function After(s: Store, b: Batch, reached: Reached): Store {
    match reached
    case NothingCommitted => s
    case SeedCommitted => if OutOfScope(b.items, b.branch) > 0 then s
                          else s.(counters := Seeded(s.counters, b.branch, EventSet(b.items)))
    case WriteCommitted => Submit(s, b.items, b.branch, b.batchId).0
  }

  function Without<T>(s: seq<T>, i: nat): seq<T>
    requires i < |s|
  {
    s[..i] + s[i + 1..]
  }

  /** `_deadletter_or_retry`: re-enqueue with the next attempt number, or give up. */
  function DeadletterOrRetry(sys: System, i: nat): System
    requires i < |sys.jobs|
  {
    var job := sys.jobs[i];
    var attempt := job.attempt + 1;
    if attempt > BULK_ATTENDANCE_MAX_RETRY
    then sys.(jobs := Without(sys.jobs, i), dead := sys.dead + [DeadLetter(job.batch, attempt - 1)])
    else sys.(jobs := Without(sys.jobs, i) + [Job(job.batch, attempt, None)])
  }

  /** What a submit that ends in `result` has committed. */
  function ReachedBy(result: AttemptResult): Reached {
    match result
    case Returned => WriteCommitted
    case RaisedTransient(reached) => reached
    case RaisedOther(reached) => reached
  }

  /** A transient error with in-place attempts left keeps the job at its worker. */
  predicate StaysInPlace(job: Job, result: AttemptResult)
    requires job.running.Some?
  {
    result.RaisedTransient? && job.running.value + 1 < BULK_ATTENDANCE_IN_PLACE_ATTEMPTS
  }

  /** What an attempt's result does to the queue. */
  function Settle(sys: System, i: nat, result: AttemptResult): System
    requires i < |sys.jobs| && sys.jobs[i].running.Some?
  {
    var job := sys.jobs[i];
    if result.Returned? then sys.(jobs := Without(sys.jobs, i))
    else if StaysInPlace(job, result) then sys.(jobs := sys.jobs[i := job.(running := Some(job.running.value + 1))])
    else DeadletterOrRetry(sys, i)
  }

  predicate Enabled(sys: System, step: QueueStep) {
    match step
    case Accept(b) => OutOfScope(b.items, b.branch) == 0
    case Start(i) => i < |sys.jobs| && sys.jobs[i].running.None?
    case Attempt(i, _) => i < |sys.jobs| && sys.jobs[i].running.Some?
    case Redeliver(i) => i < |sys.jobs|
    case Crash(i) => i < |sys.jobs| && sys.jobs[i].running.Some?
  }

  function Next(sys: System, step: QueueStep): System
    requires Enabled(sys, step)
  {
    match step
    case Accept(b) => sys.(jobs := sys.jobs + [Job(b, 0, None)], accepted := sys.accepted + [b])
    case Start(i) => sys.(jobs := sys.jobs[i := sys.jobs[i].(running := Some(0))])
    case Redeliver(i) => sys.(jobs := sys.jobs + [sys.jobs[i].(running := None)])
    case Crash(i) => sys.(jobs := sys.jobs[i := sys.jobs[i].(running := None)])
    case Attempt(i, result) => Settle(sys.(store := After(sys.store, sys.jobs[i].batch, ReachedBy(result))), i, result)
  }

  // ---- safety ----------------------------------------------------------------------

  /** Every attendance of the batch is stored. */
  ghost predicate Persisted(s: Store, b: Batch) {
    forall i :: i in b.items ==> (i.event, i.attendeeRef) in s.unique
  }

  ghost predicate Queued(jobs: seq<Job>, b: Batch) {
    exists i :: 0 <= i < |jobs| && jobs[i].batch == b
  }

  ghost predicate DeadLettered(dead: seq<DeadLetter>, b: Batch) {
    exists i :: 0 <= i < |dead| && dead[i].batch == b
  }

  ghost predicate Accounted(sys: System, b: Batch) {
    Queued(sys.jobs, b) || Persisted(sys.store, b) || DeadLettered(sys.dead, b)
  }

  ghost predicate GoodJob(job: Job) {
    && InScope(job.batch) && job.attempt <= BULK_ATTENDANCE_MAX_RETRY
    && (job.running.Some? ==> job.running.value < BULK_ATTENDANCE_IN_PLACE_ATTEMPTS)
  }

  ghost predicate Safe(sys: System) {
    && Sound(sys.store)
    && (forall i :: 0 <= i < |sys.jobs| ==> GoodJob(sys.jobs[i]))
    && (forall b :: b in sys.accepted ==> Accounted(sys, b))
    && (forall i :: 0 <= i < |sys.dead| ==> sys.dead[i].attempts == BULK_ATTENDANCE_MAX_RETRY)
  }

  lemma SeedKeepsSound(s: Store, branch: string, events: set<string>)
    requires Sound(s)
    ensures Sound(s.(counters := Seeded(s.counters, branch, events)))
  {
    var s' := s.(counters := Seeded(s.counters, branch, events));
    forall b, e ensures CountsRows(s', b, e) { assert CountsRows(s, b, e); }
  }

  lemma AfterKeepsSound(s: Store, b: Batch, reached: Reached)
    requires Sound(s)
    ensures Sound(After(s, b, reached)) && s.unique <= After(s, b, reached).unique
  {
    match reached {
      case NothingCommitted =>
      case SeedCommitted => SeedKeepsSound(s, b.branch, EventSet(b.items));
      case WriteCommitted => SubmitKeepsSound(s, b.items, b.branch, b.batchId);
    }
  }

  lemma WritePersists(s: Store, b: Batch)
    requires Sound(s) && InScope(b)
    ensures Persisted(After(s, b, WriteCommitted), b)
  {
    OutOfScopeMeaning(b.items, b.branch);
    SubmitKeepsSound(s, b.items, b.branch, b.batchId);
    var s' := After(s, b, WriteCommitted);
    forall i | i in b.items ensures (i.event, i.attendeeRef) in s'.unique {
      SubmitMakesKnown(s, b, i);
      UnseenIffUnrecorded(s', i);
    }
  }

  lemma QueuedWithout(jobs: seq<Job>, i: nat, b: Batch)
    requires i < |jobs| && Queued(jobs, b)
    ensures jobs[i].batch == b || Queued(Without(jobs, i), b)
  {
    var k :| 0 <= k < |jobs| && jobs[k].batch == b;
    if k < i { assert Without(jobs, i)[k] == jobs[k]; }
    if k > i { assert Without(jobs, i)[k - 1] == jobs[k]; }
  }

  lemma QueuedInLonger(jobs: seq<Job>, more: seq<Job>, b: Batch)
    requires Queued(jobs, b)
    ensures Queued(jobs + more, b)
  {
    var k :| 0 <= k < |jobs| && jobs[k].batch == b;
    assert (jobs + more)[k].batch == b;
  }

  lemma DeadInLonger(dead: seq<DeadLetter>, d: DeadLetter, b: Batch)
    requires DeadLettered(dead, b) || d.batch == b
    ensures DeadLettered(dead + [d], b)
  {
    if d.batch == b {
      assert (dead + [d])[|dead|].batch == b;
    } else {
      var k :| 0 <= k < |dead| && dead[k].batch == b;
      assert (dead + [d])[k].batch == b;
    }
  }

  lemma RetryKeepsSafe(sys: System, i: nat)
    requires Safe(sys) && i < |sys.jobs|
    ensures Safe(DeadletterOrRetry(sys, i))
  {
    var sys', job := DeadletterOrRetry(sys, i), sys.jobs[i];
    forall b | b in sys.accepted ensures Accounted(sys', b) {
      assert Accounted(sys, b);
      if Queued(sys.jobs, b) { QueuedWithout(sys.jobs, i, b); }
      if job.attempt + 1 > BULK_ATTENDANCE_MAX_RETRY {
        if DeadLettered(sys.dead, b) || job.batch == b {
          DeadInLonger(sys.dead, DeadLetter(job.batch, job.attempt), b);
        }
      } else {
        var retry := Job(job.batch, job.attempt + 1, None);
        if Queued(Without(sys.jobs, i), b) { QueuedInLonger(Without(sys.jobs, i), [retry], b); }
        assert (Without(sys.jobs, i) + [retry])[|sys.jobs| - 1] == retry;
      }
    }
  }

  lemma StoreChangeKeepsSafe(sys: System, s: Store)
    requires Safe(sys) && Sound(s) && sys.store.unique <= s.unique
    ensures Safe(sys.(store := s))
  {
    forall b | b in sys.accepted ensures Accounted(sys.(store := s), b) { assert Accounted(sys, b); }
  }

  lemma UpdateKeepsSafe(sys: System, i: nat, job: Job)
    requires Safe(sys) && i < |sys.jobs| && job.batch == sys.jobs[i].batch && GoodJob(job)
    ensures Safe(sys.(jobs := sys.jobs[i := job]))
  {
    var jobs := sys.jobs[i := job];
    forall b | b in sys.accepted ensures Accounted(sys.(jobs := jobs), b) {
      assert Accounted(sys, b);
      if Queued(sys.jobs, b) {
        var k :| 0 <= k < |sys.jobs| && sys.jobs[k].batch == b;
        assert jobs[k].batch == b;
      }
    }
  }

  lemma DoneKeepsSafe(sys: System, i: nat)
    requires Safe(sys) && i < |sys.jobs| && Persisted(sys.store, sys.jobs[i].batch)
    ensures Safe(sys.(jobs := Without(sys.jobs, i)))
  {
    forall b | b in sys.accepted ensures Accounted(sys.(jobs := Without(sys.jobs, i)), b) {
      assert Accounted(sys, b);
      if Queued(sys.jobs, b) { QueuedWithout(sys.jobs, i, b); }
    }
  }

  lemma AddKeepsSafe(sys: System, job: Job, accepted: seq<Batch>)
    requires Safe(sys) && GoodJob(job) && (accepted == sys.accepted || accepted == sys.accepted + [job.batch])
    ensures Safe(sys.(jobs := sys.jobs + [job], accepted := accepted))
  {
    var sys' := sys.(jobs := sys.jobs + [job], accepted := accepted);
    assert sys'.jobs[|sys.jobs|] == job;
    forall b | b in accepted ensures Accounted(sys', b) {
      if b in sys.accepted {
        assert Accounted(sys, b);
        if Queued(sys.jobs, b) { QueuedInLonger(sys.jobs, [job], b); }
      }
    }
  }

  lemma SettleKeepsSafe(sys: System, i: nat, result: AttemptResult)
    requires Safe(sys) && i < |sys.jobs| && sys.jobs[i].running.Some?
    requires result.Returned? ==> Persisted(sys.store, sys.jobs[i].batch)
    ensures Safe(Settle(sys, i, result))
  {
    if result.Returned? {
      DoneKeepsSafe(sys, i);
    } else if StaysInPlace(sys.jobs[i], result) {
      UpdateKeepsSafe(sys, i, sys.jobs[i].(running := Some(sys.jobs[i].running.value + 1)));
    } else {
      RetryKeepsSafe(sys, i);
    }
  }

  lemma StepKeepsSafe(sys: System, step: QueueStep)
    requires Safe(sys) && Enabled(sys, step)
    ensures Safe(Next(sys, step))
  {
    match step {
      case Accept(b) => OutOfScopeMeaning(b.items, b.branch); AddKeepsSafe(sys, Job(b, 0, None), sys.accepted + [b]);
      case Start(i) => UpdateKeepsSafe(sys, i, sys.jobs[i].(running := Some(0)));
      case Crash(i) => UpdateKeepsSafe(sys, i, sys.jobs[i].(running := None));
      case Redeliver(i) =>
        AddKeepsSafe(sys, sys.jobs[i].(running := None), sys.accepted);
        assert Next(sys, step) == sys.(jobs := sys.jobs + [sys.jobs[i].(running := None)], accepted := sys.accepted);
      case Attempt(i, result) =>
        AfterKeepsSound(sys.store, sys.jobs[i].batch, ReachedBy(result));
        var sys' := sys.(store := After(sys.store, sys.jobs[i].batch, ReachedBy(result)));
        StoreChangeKeepsSafe(sys, sys'.store);
        if result.Returned? { WritePersists(sys.store, sys.jobs[i].batch); }
        SettleKeepsSafe(sys', i, result);
    }
  }

  // ---- every run -------------------------------------------------------------------

  /** The states of a run: `states[0]` then one state per step, each step enabled where it is taken. */
  ghost predicate IsRun(states: seq<System>, steps: seq<QueueStep>) {
    && |states| == |steps| + 1
    && forall k {:trigger TakesStep(states, steps, k)} :: 0 <= k < |steps| ==> TakesStep(states, steps, k)
  }

  ghost predicate TakesStep(states: seq<System>, steps: seq<QueueStep>, k: nat)
    requires |states| == |steps| + 1 && k < |steps|
  {
    Enabled(states[k], steps[k]) && states[k + 1] == Next(states[k], steps[k])
  }

  /**
   * In every run, whatever the interleaving of workers, failures, crashes and redeliveries: each
   * accepted batch is queued, fully stored or dead-lettered, and every counter equals its row count.
   */
  lemma {:induction false} EveryRunIsSafe(states: seq<System>, steps: seq<QueueStep>, k: nat)
    requires IsRun(states, steps) && states[0] == EMPTY_SYSTEM && k < |states|
    ensures Safe(states[k])
  {
    if k == 0 {
      EveryRunBalances([]);
    } else {
      EveryRunIsSafe(states, steps, k - 1);
      assert TakesStep(states, steps, k - 1);
      StepKeepsSafe(states[k - 1], steps[k - 1]);
    }
  }

  /** Once the queue is empty every accepted batch has been stored or dead-lettered. */
  lemma DrainedMeansSettled(states: seq<System>, steps: seq<QueueStep>, k: nat, b: Batch)
    requires IsRun(states, steps) && states[0] == EMPTY_SYSTEM && k < |states|
    requires states[k].jobs == [] && b in states[k].accepted
    ensures Persisted(states[k].store, b) || DeadLettered(states[k].dead, b)
  {
    EveryRunIsSafe(states, steps, k);
    assert Accounted(states[k], b);
  }

  lemma AfterKeepsDistinct(s: Store, b: Batch, reached: Reached)
    requires Sound(s) && DistinctAttendees(s.rows) && DistinctAttendees(b.items)
    ensures DistinctAttendees(After(s, b, reached).rows)
  {
    if reached == WriteCommitted && Submit(s, b.items, b.branch, b.batchId).1.accepted {
      NewItemsStayDistinct(s, b.items);
      DistinctAfterSubmit(s, b);
    }
  }

  ghost predicate DistinctSoFar(sys: System) {
    && DistinctAttendees(sys.store.rows)
    && forall i :: 0 <= i < |sys.jobs| ==> DistinctAttendees(sys.jobs[i].batch.items)
  }

  lemma SettleKeepsDistinct(sys: System, i: nat, result: AttemptResult)
    requires i < |sys.jobs| && sys.jobs[i].running.Some? && DistinctSoFar(sys)
    ensures DistinctSoFar(Settle(sys, i, result))
  {
    assert DistinctAttendees(sys.jobs[i].batch.items);
    WithoutMembers(sys.jobs, i);
  }

  lemma WithoutMembers(jobs: seq<Job>, i: nat)
    requires i < |jobs|
    ensures forall k :: 0 <= k < |jobs| - 1 ==> Without(jobs, i)[k] == jobs[if k < i then k else k + 1]
  {
  }

  lemma StepKeepsDistinct(sys: System, step: QueueStep)
    requires Safe(sys) && Enabled(sys, step) && DistinctSoFar(sys)
    requires step.Accept? ==> DistinctAttendees(step.batch.items)
    ensures DistinctSoFar(Next(sys, step))
  {
    if step.Attempt? {
      var b := sys.jobs[step.job].batch;
      assert DistinctAttendees(b.items);
      AfterKeepsDistinct(sys.store, b, ReachedBy(step.result));
      SettleKeepsDistinct(sys.(store := After(sys.store, b, ReachedBy(step.result))), step.job, step.result);
    }
  }

  /**
   * However often jobs fail, restart or are delivered again, no (event, attendee) is ever stored, and
   * so counted, twice, as long as each accepted batch names distinct attendees.
   */
  lemma {:induction false} NeverCountedTwice(states: seq<System>, steps: seq<QueueStep>, k: nat)
    requires IsRun(states, steps) && states[0] == EMPTY_SYSTEM && k < |states|
    requires forall j :: 0 <= j < |steps| && steps[j].Accept? ==> DistinctAttendees(steps[j].batch.items)
    ensures DistinctSoFar(states[k])
  {
    if k > 0 {
      NeverCountedTwice(states, steps, k - 1);
      EveryRunIsSafe(states, steps, k - 1);
      assert TakesStep(states, steps, k - 1);
      StepKeepsDistinct(states[k - 1], steps[k - 1]);
    }
  }

  // ---- termination -----------------------------------------------------------------

  /** A bound on the worker steps a job can still take. */
  function Weight(job: Job): int {
    12 * (BULK_ATTENDANCE_MAX_RETRY - job.attempt)
    + (match job.running case None => 11 case Some(t) => BULK_ATTENDANCE_IN_PLACE_ATTEMPTS - t)
  }

  /** A quantity added up over the queue. */
  function Sum(jobs: seq<Job>, of: Job -> int): int {
    if jobs == [] then 0 else Sum(jobs[..|jobs| - 1], of) + of(jobs[|jobs| - 1])
  }

  lemma {:induction false} SumConcat(a: seq<Job>, b: seq<Job>, of: Job -> int)
    ensures Sum(a + b, of) == Sum(a, of) + Sum(b, of)
  {
    if b == [] {
      assert a + b == a;
    } else {
      assert (a + b)[..|a + b| - 1] == a + b[..|b| - 1];
      SumConcat(a, b[..|b| - 1], of);
    }
  }

  lemma SumOne(job: Job, of: Job -> int)
    ensures Sum([job], of) == of(job)
  {
    assert [job][..0] == [];
  }

  lemma SumSplit(a: seq<Job>, job: Job, b: seq<Job>, of: Job -> int)
    ensures Sum(a + [job] + b, of) == Sum(a, of) + of(job) + Sum(b, of)
  {
    SumConcat(a + [job], b, of);
    SumConcat(a, [job], of);
    SumOne(job, of);
  }

  lemma SumAt(jobs: seq<Job>, i: nat, job: Job, of: Job -> int)
    requires i < |jobs|
    ensures Sum(Without(jobs, i), of) == Sum(jobs, of) - of(jobs[i])
    ensures Sum(jobs[i := job], of) == Sum(jobs, of) - of(jobs[i]) + of(job)
  {
    var a, b := jobs[..i], jobs[i + 1..];
    assert jobs == a + [jobs[i]] + b && jobs[i := job] == a + [job] + b;
    SumSplit(a, jobs[i], b, of);
    SumSplit(a, job, b, of);
    SumConcat(a, b, of);
  }

  lemma SumAppended(jobs: seq<Job>, job: Job, of: Job -> int)
    ensures Sum(jobs + [job], of) == Sum(jobs, of) + of(job)
  {
    assert (jobs + [job])[..|jobs|] == jobs;
  }

  function TotalWeight(jobs: seq<Job>): int {
    Sum(jobs, Weight)
  }

  predicate WorkerStep(step: QueueStep) {
    step.Start? || step.Attempt?
  }

  lemma RetryUsesWeight(sys: System, i: nat)
    requires i < |sys.jobs| && GoodJob(sys.jobs[i])
    ensures TotalWeight(DeadletterOrRetry(sys, i).jobs) < TotalWeight(sys.jobs)
  {
    SumAt(sys.jobs, i, sys.jobs[i], Weight);
    SumAppended(Without(sys.jobs, i), Job(sys.jobs[i].batch, sys.jobs[i].attempt + 1, None), Weight);
  }

  lemma SettleUsesWeight(sys: System, i: nat, result: AttemptResult)
    requires i < |sys.jobs| && GoodJob(sys.jobs[i]) && sys.jobs[i].running.Some?
    ensures TotalWeight(Settle(sys, i, result).jobs) < TotalWeight(sys.jobs)
  {
    if result.Returned? || StaysInPlace(sys.jobs[i], result) {
      SumAt(sys.jobs, i, sys.jobs[i].(running := Some(sys.jobs[i].running.value + 1)), Weight);
    } else {
      RetryUsesWeight(sys, i);
    }
  }

  /** Every worker step uses up weight, whatever its attempt ends in. */
  lemma WorkerStepsUseWeight(sys: System, step: QueueStep)
    requires Safe(sys) && Enabled(sys, step) && WorkerStep(step)
    ensures TotalWeight(Next(sys, step).jobs) < TotalWeight(sys.jobs)
  {
    assert GoodJob(sys.jobs[step.job]);
    match step {
      case Start(i) => SumAt(sys.jobs, i, sys.jobs[i].(running := Some(0)), Weight);
      case Attempt(i, result) =>
        SettleUsesWeight(sys.(store := After(sys.store, sys.jobs[i].batch, ReachedBy(result))), i, result);
    }
  }

  lemma {:induction false} TotalWeightNonNegative(jobs: seq<Job>)
    requires forall i :: 0 <= i < |jobs| ==> GoodJob(jobs[i])
    ensures TotalWeight(jobs) >= 0
  {
    if jobs != [] {
      assert GoodJob(jobs[|jobs| - 1]);
      TotalWeightNonNegative(jobs[..|jobs| - 1]);
    }
  }

  /**
   * Workers cannot run forever on what is queued: between accepts, crashes and redeliveries a run
   * takes at most `TotalWeight` steps, and while a job is queued some worker step is possible.
   */
  lemma {:induction false} WorkersFinish(states: seq<System>, steps: seq<QueueStep>)
    requires IsRun(states, steps) && Safe(states[0]) && forall k :: 0 <= k < |steps| ==> WorkerStep(steps[k])
    ensures |steps| + TotalWeight(states[|steps|].jobs) <= TotalWeight(states[0].jobs)
    ensures Safe(states[|steps|]) && TotalWeight(states[|steps|].jobs) >= 0
    ensures states[|steps|].jobs != [] ==>
              Enabled(states[|steps|], Start(0)) || Enabled(states[|steps|], Attempt(0, Returned))
    decreases |steps|
  {
    var n := |steps|;
    if n > 0 {
      var states', steps' := states[..n], steps[..n - 1];
      forall k | 0 <= k < |steps'| ensures TakesStep(states', steps', k) { assert TakesStep(states, steps, k); }
      WorkersFinish(states', steps');
      assert TakesStep(states, steps, n - 1);
      StepKeepsSafe(states[n - 1], steps[n - 1]);
      WorkerStepsUseWeight(states[n - 1], steps[n - 1]);
    }
    TotalWeightNonNegative(states[n].jobs);
  }

  // ---- where every copy of a batch goes --------------------------------------------

  predicate RequeuesJob(job: Job, result: AttemptResult)
    requires job.running.Some?
  {
    !result.Returned? && !StaysInPlace(job, result) && job.attempt + 1 <= BULK_ATTENDANCE_MAX_RETRY
  }

  /**
   * What a run has done to one batch: copies enqueued (by accepting or delivering again), attempts that
   * returned, re-enqueues; the attempt numbers copied by redelivery, and those of the copies that returned.
   */
  datatype Tally = Tally(copies: nat, returned: nat, requeues: nat, inherited: nat, settled: nat)

  function Counted(sys: System, step: QueueStep, b: Batch, t: Tally): Tally
    requires Enabled(sys, step)
  {
    match step
    case Accept(a) => if a == b then t.(copies := t.copies + 1) else t
    case Redeliver(i) =>
      if sys.jobs[i].batch != b then t else t.(copies := t.copies + 1, inherited := t.inherited + sys.jobs[i].attempt)
    case Attempt(i, result) =>
      if sys.jobs[i].batch != b then t
      else if result.Returned? then t.(returned := t.returned + 1, settled := t.settled + sys.jobs[i].attempt)
      else if RequeuesJob(sys.jobs[i], result) then t.(requeues := t.requeues + 1)
      else t
    case Start(_) => t
    case Crash(_) => t
  }

  ghost function TallyOf(states: seq<System>, steps: seq<QueueStep>, b: Batch, k: nat): Tally
    requires IsRun(states, steps) && k <= |steps|
  {
    if k == 0 then Tally(0, 0, 0, 0, 0)
    else
      assert TakesStep(states, steps, k - 1);
      Counted(states[k - 1], steps[k - 1], b, TallyOf(states, steps, b, k - 1))
  }

  function CopyOf(b: Batch): Job -> int {
    (job: Job) => if job.batch == b then 1 else 0
  }

  function AttemptsOf(b: Batch): Job -> int {
    (job: Job) => if job.batch == b then job.attempt else 0
  }

  function DeadOf(dead: seq<DeadLetter>, b: Batch): nat {
    if dead == [] then 0 else DeadOf(dead[..|dead| - 1], b) + (if dead[|dead| - 1].batch == b then 1 else 0)
  }

  lemma {:induction false} DeadOfMeaning(dead: seq<DeadLetter>, b: Batch)
    ensures DeadOf(dead, b) > 0 <==> DeadLettered(dead, b)
  {
    if dead != [] {
      var init, last := dead[..|dead| - 1], dead[|dead| - 1];
      assert dead == init + [last];
      DeadOfMeaning(init, b);
      if DeadLettered(init, b) || last.batch == b { DeadInLonger(init, last, b); }
    }
  }

  /** Every copy is queued, dead-lettered or returned. */
  ghost predicate CopiesBalance(sys: System, b: Batch, t: Tally) {
    t.copies == Sum(sys.jobs, CopyOf(b)) + DeadOf(sys.dead, b) + t.returned
  }

  /** Every re-enqueue is in the attempt number of a copy: queued, dead-lettered at the maximum, or returned. */
  ghost predicate AttemptsBalance(sys: System, b: Batch, t: Tally) {
    && t.requeues + t.inherited ==
       Sum(sys.jobs, AttemptsOf(b)) + BULK_ATTENDANCE_MAX_RETRY * DeadOf(sys.dead, b) + t.settled
    && t.settled <= BULK_ATTENDANCE_MAX_RETRY * t.returned
  }

  ghost predicate Balances(sys: System, b: Batch, t: Tally) {
    CopiesBalance(sys, b, t) && AttemptsBalance(sys, b, t)
  }

  lemma UpdateBalances(sys: System, i: nat, job: Job, b: Batch, t: Tally)
    requires Balances(sys, b, t) && i < |sys.jobs| && job.batch == sys.jobs[i].batch
    requires job.attempt == sys.jobs[i].attempt
    ensures Balances(sys.(jobs := sys.jobs[i := job]), b, t)
  {
    SumAt(sys.jobs, i, job, CopyOf(b));
    SumAt(sys.jobs, i, job, AttemptsOf(b));
  }

  /** One more copy, with the attempt number it starts from. */
  lemma CopyBalances(sys: System, job: Job, accepted: seq<Batch>, b: Batch, t: Tally)
    requires Balances(sys, b, t)
    ensures Balances(sys.(jobs := sys.jobs + [job], accepted := accepted), b,
                     if job.batch == b then t.(copies := t.copies + 1, inherited := t.inherited + job.attempt) else t)
  {
    SumAppended(sys.jobs, job, CopyOf(b));
    SumAppended(sys.jobs, job, AttemptsOf(b));
  }

  lemma DoneBalances(sys: System, i: nat, b: Batch, t: Tally)
    requires Balances(sys, b, t) && i < |sys.jobs| && GoodJob(sys.jobs[i])
    ensures Balances(sys.(jobs := Without(sys.jobs, i)), b,
                     if sys.jobs[i].batch != b then t
                     else t.(returned := t.returned + 1, settled := t.settled + sys.jobs[i].attempt))
  {
    SumAt(sys.jobs, i, sys.jobs[i], CopyOf(b));
    SumAt(sys.jobs, i, sys.jobs[i], AttemptsOf(b));
  }

  lemma DeadOfAppended(dead: seq<DeadLetter>, d: DeadLetter, b: Batch)
    ensures DeadOf(dead + [d], b) == DeadOf(dead, b) + (if d.batch == b then 1 else 0)
  {
    assert (dead + [d])[..|dead|] == dead;
  }

  lemma DyingBalances(sys: System, i: nat, b: Batch, t: Tally)
    requires Balances(sys, b, t) && i < |sys.jobs| && sys.jobs[i].attempt == BULK_ATTENDANCE_MAX_RETRY
    ensures Balances(DeadletterOrRetry(sys, i), b, t)
  {
    SumAt(sys.jobs, i, sys.jobs[i], CopyOf(b));
    SumAt(sys.jobs, i, sys.jobs[i], AttemptsOf(b));
    DeadOfAppended(sys.dead, DeadLetter(sys.jobs[i].batch, sys.jobs[i].attempt), b);
  }

  lemma SumRequeued(jobs: seq<Job>, i: nat, retry: Job, of: Job -> int)
    requires i < |jobs|
    ensures Sum(Without(jobs, i) + [retry], of) == Sum(jobs, of) - of(jobs[i]) + of(retry)
  {
    SumAt(jobs, i, jobs[i], of);
    SumAppended(Without(jobs, i), retry, of);
  }

  lemma RequeueBalances(sys: System, i: nat, b: Batch, t: Tally)
    requires Balances(sys, b, t) && i < |sys.jobs| && sys.jobs[i].attempt < BULK_ATTENDANCE_MAX_RETRY
    ensures Balances(DeadletterOrRetry(sys, i), b, if sys.jobs[i].batch == b then t.(requeues := t.requeues + 1) else t)
  {
    var retry := Job(sys.jobs[i].batch, sys.jobs[i].attempt + 1, None);
    SumRequeued(sys.jobs, i, retry, CopyOf(b));
    SumRequeued(sys.jobs, i, retry, AttemptsOf(b));
  }

  lemma RetryBalances(sys: System, i: nat, b: Batch, t: Tally)
    requires Balances(sys, b, t) && i < |sys.jobs| && GoodJob(sys.jobs[i])
    ensures Balances(DeadletterOrRetry(sys, i), b,
                     if sys.jobs[i].batch == b && sys.jobs[i].attempt + 1 <= BULK_ATTENDANCE_MAX_RETRY
                     then t.(requeues := t.requeues + 1) else t)
  {
    if sys.jobs[i].attempt < BULK_ATTENDANCE_MAX_RETRY {
      RequeueBalances(sys, i, b, t);
    } else {
      DyingBalances(sys, i, b, t);
    }
  }

  lemma StayBalances(sys: System, i: nat, b: Batch, t: Tally)
    requires Balances(sys, b, t) && i < |sys.jobs| && sys.jobs[i].running.Some?
    ensures Balances(sys.(jobs := sys.jobs[i := sys.jobs[i].(running := Some(sys.jobs[i].running.value + 1))]), b, t)
  {
    UpdateBalances(sys, i, sys.jobs[i].(running := Some(sys.jobs[i].running.value + 1)), b, t);
  }

  lemma CountedAttempt(sys: System, i: nat, result: AttemptResult, b: Batch, t: Tally)
    requires i < |sys.jobs| && sys.jobs[i].running.Some?
    ensures var job := sys.jobs[i];
            Counted(sys, Attempt(i, result), b, t) ==
            if job.batch != b then t
            else if result.Returned? then t.(returned := t.returned + 1, settled := t.settled + job.attempt)
            else if !StaysInPlace(job, result) && job.attempt + 1 <= BULK_ATTENDANCE_MAX_RETRY
            then t.(requeues := t.requeues + 1)
            else t
  {
  }

  lemma SettleBalances(sys: System, i: nat, result: AttemptResult, b: Batch, t: Tally)
    requires Balances(sys, b, t) && i < |sys.jobs| && GoodJob(sys.jobs[i]) && sys.jobs[i].running.Some?
    ensures Balances(Settle(sys, i, result), b, Counted(sys, Attempt(i, result), b, t))
  {
    CountedAttempt(sys, i, result, b, t);
    if result.Returned? {
      DoneBalances(sys, i, b, t);
    } else if StaysInPlace(sys.jobs[i], result) {
      StayBalances(sys, i, b, t);
    } else {
      RetryBalances(sys, i, b, t);
    }
  }

  lemma StepBalances(sys: System, step: QueueStep, b: Batch, t: Tally)
    requires Safe(sys) && Enabled(sys, step) && Balances(sys, b, t)
    ensures Balances(Next(sys, step), b, Counted(sys, step, b, t))
  {
    match step {
      case Accept(a) => CopyBalances(sys, Job(a, 0, None), sys.accepted + [a], b, t);
      case Redeliver(i) => CopyBalances(sys, sys.jobs[i].(running := None), sys.accepted, b, t);
      case Start(i) => UpdateBalances(sys, i, sys.jobs[i].(running := Some(0)), b, t);
      case Crash(i) => UpdateBalances(sys, i, sys.jobs[i].(running := None), b, t);
      case Attempt(i, result) =>
        assert GoodJob(sys.jobs[i]);
        SettleBalances(sys.(store := After(sys.store, sys.jobs[i].batch, ReachedBy(result))), i, result, b, t);
    }
  }

  /**
   * No copy of a batch is ever lost, in any run: each one enqueued is still queued, was dead-lettered, or
   * had an attempt return; and every re-enqueue shows in the attempt number of one of them.
   */
  lemma {:induction false} EveryRunBalancesCopies(states: seq<System>, steps: seq<QueueStep>, b: Batch, k: nat)
    requires IsRun(states, steps) && states[0] == EMPTY_SYSTEM && k <= |steps|
    ensures Balances(states[k], b, TallyOf(states, steps, b, k))
    ensures b in states[k].accepted ==> TallyOf(states, steps, b, k).copies > 0
  {
    if k > 0 {
      EveryRunBalancesCopies(states, steps, b, k - 1);
      EveryRunIsSafe(states, steps, k - 1);
      assert TakesStep(states, steps, k - 1);
      StepBalances(states[k - 1], steps[k - 1], b, TallyOf(states, steps, b, k - 1));
    }
  }

  /** No worker has anything left to do. */
  ghost predicate Exhausted(sys: System) {
    forall step {:trigger Enabled(sys, step)} :: WorkerStep(step) ==> !Enabled(sys, step)
  }

  lemma ExhaustedIsDrained(sys: System)
    requires Exhausted(sys)
    ensures sys.jobs == []
  {
    assert WorkerStep(Start(0)) && WorkerStep(Attempt(0, Returned));
    assert !Enabled(sys, Start(0)) && !Enabled(sys, Attempt(0, Returned));
  }

  /**
   * A batch none of whose attempts returns is dead-lettered: once the workers are done, every copy of it
   * is among the dead letters, each after exactly five re-enqueues of its line of
   * copies. Redeliveries, crashes and other batches make no difference.
   */
  lemma FailingBatchIsDeadLettered(states: seq<System>, steps: seq<QueueStep>, b: Batch)
    requires IsRun(states, steps) && states[0] == EMPTY_SYSTEM && b in states[|steps|].accepted
    requires TallyOf(states, steps, b, |steps|).returned == 0 && Exhausted(states[|steps|])
    ensures var t, dead := TallyOf(states, steps, b, |steps|), states[|steps|].dead;
            && DeadLettered(dead, b) && DeadOf(dead, b) == t.copies
            && t.requeues + t.inherited == 5 * t.copies
  {
    EveryRunBalancesCopies(states, steps, b, |steps|);
    ExhaustedIsDrained(states[|steps|]);
    DeadOfMeaning(states[|steps|].dead, b);
  }

  /** Until then it is queued or dead-lettered, whatever else is stored. */
  lemma FailingBatchIsQueuedOrDead(states: seq<System>, steps: seq<QueueStep>, b: Batch, k: nat)
    requires IsRun(states, steps) && states[0] == EMPTY_SYSTEM && k <= |steps|
    requires b in states[k].accepted && TallyOf(states, steps, b, k).returned == 0
    ensures Queued(states[k].jobs, b) || DeadLettered(states[k].dead, b)
  {
    EveryRunBalancesCopies(states, steps, b, k);
    DeadOfMeaning(states[k].dead, b);
    CopiesAreQueued(states[k].jobs, b);
  }

  lemma {:induction false} CopiesAreQueued(jobs: seq<Job>, b: Batch)
    ensures Sum(jobs, CopyOf(b)) >= 0 && (Sum(jobs, CopyOf(b)) > 0 <==> Queued(jobs, b))
    ensures forall i :: 0 <= i < |jobs| && jobs[i].batch == b && Sum(jobs, CopyOf(b)) == 1 ==>
              Sum(jobs, AttemptsOf(b)) == jobs[i].attempt
    ensures Sum(jobs, CopyOf(b)) == 0 ==> Sum(jobs, AttemptsOf(b)) == 0
  {
    if jobs != [] {
      var init, last := jobs[..|jobs| - 1], jobs[|jobs| - 1];
      assert jobs == init + [last];
      CopiesAreQueued(init, b);
      if Queued(init, b) { QueuedInLonger(init, [last], b); }
    }
  }

  /** A batch accepted at most once and never delivered again has at most one copy. */
  lemma {:induction false} OneCopy(states: seq<System>, steps: seq<QueueStep>, b: Batch, k: nat)
    requires IsRun(states, steps) && states[0] == EMPTY_SYSTEM && k <= |steps|
    requires forall j :: 0 <= j < |steps| ==> !steps[j].Redeliver?
    requires forall j :: 0 <= j < |steps| && steps[j] == Accept(b) ==> b !in states[j].accepted
    ensures var t := TallyOf(states, steps, b, k);
            t.inherited == 0 && t.copies == if b in states[k].accepted then 1 else 0
  {
    if k > 0 {
      OneCopy(states, steps, b, k - 1);
      assert TakesStep(states, steps, k - 1);
    }
  }

  /**
   * A batch accepted once and never redelivered is dead-lettered only after exactly
   * five re-enqueues, and while it is queued its attempt number counts them.
   */
  lemma DeadAfterExactlyMaxRetries(states: seq<System>, steps: seq<QueueStep>, b: Batch, k: nat)
    requires IsRun(states, steps) && states[0] == EMPTY_SYSTEM && k <= |steps|
    requires forall j :: 0 <= j < |steps| ==> !steps[j].Redeliver?
    requires forall j :: 0 <= j < |steps| && steps[j] == Accept(b) ==> b !in states[j].accepted
    ensures var sys, requeues := states[k], TallyOf(states, steps, b, k).requeues;
            && (forall i :: 0 <= i < |sys.jobs| && sys.jobs[i].batch == b ==> sys.jobs[i].attempt == requeues)
            && (DeadLettered(sys.dead, b) ==> requeues == 5 && !Queued(sys.jobs, b))
            && (b !in sys.accepted ==> requeues == 0 && !Queued(sys.jobs, b) && !DeadLettered(sys.dead, b))
  {
    EveryRunBalancesCopies(states, steps, b, k);
    OneCopy(states, steps, b, k);
    CopiesAreQueued(states[k].jobs, b);
    DeadOfMeaning(states[k].dead, b);
  }

  // ---- backoff ---------------------------------------------------------------------

  function Pow2(n: nat): nat { if n == 0 then 1 else 2 * Pow2(n - 1) }

  function WithExponentialBackoff(attempt: nat, base: real, cap: real): real {
    if base * (Pow2(attempt) as real) < cap then base * (Pow2(attempt) as real) else cap
  }

  /** Delays double until the cap, never shrink and never exceed it; five retries wait 1, 2, 4, 8, 16 seconds. */
  lemma BackoffDoublesToCap(attempt: nat, base: real, cap: real)
    requires base > 0.0 && cap > 0.0
    ensures WithExponentialBackoff(attempt, base, cap) <= cap
    ensures WithExponentialBackoff(attempt + 1, base, cap) ==
            if 2.0 * WithExponentialBackoff(attempt, base, cap) < cap
            then 2.0 * WithExponentialBackoff(attempt, base, cap) else cap
    ensures WithExponentialBackoff(0, 1.0, 300.0) == 1.0 && WithExponentialBackoff(4, 1.0, 300.0) == 16.0
  {
    assert Pow2(attempt + 1) == 2 * Pow2(attempt);
    assert base * (Pow2(attempt + 1) as real) == 2.0 * (base * (Pow2(attempt) as real));
    assert Pow2(4) == 2 * Pow2(3) && Pow2(3) == 2 * Pow2(2) && Pow2(2) == 4;
  }
}
