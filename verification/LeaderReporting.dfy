/** The leader attendance-report workflow of `leader_reporting.py`, over the bulk write path. */
module LeaderReporting {
  import opened Wrappers
  import opened Reporting
  import opened ReportingInvariants
  import Decimal

  const STATUS_HELD := "Held"
  const STATUS_REPORTED := "Reported"
  const STATUS_CONFIRMED := "Confirmed"
  const STATUS_CANCELLED := "Cancelled"
  const TERMINAL_STATUSES: set<string> := {STATUS_CONFIRMED, STATUS_CANCELLED}
  const VISITOR_STATUSES: set<string> := {"Pre-Member", "Visitor"}
  const VALID_MEMBER_STATUSES: set<string> := {"Member", "Pre-Member", "Visitor"}

  datatype AttendeeReport = AttendeeReport(member: string, present: bool, firstTime: bool, clientReqId: Option<string>)

  datatype Submission = Submission(gathering: string, branch: string, group: string, reportedBy: string,
                                   attendees: seq<AttendeeReport>, clientBatchId: string)

  datatype ReportError =
    | MissingField(name: string) | GatheringMissing | GatheringTerminal | GatheringNotHeld
    | UnknownAttendee(member: string) | BadAttendeeStatus(member: string)

  datatype Roll = Roll(members: nat, visitors: nat, firstTimers: nat, items: seq<Item>)

  datatype Receipt = Receipt(inserted: nat, deduplicated: nat, members: nat, visitors: nat, firstTimers: nat,
                             batchIds: seq<string>)

  datatype Advance = Advance(gathering: string, toStatus: string, reportedBy: string, members: nat, visitors: nat,
                             firstTimers: nat)

  datatype ReportedEvent = ReportedEvent(gathering: string, reportedBy: string, branch: string, group: string,
                                         clientBatchId: string, receipt: Receipt)

  /** Everything the in-memory gateway holds. */
  datatype State = State(gatherings: map<string, string>, members: map<string, string>, ledger: Ledger,
                         advanced: seq<Advance>, published: seq<ReportedEvent>)

  // ---- validation and classification -----------------------------------------------

  function CheckShape(sub: Submission): Option<ReportError> {
    if sub.gathering == "" then Some(MissingField("gathering"))
    else if sub.branch == "" then Some(MissingField("branch"))
    else if sub.group == "" then Some(MissingField("group"))
    else if sub.reportedBy == "" then Some(MissingField("reported_by"))
    else if sub.clientBatchId == "" then Some(MissingField("client_batch_id"))
    else None
  }

  function CheckGathering(gatherings: map<string, string>, sub: Submission): Option<ReportError> {
    if sub.gathering !in gatherings then Some(GatheringMissing)
    else if gatherings[sub.gathering] in TERMINAL_STATUSES then Some(GatheringTerminal)
    else if gatherings[sub.gathering] != STATUS_HELD then Some(GatheringNotHeld)
    else None
  }

  function ToItem(sub: Submission, a: AttendeeReport): Item {
    Item(sub.gathering, a.member, sub.branch, "Present", "leader",
         Some(if Truthy(a.clientReqId) then a.clientReqId.value else a.member), None, None, None, None)
  }

  function Classify(members: map<string, string>, sub: Submission, attendees: seq<AttendeeReport>)
      : Result<Roll, ReportError>
  {
    if attendees == [] then Success(Roll(0, 0, 0, []))
    else
      match Classify(members, sub, attendees[..|attendees| - 1])
      case Failure(e) => Failure(e)
      case Success(roll) =>
        var a := attendees[|attendees| - 1];
        if a.member !in members then Failure(UnknownAttendee(a.member))
        else if members[a.member] !in VALID_MEMBER_STATUSES then Failure(BadAttendeeStatus(a.member))
        else
          var visitor := members[a.member] in VISITOR_STATUSES;
          Success(Roll(roll.members + (if a.present && !visitor then 1 else 0),
                       roll.visitors + (if a.present && visitor then 1 else 0),
                       roll.firstTimers + (if a.firstTime then 1 else 0),
                       roll.items + (if a.present then [ToItem(sub, a)] else [])))
  }

  // ---- chunked recording -----------------------------------------------------------

  function ChunkId(clientBatchId: string, index: nat): string {
    clientBatchId + "#" + Decimal.Print(index)
  }

  datatype Recording = Recording(ledger: Ledger, inserted: nat, deduplicated: nat, batchIds: seq<string>)

  /** One more chunk submitted on top of `r`. */
  function RecordChunk(r: Recording, chunk: seq<Item>, branch: string, batchId: string): Recording {
    var outcome := Submit(r.ledger.store, chunk, branch, batchId).1;
    Recording(Step(r.ledger, Batch(chunk, branch, batchId)), r.inserted + outcome.inserted,
              r.deduplicated + outcome.deduplicated, r.batchIds + [batchId])
  }

  /** The first `n` chunks of 500. */
  function RecordChunks(l: Ledger, items: seq<Item>, branch: string, clientBatchId: string, n: nat): Recording
    requires n > 0 ==> (n - 1) * BULK_BATCH_SIZE < |items|
  {
    if n == 0 then Recording(l, 0, 0, [])
    else RecordChunk(RecordChunks(l, items, branch, clientBatchId, n - 1), Chunk(items, n - 1), branch,
                     ChunkId(clientBatchId, n - 1))
  }

  function Chunk(items: seq<Item>, index: nat): seq<Item>
    requires index * BULK_BATCH_SIZE < |items|
  {
    items[index * BULK_BATCH_SIZE..Upto(items, index + 1)]
  }

  /** How many items the first `n` chunks cover. */
  function Upto(items: seq<Item>, n: nat): nat {
    if n * BULK_BATCH_SIZE < |items| then n * BULK_BATCH_SIZE else |items|
  }

  function ChunkCount(items: seq<Item>): nat {
    (|items| + BULK_BATCH_SIZE - 1) / BULK_BATCH_SIZE
  }

  function RecordAll(l: Ledger, items: seq<Item>, branch: string, clientBatchId: string): Recording {
    RecordChunks(l, items, branch, clientBatchId, ChunkCount(items))
  }

  // ---- the workflow ----------------------------------------------------------------

  function SubmitReport(st: State, sub: Submission): (State, Result<Receipt, ReportError>) {
    if CheckShape(sub).Some? then (st, Failure(CheckShape(sub).value))
    else if CheckGathering(st.gatherings, sub).Some? then (st, Failure(CheckGathering(st.gatherings, sub).value))
    else
      match Classify(st.members, sub, sub.attendees)
      case Failure(e) => (st, Failure(e))
      case Success(roll) =>
        var r := RecordAll(st.ledger, roll.items, sub.branch, sub.clientBatchId);
        var receipt := Receipt(r.inserted, r.deduplicated, roll.members, roll.visitors, roll.firstTimers, r.batchIds);
        (State(st.gatherings[sub.gathering := STATUS_REPORTED], st.members, r.ledger,
               st.advanced
                   + [Advance(sub.gathering, STATUS_REPORTED, sub.reportedBy, roll.members, roll.visitors,
                              roll.firstTimers)],
               st.published
                   + [ReportedEvent(sub.gathering, sub.reportedBy, sub.branch, sub.group, sub.clientBatchId, receipt)]),
         Success(receipt))
  }

  lemma ChunkAt(items: seq<Item>, index: nat, start: nat, chunk: seq<Item>)
    requires start == index * BULK_BATCH_SIZE < |items|
    requires chunk == items[start..if start + BULK_BATCH_SIZE < |items| then start + BULK_BATCH_SIZE else |items|]
    ensures chunk == Chunk(items, index)
  {
  }

  lemma AllChunks(items: seq<Item>, n: nat)
    requires n * BULK_BATCH_SIZE >= |items| && (n > 0 ==> (n - 1) * BULK_BATCH_SIZE < |items|)
    ensures n == ChunkCount(items)
  {
  }

  lemma RecordNext(l: Ledger, items: seq<Item>, branch: string, clientBatchId: string, n: nat, r: Recording)
    requires n * BULK_BATCH_SIZE < |items| && (n > 0 ==> (n - 1) * BULK_BATCH_SIZE < |items|)
    requires r == RecordChunks(l, items, branch, clientBatchId, n)
    ensures RecordChunks(l, items, branch, clientBatchId, n + 1) ==
            RecordChunk(r, Chunk(items, n), branch, ChunkId(clientBatchId, n))
  {
  }

  class InMemoryLeaderReportingGateway {
    var gatheringStatus: map<string, string>
    var memberStatus: map<string, string>
    var advanced: seq<Advance>
    var publishedEvents: seq<ReportedEvent>
    const bulk: BulkAttendanceService

    constructor (bulk: BulkAttendanceService)
      ensures this.bulk == bulk && gatheringStatus == map[] && memberStatus == map[]
      ensures advanced == [] && publishedEvents == []
    {
      this.bulk := bulk;
      gatheringStatus, memberStatus, advanced, publishedEvents := map[], map[], [], [];
    }

    ghost function Recorded(): Ledger
      reads bulk.gateway
    {
      Ledger(bulk.gateway.Contents(), bulk.gateway.publishedEvents)
    }

    ghost function Contents(): State
      reads this, bulk.gateway
    {
      State(gatheringStatus, memberStatus, Recorded(), advanced, publishedEvents)
    }

    method RecordAttendance(items: seq<Item>, branch: string, batchId: string)
        returns (inserted: nat, deduplicated: nat)
      modifies bulk.gateway
      ensures Recorded() == Step(old(Recorded()), Batch(items, branch, batchId))
      ensures inserted == Submit(old(Recorded().store), items, branch, batchId).1.inserted
      ensures deduplicated == Submit(old(Recorded().store), items, branch, batchId).1.deduplicated
    {
      var outcome := bulk.SubmitBatch(items, branch, batchId);
      return outcome.inserted, outcome.deduplicated;
    }

    method AdvanceGathering(gathering: string, toStatus: string, reportedBy: string, members: nat, visitors: nat,
                            firstTimers: nat)
      modifies this`gatheringStatus, this`advanced
      ensures gatheringStatus == old(gatheringStatus)[gathering := toStatus]
      ensures advanced == old(advanced) + [Advance(gathering, toStatus, reportedBy, members, visitors, firstTimers)]
    {
      gatheringStatus := gatheringStatus[gathering := toStatus];
      advanced := advanced + [Advance(gathering, toStatus, reportedBy, members, visitors, firstTimers)];
    }

    method Emit(event: ReportedEvent)
      modifies this`publishedEvents
      ensures publishedEvents == old(publishedEvents) + [event]
    {
      publishedEvents := publishedEvents + [event];
    }
  }

  class LeaderReportingService {
    const gateway: InMemoryLeaderReportingGateway

    constructor (gateway: InMemoryLeaderReportingGateway)
      ensures this.gateway == gateway
    {
      this.gateway := gateway;
    }

    method ClassifyAttendees(sub: Submission) returns (r: Result<Roll, ReportError>)
      ensures r == Classify(gateway.memberStatus, sub, sub.attendees)
    {
      var members, visitors, firstTimers: nat := 0, 0, 0;
      var items: seq<Item> := [];
      for i := 0 to |sub.attendees|
        invariant Classify(gateway.memberStatus, sub, sub.attendees[..i]) ==
                  Success(Roll(members, visitors, firstTimers, items))
      {
        assert sub.attendees[..i + 1][..i] == sub.attendees[..i] && items + [] == items;
        var attendee := sub.attendees[i];
        if attendee.member !in gateway.memberStatus {
          ClassifyFails(gateway.memberStatus, sub, i + 1);
          return Failure(UnknownAttendee(attendee.member));
        }
        var status := gateway.memberStatus[attendee.member];
        if status !in VALID_MEMBER_STATUSES {
          ClassifyFails(gateway.memberStatus, sub, i + 1);
          return Failure(BadAttendeeStatus(attendee.member));
        }
        if attendee.firstTime { firstTimers := firstTimers + 1; }
        if !attendee.present { continue; }
        if status in VISITOR_STATUSES { visitors := visitors + 1; } else { members := members + 1; }
        items := items + [ToItem(sub, attendee)];
      }
      assert sub.attendees[..|sub.attendees|] == sub.attendees;
      return Success(Roll(members, visitors, firstTimers, items));
    }

    /** The next slice of up to 500, submitted under its numbered id. */
    method RecordChunkAt(items: seq<Item>, branch: string, clientBatchId: string, start: nat, index: nat)
      returns (inserted: nat, deduplicated: nat, batchId: string)
      requires start == index * BULK_BATCH_SIZE < |items|
      modifies gateway.bulk.gateway
      ensures forall r: Recording :: r.ledger == old(gateway.Recorded()) ==>
                Recording(gateway.Recorded(), r.inserted + inserted, r.deduplicated + deduplicated,
                          r.batchIds + [batchId]) ==
                RecordChunk(r, Chunk(items, index), branch, ChunkId(clientBatchId, index))
    {
      var chunk := items[start..if start + BULK_BATCH_SIZE < |items| then start + BULK_BATCH_SIZE else |items|];
      batchId := ChunkId(clientBatchId, index);
      ChunkAt(items, index, start, chunk);
      inserted, deduplicated := gateway.RecordAttendance(chunk, branch, batchId);
    }

    method RecordInChunks(items: seq<Item>, branch: string, clientBatchId: string)
      returns (inserted: nat, deduplicated: nat, batchIds: seq<string>)
      modifies gateway.bulk.gateway
      ensures Recording(gateway.Recorded(), inserted, deduplicated, batchIds) ==
              RecordAll(old(gateway.Recorded()), items, branch, clientBatchId)
    {
      ghost var before := gateway.Recorded();
      inserted, deduplicated, batchIds := 0, 0, [];
      var start, index: nat := 0, 0;
      while start < |items|
        invariant start == index * BULK_BATCH_SIZE && (index > 0 ==> (index - 1) * BULK_BATCH_SIZE < |items|)
        invariant Recording(gateway.Recorded(), inserted, deduplicated, batchIds) ==
                  RecordChunks(before, items, branch, clientBatchId, index)
        decreases |items| - start
      {
        RecordNext(before, items, branch, clientBatchId, index,
                   Recording(gateway.Recorded(), inserted, deduplicated, batchIds));
        var chunkInserted, chunkDedup, batchId := RecordChunkAt(items, branch, clientBatchId, start, index);
        inserted := inserted + chunkInserted;
        deduplicated := deduplicated + chunkDedup;
        batchIds := batchIds + [batchId];
        start, index := start + BULK_BATCH_SIZE, index + 1;
      }
      AllChunks(items, index);
    }

    method Report(sub: Submission) returns (r: Result<Receipt, ReportError>)
      modifies gateway, gateway.bulk.gateway
      ensures (gateway.Contents(), r) == SubmitReport(old(gateway.Contents()), sub)
    {
      var shape := CheckShape(sub);
      if shape.Some? { return Failure(shape.value); }
      var held := CheckGathering(gateway.gatheringStatus, sub);
      if held.Some? { return Failure(held.value); }
      var classified := ClassifyAttendees(sub);
      if classified.Failure? { return Failure(classified.error); }
      var roll := classified.value;
      var inserted, deduplicated, batchIds := RecordInChunks(roll.items, sub.branch, sub.clientBatchId);
      gateway.AdvanceGathering(sub.gathering, STATUS_REPORTED, sub.reportedBy, roll.members, roll.visitors,
                               roll.firstTimers);
      var receipt := Receipt(inserted, deduplicated, roll.members, roll.visitors, roll.firstTimers, batchIds);
      gateway.Emit(ReportedEvent(sub.gathering, sub.reportedBy, sub.branch, sub.group, sub.clientBatchId, receipt));
      return Success(receipt);
    }
  }

  /** A bad attendee decides the outcome, whatever follows it. */
  lemma {:induction false} ClassifyFails(members: map<string, string>, sub: Submission, i: nat)
    requires i <= |sub.attendees| && Classify(members, sub, sub.attendees[..i]).Failure?
    ensures Classify(members, sub, sub.attendees) == Classify(members, sub, sub.attendees[..i])
    decreases |sub.attendees| - i
  {
    if i == |sub.attendees| {
      assert sub.attendees[..i] == sub.attendees;
    } else {
      assert sub.attendees[..i + 1][..i] == sub.attendees[..i];
      ClassifyFails(members, sub, i + 1);
    }
  }
}
