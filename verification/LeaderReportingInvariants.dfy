/** What a leader report means for the store: accounting, chunking, and repeated members. */
module LeaderReportingInvariants {
  import opened Wrappers
  import opened Reporting
  import opened ReportingInvariants
  import opened LeaderReporting
  import Decimal

  // ---- what a report means ---------------------------------------------------------

  ghost predicate KnownAttendee(members: map<string, string>, a: AttendeeReport) {
    a.member in members && members[a.member] in {"Member", "Pre-Member", "Visitor"}
  }

  lemma {:induction false} ClassifySucceedsIff(members: map<string, string>, sub: Submission,
                                               attendees: seq<AttendeeReport>)
    ensures Classify(members, sub, attendees).Success? <==> forall a :: a in attendees ==> KnownAttendee(members, a)
  {
    if attendees != [] {
      var init, last := attendees[..|attendees| - 1], attendees[|attendees| - 1];
      assert attendees == init + [last];
      ClassifySucceedsIff(members, sub, init);
      assert (forall a :: a in attendees ==> KnownAttendee(members, a)) <==>
             (forall a :: a in init ==> KnownAttendee(members, a)) && KnownAttendee(members, last);
    }
  }

  /** The present attendees, in order. */
  function Present(attendees: seq<AttendeeReport>): seq<AttendeeReport> {
    if attendees == [] then []
    else Present(attendees[..|attendees| - 1])
         + (if attendees[|attendees| - 1].present then [attendees[|attendees| - 1]] else [])
  }

  /** How many of the attendees meet a condition. */
  function HowMany(attendees: seq<AttendeeReport>, meets: AttendeeReport -> bool): nat {
    if attendees == [] then 0
    else HowMany(attendees[..|attendees| - 1], meets) + (if meets(attendees[|attendees| - 1]) then 1 else 0)
  }

  function IsPresentMember(members: map<string, string>): AttendeeReport -> bool {
    (a: AttendeeReport) => a.present && a.member in members && members[a.member] == "Member"
  }

  function IsPresentVisitor(members: map<string, string>): AttendeeReport -> bool {
    (a: AttendeeReport) => a.present && a.member in members && members[a.member] in {"Pre-Member", "Visitor"}
  }

  function IsFirstTimer(): AttendeeReport -> bool {
    (a: AttendeeReport) => a.firstTime
  }

  function IsPresentAs(member: string): AttendeeReport -> bool {
    (a: AttendeeReport) => a.present && a.member == member
  }

  /** The item is the attendee's attendance at the gathering, under their own request id if they have one. */
  predicate ReportsOn(i: Item, sub: Submission, a: AttendeeReport) {
    && i.event == sub.gathering && i.attendeeRef == a.member && i.branch == sub.branch
    && i.status == "Present" && i.source == "leader"
    && (a.clientReqId == None || a.clientReqId == Some("") ==> i.clientReqId == Some(a.member))
    && (a.clientReqId.Some? && a.clientReqId.value != "" ==> i.clientReqId == a.clientReqId)
    && i.gathering == None && i.member == None && i.engagementSession == None && i.attendeeKey == None
  }

  /**
   * The roll counts present members, present visitors and pre-members, and everybody's first times, absent or
   * not; it has one item per present attendee, in order.
   */
  lemma {:induction false} ClassifyCounts(members: map<string, string>, sub: Submission, attendees: seq<AttendeeReport>)
    requires Classify(members, sub, attendees).Success?
    ensures var roll, present := Classify(members, sub, attendees).value, Present(attendees);
            && roll.members == HowMany(attendees, IsPresentMember(members))
            && roll.visitors == HowMany(attendees, IsPresentVisitor(members))
            && roll.firstTimers == HowMany(attendees, IsFirstTimer())
            && roll.members + roll.visitors == |roll.items| == |present|
            && forall k :: 0 <= k < |present| ==> ReportsOn(roll.items[k], sub, present[k])
  {
    if attendees != [] { ClassifyCounts(members, sub, attendees[..|attendees| - 1]); }
  }

  /** A report's receipt, the gathering's roll-up and the published event carry the same counts. */
  lemma ReportCounts(st: State, sub: Submission)
    requires SubmitReport(st, sub).1.Success?
    ensures var (st', r) := SubmitReport(st, sub);
            var members := HowMany(sub.attendees, IsPresentMember(st.members));
            var visitors := HowMany(sub.attendees, IsPresentVisitor(st.members));
            var firstTimers := HowMany(sub.attendees, IsFirstTimer());
            && r.value.members == members && r.value.visitors == visitors && r.value.firstTimers == firstTimers
            && st'.gatherings == st.gatherings[sub.gathering := "Reported"]
            && st'.advanced ==
               st.advanced
                 + [Advance(sub.gathering, "Reported", sub.reportedBy, members, visitors, firstTimers)]
            && st'.published ==
               st.published
                 + [ReportedEvent(sub.gathering, sub.reportedBy, sub.branch, sub.group, sub.clientBatchId, r.value)]
  {
    ClassifyCounts(st.members, sub, sub.attendees);
  }

  ghost predicate OneGathering(items: seq<Item>, branch: string, event: string) {
    forall i :: i in items ==> i.branch == branch && i.event == event
  }

  lemma ReportedItemsAreOneGathering(members: map<string, string>, sub: Submission)
    requires Classify(members, sub, sub.attendees).Success?
    ensures OneGathering(Classify(members, sub, sub.attendees).value.items, sub.branch, sub.gathering)
  {
    ClassifyCounts(members, sub, sub.attendees);
  }

  /** A report succeeds exactly for a complete submission on a Held gathering whose attendees are all known. */
  lemma ReportSucceedsIff(st: State, sub: Submission)
    ensures SubmitReport(st, sub).1.Success? <==>
            && sub.gathering != "" && sub.branch != "" && sub.group != "" && sub.reportedBy != ""
               && sub.clientBatchId != ""
            && sub.gathering in st.gatherings && st.gatherings[sub.gathering] == "Held"
            && forall a :: a in sub.attendees ==> KnownAttendee(st.members, a)
  {
    ClassifySucceedsIff(st.members, sub, sub.attendees);
  }

  /** Attendee `k` is the first one a report cannot take. */
  ghost predicate FirstUnknown(members: map<string, string>, attendees: seq<AttendeeReport>, k: nat) {
    && k < |attendees| && !KnownAttendee(members, attendees[k])
    && forall j :: 0 <= j < k ==> KnownAttendee(members, attendees[j])
  }

  lemma {:induction false} ClassifyFailsAtFirst(members: map<string, string>, sub: Submission,
                                                attendees: seq<AttendeeReport>) returns (k: nat)
    requires Classify(members, sub, attendees).Failure?
    ensures FirstUnknown(members, attendees, k)
    ensures Classify(members, sub, attendees).error ==
            if attendees[k].member !in members then UnknownAttendee(attendees[k].member)
            else BadAttendeeStatus(attendees[k].member)
  {
    var init, last := attendees[..|attendees| - 1], |attendees| - 1;
    if Classify(members, sub, init).Failure? {
      k := ClassifyFailsAtFirst(members, sub, init);
    } else {
      k := last;
      ClassifySucceedsIff(members, sub, init);
      forall j | 0 <= j < k ensures KnownAttendee(members, attendees[j]) { assert init[j] in init; }
    }
  }

  /** A complete report is refused for its gathering, or for its first attendee who is not known, by name. */
  lemma ReportFailsWith(st: State, sub: Submission)
    requires sub.gathering != "" && sub.branch != "" && sub.group != ""
    requires sub.reportedBy != "" && sub.clientBatchId != ""
    ensures var r, known := SubmitReport(st, sub).1, sub.gathering in st.gatherings;
            && (r == Failure(GatheringMissing) <==> !known)
            && (r == Failure(GatheringTerminal) <==>
                known && st.gatherings[sub.gathering] in {"Confirmed", "Cancelled"})
            && (r == Failure(GatheringNotHeld) <==>
                known && st.gatherings[sub.gathering] !in {"Confirmed", "Cancelled", "Held"})
            && (known && st.gatherings[sub.gathering] == "Held" && r.Failure? ==>
                exists k: nat :: && FirstUnknown(st.members, sub.attendees, k)
                                 && var m := sub.attendees[k].member;
                                    r.error == if m !in st.members then UnknownAttendee(m) else BadAttendeeStatus(m))
  {
    if Classify(st.members, sub, sub.attendees).Failure? {
      var k := ClassifyFailsAtFirst(st.members, sub, sub.attendees);
    }
  }

  /** The state after a sequence of reports, refused ones included. */
  function Reports(st: State, subs: seq<Submission>): State {
    if subs == [] then st else SubmitReport(Reports(st, subs[..|subs| - 1]), subs[|subs| - 1]).0
  }

  ghost predicate IsReported(st: State, gathering: string) {
    gathering in st.gatherings && st.gatherings[gathering] == STATUS_REPORTED
  }

  lemma {:induction false} ReportedStays(st: State, subs: seq<Submission>, gathering: string)
    requires IsReported(st, gathering)
    ensures IsReported(Reports(st, subs), gathering)
  {
    if subs != [] { ReportedStays(st, subs[..|subs| - 1], gathering); }
  }

  /** A refused report changes nothing, and a gathering once reported refuses every later report. */
  lemma ReportOnlyOnceFromHeld(st: State, first: Submission, between: seq<Submission>, again: Submission)
    ensures SubmitReport(st, first).1.Failure? ==> SubmitReport(st, first).0 == st
    ensures SubmitReport(st, first).1.Success? && again.gathering == first.gathering ==>
              SubmitReport(Reports(SubmitReport(st, first).0, between), again).1.Failure?
  {
    ReportSucceedsIff(st, first);
    if SubmitReport(st, first).1.Success? {
      ReportedStays(SubmitReport(st, first).0, between, first.gathering);
      ReportSucceedsIff(Reports(SubmitReport(st, first).0, between), again);
      assert STATUS_REPORTED != STATUS_HELD;
    }
  }

  // ---- chunks against one submit ---------------------------------------------------

  lemma ChunkAccounts(r: Recording, chunk: seq<Item>, branch: string, batchId: string)
    requires forall i :: i in chunk ==> i.branch == branch
    ensures var r' := RecordChunk(r, chunk, branch, batchId);
            && r'.inserted + r'.deduplicated == r.inserted + r.deduplicated + |chunk|
            && r'.batchIds == r.batchIds + [batchId]
            && |r'.ledger.store.rows| - r'.inserted == |r.ledger.store.rows| - r.inserted
  {
    SubmitIsAllOrNothing(r.ledger.store, chunk, branch, batchId);
  }

  lemma {:induction false} RecordingAccounts(l: Ledger, items: seq<Item>, branch: string, clientBatchId: string, n: nat)
    requires n > 0 ==> (n - 1) * BULK_BATCH_SIZE < |items|
    requires forall i :: i in items ==> i.branch == branch
    ensures var r := RecordChunks(l, items, branch, clientBatchId, n);
            r.inserted + r.deduplicated == Upto(items, n) && |r.ledger.store.rows| == |l.store.rows| + r.inserted
  {
    if n > 0 {
      RecordingAccounts(l, items, branch, clientBatchId, n - 1);
      var r, chunk := RecordChunks(l, items, branch, clientBatchId, n - 1), Chunk(items, n - 1);
      ChunkBounds(items, n);
      ChunkAccounts(r, chunk, branch, ChunkId(clientBatchId, n - 1));
      assert RecordChunks(l, items, branch, clientBatchId, n) ==
             RecordChunk(r, chunk, branch, ChunkId(clientBatchId, n - 1));
    }
  }

  /** The ids number the batches from zero. */
  ghost predicate Numbered(ids: seq<string>, clientBatchId: string) {
    forall k :: 0 <= k < |ids| ==> ids[k] == clientBatchId + "#" + Decimal.Print(k)
  }

  lemma OneMoreNumber(ids: seq<string>, clientBatchId: string)
    requires Numbered(ids, clientBatchId)
    ensures Numbered(ids + [ChunkId(clientBatchId, |ids|)], clientBatchId)
  {
  }

  lemma OneMoreId(r: Recording, chunk: seq<Item>, branch: string, batchId: string)
    ensures RecordChunk(r, chunk, branch, batchId).batchIds == r.batchIds + [batchId]
  {
  }

  lemma {:induction false} ChunksAreNumbered(l: Ledger, items: seq<Item>, branch: string, clientBatchId: string, n: nat)
    requires n > 0 ==> (n - 1) * BULK_BATCH_SIZE < |items|
    ensures var ids := RecordChunks(l, items, branch, clientBatchId, n).batchIds;
            |ids| == n && Numbered(ids, clientBatchId)
  {
    if n > 0 {
      ChunksAreNumbered(l, items, branch, clientBatchId, n - 1);
      var r, id := RecordChunks(l, items, branch, clientBatchId, n - 1), ChunkId(clientBatchId, n - 1);
      OneMoreNumber(r.batchIds, clientBatchId);
      OneMoreId(r, Chunk(items, n - 1), branch, id);
      assert RecordChunks(l, items, branch, clientBatchId, n) == RecordChunk(r, Chunk(items, n - 1), branch, id);
    }
  }

  lemma ChunksCoverAll(items: seq<Item>)
    ensures var n := ChunkCount(items); Upto(items, n) == |items| && (n > 0 ==> (n - 1) * BULK_BATCH_SIZE < |items|)
  {
  }

  /**
   * The receipt accounts for every present attendee, as inserted or as already known, and names the numbered
   * batches of up to 500 they were recorded in.
   */
  lemma ReceiptAccountsForEveryone(st: State, sub: Submission)
    requires SubmitReport(st, sub).1.Success?
    ensures var receipt := SubmitReport(st, sub).1.value;
            && receipt.inserted + receipt.deduplicated == receipt.members + receipt.visitors
            && |SubmitReport(st, sub).0.ledger.store.rows| == |st.ledger.store.rows| + receipt.inserted
            && |receipt.batchIds| == (receipt.members + receipt.visitors + 499) / 500
            && Numbered(receipt.batchIds, sub.clientBatchId)
  {
    ClassifyCounts(st.members, sub, sub.attendees);
    ReportedItemsAreOneGathering(st.members, sub);
    var items := Classify(st.members, sub, sub.attendees).value.items;
    ChunksCoverAll(items);
    RecordingAccounts(st.ledger, items, sub.branch, sub.clientBatchId, ChunkCount(items));
    ChunksAreNumbered(st.ledger, items, sub.branch, sub.clientBatchId, ChunkCount(items));
  }

  lemma {:induction false} EventsOfOne(items: seq<Item>, branch: string, event: string)
    requires OneGathering(items, branch, event)
    ensures EventsOf(items) == if items == [] then [] else [event]
    ensures CountEvent(items, event) == |items|
  {
    if items != [] {
      assert items[|items| - 1] in items;
      EventsOfOne(items[..|items| - 1], branch, event);
    }
  }

  /** The counters after `added` rows of one (branch, event) were submitted in a batch that was not empty. */
  function Moved(counters: map<UKey, int>, branch: string, event: string, empty: bool, added: nat): map<UKey, int> {
    if empty then counters else counters[(branch, event) := Counter(counters, branch, event) + added]
  }

  lemma TalliedOne(counters: map<UKey, int>, branch: string, event: string, items: seq<Item>)
    ensures Tallied(counters, branch, [event], items) ==
            counters[(branch, event) := Counter(counters, branch, event) + CountEvent(items, event)]
  {
    assert [event][..0] == [];
  }

  lemma SeededOne(counters: map<UKey, int>, items: seq<Item>, branch: string, event: string)
    requires OneGathering(items, branch, event)
    ensures var seeded := Seeded(counters, branch, EventSet(items));
            seeded == if items == [] then counters else counters[(branch, event) := Counter(counters, branch, event)]
  {
    if items == [] {
      assert EventSet(items) == {};
    } else {
      assert items[0] in items;
      assert EventSet(items) == {event};
    }
  }

  lemma CountersForOneGathering(counters: map<UKey, int>, items: seq<Item>, newItems: seq<Item>, branch: string,
                                event: string)
    requires OneGathering(items, branch, event) && OneGathering(newItems, branch, event) && |newItems| <= |items|
    ensures Tallied(Seeded(counters, branch, EventSet(items)), branch, EventsOf(newItems), newItems) ==
            Moved(counters, branch, event, items == [], |newItems|)
  {
    SeededOne(counters, items, branch, event);
    EventsOfOne(newItems, branch, event);
    if items != [] { TalliedOverSeeded(counters, newItems, branch, event); }
  }

  lemma SetTwice(counters: map<UKey, int>, key: UKey, a: int, b: int)
    ensures counters[key := a][key := b] == counters[key := b]
  {
  }

  lemma TalliedNone(counters: map<UKey, int>, branch: string)
    ensures Tallied(counters, branch, EventsOf([]), []) == counters
  {
  }

  lemma TalliedOverSeeded(counters: map<UKey, int>, newItems: seq<Item>, branch: string, event: string)
    requires OneGathering(newItems, branch, event)
    ensures Tallied(counters[(branch, event) := Counter(counters, branch, event)], branch, EventsOf(newItems),
                    newItems) ==
            Moved(counters, branch, event, false, |newItems|)
  {
    var count := Counter(counters, branch, event);
    var seeded := counters[(branch, event) := count];
    if newItems == [] {
      TalliedNone(seeded, branch);
    } else {
      EventsOfOne(newItems, branch, event);
      TalliedOne(seeded, branch, event, newItems);
      SetTwice(counters, (branch, event), count, count + |newItems|);
    }
  }

  /** The store after `newItems` of one gathering were recorded from a batch that was `empty` or not. */
  function Stored(s: Store, newItems: seq<Item>, branch: string, event: string, empty: bool): Store {
    Store(s.seen + KeysOf(newItems), s.unique + UniquesOf(newItems),
          Moved(s.counters, branch, event, empty, |newItems|), s.rows + newItems)
  }

  /** Submitting for one gathering adds the new rows and moves one counter by their number. */
  lemma SubmitForOneGathering(s: Store, items: seq<Item>, branch: string, event: string, batchId: string)
    requires OneGathering(items, branch, event)
    ensures Submit(s, items, branch, batchId).0 == Stored(s, NewItems(s, items), branch, event, items == [])
  {
    OutOfScopeMeaning(items, branch);
    NewItemsMeaning(s, items);
    CountersForOneGathering(s.counters, items, NewItems(s, items), branch, event);
  }

  lemma {:induction false} NewItemsUnaffected(s: Store, s': Store, items: seq<Item>)
    requires forall i :: i in items ==> (KeyUnseen(s, IdempotencyKey(i)) <==> KeyUnseen(s', IdempotencyKey(i)))
    ensures NewItems(s, items) == NewItems(s', items)
  {
    if items != [] {
      assert items[|items| - 1] in items;
      NewItemsUnaffected(s, s', items[..|items| - 1]);
    }
  }

  ghost predicate NoSharedAttendee(a: seq<Item>, b: seq<Item>) {
    forall i, j :: i in a && j in b ==> UniqueKey(i) != UniqueKey(j)
  }

  /** Storing other attendees first does not change which of `b` are new. */
  lemma OthersStayNew(s: Store, s1: Store, a: seq<Item>, b: seq<Item>)
    requires NoSharedAttendee(a, b)
    requires s1.seen == s.seen + KeysOf(NewItems(s, a)) && s1.unique == s.unique + UniquesOf(NewItems(s, a))
    ensures NewItems(s1, b) == NewItems(s, b)
  {
    NewItemsMeaning(s, a);
    forall j | j in b ensures KeyUnseen(s, IdempotencyKey(j)) <==> KeyUnseen(s1, IdempotencyKey(j)) {
      assert UniqueKey(j) !in UniquesOf(NewItems(s, a));
      assert IdempotencyKey(j) !in KeysOf(NewItems(s, a));
    }
    NewItemsUnaffected(s, s1, b);
  }

  lemma MovedTwice(counters: map<UKey, int>, branch: string, event: string, a: bool, b: bool, m: nat, n: nat)
    requires (a ==> m == 0) && (b ==> n == 0)
    ensures Moved(Moved(counters, branch, event, a, m), branch, event, b, n) ==
            Moved(counters, branch, event, a && b, m + n)
  {
  }

  lemma StoredTwice(s: Store, newA: seq<Item>, newB: seq<Item>, branch: string, event: string, a: bool, b: bool)
    requires (a ==> newA == []) && (b ==> newB == [])
    ensures Stored(Stored(s, newA, branch, event, a), newB, branch, event, b) ==
            Stored(s, newA + newB, branch, event, a && b)
  {
    UniqueKeysJoin(newA, newB);
    MovedTwice(s.counters, branch, event, a, b, |newA|, |newB|);
    assert s.rows + (newA + newB) == (s.rows + newA) + newB;
    assert s.seen + (KeysOf(newA) + KeysOf(newB)) == (s.seen + KeysOf(newA)) + KeysOf(newB);
    assert s.unique + (UniquesOf(newA) + UniquesOf(newB)) == (s.unique + UniquesOf(newA)) + UniquesOf(newB);
  }

  /** Two chunks of distinct attendees of one gathering store what the two together would. */
  lemma TwoChunksAreOne(s: Store, a: seq<Item>, b: seq<Item>, branch: string, event: string, id: string, id': string)
    requires OneGathering(a, branch, event) && OneGathering(b, branch, event) && NoSharedAttendee(a, b)
    ensures Submit(Submit(s, a, branch, id).0, b, branch, id').0 == Submit(s, a + b, branch, id).0
  {
    var newA, newB := NewItems(s, a), NewItems(s, b);
    var s1 := Stored(s, newA, branch, event, a == []);
    SubmitForOneGathering(s, a, branch, event, id);
    SubmitForOneGathering(s1, b, branch, event, id');
    SubmitForOneGathering(s, a + b, branch, event, id);
    OthersStayNew(s, s1, a, b);
    NewItemsConcat(s, a, b);
    StoredTwice(s, newA, newB, branch, event, a == [], b == []);
  }

  lemma PartsShareNobody(items: seq<Item>, k: nat, m: nat)
    requires DistinctAttendees(items) && k <= m <= |items|
    ensures NoSharedAttendee(items[..k], items[k..m]) && items[..k] + items[k..m] == items[..m]
  {
    forall i, j | i in items[..k] && j in items[k..m] ensures UniqueKey(i) != UniqueKey(j) {
      var p :| 0 <= p < k && items[..k][p] == i;
      var q :| 0 <= q < m - k && items[k..m][q] == j;
      assert items[p] == i && items[k + q] == j;
    }
  }

  lemma ChunkBounds(items: seq<Item>, n: nat)
    requires n > 0 && (n - 1) * BULK_BATCH_SIZE < |items|
    ensures Upto(items, n - 1) == (n - 1) * BULK_BATCH_SIZE && Upto(items, n - 1) <= Upto(items, n) <= |items|
    ensures Chunk(items, n - 1) == items[Upto(items, n - 1)..Upto(items, n)]
  {
  }

  /** The first `n` chunks of distinct attendees leave the store one unchunked submit of them would. */
  lemma {:induction false} ChunksAreOneSubmit(l: Ledger, items: seq<Item>, branch: string, event: string,
                                              clientBatchId: string, n: nat)
    requires n > 0 ==> (n - 1) * BULK_BATCH_SIZE < |items|
    requires OneGathering(items, branch, event) && DistinctAttendees(items)
    ensures RecordChunks(l, items, branch, clientBatchId, n).ledger.store ==
            Submit(l.store, items[..Upto(items, n)], branch, clientBatchId).0
  {
    if n == 0 {
      SubmitForOneGathering(l.store, [], branch, event, clientBatchId);
      NothingNew(l.store);
      assert items[..0] == [];
    } else {
      ChunksAreOneSubmit(l, items, branch, event, clientBatchId, n - 1);
      ChunkBounds(items, n);
      PartsShareNobody(items, Upto(items, n - 1), Upto(items, n));
      TwoChunksAreOne(l.store, items[..Upto(items, n - 1)], Chunk(items, n - 1), branch, event, clientBatchId,
                      ChunkId(clientBatchId, n - 1));
    }
  }

  ghost predicate DistinctMembers(attendees: seq<AttendeeReport>) {
    forall i, j :: 0 <= i < j < |attendees| ==> attendees[i].member != attendees[j].member
  }

  lemma {:induction false} PresentStayDistinct(attendees: seq<AttendeeReport>)
    requires DistinctMembers(attendees)
    ensures DistinctMembers(Present(attendees)) && forall a :: a in Present(attendees) ==> a in attendees
  {
    if attendees != [] {
      var init, last := attendees[..|attendees| - 1], attendees[|attendees| - 1];
      assert attendees == init + [last];
      PresentStayDistinct(init);
      assert forall a :: a in Present(init) ==> a.member != last.member;
    }
  }

  lemma DistinctMembersDistinctItems(members: map<string, string>, sub: Submission)
    requires Classify(members, sub, sub.attendees).Success? && DistinctMembers(sub.attendees)
    ensures DistinctAttendees(Classify(members, sub, sub.attendees).value.items)
  {
    ClassifyCounts(members, sub, sub.attendees);
    PresentStayDistinct(sub.attendees);
  }

  /**
   * For a submission that names no member twice, recording in chunks of 500 leaves exactly the rows,
   * keys and counters of one unchunked submit of all present attendees.
   */
  lemma ChunkedReportIsOneSubmit(st: State, sub: Submission)
    requires SubmitReport(st, sub).1.Success? && DistinctMembers(sub.attendees)
    ensures var items := Classify(st.members, sub, sub.attendees).value.items;
            SubmitReport(st, sub).0.ledger.store == Submit(st.ledger.store, items, sub.branch, sub.clientBatchId).0
  {
    var items := Classify(st.members, sub, sub.attendees).value.items;
    ReportedItemsAreOneGathering(st.members, sub);
    DistinctMembersDistinctItems(st.members, sub);
    ChunksCoverAll(items);
    ChunksAreOneSubmit(st.ledger, items, sub.branch, sub.gathering, sub.clientBatchId, ChunkCount(items));
    assert items[..|items|] == items;
  }

  // ---- who is recorded -------------------------------------------------------------

  lemma {:induction false} ReportedTimes(members: map<string, string>, sub: Submission, attendees: seq<AttendeeReport>,
                                         event: string, member: string)
    requires Classify(members, sub, attendees).Success?
    ensures Times(Classify(members, sub, attendees).value.items, event, member) ==
            if event == sub.gathering then HowMany(attendees, IsPresentAs(member)) else 0
  {
    if attendees != [] {
      var init, last := attendees[..|attendees| - 1], attendees[|attendees| - 1];
      ReportedTimes(members, sub, init, event, member);
      TimesConcat(Classify(members, sub, init).value.items, if last.present then [ToItem(sub, last)] else [], event,
                  member);
      assert [ToItem(sub, last)][..0] == [];
    }
  }

  lemma {:induction false} DistinctPresentOnce(attendees: seq<AttendeeReport>, member: string)
    requires DistinctMembers(attendees)
    ensures HowMany(attendees, IsPresentAs(member)) <= 1
    ensures HowMany(attendees, IsPresentAs(member)) > 0 ==> exists a :: a in attendees && a.member == member
  {
    if attendees != [] {
      var init, last := attendees[..|attendees| - 1], attendees[|attendees| - 1];
      assert attendees == init + [last];
      DistinctPresentOnce(init, member);
    }
  }

  lemma TimesUpto(items: seq<Item>, n: nat, event: string, attendee: string)
    requires n > 0 && (n - 1) * BULK_BATCH_SIZE < |items|
    ensures Times(items[..Upto(items, n)], event, attendee) ==
            Times(items[..Upto(items, n - 1)], event, attendee) + Times(Chunk(items, n - 1), event, attendee)
  {
    ChunkBounds(items, n);
    assert items[..Upto(items, n - 1)] + Chunk(items, n - 1) == items[..Upto(items, n)];
    TimesConcat(items[..Upto(items, n - 1)], Chunk(items, n - 1), event, attendee);
  }

  /** Chunk by chunk, whoever was recorded stays as they were, and the others are recorded if some chunk has them. */
  lemma {:induction false} ChunksRecord(l: Ledger, items: seq<Item>, branch: string, clientBatchId: string, n: nat,
                                        event: string, attendee: string)
    requires n > 0 ==> (n - 1) * BULK_BATCH_SIZE < |items|
    requires Sound(l.store) && forall i :: i in items ==> i.branch == branch
    ensures var s := RecordChunks(l, items, branch, clientBatchId, n).ledger.store;
            var before, named := Times(l.store.rows, event, attendee), Times(items[..Upto(items, n)], event, attendee);
            && Sound(s)
            && (before > 0 ==> Times(s.rows, event, attendee) == before)
            && (before == 0 ==> (if named > 0 then 1 else 0) <= Times(s.rows, event, attendee) <= named)
  {
    if n == 0 {
      assert items[..0] == [];
    } else {
      ChunksRecord(l, items, branch, clientBatchId, n - 1, event, attendee);
      var r, chunk := RecordChunks(l, items, branch, clientBatchId, n - 1), Chunk(items, n - 1);
      var id := ChunkId(clientBatchId, n - 1);
      ChunkRecords(r, chunk, branch, id, event, attendee);
      TimesUpto(items, n, event, attendee);
      assert RecordChunks(l, items, branch, clientBatchId, n) == RecordChunk(r, chunk, branch, id);
    }
  }

  lemma ChunkRecords(r: Recording, chunk: seq<Item>, branch: string, id: string, event: string, attendee: string)
    requires Sound(r.ledger.store) && forall i :: i in chunk ==> i.branch == branch
    ensures var s, before := RecordChunk(r, chunk, branch, id).ledger.store, r.ledger.store;
            && Sound(s)
            && Times(s.rows, event, attendee) ==
               if Times(before.rows, event, attendee) > 0 then Times(before.rows, event, attendee)
               else Times(chunk, event, attendee)
  {
    OutOfScopeMeaning(chunk, branch);
    SubmitKeepsSound(r.ledger.store, chunk, branch, id);
    SubmitRecords(r.ledger.store, chunk, branch, id, event, attendee);
  }

  /**
   * A report records every present attendee at its gathering who was not recorded there before, exactly once
   * if no member is named twice; nobody else's rows change, whoever recorded them and under whatever id.
   */
  lemma ReportRecords(st: State, sub: Submission, event: string, member: string)
    requires SubmitReport(st, sub).1.Success? && Sound(st.ledger.store)
    ensures var before := Times(st.ledger.store.rows, event, member);
            var after := Times(SubmitReport(st, sub).0.ledger.store.rows, event, member);
            var named := HowMany(sub.attendees, IsPresentAs(member));
            && (before > 0 || event != sub.gathering || named == 0 ==> after == before)
            && (before == 0 && event == sub.gathering && named > 0 ==> 1 <= after <= named)
            && (DistinctMembers(sub.attendees) ==> named <= 1)
    ensures Sound(SubmitReport(st, sub).0.ledger.store)
  {
    var items := Classify(st.members, sub, sub.attendees).value.items;
    ReportedItemsAreOneGathering(st.members, sub);
    ChunksCoverAll(items);
    ChunksRecord(st.ledger, items, sub.branch, sub.clientBatchId, ChunkCount(items), event, member);
    assert items[..|items|] == items;
    ReportedTimes(st.members, sub, sub.attendees, event, member);
    if DistinctMembers(sub.attendees) { DistinctPresentOnce(sub.attendees, member); }
  }

  // ---- repeated members ------------------------------------------------------------

  /** No attendee is repeated in the batch, unless the store has them already. */
  ghost predicate NoFreshRepeat(stored: set<UKey>, items: seq<Item>) {
    forall p, q :: 0 <= p < q < |items| && UniqueKey(items[p]) == UniqueKey(items[q]) ==> UniqueKey(items[p]) in stored
  }

  lemma RepeatWithLast(stored: set<UKey>, init: seq<Item>, last: Item)
    ensures NoFreshRepeat(stored, init + [last]) <==>
            && NoFreshRepeat(stored, init)
            && (UniqueKey(last) in stored || UniqueKey(last) !in UniquesOf(init))
  {
    var items := init + [last];
    assert forall p :: 0 <= p < |init| ==> items[p] == init[p];
    if NoFreshRepeat(stored, items) && UniqueKey(last) in UniquesOf(init) {
      var i :| i in init && UniqueKey(i) == UniqueKey(last);
      var p :| 0 <= p < |init| && init[p] == i;
      assert UniqueKey(items[p]) == UniqueKey(items[|init|]);
    }
    if NoFreshRepeat(stored, init) && (UniqueKey(last) in stored || UniqueKey(last) !in UniquesOf(init)) {
      forall p, q | 0 <= p < q < |items| && UniqueKey(items[p]) == UniqueKey(items[q])
          ensures UniqueKey(items[p]) in stored {
        if q == |init| { assert init[p] in init; }
      }
    }
  }

  lemma NewUniques(s: Store, items: seq<Item>)
    requires Sound(s)
    ensures UniquesOf(NewItems(s, items)) == UniquesOf(items) - s.unique
  {
    NewItemsMeaning(s, items);
    forall i | i in items ensures KeyUnseen(s, IdempotencyKey(i)) <==> UniqueKey(i) !in s.unique {
      UnseenIffUnrecorded(s, i);
    }
  }

  /** The new items of a batch name distinct attendees exactly when the batch repeats nobody not yet stored. */
  lemma {:induction false} NewItemsDistinctIff(s: Store, items: seq<Item>)
    requires Sound(s)
    ensures DistinctAttendees(NewItems(s, items)) <==> NoFreshRepeat(s.unique, items)
  {
    if items != [] {
      var init, last := items[..|items| - 1], items[|items| - 1];
      assert items == init + [last];
      NewItemsDistinctIff(s, init);
      RepeatWithLast(s.unique, init, last);
      UnseenIffUnrecorded(s, last);
      NewUniques(s, init);
      DistinctGrows(NewItems(s, init), last);
      assert NewItems(s, init) + [] == NewItems(s, init);
    }
  }

  lemma DistinctGrows(a: seq<Item>, x: Item)
    ensures DistinctAttendees(a + [x]) <==> DistinctAttendees(a) && UniqueKey(x) !in UniquesOf(a)
  {
    if UniqueKey(x) in UniquesOf(a) {
      var i :| i in a && UniqueKey(i) == UniqueKey(x);
      var p :| 0 <= p < |a| && a[p] == i;
      assert UniqueKey((a + [x])[p]) == UniqueKey((a + [x])[|a|]);
    } else {
      DistinctConcat(a, [x]);
    }
  }

  lemma ClassifyOne(members: map<string, string>, sub: Submission, a: AttendeeReport)
    requires a.present && Classify(members, sub, [a, a]).Success?
    ensures Classify(members, sub, [a]).Success? && Classify(members, sub, [a]).value.items == [ToItem(sub, a)]
  {
    assert [a, a][..1] == [a] && [a][..0] == [] && [] + [ToItem(sub, a)] == [ToItem(sub, a)];
  }

  lemma ClassifyTwice(members: map<string, string>, sub: Submission, a: AttendeeReport)
    requires a.present && Classify(members, sub, [a, a]).Success?
    ensures Classify(members, sub, [a, a]).value.items == [ToItem(sub, a), ToItem(sub, a)]
  {
    ClassifyOne(members, sub, a);
    assert [a, a][..1] == [a] && [ToItem(sub, a)] + [ToItem(sub, a)] == [ToItem(sub, a), ToItem(sub, a)];
  }

  lemma RecordTwoItems(l: Ledger, i: Item, branch: string, clientBatchId: string)
    ensures RecordAll(l, [i, i], branch, clientBatchId).ledger.store ==
            Submit(l.store, [i, i], branch, ChunkId(clientBatchId, 0)).0
  {
    assert ChunkCount([i, i]) == 1 && Chunk([i, i], 0) == [i, i];
    assert RecordChunks(l, [i, i], branch, clientBatchId, 0).ledger == l;
  }

  /** One member named twice in a short report is stored twice. */
  lemma RepeatedMemberIsStoredTwice(st: State, sub: Submission, a: AttendeeReport)
    requires SubmitReport(st, sub).1.Success? && sub.attendees == [a, a] && a.present
    requires sub.branch == "north" && st.ledger.store == EMPTY_LEDGER.store
    ensures Times(SubmitReport(st, sub).0.ledger.store.rows, sub.gathering, a.member) == 2
  {
    ClassifyTwice(st.members, sub, a);
    RecordTwoItems(st.ledger, ToItem(sub, a), sub.branch, sub.clientBatchId);
    var i := ToItem(sub, a);
    RepeatInOneBatchIsStoredTwiceAs(i, ChunkId(sub.clientBatchId, 0));
    assert [i] + [i] == [i, i] && [i][..0] == [];
    TimesConcat([i], [i], sub.gathering, a.member);
  }

  lemma RepeatInOneBatchIsStoredTwiceAs(i: Item, batchId: string)
    requires i.branch == "north"
    ensures Submit(EMPTY_LEDGER.store, [i, i], "north", batchId).0.rows == [i, i]
  {
    RepeatInOneBatchIsStoredTwice(i);
  }

  /** No chunk repeats an attendee whom neither the store nor an earlier chunk has: checkable beforehand. */
  ghost predicate ChunksRepeatNobody(stored: set<UKey>, items: seq<Item>, n: nat)
    requires n > 0 ==> (n - 1) * BULK_BATCH_SIZE < |items|
  {
    n > 0 ==> && ChunksRepeatNobody(stored, items, n - 1)
              && NoFreshRepeat(stored + UniquesOf(items[..Upto(items, n - 1)]), Chunk(items, n - 1))
  }

  /**
   * Repeated members collapse to one row only across chunks, or when already stored: after the first
   * `n` chunks nobody is stored twice exactly when no chunk repeats an attendee not stored before it.
   */
  lemma {:induction false} RepeatsCollapseOnlyAcrossChunks(l: Ledger, items: seq<Item>, branch: string,
                                                           clientBatchId: string, n: nat)
    requires n > 0 ==> (n - 1) * BULK_BATCH_SIZE < |items|
    requires Sound(l.store) && DistinctAttendees(l.store.rows) && forall i :: i in items ==> i.branch == branch
    ensures var s := RecordChunks(l, items, branch, clientBatchId, n).ledger.store;
            && Sound(s) && s.unique == l.store.unique + UniquesOf(items[..Upto(items, n)])
            && (DistinctAttendees(s.rows) <==> ChunksRepeatNobody(l.store.unique, items, n))
  {
    if n == 0 {
      assert items[..0] == [] && UniquesOf([]) == {};
    } else {
      RepeatsCollapseOnlyAcrossChunks(l, items, branch, clientBatchId, n - 1);
      ChunkBounds(items, n);
      var s, chunk := RecordChunks(l, items, branch, clientBatchId, n - 1).ledger.store, Chunk(items, n - 1);
      ChunkKeepsOrBreaks(s, chunk, branch, ChunkId(clientBatchId, n - 1));
      assert RecordChunks(l, items, branch, clientBatchId, n).ledger.store ==
             Submit(s, chunk, branch, ChunkId(clientBatchId, n - 1)).0;
      UniquesUpto(l.store.unique, items, n);
    }
  }

  lemma UniquesUpto(stored: set<UKey>, items: seq<Item>, n: nat)
    requires n > 0 && (n - 1) * BULK_BATCH_SIZE < |items|
    ensures stored + UniquesOf(items[..Upto(items, n - 1)]) + UniquesOf(Chunk(items, n - 1)) ==
            stored + UniquesOf(items[..Upto(items, n)])
  {
    var head, chunk := items[..Upto(items, n - 1)], Chunk(items, n - 1);
    ChunkBounds(items, n);
    assert head + chunk == items[..Upto(items, n)];
    UniqueKeysJoin(head, chunk);
  }

  lemma ChunkKeepsOrBreaks(s: Store, chunk: seq<Item>, branch: string, batchId: string)
    requires Sound(s) && forall i :: i in chunk ==> i.branch == branch
    ensures var s' := Submit(s, chunk, branch, batchId).0;
            && Sound(s') && s'.unique == s.unique + UniquesOf(chunk)
            && (DistinctAttendees(s'.rows) <==> DistinctAttendees(s.rows) && NoFreshRepeat(s.unique, chunk))
  {
    OutOfScopeMeaning(chunk, branch);
    SubmitKeepsSound(s, chunk, branch, batchId);
    NewItemsDistinctIff(s, chunk);
    DistinctAfterSubmit(s, Batch(chunk, branch, batchId));
    SubmittedUniques(s, chunk, branch, batchId);
  }

  lemma SubmittedUniques(s: Store, chunk: seq<Item>, branch: string, batchId: string)
    requires Sound(s) && OutOfScope(chunk, branch) == 0
    ensures Submit(s, chunk, branch, batchId).0.unique == s.unique + UniquesOf(chunk)
  {
    NewUniques(s, chunk);
  }
}
