/** What every sequence of `submit` calls keeps: counters, rows, published counts and replays. */
module ReportingInvariants {
  import opened Wrappers
  import opened Reporting

  function CountRows(rows: seq<Item>, branch: string, event: string): nat {
    if rows == [] then 0
    else
      var last := rows[|rows| - 1];
      CountRows(rows[..|rows| - 1], branch, event) + (if last.branch == branch && last.event == event then 1 else 0)
  }

  function RecordedCount(events: seq<DomainEvent>, branch: string, event: string): nat {
    if events == [] then 0
    else
      var last := events[|events| - 1];
      RecordedCount(events[..|events| - 1], branch, event)
      + (if last.BulkRecorded? && last.branch == branch && last.gathering == event then last.count else 0)
  }

  /** The counter of (branch, event) is the number of stored rows for it. */
  ghost predicate CountsRows(s: Store, branch: string, event: string) {
    Counter(s.counters, branch, event) == CountRows(s.rows, branch, event)
  }

  ghost predicate Sound(s: Store) {
    && s.seen == KeysOf(s.rows) && s.unique == UniquesOf(s.rows)
    && (forall b, e {:trigger CountsRows(s, b, e)} :: CountsRows(s, b, e))
  }

  // ---- counting --------------------------------------------------------------------

  lemma {:induction false} CountRowsConcat(a: seq<Item>, b: seq<Item>, branch: string, event: string)
    ensures CountRows(a + b, branch, event) == CountRows(a, branch, event) + CountRows(b, branch, event)
  {
    if b == [] {
      assert a + b == a;
    } else {
      assert (a + b)[..|a + b| - 1] == a + b[..|b| - 1];
      CountRowsConcat(a, b[..|b| - 1], branch, event);
    }
  }

  lemma {:induction false} RecordedCountConcat(a: seq<DomainEvent>, b: seq<DomainEvent>, branch: string, event: string)
    ensures RecordedCount(a + b, branch, event) == RecordedCount(a, branch, event) + RecordedCount(b, branch, event)
  {
    if b == [] {
      assert a + b == a;
    } else {
      assert (a + b)[..|a + b| - 1] == a + b[..|b| - 1];
      RecordedCountConcat(a, b[..|b| - 1], branch, event);
    }
  }

  /** In one branch, rows and items of an event are the same count; no other branch gains a row. */
  lemma {:induction false} CountInScope(items: seq<Item>, scope: string, branch: string, event: string)
    requires forall i :: i in items ==> i.branch == scope
    ensures CountRows(items, branch, event) == if branch == scope then CountEvent(items, event) else 0
  {
    if items != [] {
      assert items[|items| - 1] in items;
      CountInScope(items[..|items| - 1], scope, branch, event);
    }
  }

  lemma {:induction false} EventsOfMeaning(items: seq<Item>)
    ensures NoDup(EventsOf(items))
    ensures forall e :: e in EventsOf(items) <==> CountEvent(items, e) > 0
  {
    if items != [] {
      var init := items[..|items| - 1];
      EventsOfMeaning(init);
      if items[|items| - 1].event !in EventsOf(init) { NoDupConcat(EventsOf(init), [items[|items| - 1].event]); }
    }
  }

  lemma {:induction false} TalliedCounter(counters: map<UKey, int>, scope: string, events: seq<string>,
                                          items: seq<Item>,
                                          branch: string, event: string)
    requires NoDup(events)
    ensures Counter(Tallied(counters, scope, events, items), branch, event) ==
            Counter(counters, branch, event)
                + (if branch == scope && event in events then CountEvent(items, event) else 0)
  {
    if events != [] {
      var init, last := events[..|events| - 1], events[|events| - 1];
      assert events == init + [last];
      NoDupConcat(init, [last]);
      TalliedCounter(counters, scope, init, items, branch, event);
      TalliedCounter(counters, scope, init, items, scope, last);
    }
  }

  lemma {:induction false} BulkEventsCount(events: seq<string>, items: seq<Item>, batchId: string, scope: string,
                                           branch: string, event: string)
    requires NoDup(events)
    ensures RecordedCount(BulkEvents(events, items, batchId, scope), branch, event) ==
            if branch == scope && event in events then CountEvent(items, event) else 0
  {
    if events != [] {
      var init, last := events[..|events| - 1], events[|events| - 1];
      assert events == init + [last];
      NoDupConcat(init, [last]);
      BulkEventsCount(init, items, batchId, scope, branch, event);
      assert BulkEvents(events, items, batchId, scope)[..|events| - 1] == BulkEvents(init, items, batchId, scope);
    }
  }

  /** How many rows record the attendee at the event. */
  function Times(rows: seq<Item>, event: string, attendee: string): nat {
    if rows == [] then 0
    else
      var last := rows[|rows| - 1];
      Times(rows[..|rows| - 1], event, attendee)
      + (if last.event == event && last.attendeeRef == attendee then 1 else 0)
  }

  lemma {:induction false} TimesConcat(a: seq<Item>, b: seq<Item>, event: string, attendee: string)
    ensures Times(a + b, event, attendee) == Times(a, event, attendee) + Times(b, event, attendee)
  {
    if b == [] {
      assert a + b == a;
    } else {
      assert (a + b)[..|a + b| - 1] == a + b[..|b| - 1];
      TimesConcat(a, b[..|b| - 1], event, attendee);
    }
  }

  lemma {:induction false} TimesMeaning(rows: seq<Item>, event: string, attendee: string)
    ensures Times(rows, event, attendee) > 0 <==> exists i :: i in rows && i.event == event && i.attendeeRef == attendee
    ensures Times(rows, event, attendee) > 0 <==> (event, attendee) in UniquesOf(rows)
  {
    if rows != [] {
      var init, last := rows[..|rows| - 1], rows[|rows| - 1];
      assert rows == init + [last];
      TimesMeaning(init, event, attendee);
      KeysOfNext(init, last);
    }
  }

  // ---- one submit ------------------------------------------------------------------

  lemma {:induction false} NewItemsMeaning(s: Store, items: seq<Item>)
    ensures forall i :: i in NewItems(s, items) <==> i in items && KeyUnseen(s, IdempotencyKey(i))
  {
    if items != [] {
      var init, last := items[..|items| - 1], items[|items| - 1];
      NewItemsMeaning(s, init);
      assert items == init + [last];
    }
  }

  /** What has been stored under some request id is never new under another: the attendee at the event decides. */
  lemma UnseenIffUnrecorded(s: Store, i: Item)
    requires Sound(s)
    ensures KeyUnseen(s, IdempotencyKey(i)) <==> (i.event, i.attendeeRef) !in s.unique
  {
    if IdempotencyKey(i) in s.seen {
      var r :| r in s.rows && IdempotencyKey(r) == IdempotencyKey(i);
      assert UniqueKey(r) in UniquesOf(s.rows);
    }
  }

  lemma NewItemTimes(s: Store, i: Item, event: string, attendee: string)
    requires Sound(s)
    ensures Times(if KeyUnseen(s, IdempotencyKey(i)) then [i] else [], event, attendee) ==
            if Times(s.rows, event, attendee) == 0 && i.event == event && i.attendeeRef == attendee then 1 else 0
  {
    UnseenIffUnrecorded(s, i);
    TimesMeaning(s.rows, i.event, i.attendeeRef);
    assert [i][..0] == [];
  }

  lemma {:induction false} NewTimes(s: Store, items: seq<Item>, event: string, attendee: string)
    requires Sound(s)
    ensures Times(NewItems(s, items), event, attendee) ==
            if Times(s.rows, event, attendee) > 0 then 0 else Times(items, event, attendee)
  {
    if items != [] {
      var init, last := items[..|items| - 1], items[|items| - 1];
      NewTimes(s, init, event, attendee);
      TimesConcat(NewItems(s, init), if KeyUnseen(s, IdempotencyKey(last)) then [last] else [], event, attendee);
      NewItemTimes(s, last, event, attendee);
    }
  }

  /**
   * An accepted batch records an attendee at an event only if no row did before, and then as often as the
   * batch names them there: request ids, sources and everything else make no difference.
   */
  lemma SubmitRecords(s: Store, items: seq<Item>, branch: string, batchId: string, event: string, attendee: string)
    requires Sound(s) && Submit(s, items, branch, batchId).1.accepted
    ensures Times(Submit(s, items, branch, batchId).0.rows, event, attendee) ==
            if Times(s.rows, event, attendee) > 0 then Times(s.rows, event, attendee)
            else Times(items, event, attendee)
  {
    TimesConcat(s.rows, NewItems(s, items), event, attendee);
    NewTimes(s, items, event, attendee);
  }

  /** Items are taken in batch order, each judged on its own against the store before the batch. */
  lemma {:induction false} NewItemsConcat(s: Store, a: seq<Item>, b: seq<Item>)
    ensures NewItems(s, a + b) == NewItems(s, a) + NewItems(s, b)
  {
    if b == [] {
      assert a + b == a;
    } else {
      assert (a + b)[..|a + b| - 1] == a + b[..|b| - 1];
      NewItemsConcat(s, a, b[..|b| - 1]);
    }
  }

  lemma {:induction false} OutOfScopeMeaning(items: seq<Item>, branch: string)
    ensures OutOfScope(items, branch) == 0 <==> forall i :: i in items ==> i.branch == branch
  {
    if items != [] {
      var init, last := items[..|items| - 1], items[|items| - 1];
      OutOfScopeMeaning(init, branch);
      assert items == init + [last];
    }
  }

  lemma UniqueKeysJoin(a: seq<Item>, b: seq<Item>)
    ensures KeysOf(a + b) == KeysOf(a) + KeysOf(b) && UniquesOf(a + b) == UniquesOf(a) + UniquesOf(b)
  {
    assert forall i :: i in a + b <==> i in a || i in b;
    forall k | k in KeysOf(a) + KeysOf(b) ensures k in KeysOf(a + b) {
      var i :| (i in a || i in b) && IdempotencyKey(i) == k;
      assert i in a + b;
    }
    forall k | k in UniquesOf(a) + UniquesOf(b) ensures k in UniquesOf(a + b) {
      var i :| (i in a || i in b) && UniqueKey(i) == k;
      assert i in a + b;
    }
  }

  /**
   * A batch is taken or refused as a whole: refusal changes no stored row, key or counter, names every item,
   * and is published once with the number of items out of scope.
   */
  lemma SubmitIsAllOrNothing(s: Store, items: seq<Item>, branch: string, batchId: string)
    ensures var (s', outcome) := Submit(s, items, branch, batchId);
            && (outcome.accepted <==> forall i :: i in items ==> i.branch == branch)
            && (!outcome.accepted ==>
                  && s' == s && outcome.inserted == 0 && |outcome.rejected| == |items|
                  && (forall k :: 0 <= k < |items| ==> outcome.rejected[k] == RejectedItem(k, items[k].attendeeRef))
                  && outcome.events ==
                     [BatchRejected(branch, batchId, |items|, |items| - CountBranch(items, branch))])
            && (outcome.accepted ==> outcome.inserted + outcome.deduplicated == |items| && outcome.rejected == [])
            && |s'.rows| == |s.rows| + outcome.inserted
  {
    OutOfScopeMeaning(items, branch);
    OutOfScopeCounts(items, branch);
  }

  /** The published events of an accepted batch: one per gathering with something new, carrying the batch's id. */
  lemma OneEventPerGathering(s: Store, items: seq<Item>, branch: string, batchId: string)
    requires Submit(s, items, branch, batchId).1.accepted
    ensures var events := Submit(s, items, branch, batchId).1.events;
            && (forall k :: 0 <= k < |events| ==>
                  events[k].BulkRecorded? && events[k].batchId == batchId && events[k].branch == branch
                  && events[k].count > 0)
            && (forall j, k :: 0 <= j < k < |events| ==> events[j].gathering != events[k].gathering)
  {
    var newItems := NewItems(s, items);
    EventsOfMeaning(newItems);
    var events := EventsOf(newItems);
    forall k | 0 <= k < |events| ensures CountEvent(newItems, events[k]) > 0 { assert events[k] in events; }
  }

  lemma {:induction false} OutOfScopeCounts(items: seq<Item>, branch: string)
    ensures OutOfScope(items, branch) + CountBranch(items, branch) == |items|
  {
    if items != [] { OutOfScopeCounts(items[..|items| - 1], branch); }
  }

  lemma RecordedCountsRows(s: Store, items: seq<Item>, scope: string, batchId: string, branch: string, event: string)
    requires Sound(s) && Submit(s, items, scope, batchId).1.accepted
    ensures CountsRows(Submit(s, items, scope, batchId).0, branch, event)
    ensures RecordedCount(Submit(s, items, scope, batchId).1.events, branch, event) ==
            Counter(Submit(s, items, scope, batchId).0.counters, branch, event) - Counter(s.counters, branch, event)
  {
    var newItems := NewItems(s, items);
    OutOfScopeMeaning(items, scope);
    NewItemsMeaning(s, items);
    EventsOfMeaning(newItems);
    TalliedCounter(Seeded(s.counters, scope, EventSet(items)), scope, EventsOf(newItems), newItems, branch, event);
    BulkEventsCount(EventsOf(newItems), newItems, batchId, scope, branch, event);
    CountRowsConcat(s.rows, newItems, branch, event);
    CountInScope(newItems, scope, branch, event);
    assert CountsRows(s, branch, event);
  }

  lemma SubmitKeepsSound(s: Store, items: seq<Item>, branch: string, batchId: string)
    requires Sound(s)
    ensures Sound(Submit(s, items, branch, batchId).0)
  {
    var (s', outcome) := Submit(s, items, branch, batchId);
    if outcome.accepted {
      UniqueKeysJoin(s.rows, NewItems(s, items));
      forall b, e ensures CountsRows(s', b, e) { RecordedCountsRows(s, items, branch, batchId, b, e); }
    }
  }

  // ---- every sequence of submits ---------------------------------------------------

  datatype Batch = Batch(items: seq<Item>, branch: string, batchId: string)

  /** The store together with everything published so far. */
  datatype Ledger = Ledger(store: Store, events: seq<DomainEvent>)

  const EMPTY_LEDGER := Ledger(Store({}, {}, map[], []), [])

  function Step(l: Ledger, b: Batch): Ledger {
    var (s, outcome) := Submit(l.store, b.items, b.branch, b.batchId);
    Ledger(s, l.events + outcome.events)
  }

  function Run(l: Ledger, batches: seq<Batch>): Ledger {
    if batches == [] then l else Step(Run(l, batches[..|batches| - 1]), batches[|batches| - 1])
  }

  ghost predicate PublishedMatches(l: Ledger, branch: string, event: string) {
    RecordedCount(l.events, branch, event) == Counter(l.store.counters, branch, event)
  }

  ghost predicate Balanced(l: Ledger) {
    Sound(l.store) && forall b, e {:trigger PublishedMatches(l, b, e)} :: PublishedMatches(l, b, e)
  }

  lemma StepKeepsBalance(l: Ledger, b: Batch)
    requires Balanced(l)
    ensures Balanced(Step(l, b))
  {
    var (s, outcome) := Submit(l.store, b.items, b.branch, b.batchId);
    SubmitKeepsSound(l.store, b.items, b.branch, b.batchId);
    forall branch, event ensures PublishedMatches(Step(l, b), branch, event) {
      assert PublishedMatches(l, branch, event);
      RecordedCountConcat(l.events, outcome.events, branch, event);
      if outcome.accepted {
        RecordedCountsRows(l.store, b.items, b.branch, b.batchId, branch, event);
      } else {
        assert outcome.events[..0] == [];
      }
    }
  }

  /**
   * After any sequence of submits, of any batches, the counter of every (branch, event) equals both
   * the number of rows stored for it and the sum of the counts published for it.
   */
  lemma {:induction false} EveryRunBalances(batches: seq<Batch>)
    ensures Balanced(Run(EMPTY_LEDGER, batches))
  {
    if batches == [] {
      assert forall b, e :: PublishedMatches(EMPTY_LEDGER, b, e) && CountsRows(EMPTY_LEDGER.store, b, e);
    } else {
      EveryRunBalances(batches[..|batches| - 1]);
      StepKeepsBalance(Run(EMPTY_LEDGER, batches[..|batches| - 1]), batches[|batches| - 1]);
    }
  }

  // ---- replays ---------------------------------------------------------------------

  /** The item can never be inserted again, and its counter exists. */
  ghost predicate Known(s: Store, i: Item) {
    !KeyUnseen(s, IdempotencyKey(i)) && (i.branch, i.event) in s.counters
  }

  lemma {:induction false} TalliedKeys(counters: map<UKey, int>, scope: string, events: seq<string>, items: seq<Item>)
    ensures counters.Keys <= Tallied(counters, scope, events, items).Keys
  {
    if events != [] { TalliedKeys(counters, scope, events[..|events| - 1], items); }
  }

  lemma SubmitKeepsKnown(s: Store, b: Batch, i: Item)
    requires Known(s, i)
    ensures Known(Submit(s, b.items, b.branch, b.batchId).0, i)
  {
    var newItems := NewItems(s, b.items);
    TalliedKeys(Seeded(s.counters, b.branch, EventSet(b.items)), b.branch, EventsOf(newItems), newItems);
  }

  lemma SubmitMakesKnown(s: Store, b: Batch, i: Item)
    requires Submit(s, b.items, b.branch, b.batchId).1.accepted && i in b.items
    ensures Known(Submit(s, b.items, b.branch, b.batchId).0, i)
  {
    var newItems := NewItems(s, b.items);
    OutOfScopeMeaning(b.items, b.branch);
    NewItemsMeaning(s, b.items);
    TalliedKeys(Seeded(s.counters, b.branch, EventSet(b.items)), b.branch, EventsOf(newItems), newItems);
    assert i.event in EventSet(b.items);
    if KeyUnseen(s, IdempotencyKey(i)) { assert i in newItems; }
  }

  lemma {:induction false} RunKeepsKnown(l: Ledger, batches: seq<Batch>, i: Item)
    requires Known(l.store, i)
    ensures Known(Run(l, batches).store, i)
  {
    if batches != [] {
      RunKeepsKnown(l, batches[..|batches| - 1], i);
      SubmitKeepsKnown(Run(l, batches[..|batches| - 1]).store, batches[|batches| - 1], i);
    }
  }

  /** Submitting only known items of one branch inserts nothing and leaves the store as it is. */
  lemma KnownItemsAreDeduplicated(s: Store, b: Batch)
    requires forall i :: i in b.items ==> i.branch == b.branch && Known(s, i)
    ensures var (s', outcome) := Submit(s, b.items, b.branch, b.batchId);
            s' == s && outcome.accepted && outcome.inserted == 0 && outcome.deduplicated == |b.items|
                && outcome.events == []
  {
    OutOfScopeMeaning(b.items, b.branch);
    NewItemsMeaning(s, b.items);
    var newItems := NewItems(s, b.items);
    NoMembersIsEmpty(newItems);
    forall e | e in EventSet(b.items) ensures (b.branch, e) in s.counters {
      var i :| i in b.items && i.event == e;
    }
    assert Seeded(s.counters, b.branch, EventSet(b.items)) == s.counters;
    NothingNew(s);
  }

  /**
   * Once a batch was accepted, submitting the same items again, after whatever other batches came in
   * between and under any batch id, inserts nothing, publishes nothing and changes nothing stored.
   */
  lemma ReplayInsertsNothing(l: Ledger, b: Batch, between: seq<Batch>, batchId: string)
    requires Submit(l.store, b.items, b.branch, b.batchId).1.accepted
    ensures var s := Run(Step(l, b), between).store;
            var (s', outcome) := Submit(s, b.items, b.branch, batchId);
            s' == s && outcome.accepted && outcome.inserted == 0 && outcome.deduplicated == |b.items|
                && outcome.events == []
  {
    OutOfScopeMeaning(b.items, b.branch);
    forall i | i in b.items ensures Known(Run(Step(l, b), between).store, i) {
      SubmitMakesKnown(l.store, b, i);
      RunKeepsKnown(Step(l, b), between, i);
    }
    KnownItemsAreDeduplicated(Run(Step(l, b), between).store, b.(batchId := batchId));
  }

  // ---- no attendee twice -----------------------------------------------------------

  /** No two rows record the same attendee at the same event. */
  ghost predicate DistinctAttendees(rows: seq<Item>) {
    forall i, j :: 0 <= i < j < |rows| ==> rows[i].event != rows[j].event || rows[i].attendeeRef != rows[j].attendeeRef
  }

  lemma {:induction false} DistinctMeansOnce(rows: seq<Item>, event: string, attendee: string)
    requires DistinctAttendees(rows)
    ensures Times(rows, event, attendee) <= 1
  {
    if rows != [] {
      var init, last := rows[..|rows| - 1], rows[|rows| - 1];
      DistinctMeansOnce(init, event, attendee);
      TimesMeaning(init, event, attendee);
    }
  }

  lemma DistinctConcat(a: seq<Item>, b: seq<Item>)
    requires forall i :: i in b ==> UniqueKey(i) !in UniquesOf(a)
    ensures DistinctAttendees(a + b) <==> DistinctAttendees(a) && DistinctAttendees(b)
  {
    var c := a + b;
    if DistinctAttendees(c) {
      forall i, j | 0 <= i < j < |a| ensures UniqueKey(a[i]) != UniqueKey(a[j]) { assert c[i] == a[i] && c[j] == a[j]; }
      forall i, j | 0 <= i < j < |b| ensures UniqueKey(b[i]) != UniqueKey(b[j]) {
        assert c[|a| + i] == b[i] && c[|a| + j] == b[j];
      }
    }
    if DistinctAttendees(a) && DistinctAttendees(b) {
      forall i, j | 0 <= i < j < |c| ensures UniqueKey(c[i]) != UniqueKey(c[j]) {
        if i < |a| <= j { assert c[i] in a && c[j] in b; }
      }
    }
  }

  /**
   * An accepted batch leaves every (event, attendee) stored at most once exactly when that held before
   * and the batch's own new items name distinct attendees: the store guards against earlier batches,
   * not against a repeat inside one batch.
   */
  lemma DistinctAfterSubmit(s: Store, b: Batch)
    requires Sound(s) && Submit(s, b.items, b.branch, b.batchId).1.accepted
    ensures DistinctAttendees(Submit(s, b.items, b.branch, b.batchId).0.rows) <==>
            DistinctAttendees(s.rows) && DistinctAttendees(NewItems(s, b.items))
  {
    NewItemsMeaning(s, b.items);
    DistinctConcat(s.rows, NewItems(s, b.items));
  }

  /** Two equal items in one batch are both inserted. */
  lemma RepeatInOneBatchIsStoredTwice(i: Item)
    requires i.branch == "north"
    ensures var (s, outcome) := Submit(EMPTY_LEDGER.store, [i, i], "north", "b1");
            outcome.accepted && outcome.inserted == 2 && s.rows == [i, i] && Counter(s.counters, "north", i.event) == 2
  {
    var s0 := EMPTY_LEDGER.store;
    OutOfScopeMeaning([i, i], "north");
    assert [i] + [i] == [i, i] && [i][..0] == [];
    assert NewItems(s0, [i]) == [i];
    NewItemsConcat(s0, [i], [i]);
    assert [] + [i, i] == [i, i];
    EveryRunBalances([]);
    SubmitKeepsSound(s0, [i, i], "north", "b1");
    assert CountsRows(Submit(s0, [i, i], "north", "b1").0, "north", i.event);
    CountRowsConcat([i], [i], "north", i.event);
  }

  lemma {:induction false} NewItemsStayDistinct(s: Store, items: seq<Item>)
    requires DistinctAttendees(items)
    ensures DistinctAttendees(NewItems(s, items))
  {
    if items != [] {
      var init, last := items[..|items| - 1], items[|items| - 1];
      NewItemsStayDistinct(s, init);
      NewItemsMeaning(s, init);
      assert forall i :: i in init ==> UniqueKey(i) != UniqueKey(last);
      DistinctConcat(NewItems(s, init), if KeyUnseen(s, IdempotencyKey(last)) then [last] else []);
    }
  }

  /** When every batch names distinct attendees, no run ever stores an (event, attendee) twice. */
  lemma {:induction false} DistinctBatchesNeverDoubleCount(batches: seq<Batch>)
    requires forall k :: 0 <= k < |batches| ==> DistinctAttendees(batches[k].items)
    ensures DistinctAttendees(Run(EMPTY_LEDGER, batches).store.rows)
  {
    if batches != [] {
      var init, last := batches[..|batches| - 1], batches[|batches| - 1];
      DistinctBatchesNeverDoubleCount(init);
      EveryRunBalances(init);
      var s := Run(EMPTY_LEDGER, init).store;
      if Submit(s, last.items, last.branch, last.batchId).1.accepted {
        NewItemsStayDistinct(s, last.items);
        DistinctAfterSubmit(s, last);
      }
    }
  }

  // ---- branch totals ---------------------------------------------------------------

  function CountBranch(rows: seq<Item>, branch: string): (n: nat)
    ensures n <= |rows|
  {
    if rows == [] then 0
    else CountBranch(rows[..|rows| - 1], branch) + (if rows[|rows| - 1].branch == branch then 1 else 0)
  }

  lemma {:induction false} ZeroCountersTotalZero(counters: map<UKey, int>, branch: string)
    requires forall k :: k in counters ==> counters[k] == 0
    ensures BranchTotal(counters, branch) == 0
    decreases |counters.Keys|
  {
    if counters != map[] {
      var k :| k in counters;
      BranchTotalWithout(counters, branch, k);
      assert |counters.Keys - {k}| == |counters.Keys| - 1;
      ZeroCountersTotalZero(counters - {k}, branch);
    }
  }

  /** The branch total of the maintained counters is the number of rows stored for the branch. */
  lemma {:induction false} BranchTotalCountsRows(counters: map<UKey, int>, rows: seq<Item>, branch: string)
    requires forall b, e {:trigger Counter(counters, b, e)} :: Counter(counters, b, e) == CountRows(rows, b, e)
    ensures BranchTotal(counters, branch) == CountBranch(rows, branch)
    decreases |rows|
  {
    if rows == [] {
      forall k | k in counters ensures counters[k] == 0 { assert Counter(counters, k.0, k.1) == 0; }
      ZeroCountersTotalZero(counters, branch);
    } else {
      var init, last := rows[..|rows| - 1], rows[|rows| - 1];
      var k := (last.branch, last.event);
      assert Counter(counters, k.0, k.1) == CountRows(init, k.0, k.1) + 1;
      var fewer := counters[k := counters[k] - 1];
      forall b, e ensures Counter(fewer, b, e) == CountRows(init, b, e) {
        assert Counter(counters, b, e) == CountRows(rows, b, e);
      }
      BranchTotalCountsRows(fewer, init, branch);
      BranchTotalWithout(counters, branch, k);
      BranchTotalWithout(fewer, branch, k);
      assert fewer - {k} == counters - {k};
    }
  }
}
