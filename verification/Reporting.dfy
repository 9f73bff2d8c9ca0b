/**
 * The bulk attendance write path of `reporting.py`: the in-memory gateway, the service's `submit`,
 * and the store they maintain.
 */
module Reporting {
  import opened Wrappers

  /** The largest batch `bulk_submit` takes, and the chunk size of a leader report. */
  const BULK_BATCH_SIZE: nat := 500

  datatype Item = Item(event: string, attendeeRef: string, branch: string, status: string, source: string,
                       clientReqId: Option<string>, gathering: Option<string>, member: Option<string>,
                       engagementSession: Option<string>, attendeeKey: Option<string>)

  type Key = (string, string, string)
  type UKey = (string, string)

  function UniqueKey(item: Item): UKey {
    (item.event, item.attendeeRef)
  }

  function IdempotencyKey(item: Item): Key {
    (item.event, item.attendeeRef, if Truthy(item.clientReqId) then item.clientReqId.value else item.attendeeRef)
  }

  datatype DomainEvent =
    | BulkRecorded(gathering: string, count: nat, batchId: string, branch: string)
    | BatchRejected(scope: string, batchId: string, rejected: nat, outOfScope: nat)

  /** What the gateway persists; `counters` is the maintained `Event Attendance Summary`. */
  datatype Store = Store(seen: set<Key>, unique: set<UKey>, counters: map<UKey, int>, rows: seq<Item>)

  datatype RejectedItem = RejectedItem(index: nat, attendeeRef: string)

  datatype Outcome = Outcome(batchId: string, branch: string, accepted: bool, inserted: nat, deduplicated: nat,
                             rejected: seq<RejectedItem>, events: seq<DomainEvent>)

  // ---- what one submit does --------------------------------------------------------

  predicate KeyUnseen(s: Store, key: Key) {
    key !in s.seen && (key.0, key.1) !in s.unique
  }

  function NewItems(s: Store, items: seq<Item>): (newItems: seq<Item>)
    ensures |newItems| <= |items|
  {
    if items == [] then []
    else
      var last := items[|items| - 1];
      NewItems(s, items[..|items| - 1]) + (if KeyUnseen(s, IdempotencyKey(last)) then [last] else [])
  }

  function CountEvent(items: seq<Item>, event: string): nat {
    if items == [] then 0
    else CountEvent(items[..|items| - 1], event) + (if items[|items| - 1].event == event then 1 else 0)
  }

  /** The events of a batch, in order of first appearance. */
  function EventsOf(items: seq<Item>): seq<string> {
    if items == [] then []
    else
      var before, event := EventsOf(items[..|items| - 1]), items[|items| - 1].event;
      if event in before then before else before + [event]
  }

  function Counter(counters: map<UKey, int>, branch: string, event: string): int {
    if (branch, event) in counters then counters[(branch, event)] else 0
  }

  function Seeded(counters: map<UKey, int>, branch: string, events: set<string>): map<UKey, int> {
    (map e | e in events :: (branch, e) := 0) + counters
  }

  /** Each event's counter grown by its number of new items. */
  function Tallied(counters: map<UKey, int>, branch: string, events: seq<string>, items: seq<Item>): map<UKey, int> {
    if events == [] then counters
    else
      var last := events[|events| - 1];
      var before := Tallied(counters, branch, events[..|events| - 1], items);
      before[(branch, last) := Counter(before, branch, last) + CountEvent(items, last)]
  }

  function BulkEvents(events: seq<string>, items: seq<Item>, batchId: string, branch: string): seq<DomainEvent> {
    seq(|events|,
        i requires 0 <= i < |events| => BulkRecorded(events[i], CountEvent(items, events[i]), batchId, branch))
  }

  function KeysOf(items: seq<Item>): set<Key> {
    set i | i in items :: IdempotencyKey(i)
  }

  function UniquesOf(items: seq<Item>): set<UKey> {
    set i | i in items :: UniqueKey(i)
  }

  function EventSet(items: seq<Item>): set<string> {
    set i | i in items :: i.event
  }

  function OutOfScope(items: seq<Item>, branch: string): nat {
    if items == [] then 0
    else OutOfScope(items[..|items| - 1], branch) + (if items[|items| - 1].branch != branch then 1 else 0)
  }

  function Receipts(items: seq<Item>): seq<RejectedItem> {
    seq(|items|, i requires 0 <= i < |items| => RejectedItem(i, items[i].attendeeRef))
  }

  /** The store once items are inserted. */
  function Inserted(s: Store, items: seq<Item>): Store {
    Store(s.seen + KeysOf(items), s.unique + UniquesOf(items), s.counters, s.rows + items)
  }

  /** The store once new items are inserted and counted on top of seeded counters. */
  function Recorded(s: Store, newItems: seq<Item>, branch: string): Store {
    Inserted(s, newItems).(counters := Tallied(s.counters, branch, EventsOf(newItems), newItems))
  }

  function Accepted(s: Store, items: seq<Item>, branch: string): Store {
    Recorded(s.(counters := Seeded(s.counters, branch, EventSet(items))), NewItems(s, items), branch)
  }

  /** The receipt of a batch in scope. */
  function AcceptedOutcome(s: Store, items: seq<Item>, branch: string, batchId: string): Outcome {
    var newItems := NewItems(s, items);
    Outcome(batchId, branch, true, |newItems|, |items| - |newItems|, [],
            BulkEvents(EventsOf(newItems), newItems, batchId, branch))
  }

  function Submit(s: Store, items: seq<Item>, branch: string, batchId: string): (Store, Outcome) {
    if OutOfScope(items, branch) > 0 then
      (s, Outcome(batchId, branch, false, 0, 0, Receipts(items),
                  [BatchRejected(branch, batchId, |items|, OutOfScope(items, branch))]))
    else (Accepted(s, items, branch), AcceptedOutcome(s, items, branch, batchId))
  }

  // ---- the imperative gateway and service ------------------------------------------

  lemma KeysOfNext(items: seq<Item>, i: Item)
    ensures KeysOf(items + [i]) == KeysOf(items) + {IdempotencyKey(i)}
    ensures UniquesOf(items + [i]) == UniquesOf(items) + {UniqueKey(i)}
  {
    assert forall j :: j in items + [i] <==> j in items || j == i;
  }

  lemma InsertedNothing(s: Store)
    ensures Inserted(s, []) == s
  {
    assert KeysOf([]) == {} && UniquesOf([]) == {};
  }

  lemma UnionNext<T>(a: set<T>, b: set<T>, x: T)
    ensures a + (b + {x}) == (a + b) + {x}
  {
  }

  lemma InsertedNext(s: Store, items: seq<Item>, i: Item)
    ensures var before := Inserted(s, items);
            Inserted(s, items + [i]) ==
            Store(before.seen + {IdempotencyKey(i)}, before.unique + {UniqueKey(i)}, before.counters, before.rows + [i])
  {
    KeysOfNext(items, i);
    UnionNext(s.seen, KeysOf(items), IdempotencyKey(i));
    UnionNext(s.unique, UniquesOf(items), UniqueKey(i));
    assert s.rows + (items + [i]) == (s.rows + items) + [i];
  }

  lemma SeededNext(counters: map<UKey, int>, branch: string, done: set<string>, event: string)
    ensures var before := Seeded(counters, branch, done);
            Seeded(counters, branch, done + {event}) ==
            if (branch, event) in before then before else before[(branch, event) := 0]
  {
  }

  class InMemoryBulkAttendanceGateway {
    var seen: set<Key>
    var unique: set<UKey>
    var counters: map<UKey, int>
    var insertedItems: seq<Item>
    var publishedEvents: seq<DomainEvent>

    constructor ()
      ensures Contents() == Store({}, {}, map[], []) && publishedEvents == []
    {
      seen, unique, counters, insertedItems, publishedEvents := {}, {}, map[], [], [];
    }

    ghost function Contents(): Store
      reads this
    {
      Store(seen, unique, counters, insertedItems)
    }

    method FilterUnseen(keys: seq<Key>) returns (unseen: set<Key>)
      ensures forall k :: k in unseen <==> k in keys && KeyUnseen(Contents(), k)
    {
      unseen := {};
      for i := 0 to |keys|
        invariant forall k :: k in unseen <==> k in keys[..i] && KeyUnseen(Contents(), k)
      {
        if keys[i] !in seen && (keys[i].0, keys[i].1) !in unique {
          unseen := unseen + {keys[i]};
        }
      }
      assert keys[..|keys|] == keys;
    }

    method BulkInsert(items: seq<Item>) returns (written: nat)
      modifies this`seen, this`unique, this`insertedItems
      ensures written == |items|
      ensures Contents() == Inserted(old(Contents()), items)
    {
      InsertedNothing(Contents());
      for i := 0 to |items|
        invariant Contents() == Inserted(old(Contents()), items[..i])
      {
        InsertedNext(old(Contents()), items[..i], items[i]);
        assert items[..i + 1] == items[..i] + [items[i]];
        seen := seen + {IdempotencyKey(items[i])};
        unique := unique + {UniqueKey(items[i])};
        insertedItems := insertedItems + [items[i]];
      }
      assert items[..|items|] == items;
      return |items|;
    }

    method SeedAggregate(branch: string, events: set<string>)
      modifies this`counters
      ensures counters == Seeded(old(counters), branch, events)
    {
      var todo := events;
      while todo != {}
        invariant todo <= events
        invariant counters == Seeded(old(counters), branch, events - todo)
        decreases todo
      {
        var event :| event in todo;
        SeededNext(old(counters), branch, events - todo, event);
        assert events - (todo - {event}) == events - todo + {event};
        todo := todo - {event};
        if (branch, event) !in counters {
          counters := counters[(branch, event) := 0];
        }
      }
      assert events - {} == events;
    }

    method IncrementAggregate(branch: string, event: string, delta: nat)
      modifies this`counters
      ensures counters == old(counters)[(branch, event) := Counter(old(counters), branch, event) + delta]
    {
      counters :=
          counters[(branch, event) := (if (branch, event) in counters then counters[(branch, event)] else 0) + delta];
    }

    method Aggregate(branch: string, event: string) returns (total: int)
      ensures total == Counter(counters, branch, event)
    {
      total := if (branch, event) in counters then counters[(branch, event)] else 0;
    }

    /** The branch total: every counter of the branch added up. */
    method AggregateBranch(branch: string) returns (total: int)
      ensures total == BranchTotal(counters, branch)
    {
      total := 0;
      var todo := counters;
      while todo != map[]
        invariant total + BranchTotal(todo, branch) == BranchTotal(counters, branch)
        decreases |todo.Keys|
      {
        var k :| k in todo;
        BranchTotalWithout(todo, branch, k);
        total := total + (if k.0 == branch then todo[k] else 0);
        assert |todo.Keys - {k}| == |todo.Keys| - 1;
        todo := todo - {k};
      }
    }

    method Emit(event: DomainEvent)
      modifies this`publishedEvents
      ensures publishedEvents == old(publishedEvents) + [event]
    {
      publishedEvents := publishedEvents + [event];
    }
  }

  class BulkAttendanceService {
    const gateway: InMemoryBulkAttendanceGateway

    constructor (gateway: InMemoryBulkAttendanceGateway)
      ensures this.gateway == gateway
    {
      this.gateway := gateway;
    }

    /** The part of the write transaction that runs when something is new: insert, then count per event. */
    method RecordNew(newItems: seq<Item>, branch: string, batchId: string)
        returns (inserted: nat, events: seq<DomainEvent>)
      modifies gateway
      ensures inserted == |newItems| && events == BulkEvents(EventsOf(newItems), newItems, batchId, branch)
      ensures gateway.Contents() == Recorded(old(gateway.Contents()), newItems, branch)
      ensures gateway.publishedEvents == old(gateway.publishedEvents)
    {
      inserted := gateway.BulkInsert(newItems);
      events := [];
      var byEvent := EventsOf(newItems);
      for i := 0 to |byEvent|
        invariant gateway.counters == Tallied(old(gateway.counters), branch, byEvent[..i], newItems)
        invariant events == BulkEvents(byEvent[..i], newItems, batchId, branch)
        invariant gateway.seen == old(gateway.seen) + KeysOf(newItems)
        invariant gateway.unique == old(gateway.unique) + UniquesOf(newItems)
        invariant gateway.insertedItems == old(gateway.insertedItems) + newItems
        invariant gateway.publishedEvents == old(gateway.publishedEvents)
      {
        assert byEvent[..i + 1][..i] == byEvent[..i];
        var count := CountEvent(newItems, byEvent[i]);
        gateway.IncrementAggregate(branch, byEvent[i], count);
        events := events + [BulkRecorded(byEvent[i], count, batchId, branch)];
      }
      assert byEvent[..|byEvent|] == byEvent;
    }

    method PublishAll(events: seq<DomainEvent>)
      modifies gateway`publishedEvents
      ensures gateway.publishedEvents == old(gateway.publishedEvents) + events
    {
      for i := 0 to |events|
        invariant gateway.publishedEvents == old(gateway.publishedEvents) + events[..i]
      {
        gateway.Emit(events[i]);
        assert events[..i + 1] == events[..i] + [events[i]];
      }
      assert events[..|events|] == events;
    }

    method SelectNew(items: seq<Item>) returns (newItems: seq<Item>)
      ensures newItems == NewItems(gateway.Contents(), items)
    {
      var keys := seq(|items|, i requires 0 <= i < |items| => IdempotencyKey(items[i]));
      var unseen := gateway.FilterUnseen(keys);
      newItems := SelectByKey(items, unseen);
      forall i | 0 <= i < |items|
        ensures IdempotencyKey(items[i]) in unseen <==> KeyUnseen(gateway.Contents(), IdempotencyKey(items[i]))
      {
        assert keys[i] in keys;
      }
      SelectedAreNew(gateway.Contents(), items, unseen);
    }

    /** Seed, then the write transaction: select, insert, count. Nothing is published yet. */
    method WriteBatch(items: seq<Item>, branch: string, batchId: string)
      returns (inserted: nat, deduplicated: nat, events: seq<DomainEvent>)
      modifies gateway
      ensures gateway.Contents() == Accepted(old(gateway.Contents()), items, branch)
      ensures var newItems := NewItems(old(gateway.Contents()), items);
              && inserted == |newItems| && deduplicated == |items| - |newItems|
              && events == BulkEvents(EventsOf(newItems), newItems, batchId, branch)
      ensures gateway.publishedEvents == old(gateway.publishedEvents)
    {
      ghost var before := gateway.Contents();
      gateway.SeedAggregate(branch, EventSet(items));
      var newItems := SelectNew(items);
      SeedingHidesNothing(before, gateway.Contents(), items);
      deduplicated := |items| - |newItems|;
      inserted, events := 0, [];
      if newItems != [] {
        inserted, events := RecordNew(newItems, branch, batchId);
      } else {
        NothingNew(before);
      }
    }

    /** A batch in scope: written, then published. */
    method AcceptBatch(items: seq<Item>, branch: string, batchId: string) returns (outcome: Outcome)
      modifies gateway
      ensures gateway.Contents() == Accepted(old(gateway.Contents()), items, branch)
      ensures outcome == AcceptedOutcome(old(gateway.Contents()), items, branch, batchId)
      ensures gateway.publishedEvents == old(gateway.publishedEvents) + outcome.events
    {
      var inserted, deduplicated, events := WriteBatch(items, branch, batchId);
      ghost var written := gateway.Contents();
      PublishAll(events);
      assert gateway.Contents() == written;
      return Outcome(batchId, branch, true, inserted, deduplicated, [], events);
    }

    method SubmitBatch(items: seq<Item>, branch: string, batchId: string) returns (outcome: Outcome)
      modifies gateway
      ensures (gateway.Contents(), outcome) == Submit(old(gateway.Contents()), items, branch, batchId)
      ensures gateway.publishedEvents == old(gateway.publishedEvents) + outcome.events
    {
      var outOfScope := CountOutOfScope(items, branch);
      if outOfScope > 0 {
        var event := BatchRejected(branch, batchId, |items|, outOfScope);
        gateway.Emit(event);
        return Outcome(batchId, branch, false, 0, 0, Receipts(items), [event]);
      }
      outcome := AcceptBatch(items, branch, batchId);
    }
  }

  lemma {:induction false} SeedingHidesNothing(s: Store, seeded: Store, items: seq<Item>)
    requires seeded.seen == s.seen && seeded.unique == s.unique
    ensures NewItems(seeded, items) == NewItems(s, items)
  {
    if items != [] { SeedingHidesNothing(s, seeded, items[..|items| - 1]); }
  }

  method CountOutOfScope(items: seq<Item>, branch: string) returns (n: nat)
    ensures n == OutOfScope(items, branch)
  {
    n := 0;
    for i := 0 to |items|
      invariant n == OutOfScope(items[..i], branch)
    {
      assert items[..i + 1][..i] == items[..i];
      if items[i].branch != branch { n := n + 1; }
    }
    assert items[..|items|] == items;
  }

  function SelectByKey(items: seq<Item>, keys: set<Key>): seq<Item> {
    if items == [] then []
    else
      var last := items[|items| - 1];
      SelectByKey(items[..|items| - 1], keys) + (if IdempotencyKey(last) in keys then [last] else [])
  }

  lemma {:induction false} SelectedAreNew(s: Store, items: seq<Item>, keys: set<Key>)
    requires forall i :: 0 <= i < |items| ==>
             (IdempotencyKey(items[i]) in keys <==> KeyUnseen(s, IdempotencyKey(items[i])))
    ensures SelectByKey(items, keys) == NewItems(s, items)
  {
    if items != [] { SelectedAreNew(s, items[..|items| - 1], keys); }
  }

  lemma NothingNew(s: Store)
    ensures KeysOf([]) == {} && UniquesOf([]) == {} && EventsOf([]) == []
    ensures s.rows + [] == s.rows && s.seen + {} == s.seen && s.unique + {} == s.unique
  {
  }

  // ---- branch totals ---------------------------------------------------------------

  ghost function BranchTotal(counters: map<UKey, int>, branch: string): int
    decreases |counters.Keys|
  {
    if counters == map[] then 0
    else
      var k :| k in counters;
      assert |counters.Keys - {k}| == |counters.Keys| - 1;
      (if k.0 == branch then counters[k] else 0) + BranchTotal(counters - {k}, branch)
  }

  /** The order in which counters are added does not matter. */
  lemma {:induction false} BranchTotalWithout(counters: map<UKey, int>, branch: string, k: UKey)
    requires k in counters
    ensures BranchTotal(counters, branch) == (if k.0 == branch then counters[k] else 0)
            + BranchTotal(counters - {k}, branch)
    decreases |counters.Keys|
  {
    var j :| j in counters && BranchTotal(counters, branch) ==
                              (if j.0 == branch then counters[j] else 0) + BranchTotal(counters - {j}, branch);
    if j != k {
      assert |counters.Keys - {j}| == |counters.Keys| - 1 && |counters.Keys - {k}| == |counters.Keys| - 1;
      BranchTotalWithout(counters - {j}, branch, k);
      BranchTotalWithout(counters - {k}, branch, j);
      assert counters - {j} - {k} == counters - {k} - {j};
    }
  }
}
