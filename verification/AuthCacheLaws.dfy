/** What the cache means over a whole run: a TTL map, bounded by least recent use. */
module AuthCacheLaws {
  import opened Wrappers
  import opened AuthCache

  datatype Op = Get(key: string, at: int) | Set(key: string, value: Identity, at: int) | Clear

  /** What happened: every operation with its outcome. */
  datatype Event = Hit(key: string, at: int) | Miss(key: string, at: int)
      | Store(key: string, value: Identity, at: int) | Cleared

  datatype State = State(entries: seq<Entry>, log: seq<Event>)

  function Apply(s: State, op: Op, ttl: int, max: int): State {
    match op
    case Get(key, at) =>
      var (entries, hit) := Looked(s.entries, key, at);
      State(entries, s.log + [if hit.Some? then Hit(key, at) else Miss(key, at)])
    case Set(key, value, at) => State(Stored(s.entries, key, value, at + ttl, max), s.log + [Store(key, value, at)])
    case Clear => State([], s.log + [Cleared])
  }

  function Run(ops: seq<Op>, ttl: int, max: int): State {
    if ops == [] then State([], []) else Apply(Run(ops[..|ops| - 1], ttl, max), ops[|ops| - 1], ttl, max)
  }

  // ---- readings of the log ---------------------------------------------------------

  /** The identity last stored for a key since the last clear, and when. */
  function LastStored(log: seq<Event>, key: string): Option<(Identity, int)> {
    if log == [] then None
    else
      var last := log[|log| - 1];
      if last.Store? && last.key == key then Some((last.value, last.at))
      else if last.Cleared? then None
      else LastStored(log[..|log| - 1], key)
  }

  predicate Uses(e: Event) {
    e.Hit? || e.Store?
  }

  /** The other keys stored or hit since the key itself last was. */
  function OthersSince(log: seq<Event>, key: string): set<string> {
    if log == [] then {}
    else
      var last := log[|log| - 1];
      if last.Cleared? || (Uses(last) && last.key == key) then {}
      else OthersSince(log[..|log| - 1], key) + (if Uses(last) then {last.key} else {})
  }

  /** The clock has shown `t` or later. */
  predicate Reached(log: seq<Event>, t: int) {
    log != [] && ((!log[|log| - 1].Cleared? && log[|log| - 1].at >= t) || Reached(log[..|log| - 1], t))
  }

  // ---- the invariant ---------------------------------------------------------------

  function Capacity(max: int): int {
    Room(max) + 1
  }

  /** `e` carries the identity last stored for its key, and expires one TTL after that. */
  ghost predicate Current(log: seq<Event>, e: Entry, ttl: int) {
    LastStored(log, e.key) == Some((e.value, e.exp - ttl))
  }

  /** `f` was used after `e` last was, and not the other way round. */
  ghost predicate UsedAfter(log: seq<Event>, e: Entry, f: Entry) {
    e.key != f.key && f.key in OthersSince(log, e.key) && e.key !in OthersSince(log, f.key)
  }

  ghost predicate Newest(log: seq<Event>, entries: seq<Entry>, f: Entry) {
    forall e :: e in entries ==> UsedAfter(log, e, f)
  }

  /** Each entry was used after all those before it. */
  ghost predicate InUseOrder(log: seq<Event>, entries: seq<Entry>) {
    entries == []
        || (var init := entries[..|entries| - 1]; InUseOrder(log, init) && Newest(log, init, entries[|entries| - 1]))
  }

  ghost predicate AllCurrent(log: seq<Event>, entries: seq<Entry>, ttl: int) {
    forall e :: e in entries ==> Current(log, e, ttl)
  }

  /** The key is not stored, or others crowded it out, or its time came. */
  ghost predicate Gone(log: seq<Event>, key: string, ttl: int, max: int) {
    var stored := LastStored(log, key);
    stored.None? || |OthersSince(log, key)| >= Capacity(max) || Reached(log, stored.value.1 + ttl)
  }

  /** A stored key is present unless it has expired or enough others were used since. */
  ghost predicate Accounted(s: State, key: string, ttl: int, max: int) {
    Find(s.entries, key).Some? || Gone(s.log, key, ttl, max)
  }

  ghost predicate Inv(s: State, ttl: int, max: int) {
    && |s.entries| <= Capacity(max)
    && AllCurrent(s.log, s.entries, ttl) && InUseOrder(s.log, s.entries)
    && forall key {:trigger Accounted(s, key, ttl, max)} :: Accounted(s, key, ttl, max)
  }

  // ---- the list operations ---------------------------------------------------------

  lemma {:induction false} WithoutMeaning(entries: seq<Entry>, key: string, e: Entry)
    ensures e in Without(entries, key) <==> e in entries && e.key != key
  {
    if entries != [] {
      var init, last := entries[..|entries| - 1], entries[|entries| - 1];
      assert entries == init + [last];
      WithoutMeaning(init, key, e);
    }
  }

  lemma {:induction false} WithoutShrinks(entries: seq<Entry>, key: string)
    ensures |Without(entries, key)| <= |entries|
    ensures Find(entries, key).Some? ==> |Without(entries, key)| < |entries|
  {
    if entries != [] { WithoutShrinks(entries[..|entries| - 1], key); }
  }

  lemma {:induction false} WithoutKeepsOrder(log: seq<Event>, entries: seq<Entry>, key: string)
    requires InUseOrder(log, entries)
    ensures InUseOrder(log, Without(entries, key))
  {
    if entries != [] {
      var init, last := entries[..|entries| - 1], entries[|entries| - 1];
      WithoutKeepsOrder(log, init, key);
      forall e | e in Without(init, key) ensures UsedAfter(log, e, last) { WithoutMeaning(init, key, e); }
      assert (Without(init, key) + [last])[..|Without(init, key)|] == Without(init, key);
      assert Without(init, key) + [] == Without(init, key);
    }
  }

  lemma {:induction false} DropKeepsOrder(log: seq<Event>, entries: seq<Entry>, n: nat)
    requires n <= |entries| && InUseOrder(log, entries)
    ensures InUseOrder(log, entries[n..])
  {
    if n < |entries| {
      var init, last := entries[..|entries| - 1], entries[|entries| - 1];
      DropKeepsOrder(log, init, n);
      assert entries[n..][..|entries| - n - 1] == init[n..];
      assert forall e :: e in init[n..] ==> e in init;
    }
  }

  // ---- one more event --------------------------------------------------------------

  lemma LogOne(log: seq<Event>, ev: Event)
    ensures (log + [ev])[..|log + [ev]| - 1] == log && (log + [ev])[|log + [ev]| - 1] == ev
  {
  }

  /** A use of another key. */
  lemma OthersGrow(log: seq<Event>, ev: Event, key: string)
    requires Uses(ev) && ev.key != key
    ensures OthersSince(log + [ev], key) == OthersSince(log, key) + {ev.key}
  {
    LogOne(log, ev);
  }

  lemma MissUsesNothing(log: seq<Event>, ev: Event, key: string)
    requires ev.Miss?
    ensures OthersSince(log + [ev], key) == OthersSince(log, key) && LastStored(log + [ev], key) == LastStored(log, key)
  {
    LogOne(log, ev);
  }

  lemma {:induction false} OrderSurvives(log: seq<Event>, ev: Event, entries: seq<Entry>)
    requires InUseOrder(log, entries) && !ev.Cleared?
    requires Uses(ev) ==> forall e :: e in entries ==> e.key != ev.key
    ensures InUseOrder(log + [ev], entries)
  {
    if entries != [] {
      var init, last := entries[..|entries| - 1], entries[|entries| - 1];
      OrderSurvives(log, ev, init);
      forall e | e in init ensures UsedAfter(log + [ev], e, last) {
        assert last in entries;
        if Uses(ev) {
          OthersGrow(log, ev, e.key);
          OthersGrow(log, ev, last.key);
        } else {
          MissUsesNothing(log, ev, e.key);
          MissUsesNothing(log, ev, last.key);
        }
      }
    }
  }

  /** Using a key and putting it last keeps the order. */
  lemma UseGoesLast(log: seq<Event>, ev: Event, entries: seq<Entry>, f: Entry)
    requires InUseOrder(log, entries) && Uses(ev) && ev.key == f.key
    requires forall e :: e in entries ==> e.key != f.key
    ensures InUseOrder(log + [ev], entries + [f])
  {
    OrderSurvives(log, ev, entries);
    LogOne(log, ev);
    forall e | e in entries ensures UsedAfter(log + [ev], e, f) { OthersGrow(log, ev, e.key); }
    assert (entries + [f])[..|entries|] == entries;
  }

  // ---- counting those used since ---------------------------------------------------

  lemma {:induction false} SubsetIsSmaller(a: set<string>, b: set<string>)
    requires a <= b
    ensures |a| <= |b|
  {
    if a != {} {
      var x :| x in a;
      SubsetIsSmaller(a - {x}, b - {x});
    }
  }

  /** Every entry behind `i` was used since entry `i` was. */
  lemma {:induction false} UsedBehind(log: seq<Event>, entries: seq<Entry>, i: nat) returns (keys: set<string>)
    requires InUseOrder(log, entries) && i < |entries|
    ensures |keys| == |entries| - 1 - i && keys <= OthersSince(log, entries[i].key)
    ensures forall k :: k in keys ==> exists e :: e in entries && e.key == k
  {
    var init, last := entries[..|entries| - 1], entries[|entries| - 1];
    assert entries == init + [last];
    if i == |init| {
      keys := {};
    } else {
      var before := UsedBehind(log, init, i);
      assert init[i] in init;
      forall k | k in before ensures k != last.key {
        var e :| e in init && e.key == k;
        assert UsedAfter(log, e, last);
      }
      keys := before + {last.key};
      assert last in entries;
    }
  }

  // ---- every operation keeps the invariant -----------------------------------------

  lemma FindIn(entries: seq<Entry>, key: string, e: Entry)
    requires e in entries && e.key == key
    ensures Find(entries, key).Some?
  {
  }

  lemma {:induction false} LastIsNewest(entries: seq<Entry>, f: Entry)
    ensures Find(entries + [f], f.key) == Some(f)
  {
    assert (entries + [f])[..|entries|] == entries;
  }

  /** What is gone stays gone until the key is stored again. */
  lemma GoneStays(log: seq<Event>, ev: Event, key: string, ttl: int, max: int)
    requires Gone(log, key, ttl, max) && !(Uses(ev) && ev.key == key) && !ev.Cleared?
    ensures Gone(log + [ev], key, ttl, max)
  {
    LogOne(log, ev);
    if Uses(ev) {
      OthersGrow(log, ev, key);
      SubsetIsSmaller(OthersSince(log, key), OthersSince(log + [ev], key));
    } else {
      MissUsesNothing(log, ev, key);
    }
  }

  lemma StaysFound(entries: seq<Entry>, without: string, key: string)
    requires Find(entries, key).Some? && key != without
    ensures Find(Without(entries, without), key).Some?
  {
    var e := Find(entries, key).value;
    WithoutMeaning(entries, without, e);
    FindIn(Without(entries, without), key, e);
  }

  lemma FoundGrows(entries: seq<Entry>, f: Entry, key: string)
    requires Find(entries, key).Some?
    ensures Find(entries + [f], key).Some?
  {
    FindIn(entries + [f], key, Find(entries, key).value);
  }

  lemma MissKeepsCurrent(log: seq<Event>, ev: Event, entries: seq<Entry>, ttl: int)
    requires AllCurrent(log, entries, ttl) && ev.Miss?
    ensures AllCurrent(log + [ev], entries, ttl)
  {
    forall e | e in entries ensures Current(log + [ev], e, ttl) {
      MissUsesNothing(log, ev, e.key);
      assert Current(log, e, ttl);
    }
  }

  lemma NothingFoundKeepsInv(s: State, key: string, at: int, ttl: int, max: int)
    requires Inv(s, ttl, max) && Find(s.entries, key).None?
    ensures Inv(Apply(s, Get(key, at), ttl, max), ttl, max)
  {
    var ev, s' := Miss(key, at), Apply(s, Get(key, at), ttl, max);
    MissKeepsCurrent(s.log, ev, s.entries, ttl);
    OrderSurvives(s.log, ev, s.entries);
    forall k ensures Accounted(s', k, ttl, max) {
      assert Accounted(s, k, ttl, max);
      if Find(s.entries, k).None? { GoneStays(s.log, ev, k, ttl, max); }
    }
  }

  lemma ExpiredIsGone(log: seq<Event>, e: Entry, at: int, ttl: int, max: int)
    requires Current(log, e, ttl) && e.exp <= at
    ensures Gone(log + [Miss(e.key, at)], e.key, ttl, max)
  {
    LogOne(log, Miss(e.key, at));
    MissUsesNothing(log, Miss(e.key, at), e.key);
  }

  lemma ExpiryAccounts(s: State, e: Entry, at: int, k: string, ttl: int, max: int)
    requires Accounted(s, k, ttl, max) && Current(s.log, e, ttl) && e.exp <= at
    ensures Accounted(State(Without(s.entries, e.key), s.log + [Miss(e.key, at)]), k, ttl, max)
  {
    if k == e.key {
      ExpiredIsGone(s.log, e, at, ttl, max);
    } else if Find(s.entries, k).Some? {
      StaysFound(s.entries, e.key, k);
    } else {
      GoneStays(s.log, Miss(e.key, at), k, ttl, max);
    }
  }

  lemma ExpiryKeepsInv(s: State, key: string, at: int, ttl: int, max: int)
    requires Inv(s, ttl, max) && Find(s.entries, key).Some? && Find(s.entries, key).value.exp <= at
    ensures Inv(Apply(s, Get(key, at), ttl, max), ttl, max)
  {
    var ev, s' := Miss(key, at), Apply(s, Get(key, at), ttl, max);
    WithoutShrinks(s.entries, key);
    WithoutIsCurrent(s.log, s.entries, key, ttl);
    MissKeepsCurrent(s.log, ev, s'.entries, ttl);
    WithoutKeepsOrder(s.log, s.entries, key);
    OrderSurvives(s.log, ev, s'.entries);
    forall k ensures Accounted(s', k, ttl, max) { ExpiryAccounts(s, Find(s.entries, key).value, at, k, ttl, max); }
  }

  lemma WithoutIsCurrent(log: seq<Event>, entries: seq<Entry>, key: string, ttl: int)
    requires AllCurrent(log, entries, ttl)
    ensures AllCurrent(log, Without(entries, key), ttl)
    ensures forall e :: e in Without(entries, key) ==> e.key != key
  {
    forall e | e in Without(entries, key) ensures Current(log, e, ttl) && e.key != key {
      WithoutMeaning(entries, key, e);
    }
  }

  /** After a use of another key, an entry is as current as before. */
  lemma OtherUseKeepsCurrent(log: seq<Event>, ev: Event, entries: seq<Entry>, ttl: int)
    requires AllCurrent(log, entries, ttl) && Uses(ev) && forall e :: e in entries ==> e.key != ev.key
    ensures AllCurrent(log + [ev], entries, ttl)
  {
    LogOne(log, ev);
    forall e | e in entries ensures Current(log + [ev], e, ttl) { assert Current(log, e, ttl); }
  }

  lemma CurrentGrows(log: seq<Event>, entries: seq<Entry>, f: Entry, ttl: int)
    requires AllCurrent(log, entries, ttl) && Current(log, f, ttl)
    ensures AllCurrent(log, entries + [f], ttl)
  {
  }

  /** A used key goes last, current and in order. */
  lemma UsePutsLast(log: seq<Event>, ev: Event, rest: seq<Entry>, f: Entry, ttl: int)
    requires InUseOrder(log, rest) && AllCurrent(log, rest, ttl) && forall e :: e in rest ==> e.key != f.key
    requires Uses(ev) && ev.key == f.key && Current(log + [ev], f, ttl)
    ensures InUseOrder(log + [ev], rest + [f]) && AllCurrent(log + [ev], rest + [f], ttl)
  {
    OtherUseKeepsCurrent(log, ev, rest, ttl);
    CurrentGrows(log + [ev], rest, f, ttl);
    UseGoesLast(log, ev, rest, f);
  }

  lemma HitStaysCurrent(log: seq<Event>, e: Entry, at: int, ttl: int)
    requires Current(log, e, ttl)
    ensures Current(log + [Hit(e.key, at)], e, ttl)
  {
    LogOne(log, Hit(e.key, at));
  }

  lemma HitAccounts(s: State, e: Entry, at: int, k: string, ttl: int, max: int)
    requires Accounted(s, k, ttl, max)
    ensures Accounted(State(Without(s.entries, e.key) + [e], s.log + [Hit(e.key, at)]), k, ttl, max)
  {
    var rest := Without(s.entries, e.key);
    if k == e.key {
      LastIsNewest(rest, e);
    } else if Find(s.entries, k).Some? {
      StaysFound(s.entries, e.key, k);
      FoundGrows(rest, e, k);
    } else {
      GoneStays(s.log, Hit(e.key, at), k, ttl, max);
    }
  }

  lemma HitKeepsInv(s: State, key: string, at: int, ttl: int, max: int)
    requires Inv(s, ttl, max) && Find(s.entries, key).Some? && Find(s.entries, key).value.exp > at
    ensures Inv(Apply(s, Get(key, at), ttl, max), ttl, max)
  {
    var e := Find(s.entries, key).value;
    WithoutShrinks(s.entries, key);
    WithoutIsCurrent(s.log, s.entries, key, ttl);
    WithoutKeepsOrder(s.log, s.entries, key);
    HitStaysCurrent(s.log, e, at, ttl);
    UsePutsLast(s.log, Hit(key, at), Without(s.entries, key), e, ttl);
    forall k ensures Accounted(Apply(s, Get(key, at), ttl, max), k, ttl, max) { HitAccounts(s, e, at, k, ttl, max); }
  }

  /** An entry evicted to make room has been crowded out by as many distinct keys as the cache holds. */
  lemma EvictedIsGone(log: seq<Event>, rest: seq<Entry>, ev: Event, i: nat, ttl: int, max: int)
    requires InUseOrder(log, rest) && Uses(ev) && forall e :: e in rest ==> e.key != ev.key
    requires i < |rest| - |Evicted(rest, max)|
    ensures Gone(log + [ev], rest[i].key, ttl, max)
  {
    var k := rest[i].key;
    assert rest[i] in rest;
    var behind := UsedBehind(log, rest, i);
    assert ev.key !in behind;
    OthersGrow(log, ev, k);
    SubsetIsSmaller(behind + {ev.key}, OthersSince(log + [ev], k));
  }

  lemma KeptOrGone(log: seq<Event>, rest: seq<Entry>, ev: Event, key: string, ttl: int, max: int)
    requires InUseOrder(log, rest) && Uses(ev) && (forall e :: e in rest ==> e.key != ev.key) && Find(rest, key).Some?
    ensures Find(Evicted(rest, max), key).Some? || Gone(log + [ev], key, ttl, max)
  {
    var e, kept := Find(rest, key).value, Evicted(rest, max);
    var i :| 0 <= i < |rest| && rest[i] == e;
    if i < |rest| - |kept| {
      EvictedIsGone(log, rest, ev, i, ttl, max);
    } else {
      assert kept[i - (|rest| - |kept|)] == e;
      FindIn(kept, key, e);
    }
  }

  lemma StoredIsCurrent(log: seq<Event>, f: Entry, ttl: int)
    ensures Current(log + [Store(f.key, f.value, f.exp - ttl)], f, ttl)
  {
    LogOne(log, Store(f.key, f.value, f.exp - ttl));
  }

  lemma EvictionKeepsOrder(log: seq<Event>, rest: seq<Entry>, ttl: int, max: int)
    requires InUseOrder(log, rest) && AllCurrent(log, rest, ttl)
    ensures InUseOrder(log, Evicted(rest, max)) && AllCurrent(log, Evicted(rest, max), ttl)
    ensures forall e :: e in Evicted(rest, max) ==> e in rest
  {
    DropKeepsOrder(log, rest, |rest| - |Evicted(rest, max)|);
    assert Evicted(rest, max) == rest[|rest| - |Evicted(rest, max)|..];
  }

  lemma FoundOrGone(log: seq<Event>, entries: seq<Entry>, f: Entry, ev: Event, k: string, ttl: int, max: int)
    requires InUseOrder(log, entries) && Find(entries, k).Some? && k != f.key && Uses(ev) && ev.key == f.key
    ensures Find(Evicted(Without(entries, f.key), max) + [f], k).Some? || Gone(log + [ev], k, ttl, max)
  {
    var rest := Without(entries, f.key);
    WithoutKeepsOrder(log, entries, f.key);
    forall e | e in rest ensures e.key != f.key { WithoutMeaning(entries, f.key, e); }
    StaysFound(entries, f.key, k);
    KeptOrGone(log, rest, ev, k, ttl, max);
    if Find(Evicted(rest, max), k).Some? { FoundGrows(Evicted(rest, max), f, k); }
  }

  lemma SetAccounts(s: State, f: Entry, at: int, k: string, ttl: int, max: int)
    requires Accounted(s, k, ttl, max) && InUseOrder(s.log, s.entries)
    ensures Accounted(State(Evicted(Without(s.entries, f.key), max) + [f], s.log + [Store(f.key, f.value, at)]), k,
                      ttl, max)
  {
    var ev := Store(f.key, f.value, at);
    if k == f.key {
      LastIsNewest(Evicted(Without(s.entries, f.key), max), f);
    } else if Find(s.entries, k).Some? {
      FoundOrGone(s.log, s.entries, f, ev, k, ttl, max);
    } else {
      GoneStays(s.log, ev, k, ttl, max);
    }
  }

  lemma SetKeepsInv(s: State, key: string, value: Identity, at: int, ttl: int, max: int)
    requires Inv(s, ttl, max)
    ensures Inv(Apply(s, Set(key, value, at), ttl, max), ttl, max)
  {
    var f, rest := Entry(key, value, at + ttl), Without(s.entries, key);
    WithoutIsCurrent(s.log, s.entries, key, ttl);
    WithoutKeepsOrder(s.log, s.entries, key);
    EvictionKeepsOrder(s.log, rest, ttl, max);
    StoredIsCurrent(s.log, f, ttl);
    UsePutsLast(s.log, Store(key, value, at), Evicted(rest, max), f, ttl);
    forall k ensures Accounted(Apply(s, Set(key, value, at), ttl, max), k, ttl, max) {
      SetAccounts(s, f, at, k, ttl, max);
    }
  }

  lemma ClearKeepsInv(s: State, ttl: int, max: int)
    ensures Inv(Apply(s, Clear, ttl, max), ttl, max)
  {
    var s' := Apply(s, Clear, ttl, max);
    LogOne(s.log, Cleared);
    forall k ensures Accounted(s', k, ttl, max) {}
  }

  lemma ApplyKeepsInv(s: State, op: Op, ttl: int, max: int)
    requires Inv(s, ttl, max)
    ensures Inv(Apply(s, op, ttl, max), ttl, max)
  {
    match op
    case Get(key, at) =>
      if Find(s.entries, key).None? {
        NothingFoundKeepsInv(s, key, at, ttl, max);
      } else if Find(s.entries, key).value.exp <= at {
        ExpiryKeepsInv(s, key, at, ttl, max);
      } else {
        HitKeepsInv(s, key, at, ttl, max);
      }
    case Set(key, value, at) => SetKeepsInv(s, key, value, at, ttl, max);
    case Clear => ClearKeepsInv(s, ttl, max);
  }

  lemma {:induction false} RunKeepsInv(ops: seq<Op>, ttl: int, max: int)
    ensures Inv(Run(ops, ttl, max), ttl, max)
  {
    if ops == [] {
      forall k ensures Accounted(State([], []), k, ttl, max) {}
    } else {
      RunKeepsInv(ops[..|ops| - 1], ttl, max);
      ApplyKeepsInv(Run(ops[..|ops| - 1], ttl, max), ops[|ops| - 1], ttl, max);
    }
  }

  // ---- what a caller sees ----------------------------------------------------------

  /** The cache never holds more than `max` entries (one, when `max` is not positive), ordered by last use. */
  lemma SizeAndOrder(ops: seq<Op>, ttl: int, max: int, i: nat, j: nat)
    ensures var s := Run(ops, ttl, max);
            && |s.entries| <= (if max >= 1 then max else 1)
            && (i < j < |s.entries| ==> UsedAfter(s.log, s.entries[i], s.entries[j]))
  {
    RunKeepsInv(ops, ttl, max);
    var s := Run(ops, ttl, max);
    if i < j < |s.entries| { OrderPairwise(s.log, s.entries, i, j); }
  }

  lemma {:induction false} OrderPairwise(log: seq<Event>, entries: seq<Entry>, i: nat, j: nat)
    requires InUseOrder(log, entries) && i < j < |entries|
    ensures UsedAfter(log, entries[i], entries[j])
  {
    var init := entries[..|entries| - 1];
    if j == |entries| - 1 { assert init[i] in init; } else { OrderPairwise(log, init, i, j); }
  }

  /** A hit replays the identity last stored for that very key, less than one TTL ago. */
  lemma HitIsCurrent(ops: seq<Op>, ttl: int, max: int, key: string, now: int)
    requires Looked(Run(ops, ttl, max).entries, key, now).1.Some?
    ensures var e := Looked(Run(ops, ttl, max).entries, key, now).1.value;
            exists t0 :: LastStored(Run(ops, ttl, max).log, key) == Some((e.value, t0)) && now < t0 + ttl
  {
    RunKeepsInv(ops, ttl, max);
    var s := Run(ops, ttl, max);
    assert Current(s.log, Find(s.entries, key).value, ttl);
  }

  /**
   * Stored at `t0`, unexpired at `now` and ever since, and fewer distinct other keys used since than
   * the cache holds.
   */
  ghost predicate Recent(log: seq<Event>, key: string, value: Identity, t0: int, now: int, ttl: int, max: int) {
    && LastStored(log, key) == Some((value, t0)) && now < t0 + ttl && !Reached(log, t0 + ttl)
    && |OthersSince(log, key)| < (if max >= 1 then max else 1)
  }

  /**
   * A stored key is hit, with its identity, while it is unexpired, the clock has not yet shown its
   * expiry, and fewer distinct other keys than the cache holds were used since it last was.
   */
  lemma RecentKeyIsHit(ops: seq<Op>, ttl: int, max: int, key: string, now: int, value: Identity, t0: int)
    requires Recent(Run(ops, ttl, max).log, key, value, t0, now, ttl, max)
    ensures Looked(Run(ops, ttl, max).entries, key, now).1 == Some(Entry(key, value, t0 + ttl))
  {
    RunKeepsInv(ops, ttl, max);
    PresentIsHit(Run(ops, ttl, max), ttl, max, key, now, value, t0);
  }

  lemma PresentIsHit(s: State, ttl: int, max: int, key: string, now: int, value: Identity, t0: int)
    requires Inv(s, ttl, max) && Recent(s.log, key, value, t0, now, ttl, max)
    ensures Looked(s.entries, key, now).1 == Some(Entry(key, value, t0 + ttl))
  {
    assert Accounted(s, key, ttl, max);
    assert Current(s.log, Find(s.entries, key).value, ttl);
  }

  // ---- the middleware --------------------------------------------------------------

  /** What reaches the cache: a connection, or the answer of the original authentication to an earlier miss. */
  datatype Turn = Arrival(key: Option<string>, at: int) | Answered(failed: bool, identity: Identity, at: int)

  /** The cache operation a turn makes, as `Arrive` and `Answer` do. */
  function Ops(turns: seq<Turn>): seq<Op> {
    if turns == [] then []
    else Ops(turns[..|turns| - 1]) + OpOf(turns[|turns| - 1])
  }

  function OpOf(turn: Turn): seq<Op> {
    match turn
    case Arrival(key, at) => if Truthy(key) then [Get(key.value, at)] else []
    case Answered(failed, identity, at) => if Stores(failed, identity) then [Set(StoreKey(identity), identity, at)]
                                           else []
  }

  /** Whatever is stored was resolved for a user, and for the very key it is stored under. */
  ghost predicate OwnKeys(log: seq<Event>) {
    forall key {:trigger LastStored(log, key)} ::
      LastStored(log, key).Some? ==>
        StoreKey(LastStored(log, key).value.0) == key && LastStored(log, key).value.0.user != ""
  }

  lemma ApplyKeepsOwnKeys(s: State, op: Op, ttl: int, max: int)
    requires OwnKeys(s.log) && (op.Set? ==> op.key == StoreKey(op.value) && op.value.user != "")
    ensures OwnKeys(Apply(s, op, ttl, max).log)
  {
    var s' := Apply(s, op, ttl, max);
    assert s'.log[..|s.log|] == s.log;
    forall key | LastStored(s'.log, key).Some?
      ensures StoreKey(LastStored(s'.log, key).value.0) == key && LastStored(s'.log, key).value.0.user != ""
    {
      assert LastStored(s.log, key).None? || LastStored(s.log, key).Some?;
    }
  }

  lemma RunOne(ops: seq<Op>, op: Op, ttl: int, max: int)
    ensures Run(ops + [op], ttl, max) == Apply(Run(ops, ttl, max), op, ttl, max)
  {
    assert (ops + [op])[..|ops|] == ops;
  }

  lemma OneOp(turn: Turn) returns (op: Op)
    requires OpOf(turn) != []
    ensures OpOf(turn) == [op] && (op.Set? ==> op.key == StoreKey(op.value) && op.value.user != "")
  {
    op := OpOf(turn)[0];
  }

  lemma {:induction false} TurnsKeepOwnKeys(turns: seq<Turn>, ttl: int, max: int)
    ensures OwnKeys(Run(Ops(turns), ttl, max).log)
  {
    if turns != [] {
      var init, last := turns[..|turns| - 1], turns[|turns| - 1];
      TurnsKeepOwnKeys(init, ttl, max);
      if OpOf(last) == [] {
        assert Ops(turns) == Ops(init) + [] == Ops(init);
      } else {
        var op := OneOp(last);
        assert Ops(turns) == Ops(init) + [op];
        RunOne(Ops(init), op, ttl, max);
        ApplyKeepsOwnKeys(Run(Ops(init), ttl, max), op, ttl, max);
      }
    }
  }

  /**
   * In every run of the middleware an identity replayed to a connection is one the original authentication
   * resolved, for a user, under exactly the key the connection presents, less than one TTL ago.
   */
  lemma ReplayIsOwnIdentity(turns: seq<Turn>, ttl: int, max: int, key: string, now: int)
    requires Looked(Run(Ops(turns), ttl, max).entries, key, now).1.Some?
    ensures var identity := Looked(Run(Ops(turns), ttl, max).entries, key, now).1.value.value;
            && key == (if identity.sid != "" then identity.sid else identity.authorizationHeader)
            && identity.user != ""
            && exists t0 :: LastStored(Run(Ops(turns), ttl, max).log, key) == Some((identity, t0)) && now < t0 + ttl
  {
    TurnsKeepOwnKeys(turns, ttl, max);
    HitIsCurrent(Ops(turns), ttl, max, key, now);
  }

  lemma LastIsFound(entries: seq<Entry>, e: Entry)
    ensures Find(entries + [e], e.key) == Some(e)
  {
  }

  lemma OneMoreAnswer(turns: seq<Turn>, failed: bool, identity: Identity, at: int)
    ensures Ops(turns + [Answered(failed, identity, at)]) == Ops(turns) + OpOf(Answered(failed, identity, at))
  {
    assert (turns + [Answered(failed, identity, at)])[..|turns|] == turns;
  }

  lemma StoredIsLooked(entries: seq<Entry>, key: string, identity: Identity, exp: int, max: int, now: int)
    requires now < exp
    ensures Looked(Stored(entries, key, identity, exp, max), key, now).1 == Some(Entry(key, identity, exp))
  {
    LastIsFound(Evicted(Without(entries, key), max), Entry(key, identity, exp));
  }

  lemma AppliedSetIsLooked(s: State, key: string, identity: Identity, at: int, ttl: int, max: int, now: int)
    requires now < at + ttl
    ensures Looked(Apply(s, Set(key, identity, at), ttl, max).entries, key, now).1 ==
            Some(Entry(key, identity, at + ttl))
  {
    StoredIsLooked(s.entries, key, identity, at + ttl, max, now);
  }

  lemma SetIsLooked(ops: seq<Op>, key: string, identity: Identity, at: int, ttl: int, max: int, now: int)
    requires now < at + ttl
    ensures Looked(Run(ops + [Set(key, identity, at)], ttl, max).entries, key, now).1 ==
            Some(Entry(key, identity, at + ttl))
  {
    RunOne(ops, Set(key, identity, at), ttl, max);
    AppliedSetIsLooked(Run(ops, ttl, max), key, identity, at, ttl, max, now);
  }

  /**
   * An identity the original authentication resolves for a user is replayed to the next connection that
   * presents its sid, or its authorization if it has none, until one TTL later.
   */
  lemma AnswerIsReplayed(turns: seq<Turn>, identity: Identity, at: int, ttl: int, max: int, key: string, now: int)
    requires identity.user != "" && key != "" && now < at + ttl
    requires key == if identity.sid != "" then identity.sid else identity.authorizationHeader
    ensures Looked(Run(Ops(turns + [Answered(false, identity, at)]), ttl, max).entries, key, now).1 ==
            Some(Entry(key, identity, at + ttl))
  {
    OneMoreAnswer(turns, false, identity, at);
    assert OpOf(Answered(false, identity, at)) == [Set(key, identity, at)];
    SetIsLooked(Ops(turns), key, identity, at, ttl, max, now);
  }

  /** An answer that failed, resolved no user or has no key leaves the cache as it was. */
  lemma OtherAnswersStoreNothing(turns: seq<Turn>, failed: bool, identity: Identity, at: int, ttl: int, max: int)
    requires failed || identity.user == "" || (identity.sid == "" && identity.authorizationHeader == "")
    ensures Run(Ops(turns + [Answered(failed, identity, at)]), ttl, max) == Run(Ops(turns), ttl, max)
  {
    OneMoreAnswer(turns, failed, identity, at);
    assert Ops(turns) + [] == Ops(turns);
  }
}
