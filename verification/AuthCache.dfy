/** The bounded, expiring identity cache of `flock_auth_cache.js` and the middleware around it. */
module AuthCache {
  import opened Wrappers

  datatype Identity = Identity(user: string, userType: string, sid: string, authorizationHeader: string)

  datatype Entry = Entry(key: string, value: Identity, exp: int)

  /** The keys of the map in insertion order; the map keeps each once. */
  function KeysOf(entries: seq<Entry>): seq<string> {
    seq(|entries|, i requires 0 <= i < |entries| => entries[i].key)
  }

  function Find(entries: seq<Entry>, key: string): (e: Option<Entry>)
    ensures e.Some? ==> e.value in entries && e.value.key == key
    ensures e.None? ==> forall x :: x in entries ==> x.key != key
  {
    if entries == [] then None
    else if entries[|entries| - 1].key == key then Some(entries[|entries| - 1])
    else Find(entries[..|entries| - 1], key)
  }

  function Without(entries: seq<Entry>, key: string): seq<Entry> {
    if entries == [] then []
    else Without(entries[..|entries| - 1], key)
         + (if entries[|entries| - 1].key == key then [] else [entries[|entries| - 1]])
  }

  /** How many entries may stay beside one about to be added. */
  function Room(max: int): nat {
    if max <= 1 then 0 else max - 1
  }

  /** The newest entries that leave room for one more. */
  function Evicted(entries: seq<Entry>, max: int): seq<Entry> {
    if |entries| <= Room(max) then entries else entries[|entries| - Room(max)..]
  }

  /** A hit promotes its entry to the newest; an expired entry is dropped. */
  function Looked(entries: seq<Entry>, key: string, now: int): (seq<Entry>, Option<Entry>) {
    match Find(entries, key)
    case None => (entries, None)
    case Some(e) =>
      if e.exp <= now then (Without(entries, key), None) else (Without(entries, key) + [e], Some(e))
  }

  function Stored(entries: seq<Entry>, key: string, value: Identity, exp: int, max: int): seq<Entry> {
    Evicted(Without(entries, key), max) + [Entry(key, value, exp)]
  }

  datatype Stats = Stats(hits: nat, misses: nat, evictions: nat, stores: nat)

  class Cache {
    const ttlMs: int
    const max: int
    var entries: seq<Entry>
    var stats: Stats

    constructor (ttlMs: int, max: int)
      ensures this.ttlMs == ttlMs && this.max == max && entries == [] && stats == Stats(0, 0, 0, 0)
    {
      this.ttlMs, this.max, entries, stats := ttlMs, max, [], Stats(0, 0, 0, 0);
    }

    method Get(key: string, now: int) returns (r: Option<Entry>)
      modifies this
      ensures (entries, r) == Looked(old(entries), key, now)
      ensures stats == old(stats).(hits := old(stats).hits + if r.Some? then 1 else 0)
    {
      r := Find(entries, key);
      if r.None? { return; }
      if r.value.exp <= now {
        entries := Without(entries, key);
        return None;
      }
      entries := Without(entries, key);
      entries := entries + [r.value];
      stats := stats.(hits := stats.hits + 1);
    }

    method Set(key: string, value: Identity, now: int)
      modifies this
      ensures entries == Stored(old(entries), key, value, now + ttlMs, max)
      ensures stats == old(stats).(stores := old(stats).stores + 1,
                                   evictions := old(stats).evictions + |Without(old(entries), key)| + 1 - |entries|)
    {
      if Find(entries, key).Some? {
        entries := Without(entries, key);
      } else {
        NothingToRemove(entries, key);
      }
      ghost var kept, n := entries, 0;
      while |entries| >= max
        invariant 0 <= n <= |kept| - |Evicted(kept, max)| && entries == kept[n..]
        invariant stats == old(stats).(evictions := old(stats).evictions + n)
        decreases |entries|
      {
        if entries == [] { break; }
        entries := entries[1..];
        n := n + 1;
        stats := stats.(evictions := stats.evictions + 1);
      }
      assert entries == Evicted(kept, max);
      entries := entries + [Entry(key, value, now + ttlMs)];
      stats := stats.(stores := stats.stores + 1);
    }

    method Clear()
      modifies this
      ensures entries == [] && stats == old(stats)
    {
      entries := [];
    }

    // ---- the middleware ------------------------------------------------------------

    /** A connection arrives: a hit replays the cached identity, anything else is a miss. */
    method Arrive(key: Option<string>, now: int) returns (replayed: Option<Identity>)
      modifies this
      ensures !Truthy(key) ==> replayed == None && entries == old(entries)
      ensures Truthy(key) ==>
                var (after, hit) := Looked(old(entries), key.value, now);
                entries == after && replayed == (if hit.Some? then Some(hit.value.value) else None)
      ensures stats == if replayed.Some? then old(stats).(hits := old(stats).hits + 1)
                       else old(stats).(misses := old(stats).misses + 1)
    {
      var entry: Option<Entry> := None;
      if Truthy(key) { entry := Get(key.value, now); }
      if entry.Some? { return Some(entry.value.value); }
      stats := stats.(misses := stats.misses + 1);
      return None;
    }

    /** The original authentication answers after a miss: a resolved identity is stored under its own key. */
    method Answer(failed: bool, identity: Identity, now: int)
      modifies this
      ensures entries == if Stores(failed, identity)
                         then Stored(old(entries), StoreKey(identity), identity, now + ttlMs, max)
                         else old(entries)
    {
      if failed { return; }
      var storeKey := StoreKey(identity);
      if storeKey != "" && identity.user != "" { Set(storeKey, identity, now); }
    }
  }

  /** The answer resolved a user who can be recognised again. */
  predicate Stores(failed: bool, identity: Identity) {
    !failed && StoreKey(identity) != "" && identity.user != ""
  }

  function StoreKey(identity: Identity): string {
    if identity.sid != "" then identity.sid else identity.authorizationHeader
  }

  lemma {:induction false} NothingToRemove(entries: seq<Entry>, key: string)
    requires forall x :: x in entries ==> x.key != key
    ensures Without(entries, key) == entries
  {
    if entries != [] {
      var init := entries[..|entries| - 1];
      assert entries == init + [entries[|entries| - 1]];
      NothingToRemove(init, key);
    }
  }
}
