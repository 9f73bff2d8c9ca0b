/** The per-device throttle of the engagement gateway: when it is a sliding one-second window, and when not. */
module Throttling {
  import opened Engagement
  import opened EngagementInvariants

  /** The bucket and every accepted time, after calls at `times` for one key. */
  datatype History = History(bucket: seq<real>, accepted: seq<real>)

  function Call(h: History, now: real, perSecond: int): History {
    var recent := Recent(h.bucket, now - 1.0);
    if |recent| >= perSecond then History(recent, h.accepted) else History(recent + [now], h.accepted + [now])
  }

  function Calls(times: seq<real>, perSecond: int): History {
    if times == [] then History([], []) else Call(Calls(times[..|times| - 1], perSecond), times[|times| - 1], perSecond)
  }

  /** How many accepted times lie between `from` and `to`. */
  function CountWithin(accepted: seq<real>, from: real, to: real): nat {
    if accepted == [] then 0
    else
      var last := accepted[|accepted| - 1];
      CountWithin(accepted[..|accepted| - 1], from, to) + (if from <= last <= to then 1 else 0)
  }

  /** No time is later than `now`. */
  ghost predicate UpTo(times: seq<real>, now: real) {
    times == [] || (times[|times| - 1] <= now && UpTo(times[..|times| - 1], now))
  }

  // ---- buckets ---------------------------------------------------------------------

  lemma RecentOne(bucket: seq<real>, x: real, cutoff: real)
    ensures Recent(bucket + [x], cutoff) == Recent(bucket, cutoff) + (if x >= cutoff then [x] else [])
  {
    assert (bucket + [x])[..|bucket|] == bucket;
  }

  /** Filtering twice is filtering by the later cutoff. */
  lemma {:induction false} RecentOfRecent(bucket: seq<real>, early: real, late: real)
    requires early <= late
    ensures Recent(Recent(bucket, early), late) == Recent(bucket, late)
  {
    if bucket != [] {
      var init, last := bucket[..|bucket| - 1], bucket[|bucket| - 1];
      RecentOfRecent(init, early, late);
      RecentOne(Recent(init, early), last, late);
      assert Recent(init, early) + [] == Recent(init, early) && Recent(init, late) + [] == Recent(init, late);
    }
  }

  lemma {:induction false} RecentShrinks(bucket: seq<real>, cutoff: real)
    ensures |Recent(bucket, cutoff)| <= |bucket|
  {
    if bucket != [] { RecentShrinks(bucket[..|bucket| - 1], cutoff); }
  }

  lemma {:induction false} RecentCounts(accepted: seq<real>, now: real)
    requires UpTo(accepted, now)
    ensures |Recent(accepted, now - 1.0)| == CountWithin(accepted, now - 1.0, now)
  {
    if accepted != [] { RecentCounts(accepted[..|accepted| - 1], now); }
  }

  lemma CallsOne(times: seq<real>, now: real, perSecond: int)
    ensures Calls(times + [now], perSecond) == Call(Calls(times, perSecond), now, perSecond)
  {
    assert (times + [now])[..|times|] == times;
  }

  lemma {:induction false} BucketWithinLimit(times: seq<real>, perSecond: int)
    requires perSecond >= 0
    ensures |Calls(times, perSecond).bucket| <= perSecond
  {
    if times != [] {
      BucketWithinLimit(times[..|times| - 1], perSecond);
      RecentShrinks(Calls(times[..|times| - 1], perSecond).bucket, times[|times| - 1] - 1.0);
    }
  }

  /** What a call at a time up to `now` leaves of the last second before `now`. */
  lemma RecentAfterCall(h: History, last: real, now: real, perSecond: int)
    requires last <= now && Recent(h.bucket, now - 1.0) == Recent(h.accepted, now - 1.0)
    ensures Recent(Call(h, last, perSecond).bucket, now - 1.0) == Recent(Call(h, last, perSecond).accepted, now - 1.0)
  {
    RecentOfRecent(h.bucket, last - 1.0, now - 1.0);
    RecentOne(Recent(h.bucket, last - 1.0), last, now - 1.0);
    RecentOne(h.accepted, last, now - 1.0);
  }

  /** At the latest time so far the bucket holds every call accepted in the second before it. */
  lemma {:induction false} BucketIsWindow(times: seq<real>, perSecond: int, now: real)
    requires UpTo(times, now)
    ensures Recent(Calls(times, perSecond).bucket, now - 1.0) == Recent(Calls(times, perSecond).accepted, now - 1.0)
    ensures UpTo(Calls(times, perSecond).accepted, now)
  {
    if times != [] {
      var init, last := times[..|times| - 1], times[|times| - 1];
      BucketIsWindow(init, perSecond, now);
      RecentAfterCall(Calls(init, perSecond), last, now, perSecond);
      UpToOne(Calls(init, perSecond).accepted, last, now);
    }
  }

  lemma UpToOne(times: seq<real>, last: real, now: real)
    ensures UpTo(times + [last], now) <==> UpTo(times, now) && last <= now
  {
    assert (times + [last])[..|times|] == times;
  }

  // ---- exactly when the latest -----------------------------------------------------

  /** The call at `now` is allowed exactly when fewer than the limit were accepted in the second up to it. */
  ghost predicate DecidesRight(times: seq<real>, now: real, perSecond: int) {
    var accepted := Calls(times, perSecond).accepted;
    Calls(times + [now], perSecond).accepted ==
    if CountWithin(accepted, now - 1.0, now) < perSecond then accepted + [now] else accepted
  }

  /** Whatever order the earlier calls came in, the latest one is decided right. */
  lemma AllowedIffBelowLimit(times: seq<real>, now: real, perSecond: int)
    requires UpTo(times, now)
    ensures DecidesRight(times, now, perSecond)
  {
    BucketIsWindow(times, perSecond, now);
    CallsOne(times, now, perSecond);
    RecentCounts(Calls(times, perSecond).accepted, now);
  }

  /** And no more than the limit are accepted in the second up to it. */
  lemma RateIsBounded(times: seq<real>, now: real, perSecond: int)
    requires perSecond >= 0 && UpTo(times, now)
    ensures CountWithin(Calls(times + [now], perSecond).accepted, now - 1.0, now) <= perSecond
  {
    var all := times + [now];
    UpToOne(times, now, now);
    BucketIsWindow(all, perSecond, now);
    BucketWithinLimit(all, perSecond);
    RecentShrinks(Calls(all, perSecond).bucket, now - 1.0);
    RecentCounts(Calls(all, perSecond).accepted, now);
  }

  function Repeated(x: real, n: nat): (times: seq<real>)
    ensures |times| == n
  {
    if n == 0 then [] else Repeated(x, n - 1) + [x]
  }

  lemma {:induction false} RepeatedFacts(x: real, n: nat, from: real, to: real)
    ensures Recent(Repeated(x, n), from) == if x >= from then Repeated(x, n) else []
    ensures CountWithin(Repeated(x, n), from, to) == if from <= x <= to then n else 0
    ensures UpTo(Repeated(x, n), x)
  {
    if n > 0 {
      RepeatedFacts(x, n - 1, from, to);
      assert Repeated(x, n)[..n - 1] == Repeated(x, n - 1);
    }
  }

  lemma {:induction false} RepeatedCalls(x: real, n: nat, perSecond: int)
    requires n <= perSecond
    ensures Calls(Repeated(x, n), perSecond) == History(Repeated(x, n), Repeated(x, n))
  {
    if n > 0 {
      RepeatedCalls(x, n - 1, perSecond);
      RepeatedFacts(x, n - 1, x - 1.0, x);
      CallsOne(Repeated(x, n - 1), x, perSecond);
    }
  }

  /** The history that breaks a limit of two or more: a full second, then one later call that empties the bucket. */
  function Emptied(at: real, later: real, perSecond: nat): seq<real> {
    Repeated(at, perSecond) + [later]
  }

  lemma EmptiedBucket(at: real, later: real, perSecond: nat)
    requires at < later - 1.0 && perSecond >= 1
    ensures Calls(Emptied(at, later, perSecond), perSecond) == History([later], Emptied(at, later, perSecond))
  {
    RepeatedCalls(at, perSecond, perSecond);
    RepeatedFacts(at, perSecond, later - 1.0, later);
    CallsOne(Repeated(at, perSecond), later, perSecond);
  }

  lemma CountOne(accepted: seq<real>, x: real, from: real, to: real)
    ensures CountWithin(accepted + [x], from, to) == CountWithin(accepted, from, to)
            + (if from <= x <= to then 1 else 0)
  {
    assert (accepted + [x])[..|accepted|] == accepted;
  }

  lemma EmptiedFacts(at: real, later: real, now: real, perSecond: nat)
    requires now - 1.0 <= at <= now < later && at < later - 1.0
    ensures UpTo(Emptied(at, later, perSecond), later)
    ensures CountWithin(Emptied(at, later, perSecond), now - 1.0, now) == perSecond
  {
    RepeatedFacts(at, perSecond, now - 1.0, now);
    UpToGrows(Repeated(at, perSecond), at, later);
    UpToOne(Repeated(at, perSecond), later, later);
    CountOne(Repeated(at, perSecond), later, now - 1.0, now);
  }

  /** After such a history one more call within the full second is allowed. */
  lemma EmptiedLetsOneMore(at: real, later: real, now: real, perSecond: nat)
    requires now - 1.0 <= at <= now < later && at < later - 1.0 && perSecond >= 2
    ensures var times := Emptied(at, later, perSecond);
            && Calls(times, perSecond).accepted == times
            && Calls(times + [now], perSecond).accepted == times + [now]
            && CountWithin(times + [now], now - 1.0, now) == perSecond + 1
  {
    var times := Emptied(at, later, perSecond);
    EmptiedBucket(at, later, perSecond);
    EmptiedFacts(at, later, now, perSecond);
    CountOne(times, now, now - 1.0, now);
    CallsOne(times, now, perSecond);
    RecentShrinks([later], now - 1.0);
  }

  /** For every limit of two or more and every later time there is a history after which a call goes over the limit. */
  lemma LaterTimeExceedsTheLimit(now: real, later: real, perSecond: nat) returns (times: seq<real>)
    requires later > now && perSecond >= 2
    ensures LatestAt(times, later)
    ensures CountWithin(Calls(times, perSecond).accepted, now - 1.0, now) == perSecond
    ensures CountWithin(Calls(times + [now], perSecond).accepted, now - 1.0, now) == perSecond + 1
  {
    times := Emptied(now - 1.0, later, perSecond);
    EmptiedFacts(now - 1.0, later, now, perSecond);
    EmptiedLetsOneMore(now - 1.0, later, now, perSecond);
    assert times[|times| - 1] == later;
  }

  lemma RepeatedTwice(x: real)
    ensures Repeated(x, 2) == [x, x]
  {
    assert Repeated(x, 1) == [x];
  }

  /** Three calls at one instant pass a limit of two per second. */
  lemma ThreePassALimitOfTwo()
    ensures Calls([0.0, 0.0, 2.0, 0.0], 2).accepted == [0.0, 0.0, 2.0, 0.0]
  {
    RepeatedTwice(0.0);
    assert [0.0, 0.0] + [2.0] + [0.0] == [0.0, 0.0, 2.0, 0.0];
    EmptiedLetsOneMore(0.0, 2.0, 0.0, 2);
  }

  lemma {:induction false} UpToGrows(times: seq<real>, early: real, late: real)
    requires UpTo(times, early) && early <= late
    ensures UpTo(times, late)
  {
    if times != [] { UpToGrows(times[..|times| - 1], early, late); }
  }

  lemma CallRefused(h: History, now: real, perSecond: int)
    requires |Recent(h.bucket, now - 1.0)| >= perSecond
    ensures Call(h, now, perSecond).accepted == h.accepted
  {
  }

  lemma FullBucketRefuses(now: real, later: real, perSecond: nat)
    requires later > now && perSecond >= 1
    ensures var times := Repeated(later, perSecond);
            && Calls(times, perSecond).accepted == times && Calls(times + [now], perSecond).accepted == times
            && CountWithin(times, now - 1.0, now) == 0
  {
    var times := Repeated(later, perSecond);
    RepeatedCalls(later, perSecond, perSecond);
    RepeatedFacts(later, perSecond, now - 1.0, now);
    CallRefused(History(times, times), now, perSecond);
    CallsOne(times, now, perSecond);
  }

  lemma WronglyRefused(times: seq<real>, now: real, perSecond: nat)
    requires Calls(times, perSecond).accepted == times && Calls(times + [now], perSecond).accepted == times
    requires CountWithin(times, now - 1.0, now) < perSecond
    ensures !DecidesRight(times, now, perSecond)
  {
    assert |times + [now]| != |times|;
  }

  /** The latest call in the history was at `latest`. */
  ghost predicate LatestAt(times: seq<real>, latest: real) {
    UpTo(times, latest) && exists i :: 0 <= i < |times| && times[i] == latest
  }

  /** A full bucket of later calls refuses a call although nothing was accepted in the second up to it. */
  lemma LaterTimeRefusesTooMuch(now: real, later: real, perSecond: nat)
    requires later > now && perSecond >= 1
    ensures LatestAt(Repeated(later, perSecond), later) && !DecidesRight(Repeated(later, perSecond), now, perSecond)
  {
    var times := Repeated(later, perSecond);
    FullBucketRefuses(now, later, perSecond);
    WronglyRefused(times, now, perSecond);
    RepeatedFacts(later, perSecond, now, now);
    assert times[perSecond - 1] == later;
  }

  /**
   * The throttle decides a call right after every history with the given latest time exactly when the
   * call is no earlier than that time.
   */
  lemma RightIffLatest(now: real, latest: real, perSecond: nat)
    requires perSecond >= 1
    ensures (forall times: seq<real> :: LatestAt(times, latest) ==> DecidesRight(times, now, perSecond)) <==>
            latest <= now
  {
    if latest <= now {
      forall times: seq<real> | LatestAt(times, latest) ensures DecidesRight(times, now, perSecond) {
        UpToGrows(times, latest, now);
        AllowedIffBelowLimit(times, now, perSecond);
      }
    } else {
      LaterTimeRefusesTooMuch(now, latest, perSecond);
    }
  }

  /** Some bucket entry is as late as each accepted call. */
  ghost predicate KeepsLatest(h: History) {
    forall i :: 0 <= i < |h.accepted| ==> AsLate(h.bucket, h.accepted[i])
  }

  ghost predicate AsLate(bucket: seq<real>, x: real) {
    exists y :: y in bucket && x <= y
  }

  lemma {:induction false} RecentMeaning(bucket: seq<real>, cutoff: real, y: real)
    ensures y in Recent(bucket, cutoff) <==> y in bucket && y >= cutoff
  {
    if bucket != [] {
      var init, last := bucket[..|bucket| - 1], bucket[|bucket| - 1];
      assert bucket == init + [last];
      RecentMeaning(init, cutoff, y);
    }
  }

  lemma RecentIsAsLate(bucket: seq<real>, now: real, x: real)
    requires AsLate(bucket, x) && Recent(bucket, now - 1.0) != []
    ensures AsLate(Recent(bucket, now - 1.0), x)
  {
    var recent := Recent(bucket, now - 1.0);
    var y :| y in bucket && x <= y;
    assert recent[0] in recent;
    RecentMeaning(bucket, now - 1.0, y);
    RecentMeaning(bucket, now - 1.0, recent[0]);
    assert if y >= now - 1.0 then y in recent else x <= recent[0];
  }

  lemma NothingRecentIsEarlier(bucket: seq<real>, now: real, x: real)
    requires AsLate(bucket, x) && Recent(bucket, now - 1.0) == []
    ensures x < now - 1.0
  {
    var y :| y in bucket && x <= y;
    RecentMeaning(bucket, now - 1.0, y);
  }

  lemma CallKeepsLatest(h: History, now: real)
    requires KeepsLatest(h)
    ensures KeepsLatest(Call(h, now, 1))
  {
    var h', recent := Call(h, now, 1), Recent(h.bucket, now - 1.0);
    forall i | 0 <= i < |h'.accepted| ensures AsLate(h'.bucket, h'.accepted[i]) {
      if recent != [] {
        RecentIsAsLate(h.bucket, now, h.accepted[i]);
      } else {
        if i < |h.accepted| { NothingRecentIsEarlier(h.bucket, now, h.accepted[i]); }
        assert now in h'.bucket;
      }
    }
  }

  lemma {:induction false} LimitOneKeepsLatest(times: seq<real>)
    ensures KeepsLatest(Calls(times, 1))
  {
    if times != [] {
      LimitOneKeepsLatest(times[..|times| - 1]);
      CallKeepsLatest(Calls(times[..|times| - 1], 1), times[|times| - 1]);
    }
  }

  lemma NothingRecent(h: History, now: real)
    requires KeepsLatest(h) && Recent(h.bucket, now - 1.0) == []
    ensures CountWithin(h.accepted, now - 1.0, now) == 0
  {
    forall i | 0 <= i < |h.accepted| ensures h.accepted[i] < now - 1.0 {
      NothingRecentIsEarlier(h.bucket, now, h.accepted[i]);
    }
    NoneWithin(h.accepted, now - 1.0, now);
  }

  lemma AllowedFindsNothing(h: History, now: real)
    requires Call(h, now, 1).accepted != h.accepted
    ensures Recent(h.bucket, now - 1.0) == []
  {
  }

  /** A limit of one is never exceeded, in whatever order the calls come. */
  lemma LimitOneIsNeverExceeded(times: seq<real>, now: real)
    requires Calls(times + [now], 1).accepted != Calls(times, 1).accepted
    ensures CountWithin(Calls(times, 1).accepted, now - 1.0, now) == 0
  {
    CallsOne(times, now, 1);
    AllowedFindsNothing(Calls(times, 1), now);
    LimitOneKeepsLatest(times);
    NothingRecent(Calls(times, 1), now);
  }

  lemma {:induction false} NoneWithin(accepted: seq<real>, from: real, to: real)
    requires forall i :: 0 <= i < |accepted| ==> accepted[i] < from
    ensures CountWithin(accepted, from, to) == 0
  {
    if accepted != [] { NoneWithin(accepted[..|accepted| - 1], from, to); }
  }

  // ---- the buckets of a run --------------------------------------------------------

  /** `throttle_allows` makes one such call on its key's bucket and leaves every other key alone. */
  lemma ThrottleIsCall(w: World, key: string, now: real, perSecond: int, accepted: seq<real>, other: string)
    ensures var h := Call(History(Bucket(w, key), accepted), now, perSecond);
            var (w', allowed) := Throttle(w, key, now, perSecond);
            && Bucket(w', key) == h.bucket && h.accepted == (if allowed then accepted + [now] else accepted)
            && (other != key ==> Bucket(w', other) == Bucket(w, other))
  {
  }

  /** The action is a request that reaches the throttle check of `key`. */
  predicate Reaches(settings: Settings, w: World, a: Action, key: string) {
    a.TakePart? && ThrottleKey(a.request) == key && Admission(settings, w.sessions, a.request, a.now).None?
  }

  /** The times a request adds to those checked, and to those that passed. */
  function Checked(settings: Settings, w: World, a: Action, key: string): seq<real> {
    if Reaches(settings, w, a, key) then [TimeOf(a.request, a.now)] else []
  }

  function Passed(settings: Settings, w: World, a: Action, key: string): seq<real> {
    if Reaches(settings, w, a, key) && Participate(settings, w, a.request, a.now).1 != Refused(a.request, Throttled)
    then [TimeOf(a.request, a.now)] else []
  }

  /** The times of the requests of a run that reached the throttle check of `key`. */
  function CheckedTimes(settings: Settings, actions: seq<Action>, key: string): seq<real> {
    if actions == [] then []
    else
      var init := actions[..|actions| - 1];
      CheckedTimes(settings, init, key)
          + Checked(settings, Run(settings, EMPTY_WORLD, init), actions[|actions| - 1], key)
  }

  /** The times of those that were not answered with `throttled`. */
  function PassedTimes(settings: Settings, actions: seq<Action>, key: string): seq<real> {
    if actions == [] then []
    else
      var init := actions[..|actions| - 1];
      PassedTimes(settings, init, key) + Passed(settings, Run(settings, EMPTY_WORLD, init), actions[|actions| - 1], key)
  }

  lemma RecordKeepsThrottle(settings: Settings, w: World, session: Session, r: Request, at: real)
    ensures RecordRequest(settings, w, session, r, at).0.throttle == w.throttle
    ensures RecordRequest(settings, w, session, r, at).1 != Refused(r, Throttled)
  {
  }

  /**
   * An admitted request is one call on its own key's bucket, and is answered `throttled` exactly when
   * that refuses it.
   */
  lemma ParticipateIsCall(settings: Settings, w: World, r: Request, clock: real, accepted: seq<real>)
    requires Admission(settings, w.sessions, r, clock).None?
    ensures var (w', receipt) := Participate(settings, w, r, clock);
            var h := Call(History(Bucket(w, ThrottleKey(r)), accepted), TimeOf(r, clock), settings.perSecond);
            && Bucket(w', ThrottleKey(r)) == h.bucket
            && h.accepted == (if receipt == Refused(r, Throttled) then accepted else accepted + [TimeOf(r, clock)])
  {
    var w1 := Throttle(w, ThrottleKey(r), TimeOf(r, clock), settings.perSecond).0;
    ThrottleIsCall(w, ThrottleKey(r), TimeOf(r, clock), settings.perSecond, accepted, ThrottleKey(r));
    RecordKeepsThrottle(settings, w1, w.sessions[r.sessionId], r, TimeOf(r, clock));
  }

  lemma OtherKeepsBucket(settings: Settings, w: World, r: Request, at: real, key: string)
    requires r.sessionId in w.sessions && ThrottleKey(r) != key
    ensures Bucket(Admitted(settings, w, r, at).0, key) == Bucket(w, key)
  {
    var w1 := Throttle(w, ThrottleKey(r), at, settings.perSecond).0;
    ThrottleIsCall(w, ThrottleKey(r), at, settings.perSecond, [], key);
    RecordKeepsThrottle(settings, w1, w.sessions[r.sessionId], r, at);
  }

  /** Any other action leaves the bucket of a key alone. */
  lemma OthersKeepBucket(settings: Settings, w: World, a: Action, key: string)
    requires !Reaches(settings, w, a, key)
    ensures Bucket(Apply(settings, w, a), key) == Bucket(w, key)
  {
    if a.TakePart? && Admission(settings, w.sessions, a.request, a.now).None? {
      OtherKeepsBucket(settings, w, a.request, TimeOf(a.request, a.now), key);
    }
  }

  /** The calls of the run made so far, as the gateway's state and answers show them. */
  ghost predicate ShowsCalls(settings: Settings, w: World, key: string, times: seq<real>, passed: seq<real>) {
    Calls(times, settings.perSecond) == History(Bucket(w, key), passed)
  }

  lemma ActionShowsCall(settings: Settings, w: World, a: Action, key: string, times: seq<real>, passed: seq<real>)
    requires ShowsCalls(settings, w, key, times, passed)
    ensures ShowsCalls(settings, Apply(settings, w, a), key, times + Checked(settings, w, a, key),
                       passed + Passed(settings, w, a, key))
  {
    if Reaches(settings, w, a, key) {
      ParticipateIsCall(settings, w, a.request, a.now, passed);
      CallsOne(times, TimeOf(a.request, a.now), settings.perSecond);
      assert passed + [] == passed;
    } else {
      OthersKeepBucket(settings, w, a, key);
      assert times + [] == times && passed + [] == passed;
    }
  }

  /** In every run the bucket of a key, and what passed it, are those of its calls. */
  lemma {:induction false} RunIsCalls(settings: Settings, actions: seq<Action>, key: string)
    ensures ShowsCalls(settings, Run(settings, EMPTY_WORLD, actions), key, CheckedTimes(settings, actions, key),
                       PassedTimes(settings, actions, key))
  {
    if actions != [] {
      var init := actions[..|actions| - 1];
      RunIsCalls(settings, init, key);
      ActionShowsCall(settings, Run(settings, EMPTY_WORLD, init), actions[|actions| - 1], key,
                      CheckedTimes(settings, init, key), PassedTimes(settings, init, key));
    }
  }

  /**
   * After any run, an admitted request no earlier than the earlier ones of its attendee's device is throttled
   * exactly when the limit was already reached in the second up to it.
   */
  lemma ThrottledIffLimitReached(settings: Settings, actions: seq<Action>, r: Request, clock: real, key: string,
                                 at: real)
    requires Admission(settings, Run(settings, EMPTY_WORLD, actions).sessions, r, clock).None?
    requires key == r.attendeeKey + ":" + r.device
    requires at == if r.submittedAt.Some? then r.submittedAt.value else clock
    requires UpTo(CheckedTimes(settings, actions, key), at)
    ensures Participate(settings, Run(settings, EMPTY_WORLD, actions), r, clock).1 == Refused(r, Throttled) <==>
            CountWithin(PassedTimes(settings, actions, key), at - 1.0, at) >= settings.perSecond
  {
    var w, times := Run(settings, EMPTY_WORLD, actions), CheckedTimes(settings, actions, key);
    RunIsCalls(settings, actions, key);
    AllowedIffBelowLimit(times, at, settings.perSecond);
    CallsOne(times, at, settings.perSecond);
    ParticipateIsCall(settings, w, r, clock, PassedTimes(settings, actions, key));
  }
}
