/** What every run of the engagement service keeps, session by session. */
module EngagementInvariants {
  import opened Wrappers
  import opened Reporting
  import opened Engagement
  import Bulk = ReportingInvariants
  import Queue = AttendanceQueue

  datatype Action =
    | Create(session: Session)
    | OpenIt(id: string, now: real)
    | Close(id: string, now: real)
    | Finalize(id: string, now: real, result: Queue.AttemptResult)
    | TakePart(request: Request, now: real)

  function Apply(settings: Settings, w: World, a: Action): World {
    match a
    case Create(session) => CreateSession(w, session).0
    case OpenIt(id, now) => OpenSession(w, id, now).0
    case Close(id, now) => CloseSession(settings, w, id, now).0
    case Finalize(id, now, result) => FinalizeClose(w, id, now, result).0
    case TakePart(r, now) => Participate(settings, w, r, now).0
  }

  function Run(settings: Settings, w: World, actions: seq<Action>): World {
    if actions == [] then w else Apply(settings, Run(settings, w, actions[..|actions| - 1]), actions[|actions| - 1])
  }

  const EMPTY_WORLD := World(map[], map[], {}, map[], map[], map[], [], [], Bulk.EMPTY_LEDGER)

  // ---- one session's view of the world ---------------------------------------------

  datatype View = View(session: Option<Session>, log: seq<Participation>, attendees: seq<string>,
                       nonces: set<(string, string)>, events: seq<SessionEvent>)

  function EventsFor(events: seq<SessionEvent>, id: string): seq<SessionEvent> {
    if events == [] then []
    else EventsFor(events[..|events| - 1], id)
         + (if events[|events| - 1].session == id then [events[|events| - 1]] else [])
  }

  function NoncesOf(nonces: set<Nonce>, id: string): set<(string, string)> {
    set n | n in nonces && n.0 == id :: (n.1, n.2)
  }

  function ViewOf(w: World, id: string): View {
    View(if id in w.sessions then Some(w.sessions[id]) else None, Log(w, id), Attendees(w, id), NoncesOf(w.nonces, id),
         EventsFor(w.emitted, id))
  }

  function NoncePair(p: Participation): (string, string) {
    (p.attendeeKey, p.nonce)
  }

  function NoncePairs(log: seq<Participation>): set<(string, string)> {
    set p | p in log :: NoncePair(p)
  }

  ghost predicate DistinctNonces(log: seq<Participation>) {
    forall i, j :: 0 <= i < j < |log| ==> NoncePair(log[i]) != NoncePair(log[j])
  }

  /** 0 before opening, 1 while live, 2 once closed. */
  function Stage(session: Option<Session>): nat {
    if session.None? || session.value.status in {Draft, Scheduled} then 0
    else if Live(session.value.status) then 1
    else 2
  }

  /** The row was recorded for this session, with its gathering and scope. */
  predicate Anchored(p: Participation, s: Session) {
    p.sessionId == s.id && p.gathering == s.gathering && p.branch == s.branch && p.organization == s.organization
        && p.kind == s.kind
  }

  ghost predicate AllAnchored(log: seq<Participation>, s: Session) {
    forall i {:trigger log[i]} :: 0 <= i < |log| ==> Anchored(log[i], s)
  }

  /**
   * What must have been emitted: opened once the session went live, and at most one closed event, with
   * the final headcount, once it is closed.
   */
  predicate EventsDue(v: View) {
    if Stage(v.session) == 0 then v.events == []
    else
      || v.events == [OpenedBy(v.session.value)]
      || (Stage(v.session) == 2 && v.events == [OpenedBy(v.session.value), ClosedBy(v.session.value, |v.attendees|)])
  }

  /** The closed event of the session is out. */
  predicate Announced(v: View) {
    |v.events| >= 2
  }

  ghost predicate Good(v: View, id: string) {
    && v.attendees == KeysIn(Credits(v.log))
    && v.nonces == NoncePairs(v.log) && DistinctNonces(v.log)
    && (v.session.Some? ==> v.session.value.id == id && AllAnchored(v.log, v.session.value))
    && (Stage(v.session) == 0 ==> v.log == [])
    && EventsDue(v)
  }

  /** Whom a participation counts for: its member, and for a visitor its attendee key. */
  function CreditedAs(p: Participation): string {
    match p.memberId
    case Some(m) => if m != "" then m else p.attendeeKey
    case None => p.attendeeKey
  }

  /** Every credited participation has the attendance of its member, or visitor, in the bulk store. */
  ghost predicate AllStored(credits: seq<Participation>, stored: set<UKey>) {
    forall p :: p in credits ==> (p.gathering, CreditedAs(p)) in stored
  }

  /** A session is announced closed only with its attendance stored. */
  ghost predicate StoredIfAnnounced(w: World, id: string) {
    Announced(ViewOf(w, id)) ==> AllStored(Credits(Log(w, id)), w.ledger.store.unique)
  }

  ghost predicate Inv(w: World) {
    && Bulk.Sound(w.ledger.store)
    && (forall id {:trigger ViewOf(w, id)} :: Good(ViewOf(w, id), id))
    && (forall id {:trigger StoredIfAnnounced(w, id)} :: StoredIfAnnounced(w, id))
  }

  // ---- how an action changes one session's view ------------------------------------

  datatype Change = Same | Created(session: Session) | ToOpen(at: real) | ToClosing(at: real)
                  | ToClosed(at: real, announced: bool) | Added(row: Participation)

  /** Creating over an existing id keeps its stage and, once it is live, its scope. */
  predicate Harmless(v: View, s: Session) {
    && Stage(Some(s)) == Stage(v.session)
    && (Stage(v.session) > 0 ==> OpenedBy(s) == OpenedBy(v.session.value))
  }

  predicate Enabled(v: View, id: string, c: Change) {
    match c
    case Same => true
    case Created(s) => s.id == id
    case ToOpen(_) => v.session.Some? && CanMove(v.session.value.status, Open)
    case ToClosing(_) => v.session.Some? && CanMove(v.session.value.status, Closing)
    case ToClosed(_, _) => v.session.Some? && CanMove(v.session.value.status, Closed)
    case Added(p) =>
      v.session.Some? && Live(v.session.value.status) && Anchored(p, v.session.value) && NoncePair(p) !in v.nonces
  }

  function Changed(v: View, id: string, c: Change): View
    requires Enabled(v, id, c)
  {
    match c
    case Same => v
    case Created(s) => v.(session := Some(s))
    case ToOpen(at) =>
      var s := Restamped(v.session.value, Open, at);
      v.(session := Some(s), events := v.events + [OpenedBy(s)])
    case ToClosing(at) => v.(session := Some(Restamped(v.session.value, Closing, at)))
    case ToClosed(at, announced) =>
      var s := Restamped(v.session.value, Closed, at);
      v.(session := Some(s), events := v.events + (if announced then [ClosedBy(s, |Credits(v.log)|)] else []))
    case Added(p) =>
      v.(log := v.log + [p], attendees := Joined(v.attendees, p), nonces := v.nonces + {NoncePair(p)})
  }

  ghost predicate Moves(v: View, v': View, id: string, c: Change) {
    Enabled(v, id, c) && v' == Changed(v, id, c)
  }

  lemma EventsForOne(events: seq<SessionEvent>, e: SessionEvent, id: string)
    ensures EventsFor(events + [e], id) == EventsFor(events, id) + (if e.session == id then [e] else [])
  {
    assert (events + [e])[..|events|] == events;
  }

  lemma NoncesOfOne(nonces: set<Nonce>, n: Nonce, id: string)
    ensures NoncesOf(nonces + {n}, id) == NoncesOf(nonces, id) + (if n.0 == id then {(n.1, n.2)} else {})
    ensures n.0 == id ==> (n in nonces <==> (n.1, n.2) in NoncesOf(nonces, id))
  {
  }

  lemma RecordIsAdded(w: World, p: Participation, id: string) returns (c: Change)
    requires p.sessionId in w.sessions && Live(w.sessions[p.sessionId].status) && Anchored(p, w.sessions[p.sessionId])
    ensures Moves(ViewOf(w, id), ViewOf(Record(w, p), id), id, c)
    ensures c == Same || (c == Added(p) && id == p.sessionId)
  {
    NoncesOfOne(w.nonces, NonceOf(p), id);
    c := if id == p.sessionId && NonceOf(p) !in w.nonces then Added(p) else Same;
  }

  lemma RequestIsChange(settings: Settings, w: World, session: Session, r: Request, at: real, id: string)
      returns (c: Change)
    requires session.id in w.sessions && w.sessions[session.id] == session && Live(session.status)
    ensures Moves(ViewOf(w, id), ViewOf(RecordRequest(settings, w, session, r, at).0, id), id, c)
    ensures (c.Same? || c.Added?)
  {
    c := Same;
    if session.kind in ALL_KINDS {
      c := RecordIsAdded(w, ToParticipation(session, r, at, FlagsFor(settings, w, session, r, at)), id);
    }
  }

  lemma AdmissionMeans(settings: Settings, sessions: map<string, Session>, r: Request, clock: real)
    requires Admission(settings, sessions, r, clock).None?
    ensures r.sessionId in sessions && Live(sessions[r.sessionId].status)
  {
  }

  lemma AdmittedIsChange(settings: Settings, w: World, session: Session, r: Request, at: real, id: string)
      returns (c: Change)
    requires r.sessionId in w.sessions && w.sessions[r.sessionId] == session
    requires session.id == r.sessionId && Live(session.status)
    ensures Moves(ViewOf(w, id), ViewOf(Admitted(settings, w, r, at).0, id), id, c) && (c.Same? || c.Added?)
  {
    c := Same;
    var (w1, allowed) := Throttle(w, ThrottleKey(r), at, settings.perSecond);
    assert ViewOf(w1, id) == ViewOf(w, id);
    if allowed { c := RequestIsChange(settings, w1, session, r, at, id); }
  }

  lemma ParticipateIsChange(settings: Settings, w: World, r: Request, clock: real, id: string) returns (c: Change)
    requires Inv(w)
    ensures Moves(ViewOf(w, id), ViewOf(Participate(settings, w, r, clock).0, id), id, c) && (c.Same? || c.Added?)
  {
    c := Same;
    if Admission(settings, w.sessions, r, clock).None? {
      AdmissionMeans(settings, w.sessions, r, clock);
      assert Good(ViewOf(w, r.sessionId), r.sessionId);
      c := AdmittedIsChange(settings, w, w.sessions[r.sessionId], r, TimeOf(r, clock), id);
    }
  }

  /** `w'` is `w` with the session `target` replaced and an event of it appended, its log untouched. */
  ghost predicate Restaged(w: World, w': World, target: string, s: Session, es: seq<SessionEvent>) {
    && w'.sessions == w.sessions[target := s] && w'.emitted == w.emitted + es
    && w'.participations == w.participations && w'.attendees == w.attendees && w'.nonces == w.nonces
  }

  lemma RestagedView(w: World, w': World, target: string, s: Session, es: seq<SessionEvent>, id: string)
    requires Restaged(w, w', target, s, es) && |es| <= 1 && (es != [] ==> es[0].session == target)
    ensures ViewOf(w', id) ==
            if id == target then ViewOf(w, id).(session := Some(s), events := EventsFor(w.emitted, id) + es)
            else ViewOf(w, id)
  {
    if es != [] {
      EventsForOne(w.emitted, es[0], id);
      assert es == [es[0]];
    } else {
      assert w.emitted + [] == w.emitted;
    }
  }

  lemma OpenIsChange(w: World, target: string, now: real, id: string) returns (c: Change)
    requires Inv(w)
    ensures Moves(ViewOf(w, id), ViewOf(OpenSession(w, target, now).0, id), id, c)
    ensures c == Same || (c == ToOpen(now) && target == id)
  {
    c := Same;
    if target in w.sessions && CanMove(w.sessions[target].status, Open) {
      assert Good(ViewOf(w, target), target);
      var s := Restamped(w.sessions[target], Open, now);
      RestagedView(w, OpenSession(w, target, now).0, target, s, [OpenedBy(s)], id);
      if target == id { c := ToOpen(now); }
    }
  }

  lemma CloseIsChange(settings: Settings, w: World, target: string, now: real, id: string) returns (c: Change)
    requires Inv(w)
    ensures Moves(ViewOf(w, id), ViewOf(CloseSession(settings, w, target, now).0, id), id, c)
    ensures c == Same || (c == ToClosing(now) && target == id)
  {
    c := Same;
    if target in w.sessions && CanMove(w.sessions[target].status, Closing) {
      var s := Restamped(w.sessions[target], Closing, now);
      assert w.emitted + [] == w.emitted;
      RestagedView(w, CloseSession(settings, w, target, now).0, target, s, [], id);
      if target == id { c := ToClosing(now); }
    }
  }

  /** What a finalize that ends in `result` emits. */
  function ClosedEvents(w: World, s: Session, result: Queue.AttemptResult): seq<SessionEvent> {
    if result.Returned? then [ClosedBy(s, |Credits(Log(w, s.id))|)] else []
  }

  lemma FinalizeRestages(w: World, id: string, clock: real, result: Queue.AttemptResult)
    requires id in w.sessions && w.sessions[id].id == id && CanMove(w.sessions[id].status, Closed)
    ensures var s := Restamped(w.sessions[id], Closed, clock);
            Restaged(w, FinalizeClose(w, id, clock, result).0, id, s, ClosedEvents(w, s, result))
  {
    assert w.emitted + [] == w.emitted;
  }

  lemma FinalizeIsChange(w: World, target: string, clock: real, result: Queue.AttemptResult, id: string)
      returns (c: Change)
    requires Inv(w)
    ensures Moves(ViewOf(w, id), ViewOf(FinalizeClose(w, target, clock, result).0, id), id, c)
    ensures c == Same || (c == ToClosed(clock, result.Returned?) && target == id)
    ensures c == Same ==> id != target || id !in w.sessions || w.sessions[id].status != Closing
  {
    c := Same;
    if target in w.sessions && CanMove(w.sessions[target].status, Closed) {
      assert Good(ViewOf(w, target), target);
      FinalizeRestages(w, target, clock, result);
      var s := Restamped(w.sessions[target], Closed, clock);
      RestagedView(w, FinalizeClose(w, target, clock, result).0, target, s, ClosedEvents(w, s, result), id);
      if target == id { c := ToClosed(clock, result.Returned?); }
    }
  }

  lemma CreateIsChange(w: World, session: Session, id: string) returns (c: Change)
    ensures Moves(ViewOf(w, id), ViewOf(CreateSession(w, session).0, id), id, c)
    ensures c == Same || (c == Created(session) && session.id == id && session.kind in ALL_KINDS)
  {
    c := if session.kind in ALL_KINDS && session.id == id then Created(session) else Same;
  }

  /** The action is the finalize that takes the session from closing to closed. */
  predicate Closes(w: World, a: Action, id: string) {
    a.Finalize? && a.id == id && id in w.sessions && w.sessions[id].status == Closing
  }

  /** Every action is, for each session on its own, one change or none. */
  lemma ActionIsChange(settings: Settings, w: World, a: Action, id: string) returns (c: Change)
    requires Inv(w)
    ensures Moves(ViewOf(w, id), ViewOf(Apply(settings, w, a), id), id, c)
    ensures c.Created? ==> a == Create(c.session) && c.session.id == id && c.session.kind in ALL_KINDS
    ensures c.ToClosed? <==> Closes(w, a, id)
    ensures c.ToClosed? ==> c.announced == a.result.Returned? && c.at == a.now
    ensures c.ToOpen? ==> a == OpenIt(id, c.at)
    ensures c.ToClosing? ==> a == Close(id, c.at)
  {
    match a
    case Create(session) => c := CreateIsChange(w, session, id);
    case OpenIt(target, now) => c := OpenIsChange(w, target, now, id);
    case Close(target, now) => c := CloseIsChange(settings, w, target, now, id);
    case Finalize(target, now, result) => c := FinalizeIsChange(w, target, now, result, id);
    case TakePart(r, now) => c := ParticipateIsChange(settings, w, r, now, id);
  }

  // ---- the invariant ---------------------------------------------------------------

  lemma CreditsOne(log: seq<Participation>, p: Participation)
    ensures KeysIn(Credits(log + [p])) == Joined(KeysIn(Credits(log)), p)
  {
    assert (log + [p])[..|log|] == log;
    assert KeysIn(Credits(log) + [p]) == KeysIn(Credits(log)) + [p.attendeeKey];
  }

  lemma NoncePairsOne(log: seq<Participation>, p: Participation)
    ensures NoncePairs(log + [p]) == NoncePairs(log) + {NoncePair(p)}
    ensures NoncePair(p) !in NoncePairs(log) && DistinctNonces(log) ==> DistinctNonces(log + [p])
  {
    var all := log + [p];
    assert all[|log|] == p && forall q :: q in log ==> q in all;
    if NoncePair(p) !in NoncePairs(log) && DistinctNonces(log) {
      forall i, j | 0 <= i < j < |all| ensures NoncePair(all[i]) != NoncePair(all[j]) {
        assert all[i] in log;
      }
    }
  }

  lemma AddedKeepsIndex(v: View, id: string, p: Participation)
    requires Good(v, id)
    ensures Joined(v.attendees, p) == KeysIn(Credits(v.log + [p]))
  {
    CreditsOne(v.log, p);
  }

  lemma AddedKeepsNonces(v: View, id: string, p: Participation)
    requires Good(v, id) && NoncePair(p) !in v.nonces
    ensures v.nonces + {NoncePair(p)} == NoncePairs(v.log + [p]) && DistinctNonces(v.log + [p])
  {
    NoncePairsOne(v.log, p);
  }

  lemma AddedKeepsAnchors(log: seq<Participation>, s: Session, p: Participation)
    requires AllAnchored(log, s) && Anchored(p, s)
    ensures AllAnchored(log + [p], s)
  {
  }

  lemma AddedKeepsGood(v: View, id: string, p: Participation)
    requires Good(v, id) && Enabled(v, id, Added(p))
    ensures Good(Changed(v, id, Added(p)), id)
  {
    AddedKeepsIndex(v, id, p);
    AddedKeepsNonces(v, id, p);
    AddedKeepsAnchors(v.log, v.session.value, p);
  }

  lemma ChangeKeepsGood(v: View, id: string, c: Change)
    requires Good(v, id) && Enabled(v, id, c) && (c.Created? ==> Harmless(v, c.session))
    ensures Good(Changed(v, id, c), id)
  {
    match c
    case Same =>
    case Created(s) => CreateKeepsGoodIff(v, id, s);
    case ToOpen(at) =>
    case ToClosing(at) =>
    case ToClosed(at, announced) => assert |KeysIn(Credits(v.log))| == |Credits(v.log)|;
    case Added(p) => AddedKeepsGood(v, id, p);
  }

  /**
   * What creating over an id may change: nothing of its scope once opened, nor whether it was opened or
   * announced closed.
   */
  predicate Compatible(v: View, s: Session) {
    && (Stage(Some(s)) == Stage(v.session) || (!Announced(v) && Stage(Some(s)) > 0 && Stage(v.session) > 0))
    && (Stage(v.session) > 0 ==> OpenedBy(s) == OpenedBy(v.session.value))
  }

  /**
   * `create_session` is an upsert: creating over an id keeps the session's invariant exactly when the
   * session stays unopened, live or announced as it was, with the scope it opened with.
   */
  lemma CreateKeepsGoodIff(v: View, id: string, s: Session)
    requires Good(v, id) && s.id == id
    ensures Good(v.(session := Some(s)), id) <==> Compatible(v, s)
  {
    var v' := v.(session := Some(s));
    if Good(v', id) && Stage(v.session) > 0 {
      assert v'.events[0] == v.events[0];
    }
    if Compatible(v, s) && Stage(v.session) > 0 {
      assert forall i :: 0 <= i < |v.log| ==> Anchored(v.log[i], v.session.value) && Anchored(v.log[i], s);
    }
  }

  ghost predicate Allowed(w: World, a: Action) {
    a.Create? && a.session.kind in ALL_KINDS ==> Harmless(ViewOf(w, a.session.id), a.session)
  }

  /** The batch that closing the session submits. */
  function ClosingBatch(w: World, id: string, now: real): Bulk.Batch
    requires id in w.sessions
  {
    ProjectionOf(w, Restamped(w.sessions[id], Closed, now))
  }

  lemma RecordKeepsLedger(settings: Settings, w: World, session: Session, r: Request, at: real)
    ensures RecordRequest(settings, w, session, r, at).0.ledger == w.ledger
  {
  }

  lemma AdmittedKeepsLedger(settings: Settings, w: World, r: Request, at: real)
    requires r.sessionId in w.sessions
    ensures Admitted(settings, w, r, at).0.ledger == w.ledger
  {
    var w1 := Throttle(w, ThrottleKey(r), at, settings.perSecond).0;
    RecordKeepsLedger(settings, w1, w.sessions[r.sessionId], r, at);
  }

  lemma ParticipateKeepsLedger(settings: Settings, w: World, r: Request, clock: real)
    ensures Participate(settings, w, r, clock).0.ledger == w.ledger
  {
    if Admission(settings, w.sessions, r, clock).None? {
      AdmissionMeans(settings, w.sessions, r, clock);
      AdmittedKeepsLedger(settings, w, r, TimeOf(r, clock));
    }
  }

  lemma CloseOutStore(w: World, id: string, closed: Session, result: Queue.AttemptResult)
    ensures CloseOut(w, id, closed, result).0.ledger.store ==
            Queue.After(w.ledger.store, ProjectionOf(w, closed), Queue.ReachedBy(result))
  {
  }

  lemma FinalizeIsCloseOut(w: World, id: string, clock: real, result: Queue.AttemptResult)
    ensures if id in w.sessions && w.sessions[id].status == Closing
            then FinalizeClose(w, id, clock, result) ==
                CloseOut(w, id, Restamped(w.sessions[id], Closed, clock), result)
            else FinalizeClose(w, id, clock, result).0 == w
  {
  }

  lemma FinalizeStore(w: World, id: string, clock: real, result: Queue.AttemptResult)
    ensures FinalizeClose(w, id, clock, result).0.ledger.store ==
            if id in w.sessions && w.sessions[id].status == Closing
            then Queue.After(w.ledger.store, ClosingBatch(w, id, clock), Queue.ReachedBy(result))
            else w.ledger.store
  {
    FinalizeIsCloseOut(w, id, clock, result);
    if id in w.sessions && w.sessions[id].status == Closing {
      CloseOutStore(w, id, Restamped(w.sessions[id], Closed, clock), result);
    }
  }

  /** Only the finalize that closes a session touches the store, with as much of its submit as was reached. */
  lemma StoreAfter(settings: Settings, w: World, a: Action)
    ensures Apply(settings, w, a).ledger.store ==
            if a.Finalize? && Closes(w, a, a.id)
            then Queue.After(w.ledger.store, ClosingBatch(w, a.id, a.now), Queue.ReachedBy(a.result))
            else w.ledger.store
  {
    if a.TakePart? {
      ParticipateKeepsLedger(settings, w, a.request, a.now);
    } else if a.Finalize? {
      FinalizeStore(w, a.id, a.now, a.result);
    }
  }

  lemma StoreGrows(s: Store, b: Bulk.Batch, reached: Queue.Reached)
    ensures s.unique <= Queue.After(s, b, reached).unique
  {
  }

  lemma ActionKeepsStore(settings: Settings, w: World, a: Action)
    requires Bulk.Sound(w.ledger.store)
    ensures Bulk.Sound(Apply(settings, w, a).ledger.store)
    ensures w.ledger.store.unique <= Apply(settings, w, a).ledger.store.unique
  {
    StoreAfter(settings, w, a);
    if a.Finalize? && Closes(w, a, a.id) {
      Queue.AfterKeepsSound(w.ledger.store, ClosingBatch(w, a.id, a.now), Queue.ReachedBy(a.result));
      StoreGrows(w.ledger.store, ClosingBatch(w, a.id, a.now), Queue.ReachedBy(a.result));
    }
  }

  lemma ClosingBatchItems(w: World, id: string, now: real)
    requires Inv(w) && id in w.sessions
    ensures ClosingBatch(w, id, now).items == ToItems(Credits(Log(w, id))) && Queue.InScope(ClosingBatch(w, id, now))
  {
    assert Good(ViewOf(w, id), id);
    ProjectionInScope(w, Restamped(w.sessions[id], Closed, now));
  }

  lemma PersistedItems(rows: seq<Participation>, b: Bulk.Batch, s: Store)
    requires b.items == ToItems(rows) && Queue.Persisted(s, b)
    ensures AllStored(rows, s.unique)
  {
    forall p | p in rows ensures (p.gathering, CreditedAs(p)) in s.unique {
      var k :| 0 <= k < |rows| && rows[k] == p;
      assert b.items[k] in b.items;
    }
  }

  /** The finalize that closes a session and returns has stored all its credited attendance. */
  lemma ClosingStores(settings: Settings, w: World, a: Action, id: string)
    requires Inv(w) && Closes(w, a, id) && a.result.Returned?
    ensures AllStored(Credits(Log(w, id)), Apply(settings, w, a).ledger.store.unique)
  {
    StoreAfter(settings, w, a);
    ClosingBatchItems(w, id, a.now);
    Queue.WritePersists(w.ledger.store, ClosingBatch(w, id, a.now));
    PersistedItems(Credits(Log(w, id)), ClosingBatch(w, id, a.now), Apply(settings, w, a).ledger.store);
  }

  lemma AnnouncedBefore(v: View, id: string, c: Change)
    requires Good(v, id) && Enabled(v, id, c) && Announced(Changed(v, id, c))
    ensures Changed(v, id, c).log == v.log
    ensures Announced(v) || (c.ToClosed? && c.announced)
  {
  }

  lemma ActionKeepsStored(settings: Settings, w: World, a: Action, id: string)
    requires Inv(w) && Allowed(w, a)
    ensures StoredIfAnnounced(Apply(settings, w, a), id)
  {
    var w' := Apply(settings, w, a);
    if Announced(ViewOf(w', id)) {
      var c := ActionIsChange(settings, w, a, id);
      assert Good(ViewOf(w, id), id) && StoredIfAnnounced(w, id);
      AnnouncedBefore(ViewOf(w, id), id, c);
      assert Log(w', id) == ViewOf(w', id).log == Log(w, id);
      ActionKeepsStore(settings, w, a);
      if !Announced(ViewOf(w, id)) { ClosingStores(settings, w, a, id); }
    }
  }

  lemma ActionKeepsGood(settings: Settings, w: World, a: Action, id: string)
    requires Inv(w) && Allowed(w, a)
    ensures Good(ViewOf(Apply(settings, w, a), id), id)
  {
    var c := ActionIsChange(settings, w, a, id);
    assert Good(ViewOf(w, id), id);
    ChangeKeepsGood(ViewOf(w, id), id, c);
  }

  lemma ActionKeepsInv(settings: Settings, w: World, a: Action)
    requires Inv(w) && Allowed(w, a)
    ensures Inv(Apply(settings, w, a))
  {
    ActionKeepsStore(settings, w, a);
    forall id ensures Good(ViewOf(Apply(settings, w, a), id), id) { ActionKeepsGood(settings, w, a, id); }
    forall id ensures StoredIfAnnounced(Apply(settings, w, a), id) { ActionKeepsStored(settings, w, a, id); }
  }

  ghost predicate AllAllowed(settings: Settings, w: World, actions: seq<Action>) {
    actions == [] ||
    (var init := actions[..|actions| - 1];
     AllAllowed(settings, w, init) && Allowed(Run(settings, w, init), actions[|actions| - 1]))
  }

  lemma {:induction false} RunKeepsInv(settings: Settings, w: World, actions: seq<Action>)
    requires Inv(w) && AllAllowed(settings, w, actions)
    ensures Inv(Run(settings, w, actions))
  {
    if actions != [] {
      var init := actions[..|actions| - 1];
      RunKeepsInv(settings, w, init);
      ActionKeepsInv(settings, Run(settings, w, init), actions[|actions| - 1]);
    }
  }

  lemma EmptyWorldIsGood()
    ensures Inv(EMPTY_WORLD)
  {
    Bulk.EveryRunBalances([]);
    forall id ensures Good(ViewOf(EMPTY_WORLD, id), id) && StoredIfAnnounced(EMPTY_WORLD, id) {
      assert ViewOf(EMPTY_WORLD, id) == View(None, [], [], {}, []);
    }
  }

  /**
   * In every state a run of the service reaches, for every session: the attendee index is the keys of
   * the credited participations in order, no two log rows share (attendee key, nonce), every row
   * carries the session's own scope, opened and closed were emitted at most once, in order, closed with
   * the final headcount, and whoever an announced closing counts has an attendance in the store.
   */
  lemma EveryRunIsGood(settings: Settings, actions: seq<Action>, id: string)
    requires AllAllowed(settings, EMPTY_WORLD, actions)
    ensures Good(ViewOf(Run(settings, EMPTY_WORLD, actions), id), id)
    ensures StoredIfAnnounced(Run(settings, EMPTY_WORLD, actions), id)
  {
    EmptyWorldIsGood();
    RunKeepsInv(settings, EMPTY_WORLD, actions);
    assert Inv(Run(settings, EMPTY_WORLD, actions));
  }

  // ---- closings that raise ---------------------------------------------------------

  /** The finalize that closed the session raised in its bulk submit. */
  predicate ClosedRaising(settings: Settings, actions: seq<Action>, id: string) {
    actions != [] &&
    (var init, a := actions[..|actions| - 1], actions[|actions| - 1];
     || ClosedRaising(settings, init, id)
     || (Closes(Run(settings, EMPTY_WORLD, init), a, id) && !a.result.Returned?))
  }

  lemma ChangeAnnounces(v: View, id: string, c: Change, raised: bool)
    requires Good(v, id) && Enabled(v, id, c) && (c.Created? ==> Harmless(v, c.session))
    requires if Stage(v.session) == 2 then Announced(v) <==> !raised else !raised
    ensures var v', raised' := Changed(v, id, c), raised || (c.ToClosed? && !c.announced);
            if Stage(v'.session) == 2 then Announced(v') <==> !raised' else !raised'
  {
  }

  /**
   * In every run a closed session is announced, and so has its attendance stored, if and only if the
   * finalize that closed it did not raise.
   */
  lemma {:induction false} ClosedIsAnnouncedIff(settings: Settings, actions: seq<Action>, id: string)
    requires AllAllowed(settings, EMPTY_WORLD, actions)
    ensures var v := ViewOf(Run(settings, EMPTY_WORLD, actions), id);
            if Stage(v.session) == 2 then Announced(v) <==> !ClosedRaising(settings, actions, id)
            else !ClosedRaising(settings, actions, id)
  {
    if actions == [] {
      assert ViewOf(EMPTY_WORLD, id) == View(None, [], [], {}, []);
    } else {
      var init, a := actions[..|actions| - 1], actions[|actions| - 1];
      var w := Run(settings, EMPTY_WORLD, init);
      ClosedIsAnnouncedIff(settings, init, id);
      EmptyWorldIsGood();
      RunKeepsInv(settings, EMPTY_WORLD, init);
      var c := ActionIsChange(settings, w, a, id);
      assert Good(ViewOf(w, id), id);
      ChangeAnnounces(ViewOf(w, id), id, c, ClosedRaising(settings, init, id));
    }
  }

  lemma RaisingCloses(w: World, id: string, clock: real, result: Queue.AttemptResult)
    requires Inv(w) && id in w.sessions && w.sessions[id].status == Closing && !result.Returned?
    ensures var (w', r) := FinalizeClose(w, id, clock, result);
            && r == Failure(SubmitRaised) && id in w'.sessions && w'.sessions[id].status == Closed
            && w'.emitted == w.emitted
            && (result == Queue.RaisedOther(Queue.NothingCommitted) ==> w'.ledger == w.ledger)
  {
    assert Good(ViewOf(w, id), id);
  }

  lemma FinalizedDoesNothing(w: World, id: string, clock: real, result: Queue.AttemptResult)
    requires Stage(ViewOf(w, id).session) == 2
    ensures FinalizeClose(w, id, clock, result).0 == w
  {
  }

  /**
   * A finalize that raises is never made good: the session is closed without its closed event, and no
   * later finalize stores its attendance or announces it, whatever happens in between.
   */
  lemma RaisedFinalizeIsNeverRepaired(settings: Settings, w: World, id: string, clock: real,
                                      result: Queue.AttemptResult,
                                      actions: seq<Action>, again: real, retried: Queue.AttemptResult)
    requires Inv(w) && id in w.sessions && w.sessions[id].status == Closing && !result.Returned?
    requires AllAllowed(settings, FinalizeClose(w, id, clock, result).0, actions)
    ensures var w1 := FinalizeClose(w, id, clock, result).0;
            var w2 := Run(settings, w1, actions);
            && w1.sessions[id].status == Closed && EventsFor(w2.emitted, id) == EventsFor(w.emitted, id)
            && FinalizeClose(w2, id, again, retried).0 == w2
  {
    RaisingCloses(w, id, clock, result);
    var w1 := Apply(settings, w, Finalize(id, clock, result));
    ActionKeepsInv(settings, w, Finalize(id, clock, result));
    FrozenEvents(settings, w1, actions, id);
    RunContinues(settings, w1, actions, id);
    FinalizedDoesNothing(Run(settings, w1, actions), id, again, retried);
  }

  // ---- what credits mean -----------------------------------------------------------

  /** Row `i` is the earliest in-window row of its attendee. */
  ghost predicate FirstInWindow(log: seq<Participation>, i: nat) {
    && i < |log| && !log[i].flags.outOfScope
    && forall j :: 0 <= j < i && !log[j].flags.outOfScope ==> log[j].attendeeKey != log[i].attendeeKey
  }

  lemma FirstInWindowGrows(init: seq<Participation>, last: Participation, i: nat)
    requires i < |init|
    ensures FirstInWindow(init + [last], i) <==> FirstInWindow(init, i)
  {
    var log := init + [last];
    assert forall j :: 0 <= j < |init| ==> log[j] == init[j];
  }

  /** The keys credited are exactly those with an in-window row, each once. */
  lemma {:induction false} CreditedKeys(log: seq<Participation>, k: string)
    ensures k in KeysIn(Credits(log)) <==> exists p :: p in log && !p.flags.outOfScope && p.attendeeKey == k
    ensures NoDup(KeysIn(Credits(log)))
  {
    if log != [] {
      var init, last := log[..|log| - 1], log[|log| - 1];
      assert log == init + [last];
      CreditedKeys(init, k);
      CreditsOne(init, last);
      if !last.flags.outOfScope && last.attendeeKey !in KeysIn(Credits(init)) {
        NoDupConcat(KeysIn(Credits(init)), [last.attendeeKey]);
      }
    }
  }

  /** The last row of a log is first in its window exactly when its key was not credited before. */
  lemma LastIsFirst(init: seq<Participation>, last: Participation)
    ensures FirstInWindow(init + [last], |init|) <==>
            !last.flags.outOfScope && last.attendeeKey !in KeysIn(Credits(init))
  {
    var log := init + [last];
    CreditedKeys(init, last.attendeeKey);
    assert forall j :: 0 <= j < |init| ==> log[j] == init[j] && init[j] in init;
    if !last.flags.outOfScope && last.attendeeKey in KeysIn(Credits(init)) {
      var p :| p in init && !p.flags.outOfScope && p.attendeeKey == last.attendeeKey;
      var j :| 0 <= j < |init| && init[j] == p;
      assert log[j].attendeeKey == log[|init|].attendeeKey;
    }
  }

  /** The rows credited are exactly the earliest in-window rows of their attendees. */
  lemma {:induction false} CreditsAreFirstInWindow(log: seq<Participation>, p: Participation)
    ensures p in Credits(log) <==> exists i: nat :: FirstInWindow(log, i) && log[i] == p
  {
    if log != [] {
      var init, last := log[..|log| - 1], log[|log| - 1];
      assert log == init + [last];
      CreditsAreFirstInWindow(init, p);
      LastIsFirst(init, last);
      if p in Credits(init) {
        var i: nat :| FirstInWindow(init, i) && init[i] == p;
        FirstInWindowGrows(init, last, i);
        assert FirstInWindow(log, i) && log[i] == p;
      } else if p in Credits(log) {
        assert FirstInWindow(log, |init|) && log[|init|] == p;
      }
      if i: nat :| FirstInWindow(log, i) && log[i] == p {
        if i < |init| { FirstInWindowGrows(init, last, i); }
      }
    }
  }

  // ---- over time -------------------------------------------------------------------

  /** What no allowed change undoes: the stage, and the rows and attendees already there. */
  ghost predicate Continues(v: View, v': View) {
    && Stage(v.session) <= Stage(v'.session)
    && v.log <= v'.log && v.attendees <= v'.attendees && v.nonces <= v'.nonces
    && (Stage(v.session) == 2 ==> v'.log == v.log && v'.attendees == v.attendees)
  }

  lemma ChangeContinues(v: View, id: string, c: Change)
    requires Enabled(v, id, c) && (c.Created? ==> Harmless(v, c.session))
    ensures Continues(v, Changed(v, id, c)) && (Stage(v.session) == 2 ==> Changed(v, id, c).events == v.events)
  {
  }

  lemma ActionContinues(settings: Settings, w: World, a: Action, id: string)
    requires Inv(w) && Allowed(w, a)
    ensures Continues(ViewOf(w, id), ViewOf(Apply(settings, w, a), id))
    ensures Stage(ViewOf(w, id).session) == 2 ==>
            EventsFor(Apply(settings, w, a).emitted, id) == EventsFor(w.emitted, id)
  {
    var c := ActionIsChange(settings, w, a, id);
    ChangeContinues(ViewOf(w, id), id, c);
  }

  lemma {:induction false} RunContinues(settings: Settings, w: World, actions: seq<Action>, id: string)
    requires Inv(w) && AllAllowed(settings, w, actions)
    ensures Continues(ViewOf(w, id), ViewOf(Run(settings, w, actions), id))
  {
    if actions != [] {
      var init := actions[..|actions| - 1];
      RunContinues(settings, w, init, id);
      RunKeepsInv(settings, w, init);
      ActionContinues(settings, Run(settings, w, init), actions[|actions| - 1], id);
    }
  }

  /** What a change does to the status and the two ends of the window. */
  predicate Stamps(s: Session, s': Session, c: Change) {
    match c
    case ToOpen(at) =>
      s'.status == Open && s'.openAt == Some(if s.openAt.Some? then s.openAt.value else at) && s'.closeAt == s.closeAt
    case ToClosing(at) =>
      && s'.status == Closing && s'.openAt == s.openAt
      && s'.closeAt == Some(if s.closeAt.Some? then s.closeAt.value else at)
    case ToClosed(at, _) =>
      && s'.status == Closed && s'.openAt == s.openAt
      && s'.closeAt == Some(if s.closeAt.Some? then s.closeAt.value else at)
    case _ => s' == s
  }

  lemma ChangeStamps(v: View, id: string, c: Change)
    requires Enabled(v, id, c) && !c.Created? && v.session.Some?
    ensures Changed(v, id, c).session.Some? && Stamps(v.session.value, Changed(v, id, c).session.value, c)
  {
  }

  /**
   * Opening stamps the start of the window with its time, and closing its end, each unless it is set already;
   * no other operation on the session moves a stamp, or the status.
   */
  lemma WindowIsStampedOnce(settings: Settings, w: World, a: Action, id: string)
    requires Inv(w) && id in w.sessions && !(a.Create? && a.session.id == id)
    ensures var s, w' := w.sessions[id], Apply(settings, w, a);
            && id in w'.sessions
            && (w'.sessions[id] == s
                || (a == OpenIt(id, StampOf(a)) && Stamps(s, w'.sessions[id], ToOpen(StampOf(a))))
                || (a == Close(id, StampOf(a)) && Stamps(s, w'.sessions[id], ToClosing(StampOf(a))))
                || (Closes(w, a, id) && Stamps(s, w'.sessions[id], ToClosed(StampOf(a), true))))
  {
    var c := ActionIsChange(settings, w, a, id);
    assert ViewOf(w, id).session == Some(w.sessions[id]);
    ChangeStamps(ViewOf(w, id), id, c);
    assert ViewOf(Apply(settings, w, a), id).session.Some?;
  }

  /** The time an operation is called at. */
  function StampOf(a: Action): real {
    match a
    case OpenIt(_, now) => now
    case Close(_, now) => now
    case Finalize(_, now, _) => now
    case TakePart(_, now) => now
    case Create(_) => 0.0
  }

  /** Once a session is closed, its log and headcount never change again. */
  lemma ClosedSessionIsFrozen(settings: Settings, w: World, actions: seq<Action>, id: string)
    requires Inv(w) && AllAllowed(settings, w, actions) && id in w.sessions && w.sessions[id].status == Closed
    ensures var w' := Run(settings, w, actions);
            Log(w', id) == Log(w, id) && Attendees(w', id) == Attendees(w, id)
                && EventsFor(w'.emitted, id) == EventsFor(w.emitted, id)
  {
    RunContinues(settings, w, actions, id);
    RunKeepsInv(settings, w, actions);
    var v, v' := ViewOf(w, id), ViewOf(Run(settings, w, actions), id);
    assert Good(v, id) && Good(v', id) && Stage(v'.session) == 2;
    FrozenEvents(settings, w, actions, id);
  }

  lemma {:induction false} FrozenEvents(settings: Settings, w: World, actions: seq<Action>, id: string)
    requires Inv(w) && AllAllowed(settings, w, actions) && Stage(ViewOf(w, id).session) == 2
    ensures EventsFor(Run(settings, w, actions).emitted, id) == EventsFor(w.emitted, id)
  {
    if actions != [] {
      var init := actions[..|actions| - 1];
      FrozenEvents(settings, w, init, id);
      RunContinues(settings, w, init, id);
      RunKeepsInv(settings, w, init);
      ActionContinues(settings, Run(settings, w, init), actions[|actions| - 1], id);
    }
  }

  lemma ClosedCountIsFinal(v: View, id: string, e: SessionEvent)
    requires Good(v, id) && e in v.events && e.SessionClosed?
    ensures e.count == |v.attendees| == |Credits(v.log)|
  {
  }

  /** The headcount previewed at closing never exceeds the one that is finally emitted. */
  lemma PreviewIsALowerBound(settings: Settings, w: World, id: string, now: real, actions: seq<Action>, e: SessionEvent)
    requires Inv(w) && CloseSession(settings, w, id, now).1.Success?
    requires AllAllowed(settings, Apply(settings, w, Close(id, now)), actions)
    requires e in EventsFor(Run(settings, Apply(settings, w, Close(id, now)), actions).emitted, id) && e.SessionClosed?
    ensures CloseSession(settings, w, id, now).1.value.attendeeCount <= e.count
  {
    var w1 := Apply(settings, w, Close(id, now));
    ActionKeepsInv(settings, w, Close(id, now));
    assert Good(ViewOf(w1, id), id);
    PreviewCounts(settings, w, id, now);
    RunContinues(settings, w1, actions, id);
    RunKeepsInv(settings, w1, actions);
    var v' := ViewOf(Run(settings, w1, actions), id);
    assert Good(v', id);
    ClosedCountIsFinal(v', id, e);
  }

  lemma PreviewCounts(settings: Settings, w: World, id: string, now: real)
    requires Inv(w) && CloseSession(settings, w, id, now).1.Success?
    ensures CloseSession(settings, w, id, now).1.value.attendeeCount ==
            |Attendees(CloseSession(settings, w, id, now).0, id)|
  {
    assert Good(ViewOf(w, id), id);
  }

  /** Closing twice, or reopening a finalized session, is refused or does nothing. */
  lemma FinalizeTwiceIsOnce(w: World, id: string, clock: real, result: Queue.AttemptResult, again: real,
                            retried: Queue.AttemptResult)
    requires Inv(w) && FinalizeClose(w, id, clock, result).1.Success?
    ensures var (w1, first) := FinalizeClose(w, id, clock, result);
            var (w2, second) := FinalizeClose(w1, id, again, retried);
            && w2 == w1 && second.Success? && second.value.finalized
            && second.value.attendeeCount == first.value.attendeeCount
            && OpenSession(w1, id, again).1.Failure?
  {
    assert Good(ViewOf(w, id), id);
  }

  // ---- the close path and the bulk service -----------------------------------------

  lemma ProjectionInScope(w: World, session: Session)
    requires AllAnchored(Log(w, session.id), session)
    ensures forall i :: i in ProjectionOf(w, session).items ==>
            i.branch == session.branch && i.event == session.gathering
  {
    var log := Log(w, session.id);
    var items := ProjectionOf(w, session).items;
    forall i | i in items ensures i.branch == session.branch && i.event == session.gathering {
      var k :| 0 <= k < |items| && items[k] == i;
      var p := Credits(log)[k];
      CreditsAreFirstInWindow(log, p);
      var n: nat :| FirstInWindow(log, n) && log[n] == p;
      assert Anchored(log[n], session);
    }
  }

  /** The batch has one item per credited attendee, in order and in scope, so the bulk service takes it. */
  lemma ClosingBatchIsAccepted(w: World, id: string, clock: real)
    requires Inv(w) && id in w.sessions
    ensures var batch := ClosingBatch(w, id, clock);
            && batch.branch == w.sessions[id].branch && |batch.items| == |Attendees(w, id)|
            && (forall k :: 0 <= k < |batch.items| ==> batch.items[k].attendeeKey == Some(Attendees(w, id)[k]))
            && (forall i :: i in batch.items ==> i.branch == batch.branch && i.event == w.sessions[id].gathering)
            && Submit(w.ledger.store, batch.items, batch.branch, batch.batchId).1.accepted
  {
    var batch := ClosingBatch(w, id, clock);
    assert Good(ViewOf(w, id), id);
    ProjectionInScope(w, Restamped(w.sessions[id], Closed, clock));
    Bulk.SubmitIsAllOrNothing(w.ledger.store, batch.items, batch.branch, batch.batchId);
  }

  lemma FinalizeReturns(w: World, id: string, clock: real)
    requires id in w.sessions && w.sessions[id].status == Closing
    ensures var (w', r) := FinalizeClose(w, id, clock, Queue.Returned);
            var batch := ClosingBatch(w, id, clock);
            var outcome := Submit(w.ledger.store, batch.items, batch.branch, batch.batchId).1;
            && w'.ledger == Bulk.Step(w.ledger, batch) && r.Success? && r.value.finalized
            && r.value.attendeeCount == |batch.items|
            && r.value.inserted == outcome.inserted && r.value.deduplicated == outcome.deduplicated
            && r.value.sessionId == w.sessions[id].id && r.value.gathering == w.sessions[id].gathering
  {
  }

  /** The item is the attendance of the participation's member or visitor at its gathering. */
  predicate Attests(i: Item, p: Participation) {
    && i.event == p.gathering && i.attendeeRef == CreditedAs(p) && i.branch == p.branch
    && i.status == "Present" && i.source == "engagement" && i.clientReqId == Some(p.attendeeKey)
    && i.gathering == Some(p.gathering) && i.member == p.memberId
    && i.engagementSession == Some(p.sessionId) && i.attendeeKey == Some(p.attendeeKey)
  }

  lemma ItemsAttest(rows: seq<Participation>)
    ensures |ToItems(rows)| == |rows|
    ensures forall k :: 0 <= k < |rows| ==> Attests(ToItems(rows)[k], rows[k])
  {
  }

  /**
   * Finalizing a closing session submits one item per credited attendee, in order and in scope, so the
   * bulk service takes the batch and accounts for every attendee; the closed event carries that count.
   */
  lemma FinalizeAccountsForEveryone(w: World, id: string, clock: real)
    requires Inv(w) && id in w.sessions && w.sessions[id].status == Closing
    ensures var session, batch := w.sessions[id], ClosingBatch(w, id, clock);
            var credits := Credits(Log(w, id));
            var (w', r) := FinalizeClose(w, id, clock, Queue.Returned);
            && batch.batchId == "engagement:" + id && batch.branch == session.branch
            && |batch.items| == |credits| == |Attendees(w, id)|
            && (forall k :: 0 <= k < |credits| ==> Attests(batch.items[k], credits[k]))
            && (forall i :: i in batch.items ==> i.branch == session.branch && i.event == session.gathering)
            && Submit(w.ledger.store, batch.items, batch.branch, batch.batchId).1.accepted
            && w'.ledger == Bulk.Step(w.ledger, batch)
            && r.Success? && r.value.finalized && r.value.attendeeCount == |Attendees(w, id)|
            && r.value.sessionId == id && r.value.gathering == session.gathering
            && r.value.inserted + r.value.deduplicated == r.value.attendeeCount
            && |w'.ledger.store.rows| == |w.ledger.store.rows| + r.value.inserted
  {
    var batch := ClosingBatch(w, id, clock);
    ClosingBatchItems(w, id, clock);
    ItemsAttest(Credits(Log(w, id)));
    assert Good(ViewOf(w, id), id);
    ClosingBatchIsAccepted(w, id, clock);
    FinalizeReturns(w, id, clock);
    Bulk.SubmitIsAllOrNothing(w.ledger.store, batch.items, batch.branch, batch.batchId);
  }

  // ---- who a closing records -------------------------------------------------------

  /** How many of the participations count for the attendee at the gathering. */
  function TimesCredited(credits: seq<Participation>, gathering: string, attendee: string): nat {
    if credits == [] then 0
    else
      var last := credits[|credits| - 1];
      TimesCredited(credits[..|credits| - 1], gathering, attendee)
      + (if last.gathering == gathering && CreditedAs(last) == attendee then 1 else 0)
  }

  lemma {:induction false} CreditedTimes(credits: seq<Participation>, gathering: string, attendee: string)
    ensures Bulk.Times(ToItems(credits), gathering, attendee) == TimesCredited(credits, gathering, attendee)
  {
    if credits != [] {
      var init, last := credits[..|credits| - 1], credits[|credits| - 1];
      CreditedTimes(init, gathering, attendee);
      assert ToItems(credits)[..|credits| - 1] == ToItems(init);
    }
  }

  /** How many of the participations the store has an attendance for already. */
  function AlreadyStored(credits: seq<Participation>, stored: set<UKey>): nat {
    if credits == [] then 0
    else
      var last := credits[|credits| - 1];
      AlreadyStored(credits[..|credits| - 1], stored)
      + (if (last.gathering, CreditedAs(last)) in stored then 1 else 0)
  }

  lemma {:induction false} NewCredits(s: Store, credits: seq<Participation>)
    requires Bulk.Sound(s)
    ensures |NewItems(s, ToItems(credits))| + AlreadyStored(credits, s.unique) == |credits|
  {
    if credits != [] {
      var init, last := credits[..|credits| - 1], credits[|credits| - 1];
      NewCredits(s, init);
      assert ToItems(credits)[..|credits| - 1] == ToItems(init);
      Bulk.UnseenIffUnrecorded(s, ToItem(last));
    }
  }

  /**
   * Closing records every credited member, or visitor, whom no row records at the gathering yet, whatever
   * source the row has, and nobody else: a member already reported there is deduplicated.
   */
  lemma FinalizeRecords(w: World, id: string, clock: real, gathering: string, attendee: string)
    requires Inv(w) && id in w.sessions && w.sessions[id].status == Closing
    ensures var (w', r) := FinalizeClose(w, id, clock, Queue.Returned);
            var credits, before := Credits(Log(w, id)), Bulk.Times(w.ledger.store.rows, gathering, attendee);
            && Bulk.Times(w'.ledger.store.rows, gathering, attendee) ==
               (if before > 0 then before else TimesCredited(credits, gathering, attendee))
            && r.Success? && r.value.deduplicated == AlreadyStored(credits, w.ledger.store.unique)
  {
    var batch := ClosingBatch(w, id, clock);
    FinalizeAccountsForEveryone(w, id, clock);
    FinalizeReturns(w, id, clock);
    ClosingBatchItems(w, id, clock);
    Bulk.SubmitRecords(w.ledger.store, batch.items, batch.branch, batch.batchId, gathering, attendee);
    CreditedTimes(Credits(Log(w, id)), gathering, attendee);
    NewCredits(w.ledger.store, Credits(Log(w, id)));
  }
}
