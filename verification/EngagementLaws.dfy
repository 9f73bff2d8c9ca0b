/** Who is credited, who is suspected, and what tickets and repeated requests can do. */
module EngagementLaws {
  import opened Wrappers
  import opened Engagement
  import opened EngagementInvariants
  import Bulk = ReportingInvariants
  import Queue = AttendanceQueue

  // ---- the lifecycle ---------------------------------------------------------------

  /** How far along its life a session is. */
  function Rank(status: Status): nat {
    match status
    case Draft => 0
    case Scheduled => 0
    case Open => 1
    case Closing => 2
    case Closed => 3
    case Archived => 4
  }

  /** A session moves one step along its life, or between draft and scheduled; never back and never past a step. */
  lemma MovesAreSteps(from: Status, to: Status)
    ensures CanMove(from, to) <==> Rank(to) == Rank(from) + 1 || {from, to} == {Draft, Scheduled}
  {
    assert {from, to} == {Draft, Scheduled} <==>
           (from == Draft && to == Scheduled) || (from == Scheduled && to == Draft) by {
      if {from, to} == {Draft, Scheduled} { assert from in {Draft, Scheduled} && Draft in {from, to}; }
    }
  }

  /** Opening takes a session not yet opened, closing an open one, finalizing a closing or closed one. */
  lemma OperationsSucceedIff(settings: Settings, w: World, id: string, now: real)
    ensures OpenSession(w, id, now).1.Success? <==> id in w.sessions && w.sessions[id].status in {Draft, Scheduled}
    ensures CloseSession(settings, w, id, now).1.Success? <==> id in w.sessions && w.sessions[id].status == Open
    ensures FinalizeClose(w, id, now, Queue.Returned).1.Success? <==>
            id in w.sessions && w.sessions[id].status in {Closing, Closed}
    ensures OpenSession(w, id, now).1.Failure? ==> OpenSession(w, id, now).0 == w
    ensures CloseSession(settings, w, id, now).1.Failure? ==> CloseSession(settings, w, id, now).0 == w
    ensures FinalizeClose(w, id, now, Queue.Returned).1.Failure? ==> FinalizeClose(w, id, now, Queue.Returned).0 == w
  {
  }

  /** A session of one of the nine kinds can be created, and one of any other kind leaves everything as it was. */
  lemma CreateSucceedsIff(w: World, session: Session)
    ensures var (w', r) := CreateSession(w, session);
            && (r.Success? <==>
                session.kind in {"quiz_race", "tap_burst", "reaction", "bingo", "team_challenge",
                                 "poll", "word_cloud", "qa", "pulse"})
            && (if r.Success? then session.id in w'.sessions && w'.sessions[session.id] == r.value == session
                else w' == w)
            && (forall id :: id != session.id ==> ViewOf(w', id) == ViewOf(w, id))
  {
  }

  /** What is announced of a session that was opened and closed: where it belongs, and how many came. */
  function Announcements(s: Session, id: string, count: nat): seq<SessionEvent> {
    var group := if s.group == Some("") then None else s.group;
    [SessionOpened(id, s.gathering, s.kind, s.branch, s.organization, group),
     SessionClosed(id, s.gathering, count, s.branch, s.organization, group)]
  }

  /** Closing schedules the finalize after the grace period and returns a preview: nothing is recorded yet. */
  lemma ClosingIsScheduled(settings: Settings, w: World, id: string, now: real)
    requires Inv(w) && CloseSession(settings, w, id, now).1.Success?
    ensures var (w', r) := CloseSession(settings, w, id, now);
            && w'.pending == w.pending + [(id, settings.grace)] && w'.ledger == w.ledger
            && r.value == CloseOutcome(id, w.sessions[id].gathering, |Attendees(w, id)|, 0, 0, false)
  {
    assert Good(ViewOf(w, id), id);
    assert |KeysIn(Credits(Log(w, id)))| == |Credits(Log(w, id))|;
  }

  /** One step along the life of a session, from a good state to a good state. */
  ghost predicate StepsTo(w: World, w': World, id: string, status: Status, c: Change) {
    Inv(w') && id in w'.sessions && w'.sessions[id].status == status && Moves(ViewOf(w, id), ViewOf(w', id), id, c)
  }

  lemma OpeningSteps(settings: Settings, w: World, id: string, now: real)
    requires Inv(w) && id in w.sessions && w.sessions[id].status in {Draft, Scheduled}
    ensures OpenSession(w, id, now).1.Success? && StepsTo(w, OpenSession(w, id, now).0, id, Open, ToOpen(now))
  {
    var c := ActionIsChange(settings, w, OpenIt(id, now), id);
    ActionKeepsInv(settings, w, OpenIt(id, now));
    assert ViewOf(Apply(settings, w, OpenIt(id, now)), id).session.value.status == Open;
  }

  lemma ClosingSteps(settings: Settings, w: World, id: string, now: real)
    requires Inv(w) && id in w.sessions && w.sessions[id].status == Open
    ensures CloseSession(settings, w, id, now).1.Success?
    ensures StepsTo(w, CloseSession(settings, w, id, now).0, id, Closing, ToClosing(now))
  {
    var c := ActionIsChange(settings, w, Close(id, now), id);
    ActionKeepsInv(settings, w, Close(id, now));
    assert ViewOf(Apply(settings, w, Close(id, now)), id).session.value.status == Closing;
  }

  lemma FinalizingSteps(settings: Settings, w: World, id: string, now: real)
    requires Inv(w) && id in w.sessions && w.sessions[id].status == Closing
    ensures FinalizeClose(w, id, now, Queue.Returned).1.Success?
    ensures StepsTo(w, FinalizeClose(w, id, now, Queue.Returned).0, id, Closed, ToClosed(now, true))
  {
    var a := Finalize(id, now, Queue.Returned);
    var c := ActionIsChange(settings, w, a, id);
    ActionKeepsInv(settings, w, a);
    FinalizeReturns(w, id, now);
    assert ViewOf(Apply(settings, w, a), id).session.value.status == Closed;
  }

  lemma LifeIsAnnounced(v: View, id: string, openAt: real, closeAt: real, finalAt: real, v1: View, v2: View, v3: View)
    requires Good(v, id) && v.session.Some? && v.session.value.status in {Draft, Scheduled}
    requires Moves(v, v1, id, ToOpen(openAt)) && Moves(v1, v2, id, ToClosing(closeAt))
    requires Moves(v2, v3, id, ToClosed(finalAt, true))
    ensures v3.session.Some? && v3.session.value.status == Closed
    ensures v3.events == Announcements(v.session.value, id, |v3.attendees|)
  {
    assert |KeysIn(Credits(v.log))| == |Credits(v.log)|;
  }

  /** The session's status, and what is announced of it once it was opened, closed and finalized. */
  ghost predicate RunsToClosed(w: World, w3: World, id: string)
    requires id in w.sessions
  {
    && id in w3.sessions && w3.sessions[id].status == Closed
    && EventsFor(w3.emitted, id) == Announcements(w.sessions[id], id, |Attendees(w3, id)|)
  }

  lemma LifeIsRun(w: World, w1: World, w2: World, w3: World, id: string, openAt: real, closeAt: real, finalAt: real)
    requires Inv(w) && id in w.sessions && w.sessions[id].status in {Draft, Scheduled}
    requires StepsTo(w, w1, id, Open, ToOpen(openAt)) && StepsTo(w1, w2, id, Closing, ToClosing(closeAt))
    requires StepsTo(w2, w3, id, Closed, ToClosed(finalAt, true))
    ensures RunsToClosed(w, w3, id)
  {
    assert Good(ViewOf(w, id), id);
    LifeIsAnnounced(ViewOf(w, id), id, openAt, closeAt, finalAt, ViewOf(w1, id), ViewOf(w2, id), ViewOf(w3, id));
  }

  /**
   * Every session in draft or scheduled can be opened, closed and finalized, one after the other; that
   * leaves it closed, with exactly its opening and its closing announced, the latter with its headcount.
   */
  lemma EverySessionCanBeClosed(settings: Settings, w: World, id: string, openAt: real, closeAt: real, finalAt: real)
    requires Inv(w) && id in w.sessions && w.sessions[id].status in {Draft, Scheduled}
    ensures var w1 := OpenSession(w, id, openAt).0;
            var w2 := CloseSession(settings, w1, id, closeAt).0;
            && OpenSession(w, id, openAt).1.Success? && CloseSession(settings, w1, id, closeAt).1.Success?
            && FinalizeClose(w2, id, finalAt, Queue.Returned).1.Success?
            && RunsToClosed(w, FinalizeClose(w2, id, finalAt, Queue.Returned).0, id)
  {
    var w1 := OpenSession(w, id, openAt).0;
    OpeningSteps(settings, w, id, openAt);
    var w2 := CloseSession(settings, w1, id, closeAt).0;
    ClosingSteps(settings, w1, id, closeAt);
    var w3 := FinalizeClose(w2, id, finalAt, Queue.Returned).0;
    FinalizingSteps(settings, w2, id, finalAt);
    LifeIsRun(w, w1, w2, w3, id, openAt, closeAt, finalAt);
  }

  // ---- what a request leaves in the log --------------------------------------------

  /** The row says what the request said, for the session it was sent to, at that time. */
  predicate LogsRequest(p: Participation, session: Session, r: Request, at: real, grace: real) {
    && p.sessionId == session.id && p.attendeeKey == r.attendeeKey && p.memberId == r.memberId
    && p.displayName == r.displayName && p.device == r.device && p.nonce == r.nonce && p.ip == r.ip
    && p.geoRegion == r.geoRegion && p.feedback == r.feedback && p.clientSubmittedAt == r.clientSubmittedAt
    && p.submittedAt == at && p.gathering == session.gathering && p.branch == session.branch
    && p.organization == session.organization && p.group == session.group && p.kind == session.kind
    && p.role == (if r.role.Some? && r.role.value != "" then r.role.value else "member")
    && p.engagementType == (if session.kind in {"poll", "word_cloud", "qa", "pulse"} then "questionnaire" else "game")
    && (p.score.Some? <==> r.score.Some? && session.kind !in {"poll", "word_cloud", "qa", "pulse"})
    && (p.score.Some? ==> 0.0 <= p.score.value <= 100.0)
    && p.flags.offlineReplay == r.offlineReplay && !p.flags.facilitatorOverride
    && (p.flags.outOfScope <==> || (session.openAt.Some? && at < session.openAt.value)
                                || (session.closeAt.Some? && at > session.closeAt.value + grace))
  }

  lemma RecordedRequestIsLogged(settings: Settings, w: World, session: Session, r: Request, at: real)
    requires RecordRequest(settings, w, session, r, at).1.Success?
    requires RecordRequest(settings, w, session, r, at).1.value.accepted
    ensures var log, log' := Log(w, session.id), Log(RecordRequest(settings, w, session, r, at).0, session.id);
            |log'| == |log| + 1 && log' == log + [log'[|log|]]
                && LogsRequest(log'[|log|], session, r, at, settings.grace)
  {
  }

  lemma AdmittedRequestIsLogged(settings: Settings, w: World, r: Request, at: real)
    requires r.sessionId in w.sessions
    requires Admitted(settings, w, r, at).1.Success? && Admitted(settings, w, r, at).1.value.accepted
    ensures var session := w.sessions[r.sessionId];
            var log, log' := Log(w, session.id), Log(Admitted(settings, w, r, at).0, session.id);
            |log'| == |log| + 1 && log' == log + [log'[|log|]]
                && LogsRequest(log'[|log|], session, r, at, settings.grace)
  {
    var w1 := Throttle(w, ThrottleKey(r), at, settings.perSecond).0;
    RecordedRequestIsLogged(settings, w1, w.sessions[r.sessionId], r, at);
  }

  /** An accepted request adds one row to its session's log, which says what the request said. */
  lemma AcceptedRequestIsLogged(settings: Settings, w: World, r: Request, clock: real)
    requires Inv(w)
    requires Participate(settings, w, r, clock).1.Success? && Participate(settings, w, r, clock).1.value.accepted
    ensures r.sessionId in w.sessions
    ensures var id, at := r.sessionId, if r.submittedAt.Some? then r.submittedAt.value else clock;
            var log, log' := Log(w, id), Log(Participate(settings, w, r, clock).0, id);
            |log'| == |log| + 1 && log' == log + [log'[|log|]]
                && LogsRequest(log'[|log|], w.sessions[id], r, at, settings.grace)
  {
    AdmissionMeans(settings, w.sessions, r, clock);
    assert Good(ViewOf(w, r.sessionId), r.sessionId);
    AdmittedRequestIsLogged(settings, w, r, TimeOf(r, clock));
  }

  lemma FirstStaysFirst(log: seq<Participation>, log': seq<Participation>, i: nat)
    requires log <= log' && FirstInWindow(log, i)
    ensures FirstInWindow(log', i) && log'[i] == log[i] && log[i] in Credits(log')
  {
    assert forall j :: 0 <= j <= i ==> log'[j] == log[j];
    CreditsAreFirstInWindow(log', log[i]);
  }

  /** The request was the attendee's first in the session's window. */
  ghost predicate FirstOfAttendee(settings: Settings, w: World, r: Request, clock: real) {
    && r.sessionId in w.sessions && r.attendeeKey !in Attendees(w, r.sessionId)
    && InTimeAndAccepted(settings, w.sessions[r.sessionId], r, TimeOf(r, clock), Participate(settings, w, r, clock).1,
                         r.attendeeKey)
  }

  lemma FirstRequestIsCredited(settings: Settings, w: World, r: Request, clock: real) returns (p: Participation)
    requires Inv(w) && FirstOfAttendee(settings, w, r, clock)
    ensures var id := r.sessionId; var log, log' := Log(w, id), Log(Participate(settings, w, r, clock).0, id);
            && log' == log + [p] && FirstInWindow(log', |log|)
            && p.gathering == w.sessions[id].gathering && p.memberId == r.memberId && p.attendeeKey == r.attendeeKey
  {
    var id := r.sessionId;
    var log, log' := Log(w, id), Log(Participate(settings, w, r, clock).0, id);
    AcceptedRequestIsLogged(settings, w, r, clock);
    p := log'[|log|];
    assert Good(ViewOf(w, id), id);
    LastIsFirst(log, p);
  }

  lemma CreditedIsStored(w: World, id: string, log: seq<Participation>, i: nat)
    requires Inv(w) && Announced(ViewOf(w, id)) && log <= Log(w, id) && FirstInWindow(log, i)
    ensures Bulk.Times(w.ledger.store.rows, log[i].gathering, CreditedAs(log[i])) > 0
  {
    FirstStaysFirst(log, Log(w, id), i);
    assert StoredIfAnnounced(w, id);
    Bulk.TimesMeaning(w.ledger.store.rows, log[i].gathering, CreditedAs(log[i]));
  }

  lemma RowStaysUntilStored(settings: Settings, w: World, actions: seq<Action>, id: string, i: nat)
    requires Inv(w) && AllAllowed(settings, w, actions) && Announced(ViewOf(Run(settings, w, actions), id))
    requires FirstInWindow(Log(w, id), i)
    ensures Bulk.Times(Run(settings, w, actions).ledger.store.rows, Log(w, id)[i].gathering, CreditedAs(Log(w, id)[i]))
            > 0
  {
    RunContinues(settings, w, actions, id);
    RunKeepsInv(settings, w, actions);
    assert ViewOf(w, id).log <= ViewOf(Run(settings, w, actions), id).log;
    CreditedIsStored(Run(settings, w, actions), id, Log(w, id), i);
  }

  lemma FirstTakingPart(settings: Settings, w: World, r: Request, clock: real)
    requires Inv(w) && FirstOfAttendee(settings, w, r, clock)
    ensures var w1, i := Apply(settings, w, TakePart(r, clock)), |Log(w, r.sessionId)|;
            && Inv(w1) && FirstInWindow(Log(w1, r.sessionId), i)
            && Log(w1, r.sessionId)[i].gathering == w.sessions[r.sessionId].gathering
            && CreditedAs(Log(w1, r.sessionId)[i]) ==
               if r.memberId.Some? && r.memberId.value != "" then r.memberId.value else r.attendeeKey
  {
    var p := FirstRequestIsCredited(settings, w, r, clock);
    ActionKeepsInv(settings, w, TakePart(r, clock));
  }

  /**
   * Whoever takes part in time is stored once the session's closing is announced, whatever happens in
   * between: a member under their own id, a visitor under their attendee key, at the session's gathering.
   */
  lemma ParticipantIsStored(settings: Settings, w: World, r: Request, clock: real, actions: seq<Action>)
    requires Inv(w) && FirstOfAttendee(settings, w, r, clock)
    requires var w1 := Apply(settings, w, TakePart(r, clock));
             AllAllowed(settings, w1, actions) && Announced(ViewOf(Run(settings, w1, actions), r.sessionId))
    ensures var rows := Run(settings, Apply(settings, w, TakePart(r, clock)), actions).ledger.store.rows;
            var who := if r.memberId.Some? && r.memberId.value != "" then r.memberId.value else r.attendeeKey;
            Bulk.Times(rows, w.sessions[r.sessionId].gathering, who) > 0
  {
    FirstTakingPart(settings, w, r, clock);
    RowStaysUntilStored(settings, Apply(settings, w, TakePart(r, clock)), actions, r.sessionId,
                        |Log(w, r.sessionId)|);
  }

  // ---- who is credited -------------------------------------------------------------

  /** The request was accepted for this session, at a time inside its window with the closing grace. */
  ghost predicate InTimeAndAccepted(settings: Settings, session: Session, r: Request, at: real,
                                    receipt: Result<Receipt, EngagementError>, k: string)
  {
    && receipt.Success? && receipt.value.accepted && k == r.attendeeKey
    && (session.openAt.Some? ==> session.openAt.value <= at)
    && (session.closeAt.Some? ==> at <= session.closeAt.value + settings.grace)
  }

  lemma RequestCredits(settings: Settings, w: World, session: Session, r: Request, at: real, id: string, k: string)
    ensures var (w', receipt) := RecordRequest(settings, w, session, r, at);
            k in Attendees(w', id) <==>
                k in Attendees(w, id) || (id == session.id && InTimeAndAccepted(settings, session, r, at, receipt, k))
  {
  }

  lemma AdmittedCredits(settings: Settings, w: World, r: Request, at: real, id: string, k: string)
    requires r.sessionId in w.sessions && w.sessions[r.sessionId].id == r.sessionId
    ensures var (w', receipt) := Admitted(settings, w, r, at);
            k in Attendees(w', id) <==>
            || k in Attendees(w, id)
            || (id == r.sessionId && InTimeAndAccepted(settings, w.sessions[id], r, at, receipt, k))
  {
    var (w1, allowed) := Throttle(w, ThrottleKey(r), at, settings.perSecond);
    if allowed { RequestCredits(settings, w1, w.sessions[r.sessionId], r, at, id, k); }
  }

  /**
   * Taking part adds an attendee to a session's headcount exactly when the request is accepted and its
   * time lies in `[open_at, close_at + grace]`; nobody is ever removed, suspect or not.
   */
  lemma ParticipateCreditsIff(settings: Settings, w: World, r: Request, clock: real, id: string, k: string)
    requires Inv(w)
    ensures var (w', receipt) := Participate(settings, w, r, clock);
            var at := TimeOf(r, clock);
            k in Attendees(w', id) <==>
            || k in Attendees(w, id)
            || (id == r.sessionId && id in w.sessions && InTimeAndAccepted(settings, w.sessions[id], r, at, receipt, k))
  {
    if Admission(settings, w.sessions, r, clock).None? {
      AdmissionMeans(settings, w.sessions, r, clock);
      assert Good(ViewOf(w, r.sessionId), r.sessionId);
      AdmittedCredits(settings, w, r, TimeOf(r, clock), id, k);
    }
  }

  // ---- the suspect-address heuristic -----------------------------------------------

  /** The attendee keys with a logged row from the address. */
  function KeysFrom(log: seq<Participation>, ip: string): set<string> {
    set p | p in log && p.ip == Some(ip) && ip != "" :: p.attendeeKey
  }

  ghost predicate IpIndexed(w: World, id: string, ip: string) {
    IpAttendees(w, id, ip) == KeysFrom(Log(w, id), ip)
  }

  lemma KeysFromOne(log: seq<Participation>, p: Participation, ip: string)
    ensures KeysFrom(log + [p], ip) == KeysFrom(log, ip)
            + (if p.ip == Some(ip) && ip != "" then {p.attendeeKey} else {})
  {
    assert (log + [p])[|log|] == p && forall q :: q in log ==> q in log + [p];
  }

  lemma RecordKeepsIpIndex(w: World, p: Participation, id: string, ip: string)
    requires IpIndexed(w, id, ip)
    ensures IpIndexed(Record(w, p), id, ip)
  {
    KeysFromOne(Log(w, id), p, ip);
  }

  lemma RequestKeepsIpIndex(settings: Settings, w: World, session: Session, r: Request, at: real, id: string,
                            ip: string)
    requires IpIndexed(w, id, ip)
    ensures IpIndexed(RecordRequest(settings, w, session, r, at).0, id, ip)
  {
    if session.kind in ALL_KINDS {
      RecordKeepsIpIndex(w, ToParticipation(session, r, at, FlagsFor(settings, w, session, r, at)), id, ip);
    }
  }

  lemma AdmittedKeepsIpIndex(settings: Settings, w: World, r: Request, at: real, id: string, ip: string)
    requires IpIndexed(w, id, ip) && r.sessionId in w.sessions
    ensures IpIndexed(Admitted(settings, w, r, at).0, id, ip)
  {
    var w1 := Throttle(w, ThrottleKey(r), at, settings.perSecond).0;
    assert IpIndexed(w1, id, ip);
    RequestKeepsIpIndex(settings, w1, w.sessions[r.sessionId], r, at, id, ip);
  }

  lemma ParticipateKeepsIpIndex(settings: Settings, w: World, r: Request, clock: real, id: string, ip: string)
    requires IpIndexed(w, id, ip)
    ensures IpIndexed(Participate(settings, w, r, clock).0, id, ip)
  {
    if Admission(settings, w.sessions, r, clock).None? {
      AdmittedKeepsIpIndex(settings, w, r, TimeOf(r, clock), id, ip);
    }
  }

  lemma FinalizeKeepsLogs(w: World, id: string, clock: real, result: Queue.AttemptResult)
    ensures FinalizeClose(w, id, clock, result).0.participations == w.participations
    ensures FinalizeClose(w, id, clock, result).0.ipAttendees == w.ipAttendees
  {
  }

  lemma OthersKeepLogs(settings: Settings, w: World, a: Action)
    requires !a.TakePart?
    ensures Apply(settings, w, a).participations == w.participations
    ensures Apply(settings, w, a).ipAttendees == w.ipAttendees
  {
    if a.Finalize? { FinalizeKeepsLogs(w, a.id, a.now, a.result); }
  }

  lemma ActionKeepsIpIndex(settings: Settings, w: World, a: Action, id: string, ip: string)
    requires IpIndexed(w, id, ip)
    ensures IpIndexed(Apply(settings, w, a), id, ip)
  {
    if a.TakePart? {
      ParticipateKeepsIpIndex(settings, w, a.request, a.now, id, ip);
    } else {
      OthersKeepLogs(settings, w, a);
    }
  }

  lemma {:induction false} EveryRunIndexesAddresses(settings: Settings, actions: seq<Action>, id: string, ip: string)
    ensures IpIndexed(Run(settings, EMPTY_WORLD, actions), id, ip)
  {
    if actions != [] {
      var init := actions[..|actions| - 1];
      EveryRunIndexesAddresses(settings, init, id, ip);
      ActionKeepsIpIndex(settings, Run(settings, EMPTY_WORLD, init), actions[|actions| - 1], id, ip);
    }
  }

  /**
   * After any run, a participation is flagged suspect exactly when it reacted in under 100 ms or its
   * address already has rows of at least eight distinct attendees in this session's log.
   */
  lemma SuspectMeansFastOrCrowded(settings: Settings, actions: seq<Action>, session: Session, r: Request, at: real)
    ensures var w := Run(settings, EMPTY_WORLD, actions);
            FlagsFor(settings, w, session, r, at).suspect <==>
            || (r.reactionMs.Some? && 0.0 < r.reactionMs.value < 100.0)
            || (r.ip.Some? && |KeysFrom(Log(w, session.id), r.ip.value)| >= 8)
  {
    if r.ip.Some? { EveryRunIndexesAddresses(settings, actions, session.id, r.ip.value); }
  }

  // ---- what a receipt says ---------------------------------------------------------

  /** Some row of the log has the attendee's nonce. */
  ghost predicate NonceLogged(log: seq<Participation>, key: string, nonce: string) {
    exists i :: 0 <= i < |log| && log[i].attendeeKey == key && log[i].nonce == nonce
  }

  lemma NonceIsLogged(w: World, id: string, key: string, nonce: string)
    requires Inv(w)
    ensures (id, key, nonce) in w.nonces <==> NonceLogged(Log(w, id), key, nonce)
  {
    var v := ViewOf(w, id);
    assert Good(v, id);
    assert (id, key, nonce) in w.nonces <==> (key, nonce) in v.nonces;
    if (key, nonce) in v.nonces {
      var p :| p in v.log && NoncePair(p) == (key, nonce);
      var i :| 0 <= i < |v.log| && v.log[i] == p;
    }
    if NonceLogged(v.log, key, nonce) {
      var i :| 0 <= i < |v.log| && v.log[i].attendeeKey == key && v.log[i].nonce == nonce;
      assert v.log[i] in v.log && NoncePair(v.log[i]) == (key, nonce);
    }
  }

  /** The reason a request is turned away before anything is written. */
  lemma RefusedBeforeWriting(settings: Settings, w: World, r: Request, clock: real)
    requires r.sessionId in w.sessions && settings.secret != ""
    ensures var live, t := w.sessions[r.sessionId].status in {Open, Closing}, r.ticket;
            var signed :=
               && settings.mac(settings.secret, t.sessionId, t.attendeeKey, t.issuedAt, t.expiresAt) == t.signature
               && clock < t.expiresAt;
            var refusal := Admission(settings, w.sessions, r, clock);
            && (refusal == Some(Refused(r, SessionNotLive)) <==> !live)
            && (refusal == Some(Refused(r, InvalidTicket)) <==> live && !signed)
            && (refusal == Some(Refused(r, AttendeeKeyMismatch)) <==>
                live && signed && t.attendeeKey != r.attendeeKey)
            && (refusal == None <==> live && signed && t.attendeeKey == r.attendeeKey)
            && (refusal.Some? ==> Participate(settings, w, r, clock) == (w, refusal.value))
  {
  }

  lemma AdmittedReceipt(settings: Settings, w: World, r: Request, at: real)
    requires r.sessionId in w.sessions && w.sessions[r.sessionId].kind in ALL_KINDS
    ensures var receipt := Admitted(settings, w, r, at).1;
            && receipt.Success? && receipt.value.attendeeKey == r.attendeeKey
            && (receipt.value.accepted <==> receipt.value.reason == None)
            && receipt.value.reason in {None, Some(Throttled), Some(DuplicateNonce)}
            && (receipt.value.reason == Some(Throttled) <==>
                !Throttle(w, ThrottleKey(r), at, settings.perSecond).1)
            && (receipt.value.reason != Some(Throttled) ==>
                (receipt.value.accepted <==> (w.sessions[r.sessionId].id, r.attendeeKey, r.nonce) !in w.nonces))
  {
  }

  /**
   * Of the requests let through to the throttle and not throttled, exactly those are accepted whose nonce the
   * attendee has no row for in the session's log yet; the others are answered as duplicates.
   */
  lemma AcceptedIffNonceIsNew(settings: Settings, w: World, r: Request, clock: real)
    requires Inv(w) && r.sessionId in w.sessions && w.sessions[r.sessionId].kind in ALL_KINDS
    requires Admission(settings, w.sessions, r, clock).None?
    ensures var receipt := Participate(settings, w, r, clock).1;
            && receipt.Success? && receipt.value.attendeeKey == r.attendeeKey
            && (receipt.value.accepted <==> receipt.value.reason == None)
            && (receipt.value.reason == Some(Throttled)
                || receipt.value.reason ==
                   (if NonceLogged(Log(w, r.sessionId), r.attendeeKey, r.nonce) then Some(DuplicateNonce) else None))
  {
    assert Good(ViewOf(w, r.sessionId), r.sessionId);
    NonceIsLogged(w, r.sessionId, r.attendeeKey, r.nonce);
    AdmittedReceipt(settings, w, r, TimeOf(r, clock));
  }

  // ---- tickets and replays ---------------------------------------------------------

  /**
   * A member gets the same attendee key on every device they join a session from, and so counts once; a visitor
   * gets one for the device.
   */
  lemma KeyIsPerMember(settings: Settings, w: World, id: string, memberId: Option<string>, device: string, at: real)
    requires Join(settings, w, id, memberId, device, at).Success? && w.sessions[id].id == id
    ensures id in w.sessions && w.sessions[id].status in {Open, Closing}
    ensures var t := Join(settings, w, id, memberId, device, at).value;
            && t.attendeeKey == (if memberId.Some? && memberId.value != ""
                                 then settings.digest(id + "|" + memberId.value)
                                 else settings.digest(id + "|" + device))
            && t.sessionId == id && t.memberId == memberId && t.device == device
            && t.issuedAt == at && t.expiresAt == at + 3600.0
  {
  }

  /** A ticket issued on join passes verification until, and only until, it expires. */
  lemma JoinTicketLastsItsLifetime(settings: Settings, w: World, id: string, memberId: Option<string>, device: string,
                                   at: real, clock: real)
    requires Join(settings, w, id, memberId, device, at).Success?
    ensures VerifyTicket(settings, Join(settings, w, id, memberId, device, at).value, clock) <==>
            clock < at + TICKET_TTL_SECONDS
  {
  }

  lemma AcceptedRow(settings: Settings, w: World, r: Request, at: real)
    requires r.sessionId in w.sessions
    requires Admitted(settings, w, r, at).1.Success? && Admitted(settings, w, r, at).1.value.accepted
    ensures (w.sessions[r.sessionId].id, r.attendeeKey, r.nonce) in Admitted(settings, w, r, at).0.nonces
    ensures Admitted(settings, w, r, at).0.sessions == w.sessions
  {
  }

  lemma AcceptedIsRecorded(settings: Settings, w: World, r: Request, clock: real)
    requires Participate(settings, w, r, clock).1.Success? && Participate(settings, w, r, clock).1.value.accepted
    ensures r.sessionId in w.sessions
    ensures (w.sessions[r.sessionId].id, r.attendeeKey, r.nonce) in Participate(settings, w, r, clock).0.nonces
    ensures Participate(settings, w, r, clock).0.sessions == w.sessions
  {
    AcceptedRow(settings, w, r, TimeOf(r, clock));
  }

  lemma KnownNonceIsNotRecorded(settings: Settings, w: World, session: Session, r: Request, at: real)
    requires (session.id, r.attendeeKey, r.nonce) in w.nonces
    ensures var (w', receipt) := RecordRequest(settings, w, session, r, at);
            w' == w && (receipt.Success? ==> !receipt.value.accepted)
  {
  }

  lemma KnownNonceAdmitted(settings: Settings, w: World, r: Request, at: real)
    requires r.sessionId in w.sessions && (w.sessions[r.sessionId].id, r.attendeeKey, r.nonce) in w.nonces
    ensures var (w', receipt) := Admitted(settings, w, r, at);
            w' == w.(throttle := w'.throttle) && (receipt.Success? ==> !receipt.value.accepted)
  {
    var w1 := Throttle(w, ThrottleKey(r), at, settings.perSecond).0;
    KnownNonceIsNotRecorded(settings, w1, w.sessions[r.sessionId], r, at);
  }

  lemma KnownNonceIsRefused(settings: Settings, w: World, r: Request, clock: real)
    requires r.sessionId in w.sessions && (w.sessions[r.sessionId].id, r.attendeeKey, r.nonce) in w.nonces
    ensures var (w', receipt) := Participate(settings, w, r, clock);
            w' == w.(throttle := w'.throttle) && (receipt.Success? ==> !receipt.value.accepted)
  {
    KnownNonceAdmitted(settings, w, r, TimeOf(r, clock));
  }

  /**
   * A participation that was accepted is never accepted a second time, whatever happens in between;
   * sending it again leaves every log, attendee index and emitted event as it was.
   */
  lemma ReplayedParticipationIsRefused(settings: Settings, w: World, r: Request, clock: real, between: seq<Action>,
                                       again: real)
    requires Inv(w) && Participate(settings, w, r, clock).1.Success?
    requires Participate(settings, w, r, clock).1.value.accepted
    requires AllAllowed(settings, Apply(settings, w, TakePart(r, clock)), between)
    ensures var w1 := Run(settings, Apply(settings, w, TakePart(r, clock)), between);
            var (w2, second) := Participate(settings, w1, r, again);
            && w2 == w1.(throttle := w2.throttle)
            && (second.Success? ==> !second.value.accepted)
  {
    AcceptedIsRecorded(settings, w, r, clock);
    var w0 := Apply(settings, w, TakePart(r, clock));
    ActionKeepsInv(settings, w, TakePart(r, clock));
    NonceStays(settings, w0, between, r);
    var w1 := Run(settings, w0, between);
    if r.sessionId in w1.sessions { KnownNonceIsRefused(settings, w1, r, again); }
  }

  lemma NonceStays(settings: Settings, w: World, actions: seq<Action>, r: Request)
    requires Inv(w) && AllAllowed(settings, w, actions)
    requires r.sessionId in w.sessions && (w.sessions[r.sessionId].id, r.attendeeKey, r.nonce) in w.nonces
    ensures var w' := Run(settings, w, actions);
            r.sessionId in w'.sessions ==> (w'.sessions[r.sessionId].id, r.attendeeKey, r.nonce) in w'.nonces
  {
    var id := r.sessionId;
    var w' := Run(settings, w, actions);
    RunContinues(settings, w, actions, id);
    RunKeepsInv(settings, w, actions);
    assert Good(ViewOf(w, id), id) && Good(ViewOf(w', id), id);
    assert (r.attendeeKey, r.nonce) in ViewOf(w, id).nonces;
    assert (r.attendeeKey, r.nonce) in ViewOf(w', id).nonces;
  }

  /** Whoever joined a session is admitted with that ticket exactly while the session is live and the ticket lasts. */
  lemma JoinedDeviceIsAdmitted(settings: Settings, w: World, w': World, r: Request, at: real, clock: real)
    requires Join(settings, w, r.sessionId, r.memberId, r.device, at) == Success(r.ticket)
    requires r.attendeeKey == r.ticket.attendeeKey && r.sessionId in w'.sessions
    ensures Admission(settings, w'.sessions, r, clock).None? <==>
            Live(w'.sessions[r.sessionId].status) && clock < at + TICKET_TTL_SECONDS
  {
    JoinTicketLastsItsLifetime(settings, w, r.sessionId, r.memberId, r.device, at, clock);
  }

  /** Creating a closed session anew breaks "opened once": it can be opened, and announced, again. */
  lemma RecreatedSessionOpensTwice(settings: Settings, w: World, s: Session, now: real)
    requires Inv(w) && s.id in w.sessions && w.sessions[s.id].status == Closed && s.status == Draft
    requires s.kind in ALL_KINDS
    ensures var w' := Run(settings, w, [Create(s), OpenIt(s.id, now)]);
            && EventsFor(w'.emitted, s.id) == EventsFor(w.emitted, s.id) + [OpenedBy(s)]
            && EventsFor(w.emitted, s.id) != [] && EventsFor(w.emitted, s.id)[0].SessionOpened?
  {
    var actions := [Create(s), OpenIt(s.id, now)];
    assert actions[..1] == [Create(s)] && actions[..1][..0] == [];
    assert Run(settings, w, actions[..1]) == Apply(settings, w, Create(s));
    assert Good(ViewOf(w, s.id), s.id);
    EventsForOne(w.emitted, OpenedBy(Restamped(s, Open, now)), s.id);
  }
}
