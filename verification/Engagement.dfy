/**
 * The live engagement session of `engagement.py`: lifecycle, participation log, and the close path
 * that projects credited attendees into one bulk attendance batch.
 */
module Engagement {
  import opened Wrappers
  import opened Reporting
  import Bulk = ReportingInvariants
  import Queue = AttendanceQueue

  datatype Status = Draft | Scheduled | Open | Closing | Closed | Archived

  const GAME_KINDS: set<string> := {"quiz_race", "tap_burst", "reaction", "bingo", "team_challenge"}
  const QUESTIONNAIRE_KINDS: set<string> := {"poll", "word_cloud", "qa", "pulse"}
  const ALL_KINDS: set<string> := GAME_KINDS + QUESTIONNAIRE_KINDS

  const DEFAULT_ATTENDEE_ROLE := "member"
  const SUSPECT_REACTION_MS := 100.0
  const SUSPECT_SAME_IP_ATTENDEES := 8
  const TICKET_TTL_SECONDS := 3600.0

  datatype Session = Session(id: string, gathering: string, branch: string, organization: string, group: Option<string>,
                             kind: string, status: Status, openAt: Option<real>, closeAt: Option<real>)

  datatype WindowReason = BeforeOpen | AfterGrace

  datatype Flags = Flags(outOfScope: bool, reason: Option<WindowReason>, suspect: bool, offlineReplay: bool,
                         facilitatorOverride: bool)

  datatype Ticket = Ticket(sessionId: string, attendeeKey: string, memberId: Option<string>, device: string,
                           issuedAt: real, expiresAt: real, signature: string)

  /** What a client sends; feedback values are JSON text. */
  datatype Request = Request(sessionId: string, ticket: Ticket, attendeeKey: string, memberId: Option<string>,
                             displayName: string, device: string, nonce: string, role: Option<string>,
                             score: Option<real>, reactionMs: Option<real>, submittedAt: Option<real>,
                             clientSubmittedAt: Option<real>, ip: Option<string>, geoRegion: Option<string>,
                             offlineReplay: bool, feedback: map<string, string>)

  datatype Participation = Participation(sessionId: string, attendeeKey: string, memberId: Option<string>,
                                         displayName: string, device: string, role: string, engagementType: string,
                                         kind: string, score: Option<real>, submittedAt: real,
                                         clientSubmittedAt: Option<real>, branch: string, organization: string,
                                         group: Option<string>, geoRegion: Option<string>, nonce: string,
                                         ip: Option<string>, gathering: string, flags: Flags,
                                         feedback: map<string, string>)

  datatype Reason = SessionNotLive | InvalidTicket | AttendeeKeyMismatch | Throttled | DuplicateNonce

  datatype Receipt = Receipt(accepted: bool, attendeeKey: string, reason: Option<Reason>, submittedAt: Option<real>,
                             flags: Option<Flags>)

  datatype CloseOutcome = CloseOutcome(sessionId: string, gathering: string, attendeeCount: nat, inserted: nat,
                                       deduplicated: nat, finalized: bool)

  datatype EngagementError = UnknownSession | IllegalTransition(from: Status, to: Status) | UnknownKind | EmptySecret
                           | NoIdentity | NotLive(status: Status) | SubmitRaised

  datatype SessionEvent =
    | SessionOpened(session: string, gathering: string, kind: string, branch: string, organization: string,
                    group: Option<string>)
    | SessionClosed(session: string, gathering: string, count: nat, branch: string, organization: string,
                    group: Option<string>)

  /** Service settings. The HMAC over a ticket and the SHA-256 of an identity are uninterpreted. */
  datatype Settings = Settings(secret: string, mac: (string, string, string, real, real) -> string,
                               digest: string -> string, grace: real, perSecond: int)

  type Nonce = (string, string, string)

  /** All the state a session run touches: the gateway's, the emitted events, and the bulk service's. */
  datatype World = World(sessions: map<string, Session>, participations: map<string, seq<Participation>>,
                         nonces: set<Nonce>,
                         attendees: map<string, seq<string>>, ipAttendees: map<(string, string), set<string>>,
                         throttle: map<string, seq<real>>, pending: seq<(string, real)>, emitted: seq<SessionEvent>,
                         ledger: Bulk.Ledger)

  // ---- pure rules ------------------------------------------------------------------

  predicate Live(status: Status) {
    status == Open || status == Closing
  }

  predicate CanMove(from: Status, to: Status) {
    match from
    case Draft => to == Scheduled || to == Open
    case Scheduled => to == Draft || to == Open
    case Open => to == Closing
    case Closing => to == Closed
    case Closed => to == Archived
    case Archived => false
  }

  /** Why a time lies outside `[openAt, closeAt + grace]`, if it does. */
  function OutsideWindow(session: Session, at: real, grace: real): Option<WindowReason> {
    if session.openAt.Some? && at < session.openAt.value then Some(BeforeOpen)
    else if session.closeAt.Some? && at > session.closeAt.value + grace then Some(AfterGrace)
    else None
  }

  predicate SuspectPattern(reactionMs: Option<real>, sameIpAttendees: nat) {
    || (reactionMs.Some? && 0.0 < reactionMs.value < SUSPECT_REACTION_MS)
    || sameIpAttendees >= SUSPECT_SAME_IP_ATTENDEES
  }

  function NormalizeScore(kind: string, raw: Option<real>): (score: Option<real>)
    ensures score.Some? <==> raw.Some? && kind !in {"poll", "word_cloud", "qa", "pulse"}
    ensures score.Some? ==> 0.0 <= score.value <= 100.0 && (0.0 <= raw.value <= 100.0 ==> score == raw)
    ensures score.Some? ==> (raw.value < 0.0 ==> score.value == 0.0) && (raw.value > 100.0 ==> score.value == 100.0)
  {
    if raw.None? || kind in QUESTIONNAIRE_KINDS then None
    else Some(if raw.value < 0.0 then 0.0 else if raw.value > 100.0 then 100.0 else raw.value)
  }

  /** The session with a new status; the window ends are stamped once. */
  function Restamped(session: Session, status: Status, now: real): Session {
    session.(status := status,
             openAt := if status == Open && session.openAt.None? then Some(now) else session.openAt,
             closeAt := if (status == Closing || status == Closed) && session.closeAt.None? then Some(now)
                        else session.closeAt)
  }

  function AttendeeKey(settings: Settings, sessionId: string, memberId: Option<string>, device: string)
      : Result<string, EngagementError>
  {
    var identity := if Truthy(memberId) then memberId.value else device;
    if sessionId == "" || identity == "" then Failure(NoIdentity)
    else Success(settings.digest(sessionId + "|" + identity))
  }

  predicate VerifyTicket(settings: Settings, t: Ticket, clock: real) {
    settings.mac(settings.secret, t.sessionId, t.attendeeKey, t.issuedAt, t.expiresAt) == t.signature
        && clock < t.expiresAt
  }

  function OpenedBy(s: Session): SessionEvent {
    SessionOpened(s.id, s.gathering, s.kind, s.branch, s.organization, if Truthy(s.group) then s.group else None)
  }

  function ClosedBy(s: Session, count: nat): SessionEvent {
    SessionClosed(s.id, s.gathering, count, s.branch, s.organization, if Truthy(s.group) then s.group else None)
  }

  // ---- the participation log -------------------------------------------------------

  function Log(w: World, id: string): seq<Participation> {
    if id in w.participations then w.participations[id] else []
  }

  function Attendees(w: World, id: string): seq<string> {
    if id in w.attendees then w.attendees[id] else []
  }

  function IpAttendees(w: World, id: string, ip: string): set<string> {
    if (id, ip) in w.ipAttendees then w.ipAttendees[(id, ip)] else {}
  }

  function KeysIn(rows: seq<Participation>): seq<string> {
    seq(|rows|, i requires 0 <= i < |rows| => rows[i].attendeeKey)
  }

  /** The first in-window participation of each attendee key, in log order. */
  function Credits(log: seq<Participation>): seq<Participation> {
    if log == [] then []
    else
      var before, p := Credits(log[..|log| - 1]), log[|log| - 1];
      if p.flags.outOfScope || p.attendeeKey in KeysIn(before) then before else before + [p]
  }

  function Joined(keys: seq<string>, p: Participation): seq<string> {
    if p.flags.outOfScope || p.attendeeKey in keys then keys else keys + [p.attendeeKey]
  }

  function NonceOf(p: Participation): Nonce {
    (p.sessionId, p.attendeeKey, p.nonce)
  }

  /** Appending one participation; a repeated nonce changes nothing. */
  function Record(w: World, p: Participation): World {
    if NonceOf(p) in w.nonces then w
    else
      w.(nonces := w.nonces + {NonceOf(p)},
         participations := w.participations[p.sessionId := Log(w, p.sessionId) + [p]],
         attendees := if p.flags.outOfScope then w.attendees
                      else w.attendees[p.sessionId := Joined(Attendees(w, p.sessionId), p)],
         ipAttendees := if !Truthy(p.ip) then w.ipAttendees
                        else w.ipAttendees[(p.sessionId, p.ip.value) := IpAttendees(w, p.sessionId, p.ip.value)
                                           + {p.attendeeKey}])
  }

  function Recent(bucket: seq<real>, cutoff: real): seq<real> {
    if bucket == [] then []
    else Recent(bucket[..|bucket| - 1], cutoff)
         + (if bucket[|bucket| - 1] >= cutoff then [bucket[|bucket| - 1]] else [])
  }

  function Bucket(w: World, key: string): seq<real> {
    if key in w.throttle then w.throttle[key] else []
  }

  function Throttle(w: World, key: string, now: real, perSecond: int): (World, bool) {
    var recent := Recent(Bucket(w, key), now - 1.0);
    if |recent| >= perSecond then (w.(throttle := w.throttle[key := recent]), false)
    else (w.(throttle := w.throttle[key := recent + [now]]), true)
  }

  // ---- the five operations ---------------------------------------------------------

  function CreateSession(w: World, session: Session): (World, Result<Session, EngagementError>) {
    if session.kind !in ALL_KINDS then (w, Failure(UnknownKind))
    else (w.(sessions := w.sessions[session.id := session]), Success(session))
  }

  function OpenSession(w: World, id: string, now: real): (World, Result<Session, EngagementError>) {
    if id !in w.sessions then (w, Failure(UnknownSession))
    else if !CanMove(w.sessions[id].status, Open) then (w, Failure(IllegalTransition(w.sessions[id].status, Open)))
    else
      var session := Restamped(w.sessions[id], Open, now);
      (w.(sessions := w.sessions[id := session], emitted := w.emitted + [OpenedBy(session)]), Success(session))
  }

  function Preview(w: World, session: Session): CloseOutcome {
    CloseOutcome(session.id, session.gathering, |Credits(Log(w, session.id))|, 0, 0, session.status == Closed)
  }

  function CloseSession(settings: Settings, w: World, id: string, now: real)
      : (World, Result<CloseOutcome, EngagementError>)
  {
    if id !in w.sessions then (w, Failure(UnknownSession))
    else if !CanMove(w.sessions[id].status, Closing)
         then (w, Failure(IllegalTransition(w.sessions[id].status, Closing)))
    else
      var closing := Restamped(w.sessions[id], Closing, now);
      var w' := w.(sessions := w.sessions[id := closing], pending := w.pending + [(id, settings.grace)]);
      (w', Success(Preview(w', closing)))
  }

  function ToItem(p: Participation): Item {
    Item(p.gathering, if Truthy(p.memberId) then p.memberId.value else p.attendeeKey, p.branch, "Present", "engagement",
         Some(p.attendeeKey), Some(p.gathering), p.memberId, Some(p.sessionId), Some(p.attendeeKey))
  }

  function ToItems(rows: seq<Participation>): seq<Item> {
    seq(|rows|, i requires 0 <= i < |rows| => ToItem(rows[i]))
  }

  function ProjectionOf(w: World, session: Session): Bulk.Batch {
    Bulk.Batch(ToItems(Credits(Log(w, session.id))), session.branch, "engagement:" + session.id)
  }

  /** The bulk submit of the projection ends in `result`; one that raises has committed what it reached. */
  function Project(ledger: Bulk.Ledger, batch: Bulk.Batch, session: Session, result: Queue.AttemptResult)
    : (Bulk.Ledger, Result<CloseOutcome, EngagementError>)
  {
    if result.Returned? then
      var outcome := Submit(ledger.store, batch.items, batch.branch, batch.batchId).1;
      (Bulk.Step(ledger, batch),
       Success(CloseOutcome(session.id, session.gathering, |batch.items|, outcome.inserted, outcome.deduplicated,
                            true)))
    else (ledger.(store := Queue.After(ledger.store, batch, Queue.ReachedBy(result))), Failure(SubmitRaised))
  }

  /** The status is written before the projection is submitted, so a raising submit leaves the session closed. */
  function CloseOut(w: World, id: string, closed: Session, result: Queue.AttemptResult)
    : (World, Result<CloseOutcome, EngagementError>)
  {
    var batch := ProjectionOf(w, closed);
    var (ledger, outcome) := Project(w.ledger, batch, closed, result);
    (w.(sessions := w.sessions[id := closed], ledger := ledger,
        emitted := w.emitted + (if outcome.Success? then [ClosedBy(closed, outcome.value.attendeeCount)] else [])),
            outcome)
  }

  function FinalizeClose(w: World, id: string, clock: real, result: Queue.AttemptResult)
    : (World, Result<CloseOutcome, EngagementError>)
  {
    if id !in w.sessions then (w, Failure(UnknownSession))
    else if w.sessions[id].status == Closed then (w, Success(Preview(w, w.sessions[id])))
    else if !CanMove(w.sessions[id].status, Closed) then (w, Failure(IllegalTransition(w.sessions[id].status, Closed)))
    else CloseOut(w, id, Restamped(w.sessions[id], Closed, clock), result)
  }

  function Join(settings: Settings, w: World, id: string, memberId: Option<string>, device: string, clock: real)
    : Result<Ticket, EngagementError>
  {
    if id !in w.sessions then Failure(UnknownSession)
    else if !Live(w.sessions[id].status) then Failure(NotLive(w.sessions[id].status))
    else
      match AttendeeKey(settings, w.sessions[id].id, memberId, device)
      case Failure(e) => Failure(e)
      case Success(key) =>
        if settings.secret == "" then Failure(EmptySecret)
        else Success(Ticket(id, key, memberId, device, clock, clock + TICKET_TTL_SECONDS,
                            settings.mac(settings.secret, id, key, clock, clock + TICKET_TTL_SECONDS)))
  }

  function ThrottleKey(r: Request): string {
    r.attendeeKey + ":" + r.device
  }

  function FlagsFor(settings: Settings, w: World, session: Session, r: Request, at: real): Flags {
    var outside := OutsideWindow(session, at, settings.grace);
    var sameIp := if Truthy(r.ip) then |IpAttendees(w, session.id, r.ip.value)| else 0;
    Flags(outside.Some?, outside, SuspectPattern(r.reactionMs, sameIp), r.offlineReplay, false)
  }

  function ToParticipation(session: Session, r: Request, at: real, flags: Flags): Participation {
    Participation(session.id, r.attendeeKey, r.memberId, r.displayName, r.device,
                  if Truthy(r.role) then r.role.value else DEFAULT_ATTENDEE_ROLE,
                  if session.kind in GAME_KINDS then "game" else "questionnaire", session.kind,
                  NormalizeScore(session.kind, r.score), at, r.clientSubmittedAt, session.branch, session.organization,
                  session.group, r.geoRegion, r.nonce, r.ip, session.gathering, flags, r.feedback)
  }

  function Refused(r: Request, reason: Reason): Result<Receipt, EngagementError> {
    Success(Receipt(false, r.attendeeKey, Some(reason), None, None))
  }

  /** The checks that come before anything is written. */
  function Admission(settings: Settings, sessions: map<string, Session>, r: Request, clock: real)
      : Option<Result<Receipt, EngagementError>>
  {
    if r.sessionId !in sessions then Some(Failure(UnknownSession))
    else if !Live(sessions[r.sessionId].status) then Some(Refused(r, SessionNotLive))
    else if settings.secret == "" then Some(Failure(EmptySecret))
    else if !VerifyTicket(settings, r.ticket, clock) then Some(Refused(r, InvalidTicket))
    else if r.ticket.attendeeKey != r.attendeeKey then Some(Refused(r, AttendeeKeyMismatch))
    else None
  }

  function RecordRequest(settings: Settings, w: World, session: Session, r: Request, at: real)
    : (World, Result<Receipt, EngagementError>)
  {
    if session.kind !in ALL_KINDS then (w, Failure(UnknownKind))
    else
      var flags := FlagsFor(settings, w, session, r, at);
      var p := ToParticipation(session, r, at, flags);
      var isNew := NonceOf(p) !in w.nonces;
      (Record(w, p),
       Success(Receipt(isNew, r.attendeeKey, if isNew then None else Some(DuplicateNonce), Some(at), Some(flags))))
  }

  /** An admitted request: the throttle first, then the record. */
  function Admitted(settings: Settings, w: World, r: Request, at: real): (World, Result<Receipt, EngagementError>)
    requires r.sessionId in w.sessions
  {
    var (w', allowed) := Throttle(w, ThrottleKey(r), at, settings.perSecond);
    if !allowed then (w', Refused(r, Throttled)) else RecordRequest(settings, w', w.sessions[r.sessionId], r, at)
  }

  function TimeOf(r: Request, clock: real): real {
    if r.submittedAt.Some? then r.submittedAt.value else clock
  }

  function Participate(settings: Settings, w: World, r: Request, clock: real): (World, Result<Receipt, EngagementError>)
  {
    var refusal := Admission(settings, w.sessions, r, clock);
    if refusal.Some? then (w, refusal.value) else Admitted(settings, w, r, TimeOf(r, clock))
  }

  // ---- the imperative gateway and service ------------------------------------------

  class InMemoryEngagementGateway {
    var sessions: map<string, Session>
    var participations: map<string, seq<Participation>>
    var nonceSeen: set<Nonce>
    var attendees: map<string, seq<string>>
    var ipAttendees: map<(string, string), set<string>>
    var throttle: map<string, seq<real>>
    var pendingFinalizes: seq<(string, real)>

    constructor ()
      ensures Holds([], Bulk.EMPTY_LEDGER) == World(map[], map[], {}, map[], map[], map[], [], [], Bulk.EMPTY_LEDGER)
    {
      sessions, participations, nonceSeen, attendees := map[], map[], {}, map[];
      ipAttendees, throttle, pendingFinalizes := map[], map[], [];
    }

    /** The gateway's state beside what the services emitted and recorded. */
    ghost function Holds(emitted: seq<SessionEvent>, ledger: Bulk.Ledger): World
      reads this
    {
      World(sessions, participations, nonceSeen, attendees, ipAttendees, throttle, pendingFinalizes, emitted, ledger)
    }

    method SetSessionStatus(id: string, status: Status, now: real) returns (e: Option<EngagementError>)
      modifies this`sessions
      ensures id !in old(sessions) ==> e == Some(UnknownSession) && sessions == old(sessions)
      ensures id in old(sessions) ==>
              e == None && sessions == old(sessions)[id := Restamped(old(sessions)[id], status, now)]
    {
      if id !in sessions { return Some(UnknownSession); }
      var session := sessions[id];
      var openAt, closeAt := session.openAt, session.closeAt;
      if status == Open && openAt.None? { openAt := Some(now); }
      if status in {Closing, Closed} && closeAt.None? { closeAt := Some(now); }
      sessions := sessions[id := session.(status := status, openAt := openAt, closeAt := closeAt)];
      return None;
    }

    method RecordParticipation(p: Participation) returns (recorded: bool)
      modifies this`nonceSeen, this`participations, this`attendees, this`ipAttendees
      ensures recorded == (NonceOf(p) !in old(nonceSeen))
      ensures forall emitted, ledger :: Holds(emitted, ledger) == Record(old(Holds(emitted, ledger)), p)
    {
      if NonceOf(p) in nonceSeen { return false; }
      nonceSeen := nonceSeen + {NonceOf(p)};
      var log := if p.sessionId in participations then participations[p.sessionId] else [];
      participations := participations[p.sessionId := log + [p]];
      if !p.flags.outOfScope {
        var keys := if p.sessionId in attendees then attendees[p.sessionId] else [];
        if p.attendeeKey !in keys { keys := keys + [p.attendeeKey]; }
        attendees := attendees[p.sessionId := keys];
      }
      if Truthy(p.ip) {
        var ipKey := (p.sessionId, p.ip.value);
        var seen := if ipKey in ipAttendees then ipAttendees[ipKey] else {};
        ipAttendees := ipAttendees[ipKey := seen + {p.attendeeKey}];
      }
      return true;
    }

    method ThrottleAllows(key: string, now: real, perSecond: int) returns (allowed: bool)
      modifies this`throttle
      ensures forall emitted,
              ledger :: (Holds(emitted, ledger), allowed) == Throttle(old(Holds(emitted, ledger)), key, now, perSecond)
    {
      var bucket := if key in throttle then throttle[key] else [];
      var recent: seq<real> := [];
      for i := 0 to |bucket|
        invariant recent == Recent(bucket[..i], now - 1.0)
      {
        assert bucket[..i + 1][..i] == bucket[..i] && recent + [] == recent;
        if bucket[i] >= now - 1.0 { recent := recent + [bucket[i]]; }
      }
      assert bucket[..|bucket|] == bucket;
      if |recent| >= perSecond {
        throttle := throttle[key := recent];
        return false;
      }
      throttle := throttle[key := recent + [now]];
      return true;
    }

    method SameIpAttendeeCount(id: string, ip: string) returns (n: nat)
      ensures forall emitted, ledger :: n == |IpAttendees(Holds(emitted, ledger), id, ip)|
    {
      n := if (id, ip) in ipAttendees then |ipAttendees[(id, ip)]| else 0;
    }

    /** The close-path basis: the first in-window participation of every attendee key. */
    method InWindowAttendees(id: string) returns (credits: seq<Participation>)
      ensures forall emitted, ledger :: credits == Credits(Log(Holds(emitted, ledger), id))
    {
      var log := if id in participations then participations[id] else [];
      var keys: set<string> := {};
      credits := [];
      for i := 0 to |log|
        invariant credits == Credits(log[..i])
        invariant keys == Elements(KeysIn(credits))
      {
        assert log[..i + 1][..i] == log[..i];
        var p := log[i];
        if p.flags.outOfScope || p.attendeeKey in keys { continue; }
        assert KeysIn(credits + [p]) == KeysIn(credits) + [p.attendeeKey];
        keys := keys + {p.attendeeKey};
        credits := credits + [p];
      }
      assert log[..|log|] == log;
    }
  }

  class EngagementService {
    const gateway: InMemoryEngagementGateway
    const bulk: BulkAttendanceService
    const settings: Settings
    var emitted: seq<SessionEvent>

    constructor (gateway: InMemoryEngagementGateway, bulk: BulkAttendanceService, settings: Settings)
      ensures this.gateway == gateway && this.bulk == bulk && this.settings == settings && emitted == []
    {
      this.gateway, this.bulk, this.settings, emitted := gateway, bulk, settings, [];
    }

    ghost function Recorded(): Bulk.Ledger
      reads bulk.gateway
    {
      Bulk.Ledger(bulk.gateway.Contents(), bulk.gateway.publishedEvents)
    }

    ghost function Contents(): World
      reads this, gateway, bulk.gateway
    {
      gateway.Holds(emitted, Recorded())
    }

    method Create(session: Session) returns (r: Result<Session, EngagementError>)
      modifies gateway`sessions
      ensures (Contents(), r) == CreateSession(old(Contents()), session)
    {
      if session.kind !in ALL_KINDS { return Failure(UnknownKind); }
      gateway.sessions := gateway.sessions[session.id := session];
      return Success(session);
    }

    method OpenIt(id: string, now: real) returns (r: Result<Session, EngagementError>)
      modifies gateway`sessions, this`emitted
      ensures (Contents(), r) == OpenSession(old(Contents()), id, now)
    {
      if id !in gateway.sessions { return Failure(UnknownSession); }
      var session := gateway.sessions[id];
      if !CanMove(session.status, Open) { return Failure(IllegalTransition(session.status, Open)); }
      var _ := gateway.SetSessionStatus(id, Open, now);
      emitted := emitted + [OpenedBy(gateway.sessions[id])];
      return Success(gateway.sessions[id]);
    }

    method PreviewOutcome(session: Session) returns (outcome: CloseOutcome)
      ensures outcome == Preview(Contents(), session)
    {
      var credits := gateway.InWindowAttendees(session.id);
      assert credits == Credits(Log(Contents(), session.id));
      return CloseOutcome(session.id, session.gathering, |credits|, 0, 0, session.status == Closed);
    }

    method Close(id: string, now: real) returns (r: Result<CloseOutcome, EngagementError>)
      modifies gateway`sessions, gateway`pendingFinalizes
      ensures (Contents(), r) == CloseSession(settings, old(Contents()), id, now)
    {
      if id !in gateway.sessions { return Failure(UnknownSession); }
      var session := gateway.sessions[id];
      if !CanMove(session.status, Closing) { return Failure(IllegalTransition(session.status, Closing)); }
      var _ := gateway.SetSessionStatus(id, Closing, now);
      gateway.pendingFinalizes := gateway.pendingFinalizes + [(id, settings.grace)];
      var outcome := PreviewOutcome(gateway.sessions[id]);
      return Success(outcome);
    }

    /** What a submit that raises has committed. */
    method SubmitPartly(batch: Bulk.Batch, reached: Queue.Reached)
      modifies bulk.gateway
      ensures Recorded() == old(Recorded()).(store := Queue.After(old(Recorded()).store, batch, reached))
    {
      var outOfScope := CountOutOfScope(batch.items, batch.branch);
      if outOfScope > 0 { return; }
      match reached {
        case NothingCommitted =>
        case SeedCommitted => bulk.gateway.SeedAggregate(batch.branch, EventSet(batch.items));
        case WriteCommitted => var _, _, _ := bulk.WriteBatch(batch.items, batch.branch, batch.batchId);
      }
    }

    method ProjectAndRecordAttendance(session: Session, result: Queue.AttemptResult)
      returns (r: Result<CloseOutcome, EngagementError>)
      modifies bulk.gateway
      ensures (Recorded(), r) == Project(old(Recorded()), ProjectionOf(old(Contents()), session), session, result)
    {
      var credits := gateway.InWindowAttendees(session.id);
      assert credits == Credits(Log(Contents(), session.id));
      var items := ToItems(credits);
      var batchId := "engagement:" + session.id;
      if !result.Returned? {
        SubmitPartly(Bulk.Batch(items, session.branch, batchId), Queue.ReachedBy(result));
        return Failure(SubmitRaised);
      }
      var receipt := bulk.SubmitBatch(items, session.branch, batchId);
      return Success(CloseOutcome(session.id, session.gathering, |items|, receipt.inserted, receipt.deduplicated,
                                  true));
    }

    method Finalize(id: string, clock: real, result: Queue.AttemptResult)
        returns (r: Result<CloseOutcome, EngagementError>)
      modifies gateway`sessions, this`emitted, bulk.gateway
      ensures (Contents(), r) == FinalizeClose(old(Contents()), id, clock, result)
    {
      if id !in gateway.sessions { return Failure(UnknownSession); }
      var session := gateway.sessions[id];
      if session.status == Closed {
        var preview := PreviewOutcome(session);
        return Success(preview);
      }
      if !CanMove(session.status, Closed) { return Failure(IllegalTransition(session.status, Closed)); }
      var _ := gateway.SetSessionStatus(id, Closed, clock);
      var closed := gateway.sessions[id];
      r := ProjectAndRecordAttendance(closed, result);
      if r.Failure? {
        assert emitted + [] == emitted;
        return;
      }
      emitted := emitted + [ClosedBy(closed, r.value.attendeeCount)];
    }

    method RecordOne(session: Session, r: Request, at: real) returns (receipt: Result<Receipt, EngagementError>)
      modifies gateway
      ensures (Contents(), receipt) == RecordRequest(settings, old(Contents()), session, r, at)
    {
      if session.kind !in ALL_KINDS { return Failure(UnknownKind); }
      var outside := OutsideWindow(session, at, settings.grace);
      var sameIp: nat := 0;
      if Truthy(r.ip) { sameIp := gateway.SameIpAttendeeCount(session.id, r.ip.value); }
      var flags := Flags(outside.Some?, outside, SuspectPattern(r.reactionMs, sameIp), r.offlineReplay, false);
      assert flags == FlagsFor(settings, Contents(), session, r, at);
      var recorded := gateway.RecordParticipation(ToParticipation(session, r, at, flags));
      var reason := if recorded then None else Some(DuplicateNonce);
      return Success(Receipt(recorded, r.attendeeKey, reason, Some(at), Some(flags)));
    }

    method TakePart(r: Request, clock: real) returns (receipt: Result<Receipt, EngagementError>)
      modifies gateway
      ensures (Contents(), receipt) == Participate(settings, old(Contents()), r, clock)
    {
      var refusal := Admission(settings, gateway.sessions, r, clock);
      if refusal.Some? { return refusal.value; }
      var session := gateway.sessions[r.sessionId];
      var at := TimeOf(r, clock);
      var allowed := gateway.ThrottleAllows(ThrottleKey(r), at, settings.perSecond);
      if !allowed { return Refused(r, Throttled); }
      receipt := RecordOne(session, r, at);
    }

    /** An offline queue flushed: each request on its own, in order, until one raises. */
    method BulkParticipate(requests: seq<Request>, clock: real) returns (r: Result<seq<Receipt>, EngagementError>)
      modifies gateway
      ensures (Contents(), r) == ParticipateAll(settings, old(Contents()), requests, clock)
    {
      ghost var before := Contents();
      var receipts: seq<Receipt> := [];
      for i := 0 to |requests|
        invariant (Contents(), Success(receipts)) == ParticipateAll(settings, before, requests[..i], clock)
      {
        assert requests[..i + 1][..i] == requests[..i];
        var receipt := TakePart(requests[i], clock);
        if receipt.Failure? {
          FlushStops(settings, before, requests, clock, i + 1);
          return Failure(receipt.error);
        }
        receipts := receipts + [receipt.value];
      }
      assert requests[..|requests|] == requests;
      return Success(receipts);
    }
  }

  function ParticipateAll(settings: Settings, w: World, requests: seq<Request>, clock: real)
    : (World, Result<seq<Receipt>, EngagementError>)
  {
    if requests == [] then (w, Success([]))
    else
      var (w1, done) := ParticipateAll(settings, w, requests[..|requests| - 1], clock);
      if done.Failure? then (w1, done)
      else
        var (w2, receipt) := Participate(settings, w1, requests[|requests| - 1], clock);
        (w2, if receipt.Failure? then Failure(receipt.error) else Success(done.value + [receipt.value]))
  }

  /** The first request that raises ends the flush. */
  lemma {:induction false} FlushStops(settings: Settings, w: World, requests: seq<Request>, clock: real, i: nat)
    requires i <= |requests| && ParticipateAll(settings, w, requests[..i], clock).1.Failure?
    ensures ParticipateAll(settings, w, requests, clock) == ParticipateAll(settings, w, requests[..i], clock)
    decreases |requests| - i
  {
    if i == |requests| {
      assert requests[..i] == requests;
    } else {
      assert requests[..i + 1][..i] == requests[..i];
      FlushStops(settings, w, requests, clock, i + 1);
    }
  }
}
