/**
 * The three sources of attendance over one store: bulk requests run by the queue workers, leader reports,
 * and engagement sessions. Whatever the order, nobody is recorded twice at a gathering.
 */
module AttendanceSources {
  import opened Wrappers
  import opened Reporting
  import opened ReportingInvariants
  import opened AttendanceQueue
  import opened BulkRequests
  import Leader = LeaderReporting
  import Reports = LeaderReportingInvariants
  import Session = Engagement
  import Sessions = EngagementInvariants

  /** The engagement state, whose ledger is the shared store, and what the leader reports keep beside it. */
  datatype Shared = Shared(world: Session.World, gatherings: map<string, string>, members: map<string, string>,
                           advanced: seq<Leader.Advance>, published: seq<Leader.ReportedEvent>)

  datatype Source =
    | Engaged(action: Sessions.Action)
    | Worked(request: BulkRequest, reached: Reached)
    | Told(sub: Leader.Submission)

  function LeaderState(s: Shared): Leader.State {
    Leader.State(s.gatherings, s.members, s.world.ledger, s.advanced, s.published)
  }

  function WithLedger(s: Shared, ledger: Ledger): Shared {
    s.(world := s.world.(ledger := ledger))
  }

  /** One engagement operation, one attempt at an accepted bulk request, or one leader report. */
  function Next(settings: Session.Settings, s: Shared, source: Source): Shared {
    match source
    case Engaged(a) => s.(world := Sessions.Apply(settings, s.world, a))
    case Worked(q, reached) =>
      (match BulkSubmit(q.event, q.raws, q.batchId, q.permissions)
       case Failure(_) => s
       case Success(b) => WithLedger(s, s.world.ledger.(store := After(s.world.ledger.store, b, reached))))
    case Told(sub) =>
      var st := Leader.SubmitReport(LeaderState(s), sub).0;
      WithLedger(s, st.ledger).(gatherings := st.gatherings, advanced := st.advanced, published := st.published)
  }

  function RunAll(settings: Session.Settings, s: Shared, sources: seq<Source>): Shared {
    if sources == [] then s
    else Next(settings, RunAll(settings, s, sources[..|sources| - 1]), sources[|sources| - 1])
  }

  /** No two of the participations count for the same member or visitor. */
  ghost predicate DistinctCredits(credits: seq<Session.Participation>) {
    forall i, j :: 0 <= i < j < |credits| ==> Sessions.CreditedAs(credits[i]) != Sessions.CreditedAs(credits[j])
  }

  /** The source names nobody twice on its own; creations are as `Sessions.Allowed` has them. */
  ghost predicate NamesNobodyTwice(s: Shared, source: Source) {
    match source
    case Engaged(a) =>
      && Sessions.Allowed(s.world, a)
      && (a.Finalize? && Sessions.Closes(s.world, a, a.id) ==>
            DistinctCredits(Session.Credits(Session.Log(s.world, a.id))))
    case Worked(q, _) => NamesEachOnce(q)
    case Told(sub) => Reports.DistinctMembers(sub.attendees)
  }

  ghost predicate AllNameNobodyTwice(settings: Session.Settings, s: Shared, sources: seq<Source>) {
    sources == [] ||
    (var init := sources[..|sources| - 1];
     && AllNameNobodyTwice(settings, s, init)
     && NamesNobodyTwice(RunAll(settings, s, init), sources[|sources| - 1]))
  }

  ghost predicate RecordedOnce(rows: seq<Item>) {
    forall event, attendee {:trigger Times(rows, event, attendee)} :: Times(rows, event, attendee) <= 1
  }

  ghost predicate Inv(s: Shared) {
    Sessions.Inv(s.world) && RecordedOnce(s.world.ledger.store.rows)
  }

  // ---- another source does not disturb the sessions --------------------------------

  lemma OtherSourceKeepsSessions(w: Session.World, ledger: Ledger)
    requires Sessions.Inv(w) && Sound(ledger.store) && w.ledger.store.unique <= ledger.store.unique
    ensures Sessions.Inv(w.(ledger := ledger))
  {
    var w' := w.(ledger := ledger);
    forall id ensures Sessions.Good(Sessions.ViewOf(w', id), id) && Sessions.StoredIfAnnounced(w', id) {
      assert Sessions.ViewOf(w', id) == Sessions.ViewOf(w, id);
      assert Sessions.Good(Sessions.ViewOf(w, id), id) && Sessions.StoredIfAnnounced(w, id);
    }
  }

  lemma RowsOnlyGrow(s: Store, s': Store)
    requires Sound(s) && Sound(s')
    requires forall event, attendee {:trigger Times(s'.rows, event, attendee)} ::
               Times(s.rows, event, attendee) > 0 ==> Times(s'.rows, event, attendee) > 0
    ensures s.unique <= s'.unique
  {
    forall k | k in s.unique ensures k in s'.unique {
      TimesMeaning(s.rows, k.0, k.1);
      TimesMeaning(s'.rows, k.0, k.1);
    }
  }

  // ---- one source at a time --------------------------------------------------------

  /** What a submit, however far it got, does to the rows of an attendee. */
  lemma AfterRecords(s: Store, b: Batch, reached: Reached, event: string, attendee: string)
    requires Sound(s) && InScope(b)
    ensures Times(After(s, b, reached).rows, event, attendee) ==
            if reached == WriteCommitted && Times(s.rows, event, attendee) == 0 then Times(b.items, event, attendee)
            else Times(s.rows, event, attendee)
  {
    OutOfScopeMeaning(b.items, b.branch);
    if reached == WriteCommitted { SubmitRecords(s, b.items, b.branch, b.batchId, event, attendee); }
  }

  lemma DistinctBatchRecordsOnce(s: Store, b: Batch, reached: Reached)
    requires Sound(s) && RecordedOnce(s.rows) && InScope(b) && RecordedOnce(b.items)
    ensures RecordedOnce(After(s, b, reached).rows)
  {
    forall event, attendee ensures Times(After(s, b, reached).rows, event, attendee) <= 1 {
      AfterRecords(s, b, reached, event, attendee);
      assert Times(s.rows, event, attendee) <= 1 && Times(b.items, event, attendee) <= 1;
    }
  }

  lemma WorkedKeepsInv(settings: Session.Settings, s: Shared, q: BulkRequest, reached: Reached)
    requires Inv(s) && NamesEachOnce(q)
    ensures Inv(Next(settings, s, Worked(q, reached)))
  {
    var r := BulkSubmit(q.event, q.raws, q.batchId, q.permissions);
    if r.Success? {
      var b, store := r.value, s.world.ledger.store;
      FromEntries(b, q);
      NamingOnceIsDistinct(b, q);
      forall event, attendee ensures Times(b.items, event, attendee) <= 1 {
        DistinctMeansOnce(b.items, event, attendee);
      }
      DistinctBatchRecordsOnce(store, b, reached);
      AfterKeepsSound(store, b, reached);
      OtherSourceKeepsSessions(s.world, s.world.ledger.(store := After(store, b, reached)));
    }
  }

  lemma ToldRecordsOnce(st: Leader.State, sub: Leader.Submission)
    requires Sound(st.ledger.store) && RecordedOnce(st.ledger.store.rows) && Reports.DistinctMembers(sub.attendees)
    ensures var store := Leader.SubmitReport(st, sub).0.ledger.store;
            Sound(store) && RecordedOnce(store.rows) && st.ledger.store.unique <= store.unique
  {
    var (st', r) := Leader.SubmitReport(st, sub);
    if r.Success? {
      Reports.ReportRecords(st, sub, "", "");
      forall event, member
        ensures Times(st'.ledger.store.rows, event, member) <= 1
        ensures Times(st.ledger.store.rows, event, member) > 0 ==> Times(st'.ledger.store.rows, event, member) > 0
      {
        Reports.ReportRecords(st, sub, event, member);
        assert Times(st.ledger.store.rows, event, member) <= 1;
      }
      RowsOnlyGrow(st.ledger.store, st'.ledger.store);
    } else {
      Reports.ReportOnlyOnceFromHeld(st, sub, [], sub);
    }
  }

  lemma ToldKeepsInv(settings: Session.Settings, s: Shared, sub: Leader.Submission)
    requires Inv(s) && Reports.DistinctMembers(sub.attendees)
    ensures Inv(Next(settings, s, Told(sub)))
  {
    ToldRecordsOnce(LeaderState(s), sub);
    OtherSourceKeepsSessions(s.world, Leader.SubmitReport(LeaderState(s), sub).0.ledger);
  }

  lemma {:induction false} DistinctCreditsOnce(credits: seq<Session.Participation>, gathering: string, attendee: string)
    requires DistinctCredits(credits)
    ensures Sessions.TimesCredited(credits, gathering, attendee) <= 1
    ensures Sessions.TimesCredited(credits, gathering, attendee) > 0 ==>
            exists i :: 0 <= i < |credits| && Sessions.CreditedAs(credits[i]) == attendee
  {
    if credits != [] {
      var init, last := credits[..|credits| - 1], credits[|credits| - 1];
      DistinctCreditsOnce(init, gathering, attendee);
      if Sessions.TimesCredited(init, gathering, attendee) > 0 {
        var i :| 0 <= i < |init| && Sessions.CreditedAs(init[i]) == attendee;
        assert credits[i] == init[i];
      }
    }
  }

  lemma ClosingRecordsOnce(w: Session.World, id: string, now: real)
    requires Sessions.Inv(w) && id in w.sessions && DistinctCredits(Session.Credits(Session.Log(w, id)))
    ensures InScope(Sessions.ClosingBatch(w, id, now)) && RecordedOnce(Sessions.ClosingBatch(w, id, now).items)
  {
    var credits := Session.Credits(Session.Log(w, id));
    Sessions.ClosingBatchItems(w, id, now);
    forall event, attendee ensures Times(Sessions.ClosingBatch(w, id, now).items, event, attendee) <= 1 {
      Sessions.CreditedTimes(credits, event, attendee);
      DistinctCreditsOnce(credits, event, attendee);
    }
  }

  lemma EngagedKeepsInv(settings: Session.Settings, s: Shared, a: Sessions.Action)
    requires Inv(s) && NamesNobodyTwice(s, Engaged(a))
    ensures Inv(Next(settings, s, Engaged(a)))
  {
    var w := s.world;
    Sessions.ActionKeepsInv(settings, w, a);
    Sessions.StoreAfter(settings, w, a);
    if a.Finalize? && Sessions.Closes(w, a, a.id) {
      ClosingRecordsOnce(w, a.id, a.now);
      DistinctBatchRecordsOnce(w.ledger.store, Sessions.ClosingBatch(w, a.id, a.now), ReachedBy(a.result));
    }
  }

  lemma NextKeepsInv(settings: Session.Settings, s: Shared, source: Source)
    requires Inv(s) && NamesNobodyTwice(s, source)
    ensures Inv(Next(settings, s, source))
  {
    match source
    case Engaged(a) => EngagedKeepsInv(settings, s, a);
    case Worked(q, reached) => WorkedKeepsInv(settings, s, q, reached);
    case Told(sub) => ToldKeepsInv(settings, s, sub);
  }

  lemma {:induction false} RunKeepsInv(settings: Session.Settings, s: Shared, sources: seq<Source>)
    requires Inv(s) && AllNameNobodyTwice(settings, s, sources)
    ensures Inv(RunAll(settings, s, sources))
  {
    if sources != [] {
      var init := sources[..|sources| - 1];
      RunKeepsInv(settings, s, init);
      NextKeepsInv(settings, RunAll(settings, s, init), sources[|sources| - 1]);
    }
  }

  /** Nothing stored yet, for any gatherings and members. */
  function Initially(gatherings: map<string, string>, members: map<string, string>): Shared {
    Shared(Sessions.EMPTY_WORLD, gatherings, members, [], [])
  }

  /**
   * In every run that mixes bulk requests, whose attempts may fail anywhere and be repeated, leader reports
   * and engagement sessions, no attendee is recorded twice at a gathering, as long as no single request,
   * report or closing names somebody twice.
   */
  lemma NobodyIsRecordedTwice(settings: Session.Settings, gatherings: map<string, string>,
                              members: map<string, string>, sources: seq<Source>, gathering: string, attendee: string)
    requires AllNameNobodyTwice(settings, Initially(gatherings, members), sources)
    ensures var rows := RunAll(settings, Initially(gatherings, members), sources).world.ledger.store.rows;
            Times(rows, gathering, attendee) <= 1
  {
    Sessions.EmptyWorldIsGood();
    assert Inv(Initially(gatherings, members));
    RunKeepsInv(settings, Initially(gatherings, members), sources);
  }

  /**
   * A member recorded at a gathering by any source is not recorded again by the closing of a session there:
   * their one row stays, and the closing counts them as known.
   */
  lemma RecordedMemberIsDeduplicated(settings: Session.Settings, s: Shared, id: string, now: real, k: nat)
    requires Inv(s) && id in s.world.sessions && s.world.sessions[id].status == Session.Closing
    requires k < |Session.Credits(Session.Log(s.world, id))|
    requires var p := Session.Credits(Session.Log(s.world, id))[k];
             Times(s.world.ledger.store.rows, p.gathering, Sessions.CreditedAs(p)) > 0
    ensures var p := Session.Credits(Session.Log(s.world, id))[k];
            var (w', r) := Session.FinalizeClose(s.world, id, now, Returned);
            && Times(w'.ledger.store.rows, p.gathering, Sessions.CreditedAs(p)) == 1
            && r.Success? && r.value.deduplicated > 0
  {
    var credits := Session.Credits(Session.Log(s.world, id));
    var p := credits[k];
    Sessions.FinalizeRecords(s.world, id, now, p.gathering, Sessions.CreditedAs(p));
    TimesMeaning(s.world.ledger.store.rows, p.gathering, Sessions.CreditedAs(p));
    StoredCreditCounts(credits, s.world.ledger.store.unique, k);
  }

  lemma {:induction false} StoredCreditCounts(credits: seq<Session.Participation>, stored: set<UKey>, k: nat)
    requires k < |credits| && (credits[k].gathering, Sessions.CreditedAs(credits[k])) in stored
    ensures Sessions.AlreadyStored(credits, stored) > 0
  {
    if k < |credits| - 1 { StoredCreditCounts(credits[..|credits| - 1], stored, k); }
  }
}
