/**
 `StudyActivityEventService`: publishing and deleting a participant's study
 events against the event table, and the two read paths that merge stored
 events with backfilled enrollment and app-wide (global) events.

 The service's collaborators are parameters: the clock reading `now`, the
 study's schedule as found by the study and schedule services, the account
 as found by the account service, the global event map of the activity event
 service, the paged history query of the DAO, and `formatActivityEventId`.
 */
module EventService {
  import opened Common
  import opened Numerals
  import opened ActivityEvents
  import opened EventStore
  import opened BurstCascade

  const CREATED_ON_FIELD := "created_on"
  const ENROLLMENT_FIELD := "enrollment"
  const INSTALL_LINK_SENT_FIELD := "install_link_sent"

  /** `GLOBAL_EVENTS_OF_INTEREST`, in the order they are appended. */
  const GLOBAL_EVENTS_OF_INTEREST := [CREATED_ON_FIELD, INSTALL_LINK_SENT_FIELD]

  /** `StudyActivityEventValidator.CREATE_INSTANCE` and `DELETE_INSTANCE`;
      their rules are not part of this model. */
  datatype Validators = Validators(create: Event -> bool, delete: Event -> bool)

  /** What `studyService.getStudy(appId, studyId, true)` followed by
      `scheduleService.getScheduleForStudy` finds. */
  datatype StudySchedule = NoStudy | Unscheduled | Scheduled(bursts: seq<StudyBurst>)

  /** The event table after a call, the ids that failed to publish, and the
      exception the call raised, if any. Writes made before an exception stay. */
  datatype Outcome = Outcome(store: Store, failed: seq<Option<string>>, error: Option<Error>)

  /** The collected failures are raised only when `showError` is set. */
  function Report(p: Progress, showError: bool): (r: Outcome)
    ensures r.store == p.store && r.failed == p.failed
    ensures r.error.Some? <==> showError && |p.failed| > 0
    ensures r.error.Some? ==> r.error.value == BadRequest(PublishFailed(p.failed))
  {
    Outcome(p.store, p.failed,
            if |p.failed| > 0 && showError then Some(BadRequest(PublishFailed(p.failed))) else None)
  }

  /** The origin with its update type: the first write `publishEvent` attempts. */
  function OriginAttempt(e: Event): Attempt
    requires e.updateType.Some?
  {
    Attempt(e, e.updateType.value)
  }

  /** `publishEvent`: stamp createdOn, validate, write the event or record it
      as failed, run the burst cascade, then raise the collected failures if
      asked to. */
  function PublishEvent(policy: Policy, types: ObjectTypes, validators: Validators, store: Store,
                        event: Event, showError: bool, now: Instant, schedule: StudySchedule): (r: Outcome)
    ensures var e := SetCreatedOn(event, now);
      && (!validators.create(e) ==> r == Outcome(store, [], Some(InvalidEntity)))
      && (validators.create(e) && e.updateType.None? ==> r == Outcome(store, [], Some(NullPointer)))
      && (validators.create(e) && e.updateType.Some? && !schedule.NoStudy? ==>
            && (r.error.Some? <==> showError && |r.failed| > 0)
            && (r.error.Some? ==> r.error.value == BadRequest(PublishFailed(r.failed))))
      && (validators.create(e) && e.updateType.Some? && schedule.NoStudy? ==>
            var p0 := Try(policy, Progress(store, []), OriginAttempt(e));
            r == Outcome(p0.store, p0.failed, Some(EntityNotFound("Study"))))
  {
    var e := SetCreatedOn(event, now);
    if !validators.create(e) then Outcome(store, [], Some(InvalidEntity))
    else if e.updateType.None? then Outcome(store, [], Some(NullPointer))
    else
      var p0 := Try(policy, Progress(store, []), OriginAttempt(e));
      match schedule
      case NoStudy => Outcome(p0.store, p0.failed, Some(EntityNotFound("Study")))
      case Unscheduled => Report(p0, showError)
      case Scheduled(bursts) =>
        // `new DateTime(null)` reads the clock, like `getCreatedOn()`
        Report(RunBursts(policy, types, Pad2, p0, e, bursts, e.timestamp.GetOr(now)), showError)
  }

  /** The derived events a publish attempts after its origin. */
  function PublishCascade(types: ObjectTypes, e: Event, now: Instant, schedule: StudySchedule): seq<Attempt> {
    match schedule
    case Scheduled(bursts) => CascadeAttempts(e, bursts, types, Pad2, e.timestamp.GetOr(now))
    case _ => []
  }

  /** A publish that gets past validation and finds its study. */
  predicate PublishProceeds(validators: Validators, event: Event, now: Instant, schedule: StudySchedule) {
    var e := SetCreatedOn(event, now);
    validators.create(e) && e.updateType.Some? && !schedule.NoStudy?
  }

  /** A publish is the in-order application of the origin and then every
      derived event, each judged against the store as left by those before. */
  lemma PublishIsSequentialWrites(policy: Policy, types: ObjectTypes, validators: Validators, store: Store,
                                  event: Event, showError: bool, now: Instant, schedule: StudySchedule)
    requires PublishProceeds(validators, event, now, schedule)
    ensures var e := SetCreatedOn(event, now);
      PublishEvent(policy, types, validators, store, event, showError, now, schedule)
        == Report(ApplyAll(policy, Progress(store, []), [OriginAttempt(e)] + PublishCascade(types, e, now, schedule)),
                  showError)
  {
    var e := SetCreatedOn(event, now);
    var p0 := Try(policy, Progress(store, []), OriginAttempt(e));
    var cascade := PublishCascade(types, e, now, schedule);
    ApplyAllAppend(policy, Progress(store, []), [OriginAttempt(e)], cascade);
    assert ApplyAll(policy, Progress(store, []), [OriginAttempt(e)]) == p0 by {
      assert [OriginAttempt(e)][1..] == [];
    }
    if schedule.Scheduled? {
      RunBurstsIsApplyAll(policy, types, Pad2, p0, e, schedule.bursts, e.timestamp.GetOr(now));
    }
  }

  /** The origin is written iff its update type allows it against the stored
      value; otherwise its id heads the failed list and it writes nothing. The
      same derived events are attempted either way. */
  lemma PublishOriginDecision(policy: Policy, types: ObjectTypes, validators: Validators, store: Store,
                              event: Event, showError: bool, now: Instant, schedule: StudySchedule)
    requires PublishProceeds(validators, event, now, schedule)
    ensures var e := SetCreatedOn(event, now);
      var cascade := PublishCascade(types, e, now, schedule);
      var r := PublishEvent(policy, types, validators, store, event, showError, now, schedule);
      && (Allowed(policy, store, OriginAttempt(e)) ==>
            r == Report(ApplyAll(policy, Progress(store[KeyOf(e) := e], []), cascade), showError))
      && (!Allowed(policy, store, OriginAttempt(e)) ==>
            && r == Report(ApplyAll(policy, Progress(store, [e.eventId]), cascade), showError)
            && |r.failed| > 0 && r.failed[0] == e.eventId)
  {
    var e := SetCreatedOn(event, now);
    var cascade := PublishCascade(types, e, now, schedule);
    PublishIsSequentialWrites(policy, types, validators, store, event, showError, now, schedule);
    assert ([OriginAttempt(e)] + cascade)[0] == OriginAttempt(e);
    assert ([OriginAttempt(e)] + cascade)[1..] == cascade;
    assert [] + [e.eventId] == [e.eventId];
    FailedOnlyGrows(policy, Progress(store, [e.eventId]), cascade);
  }

  /** Without a schedule only the origin is attempted. */
  lemma PublishUnscheduled(policy: Policy, types: ObjectTypes, validators: Validators, store: Store,
                           event: Event, showError: bool, now: Instant)
    requires PublishProceeds(validators, event, now, Unscheduled)
    ensures var e := SetCreatedOn(event, now);
      var r := PublishEvent(policy, types, validators, store, event, showError, now, Unscheduled);
      && (Allowed(policy, store, OriginAttempt(e)) ==> r == Outcome(store[KeyOf(e) := e], [], None))
      && (!Allowed(policy, store, OriginAttempt(e)) ==>
            r == Outcome(store, [e.eventId], if showError then Some(BadRequest(PublishFailed([e.eventId]))) else None))
  {
    var e := SetCreatedOn(event, now);
    var p0 := Try(policy, Progress(store, []), OriginAttempt(e));
    assert PublishEvent(policy, types, validators, store, event, showError, now, Unscheduled) == Report(p0, showError);
    if !Allowed(policy, store, OriginAttempt(e)) {
      assert p0.failed == [e.eventId] by {
        assert [] + [e.eventId] == [e.eventId];
      }
    }
  }

  /** When the origin and its derived events have pairwise distinct keys, each
      is judged against its own stored value from before the call: the failed
      list is exactly the rejected ids in order (origin, then bursts in
      schedule order, occurrences in order), and each key ends up holding its
      event iff that event was allowed. */
  lemma PublishJudgesEachIndependently(policy: Policy, types: ObjectTypes, validators: Validators, store: Store,
                                       event: Event, showError: bool, now: Instant, schedule: StudySchedule)
    requires PublishProceeds(validators, event, now, schedule)
    requires DistinctKeys([OriginAttempt(SetCreatedOn(event, now))]
                          + PublishCascade(types, SetCreatedOn(event, now), now, schedule))
    ensures var attempts := [OriginAttempt(SetCreatedOn(event, now))]
                            + PublishCascade(types, SetCreatedOn(event, now), now, schedule);
      var r := PublishEvent(policy, types, validators, store, event, showError, now, schedule);
      && r.failed == RejectedIds(policy, store, attempts)
      && forall i :: 0 <= i < |attempts| ==>
           MostRecent(r.store, KeyOf(attempts[i].event))
             == if Allowed(policy, store, attempts[i]) then Some(attempts[i].event)
                else MostRecent(store, KeyOf(attempts[i].event))
  {
    var e := SetCreatedOn(event, now);
    var attempts := [OriginAttempt(e)] + PublishCascade(types, e, now, schedule);
    PublishIsSequentialWrites(policy, types, validators, store, event, showError, now, schedule);
    IndependentAttempts(policy, Progress(store, []), attempts);
  }

  /** Keys no part of the publish touches keep their stored value. */
  lemma PublishLeavesOtherKeys(policy: Policy, types: ObjectTypes, validators: Validators, store: Store,
                               event: Event, showError: bool, now: Instant, schedule: StudySchedule, k: EventKey)
    requires PublishProceeds(validators, event, now, schedule)
    requires k !in KeysOf([OriginAttempt(SetCreatedOn(event, now))]
                          + PublishCascade(types, SetCreatedOn(event, now), now, schedule))
    ensures MostRecent(PublishEvent(policy, types, validators, store, event, showError, now, schedule).store, k)
         == MostRecent(store, k)
  {
    var e := SetCreatedOn(event, now);
    PublishIsSequentialWrites(policy, types, validators, store, event, showError, now, schedule);
    UntouchedKeysUnchanged(policy, Progress(store, []), [OriginAttempt(e)] + PublishCascade(types, e, now, schedule));
  }

  /** `deleteEvent`: delete iff the update type allows it against the stored
      value; a refusal raises only when `showError` is set. */
  function DeleteEvent(policy: Policy, validators: Validators, store: Store, event: Event, showError: bool): (r: Outcome)
    ensures r.failed == []
    ensures !validators.delete(event) ==> r == Outcome(store, [], Some(InvalidEntity))
    ensures validators.delete(event) && event.updateType.None? ==> r == Outcome(store, [], Some(NullPointer))
    ensures validators.delete(event) && event.updateType.Some? ==>
      var allowed := policy.canDelete(event.updateType.value, MostRecent(store, KeyOf(event)), event);
      && (allowed ==> r.error.None? && KeyOf(event) !in r.store
                      && forall k :: k != KeyOf(event) ==> MostRecent(r.store, k) == MostRecent(store, k))
      && (!allowed ==> r.store == store && (r.error.Some? <==> showError))
      && (r.error.Some? ==> r.error.value == BadRequest(DeleteFailed(event.eventId)))
  {
    if !validators.delete(event) then Outcome(store, [], Some(InvalidEntity))
    else if event.updateType.None? then Outcome(store, [], Some(NullPointer))
    else if policy.canDelete(event.updateType.value, MostRecent(store, KeyOf(event)), event) then
      Outcome(store - {KeyOf(event)}, [], None)
    else
      Outcome(store, [], if showError then Some(BadRequest(DeleteFailed(event.eventId))) else None)
  }

  /** `showError` decides only whether a refusal is raised, never the store. */
  lemma DeleteStoreIgnoresShowError(policy: Policy, validators: Validators, store: Store, event: Event)
    ensures DeleteEvent(policy, validators, store, event, true).store
         == DeleteEvent(policy, validators, store, event, false).store
  {
  }

  // ---------------------------------------------------------------------
  // Read side

  datatype Enrollment = Enrollment(studyId: Option<string>, enrolledOn: Option<Instant>)

  datatype Account = Account(id: string, appId: string, healthCode: string, enrollments: seq<Enrollment>)

  /** `BridgeUtils.getElement(account.getEnrollments(), Enrollment::getStudyId, studyId)`:
      the first enrollment in the given study. */
  function FindEnrollment(enrollments: seq<Enrollment>, studyId: Option<string>): (r: Option<Enrollment>)
    ensures r.None? <==> forall i :: 0 <= i < |enrollments| ==> enrollments[i].studyId != studyId
    ensures r.Some? ==> exists i :: 0 <= i < |enrollments| && enrollments[i] == r.value
                                    && forall j :: 0 <= j < i ==> enrollments[j].studyId != studyId
    ensures r.Some? ==> r.value.studyId == studyId
  {
    if |enrollments| == 0 then None
    else if enrollments[0].studyId == studyId then Some(enrollments[0])
    else
      var r := FindEnrollment(enrollments[1..], studyId);
      assert forall i :: 0 < i < |enrollments| ==> enrollments[i] == enrollments[1..][i - 1];
      assert r.Some? ==> exists i :: 0 <= i < |enrollments| && enrollments[i] == r.value
                                     && forall j :: 0 <= j < i ==> enrollments[j].studyId != studyId by {
        if r.Some? {
          var i :| 0 <= i < |enrollments[1..]| && enrollments[1..][i] == r.value
                   && forall j :: 0 <= j < i ==> enrollments[1..][j].studyId != studyId;
          assert enrollments[i + 1] == r.value;
        }
      }
      r
  }

  /** The builder types a trusted-id event never consults (see
      `ActivityEvents.ObjectTypesIrrelevantForExplicitId`). */
  function UnusedObjectTypes(): ObjectTypes {
    ObjectTypes((o, id, t, a) => None, o => Immutable)
  }

  /** The in-memory enrollment event synthesised from an enrollment record:
      only its id and timestamp are set. */
  function EnrollmentEvent(en: Enrollment): (e: Event)
    ensures e.eventId == Some(ENROLLMENT_FIELD) && e.timestamp == en.enrolledOn
    ensures e.recordCount == 0 && e.createdOn.None? && e.updateType == Some(Immutable)
    ensures e.userId.None? && e.studyId.None? && e.answerValue.None?
  {
    Build(NewBuilder().(eventId := Some(ENROLLMENT_FIELD), timestamp := en.enrolledOn), UnusedObjectTypes())
  }

  /** The event `addIfPresent` synthesises for a global event: createdOn copies
      the timestamp, and it counts as one record. */
  function GlobalEvent(field: string, ts: Instant): (e: Event)
    ensures e.eventId == Some(field) && e.timestamp == Some(ts) && e.createdOn == Some(ts)
    ensures e.recordCount == 1 && e.updateType == Some(Immutable)
    ensures e.userId.None? && e.studyId.None? && e.answerValue.None?
  {
    Build(NewBuilder().(eventId := Some(field), timestamp := Some(ts), createdOn := Some(ts), recordCount := 1),
          UnusedObjectTypes())
  }

  /** `addIfPresent`. */
  function AddIfPresent(events: seq<Event>, globals: map<string, Instant>, field: string): (r: seq<Event>)
    ensures field in globals ==> r == events + [GlobalEvent(field, globals[field])]
    ensures field !in globals ==> r == events
  {
    if field in globals then events + [GlobalEvent(field, globals[field])] else events
  }

  /** The scan of `addEnrollmentIfMissing`: true when an `enrollment` event is
      met, in list order, before any event without an id (whose `equals` call
      throws). */
  function HasEnrollment(events: seq<Event>): (r: Result<bool>)
    ensures r == Success(true) <==>
      exists i :: 0 <= i < |events| && events[i].eventId == Some(ENROLLMENT_FIELD)
                  && forall j :: 0 <= j < i ==> events[j].eventId.Some?
    ensures r == Success(false) <==>
      forall i :: 0 <= i < |events| ==> events[i].eventId.Some? && events[i].eventId != Some(ENROLLMENT_FIELD)
    ensures r.Failure? ==> r.error == NullPointer
  {
    if |events| == 0 then Success(false)
    else if events[0].eventId.None? then Failure(NullPointer)
    else if events[0].eventId == Some(ENROLLMENT_FIELD) then Success(true)
    else
      var r := HasEnrollment(events[1..]);
      assert forall i :: 0 < i < |events| ==> events[i] == events[1..][i - 1];
      assert r == Success(true) ==>
        exists i :: 0 <= i < |events| && events[i].eventId == Some(ENROLLMENT_FIELD)
                    && forall j :: 0 <= j < i ==> events[j].eventId.Some? by {
        if r == Success(true) {
          var i :| 0 <= i < |events[1..]| && events[1..][i].eventId == Some(ENROLLMENT_FIELD)
                   && forall j :: 0 <= j < i ==> events[1..][j].eventId.Some?;
          assert events[i + 1].eventId == Some(ENROLLMENT_FIELD);
        }
      }
      r
  }

  /** `addEnrollmentIfMissing`: the enrollment event is appended exactly when
      no event has that id and the account is enrolled in the study. */
  function AddEnrollmentIfMissing(account: Account, events: seq<Event>, studyId: string): (r: Result<seq<Event>>)
    ensures r.Failure? ==> r.error == NullPointer
    ensures (forall i :: 0 <= i < |events| ==> events[i].eventId.Some?) ==> r.Success?
    ensures r.Success? ==> events <= r.value && |r.value| <= |events| + 1
    ensures r.Success? && |r.value| > |events| ==>
      && (forall i :: 0 <= i < |events| ==> events[i].eventId != Some(ENROLLMENT_FIELD))
      && FindEnrollment(account.enrollments, Some(studyId)).Some?
      && r.value[|events|] == EnrollmentEvent(FindEnrollment(account.enrollments, Some(studyId)).value)
    ensures r.Success? && FindEnrollment(account.enrollments, Some(studyId)).Some?
            && (forall i :: 0 <= i < |events| ==> events[i].eventId != Some(ENROLLMENT_FIELD)) ==>
      |r.value| == |events| + 1
  {
    var found :- HasEnrollment(events);
    if found then Success(events)
    else
      match FindEnrollment(account.enrollments, Some(studyId))
      case Some(en) => Success(events + [EnrollmentEvent(en)])
      case None => Success(events)
  }

  /** The globals of interest present in the map, in the order of
      `GLOBAL_EVENTS_OF_INTEREST`. */
  function GlobalEvents(globals: map<string, Instant>): (r: seq<Event>)
    ensures |r| <= |GLOBAL_EVENTS_OF_INTEREST|
    ensures forall i :: 0 <= i < |r| ==>
      r[i].eventId.Some? && r[i].eventId.value in GLOBAL_EVENTS_OF_INTEREST && r[i].eventId.value in globals
    ensures |r| == 2 ==> r[0].eventId == Some(CREATED_ON_FIELD) && r[1].eventId == Some(INSTALL_LINK_SENT_FIELD)
  {
    AddIfPresent(AddIfPresent([], globals, GLOBAL_EVENTS_OF_INTEREST[0]), globals, GLOBAL_EVENTS_OF_INTEREST[1])
  }

  /** `getRecentStudyActivityEvents`: `stored` is what the DAO returns for
      the user and study, `account` what the account service finds, `globals`
      the app-wide event map of the account. */
  function GetRecentStudyActivityEvents(userId: Option<string>, studyId: Option<string>, account: Option<Account>,
                                        stored: seq<Event>, globals: map<string, Instant>): (r: Result<seq<Event>>)
    ensures userId.None? || studyId.None? ==> r == Failure(NullPointer)
    ensures userId.Some? && studyId.Some? && account.None? ==> r == Failure(EntityNotFound("Account"))
    ensures r.Success? ==> stored <= r.value && |r.value| <= |stored| + 3
  {
    if userId.None? || studyId.None? then Failure(NullPointer)
    else if account.None? then Failure(EntityNotFound("Account"))
    else
      var events :- AddEnrollmentIfMissing(account.value, stored, studyId.value);
      var withCreatedOn := AddIfPresent(events, globals, GLOBAL_EVENTS_OF_INTEREST[0]);
      Success(AddIfPresent(withCreatedOn, globals, GLOBAL_EVENTS_OF_INTEREST[1]))
  }

  /** The recent-events list is the stored events, then a synthesised
      `enrollment` event exactly when no stored event has that id and the
      account is enrolled in the study, then the present global events,
      `created_on` before `install_link_sent`. */
  lemma RecentEventsComposition(userId: string, studyId: string, account: Account,
                                stored: seq<Event>, globals: map<string, Instant>)
    requires forall i :: 0 <= i < |stored| ==> stored[i].eventId.Some?
    ensures var r := GetRecentStudyActivityEvents(Some(userId), Some(studyId), Some(account), stored, globals);
      var en := FindEnrollment(account.enrollments, Some(studyId));
      var missing := forall i :: 0 <= i < |stored| ==> stored[i].eventId != Some(ENROLLMENT_FIELD);
      && r.Success?
      && (missing && en.Some? ==> r.value == stored + [EnrollmentEvent(en.value)] + GlobalEvents(globals))
      && (!missing || en.None? ==> r.value == stored + GlobalEvents(globals))
  {
    var missing := forall i :: 0 <= i < |stored| ==> stored[i].eventId != Some(ENROLLMENT_FIELD);
    if !missing {
      var i :| 0 <= i < |stored| && stored[i].eventId == Some(ENROLLMENT_FIELD);
      assert HasEnrollment(stored) == Success(true);
    }
  }

  /** The scan throws on an event without an id that no `enrollment` event precedes. */
  lemma {:induction false} NullIdBeforeEnrollment(events: seq<Event>, i: nat)
    requires i < |events| && events[i].eventId.None?
    requires forall j :: 0 <= j < i ==> events[j].eventId.Some? && events[j].eventId != Some(ENROLLMENT_FIELD)
    ensures HasEnrollment(events) == Failure(NullPointer)
    decreases i
  {
    if i > 0 {
      assert events[1..][i - 1] == events[i];
      NullIdBeforeEnrollment(events[1..], i - 1);
    }
  }

  /** A stored event without an id fails the recent-events read when no
      `enrollment` event precedes it. */
  lemma RecentEventsNullId(userId: string, studyId: string, account: Account,
                           stored: seq<Event>, globals: map<string, Instant>, i: nat)
    requires i < |stored| && stored[i].eventId.None?
    requires forall j :: 0 <= j < i ==> stored[j].eventId.Some? && stored[j].eventId != Some(ENROLLMENT_FIELD)
    ensures GetRecentStudyActivityEvents(Some(userId), Some(studyId), Some(account), stored, globals)
         == Failure(NullPointer)
  {
    NullIdBeforeEnrollment(stored, i);
    assert AddEnrollmentIfMissing(account, stored, studyId) == Failure(NullPointer);
  }

  /** Each global event of interest is in the list iff the account has it,
      as a one-record event whose createdOn is its timestamp. */
  lemma GlobalEventsPresent(globals: map<string, Instant>, field: string)
    requires field in GLOBAL_EVENTS_OF_INTEREST
    ensures field in globals <==> exists i :: 0 <= i < |GlobalEvents(globals)|
                                              && GlobalEvents(globals)[i].eventId == Some(field)
    ensures field in globals ==> GlobalEvent(field, globals[field]) in GlobalEvents(globals)
  {
    var g := GlobalEvents(globals);
    if field in globals {
      if field == CREATED_ON_FIELD {
        assert g[0] == GlobalEvent(field, globals[field]);
      } else {
        assert g[|g| - 1] == GlobalEvent(field, globals[field]);
      }
    }
  }

  /** `API_MINIMUM_PAGE_SIZE` and `API_MAXIMUM_PAGE_SIZE`, whose values are
      defined outside this model. */
  datatype PageBounds = PageBounds(min: int, max: int)

  /** A page of history as the DAO returns it. */
  datatype DaoPage = DaoPage(items: seq<Event>, total: int)

  /** `PagedResourceList` with its offsetBy and pageSize request parameters. */
  datatype Page = Page(items: seq<Event>, total: int, offsetBy: Option<int>, pageSize: Option<int>)

  /** `dao.getStudyActivityEventHistory(userId, studyId, eventId, offsetBy, pageSize)`. */
  type HistoryQuery = (string, Option<string>, string, Option<int>, Option<int>) -> DaoPage

  /** The argument checks of `getStudyActivityEventHistory`, in order. */
  function CheckHistoryArgs(eventId: Option<string>, offsetBy: Option<int>, pageSize: Option<int>,
                            bounds: PageBounds): (r: Option<Error>)
    ensures r.None? <==> eventId.Some? && (offsetBy.None? || offsetBy.value >= 0)
                         && (pageSize.None? || bounds.min <= pageSize.value <= bounds.max)
    ensures eventId.None? ==> r == Some(BadRequest(EventIdRequired))
    ensures eventId.Some? && offsetBy.Some? && offsetBy.value < 0 ==> r == Some(BadRequest(NegativeOffset))
    ensures eventId.Some? && (offsetBy.None? || offsetBy.value >= 0) && r.Some? ==> r == Some(BadRequest(PageSize))
  {
    if eventId.None? then Some(BadRequest(EventIdRequired))
    else if offsetBy.Some? && offsetBy.value < 0 then Some(BadRequest(NegativeOffset))
    else if pageSize.Some? && (pageSize.value < bounds.min || pageSize.value > bounds.max) then
      Some(BadRequest(PageSize))
    else None
  }

  /** `getStudyActivityEventHistory`; `formatEventId` is `formatActivityEventId`
      against the study's custom event ids, null for an unknown id. */
  function GetStudyActivityEventHistory(studyId: Option<string>, eventId: Option<string>,
                                        offsetBy: Option<int>, pageSize: Option<int>, bounds: PageBounds,
                                        account: Option<Account>, formatEventId: string -> Option<string>,
                                        globals: map<string, Instant>, history: HistoryQuery): (r: Result<Page>)
    ensures CheckHistoryArgs(eventId, offsetBy, pageSize, bounds).Some? ==>
      r == Failure(CheckHistoryArgs(eventId, offsetBy, pageSize, bounds).value)
    ensures CheckHistoryArgs(eventId, offsetBy, pageSize, bounds).None? && account.None? ==>
      r == Failure(EntityNotFound("Account"))
    ensures CheckHistoryArgs(eventId, offsetBy, pageSize, bounds).None? && account.Some?
            && formatEventId(eventId.value).None? ==>
      r == Failure(BadRequest(InvalidEventId(eventId.value)))
    ensures r.Success? ==> r.value.offsetBy == offsetBy && r.value.pageSize == pageSize
  {
    var argError := CheckHistoryArgs(eventId, offsetBy, pageSize, bounds);
    if argError.Some? then Failure(argError.value)
    else if account.None? then Failure(EntityNotFound("Account"))
    else
      var adjEventId := formatEventId(eventId.value);
      if adjEventId.None? then Failure(BadRequest(InvalidEventId(eventId.value)))
      else if adjEventId.value in GLOBAL_EVENTS_OF_INTEREST then
        // global events emulate a history of at most one item
        Success(Page(AddIfPresent([], globals, adjEventId.value), 1, offsetBy, pageSize))
      else
        var results := history(account.value.id, studyId, adjEventId.value, offsetBy, pageSize);
        var en := FindEnrollment(account.value.enrollments, studyId);
        if adjEventId.value == ENROLLMENT_FIELD && |results.items| == 0 && en.Some? then
          Success(Page([EnrollmentEvent(en.value)], 1, offsetBy, pageSize))
        else
          Success(Page(results.items, results.total, offsetBy, pageSize))
  }

  /** For a global event the history query is never consulted: the page holds
      the global event iff the account has it, with a total of 1. */
  lemma GlobalHistoryBypassesStore(studyId: Option<string>, eventId: string, offsetBy: Option<int>,
                                   pageSize: Option<int>, bounds: PageBounds, account: Account,
                                   formatEventId: string -> Option<string>, globals: map<string, Instant>,
                                   h1: HistoryQuery, h2: HistoryQuery)
    requires CheckHistoryArgs(Some(eventId), offsetBy, pageSize, bounds).None?
    requires formatEventId(eventId).Some? && formatEventId(eventId).value in GLOBAL_EVENTS_OF_INTEREST
    ensures var r1 := GetStudyActivityEventHistory(studyId, Some(eventId), offsetBy, pageSize, bounds,
                                                   Some(account), formatEventId, globals, h1);
      var r2 := GetStudyActivityEventHistory(studyId, Some(eventId), offsetBy, pageSize, bounds,
                                             Some(account), formatEventId, globals, h2);
      var field := formatEventId(eventId).value;
      && r1 == r2
      && r1.Success? && r1.value.total == 1
      && (field in globals ==> r1.value.items == [GlobalEvent(field, globals[field])])
      && (field !in globals ==> r1.value.items == [])
  {
  }

  /** An empty `enrollment` history becomes one synthesised item with total 1
      when the account is enrolled in the study, and is returned as the DAO
      gave it otherwise; a non-empty one is never altered. */
  lemma EnrollmentHistoryBackfill(studyId: Option<string>, eventId: string, offsetBy: Option<int>,
                                  pageSize: Option<int>, bounds: PageBounds, account: Account,
                                  formatEventId: string -> Option<string>, globals: map<string, Instant>,
                                  history: HistoryQuery)
    requires CheckHistoryArgs(Some(eventId), offsetBy, pageSize, bounds).None?
    requires formatEventId(eventId) == Some(ENROLLMENT_FIELD)
    ensures var r := GetStudyActivityEventHistory(studyId, Some(eventId), offsetBy, pageSize, bounds,
                                                  Some(account), formatEventId, globals, history);
      var dao := history(account.id, studyId, ENROLLMENT_FIELD, offsetBy, pageSize);
      var en := FindEnrollment(account.enrollments, studyId);
      && r.Success?
      && (dao.items == [] && en.Some? ==> r.value.items == [EnrollmentEvent(en.value)] && r.value.total == 1)
      && (dao.items != [] || en.None? ==> r.value.items == dao.items && r.value.total == dao.total)
  {
    assert ENROLLMENT_FIELD !in GLOBAL_EVENTS_OF_INTEREST;
  }

  /** Any other valid event id returns the DAO's page unchanged. */
  lemma CustomHistoryFromStore(studyId: Option<string>, eventId: string, offsetBy: Option<int>,
                               pageSize: Option<int>, bounds: PageBounds, account: Account,
                               formatEventId: string -> Option<string>, globals: map<string, Instant>,
                               history: HistoryQuery)
    requires CheckHistoryArgs(Some(eventId), offsetBy, pageSize, bounds).None?
    requires formatEventId(eventId).Some?
    requires formatEventId(eventId).value !in GLOBAL_EVENTS_OF_INTEREST
    requires formatEventId(eventId).value != ENROLLMENT_FIELD
    ensures var adj := formatEventId(eventId).value;
      var dao := history(account.id, studyId, adj, offsetBy, pageSize);
      GetStudyActivityEventHistory(studyId, Some(eventId), offsetBy, pageSize, bounds,
                                   Some(account), formatEventId, globals, history)
        == Success(Page(dao.items, dao.total, offsetBy, pageSize))
  {
  }
}
