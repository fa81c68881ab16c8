# Study activity events, timelines and validators (a Dafny model)

This project models the core of the Bridge server's study activity event handling and proves properties of that model.

**Publishing and deleting events.** A study activity event is keyed by user, study and event id. Publishing an event does the following:
- stamps the event's `createdOn`;
- asks the event's update type whether it may overwrite the most recent stored value, then writes it or records its id as failed;
- fans out the study-burst events of the study's schedule, each judged on its own;
- raises a single `BadRequestException` at the end, and only when the caller asked for errors.

Deleting an event is the same decision with `canDelete`.

**Reading events.** The read side returns two things:
- The recent events. An `enrollment` event is backfilled from the account's enrollment record, and the global `created_on` and `install_link_sent` events are appended.
- The paged history of one event id. The arguments are checked first. A global event fakes a history of at most one item, and an empty `enrollment` history is backfilled.

**Building events.** `StudyActivityEvent.Builder.build` resolves the event id and the update type, either from an explicit id or from an object type.

**Timelines.** `Timeline.Builder` accumulates scheduled sessions:
- metadata entries, one per session and one per assessment;
- running totals of notifications and minutes;
- session infos in first-insertion order, and assessment infos keyed by their key.

Its `build` sorts the scheduled sessions stably by start day, then end day.

**Smaller pieces:**
- `EventStreamAdherenceReport.getDayRangeOfAllStreams` and the report's defaults;
- `DemographicValidator`;
- `AppAndUsersValidator`, with the Synapse client abstracted;
- `AssessmentReference`: its config href, and equality and hash code by guid only;
- `DemographicId`: equality and hash code on a composite key.

**Modules (one file each):**

| module | file | models |
|---|---|---|
| `Common` | `common.dfy` | The shared vocabulary: nullable values (`Option`), the exceptions raised (`Error`, `Result`), `StringUtils.isBlank`, and Java `int`. |
| `JavaHash` | `java_hash.dfy` | 32-bit wrap-around, `String.hashCode` and `Objects.hash`. |
| `Numerals` | `numerals.dfy` | `Integer.toString` for naturals, `Strings.padStart`, and the two-digit occurrence numbers. |
| `ActivityEvents` | `activity_event.dfy` | `StudyActivityEvent`, its builder, and `setCreatedOn`. |
| `EventStore` | `event_store.dfy` | The DAO as a map from (user, study, event id) to the most recent event, plus the sequential write-or-reject step shared by the origin event and every derived event. |
| `BurstCascade` | `burst_cascade.dfy` | `createStudyBurstEvents`, both as the service's two nested loops and as a reference list of derived events. |
| `EventService` | `event_service.dfy` | `publishEvent`, `deleteEvent`, `getRecentStudyActivityEvents`, `getStudyActivityEventHistory`, `addIfPresent` and `addEnrollmentIfMissing`. |
| `Timelines` | `timeline.dfy` | `Timeline.Builder`. |
| `Adherence` | `adherence.dfy` | `EventStreamAdherenceReport`. |
| `DemographicValidation` | `demographic_validator.dfy` | `DemographicValidator`. |
| `AppAndUsersValidation` | `app_users_validator.dfy` | `AppAndUsersValidator`. |
| `AssessmentReferences` | `assessment_reference.dfy` | `AssessmentReference`. |
| `DemographicIds` | `demographic_id.dfy` | `DemographicId`. |

**Collaborators whose code is not part of this model** are parameters, usually records of functions:
- `ActivityEventUpdateType.canUpdate` and `canDelete` (`Policy`);
- `ActivityEventObjectType.getEventId` and `getUpdateType` (`ObjectTypes`);
- the create and delete validators (`Validators`);
- `formatActivityEventId`, including its lookup of the study's custom event ids;
- the Synapse client and `BridgeUtils.toSynapseFriendlyName` (`Synapse`);
- `ConfigResolver.url` (`Resolver`);
- the hash code of the `DemographicCategory` enum;
- the page-size bounds (`PageBounds`);
- `SHARED_APP_ID`;
- the DAO's history query (`HistoryQuery`).

The clock is the parameter `now`.

An exception becomes a value:
- an `Error` in a `Result`;
- or, for publish and delete, an `Outcome` that still carries the store as the writes made before the throw left it.

## Model

| member | source | states |
|---|---|---|
| ActivityEvents.NewBuilder | src/main/java/org/sagebionetworks/bridge/models/activities/StudyActivityEvent.java:91-104 | A new builder has no event id, no object type and no update type, and its record count defaults to 0. |
| ActivityEvents.Build | src/main/java/org/sagebionetworks/bridge/models/activities/StudyActivityEvent.java:167-194 | app, user, study, time zone, timestamp, answer value, createdOn and record count are copied unchanged. An explicit event id is used verbatim, and a missing update type then becomes IMMUTABLE. Otherwise an object type computes the id from object id, event type and answer value, and supplies the default update type. With neither, the id is null. A caller-supplied update type is never overwritten. The update type stays null iff neither it, nor an id, nor an object type was given. |
| ActivityEvents.ExplicitIdTakesPrecedence | src/main/java/org/sagebionetworks/bridge/models/activities/StudyActivityEvent.java:180-192 | Once an event id is set, the object type, object id and event type have no effect on the built event: the two branches are exclusive. |
| ActivityEvents.ObjectTypesIrrelevantForExplicitId | src/main/java/org/sagebionetworks/bridge/models/activities/StudyActivityEvent.java:180-192 | The object type's behaviour is consulted only when no event id is set and an object type is. |
| ActivityEvents.StoredEventBuilder | src/main/java/org/sagebionetworks/bridge/models/activities/StudyActivityEvent.java:91-104 | Rebuilding an event from its own fields sets its id and no object type. |
| ActivityEvents.RebuildRoundTrip | src/main/java/org/sagebionetworks/bridge/models/activities/StudyActivityEvent.java:167-194 | An event with an id and an update type is reproduced exactly by building it from its own fields. |
| ActivityEvents.RebuildWithoutUpdateTypeIsImmutable | src/main/java/org/sagebionetworks/bridge/models/activities/StudyActivityEvent.java:180-185 | An event with an id but no update type comes back identical except for update type IMMUTABLE. |
| ActivityEvents.SetCreatedOn | src/main/java/org/sagebionetworks/bridge/models/activities/StudyActivityEvent.java:81-83 | Only createdOn changes, and it becomes the given instant. |
| ActivityEvents.SetCreatedOnLastWins | src/main/java/org/sagebionetworks/bridge/models/activities/StudyActivityEvent.java:81-83 | Setting createdOn twice equals setting it once to the second value. |
| EventStore.MostRecent | src/main/java/org/sagebionetworks/bridge/services/StudyActivityEventService.java:131-132 | The most recent event for a (user, study, event id) key is present iff the store holds that key, and it is the stored event. |
| EventStore.Try | src/main/java/org/sagebionetworks/bridge/services/StudyActivityEventService.java:137-142 | An allowed attempt writes its event under its key and leaves the failed list alone. A refused attempt leaves the store alone and appends its event id to the failed list. |
| EventStore.ApplyAllAppend | src/main/java/org/sagebionetworks/bridge/services/StudyActivityEventService.java:137-147 | Running two lists of attempts in a row is running their concatenation: the origin and the cascade thread one store and one failed list. |
| EventStore.FailedOnlyGrows | src/main/java/org/sagebionetworks/bridge/services/StudyActivityEventService.java:137-156 | A run of attempts only extends the failed list, by at most one id per attempt. |
| EventStore.UntouchedKeysUnchanged | src/main/java/org/sagebionetworks/bridge/services/StudyActivityEventService.java:137-142 | Keys no attempt touches keep their stored event. Every key in the result was either stored before or written by an attempt. |
| EventStore.RejectedIds | src/main/java/org/sagebionetworks/bridge/services/StudyActivityEventService.java:141 | Reference definition: the ids of the attempts refused against a fixed store, in attempt order. There is at most one per attempt. |
| EventStore.IndependentAttempts | src/main/java/org/sagebionetworks/bridge/services/StudyActivityEventService.java:274-282 | With pairwise distinct keys, each attempt is judged against its own stored value from before the run. The failed list gains exactly the reference list of refused ids, in order. Each key ends up holding its event iff that event was allowed, and keeps its old value otherwise. |
| EventStore.RejectedIdsSameJudgement | src/main/java/org/sagebionetworks/bridge/services/StudyActivityEventService.java:141 | Two stores on which every attempt gets the same verdict give the same refused ids. |
| BurstCascade.CascadeBuilder | src/main/java/org/sagebionetworks/bridge/services/StudyActivityEventService.java:249-255 | The shared builder has object type STUDY_BURST and no explicit event id, so each derived id comes from the object type. |
| BurstCascade.OccurrenceEventIsBuilt | src/main/java/org/sagebionetworks/bridge/services/StudyActivityEventService.java:259-272 | A derived event is what the builder produces from the origin's scope, the burst's update type, the burst identifier as object id, the occurrence number as answer value, and the occurrence time. |
| BurstCascade.AfterIsMultiple | src/main/java/org/sagebionetworks/bridge/services/StudyActivityEventService.java:266 | Adding the interval k times in a row is adding k times the interval. |
| BurstCascade.BurstAttempts | src/main/java/org/sagebionetworks/bridge/services/StudyActivityEventService.java:257-284 | A burst yields exactly `occurrences` derived events, none when that is not positive. Occurrence k carries the burst's update type and answer value `iteration(k + 1)`. Its id is the STUDY_BURST id for the burst and that answer. Its timestamp lies k + 1 intervals after the origin, and it shares the origin's app, user, study, time zone and createdOn. |
| BurstCascade.BurstTimestampsAccumulate | src/main/java/org/sagebionetworks/bridge/services/StudyActivityEventService.java:261-266 | The first occurrence is one interval after the origin, and each later one is one interval after the previous one, so occurrence k is at origin + (k + 1) × interval. |
| BurstCascade.CascadeAttempts | src/main/java/org/sagebionetworks/bridge/services/StudyActivityEventService.java:257-285 | Every derived event of the cascade shares the origin's scope and is an occurrence of some burst whose origin event id equals the event's id. |
| BurstCascade.NoMatchNoCascade | src/main/java/org/sagebionetworks/bridge/services/StudyActivityEventService.java:257-258 | When no burst's origin event id equals the event's id, nothing is derived. |
| BurstCascade.CascadeSize | src/main/java/org/sagebionetworks/bridge/services/StudyActivityEventService.java:257-264 | The cascade has exactly the sum, over the matching bursts, of their occurrence counts. |
| BurstCascade.RunOccurrences | src/main/java/org/sagebionetworks/bridge/services/StudyActivityEventService.java:261-283 | The inner loop over one burst's occurrences only extends the failed list, by at most one id per remaining occurrence, and never removes a stored key. `RunOccurrencesIsApplyAll` states what it writes. |
| BurstCascade.RunBursts | src/main/java/org/sagebionetworks/bridge/services/StudyActivityEventService.java:246-286 | The outer loop over the schedule's bursts only extends the failed list and never removes a stored key. When no burst has the origin's event id, it changes nothing. `RunBurstsIsApplyAll` states what it writes. |
| BurstCascade.RunOccurrencesIsApplyAll | src/main/java/org/sagebionetworks/bridge/services/StudyActivityEventService.java:261-283 | The inner loop, from any occurrence onwards, equals the sequential application of the remaining reference attempts of that burst. |
| BurstCascade.RunBurstsIsApplyAll | src/main/java/org/sagebionetworks/bridge/services/StudyActivityEventService.java:246-286 | The nested loops of `createStudyBurstEvents` equal the in-order application of the reference cascade. A rejection never stops later occurrences or later bursts. |
| BurstCascade.BurstAnswersNumberOccurrences | src/main/java/org/sagebionetworks/bridge/services/StudyActivityEventService.java:265 | With the service's two-digit rendering, each answer value is all digits and reads back as the 1-based occurrence number, so the occurrences of a burst have distinct answer values. |
| EventService.Report | src/main/java/org/sagebionetworks/bridge/services/StudyActivityEventService.java:148-156 | The store and the failed list are kept as they are. An error is raised iff `showError` is set and something failed, and it names all failed ids. |
| EventService.PublishEvent | src/main/java/org/sagebionetworks/bridge/services/StudyActivityEventService.java:124-157 | The event validated is the one with createdOn stamped to `now`. An invalid event raises before any write. A missing update type raises a null dereference before any write. A missing study raises after the origin's write-or-reject. Otherwise an error is raised iff `showError` is set and the failed list is non-empty, and it names exactly those ids. |
| EventService.PublishIsSequentialWrites | src/main/java/org/sagebionetworks/bridge/services/StudyActivityEventService.java:124-157 | A publish that passes validation is the in-order application of the origin attempt followed by the whole reference cascade. |
| EventService.PublishOriginDecision | src/main/java/org/sagebionetworks/bridge/services/StudyActivityEventService.java:137-147 | The origin is written iff `canUpdate` allows it against its most recent value; otherwise its id heads the failed list and nothing is written for it. The same cascade follows either way. |
| EventService.PublishUnscheduled | src/main/java/org/sagebionetworks/bridge/services/StudyActivityEventService.java:137-156 | Without a schedule only the origin is attempted. An allowed origin is stored with no error. A refused one leaves the store unchanged and fails just its own id, raised iff `showError`. |
| EventService.PublishJudgesEachIndependently | src/main/java/org/sagebionetworks/bridge/services/StudyActivityEventService.java:131-156 | With distinct keys, the failed list is the refused ids: origin first, then bursts in schedule order, then occurrences in order. Each key holds its event afterwards iff that event was allowed against its pre-publish value. |
| EventService.PublishLeavesOtherKeys | src/main/java/org/sagebionetworks/bridge/services/StudyActivityEventService.java:124-157 | A publish changes no key other than those of the origin and its derived events. |
| EventService.DeleteEvent | src/main/java/org/sagebionetworks/bridge/services/StudyActivityEventService.java:104-122 | An invalid event raises without a delete. Otherwise the key is removed iff `canDelete` allows it against the stored value, and every other key is unchanged. A refusal leaves the store unchanged and raises iff `showError`, naming the event id. |
| EventService.DeleteStoreIgnoresShowError | src/main/java/org/sagebionetworks/bridge/services/StudyActivityEventService.java:112-121 | `showError` decides whether a refusal is raised, never what happens to the store. |
| EventService.FindEnrollment | src/main/java/org/sagebionetworks/bridge/services/StudyActivityEventService.java:297 | The result is an enrollment of the account in the given study, and is absent iff the account has none. An account holds at most one enrollment per study; the model takes the account's enrollments as a list and returns the first match in that order. |
| EventService.EnrollmentEvent | src/main/java/org/sagebionetworks/bridge/services/StudyActivityEventService.java:299-300 | The backfilled event has id `enrollment`, the enrollment's timestamp, record count 0, no createdOn and update type IMMUTABLE. |
| EventService.GlobalEvent | src/main/java/org/sagebionetworks/bridge/services/StudyActivityEventService.java:232-237 | A global event carries the field as its id, the timestamp also as its createdOn, and record count 1. |
| EventService.AddIfPresent | src/main/java/org/sagebionetworks/bridge/services/StudyActivityEventService.java:229-240 | The list gains one global event at its end iff the app-wide map has the field, and is unchanged otherwise. |
| EventService.HasEnrollment | src/main/java/org/sagebionetworks/bridge/services/StudyActivityEventService.java:292-296 | The scan finds `enrollment` iff some event has that id and no earlier event lacks an id. It finds nothing iff every event has an id other than `enrollment`. Otherwise it raises a null dereference. |
| EventService.AddEnrollmentIfMissing | src/main/java/org/sagebionetworks/bridge/services/StudyActivityEventService.java:291-303 | An event without an id raises a null dereference. Otherwise the list is kept as a prefix and gains at most one event. It gains the enrollment event built from the account's enrollment in the study exactly when no event has the id `enrollment` and such an enrollment exists. |
| EventService.GlobalEvents | src/main/java/org/sagebionetworks/bridge/services/StudyActivityEventService.java:172-175 | At most two events, each a global event of interest that the app-wide map holds, `created_on` before `install_link_sent`. `GlobalEventsPresent` states that each is present iff the map has it. |
| EventService.GetRecentStudyActivityEvents | src/main/java/org/sagebionetworks/bridge/services/StudyActivityEventService.java:159-177 | A null user or study id raises a null dereference, and a missing account raises not-found. On success the stored events are a prefix of the result, which has at most three more. |
| EventService.RecentEventsComposition | src/main/java/org/sagebionetworks/bridge/services/StudyActivityEventService.java:159-177 | The result is the stored events, then an `enrollment` event exactly when none is stored and the account is enrolled in the study, then the present global events, `created_on` before `install_link_sent`. |
| EventService.NullIdBeforeEnrollment | src/main/java/org/sagebionetworks/bridge/services/StudyActivityEventService.java:292-296 | An event without an id that no `enrollment` event precedes makes the scan raise. |
| EventService.RecentEventsNullId | src/main/java/org/sagebionetworks/bridge/services/StudyActivityEventService.java:166-167 | Such a stored event makes the recent-events read raise. |
| EventService.GlobalEventsPresent | src/main/java/org/sagebionetworks/bridge/services/StudyActivityEventService.java:172-175 | Each global event of interest appears in the appended list iff the account's map has it, and then as its global event. |
| EventService.CheckHistoryArgs | src/main/java/org/sagebionetworks/bridge/services/StudyActivityEventService.java:182-190 | The arguments pass iff the event id is present, the offset is absent or non-negative, and the page size is absent or within the bounds. A failure names the first check that failed, in the source's order. |
| EventService.GetStudyActivityEventHistory | src/main/java/org/sagebionetworks/bridge/services/StudyActivityEventService.java:179-227 | A bad argument raises before the account is looked up. A missing account raises not-found. An unrecognised event id raises bad-request naming it. A returned page always carries the requested offset and page size. |
| EventService.GlobalHistoryBypassesStore | src/main/java/org/sagebionetworks/bridge/services/StudyActivityEventService.java:201-212 | For a global event the history query is never consulted. The page has total 1 and holds the global event iff the account has it. |
| EventService.EnrollmentHistoryBackfill | src/main/java/org/sagebionetworks/bridge/services/StudyActivityEventService.java:214-226 | An empty `enrollment` history becomes one backfilled item with total 1 when the account is enrolled in the study. Otherwise the DAO's page is returned unchanged. |
| EventService.CustomHistoryFromStore | src/main/java/org/sagebionetworks/bridge/services/StudyActivityEventService.java:214-226 | Any other valid event id returns the DAO's items and total unchanged. |
| Timelines.NewBuilder | src/main/java/org/sagebionetworks/bridge/models/schedules2/timelines/Timeline.java:78-89 | A new builder has zero totals, no metadata and no scheduled sessions, and its session map is well formed. |
| Timelines.WithSessionInfo | src/main/java/org/sagebionetworks/bridge/models/schedules2/timelines/Timeline.java:154-157 | The info is stored under its guid, and other guids keep their infos. A new guid goes to the end of the order, and a known guid keeps its place. Nothing else changes. |
| Timelines.SessionValues | src/main/java/org/sagebionetworks/bridge/models/schedules2/timelines/Timeline.java:166-167 | The session infos are listed in first-insertion order, one per key. |
| Timelines.SessionInfoOrder | src/main/java/org/sagebionetworks/bridge/models/schedules2/timelines/Timeline.java:154-157 | Re-adding a guid replaces its info at its original position. A new guid appends its info. |
| Timelines.WithAssessmentInfo | src/main/java/org/sagebionetworks/bridge/models/schedules2/timelines/Timeline.java:150-153 | The info is stored under its key, other keys keep theirs, and nothing else changes. |
| Timelines.AssessmentInfoLastPutWins | src/main/java/org/sagebionetworks/bridge/models/schedules2/timelines/Timeline.java:150-153 | Two infos with one key leave only the second. |
| Timelines.FloorDiv | src/main/java/org/sagebionetworks/bridge/models/schedules2/timelines/Timeline.java:138 | `Math.floorDiv`: the quotient rounds toward negative infinity for either sign of divisor. |
| Timelines.NotificationsAdded | src/main/java/org/sagebionetworks/bridge/models/schedules2/timelines/Timeline.java:131-140 | A zero interval raises an arithmetic error, and nothing else does. Without repeating notifications the count is one per notification. With a non-negative window and positive intervals it is at least that. |
| Timelines.RepeatingNotificationCount | src/main/java/org/sagebionetworks/bridge/models/schedules2/timelines/Timeline.java:131-140 | A notification repeating every `interval` minutes over a window counts n times, where (n − 1) × interval ≤ window < n × interval. |
| Timelines.NotificationsAddedAppend | src/main/java/org/sagebionetworks/bridge/models/schedules2/timelines/Timeline.java:131-140 | The count is additive over concatenated notification lists, and a concatenation fails iff one of its parts does. |
| Timelines.NotificationsAddedIsSum | src/main/java/org/sagebionetworks/bridge/models/schedules2/timelines/Timeline.java:131-140 | Without a zero interval, the count is exactly the sum over all notifications of 1, plus floorDiv(window, interval) for each notification that has an interval. |
| Timelines.ScheduledSessionNotifications | src/main/java/org/sagebionetworks/bridge/models/schedules2/timelines/Timeline.java:131-140 | After a successful `withScheduledSession`, no notification of the session has a zero interval. The notification total has grown by exactly that per-notification sum. |
| Timelines.SessionMetadata | src/main/java/org/sagebionetworks/bridge/models/schedules2/timelines/Timeline.java:106-118 | The session entry's guid is the session instance guid, and all its assessment fields are null. |
| Timelines.AssessmentMetadata | src/main/java/org/sagebionetworks/bridge/models/schedules2/timelines/Timeline.java:121-128 | An assessment entry copies every session field of the session entry. Only its guid and assessment fields are overridden, with the assessment's instance guid and reference. |
| Timelines.SessionEntries | src/main/java/org/sagebionetworks/bridge/models/schedules2/timelines/Timeline.java:106-129 | A scheduled session contributes 1 + (number of assessments) entries: its session entry first, then one per assessment, in order. |
| Timelines.WithScheduledSession | src/main/java/org/sagebionetworks/bridge/models/schedules2/timelines/Timeline.java:103-149 | A null schedule, a zero notification interval and an unknown session reference each raise, in that order. On success the session is appended and its entries are appended to the metadata. The notification total grows by the notifications added. The minute total grows by the referenced session's minutes iff they are non-null. Nothing else changes. |
| Timelines.ScheduledSessionMetadata | src/main/java/org/sagebionetworks/bridge/models/schedules2/timelines/Timeline.java:106-129 | The appended entries are the session entry, then per assessment a copy of it with only the guid and assessment fields overridden. |
| Timelines.ScheduledSessionsAccumulate | src/main/java/org/sagebionetworks/bridge/models/schedules2/timelines/Timeline.java:141-146 | Over a run of scheduled sessions the minute total is a running sum of their sessions' minutes. The metadata grows by one entry per session and per assessment, the sessions are appended in order, and the info maps are untouched. |
| Timelines.SortedPairwise | src/main/java/org/sagebionetworks/bridge/models/schedules2/timelines/Timeline.java:159-165 | In a sorted schedule every earlier session comes no later by (startDay, endDay) than every later one. |
| Timelines.Insert | src/main/java/org/sagebionetworks/bridge/models/schedules2/timelines/Timeline.java:159-165 | Inserting into a sorted schedule keeps it sorted and adds exactly the new session. |
| Timelines.InsertWithKey | src/main/java/org/sagebionetworks/bridge/models/schedules2/timelines/Timeline.java:159-165 | Insertion puts the new session after every equal-keyed session already present. |
| Timelines.Sort | src/main/java/org/sagebionetworks/bridge/models/schedules2/timelines/Timeline.java:159-165 | The result is sorted by startDay, then endDay, and is a permutation of the input. |
| Timelines.SortIsStable | src/main/java/org/sagebionetworks/bridge/models/schedules2/timelines/Timeline.java:159-165 | Sessions with equal (startDay, endDay) keep their relative order. |
| Timelines.Build | src/main/java/org/sagebionetworks/bridge/models/schedules2/timelines/Timeline.java:158-168 | The schedule is a sorted permutation of the added sessions. The session infos appear once per guid in first-insertion order. Metadata, assessment infos and both totals are carried over unchanged. |
| Timelines.SessionKeysCount | src/main/java/org/sagebionetworks/bridge/models/schedules2/timelines/Timeline.java:154-157 | The session order lists exactly as many guids as the map has keys. |
| Timelines.BuildIsStable | src/main/java/org/sagebionetworks/bridge/models/schedules2/timelines/Timeline.java:158-168 | The built schedule keeps the insertion order of sessions with equal (startDay, endDay). |
| Adherence.NewReport | src/main/java/org/sagebionetworks/bridge/models/schedules2/adherence/eventstream/EventStreamAdherenceReport.java:27-31 | A new report has adherence 100, no streams, activeOnly false, and no timestamp or time zone. |
| Adherence.DayRangeOfAllStreams | src/main/java/org/sagebionetworks/bridge/models/schedules2/adherence/eventstream/EventStreamAdherenceReport.java:33-51 | The result is null iff there are no streams. Its min is ≤ and its max is ≥ every day key of every stream. When some key exists, min and max are actual keys. Streams without keys give (Integer.MAX_VALUE, Integer.MIN_VALUE). |
| Adherence.DefaultReportHasNoRange | src/main/java/org/sagebionetworks/bridge/models/schedules2/adherence/eventstream/EventStreamAdherenceReport.java:30-36 | A default report has no day range. |
| DemographicValidation.Validate | src/main/java/org/sagebionetworks/bridge/validators/DemographicValidator.java:17-29 | `appId` is rejected iff blank, `userId` iff blank, and `category` iff null. These are the only errors, they appear in that order, and each has the cannot-be-blank code. |
| DemographicValidation.ValidIff | src/main/java/org/sagebionetworks/bridge/validators/DemographicValidator.java:17-29 | A demographic has no errors iff appId and userId are non-blank and category is non-null. |
| DemographicValidation.AnswerNotChecked | src/main/java/org/sagebionetworks/bridge/validators/DemographicValidator.java:17-29 | The answer value never affects the errors. |
| DemographicValidation.ChecksIndependent | src/main/java/org/sagebionetworks/bridge/validators/DemographicValidator.java:20-28 | Changing any one of appId, userId and category leaves the other two fields' errors as they were, so all applicable errors are reported together. |
| AppAndUsersValidation.IndexedPathInjective | src/main/java/org/sagebionetworks/bridge/validators/AppAndUsersValidator.java:53 | Nested paths of different list indices are different, so each element's errors are told apart. |
| AppAndUsersValidation.Each | src/main/java/org/sagebionetworks/bridge/validators/AppAndUsersValidator.java:51-65 | The element loop aborts iff some element's check aborts, and then with that element's error. Otherwise the errors are exactly those of the elements: the first element's errors come first, followed by those of the rest. |
| AppAndUsersValidation.AdminIdErrors | src/main/java/org/sagebionetworks/bridge/validators/AppAndUsersValidator.java:52-64 | Every admin id is looked up, blank or not. The lookup aborts the validation iff it fails with something other than not-found. Otherwise the id is reported blank iff it is blank, and invalid iff Synapse does not know it, both under `adminIds[i]`. |
| AppAndUsersValidation.AdminErrors | src/main/java/org/sagebionetworks/bridge/validators/AppAndUsersValidator.java:47-50 | A null or empty list gives exactly the one error "are required". |
| AppAndUsersValidation.AdminIdsChecked | src/main/java/org/sagebionetworks/bridge/validators/AppAndUsersValidator.java:47-66 | For a non-empty list: validation aborts iff some lookup fails. Otherwise each id gets its blank and invalid errors exactly as it deserves, and "are required" is absent. |
| AppAndUsersValidation.RoleErrors | src/main/java/org/sagebionetworks/bridge/validators/AppAndUsersValidator.java:87-92 | Null or empty roles give "should have at least one role". Roles meeting {ADMIN, WORKER, SUPERADMIN} give "can only have roles developer and/or researcher". Any other roles give no error. |
| AppAndUsersValidation.UserErrors | src/main/java/org/sagebionetworks/bridge/validators/AppAndUsersValidator.java:72-95 | A blank Synapse id gives "cannot be blank" and is not looked up. A non-blank one gives "is invalid" iff Synapse does not know it, and aborts iff the lookup fails otherwise. The role errors follow either way. |
| AppAndUsersValidation.UsersErrors | src/main/java/org/sagebionetworks/bridge/validators/AppAndUsersValidator.java:68-71 | A null or empty user list gives exactly the one error "are required". |
| AppAndUsersValidation.UsersChecked | src/main/java/org/sagebionetworks/bridge/validators/AppAndUsersValidator.java:68-96 | For a non-empty list: validation aborts iff a non-blank Synapse id fails to look up. Otherwise every user's own errors are reported. |
| AppAndUsersValidation.AppErrors | src/main/java/org/sagebionetworks/bridge/validators/AppAndUsersValidator.java:98-115 | A null app gives one error. Otherwise an unusable name, a blank sponsor name and a blank identifier each give their own error under `app.`, and nothing else does. Each error appears at most once, in the order name, sponsorName, identifier. |
| AppAndUsersValidation.Validate | src/main/java/org/sagebionetworks/bridge/validators/AppAndUsersValidator.java:44-116 | The errors are the admin errors, then the user errors, then the app errors. An aborted lookup discards everything collected so far. |
| AppAndUsersValidation.AbortsIffLookupFails | src/main/java/org/sagebionetworks/bridge/validators/AppAndUsersValidator.java:44-116 | Validation aborts iff one of the lookups it actually performs fails with something other than not-found. |
| AppAndUsersValidation.EmptyRequest | src/main/java/org/sagebionetworks/bridge/validators/AppAndUsersValidator.java:44-116 | A request with no admins, no users and no app gets exactly its three "missing" errors. |
| AssessmentReferences.FromJson | src/main/java/org/sagebionetworks/bridge/models/assessments/AssessmentReference.java:23-35 | The JSON constructor keeps appId and guid and leaves id and originSharedId null. |
| AssessmentReferences.ConfigPathInjective | src/main/java/org/sagebionetworks/bridge/models/assessments/AssessmentReference.java:50-51 | The config path determines both the library (shared or local) and the guid. |
| AssessmentReferences.ConfigHref | src/main/java/org/sagebionetworks/bridge/models/assessments/AssessmentReference.java:46-52 | The href is null iff the guid is null. Otherwise it is the resolved `ws` URL of the guid's config under `/v1/sharedassessments/` when appId is the shared app, and under `/v1/assessments/` otherwise, including when appId is null. |
| AssessmentReferences.ConfigHrefDependsOnGuidAndLibrary | src/main/java/org/sagebionetworks/bridge/models/assessments/AssessmentReference.java:46-52 | Two references with one resolver, one guid and the same library get the same href. |
| AssessmentReferences.ConfigHrefDistinguishes | src/main/java/org/sagebionetworks/bridge/models/assessments/AssessmentReference.java:46-52 | With a resolver that keeps the path, two hrefs agree iff guid and library agree. |
| AssessmentReferences.Equals | src/main/java/org/sagebionetworks/bridge/models/assessments/AssessmentReference.java:68-76 | Null and other classes are never equal. Two references are equal iff their guids are. |
| AssessmentReferences.HashCode | src/main/java/org/sagebionetworks/bridge/models/assessments/AssessmentReference.java:63-66 | The hash is 31 + the guid's string hash, wrapped to 32 bits, so a null guid hashes to 31. |
| AssessmentReferences.ObjectsHashSingle | src/main/java/org/sagebionetworks/bridge/models/assessments/AssessmentReference.java:65 | The hash of one value is 31 + its hash, wrapped to 32 bits. |
| AssessmentReferences.EqualsIsEquivalence | src/main/java/org/sagebionetworks/bridge/models/assessments/AssessmentReference.java:68-76 | Equality is reflexive, symmetric and transitive. |
| AssessmentReferences.EqualsConsistentWithHashCode | src/main/java/org/sagebionetworks/bridge/models/assessments/AssessmentReference.java:63-76 | Equal references have equal hash codes. |
| AssessmentReferences.EqualsIgnoresAllButGuid | src/main/java/org/sagebionetworks/bridge/models/assessments/AssessmentReference.java:63-76 | Changing resolver, appId, id or originSharedId changes neither equality nor hash code. |
| DemographicIds.Equals | src/main/java/org/sagebionetworks/bridge/models/accounts/DemographicId.java:38-44 | Null and other classes are never equal. Two ids are equal iff both userId and category are. |
| DemographicIds.HashCode | src/main/java/org/sagebionetworks/bridge/models/accounts/DemographicId.java:46-49 | The hash is 31 × (31 + hash of userId) + hash of category, wrapped to 32 bits, with null hashing to 0. |
| DemographicIds.EqualsIsKeyEquality | src/main/java/org/sagebionetworks/bridge/models/accounts/DemographicId.java:38-44 | Equality of two ids is equality of the (userId, category) key. |
| DemographicIds.EqualsIsEquivalence | src/main/java/org/sagebionetworks/bridge/models/accounts/DemographicId.java:38-44 | Equality is reflexive, symmetric and transitive. |
| DemographicIds.EqualsConsistentWithHashCode | src/main/java/org/sagebionetworks/bridge/models/accounts/DemographicId.java:38-49 | Equal ids have equal hash codes. |
| JavaHash.Wrap | src/main/java/org/sagebionetworks/bridge/models/accounts/DemographicId.java:48 | The result is the 32-bit two's-complement value congruent to the input modulo 2^32. |
| JavaHash.WrapHorner | src/main/java/org/sagebionetworks/bridge/models/accounts/DemographicId.java:48 | Wrapping at every step of 31 × h + d gives the same result as wrapping once at the end. |
| JavaHash.StringHash | src/main/java/org/sagebionetworks/bridge/models/accounts/DemographicId.java:48 | `String.hashCode` as Java computes it, 31 × h + c per character with 32-bit wrap-around. It has no contract of its own; `StringHashIsPolynomial` states its value. |
| JavaHash.StringHashIsPolynomial | src/main/java/org/sagebionetworks/bridge/models/accounts/DemographicId.java:48 | The step-by-step string hash equals the wrapped polynomial Σ s[i] × 31^(n−1−i). |
| JavaHash.NullableHash | src/main/java/org/sagebionetworks/bridge/models/accounts/DemographicId.java:48 | A null field hashes to 0. |
| JavaHash.ObjectsHash | src/main/java/org/sagebionetworks/bridge/models/accounts/DemographicId.java:48 | `Objects.hash`, that is `Arrays.hashCode`: start at 1, then 31 × h + the element's hash, wrapped. It has no contract of its own; `ObjectsHashPair` and `AssessmentReferences.ObjectsHashSingle` state its value for two and for one element. |
| JavaHash.ObjectsHashPair | src/main/java/org/sagebionetworks/bridge/models/accounts/DemographicId.java:48 | The hash of two values is 31 × (31 + a) + b, wrapped to 32 bits. |
| Common.IsBlank | src/main/java/org/sagebionetworks/bridge/validators/DemographicValidator.java:20-24 | `StringUtils.isBlank`: null, empty and all-whitespace strings are blank. It is the reference definition that `DemographicValidation.ValidIff` and the app-and-users validator's contracts are stated in. |
| Numerals.NatToString | src/main/java/org/sagebionetworks/bridge/services/StudyActivityEventService.java:265 | The decimal rendering is non-empty digits with no leading zero except for 0 itself. It has one digit below 10 and two below 100. |
| Numerals.ParseNatToString | src/main/java/org/sagebionetworks/bridge/services/StudyActivityEventService.java:265 | Parsing the decimal rendering gives the number back. |
| Numerals.PadStart | src/main/java/org/sagebionetworks/bridge/services/StudyActivityEventService.java:265 | The result has length max(|s|, minLength), ends with s, and is padded only with the pad character. |
| Numerals.Pad2 | src/main/java/org/sagebionetworks/bridge/services/StudyActivityEventService.java:265 | The occurrence number is all digits, of at least two, exactly two below 100, and "0" followed by the digit below 10. |
| Numerals.Pad2RoundTrip | src/main/java/org/sagebionetworks/bridge/services/StudyActivityEventService.java:265 | Parsing the padded occurrence number gives the number back. |
| Numerals.Pad2Injective | src/main/java/org/sagebionetworks/bridge/services/StudyActivityEventService.java:265 | Different numbers have different padded renderings. |

## Left out

- Persistence: the DAO is a map holding only the most recent event per (user, study, event id). The stored event keeps its `updateType` and `recordCount`, which Java marks `@Transient` (StudyActivityEvent.java lines 51-54) and does not persist. In Java the most recent event read back has a null update type and the record count the DAO's query sets, so `canUpdate` and `canDelete` see those instead. The recorded history behind `getStudyActivityEventHistory` is the parameter `HistoryQuery`, and its paging is not modelled.
- Collaborators whose code is not part of this model are parameters, listed above. They are the update types' `canUpdate` and `canDelete`, the object types' id computation and default update type, the create and delete validators, `formatActivityEventId` together with `getStudyActivityEventIdsMap`, the Synapse client, `toSynapseFriendlyName`, `ConfigResolver.url`, `API_MINIMUM_PAGE_SIZE` and `API_MAXIMUM_PAGE_SIZE`, `SHARED_APP_ID`, the text of `CANNOT_BE_BLANK`, and the category enum's hash code.
- The clock: `getCreatedOn()` and `new DateTime(null)` both read the clock. Both are the one parameter `now`, because within one call they are read a few microseconds apart.
- Joda time: instants, burst intervals and `Period`s are integers. Calendar-aware period addition and `periodInMinutes` are not modelled: time windows and notification intervals are already given in minutes.
- Study lookup: `studyService.getStudy` and `getScheduleForStudy` become a `StudySchedule` value: no study, a study without a schedule, or the schedule's bursts.
- BurstCascade.RunBursts: the answer value of an occurrence is the parameter `iteration`. The service passes `Pad2`, the model of `Strings.padStart(Integer.toString(i + 1), 2, '0')`. This keeps the string arithmetic out of the cascade proofs, and `BurstAnswersNumberOccurrences` states its effect.
- BurstCascade.RunBursts: the single Java builder reused across bursts is rebuilt per occurrence. Every field it carries is reset for each occurrence, so no state leaks between them.
- Null dereferences are not modelled for a burst's `originEventId` or `occurrences`, for the event passed to publish or delete, or for a null element of the `users` list. Those values are non-null in the model.
- BurstCascade.RunBursts: a burst's `updateType` and `interval` are also non-null in the model, on the assumption that schedule validation before publishing guarantees them. In Java, a null update type throws a null dereference at StudyActivityEventService.java line 278. A null interval makes Joda's `plus(null)` a no-op, giving every occurrence the origin's timestamp. Neither case is modelled.
- EventService.GetRecentStudyActivityEvents: the returned `ResourceList` wrapper is not modelled; the result is the list of events.
- EventService.GetStudyActivityEventHistory: the `PagedResourceList` request-parameter map is not modelled beyond `offsetBy` and `pageSize`.
- Logging (`LOG.debug`) and the English text of every exception message are not modelled. Errors carry a reason, and the failed ids in order, instead.
- Timelines.WithScheduledSession: Java mutates the builder before it throws. It appends the session at line 104 and the metadata at line 119, and bumps `totalNotifications` before `floorDiv` can throw. The model returns the failure without the partly updated builder, so a builder that is used again after such an exception is not modelled.
- Timelines.WithScheduledSession: `totalNotifications` and `totalMinutes` are unbounded integers. Java's `int` overflow, and the `long` to `int` narrowing of `+= Math.floorDiv(…)`, are not modelled.
- Timelines.Sort: the comparator subtracts days as `int` (Timeline.java lines 160 and 162), which would overflow for days more than 2^31 apart. The model compares the days directly.
- Timelines.Build: Java's `build()` sorts the builder's own `scheduledSessions` list in place, and the returned timeline shares that list and the `metadata` list with the builder, with no copy (Timeline.java lines 41-46 and 159-167). A `withScheduledSession` after `build()` therefore also changes the timeline already built. The model is a value, so using a builder after `build()` is not modelled.
- Timelines.Build: `assessments.values()` of a `HashMap` has no specified order, so the built timeline keeps the assessment infos as a map. `duration` and `lang` are carried as opaque values.
- The identity shortcut `this == obj` in both `equals` methods is subsumed by field equality, which is reflexive.
- JavaHash.StringHash: Dafny characters are Unicode scalar values, not UTF-16 code units, so a string with characters outside the Basic Multilingual Plane hashes differently.
- `Character.isWhitespace` is modelled by its code points as of Unicode 6.3, where U+180E is no longer a space separator.
- `EventStreamAdherenceReport` is modelled only by its field defaults and `getDayRangeOfAllStreams`. A stream is modelled by the key set of its `byDayEntries`; its other fields and the report's remaining accessors are plain data.
- Concurrency: simultaneous publishes for the same key are not modelled. The service does no locking.
