/**
 `Timeline.Builder`: the accumulation of scheduled sessions into a timeline.
 Each scheduled session adds one metadata entry for itself and one per
 assessment, adds to the notification and minute totals, and is kept for a
 final stable sort by (startDay, endDay). Session infos are kept in
 first-insertion order keyed by guid (a `LinkedHashMap`), assessment infos in
 a map keyed by `getKey()`.

 Periods are given in minutes: `periodInMinutes` is not part of this model.
 */
module Timelines {
  import opened Common

  datatype ScheduleInfo = ScheduleInfo(appId: Option<string>, guid: Option<string>,
                                       modifiedOn: Option<int>, published: bool)

  /** A time window with its expiration period already in minutes. */
  datatype TimeWindow = TimeWindow(guid: Option<string>, persistent: bool, expirationMinutes: int)

  /** A notification with its repeat interval, if any, in minutes. */
  datatype Notification = Notification(intervalMinutes: Option<int>)

  datatype Session = Session(guid: Option<string>, notifications: seq<Notification>)

  datatype AssessmentRef = AssessmentRef(guid: Option<string>, identifier: Option<string>, revision: Option<int>)

  datatype ScheduledAssessment = ScheduledAssessment(instanceGuid: Option<string>, reference: AssessmentRef)

  datatype ScheduledSession = ScheduledSession(
    instanceGuid: Option<string>,
    refGuid: string,
    session: Session,
    startEventId: Option<string>,
    startDay: int,
    endDay: int,
    timeWindow: TimeWindow,
    assessments: seq<ScheduledAssessment>)

  /** `TimelineMetadata`; the assessment fields are null in a session entry. */
  datatype Metadata = Metadata(
    guid: Option<string>,
    appId: Option<string>,
    scheduleGuid: Option<string>,
    scheduleModifiedOn: Option<int>,
    schedulePublished: bool,
    sessionInstanceGuid: Option<string>,
    sessionGuid: Option<string>,
    sessionStartEventId: Option<string>,
    sessionInstanceStartDay: int,
    sessionInstanceEndDay: int,
    timeWindowGuid: Option<string>,
    timeWindowPersistent: bool,
    assessmentInstanceGuid: Option<string>,
    assessmentGuid: Option<string>,
    assessmentId: Option<string>,
    assessmentRevision: Option<int>)

  datatype SessionInfo = SessionInfo(guid: string, minutesToComplete: Option<int>)

  datatype AssessmentInfo = AssessmentInfo(key: string, guid: Option<string>)

  /** The builder state. `sessionOrder` lists the session-info keys in
      first-insertion order. */
  datatype Builder = Builder(
    schedule: Option<ScheduleInfo>,
    duration: Option<int>,
    lang: Option<string>,
    scheduledSessions: seq<ScheduledSession>,
    assessments: map<string, AssessmentInfo>,
    sessionOrder: seq<string>,
    sessions: map<string, SessionInfo>,
    metadata: seq<Metadata>,
    totalMinutes: int,
    totalNotifications: int)

  /** The `LinkedHashMap` shape: each key listed once, and exactly the keys. */
  predicate Valid(b: Builder) {
    && (forall i, j :: 0 <= i < j < |b.sessionOrder| ==> b.sessionOrder[i] != b.sessionOrder[j])
    && (forall g :: g in b.sessions ==> g in b.sessionOrder)
    && (forall i :: 0 <= i < |b.sessionOrder| ==> b.sessionOrder[i] in b.sessions)
  }

  function NewBuilder(schedule: Option<ScheduleInfo>): (b: Builder)
    ensures Valid(b)
    ensures b.totalMinutes == 0 && b.totalNotifications == 0 && b.metadata == [] && b.scheduledSessions == []
  {
    Builder(schedule, None, None, [], map[], [], map[], [], 0, 0)
  }

  // ---------------------------------------------------------------------
  // Session and assessment infos

  /** `withSessionInfo`: a new guid is appended to the order; a known guid
      has its value replaced in place. */
  function WithSessionInfo(b: Builder, info: SessionInfo): (r: Builder)
    requires Valid(b)
    ensures Valid(r)
    ensures r.sessions.Keys == b.sessions.Keys + {info.guid} && r.sessions[info.guid] == info
    ensures forall g :: g in b.sessions && g != info.guid ==> r.sessions[g] == b.sessions[g]
    ensures info.guid in b.sessions ==> r.sessionOrder == b.sessionOrder
    ensures info.guid !in b.sessions ==> r.sessionOrder == b.sessionOrder + [info.guid]
    ensures r.(sessions := b.sessions, sessionOrder := b.sessionOrder) == b
  {
    if info.guid in b.sessions then b.(sessions := b.sessions[info.guid := info])
    else b.(sessionOrder := b.sessionOrder + [info.guid], sessions := b.sessions[info.guid := info])
  }

  /** `sessions.values()` in iteration order. */
  function SessionValues(b: Builder): (r: seq<SessionInfo>)
    requires Valid(b)
    ensures |r| == |b.sessionOrder|
    ensures forall i :: 0 <= i < |r| ==> r[i] == b.sessions[b.sessionOrder[i]]
  {
    seq(|b.sessionOrder|, i requires 0 <= i < |b.sessionOrder| => b.sessions[b.sessionOrder[i]])
  }

  /** Re-adding a guid replaces its value but keeps its first position; a new
      guid goes last. */
  lemma SessionInfoOrder(b: Builder, info: SessionInfo)
    requires Valid(b)
    ensures var r := WithSessionInfo(b, info);
      && (info.guid !in b.sessions ==> SessionValues(r) == SessionValues(b) + [info])
      && (forall i :: 0 <= i < |b.sessionOrder| && b.sessionOrder[i] == info.guid ==>
            SessionValues(r) == SessionValues(b)[i := info])
  {
    var r := WithSessionInfo(b, info);
    forall i | 0 <= i < |b.sessionOrder| && b.sessionOrder[i] == info.guid
      ensures SessionValues(r) == SessionValues(b)[i := info]
    {
      forall j | 0 <= j < |b.sessionOrder| && j != i ensures b.sessionOrder[j] != info.guid {
        if j < i { assert b.sessionOrder[j] != b.sessionOrder[i]; }
        else { assert b.sessionOrder[i] != b.sessionOrder[j]; }
      }
    }
  }

  /** `withAssessmentInfo`: keyed by `getKey()`, the last put wins. */
  function WithAssessmentInfo(b: Builder, info: AssessmentInfo): (r: Builder)
    ensures r.assessments.Keys == b.assessments.Keys + {info.key} && r.assessments[info.key] == info
    ensures forall k :: k in b.assessments && k != info.key ==> r.assessments[k] == b.assessments[k]
    ensures r.(assessments := b.assessments) == b
  {
    b.(assessments := b.assessments[info.key := info])
  }

  lemma AssessmentInfoLastPutWins(b: Builder, first: AssessmentInfo, second: AssessmentInfo)
    requires first.key == second.key
    ensures WithAssessmentInfo(WithAssessmentInfo(b, first), second) == WithAssessmentInfo(b, second)
  {
  }

  // ---------------------------------------------------------------------
  // Scheduled sessions

  /** `Math.floorDiv`: the quotient rounded toward negative infinity. */
  function FloorDiv(a: int, b: int): (q: int)
    requires b != 0
    ensures b > 0 ==> q * b <= a < q * b + b
    ensures b < 0 ==> q * b + b < a <= q * b
    ensures b > 0 && a >= 0 ==> q >= 0
  {
    if b > 0 then a / b else (-a) / (-b)
  }

  /** The notifications one occurrence of a session adds: one per
      notification, plus the number of whole intervals in the window for a
      repeating one. A zero interval raises `ArithmeticException`. */
  function NotificationsAdded(ns: seq<Notification>, windowMinutes: int): (r: Result<int>)
    ensures r.Failure? <==> exists i :: 0 <= i < |ns| && ns[i].intervalMinutes == Some(0)
    ensures r.Failure? ==> r.error == Arithmetic
    ensures (forall i :: 0 <= i < |ns| ==> ns[i].intervalMinutes.None?) ==> r == Success(|ns|)
    ensures windowMinutes >= 0 && (forall i :: 0 <= i < |ns| && ns[i].intervalMinutes.Some? ==> ns[i].intervalMinutes.value > 0)
            ==> r.Success? && r.value >= |ns|
    decreases |ns|
  {
    if |ns| == 0 then Success(0)
    else
      var n := ns[0];
      assert forall i :: 0 < i < |ns| ==> ns[i] == ns[1..][i - 1];
      if n.intervalMinutes == Some(0) then Failure(Arithmetic)
      else
        var rest :- NotificationsAdded(ns[1..], windowMinutes);
        var repeats := if n.intervalMinutes.Some? then FloorDiv(windowMinutes, n.intervalMinutes.value) else 0;
        Success(1 + repeats + rest)
  }

  /** A notification repeating every `interval` minutes over a window of
      `window` minutes counts 1 + floor(window / interval) times. */
  lemma RepeatingNotificationCount(window: int, interval: int)
    requires interval > 0
    ensures var r := NotificationsAdded([Notification(Some(interval))], window);
      r.Success? && (r.value - 1) * interval <= window < r.value * interval
  {
    var ns := [Notification(Some(interval))];
    assert ns[1..] == [];
  }

  /** What one notification adds: itself, plus the whole intervals of the
      window when it repeats. */
  function PerNotification(n: Notification, windowMinutes: int): int
    requires n.intervalMinutes != Some(0)
  {
    1 + (if n.intervalMinutes.Some? then FloorDiv(windowMinutes, n.intervalMinutes.value) else 0)
  }

  /** Reference definition of the count: the per-notification counts summed,
      taken from the end of the list. */
  function NotificationSum(ns: seq<Notification>, windowMinutes: int): int
    requires forall i :: 0 <= i < |ns| ==> ns[i].intervalMinutes != Some(0)
    decreases |ns|
  {
    if |ns| == 0 then 0
    else NotificationSum(ns[..|ns| - 1], windowMinutes) + PerNotification(ns[|ns| - 1], windowMinutes)
  }

  /** The count is additive: two runs of notifications add the sum of what
      each adds, and fail iff one of them does. */
  lemma {:induction false} NotificationsAddedAppend(a: seq<Notification>, b: seq<Notification>, windowMinutes: int)
    ensures var ra := NotificationsAdded(a, windowMinutes);
      var rb := NotificationsAdded(b, windowMinutes);
      var r := NotificationsAdded(a + b, windowMinutes);
      && (r.Success? <==> ra.Success? && rb.Success?)
      && (r.Success? ==> r.value == ra.value + rb.value)
    decreases |a|
  {
    if |a| == 0 {
      assert a + b == b;
    } else {
      assert (a + b)[0] == a[0];
      assert (a + b)[1..] == a[1..] + b;
      NotificationsAddedAppend(a[1..], b, windowMinutes);
    }
  }

  /** Without a zero interval, the count is the sum over the notifications of
      1 + floorDiv(window, interval) for a repeating one and 1 otherwise. */
  lemma {:induction false} NotificationsAddedIsSum(ns: seq<Notification>, windowMinutes: int)
    requires forall i :: 0 <= i < |ns| ==> ns[i].intervalMinutes != Some(0)
    ensures NotificationsAdded(ns, windowMinutes) == Success(NotificationSum(ns, windowMinutes))
    decreases |ns|
  {
    if |ns| > 0 {
      var init := ns[..|ns| - 1];
      var last := ns[|ns| - 1];
      assert ns == init + [last];
      NotificationsAddedIsSum(init, windowMinutes);
      NotificationsAddedAppend(init, [last], windowMinutes);
      assert [last][1..] == [];
    }
  }

  /** The metadata entry of a scheduled session. */
  function SessionMetadata(schedule: ScheduleInfo, ss: ScheduledSession): (m: Metadata)
    ensures m.guid == ss.instanceGuid && m.sessionInstanceGuid == ss.instanceGuid
    ensures m.assessmentInstanceGuid.None? && m.assessmentGuid.None?
    ensures m.assessmentId.None? && m.assessmentRevision.None?
  {
    Metadata(ss.instanceGuid, schedule.appId, schedule.guid, schedule.modifiedOn, schedule.published,
             ss.instanceGuid, ss.session.guid, ss.startEventId, ss.startDay, ss.endDay,
             ss.timeWindow.guid, ss.timeWindow.persistent, None, None, None, None)
  }

  /** `TimelineMetadata.copy(sessionMeta)` with the guid and assessment fields set. */
  function AssessmentMetadata(sessionMeta: Metadata, a: ScheduledAssessment): (m: Metadata)
    ensures m.guid == a.instanceGuid && m.assessmentInstanceGuid == a.instanceGuid
    ensures m.assessmentGuid == a.reference.guid && m.assessmentId == a.reference.identifier
    ensures m.assessmentRevision == a.reference.revision
    ensures SameSessionFields(m, sessionMeta)
  {
    sessionMeta.(guid := a.instanceGuid, assessmentInstanceGuid := a.instanceGuid,
                 assessmentGuid := a.reference.guid, assessmentId := a.reference.identifier,
                 assessmentRevision := a.reference.revision)
  }

  /** Two entries agree on everything but the guid and the assessment fields. */
  predicate SameSessionFields(m: Metadata, n: Metadata) {
    m.(guid := n.guid, assessmentInstanceGuid := n.assessmentInstanceGuid, assessmentGuid := n.assessmentGuid,
       assessmentId := n.assessmentId, assessmentRevision := n.assessmentRevision) == n
  }

  /** The entries one scheduled session contributes, session entry first. */
  function SessionEntries(schedule: ScheduleInfo, ss: ScheduledSession): (r: seq<Metadata>)
    ensures |r| == 1 + |ss.assessments|
    ensures r[0] == SessionMetadata(schedule, ss)
    ensures forall i :: 0 <= i < |ss.assessments| ==>
      && SameSessionFields(r[i + 1], r[0])
      && r[i + 1].guid == ss.assessments[i].instanceGuid
      && r[i + 1].assessmentGuid == ss.assessments[i].reference.guid
  {
    var sessionMeta := SessionMetadata(schedule, ss);
    [sessionMeta] + seq(|ss.assessments|, i requires 0 <= i < |ss.assessments| =>
                          AssessmentMetadata(sessionMeta, ss.assessments[i]))
  }

  /** `withScheduledSession`. A null schedule, a zero notification interval
      and an unknown session reference raise, in that order. */
  function WithScheduledSession(b: Builder, ss: ScheduledSession): (r: Result<Builder>)
    ensures b.schedule.None? ==> r == Failure(NullPointer)
    ensures (b.schedule.Some? && NotificationsAdded(ss.session.notifications, ss.timeWindow.expirationMinutes).Failure?)
            ==> r == Failure(Arithmetic)
    ensures (b.schedule.Some? && NotificationsAdded(ss.session.notifications, ss.timeWindow.expirationMinutes).Success?
             && ss.refGuid !in b.sessions) ==> r == Failure(NullPointer)
    ensures r.Success? ==>
      && r.value.scheduledSessions == b.scheduledSessions + [ss]
      && |r.value.metadata| == |b.metadata| + 1 + |ss.assessments|
      && r.value.metadata == b.metadata + SessionEntries(b.schedule.value, ss)
      && r.value.totalNotifications
           == b.totalNotifications + NotificationsAdded(ss.session.notifications, ss.timeWindow.expirationMinutes).value
      && (b.sessions[ss.refGuid].minutesToComplete.None? ==> r.value.totalMinutes == b.totalMinutes)
      && (b.sessions[ss.refGuid].minutesToComplete.Some? ==>
            r.value.totalMinutes == b.totalMinutes + b.sessions[ss.refGuid].minutesToComplete.value)
      && r.value.(scheduledSessions := b.scheduledSessions, metadata := b.metadata,
                  totalMinutes := b.totalMinutes, totalNotifications := b.totalNotifications) == b
  {
    if b.schedule.None? then Failure(NullPointer)
    else
      var added :- NotificationsAdded(ss.session.notifications, ss.timeWindow.expirationMinutes);
      if ss.refGuid !in b.sessions then Failure(NullPointer)
      else
        var minutes := b.sessions[ss.refGuid].minutesToComplete.GetOr(0);
        Success(b.(scheduledSessions := b.scheduledSessions + [ss],
                   metadata := b.metadata + SessionEntries(b.schedule.value, ss),
                   totalNotifications := b.totalNotifications + added,
                   totalMinutes := b.totalMinutes + minutes))
  }

  /** The entries appended for a scheduled session: the session entry, then one
      per assessment in order, each a copy of the session entry differing only
      in its guid and assessment fields. */
  lemma ScheduledSessionMetadata(b: Builder, ss: ScheduledSession)
    requires WithScheduledSession(b, ss).Success?
    ensures var m := WithScheduledSession(b, ss).value.metadata;
      var n := |b.metadata|;
      && m[n] == SessionMetadata(b.schedule.value, ss)
      && m[n].guid == ss.instanceGuid && m[n].assessmentGuid.None?
      && forall i :: 0 <= i < |ss.assessments| ==>
           && SameSessionFields(m[n + 1 + i], m[n])
           && m[n + 1 + i].guid == ss.assessments[i].instanceGuid
           && m[n + 1 + i].assessmentInstanceGuid == ss.assessments[i].instanceGuid
           && m[n + 1 + i].assessmentGuid == ss.assessments[i].reference.guid
           && m[n + 1 + i].assessmentId == ss.assessments[i].reference.identifier
           && m[n + 1 + i].assessmentRevision == ss.assessments[i].reference.revision
  {
    var entries := SessionEntries(b.schedule.value, ss);
    var m := WithScheduledSession(b, ss).value.metadata;
    assert m == b.metadata + entries;
    assert m[|b.metadata|] == entries[0];
    forall i | 0 <= i < |ss.assessments|
      ensures m[|b.metadata| + 1 + i] == AssessmentMetadata(entries[0], ss.assessments[i])
    {
      assert m[|b.metadata| + 1 + i] == entries[1 + i];
    }
  }

  /** The notification total grows by exactly the sum of the session's
      per-notification counts. */
  lemma ScheduledSessionNotifications(b: Builder, ss: ScheduledSession)
    requires WithScheduledSession(b, ss).Success?
    ensures forall i :: 0 <= i < |ss.session.notifications| ==> ss.session.notifications[i].intervalMinutes != Some(0)
    ensures WithScheduledSession(b, ss).value.totalNotifications
         == b.totalNotifications + NotificationSum(ss.session.notifications, ss.timeWindow.expirationMinutes)
  {
    NotificationsAddedIsSum(ss.session.notifications, ss.timeWindow.expirationMinutes);
  }

  /** Adding several scheduled sessions in turn; the first failure stops it. */
  function WithScheduledSessions(b: Builder, sss: seq<ScheduledSession>): Result<Builder>
    decreases |sss|
  {
    if |sss| == 0 then Success(b)
    else
      var next :- WithScheduledSession(b, sss[0]);
      WithScheduledSessions(next, sss[1..])
  }

  /** The minutes of a run of scheduled sessions, by their referenced infos. */
  function MinutesOf(sessions: map<string, SessionInfo>, sss: seq<ScheduledSession>): int
    decreases |sss|
  {
    if |sss| == 0 then 0
    else
      (if sss[0].refGuid in sessions then sessions[sss[0].refGuid].minutesToComplete.GetOr(0) else 0)
      + MinutesOf(sessions, sss[1..])
  }

  function EntriesOf(sss: seq<ScheduledSession>): nat
    decreases |sss|
  {
    if |sss| == 0 then 0 else 1 + |sss[0].assessments| + EntriesOf(sss[1..])
  }

  /** The totals are running sums: after a run of scheduled sessions the
      minutes total has grown by the sum of their sessions' minutes, the
      metadata by one entry per session and per assessment, and the
      scheduled sessions are appended in order. */
  lemma {:induction false} ScheduledSessionsAccumulate(b: Builder, sss: seq<ScheduledSession>)
    requires WithScheduledSessions(b, sss).Success?
    ensures var r := WithScheduledSessions(b, sss).value;
      && r.totalMinutes == b.totalMinutes + MinutesOf(b.sessions, sss)
      && |r.metadata| == |b.metadata| + EntriesOf(sss)
      && r.scheduledSessions == b.scheduledSessions + sss
      && r.sessions == b.sessions && r.sessionOrder == b.sessionOrder && r.assessments == b.assessments
    decreases |sss|
  {
    if |sss| > 0 {
      var next := WithScheduledSession(b, sss[0]).value;
      ScheduledSessionsAccumulate(next, sss[1..]);
      assert b.scheduledSessions + [sss[0]] + sss[1..] == b.scheduledSessions + sss;
    }
  }

  // ---------------------------------------------------------------------
  // build(): the stable sort

  /** The comparator of `build`: by startDay, then endDay. */
  predicate NotAfter(a: ScheduledSession, b: ScheduledSession) {
    a.startDay < b.startDay || (a.startDay == b.startDay && a.endDay <= b.endDay)
  }

  function DayKey(s: ScheduledSession): (int, int) {
    (s.startDay, s.endDay)
  }

  /** Each session does not come after its successor. */
  predicate Sorted(s: seq<ScheduledSession>) {
    forall i :: 0 < i < |s| ==> NotAfter(s[i - 1], s[i])
  }

  /** The comparator is transitive, so adjacent order is total order: no
      session of a sorted sequence comes after a later one. */
  lemma {:induction false} SortedPairwise(s: seq<ScheduledSession>, i: nat, j: nat)
    requires Sorted(s) && i <= j < |s|
    ensures NotAfter(s[i], s[j])
    decreases j - i
  {
    if i < j {
      SortedPairwise(s, i, j - 1);
    }
  }

  /** The sessions with the given day key, in their order. */
  function WithKey(s: seq<ScheduledSession>, key: (int, int)): (r: seq<ScheduledSession>)
    ensures |r| <= |s|
  {
    if |s| == 0 then []
    else (if DayKey(s[0]) == key then [s[0]] else []) + WithKey(s[1..], key)
  }

  lemma {:induction false} WithKeyAppend(a: seq<ScheduledSession>, b: seq<ScheduledSession>, key: (int, int))
    ensures WithKey(a + b, key) == WithKey(a, key) + WithKey(b, key)
  {
    if |a| == 0 {
      assert a + b == b;
    } else {
      assert (a + b)[1..] == a[1..] + b;
      WithKeyAppend(a[1..], b, key);
    }
  }

  lemma WithKeySingle(x: ScheduledSession, key: (int, int))
    ensures WithKey([x], key) == if DayKey(x) == key then [x] else []
  {
    assert [x][1..] == [];
  }

  lemma {:induction false} WithKeyNone(s: seq<ScheduledSession>, key: (int, int))
    requires forall i :: 0 <= i < |s| ==> DayKey(s[i]) != key
    ensures WithKey(s, key) == []
  {
    if |s| > 0 {
      WithKeyNone(s[1..], key);
    }
  }

  /** Insert `x` after every element that does not come after it. */
  function Insert(x: ScheduledSession, s: seq<ScheduledSession>): (r: seq<ScheduledSession>)
    requires Sorted(s)
    ensures Sorted(r)
    ensures multiset(r) == multiset(s) + multiset{x}
    ensures |r| == |s| + 1
    ensures |s| > 0 ==> r[0] == x || r[0] == s[0]
  {
    if |s| == 0 then [x]
    else if NotAfter(s[0], x) then
      var rest := Insert(x, s[1..]);
      assert s == [s[0]] + s[1..];
      [s[0]] + rest
    else
      [x] + s
  }

  lemma {:induction false} InsertWithKey(x: ScheduledSession, s: seq<ScheduledSession>, key: (int, int))
    requires Sorted(s)
    ensures WithKey(Insert(x, s), key) == WithKey(s, key) + (if DayKey(x) == key then [x] else [])
    decreases |s|, 1
  {
    var tail := if DayKey(x) == key then [x] else [];
    if |s| == 0 {
      assert WithKey([x], key) == tail + WithKey([], key) by {
        assert [x][1..] == [];
      }
    } else if NotAfter(s[0], x) {
      InsertWithKeyAfterHead(x, s, key);
    } else {
      InsertWithKeyBeforeAll(x, s, key);
    }
  }

  lemma {:induction false} InsertWithKeyAfterHead(x: ScheduledSession, s: seq<ScheduledSession>, key: (int, int))
    requires Sorted(s) && |s| > 0 && NotAfter(s[0], x)
    ensures WithKey(Insert(x, s), key) == WithKey(s, key) + (if DayKey(x) == key then [x] else [])
    decreases |s|, 0
  {
    var tail := if DayKey(x) == key then [x] else [];
    var head := WithKey([s[0]], key);
    var rest := Insert(x, s[1..]);
    calc {
      WithKey(Insert(x, s), key);
      WithKey([s[0]] + rest, key);
      { WithKeyAppend([s[0]], rest, key); }
      head + WithKey(rest, key);
      { InsertWithKey(x, s[1..], key); }
      head + (WithKey(s[1..], key) + tail);
      (head + WithKey(s[1..], key)) + tail;
      { WithKeyAppend([s[0]], s[1..], key); assert [s[0]] + s[1..] == s; }
      WithKey(s, key) + tail;
    }
  }

  lemma {:induction false} InsertWithKeyBeforeAll(x: ScheduledSession, s: seq<ScheduledSession>, key: (int, int))
    requires Sorted(s) && |s| > 0 && !NotAfter(s[0], x)
    ensures WithKey(Insert(x, s), key) == WithKey(s, key) + (if DayKey(x) == key then [x] else [])
  {
    var tail := if DayKey(x) == key then [x] else [];
    assert Insert(x, s) == [x] + s;
    assert WithKey([x] + s, key) == tail + WithKey(s, key) by {
      assert ([x] + s)[1..] == s;
    }
    if DayKey(x) == key {
      forall i | 0 <= i < |s| ensures DayKey(s[i]) != key {
        SortedPairwise(s, 0, i);
      }
      WithKeyNone(s, key);
    }
  }

  /** `Collections.sort` with the comparator of `build`; it is stable, so
      later sessions go after earlier ones with the same day key. */
  function Sort(s: seq<ScheduledSession>): (r: seq<ScheduledSession>)
    ensures Sorted(r)
    ensures multiset(r) == multiset(s)
    ensures |r| == |s|
  {
    if |s| == 0 then []
    else
      assert s == s[..|s| - 1] + [s[|s| - 1]];
      Insert(s[|s| - 1], Sort(s[..|s| - 1]))
  }

  /** Stability: for every day key the sessions with that key keep the order
      in which they were added. */
  lemma {:induction false} SortIsStable(s: seq<ScheduledSession>, key: (int, int))
    ensures WithKey(Sort(s), key) == WithKey(s, key)
    decreases |s|
  {
    if |s| > 0 {
      var init := s[..|s| - 1];
      var last := s[|s| - 1];
      calc {
        WithKey(Sort(s), key);
        WithKey(Insert(last, Sort(init)), key);
        { InsertWithKey(last, Sort(init), key); WithKeySingle(last, key); }
        WithKey(Sort(init), key) + WithKey([last], key);
        { SortIsStable(init, key); }
        WithKey(init, key) + WithKey([last], key);
        { WithKeyAppend(init, [last], key); }
        WithKey(init + [last], key);
        { assert s == init + [last]; }
        WithKey(s, key);
      }
    }
  }

  /** The built timeline. Assessment infos are kept as the map they come
      from, since the order of `HashMap.values()` is unspecified. */
  datatype Timeline = Timeline(
    duration: Option<int>,
    lang: Option<string>,
    schedule: seq<ScheduledSession>,
    assessments: map<string, AssessmentInfo>,
    sessions: seq<SessionInfo>,
    metadata: seq<Metadata>,
    totalMinutes: int,
    totalNotifications: int)

  /** `build()`: the scheduled sessions sorted by (startDay, endDay), the
      session infos in first-insertion order, everything else as accumulated. */
  function Build(b: Builder): (t: Timeline)
    requires Valid(b)
    ensures Sorted(t.schedule) && multiset(t.schedule) == multiset(b.scheduledSessions)
    ensures |t.sessions| == |b.sessionOrder| == |b.sessions.Keys|
    ensures forall i :: 0 <= i < |t.sessions| ==> t.sessions[i] == b.sessions[b.sessionOrder[i]]
    ensures t.metadata == b.metadata && t.assessments == b.assessments
    ensures t.totalMinutes == b.totalMinutes && t.totalNotifications == b.totalNotifications
  {
    SessionKeysCount(b);
    Timeline(b.duration, b.lang, Sort(b.scheduledSessions), b.assessments, SessionValues(b),
             b.metadata, b.totalMinutes, b.totalNotifications)
  }

  /** The order lists every key exactly once. */
  lemma SessionKeysCount(b: Builder)
    requires Valid(b)
    ensures |b.sessionOrder| == |b.sessions.Keys|
  {
    DistinctCardinality(b.sessionOrder);
    assert b.sessions.Keys == set i | 0 <= i < |b.sessionOrder| :: b.sessionOrder[i];
  }

  lemma {:induction false} DistinctCardinality(s: seq<string>)
    requires forall i, j :: 0 <= i < j < |s| ==> s[i] != s[j]
    ensures |set i | 0 <= i < |s| :: s[i]| == |s|
  {
    if |s| > 0 {
      var init := s[..|s| - 1];
      DistinctCardinality(init);
      assert (set i | 0 <= i < |s| :: s[i]) == (set i | 0 <= i < |init| :: init[i]) + {s[|s| - 1]};
      assert s[|s| - 1] !in (set i | 0 <= i < |init| :: init[i]);
    }
  }

  /** The built schedule keeps, for every day key, the order of addition. */
  lemma BuildIsStable(b: Builder, key: (int, int))
    requires Valid(b)
    ensures WithKey(Build(b).schedule, key) == WithKey(b.scheduledSessions, key)
  {
    SortIsStable(b.scheduledSessions, key);
  }
}
