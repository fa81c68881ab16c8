/**
 `StudyActivityEvent` and its `Builder`: an event scoped to one participant in
 one study, and the rule by which the builder resolves the event's id and
 update type from either an explicit, already validated id or the event's
 object type.
 */
module ActivityEvents {
  import opened Common

  /** `ActivityEventUpdateType`. Its decision functions live in a class that is
      not part of this model; see `Policy`. */
  datatype UpdateType = Immutable | Mutable | MutableOnRepeat

  /** `ActivityEventObjectType`, identified by its enum constant name. */
  datatype ObjectType = ObjectType(name: string)

  const STUDY_BURST := ObjectType("STUDY_BURST")

  /** `ActivityEventType`, identified by its enum constant name. */
  datatype EventType = EventType(name: string)

  /** The two `ActivityEventObjectType` methods the builder calls. Their bodies
      are not part of this model, so they are supplied by the caller. */
  datatype ObjectTypes = ObjectTypes(
    eventIdOf: (ObjectType, Option<string>, Option<EventType>, Option<string>) -> Option<string>,
    updateTypeOf: ObjectType -> UpdateType)

  /** `ActivityEventUpdateType.canUpdate` and `canDelete`, dispatched on the
      update type and given the most recent stored event (or null). */
  datatype Policy = Policy(
    canUpdate: (UpdateType, Option<Event>, Event) -> bool,
    canDelete: (UpdateType, Option<Event>, Event) -> bool)

  /** Timestamps are instants in milliseconds. */
  type Instant = int

  datatype Event = Event(
    appId: Option<string>,
    userId: Option<string>,
    studyId: Option<string>,
    eventId: Option<string>,
    timestamp: Option<Instant>,
    answerValue: Option<string>,
    clientTimeZone: Option<string>,
    createdOn: Option<Instant>,
    recordCount: int,
    updateType: Option<UpdateType>)

  /** `StudyActivityEvent.Builder`; fields left unset are null (0 for recordCount). */
  datatype Builder = Builder(
    appId: Option<string>,
    userId: Option<string>,
    studyId: Option<string>,
    clientTimeZone: Option<string>,
    createdOn: Option<Instant>,
    objectType: Option<ObjectType>,
    objectId: Option<string>,
    eventType: Option<EventType>,
    updateType: Option<UpdateType>,
    answerValue: Option<string>,
    timestamp: Option<Instant>,
    recordCount: int,
    eventId: Option<string>)

  /** `new StudyActivityEvent.Builder()` */
  function NewBuilder(): (b: Builder)
    ensures b.recordCount == 0
    ensures b.eventId.None? && b.objectType.None? && b.updateType.None?
  {
    Builder(None, None, None, None, None, None, None, None, None, None, None, 0, None)
  }

  /** The fields `build()` copies from the builder without interpretation. */
  predicate CopiesPlainFields(b: Builder, e: Event) {
    && e.appId == b.appId && e.userId == b.userId && e.studyId == b.studyId
    && e.clientTimeZone == b.clientTimeZone && e.timestamp == b.timestamp
    && e.answerValue == b.answerValue && e.createdOn == b.createdOn
    && e.recordCount == b.recordCount
  }

  /** `Builder.build()`. An explicit event id wins over the object type; a
      caller-supplied update type is never replaced; otherwise the update type
      defaults to IMMUTABLE (explicit id) or to the object type's own. */
  function Build(b: Builder, types: ObjectTypes): (e: Event)
    ensures CopiesPlainFields(b, e)
    ensures b.eventId.Some? ==> e.eventId == b.eventId
    ensures b.eventId.Some? ==> e.updateType == Some(b.updateType.GetOr(Immutable))
    ensures b.eventId.None? && b.objectType.Some? ==>
      && e.eventId == types.eventIdOf(b.objectType.value, b.objectId, b.eventType, b.answerValue)
      && e.updateType == Some(b.updateType.GetOr(types.updateTypeOf(b.objectType.value)))
    ensures b.eventId.None? && b.objectType.None? ==> e.eventId.None?
    ensures b.updateType.Some? ==> e.updateType == b.updateType
    ensures e.updateType.None? <==> b.updateType.None? && b.eventId.None? && b.objectType.None?
  {
    var plain := Event(b.appId, b.userId, b.studyId, None, b.timestamp, b.answerValue,
                       b.clientTimeZone, b.createdOn, b.recordCount, b.updateType);
    if b.eventId.Some? then
      plain.(eventId := b.eventId,
             updateType := if b.updateType.None? then Some(Immutable) else b.updateType)
    else if b.objectType.Some? then
      plain.(eventId := types.eventIdOf(b.objectType.value, b.objectId, b.eventType, b.answerValue),
             updateType := if b.updateType.None? then Some(types.updateTypeOf(b.objectType.value)) else b.updateType)
    else
      plain
  }

  /** With an explicit event id the object type, object id and event type are
      ignored entirely. */
  lemma ExplicitIdTakesPrecedence(b: Builder, types: ObjectTypes, objectType: Option<ObjectType>,
                                  objectId: Option<string>, eventType: Option<EventType>)
    requires b.eventId.Some?
    ensures Build(b.(objectType := objectType, objectId := objectId, eventType := eventType), types)
         == Build(b, types)
  {
  }

  /** The object types consulted only matter when no explicit id is given. */
  lemma ObjectTypesIrrelevantForExplicitId(b: Builder, t1: ObjectTypes, t2: ObjectTypes)
    requires b.eventId.Some? || b.objectType.None?
    ensures Build(b, t1) == Build(b, t2)
  {
  }

  /** The builder for an event read back from storage. */
  function StoredEventBuilder(e: Event): (b: Builder)
    ensures b.eventId == e.eventId && b.objectType.None?
  {
    NewBuilder().(appId := e.appId, userId := e.userId, studyId := e.studyId,
                  clientTimeZone := e.clientTimeZone, createdOn := e.createdOn,
                  updateType := e.updateType, answerValue := e.answerValue,
                  timestamp := e.timestamp, recordCount := e.recordCount, eventId := e.eventId)
  }

  /** Rebuilding an event that has both an id and an update type through
      `withEventId` reproduces it exactly: `build` is idempotent on the events
      it resolves. */
  lemma RebuildRoundTrip(e: Event, types: ObjectTypes)
    requires e.eventId.Some? && e.updateType.Some?
    ensures Build(StoredEventBuilder(e), types) == e
  {
  }

  /** A rebuilt event without a stored update type becomes IMMUTABLE. */
  lemma RebuildWithoutUpdateTypeIsImmutable(e: Event, types: ObjectTypes)
    requires e.eventId.Some? && e.updateType.None?
    ensures Build(StoredEventBuilder(e), types) == e.(updateType := Some(Immutable))
  {
  }

  /** `setCreatedOn`: the only mutator of a built event. */
  function SetCreatedOn(e: Event, createdOn: Instant): (r: Event)
    ensures r.createdOn == Some(createdOn)
    ensures r.(createdOn := e.createdOn) == e
  {
    e.(createdOn := Some(createdOn))
  }

  lemma SetCreatedOnLastWins(e: Event, t1: Instant, t2: Instant)
    ensures SetCreatedOn(SetCreatedOn(e, t1), t2) == SetCreatedOn(e, t2)
  {
  }
}
