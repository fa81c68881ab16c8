/**
 `createStudyBurstEvents`: every study burst whose origin is the published
 event fans out into `occurrences` derived events, the k-th one interval
 after the (k-1)-th, each written or rejected on its own against its own
 stored value. Rejections are collected, never short-circuited.

 Joda `Period` arithmetic is abstracted to adding an integer interval.
 */
module BurstCascade {
  import opened Common
  import opened Numerals
  import opened ActivityEvents
  import opened EventStore

  /** `StudyBurst` as resolved from the study's schedule. */
  datatype StudyBurst = StudyBurst(
    identifier: string,
    originEventId: string,
    interval: int,
    occurrences: int,
    updateType: UpdateType)

  /** `burst.getOriginEventId().equals(eventId)`; false for a null event id. */
  predicate Matches(burst: StudyBurst, origin: Event) {
    origin.eventId == Some(burst.originEventId)
  }

  /** The builder shared by every occurrence: the origin's scope, time zone
      and createdOn, with object type STUDY_BURST. */
  function CascadeBuilder(origin: Event): (b: Builder)
    ensures b.eventId.None? && b.objectType == Some(STUDY_BURST)
  {
    NewBuilder().(appId := origin.appId, userId := origin.userId, studyId := origin.studyId,
                  clientTimeZone := origin.clientTimeZone, createdOn := origin.createdOn,
                  objectType := Some(STUDY_BURST))
  }

  /** The derived event for the occurrence of `burst` whose answer value
      (its padded occurrence number) is `answer`, at `time`. */
  function OccurrenceEvent(origin: Event, burst: StudyBurst, types: ObjectTypes, answer: string, time: Instant): (e: Event)
  {
    Event(origin.appId, origin.userId, origin.studyId,
          types.eventIdOf(STUDY_BURST, Some(burst.identifier), None, Some(answer)),
          Some(time), Some(answer), origin.clientTimeZone, origin.createdOn, 0, Some(burst.updateType))
  }

  /** That event is what the builder produces from the origin's scope, the
      burst's identifier as object id, the burst's update type, the answer
      and the time. */
  lemma OccurrenceEventIsBuilt(origin: Event, burst: StudyBurst, types: ObjectTypes, answer: string, time: Instant)
    ensures OccurrenceEvent(origin, burst, types, answer, time)
         == Build(CascadeBuilder(origin).(updateType := Some(burst.updateType),
                                          objectId := Some(burst.identifier),
                                          answerValue := Some(answer),
                                          timestamp := Some(time)), types)
  {
  }

  /** The inner loop of `createStudyBurstEvents`, occurrence `i` (0-based) of
      `len`, with `time` the previous occurrence's timestamp. `iteration(n)` is
      the answer value of occurrence n; the service renders it with `Pad2`,
      and the lemmas below hold for any rendering. */
  function RunOccurrences(policy: Policy, types: ObjectTypes, iteration: nat -> string, p: Progress, origin: Event,
                          burst: StudyBurst, i: nat, len: int, time: Instant): (r: Progress)
    ensures p.failed <= r.failed && p.store.Keys <= r.store.Keys
    ensures |r.failed| <= |p.failed| + (if i < len then len - i else 0)
    decreases len - i
  {
    if i >= len then p
    else
      var next := time + burst.interval;
      var e := OccurrenceEvent(origin, burst, types, iteration(i + 1), next);
      RunOccurrences(policy, types, iteration, Try(policy, p, Attempt(e, burst.updateType)),
                     origin, burst, i + 1, len, next)
  }

  /** The outer loop of `createStudyBurstEvents` over the schedule's bursts;
      `base` is the origin's timestamp. */
  function RunBursts(policy: Policy, types: ObjectTypes, iteration: nat -> string, p: Progress, origin: Event,
                     bursts: seq<StudyBurst>, base: Instant): (r: Progress)
    ensures p.failed <= r.failed && p.store.Keys <= r.store.Keys
    ensures (forall k :: 0 <= k < |bursts| ==> !Matches(bursts[k], origin)) ==> r == p
    decreases |bursts|
  {
    if |bursts| == 0 then p
    else
      var b := bursts[0];
      var q := if Matches(b, origin) then RunOccurrences(policy, types, iteration, p, origin, b, 0, b.occurrences, base) else p;
      RunBursts(policy, types, iteration, q, origin, bursts[1..], base)
  }

  function OccurrenceCount(burst: StudyBurst): nat {
    if burst.occurrences > 0 then burst.occurrences else 0
  }

  /** A derived event carries the origin's app, user, study, time zone and createdOn. */
  predicate SharesScope(e: Event, origin: Event) {
    && e.appId == origin.appId && e.userId == origin.userId && e.studyId == origin.studyId
    && e.clientTimeZone == origin.clientTimeZone && e.createdOn == origin.createdOn
  }

  /** `k` intervals after `base`, by repeated addition. */
  function After(base: Instant, interval: int, k: nat): Instant
    decreases k
  {
    if k == 0 then base else After(base, interval, k - 1) + interval
  }

  /** Under integer arithmetic repeated addition is multiplication. */
  lemma {:induction false} AfterIsMultiple(base: Instant, interval: int, k: nat)
    ensures After(base, interval, k) == base + k * interval
    decreases k
  {
    if k > 0 {
      AfterIsMultiple(base, interval, k - 1);
      assert k * interval == (k - 1) * interval + interval;
    }
  }

  /** The derived attempt for occurrence `k` (0-based) of `burst`. */
  function OccurrenceAttempt(origin: Event, burst: StudyBurst, types: ObjectTypes, iteration: nat -> string, base: Instant, k: nat): Attempt {
    Attempt(OccurrenceEvent(origin, burst, types, iteration(k + 1), After(base, burst.interval, k + 1)), burst.updateType)
  }

  /** Reference definition of one burst's derived events, in order:
      `occurrences` of them (none when it is not positive), numbered from 1,
      the k-th one k intervals after the origin, sharing the origin's scope. */
  function BurstAttempts(origin: Event, burst: StudyBurst, types: ObjectTypes, iteration: nat -> string, base: Instant): (r: seq<Attempt>)
    ensures |r| == OccurrenceCount(burst)
    ensures forall k :: 0 <= k < |r| ==>
      && r[k].updateType == burst.updateType
      && r[k].event.answerValue == Some(iteration(k + 1))
      && r[k].event.eventId == types.eventIdOf(STUDY_BURST, Some(burst.identifier), None, Some(iteration(k + 1)))
      && r[k].event.timestamp == Some(After(base, burst.interval, k + 1))
      && SharesScope(r[k].event, origin)
  {
    seq(OccurrenceCount(burst), k requires 0 <= k => OccurrenceAttempt(origin, burst, types, iteration, base, k))
  }

  /** Each occurrence is one interval after the previous one, the first one
      interval after the origin; so, under integer arithmetic, occurrence k
      (0-based) lies k + 1 intervals after the origin. */
  lemma BurstTimestampsAccumulate(origin: Event, burst: StudyBurst, types: ObjectTypes, iteration: nat -> string, base: Instant)
    ensures var r := BurstAttempts(origin, burst, types, iteration, base);
      && (|r| > 0 ==> r[0].event.timestamp == Some(base + burst.interval))
      && (forall k :: 0 < k < |r| ==>
            r[k].event.timestamp.value == r[k - 1].event.timestamp.value + burst.interval)
      && (forall k :: 0 <= k < |r| ==> r[k].event.timestamp == Some(base + (k + 1) * burst.interval))
  {
    var r := BurstAttempts(origin, burst, types, iteration, base);
    forall k | 0 <= k < |r|
      ensures r[k].event.timestamp == Some(base + (k + 1) * burst.interval)
    {
      AfterIsMultiple(base, burst.interval, k + 1);
    }
  }

  /** The attempt is an occurrence of `burst`, which the origin triggers. */
  predicate OccurrenceOf(a: Attempt, origin: Event, burst: StudyBurst, types: ObjectTypes) {
    && Matches(burst, origin)
    && a.updateType == burst.updateType
    && a.event.eventId == types.eventIdOf(STUDY_BURST, Some(burst.identifier), None, a.event.answerValue)
  }

  /** Reference definition of the whole cascade: the occurrences of every
      matching burst, bursts in schedule order. It does not look at the store,
      so the cascade runs whether or not the origin was written. */
  function CascadeAttempts(origin: Event, bursts: seq<StudyBurst>, types: ObjectTypes, iteration: nat -> string, base: Instant): (r: seq<Attempt>)
    ensures forall i :: 0 <= i < |r| ==> SharesScope(r[i].event, origin)
    ensures forall i :: 0 <= i < |r| ==>
      exists j :: 0 <= j < |bursts| && OccurrenceOf(r[i], origin, bursts[j], types)
    decreases |bursts|
  {
    if |bursts| == 0 then []
    else
      var here := if Matches(bursts[0], origin) then BurstAttempts(origin, bursts[0], types, iteration, base) else [];
      var rest := CascadeAttempts(origin, bursts[1..], types, iteration, base);
      var r := here + rest;
      assert forall i :: 0 <= i < |r| ==> exists j :: 0 <= j < |bursts| && OccurrenceOf(r[i], origin, bursts[j], types)
      by {
        forall i | 0 <= i < |r|
          ensures exists j :: 0 <= j < |bursts| && OccurrenceOf(r[i], origin, bursts[j], types)
        {
          if i < |here| {
            assert OccurrenceOf(r[i], origin, bursts[0], types);
          } else {
            assert r[i] == rest[i - |here|];
            var j :| 0 <= j < |bursts[1..]| && OccurrenceOf(rest[i - |here|], origin, bursts[1..][j], types);
            assert OccurrenceOf(r[i], origin, bursts[j + 1], types);
          }
        }
      }
      r
  }

  /** A cascade without matching bursts derives nothing. */
  lemma {:induction false} NoMatchNoCascade(origin: Event, bursts: seq<StudyBurst>, types: ObjectTypes, iteration: nat -> string, base: Instant)
    requires forall j :: 0 <= j < |bursts| ==> !Matches(bursts[j], origin)
    ensures CascadeAttempts(origin, bursts, types, iteration, base) == []
    decreases |bursts|
  {
    if |bursts| > 0 {
      NoMatchNoCascade(origin, bursts[1..], types, iteration, base);
    }
  }

  /** The cascade's size is the sum of the matching bursts' occurrence counts. */
  function MatchingOccurrences(origin: Event, bursts: seq<StudyBurst>): nat
    decreases |bursts|
  {
    if |bursts| == 0 then 0
    else (if Matches(bursts[0], origin) then OccurrenceCount(bursts[0]) else 0)
         + MatchingOccurrences(origin, bursts[1..])
  }

  lemma {:induction false} CascadeSize(origin: Event, bursts: seq<StudyBurst>, types: ObjectTypes, iteration: nat -> string, base: Instant)
    ensures |CascadeAttempts(origin, bursts, types, iteration, base)| == MatchingOccurrences(origin, bursts)
    decreases |bursts|
  {
    if |bursts| > 0 {
      CascadeSize(origin, bursts[1..], types, iteration, base);
    }
  }

  /** The inner loop, from occurrence `i` on, with `time` built by repeated
      addition of the interval, is the in-order application of the remaining
      reference attempts. */
  lemma {:induction false} RunOccurrencesIsApplyAll(policy: Policy, types: ObjectTypes, iteration: nat -> string, p: Progress, origin: Event,
                                                    burst: StudyBurst, base: Instant, i: nat, time: Instant)
    requires i <= OccurrenceCount(burst) && time == After(base, burst.interval, i)
    ensures RunOccurrences(policy, types, iteration, p, origin, burst, i, burst.occurrences, time)
         == ApplyAll(policy, p, BurstAttempts(origin, burst, types, iteration, base)[i..])
    decreases OccurrenceCount(burst) - i
  {
    var all := BurstAttempts(origin, burst, types, iteration, base);
    if i < OccurrenceCount(burst) {
      var next := time + burst.interval;
      var a := all[i];
      calc {
        RunOccurrences(policy, types, iteration, p, origin, burst, i, burst.occurrences, time);
        { RunOccurrencesStep(policy, types, iteration, p, origin, burst, base, i, time); }
        RunOccurrences(policy, types, iteration, Try(policy, p, a), origin, burst, i + 1, burst.occurrences, next);
        { RunOccurrencesIsApplyAll(policy, types, iteration, Try(policy, p, a), origin, burst, base, i + 1, next); }
        ApplyAll(policy, Try(policy, p, a), all[i + 1..]);
        { ApplyAllStep(policy, p, all, i); }
        ApplyAll(policy, p, all[i..]);
      }
    } else {
      assert all[i..] == [];
    }
  }

  /** One turn of the inner loop tries the reference attempt for occurrence `i`. */
  lemma RunOccurrencesStep(policy: Policy, types: ObjectTypes, iteration: nat -> string, p: Progress, origin: Event,
                           burst: StudyBurst, base: Instant, i: nat, time: Instant)
    requires i < OccurrenceCount(burst) && time == After(base, burst.interval, i)
    ensures RunOccurrences(policy, types, iteration, p, origin, burst, i, burst.occurrences, time)
         == RunOccurrences(policy, types, iteration, Try(policy, p, BurstAttempts(origin, burst, types, iteration, base)[i]),
                           origin, burst, i + 1, burst.occurrences, time + burst.interval)
  {
    assert BurstAttempts(origin, burst, types, iteration, base)[i] == OccurrenceAttempt(origin, burst, types, iteration, base, i);
  }

  lemma ApplyAllStep(policy: Policy, p: Progress, all: seq<Attempt>, i: nat)
    requires i < |all|
    ensures ApplyAll(policy, p, all[i..]) == ApplyAll(policy, Try(policy, p, all[i]), all[i + 1..])
  {
    assert all[i..][0] == all[i];
    assert all[i..][1..] == all[i + 1..];
  }

  /** The Java-shaped loops compute exactly the reference cascade, applied in order. */
  lemma {:induction false} RunBurstsIsApplyAll(policy: Policy, types: ObjectTypes, iteration: nat -> string, p: Progress, origin: Event,
                                               bursts: seq<StudyBurst>, base: Instant)
    ensures RunBursts(policy, types, iteration, p, origin, bursts, base)
         == ApplyAll(policy, p, CascadeAttempts(origin, bursts, types, iteration, base))
    decreases |bursts|
  {
    if |bursts| > 0 {
      var b := bursts[0];
      var here := if Matches(b, origin) then BurstAttempts(origin, b, types, iteration, base) else [];
      var q := if Matches(b, origin) then RunOccurrences(policy, types, iteration, p, origin, b, 0, b.occurrences, base) else p;
      if Matches(b, origin) {
        RunOccurrencesIsApplyAll(policy, types, iteration, p, origin, b, base, 0, base);
        assert BurstAttempts(origin, b, types, iteration, base)[0..] == here;
      }
      assert q == ApplyAll(policy, p, here);
      RunBurstsIsApplyAll(policy, types, iteration, q, origin, bursts[1..], base);
      ApplyAllAppend(policy, p, here, CascadeAttempts(origin, bursts[1..], types, iteration, base));
    }
  }

  /** With the service's rendering, the answer value of each occurrence reads
      back as its 1-based occurrence number, so the occurrences of one burst
      carry pairwise distinct answer values. */
  lemma BurstAnswersNumberOccurrences(origin: Event, burst: StudyBurst, types: ObjectTypes, base: Instant)
    ensures var r := BurstAttempts(origin, burst, types, Pad2, base);
      && (forall k :: 0 <= k < |r| ==>
            AllDigits(r[k].event.answerValue.value) && ParseDecimal(r[k].event.answerValue.value) == k + 1)
      && (forall j, k :: 0 <= j < k < |r| ==> r[j].event.answerValue != r[k].event.answerValue)
  {
    var r := BurstAttempts(origin, burst, types, Pad2, base);
    forall k | 0 <= k < |r|
      ensures AllDigits(r[k].event.answerValue.value) && ParseDecimal(r[k].event.answerValue.value) == k + 1
    {
      Pad2RoundTrip(k + 1);
    }
    forall j, k | 0 <= j < k < |r|
      ensures r[j].event.answerValue != r[k].event.answerValue
    {
      Pad2Injective(j + 1, k + 1);
    }
  }
}
