/**
 The event table as the service sees it: one current event per
 (userId, studyId, eventId), and the read-decide-write step that both the
 origin publish and every burst occurrence go through — look up the most
 recent stored event, ask the update type whether the candidate may be
 written, then write it or record its id as failed.
 */
module EventStore {
  import opened Common
  import opened ActivityEvents

  datatype EventKey = EventKey(userId: Option<string>, studyId: Option<string>, eventId: Option<string>)

  /** The most recent event stored under each key. */
  type Store = map<EventKey, Event>

  function KeyOf(e: Event): EventKey {
    EventKey(e.userId, e.studyId, e.eventId)
  }

  /** `dao.getRecentStudyActivityEvent`, null when nothing is stored. */
  function MostRecent(store: Store, key: EventKey): (r: Option<Event>)
    ensures r.Some? <==> key in store
    ensures r.Some? ==> r.value == store[key]
  {
    if key in store then Some(store[key]) else None
  }

  /** One candidate write together with the update type that governs it. */
  datatype Attempt = Attempt(event: Event, updateType: UpdateType)

  /** The store and the ids of events rejected so far (`failedEventIds`). */
  datatype Progress = Progress(store: Store, failed: seq<Option<string>>)

  function Allowed(policy: Policy, store: Store, a: Attempt): bool {
    policy.canUpdate(a.updateType, MostRecent(store, KeyOf(a.event)), a.event)
  }

  /** Write the event iff its update type allows it against the stored value;
      otherwise append its id to the failed list and leave the store alone. */
  function Try(policy: Policy, p: Progress, a: Attempt): (r: Progress)
    ensures Allowed(policy, p.store, a) ==>
      r.store == p.store[KeyOf(a.event) := a.event] && r.failed == p.failed
    ensures !Allowed(policy, p.store, a) ==>
      r.store == p.store && r.failed == p.failed + [a.event.eventId]
  {
    if Allowed(policy, p.store, a) then Progress(p.store[KeyOf(a.event) := a.event], p.failed)
    else Progress(p.store, p.failed + [a.event.eventId])
  }

  /** The attempts, in order, each seeing the writes of those before it. */
  function ApplyAll(policy: Policy, p: Progress, attempts: seq<Attempt>): (r: Progress)
    decreases |attempts|
  {
    if |attempts| == 0 then p
    else ApplyAll(policy, Try(policy, p, attempts[0]), attempts[1..])
  }

  lemma {:induction false} ApplyAllAppend(policy: Policy, p: Progress, xs: seq<Attempt>, ys: seq<Attempt>)
    ensures ApplyAll(policy, p, xs + ys) == ApplyAll(policy, ApplyAll(policy, p, xs), ys)
    decreases |xs|
  {
    if |xs| > 0 {
      assert (xs + ys)[1..] == xs[1..] + ys;
      ApplyAllAppend(policy, Try(policy, p, xs[0]), xs[1..], ys);
    } else {
      assert xs + ys == ys;
    }
  }

  function KeysOf(attempts: seq<Attempt>): set<EventKey> {
    set i | 0 <= i < |attempts| :: KeyOf(attempts[i].event)
  }

  /** Earlier failures are never dropped, and at most one id is added per attempt. */
  lemma {:induction false} FailedOnlyGrows(policy: Policy, p: Progress, attempts: seq<Attempt>)
    ensures p.failed <= ApplyAll(policy, p, attempts).failed
    ensures |ApplyAll(policy, p, attempts).failed| <= |p.failed| + |attempts|
    decreases |attempts|
  {
    if |attempts| > 0 {
      FailedOnlyGrows(policy, Try(policy, p, attempts[0]), attempts[1..]);
    }
  }

  /** Nothing else changes: keys no attempt touches keep their stored value,
      and every stored value is either an old one or one of the attempts. */
  lemma {:induction false} UntouchedKeysUnchanged(policy: Policy, p: Progress, attempts: seq<Attempt>)
    ensures forall k :: k !in KeysOf(attempts) ==>
      MostRecent(ApplyAll(policy, p, attempts).store, k) == MostRecent(p.store, k)
    ensures forall k :: k in ApplyAll(policy, p, attempts).store ==>
      (k in p.store && ApplyAll(policy, p, attempts).store[k] == p.store[k])
      || exists i :: 0 <= i < |attempts| && ApplyAll(policy, p, attempts).store[k] == attempts[i].event
    decreases |attempts|
  {
    if |attempts| > 0 {
      var q := Try(policy, p, attempts[0]);
      UntouchedKeysUnchanged(policy, q, attempts[1..]);
      var r := ApplyAll(policy, p, attempts);
      assert r == ApplyAll(policy, q, attempts[1..]);
      forall k | k !in KeysOf(attempts)
        ensures MostRecent(r.store, k) == MostRecent(p.store, k)
      {
        assert KeyOf(attempts[0].event) in KeysOf(attempts);
        assert forall i :: 0 <= i < |attempts[1..]| ==> attempts[1..][i] == attempts[i + 1];
        assert KeysOf(attempts[1..]) <= KeysOf(attempts);
      }
      forall k | k in r.store
        ensures (k in p.store && r.store[k] == p.store[k])
             || exists i :: 0 <= i < |attempts| && r.store[k] == attempts[i].event
      {
        if k in q.store && r.store[k] == q.store[k] {
          if !(k in p.store && q.store[k] == p.store[k]) {
            assert r.store[k] == attempts[0].event;
          }
        } else {
          var i :| 0 <= i < |attempts[1..]| && r.store[k] == attempts[1..][i].event;
          assert r.store[k] == attempts[i + 1].event;
        }
      }
    }
  }

  /** Pairwise distinct keys: no attempt sees another one's write. */
  predicate DistinctKeys(attempts: seq<Attempt>) {
    forall i, j :: 0 <= i < j < |attempts| ==> KeyOf(attempts[i].event) != KeyOf(attempts[j].event)
  }

  /** Reference definition: the ids an independent judgement of every attempt
      against the initial store would reject, in order. */
  function RejectedIds(policy: Policy, store: Store, attempts: seq<Attempt>): (r: seq<Option<string>>)
    ensures |r| <= |attempts|
  {
    if |attempts| == 0 then []
    else (if Allowed(policy, store, attempts[0]) then [] else [attempts[0].event.eventId])
         + RejectedIds(policy, store, attempts[1..])
  }

  /** When the attempts have distinct keys, the sequential fold agrees with
      judging each attempt alone against the initial store: the failed list
      grows by exactly the rejected ids, in order, and each attempt's key ends
      up holding the attempt iff it was allowed. */
  lemma {:induction false} IndependentAttempts(policy: Policy, p: Progress, attempts: seq<Attempt>)
    requires DistinctKeys(attempts)
    ensures ApplyAll(policy, p, attempts).failed == p.failed + RejectedIds(policy, p.store, attempts)
    ensures forall i :: 0 <= i < |attempts| ==>
      MostRecent(ApplyAll(policy, p, attempts).store, KeyOf(attempts[i].event))
        == if Allowed(policy, p.store, attempts[i]) then Some(attempts[i].event)
           else MostRecent(p.store, KeyOf(attempts[i].event))
    decreases |attempts|
  {
    if |attempts| > 0 {
      var a := attempts[0];
      var rest := attempts[1..];
      var q := Try(policy, p, a);
      assert DistinctKeys(rest) by {
        forall i, j | 0 <= i < j < |rest|
          ensures KeyOf(rest[i].event) != KeyOf(rest[j].event)
        {
          assert rest[i] == attempts[i + 1] && rest[j] == attempts[j + 1];
        }
      }
      IndependentAttempts(policy, q, rest);
      UntouchedKeysUnchanged(policy, q, rest);
      var r := ApplyAll(policy, p, attempts);
      assert r == ApplyAll(policy, q, rest);
      // the first attempt's key is not touched by the rest
      assert KeyOf(a.event) !in KeysOf(rest) by {
        forall i | 0 <= i < |rest| ensures KeyOf(rest[i].event) != KeyOf(a.event) {
          assert rest[i] == attempts[i + 1];
        }
      }
      // the rest are judged against the same store values as in p
      forall i | 0 <= i < |rest|
        ensures Allowed(policy, q.store, rest[i]) == Allowed(policy, p.store, rest[i])
        ensures MostRecent(q.store, KeyOf(rest[i].event)) == MostRecent(p.store, KeyOf(rest[i].event))
      {
        assert rest[i] == attempts[i + 1];
      }
      RejectedIdsSameJudgement(policy, q.store, p.store, rest);
      forall i | 0 <= i < |attempts|
        ensures MostRecent(r.store, KeyOf(attempts[i].event))
          == if Allowed(policy, p.store, attempts[i]) then Some(attempts[i].event)
             else MostRecent(p.store, KeyOf(attempts[i].event))
      {
        if i > 0 {
          assert attempts[i] == rest[i - 1];
        }
      }
    }
  }

  /** `RejectedIds` only depends on the judgement of each attempt. */
  lemma {:induction false} RejectedIdsSameJudgement(policy: Policy, s1: Store, s2: Store, attempts: seq<Attempt>)
    requires forall i :: 0 <= i < |attempts| ==> Allowed(policy, s1, attempts[i]) == Allowed(policy, s2, attempts[i])
    ensures RejectedIds(policy, s1, attempts) == RejectedIds(policy, s2, attempts)
    decreases |attempts|
  {
    if |attempts| > 0 {
      var rest := attempts[1..];
      forall i | 0 <= i < |rest| ensures Allowed(policy, s1, rest[i]) == Allowed(policy, s2, rest[i]) {
        assert rest[i] == attempts[i + 1];
      }
      RejectedIdsSameJudgement(policy, s1, s2, rest);
    }
  }
}
