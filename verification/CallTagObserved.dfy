/**
  The stream property in terms of what can be observed from outside: the completions delivered to a
  tag, the versions its polls found and the writes it started, without the tag's own history fields.
*/
module CallTagObserved {
  import opened ConfigScope
  import opened CallTags
  import opened CallTagStreams

  /** The version the client asked to start from, the versions its polls found, and the versions written to it. */
  datatype Seen = Seen(since: nat, polls: seq<nat>, writes: seq<nat>)

  const NOTHING := Seen(0, [], [])

  /** The completion makes tag `id` poll. */
  predicate IsPoll(s: System, e: Event, id: nat) {
    e.op in s.outstanding && e.op.tag == id && id in s.subscribers && e.ok && (e.op.kind == RequestOp || e.op.kind == AlarmOp)
  }

  predicate StartsWrite(s: System, id: nat) {
    id in s.subscribers && Operation(id, WriteOp) in s.outstanding
  }

  function ObserveOne(seen: Seen, s: System, e: Event, id: nat): Seen {
    if !IsPoll(s, e, id) then seen else
    var s' := Deliver(s, e);
    Seen(if e.op.kind == RequestOp then e.requestSince else seen.since,
         seen.polls + [QueryVersion(e.query)],
         seen.writes + if StartsWrite(s', id) then [s'.subscribers[id].outgoing] else [])
  }

  /** What an observer of tag `id` sees of a run. */
  function Observe(seen: Seen, s: System, events: seq<Event>, id: nat): Seen
    decreases |events|
  {
    if events == [] then seen
    else Observe(ObserveOne(seen, s, events[0], id), Deliver(s, events[0]), events[1..], id)
  }

  // ------------------------------------------------------------------ the history fields are what is observed

  function Recorded(s: System, id: nat): Seen {
    if id in s.subscribers
    then Seen(s.subscribers[id].clientSince, s.subscribers[id].polled, s.subscribers[id].pushed)
    else NOTHING
  }

  lemma AcceptKeepsOthers(s: System, id: nat, e: Event, other: nat)
    requires id in s.subscribers && other != id && forall i :: i in s.subscribers ==> i < s.nextTag
    ensures Recorded(AcceptFirst(s, id, e), other) == Recorded(s, other)
    ensures id in AcceptFirst(s, id, e).subscribers
  {
  }

  lemma PollKeepsOthers(s: System, id: nat, version: nat, other: nat)
    requires id in s.subscribers && other != id
    ensures Recorded(PollAndMaybeWrite(s, id, version), other) == Recorded(s, other)
    ensures id in PollAndMaybeWrite(s, id, version).subscribers
  {
  }

  lemma OthersKeep(s: System, id: nat, e: Event, other: nat)
    requires id in s.subscribers && other != id && forall i :: i in s.subscribers ==> i < s.nextTag
    ensures Recorded(ProceedSubscriber(s, id, e), other) == Recorded(s, other)
  {
    if e.ok && s.subscribers[id].status == Accept {
      AcceptKeepsOthers(s, id, e, other);
      PollKeepsOthers(AcceptFirst(s, id, e), id, QueryVersion(e.query), other);
    }
  }

  lemma AcceptRecords(s: System, id: nat, e: Event)
    requires id in s.subscribers && id < s.nextTag && Operation(id, WriteOp) !in s.outstanding
    requires FlagsAgree(s.subscribers[id]) && s.subscribers[id].status == Accept
    ensures var t, s1 := s.subscribers[id], AcceptFirst(s, id, e);
            && id in s1.subscribers && Operation(id, WriteOp) !in s1.outstanding
            && var t1 := s1.subscribers[id];
               && t1.accepted && t1.status == Accept && !t1.finished && !t1.writeInFlight
               && t1.clientSince == (if t.accepted then t.clientSince else e.requestSince)
               && t1.polled == t.polled && t1.pushed == t.pushed
  {
  }

  lemma ListeningPollRecords(s: System, id: nat, version: nat)
    requires id in s.subscribers && Operation(id, WriteOp) !in s.outstanding
    requires var t := s.subscribers[id]; !t.finished && !t.writeInFlight
    ensures var t, s2 := s.subscribers[id], PollAndMaybeWrite(s, id, version);
            && id in s2.subscribers
            && s2.subscribers[id].clientSince == t.clientSince
            && s2.subscribers[id].polled == t.polled + [version]
            && s2.subscribers[id].pushed == t.pushed + (if StartsWrite(s2, id) then [s2.subscribers[id].outgoing] else [])
            && (s2.subscribers[id].writeInFlight <==> StartsWrite(s2, id))
  {
    assert s.subscribers[id].pushed + [] == s.subscribers[id].pushed;
  }

  lemma PollRecords(s: System, id: nat, e: Event)
    requires id in s.subscribers && id < s.nextTag && e.ok && Operation(id, WriteOp) !in s.outstanding
    requires FlagsAgree(s.subscribers[id]) && s.subscribers[id].status == Accept
    ensures var t, s', v := s.subscribers[id], ProceedSubscriber(s, id, e), QueryVersion(e.query);
            && id in s'.subscribers
            && Recorded(s', id) == Seen(if t.accepted then t.clientSince else e.requestSince, t.polled + [v],
                                        t.pushed + if StartsWrite(s', id) then [s'.subscribers[id].outgoing] else [])
  {
    var s1 := AcceptFirst(s, id, e);
    AcceptRecords(s, id, e);
    ListeningPollRecords(s1, id, QueryVersion(e.query));
    var s2 := PollAndMaybeWrite(s1, id, QueryVersion(e.query));
    assert ProceedSubscriber(s, id, e).subscribers == s2.subscribers;
  }

  lemma QuietRecords(s: System, id: nat, e: Event)
    requires id in s.subscribers && FlagsAgree(s.subscribers[id])
    requires !e.ok || s.subscribers[id].status != Accept
    ensures var s' := ProceedSubscriber(s, id, e); id in s'.subscribers ==> Recorded(s', id) == Recorded(s, id)
  {
  }

  lemma RecordedStep(s: System, e: Event, id: nat)
    requires Owned(s) && id in Deliver(s, e).subscribers
    ensures Recorded(Deliver(s, e), id) == ObserveOne(Recorded(s, id), s, e, id)
  {
    if e.op in s.outstanding {
      Taken(s, e.op);
      var s1 := s.(outstanding := s.outstanding - multiset{e.op});
      if e.op.tag !in s.subscribers {
        assert Recorded(Deliver(s, e), id) == Recorded(s, id);
      } else if e.op.tag != id {
        OthersKeep(s1, e.op.tag, e, id);
      } else if IsPoll(s, e, id) {
        assert s1.outstanding[Operation(id, WriteOp)] == 0;
        PollRecords(s1, id, e);
      } else {
        QuietRecords(s1, id, e);
      }
    }
  }

  /** `s'` has no address below `s.nextTag` that `s` has not. */
  predicate OnlyNewer(s: System, s': System) {
    s.nextTag <= s'.nextTag && forall id :: id in s'.subscribers && id < s.nextTag ==> id in s.subscribers
  }

  lemma AcceptGrows(s: System, id: nat, e: Event)
    requires id in s.subscribers
    ensures OnlyNewer(s, AcceptFirst(s, id, e)) && id in AcceptFirst(s, id, e).subscribers
  {
  }

  lemma PollGrows(s: System, id: nat, version: nat)
    requires id in s.subscribers
    ensures var s' := PollAndMaybeWrite(s, id, version);
            s'.nextTag == s.nextTag && s'.subscribers.Keys == s.subscribers.Keys
  {
  }

  lemma SubscriberGrows(s: System, id: nat, e: Event)
    requires id in s.subscribers
    ensures OnlyNewer(s, ProceedSubscriber(s, id, e))
  {
    if e.ok && s.subscribers[id].status == Accept {
      AcceptGrows(s, id, e);
      PollGrows(AcceptFirst(s, id, e), id, QueryVersion(e.query));
    }
  }

  lemma TagsGrow(s: System, e: Event)
    ensures OnlyNewer(s, Deliver(s, e))
  {
    if e.op in s.outstanding && e.op.tag in s.subscribers {
      SubscriberGrows(s.(outstanding := s.outstanding - multiset{e.op}), e.op.tag, e);
    }
  }

  /** An address once given up is never used again. */
  lemma {:induction false} GoneForGood(s: System, events: seq<Event>, id: nat)
    requires id < s.nextTag && id !in s.subscribers
    ensures id !in Run(s, events).subscribers
    decreases |events|
  {
    if events != [] {
      TagsGrow(s, events[0]);
      GoneForGood(Deliver(s, events[0]), events[1..], id);
    }
  }

  lemma {:induction false} RecordedRun(s: System, events: seq<Event>, id: nat)
    requires Owned(s) && id in Run(s, events).subscribers
    ensures Recorded(Run(s, events), id) == Observe(Recorded(s, id), s, events, id)
    decreases |events|
  {
    if events != [] {
      var s1 := Deliver(s, events[0]);
      DeliverOwned(s, events[0]);
      if id in s1.subscribers {
        RecordedStep(s, events[0], id);
      } else if id in s.subscribers {
        TagsGrow(s, events[0]);
        GoneForGood(s1, events[1..], id);
      }
      RecordedRun(s1, events[1..], id);
    }
  }

  /** An observation is in order if the writes are the records of the polls and match a live tag's own history. */
  predicate InOrder(s: System, id: nat, seen: Seen) {
    && seen.writes == Records(seen.since, seen.polls)
    && (id in s.subscribers ==> seen == Recorded(s, id))
    && (id >= s.nextTag ==> seen == NOTHING)
  }

  lemma PollStays(s: System, e: Event, id: nat)
    requires Owned(s) && IsPoll(s, e, id)
    ensures id in Deliver(s, e).subscribers
  {
    Taken(s, e.op);
    var s1 := s.(outstanding := s.outstanding - multiset{e.op});
    assert s1.outstanding[Operation(id, WriteOp)] == 0;
    PollRecords(s1, id, e);
  }

  lemma ObservedStep(s: System, e: Event, id: nat, seen: Seen)
    requires Owned(s) && StreamsOk(s) && InOrder(s, id, seen)
    ensures InOrder(Deliver(s, e), id, ObserveOne(seen, s, e, id))
  {
    var s' := Deliver(s, e);
    DeliverStreams(s, e);
    TagsGrow(s, e);
    if id in s'.subscribers {
      RecordedStep(s, e, id);
      DeliverOwned(s, e);
      assert StreamOk(s'.subscribers[id]);
    } else if IsPoll(s, e, id) {
      PollStays(s, e, id);
    }
  }

  lemma {:induction false} ObservedRun(s: System, events: seq<Event>, id: nat, seen: Seen)
    requires Owned(s) && StreamsOk(s) && InOrder(s, id, seen)
    ensures InOrder(Run(s, events), id, Observe(seen, s, events, id))
    decreases |events|
  {
    if events != [] {
      ObservedStep(s, events[0], id, seen);
      DeliverOwned(s, events[0]);
      DeliverStreams(s, events[0]);
      ObservedRun(Deliver(s, events[0]), events[1..], id, ObserveOne(seen, s, events[0], id));
    }
  }

  /**
    In any run from the start, the versions written on any stream, live or already completed, are
    exactly the strict running maxima of the versions its polls found, above the version its client
    asked to start from.
  */
  lemma WritesAreRunningMaxima(databaseReady: bool, events: seq<Event>, id: nat)
    ensures var seen := Observe(NOTHING, Start(databaseReady), events, id);
            && seen.writes == Records(seen.since, seen.polls)
            && Increasing(seen.writes)
  {
    var s := Start(databaseReady);
    StartOwned(databaseReady);
    assert Recorded(s, id) == NOTHING;
    ObservedRun(s, events, id, NOTHING);
    var seen := Observe(NOTHING, s, events, id);
    RecordsIncrease(seen.since, seen.polls);
  }
}
