/** What clients of the configuration service see: the versions pushed on a stream, and that someone listens. */
module CallTagStreams {
  import opened ConfigScope
  import opened CallTags

  // ------------------------------------------------------------------ pushed versions

  /** Poll `i` found a version newer than the client's and than every earlier poll. */
  predicate IsRecord(since: nat, polls: seq<nat>, i: nat)
    requires i < |polls|
  {
    polls[i] > since && forall j :: 0 <= j < i ==> polls[j] < polls[i]
  }

  /** The strict running maxima above `since`, in order. */
  function Records(since: nat, polls: seq<nat>): seq<nat> {
    if polls == [] then [] else
    var n := |polls| - 1;
    Records(since, polls[..n]) + if IsRecord(since, polls, n) then [polls[n]] else []
  }

  /** `top` is the largest of `since` and the polls. */
  predicate IsTop(top: nat, since: nat, polls: seq<nat>) {
    since <= top && (top == since || top in polls) && forall p :: p in polls ==> p <= top
  }

  lemma {:induction false} RecordsSnoc(since: nat, polls: seq<nat>, v: nat, top: nat)
    requires IsTop(top, since, polls)
    ensures Records(since, polls + [v]) == Records(since, polls) + if v > top then [v] else []
    ensures IsTop(if v > top then v else top, since, polls + [v])
  {
    var all := polls + [v];
    assert all[..|polls|] == polls;
    assert forall j :: 0 <= j < |polls| ==> all[j] == polls[j] && polls[j] in polls;
    if v <= top && v > since {
      var j :| 0 <= j < |polls| && polls[j] == top;
      assert all[j] >= v;
    }
  }

  predicate Increasing(r: seq<nat>) {
    forall i, j :: 0 <= i < j < |r| ==> r[i] < r[j]
  }

  /** The records are strictly increasing, above `since`, and among the polls. */
  lemma {:induction false} RecordsIncrease(since: nat, polls: seq<nat>)
    ensures Increasing(Records(since, polls))
    ensures forall v :: v in Records(since, polls) ==> v > since && v in polls
    decreases |polls|
  {
    if polls != [] {
      var n := |polls| - 1;
      var before, r := Records(since, polls[..n]), Records(since, polls);
      RecordsIncrease(since, polls[..n]);
      assert polls == polls[..n] + [polls[n]];
      if IsRecord(since, polls, n) {
        assert r == before + [polls[n]];
        forall i | 0 <= i < |before| ensures before[i] < polls[n] {
          assert before[i] in before;
        }
      } else {
        assert r == before;
      }
    }
  }

  /** The version the stream has reached: the one being written, else the one last acknowledged. */
  function Reached(t: Subscriber): nat {
    if t.status == Write then t.outgoing else t.sinceVersion
  }

  predicate StreamOk(t: Subscriber) {
    && t.pushed == Records(t.clientSince, t.polled)
    && (t.accepted && !t.finished ==> IsTop(Reached(t), t.clientSince, t.polled))
  }

  predicate StreamsOk(s: System) {
    forall id :: id in s.subscribers ==> StreamOk(s.subscribers[id])
  }

  lemma PollStream(s: System, id: nat, version: nat)
    requires id in s.subscribers && StreamsOk(s)
    requires var t := s.subscribers[id]; FlagsAgree(t) && t.status == Accept && t.accepted
    ensures StreamsOk(PollAndMaybeWrite(s, id, version))
  {
    var t := s.subscribers[id];
    RecordsSnoc(t.clientSince, t.polled, version, t.sinceVersion);
    assert Records(t.clientSince, t.polled) + [] == Records(t.clientSince, t.polled);
  }

  lemma AcceptReady(s: System, id: nat, e: Event)
    requires id in s.subscribers && id < s.nextTag
    requires FlagsAgree(s.subscribers[id]) && s.subscribers[id].status == Accept
    ensures id in AcceptFirst(s, id, e).subscribers
    ensures var t := AcceptFirst(s, id, e).subscribers[id];
            FlagsAgree(t) && t.status == Accept && t.accepted && t.pushed == s.subscribers[id].pushed
  {
  }

  lemma AcceptStream(s: System, id: nat, e: Event)
    requires id in s.subscribers && id < s.nextTag && StreamsOk(s)
    requires FlagsAgree(s.subscribers[id]) && s.subscribers[id].status == Accept
    ensures StreamsOk(AcceptFirst(s, id, e))
  {
  }

  lemma DeliverStreams(s: System, e: Event)
    requires Owned(s) && StreamsOk(s)
    ensures StreamsOk(Deliver(s, e))
  {
    if e.op in s.outstanding && e.op.tag in s.subscribers {
      var id := e.op.tag;
      var s1 := s.(outstanding := s.outstanding - multiset{e.op});
      var t := s.subscribers[id];
      if e.ok && t.status == Accept {
        AcceptReady(s1, id, e);
        AcceptStream(s1, id, e);
        PollStream(AcceptFirst(s1, id, e), id, QueryVersion(e.query));
      } else {
        assert StreamOk(t) && FlagsAgree(t);
      }
    }
  }

  lemma {:induction false} RunStreams(s: System, events: seq<Event>)
    requires Owned(s) && StreamsOk(s)
    ensures StreamsOk(Run(s, events))
    decreases |events|
  {
    if events != [] {
      DeliverOwned(s, events[0]);
      DeliverStreams(s, events[0]);
      RunStreams(Deliver(s, events[0]), events[1..]);
    }
  }

  /**
    In every reachable state, the versions pushed on each stream are exactly the polled versions that
    exceeded the client's version and every earlier poll, hence strictly increasing.
  */
  lemma PushedAreRunningMaxima(databaseReady: bool, events: seq<Event>, id: nat)
    ensures var s := Run(Start(databaseReady), events);
            id in s.subscribers ==>
              var t := s.subscribers[id];
              && t.pushed == Records(t.clientSince, t.polled)
              && forall i, j :: 0 <= i < j < |t.pushed| ==> t.clientSince < t.pushed[i] < t.pushed[j]
  {
    StartOwned(databaseReady);
    RunStreams(Start(databaseReady), events);
    var s := Run(Start(databaseReady), events);
    if id in s.subscribers {
      var t := s.subscribers[id];
      RecordsIncrease(t.clientSince, t.polled);
      assert forall i :: 0 <= i < |t.pushed| ==> t.pushed[i] in t.pushed;
    }
  }

  // ------------------------------------------------------------------ tags that are not concerned

  lemma AcceptLeavesOthers(s: System, id: nat, e: Event, other: nat)
    requires id in s.subscribers && other in s.subscribers && other != id && other < s.nextTag
    ensures var s' := AcceptFirst(s, id, e);
            id in s'.subscribers && other in s'.subscribers && s'.subscribers[other] == s.subscribers[other]
  {
  }

  lemma PollLeavesOthers(s: System, id: nat, version: nat, other: nat)
    requires id in s.subscribers && other in s.subscribers && other != id
    ensures var s' := PollAndMaybeWrite(s, id, version);
            id in s'.subscribers && other in s'.subscribers && s'.subscribers[other] == s.subscribers[other]
  {
  }

  lemma ProceedLeavesOthers(s: System, id: nat, e: Event, other: nat)
    requires id in s.subscribers && other in s.subscribers && other != id && other < s.nextTag
    ensures var s' := ProceedSubscriber(s, id, e); other in s'.subscribers && s'.subscribers[other] == s.subscribers[other]
  {
    if e.ok && s.subscribers[id].status == Accept {
      AcceptLeavesOthers(s, id, e, other);
      PollLeavesOthers(AcceptFirst(s, id, e), id, QueryVersion(e.query), other);
    }
  }

  /** A completion leaves the tags alone that did not wait for it. */
  lemma DeliverLeavesOthers(s: System, e: Event, other: nat)
    requires Owned(s) && other in s.subscribers && (e.op in s.outstanding ==> e.op.tag != other)
    ensures var s' := Deliver(s, e); other in s'.subscribers && s'.subscribers[other] == s.subscribers[other]
  {
    if e.op in s.outstanding && e.op.tag in s.subscribers {
      ProceedLeavesOthers(s.(outstanding := s.outstanding - multiset{e.op}), e.op.tag, e, other);
    }
  }

  // ------------------------------------------------------------------ failing queries

  /** As long as the tag's operations succeed and its queries fail. */
  predicate QueriesFail(s: System, events: seq<Event>, id: nat)
    decreases |events|
  {
    events != [] ==>
      && (events[0].op in s.outstanding && events[0].op.tag == id ==> events[0].ok && QueryVersion(events[0].query) == 0)
      && QueriesFail(Deliver(s, events[0]), events[1..], id)
  }

  /** The first poll, on the request, or a later one, on the alarm: a failed query pushes nothing. */
  lemma FailedQueryStep(s: System, e: Event, id: nat)
    requires Owned(s) && id in s.subscribers && s.subscribers[id].status == Accept
    requires e.op in s.outstanding && e.op.tag == id ==> e.ok && QueryVersion(e.query) == 0
    ensures var s' := Deliver(s, e);
            && id in s'.subscribers && s'.subscribers[id].status == Accept
            && s'.subscribers[id].pushed == s.subscribers[id].pushed
            && (s'.subscribers[id].accepted <==> s.subscribers[id].accepted || (e.op in s.outstanding && e.op.tag == id))
  {
    if e.op in s.outstanding && e.op.tag == id {
      Taken(s, e.op);
      var s1 := s.(outstanding := s.outstanding - multiset{e.op});
      AcceptReady(s1, id, e);
    } else {
      DeliverLeavesOthers(s, e, id);
    }
  }

  lemma {:induction false} FailedQueries(s: System, events: seq<Event>, id: nat)
    requires Owned(s) && id in s.subscribers && s.subscribers[id].status == Accept && QueriesFail(s, events, id)
    ensures var s' := Run(s, events);
            && id in s'.subscribers && s'.subscribers[id].status == Accept
            && s'.subscribers[id].pushed == s.subscribers[id].pushed
            && (s.subscribers[id].accepted ==> s'.subscribers[id].accepted)
    decreases |events|
  {
    if events != [] {
      DeliverOwned(s, events[0]);
      FailedQueryStep(s, events[0], id);
      FailedQueries(Deliver(s, events[0]), events[1..], id);
    }
  }

  /**
    Failed queries keep a stream polling.  As long as a tag's operations succeed and its queries fail,
    nothing is ever written on it and exactly one operation waits for it: its request before the first
    poll, its alarm from then on.
  */
  lemma FailedQueriesKeepPolling(s: System, events: seq<Event>, id: nat)
    requires Owned(s) && id in s.subscribers && s.subscribers[id].status == Accept && QueriesFail(s, events, id)
    ensures var s' := Run(s, events);
            && id in s'.subscribers && s'.subscribers[id].pushed == s.subscribers[id].pushed
            && Waiting(s', id) == 1
            && s'.outstanding[Operation(id, AlarmOp)] == (if s'.subscribers[id].accepted then 1 else 0)
            && (s.subscribers[id].accepted ==> s'.subscribers[id].accepted)
  {
    FailedQueries(s, events, id);
    RunOwned(s, events);
    var s' := Run(s, events);
    assert s'.outstanding[Operation(id, RequestOp)] == Expected(s', Operation(id, RequestOp));
    assert s'.outstanding[Operation(id, AlarmOp)] == Expected(s', Operation(id, AlarmOp));
    assert s'.outstanding[Operation(id, WriteOp)] == Expected(s', Operation(id, WriteOp));
    assert s'.outstanding[Operation(id, FinishOp)] == Expected(s', Operation(id, FinishOp));
  }

  // ------------------------------------------------------------------ a failed Finish

  /** A tag whose Finish failed stays as it is in every later state: live, finished, with nothing to wait for. */
  lemma {:induction false} FailedFinishStays(s: System, events: seq<Event>, id: nat)
    requires Owned(s) && id in s.subscribers && s.subscribers[id].finishFailed
    ensures var s' := Run(s, events);
            id in s'.subscribers && s'.subscribers[id] == s.subscribers[id] && Waiting(s', id) == 0
    decreases |events|
  {
    assert s.outstanding[Operation(id, RequestOp)] == Expected(s, Operation(id, RequestOp));
    assert s.outstanding[Operation(id, AlarmOp)] == Expected(s, Operation(id, AlarmOp));
    assert s.outstanding[Operation(id, WriteOp)] == Expected(s, Operation(id, WriteOp));
    assert s.outstanding[Operation(id, FinishOp)] == Expected(s, Operation(id, FinishOp));
    if events != [] {
      var e := events[0];
      if e.op in s.outstanding {
        Taken(s, e.op);
      }
      DeliverOwned(s, e);
      DeliverLeavesOthers(s, e, id);
      FailedFinishStays(Deliver(s, e), events[1..], id);
    }
  }

  // ------------------------------------------------------------------ somebody listens

  /** The tags that wait for a Subscribe call. */
  function WaitingSubscribers(s: System): set<nat> {
    set id | id in s.subscribers && !s.subscribers[id].accepted && !s.subscribers[id].finished
  }

  /** A completion that costs a waiting subscribe tag: its request failed, or its successor could not be spawned. */
  predicate LosesSubscriber(s: System, e: Event) {
    e.op in s.outstanding && e.op.tag in WaitingSubscribers(s) && !(e.ok && e.databaseReady)
  }

  /** A completion that costs a GetEngineConfig tag: one of its operations failed, or its successor could not be spawned. */
  predicate LosesGetter(s: System, e: Event) {
    e.op in s.outstanding && e.op.tag in s.unaries
    && (!e.ok || (s.unaries[e.op.tag] == UnaryFinish && !e.databaseReady))
  }

  function SubscribersLost(s: System, events: seq<Event>): nat
    decreases |events|
  {
    if events == [] then 0 else
    (if LosesSubscriber(s, events[0]) then 1 else 0) + SubscribersLost(Deliver(s, events[0]), events[1..])
  }

  function GettersLost(s: System, events: seq<Event>): nat
    decreases |events|
  {
    if events == [] then 0 else
    (if LosesGetter(s, events[0]) then 1 else 0) + GettersLost(Deliver(s, events[0]), events[1..])
  }

  ghost predicate WellKept(s: System) {
    forall id :: id in s.subscribers ==> id < s.nextTag && FlagsAgree(s.subscribers[id])
  }

  lemma PollWaits(s: System, id: nat, version: nat)
    requires id in s.subscribers && s.subscribers[id].accepted
    ensures var s' := PollAndMaybeWrite(s, id, version);
            id in s'.subscribers && WaitingSubscribers(s') == WaitingSubscribers(s)
  {
  }

  lemma AcceptWaits(s: System, id: nat, e: Event)
    requires id in s.subscribers && WellKept(s) && s.subscribers[id].status == Accept
    ensures var s' := AcceptFirst(s, id, e);
            && id in s'.subscribers && s'.subscribers[id].accepted
            && WaitingSubscribers(s') ==
               WaitingSubscribers(s) - {id} +
               if id in WaitingSubscribers(s) && e.databaseReady then {s.nextTag} else {}
  {
    var s' := AcceptFirst(s, id, e);
    if !s.subscribers[id].accepted && e.databaseReady {
      assert s.nextTag in WaitingSubscribers(s');
    }
  }

  /** What a completion does to the waiting subscribe tags: at most it replaces the one concerned, or loses it. */
  lemma ProceedWaits(s: System, id: nat, e: Event)
    requires id in s.subscribers && WellKept(s)
    ensures WaitingSubscribers(ProceedSubscriber(s, id, e)) ==
            WaitingSubscribers(s) - {id} +
            if id in WaitingSubscribers(s) && e.ok && e.databaseReady then {s.nextTag} else {}
  {
    var t := s.subscribers[id];
    if e.ok && t.status == Accept {
      AcceptWaits(s, id, e);
      PollWaits(AcceptFirst(s, id, e), id, QueryVersion(e.query));
    }
  }

  lemma Replaced(a: set<nat>, x: nat, y: nat)
    requires y !in a
    ensures x in a ==> |a - {x} + {y}| == |a| && |a - {x} + {}| == |a| - 1
    ensures x !in a ==> a - {x} + {} == a
  {
    if x in a {
      assert |a - {x}| == |a| - 1 && a - {x} + {} == a - {x};
    }
  }

  lemma DeliverWaits(s: System, e: Event)
    requires Owned(s)
    ensures |WaitingSubscribers(Deliver(s, e))| == |WaitingSubscribers(s)| - if LosesSubscriber(s, e) then 1 else 0
  {
    if e.op in s.outstanding && e.op.tag in s.subscribers {
      var s1 := s.(outstanding := s.outstanding - multiset{e.op});
      assert WaitingSubscribers(s1) == WaitingSubscribers(s);
      ProceedWaits(s1, e.op.tag, e);
      Replaced(WaitingSubscribers(s), e.op.tag, s.nextTag);
    } else {
      assert WaitingSubscribers(Deliver(s, e)) == WaitingSubscribers(s);
    }
  }

  lemma SubscriberKeepsUnaries(s: System, id: nat, e: Event)
    requires id in s.subscribers
    ensures ProceedSubscriber(s, id, e).unaries == s.unaries
  {
    if e.ok && s.subscribers[id].status == Accept {
      var s1 := AcceptFirst(s, id, e);
      assert s1.unaries == s.unaries && id in s1.subscribers;
      PollKeepsUnaries(s1, id, QueryVersion(e.query));
    }
  }

  lemma PollKeepsUnaries(s: System, id: nat, version: nat)
    requires id in s.subscribers
    ensures PollAndMaybeWrite(s, id, version).unaries == s.unaries
  {
  }

  lemma UnaryKeys(s: System, id: nat, e: Event)
    requires id in s.unaries && id < s.nextTag && s.unaries[id] != UnaryCreate
    ensures ProceedUnary(s, id, e).unaries.Keys ==
            if !e.ok then s.unaries.Keys - {id} + {}
            else if s.unaries[id] == UnaryProcess then s.unaries.Keys
            else s.unaries.Keys - {id} + if e.databaseReady then {s.nextTag} else {}
  {
  }

  lemma DeliverGets(s: System, e: Event)
    requires Owned(s)
    ensures |Deliver(s, e).unaries| == |s.unaries| - if LosesGetter(s, e) then 1 else 0
  {
    var s' := Deliver(s, e);
    assert |s.unaries| == |s.unaries.Keys| && |s'.unaries| == |s'.unaries.Keys|;
    if e.op in s.outstanding {
      Taken(s, e.op);
      var s1 := s.(outstanding := s.outstanding - multiset{e.op});
      if e.op.tag in s.subscribers {
        SubscriberKeepsUnaries(s1, e.op.tag, e);
      } else {
        UnaryKeys(s1, e.op.tag, e);
        Replaced(s.unaries.Keys, e.op.tag, s.nextTag);
      }
    }
  }

  /**
    In every run the waiting subscribe tags and the GetEngineConfig tags are those there were, less one
    for each completion that lost one.  Nothing else matters: not what happens on open streams, and no
    tag that was lost is ever replaced.
  */
  lemma {:induction false} ListenersLeft(s: System, events: seq<Event>)
    requires Owned(s)
    ensures |WaitingSubscribers(Run(s, events))| + SubscribersLost(s, events) == |WaitingSubscribers(s)|
    ensures |Run(s, events).unaries| + GettersLost(s, events) == |s.unaries|
    decreases |events|
  {
    if events != [] {
      DeliverOwned(s, events[0]);
      DeliverWaits(s, events[0]);
      DeliverGets(s, events[0]);
      ListenersLeft(Deliver(s, events[0]), events[1..]);
    }
  }

  predicate Available(s: System) {
    |WaitingSubscribers(s)| == 1 && |s.unaries| == 1
  }

  /** No completion of the run costs a listener. */
  predicate Spared(s: System, events: seq<Event>)
    decreases |events|
  {
    events != [] ==>
      !LosesSubscriber(s, events[0]) && !LosesGetter(s, events[0]) && Spared(Deliver(s, events[0]), events[1..])
  }

  lemma {:induction false} SparedLosesNone(s: System, events: seq<Event>)
    ensures Spared(s, events) <==> SubscribersLost(s, events) == 0 && GettersLost(s, events) == 0
    decreases |events|
  {
    if events != [] {
      SparedLosesNone(Deliver(s, events[0]), events[1..]);
    }
  }

  /** From any owned state with its two listeners: they stay if and only if no completion costs one. */
  lemma AvailableIff(s: System, events: seq<Event>)
    requires Owned(s) && Available(s)
    ensures Available(Run(s, events)) <==> Spared(s, events)
    ensures SubscribersLost(s, events) > 0 ==> WaitingSubscribers(Run(s, events)) == {}
    ensures GettersLost(s, events) > 0 ==> Run(s, events).unaries == map[]
  {
    ListenersLeft(s, events);
    SparedLosesNone(s, events);
  }

  lemma StartAvailable()
    ensures Available(Start(true))
  {
    var s := Start(true);
    assert WaitingSubscribers(s) == {1} && s.unaries.Keys == {0} && |s.unaries| == |s.unaries.Keys|;
  }

  /**
    Listener availability.  A run leaves exactly one waiting subscribe tag and exactly one GetEngineConfig
    tag if and only if no completion on such a tag failed and none that spawns its successor found the
    database down.  Otherwise the kind that was lost is gone.
  */
  lemma ListenerAvailableIff(events: seq<Event>)
    ensures var s := Run(Start(true), events);
            && (Available(s) <==> Spared(Start(true), events))
            && |WaitingSubscribers(s)| <= 1 && |s.unaries| <= 1
            && (SubscribersLost(Start(true), events) > 0 ==> WaitingSubscribers(s) == {})
            && (GettersLost(Start(true), events) > 0 ==> s.unaries == map[])
  {
    StartOwned(true);
    StartAvailable();
    AvailableIff(Start(true), events);
    ListenersLeft(Start(true), events);
  }

  /** Listening does not recover: once no tag of a kind waits, none ever does again, whatever happens. */
  lemma SilenceStays(s: System, events: seq<Event>)
    requires Owned(s)
    ensures WaitingSubscribers(s) == {} ==> WaitingSubscribers(Run(s, events)) == {}
    ensures s.unaries == map[] ==> Run(s, events).unaries == map[]
  {
    ListenersLeft(s, events);
  }

  // ------------------------------------------------------------------ two runs that lose a tag

  const REQUEST_FAILS := Event(Operation(1, RequestOp), false, 0, Unavailable, true)
  const FINISH_FAILS := Event(Operation(1, FinishOp), false, 0, Unavailable, true)

  lemma RequestFails()
    ensures var s := Deliver(Start(true), REQUEST_FAILS);
            && WaitingSubscribers(s) == {} && s.subscribers.Keys == {1}
            && s.subscribers[1] == NEW_SUBSCRIBER.(status := Finish, finished := true)
            && FINISH_FAILS.op in s.outstanding
  {
    var s0 := Start(true);
    assert s0.subscribers == map[1 := NEW_SUBSCRIBER.(status := Accept)];
    assert s0.outstanding == multiset{Operation(0, RequestOp), Operation(1, RequestOp)};
    var s := Deliver(s0, REQUEST_FAILS);
    assert s.subscribers == map[1 := NEW_SUBSCRIBER.(status := Finish, finished := true)];
  }

  /**
    From the start, a failed request leaves no waiting subscribe tag; if the Finish that follows fails
    too, the tag stays for good.
  */
  lemma BothFail(events: seq<Event>)
    ensures WaitingSubscribers(Run(Start(true), [REQUEST_FAILS] + events)) == {}
    ensures var s := Run(Deliver(Deliver(Start(true), REQUEST_FAILS), FINISH_FAILS), events);
            1 in s.subscribers && s.subscribers[1].finishFailed && Waiting(s, 1) == 0
  {
    var s1 := Deliver(Start(true), REQUEST_FAILS);
    StartOwned(true);
    DeliverOwned(Start(true), REQUEST_FAILS);
    RequestFails();
    assert ([REQUEST_FAILS] + events)[1..] == events;
    SilenceStays(s1, events);
    FinishFails(s1);
    DeliverOwned(s1, FINISH_FAILS);
    FailedFinishStays(Deliver(s1, FINISH_FAILS), events, 1);
  }

  lemma FinishFails(s: System)
    requires FINISH_FAILS.op in s.outstanding && 1 in s.subscribers
    requires s.subscribers[1].status == Finish && s.subscribers[1].finished
    ensures var s' := Deliver(s, FINISH_FAILS); 1 in s'.subscribers && s'.subscribers[1].finishFailed
  {
  }
}
