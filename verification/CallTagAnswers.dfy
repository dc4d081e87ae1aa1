/**
  What each completion does for the client: a failed operation finishes an open stream, a received
  GetEngineConfig request is answered, and an answered call makes room for the next.
*/
module CallTagAnswers {
  import opened Wrappers
  import opened ConfigScope
  import opened CallTags
  import opened CallTagStreams

  /** What waits on the queue for tag `id`: one operation of this kind and nothing else. */
  ghost predicate WaitsOnlyFor(s: System, id: nat, kind: Kind) {
    s.outstanding[Operation(id, kind)] == 1 && forall k: Kind :: k != kind ==> s.outstanding[Operation(id, k)] == 0
  }

  lemma OwnedWaits(s: System, id: nat, kind: Kind)
    requires Owned(s)
    requires (id in s.subscribers && Awaits(s.subscribers[id]) == Some(kind)) ||
             (id in s.unaries && UnaryAwaits(s.unaries[id]) == Some(kind))
    ensures WaitsOnlyFor(s, id, kind)
  {
    forall k: Kind ensures s.outstanding[Operation(id, k)] == if k == kind then 1 else 0 {
      assert s.outstanding[Operation(id, k)] == Expected(s, Operation(id, k));
    }
  }

  // ------------------------------------------------------------------ streams

  lemma FailureStep(s: System, id: nat, e: Event)
    requires id in s.subscribers && FlagsAgree(s.subscribers[id]) && !e.ok && !s.subscribers[id].finished
    ensures var s' := ProceedSubscriber(s, id, e);
            s'.unaries == s.unaries && s'.nextTag == s.nextTag &&
            s'.subscribers == s.subscribers[id := s.subscribers[id].(finished := true, status := Finish)]
  {
  }

  /**
    A failed operation finishes its stream, whatever it was: the tag keeps its history and the version it
    has reached, waits for the Finish it started and for nothing else, and no other tag is touched.
  */
  lemma FailureFinishes(s: System, e: Event)
    requires Owned(s) && e.op in s.outstanding && e.op.tag in s.subscribers
    requires !e.ok && !s.subscribers[e.op.tag].finished
    ensures var s', id := Deliver(s, e), e.op.tag;
            && s'.unaries == s.unaries && s'.nextTag == s.nextTag
            && s'.subscribers == s.subscribers[id := s.subscribers[id].(finished := true, status := Finish)]
            && WaitsOnlyFor(s', id, FinishOp)
  {
    var s1 := s.(outstanding := s.outstanding - multiset{e.op});
    Taken(s, e.op);
    FailureStep(s1, e.op.tag, e);
    DeliverOwned(s, e);
    OwnedWaits(Deliver(s, e), e.op.tag, FinishOp);
  }

  lemma AcceptFinishesNone(s: System, id: nat, e: Event, other: nat)
    requires id in s.subscribers && other in s.subscribers && other < s.nextTag
    ensures var s' := AcceptFirst(s, id, e);
            id in s'.subscribers && other in s'.subscribers && s'.subscribers[other].finished == s.subscribers[other].finished
  {
  }

  lemma PollFinishesNone(s: System, id: nat, version: nat, other: nat)
    requires id in s.subscribers && other in s.subscribers
    ensures var s' := PollAndMaybeWrite(s, id, version);
            id in s'.subscribers && other in s'.subscribers && s'.subscribers[other].finished == s.subscribers[other].finished
  {
  }

  /** A successful completion never finishes a stream. */
  lemma SuccessFinishesNone(s: System, e: Event, other: nat)
    requires Owned(s) && e.ok && other in s.subscribers
    ensures var s' := Deliver(s, e);
            other in s'.subscribers ==> s'.subscribers[other].finished == s.subscribers[other].finished
  {
    if e.op in s.outstanding && e.op.tag in s.subscribers {
      var id := e.op.tag;
      var s1 := s.(outstanding := s.outstanding - multiset{e.op});
      if s.subscribers[id].status == Accept {
        AcceptFinishesNone(s1, id, e, other);
        PollFinishesNone(AcceptFirst(s1, id, e), id, QueryVersion(e.query), other);
      }
    }
  }

  lemma WrittenStep(s: System, id: nat, e: Event)
    requires id in s.subscribers && e.ok && FlagsAgree(s.subscribers[id]) && s.subscribers[id].status == Write
    ensures var s', t := ProceedSubscriber(s, id, e), s.subscribers[id];
            s'.subscribers == s.subscribers[id := t.(writeInFlight := false, sinceVersion := t.outgoing, status := Accept)]
  {
  }

  /** A successful write moves the stream to the version written and sets its alarm; nothing is pushed. */
  lemma WriteAcknowledged(s: System, e: Event)
    requires Owned(s) && e.op in s.outstanding && e.op.tag in s.subscribers && e.ok && e.op.kind == WriteOp
    ensures var s', id := Deliver(s, e), e.op.tag;
            && s'.subscribers ==
               s.subscribers[id := s.subscribers[id].(writeInFlight := false, sinceVersion := s.subscribers[id].outgoing,
                                                      status := Accept)]
            && WaitsOnlyFor(s', id, AlarmOp)
  {
    var s1 := s.(outstanding := s.outstanding - multiset{e.op});
    Taken(s, e.op);
    WrittenStep(s1, e.op.tag, e);
    DeliverOwned(s, e);
    OwnedWaits(Deliver(s, e), e.op.tag, AlarmOp);
  }

  /** A successful Finish deletes the tag and touches no other. */
  lemma FinishDeletes(s: System, e: Event)
    requires Owned(s) && e.op in s.outstanding && e.op.tag in s.subscribers && e.ok && e.op.kind == FinishOp
    ensures Deliver(s, e).subscribers == s.subscribers - {e.op.tag} && Deliver(s, e).unaries == s.unaries
  {
    Taken(s, e.op);
  }

  // ------------------------------------------------------------------ GetEngineConfig

  /** A received request is answered: the tag waits for the Finish of its answer and for nothing else. */
  lemma RequestAnswered(s: System, e: Event)
    requires Owned(s) && e.op in s.outstanding && e.op.tag in s.unaries && e.ok && e.op.kind == RequestOp
    ensures var s', id := Deliver(s, e), e.op.tag;
            s'.unaries == s.unaries[id := UnaryFinish] && s'.subscribers == s.subscribers && WaitsOnlyFor(s', id, FinishOp)
  {
    Taken(s, e.op);
    DeliverOwned(s, e);
    OwnedWaits(Deliver(s, e), e.op.tag, FinishOp);
  }

  /** An answered call is over: its tag is gone and, with the database ready, a fresh one waits for the next request. */
  lemma AnswerRespawns(s: System, e: Event)
    requires Owned(s) && e.op in s.outstanding && e.op.tag in s.unaries && e.ok && e.op.kind == FinishOp
    ensures var s', id := Deliver(s, e), e.op.tag;
            && s'.subscribers == s.subscribers && id !in s'.unaries
            && s'.unaries.Keys == s.unaries.Keys - {id} + (if e.databaseReady then {s.nextTag} else {})
            && (e.databaseReady ==> s.nextTag !in s.unaries && WaitsOnlyFor(s', s.nextTag, RequestOp))
  {
    Taken(s, e.op);
    DeliverOwned(s, e);
    if e.databaseReady {
      OwnedWaits(Deliver(s, e), s.nextTag, RequestOp);
    }
  }

  /** The completion hands a GetEngineConfig request to its tag. */
  predicate ReceivesRequest(s: System, e: Event) {
    e.op in s.outstanding && e.op.tag in s.unaries && e.ok && e.op.kind == RequestOp
  }

  /** The step starts the answer to some GetEngineConfig call: a Finish waits that did not wait before. */
  ghost predicate StartsAnswer(s: System, s': System) {
    exists id :: id in s'.unaries && Operation(id, FinishOp) in s'.outstanding && Operation(id, FinishOp) !in s.outstanding
  }

  lemma AnswersExactly(s: System, e: Event)
    requires Owned(s)
    ensures StartsAnswer(s, Deliver(s, e)) <==> ReceivesRequest(s, e)
  {
    var s' := Deliver(s, e);
    DeliverOwned(s, e);
    if ReceivesRequest(s, e) {
      Taken(s, e.op);
      RequestAnswered(s, e);
      assert s.outstanding[Operation(e.op.tag, FinishOp)] == Expected(s, Operation(e.op.tag, FinishOp));
    } else {
      forall id | id in s'.unaries && Operation(id, FinishOp) in s'.outstanding ensures Operation(id, FinishOp) in s.outstanding {
        assert s'.outstanding[Operation(id, FinishOp)] == Expected(s', Operation(id, FinishOp));
        assert s.outstanding[Operation(id, FinishOp)] == Expected(s, Operation(id, FinishOp));
        OtherAnswers(s, e, id);
      }
    }
  }

  lemma OtherAnswers(s: System, e: Event, id: nat)
    requires Owned(s) && !ReceivesRequest(s, e) && id in Deliver(s, e).unaries && Deliver(s, e).unaries[id] == UnaryFinish
    ensures id in s.unaries && s.unaries[id] == UnaryFinish
  {
    if e.op in s.outstanding {
      Taken(s, e.op);
      if e.op.tag in s.subscribers {
        SubscriberKeepsUnaries(s.(outstanding := s.outstanding - multiset{e.op}), e.op.tag, e);
      }
    }
  }

  function RequestsReceived(s: System, events: seq<Event>): nat
    decreases |events|
  {
    if events == [] then 0 else
    (if ReceivesRequest(s, events[0]) then 1 else 0) + RequestsReceived(Deliver(s, events[0]), events[1..])
  }

  ghost function AnswersStarted(s: System, events: seq<Event>): nat
    decreases |events|
  {
    if events == [] then 0 else
    (if StartsAnswer(s, Deliver(s, events[0])) then 1 else 0) + AnswersStarted(Deliver(s, events[0]), events[1..])
  }

  /** In every run as many answers are started as GetEngineConfig requests are received. */
  lemma {:induction false} EveryRequestAnswered(s: System, events: seq<Event>)
    requires Owned(s)
    ensures AnswersStarted(s, events) == RequestsReceived(s, events)
    decreases |events|
  {
    if events != [] {
      AnswersExactly(s, events[0]);
      DeliverOwned(s, events[0]);
      EveryRequestAnswered(Deliver(s, events[0]), events[1..]);
    }
  }

  /** The request of the first GetEngineConfig tag, answered, leaves the next tag listening. */
  lemma FirstCallServed(request: Event, answer: Event)
    requires request.op == Operation(0, RequestOp) && answer.op == Operation(0, FinishOp)
    requires request.ok && answer.ok && answer.databaseReady
    ensures var s := Run(Start(true), [request, answer]);
            s.unaries.Keys == {2} && WaitsOnlyFor(s, 2, RequestOp) && RequestsReceived(Start(true), [request, answer]) == 1
  {
    var s0 := Start(true);
    StartOwned(true);
    assert s0.unaries == map[0 := UnaryProcess] && s0.nextTag == 2;
    assert s0.outstanding == multiset{Operation(0, RequestOp), Operation(1, RequestOp)};
    RequestAnswered(s0, request);
    var s1 := Deliver(s0, request);
    DeliverOwned(s0, request);
    assert s1.nextTag == 2 && s1.unaries.Keys == {0};
    AnswerRespawns(s1, answer);
    var s2 := Deliver(s1, answer);
    assert [request, answer][1..] == [answer] && [answer][1..] == [];
    assert Run(s1, [answer]) == Run(s2, []) == s2;
    assert RequestsReceived(s2, []) == 0;
    assert RequestsReceived(s1, [answer]) == 0;
  }
}
