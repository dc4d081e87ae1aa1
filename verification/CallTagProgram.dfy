/**
  The call tags as a program: tags are objects that update themselves, start operations on the
  completion queue, create their successors and delete themselves.  `delete this` takes the tag out of
  the handler's table of live tags.  Every method is proved to take the step CallTags specifies.

  What a tag reads from outside while it handles a completion - the client's request, the version the
  database returns, whether the database is ready - comes with the event.
*/
module CallTagProgram {
  import opened ConfigScope
  import opened CallTags

  /** The system seen by one of its subscribers. */
  ghost function Only(s: System, id: nat): System
    requires id in s.subscribers
  {
    System(map[id := s.subscribers[id]], map[], s.outstanding, 0, s.pendingAlarmCancelled)
  }

  /** The system after one of its subscribers moved, alone, to the state `mine`. */
  ghost function Follow(s: System, id: nat, mine: System): System
    requires id in mine.subscribers
  {
    Put(s, id, mine.subscribers[id]).(outstanding := mine.outstanding, pendingAlarmCancelled := mine.pendingAlarmCancelled)
  }

  /** The step touches the moving tag and the queue only. */
  ghost predicate MovesAlone(s: System, id: nat, e: Event)
    requires id in s.subscribers
  {
    var mine := ProceedSubscriber(Only(s, id), id, e);
    mine.subscribers.Keys == {id} && ProceedSubscriber(s, id, e) == Follow(s, id, mine)
  }

  lemma CancelledAlone(s: System, id: nat, e: Event)
    requires id in s.subscribers && !e.ok && s.subscribers[id].status != Create
    ensures MovesAlone(s, id, e)
  {
    assert s.subscribers[id := s.subscribers[id]] == s.subscribers;
  }

  lemma RequestAlone(s: System, id: nat, e: Event)
    requires id in s.subscribers && s.subscribers[id].status == Create
    ensures MovesAlone(s, id, e)
  {
  }

  lemma PollAlone(s: System, id: nat, e: Event)
    requires id in s.subscribers && e.ok && s.subscribers[id].status == Accept && s.subscribers[id].accepted
    ensures MovesAlone(s, id, e)
  {
    assert s.subscribers[id := s.subscribers[id]] == s.subscribers;
  }

  lemma WriteAlone(s: System, id: nat, e: Event)
    requires id in s.subscribers && e.ok && s.subscribers[id].status == Write
    ensures MovesAlone(s, id, e)
  {
  }

  lemma CreatedThenRequested(s: System, e: Event)
    requires e.ok
    ensures ProceedSubscriber(Put(s, s.nextTag, NEW_SUBSCRIBER).(nextTag := s.nextTag + 1), s.nextTag, e) ==
            SpawnSubscriber(s, true)
  {
    assert s.subscribers[s.nextTag := NEW_SUBSCRIBER][s.nextTag := NEW_SUBSCRIBER.(status := Accept)] ==
           s.subscribers[s.nextTag := NEW_SUBSCRIBER.(status := Accept)];
  }

  lemma UnaryCreatedThenRequested(s: System, e: Event)
    requires e.ok
    ensures ProceedUnary(s.(unaries := s.unaries[s.nextTag := UnaryCreate], nextTag := s.nextTag + 1), s.nextTag, e) ==
            SpawnUnary(s, true)
  {
    assert s.unaries[s.nextTag := UnaryCreate][s.nextTag := UnaryProcess] == s.unaries[s.nextTag := UnaryProcess];
  }

  class CompletionQueue {
    var outstanding: multiset<Operation>
    /** Whether some alarm was cancelled while its operation was waiting. */
    var pendingAlarmCancelled: bool

    constructor ()
      ensures outstanding == multiset{} && !pendingAlarmCancelled
    {
      outstanding, pendingAlarmCancelled := multiset{}, false;
    }

    method Begin(tag: nat, kind: Kind)
      modifies this
      ensures outstanding == old(outstanding) + multiset{Operation(tag, kind)}
      ensures pendingAlarmCancelled == old(pendingAlarmCancelled)
    {
      outstanding := outstanding + multiset{Operation(tag, kind)};
    }

    /** The poller thread receives a waiting operation. */
    method Next(op: Operation)
      modifies this
      ensures outstanding == old(outstanding) - multiset{op}
      ensures pendingAlarmCancelled == old(pendingAlarmCancelled)
    {
      outstanding := outstanding - multiset{op};
    }

    method CancelAlarm(tag: nat)
      modifies this
      ensures outstanding == old(outstanding)
      ensures pendingAlarmCancelled == (old(pendingAlarmCancelled) || Operation(tag, AlarmOp) in outstanding)
    {
      if Operation(tag, AlarmOp) in outstanding {
        pendingAlarmCancelled := true;
      }
    }
  }

  class SubscribeConfigCallTag {
    const address: nat
    const handler: ConfigGrpcAsyncHandler
    var status: CallStatus
    var sinceVersion: nat
    var accepted: bool
    var writeInFlight: bool
    var finished: bool
    var outgoing: nat
    ghost var clientSince: nat
    ghost var polled: seq<nat>
    ghost var pushed: seq<nat>
    ghost var finishFailed: bool

    ghost function Value(): Subscriber
      reads this
    {
      Subscriber(status, sinceVersion, accepted, writeInFlight, finished, outgoing, clientSince, polled, pushed, finishFailed)
    }

    /** What the tag itself can change: its own fields and the queue, as a system of one tag. */
    ghost function Alone(): System
      reads this, handler.cq
    {
      System(map[address := Value()], map[], handler.cq.outstanding, 0, handler.cq.pendingAlarmCancelled)
    }

    /** The tag is alive: the handler knows it under its address. */
    ghost predicate Alive()
      reads handler
    {
      handler.Valid() && address in handler.subscribers && handler.subscribers[address] == this
    }

    constructor (handler: ConfigGrpcAsyncHandler)
      requires handler.Valid()
      modifies handler`subscribers, handler`unaries, handler`nextTag, handler.cq
      ensures this.handler == handler && handler.Valid()
      ensures handler.Value() == SpawnSubscriber(old(handler.Value()), true)
      ensures handler.subscribers == old(handler.subscribers)[old(handler.nextTag) := this]
      ensures handler.unaries == old(handler.unaries)
      decreases 1
    {
      this.handler := handler;
      address := handler.nextTag;
      status, sinceVersion, accepted, writeInFlight, finished, outgoing := Create, 0, false, false, false, 0;
      clientSince, polled, pushed, finishFailed := 0, [], [], false;
      new;
      ghost var s := handler.Value();
      handler.AddSubscriber(this);
      var created := Event(Operation(address, RequestOp), true, 0, Unavailable, true);
      Proceed(created);
      CreatedThenRequested(s, created);
    }

    method Proceed(e: Event)
      requires Alive()
      modifies this, handler`subscribers, handler`unaries, handler`nextTag, handler.cq
      ensures handler.Valid()
      ensures handler.Value() == ProceedSubscriber(old(handler.Value()), address, e)
      ensures old(status) == Create && e.ok ==>
                handler.subscribers == old(handler.subscribers) && handler.unaries == old(handler.unaries)
      decreases if status == Create then 0 else 4
    {
      handler.Knows(this);
      if !e.ok && status != Create {
        Cancelled(e);
      } else if status == Create {
        Request(e);
      } else if status == Accept {
        AcceptFirst(e);
        Poll(e);
      } else if status == Write {
        WriteDone(e);
      } else {
        handler.DeleteSubscriber(address);
      }
    }

    /** The first completion on this tag: takes over the request and lets the next tag listen. */
    method AcceptFirst(e: Event)
      requires Alive()
      modifies this, handler`subscribers, handler`unaries, handler`nextTag, handler.cq
      ensures Alive() && status == old(status) && accepted
      ensures handler.Value() == CallTags.AcceptFirst(old(handler.Value()), address, e)
      decreases 3
    {
      handler.Knows(this);
      if !accepted {
        TakeRequest(e);
        handler.SpawnSubscribeEngineConfig(e.databaseReady);
      }
    }

    method TakeRequest(e: Event)
      requires Alive()
      modifies this
      ensures status == old(status) && accepted
      ensures handler.Value() ==
              Put(old(handler.Value()), address,
                  old(Value()).(accepted := true, sinceVersion := e.requestSince, clientSince := e.requestSince))
    {
      ghost var s := handler.Value();
      accepted := true;
      sinceVersion := e.requestSince;
      clientSince := e.requestSince;
      handler.Stored(this, s);
    }

    // Each of the next four is one branch of Proceed; the tag moves alone and the handler follows.

    method Cancelled(e: Event)
      requires Alive() && !e.ok && status != Create
      modifies this, handler.cq
      ensures handler.Value() == ProceedSubscriber(old(handler.Value()), address, e)
    {
      ghost var s := handler.Value();
      handler.Knows(this);
      CancelledAlone(s, address, e);
      FinishOrFail();
      handler.Follows(this, s);
    }

    method Request(e: Event)
      requires Alive() && status == Create
      modifies this, handler.cq
      ensures handler.Value() == ProceedSubscriber(old(handler.Value()), address, e)
    {
      ghost var s := handler.Value();
      handler.Knows(this);
      RequestAlone(s, address, e);
      status := Accept;
      handler.cq.Begin(address, RequestOp);
      handler.Follows(this, s);
    }

    method Poll(e: Event)
      requires Alive() && e.ok && status == Accept && accepted
      modifies this, handler.cq
      ensures handler.Value() == ProceedSubscriber(old(handler.Value()), address, e)
    {
      ghost var s := handler.Value();
      handler.Knows(this);
      PollAlone(s, address, e);
      PollAndMaybeWrite(QueryVersion(e.query));
      if !finished && !writeInFlight {
        SchedulePoll();
      }
      handler.Follows(this, s);
    }

    method WriteDone(e: Event)
      requires Alive() && e.ok && status == Write
      modifies this, handler.cq
      ensures handler.Value() == ProceedSubscriber(old(handler.Value()), address, e)
    {
      ghost var s := handler.Value();
      handler.Knows(this);
      WriteAlone(s, address, e);
      ListenAgain();
      if !finished {
        SchedulePoll();
      }
      handler.Follows(this, s);
    }

    method ListenAgain()
      modifies this
      ensures Alone() == Put(old(Alone()), address,
                             old(Value()).(writeInFlight := false, sinceVersion := outgoing, status := Accept))
    {
      writeInFlight := false;
      sinceVersion := outgoing;
      status := Accept;
    }

    method SchedulePoll()
      modifies handler.cq
      ensures Alone() == CallTags.SchedulePoll(old(Alone()), address)
    {
      if finished {
        return;
      }
      handler.cq.Begin(address, AlarmOp);
    }

    method PollAndMaybeWrite(version: nat)
      modifies this, handler.cq
      ensures Alone() == CallTags.PollAndMaybeWrite(old(Alone()), address, version)
    {
      if finished || writeInFlight {
        return;
      }
      polled := polled + [version];
      if version <= sinceVersion {
        return;
      }
      outgoing := version;
      pushed := pushed + [version];
      writeInFlight := true;
      status := Write;
      handler.cq.Begin(address, WriteOp);
    }

    method FinishCall()
      modifies this, handler.cq
      ensures Alone() == CallTags.FinishCall(old(Alone()), address)
    {
      if finished {
        return;
      }
      finished := true;
      handler.cq.CancelAlarm(address);
      status := Finish;
      handler.cq.Begin(address, FinishOp);
    }

    /** FinishCall, noting in the history that a completion failed after the call was finished. */
    method FinishOrFail()
      modifies this, handler.cq
      ensures Alone() == CallTags.FinishCall(
        if old(finished) then Put(old(Alone()), address, old(Value()).(finishFailed := true)) else old(Alone()), address)
    {
      finishFailed := finishFailed || finished;
      FinishCall();
    }
  }

  class UnaryCallTag {
    const address: nat
    const handler: ConfigGrpcAsyncHandler
    var status: UnaryStatus

    ghost predicate Alive()
      reads handler
    {
      handler.Valid() && address in handler.unaries && handler.unaries[address] == this
    }

    constructor (handler: ConfigGrpcAsyncHandler)
      requires handler.Valid()
      modifies handler`subscribers, handler`unaries, handler`nextTag, handler.cq
      ensures this.handler == handler && handler.Valid()
      ensures handler.Value() == SpawnUnary(old(handler.Value()), true)
      ensures handler.unaries == old(handler.unaries)[old(handler.nextTag) := this]
      ensures handler.subscribers == old(handler.subscribers)
      decreases 1
    {
      this.handler := handler;
      address := handler.nextTag;
      status := UnaryCreate;
      new;
      ghost var s := handler.Value();
      handler.AddUnary(this);
      var created := Event(Operation(address, RequestOp), true, 0, Unavailable, true);
      Proceed(created);
      UnaryCreatedThenRequested(s, created);
    }

    method Proceed(e: Event)
      requires Alive()
      modifies this, handler`subscribers, handler`unaries, handler`nextTag, handler.cq
      ensures handler.Valid()
      ensures handler.Value() == ProceedUnary(old(handler.Value()), address, e)
      ensures old(status) == UnaryCreate && e.ok ==>
                handler.subscribers == old(handler.subscribers) && handler.unaries == old(handler.unaries)
      decreases if status == UnaryCreate then 0 else 3
    {
      handler.KnowsUnary(this);
      if !e.ok {
        handler.DeleteUnary(address);
      } else if status == UnaryCreate {
        Advance(UnaryProcess, RequestOp);
      } else if status == UnaryProcess {
        Advance(UnaryFinish, FinishOp);
      } else {
        handler.SpawnGetEngineConfig(e.databaseReady);
        handler.DeleteUnary(address);
      }
    }

    /** The next status and the operation started with it. */
    method Advance(next: UnaryStatus, kind: Kind)
      requires Alive()
      modifies this, handler.cq
      ensures handler.Value() ==
              Post(old(handler.Value()).(unaries := old(handler.Value()).unaries[address := next]), address, kind)
    {
      ghost var s := handler.Value();
      status := next;
      handler.cq.Begin(address, kind);
      handler.StoredUnary(this, s);
    }
  }

  class ConfigGrpcAsyncHandler {
    const cq: CompletionQueue
    /** The live tags by address, and the next free address. */
    var subscribers: map<nat, SubscribeConfigCallTag>
    var unaries: map<nat, UnaryCallTag>
    var nextTag: nat
    var started: bool

    ghost predicate Valid()
      reads this
    {
      && (forall id :: id in subscribers ==> id < nextTag && subscribers[id].address == id && subscribers[id].handler == this)
      && (forall id :: id in unaries ==> id < nextTag && unaries[id].address == id && unaries[id].handler == this)
    }

    ghost function Value(): System
      reads this, cq, subscribers.Values, unaries.Values
    {
      System(Subscribers(), Unaries(), cq.outstanding, nextTag, cq.pendingAlarmCancelled)
    }

    ghost function Subscribers(): map<nat, Subscriber>
      reads this, subscribers.Values
    {
      map id | id in subscribers :: subscribers[id].Value()
    }

    ghost function Unaries(): map<nat, UnaryStatus>
      reads this, unaries.Values
    {
      map id | id in unaries :: unaries[id].status
    }

    constructor ()
      ensures Valid() && Value() == EMPTY && !started && fresh(cq)
    {
      cq := new CompletionQueue();
      subscribers, unaries, nextTag, started := map[], map[], 0, false;
    }

    lemma Knows(tag: SubscribeConfigCallTag)
      requires tag.Alive() && tag.handler == this
      ensures tag.address in Value().subscribers && Value().subscribers[tag.address] == tag.Value()
      ensures Only(Value(), tag.address) == tag.Alone()
    {
    }

    lemma KnowsUnary(tag: UnaryCallTag)
      requires tag.Alive() && tag.handler == this
      ensures tag.address in Value().unaries && Value().unaries[tag.address] == tag.status
    {
    }

    /** After a tag changed its own fields, the handler's value is the old one with the tag's value put in. */
    lemma Stored(tag: SubscribeConfigCallTag, s: System)
      requires Valid() && tag.address in subscribers && subscribers[tag.address] == tag
      requires s.unaries == Unaries() && s.nextTag == nextTag
      requires s.subscribers.Keys == subscribers.Keys
      requires forall id :: id in subscribers && id != tag.address ==> s.subscribers[id] == subscribers[id].Value()
      ensures Value() == Put(s, tag.address, tag.Value()).(outstanding := cq.outstanding,
                                                           pendingAlarmCancelled := cq.pendingAlarmCancelled)
    {
      assert Subscribers() == s.subscribers[tag.address := tag.Value()];
    }

    lemma Follows(tag: SubscribeConfigCallTag, s: System)
      requires tag.Alive() && tag.handler == this
      requires s.unaries == Unaries() && s.nextTag == nextTag
      requires s.subscribers.Keys == subscribers.Keys
      requires forall id :: id in subscribers && id != tag.address ==> s.subscribers[id] == subscribers[id].Value()
      ensures Value() == Follow(s, tag.address, tag.Alone())
    {
      Stored(tag, s);
    }

    lemma StoredUnary(tag: UnaryCallTag, s: System)
      requires Valid() && tag.address in unaries && unaries[tag.address] == tag
      requires s.subscribers == Subscribers() && s.nextTag == nextTag
      requires s.unaries.Keys == unaries.Keys
      requires forall id :: id in unaries && id != tag.address ==> s.unaries[id] == unaries[id].status
      ensures Value() == s.(unaries := s.unaries[tag.address := tag.status], outstanding := cq.outstanding,
                            pendingAlarmCancelled := cq.pendingAlarmCancelled)
    {
      assert Unaries() == s.unaries[tag.address := tag.status];
    }

    method AddSubscriber(tag: SubscribeConfigCallTag)
      requires Valid() && tag.handler == this && tag.address == nextTag
      modifies `subscribers, `unaries, `nextTag
      ensures Valid() && unaries == old(unaries) && subscribers == old(subscribers)[tag.address := tag]
      ensures Value() == Put(old(Value()), tag.address, tag.Value()).(nextTag := tag.address + 1)
    {
      subscribers := subscribers[tag.address := tag];
      nextTag := tag.address + 1;
      assert Subscribers() == old(Subscribers())[tag.address := tag.Value()];
    }

    method AddUnary(tag: UnaryCallTag)
      requires Valid() && tag.handler == this && tag.address == nextTag
      modifies `subscribers, `unaries, `nextTag
      ensures Valid() && subscribers == old(subscribers) && unaries == old(unaries)[tag.address := tag]
      ensures Value() == old(Value()).(unaries := old(Value()).unaries[tag.address := tag.status], nextTag := tag.address + 1)
    {
      unaries := unaries[tag.address := tag];
      nextTag := tag.address + 1;
      assert Unaries() == old(Unaries())[tag.address := tag.status];
    }

    method SpawnSubscribeEngineConfig(databaseReady: bool)
      requires Valid()
      modifies `subscribers, `unaries, `nextTag, cq
      ensures Valid() && Value() == SpawnSubscriber(old(Value()), databaseReady)
      ensures forall id :: id in old(subscribers) ==> id in subscribers && subscribers[id] == old(subscribers)[id]
      ensures unaries == old(unaries)
      decreases 2
    {
      if !databaseReady {
        return;
      }
      var tag := new SubscribeConfigCallTag(this);
    }

    method SpawnGetEngineConfig(databaseReady: bool)
      requires Valid()
      modifies `subscribers, `unaries, `nextTag, cq
      ensures Valid() && Value() == SpawnUnary(old(Value()), databaseReady)
      ensures forall id :: id in old(unaries) ==> id in unaries && unaries[id] == old(unaries)[id]
      ensures subscribers == old(subscribers)
      decreases 2
    {
      if !databaseReady {
        return;
      }
      var tag := new UnaryCallTag(this);
    }

    method DeleteSubscriber(id: nat)
      requires Valid()
      modifies `subscribers, `unaries, `nextTag
      ensures Valid() && unaries == old(unaries) && subscribers == old(subscribers) - {id}
      ensures Value() == old(Value()).(subscribers := old(Value()).subscribers - {id})
    {
      subscribers := subscribers - {id};
      assert Value().subscribers == old(Value()).subscribers - {id};
    }

    method DeleteUnary(id: nat)
      requires Valid()
      modifies `subscribers, `unaries, `nextTag
      ensures Valid() && subscribers == old(subscribers) && unaries == old(unaries) - {id}
      ensures Value() == old(Value()).(unaries := old(Value()).unaries - {id})
    {
      unaries := unaries - {id};
      assert Value().unaries == old(Value()).unaries - {id};
    }

    /** Starting twice listens once; a start with the database down does nothing and can be repeated. */
    method Start(databaseReady: bool)
      requires Valid() && Owned(Value())
      modifies this, cq
      ensures Valid() && Owned(Value())
      ensures started == (old(started) || databaseReady)
      ensures old(started) ==> Value() == old(Value())
      ensures !old(started) ==> Value() == SpawnSubscriber(SpawnUnary(old(Value()), databaseReady), databaseReady)
      ensures !old(started) && old(Value()) == EMPTY ==> Value() == CallTags.Start(databaseReady)
    {
      SpawnUnaryOwned(Value(), databaseReady);
      SpawnSubscriberOwned(SpawnUnary(Value(), databaseReady), databaseReady);
      if started || !databaseReady {
        return;
      }
      SpawnGetEngineConfig(databaseReady);
      SpawnSubscribeEngineConfig(databaseReady);
      MarkStarted();
    }

    method MarkStarted()
      requires Valid()
      modifies this`started
      ensures started && Valid() && Value() == old(Value())
    {
      started := true;
      assert Subscribers() == old(Subscribers()) && Unaries() == old(Unaries());
    }

    /** One turn of the poller thread: a waiting operation completes and its tag, alive, proceeds. */
    method Dispatch(e: Event)
      requires Valid() && Owned(Value()) && e.op in cq.outstanding
      modifies `subscribers, `unaries, `nextTag, cq, subscribers.Values, unaries.Values
      ensures Valid() && Value() == Deliver(old(Value()), e) && Owned(Value())
    {
      DeliverOwned(Value(), e);
      Taken(Value(), e.op);
      Complete(e);
    }

    method Complete(e: Event)
      requires Valid() && e.op in cq.outstanding && (e.op.tag in subscribers || e.op.tag in unaries)
      modifies `subscribers, `unaries, `nextTag, cq, subscribers.Values, unaries.Values
      ensures Valid() && Value() == Deliver(old(Value()), e)
    {
      cq.Next(e.op);
      assert Subscribers() == old(Subscribers()) && Unaries() == old(Unaries());
      if e.op.tag in subscribers {
        subscribers[e.op.tag].Proceed(e);
      } else {
        unaries[e.op.tag].Proceed(e);
      }
    }
  }
}
