/**
  The completion queue and its self-owning call tags as a state machine on values.  Operations wait
  on the queue until the environment completes them, one at a time, with any `ok`; completing one
  runs `Proceed` of the tag that started it.
*/
module CallTags {
  import opened Wrappers
  import opened ConfigScope

  datatype Kind = RequestOp | AlarmOp | WriteOp | FinishOp

  datatype Operation = Operation(tag: nat, kind: Kind)

  datatype CallStatus = Create | Accept | Write | Finish

  /**
    A SubscribeConfigCallTag.  The last four fields are history: the version the client started from,
    every version polled, every version written, and whether the Finish operation itself failed.
  */
  datatype Subscriber = Subscriber(
    status: CallStatus, sinceVersion: nat, accepted: bool, writeInFlight: bool, finished: bool, outgoing: nat,
    clientSince: nat, polled: seq<nat>, pushed: seq<nat>, finishFailed: bool)

  const NEW_SUBSCRIBER := Subscriber(Create, 0, false, false, false, 0, 0, [], [], false)

  /** A UnaryCallTag's status. */
  datatype UnaryStatus = UnaryCreate | UnaryProcess | UnaryFinish

  /** The live tags by address, the waiting operations, and whether an alarm was ever cancelled while pending. */
  datatype System = System(
    subscribers: map<nat, Subscriber>, unaries: map<nat, UnaryStatus>, outstanding: multiset<Operation>,
    nextTag: nat, pendingAlarmCancelled: bool)

  const EMPTY := System(map[], map[], multiset{}, 0, false)

  // ------------------------------------------------------------------ steps of a subscriber

  function Post(s: System, id: nat, kind: Kind): System {
    s.(outstanding := s.outstanding + multiset{Operation(id, kind)})
  }

  function Put(s: System, id: nat, t: Subscriber): System {
    s.(subscribers := s.subscribers[id := t])
  }

  function SchedulePoll(s: System, id: nat): System
    requires id in s.subscribers
  {
    if s.subscribers[id].finished then s else Post(s, id, AlarmOp)
  }

  function PollAndMaybeWrite(s: System, id: nat, version: nat): System
    requires id in s.subscribers
  {
    var t := s.subscribers[id];
    if t.finished || t.writeInFlight then s else
    var t1 := t.(polled := t.polled + [version]);
    if version <= t.sinceVersion then Put(s, id, t1) else
    Post(Put(s, id, t1.(outgoing := version, writeInFlight := true, status := Write, pushed := t.pushed + [version])),
         id, WriteOp)
  }

  function FinishCall(s: System, id: nat): System
    requires id in s.subscribers
  {
    var t := s.subscribers[id];
    if t.finished then s else
    var s1 := s.(pendingAlarmCancelled := s.pendingAlarmCancelled || Operation(id, AlarmOp) in s.outstanding);
    Post(Put(s1, id, t.(finished := true, status := Finish)), id, FinishOp)
  }

  function SpawnSubscriber(s: System, databaseReady: bool): System {
    if !databaseReady then s else
    var id := s.nextTag;
    Post(Put(s, id, NEW_SUBSCRIBER.(status := Accept)), id, RequestOp).(nextTag := id + 1)
  }

  function SpawnUnary(s: System, databaseReady: bool): System {
    if !databaseReady then s else
    var id := s.nextTag;
    Post(s.(unaries := s.unaries[id := UnaryProcess]), id, RequestOp).(nextTag := id + 1)
  }

  /** A completed operation, and what the handler then reads: the request, the database and its readiness. */
  datatype Event = Event(op: Operation, ok: bool, requestSince: nat, query: QueryOutcome, databaseReady: bool)

  function AcceptFirst(s: System, id: nat, e: Event): System
    requires id in s.subscribers
  {
    var t := s.subscribers[id];
    if t.accepted then s else
    SpawnSubscriber(Put(s, id, t.(accepted := true, sinceVersion := e.requestSince, clientSince := e.requestSince)),
                    e.databaseReady)
  }

  function ProceedSubscriber(s: System, id: nat, e: Event): System
    requires id in s.subscribers
  {
    var t := s.subscribers[id];
    if !e.ok && t.status != Create then
      FinishCall(if t.finished then Put(s, id, t.(finishFailed := true)) else s, id)
    else match t.status
      case Create => Post(Put(s, id, t.(status := Accept)), id, RequestOp)
      case Accept =>
        var s1 := AcceptFirst(s, id, e);
        var s2 := PollAndMaybeWrite(s1, id, QueryVersion(e.query));
        var t2 := s2.subscribers[id];
        if !t2.finished && !t2.writeInFlight then SchedulePoll(s2, id) else s2
      case Write =>
        SchedulePoll(Put(s, id, t.(writeInFlight := false, sinceVersion := t.outgoing, status := Accept)), id)
      case Finish => s.(subscribers := s.subscribers - {id})
  }

  function ProceedUnary(s: System, id: nat, e: Event): System
    requires id in s.unaries
  {
    if !e.ok then s.(unaries := s.unaries - {id})
    else match s.unaries[id]
      case UnaryCreate => Post(s.(unaries := s.unaries[id := UnaryProcess]), id, RequestOp)
      case UnaryProcess => Post(s.(unaries := s.unaries[id := UnaryFinish]), id, FinishOp)
      case UnaryFinish =>
        var s1 := SpawnUnary(s, e.databaseReady);
        s1.(unaries := s1.unaries - {id})
  }

  /** Delivers an event if its operation is waiting; otherwise there is nothing to deliver. */
  function Deliver(s: System, e: Event): System {
    if e.op !in s.outstanding then s else
    var s1 := s.(outstanding := s.outstanding - multiset{e.op});
    if e.op.tag in s.subscribers then ProceedSubscriber(s1, e.op.tag, e)
    else if e.op.tag in s.unaries then ProceedUnary(s1, e.op.tag, e)
    else s1
  }

  /** The handler's Start. */
  function Start(databaseReady: bool): System {
    SpawnSubscriber(SpawnUnary(EMPTY, databaseReady), databaseReady)
  }

  function Run(s: System, events: seq<Event>): System
    decreases |events|
  {
    if events == [] then s else Run(Deliver(s, events[0]), events[1..])
  }

  // ------------------------------------------------------------------ ownership

  /** The one operation a subscriber waits for. */
  function Awaits(t: Subscriber): Option<Kind> {
    match t.status
    case Create => None
    case Accept => Some(if t.accepted then AlarmOp else RequestOp)
    case Write => Some(WriteOp)
    case Finish => if t.finishFailed then None else Some(FinishOp)
  }

  function UnaryAwaits(u: UnaryStatus): Option<Kind> {
    match u
    case UnaryCreate => None
    case UnaryProcess => Some(RequestOp)
    case UnaryFinish => Some(FinishOp)
  }

  /** How often an operation waits on the queue, judging by the tags alone. */
  function Expected(s: System, op: Operation): nat {
    if op.tag in s.subscribers then (if Awaits(s.subscribers[op.tag]) == Some(op.kind) then 1 else 0)
    else if op.tag in s.unaries then (if UnaryAwaits(s.unaries[op.tag]) == Some(op.kind) then 1 else 0)
    else 0
  }

  predicate FlagsAgree(t: Subscriber) {
    && t.status != Create
    && (t.finished <==> t.status == Finish)
    && (t.finishFailed ==> t.finished)
    && (t.status == Write ==> t.writeInFlight && t.accepted)
    && (t.status == Accept ==> !t.writeInFlight)
    && (!t.accepted ==> t.polled == [] && t.pushed == [])
  }

  ghost predicate Owned(s: System) {
    && (forall op: Operation :: s.outstanding[op] == Expected(s, op))
    && s.subscribers.Keys !! s.unaries.Keys
    && (forall id :: id in s.subscribers ==> id < s.nextTag && FlagsAgree(s.subscribers[id]))
    && (forall id :: id in s.unaries ==> id < s.nextTag && s.unaries[id] != UnaryCreate)
    && !s.pendingAlarmCancelled
  }

  /** While tag `id` handles its event, everything but its own operation is as ownership demands. */
  ghost predicate OwnedBut(s: System, id: nat) {
    && (forall op: Operation :: s.outstanding[op] == if op.tag == id then 0 else Expected(s, op))
    && s.subscribers.Keys !! s.unaries.Keys
    && (forall i :: i in s.subscribers && i != id ==> i < s.nextTag && FlagsAgree(s.subscribers[i]))
    && (forall i :: i in s.unaries && i != id ==> i < s.nextTag && s.unaries[i] != UnaryCreate)
    && id < s.nextTag
    && !s.pendingAlarmCancelled
  }

  lemma SpawnSubscriberOwned(s: System, databaseReady: bool)
    requires Owned(s)
    ensures Owned(SpawnSubscriber(s, databaseReady))
  {
    var s' := SpawnSubscriber(s, databaseReady);
    forall op: Operation ensures s'.outstanding[op] == Expected(s', op) {
      assert s.outstanding[op] == Expected(s, op);
    }
  }

  lemma SpawnUnaryOwned(s: System, databaseReady: bool)
    requires Owned(s)
    ensures Owned(SpawnUnary(s, databaseReady))
  {
    var s' := SpawnUnary(s, databaseReady);
    forall op: Operation ensures s'.outstanding[op] == Expected(s', op) {
      assert s.outstanding[op] == Expected(s, op);
    }
  }

  lemma SpawnSubscriberOwnedBut(s: System, id: nat, databaseReady: bool)
    requires OwnedBut(s, id)
    ensures OwnedBut(SpawnSubscriber(s, databaseReady), id)
  {
    var s' := SpawnSubscriber(s, databaseReady);
    forall op: Operation ensures s'.outstanding[op] == (if op.tag == id then 0 else Expected(s', op)) {
      assert s.outstanding[op] == if op.tag == id then 0 else Expected(s, op);
    }
  }

  lemma SpawnUnaryOwnedBut(s: System, id: nat, databaseReady: bool)
    requires OwnedBut(s, id)
    ensures OwnedBut(SpawnUnary(s, databaseReady), id)
  {
    var s' := SpawnUnary(s, databaseReady);
    forall op: Operation ensures s'.outstanding[op] == (if op.tag == id then 0 else Expected(s', op)) {
      assert s.outstanding[op] == if op.tag == id then 0 else Expected(s, op);
    }
  }

  lemma PutOwnedBut(s: System, id: nat, t: Subscriber)
    requires OwnedBut(s, id) && id !in s.unaries
    ensures OwnedBut(Put(s, id, t), id)
  {
    forall op: Operation
      ensures Put(s, id, t).outstanding[op] == (if op.tag == id then 0 else Expected(Put(s, id, t), op))
    {
      assert s.outstanding[op] == if op.tag == id then 0 else Expected(s, op);
    }
  }

  /** The tag's handling ends with `t` stored and exactly the operation it awaits, if any, started. */
  lemma Settles(s: System, id: nat, t: Subscriber)
    requires OwnedBut(s, id) && id !in s.unaries && FlagsAgree(t)
    ensures Awaits(t).Some? ==> Owned(Post(Put(s, id, t), id, Awaits(t).value))
    ensures Awaits(t).None? ==> Owned(Put(s, id, t))
  {
    var s' := if Awaits(t).Some? then Post(Put(s, id, t), id, Awaits(t).value) else Put(s, id, t);
    forall op: Operation ensures s'.outstanding[op] == Expected(s', op) {
      assert s.outstanding[op] == if op.tag == id then 0 else Expected(s, op);
    }
  }

  lemma Taken(s: System, op: Operation)
    requires Owned(s) && op in s.outstanding
    ensures OwnedBut(s.(outstanding := s.outstanding - multiset{op}), op.tag)
    ensures op.tag in s.subscribers || op.tag in s.unaries
    ensures op.tag in s.subscribers ==> Awaits(s.subscribers[op.tag]) == Some(op.kind)
    ensures op.tag in s.unaries ==> UnaryAwaits(s.unaries[op.tag]) == Some(op.kind)
  {
    var s' := s.(outstanding := s.outstanding - multiset{op});
    assert s.outstanding[op] == Expected(s, op);
    forall o: Operation ensures s'.outstanding[o] == (if o.tag == op.tag then 0 else Expected(s', o)) {
      assert s.outstanding[o] == Expected(s, o);
    }
  }

  lemma SubscriberOwned(s: System, id: nat, e: Event)
    requires OwnedBut(s, id) && id in s.subscribers && id !in s.unaries && FlagsAgree(s.subscribers[id])
    ensures Owned(ProceedSubscriber(s, id, e))
  {
    var t := s.subscribers[id];
    var s' := ProceedSubscriber(s, id, e);
    if !e.ok {
      if t.finished {
        Settles(s, id, t.(finishFailed := true));
      } else {
        assert s.outstanding[Operation(id, AlarmOp)] == 0;
        Settles(s, id, t.(finished := true, status := Finish));
      }
    } else if t.status == Accept {
      var s1 := AcceptFirst(s, id, e);
      var t1 := t.(accepted := true, sinceVersion := e.requestSince, clientSince := e.requestSince);
      if !t.accepted {
        PutOwnedBut(s, id, t1);
        SpawnSubscriberOwnedBut(Put(s, id, t1), id, e.databaseReady);
      }
      assert OwnedBut(s1, id) && id !in s1.unaries;
      var v := QueryVersion(e.query);
      Polls(s1, id, v);
    } else if t.status == Write {
      var t1 := t.(writeInFlight := false, sinceVersion := t.outgoing, status := Accept);
      Settles(s, id, t1);
    } else {
      forall op: Operation ensures s'.outstanding[op] == Expected(s', op) {
        assert s.outstanding[op] == if op.tag == id then 0 else Expected(s, op);
      }
    }
  }

  lemma Polls(s: System, id: nat, version: nat)
    requires OwnedBut(s, id) && id in s.subscribers && id !in s.unaries && FlagsAgree(s.subscribers[id])
    requires s.subscribers[id].status == Accept && s.subscribers[id].accepted
    ensures var s2 := PollAndMaybeWrite(s, id, version);
            var t2 := s2.subscribers[id];
            Owned(if !t2.finished && !t2.writeInFlight then SchedulePoll(s2, id) else s2)
  {
    var t := s.subscribers[id];
    var t1 := t.(polled := t.polled + [version]);
    Settles(s, id, t1);
    Settles(s, id, t1.(outgoing := version, writeInFlight := true, status := Write, pushed := t.pushed + [version]));
  }

  /** A unary tag's handling ends with `u` stored and the operation it awaits started. */
  lemma UnarySettles(s: System, id: nat, u: UnaryStatus)
    requires OwnedBut(s, id) && id !in s.subscribers && u != UnaryCreate
    ensures Owned(Post(s.(unaries := s.unaries[id := u]), id, UnaryAwaits(u).value))
  {
    var s' := Post(s.(unaries := s.unaries[id := u]), id, UnaryAwaits(u).value);
    forall op: Operation ensures s'.outstanding[op] == Expected(s', op) {
      assert s.outstanding[op] == if op.tag == id then 0 else Expected(s, op);
    }
  }

  lemma UnaryLeaves(s: System, id: nat)
    requires OwnedBut(s, id) && id !in s.subscribers
    ensures Owned(s.(unaries := s.unaries - {id}))
  {
    var s' := s.(unaries := s.unaries - {id});
    forall op: Operation ensures s'.outstanding[op] == Expected(s', op) {
      assert s.outstanding[op] == if op.tag == id then 0 else Expected(s, op);
    }
  }

  lemma UnaryOwned(s: System, id: nat, e: Event)
    requires OwnedBut(s, id) && id in s.unaries && id !in s.subscribers && s.unaries[id] != UnaryCreate
    ensures Owned(ProceedUnary(s, id, e))
  {
    if !e.ok {
      UnaryLeaves(s, id);
    } else if s.unaries[id] == UnaryProcess {
      UnarySettles(s, id, UnaryFinish);
    } else {
      SpawnUnaryOwnedBut(s, id, e.databaseReady);
      UnaryLeaves(SpawnUnary(s, e.databaseReady), id);
    }
  }

  lemma DeliverOwned(s: System, e: Event)
    requires Owned(s)
    ensures Owned(Deliver(s, e))
  {
    if e.op in s.outstanding {
      var s1 := s.(outstanding := s.outstanding - multiset{e.op});
      Taken(s, e.op);
      if e.op.tag in s.subscribers {
        SubscriberOwned(s1, e.op.tag, e);
      } else {
        UnaryOwned(s1, e.op.tag, e);
      }
    }
  }

  lemma {:induction false} RunOwned(s: System, events: seq<Event>)
    requires Owned(s)
    ensures Owned(Run(s, events))
    decreases |events|
  {
    if events != [] {
      DeliverOwned(s, events[0]);
      RunOwned(Deliver(s, events[0]), events[1..]);
    }
  }

  lemma StartOwned(databaseReady: bool)
    ensures Owned(Start(databaseReady))
  {
    assert Owned(EMPTY);
    SpawnUnaryOwned(EMPTY, databaseReady);
    SpawnSubscriberOwned(SpawnUnary(EMPTY, databaseReady), databaseReady);
  }

  /** How many operations wait on the queue for a tag. */
  function Waiting(s: System, id: nat): nat {
    s.outstanding[Operation(id, RequestOp)] + s.outstanding[Operation(id, AlarmOp)] +
    s.outstanding[Operation(id, WriteOp)] + s.outstanding[Operation(id, FinishOp)]
  }

  /**
    Queue ownership.  In every reachable state each live tag has exactly one waiting operation, except
    a subscriber whose Finish operation came back failed, which has none; no operation belongs to a
    deleted tag; and no alarm was cancelled while pending.
  */
  lemma QueueOwnership(databaseReady: bool, events: seq<Event>, id: nat)
    ensures var s := Run(Start(databaseReady), events);
            && Waiting(s, id) == (if id in s.subscribers then (if s.subscribers[id].finishFailed then 0 else 1)
                                  else if id in s.unaries then 1 else 0)
            && !s.pendingAlarmCancelled
  {
    StartOwned(databaseReady);
    RunOwned(Start(databaseReady), events);
    var s := Run(Start(databaseReady), events);
    assert s.outstanding[Operation(id, RequestOp)] == Expected(s, Operation(id, RequestOp));
    assert s.outstanding[Operation(id, AlarmOp)] == Expected(s, Operation(id, AlarmOp));
    assert s.outstanding[Operation(id, WriteOp)] == Expected(s, Operation(id, WriteOp));
    assert s.outstanding[Operation(id, FinishOp)] == Expected(s, Operation(id, FinishOp));
  }
}
