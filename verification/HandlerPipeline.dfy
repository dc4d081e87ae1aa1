/**
  GrpcHandlerInterface::Run: the fixed order of stages, the rollback flag, and the exception path, for
  a handler whose stages return any code or throw a std::exception in any pattern.
*/
module HandlerPipeline {
  datatype Code = Success | InternalError | SystemError | OtherError(n: nat)

  datatype Outcome = Returns(code: Code) | Throws

  datatype Stage =
    | CheckPermission
    | ConvertToServerData
    | ValidateParams
    | CheckPreconditions
    | ExecuteBusiness
    | VerifyExecutionEffective
    | NotifyService
    | BuildResponse

  /** How a handler behaves: each stage, whether conversion yields data, and whether the first rollback throws. */
  datatype Handler = Handler(stages: Stage -> Outcome, convertYieldsData: bool, firstRollbackThrows: bool)

  datatype Event = Called(stage: Stage) | RolledBack

  const ORDER: seq<Stage> := [
    CheckPermission, ConvertToServerData, ValidateParams, CheckPreconditions,
    ExecuteBusiness, VerifyExecutionEffective, NotifyService, BuildResponse]

  // ------------------------------------------------------------------ what the pipeline is for

  /** The stages whose failure must be undone. */
  predicate NeedsRollback(s: Stage) {
    s == ExecuteBusiness || s == VerifyExecutionEffective || s == BuildResponse
  }

  /** The pipeline does not get past this stage. */
  predicate Stops(h: Handler, s: Stage) {
    || h.stages(s).Throws?
    || (h.stages(s).code != Success && s != NotifyService)
    || (s == ConvertToServerData && !h.convertYieldsData)
  }

  /** The position of the first stage at or after `i` that stops the pipeline; 8 if none does. */
  function StopFrom(h: Handler, i: nat): (n: nat)
    requires i <= |ORDER|
    ensures i <= n <= |ORDER|
    ensures forall j :: i <= j < n ==> !Stops(h, ORDER[j])
    ensures n < |ORDER| ==> Stops(h, ORDER[n])
    decreases |ORDER| - i
  {
    if i == |ORDER| || Stops(h, ORDER[i]) then i else StopFrom(h, i + 1)
  }

  function CallsOf(stages: seq<Stage>): seq<Event> {
    seq(|stages|, i requires 0 <= i < |stages| => Called(stages[i]))
  }

  function Rollbacks(h: Handler, s: Stage): seq<Event> {
    if !NeedsRollback(s) then []
    else if h.stages(s).Returns? && h.firstRollbackThrows then [RolledBack, RolledBack]
    else [RolledBack]
  }

  function ResultAt(h: Handler, s: Stage): Code {
    if h.stages(s).Throws? then SystemError
    else if h.stages(s).code == Success then InternalError
    else if NeedsRollback(s) && h.firstRollbackThrows then SystemError
    else h.stages(s).code
  }

  /** The run a handler deserves: stages in order up to the first that stops it, then what undoing it takes. */
  function Deserved(h: Handler): (Code, seq<Event>) {
    var n := StopFrom(h, 0);
    if n == |ORDER| then (Success, CallsOf(ORDER))
    else (ResultAt(h, ORDER[n]), CallsOf(ORDER[..n + 1]) + Rollbacks(h, ORDER[n]))
  }

  // ------------------------------------------------------------------ the program

  datatype Exit = Returned(code: Code) | Threw

  lemma CallsSnoc(n: nat)
    requires n < |ORDER|
    ensures CallsOf(ORDER[..n + 1]) == CallsOf(ORDER[..n]) + [Called(ORDER[n])]
  {
  }

  lemma StoppedAt(h: Handler, n: nat)
    requires n < |ORDER| && Stops(h, ORDER[n]) && forall j :: 0 <= j < n ==> !Stops(h, ORDER[j])
    ensures StopFrom(h, 0) == n
  {
  }

  /** Calls stage number `n`, recording the call. */
  method Invoke(h: Handler, n: nat, trace: seq<Event>) returns (outcome: Outcome, trace': seq<Event>)
    requires n < |ORDER| && trace == CallsOf(ORDER[..n])
    requires forall j :: 0 <= j < n ==> !Stops(h, ORDER[j])
    ensures outcome == h.stages(ORDER[n]) && trace' == CallsOf(ORDER[..n + 1])
    ensures Stops(h, ORDER[n]) ==> StopFrom(h, 0) == n
  {
    CallsSnoc(n);
    if Stops(h, ORDER[n]) {
      StoppedAt(h, n);
    }
    outcome := h.stages(ORDER[n]);
    trace' := trace + [Called(ORDER[n])];
  }

  /** Undoes a failed stage from inside the try block; its own exception leaves the flag set. */
  method RollbackInTry(h: Handler, code: Code, trace: seq<Event>)
    returns (exit: Exit, rollbackOnException: bool, trace': seq<Event>)
    ensures trace' == trace + [RolledBack]
    ensures exit == (if h.firstRollbackThrows then Threw else Returned(code))
    ensures rollbackOnException == h.firstRollbackThrows
  {
    trace' := trace + [RolledBack];
    if h.firstRollbackThrows {
      return Threw, true, trace';
    }
    return Returned(code), false, trace';
  }

  /** How the try block ends: normally, with a code, or with an exception escaping (`Threw`). */
  predicate TryEnds(h: Handler, exit: Exit, hasData: bool, rollbackOnException: bool, trace: seq<Event>) {
    var n := StopFrom(h, 0);
    if n == |ORDER| then exit == Returned(Success) && trace == CallsOf(ORDER)
    else
      var s, called := ORDER[n], CallsOf(ORDER[..n + 1]);
      if h.stages(s).Throws? then
        exit == Threw && trace == called && (hasData && rollbackOnException <==> NeedsRollback(s))
      else if !NeedsRollback(s) then
        exit == Returned(ResultAt(h, s)) && trace == called
      else
        && trace == called + [RolledBack]
        && (if h.firstRollbackThrows then exit == Threw && hasData && rollbackOnException
            else exit == Returned(h.stages(s).code))
  }

  /** The stages before the business is executed; `done` if one of them stopped the run. */
  method TryEarlyStages(h: Handler)
    returns (done: bool, exit: Exit, hasData: bool, trace: seq<Event>)
    ensures done ==> TryEnds(h, exit, hasData, false, trace)
    ensures !done ==> hasData && trace == CallsOf(ORDER[..4]) && forall j :: 0 <= j < 4 ==> !Stops(h, ORDER[j])
  {
    done, hasData, exit, trace := true, false, Threw, [];
    var o: Outcome;
    o, trace := Invoke(h, 0, trace);
    if o.Throws? { return; }
    if o.code != Success { exit := Returned(o.code); return; }

    o, trace := Invoke(h, 1, trace);
    if o.Throws? { return; }
    if o.code != Success { exit := Returned(o.code); return; }
    if !h.convertYieldsData { exit := Returned(InternalError); return; }
    hasData := true;

    o, trace := Invoke(h, 2, trace);
    if o.Throws? { return; }
    if o.code != Success { exit := Returned(o.code); return; }

    o, trace := Invoke(h, 3, trace);
    if o.Throws? { return; }
    if o.code != Success { exit := Returned(o.code); return; }
    done := false;
  }

  /** The body of the try block. */
  method TryStages(h: Handler)
    returns (exit: Exit, hasData: bool, rollbackOnException: bool, trace: seq<Event>)
    ensures TryEnds(h, exit, hasData, rollbackOnException, trace)
  {
    var done: bool;
    done, exit, hasData, trace := TryEarlyStages(h);
    rollbackOnException := false;
    if done { return; }

    var o: Outcome;
    rollbackOnException := true;
    o, trace := Invoke(h, 4, trace);
    if o.Throws? { exit := Threw; return; }
    if o.code != Success {
      exit, rollbackOnException, trace := RollbackInTry(h, o.code, trace);
      return;
    }

    o, trace := Invoke(h, 5, trace);
    if o.Throws? { exit := Threw; return; }
    if o.code != Success {
      exit, rollbackOnException, trace := RollbackInTry(h, o.code, trace);
      return;
    }

    rollbackOnException := false;
    o, trace := Invoke(h, 6, trace);
    if o.Throws? { exit := Threw; return; }

    rollbackOnException := true;
    o, trace := Invoke(h, 7, trace);
    if o.Throws? { exit := Threw; return; }
    if o.code != Success {
      exit, rollbackOnException, trace := RollbackInTry(h, o.code, trace);
      return;
    }
    rollbackOnException := false;
    exit := Returned(Success);
    StoppedNowhere(h);
  }

  lemma StoppedNowhere(h: Handler)
    requires forall j :: 0 <= j < 8 ==> !Stops(h, ORDER[j])
    ensures StopFrom(h, 0) == |ORDER| && ORDER[..8] == ORDER
  {
  }

  method Run(h: Handler, contextIsNull: bool, requestIsNull: bool, responseIsNull: bool)
    returns (code: Code, trace: seq<Event>)
    ensures contextIsNull || requestIsNull || responseIsNull ==> code == InternalError && trace == []
    ensures !(contextIsNull || requestIsNull || responseIsNull) ==> (code, trace) == Deserved(h)
  {
    if contextIsNull { return InternalError, []; }
    if requestIsNull { return InternalError, []; }
    if responseIsNull { return InternalError, []; }

    var exit, hasData, rollbackOnException, calls := TryStages(h);
    ghost var n := StopFrom(h, 0);
    assert n < |ORDER| ==> CallsOf(ORDER[..n + 1]) + [] == CallsOf(ORDER[..n + 1]);
    assert n < |ORDER| ==>
        (CallsOf(ORDER[..n + 1]) + [RolledBack]) + [RolledBack] == CallsOf(ORDER[..n + 1]) + [RolledBack, RolledBack];
    if exit.Returned? {
      return exit.code, calls;
    }
    trace := calls;
    if rollbackOnException && hasData {
      // A second exception, from this rollback, is swallowed: it changes neither code nor trace.
      trace := trace + [RolledBack];
    }
    code := SystemError;
  }

  // ------------------------------------------------------------------ what follows from it

  function RollbackCount(trace: seq<Event>): nat {
    if trace == [] then 0 else (if trace[0].RolledBack? then 1 else 0) + RollbackCount(trace[1..])
  }

  lemma {:induction false} CountConcat(a: seq<Event>, b: seq<Event>)
    ensures RollbackCount(a + b) == RollbackCount(a) + RollbackCount(b)
    decreases |a|
  {
    if a == [] {
      assert a + b == b;
    } else {
      CountConcat(a[1..], b);
      assert (a + b)[1..] == a[1..] + b;
    }
  }

  lemma {:induction false} CountCalls(stages: seq<Stage>)
    ensures RollbackCount(CallsOf(stages)) == 0
    decreases |stages|
  {
    if stages != [] {
      CountCalls(stages[1..]);
      assert CallsOf(stages)[1..] == CallsOf(stages[1..]);
    }
  }

  /** The first stage that stops the pipeline, if any does, and how often it is rolled back. */
  lemma DeservedRollbacks(h: Handler)
    ensures var n := StopFrom(h, 0);
            RollbackCount(Deserved(h).1) ==
            if n == |ORDER| || !NeedsRollback(ORDER[n]) then 0
            else if h.stages(ORDER[n]).Returns? && h.firstRollbackThrows then 2 else 1
  {
    var n := StopFrom(h, 0);
    if n == |ORDER| {
      CountCalls(ORDER);
    } else {
      CountCalls(ORDER[..n + 1]);
      CountConcat(CallsOf(ORDER[..n + 1]), Rollbacks(h, ORDER[n]));
      CountTwo();
    }
  }

  lemma CountTwo()
    ensures RollbackCount([RolledBack]) == 1 && RollbackCount([RolledBack, RolledBack]) == 2
  {
    assert [RolledBack, RolledBack][1..] == [RolledBack] && [RolledBack][1..] == [];
  }

  /** Success means that every stage but the notification succeeded, and that the notification did not throw. */
  lemma SuccessIff(h: Handler)
    ensures Deserved(h).0 == Success <==>
            && h.convertYieldsData
            && (forall s :: s != NotifyService ==> h.stages(s) == Returns(Success))
            && !h.stages(NotifyService).Throws?
    ensures Deserved(h).0 == Success ==> Deserved(h).1 == CallsOf(ORDER)
  {
    var n := StopFrom(h, 0);
    if n == |ORDER| {
      assert !Stops(h, ORDER[0]) && !Stops(h, ORDER[1]) && !Stops(h, ORDER[2]) && !Stops(h, ORDER[3]);
      assert !Stops(h, ORDER[4]) && !Stops(h, ORDER[5]) && !Stops(h, ORDER[6]) && !Stops(h, ORDER[7]);
      forall s: Stage | s != NotifyService ensures h.stages(s) == Returns(Success) {
        match s {
          case CheckPermission => case ConvertToServerData => case ValidateParams => case CheckPreconditions =>
          case ExecuteBusiness => case VerifyExecutionEffective => case NotifyService => case BuildResponse =>
        }
      }
    }
  }

  /**
    Rollback discipline: nothing is rolled back for a failure before ExecuteBusiness or inside the
    notification; a rollback runs twice only if its first run threw; and every trace is the stages
    in order, then the rollbacks.
  */
  lemma RollbackDiscipline(h: Handler)
    ensures var n, trace := StopFrom(h, 0), Deserved(h).1;
            && (n < 4 || n == 6 || n == 8 ==> RollbackCount(trace) == 0)
            && (n == 4 || n == 5 || n == 7 ==> 1 <= RollbackCount(trace) <= 2)
            && (RollbackCount(trace) == 2 ==> h.firstRollbackThrows)
            && exists k :: 0 <= k <= |ORDER| && CallsOf(ORDER[..k]) <= trace
                 && forall i :: k <= i < |trace| ==> trace[i] == RolledBack
  {
    DeservedRollbacks(h);
    var n := StopFrom(h, 0);
    if n == |ORDER| {
      assert ORDER[..8] == ORDER;
    } else {
      assert CallsOf(ORDER[..n + 1]) <= Deserved(h).1;
    }
  }

  /** The stages by name, in order. */
  lemma StagesInOrder()
    ensures ORDER == [CheckPermission, ConvertToServerData, ValidateParams, CheckPreconditions,
                      ExecuteBusiness, VerifyExecutionEffective, NotifyService, BuildResponse]
  {
  }

  /** The answer of a run that stops at a stage: its own code, unless something was thrown or no data came out. */
  lemma FailureAnswers(h: Handler, s: Stage, n: nat)
    requires n == StopFrom(h, 0) < |ORDER| && s == ORDER[n]
    ensures h.stages(s).Throws? ==> Deserved(h).0 == SystemError
    ensures h.stages(s) == Returns(Success) ==>
              s == ConvertToServerData && !h.convertYieldsData && Deserved(h).0 == InternalError
    ensures h.stages(s).Returns? && h.stages(s).code != Success ==>
              s != NotifyService &&
              Deserved(h).0 ==
              if h.firstRollbackThrows && (s == ExecuteBusiness || s == VerifyExecutionEffective || s == BuildResponse)
              then SystemError else h.stages(s).code
  {
  }
}
