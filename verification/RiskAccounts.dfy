/** Accounts do not interfere: what an account experiences in an interleaved run is what it would alone. */
module RiskAccounts {
  import opened RiskLedger

  function Only(s: State, account: string): State {
    map a | a in s && a == account :: s[a]
  }

  /** The requests that concern `account`, in order. */
  function Mine(reqs: seq<Request>, account: string): seq<Request> {
    if reqs == [] then [] else
    (if AccountOf(reqs[0]) == account then [reqs[0]] else []) + Mine(reqs[1..], account)
  }

  /** The replies to the requests that concern `account`, in order. */
  function RepliesFor(reqs: seq<Request>, replies: seq<Reply>, account: string): seq<Reply>
    requires |replies| == |reqs|
  {
    if reqs == [] then [] else
    (if AccountOf(reqs[0]) == account then [replies[0]] else []) + RepliesFor(reqs[1..], replies[1..], account)
  }

  lemma StepAlone(s: State, req: Request, account: string)
    ensures AccountOf(req) != account ==> Only(Step(s, req).0, account) == Only(s, account)
    ensures AccountOf(req) == account ==>
              Step(Only(s, account), req) == (Only(Step(s, req).0, account), Step(s, req).1)
  {
    if AccountOf(req) == account {
      assert Slot(Only(s, account), account) == Slot(s, account);
      assert Only(Step(s, req).0, account) == Step(Only(s, account), req).0;
    }
  }

  /** Serial projection: final ledger and replies of one account equal those of a run of its requests alone. */
  lemma {:induction false} SerialProjection(s: State, reqs: seq<Request>, account: string)
    ensures Run(Only(s, account), Mine(reqs, account)) ==
            (Only(Run(s, reqs).0, account), RepliesFor(reqs, Run(s, reqs).1, account))
    decreases |reqs|
  {
    if reqs != [] {
      var s1 := Step(s, reqs[0]).0;
      StepAlone(s, reqs[0], account);
      SerialProjection(s1, reqs[1..], account);
      var mine, rest := Mine(reqs, account), Mine(reqs[1..], account);
      var replies := Run(s, reqs).1;
      assert replies[1..] == Run(s1, reqs[1..]).1;
      if AccountOf(reqs[0]) == account {
        assert mine[0] == reqs[0] && mine[1..] == rest;
      } else {
        assert mine == rest;
        assert RepliesFor(reqs, replies, account) == RepliesFor(reqs[1..], replies[1..], account);
      }
    }
  }
}
