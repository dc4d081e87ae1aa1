/** Histories of the account service, with database failures anywhere: what a successful read returns. */
module AccountRuns {
  import opened SqlEngine
  import opened AccountStore
  import opened AccountService
  import opened Wrappers

  /** A history: the plain map before the first call and after each one, every step as the methods promise. */
  ghost predicate IsHistory(maps: seq<Accounts>, calls: seq<Call>, replies: seq<Reply>) {
    && |maps| == |calls| + 1 && |replies| == |calls|
    && forall i :: 0 <= i < |calls| ==> Next(maps[i], calls[i], maps[i + 1], replies[i])
  }

  /** Serving any calls, with the database failing anywhere, makes a history that starts at the service's map. */
  method ServeCalls(service: AccountGrpcService, calls: seq<Call>) returns (replies: seq<Reply>, ghost maps: seq<Accounts>)
    requires service.Valid()
    modifies service, service.connection
    ensures service.Valid() && IsHistory(maps, calls, replies)
    ensures maps[0] == old(service.accounts) && maps[|calls|] == service.accounts
  {
    replies, maps := [], [service.accounts];
    for i := 0 to |calls|
      invariant service.Valid() && IsHistory(maps, calls[..i], replies)
      invariant maps[0] == old(service.accounts) && maps[i] == service.accounts
    {
      var reply;
      ghost var before := service.accounts;
      match calls[i] {
        case Add(account) => reply := service.AddAccount(account);
        case Update(account) => reply := service.UpdateAccount(account);
        case Get(accountId, engineId) => reply := service.GetCredential(accountId, engineId);
      }
      HistoryGrows(maps, calls[..i], replies, calls[i], service.accounts, reply);
      assert calls[..i + 1] == calls[..i] + [calls[i]];
      maps := maps + [service.accounts];
      replies := replies + [reply];
    }
    assert calls[..|calls|] == calls;
  }

  lemma HistoryGrows(maps: seq<Accounts>, calls: seq<Call>, replies: seq<Reply>, call: Call, after: Accounts, reply: Reply)
    requires IsHistory(maps, calls, replies) && Next(maps[|calls|], call, after, reply)
    ensures IsHistory(maps + [after], calls + [call], replies + [reply])
  {
  }

  /** The call sets the password of `account`. */
  predicate SetsPassword(call: Call, account: string) {
    !call.Get? && call.account.Some? && call.account.value.accountId == account && call.account.value.password != ""
  }

  /** The password call was answered with success, that is, committed. */
  predicate CommitsPassword(call: Call, reply: Reply, account: string) {
    SetsPassword(call, account) && reply.code == Success
  }

  lemma StepPassword(before: Accounts, call: Call, after: Accounts, reply: Reply, account: string)
    requires Next(before, call, after, reply)
    ensures account in before ==> account in after
    ensures CommitsPassword(call, reply, account) ==>
              account in after && after[account].password == call.account.value.password
    ensures !CommitsPassword(call, reply, account) && account in after ==>
              account in before && after[account].password == before[account].password
  {
  }

  /** The password of `account` was last committed by call number `w`, none later before `n`. */
  ghost predicate LastCommitted(calls: seq<Call>, replies: seq<Reply>, account: string, w: nat, n: nat, password: string)
    requires n <= |calls| == |replies|
  {
    && w < n && CommitsPassword(calls[w], replies[w], account) && password == calls[w].account.value.password
    && forall i :: w < i < n ==> !CommitsPassword(calls[i], replies[i], account)
  }

  /** The account was there with this password from the start, and none was committed before `n`. */
  ghost predicate NeverCommitted(start: Accounts, calls: seq<Call>, replies: seq<Reply>, account: string, n: nat, password: string)
    requires n <= |calls| == |replies|
  {
    && account in start && password == start[account].password
    && forall i :: 0 <= i < n ==> !CommitsPassword(calls[i], replies[i], account)
  }

  /** An account that exists at time `n` has the password of the last committed password call before, or its first one. */
  lemma {:induction false} LastWriter(maps: seq<Accounts>, calls: seq<Call>, replies: seq<Reply>, n: nat, account: string)
    requires IsHistory(maps, calls, replies) && n <= |calls| && account in maps[n]
    ensures var password := maps[n][account].password;
            || (exists w: nat :: LastCommitted(calls, replies, account, w, n, password))
            || NeverCommitted(maps[0], calls, replies, account, n, password)
  {
    if n > 0 {
      var password := maps[n][account].password;
      StepPassword(maps[n - 1], calls[n - 1], maps[n], replies[n - 1], account);
      if CommitsPassword(calls[n - 1], replies[n - 1], account) {
        assert LastCommitted(calls, replies, account, n - 1, n, password);
      } else {
        var before := n - 1;
        LastWriter(maps, calls, replies, before, account);
        if w: nat :| LastCommitted(calls, replies, account, w, before, password) {
          assert LastCommitted(calls, replies, account, w, n, password);
        }
      }
    }
  }

  lemma GetAnswers(before: Accounts, call: Call, after: Accounts, reply: Reply)
    requires Next(before, call, after, reply) && call.Get? && reply.code == Success
    ensures call.accountId in before && reply.credential.Some?
    ensures reply.credential.value.password == before[call.accountId].password
  {
  }

  /** A successful GetCredential returns the last committed password of its account, or the one it started with. */
  lemma CredentialIsLastCommitted(maps: seq<Accounts>, calls: seq<Call>, replies: seq<Reply>, n: nat)
    requires IsHistory(maps, calls, replies) && n < |calls| && calls[n].Get? && replies[n].code == Success
    ensures replies[n].credential.Some?
    ensures var account, password := calls[n].accountId, replies[n].credential.value.password;
            || (exists w: nat :: LastCommitted(calls, replies, account, w, n, password))
            || NeverCommitted(maps[0], calls, replies, account, n, password)
  {
    assert Next(maps[n], calls[n], maps[n + 1], replies[n]);
    GetAnswers(maps[n], calls[n], maps[n + 1], replies[n]);
    LastWriter(maps, calls, replies, n, calls[n].accountId);
  }

  /** The calls that were answered with success, alone and in order. */
  function Successes(calls: seq<Call>, replies: seq<Reply>): seq<Call>
    requires |calls| == |replies|
  {
    if calls == [] then [] else
    Successes(calls[..|calls| - 1], replies[..|calls| - 1]) +
    if replies[|calls| - 1].code == Success then [calls[|calls| - 1]] else []
  }

  /** The plain map after serving calls one after the other with no failure at all. */
  function ServeAll(start: Accounts, calls: seq<Call>): Accounts {
    if calls == [] then start else Serve(ServeAll(start, calls[..|calls| - 1]), calls[|calls| - 1]).0
  }

  /** Failed calls might as well not have been made: the map is what the successful calls alone produce. */
  lemma {:induction false} FailuresLeaveNothing(maps: seq<Accounts>, calls: seq<Call>, replies: seq<Reply>)
    requires IsHistory(maps, calls, replies)
    ensures maps[|calls|] == ServeAll(maps[0], Successes(calls, replies))
    decreases |calls|
  {
    var n := |calls|;
    if n > 0 {
      FailuresLeaveNothing(maps[..n], calls[..n - 1], replies[..n - 1]);
      assert Next(maps[n - 1], calls[n - 1], maps[n], replies[n - 1]);
      var done := Successes(calls[..n - 1], replies[..n - 1]);
      if replies[n - 1].code == Success {
        assert (done + [calls[n - 1]])[..|done|] == done;
      } else {
        assert done + [] == done;
        FailureKeeps(maps[n - 1], calls[n - 1], maps[n], replies[n - 1]);
      }
    }
  }

  lemma FailureKeeps(before: Accounts, call: Call, after: Accounts, reply: Reply)
    requires Next(before, call, after, reply) && reply.code != Success
    ensures after == before
  {
  }

  // ------------------------------------------------------------------ reading after writing

  /** The call may change the account. */
  predicate Concerns(call: Call, account: string) {
    !call.Get? && call.account.Some? && call.account.value.accountId == account
  }

  /** Calls that do not concern an account, successful or not, leave it as it was. */
  lemma {:induction false} Undisturbed(maps: seq<Accounts>, calls: seq<Call>, replies: seq<Reply>, m: nat, n: nat, account: string)
    requires IsHistory(maps, calls, replies) && m <= n <= |calls| && account in maps[m]
    requires forall i :: m <= i < n ==> !Concerns(calls[i], account)
    ensures account in maps[n] && maps[n][account] == maps[m][account]
    decreases n
  {
    if m < n {
      Undisturbed(maps, calls, replies, m, n - 1, account);
      assert Next(maps[n - 1], calls[n - 1], maps[n], replies[n - 1]);
    }
  }

  /**
    Reading after writing.  In any history, a credential read after a successful update, with only calls
    for other accounts in between, shows the update's fields and the password last set.  It is never
    granted if the update disabled the account; an empty status enables it again.
  */
  lemma ReadAfterUpdate(maps: seq<Accounts>, calls: seq<Call>, replies: seq<Reply>, m: nat, n: nat)
    requires IsHistory(maps, calls, replies) && m < n < |calls| && calls[n].Get?
    requires calls[m].Update? && calls[m].account.Some? && calls[m].account.value.accountId == calls[n].accountId
    requires replies[m].code == Success && forall i :: m < i < n ==> !Concerns(calls[i], calls[n].accountId)
    ensures var u, a := calls[m].account.value, calls[n].accountId;
            && a in maps[m]
            && (replies[n].code == Success ==>
                  && u.status != "disabled"
                  && replies[n].credential ==
                     Some(Credential(a, u.brokerId, u.connectionString,
                                     if u.password == "" then maps[m][a].password else u.password)))
            && (u.status != "disabled" && calls[n].engineId != "" ==>
                  Serve(maps[n], calls[n]).1.code == Success)
  {
    var u, a := calls[m].account.value, calls[n].accountId;
    assert Next(maps[m], calls[m], maps[m + 1], replies[m]);
    Undisturbed(maps, calls, replies, m + 1, n, a);
    assert Next(maps[n], calls[n], maps[n + 1], replies[n]);
    assert "active" != "disabled" by {
      assert "active"[0] == 'a' && "disabled"[0] == 'd';
    }
  }
}
