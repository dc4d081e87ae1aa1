/**
  The abstract account store, a plain map from account id to account, how the two tables represent
  it, and what selecting or updating by account id means for it.
*/
module AccountStore {
  import opened Wrappers
  import opened SqlText
  import opened SqlEngine
  import opened AccountDao

  datatype Account = Account(brokerId: string, connectionString: string, status: string, password: string)

  type Accounts = map<string, Account>

  const KEY_ID := "stub-v1"

  // ------------------------------------------------------------------ requests on the plain map

  /** The account message of a request; `password` may be empty. */
  datatype AccountMessage = AccountMessage(
    accountId: string, brokerId: string, connectionString: string, status: string, password: string)

  datatype Call =
    | Add(account: Option<AccountMessage>)
    | Update(account: Option<AccountMessage>)
    | Get(accountId: string, engineId: string)

  datatype Credential = Credential(accountId: string, brokerId: string, connectionString: string, password: string)

  datatype Reply = Reply(code: ErrorCode, credential: Option<Credential>)

  function Fails(code: ErrorCode): Reply {
    Reply(code, None)
  }

  const DONE := Reply(Success, None)

  function AccountFrom(m: AccountMessage, password: string): Account {
    Account(m.brokerId, m.connectionString, if m.status == "" then "active" else m.status, password)
  }

  /** What each call does to the map, and its answer, when no database call fails. */
  function Serve(accounts: Accounts, call: Call): (Accounts, Reply) {
    match call
    case Add(None) => (accounts, Fails(InternalError))
    case Add(Some(m)) =>
      if m.accountId == "" || m.password == "" then (accounts, Fails(InternalError))
      else if m.accountId in accounts then (accounts, Fails(SystemError))
      else (accounts[m.accountId := AccountFrom(m, m.password)], DONE)
    case Update(None) => (accounts, Fails(InternalError))
    case Update(Some(m)) =>
      if m.accountId == "" then (accounts, Fails(InternalError))
      else if m.accountId !in accounts then (accounts, Fails(NotFound))
      else
        var password := if m.password == "" then accounts[m.accountId].password else m.password;
        (accounts[m.accountId := AccountFrom(m, password)], DONE)
    case Get(accountId, engineId) =>
      if engineId == "" || accountId == "" then (accounts, Fails(InternalError))
      else if accountId !in accounts then (accounts, Fails(NotFound))
      else
        var a := accounts[accountId];
        if a.status == "disabled" then (accounts, Fails(InternalError))
        else (accounts, Reply(Success, Some(Credential(accountId, a.brokerId, a.connectionString, a.password))))
  }

  /** Adding succeeds exactly for a named account with a password that is not there yet; nothing else changes. */
  lemma AddSucceedsIff(accounts: Accounts, message: Option<AccountMessage>)
    ensures var (after, reply) := Serve(accounts, Add(message));
            var wellFormed := message.Some? && message.value.accountId != "" && message.value.password != "";
            if wellFormed && message.value.accountId !in accounts then
              var m := message.value;
              && reply == Reply(Success, None)
              && after == accounts[m.accountId := Account(m.brokerId, m.connectionString,
                                                          if m.status == "" then "active" else m.status, m.password)]
            else after == accounts && reply == Reply(if wellFormed then SystemError else InternalError, None)
  {
  }

  /** Updating succeeds exactly for an account that is there; an empty password keeps the old one. */
  lemma UpdateSucceedsIff(accounts: Accounts, message: Option<AccountMessage>)
    ensures var (after, reply) := Serve(accounts, Update(message));
            var wellFormed := message.Some? && message.value.accountId != "";
            if wellFormed && message.value.accountId in accounts then
              var m := message.value;
              && reply == Reply(Success, None)
              && after == accounts[m.accountId :=
                                     Account(m.brokerId, m.connectionString, if m.status == "" then "active" else m.status,
                                             if m.password == "" then accounts[m.accountId].password else m.password)]
            else after == accounts && reply == Reply(if wellFormed then NotFound else InternalError, None)
  {
  }

  /** A credential is granted exactly to a named engine for an account that is there and not disabled. */
  lemma GetSucceedsIff(accounts: Accounts, id: string, engineId: string)
    ensures var (after, reply) := Serve(accounts, Get(id, engineId));
            && after == accounts
            && reply ==
               if id == "" || engineId == "" then Reply(InternalError, None)
               else if id !in accounts then Reply(NotFound, None)
               else if accounts[id].status == "disabled" then Reply(InternalError, None)
               else Reply(Success, Some(Credential(id, accounts[id].brokerId, accounts[id].connectionString,
                                                   accounts[id].password)))
  {
  }

  // ------------------------------------------------------------------ the tables behind the map

  function TradingRow(id: string, a: Account): Row {
    map["account_id" := id, "broker_id" := a.brokerId, "connection_string" := a.connectionString, "status" := a.status]
  }

  function CredentialRow(id: string, a: Account): Row {
    map["account_id" := id, "credential_type" := "1", "key_id" := KEY_ID, "ciphertext" := a.password]
  }

  predicate Distinct(ids: seq<string>) {
    forall i, j :: 0 <= i < j < |ids| ==> ids[i] != ids[j]
  }

  /** `ids` lists the accounts of the map, each once, in the order their rows were inserted. */
  predicate Lists(ids: seq<string>, accounts: Accounts) {
    && Distinct(ids)
    && (forall i :: 0 <= i < |ids| ==> ids[i] in accounts)
    && (forall a :: a in accounts ==> a in ids)
    && (forall a :: a in accounts ==> a != "" && accounts[a].password != "")
  }

  function TradingRows(ids: seq<string>, accounts: Accounts): Table
    requires forall i :: 0 <= i < |ids| ==> ids[i] in accounts
  {
    seq(|ids|, i requires 0 <= i < |ids| => TradingRow(ids[i], accounts[ids[i]]))
  }

  function CredentialRows(ids: seq<string>, accounts: Accounts): Table
    requires forall i :: 0 <= i < |ids| ==> ids[i] in accounts
  {
    seq(|ids|, i requires 0 <= i < |ids| => CredentialRow(ids[i], accounts[ids[i]]))
  }

  predicate TradingHeld(db: Tables, ids: seq<string>, accounts: Accounts) {
    Lists(ids, accounts) && TRADING_ACCOUNT in db && db[TRADING_ACCOUNT] == TradingRows(ids, accounts)
  }

  predicate CredentialsHeld(db: Tables, ids: seq<string>, accounts: Accounts) {
    Lists(ids, accounts) && ACCOUNT_CREDENTIAL in db && db[ACCOUNT_CREDENTIAL] == CredentialRows(ids, accounts)
  }

  /** Each account has exactly one account row and exactly one password row, and there are no others. */
  predicate Holds(db: Tables, ids: seq<string>, accounts: Accounts) {
    TradingHeld(db, ids, accounts) && CredentialsHeld(db, ids, accounts)
  }

  ghost predicate Represents(db: Tables, accounts: Accounts) {
    exists ids: seq<string> :: Holds(db, ids, accounts)
  }

  /** Two maps represented by the same tables are the same. */
  lemma RepresentsUnique(db: Tables, a: Accounts, b: Accounts)
    requires Represents(db, a) && Represents(db, b)
    ensures a == b
  {
    var i :| Holds(db, i, a);
    var j :| Holds(db, j, b);
    assert |i| == |j|;
    forall k | 0 <= k < |i| ensures i[k] == j[k] && a[i[k]] == b[j[k]] {
      assert TradingRow(i[k], a[i[k]]) == db[TRADING_ACCOUNT][k] == TradingRow(j[k], b[j[k]]);
      assert CredentialRow(i[k], a[i[k]]) == db[ACCOUNT_CREDENTIAL][k] == CredentialRow(j[k], b[j[k]]);
      assert TradingRow(i[k], a[i[k]])["account_id"] == i[k] && TradingRow(j[k], b[j[k]])["account_id"] == j[k];
      SameRows(i[k], a[i[k]], b[j[k]]);
    }
  }

  lemma SameRows(id: string, a: Account, b: Account)
    requires TradingRow(id, a) == TradingRow(id, b) && CredentialRow(id, a) == CredentialRow(id, b)
    ensures a == b
  {
    assert TradingRow(id, a)["broker_id"] == TradingRow(id, b)["broker_id"];
    assert TradingRow(id, a)["connection_string"] == TradingRow(id, b)["connection_string"];
    assert TradingRow(id, a)["status"] == TradingRow(id, b)["status"];
    assert CredentialRow(id, a)["ciphertext"] == CredentialRow(id, b)["ciphertext"];
  }

  // ------------------------------------------------------------------ selecting by account id

  function ByAccount(id: string): KeyValues {
    [("account_id", id)]
  }

  function ByPassword(id: string): KeyValues {
    [("account_id", id), ("credential_type", "1")]
  }

  lemma RowMatches(id: string, key: string, a: Account)
    ensures Matches(TradingRow(id, a), ByAccount(key)) <==> id == key
    ensures Matches(CredentialRow(id, a), ByPassword(key)) <==> id == key
  {
    var byAccount, byPassword := ByAccount(key), ByPassword(key);
    assert Matches(TradingRow(id, a), byAccount) ==> TradingRow(id, a)[byAccount[0].0] == byAccount[0].1;
    assert Matches(CredentialRow(id, a), byPassword) ==> CredentialRow(id, a)[byPassword[0].0] == byPassword[0].1;
  }

  /** Rows that match a condition only at `at` are selected as that one row. */
  lemma {:induction false} MatchingOne(t: Table, pairs: KeyValues, at: nat)
    requires at < |t| && forall i :: 0 <= i < |t| ==> (Matches(t[i], pairs) <==> i == at)
    ensures Matching(t, pairs) == [t[at]]
  {
    if at == 0 {
      MatchingNone(t[1..], pairs);
    } else {
      MatchingOne(t[1..], pairs, at - 1);
    }
  }

  lemma {:induction false} MatchingNone(t: Table, pairs: KeyValues)
    requires forall i :: 0 <= i < |t| ==> !Matches(t[i], pairs)
    ensures Matching(t, pairs) == []
  {
    if t != [] {
      MatchingNone(t[1..], pairs);
    }
  }

  lemma RowsMatch(ids: seq<string>, accounts: Accounts, key: string)
    requires Lists(ids, accounts)
    ensures var t := TradingRows(ids, accounts);
            |t| == |ids| && forall i :: 0 <= i < |t| ==> (Matches(t[i], ByAccount(key)) <==> ids[i] == key)
    ensures var t := CredentialRows(ids, accounts);
            |t| == |ids| && forall i :: 0 <= i < |t| ==> (Matches(t[i], ByPassword(key)) <==> ids[i] == key)
  {
    forall i | 0 <= i < |ids|
      ensures Matches(TradingRow(ids[i], accounts[ids[i]]), ByAccount(key)) <==> ids[i] == key
      ensures Matches(CredentialRow(ids[i], accounts[ids[i]]), ByPassword(key)) <==> ids[i] == key
    {
      RowMatches(ids[i], key, accounts[ids[i]]);
    }
  }

  lemma SelectAt(t: Table, pairs: KeyValues, ids: seq<string>, key: string)
    requires |t| == |ids| && Distinct(ids)
    requires forall i :: 0 <= i < |t| ==> (Matches(t[i], pairs) <==> ids[i] == key)
    ensures key !in ids ==> Matching(t, pairs) == []
    ensures forall i :: 0 <= i < |ids| && ids[i] == key ==> Matching(t, pairs) == [t[i]]
  {
    if key !in ids {
      MatchingNone(t, pairs);
    }
    forall i | 0 <= i < |ids| && ids[i] == key ensures Matching(t, pairs) == [t[i]] {
      MatchingOne(t, pairs, i);
    }
  }

  /** Selecting by account id finds the account's one row in each table, or none. */
  lemma SelectById(ids: seq<string>, accounts: Accounts, key: string)
    requires Lists(ids, accounts)
    ensures Matching(TradingRows(ids, accounts), ByAccount(key)) ==
            if key in accounts then [TradingRow(key, accounts[key])] else []
    ensures Matching(CredentialRows(ids, accounts), ByPassword(key)) ==
            if key in accounts then [CredentialRow(key, accounts[key])] else []
  {
    RowsMatch(ids, accounts, key);
    SelectAt(TradingRows(ids, accounts), ByAccount(key), ids, key);
    SelectAt(CredentialRows(ids, accounts), ByPassword(key), ids, key);
  }

  /** In tables that represent a map, each of its accounts has exactly one row of either kind, and no other account has any. */
  lemma ExactlyOneRow(db: Tables, accounts: Accounts, key: string)
    requires Represents(db, accounts)
    ensures |Matching(db[TRADING_ACCOUNT], ByAccount(key))| == if key in accounts then 1 else 0
    ensures |Matching(db[ACCOUNT_CREDENTIAL], ByPassword(key))| == if key in accounts then 1 else 0
  {
    var ids :| Holds(db, ids, accounts);
    SelectById(ids, accounts, key);
  }

  // ------------------------------------------------------------------ changing one account

  function TradingValues(id: string, a: Account): KeyValues {
    [("account_id", id), ("broker_id", a.brokerId), ("connection_string", a.connectionString), ("status", a.status)]
  }

  function CredentialValues(id: string, a: Account): KeyValues {
    [("account_id", id), ("credential_type", "1"), ("key_id", KEY_ID), ("ciphertext", a.password)]
  }

  lemma PutFour(row: Row, a: KeyValue, b: KeyValue, c: KeyValue, d: KeyValue)
    ensures PutAll(row, [a, b, c, d]) == row[a.0 := a.1][b.0 := b.1][c.0 := c.1][d.0 := d.1]
  {
    assert [a, b, c, d][1..] == [b, c, d] && [b, c, d][1..] == [c, d] && [c, d][1..] == [d] && [d][1..] == [];
    var row3 := row[a.0 := a.1][b.0 := b.1][c.0 := c.1];
    assert PutAll(row3, [d]) == PutAll(row3[d.0 := d.1], []);
    assert PutAll(row[a.0 := a.1][b.0 := b.1], [c, d]) == PutAll(row3, [d]);
    assert PutAll(row[a.0 := a.1], [b, c, d]) == PutAll(row[a.0 := a.1][b.0 := b.1], [c, d]);
  }

  /** Writing all columns makes the row, whatever was in it before. */
  lemma PutRow(id: string, old_: Account, a: Account)
    ensures PutAll(map[], TradingValues(id, a)) == TradingRow(id, a)
    ensures PutAll(map[], CredentialValues(id, a)) == CredentialRow(id, a)
    ensures PutAll(TradingRow(id, old_), TradingValues(id, a)) == TradingRow(id, a)
    ensures PutAll(CredentialRow(id, old_), CredentialValues(id, a)) == CredentialRow(id, a)
  {
    var t, c := TradingValues(id, a), CredentialValues(id, a);
    PutFour(map[], t[0], t[1], t[2], t[3]);
    PutFour(map[], c[0], c[1], c[2], c[3]);
    PutFour(TradingRow(id, old_), t[0], t[1], t[2], t[3]);
    PutFour(CredentialRow(id, old_), c[0], c[1], c[2], c[3]);
  }

  lemma ListsReplaced(ids: seq<string>, accounts: Accounts, key: string, a: Account)
    requires Lists(ids, accounts) && key in accounts && a.password != ""
    ensures Lists(ids, accounts[key := a])
  {
  }

  lemma UpdateTradingRow(ids: seq<string>, accounts: Accounts, key: string, a: Account)
    requires Lists(ids, accounts) && Lists(ids, accounts[key := a]) && key in accounts
    ensures Updated(TradingRows(ids, accounts), ByAccount(key), TradingValues(key, a)) ==
            TradingRows(ids, accounts[key := a])
  {
    RowsMatch(ids, accounts, key);
    PutRow(key, accounts[key], a);
  }

  lemma UpdateCredentialRow(ids: seq<string>, accounts: Accounts, key: string, a: Account)
    requires Lists(ids, accounts) && Lists(ids, accounts[key := a]) && key in accounts
    ensures Updated(CredentialRows(ids, accounts), ByPassword(key), CredentialValues(key, a)) ==
            CredentialRows(ids, accounts[key := a])
  {
    RowsMatch(ids, accounts, key);
    PutRow(key, accounts[key], a);
  }

  lemma UpdateById(ids: seq<string>, accounts: Accounts, key: string, a: Account)
    requires Lists(ids, accounts) && key in accounts && a.password != ""
    ensures Lists(ids, accounts[key := a])
    ensures Updated(TradingRows(ids, accounts), ByAccount(key), TradingValues(key, a)) ==
            TradingRows(ids, accounts[key := a])
    ensures Updated(CredentialRows(ids, accounts), ByPassword(key), CredentialValues(key, a)) ==
            CredentialRows(ids, accounts[key := a])
  {
    ListsReplaced(ids, accounts, key, a);
    UpdateTradingRow(ids, accounts, key, a);
    UpdateCredentialRow(ids, accounts, key, a);
  }

  lemma InsertNew(ids: seq<string>, accounts: Accounts, key: string, a: Account)
    requires Lists(ids, accounts) && key !in accounts && key != "" && a.password != ""
    ensures Lists(ids + [key], accounts[key := a])
    ensures TradingRows(ids + [key], accounts[key := a]) ==
            TradingRows(ids, accounts) + [PutAll(map[], TradingValues(key, a))]
    ensures CredentialRows(ids + [key], accounts[key := a]) ==
            CredentialRows(ids, accounts) + [PutAll(map[], CredentialValues(key, a))]
  {
    PutRow(key, a, a);
  }

  /** Only the password of an account shows in its credential row, and only the rest in its account row. */
  lemma RowsIgnore(ids: seq<string>, accounts: Accounts, key: string, a: Account)
    requires Lists(ids, accounts) && key in accounts
    ensures a.password == accounts[key].password ==>
              CredentialRows(ids, accounts[key := a]) == CredentialRows(ids, accounts)
    ensures TradingRows(ids, accounts[key := a.(password := accounts[key].password)]) ==
            TradingRows(ids, accounts[key := a])
  {
  }
}
