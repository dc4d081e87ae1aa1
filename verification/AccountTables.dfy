/**
  The DAO calls of the account handlers, at the level of the plain map: what counting, inserting,
  updating and selecting by key mean for tables that hold a given set of accounts.
*/
module AccountTables {
  import opened Wrappers
  import opened SqlText
  import opened SqlParser
  import opened SqlEngine
  import opened AccountDao
  import opened AccountStore

  function ToTradingAccountRecord(m: AccountMessage): TradingAccountRecord {
    TradingAccountRecord(Some(m.accountId), Some(m.brokerId), Some(m.connectionString),
                         Some(if m.status == "" then "active" else m.status))
  }

  function AccountKey(id: string): TradingAccountRecord {
    TradingAccountRecord(Some(id), None, None, None)
  }

  function PasswordKey(id: string): AccountCredentialRecord {
    AccountCredentialRecord(Some(id), None, Some(PASSWORD), None)
  }

  lemma PasswordText()
    ensures TypeField(Some(PASSWORD)) == Some("1") && TypeOf(Some("1")) == Some(PASSWORD)
  {
    TypeReads(Some(PASSWORD));
  }

  lemma ColumnLists(m: AccountMessage, password: string)
    requires m.accountId != ""
    ensures BuildTradingAccountValues(ToTradingAccountRecord(m)) == TradingValues(m.accountId, AccountFrom(m, password))
    ensures BuildAccountCredentialValues(AccountCredentialRecord(Some(m.accountId), Some(KEY_ID), Some(PASSWORD), Some(password)))
            == CredentialValues(m.accountId, AccountFrom(m, password))
  {
    PasswordText();
  }

  lemma KeyLists(id: string)
    requires id != ""
    ensures BuildTradingAccountValues(AccountKey(id)) == ByAccount(id) == NonEmpty(ByAccount(id))
    ensures BuildAccountCredentialValues(PasswordKey(id)) == ByPassword(id) == NonEmpty(ByPassword(id))
  {
    PasswordText();
    var kvs := ByPassword(id);
    assert kvs[1..] == [("credential_type", "1")] && kvs[1..][1..] == [];
    assert NonEmpty(kvs[1..]) == kvs[1..];
    assert kvs == [kvs[0]] + kvs[1..];
  }

  function RecordOf(id: string, a: Account): TradingAccountRecord {
    TradingAccountRecord(Some(id), Some(a.brokerId), Some(a.connectionString), Some(a.status))
  }

  function CredentialOf(id: string, a: Account): AccountCredentialRecord {
    AccountCredentialRecord(Some(id), Some(KEY_ID), Some(PASSWORD), Some(a.password))
  }

  lemma RecordsReadBack(id: string, a: Account)
    ensures BuildTradingAccountRecord(TradingRow(id, a)) == RecordOf(id, a)
    ensures BuildAccountCredentialRecord(CredentialRow(id, a)) == CredentialOf(id, a)
  {
    PasswordText();
  }

  /** The rows a WHERE on the account's key selects. */
  lemma KeySelects(ids: seq<string>, accounts: Accounts, id: string)
    requires id != "" && Lists(ids, accounts)
    ensures Matching(TradingRows(ids, accounts), NonEmpty(BuildTradingAccountValues(AccountKey(id)))) ==
            if id in accounts then [TradingRow(id, accounts[id])] else []
    ensures Matching(CredentialRows(ids, accounts), NonEmpty(BuildAccountCredentialValues(PasswordKey(id)))) ==
            if id in accounts then [CredentialRow(id, accounts[id])] else []
  {
    KeyLists(id);
    SelectById(ids, accounts, id);
  }

  lemma AccountSelected(ids: seq<string>, accounts: Accounts, id: string, records: seq<TradingAccountRecord>)
    requires id != "" && Lists(ids, accounts)
    requires var found := Matching(TradingRows(ids, accounts), NonEmpty(BuildTradingAccountValues(AccountKey(id))));
             |records| <= |found| && forall i :: 0 <= i < |records| ==> records[i] == BuildTradingAccountRecord(found[i])
    ensures records == (if id in accounts then [RecordOf(id, accounts[id])] else []) || records == []
    ensures |records| == |Matching(TradingRows(ids, accounts), NonEmpty(BuildTradingAccountValues(AccountKey(id))))| ==>
              records == if id in accounts then [RecordOf(id, accounts[id])] else []
  {
    KeySelects(ids, accounts, id);
    if id in accounts {
      RecordsReadBack(id, accounts[id]);
    }
  }

  lemma CredentialSelected(ids: seq<string>, accounts: Accounts, id: string, records: seq<AccountCredentialRecord>)
    requires id != "" && Lists(ids, accounts)
    requires var found := Matching(CredentialRows(ids, accounts), NonEmpty(BuildAccountCredentialValues(PasswordKey(id))));
             |records| <= |found| && forall i :: 0 <= i < |records| ==> records[i] == BuildAccountCredentialRecord(found[i])
    ensures records == (if id in accounts then [CredentialOf(id, accounts[id])] else []) || records == []
    ensures |records| == |Matching(CredentialRows(ids, accounts), NonEmpty(BuildAccountCredentialValues(PasswordKey(id))))| ==>
              records == if id in accounts then [CredentialOf(id, accounts[id])] else []
  {
    KeySelects(ids, accounts, id);
    if id in accounts {
      RecordsReadBack(id, accounts[id]);
    }
  }

  /** What writing a message's columns through that WHERE makes of the tables. */
  lemma KeyUpdates(ids: seq<string>, accounts: Accounts, m: AccountMessage, password: string)
    requires m.accountId in accounts && m.accountId != "" && password != "" && Lists(ids, accounts)
    ensures var id, a := m.accountId, AccountFrom(m, password);
            && Lists(ids, accounts[id := a])
            && Updated(TradingRows(ids, accounts), NonEmpty(BuildTradingAccountValues(AccountKey(id))),
                       BuildTradingAccountValues(ToTradingAccountRecord(m))) == TradingRows(ids, accounts[id := a])
            && Updated(CredentialRows(ids, accounts), NonEmpty(BuildAccountCredentialValues(PasswordKey(id))),
                       BuildAccountCredentialValues(CredentialOf(id, a))) == CredentialRows(ids, accounts[id := a])
  {
    KeyLists(m.accountId);
    ColumnLists(m, password);
    UpdateById(ids, accounts, m.accountId, AccountFrom(m, password));
  }

  /** The SET and WHERE columns of the account update. */
  method AccountUpdateColumns(m: AccountMessage, ghost password: string, ghost ids: seq<string>, ghost accounts: Accounts)
    returns (values: KeyValues, key: KeyValues)
    requires m.accountId != "" && password != "" && Lists(ids, accounts)
    ensures values != [] && key != [] && ColumnsAreIdentifiers(values) && ColumnsAreIdentifiers(key)
    ensures |Matching(TradingRows(ids, accounts), NonEmpty(key))| == if m.accountId in accounts then 1 else 0
    ensures m.accountId in accounts ==>
              var after := accounts[m.accountId := AccountFrom(m, password)];
              && Lists(ids, after)
              && Updated(TradingRows(ids, accounts), NonEmpty(key), values) == TradingRows(ids, after)
  {
    KeySelects(ids, accounts, m.accountId);
    if m.accountId in accounts {
      KeyUpdates(ids, accounts, m, password);
    }
    values, key := BuildTradingAccountValues(ToTradingAccountRecord(m)), BuildTradingAccountValues(AccountKey(m.accountId));
  }

  /** The SET and WHERE columns of the credential update. */
  method CredentialUpdateColumns(row: AccountCredentialRecord, ghost m: AccountMessage,
                                 ghost ids: seq<string>, ghost accounts: Accounts)
    returns (values: KeyValues, key: KeyValues)
    requires m.accountId != "" && m.password != "" && Lists(ids, accounts) && m.accountId in accounts
    requires row == CredentialOf(m.accountId, AccountFrom(m, m.password))
    ensures values != [] && key != [] && ColumnsAreIdentifiers(values) && ColumnsAreIdentifiers(key)
    ensures |Matching(CredentialRows(ids, accounts), NonEmpty(key))| == 1
    ensures var after := accounts[m.accountId := AccountFrom(m, m.password)];
            && Lists(ids, after)
            && Updated(CredentialRows(ids, accounts), NonEmpty(key), values) == CredentialRows(ids, after)
  {
    KeySelects(ids, accounts, m.accountId);
    KeyUpdates(ids, accounts, m, m.password);
    values := BuildAccountCredentialValues(row);
    key := BuildAccountCredentialValues(PasswordKey(row.accountId.value));
  }

  // ------------------------------------------------------------------ trading_account

  method CountAccount(c: Connection, id: string, ghost ids: seq<string>, ghost accounts: Accounts)
    returns (r: Result<int>)
    requires id != "" && Holds(c.View(), ids, accounts)
    modifies c`faulted
    ensures old(c.faulted) ==> c.faulted
    ensures r.code == Success ==> r.data == Some(if id in accounts then 1 else 0)
    ensures r.code != Success ==> c.faulted
  {
    KeySelects(ids, accounts, id);
    r := CountTradingAccounts(c, AccountKey(id));
  }

  method InsertAccount(c: Connection, m: AccountMessage, ghost ids: seq<string>, ghost accounts: Accounts)
    returns (r: Result<nat>)
    requires m.accountId != "" && m.password != "" && m.accountId !in accounts && Holds(c.View(), ids, accounts)
    modifies c
    ensures c.Continues()
    ensures r.code == Success ==>
              && TradingHeld(c.View(), ids + [m.accountId], accounts[m.accountId := AccountFrom(m, m.password)])
              && CredentialsHeld(c.View(), ids, accounts)
    ensures r.code != Success ==> c.faulted
  {
    ColumnLists(m, m.password);
    InsertNew(ids, accounts, m.accountId, AccountFrom(m, m.password));
    r := InsertTradingAccount(c, ToTradingAccountRecord(m));
  }

  method UpdateAccountRow(c: Connection, m: AccountMessage, ghost password: string,
                          ghost ids: seq<string>, ghost accounts: Accounts)
    returns (r: Result<nat>)
    requires m.accountId != "" && password != "" && Holds(c.View(), ids, accounts)
    modifies c
    ensures c.Continues()
    ensures r.code == Success ==> r.data == Some(if m.accountId in accounts then 1 else 0)
    ensures r.code == Success && m.accountId in accounts ==>
              && TradingHeld(c.View(), ids, accounts[m.accountId := AccountFrom(m, password)])
              && CredentialsHeld(c.View(), ids, accounts)
    ensures r.code != Success ==> c.faulted
  {
    var values, key := AccountUpdateColumns(m, password, ids, accounts);
    r := UpdateRows(c, TRADING_ACCOUNT, values, key);
  }

  method SelectAccount(c: Connection, id: string, ghost ids: seq<string>, ghost accounts: Accounts)
    returns (r: Result<seq<TradingAccountRecord>>)
    requires id != "" && Holds(c.View(), ids, accounts)
    modifies c`faulted
    ensures old(c.faulted) ==> c.faulted
    ensures r.code == Success ==>
              || r.data == Some(if id in accounts then [RecordOf(id, accounts[id])] else [])
              || (r.data == Some([]) && c.faulted)
    ensures r.code != Success ==> c.faulted
  {
    r := SelectTradingAccounts(c, AccountKey(id));
    if r.code == Success {
      AccountSelected(ids, accounts, id, r.data.value);
    }
  }

  // ------------------------------------------------------------------ account_credential

  method InsertCredential(c: Connection, row: AccountCredentialRecord, ghost m: AccountMessage,
                          ghost ids: seq<string>, ghost accounts: Accounts)
    returns (r: Result<nat>)
    requires m.accountId != "" && m.password != "" && m.accountId !in accounts
    requires row == CredentialOf(m.accountId, AccountFrom(m, m.password))
    requires TradingHeld(c.View(), ids + [m.accountId], accounts[m.accountId := AccountFrom(m, m.password)])
    requires CredentialsHeld(c.View(), ids, accounts)
    modifies c
    ensures c.Continues()
    ensures r.code == Success ==>
              Holds(c.View(), ids + [m.accountId], accounts[m.accountId := AccountFrom(m, m.password)])
    ensures r.code != Success ==> c.faulted
  {
    ColumnLists(m, m.password);
    InsertNew(ids, accounts, m.accountId, AccountFrom(m, m.password));
    r := InsertCredentialRecord(c, row);
  }

  method SelectCredential(c: Connection, id: string, ghost ids: seq<string>, ghost accounts: Accounts)
    returns (r: Result<seq<AccountCredentialRecord>>)
    requires id != "" && CredentialsHeld(c.View(), ids, accounts)
    modifies c`faulted
    ensures old(c.faulted) ==> c.faulted
    ensures r.code == Success ==>
              || r.data == Some(if id in accounts then [CredentialOf(id, accounts[id])] else [])
              || (r.data == Some([]) && c.faulted)
    ensures r.code != Success ==> c.faulted
  {
    r := SelectCredentials(c, PasswordKey(id));
    if r.code == Success {
      CredentialSelected(ids, accounts, id, r.data.value);
    }
  }

  method UpdateCredential(c: Connection, row: AccountCredentialRecord, ghost m: AccountMessage,
                          ghost ids: seq<string>, ghost accounts: Accounts)
    returns (r: Result<nat>)
    requires m.accountId != "" && m.password != "" && m.accountId in accounts
    requires row == CredentialOf(m.accountId, AccountFrom(m, m.password))
    requires TradingHeld(c.View(), ids, accounts[m.accountId := AccountFrom(m, m.password)])
    requires CredentialsHeld(c.View(), ids, accounts)
    modifies c
    ensures c.Continues()
    ensures r.code == Success ==>
              r.data == Some(1) && Holds(c.View(), ids, accounts[m.accountId := AccountFrom(m, m.password)])
    ensures r.code != Success ==> c.faulted
  {
    var values, key := CredentialUpdateColumns(row, m, ids, accounts);
    r := UpdateRows(c, ACCOUNT_CREDENTIAL, values, key);
  }
}
