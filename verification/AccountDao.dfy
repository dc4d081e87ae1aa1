/** The trading_account and account_credential tables: records, their column lists, and the DAO calls. */
module AccountDao {
  import opened Decimal
  import opened Wrappers
  import opened SqlText
  import opened SqlParser
  import opened SqlEngine

  const TRADING_ACCOUNT := "trading_account"
  const ACCOUNT_CREDENTIAL := "account_credential"

  datatype TradingAccountRecord = TradingAccountRecord(
    accountId: Option<string>, brokerId: Option<string>, connectionString: Option<string>, status: Option<string>)

  /** An enumeration whose underlying type is a 32-bit `int`: any such value can be stored and read. */
  type CredentialType = x: int | -0x8000_0000 <= x < 0x8000_0000

  const PASSWORD: CredentialType := 1

  datatype AccountCredentialRecord = AccountCredentialRecord(
    accountId: Option<string>, keyId: Option<string>, credentialType: Option<CredentialType>,
    ciphertext: Option<string>)

  function AddTextValue(out: KeyValues, column: string, value: Option<string>): KeyValues {
    if value.Some? then out + [(column, value.value)] else out
  }

  lemma AddsIdentifiers(a: string, b: string, c: string, d: string,
                        v: Option<string>, w: Option<string>, x: Option<string>, y: Option<string>)
    requires IsIdentifier(a) && IsIdentifier(b) && IsIdentifier(c) && IsIdentifier(d)
    ensures ColumnsAreIdentifiers(
              AddTextValue(AddTextValue(AddTextValue(AddTextValue([], a, v), b, w), c, x), d, y))
  {
  }

  /** The enumerator a stored integer is cast to, keeping its low 32 bits. */
  function CastType(v: int): CredentialType {
    (v + 0x8000_0000) % 0x1_0000_0000 - 0x8000_0000
  }

  function TypeField(t: Option<CredentialType>): Option<string> {
    if t.Some? then Some(IntText(t.value)) else None
  }

  function BuildTradingAccountValues(r: TradingAccountRecord): (kvs: KeyValues)
    ensures ColumnsAreIdentifiers(kvs)
  {
    AddsIdentifiers("account_id", "broker_id", "connection_string", "status",
                    r.accountId, r.brokerId, r.connectionString, r.status);
    AddTextValue(AddTextValue(AddTextValue(AddTextValue([],
      "account_id", r.accountId), "broker_id", r.brokerId), "connection_string", r.connectionString),
      "status", r.status)
  }

  function BuildAccountCredentialValues(r: AccountCredentialRecord): (kvs: KeyValues)
    ensures ColumnsAreIdentifiers(kvs)
  {
    AddsIdentifiers("account_id", "credential_type", "key_id", "ciphertext",
                    r.accountId, TypeField(r.credentialType), r.keyId, r.ciphertext);
    AddTextValue(AddTextValue(AddTextValue(AddTextValue([],
      "account_id", r.accountId), "credential_type", TypeField(r.credentialType)), "key_id", r.keyId),
      "ciphertext", r.ciphertext)
  }

  function Field(row: Row, column: string): Option<string> {
    if column in row then Some(row[column]) else None
  }

  function BuildTradingAccountRecord(row: Row): TradingAccountRecord {
    TradingAccountRecord(
      Field(row, "account_id"), Field(row, "broker_id"), Field(row, "connection_string"), Field(row, "status"))
  }

  function TypeOf(cell: Option<string>): Option<CredentialType> {
    if cell.Some? && ParseInt(cell.value).Some? then Some(CastType(ParseInt(cell.value).value)) else None
  }

  function BuildAccountCredentialRecord(row: Row): AccountCredentialRecord {
    AccountCredentialRecord(
      Field(row, "account_id"), Field(row, "key_id"), TypeOf(Field(row, "credential_type")), Field(row, "ciphertext"))
  }

  lemma TypeReads(t: Option<CredentialType>)
    ensures TypeOf(TypeField(t)) == t
  {
    if t.Some? {
      IntReads(t.value);
    }
  }

  // ------------------------------------------------------------------ records survive a trip to the table

  function PutField(row: Row, column: string, value: Option<string>): Row {
    if value.Some? then row[column := value.value] else row
  }

  lemma FieldAdded(out: KeyValues, column: string, value: Option<string>)
    ensures PutAll(map[], AddTextValue(out, column, value)) == PutField(PutAll(map[], out), column, value)
  {
    if value.Some? {
      PutAllSnoc(map[], out, (column, value.value));
    }
  }

  lemma FourFields(a: string, b: string, c: string, d: string,
                   v: Option<string>, w: Option<string>, x: Option<string>, y: Option<string>)
    requires a != b && a != c && a != d && b != c && b != d && c != d
    ensures var row := PutAll(map[], AddTextValue(AddTextValue(AddTextValue(AddTextValue([], a, v), b, w), c, x), d, y));
            Field(row, a) == v && Field(row, b) == w && Field(row, c) == x && Field(row, d) == y
  {
    var one := AddTextValue([], a, v);
    var two := AddTextValue(one, b, w);
    var three := AddTextValue(two, c, x);
    FieldAdded([], a, v);
    FieldAdded(one, b, w);
    FieldAdded(two, c, x);
    FieldAdded(three, d, y);
  }

  lemma ColumnNamesDiffer()
    ensures "account_id" != "broker_id" && "account_id" != "connection_string" && "account_id" != "status"
    ensures "broker_id" != "connection_string" && "broker_id" != "status" && "connection_string" != "status"
    ensures "account_id" != "credential_type" && "account_id" != "key_id" && "account_id" != "ciphertext"
    ensures "credential_type" != "key_id" && "credential_type" != "ciphertext" && "key_id" != "ciphertext"
  {
    assert "account_id"[0] == 'a' && "broker_id"[0] == 'b' && "status"[0] == 's' && "key_id"[0] == 'k';
    assert "connection_string"[1] == 'o' && "credential_type"[1] == 'r' && "ciphertext"[1] == 'i';
    assert "connection_string"[0] == 'c' && "credential_type"[0] == 'c' && "ciphertext"[0] == 'c';
  }

  /** A record written to a fresh row is read back as it was, absent fields included. */
  lemma TradingRecordRoundTrip(r: TradingAccountRecord)
    ensures BuildTradingAccountRecord(PutAll(map[], BuildTradingAccountValues(r))) == r
  {
    ColumnNamesDiffer();
    FourFields("account_id", "broker_id", "connection_string", "status", r.accountId, r.brokerId, r.connectionString, r.status);
  }

  lemma CredentialRecordRoundTrip(r: AccountCredentialRecord)
    ensures BuildAccountCredentialRecord(PutAll(map[], BuildAccountCredentialValues(r))) == r
  {
    ColumnNamesDiffer();
    FourFields("account_id", "credential_type", "key_id", "ciphertext",
               r.accountId, TypeField(r.credentialType), r.keyId, r.ciphertext);
    TypeReads(r.credentialType);
  }

  // ------------------------------------------------------------------ DAO calls

  /** Inserts the records one by one and stops at the first failure; `done` tells how many went in. */
  method Insert(c: Connection, table: string, records: seq<KeyValues>) returns (r: Result<nat>, ghost done: nat)
    requires IsIdentifier(table) && forall i :: 0 <= i < |records| ==> ColumnsAreIdentifiers(records[i])
    modifies c
    ensures c.Continues()
    ensures done <= |records| && (r.code == Success ==> records != [] && done == |records| && r.data == Some(done))
    ensures done > 0 ==> table in old(c.View())
    ensures c.View() == if done == 0 then old(c.View()) else
              old(c.View())[table := old(c.View())[table] + Rows(records[..done])]
    ensures r.code != Success ==>
              c.faulted || records == [] || table !in old(c.View()) || exists i :: 0 <= i < |records| && records[i] == []
  {
    done := 0;
    if records == [] {
      return Result(SystemError, None), 0;
    }
    var affected := 0;
    for i := 0 to |records|
      invariant c.Continues()
      invariant done == i == affected
      invariant done > 0 ==> table in old(c.View())
      invariant c.View() == if done == 0 then old(c.View()) else
                  old(c.View())[table := old(c.View())[table] + Rows(records[..done])]
    {
      var values := records[i];
      if values == [] {
        return Result(SystemError, None), done;
      }
      var result := InsertRow(c, table, values);
      if result.code != Success {
        return result, done;
      }
      affected := affected + (if result.data.Some? then result.data.value else 0);
      done := i + 1;
      ghost var t := old(c.View())[table];
      assert Rows(records[..i + 1]) == Rows(records[..i]) + [PutAll(map[], records[i])];
      assert t + Rows(records[..i + 1]) == (t + Rows(records[..i])) + [PutAll(map[], records[i])];
      assert records[..0] == [] && t + Rows([]) == t;
      assert c.View() == old(c.View())[table := t + Rows(records[..i + 1])];
    }
    return Result(Success, Some(affected)), done;
  }

  function Rows(records: seq<KeyValues>): Table {
    seq(|records|, i requires 0 <= i < |records| => PutAll(map[], records[i]))
  }

  /** The DAO's Insert with a single record. */
  method InsertOne(c: Connection, table: string, values: KeyValues) returns (r: Result<nat>)
    requires IsIdentifier(table) && ColumnsAreIdentifiers(values) && values != []
    modifies c
    ensures c.Continues()
    ensures r.code == Success ==>
              table in old(c.View()) &&
              c.View() == old(c.View())[table := old(c.View())[table] + [PutAll(map[], values)]]
    ensures r.code != Success ==> c.faulted || table !in old(c.View())
  {
    ghost var done;
    r, done := Insert(c, table, [values]);
    assert r.code == Success ==> Rows([values][..done]) == [PutAll(map[], values)];
  }

  method InsertTradingAccount(c: Connection, record: TradingAccountRecord) returns (r: Result<nat>)
    requires BuildTradingAccountValues(record) != []
    modifies c
    ensures c.Continues()
    ensures r.code == Success ==>
              && TRADING_ACCOUNT in old(c.View())
              && c.View() == old(c.View())[TRADING_ACCOUNT := old(c.View())[TRADING_ACCOUNT] +
                                                              [PutAll(map[], BuildTradingAccountValues(record))]]
    ensures r.code != Success ==> c.faulted || TRADING_ACCOUNT !in old(c.View())
  {
    r := InsertOne(c, TRADING_ACCOUNT, BuildTradingAccountValues(record));
  }

  method InsertCredentialRecord(c: Connection, record: AccountCredentialRecord) returns (r: Result<nat>)
    requires BuildAccountCredentialValues(record) != []
    modifies c
    ensures c.Continues()
    ensures r.code == Success ==>
              && ACCOUNT_CREDENTIAL in old(c.View())
              && c.View() == old(c.View())[ACCOUNT_CREDENTIAL := old(c.View())[ACCOUNT_CREDENTIAL] +
                                                                 [PutAll(map[], BuildAccountCredentialValues(record))]]
    ensures r.code != Success ==> c.faulted || ACCOUNT_CREDENTIAL !in old(c.View())
  {
    r := InsertOne(c, ACCOUNT_CREDENTIAL, BuildAccountCredentialValues(record));
  }

  method CountTradingAccounts(c: Connection, where_: TradingAccountRecord) returns (r: Result<int>)
    modifies c`faulted
    ensures old(c.faulted) ==> c.faulted
    ensures r.code == Success ==>
              TRADING_ACCOUNT in c.View() &&
              r.data == Some(|Matching(c.View()[TRADING_ACCOUNT], NonEmpty(BuildTradingAccountValues(where_)))|)
    ensures r.code != Success ==> c.faulted || TRADING_ACCOUNT !in c.View()
  {
    r := CountRows(c, TRADING_ACCOUNT, BuildTradingAccountValues(where_));
  }

  /** The rows up to the first that cannot be fetched; all of them unless a call failed. */
  method SelectTradingAccounts(c: Connection, where_: TradingAccountRecord)
    returns (r: Result<seq<TradingAccountRecord>>)
    modifies c`faulted
    ensures old(c.faulted) ==> c.faulted
    ensures r.code == Success ==>
              TRADING_ACCOUNT in c.View() && r.data.Some? &&
              var found := Matching(c.View()[TRADING_ACCOUNT], NonEmpty(BuildTradingAccountValues(where_)));
              |r.data.value| <= |found| && (|r.data.value| == |found| || c.faulted) &&
              forall i :: 0 <= i < |r.data.value| ==> r.data.value[i] == BuildTradingAccountRecord(found[i])
    ensures r.code != Success ==> r.data == None && (c.faulted || TRADING_ACCOUNT !in c.View())
  {
    var result := SelectRows(c, TRADING_ACCOUNT, BuildTradingAccountValues(where_));
    if result.code != Success || result.data.None? {
      return Result(result.code, None);
    }
    var found := result.data.value;
    var rows := [];
    var row := c.Fetch(found, 0);
    while row.Some?
      invariant |rows| <= |found|
      invariant row.Some? ==> |rows| < |found| && row.value == found[|rows|]
      invariant row.None? ==> |rows| == |found| || c.faulted
      invariant forall j :: 0 <= j < |rows| ==> rows[j] == BuildTradingAccountRecord(found[j])
      invariant old(c.faulted) ==> c.faulted
      decreases |found| - |rows|, row.Some?
    {
      rows := rows + [BuildTradingAccountRecord(row.value)];
      row := c.Fetch(found, |rows|);
    }
    r := Result(Success, Some(rows));
  }

  /** The rows up to the first that cannot be fetched; all of them unless a call failed. */
  method SelectCredentials(c: Connection, where_: AccountCredentialRecord)
    returns (r: Result<seq<AccountCredentialRecord>>)
    modifies c`faulted
    ensures old(c.faulted) ==> c.faulted
    ensures r.code == Success ==>
              ACCOUNT_CREDENTIAL in c.View() && r.data.Some? &&
              var found := Matching(c.View()[ACCOUNT_CREDENTIAL], NonEmpty(BuildAccountCredentialValues(where_)));
              |r.data.value| <= |found| && (|r.data.value| == |found| || c.faulted) &&
              forall i :: 0 <= i < |r.data.value| ==> r.data.value[i] == BuildAccountCredentialRecord(found[i])
    ensures r.code != Success ==> r.data == None && (c.faulted || ACCOUNT_CREDENTIAL !in c.View())
  {
    var result := SelectRows(c, ACCOUNT_CREDENTIAL, BuildAccountCredentialValues(where_));
    if result.code != Success || result.data.None? {
      return Result(result.code, None);
    }
    var found := result.data.value;
    var rows := [];
    var row := c.Fetch(found, 0);
    while row.Some?
      invariant |rows| <= |found|
      invariant row.Some? ==> |rows| < |found| && row.value == found[|rows|]
      invariant row.None? ==> |rows| == |found| || c.faulted
      invariant forall j :: 0 <= j < |rows| ==> rows[j] == BuildAccountCredentialRecord(found[j])
      invariant old(c.faulted) ==> c.faulted
      decreases |found| - |rows|, row.Some?
    {
      rows := rows + [BuildAccountCredentialRecord(row.value)];
      row := c.Fetch(found, |rows|);
    }
    r := Result(Success, Some(rows));
  }
}
