/**
  AddAccount, UpdateAccount and GetCredential over SQL text, two tables and a database whose every
  call may fail.  Each is proved to take a step of the plain map of AccountStore, or to fail and
  change nothing; and when no database call fails, it takes exactly that step.
*/
module AccountService {
  import opened Wrappers
  import opened SqlEngine
  import opened AccountDao
  import opened AccountStore
  import opened AccountTables

  // ------------------------------------------------------------------ codec and converter

  datatype Ciphered = Ciphered(keyId: string, ciphertext: string)

  /** The stub codec: the key is fixed and the ciphertext is the plaintext. */
  function Encrypted(plaintext: string): Option<Ciphered> {
    if plaintext == "" then None else Some(Ciphered(KEY_ID, plaintext))
  }

  function Decrypted(c: Ciphered): Option<string> {
    if c.keyId == "" || c.ciphertext == "" then None else Some(c.ciphertext)
  }

  /** What encrypts at all decrypts to itself, and only the empty password does not encrypt. */
  lemma CodecRoundTrip(plaintext: string)
    ensures Encrypted(plaintext).None? <==> plaintext == ""
    ensures Encrypted(plaintext).Some? ==> Decrypted(Encrypted(plaintext).value) == Some(plaintext)
  {
    assert KEY_ID[0] == 's';
  }

  method EncryptCredential(plaintext: string) returns (ok: bool, keyId: string, ciphertext: string)
    ensures ok <==> Encrypted(plaintext).Some?
    ensures ok ==> Ciphered(keyId, ciphertext) == Encrypted(plaintext).value
  {
    ok, keyId, ciphertext := false, "", "";
    if plaintext == "" {
      return;
    }
    keyId := KEY_ID;
    ciphertext := plaintext;
    ok := true;
  }

  method DecryptCredential(keyId: string, ciphertext: string) returns (ok: bool, plaintext: string)
    ensures ok <==> Decrypted(Ciphered(keyId, ciphertext)).Some?
    ensures ok ==> plaintext == Decrypted(Ciphered(keyId, ciphertext)).value
  {
    ok, plaintext := false, "";
    if keyId == "" || ciphertext == "" {
      return;
    }
    plaintext := ciphertext;
    ok := true;
  }

  /** One request: the map takes its step, or the request failed and the map is as before. */
  predicate Next(before: Accounts, call: Call, after: Accounts, reply: Reply) {
    || (after, reply) == Serve(before, call)
    || (after == before && reply.code != Success && reply.credential == None)
  }

  class AccountGrpcService {
    const connection: Connection
    /** The plain map that the committed tables represent. */
    ghost var accounts: Accounts

    ghost predicate Valid()
      reads this, connection
    {
      !connection.inTransaction && Represents(connection.committed, accounts)
    }

    constructor ()
      ensures Valid() && accounts == map[] && fresh(connection)
    {
      connection := new Connection(map[TRADING_ACCOUNT := [], ACCOUNT_CREDENTIAL := []]);
      accounts := map[];
      new;
      assert Holds(connection.committed, [], accounts);
    }

    /** The service over a database that already holds accounts. */
    constructor Over(tables: Tables, ghost accounts: Accounts)
      requires Represents(tables, accounts)
      ensures Valid() && this.accounts == accounts && fresh(connection)
    {
      connection := new Connection(tables);
      this.accounts := accounts;
    }

    // ---------------------------------------------------------------- AddAccount

    method AddAccount(message: Option<AccountMessage>) returns (reply: Reply)
      requires Valid()
      modifies this, connection
      ensures Valid()
      ensures Next(old(accounts), Add(message), accounts, reply)
      ensures !connection.faulted ==> (accounts, reply) == Serve(old(accounts), Add(message))
    {
      if message.None? {
        return Fails(InternalError);
      }
      var m := message.value;
      if m.accountId == "" || m.password == "" {
        return Fails(InternalError);
      }
      var code := AddBusiness(m);
      reply := Reply(code, None);
    }

    method AddBusiness(m: AccountMessage) returns (code: ErrorCode)
      requires Valid() && m.accountId != ""
      modifies this, connection
      ensures Valid()
      ensures code == Success ==>
                m.accountId !in old(accounts) && m.password != "" &&
                accounts == old(accounts)[m.accountId := AccountFrom(m, m.password)]
      ensures code != Success ==>
                && accounts == old(accounts)
                && (connection.faulted || (m.accountId in accounts && code == SystemError) || m.password == "")
    {
      ghost var ids :| Holds(connection.committed, ids, accounts);
      ghost var after := accounts[m.accountId := AccountFrom(m, m.password)];
      var acquired := connection.Acquire();
      if !acquired {
        return SystemError;
      }
      var begun := connection.BeginTransaction();
      if !begun {
        return SystemError;
      }
      var exists_ := CountAccount(connection, m.accountId, ids, accounts);
      if exists_.code != Success {
        var _ := connection.RollbackTransaction();
        return exists_.code;
      }
      if exists_.data.Some? && exists_.data.value > 0 {
        var _ := connection.RollbackTransaction();
        return SystemError;
      }
      var encrypted, keyId, ciphertext := EncryptCredential(m.password);
      if !encrypted {
        var _ := connection.RollbackTransaction();
        return InternalError;
      }
      var result := InsertAccount(connection, m, ids, accounts);
      if result.code != Success {
        var _ := connection.RollbackTransaction();
        return result.code;
      }
      var credentialRow := AccountCredentialRecord(Some(m.accountId), Some(keyId), Some(PASSWORD), Some(ciphertext));
      result := InsertCredential(connection, credentialRow, m, ids, accounts);
      if result.code != Success {
        var _ := connection.RollbackTransaction();
        return result.code;
      }
      var committed := connection.CommitTransaction();
      if !committed {
        var _ := connection.RollbackTransaction();
        return SystemError;
      }
      accounts := after;
      assert Holds(connection.committed, ids + [m.accountId], accounts);
      return Success;
    }

    // ---------------------------------------------------------------- UpdateAccount

    method UpdateAccount(message: Option<AccountMessage>) returns (reply: Reply)
      requires Valid()
      modifies this, connection
      ensures Valid()
      ensures Next(old(accounts), Update(message), accounts, reply)
      ensures !connection.faulted ==> (accounts, reply) == Serve(old(accounts), Update(message))
    {
      if message.None? {
        return Fails(InternalError);
      }
      var m := message.value;
      if m.accountId == "" {
        return Fails(InternalError);
      }
      var code := UpdateBusiness(m);
      reply := Reply(code, None);
    }

    /** The account with the message's fields and, unless the message brings a new one, its old password. */
    ghost function UpdatedAccount(m: AccountMessage): Account
      requires m.accountId in accounts
      reads this
    {
      AccountFrom(m, if m.password == "" then accounts[m.accountId].password else m.password)
    }

    method UpdateBusiness(m: AccountMessage) returns (code: ErrorCode)
      requires Valid() && m.accountId != ""
      modifies this, connection
      ensures Valid()
      ensures code == Success ==>
                m.accountId in old(accounts) &&
                accounts == old(accounts)[m.accountId := old(UpdatedAccount(m))]
      ensures code != Success ==>
                accounts == old(accounts) && (connection.faulted || (m.accountId !in accounts && code == NotFound))
    {
      ghost var ids :| Holds(connection.committed, ids, accounts);
      ghost var password := if m.password == "" && m.accountId in accounts then accounts[m.accountId].password
                            else if m.password == "" then "unused" else m.password;
      ghost var after := accounts[m.accountId := AccountFrom(m, password)];
      var acquired := connection.Acquire();
      if !acquired {
        return SystemError;
      }
      var begun := connection.BeginTransaction();
      if !begun {
        return SystemError;
      }
      var updated := UpdateAccountRow(connection, m, password, ids, accounts);
      if updated.code != Success {
        var _ := connection.RollbackTransaction();
        return updated.code;
      }
      if updated.data.None? || updated.data.value == 0 {
        var _ := connection.RollbackTransaction();
        return NotFound;
      }
      if m.password != "" {
        var stored := UpdatePassword(m, ids);
        if stored != Success {
          var _ := connection.RollbackTransaction();
          return stored;
        }
      } else {
        RowsIgnore(ids, accounts, m.accountId, after[m.accountId]);
      }
      assert Holds(connection.View(), ids, after);
      var committed := connection.CommitTransaction();
      if !committed {
        var _ := connection.RollbackTransaction();
        return SystemError;
      }
      accounts := after;
      return Success;
    }

    /** The credential half of the update, inside the transaction. */
    method UpdatePassword(m: AccountMessage, ghost ids: seq<string>) returns (code: ErrorCode)
      requires m.accountId != "" && m.password != "" && m.accountId in accounts
      requires TradingHeld(connection.View(), ids, accounts[m.accountId := AccountFrom(m, m.password)])
      requires CredentialsHeld(connection.View(), ids, accounts)
      modifies connection
      ensures connection.Continues()
      ensures code == Success ==>
                Holds(connection.View(), ids, accounts[m.accountId := AccountFrom(m, m.password)])
      ensures code != Success ==> connection.faulted
    {
      var encrypted, keyId, ciphertext := EncryptCredential(m.password);
      if !encrypted {
        return InternalError;
      }
      var existing := SelectCredential(connection, m.accountId, ids, accounts);
      if existing.code != Success || existing.data.None? || existing.data.value == [] {
        return NotFound;
      }
      var row := AccountCredentialRecord(Some(m.accountId), Some(keyId), Some(PASSWORD), Some(ciphertext));
      var updated := UpdateCredential(connection, row, m, ids, accounts);
      if updated.code != Success {
        return updated.code;
      }
      if updated.data.None? || updated.data.value == 0 {
        return NotFound;
      }
      return Success;
    }

    // ---------------------------------------------------------------- GetCredential

    method GetCredential(accountId: string, engineId: string) returns (reply: Reply)
      requires Valid()
      modifies this, connection
      ensures Valid() && accounts == old(accounts)
      ensures Next(old(accounts), Get(accountId, engineId), accounts, reply)
      ensures !connection.faulted ==> (accounts, reply) == Serve(old(accounts), Get(accountId, engineId))
    {
      if engineId == "" || accountId == "" {
        return Fails(InternalError);
      }
      ghost var ids :| Holds(connection.committed, ids, accounts);
      var acquired := connection.Acquire();
      if !acquired {
        return Fails(SystemError);
      }
      var found := SelectAccount(connection, accountId, ids, accounts);
      if found.code != Success {
        return Fails(found.code);
      }
      if found.data.None? || found.data.value == [] {
        return Fails(NotFound);
      }
      var account := found.data.value[0];
      if account.status == Some("disabled") {
        return Fails(InternalError);
      }
      var credentials := SelectCredential(connection, accountId, ids, accounts);
      if credentials.code != Success {
        return Fails(credentials.code);
      }
      if credentials.data.None? || credentials.data.value == [] {
        return Fails(NotFound);
      }
      var credential := credentials.data.value[0];
      if credential.keyId.None? || credential.ciphertext.None? {
        return Fails(InternalError);
      }
      var ok, password := DecryptCredential(credential.keyId.value, credential.ciphertext.value);
      if !ok {
        return Fails(InternalError);
      }
      reply := Reply(Success, Some(Credential(accountId, GetOr(account.brokerId), GetOr(account.connectionString), password)));
    }

    static function GetOr(field: Option<string>): string {
      if field.Some? then field.value else ""
    }
  }
}
