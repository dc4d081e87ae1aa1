/** The statements letter by letter: what the printing functions print, written out without their tokens. */
module SqlSpelled {
  import opened Decimal
  import opened Wrappers
  import opened SqlText
  import opened SqlEngine
  import opened AccountDao
  import opened AccountStore
  import opened AccountTables

  // ------------------------------------------------------------------ the fragment, written out

  function Doubled(value: string): string {
    if value == [] then "" else (if value[0] == '\'' then "''" else [value[0]]) + Doubled(value[1..])
  }

  function Quoted(value: string): string {
    "'" + Doubled(value) + "'"
  }

  function Equation(kv: KeyValue): string {
    kv.0 + " = '" + Doubled(kv.1) + "'"
  }

  function Commas(parts: seq<string>): string {
    if parts == [] then "" else if |parts| == 1 then parts[0] else parts[0] + ", " + Commas(parts[1..])
  }

  function Ands(parts: seq<string>): string {
    if parts == [] then "" else if |parts| == 1 then parts[0] else parts[0] + " AND " + Ands(parts[1..])
  }

  function Names(kvs: KeyValues): seq<string> {
    seq(|kvs|, i requires 0 <= i < |kvs| => kvs[i].0)
  }

  function QuotedValues(kvs: KeyValues): seq<string> {
    seq(|kvs|, i requires 0 <= i < |kvs| => Quoted(kvs[i].1))
  }

  function Equations(kvs: KeyValues): seq<string> {
    seq(|kvs|, i requires 0 <= i < |kvs| => Equation(kvs[i]))
  }

  function Clause(pairs: KeyValues): string {
    if pairs == [] then "" else " WHERE " + Ands(Equations(pairs))
  }

  function Spelled(s: Statement): string {
    match s
    case InsertInto(table, kvs) =>
      "INSERT INTO " + table + " (" + Commas(Names(kvs)) + ") VALUES (" + Commas(QuotedValues(kvs)) + ")"
    case UpdateSet(table, kvs, pairs) => "UPDATE " + table + " SET " + Commas(Equations(kvs)) + Clause(pairs)
    case DeleteFrom(table, pairs) => "DELETE FROM " + table + Clause(pairs)
    case CountFrom(table, pairs) => "SELECT COUNT(*) AS cnt FROM " + table + Clause(pairs)
    case SelectFrom(table, pairs) => "SELECT * FROM " + table + Clause(pairs)
  }

  // ------------------------------------------------------------------ that is what is printed

  lemma {:induction false} EscapeSpelled(value: string)
    ensures Escape(value) == Doubled(value)
  {
    if value != [] {
      EscapeSpelled(value[1..]);
      assert EscapeChar(value[0]) == if value[0] == '\'' then "''" else [value[0]];
    }
  }

  lemma LiteralSpelled(value: string)
    ensures Literal(value) == Quoted(value)
  {
    EscapeSpelled(value);
    assert [QUOTE] == "'";
  }

  lemma AssignmentSpelled(kv: KeyValue)
    ensures Assignment(kv) == Equation(kv)
  {
    EscapeSpelled(kv.1);
    assert kv.0 + EQUALS + ([QUOTE] + Escape(kv.1) + [QUOTE]) == kv.0 + " = '" + Escape(kv.1) + "'";
  }

  lemma {:induction false} CommasSpelled(parts: seq<string>)
    ensures Join(parts, COMMA) == Commas(parts)
  {
    if |parts| > 1 {
      CommasSpelled(parts[1..]);
    }
  }

  lemma {:induction false} AndsSpelled(parts: seq<string>)
    ensures Join(parts, AND) == Ands(parts)
  {
    if |parts| > 1 {
      AndsSpelled(parts[1..]);
    }
  }

  lemma EquationsSpelled(kvs: KeyValues)
    ensures Assignments(kvs) == Equations(kvs)
  {
    forall i | 0 <= i < |kvs| ensures Assignments(kvs)[i] == Equations(kvs)[i] {
      AssignmentSpelled(kvs[i]);
    }
  }

  lemma ValuesSpelled(kvs: KeyValues)
    ensures Literals(Values(kvs)) == QuotedValues(kvs) && Columns(kvs) == Names(kvs)
  {
    forall i | 0 <= i < |kvs| ensures Literals(Values(kvs))[i] == QuotedValues(kvs)[i] {
      LiteralSpelled(kvs[i].1);
    }
  }

  /** The WHERE clause: the conditions, joined by AND. */
  lemma WhereSpelled(pairs: KeyValues)
    ensures WhereText(pairs) == Clause(pairs)
  {
    EquationsSpelled(pairs);
    AndsSpelled(Assignments(pairs));
  }

  lemma ThreeParts(a: string, b: string, c: string)
    ensures a + (b + c) == a + b + c
  {
  }

  lemma FiveParts(a: string, b: string, c: string, d: string, e: string)
    ensures a + (b + (c + (d + e))) == a + b + c + d + e
  {
  }

  lemma SevenParts(a: string, b: string, c: string, d: string, e: string, f: string, g: string)
    ensures a + (b + (c + (d + (e + (f + g))))) == a + b + c + d + e + f + g
  {
    FiveParts(a, b, c, d, e + (f + g));
    assert a + b + c + d + (e + (f + g)) == a + b + c + d + e + f + g;
  }

  /** Every statement sent to the database, letter by letter. */
  lemma RenderSpelled(s: Statement)
    ensures Render(s) == Spelled(s)
  {
    match s
    case InsertInto(table, kvs) =>
      ValuesSpelled(kvs);
      CommasSpelled(Columns(kvs));
      CommasSpelled(Literals(Values(kvs)));
      SevenParts(INSERT_INTO, table, OPEN, Commas(Names(kvs)), VALUES, Commas(QuotedValues(kvs)), CLOSE);
    case UpdateSet(table, kvs, pairs) =>
      EquationsSpelled(kvs);
      CommasSpelled(Assignments(kvs));
      WhereSpelled(pairs);
      FiveParts(UPDATE, table, SET, Commas(Equations(kvs)), Clause(pairs));
    case DeleteFrom(table, pairs) =>
      WhereSpelled(pairs);
      ThreeParts(DELETE_FROM, table, Clause(pairs));
    case CountFrom(table, pairs) =>
      WhereSpelled(pairs);
      ThreeParts(SELECT_COUNT, table, Clause(pairs));
    case SelectFrom(table, pairs) =>
      WhereSpelled(pairs);
      ThreeParts(SELECT_ALL, table, Clause(pairs));
  }

  /** A COUNT answers with one row whose `cnt` cell is the number of matching rows. */
  lemma CountSpelled(table: string, pairs: KeyValues, db: Tables)
    requires table in db
    ensures Apply(CountFrom(table, pairs), db) == Some((db, [map["cnt" := IntText(|Matching(db[table], pairs)|)]]))
  {
  }

  /** Decimal text: the ten digits, and one digit appended per place. */
  lemma DigitsSpelled(n: nat, d: nat)
    requires d < 10
    ensures NatText(d) == ["0123456789"[d]]
    ensures n > 0 ==> NatText(10 * n + d) == NatText(n) + ["0123456789"[d]]
    ensures var z: int := n; n > 0 ==> IntText(-z) == "-" + NatText(n)
  {
    DigitSpelled(d);
    assert (10 * n + d) / 10 == n && (10 * n + d) % 10 == d;
  }

  lemma DigitSpelled(d: nat)
    requires d < 10
    ensures Digit(d) == "0123456789"[d]
  {
  }

  // ------------------------------------------------------------------ the account tables

  /** The columns written for an account, by name and in order, with the status a message without one gets. */
  lemma AccountColumns(m: AccountMessage)
    ensures TRADING_ACCOUNT == "trading_account"
    ensures BuildTradingAccountValues(ToTradingAccountRecord(m)) ==
            [("account_id", m.accountId), ("broker_id", m.brokerId), ("connection_string", m.connectionString),
             ("status", if m.status == "" then "active" else m.status)]
    ensures BuildTradingAccountValues(AccountKey(m.accountId)) == [("account_id", m.accountId)]
  {
  }

  lemma CredentialColumns(id: string, a: Account)
    ensures ACCOUNT_CREDENTIAL == "account_credential"
    ensures BuildAccountCredentialValues(CredentialOf(id, a)) ==
            [("account_id", id), ("credential_type", "1"), ("key_id", "stub-v1"), ("ciphertext", a.password)]
    ensures BuildAccountCredentialValues(PasswordKey(id)) == [("account_id", id), ("credential_type", "1")]
  {
    PasswordText();
  }

  /** The WHERE of every credential read and update: both conditions, joined by AND. */
  lemma PasswordClause(id: string)
    requires id != ""
    ensures WhereText(NonEmpty(BuildAccountCredentialValues(PasswordKey(id)))) ==
            Clause([("account_id", id), ("credential_type", "1")])
  {
    KeyLists(id);
    WhereSpelled(ByPassword(id));
  }
}
