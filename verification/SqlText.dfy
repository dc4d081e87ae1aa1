/**
  The SQL fragment the DAO helpers print: literals with doubled quotes (character string literal,
  section 5.3 of ISO/IEC 9075-2, no backslash escapes), assignment lists, WHERE clauses and the five
  statements built from them.  The loops that print them are proved against the functions here.
*/
module SqlText {
  type KeyValue = (string, string)
  type KeyValues = seq<KeyValue>

  datatype Statement =
    | InsertInto(table: string, values: KeyValues)
    | UpdateSet(table: string, values: KeyValues, where_: KeyValues)
    | DeleteFrom(table: string, where_: KeyValues)
    | CountFrom(table: string, where_: KeyValues)
    | SelectFrom(table: string, where_: KeyValues)

  const QUOTE := '\''
  const COMMA := ", "
  const AND := " AND "
  const WHERE := " WHERE "
  const EQUALS := " = "
  const OPEN := " ("
  const VALUES := ") VALUES ("
  const CLOSE := ")"
  const SET := " SET "
  const INSERT_INTO := "INSERT INTO "
  const UPDATE := "UPDATE "
  const DELETE_FROM := "DELETE FROM "
  const SELECT_COUNT := "SELECT COUNT(*) AS cnt FROM "
  const SELECT_ALL := "SELECT * FROM "

  // ------------------------------------------------------------------ what is printed

  function EscapeChar(c: char): string {
    if c == QUOTE then [QUOTE, QUOTE] else [c]
  }

  function Escape(value: string): string {
    if value == [] then [] else EscapeChar(value[0]) + Escape(value[1..])
  }

  function Literal(value: string): string {
    [QUOTE] + Escape(value) + [QUOTE]
  }

  function Assignment(kv: KeyValue): string {
    kv.0 + EQUALS + Literal(kv.1)
  }

  /** The given texts, with `separator` between each two. */
  function Join(parts: seq<string>, separator: string): string {
    if parts == [] then []
    else if |parts| == 1 then parts[0]
    else parts[0] + separator + Join(parts[1..], separator)
  }

  function Columns(kvs: KeyValues): seq<string> {
    seq(|kvs|, i requires 0 <= i < |kvs| => kvs[i].0)
  }

  function Values(kvs: KeyValues): seq<string> {
    seq(|kvs|, i requires 0 <= i < |kvs| => kvs[i].1)
  }

  function Literals(values: seq<string>): seq<string> {
    seq(|values|, i requires 0 <= i < |values| => Literal(values[i]))
  }

  function Assignments(kvs: KeyValues): seq<string> {
    seq(|kvs|, i requires 0 <= i < |kvs| => Assignment(kvs[i]))
  }

  function WhereText(pairs: KeyValues): string {
    if pairs == [] then [] else WHERE + Join(Assignments(pairs), AND)
  }

  function Render(s: Statement): string {
    match s
    case InsertInto(table, kvs) =>
      INSERT_INTO + (table + (OPEN + (Join(Columns(kvs), COMMA) + (VALUES + (Join(Literals(Values(kvs)), COMMA) + CLOSE)))))
    case UpdateSet(table, kvs, pairs) =>
      UPDATE + (table + (SET + (Join(Assignments(kvs), COMMA) + WhereText(pairs))))
    case DeleteFrom(table, pairs) => DELETE_FROM + (table + WhereText(pairs))
    case CountFrom(table, pairs) => SELECT_COUNT + (table + WhereText(pairs))
    case SelectFrom(table, pairs) => SELECT_ALL + (table + WhereText(pairs))
  }

  /** The pairs a WHERE clause keeps: an empty value is no condition. */
  function NonEmpty(kvs: KeyValues): KeyValues {
    if kvs == [] then []
    else (if kvs[0].1 == [] then [] else [kvs[0]]) + NonEmpty(kvs[1..])
  }

  // ------------------------------------------------------------------ the loops that print it

  lemma EscapeGrows(escaped: string, value: string, i: nat)
    requires i < |value|
    ensures escaped + Escape(value[i..]) == (escaped + EscapeChar(value[i])) + Escape(value[i + 1..])
  {
    assert value[i..][0] == value[i] && value[i..][1..] == value[i + 1..];
    assert Escape(value[i..]) == EscapeChar(value[i]) + Escape(value[i + 1..]);
  }

  method EscapeSqlLiteral(value: string) returns (escaped: string)
    ensures escaped == Escape(value)
  {
    escaped := [];
    for i := 0 to |value|
      invariant escaped + Escape(value[i..]) == Escape(value)
    {
      EscapeGrows(escaped, value, i);
      if value[i] == QUOTE {
        escaped := escaped + [QUOTE, QUOTE];
      } else {
        escaped := escaped + [value[i]];
      }
    }
  }

  lemma JoinSnoc(parts: seq<string>, part: string, separator: string)
    ensures Join(parts + [part], separator) ==
            if parts == [] then part else Join(parts, separator) + separator + part
  {
    if |parts| > 1 {
      JoinSnoc(parts[1..], part, separator);
      assert (parts + [part])[1..] == parts[1..] + [part];
      Regrouped(parts[0] + separator, Join(parts[1..], separator), separator, part);
    } else if |parts| == 1 {
      assert (parts + [part])[1..] == [part];
    }
  }

  lemma Regrouped(a: string, b: string, c: string, d: string)
    ensures a + (b + c + d) == (a + b) + c + d
  {
  }

  /** One turn of a loop that prints a list: a separator before every part but the first. */
  lemma JoinGrows(parts: seq<string>, part: string, separator: string)
    ensures Join(parts + [part], separator) ==
            (if parts == [] then Join(parts, separator) else Join(parts, separator) + separator) + part
  {
    JoinSnoc(parts, part, separator);
    assert [] + part == part;
  }

  method BuildAssignments(values: KeyValues) returns (sql: string)
    ensures sql == Join(Assignments(values), COMMA)
  {
    sql := [];
    for index := 0 to |values|
      invariant sql == Join(Assignments(values[..index]), COMMA)
    {
      JoinGrows(Assignments(values[..index]), Assignment(values[index]), COMMA);
      assert Assignments(values[..index + 1]) == Assignments(values[..index]) + [Assignment(values[index])];
      if index > 0 {
        sql := sql + COMMA;
      }
      var escaped := EscapeSqlLiteral(values[index].1);
      sql := sql + (values[index].0 + EQUALS + ([QUOTE] + escaped + [QUOTE]));
    }
    assert values[..|values|] == values;
  }

  method BuildInsertColumns(values: KeyValues) returns (sql: string)
    ensures sql == "(" + Join(Columns(values), COMMA) + VALUES + Join(Literals(Values(values)), COMMA) + CLOSE
  {
    var columns, placeholders: string := [], [];
    for index := 0 to |values|
      invariant columns == Join(Columns(values[..index]), COMMA)
      invariant placeholders == Join(Literals(Values(values[..index])), COMMA)
    {
      var upto := values[..index + 1];
      JoinGrows(Columns(values[..index]), values[index].0, COMMA);
      JoinGrows(Literals(Values(values[..index])), Literal(values[index].1), COMMA);
      assert Columns(upto) == Columns(values[..index]) + [values[index].0];
      assert Literals(Values(upto)) == Literals(Values(values[..index])) + [Literal(values[index].1)];
      if index > 0 {
        columns := columns + COMMA;
        placeholders := placeholders + COMMA;
      }
      var escaped := EscapeSqlLiteral(values[index].1);
      columns := columns + values[index].0;
      placeholders := placeholders + ([QUOTE] + escaped + [QUOTE]);
    }
    assert values[..|values|] == values;
    sql := "(" + columns + VALUES + placeholders + CLOSE;
  }

  /** Appends one condition unless its value is empty; `hasWhere` tells whether one was appended before. */
  method AppendStringEq(sql: string, column: string, value: string, hasWhere: bool)
    returns (sql': string, hasWhere': bool)
    ensures value == [] ==> sql' == sql && hasWhere' == hasWhere
    ensures value != [] ==>
              sql' == sql + (if hasWhere then AND else WHERE) + Assignment((column, value)) && hasWhere'
  {
    sql', hasWhere' := sql, hasWhere;
    if value == [] {
      return;
    }
    sql' := sql' + if hasWhere then AND else WHERE;
    hasWhere' := true;
    var escaped := EscapeSqlLiteral(value);
    sql' := sql' + (column + EQUALS + ([QUOTE] + escaped + [QUOTE]));
  }

  lemma NonEmptySnoc(kvs: KeyValues, kv: KeyValue)
    ensures NonEmpty(kvs + [kv]) == NonEmpty(kvs) + if kv.1 == [] then [] else [kv]
  {
    if kvs != [] {
      NonEmptySnoc(kvs[1..], kv);
      assert (kvs + [kv])[1..] == kvs[1..] + [kv];
    }
  }

  lemma WhereTextSnoc(pairs: KeyValues, kv: KeyValue)
    ensures WhereText(pairs + [kv]) == WhereText(pairs) + (if pairs == [] then WHERE else AND) + Assignment(kv)
  {
    JoinSnoc(Assignments(pairs), Assignment(kv), AND);
    assert Assignments(pairs + [kv]) == Assignments(pairs) + [Assignment(kv)];
    if pairs == [] {
      assert [] + WHERE == WHERE;
    } else {
      Regrouped(WHERE, Join(Assignments(pairs), AND), AND, Assignment(kv));
    }
  }

  method BuildWhereSql(whereValues: KeyValues) returns (sql: string)
    ensures sql == WhereText(NonEmpty(whereValues))
  {
    if whereValues == [] {
      return [];
    }
    sql := [];
    var hasWhere := false;
    for i := 0 to |whereValues|
      invariant sql == WhereText(NonEmpty(whereValues[..i]))
      invariant hasWhere == (NonEmpty(whereValues[..i]) != [])
    {
      ghost var pairs := NonEmpty(whereValues[..i]);
      NonEmptySnoc(whereValues[..i], whereValues[i]);
      WhereTextSnoc(pairs, whereValues[i]);
      assert pairs + [] == pairs;
      assert (whereValues[i].0, whereValues[i].1) == whereValues[i];
      assert whereValues[..i + 1] == whereValues[..i] + [whereValues[i]];
      sql, hasWhere := AppendStringEq(sql, whereValues[i].0, whereValues[i].1, hasWhere);
    }
    assert whereValues[..|whereValues|] == whereValues;
  }
}
