/** A reader for the printed SQL fragment.  How it agrees with the printer is proved in SqlRoundTrip. */
module SqlParser {
  import opened Wrappers
  import opened SqlText

  type Parsed<+T> = Option<(T, string)>

  predicate IsIdentifierChar(c: char) {
    'a' <= c <= 'z' || 'A' <= c <= 'Z' || '0' <= c <= '9' || c == '_'
  }

  predicate IsIdentifier(s: string) {
    s != [] && forall i :: 0 <= i < |s| ==> IsIdentifierChar(s[i])
  }

  predicate ColumnsAreIdentifiers(kvs: KeyValues) {
    forall i :: 0 <= i < |kvs| ==> IsIdentifier(kvs[i].0)
  }

  predicate WellFormed(s: Statement) {
    && IsIdentifier(s.table)
    && (s.InsertInto? ==> s.values != [] && ColumnsAreIdentifiers(s.values))
    && (s.UpdateSet? ==> s.values != [] && ColumnsAreIdentifiers(s.values))
    && (!s.InsertInto? ==> ColumnsAreIdentifiers(s.where_))
  }

  // ------------------------------------------------------------------ the reader

  function Expect(token: string, s: string): Option<string> {
    if token <= s then Some(s[|token|..]) else None
  }

  /** The inside of a literal up to its closing quote: the first quote that is not doubled. */
  function ParseBody(s: string): Parsed<string> {
    if s == [] then None
    else if s[0] != QUOTE then
      var r := ParseBody(s[1..]);
      if r.None? then None else Some(([s[0]] + r.value.0, r.value.1))
    else if |s| > 1 && s[1] == QUOTE then
      var r := ParseBody(s[2..]);
      if r.None? then None else Some(([QUOTE] + r.value.0, r.value.1))
    else Some(([], s[1..]))
  }

  function ParseLiteral(s: string): Parsed<string> {
    if s != [] && s[0] == QUOTE then ParseBody(s[1..]) else None
  }

  function IdentifierLength(s: string): (n: nat)
    ensures n <= |s|
  {
    if s != [] && IsIdentifierChar(s[0]) then 1 + IdentifierLength(s[1..]) else 0
  }

  function ParseIdentifier(s: string): Parsed<string> {
    var n := IdentifierLength(s);
    if n == 0 then None else Some((s[..n], s[n..]))
  }

  function ParseAssignment(s: string): Parsed<KeyValue> {
    var column := ParseIdentifier(s);
    if column.None? then None else
    var rest := Expect(EQUALS, column.value.1);
    if rest.None? then None else
    var value := ParseLiteral(rest.value);
    if value.None? then None else Some(((column.value.0, value.value.0), value.value.1))
  }

  /** What the elements of a printed list can be. */
  datatype Item = ColumnItem | LiteralItem | AssignmentItem

  /** One list element, as a column with a value; a bare column or literal leaves the other part empty. */
  function ParseItem(item: Item, s: string): Parsed<KeyValue> {
    match item
    case ColumnItem =>
      var r := ParseIdentifier(s);
      if r.None? then None else Some(((r.value.0, []), r.value.1))
    case LiteralItem =>
      var r := ParseLiteral(s);
      if r.None? then None else Some((([], r.value.0), r.value.1))
    case AssignmentItem => ParseAssignment(s)
  }

  function ParseList(item: Item, separator: string, s: string): (r: Parsed<KeyValues>)
    decreases |s|
  {
    var first := ParseItem(item, s);
    if first.None? then None else
    var rest := Expect(separator, first.value.1);
    if rest.None? then Some(([first.value.0], first.value.1))
    else if |rest.value| >= |s| then None
    else
      var more := ParseList(item, separator, rest.value);
      if more.None? then None else Some(([first.value.0] + more.value.0, more.value.1))
  }

  /** The optional WHERE clause, which ends the statement. */
  function ParseWhere(s: string): Option<KeyValues> {
    if s == [] then Some([]) else
    var rest := Expect(WHERE, s);
    if rest.None? then None else
    var pairs := ParseList(AssignmentItem, AND, rest.value);
    if pairs.None? || pairs.value.1 != [] then None else Some(pairs.value.0)
  }

  function Zip(columns: KeyValues, values: KeyValues): KeyValues
    requires |columns| == |values|
  {
    seq(|columns|, i requires 0 <= i < |columns| => (columns[i].0, values[i].1))
  }

  function ParseInsert(table: string, s: string): Option<Statement> {
    var open := Expect(OPEN, s);
    if open.None? then None else
    var columns := ParseList(ColumnItem, COMMA, open.value);
    if columns.None? then None else
    var middle := Expect(VALUES, columns.value.1);
    if middle.None? then None else
    var values := ParseList(LiteralItem, COMMA, middle.value);
    if values.None? || values.value.1 != CLOSE || |columns.value.0| != |values.value.0| then None
    else Some(InsertInto(table, Zip(columns.value.0, values.value.0)))
  }

  function ParseUpdate(table: string, s: string): Option<Statement> {
    var set_ := Expect(SET, s);
    if set_.None? then None else
    var values := ParseList(AssignmentItem, COMMA, set_.value);
    if values.None? then None else
    var pairs := ParseWhere(values.value.1);
    if pairs.None? then None else Some(UpdateSet(table, values.value.0, pairs.value))
  }

  datatype Verb = InsertVerb | UpdateVerb | DeleteVerb | CountVerb | SelectVerb

  function VerbText(v: Verb): string {
    match v
    case InsertVerb => INSERT_INTO
    case UpdateVerb => UPDATE
    case DeleteVerb => DELETE_FROM
    case CountVerb => SELECT_COUNT
    case SelectVerb => SELECT_ALL
  }

  function ParseAfterVerb(v: Verb, s: string): Option<Statement> {
    var table := ParseIdentifier(s);
    if table.None? then None else
    var (name, rest) := table.value;
    match v
    case InsertVerb => ParseInsert(name, rest)
    case UpdateVerb => ParseUpdate(name, rest)
    case _ =>
      var pairs := ParseWhere(rest);
      if pairs.None? then None
      else if v == DeleteVerb then Some(DeleteFrom(name, pairs.value))
      else if v == CountVerb then Some(CountFrom(name, pairs.value))
      else Some(SelectFrom(name, pairs.value))
  }

  function VerbOf(s: string): Option<Verb> {
    if VerbText(InsertVerb) <= s then Some(InsertVerb)
    else if VerbText(UpdateVerb) <= s then Some(UpdateVerb)
    else if VerbText(DeleteVerb) <= s then Some(DeleteVerb)
    else if VerbText(CountVerb) <= s then Some(CountVerb)
    else if VerbText(SelectVerb) <= s then Some(SelectVerb)
    else None
  }

  function Parse(s: string): Option<Statement> {
    var v := VerbOf(s);
    if v.None? then None else ParseAfterVerb(v.value, s[|VerbText(v.value)|..])
  }
}
