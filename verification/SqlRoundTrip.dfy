/** Printing and reading SQL are inverse to each other, for arbitrary value strings. */
module SqlRoundTrip {
  import opened Wrappers
  import opened SqlText
  import opened SqlParser

  lemma ExpectExact(token: string, s: string, rest: string)
    ensures Expect(token, s) == Some(rest) <==> s == token + rest
  {
    if token <= s {
      assert s == token + s[|token|..];
    }
    if s == token + rest {
      assert s[|token|..] == rest;
    }
  }

  lemma Expects(token: string, rest: string)
    ensures Expect(token, token + rest) == Some(rest)
  {
    ExpectExact(token, token + rest, rest);
  }

  // ------------------------------------------------------------------ literals

  predicate NoQuote(rest: string) {
    rest == [] || rest[0] != QUOTE
  }

  /** An escaped value ends at its own closing quote, whatever it contains. */
  lemma {:induction false} BodyReads(value: string, rest: string)
    requires NoQuote(rest)
    ensures ParseBody(Escape(value) + ([QUOTE] + rest)) == Some((value, rest))
  {
    var s := Escape(value) + ([QUOTE] + rest);
    if value == [] {
      assert s == [QUOTE] + rest;
      assert s[1..] == rest;
    } else {
      var tail := Escape(value[1..]) + ([QUOTE] + rest);
      BodyReads(value[1..], rest);
      assert s == EscapeChar(value[0]) + tail;
      assert s[|EscapeChar(value[0])|..] == tail;
      assert value == [value[0]] + value[1..];
    }
  }

  lemma {:induction false} BodyInverse(s: string)
    ensures ParseBody(s).Some? ==>
              var (value, rest) := ParseBody(s).value; s == Escape(value) + ([QUOTE] + rest) && NoQuote(rest)
    decreases |s|
  {
    if ParseBody(s).Some? {
      var (value, rest) := ParseBody(s).value;
      if s[0] == QUOTE && (|s| == 1 || s[1] != QUOTE) {
        assert s == [QUOTE] + s[1..];
      } else {
        var n := |EscapeChar(value[0])|;
        BodyInverse(s[n..]);
        assert value[1..] == ParseBody(s[n..]).value.0;
        assert s == EscapeChar(value[0]) + s[n..];
        assert s == EscapeChar(value[0]) + (Escape(value[1..]) + ([QUOTE] + rest));
      }
    }
  }

  lemma LiteralReads(value: string, rest: string)
    requires NoQuote(rest)
    ensures ParseLiteral(Literal(value) + rest) == Some((value, rest))
  {
    BodyReads(value, rest);
    var s := Literal(value) + rest;
    assert s == [QUOTE] + (Escape(value) + ([QUOTE] + rest));
    assert s[1..] == Escape(value) + ([QUOTE] + rest);
  }

  lemma LiteralInverse(s: string)
    ensures ParseLiteral(s).Some? ==>
              var (value, rest) := ParseLiteral(s).value; s == Literal(value) + rest && NoQuote(rest)
  {
    if ParseLiteral(s).Some? {
      var (value, rest) := ParseLiteral(s).value;
      BodyInverse(s[1..]);
      assert s == [QUOTE] + (Escape(value) + ([QUOTE] + rest));
    }
  }

  // ------------------------------------------------------------------ identifiers

  predicate NoIdentifierChar(rest: string) {
    rest == [] || !IsIdentifierChar(rest[0])
  }

  lemma {:induction false} IdentifierLengthIs(s: string, n: nat)
    requires n <= |s| && (forall i :: 0 <= i < n ==> IsIdentifierChar(s[i])) && NoIdentifierChar(s[n..])
    ensures IdentifierLength(s) == n
  {
    if n > 0 {
      assert s[1..][n - 1..] == s[n..];
      IdentifierLengthIs(s[1..], n - 1);
    }
  }

  lemma {:induction false} IdentifierLengthStops(s: string)
    ensures var n := IdentifierLength(s);
            (forall i :: 0 <= i < n ==> IsIdentifierChar(s[i])) && NoIdentifierChar(s[n..])
  {
    var n := IdentifierLength(s);
    if n > 0 {
      IdentifierLengthStops(s[1..]);
      assert s[1..][n - 1..] == s[n..];
      forall i | 0 <= i < n ensures IsIdentifierChar(s[i]) {
        if i > 0 {
          assert s[i] == s[1..][i - 1];
        }
      }
    }
  }

  lemma IdentifierReads(name: string, rest: string)
    requires IsIdentifier(name) && NoIdentifierChar(rest)
    ensures ParseIdentifier(name + rest) == Some((name, rest))
  {
    assert (name + rest)[|name|..] == rest;
    IdentifierLengthIs(name + rest, |name|);
  }

  lemma IdentifierInverse(s: string)
    ensures ParseIdentifier(s).Some? ==>
              var (name, rest) := ParseIdentifier(s).value;
              s == name + rest && IsIdentifier(name) && NoIdentifierChar(rest)
  {
    IdentifierLengthStops(s);
  }

  // ------------------------------------------------------------------ list elements

  function ItemText(item: Item, kv: KeyValue): string {
    match item
    case ColumnItem => kv.0
    case LiteralItem => Literal(kv.1)
    case AssignmentItem => Assignment(kv)
  }

  predicate WellFormedItem(item: Item, kv: KeyValue) {
    match item
    case ColumnItem => IsIdentifier(kv.0) && kv.1 == []
    case LiteralItem => kv.0 == []
    case AssignmentItem => IsIdentifier(kv.0)
  }

  /** Texts that can follow an element without becoming part of it. */
  predicate CanFollow(item: Item, rest: string) {
    if item == ColumnItem then NoIdentifierChar(rest) else NoQuote(rest)
  }

  lemma AssignmentText(kv: KeyValue, rest: string)
    ensures Assignment(kv) + rest == kv.0 + (EQUALS + (Literal(kv.1) + rest))
  {
  }

  lemma AssignmentReads(kv: KeyValue, rest: string)
    requires IsIdentifier(kv.0) && NoQuote(rest)
    ensures ParseAssignment(Assignment(kv) + rest) == Some((kv, rest))
  {
    var tail := Literal(kv.1) + rest;
    AssignmentText(kv, rest);
    IdentifierReads(kv.0, EQUALS + tail);
    Expects(EQUALS, tail);
    LiteralReads(kv.1, rest);
  }

  lemma AssignmentInverse(s: string)
    ensures ParseAssignment(s).Some? ==>
              var (kv, rest) := ParseAssignment(s).value;
              s == Assignment(kv) + rest && IsIdentifier(kv.0) && NoQuote(rest)
  {
    if ParseAssignment(s).Some? {
      var (kv, rest) := ParseAssignment(s).value;
      IdentifierInverse(s);
      var afterColumn := ParseIdentifier(s).value.1;
      var afterEquals := Expect(EQUALS, afterColumn).value;
      ExpectExact(EQUALS, afterColumn, afterEquals);
      LiteralInverse(afterEquals);
      AssignmentText(kv, rest);
    }
  }

  lemma ItemReads(item: Item, kv: KeyValue, rest: string)
    requires WellFormedItem(item, kv) && CanFollow(item, rest)
    ensures ParseItem(item, ItemText(item, kv) + rest) == Some((kv, rest))
  {
    match item
    case ColumnItem => IdentifierReads(kv.0, rest);
    case LiteralItem => LiteralReads(kv.1, rest);
    case AssignmentItem => AssignmentReads(kv, rest);
  }

  lemma ItemInverse(item: Item, s: string)
    ensures ParseItem(item, s).Some? ==>
              var (kv, rest) := ParseItem(item, s).value;
              s == ItemText(item, kv) + rest && WellFormedItem(item, kv) && CanFollow(item, rest)
  {
    match item
    case ColumnItem => IdentifierInverse(s);
    case LiteralItem => LiteralInverse(s);
    case AssignmentItem => AssignmentInverse(s);
  }

  // ------------------------------------------------------------------ lists

  function ItemTexts(item: Item, kvs: KeyValues): seq<string> {
    seq(|kvs|, i requires 0 <= i < |kvs| => ItemText(item, kvs[i]))
  }

  predicate WellFormedItems(item: Item, kvs: KeyValues) {
    kvs != [] && forall i :: 0 <= i < |kvs| ==> WellFormedItem(item, kvs[i])
  }

  predicate Separates(separator: string) {
    separator != [] && separator[0] != QUOTE && !IsIdentifierChar(separator[0])
  }

  predicate EndsList(item: Item, separator: string, rest: string) {
    CanFollow(item, rest) && !(separator <= rest)
  }

  function ListText(item: Item, separator: string, kvs: KeyValues): string {
    Join(ItemTexts(item, kvs), separator)
  }

  lemma ListTextSplit(item: Item, separator: string, kvs: KeyValues)
    requires kvs != []
    ensures ListText(item, separator, kvs) ==
            if |kvs| == 1 then ItemText(item, kvs[0])
            else ItemText(item, kvs[0]) + separator + ListText(item, separator, kvs[1..])
  {
    assert ItemTexts(item, kvs)[1..] == ItemTexts(item, kvs[1..]);
  }

  lemma ListTextCons(item: Item, separator: string, kv: KeyValue, more: KeyValues, rest: string)
    requires more != []
    ensures ListText(item, separator, [kv] + more) + rest ==
            ItemText(item, kv) + (separator + (ListText(item, separator, more) + rest))
  {
    ListTextSplit(item, separator, [kv] + more);
    assert ([kv] + more)[1..] == more;
  }

  /** One element, then the separator and the rest of the list. */
  lemma ListStep(item: Item, separator: string, s: string, kv: KeyValue, tail: string, more: KeyValues, rest: string)
    requires ParseItem(item, s) == Some((kv, separator + tail)) && |tail| < |s|
    requires ParseList(item, separator, tail) == Some((more, rest))
    ensures ParseList(item, separator, s) == Some(([kv] + more, rest))
  {
    Expects(separator, tail);
  }

  lemma LongerText(text: string, separator: string, tail: string)
    requires separator != []
    ensures |tail| < |text + (separator + tail)|
  {
  }

  lemma {:induction false} ListReads(item: Item, separator: string, kvs: KeyValues, rest: string)
    requires WellFormedItems(item, kvs) && Separates(separator) && EndsList(item, separator, rest)
    ensures ParseList(item, separator, ListText(item, separator, kvs) + rest) == Some((kvs, rest))
    decreases |kvs|
  {
    if |kvs| == 1 {
      ListTextSplit(item, separator, kvs);
      ItemReads(item, kvs[0], rest);
      assert kvs == [kvs[0]];
    } else {
      var kv, more := kvs[0], kvs[1..];
      var tail := ListText(item, separator, more) + rest;
      assert kvs == [kv] + more;
      ListTextCons(item, separator, kv, more, rest);
      ItemReads(item, kv, separator + tail);
      LongerText(ItemText(item, kv), separator, tail);
      ListReads(item, separator, more, rest);
      ListStep(item, separator, ListText(item, separator, kvs) + rest, kv, tail, more, rest);
    }
  }

  lemma {:induction false} ListInverse(item: Item, separator: string, s: string)
    ensures ParseList(item, separator, s).Some? ==>
              var (kvs, rest) := ParseList(item, separator, s).value;
              && s == ListText(item, separator, kvs) + rest
              && WellFormedItems(item, kvs) && EndsList(item, separator, rest)
    decreases |s|
  {
    if ParseList(item, separator, s).Some? {
      var (kv, after) := ParseItem(item, s).value;
      ItemInverse(item, s);
      if Expect(separator, after).Some? {
        var tail := Expect(separator, after).value;
        ExpectExact(separator, after, tail);
        ListInverse(item, separator, tail);
        var (more, rest) := ParseList(item, separator, tail).value;
        ListTextCons(item, separator, kv, more, rest);
      } else {
        ListTextSplit(item, separator, [kv]);
      }
    }
  }

  // ------------------------------------------------------------------ WHERE

  lemma AssignmentTexts(kvs: KeyValues)
    ensures ItemTexts(AssignmentItem, kvs) == Assignments(kvs)
  {
  }

  lemma WhereReads(pairs: KeyValues)
    requires ColumnsAreIdentifiers(pairs)
    ensures ParseWhere(WhereText(pairs)) == Some(pairs)
  {
    if pairs != [] {
      var text := Join(Assignments(pairs), AND);
      AssignmentTexts(pairs);
      ListReads(AssignmentItem, AND, pairs, []);
      assert text + [] == text;
      Expects(WHERE, text);
    }
  }

  lemma WhereInverse(s: string)
    ensures ParseWhere(s).Some? ==> s == WhereText(ParseWhere(s).value) && ColumnsAreIdentifiers(ParseWhere(s).value)
  {
    if s != [] && ParseWhere(s).Some? {
      var pairs := ParseWhere(s).value;
      var rest := Expect(WHERE, s).value;
      ExpectExact(WHERE, s, rest);
      ListInverse(AssignmentItem, AND, rest);
      AssignmentTexts(pairs);
      assert ListText(AssignmentItem, AND, pairs) + [] == ListText(AssignmentItem, AND, pairs);
    }
  }

  // ------------------------------------------------------------------ statements

  function ColumnPairs(kvs: KeyValues): KeyValues {
    seq(|kvs|, i requires 0 <= i < |kvs| => (kvs[i].0, []))
  }

  function ValuePairs(kvs: KeyValues): KeyValues {
    seq(|kvs|, i requires 0 <= i < |kvs| => ([], kvs[i].1))
  }

  lemma PairTexts(kvs: KeyValues)
    ensures ItemTexts(ColumnItem, ColumnPairs(kvs)) == Columns(kvs)
    ensures ItemTexts(LiteralItem, ValuePairs(kvs)) == Literals(Values(kvs))
    ensures Zip(ColumnPairs(kvs), ValuePairs(kvs)) == kvs
  {
  }

  function InsertText(kvs: KeyValues): string {
    OPEN + (Join(Columns(kvs), COMMA) + (VALUES + (Join(Literals(Values(kvs)), COMMA) + CLOSE)))
  }

  lemma InsertReads(table: string, kvs: KeyValues)
    requires kvs != [] && ColumnsAreIdentifiers(kvs)
    ensures ParseInsert(table, InsertText(kvs)) == Some(InsertInto(table, kvs))
  {
    var values := Join(Literals(Values(kvs)), COMMA) + CLOSE;
    var columns := Join(Columns(kvs), COMMA) + (VALUES + values);
    PairTexts(kvs);
    Expects(OPEN, columns);
    ListReads(ColumnItem, COMMA, ColumnPairs(kvs), VALUES + values);
    Expects(VALUES, values);
    ListReads(LiteralItem, COMMA, ValuePairs(kvs), CLOSE);
  }

  lemma InsertInverse(table: string, s: string)
    ensures ParseInsert(table, s).Some? ==>
              var kvs := ParseInsert(table, s).value.values;
              && ParseInsert(table, s) == Some(InsertInto(table, kvs))
              && s == InsertText(kvs) && kvs != [] && ColumnsAreIdentifiers(kvs)
  {
    if ParseInsert(table, s).Some? {
      var kvs := ParseInsert(table, s).value.values;
      var open := Expect(OPEN, s).value;
      ExpectExact(OPEN, s, open);
      var (columns, afterColumns) := ParseList(ColumnItem, COMMA, open).value;
      ListInverse(ColumnItem, COMMA, open);
      var middle := Expect(VALUES, afterColumns).value;
      ExpectExact(VALUES, afterColumns, middle);
      var values := ParseList(LiteralItem, COMMA, middle).value.0;
      ListInverse(LiteralItem, COMMA, middle);
      assert kvs == Zip(columns, values);
      assert columns == ColumnPairs(kvs) && values == ValuePairs(kvs);
      PairTexts(kvs);
    }
  }

  function UpdateText(kvs: KeyValues, pairs: KeyValues): string {
    SET + (Join(Assignments(kvs), COMMA) + WhereText(pairs))
  }

  lemma UpdateReads(table: string, kvs: KeyValues, pairs: KeyValues)
    requires kvs != [] && ColumnsAreIdentifiers(kvs) && ColumnsAreIdentifiers(pairs)
    ensures ParseUpdate(table, UpdateText(kvs, pairs)) == Some(UpdateSet(table, kvs, pairs))
  {
    Expects(SET, Join(Assignments(kvs), COMMA) + WhereText(pairs));
    AssignmentTexts(kvs);
    ListReads(AssignmentItem, COMMA, kvs, WhereText(pairs));
    WhereReads(pairs);
  }

  lemma UpdateInverse(table: string, s: string)
    ensures ParseUpdate(table, s).Some? ==>
              var (kvs, pairs) := (ParseUpdate(table, s).value.values, ParseUpdate(table, s).value.where_);
              && ParseUpdate(table, s) == Some(UpdateSet(table, kvs, pairs))
              && s == UpdateText(kvs, pairs) && kvs != []
              && ColumnsAreIdentifiers(kvs) && ColumnsAreIdentifiers(pairs)
  {
    if ParseUpdate(table, s).Some? {
      var rest := Expect(SET, s).value;
      ExpectExact(SET, s, rest);
      var (kvs, after) := ParseList(AssignmentItem, COMMA, rest).value;
      ListInverse(AssignmentItem, COMMA, rest);
      AssignmentTexts(kvs);
      WhereInverse(after);
    }
  }

  function VerbFor(s: Statement): Verb {
    match s
    case InsertInto(_, _) => InsertVerb
    case UpdateSet(_, _, _) => UpdateVerb
    case DeleteFrom(_, _) => DeleteVerb
    case CountFrom(_, _) => CountVerb
    case SelectFrom(_, _) => SelectVerb
  }

  function TailText(s: Statement): string {
    match s
    case InsertInto(_, kvs) => InsertText(kvs)
    case UpdateSet(_, kvs, pairs) => UpdateText(kvs, pairs)
    case _ => WhereText(s.where_)
  }

  lemma RenderSplit(s: Statement)
    ensures Render(s) == VerbText(VerbFor(s)) + (s.table + TailText(s))
  {
  }

  lemma {:induction false} VerbReads(v: Verb, rest: string)
    ensures VerbOf(VerbText(v) + rest) == Some(v)
    ensures (VerbText(v) + rest)[|VerbText(v)|..] == rest
  {
    var s := VerbText(v) + rest;
    match v
    case InsertVerb =>
    case UpdateVerb => assert s[0] == 'U' && VerbText(InsertVerb)[0] == 'I';
    case DeleteVerb =>
      assert s[0] == 'D' && VerbText(InsertVerb)[0] == 'I' && VerbText(UpdateVerb)[0] == 'U';
    case CountVerb =>
      assert s[0] == 'S' && VerbText(InsertVerb)[0] == 'I';
      assert VerbText(UpdateVerb)[0] == 'U' && VerbText(DeleteVerb)[0] == 'D';
    case SelectVerb =>
      assert s[0] == 'S' && VerbText(InsertVerb)[0] == 'I';
      assert VerbText(UpdateVerb)[0] == 'U' && VerbText(DeleteVerb)[0] == 'D';
      assert s[7] == '*' && VerbText(CountVerb)[7] == 'C';
  }

  /** What follows the table's name starts with a blank, or is nothing at all. */
  lemma TailStarts(s: Statement)
    ensures NoIdentifierChar(TailText(s))
  {
    match s
    case InsertInto(_, kvs) => assert InsertText(kvs)[0] == OPEN[0] == ' ';
    case UpdateSet(_, kvs, pairs) => assert UpdateText(kvs, pairs)[0] == SET[0] == ' ';
    case _ =>
      if s.where_ != [] {
        assert WhereText(s.where_)[0] == WHERE[0] == ' ';
      }
  }

  lemma AfterTable(v: Verb, name: string, rest: string)
    requires ParseIdentifier(name + rest) == Some((name, rest))
    ensures ParseAfterVerb(v, name + rest) ==
            match v {
              case InsertVerb => ParseInsert(name, rest)
              case UpdateVerb => ParseUpdate(name, rest)
              case DeleteVerb => if ParseWhere(rest).None? then None else Some(DeleteFrom(name, ParseWhere(rest).value))
              case CountVerb => if ParseWhere(rest).None? then None else Some(CountFrom(name, ParseWhere(rest).value))
              case SelectVerb => if ParseWhere(rest).None? then None else Some(SelectFrom(name, ParseWhere(rest).value))
            }
  {
  }

  lemma TailReads(s: Statement)
    requires WellFormed(s)
    ensures ParseAfterVerb(VerbFor(s), s.table + TailText(s)) == Some(s)
  {
    TailStarts(s);
    IdentifierReads(s.table, TailText(s));
    AfterTable(VerbFor(s), s.table, TailText(s));
    match s
    case InsertInto(table, kvs) => InsertReads(table, kvs);
    case UpdateSet(table, kvs, pairs) => UpdateReads(table, kvs, pairs);
    case _ => WhereReads(s.where_);
  }

  lemma TailInverse(v: Verb, text: string)
    ensures ParseAfterVerb(v, text).Some? ==>
              var s := ParseAfterVerb(v, text).value;
              v == VerbFor(s) && text == s.table + TailText(s) && WellFormed(s)
  {
    if ParseAfterVerb(v, text).Some? {
      IdentifierInverse(text);
      var (name, rest) := ParseIdentifier(text).value;
      match v
      case InsertVerb => InsertInverse(name, rest);
      case UpdateVerb => UpdateInverse(name, rest);
      case _ => WhereInverse(rest);
    }
  }

  /** Print/parse round trip: every well-formed statement reads back as itself. */
  lemma RenderedReadsBack(s: Statement)
    requires WellFormed(s)
    ensures Parse(Render(s)) == Some(s)
  {
    RenderSplit(s);
    VerbReads(VerbFor(s), s.table + TailText(s));
    TailReads(s);
  }

  /** Exactly the renderings of well-formed statements are read, each as the one statement it renders. */
  lemma ParseExactly(text: string, s: Statement)
    ensures Parse(text) == Some(s) <==> WellFormed(s) && text == Render(s)
  {
    if Parse(text) == Some(s) {
      var v := VerbOf(text).value;
      assert VerbText(v) <= text;
      var rest := text[|VerbText(v)|..];
      assert text == VerbText(v) + rest;
      TailInverse(v, rest);
      RenderSplit(s);
    }
    if WellFormed(s) && text == Render(s) {
      RenderedReadsBack(s);
    }
  }
}
