/**
 * The pieces of text a search query is made of: field clauses such as
 * `status:open` or `age>=18`, the combine operators AND and OR, quoting of
 * texts that contain a space, and the rule that puts a space in front of
 * the next part of a query.
 */
module QueryText {
  import opened Wrappers

  // ---------------------------------------------------------------------------
  // Field clauses

  /** How a field is compared with a value (there is deliberately no "not"). */
  datatype FieldOperator = Equal | Less | LessOrEqual | Greater | GreaterOrEqual

  /**
   * The operator's symbol: one operator character, followed by `=` exactly
   * for the two inclusive comparisons.
   */
  function Symbol(op: FieldOperator): (sym: string)
    ensures |sym| == 1 || |sym| == 2
    ensures IsOperatorChar(sym[0])
    ensures |sym| == 2 <==> (op == LessOrEqual || op == GreaterOrEqual)
    ensures |sym| == 2 ==> sym[1] == '='
    ensures sym[0] == ':' <==> op == Equal
    ensures sym[0] == '<' <==> (op == Less || op == LessOrEqual)
  {
    match op
    case Equal => ":"
    case Less => "<"
    case LessOrEqual => "<="
    case Greater => ">"
    case GreaterOrEqual => ">="
  }

  /** The clause for a field, an operator and a value: the field name, the operator's symbol, the value. */
  function Combine(op: FieldOperator, fieldName: string, value: string): (clause: string)
    ensures |clause| == |fieldName| + |Symbol(op)| + |value|
    ensures clause[..|fieldName|] == fieldName
    ensures clause[|fieldName|..|fieldName| + |Symbol(op)|] == Symbol(op)
    ensures clause[|fieldName| + |Symbol(op)|..] == value
  {
    fieldName + Symbol(op) + value
  }

  /** A character that starts an operator symbol. */
  predicate IsOperatorChar(c: char) {
    c == ':' || c == '<' || c == '>'
  }

  datatype Clause = Clause(fieldName: string, op: FieldOperator, value: string)

  /** Length of the longest prefix of `s` without an operator character. */
  function FieldNameLength(s: string): (n: nat)
    ensures n <= |s|
    ensures forall i :: 0 <= i < n ==> !IsOperatorChar(s[i])
    ensures n < |s| ==> IsOperatorChar(s[n])
  {
    if s == [] || IsOperatorChar(s[0]) then 0 else 1 + FieldNameLength(s[1..])
  }

  /**
   * Reads a clause back: the field name runs up to the first operator
   * character, a `<` or `>` followed by `=` is the two-character operator,
   * and the rest is the value.
   */
  function ParseClause(s: string): (clause: Option<Clause>) {
    var k := FieldNameLength(s);
    if k == |s| then None
    else if s[k] == ':' then Some(Clause(s[..k], Equal, s[k + 1..]))
    else if k + 1 < |s| && s[k + 1] == '=' then
      Some(Clause(s[..k], if s[k] == '<' then LessOrEqual else GreaterOrEqual, s[k + 2..]))
    else Some(Clause(s[..k], if s[k] == '<' then Less else Greater, s[k + 1..]))
  }

  /**
   * A clause reads back as the field, operator and value it was made from,
   * provided the field name holds no operator character and a value after
   * `<` or `>` does not start with `=` (which would read as `<=` or `>=`).
   */
  lemma ParseCombine(op: FieldOperator, fieldName: string, value: string)
    requires forall i :: 0 <= i < |fieldName| ==> !IsOperatorChar(fieldName[i])
    requires (op == Less || op == Greater) && value != [] ==> value[0] != '='
    ensures ParseClause(Combine(op, fieldName, value)) == Some(Clause(fieldName, op, value))
  {
    var s := Combine(op, fieldName, value);
    var k := |fieldName|;
    assert forall i :: 0 <= i < k ==> s[i] == fieldName[i];
    assert s[k] == Symbol(op)[0];
    assert FieldNameLength(s) == k;
    assert s[..k] == fieldName;
    var m := |Symbol(op)|;
    assert s[k + m..] == value;
    if m == 2 {
      assert s[k + 1] == '=';
    } else if op != Equal && value != [] {
      assert s[k + 1] == value[0];
    }
  }

  /** How clauses are combined. */
  datatype CombineOperator = And | Or

  /** The operator's keyword in the query syntax: upper case, one per operator. */
  function Name(op: CombineOperator): (name: string)
    ensures name == "AND" || name == "OR"
    ensures name == "AND" <==> op == And
  {
    match op
    case And => "AND"
    case Or => "OR"
  }

  // ---------------------------------------------------------------------------
  // Quoting

  /** `s` without one leading and one trailing quotation mark, where present. */
  function Strip(s: string): (stripped: string) {
    var front := if s != [] && s[0] == '"' then s[1..] else s;
    if front != [] && front[|front| - 1] == '"' then front[..|front| - 1] else front
  }

  /**
   * A text containing a space is searched for as a phrase: a quotation mark
   * is put at its front and at its back unless one is already there. A text
   * without a space is left alone.
   */
  function Quote(text: string): (quoted: string)
    ensures ' ' !in text ==> quoted == text
    ensures ' ' in text ==> quoted == "\"" + Strip(text) + "\""
  {
    if ' ' in text then
      var front := if text[0] != '"' then "\"" + text else text;
      if text[|text| - 1] != '"' then front + "\"" else front
    else text
  }

  /** Quoting twice is quoting once. */
  lemma QuoteIdempotent(text: string)
    ensures Quote(Quote(text)) == Quote(text)
  {
    if ' ' in text {
      var quoted := Quote(text);
      var i :| 0 <= i < |text| && text[i] == ' ';
      assert ' ' in quoted by {
        if text[0] == '"' {
          assert quoted[i] == ' ';
        } else {
          assert quoted[i + 1] == ' ';
        }
      }
      StripQuoted(Strip(text));
    }
  }

  lemma StripQuoted(middle: string)
    ensures Strip("\"" + middle + "\"") == middle
  {
    var s := "\"" + middle + "\"";
    assert s[1..] == middle + "\"";
    assert (middle + "\"")[..|middle|] == middle;
  }

  /** A phrase that is already quoted at both ends is left as it is. */
  lemma QuotedPhraseUnchanged(text: string)
    requires ' ' in text && |text| >= 2 && text[0] == '"' && text[|text| - 1] == '"'
    ensures Quote(text) == text
  {
    StripQuoted(text[1..|text| - 1]);
    assert text == "\"" + text[1..|text| - 1] + "\"";
  }

  /** A phrase gets quotation marks; a single word does not. */
  lemma ExampleQuote()
    ensures Quote("hello world") == "\"hello world\""
    ensures Quote("single") == "single"
  {
    assert "hello world"[5] == ' ';
    assert ' ' !in "single" by {
      assert forall i :: 0 <= i < 6 ==> "single"[i] != ' ';
    }
  }

  // ---------------------------------------------------------------------------
  // Spacing

  /** A query ending in anything but a space or an opening parenthesis needs a space before the next part. */
  predicate NeedsSpace(b: string) {
    |b| >= 1 && b[|b| - 1] != ' ' && b[|b| - 1] != '('
  }

  /** The query with a space added in front of the next part, if it needs one. */
  function Spaced(b: string): (r: string)
    ensures r == b || r == b + " "
    ensures !NeedsSpace(r)
    ensures !NeedsSpace(b) ==> r == b
  {
    if NeedsSpace(b) then b + " " else b
  }

  /** Adding a space is done at most once: a second time changes nothing. */
  lemma SpacedIdempotent(b: string)
    ensures Spaced(Spaced(b)) == Spaced(b)
  {
  }

  // ---------------------------------------------------------------------------
  // Joining clauses

  /** The parts with `sep` between each two neighbours. */
  function JoinWith(parts: seq<string>, sep: string): (joined: string) {
    if |parts| == 0 then ""
    else if |parts| == 1 then parts[0]
    else JoinWith(parts[..|parts| - 1], sep) + sep + parts[|parts| - 1]
  }

  /** Joining one more part adds the separator and that part. */
  lemma JoinWithSnoc(parts: seq<string>, n: nat, sep: string)
    requires 1 <= n < |parts|
    ensures JoinWith(parts[..n + 1], sep) == JoinWith(parts[..n], sep) + sep + parts[n]
  {
    assert parts[..n + 1][..n] == parts[..n];
  }

  /** A group of more than one clause is put in parentheses; a single clause is not. */
  function Group(count: nat, body: string): (grouped: string) {
    if count > 1 then "(" + body + ")" else body
  }
}
