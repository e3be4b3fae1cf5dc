/**
 * The search-query builder: a text buffer that only ever grows, and a
 * counter of opened parentheses that may go negative. Each operation puts a
 * space in front of what it adds when the buffer needs one, and building
 * the query fails unless the counter is back at zero.
 *
 * The operations are first given as functions from the builder's state to
 * its new state (`Query`), which the lemmas reason about; the `Builder`
 * class then performs them step by step on its two fields and is proved to
 * follow those functions.
 */
module QueryBuilder {
  import opened Wrappers
  import opened Atoms
  import opened QueryText

  /** The state of a builder: the parenthesis counter and the query text so far. */
  datatype Query = Query(depth: int, buffer: string)

  const Fresh: Query := Query(0, "")

  datatype BuildError = UnmatchedParenthesis

  // ---------------------------------------------------------------------------
  // The operations on the state

  function Append(q: Query, s: string): (r: Query) {
    Query(q.depth, q.buffer + s)
  }

  function WithSpace(q: Query): (r: Query) {
    Query(q.depth, Spaced(q.buffer))
  }

  function AndQuery(q: Query): (r: Query) {
    Append(WithSpace(q), Name(And))
  }

  function OrQuery(q: Query): (r: Query) {
    Append(WithSpace(q), Name(Or))
  }

  function IsTrueQuery(q: Query, fieldName: string): (r: Query) {
    Append(WithSpace(q), Combine(Equal, fieldName, TrueAtom))
  }

  function IsFalseQuery(q: Query, fieldName: string): (r: Query) {
    Append(WithSpace(q), Combine(Equal, fieldName, FalseAtom))
  }

  function BoolQuery(q: Query, fieldName: string, value: bool): (r: Query) {
    if value then IsTrueQuery(q, fieldName) else IsFalseQuery(q, fieldName)
  }

  function TextFreeQuery(q: Query, text: string): (r: Query) {
    Append(WithSpace(q), text)
  }

  function TextInFieldQuery(q: Query, text: string, fieldName: string): (r: Query) {
    Append(WithSpace(q), Combine(Equal, fieldName, Quote(text)))
  }

  function PushQuery(q: Query): (r: Query) {
    Query(q.depth + 1, Spaced(q.buffer) + "(")
  }

  function PopQuery(q: Query): (r: Query) {
    Query(q.depth - 1, q.buffer + ")")
  }

  /** The space, and the opening parenthesis when there is more than one part. */
  function OpenGroup(q: Query, count: nat): (r: Query) {
    if count > 1 then PushQuery(WithSpace(q)) else WithSpace(q)
  }

  function CloseGroup(q: Query, count: nat): (r: Query) {
    if count > 1 then PopQuery(q) else q
  }

  /** The first `n` texts searched for in one field, each after the bare operator name. */
  function ValuesFrom(q: Query, fieldName: string, op: CombineOperator, texts: seq<string>, n: nat): (r: Query)
    requires n <= |texts|
  {
    if n == 0 then q
    else
      var p := ValuesFrom(q, fieldName, op, texts, n - 1);
      TextInFieldQuery(if n - 1 != 0 then Append(p, Name(op)) else p, texts[n - 1], fieldName)
  }

  function TextValuesQuery(q: Query, fieldName: string, op: CombineOperator, texts: seq<string>): (r: Query) {
    if |texts| == 0 then q
    else CloseGroup(ValuesFrom(OpenGroup(q, |texts|), fieldName, op, texts, |texts|), |texts|)
  }

  /** The quoted text searched for in the first `n` fields, each after a space and the operator name. */
  function FieldsFrom(q: Query, quoted: string, op: CombineOperator, fieldNames: seq<string>, n: nat): (r: Query)
    requires n <= |fieldNames|
  {
    if n == 0 then q
    else
      var p := FieldsFrom(q, quoted, op, fieldNames, n - 1);
      TextInFieldQuery(if n - 1 != 0 then Append(p, " " + Name(op)) else p, quoted, fieldNames[n - 1])
  }

  function TextInFieldsQuery(q: Query, text: string, op: CombineOperator, fieldNames: seq<string>): (r: Query) {
    if |fieldNames| == 0 then q
    else
      var s := WithSpace(q);
      CloseGroup(FieldsFrom(OpenGroup(s, |fieldNames|), Quote(text), op, fieldNames, |fieldNames|), |fieldNames|)
  }

  /** Building succeeds exactly when every opened parenthesis was closed, and yields the query text. */
  function BuildQuery(q: Query): (r: Result<string, BuildError>)
    ensures r == Success(q.buffer) || r == Failure(UnmatchedParenthesis)
    ensures r.Success? <==> q.depth == 0
  {
    if q.depth != 0 then Failure(UnmatchedParenthesis) else Success(q.buffer)
  }

  // ---------------------------------------------------------------------------
  // What the grouped operations produce

  /** The clause for each text searched for in one field. */
  function ValueClauses(fieldName: string, texts: seq<string>): (clauses: seq<string>)
    ensures |clauses| == |texts|
  {
    seq(|texts|, i requires 0 <= i < |texts| => Combine(Equal, fieldName, Quote(texts[i])))
  }

  /** The clause for a quoted text in each field. */
  function FieldClauses(quoted: string, fieldNames: seq<string>): (clauses: seq<string>)
    ensures |clauses| == |fieldNames|
  {
    seq(|fieldNames|, i requires 0 <= i < |fieldNames| => Combine(Equal, fieldNames[i], quoted))
  }

  /** After an operator name the builder always adds a space. */
  lemma SpacedAfterName(b: string, op: CombineOperator)
    ensures Spaced(b + Name(op)) == b + Name(op) + " "
  {
    var s := b + Name(op);
    assert s[|s| - 1] == Name(op)[|Name(op)| - 1];
  }

  lemma ValuesStep(q: Query, fieldName: string, op: CombineOperator, texts: seq<string>, n: nat)
    requires 2 <= n <= |texts|
    ensures ValuesFrom(q, fieldName, op, texts, n)
      == Append(ValuesFrom(q, fieldName, op, texts, n - 1), Name(op) + " " + ValueClauses(fieldName, texts)[n - 1])
  {
    var p := ValuesFrom(q, fieldName, op, texts, n - 1);
    assert WithSpace(Append(p, Name(op))) == Append(p, Name(op) + " ") by {
      SpacedAfterName(p.buffer, op);
    }
    AppendAssoc(p, Name(op) + " ", Combine(Equal, fieldName, Quote(texts[n - 1])));
  }

  lemma FieldsStep(q: Query, quoted: string, op: CombineOperator, fieldNames: seq<string>, n: nat)
    requires 2 <= n <= |fieldNames|
    ensures FieldsFrom(q, quoted, op, fieldNames, n)
      == Append(FieldsFrom(q, quoted, op, fieldNames, n - 1), " " + Name(op) + " " + FieldClauses(Quote(quoted), fieldNames)[n - 1])
  {
    var p := FieldsFrom(q, quoted, op, fieldNames, n - 1);
    var sep := " " + Name(op);
    var clause := Combine(Equal, fieldNames[n - 1], Quote(quoted));
    assert FieldClauses(Quote(quoted), fieldNames)[n - 1] == clause;
    assert FieldsFrom(q, quoted, op, fieldNames, n) == Append(WithSpace(Append(p, sep)), clause);
    assert WithSpace(Append(p, sep)) == Append(p, sep + " ") by {
      ConcatAssoc(p.buffer, " ", Name(op));
      SpacedAfterName(p.buffer + " ", op);
    }
    AppendAssoc(p, sep + " ", clause);
  }

  /**
   * After the first text, each further one comes after the operator name
   * and a space: the clauses are joined by "OR " (or "AND "), with no space
   * before the operator.
   */
  lemma {:induction false} ValuesFromJoin(q: Query, fieldName: string, op: CombineOperator, texts: seq<string>, n: nat)
    requires 1 <= n <= |texts| && !NeedsSpace(q.buffer)
    ensures ValuesFrom(q, fieldName, op, texts, n)
      == Append(q, JoinWith(ValueClauses(fieldName, texts)[..n], Name(op) + " "))
  {
    var clauses := ValueClauses(fieldName, texts);
    if n == 1 {
      assert clauses[..1] == [clauses[0]];
    } else {
      ValuesFromJoin(q, fieldName, op, texts, n - 1);
      ValuesStep(q, fieldName, op, texts, n);
      JoinWithSnoc(clauses, n - 1, Name(op) + " ");
      AppendTwice(q, JoinWith(clauses[..n - 1], Name(op) + " "), Name(op) + " ", clauses[n - 1]);
    }
  }

  /** The same for one text in several fields, joined by " OR " (or " AND "). */
  lemma {:induction false} FieldsFromJoin(q: Query, quoted: string, op: CombineOperator, fieldNames: seq<string>, n: nat)
    requires 1 <= n <= |fieldNames| && !NeedsSpace(q.buffer)
    ensures FieldsFrom(q, quoted, op, fieldNames, n)
      == Append(q, JoinWith(FieldClauses(Quote(quoted), fieldNames)[..n], " " + Name(op) + " "))
  {
    var clauses := FieldClauses(Quote(quoted), fieldNames);
    if n == 1 {
      assert clauses[..1] == [clauses[0]];
    } else {
      FieldsFromJoin(q, quoted, op, fieldNames, n - 1);
      FieldsStep(q, quoted, op, fieldNames, n);
      JoinWithSnoc(clauses, n - 1, " " + Name(op) + " ");
      AppendTwice(q, JoinWith(clauses[..n - 1], " " + Name(op) + " "), " " + Name(op) + " ", clauses[n - 1]);
    }
  }

  lemma AppendAssoc(q: Query, a: string, b: string)
    ensures Append(Append(q, a), b) == Append(q, a + b)
  {
    assert q.buffer + a + b == q.buffer + (a + b);
  }

  lemma AppendTwice(q: Query, body: string, sep: string, part: string)
    ensures Append(Append(q, body), sep + part) == Append(q, body + sep + part)
  {
    assert q.buffer + body + (sep + part) == q.buffer + (body + sep + part);
  }

  /**
   * Searching for several texts in one field appends, after a space where
   * needed, the clause of each text joined by the operator name, in
   * parentheses when there is more than one text. The counter is unchanged,
   * and no texts change nothing.
   */
  lemma TextValuesShape(q: Query, fieldName: string, op: CombineOperator, texts: seq<string>)
    ensures texts == [] ==> TextValuesQuery(q, fieldName, op, texts) == q
    ensures texts != [] ==>
      TextValuesQuery(q, fieldName, op, texts)
      == Append(WithSpace(q), Group(|texts|, JoinWith(ValueClauses(fieldName, texts), Name(op) + " ")))
  {
    if texts != [] {
      var n := |texts|;
      var clauses := ValueClauses(fieldName, texts);
      var body := JoinWith(clauses, Name(op) + " ");
      GroupShape(q, n, body);
      ValuesFromJoin(OpenGroup(q, n), fieldName, op, texts, n);
      assert clauses[..n] == clauses;
    }
  }

  /**
   * Searching for one text in several fields appends, after a space where
   * needed, the clause of the quoted text in each field joined by the
   * operator name with a space on both sides, in parentheses when there is
   * more than one field. The text is quoted twice, which is the same as
   * once. The counter is unchanged, and no fields change nothing.
   */
  lemma TextInFieldsShape(q: Query, text: string, op: CombineOperator, fieldNames: seq<string>)
    ensures fieldNames == [] ==> TextInFieldsQuery(q, text, op, fieldNames) == q
    ensures fieldNames != [] ==>
      TextInFieldsQuery(q, text, op, fieldNames)
      == Append(WithSpace(q), Group(|fieldNames|, JoinWith(FieldClauses(Quote(text), fieldNames), " " + Name(op) + " ")))
  {
    if fieldNames != [] {
      var n := |fieldNames|;
      var clauses := FieldClauses(Quote(text), fieldNames);
      var body := JoinWith(clauses, " " + Name(op) + " ");
      assert WithSpace(WithSpace(q)) == WithSpace(q);
      GroupShape(WithSpace(q), n, body);
      FieldsFromJoin(OpenGroup(WithSpace(q), n), Quote(text), op, fieldNames, n);
      QuoteIdempotent(text);
      assert FieldClauses(Quote(Quote(text)), fieldNames)[..n] == clauses;
    }
  }

  /**
   * Opening a group leaves the buffer not needing a space; appending a body
   * and closing the group appends the space and the body, in parentheses
   * when the group has more than one part.
   */
  lemma GroupShape(q: Query, count: nat, body: string)
    requires count >= 1
    ensures !NeedsSpace(OpenGroup(q, count).buffer)
    ensures CloseGroup(Append(OpenGroup(q, count), body), count) == Append(WithSpace(q), Group(count, body))
  {
    if count > 1 {
      SpacedIdempotent(q.buffer);
      var b := Spaced(q.buffer);
      assert b + "(" + body + ")" == b + ("(" + body + ")");
    }
  }

  /** One text in one field is exactly a single field search: no parentheses, no operator. */
  lemma SingleTextIsOneClause(q: Query, fieldName: string, op: CombineOperator, text: string)
    ensures TextValuesQuery(q, fieldName, op, [text]) == TextInFieldQuery(q, text, fieldName)
  {
    TextValuesShape(q, fieldName, op, [text]);
    assert ValueClauses(fieldName, [text]) == [Combine(Equal, fieldName, Quote(text))];
    assert Spaced(q.buffer) == q.buffer + Spaced(q.buffer)[|q.buffer|..];
  }

  // ---------------------------------------------------------------------------
  // Sequences of calls

  /** A call on the builder, with its arguments. */
  datatype Call =
    | AndCall
    | OrCall
    | BoolCall(fieldName: string, value: bool)
    | IsTrueCall(fieldName: string)
    | IsFalseCall(fieldName: string)
    | TextFreeCall(text: string)
    | TextInFieldCall(text: string, fieldName: string)
    | TextValuesCall(fieldName: string, op: CombineOperator, texts: seq<string>)
    | TextInFieldsCall(text: string, op: CombineOperator, fieldNames: seq<string>)
    | PushCall
    | PopCall

  /** The change a call makes to the parenthesis counter. */
  function DepthChange(c: Call): (d: int) {
    match c
    case PushCall => 1
    case PopCall => -1
    case _ => 0
  }

  /**
   * One call: it only appends to the query text, and it moves the counter
   * up for an opening parenthesis, down for a closing one, and not at all
   * otherwise (the grouped searches close what they open).
   */
  function Step(q: Query, c: Call): (r: Query)
    ensures q.buffer <= r.buffer
    ensures r.depth == q.depth + DepthChange(c)
  {
    AppendAfterSpace(q);
    match c
    case AndCall => AndQuery(q)
    case OrCall => OrQuery(q)
    case BoolCall(f, v) => BoolQuery(q, f, v)
    case IsTrueCall(f) => IsTrueQuery(q, f)
    case IsFalseCall(f) => IsFalseQuery(q, f)
    case TextFreeCall(t) => TextFreeQuery(q, t)
    case TextInFieldCall(t, f) => TextInFieldQuery(q, t, f)
    case TextValuesCall(f, op, ts) =>
      TextValuesShape(q, f, op, ts);
      TextValuesQuery(q, f, op, ts)
    case TextInFieldsCall(t, op, fs) =>
      TextInFieldsShape(q, t, op, fs);
      TextInFieldsQuery(q, t, op, fs)
    case PushCall => PushQuery(q)
    case PopCall => PopQuery(q)
  }

  /** Whatever is appended after the space, the old query text stays in front. */
  lemma AppendAfterSpace(q: Query)
    ensures forall s :: q.buffer <= Append(WithSpace(q), s).buffer
  {
    forall s
      ensures q.buffer <= Append(WithSpace(q), s).buffer
    {
      assert Append(WithSpace(q), s).buffer[..|q.buffer|] == q.buffer;
    }
  }

  function Opened(calls: seq<Call>): (n: nat) {
    if calls == [] then 0
    else Opened(calls[..|calls| - 1]) + (if calls[|calls| - 1] == PushCall then 1 else 0)
  }

  function Closed(calls: seq<Call>): (n: nat) {
    if calls == [] then 0
    else Closed(calls[..|calls| - 1]) + (if calls[|calls| - 1] == PopCall then 1 else 0)
  }

  /**
   * Calls in order. The query text only grows, and the counter is the
   * number of parentheses opened minus the number closed.
   */
  function Run(q: Query, calls: seq<Call>): (r: Query)
    ensures q.buffer <= r.buffer
    ensures r.depth == q.depth + Opened(calls) - Closed(calls)
  {
    if calls == [] then q else Step(Run(q, calls[..|calls| - 1]), calls[|calls| - 1])
  }

  /**
   * A query built from scratch can be built exactly when it opened as many
   * parentheses as it closed, whatever order they came in.
   */
  lemma BuildIffBalanced(calls: seq<Call>)
    ensures BuildQuery(Run(Fresh, calls)).Success? <==> Opened(calls) == Closed(calls)
    ensures BuildQuery(Run(Fresh, calls)).Success? ==> BuildQuery(Run(Fresh, calls)).value == Run(Fresh, calls).buffer
  {
  }

  /** Choosing true or false is the same as the matching dedicated call. */
  lemma BoolIsTrueOrFalse(q: Query, fieldName: string, value: bool)
    ensures BoolQuery(q, fieldName, value) == Append(WithSpace(q), Combine(Equal, fieldName, GetAtom(value)))
  {
  }

  // ---------------------------------------------------------------------------
  // Worked examples

  /** "active" is true: the field, a colon and the true atom, without quotation marks. */
  lemma ExampleIsTrue()
    ensures Run(Fresh, [IsTrueCall("active")]).buffer == "active:1"
  {
    assert Run(Fresh, [IsTrueCall("active")]) == Step(Run(Fresh, []), IsTrueCall("active"));
  }

  /** The first call on an empty builder adds no leading space; the next one is separated by one. */
  lemma AndThenText(text: string)
    ensures Run(Fresh, [AndCall, TextFreeCall(text)]).buffer == "AND " + text
  {
    var calls := [AndCall, TextFreeCall(text)];
    assert Run(Fresh, calls[..1]).buffer == "AND" by {
      assert calls[..1][..0] == [];
    }
    assert Spaced("AND") == "AND ";
  }

  /**
   * Two texts without spaces in one field: the clauses are joined by the
   * operator name and one space after it, with no space before it, so OR
   * gives `(f:aOR f:b)`.
   */
  lemma TwoValuesInField(fieldName: string, op: CombineOperator, a: string, b: string)
    requires ' ' !in a && ' ' !in b
    ensures TextValuesQuery(Fresh, fieldName, op, [a, b]).buffer
         == "(" + (fieldName + ":" + a) + (Name(op) + " ") + (fieldName + ":" + b) + ")"
  {
    TextValuesShape(Fresh, fieldName, op, [a, b]);
    var clauses := ValueClauses(fieldName, [a, b]);
    assert clauses[..1] == [clauses[0]];
    TwoInGroup(clauses[0], Name(op) + " ", clauses[1]);
  }

  /**
   * One text without spaces in two fields: the clauses are joined by the
   * operator name with a space on both sides, so OR gives `(f:x OR g:x)`.
   */
  lemma TwoFieldsForText(text: string, op: CombineOperator, f: string, g: string)
    requires ' ' !in text
    ensures TextInFieldsQuery(Fresh, text, op, [f, g]).buffer
         == "(" + (f + ":" + text) + (" " + Name(op) + " ") + (g + ":" + text) + ")"
  {
    TextInFieldsShape(Fresh, text, op, [f, g]);
    var clauses := FieldClauses(Quote(text), [f, g]);
    assert clauses[..1] == [clauses[0]];
    TwoInGroup(clauses[0], " " + Name(op) + " ", clauses[1]);
  }

  /** Two clauses joined and grouped on a fresh builder. */
  lemma TwoInGroup(first: string, sep: string, second: string)
    ensures Append(WithSpace(Fresh), Group(2, JoinWith([first, second], sep))).buffer
         == "(" + first + sep + second + ")"
  {
    assert [first, second][..1] == [first];
    assert JoinWith([first], sep) == first;
    var body := JoinWith([first, second], sep);
    assert body == first + sep + second;
    assert WithSpace(Fresh) == Fresh;
    ConcatAssoc("(", first + sep, second);
    ConcatAssoc("(", first, sep);
  }

  /** Closing a parenthesis that was never opened drives the counter below zero, and building fails. */
  lemma ExampleUnopenedClose()
    ensures Run(Fresh, [PopCall]).depth == -1
    ensures BuildQuery(Run(Fresh, [PopCall])) == Failure(UnmatchedParenthesis)
  {
    assert Run(Fresh, [PopCall]) == Step(Run(Fresh, []), PopCall);
  }

  // ---------------------------------------------------------------------------
  // The builder object

  class Builder {
    var parentheses: int
    var buffer: string

    function State(): (q: Query)
      reads this
    {
      Query(parentheses, buffer)
    }

    constructor()
      ensures State() == Fresh
    {
      parentheses := 0;
      buffer := "";
    }

    /** Adds a space unless the buffer is empty or ends in a space or an opening parenthesis. */
    method AddSpace()
      modifies this
      ensures State() == WithSpace(old(State()))
    {
      if |buffer| >= 1 {
        var lastChar := buffer[|buffer| - 1];
        if !(lastChar == ' ' || lastChar == '(') {
          buffer := buffer + " ";
        }
      }
    }

    method And()
      modifies this
      ensures State() == AndQuery(old(State()))
    {
      AddSpace();
      buffer := buffer + Name(CombineOperator.And);
    }

    method Or()
      modifies this
      ensures State() == OrQuery(old(State()))
    {
      AddSpace();
      buffer := buffer + Name(CombineOperator.Or);
    }

    method Bool(fieldName: string, value: bool)
      modifies this
      ensures State() == BoolQuery(old(State()), fieldName, value)
    {
      if value {
        IsTrue(fieldName);
      } else {
        IsFalse(fieldName);
      }
    }

    method IsTrue(fieldName: string)
      modifies this
      ensures State() == IsTrueQuery(old(State()), fieldName)
    {
      AddSpace();
      buffer := buffer + Combine(Equal, fieldName, TrueAtom);
    }

    method IsFalse(fieldName: string)
      modifies this
      ensures State() == IsFalseQuery(old(State()), fieldName)
    {
      AddSpace();
      buffer := buffer + Combine(Equal, fieldName, FalseAtom);
    }

    /** Free text, appended as it is. */
    method TextFree(text: string)
      modifies this
      ensures State() == TextFreeQuery(old(State()), text)
    {
      AddSpace();
      buffer := buffer + text;
    }

    /** A text searched for in one field, quoted if it holds a space. */
    method TextInField(text: string, fieldName: string)
      modifies this
      ensures State() == TextInFieldQuery(old(State()), text, fieldName)
    {
      AddSpace();
      buffer := buffer + Combine(Equal, fieldName, Quote(text));
    }

    method PushParenthesis()
      modifies this
      ensures State() == PushQuery(old(State()))
    {
      AddSpace();
      buffer := buffer + "(";
      parentheses := parentheses + 1;
    }

    method PopParenthesis()
      modifies this
      ensures State() == PopQuery(old(State()))
    {
      buffer := buffer + ")";
      parentheses := parentheses - 1;
    }

    /** Several texts searched for in one field, combined with `op`. */
    method TextValuesInField(fieldName: string, op: CombineOperator, texts: seq<string>)
      modifies this
      ensures State() == TextValuesQuery(old(State()), fieldName, op, texts)
    {
      if |texts| > 0 {
        AddSpace();
        if |texts| > 1 {
          PushParenthesis();
        }
        ghost var start := State();
        for i := 0 to |texts|
          invariant State() == ValuesFrom(start, fieldName, op, texts, i)
        {
          if i != 0 {
            buffer := buffer + Name(op);
          }
          TextInField(texts[i], fieldName);
        }
        if |texts| > 1 {
          PopParenthesis();
        }
      }
    }

    /** Several texts searched for in one field, any of which may match. */
    method TextValuesInFieldOr(fieldName: string, texts: seq<string>)
      modifies this
      ensures State() == TextValuesQuery(old(State()), fieldName, CombineOperator.Or, texts)
    {
      TextValuesInField(fieldName, CombineOperator.Or, texts);
    }

    /** One text searched for in several fields, combined with `op`. */
    method TextInFields(text: string, op: CombineOperator, fieldNames: seq<string>)
      modifies this
      ensures State() == TextInFieldsQuery(old(State()), text, op, fieldNames)
    {
      if |fieldNames| > 0 {
        AddSpace();
        var quoted := Quote(text);
        if |fieldNames| > 1 {
          PushParenthesis();
        }
        ghost var start := State();
        for i := 0 to |fieldNames|
          invariant State() == FieldsFrom(start, quoted, op, fieldNames, i)
        {
          if i != 0 {
            buffer := buffer + (" " + Name(op));
          }
          TextInField(quoted, fieldNames[i]);
        }
        if |fieldNames| > 1 {
          PopParenthesis();
        }
      }
    }

    /** The query text, or UnmatchedParenthesis unless every opened parenthesis was closed. */
    method Build() returns (r: Result<string, BuildError>)
      ensures r == BuildQuery(State())
      ensures r.Success? <==> parentheses == 0
      ensures r.Success? ==> r.value == buffer
    {
      if parentheses != 0 {
        return Failure(UnmatchedParenthesis);
      }
      return Success(buffer);
    }
  }
}
