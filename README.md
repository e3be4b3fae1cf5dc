# SearchUtils: autocomplete tokenizer, boolean atoms and query builder

This project models the core of `SearchUtils` from the App Engine utilities library. It has three parts.

- **Autocomplete tokenizer.** `tokenizeAutocomplete` splits a text into words. It cuts at every run of characters outside `[0-9a-zA-Z']`, with Java's `String.split` rules. Each word longer than the minimum size is expanded into all of its substrings of at least that length. Shorter words are kept whole. Every token is followed by one space.
- **Boolean atoms.** A search document stores `true` as the atom `"1"` and `false` as `"0"`. Reading an atom back gives `true` only for `"1"`.
- **Query builder.** `SearchUtils.Builder` assembles a query string for the search service. It holds a buffer that only grows and a counter of open parentheses. Before each part it appends, it adds a space when the buffer is non-empty and does not end in a space or `(`. A text searched for in a field is quoted when it contains a space. Free text (`text(String)`) is appended as it is. `build` throws `UnmatchedParenthesis` unless the counter is zero.

Files:

- `wrappers.dfy`: `Option` stands for a Java `null`. `Result` stands for a thrown exception. `ConcatAssoc` regroups concatenations for the string proofs.
- `words.dfy` (module `Words`): `splitTextToWords` with `String.split` semantics.
  - With no separator in the text, the text is the only word, so `""` gives `[""]`.
  - Otherwise the text is cut at each maximal separator run. A leading empty word is kept and trailing empty words are dropped.
  - `WordsAreRuns` and `RunSplitIsSplit` show that the words are exactly the text's maximal runs of word characters, in order, with the first at offset 0.
- `autocomplete.dfy` (module `Autocomplete`): the tokenizer.
  - `TokenizeAutocomplete` has the loop over words, `AppendWordTokens` the loop over start offsets, and `AppendRow` the loop over lengths.
  - `TokenizeAutocomplete` is proved to return `Render(TextTokens(SplitTextToWords(text), minSize))` for a positive minimum size.
  - One call of `AppendWordTokens` is proved to append `Render(WordTokens(word, minSize))`.
  - One call of `AppendRow` is proved to append `Render(Row(word, i, minSize, RowLength(|word|, minSize, i)))`: the row of tokens that start at offset `i`.
  - Lemmas about that specification give the token count, position, order, content and round trip.
- `atoms.dfy` (module `Atoms`): `getAtom` and `getBoolean`.
- `query_text.dfy` (module `QueryText`):
  - the field operators and their symbols;
  - the combine operators;
  - `quote`;
  - the space-insertion rule;
  - joining clauses.
- `query_builder.dfy` (module `QueryBuilder`): the builder.
  - Each operation is written as a function from the state (`Query`: counter and buffer) to the new state. The lemmas reason about these functions.
  - The class `Builder` has the two fields of the Java class and performs the same steps in place. Each method is proved to produce the state its function describes.
  - `Call`, `Step` and `Run` describe any sequence of builder calls.

Points where the code's behaviour is easy to miss:

- `isTrue(field)` / `isFalse(field)` append `field:1` / `field:0` without quoting (`SearchUtils.java:699-714`).
- `text(field, op, texts...)` appends the operator with no space in front of it. Two texts in field `tag` give `(tag:aOR tag:b)`, because the operator comes straight after the previous clause and only the following clause gets a space (`SearchUtils.java:851`). `textInFields` does put a space before the operator: `(a:x OR b:x)` (`SearchUtils.java:748`).
- The parenthesis counter is not guarded. `popParenthesis` on a fresh builder leaves it at -1, and `build` then fails (`SearchUtils.java:812-816`).
- `String.split` keeps a leading empty word when the text starts with a separator and still holds a word character, and it returns `[""]` for `""`. Both empty words become an empty token followed by a space. So `", ab"` with minimum size 2 tokenizes to `" ab "`, and `""` to `" "`.
- `textInFields` quotes the text and then quotes it again through `text(text, field)`. Quoting is idempotent (`QuoteIdempotent`), so this changes nothing.

## Model

| member | source | states |
|---|---|---|
| Words.SplitTextToWords | src/main/java/com/spiddekauga/appengine/SearchUtils.java:307-309 | A text without a separator is its own only word, so `""` gives `[""]`; otherwise the last word is non-empty. WordsAreRuns and RunSplitIsSplit pin the words down as the text's maximal word-character runs, in order |
| Words.Pieces | src/main/java/com/spiddekauga/appengine/SearchUtils.java:307-309 | Cutting at every maximal separator run gives at least one piece. PiecesAreRuns places piece i at its offset in order, and PiecesShape gives which pieces may be empty |
| Words.DropTrailingEmpty | src/main/java/com/spiddekauga/appengine/SearchUtils.java:307-309 | The result is a prefix of the pieces, its last element is non-empty, and every piece dropped is empty (String.split with limit 0) |
| Words.PiecesShape | src/main/java/com/spiddekauga/appengine/SearchUtils.java:307-309 | Every piece between separator runs holds only `[0-9a-zA-Z']` and only the first and last may be empty. The first is empty iff the text starts with a separator, the last iff it ends with one. There is more than one piece iff the text has a separator |
| Words.SplitWordsShape | src/main/java/com/spiddekauga/appengine/SearchUtils.java:307-309 | Every word holds only `[0-9a-zA-Z']` and only the first word can be empty. It is empty exactly when the text is empty, or starts with a separator and still has a word character |
| Words.SplitWordsEmpty | src/main/java/com/spiddekauga/appengine/SearchUtils.java:307-309 | The empty text splits into one empty word. The result is empty iff the text is non-empty and has no word character |
| Words.SplitWordsKeepWordChars | src/main/java/com/spiddekauga/appengine/SearchUtils.java:307-309 | The words, concatenated, are exactly the word characters of the text in order |
| Words.PiecesAreRuns | src/main/java/com/spiddekauga/appengine/SearchUtils.java:307-309 | Piece i is a maximal run of `[0-9a-zA-Z']` at a returned offset. The first piece is at offset 0 and the last ends at the end of the text. Between two neighbours lies a non-empty run of separators only |
| Words.WordsAreRuns | src/main/java/com/spiddekauga/appengine/SearchUtils.java:307-309 | Unless there are no words, word i is a maximal run of `[0-9a-zA-Z']` at a returned offset. The first word is at offset 0, every later word is non-empty, a non-empty separator run lies between neighbours, and only separators follow the last word |
| Words.RunSplitUnique | src/main/java/com/spiddekauga/appengine/SearchUtils.java:307-309 | A text has only one cut of the kind WordsAreRuns describes (`IsRunSplit`): any two such cuts are equal |
| Words.RunSplitIsSplit | src/main/java/com/spiddekauga/appengine/SearchUtils.java:307-309 | Conversely, any cut of the empty text, or of a text with a word character, into ordered maximal runs is exactly what splitTextToWords returns |
| Words.ExampleSplitLeadingSeparator | src/main/java/com/spiddekauga/appengine/SearchUtils.java:307-309 | `", ab"` splits into an empty word and `ab` |
| Autocomplete.TokenizeAutocomplete | src/main/java/com/spiddekauga/appengine/SearchUtils.java:280-300 | A minimum size of 0 or less fails with IllegalArgument. Otherwise the result is the rendering of the tokens of every word of the split text, in order |
| Autocomplete.AppendWordTokens | src/main/java/com/spiddekauga/appengine/SearchUtils.java:288-296 | One pass of the word loop appends exactly the rendering of that word's tokens to what was built so far |
| Autocomplete.AppendRow | src/main/java/com/spiddekauga/appengine/SearchUtils.java:290-292 | The innermost loop appends, for one start offset, the substrings of every length from the minimum size up to the end of the word, shortest first, each followed by a space |
| Autocomplete.Render | src/main/java/com/spiddekauga/appengine/SearchUtils.java:291-295 | The output is empty iff there are no tokens, and otherwise ends in a space |
| Autocomplete.WordTokenCount | src/main/java/com/spiddekauga/appengine/SearchUtils.java:288-293 | A word of length L > m yields (L-m+1)(L-m+2)/2 tokens |
| Autocomplete.WordTokenAt | src/main/java/com/spiddekauga/appengine/SearchUtils.java:289-293 | For every start 0 <= i <= L-m and length m <= k <= L-i, the substring word[i..i+k] is a token, at position RowStart(i) + (k-m) |
| Autocomplete.TokenOrder | src/main/java/com/spiddekauga/appengine/SearchUtils.java:289-293 | Token positions grow strictly with (start offset, length) in lexicographic order |
| Autocomplete.ExpansionTokens | src/main/java/com/spiddekauga/appengine/SearchUtils.java:289-293 | Conversely, every token of a long word is a substring of the word of length at least m |
| Autocomplete.ShortWordsUnchanged | src/main/java/com/spiddekauga/appengine/SearchUtils.java:294-296 | When no word is longer than m, the tokens are the words themselves, unchanged and in order |
| Autocomplete.TokensAreWordChars | src/main/java/com/spiddekauga/appengine/SearchUtils.java:285-296 | Tokens cut from words of `[0-9a-zA-Z']` contain only those characters |
| Autocomplete.UnrenderRender | src/main/java/com/spiddekauga/appengine/SearchUtils.java:291-295 | Splitting the rendered output at its spaces gives back exactly the tokens, provided no token contains a space |
| Autocomplete.TokenizeOutput | src/main/java/com/spiddekauga/appengine/SearchUtils.java:280-300 | The tokenizer output is empty or ends in a space, every token is made of `[0-9a-zA-Z']`, and reading the output at its spaces recovers the token sequence |
| Autocomplete.ExampleTests | src/main/java/com/spiddekauga/appengine/SearchUtils.java:280-300 | "tests" with minimum size 3 gives the tokens tes, test, tests, est, ests, sts in that order |
| Autocomplete.ExampleEmptyText | src/main/java/com/spiddekauga/appengine/SearchUtils.java:285-296 | The empty text tokenizes to a single space |
| Autocomplete.ExampleLeadingSeparator | src/main/java/com/spiddekauga/appengine/SearchUtils.java:285-309 | `", ab"` with minimum size 2 tokenizes to `" ab "`: the leading empty word becomes a leading space |
| Autocomplete.ExampleOnlySeparators | src/main/java/com/spiddekauga/appengine/SearchUtils.java:285-309 | A text made only of separators tokenizes to the empty string |
| Atoms.GetAtom | src/main/java/com/spiddekauga/appengine/SearchUtils.java:551-553 | The atom is "1" or "0", and it is "1" iff the value is true |
| Atoms.GetBoolean | src/main/java/com/spiddekauga/appengine/SearchUtils.java:345-353 | The result is true iff the atom is present and equal to "1"; null and any other text give false |
| Atoms.AtomRoundTrip | src/main/java/com/spiddekauga/appengine/SearchUtils.java:345-353 | Reading back the atom stored for a boolean gives that boolean |
| QueryText.Symbol | src/main/java/com/spiddekauga/appengine/SearchUtils.java:883-909 | Each field operator's symbol is one of `:`, `<`, `>` followed by `=` exactly for `<=` and `>=`, so the five symbols are distinct |
| QueryText.Combine | src/main/java/com/spiddekauga/appengine/SearchUtils.java:901-903 | The clause is the field name, then the operator's symbol, then the value; ParseCombine reads it back |
| QueryText.Name | src/main/java/com/spiddekauga/appengine/SearchUtils.java:915-923 | A combine operator is written as its upper-case name: `AND` for And and `OR` for Or |
| QueryText.ParseCombine | src/main/java/com/spiddekauga/appengine/SearchUtils.java:883-909 | A field clause (field, operator symbol, value) reads back as its field, operator and value, when the field holds no operator character and a value after `<` or `>` does not start with `=` |
| QueryText.Quote | src/main/java/com/spiddekauga/appengine/SearchUtils.java:768-781 | A text without a space is unchanged. A text with a space becomes one quotation mark, the text without its own leading and trailing quotation marks, and one quotation mark |
| QueryText.QuoteIdempotent | src/main/java/com/spiddekauga/appengine/SearchUtils.java:768-781 | Quoting an already quoted text changes nothing |
| QueryText.QuotedPhraseUnchanged | src/main/java/com/spiddekauga/appengine/SearchUtils.java:768-781 | A phrase that already starts and ends with a quotation mark is left unchanged |
| QueryText.ExampleQuote | src/main/java/com/spiddekauga/appengine/SearchUtils.java:768-781 | "hello world" gets quotation marks; "single" is unchanged |
| QueryText.Spaced | src/main/java/com/spiddekauga/appengine/SearchUtils.java:661-668 | At most one space is added. Afterwards the buffer never needs a space, and nothing is added when it did not need one |
| QueryBuilder.BuildQuery | src/main/java/com/spiddekauga/appengine/SearchUtils.java:872-877 | Building yields the buffer or UnmatchedParenthesis, and succeeds iff the counter is zero |
| QueryBuilder.ValuesFromJoin | src/main/java/com/spiddekauga/appengine/SearchUtils.java:846-856 | After the first text, each clause follows the bare operator name and a space, so the clauses are joined by "OR " / "AND " |
| QueryBuilder.FieldsFromJoin | src/main/java/com/spiddekauga/appengine/SearchUtils.java:745-753 | After the first field, each clause follows a space, the operator name and a space |
| QueryBuilder.TextValuesShape | src/main/java/com/spiddekauga/appengine/SearchUtils.java:840-864 | No texts change nothing. Otherwise the call appends a space where needed and the clause of each quoted text joined by "OP ", in parentheses iff there is more than one text. The counter is unchanged |
| QueryBuilder.TextInFieldsShape | src/main/java/com/spiddekauga/appengine/SearchUtils.java:736-761 | No fields change nothing. Otherwise the call appends a space where needed and the clause of the once-quoted text in each field joined by " OP ", in parentheses iff there is more than one field. The counter is unchanged |
| QueryBuilder.SingleTextIsOneClause | src/main/java/com/spiddekauga/appengine/SearchUtils.java:840-864 | One text in a field is exactly `text(text, field)`: no parentheses and no operator |
| QueryBuilder.Step | src/main/java/com/spiddekauga/appengine/SearchUtils.java:652-864 | Every builder call only appends to the buffer. It raises the counter by one for pushParenthesis, lowers it by one for popParenthesis, and leaves it alone otherwise |
| QueryBuilder.Run | src/main/java/com/spiddekauga/appengine/SearchUtils.java:644-864 | After any sequence of calls the old buffer is a prefix of the new one, and the counter has moved by the number of pushes minus the number of pops |
| QueryBuilder.BuildIffBalanced | src/main/java/com/spiddekauga/appengine/SearchUtils.java:872-877 | A builder used from scratch builds successfully iff it pushed as many parentheses as it popped, and then yields its buffer |
| QueryBuilder.BoolIsTrueOrFalse | src/main/java/com/spiddekauga/appengine/SearchUtils.java:686-714 | `bool(field, value)` appends the field, a colon and the atom of the value |
| QueryBuilder.ExampleIsTrue | src/main/java/com/spiddekauga/appengine/SearchUtils.java:699-703 | `isTrue("active")` on a fresh builder gives `active:1`, unquoted |
| QueryBuilder.AndThenText | src/main/java/com/spiddekauga/appengine/SearchUtils.java:652-725 | `and()` then `text(t)` on a fresh builder gives `AND ` followed by t: no leading space, one space between |
| QueryBuilder.TwoValuesInField | src/main/java/com/spiddekauga/appengine/SearchUtils.java:840-864 | Two texts a, b without spaces in field f give `(f:a` + operator name + ` f:b)`, so OR gives `(f:aOR f:b)` with no space before the operator |
| QueryBuilder.TwoFieldsForText | src/main/java/com/spiddekauga/appengine/SearchUtils.java:736-761 | One text x without spaces in fields f and g gives `(f:x ` + operator name + ` g:x)`, so OR gives `(f:x OR g:x)` |
| QueryBuilder.ExampleUnopenedClose | src/main/java/com/spiddekauga/appengine/SearchUtils.java:812-816 | Popping on a fresh builder drives the counter to -1, and building then fails with UnmatchedParenthesis |
| QueryBuilder.Builder.constructor | src/main/java/com/spiddekauga/appengine/SearchUtils.java:645-646 | A new builder has counter 0 and an empty buffer |
| QueryBuilder.Builder.AddSpace | src/main/java/com/spiddekauga/appengine/SearchUtils.java:661-668 | The buffer becomes `Spaced(buffer)` and the counter is unchanged |
| QueryBuilder.Builder.And | src/main/java/com/spiddekauga/appengine/SearchUtils.java:652-656 | Appends "AND" after a space where needed; the counter is unchanged |
| QueryBuilder.Builder.Or | src/main/java/com/spiddekauga/appengine/SearchUtils.java:674-678 | Appends "OR" after a space where needed; the counter is unchanged |
| QueryBuilder.Builder.Bool | src/main/java/com/spiddekauga/appengine/SearchUtils.java:686-692 | Performs isTrue or isFalse according to the value |
| QueryBuilder.Builder.IsTrue | src/main/java/com/spiddekauga/appengine/SearchUtils.java:699-703 | Appends `field:1` after a space where needed |
| QueryBuilder.Builder.IsFalse | src/main/java/com/spiddekauga/appengine/SearchUtils.java:710-714 | Appends `field:0` after a space where needed |
| QueryBuilder.Builder.TextFree | src/main/java/com/spiddekauga/appengine/SearchUtils.java:721-725 | Appends the text verbatim after a space where needed |
| QueryBuilder.Builder.TextInField | src/main/java/com/spiddekauga/appengine/SearchUtils.java:802-806 | Appends `field:` and the quoted text after a space where needed |
| QueryBuilder.Builder.PushParenthesis | src/main/java/com/spiddekauga/appengine/SearchUtils.java:787-792 | Appends "(" after a space where needed and raises the counter by one |
| QueryBuilder.Builder.PopParenthesis | src/main/java/com/spiddekauga/appengine/SearchUtils.java:812-816 | Appends ")" with no space and lowers the counter by one, possibly below zero |
| QueryBuilder.Builder.TextValuesInField | src/main/java/com/spiddekauga/appengine/SearchUtils.java:840-864 | The loop leaves the state that TextValuesQuery describes, whose shape TextValuesShape gives |
| QueryBuilder.Builder.TextValuesInFieldOr | src/main/java/com/spiddekauga/appengine/SearchUtils.java:827-829 | Same as TextValuesInField with OR |
| QueryBuilder.Builder.TextInFields | src/main/java/com/spiddekauga/appengine/SearchUtils.java:736-761 | The loop leaves the state that TextInFieldsQuery describes, whose shape TextInFieldsShape gives |
| QueryBuilder.Builder.Build | src/main/java/com/spiddekauga/appengine/SearchUtils.java:872-877 | Returns `BuildQuery` of the builder's state: the buffer iff the counter is zero, otherwise UnmatchedParenthesis |

## Left out

- Search-index access is not modelled: fetching, putting and deleting documents, running queries and the batching loops over `PUT_LIMIT` (`SearchUtils.java:45-271`). These are calls into the search service.
- Document field accessors and field builders are not modelled, apart from `getAtom` and `getBoolean` (`SearchUtils.java:317-639`). This includes `createField`, `TOKENIZE_LENGTH` and the number, date and text fields. They read or build service objects.
- `DatastoreUtils.java` is not part of this model.
- Java `null` is modelled only for the atom read by `getBoolean`. The model has no other null inputs. In Java:
  - a null field name, free text or operator is written as the text `null` and does not throw;
  - `isTrue(null)` appends `null:1` (`SearchUtils.java:701`, `SearchUtils.java:902`);
  - `text((String) null)` appends `null` (`SearchUtils.java:723`), and `text("a", null)` appends `null:a` (`SearchUtils.java:804`);
  - a null `CombineOperators` is written as `null` (`SearchUtils.java:748`, `SearchUtils.java:851`);
  - only `quote(null)` (`SearchUtils.java:770`), a null array of texts or fields (`SearchUtils.java:737`, `SearchUtils.java:841`) and `tokenizeAutocomplete(null, m)` (`SearchUtils.java:308`) throw `NullPointerException`.
- Builder methods return nothing. In Java they return `this` for chaining, which only matters to callers.
- `Builder.quote` is a public method that reads no builder state. It is modelled as the module function `QueryText.Quote`.
- The Java overloads of `text` have distinct names here: `TextFree`, `TextInField`, `TextValuesInField` and `TextValuesInFieldOr`. In Java, `text(a, b)` with two strings binds to `text(text, fieldName)`.
- `StringBuilder` is modelled as a `string` field that each method reassigns. String building cost is not modelled.
- Autocomplete.TokenizeAutocomplete: the loop over start offsets sits in the helper method `AppendWordTokens`, called once per word, and the loop over lengths in `AppendRow`, called once per start offset. The loops, their bounds and their order are those of the source.
- Java strings are UTF-16. Here a character is a Unicode scalar value. This makes no difference: every character outside `[0-9a-zA-Z']`, a surrogate pair included, is a separator, and `quote` compares only the first and last character with `"`.
