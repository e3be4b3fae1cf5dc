/**
 * `SearchUtils.tokenizeAutocomplete`: every word of the text is turned into
 * the tokens an exact-token search index needs for prefix and infix
 * matching, and each token is written followed by one space.
 */
module Autocomplete {
  import opened Wrappers
  import opened Words

  /** The `IllegalArgumentException` thrown for a non-positive `minSize`. */
  datatype TokenizeError = IllegalArgument

  // ---------------------------------------------------------------------------
  // Specification of the tokens

  /** Row `i` of a word's expansion, cut short after `n` tokens: w[i..i+m], w[i..i+m+1], ..., w[i..i+m+n-1]. */
  function Row(w: string, i: nat, m: nat, n: nat): (row: seq<string>)
    requires i + m + n <= |w| + 1
  {
    seq(n, j requires 0 <= j < n => w[i..i + m + j])
  }

  /** Number of tokens in a full row `i` of the expansion of a word of length `len`. */
  function RowLength(len: nat, m: nat, i: nat): (n: nat)
    requires i + m <= len
  {
    len - i - m + 1
  }

  /** The first `r` full rows of the expansion of `w` into substrings of length at least `m`. */
  function Expansion(w: string, m: nat, r: nat): (tokens: seq<string>)
    requires m <= |w| && r <= |w| - m + 1
  {
    if r == 0 then [] else Expansion(w, m, r - 1) + Row(w, r - 1, m, RowLength(|w|, m, r - 1))
  }

  /** The tokens emitted for one word. */
  function WordTokens(w: string, m: nat): (tokens: seq<string>)
  {
    if |w| > m then Expansion(w, m, |w| - m + 1) else [w]
  }

  /** The tokens emitted for a sequence of words, word after word. */
  function TextTokens(words: seq<string>, m: nat): (tokens: seq<string>)
  {
    if words == [] then [] else TextTokens(words[..|words| - 1], m) + WordTokens(words[|words| - 1], m)
  }

  /** Each token followed by one space. */
  function Render(tokens: seq<string>): (s: string)
    ensures s == [] <==> tokens == []
    ensures s != [] ==> s[|s| - 1] == ' '
  {
    if tokens == [] then [] else tokens[0] + " " + Render(tokens[1..])
  }

  // ---------------------------------------------------------------------------
  // The tokenizer

  method TokenizeAutocomplete(text: string, minSize: int) returns (r: Result<string, TokenizeError>)
    ensures minSize <= 0 ==> r == Failure(IllegalArgument)
    ensures minSize > 0 ==> r == Success(Render(TextTokens(SplitTextToWords(text), minSize)))
  {
    if minSize <= 0 {
      return Failure(IllegalArgument);
    }
    var words := SplitTextToWords(text);
    var tokens := "";
    for w := 0 to |words|
      invariant tokens == Render(TextTokens(words[..w], minSize))
    {
      tokens := AppendWordTokens(tokens, words[w], minSize);
      ExtendTextTokens(words, w, minSize);
    }
    assert words[..|words|] == words;
    return Success(tokens);
  }

  /** One pass of the loop over the words: appends the tokens of `word`, each followed by a space. */
  method AppendWordTokens(tokens: string, word: string, minSize: nat) returns (result: string)
    ensures result == tokens + Render(WordTokens(word, minSize))
  {
    result := tokens;
    if |word| > minSize {
      for i := 0 to |word| - minSize + 1
        invariant result == tokens + Render(Expansion(word, minSize, i))
      {
        ghost var rowStart := result;
        result := AppendRow(result, word, i, minSize);
        ExtendExpansion(tokens, rowStart, result, word, minSize, i);
      }
    } else {
      RenderShortWord(word, minSize);
      result := result + word + " ";
    }
  }

  /** The innermost loop: appends every substring of `word` that starts at `i` and is at least `minSize` long, shortest first. */
  method AppendRow(tokens: string, word: string, i: nat, minSize: nat) returns (result: string)
    requires i + minSize <= |word|
    ensures result == tokens + Render(Row(word, i, minSize, RowLength(|word|, minSize, i)))
  {
    result := tokens;
    var currentLength := minSize;
    while currentLength <= |word| - i
      invariant minSize <= currentLength <= |word| - i + 1
      invariant result == tokens + Render(Row(word, i, minSize, currentLength - minSize))
    {
      var token := word[i..i + currentLength] + " ";
      ghost var done := Render(Row(word, i, minSize, currentLength - minSize));
      result := result + token;
      assert result == tokens + Render(Row(word, i, minSize, currentLength + 1 - minSize)) by {
        ExtendRow(word, i, minSize, currentLength);
        ConcatAssoc(tokens, done, token);
      }
      currentLength := currentLength + 1;
    }
  }

  // ---------------------------------------------------------------------------
  // Helpers

  lemma {:induction false} RenderAppend(a: seq<string>, b: seq<string>)
    ensures Render(a + b) == Render(a) + Render(b)
  {
    if a == [] {
      assert a + b == b;
    } else {
      assert (a + b)[0] == a[0] && (a + b)[1..] == a[1..] + b;
      RenderAppend(a[1..], b);
    }
  }

  /** A row grows by one token at a time. */
  lemma ExtendRow(w: string, i: nat, m: nat, len: nat)
    requires m <= len && i + len <= |w|
    ensures Render(Row(w, i, m, len + 1 - m)) == Render(Row(w, i, m, len - m)) + (w[i..i + len] + " ")
  {
    var t := w[i..i + len];
    assert Row(w, i, m, len + 1 - m) == Row(w, i, m, len - m) + [t];
    RenderAppend(Row(w, i, m, len - m), [t]);
    assert Render([t]) == t + " " + Render([]);
  }

  /** The expansion grows by one full row at a time. */
  lemma ExtendExpansion(tokens: string, rowStart: string, result: string, w: string, m: nat, i: nat)
    requires m <= |w| && i < |w| - m + 1
    requires rowStart == tokens + Render(Expansion(w, m, i))
    requires result == rowStart + Render(Row(w, i, m, RowLength(|w|, m, i)))
    ensures result == tokens + Render(Expansion(w, m, i + 1))
  {
    RenderAppend(Expansion(w, m, i), Row(w, i, m, RowLength(|w|, m, i)));
    ConcatAssoc(tokens, Render(Expansion(w, m, i)), Render(Row(w, i, m, RowLength(|w|, m, i))));
  }

  lemma RenderShortWord(w: string, m: nat)
    requires |w| <= m
    ensures Render(WordTokens(w, m)) == w + " "
  {
    assert Render([w]) == w + " " + Render([]);
  }

  lemma ExtendTextTokens(words: seq<string>, k: nat, m: nat)
    requires k < |words|
    ensures Render(TextTokens(words[..k], m)) + Render(WordTokens(words[k], m))
         == Render(TextTokens(words[..k + 1], m))
  {
    assert words[..k + 1][..k] == words[..k];
    RenderAppend(TextTokens(words[..k], m), WordTokens(words[k], m));
  }

  // ---------------------------------------------------------------------------
  // Counting and ordering the tokens of a long word

  /** Number of tokens in the rows before row `i`: RowLength(len, m, 0) + ... + RowLength(len, m, i - 1). */
  function RowStart(len: nat, m: nat, i: nat): (start: nat)
    requires i + m <= len + 1
  {
    if i == 0 then 0 else RowStart(len, m, i - 1) + RowLength(len, m, i - 1)
  }

  lemma {:induction false} ExpansionLength(w: string, m: nat, r: nat)
    requires m <= |w| && r <= |w| - m + 1
    ensures |Expansion(w, m, r)| == RowStart(|w|, m, r)
  {
    if r > 0 {
      ExpansionLength(w, m, r - 1);
      RowLengthIs(w, r - 1, m, RowLength(|w|, m, r - 1));
    }
  }

  lemma {:induction false} RowLengthIs(w: string, i: nat, m: nat, n: nat)
    requires i + m + n <= |w| + 1
    ensures |Row(w, i, m, n)| == n
  {
    if n > 0 {
      RowLengthIs(w, i, m, n - 1);
    }
  }

  lemma {:induction false} RowAt(w: string, i: nat, m: nat, n: nat, j: nat)
    requires i + m + n <= |w| + 1 && j < n
    ensures |Row(w, i, m, n)| == n && Row(w, i, m, n)[j] == w[i..i + m + j]
  {
    RowLengthIs(w, i, m, n);
    if j < n - 1 {
      RowAt(w, i, m, n - 1, j);
    }
  }

  lemma MulSucc(a: int, b: int)
    ensures a * (b + 1) == a * b + a
  {
  }

  lemma SuccMul(a: int, b: int)
    ensures (a + 1) * b == a * b + b
  {
  }

  /** With n = len - m + 1 rows, twice the number of tokens before row i is i(2n - i + 1). */
  lemma {:induction false} RowStartClosedForm(len: nat, m: nat, i: nat)
    requires i + m <= len + 1
    ensures 2 * RowStart(len, m, i) == i * (2 * (len - m + 1) - i + 1)
  {
    if i > 0 {
      var a, n := i - 1, len - m + 1;
      RowStartClosedForm(len, m, a);
      MulSucc(a, 2 * n - a);
      SuccMul(a, 2 * n - a);
    }
  }

  /**
   * A word of length L longer than m yields (L - m + 1)(L - m + 2)/2 tokens:
   * L - m + 1 starting offsets, and L - m + 1 - i lengths from offset i.
   */
  lemma WordTokenCount(w: string, m: nat)
    requires |w| > m
    ensures |WordTokens(w, m)| == (|w| - m + 1) * (|w| - m + 2) / 2
  {
    var n := |w| - m + 1;
    ExpansionLength(w, m, n);
    RowStartClosedForm(|w|, m, n);
    assert 2 * |WordTokens(w, m)| == n * (n + 1);
    assert (|w| - m + 1) * (|w| - m + 2) == n * (n + 1);
  }

  /** Token number RowStart(i) + (k - m) of the first r rows is w[i..i+k]. */
  lemma {:induction false} ExpansionAt(w: string, m: nat, r: nat, i: nat, k: nat)
    requires m <= |w| && r <= |w| - m + 1
    requires i < r && m <= k <= |w| - i
    ensures RowStart(|w|, m, i) + (k - m) < |Expansion(w, m, r)|
    ensures Expansion(w, m, r)[RowStart(|w|, m, i) + (k - m)] == w[i..i + k]
  {
    ExpansionLength(w, m, r - 1);
    RowLengthIs(w, r - 1, m, RowLength(|w|, m, r - 1));
    if i < r - 1 {
      ExpansionAt(w, m, r - 1, i, k);
    } else {
      RowAt(w, i, m, RowLength(|w|, m, i), k - m);
    }
  }

  /**
   * Every substring w[i..i+k] with 0 <= i <= L - m and m <= k <= L - i is a
   * token of a long word, at position RowStart(L, m, i) + (k - m).
   */
  lemma WordTokenAt(w: string, m: nat, i: nat, k: nat)
    requires |w| > m && i <= |w| - m && m <= k <= |w| - i
    ensures RowStart(|w|, m, i) + (k - m) < |WordTokens(w, m)|
    ensures WordTokens(w, m)[RowStart(|w|, m, i) + (k - m)] == w[i..i + k]
  {
    ExpansionAt(w, m, |w| - m + 1, i, k);
  }

  /**
   * Tokens are ordered by increasing start offset, then by increasing length:
   * the position of w[i..i+k] grows strictly with (i, k) in lexicographic order.
   */
  lemma TokenOrder(len: nat, m: nat, i: nat, k: nat, i': nat, k': nat)
    requires i <= len - m && m <= k <= len - i
    requires i' <= len - m && m <= k' <= len - i'
    requires i < i' || (i == i' && k < k')
    ensures RowStart(len, m, i) + (k - m) < RowStart(len, m, i') + (k' - m)
  {
    if i < i' {
      RowStartGrows(len, m, i + 1, i');
    }
  }

  lemma {:induction false} RowStartGrows(len: nat, m: nat, i: nat, j: nat)
    requires i <= j && j + m <= len + 1
    ensures RowStart(len, m, i) <= RowStart(len, m, j)
    decreases j - i
  {
    if i < j {
      RowStartGrows(len, m, i, j - 1);
    }
  }

  /** `t` occurs in `w` starting at offset `i`. */
  predicate OccursAt(t: string, w: string, i: nat) {
    i + |t| <= |w| && w[i..i + |t|] == t
  }

  predicate IsInfix(t: string, w: string) {
    exists i: nat :: i <= |w| && OccursAt(t, w, i)
  }

  /** Conversely, every token of a long word is a substring of it of length at least m. */
  lemma {:induction false} ExpansionTokens(w: string, m: nat, r: nat)
    requires m <= |w| && r <= |w| - m + 1
    ensures forall j :: 0 <= j < |Expansion(w, m, r)| ==>
      m <= |Expansion(w, m, r)[j]| && IsInfix(Expansion(w, m, r)[j], w)
  {
    if r > 0 {
      ExpansionTokens(w, m, r - 1);
      var front, row := Expansion(w, m, r - 1), Row(w, r - 1, m, RowLength(|w|, m, r - 1));
      RowLengthIs(w, r - 1, m, RowLength(|w|, m, r - 1));
      forall j | 0 <= j < |row|
        ensures m <= |row[j]| && IsInfix(row[j], w)
      {
        RowAt(w, r - 1, m, RowLength(|w|, m, r - 1), j);
        assert OccursAt(row[j], w, r - 1);
      }
      assert Expansion(w, m, r) == front + row;
    }
  }

  // ---------------------------------------------------------------------------
  // Whole words and the output text

  /** A text whose words are all of length at most m comes out word by word, unchanged. */
  lemma {:induction false} ShortWordsUnchanged(words: seq<string>, m: nat)
    requires forall i :: 0 <= i < |words| ==> |words[i]| <= m
    ensures TextTokens(words, m) == words
  {
    if words != [] {
      ShortWordsUnchanged(words[..|words| - 1], m);
      assert words == words[..|words| - 1] + [words[|words| - 1]];
    }
  }

  /** Tokens cut from words of `[0-9a-zA-Z']` are made of those characters only. */
  lemma {:induction false} TokensAreWordChars(words: seq<string>, m: nat)
    requires forall i :: 0 <= i < |words| ==> AllWordChars(words[i])
    ensures forall j :: 0 <= j < |TextTokens(words, m)| ==> AllWordChars(TextTokens(words, m)[j])
  {
    if words != [] {
      var front, last := words[..|words| - 1], words[|words| - 1];
      TokensAreWordChars(front, m);
      var tokens := WordTokens(last, m);
      forall j | 0 <= j < |tokens|
        ensures AllWordChars(tokens[j])
      {
        if |last| > m {
          ExpansionTokens(last, m, |last| - m + 1);
          var i: nat :| i <= |last| && OccursAt(tokens[j], last, i);
          assert forall c :: 0 <= c < |tokens[j]| ==> tokens[j][c] == last[i + c];
        }
      }
    }
  }

  /**
   * Reading the output the way the index reads a text field, as tokens
   * separated by spaces: the prefix up to the first space is a token, and the
   * rest is read after that space.
   */
  function Unrender(s: string): (tokens: seq<string>)
    decreases |s|
  {
    if s == [] then []
    else
      var n := SpaceFreeLength(s);
      if n == |s| then [s] else [s[..n]] + Unrender(s[n + 1..])
  }

  /** Length of the longest prefix of `s` without a space. */
  function SpaceFreeLength(s: string): (n: nat)
    ensures n <= |s|
    ensures forall i :: 0 <= i < n ==> s[i] != ' '
    ensures n < |s| ==> s[n] == ' '
  {
    if s == [] || s[0] == ' ' then 0 else 1 + SpaceFreeLength(s[1..])
  }

  /** Reading stops at the space written after a space-free token. */
  lemma UnrenderToken(t: string, rest: string)
    requires ' ' !in t
    ensures Unrender(t + " " + rest) == [t] + Unrender(rest)
  {
    var s := t + " " + rest;
    var n := SpaceFreeLength(s);
    assert forall i :: 0 <= i < |t| ==> s[i] == t[i];
    assert s[|t|] == ' ';
    assert n == |t|;
    assert s[..n] == t && s[n + 1..] == rest;
  }

  /** Tokens without spaces are read back exactly from their rendering. */
  lemma {:induction false} UnrenderRender(tokens: seq<string>)
    requires forall j :: 0 <= j < |tokens| ==> ' ' !in tokens[j]
    ensures Unrender(Render(tokens)) == tokens
  {
    if tokens != [] {
      UnrenderToken(tokens[0], Render(tokens[1..]));
      UnrenderRender(tokens[1..]);
      assert tokens == [tokens[0]] + tokens[1..];
    }
  }

  /**
   * For a positive minSize, the output is empty or ends in a space, every
   * token is made of `[0-9a-zA-Z']`, and splitting the output at its spaces
   * gives back exactly the token sequence.
   */
  lemma TokenizeOutput(text: string, m: nat)
    ensures var out := Render(TextTokens(SplitTextToWords(text), m));
      && (out == [] || out[|out| - 1] == ' ')
      && (forall j :: 0 <= j < |TextTokens(SplitTextToWords(text), m)| ==>
            AllWordChars(TextTokens(SplitTextToWords(text), m)[j]))
      && Unrender(out) == TextTokens(SplitTextToWords(text), m)
  {
    var words := SplitTextToWords(text);
    SplitWordsShape(text);
    TokensAreWordChars(words, m);
    var tokens := TextTokens(words, m);
    forall j | 0 <= j < |tokens|
      ensures ' ' !in tokens[j]
    {
      assert AllWordChars(tokens[j]);
      assert !IsWordChar(' ');
    }
    UnrenderRender(tokens);
  }

  // ---------------------------------------------------------------------------
  // Worked examples

  /** "tests" with minimum size 3: every substring of length 3 or more, by start then length. */
  lemma ExampleTests()
    ensures TextTokens(SplitTextToWords("tests"), 3) == ["tes", "test", "tests", "est", "ests", "sts"]
  {
    assert !HasSeparator("tests") by {
      assert forall i :: 0 <= i < 5 ==> IsWordChar("tests"[i]);
    }
    assert TextTokens(["tests"], 3) == WordTokens("tests", 3);
    var w := "tests";
    assert Row(w, 0, 3, 3) == ["tes", "test", "tests"] by {
      assert w[0..3] == "tes" && w[0..4] == "test" && w[0..5] == "tests";
    }
    assert Row(w, 1, 3, 2) == ["est", "ests"] by {
      assert w[1..4] == "est" && w[1..5] == "ests";
    }
    assert Row(w, 2, 3, 1) == ["sts"] by {
      assert w[2..5] == "sts";
    }
    assert Expansion(w, 3, 1) == Row(w, 0, 3, 3);
    assert Expansion(w, 3, 2) == Row(w, 0, 3, 3) + Row(w, 1, 3, 2);
  }

  /** The empty text is one empty word, which comes out as a lone space. */
  lemma ExampleEmptyText(m: nat)
    ensures Render(TextTokens(SplitTextToWords(""), m)) == " "
  {
    SplitWordsEmpty("");
    assert TextTokens([""], m) == [""] by {
      assert [""][..0] == [];
    }
  }

  /**
   * A leading separator gives a leading empty word, hence a leading space.
   * The text comes in as a parameter fixed by the precondition, so that the
   * solver unfolds the functions on it only as far as the proof asks, not
   * eagerly as it does on a literal argument.
   */
  lemma ExampleLeadingSeparator(text: string)
    requires text == ", ab"
    ensures Render(TextTokens(SplitTextToWords(text), 2)) == " ab "
  {
    ExampleSplitLeadingSeparator();
    var words := ["", "ab"];
    ShortWordsUnchanged(words, 2);
    assert Render(words) == words[0] + " " + Render(words[1..]);
    assert Render(words[1..]) == words[1] + " " + Render([]);
  }

  /** A text made only of separators has no words and gives no output. */
  lemma ExampleOnlySeparators(m: nat)
    ensures Render(TextTokens(SplitTextToWords(" ,!"), m)) == ""
  {
    SplitWordsEmpty(" ,!");
    assert !HasWordChar(" ,!") by {
      assert forall i :: 0 <= i < 3 ==> !IsWordChar(" ,!"[i]);
    }
  }
}
