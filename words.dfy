/**
 * `SearchUtils.splitTextToWords`: `text.split("[^0-9a-zA-Z']+")` with Java's
 * `String.split` semantics. The text is cut at every maximal run of separator
 * characters; when no separator occurs the text itself is the only word;
 * otherwise trailing empty strings are removed (a leading one is kept).
 */
module Words {

  /** The character class `[0-9a-zA-Z']`. */
  predicate IsWordChar(c: char) {
    ('0' <= c <= '9') || ('a' <= c <= 'z') || ('A' <= c <= 'Z') || c == '\''
  }

  predicate AllWordChars(s: string) {
    forall i :: 0 <= i < |s| ==> IsWordChar(s[i])
  }

  predicate HasSeparator(s: string) {
    exists i :: 0 <= i < |s| && !IsWordChar(s[i])
  }

  predicate HasWordChar(s: string) {
    exists i :: 0 <= i < |s| && IsWordChar(s[i])
  }

  /** Length of the longest prefix of `s` made of word characters. */
  function WordRunLength(s: string): (n: nat)
    ensures n <= |s|
    ensures forall i :: 0 <= i < n ==> IsWordChar(s[i])
    ensures n < |s| ==> !IsWordChar(s[n])
  {
    if s == [] || !IsWordChar(s[0]) then 0 else 1 + WordRunLength(s[1..])
  }

  /** Length of the longest prefix of `s` made of separator characters. */
  function SeparatorRunLength(s: string): (n: nat)
    ensures n <= |s|
    ensures forall i :: 0 <= i < n ==> !IsWordChar(s[i])
    ensures n < |s| ==> IsWordChar(s[n])
  {
    if s == [] || IsWordChar(s[0]) then 0 else 1 + SeparatorRunLength(s[1..])
  }

  /**
   * The strings between the maximal separator runs of `s`, in order, before
   * Java removes trailing empty strings: ",a,,b," gives ["", "a", "b", ""].
   */
  function Pieces(s: string): (ps: seq<string>)
    ensures |ps| >= 1
    decreases |s|
  {
    var k := WordRunLength(s);
    if k == |s| then [s]
    else
      var rest := s[k..];
      var j := SeparatorRunLength(rest);
      [s[..k]] + Pieces(rest[j..])
  }

  /** Removes the empty strings at the end of `ps`, as `String.split` with limit 0 does. */
  function DropTrailingEmpty(ps: seq<string>): (r: seq<string>)
    ensures r <= ps
    ensures |r| > 0 ==> r[|r| - 1] != []
    ensures forall i :: |r| <= i < |ps| ==> ps[i] == []
  {
    if |ps| > 0 && ps[|ps| - 1] == [] then DropTrailingEmpty(ps[..|ps| - 1]) else ps
  }

  /**
   * `text.split("[^0-9a-zA-Z']+")`: a text without a separator is its own
   * only word; otherwise the pieces between separator runs, without the
   * trailing empty ones. So the last word is non-empty unless the text is
   * the only word.
   */
  function SplitTextToWords(text: string): (words: seq<string>)
    ensures words == [] || words[|words| - 1] != [] || words == [text]
    ensures !HasSeparator(text) ==> |words| == 1
  {
    if !HasSeparator(text) then [text] else DropTrailingEmpty(Pieces(text))
  }

  /** The concatenation of a sequence of strings. */
  function Concat(ws: seq<string>): (s: string)
  {
    if ws == [] then [] else ws[0] + Concat(ws[1..])
  }

  /** The word characters of `s`, in order, with every separator removed. */
  function WordCharsOf(s: string): (chars: string)
  {
    if s == [] then [] else (if IsWordChar(s[0]) then [s[0]] else []) + WordCharsOf(s[1..])
  }

  // ---------------------------------------------------------------------------
  // Helpers about Concat and WordCharsOf

  lemma ConcatCons(w: string, ws: seq<string>)
    ensures Concat([w] + ws) == w + Concat(ws)
  {
    assert ([w] + ws)[0] == w && ([w] + ws)[1..] == ws;
  }

  lemma {:induction false} ConcatSnoc(ws: seq<string>, w: string)
    ensures Concat(ws + [w]) == Concat(ws) + w
  {
    if ws != [] {
      assert (ws + [w])[1..] == ws[1..] + [w];
      ConcatSnoc(ws[1..], w);
    }
  }

  /** Dropping empty strings from the end leaves the concatenation unchanged. */
  lemma {:induction false} ConcatDropTrailingEmpty(ps: seq<string>)
    ensures Concat(DropTrailingEmpty(ps)) == Concat(ps)
    decreases |ps|
  {
    if |ps| > 0 && ps[|ps| - 1] == [] {
      var front := ps[..|ps| - 1];
      ConcatDropTrailingEmpty(front);
      assert ps == front + [[]];
      ConcatSnoc(front, []);
    }
  }

  lemma {:induction false} WordCharsOfAppend(a: string, b: string)
    ensures WordCharsOf(a + b) == WordCharsOf(a) + WordCharsOf(b)
  {
    if a != [] {
      assert (a + b)[0] == a[0] && (a + b)[1..] == a[1..] + b;
      WordCharsOfAppend(a[1..], b);
    } else {
      assert a + b == b;
    }
  }

  lemma {:induction false} WordCharsOfWord(s: string)
    requires AllWordChars(s)
    ensures WordCharsOf(s) == s
  {
    if s != [] {
      WordCharsOfWord(s[1..]);
    }
  }

  lemma {:induction false} WordCharsOfSeparators(s: string)
    requires !HasWordChar(s)
    ensures WordCharsOf(s) == []
  {
    if s != [] {
      assert !IsWordChar(s[0]);
      forall i | 0 <= i < |s[1..]|
        ensures !IsWordChar(s[1..][i])
      {
        assert s[1..][i] == s[i + 1];
      }
      WordCharsOfSeparators(s[1..]);
    }
  }

  // ---------------------------------------------------------------------------
  // The shape of Pieces

  /**
   * Every piece holds only word characters, only the first and the last may
   * be empty, the first is empty exactly when `s` does not start with a word
   * character, the last exactly when it does not end with one, and there is
   * more than one piece exactly when `s` contains a separator.
   */
  lemma PiecesShape(s: string)
    ensures var ps := Pieces(s);
      && (forall i :: 0 <= i < |ps| ==> AllWordChars(ps[i]))
      && (forall i :: 0 < i < |ps| - 1 ==> ps[i] != [])
      && (ps[0] == [] <==> (s == [] || !IsWordChar(s[0])))
      && (ps[|ps| - 1] == [] <==> (s == [] || !IsWordChar(s[|s| - 1])))
      && (|ps| == 1 <==> !HasSeparator(s))
  {
    PiecesWordChars(s);
    PiecesMiddle(s);
    PiecesEnds(s);
  }

  /** Every piece is made of word characters. */
  lemma {:induction false} PiecesWordChars(s: string)
    ensures forall i :: 0 <= i < |Pieces(s)| ==> AllWordChars(Pieces(s)[i])
    decreases |s|
  {
    var k := WordRunLength(s);
    assert AllWordChars(s[..k]);
    if k == |s| {
      assert s[..k] == s;
    } else {
      var tail := FirstPiece(s);
      PiecesWordChars(tail);
      WordCharsCons(Pieces(s), s[..k], Pieces(tail));
    }
  }

  lemma WordCharsCons(ps: seq<string>, w: string, pt: seq<string>)
    requires ps == [w] + pt && AllWordChars(w)
    requires forall i :: 0 <= i < |pt| ==> AllWordChars(pt[i])
    ensures forall i :: 0 <= i < |ps| ==> AllWordChars(ps[i])
  {
    forall i | 0 < i < |ps|
      ensures AllWordChars(ps[i])
    {
      assert ps[i] == pt[i - 1];
    }
  }

  /** The pieces between the first and the last are non-empty. */
  lemma {:induction false} PiecesMiddle(s: string)
    ensures forall i :: 0 < i < |Pieces(s)| - 1 ==> Pieces(s)[i] != []
    decreases |s|
  {
    var k := WordRunLength(s);
    if k < |s| {
      var tail := FirstPiece(s);
      PiecesMiddle(tail);
      if |Pieces(tail)| >= 2 {
        assert Pieces(tail)[0] != [] by {
          PiecesEnds(tail);
          PiecesTailFacts(s);
        }
      }
      MiddleCons(Pieces(s), s[..k], Pieces(tail));
    }
  }

  lemma MiddleCons(ps: seq<string>, w: string, pt: seq<string>)
    requires ps == [w] + pt
    requires forall i :: 0 < i < |pt| - 1 ==> pt[i] != []
    requires |pt| >= 2 ==> pt[0] != []
    ensures forall i :: 0 < i < |ps| - 1 ==> ps[i] != []
  {
    forall i | 0 < i < |ps| - 1
      ensures ps[i] != []
    {
      assert ps[i] == pt[i - 1];
    }
  }

  /** `s` splits into its first word run and the pieces of what follows the separator run after it. */
  lemma FirstPiece(s: string) returns (tail: string)
    requires WordRunLength(s) < |s|
    ensures tail == PiecesTail(s) && |tail| < |s|
    ensures Pieces(s) == [s[..WordRunLength(s)]] + Pieces(tail)
  {
    tail := PiecesTail(s);
  }

  /** The first and last pieces are empty exactly at a separator end, and one piece means no separator. */
  lemma PiecesEnds(s: string)
    ensures var ps := Pieces(s);
      && (ps[0] == [] <==> (s == [] || !IsWordChar(s[0])))
      && (ps[|ps| - 1] == [] <==> (s == [] || !IsWordChar(s[|s| - 1])))
      && (|ps| == 1 <==> !HasSeparator(s))
  {
    var k := WordRunLength(s);
    if k == |s| {
      assert s[..k] == s;
    } else {
      PiecesTailFacts(s);
      assert Pieces(s)[0] == s[..k];
      PiecesLast(s);
    }
  }

  /** `s` ends with a word character. */
  predicate EndsInWordChar(s: string) {
    s != [] && IsWordChar(s[|s| - 1])
  }

  /** The last piece is non-empty exactly when `s` ends with a word character. */
  lemma {:induction false} PiecesLast(s: string)
    ensures Pieces(s)[|Pieces(s)| - 1] != [] <==> EndsInWordChar(s)
    decreases |s|
  {
    var k := WordRunLength(s);
    if k == |s| {
      assert Pieces(s) == [s];
      assert s != [] ==> IsWordChar(s[|s| - 1]);
    } else {
      var tail := TailKeepsEnd(s);
      PiecesLast(tail);
      LastOfCons(Pieces(s), s[..k], Pieces(tail), EndsInWordChar(s), EndsInWordChar(tail));
    }
  }

  /** The tail after the first word run and separator run ends as `s` does. */
  lemma TailKeepsEnd(s: string) returns (tail: string)
    requires WordRunLength(s) < |s|
    ensures |tail| < |s|
    ensures Pieces(s) == [s[..WordRunLength(s)]] + Pieces(tail)
    ensures EndsInWordChar(s) <==> EndsInWordChar(tail)
  {
    tail := PiecesTail(s);
    PiecesTailFacts(s);
  }

  /** Putting a piece in front keeps the last piece, and with it any fact that is equivalent to its emptiness. */
  lemma LastOfCons(ps: seq<string>, w: string, pt: seq<string>, before: bool, after: bool)
    requires ps == [w] + pt && |pt| >= 1
    requires pt[|pt| - 1] != [] <==> after
    requires before <==> after
    ensures ps[|ps| - 1] != [] <==> before
  {
  }

  /** How the first word run, the separator run after it and the tail of `s` sit in `s`. */
  lemma PiecesTailFacts(s: string)
    requires WordRunLength(s) < |s|
    ensures var k, tail := WordRunLength(s), PiecesTail(s);
      && HasSeparator(s)
      && (k == 0 <==> !IsWordChar(s[0]))
      && (tail != [] ==> IsWordChar(tail[0]) && tail[|tail| - 1] == s[|s| - 1])
      && (tail == [] ==> !IsWordChar(s[|s| - 1]))
  {
    var k := WordRunLength(s);
    var rest := s[k..];
    var j := SeparatorRunLength(rest);
    assert rest[0] == s[k];
    assert 0 < j;
    if k > 0 {
      assert s[..k][0] == s[0];
    }
    if j == |rest| {
      assert rest[..j][j - 1] == s[|s| - 1];
    }
  }

  /** The pieces of `s`, joined, are the word characters of `s`. */
  lemma {:induction false} PiecesKeepWordChars(s: string)
    ensures Concat(Pieces(s)) == WordCharsOf(s)
    decreases |s|
  {
    var k := WordRunLength(s);
    if k == |s| {
      assert s[..k] == s;
      WordCharsOfWord(s);
      assert Concat(Pieces(s)) == s + Concat([]);
    } else {
      var tail := PiecesTail(s);
      PiecesKeepWordChars(tail);
      ConcatCons(s[..k], Pieces(tail));
      WordCharsOfRun(s);
    }
  }

  /** What remains of `s` after its first word run and the separator run that follows. */
  function PiecesTail(s: string): (tail: string)
    requires WordRunLength(s) < |s|
    ensures |tail| < |s|
    ensures Pieces(s) == [s[..WordRunLength(s)]] + Pieces(tail)
  {
    var rest := s[WordRunLength(s)..];
    rest[SeparatorRunLength(rest)..]
  }

  lemma WordCharsOfRun(s: string)
    requires WordRunLength(s) < |s|
    ensures WordCharsOf(s) == s[..WordRunLength(s)] + WordCharsOf(PiecesTail(s))
  {
    WordCharsAfterWordRun(s);
    WordCharsAfterSeparatorRun(s[WordRunLength(s)..]);
  }

  /** A leading word run is kept whole. */
  lemma WordCharsAfterWordRun(s: string)
    ensures WordCharsOf(s) == s[..WordRunLength(s)] + WordCharsOf(s[WordRunLength(s)..])
  {
    var k := WordRunLength(s);
    WordCharsOfSplit(s, k);
    WordCharsOfWord(s[..k]);
  }

  /** A leading separator run is dropped. */
  lemma WordCharsAfterSeparatorRun(rest: string)
    ensures WordCharsOf(rest) == WordCharsOf(rest[SeparatorRunLength(rest)..])
  {
    var j := SeparatorRunLength(rest);
    WordCharsOfSplit(rest, j);
    WordCharsOfSeparators(rest[..j]);
  }

  lemma WordCharsOfSplit(s: string, i: nat)
    requires i <= |s|
    ensures WordCharsOf(s) == WordCharsOf(s[..i]) + WordCharsOf(s[i..])
  {
    assert s == s[..i] + s[i..];
    WordCharsOfAppend(s[..i], s[i..]);
  }

  // ---------------------------------------------------------------------------
  // What splitTextToWords promises

  /**
   * Every word holds only `[0-9a-zA-Z']`, and only the first word can be
   * empty: it is, exactly when the text is empty or starts with a separator
   * and still holds some word character.
   */
  lemma SplitWordsShape(text: string)
    ensures var words := SplitTextToWords(text);
      && (forall i :: 0 <= i < |words| ==> AllWordChars(words[i]))
      && (forall i :: 0 < i < |words| ==> words[i] != [])
      && ((|words| > 0 && words[0] == []) <==>
          (text == [] || (!IsWordChar(text[0]) && HasWordChar(text))))
  {
    SplitWordsContents(text);
    SplitWordsFirstEmpty(text);
  }

  /** Every word holds only word characters, and every word after the first is non-empty. */
  lemma SplitWordsContents(text: string)
    ensures forall i :: 0 <= i < |SplitTextToWords(text)| ==> AllWordChars(SplitTextToWords(text)[i])
    ensures forall i :: 0 < i < |SplitTextToWords(text)| ==> SplitTextToWords(text)[i] != []
  {
    var words := SplitTextToWords(text);
    if !HasSeparator(text) {
      assert words == [text];
      assert AllWordChars(text);
    } else {
      var ps := Pieces(text);
      assert words == DropTrailingEmpty(ps);
      PiecesWordChars(text);
      PiecesMiddle(text);
      forall i | 0 <= i < |words|
        ensures AllWordChars(words[i]) && (i > 0 ==> words[i] != [])
      {
        assert words[i] == ps[i];
        assert AllWordChars(ps[i]);
        if 0 < i < |words| - 1 {
          assert i < |ps| - 1;
        }
      }
    }
  }

  /** The first word is empty exactly when the text is empty, or starts with a separator and still holds a word character. */
  lemma SplitWordsFirstEmpty(text: string)
    ensures (|SplitTextToWords(text)| > 0 && SplitTextToWords(text)[0] == []) <==>
            (text == [] || (!IsWordChar(text[0]) && HasWordChar(text)))
  {
    var words := SplitTextToWords(text);
    if !HasSeparator(text) {
      assert words == [text];
      assert AllWordChars(text);
      if text != [] {
        assert IsWordChar(text[0]);
      }
    } else {
      var ps := Pieces(text);
      assert words == DropTrailingEmpty(ps);
      PiecesShape(text);
      assert text != [];
      if |words| > 0 && words[0] == [] {
        assert ps[0] == [];
        // the last word is non-empty, so there is a second one and it holds a word character
        assert |words| >= 2 && words[1] != [];
        assert ps[1] == words[1];
        PiecesKeepWordChars(text);
        WordCharsShowWordChar(text, ps);
      }
      if !IsWordChar(text[0]) && HasWordChar(text) {
        assert ps[0] == [];
        PiecesKeepWordChars(text);
        NonEmptyPiece(text, ps);
        var i :| 0 < i < |ps| && ps[i] != [];
        assert i < |words|;
      }
    }
  }

  /** An empty text gives one empty word; a text of separators only gives none. */
  lemma SplitWordsEmpty(text: string)
    ensures SplitTextToWords([]) == [[]]
    ensures SplitTextToWords(text) == [] <==> (text != [] && !HasWordChar(text))
  {
    var words := SplitTextToWords(text);
    PiecesShape(text);
    if !HasSeparator(text) {
      if text != [] {
        assert IsWordChar(text[0]);
      }
    } else {
      var ps := Pieces(text);
      PiecesKeepWordChars(text);
      if HasWordChar(text) {
        NonEmptyPiece(text, ps);
        var i :| 0 <= i < |ps| && ps[i] != [];
        assert i < |words|;
      } else {
        WordCharsOfSeparators(text);
        AllEmptyPieces(ps);
      }
    }
  }

  /** The words, joined, are exactly the word characters of the text, in order. */
  lemma SplitWordsKeepWordChars(text: string)
    ensures Concat(SplitTextToWords(text)) == WordCharsOf(text)
  {
    if !HasSeparator(text) {
      assert AllWordChars(text);
      WordCharsOfWord(text);
      assert Concat([text]) == text + Concat([]);
    } else {
      ConcatDropTrailingEmpty(Pieces(text));
      PiecesKeepWordChars(text);
    }
  }

  /**
   * `w` sits in `s` at offset `p` as a maximal run of word characters: it is
   * made of word characters and is neither preceded nor followed by one.
   */
  predicate MaximalRunAt(w: string, s: string, p: nat) {
    AllWordChars(w) && p + |w| <= |s| && s[p..p + |w|] == w
    && (p == 0 || !IsWordChar(s[p - 1]))
    && (p + |w| == |s| || !IsWordChar(s[p + |w|]))
  }

  /** Offsets `a` up to `b` of `s` hold at least one character, and only separators. */
  predicate SeparatorsBetween(s: string, a: nat, b: nat) {
    a < b <= |s| && forall k :: a <= k < b ==> !IsWordChar(s[k])
  }

  /** Only separators follow offset `a` of `s`. */
  predicate SeparatorsFrom(s: string, a: nat) {
    forall k :: a <= k < |s| ==> !IsWordChar(s[k])
  }

  /** `ws[i]` sits at offset `pos[i]` of `s` as a maximal run, in order, with separators between neighbours. */
  predicate RunsInOrder(ws: seq<string>, s: string, pos: seq<nat>) {
    |pos| == |ws|
    && (forall i :: 0 <= i < |ws| ==> MaximalRunAt(ws[i], s, pos[i]))
    && (forall i :: 0 <= i < |ws| - 1 ==> SeparatorsBetween(s, pos[i] + |ws[i]|, pos[i + 1]))
  }

  /**
   * `ws` is `s` cut at its separator runs: the first entry starts at offset
   * 0, every later entry is non-empty, and only separators follow the last.
   */
  predicate IsRunSplit(ws: seq<string>, s: string, pos: seq<nat>) {
    RunsInOrder(ws, s, pos) && |ws| > 0 && pos[0] == 0
    && (forall i :: 0 < i < |ws| ==> ws[i] != [])
    && SeparatorsFrom(s, pos[|ws| - 1] + |ws[|ws| - 1]|)
  }

  /**
   * The pieces of `s` are its maximal runs of word characters in order: the
   * first at offset 0, the last ending at the end of `s`, and a separator run
   * between each two neighbours.
   */
  lemma {:induction false} PiecesAreRuns(s: string) returns (pos: seq<nat>)
    ensures RunsInOrder(Pieces(s), s, pos)
    ensures pos[0] == 0
    ensures pos[|pos| - 1] + |Pieces(s)[|pos| - 1]| == |s|
    decreases |s|
  {
    var k := WordRunLength(s);
    FirstRun(s);
    if k == |s| {
      assert s[..k] == s;
      pos := [0];
    } else {
      var tail, d := FirstGap(s);
      var posT := PiecesAreRuns(tail);
      pos := ConsRun(s, s[..k], Pieces(tail), tail, d, posT);
    }
  }

  lemma FirstRun(s: string)
    ensures MaximalRunAt(s[..WordRunLength(s)], s, 0)
  {
    var k := WordRunLength(s);
    assert s[0..k] == s[..k];
  }

  /** The first word run of `s` is followed by a separator run and then by the tail, at offset `d`. */
  lemma FirstGap(s: string) returns (tail: string, d: nat)
    requires WordRunLength(s) < |s|
    ensures d <= |s| && tail == s[d..] && |tail| < |s|
    ensures SeparatorsBetween(s, WordRunLength(s), d)
    ensures Pieces(s) == [s[..WordRunLength(s)]] + Pieces(tail)
  {
    var k := WordRunLength(s);
    var rest := s[k..];
    var j := SeparatorRunLength(rest);
    assert rest[0] == s[k];
    tail, d := PiecesTail(s), k + j;
    forall i | k <= i < d
      ensures !IsWordChar(s[i])
    {
      assert s[i] == rest[i - k];
    }
  }

  /** The first run of `s`, followed by the runs of the tail at offset `d`, shifted by `d`. */
  lemma ConsRun(s: string, w: string, pt: seq<string>, tail: string, d: nat, posT: seq<nat>)
      returns (pos: seq<nat>)
    requires d <= |s| && tail == s[d..]
    requires MaximalRunAt(w, s, 0) && SeparatorsBetween(s, |w|, d)
    requires RunsInOrder(pt, tail, posT) && |pt| > 0 && posT[0] == 0
    ensures RunsInOrder([w] + pt, s, pos) && pos[0] == 0
    ensures forall i :: 0 <= i < |posT| ==> pos[i + 1] == d + posT[i]
  {
    pos := [0] + seq(|posT|, i requires 0 <= i < |posT| => d + posT[i]);
    var ws := [w] + pt;
    assert !IsWordChar(s[d - 1]);
    forall i | 0 <= i < |ws|
      ensures MaximalRunAt(ws[i], s, pos[i])
    {
      if i > 0 {
        assert ws[i] == pt[i - 1] && pos[i] == d + posT[i - 1];
        RunInSuffix(pt[i - 1], s, tail, d, posT[i - 1]);
      }
    }
    forall i | 0 <= i < |ws| - 1
      ensures SeparatorsBetween(s, pos[i] + |ws[i]|, pos[i + 1])
    {
      if i > 0 {
        assert ws[i] == pt[i - 1];
        ShiftSeparators(s, tail, d, posT[i - 1] + |pt[i - 1]|, posT[i]);
      }
    }
  }

  /** A maximal run of a suffix that follows a separator is a maximal run of the whole. */
  lemma RunInSuffix(w: string, s: string, tail: string, d: nat, p: nat)
    requires 0 < d <= |s| && tail == s[d..] && !IsWordChar(s[d - 1])
    requires MaximalRunAt(w, tail, p)
    ensures MaximalRunAt(w, s, d + p)
  {
    assert s[d + p..d + p + |w|] == tail[p..p + |w|];
    if p > 0 {
      assert s[d + p - 1] == tail[p - 1];
    }
    if d + p + |w| < |s| {
      assert s[d + p + |w|] == tail[p + |w|];
    }
  }

  lemma ShiftSeparators(s: string, tail: string, d: nat, a: nat, b: nat)
    requires d <= |s| && tail == s[d..]
    requires SeparatorsBetween(tail, a, b)
    ensures SeparatorsBetween(s, d + a, d + b)
  {
    forall k | d + a <= k < d + b
      ensures !IsWordChar(s[k])
    {
      assert s[k] == tail[k - d];
    }
  }

  /**
   * The words of the text are its maximal runs of word characters in order:
   * the first starts at offset 0, separator runs lie between neighbours, and
   * only separators follow the last word.
   */
  lemma WordsAreRuns(text: string) returns (pos: seq<nat>)
    ensures SplitTextToWords(text) == [] || IsRunSplit(SplitTextToWords(text), text, pos)
  {
    pos := [];
    if !HasSeparator(text) {
      assert AllWordChars(text);
      assert text[0..|text|] == text;
      pos := [0];
    } else if SplitTextToWords(text) != [] {
      pos := WordsOfPieces(text);
    }
  }

  /** With a separator in the text, the words are the pieces up to the last non-empty one. */
  lemma WordsOfPieces(text: string) returns (pos: seq<nat>)
    requires HasSeparator(text) && SplitTextToWords(text) != []
    ensures IsRunSplit(SplitTextToWords(text), text, pos)
  {
    var ps := Pieces(text);
    var pp := PiecesAreRuns(text);
    PiecesMiddle(text);
    pos := PrefixIsRunSplit(ps, DropTrailingEmpty(ps), text, pp);
  }

  /**
   * Runs in order from offset 0 to the end, with only the ends allowed to be
   * empty, cut after the last non-empty one, form a run split.
   */
  lemma PrefixIsRunSplit(ps: seq<string>, words: seq<string>, text: string, pp: seq<nat>)
      returns (pos: seq<nat>)
    requires RunsInOrder(ps, text, pp) && |ps| > 0 && pp[0] == 0
    requires pp[|ps| - 1] + |ps[|ps| - 1]| == |text|
    requires forall i :: 0 < i < |ps| - 1 ==> ps[i] != []
    requires words <= ps && words != [] && words[|words| - 1] != []
    requires forall i :: |words| <= i < |ps| ==> ps[i] == []
    ensures IsRunSplit(words, text, pos)
  {
    var n := |words|;
    assert words == ps[..n];
    pos := pp[..n];
    RunsPrefix(ps, text, pp, n);
    NothingAfterLastWord(text, ps, pp, n - 1);
    assert words[n - 1] == ps[n - 1] && pos[n - 1] == pp[n - 1];
  }

  /** Leading entries of runs in order are runs in order. */
  lemma RunsPrefix(ws: seq<string>, s: string, pos: seq<nat>, n: nat)
    requires RunsInOrder(ws, s, pos) && n <= |ws|
    ensures RunsInOrder(ws[..n], s, pos[..n])
  {
    assert forall i :: 0 <= i < n ==> ws[..n][i] == ws[i] && pos[..n][i] == pos[i];
  }

  /** Past the last non-empty piece only empty pieces follow, so only separators remain. */
  lemma NothingAfterLastWord(text: string, ps: seq<string>, pp: seq<nat>, n: nat)
    requires RunsInOrder(ps, text, pp) && n < |ps|
    requires pp[|ps| - 1] + |ps[|ps| - 1]| == |text|
    requires forall i :: n < i < |ps| ==> ps[i] == []
    requires forall i :: 0 < i < |ps| - 1 ==> ps[i] != []
    ensures SeparatorsFrom(text, pp[n] + |ps[n]|)
  {
    if n < |ps| - 1 {
      assert ps[n + 1] == [];
      assert SeparatorsBetween(text, pp[n] + |ps[n]|, pp[n + 1]);
    }
  }

  /** A maximal run at offset `p` is the first word run of what starts there. */
  lemma SameRunAt(w: string, v: string, s: string, p: nat)
    requires MaximalRunAt(w, s, p) && MaximalRunAt(v, s, p)
    ensures w == v
  {
    RunIsWordRun(w, s, p);
    RunIsWordRun(v, s, p);
  }

  lemma RunIsWordRun(w: string, s: string, p: nat)
    requires MaximalRunAt(w, s, p)
    ensures |w| == WordRunLength(s[p..])
  {
    var rest := s[p + |w|..];
    assert s[p..] == w + rest;
    if rest != [] {
      assert rest[0] == s[p + |w|];
    }
    WordRunOfPrefix(w, rest);
  }

  /** Word characters followed by the end or a separator form the first word run. */
  lemma {:induction false} WordRunOfPrefix(w: string, rest: string)
    requires AllWordChars(w)
    requires rest == [] || !IsWordChar(rest[0])
    ensures WordRunLength(w + rest) == |w|
  {
    if w == [] {
      assert w + rest == rest;
    } else {
      assert (w + rest)[1..] == w[1..] + rest;
      WordRunOfPrefix(w[1..], rest);
    }
  }

  /** Separators followed by a word character form the first separator run. */
  lemma {:induction false} SeparatorRunOfPrefix(g: string, rest: string)
    requires forall k :: 0 <= k < |g| ==> !IsWordChar(g[k])
    requires rest != [] && IsWordChar(rest[0])
    ensures SeparatorRunLength(g + rest) == |g|
  {
    if g == [] {
      assert g + rest == rest;
    } else {
      assert (g + rest)[1..] == g[1..] + rest;
      SeparatorRunOfPrefix(g[1..], rest);
    }
  }

  /** A non-empty run right after the separators from `e` on starts where they end. */
  lemma RunAfterSeparators(s: string, e: nat, a: nat, w: string)
    requires SeparatorsBetween(s, e, a) && MaximalRunAt(w, s, a) && w != []
    ensures a == e + SeparatorRunLength(s[e..])
  {
    var g, rest := s[e..a], s[a..];
    assert s[e..] == g + rest;
    assert rest[0] == w[0];
    SeparatorRunOfPrefix(g, rest);
  }

  /** The non-empty runs that follow the separators from `e` on start at the same offset. */
  lemma NextRunAt(s: string, e: nat, a: nat, b: nat, w: string, v: string)
    requires SeparatorsBetween(s, e, a) && MaximalRunAt(w, s, a) && w != []
    requires SeparatorsBetween(s, e, b) && MaximalRunAt(v, s, b) && v != []
    ensures a == b
  {
    RunAfterSeparators(s, e, a, w);
    RunAfterSeparators(s, e, b, v);
  }

  /** Two run splits of the same text agree entry by entry, at the same offsets. */
  lemma {:induction false} RunSplitsAgree(ws: seq<string>, vs: seq<string>, s: string, pw: seq<nat>, pv: seq<nat>, n: nat)
    requires IsRunSplit(ws, s, pw) && IsRunSplit(vs, s, pv)
    requires n < |ws| && n < |vs|
    ensures pw[n] == pv[n] && ws[n] == vs[n]
  {
    if n > 0 {
      RunSplitsAgree(ws, vs, s, pw, pv, n - 1);
      NextRunAt(s, pw[n - 1] + |ws[n - 1]|, pw[n], pv[n], ws[n], vs[n]);
    }
    SameRunAt(ws[n], vs[n], s, pw[n]);
  }

  /** A text has exactly one run split. */
  lemma RunSplitUnique(ws: seq<string>, vs: seq<string>, s: string, pw: seq<nat>, pv: seq<nat>)
    requires IsRunSplit(ws, s, pw) && IsRunSplit(vs, s, pv)
    ensures ws == vs
  {
    RunSplitNotShorter(ws, vs, s, pw, pv);
    RunSplitNotShorter(vs, ws, s, pv, pw);
    forall n | 0 <= n < |ws|
      ensures ws[n] == vs[n]
    {
      RunSplitsAgree(ws, vs, s, pw, pv, n);
    }
  }

  /** A run split cannot stop while another one of the same text still has an entry to go. */
  lemma RunSplitNotShorter(ws: seq<string>, vs: seq<string>, s: string, pw: seq<nat>, pv: seq<nat>)
    requires IsRunSplit(ws, s, pw) && IsRunSplit(vs, s, pv)
    ensures |vs| <= |ws|
  {
    if |ws| < |vs| {
      var n := |ws| - 1;
      RunSplitsAgree(ws, vs, s, pw, pv, n);
      WordCharAfter(vs, s, pv, n);
      assert false;
    }
  }

  /** An entry of a run split that has a successor is followed, past a separator run, by a word character. */
  lemma WordCharAfter(ws: seq<string>, s: string, pos: seq<nat>, n: nat)
    requires IsRunSplit(ws, s, pos) && n + 1 < |ws|
    ensures pos[n] + |ws[n]| < pos[n + 1] < |s| && IsWordChar(s[pos[n + 1]])
  {
    assert MaximalRunAt(ws[n + 1], s, pos[n + 1]) && ws[n + 1] != [];
    assert s[pos[n + 1]] == ws[n + 1][0];
  }

  /**
   * Conversely, a run split of the empty text, or of a text with a word
   * character, is exactly what splitTextToWords returns.
   */
  lemma RunSplitIsSplit(text: string, ws: seq<string>, pos: seq<nat>)
    requires IsRunSplit(ws, text, pos)
    requires text == [] || HasWordChar(text)
    ensures SplitTextToWords(text) == ws
  {
    var pw := WordsAreRuns(text);
    SplitWordsEmpty(text);
    RunSplitUnique(SplitTextToWords(text), ws, text, pw, pos);
  }

  // ---------------------------------------------------------------------------
  // Helpers for the lemmas above

  lemma {:induction false} ConcatEmptyIff(ps: seq<string>)
    ensures Concat(ps) == [] <==> forall i :: 0 <= i < |ps| ==> ps[i] == []
  {
    if ps != [] {
      ConcatEmptyIff(ps[1..]);
      assert forall i :: 0 < i < |ps| ==> ps[i] == ps[1..][i - 1];
    }
  }

  lemma AllEmptyPieces(ps: seq<string>)
    requires Concat(ps) == []
    ensures DropTrailingEmpty(ps) == []
  {
    ConcatEmptyIff(ps);
  }

  lemma NonEmptyPiece(text: string, ps: seq<string>)
    requires ps == Pieces(text) && Concat(ps) == WordCharsOf(text)
    requires HasWordChar(text)
    ensures exists i :: 0 <= i < |ps| && ps[i] != []
  {
    var i :| 0 <= i < |text| && IsWordChar(text[i]);
    assert WordCharsOf(text) != [] by {
      WordCharsOfSplit(text, i);
      assert text[i..][0] == text[i];
    }
    ConcatEmptyIff(ps);
  }

  lemma WordCharsShowWordChar(text: string, ps: seq<string>)
    requires ps == Pieces(text) && Concat(ps) == WordCharsOf(text)
    requires exists i :: 0 <= i < |ps| && ps[i] != []
    ensures HasWordChar(text)
  {
    ConcatEmptyIff(ps);
    if !HasWordChar(text) {
      WordCharsOfSeparators(text);
      assert false;
    }
  }

  // ---------------------------------------------------------------------------
  // Examples

  /** A leading separator run leaves an empty first word. */
  lemma ExampleSplitLeadingSeparator()
    ensures SplitTextToWords(", ab") == ["", "ab"]
  {
    var text := ", ab";
    assert HasSeparator(text) by { assert !IsWordChar(text[0]); }
    assert WordRunLength(text) == 0;
    assert SeparatorRunLength(text) == 2 by {
      assert !IsWordChar(text[0]) && !IsWordChar(text[1]) && IsWordChar(text[2]);
    }
    assert text[0..][2..] == "ab";
    assert Pieces("ab") == ["ab"] by {
      assert WordRunLength("ab") == 2 by {
        assert IsWordChar('a') && IsWordChar('b');
      }
    }
  }
}
