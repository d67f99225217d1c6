/**
 * An editor document as plain text.  Lines are the pieces between '\n'
 * characters; line i occupies [LineStartOffset(i), LineEndOffset(i)) without
 * its terminator, and a text ending in '\n' has a last, empty line, so the
 * line count is the number of '\n' plus one.  These functions stand for
 * Document.getLineCount, getLineNumber, getLineStartOffset, getLineEndOffset
 * and getText(TextRange).
 */
module TextIndex {
  import opened JavaText

  /** Document.getLineCount(). */
  function LineCount(text: string): (n: nat)
    ensures n >= 1
  {
    |Lines(text)|
  }

  /** Where line i of L starts when L is joined with "\n". */
  function StartOf(L: seq<string>, i: nat): nat
    requires i <= |L|
  {
    if i == 0 then 0 else StartOf(L, i - 1) + |L[i - 1]| + 1
  }

  /** Document.getLineStartOffset(line). */
  function LineStartOffset(text: string, line: nat): nat
    requires line < LineCount(text)
  {
    StartOf(Lines(text), line)
  }

  /** Document.getLineEndOffset(line): the offset of the line's '\n', or the text length on the last line. */
  function LineEndOffset(text: string, line: nat): nat
    requires line < LineCount(text)
  {
    LineStartOffset(text, line) + |Lines(text)[line]|
  }

  /** Document.getLineNumber(offset): how many '\n' precede the offset. */
  function LineNumber(text: string, offset: nat): nat
    requires offset <= |text|
  {
    |Lines(text[..offset])| - 1
  }

  /** getText(new TextRange(getLineStartOffset(line), getLineEndOffset(line))). */
  function LineText(text: string, line: nat): string
    requires line < LineCount(text)
  {
    LineBounds(text, line);
    text[LineStartOffset(text, line)..LineEndOffset(text, line)]
  }

  // ---------------------------------------------------------------------------
  // Facts about joined lines
  // ---------------------------------------------------------------------------

  lemma {:induction false} StartOfAgrees(L: seq<string>, M: seq<string>, i: nat)
    requires i <= |L| && i <= |M| && L[..i] == M[..i]
    ensures StartOf(L, i) == StartOf(M, i)
  {
    if i > 0 {
      assert L[..i - 1] == L[..i][..i - 1] && M[..i - 1] == M[..i][..i - 1];
      assert L[i - 1] == L[..i][i - 1];
      assert M[i - 1] == M[..i][i - 1];
      StartOfAgrees(L, M, i - 1);
    }
  }

  lemma {:induction false} JoinLength(L: seq<string>)
    requires |L| >= 1
    ensures |Join(L, "\n")| == StartOf(L, |L| - 1) + |L[|L| - 1]|
    decreases |L|
  {
    if |L| > 1 {
      var L' := L[..|L| - 1];
      JoinLength(L');
      StartOfAgrees(L, L', |L'| - 1);
    }
  }

  /** Line i sits at StartOf(L, i) in the joined text, followed by '\n' unless it is the last. */
  lemma {:induction false} JoinSlice(L: seq<string>, i: nat)
    requires i < |L|
    ensures StartOf(L, i) + |L[i]| <= |Join(L, "\n")|
    ensures Join(L, "\n")[StartOf(L, i)..StartOf(L, i) + |L[i]|] == L[i]
    ensures i + 1 < |L| ==> StartOf(L, i) + |L[i]| < |Join(L, "\n")|
                            && Join(L, "\n")[StartOf(L, i) + |L[i]|] == '\n'
    decreases |L|
  {
    JoinLength(L);
    if |L| > 1 {
      var L' := L[..|L| - 1];
      var J' := Join(L', "\n");
      assert Join(L, "\n") == J' + "\n" + L[|L| - 1];
      JoinLength(L');
      StartOfAgrees(L, L', |L'| - 1);
      if i < |L'| {
        JoinSlice(L', i);
        StartOfAgrees(L, L', i);
        assert L'[i] == L[i];
        if i + 1 == |L'| {
          assert StartOf(L, i) + |L[i]| == |J'|;
        }
      } else {
        assert StartOf(L, i) == |J'| + 1;
      }
    }
  }

  /**
   * Cutting the text at an offset cuts its line list the same way: the lines
   * before the cut agree, and the cut line is a prefix of the full line.
   */
  lemma {:induction false} LinesOfPrefix(s: string, off: nat)
    requires off <= |s|
    ensures var P := Lines(s[..off]); var L := Lines(s);
      |P| <= |L| && P[..|P| - 1] == L[..|P| - 1] && StartsWith(L[|P| - 1], P[|P| - 1])
    decreases |s|
  {
    if off == |s| {
      assert s[..off] == s;
    } else {
      var s' := s[..|s| - 1];
      assert s'[..off] == s[..off];
      LinesOfPrefix(s', off);
      var P := Lines(s[..off]);
      var L' := Lines(s');
      var L := Lines(s);
      var n := |P| - 1;
      if s[|s| - 1] == '\n' {
        assert L == L' + [[]];
        assert L[..n] == L'[..n];
        assert L[n] == L'[n];
      } else {
        assert L == L'[..|L'| - 1] + [L'[|L'| - 1] + [s[|s| - 1]]];
        assert L[..n] == L'[..n];
        if n < |L'| - 1 {
          assert L[n] == L'[n];
        } else {
          assert L[n] == L'[n] + [s[|s| - 1]];
        }
      }
    }
  }

  // ---------------------------------------------------------------------------
  // The document contract
  // ---------------------------------------------------------------------------

  /** Every line lies inside the text, in order, separated by one '\n', and its text is the line. */
  lemma {:induction false} LineBounds(text: string, line: nat)
    requires line < LineCount(text)
    ensures LineStartOffset(text, line) <= LineEndOffset(text, line) <= |text|
    ensures text[LineStartOffset(text, line)..LineEndOffset(text, line)] == Lines(text)[line]
    ensures line + 1 < LineCount(text) ==>
      LineEndOffset(text, line) < |text| && text[LineEndOffset(text, line)] == '\n'
      && LineStartOffset(text, line + 1) == LineEndOffset(text, line) + 1
  {
    JoinLines(text);
    JoinedLine(Lines(text), text, line);
  }

  lemma {:induction false} JoinedLine(L: seq<string>, J: string, i: nat)
    requires J == Join(L, "\n") && i < |L|
    ensures StartOf(L, i) + |L[i]| <= |J|
    ensures J[StartOf(L, i)..StartOf(L, i) + |L[i]|] == L[i]
    ensures i + 1 < |L| ==> StartOf(L, i) + |L[i]| < |J| && J[StartOf(L, i) + |L[i]|] == '\n'
                            && StartOf(L, i + 1) == StartOf(L, i) + |L[i]| + 1
  {
    JoinSlice(L, i);
  }

  /** A line's text holds no line terminator. */
  lemma LineTextHasNoNewline(text: string, line: nat)
    requires line < LineCount(text)
    ensures '\n' !in LineText(text, line)
  {
    LineBounds(text, line);
  }

  /**
   * The offset lies on line LineNumber(offset): between that line's start and
   * end, and the text from the line start to the offset has no '\n'.
   */
  lemma {:induction false} CursorOnItsLine(text: string, offset: nat)
    requires offset <= |text|
    ensures LineNumber(text, offset) < LineCount(text)
    ensures var n := LineNumber(text, offset);
      LineStartOffset(text, n) <= offset <= LineEndOffset(text, n)
    ensures '\n' !in text[LineStartOffset(text, LineNumber(text, offset))..offset]
  {
    var P := Lines(text[..offset]);
    var L := Lines(text);
    var n := |P| - 1;
    LinesOfPrefix(text, offset);
    assert P[..n] == L[..n];
    StartOfAgrees(P, L, n);
    JoinLines(text[..offset]);
    JoinLength(P);
    JoinSlice(P, n);
    assert text[..offset][StartOf(P, n)..StartOf(P, n) + |P[n]|] == text[StartOf(L, n)..offset];
  }

  /** split("\n") and the document agree on every line split returns. */
  lemma JavaSplitAgreesWithDocument(text: string, i: nat)
    requires i < |JavaSplit(text)|
    ensures i < LineCount(text) && JavaSplit(text)[i] == LineText(text, i)
  {
    JavaSplitIsLinesPrefix(text);
    LineBounds(text, i);
  }

  /** The last line runs to the end of the text. */
  lemma LastLineEnds(text: string)
    ensures LineEndOffset(text, LineCount(text) - 1) == |text|
  {
    JoinLines(text);
    JoinLength(Lines(text));
  }

  /**
   * The line through an offset is the largest slice around it without a '\n':
   * it starts at the text start or just after a '\n', and ends at the text end
   * or at a '\n'.
   */
  lemma {:induction false} LineIsMaximal(text: string, offset: nat)
    requires offset <= |text|
    ensures var n := LineNumber(text, offset);
      n < LineCount(text)
      && var a := LineStartOffset(text, n); var b := LineEndOffset(text, n);
      && a <= offset <= b <= |text|
      && LineText(text, n) == text[a..b] && '\n' !in text[a..b]
      && (a == 0 || text[a - 1] == '\n')
      && (b == |text| || text[b] == '\n')
  {
    CursorOnItsLine(text, offset);
    var n := LineNumber(text, offset);
    LineBounds(text, n);
    LineTextHasNoNewline(text, n);
    if n > 0 {
      LineBounds(text, n - 1);
    }
    if n + 1 == LineCount(text) {
      LastLineEnds(text);
    }
  }
}
