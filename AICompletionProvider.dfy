/**
 * AICompletionProvider: decides whether a completion request should reach
 * the AI service, asks the service with the analysed context, and turns a
 * reply into one lookup item: markdown fences stripped, trimmed, shown
 * shortened, and inserted over the completion range with the caret after it.
 *
 * The editor, the PSI position and the completion result set are values
 * passed in; the 3-second wait on the reply is a flag saying whether it
 * expired.
 */
module AICompletionProvider {
  import opened JavaText
  import opened TextIndex
  import CodeContextAnalyzer
  import AIService

  const MaxCompletionTimeMs: nat := 3000
  const MinTriggerLength: nat := 3

  // ===========================================================================
  // When to trigger
  // ===========================================================================

  /** isSupportedFileType: the extension, when there is a virtual file and it has one, is on the allow-list. */
  predicate IsSupportedFileType(extension: Option<string>)
  {
    extension.Some? &&
      (extension.value == "java" || extension.value == "py" || extension.value == "js"
       || extension.value == "ts" || extension.value == "kt" || extension.value == "scala")
  }

  /** isInComment: a textual test on the PSI element at the caret. */
  predicate IsInComment(elementText: string)
  {
    Contains(elementText, "//") || Contains(elementText, "/*") || Contains(elementText, "#")
  }

  /** isIncompleteCode. */
  predicate IsIncompleteCode(currentLine: string)
  {
    var trimmed := Trim(currentLine);
    EndsWith(trimmed, ":") || EndsWith(trimmed, "{")
    || Contains(currentLine, "def ") || Contains(currentLine, "function ")
    || Contains(currentLine, "public ") || Contains(currentLine, "private ") || Contains(currentLine, "protected ")
  }

  /**
   * getCurrentLine: the line through the offset, which is the largest
   * newline-free slice of the text around the offset.
   */
  function GetCurrentLine(text: string, offset: nat): (line: string)
    requires offset <= |text|
    ensures exists a, b ::
              && 0 <= a <= offset <= b <= |text| && line == text[a..b]
              && (a == 0 || text[a - 1] == '\n') && (b == |text| || text[b] == '\n')
    ensures '\n' !in line
  {
    LineIsMaximal(text, offset);
    LineText(text, LineNumber(text, offset))
  }

  /** shouldTriggerCompletion, with isAvailable's answer and the extension passed in. */
  predicate ShouldTriggerCompletion(available: bool, extension: Option<string>, elementText: string, currentLine: string)
  {
    if !available then false
    else if !IsSupportedFileType(extension) then false
    else if IsInComment(elementText) then true
    else if IsIncompleteCode(currentLine) then true
    else |Trim(currentLine)| >= MinTriggerLength
  }

  /**
   * Triggering needs an available service and a supported file; given those,
   * it happens exactly when the caret is in a comment, the line looks
   * unfinished, or the line has at least three characters once trimmed.
   */
  lemma TriggerConditions(available: bool, extension: Option<string>, elementText: string, currentLine: string)
    ensures ShouldTriggerCompletion(available, extension, elementText, currentLine) ==>
      available && extension.Some? && extension.value in {"java", "py", "js", "ts", "kt", "scala"}
    ensures available && IsSupportedFileType(extension) ==>
      (ShouldTriggerCompletion(available, extension, elementText, currentLine) <==>
         IsInComment(elementText) || IsIncompleteCode(currentLine) || |Trim(currentLine)| >= 3)
  {
  }

  /** The allow-list is case-sensitive: "JAVA" is not supported, and a file without an extension never is. */
  lemma FileTypeIsCaseSensitive()
    ensures !IsSupportedFileType(Some("JAVA")) && IsSupportedFileType(Some("java"))
    ensures !IsSupportedFileType(None)
  {
  }

  /** A substring of a slice is a substring of the whole. */
  lemma ContainsInSlice(s: string, i: nat, j: nat, t: string)
    requires i <= j <= |s| && |t| > 0 && Contains(s[i..j], t)
    ensures Contains(s, t)
  {
    ContainsIff(s[i..j], t);
    var k :| MatchesAt(s[i..j], t, k);
    assert 0 <= k && k + |t| <= j - i;
    assert forall m :: 0 <= m < |t| ==> s[i + k + m] == s[i..j][k + m] == t[m];
    assert s[i + k..i + k + |t|] == t;
    assert MatchesAt(s, t, i + k);
    ContainsIff(s, t);
  }

  lemma ContainsInTrim(s: string, t: string)
    requires |t| > 0 && Contains(Trim(s), t)
    ensures Contains(s, t)
  {
    TrimIsSlice(s);
    var i, j :| 0 <= i <= j <= |s| && Trim(s) == s[i..j];
    ContainsInSlice(s, i, j, t);
  }

  /** A definition keyword found in the trimmed line is found in the line itself. */
  lemma KeywordMakesIncomplete(currentLine: string)
    requires var t := Trim(currentLine);
      Contains(t, "def ") || Contains(t, "function ") || Contains(t, "public ") || Contains(t, "private ")
    ensures IsIncompleteCode(currentLine)
  {
    var t := Trim(currentLine);
    if Contains(t, "def ") {
      ContainsInTrim(currentLine, "def ");
    } else if Contains(t, "function ") {
      ContainsInTrim(currentLine, "function ");
    } else if Contains(t, "public ") {
      ContainsInTrim(currentLine, "public ");
    } else {
      ContainsInTrim(currentLine, "private ");
    }
  }

  /**
   * Every line the context analyser classifies as a function definition, and
   * every block start that ends in ':' or '{', counts as incomplete code.
   */
  lemma DefinitionsAreIncomplete(currentLine: string)
    ensures CodeContextAnalyzer.DetermineCompletionContext(currentLine, false) == CodeContextAnalyzer.FunctionDefinition
            ==> IsIncompleteCode(currentLine)
    ensures (CodeContextAnalyzer.DetermineCompletionContext(currentLine, false) == CodeContextAnalyzer.BlockStart
             && !EndsWith(Trim(currentLine), "(")) ==> IsIncompleteCode(currentLine)
  {
    var t := Trim(currentLine);
    if Contains(t, "def ") || Contains(t, "function ") || Contains(t, "public ") || Contains(t, "private ") {
      KeywordMakesIncomplete(currentLine);
    }
  }

  // ===========================================================================
  // cleanAISuggestion
  // ===========================================================================

  /** The regex class \w: ASCII letters, digits and '_'. */
  predicate IsWordChar(c: char)
  {
    ('a' <= c <= 'z') || ('A' <= c <= 'Z') || ('0' <= c <= '9') || c == '_'
  }

  /** The length of the run of word characters at the start of s. */
  function WordRunLength(s: string): (n: nat)
    ensures n <= |s|
    ensures forall k :: 0 <= k < n ==> IsWordChar(s[k])
    ensures n < |s| ==> !IsWordChar(s[n])
  {
    if s != [] && IsWordChar(s[0]) then 1 + WordRunLength(s[1..]) else 0
  }

  const Fence: string := "```"

  /** How much the pattern ```\w*\n? takes from a text that starts with ```: every word character, then one '\n' if there is one. */
  function FenceMatchLength(s: string): (n: nat)
    requires StartsWith(s, Fence)
    ensures 3 <= n <= |s|
  {
    var w := 3 + WordRunLength(s[3..]);
    if w < |s| && s[w] == '\n' then w + 1 else w
  }

  /** replaceAll("```\\w*\\n?", ""): matches found left to right, each removed, the search going on after it. */
  function StripFences(s: string): string
    decreases |s|
  {
    if StartsWith(s, Fence) then StripFences(s[FenceMatchLength(s)..])
    else if s == [] then []
    else [s[0]] + StripFences(s[1..])
  }

  /** cleanAISuggestion. */
  function CleanAISuggestion(suggestion: string): string
  {
    Trim(Replace(StripFences(suggestion), Fence, ""))
  }

  /** No three backticks in a row. */
  ghost predicate FenceFree(s: string)
  {
    forall k :: !MatchesAt(s, Fence, k)
  }

  lemma FenceAt(s: string, k: int)
    ensures MatchesAt(s, Fence, k) <==> 0 <= k && k + 3 <= |s| && s[k] == '`' && s[k + 1] == '`' && s[k + 2] == '`'
  {
    if 0 <= k && k + 3 <= |s| {
      assert s[k..k + 3] == [s[k], s[k + 1], s[k + 2]];
    }
  }

  /** A text that does not start with a backtick keeps its first character. */
  lemma StripKeepsHead(s: string)
    requires s != [] && s[0] != '`'
    ensures StripFences(s) == [s[0]] + StripFences(s[1..])
  {
    assert !StartsWith(s, Fence) by { assert |s| < 3 || s[..3][0] == s[0]; }
  }

  /**
   * The first pass leaves no fence behind: removing matches one after another
   * never brings three backticks together.
   */
  lemma {:induction false} StripLeavesNoFence(s: string)
    ensures FenceFree(StripFences(s))
    decreases |s|
  {
    if StartsWith(s, Fence) {
      StripLeavesNoFence(s[FenceMatchLength(s)..]);
    } else if s != [] {
      var r := StripFences(s[1..]);
      StripLeavesNoFence(s[1..]);
      var out := StripFences(s);
      assert out == [s[0]] + r;
      // r does not start with two backticks when s[0] is one.
      assert s[0] == '`' && |r| >= 2 ==> r[0] != '`' || r[1] != '`' by {
        if s[0] == '`' && |s| >= 2 {
          if s[1] != '`' {
            StripKeepsHead(s[1..]);
          } else {
            assert |s| < 3 || s[2] != '`' by { if |s| >= 3 { FenceAt(s, 0); } }
            var s1 := s[1..];
            assert !StartsWith(s1, Fence) by { if |s1| >= 3 { assert s1[..3][1] == s[2]; } }
            assert r == [s1[0]] + StripFences(s1[1..]);
            if |s| >= 3 {
              StripKeepsHead(s1[1..]);
              assert s1[1..][0] == s[2];
            }
          }
        }
      }
      forall k ensures !MatchesAt(out, Fence, k) {
        FenceAt(out, k);
        if k > 0 {
          FenceAt(r, k - 1);
        }
      }
    }
  }

  /** A fence-free text passes the first pass unchanged. */
  lemma {:induction false} StripFenceFree(s: string)
    requires FenceFree(s)
    ensures StripFences(s) == s
    decreases |s|
  {
    if s != [] {
      assert !StartsWith(s, Fence) by { assert !MatchesAt(s, Fence, 0); }
      forall k ensures !MatchesAt(s[1..], Fence, k) {
        FenceAt(s[1..], k);
        FenceAt(s, k + 1);
      }
      StripFenceFree(s[1..]);
    }
  }

  lemma FenceFreeSlice(s: string, i: nat, j: nat)
    requires i <= j <= |s| && FenceFree(s)
    ensures FenceFree(s[i..j])
  {
    forall k ensures !MatchesAt(s[i..j], Fence, k) {
      FenceAt(s[i..j], k);
      FenceAt(s, i + k);
    }
  }

  /** The second replacement never finds anything to remove. */
  lemma SecondPassIsIdle(suggestion: string)
    ensures Replace(StripFences(suggestion), Fence, "") == StripFences(suggestion)
    ensures CleanAISuggestion(suggestion) == Trim(StripFences(suggestion))
  {
    StripLeavesNoFence(suggestion);
    ReplaceNoMatch(StripFences(suggestion), Fence, "");
  }

  /** The cleaned suggestion is trimmed and holds no ``` at all. */
  lemma CleanedIsTrimmedAndFenceFree(suggestion: string)
    ensures IsTrimmed(CleanAISuggestion(suggestion))
    ensures !Contains(CleanAISuggestion(suggestion), Fence)
  {
    SecondPassIsIdle(suggestion);
    var stripped := StripFences(suggestion);
    StripLeavesNoFence(suggestion);
    TrimIsSlice(stripped);
    var i, j :| 0 <= i <= j <= |stripped| && Trim(stripped) == stripped[i..j];
    FenceFreeSlice(stripped, i, j);
    ContainsIff(CleanAISuggestion(suggestion), Fence);
  }

  /** Cleaning twice is cleaning once. */
  lemma CleanIdempotent(suggestion: string)
    ensures CleanAISuggestion(CleanAISuggestion(suggestion)) == CleanAISuggestion(suggestion)
  {
    var c := CleanAISuggestion(suggestion);
    CleanedIsTrimmedAndFenceFree(suggestion);
    ContainsIff(c, Fence);
    StripFenceFree(c);
    SecondPassIsIdle(c);
    TrimOfTrimmed(c);
  }

  /** Without backticks, cleaning is trimming. */
  lemma CleanWithoutBackticks(suggestion: string)
    requires '`' !in suggestion
    ensures CleanAISuggestion(suggestion) == Trim(suggestion)
  {
    forall k ensures !MatchesAt(suggestion, Fence, k) {
      FenceAt(suggestion, k);
    }
    StripFenceFree(suggestion);
    SecondPassIsIdle(suggestion);
  }

  /** A blank reply cleans to the empty string. */
  lemma CleanBlank(suggestion: string)
    requires IsBlank(suggestion)
    ensures CleanAISuggestion(suggestion) == []
  {
    BlankIff(suggestion);
    assert '`' !in suggestion by {
      forall k | 0 <= k < |suggestion| ensures suggestion[k] != '`' {
        assert suggestion[k] <= ' ';
      }
    }
    CleanWithoutBackticks(suggestion);
  }

  /** Text without backticks passes the first pass unchanged and is not joined with what follows. */
  lemma {:induction false} StripPlainPrefix(a: string, b: string)
    requires '`' !in a
    ensures StripFences(a + b) == a + StripFences(b)
    decreases |a|
  {
    if a != [] {
      calc {
        StripFences(a + b);
        == { StripPlainStep(a, b); }
        [a[0]] + StripFences(a[1..] + b);
        == { StripPlainPrefix(a[1..], b); }
        [a[0]] + (a[1..] + StripFences(b));
        == { assert [a[0]] + a[1..] == a; }
        a + StripFences(b);
      }
    } else {
      assert a + b == b;
    }
  }

  lemma StripPlainStep(a: string, b: string)
    requires a != [] && a[0] != '`'
    ensures StripFences(a + b) == [a[0]] + StripFences(a[1..] + b)
  {
    var ab := a + b;
    StripKeepsHead(ab);
    assert ab[1..] == a[1..] + b;
  }

  lemma WordRunOf(tag: string, rest: string)
    requires forall k :: 0 <= k < |tag| ==> IsWordChar(tag[k])
    requires rest != [] && !IsWordChar(rest[0])
    ensures WordRunLength(tag + rest) == |tag|
  {
    assert forall k :: 0 <= k < |tag| ==> (tag + rest)[k] == tag[k];
    assert (tag + rest)[|tag|] == rest[0];
  }

  /** A fenced block with a language tag cleans to its trimmed body. */
  lemma CleanFencedBlock(tag: string, code: string)
    requires forall k :: 0 <= k < |tag| ==> IsWordChar(tag[k])
    requires '`' !in code
    ensures CleanAISuggestion(Fence + tag + "\n" + code + Fence) == Trim(code)
  {
    var s := Fence + tag + "\n" + code + Fence;
    assert StartsWith(s, Fence);
    assert s[3..] == tag + ("\n" + code + Fence);
    WordRunOf(tag, "\n" + code + Fence);
    var w := 3 + |tag|;
    assert s[w] == '\n';
    assert FenceMatchLength(s) == w + 1;
    assert s[w + 1..] == code + Fence;
    StripPlainPrefix(code, Fence);
    assert StartsWith(Fence, Fence) && FenceMatchLength(Fence) == 3;
    assert StripFences(Fence) == StripFences([]);
    assert code + [] == code;
    ReplaceAbsent(code, Fence, "", '`');
  }

  // ===========================================================================
  // truncateForDisplay
  // ===========================================================================

  /** truncateForDisplay; None where split("\n")[0] would throw, on a long text of newlines only. */
  function TruncateForDisplay(suggestion: string): Option<string>
  {
    if |suggestion| <= 50 then Some(suggestion)
    else
      var pieces := JavaSplit(suggestion);
      if pieces == [] then None
      else if |pieces[0]| <= 50 then Some(pieces[0] + "...")
      else Some(suggestion[..47] + "...")
  }

  /**
   * A short suggestion is shown whole; a long one as a newline-free prefix of
   * at most 50 characters followed by "...": its whole first line when that
   * line ends within 50 characters, otherwise its first 47 characters. It
   * fails exactly on long texts of newlines only.
   */
  lemma TruncateShape(suggestion: string)
    ensures var r := TruncateForDisplay(suggestion);
      && (|suggestion| <= 50 ==> r == Some(suggestion))
      && (r.Some? && |suggestion| > 50 ==>
            exists p :: && |p| <= 50 && StartsWith(suggestion, p) && '\n' !in p && r.value == p + "..."
                        && ((|p| == 47 && '\n' !in suggestion[..51])
                            || (|p| < |suggestion| && suggestion[|p|] == '\n')))
      && (r.None? <==> |suggestion| > 50 && forall k :: 0 <= k < |suggestion| ==> suggestion[k] == '\n')
  {
    var s := suggestion;
    if |s| > 50 {
      var pieces := JavaSplit(s);
      JavaSplitIsLinesPrefix(s);
      if pieces != [] {
        var first := pieces[0];
        FirstLineShape(s);
        var r := TruncateForDisplay(s);
        if |first| <= 50 {
          assert r.value == first + "...";
          assert StartsWith(s, first) && s[|first|] == '\n';
        } else {
          var p := s[..47];
          assert p == first[..47];
          assert '\n' !in p;
          assert s[..51] == first[..51];
          assert r.value == p + "..." && StartsWith(s, p);
        }
        NotAllNewlines(s);
      } else {
        AllNewlinesWhenNoPieces(s);
      }
    }
  }

  /** The first line of a text is a newline-free prefix, ended by '\n' unless it is the whole text. */
  lemma FirstLineShape(s: string)
    ensures var first := Lines(s)[0];
      && |first| <= |s| && s[..|first|] == first && '\n' !in first
      && (|first| < |s| ==> s[|first|] == '\n')
  {
    LineBounds(s, 0);
    LastLineEnds(s);
  }

  /** A text with a non-empty first line is not all newlines. */
  lemma NotAllNewlines(s: string)
    requires s != [] && JavaSplit(s) != []
    ensures !forall k :: 0 <= k < |s| ==> s[k] == '\n'
  {
    if '\n' in s {
      var L := Lines(s);
      JavaSplitIsLinesPrefix(s);
      var r := JavaSplit(s);
      var n := |r| - 1;
      assert r[n] == L[n] && L[n] != [];
      LineBounds(s, n);
      var a := LineStartOffset(s, n);
      assert s[a] == L[n][0];
    } else {
      assert s == [] || s[0] != '\n';
    }
  }

  /** No pieces means '\n' everywhere. */
  lemma AllNewlinesWhenNoPieces(s: string)
    requires JavaSplit(s) == []
    ensures forall k :: 0 <= k < |s| ==> s[k] == '\n'
  {
    JavaSplitIsLinesPrefix(s);
    forall k | 0 <= k < |s| ensures s[k] == '\n' {
      LineIsMaximal(s, k);
      var n := LineNumber(s, k);
      assert Lines(s)[n] == [];
      LineBounds(s, n);
    }
  }

  /** A trimmed, non-empty suggestion always has a display text. */
  lemma TruncateDefinedOnTrimmed(suggestion: string)
    requires suggestion != [] && IsTrimmed(suggestion)
    ensures TruncateForDisplay(suggestion).Some?
  {
    TruncateShape(suggestion);
    assert suggestion[0] != '\n';
  }

  // ===========================================================================
  // The lookup item and the completion flow
  // ===========================================================================

  /** The prefix of the presentable text, as the source file's bytes read it: U+00E2 U+0153 U+00A8 and a space. */
  const SuggestionIcon: string := "\U{e2}\U{153}\U{a8} "
  const SuggestionTypeText: string := "AI Suggestion"
  const SuggestionPriority: int := 1000

  /** The completion entry built for a suggestion; it inserts its lookup string. */
  datatype LookupItem = LookupItem(lookupString: string, presentableText: string, typeText: string,
                                   bold: bool, priority: int)

  /** The gate in addCompletions followed by addAISuggestion. */
  function SuggestionItem(reply: Option<string>): Option<LookupItem>
  {
    if reply.None? || IsBlank(reply.value) then None
    else
      var clean := CleanAISuggestion(reply.value);
      if clean == [] then None
      else
        match TruncateForDisplay(clean)
        case None => None
        case Some(shown) => Some(LookupItem(clean, SuggestionIcon + shown, SuggestionTypeText, true, SuggestionPriority))
  }

  /**
   * A reply yields an item exactly when it cleans to something non-empty; the
   * item inserts the cleaned text, which is trimmed and fence-free, and shows
   * it after the icon in at most 53 characters.
   */
  lemma SuggestionItemProperties(reply: Option<string>)
    ensures var item := SuggestionItem(reply);
      && (item.Some? <==> reply.Some? && CleanAISuggestion(reply.value) != [])
      && (item.Some? ==>
            && item.value.lookupString == CleanAISuggestion(reply.value)
            && IsTrimmed(item.value.lookupString) && !Contains(item.value.lookupString, Fence)
            && StartsWith(item.value.presentableText, SuggestionIcon)
            && |item.value.presentableText| <= |SuggestionIcon| + 53
            && (|item.value.lookupString| <= 50 ==> item.value.presentableText == SuggestionIcon + item.value.lookupString)
            && item.value.typeText == "AI Suggestion" && item.value.priority == 1000)
  {
    if reply.Some? {
      var clean := CleanAISuggestion(reply.value);
      CleanedIsTrimmedAndFenceFree(reply.value);
      if IsBlank(reply.value) {
        CleanBlank(reply.value);
      } else if clean != [] {
        TruncateDefinedOnTrimmed(clean);
        TruncateBound(clean);
        var shown := TruncateForDisplay(clean).value;
        var item := LookupItem(clean, SuggestionIcon + shown, SuggestionTypeText, true, SuggestionPriority);
        assert SuggestionItem(reply) == Some(item);
        assert (SuggestionIcon + shown)[..|SuggestionIcon|] == SuggestionIcon;
      }
    }
  }

  /** The display text has at most 53 characters, and a short text is shown as it is. */
  lemma TruncateBound(suggestion: string)
    ensures var r := TruncateForDisplay(suggestion);
      && (r.Some? ==> |r.value| <= 53)
      && (|suggestion| <= 50 ==> r == Some(suggestion))
  {
  }

  /**
   * addCompletions: nothing happens unless the trigger test passes; then the
   * context is extracted, the service asked (it finishes and updates its
   * cache even when the wait expires), and the reply offered unless the wait
   * expired.
   */
  method AddCompletions(service: AIService.Service, env: AIService.Environment,
                        send: (AIService.AIProvider, string, string) -> AIService.HttpOutcome,
                        fileName: string, language: string, extension: Option<string>,
                        text: string, offset: nat, psi: CodeContextAnalyzer.PsiView, docAvailable: bool,
                        elementText: string, timedOut: bool)
    returns (item: Option<LookupItem>)
    requires offset <= |text|
    modifies service
    ensures var line := GetCurrentLine(text, offset);
      !ShouldTriggerCompletion(AIService.IsAvailable(env), extension, elementText, line) ==>
        item == None && service.responseCache == old(service.responseCache)
    ensures var line := GetCurrentLine(text, offset);
      var context := CodeContextAnalyzer.FullContext(fileName, language, text, offset, psi, docAvailable);
      ShouldTriggerCompletion(AIService.IsAvailable(env), extension, elementText, line) ==>
        && service.responseCache == AIService.CacheAfterCompletion(old(service.responseCache), context, line, env, send)
        && item == (if timedOut then None
                    else SuggestionItem(AIService.CompletionReply(old(service.responseCache), context, line, env, send)))
  {
    var currentLine := GetCurrentLine(text, offset);
    if !ShouldTriggerCompletion(AIService.IsAvailable(env), extension, elementText, currentLine) {
      return None;
    }
    var codeContext := CodeContextAnalyzer.ExtractContext(fileName, language, text, offset, psi, docAvailable);
    var suggestion := service.GetCompletion(codeContext, currentLine, env, send);
    if timedOut {
      return None;
    }
    item := SuggestionItem(suggestion);
  }

  // ===========================================================================
  // handleAIInsert
  // ===========================================================================

  /** Document.replaceString(start, end, replacement). */
  function ReplaceRange(text: string, start: nat, end: nat, replacement: string): (r: string)
    requires start <= end <= |text|
    ensures |r| == |text| - (end - start) + |replacement|
    ensures r[..start] == text[..start]
    ensures r[start..start + |replacement|] == replacement
    ensures r[start + |replacement|..] == text[end..]
  {
    text[..start] + replacement + text[end..]
  }

  /** Replacing a range and then replacing the inserted text back restores the document. */
  lemma ReplaceRangeUndo(text: string, start: nat, end: nat, replacement: string)
    requires start <= end <= |text|
    ensures var r := ReplaceRange(text, start, end, replacement);
      start + |replacement| <= |r| && ReplaceRange(r, start, start + |replacement|, text[start..end]) == text
  {
    var r := ReplaceRange(text, start, end, replacement);
    assert r[..start] + text[start..end] + r[start + |replacement|..] == text[..start] + text[start..end] + text[end..];
    assert text[..start] + text[start..end] + text[end..] == text;
  }

  /** The editor state handleAIInsert touches: the document text and the caret. */
  class EditorBuffer {
    var text: string
    var caret: nat

    ghost predicate Valid()
      reads this
    {
      caret <= |text|
    }

    constructor(initialText: string, initialCaret: nat)
      requires initialCaret <= |initialText|
      ensures text == initialText && caret == initialCaret && Valid()
    {
      text := initialText;
      caret := initialCaret;
    }

    /** handleAIInsert: the completion range becomes the suggestion and the caret moves just past it. */
    method HandleAIInsert(startOffset: nat, tailOffset: nat, suggestion: string)
      requires Valid() && startOffset <= tailOffset <= |text|
      modifies this
      ensures text == ReplaceRange(old(text), startOffset, tailOffset, suggestion)
      ensures caret == startOffset + |suggestion|
      ensures Valid() && text[..caret] == old(text)[..startOffset] + suggestion
    {
      text := ReplaceRange(text, startOffset, tailOffset, suggestion);
      caret := startOffset + |suggestion|;
      assert text[..caret] == text[..startOffset] + text[startOffset..caret];
    }
  }
}
